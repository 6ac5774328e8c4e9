/** The conversation models of client-cpp/gui/src/gui_chat_controller.cpp: at most eight are
    kept, the active one always among them, and the least recently used makes way. */
module ConversationCache {
  import opened Wrappers

  const MAX_MODELS := 8

  /** The keys "room:<name>" and "dm:<user code>". */
  datatype Key = Room(name: string) | Dm(user: string)

  const LOBBY := Room("lobby")

  type ModelId = int

  /** `order` holds the access number of each key's last use, `current` is messageModel_. */
  datatype Cache = Cache(models: map<Key, ModelId>, order: map<Key, int>, sequence: int, active: Key, current: ModelId)

  /** The order in which a table is visited. */
  type Listing = set<Key> -> seq<Key>

  function NewCache(id: ModelId): Cache {
    Cache(map[LOBBY := id], map[LOBBY := 1], 1, LOBBY, id)
  }

  // ---------- Operations ----------

  predicate MayEvict(c: Cache, protected: Key, k: Key) {
    k in c.models && k in c.order && k != c.active && k != protected
  }

  /** The loop that looks for the least recently used key; `best` is the one found so far. */
  function Least(c: Cache, protected: Key, keys: seq<Key>, best: Option<Key>): Option<Key>
    decreases |keys|
  {
    if keys == [] then best
    else if MayEvict(c, protected, keys[0])
            && (best.None? || best.value !in c.order || c.order[keys[0]] < c.order[best.value])
    then Least(c, protected, keys[1..], Some(keys[0]))
    else Least(c, protected, keys[1..], best)
  }

  function Drop(c: Cache, k: Key): Cache {
    c.(models := c.models - {k}, order := c.order - {k})
  }

  function Trim(c: Cache, protected: Key, listing: Listing): Cache
    decreases |c.models|
  {
    if |c.models| <= MAX_MODELS then c
    else
      var victim := Least(c, protected, listing(c.models.Keys), None);
      if victim.None? || victim.value !in c.models then c
      else
        assert (c.models - {victim.value}).Keys == c.models.Keys - {victim.value};
        Trim(Drop(c, victim.value), protected, listing)
  }

  /** ensureConversationModel; `id` is the model it creates if there is none. */
  function Ensure(c: Cache, k: Key, id: ModelId, listing: Listing): Cache {
    var used := c.(order := c.order[k := c.sequence + 1], sequence := c.sequence + 1);
    if k in c.models then used else Trim(used.(models := c.models[k := id]), k, listing)
  }

  /** selectRoom and selectDirectMessage. */
  function Select(c: Cache, k: Key, id: ModelId, listing: Listing): Cache {
    var c1 := Ensure(c, k, id, listing);
    c1.(active := k, current := if k in c1.models then c1.models[k] else id)
  }

  /** The end of resetSessionData. */
  function Reset(c: Cache, id: ModelId, listing: Listing): Cache {
    var c1 := Ensure(c.(active := LOBBY), LOBBY, id, listing);
    c1.(current := if LOBBY in c1.models then c1.models[LOBBY] else id)
  }

  // ---------- The invariant ----------

  ghost predicate Lists(listing: Listing) {
    forall s, k :: k in listing(s) <==> k in s
  }

  /** Keys and access numbers go together; numbers are different and already given out. */
  ghost predicate OrderOk(c: Cache) {
    c.models.Keys == c.order.Keys && Numbered(c.order, c.sequence)
  }

  ghost predicate ModelsOk(c: Cache) {
    && (forall j, k :: j in c.models && k in c.models && c.models[j] == c.models[k] ==> j == k)
    && |c.models| <= MAX_MODELS
    && c.active in c.models && c.current == c.models[c.active]
  }

  ghost predicate Inv(c: Cache) {
    OrderOk(c) && ModelsOk(c)
  }

  // ---------- Eviction ----------

  ghost predicate Oldest(c: Cache, protected: Key, k: Key) {
    MayEvict(c, protected, k) && forall j :: MayEvict(c, protected, j) ==> c.order[k] <= c.order[j]
  }

  lemma {:induction false} LeastMeans(c: Cache, protected: Key, keys: seq<Key>, best: Option<Key>)
    requires OrderOk(c) && (best.Some? ==> MayEvict(c, protected, best.value))
    ensures var r := Least(c, protected, keys, best);
      && (r.Some? ==> MayEvict(c, protected, r.value))
      && (r.None? ==> best.None? && forall k :: k in keys ==> !MayEvict(c, protected, k))
      && (r.Some? ==> forall k :: k in keys && MayEvict(c, protected, k) ==> c.order[r.value] <= c.order[k])
      && (r.Some? && best.Some? ==> c.order[r.value] <= c.order[best.value])
    decreases |keys|
  {
    if keys != [] {
      var best1 := if MayEvict(c, protected, keys[0]) && (best.None? || c.order[keys[0]] < c.order[best.value])
                   then Some(keys[0]) else best;
      LeastMeans(c, protected, keys[1..], best1);
    }
  }

  /** With more than eight models there is one to evict, and the loop finds the oldest. */
  lemma VictimIsOldest(c: Cache, protected: Key, listing: Listing)
    requires OrderOk(c) && Lists(listing) && |c.models| > 2
    ensures var victim := Least(c, protected, listing(c.models.Keys), None);
      victim.Some? && Oldest(c, protected, victim.value)
  {
    var keys := listing(c.models.Keys);
    LeastMeans(c, protected, keys, None);
    var others := c.models.Keys - {c.active} - {protected};
    assert |others| > 0;
    var k :| k in others;
    assert MayEvict(c, protected, k) && k in keys;
  }

  lemma DropKeeps(c: Cache, k: Key)
    requires OrderOk(c) && k in c.models
    ensures OrderOk(Drop(c, k)) && |Drop(c, k).models| == |c.models| - 1
  {
    assert (c.models - {k}).Keys == c.models.Keys - {k};
    assert (c.order - {k}).Keys == c.order.Keys - {k};
  }

  /** One model too many: exactly the least recently used one goes, and neither the active
      conversation nor the one being opened. */
  lemma TrimEvictsOldest(c: Cache, protected: Key, listing: Listing) returns (victim: Key)
    requires OrderOk(c) && Lists(listing) && |c.models| == MAX_MODELS + 1
    ensures Oldest(c, protected, victim)
    ensures Trim(c, protected, listing) == Drop(c, victim) && |Drop(c, victim).models| == MAX_MODELS
    ensures OrderOk(Drop(c, victim))
  {
    VictimIsOldest(c, protected, listing);
    victim := Least(c, protected, listing(c.models.Keys), None).value;
    DropKeeps(c, victim);
  }

  ghost function Used(c: Cache, k: Key): Cache {
    c.(order := c.order[k := c.sequence + 1], sequence := c.sequence + 1)
  }

  ghost function Inserted(c: Cache, k: Key, id: ModelId): Cache {
    Used(c, k).(models := c.models[k := id])
  }

  lemma UsedKeeps(c: Cache, k: Key)
    requires OrderOk(c) && k in c.models
    ensures OrderOk(Used(c, k))
  {
    NewNumber(c.order, c.sequence, k);
    assert c.order.Keys + {k} == c.order.Keys;
  }

  lemma InsertedKeeps(c: Cache, k: Key, id: ModelId)
    requires OrderOk(c) && k !in c.models
    ensures OrderOk(Inserted(c, k, id)) && |Inserted(c, k, id).models| == |c.models| + 1
  {
    NewNumber(c.order, c.sequence, k);
    OneModelMore(c.models, k, id);
  }

  lemma OneModelMore(models: map<Key, ModelId>, k: Key, id: ModelId)
    requires k !in models
    ensures models[k := id].Keys == models.Keys + {k} && |models[k := id]| == |models| + 1
  {
    assert models[k := id].Keys == models.Keys + {k};
  }

  ghost predicate Numbered(order: map<Key, int>, sequence: int) {
    && (forall k :: k in order ==> order[k] <= sequence)
    && (forall j, k :: j in order && k in order && order[j] == order[k] ==> j == k)
  }

  lemma NewNumber(order: map<Key, int>, sequence: int, k: Key)
    requires Numbered(order, sequence)
    ensures Numbered(order[k := sequence + 1], sequence + 1) && order[k := sequence + 1].Keys == order.Keys + {k}
  {
    var order' := order[k := sequence + 1];
    forall i, j | i in order' && j in order' && order'[i] == order'[j] ensures i == j {
      if i != k && j != k { assert order[i] == order[j]; }
    }
  }

  /** Every way opening a conversation can change the cache: a full one loses exactly its
      least recently used model, which is neither the active nor the opened one. */
  lemma EnsureShape(c: Cache, k: Key, id: ModelId, listing: Listing)
    requires OrderOk(c) && |c.models| <= MAX_MODELS && Lists(listing)
    ensures var c' := Ensure(c, k, id, listing);
      && OrderOk(c') && |c'.models| <= 8
      && (k in c.models ==> c' == Used(c, k))
      && (k !in c.models && |c.models| < 8 ==> c' == Inserted(c, k, id))
      && (k !in c.models && |c.models| == 8 ==>
            exists victim :: Oldest(Inserted(c, k, id), k, victim) && c' == Drop(Inserted(c, k, id), victim))
  {
    if k in c.models {
      UsedKeeps(c, k);
    } else {
      InsertedKeeps(c, k, id);
      var c1 := Inserted(c, k, id);
      assert Ensure(c, k, id, listing) == Trim(c1, k, listing);
      if |c1.models| > MAX_MODELS { var victim := TrimEvictsOldest(c1, k, listing); }
    }
  }

  ghost predicate Injective(models: map<Key, ModelId>) {
    forall j, k :: j in models && k in models && models[j] == models[k] ==> j == k
  }

  /** A model that is created is a new object. */
  ghost predicate IsNew(c: Cache, k: Key, id: ModelId) {
    k !in c.models ==> forall j :: j in c.models ==> c.models[j] != id
  }

  /** The models after opening: the opened one and those before, never without the active. */
  ghost predicate Opened(c: Cache, k: Key, id: ModelId, models: map<Key, ModelId>) {
    && Injective(models)
    && k in models && models[k] == (if k in c.models then c.models[k] else id)
    && (forall j :: j in models && j != k ==> j in c.models && models[j] == c.models[j])
    && (c.active in c.models ==> c.active in models)
  }

  lemma OpenedInserted(c: Cache, k: Key, id: ModelId)
    requires Injective(c.models) && IsNew(c, k, id) && k !in c.models
    ensures Opened(c, k, id, c.models[k := id])
  {
  }

  lemma OpenedDropped(c: Cache, k: Key, id: ModelId, victim: Key)
    requires Injective(c.models) && IsNew(c, k, id) && k !in c.models && victim != k && victim != c.active
    ensures Opened(c, k, id, c.models[k := id] - {victim})
  {
    OpenedInserted(c, k, id);
  }

  lemma EnsureModels(c: Cache, k: Key, id: ModelId, listing: Listing)
    requires OrderOk(c) && Injective(c.models) && |c.models| <= MAX_MODELS && Lists(listing) && IsNew(c, k, id)
    ensures var c' := Ensure(c, k, id, listing);
      Opened(c, k, id, c'.models) && c'.active == c.active && c'.current == c.current
  {
    EnsureShape(c, k, id, listing);
    if k !in c.models {
      if |c.models| < MAX_MODELS {
        OpenedInserted(c, k, id);
      } else {
        var c1 := Inserted(c, k, id);
        var victim :| Oldest(c1, k, victim) && Ensure(c, k, id, listing) == Drop(c1, victim);
        OpenedDropped(c, k, id, victim);
      }
    }
  }

  // ---------- The controller's operations ----------

  lemma EnsureKeeps(c: Cache, k: Key, id: ModelId, listing: Listing)
    requires Inv(c) && Lists(listing) && IsNew(c, k, id)
    ensures Inv(Ensure(c, k, id, listing))
  {
    EnsureShape(c, k, id, listing);
    EnsureModels(c, k, id, listing);
  }

  lemma SelectKeeps(c: Cache, k: Key, id: ModelId, listing: Listing)
    requires Inv(c) && Lists(listing) && IsNew(c, k, id)
    ensures Inv(Select(c, k, id, listing)) && Opened(c, k, id, Select(c, k, id, listing).models)
  {
    EnsureKeeps(c, k, id, listing);
    EnsureModels(c, k, id, listing);
  }

  /** Also when the lobby's own model has been evicted before. */
  lemma ResetKeeps(c: Cache, id: ModelId, listing: Listing)
    requires Inv(c) && Lists(listing) && IsNew(c, LOBBY, id)
    ensures Inv(Reset(c, id, listing)) && Opened(c.(active := LOBBY), LOBBY, id, Reset(c, id, listing).models)
  {
    EnsureShape(c.(active := LOBBY), LOBBY, id, listing);
    EnsureModels(c.(active := LOBBY), LOBBY, id, listing);
  }

  /** Selecting a conversation makes it the active one and shows its own model, an old one if
      there was one. */
  lemma SelectActivates(c: Cache, k: Key, id: ModelId, listing: Listing)
    requires Inv(c) && Lists(listing) && IsNew(c, k, id)
    ensures var c' := Select(c, k, id, listing);
      c'.active == k && k in c'.models && c'.current == c'.models[k] == if k in c.models then c.models[k] else id
  {
    EnsureModels(c, k, id, listing);
  }

  /** A reset shows the lobby. */
  lemma ResetActivates(c: Cache, id: ModelId, listing: Listing)
    requires Inv(c) && Lists(listing) && IsNew(c, LOBBY, id)
    ensures var c' := Reset(c, id, listing);
      && c'.active == LOBBY && LOBBY in c'.models
      && c'.current == c'.models[LOBBY] == if LOBBY in c.models then c.models[LOBBY] else id
  {
    EnsureModels(c.(active := LOBBY), LOBBY, id, listing);
  }

  // ---------- Recency ----------

  /** Position of a key's last use in a history, counted from 1; 0 if it was never used. */
  function LastUse(uses: seq<Key>, k: Key): nat {
    if uses == [] then 0 else if uses[|uses| - 1] == k then |uses| else LastUse(uses[..|uses| - 1], k)
  }

  ghost predicate Recency(c: Cache, uses: seq<Key>) {
    c.sequence == |uses| && forall k :: k in c.order ==> c.order[k] == LastUse(uses, k)
  }

  lemma NewIsRecent(id: ModelId)
    ensures Recency(NewCache(id), [LOBBY])
  {
  }

  /** The access numbers are the true history: after every use they still say when each cached
      conversation was last used. */
  lemma RecencyKept(c: Cache, uses: seq<Key>, k: Key, id: ModelId, listing: Listing)
    requires OrderOk(c) && |c.models| <= MAX_MODELS && Lists(listing) && Recency(c, uses)
    ensures Recency(Ensure(c, k, id, listing), uses + [k])
  {
    EnsureShape(c, k, id, listing);
    assert (uses + [k])[..|uses + [k]| - 1] == uses;
    var c' := Ensure(c, k, id, listing);
    forall j | j in c'.order ensures c'.order[j] == LastUse(uses + [k], j) {
      if j != k { assert j in c.order; }
    }
  }

  /** True least recently used: of the conversations that are neither active nor being opened,
      the evicted one was used before every one that stays. */
  lemma EvictsLeastRecentlyUsed(c: Cache, uses: seq<Key>, k: Key, id: ModelId, listing: Listing, gone: Key, kept: Key)
    requires OrderOk(c) && |c.models| <= MAX_MODELS && Lists(listing) && Recency(c, uses)
    requires gone in c.models && gone !in Ensure(c, k, id, listing).models
    requires kept in Ensure(c, k, id, listing).models && kept != c.active && kept != k
    ensures gone != c.active && gone != k
    ensures kept in c.models && LastUse(uses, gone) < LastUse(uses, kept)
    ensures |Ensure(c, k, id, listing).models| == MAX_MODELS
  {
    EnsureShape(c, k, id, listing);
    var c1 := Inserted(c, k, id);
    if k !in c.models && |c.models| == MAX_MODELS {
      var victim :| Oldest(c1, k, victim) && Ensure(c, k, id, listing) == Drop(c1, victim);
      InsertedKeeps(c, k, id);
      DropKeeps(c1, victim);
      StayerIsNewer(c, k, id, victim, gone, kept);
    }
  }

  lemma StayerIsNewer(c: Cache, k: Key, id: ModelId, victim: Key, gone: Key, kept: Key)
    requires OrderOk(c) && OrderOk(Inserted(c, k, id)) && Oldest(Inserted(c, k, id), k, victim)
    requires gone in c.models && gone !in c.models[k := id] - {victim}
    requires kept in c.models[k := id] - {victim} && kept != c.active && kept != k
    ensures gone != c.active && gone != k && kept in c.models
    ensures gone in c.order && kept in c.order && c.order[gone] < c.order[kept]
  {
    assert gone == victim;
    assert kept in c.models && MayEvict(Inserted(c, k, id), k, kept);
  }

  // ---------- The object ----------

  class GuiChatController {
    var conversationModels: map<Key, ModelId>
    var accessOrder: map<Key, int>
    var accessSequence: int
    var activeConversationKey: Key
    var messageModel: ModelId

    ghost function AsCache(): Cache
      reads this
    {
      Cache(conversationModels, accessOrder, accessSequence, activeConversationKey, messageModel)
    }

    constructor (id: ModelId)
      ensures AsCache() == NewCache(id)
    {
      conversationModels, accessOrder := map[LOBBY := id], map[LOBBY := 1];
      accessSequence, activeConversationKey, messageModel := 1, LOBBY, id;
    }

    /** The search of trimConversationModelCache. */
    method LeastRecentlyUsed(protected: Key, keys: seq<Key>) returns (best: Option<Key>)
      ensures best == Least(AsCache(), protected, keys, None)
    {
      best := None;
      for i := 0 to |keys|
        invariant Least(AsCache(), protected, keys[i..], best) == Least(AsCache(), protected, keys, None)
      {
        assert keys[i..][0] == keys[i] && keys[i..][1..] == keys[i + 1..];
        var k := keys[i];
        if k in conversationModels && k in accessOrder && k != activeConversationKey && k != protected {
          if best.None? || best.value !in accessOrder || accessOrder[k] < accessOrder[best.value] { best := Some(k); }
        }
      }
    }

    method TrimConversationModelCache(protected: Key, listing: Listing)
      modifies this
      ensures AsCache() == Trim(old(AsCache()), protected, listing)
    {
      while |conversationModels| > MAX_MODELS
        invariant Trim(AsCache(), protected, listing) == Trim(old(AsCache()), protected, listing)
        decreases |conversationModels|
      {
        var victim := LeastRecentlyUsed(protected, listing(conversationModels.Keys));
        if victim.None? || victim.value !in conversationModels { return; }
        assert (conversationModels - {victim.value}).Keys == conversationModels.Keys - {victim.value};
        conversationModels := conversationModels - {victim.value};
        accessOrder := accessOrder - {victim.value};
      }
    }

    method EnsureConversationModel(k: Key, id: ModelId, listing: Listing)
      modifies this
      ensures AsCache() == Ensure(old(AsCache()), k, id, listing)
    {
      if k in conversationModels {
        accessSequence := accessSequence + 1;
        accessOrder := accessOrder[k := accessSequence];
        return;
      }
      conversationModels := conversationModels[k := id];
      accessSequence := accessSequence + 1;
      accessOrder := accessOrder[k := accessSequence];
      TrimConversationModelCache(k, listing);
    }

    method SelectConversation(k: Key, id: ModelId, listing: Listing)
      requires Inv(AsCache()) && Lists(listing) && IsNew(AsCache(), k, id)
      modifies this
      ensures AsCache() == Select(old(AsCache()), k, id, listing) && Inv(AsCache())
    {
      SelectKeeps(AsCache(), k, id, listing);
      EnsureConversationModel(k, id, listing);
      messageModel := conversationModels[k];
      activeConversationKey := k;
    }

    method ResetSession(id: ModelId, listing: Listing)
      requires Inv(AsCache()) && Lists(listing) && IsNew(AsCache(), LOBBY, id)
      modifies this
      ensures AsCache() == Reset(old(AsCache()), id, listing) && Inv(AsCache())
    {
      ResetKeeps(AsCache(), id, listing);
      activeConversationKey := LOBBY;
      EnsureConversationModel(LOBBY, id, listing);
      messageModel := conversationModels[LOBBY];
    }
  }
}
