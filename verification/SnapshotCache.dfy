/** The incremental state snapshot of client-cpp/gui/src/chat_bridge.cpp over the models of the
    controller: a model is serialized again only if it was marked dirty. */
module SnapshotCache {
  import opened ChatModel
  import Cache = ConversationCache

  type ModelId = Cache.ModelId
  type Key = Cache.Key

  const MESSAGE_ROLES: Roles :=
    {"messageId", "displayName", "userCode", "time", "content", "selfMessage", "systemMessage", "deliveryState",
     "attachment"}

  datatype Model = Model(roles: Roles, rows: seq<Row>)

  /** The live models, the controller's tables and the bridge's three. */
  datatype Ui = Ui(
    models: map<ModelId, Model>,
    cache: Cache.Cache,
    rooms: ModelId, directs: ModelId, members: ModelId,
    snapshots: map<ModelId, Snapshot>, dirty: set<ModelId>, connected: set<ModelId>)

  // ---------- The bridge ----------

  function Connect(u: Ui, m: ModelId): Ui {
    if m in u.connected then u else u.(connected := u.connected + {m}, dirty := u.dirty + {m})
  }

  /** A change of a model marks it dirty if it notifies and the bridge is connected to it. */
  function Change(u: Ui, m: ModelId, op: Op): Ui {
    if m !in u.models then u
    else
      var r := Apply(u.models[m].roles, u.models[m].rows, op);
      u.(models := u.models[m := u.models[m].(rows := r.rows)],
         dirty := if r.notified && m in u.connected then u.dirty + {m} else u.dirty)
  }

  function Fresh(u: Ui, m: ModelId): Snapshot {
    if m in u.models then Serialize(u.models[m].roles, u.models[m].rows) else []
  }

  function Build(u: Ui): Ui {
    u.(snapshots := map m | m in u.snapshots.Keys + u.dirty :: if m in u.dirty then Fresh(u, m) else u.snapshots[m],
       dirty := {})
  }

  /** What the state holds for a model. */
  function SnapshotFor(u: Ui, m: ModelId): Snapshot {
    if m in u.snapshots then u.snapshots[m] else []
  }

  /** Models are destroyed; the slots connected to that take them out of the bridge's tables. */
  function Forget(u: Ui, gone: set<ModelId>): Ui {
    u.(models := u.models - gone,
       snapshots := u.snapshots - gone, dirty := u.dirty - gone, connected := u.connected - gone)
  }

  // ---------- The controller ----------

  function Ids(c: Cache.Cache): set<ModelId> {
    c.models.Values
  }

  /** The controller's tables become `c`: a model for a new conversation is created, the ones
      that fell out of the cache are destroyed and the bridge forgets them. */
  function Adopt(u: Ui, c: Cache.Cache, k: Key, id: ModelId): Ui {
    var models := if k in u.cache.models then u.models else u.models[id := Model(MESSAGE_ROLES, [])];
    Forget(u.(models := models), Ids(u.cache) - Ids(c)).(cache := c)
  }

  function Use(u: Ui, k: Key, id: ModelId, op: Op, listing: Cache.Listing): Ui {
    var c := Cache.Ensure(u.cache, k, id, listing);
    var u1 := Adopt(u, c, k, id);
    if k in c.models then Change(u1, c.models[k], op) else u1
  }

  function Select(u: Ui, k: Key, id: ModelId, listing: Cache.Listing): Ui {
    var c := Cache.Select(u.cache, k, id, listing);
    Connect(Adopt(u, c, k, id), c.current)
  }

  function Reset(u: Ui, id: ModelId, listing: Cache.Listing): Ui {
    var c := Cache.Reset(u.cache, id, listing);
    Connect(Adopt(u, c, Cache.LOBBY, id), c.current)
  }

  /** The state after the constructors, with `a` to `d` the first four models. */
  function Start(roomRoles: Roles, directRoles: Roles, memberRoles: Roles,
                 a: ModelId, b: ModelId, c: ModelId, d: ModelId): Ui
  {
    Build(Connected(FirstModels(roomRoles, directRoles, memberRoles, a, b, c, d), a, b, c, d))
  }

  function FirstModels(roomRoles: Roles, directRoles: Roles, memberRoles: Roles,
                       a: ModelId, b: ModelId, c: ModelId, d: ModelId): map<ModelId, Model>
  {
    map[a := Model(roomRoles, []), b := Model(directRoles, []), c := Model(memberRoles, []),
        d := Model(MESSAGE_ROLES, [])]
  }

  function Connected(models: map<ModelId, Model>, a: ModelId, b: ModelId, c: ModelId, d: ModelId): Ui {
    Ui(models, Cache.NewCache(d), a, b, c, map[], {a, b, c, d}, {a, b, c, d})
  }

  /** `UseEvent` is a message for a conversation, open or not. */
  datatype Event =
    | ChangeEvent(model: ModelId, op: Op)
    | UseEvent(key: Key, id: ModelId, op: Op)
    | SelectEvent(key: Key, id: ModelId)
    | ResetEvent(id: ModelId)
    | BuildEvent

  function Step(u: Ui, e: Event, listing: Cache.Listing): Ui {
    match e
    case ChangeEvent(m, op) => Change(u, m, op)
    case UseEvent(k, id, op) => Use(u, k, id, op, listing)
    case SelectEvent(k, id) => Select(u, k, id, listing)
    case ResetEvent(id) => Reset(u, id, listing)
    case BuildEvent => Build(u)
  }

  function Run(u: Ui, events: seq<Event>, listing: Cache.Listing): Ui
    decreases |events|
  {
    if events == [] then u else Run(Step(u, events[0], listing), events[1..], listing)
  }

  // ---------- The invariant ----------

  /** A connected model is dirty or its cached snapshot is what serializing it would give. */
  ghost predicate SnapshotsOk(u: Ui) {
    && u.dirty <= u.connected <= u.models.Keys && u.snapshots.Keys <= u.connected
    && forall m :: m in u.connected && m !in u.dirty ==> m in u.snapshots && u.snapshots[m] == Fresh(u, m)
  }

  ghost predicate SizesOk(u: Ui) {
    forall m :: m in u.models ==> |u.models[m].rows| <= MAX_ROWS
  }

  /** The models the state is built from are live and connected; conversations have models of
      their own. */
  ghost predicate SourcesOk(u: Ui) {
    && Cache.Inv(u.cache) && Ids(u.cache) <= u.models.Keys
    && {u.rooms, u.directs, u.members} <= u.connected
    && {u.rooms, u.directs, u.members} !! Ids(u.cache)
    && u.cache.current in u.connected
  }

  ghost predicate Inv(u: Ui) {
    SnapshotsOk(u) && SizesOk(u) && SourcesOk(u)
  }

  // ---------- Every step ----------

  lemma ChangeKeeps(u: Ui, m: ModelId, op: Op)
    requires Inv(u)
    ensures Inv(Change(u, m, op))
  {
    if m in u.models { VisibleChangeNotifies(u.models[m].roles, u.models[m].rows, op); }
  }

  lemma BuildKeeps(u: Ui)
    requires Inv(u)
    ensures Inv(Build(u)) && Build(u).dirty == {}
  {
  }

  ghost predicate TablesOk(u: Ui) {
    SnapshotsOk(u) && SizesOk(u)
  }

  lemma ForgetKeeps(u: Ui, gone: set<ModelId>)
    requires SnapshotsOk(u)
    ensures SnapshotsOk(Forget(u, gone))
  {
  }

  /** A model is destroyed and another is created at its address and connected. */
  function Reused(u: Ui, m: ModelId, again: Model): Ui {
    var v := Forget(u, {m});
    Connect(v.(models := v.models[m := again]), m)
  }

  /** An address used again starts dirty: nothing is left of the model that was there before. */
  lemma ReusedAddressIsDirty(u: Ui, m: ModelId, again: Model)
    requires SnapshotsOk(u)
    ensures var v := Reused(u, m, again); SnapshotsOk(v) && m in v.dirty && m !in v.snapshots
  {
    ForgetKeeps(u, {m});
  }

  /** Models come and go without a stale snapshot, even when an address is used again. */
  lemma AdoptTables(u: Ui, c: Cache.Cache, k: Key, id: ModelId)
    requires TablesOk(u) && id !in u.models
    ensures TablesOk(Adopt(u, c, k, id))
  {
  }

  lemma AdoptSources(u: Ui, c: Cache.Cache, k: Key, id: ModelId)
    requires Inv(u) && id !in u.models && Cache.Inv(c) && Cache.Opened(u.cache, k, id, c.models)
    ensures var u' := Adopt(u, c, k, id);
      && Ids(u'.cache) <= u'.models.Keys
      && {u'.rooms, u'.directs, u'.members} <= u'.connected
      && {u'.rooms, u'.directs, u'.members} !! Ids(u'.cache)
      && (c.current == u.cache.current ==> u'.cache.current in u'.connected)
  {
    var u' := Adopt(u, c, k, id);
    forall m | m in Ids(c) ensures m in u'.models && m != u.rooms && m != u.directs && m != u.members {
      var j :| j in c.models && c.models[j] == m;
      assert m == id || m in Ids(u.cache);
    }
    if c.current == u.cache.current {
      assert c.models[c.active] == c.current;
      assert c.current in Ids(c);
    }
  }

  lemma IdIsNew(u: Ui, k: Key, id: ModelId)
    requires Ids(u.cache) <= u.models.Keys && id !in u.models
    ensures Cache.IsNew(u.cache, k, id) && Cache.IsNew(u.cache.(active := Cache.LOBBY), k, id)
  {
    forall j | j in u.cache.models ensures u.cache.models[j] != id { assert u.cache.models[j] in Ids(u.cache); }
  }

  lemma UseKeeps(u: Ui, k: Key, id: ModelId, op: Op, listing: Cache.Listing)
    requires Inv(u) && id !in u.models && Cache.Lists(listing)
    ensures Inv(Use(u, k, id, op, listing))
  {
    IdIsNew(u, k, id);
    var c := Cache.Ensure(u.cache, k, id, listing);
    Cache.EnsureKeeps(u.cache, k, id, listing);
    Cache.EnsureModels(u.cache, k, id, listing);
    AdoptTables(u, c, k, id);
    AdoptSources(u, c, k, id);
    ChangeKeeps(Adopt(u, c, k, id), c.models[k], op);
  }

  lemma ConnectKeeps(u: Ui, m: ModelId)
    requires SnapshotsOk(u) && m in u.models
    ensures SnapshotsOk(Connect(u, m))
  {
  }

  lemma SelectKeeps(u: Ui, k: Key, id: ModelId, listing: Cache.Listing)
    requires Inv(u) && id !in u.models && Cache.Lists(listing)
    ensures Inv(Select(u, k, id, listing))
  {
    IdIsNew(u, k, id);
    var c := Cache.Select(u.cache, k, id, listing);
    Cache.SelectKeeps(u.cache, k, id, listing);
    AdoptTables(u, c, k, id);
    AdoptSources(u, c, k, id);
    assert c.current in Ids(c);
    ConnectKeeps(Adopt(u, c, k, id), c.current);
  }

  lemma ResetKeeps(u: Ui, id: ModelId, listing: Cache.Listing)
    requires Inv(u) && id !in u.models && Cache.Lists(listing)
    ensures Inv(Reset(u, id, listing))
  {
    IdIsNew(u, Cache.LOBBY, id);
    var c := Cache.Reset(u.cache, id, listing);
    Cache.ResetKeeps(u.cache, id, listing);
    AdoptTables(u, c, Cache.LOBBY, id);
    ResetSources(u, c, id);
    assert c.current in Ids(c);
    ConnectKeeps(Adopt(u, c, Cache.LOBBY, id), c.current);
  }

  /** As AdoptSources, for a reset, which makes the lobby active before it opens it. */
  lemma ResetSources(u: Ui, c: Cache.Cache, id: ModelId)
    requires Inv(u) && id !in u.models && Cache.Inv(c)
    requires Cache.Opened(u.cache.(active := Cache.LOBBY), Cache.LOBBY, id, c.models)
    ensures var u' := Adopt(u, c, Cache.LOBBY, id);
      && Ids(u'.cache) <= u'.models.Keys
      && {u'.rooms, u'.directs, u'.members} <= u'.connected
      && {u'.rooms, u'.directs, u'.members} !! Ids(u'.cache)
  {
    var u' := Adopt(u, c, Cache.LOBBY, id);
    forall m | m in Ids(c) ensures m in u'.models && m != u.rooms && m != u.directs && m != u.members {
      var j :| j in c.models && c.models[j] == m;
      assert m == id || m in Ids(u.cache);
    }
  }

  /** A model that is created is a new object; its address may have been used before. */
  predicate Admissible(u: Ui, e: Event) {
    e.UseEvent? || e.SelectEvent? || e.ResetEvent? ==> e.id !in u.models
  }

  lemma StepKeeps(u: Ui, e: Event, listing: Cache.Listing)
    requires Inv(u) && Cache.Lists(listing) && Admissible(u, e)
    ensures Inv(Step(u, e, listing))
  {
    match e
    case ChangeEvent(m, op) => ChangeKeeps(u, m, op);
    case UseEvent(k, id, op) => UseKeeps(u, k, id, op, listing);
    case SelectEvent(k, id) => SelectKeeps(u, k, id, listing);
    case ResetEvent(id) => ResetKeeps(u, id, listing);
    case BuildEvent => BuildKeeps(u);
  }

  ghost predicate AllAdmissible(u: Ui, events: seq<Event>, listing: Cache.Listing)
    decreases |events|
  {
    events == [] || (Admissible(u, events[0]) && AllAdmissible(Step(u, events[0], listing), events[1..], listing))
  }

  lemma {:induction false} RunKeeps(u: Ui, events: seq<Event>, listing: Cache.Listing)
    requires Inv(u) && Cache.Lists(listing) && AllAdmissible(u, events, listing)
    ensures Inv(Run(u, events, listing))
    decreases |events|
  {
    if events != [] {
      StepKeeps(u, events[0], listing);
      RunKeeps(Step(u, events[0], listing), events[1..], listing);
    }
  }

  lemma StartIsOk(roomRoles: Roles, directRoles: Roles, memberRoles: Roles, a: ModelId, b: ModelId, c: ModelId,
                  d: ModelId)
    requires a != b && a != c && a != d && b != c && b != d && c != d
    ensures Inv(Start(roomRoles, directRoles, memberRoles, a, b, c, d))
  {
    var models := FirstModels(roomRoles, directRoles, memberRoles, a, b, c, d);
    assert models.Keys == {a, b, c, d};
    ConnectedIsOk(models, a, b, c, d);
    BuildKeeps(Connected(models, a, b, c, d));
  }

  lemma ConnectedIsOk(models: map<ModelId, Model>, a: ModelId, b: ModelId, c: ModelId, d: ModelId)
    requires d !in {a, b, c} && models.Keys == {a, b, c, d} && forall m :: m in models ==> models[m].rows == []
    ensures Inv(Connected(models, a, b, c, d))
  {
    assert Ids(Cache.NewCache(d)) == {d};
  }

  // ---------- Recency over runs ----------

  /** The conversations an event uses. */
  function UsesOf(e: Event): seq<Key> {
    match e
    case UseEvent(k, _, _) => [k]
    case SelectEvent(k, _) => [k]
    case ResetEvent(_) => [Cache.LOBBY]
    case ChangeEvent(_, _) => []
    case BuildEvent => []
  }

  function UsesIn(events: seq<Event>): seq<Key>
    decreases |events|
  {
    if events == [] then [] else UsesOf(events[0]) + UsesIn(events[1..])
  }

  lemma StepRecency(u: Ui, e: Event, listing: Cache.Listing, uses: seq<Key>)
    requires Inv(u) && Cache.Lists(listing) && Cache.Recency(u.cache, uses)
    ensures Cache.Recency(Step(u, e, listing).cache, uses + UsesOf(e))
  {
    if Opens(e) {
      OpenedTable(u, e, listing);
      var c := Opening(u, e);
      assert Cache.OrderOk(c) && Cache.Recency(c, uses);
      Cache.RecencyKept(c, uses, UsesOf(e)[0], e.id, listing);
      assert UsesOf(e) == [UsesOf(e)[0]];
    } else {
      assert uses + UsesOf(e) == uses && Step(u, e, listing).cache == u.cache;
    }
  }

  lemma {:induction false} RunRecency(u: Ui, events: seq<Event>, listing: Cache.Listing, uses: seq<Key>)
    requires Inv(u) && Cache.Lists(listing) && AllAdmissible(u, events, listing) && Cache.Recency(u.cache, uses)
    ensures Cache.Recency(Run(u, events, listing).cache, uses + UsesIn(events))
    decreases |events|
  {
    UsesUnfold(events, uses);
    if events != [] {
      var u1 := Step(u, events[0], listing);
      StepKeeps(u, events[0], listing);
      StepRecency(u, events[0], listing, uses);
      RunRecency(u1, events[1..], listing, uses + UsesOf(events[0]));
      assert Run(u, events, listing) == Run(u1, events[1..], listing);
    }
  }

  lemma UsesUnfold(events: seq<Event>, uses: seq<Key>)
    ensures uses + UsesIn(events) ==
            if events == [] then uses else uses + UsesOf(events[0]) + UsesIn(events[1..])
  {
  }

  /** The table of conversations as an event that opens one finds it: a reset makes the lobby
      active first. */
  function Opening(u: Ui, e: Event): Cache.Cache {
    if e.ResetEvent? then u.cache.(active := Cache.LOBBY) else u.cache
  }

  predicate Opens(e: Event) {
    e.UseEvent? || e.SelectEvent? || e.ResetEvent?
  }

  lemma StepEvictsOldest(u: Ui, uses: seq<Key>, e: Event, listing: Cache.Listing, gone: Key, kept: Key)
    requires Cache.Inv(u.cache) && Cache.Recency(u.cache, uses) && Cache.Lists(listing) && Opens(e)
    requires gone in u.cache.models && gone !in Step(u, e, listing).cache.models
    requires kept in Step(u, e, listing).cache.models && kept != Opening(u, e).active && kept != UsesOf(e)[0]
    ensures gone != Opening(u, e).active && gone != UsesOf(e)[0]
    ensures Cache.LastUse(uses, gone) < Cache.LastUse(uses, kept)
  {
    OpenedTable(u, e, listing);
    var c := Opening(u, e);
    assert Cache.OrderOk(c) && Cache.Recency(c, uses);
    Cache.EvictsLeastRecentlyUsed(c, uses, UsesOf(e)[0], e.id, listing, gone, kept);
  }

  /** All three kinds of events open their conversation in the same way. */
  lemma OpenedTable(u: Ui, e: Event, listing: Cache.Listing)
    requires Opens(e)
    ensures var c, c' := Cache.Ensure(Opening(u, e), UsesOf(e)[0], e.id, listing), Step(u, e, listing).cache;
      c'.models == c.models && c'.order == c.order && c'.sequence == c.sequence
  {
    match e
    case UseEvent(k, id, op) => ChangeKeepsTable(Adopt(u, Cache.Ensure(u.cache, k, id, listing), k, id), op);
    case SelectEvent(_, _) =>
    case ResetEvent(_) =>
  }

  lemma ChangeKeepsTable(u: Ui, op: Op)
    ensures forall m :: Change(u, m, op).cache == u.cache
  {
  }

  /** True least recently used in every reachable state: whenever an event evicts a
      conversation, that one was last used before every conversation that stays, apart from
      the active one and the one being opened. */
  lemma EvictionIsLeastRecentlyUsed(roomRoles: Roles, directRoles: Roles, memberRoles: Roles,
                                    a: ModelId, b: ModelId, c: ModelId, d: ModelId,
                                    events: seq<Event>, e: Event, listing: Cache.Listing, gone: Key, kept: Key)
    requires a != b && a != c && a != d && b != c && b != d && c != d && Opens(e)
    requires Cache.Lists(listing)
    requires AllAdmissible(Start(roomRoles, directRoles, memberRoles, a, b, c, d), events, listing)
    requires var u := Run(Start(roomRoles, directRoles, memberRoles, a, b, c, d), events, listing);
      && gone in u.cache.models && gone !in Step(u, e, listing).cache.models
      && kept in Step(u, e, listing).cache.models && kept != Opening(u, e).active && kept != UsesOf(e)[0]
    ensures var u := Run(Start(roomRoles, directRoles, memberRoles, a, b, c, d), events, listing);
      var uses := [Cache.LOBBY] + UsesIn(events);
      && gone != Opening(u, e).active && gone != UsesOf(e)[0]
      && Cache.LastUse(uses, gone) < Cache.LastUse(uses, kept)
  {
    var s := Start(roomRoles, directRoles, memberRoles, a, b, c, d);
    StartIsOk(roomRoles, directRoles, memberRoles, a, b, c, d);
    RunKeeps(s, events, listing);
    Cache.NewIsRecent(d);
    RunRecency(s, events, listing, [Cache.LOBBY]);
    StepEvictsOldest(Run(s, events, listing), [Cache.LOBBY] + UsesIn(events), e, listing, gone, kept);
  }

  // ---------- What the events show ----------

  /** A message for a conversation changes exactly that conversation's model: the rows it had,
      or none if it is new, with the operation applied. */
  lemma UseChangesItsModel(u: Ui, k: Key, id: ModelId, op: Op, listing: Cache.Listing)
    requires Inv(u) && id !in u.models && Cache.Lists(listing)
    ensures var u' := Use(u, k, id, op, listing);
      var before := if k in u.cache.models then u.models[u.cache.models[k]] else Model(MESSAGE_ROLES, []);
      && k in u'.cache.models && u'.cache.models[k] in u'.models
      && u'.models[u'.cache.models[k]] == before.(rows := Apply(before.roles, before.rows, op).rows)
      && (forall m :: m in u'.models && m != u'.cache.models[k] ==> m in u.models && u'.models[m] == u.models[m])
  {
    IdIsNew(u, k, id);
    var c := Cache.Ensure(u.cache, k, id, listing);
    Cache.EnsureKeeps(u.cache, k, id, listing);
    Cache.EnsureModels(u.cache, k, id, listing);
    AdoptedModel(u, c, k, id);
    ChangedModel(Adopt(u, c, k, id), c.models[k], op);
  }

  /** The opened conversation keeps its model, or gets an empty one. */
  lemma AdoptedModel(u: Ui, c: Cache.Cache, k: Key, id: ModelId)
    requires Inv(u) && id !in u.models && Cache.Inv(c) && Cache.Opened(u.cache, k, id, c.models)
    ensures var v := Adopt(u, c, k, id); var m := c.models[k];
      && v.cache == c && m in v.models
      && v.models[m] == (if k in u.cache.models then u.models[u.cache.models[k]] else Model(MESSAGE_ROLES, []))
      && forall x :: x in v.models && x != m ==> x in u.models && v.models[x] == u.models[x]
  {
    assert c.models[k] in Ids(c);
    assert k in u.cache.models ==> u.cache.models[k] in Ids(u.cache);
  }

  lemma ChangedModel(u: Ui, m: ModelId, op: Op)
    requires m in u.models
    ensures var u' := Change(u, m, op); var before := u.models[m];
      && u'.cache == u.cache && u'.models.Keys == u.models.Keys
      && u'.models[m] == before.(rows := Apply(before.roles, before.rows, op).rows)
      && forall x :: x in u.models && x != m ==> u'.models[x] == u.models[x]
  {
  }

  /** A state built after a selection shows the messages of the selected conversation. */
  lemma SelectionIsShown(u: Ui, k: Key, id: ModelId, listing: Cache.Listing)
    requires Inv(u) && id !in u.models && Cache.Lists(listing)
    ensures var u' := Build(Select(u, k, id, listing));
      && u'.cache.active == k && k in u'.cache.models && u'.cache.current == u'.cache.models[k]
      && SnapshotFor(u', u'.cache.current) ==
           if k in u.cache.models && u.cache.models[k] in u.models
           then Serialize(u.models[u.cache.models[k]].roles, u.models[u.cache.models[k]].rows) else []
  {
    IdIsNew(u, k, id);
    SelectKeeps(u, k, id, listing);
    Cache.SelectActivates(u.cache, k, id, listing);
    var v := Select(u, k, id, listing);
    BuildKeeps(v);
    CleanAgrees(Build(v));
    var c := Cache.Select(u.cache, k, id, listing);
    assert c.current in Ids(c);
    assert k in u.cache.models ==> u.cache.models[k] in Ids(u.cache);
  }

  // ---------- Agreement ----------

  /** The state shows live models, each exactly as a fresh serialization would. */
  ghost predicate Agrees(u: Ui) {
    && (forall m :: m in {u.rooms, u.directs, u.members, u.cache.current} ==>
          m in u.models && SnapshotFor(u, m) == Serialize(u.models[m].roles, u.models[m].rows))
    && (forall m :: m in u.connected ==> SnapshotFor(u, m) == Fresh(u, m))
    && |u.cache.models| <= 8
    && u.cache.active in u.cache.models && u.cache.current == u.cache.models[u.cache.active]
  }

  lemma CleanAgrees(u: Ui)
    requires Inv(u) && u.dirty == {}
    ensures Agrees(u)
  {
  }

  /** At every state build, whatever happened before: each model the state shows is live and
      its cached snapshot is its fresh serialization; at most eight conversations are cached,
      the active one among them. */
  lemma SnapshotsAgree(roomRoles: Roles, directRoles: Roles, memberRoles: Roles, a: ModelId, b: ModelId, c: ModelId,
                       d: ModelId,
                       events: seq<Event>, listing: Cache.Listing)
    requires a != b && a != c && a != d && b != c && b != d && c != d
    requires Cache.Lists(listing)
    requires AllAdmissible(Start(roomRoles, directRoles, memberRoles, a, b, c, d), events, listing)
    ensures Agrees(Build(Run(Start(roomRoles, directRoles, memberRoles, a, b, c, d), events, listing)))
  {
    var s := Start(roomRoles, directRoles, memberRoles, a, b, c, d);
    StartIsOk(roomRoles, directRoles, memberRoles, a, b, c, d);
    RunKeeps(s, events, listing);
    var u := Run(s, events, listing);
    BuildKeeps(u);
    CleanAgrees(Build(u));
  }

  // ---------- The object ----------

  /** ChatBridge's tables; the models are given by what the controller shows at that moment. */
  class ChatBridge {
    var serializedModels: map<ModelId, Snapshot>
    var dirtyModels: set<ModelId>
    var connectedModels: set<ModelId>

    constructor ()
      ensures serializedModels == map[] && dirtyModels == {} && connectedModels == {}
    {
      serializedModels, dirtyModels, connectedModels := map[], {}, {};
    }

    ghost predicate Shows(u: Ui)
      reads this
    {
      serializedModels == u.snapshots && dirtyModels == u.dirty && connectedModels == u.connected
    }

    method ConnectModel(m: ModelId, ghost u: Ui)
      requires Shows(u)
      modifies this
      ensures Shows(Connect(u, m))
    {
      if m in connectedModels { return; }
      connectedModels := connectedModels + {m};
      MarkModelDirty(m);
    }

    method MarkModelDirty(m: ModelId)
      modifies this`dirtyModels
      ensures dirtyModels == old(dirtyModels) + {m}
    {
      dirtyModels := dirtyModels + {m};
    }

    /** The slot run when a model is destroyed: the tables agree with the models that are left,
        and whatever model comes to the same address starts dirty. */
    method ModelDestroyed(m: ModelId, ghost u: Ui)
      requires Shows(u) && SnapshotsOk(u)
      modifies this
      ensures Shows(Forget(u, {m})) && SnapshotsOk(Forget(u, {m}))
      ensures forall again :: SnapshotsOk(Reused(u, m, again)) && m in Reused(u, m, again).dirty
    {
      ForgetKeeps(u, {m});
      forall again ensures SnapshotsOk(Reused(u, m, again)) && m in Reused(u, m, again).dirty {
        ReusedAddressIsDirty(u, m, again);
      }
      serializedModels := serializedModels - {m};
      dirtyModels := dirtyModels - {m};
      connectedModels := connectedModels - {m};
    }

    /** The refresh loop of buildState; `order` lists the dirty models. */
    method RefreshSnapshots(models: map<ModelId, Model>, order: seq<ModelId>, ghost u: Ui)
      requires Shows(u) && models == u.models && (forall m :: m in order <==> m in u.dirty) && u.dirty <= models.Keys
      modifies this
      ensures Shows(Build(u))
    {
      for i := 0 to |order|
        invariant dirtyModels == u.dirty && connectedModels == u.connected
        invariant forall m :: m in serializedModels <==> m in u.snapshots || m in order[..i]
        invariant forall m :: m in serializedModels ==>
          serializedModels[m] == if m in order[..i] then Fresh(u, m) else SnapshotFor(u, m)
      {
        var m := order[i];
        assert order[..i + 1] == order[..i] + [m];
        serializedModels := serializedModels[m := Serialize(models[m].roles, models[m].rows)];
      }
      assert order[..|order|] == order;
      ghost var built := Build(u).snapshots;
      forall m ensures m in serializedModels <==> m in built {
        assert m in order <==> m in u.dirty;
      }
      forall m | m in serializedModels ensures serializedModels[m] == built[m] {
        assert m in order <==> m in u.dirty;
      }
      assert serializedModels == built;
      dirtyModels := {};
    }
  }
}
