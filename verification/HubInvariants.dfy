/** What the Hub keeps over every history of requests and every pattern of slow clients. */
module HubInvariants {
  import opened Wrappers
  import opened HubTables

  // ---------- The invariant ----------

  /** Clients and active codes are in bijection by code, and an active code is in use. */
  ghost predicate CodesOk(clients: set<Handle>, active: map<Code, Handle>, used: set<Code>,
                          sessions: map<Handle, Session>)
  {
    && (forall c :: c in clients ==>
          c in sessions && sessions[c].code != "" && sessions[c].code in active && active[sessions[c].code] == c)
    && (forall k :: k in active ==>
          active[k] in clients && active[k] in sessions && sessions[active[k]].code == k && k in used)
  }

  /** A client is in the set of its own room; no handle is in the set of another room. */
  ghost predicate PlacesOk(clients: set<Handle>, rooms: map<Room, set<Handle>>, sessions: map<Handle, Session>) {
    && (forall c :: c in clients ==>
          c in sessions && sessions[c].room != "" && sessions[c].room in rooms && c in rooms[sessions[c].room])
    && (forall r :: r in rooms ==> InRoom(rooms[r], r, sessions))
  }

  ghost predicate InRoom(members: set<Handle>, r: Room, sessions: map<Handle, Session>) {
    forall c :: c in members ==> c in sessions && sessions[c].room == r && r != ""
  }

  /** The room of a client is defined, and a private one only holds those who may join it. */
  ghost predicate RightsOk(clients: set<Handle>, definitions: map<Room, Definition>, sessions: map<Handle, Session>) {
    && LOBBY in definitions && !definitions[LOBBY].private
    && (forall c :: c in clients ==>
          c in sessions && sessions[c].room in definitions && CanJoin(sessions[c], definitions[sessions[c].room]))
  }

  ghost predicate Inv(h: Hub) {
    && CodesOk(h.clients, h.active, h.used, h.sessions)
    && PlacesOk(h.clients, h.rooms, h.sessions)
    && RightsOk(h.clients, h.definitions, h.sessions)
  }

  // ---------- Rooms ----------

  /** Taking a handle out of its room empties its place everywhere and touches no other. */
  lemma RemoveFromRoomMeans(h: Hub, c: Handle)
    requires PlacesOk(h.clients, h.rooms, h.sessions)
    ensures var rooms := RemoveFromRoom(h, c).rooms;
      && (forall r :: r in rooms ==> r in h.rooms && rooms[r] == h.rooms[r] - {c})
      && (forall r, d :: r in h.rooms && d in h.rooms[r] && d != c ==> r in rooms && d in rooms[r])
    ensures RemoveFromRoom(h, c) == h.(rooms := RemoveFromRoom(h, c).rooms)
  {
    var rooms := RemoveFromRoom(h, c).rooms;
    forall r | r in rooms ensures r in h.rooms && rooms[r] == h.rooms[r] - {c} {
      if r != SessionOf(h, c).room { assert c !in h.rooms[r]; }
    }
    forall r, d | r in h.rooms && d in h.rooms[r] && d != c ensures r in rooms && d in rooms[r] {
      assert d in h.rooms[r] - {c};
    }
  }

  lemma RemovePlaces(h: Hub, c: Handle)
    requires PlacesOk(h.clients, h.rooms, h.sessions)
    ensures PlacesOk(h.clients - {c}, RemoveFromRoom(h, c).rooms, h.sessions)
  {
    RemoveFromRoomMeans(h, c);
    var rooms := RemoveFromRoom(h, c).rooms;
    forall r, d | r in rooms && d in rooms[r] ensures d in h.sessions && h.sessions[d].room == r && r != "" {
      assert d in h.rooms[r];
    }
  }

  lemma RemoveCodes(clients: set<Handle>, active: map<Code, Handle>, used: set<Code>, sessions: map<Handle, Session>,
                    c: Handle)
    requires CodesOk(clients, active, used, sessions) && c in clients
    ensures CodesOk(clients - {c}, active - {sessions[c].code}, used, sessions)
    ensures CodesOk(clients - {c}, active - {sessions[c].code}, used - {sessions[c].code}, sessions)
  {
  }

  lemma RemoveKeeps(h: Hub, c: Handle)
    requires Inv(h) && c in h.clients
    ensures Inv(RemoveClient(h, c))
    ensures var h' := RemoveClient(h, c);
      h'.clients == h.clients - {c} && h'.sessions == h.sessions && h'.definitions == h.definitions
      && h'.adminCode == h.adminCode && h'.sent == h.sent && h'.active == h.active - {h.sessions[c].code}
  {
    assert RemoveFromRoom(h.(clients := h.clients - {c}), c).rooms == RemoveFromRoom(h, c).rooms;
    RemovePlaces(h, c);
    RemoveCodes(h.clients, h.active, h.used, h.sessions, c);
  }

  lemma MovePlaces(h: Hub, c: Handle, r: Room)
    requires PlacesOk(h.clients, h.rooms, h.sessions) && c in h.sessions && r != ""
    ensures PlacesOk(h.clients, Move(h, c, r).rooms, Move(h, c, r).sessions)
  {
    RemoveFromRoomMeans(h, c);
    var h1 := RemoveFromRoom(h, c);
    MovedPlaces(h, c, r, h1.rooms);
    assert Move(h, c, r).sessions == h.sessions[c := h.sessions[c].(room := r)];
    assert Move(h, c, r).rooms == h1.rooms[r := Members(h1, r) + {c}];
  }

  /** `rooms` are the rooms of `h` without `c`. */
  lemma MovedPlaces(h: Hub, c: Handle, r: Room, rooms: map<Room, set<Handle>>)
    requires PlacesOk(h.clients, h.rooms, h.sessions) && c in h.sessions && r != ""
    requires forall k :: k in rooms ==> k in h.rooms && rooms[k] == h.rooms[k] - {c}
    requires forall k, d :: k in h.rooms && d in h.rooms[k] && d != c ==> k in rooms && d in rooms[k]
    ensures PlacesOk(h.clients, rooms[r := (if r in rooms then rooms[r] else {}) + {c}],
                     h.sessions[c := h.sessions[c].(room := r)])
  {
    var sessions := h.sessions[c := h.sessions[c].(room := r)];
    var rooms' := rooms[r := (if r in rooms then rooms[r] else {}) + {c}];
    forall k, d | k in rooms' && d in rooms'[k] ensures d in sessions && sessions[d].room == k && k != "" {
      if d != c { assert k in rooms && d in rooms[k] && d in h.rooms[k]; }
    }
    forall d | d in h.clients
      ensures d in sessions && sessions[d].room != "" && sessions[d].room in rooms' && d in rooms'[sessions[d].room]
    {
      if d != c { assert d in h.rooms[h.sessions[d].room]; }
    }
  }

  /** Moving a handle into a room it may join; the handle may already have been dropped. */
  lemma MoveKeeps(h: Hub, c: Handle, r: Room)
    requires Inv(h) && c in h.sessions && r != "" && r in h.definitions && CanJoin(h.sessions[c], h.definitions[r])
    ensures Inv(Move(h, c, r))
    ensures Move(h, c, r).sessions == h.sessions[c := h.sessions[c].(room := r)]
    ensures SameBesidesPlaces(h, Move(h, c, r))
  {
    MovePlaces(h, c, r);
  }

  ghost predicate SameBesidesPlaces(h: Hub, h': Hub) {
    && h'.clients == h.clients && h'.active == h.active && h'.used == h.used && h'.definitions == h.definitions
    && h'.adminCode == h.adminCode && h'.sent == h.sent && h'.tick == h.tick
  }

  // ---------- Delivery ----------

  /** Deliveries can only drop clients. */
  ghost predicate OnlyDrops(h: Hub, h': Hub) {
    && h'.clients <= h.clients && h'.active.Keys <= h.active.Keys && h'.sessions == h.sessions
    && h'.definitions == h.definitions && h'.adminCode == h.adminCode
  }

  lemma DeliverKeeps(h: Hub, c: Handle, m: Message, env: Env)
    requires Inv(h)
    ensures var h' := Deliver(h, c, m, env).0; Inv(h') && OnlyDrops(h, h') && h.clients - h'.clients <= {c}
    ensures var (h', ok) := Deliver(h, c, m, env);
      && (ok <==> c in h'.clients)
      && h'.sent == if ok then h.sent + [Delivery(c, m)] else h.sent
  {
    if c in h.clients && env.full(h.tick) { RemoveKeeps(h.(tick := h.tick + 1), c); }
  }

  lemma {:induction false} DeliverAllKeeps(h: Hub, order: seq<Handle>, m: Message, env: Env)
    requires Inv(h)
    ensures var h' := DeliverAll(h, order, m, env);
      Inv(h') && OnlyDrops(h, h') && forall c :: c in h.clients && c !in order ==> c in h'.clients
    decreases |order|
  {
    if order != [] {
      DeliverKeeps(h, order[0], m, env);
      DeliverAllKeeps(Deliver(h, order[0], m, env).0, order[1..], m, env);
    }
  }

  // ---------- Requests ----------

  lemma UnregisterKeeps(h: Hub, c: Handle, env: Env)
    requires Inv(h)
    ensures var h' := Unregister(h, c, env);
      Inv(h') && OnlyDrops(h, h') && c !in h'.clients && (c in h.clients ==> h.sessions[c].code !in h'.active)
  {
    if c in h.clients {
      RemoveKeeps(h, c);
      var h1 := RemoveClient(h, c);
      DeliverAllKeeps(h1, env.order(h1.tick, Members(h1, SessionOf(h, c).room)), Notice, env);
    }
  }

  lemma EnterCodes(h: Hub, c: Handle, s: Session)
    requires CodesOk(h.clients, h.active, h.used, h.sessions) && c !in h.sessions && s.code != "" && s.code !in h.active
    ensures var h' := Enter(h, c, s); CodesOk(h'.clients, h'.active, h'.used, h'.sessions)
  {
  }

  lemma EnterPlaces(h: Hub, c: Handle, s: Session)
    requires PlacesOk(h.clients, h.rooms, h.sessions) && c !in h.sessions && s.room == LOBBY
    ensures var h' := Enter(h, c, s); PlacesOk(h'.clients, h'.rooms, h'.sessions)
  {
    var h' := Enter(h, c, s);
    assert h'.rooms == h.rooms[LOBBY := Members(h, LOBBY) + {c}];
    forall r, d | r in h'.rooms && d in h'.rooms[r] ensures d in h'.sessions && h'.sessions[d].room == r && r != "" {
      if d != c { assert r in h.rooms && d in h.rooms[r]; }
    }
  }

  /** A new client takes a free code and the lobby. */
  lemma EnterKeeps(h: Hub, c: Handle, s: Session)
    requires Inv(h) && c !in h.sessions && s.code != "" && s.code !in h.active && s.room == LOBBY
    ensures Inv(Enter(h, c, s))
  {
    EnterCodes(h, c, s);
    EnterPlaces(h, c, s);
  }

  lemma WelcomeKeeps(h: Hub, c: Handle, s: Session, approvals: nat, env: Env)
    requires Inv(h)
    ensures Inv(Welcome(h, c, s, approvals, env))
  {
    var order := env.order(h.tick, Members(h, s.room));
    DeliverAllKeeps(h, order, Notice, env);
    DeliverAllKeeps(DeliverAll(h, order, Notice, env), seq(approvals, _ => c), Notice, env);
  }

  lemma RegisterKeeps(h: Hub, c: Handle, s: Session, approvals: nat, env: Env)
    requires Inv(h) && c !in h.sessions && (s.room == "" || s.room == LOBBY)
    ensures Inv(Register(h, c, s, approvals, env))
  {
    if s.code != "" && !(s.code in h.active && !s.accountBacked) {
      var h2 := if s.code in h.active then Unregister(h, h.active[s.code], env) else h;
      if s.code in h.active { UnregisterKeeps(h, h.active[s.code], env); }
      if s.accountBacked || s.code !in h2.used {
        var admin := s.admin || (h.adminCode != "" && s.code == h.adminCode);
        var s2 := Session(s.code, s.accountBacked, LOBBY, admin, s.muted);
        EnterKeeps(h2, c, s2);
        WelcomeKeeps(Enter(h2, c, s2), c, s2, approvals, env);
      }
    }
  }

  /** Changing room: a farewell, the move, a greeting. The client may be dropped in between. */
  lemma ChangeRoomKeeps(h: Hub, c: Handle, r: Room, env: Env)
    requires Inv(h) && c in h.clients && r != "" && r in h.definitions && CanJoin(h.sessions[c], h.definitions[r])
    ensures Inv(Broadcast(Move(Broadcast(h, SessionOf(h, c).room, Notice, env), c, r), r, Notice, env))
  {
    var from := SessionOf(h, c).room;
    DeliverAllKeeps(h, env.order(h.tick, Members(h, from)), Notice, env);
    var h1 := Broadcast(h, from, Notice, env);
    MoveKeeps(h1, c, r);
    var h2 := Move(h1, c, r);
    DeliverAllKeeps(h2, env.order(h2.tick, Members(h2, r)), Notice, env);
  }

  lemma JoinKeeps(h: Hub, c: Handle, r: Room, env: Env)
    requires Inv(h)
    ensures Inv(Join(h, c, r, env))
  {
    DeliverKeeps(h, c, Notice, env);
    if c in h.clients && r != "" && r in h.definitions && CanJoin(SessionOf(h, c), h.definitions[r]) {
      ChangeRoomKeeps(h, c, r, env);
    }
  }

  lemma LeaveKeeps(h: Hub, c: Handle, env: Env)
    requires Inv(h)
    ensures Inv(Leave(h, c, env))
  {
    DeliverKeeps(h, c, Notice, env);
    if c in h.clients { ChangeRoomKeeps(h, c, LOBBY, env); }
  }

  /** Definitions may change as long as nobody loses the room he is in. */
  lemma RedefineKeeps(h: Hub, definitions: map<Room, Definition>)
    requires Inv(h) && RightsOk(h.clients, definitions, h.sessions)
    ensures Inv(h.(definitions := definitions))
  {
  }

  lemma CreateKeeps(h: Hub, c: Handle, r: Room, private: bool, env: Env)
    requires Inv(h)
    ensures Inv(Create(h, c, r, private, env))
  {
    DeliverKeeps(h, c, Notice, env);
    if c in h.clients && r != "" && r !in h.definitions {
      var code := SessionOf(h, c).code;
      RedefineKeeps(h, h.definitions[r := Definition(code, private, {code})]);
      var h1 := h.(definitions := h.definitions[r := Definition(code, private, {code})]);
      DeliverKeeps(h1, c, Notice, env);
      JoinKeeps(Deliver(h1, c, Notice, env).0, c, r, env);
    }
  }

  /** Every evicted handle ends up in the lobby; the others stay where they are. */
  lemma {:induction false} EvictKeeps(h: Hub, order: seq<Handle>, env: Env)
    requires Inv(h) && forall c :: c in order ==> c in h.sessions
    ensures var h' := Evict(h, order, env);
      && Inv(h') && h'.clients <= h.clients && h'.definitions == h.definitions
      && h'.sessions.Keys == h.sessions.Keys
      && forall c :: c in h.sessions ==> h'.sessions[c].room == if c in order then LOBBY else h.sessions[c].room
    decreases |order|
  {
    if order != [] {
      var c := order[0];
      MoveKeeps(h, c, LOBBY);
      var h1 := Move(h, c, LOBBY);
      DeliverKeeps(h1, c, Notice, env);
      EvictKeeps(Deliver(h1, c, Notice, env).0, order[1..], env);
    }
  }

  /** Visiting a map of clients meets each of them once. */
  ghost predicate Enumerates(env: Env) {
    forall t, s :: IsListing(env.order(t, s), s)
  }

  ghost predicate IsListing(order: seq<Handle>, s: set<Handle>) {
    && (forall c :: c in order <==> c in s)
    && (forall i, j :: 0 <= i < j < |order| ==> order[i] != order[j])
  }

  /** A room that nobody is in can be taken away. */
  lemma EmptyRoomDropped(clients: set<Handle>, rooms: map<Room, set<Handle>>, sessions: map<Handle, Session>, r: Room)
    requires PlacesOk(clients, rooms, sessions)
    requires forall c :: c in clients ==> sessions[c].room != r
    ensures PlacesOk(clients, rooms - {r}, sessions)
  {
    var rest := rooms - {r};
    forall k | k in rest ensures k in rooms && rest[k] == rooms[k] { }
    forall c | c in clients ensures sessions[c].room in rest && c in rest[sessions[c].room] {
      assert sessions[c].room in rooms;
    }
    forall k, c | k in rest && c in rest[k] ensures c in sessions && sessions[c].room == k && k != "" {
      assert c in rooms[k];
    }
  }

  lemma EmptyRoomUndefined(
    clients: set<Handle>, definitions: map<Room, Definition>, sessions: map<Handle, Session>, r: Room)
    requires RightsOk(clients, definitions, sessions) && r != LOBBY
    requires forall c :: c in clients ==> sessions[c].room != r
    ensures RightsOk(clients, definitions - {r}, sessions)
  {
  }

  lemma DropRoomKeeps(h: Hub, r: Room)
    requires Inv(h) && r != LOBBY && forall c :: c in h.clients ==> h.sessions[c].room != r
    ensures Inv(h.(rooms := h.rooms - {r}, definitions := h.definitions - {r}))
  {
    EmptyRoomDropped(h.clients, h.rooms, h.sessions, r);
    EmptyRoomUndefined(h.clients, h.definitions, h.sessions, r);
  }

  lemma DeleteKeeps(h: Hub, r: Room, env: Env)
    requires Inv(h) && Enumerates(env) && r != LOBBY
    ensures Inv(DeleteRoom(h, r, env))
  {
    var order := env.order(h.tick, Members(h, r));
    assert IsListing(order, Members(h, r));
    EvictKeeps(h, order, env);
    var h1 := Evict(h, order, env);
    forall c | c in h1.clients ensures h1.sessions[c].room != r {
      assert c in h.clients && c in h.sessions;
      assert h.sessions[c].room == r ==> c in order;
    }
    DropRoomKeeps(h1, r);
  }

  /** Only the client of that code can lose its place when a code is taken off a list. */
  lemma DisallowKeeps(h: Hub, r: Room, target: Code)
    requires Inv(h) && r in h.definitions && r != LOBBY
    ensures var h1 := WithAllowed(h, r, h.definitions[r].allowed - {target});
      if target in h.active && SessionOf(h, h.active[target]).room == r
      then Inv(Move(h1, h.active[target], LOBBY)) else Inv(h1)
  {
    var h1 := WithAllowed(h, r, h.definitions[r].allowed - {target});
    if target in h.active && SessionOf(h, h.active[target]).room == r {
      var c := h.active[target];
      MoveKeeps(h, c, LOBBY);
      var h2 := Move(h, c, LOBBY);
      assert Move(h1, c, LOBBY) == h2.(definitions := h1.definitions);
      RedefineKeeps(h2, h1.definitions);
    } else {
      RedefineKeeps(h, h1.definitions);
    }
  }

  lemma ExcludeKeeps(h: Hub, c: Handle, r: Room, target: Code, env: Env)
    requires Inv(h) && r in h.definitions && r != LOBBY
    ensures Inv(ExcludeMember(h, c, r, target, env))
  {
    DisallowKeeps(h, r, target);
    var h1 := WithAllowed(h, r, h.definitions[r].allowed - {target});
    if target in h.active && SessionOf(h, h.active[target]).room == r {
      var t := h.active[target];
      TwoNoticesKeep(Move(h1, t, LOBBY), t, c, env);
    } else {
      DeliverKeeps(h1, c, Notice, env);
    }
  }

  lemma InviteKeeps(h: Hub, c: Handle, r: Room, target: Code, env: Env)
    requires Inv(h) && r in h.definitions
    ensures Inv(InviteMember(h, c, r, target, env))
  {
    var h1 := WithAllowed(h, r, h.definitions[r].allowed + {target});
    RedefineKeeps(h, h1.definitions);
    DeliverKeeps(h1, c, Notice, env);
  }

  lemma RoomActionKeeps(h: Hub, c: Handle, action: Action, r: Room, target: Option<Code>, env: Env)
    requires Inv(h) && Enumerates(env)
    ensures Inv(RoomAction(h, c, action, r, target, env))
  {
    DeliverKeeps(h, c, Notice, env);
    if c in h.clients && r in h.definitions && r != LOBBY {
      match action
      case Delete => DeleteKeeps(h, r, env);
      case Invite => if target.Some? { InviteKeeps(h, c, r, target.value, env); }
      case RemoveMember => if target.Some? { ExcludeKeeps(h, c, r, target.value, env); }
      case Unknown =>
    }
  }

  lemma KickKeeps(h: Hub, c: Handle, target: Option<Code>, env: Env)
    requires Inv(h)
    ensures Inv(Kick(h, c, target, env))
  {
    DeliverKeeps(h, c, Notice, env);
    if target.Some? && target.value in h.active {
      var t := h.active[target.value];
      DeliverKeeps(h, t, Notice, env);
      ThrownOut(Deliver(h, t, Notice, env).0, t, c, env);
    }
  }

  lemma ThrownOut(h: Hub, t: Handle, c: Handle, env: Env)
    requires Inv(h)
    ensures Inv(Deliver(Unregister(h, t, env), c, Notice, env).0)
  {
    UnregisterKeeps(h, t, env);
    DeliverKeeps(Unregister(h, t, env), c, Notice, env);
  }

  /** The mute flag plays no part in the invariant. */
  lemma FlagKeeps(h: Hub, t: Handle, s: Session)
    requires Inv(h) && t in h.sessions && s == h.sessions[t].(muted := s.muted)
    ensures Inv(h.(sessions := h.sessions[t := s]))
  {
    var sessions := h.sessions[t := s];
    assert forall c :: c in h.sessions ==> sessions[c] == h.sessions[c].(muted := sessions[c].muted);
    assert CodesOk(h.clients, h.active, h.used, sessions);
    SamePlaces(h.clients, h.rooms, h.sessions, sessions);
    assert RightsOk(h.clients, h.definitions, sessions);
  }

  lemma SamePlaces(clients: set<Handle>, rooms: map<Room, set<Handle>>, sessions: map<Handle, Session>,
                   sessions': map<Handle, Session>)
    requires PlacesOk(clients, rooms, sessions) && sessions.Keys <= sessions'.Keys
    requires forall c :: c in sessions ==> sessions'[c].room == sessions[c].room
    ensures PlacesOk(clients, rooms, sessions')
  {
    forall r, c | r in rooms && c in rooms[r] ensures c in sessions' && sessions'[c].room == r && r != "" {
      assert c in sessions && sessions[c].room == r;
    }
  }

  lemma TwoNoticesKeep(h: Hub, t: Handle, c: Handle, env: Env)
    requires Inv(h)
    ensures var h' := Deliver(Deliver(h, t, Notice, env).0, c, Notice, env).0; Inv(h') && OnlyDrops(h, h')
  {
    DeliverKeeps(h, t, Notice, env);
    DeliverKeeps(Deliver(h, t, Notice, env).0, c, Notice, env);
  }

  lemma MutedKeeps(h: Hub, c: Handle, t: Handle, env: Env)
    requires Inv(h) && t in h.sessions
    ensures var s := SessionOf(h, t);
      var h1 := h.(sessions := h.sessions[t := s.(muted := !s.muted)]);
      Inv(Deliver(Deliver(h1, t, Notice, env).0, c, Notice, env).0)
  {
    var s := SessionOf(h, t);
    FlagKeeps(h, t, s.(muted := !s.muted));
    TwoNoticesKeep(h.(sessions := h.sessions[t := s.(muted := !s.muted)]), t, c, env);
  }

  lemma MuteKeeps(h: Hub, c: Handle, target: Option<Code>, env: Env)
    requires Inv(h)
    ensures Inv(Mute(h, c, target, env))
  {
    if c !in h.clients {
    } else if !SessionOf(h, c).admin || target.None? || target.value !in h.active || h.active[target.value] == c {
      DeliverKeeps(h, c, Notice, env);
    } else {
      MutedKeeps(h, c, h.active[target.value], env);
    }
  }

  lemma ChatKeeps(h: Hub, author: Option<Code>, tracked: bool, env: Env)
    requires Inv(h)
    ensures Inv(BroadcastChat(h, author, tracked, env))
  {
    var code := if author.Some? then author.value else "";
    var room := if code in h.active && author.Some? then SessionOf(h, h.active[code]).room else "";
    var order := env.order(h.tick, if room == "" then h.clients else Members(h, room));
    DeliverAllKeeps(h, order, Chat(code), env);
    if author.Some? && code in h.active {
      DeliverKeeps(h, h.active[code], Notice, env);
      DeliverKeeps(DeliverAll(h, order, Chat(code), env), h.active[code], Notice, env);
    }
  }

  /** A client object registers once and comes without a room or in the lobby. */
  predicate Admissible(h: Hub, e: Event) {
    e.RegisterEvent? ==> e.client !in h.sessions && (e.session.room == "" || e.session.room == LOBBY)
  }

  lemma StepKeeps(h: Hub, e: Event, env: Env)
    requires Inv(h) && Enumerates(env) && Admissible(h, e)
    ensures Inv(Step(h, e, env))
  {
    match e
    case RegisterEvent(c, s, approvals) => RegisterKeeps(h, c, s, approvals, env);
    case UnregisterEvent(c) => UnregisterKeeps(h, c, env);
    case JoinEvent(c, r) => JoinKeeps(h, c, r, env);
    case LeaveEvent(c) => LeaveKeeps(h, c, env);
    case CreateEvent(c, r, private) => CreateKeeps(h, c, r, private, env);
    case ActionEvent(c, action, r, target) => RoomActionKeeps(h, c, action, r, target, env);
    case KickEvent(c, target) => KickKeeps(h, c, target, env);
    case MuteEvent(c, target) => MuteKeeps(h, c, target, env);
    case ChatEvent(author, tracked) => ChatKeeps(h, author, tracked, env);
    case NoticeEvent(receivers) => DeliverAllKeeps(h, receivers, Notice, env);
  }

  ghost predicate AllAdmissible(h: Hub, events: seq<Event>, env: Env)
    decreases |events|
  {
    events == [] || (Admissible(h, events[0]) && AllAdmissible(Step(h, events[0], env), events[1..], env))
  }

  lemma {:induction false} RunKeeps(h: Hub, events: seq<Event>, env: Env)
    requires Inv(h) && Enumerates(env) && AllAdmissible(h, events, env)
    ensures Inv(Run(h, events, env))
    decreases |events|
  {
    if events != [] {
      StepKeeps(h, events[0], env);
      RunKeeps(Step(h, events[0], env), events[1..], env);
    }
  }

  // ---------- The invariant over every run ----------

  /** In every state the Hub can reach, with clients dropped at any moment: */
  lemma RegistryTheorem(adminCode: Code, events: seq<Event>, env: Env)
    requires Enumerates(env) && AllAdmissible(NewHub(adminCode), events, env)
    ensures var h := Run(NewHub(adminCode), events, env);
      // clients and active codes are in bijection,
      && (forall c :: c in h.clients ==> SessionOf(h, c).code in h.active && h.active[SessionOf(h, c).code] == c)
      && (forall k :: k in h.active ==> h.active[k] in h.clients && SessionOf(h, h.active[k]).code == k)
      // each client is in the set of its own room and in no other,
      && (forall c, r :: c in h.clients && r in h.rooms ==> (c in h.rooms[r] <==> r == SessionOf(h, c).room))
      && (forall c :: c in h.clients ==> SessionOf(h, c).room in h.rooms)
      // that room is defined, and if it is private the client may be there.
      && (forall c :: c in h.clients ==>
            && SessionOf(h, c).room in h.definitions
            && var d := h.definitions[SessionOf(h, c).room];
               d.private ==> SessionOf(h, c).admin || SessionOf(h, c).code in d.allowed)
  {
    RunKeeps(NewHub(adminCode), events, env);
  }

  // ---------- Who gets a chat ----------

  /** How often a message was put into a client's buffer. */
  ghost function Times(h: Hub, c: Handle, m: Message): nat {
    multiset(h.sent)[Delivery(c, m)]
  }

  lemma DeliverCounts(h: Hub, d: Handle, m: Message, env: Env, c: Handle, m2: Message)
    requires Inv(h)
    ensures var h' := Deliver(h, d, m, env).0;
      Times(h', c, m2) == Times(h, c, m2) + (if c == d && m2 == m && c in h'.clients then 1 else 0)
  {
    DeliverKeeps(h, d, m, env);
  }

  /** Delivering to a list of different clients: each one that is still there afterwards got
      the message once more, and nobody else got anything. */
  lemma {:induction false} DeliverAllCounts(h: Hub, order: seq<Handle>, m: Message, env: Env, c: Handle, m2: Message)
    requires Inv(h) && forall i, j :: 0 <= i < j < |order| ==> order[i] != order[j]
    ensures var h' := DeliverAll(h, order, m, env);
      Times(h', c, m2) == Times(h, c, m2) + (if c in order && m2 == m && c in h'.clients then 1 else 0)
    decreases |order|
  {
    if order != [] {
      var h1 := Deliver(h, order[0], m, env).0;
      DeliverKeeps(h, order[0], m, env);
      DeliverCounts(h, order[0], m, env, c, m2);
      DeliverAllCounts(h1, order[1..], m, env, c, m2);
      DeliverAllKeeps(h1, order[1..], m, env);
    }
  }

  /** The author's live client, if there is one. */
  ghost function Sender(h: Hub, author: Option<Code>): Option<Handle> {
    if author.Some? && author.value in h.active then Some(h.active[author.value]) else None
  }

  lemma NoticeCounts(h: Hub, d: Handle, env: Env, c: Handle, m: Message)
    requires Inv(h) && m != Notice
    ensures var h' := Deliver(h, d, Notice, env).0;
      Times(h', c, m) == Times(h, c, m) && (c in h'.clients ==> c in h.clients)
  {
    DeliverCounts(h, d, Notice, env, c, m);
    DeliverKeeps(h, d, Notice, env);
  }

  /** The chat itself goes to the author's room, or without author and store to everybody. */
  ghost function Receivers(h: Hub, author: Option<Code>): set<Handle> {
    var sender := Sender(h, author);
    if sender.None? then h.clients else Members(h, SessionOf(h, sender.value).room)
  }

  /** The chat is passed on at all. */
  ghost predicate PassedOn(h: Hub, author: Option<Code>, env: Env) {
    env.store ==> Sender(h, author).Some? && env.saved(h.tick) == Inserted
  }

  ghost function ChatOf(author: Option<Code>): Message {
    Chat(if author.Some? then author.value else "")
  }

  /** A broadcast is the delivery of the chat to its receivers, if it is passed on, and of at
      most one notice. */
  lemma ChatShape(h: Hub, author: Option<Code>, tracked: bool, env: Env)
    requires Inv(h)
    ensures var h' := BroadcastChat(h, author, tracked, env); var sender := Sender(h, author);
      var order := env.order(h.tick, Receivers(h, author));
      var h1 := if PassedOn(h, author, env) then DeliverAll(h, order, ChatOf(author), env) else h;
      h' == h1 || (sender.Some? && h' == Deliver(h1, sender.value, Notice, env).0)
  {
  }

  lemma ReceiversMeans(h: Hub, author: Option<Code>, c: Handle)
    requires Inv(h) && c in h.clients
    ensures c in Receivers(h, author) <==>
      Sender(h, author).None? || SessionOf(h, c).room == SessionOf(h, Sender(h, author).value).room
  {
  }

  /** With a store attached, a chat reaches only clients of the room its author is in, each at
      most once, and once it is saved all of them that stay connected. Without a store the
      only difference is an author that is no longer connected: then it reaches everybody. */
  lemma ChatReachesTheRoom(h: Hub, author: Option<Code>, tracked: bool, env: Env, c: Handle)
    requires Inv(h) && Enumerates(env)
    ensures var h' := BroadcastChat(h, author, tracked, env);
      var sender := Sender(h, author);
      var got := Times(h', c, ChatOf(author)) - Times(h, c, ChatOf(author));
      && 0 <= got <= 1
      && (got == 1 ==> c in h.clients && PassedOn(h, author, env))
      && (got == 1 && sender.Some? ==> SessionOf(h, c).room == SessionOf(h, sender.value).room)
      && (got == 1 && sender.None? ==> !env.store)
      && (&& c in h'.clients && PassedOn(h, author, env)
          && (sender.None? || SessionOf(h, c).room == SessionOf(h, sender.value).room)
          ==> got == 1)
  {
    var m, sender := ChatOf(author), Sender(h, author);
    var order := env.order(h.tick, Receivers(h, author));
    assert IsListing(order, Receivers(h, author));
    ChatShape(h, author, tracked, env);
    DeliverAllKeeps(h, order, m, env);
    DeliverAllCounts(h, order, m, env, c, m);
    if sender.Some? {
      NoticeCounts(h, sender.value, env, c, m);
      NoticeCounts(DeliverAll(h, order, m, env), sender.value, env, c, m);
    }
    if c in h.clients { ReceiversMeans(h, author, c); }
  }
}
