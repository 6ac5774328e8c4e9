/** What each request to the Hub achieves: who ends in which room, which codes and channels exist
    afterwards, who is gone and who is told, with clients dropped at any moment. */
module HubOutcomes {
  import opened Wrappers
  import opened HubTables
  import opened HubInvariants

  /** No send buffer is ever full. */
  ghost predicate NobodySlow(env: Env) {
    forall n :: !env.full(n)
  }

  /** Nobody but `c` changes anything in its session. */
  ghost predicate OthersUnchanged(h: Hub, h': Hub, c: Handle) {
    forall d :: d != c ==> SessionOf(h', d) == SessionOf(h, d)
  }

  // ---------- Deliveries ----------

  lemma {:induction false} NobodyDropped(h: Hub, order: seq<Handle>, m: Message, env: Env)
    requires NobodySlow(env)
    ensures var h' := DeliverAll(h, order, m, env);
      && h'.clients == h.clients && h'.active == h.active && h'.used == h.used && h'.rooms == h.rooms
      && h'.definitions == h.definitions && h'.sessions == h.sessions && h'.adminCode == h.adminCode
    decreases |order|
  {
    if order != [] { NobodyDropped(Deliver(h, order[0], m, env).0, order[1..], m, env); }
  }

  /** A broadcast gives every member of the room that stays connected the message once more,
      and nobody else anything. */
  lemma BroadcastReachesTheRoom(h: Hub, r: Room, m: Message, env: Env, c: Handle)
    requires Inv(h) && Enumerates(env)
    ensures var h' := Broadcast(h, r, m, env);
      && Inv(h') && OnlyDrops(h, h')
      && Times(h', c, m) == Times(h, c, m) + (if c in Members(h, r) && c in h'.clients then 1 else 0)
      && (c in h.clients && SessionOf(h, c).room != r ==> c in h'.clients)
      && (NobodySlow(env) ==> h'.clients == h.clients)
  {
    var order := env.order(h.tick, Members(h, r));
    assert IsListing(order, Members(h, r));
    DeliverAllKeeps(h, order, m, env);
    DeliverAllCounts(h, order, m, env, c, m);
    if NobodySlow(env) { NobodyDropped(h, order, m, env); }
  }

  // ---------- Rooms ----------

  /** A change of rooms ends in the new room, unless the client is dropped on the way. */
  lemma ChangeRoomOutcome(h: Hub, c: Handle, r: Room, env: Env)
    requires Inv(h) && c in h.clients && r != "" && r in h.definitions && CanJoin(h.sessions[c], h.definitions[r])
    ensures var h' := Broadcast(Move(Broadcast(h, SessionOf(h, c).room, Notice, env), c, r), r, Notice, env);
      && SessionOf(h', c) == SessionOf(h, c).(room := r)
      && OthersUnchanged(h, h', c) && h'.clients <= h.clients && h'.definitions == h.definitions
      && (NobodySlow(env) ==> h'.clients == h.clients)
  {
    var from := SessionOf(h, c).room;
    var order := env.order(h.tick, Members(h, from));
    DeliverAllKeeps(h, order, Notice, env);
    var h1 := Broadcast(h, from, Notice, env);
    MoveKeeps(h1, c, r);
    var h2 := Move(h1, c, r);
    var order2 := env.order(h2.tick, Members(h2, r));
    DeliverAllKeeps(h2, order2, Notice, env);
    if NobodySlow(env) {
      NobodyDropped(h, order, Notice, env);
      NobodyDropped(h2, order2, Notice, env);
    }
  }

  /** With nobody slow, a change of rooms is announced once to everybody in the old room, the
      client included, and once to everybody in the new one. */
  lemma ChangeRoomAnnounced(h: Hub, c: Handle, r: Room, env: Env, d: Handle)
    requires Inv(h) && Enumerates(env) && NobodySlow(env) && c in h.clients && d in h.clients
    requires r != "" && r in h.definitions && CanJoin(h.sessions[c], h.definitions[r]) && r != SessionOf(h, c).room
    ensures var from := SessionOf(h, c).room;
      var h' := Broadcast(Move(Broadcast(h, from, Notice, env), c, r), r, Notice, env);
      Times(h', d, Notice) == Times(h, d, Notice)
        + (if SessionOf(h, d).room == from then 1 else 0) + (if SessionOf(h, d).room == r || d == c then 1 else 0)
  {
    var from := SessionOf(h, c).room;
    BroadcastReachesTheRoom(h, from, Notice, env, d);
    var h1 := Broadcast(h, from, Notice, env);
    MoveKeeps(h1, c, r);
    var h2 := Move(h1, c, r);
    BroadcastReachesTheRoom(h2, r, Notice, env, d);
    assert d in Members(h, from) <==> SessionOf(h, d).room == from;
    assert d in Members(h2, r) <==> SessionOf(h2, d).room == r;
  }

  /** Joins that are allowed and leaves are such changes. */
  lemma MovesAreAnnounced(h: Hub, c: Handle, r: Room, env: Env, d: Handle)
    requires Inv(h) && Enumerates(env) && NobodySlow(env) && c in h.clients && d in h.clients
    requires r != "" && r in h.definitions && CanJoin(h.sessions[c], h.definitions[r]) && r != SessionOf(h, c).room
    ensures var more := (if SessionOf(h, d).room == SessionOf(h, c).room then 1 else 0)
                        + (if SessionOf(h, d).room == r || d == c then 1 else 0);
      && Times(Join(h, c, r, env), d, Notice) == Times(h, d, Notice) + more
      && (r == LOBBY ==> Times(Leave(h, c, env), d, Notice) == Times(h, d, Notice) + more)
  {
    ChangeRoomAnnounced(h, c, r, env, d);
  }

  /** Joining: the client is in the room it asked for exactly if that room is defined and
      public, or it is an administrator or allowed; otherwise it is where it was. */
  lemma JoinOutcome(h: Hub, c: Handle, r: Room, env: Env)
    requires Inv(h) && c in h.clients && r != ""
    ensures var h' := Join(h, c, r, env); var s := SessionOf(h, c);
      var may := r in h.definitions && (!h.definitions[r].private || s.admin || s.code in h.definitions[r].allowed);
      && SessionOf(h', c) == s.(room := if may then r else s.room)
      && OthersUnchanged(h, h', c) && h'.clients <= h.clients && h'.definitions == h.definitions
      && (NobodySlow(env) ==> h'.clients == h.clients)
  {
    DeliverKeeps(h, c, Notice, env);
    if r in h.definitions && CanJoin(SessionOf(h, c), h.definitions[r]) { ChangeRoomOutcome(h, c, r, env); }
  }

  /** Leaving ends in the lobby. */
  lemma LeaveOutcome(h: Hub, c: Handle, env: Env)
    requires Inv(h) && c in h.clients
    ensures var h' := Leave(h, c, env);
      && SessionOf(h', c) == SessionOf(h, c).(room := LOBBY)
      && OthersUnchanged(h, h', c) && h'.clients <= h.clients && h'.definitions == h.definitions
      && (NobodySlow(env) ==> h'.clients == h.clients)
  {
    DeliverKeeps(h, c, Notice, env);
    ChangeRoomOutcome(h, c, LOBBY, env);
  }

  /** Creating: a new name is defined, owned by its creator and open to him alone if private,
      and the creator is in it if he is still connected; a taken or empty name changes nothing. */
  lemma CreateOutcome(h: Hub, c: Handle, r: Room, private: bool, env: Env)
    requires Inv(h) && c in h.clients
    ensures var h' := Create(h, c, r, private, env); var code := SessionOf(h, c).code;
      && h'.clients <= h.clients && OthersUnchanged(h, h', c)
      && (if r != "" && r !in h.definitions then
            && h'.definitions == h.definitions[r := Definition(code, private, {code})]
            && (c in h'.clients ==> SessionOf(h', c) == SessionOf(h, c).(room := r))
          else h'.definitions == h.definitions && SessionOf(h', c) == SessionOf(h, c))
      && (NobodySlow(env) ==> h'.clients == h.clients)
  {
    DeliverKeeps(h, c, Notice, env);
    if r != "" && r !in h.definitions {
      var code := SessionOf(h, c).code;
      var h1 := h.(definitions := h.definitions[r := Definition(code, private, {code})]);
      RedefineKeeps(h, h1.definitions);
      DeliverKeeps(h1, c, Notice, env);
      var h2 := Deliver(h1, c, Notice, env).0;
      if c in h2.clients { JoinOutcome(h2, c, r, env); }
    }
  }

  // ---------- Channel actions ----------

  /** Who may change a channel: an administrator or its owner, and nobody the lobby. */
  ghost predicate MayManage(h: Hub, c: Handle, r: Room) {
    && c in h.clients && r in h.definitions && r != LOBBY
    && (SessionOf(h, c).admin || (h.definitions[r].owner != "" && h.definitions[r].owner == SessionOf(h, c).code))
  }

  /** Without that right no action changes a channel or anybody's room. */
  lemma ActionNeedsRight(h: Hub, c: Handle, action: Action, r: Room, target: Option<Code>, env: Env)
    requires Inv(h) && !MayManage(h, c, r)
    ensures var h' := RoomAction(h, c, action, r, target, env);
      h'.definitions == h.definitions && h'.sessions == h.sessions && h'.clients <= h.clients
  {
    DeliverKeeps(h, c, Notice, env);
  }

  /** Deleting: the channel and its member set are gone, everybody who was in it is in the lobby
      and everybody else is where he was. */
  lemma DeleteOutcome(h: Hub, c: Handle, r: Room, target: Option<Code>, env: Env)
    requires Inv(h) && Enumerates(env) && MayManage(h, c, r)
    ensures var h' := RoomAction(h, c, Delete, r, target, env);
      && h'.definitions == h.definitions - {r} && r !in h'.rooms && h'.clients <= h.clients
      && (forall d :: d in h.clients ==>
            d in h'.sessions && h'.sessions[d].room == if h.sessions[d].room == r then LOBBY else h.sessions[d].room)
  {
    var order := env.order(h.tick, Members(h, r));
    assert IsListing(order, Members(h, r));
    EvictKeeps(h, order, env);
    forall d | d in h.clients ensures d in order <==> h.sessions[d].room == r { }
  }

  /** Inviting: the code is on the list, and nothing else about channels and rooms changes. */
  lemma InviteOutcome(h: Hub, c: Handle, r: Room, target: Code, env: Env)
    requires Inv(h) && MayManage(h, c, r)
    ensures var h' := RoomAction(h, c, Invite, r, Some(target), env); var d := h.definitions[r];
      && h'.definitions == h.definitions[r := Definition(d.owner, d.private, d.allowed + {target})]
      && h'.sessions == h.sessions && h'.clients <= h.clients
  {
    InviteKeeps(h, c, r, target, env);
    var h1 := WithAllowed(h, r, h.definitions[r].allowed + {target});
    RedefineKeeps(h, h1.definitions);
    DeliverKeeps(h1, c, Notice, env);
  }

  /** Removing a member: the code is off the list, its client is in the lobby if it was in the
      channel, and everybody else is where he was. */
  lemma RemoveMemberOutcome(h: Hub, c: Handle, r: Room, target: Code, env: Env)
    requires Inv(h) && MayManage(h, c, r)
    ensures var h' := RoomAction(h, c, RemoveMember, r, Some(target), env); var d := h.definitions[r];
      && h'.definitions == h.definitions[r := Definition(d.owner, d.private, d.allowed - {target})]
      && h'.clients <= h.clients
      && (forall x :: x in h.clients ==>
            var s := h.sessions[x];
            SessionOf(h', x) == s.(room := if s.code == target && s.room == r then LOBBY else s.room))
  {
    var h1 := WithAllowed(h, r, h.definitions[r].allowed - {target});
    DisallowKeeps(h, r, target);
    if target in h.active && SessionOf(h, h.active[target]).room == r {
      var t := h.active[target];
      var h2 := Move(h1, t, LOBBY);
      MovedOut(h, h1, r, target);
      TwoNotices(h2, t, c, env);
    } else {
      DeliverKeeps(h1, c, Notice, env);
      forall x | x in h.clients ensures !(h.sessions[x].code == target && h.sessions[x].room == r) { }
    }
  }

  /** The client of the code is the one that is moved. */
  lemma MovedOut(h: Hub, h1: Hub, r: Room, target: Code)
    requires Inv(h) && r != LOBBY && target in h.active && SessionOf(h, h.active[target]).room == r
    requires h1 == h.(definitions := h1.definitions)
    ensures var h2 := Move(h1, h.active[target], LOBBY);
      && h2.clients == h.clients && h2.definitions == h1.definitions
      && forall x :: x in h.clients ==>
           var s := h.sessions[x];
           SessionOf(h2, x) == s.(room := if s.code == target && s.room == r then LOBBY else s.room)
  {
    var t := h.active[target];
    MoveKeeps(h, t, LOBBY);
    assert Move(h1, t, LOBBY).sessions == Move(h, t, LOBBY).sessions;
  }

  lemma TwoNotices(h: Hub, t: Handle, c: Handle, env: Env)
    requires Inv(h)
    ensures var h' := Deliver(Deliver(h, t, Notice, env).0, c, Notice, env).0;
      OnlyDrops(h, h') && (NobodySlow(env) ==> h'.clients == h.clients)
  {
    TwoNoticesKeep(h, t, c, env);
  }

  // ---------- Registration and removal ----------

  /** A registration is accepted exactly with a code, and for an account, or for a temporary code
      that is neither active nor in use. */
  ghost predicate Accepts(h: Hub, s: Session) {
    s.code != "" && (s.accountBacked || (s.code !in h.active && s.code !in h.used))
  }

  /** Registering: an accepted client is in the lobby under its code, and whoever held the code
      before is gone; a refused one is not connected and nobody has lost his place to it. */
  lemma RegisterOutcome(h: Hub, c: Handle, s: Session, approvals: nat, env: Env)
    requires Inv(h) && c !in h.sessions && (s.room == "" || s.room == LOBBY)
    ensures var h' := Register(h, c, s, approvals, env);
      && (c in h'.clients ==>
            && Accepts(h, s) && s.code in h'.active && h'.active[s.code] == c
            && SessionOf(h', c) == s.(room := LOBBY, admin := s.admin || (h.adminCode != "" && s.code == h.adminCode))
            && (s.code in h.active ==> h.active[s.code] !in h'.clients))
      && (Accepts(h, s) && NobodySlow(env) ==> c in h'.clients)
      && (!Accepts(h, s) ==> h'.clients == h.clients && h'.active == h.active)
      && OthersUnchanged(h, h', c)
  {
    if Accepts(h, s) {
      var h2 := Vacated(h, s.code, env);
      var s2 := Admitted(h, s);
      VacatedIsFree(h, s.code, env);
      EnterKeeps(h2, c, s2);
      WelcomeOutcome(Enter(h2, c, s2), c, s2, approvals, env);
      AcceptedRegister(h, c, s, approvals, env);
    } else {
      RefusedRegister(h, c, s, approvals, env);
    }
  }

  /** The fields of an accepted client. */
  ghost function Admitted(h: Hub, s: Session): Session {
    s.(room := LOBBY, admin := s.admin || (h.adminCode != "" && s.code == h.adminCode))
  }

  /** The hub after the former holder of the code was taken off. */
  ghost function Vacated(h: Hub, code: Code, env: Env): Hub {
    if code in h.active then Unregister(h, h.active[code], env) else h
  }

  lemma VacatedIsFree(h: Hub, code: Code, env: Env)
    requires Inv(h)
    ensures var h2 := Vacated(h, code, env);
      && Inv(h2) && OnlyDrops(h, h2) && code !in h2.active && (code in h.active ==> h.active[code] !in h2.clients)
  {
    if code in h.active { UnregisterKeeps(h, h.active[code], env); }
  }

  lemma AcceptedRegister(h: Hub, c: Handle, s: Session, approvals: nat, env: Env)
    requires Inv(h) && Accepts(h, s) && (s.room == "" || s.room == LOBBY)
    ensures Register(h, c, s, approvals, env) ==
            Welcome(Enter(Vacated(h, s.code, env), c, Admitted(h, s)), c, Admitted(h, s), approvals, env)
  {
  }

  lemma RefusedRegister(h: Hub, c: Handle, s: Session, approvals: nat, env: Env)
    requires Inv(h) && !Accepts(h, s)
    ensures Register(h, c, s, approvals, env) == h
  {
  }

  lemma WelcomeOutcome(h: Hub, c: Handle, s: Session, approvals: nat, env: Env)
    requires Inv(h)
    ensures var h' := Welcome(h, c, s, approvals, env);
      Inv(h') && OnlyDrops(h, h') && (NobodySlow(env) ==> h'.clients == h.clients)
  {
    var order := env.order(h.tick, Members(h, s.room));
    DeliverAllKeeps(h, order, Notice, env);
    DeliverAllKeeps(DeliverAll(h, order, Notice, env), seq(approvals, _ => c), Notice, env);
    if NobodySlow(env) {
      NobodyDropped(h, order, Notice, env);
      NobodyDropped(DeliverAll(h, order, Notice, env), seq(approvals, _ => c), Notice, env);
    }
  }

  /** Unregistering: the client and its code are gone, and with nobody slow nobody else is. */
  lemma UnregisterOutcome(h: Hub, c: Handle, env: Env)
    requires Inv(h) && c in h.clients
    ensures var h' := Unregister(h, c, env);
      && c !in h'.clients && h.sessions[c].code !in h'.active && h'.sessions == h.sessions
      && (NobodySlow(env) ==> h'.clients == h.clients - {c})
  {
    UnregisterKeeps(h, c, env);
    RemoveKeeps(h, c);
    if NobodySlow(env) {
      var h1 := RemoveClient(h, c);
      NobodyDropped(h1, env.order(h1.tick, Members(h1, SessionOf(h, c).room)), Notice, env);
    }
  }

  /** With nobody slow, everybody left in the room is told once that the client is gone. */
  lemma UnregisterAnnounced(h: Hub, c: Handle, env: Env, d: Handle)
    requires Inv(h) && Enumerates(env) && NobodySlow(env) && c in h.clients && d in h.clients && d != c
    ensures Times(Unregister(h, c, env), d, Notice) ==
            Times(h, d, Notice) + (if SessionOf(h, d).room == SessionOf(h, c).room then 1 else 0)
  {
    RemoveKeeps(h, c);
    var h1 := RemoveClient(h, c);
    BroadcastReachesTheRoom(h1, SessionOf(h, c).room, Notice, env, d);
    assert d in Members(h1, SessionOf(h, c).room) <==> SessionOf(h1, d).room == SessionOf(h, c).room;
  }

  /** With nobody slow, a takeover tells everybody in the room of the former holder. */
  lemma VacatedAnnounced(h: Hub, code: Code, env: Env, d: Handle)
    requires Inv(h) && Enumerates(env) && NobodySlow(env)
    requires d !in h.sessions || (d in h.clients && (code in h.active ==> d != h.active[code]))
    ensures Times(Vacated(h, code, env), d, Notice) == Times(h, d, Notice)
      + (if code in h.active && d in h.clients && SessionOf(h, d).room == SessionOf(h, h.active[code]).room
         then 1 else 0)
  {
    if code in h.active {
      var t := h.active[code];
      if d in h.clients {
        UnregisterAnnounced(h, t, env, d);
      } else {
        RemoveKeeps(h, t);
        BroadcastReachesTheRoom(RemoveClient(h, t), SessionOf(h, t).room, Notice, env, d);
      }
    }
  }

  /** With nobody slow, a new client is announced once to everybody in the lobby, itself
      included, an administrator is told about every pending approval, and the room of a former
      holder of the code that this one is gone. */
  lemma RegisterAnnounced(h: Hub, c: Handle, s: Session, approvals: nat, env: Env, d: Handle)
    requires Inv(h) && Enumerates(env) && NobodySlow(env) && c !in h.sessions && (s.room == "" || s.room == LOBBY)
    requires Accepts(h, s) && (d == c || (d in h.clients && (s.code in h.active ==> d != h.active[s.code])))
    ensures Times(Register(h, c, s, approvals, env), d, Notice) ==
            Times(h, d, Notice) + (if d == c || SessionOf(h, d).room == LOBBY then 1 else 0)
            + (if d == c && Admitted(h, s).admin then approvals else 0)
            + (if s.code in h.active && d != c && SessionOf(h, d).room == SessionOf(h, h.active[s.code]).room
               then 1 else 0)
  {
    var (s2, h2) := (Admitted(h, s), Vacated(h, s.code, env));
    VacatedAnnounced(h, s.code, env, d);
    VacatedIsFree(h, s.code, env);
    if s.code in h.active { UnregisterOutcome(h, h.active[s.code], env); }
    AcceptedRegister(h, c, s, approvals, env);
    WelcomeAnnounced(h2, c, s2, approvals, env, d);
  }

  lemma WelcomeAnnounced(h: Hub, c: Handle, s: Session, approvals: nat, env: Env, d: Handle)
    requires Inv(h) && Enumerates(env) && NobodySlow(env) && c !in h.sessions && (d == c || d in h.clients)
    requires s.code != "" && s.code !in h.active && s.room == LOBBY
    ensures Times(Welcome(Enter(h, c, s), c, s, approvals, env), d, Notice) ==
            Times(h, d, Notice) + (if d == c || SessionOf(h, d).room == LOBBY then 1 else 0)
            + (if d == c && s.admin then approvals else 0)
  {
    EnterKeeps(h, c, s);
    var h1 := Enter(h, c, s);
    BroadcastReachesTheRoom(h1, LOBBY, Notice, env, d);
    assert d in Members(h1, LOBBY) <==> d == c || SessionOf(h, d).room == LOBBY;
    RepeatedNotices(Broadcast(h1, LOBBY, Notice, env), c, approvals, env, d);
  }

  lemma {:induction false} RepeatedNotices(h: Hub, c: Handle, n: nat, env: Env, d: Handle)
    requires Inv(h) && NobodySlow(env) && c in h.clients
    ensures Times(DeliverAll(h, seq(n, _ => c), Notice, env), d, Notice)
            == Times(h, d, Notice) + (if d == c then n else 0)
    decreases n
  {
    if n > 0 {
      var order := seq(n, _ => c);
      assert order[0] == c && order[1..] == seq(n - 1, _ => c);
      DeliverKeeps(h, c, Notice, env);
      DeliverCounts(h, c, Notice, env, d, Notice);
      RepeatedNotices(Deliver(h, c, Notice, env).0, c, n - 1, env, d);
    }
  }

  /** A temporary code is free again once its client is removed; an account's stays in use. */
  lemma RemovalFreesCode(h: Hub, c: Handle)
    requires Inv(h) && c in h.clients
    ensures h.sessions[c].code in RemoveClient(h, c).used <==> h.sessions[c].accountBacked
  {
    assert h.active[h.sessions[c].code] == c;
  }

  // ---------- Administration ----------

  /** An administrator acts on another connected client. */
  ghost predicate MayPunish(h: Hub, c: Handle, target: Option<Code>) {
    && c in h.clients && SessionOf(h, c).admin
    && target.Some? && target.value in h.active && h.active[target.value] != c
  }

  /** Kicking: the target is gone exactly if an administrator kicks another client. */
  lemma KickOutcome(h: Hub, c: Handle, target: Option<Code>, env: Env)
    requires Inv(h)
    ensures var h' := Kick(h, c, target, env);
      && h'.sessions == h.sessions && h'.definitions == h.definitions && h'.clients <= h.clients
      && (MayPunish(h, c, target) ==> h.active[target.value] !in h'.clients && target.value !in h'.active)
      && (NobodySlow(env) ==>
            h'.clients == if MayPunish(h, c, target) then h.clients - {h.active[target.value]} else h.clients)
  {
    DeliverKeeps(h, c, Notice, env);
    if MayPunish(h, c, target) {
      var t := h.active[target.value];
      DeliverKeeps(h, t, Notice, env);
      Kicked(Deliver(h, t, Notice, env).0, t, c, target.value, env);
    }
  }

  lemma Kicked(h: Hub, t: Handle, c: Handle, code: Code, env: Env)
    requires Inv(h) && (code in h.active ==> h.active[code] == t)
    ensures var h' := Deliver(Unregister(h, t, env), c, Notice, env).0;
      && h'.sessions == h.sessions && h'.definitions == h.definitions && h'.clients <= h.clients - {t}
      && code !in h'.active && (NobodySlow(env) ==> h'.clients == h.clients - {t})
  {
    UnregisterKeeps(h, t, env);
    if t in h.clients { UnregisterOutcome(h, t, env); }
    DeliverKeeps(Unregister(h, t, env), c, Notice, env);
  }

  /** Muting: the target's flag flips exactly if an administrator mutes another client. */
  lemma MuteOutcome(h: Hub, c: Handle, target: Option<Code>, env: Env)
    requires Inv(h)
    ensures var h' := Mute(h, c, target, env);
      && h'.clients <= h.clients && h'.definitions == h.definitions
      && (if MayPunish(h, c, target) then
            var t := h.active[target.value];
            SessionOf(h', t) == SessionOf(h, t).(muted := !SessionOf(h, t).muted) && OthersUnchanged(h, h', t)
          else h'.sessions == h.sessions)
      && (NobodySlow(env) ==> h'.clients == h.clients)
  {
    if MayPunish(h, c, target) { Muted(h, c, h.active[target.value], env); } else { DeliverKeeps(h, c, Notice, env); }
  }

  lemma Muted(h: Hub, c: Handle, t: Handle, env: Env)
    requires Inv(h) && t in h.sessions
    ensures var s := SessionOf(h, t);
      var h1 := h.(sessions := h.sessions[t := s.(muted := !s.muted)]);
      var h' := Deliver(Deliver(h1, t, Notice, env).0, c, Notice, env).0;
      && h'.clients <= h.clients && h'.definitions == h.definitions && h'.sessions == h1.sessions
      && (NobodySlow(env) ==> h'.clients == h.clients)
  {
    var s := SessionOf(h, t);
    FlagKeeps(h, t, s.(muted := !s.muted));
    TwoNotices(h.(sessions := h.sessions[t := s.(muted := !s.muted)]), t, c, env);
  }
}
