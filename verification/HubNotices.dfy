/** Who is told what: with no send buffer full, every request to the Hub is answered by exactly
    these notices and no others. */
module HubNotices {
  import opened Wrappers
  import opened HubTables
  import opened HubInvariants
  import opened HubOutcomes

  ghost function Bit(b: bool): nat {
    if b then 1 else 0
  }

  /** `h'` is `h` with more messages sent. */
  ghost predicate OnlySent(h: Hub, h': Hub) {
    h' == h.(tick := h'.tick, sent := h'.sent)
  }

  lemma OneNotice(h: Hub, c: Handle, env: Env, d: Handle)
    requires NobodySlow(env) && c in h.clients
    ensures var h' := Deliver(h, c, Notice, env).0;
      OnlySent(h, h') && Times(h', d, Notice) == Times(h, d, Notice) + Bit(d == c)
  {
  }

  lemma NoticeToBoth(h: Hub, t: Handle, c: Handle, env: Env, d: Handle)
    requires NobodySlow(env) && c in h.clients && t in h.clients
    ensures Times(Deliver(Deliver(h, t, Notice, env).0, c, Notice, env).0, d, Notice)
            == Times(h, d, Notice) + Bit(d == t) + Bit(d == c)
  {
    OneNotice(h, t, env, d);
    OneNotice(Deliver(h, t, Notice, env).0, c, env, d);
  }

  /** Requests that cannot be met: the client is told once, nobody else is and nothing changes. */
  lemma RefusalsAreAnswered(h: Hub, c: Handle, r: Room, private: bool, action: Action, target: Option<Code>, env: Env,
                            d: Handle)
    requires Inv(h) && NobodySlow(env) && c in h.clients
    ensures var more := Times(h, d, Notice) + Bit(d == c);
      && (r == "" || r in h.definitions ==>
            var h' := Create(h, c, r, private, env); OnlySent(h, h') && Times(h', d, Notice) == more)
      && (r !in h.definitions || !CanJoin(SessionOf(h, c), h.definitions[r]) || r == SessionOf(h, c).room ==>
            var h' := Join(h, c, r, env); OnlySent(h, h') && Times(h', d, Notice) == more)
      && (!MayManage(h, c, r) || (target.None? && action != Delete) ==>
            var h' := RoomAction(h, c, action, r, target, env); OnlySent(h, h') && Times(h', d, Notice) == more)
      && (!MayPunish(h, c, target) ==>
            var (k, m) := (Kick(h, c, target, env), Mute(h, c, target, env));
            OnlySent(h, k) && OnlySent(h, m) && Times(k, d, Notice) == Times(m, d, Notice) == more)
  {
    OneNotice(h, c, env, d);
  }

  /** Invitations are confirmed to whoever makes them. */
  lemma InviteAnswered(h: Hub, c: Handle, r: Room, target: Code, env: Env, d: Handle)
    requires Inv(h) && NobodySlow(env) && MayManage(h, c, r)
    ensures Times(RoomAction(h, c, Invite, r, Some(target), env), d, Notice) == Times(h, d, Notice) + Bit(d == c)
  {
    OneNotice(WithAllowed(h, r, h.definitions[r].allowed + {target}), c, env, d);
  }

  /** A removal is confirmed, and the removed member is told if he was in the channel. */
  lemma RemoveMemberAnswered(h: Hub, c: Handle, r: Room, target: Code, env: Env, d: Handle)
    requires Inv(h) && NobodySlow(env) && MayManage(h, c, r) && d in h.clients
    ensures Times(RoomAction(h, c, RemoveMember, r, Some(target), env), d, Notice)
            == Times(h, d, Notice) + Bit(d == c) + Bit(h.sessions[d].code == target && h.sessions[d].room == r)
  {
    var h1 := WithAllowed(h, r, h.definitions[r].allowed - {target});
    if target in h.active && SessionOf(h, h.active[target]).room == r {
      NoticeToBoth(Move(h1, h.active[target], LOBBY), h.active[target], c, env, d);
    } else {
      OneNotice(h1, c, env, d);
    }
  }

  lemma {:induction false} EvictTells(h: Hub, order: seq<Handle>, env: Env, d: Handle)
    requires NobodySlow(env) && d in h.clients
    requires forall i, j :: 0 <= i < j < |order| ==> order[i] != order[j]
    ensures Times(Evict(h, order, env), d, Notice) == Times(h, d, Notice) + Bit(d in order)
    decreases |order|
  {
    if order != [] {
      var h1 := Move(h, order[0], LOBBY);
      if order[0] in h.clients { OneNotice(h1, order[0], env, d); }
      EvictTells(Deliver(h1, order[0], Notice, env).0, order[1..], env, d);
      assert d in order <==> d == order[0] || d in order[1..];
    }
  }

  /** A deletion is told to everybody who was in the channel, once each. */
  lemma DeleteAnswered(h: Hub, c: Handle, r: Room, target: Option<Code>, env: Env, d: Handle)
    requires Inv(h) && Enumerates(env) && NobodySlow(env) && MayManage(h, c, r) && d in h.clients
    ensures Times(RoomAction(h, c, Delete, r, target, env), d, Notice)
            == Times(h, d, Notice) + Bit(h.sessions[d].room == r)
  {
    var order := env.order(h.tick, Members(h, r));
    assert IsListing(order, Members(h, r));
    EvictTells(h, order, env, d);
  }

  /** A kick is told to the target and, when it is gone, to its room and to the administrator. */
  lemma KickAnswered(h: Hub, c: Handle, target: Option<Code>, env: Env, d: Handle)
    requires Inv(h) && Enumerates(env) && NobodySlow(env) && MayPunish(h, c, target) && d in h.clients
    ensures var t := h.active[target.value];
      Times(Kick(h, c, target, env), d, Notice) == Times(h, d, Notice)
        + (if d == t then 1 else Bit(h.sessions[d].room == h.sessions[t].room) + Bit(d == c))
  {
    var t := h.active[target.value];
    DeliverKeeps(h, t, Notice, env);
    OneNotice(h, t, env, d);
    var h1 := Deliver(h, t, Notice, env).0;
    UnregisterOutcome(h1, t, env);
    OneNotice(Unregister(h1, t, env), c, env, d);
    if d == t { TargetHearsNoMore(h1, t, env); } else { UnregisterAnnounced(h1, t, env, d); }
  }

  lemma TargetHearsNoMore(h: Hub, t: Handle, env: Env)
    requires Inv(h) && Enumerates(env) && t in h.clients
    ensures Times(Unregister(h, t, env), t, Notice) == Times(h, t, Notice)
  {
    RemoveKeeps(h, t);
    BroadcastReachesTheRoom(RemoveClient(h, t), SessionOf(h, t).room, Notice, env, t);
  }

  /** Muting is told to both sides. */
  lemma MuteAnswered(h: Hub, c: Handle, target: Option<Code>, env: Env, d: Handle)
    requires Inv(h) && NobodySlow(env) && MayPunish(h, c, target)
    ensures Times(Mute(h, c, target, env), d, Notice)
            == Times(h, d, Notice) + Bit(d == h.active[target.value]) + Bit(d == c)
  {
    var t := h.active[target.value];
    var s := SessionOf(h, t);
    NoticeToBoth(h.(sessions := h.sessions[t := s.(muted := !s.muted)]), t, c, env, d);
  }

  /** A connected author gets one answer to a chat that could not be saved, and to one that was
      saved now or before exactly if he asked for a receipt; nobody else is told anything. */
  lemma ChatAnswered(h: Hub, author: Option<Code>, tracked: bool, env: Env, d: Handle)
    requires Inv(h) && Enumerates(env) && NobodySlow(env)
    ensures var sender := Sender(h, author);
      var failed := env.store && env.saved(h.tick) == SaveFailed;
      Times(BroadcastChat(h, author, tracked, env), d, Notice)
        == Times(h, d, Notice) + Bit(sender.Some? && d == sender.value && (failed || tracked))
  {
    var (sender, order) := (Sender(h, author), env.order(h.tick, Receivers(h, author)));
    assert IsListing(order, Receivers(h, author));
    var h1 := DeliverAll(h, order, ChatOf(author), env);
    NobodyDropped(h, order, ChatOf(author), env);
    DeliverAllCounts(h, order, ChatOf(author), env, d, Notice);
    if sender.Some? {
      OneNotice(h, sender.value, env, d);
      OneNotice(h1, sender.value, env, d);
    }
  }
}
