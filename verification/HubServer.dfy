/** The Hub as the object its goroutine owns: tables changed in place, request by request, and
    proved against the operations of `HubTables`. */
module HubServer {
  import opened Wrappers
  import opened HubTables
  import HubInvariants

  class ChatHub {
    const env: Env
    const adminCode: Code
    var clients: set<Handle>
    var activeCodes: map<Code, Handle>
    var usedCodes: set<Code>
    var rooms: map<Room, set<Handle>>
    var roomDefinitions: map<Room, Definition>
    var sessions: map<Handle, Session>
    var sent: seq<Delivery>
    var tick: nat

    ghost function AsHub(): Hub
      reads this
    {
      Hub(clients, activeCodes, usedCodes, rooms, roomDefinitions, sessions, adminCode, sent, tick)
    }

    constructor (adminCode: Code, env: Env)
      ensures AsHub() == NewHub(adminCode) && this.env == env
    {
      this.env, this.adminCode := env, adminCode;
      clients, activeCodes, usedCodes, rooms := {}, map[], {}, map[];
      roomDefinitions := map[LOBBY := Definition("", false, {})];
      sessions, sent, tick := map[], [], 0;
    }

    function Fields(c: Handle): Session
      reads this
    {
      if c in sessions then sessions[c] else Session("", false, "", false, false)
    }

    function RoomMembers(r: Room): set<Handle>
      reads this
    {
      if r in rooms then rooms[r] else {}
    }

    method TakeFromRoom(c: Handle)
      modifies this
      ensures AsHub() == RemoveFromRoom(old(AsHub()), c)
    {
      var r := Fields(c).room;
      if r == "" || r !in rooms { return; }
      rooms := rooms[r := rooms[r] - {c}];
      if rooms[r] == {} && r != LOBBY {
        ghost var before := old(rooms);
        rooms := rooms - {r};
        assert rooms == before - {r};
      }
    }

    method PutIntoRoom(c: Handle, r: Room)
      modifies this
      ensures AsHub() == AddToRoom(old(AsHub()), c, r)
    {
      rooms := rooms[r := RoomMembers(r) + {c}];
    }

    method MoveTo(c: Handle, r: Room)
      modifies this
      ensures AsHub() == Move(old(AsHub()), c, r)
    {
      TakeFromRoom(c);
      sessions := sessions[c := Fields(c).(room := r)];
      PutIntoRoom(c, r);
    }

    method Remove(c: Handle)
      modifies this
      ensures AsHub() == RemoveClient(old(AsHub()), c)
    {
      clients := clients - {c};
      TakeFromRoom(c);
      var s := Fields(c);
      if s.code == "" { return; }
      if s.code in activeCodes && activeCodes[s.code] == c { activeCodes := activeCodes - {s.code}; }
      if !s.accountBacked { usedCodes := usedCodes - {s.code}; }
    }

    /** deliver: a full buffer removes the client. */
    method Send(c: Handle, m: Message) returns (ok: bool)
      modifies this
      ensures AsHub() == Deliver(old(AsHub()), c, m, env).0 && ok == Deliver(old(AsHub()), c, m, env).1
    {
      if c !in clients { return false; }
      var full := env.full(tick);
      tick := tick + 1;
      if full {
        Remove(c);
        return false;
      }
      sent := sent + [Delivery(c, m)];
      return true;
    }

    /** A loop over clients that delivers to each. */
    method SendAll(order: seq<Handle>, m: Message)
      modifies this
      ensures AsHub() == DeliverAll(old(AsHub()), order, m, env)
    {
      for k := 0 to |order|
        invariant DeliverAll(AsHub(), order[k..], m, env) == DeliverAll(old(AsHub()), order, m, env)
      {
        assert order[k..][0] == order[k] && order[k..][1..] == order[k + 1..];
        var _ := Send(order[k], m);
      }
    }

    method BroadcastToRoom(r: Room)
      modifies this
      ensures AsHub() == Broadcast(old(AsHub()), r, Notice, env)
    {
      SendAll(env.order(tick, RoomMembers(r)), Notice);
    }

    method UnregisterClient(c: Handle)
      modifies this
      ensures AsHub() == Unregister(old(AsHub()), c, env)
    {
      if c !in clients { return; }
      var r := Fields(c).room;
      Remove(c);
      BroadcastToRoom(r);
    }

    method HandleRegister(c: Handle, s0: Session, approvals: nat)
      modifies this
      ensures AsHub() == Register(old(AsHub()), c, s0, approvals, env)
    {
      var s := s0;
      if s.code == "" { return; }
      if s.room == "" { s := s.(room := LOBBY); }
      if LOBBY !in roomDefinitions { roomDefinitions := roomDefinitions[LOBBY := Definition("", false, {})]; }
      if s.code in activeCodes {
        if !s.accountBacked { return; }
        UnregisterClient(activeCodes[s.code]);
      }
      if !s.accountBacked && s.code in usedCodes { return; }
      if adminCode != "" && s.code == adminCode { s := s.(admin := true); }
      EnterClient(c, s);
      Greet(c, s, approvals);
    }

    method EnterClient(c: Handle, s: Session)
      modifies this
      ensures AsHub() == Enter(old(AsHub()), c, s)
    {
      usedCodes := usedCodes + {s.code};
      activeCodes := activeCodes[s.code := c];
      clients := clients + {c};
      sessions := sessions[c := s];
      PutIntoRoom(c, s.room);
    }

    method Greet(c: Handle, s: Session, approvals: nat)
      modifies this
      ensures AsHub() == Welcome(old(AsHub()), c, s, approvals, env)
    {
      BroadcastToRoom(s.room);
      if s.admin { SendAll(seq(approvals, _ => c), Notice); }
    }

    method HandleRoomJoin(c: Handle, r: Room)
      modifies this
      ensures AsHub() == Join(old(AsHub()), c, r, env)
    {
      if c !in clients { return; }
      if r == "" || r !in roomDefinitions || !CanJoin(Fields(c), roomDefinitions[r]) || r == Fields(c).room {
        var _ := Send(c, Notice);
        return;
      }
      BroadcastToRoom(Fields(c).room);
      MoveTo(c, r);
      BroadcastToRoom(r);
    }

    method HandleRoomLeave(c: Handle)
      modifies this
      ensures AsHub() == Leave(old(AsHub()), c, env)
    {
      if c !in clients { return; }
      if Fields(c).room == LOBBY {
        var _ := Send(c, Notice);
        return;
      }
      BroadcastToRoom(Fields(c).room);
      MoveTo(c, LOBBY);
      BroadcastToRoom(LOBBY);
    }

    method HandleRoomCreate(c: Handle, r: Room, private: bool)
      modifies this
      ensures AsHub() == Create(old(AsHub()), c, r, private, env)
    {
      if c !in clients { return; }
      if r == "" || r in roomDefinitions {
        var _ := Send(c, Notice);
        return;
      }
      var code := Fields(c).code;
      roomDefinitions := roomDefinitions[r := Definition(code, private, {code})];
      var _ := Send(c, Notice);
      HandleRoomJoin(c, r);
    }

    /** The loop that empties a deleted channel. */
    method EvictAll(order: seq<Handle>)
      modifies this
      ensures AsHub() == Evict(old(AsHub()), order, env)
    {
      for k := 0 to |order|
        invariant Evict(AsHub(), order[k..], env) == Evict(old(AsHub()), order, env)
      {
        assert order[k..][0] == order[k] && order[k..][1..] == order[k + 1..];
        MoveTo(order[k], LOBBY);
        var _ := Send(order[k], Notice);
      }
    }

    method HandleRoomAction(c: Handle, action: Action, r: Room, target: Option<Code>)
      modifies this
      ensures AsHub() == RoomAction(old(AsHub()), c, action, r, target, env)
    {
      if c !in clients { return; }
      if r !in roomDefinitions || r == LOBBY || !CanManage(Fields(c), roomDefinitions[r]) {
        var _ := Send(c, Notice);
        return;
      }
      if action == Delete {
        EvictAll(env.order(tick, RoomMembers(r)));
        rooms := rooms - {r};
        roomDefinitions := roomDefinitions - {r};
        return;
      }
      if target.None? {
        var _ := Send(c, Notice);
        return;
      }
      var d := roomDefinitions[r];
      if action == Invite {
        roomDefinitions := roomDefinitions[r := d.(allowed := d.allowed + {target.value})];
        var _ := Send(c, Notice);
      } else if action == RemoveMember {
        roomDefinitions := roomDefinitions[r := d.(allowed := d.allowed - {target.value})];
        if target.value in activeCodes && Fields(activeCodes[target.value]).room == r {
          var t := activeCodes[target.value];
          MoveTo(t, LOBBY);
          var _ := Send(t, Notice);
        }
        var _ := Send(c, Notice);
      }
    }

    method HandleKick(c: Handle, target: Option<Code>)
      modifies this
      ensures AsHub() == Kick(old(AsHub()), c, target, env)
    {
      if c !in clients { return; }
      if !Fields(c).admin || target.None? || target.value !in activeCodes || activeCodes[target.value] == c {
        var _ := Send(c, Notice);
        return;
      }
      var t := activeCodes[target.value];
      var _ := Send(t, Notice);
      UnregisterClient(t);
      var _ := Send(c, Notice);
    }

    method HandleMute(c: Handle, target: Option<Code>)
      modifies this
      ensures AsHub() == Mute(old(AsHub()), c, target, env)
    {
      if c !in clients { return; }
      if !Fields(c).admin || target.None? || target.value !in activeCodes || activeCodes[target.value] == c {
        var _ := Send(c, Notice);
        return;
      }
      var t := activeCodes[target.value];
      var s := Fields(t);
      sessions := sessions[t := s.(muted := !s.muted)];
      var _ := Send(t, Notice);
      var _ := Send(c, Notice);
    }

    method BroadcastMessage(author: Option<Code>, tracked: bool)
      modifies this
      ensures AsHub() == BroadcastChat(old(AsHub()), author, tracked, env)
    {
      var sender: Option<Handle> := None;
      var room := "";
      if author.Some? && author.value in activeCodes {
        sender := Some(activeCodes[author.value]);
        room := Fields(sender.value).room;
      }
      if env.store {
        var saved := if room == "" || author.None? then SaveFailed else env.saved(tick);
        if saved == SaveFailed {
          if sender.Some? { var _ := Send(sender.value, Notice); }
          return;
        }
        if saved == Duplicate {
          if sender.Some? && tracked { var _ := Send(sender.value, Notice); }
          return;
        }
      }
      var code := if author.Some? then author.value else "";
      SendAll(env.order(tick, if room == "" then clients else RoomMembers(room)), Chat(code));
      if sender.Some? && tracked { var _ := Send(sender.value, Notice); }
    }

    method Handle(e: Event)
      modifies this
      ensures AsHub() == Step(old(AsHub()), e, env)
    {
      match e
      case RegisterEvent(c, s, approvals) => HandleRegister(c, s, approvals);
      case UnregisterEvent(c) => UnregisterClient(c);
      case JoinEvent(c, r) => HandleRoomJoin(c, r);
      case LeaveEvent(c) => HandleRoomLeave(c);
      case CreateEvent(c, r, private) => HandleRoomCreate(c, r, private);
      case ActionEvent(c, action, r, target) => HandleRoomAction(c, action, r, target);
      case KickEvent(c, target) => HandleKick(c, target);
      case MuteEvent(c, target) => HandleMute(c, target);
      case ChatEvent(author, tracked) => BroadcastMessage(author, tracked);
      case NoticeEvent(receivers) => SendAll(receivers, Notice);
    }

    /** The Hub's loop over the requests it receives keeps the registry consistent. */
    method RunLoop(events: seq<Event>)
      requires HubInvariants.Inv(AsHub()) && HubInvariants.Enumerates(env)
      requires HubInvariants.AllAdmissible(AsHub(), events, env)
      modifies this
      ensures AsHub() == Run(old(AsHub()), events, env) && HubInvariants.Inv(AsHub())
    {
      HubInvariants.RunKeeps(AsHub(), events, env);
      for k := 0 to |events|
        invariant Run(AsHub(), events[k..], env) == Run(old(AsHub()), events, env)
      {
        assert events[k..][0] == events[k] && events[k..][1..] == events[k + 1..];
        Handle(events[k]);
      }
    }
  }
}
