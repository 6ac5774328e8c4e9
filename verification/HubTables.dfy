/** The client registry of server-go/hub.go: clients, active codes, rooms, channel definitions
    and the session fields of each client, as the single Hub goroutine changes them. A delivery
    into a full send buffer drops the client in the middle of whatever is going on. */
module HubTables {
  import opened Wrappers

  type Handle = int
  type Code = string
  type Room = string

  const LOBBY: Room := "lobby"

  datatype Session = Session(code: Code, accountBacked: bool, room: Room, admin: bool, muted: bool)

  datatype Definition = Definition(owner: Code, private: bool, allowed: set<Code>)

  /** Messages are told apart only as far as the registry is concerned. */
  datatype Message = Notice | Chat(author: Code)

  datatype Delivery = Delivery(to: Handle, message: Message)

  datatype Saved = Inserted | Duplicate | SaveFailed

  /** What the hub does not decide: whether the n-th delivery finds a full buffer, the order in
      which a map of clients is visited, and, with a store attached, what saving a chat gives. */
  datatype Env = Env(full: nat -> bool, order: (nat, set<Handle>) -> seq<Handle>, store: bool, saved: nat -> Saved)

  /** `sessions` are the fields of the client objects, `sent` what went into send buffers. */
  datatype Hub = Hub(
    clients: set<Handle>,
    active: map<Code, Handle>,
    used: set<Code>,
    rooms: map<Room, set<Handle>>,
    definitions: map<Room, Definition>,
    sessions: map<Handle, Session>,
    adminCode: Code,
    sent: seq<Delivery>,
    tick: nat)

  function NewHub(adminCode: Code): Hub {
    Hub({}, map[], {}, map[], map[LOBBY := Definition("", false, {})], map[], adminCode, [], 0)
  }

  function SessionOf(h: Hub, c: Handle): Session {
    if c in h.sessions then h.sessions[c] else Session("", false, "", false, false)
  }

  function Members(h: Hub, r: Room): set<Handle> {
    if r in h.rooms then h.rooms[r] else {}
  }

  predicate CanJoin(s: Session, d: Definition) {
    !d.private || s.admin || s.code in d.allowed
  }

  predicate CanManage(s: Session, d: Definition) {
    s.admin || (d.owner != "" && d.owner == s.code)
  }

  // ---------- Rooms and removal ----------

  function RemoveFromRoom(h: Hub, c: Handle): Hub {
    var r := SessionOf(h, c).room;
    if r == "" || r !in h.rooms then h
    else
      var rest := h.rooms[r] - {c};
      h.(rooms := if rest == {} && r != LOBBY then h.rooms - {r} else h.rooms[r := rest])
  }

  function AddToRoom(h: Hub, c: Handle, r: Room): Hub {
    h.(rooms := h.rooms[r := Members(h, r) + {c}])
  }

  function SetRoom(h: Hub, c: Handle, r: Room): Hub {
    h.(sessions := h.sessions[c := SessionOf(h, c).(room := r)])
  }

  function Move(h: Hub, c: Handle, r: Room): Hub {
    AddToRoom(SetRoom(RemoveFromRoom(h, c), c, r), c, r)
  }

  function RemoveClient(h: Hub, c: Handle): Hub {
    var s := SessionOf(h, c);
    var h1 := RemoveFromRoom(h.(clients := h.clients - {c}), c);
    if s.code == "" then h1
    else
      h1.(active := if s.code in h1.active && h1.active[s.code] == c then h1.active - {s.code} else h1.active,
          used := if s.accountBacked then h1.used else h1.used - {s.code})
  }

  // ---------- Delivery ----------

  function Deliver(h: Hub, c: Handle, m: Message, env: Env): (Hub, bool) {
    if c !in h.clients then (h, false)
    else if env.full(h.tick) then (RemoveClient(h.(tick := h.tick + 1), c), false)
    else (h.(tick := h.tick + 1, sent := h.sent + [Delivery(c, m)]), true)
  }

  function DeliverAll(h: Hub, order: seq<Handle>, m: Message, env: Env): Hub
    decreases |order|
  {
    if order == [] then h else DeliverAll(Deliver(h, order[0], m, env).0, order[1..], m, env)
  }

  function Broadcast(h: Hub, r: Room, m: Message, env: Env): Hub {
    DeliverAll(h, env.order(h.tick, Members(h, r)), m, env)
  }

  // ---------- Requests ----------

  function Unregister(h: Hub, c: Handle, env: Env): Hub {
    if c !in h.clients then h
    else Broadcast(RemoveClient(h, c), SessionOf(h, c).room, Notice, env)
  }

  /** `s` are the fields the connection handler has set; `approvals` counts the pending
      connection approvals an administrator is told about. */
  function Register(h: Hub, c: Handle, s: Session, approvals: nat, env: Env): Hub {
    if s.code == "" then h
    else
      var s1 := if s.room == "" then s.(room := LOBBY) else s;
      var h1 := if LOBBY in h.definitions then h
                else h.(definitions := h.definitions[LOBBY := Definition("", false, {})]);
      if s.code in h.active && !s.accountBacked then h1
      else
        var h2 := if s.code in h.active then Unregister(h1, h1.active[s.code], env) else h1;
        if !s.accountBacked && s.code in h2.used then h2
        else
          var s2 := if h.adminCode != "" && s.code == h.adminCode then s1.(admin := true) else s1;
          Welcome(Enter(h2, c, s2), c, s2, approvals, env)
  }

  /** The entries of a new client. */
  function Enter(h: Hub, c: Handle, s: Session): Hub {
    AddToRoom(h.(used := h.used + {s.code}, active := h.active[s.code := c], clients := h.clients + {c},
                 sessions := h.sessions[c := s]), c, s.room)
  }

  function Welcome(h: Hub, c: Handle, s: Session, approvals: nat, env: Env): Hub {
    var h1 := Broadcast(h, s.room, Notice, env);
    if s.admin then DeliverAll(h1, seq(approvals, _ => c), Notice, env) else h1
  }

  function Join(h: Hub, c: Handle, r: Room, env: Env): Hub {
    if c !in h.clients then h
    else if r == "" || r !in h.definitions || !CanJoin(SessionOf(h, c), h.definitions[r]) || r == SessionOf(h, c).room
    then
      Deliver(h, c, Notice, env).0
    else
      Broadcast(Move(Broadcast(h, SessionOf(h, c).room, Notice, env), c, r), r, Notice, env)
  }

  function Leave(h: Hub, c: Handle, env: Env): Hub {
    if c !in h.clients then h
    else if SessionOf(h, c).room == LOBBY then Deliver(h, c, Notice, env).0
    else
      Broadcast(Move(Broadcast(h, SessionOf(h, c).room, Notice, env), c, LOBBY), LOBBY, Notice, env)
  }

  function Create(h: Hub, c: Handle, r: Room, private: bool, env: Env): Hub {
    if c !in h.clients then h
    else if r == "" || r in h.definitions then Deliver(h, c, Notice, env).0
    else
      var code := SessionOf(h, c).code;
      var h1 := h.(definitions := h.definitions[r := Definition(code, private, {code})]);
      Join(Deliver(h1, c, Notice, env).0, c, r, env)
  }

  /** The loop of a channel deletion: every member goes to the lobby and is told. */
  function Evict(h: Hub, order: seq<Handle>, env: Env): Hub
    decreases |order|
  {
    if order == [] then h else Evict(Deliver(Move(h, order[0], LOBBY), order[0], Notice, env).0, order[1..], env)
  }

  function DeleteRoom(h: Hub, r: Room, env: Env): Hub {
    var h1 := Evict(h, env.order(h.tick, Members(h, r)), env);
    h1.(rooms := h1.rooms - {r}, definitions := h1.definitions - {r})
  }

  datatype Action = Delete | Invite | RemoveMember | Unknown

  /** `target` is None when the code does not normalize. */
  function RoomAction(h: Hub, c: Handle, action: Action, r: Room, target: Option<Code>, env: Env): Hub {
    if c !in h.clients then h
    else if r !in h.definitions || r == LOBBY || !CanManage(SessionOf(h, c), h.definitions[r]) then
      Deliver(h, c, Notice, env).0
    else if action == Delete then DeleteRoom(h, r, env)
    else if target.None? then Deliver(h, c, Notice, env).0
    else if action == Invite then InviteMember(h, c, r, target.value, env)
    else if action == RemoveMember then ExcludeMember(h, c, r, target.value, env)
    else h
  }

  function WithAllowed(h: Hub, r: Room, allowed: set<Code>): Hub
    requires r in h.definitions
  {
    h.(definitions := h.definitions[r := h.definitions[r].(allowed := allowed)])
  }

  function InviteMember(h: Hub, c: Handle, r: Room, target: Code, env: Env): Hub
    requires r in h.definitions
  {
    Deliver(WithAllowed(h, r, h.definitions[r].allowed + {target}), c, Notice, env).0
  }

  function ExcludeMember(h: Hub, c: Handle, r: Room, target: Code, env: Env): Hub
    requires r in h.definitions
  {
    var h1 := WithAllowed(h, r, h.definitions[r].allowed - {target});
    var h2 := if target in h.active && SessionOf(h, h.active[target]).room == r
              then Deliver(Move(h1, h.active[target], LOBBY), h.active[target], Notice, env).0 else h1;
    Deliver(h2, c, Notice, env).0
  }

  function Kick(h: Hub, c: Handle, target: Option<Code>, env: Env): Hub {
    if c !in h.clients then h
    else if !SessionOf(h, c).admin || target.None? || target.value !in h.active || h.active[target.value] == c then
      Deliver(h, c, Notice, env).0
    else
      var t := h.active[target.value];
      Deliver(Unregister(Deliver(h, t, Notice, env).0, t, env), c, Notice, env).0
  }

  function Mute(h: Hub, c: Handle, target: Option<Code>, env: Env): Hub {
    if c !in h.clients then h
    else if !SessionOf(h, c).admin || target.None? || target.value !in h.active || h.active[target.value] == c then
      Deliver(h, c, Notice, env).0
    else
      var t := h.active[target.value];
      var s := SessionOf(h, t);
      var h1 := h.(sessions := h.sessions[t := s.(muted := !s.muted)]);
      Deliver(Deliver(h1, t, Notice, env).0, c, Notice, env).0
  }

  /** broadcastMessage for a chat. `author` is None when the user code does not normalize and
      `tracked` says whether the client asked for delivery receipts. */
  function BroadcastChat(h: Hub, author: Option<Code>, tracked: bool, env: Env): Hub {
    var sender := if author.Some? && author.value in h.active then Some(h.active[author.value]) else None;
    var room := if sender.Some? then SessionOf(h, sender.value).room else "";
    var saved := if !env.store then Inserted else if room == "" || author.None? then SaveFailed else env.saved(h.tick);
    if saved == SaveFailed then
      if sender.Some? then Deliver(h, sender.value, Notice, env).0 else h
    else if saved == Duplicate then
      if sender.Some? && tracked then Deliver(h, sender.value, Notice, env).0 else h
    else
      var code := if author.Some? then author.value else "";
      var receivers := if room == "" then h.clients else Members(h, room);
      var h1 := DeliverAll(h, env.order(h.tick, receivers), Chat(code), env);
      if sender.Some? && tracked then Deliver(h1, sender.value, Notice, env).0 else h1
  }

  // ---------- Histories ----------

  /** `NoticeEvent` stands for every other request: it only delivers messages that are not
      chats, to clients it finds in the tables. */
  datatype Event =
    | RegisterEvent(client: Handle, session: Session, approvals: nat)
    | UnregisterEvent(client: Handle)
    | JoinEvent(client: Handle, room: Room)
    | LeaveEvent(client: Handle)
    | CreateEvent(client: Handle, room: Room, private: bool)
    | ActionEvent(client: Handle, action: Action, room: Room, target: Option<Code>)
    | KickEvent(client: Handle, target: Option<Code>)
    | MuteEvent(client: Handle, target: Option<Code>)
    | ChatEvent(author: Option<Code>, tracked: bool)
    | NoticeEvent(receivers: seq<Handle>)

  function Step(h: Hub, e: Event, env: Env): Hub {
    match e
    case RegisterEvent(c, s, approvals) => Register(h, c, s, approvals, env)
    case UnregisterEvent(c) => Unregister(h, c, env)
    case JoinEvent(c, r) => Join(h, c, r, env)
    case LeaveEvent(c) => Leave(h, c, env)
    case CreateEvent(c, r, private) => Create(h, c, r, private, env)
    case ActionEvent(c, action, r, target) => RoomAction(h, c, action, r, target, env)
    case KickEvent(c, target) => Kick(h, c, target, env)
    case MuteEvent(c, target) => Mute(h, c, target, env)
    case ChatEvent(author, tracked) => BroadcastChat(h, author, tracked, env)
    case NoticeEvent(receivers) => DeliverAll(h, receivers, Notice, env)
  }

  function Run(h: Hub, events: seq<Event>, env: Env): Hub
    decreases |events|
  {
    if events == [] then h else Run(Step(h, events[0], env), events[1..], env)
  }
}
