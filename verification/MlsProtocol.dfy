/** The two ends of the MLS control protocol: the client side of
    client-cpp/gui/src/gui_connection_worker.cpp and the relays of server-go/hub.go. */
module MlsProtocol {
  import opened Wrappers
  import opened MlsTables
  import opened Digits

  type CommandId = string

  // ---------- What goes over the wire ----------

  /** Client to server. A proposal without an action and target, a commit without a proposal
      id and a welcome for a group without control state take the legacy paths. */
  datatype Wire =
    | ProposalWire(room: Room, action: Option<Action>, target: Code, epoch: nat, proposalId: ProposalId,
                   proposal: Payload)
    | CommitWire(room: Room, proposalId: ProposalId, epoch: nat, commit: Payload)
    | WelcomeWire(room: Room, proposalId: ProposalId, digest: Digest, target: Code, epoch: nat, welcome: Payload)
    | AcceptWire(room: Room, target: Code, epoch: nat, proposalId: ProposalId, digest: Digest)

  /** Server to client. An acknowledgement carries the command id but no payload. */
  datatype Reply =
    | ProposalAck(command: CommandId)
    | CommitAck(command: CommandId)
    | WelcomeAck(command: CommandId)
    | AcceptAck(command: CommandId)
    | ErrorReply(command: CommandId)
    | ProposalRelay(group: GroupId, room: Room, epoch: nat, proposalId: ProposalId, proposal: Payload)
    | CommitRelay(group: GroupId, room: Room, epoch: nat, commit: Payload)
    | WelcomeRelay(group: GroupId, room: Room, epoch: nat, target: Code, proposalId: ProposalId, welcome: Payload)

  datatype Packet =
    | ToServer(from: Code, command: CommandId, group: GroupId, wire: Wire)
    | ToClient(to: Code, reply: Reply)

  // ---------- Client ----------

  datatype Phase = ProposalPhase | CommitPhase | WelcomePhase

  datatype Operation = Operation(
    phase: Phase, room: Room, group: GroupId, target: Code, epoch: nat,
    proposal: Payload, commit: Payload, welcome: Payload, add: bool)

  /** MlsGroupState without the MLS library object. */
  datatype GroupState = GroupState(
    room: Room, epoch: nat, commits: map<nat, Payload>, welcomes: map<nat, Payload>)

  /** `issued` is history: every operation this client ever started, by command id. */
  datatype Client = Client(
    groups: map<GroupId, GroupState>,
    pending: map<CommandId, Operation>,
    issued: map<CommandId, Operation>)

  const NEW_CLIENT := Client(map[], map[], map[])

  const MAX_U64: nat := 0xFFFF_FFFF_FFFF_FFFF

  /** std::map::emplace keeps an existing entry. */
  function Emplace(m: map<nat, Payload>, k: nat, v: Payload): map<nat, Payload> {
    if k in m then m else m[k := v]
  }

  function ProposalPacket(me: Code, cmd: CommandId, op: Operation): Packet {
    ToServer(me, cmd, op.group,
             ProposalWire(op.room, Some(if op.add then Add else Remove), op.target, op.epoch, cmd, op.proposal))
  }

  function CommitPacket(me: Code, cmd: CommandId, op: Operation): Packet {
    ToServer(me, cmd, op.group, CommitWire(op.room, cmd, op.epoch, op.commit))
  }

  function WelcomePacket(me: Code, cmd: CommandId, op: Operation): Packet {
    ToServer(me, cmd, op.group, WelcomeWire(op.room, cmd, Sha256(op.welcome), op.target, op.epoch, op.welcome))
  }

  /** welcomeAcceptCommandId: the same for every retry of a welcome. The source shortens the text
      behind "wa-" by a digest. */
  function AcceptCommand(g: GroupId, e: nat): CommandId {
    "wa-" + g + "|" + Decimal(e)
  }

  function AcceptPacket(me: Code, g: GroupId, room: Room, e: nat, pid: ProposalId, welcome: Payload): Packet {
    ToServer(me, AcceptCommand(g, e), g, AcceptWire(room, me, e, pid, Sha256(welcome)))
  }

  /** addMlsMember. The payloads come from the MLS library; an empty one stands for a call
      that failed. `sent` says whether the connection took the packet. */
  function StartAdd(c: Client, me: Code, cmd: CommandId, room: Room, g: GroupId, target: Code,
                    proposal: Payload, commit: Payload, welcome: Payload, sent: bool): (Client, set<Packet>)
  {
    if room == "" || g == "" || target == "" then (c, {})
    else if g in c.groups && c.groups[g].room != room then (c, {})
    else
      var groups := if g in c.groups then c.groups else c.groups[g := GroupState(room, 0, map[], map[])];
      var c1 := c.(groups := groups);
      if proposal == "" || commit == "" || welcome == "" then (c1, {})
      else if groups[g].epoch >= MAX_U64 then (c1, {})
      else if cmd == "" || cmd in c.pending then (c1, {})
      else
        var op := Operation(ProposalPhase, room, g, target, groups[g].epoch + 1, proposal, commit, welcome, true);
        Launch(c1, me, cmd, op, sent)
  }

  /** removeMlsMember. */
  function StartRemove(c: Client, me: Code, cmd: CommandId, room: Room, g: GroupId, target: Code,
                       proposal: Payload, commit: Payload, sent: bool): (Client, set<Packet>)
  {
    if room == "" || g == "" || target == "" || g !in c.groups then (c, {})
    else if c.groups[g].room != room then (c, {})
    else if proposal == "" || commit == "" then (c, {})
    else if c.groups[g].epoch >= MAX_U64 then (c, {})
    else if cmd == "" || cmd in c.pending then (c, {})
    else
      var op := Operation(ProposalPhase, room, g, target, c.groups[g].epoch + 1, proposal, commit, "", false);
      Launch(c, me, cmd, op, sent)
  }

  /** The operation is recorded as pending and dropped again when the proposal cannot be sent. */
  function Launch(c: Client, me: Code, cmd: CommandId, op: Operation, sent: bool): (Client, set<Packet>) {
    if sent then
      (c.(pending := c.pending[cmd := op], issued := c.issued[cmd := op]), {ProposalPacket(me, cmd, op)})
    else (c.(issued := c.issued[cmd := op]), {})
  }

  function Drop(c: Client, cmd: CommandId): Client {
    c.(pending := c.pending - {cmd})
  }

  /** A proposal acknowledgement: the operation moves to its commit. */
  function OnProposalAck(c: Client, me: Code, cmd: CommandId, sent: bool): (Client, set<Packet>) {
    if cmd !in c.pending || c.pending[cmd].phase != ProposalPhase then (c, {})
    else if sent then
      (c.(pending := c.pending[cmd := c.pending[cmd].(phase := CommitPhase)]), {CommitPacket(me, cmd, c.pending[cmd])})
    else (Drop(c, cmd), {})
  }

  /** A commit acknowledgement: only now the client adopts the epoch and records the commit. */
  function OnCommitAck(c: Client, me: Code, cmd: CommandId, sent: bool): (Client, set<Packet>) {
    if cmd !in c.pending || c.pending[cmd].phase != CommitPhase then (c, {})
    else
      var op := c.pending[cmd];
      if op.group !in c.groups then (Drop(c, cmd), {})
      else
        var gs := c.groups[op.group];
        var gs1 := gs.(epoch := op.epoch, commits := Emplace(gs.commits, op.epoch, op.commit));
        var c1 := c.(groups := c.groups[op.group := gs1]);
        if !op.add || !sent then (Drop(c1, cmd), {})
        else (c1.(pending := c.pending[cmd := op.(phase := WelcomePhase)]), {WelcomePacket(me, cmd, op)})
  }

  /** A welcome acknowledgement ends the operation. */
  function OnWelcomeAck(c: Client, cmd: CommandId): Client {
    if cmd !in c.pending || c.pending[cmd].phase != WelcomePhase then c
    else
      var op := c.pending[cmd];
      var groups :=
        if op.group in c.groups then
          var gs := c.groups[op.group];
          c.groups[op.group := gs.(welcomes := Emplace(gs.welcomes, op.epoch, op.welcome))]
        else c.groups;
      Drop(c.(groups := groups), cmd)
  }

  /** A peer's commit. `libraryOk` says whether handleCommit took it. */
  function OnCommitRelay(c: Client, g: GroupId, room: Room, e: nat, commit: Payload, libraryOk: bool): Client {
    if commit == "" || g !in c.groups || c.groups[g].room != room then c
    else
      var gs := c.groups[g];
      if e in gs.commits && gs.commits[e] == commit then c
      else if e != gs.epoch + 1 then c
      else if !libraryOk then c
      else c.(groups := c.groups[g := gs.(epoch := e, commits := Emplace(gs.commits, e, commit))])
  }

  /** A welcome. `libraryOk` says whether a pending key package exists and the join worked. */
  function OnWelcomeRelay(c: Client, me: Code, g: GroupId, room: Room, e: nat, target: Code,
                          pid: ProposalId, welcome: Payload, libraryOk: bool, sent: bool): (Client, set<Packet>)
  {
    var accept := if pid != "" && sent then {AcceptPacket(me, g, room, e, pid, welcome)} else {};
    if welcome == "" || (target != "" && target != me) then (c, {})
    else if g in c.groups then
      var gs := c.groups[g];
      if gs.room == room && e in gs.welcomes && gs.welcomes[e] == welcome then (c, accept) else (c, {})
    else if !libraryOk then (c, {})
    else (c.(groups := c.groups[g := GroupState(room, e, map[], map[e := welcome])]), accept)
  }

  /** processMlsMessage. A relayed proposal only goes to the MLS library. */
  function Receive(c: Client, me: Code, reply: Reply, libraryOk: bool, sent: bool): (Client, set<Packet>) {
    match reply
    case ProposalAck(cmd) => OnProposalAck(c, me, cmd, sent)
    case CommitAck(cmd) => OnCommitAck(c, me, cmd, sent)
    case WelcomeAck(cmd) => (OnWelcomeAck(c, cmd), {})
    case AcceptAck(_) => (c, {})
    case ErrorReply(cmd) => (Drop(c, cmd), {})
    case ProposalRelay(_, _, _, _, _) => (c, {})
    case CommitRelay(g, room, e, commit) => (OnCommitRelay(c, g, room, e, commit, libraryOk), {})
    case WelcomeRelay(g, room, e, target, pid, welcome) =>
      OnWelcomeRelay(c, me, g, room, e, target, pid, welcome, libraryOk, sent)
  }

  /** What resumePendingMlsOperations sends for one operation. */
  function ResumePacket(me: Code, cmd: CommandId, op: Operation): Packet {
    if op.phase == ProposalPhase then ProposalPacket(me, cmd, op) else CommitPacket(me, cmd, op)
  }

  /** The packets that resuming the operations of `cmds` sends. */
  function ResumePackets(pending: map<CommandId, Operation>, me: Code, cmds: set<CommandId>): set<Packet> {
    set cmd | cmd in pending && pending[cmd].phase != WelcomePhase && cmd in cmds :: ResumePacket(me, cmd, pending[cmd])
  }

  /** resumePendingMlsOperations: operations in the welcome phase are dropped, the others are
      sent again; `taken` are the commands whose packet the connection took. */
  function Resume(c: Client, me: Code, taken: set<CommandId>): (Client, set<Packet>) {
    (c.(pending := map cmd | cmd in c.pending && c.pending[cmd].phase != WelcomePhase :: c.pending[cmd]),
     ResumePackets(c.pending, me, taken))
  }

  /** resetMlsState. */
  function Reset(c: Client): Client {
    c.(groups := map[], pending := map[])
  }

  // ---------- Hub ----------

  /** Which store operation the hub handlers call for a packet. */
  function Route(db: Database, sender: Code, g: GroupId, w: Wire): Request {
    match w
    case ProposalWire(room, action, target, e, pid, data) =>
      if action == None && target == "" then LegacyPropose(room, e, pid, data)
      else Propose(room, sender, if action.Some? then action.value else Add, target, e, pid, data)
    case CommitWire(room, pid, e, commit) =>
      if pid != "" then Commit(room, sender, pid, e, commit) else LegacyCommit(room, e, commit)
    case WelcomeWire(room, pid, digest, target, e, welcome) =>
      if Rows(db, g).present then Welcome(room, sender, e, target, pid, welcome)
      else LegacyWelcome(room, e, target, welcome)
    case AcceptWire(room, target, e, pid, digest) => Accept(room, target, e, pid, digest)
  }

  /** The checks the handlers make before they call the store. `granted` is the verdict of
      the room access rules. */
  predicate Admitted(db: Database, sender: Code, g: GroupId, w: Wire, granted: bool) {
    match w
    case ProposalWire(_, action, target, _, _, _) =>
      (action == None ==> target == "") && (action == Some(Remove) || granted)
    case CommitWire(_, pid, _, _) => pid != "" || granted
    case WelcomeWire(_, pid, digest, _, _, welcome) =>
      granted && (Rows(db, g).present ==> pid != "" && digest == Sha256(welcome))
    case AcceptWire(_, target, _, _, _) => target == sender
  }

  /** The same packet content for everybody in `codes` but the sender. */
  function ToOthers(codes: set<Code>, sender: Code, reply: Reply): set<Packet> {
    set c | c in codes && c != sender :: ToClient(c, reply)
  }

  /** The packets that handleMLSGroup* sends to others: `audience` are the room members that
      legacy proposals and commits are relayed to. */
  function Relays(sender: Code, g: GroupId, r: Request, out: Outcome, audience: set<Code>): set<Packet> {
    match r
    case Propose(room, _, _, _, e, pid, data) =>
      if out.Stored? && out.membership.Membership?
      then ToOthers(out.membership.members, sender, ProposalRelay(g, room, e, pid, data)) else {}
    case LegacyPropose(room, e, pid, data) =>
      if out.Stored? then ToOthers(audience, sender, ProposalRelay(g, room, e, pid, data)) else {}
    case Commit(room, _, _, e, commit) =>
      if out.Stored? && out.membership.Membership?
      then ToOthers(out.membership.members, sender, CommitRelay(g, room, e, commit)) else {}
    case LegacyCommit(room, e, commit) =>
      if out.Stored? then ToOthers(audience, sender, CommitRelay(g, room, e, commit)) else {}
    case Welcome(room, _, e, target, pid, welcome) =>
      if !out.Rejected? then {ToClient(target, WelcomeRelay(g, room, e, target, pid, welcome))} else {}
    case LegacyWelcome(room, e, target, welcome) =>
      if !out.Rejected? then {ToClient(target, WelcomeRelay(g, room, e, target, "", welcome))} else {}
    case Accept(_, _, _, _, _) => {}
  }

  /** The answer to the sender. */
  function Answer(cmd: CommandId, w: Wire, out: Outcome): set<Reply> {
    if out.Rejected? then {ErrorReply(cmd)}
    else match w
      case ProposalWire(_, _, _, _, _, _) => {ProposalAck(cmd)}
      case CommitWire(_, _, _, _) => {CommitAck(cmd)}
      case WelcomeWire(_, _, _, _, _, _) => {WelcomeAck(cmd)}
      case AcceptWire(_, _, _, _, _) => {AcceptAck(cmd)}
  }

  /** One packet at the hub: the database after it, the relays and the answer. */
  function Serve(db: Database, sender: Code, cmd: CommandId, g: GroupId, w: Wire, granted: bool, audience: set<Code>)
    : (Database, set<Packet>, set<Reply>)
  {
    if !Admitted(db, sender, g, w, granted) then (db, {}, {ErrorReply(cmd)})
    else
      var r := Route(db, sender, g, w);
      var (db', out) := Apply(db, g, r);
      (db', Relays(sender, g, r, out, audience), Answer(cmd, w, out))
  }

  /** The welcomes replayed to a user at login. */
  function LoginReplay(db: Database, user: Code): set<Packet> {
    set g, k | g in db && k in db[g].welcomes && k.1 == user && k.0 >= 0 && !db[g].welcomes[k].accepted
      :: ToClient(user, WelcomeRelay(g, db[g].room, k.0, user, db[g].welcomes[k].proposalId, db[g].welcomes[k].welcome))
  }
}
