/** The MLS control protocol as a whole: the server, any number of GUI clients and a network
    that may lose, delay, repeat and reorder packets, with reconnects, logins and other
    parties that send the server anything they like. */
module MlsNetwork {
  import opened Wrappers
  import opened MlsTables
  import opened MlsInvariants
  import opened MlsHistory
  import opened MlsProtocol

  /** `net` holds every packet ever sent: a packet that is never delivered is lost, one that
      is delivered twice is repeated. */
  datatype Sys = Sys(db: Database, clients: map<Code, Client>, net: set<Packet>)

  datatype SysStep =
    | AddMember(me: Code, command: CommandId, room: Room, group: GroupId, target: Code,
                proposal: Payload, commit: Payload, welcome: Payload, sent: bool)
    | RemoveMember(me: Code, command: CommandId, room: Room, group: GroupId, target: Code,
                   proposal: Payload, commit: Payload, sent: bool)
    | Deliver(packet: Packet, libraryOk: bool, sent: bool)
    | ServePacket(packet: Packet, granted: bool, audience: set<Code>)
    | Other(sender: Code, group: GroupId, wire: Wire, granted: bool, audience: set<Code>)
    | Login(user: Code)
    | Reconnect(me: Code, taken: set<CommandId>)
    | ResetClient(me: Code)

  function Put(s: Sys, me: Code, r: (Client, set<Packet>)): Sys {
    s.(clients := s.clients[me := r.0], net := s.net + r.1)
  }

  /** A step that is not enabled leaves the system as it is. Command ids are fresh: a client
      starts an operation only under an id it has not used before. */
  function Next(s: Sys, step: SysStep): Sys {
    match step
    case AddMember(me, cmd, room, g, target, proposal, commit, welcome, sent) =>
      if me in s.clients && cmd !in s.clients[me].issued
      then Put(s, me, StartAdd(s.clients[me], me, cmd, room, g, target, proposal, commit, welcome, sent)) else s
    case RemoveMember(me, cmd, room, g, target, proposal, commit, sent) =>
      if me in s.clients && cmd !in s.clients[me].issued
      then Put(s, me, StartRemove(s.clients[me], me, cmd, room, g, target, proposal, commit, sent)) else s
    case Deliver(p, libraryOk, sent) =>
      if p in s.net && p.ToClient? && p.to in s.clients
      then Put(s, p.to, Receive(s.clients[p.to], p.to, p.reply, libraryOk, sent)) else s
    case ServePacket(p, granted, audience) =>
      if p in s.net && p.ToServer? then
        var (db, relays, answers) := Serve(s.db, p.from, p.command, p.group, p.wire, granted, audience);
        s.(db := db, net := s.net + relays + set a | a in answers :: ToClient(p.from, a))
      else s
    case Other(sender, g, w, granted, audience) =>
      var (db, relays, answers) := Serve(s.db, sender, "", g, w, granted, audience);
      s.(db := db, net := s.net + relays)
    case Login(user) => s.(net := s.net + LoginReplay(s.db, user))
    case Reconnect(me, taken) =>
      if me in s.clients then Put(s, me, Resume(s.clients[me], me, taken)) else s
    case ResetClient(me) =>
      if me in s.clients then Put(s, me, (Reset(s.clients[me]), {})) else s
  }

  function RunSys(s: Sys, steps: seq<SysStep>): Sys
    decreases |steps|
  {
    if steps == [] then s else RunSys(Next(s, steps[0]), steps[1..])
  }

  ghost predicate Initial(s: Sys) {
    s.db == map[] && s.net == {} && forall c :: c in s.clients ==> s.clients[c] == NEW_CLIENT
  }

  // ---------- The invariant ----------

  ghost predicate ProposalStored(s: GroupTables, e: int, data: Payload) {
    exists pid :: (e, pid) in s.proposals && s.proposals[(e, pid)].data == data
  }

  /** The server stores a proposal with the operation's payload at the operation's epoch. */
  ghost predicate Durable(db: Database, op: Operation) {
    ProposalStored(Rows(db, op.group), op.epoch, op.proposal)
  }

  /** The server stores exactly the operation's commit under the operation's id. */
  ghost predicate Committed(db: Database, cmd: CommandId, op: Operation) {
    op.epoch in Rows(db, op.group).epochs && Rows(db, op.group).epochs[op.epoch] == EpochRow(cmd, op.commit)
  }

  /** A commit payload that is the server's row of its epoch. */
  ghost predicate IsServerCommit(db: Database, g: GroupId, e: nat, commit: Payload) {
    e in Rows(db, g).epochs && Rows(db, g).epochs[e].commit == commit
  }

  ghost predicate LegacyWelcomed(net: set<Packet>, me: Code, g: GroupId, e: nat) {
    exists room, target, welcome :: ToClient(me, WelcomeRelay(g, room, e, target, "", welcome)) in net
  }

  ghost predicate Issued(clients: map<Code, Client>, me: Code, cmd: CommandId) {
    me in clients && cmd in clients[me].issued && cmd != ""
  }

  ghost predicate PacketOk(db: Database, clients: map<Code, Client>, p: Packet) {
    match p
    case ToServer(from, cmd, g, w) =>
      w.AcceptWire? ||
      (&& Issued(clients, from, cmd)
       && var op := clients[from].issued[cmd];
          match w
          case ProposalWire(_, _, _, _, _, _) => p == ProposalPacket(from, cmd, op)
          case CommitWire(_, _, _, _) => p == CommitPacket(from, cmd, op)
          case WelcomeWire(_, _, _, _, _, _) => p == WelcomePacket(from, cmd, op) && Committed(db, cmd, op)
          case _ => true)
    case ToClient(to, reply) =>
      match reply
      case ProposalAck(cmd) => Issued(clients, to, cmd) && Durable(db, clients[to].issued[cmd])
      case CommitAck(cmd) => Issued(clients, to, cmd) && Committed(db, cmd, clients[to].issued[cmd])
      case CommitRelay(g, _, e, commit) => IsServerCommit(db, g, e, commit)
      case WelcomeRelay(g, _, e, _, pid, _) => pid == "" || e <= Rows(db, g).currentEpoch
      case _ => true
  }

  /** A pending operation is one that was issued, and its phase never runs ahead of the server. */
  ghost predicate OperationOk(db: Database, issued: map<CommandId, Operation>, cmd: CommandId, op: Operation) {
    && cmd != ""
    && cmd in issued
    && op.(phase := ProposalPhase) == issued[cmd]
    && (op.phase == CommitPhase ==> Durable(db, op))
    && (op.phase == WelcomePhase ==> Committed(db, cmd, op))
  }

  /** Every recorded commit is the server's; the epoch is 0, or at most the server's current
      epoch, or the epoch of a legacy welcome that was relayed to this client. */
  ghost predicate GroupOk(db: Database, net: set<Packet>, me: Code, g: GroupId, gs: GroupState) {
    && (forall e :: e in gs.commits ==> IsServerCommit(db, g, e, gs.commits[e]))
    && (gs.epoch == 0 || gs.epoch <= Rows(db, g).currentEpoch || LegacyWelcomed(net, me, g, gs.epoch))
  }

  ghost predicate ClientOk(db: Database, net: set<Packet>, me: Code, c: Client) {
    && (forall cmd :: cmd in c.pending ==> OperationOk(db, c.issued, cmd, c.pending[cmd]))
    && (forall g :: g in c.groups ==> GroupOk(db, net, me, g, c.groups[g]))
  }

  ghost predicate SysInv(s: Sys) {
    && DbInv(s.db)
    && (forall p :: p in s.net ==> PacketOk(s.db, s.clients, p))
    && (forall me :: me in s.clients ==> ClientOk(s.db, s.net, me, s.clients[me]))
  }

  // ---------- Growth ----------

  ghost predicate DbExtends(db: Database, db': Database) {
    forall g :: Extends(Rows(db, g), Rows(db', g))
  }

  ghost predicate IssuedGrows(clients: map<Code, Client>, clients': map<Code, Client>) {
    forall me :: me in clients ==>
      && me in clients'
      && forall cmd :: cmd in clients[me].issued ==>
           cmd in clients'[me].issued && clients'[me].issued[cmd] == clients[me].issued[cmd]
  }

  lemma DurableGrows(db: Database, db': Database, op: Operation)
    requires DbExtends(db, db') && Durable(db, op)
    ensures Durable(db', op)
  {
    var rows, rows', e := Rows(db, op.group), Rows(db', op.group), op.epoch as int;
    assert Extends(rows, rows');
    var pid :| (e, pid) in rows.proposals && rows.proposals[(e, pid)].data == op.proposal;
    assert (e, pid) in rows'.proposals;
  }

  lemma CommittedGrows(db: Database, db': Database, cmd: CommandId, op: Operation)
    requires DbExtends(db, db') && Committed(db, cmd, op)
    ensures Committed(db', cmd, op)
  {
    assert Extends(Rows(db, op.group), Rows(db', op.group));
  }

  lemma PacketGrows(db: Database, clients: map<Code, Client>, db': Database, clients': map<Code, Client>, p: Packet)
    requires PacketOk(db, clients, p) && DbExtends(db, db') && IssuedGrows(clients, clients')
    ensures PacketOk(db', clients', p)
  {
    match p
    case ToServer(from, cmd, g, w) =>
      if w.WelcomeWire? { CommittedGrows(db, db', cmd, clients[from].issued[cmd]); }
    case ToClient(to, reply) =>
      match reply
      case ProposalAck(cmd) => DurableGrows(db, db', clients[to].issued[cmd]);
      case CommitAck(cmd) => CommittedGrows(db, db', cmd, clients[to].issued[cmd]);
      case CommitRelay(g, _, _, _) => assert Extends(Rows(db, g), Rows(db', g));
      case WelcomeRelay(g, _, _, _, _, _) => assert Extends(Rows(db, g), Rows(db', g));
      case _ =>
  }

  lemma ClientGrows(db: Database, net: set<Packet>, db': Database, net': set<Packet>, me: Code, c: Client)
    requires ClientOk(db, net, me, c) && DbExtends(db, db') && net <= net'
    ensures ClientOk(db', net', me, c)
  {
    forall cmd | cmd in c.pending ensures OperationOk(db', c.issued, cmd, c.pending[cmd]) {
      if c.pending[cmd].phase == CommitPhase { DurableGrows(db, db', c.pending[cmd]); }
      if c.pending[cmd].phase == WelcomePhase { CommittedGrows(db, db', cmd, c.pending[cmd]); }
    }
    forall g | g in c.groups ensures GroupOk(db', net', me, g, c.groups[g]) {
      assert Extends(Rows(db, g), Rows(db', g));
    }
  }

  lemma DbExtendsItself(db: Database)
    ensures DbExtends(db, db)
  {
  }

  // ---------- Client steps ----------

  /** What a client step must guarantee. */
  ghost predicate GoodStep(s: Sys, me: Code, r: (Client, set<Packet>))
    requires me in s.clients
  {
    && ClientOk(s.db, s.net, me, r.0)
    && (forall cmd :: cmd in s.clients[me].issued ==>
          cmd in r.0.issued && r.0.issued[cmd] == s.clients[me].issued[cmd])
    && (forall p :: p in r.1 ==> PacketOk(s.db, s.clients[me := r.0], p))
  }

  /** A client step that keeps its own invariant and sends only packets it may send keeps the
      system invariant. */
  lemma PutKeeps(s: Sys, me: Code, r: (Client, set<Packet>))
    requires SysInv(s) && me in s.clients && GoodStep(s, me, r)
    ensures SysInv(Put(s, me, r))
  {
    var s' := Put(s, me, r);
    DbExtendsItself(s.db);
    assert IssuedGrows(s.clients, s'.clients);
    forall p | p in s'.net ensures PacketOk(s'.db, s'.clients, p) {
      if p in s.net { PacketGrows(s.db, s.clients, s'.db, s'.clients, p); }
    }
    forall c | c in s'.clients ensures ClientOk(s'.db, s'.net, c, s'.clients[c]) {
      ClientGrows(s.db, s.net, s'.db, s'.net, c, s'.clients[c]);
    }
  }

  /** Starting an operation under a fresh id; `c` is the client with the group created. */
  lemma LaunchIsGood(s: Sys, me: Code, c: Client, cmd: CommandId, op: Operation, sent: bool)
    requires me in s.clients && ClientOk(s.db, s.net, me, c) && c.issued == s.clients[me].issued
    requires cmd != "" && cmd !in c.issued && op.phase == ProposalPhase
    ensures GoodStep(s, me, Launch(c, me, cmd, op, sent))
  {
  }

  /** Starting does nothing, or only creates the group (`c1`), or launches the operation. */
  lemma StartIsGood(s: Sys, me: Code, c1: Client, cmd: CommandId, op: Operation, sent: bool, r: (Client, set<Packet>))
    requires SysInv(s) && me in s.clients && cmd !in s.clients[me].issued && op.phase == ProposalPhase
    requires c1 == s.clients[me]
          || c1 == s.clients[me].(groups := s.clients[me].groups[op.group := GroupState(op.room, 0, map[], map[])])
    requires r == (s.clients[me], {}) || r == (c1, {}) || (cmd != "" && r == Launch(c1, me, cmd, op, sent))
    ensures GoodStep(s, me, r)
  {
    assert ClientOk(s.db, s.net, me, s.clients[me]);
    assert ClientOk(s.db, s.net, me, c1);
    if cmd != "" { LaunchIsGood(s, me, c1, cmd, op, sent); }
  }

  lemma StartKeeps(s: Sys, step: SysStep)
    requires SysInv(s) && (step.AddMember? || step.RemoveMember?)
    ensures SysInv(Next(s, step))
  {
    match step
    case AddMember(me, cmd, room, g, target, proposal, commit, welcome, sent) =>
      if me in s.clients && cmd !in s.clients[me].issued {
        var c := s.clients[me];
        var c1 := if g in c.groups then c else c.(groups := c.groups[g := GroupState(room, 0, map[], map[])]);
        var op := Operation(ProposalPhase, room, g, target, c1.groups[g].epoch + 1, proposal, commit, welcome, true);
        StartIsGood(s, me, c1, cmd, op, sent, StartAdd(c, me, cmd, room, g, target, proposal, commit, welcome, sent));
        PutKeeps(s, me, StartAdd(s.clients[me], me, cmd, room, g, target, proposal, commit, welcome, sent));
      }
    case RemoveMember(me, cmd, room, g, target, proposal, commit, sent) =>
      if me in s.clients && cmd !in s.clients[me].issued {
        var c := s.clients[me];
        var epoch := if g in c.groups then c.groups[g].epoch + 1 else 0;
        var op := Operation(ProposalPhase, room, g, target, epoch, proposal, commit, "", false);
        StartIsGood(s, me, c, cmd, op, sent, StartRemove(c, me, cmd, room, g, target, proposal, commit, sent));
        PutKeeps(s, me, StartRemove(s.clients[me], me, cmd, room, g, target, proposal, commit, sent));
      }
  }

  lemma ProposalAckIsGood(s: Sys, me: Code, cmd: CommandId, sent: bool)
    requires SysInv(s) && me in s.clients && PacketOk(s.db, s.clients, ToClient(me, ProposalAck(cmd)))
    ensures GoodStep(s, me, OnProposalAck(s.clients[me], me, cmd, sent))
  {
    assert ClientOk(s.db, s.net, me, s.clients[me]);
    var c := s.clients[me];
    if cmd in c.pending {
      assert OperationOk(s.db, c.issued, cmd, c.pending[cmd]);
    }
  }

  lemma CommitAckIsGood(s: Sys, me: Code, cmd: CommandId, sent: bool)
    requires SysInv(s) && me in s.clients && PacketOk(s.db, s.clients, ToClient(me, CommitAck(cmd)))
    ensures GoodStep(s, me, OnCommitAck(s.clients[me], me, cmd, sent))
  {
    var c := s.clients[me];
    assert ClientOk(s.db, s.net, me, c);
    if cmd in c.pending {
      assert OperationOk(s.db, c.issued, cmd, c.pending[cmd]);
      AckedIsGood(s, me, cmd, c.pending[cmd], OnCommitAck(c, me, cmd, sent));
    }
  }

  /** The acknowledged operation is dropped or moves to its welcome; its group adopts the commit. */
  lemma AckedIsGood(s: Sys, me: Code, cmd: CommandId, op: Operation, r: (Client, set<Packet>))
    requires SysInv(s) && me in s.clients && cmd in s.clients[me].pending && op == s.clients[me].pending[cmd]
    requires OperationOk(s.db, s.clients[me].issued, cmd, op) && Committed(s.db, cmd, op)
    requires r.0.issued == s.clients[me].issued
    requires r.0.groups == s.clients[me].groups
          || (&& op.group in s.clients[me].groups
              && var gs := s.clients[me].groups[op.group];
                 r.0.groups == s.clients[me].groups[op.group :=
                   gs.(epoch := op.epoch, commits := Emplace(gs.commits, op.epoch, op.commit))])
    requires r.0.pending == s.clients[me].pending || r.0.pending == s.clients[me].pending - {cmd}
          || r.0.pending == s.clients[me].pending[cmd := op.(phase := WelcomePhase)]
    requires r.1 == {} || r.1 == {WelcomePacket(me, cmd, op)}
    ensures GoodStep(s, me, r)
  {
    var c := s.clients[me];
    assert ClientOk(s.db, s.net, me, c);
    AckedGroups(s, me, cmd, op, r.0.groups);
    forall k | k in r.0.pending ensures OperationOk(s.db, r.0.issued, k, r.0.pending[k]) {
      assert k == cmd || OperationOk(s.db, c.issued, k, c.pending[k]);
    }
  }

  lemma AckedGroups(s: Sys, me: Code, cmd: CommandId, op: Operation, groups: map<GroupId, GroupState>)
    requires SysInv(s) && me in s.clients && Committed(s.db, cmd, op)
    requires groups == s.clients[me].groups
          || (&& op.group in s.clients[me].groups
              && var gs := s.clients[me].groups[op.group];
                 groups == s.clients[me].groups[op.group :=
                   gs.(epoch := op.epoch, commits := Emplace(gs.commits, op.epoch, op.commit))])
    ensures forall g :: g in groups ==> GroupOk(s.db, s.net, me, g, groups[g])
  {
    var c := s.clients[me];
    assert ClientOk(s.db, s.net, me, c);
    if op.group in c.groups { CommittedGroup(s, me, cmd, op, c.groups[op.group]); }
  }

  /** Adopting a commit that the server has stored. */
  lemma CommittedGroup(s: Sys, me: Code, cmd: CommandId, op: Operation, gs: GroupState)
    requires DbInv(s.db) && Committed(s.db, cmd, op) && GroupOk(s.db, s.net, me, op.group, gs)
    ensures GroupOk(s.db, s.net, me, op.group,
                    gs.(epoch := op.epoch, commits := Emplace(gs.commits, op.epoch, op.commit)))
  {
    assert op.group in s.db;
  }

  lemma WelcomeAckIsGood(s: Sys, me: Code, cmd: CommandId)
    requires SysInv(s) && me in s.clients
    ensures GoodStep(s, me, (OnWelcomeAck(s.clients[me], cmd), {}))
  {
    assert ClientOk(s.db, s.net, me, s.clients[me]);
  }

  lemma CommitRelayIsGood(s: Sys, me: Code, reply: Reply, libraryOk: bool)
    requires SysInv(s) && me in s.clients && ToClient(me, reply) in s.net && reply.CommitRelay?
    ensures var c := OnCommitRelay(s.clients[me], reply.group, reply.room, reply.epoch, reply.commit, libraryOk);
      GoodStep(s, me, (c, {}))
  {
    assert ClientOk(s.db, s.net, me, s.clients[me]) && PacketOk(s.db, s.clients, ToClient(me, reply));
    assert reply.group in s.db;
  }

  /** A group joined through a welcome that was relayed to this client. */
  lemma JoinedGroup(s: Sys, me: Code, reply: Reply)
    requires SysInv(s) && ToClient(me, reply) in s.net && reply.WelcomeRelay?
    ensures GroupOk(s.db, s.net, me, reply.group,
                    GroupState(reply.room, reply.epoch, map[], map[reply.epoch := reply.welcome]))
  {
    assert PacketOk(s.db, s.clients, ToClient(me, reply));
    if reply.proposalId == "" {
      assert ToClient(me, WelcomeRelay(reply.group, reply.room, reply.epoch, reply.target, "", reply.welcome)) in s.net;
      assert LegacyWelcomed(s.net, me, reply.group, reply.epoch);
    }
  }

  lemma RelayIsGood(s: Sys, me: Code, reply: Reply, libraryOk: bool, sent: bool)
    requires SysInv(s) && me in s.clients && ToClient(me, reply) in s.net
    requires !reply.ProposalAck? && !reply.CommitAck? && !reply.WelcomeAck?
    ensures GoodStep(s, me, Receive(s.clients[me], me, reply, libraryOk, sent))
  {
    assert ClientOk(s.db, s.net, me, s.clients[me]);
    if reply.CommitRelay? { CommitRelayIsGood(s, me, reply, libraryOk); }
    if reply.WelcomeRelay? { JoinedGroup(s, me, reply); }
  }

  lemma DeliverKeeps(s: Sys, p: Packet, libraryOk: bool, sent: bool)
    requires SysInv(s)
    ensures SysInv(Next(s, Deliver(p, libraryOk, sent)))
  {
    if p in s.net && p.ToClient? && p.to in s.clients {
      assert PacketOk(s.db, s.clients, p);
      match p.reply {
        case ProposalAck(cmd) => ProposalAckIsGood(s, p.to, cmd, sent);
        case CommitAck(cmd) => CommitAckIsGood(s, p.to, cmd, sent);
        case WelcomeAck(cmd) => WelcomeAckIsGood(s, p.to, cmd);
        case _ => RelayIsGood(s, p.to, p.reply, libraryOk, sent);
      }
      PutKeeps(s, p.to, Receive(s.clients[p.to], p.to, p.reply, libraryOk, sent));
    }
  }

  lemma ReconnectKeeps(s: Sys, me: Code, taken: set<CommandId>)
    requires SysInv(s)
    ensures SysInv(Next(s, Reconnect(me, taken)))
  {
    if me in s.clients {
      var c := s.clients[me];
      assert ClientOk(s.db, s.net, me, c);
      forall p | p in Resume(c, me, taken).1 ensures PacketOk(s.db, s.clients[me := Resume(c, me, taken).0], p) {
        var cmd :| cmd in c.pending && p == ResumePacket(me, cmd, c.pending[cmd]);
        assert OperationOk(s.db, c.issued, cmd, c.pending[cmd]);
      }
      PutKeeps(s, me, Resume(c, me, taken));
    }
  }

  // ---------- Server steps ----------

  lemma ApplyExtends(db: Database, g: GroupId, r: Request)
    requires DbInv(db)
    ensures DbInv(Apply(db, g, r).0) && DbExtends(db, Apply(db, g, r).0)
  {
    DbExtendsItself(db);
    if g != "" && Step(Rows(db, g), r).1.Stored? {
      InvOfNoRows();
      StepKeeps(Rows(db, g), r);
      StepExtends(Rows(db, g), r);
      PutRowsExtends(db, g, Step(Rows(db, g), r).0);
    }
  }

  lemma PutRowsExtends(db: Database, g: GroupId, rows: GroupTables)
    requires DbInv(db) && Inv(rows) && Extends(Rows(db, g), rows) && DbExtends(db, db)
    ensures DbInv(db[g := rows]) && DbExtends(db, db[g := rows])
  {
    forall h ensures Extends(Rows(db, h), Rows(db[g := rows], h)) {
      assert Extends(Rows(db, h), Rows(db, h));
    }
  }

  /** What the store's answer to a request guarantees about the rows after it. */
  ghost predicate AnswerMeans(s: GroupTables, r: Request) {
    && (r.Commit? ==> r.epoch in s.epochs && s.epochs[r.epoch] == EpochRow(r.proposalId, r.commit))
    && (r.LegacyCommit? ==> r.epoch in s.epochs && s.epochs[r.epoch].commit == r.commit)
    && (r.Propose? || r.LegacyPropose? ==> ProposalStored(s, r.epoch, r.proposal))
    && (r.Welcome? ==> r.epoch <= s.currentEpoch)
  }

  lemma DuplicateMeans(s: GroupTables, r: Request)
    requires Inv(s) && Step(s, r).1.Duplicate?
    ensures AnswerMeans(s, r)
  {
    if (r.Propose? || r.LegacyPropose?) && (r.epoch as int, r.proposalId) !in s.proposals {
      assert DigestStored(s, r.epoch, Sha256(r.proposal));
      var k :| k in s.proposals && k.0 == r.epoch && s.proposals[k].digest == Sha256(r.proposal);
      assert (k.0, k.1) in s.proposals && k == (k.0, k.1);
    }
  }

  lemma StoredMeans(s: GroupTables, r: Request, s': GroupTables)
    requires Effect(s, r, s')
    ensures AnswerMeans(s', r)
  {
    if r.Propose? || r.LegacyPropose? { assert (r.epoch as int, r.proposalId) in s'.proposals; }
  }

  lemma SuccessMeans(db: Database, g: GroupId, r: Request)
    requires DbInv(db) && !Apply(db, g, r).1.Rejected?
    ensures AnswerMeans(Rows(Apply(db, g, r).0, g), r)
  {
    InvOfNoRows();
    StepHasEffect(Rows(db, g), r);
    if Step(Rows(db, g), r).1.Stored? {
      StoredMeans(Rows(db, g), r, Step(Rows(db, g), r).0);
    } else {
      DuplicateMeans(Rows(db, g), r);
    }
  }

  /** The relays of a packet agree with the database after it. */
  lemma RelaysOk(db: Database, clients: map<Code, Client>, sender: Code, g: GroupId, r: Request, audience: set<Code>)
    requires DbInv(db)
    ensures var (db', out) := Apply(db, g, r);
      forall p :: p in Relays(sender, g, r, out, audience) ==> PacketOk(db', clients, p)
  {
    var (db', out) := Apply(db, g, r);
    if !out.Rejected? {
      SuccessMeans(db, g, r);
      forall p | p in Relays(sender, g, r, out, audience) ensures PacketOk(db', clients, p) {
        RelayMeans(db', clients, sender, g, r, out, audience, p);
      }
    }
  }

  lemma RelayMeans(db: Database, clients: map<Code, Client>, sender: Code, g: GroupId, r: Request, out: Outcome,
                   audience: set<Code>, p: Packet)
    requires AnswerMeans(Rows(db, g), r) && p in Relays(sender, g, r, out, audience)
    ensures PacketOk(db, clients, p)
  {
  }

  /** The answer to a GUI client's packet is what `PacketOk` asks of it. */
  lemma AnswersOk(db: Database, clients: map<Code, Client>, p: Packet, granted: bool, audience: set<Code>)
    requires DbInv(db) && p.ToServer? && PacketOk(db, clients, p)
    ensures var (db', _, answers) := Serve(db, p.from, p.command, p.group, p.wire, granted, audience);
      forall a :: a in answers ==> PacketOk(db', clients, ToClient(p.from, a))
  {
    var (db', _, answers) := Serve(db, p.from, p.command, p.group, p.wire, granted, audience);
    if Admitted(db, p.from, p.group, p.wire, granted) {
      var r := Route(db, p.from, p.group, p.wire);
      if !Apply(db, p.group, r).1.Rejected? { SuccessMeans(db, p.group, r); }
    }
  }

  lemma DbStepKeeps(s: Sys, db': Database, more: set<Packet>)
    requires SysInv(s) && DbInv(db') && DbExtends(s.db, db')
    requires forall p :: p in more ==> PacketOk(db', s.clients, p)
    ensures SysInv(s.(db := db', net := s.net + more))
  {
    forall p | p in s.net + more ensures PacketOk(db', s.clients, p) {
      if p in s.net { PacketGrows(s.db, s.clients, db', s.clients, p); }
    }
    forall me | me in s.clients ensures ClientOk(db', s.net + more, me, s.clients[me]) {
      ClientGrows(s.db, s.net, db', s.net + more, me, s.clients[me]);
    }
  }

  lemma ServeExtends(db: Database, sender: Code, cmd: CommandId, g: GroupId, w: Wire, granted: bool,
                     audience: set<Code>,
                     clients: map<Code, Client>)
    requires DbInv(db)
    ensures var (db', relays, _) := Serve(db, sender, cmd, g, w, granted, audience);
      DbInv(db') && DbExtends(db, db') && forall p :: p in relays ==> PacketOk(db', clients, p)
  {
    DbExtendsItself(db);
    if Admitted(db, sender, g, w, granted) {
      ApplyExtends(db, g, Route(db, sender, g, w));
      RelaysOk(db, clients, sender, g, Route(db, sender, g, w), audience);
    }
  }

  lemma ServeKeeps(s: Sys, step: SysStep)
    requires SysInv(s) && (step.ServePacket? || step.Other?)
    ensures SysInv(Next(s, step))
  {
    if step.Other? {
      var (db', relays, _) := Serve(s.db, step.sender, "", step.group, step.wire, step.granted, step.audience);
      ServeExtends(s.db, step.sender, "", step.group, step.wire, step.granted, step.audience, s.clients);
      DbStepKeeps(s, db', relays);
    } else if step.packet in s.net && step.packet.ToServer? {
      var p := step.packet;
      var (db', relays, answers) := Serve(s.db, p.from, p.command, p.group, p.wire, step.granted, step.audience);
      ServeExtends(s.db, p.from, p.command, p.group, p.wire, step.granted, step.audience, s.clients);
      AnswersOk(s.db, s.clients, p, step.granted, step.audience);
      var more := relays + set a | a in answers :: ToClient(p.from, a);
      DbStepKeeps(s, db', more);
      assert s.net + more == s.net + relays + set a | a in answers :: ToClient(p.from, a);
    }
  }

  lemma LoginKeeps(s: Sys, user: Code)
    requires SysInv(s)
    ensures SysInv(Next(s, Login(user)))
  {
    DbExtendsItself(s.db);
    forall p | p in LoginReplay(s.db, user) ensures PacketOk(s.db, s.clients, p) {
      var g, k :| g in s.db && k in s.db[g].welcomes && k.1 == user && k.0 >= 0 && !s.db[g].welcomes[k].accepted
        && p == ToClient(user, WelcomeRelay(g, s.db[g].room, k.0, user, s.db[g].welcomes[k].proposalId,
                                            s.db[g].welcomes[k].welcome));
      assert PendingAt(s.db[g], k.0, k.1);
      assert WelcomeCurrent(s.db[g], k.0, k.1);
    }
    DbStepKeeps(s, s.db, LoginReplay(s.db, user));
  }

  /** Every step of every party keeps the invariant. */
  lemma NextKeeps(s: Sys, step: SysStep)
    requires SysInv(s)
    ensures SysInv(Next(s, step))
  {
    match step
    case AddMember(_, _, _, _, _, _, _, _, _) => StartKeeps(s, step);
    case RemoveMember(_, _, _, _, _, _, _, _) => StartKeeps(s, step);
    case Deliver(p, libraryOk, sent) => DeliverKeeps(s, p, libraryOk, sent);
    case ServePacket(_, _, _) => ServeKeeps(s, step);
    case Other(_, _, _, _, _) => ServeKeeps(s, step);
    case Login(user) => LoginKeeps(s, user);
    case Reconnect(me, taken) => ReconnectKeeps(s, me, taken);
    case ResetClient(me) =>
      if me in s.clients {
        assert GoodStep(s, me, (Reset(s.clients[me]), {}));
        PutKeeps(s, me, (Reset(s.clients[me]), {}));
      }
  }

  lemma {:induction false} RunSysKeeps(s: Sys, steps: seq<SysStep>)
    requires SysInv(s)
    ensures SysInv(RunSys(s, steps))
    decreases |steps|
  {
    if steps != [] {
      NextKeeps(s, steps[0]);
      RunSysKeeps(Next(s, steps[0]), steps[1..]);
    }
  }
}
