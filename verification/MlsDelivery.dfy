/** That the MLS control protocol delivers: what the hub sends for every packet it serves, what a
    client does with every message, how a client catches up with the server, and a whole round in
    which a member is added. */
module MlsDelivery {
  import opened Wrappers
  import opened MlsTables
  import opened MlsInvariants
  import opened MlsHistory
  import opened MlsProgress
  import opened MlsProtocol
  import opened MlsNetwork

  // ---------- What the hub sends ----------

  /** The acknowledgement that belongs to a packet. */
  function AckOf(w: Wire, cmd: CommandId): Reply {
    match w
    case ProposalWire(_, _, _, _, _, _) => ProposalAck(cmd)
    case CommitWire(_, _, _, _) => CommitAck(cmd)
    case WelcomeWire(_, _, _, _, _, _) => WelcomeAck(cmd)
    case AcceptWire(_, _, _, _, _) => AcceptAck(cmd)
  }

  /** The sender gets exactly one answer: the acknowledgement of the right kind, or an error,
      and with an error nothing has happened. */
  lemma OneAnswer(db: Database, sender: Code, cmd: CommandId, g: GroupId, w: Wire, granted: bool, audience: set<Code>)
    ensures var (db', relays, answers) := Serve(db, sender, cmd, g, w, granted, audience);
      && (answers == {AckOf(w, cmd)} || (answers == {ErrorReply(cmd)} && db' == db && relays == {}))
      && (db' != db || relays != {} ==> answers == {AckOf(w, cmd)})
      && (answers == {ErrorReply(cmd)} <==>
            !Admitted(db, sender, g, w, granted) || Apply(db, g, Route(db, sender, g, w)).1.Rejected?)
  {
  }

  /** Storing a request changes the database. */
  lemma StoredChangesDb(db: Database, g: GroupId, r: Request)
    requires DbInv(db)
    ensures Apply(db, g, r).0 != db <==> Apply(db, g, r).1.Stored?
  {
    InvOfNoRows();
    if g != "" && Step(Rows(db, g), r).1.Stored? {
      StepHasEffect(Rows(db, g), r);
      StoredChangesRows(Rows(db, g), r, Step(Rows(db, g), r).0);
      assert Rows(Apply(db, g, r).0, g) != Rows(db, g);
    }
  }

  lemma StoredChangesRows(s: GroupTables, r: Request, s': GroupTables)
    requires Inv(s) && Effect(s, r, s')
    ensures s' != s
  {
    match r
    case Propose(_, _, _, _, e, pid, _) => assert (e as int, pid) in s'.proposals;
    case LegacyPropose(_, e, pid, _) => assert (e as int, pid) in s'.proposals;
    case Accept(_, target, e, _, _) => assert !PendingAt(s', e, target);
    case Welcome(_, _, e, target, _, _) => assert (e as int, target) in s'.welcomes;
    case LegacyWelcome(_, e, target, _) => assert (e as int, target) in s'.welcomes;
    case _ =>
  }

  /** Exactly this reply goes to exactly the members of `codes` other than the sender. */
  ghost predicate SentToOthers(relays: set<Packet>, codes: set<Code>, sender: Code, reply: Reply) {
    forall q :: q in relays <==> q.ToClient? && q.to in codes && q.to != sender && q.reply == reply
  }

  /** A member's commit that changes the database is relayed to exactly the members of the
      snapshot of its proposal other than the sender; a repeated or refused one to nobody. */
  lemma CommitIsRelayed(db: Database, sender: Code, cmd: CommandId, g: GroupId, w: Wire, granted: bool,
                        audience: set<Code>)
    requires DbInv(db) && w.CommitWire? && w.proposalId != ""
    ensures var (db', relays, answers) := Serve(db, sender, cmd, g, w, granted, audience);
      var k := (w.epoch as int, w.proposalId);
      if db' != db then
        && k in Rows(db, g).proposals
        && SentToOthers(relays, Rows(db, g).proposals[k].snapshot, sender, CommitRelay(g, w.room, w.epoch, w.commit))
      else relays == {}
  {
    InvOfNoRows();
    var r := Commit(w.room, sender, w.proposalId, w.epoch, w.commit);
    StoredChangesDb(db, g, r);
    if Apply(db, g, r).1.Stored? {
      ReportedMembership(Rows(db, g), r);
      StepHasEffect(Rows(db, g), r);
    }
  }

  /** A member's proposal that changes the database is relayed to exactly the active members
      other than the sender. */
  lemma ProposalIsRelayed(db: Database, sender: Code, cmd: CommandId, g: GroupId, w: Wire, granted: bool,
                          audience: set<Code>)
    requires DbInv(db) && w.ProposalWire? && w.action.Some?
    ensures var (db', relays, answers) := Serve(db, sender, cmd, g, w, granted, audience);
      if db' != db then
        SentToOthers(relays, ActiveMembers(Rows(db', g)), sender,
                     ProposalRelay(g, w.room, w.epoch, w.proposalId, w.proposal))
      else relays == {}
  {
    InvOfNoRows();
    var r := Propose(w.room, sender, w.action.value, w.target, w.epoch, w.proposalId, w.proposal);
    StoredChangesDb(db, g, r);
    if Apply(db, g, r).1.Stored? {
      ReportedMembership(Rows(db, g), r);
      StepHasEffect(Rows(db, g), r);
    }
  }

  /** Legacy proposals and commits go to the room's members, again without the sender. */
  lemma LegacyIsRelayed(db: Database, sender: Code, cmd: CommandId, g: GroupId, w: Wire, granted: bool,
                        audience: set<Code>)
    requires DbInv(db)
    requires (w.CommitWire? && w.proposalId == "") || (w.ProposalWire? && w.action.None? && w.target == "")
    ensures var (db', relays, answers) := Serve(db, sender, cmd, g, w, granted, audience);
      if db' != db then
        SentToOthers(relays, audience, sender,
                     if w.CommitWire? then CommitRelay(g, w.room, w.epoch, w.commit)
                     else ProposalRelay(g, w.room, w.epoch, w.proposalId, w.proposal))
      else relays == {}
  {
    var r := if w.CommitWire? then LegacyCommit(w.room, w.epoch, w.commit)
             else LegacyPropose(w.room, w.epoch, w.proposalId, w.proposal);
    StoredChangesDb(db, g, r);
  }

  /** An acknowledged welcome, stored now or before, goes to its target and to nobody else. */
  lemma WelcomeIsRelayed(db: Database, sender: Code, cmd: CommandId, g: GroupId, w: Wire, granted: bool,
                         audience: set<Code>)
    requires w.WelcomeWire?
    ensures var (db', relays, answers) := Serve(db, sender, cmd, g, w, granted, audience);
      var pid := if Rows(db, g).present then w.proposalId else "";
      relays == if answers == {WelcomeAck(cmd)}
                then {ToClient(w.target, WelcomeRelay(g, w.room, w.epoch, w.target, pid, w.welcome))} else {}
  {
  }

  /** What the hub refuses before it asks the store. */
  lemma AccessRefused(db: Database, sender: Code, cmd: CommandId, g: GroupId, w: Wire, granted: bool,
                      audience: set<Code>)
    requires
      || (w.AcceptWire? && w.target != sender)
      || (w.WelcomeWire? && !granted)
      || (w.WelcomeWire? && Rows(db, g).present && (w.proposalId == "" || w.digest != Sha256(w.welcome)))
      || (w.CommitWire? && w.proposalId == "" && !granted)
      || (w.ProposalWire? && !granted && w.action != Some(Remove))
    ensures Serve(db, sender, cmd, g, w, granted, audience) == (db, {}, {ErrorReply(cmd)})
  {
  }

  /** At the level of the network: after a commit packet was stored, every member of the
      snapshot but the sender has the commit on its way, and nothing else is new but the
      sender's acknowledgement. */
  lemma StoredCommitReachesMembers(s: Sys, p: Packet, granted: bool, audience: set<Code>)
    requires SysInv(s) && p in s.net && p.ToServer? && p.wire.CommitWire?
    requires Next(s, ServePacket(p, granted, audience)).db != s.db
    ensures var t := Next(s, ServePacket(p, granted, audience));
      var w := p.wire; var k := (w.epoch as int, w.proposalId);
      && k in Rows(s.db, p.group).proposals
      && var relay := CommitRelay(p.group, w.room, w.epoch, w.commit);
         && (forall c :: c in Rows(s.db, p.group).proposals[k].snapshot && c != p.from ==> ToClient(c, relay) in t.net)
         && (forall q :: q in t.net && q !in s.net ==>
               || q == ToClient(p.from, CommitAck(p.command))
               || (&& q.ToClient? && q.reply == relay && q.to != p.from
                   && q.to in Rows(s.db, p.group).proposals[k].snapshot))
         && ToClient(p.from, CommitAck(p.command)) in t.net
  {
    assert PacketOk(s.db, s.clients, p);
    CommitIsRelayed(s.db, p.from, p.command, p.group, p.wire, granted, audience);
    OneAnswer(s.db, p.from, p.command, p.group, p.wire, granted, audience);
  }

  /** The relay of the user's pending welcome of that group and epoch. */
  ghost predicate IsReplay(db: Database, user: Code, g: GroupId, e: nat, q: Packet) {
    && PendingAt(Rows(db, g), e, user)
    && var row := Rows(db, g).welcomes[(e, user)];
       q == ToClient(user, WelcomeRelay(g, Rows(db, g).room, e, user, row.proposalId, row.welcome))
  }

  /** A login replays exactly the user's pending welcomes. */
  lemma LoginReplaysPending(db: Database, user: Code, q: Packet)
    requires DbInv(db)
    ensures q in LoginReplay(db, user) <==> exists g, e: nat :: IsReplay(db, user, g, e, q)
  {
    if q in LoginReplay(db, user) {
      var g, k :| g in db && k in db[g].welcomes && k.1 == user && k.0 >= 0 && !db[g].welcomes[k].accepted
        && q == ToClient(user, WelcomeRelay(g, db[g].room, k.0, user, db[g].welcomes[k].proposalId,
                                            db[g].welcomes[k].welcome));
      assert k == (k.0, user);
      var e: nat := k.0;
      assert IsReplay(db, user, g, e, q);
    }
    if g, e: nat :| IsReplay(db, user, g, e, q) {
      assert g in db && (e as int, user) in db[g].welcomes;
    }
  }

  // ---------- What a client does ----------

  /** Nothing but one group changes. */
  ghost predicate OnlyGroup(c: Client, c': Client, g: GroupId) {
    && c'.pending == c.pending && c'.issued == c.issued
    && (forall h :: h != g ==> (h in c'.groups <==> h in c.groups) && (h in c.groups ==> c'.groups[h] == c.groups[h]))
  }

  /** The relay of the group's next commit, in its room and not recorded yet. */
  predicate IsNext(c: Client, g: GroupId, room: Room, e: nat, commit: Payload) {
    && commit != "" && g in c.groups && c.groups[g].room == room && e == c.groups[g].epoch + 1
    && !(e in c.groups[g].commits && c.groups[g].commits[e] == commit)
  }

  /** The next commit, once the library takes it, moves the client to exactly its epoch and is
      recorded; any other relay leaves the client as it was. */
  lemma CommitRelayAdopted(c: Client, g: GroupId, room: Room, e: nat, commit: Payload, libraryOk: bool)
    ensures var c' := OnCommitRelay(c, g, room, e, commit, libraryOk);
      if IsNext(c, g, room, e, commit) && libraryOk then
        && OnlyGroup(c, c', g) && g in c'.groups
        && c'.groups[g].epoch == e && c'.groups[g].room == room && c'.groups[g].welcomes == c.groups[g].welcomes
        && e in c'.groups[g].commits && (e !in c.groups[g].commits ==> c'.groups[g].commits[e] == commit)
        && (forall k :: k != e ==> (k in c'.groups[g].commits <==> k in c.groups[g].commits))
        && (forall k :: k in c.groups[g].commits ==> c'.groups[g].commits[k] == c.groups[g].commits[k])
      else c' == c
  {
  }

  /** An operation that gets a start: the guards of addMlsMember, the epoch it is for and the
      proposal it sends. */
  lemma AddStarts(c: Client, me: Code, cmd: CommandId, room: Room, g: GroupId, target: Code,
                  proposal: Payload, commit: Payload, welcome: Payload)
    ensures var (c', sent) := StartAdd(c, me, cmd, room, g, target, proposal, commit, welcome, true);
      var known := g in c.groups;
      var starts := && room != "" && g != "" && target != "" && (known ==> c.groups[g].room == room)
                    && proposal != "" && commit != "" && welcome != ""
                    && (known ==> c.groups[g].epoch < MAX_U64) && cmd != "" && cmd !in c.pending;
      var e := if known then c.groups[g].epoch + 1 else 1;
      var op := Operation(ProposalPhase, room, g, target, e, proposal, commit, welcome, true);
      if starts then
        && c'.pending == c.pending[cmd := op] && sent == {ProposalPacket(me, cmd, op)}
        && g in c'.groups && c'.groups[g].epoch == e - 1 && c'.groups[g].room == room
        && (known ==> c'.groups == c.groups)
      else c'.pending == c.pending && sent == {}
  {
  }

  lemma RemoveStarts(c: Client, me: Code, cmd: CommandId, room: Room, g: GroupId, target: Code,
                     proposal: Payload, commit: Payload)
    ensures var (c', sent) := StartRemove(c, me, cmd, room, g, target, proposal, commit, true);
      var starts := && room != "" && g != "" && target != "" && g in c.groups && c.groups[g].room == room
                    && proposal != "" && commit != "" && c.groups[g].epoch < MAX_U64 && cmd != "" && cmd !in c.pending;
      && c'.groups == c.groups
      && if starts then
           var op := Operation(ProposalPhase, room, g, target, c.groups[g].epoch + 1, proposal, commit, "", false);
           c'.pending == c.pending[cmd := op] && sent == {ProposalPacket(me, cmd, op)}
         else c'.pending == c.pending && sent == {}
  {
  }

  /** Acknowledgements move an operation from phase to phase and send what is due next; one
      that does not fit the phase is ignored. */
  lemma AcksAdvance(c: Client, me: Code, cmd: CommandId, libraryOk: bool)
    requires cmd in c.pending
    ensures var op := c.pending[cmd];
      var (c', sent) := Receive(c, me, ProposalAck(cmd), libraryOk, true);
      if op.phase == ProposalPhase then
        && c' == c.(pending := c.pending[cmd := op.(phase := CommitPhase)])
        && sent == {CommitPacket(me, cmd, op)}
      else c' == c && sent == {}
    ensures var op := c.pending[cmd];
      var (c', sent) := Receive(c, me, CommitAck(cmd), libraryOk, true);
      if op.phase == CommitPhase && op.group in c.groups then
        && op.group in c'.groups && c'.groups[op.group].epoch == op.epoch && op.epoch in c'.groups[op.group].commits
        && (op.epoch !in c.groups[op.group].commits ==> c'.groups[op.group].commits[op.epoch] == op.commit)
        && c'.groups[op.group].room == c.groups[op.group].room
        && (if op.add then
              && c'.pending == c.pending[cmd := op.(phase := WelcomePhase)]
              && sent == {WelcomePacket(me, cmd, op)}
            else c'.pending == c.pending - {cmd} && sent == {})
      else c'.groups == c.groups && sent == {} && (op.phase != CommitPhase ==> c' == c)
    ensures var op := c.pending[cmd];
      var (c', sent) := Receive(c, me, WelcomeAck(cmd), libraryOk, true);
      && sent == {}
      && (if op.phase == WelcomePhase then c'.pending == c.pending - {cmd} else c' == c)
      && (op.phase == WelcomePhase && op.group in c.groups && op.epoch !in c.groups[op.group].welcomes ==>
            c'.groups[op.group].welcomes == c.groups[op.group].welcomes[op.epoch := op.welcome])
      && (forall g :: g in c.groups ==> g in c'.groups && c'.groups[g].epoch == c.groups[g].epoch)
    ensures Receive(c, me, ErrorReply(cmd), libraryOk, true) == (c.(pending := c.pending - {cmd}), {})
  {
  }

  /** A packet the connection does not take ends its operation; the commit stays adopted. */
  lemma UnsentEnds(c: Client, me: Code, cmd: CommandId, libraryOk: bool)
    requires cmd in c.pending
    ensures c.pending[cmd].phase == ProposalPhase ==>
      Receive(c, me, ProposalAck(cmd), libraryOk, false) == (c.(pending := c.pending - {cmd}), {})
    ensures var op := c.pending[cmd];
      var (c', sent) := Receive(c, me, CommitAck(cmd), libraryOk, false);
      op.phase == CommitPhase ==>
        && c'.pending == c.pending - {cmd} && sent == {}
        && (op.group in c.groups ==> op.group in c'.groups && c'.groups[op.group].epoch == op.epoch)
  {
  }

  /** After a reset nothing is left of groups and operations: answers and peers' commits are
      ignored, a reconnect sends nothing, and a welcome makes the client join again. */
  lemma ResetForgets(c: Client, me: Code, reply: Reply, libraryOk: bool, sent: bool, taken: set<CommandId>)
    ensures !reply.WelcomeRelay? ==> Receive(Reset(c), me, reply, libraryOk, sent) == (Reset(c), {})
    ensures Resume(Reset(c), me, taken) == (Reset(c), {})
    ensures reply.WelcomeRelay? && reply.welcome != "" && reply.target == me && libraryOk ==>
      var groups := Receive(Reset(c), me, reply, libraryOk, sent).0.groups;
      reply.group in groups && groups[reply.group].epoch == reply.epoch
  {
    var c0 := Reset(c);
    assert Resume(c0, me, taken).0.pending == map[] && Resume(c0, me, taken).1 == {};
    if reply.ErrorReply? { assert c0.pending - {reply.command} == c0.pending; }
  }

  /** A welcome of a group the client is not in, for this client or for nobody in particular,
      makes it join at the welcome's epoch and accept; a known one is accepted again. */
  lemma WelcomeJoins(c: Client, me: Code, g: GroupId, room: Room, e: nat, target: Code, pid: ProposalId,
                     welcome: Payload, libraryOk: bool)
    ensures var (c', sent) := Receive(c, me, WelcomeRelay(g, room, e, target, pid, welcome), libraryOk, true);
      var mine := welcome != "" && (target == "" || target == me);
      var accept := if pid == "" then {} else {AcceptPacket(me, g, room, e, pid, welcome)};
      && (mine && g !in c.groups && libraryOk ==>
            && c' == c.(groups := c.groups[g := GroupState(room, e, map[], map[e := welcome])])
            && sent == accept)
      && (mine && g in c.groups && c.groups[g].room == room && e in c.groups[g].welcomes
          && c.groups[g].welcomes[e] == welcome
          ==> c' == c && sent == accept)
      && (!mine || (g !in c.groups && !libraryOk) ==> c' == c && sent == {})
  {
  }

  /** After a reconnect every operation before its welcome phase is sent again, with the packet
      of its phase, and the others are given up. */
  lemma ReconnectResends(c: Client, me: Code, taken: set<CommandId>, cmd: CommandId)
    requires cmd in c.pending
    ensures var (c', sent) := Resume(c, me, taken); var op := c.pending[cmd];
      && (cmd in c'.pending <==> op.phase != WelcomePhase) && c'.groups == c.groups
      && (op.phase == ProposalPhase && cmd in taken ==> ProposalPacket(me, cmd, op) in sent)
      && (op.phase == CommitPhase && cmd in taken ==> CommitPacket(me, cmd, op) in sent)
      && (cmd in c'.pending ==> c'.pending[cmd] == op)
  {
  }

  // ---------- Catching up ----------

  /** The server's commits after epoch `from` up to the current one, as they are relayed. */
  ghost function CommitsAfter(rows: GroupTables, g: GroupId, room: Room, from: nat): seq<Reply>
    requires forall e :: from < e <= rows.currentEpoch ==> e in rows.epochs
    decreases rows.currentEpoch - from
  {
    if from >= rows.currentEpoch then []
    else [CommitRelay(g, room, from + 1, rows.epochs[from + 1].commit)] + CommitsAfter(rows, g, room, from + 1)
  }

  ghost function ReceiveAll(c: Client, me: Code, replies: seq<Reply>): Client
    decreases |replies|
  {
    if replies == [] then c else ReceiveAll(Receive(c, me, replies[0], true, true).0, me, replies[1..])
  }

  /** The client records nothing beyond its epoch and the server has every commit it lacks. */
  ghost predicate Behind(rows: GroupTables, gs: GroupState) {
    && (forall e :: e in gs.commits ==> e <= gs.epoch)
    && (forall e :: gs.epoch < e <= rows.currentEpoch ==> e in rows.epochs && rows.epochs[e].commit != "")
  }

  /** From `gs` on, `gs'` has adopted the server's commits up to the current epoch. */
  ghost predicate Adopted(rows: GroupTables, gs: GroupState, gs': GroupState) {
    && gs'.epoch == (if gs.epoch < rows.currentEpoch then rows.currentEpoch else gs.epoch)
    && (forall e: nat :: gs.epoch < e <= rows.currentEpoch && e in rows.epochs ==>
          e in gs'.commits && gs'.commits[e] == rows.epochs[e].commit)
    && (forall e :: e in gs.commits ==> e in gs'.commits && gs'.commits[e] == gs.commits[e])
  }

  /** The group after the server's next commit. */
  ghost function Advanced(rows: GroupTables, gs: GroupState): GroupState
    requires gs.epoch + 1 in rows.epochs
  {
    gs.(epoch := gs.epoch + 1, commits := gs.commits[gs.epoch + 1 := rows.epochs[gs.epoch + 1].commit])
  }

  lemma AdoptedStep(rows: GroupTables, gs: GroupState, gs': GroupState)
    requires Behind(rows, gs) && gs.epoch < rows.currentEpoch && Adopted(rows, Advanced(rows, gs), gs')
    ensures Adopted(rows, gs, gs')
  {
    var next := Advanced(rows, gs);
    assert next.epoch in next.commits;
    forall e | e in gs.commits ensures e in gs'.commits && gs'.commits[e] == gs.commits[e] {
      assert e in next.commits;
    }
  }

  /** Taking the server's commits in order brings a client to the server's current epoch, with
      the server's commit recorded for every epoch on the way. */
  lemma {:induction false} ClientCatchesUp(c: Client, me: Code, g: GroupId, rows: GroupTables)
    requires g in c.groups && Behind(rows, c.groups[g])
    ensures var gs := c.groups[g];
      var c' := ReceiveAll(c, me, CommitsAfter(rows, g, gs.room, gs.epoch));
      g in c'.groups && Adopted(rows, gs, c'.groups[g])
    decreases rows.currentEpoch - c.groups[g].epoch
  {
    var gs := c.groups[g];
    if gs.epoch < rows.currentEpoch {
      var e := gs.epoch + 1;
      CommitRelayAdopted(c, g, gs.room, e, rows.epochs[e].commit, true);
      var c1 := OnCommitRelay(c, g, gs.room, e, rows.epochs[e].commit, true);
      assert c1.groups[g] == Advanced(rows, gs);
      ClientCatchesUp(c1, me, g, rows);
      var replies := CommitsAfter(rows, g, gs.room, gs.epoch);
      assert replies[1..] == CommitsAfter(rows, g, gs.room, e);
      assert ReceiveAll(c, me, replies) == ReceiveAll(c1, me, replies[1..]);
      AdoptedStep(rows, gs, ReceiveAll(c, me, replies).groups[g]);
    }
  }

  ghost function Deliveries(me: Code, replies: seq<Reply>): seq<SysStep>
    decreases |replies|
  {
    if replies == [] then [] else [Deliver(ToClient(me, replies[0]), true, true)] + Deliveries(me, replies[1..])
  }

  /** Delivering commits that were relayed to a client is the client taking them. */
  lemma {:induction false} DeliveriesAreReceived(s: Sys, me: Code, replies: seq<Reply>)
    requires me in s.clients
    requires forall r :: r in replies ==> r.CommitRelay? && ToClient(me, r) in s.net
    ensures RunSys(s, Deliveries(me, replies)) == s.(clients := s.clients[me := ReceiveAll(s.clients[me], me, replies)])
    decreases |replies|
  {
    if replies == [] {
      assert s.clients[me := s.clients[me]] == s.clients;
    } else {
      var s1 := Next(s, Deliver(ToClient(me, replies[0]), true, true));
      OneDelivery(s, me, replies[0]);
      DeliveriesAreReceived(s1, me, replies[1..]);
      var steps := Deliveries(me, replies);
      assert steps[1..] == Deliveries(me, replies[1..]);
    }
  }

  lemma OneDelivery(s: Sys, me: Code, reply: Reply)
    requires me in s.clients && reply.CommitRelay? && ToClient(me, reply) in s.net
    ensures Next(s, Deliver(ToClient(me, reply), true, true)) ==
            s.(clients := s.clients[me := Receive(s.clients[me], me, reply, true, true).0])
  {
    assert s.net + {} == s.net;
  }

  lemma {:induction false} CommitsAfterMeans(rows: GroupTables, g: GroupId, room: Room, from: nat)
    requires forall e :: from < e <= rows.currentEpoch ==> e in rows.epochs
    ensures forall r :: r in CommitsAfter(rows, g, room, from) <==>
      exists e: nat :: from < e <= rows.currentEpoch && r == CommitRelay(g, room, e, rows.epochs[e].commit)
    decreases rows.currentEpoch - from
  {
    if from < rows.currentEpoch {
      CommitsAfterMeans(rows, g, room, from + 1);
      var first := CommitRelay(g, room, from + 1, rows.epochs[from + 1].commit);
      forall r ensures r in CommitsAfter(rows, g, room, from) <==>
        exists e: nat :: from < e <= rows.currentEpoch && r == CommitRelay(g, room, e, rows.epochs[e].commit)
      {
        assert r in CommitsAfter(rows, g, room, from) <==> r == first || r in CommitsAfter(rows, g, room, from + 1);
      }
    }
  }

  /** In every reachable state: if the server's commits after a client's epoch were relayed to
      it, delivering them in order brings the client to the server's current epoch. */
  lemma CatchesUp(s: Sys, me: Code, g: GroupId)
    requires SysInv(s) && me in s.clients && g in s.clients[me].groups
    requires var gs := s.clients[me].groups[g];
      && (forall e :: e in gs.commits ==> e <= gs.epoch)
      && (forall e :: gs.epoch < e <= Rows(s.db, g).currentEpoch ==>
            && e in Rows(s.db, g).epochs
            && ToClient(me, CommitRelay(g, gs.room, e, Rows(s.db, g).epochs[e].commit)) in s.net)
    ensures var gs := s.clients[me].groups[g]; var rows := Rows(s.db, g);
      var t := RunSys(s, Deliveries(me, CommitsAfter(rows, g, gs.room, gs.epoch)));
      t.db == s.db && me in t.clients && g in t.clients[me].groups && Adopted(rows, gs, t.clients[me].groups[g])
  {
    var gs, rows := s.clients[me].groups[g], Rows(s.db, g);
    InvOfNoRows();
    assert Inv(rows);
    ClientCatchesUp(s.clients[me], me, g, rows);
    CommitsAfterMeans(rows, g, gs.room, gs.epoch);
    DeliveriesAreReceived(s, me, CommitsAfter(rows, g, gs.room, gs.epoch));
  }
}
