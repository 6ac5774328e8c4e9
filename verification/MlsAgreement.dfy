/** What the MLS control protocol guarantees in every run. */
module MlsAgreement {
  import opened MlsTables
  import opened MlsInvariants
  import opened MlsHistory
  import opened MlsProtocol
  import opened MlsNetwork

  lemma InitialIsGood(s: Sys)
    requires Initial(s)
    ensures SysInv(s)
  {
  }

  /** Commit agreement: a commit that a client has recorded for a group and epoch is the
      server's row of that epoch, so no two clients ever disagree. */
  lemma CommitAgreement(s0: Sys, steps: seq<SysStep>, a: Code, b: Code, g: GroupId, e: nat)
    requires Initial(s0)
    ensures var s := RunSys(s0, steps);
      (a in s.clients && g in s.clients[a].groups && e in s.clients[a].groups[g].commits ==>
        && IsServerCommit(s.db, g, e, s.clients[a].groups[g].commits[e])
        && (b in s.clients && g in s.clients[b].groups && e in s.clients[b].groups[g].commits ==>
              s.clients[a].groups[g].commits[e] == s.clients[b].groups[g].commits[e]))
  {
    InitialIsGood(s0);
    RunSysKeeps(s0, steps);
    var s := RunSys(s0, steps);
    if a in s.clients && g in s.clients[a].groups {
      assert ClientOk(s.db, s.net, a, s.clients[a]);
      assert GroupOk(s.db, s.net, a, g, s.clients[a].groups[g]);
    }
    if b in s.clients && g in s.clients[b].groups {
      assert ClientOk(s.db, s.net, b, s.clients[b]);
      assert GroupOk(s.db, s.net, b, g, s.clients[b].groups[g]);
    }
  }

  /** Durable before advance: an operation is in its commit phase only if the server stores a
      proposal with its payload at its epoch, and in its welcome phase only if the server
      stores exactly its commit under its id. */
  lemma DurableBeforeAdvance(s0: Sys, steps: seq<SysStep>, me: Code, cmd: CommandId)
    requires Initial(s0)
    ensures var s := RunSys(s0, steps);
      (me in s.clients && cmd in s.clients[me].pending ==>
        var op := s.clients[me].pending[cmd];
        && (op.phase == CommitPhase ==> Durable(s.db, op))
        && (op.phase == WelcomePhase ==> Committed(s.db, cmd, op)))
  {
    InitialIsGood(s0);
    RunSysKeeps(s0, steps);
    var s := RunSys(s0, steps);
    if me in s.clients && cmd in s.clients[me].pending {
      assert ClientOk(s.db, s.net, me, s.clients[me]);
      assert OperationOk(s.db, s.clients[me].issued, cmd, s.clients[me].pending[cmd]);
    }
  }

  // ---------- An operation advances its group once ----------

  /** A client step forgets no issued operation and sends packets to the server only. */
  ghost predicate Talks(c: Client, r: (Client, set<Packet>)) {
    && (forall k :: k in c.issued ==> k in r.0.issued && r.0.issued[k] == c.issued[k])
    && (forall p :: p in r.1 ==> p.ToServer?)
  }

  lemma AddTalks(c: Client, me: Code, cmd: CommandId, room: Room, g: GroupId, target: Code,
                 proposal: Payload, commit: Payload, welcome: Payload, sent: bool)
    requires cmd !in c.issued
    ensures Talks(c, StartAdd(c, me, cmd, room, g, target, proposal, commit, welcome, sent))
  {
  }

  lemma RemoveTalks(c: Client, me: Code, cmd: CommandId, room: Room, g: GroupId, target: Code,
                    proposal: Payload, commit: Payload, sent: bool)
    requires cmd !in c.issued
    ensures Talks(c, StartRemove(c, me, cmd, room, g, target, proposal, commit, sent))
  {
  }

  lemma ReceiveTalks(c: Client, me: Code, reply: Reply, libraryOk: bool, sent: bool)
    ensures Talks(c, Receive(c, me, reply, libraryOk, sent))
  {
  }

  lemma ResumeTalks(c: Client, me: Code, taken: set<CommandId>)
    ensures Talks(c, Resume(c, me, taken))
  {
  }

  ghost predicate Grows(s: Sys, s': Sys) {
    DbExtends(s.db, s'.db) && IssuedGrows(s.clients, s'.clients)
  }

  lemma PutGrows(s: Sys, me: Code, r: (Client, set<Packet>))
    requires me in s.clients && Talks(s.clients[me], r)
    ensures Grows(s, Put(s, me, r))
    ensures forall p :: p in Put(s, me, r).net && p.ToClient? ==> p in s.net
  {
    DbExtendsItself(s.db);
  }

  predicate ClientStep(step: SysStep) {
    step.AddMember? || step.RemoveMember? || step.Deliver? || step.Reconnect? || step.ResetClient?
  }

  lemma ClientStepGrows(s: Sys, step: SysStep)
    requires ClientStep(step)
    ensures Grows(s, Next(s, step))
    ensures forall p :: p in Next(s, step).net && p.ToClient? ==> p in s.net
  {
    DbExtendsItself(s.db);
    match step
    case AddMember(me, cmd, room, g, target, proposal, commit, welcome, sent) =>
      if me in s.clients && cmd !in s.clients[me].issued {
        AddTalks(s.clients[me], me, cmd, room, g, target, proposal, commit, welcome, sent);
        PutGrows(s, me, StartAdd(s.clients[me], me, cmd, room, g, target, proposal, commit, welcome, sent));
      }
    case RemoveMember(me, cmd, room, g, target, proposal, commit, sent) =>
      if me in s.clients && cmd !in s.clients[me].issued {
        RemoveTalks(s.clients[me], me, cmd, room, g, target, proposal, commit, sent);
        PutGrows(s, me, StartRemove(s.clients[me], me, cmd, room, g, target, proposal, commit, sent));
      }
    case Deliver(p, libraryOk, sent) =>
      if p in s.net && p.ToClient? && p.to in s.clients {
        ReceiveTalks(s.clients[p.to], p.to, p.reply, libraryOk, sent);
        PutGrows(s, p.to, Receive(s.clients[p.to], p.to, p.reply, libraryOk, sent));
      }
    case Reconnect(me, taken) =>
      if me in s.clients {
        ResumeTalks(s.clients[me], me, taken);
        PutGrows(s, me, Resume(s.clients[me], me, taken));
      }
    case ResetClient(me) =>
      if me in s.clients { PutGrows(s, me, (Reset(s.clients[me]), {})); }
    case _ =>
  }

  lemma NextGrows(s: Sys, step: SysStep)
    requires SysInv(s)
    ensures Grows(s, Next(s, step))
  {
    DbExtendsItself(s.db);
    if ClientStep(step) {
      ClientStepGrows(s, step);
    } else if step.Other? {
      ServeExtends(s.db, step.sender, "", step.group, step.wire, step.granted, step.audience, s.clients);
    } else if step.ServePacket? && step.packet.ToServer? {
      var p := step.packet;
      ServeExtends(s.db, p.from, p.command, p.group, p.wire, step.granted, step.audience, s.clients);
    }
  }

  lemma ExtendsIsTransitive(db: Database, db1: Database, db2: Database)
    requires DbExtends(db, db1) && DbExtends(db1, db2)
    ensures DbExtends(db, db2)
  {
    forall g ensures Extends(Rows(db, g), Rows(db2, g)) {
      assert Extends(Rows(db, g), Rows(db1, g)) && Extends(Rows(db1, g), Rows(db2, g));
    }
  }

  lemma {:induction false} RunGrows(s: Sys, steps: seq<SysStep>)
    requires SysInv(s)
    ensures Grows(s, RunSys(s, steps))
    decreases |steps|
  {
    if steps == [] {
      DbExtendsItself(s.db);
    } else {
      var s1 := Next(s, steps[0]);
      NextKeeps(s, steps[0]);
      NextGrows(s, steps[0]);
      RunGrows(s1, steps[1..]);
      ExtendsIsTransitive(s.db, s1.db, RunSys(s, steps).db);
    }
  }

  /** All commit packets a client ever sends under one command id are the same packet. */
  lemma SameCommitPacket(s: Sys, p: Packet, t: Sys, p': Packet)
    requires SysInv(s) && SysInv(t) && IssuedGrows(s.clients, t.clients)
    requires p in s.net && p.ToServer? && p.wire.CommitWire?
    requires p' in t.net && p'.ToServer? && p'.wire.CommitWire? && p'.from == p.from && p'.command == p.command
    ensures p' == p && p.wire.proposalId != ""
  {
    assert PacketOk(s.db, s.clients, p) && PacketOk(t.db, t.clients, p');
  }

  /** A commit packet that the store has answered with success changes nothing any more. */
  lemma ServedCommitIsNoOp(db: Database, db': Database, sender: Code, cmd: CommandId, g: GroupId, w: Wire,
                           granted: bool, audience: set<Code>, granted': bool, audience': set<Code>)
    requires DbInv(db) && w.CommitWire? && w.proposalId != ""
    requires Serve(db, sender, cmd, g, w, granted, audience).0 != db
    requires DbExtends(Serve(db, sender, cmd, g, w, granted, audience).0, db')
    ensures Serve(db', sender, cmd, g, w, granted', audience').0 == db'
  {
    var r := Commit(w.room, sender, w.proposalId, w.epoch, w.commit);
    var db1 := Apply(db, g, r).0;
    SuccessMeans(db, g, r);
    assert Extends(Rows(db1, g), Rows(db', g));
    SettledIsNoOp(Rows(db', g), r);
  }

  /** One operation moves the current epoch at most once: when the server has handled one of
      its commit packets and stored the commit, no commit packet of the same operation
      changes the database again, however late it arrives and however often it was re-sent. */
  lemma OperationAdvancesOnce(s: Sys, p: Packet, granted: bool, audience: set<Code>, later: seq<SysStep>,
                              p': Packet, granted': bool, audience': set<Code>)
    requires SysInv(s) && p in s.net && p.ToServer? && p.wire.CommitWire?
    requires Next(s, ServePacket(p, granted, audience)).db != s.db
    requires var t := RunSys(Next(s, ServePacket(p, granted, audience)), later);
      p' in t.net && p'.ToServer? && p'.wire.CommitWire? && p'.from == p.from && p'.command == p.command
    ensures var t := RunSys(Next(s, ServePacket(p, granted, audience)), later);
      p' == p && Next(t, ServePacket(p', granted', audience')).db == t.db
  {
    var s1 := Next(s, ServePacket(p, granted, audience));
    var t := RunSys(s1, later);
    NextKeeps(s, ServePacket(p, granted, audience));
    RunSysKeeps(s1, later);
    RunGrows(s1, later);
    assert s1.clients == s.clients;
    SameCommitPacket(s, p, t, p');
    ServedCommitIsNoOp(s.db, t.db, p.from, p.command, p.group, p.wire, granted, audience, granted', audience');
  }

  // ---------- How far ahead a client can be ----------

  /** A client epoch above 0 exceeds the server's current epoch only if it is the epoch of a
      legacy welcome that was relayed to that client. */
  lemma ClientEpochBound(s0: Sys, steps: seq<SysStep>, me: Code, g: GroupId)
    requires Initial(s0)
    ensures var s := RunSys(s0, steps);
      (me in s.clients && g in s.clients[me].groups ==>
        var e := s.clients[me].groups[g].epoch;
        e == 0 || e <= Rows(s.db, g).currentEpoch || LegacyWelcomed(s.net, me, g, e))
  {
    InitialIsGood(s0);
    RunSysKeeps(s0, steps);
    var s := RunSys(s0, steps);
    if me in s.clients && g in s.clients[me].groups {
      assert ClientOk(s.db, s.net, me, s.clients[me]);
      assert GroupOk(s.db, s.net, me, g, s.clients[me].groups[g]);
    }
  }

  /** The branch that makes the difference: the server admits a welcome from another party, with
      an epoch above 0 and for one of the clients, for a group that has no control state yet. */
  predicate LegacyWelcomeStep(s: Sys, step: SysStep) {
    && step.Other? && step.wire.WelcomeWire? && !Rows(s.db, step.group).present
    && step.granted && step.group != "" && step.wire.target != "" && step.wire.welcome != ""
    && 0 < step.wire.epoch <= MAX_EPOCH
    && step.wire.target in s.clients
  }

  predicate NoLegacyWelcomes(s: Sys, steps: seq<SysStep>)
    decreases |steps|
  {
    steps == [] || (!LegacyWelcomeStep(s, steps[0]) && NoLegacyWelcomes(Next(s, steps[0]), steps[1..]))
  }

  /** Traffic of GUI clients never takes a legacy path of the store. */
  lemma GuiTrafficIsStrict(s: Sys, p: Packet)
    requires SysInv(s) && p in s.net && p.ToServer?
    ensures !IsLegacy(Route(s.db, p.from, p.group, p.wire))
  {
    assert PacketOk(s.db, s.clients, p);
    if p.wire.WelcomeWire? { assert p.group in s.db; }
  }

  /** No legacy welcome above epoch 0 was relayed to any of `who`. */
  ghost predicate OnlyStrictWelcomes(net: set<Packet>, who: set<Code>) {
    forall p :: p in net && p.ToClient? && p.to in who && p.reply.WelcomeRelay? ==>
      p.reply.proposalId != "" || p.reply.epoch == 0
  }

  /** What a welcome for a group without control state does when it is not of that branch. */
  lemma HarmlessLegacyWelcome(s: Sys, step: SysStep)
    requires SysInv(s) && step.Other? && step.wire.WelcomeWire? && !Rows(s.db, step.group).present
    requires !LegacyWelcomeStep(s, step)
    ensures var (_, relays, _) := Serve(s.db, step.sender, "", step.group, step.wire, step.granted, step.audience);
      OnlyStrictWelcomes(relays, s.clients.Keys)
  {
  }

  lemma RelaysStrictWelcomes(db: Database, sender: Code, cmd: CommandId, g: GroupId, w: Wire, granted: bool,
                             audience: set<Code>, who: set<Code>)
    requires !Route(db, sender, g, w).LegacyWelcome?
    ensures OnlyStrictWelcomes(Serve(db, sender, cmd, g, w, granted, audience).1, who)
  {
  }

  lemma ReplaysStrictWelcomes(db: Database, user: Code, who: set<Code>)
    requires DbInv(db)
    ensures OnlyStrictWelcomes(LoginReplay(db, user), who)
  {
    forall p | p in LoginReplay(db, user) ensures p.ToClient? && p.reply.WelcomeRelay? && p.reply.proposalId != "" {
      var g, k :| g in db && k in db[g].welcomes && k.1 == user && k.0 >= 0 && !db[g].welcomes[k].accepted
        && p == ToClient(user, WelcomeRelay(g, db[g].room, k.0, user, db[g].welcomes[k].proposalId,
                                            db[g].welcomes[k].welcome));
      assert PendingAt(db[g], k.0, k.1);
      assert WelcomeCurrent(db[g], k.0, k.1);
    }
  }

  lemma OtherKeepsStrictWelcomes(s: Sys, step: SysStep)
    requires SysInv(s) && OnlyStrictWelcomes(s.net, s.clients.Keys) && step.Other? && !LegacyWelcomeStep(s, step)
    ensures OnlyStrictWelcomes(Next(s, step).net, s.clients.Keys)
  {
    if step.wire.WelcomeWire? && !Rows(s.db, step.group).present {
      HarmlessLegacyWelcome(s, step);
    } else {
      RelaysStrictWelcomes(s.db, step.sender, "", step.group, step.wire, step.granted, step.audience, s.clients.Keys);
    }
  }

  lemma NextKeepsStrictWelcomes(s: Sys, step: SysStep)
    requires SysInv(s) && OnlyStrictWelcomes(s.net, s.clients.Keys) && !LegacyWelcomeStep(s, step)
    ensures OnlyStrictWelcomes(Next(s, step).net, s.clients.Keys)
  {
    match step
    case ServePacket(p, granted, audience) =>
      if p in s.net && p.ToServer? {
        GuiTrafficIsStrict(s, p);
        RelaysStrictWelcomes(s.db, p.from, p.command, p.group, p.wire, granted, audience, s.clients.Keys);
      }
    case Other(_, _, _, _, _) => OtherKeepsStrictWelcomes(s, step);
    case Login(user) => ReplaysStrictWelcomes(s.db, user, s.clients.Keys);
    case _ => ClientStepGrows(s, step);
  }

  /** The packet that such a step relays. */
  function LegacyRelay(step: SysStep): Packet
    requires step.Other? && step.wire.WelcomeWire?
  {
    var w := step.wire;
    ToClient(w.target, WelcomeRelay(step.group, w.room, w.epoch, w.target, "", w.welcome))
  }

  /** The branch stores the welcome and relays it; the group then has no commit. */
  lemma LegacyWelcomeIsRelayed(s: Sys, step: SysStep)
    requires SysInv(s) && LegacyWelcomeStep(s, step)
    ensures LegacyRelay(step) in Next(s, step).net && Next(s, step).clients == s.clients
    ensures Rows(Next(s, step).db, step.group).currentEpoch == -1
  {
    InvOfNoRows();
    assert Rows(s.db, step.group) == NO_ROWS;
    var w := step.wire;
    assert Route(s.db, step.sender, step.group, w) == LegacyWelcome(w.room, w.epoch, w.target, w.welcome);
    assert Apply(s.db, step.group, LegacyWelcome(w.room, w.epoch, w.target, w.welcome)).1 == Stored(NoMembership);
  }

  /** Exactly this branch relays a legacy welcome above epoch 0 to a client. */
  lemma LegacyWelcomeExactly(s: Sys, step: SysStep)
    requires SysInv(s) && OnlyStrictWelcomes(s.net, s.clients.Keys)
    ensures LegacyWelcomeStep(s, step) <==> !OnlyStrictWelcomes(Next(s, step).net, s.clients.Keys)
  {
    if LegacyWelcomeStep(s, step) {
      LegacyWelcomeIsRelayed(s, step);
      assert LegacyRelay(step).reply.proposalId == "";
    } else {
      NextKeepsStrictWelcomes(s, step);
    }
  }

  lemma NextKeepsClients(s: Sys, step: SysStep)
    ensures Next(s, step).clients.Keys == s.clients.Keys
  {
  }

  lemma {:induction false} RunKeepsStrictWelcomes(s: Sys, steps: seq<SysStep>)
    requires SysInv(s) && OnlyStrictWelcomes(s.net, s.clients.Keys) && NoLegacyWelcomes(s, steps)
    ensures var t := RunSys(s, steps); t.clients.Keys == s.clients.Keys && OnlyStrictWelcomes(t.net, t.clients.Keys)
    decreases |steps|
  {
    if steps != [] {
      NextKeeps(s, steps[0]);
      NextKeepsStrictWelcomes(s, steps[0]);
      NextKeepsClients(s, steps[0]);
      RunKeepsStrictWelcomes(Next(s, steps[0]), steps[1..]);
    }
  }

  /** A client epoch above 0 and above the server's current epoch. */
  ghost predicate IsAhead(s: Sys, me: Code, g: GroupId) {
    && me in s.clients && g in s.clients[me].groups
    && 0 < s.clients[me].groups[g].epoch && Rows(s.db, g).currentEpoch < s.clients[me].groups[g].epoch
  }

  lemma StrictIsNotAhead(s: Sys, me: Code, g: GroupId)
    requires SysInv(s) && OnlyStrictWelcomes(s.net, s.clients.Keys)
    ensures !IsAhead(s, me, g)
  {
    if me in s.clients && g in s.clients[me].groups {
      assert ClientOk(s.db, s.net, me, s.clients[me]);
      assert GroupOk(s.db, s.net, me, g, s.clients[me].groups[g]);
    }
  }

  /** Without a step of that branch the bound holds outright. */
  lemma EpochNeverAhead(s0: Sys, steps: seq<SysStep>, me: Code, g: GroupId)
    requires Initial(s0) && NoLegacyWelcomes(s0, steps)
    ensures !IsAhead(RunSys(s0, steps), me, g)
  {
    InitialIsGood(s0);
    RunSysKeeps(s0, steps);
    RunKeepsStrictWelcomes(s0, steps);
    StrictIsNotAhead(RunSys(s0, steps), me, g);
  }

  /** Every step of that branch puts its target ahead as soon as the relay is delivered to it
      while it is outside the group. */
  lemma LegacyWelcomeBreaksTheBound(s: Sys, step: SysStep)
    requires SysInv(s) && LegacyWelcomeStep(s, step) && step.group !in s.clients[step.wire.target].groups
    ensures IsAhead(Next(Next(s, step), Deliver(LegacyRelay(step), true, true)), step.wire.target, step.group)
  {
    LegacyWelcomeIsRelayed(s, step);
    DeliveredIsAhead(Next(s, step), step);
  }

  lemma DeliveredIsAhead(s: Sys, step: SysStep)
    requires step.Other? && step.wire.WelcomeWire? && step.wire.welcome != "" && 0 < step.wire.epoch
    requires LegacyRelay(step) in s.net && Rows(s.db, step.group).currentEpoch == -1
    requires step.wire.target in s.clients && step.group !in s.clients[step.wire.target].groups
    ensures IsAhead(Next(s, Deliver(LegacyRelay(step), true, true)), step.wire.target, step.group)
  {
  }

  lemma OneStep(s: Sys, a: SysStep, rest: seq<SysStep>)
    ensures RunSys(s, [a] + rest) == RunSys(Next(s, a), rest)
    ensures NoLegacyWelcomes(s, [a] + rest) <==> !LegacyWelcomeStep(s, a) && NoLegacyWelcomes(Next(s, a), rest)
  {
    assert ([a] + rest)[0] == a && ([a] + rest)[1..] == rest;
  }

  lemma TwoSteps(s: Sys, a: SysStep, b: SysStep)
    ensures RunSys(s, [a] + ([b] + [])) == Next(Next(s, a), b)
    ensures !a.Other? && !b.Other? ==> NoLegacyWelcomes(s, [a] + ([b] + []))
  {
    OneStep(s, a, [b] + []);
    OneStep(Next(s, a), b, []);
  }

  /** Some continuation without a step of that branch puts some client ahead. */
  ghost predicate CanGetAhead(s: Sys) {
    exists later, me, g :: NoLegacyWelcomes(s, later) && IsAhead(RunSys(s, later), me, g)
  }

  /** The target is outside the group at the latest after its MLS state was reset. */
  lemma LegacyWelcomeBreaksAfterReset(s: Sys, step: SysStep)
    requires SysInv(s) && LegacyWelcomeStep(s, step)
    ensures CanGetAhead(Next(s, step))
  {
    LegacyWelcomeIsRelayed(s, step);
    var a, b := ResetClient(step.wire.target), Deliver(LegacyRelay(step), true, true);
    TwoSteps(Next(s, step), a, b);
    DeliveredIsAhead(Next(Next(s, step), a), step);
    assert IsAhead(RunSys(Next(s, step), [a] + ([b] + [])), step.wire.target, step.group);
  }

  lemma StrictCannotGetAhead(s: Sys)
    requires SysInv(s) && OnlyStrictWelcomes(s.net, s.clients.Keys)
    ensures !CanGetAhead(s)
  {
    forall later, me, g | NoLegacyWelcomes(s, later) ensures !IsAhead(RunSys(s, later), me, g) {
      RunSysKeeps(s, later);
      RunKeepsStrictWelcomes(s, later);
      StrictIsNotAhead(RunSys(s, later), me, g);
    }
  }

  /** The exact condition, for any run that has not been in that branch so far: after the next
      step some client can get ahead, with no further such step, if and only if the step is of
      that branch. */
  lemma BoundFailsExactly(s0: Sys, steps: seq<SysStep>, step: SysStep)
    requires Initial(s0) && NoLegacyWelcomes(s0, steps)
    ensures var s := RunSys(s0, steps); LegacyWelcomeStep(s, step) <==> CanGetAhead(Next(s, step))
  {
    InitialIsGood(s0);
    RunSysKeeps(s0, steps);
    RunKeepsStrictWelcomes(s0, steps);
    var s := RunSys(s0, steps);
    if LegacyWelcomeStep(s, step) {
      LegacyWelcomeBreaksAfterReset(s, step);
    } else {
      NextKeeps(s, step);
      NextKeepsStrictWelcomes(s, step);
      NextKeepsClients(s, step);
      StrictCannotGetAhead(Next(s, step));
    }
  }
}
