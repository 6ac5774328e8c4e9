/** A whole round of the MLS control protocol: an active member adds a user, and after nine steps
    of the network the user is a member and both clients are at the new epoch. */
module MlsRound {
  import opened Wrappers
  import opened MlsTables
  import opened MlsInvariants
  import opened MlsHistory
  import opened MlsProgress
  import opened MlsProtocol
  import opened MlsNetwork
  import opened MlsDelivery

  /** `me` adds `target` to group `g`, from epoch `e - 1` to `e`, under command `cmd`. */
  datatype Round = Round(me: Code, target: Code, cmd: CommandId, room: Room, g: GroupId, e: nat,
                         proposal: Payload, commit: Payload, welcome: Payload)

  predicate WellFormed(r: Round) {
    && r.me != "" && r.target != "" && r.me != r.target && r.cmd != "" && r.room != "" && r.g != ""
    && 0 < r.e <= MAX_EPOCH && r.proposal != "" && r.commit != "" && r.welcome != ""
  }

  function Op(r: Round, phase: Phase): Operation {
    Operation(phase, r.room, r.g, r.target, r.e, r.proposal, r.commit, r.welcome, true)
  }

  // ---------- The server's side ----------

  /** The member may act, the user is outside and nothing of this round is stored. */
  ghost predicate RowsOpen(rows: GroupTables, r: Round) {
    && Open(rows, r.me) && rows.room == r.room && NextEpoch(rows) == r.e
    && !IsActive(rows, r.target) && (r.e as int, r.target) !in rows.welcomes
  }

  ghost predicate RowsProposed(rows: GroupTables, r: Round) {
    && RowsOpen(rows, r) && (r.e as int, r.cmd) in rows.proposals
    && rows.proposals[(r.e as int, r.cmd)].action == Add && rows.proposals[(r.e as int, r.cmd)].target == r.target
  }

  ghost predicate RowsCommitted(rows: GroupTables, r: Round) {
    && Inv(rows) && rows.present && rows.room == r.room && rows.currentEpoch == r.e && IsActive(rows, r.me)
    && r.e in rows.epochs && rows.epochs[r.e] == EpochRow(r.cmd, r.commit)
    && (r.e as int, r.cmd) in rows.proposals
    && rows.proposals[(r.e as int, r.cmd)].action == Add && rows.proposals[(r.e as int, r.cmd)].target == r.target
    && (r.e as int, r.target) !in rows.welcomes
  }

  ghost predicate RowsWelcomed(rows: GroupTables, r: Round) {
    && Inv(rows) && rows.present && rows.room == r.room && rows.currentEpoch == r.e
    && (r.e as int, r.target) in rows.welcomes
    && rows.welcomes[(r.e as int, r.target)] == WelcomeRow(r.welcome, r.cmd, Sha256(r.welcome), false)
  }

  ghost predicate RowsJoined(rows: GroupTables, r: Round) {
    Inv(rows) && rows.currentEpoch == r.e && IsActive(rows, r.target) && rows.members[r.target].joinedEpoch == r.e
  }

  lemma ServeProposal(db: Database, r: Round)
    requires WellFormed(r) && RowsOpen(Rows(db, r.g), r) && NewAt(Rows(db, r.g), r.e, r.cmd, r.proposal)
    ensures var p := ProposalPacket(r.me, r.cmd, Op(r, ProposalPhase));
      var (db', _, answers) := Serve(db, r.me, r.cmd, r.g, p.wire, true, {});
      RowsProposed(Rows(db', r.g), r) && answers == {ProposalAck(r.cmd)}
  {
    ProposeGoesThrough(Rows(db, r.g), r.me, Add, r.target, r.cmd, r.proposal);
  }

  lemma ServeCommit(db: Database, r: Round)
    requires WellFormed(r) && RowsProposed(Rows(db, r.g), r)
    ensures var p := CommitPacket(r.me, r.cmd, Op(r, CommitPhase));
      var (db', _, answers) := Serve(db, r.me, r.cmd, r.g, p.wire, true, {});
      RowsCommitted(Rows(db', r.g), r) && answers == {CommitAck(r.cmd)}
  {
    CommitGoesThrough(Rows(db, r.g), r.me, r.cmd, r.commit);
  }

  lemma ServeWelcome(db: Database, r: Round)
    requires WellFormed(r) && RowsCommitted(Rows(db, r.g), r)
    ensures var p := WelcomePacket(r.me, r.cmd, Op(r, WelcomePhase));
      var (db', relays, answers) := Serve(db, r.me, r.cmd, r.g, p.wire, true, {});
      && RowsWelcomed(Rows(db', r.g), r) && answers == {WelcomeAck(r.cmd)}
      && ToClient(r.target, WelcomeRelay(r.g, r.room, r.e, r.target, r.cmd, r.welcome)) in relays
  {
    var rows := Rows(db, r.g);
    WelcomeStoredExactly(rows, r.room, r.me, r.e, r.target, r.cmd, r.welcome);
    var q := Welcome(r.room, r.me, r.e, r.target, r.cmd, r.welcome);
    StepHasEffect(rows, q);
    StepKeeps(rows, q);
    assert Step(rows, q).0.room == rows.room;
  }

  lemma ServeAccept(db: Database, r: Round)
    requires WellFormed(r) && RowsWelcomed(Rows(db, r.g), r)
    ensures var p := AcceptPacket(r.target, r.g, r.room, r.e, r.cmd, r.welcome);
      RowsJoined(Rows(Serve(db, r.target, p.command, r.g, p.wire, true, {}).0, r.g), r)
  {
    var rows := Rows(db, r.g);
    AcceptStoredExactly(rows, r.room, r.target, r.e, r.cmd, Sha256(r.welcome));
    var q := Accept(r.room, r.target, r.e, r.cmd, Sha256(r.welcome));
    StepHasEffect(rows, q);
    StepKeeps(rows, q);
  }

  // ---------- The clients' side ----------

  ghost predicate MeAt(s: Sys, r: Round, epoch: int) {
    && r.me in s.clients && r.g in s.clients[r.me].groups
    && s.clients[r.me].groups[r.g].room == r.room && s.clients[r.me].groups[r.g].epoch == epoch
  }

  ghost predicate MePending(s: Sys, r: Round, phase: Phase)
    requires r.me in s.clients
  {
    r.cmd in s.clients[r.me].pending && s.clients[r.me].pending[r.cmd] == Op(r, phase)
  }

  ghost predicate TargetOutside(s: Sys, r: Round) {
    r.target in s.clients && r.g !in s.clients[r.target].groups
  }

  ghost predicate Stage0(s: Sys, r: Round) {
    && WellFormed(r) && MeAt(s, r, r.e - 1) && TargetOutside(s, r)
    && r.cmd !in s.clients[r.me].issued && r.cmd !in s.clients[r.me].pending
    && RowsOpen(Rows(s.db, r.g), r) && NewAt(Rows(s.db, r.g), r.e, r.cmd, r.proposal)
  }

  ghost predicate Stage1(s: Sys, r: Round) {
    && WellFormed(r) && MeAt(s, r, r.e - 1) && TargetOutside(s, r) && MePending(s, r, ProposalPhase)
    && RowsOpen(Rows(s.db, r.g), r) && NewAt(Rows(s.db, r.g), r.e, r.cmd, r.proposal)
    && ProposalPacket(r.me, r.cmd, Op(r, ProposalPhase)) in s.net
  }

  ghost predicate Stage2(s: Sys, r: Round) {
    && WellFormed(r) && MeAt(s, r, r.e - 1) && TargetOutside(s, r) && MePending(s, r, ProposalPhase)
    && RowsProposed(Rows(s.db, r.g), r) && ToClient(r.me, ProposalAck(r.cmd)) in s.net
  }

  ghost predicate Stage3(s: Sys, r: Round) {
    && WellFormed(r) && MeAt(s, r, r.e - 1) && TargetOutside(s, r) && MePending(s, r, CommitPhase)
    && RowsProposed(Rows(s.db, r.g), r) && CommitPacket(r.me, r.cmd, Op(r, CommitPhase)) in s.net
  }

  ghost predicate Stage4(s: Sys, r: Round) {
    && WellFormed(r) && MeAt(s, r, r.e - 1) && TargetOutside(s, r) && MePending(s, r, CommitPhase)
    && RowsCommitted(Rows(s.db, r.g), r) && ToClient(r.me, CommitAck(r.cmd)) in s.net
  }

  ghost predicate Stage5(s: Sys, r: Round) {
    && WellFormed(r) && MeAt(s, r, r.e) && TargetOutside(s, r) && MePending(s, r, WelcomePhase)
    && RowsCommitted(Rows(s.db, r.g), r) && WelcomePacket(r.me, r.cmd, Op(r, WelcomePhase)) in s.net
  }

  function TheRelay(r: Round): Packet {
    ToClient(r.target, WelcomeRelay(r.g, r.room, r.e, r.target, r.cmd, r.welcome))
  }

  ghost predicate Stage6(s: Sys, r: Round) {
    && WellFormed(r) && MeAt(s, r, r.e) && TargetOutside(s, r) && MePending(s, r, WelcomePhase)
    && RowsWelcomed(Rows(s.db, r.g), r) && TheRelay(r) in s.net && ToClient(r.me, WelcomeAck(r.cmd)) in s.net
  }

  ghost predicate TargetAt(s: Sys, r: Round) {
    && r.target in s.clients && r.g in s.clients[r.target].groups
    && s.clients[r.target].groups[r.g].epoch == r.e && s.clients[r.target].groups[r.g].room == r.room
  }

  ghost predicate Stage7(s: Sys, r: Round) {
    && WellFormed(r) && MeAt(s, r, r.e) && TargetAt(s, r) && MePending(s, r, WelcomePhase)
    && RowsWelcomed(Rows(s.db, r.g), r) && AcceptPacket(r.target, r.g, r.room, r.e, r.cmd, r.welcome) in s.net
    && ToClient(r.me, WelcomeAck(r.cmd)) in s.net
  }

  ghost predicate Stage8(s: Sys, r: Round) {
    && WellFormed(r) && MeAt(s, r, r.e) && TargetAt(s, r) && MePending(s, r, WelcomePhase)
    && RowsJoined(Rows(s.db, r.g), r) && ToClient(r.me, WelcomeAck(r.cmd)) in s.net
  }

  /** The end of the round. */
  ghost predicate Finished(s: Sys, r: Round) {
    && MeAt(s, r, r.e) && TargetAt(s, r) && r.cmd !in s.clients[r.me].pending && RowsJoined(Rows(s.db, r.g), r)
  }

  function Steps(r: Round): seq<SysStep> {
    [AddMember(r.me, r.cmd, r.room, r.g, r.target, r.proposal, r.commit, r.welcome, true),
     ServePacket(ProposalPacket(r.me, r.cmd, Op(r, ProposalPhase)), true, {}),
     Deliver(ToClient(r.me, ProposalAck(r.cmd)), true, true),
     ServePacket(CommitPacket(r.me, r.cmd, Op(r, CommitPhase)), true, {}),
     Deliver(ToClient(r.me, CommitAck(r.cmd)), true, true),
     ServePacket(WelcomePacket(r.me, r.cmd, Op(r, WelcomePhase)), true, {}),
     Deliver(TheRelay(r), true, true),
     ServePacket(AcceptPacket(r.target, r.g, r.room, r.e, r.cmd, r.welcome), true, {}),
     Deliver(ToClient(r.me, WelcomeAck(r.cmd)), true, true)]
  }

  // ---------- The nine steps ----------

  lemma FirstStep(s: Sys, r: Round)
    requires Stage0(s, r)
    ensures Stage1(Next(s, Steps(r)[0]), r)
  {
    AddStarts(s.clients[r.me], r.me, r.cmd, r.room, r.g, r.target, r.proposal, r.commit, r.welcome);
  }

  lemma SecondStep(s: Sys, r: Round)
    requires Stage1(s, r)
    ensures Stage2(Next(s, Steps(r)[1]), r)
  {
    ServeProposal(s.db, r);
  }

  lemma ThirdStep(s: Sys, r: Round)
    requires Stage2(s, r)
    ensures Stage3(Next(s, Steps(r)[2]), r)
  {
    AcksAdvance(s.clients[r.me], r.me, r.cmd, true);
    assert CommitPacket(r.me, r.cmd, Op(r, ProposalPhase)) == CommitPacket(r.me, r.cmd, Op(r, CommitPhase));
  }

  lemma FourthStep(s: Sys, r: Round)
    requires Stage3(s, r)
    ensures Stage4(Next(s, Steps(r)[3]), r)
  {
    ServeCommit(s.db, r);
  }

  lemma FifthStep(s: Sys, r: Round)
    requires Stage4(s, r)
    ensures Stage5(Next(s, Steps(r)[4]), r)
  {
    AcksAdvance(s.clients[r.me], r.me, r.cmd, true);
    assert WelcomePacket(r.me, r.cmd, Op(r, CommitPhase)) == WelcomePacket(r.me, r.cmd, Op(r, WelcomePhase));
  }

  lemma SixthStep(s: Sys, r: Round)
    requires Stage5(s, r)
    ensures Stage6(Next(s, Steps(r)[5]), r)
  {
    ServeWelcome(s.db, r);
  }

  lemma SeventhStep(s: Sys, r: Round)
    requires Stage6(s, r)
    ensures Stage7(Next(s, Steps(r)[6]), r)
  {
    WelcomeJoins(s.clients[r.target], r.target, r.g, r.room, r.e, r.target, r.cmd, r.welcome, true);
  }

  lemma EighthStep(s: Sys, r: Round)
    requires Stage7(s, r)
    ensures Stage8(Next(s, Steps(r)[7]), r)
  {
    ServeAccept(s.db, r);
  }

  lemma NinthStep(s: Sys, r: Round)
    requires Stage8(s, r)
    ensures Finished(Next(s, Steps(r)[8]), r)
  {
    AcksAdvance(s.clients[r.me], r.me, r.cmd, true);
  }

  lemma {:induction false} RunSnoc(s: Sys, steps: seq<SysStep>, step: SysStep)
    ensures RunSys(s, steps + [step]) == Next(RunSys(s, steps), step)
    decreases |steps|
  {
    if steps == [] {
      assert (steps + [step])[1..] == [];
    } else {
      assert (steps + [step])[0] == steps[0] && (steps + [step])[1..] == steps[1..] + [step];
      RunSnoc(Next(s, steps[0]), steps[1..], step);
    }
  }

  lemma RunPrefix(s: Sys, r: Round, k: nat)
    requires k < 9
    ensures RunSys(s, Steps(r)[..k + 1]) == Next(RunSys(s, Steps(r)[..k]), Steps(r)[k])
  {
    assert Steps(r)[..k + 1] == Steps(r)[..k] + [Steps(r)[k]];
    RunSnoc(s, Steps(r)[..k], Steps(r)[k]);
  }

  ghost predicate Stage(s: Sys, r: Round, k: nat) {
    match k
    case 0 => Stage0(s, r)
    case 1 => Stage1(s, r)
    case 2 => Stage2(s, r)
    case 3 => Stage3(s, r)
    case 4 => Stage4(s, r)
    case 5 => Stage5(s, r)
    case 6 => Stage6(s, r)
    case 7 => Stage7(s, r)
    case 8 => Stage8(s, r)
    case _ => Finished(s, r)
  }

  /** Each step leads from its stage to the next. */
  lemma StepAdvances(s: Sys, r: Round, k: nat)
    requires k < 9 && Stage(s, r, k)
    ensures Stage(Next(s, Steps(r)[k]), r, k + 1)
  {
    match k
    case 0 => FirstStep(s, r);
    case 1 => SecondStep(s, r);
    case 2 => ThirdStep(s, r);
    case 3 => FourthStep(s, r);
    case 4 => FifthStep(s, r);
    case 5 => SixthStep(s, r);
    case 6 => SeventhStep(s, r);
    case 7 => EighthStep(s, r);
    case 8 => NinthStep(s, r);
  }

  lemma {:induction false} ReachesStage(s: Sys, r: Round, k: nat)
    requires k <= 9 && Stage(s, r, 0)
    ensures Stage(RunSys(s, Steps(r)[..k]), r, k)
  {
    if k == 0 {
      assert Steps(r)[..0] == [];
    } else {
      var before := k - 1;
      ReachesStage(s, r, before);
      RunPrefix(s, r, before);
      StepAdvances(RunSys(s, Steps(r)[..before]), r, before);
    }
  }

  /** The round: the user is a member, both clients are at the server's epoch and the operation
      is done. */
  lemma AddRoundCompletes(s: Sys, r: Round)
    requires Stage0(s, r)
    ensures Finished(RunSys(s, Steps(r)), r)
  {
    ReachesStage(s, r, 9);
    assert Steps(r)[..9] == Steps(r);
  }
}
