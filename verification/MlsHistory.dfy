/** Theorems over whole histories of the MLS control tables. */
module MlsHistory {
  import opened Wrappers
  import opened MlsTables
  import opened MlsInvariants

  lemma InvOfNoRows()
    ensures Inv(NO_ROWS)
  {
  }

  // ---------- Whole database ----------

  ghost predicate DbInv(db: Database) {
    forall g :: g in db ==> Inv(db[g])
  }

  function RunDb(db: Database, rs: seq<(GroupId, Request)>): Database
    decreases |rs|
  {
    if rs == [] then db else RunDb(Apply(db, rs[0].0, rs[0].1).0, rs[1..])
  }

  lemma {:induction false} RunDbKeeps(db: Database, rs: seq<(GroupId, Request)>)
    requires DbInv(db)
    ensures DbInv(RunDb(db, rs))
    decreases |rs|
  {
    if rs != [] {
      InvOfNoRows();
      StepKeeps(Rows(db, rs[0].0), rs[0].1);
      RunDbKeeps(Apply(db, rs[0].0, rs[0].1).0, rs[1..]);
    }
  }

  /** The requests of one group, in order. */
  function ForGroup(rs: seq<(GroupId, Request)>, g: GroupId): seq<Request>
    decreases |rs|
  {
    if rs == [] then []
    else if rs[0].0 == g then [rs[0].1] + ForGroup(rs[1..], g)
    else ForGroup(rs[1..], g)
  }

  /** A rejected or duplicate request changes nothing. */
  lemma OnlyStoredChanges(s: GroupTables, r: Request)
    ensures !Step(s, r).1.Stored? ==> Step(s, r).0 == s
  {
  }

  /** Groups do not interfere: a group's rows are what its own requests make of them. */
  lemma {:induction false} GroupsAreIndependent(db: Database, rs: seq<(GroupId, Request)>, g: GroupId)
    requires g != ""
    ensures Rows(RunDb(db, rs), g) == Run(Rows(db, g), ForGroup(rs, g))
    decreases |rs|
  {
    if rs != [] {
      var db' := Apply(db, rs[0].0, rs[0].1).0;
      OnlyStoredChanges(Rows(db, rs[0].0), rs[0].1);
      GroupsAreIndependent(db', rs[1..], g);
      if rs[0].0 == g {
        assert Rows(db', g) == Step(Rows(db, g), rs[0].1).0;
        assert ForGroup(rs, g)[1..] == ForGroup(rs[1..], g);
      }
    }
  }

  // ---------- Pending welcomes ----------

  /** At most one welcome of a group is pending, and it is at the group's current epoch. */
  lemma PendingIsUnique(s: GroupTables, e1: int, c1: Code, e2: int, c2: Code)
    requires Inv(s) && PendingAt(s, e1, c1) && PendingAt(s, e2, c2)
    ensures e1 == s.currentEpoch && (e1, c1) == (e2, c2)
  {
    assert WelcomeCurrent(s, e1, c1) && WelcomeCurrent(s, e2, c2);
  }

  /** The staleness test of PendingMLSWelcomes on one row of its result set. */
  predicate StaleRow(db: Database, g: GroupId, e: int) {
    e < 0 || !Rows(db, g).present || Rows(db, g).currentEpoch < 0 || e != Rows(db, g).currentEpoch
  }

  /** PendingMLSWelcomes never answers ErrMLSWelcomeStale, whatever was requested before. */
  lemma PendingNeverStale(rs: seq<(GroupId, Request)>, g: GroupId, e: int, target: Code)
    requires PendingAt(Rows(RunDb(map[], rs), g), e, target)
    ensures !StaleRow(RunDb(map[], rs), g, e)
  {
    RunDbKeeps(map[], rs);
    InvOfNoRows();
    assert WelcomeCurrent(Rows(RunDb(map[], rs), g), e, target);
  }

  // ---------- Control state ----------

  /** A group that has entered the control protocol never leaves it. */
  lemma ControlStateStays(db: Database, h: GroupId, r: Request, g: GroupId)
    requires DbInv(db) && Rows(db, g).present
    ensures Rows(Apply(db, h, r).0, g).present
  {
    InvOfNoRows();
    StepHasEffect(Rows(db, h), r);
  }

  /** A group has control state exactly if some request for it was ever stored: it stays so
      after its last member is gone, and a group without it has no row in any table. */
  lemma {:induction false} ControlStateExactly(rs: seq<Request>)
    ensures Run(NO_ROWS, rs).present <==> Log(NO_ROWS, rs) != []
    ensures !Run(NO_ROWS, rs).present ==> Run(NO_ROWS, rs) == NO_ROWS
  {
    InvOfNoRows();
    RunKeeps(NO_ROWS, rs);
    PresentIffLogged(NO_ROWS, rs);
  }

  lemma {:induction false} PresentIffLogged(s: GroupTables, rs: seq<Request>)
    requires Inv(s)
    ensures Run(s, rs).present <==> s.present || Log(s, rs) != []
    decreases |rs|
  {
    if rs != [] {
      StepKeeps(s, rs[0]);
      StepHasEffect(s, rs[0]);
      PresentIffLogged(Step(s, rs[0]).0, rs[1..]);
    }
  }

  // ---------- Dead groups ----------

  ghost predicate Dead(s: GroupTables) {
    s.present && s.currentEpoch >= 0 && ActiveMembers(s) == {}
  }

  lemma EffectKeepsDead(s: GroupTables, r: Request, s': GroupTables)
    requires Inv(s) && Dead(s) && Effect(s, r, s')
    ensures Dead(s')
  {
    assert forall e, c :: !PendingAt(s, e, c);
    forall c ensures !IsActive(s', c) { assert c !in ActiveMembers(s); }
    assert ActiveMembers(s') == {};
  }

  /** Once a group with a commit has no active member, no request sequence revives it. */
  lemma {:induction false} DeadStaysDead(s: GroupTables, rs: seq<Request>)
    requires Inv(s) && Dead(s)
    ensures Dead(Run(s, rs)) && forall c :: !IsActive(Run(s, rs), c)
    decreases |rs|
  {
    if rs != [] {
      StepHasEffect(s, rs[0]);
      if Step(s, rs[0]).1.Stored? { EffectKeepsDead(s, rs[0], Step(s, rs[0]).0); }
      StepKeeps(s, rs[0]);
      DeadStaysDead(Step(s, rs[0]).0, rs[1..]);
    } else {
      forall c ensures !IsActive(s, c) { assert c !in ActiveMembers(s); }
    }
  }

  // ---------- The chain of commits ----------

  /** No gap below the current epoch, and every commit names a proposal of its own epoch. */
  ghost predicate Chain(s: GroupTables) {
    && (forall e, f :: e in s.epochs && e <= f <= s.currentEpoch ==> f in s.epochs)
    && (forall e :: e in s.epochs ==> (e, s.epochs[e].proposalId) in s.proposals)
  }

  lemma EffectKeepsChain(s: GroupTables, r: Request, s': GroupTables)
    requires Inv(s) && Chain(s) && !IsLegacy(r) && Effect(s, r, s')
    ensures Chain(s')
  {
  }

  /** On strict histories the committed epochs are exactly an interval `first..currentEpoch`,
      each with one commit that names a proposal stored for that same epoch. */
  lemma {:induction false} StrictCommitsAreContiguous(rs: seq<Request>) returns (first: int)
    requires forall r :: r in rs ==> !IsLegacy(r)
    ensures var s := Run(NO_ROWS, rs);
      && (forall e :: e in s.epochs <==> first <= e <= s.currentEpoch)
      && (forall e :: e in s.epochs ==> (e, s.epochs[e].proposalId) in s.proposals)
  {
    InvOfNoRows();
    RunKeeps(NO_ROWS, rs);
    RunKeepsChain(NO_ROWS, rs);
    first := LowestEpoch(Run(NO_ROWS, rs), Run(NO_ROWS, rs).currentEpoch + 1);
  }

  lemma {:induction false} RunKeepsChain(s: GroupTables, rs: seq<Request>)
    requires Inv(s) && Chain(s)
    requires forall r :: r in rs ==> !IsLegacy(r)
    ensures Chain(Run(s, rs))
    decreases |rs|
  {
    if rs != [] {
      StepKeeps(s, rs[0]);
      StepHasEffect(s, rs[0]);
      if Step(s, rs[0]).1.Stored? { EffectKeepsChain(s, rs[0], Step(s, rs[0]).0); }
      RunKeepsChain(Step(s, rs[0]).0, rs[1..]);
    }
  }

  lemma {:induction false} LowestEpoch(s: GroupTables, from: int) returns (first: int)
    requires Inv(s) && Chain(s)
    requires 0 <= from <= s.currentEpoch + 1
    requires forall e :: from <= e <= s.currentEpoch ==> e in s.epochs
    ensures forall e :: e in s.epochs <==> first <= e <= s.currentEpoch
    decreases from
  {
    if from > 0 && from - 1 in s.epochs {
      first := LowestEpoch(s, from - 1);
    } else {
      first := from;
    }
  }

  /** With legacy commits mixed in, the current epoch is still the greatest committed one. */
  lemma CurrentEpochIsMaximum(rs: seq<Request>)
    ensures var s := Run(NO_ROWS, rs);
      && (forall e :: e in s.epochs ==> e <= s.currentEpoch)
      && (s.epochs == map[] ==> s.currentEpoch == -1)
      && (s.epochs != map[] ==> s.currentEpoch in s.epochs)
  {
    InvOfNoRows();
    RunKeeps(NO_ROWS, rs);
    var s := Run(NO_ROWS, rs);
    if s.currentEpoch < 0 {
      forall e ensures e !in s.epochs { }
      assert s.epochs == map[];
    }
  }

  // ---------- Sending a request again ----------

  /** The rows that a successful request leaves behind. */
  ghost predicate Settled(s: GroupTables, r: Request) {
    match r
    case Propose(_, _, _, _, e, pid, data) => (e, pid) in s.proposals || DigestStored(s, e, Sha256(data))
    case LegacyPropose(_, e, pid, data) => (e, pid) in s.proposals || DigestStored(s, e, Sha256(data))
    case Commit(_, _, _, e, _) => e in s.epochs
    case LegacyCommit(_, e, _) => e in s.epochs
    case Welcome(_, _, e, target, _, _) => (e, target) in s.welcomes
    case LegacyWelcome(_, e, target, _) => (e, target) in s.welcomes
    case Accept(_, target, e, pid, digest) => (e, target) in s.welcomes && s.welcomes[(e, target)].accepted
  }

  lemma SuccessSettles(s: GroupTables, r: Request)
    requires !Step(s, r).1.Rejected?
    ensures Settled(Step(s, r).0, r)
  {
  }

  lemma SettledIsNoOp(s: GroupTables, r: Request)
    requires Settled(s, r)
    ensures Step(s, r).0 == s && !Step(s, r).1.Stored?
  {
  }

  /** No transaction deletes or changes a proposal or a commit, deletes a welcome, takes an
      acceptance back or lowers the current epoch. */
  ghost predicate Extends(s: GroupTables, s': GroupTables) {
    && (forall k :: k in s.proposals ==> k in s'.proposals && s'.proposals[k] == s.proposals[k])
    && (forall e :: e in s.epochs ==> e in s'.epochs && s'.epochs[e] == s.epochs[e])
    && (forall k :: k in s.welcomes ==> k in s'.welcomes && (s.welcomes[k].accepted ==> s'.welcomes[k].accepted))
    && s.currentEpoch <= s'.currentEpoch
  }

  lemma EffectExtends(s: GroupTables, r: Request, s': GroupTables)
    requires EpochsOk(s) && Effect(s, r, s')
    ensures Extends(s, s')
  {
  }

  lemma StepExtends(s: GroupTables, r: Request)
    requires EpochsOk(s)
    ensures Extends(s, Step(s, r).0)
  {
    StepHasEffect(s, r);
    if Step(s, r).1.Stored? { EffectExtends(s, r, Step(s, r).0); }
  }

  lemma SettledIsStable(s: GroupTables, r: Request, s': GroupTables)
    requires Settled(s, r) && Extends(s, s')
    ensures Settled(s', r)
  {
    if (r.Propose? || r.LegacyPropose?) && DigestStored(s, r.epoch, Sha256(r.proposal)) {
      var k :| k in s.proposals && k.0 == r.epoch && s.proposals[k].digest == Sha256(r.proposal);
      assert k in s'.proposals;
    }
  }

  /** A request that once succeeded changes no table when it is sent again at any later time. */
  lemma {:induction false} ResendIsNoOp(s: GroupTables, r: Request, later: seq<Request>)
    requires Inv(s) && Settled(s, r)
    ensures Step(Run(s, later), r).0 == Run(s, later)
    decreases |later|
  {
    if later == [] {
      SettledIsNoOp(s, r);
    } else {
      StepKeeps(s, later[0]);
      StepExtends(s, later[0]);
      SettledIsStable(s, r, Step(s, later[0]).0);
      ResendIsNoOp(Step(s, later[0]).0, r, later[1..]);
    }
  }

  /** ... in particular an old accept never re-activates a member removed since. */
  lemma OldRequestNeverReactivates(s: GroupTables, r: Request, later: seq<Request>, c: Code)
    requires Inv(s) && !Step(s, r).1.Rejected?
    ensures var t := Run(Step(s, r).0, later);
      && Step(t, r).0 == t
      && (IsActive(Step(t, r).0, c) <==> IsActive(t, c))
  {
    SuccessSettles(s, r);
    StepKeeps(s, r);
    ResendIsNoOp(Step(s, r).0, r, later);
  }

  // ---------- Membership as a replay of the history ----------

  /** The successful requests of a history, in order: what an audit log would hold. */
  function Log(s: GroupTables, rs: seq<Request>): seq<Request>
    decreases |rs|
  {
    if rs == [] then []
    else
      var (s', out) := Step(s, rs[0]);
      (if out.Stored? then [rs[0]] else []) + Log(s', rs[1..])
  }

  /** The logged proposal of an epoch and id. */
  function LoggedProposal(log: seq<Request>, e: int, pid: ProposalId): Option<Request> {
    if log == [] then None
    else
      var r := log[|log| - 1];
      if (r.Propose? || r.LegacyPropose?) && r.epoch == e && r.proposalId == pid then Some(r)
      else LoggedProposal(log[..|log| - 1], e, pid)
  }

  predicate HasCommit(log: seq<Request>) {
    exists r | r in log :: r.Commit? || r.LegacyCommit?
  }

  /** The logged commit `r` carries a logged proposal that removes `c`. */
  predicate Removes(log: seq<Request>, r: Request, c: Code) {
    && r.Commit?
    && LoggedProposal(log, r.epoch, r.proposalId).Some?
    && LoggedProposal(log, r.epoch, r.proposalId).value.Propose?
    && LoggedProposal(log, r.epoch, r.proposalId).value.action == Remove
    && LoggedProposal(log, r.epoch, r.proposalId).value.target == c
  }

  datatype Event = Never | Bootstrapped | Joined(epoch: int) | Removed(epoch: int)

  /** The last thing that happened to `c`: it created the group, it accepted a welcome, or a
      commit removed it. A proposal creates the group when nobody is in it and nothing has
      been committed. */
  ghost function LastEvent(log: seq<Request>, c: Code): Event
    decreases |log|, 0
  {
    if log == [] then Never
    else
      var before, r := log[..|log| - 1], log[|log| - 1];
      if r.Propose? && r.sender == c && !HasCommit(before) && NobodyIn(before) then Bootstrapped
      else if r.Accept? && r.target == c then Joined(r.epoch)
      else if Removes(before, r, c) then Removed(r.epoch)
      else LastEvent(before, c)
  }

  ghost predicate IsIn(log: seq<Request>, c: Code)
    decreases |log|, 1
  {
    LastEvent(log, c).Bootstrapped? || LastEvent(log, c).Joined?
  }

  ghost predicate NobodyIn(log: seq<Request>)
    decreases |log|, 2
  {
    forall c: Code :: !IsIn(log, c)
  }

  /** The proposals table holds the logged proposals, and there is a current epoch as soon as
      a commit is logged. */
  ghost predicate ProposalsReplay(s: GroupTables, log: seq<Request>) {
    && (forall e, pid :: (e, pid) in s.proposals <==> LoggedProposal(log, e, pid).Some?)
    && (forall e, pid :: (e, pid) in s.proposals ==>
          var r := LoggedProposal(log, e, pid).value; var p := s.proposals[(e, pid)];
          if r.Propose? then p.action == r.action && p.target == r.target else p.action == Add)
    && (s.currentEpoch >= 0 <==> HasCommit(log))
  }

  ghost predicate MembersReplay(s: GroupTables, log: seq<Request>) {
    forall c ::
      && (IsActive(s, c) <==> IsIn(log, c))
      && (IsActive(s, c) && LastEvent(log, c).Joined? ==> s.members[c].joinedEpoch == LastEvent(log, c).epoch)
  }

  /** How the tables relate to the log of the requests that made them. */
  ghost predicate Replays(s: GroupTables, log: seq<Request>) {
    ProposalsReplay(s, log) && MembersReplay(s, log)
  }

  lemma LoggedType(log: seq<Request>, e: int, pid: ProposalId)
    requires LoggedProposal(log, e, pid).Some?
    ensures LoggedProposal(log, e, pid).value.Propose? || LoggedProposal(log, e, pid).value.LegacyPropose?
  {
  }

  lemma EffectReplaysProposals(s: GroupTables, log: seq<Request>, r: Request, s': GroupTables)
    requires Inv(s) && ProposalsReplay(s, log) && Effect(s, r, s')
    ensures ProposalsReplay(s', log + [r])
  {
    var log' := log + [r];
    assert log'[..|log'| - 1] == log && log'[|log'| - 1] == r;
    assert HasCommit(log') <==> HasCommit(log) || r.Commit? || r.LegacyCommit?;
  }

  lemma NobodyInIffNoneActive(s: GroupTables, log: seq<Request>)
    requires MembersReplay(s, log)
    ensures NobodyIn(log) <==> ActiveMembers(s) == {}
  {
    if NobodyIn(log) {
      forall c ensures c !in ActiveMembers(s) { assert !IsIn(log, c); }
    }
    if ActiveMembers(s) == {} {
      forall c ensures !IsIn(log, c) { assert c !in ActiveMembers(s); }
    }
  }

  lemma EffectReplaysMember(s: GroupTables, log: seq<Request>, r: Request, s': GroupTables, c: Code)
    requires Inv(s) && Replays(s, log) && Effect(s, r, s')
    ensures IsActive(s', c) <==> IsIn(log + [r], c)
    ensures IsActive(s', c) && LastEvent(log + [r], c).Joined? ==>
              s'.members[c].joinedEpoch == LastEvent(log + [r], c).epoch
  {
    var log' := log + [r];
    assert log'[..|log'| - 1] == log && log'[|log'| - 1] == r;
    NobodyInIffNoneActive(s, log);
    assert IsActive(s, c) <==> IsIn(log, c);
    if r.Commit? { LoggedType(log, r.epoch, r.proposalId); }
  }

  lemma EffectReplays(s: GroupTables, log: seq<Request>, r: Request, s': GroupTables)
    requires Inv(s) && Replays(s, log) && Effect(s, r, s')
    ensures Replays(s', log + [r])
  {
    EffectReplaysProposals(s, log, r, s');
    forall c
      ensures IsActive(s', c) <==> IsIn(log + [r], c)
      ensures IsActive(s', c) && LastEvent(log + [r], c).Joined? ==>
                s'.members[c].joinedEpoch == LastEvent(log + [r], c).epoch
    { EffectReplaysMember(s, log, r, s', c); }
  }

  function Logged(s: GroupTables, log: seq<Request>, r: Request): seq<Request> {
    if Step(s, r).1.Stored? then log + [r] else log
  }

  lemma StepReplays(s: GroupTables, log: seq<Request>, r: Request)
    requires Inv(s) && Replays(s, log)
    ensures Replays(Step(s, r).0, Logged(s, log, r))
  {
    StepHasEffect(s, r);
    if Step(s, r).1.Stored? { EffectReplays(s, log, r, Step(s, r).0); }
  }

  lemma {:induction false} LogUnfolds(s: GroupTables, log: seq<Request>, rs: seq<Request>)
    requires rs != []
    ensures log + Log(s, rs) == Logged(s, log, rs[0]) + Log(Step(s, rs[0]).0, rs[1..])
  {
    var r, tail := rs[0], Log(Step(s, rs[0]).0, rs[1..]);
    assert log + ([r] + tail) == (log + [r]) + tail;
    assert [] + tail == tail;
  }

  /** Membership is exactly the replay of the log: a user is active if and only if the last
      event about it is the creator bootstrap or an accepted welcome, not a committed remove. */
  lemma {:induction false} MembershipIsReplay(s: GroupTables, log: seq<Request>, rs: seq<Request>)
    requires Inv(s) && Replays(s, log)
    ensures Replays(Run(s, rs), log + Log(s, rs))
    decreases |rs|
  {
    if rs == [] {
      assert log + Log(s, rs) == log;
    } else {
      StepKeeps(s, rs[0]);
      StepReplays(s, log, rs[0]);
      LogUnfolds(s, log, rs);
      MembershipIsReplay(Step(s, rs[0]).0, Logged(s, log, rs[0]), rs[1..]);
    }
  }

  /** From an untouched group on: who is active, and since and until when. An inactive row
      tells a committed remove of that user that is not before the user joined. */
  lemma MembershipTheorem(rs: seq<Request>, c: Code)
    ensures var s := Run(NO_ROWS, rs);
      && (IsActive(s, c) <==> IsIn(Log(NO_ROWS, rs), c))
      && (c in s.members && !s.members[c].active ==>
            && s.members[c].removedEpoch.Some?
            && s.members[c].joinedEpoch <= s.members[c].removedEpoch.value <= s.currentEpoch
            && CommittedRemove(s, s.members[c].removedEpoch.value, c))
  {
    InvOfNoRows();
    RunKeeps(NO_ROWS, rs);
    assert Replays(NO_ROWS, []);
    MembershipIsReplay(NO_ROWS, [], rs);
    assert [] + Log(NO_ROWS, rs) == Log(NO_ROWS, rs);
    var s := Run(NO_ROWS, rs);
    if c in s.members { assert MemberOk(s, c); }
  }
}
