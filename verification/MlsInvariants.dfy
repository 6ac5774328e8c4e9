/** What every transaction keeps, strict and legacy mixed. */
module MlsInvariants {
  import opened Wrappers
  import opened MlsTables

  /** Committed epochs lie between 0 and the group's current epoch, which is one of them. */
  ghost predicate EpochsOk(s: GroupTables) {
    && -1 <= s.currentEpoch
    && (!s.present ==> s == NO_ROWS)
    && (forall e :: e in s.epochs ==> 0 <= e <= s.currentEpoch && s.epochs[e].commit != "")
    && (s.currentEpoch >= 0 ==> s.currentEpoch in s.epochs)
  }

  ghost predicate ProposalsOk(s: GroupTables) {
    forall e, p :: (e, p) in s.proposals ==>
      && 0 <= e
      && p != ""
      && s.proposals[(e, p)].digest == Sha256(s.proposals[(e, p)].data)
      && "" !in s.proposals[(e, p)].snapshot
  }

  /** The welcome of an add that was committed at the group's current epoch. */
  ghost predicate WelcomeCurrent(s: GroupTables, e: int, c: Code)
    requires (e, c) in s.welcomes
  {
    var w := s.welcomes[(e, c)];
    && s.currentEpoch == e
    && e in s.epochs
    && s.epochs[e].proposalId == w.proposalId
    && (e, w.proposalId) in s.proposals
    && s.proposals[(e, w.proposalId)].action == Add
    && s.proposals[(e, w.proposalId)].target == c
    && w.digest == Sha256(w.welcome)
  }

  ghost predicate WelcomesOk(s: GroupTables) {
    && (forall e, c :: (e, c) in s.welcomes ==> 0 <= e && c != "")
    && (forall e, c :: PendingAt(s, e, c) ==> WelcomeCurrent(s, e, c) && ActiveMembers(s) != {})
  }

  /** The commit of epoch `e` carries a proposal that removes `c`. */
  ghost predicate CommittedRemove(s: GroupTables, e: int, c: Code) {
    && e in s.epochs
    && (e, s.epochs[e].proposalId) in s.proposals
    && s.proposals[(e, s.epochs[e].proposalId)].action == Remove
    && s.proposals[(e, s.epochs[e].proposalId)].target == c
  }

  ghost predicate MemberOk(s: GroupTables, c: Code)
    requires c in s.members
  {
    var m := s.members[c];
    && c != ""
    && 0 <= m.joinedEpoch
    && (m.joinedEpoch == 0 || m.joinedEpoch <= s.currentEpoch)
    && (m.active <==> m.removedEpoch == None)
    && (!m.active ==> m.joinedEpoch <= m.removedEpoch.value && CommittedRemove(s, m.removedEpoch.value, c))
  }

  ghost predicate MembersOk(s: GroupTables) {
    forall c :: c in s.members ==> MemberOk(s, c)
  }

  ghost predicate Inv(s: GroupTables) {
    EpochsOk(s) && ProposalsOk(s) && WelcomesOk(s) && MembersOk(s)
  }

  // ---------- What a stored request does ----------

  /** Nothing but the rows of the named table and the group row changes. */
  ghost predicate SameBut(s: GroupTables, s': GroupTables,
                          epochs: bool, proposals: bool, welcomes: bool, members: bool) {
    && s'.present
    && (!epochs ==> s'.epochs == s.epochs && s'.currentEpoch == s.currentEpoch)
    && (!proposals ==> s'.proposals == s.proposals)
    && (!welcomes ==> s'.welcomes == s.welcomes)
    && (!members ==> s'.members == s.members)
  }

  /** The guards a stored request has passed and the rows it has written. */
  ghost predicate Effect(s: GroupTables, r: Request, s': GroupTables) {
    match r
    case Propose(room, sender, action, target, e, pid, data) =>
      && SameBut(s, s', false, true, false, true)
      && !HasPendingWelcome(s) && s.currentEpoch <= e
      && pid != "" && sender != "" && (e, pid) !in s.proposals
      && s'.members == BootstrapMembers(s, sender)
      && IsActive(s', sender) && (action == Remove <==> IsActive(s', target))
      && s'.proposals == s.proposals[(e, pid) := ProposalRow(data, Sha256(data), action, target, ActiveMembers(s'))]
    case LegacyPropose(room, e, pid, data) =>
      && SameBut(s, s', false, true, false, false)
      && !HasPendingWelcome(s)
      && pid != "" && (e, pid) !in s.proposals
      && s'.proposals == s.proposals[(e, pid) := ProposalRow(data, Sha256(data), Add, "", {})]
    case Commit(room, sender, pid, e, commit) =>
      && SameBut(s, s', true, false, false, true)
      && !HasPendingWelcome(s)
      && s.currentEpoch < e && (s.currentEpoch >= 0 ==> e == s.currentEpoch + 1)
      && IsActive(s, sender) && (e, pid) in s.proposals
      && commit != "" && s'.currentEpoch == e && s'.epochs == s.epochs[e := EpochRow(pid, commit)]
      && s'.members ==
         (var p := s.proposals[(e, pid)];
          if p.action == Remove && IsActive(s, p.target)
          then s.members[p.target := s.members[p.target].(active := false, removedEpoch := Some(e))]
          else s.members)
    case LegacyCommit(room, e, commit) =>
      && SameBut(s, s', true, false, false, false)
      && !HasPendingWelcome(s)
      && s.currentEpoch < e
      && commit != "" && s'.currentEpoch == e && s'.epochs == s.epochs[e := EpochRow("", commit)]
    case Welcome(room, sender, e, target, pid, welcome) =>
      && SameBut(s, s', false, false, true, false)
      && s.currentEpoch == e && e in s.epochs && s.epochs[e].proposalId == pid && IsActive(s, sender)
      && (e, pid) in s.proposals && s.proposals[(e, pid)].action == Add && s.proposals[(e, pid)].target == target
      && target != "" && (e, target) !in s.welcomes
      && s'.welcomes == s.welcomes[(e, target) := WelcomeRow(welcome, pid, Sha256(welcome), false)]
    case LegacyWelcome(room, e, target, welcome) =>
      && SameBut(s, s', false, false, true, false)
      && target != "" && (e, target) !in s.welcomes
      && s'.welcomes == s.welcomes[(e, target) := WelcomeRow(welcome, "", NoDigest, true)]
    case Accept(room, target, e, pid, digest) =>
      && SameBut(s, s', false, false, true, true)
      && PendingAt(s, e, target)
      && s'.welcomes == s.welcomes[(e, target) := s.welcomes[(e, target)].(accepted := true)]
      && s'.members == s.members[target := MemberRow(true, e, None)]
  }

  lemma ProposeHasEffect(s: GroupTables, r: Request)
    requires EpochsOk(s) && r.Propose? && Step(s, r).1.Stored?
    ensures Effect(s, r, Step(s, r).0)
  {
    var s1 := WithGroup(s, r.room).(members := BootstrapMembers(s, r.sender));
    assert ActiveMembers(Step(s, r).0) == ActiveMembers(s1);
  }

  lemma LegacyProposeHasEffect(s: GroupTables, room: Room, e: nat, pid: ProposalId, data: Payload)
    requires EpochsOk(s) && LegacyProposeTx(s, room, e, pid, data).1.Stored?
    ensures Effect(s, LegacyPropose(room, e, pid, data), LegacyProposeTx(s, room, e, pid, data).0)
  {
  }

  lemma LegacyCommitHasEffect(s: GroupTables, room: Room, e: nat, commit: Payload)
    requires EpochsOk(s) && LegacyCommitTx(s, room, e, commit).1.Stored?
    ensures Effect(s, LegacyCommit(room, e, commit), LegacyCommitTx(s, room, e, commit).0)
  {
  }

  lemma LegacyWelcomeHasEffect(s: GroupTables, r: Request)
    requires EpochsOk(s) && r.LegacyWelcome? && Step(s, r).1.Stored?
    ensures Effect(s, r, Step(s, r).0)
  {
  }

  lemma CommitHasEffect(s: GroupTables, r: Request)
    requires EpochsOk(s) && r.Commit? && Step(s, r).1.Stored?
    ensures Effect(s, r, Step(s, r).0)
  {
  }

  /** Every request changes nothing or has its effect. */
  lemma StepHasEffect(s: GroupTables, r: Request)
    requires EpochsOk(s)
    ensures var (s', out) := Step(s, r); if out.Stored? then Effect(s, r, s') else s' == s
  {
    if Step(s, r).1.Stored? {
      if r.Propose? { ProposeHasEffect(s, r); }
      else if r.LegacyPropose? { LegacyProposeHasEffect(s, r.room, r.epoch, r.proposalId, r.proposal); }
      else if r.LegacyCommit? { LegacyCommitHasEffect(s, r.room, r.epoch, r.commit); }
      else if r.LegacyWelcome? { LegacyWelcomeHasEffect(s, r); }
      else if r.Commit? { CommitHasEffect(s, r); }
    }
  }

  // ---------- One transaction ----------

  /** A pending welcome is always seen by the guard of the commit and proposal paths. */
  lemma PendingBlocks(s: GroupTables, e: int, c: Code)
    requires WelcomesOk(s) && PendingAt(s, e, c)
    ensures HasPendingWelcome(s)
  {
    assert WelcomeCurrent(s, e, c);
    assert (e, c) in s.welcomes;
  }

  lemma NothingPending(s: GroupTables, s': GroupTables)
    requires WelcomesOk(s) && !HasPendingWelcome(s) && s'.welcomes == s.welcomes
    ensures forall e, c :: !PendingAt(s', e, c)
  {
    forall e, c ensures !PendingAt(s', e, c) {
      if PendingAt(s, e, c) { PendingBlocks(s, e, c); }
    }
  }

  /** The creator's row is new: a group without active members and without commits has no
      inactive member either. */
  lemma BootstrapIsFresh(s: GroupTables, sender: Code)
    requires Inv(s) && sender != ""
    ensures BootstrapMembers(s, sender) == s.members
         || BootstrapMembers(s, sender) == s.members[sender := MemberRow(true, 0, None)]
  {
    if sender in s.members && s.currentEpoch < 0 { assert MemberOk(s, sender); }
  }

  /** Storing a proposal. */
  lemma ProposalKeeps(s: GroupTables, r: Request, s': GroupTables)
    requires Inv(s) && (r.Propose? || r.LegacyPropose?) && Effect(s, r, s')
    ensures Inv(s')
  {
    NothingPending(s, s');
    if r.Propose? { BootstrapIsFresh(s, r.sender); }
    forall c | c in s'.members ensures MemberOk(s', c) {
      if c in s.members { assert MemberOk(s, c); }
    }
  }

  /** Storing a commit. */
  lemma CommitKeeps(s: GroupTables, r: Request, s': GroupTables)
    requires Inv(s) && (r.Commit? || r.LegacyCommit?) && Effect(s, r, s')
    ensures Inv(s')
  {
    NothingPending(s, s');
    forall c | c in s'.members ensures MemberOk(s', c) { assert MemberOk(s, c); }
  }

  /** Storing or accepting a welcome. */
  lemma WelcomeKeeps(s: GroupTables, r: Request, s': GroupTables)
    requires Inv(s) && (r.Welcome? || r.LegacyWelcome? || r.Accept?) && Effect(s, r, s')
    ensures Inv(s')
  {
    assert r.Welcome? ==> r.sender in ActiveMembers(s');
    assert r.Accept? ==> r.target in ActiveMembers(s') && WelcomeCurrent(s, r.epoch, r.target);
    assert r.LegacyWelcome? ==> ActiveMembers(s') == ActiveMembers(s);
    forall e, c | PendingAt(s', e, c) ensures WelcomeCurrent(s', e, c) && ActiveMembers(s') != {} {
      assert PendingAt(s, e, c) || (r.Welcome? && (e, c) == (r.epoch as int, r.target));
    }
    forall c | c in s'.members ensures MemberOk(s', c) {
      if c in s.members { assert MemberOk(s, c); }
    }
  }

  /** Every request, accepted or refused, strict or legacy, keeps the invariant. */
  lemma StepKeeps(s: GroupTables, r: Request)
    requires Inv(s)
    ensures Inv(Step(s, r).0)
  {
    StepHasEffect(s, r);
    if Step(s, r).1.Stored? {
      EffectKeeps(s, r, Step(s, r).0);
    }
  }

  lemma EffectKeeps(s: GroupTables, r: Request, s': GroupTables)
    requires Inv(s) && Effect(s, r, s')
    ensures Inv(s')
  {
    if r.Propose? || r.LegacyPropose? { ProposalKeeps(s, r, s'); }
    else if r.Commit? || r.LegacyCommit? { CommitKeeps(s, r, s'); }
    else { WelcomeKeeps(s, r, s'); }
  }

  /** ... and so does every sequence of requests. */
  lemma {:induction false} RunKeeps(s: GroupTables, rs: seq<Request>)
    requires Inv(s)
    ensures Inv(Run(s, rs))
    decreases |rs|
  {
    if rs != [] {
      StepKeeps(s, rs[0]);
      RunKeeps(Step(s, rs[0]).0, rs[1..]);
    }
  }
}
