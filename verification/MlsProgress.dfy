/** When the MLS transactions accept a request, which refusal they give otherwise, and that the
    protocol can always go on: every epoch can be reached and members can join and leave. */
module MlsProgress {
  import opened Wrappers
  import opened MlsTables
  import opened MlsInvariants
  import opened MlsHistory

  /** Some welcome of the group is not accepted yet. */
  ghost predicate SomePending(s: GroupTables) {
    exists e, c :: PendingAt(s, e, c)
  }

  /** The guard query sees exactly the pending welcomes. */
  lemma PendingExactly(s: GroupTables)
    requires WelcomesOk(s)
    ensures HasPendingWelcome(s) <==> SomePending(s)
  {
    if SomePending(s) {
      var e, c :| PendingAt(s, e, c);
      PendingBlocks(s, e, c);
    }
    if HasPendingWelcome(s) {
      var k :| k in s.welcomes && !s.welcomes[k].accepted;
      assert PendingAt(s, k.0, k.1);
    }
  }

  // ---------- Commit ----------

  /** The commit may be the next one of the group. */
  ghost predicate NextCommit(s: GroupTables, e: nat) {
    s.currentEpoch < 0 || e == s.currentEpoch + 1
  }

  predicate CommitFields(room: Room, sender: Code, e: nat, commit: Payload) {
    room != "" && sender != "" && commit != "" && e <= MAX_EPOCH
  }

  /** A new commit is stored exactly if the group exists in that room, nothing is pending, the
      epoch is the next one, the sender is active and the proposal is stored for that epoch. */
  lemma CommitStoredExactly(s: GroupTables, room: Room, sender: Code, pid: ProposalId, e: nat, commit: Payload)
    requires Inv(s)
    ensures var out := Step(s, Commit(room, sender, pid, e, commit)).1;
      out.Stored? <==>
        && CommitFields(room, sender, e, commit) && e !in s.epochs
        && s.present && s.room == room && !SomePending(s) && NextCommit(s, e)
        && IsActive(s, sender) && (e, pid) in s.proposals
  {
    PendingExactly(s);
  }

  /** Which refusal a new commit gets: the guards in their order of precedence. */
  lemma CommitRefusals(s: GroupTables, room: Room, sender: Code, pid: ProposalId, e: nat, commit: Payload)
    requires Inv(s) && CommitFields(room, sender, e, commit) && e !in s.epochs
    ensures var out := Step(s, Commit(room, sender, pid, e, commit)).1;
      var here := s.present && s.room == room;
      var free := here && !SomePending(s);
      && (!s.present ==> out == Rejected(MemberRequired))
      && (s.present && s.room != room ==> out == Rejected(CommitConflict))
      && (here && SomePending(s) ==> out == Rejected(PendingWelcome))
      && (free && e < s.currentEpoch ==> out == Rejected(EpochRollback))
      && (free && 0 <= s.currentEpoch && s.currentEpoch + 1 < e ==> out == Rejected(CommitConflict))
      && (free && NextCommit(s, e) && !IsActive(s, sender) ==> out == Rejected(MemberRequired))
      && (free && NextCommit(s, e) && IsActive(s, sender) && (e, pid) !in s.proposals ==>
            out == Rejected(ProposalMissing))
  {
    PendingExactly(s);
  }

  /** A commit of a committed epoch is a duplicate for an active sender who repeats it, and
      refused otherwise. */
  lemma CommitOfKnownEpoch(s: GroupTables, room: Room, sender: Code, pid: ProposalId, e: nat, commit: Payload)
    requires Inv(s) && CommitFields(room, sender, e, commit) && e in s.epochs
    ensures var out := Step(s, Commit(room, sender, pid, e, commit)).1;
      && (out.Duplicate? <==> IsActive(s, sender) && s.epochs[e] == EpochRow(pid, commit))
      && (!IsActive(s, sender) ==> out == Rejected(MemberRequired))
      && (IsActive(s, sender) && s.epochs[e] != EpochRow(pid, commit) ==> out == Rejected(CommitConflict))
  {
  }

  // ---------- Propose ----------

  /** Nobody is in the group and nothing was committed: the proposer becomes its creator. */
  ghost predicate Creates(s: GroupTables) {
    s.currentEpoch < 0 && forall c :: !IsActive(s, c)
  }

  ghost predicate SameProposal(s: GroupTables, e: int, data: Payload) {
    exists pid :: (e, pid) in s.proposals && s.proposals[(e, pid)].data == data
  }

  /** After the bootstrap, `c` is active exactly if it was, or created the group. */
  ghost predicate ActiveAfter(s: GroupTables, sender: Code, c: Code) {
    IsActive(s, c) || (Creates(s) && c == sender)
  }

  predicate ProposeFields(room: Room, sender: Code, target: Code, e: nat, pid: ProposalId, data: Payload) {
    room != "" && sender != "" && target != "" && pid != "" && data != "" && e <= MAX_EPOCH
  }

  lemma DigestExactly(s: GroupTables, e: int, data: Payload)
    requires ProposalsOk(s)
    ensures DigestStored(s, e, Sha256(data)) <==> SameProposal(s, e, data)
  {
    if DigestStored(s, e, Sha256(data)) {
      var k :| k in s.proposals && k.0 == e && s.proposals[k].digest == Sha256(data);
      assert (k.0, k.1) in s.proposals && k == (k.0, k.1);
      assert s.proposals[(e, k.1)].data == data;
    }
    if SameProposal(s, e, data) {
      var pid :| (e, pid) in s.proposals && s.proposals[(e, pid)].data == data;
      assert s.proposals[(e, pid)].digest == Sha256(data);
    }
  }

  lemma BootstrapExactly(s: GroupTables, sender: Code, room: Room, c: Code)
    requires Inv(s) && sender != ""
    ensures IsActive(WithGroup(s, room).(members := BootstrapMembers(s, sender)), c) <==> ActiveAfter(s, sender, c)
  {
    BootstrapIsFresh(s, sender);
    if Creates(s) { forall d ensures d !in ActiveMembers(s) { } assert ActiveMembers(s) == {}; }
    if ActiveMembers(s) == {} { forall d ensures !IsActive(s, d) { assert d !in ActiveMembers(s); } }
  }

  /** A new proposal is stored exactly under these conditions. */
  ghost predicate MayPropose(s: GroupTables, room: Room, sender: Code, action: Action, target: Code, e: nat) {
    && (s.present ==> (s.room == "" || s.room == room) && s.currentEpoch <= e)
    && !SomePending(s)
    && ActiveAfter(s, sender, sender)
    && (action == Remove <==> ActiveAfter(s, sender, target))
  }

  lemma ProposeStoredExactly(s: GroupTables, room: Room, sender: Code, action: Action, target: Code, e: nat,
                             pid: ProposalId, data: Payload)
    requires Inv(s)
    ensures var out := Step(s, Propose(room, sender, action, target, e, pid, data)).1;
      out.Stored? <==>
        && ProposeFields(room, sender, target, e, pid, data)
        && (e as int, pid) !in s.proposals && !SameProposal(s, e, data)
        && MayPropose(s, room, sender, action, target, e)
  {
    PendingExactly(s);
    DigestExactly(s, e, data);
    if sender != "" {
      BootstrapExactly(s, sender, room, sender);
      BootstrapExactly(s, sender, room, target);
    }
  }

  lemma ProposeRefusals(s: GroupTables, room: Room, sender: Code, action: Action, target: Code, e: nat,
                        pid: ProposalId, data: Payload)
    requires Inv(s) && ProposeFields(room, sender, target, e, pid, data)
    requires (e as int, pid) !in s.proposals && !SameProposal(s, e, data)
    ensures var out := Step(s, Propose(room, sender, action, target, e, pid, data)).1;
      var here := s.present ==> s.room == "" || s.room == room;
      var free := here && (s.present ==> s.currentEpoch <= e) && !SomePending(s);
      && (!here ==> out == Rejected(ProposalConflict))
      && (here && s.present && e < s.currentEpoch ==> out == Rejected(EpochRollback))
      && (here && (s.present ==> s.currentEpoch <= e) && SomePending(s) ==> out == Rejected(PendingWelcome))
      && (free && !ActiveAfter(s, sender, sender) ==> out == Rejected(MemberRequired))
      && (free && ActiveAfter(s, sender, sender) && action == Add && ActiveAfter(s, sender, target) ==>
            out == Rejected(MemberConflict))
      && (free && ActiveAfter(s, sender, sender) && action == Remove && !ActiveAfter(s, sender, target) ==>
            out == Rejected(MemberRequired))
  {
    PendingExactly(s);
    DigestExactly(s, e, data);
    BootstrapExactly(s, sender, room, sender);
    BootstrapExactly(s, sender, room, target);
  }

  /** A proposal under a known id is a duplicate for an active sender who repeats it; a payload
      known under another id of the epoch is a duplicate for anybody. */
  lemma ProposeOfKnown(s: GroupTables, room: Room, sender: Code, action: Action, target: Code, e: nat,
                       pid: ProposalId, data: Payload)
    requires Inv(s) && ProposeFields(room, sender, target, e, pid, data)
    ensures var out := Step(s, Propose(room, sender, action, target, e, pid, data)).1;
      && ((e as int, pid) in s.proposals ==>
            var p := s.proposals[(e as int, pid)];
            var same := p.data == data && p.action == action && p.target == target;
            && (IsActive(s, sender) && same ==> out == Duplicate(Membership(p.action, p.target, p.snapshot)))
            && (IsActive(s, sender) && !same ==> out == Rejected(ProposalConflict))
            && (!IsActive(s, sender) ==> out == Rejected(MemberRequired)))
      && ((e as int, pid) !in s.proposals && SameProposal(s, e, data) ==> out == Duplicate(NoMembership))
  {
    DigestExactly(s, e, data);
  }

  /** What a stored proposal and a stored commit report: the stored proposal's action, target
      and the members before the change. */
  lemma ReportedMembership(s: GroupTables, r: Request)
    requires Inv(s) && (r.Propose? || r.Commit?) && Step(s, r).1.Stored?
    ensures var (s', out) := Step(s, r); var k := (r.epoch as int, r.proposalId);
      && k in s'.proposals
      && var p := s'.proposals[k]; out.membership == Membership(p.action, p.target, p.snapshot)
    ensures r.Propose? ==> forall c ::
      c in Step(s, r).1.membership.members <==> ActiveAfter(s, r.sender, c)
  {
    StepHasEffect(s, r);
    if r.Propose? {
      var members := Step(s, r).1.membership.members;
      forall c ensures c in members <==> ActiveAfter(s, r.sender, c) { BootstrapExactly(s, r.sender, r.room, c); }
    }
  }

  // ---------- Welcome and accept ----------

  /** A new welcome is stored exactly for the add that the current epoch committed. */
  lemma WelcomeStoredExactly(s: GroupTables, room: Room, sender: Code, e: nat, target: Code, pid: ProposalId,
                             welcome: Payload)
    requires Inv(s)
    ensures var out := Step(s, Welcome(room, sender, e, target, pid, welcome)).1;
      out.Stored? <==>
        && room != "" && sender != "" && target != "" && welcome != "" && e <= MAX_EPOCH
        && s.present && s.room == room && s.currentEpoch == e && IsActive(s, sender)
        && (e, pid) in s.proposals && s.epochs[e].proposalId == pid
        && s.proposals[(e, pid)].action == Add && s.proposals[(e, pid)].target == target
        && (e, target) !in s.welcomes
  {
  }

  lemma WelcomeRefusals(s: GroupTables, room: Room, sender: Code, e: nat, target: Code, pid: ProposalId,
                        welcome: Payload)
    requires Inv(s) && room != "" && sender != "" && target != "" && welcome != "" && e <= MAX_EPOCH && pid != ""
    ensures var out := Step(s, Welcome(room, sender, e, target, pid, welcome)).1;
      var here := s.present && s.room == room && s.currentEpoch == e;
      var mine := here && IsActive(s, sender);
      && (!s.present ==> out == Rejected(MemberRequired))
      && (s.present && (s.room != room || s.currentEpoch != e) ==> out == Rejected(WelcomeConflict))
      && (here && !IsActive(s, sender) ==> out == Rejected(MemberRequired))
      && (mine && (e, pid) !in s.proposals ==> out == Rejected(ProposalMissing))
      && (mine && (e, pid) in s.proposals
          && (s.proposals[(e, pid)].action != Add || s.proposals[(e, pid)].target != target)
          ==> out == Rejected(MemberConflict))
  {
  }

  /** A second welcome for the same epoch and target is a duplicate exactly if it is the stored
      one; one whose proposal was not the committed one is refused. */
  lemma WelcomeOfKnown(s: GroupTables, room: Room, sender: Code, e: nat, target: Code, pid: ProposalId,
                       welcome: Payload)
    requires Inv(s) && s.present && room == s.room != "" && e == s.currentEpoch && IsActive(s, sender)
    requires sender != "" && target != "" && welcome != "" && pid != "" && e <= MAX_EPOCH
    requires (e as int, pid) in s.proposals
    requires s.proposals[(e as int, pid)].action == Add && s.proposals[(e as int, pid)].target == target
    ensures var out := Step(s, Welcome(room, sender, e, target, pid, welcome)).1;
      && (e in s.epochs && s.epochs[e].proposalId != pid ==> out == Rejected(ProposalMissing))
      && (e in s.epochs && s.epochs[e].proposalId == pid && (e as int, target) in s.welcomes ==>
            var w := s.welcomes[(e as int, target)];
            if w.welcome == welcome && w.proposalId == pid && w.digest == Sha256(welcome)
            then out == Duplicate(NoMembership) else out == Rejected(WelcomeConflict))
  {
  }

  /** A welcome is accepted exactly if it is pending and named by its proposal and digest. */
  lemma AcceptStoredExactly(s: GroupTables, room: Room, target: Code, e: nat, pid: ProposalId, digest: Digest)
    requires Inv(s)
    ensures var out := Step(s, Accept(room, target, e, pid, digest)).1;
      && (out.Stored? <==>
            && room != "" && e <= MAX_EPOCH && s.room == room && PendingAt(s, e, target)
            && s.welcomes[(e, target)].proposalId == pid && s.welcomes[(e, target)].digest == digest)
      && (room != "" && target != "" && e <= MAX_EPOCH && pid != "" && digest != NoDigest && !out.Stored? ==>
            if && (e, target) in s.welcomes && s.welcomes[(e, target)].accepted
               && s.welcomes[(e, target)].proposalId == pid && s.welcomes[(e, target)].digest == digest
            then out.Duplicate? else out == Rejected(WelcomeConflict))
  {
    if PendingAt(s, e, target) { assert WelcomeCurrent(s, e, target); }
  }

  // ---------- Legacy paths ----------

  lemma LegacyStoredExactly(s: GroupTables, room: Room, e: nat, pid: ProposalId, data: Payload)
    requires Inv(s)
    ensures Step(s, LegacyPropose(room, e, pid, data)).1.Stored? <==>
      && pid != "" && data != "" && e <= MAX_EPOCH && (e as int, pid) !in s.proposals && !SameProposal(s, e, data)
      && (s.present && room != "" && s.room != "" ==> room == s.room)
      && s.currentEpoch <= e && !SomePending(s)
    ensures Step(s, LegacyCommit(room, e, data)).1.Stored? <==>
      && data != "" && e <= MAX_EPOCH && s.currentEpoch < e
      && (s.present && room != "" && s.room != "" ==> room == s.room)
      && !SomePending(s) && exists k :: k in s.proposals && k.0 == e
  {
    PendingExactly(s);
    DigestExactly(s, e, data);
  }

  lemma LegacyWelcomeStoredExactly(s: GroupTables, room: Room, e: nat, target: Code, welcome: Payload)
    requires Inv(s)
    ensures Step(s, LegacyWelcome(room, e, target, welcome)).1.Stored? <==>
      && target != "" && welcome != "" && e <= MAX_EPOCH && (e, target) !in s.welcomes
      && (s.present && room != "" && s.room != "" ==> room == s.room)
  {
  }

  /** On the legacy paths a known key is a duplicate exactly if the payload is the stored one, and
      a payload known under another id of the epoch is a duplicate. */
  lemma LegacyOfKnown(s: GroupTables, room: Room, e: nat, pid: ProposalId, target: Code, data: Payload)
    requires Inv(s) && e <= MAX_EPOCH && data != "" && pid != "" && target != ""
    ensures var out := Step(s, LegacyPropose(room, e, pid, data)).1;
      if (e as int, pid) in s.proposals then
        out == if s.proposals[(e as int, pid)].data == data then Duplicate(NoMembership) else Rejected(ProposalConflict)
      else SameProposal(s, e, data) ==> out == Duplicate(NoMembership)
    ensures var out := Step(s, LegacyCommit(room, e, data)).1;
      e in s.epochs ==>
        out == if s.epochs[e].commit == data then Duplicate(NoMembership) else Rejected(CommitConflict)
    ensures var (k, out) := ((e as int, target), Step(s, LegacyWelcome(room, e, target, data)).1);
      k in s.welcomes ==>
        out == if s.welcomes[k].welcome == data then Duplicate(NoMembership) else Rejected(WelcomeConflict)
  {
    DigestExactly(s, e, data);
  }

  /** A legacy request names a group that has no room yet, and never another one. */
  lemma LegacyNamesRoom(s: GroupTables, r: Request)
    requires Inv(s) && (r.LegacyPropose? || r.LegacyCommit?) && Step(s, r).1.Stored?
    ensures var s' := Step(s, r).0;
      && s'.present && s'.room == (if s.present && s.room != "" then s.room else r.room)
      && s'.members == s.members && s'.welcomes == s.welcomes
      && s'.currentEpoch == if r.LegacyCommit? then r.epoch else if s.present then s.currentEpoch else -1
  {
  }

  // ---------- Progress ----------

  /** A member can act: the group has a room, nothing is pending and the next epoch is in range. */
  ghost predicate Open(s: GroupTables, a: Code) {
    && Inv(s) && s.present && s.room != "" && a != "" && !SomePending(s) && IsActive(s, a)
    && s.currentEpoch + 1 <= MAX_EPOCH
  }

  /** The proposal id and payload are new for the epoch. */
  ghost predicate NewAt(s: GroupTables, e: nat, pid: ProposalId, data: Payload) {
    pid != "" && data != "" && (e as int, pid) !in s.proposals && !SameProposal(s, e, data)
  }

  function NextEpoch(s: GroupTables): int {
    s.currentEpoch + 1
  }

  /** A member's proposal for the next epoch is stored. */
  lemma ProposeGoesThrough(s: GroupTables, a: Code, action: Action, target: Code, pid: ProposalId, data: Payload)
    requires Open(s, a) && s.currentEpoch >= -1 && NewAt(s, NextEpoch(s), pid, data) && target != ""
    requires action == Remove <==> IsActive(s, target)
    ensures var r := Propose(s.room, a, action, target, NextEpoch(s), pid, data);
      var s' := Step(s, r).0;
      && Step(s, r).1.Stored? && Inv(s') && !SomePending(s') && s'.present && s'.room == s.room
      && s'.currentEpoch == s.currentEpoch && s'.epochs == s.epochs && s'.members == s.members
      && s'.welcomes == s.welcomes
      && var p := ProposalRow(data, Sha256(data), action, target, ActiveMembers(s));
         s'.proposals == s.proposals[(NextEpoch(s), pid) := p]
  {
    var r := Propose(s.room, a, action, target, NextEpoch(s), pid, data);
    ProposeStoredExactly(s, s.room, a, action, target, NextEpoch(s), pid, data);
    StepHasEffect(s, r);
    StepKeeps(s, r);
    var s' := Step(s, r).0;
    assert a in ActiveMembers(s);
    assert s'.members == s.members;
    assert ActiveMembers(s') == ActiveMembers(s);
    forall e, c ensures !PendingAt(s', e, c) { assert !PendingAt(s, e, c); }
  }

  /** ... and so is the commit that carries it. */
  lemma CommitGoesThrough(s: GroupTables, a: Code, pid: ProposalId, commit: Payload)
    requires Open(s, a) && s.currentEpoch >= -1 && commit != "" && (NextEpoch(s), pid) in s.proposals
    ensures var r := Commit(s.room, a, pid, NextEpoch(s), commit);
      var s' := Step(s, r).0; var p := s.proposals[(NextEpoch(s), pid)];
      && Step(s, r) == (s', Stored(Membership(p.action, p.target, p.snapshot)))
      && Inv(s') && !SomePending(s') && s'.present && s'.room == s.room
      && s'.currentEpoch == NextEpoch(s) && s'.epochs == s.epochs[NextEpoch(s) := EpochRow(pid, commit)]
      && s'.proposals == s.proposals && s'.welcomes == s.welcomes
      && (forall c :: IsActive(s', c) <==> IsActive(s, c) && !(p.action == Remove && c == p.target))
      && (p.action == Remove && IsActive(s, p.target) ==>
            p.target in s'.members && s'.members[p.target].removedEpoch == Some(NextEpoch(s)))
  {
    var r := Commit(s.room, a, pid, NextEpoch(s), commit);
    CommitStoredExactly(s, s.room, a, pid, NextEpoch(s), commit);
    StepHasEffect(s, r);
    StepKeeps(s, r);
    ReportedMembership(s, r);
    forall e, c ensures !PendingAt(Step(s, r).0, e, c) { assert !PendingAt(s, e, c); }
  }

  lemma RunTwo(s: GroupTables, a: Request, b: Request)
    ensures Run(s, [a, b]) == Step(Step(s, a).0, b).0
  {
    assert [a, b][1..] == [b] && [b][1..] == [];
    assert Run(s, [a, b]) == Run(Step(s, a).0, [b]);
  }

  /** Any active member moves the epoch on with a proposal and a commit. */
  lemma EpochMoves(s: GroupTables, a: Code, action: Action, target: Code, pid: ProposalId, data: Payload,
                   commit: Payload)
    requires Open(s, a) && NewAt(s, NextEpoch(s), pid, data) && target != "" && commit != ""
    requires action == Remove <==> IsActive(s, target)
    ensures var e := NextEpoch(s);
      var t := Run(s, [Propose(s.room, a, action, target, e, pid, data), Commit(s.room, a, pid, e, commit)]);
      && Inv(t) && t.currentEpoch == e && t.epochs == s.epochs[e := EpochRow(pid, commit)]
      && !SomePending(t) && t.present && t.room == s.room
      && (e, pid) in t.proposals && t.proposals[(e, pid)].action == action && t.proposals[(e, pid)].target == target
      && (forall c :: IsActive(t, c) <==> IsActive(s, c) && !(action == Remove && c == target))
      && t.welcomes == s.welcomes
      && (forall k :: k in t.proposals ==> k in s.proposals || k == (e, pid))
      && (action == Remove ==> target in t.members && t.members[target].removedEpoch == Some(e))
  {
    var e := NextEpoch(s);
    var r1, r2 := Propose(s.room, a, action, target, e, pid, data), Commit(s.room, a, pid, e, commit);
    ProposeGoesThrough(s, a, action, target, pid, data);
    var s1 := Step(s, r1).0;
    assert IsActive(s1, a);
    CommitGoesThrough(s1, a, pid, commit);
    RunTwo(s, r1, r2);
  }

  /** On strict histories a group that exists has a room. */
  lemma {:induction false} StrictGroupHasRoom(s: GroupTables, rs: seq<Request>)
    requires s.present ==> s.room != ""
    requires forall r :: r in rs ==> !IsLegacy(r)
    ensures Run(s, rs).present ==> Run(s, rs).room != ""
    decreases |rs|
  {
    if rs != [] {
      StrictStepKeepsRoom(s, rs[0]);
      StrictGroupHasRoom(Step(s, rs[0]).0, rs[1..]);
    }
  }

  lemma StrictStepKeepsRoom(s: GroupTables, r: Request)
    requires (s.present ==> s.room != "") && !IsLegacy(r)
    ensures Step(s, r).0.present ==> Step(s, r).0.room != ""
  {
    match r
    case Propose(room, sender, action, target, e, pid, data) =>
      assert Step(s, r).1.Stored? ==> Step(s, r).0.room == WithGroup(s, room).room;
    case _ =>
  }

  /** From every reachable strict state with an active member and nothing pending, a proposal
      and a commit at the next epoch move the group on. */
  lemma StrictProgress(rs: seq<Request>, a: Code, target: Code, pid: ProposalId, data: Payload, commit: Payload)
    requires forall r :: r in rs ==> !IsLegacy(r)
    requires var s := Run(NO_ROWS, rs);
      && IsActive(s, a) && !SomePending(s) && NextEpoch(s) <= MAX_EPOCH
      && NextEpoch(s) >= 0 && NewAt(s, NextEpoch(s), pid, data) && target != "" && commit != ""
    ensures var s := Run(NO_ROWS, rs); var e := NextEpoch(s);
      var action := if IsActive(s, target) then Remove else Add;
      var t := Run(s, [Propose(s.room, a, action, target, e, pid, data), Commit(s.room, a, pid, e, commit)]);
      t.currentEpoch == e && e in t.epochs && t.epochs[e] == EpochRow(pid, commit)
  {
    InvOfNoRows();
    RunKeeps(NO_ROWS, rs);
    StrictGroupHasRoom(NO_ROWS, rs);
    var s := Run(NO_ROWS, rs);
    assert MemberOk(s, a);
    EpochMoves(s, a, if IsActive(s, target) then Remove else Add, target, pid, data, commit);
  }

  lemma {:induction false} RunAppend(s: GroupTables, rs: seq<Request>, more: seq<Request>)
    ensures Run(s, rs + more) == Run(Run(s, rs), more)
    decreases |rs|
  {
    if rs == [] {
      assert rs + more == more;
    } else {
      assert (rs + more)[0] == rs[0] && (rs + more)[1..] == rs[1..] + more;
      RunAppend(Step(s, rs[0]).0, rs[1..], more);
    }
  }

  /** Every epoch can be reached: the chain of commits has no end but the width of the column. */
  lemma {:induction false} EveryEpochReachable(n: nat) returns (rs: seq<Request>)
    requires n <= MAX_EPOCH
    ensures forall r :: r in rs ==> !IsLegacy(r)
    ensures var s := Run(NO_ROWS, rs);
      && Inv(s) && s.currentEpoch == n && s.present && s.room == "r" && IsActive(s, "a") && !IsActive(s, "b")
      && !SomePending(s) && forall k :: k in s.proposals ==> k.0 <= n
  {
    if n == 0 {
      rs := FirstEpoch();
    } else {
      var before := EveryEpochReachable(n - 1);
      var s := Run(NO_ROWS, before);
      assert !SameProposal(s, n, "d");
      EpochMoves(s, "a", Add, "b", "p", "d", "c");
      var more := [Propose(s.room, "a", Add, "b", n, "p", "d"), Commit(s.room, "a", "p", n, "c")];
      RunAppend(NO_ROWS, before, more);
      rs := before + more;
    }
  }

  /** The first proposal of a group makes its sender the creator. */
  lemma FirstProposal(room: Room, a: Code, target: Code, pid: ProposalId, data: Payload)
    requires room != "" && a != "" && target != "" && target != a && pid != "" && data != ""
    ensures var (s, out) := Step(NO_ROWS, Propose(room, a, Add, target, 0, pid, data));
      && out.Stored? && Open(s, a) && s.room == room && s.currentEpoch == -1
      && (forall c :: IsActive(s, c) <==> c == a)
      && (0, pid) in s.proposals && s.proposals.Keys == {(0, pid)} && s.proposals[(0, pid)].action == Add
  {
    var r := Propose(room, a, Add, target, 0, pid, data);
    InvOfNoRows();
    ProposeStoredExactly(NO_ROWS, room, a, Add, target, 0, pid, data);
    StepHasEffect(NO_ROWS, r);
    StepKeeps(NO_ROWS, r);
    var s := Step(NO_ROWS, r).0;
    forall e, c ensures !PendingAt(s, e, c) { }
    forall c ensures IsActive(s, c) <==> c == a { BootstrapExactly(NO_ROWS, a, room, c); }
  }

  /** ... and the first commit starts the chain. */
  lemma FirstEpoch() returns (rs: seq<Request>)
    ensures forall r :: r in rs ==> !IsLegacy(r)
    ensures var s := Run(NO_ROWS, rs);
      && Inv(s) && s.currentEpoch == 0 && s.present && s.room == "r" && IsActive(s, "a") && !IsActive(s, "b")
      && !SomePending(s) && forall k :: k in s.proposals ==> k.0 <= 0
  {
    var r1, r2 := Propose("r", "a", Add, "b", 0, "p", "d"), Commit("r", "a", "p", 0, "c");
    FirstProposal("r", "a", "b", "p", "d");
    CommitGoesThrough(Step(NO_ROWS, r1).0, "a", "p", "c");
    RunTwo(NO_ROWS, r1, r2);
    rs := [r1, r2];
  }

  /** A welcome for the committed add, and its acceptance, make the target a member. */
  lemma JoinGoesThrough(s: GroupTables, a: Code, target: Code, pid: ProposalId, welcome: Payload)
    requires Inv(s) && s.present && s.room != "" && a != "" && IsActive(s, a) && 0 <= s.currentEpoch <= MAX_EPOCH
    requires var e := s.currentEpoch;
      && s.epochs[e].proposalId == pid && (e, pid) in s.proposals && pid != ""
      && s.proposals[(e, pid)].action == Add && s.proposals[(e, pid)].target == target && target != ""
      && (e, target) !in s.welcomes && welcome != ""
    ensures var e := s.currentEpoch;
      var r1, r2 := Welcome(s.room, a, e, target, pid, welcome), Accept(s.room, target, e, pid, Sha256(welcome));
      var s1 := Step(s, r1).0; var s2 := Step(s1, r2).0;
      && Step(s, r1).1.Stored? && Step(s1, r2).1.Stored?
      && PendingAt(s1, e, target) && s1.welcomes[(e, target)] == WelcomeRow(welcome, pid, Sha256(welcome), false)
      && Inv(s2) && s2.members == s.members[target := MemberRow(true, e, None)] && s2.currentEpoch == e
  {
    var e := s.currentEpoch;
    var r1, r2 := Welcome(s.room, a, e, target, pid, welcome), Accept(s.room, target, e, pid, Sha256(welcome));
    WelcomeStoredExactly(s, s.room, a, e, target, pid, welcome);
    StepHasEffect(s, r1);
    StepKeeps(s, r1);
    var s1 := Step(s, r1).0;
    assert s1.room == s.room;
    AcceptStoredExactly(s1, s.room, target, e, pid, Sha256(welcome));
    StepHasEffect(s1, r2);
    StepKeeps(s1, r2);
  }

  /** The whole way of a new member: propose, commit, welcome, accept. */
  lemma AddCompletes(s: GroupTables, a: Code, target: Code, pid: ProposalId, data: Payload, commit: Payload,
                     welcome: Payload)
    requires Open(s, a) && NewAt(s, NextEpoch(s), pid, data) && target != "" && commit != "" && welcome != ""
    requires !IsActive(s, target) && (NextEpoch(s), target) !in s.welcomes
    ensures var e := NextEpoch(s);
      var t := Run(s, [Propose(s.room, a, Add, target, e, pid, data), Commit(s.room, a, pid, e, commit),
                       Welcome(s.room, a, e, target, pid, welcome), Accept(s.room, target, e, pid, Sha256(welcome))]);
      && t.currentEpoch == e && IsActive(t, target) && t.members[target].joinedEpoch == e
      && forall c :: c != target ==> (IsActive(t, c) <==> IsActive(s, c))
  {
    var e := NextEpoch(s);
    var r1, r2 := Propose(s.room, a, Add, target, e, pid, data), Commit(s.room, a, pid, e, commit);
    var r3, r4 := Welcome(s.room, a, e, target, pid, welcome), Accept(s.room, target, e, pid, Sha256(welcome));
    EpochMoves(s, a, Add, target, pid, data, commit);
    var m := Run(s, [r1, r2]);
    JoinGoesThrough(m, a, target, pid, welcome);
    RunAppend(s, [r1, r2], [r3, r4]);
    RunTwo(m, r3, r4);
    assert [r1, r2] + [r3, r4] == [r1, r2, r3, r4];
  }
}
