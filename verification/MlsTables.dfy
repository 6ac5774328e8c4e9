/** The five MLS control tables of server-go/auth_store.go and the transactions on them.

    Every one of the five tables is keyed by the group id first and every transaction works
    on one group, so the rows of a group are kept together: `GroupTables` holds the rows
    that the tables have for one group, and the database maps group ids to them.

    A transaction is a function from the rows before it to the rows after it and the answer
    given to the caller. A transaction that fails is rolled back, so a rejected request
    leaves the rows as they were.
  */
module MlsTables {
  import opened Wrappers

  type GroupId = string
  type Room = string
  type Code = string
  type ProposalId = string
  type Payload = string

  /** Epochs are stored as signed 64-bit integers (mlsEpochValue). */
  const MAX_EPOCH: nat := 0x7FFF_FFFF_FFFF_FFFF

  type Digest = Hash<Payload>

  datatype Action = Add | Remove

  datatype EpochRow = EpochRow(proposalId: ProposalId, commit: Payload)

  datatype ProposalRow = ProposalRow(
    data: Payload, digest: Digest, action: Action, target: Code, snapshot: set<Code>)

  datatype WelcomeRow = WelcomeRow(
    welcome: Payload, proposalId: ProposalId, digest: Digest, accepted: bool)

  datatype MemberRow = MemberRow(active: bool, joinedEpoch: int, removedEpoch: Option<int>)

  /** `present` says whether mls_groups has a row; `room` and `currentEpoch` are its columns. */
  datatype GroupTables = GroupTables(
    present: bool,
    room: Room,
    currentEpoch: int,
    epochs: map<int, EpochRow>,
    proposals: map<(int, ProposalId), ProposalRow>,
    welcomes: map<(int, Code), WelcomeRow>,
    members: map<Code, MemberRow>)

  const NO_ROWS := GroupTables(false, "", -1, map[], map[], map[], map[])

  type Database = map<GroupId, GroupTables>

  function Rows(db: Database, g: GroupId): GroupTables {
    if g in db then db[g] else NO_ROWS
  }

  datatype Error =
    | InvalidField
    | CommitConflict
    | EpochRollback
    | PendingWelcome
    | ProposalMissing
    | ProposalConflict
    | MemberRequired
    | MemberConflict
    | WelcomeConflict

  datatype Membership = NoMembership | Membership(action: Action, target: Code, members: set<Code>)

  /** `Stored` is (true, nil) in the source, `Duplicate` is (false, nil). */
  datatype Outcome =
    | Stored(membership: Membership)
    | Duplicate(known: Membership)
    | Rejected(error: Error)

  /** The body of a request; the group id it is for stands beside it. */
  datatype Request =
    | Propose(room: Room, sender: Code, action: Action, target: Code,
              epoch: nat, proposalId: ProposalId, proposal: Payload)
    | LegacyPropose(room: Room, epoch: nat, proposalId: ProposalId, proposal: Payload)
    | Commit(room: Room, sender: Code, proposalId: ProposalId, epoch: nat, commit: Payload)
    | LegacyCommit(room: Room, epoch: nat, commit: Payload)
    | Welcome(room: Room, sender: Code, epoch: nat, target: Code, proposalId: ProposalId, welcome: Payload)
    | LegacyWelcome(room: Room, epoch: nat, target: Code, welcome: Payload)
    | Accept(room: Room, target: Code, epoch: nat, proposalId: ProposalId, digest: Digest)

  predicate IsLegacy(r: Request) {
    r.LegacyPropose? || r.LegacyCommit? || r.LegacyWelcome?
  }

  // ---------- Queries shared by the transactions ----------

  predicate IsActive(s: GroupTables, c: Code) {
    c in s.members && s.members[c].active
  }

  function ActiveMembers(s: GroupTables): (codes: set<Code>)
    ensures forall c :: c in codes <==> IsActive(s, c)
  {
    set c | c in s.members && s.members[c].active
  }

  predicate PendingAt(s: GroupTables, e: int, c: Code) {
    (e, c) in s.welcomes && !s.welcomes[(e, c)].accepted
  }

  /** The COUNT query of hasPendingMLSWelcome: a pending welcome joined with its add proposal. */
  predicate HasPendingWelcome(s: GroupTables) {
    exists k | k in s.welcomes ::
      && !s.welcomes[k].accepted
      && (k.0, s.welcomes[k].proposalId) in s.proposals
      && s.proposals[(k.0, s.welcomes[k].proposalId)].action == Add
  }

  predicate DigestStored(s: GroupTables, e: int, d: Digest) {
    exists k | k in s.proposals :: k.0 == e && s.proposals[k].digest == d
  }

  /** The COUNT query of the legacy commit. */
  predicate HasProposal(s: GroupTables, e: int) {
    exists k | k in s.proposals :: k.0 == e
  }

  /** The group row inserted with current_epoch -1 when it is missing. */
  function WithGroup(s: GroupTables, room: Room): GroupTables {
    if s.present then s else s.(present := true, room := room, currentEpoch := -1)
  }

  /** ... and, on the legacy paths, `room = CASE WHEN room = '' THEN ? ELSE room END`. */
  function WithNamedGroup(s: GroupTables, room: Room): GroupTables {
    s.(present := true,
       room := if s.present && s.room != "" then s.room else room,
       currentEpoch := if s.present then s.currentEpoch else -1)
  }

  // ---------- Transactions ----------

  /** SaveMLSCommit. */
  function LegacyCommitTx(s: GroupTables, room: Room, e: nat, commit: Payload): (GroupTables, Outcome)
  {
    if commit == "" || e > MAX_EPOCH then (s, Rejected(InvalidField))
    else if e in s.epochs then
      if s.epochs[e].commit != commit then (s, Rejected(CommitConflict)) else (s, Duplicate(NoMembership))
    else if s.present && room != "" && s.room != "" && room != s.room then (s, Rejected(CommitConflict))
    else if s.present && e < s.currentEpoch then (s, Rejected(EpochRollback))
    else if HasPendingWelcome(s) then (s, Rejected(PendingWelcome))
    else if !HasProposal(s, e) then (s, Rejected(ProposalMissing))
    else
      var s1 := WithNamedGroup(s, room);
      (s1.(epochs := s1.epochs[e := EpochRow("", commit)],
           currentEpoch := if s1.currentEpoch < e then e else s1.currentEpoch),
       Stored(NoMembership))
  }

  /** SaveMLSCommitForMember. With an empty proposal id the source still reads the first
      proposal of the epoch and would give another refusal if its snapshot held an empty
      code; no stored snapshot does (`ProposalsOk`). */
  function CommitTx(s: GroupTables, room: Room, sender: Code, pid: ProposalId, e: nat, commit: Payload)
    : (GroupTables, Outcome)
  {
    if room == "" || sender == "" || commit == "" || e > MAX_EPOCH then (s, Rejected(InvalidField))
    else if e in s.epochs then
      if !IsActive(s, sender) then (s, Rejected(MemberRequired))
      else if s.epochs[e] != EpochRow(pid, commit) then (s, Rejected(CommitConflict))
      else (s, Duplicate(NoMembership))
    else if !s.present then (s, Rejected(MemberRequired))
    else if s.room != room then (s, Rejected(CommitConflict))
    else if HasPendingWelcome(s) then (s, Rejected(PendingWelcome))
    else if s.currentEpoch >= 0 && e != s.currentEpoch + 1 then
      (s, Rejected(if e < s.currentEpoch then EpochRollback else CommitConflict))
    else if !IsActive(s, sender) then (s, Rejected(MemberRequired))
    else if pid == "" || (e, pid) !in s.proposals then (s, Rejected(ProposalMissing))
    else if "" in s.proposals[(e, pid)].snapshot then (s, Rejected(MemberConflict))
    else
      var p := s.proposals[(e, pid)];
      var members :=
        if p.action == Remove && IsActive(s, p.target)
        then s.members[p.target := s.members[p.target].(active := false, removedEpoch := Some(e))]
        else s.members;
      (s.(epochs := s.epochs[e := EpochRow(pid, commit)], currentEpoch := e, members := members),
       Stored(Membership(p.action, p.target, p.snapshot)))
  }

  /** SaveMLSProposal. */
  function LegacyProposeTx(s: GroupTables, room: Room, e: nat, pid: ProposalId, data: Payload)
    : (GroupTables, Outcome)
  {
    if pid == "" || data == "" || e > MAX_EPOCH then (s, Rejected(InvalidField))
    else if (e, pid) in s.proposals then
      if s.proposals[(e, pid)].data != data then (s, Rejected(ProposalConflict)) else (s, Duplicate(NoMembership))
    else if DigestStored(s, e, Sha256(data)) then (s, Duplicate(NoMembership))
    else if s.present && room != "" && s.room != "" && room != s.room then (s, Rejected(ProposalConflict))
    else if s.present && e < s.currentEpoch then (s, Rejected(EpochRollback))
    else if HasPendingWelcome(s) then (s, Rejected(PendingWelcome))
    else
      var s1 := WithNamedGroup(s, room);
      (s1.(proposals := s1.proposals[(e, pid) := ProposalRow(data, Sha256(data), Add, "", {})]),
       Stored(NoMembership))
  }

  /** INSERT ... ON CONFLICT DO UPDATE SET active=1, removed_epoch=NULL. */
  function CreatorRow(members: map<Code, MemberRow>, sender: Code): MemberRow {
    if sender in members then members[sender].(active := true, removedEpoch := None)
    else MemberRow(true, 0, None)
  }

  /** The members after the creator bootstrap of SaveMLSProposalForMember. */
  function BootstrapMembers(s: GroupTables, sender: Code): map<Code, MemberRow> {
    if ActiveMembers(s) == {} && (!s.present || s.currentEpoch < 0) then
      s.members[sender := CreatorRow(s.members, sender)]
    else s.members
  }

  /** SaveMLSProposalForMember. */
  function ProposeTx(s: GroupTables, room: Room, sender: Code, action: Action, target: Code,
                     e: nat, pid: ProposalId, data: Payload): (GroupTables, Outcome)
  {
    if room == "" || sender == "" || target == "" || pid == "" || data == "" || e > MAX_EPOCH then
      (s, Rejected(InvalidField))
    else if (e, pid) in s.proposals then
      var p := s.proposals[(e, pid)];
      if !IsActive(s, sender) then (s, Rejected(MemberRequired))
      else if p.data != data || p.action != action || p.target != target then (s, Rejected(ProposalConflict))
      else (s, Duplicate(Membership(p.action, p.target, p.snapshot)))
    else if DigestStored(s, e, Sha256(data)) then (s, Duplicate(NoMembership))
    else if s.present && s.room != "" && s.room != room then (s, Rejected(ProposalConflict))
    else if s.present && e < s.currentEpoch then (s, Rejected(EpochRollback))
    else if HasPendingWelcome(s) then (s, Rejected(PendingWelcome))
    else
      var s1 := WithGroup(s, room).(members := BootstrapMembers(s, sender));
      if !IsActive(s1, sender) then (s, Rejected(MemberRequired))
      else if action == Add && IsActive(s1, target) then (s, Rejected(MemberConflict))
      else if action == Remove && !IsActive(s1, target) then (s, Rejected(MemberRequired))
      else
        var snapshot := ActiveMembers(s1);
        (s1.(proposals := s1.proposals[(e, pid) := ProposalRow(data, Sha256(data), action, target, snapshot)]),
         Stored(Membership(action, target, snapshot)))
  }

  /** SaveMLSWelcome: a legacy welcome takes the column defaults, so it is born accepted. */
  function LegacyWelcomeTx(s: GroupTables, room: Room, e: nat, target: Code, welcome: Payload)
    : (GroupTables, Outcome)
  {
    if target == "" || welcome == "" || e > MAX_EPOCH then (s, Rejected(InvalidField))
    else if (e, target) in s.welcomes then
      if s.welcomes[(e, target)].welcome != welcome then (s, Rejected(WelcomeConflict))
      else (s, Duplicate(NoMembership))
    else if s.present && room != "" && s.room != "" && room != s.room then (s, Rejected(WelcomeConflict))
    else
      var s1 := WithGroup(s, room);
      (s1.(welcomes := s1.welcomes[(e, target) := WelcomeRow(welcome, "", NoDigest, true)]),
       Stored(NoMembership))
  }

  /** SaveMLSWelcomeForMember. */
  function WelcomeTx(s: GroupTables, room: Room, sender: Code, e: nat, target: Code,
                     pid: ProposalId, welcome: Payload): (GroupTables, Outcome)
  {
    if room == "" || sender == "" || target == "" || welcome == "" || e > MAX_EPOCH then
      (s, Rejected(InvalidField))
    else if pid == "" then (s, Rejected(ProposalMissing))
    else if !s.present then (s, Rejected(MemberRequired))
    else if s.room != room || s.currentEpoch != e then (s, Rejected(WelcomeConflict))
    else if !IsActive(s, sender) then (s, Rejected(MemberRequired))
    else if (e, pid) !in s.proposals then (s, Rejected(ProposalMissing))
    else if s.proposals[(e, pid)].action != Add || s.proposals[(e, pid)].target != target then
      (s, Rejected(MemberConflict))
    else if e !in s.epochs || s.epochs[e].proposalId != pid then (s, Rejected(ProposalMissing))
    else if (e, target) in s.welcomes then
      var w := s.welcomes[(e, target)];
      if w.welcome != welcome || w.digest != Sha256(welcome) || w.proposalId != pid
      then (s, Rejected(WelcomeConflict)) else (s, Duplicate(NoMembership))
    else
      (s.(welcomes := s.welcomes[(e, target) := WelcomeRow(welcome, pid, Sha256(welcome), false)]),
       Stored(NoMembership))
  }

  /** AcceptMLSWelcomeForMember. */
  function AcceptTx(s: GroupTables, room: Room, target: Code, e: nat, pid: ProposalId, digest: Digest)
    : (GroupTables, Outcome)
  {
    if room == "" || target == "" || e > MAX_EPOCH then (s, Rejected(InvalidField))
    else if pid == "" || digest == NoDigest then (s, Rejected(ProposalMissing))
    else if (e, target) !in s.welcomes || s.welcomes[(e, target)].proposalId != pid
            || s.welcomes[(e, target)].digest != digest then (s, Rejected(WelcomeConflict))
    else if s.welcomes[(e, target)].accepted then (s, Duplicate(NoMembership))
    else if !s.present then (s, Rejected(MemberRequired))
    else if s.room != room || s.currentEpoch != e then (s, Rejected(WelcomeConflict))
    else
      (s.(welcomes := s.welcomes[(e, target) := s.welcomes[(e, target)].(accepted := true)],
          members := s.members[target := MemberRow(true, e, None)]),
       Stored(NoMembership))
  }

  function Step(s: GroupTables, r: Request): (GroupTables, Outcome) {
    match r
    case Propose(room, sender, action, target, e, pid, data) =>
      ProposeTx(s, room, sender, action, target, e, pid, data)
    case LegacyPropose(room, e, pid, data) => LegacyProposeTx(s, room, e, pid, data)
    case Commit(room, sender, pid, e, commit) => CommitTx(s, room, sender, pid, e, commit)
    case LegacyCommit(room, e, commit) => LegacyCommitTx(s, room, e, commit)
    case Welcome(room, sender, e, target, pid, welcome) => WelcomeTx(s, room, sender, e, target, pid, welcome)
    case LegacyWelcome(room, e, target, welcome) => LegacyWelcomeTx(s, room, e, target, welcome)
    case Accept(room, target, e, pid, digest) => AcceptTx(s, room, target, e, pid, digest)
  }

  /** One request against the database: only the rows of its group can change. */
  function Apply(db: Database, g: GroupId, r: Request): (Database, Outcome) {
    if g == "" then (db, Rejected(InvalidField))
    else
      var (rows, out) := Step(Rows(db, g), r);
      (if out.Stored? then db[g := rows] else db, out)
  }

  /** The rows of a group after a whole sequence of requests for it. */
  function Run(s: GroupTables, rs: seq<Request>): GroupTables
    decreases |rs|
  {
    if rs == [] then s else Run(Step(s, rs[0]).0, rs[1..])
  }
}
