/** The MLS part of AuthStore as the object the server holds: its methods check and update
    the tables step by step and are proved against the transactions of `MlsTables`. */
module MlsStore {
  import opened Wrappers
  import opened MlsTables
  import opened MlsInvariants
  import opened MlsHistory

  datatype PendingRecord = PendingRecord(
    group: GroupId, room: Room, epoch: nat, target: Code, proposalId: ProposalId,
    welcome: Payload, digest: Digest)

  /** ErrMLSWelcomeStale names the group it was found in. */
  datatype PendingResult = Pending(records: set<PendingRecord>) | Stale(group: GroupId)

  ghost function RecordOf(db: Database, g: GroupId, e: nat, target: Code): PendingRecord
    requires (e, target) in Rows(db, g).welcomes
  {
    var w := Rows(db, g).welcomes[(e, target)];
    PendingRecord(g, Rows(db, g).room, e, target, w.proposalId, w.welcome, w.digest)
  }

  /** The row loop that collects a group's active member codes. */
  method CollectActive(members: map<Code, MemberRow>) returns (codes: set<Code>)
    ensures forall c :: c in codes <==> c in members && members[c].active
  {
    codes := {};
    var rows := members.Keys;
    while rows != {}
      invariant rows <= members.Keys
      invariant forall c :: c in codes <==> c in members && c !in rows && members[c].active
      decreases rows
    {
      var c :| c in rows;
      if members[c].active { codes := codes + {c}; }
      rows := rows - {c};
    }
  }

  class AuthStore {
    var db: Database

    ghost predicate Valid()
      reads this
    {
      DbInv(db)
    }

    constructor ()
      ensures Valid() && db == map[]
    {
      db := map[];
    }

    /** SaveMLSProposal. */
    method SaveProposal(g: GroupId, room: Room, e: nat, pid: ProposalId, data: Payload) returns (out: Outcome)
      requires Valid()
      modifies this
      ensures Valid()
      ensures (db, out) == Apply(old(db), g, LegacyPropose(room, e, pid, data))
    {
      KeepsValid(db, g, LegacyPropose(room, e, pid, data));
      if g == "" || pid == "" || data == "" || e > MAX_EPOCH { return Rejected(InvalidField); }
      var tx := Rows(db, g);
      if (e, pid) in tx.proposals {
        if tx.proposals[(e, pid)].data != data { return Rejected(ProposalConflict); }
        return Duplicate(NoMembership);
      }
      if DigestStored(tx, e, Sha256(data)) { return Duplicate(NoMembership); }
      if tx.present {
        if room != "" && tx.room != "" && room != tx.room { return Rejected(ProposalConflict); }
        if e < tx.currentEpoch { return Rejected(EpochRollback); }
      } else {
        tx := tx.(present := true, room := room, currentEpoch := -1);
      }
      if HasPendingWelcome(tx) { return Rejected(PendingWelcome); }
      tx := tx.(proposals := tx.proposals[(e, pid) := ProposalRow(data, Sha256(data), Add, "", {})]);
      if tx.room == "" { tx := tx.(room := room); }
      db := db[g := tx];
      return Stored(NoMembership);
    }

    /** SaveMLSProposalForMember. */
    method SaveProposalForMember(g: GroupId, room: Room, sender: Code, action: Action, target: Code,
                                 e: nat, pid: ProposalId, data: Payload) returns (out: Outcome)
      requires Valid()
      modifies this
      ensures Valid()
      ensures (db, out) == Apply(old(db), g, Propose(room, sender, action, target, e, pid, data))
    {
      KeepsValid(db, g, Propose(room, sender, action, target, e, pid, data));
      if g == "" || room == "" || sender == "" || target == "" || pid == "" || data == "" || e > MAX_EPOCH {
        return Rejected(InvalidField);
      }
      var tx := Rows(db, g);
      if (e, pid) in tx.proposals {
        var p := tx.proposals[(e, pid)];
        if !IsActive(tx, sender) { return Rejected(MemberRequired); }
        if p.data != data || p.action != action || p.target != target { return Rejected(ProposalConflict); }
        return Duplicate(Membership(p.action, p.target, p.snapshot));
      }
      if DigestStored(tx, e, Sha256(data)) { return Duplicate(NoMembership); }
      var existed, current := tx.present, tx.currentEpoch;
      if existed {
        if tx.room != "" && tx.room != room { return Rejected(ProposalConflict); }
        if e < current { return Rejected(EpochRollback); }
      } else {
        tx := tx.(present := true, room := room, currentEpoch := -1);
      }
      if HasPendingWelcome(tx) { return Rejected(PendingWelcome); }
      var active := CollectActive(tx.members);
      assert active == ActiveMembers(Rows(db, g));
      if active == {} && (!existed || current < 0) {
        tx := tx.(members := tx.members[sender := CreatorRow(tx.members, sender)]);
      }
      if !IsActive(tx, sender) { return Rejected(MemberRequired); }
      var snapshot := CollectActive(tx.members);
      assert snapshot == ActiveMembers(WithGroup(Rows(db, g), room).(members := BootstrapMembers(Rows(db, g), sender)));
      if action == Add {
        if IsActive(tx, target) { return Rejected(MemberConflict); }
      } else {
        if !IsActive(tx, target) { return Rejected(MemberRequired); }
      }
      tx := tx.(proposals := tx.proposals[(e, pid) := ProposalRow(data, Sha256(data), action, target, snapshot)]);
      db := db[g := tx];
      return Stored(Membership(action, target, snapshot));
    }

    /** SaveMLSCommit. */
    method SaveCommit(g: GroupId, room: Room, e: nat, commit: Payload) returns (out: Outcome)
      requires Valid()
      modifies this
      ensures Valid()
      ensures (db, out) == Apply(old(db), g, LegacyCommit(room, e, commit))
    {
      KeepsValid(db, g, LegacyCommit(room, e, commit));
      if g == "" || commit == "" || e > MAX_EPOCH { return Rejected(InvalidField); }
      var tx := Rows(db, g);
      if e in tx.epochs {
        if tx.epochs[e].commit != commit { return Rejected(CommitConflict); }
        return Duplicate(NoMembership);
      }
      if tx.present {
        if room != "" && tx.room != "" && room != tx.room { return Rejected(CommitConflict); }
        if e < tx.currentEpoch { return Rejected(EpochRollback); }
      } else {
        tx := tx.(present := true, room := room, currentEpoch := -1);
      }
      if HasPendingWelcome(tx) { return Rejected(PendingWelcome); }
      if !HasProposal(tx, e) { return Rejected(ProposalMissing); }
      tx := tx.(epochs := tx.epochs[e := EpochRow("", commit)]);
      if tx.room == "" { tx := tx.(room := room); }
      if tx.currentEpoch < e { tx := tx.(currentEpoch := e); }
      db := db[g := tx];
      return Stored(NoMembership);
    }

    /** SaveMLSCommitForMember. */
    method SaveCommitForMember(g: GroupId, room: Room, sender: Code, pid: ProposalId, e: nat, commit: Payload)
      returns (out: Outcome)
      requires Valid()
      modifies this
      ensures Valid()
      ensures (db, out) == Apply(old(db), g, Commit(room, sender, pid, e, commit))
    {
      KeepsValid(db, g, Commit(room, sender, pid, e, commit));
      if g == "" || room == "" || sender == "" || commit == "" || e > MAX_EPOCH { return Rejected(InvalidField); }
      var tx := Rows(db, g);
      if e in tx.epochs {
        if !IsActive(tx, sender) { return Rejected(MemberRequired); }
        if tx.epochs[e].commit != commit || tx.epochs[e].proposalId != pid { return Rejected(CommitConflict); }
        return Duplicate(NoMembership);
      }
      if !tx.present { return Rejected(MemberRequired); }
      if tx.room != room { return Rejected(CommitConflict); }
      if HasPendingWelcome(tx) { return Rejected(PendingWelcome); }
      if tx.currentEpoch >= 0 && e != tx.currentEpoch + 1 {
        if e < tx.currentEpoch { return Rejected(EpochRollback); }
        return Rejected(CommitConflict);
      }
      if !IsActive(tx, sender) { return Rejected(MemberRequired); }
      if pid == "" || (e, pid) !in tx.proposals { return Rejected(ProposalMissing); }
      var p := tx.proposals[(e, pid)];
      if "" in p.snapshot { return Rejected(MemberConflict); }
      tx := tx.(epochs := tx.epochs[e := EpochRow(pid, commit)], currentEpoch := e);
      if p.action == Remove && IsActive(tx, p.target) {
        var row := tx.members[p.target].(active := false, removedEpoch := Some(e));
        tx := tx.(members := tx.members[p.target := row]);
      }
      db := db[g := tx];
      return Stored(Membership(p.action, p.target, p.snapshot));
    }

    /** SaveMLSWelcome. */
    method SaveWelcome(g: GroupId, room: Room, e: nat, target: Code, welcome: Payload) returns (out: Outcome)
      requires Valid()
      modifies this
      ensures Valid()
      ensures (db, out) == Apply(old(db), g, LegacyWelcome(room, e, target, welcome))
    {
      KeepsValid(db, g, LegacyWelcome(room, e, target, welcome));
      if g == "" || target == "" || welcome == "" || e > MAX_EPOCH { return Rejected(InvalidField); }
      var tx := Rows(db, g);
      if (e, target) in tx.welcomes {
        if tx.welcomes[(e, target)].welcome != welcome { return Rejected(WelcomeConflict); }
        return Duplicate(NoMembership);
      }
      if !tx.present {
        tx := tx.(present := true, room := room, currentEpoch := -1);
      } else if room != "" && tx.room != "" && room != tx.room {
        return Rejected(WelcomeConflict);
      }
      tx := tx.(welcomes := tx.welcomes[(e, target) := WelcomeRow(welcome, "", NoDigest, true)]);
      db := db[g := tx];
      return Stored(NoMembership);
    }

    /** SaveMLSWelcomeForMember. */
    method SaveWelcomeForMember(g: GroupId, room: Room, sender: Code, e: nat, target: Code,
                                pid: ProposalId, welcome: Payload) returns (out: Outcome)
      requires Valid()
      modifies this
      ensures Valid()
      ensures (db, out) == Apply(old(db), g, Welcome(room, sender, e, target, pid, welcome))
    {
      KeepsValid(db, g, Welcome(room, sender, e, target, pid, welcome));
      if g == "" || room == "" || sender == "" || target == "" || welcome == "" || e > MAX_EPOCH {
        return Rejected(InvalidField);
      }
      if pid == "" { return Rejected(ProposalMissing); }
      var tx := Rows(db, g);
      if !tx.present { return Rejected(MemberRequired); }
      if tx.room != room || tx.currentEpoch != e { return Rejected(WelcomeConflict); }
      if !IsActive(tx, sender) { return Rejected(MemberRequired); }
      if (e, pid) !in tx.proposals { return Rejected(ProposalMissing); }
      if tx.proposals[(e, pid)].action != Add || tx.proposals[(e, pid)].target != target {
        return Rejected(MemberConflict);
      }
      if e !in tx.epochs { return Rejected(ProposalMissing); }
      if tx.epochs[e].proposalId != pid { return Rejected(ProposalMissing); }
      if (e, target) in tx.welcomes {
        var w := tx.welcomes[(e, target)];
        if w.welcome != welcome || w.digest != Sha256(welcome) || w.proposalId != pid {
          return Rejected(WelcomeConflict);
        }
        return Duplicate(NoMembership);
      }
      tx := tx.(welcomes := tx.welcomes[(e, target) := WelcomeRow(welcome, pid, Sha256(welcome), false)]);
      db := db[g := tx];
      return Stored(NoMembership);
    }

    /** AcceptMLSWelcomeForMember. */
    method AcceptWelcomeForMember(g: GroupId, room: Room, target: Code, e: nat, pid: ProposalId, digest: Digest)
      returns (out: Outcome)
      requires Valid()
      modifies this
      ensures Valid()
      ensures (db, out) == Apply(old(db), g, Accept(room, target, e, pid, digest))
    {
      KeepsValid(db, g, Accept(room, target, e, pid, digest));
      if g == "" || room == "" || target == "" || e > MAX_EPOCH { return Rejected(InvalidField); }
      if pid == "" || digest == NoDigest { return Rejected(ProposalMissing); }
      var tx := Rows(db, g);
      if (e, target) !in tx.welcomes { return Rejected(WelcomeConflict); }
      var w := tx.welcomes[(e, target)];
      if w.proposalId != pid || w.digest != digest { return Rejected(WelcomeConflict); }
      if w.accepted { return Duplicate(NoMembership); }
      if !tx.present { return Rejected(MemberRequired); }
      if tx.room != room || tx.currentEpoch != e { return Rejected(WelcomeConflict); }
      tx := tx.(welcomes := tx.welcomes[(e, target) := w.(accepted := true)]);
      tx := tx.(members := tx.members[target := MemberRow(true, e, None)]);
      db := db[g := tx];
      return Stored(NoMembership);
    }

    /** PendingMLSWelcomes: the row loop gives up at the first stale row. In a valid store it
        never does, and it returns exactly the target's pending welcomes. */
    method PendingWelcomes(target: Code) returns (r: PendingResult)
      requires Valid()
      ensures r.Pending?
      ensures forall rec :: rec in r.records <==>
        exists g, e: nat :: PendingAt(Rows(db, g), e, target) && rec == RecordOf(db, g, e, target)
    {
      var rows := set g, k | g in db && k in db[g].welcomes && k.1 == target && !db[g].welcomes[k].accepted :: (g, k.0);
      var all := rows;
      var records: set<PendingRecord> := {};
      assert forall g, e :: (g, e) in all <==> PendingAt(Rows(db, g), e, target);
      while rows != {}
        invariant rows <= all
        invariant forall g, e :: (g, e) in all <==> PendingAt(Rows(db, g), e, target)
        invariant forall rec :: rec in records <==>
          exists g, e: nat :: (g, e as int) in all - rows && PendingAt(Rows(db, g), e, target)
                              && rec == RecordOf(db, g, e, target)
        decreases rows
      {
        var row :| row in rows;
        var (g, e) := row;
        assert PendingAt(Rows(db, g), e, target);
        assert WelcomeCurrent(Rows(db, g), e, target);
        if StaleRow(db, g, e) { assert false; return Stale(g); }
        var w := Rows(db, g).welcomes[(e, target)];
        records := records + {PendingRecord(g, Rows(db, g).room, e, target, w.proposalId, w.welcome, w.digest)};
        rows := rows - {row};
      }
      r := Pending(records);
    }

    /** MLSGroupHasControlState: false exactly for a group that no request has ever touched, so
        that none of the five tables has a row for it. */
    method HasControlState(g: GroupId) returns (present: bool)
      requires Valid()
      ensures present ==> g in db && Rows(db, g) != NO_ROWS
      ensures !present && g != "" ==> Rows(db, g) == NO_ROWS
      ensures present ==> forall r, h :: Rows(Apply(db, h, r).0, g).present
    {
      if g == "" || g !in db { return false; }
      present := db[g].present;
      if present {
        forall r, h ensures Rows(Apply(db, h, r).0, g).present { ControlStateStays(db, h, r, g); }
      }
    }
  }

  lemma KeepsValid(db: Database, g: GroupId, r: Request)
    requires DbInv(db)
    ensures DbInv(Apply(db, g, r).0)
  {
    InvOfNoRows();
    StepKeeps(Rows(db, g), r);
  }
}
