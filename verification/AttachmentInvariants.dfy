/** What the attachment store keeps over every history of operations, crashes and faults on
    files that are not published yet. */
module AttachmentInvariants {
  import opened Wrappers
  import opened AttachmentTables
  import opened Chunks

  // ---------- Sums over a table ----------

  ghost function Sum(m: map<string, int>): int
    decreases m.Keys
  {
    if m == map[] then 0 else var k :| k in m; m[k] + Sum(m - {k})
  }

  lemma {:induction false} SumWithout(m: map<string, int>, k: string)
    requires k in m
    ensures Sum(m) == m[k] + Sum(m - {k})
    decreases m.Keys
  {
    var j :| j in m && Sum(m) == m[j] + Sum(m - {j});
    if j != k {
      SumWithout(m - {j}, k);
      SumWithout(m - {k}, j);
      assert m - {j} - {k} == m - {k} - {j};
    }
  }

  lemma SumWith(m: map<string, int>, k: string, v: int)
    requires k !in m
    ensures Sum(m[k := v]) == Sum(m) + v
  {
    SumWithout(m[k := v], k);
    assert m[k := v] - {k} == m;
  }

  lemma {:induction false} SumIsNonNegative(m: map<string, int>)
    requires forall k :: k in m ==> m[k] >= 0
    ensures Sum(m) >= 0
    decreases m.Keys
  {
    if m != map[] {
      var k :| k in m;
      SumWithout(m, k);
      SumIsNonNegative(m - {k});
    }
  }

  /** The reservations of a room's live uploads. */
  ghost function ReservedBy(uploads: map<UploadId, Upload>, room: Room): map<UploadId, int> {
    map u | u in uploads && uploads[u].room == room :: uploads[u].reserved
  }

  ghost function Reserved(uploads: map<UploadId, Upload>, room: Room): int {
    Sum(ReservedBy(uploads, room))
  }

  /** The sizes of a room's committed attachments. */
  ghost function UsedBy(attachments: map<AttachmentId, Attachment>, room: Room): map<AttachmentId, int> {
    map a | a in attachments && attachments[a].room == room && attachments[a].whole.Some? :: attachments[a].logicalSize
  }

  ghost function Used(attachments: map<AttachmentId, Attachment>, room: Room): int {
    Sum(UsedBy(attachments, room))
  }

  lemma ReservedInsert(uploads: map<UploadId, Upload>, u: UploadId, up: Upload, room: Room)
    requires u !in uploads
    ensures Reserved(uploads[u := up], room) == Reserved(uploads, room) + (if up.room == room then up.reserved else 0)
  {
    if up.room == room {
      assert ReservedBy(uploads[u := up], room) == ReservedBy(uploads, room)[u := up.reserved];
      SumWith(ReservedBy(uploads, room), u, up.reserved);
    } else {
      assert ReservedBy(uploads[u := up], room) == ReservedBy(uploads, room);
    }
  }

  lemma ReservedRemove(uploads: map<UploadId, Upload>, u: UploadId, room: Room)
    requires u in uploads
    ensures Reserved(uploads, room) ==
            Reserved(uploads - {u}, room) + (if uploads[u].room == room then uploads[u].reserved else 0)
  {
    ReservedInsert(uploads - {u}, u, uploads[u], room);
    assert (uploads - {u})[u := uploads[u]] == uploads;
  }

  lemma ReservedIsNonNegative(uploads: map<UploadId, Upload>, room: Room)
    requires forall u :: u in uploads ==> uploads[u].reserved >= 0
    ensures Reserved(uploads, room) >= 0
  {
    SumIsNonNegative(ReservedBy(uploads, room));
  }

  /** Committing an attachment adds its size to its room. */
  lemma UsedCommit(attachments: map<AttachmentId, Attachment>, a: AttachmentId, whole: Digest, room: Room)
    requires a in attachments && attachments[a].whole == None
    ensures Used(attachments[a := attachments[a].(whole := Some(whole))], room)
         == Used(attachments, room) + (if attachments[a].room == room then attachments[a].logicalSize else 0)
  {
    var after := attachments[a := attachments[a].(whole := Some(whole))];
    if attachments[a].room == room {
      assert UsedBy(after, room) == UsedBy(attachments, room)[a := attachments[a].logicalSize];
      SumWith(UsedBy(attachments, room), a, attachments[a].logicalSize);
    } else {
      assert UsedBy(after, room) == UsedBy(attachments, room);
    }
  }

  /** Attachments that are not committed do not count. */
  lemma UsedIgnoresUncommitted(attachments: map<AttachmentId, Attachment>, after: map<AttachmentId, Attachment>,
                               a: AttachmentId, room: Room)
    requires a in attachments ==> attachments[a].whole == None
    requires a in after ==> after[a].whole == None
    requires after - {a} == attachments - {a}
    ensures Used(after, room) == Used(attachments, room)
  {
    forall b | b in attachments && b != a ensures b in after && after[b] == attachments[b] {
      assert b in attachments - {a} && (attachments - {a})[b] == attachments[b];
      assert b in after - {a} && (after - {a})[b] == after[b];
    }
    forall b | b in after && b != a ensures b in attachments {
      assert b in after - {a};
    }
    assert UsedBy(after, room) == UsedBy(attachments, room);
  }

  // ---------- The invariant ----------

  ghost predicate UploadOk(s: Store, u: UploadId)
    requires u in s.uploads
  {
    var up := s.uploads[u];
    && 0 < up.logicalSize <= MAX_LOGICAL
    && up.reserved == up.logicalSize
    && up.attachment in s.attachments
    && s.attachments[up.attachment] == Attachment(up.room, up.logicalSize, None)
  }

  ghost predicate UploadsOk(s: Store) {
    && (forall u :: u in s.uploads ==> UploadOk(s, u))
    && (forall u, v :: u in s.uploads && v in s.uploads && s.uploads[u].attachment == s.uploads[v].attachment ==>
          u == v)
  }

  ghost predicate RowOk(size: int, i: int, row: ChunkRow) {
    0 <= i < ChunkCount(size) && row.digest.Sha256? && |row.digest.preimage| == row.size
  }

  ghost predicate RowsOk(s: Store) {
    && (forall u :: u in s.chunks ==> u in s.uploads)
    && (forall u, i :: u in s.chunks && i in s.chunks[u] ==> RowOk(s.uploads[u].logicalSize, i, s.chunks[u][i]))
  }

  /** Every chunk of a committed attachment is on disk with the size of its plaintext and tag. */
  ghost predicate CommittedOk(s: Store, a: AttachmentId)
    requires a in s.attachments
  {
    s.attachments[a].whole.Some? ==>
      && a in s.published
      && forall i :: 0 <= i < ChunkCount(s.attachments[a].logicalSize) ==>
           i in s.published[a] && |s.published[a][i]| == PlainSize(s.attachments[a].logicalSize, i) + TAG
  }

  ghost predicate AttachmentsOk(s: Store) {
    forall a :: a in s.attachments ==> 0 < s.attachments[a].logicalSize && CommittedOk(s, a)
  }

  /** The quota row of a room is the sum of what it accounts for, and within the limit. */
  ghost predicate QuotaOk(s: Store, room: Room) {
    var q := QuotaOf(s, room);
    && q.reserved == Reserved(s.uploads, room)
    && q.used == Used(s.attachments, room)
    && 0 <= q.reserved
    && 0 <= q.used
    && q.reserved + q.used <= MAX_ROOM
  }

  ghost predicate QuotasOk(s: Store) {
    forall room: Room :: QuotaOk(s, room)
  }

  ghost predicate Inv(s: Store) {
    UploadsOk(s) && RowsOk(s) && AttachmentsOk(s) && QuotasOk(s)
  }

  lemma InvOfEmpty()
    ensures Inv(EMPTY_STORE)
  {
    forall room: Room ensures QuotaOk(EMPTY_STORE, room) {
      assert ReservedBy(map[], room) == map[] && UsedBy(map[], room) == map[];
    }
  }

  // ---------- Quotas ----------

  /** Steps that leave the uploads, attachments and quotas alone leave the accounts alone. */
  lemma SameAccounts(s: Store, s': Store)
    requires QuotasOk(s) && s'.uploads == s.uploads && s'.attachments == s.attachments && s'.quotas == s.quotas
    ensures QuotasOk(s')
  {
    forall room: Room ensures QuotaOk(s', room) { assert QuotaOk(s, room); }
  }

  lemma InitAccounts(s: Store, att: AttachmentId, u: UploadId, up: Upload, s': Store)
    requires QuotasOk(s) && u !in s.uploads && att !in s.attachments
    requires 0 <= up.reserved <= MAX_LOGICAL && QuotaAllows(s, up.room, up.reserved)
    requires s'.uploads == s.uploads[u := up]
    requires s'.attachments == s.attachments[att := Attachment(up.room, up.logicalSize, None)]
    requires var q := QuotaOf(s, up.room); s'.quotas == s.quotas[up.room := q.(reserved := q.reserved + up.reserved)]
    ensures QuotasOk(s')
  {
    forall r: Room ensures QuotaOk(s', r) {
      assert QuotaOk(s, r);
      ReservedInsert(s.uploads, u, up, r);
      assert s'.attachments - {att} == s.attachments - {att};
      UsedIgnoresUncommitted(s.attachments, s'.attachments, att, r);
    }
  }

  /** The reservation of an upload is part of its room's account. */
  lemma ReservationCounted(s: Store, u: UploadId)
    requires UploadsOk(s) && QuotasOk(s) && u in s.uploads
    ensures var up := s.uploads[u];
      && up.room in s.quotas
      && 0 <= Reserved(s.uploads - {u}, up.room) == s.quotas[up.room].reserved - up.reserved
  {
    var up := s.uploads[u];
    assert UploadOk(s, u) && QuotaOk(s, up.room);
    ReservedRemove(s.uploads, u, up.room);
    forall v | v in s.uploads - {u} ensures (s.uploads - {u})[v].reserved >= 0 { assert UploadOk(s, v); }
    ReservedIsNonNegative(s.uploads - {u}, up.room);
  }

  lemma CommitAccounts(s: Store, u: UploadId, whole: Digest)
    requires UploadsOk(s) && QuotasOk(s) && u in s.uploads
    ensures QuotasOk(CommitTx(s, u, s.uploads[u], whole))
  {
    var up := s.uploads[u];
    var s' := CommitTx(s, u, up, whole);
    assert UploadOk(s, u);
    ReservationCounted(s, u);
    forall r: Room ensures QuotaOk(s', r) {
      assert QuotaOk(s, r);
      ReservedRemove(s.uploads, u, r);
      UsedCommit(s.attachments, up.attachment, whole, r);
    }
  }

  lemma ExpireAccounts(s: Store, u: UploadId)
    requires UploadsOk(s) && QuotasOk(s) && u in s.uploads
    ensures QuotasOk(ExpireTx(s, u))
  {
    var up := s.uploads[u];
    var s' := ExpireTx(s, u);
    assert UploadOk(s, u);
    ReservationCounted(s, u);
    forall r: Room ensures QuotaOk(s', r) {
      assert QuotaOk(s, r);
      ReservedRemove(s.uploads, u, r);
      assert s'.attachments - {up.attachment} == s.attachments - {up.attachment};
      UsedIgnoresUncommitted(s.attachments, s'.attachments, up.attachment, r);
    }
  }

  // ---------- The commit loop ----------

  /** What the verification loop has established when it succeeds. */
  lemma {:induction false} CheckMeans(size: int, rows: map<int, ChunkRow>, dir: Dir, i: int, acc: Bytes)
    requires CheckFrom(size, rows, dir, i, acc).Ok?
    ensures forall j :: i <= j < ChunkCount(size) ==>
              j in rows && Matches(dir, j, rows[j]) && |dir[j]| == PlainSize(size, j) + TAG
    decreases ChunkCount(size) - i
  {
    if i < ChunkCount(size) { CheckMeans(size, rows, dir, i + 1, acc + dir[i]); }
  }

  // ---------- One operation ----------

  lemma InitKeeps(s: Store, room: Room, author: Code, size: int, att: AttachmentId, u: UploadId, expiresAt: int)
    requires Inv(s)
    ensures Inv(Init(s, room, author, size, att, u, expiresAt).0)
  {
    var (s', r) := Init(s, room, author, size, att, u, expiresAt);
    if r.Ok? { NewUploadKeeps(s, att, u, Upload(att, room, author, size, size, expiresAt), s'); }
  }

  lemma NewUploadKeeps(s: Store, att: AttachmentId, u: UploadId, up: Upload, s': Store)
    requires Inv(s) && u !in s.uploads && att !in s.attachments && up.attachment == att
    requires 0 < up.logicalSize == up.reserved <= MAX_LOGICAL && QuotaAllows(s, up.room, up.reserved)
    requires s'.uploads == s.uploads[u := up]
    requires s'.attachments == s.attachments[att := Attachment(up.room, up.logicalSize, None)]
    requires var q := QuotaOf(s, up.room); s'.quotas == s.quotas[up.room := q.(reserved := q.reserved + up.reserved)]
    requires s'.chunks == s.chunks && s'.published == s.published
    ensures Inv(s')
  {
    InitAccounts(s, att, u, up, s');
    forall v | v in s'.uploads ensures UploadOk(s', v) {
      if v != u { assert UploadOk(s, v); }
    }
    forall v, w | v in s'.uploads && w in s'.uploads && s'.uploads[v].attachment == s'.uploads[w].attachment
      ensures v == w
    {
      if v != u { assert UploadOk(s, v); }
      if w != u { assert UploadOk(s, w); }
    }
    forall a | a in s'.attachments ensures 0 < s'.attachments[a].logicalSize && CommittedOk(s', a) {
      if a != att { assert CommittedOk(s, a); }
    }
  }

  /** Operations on chunk rows and unpublished files only. */
  lemma ChunkStepKeeps(s: Store, s': Store, u: UploadId)
    requires Inv(s)
    requires s'.uploads == s.uploads && s'.attachments == s.attachments && s'.quotas == s.quotas
    requires s'.published == s.published
    requires s'.chunks == s.chunks ||
             (&& u in s.uploads
              && u in s'.chunks && s'.chunks == s.chunks[u := s'.chunks[u]]
              && forall i :: i in s'.chunks[u] ==> RowOk(s.uploads[u].logicalSize, i, s'.chunks[u][i]))
    ensures Inv(s')
  {
    SameAccounts(s, s');
    forall v | v in s'.uploads ensures UploadOk(s', v) { assert UploadOk(s, v); }
    forall a | a in s'.attachments ensures 0 < s'.attachments[a].logicalSize && CommittedOk(s', a) {
      assert CommittedOk(s, a);
    }
  }

  /** What storing a chunk can do to the store. */
  lemma StoreShape(s: Store, u: UploadId, author: Code, i: int, cipher: Bytes, digest: Digest, now: int, crash: bool)
    ensures var (s', r) := StoreChunk(s, u, author, i, cipher, digest, now, crash);
      var row := ChunkRow(|cipher|, Sha256(cipher));
      || s' == s
      || (&& u in s.uploads && 0 <= i < ChunkCount(s.uploads[u].logicalSize)
          && i !in Rows(s, u)
          && (|| (Matches(Files(s, u), i, row) && s' == WithRow(s, u, i, row))
              || (i !in Files(s, u) && s' == WithFile(s, u, i, cipher))
              || (i !in Files(s, u) && s' == WithRow(WithFile(s, u, i, cipher), u, i, row))))
  {
  }

  lemma StoreKeeps(s: Store, u: UploadId, i: int, cipher: Bytes, s': Store)
    requires Inv(s) && u in s.uploads && 0 <= i < ChunkCount(s.uploads[u].logicalSize)
    requires var row := ChunkRow(|cipher|, Sha256(cipher));
      || s' == WithRow(s, u, i, row) || s' == WithFile(s, u, i, cipher)
      || s' == WithRow(WithFile(s, u, i, cipher), u, i, row)
    ensures Inv(s')
  {
    if s'.chunks != s.chunks {
      forall j | j in s'.chunks[u] ensures RowOk(s.uploads[u].logicalSize, j, s'.chunks[u][j]) {
        if j != i { assert j in s.chunks[u]; }
      }
    }
    ChunkStepKeeps(s, s', u);
  }

  lemma ResumeKeeps(s: Store, u: UploadId, rows: set<int>, files: set<int>)
    requires Inv(s) && u in s.uploads
    ensures Inv(Forget(s, u, rows, files))
  {
    ChunkStepKeeps(s, Forget(s, u, rows, files), u);
  }

  /** Renaming the upload's directory into place touches no committed attachment. */
  lemma PublishKeeps(s: Store, s': Store, a: AttachmentId, dir: Dir)
    requires Inv(s) && a !in s.published
    requires s'.uploads == s.uploads && s'.attachments == s.attachments
    requires s'.quotas == s.quotas && s'.chunks == s.chunks
    requires s'.published == s.published[a := dir]
    ensures Inv(s')
  {
    SameAccounts(s, s');
    forall v | v in s'.uploads ensures UploadOk(s', v) { assert UploadOk(s, v); }
    forall b | b in s'.attachments ensures 0 < s'.attachments[b].logicalSize && CommittedOk(s', b) {
      assert CommittedOk(s, b);
    }
  }

  lemma CommitTxKeeps(s: Store, u: UploadId, whole: Digest)
    requires Inv(s) && u in s.uploads
    requires var up := s.uploads[u];
      && up.attachment in s.published
      && forall i :: 0 <= i < ChunkCount(up.logicalSize) ==>
           i in s.published[up.attachment] && |s.published[up.attachment][i]| == PlainSize(up.logicalSize, i) + TAG
    ensures Inv(CommitTx(s, u, s.uploads[u], whole))
  {
    var s' := CommitTx(s, u, s.uploads[u], whole);
    assert UploadOk(s, u);
    CommitAccounts(s, u, whole);
    forall v | v in s'.uploads ensures UploadOk(s', v) { assert UploadOk(s, v); }
    forall a | a in s'.attachments ensures 0 < s'.attachments[a].logicalSize && CommittedOk(s', a) {
      assert CommittedOk(s, a);
    }
  }

  /** What a commit can do to the store. */
  lemma CommitShape(s: Store, u: UploadId, author: Code, now: int, crash: bool)
    ensures var (s', r) := Commit(s, u, author, now, crash);
      || s' == s
      || (&& u in s.uploads && u in s.partial
          && var up := s.uploads[u];
             var whole := CheckFrom(up.logicalSize, Rows(s, u), Files(s, u), 0, []);
             && whole.Ok? && up.attachment !in s.published
             && (s' == Publish(s, u) || s' == CommitTx(Publish(s, u), u, up, whole.value)))
  {
  }

  ghost function Publish(s: Store, u: UploadId): Store
    requires u in s.uploads && u in s.partial
  {
    s.(partial := s.partial - {u}, published := s.published[s.uploads[u].attachment := s.partial[u]])
  }

  lemma CommitKeeps(s: Store, u: UploadId)
    requires Inv(s) && u in s.uploads && u in s.partial
    requires s.uploads[u].attachment !in s.published
    requires CheckFrom(s.uploads[u].logicalSize, Rows(s, u), Files(s, u), 0, []).Ok?
    ensures Inv(Publish(s, u))
    ensures Inv(CommitTx(Publish(s, u), u, s.uploads[u],
                         CheckFrom(s.uploads[u].logicalSize, Rows(s, u), Files(s, u), 0, []).value))
  {
    var up := s.uploads[u];
    CheckMeans(up.logicalSize, Rows(s, u), Files(s, u), 0, []);
    PublishKeeps(s, Publish(s, u), up.attachment, s.partial[u]);
    forall i | 0 <= i < ChunkCount(up.logicalSize)
      ensures i in s.partial[u] && |s.partial[u][i]| == PlainSize(up.logicalSize, i) + TAG
    {
      assert i in Rows(s, u) && Matches(Files(s, u), i, Rows(s, u)[i]);
    }
    CommitTxKeeps(Publish(s, u), u, CheckFrom(up.logicalSize, Rows(s, u), Files(s, u), 0, []).value);
  }

  lemma ExpireKeeps(s: Store, u: UploadId)
    requires Inv(s)
    ensures Inv(ExpireTx(s, u))
  {
    if u in s.uploads {
      var s' := ExpireTx(s, u);
      assert UploadOk(s, u);
      ExpireAccounts(s, u);
      forall v | v in s'.uploads ensures UploadOk(s', v) { assert UploadOk(s, v); }
      forall a | a in s'.attachments ensures 0 < s'.attachments[a].logicalSize && CommittedOk(s', a) {
        assert CommittedOk(s, a);
      }
    }
  }

  /** Every operation, with or without a crash, keeps the invariant. */
  lemma ApplyKeeps(s: Store, op: Op)
    requires Inv(s)
    ensures Inv(Apply(s, op))
  {
    match op
    case InitOp(room, author, size, a, u, expiresAt) => InitKeeps(s, room, author, size, a, u, expiresAt);
    case StoreOp(u, author, i, cipher, digest, now, crash) =>
      StoreShape(s, u, author, i, cipher, digest, now, crash);
      if Apply(s, op) != s { StoreKeeps(s, u, i, cipher, Apply(s, op)); }
    case ResumeOp(u, author, now, rows, files) =>
      if u in s.uploads { ResumeKeeps(s, u, rows * Invalid(s, u), files * Invalid(s, u)); }
    case CommitOp(u, author, now, crash) =>
      CommitShape(s, u, author, now, crash);
      if Apply(s, op) != s { CommitKeeps(s, u); }
    case ExpireOp(u) => ExpireKeeps(s, u);
    case SweepOp(u) => ChunkStepKeeps(s, Apply(s, op), u);
    case CorruptOp(u, _) => ChunkStepKeeps(s, Apply(s, op), u);
  }

  lemma {:induction false} RunKeeps(s: Store, ops: seq<Op>)
    requires Inv(s)
    ensures Inv(Run(s, ops))
    decreases |ops|
  {
    if ops != [] {
      ApplyKeeps(s, ops[0]);
      RunKeeps(Apply(s, ops[0]), ops[1..]);
    }
  }
}
