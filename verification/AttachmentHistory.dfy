/** Theorems over whole histories of the attachment store. */
module AttachmentHistory {
  import opened Wrappers
  import opened AttachmentTables
  import opened Chunks
  import opened AttachmentInvariants

  // ---------- Quota conservation ----------

  /** For every room after any history: the reserved bytes are the sum over its live uploads,
      the used bytes the sum over its committed attachments, both are non-negative and
      together at most 20 GiB. */
  lemma QuotaConservation(ops: seq<Op>, room: Room)
    ensures var s := Run(EMPTY_STORE, ops); var q := QuotaOf(s, room);
      && q.reserved == Reserved(s.uploads, room) >= 0
      && q.used == Used(s.attachments, room) >= 0
      && q.reserved + q.used <= 20 * 1024 * 1024 * 1024
  {
    InvOfEmpty();
    RunKeeps(EMPTY_STORE, ops);
    assert QuotaOk(Run(EMPTY_STORE, ops), room);
  }

  // ---------- Committed attachments ----------

  /** Plaintext bytes in the first `k` chunks. */
  function PlainTotal(size: int, k: nat): int {
    if k == 0 then 0 else PlainTotal(size, k - 1) + PlainSize(size, k - 1)
  }

  lemma {:induction false} PlainPrefix(size: int, k: nat)
    requires 0 < size && k < ChunkCount(size)
    ensures PlainTotal(size, k) == k * CHUNK < size
  {
    if k > 0 { PlainPrefix(size, k - 1); }
  }

  /** The chunk sizes are positive, at most one chunk, and tile the file exactly. */
  lemma SizesTile(size: int)
    requires 0 < size
    ensures 0 < ChunkCount(size) && PlainTotal(size, ChunkCount(size)) == size
    ensures forall i :: 0 <= i < ChunkCount(size) ==> 0 < PlainSize(size, i) <= CHUNK
  {
    PlainPrefix(size, ChunkCount(size) - 1);
  }

  /** Every chunk of a committed attachment can be downloaded; only the last is marked last. */
  lemma CommittedIsReadable(ops: seq<Op>, a: AttachmentId, i: int)
    requires var s := Run(EMPTY_STORE, ops); a in s.attachments && s.attachments[a].whole.Some?
    ensures var s := Run(EMPTY_STORE, ops); var size := s.attachments[a].logicalSize;
      if 0 <= i < ChunkCount(size) then
        && a in s.published && i in s.published[a]
        && Read(s, a, i) == Ok(Download(s.published[a][i], Sha256(s.published[a][i]), i == ChunkCount(size) - 1))
        && |s.published[a][i]| == PlainSize(size, i) + TAG
      else Read(s, a, i) == Err(OutOfRange)
  {
    InvOfEmpty();
    RunKeeps(EMPTY_STORE, ops);
    assert CommittedOk(Run(EMPTY_STORE, ops), a);
  }

  /** The ciphertext of chunks `i..n` of a directory, in order. */
  function Concat(dir: Dir, i: int, n: int): Bytes
    requires forall j :: i <= j < n ==> j in dir
    decreases n - i
  {
    if i >= n then [] else dir[i] + Concat(dir, i + 1, n)
  }

  lemma {:induction false} CheckDigest(size: int, rows: map<int, ChunkRow>, dir: Dir, i: int, acc: Bytes)
    requires CheckFrom(size, rows, dir, i, acc).Ok?
    ensures forall j :: i <= j < ChunkCount(size) ==> j in dir
    ensures CheckFrom(size, rows, dir, i, acc).value == Sha256(acc + Concat(dir, i, ChunkCount(size)))
    decreases ChunkCount(size) - i
  {
    CheckMeans(size, rows, dir, i, acc);
    forall j | i <= j < ChunkCount(size) ensures j in dir { assert j in rows && Matches(dir, j, rows[j]); }
    if i >= ChunkCount(size) {
      assert acc + [] == acc;
    } else {
      CheckDigest(size, rows, dir, i + 1, acc + dir[i]);
      var rest := Concat(dir, i + 1, ChunkCount(size));
      assert acc + (dir[i] + rest) == acc + dir[i] + rest;
    }
  }

  /** A successful commit publishes, for every index, exactly the ciphertext whose digest was
      accepted, and records the digest of all of them in order. */
  lemma CommitPublishesAccepted(s: Store, u: UploadId, author: Code, now: int)
    requires Inv(s) && Commit(s, u, author, now, false).1.Ok?
    ensures u in s.uploads
    ensures var s' := Commit(s, u, author, now, false).0;
      var a := s.uploads[u].attachment; var n := ChunkCount(s.uploads[u].logicalSize);
      && a in s'.attachments && a in s'.published && u !in s'.uploads
      && (forall i :: 0 <= i < n ==>
            && i in Rows(s, u) && i in s'.published[a]
            && Rows(s, u)[i] == ChunkRow(|s'.published[a][i]|, Sha256(s'.published[a][i])))
      && s'.attachments[a] == Attachment(s.uploads[u].room, s.uploads[u].logicalSize,
                                         Some(Sha256(Concat(s'.published[a], 0, n))))
  {
    var up := s.uploads[u];
    assert UploadOk(s, u);
    CheckMeans(up.logicalSize, Rows(s, u), Files(s, u), 0, []);
    CheckDigest(up.logicalSize, Rows(s, u), Files(s, u), 0, []);
    var whole := Concat(Files(s, u), 0, ChunkCount(up.logicalSize));
    assert [] + whole == whole;
    var s' := Commit(s, u, author, now, false).0;
    assert s'.published[up.attachment] == Files(s, u);
    forall i | 0 <= i < ChunkCount(up.logicalSize)
      ensures && i in Rows(s, u) && i in s'.published[up.attachment]
              && Rows(s, u)[i] == ChunkRow(|s'.published[up.attachment][i]|, Sha256(s'.published[up.attachment][i]))
    {
      assert i in Rows(s, u) && Matches(Files(s, u), i, Rows(s, u)[i]);
    }
  }

  lemma CommittedIsStable(s: Store, op: Op, a: AttachmentId)
    requires Inv(s) && a in s.attachments && s.attachments[a].whole.Some?
    ensures StaysCommitted(s, Apply(s, op), a)
  {
    assert CommittedOk(s, a);
    match op
    case InitOp(room, author, size, b, u, expiresAt) => InitIsElsewhere(s, a, room, author, size, b, u, expiresAt);
    case CommitOp(u, author, now, crash) => CommitOpIsElsewhere(s, u, author, now, crash, a);
    case ExpireOp(u) => ExpireIsElsewhere(s, u, a);
    case _ => ChunkOpIsElsewhere(s, op);
  }

  /** The operations on chunk rows and unpublished files. */
  lemma ChunkOpIsElsewhere(s: Store, op: Op)
    requires op.StoreOp? || op.ResumeOp? || op.SweepOp? || op.CorruptOp?
    ensures Apply(s, op).attachments == s.attachments && Apply(s, op).published == s.published
  {
    if op.StoreOp? {
      StoreShape(s, op.upload, op.author, op.index, op.cipher, op.digest, op.now, op.crash);
    }
  }

  lemma CommitOpIsElsewhere(s: Store, u: UploadId, author: Code, now: int, crash: bool, a: AttachmentId)
    requires UploadsOk(s) && a in s.attachments && s.attachments[a].whole.Some? && a in s.published
    ensures StaysCommitted(s, Commit(s, u, author, now, crash).0, a)
  {
    CommitShape(s, u, author, now, crash);
    var s' := Commit(s, u, author, now, crash).0;
    if s' != s { CommitIsElsewhere(s, u, a, s'); }
  }

  ghost predicate StaysCommitted(s: Store, s': Store, a: AttachmentId)
    requires a in s.attachments
  {
    && a in s'.attachments && s'.attachments[a] == s.attachments[a]
    && a in s.published && a in s'.published && s'.published[a] == s.published[a]
  }

  lemma ExpireIsElsewhere(s: Store, u: UploadId, a: AttachmentId)
    requires UploadsOk(s) && a in s.attachments && s.attachments[a].whole.Some? && a in s.published
    ensures StaysCommitted(s, ExpireTx(s, u), a)
  {
    if u in s.uploads { assert UploadOk(s, u); }
  }

  lemma InitIsElsewhere(s: Store, a: AttachmentId, room: Room, author: Code, size: int, b: AttachmentId, u: UploadId,
                        expiresAt: int)
    requires a in s.attachments && a in s.published
    ensures StaysCommitted(s, Init(s, room, author, size, b, u, expiresAt).0, a)
  {
  }

  /** A commit publishes an attachment that was not committed before. */
  lemma CommitIsElsewhere(s: Store, u: UploadId, a: AttachmentId, s': Store)
    requires UploadsOk(s) && a in s.attachments && s.attachments[a].whole.Some? && a in s.published
    requires u in s.uploads && u in s.partial
    requires s' == Publish(s, u) || exists whole :: s' == CommitTx(Publish(s, u), u, s.uploads[u], whole)
    ensures a in s'.attachments && s'.attachments[a] == s.attachments[a]
    ensures a in s'.published && s'.published[a] == s.published[a]
  {
    assert UploadOk(s, u);
  }

  /** Nothing that happens later changes a committed attachment or its files. */
  lemma {:induction false} CommittedForever(s: Store, ops: seq<Op>, a: AttachmentId)
    requires Inv(s) && a in s.attachments && s.attachments[a].whole.Some?
    ensures var s' := Run(s, ops);
      && a in s'.attachments && s'.attachments[a] == s.attachments[a]
      && a in s'.published && a in s.published && s'.published[a] == s.published[a]
    decreases |ops|
  {
    assert CommittedOk(s, a);
    if ops != [] {
      ApplyKeeps(s, ops[0]);
      CommittedIsStable(s, ops[0], a);
      CommittedForever(Apply(s, ops[0]), ops[1..], a);
    }
  }

  // ---------- Accepted chunks ----------

  /** A retry of an accepted chunk never changes the store: the same bytes are answered as a
      duplicate (or as a disk failure when the file was damaged), other bytes as a conflict. */
  lemma RetryOfAcceptedChunk(s: Store, u: UploadId, author: Code, i: int, cipher: Bytes, now: int, crash: bool)
    requires Inv(s) && i in Rows(s, u) && LoadUpload(s, u, author, now).Ok?
    requires 0 < |cipher| <= CHUNK + CIPHER_OVERHEAD
    ensures var (s', r) := StoreChunk(s, u, author, i, cipher, Sha256(cipher), now, crash);
      && s' == s
      && (Sha256(cipher) != Rows(s, u)[i].digest ==> r == Err(ChunkConflict))
      && (Sha256(cipher) == Rows(s, u)[i].digest ==>
            if i in Files(s, u) && Files(s, u)[i] == cipher then r == Ok(Duplicate) else r == Err(DiskFailure))
  {
    assert RowOk(s.uploads[u].logicalSize, i, Rows(s, u)[i]);
  }

  // ---------- A client that sends the chunks of one file ----------

  /** The ciphertexts of all chunks of a file of this size. */
  ghost predicate IsCiphertext(size: int, cs: seq<Bytes>) {
    && 0 < size <= MAX_LOGICAL
    && |cs| == ChunkCount(size)
    && forall i :: 0 <= i < |cs| ==> |cs[i]| == PlainSize(size, i) + TAG
  }

  ghost predicate Published(s: Store, a: AttachmentId, cs: seq<Bytes>) {
    a in s.published && forall i :: 0 <= i < |cs| ==> i in s.published[a] && s.published[a][i] == cs[i]
  }

  ghost predicate RowsAre(rows: map<int, ChunkRow>, cs: seq<Bytes>) {
    forall i :: i in rows ==> 0 <= i < |cs| && rows[i] == ChunkRow(|cs[i]|, Sha256(cs[i]))
  }

  ghost predicate FilesAre(dir: Dir, cs: seq<Bytes>) {
    forall i :: i in dir ==> 0 <= i < |cs| && dir[i] == cs[i]
  }

  /** Upload `u` is the only one for attachment `a`, and it has the file's size. */
  ghost predicate Owns(uploads: map<UploadId, Upload>, u: UploadId, a: AttachmentId, size: int) {
    && (u in uploads ==> uploads[u].attachment == a && uploads[u].logicalSize == size)
    && (forall v :: v in uploads && uploads[v].attachment == a ==> v == u)
  }

  ghost predicate CommittedIs(s: Store, a: AttachmentId, size: int, cs: seq<Bytes>) {
    a in s.attachments && s.attachments[a].whole.Some? ==> s.attachments[a].logicalSize == size && Published(s, a, cs)
  }

  /** Rows, files and the published attachment of upload `u` hold nothing but the chunks `cs`;
      until the directory is published every row has its file. */
  ghost predicate Honest(s: Store, u: UploadId, a: AttachmentId, size: int, cs: seq<Bytes>) {
    && Owns(s.uploads, u, a, size)
    && RowsAre(Rows(s, u), cs)
    && FilesAre(Files(s, u), cs)
    && (u in s.uploads && a !in s.published ==> Rows(s, u).Keys <= Files(s, u).Keys)
    && CommittedIs(s, a, size, cs)
  }

  /** What may happen around the upload: anything, except that its own chunk requests carry
      its chunks, its unpublished files are not damaged, and its ids are not handed out again. */
  predicate Faithful(op: Op, u: UploadId, a: AttachmentId, cs: seq<Bytes>) {
    match op
    case InitOp(_, _, _, a', u', _) => a' != a && u' != u
    case StoreOp(u', _, i, cipher, _, _, _) => u' == u && 0 <= i < |cs| ==> cipher == cs[i]
    case CorruptOp(u', _) => u' != u
    case _ => true
  }

  /** Steps on chunk rows and unpublished files: the rows and files of `u` stay, or gain the
      chunk `i` of the file. */
  lemma ChunkStepKeepsHonest(s: Store, s': Store, u: UploadId, a: AttachmentId, size: int, cs: seq<Bytes>, i: int)
    requires Honest(s, u, a, size, cs)
    requires s'.uploads == s.uploads && s'.attachments == s.attachments && s'.published == s.published
    requires Files(s', u) == Files(s, u) || (0 <= i < |cs| && Files(s', u) == Files(s, u)[i := cs[i]])
    requires || Rows(s', u) == Rows(s, u)
             || (&& 0 <= i < |cs| && i in Files(s', u)
                 && Rows(s', u) == Rows(s, u)[i := ChunkRow(|cs[i]|, Sha256(cs[i]))])
    ensures Honest(s', u, a, size, cs)
  {
  }

  lemma StoreKeepsHonest(s: Store, u: UploadId, a: AttachmentId, size: int, cs: seq<Bytes>,
                         v: UploadId, i: int, cipher: Bytes, s': Store)
    requires Inv(s) && IsCiphertext(size, cs) && Honest(s, u, a, size, cs)
    requires v in s.uploads && 0 <= i < ChunkCount(s.uploads[v].logicalSize)
    requires v == u && 0 <= i < |cs| ==> cipher == cs[i]
    requires var row := ChunkRow(|cipher|, Sha256(cipher));
      || (i in Files(s, v) && s' == WithRow(s, v, i, row))
      || s' == WithFile(s, v, i, cipher)
      || s' == WithRow(WithFile(s, v, i, cipher), v, i, row)
    ensures Honest(s', u, a, size, cs)
  {
    var row := ChunkRow(|cipher|, Sha256(cipher));
    WrittenParts(s, v, i, cipher, row, u);
    WrittenParts(WithFile(s, v, i, cipher), v, i, cipher, row, u);
    ChunkStepKeepsHonest(s, s', u, a, size, cs, i);
  }

  /** Writing a file or a row of upload `v`, as seen from upload `u`. */
  lemma WrittenParts(s: Store, v: UploadId, i: int, cipher: Bytes, row: ChunkRow, u: UploadId)
    ensures Rows(WithRow(s, v, i, row), u) == if v == u then Rows(s, u)[i := row] else Rows(s, u)
    ensures Files(WithRow(s, v, i, row), u) == Files(s, u)
    ensures Files(WithFile(s, v, i, cipher), u) == if v == u then Files(s, u)[i := cipher] else Files(s, u)
    ensures Rows(WithFile(s, v, i, cipher), u) == Rows(s, u)
  {
  }

  lemma ForgetKeepsHonest(s: Store, u: UploadId, a: AttachmentId, size: int, cs: seq<Bytes>,
                          v: UploadId, rows: set<int>, files: set<int>)
    requires Honest(s, u, a, size, cs)
    requires v == u && u in s.uploads && a !in s.published ==> rows == {} && files == {}
    ensures Honest(Forget(s, v, rows, files), u, a, size, cs)
  {
    var s' := Forget(s, v, rows, files);
    assert Rows(s', u) == if v == u then Rows(s, u) - rows else Rows(s, u);
    assert Files(s', u) == if v == u then Files(s, u) - files else Files(s, u);
  }

  lemma NothingInvalid(s: Store, u: UploadId, a: AttachmentId, size: int, cs: seq<Bytes>)
    requires Honest(s, u, a, size, cs) && u in s.uploads && a !in s.published
    ensures Invalid(s, u) == {}
  {
    forall i | i in Rows(s, u) ensures Matches(Files(s, u), i, Rows(s, u)[i]) { assert i in Files(s, u); }
  }

  lemma PublishKeepsHonest(s: Store, u: UploadId, a: AttachmentId, size: int, cs: seq<Bytes>, v: UploadId)
    requires Inv(s) && IsCiphertext(size, cs) && Honest(s, u, a, size, cs)
    requires v in s.uploads && v in s.partial && s.uploads[v].attachment !in s.published
    requires CheckFrom(s.uploads[v].logicalSize, Rows(s, v), Files(s, v), 0, []).Ok?
    ensures Honest(Publish(s, v), u, a, size, cs)
    ensures v == u ==> Published(Publish(s, v), a, cs)
  {
    var s' := Publish(s, v);
    assert UploadOk(s, v);
    assert Rows(s', u) == Rows(s, u);
    assert Files(s', u) == if v == u then map[] else Files(s, u);
    if v == u {
      CheckMeans(size, Rows(s, u), Files(s, u), 0, []);
      forall i | 0 <= i < |cs| ensures i in s'.published[a] && s'.published[a][i] == cs[i] {
        assert i in Rows(s, u) && Matches(Files(s, u), i, Rows(s, u)[i]);
      }
    }
  }

  lemma CommitTxKeepsHonest(s: Store, u: UploadId, a: AttachmentId, size: int, cs: seq<Bytes>, v: UploadId,
                            whole: Digest)
    requires UploadsOk(s) && Honest(s, u, a, size, cs) && v in s.uploads
    requires v == u ==> Published(s, a, cs)
    ensures Honest(CommitTx(s, v, s.uploads[v], whole), u, a, size, cs)
  {
    var s' := CommitTx(s, v, s.uploads[v], whole);
    assert UploadOk(s, v);
    assert Files(s', u) == Files(s, u);
    assert Rows(s', u) == if v == u then map[] else Rows(s, u);
  }

  lemma ExpireKeepsHonest(s: Store, u: UploadId, a: AttachmentId, size: int, cs: seq<Bytes>, v: UploadId)
    requires UploadsOk(s) && Honest(s, u, a, size, cs) && v in s.uploads
    ensures Honest(ExpireTx(s, v), u, a, size, cs)
  {
    var s' := ExpireTx(s, v);
    assert UploadOk(s, v);
    assert Files(s', u) == Files(s, u);
    assert Rows(s', u) == if v == u then map[] else Rows(s, u);
  }

  lemma CommitKeepsHonest(s: Store, u: UploadId, a: AttachmentId, size: int, cs: seq<Bytes>, v: UploadId, s': Store)
    requires Inv(s) && IsCiphertext(size, cs) && Honest(s, u, a, size, cs)
    requires v in s.uploads && v in s.partial && s.uploads[v].attachment !in s.published
    requires var whole := CheckFrom(s.uploads[v].logicalSize, Rows(s, v), Files(s, v), 0, []);
      whole.Ok? && (s' == Publish(s, v) || s' == CommitTx(Publish(s, v), v, s.uploads[v], whole.value))
    ensures Honest(s', u, a, size, cs)
  {
    PublishKeepsHonest(s, u, a, size, cs, v);
    CommitKeeps(s, v);
    CommitTxKeepsHonest(Publish(s, v), u, a, size, cs, v,
                        CheckFrom(s.uploads[v].logicalSize, Rows(s, v), Files(s, v), 0, []).value);
  }

  lemma InitKeepsHonest(s: Store, u: UploadId, a: AttachmentId, size: int, cs: seq<Bytes>,
                        room: Room, author: Code, size': int, a': AttachmentId, u': UploadId, expiresAt: int)
    requires Honest(s, u, a, size, cs) && a' != a && u' != u
    ensures Honest(Init(s, room, author, size', a', u', expiresAt).0, u, a, size, cs)
  {
    var s' := Init(s, room, author, size', a', u', expiresAt).0;
    assert Rows(s', u) == Rows(s, u) && Files(s', u) == Files(s, u);
  }

  lemma DirKeepsHonest(s: Store, u: UploadId, a: AttachmentId, size: int, cs: seq<Bytes>, s': Store)
    requires Honest(s, u, a, size, cs)
    requires s' == s.(partial := s'.partial)
    requires Files(s', u) == Files(s, u) || (u !in s.uploads && Files(s', u) == map[])
    ensures Honest(s', u, a, size, cs)
  {
    assert Rows(s', u) == Rows(s, u);
  }

  lemma StoreOpKeepsHonest(s: Store, u: UploadId, a: AttachmentId, size: int, cs: seq<Bytes>, op: Op)
    requires Inv(s) && IsCiphertext(size, cs) && Honest(s, u, a, size, cs) && Faithful(op, u, a, cs) && op.StoreOp?
    ensures Honest(Apply(s, op), u, a, size, cs)
  {
    StoreShape(s, op.upload, op.author, op.index, op.cipher, op.digest, op.now, op.crash);
    var s' := Apply(s, op);
    if s' != s { StoreKeepsHonest(s, u, a, size, cs, op.upload, op.index, op.cipher, s'); }
  }

  lemma CommitOpKeepsHonest(s: Store, u: UploadId, a: AttachmentId, size: int, cs: seq<Bytes>, op: Op)
    requires Inv(s) && IsCiphertext(size, cs) && Honest(s, u, a, size, cs) && op.CommitOp?
    ensures Honest(Apply(s, op), u, a, size, cs)
  {
    CommitShape(s, op.upload, op.author, op.now, op.crash);
    var s' := Apply(s, op);
    if s' != s { CommitKeepsHonest(s, u, a, size, cs, op.upload, s'); }
  }

  /** Everything the store does keeps a client's upload honest. */
  lemma ApplyKeepsHonest(s: Store, u: UploadId, a: AttachmentId, size: int, cs: seq<Bytes>, op: Op)
    requires Inv(s) && IsCiphertext(size, cs) && Honest(s, u, a, size, cs) && Faithful(op, u, a, cs)
    ensures Honest(Apply(s, op), u, a, size, cs)
  {
    match op
    case InitOp(room, author, size', a', u', expiresAt) =>
      InitKeepsHonest(s, u, a, size, cs, room, author, size', a', u', expiresAt);
    case StoreOp(v, author, i, cipher, digest, now, crash) => StoreOpKeepsHonest(s, u, a, size, cs, op);
    case ResumeOp(v, _, _, rows, files) =>
      if u in s.uploads && a !in s.published { NothingInvalid(s, u, a, size, cs); }
      ForgetKeepsHonest(s, u, a, size, cs, v, rows * Invalid(s, v), files * Invalid(s, v));
    case CommitOp(v, author, now, crash) => CommitOpKeepsHonest(s, u, a, size, cs, op);
    case ExpireOp(v) => if v in s.uploads { ExpireKeepsHonest(s, u, a, size, cs, v); }
    case SweepOp(v) => DirKeepsHonest(s, u, a, size, cs, Apply(s, op));
    case CorruptOp(v, dir) => DirKeepsHonest(s, u, a, size, cs, Apply(s, op));
  }

  lemma {:induction false} RunKeepsHonest(s: Store, u: UploadId, a: AttachmentId, size: int, cs: seq<Bytes>,
                                          ops: seq<Op>)
    requires Inv(s) && IsCiphertext(size, cs) && Honest(s, u, a, size, cs)
    requires forall op :: op in ops ==> Faithful(op, u, a, cs)
    ensures Honest(Run(s, ops), u, a, size, cs)
    decreases |ops|
  {
    if ops != [] {
      ApplyKeeps(s, ops[0]);
      ApplyKeepsHonest(s, u, a, size, cs, ops[0]);
      RunKeepsHonest(Apply(s, ops[0]), u, a, size, cs, ops[1..]);
    }
  }

  /** A new upload under new ids starts honest. */
  lemma InitIsHonest(s: Store, room: Room, author: Code, size: int, a: AttachmentId, u: UploadId, expiresAt: int,
                     cs: seq<Bytes>)
    requires Inv(s) && u !in s.partial && Init(s, room, author, size, a, u, expiresAt).1.Ok?
    ensures Honest(Init(s, room, author, size, a, u, expiresAt).0, u, a, size, cs)
  {
    forall v | v in s.uploads ensures s.uploads[v].attachment != a { assert UploadOk(s, v); }
    assert u !in s.chunks;
  }

  /** Whatever the order, repetition, loss and crashes between: once the attachment is
      committed, downloading index `i` gives exactly the client's chunk `i`. */
  lemma DownloadsWhatWasSent(s: Store, room: Room, author: Code, size: int, a: AttachmentId, u: UploadId,
                             expiresAt: int,
                             cs: seq<Bytes>, ops: seq<Op>, i: int)
    requires Inv(s) && u !in s.partial && IsCiphertext(size, cs)
    requires Init(s, room, author, size, a, u, expiresAt).1.Ok?
    requires forall op :: op in ops ==> Faithful(op, u, a, cs)
    requires 0 <= i < |cs|
    ensures var t := Run(Init(s, room, author, size, a, u, expiresAt).0, ops);
      a in t.attachments && t.attachments[a].whole.Some? ==>
        Read(t, a, i) == Ok(Download(cs[i], Sha256(cs[i]), i == |cs| - 1))
  {
    var s1 := Init(s, room, author, size, a, u, expiresAt).0;
    InitKeeps(s, room, author, size, a, u, expiresAt);
    InitIsHonest(s, room, author, size, a, u, expiresAt, cs);
    RunKeepsHonest(s1, u, a, size, cs, ops);
  }

  // ---------- Resuming ----------

  ghost predicate InRange(order: seq<int>, n: int) {
    forall k :: 0 <= k < |order| ==> 0 <= order[k] < n
  }

  /** Sending chunks in the given order, each answered before the next. */
  ghost function SendAll(s: Store, u: UploadId, author: Code, now: int, cs: seq<Bytes>, order: seq<int>): Store
    requires InRange(order, |cs|)
    decreases |order|
  {
    if order == [] then s
    else SendAll(StoreChunk(s, u, author, order[0], cs[order[0]], Sha256(cs[order[0]]), now, false).0,
                 u, author, now, cs, order[1..])
  }

  /** The upload is live for this author and its directory is not published. */
  ghost predicate Resumable(s: Store, u: UploadId, a: AttachmentId, author: Code, now: int, size: int, cs: seq<Bytes>) {
    && Inv(s) && IsCiphertext(size, cs) && Honest(s, u, a, size, cs)
    && LoadUpload(s, u, author, now).Ok?
    && a !in s.published
  }

  /** After any history of drops, crashes and other traffic, an upload that is still live and
      not in the publish gap is resumable. */
  lemma ResumableAfterHistory(s: Store, room: Room, author: Code, size: int, a: AttachmentId, u: UploadId,
                              expiresAt: int,
                              cs: seq<Bytes>, ops: seq<Op>, now: int)
    requires Inv(s) && u !in s.partial && IsCiphertext(size, cs)
    requires Init(s, room, author, size, a, u, expiresAt).1.Ok?
    requires forall op :: op in ops ==> Faithful(op, u, a, cs)
    ensures var t := Run(Init(s, room, author, size, a, u, expiresAt).0, ops);
      LoadUpload(t, u, author, now).Ok? && a !in t.published ==> Resumable(t, u, a, author, now, size, cs)
  {
    var s1 := Init(s, room, author, size, a, u, expiresAt).0;
    InitKeeps(s, room, author, size, a, u, expiresAt);
    InitIsHonest(s, room, author, size, a, u, expiresAt, cs);
    RunKeeps(s1, ops);
    RunKeepsHonest(s1, u, a, size, cs, ops);
  }

  /** The store accepts a chunk of the file: new, or as a duplicate. */
  lemma SendAnswer(s: Store, u: UploadId, a: AttachmentId, author: Code, now: int, size: int, cs: seq<Bytes>, i: int)
    requires Resumable(s, u, a, author, now, size, cs) && 0 <= i < |cs|
    ensures var (s', r) := StoreChunk(s, u, author, i, cs[i], Sha256(cs[i]), now, false);
      && r.Ok? && s'.uploads == s.uploads && s'.published == s.published
      && Rows(s', u).Keys == Rows(s, u).Keys + {i}
  {
    SizesTile(size);
    assert |cs[i]| <= CHUNK + CIPHER_OVERHEAD && cs[i] != [];
    assert ValidateChunk(size, i, cs[i], Sha256(cs[i])).Ok?;
    if i in Rows(s, u) { assert i in Files(s, u); }
  }

  lemma SendOne(s: Store, u: UploadId, a: AttachmentId, author: Code, now: int, size: int, cs: seq<Bytes>, i: int)
    requires Resumable(s, u, a, author, now, size, cs) && 0 <= i < |cs|
    ensures var (s', r) := StoreChunk(s, u, author, i, cs[i], Sha256(cs[i]), now, false);
      && r.Ok?
      && Resumable(s', u, a, author, now, size, cs)
      && Rows(s', u).Keys == Rows(s, u).Keys + {i}
  {
    var op := StoreOp(u, author, i, cs[i], Sha256(cs[i]), now, false);
    ApplyKeeps(s, op);
    ApplyKeepsHonest(s, u, a, size, cs, op);
    SendAnswer(s, u, a, author, now, size, cs, i);
  }

  lemma OrderUnfolds(order: seq<int>, keys: set<int>)
    requires order != []
    ensures keys + (set i | i in order) == keys + {order[0]} + (set i | i in order[1..])
  {
    assert order == [order[0]] + order[1..];
  }

  lemma {:induction false} SendAllFills(s: Store, u: UploadId, a: AttachmentId, author: Code, now: int, size: int,
                                        cs: seq<Bytes>, order: seq<int>)
    requires Resumable(s, u, a, author, now, size, cs) && InRange(order, |cs|)
    ensures Resumable(SendAll(s, u, author, now, cs, order), u, a, author, now, size, cs)
    ensures Rows(SendAll(s, u, author, now, cs, order), u).Keys == Rows(s, u).Keys + set i | i in order
    decreases |order|
  {
    if order != [] {
      var i := order[0];
      SendOne(s, u, a, author, now, size, cs, i);
      var s1 := StoreChunk(s, u, author, i, cs[i], Sha256(cs[i]), now, false).0;
      SendAllFills(s1, u, a, author, now, size, cs, order[1..]);
      OrderUnfolds(order, Rows(s, u).Keys);
    }
  }

  lemma {:induction false} FullCheckSucceeds(size: int, rows: map<int, ChunkRow>, dir: Dir, cs: seq<Bytes>, i: int,
                                             acc: Bytes)
    requires IsCiphertext(size, cs) && 0 <= i <= |cs|
    requires forall j :: j in rows <==> 0 <= j < |cs|
    requires forall j :: 0 <= j < |cs| ==> rows[j] == ChunkRow(|cs[j]|, Sha256(cs[j])) && j in dir && dir[j] == cs[j]
    ensures CheckFrom(size, rows, dir, i, acc).Ok?
    decreases |cs| - i
  {
    if i < |cs| {
      assert rows[i] == ChunkRow(|cs[i]|, Sha256(cs[i])) && dir[i] == cs[i];
      FullCheckSucceeds(size, rows, dir, cs, i + 1, acc + dir[i]);
    }
  }

  lemma FullCommitSucceeds(s: Store, u: UploadId, a: AttachmentId, author: Code, now: int, size: int, cs: seq<Bytes>)
    requires Resumable(s, u, a, author, now, size, cs)
    requires forall i :: 0 <= i < |cs| ==> i in Rows(s, u)
    ensures Commit(s, u, author, now, false).1.Ok?
  {
    SizesTile(size);
    assert 0 in Rows(s, u) && 0 in Files(s, u);
    FullCheckSucceeds(size, Rows(s, u), Files(s, u), cs, 0, []);
  }

  /** The exact condition for a commit of the client's chunks to succeed. */
  lemma CommitSucceedsExactly(s: Store, u: UploadId, a: AttachmentId, author: Code, now: int, size: int, cs: seq<Bytes>)
    requires Inv(s) && IsCiphertext(size, cs) && Honest(s, u, a, size, cs) && LoadUpload(s, u, author, now).Ok?
    ensures Commit(s, u, author, now, false).1.Ok? <==>
              a !in s.published && forall i :: 0 <= i < |cs| ==> i in Rows(s, u)
  {
    if Commit(s, u, author, now, false).1.Ok? {
      CheckMeans(size, Rows(s, u), Files(s, u), 0, []);
    } else if a !in s.published && forall i :: 0 <= i < |cs| ==> i in Rows(s, u) {
      FullCommitSucceeds(s, u, a, author, now, size, cs);
    }
  }

  /** The directory is in place but the attachment is not committed. */
  ghost predicate InPublishGap(s: Store, a: AttachmentId) {
    a in s.published && (a in s.attachments ==> s.attachments[a].whole.None?)
  }

  lemma GapStays(s: Store, op: Op, a: AttachmentId)
    requires UploadsOk(s) && InPublishGap(s, a)
    ensures InPublishGap(Apply(s, op), a)
  {
    match op
    case StoreOp(u, author, i, cipher, digest, now, crash) => StoreShape(s, u, author, i, cipher, digest, now, crash);
    case CommitOp(u, author, now, crash) => CommitShape(s, u, author, now, crash);
    case _ =>
  }

  /** A crash between the publishing rename and the commit transaction is final: whatever is
      sent afterwards, the attachment is never committed. */
  lemma {:induction false} PublishGapIsFinal(s: Store, ops: seq<Op>, a: AttachmentId)
    requires Inv(s) && InPublishGap(s, a)
    ensures InPublishGap(Run(s, ops), a)
    decreases |ops|
  {
    if ops != [] {
      ApplyKeeps(s, ops[0]);
      GapStays(s, ops[0], a);
      PublishGapIsFinal(Apply(s, ops[0]), ops[1..], a);
    }
  }

  /** The crash does leave the gap. */
  lemma CrashLeavesGap(s: Store, u: UploadId, author: Code, now: int)
    requires Inv(s) && Commit(s, u, author, now, false).1.Ok?
    ensures u in s.uploads && InPublishGap(Commit(s, u, author, now, true).0, s.uploads[u].attachment)
  {
    assert UploadOk(s, u);
  }

  /** The whole answer of a resume that is not cut short. */
  ghost function ResumeAnswer(s: Store, u: UploadId, author: Code, now: int): (Store, Result<seq<int>>) {
    Resume(s, u, author, now, Invalid(s, u), Invalid(s, u))
  }

  lemma ResumeListsRows(s: Store, u: UploadId, a: AttachmentId, author: Code, now: int, size: int, cs: seq<Bytes>)
    requires Resumable(s, u, a, author, now, size, cs)
    ensures var (s', r) := ResumeAnswer(s, u, author, now);
      && r.Ok? && (forall i :: i in r.value <==> i in Rows(s, u))
      && Resumable(s', u, a, author, now, size, cs) && Rows(s', u) == Rows(s, u)
  {
    var op := ResumeOp(u, author, now, Invalid(s, u), Invalid(s, u));
    ApplyKeeps(s, op);
    ApplyKeepsHonest(s, u, a, size, cs, op);
    NothingInvalid(s, u, a, size, cs);
    QuietResume(s, u, author, now);
    AscendingMeans(Rows(s, u).Keys, 0, ChunkCount(size));
  }

  /** Without invalid chunks a resume changes nothing and lists every row. */
  lemma QuietResume(s: Store, u: UploadId, author: Code, now: int)
    requires LoadUpload(s, u, author, now).Ok? && Invalid(s, u) == {}
    ensures var (s', r) := ResumeAnswer(s, u, author, now);
      && r == Ok(Ascending(Rows(s, u).Keys, 0, ChunkCount(s.uploads[u].logicalSize)))
      && Rows(s', u) == Rows(s, u) && s'.uploads == s.uploads && s'.published == s.published
  {
    assert Rows(s, u).Keys - {} == Rows(s, u).Keys;
    var s' := ResumeAnswer(s, u, author, now).0;
    assert Rows(s', u) == Rows(s, u) - {};
  }

  /** Resume completes: after any history outside the publish gap, sending exactly the indexes
      missing from the resume answer, in any order, makes the commit succeed. */
  lemma ResumeCompletes(s: Store, u: UploadId, a: AttachmentId, author: Code, now: int, size: int, cs: seq<Bytes>,
                        order: seq<int>)
    requires Resumable(s, u, a, author, now, size, cs) && InRange(order, |cs|)
    requires forall i :: 0 <= i < |cs| && i !in ResumeAnswer(s, u, author, now).1.value ==> i in order
    ensures var s2 := SendAll(ResumeAnswer(s, u, author, now).0, u, author, now, cs, order);
      && Commit(s2, u, author, now, false).1.Ok?
      && Published(Commit(s2, u, author, now, false).0, a, cs)
  {
    ResumeListsRows(s, u, a, author, now, size, cs);
    var s1 := ResumeAnswer(s, u, author, now).0;
    SendAllFills(s1, u, a, author, now, size, cs, order);
    var s2 := SendAll(s1, u, author, now, cs, order);
    forall i | 0 <= i < |cs| ensures i in Rows(s2, u) {
      if i !in order { assert i in Rows(s1, u); }
    }
    FullCommitSucceeds(s2, u, a, author, now, size, cs);
    ApplyKeepsHonest(s2, u, a, size, cs, CommitOp(u, author, now, false));
    CommitPublishesAccepted(s2, u, author, now);
  }
}
