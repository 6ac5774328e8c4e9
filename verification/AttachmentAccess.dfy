/** Who may do what with an upload, when each operation of the attachment store succeeds, and
    where everything it holds for an upload comes from. */
module AttachmentAccess {
  import opened Wrappers
  import opened Chunks
  import opened AttachmentTables
  import opened AttachmentInvariants
  import opened AttachmentHistory

  // ---------- Access ----------

  /** The upload's own author, in time. */
  ghost predicate MayUse(s: Store, u: UploadId, author: Code, now: int) {
    u in s.uploads && author != "" && s.uploads[u].author == author && now < s.uploads[u].expiresAt
  }

  /** Anybody else, and the author from the expiry on, is refused by every request and changes
      nothing. */
  lemma OthersAreRefused(s: Store, u: UploadId, author: Code, now: int, i: int, cipher: Bytes, digest: Digest,
                         rows: set<int>, files: set<int>, crash: bool)
    requires u in s.uploads && author != "" && (author != s.uploads[u].author || now >= s.uploads[u].expiresAt)
    ensures var e := if author != s.uploads[u].author then Unauthorized else Expired;
      && StoreChunk(s, u, author, i, cipher, digest, now, crash) == (s, Err(e))
      && Resume(s, u, author, now, rows, files) == (s, Err(e))
      && Commit(s, u, author, now, crash) == (s, Err(e))
  {
  }

  /** A request on an upload that does not exist, or without an author, is refused too. */
  lemma UnknownIsRefused(s: Store, u: UploadId, author: Code, now: int, i: int, cipher: Bytes, digest: Digest,
                         rows: set<int>, files: set<int>, crash: bool)
    requires u !in s.uploads || author == ""
    ensures var e := if author == "" then InvalidRequest else UploadNotFound;
      && StoreChunk(s, u, author, i, cipher, digest, now, crash) == (s, Err(e))
      && Resume(s, u, author, now, rows, files) == (s, Err(e))
      && Commit(s, u, author, now, crash) == (s, Err(e))
  {
  }

  // ---------- When each operation succeeds ----------

  /** Bytes that a room's live uploads and committed attachments take. */
  ghost function Taken(s: Store, room: Room): int {
    Reserved(s.uploads, room) + Used(s.attachments, room)
  }

  /** An upload is opened exactly for a named room and author, a size from 1 byte to 5 GiB that
      keeps the room within 20 GiB, and new ids. */
  lemma InitSucceedsExactly(s: Store, room: Room, author: Code, size: int, a: AttachmentId, u: UploadId, expiresAt: int)
    requires Inv(s)
    ensures var (s', r) := Init(s, room, author, size, a, u, expiresAt);
      && (r.Ok? <==>
            && room != "" && author != "" && 0 < size <= 5 * 1024 * 1024 * 1024
            && Taken(s, room) + size <= 20 * 1024 * 1024 * 1024
            && a !in s.attachments && u !in s.uploads)
      && (r.Err? ==> s' == s)
      && (room != "" && author != "" && size <= 0 ==> r == Err(InvalidSize))
      && (room != "" && author != "" && size > 5 * 1024 * 1024 * 1024 ==> r == Err(TooLarge))
      && (room != "" && author != "" && 0 < size <= 5 * 1024 * 1024 * 1024
          && Taken(s, room) + size > 20 * 1024 * 1024 * 1024
          ==> r == Err(QuotaExceeded))
  {
    assert QuotaOk(s, room);
    forall v | v in s.uploads ensures s.uploads[v].attachment in s.attachments { assert UploadOk(s, v); }
  }

  /** What opening an upload leaves behind. */
  lemma InitLeaves(s: Store, room: Room, author: Code, size: int, a: AttachmentId, u: UploadId, expiresAt: int)
    requires Inv(s) && Init(s, room, author, size, a, u, expiresAt).1.Ok?
    ensures var s' := Init(s, room, author, size, a, u, expiresAt).0;
      && s'.uploads == s.uploads[u := Upload(a, room, author, size, size, expiresAt)]
      && s'.attachments == s.attachments[a := Attachment(room, size, None)]
      && s'.chunks == s.chunks && s'.partial == s.partial && s'.published == s.published
      && Taken(s', room) == Taken(s, room) + size
      && forall other :: other != room ==> QuotaOf(s', other) == QuotaOf(s, other)
  {
    var s' := Init(s, room, author, size, a, u, expiresAt).0;
    ReservedInsert(s.uploads, u, Upload(a, room, author, size, size, expiresAt), room);
    assert s'.attachments - {a} == s.attachments - {a};
    UsedIgnoresUncommitted(s.attachments, s'.attachments, a, room);
  }

  /** A chunk of the announced digest, in range and not too large. */
  predicate GoodChunk(size: int, i: int, cipher: Bytes, digest: Digest) {
    0 <= i < ChunkCount(size) && 0 < |cipher| <= CHUNK + CIPHER_OVERHEAD && digest == Sha256(cipher)
  }

  /** Nothing that is stored for the index contradicts the chunk. */
  ghost predicate Agrees(rows: map<int, ChunkRow>, dir: Dir, i: int, cipher: Bytes) {
    && (i in rows ==> rows[i].digest == Sha256(cipher) && i in dir)
    && (i in dir ==> dir[i] == cipher)
  }

  /** A chunk is taken exactly from the author in time, if it is good and does not differ from
      what is stored; it is fresh exactly if nothing was stored. */
  lemma StoreSucceedsExactly(s: Store, u: UploadId, author: Code, i: int, cipher: Bytes, digest: Digest, now: int)
    requires Inv(s)
    ensures var (s', r) := StoreChunk(s, u, author, i, cipher, digest, now, false);
      && (r.Ok? <==>
            && MayUse(s, u, author, now) && GoodChunk(s.uploads[u].logicalSize, i, cipher, digest)
            && Agrees(Rows(s, u), Files(s, u), i, cipher))
      && (r == Ok(Fresh) <==> r.Ok? && i !in Rows(s, u) && i !in Files(s, u))
      && (r.Err? ==> s' == s)
  {
    if i in Rows(s, u) { assert RowOk(s.uploads[u].logicalSize, i, Rows(s, u)[i]); }
  }

  /** A taken chunk has its row and its file, and nothing else has changed. */
  lemma StoreLeaves(s: Store, u: UploadId, author: Code, i: int, cipher: Bytes, digest: Digest, now: int)
    requires Inv(s) && StoreChunk(s, u, author, i, cipher, digest, now, false).1.Ok?
    ensures var s' := StoreChunk(s, u, author, i, cipher, digest, now, false).0;
      && Rows(s', u) == Rows(s, u)[i := ChunkRow(|cipher|, Sha256(cipher))]
      && Files(s', u) == Files(s, u)[i := cipher]
      && s'.uploads == s.uploads && s'.attachments == s.attachments && s'.quotas == s.quotas
      && s'.published == s.published
  {
    StoreSucceedsExactly(s, u, author, i, cipher, digest, now);
    var s' := StoreChunk(s, u, author, i, cipher, digest, now, false).0;
    var row := ChunkRow(|cipher|, Sha256(cipher));
    if i in Rows(s, u) {
      assert RowOk(s.uploads[u].logicalSize, i, Rows(s, u)[i]);
      assert Rows(s, u)[i] == row && Rows(s, u) == Rows(s, u)[i := row] && Files(s, u) == Files(s, u)[i := cipher];
    } else if i in Files(s, u) {
      assert s' == WithRow(s, u, i, row) && Files(s, u) == Files(s, u)[i := cipher];
    } else {
      assert s' == WithRow(WithFile(s, u, i, cipher), u, i, row);
    }
  }

  /** Which refusal a chunk gets. */
  lemma StoreRefusals(s: Store, u: UploadId, author: Code, i: int, cipher: Bytes, digest: Digest, now: int)
    requires Inv(s) && MayUse(s, u, author, now)
    ensures var r := StoreChunk(s, u, author, i, cipher, digest, now, false).1;
      var n := ChunkCount(s.uploads[u].logicalSize);
      && (!(0 <= i < n) ==> r == Err(OutOfRange))
      && (0 <= i < n && !(0 < |cipher| <= CHUNK + CIPHER_OVERHEAD) ==> r == Err(ChunkTooLarge))
      && (0 <= i < n && 0 < |cipher| <= CHUNK + CIPHER_OVERHEAD && digest != Sha256(cipher) ==> r == Err(HashMismatch))
  {
  }

  /** The author in time gets the verified indexes in ascending order. */
  lemma ResumeSucceedsExactly(s: Store, u: UploadId, author: Code, now: int)
    requires Inv(s)
    ensures var (s', r) := ResumeAnswer(s, u, author, now);
      && (r.Ok? <==> MayUse(s, u, author, now))
      && (r.Ok? ==>
            && StrictlyAscending(r.value)
            && (forall i :: i in r.value <==> i in Rows(s, u) && Matches(Files(s, u), i, Rows(s, u)[i]))
            && (forall i :: i in Rows(s', u) <==> i in r.value)
            && (forall i :: i in r.value ==>
                  Rows(s', u)[i] == Rows(s, u)[i] && i in Files(s', u) && Files(s', u)[i] == Files(s, u)[i]))
  {
    if MayUse(s, u, author, now) {
      ListedExactly(s, u);
      var bad := Invalid(s, u) * Invalid(s, u);
      assert bad == Invalid(s, u);
      ForgottenParts(s, u, bad, bad, u);
    }
  }

  /** The list of a resume answer. */
  lemma ListedExactly(s: Store, u: UploadId)
    requires Inv(s) && u in s.uploads
    ensures var list := Ascending(Rows(s, u).Keys - Invalid(s, u), 0, ChunkCount(s.uploads[u].logicalSize));
      && StrictlyAscending(list)
      && forall i :: i in list <==> i in Rows(s, u) && Matches(Files(s, u), i, Rows(s, u)[i])
  {
    var n := ChunkCount(s.uploads[u].logicalSize);
    AscendingMeans(Rows(s, u).Keys - Invalid(s, u), 0, n);
    forall i | i in Rows(s, u) ensures 0 <= i < n { assert RowOk(s.uploads[u].logicalSize, i, Rows(s, u)[i]); }
  }

  /** Rows and files of exactly the chunks of the file, each with its size and digest. */
  ghost predicate Complete(size: int, rows: map<int, ChunkRow>, dir: Dir) {
    && (forall i :: i in rows <==> 0 <= i < ChunkCount(size))
    && (forall i :: i in rows ==>
          && i in dir && |dir[i]| == PlainSize(size, i) + TAG
          && rows[i] == ChunkRow(PlainSize(size, i) + TAG, Sha256(dir[i])))
  }

  lemma {:induction false} CheckOfComplete(size: int, rows: map<int, ChunkRow>, dir: Dir, i: int, acc: Bytes)
    requires Complete(size, rows, dir) && 0 <= i
    ensures CheckFrom(size, rows, dir, i, acc).Ok?
    decreases ChunkCount(size) - i
  {
    if i < ChunkCount(size) { CheckOfComplete(size, rows, dir, i + 1, acc + dir[i]); }
  }

  lemma {:induction false} CheckLeavesNothingOver(size: int, rows: map<int, ChunkRow>, dir: Dir, i: int, acc: Bytes)
    requires CheckFrom(size, rows, dir, i, acc).Ok? && 0 <= i
    ensures forall k :: k in rows && i <= k ==> k < ChunkCount(size)
    ensures forall k :: i <= k < ChunkCount(size) ==> k in rows && rows[k].size == PlainSize(size, k) + TAG
    decreases ChunkCount(size) - i
  {
    if i < ChunkCount(size) { CheckLeavesNothingOver(size, rows, dir, i + 1, acc + dir[i]); }
  }

  /** A commit succeeds exactly for the author in time, with every chunk in place and nothing
      published yet; the outcome is the committed attachment and an upload that is gone. */
  lemma CommitOkExactly(s: Store, u: UploadId, author: Code, now: int)
    requires Inv(s)
    ensures Commit(s, u, author, now, false).1.Ok? <==>
      && MayUse(s, u, author, now) && s.uploads[u].attachment !in s.published
      && Complete(s.uploads[u].logicalSize, Rows(s, u), Files(s, u))
  {
    if MayUse(s, u, author, now) {
      var size := s.uploads[u].logicalSize;
      assert UploadOk(s, u);
      forall i | i in Rows(s, u) ensures RowOk(size, i, Rows(s, u)[i]) { }
      if CheckFrom(size, Rows(s, u), Files(s, u), 0, []).Ok? {
        CheckMeans(size, Rows(s, u), Files(s, u), 0, []);
        CheckLeavesNothingOver(size, Rows(s, u), Files(s, u), 0, []);
        CheckedIsComplete(s, u);
      }
      if Complete(size, Rows(s, u), Files(s, u)) {
        CheckOfComplete(size, Rows(s, u), Files(s, u), 0, []);
        SizesTile(size);
        assert 0 in Rows(s, u);
      }
    }
  }

  lemma CheckedIsComplete(s: Store, u: UploadId)
    requires Inv(s) && u in s.uploads
    requires var size := s.uploads[u].logicalSize;
      && (forall j :: 0 <= j < ChunkCount(size) ==>
            j in Rows(s, u) && Matches(Files(s, u), j, Rows(s, u)[j]) && |Files(s, u)[j]| == PlainSize(size, j) + TAG)
    ensures Complete(s.uploads[u].logicalSize, Rows(s, u), Files(s, u))
  {
    forall i | i in Rows(s, u) ensures 0 <= i < ChunkCount(s.uploads[u].logicalSize) {
      assert RowOk(s.uploads[u].logicalSize, i, Rows(s, u)[i]);
    }
  }

  /** A download succeeds exactly for a chunk in range of a committed attachment. */
  lemma ReadSucceedsExactly(s: Store, a: AttachmentId, i: int)
    requires Inv(s)
    ensures var r := Read(s, a, i); var there := a in s.attachments && s.attachments[a].whole.Some?;
      && (r.Ok? <==> there && 0 <= i < ChunkCount(s.attachments[a].logicalSize))
      && (!there ==> r == Err(AttachmentNotFound))
      && (there && r.Err? ==> r == Err(OutOfRange))
      && (r.Ok? ==>
            && a in s.published && i in s.published[a]
            && r.value == Download(s.published[a][i], Sha256(s.published[a][i]),
                                   i == ChunkCount(s.attachments[a].logicalSize) - 1))
  {
    if a in s.attachments { assert CommittedOk(s, a); }
  }

  /** An expired upload goes with its rows, its reservation and its uncommitted attachment, and
      nothing else does. */
  lemma ExpiryLeaves(s: Store, u: UploadId)
    requires Inv(s) && u in s.uploads
    ensures var s' := ExpireTx(s, u); var up := s.uploads[u];
      && s'.uploads == s.uploads - {u} && Rows(s', u) == map[] && s'.attachments == s.attachments - {up.attachment}
      && QuotaOf(s', up.room) == Quota(QuotaOf(s, up.room).reserved - up.logicalSize, QuotaOf(s, up.room).used)
      && (forall v :: v != u ==> Rows(s', v) == Rows(s, v)) && s'.partial == s.partial && s'.published == s.published
      && Sweep(s', u).partial == s.partial - {u}
  {
    assert UploadOk(s, u);
    ReservationCounted(s, u);
  }

  // ---------- Where everything comes from ----------

  /** What an upload was opened with. */
  datatype Opening = Opening(upload: UploadId, attachment: AttachmentId, author: Code, expiresAt: int)

  /** A request of the author in time that carries this chunk. */
  ghost predicate Sent(op: Op, o: Opening, i: int, cipher: Bytes) {
    && op.StoreOp? && op.upload == o.upload && op.author == o.author && op.now < o.expiresAt
    && op.index == i && op.cipher == cipher && op.digest == Sha256(cipher)
  }

  ghost predicate WasSent(ops: seq<Op>, o: Opening, i: int, cipher: Bytes) {
    exists op :: op in ops && Sent(op, o, i, cipher)
  }

  ghost predicate CommitSent(ops: seq<Op>, o: Opening) {
    exists op :: op in ops && op.CommitOp? && op.upload == o.upload && op.author == o.author && op.now < o.expiresAt
  }

  ghost predicate RowsSent(ops: seq<Op>, o: Opening, rows: map<int, ChunkRow>) {
    forall i :: i in rows ==>
      rows[i].digest.Sha256? && WasSent(ops, o, i, rows[i].digest.preimage) && |rows[i].digest.preimage| == rows[i].size
  }

  ghost predicate FilesSent(ops: seq<Op>, o: Opening, dir: Dir) {
    forall i :: i in dir ==> WasSent(ops, o, i, dir[i])
  }

  /** Everything the store holds for the upload was sent by its author in time, and it was
      published only by a commit of the author in time. */
  ghost predicate Provenance(s: Store, ops: seq<Op>, o: Opening) {
    && (o.upload in s.uploads ==>
          var up := s.uploads[o.upload];
          up.author == o.author && up.expiresAt == o.expiresAt && up.attachment == o.attachment)
    && (forall v :: v in s.uploads && s.uploads[v].attachment == o.attachment ==> v == o.upload)
    && RowsSent(ops, o, Rows(s, o.upload)) && FilesSent(ops, o, Files(s, o.upload))
    && (o.attachment in s.published ==> CommitSent(ops, o) && FilesSent(ops, o, s.published[o.attachment]))
  }

  lemma MoreOps(ops: seq<Op>, op: Op, o: Opening, rows: map<int, ChunkRow>, dir: Dir)
    ensures RowsSent(ops, o, rows) ==> RowsSent(ops + [op], o, rows)
    ensures FilesSent(ops, o, dir) ==> FilesSent(ops + [op], o, dir)
    ensures CommitSent(ops, o) ==> CommitSent(ops + [op], o)
  {
    forall i, cipher | WasSent(ops, o, i, cipher) ensures WasSent(ops + [op], o, i, cipher) {
      var p :| p in ops && Sent(p, o, i, cipher);
      assert p in ops + [op];
    }
    if CommitSent(ops, o) {
      var p :| p in ops && p.CommitOp? && p.upload == o.upload && p.author == o.author && p.now < o.expiresAt;
      assert p in ops + [op];
    }
  }

  /** Nothing else happens to the upload: its ids are not handed out again and its files are not
      damaged. */
  predicate Undisturbed(op: Op, o: Opening) {
    && (op.InitOp? ==> op.upload != o.upload && op.attachment != o.attachment)
    && (op.CorruptOp? ==> op.upload != o.upload)
  }

  /** The rows and files of the upload after a step, and what is published, are parts of what
      they were, or gain the chunk the step carried. */
  lemma StepProvenance(s: Store, s': Store, ops: seq<Op>, op: Op, o: Opening)
    requires Provenance(s, ops, o)
    requires forall v :: v in s'.uploads ==>
      (v in s.uploads && s'.uploads[v] == s.uploads[v]) || (v != o.upload && s'.uploads[v].attachment != o.attachment)
    requires forall i :: i in Rows(s', o.upload) ==>
      || (i in Rows(s, o.upload) && Rows(s', o.upload)[i] == Rows(s, o.upload)[i])
      || (exists c :: Sent(op, o, i, c) && Rows(s', o.upload)[i] == ChunkRow(|c|, Sha256(c)))
    requires forall i :: i in Files(s', o.upload) ==>
      || (i in Files(s, o.upload) && Files(s', o.upload)[i] == Files(s, o.upload)[i])
      || Sent(op, o, i, Files(s', o.upload)[i])
    requires o.attachment in s'.published ==>
      || (o.attachment in s.published && s'.published[o.attachment] == s.published[o.attachment])
      || (CommitSent([op], o) && s'.published[o.attachment] == Files(s, o.upload))
    ensures Provenance(s', ops + [op], o)
  {
    var all := ops + [op];
    assert op in all;
    MoreOps(ops, op, o, Rows(s, o.upload), Files(s, o.upload));
    if o.attachment in s.published { MoreOps(ops, op, o, Rows(s, o.upload), s.published[o.attachment]); }
    forall i | i in Rows(s', o.upload)
      ensures var row := Rows(s', o.upload)[i];
        row.digest.Sha256? && WasSent(all, o, i, row.digest.preimage) && |row.digest.preimage| == row.size
    {
      if !(i in Rows(s, o.upload) && Rows(s', o.upload)[i] == Rows(s, o.upload)[i]) {
        var c :| Sent(op, o, i, c) && Rows(s', o.upload)[i] == ChunkRow(|c|, Sha256(c));
        assert WasSent(all, o, i, c);
      }
    }
    forall i | i in Files(s', o.upload) ensures WasSent(all, o, i, Files(s', o.upload)[i]) { }
    if CommitSent([op], o) { assert CommitSent(all, o); }
  }

  /** A chunk request that changes anything comes from the author in time and carries its digest. */
  lemma StoreChangesForAuthor(s: Store, u: UploadId, author: Code, i: int, cipher: Bytes, digest: Digest, now: int,
                              crash: bool)
    requires StoreChunk(s, u, author, i, cipher, digest, now, crash).0 != s
    ensures MayUse(s, u, author, now) && digest == Sha256(cipher)
  {
    if u !in s.uploads || author == "" {
      UnknownIsRefused(s, u, author, now, i, cipher, digest, {}, {}, crash);
    } else if !MayUse(s, u, author, now) {
      OthersAreRefused(s, u, author, now, i, cipher, digest, {}, {}, crash);
    }
  }

  /** A written row or file is the one the request carried. */
  lemma WrittenProvenance(s: Store, s': Store, ops: seq<Op>, op: Op, u: UploadId, i: int, cipher: Bytes, o: Opening)
    requires Provenance(s, ops, o) && (u == o.upload ==> Sent(op, o, i, cipher))
    requires var row := ChunkRow(|cipher|, Sha256(cipher));
      || s' == WithRow(s, u, i, row) || s' == WithFile(s, u, i, cipher)
      || s' == WithRow(WithFile(s, u, i, cipher), u, i, row)
    ensures Provenance(s', ops + [op], o)
  {
    var row := ChunkRow(|cipher|, Sha256(cipher));
    WrittenParts(s, u, i, cipher, row, o.upload);
    WrittenParts(WithFile(s, u, i, cipher), u, i, cipher, row, o.upload);
    var rows, files := Rows(s, o.upload), Files(s, o.upload);
    assert Rows(s', o.upload) == rows || (u == o.upload && Rows(s', o.upload) == rows[i := row]);
    assert Files(s', o.upload) == files || (u == o.upload && Files(s', o.upload) == files[i := cipher]);
    StepProvenance(s, s', ops, op, o);
  }

  lemma StoreProvenance(s: Store, ops: seq<Op>, op: Op, o: Opening)
    requires Provenance(s, ops, o) && op.StoreOp?
    ensures Provenance(Apply(s, op), ops + [op], o)
  {
    var s' := Apply(s, op);
    if s' == s {
      StepProvenance(s, s, ops, op, o);
    } else {
      StoreShape(s, op.upload, op.author, op.index, op.cipher, op.digest, op.now, op.crash);
      StoreChangesForAuthor(s, op.upload, op.author, op.index, op.cipher, op.digest, op.now, op.crash);
      WrittenProvenance(s, s', ops, op, op.upload, op.index, op.cipher, o);
    }
  }

  lemma CommitProvenance(s: Store, ops: seq<Op>, op: Op, o: Opening)
    requires Provenance(s, ops, o) && op.CommitOp?
    ensures Provenance(Apply(s, op), ops + [op], o)
  {
    var s' := Apply(s, op);
    if s' != s {
      CommitShape(s, op.upload, op.author, op.now, op.crash);
      if !MayUse(s, op.upload, op.author, op.now) {
        CommitNeedsAuthor(s, op.upload, op.author, op.now, op.crash);
      }
      if s.uploads[op.upload].attachment == o.attachment { assert op in [op] && CommitSent([op], o); }
      CommittedParts(s, s', op.upload, o);
    }
    StepProvenance(s, s', ops, op, o);
  }

  lemma CommitNeedsAuthor(s: Store, u: UploadId, author: Code, now: int, crash: bool)
    requires !MayUse(s, u, author, now)
    ensures Commit(s, u, author, now, crash).0 == s
  {
    if u !in s.uploads || author == "" {
      UnknownIsRefused(s, u, author, now, 0, [], NoDigest, {}, {}, crash);
    } else {
      OthersAreRefused(s, u, author, now, 0, [], NoDigest, {}, {}, crash);
    }
  }

  /** What a commit of upload `u` does to the upload that is looked at. */
  lemma CommittedParts(s: Store, s': Store, u: UploadId, o: Opening)
    requires u in s.uploads && u in s.partial
    requires s' == Publish(s, u) || exists whole :: s' == CommitTx(Publish(s, u), u, s.uploads[u], whole)
    ensures forall v :: v in s'.uploads ==> v in s.uploads && s'.uploads[v] == s.uploads[v]
    ensures forall i :: i in Rows(s', o.upload) ==>
      i in Rows(s, o.upload) && Rows(s', o.upload)[i] == Rows(s, o.upload)[i]
    ensures forall i :: i in Files(s', o.upload) ==>
      i in Files(s, o.upload) && Files(s', o.upload)[i] == Files(s, o.upload)[i]
    ensures s'.published == s.published[s.uploads[u].attachment := Files(s, u)]
  {
  }

  lemma ResumeProvenance(s: Store, ops: seq<Op>, op: Op, o: Opening)
    requires Provenance(s, ops, o) && op.ResumeOp?
    ensures Provenance(Apply(s, op), ops + [op], o)
  {
    ForgottenParts(s, op.upload, op.rows * Invalid(s, op.upload), op.files * Invalid(s, op.upload), o.upload);
    StepProvenance(s, Apply(s, op), ops, op, o);
  }

  /** Steps that take away from the upload, or leave it alone. */
  lemma ShrinkingProvenance(s: Store, s': Store, ops: seq<Op>, op: Op, o: Opening)
    requires Provenance(s, ops, o) && s'.published == s.published
    requires forall v :: v in s'.uploads ==>
      (v in s.uploads && s'.uploads[v] == s.uploads[v]) || (v != o.upload && s'.uploads[v].attachment != o.attachment)
    requires Rows(s', o.upload) == Rows(s, o.upload) || Rows(s', o.upload) == map[]
    requires Files(s', o.upload) == Files(s, o.upload) || Files(s', o.upload) == map[]
    ensures Provenance(s', ops + [op], o)
  {
    StepProvenance(s, s', ops, op, o);
  }

  lemma InitParts(s: Store, op: Op, o: Opening)
    requires op.InitOp? && Undisturbed(op, o)
    ensures var s' := Apply(s, op);
      && s'.published == s.published && s'.chunks == s.chunks && s'.partial == s.partial
      && forall v :: v in s'.uploads ==>
           || (v in s.uploads && s'.uploads[v] == s.uploads[v])
           || (v != o.upload && s'.uploads[v].attachment != o.attachment)
  {
  }

  lemma RemovalParts(s: Store, op: Op, o: Opening)
    requires (op.ExpireOp? || op.SweepOp? || op.CorruptOp?) && Undisturbed(op, o)
    ensures var s' := Apply(s, op);
      && s'.published == s.published
      && (forall v :: v in s'.uploads ==> v in s.uploads && s'.uploads[v] == s.uploads[v])
      && (Rows(s', o.upload) == Rows(s, o.upload) || Rows(s', o.upload) == map[])
      && (Files(s', o.upload) == Files(s, o.upload) || Files(s', o.upload) == map[])
  {
  }

  lemma ApplyProvenance(s: Store, ops: seq<Op>, op: Op, o: Opening)
    requires Provenance(s, ops, o) && Undisturbed(op, o)
    ensures Provenance(Apply(s, op), ops + [op], o)
  {
    if op.StoreOp? { StoreProvenance(s, ops, op, o); }
    else if op.CommitOp? { CommitProvenance(s, ops, op, o); }
    else if op.ResumeOp? { ResumeProvenance(s, ops, op, o); }
    else {
      if op.InitOp? { InitParts(s, op, o); } else { RemovalParts(s, op, o); }
      ShrinkingProvenance(s, Apply(s, op), ops, op, o);
    }
  }

  lemma ForgottenParts(s: Store, u: UploadId, rows: set<int>, files: set<int>, v: UploadId)
    ensures var s' := Forget(s, u, rows, files);
      && Rows(s', v) == (if u == v then Rows(s, v) - rows else Rows(s, v))
      && Files(s', v) == (if u == v then Files(s, v) - files else Files(s, v))
  {
  }

  lemma {:induction false} RunProvenance(s: Store, done: seq<Op>, ops: seq<Op>, o: Opening)
    requires Provenance(s, done, o) && forall op :: op in ops ==> Undisturbed(op, o)
    ensures Provenance(Run(s, ops), done + ops, o)
    decreases |ops|
  {
    if ops == [] {
      assert done + ops == done;
    } else {
      ApplyProvenance(s, done, ops[0], o);
      RunProvenance(Apply(s, ops[0]), done + [ops[0]], ops[1..], o);
      assert done + [ops[0]] + ops[1..] == done + ops;
    }
  }

  /** Only the author, only in time: after an upload was opened and anything else happened,
      every row and file it has, and every published file, is a chunk that the author of the
      opening sent before the expiry, and nothing is published without his commit in time. */
  lemma OnlyTheAuthor(s: Store, room: Room, author: Code, size: int, a: AttachmentId, u: UploadId, expiresAt: int,
                      ops: seq<Op>)
    requires Inv(s) && Init(s, room, author, size, a, u, expiresAt).1.Ok? && u !in s.partial && a !in s.published
    requires forall op :: op in ops ==> Undisturbed(op, Opening(u, a, author, expiresAt))
    ensures Provenance(Run(Init(s, room, author, size, a, u, expiresAt).0, ops), ops, Opening(u, a, author, expiresAt))
  {
    var s1 := Init(s, room, author, size, a, u, expiresAt).0;
    var o := Opening(u, a, author, expiresAt);
    forall v | v in s.uploads ensures s.uploads[v].attachment != a { assert UploadOk(s, v); }
    assert u !in s.chunks;
    assert Provenance(s1, [], o);
    RunProvenance(s1, [], ops, o);
    assert [] + ops == ops;
  }

  /** In particular, without requests of the author in time nothing is stored or published. */
  lemma NothingWithoutTheAuthor(s: Store, room: Room, author: Code, size: int, a: AttachmentId, u: UploadId,
                                expiresAt: int, ops: seq<Op>)
    requires Inv(s) && Init(s, room, author, size, a, u, expiresAt).1.Ok? && u !in s.partial && a !in s.published
    requires forall op :: op in ops ==>
      && Undisturbed(op, Opening(u, a, author, expiresAt))
      && ((op.StoreOp? || op.CommitOp?) && op.upload == u ==> op.author != author || op.now >= expiresAt)
    ensures var t := Run(Init(s, room, author, size, a, u, expiresAt).0, ops);
      Rows(t, u) == map[] && Files(t, u) == map[] && a !in t.published
  {
    OnlyTheAuthor(s, room, author, size, a, u, expiresAt, ops);
    var t := Run(Init(s, room, author, size, a, u, expiresAt).0, ops);
    forall i ensures i !in Rows(t, u) && i !in Files(t, u) { }
  }
}
