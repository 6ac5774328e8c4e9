/** The attachment part of AuthStore as the object the server holds. Its methods change the
    tables and the chunk files step by step under one mutex and are proved against the
    operations of `AttachmentTables`, which keep `AttachmentInvariants.Inv`; without a crash
    every method runs to its end. */
module AttachmentStore {
  import opened Wrappers
  import opened AttachmentTables
  import opened AttachmentInvariants
  import opened Chunks

  /** One cleanup pass over the expired uploads, in row order. */
  ghost function CleanupAll(s: Store, expired: seq<UploadId>): Store
    decreases |expired|
  {
    if expired == [] then s else CleanupAll(Sweep(ExpireTx(s, expired[0]), expired[0]), expired[1..])
  }

  lemma CleanupOneKeeps(s: Store, u: UploadId)
    requires Inv(s)
    ensures Inv(Sweep(ExpireTx(s, u), u))
  {
    ExpireKeeps(s, u);
    ChunkStepKeeps(ExpireTx(s, u), Sweep(ExpireTx(s, u), u), u);
  }

  /** A cleanup pass keeps the invariant, whatever the query returned. */
  lemma {:induction false} CleanupKeeps(s: Store, expired: seq<UploadId>)
    requires Inv(s)
    ensures Inv(CleanupAll(s, expired))
    decreases |expired|
  {
    if expired != [] {
      CleanupOneKeeps(s, expired[0]);
      CleanupKeeps(Sweep(ExpireTx(s, expired[0]), expired[0]), expired[1..]);
    }
  }

  lemma WithoutNothing<V>(m: map<UploadId, map<int, V>>, u: UploadId)
    ensures Without(m, u, {}) == m
  {
    if u in m { assert m[u] - {} == m[u]; }
  }

  lemma WithoutMore<V>(m: map<UploadId, map<int, V>>, u: UploadId, done: set<int>, index: int)
    ensures Without(Without(m, u, done), u, {index}) == Without(m, u, done + {index})
  {
    if u in m { assert m[u] - done - {index} == m[u] - (done + {index}); }
  }

  /** The verification loop of CommitAttachmentUpload. */
  method VerifyChunks(size: int, rows: map<int, ChunkRow>, files: Dir) returns (r: Result<Digest>)
    ensures r == CheckFrom(size, rows, files, 0, [])
  {
    var expected := 0;
    var hashed: Bytes := [];
    while expected < ChunkCount(size)
      invariant 0 <= expected
      invariant CheckFrom(size, rows, files, 0, []) == CheckFrom(size, rows, files, expected, hashed)
    {
      if expected !in rows { return Err(Incomplete); }
      if rows[expected].size != PlainSize(size, expected) + TAG { return Err(Incomplete); }
      if expected !in files { return Err(DiskFailure); }
      var stored := files[expected];
      if |stored| != rows[expected].size || Sha256(stored) != rows[expected].digest { return Err(DiskFailure); }
      hashed := hashed + stored;
      expected := expected + 1;
    }
    if exists k | k in rows :: k >= expected { return Err(Incomplete); }
    return Ok(Sha256(hashed));
  }

  class AuthStore {
    var attachments: map<AttachmentId, Attachment>
    var uploads: map<UploadId, Upload>
    var chunks: map<UploadId, map<int, ChunkRow>>
    var quotas: map<Room, Quota>
    var partial: map<UploadId, Dir>
    var published: map<AttachmentId, Dir>

    ghost function AsStore(): Store
      reads this
    {
      Store(attachments, uploads, chunks, quotas, partial, published)
    }

    constructor ()
      ensures AsStore() == EMPTY_STORE
    {
      attachments, uploads, chunks, quotas, partial, published := map[], map[], map[], map[], map[], map[];
    }

    function ChunkRows(u: UploadId): map<int, ChunkRow>
      reads this
    {
      if u in chunks then chunks[u] else map[]
    }

    function ChunkFiles(u: UploadId): Dir
      reads this
    {
      if u in partial then partial[u] else map[]
    }

    /** loadAttachmentUpload. */
    method Load(u: UploadId, author: Code, now: int) returns (r: Result<Upload>)
      ensures r == LoadUpload(AsStore(), u, author, now)
    {
      if author == "" { return Err(InvalidRequest); }
      if u !in uploads { return Err(UploadNotFound); }
      if uploads[u].author != author { return Err(Unauthorized); }
      if !(now < uploads[u].expiresAt) { return Err(Expired); }
      return Ok(uploads[u]);
    }

    method InitializeAttachment(room: Room, author: Code, size: int, att: AttachmentId, up: UploadId, expiresAt: int)
      returns (r: Result<()>)
      modifies this
      ensures AsStore() == Init(old(AsStore()), room, author, size, att, up, expiresAt).0
      ensures r == Init(old(AsStore()), room, author, size, att, up, expiresAt).1
    {
      if room == "" || author == "" { return Err(InvalidRequest); }
      if size <= 0 { return Err(InvalidSize); }
      if size > MAX_LOGICAL { return Err(TooLarge); }
      var quota := if room in quotas then quotas[room] else Quota(0, 0);
      if room in quotas && quota.reserved + quota.used + size > MAX_ROOM { return Err(QuotaExceeded); }
      if att in attachments || up in uploads || (exists u | u in uploads :: uploads[u].attachment == att) {
        return Err(InsertFailed);
      }
      quotas := quotas[room := quota.(reserved := quota.reserved + size)];
      attachments := attachments[att := Attachment(room, size, None)];
      uploads := uploads[up := Upload(att, room, author, size, size, expiresAt)];
      return Ok(());
    }

    method StoreAttachmentChunk(u: UploadId, author: Code, i: int, cipher: Bytes, digest: Digest, now: int)
      returns (r: Result<Stored>)
      modifies this
      ensures AsStore() == StoreChunk(old(AsStore()), u, author, i, cipher, digest, now, false).0
      ensures r == StoreChunk(old(AsStore()), u, author, i, cipher, digest, now, false).1
    {
      var upload := Load(u, author, now);
      if upload.Err? { return Err(upload.error); }
      var size := upload.value.logicalSize;
      if i < 0 || i >= ChunkCount(size) { return Err(OutOfRange); }
      if cipher == [] || |cipher| > CHUNK + CIPHER_OVERHEAD { return Err(ChunkTooLarge); }
      if digest != Sha256(cipher) { return Err(HashMismatch); }
      var row := ChunkRow(|cipher|, digest);
      if i in ChunkRows(u) {
        if ChunkRows(u)[i] != row { return Err(ChunkConflict); }
        if i !in ChunkFiles(u) { return Err(DiskFailure); }
        var stored := ChunkFiles(u)[i];
        if |stored| != row.size || Sha256(stored) != row.digest { return Err(DiskFailure); }
        return Ok(Duplicate);
      }
      if i in ChunkFiles(u) {
        if !Matches(ChunkFiles(u), i, row) { return Err(ChunkConflict); }
        chunks := chunks[u := ChunkRows(u)[i := row]];
        return Ok(Duplicate);
      }
      partial := partial[u := ChunkFiles(u)[i := cipher]];
      chunks := chunks[u := ChunkRows(u)[i := row]];
      return Ok(Fresh);
    }

    /** ResumeAttachmentUpload: a pass over the rows in index order, then the removal of the
        invalid ones. */
    method ResumeAttachmentUpload(u: UploadId, author: Code, now: int) returns (r: Result<seq<int>>)
      requires RowsOk(AsStore())
      modifies this
      ensures AsStore() ==
        Resume(old(AsStore()), u, author, now, Invalid(old(AsStore()), u), Invalid(old(AsStore()), u)).0
      ensures r == Resume(old(AsStore()), u, author, now, Invalid(old(AsStore()), u), Invalid(old(AsStore()), u)).1
    {
      ghost var s := AsStore();
      var upload := Load(u, author, now);
      if upload.Err? { return Err(upload.error); }
      var n := ChunkCount(upload.value.logicalSize);
      var rows, files := ChunkRows(u), ChunkFiles(u);
      ghost var good := rows.Keys - Invalid(s, u);
      var received: seq<int> := [];
      var invalid: seq<int> := [];
      var index := 0;
      while index < n
        invariant 0 <= index && (index <= n || index == 0) && AsStore() == s
        invariant received == Ascending(good, 0, index)
        invariant forall j :: j in invalid <==> j in Invalid(s, u) && j < index
      {
        AscendingStep(good, 0, index);
        if index in rows {
          if Matches(files, index, rows[index]) {
            received := received + [index];
          } else {
            invalid := invalid + [index];
          }
        }
        index := index + 1;
      }
      forall j ensures j in invalid <==> j in Invalid(s, u) {
        if j in Invalid(s, u) { assert RowOk(s.uploads[u].logicalSize, j, rows[j]); }
      }
      assert Elements(invalid) == Invalid(s, u);
      assert Invalid(s, u) * Invalid(s, u) == Invalid(s, u);
      RemoveInvalid(u, invalid);
      return Ok(received);
    }

    /** The removal loop of a resume: row first, then file. */
    method RemoveInvalid(u: UploadId, invalid: seq<int>)
      modifies this
      ensures AsStore() == Forget(old(AsStore()), u, Elements(invalid), Elements(invalid))
    {
      ghost var s := AsStore();
      ghost var done: set<int> := {};
      WithoutNothing(s.chunks, u);
      WithoutNothing(s.partial, u);
      for k := 0 to |invalid|
        invariant done == Elements(invalid[..k])
        invariant AsStore() == Forget(s, u, done, done)
      {
        var index := invalid[k];
        WithoutMore(s.chunks, u, done, index);
        WithoutMore(s.partial, u, done, index);
        if u in chunks { chunks := chunks[u := chunks[u] - {index}]; }
        if u in partial { partial := partial[u := partial[u] - {index}]; }
        assert invalid[..k + 1] == invalid[..k] + [index];
        done := done + {index};
      }
      assert invalid[..|invalid|] == invalid;
    }

    method CommitAttachmentUpload(u: UploadId, author: Code, now: int) returns (r: Result<Digest>)
      modifies this
      ensures AsStore() == Commit(old(AsStore()), u, author, now, false).0
      ensures r == Commit(old(AsStore()), u, author, now, false).1
    {
      var upload := Load(u, author, now);
      if upload.Err? { return Err(upload.error); }
      var up := upload.value;
      var whole := VerifyChunks(up.logicalSize, ChunkRows(u), ChunkFiles(u));
      if whole.Err? { return Err(whole.error); }
      if up.attachment in published { return Err(AlreadyCommitted); }
      if u !in partial { return Err(DiskFailure); }
      published := published[up.attachment := partial[u]];
      partial := partial - {u};
      CommitTransaction(u, up, whole.value);
      return Ok(whole.value);
    }

    method CommitTransaction(u: UploadId, up: Upload, whole: Digest)
      modifies this
      ensures AsStore() == CommitTx(old(AsStore()), u, up, whole)
    {
      if up.attachment in attachments && attachments[up.attachment].whole == None {
        attachments := attachments[up.attachment := attachments[up.attachment].(whole := Some(whole))];
      }
      if up.room in quotas {
        var quota := quotas[up.room];
        quotas := quotas[up.room := Quota(quota.reserved - up.logicalSize, quota.used + up.logicalSize)];
      }
      chunks := chunks - {u};
      uploads := uploads - {u};
    }

    method ReadAttachmentChunk(a: AttachmentId, i: int) returns (r: Result<Download>)
      ensures r == Read(AsStore(), a, i)
    {
      if a !in attachments || attachments[a].whole == None { return Err(AttachmentNotFound); }
      var size := attachments[a].logicalSize;
      if i < 0 || i >= ChunkCount(size) { return Err(OutOfRange); }
      if a !in published || i !in published[a] { return Err(DiskFailure); }
      var cipher := published[a][i];
      var plain := CHUNK;
      if size - i * CHUNK < plain { plain := size - i * CHUNK; }
      if |cipher| != plain + TAG { return Err(DiskFailure); }
      return Ok(Download(cipher, Sha256(cipher), i + 1 == ChunkCount(size)));
    }

    /** CleanupExpiredAttachmentUploads over the rows its query returned. */
    method CleanupExpired(expired: seq<UploadId>) returns (count: int)
      modifies this
      ensures count == |expired|
      ensures AsStore() == CleanupAll(old(AsStore()), expired)
    {
      for k := 0 to |expired|
        invariant CleanupAll(AsStore(), expired[k..]) == CleanupAll(old(AsStore()), expired)
      {
        var u := expired[k];
        ghost var s := AsStore();
        assert expired[k..][0] == u && expired[k..][1..] == expired[k + 1..];
        ExpireTransaction(u);
        partial := partial - {u};
        assert AsStore() == Sweep(ExpireTx(s, u), u);
      }
      count := |expired|;
    }

    method ExpireTransaction(u: UploadId)
      modifies this
      ensures AsStore() == ExpireTx(old(AsStore()), u) && u !in uploads
    {
      if u !in uploads { return; }
      var item := uploads[u];
      chunks := chunks - {u};
      uploads := uploads - {u};
      if item.attachment in attachments && attachments[item.attachment].whole == None {
        attachments := attachments - {item.attachment};
      }
      if item.room in quotas {
        quotas := quotas[item.room := quotas[item.room].(reserved := quotas[item.room].reserved - item.reserved)];
      }
    }
  }
}
