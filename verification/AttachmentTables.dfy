/** The attachment tables and chunk files of server-go/attachment_store.go and the operations
    on them, with a crash possible between any two of their file and database steps. */
module AttachmentTables {
  import opened Wrappers
  import opened Chunks

  type UploadId = string
  type AttachmentId = string
  type Room = string
  type Code = string

  const MAX_LOGICAL: int := 5 * 1024 * 1024 * 1024
  const MAX_ROOM: int := 20 * 1024 * 1024 * 1024
  const CHUNK: int := 47 * 1024
  const CIPHER_OVERHEAD: int := 64
  const TAG: int := 16

  type Digest = Hash<Bytes>

  /** `whole` is whole_sha256 and committed_at together: None until the commit. */
  datatype Attachment = Attachment(room: Room, logicalSize: int, whole: Option<Digest>)

  datatype Upload = Upload(
    attachment: AttachmentId, room: Room, author: Code, logicalSize: int, reserved: int, expiresAt: int)

  datatype ChunkRow = ChunkRow(size: int, digest: Digest)

  datatype Quota = Quota(reserved: int, used: int)

  type Dir = map<int, Bytes>

  /** Four tables and two directory trees: `partial` is .partial/<upload id>/<index>.bin and
      `published` is <attachment id>/<index>.bin. Chunk rows are kept by upload. */
  datatype Store = Store(
    attachments: map<AttachmentId, Attachment>,
    uploads: map<UploadId, Upload>,
    chunks: map<UploadId, map<int, ChunkRow>>,
    quotas: map<Room, Quota>,
    partial: map<UploadId, Dir>,
    published: map<AttachmentId, Dir>)

  const EMPTY_STORE := Store(map[], map[], map[], map[], map[], map[])

  datatype Error =
    | InvalidRequest | InvalidSize | TooLarge | QuotaExceeded | InsertFailed
    | UploadNotFound | Unauthorized | Expired
    | OutOfRange | ChunkTooLarge | HashMismatch | ChunkConflict | DiskFailure
    | Incomplete | AlreadyCommitted | AttachmentNotFound

  datatype Result<+T> = Ok(value: T) | Err(error: Error)

  function Rows(s: Store, u: UploadId): map<int, ChunkRow> {
    if u in s.chunks then s.chunks[u] else map[]
  }

  function Files(s: Store, u: UploadId): Dir {
    if u in s.partial then s.partial[u] else map[]
  }

  /** Number of chunks of a file of this size. */
  function ChunkCount(size: int): int {
    Count(size, CHUNK)
  }

  /** Plaintext bytes in chunk `i`. */
  function PlainSize(size: int, i: int): int {
    Min(CHUNK, size - i * CHUNK)
  }

  // ---------- InitializeAttachment ----------

  function QuotaOf(s: Store, room: Room): Quota {
    if room in s.quotas then s.quotas[room] else Quota(0, 0)
  }

  /** The conditional upsert of room_quotas: a first row is inserted without the test. */
  predicate QuotaAllows(s: Store, room: Room, size: int) {
    room !in s.quotas || s.quotas[room].reserved + s.quotas[room].used + size <= MAX_ROOM
  }

  /** `att` and `up` are the generated ids; the inserts fail if one is taken. */
  function Init(s: Store, room: Room, author: Code, size: int, att: AttachmentId, up: UploadId, expiresAt: int)
    : (Store, Result<()>)
  {
    if room == "" || author == "" then (s, Err(InvalidRequest))
    else if size <= 0 then (s, Err(InvalidSize))
    else if size > MAX_LOGICAL then (s, Err(TooLarge))
    else if !QuotaAllows(s, room, size) then (s, Err(QuotaExceeded))
    else if att in s.attachments || up in s.uploads
            || (exists u | u in s.uploads :: s.uploads[u].attachment == att)
    then
      (s, Err(InsertFailed))
    else
      var q := QuotaOf(s, room);
      (s.(quotas := s.quotas[room := q.(reserved := q.reserved + size)],
          attachments := s.attachments[att := Attachment(room, size, None)],
          uploads := s.uploads[up := Upload(att, room, author, size, size, expiresAt)]),
       Ok(()))
  }

  // ---------- loadAttachmentUpload and validateAttachmentChunk ----------

  function LoadUpload(s: Store, u: UploadId, author: Code, now: int): Result<Upload> {
    if author == "" then Err(InvalidRequest)
    else if u !in s.uploads then Err(UploadNotFound)
    else if s.uploads[u].author != author then Err(Unauthorized)
    else if now >= s.uploads[u].expiresAt then Err(Expired)
    else Ok(s.uploads[u])
  }

  function ValidateChunk(size: int, i: int, cipher: Bytes, digest: Digest): Result<()> {
    if i < 0 || i >= ChunkCount(size) then Err(OutOfRange)
    else if cipher == [] || |cipher| > CHUNK + CIPHER_OVERHEAD then Err(ChunkTooLarge)
    else if digest != Sha256(cipher) then Err(HashMismatch)
    else Ok(())
  }

  /** storedAttachmentChunkMatches. */
  predicate Matches(dir: Dir, i: int, row: ChunkRow) {
    i in dir && |dir[i]| == row.size && Sha256(dir[i]) == row.digest
  }

  // ---------- StoreAttachmentChunk ----------

  datatype Stored = Fresh | Duplicate

  function WithFile(s: Store, u: UploadId, i: int, cipher: Bytes): Store {
    s.(partial := s.partial[u := Files(s, u)[i := cipher]])
  }

  function WithRow(s: Store, u: UploadId, i: int, row: ChunkRow): Store {
    s.(chunks := s.chunks[u := Rows(s, u)[i := row]])
  }

  /** With `crash` the process dies between the rename of the chunk file and the insert of
      its row. */
  function StoreChunk(s: Store, u: UploadId, author: Code, i: int, cipher: Bytes, digest: Digest, now: int, crash: bool)
    : (Store, Result<Stored>)
  {
    var upload := LoadUpload(s, u, author, now);
    if upload.Err? then (s, Err(upload.error))
    else
      var valid := ValidateChunk(upload.value.logicalSize, i, cipher, digest);
      if valid.Err? then (s, Err(valid.error))
      else
        var row := ChunkRow(|cipher|, digest);
        if i in Rows(s, u) then
          if Rows(s, u)[i] != row then (s, Err(ChunkConflict))
          else if !Matches(Files(s, u), i, row) then (s, Err(DiskFailure))
          else (s, Ok(Duplicate))
        else if i in Files(s, u) then
          if Matches(Files(s, u), i, row) then (WithRow(s, u, i, row), Ok(Duplicate))
          else (s, Err(ChunkConflict))
        else if crash then (WithFile(s, u, i, cipher), Err(DiskFailure))
        else (WithRow(WithFile(s, u, i, cipher), u, i, row), Ok(Fresh))
  }

  // ---------- ResumeAttachmentUpload ----------

  /** Indexes whose row and file disagree. */
  function Invalid(s: Store, u: UploadId): set<int> {
    set i | i in Rows(s, u) && !Matches(Files(s, u), i, Rows(s, u)[i])
  }

  /** The members of `indexes` from `lo` up to `hi`, in ascending order. */
  function Ascending(indexes: set<int>, lo: int, hi: int): seq<int>
    decreases hi - lo
  {
    if lo >= hi then []
    else (if lo in indexes then [lo] else []) + Ascending(indexes, lo + 1, hi)
  }

  ghost predicate StrictlyAscending(s: seq<int>) {
    forall j, k :: 0 <= j < k < |s| ==> s[j] < s[k]
  }

  /** The list is strictly ascending and holds exactly the members in its range. */
  lemma {:induction false} AscendingMeans(indexes: set<int>, lo: int, hi: int)
    ensures forall i :: i in Ascending(indexes, lo, hi) <==> i in indexes && lo <= i < hi
    ensures StrictlyAscending(Ascending(indexes, lo, hi))
    decreases hi - lo
  {
    if lo < hi {
      AscendingMeans(indexes, lo + 1, hi);
      var tail := Ascending(indexes, lo + 1, hi);
      forall k | 0 <= k < |tail| ensures lo < tail[k] { assert tail[k] in tail; }
    }
  }

  lemma {:induction false} AscendingStep(indexes: set<int>, lo: int, hi: int)
    requires lo <= hi
    ensures Ascending(indexes, lo, hi + 1) ==
            if hi in indexes then Ascending(indexes, lo, hi) + [hi] else Ascending(indexes, lo, hi)
    decreases hi - lo
  {
    if lo < hi { AscendingStep(indexes, lo + 1, hi); }
  }

  /** Deleting some entries of one upload. */
  function Without<V>(m: map<UploadId, map<int, V>>, u: UploadId, indexes: set<int>): map<UploadId, map<int, V>> {
    if u in m then m[u := m[u] - indexes] else m
  }

  function Forget(s: Store, u: UploadId, rows: set<int>, files: set<int>): Store {
    s.(chunks := Without(s.chunks, u, rows), partial := Without(s.partial, u, files))
  }

  /** The answer lists the verified indexes in order. Rows and files of the others are
      removed one after the other; a crash stops after the rows `rows` and files `files`. */
  function Resume(s: Store, u: UploadId, author: Code, now: int, rows: set<int>, files: set<int>)
    : (Store, Result<seq<int>>)
  {
    var upload := LoadUpload(s, u, author, now);
    if upload.Err? then (s, Err(upload.error))
    else
      (Forget(s, u, rows * Invalid(s, u), files * Invalid(s, u)),
       Ok(Ascending(Rows(s, u).Keys - Invalid(s, u), 0, ChunkCount(upload.value.logicalSize))))
  }

  // ---------- CommitAttachmentUpload ----------

  /** The verification loop from chunk `i` on; `acc` is the ciphertext hashed so far. */
  function CheckFrom(size: int, rows: map<int, ChunkRow>, dir: Dir, i: int, acc: Bytes): Result<Digest>
    decreases ChunkCount(size) - i
  {
    if i >= ChunkCount(size) then
      if exists k | k in rows :: k >= i then Err(Incomplete) else Ok(Sha256(acc))
    else if i !in rows then Err(Incomplete)
    else if rows[i].size != PlainSize(size, i) + TAG then Err(Incomplete)
    else if !Matches(dir, i, rows[i]) then Err(DiskFailure)
    else CheckFrom(size, rows, dir, i + 1, acc + dir[i])
  }

  /** With `crash` the process dies between the publishing rename and the transaction. */
  function Commit(s: Store, u: UploadId, author: Code, now: int, crash: bool): (Store, Result<Digest>) {
    var upload := LoadUpload(s, u, author, now);
    if upload.Err? then (s, Err(upload.error))
    else
      var up := upload.value;
      var whole := CheckFrom(up.logicalSize, Rows(s, u), Files(s, u), 0, []);
      if whole.Err? then (s, Err(whole.error))
      else if up.attachment in s.published then (s, Err(AlreadyCommitted))
      else if u !in s.partial then (s, Err(DiskFailure))
      else
        var s1 := s.(partial := s.partial - {u}, published := s.published[up.attachment := s.partial[u]]);
        if crash then (s1, Err(DiskFailure))
        else (CommitTx(s1, u, up, whole.value), Ok(whole.value))
  }

  /** The commit transaction. */
  function CommitTx(s: Store, u: UploadId, up: Upload, whole: Digest): Store {
    var a := up.attachment;
    s.(attachments := if a in s.attachments && s.attachments[a].whole == None
                      then s.attachments[a := s.attachments[a].(whole := Some(whole))] else s.attachments,
       quotas := if up.room in s.quotas
                 then s.quotas[up.room := Quota(s.quotas[up.room].reserved - up.logicalSize,
                                                s.quotas[up.room].used + up.logicalSize)]
                 else s.quotas,
       chunks := s.chunks - {u},
       uploads := s.uploads - {u})
  }

  // ---------- ReadAttachmentChunk ----------

  datatype Download = Download(cipher: Bytes, digest: Digest, last: bool)

  function Read(s: Store, a: AttachmentId, i: int): Result<Download> {
    if a !in s.attachments || s.attachments[a].whole == None then Err(AttachmentNotFound)
    else
      var size := s.attachments[a].logicalSize;
      if i < 0 || i >= ChunkCount(size) then Err(OutOfRange)
      else if a !in s.published || i !in s.published[a] then Err(DiskFailure)
      else
        var cipher := s.published[a][i];
        if |cipher| != PlainSize(size, i) + TAG then Err(DiskFailure)
        else Ok(Download(cipher, Sha256(cipher), i + 1 == ChunkCount(size)))
  }

  // ---------- CleanupExpiredAttachmentUploads ----------

  /** The transaction that removes one expired upload. */
  function ExpireTx(s: Store, u: UploadId): Store {
    if u !in s.uploads then s
    else
      var up := s.uploads[u];
      var a := up.attachment;
      s.(chunks := s.chunks - {u},
         uploads := s.uploads - {u},
         attachments := if a in s.attachments && s.attachments[a].whole == None
                        then s.attachments - {a} else s.attachments,
         quotas := if up.room in s.quotas
                   then s.quotas[up.room := s.quotas[up.room].(reserved := s.quotas[up.room].reserved - up.reserved)]
                   else s.quotas)
  }

  /** The removal of the directory of an upload that is gone from the tables. */
  function Sweep(s: Store, u: UploadId): Store {
    if u in s.uploads then s else s.(partial := s.partial - {u})
  }

  // ---------- Histories ----------

  /** `CorruptOp` is a disk fault on a file that is not published yet. */
  datatype Op =
    | InitOp(room: Room, author: Code, size: int, attachment: AttachmentId, upload: UploadId, expiresAt: int)
    | StoreOp(upload: UploadId, author: Code, index: int, cipher: Bytes, digest: Digest, now: int, crash: bool)
    | ResumeOp(upload: UploadId, author: Code, now: int, rows: set<int>, files: set<int>)
    | CommitOp(upload: UploadId, author: Code, now: int, crash: bool)
    | ExpireOp(upload: UploadId)
    | SweepOp(upload: UploadId)
    | CorruptOp(upload: UploadId, dir: Dir)

  function Apply(s: Store, op: Op): Store {
    match op
    case InitOp(room, author, size, a, u, expiresAt) => Init(s, room, author, size, a, u, expiresAt).0
    case StoreOp(u, author, i, cipher, digest, now, crash) => StoreChunk(s, u, author, i, cipher, digest, now, crash).0
    case ResumeOp(u, author, now, rows, files) => Resume(s, u, author, now, rows, files).0
    case CommitOp(u, author, now, crash) => Commit(s, u, author, now, crash).0
    case ExpireOp(u) => ExpireTx(s, u)
    case SweepOp(u) => Sweep(s, u)
    case CorruptOp(u, dir) => s.(partial := s.partial[u := dir])
  }

  function Run(s: Store, ops: seq<Op>): Store
    decreases |ops|
  {
    if ops == [] then s else Run(Apply(s, ops[0]), ops[1..])
  }
}
