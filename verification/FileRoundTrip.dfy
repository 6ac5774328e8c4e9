/** The whole way of a file: split and encrypted by client-cpp/gui/src/attachments/transfer_client.cpp,
    stored and committed by the server, downloaded and assembled again. Encryption and decryption
    are function parameters; the decryption undoes the encryption and a ciphertext is 16 bytes
    longer than its plaintext. */
module FileRoundTrip {
  import opened Wrappers
  import opened AttachmentTables
  import opened AttachmentInvariants
  import opened AttachmentHistory
  import opened Chunks
  import Assembler = DownloadAssembler
  import Codec = ResumeCodec
  import Transfers = TransferState

  type Key = Assembler.Key
  type Context = Assembler.Context
  type Encrypt = (Key, Context, Bytes) -> Bytes
  type Decrypt = Assembler.Decrypt

  ghost predicate Inverse(encrypt: Encrypt, decrypt: Decrypt) {
    forall k, c, p :: decrypt(k, c, encrypt(k, c, p)) == Some(p) && |encrypt(k, c, p)| == |p| + TAG
  }

  datatype TransferChunk = TransferChunk(index: int, cipher: Bytes, digest: Digest)

  // ---------- Splitting ----------

  predicate Inside(plain: Bytes, chunk: int, i: int) {
    0 < chunk && 0 <= i && i * chunk < |plain|
  }

  /** Chunk `i` of a file, encrypted for its place. */
  function Sealed(encrypt: Encrypt, key: Key, context: Context, plain: Bytes, i: int): Bytes
    requires Inside(plain, context.chunkSize, i)
  {
    encrypt(key, context.(chunkIndex := i), Slice(plain, context.chunkSize, i))
  }

  function SealedChunk(encrypt: Encrypt, key: Key, context: Context, plain: Bytes, i: int): TransferChunk
    requires Inside(plain, context.chunkSize, i)
  {
    var cipher := Sealed(encrypt, key, context, plain, i);
    TransferChunk(i, cipher, Sha256(cipher))
  }

  lemma AllInside(plain: Bytes, chunk: int, i: int)
    requires plain != [] && chunk > 0 && 0 <= i
    ensures Inside(plain, chunk, i) <==> i < Count(|plain|, chunk)
  {
    OffsetInFile(|plain|, chunk, i);
  }

  /** The ciphertexts of a whole file. */
  ghost function Ciphertexts(encrypt: Encrypt, key: Key, context: Context, plain: Bytes): (cs: seq<Bytes>)
    requires plain != [] && context.chunkSize > 0
    ensures |cs| == Count(|plain|, context.chunkSize)
    ensures forall i :: 0 <= i < |cs| ==>
      Inside(plain, context.chunkSize, i) && cs[i] == Sealed(encrypt, key, context, plain, i)
  {
    OffsetInFile(|plain|, context.chunkSize, 0);
    forall i | 0 <= i < Count(|plain|, context.chunkSize) ensures Inside(plain, context.chunkSize, i) {
      AllInside(plain, context.chunkSize, i);
    }
    seq(Count(|plain|, context.chunkSize),
        i requires 0 <= i < Count(|plain|, context.chunkSize) => Sealed(encrypt, key, context, plain, i))
  }

  /** A file that is read from front to back. */
  class Device {
    const data: Bytes
    var position: nat

    constructor (data: Bytes)
      ensures this.data == data && position == 0
    {
      this.data, position := data, 0;
    }

    method Read(n: nat) returns (bytes: Bytes)
      requires position <= |data|
      modifies this
      ensures position == old(position) + |bytes| <= |data|
      ensures bytes == data[old(position)..position]
      ensures |bytes| == Min(n, |data| - old(position))
    {
      var end := position + Min(n, |data| - position);
      bytes := data[position..end];
      position := end;
    }
  }

  /** The file has the announced size and is read up to the chunk's offset. */
  ghost predicate AtChunk(data: Bytes, position: int, context: Context) {
    && context.logicalSize == |data|
    && Inside(data, context.chunkSize, context.chunkIndex)
    && position == context.chunkIndex * context.chunkSize
  }

  /** encrypt_next_chunk: no chunk at the end of the file. On a file of the announced size it
      yields exactly the chunk that is due and moves on to the next. */
  method EncryptNextChunk(encrypt: Encrypt, input: Device, key: Key, context: Context)
    returns (ok: bool, chunk: Option<TransferChunk>, endOfFile: bool)
    requires input.position <= |input.data|
    modifies input
    ensures input.position <= |input.data|
    ensures context.logicalSize <= 0 || context.chunkSize <= 0 || context.chunkIndex < 0 ==> !ok
    ensures ok && chunk.None? ==> endOfFile && context.logicalSize <= context.chunkIndex * context.chunkSize
    ensures AtChunk(input.data, old(input.position), context) ==>
      && ok
      && chunk == Some(SealedChunk(encrypt, key, context, input.data, context.chunkIndex))
      && endOfFile == (context.chunkIndex + 1 == Count(context.logicalSize, context.chunkSize))
      && (!endOfFile ==> AtChunk(input.data, input.position, context.(chunkIndex := context.chunkIndex + 1)))
      && (endOfFile ==> input.position == |input.data|)
  {
    ok, chunk, endOfFile := false, None, false;
    if context.logicalSize <= 0 || context.chunkSize <= 0 || context.chunkIndex < 0 { return; }
    var remaining := context.logicalSize - context.chunkIndex * context.chunkSize;
    if remaining <= 0 { return true, None, true; }
    var readSize := Min(context.chunkSize, remaining);
    var bytes := input.Read(readSize);
    if |bytes| != readSize { return; }
    var cipher := encrypt(key, context, bytes);
    OffsetInFile(context.logicalSize, context.chunkSize, context.chunkIndex);
    OffsetInFile(context.logicalSize, context.chunkSize, context.chunkIndex + 1);
    Monotone(context.chunkIndex, context.chunkIndex, context.chunkSize);
    assert context.(chunkIndex := context.chunkIndex) == context;
    endOfFile := context.chunkIndex + 1 >= Count(context.logicalSize, context.chunkSize);
    return true, Some(TransferChunk(context.chunkIndex, cipher, Sha256(cipher))), endOfFile;
  }

  /** The first `k` chunks of a file as they go to the sink. */
  ghost predicate StreamedPrefix(encrypt: Encrypt, key: Key, context: Context, plain: Bytes, chunks: seq<TransferChunk>)
    requires plain != [] && context.chunkSize > 0
  {
    var cs := Ciphertexts(encrypt, key, context, plain);
    |chunks| <= |cs| && forall i :: 0 <= i < |chunks| ==> chunks[i] == TransferChunk(i, cs[i], Sha256(cs[i]))
  }

  /** stream_encrypt: hands every chunk of the file to the sink, in order and once, unless the
      sink refuses one or the file is shorter than announced. `accepts` is the sink's answer
      per chunk; a chunk size of zero stands for the default. */
  method StreamEncrypt(encrypt: Encrypt, input: Device, key: Key, context0: Context, accepts: int -> bool)
    returns (ok: bool, chunks: seq<TransferChunk>)
    requires input.position == 0
    modifies input
    ensures context0.logicalSize < 0 || (context0.chunkSize != 0 && context0.chunkSize != CHUNK) ==> !ok && chunks == []
    ensures context0.logicalSize == 0 && (context0.chunkSize == 0 || context0.chunkSize == CHUNK) ==> ok && chunks == []
    ensures |input.data| < context0.logicalSize ==> !ok
    ensures 0 < context0.logicalSize <= |input.data| && (context0.chunkSize == 0 || context0.chunkSize == CHUNK) ==>
      var context := context0.(chunkSize := CHUNK); var plain := input.data[..context.logicalSize];
      && StreamedPrefix(encrypt, key, context, plain, chunks)
      && (ok ==> |chunks| == |Ciphertexts(encrypt, key, context, plain)| && input.position == |plain|)
      && (!ok ==> 0 < |chunks| && !accepts(|chunks| - 1))
  {
    ok, chunks := false, [];
    var context := context0;
    if context.logicalSize < 0 { return; }
    if context.chunkSize == 0 { context := context.(chunkSize := CHUNK); }
    if context.chunkSize != CHUNK { return; }
    if context.logicalSize == 0 { return true, []; }
    ok, chunks := StreamLoop(encrypt, input, key, context, accepts);
    if context.logicalSize <= |input.data| { CutsAreCiphertexts(encrypt, key, context, input.data, chunks); }
  }

  /** The chunk cut out of the file at index `i`. */
  ghost predicate IsCut(encrypt: Encrypt, key: Key, context: Context, data: Bytes, i: int, chunk: TransferChunk) {
    var n := Min(CHUNK, context.logicalSize - i * CHUNK);
    && 0 <= i && 0 < n && i * CHUNK + n <= |data|
    && var cipher := encrypt(key, context.(chunkIndex := i), data[i * CHUNK..i * CHUNK + n]);
       chunk == TransferChunk(i, cipher, Sha256(cipher))
  }

  lemma PrefixSlice(data: Bytes, n: int, lo: int, hi: int)
    requires 0 <= lo <= hi <= n <= |data|
    ensures data[..n][lo..hi] == data[lo..hi]
  {
  }

  lemma CutIsSealed(encrypt: Encrypt, key: Key, context: Context, data: Bytes, i: int, chunk: TransferChunk)
    requires 0 < context.logicalSize <= |data| && context.chunkSize == CHUNK
    requires IsCut(encrypt, key, context, data, i, chunk)
    ensures var plain := data[..context.logicalSize];
      && i < Count(|plain|, CHUNK) && Inside(plain, CHUNK, i)
      && chunk == SealedChunk(encrypt, key, context, plain, i)
  {
    OffsetInFile(context.logicalSize, CHUNK, i);
    PrefixSlice(data, context.logicalSize, i * CHUNK, i * CHUNK + Min(CHUNK, context.logicalSize - i * CHUNK));
  }

  lemma CutsAreCiphertexts(encrypt: Encrypt, key: Key, context: Context, data: Bytes, chunks: seq<TransferChunk>)
    requires 0 < context.logicalSize <= |data| && context.chunkSize == CHUNK
    requires forall i :: 0 <= i < |chunks| ==> IsCut(encrypt, key, context, data, i, chunks[i])
    ensures StreamedPrefix(encrypt, key, context, data[..context.logicalSize], chunks)
  {
    forall i | 0 <= i < |chunks|
      ensures i < Count(|data[..context.logicalSize]|, CHUNK)
      ensures Inside(data[..context.logicalSize], CHUNK, i)
      ensures chunks[i] == SealedChunk(encrypt, key, context, data[..context.logicalSize], i)
    {
      CutIsSealed(encrypt, key, context, data, i, chunks[i]);
    }
    OffsetInFile(context.logicalSize, CHUNK, 0);
    if |chunks| > 0 { CutIsSealed(encrypt, key, context, data, |chunks| - 1, chunks[|chunks| - 1]); }
  }

  /** The loop of stream_encrypt. */
  method StreamLoop(encrypt: Encrypt, input: Device, key: Key, context: Context, accepts: int -> bool)
    returns (ok: bool, chunks: seq<TransferChunk>)
    requires input.position == 0 && 0 < context.logicalSize && context.chunkSize == CHUNK
    modifies input
    ensures forall i :: 0 <= i < |chunks| ==> IsCut(encrypt, key, context, input.data, i, chunks[i])
    ensures ok ==> |chunks| == Count(context.logicalSize, CHUNK)
    ensures ok ==> input.position == context.logicalSize <= |input.data|
    ensures !ok ==> |input.data| < context.logicalSize || (0 < |chunks| && !accepts(|chunks| - 1))
  {
    ok, chunks := false, [];
    var index := 0;
    var remaining := context.logicalSize;
    while remaining > 0
      invariant 0 <= remaining && input.position == context.logicalSize - remaining <= |input.data|
      invariant 0 <= index == |chunks|
      invariant if remaining == 0 then index == Count(context.logicalSize, CHUNK) else input.position == index * CHUNK
      invariant forall i :: 0 <= i < |chunks| ==> IsCut(encrypt, key, context, input.data, i, chunks[i])
    {
      var requested := Min(CHUNK, remaining);
      OffsetInFile(context.logicalSize, CHUNK, index);
      var bytes := input.Read(requested);
      if |bytes| != requested { return; }
      var cipher := encrypt(key, context.(chunkIndex := index), bytes);
      assert IsCut(encrypt, key, context, input.data, index, TransferChunk(index, cipher, Sha256(cipher)));
      chunks := chunks + [TransferChunk(index, cipher, Sha256(cipher))];
      index := index + 1;
      if !accepts(index - 1) { return; }
      remaining := remaining - requested;
    }
    return true, chunks;
  }

  // ---------- The server's view ----------

  /** What the client uploads is what the store expects of a file of this size. */
  lemma UploadIsCiphertext(encrypt: Encrypt, decrypt: Decrypt, key: Key, context: Context, plain: Bytes)
    requires Inverse(encrypt, decrypt) && 0 < |plain| <= MAX_LOGICAL && context.chunkSize == CHUNK
    ensures IsCiphertext(|plain|, Ciphertexts(encrypt, key, context, plain))
  {
    var cs := Ciphertexts(encrypt, key, context, plain);
    forall i | 0 <= i < |cs| ensures |cs[i]| == PlainSize(|plain|, i) + TAG {
      assert cs[i] == encrypt(key, context.(chunkIndex := i), Slice(plain, CHUNK, i));
    }
  }

  // ---------- The download ----------

  const GOOD := Assembler.Io(true, true, true, true, true, [])

  /** The answers to requests for the chunks 0 to n - 1. */
  ghost predicate Downloads(s: Store, a: AttachmentId, cs: seq<Bytes>, events: seq<Assembler.Event>) {
    && |events| == |cs|
    && forall i :: 0 <= i < |events| ==>
         && Read(s, a, i).Ok?
         && var d := Read(s, a, i).value;
            events[i] == Assembler.ChunkEvent(i, d.cipher, d.digest, d.last, GOOD)
  }

  lemma DownloadsDeliver(encrypt: Encrypt, decrypt: Decrypt, key: Key, context: Context, plain: Bytes,
                         s: Store, a: AttachmentId, events: seq<Assembler.Event>)
    requires Inverse(encrypt, decrypt) && plain != [] && context.chunkSize == CHUNK && context.logicalSize == |plain|
    requires var cs := Ciphertexts(encrypt, key, context, plain);
      && Downloads(s, a, cs, events)
      && forall i :: 0 <= i < |cs| ==> Read(s, a, i) == Ok(Download(cs[i], Sha256(cs[i]), i == |cs| - 1))
    ensures Assembler.DeliversAll(decrypt, key, context, plain, events)
  {
    var cs := Ciphertexts(encrypt, key, context, plain);
    forall i | 0 <= i < |events| ensures Assembler.Delivers(decrypt, key, context, plain, i, events[i]) {
      assert Read(s, a, i) == Ok(Download(cs[i], Sha256(cs[i]), i == |cs| - 1));
      assert cs[i] == encrypt(key, context.(chunkIndex := i), Slice(plain, CHUNK, i));
    }
  }

  /** The round trip: a file is uploaded under new ids, amid any other traffic, in any order,
      with repetitions, losses and crashes; once its attachment is committed, downloading the
      chunks into the assembler gives the file back byte for byte. */
  lemma EndToEnd(encrypt: Encrypt, decrypt: Decrypt, key: Key, group: string, plain: Bytes,
                 s: Store, room: Room, author: Code, a: AttachmentId, u: UploadId, expiresAt: int, ops: seq<Op>,
                 assembler: Assembler.State, output: Assembler.Path, events: seq<Assembler.Event>)
    requires Inverse(encrypt, decrypt) && AttachmentInvariants.Inv(s) && u !in s.partial
    requires Init(s, room, author, |plain|, a, u, expiresAt).1.Ok?
    requires plain != [] && a != "" && output != "" && Assembler.Ready(assembler)
    requires var context := Assembler.Context(a, room, group, |plain|, CHUNK, 0);
      var cs := Ciphertexts(encrypt, key, context, plain);
      var t := Run(Init(s, room, author, |plain|, a, u, expiresAt).0, ops);
      && (forall op :: op in ops ==> Faithful(op, u, a, cs))
      && a in t.attachments && t.attachments[a].whole.Some?
      && Downloads(t, a, cs, events)
    ensures var context := Assembler.Context(a, room, group, |plain|, CHUNK, 0);
      var begun := Assembler.Begin(assembler, output, key, context, GOOD);
      && begun.1 && Assembler.Ready(begun.0)
      && var end := Assembler.Run(decrypt, begun.0, events);
         end.complete && output in end.files && end.files[output] == plain
  {
    var context := Assembler.Context(a, room, group, |plain|, CHUNK, 0);
    var cs := Ciphertexts(encrypt, key, context, plain);
    var t := Run(Init(s, room, author, |plain|, a, u, expiresAt).0, ops);
    UploadIsCiphertext(encrypt, decrypt, key, context, plain);
    forall i | 0 <= i < |cs| ensures Read(t, a, i) == Ok(Download(cs[i], Sha256(cs[i]), i == |cs| - 1)) {
      DownloadsWhatWasSent(s, room, author, |plain|, a, u, expiresAt, cs, ops, i);
    }
    DownloadsDeliver(encrypt, decrypt, key, context, plain, t, a, events);
    Assembler.BeginAssembles(assembler, output, key, context, GOOD, plain);
    var begun := Assembler.Begin(assembler, output, key, context, GOOD).0;
    assert events[begun.next..] == events;
    Assembler.DownloadCompletes(decrypt, begun, plain, events);
  }

  // ---------- Resuming over the wire ----------

  lemma LargestCount(size: int)
    requires size <= MAX_LOGICAL
    ensures ChunkCount(size) <= Codec.MAX_CHUNKS
  {
    assert ChunkCount(MAX_LOGICAL) == Codec.MAX_CHUNKS;
  }

  /** An ascending list of indexes of a permitted file passes the wire. */
  lemma AscendingSurvives(indexes: set<int>, size: int)
    requires size <= MAX_LOGICAL
    ensures var answer := Ascending(indexes, 0, ChunkCount(size));
      Codec.ChunkIndexes(answer) && Codec.Decode(Codec.Encode(answer)) == Codec.Received(answer)
  {
    var answer := Ascending(indexes, 0, ChunkCount(size));
    LargestCount(size);
    AscendingMeans(indexes, 0, ChunkCount(size));
    forall k | 0 <= k < |answer| ensures 0 <= answer[k] < Codec.MAX_CHUNKS { assert answer[k] in answer; }
    Codec.RoundTrip(answer);
  }

  /** The answer of the store to a resume request reaches the client unchanged. */
  lemma ResumeAnswerSurvives(s: Store, u: UploadId, author: Code, now: int)
    requires AttachmentInvariants.Inv(s) && LoadUpload(s, u, author, now).Ok?
    ensures var answer := ResumeAnswer(s, u, author, now).1.value;
      && Codec.ChunkIndexes(answer) && Codec.Decode(Codec.Encode(answer)) == Codec.Received(answer)
  {
    assert UploadOk(s, u);
    AscendingSurvives(Rows(s, u).Keys - Invalid(s, u), s.uploads[u].logicalSize);
  }

  /** The client that takes the decoded answer into its transfer and sends what is then missing
      has its upload committed. */
  lemma ClientResumeCompletes(s: Store, u: UploadId, a: AttachmentId, author: Code, now: int, size: int, cs: seq<Bytes>,
                              t: Transfers.Transfer)
    requires Resumable(s, u, a, author, now, size, cs)
    requires t.status == Transfers.Uploading && t.logicalSize == size && t.chunkSize == CHUNK
    ensures var received := ResumeAnswer(s, u, author, now).1.value;
      var resumed := Transfers.AcceptResume(t, received);
      && Codec.ChunkIndexes(received) && Codec.Decode(Codec.Encode(received)) == Codec.Received(received)
      && resumed.1
      && InRange(Transfers.Missing(resumed.0), |cs|)
      && var s2 := SendAll(ResumeAnswer(s, u, author, now).0, u, author, now, cs, Transfers.Missing(resumed.0));
         Commit(s2, u, author, now, false).1.Ok? && Published(Commit(s2, u, author, now, false).0, a, cs)
  {
    ResumeAnswerSurvives(s, u, author, now);
    ResumeListsRows(s, u, a, author, now, size, cs);
    var received := ResumeAnswer(s, u, author, now).1.value;
    assert Transfers.ChunkTotal(t) == |cs|;
    var resumed := Transfers.AcceptResume(t, received).0;
    assert Transfers.ChunkTotal(resumed) == |cs| && resumed.received == Elements(received);
    var missing := Transfers.Missing(resumed);
    Transfers.MissingMeans(resumed, 0);
    forall k | 0 <= k < |missing| ensures 0 <= missing[k] < |cs| { assert missing[k] in missing; }
    ResumeCompletes(s, u, a, author, now, size, cs, missing);
  }
}
