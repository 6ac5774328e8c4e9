/** The download assembler of client-cpp/gui/src/attachments/attachment_download_assembler.cpp:
    decrypted chunks go to a part file that is renamed over the target after the last one.
    Results of file operations and the decryption are parameters. */
module DownloadAssembler {
  import opened Wrappers
  import opened AttachmentTables
  import opened Chunks

  type Path = string
  type Key = Bytes

  datatype Context = Context(
    attachment: AttachmentId, room: Room, group: string, logicalSize: int, chunkSize: int, chunkIndex: int)

  type Decrypt = (Key, Context, Bytes) -> Option<Bytes>

  datatype State = State(
    files: map<Path, Bytes>, output: Path, part: Path, key: Key, context: Context, next: int, complete: bool)

  /** Outcomes of the file operations of one call. `clean` is the removal of the part file,
      `junk` what is left of it when neither creating nor removing it succeeds. */
  datatype Io = Io(create: bool, write: bool, clean: bool, remove: bool, rename: bool, junk: Bytes)

  datatype Event =
    | BeginEvent(output: Path, key: Key, context: Context, io: Io)
    | ChunkEvent(index: int, cipher: Bytes, digest: Digest, last: bool, io: Io)
    | CancelEvent(io: Io)

  function PartPath(output: Path): Path {
    output + ".lanchat-part"
  }

  predicate InProgress(s: State) {
    s.part != ""
  }

  // ---------- Operations ----------

  function DiscardPart(s: State, clean: bool): State {
    if s.part == "" then s
    else s.(files := if clean then s.files - {s.part} else s.files, part := "")
  }

  predicate ValidContext(output: Path, c: Context) {
    output != "" && c.logicalSize > 0 && c.chunkSize > 0 && c.chunkIndex == 0 && c.attachment != "" && c.room != ""
  }

  function Begin(s: State, output: Path, key: Key, context: Context, io: Io): (State, bool) {
    var s1 := DiscardPart(s, io.clean).(complete := false);
    var part := PartPath(output);
    if !ValidContext(output, context) then (s1, false)
    else if !io.create then
      (s1.(files := if io.clean then s1.files - {part} else s1.files[part := io.junk]), false)
    else
      (s1.(files := s1.files[part := Zeros(context.logicalSize)],
           output := output, part := part, key := key, context := context, next := 0), true)
  }

  /** Everything a chunk must satisfy before its plaintext is written. */
  function Verified(decrypt: Decrypt, s: State, index: int, cipher: Bytes, digest: Digest): Option<Bytes>
    requires s.context.chunkSize > 0
  {
    var expected := Min(s.context.chunkSize, s.context.logicalSize - index * s.context.chunkSize);
    if index != s.next || cipher == [] then None
    else if digest != Sha256(cipher) then None
    else if index < 0 || index >= Count(s.context.logicalSize, s.context.chunkSize) || expected <= 0
            || |cipher| != expected + TAG then None
    else
      var plain := decrypt(s.key, s.context.(chunkIndex := index), cipher);
      if plain.None? || |plain.value| != expected then None else plain
  }

  function WriteAt(file: Bytes, offset: int, data: Bytes): Bytes
    requires 0 <= offset && offset + |data| <= |file|
  {
    file[..offset] + data + file[offset + |data|..]
  }

  function Finalize(s: State, io: Io): (State, bool) {
    if s.output in s.files && !io.remove then (DiscardPart(s, io.clean), false)
    else
      var s1 := s.(files := s.files - {s.output});
      if !io.rename || s.part !in s1.files then (DiscardPart(s1, io.clean), false)
      else (s1.(files := (s1.files - {s.part})[s.output := s1.files[s.part]], part := "", complete := true), true)
  }

  /** What holds between calls while a download is in progress: the part file has the whole
      size and there is a chunk to come. */
  predicate Ready(s: State) {
    InProgress(s) ==>
      && s.part == PartPath(s.output) && s.output != ""
      && s.part in s.files && !s.complete
      && s.context.chunkSize > 0 && s.context.logicalSize > 0
      && |s.files[s.part]| == s.context.logicalSize
      && 0 <= s.next < Count(s.context.logicalSize, s.context.chunkSize)
  }

  function AcceptChunk(decrypt: Decrypt, s: State, index: int, cipher: Bytes, digest: Digest, last: bool, io: Io)
    : (State, bool)
    requires Ready(s)
  {
    if !InProgress(s) then (s, false)
    else
      var plain := Verified(decrypt, s, index, cipher, digest);
      if plain.None? || !io.write then (DiscardPart(s, io.clean), false)
      else
        var offset := index * s.context.chunkSize;
        OffsetInFile(s.context.logicalSize, s.context.chunkSize, index);
        var s1 := s.(files := s.files[s.part := WriteAt(s.files[s.part], offset, plain.value)]);
        var expectedLast := index + 1 == Count(s.context.logicalSize, s.context.chunkSize);
        if last != expectedLast then (DiscardPart(s1, io.clean), false)
        else
          var s2 := s1.(next := index + 1);
          if expectedLast then Finalize(s2, io) else (s2, true)
  }

  function Step(decrypt: Decrypt, s: State, e: Event): State
    requires Ready(s)
  {
    match e
    case BeginEvent(output, key, context, io) => Begin(s, output, key, context, io).0
    case ChunkEvent(index, cipher, digest, last, io) => AcceptChunk(decrypt, s, index, cipher, digest, last, io).0
    case CancelEvent(io) => DiscardPart(s, io.clean)
  }

  // ---------- Every step ----------

  lemma PartIsNotTarget(output: Path)
    ensures PartPath(output) != output && PartPath(output) != ""
  {
    assert |PartPath(output)| > |output|;
  }

  lemma AcceptKeepsReady(decrypt: Decrypt, s: State, index: int, cipher: Bytes, digest: Digest, last: bool, io: Io)
    requires Ready(s)
    ensures Ready(AcceptChunk(decrypt, s, index, cipher, digest, last, io).0)
  {
    if InProgress(s) { OffsetInFile(s.context.logicalSize, s.context.chunkSize, index); }
  }

  lemma BeginKeepsReady(s: State, output: Path, key: Key, context: Context, io: Io)
    requires Ready(s)
    ensures Ready(Begin(s, output, key, context, io).0)
  {
    if context.logicalSize > 0 && context.chunkSize > 0 { OffsetInFile(context.logicalSize, context.chunkSize, 0); }
  }

  lemma StepKeepsReady(decrypt: Decrypt, s: State, e: Event)
    requires Ready(s)
    ensures Ready(Step(decrypt, s, e))
  {
    match e
    case BeginEvent(output, key, context, io) => BeginKeepsReady(s, output, key, context, io);
    case ChunkEvent(index, cipher, digest, last, io) => AcceptKeepsReady(decrypt, s, index, cipher, digest, last, io);
    case CancelEvent(io) =>
  }

  /** The part file exists exactly while a download is in progress. */
  ghost predicate PartTracksProgress(s: State) {
    s.output != "" ==> (PartPath(s.output) in s.files <==> InProgress(s))
  }

  lemma PartPathInjective(a: Path, b: Path)
    requires PartPath(a) == PartPath(b)
    ensures a == b
  {
    assert |PartPath(a)| == |a| + |".lanchat-part"| && |PartPath(b)| == |b| + |".lanchat-part"|;
    assert a == PartPath(a)[..|a|] && b == PartPath(b)[..|b|];
  }

  /** The step has to delete the part file of the current output, without completing or going
      on, and the deletion fails. */
  predicate LeavesPart(decrypt: Decrypt, s: State, e: Event)
    requires Ready(s)
  {
    var s' := Step(decrypt, s, e);
    && !e.io.clean && !InProgress(s') && !s'.complete
    && (InProgress(s) || (e.BeginEvent? && ValidContext(e.output, e.context) && !e.io.create && e.output == s.output))
  }

  /** A rejected chunk, a cancel, a failed begin and a completion all delete the part file; the
      one exception is a deletion that fails. */
  lemma StepTracksProgress(decrypt: Decrypt, s: State, e: Event)
    requires Ready(s) && PartTracksProgress(s)
    ensures PartTracksProgress(Step(decrypt, s, e)) <==> !LeavesPart(decrypt, s, e)
  {
    PartIsNotTarget(s.output);
    StepKeepsReady(decrypt, s, e);
    if e.BeginEvent? && PartPath(e.output) == PartPath(s.output) { PartPathInjective(e.output, s.output); }
  }

  /** What becomes of the part file of a download that was in progress, also when another one
      is begun: it stays exactly while the download goes on or if its deletion fails. */
  lemma PartOutlivesItsDownload(decrypt: Decrypt, s: State, e: Event)
    requires Ready(s) && InProgress(s)
    ensures var s' := Step(decrypt, s, e);
      s.part in s'.files <==> s'.part == s.part || (!e.io.clean && !s'.complete)
  {
    PartIsNotTarget(s.output);
    if e.BeginEvent? && PartPath(e.output) == PartPath(s.output) { PartPathInjective(e.output, s.output); }
  }

  ghost function Run(decrypt: Decrypt, s: State, events: seq<Event>): (s': State)
    requires Ready(s)
    ensures Ready(s')
    decreases |events|
  {
    if events == [] then s
    else
      StepKeepsReady(decrypt, s, events[0]);
      Run(decrypt, Step(decrypt, s, events[0]), events[1..])
  }

  /** No deletion of a part file fails that the run depends on. */
  ghost predicate Tidy(decrypt: Decrypt, s: State, events: seq<Event>)
    requires Ready(s)
    decreases |events|
  {
    events == [] ||
    (StepKeepsReady(decrypt, s, events[0]);
     !LeavesPart(decrypt, s, events[0]) && Tidy(decrypt, Step(decrypt, s, events[0]), events[1..]))
  }

  /** In every reachable state, whatever was downloaded, cancelled or restarted before. */
  lemma {:induction false} RunTracksProgress(decrypt: Decrypt, s: State, events: seq<Event>)
    requires Ready(s) && PartTracksProgress(s) && Tidy(decrypt, s, events)
    ensures PartTracksProgress(Run(decrypt, s, events))
    decreases |events|
  {
    if events != [] {
      StepTracksProgress(decrypt, s, events[0]);
      StepKeepsReady(decrypt, s, events[0]);
      RunTracksProgress(decrypt, Step(decrypt, s, events[0]), events[1..]);
    }
  }

  // ---------- The target ----------

  ghost predicate Same(before: map<Path, Bytes>, after: map<Path, Bytes>, p: Path) {
    (p in after <==> p in before) && (p in before && p in after ==> after[p] == before[p])
  }

  /** Only the target and the part file are ever touched by a chunk or a cancel. */
  lemma OtherFilesUntouched(decrypt: Decrypt, s: State, e: Event, p: Path)
    requires Ready(s) && !e.BeginEvent? && p != s.output && p != s.part
    ensures Same(s.files, Step(decrypt, s, e).files, p)
  {
  }

  /** The chunk is the last one, verifies, is written and is marked as the last. */
  predicate LastVerifies(decrypt: Decrypt, s: State, e: Event)
    requires Ready(s)
  {
    && InProgress(s) && e.ChunkEvent? && e.io.write && e.last
    && e.index + 1 == Count(s.context.logicalSize, s.context.chunkSize)
    && Verified(decrypt, s, e.index, e.cipher, e.digest).Some?
  }

  /** The target is touched only when the last chunk verifies. It is then lost without a
      completed download exactly if its removal succeeds and the rename fails, and in that
      case no part file is left either. */
  lemma TargetUntouched(decrypt: Decrypt, s: State, e: Event)
    requires Ready(s) && !e.BeginEvent?
    ensures var s' := Step(decrypt, s, e);
      && (!LastVerifies(decrypt, s, e) ==> Same(s.files, s'.files, s.output) && s'.complete == s.complete)
      && (InProgress(s) ==>
           (s'.complete <==>
            LastVerifies(decrypt, s, e) && e.io.rename && (s.output in s.files ==> e.io.remove)))
      && (InProgress(s) ==>
           (!s'.complete && !Same(s.files, s'.files, s.output) <==>
            LastVerifies(decrypt, s, e) && s.output in s.files && e.io.remove && !e.io.rename))
      && (InProgress(s) && !s'.complete && !Same(s.files, s'.files, s.output) && e.io.clean ==>
            s.output !in s'.files && s.part !in s'.files)
  {
    PartIsNotTarget(s.output);
  }

  /** The header's promise that an existing target survives a failed download is broken here. */
  lemma RenameFailureLosesTarget()
    ensures exists decrypt: Decrypt, s: State, e: Event ::
      && Ready(s) && InProgress(s) && s.output in s.files
      && var s' := Step(decrypt, s, e); !s'.complete && s.output !in s'.files
  {
    var decrypt: Decrypt := (k, c, b) => Some([7]);
    var cipher: Bytes := seq(17, _ => 1);
    var files: map<Path, Bytes> := map["t" := [1], PartPath("t") := [0]];
    var s := State(files, "t", PartPath("t"), [], Context("a", "r", "g", 1, 1, 0), 0, false);
    PartIsNotTarget("t");
    var e := ChunkEvent(0, cipher, Sha256(cipher), true, Io(true, true, true, true, false, []));
    assert Ready(s) && LastVerifies(decrypt, s, e);
    TargetUntouched(decrypt, s, e);
    assert !Step(decrypt, s, e).complete && s.output !in Step(decrypt, s, e).files;
  }

  // ---------- Contents ----------

  /** Whatever the event delivers either fails to decrypt or decrypts to its place in `plain`. */
  ghost predicate Genuine(decrypt: Decrypt, key: Key, context: Context, plain: Bytes, e: Event) {
    e.ChunkEvent? && context.chunkSize > 0 && 0 <= e.index && e.index * context.chunkSize <= |plain| ==>
      var p := decrypt(key, context.(chunkIndex := e.index), e.cipher);
      p.None? || p.value == Slice(plain, context.chunkSize, e.index)
  }

  ghost predicate Assembles(s: State, plain: Bytes)
    requires Ready(s)
  {
    && (InProgress(s) ==>
      && |plain| == s.context.logicalSize
      && 0 <= s.next * s.context.chunkSize < |plain|
      && s.files[s.part] == plain[..s.next * s.context.chunkSize] + Zeros(|plain| - s.next * s.context.chunkSize))
    && (s.complete ==> s.output in s.files && s.files[s.output] == plain)
  }

  lemma WriteExtendsPrefix(plain: Bytes, offset: int, n: int)
    requires 0 <= offset <= offset + n <= |plain|
    ensures WriteAt(plain[..offset] + Zeros(|plain| - offset), offset, plain[offset..offset + n])
         == plain[..offset + n] + Zeros(|plain| - offset - n)
  {
  }

  /** A written chunk extends the assembled prefix; every offset is written once, in order. */
  lemma AcceptAssembles(decrypt: Decrypt, s: State, e: Event, plain: Bytes)
    requires Ready(s) && Assembles(s, plain) && Genuine(decrypt, s.key, s.context, plain, e)
    requires e.ChunkEvent? && InProgress(s) && Verified(decrypt, s, e.index, e.cipher, e.digest).Some?
    ensures var offset := e.index * s.context.chunkSize;
      var data := Verified(decrypt, s, e.index, e.cipher, e.digest).value;
      && 0 <= offset <= offset + |data| <= |plain|
      && WriteAt(s.files[s.part], offset, data) == plain[..offset + |data|] + Zeros(|plain| - offset - |data|)
      && (e.index + 1 == Count(s.context.logicalSize, s.context.chunkSize) ==> offset + |data| == |plain|)
      && (e.index + 1 != Count(s.context.logicalSize, s.context.chunkSize) ==>
            offset + |data| == (e.index + 1) * s.context.chunkSize < |plain|)
  {
    var c := s.context.chunkSize;
    OffsetInFile(s.context.logicalSize, c, e.index);
    OffsetInFile(s.context.logicalSize, c, e.index + 1);
    Monotone(e.index, e.index, c);
    WriteExtendsPrefix(plain, e.index * c, Min(c, |plain| - e.index * c));
  }

  lemma StepAssembles(decrypt: Decrypt, s: State, e: Event, plain: Bytes)
    requires Ready(s) && Assembles(s, plain) && Genuine(decrypt, s.key, s.context, plain, e) && !e.BeginEvent?
    ensures var s' := Step(decrypt, s, e);
      Ready(s') && Assembles(s', plain) && s'.key == s.key && s'.context == s.context && s'.output == s.output
  {
    StepKeepsReady(decrypt, s, e);
    PartIsNotTarget(s.output);
    if e.ChunkEvent? && InProgress(s) && Verified(decrypt, s, e.index, e.cipher, e.digest).Some? {
      AcceptAssembles(decrypt, s, e, plain);
    }
  }

  lemma BeginAssembles(s: State, output: Path, key: Key, context: Context, io: Io, plain: Bytes)
    requires Ready(s) && Begin(s, output, key, context, io).1 && |plain| == context.logicalSize
    ensures var s' := Begin(s, output, key, context, io).0;
      && Ready(s') && InProgress(s') && Assembles(s', plain)
      && s'.key == key && s'.context == context && s'.output == output && s'.next == 0
  {
    BeginKeepsReady(s, output, key, context, io);
    PartIsNotTarget(output);
  }

  /** All or nothing: after a begin and any chunks and cancels, with any outcomes of the file
      operations, the part file holds the prefix of the chunks accepted so far and zeros
      behind it, and a completed download is the whole file. */
  lemma {:induction false} AllOrNothing(decrypt: Decrypt, s: State, events: seq<Event>, plain: Bytes)
    requires Ready(s) && Assembles(s, plain)
    requires forall e :: e in events ==> !e.BeginEvent? && Genuine(decrypt, s.key, s.context, plain, e)
    ensures Assembles(Run(decrypt, s, events), plain)
    ensures Run(decrypt, s, events).output == s.output
    decreases |events|
  {
    if events != [] {
      StepAssembles(decrypt, s, events[0], plain);
      AllOrNothing(decrypt, Step(decrypt, s, events[0]), events[1..], plain);
    }
  }

  /** While nothing completes and no rename fails, the target is what it was. */
  lemma {:induction false} TargetKept(decrypt: Decrypt, s: State, events: seq<Event>)
    requires Ready(s) && !s.complete
    requires forall e :: e in events ==> !e.BeginEvent? && e.io.rename
    ensures var s' := Run(decrypt, s, events); s'.complete || Same(s.files, s'.files, s.output)
    decreases |events|
  {
    if events != [] {
      var s1 := Step(decrypt, s, events[0]);
      TargetUntouched(decrypt, s, events[0]);
      StepKeepsReady(decrypt, s, events[0]);
      if s1.complete { CompleteIsFinal(decrypt, s1, events[1..]); }
      else { TargetKept(decrypt, s1, events[1..]); }
    }
  }

  lemma {:induction false} CompleteIsFinal(decrypt: Decrypt, s: State, events: seq<Event>)
    requires Ready(s) && s.complete
    requires forall e :: e in events ==> !e.BeginEvent?
    ensures Run(decrypt, s, events) == s
    decreases |events|
  {
    if events != [] { CompleteIsFinal(decrypt, s, events[1..]); }
  }

  // ---------- A download that goes well ----------

  predicate GoodIo(io: Io) {
    io.create && io.write && io.clean && io.remove && io.rename
  }

  /** The event delivers chunk `i`. */
  ghost predicate Delivers(decrypt: Decrypt, key: Key, context: Context, plain: Bytes, i: int, e: Event) {
    && context.chunkSize > 0 && 0 <= i && 0 <= i * context.chunkSize <= |plain|
    && e.ChunkEvent? && e.index == i && e.digest == Sha256(e.cipher) && GoodIo(e.io)
    && e.last == (i + 1 == Count(context.logicalSize, context.chunkSize))
    && |e.cipher| == Min(context.chunkSize, |plain| - i * context.chunkSize) + TAG
    && decrypt(key, context.(chunkIndex := i), e.cipher) == Some(Slice(plain, context.chunkSize, i))
  }

  ghost predicate DeliversAll(decrypt: Decrypt, key: Key, context: Context, plain: Bytes, events: seq<Event>) {
    && context.chunkSize > 0 && |events| == Count(context.logicalSize, context.chunkSize)
    && forall i :: 0 <= i < |events| ==> Delivers(decrypt, key, context, plain, i, events[i])
  }

  lemma DeliveredIsAccepted(decrypt: Decrypt, s: State, plain: Bytes, e: Event)
    requires Ready(s) && InProgress(s) && Assembles(s, plain) && Delivers(decrypt, s.key, s.context, plain, s.next, e)
    ensures Genuine(decrypt, s.key, s.context, plain, e)
    ensures var s' := Step(decrypt, s, e);
      if e.last then s'.complete else InProgress(s') && s'.next == s.next + 1
  {
    OffsetInFile(s.context.logicalSize, s.context.chunkSize, s.next);
    assert Verified(decrypt, s, e.index, e.cipher, e.digest).Some?;
    TargetUntouched(decrypt, s, e);
    PartIsNotTarget(s.output);
  }

  /** The chunks from the next one on, delivered in order, complete the whole file. */
  lemma {:induction false} DownloadCompletes(decrypt: Decrypt, s: State, plain: Bytes, events: seq<Event>)
    requires Ready(s) && InProgress(s) && Assembles(s, plain)
    requires DeliversAll(decrypt, s.key, s.context, plain, events) && s.next <= |events|
    ensures var s' := Run(decrypt, s, events[s.next..]);
      s'.complete && s'.output == s.output && s.output in s'.files && s'.files[s.output] == plain
    decreases |events| - s.next
  {
    var e := events[s.next];
    DeliveredIsAccepted(decrypt, s, plain, e);
    StepAssembles(decrypt, s, e, plain);
    var s1 := Step(decrypt, s, e);
    assert events[s.next..][0] == e && events[s.next..][1..] == events[s.next + 1..];
    if e.last {
      assert events[s.next + 1..] == [];
    } else {
      DownloadCompletes(decrypt, s1, plain, events);
    }
  }

  // ---------- What is accepted ----------

  /** The chunk that is due: in order, whole, authentic and decrypting to its length. */
  predicate IsDue(decrypt: Decrypt, s: State, index: int, cipher: Bytes, digest: Digest)
    requires s.context.chunkSize > 0
  {
    var n := Min(s.context.chunkSize, s.context.logicalSize - index * s.context.chunkSize);
    var plain := decrypt(s.key, s.context.(chunkIndex := index), cipher);
    index == s.next && digest == Sha256(cipher) && |cipher| == n + TAG && plain.Some? && |plain.value| == n
  }

  /** A chunk is accepted exactly if it is due, can be written, is marked last exactly if it is
      the last one, and the last one can be moved into place; every other chunk ends the
      download. */
  lemma AcceptsExactly(decrypt: Decrypt, s: State, index: int, cipher: Bytes, digest: Digest, last: bool, io: Io)
    requires Ready(s) && InProgress(s)
    ensures var (s', ok) := AcceptChunk(decrypt, s, index, cipher, digest, last, io);
      var isLast := index + 1 == Count(s.context.logicalSize, s.context.chunkSize);
      && (ok <==>
            && IsDue(decrypt, s, index, cipher, digest) && io.write && last == isLast
            && (isLast ==> (s.output in s.files ==> io.remove) && io.rename))
      && (ok ==> s'.next == index + 1 && (isLast <==> s'.complete) && (isLast <==> !InProgress(s')))
      && (!ok ==> !InProgress(s') && !s'.complete)
  {
    OffsetInFile(s.context.logicalSize, s.context.chunkSize, s.next);
    PartIsNotTarget(s.output);
  }

  /** A download begins exactly with a valid context and a file that can be created. */
  lemma BeginsExactly(s: State, output: Path, key: Key, context: Context, io: Io)
    ensures var (s', ok) := Begin(s, output, key, context, io);
      && (ok <==> ValidContext(output, context) && io.create)
      && (ok <==> InProgress(s'))
      && (ok ==> s'.output == output && s'.key == key && s'.context == context && s'.next == 0)
      && !s'.complete
  {
    PartIsNotTarget(output);
  }

  // ---------- The object ----------

  class AttachmentDownloadAssembler {
    const decrypt: Decrypt
    var files: map<Path, Bytes>
    var outputPath: Path
    var partPath: Path
    var key: Key
    var context: Context
    var nextIndex: int
    var complete: bool

    ghost function AsState(): State
      reads this
    {
      State(files, outputPath, partPath, key, context, nextIndex, complete)
    }

    constructor (decrypt: Decrypt, files: map<Path, Bytes>)
      ensures this.decrypt == decrypt && this.files == files && partPath == "" && outputPath == "" && !complete
      ensures Ready(AsState()) && PartTracksProgress(AsState())
    {
      this.decrypt, this.files := decrypt, files;
      outputPath, partPath, key, context, nextIndex, complete := "", "", [], Context("", "", "", 0, 0, 0), 0, false;
    }

    method Discard(io: Io)
      modifies this
      ensures AsState() == DiscardPart(old(AsState()), io.clean)
    {
      if partPath == "" { return; }
      if io.clean { files := files - {partPath}; }
      partPath := "";
    }

    method BeginDownload(output: Path, key: Key, context: Context, io: Io) returns (ok: bool)
      modifies this
      ensures AsState() == Begin(old(AsState()), output, key, context, io).0
      ensures ok == Begin(old(AsState()), output, key, context, io).1
    {
      Discard(io);
      complete := false;
      if !ValidContext(output, context) { return false; }
      var part := PartPath(output);
      if !io.create {
        files := if io.clean then files - {part} else files[part := io.junk];
        return false;
      }
      files := files[part := Zeros(context.logicalSize)];
      outputPath, partPath, this.key, this.context, nextIndex := output, part, key, context, 0;
      return true;
    }

    method Accept(index: int, cipher: Bytes, digest: Digest, last: bool, io: Io) returns (ok: bool)
      requires Ready(AsState())
      modifies this
      ensures AsState() == AcceptChunk(decrypt, old(AsState()), index, cipher, digest, last, io).0
      ensures ok == AcceptChunk(decrypt, old(AsState()), index, cipher, digest, last, io).1
    {
      if partPath == "" { return false; }
      if index != nextIndex || cipher == [] { Discard(io); return false; }
      if digest != Sha256(cipher) { Discard(io); return false; }
      var chunkCount := Count(context.logicalSize, context.chunkSize);
      var expected := Min(context.chunkSize, context.logicalSize - index * context.chunkSize);
      if index < 0 || index >= chunkCount || expected <= 0 || |cipher| != expected + TAG { Discard(io); return false; }
      var plain := decrypt(key, context.(chunkIndex := index), cipher);
      if plain.None? || |plain.value| != expected { Discard(io); return false; }
      if !io.write { Discard(io); return false; }
      OffsetInFile(context.logicalSize, context.chunkSize, index);
      files := files[partPath := WriteAt(files[partPath], index * context.chunkSize, plain.value)];
      var expectedLast := index + 1 == chunkCount;
      if last != expectedLast { Discard(io); return false; }
      nextIndex := nextIndex + 1;
      if expectedLast { ok := FinalizeDownload(io); return ok; }
      return true;
    }

    method Cancel(io: Io)
      modifies this
      ensures AsState() == DiscardPart(old(AsState()), io.clean)
    {
      Discard(io);
    }

    method FinalizeDownload(io: Io) returns (ok: bool)
      modifies this
      ensures AsState() == Finalize(old(AsState()), io).0
      ensures ok == Finalize(old(AsState()), io).1
    {
      if outputPath in files && !io.remove { Discard(io); return false; }
      files := files - {outputPath};
      if !io.rename || partPath !in files { Discard(io); return false; }
      files := (files - {partPath})[outputPath := files[partPath]];
      partPath := "";
      complete := true;
      return true;
    }
  }
}
