/** The upload side of client-cpp/gui/src/gui_connection_worker.cpp: a window of at most eight
    chunks on the wire, refilled by acknowledgements, and one commit at the end. The outcome of
    each read and send is a parameter. */
module UploadWindow {
  import opened Wrappers
  import opened Chunks
  import opened TransferState
  import opened Digits

  const WINDOW := 8

  type Command = string

  /** `NotReady`: the connection is gone before the chunk is registered. `SendFails`: the send
      itself fails. `ReadFails`: the file is too short or the encryption fails. */
  datatype Outcome = Sent | NotReady | SendFails | ReadFails

  type Outcomes = int -> Outcome

  /** Command ids by chunk index. */
  type Naming = int -> Command

  /** The fields of AttachmentUploadJob the protocol depends on; `next` is the index of the
      next chunk to read. */
  datatype Job = Job(next: int, inFlight: int, lastSent: bool)

  /** One upload as the worker sees it: its transfer, its entries of pendingAttachmentChunks_,
      its job, and the chunk and commit messages that went out. */
  datatype Window = Window(
    name: Naming, transfer: Transfer, pending: map<Command, int>, job: Option<Job>, sent: seq<int>, commits: nat)

  /** The ids a worker uses: the upload's command id, "-chunk-" and the index in decimal. */
  function ChunkCommand(base: string, i: int): Command {
    if i < 0 then "" else base + "-chunk-" + Decimal(i)
  }

  function ChunkCommands(base: string): Naming {
    i => ChunkCommand(base, i)
  }

  // ---------- Operations ----------

  /** sendAttachmentChunk. */
  function SendChunk(w: Window, i: int, o: Outcome): Window {
    var c := w.name(i);
    var (t, ok) := Register(w.transfer, c, i);
    if o == NotReady || !ok then w
    else if o == SendFails then w.(transfer := Fail(t), pending := w.pending - {c})
    else w.(transfer := t, pending := w.pending[c := i], sent := w.sent + [i])
  }

  predicate MayFill(w: Window) {
    w.job.Some? && !w.job.value.lastSent && w.job.value.inFlight < WINDOW
  }

  /** One turn of the loop in sendNextAttachmentChunk. */
  function FillStep(w: Window, o: Outcome): Window
    requires MayFill(w)
  {
    var job := w.job.value;
    var t := w.transfer;
    if t.logicalSize <= 0 || t.chunkSize <= 0 || job.next < 0
       || t.logicalSize - job.next * t.chunkSize <= 0 || o == ReadFails
    then
      w.(transfer := Fail(t), job := None)
    else
      SendChunk(Advanced(w), job.next, o)
  }

  /** The job after the next chunk was read. */
  function Advanced(w: Window): Window
    requires w.job.Some?
  {
    var job := w.job.value;
    w.(job := Some(Job(job.next + 1, job.inFlight + 1, job.next + 1 >= ChunkTotal(w.transfer))))
  }

  function Fill(w: Window, o: Outcomes): Window
    decreases if w.job.Some? then WINDOW - w.job.value.inFlight else 0
  {
    if !MayFill(w) then w
    else
      var w1 := FillStep(w, o(w.job.value.next));
      if w1.job.None? || w1.transfer.status == Failed then w1 else Fill(w1, o)
  }

  /** The pending command an acknowledgement belongs to: the one it names, or else the one of
      its chunk. */
  function Matching(w: Window, command: Command, mine: bool, i: int): Option<Command> {
    if command in w.pending then Some(command)
    else if mine && 0 <= i && w.name(i) in w.pending && w.pending[w.name(i)] == i then
      Some(w.name(i))
    else None
  }

  function Acknowledge(w: Window, command: Command, mine: bool, i: int, o: Outcomes): Window {
    var found := Matching(w, command, mine, i);
    if found.None? then w else Settle(w, found.value, o)
  }

  /** The pending command `c` is acknowledged: the window is refilled, or the upload committed. */
  function Settle(w: Window, c: Command, o: Outcomes): Window
    requires c in w.pending
  {
    var (t, ok) := AckCommand(w.transfer, c, w.pending[c]);
    var w1 := w.(pending := w.pending - {c}, transfer := t);
    if !ok || w.job.None? then w1
    else
      var job := w.job.value.(inFlight := w.job.value.inFlight - 1);
      if job.lastSent && job.inFlight == 0 then w1.(job := None, commits := w.commits + 1)
      else Fill(w1.(job := Some(job)), o)
  }

  function ErrorReply(w: Window, command: Command): Window {
    if command in w.pending then w.(transfer := Fail(w.transfer), job := None, pending := map[]) else w
  }

  function ResumeReply(w: Window, indexes: seq<int>): Window {
    w.(transfer := AcceptResume(w.transfer, indexes).0)
  }

  /** An accepted attachment.init answer: a fresh transfer and job, and the first window. */
  function Start(name: Naming, t: Transfer, o: Outcomes): Window {
    Fill(Window(name, t, map[], Some(Job(0, 0, false)), [], 0), o)
  }

  datatype Event =
    | AckEvent(command: Command, mine: bool, index: int, outcomes: Outcomes)
    | ErrorEvent(command: Command)
    | ResumeEvent(indexes: seq<int>)

  function Step(w: Window, e: Event): Window {
    match e
    case AckEvent(command, mine, i, o) => Acknowledge(w, command, mine, i, o)
    case ErrorEvent(command) => ErrorReply(w, command)
    case ResumeEvent(indexes) => ResumeReply(w, indexes)
  }

  function RunWindow(w: Window, events: seq<Event>): Window
    decreases |events|
  {
    if events == [] then w else RunWindow(Step(w, events[0]), events[1..])
  }

  // ---------- Command ids ----------

  ghost predicate Distinct(name: Naming) {
    && (forall i :: 0 <= i ==> name(i) != "")
    && (forall i, j :: 0 <= i && 0 <= j && name(i) == name(j) ==> i == j)
  }

  /** Different chunks of an upload never share a command id. */
  lemma CommandsAreDistinct(base: string)
    ensures Distinct(ChunkCommands(base))
  {
    var name := ChunkCommands(base);
    var prefix := base + "-chunk-";
    forall i | 0 <= i ensures name(i) != "" { assert |name(i)| >= |prefix|; }
    forall i, j | 0 <= i && 0 <= j && name(i) == name(j) ensures i == j {
      assert name(i)[|prefix|..] == Decimal(i);
      assert name(j)[|prefix|..] == Decimal(j);
      DecimalInjective(i, j);
    }
  }

  // ---------- The invariant ----------

  ghost function First(n: int): seq<int> {
    if n <= 0 then [] else First(n - 1) + [n - 1]
  }

  /** The pending commands are the commands of the chunks that are sent and not acknowledged. */
  ghost predicate Outstanding(name: Naming, pending: map<Command, int>, received: set<int>, next: int) {
    && (forall c :: c in pending ==> 0 <= pending[c] < next && c == name(pending[c]) && pending[c] !in received)
    && (forall i :: 0 <= i < next && i !in received ==> name(i) in pending)
  }

  lemma OutstandingSend(name: Naming, pending: map<Command, int>, received: set<int>, next: int)
    requires Distinct(name) && Outstanding(name, pending, received, next) && 0 <= next && received <= All(next)
    ensures name(next) !in pending && next !in received && name(next) != ""
    ensures var pending' := pending[name(next) := next];
      Outstanding(name, pending', received, next + 1) && |pending'.Keys| == |pending.Keys| + 1
  {
    var pending' := pending[name(next) := next];
    assert name(next) !in pending;
    assert next !in received;
    assert pending'.Keys == pending.Keys + {name(next)};
    forall i | 0 <= i < next + 1 && i !in received ensures name(i) in pending' { }
  }

  lemma OutstandingAck(name: Naming, pending: map<Command, int>, received: set<int>, next: int, c: Command)
    requires Distinct(name) && Outstanding(name, pending, received, next) && c in pending
    ensures var pending' := pending - {c};
      Outstanding(name, pending', received + {pending[c]}, next) && |pending'.Keys| == |pending.Keys| - 1
    ensures pending[c] !in received && 0 <= pending[c] < next
  {
    var pending' := pending - {c};
    assert pending.Keys == pending'.Keys + {c};
  }

  ghost predicate Running(w: Window) {
    && w.job.Some? && w.transfer.status == Uploading && w.commits == 0
    && var (t, job) := (w.transfer, w.job.value);
    && t.logicalSize > 0 && t.chunkSize > 0
    && 0 <= job.next <= ChunkTotal(t) && (job.lastSent <==> job.next == ChunkTotal(t))
    && w.sent == First(job.next)
    && t.pending == w.pending && Distinct(w.name) && Outstanding(w.name, w.pending, t.received, job.next)
    && t.received <= All(job.next)
    && |w.pending.Keys| == job.inFlight == job.next - |t.received|
    && 0 <= job.inFlight <= WINDOW
  }

  /** The window is as full as the file allows. */
  ghost predicate Filled(w: Window) {
    Running(w) && (w.job.value.lastSent || w.job.value.inFlight == WINDOW) && w.job.value.inFlight > 0
  }

  ghost predicate Done(w: Window) {
    && w.job.None? && w.commits == 1
    && w.transfer.status == Completed && w.transfer.received == All(ChunkTotal(w.transfer))
    && w.sent == First(ChunkTotal(w.transfer)) && w.pending == map[]
  }

  /** Failed: a prefix of the chunks went out and no commit ever will. */
  ghost predicate Broken(w: Window) {
    && w.transfer.status == Failed && w.commits == 0 && |w.transfer.received| < ChunkTotal(w.transfer)
    && exists k :: 0 <= k <= ChunkTotal(w.transfer) && w.sent == First(k)
  }

  ghost predicate WindowInv(w: Window) {
    Filled(w) || Done(w) || Broken(w)
  }

  ghost predicate AllSent(o: Outcomes) {
    forall i :: o(i) == Sent
  }

  ghost predicate Ready(o: Outcomes) {
    forall i :: o(i) != NotReady
  }

  /** The window with the next chunk registered and sent. */
  ghost function WithNext(w: Window): Window
    requires w.job.Some?
  {
    var i := w.job.value.next;
    var pending := w.pending[w.name(i) := i];
    Advanced(w).(transfer := w.transfer.(pending := pending), pending := pending, sent := w.sent + [i])
  }

  lemma WithNextRuns(w: Window)
    requires Running(w) && MayFill(w)
    ensures Running(WithNext(w))
  {
    var i, w1 := w.job.value.next, WithNext(w);
    OutstandingSend(w.name, w.pending, w.transfer.received, i);
    assert ChunkTotal(w1.transfer) == ChunkTotal(w.transfer);
    assert w1.transfer.received <= All(i + 1);
    assert w1.sent == First(i + 1);
  }

  lemma SendChunkKeeps(w: Window, o: Outcome)
    requires Running(w) && MayFill(w) && (o == Sent || o == SendFails)
    ensures var w2 := SendChunk(Advanced(w), w.job.value.next, o);
      if o == Sent then Running(w2) && w2.job == Advanced(w).job else Broken(w2)
  {
    var i := w.job.value.next;
    OutstandingSend(w.name, w.pending, w.transfer.received, i);
    assert Register(w.transfer, w.name(i), i) == (w.transfer.(pending := w.pending[w.name(i) := i]), true);
    var w2 := SendChunk(Advanced(w), i, o);
    if o == Sent {
      assert w2 == WithNext(w);
      WithNextRuns(w);
    } else {
      assert w2.transfer.status == Failed && w2.sent == First(i);
    }
  }

  lemma FillStepKeeps(w: Window, o: Outcome)
    requires Running(w) && MayFill(w) && o != NotReady
    ensures var w1 := FillStep(w, o);
      if o == Sent then Running(w1) && w1.job.value.next == w.job.value.next + 1 else Broken(w1)
    ensures o == Sent ==> FillStep(w, o).job.value.inFlight == w.job.value.inFlight + 1
  {
    var t := w.transfer;
    OffsetInFile(t.logicalSize, t.chunkSize, w.job.value.next);
    assert t.logicalSize - w.job.value.next * t.chunkSize > 0;
    if o == ReadFails {
      assert FillStep(w, o).transfer.status == Failed && FillStep(w, o).sent == First(w.job.value.next);
    } else {
      assert FillStep(w, o) == SendChunk(Advanced(w), w.job.value.next, o);
      SendChunkKeeps(w, o);
    }
  }

  /** Sending changes neither the file nor what is acknowledged. */
  ghost predicate SameProgress(w: Window, w': Window) {
    && w'.name == w.name && w'.transfer.received == w.transfer.received
    && w'.transfer.logicalSize == w.transfer.logicalSize && w'.transfer.chunkSize == w.transfer.chunkSize
  }

  lemma StepSameProgress(w: Window, o: Outcome)
    requires MayFill(w)
    ensures SameProgress(w, FillStep(w, o))
  {
  }

  /** The loop ends with a full window, or with every chunk sent, or broken. */
  lemma {:induction false} FillKeeps(w: Window, o: Outcomes)
    requires Running(w) && Ready(o) && (w.job.value.lastSent ==> w.job.value.inFlight > 0)
    ensures Filled(Fill(w, o)) || Broken(Fill(w, o))
    ensures AllSent(o) ==> Filled(Fill(w, o))
    ensures SameProgress(w, Fill(w, o))
    decreases WINDOW - w.job.value.inFlight
  {
    if MayFill(w) {
      var o1 := o(w.job.value.next);
      var w1 := FillStep(w, o1);
      FillStepKeeps(w, o1);
      StepSameProgress(w, o1);
      if o1 == Sent {
        assert Fill(w, o) == Fill(w1, o);
        FillKeeps(w1, o);
      } else {
        assert Fill(w, o) == w1;
      }
    }
  }

  /** The first index after a refill: eight chunks in flight, or the end of the file. */
  ghost function Stop(w: Window): int
    requires w.job.Some?
  {
    Min(w.job.value.next + 8 - w.job.value.inFlight, ChunkTotal(w.transfer))
  }

  ghost predicate AllGo(o: Outcomes, from: int, to: int) {
    forall i :: from <= i < to ==> o(i) == Sent
  }

  lemma AllGoFrom(o: Outcomes, from: int, to: int)
    requires from < to && o(from) == Sent
    ensures AllGo(o, from, to) <==> AllGo(o, from + 1, to)
  {
    if AllGo(o, from + 1, to) {
      forall i | from <= i < to ensures o(i) == Sent { assert i == from || from + 1 <= i; }
    }
  }

  /** One turn of the loop, and what is left for the next. */
  lemma FillTurn(w: Window, o: Outcomes)
    requires Running(w) && MayFill(w) && Ready(o)
    ensures var (next, w1) := (w.job.value.next, FillStep(w, o(w.job.value.next)));
      && next < Stop(w)
      && if o(next) == Sent
         then Running(w1) && w1.job.value == Job(next + 1, w.job.value.inFlight + 1, w1.job.value.lastSent)
              && Stop(w1) == Stop(w) && Fill(w, o) == Fill(w1, o)
         else Broken(w1) && Fill(w, o) == w1
  {
    FillStepKeeps(w, o(w.job.value.next));
    StepSameProgress(w, o(w.job.value.next));
  }

  /** A refill breaks the upload exactly if some read or send it makes fails; otherwise every
      chunk below `Stop` has gone out. */
  lemma {:induction false} FillBreaksExactly(w: Window, o: Outcomes)
    requires Running(w) && Ready(o)
    ensures var w' := Fill(w, o);
      if AllGo(o, w.job.value.next, Stop(w)) then w'.transfer.status == Uploading && w'.sent == First(Stop(w))
      else w'.transfer.status == Failed
    decreases WINDOW - w.job.value.inFlight
  {
    var next := w.job.value.next;
    if MayFill(w) {
      FillTurn(w, o);
      if o(next) == Sent {
        AllGoFrom(o, next, Stop(w));
        FillBreaksExactly(FillStep(w, o(next)), o);
      }
    } else {
      assert Fill(w, o) == w && Stop(w) == next;
    }
  }

  /** A fresh upload starts with a filled window. */
  lemma StartKeeps(base: string, t: Transfer, o: Outcomes)
    requires t.status == Uploading && t.logicalSize > 0 && t.chunkSize > 0 && t.received == {} && t.pending == map[]
    requires Ready(o)
    ensures WindowInv(Start(ChunkCommands(base), t, o))
    ensures ChunkTotal(Start(ChunkCommands(base), t, o).transfer) == ChunkTotal(t) > 0
  {
    CommandsAreDistinct(base);
    OffsetInFile(t.logicalSize, t.chunkSize, 0);
    FillKeeps(Window(ChunkCommands(base), t, map[], Some(Job(0, 0, false)), [], 0), o);
  }

  // ---------- Acknowledgements ----------

  /** The transfer after the acknowledgement of an outstanding chunk. */
  lemma AckTransfer(w: Window, c: Command)
    requires Running(w) && c in w.pending
    ensures var (t, ok) := AckCommand(w.transfer, c, w.pending[c]);
      && ok && t.pending == w.pending - {c} && t.received == w.transfer.received + {w.pending[c]}
      && |t.received| == |w.transfer.received| + 1 && t.received <= All(w.job.value.next)
      && t.logicalSize == w.transfer.logicalSize && t.chunkSize == w.transfer.chunkSize
      && (if w.job.value.lastSent && w.job.value.inFlight == 1
          then t.status == Completed && t.received == All(ChunkTotal(t)) && w.pending - {c} == map[]
          else t.status == Uploading)
  {
    OutstandingAck(w.name, w.pending, w.transfer.received, w.job.value.next, c);
    SubsetSize(w.transfer.received + {w.pending[c]}, All(w.job.value.next));
    if w.job.value.inFlight == 1 { assert (w.pending - {c}).Keys == {}; }
  }

  /** The window after the acknowledgement of `c`, before it is refilled or committed. */
  ghost function Acked(w: Window, c: Command): Window
    requires w.job.Some? && c in w.pending
  {
    w.(pending := w.pending - {c}, transfer := AckCommand(w.transfer, c, w.pending[c]).0,
       job := Some(w.job.value.(inFlight := w.job.value.inFlight - 1)))
  }

  ghost predicate IsLast(w: Window)
    requires w.job.Some?
  {
    w.job.value.lastSent && w.job.value.inFlight == 1
  }

  lemma AckedRuns(w: Window, c: Command)
    requires Running(w) && c in w.pending && !IsLast(w)
    ensures Running(Acked(w, c)) && Acked(w, c).job.value.inFlight == w.job.value.inFlight - 1
    ensures Acked(w, c).job.value.lastSent == w.job.value.lastSent
  {
    AckTransfer(w, c);
    OutstandingAck(w.name, w.pending, w.transfer.received, w.job.value.next, c);
    var w1 := Acked(w, c);
    assert w1.sent == First(w1.job.value.next);
    assert ChunkTotal(w1.transfer) == ChunkTotal(w.transfer);
  }

  lemma AckShape(w: Window, command: Command, mine: bool, i: int, o: Outcomes)
    requires w.job.Some? && Matching(w, command, mine, i).Some?
    requires var c := Matching(w, command, mine, i).value; AckCommand(w.transfer, c, w.pending[c]).1
    ensures var c := Matching(w, command, mine, i).value; var w1 := Acked(w, c);
      Acknowledge(w, command, mine, i, o) ==
        if IsLast(w) then w1.(job := None, commits := w.commits + 1) else Fill(w1, o)
  {
  }

  /** Every way an acknowledgement that matches an outstanding chunk can end. */
  lemma AckKeeps(w: Window, command: Command, mine: bool, i: int, o: Outcomes)
    requires Filled(w) && Ready(o) && Matching(w, command, mine, i).Some?
    ensures var w' := Acknowledge(w, command, mine, i, o);
      && WindowInv(w') && (Done(w') <==> IsLast(w))
      && |w'.transfer.received| == |w.transfer.received| + 1
      && ChunkTotal(w'.transfer) == ChunkTotal(w.transfer)
      && (AllSent(o) ==> !Broken(w'))
  {
    var c := Matching(w, command, mine, i).value;
    AckTransfer(w, c);
    AckShape(w, command, mine, i, o);
    if !IsLast(w) {
      AckedRuns(w, c);
      FillKeeps(Acked(w, c), o);
    }
  }

  /** An acknowledgement counts the chunk of the command it names, or else the outstanding chunk
      it names; any other changes nothing. */
  lemma AckExactly(w: Window, command: Command, mine: bool, i: int, o: Outcomes)
    requires Filled(w) && Ready(o)
    ensures var (w', received) := (Acknowledge(w, command, mine, i, o), w.transfer.received);
      if command in w.pending then w'.transfer.received == received + {w.pending[command]}
      else if mine && i in w.pending.Values then w'.transfer.received == received + {i}
      else w' == w
  {
    var found := Matching(w, command, mine, i);
    if found.Some? {
      AckTransfer(w, found.value);
      AckShape(w, command, mine, i, o);
      if !IsLast(w) {
        AckedRuns(w, found.value);
        FillKeeps(Acked(w, found.value), o);
      }
    }
  }

  /** An error for an outstanding command ends the upload: failed, without a job or a pending
      command, and nothing more acknowledged. Any other error changes nothing. */
  lemma ErrorEnds(w: Window, command: Command)
    requires Filled(w)
    ensures var w' := ErrorReply(w, command);
      if command in w.pending then
        && Broken(w') && w'.job.None? && w'.pending == map[]
        && w'.sent == w.sent && w'.transfer.received == w.transfer.received
      else w' == w
  {
    if command in w.pending {
      assert |w.transfer.received| < ChunkTotal(w.transfer);
      assert w.sent == First(w.job.value.next);
    }
  }

  /** A broken upload sends nothing more; a finished one ignores everything. */
  lemma EndedStays(w: Window, e: Event)
    requires Broken(w) || Done(w)
    ensures var w' := Step(w, e);
      && (Done(w) ==> w' == w)
      && (Broken(w) ==> Broken(w') && w'.sent == w.sent && w'.transfer.received == w.transfer.received)
      && w'.transfer.logicalSize == w.transfer.logicalSize && w'.transfer.chunkSize == w.transfer.chunkSize
  {
  }

  /** A resume reply for a running upload that names some chunk outside the file is refused. */
  predicate RefusedReply(t: Transfer, indexes: seq<int>) {
    exists i | i in indexes :: !ValidIndex(t, i)
  }

  lemma RefusedReplyChangesNothing(w: Window, indexes: seq<int>)
    requires RefusedReply(w.transfer, indexes)
    ensures ResumeReply(w, indexes) == w
  {
  }

  /** While the upload runs, a resume reply must be a refused one; afterwards any may come. The
      connection is ready whenever a chunk is due. */
  ghost predicate Harmless(w: Window, e: Event) {
    && (e.AckEvent? ==> Ready(e.outcomes))
    && (e.ResumeEvent? && w.transfer.status == Uploading ==> RefusedReply(w.transfer, e.indexes))
  }

  ghost predicate AllHarmless(w: Window, events: seq<Event>)
    decreases |events|
  {
    events == [] || (Harmless(w, events[0]) && AllHarmless(Step(w, events[0]), events[1..]))
  }

  lemma StepKeeps(w: Window, e: Event)
    requires WindowInv(w) && Harmless(w, e)
    ensures WindowInv(Step(w, e)) && ChunkTotal(Step(w, e).transfer) == ChunkTotal(w.transfer)
  {
    if Filled(w) {
      match e
      case AckEvent(command, mine, i, o) =>
        if Matching(w, command, mine, i).Some? { AckKeeps(w, command, mine, i, o); }
      case ErrorEvent(command) =>
        assert command in w.pending ==> Step(w, e).sent == First(w.job.value.next);
      case ResumeEvent(indexes) => RefusedReplyChangesNothing(w, indexes);
    } else {
      EndedStays(w, e);
    }
  }

  lemma {:induction false} RunWindowKeeps(w: Window, events: seq<Event>)
    requires WindowInv(w) && AllHarmless(w, events)
    ensures WindowInv(RunWindow(w, events)) && ChunkTotal(RunWindow(w, events).transfer) == ChunkTotal(w.transfer)
    decreases |events|
  {
    if events != [] {
      StepKeeps(w, events[0]);
      RunWindowKeeps(Step(w, events[0]), events[1..]);
    }
  }

  lemma {:induction false} FirstMeans(n: nat)
    ensures |First(n)| == n && forall k :: 0 <= k < n ==> First(n)[k] == k
  {
    if n > 0 { FirstMeans(n - 1); }
  }

  ghost predicate WindowFacts(w: Window) {
    var n := ChunkTotal(w.transfer);
    && (w.transfer.status == Uploading ==>
          && w.job.Some? && 0 < w.job.value.inFlight == |w.pending.Keys| <= 8 && w.pending == w.transfer.pending
          && (|w.pending.Keys| == 8 || |w.sent| == n))
    && |w.sent| <= n && (forall k :: 0 <= k < |w.sent| ==> w.sent[k] == k)
    && (w.transfer.status == Completed <==> w.transfer.received == All(n))
    && w.commits == (if w.transfer.status == Completed then 1 else 0)
    && (w.transfer.status == Completed ==> |w.sent| == n)
  }

  lemma InvMeansFacts(w: Window)
    requires WindowInv(w) && 0 < ChunkTotal(w.transfer)
    ensures WindowFacts(w)
  {
    var n := ChunkTotal(w.transfer);
    if Filled(w) {
      FirstMeans(w.job.value.next);
      assert |w.transfer.received| < |All(n)|;
    } else if Done(w) {
      FirstMeans(n);
    } else {
      var k :| 0 <= k <= n && w.sent == First(k);
      FirstMeans(k);
    }
  }

  /** The sliding window, for every order, repetition and loss of acknowledgements and every
      failure of reads, sends and chunks: while the upload runs, the in-flight count is the
      number of pending commands, at most 8 and less only when every chunk is out; chunks go
      out once each, in ascending order; the transfer is complete exactly when every chunk is
      acknowledged; and exactly then the one commit has been sent. */
  lemma SlidingWindow(base: string, t: Transfer, o: Outcomes, events: seq<Event>)
    requires t.status == Uploading && t.logicalSize > 0 && t.chunkSize > 0 && t.received == {} && t.pending == map[]
    requires Ready(o) && AllHarmless(Start(ChunkCommands(base), t, o), events)
    ensures WindowFacts(RunWindow(Start(ChunkCommands(base), t, o), events))
  {
    StartKeeps(base, t, o);
    var w0 := Start(ChunkCommands(base), t, o);
    RunWindowKeeps(w0, events);
    InvMeansFacts(RunWindow(w0, events));
  }

  // ---------- Termination ----------

  /** Each command is pending when it is acknowledged. */
  ghost predicate AnswersPending(w: Window, acks: seq<Command>, o: Outcomes)
    decreases |acks|
  {
    acks == [] || (acks[0] in w.pending && AnswersPending(Acknowledge(w, acks[0], true, 0, o), acks[1..], o))
  }

  ghost function Answer(w: Window, acks: seq<Command>, o: Outcomes): Window
    decreases |acks|
  {
    if acks == [] then w else Answer(Acknowledge(w, acks[0], true, 0, o), acks[1..], o)
  }

  /** A running upload always waits for some chunk, and it ends with the acknowledgement that
      is the last missing one: no run acknowledges more, and no shorter run is the end. */
  lemma {:induction false} Terminates(w: Window, acks: seq<Command>, o: Outcomes)
    requires Filled(w) && AllSent(o) && AnswersPending(w, acks, o)
    ensures w.pending != map[]
    ensures |acks| <= ChunkTotal(w.transfer) - |w.transfer.received|
    ensures Done(Answer(w, acks, o)) <==> |acks| == ChunkTotal(w.transfer) - |w.transfer.received|
    decreases |acks|
  {
    assert w.pending.Keys != {};
    if acks != [] {
      AckKeeps(w, acks[0], true, 0, o);
      var w1 := Acknowledge(w, acks[0], true, 0, o);
      if Done(w1) {
        assert acks[1..] == [];
      } else {
        Terminates(w1, acks[1..], o);
      }
    }
  }

  const ALL_SENT: Outcomes := _ => Sent

  /** A running upload has an acknowledgement to wait for that brings it forward. */
  lemma NextAck(w: Window) returns (e: Event)
    requires Filled(w)
    ensures var w1 := Step(w, e);
      || Done(w1)
      || (&& Filled(w1) && |w1.transfer.received| == |w.transfer.received| + 1
          && ChunkTotal(w1.transfer) == ChunkTotal(w.transfer))
    ensures |w.transfer.received| < ChunkTotal(w.transfer)
  {
    assert w.pending.Keys != {};
    var c :| c in w.pending;
    AckKeeps(w, c, true, 0, ALL_SENT);
    e := AckEvent(c, true, 0, ALL_SENT);
  }

  lemma RunOne(w: Window, e: Event, rest: seq<Event>)
    ensures RunWindow(w, [e] + rest) == RunWindow(Step(w, e), rest)
    ensures RunWindow(w, [e]) == Step(w, e)
  {
    assert ([e] + rest)[1..] == rest && [e][1..] == [];
  }

  /** A running upload can always be brought to its commit. */
  lemma {:induction false} CanFinish(w: Window) returns (events: seq<Event>)
    requires Filled(w)
    ensures Done(RunWindow(w, events))
    decreases ChunkTotal(w.transfer) - |w.transfer.received|
  {
    var e := NextAck(w);
    if Done(Step(w, e)) {
      events := [e];
      RunOne(w, e, []);
    } else {
      var rest := CanFinish(Step(w, e));
      events := [e] + rest;
      RunOne(w, e, rest);
    }
  }

  // ---------- Resume replies ----------

  /** The commands in flight are forgotten. */
  ghost predicate Stalled(w: Window) {
    w.transfer.pending == map[]
  }

  lemma StalledStays(w: Window, e: Event)
    requires Stalled(w)
    ensures Stalled(Step(w, e)) && Step(w, e).sent == w.sent && Step(w, e).commits == w.commits
  {
  }

  lemma {:induction false} StalledForever(w: Window, events: seq<Event>)
    requires Stalled(w)
    ensures RunWindow(w, events).sent == w.sent && RunWindow(w, events).commits == w.commits
    decreases |events|
  {
    if events != [] {
      StalledStays(w, events[0]);
      StalledForever(Step(w, events[0]), events[1..]);
    }
  }

  /** A resume reply whose indexes all lie in the file, taken while an upload runs, forgets the
      commands in flight but not the job's count of them. Whatever arrives afterwards, nothing
      more is sent: no chunk, and no commit. */
  lemma AcceptedResumeStalls(w: Window, indexes: seq<int>, events: seq<Event>)
    requires Filled(w) && forall i :: i in indexes ==> ValidIndex(w.transfer, i)
    ensures Stalled(ResumeReply(w, indexes))
    ensures var w' := RunWindow(ResumeReply(w, indexes), events);
      w'.sent == w.sent && w'.commits == 0
  {
    StalledForever(ResumeReply(w, indexes), events);
  }

  ghost predicate CanCommit(w: Window) {
    exists events :: RunWindow(w, events).commits > 0
  }

  /** The exact condition: a running upload that gets a resume reply can still be committed if
      and only if some index of the reply lies outside the file, and then the reply changes
      nothing. */
  lemma ResumeStallsExactly(w: Window, indexes: seq<int>)
    requires Filled(w)
    ensures CanCommit(ResumeReply(w, indexes)) <==> RefusedReply(w.transfer, indexes)
    ensures RefusedReply(w.transfer, indexes) ==> ResumeReply(w, indexes) == w
    ensures Stalled(ResumeReply(w, indexes)) <==> forall i :: i in indexes ==> ValidIndex(w.transfer, i)
  {
    assert w.pending.Keys != {};
    if RefusedReply(w.transfer, indexes) {
      RefusedReplyChangesNothing(w, indexes);
      var events := CanFinish(w);
      assert RunWindow(w, events).commits > 0;
    } else {
      forall events ensures RunWindow(ResumeReply(w, indexes), events).commits == 0 {
        AcceptedResumeStalls(w, indexes, events);
      }
    }
  }

  // ---------- A chunk skipped because the connection was not ready ----------

  /** The job counts more chunks in flight than the transfer has commands. */
  ghost predicate Leaky(w: Window) {
    w.job.Some? ==> |w.transfer.pending.Keys| < w.job.value.inFlight
  }

  lemma KeysAfterAdding(m: map<Command, int>, c: Command, i: int)
    ensures |m[c := i].Keys| <= |m.Keys| + 1
  {
    assert m[c := i].Keys == m.Keys + {c};
  }

  lemma KeysAfterRemoving(m: map<Command, int>, c: Command)
    ensures |(m - {c}).Keys| == if c in m then |m.Keys| - 1 else |m.Keys|
  {
    assert (m - {c}).Keys == m.Keys - {c};
  }

  /** A send adds at most one command, and none when the connection is not ready. */
  lemma SendAddsOne(w: Window, i: int, o: Outcome)
    ensures var w' := SendChunk(w, i, o);
      && w'.job == w.job && w'.commits == w.commits
      && |w'.transfer.pending.Keys| <= |w.transfer.pending.Keys| + (if o == NotReady then 0 else 1)
  {
    KeysAfterAdding(w.transfer.pending, w.name(i), i);
  }

  lemma FillStepLeaks(w: Window, o: Outcome)
    requires MayFill(w) && (Leaky(w) || (o == NotReady && |w.transfer.pending.Keys| == w.job.value.inFlight))
    ensures Leaky(FillStep(w, o)) && FillStep(w, o).commits == w.commits
  {
    SendAddsOne(Advanced(w), w.job.value.next, o);
  }

  lemma {:induction false} FillLeaks(w: Window, o: Outcomes)
    requires Leaky(w)
    ensures Leaky(Fill(w, o)) && Fill(w, o).commits == w.commits
    decreases if w.job.Some? then WINDOW - w.job.value.inFlight else 0
  {
    if MayFill(w) {
      var w1 := FillStep(w, o(w.job.value.next));
      FillStepLeaks(w, o(w.job.value.next));
      if w1.job.Some? && w1.transfer.status != Failed { FillLeaks(w1, o); }
    }
  }

  lemma SettleLeaks(w: Window, c: Command, o: Outcomes)
    requires Leaky(w) && c in w.pending
    ensures Leaky(Settle(w, c, o)) && Settle(w, c, o).commits == w.commits
  {
    KeysAfterRemoving(w.transfer.pending, c);
    if w.job.Some? && AckCommand(w.transfer, c, w.pending[c]).1 { FillLeaks(Acked(w, c), o); }
  }

  lemma StepLeaks(w: Window, e: Event)
    requires Leaky(w)
    ensures Leaky(Step(w, e)) && Step(w, e).commits == w.commits
  {
    if e.AckEvent? && Matching(w, e.command, e.mine, e.index).Some? {
      SettleLeaks(w, Matching(w, e.command, e.mine, e.index).value, e.outcomes);
    }
  }

  lemma {:induction false} LeakyForever(w: Window, events: seq<Event>)
    requires Leaky(w)
    ensures RunWindow(w, events).commits == w.commits
    decreases |events|
  {
    if events != [] {
      StepLeaks(w, events[0]);
      LeakyForever(Step(w, events[0]), events[1..]);
    }
  }

  /** A chunk read while the connection is not ready is counted but has no command. */
  lemma NotReadyLeaks(w: Window)
    requires Running(w) && MayFill(w)
    ensures var w1 := FillStep(w, NotReady);
      Leaky(w1) && w1.commits == 0 && !Running(w1) && !Broken(w1)
  {
    OffsetInFile(w.transfer.logicalSize, w.transfer.chunkSize, w.job.value.next);
    assert FillStep(w, NotReady) == Advanced(w);
  }

  /** The exact condition on the connection: one turn of the filling loop leaves an upload that
      runs, or has failed, if and only if the connection was ready; a skipped chunk is never
      acknowledged, so that no commit is ever sent. */
  lemma SkippedChunkNeverCommits(w: Window, o: Outcome, rest: Outcomes, events: seq<Event>)
    requires Running(w) && MayFill(w)
    ensures Running(FillStep(w, o)) || Broken(FillStep(w, o)) <==> o != NotReady
    ensures o == NotReady ==> RunWindow(Fill(FillStep(w, o), rest), events).commits == 0
  {
    if o == NotReady {
      NotReadyLeaks(w);
      FillLeaks(FillStep(w, o), rest);
      LeakyForever(Fill(FillStep(w, o), rest), events);
    } else {
      FillStepKeeps(w, o);
    }
  }

  // ---------- The object ----------

  /** The part of GuiConnectionWorker that belongs to one upload. */
  class UploadWorker {
    const name: Naming
    var transfer: Transfer
    var pendingAttachmentChunks: map<Command, int>
    var job: Option<Job>
    var sent: seq<int>
    var commits: nat

    ghost function AsWindow(): Window
      reads this
    {
      Window(name, transfer, pendingAttachmentChunks, job, sent, commits)
    }

    /** An accepted attachment.init answer. */
    constructor (name: Naming, t: Transfer, o: Outcomes)
      ensures AsWindow() == Start(name, t, o)
    {
      this.name, transfer, pendingAttachmentChunks := name, t, map[];
      job, sent, commits := Some(Job(0, 0, false)), [], 0;
      new;
      SendNextAttachmentChunk(o);
    }

    method SendAttachmentChunk(i: int, o: Outcome)
      modifies this
      ensures AsWindow() == SendChunk(old(AsWindow()), i, o)
    {
      var c := name(i);
      if o == NotReady { return; }
      var (t, ok) := Register(transfer, c, i);
      if !ok { return; }
      transfer := t;
      ghost var before := pendingAttachmentChunks;
      pendingAttachmentChunks := pendingAttachmentChunks[c := i];
      if o == SendFails {
        pendingAttachmentChunks := pendingAttachmentChunks - {c};
        transfer := Fail(transfer);
        assert pendingAttachmentChunks == before - {c};
      } else {
        sent := sent + [i];
      }
    }

    /** The window-filling loop. */
    method SendNextAttachmentChunk(o: Outcomes)
      modifies this
      ensures AsWindow() == Fill(old(AsWindow()), o)
    {
      if job.None? { return; }
      while !job.value.lastSent && job.value.inFlight < WINDOW
        invariant job.Some?
        invariant Fill(AsWindow(), o) == Fill(old(AsWindow()), o)
        decreases WINDOW - job.value.inFlight
      {
        var i := job.value.next;
        ghost var w := AsWindow();
        if transfer.logicalSize <= 0 || transfer.chunkSize <= 0 || i < 0
           || transfer.logicalSize - i * transfer.chunkSize <= 0 || o(i) == ReadFails
        {
          transfer := Fail(transfer);
          job := None;
          assert AsWindow() == FillStep(w, o(i));
          return;
        }
        job := Some(Job(i + 1, job.value.inFlight + 1, i + 1 >= ChunkTotal(transfer)));
        assert AsWindow() == Advanced(w);
        SendAttachmentChunk(i, o(i));
        assert AsWindow() == FillStep(w, o(i));
        if transfer.status == Failed { return; }
      }
    }

    /** The search for the pending command of a chunk reply. */
    method FindPending(command: Command, mine: bool, i: int) returns (found: Option<Command>)
      requires forall c :: c in pendingAttachmentChunks ==>
        0 <= pendingAttachmentChunks[c] && c == name(pendingAttachmentChunks[c])
      ensures found == Matching(AsWindow(), command, mine, i)
    {
      if command in pendingAttachmentChunks { return Some(command); }
      if !mine || !(exists p | p in pendingAttachmentChunks :: pendingAttachmentChunks[p] == i) { return None; }
      var candidate :| candidate in pendingAttachmentChunks && pendingAttachmentChunks[candidate] == i;
      return Some(candidate);
    }

    /** The rest of the "attachment.chunk" branch. */
    method SettleChunk(c: Command, o: Outcomes)
      requires c in pendingAttachmentChunks
      modifies this
      ensures AsWindow() == Settle(old(AsWindow()), c, o)
    {
      var index := pendingAttachmentChunks[c];
      pendingAttachmentChunks := pendingAttachmentChunks - {c};
      var (t, ok) := AckCommand(transfer, c, index);
      transfer := t;
      if !ok || job.None? { return; }
      job := Some(job.value.(inFlight := job.value.inFlight - 1));
      if job.value.lastSent && job.value.inFlight == 0 {
        commits := commits + 1;
        job := None;
      } else {
        SendNextAttachmentChunk(o);
      }
    }

    /** The "attachment.chunk" branch of processAttachmentMessage. */
    method OnChunkReply(command: Command, mine: bool, i: int, o: Outcomes)
      requires forall c :: c in pendingAttachmentChunks ==>
        0 <= pendingAttachmentChunks[c] && c == name(pendingAttachmentChunks[c])
      modifies this
      ensures AsWindow() == Acknowledge(old(AsWindow()), command, mine, i, o)
    {
      var found := FindPending(command, mine, i);
      if found.Some? { SettleChunk(found.value, o); }
    }

    /** The "error" branch. */
    method OnError(command: Command)
      modifies this
      ensures AsWindow() == ErrorReply(old(AsWindow()), command)
    {
      if command in pendingAttachmentChunks {
        transfer := Fail(transfer);
        job := None;
        pendingAttachmentChunks := map[];
      }
    }

    /** The "attachment.resume" branch: whether every index lies in the file decides between
        "nothing is pending any more" and "nothing has changed"; the job is never touched. */
    method OnResume(indexes: seq<int>)
      modifies this
      ensures AsWindow() == ResumeReply(old(AsWindow()), indexes)
      ensures job == old(job) && sent == old(sent) && commits == old(commits)
      ensures RefusedReply(old(transfer), indexes) ==> transfer == old(transfer)
      ensures old(transfer).status == Uploading && !RefusedReply(old(transfer), indexes) ==>
        transfer.pending == map[] && transfer.received == Elements(indexes)
    {
      transfer := AcceptResume(transfer, indexes).0;
    }
  }
}
