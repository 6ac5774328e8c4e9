/** The transfer state machine of client-cpp/gui/src/attachments/attachment_transfer_state.cpp. */
module TransferState {
  import opened Chunks

  datatype Status = Idle | Initializing | Uploading | Resuming | Completed | Cancelled | Failed

  const MAX_RETRIES := 3

  datatype Transfer = Transfer(
    status: Status, logicalSize: int, chunkSize: int,
    attachment: string, upload: string, expiresAt: string,
    received: set<int>, attempts: map<int, int>, pending: map<string, int>)

  const NEW_TRANSFER := Transfer(Idle, 0, 0, "", "", "", {}, map[], map[])

  function ChunkTotal(t: Transfer): int {
    if t.chunkSize > 0 then Count(t.logicalSize, t.chunkSize) else 0
  }

  predicate ValidIndex(t: Transfer, i: int) {
    0 <= i < ChunkTotal(t)
  }

  // ---------- Operations ----------

  function Begin(t: Transfer, logicalSize: int, chunkSize: int): (Transfer, bool) {
    if logicalSize <= 0 || chunkSize <= 0 || t.status != Idle then (t, false)
    else (Transfer(Initializing, logicalSize, chunkSize, "", "", "", {}, map[], map[]), true)
  }

  function AcceptInit(t: Transfer, attachment: string, upload: string, chunkSize: int, expiresAt: string)
    : (Transfer, bool)
  {
    if t.status != Initializing || attachment == "" || upload == "" || expiresAt == "" || chunkSize != t.chunkSize
    then (t, false)
    else (t.(attachment := attachment, upload := upload, expiresAt := expiresAt, status := Uploading), true)
  }

  function AcceptResume(t: Transfer, indexes: seq<int>): (Transfer, bool) {
    if t.status != Uploading && t.status != Resuming then (t, false)
    else if exists i | i in indexes :: !ValidIndex(t, i) then (t, false)
    else
      (t.(received := Elements(indexes), attempts := map[], pending := map[],
          status := if |Elements(indexes)| == ChunkTotal(t) then Completed else Uploading), true)
  }

  function AckIndex(t: Transfer, i: int): (Transfer, bool) {
    if t.status != Uploading || !ValidIndex(t, i) then (t, false)
    else
      (t.(received := t.received + {i}, attempts := t.attempts - {i},
          status := if |t.received + {i}| == ChunkTotal(t) then Completed else Uploading), true)
  }

  function Register(t: Transfer, command: string, i: int): (Transfer, bool) {
    if t.status != Uploading || command == "" || !ValidIndex(t, i) || i in t.received || command in t.pending
    then (t, false)
    else (t.(pending := t.pending[command := i]), true)
  }

  function AckCommand(t: Transfer, command: string, i: int): (Transfer, bool) {
    if command !in t.pending || t.pending[command] != i then (t, false)
    else AckIndex(t.(pending := t.pending - {command}), i)
  }

  function RecordFailure(t: Transfer, i: int): (Transfer, bool) {
    if t.status != Uploading || !ValidIndex(t, i) || i in t.received then (t, false)
    else
      var n := (if i in t.attempts then t.attempts[i] else 0) + 1;
      (t.(attempts := t.attempts[i := n], status := if n > MAX_RETRIES then Failed else Uploading), n <= MAX_RETRIES)
  }

  function Cancel(t: Transfer): Transfer {
    if t.status in {Initializing, Uploading, Resuming} then t.(status := Cancelled) else t
  }

  function Fail(t: Transfer): Transfer {
    if t.status != Completed && t.status != Cancelled then t.(status := Failed) else t
  }

  datatype Op =
    | BeginOp(logicalSize: int, chunkSize: int)
    | InitOp(attachment: string, upload: string, size: int, expiresAt: string)
    | ResumeOp(indexes: seq<int>)
    | AckIndexOp(index: int)
    | RegisterOp(command: string, index: int)
    | AckCommandOp(command: string, index: int)
    | FailureOp(index: int)
    | CancelOp
    | FailOp

  function Apply(t: Transfer, op: Op): Transfer {
    match op
    case BeginOp(size, chunk) => Begin(t, size, chunk).0
    case InitOp(attachment, upload, chunk, expiresAt) => AcceptInit(t, attachment, upload, chunk, expiresAt).0
    case ResumeOp(indexes) => AcceptResume(t, indexes).0
    case AckIndexOp(i) => AckIndex(t, i).0
    case RegisterOp(command, i) => Register(t, command, i).0
    case AckCommandOp(command, i) => AckCommand(t, command, i).0
    case FailureOp(i) => RecordFailure(t, i).0
    case CancelOp => Cancel(t)
    case FailOp => Fail(t)
  }

  function Run(t: Transfer, ops: seq<Op>): Transfer
    decreases |ops|
  {
    if ops == [] then t else Run(Apply(t, ops[0]), ops[1..])
  }

  // ---------- Sets of indexes ----------

  /** The indexes 0 to n - 1. */
  function All(n: int): (s: set<int>)
    ensures forall i :: i in s <==> 0 <= i < n
    ensures |s| == if n < 0 then 0 else n
    decreases n
  {
    if n <= 0 then {} else All(n - 1) + {n - 1}
  }

  lemma SubsetSize<T>(a: set<T>, b: set<T>)
    requires a <= b
    ensures |a| <= |b| && (|a| == |b| ==> a == b)
  {
    assert b == a + (b - a);
    assert |b| == |a| + |b - a|;
  }

  // ---------- The invariant ----------

  ghost predicate Inv(t: Transfer) {
    && (t.status == Idle || t.status == Failed || (t.logicalSize > 0 && t.chunkSize > 0))
    && 0 <= ChunkTotal(t)
    && (t.status in {Initializing, Uploading, Resuming, Completed, Cancelled} ==> ChunkTotal(t) > 0)
    && (t.status == Idle ==> t.chunkSize == 0 && t.received == {})
    && t.received <= All(ChunkTotal(t))
    && (t.status == Completed <==> ChunkTotal(t) > 0 && |t.received| == ChunkTotal(t))
    && (forall c :: c in t.pending ==> ValidIndex(t, t.pending[c]))
    && (forall i :: i in t.attempts ==> 1 <= t.attempts[i] <= MAX_RETRIES + (if t.status == Failed then 1 else 0))
  }

  lemma BeginKeeps(t: Transfer, size: int, chunk: int)
    requires Inv(t)
    ensures Inv(Begin(t, size, chunk).0)
  {
    if size > 0 && chunk > 0 { OffsetInFile(size, chunk, 0); }
  }

  /** New sets of acknowledged chunks: the status follows the count. */
  lemma ProgressKeeps(t: Transfer, t': Transfer)
    requires Inv(t) && (t.status == Uploading || t.status == Resuming)
    requires t' == t.(received := t'.received, attempts := t'.attempts, pending := t'.pending, status := t'.status)
    requires t'.received <= All(ChunkTotal(t))
    requires t'.status == if |t'.received| == ChunkTotal(t) then Completed else Uploading
    requires forall i :: i in t'.attempts ==> i in t.attempts && t'.attempts[i] == t.attempts[i]
    requires forall c :: c in t'.pending ==> ValidIndex(t, t'.pending[c])
    ensures Inv(t')
  {
    assert ChunkTotal(t') == ChunkTotal(t);
  }

  lemma AckKeeps(t: Transfer, i: int)
    requires Inv(t)
    ensures Inv(AckIndex(t, i).0)
  {
    if AckIndex(t, i).1 { ProgressKeeps(t, AckIndex(t, i).0); }
  }

  lemma ResumeKeeps(t: Transfer, indexes: seq<int>)
    requires Inv(t)
    ensures Inv(AcceptResume(t, indexes).0)
  {
    if AcceptResume(t, indexes).1 { ProgressKeeps(t, AcceptResume(t, indexes).0); }
  }

  lemma FailureKeeps(t: Transfer, i: int)
    requires Inv(t)
    ensures Inv(RecordFailure(t, i).0)
  {
  }

  lemma AckCommandKeeps(t: Transfer, command: string, i: int)
    requires Inv(t)
    ensures Inv(AckCommand(t, command, i).0)
  {
    AckKeeps(t.(pending := t.pending - {command}), i);
  }

  lemma InitKeeps(t: Transfer, attachment: string, upload: string, chunk: int, expiresAt: string)
    requires Inv(t)
    ensures Inv(AcceptInit(t, attachment, upload, chunk, expiresAt).0)
  {
  }

  lemma RegisterKeeps(t: Transfer, command: string, i: int)
    requires Inv(t)
    ensures Inv(Register(t, command, i).0)
  {
  }

  lemma StopKeeps(t: Transfer)
    requires Inv(t)
    ensures Inv(Cancel(t)) && Inv(Fail(t))
  {
  }

  lemma ApplyKeeps(t: Transfer, op: Op)
    requires Inv(t)
    ensures Inv(Apply(t, op))
  {
    match op
    case BeginOp(size, chunk) => BeginKeeps(t, size, chunk);
    case InitOp(attachment, upload, chunk, expiresAt) => InitKeeps(t, attachment, upload, chunk, expiresAt);
    case ResumeOp(indexes) => ResumeKeeps(t, indexes);
    case AckIndexOp(i) => AckKeeps(t, i);
    case RegisterOp(command, i) => RegisterKeeps(t, command, i);
    case AckCommandOp(command, i) => AckCommandKeeps(t, command, i);
    case FailureOp(i) => FailureKeeps(t, i);
    case CancelOp => StopKeeps(t);
    case FailOp => StopKeeps(t);
  }

  lemma {:induction false} RunKeeps(t: Transfer, ops: seq<Op>)
    requires Inv(t)
    ensures Inv(Run(t, ops))
    decreases |ops|
  {
    if ops != [] {
      ApplyKeeps(t, ops[0]);
      RunKeeps(Apply(t, ops[0]), ops[1..]);
    }
  }

  /** After any calls in any order, a begun transfer is complete exactly if the acknowledged
      chunks are all the chunks of the file, and then nothing is missing. */
  lemma CompletedExactlyWhenAllReceived(ops: seq<Op>)
    ensures var t := Run(NEW_TRANSFER, ops); var n := ChunkTotal(t);
      && (t.status == Completed <==> n > 0 && t.received == All(n))
      && (t.status == Completed ==> Missing(t) == [])
      && (n > 0 && Missing(t) == [] ==> t.status == Completed)
  {
    RunKeeps(NEW_TRANSFER, ops);
    InvMeansComplete(Run(NEW_TRANSFER, ops));
  }

  lemma InvMeansComplete(t: Transfer)
    requires Inv(t)
    ensures var n := ChunkTotal(t);
      && (t.status == Completed <==> n > 0 && t.received == All(n))
      && (n > 0 ==> (t.received == All(n) <==> Missing(t) == []))
  {
    var all := All(ChunkTotal(t));
    SubsetSize(t.received, all);
    MissingMeans(t, 0);
    assert Missing(t) == [] || Missing(t)[0] in Missing(t);
    if Missing(t) == [] {
      forall i | i in all ensures i in t.received { assert i in t.received || i in Missing(t); }
      assert t.received == all;
    }
  }

  predicate Terminal(s: Status) {
    s == Completed || s == Cancelled || s == Failed
  }

  /** A finished transfer stays as it is, whatever is called afterwards. */
  lemma {:induction false} TerminalIsFinal(t: Transfer, ops: seq<Op>)
    requires Terminal(t.status)
    ensures var t' := Run(t, ops); t'.status == t.status && t'.received == t.received
    decreases |ops|
  {
    if ops != [] {
      assert Terminal(Apply(t, ops[0]).status) && Apply(t, ops[0]).received == t.received;
      TerminalIsFinal(Apply(t, ops[0]), ops[1..]);
    }
  }

  // ---------- What is accepted ----------

  /** Which calls succeed, in every state a transfer can be in. */
  lemma CallsSucceedExactly(t: Transfer, size: int, chunk: int, attachment: string, upload: string, expiresAt: string,
                            command: string, i: int)
    requires Inv(t)
    ensures Begin(t, size, chunk).1 <==> t.status == Idle && size > 0 && chunk > 0
    ensures AcceptInit(t, attachment, upload, chunk, expiresAt).1 <==>
      t.status == Initializing && attachment != "" && upload != "" && expiresAt != "" && chunk == t.chunkSize
    ensures Register(t, command, i).1 <==>
      t.status == Uploading && command != "" && 0 <= i < ChunkTotal(t) && i !in t.received && command !in t.pending
    ensures AckCommand(t, command, i).1 <==>
      t.status == Uploading && command in t.pending && t.pending[command] == i
    ensures AckIndex(t, i).1 <==> t.status == Uploading && 0 <= i < ChunkTotal(t)
  {
  }

  /** A new transfer, begun and initialized, is uploading with nothing acknowledged. */
  lemma FreshUpload(size: int, chunk: int, attachment: string, upload: string, expiresAt: string)
    requires size > 0 && chunk > 0 && attachment != "" && upload != "" && expiresAt != ""
    ensures var t := AcceptInit(Begin(NEW_TRANSFER, size, chunk).0, attachment, upload, chunk, expiresAt).0;
      && t.status == Uploading && t.logicalSize == size && t.chunkSize == chunk
      && t.attachment == attachment && t.upload == upload && t.expiresAt == expiresAt
      && t.received == {} && t.pending == map[] && t.attempts == map[] && ChunkTotal(t) == Count(size, chunk)
  {
  }

  ghost function Failures(t: Transfer, i: int, n: nat): Transfer {
    if n == 0 then t else RecordFailure(Failures(t, i, n - 1), i).0
  }

  /** A chunk may fail three times; the fourth failure in a row fails the transfer. */
  lemma {:induction false} FourthFailureFails(t: Transfer, i: int, n: nat)
    requires t.status == Uploading && ValidIndex(t, i) && i !in t.received && i !in t.attempts && n <= 4
    ensures var t' := Failures(t, i, n);
      && t'.status == (if n == 4 then Failed else Uploading)
      && t'.received == t.received && ChunkTotal(t') == ChunkTotal(t)
      && (n > 0 ==> i in t'.attempts && t'.attempts[i] == n) && (n == 0 ==> t' == t)
  {
    if n > 0 { FourthFailureFails(t, i, n - 1); }
  }

  /** An acknowledgement forgives the failures of its chunk and counts it. */
  lemma AckCounts(t: Transfer, i: int)
    requires Inv(t) && t.status == Uploading && ValidIndex(t, i)
    ensures var t' := AckIndex(t, i).0;
      && t'.received == t.received + {i} && i !in t'.attempts
      && (t'.status == Completed <==> t.received + {i} == All(ChunkTotal(t)))
  {
    SubsetSize(t.received + {i}, All(ChunkTotal(t)));
  }

  /** Cancelling and failing: only a transfer that has not ended ends. */
  lemma StopsExactly(t: Transfer)
    ensures Cancel(t).status == Cancelled <==> t.status in {Initializing, Uploading, Resuming, Cancelled}
    ensures Fail(t).status == Failed <==> t.status != Completed && t.status != Cancelled
    ensures Cancel(t).received == t.received && Fail(t).received == t.received
  {
  }

  // ---------- Missing indexes ----------

  function MissingFrom(t: Transfer, i: int): seq<int>
    decreases ChunkTotal(t) - i
  {
    if i >= ChunkTotal(t) then []
    else (if i in t.received then [] else [i]) + MissingFrom(t, i + 1)
  }

  function Missing(t: Transfer): seq<int> {
    MissingFrom(t, 0)
  }

  lemma {:induction false} MissingMeans(t: Transfer, i: int)
    ensures forall j :: j in MissingFrom(t, i) <==> i <= j < ChunkTotal(t) && j !in t.received
    ensures forall j, k :: 0 <= j < k < |MissingFrom(t, i)| ==> MissingFrom(t, i)[j] < MissingFrom(t, i)[k]
    decreases ChunkTotal(t) - i
  {
    if i < ChunkTotal(t) {
      MissingMeans(t, i + 1);
      var rest := MissingFrom(t, i + 1);
      forall k | 0 <= k < |rest| ensures i < rest[k] { assert rest[k] in rest; }
    }
  }

  // ---------- The object ----------

  class AttachmentTransferState {
    var status: Status
    var logicalSize: int
    var chunkSize: int
    var attachmentId: string
    var uploadId: string
    var expiresAt: string
    var received: set<int>
    var failedAttempts: map<int, int>
    var pendingChunkCommands: map<string, int>

    function AsTransfer(): Transfer
      reads this
    {
      Transfer(status, logicalSize, chunkSize, attachmentId, uploadId, expiresAt,
               received, failedAttempts, pendingChunkCommands)
    }

    constructor ()
      ensures AsTransfer() == NEW_TRANSFER
    {
      status, logicalSize, chunkSize := Idle, 0, 0;
      attachmentId, uploadId, expiresAt := "", "", "";
      received, failedAttempts, pendingChunkCommands := {}, map[], map[];
    }

    method BeginTransfer(size: int, chunk: int) returns (ok: bool)
      modifies this
      ensures (AsTransfer(), ok) == Begin(old(AsTransfer()), size, chunk)
    {
      if size <= 0 || chunk <= 0 || status != Idle { return false; }
      logicalSize, chunkSize := size, chunk;
      attachmentId, uploadId, expiresAt := "", "", "";
      received, failedAttempts, pendingChunkCommands := {}, map[], map[];
      status := Initializing;
      return true;
    }

    method AcceptInitReply(attachment: string, upload: string, chunk: int, expires: string) returns (ok: bool)
      modifies this
      ensures (AsTransfer(), ok) == AcceptInit(old(AsTransfer()), attachment, upload, chunk, expires)
    {
      if status != Initializing || attachment == "" || upload == "" || expires == "" { return false; }
      if chunk != chunkSize { return false; }
      attachmentId, uploadId, expiresAt, status := attachment, upload, expires, Uploading;
      return true;
    }

    /** A reply with an index outside the file changes nothing. */
    method AcceptResumeReply(indexes: seq<int>) returns (ok: bool)
      modifies this
      ensures AsTransfer() == AcceptResume(old(AsTransfer()), indexes).0
      ensures ok == AcceptResume(old(AsTransfer()), indexes).1
    {
      if status != Uploading && status != Resuming { return false; }
      var validated: set<int> := {};
      for k := 0 to |indexes|
        invariant AsTransfer() == old(AsTransfer())
        invariant validated == Elements(indexes[..k])
        invariant forall i :: i in indexes[..k] ==> ValidIndex(AsTransfer(), i)
      {
        if !ValidIndex(AsTransfer(), indexes[k]) { return false; }
        assert indexes[..k + 1] == indexes[..k] + [indexes[k]];
        validated := validated + {indexes[k]};
      }
      assert indexes[..|indexes|] == indexes;
      received, failedAttempts, pendingChunkCommands := validated, map[], map[];
      status := if |received| == ChunkTotal(AsTransfer()) then Completed else Uploading;
      return true;
    }

    method AcceptAck(i: int) returns (ok: bool)
      modifies this
      ensures AsTransfer() == AckIndex(old(AsTransfer()), i).0
      ensures ok == AckIndex(old(AsTransfer()), i).1
    {
      if status != Uploading || !ValidIndex(AsTransfer(), i) { return false; }
      received := received + {i};
      failedAttempts := failedAttempts - {i};
      if |received| == ChunkTotal(AsTransfer()) { status := Completed; }
      return true;
    }

    method RegisterCommand(command: string, i: int) returns (ok: bool)
      modifies this
      ensures AsTransfer() == Register(old(AsTransfer()), command, i).0
      ensures ok == Register(old(AsTransfer()), command, i).1
    {
      if status != Uploading || command == "" || !ValidIndex(AsTransfer(), i) || i in received { return false; }
      if command in pendingChunkCommands { return false; }
      pendingChunkCommands := pendingChunkCommands[command := i];
      return true;
    }

    method AcceptCommandAck(command: string, i: int) returns (ok: bool)
      modifies this
      ensures AsTransfer() == AckCommand(old(AsTransfer()), command, i).0
      ensures ok == AckCommand(old(AsTransfer()), command, i).1
    {
      if command !in pendingChunkCommands || pendingChunkCommands[command] != i { return false; }
      pendingChunkCommands := pendingChunkCommands - {command};
      ok := AcceptAck(i);
    }

    method RecordChunkFailure(i: int) returns (ok: bool)
      modifies this
      ensures AsTransfer() == RecordFailure(old(AsTransfer()), i).0
      ensures ok == RecordFailure(old(AsTransfer()), i).1
    {
      if status != Uploading || !ValidIndex(AsTransfer(), i) || i in received { return false; }
      var attempts := (if i in failedAttempts then failedAttempts[i] else 0) + 1;
      failedAttempts := failedAttempts[i := attempts];
      if attempts > MAX_RETRIES { status := Failed; }
      return attempts <= MAX_RETRIES;
    }

    method CancelTransfer()
      modifies this
      ensures AsTransfer() == Cancel(old(AsTransfer()))
    {
      if status == Initializing || status == Uploading || status == Resuming { status := Cancelled; }
    }

    method FailTransfer()
      modifies this
      ensures AsTransfer() == Fail(old(AsTransfer()))
    {
      if status != Completed && status != Cancelled { status := Failed; }
    }

    /** missingIndexes: the chunks of the file that are not acknowledged, in order. */
    method MissingIndexes() returns (result: seq<int>)
      ensures result == Missing(AsTransfer())
      ensures forall i :: i in result <==> ValidIndex(AsTransfer(), i) && i !in received
      ensures forall j, k :: 0 <= j < k < |result| ==> result[j] < result[k]
    {
      var t := AsTransfer();
      result := [];
      var index := 0;
      while index < ChunkTotal(t)
        invariant result + MissingFrom(t, index) == Missing(t)
      {
        MissingStep(t, index, result);
        if index !in received { result := result + [index]; }
        index := index + 1;
      }
      assert result + [] == result;
      MissingMeans(t, 0);
    }
  }

  lemma MissingStep(t: Transfer, i: int, before: seq<int>)
    requires i < ChunkTotal(t)
    ensures before + MissingFrom(t, i) == (if i in t.received then before else before + [i]) + MissingFrom(t, i + 1)
  {
  }
}
