/** The two limiters of server-go/connection_limits.go, over real-valued time: messages are
    refused when the bucket is empty, file data is delayed instead. */
module RateLimits {

  const MESSAGES_PER_SECOND: real := 8.0
  const MESSAGE_BURST: real := 16.0
  const BYTES_PER_SECOND: real := 32.0 * 1024.0 * 1024.0
  const BYTE_BURST: real := 4.0 * 1024.0 * 1024.0
  const FRAME: real := 64.0 * 1024.0

  /** `level` is tokens or bytes; `started` is false while `last` is the zero time. */
  datatype Bucket = Bucket(level: real, last: real, started: bool)

  const NEW_BUCKET := Bucket(0.0, 0.0, false)

  function Refill(b: Bucket, now: real, rate: real, burst: real): Bucket {
    var b1 := if b.started then b else Bucket(burst, now, true);
    if now > b1.last then
      var level := b1.level + (now - b1.last) * rate;
      Bucket(if level > burst then burst else level, now, true)
    else b1
  }

  // ---------- Messages ----------

  function Allow(b: Bucket, now: real): (Bucket, bool) {
    var b1 := Refill(b, now, MESSAGES_PER_SECOND, MESSAGE_BURST);
    if b1.level < 1.0 then (b1, false) else (b1.(level := b1.level - 1.0), true)
  }

  ghost predicate Nondecreasing(times: seq<real>) {
    forall i, j :: 0 <= i <= j < |times| ==> times[i] <= times[j]
  }

  /** The limiter after the first `k` calls. */
  function After(times: seq<real>, k: nat): Bucket
    requires k <= |times|
  {
    if k == 0 then NEW_BUCKET else Allow(After(times, k - 1), times[k - 1]).0
  }

  predicate Allowed(times: seq<real>, k: nat)
    requires k < |times|
  {
    Allow(After(times, k), times[k]).1
  }

  /** How many of the calls i to k - 1 are allowed. */
  function Granted(times: seq<real>, i: nat, k: nat): int
    requires k <= |times|
  {
    if k <= i then 0 else Granted(times, i, k - 1) + if Allowed(times, k - 1) then 1 else 0
  }

  /** Tokens at hand when call `k` is decided. */
  function Level(times: seq<real>, k: nat): real
    requires k < |times|
  {
    Refill(After(times, k), times[k], MESSAGES_PER_SECOND, MESSAGE_BURST).level
  }

  lemma {:induction false} AfterMeans(times: seq<real>, k: nat)
    requires Nondecreasing(times) && k < |times|
    ensures 0.0 <= Level(times, k) <= MESSAGE_BURST
    ensures After(times, k + 1) == Bucket(Level(times, k) - (if Allowed(times, k) then 1.0 else 0.0), times[k], true)
    ensures Allowed(times, k) <==> Level(times, k) >= 1.0
  {
    if k > 0 { AfterMeans(times, k - 1); }
  }

  /** The level moves from call to call by what is refilled and what is granted. */
  lemma LevelStep(times: seq<real>, k: nat)
    requires Nondecreasing(times) && k + 1 < |times|
    ensures var free := Level(times, k) - (if Allowed(times, k) then 1.0 else 0.0)
                        + (times[k + 1] - times[k]) * MESSAGES_PER_SECOND;
      Level(times, k + 1) == if free > MESSAGE_BURST then MESSAGE_BURST else free
  {
    AfterMeans(times, k);
  }

  lemma {:induction false} LevelBound(times: seq<real>, i: nat, k: nat)
    requires Nondecreasing(times) && i <= k < |times|
    ensures Level(times, k) <=
            MESSAGE_BURST + MESSAGES_PER_SECOND * (times[k] - times[i]) - Granted(times, i, k) as real
  {
    AfterMeans(times, k);
    if i < k {
      LevelBound(times, i, k - 1);
      LevelStep(times, k - 1);
    }
  }

  /** In any window of a run, the allowed messages number at most 16 + 8 T. */
  lemma MessagesInWindow(times: seq<real>, i: nat, k: nat)
    requires Nondecreasing(times) && i <= k < |times|
    ensures Granted(times, i, k + 1) as real <= 16.0 + 8.0 * (times[k] - times[i])
  {
    LevelBound(times, i, k);
    AfterMeans(times, k);
  }

  lemma {:induction false} LevelExplained(times: seq<real>, k: nat) returns (i: nat)
    requires Nondecreasing(times) && k < |times|
    ensures i <= k
    ensures Level(times, k) ==
            MESSAGE_BURST + MESSAGES_PER_SECOND * (times[k] - times[i]) - Granted(times, i, k) as real
  {
    if k == 0 {
      i := 0;
    } else {
      i := LevelExplained(times, k - 1);
      LevelStep(times, k - 1);
      if Level(times, k) == MESSAGE_BURST { i := k; }
    }
  }

  /** The limiter refuses no more than it must: a message is refused exactly if, with it, some
      window ending now would hold more than 16 + 8 T allowed messages. */
  lemma RefusedExactly(times: seq<real>, k: nat)
    requires Nondecreasing(times) && k < |times|
    ensures !Allowed(times, k) <==>
      exists i :: 0 <= i <= k && Granted(times, i, k) as real + 1.0 > 16.0 + 8.0 * (times[k] - times[i])
  {
    AfterMeans(times, k);
    if !Allowed(times, k) {
      var i := LevelExplained(times, k);
      assert Granted(times, i, k) as real + 1.0 > 16.0 + 8.0 * (times[k] - times[i]);
    } else {
      forall i | 0 <= i <= k ensures Granted(times, i, k) as real + 1.0 <= 16.0 + 8.0 * (times[k] - times[i]) {
        LevelBound(times, i, k);
      }
    }
  }

  /** A call at least an eighth of a second after the one before it is always allowed, however
      the earlier calls were spaced; so is the first. */
  lemma SpacedCallIsAllowed(times: seq<real>, k: nat)
    requires Nondecreasing(times) && k < |times|
    requires k == 0 || times[k] - times[k - 1] >= 1.0 / 8.0
    ensures Allowed(times, k)
  {
    AfterMeans(times, k);
    if k > 0 {
      AfterMeans(times, k - 1);
      LevelStep(times, k - 1);
    }
  }

  // ---------- File data ----------

  function Charge(b: Bucket, now: real): (Bucket, real) {
    var b1 := Refill(b, now, BYTES_PER_SECOND, BYTE_BURST);
    var b2 := b1.(level := b1.level - FRAME);
    (b2, if b2.level >= 0.0 then 0.0 else -b2.level / BYTES_PER_SECOND)
  }

  function Charged(times: seq<real>, k: nat): Bucket
    requires k <= |times|
  {
    if k == 0 then NEW_BUCKET else Charge(Charged(times, k - 1), times[k - 1]).0
  }

  function Delay(times: seq<real>, k: nat): real
    requires k < |times|
  {
    Charge(Charged(times, k), times[k]).1
  }

  /** The reader sleeps the delay of every frame before it takes the next. */
  ghost predicate Sleeps(times: seq<real>) {
    forall k :: 0 <= k && k + 1 < |times| ==> times[k + 1] >= times[k] + Delay(times, k)
  }

  /** The budget never falls below one frame of debt, and no delay exceeds 1/512 s. */
  lemma {:induction false} DebtIsOneFrame(times: seq<real>, k: nat)
    requires Sleeps(times) && k < |times|
    ensures var b := Charged(times, k + 1);
      b.started && b.last == times[k] && -FRAME <= b.level <= BYTE_BURST - FRAME
    ensures 0.0 <= Delay(times, k) <= 1.0 / 512.0
  {
    if k > 0 {
      DebtIsOneFrame(times, k - 1);
      assert times[(k - 1) + 1] >= times[k - 1] + Delay(times, k - 1);
    }
  }

  lemma {:induction false} BudgetBound(times: seq<real>, i: nat, k: nat)
    requires Sleeps(times) && i <= k < |times|
    ensures Charged(times, k + 1).level
         <= BYTE_BURST + BYTES_PER_SECOND * (times[k] - times[i]) - (k + 1 - i) as real * FRAME
  {
    DebtIsOneFrame(times, k);
    if i < k {
      BudgetBound(times, i, k - 1);
      DebtIsOneFrame(times, k - 1);
      assert times[(k - 1) + 1] >= times[k - 1] + Delay(times, k - 1);
      assert (k + 1 - i) as real * FRAME == (k - i) as real * FRAME + FRAME;
    }
  }

  /** The frames of any window stay within the burst, the rate and one frame. */
  lemma FramesInWindow(times: seq<real>, i: nat, k: nat)
    requires Sleeps(times) && i <= k < |times|
    ensures (k + 1 - i) as real * FRAME <= BYTE_BURST + BYTES_PER_SECOND * (times[k] - times[i]) + FRAME
  {
    BudgetBound(times, i, k);
    DebtIsOneFrame(times, k);
  }

  /** The delay is exact: waiting is enough to be out of debt if and only if it is at least the
      delay, and a frame within the budget is not delayed at all. */
  lemma DelayExactly(times: seq<real>, k: nat, wait: real)
    requires Sleeps(times) && k < |times| && wait >= 0.0
    ensures var b := Charged(times, k + 1);
      && (Refill(b, times[k] + wait, BYTES_PER_SECOND, BYTE_BURST).level >= 0.0 <==> wait >= Delay(times, k))
      && (Delay(times, k) == 0.0 <==> b.level >= 0.0)
  {
    DebtIsOneFrame(times, k);
  }

  /** A fresh budget lets a burst of 64 frames pass at once; the next one waits 1/512 s. */
  lemma {:induction false} BurstPasses(now: real, n: nat)
    requires n <= 64
    ensures var times := seq(65, _ => now);
      && Charged(times, n) == (if n == 0 then NEW_BUCKET else Bucket(BYTE_BURST - n as real * FRAME, now, true))
      && Delay(times, n) == if n < 64 then 0.0 else 1.0 / 512.0
  {
    var times := seq(65, _ => now);
    assert times[n] == now;
    if n > 0 {
      BurstPasses(now, n - 1);
      assert times[n - 1] == now;
      assert n as real * FRAME == (n - 1) as real * FRAME + FRAME;
    }
  }

  // ---------- The objects ----------

  class InboundRateLimiter {
    var tokens: real
    var last: real
    var started: bool

    ghost function AsBucket(): Bucket
      reads this
    {
      Bucket(tokens, last, started)
    }

    constructor ()
      ensures AsBucket() == NEW_BUCKET
    {
      tokens, last, started := 0.0, 0.0, false;
    }

    method AllowMessage(now: real) returns (ok: bool)
      modifies this
      ensures AsBucket() == Allow(old(AsBucket()), now).0 && ok == Allow(old(AsBucket()), now).1
    {
      if !started { tokens, last, started := MESSAGE_BURST, now, true; }
      var elapsed := now - last;
      if elapsed > 0.0 {
        tokens := tokens + elapsed * MESSAGES_PER_SECOND;
        if tokens > MESSAGE_BURST { tokens := MESSAGE_BURST; }
        last := now;
      }
      if tokens < 1.0 { return false; }
      tokens := tokens - 1.0;
      return true;
    }
  }

  class AttachmentRateLimiter {
    var bytes: real
    var last: real
    var started: bool

    ghost function AsBucket(): Bucket
      reads this
    {
      Bucket(bytes, last, started)
    }

    constructor ()
      ensures AsBucket() == NEW_BUCKET
    {
      bytes, last, started := 0.0, 0.0, false;
    }

    method DelayFrame(now: real) returns (wait: real)
      modifies this
      ensures AsBucket() == Charge(old(AsBucket()), now).0 && wait == Charge(old(AsBucket()), now).1
    {
      if !started { bytes, last, started := BYTE_BURST, now, true; }
      var elapsed := now - last;
      if elapsed > 0.0 {
        bytes := bytes + elapsed * BYTES_PER_SECOND;
        if bytes > BYTE_BURST { bytes := BYTE_BURST; }
        last := now;
      }
      bytes := bytes - FRAME;
      if bytes >= 0.0 { return 0.0; }
      return -bytes / BYTES_PER_SECOND;
    }
  }
}
