/** The resume answer on the wire: written by server-go/hub.go as a list or an LSB-first hex
    bitmap, read back by client-cpp/src/message.cpp. */
module ResumeCodec {
  import opened Wrappers
  import opened AttachmentTables
  import opened Chunks
  import opened Digits

  const MAX_CHUNKS: int := (MAX_LOGICAL + CHUNK - 1) / CHUNK
  const MAX_LISTED: int := 8192
  const MAX_BITMAP: int := (MAX_CHUNKS + 7) / 8 * 2
  const MAX_FRAME: int := 64 * 1024

  /** The two JSON members; None is an absent one. An empty member is left out when writing. */
  datatype Wire = Wire(indexes: Option<seq<int>>, bitmap: Option<string>)

  datatype Reason = Ambiguous | BadLength | NotHexadecimal | OutOfRangeChunk

  datatype Decoded = Received(indexes: seq<int>) | Rejected(reason: Reason)

  // ---------- Bits ----------

  /** Bit `k`, counted from the least significant. */
  predicate Bit(b: nat, k: nat) {
    if k == 0 then b % 2 == 1 else Bit(b / 2, k - 1)
  }

  /** `b | 1 << k`. */
  function OrBit(b: nat, k: nat): nat {
    if k == 0 then b / 2 * 2 + 1 else OrBit(b / 2, k - 1) * 2 + b % 2
  }

  lemma {:induction false} OrBitMeans(b: nat, k: nat, j: nat)
    ensures Bit(OrBit(b, k), j) <==> j == k || Bit(b, j)
  {
    if k > 0 && j > 0 { OrBitMeans(b / 2, k - 1, j - 1); }
  }

  lemma {:induction false} ZeroHasNoBits(k: nat)
    ensures !Bit(0, k)
  {
    if k > 0 { ZeroHasNoBits(k - 1); }
  }

  function Pow2(n: nat): nat {
    if n == 0 then 1 else 2 * Pow2(n - 1)
  }

  lemma {:induction false} OrBitBound(b: nat, k: nat, n: nat)
    requires k < n && b < Pow2(n)
    ensures OrBit(b, k) < Pow2(n)
  {
    var half := Pow2(n - 1);
    assert Pow2(n) == 2 * half && b / 2 < half;
    if k > 0 { OrBitBound(b / 2, k - 1, n - 1); }
  }

  /** The same within a byte. */
  function Mark(b: Byte, k: nat): Byte
    requires k < 8
  {
    OrBitBound(b, k, 8);
    assert Pow2(8) == 256;
    OrBit(b, k)
  }

  // ---------- Writing ----------

  /** hex.EncodeToString. */
  function Hex(b: Bytes): string
    decreases |b|
  {
    if b == [] then "" else [HexDigit(b[0] / 16), HexDigit(b[0] % 16)] + Hex(b[1..])
  }

  ghost predicate NonNegative(indexes: seq<int>) {
    forall k :: 0 <= k < |indexes| ==> 0 <= indexes[k]
  }

  function Highest(indexes: seq<int>, highest: int): int
    decreases |indexes|
  {
    if indexes == [] then highest
    else Highest(indexes[1..], if indexes[0] > highest then indexes[0] else highest)
  }

  lemma {:induction false} HighestMeans(indexes: seq<int>, highest: int)
    ensures highest <= Highest(indexes, highest)
    ensures forall k :: 0 <= k < |indexes| ==> indexes[k] <= Highest(indexes, highest)
    ensures Highest(indexes, highest) == highest || Highest(indexes, highest) in indexes
    decreases |indexes|
  {
    if indexes != [] {
      HighestMeans(indexes[1..], if indexes[0] > highest then indexes[0] else highest);
      forall k | 0 <= k < |indexes| ensures indexes[k] <= Highest(indexes, highest) {
        if k > 0 { assert indexes[k] == indexes[1..][k - 1]; }
      }
    }
  }

  ghost predicate Fits(indexes: seq<int>, bitmap: Bytes) {
    forall k :: 0 <= k < |indexes| ==> 0 <= indexes[k] < 8 * |bitmap|
  }

  /** Setting the bit of every index. */
  ghost function Fill(bitmap: Bytes, indexes: seq<int>): Bytes
    requires Fits(indexes, bitmap)
    decreases |indexes|
  {
    if indexes == [] then bitmap
    else
      var i := indexes[0];
      Fill(bitmap[i / 8 := Mark(bitmap[i / 8], i % 8)], indexes[1..])
  }

  predicate BitAt(bitmap: Bytes, p: int)
    requires 0 <= p < 8 * |bitmap|
  {
    Bit(bitmap[p / 8], p % 8)
  }

  lemma SetBitMeans(bitmap: Bytes, i: int, p: int)
    requires 0 <= i < 8 * |bitmap| && 0 <= p < 8 * |bitmap|
    ensures BitAt(bitmap[i / 8 := Mark(bitmap[i / 8], i % 8)], p) <==> p == i || BitAt(bitmap, p)
  {
    OrBitMeans(bitmap[i / 8], i % 8, p % 8);
  }

  lemma {:induction false} FillMeans(bitmap: Bytes, indexes: seq<int>, p: int)
    requires Fits(indexes, bitmap) && 0 <= p < 8 * |bitmap|
    ensures |Fill(bitmap, indexes)| == |bitmap|
    ensures BitAt(Fill(bitmap, indexes), p) <==> p in indexes || BitAt(bitmap, p)
    decreases |indexes|
  {
    if indexes != [] {
      var i := indexes[0];
      SetBitMeans(bitmap, i, p);
      FillMeans(bitmap[i / 8 := Mark(bitmap[i / 8], i % 8)], indexes[1..], p);
    }
  }

  lemma HighestFits(indexes: seq<int>)
    requires NonNegative(indexes)
    ensures Highest(indexes, 0) >= 0 && Fits(indexes, Zeros(Highest(indexes, 0) / 8 + 1))
  {
    HighestMeans(indexes, 0);
  }

  ghost function Bitmap(indexes: seq<int>): Bytes
    requires NonNegative(indexes)
  {
    HighestFits(indexes);
    Fill(Zeros(Highest(indexes, 0) / 8 + 1), indexes)
  }

  /** attachmentResumeMessage. */
  ghost function Encode(indexes: seq<int>): Wire
    requires NonNegative(indexes)
  {
    if |indexes| <= MAX_LISTED then Wire(if indexes == [] then None else Some(indexes), None)
    else Wire(None, Some(Hex(Bitmap(indexes))))
  }

  // ---------- Reading ----------

  /** The inner loop over the bits of one byte. */
  ghost function DecodeBits(bits: Byte, base: int, bit: int, acc: seq<int>): Decoded
    requires 0 <= bit <= 8
    decreases 8 - bit, bits
  {
    if bit == 8 then Received(acc)
    else if !Bit(bits, bit) then DecodeBits(bits, base, bit + 1, acc)
    else if base + bit >= MAX_CHUNKS then Rejected(OutOfRangeChunk)
    else DecodeBits(bits, base, bit + 1, acc + [base + bit])
  }

  /** A pair of digits: the byte they stand for, or -1. */
  type PairValue = v: int | -1 <= v < 256

  /** The digits 2 j and 2 j + 1. */
  function Pair(bitmap: string, j: int): PairValue
    requires 0 <= j && 2 * j + 1 < |bitmap|
  {
    var high, low := HexValue(bitmap[2 * j]), HexValue(bitmap[2 * j + 1]);
    if high < 0 || low < 0 then -1 else high * 16 + low
  }

  function Pairs(bitmap: string): (ps: seq<PairValue>)
    ensures |ps| == |bitmap| / 2 && forall j :: 0 <= j < |ps| ==> ps[j] == Pair(bitmap, j)
  {
    seq(|bitmap| / 2, j requires 0 <= j < |bitmap| / 2 => Pair(bitmap, j))
  }

  /** The outer loop, from the j-th pair on. */
  ghost function DecodePairs(ps: seq<PairValue>, j: int, acc: seq<int>): Decoded
    requires 0 <= j
    decreases |ps| - j
  {
    if j >= |ps| then Received(acc)
    else if ps[j] < 0 then Rejected(NotHexadecimal)
    else
      match DecodeBits(ps[j], 8 * j, 0, acc)
      case Rejected(reason) => Rejected(reason)
      case Received(acc') => DecodePairs(ps, j + 1, acc')
  }

  ghost function Decode(w: Wire): Decoded {
    if w.bitmap.Some? then
      if w.indexes.Some? then Rejected(Ambiguous)
      else if |w.bitmap.value| % 2 != 0 || |w.bitmap.value| > MAX_BITMAP then Rejected(BadLength)
      else DecodePairs(Pairs(w.bitmap.value), 0, [])
    else if w.indexes.Some? then Received(w.indexes.value)
    else Received([])
  }

  // ---------- What the reader accepts, and what it then returns ----------

  ghost predicate AllHex(ps: seq<PairValue>) {
    forall j :: 0 <= j < |ps| ==> ps[j] >= 0
  }

  /** Position `p` is marked. */
  ghost predicate Marked(ps: seq<PairValue>, p: int) {
    0 <= p < 8 * |ps| && ps[p / 8] >= 0 && Bit(ps[p / 8], p % 8)
  }

  ghost function MarkedSet(ps: seq<PairValue>): (s: set<int>)
    ensures forall p :: p in s <==> Marked(ps, p)
  {
    set p | 0 <= p < 8 * |ps| && Marked(ps, p)
  }

  ghost predicate BitsInRange(bits: Byte, base: int, bit: int)
    requires 0 <= bit
  {
    forall k :: bit <= k < 8 && Bit(bits, k) ==> base + k < MAX_CHUNKS
  }

  lemma {:induction false} BitsMean(bits: Byte, base: int, bit: int, s: set<int>)
    requires 0 <= bit <= 8 && 0 <= base
    requires forall k :: 0 <= k < 8 ==> (Bit(bits, k) <==> base + k in s)
    ensures var r := DecodeBits(bits, base, bit, Ascending(s, 0, base + bit));
      if BitsInRange(bits, base, bit) then r == Received(Ascending(s, 0, base + 8)) else r == Rejected(OutOfRangeChunk)
    decreases 8 - bit
  {
    if bit < 8 {
      AscendingStep(s, 0, base + bit);
      assert Bit(bits, bit) <==> base + bit in s;
      BitsMean(bits, base, bit + 1, s);
      assert BitsInRange(bits, base, bit) <==>
        BitsInRange(bits, base, bit + 1) && (Bit(bits, bit) ==> base + bit < MAX_CHUNKS);
    }
  }

  ghost predicate GoodFrom(ps: seq<PairValue>, j: int) {
    && (forall k :: j <= k < |ps| && 0 <= k ==> ps[k] >= 0)
    && (forall p :: 8 * j <= p && Marked(ps, p) ==> p < MAX_CHUNKS)
  }

  lemma MarkedInPair(ps: seq<PairValue>, j: int, k: int)
    requires 0 <= j < |ps| && ps[j] >= 0 && 0 <= k < 8
    ensures Marked(ps, 8 * j + k) <==> Bit(ps[j], k)
  {
    assert (8 * j + k) / 8 == j && (8 * j + k) % 8 == k;
  }

  lemma GoodStep(ps: seq<PairValue>, j: int)
    requires 0 <= j < |ps| && ps[j] >= 0
    ensures GoodFrom(ps, j) <==> GoodFrom(ps, j + 1) && BitsInRange(ps[j], 8 * j, 0)
  {
    forall k | 0 <= k < 8 ensures Marked(ps, 8 * j + k) <==> Bit(ps[j], k) { MarkedInPair(ps, j, k); }
    if GoodFrom(ps, j + 1) && BitsInRange(ps[j], 8 * j, 0) {
      forall p | 8 * j <= p && Marked(ps, p) ensures p < MAX_CHUNKS {
        if p < 8 * (j + 1) { assert Bit(ps[j], p - 8 * j); }
      }
    }
  }

  /** One pair: it is either rejected, or the decoder goes on behind it. */
  lemma PairStep(ps: seq<PairValue>, j: int)
    requires 0 <= j < |ps| && ps[j] >= 0
    ensures var s := MarkedSet(ps); var r := DecodePairs(ps, j, Ascending(s, 0, 8 * j));
      if BitsInRange(ps[j], 8 * j, 0) then r == DecodePairs(ps, j + 1, Ascending(s, 0, 8 * (j + 1))) else r.Rejected?
  {
    var s := MarkedSet(ps);
    forall k | 0 <= k < 8 ensures Bit(ps[j], k) <==> 8 * j + k in s { MarkedInPair(ps, j, k); }
    var base := 8 * j;
    BitsMean(ps[j], base, 0, s);
    PairUnfolds(ps, j, Ascending(s, 0, base), DecodeBits(ps[j], base, 0, Ascending(s, 0, base)));
  }

  /** One turn of the outer loop in terms of the inner one. */
  lemma PairUnfolds(ps: seq<PairValue>, j: int, acc: seq<int>, inner: Decoded)
    requires 0 <= j < |ps| && ps[j] >= 0 && inner == DecodeBits(ps[j], 8 * j, 0, acc)
    ensures DecodePairs(ps, j, acc) == if inner.Rejected? then inner else DecodePairs(ps, j + 1, inner.indexes)
  {
  }

  ghost predicate PairsOk(ps: seq<PairValue>, j: int)
    requires 0 <= j
  {
    var r := DecodePairs(ps, j, Ascending(MarkedSet(ps), 0, 8 * j));
    if GoodFrom(ps, j) then r == Received(Ascending(MarkedSet(ps), 0, 8 * |ps|)) else r.Rejected?
  }

  lemma PairsBack(ps: seq<PairValue>, j: int)
    requires 0 <= j < |ps| && PairsOk(ps, j + 1)
    ensures PairsOk(ps, j)
  {
    if ps[j] < 0 {
      assert !GoodFrom(ps, j);
      assert DecodePairs(ps, j, Ascending(MarkedSet(ps), 0, 8 * j)) == Rejected(NotHexadecimal);
    } else {
      PairStep(ps, j);
      GoodStep(ps, j);
    }
  }

  lemma {:induction false} PairsMean(ps: seq<PairValue>, j: int)
    requires 0 <= j <= |ps|
    ensures PairsOk(ps, j)
    decreases |ps| - j
  {
    if j < |ps| {
      PairsMean(ps, j + 1);
      PairsBack(ps, j);
    }
  }

  /** A bitmap is accepted exactly if it has an even, bounded length, is hexadecimal and marks
      no chunk beyond the largest file; the answer is then the ascending list of its marks. */
  lemma DecodeExactly(bitmap: string)
    ensures var r := Decode(Wire(None, Some(bitmap)));
      && (r.Received? <==>
           && |bitmap| % 2 == 0 && |bitmap| <= MAX_BITMAP && AllHex(Pairs(bitmap))
           && forall p :: Marked(Pairs(bitmap), p) ==> p < MAX_CHUNKS)
      && (r.Received? ==> StrictlyAscending(r.indexes) && forall p :: p in r.indexes <==> Marked(Pairs(bitmap), p))
  {
    var ps := Pairs(bitmap);
    PairsMean(ps, 0);
    AscendingMeans(MarkedSet(ps), 0, 8 * |ps|);
    assert GoodFrom(ps, 0) <==> AllHex(ps) && forall p :: Marked(ps, p) ==> p < MAX_CHUNKS;
  }

  /** An ascending list is determined by its members. */
  lemma {:induction false} SameMembersSameList(s: seq<int>, t: seq<int>)
    requires StrictlyAscending(s) && StrictlyAscending(t)
    requires forall i :: i in s <==> i in t
    ensures s == t
    decreases |s|
  {
    assert s != [] ==> s[0] in s && s[0] in t;
    assert t != [] ==> t[0] in t && t[0] in s;
    if s != [] {
      assert s[0] == t[0];
      forall i ensures i in s[1..] <==> i in t[1..] {
        assert i in s[1..] <==> i in s && i != s[0];
        assert i in t[1..] <==> i in t && i != t[0];
      }
      SameMembersSameList(s[1..], t[1..]);
    }
  }

  // ---------- Round trip ----------

  /** Each byte is read back from its two digits. */
  lemma {:induction false} HexLayout(b: Bytes, k: int)
    requires 0 <= k < |b|
    ensures |Hex(b)| == 2 * |b| && Pair(Hex(b), k) == b[k]
    decreases |b|
  {
    DigitValue(b[0] / 16);
    DigitValue(b[0] % 16);
    var rest := b[1..];
    if rest != [] {
      HexLayout(rest, if k > 0 then k - 1 else 0);
      if k > 0 {
        assert Hex(b)[2 * k] == Hex(rest)[2 * (k - 1)] && Hex(b)[2 * k + 1] == Hex(rest)[2 * (k - 1) + 1];
      }
    }
  }

  lemma HexPairs(b: Bytes)
    requires b != []
    ensures |Hex(b)| == 2 * |b| && |Pairs(Hex(b))| == |b|
    ensures forall k :: 0 <= k < |b| ==> Pairs(Hex(b))[k] == b[k]
  {
    HexLayout(b, 0);
    forall k | 0 <= k < |b| ensures Pair(Hex(b), k) == b[k] { HexLayout(b, k); }
  }

  lemma BitmapMarks(indexes: seq<int>)
    requires NonNegative(indexes) && indexes != []
    ensures forall p :: p in indexes <==> 0 <= p < 8 * |Bitmap(indexes)| && BitAt(Bitmap(indexes), p)
    ensures |Bitmap(indexes)| == Highest(indexes, 0) / 8 + 1
  {
    HighestFits(indexes);
    var zeros := Zeros(Highest(indexes, 0) / 8 + 1);
    FillMeans(zeros, indexes, 0);
    forall p ensures p in indexes <==> 0 <= p < 8 * |Bitmap(indexes)| && BitAt(Bitmap(indexes), p) {
      if 0 <= p < 8 * |zeros| {
        FillMeans(zeros, indexes, p);
        ZeroHasNoBits(p % 8);
      }
    }
  }

  ghost predicate ChunkIndexes(indexes: seq<int>) {
    forall k :: 0 <= k < |indexes| ==> 0 <= indexes[k] < MAX_CHUNKS
  }

  /** The written bitmap marks exactly the indexes and keeps to the reader's length limit. */
  lemma WrittenText(indexes: seq<int>)
    requires ChunkIndexes(indexes) && indexes != []
    ensures var text := Hex(Bitmap(indexes));
      && |text| % 2 == 0 && |text| <= MAX_BITMAP == 27888 && AllHex(Pairs(text))
      && forall p :: Marked(Pairs(text), p) <==> p in indexes
  {
    var b := Bitmap(indexes);
    BitmapMarks(indexes);
    BitmapLength(indexes);
    HexPairs(b);
    var ps := Pairs(Hex(b));
    forall p ensures Marked(ps, p) <==> p in indexes {
      assert p in indexes <==> 0 <= p < 8 * |b| && BitAt(b, p);
    }
  }

  lemma BitmapLength(indexes: seq<int>)
    requires ChunkIndexes(indexes) && indexes != []
    ensures 0 <= Highest(indexes, 0) && 2 * (Highest(indexes, 0) / 8 + 1) <= MAX_BITMAP == 27888
  {
    HighestMeans(indexes, 0);
    assert MAX_CHUNKS == 111551;
  }

  /** For every ascending list of chunk indexes of a permitted file, reading what was written
      gives the list back, in both forms. */
  lemma RoundTrip(indexes: seq<int>)
    requires StrictlyAscending(indexes) && ChunkIndexes(indexes)
    ensures Decode(Encode(indexes)) == Received(indexes)
  {
    if |indexes| > MAX_LISTED {
      WrittenText(indexes);
      DecodeExactly(Hex(Bitmap(indexes)));
      SameMembersSameList(Decode(Encode(indexes)).indexes, indexes);
    }
  }

  // ---------- The frame ----------

  ghost function Joined(indexes: seq<int>): string
    requires NonNegative(indexes)
    decreases |indexes|
  {
    if indexes == [] then ""
    else if |indexes| == 1 then Decimal(indexes[0])
    else Decimal(indexes[0]) + "," + Joined(indexes[1..])
  }

  lemma {:induction false} JoinedLength(indexes: seq<int>)
    requires ChunkIndexes(indexes)
    ensures |Joined(indexes)| <= 7 * |indexes|
    decreases |indexes|
  {
    if indexes != [] {
      assert Pow10(6) == 1000000;
      DecimalLength(indexes[0], 6);
      JoinedLength(indexes[1..]);
    }
  }

  /** The JSON payload; ids are given as they stand between the quotes. */
  ghost function Payload(uploadId: string, commandId: string, w: Wire): string
    requires w.indexes.Some? ==> NonNegative(w.indexes.value)
  {
    "{\"type\":\"attachment.resume\""
    + (if commandId == "" then "" else ",\"command_id\":\"" + commandId + "\"")
    + (if uploadId == "" then "" else ",\"upload_id\":\"" + uploadId + "\"")
    + (if w.indexes.None? then "" else ",\"received_indexes\":[" + Joined(w.indexes.value) + "]")
    + (if w.bitmap.None? then "" else ",\"received_bitmap\":\"" + w.bitmap.value + "\"")
    + "}"
  }

  lemma PayloadLength(uploadId: string, commandId: string, w: Wire)
    requires w.indexes.Some? ==> NonNegative(w.indexes.value)
    requires w.indexes.None? || w.bitmap.None?
    ensures |Payload(uploadId, commandId, w)| <= 90 + |uploadId| + |commandId|
              + (if w.indexes.Some? then |Joined(w.indexes.value)| else 0)
              + (if w.bitmap.Some? then |w.bitmap.value| else 0)
  {
    assert |"{\"type\":\"attachment.resume\""| == 27;
    assert |",\"command_id\":\""| == 15 && |",\"upload_id\":\""| == 14;
    assert |",\"received_indexes\":["| == 21 && |",\"received_bitmap\":\""| == 20;
  }

  /** Both forms fit the 64 KiB frame: the upload id is a UUID, the command id has at most 64
      bytes and each can take six when escaped. */
  lemma FitsFrame(uploadId: string, commandId: string, indexes: seq<int>)
    requires |uploadId| == 36 && |commandId| <= 6 * 64
    requires StrictlyAscending(indexes) && ChunkIndexes(indexes)
    ensures |Payload(uploadId, commandId, Encode(indexes))| <= MAX_FRAME
    ensures |indexes| > MAX_LISTED ==> |Payload(uploadId, commandId, Encode(indexes))| < 28 * 1024
  {
    if |indexes| > MAX_LISTED {
      WrittenText(indexes);
    } else {
      JoinedLength(indexes);
    }
    PayloadLength(uploadId, commandId, Encode(indexes));
  }

  // ---------- The loops ----------

  /** attachmentResumeMessage with its byte buffer. */
  method AttachmentResumeMessage(indexes: seq<int>) returns (w: Wire)
    requires NonNegative(indexes)
    ensures w == Encode(indexes)
  {
    if |indexes| <= MAX_LISTED {
      return Wire(if indexes == [] then None else Some(indexes), None);
    }
    var highest := 0;
    for k := 0 to |indexes|
      invariant Highest(indexes[k..], highest) == Highest(indexes, 0)
      invariant highest >= 0
    {
      assert indexes[k..][0] == indexes[k] && indexes[k..][1..] == indexes[k + 1..];
      if indexes[k] > highest { highest := indexes[k]; }
    }
    HighestFits(indexes);
    ghost var zeros := Zeros(highest / 8 + 1);
    var bitmap := new Byte[highest / 8 + 1](_ => 0);
    assert bitmap[..] == zeros;
    for k := 0 to |indexes|
      invariant Fits(indexes[k..], bitmap[..])
      invariant Fill(bitmap[..], indexes[k..]) == Fill(zeros, indexes)
    {
      var i := indexes[k];
      assert indexes[k..][0] == i && indexes[k..][1..] == indexes[k + 1..];
      ghost var before := bitmap[..];
      bitmap[i / 8] := Mark(bitmap[i / 8], i % 8);
      assert bitmap[..] == before[i / 8 := Mark(before[i / 8], i % 8)];
    }
    return Wire(None, Some(Hex(bitmap[..])));
  }

  /** The decoder's inner loop. */
  method ReceiveBits(bits: Byte, base: int, before: seq<int>) returns (r: Decoded)
    ensures r == DecodeBits(bits, base, 0, before)
  {
    var received := before;
    for bit := 0 to 8
      invariant DecodeBits(bits, base, bit, received) == DecodeBits(bits, base, 0, before)
    {
      if Bit(bits, bit) {
        var index := base + bit;
        if index >= MAX_CHUNKS { return Rejected(OutOfRangeChunk); }
        received := received + [index];
      }
    }
    return Received(received);
  }

  /** The decoder: its outer loop goes over the pairs of digits. */
  method ReceiveIndexes(w: Wire) returns (r: Decoded)
    ensures r == Decode(w)
  {
    var received: seq<int> := [];
    if w.bitmap.Some? {
      if w.indexes.Some? { return Rejected(Ambiguous); }
      var bitmap := w.bitmap.value;
      if |bitmap| % 2 != 0 || |bitmap| > MAX_BITMAP { return Rejected(BadLength); }
      ghost var ps, j := Pairs(bitmap), 0;
      var offset := 0;
      while offset < |bitmap|
        invariant 0 <= offset == 2 * j <= |bitmap|
        invariant DecodePairs(ps, j, received) == Decode(w)
      {
        var high, low := HexValue(bitmap[offset]), HexValue(bitmap[offset + 1]);
        assert ps[j] == if high < 0 || low < 0 then -1 else high * 16 + low;
        if high < 0 || low < 0 { return Rejected(NotHexadecimal); }
        var bits := high * 16 + low;
        assert bits == ps[j] && offset / 2 * 8 == 8 * j;
        var decoded := ReceiveBits(bits, offset / 2 * 8, received);
        if decoded.Rejected? { return decoded; }
        received := decoded.indexes;
        offset, j := offset + 2, j + 1;
      }
      return Received(received);
    }
    if w.indexes.Some? { received := received + w.indexes.value; }
    return Received(received);
  }
}
