/** How a file is divided into chunks: the arithmetic shared by the server's attachment store and
    the transfer state machine, uploader and download assembler of client-cpp/gui/src/attachments. */
module Chunks {

  type Byte = b: int | 0 <= b < 256
  type Bytes = seq<Byte>

  function Count(size: int, chunk: int): int
    requires chunk > 0
  {
    (size + chunk - 1) / chunk
  }

  function Min(a: int, b: int): int {
    if b < a then b else a
  }

  lemma OffsetInFile(size: int, chunk: int, i: int)
    requires size > 0 && chunk > 0
    ensures 0 < Count(size, chunk)
    ensures 0 <= i ==> (i < Count(size, chunk) <==> i * chunk < size)
    ensures 0 <= i ==> 0 <= i * chunk
    ensures i + 1 == Count(size, chunk) ==> Min(chunk, size - i * chunk) == size - i * chunk
    ensures i + 1 < Count(size, chunk) && 0 <= i ==> Min(chunk, size - i * chunk) == chunk
  {
    var q := Count(size, chunk);
    DivisionBounds(size + chunk - 1, chunk);
    assert q * chunk <= size + chunk - 1 < q * chunk + chunk;
    Monotone(1, q, chunk);
    Monotone(q, 0, chunk);
    Monotone(i + 1, q, chunk);
    Monotone(q, i, chunk);
    Monotone(i + 2, q, chunk);
    Monotone(0, i, chunk);
  }

  lemma DivisionBounds(n: int, d: int)
    requires d > 0
    ensures n / d * d <= n < n / d * d + d
  {
  }

  lemma Monotone(a: int, b: int, c: int)
    requires c > 0
    ensures a <= b ==> a * c <= b * c
    ensures (a + 1) * c == a * c + c
  {
    if a <= b { assert (b - a) * c >= 0; }
  }

  /** Chunk `i` of a file. */
  function Slice(plain: Bytes, chunk: int, i: int): Bytes
    requires 0 < chunk && 0 <= i && i * chunk <= |plain|
  {
    plain[i * chunk..i * chunk + Min(chunk, |plain| - i * chunk)]
  }

  function Zeros(n: int): Bytes
    requires n >= 0
  {
    seq(n, _ => 0)
  }

  function Elements(s: seq<int>): set<int> {
    set i | i in s
  }
}
