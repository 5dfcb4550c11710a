/** The range arithmetic shared by client and server.  The server computes in uint64, the client
    in int64, and both cut a file of `size` bytes into ranges of `chunk` bytes.  Go's wrap-around
    and its truncating division are written out. */
module Chunking {

  newtype Byte = x: int | 0 <= x < 256
  type Bytes = seq<Byte>

  const TWO_63: int := 0x8000_0000_0000_0000
  const TWO_64: int := 0x1_0000_0000_0000_0000

  // ---------- machine integers ----------

  /** Conversion to uint64. */
  function U64(x: int): int { x % TWO_64 }

  /** Conversion to int64. */
  function I64(x: int): int {
    var r := x % TWO_64;
    if r < TWO_63 then r else r - TWO_64
  }

  /** Go's integer division, which truncates toward zero. */
  function GoDiv(a: int, b: int): int
    requires b != 0
  {
    var q := (if a < 0 then -a else a) / (if b < 0 then -b else b);
    if (a < 0) == (b < 0) then q else -q
  }

  /** The number of chunks as the server computes it, both when it opens a session and when it
      receives a part. */
  function ServerTotal(size: nat, chunk: nat): nat
    requires size == 0 || chunk > 0
  {
    if size > 0 then U64(size + chunk - 1) / chunk else 0
  }

  /** The number of segments as the client's two transfer loops compute it. */
  function ClientSegments(size: int, chunk: int): int
    requires chunk != 0
  {
    GoDiv(I64(size + chunk - 1), chunk)
  }

  /** A segment as the client's loops compute it. */
  datatype Range = Range(offset: int, limit: int)

  function ClientRange(size: int, chunk: int, i: int): Range {
    var offset := I64(i * chunk);
    if I64(offset + chunk) > size then Range(offset, I64(size - offset)) else Range(offset, chunk)
  }

  // ---------- reference definitions ----------

  /** `n` ranges of `chunk` bytes are just enough for `size` bytes. */
  predicate JustCovers(size: nat, chunk: nat, n: int) {
    (n - 1) * chunk < size <= n * chunk
  }

  /** Where range `i` starts, and range `i - 1` ends, in a file of `size` bytes. */
  function Cut(size: nat, chunk: nat, i: nat): nat {
    var p := i * chunk;
    if p < size then p else size
  }

  lemma CutMonotone(size: nat, chunk: nat, i: nat, j: nat)
    requires i <= j
    ensures Cut(size, chunk, i) <= Cut(size, chunk, j) <= size
  {
    assert j * chunk == i * chunk + (j - i) * chunk;
  }

  /** The bytes of range `i`. */
  function Slice(file: Bytes, chunk: nat, i: nat): Bytes {
    CutMonotone(|file|, chunk, i, i + 1);
    file[Cut(|file|, chunk, i)..Cut(|file|, chunk, i + 1)]
  }

  /** The first `n` slices, end to end. */
  function Joined(file: Bytes, chunk: nat, n: nat): Bytes {
    if n == 0 then [] else Joined(file, chunk, n - 1) + Slice(file, chunk, n - 1)
  }

  // ---------- lemmas ----------

  lemma MulMonotone(a: int, b: int, c: nat)
    requires a <= b
    ensures a * c <= b * c
  {
  }

  lemma MulCancel(a: int, b: int, c: nat)
    requires a * c < b * c
    ensures a < b
  {
    if b <= a { MulMonotone(b, a, c); }
  }

  lemma QuotientIs(x: int, d: int, q: int)
    requires d > 0 && q * d <= x < (q + 1) * d
    ensures x / d == q
  {
    var e := x / d;
    assert x == e * d + x % d && 0 <= x % d < d;
    assert (e + 1) * d == e * d + d;
    MulCancel(q, e + 1, d);
    MulCancel(e, q + 1, d);
  }

  lemma CeilingCovers(size: nat, chunk: nat)
    requires chunk > 0
    ensures JustCovers(size, chunk, (size + chunk - 1) / chunk)
  {
    var x := size + chunk - 1;
    var n := x / chunk;
    assert x == n * chunk + x % chunk && 0 <= x % chunk < chunk;
    assert (n - 1) * chunk == n * chunk - chunk;
  }

  /** At most one count of ranges is just enough. */
  lemma JustCoversUnique(size: nat, chunk: nat, m: int, n: int)
    requires chunk > 0 && JustCovers(size, chunk, m) && JustCovers(size, chunk, n)
    ensures m == n
  {
    MulCancel(m - 1, n, chunk);
    MulCancel(n - 1, m, chunk);
  }

  /** The server's uint64 formula is the one count that just covers, unless the addition wraps.  When it
      wraps the count is zero, so the session accepts no part at all. */
  lemma ServerTotalExact(size: nat, chunk: nat)
    requires 0 < size < TWO_64 && 0 < chunk < TWO_64
    ensures JustCovers(size, chunk, ServerTotal(size, chunk)) <==> size + chunk - 1 < TWO_64
    ensures size + chunk - 1 < TWO_64 ==> forall n: int :: JustCovers(size, chunk, n) ==> n == ServerTotal(size, chunk)
    ensures size + chunk - 1 >= TWO_64 ==> ServerTotal(size, chunk) == 0
  {
    var x := size + chunk - 1;
    if x < TWO_64 {
      assert U64(x) == x;
      CeilingCovers(size, chunk);
      forall n: int | JustCovers(size, chunk, n) ensures n == x / chunk { JustCoversUnique(size, chunk, n, x / chunk); }
    } else {
      assert U64(x) == x - TWO_64;
      QuotientIs(x - TWO_64, chunk, 0);
    }
  }

  /** A positive server count is always the exact one. */
  lemma PositiveTotalCovers(size: nat, chunk: nat)
    requires size < TWO_64 && 0 < chunk < TWO_64 && ServerTotal(size, chunk) > 0
    ensures size > 0 && JustCovers(size, chunk, ServerTotal(size, chunk))
  {
    ServerTotalExact(size, chunk);
  }

  lemma SmallIsItself(x: nat)
    requires x < TWO_63
    ensures I64(x) == U64(x) == x
  {
  }

  lemma LargeIsNegative(x: nat)
    requires TWO_63 <= x < TWO_64
    ensures I64(x) == x - TWO_64 < 0
  {
  }

  lemma NegativeQuotient(a: int, b: nat)
    requires a < 0 < b
    ensures GoDiv(a, b) <= 0
  {
  }

  /** Client and server agree on the number of chunks exactly when the client's int64 addition
      does not wrap; when it wraps the client counts no segment. */
  lemma ClientServerAgree(size: nat, chunk: nat)
    requires 0 < size < TWO_63 && 0 < chunk < TWO_63
    ensures ClientSegments(size, chunk) == ServerTotal(size, chunk) <==> size + chunk - 1 < TWO_63
    ensures size + chunk - 1 >= TWO_63 ==> ClientSegments(size, chunk) == -((TWO_64 - (size + chunk - 1)) / chunk) <= 0
    ensures ServerTotal(size, chunk) > 0
    ensures JustCovers(size, chunk, ServerTotal(size, chunk))
  {
    ServerTotalExact(size, chunk);
    var n := ServerTotal(size, chunk);
    assert n > 0 by { MulCancel(0, n, chunk); }
    var x := size + chunk - 1;
    if x < TWO_63 {
      SmallIsItself(x);
    } else {
      LargeIsNegative(x);
      NegativeQuotient(I64(x), chunk);
    }
  }

  /** Under the bound no product, sum or difference of the client's loops leaves int64, every
      range is non-empty, and range `i` is exactly the bytes of slice `i`. */
  lemma ClientRangeExact(size: nat, chunk: nat, i: nat)
    requires 0 < size && 0 < chunk && size + chunk - 1 < TWO_63
    requires i < ClientSegments(size, chunk)
    ensures 0 <= i * chunk < size && i * chunk + chunk < TWO_63
    ensures ClientRange(size, chunk, i).offset == i * chunk == Cut(size, chunk, i)
    ensures ClientRange(size, chunk, i).limit == Cut(size, chunk, i + 1) - Cut(size, chunk, i)
    ensures 0 < ClientRange(size, chunk, i).limit <= chunk
  {
    RangeStartsInside(size, chunk, i);
    SmallIsItself(i * chunk);
    SmallIsItself(i * chunk + chunk);
    SmallIsItself(size - i * chunk);
  }

  lemma RangeStartsInside(size: nat, chunk: nat, i: nat)
    requires 0 < size && 0 < chunk && size + chunk - 1 < TWO_63
    requires i < ClientSegments(size, chunk)
    ensures 0 <= i * chunk < size && (i + 1) * chunk == i * chunk + chunk
  {
    ClientServerAgree(size, chunk);
    MulMonotone(i, ServerTotal(size, chunk) - 1, chunk);
  }

  /** The ranges cover the whole file and nothing else: the last cut is the end of the file. */
  lemma LastCut(size: nat, chunk: nat, n: nat)
    requires JustCovers(size, chunk, n)
    ensures Cut(size, chunk, n) == size
  {
  }

  /** What the transfer loops are given: something to transfer and a positive chunk size, both int64. */
  predicate Transferable(file: Bytes, chunk: nat) {
    0 < |file| < TWO_63 && 0 < chunk < TWO_63
  }

  /** Moreover no sum of the loops leaves int64. */
  predicate Sized(file: Bytes, chunk: nat) {
    0 < |file| && 0 < chunk && |file| + chunk - 1 < TWO_63
  }

  /** How many ranges the transfer loops visit: the number that client and server agree on, or none
      when the client's sum wraps. */
  function Segments(file: Bytes, chunk: nat): (n: nat)
    requires Transferable(file, chunk)
    ensures if Sized(file, chunk) then n > 0 && JustCovers(|file|, chunk, n) && n == ServerTotal(|file|, chunk)
            else n == 0 < ServerTotal(|file|, chunk)
  {
    ClientServerAgree(|file|, chunk);
    var segments := ClientSegments(|file|, chunk);
    if segments < 0 then 0 else segments
  }

  /** Two sizes whose sum wraps: the count comes out as zero, or negative. */
  lemma WrappedCounts()
    ensures ClientSegments(4, TWO_63 - 1) == 0
    ensures ClientSegments(2, TWO_63 - 1) == -1
  {
    LargeIsNegative(TWO_63 + 2);
    LargeIsNegative(TWO_63);
  }

  /** Every byte lies in exactly one range, the one with index `p / chunk`. */
  lemma ByteInOneRange(size: nat, chunk: nat, n: nat, p: nat, i: nat)
    requires chunk > 0 && JustCovers(size, chunk, n) && p < size
    ensures p / chunk < n
    ensures Cut(size, chunk, i) <= p < Cut(size, chunk, i + 1) <==> i == p / chunk
  {
    var q := p / chunk;
    assert p == q * chunk + p % chunk && 0 <= p % chunk < chunk;
    assert (q + 1) * chunk == q * chunk + chunk;
    assert (i + 1) * chunk == i * chunk + chunk;
    if q >= n { MulMonotone(n, q, chunk); }
    if i < q { MulMonotone(i + 1, q, chunk); }
    if i > q { MulMonotone(q + 1, i, chunk); }
  }

  /** The slices concatenate to the prefix of the file that they cover. */
  lemma {:induction false} JoinedIsPrefix(file: Bytes, chunk: nat, n: nat)
    ensures Cut(|file|, chunk, n) <= |file|
    ensures Joined(file, chunk, n) == file[..Cut(|file|, chunk, n)]
  {
    if n == 0 {
      assert Cut(|file|, chunk, 0) == 0;
    } else {
      JoinedIsPrefix(file, chunk, n - 1);
      CutMonotone(|file|, chunk, n - 1, n);
      var a, b := Cut(|file|, chunk, n - 1), Cut(|file|, chunk, n);
      assert file[..a] + file[a..b] == file[..b];
    }
  }

  /** All slices of a session with a positive count make the whole file. */
  lemma JoinedIsFile(file: Bytes, chunk: nat)
    requires |file| < TWO_64 && 0 < chunk < TWO_64 && ServerTotal(|file|, chunk) > 0
    ensures Joined(file, chunk, ServerTotal(|file|, chunk)) == file
  {
    var n := ServerTotal(|file|, chunk);
    PositiveTotalCovers(|file|, chunk);
    LastCut(|file|, chunk, n);
    JoinedIsPrefix(file, chunk, n);
  }
}
