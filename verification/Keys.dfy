/** The names under which sessions and parts are stored. */
module Keys {

  function Digit(d: nat): char
    requires d < 10
  {
    '0' + d as char
  }

  /** strconv.FormatUint(n, 10) */
  function Decimal(n: nat): (s: string)
    ensures |s| > 0
    ensures forall k :: 0 <= k < |s| ==> '0' <= s[k] <= '9'
  {
    if n < 10 then [Digit(n)] else Decimal(n / 10) + [Digit(n % 10)]
  }

  function PartKey(uploadId: string, seqNo: nat): string {
    "uploads/" + uploadId + "/" + Decimal(seqNo)
  }

  function MetaKey(uploadId: string): string {
    "uploads:" + uploadId + ":meta"
  }

  function BitmapKey(uploadId: string): string {
    "uploads:" + uploadId + ":bitmap"
  }

  ghost predicate IsPartKey(key: string) {
    exists id, i :: key == PartKey(id, i)
  }

  /** Reading a number in base ten. */
  function Value(s: string): int {
    if s == "" then 0 else 10 * Value(s[..|s| - 1]) + (s[|s| - 1] as int - '0' as int)
  }

  /** The decimal form reads back as the number, and has no leading zero. */
  lemma {:induction false} DecimalReadsBack(n: nat)
    ensures Value(Decimal(n)) == n
    ensures n > 0 ==> Decimal(n)[0] != '0'
  {
    if n < 10 {
      assert Value([Digit(n)][..0]) == 0;
    } else {
      DecimalReadsBack(n / 10);
      var s := Decimal(n);
      assert s[..|s| - 1] == Decimal(n / 10);
    }
  }

  /** The three names of one upload, written out. */
  lemma NamesOfOneUpload()
    ensures PartKey("u1", 0) == "uploads/u1/0" && PartKey("u1", 120) == "uploads/u1/120"
    ensures MetaKey("u1") == "uploads:u1:meta" && BitmapKey("u1") == "uploads:u1:bitmap"
  {
    assert Decimal(12) == "1" + "2" && Decimal(120) == "12" + "0";
  }

  lemma {:induction false} DecimalInjective(m: nat, n: nat)
    requires Decimal(m) == Decimal(n)
    ensures m == n
  {
    DecimalParts(m);
    DecimalParts(n);
    if m >= 10 { DecimalInjective(m / 10, n / 10); }
  }

  lemma DecimalParts(n: nat)
    ensures var s := Decimal(n);
      && (n < 10 <==> |s| == 1)
      && s[|s| - 1] == Digit(n % 10)
      && (n >= 10 ==> s[..|s| - 1] == Decimal(n / 10))
  {
  }

  lemma NoSlashAfter(x: string, a: string, d: string)
    requires x == a + "/" + d && '/' !in d
    ensures x[|a|] == '/'
    ensures forall k :: |a| < k < |x| ==> x[k] != '/'
  {
    forall k | |a| < k < |x| ensures x[k] != '/' {
      assert x[k] == d[k - |a| - 1];
    }
  }

  /** A string with no slash after the last one can be split in one way only. */
  lemma SplitAtLastSlash(a: string, d: string, b: string, e: string)
    requires a + "/" + d == b + "/" + e
    requires '/' !in d && '/' !in e
    ensures a == b && d == e
  {
    var x := a + "/" + d;
    NoSlashAfter(x, a, d);
    NoSlashAfter(x, b, e);
    assert |a| == |b|;
    assert a == x[..|a|] && b == x[..|b|];
    assert d == x[|a| + 1..] && e == x[|b| + 1..];
  }

  /** Part keys are injective in the pair of upload id and sequence number, whatever the ids. */
  lemma PartKeyInjective(id: string, i: nat, id': string, i': nat)
    requires PartKey(id, i) == PartKey(id', i')
    ensures id == id' && i == i'
  {
    SplitAtLastSlash("uploads/" + id, Decimal(i), "uploads/" + id', Decimal(i'));
    assert ("uploads/" + id)[8..] == id && ("uploads/" + id')[8..] == id';
    DecimalInjective(i, i');
  }

  /** The two Redis keys of a session are its own, and never each other. */
  lemma SessionKeysInjective(id: string, id': string)
    ensures MetaKey(id) == MetaKey(id') ==> id == id'
    ensures BitmapKey(id) == BitmapKey(id') ==> id == id'
    ensures MetaKey(id) != BitmapKey(id')
  {
    var m, m', b, b' := MetaKey(id), MetaKey(id'), BitmapKey(id), BitmapKey(id');
    assert m[8..|m| - 5] == id && m'[8..|m'| - 5] == id';
    assert b[8..|b| - 7] == id && b'[8..|b'| - 7] == id';
    assert m[|m| - 1] == 'a' && b'[|b'| - 1] == 'p';
  }

  lemma AllPartKeysInjective()
    ensures forall id, i: nat, id', i': nat {:trigger PartKey(id, i), PartKey(id', i')} ::
              PartKey(id, i) == PartKey(id', i') ==> id == id' && i == i'
  {
    forall id, i: nat, id', i': nat | PartKey(id, i) == PartKey(id', i')
      ensures id == id' && i == i'
    {
      PartKeyInjective(id, i, id', i');
    }
  }

  lemma AllSessionKeysInjective()
    ensures forall id, id' {:trigger MetaKey(id), MetaKey(id')} :: MetaKey(id) == MetaKey(id') ==> id == id'
    ensures forall id, id' {:trigger BitmapKey(id), BitmapKey(id')} :: BitmapKey(id) == BitmapKey(id') ==> id == id'
    ensures forall id, id' {:trigger MetaKey(id), BitmapKey(id')} :: MetaKey(id) != BitmapKey(id')
  {
    forall id, id'
      ensures MetaKey(id) == MetaKey(id') ==> id == id'
      ensures BitmapKey(id) == BitmapKey(id') ==> id == id'
      ensures MetaKey(id) != BitmapKey(id')
    {
      SessionKeysInjective(id, id');
    }
  }
}
