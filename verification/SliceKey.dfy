/** Backend keys and L2 paths of slices. */
module SliceKey {

  function Digit(d: nat): char
    requires d < 10
  {
    '0' + d as char
  }

  /** Decimal printing without padding. */
  function Decimal(n: nat): (s: string)
    ensures AllDigits(s)
    ensures Value(s) == n
  {
    if n < 10 then
      assert Value([Digit(n)]) == n;
      [Digit(n)]
    else
      var front := Decimal(n / 10);
      assert (front + [Digit(n % 10)])[..|front|] == front;
      front + [Digit(n % 10)]
  }

  predicate AllDigits(s: string) {
    forall i | 0 <= i < |s| :: '0' <= s[i] <= '9'
  }

  /** The number that a string of digits denotes, leading zeros allowed. */
  function Value(s: string): nat
    requires AllDigits(s)
  {
    if s == [] then 0 else 10 * Value(s[..|s| - 1]) + (s[|s| - 1] as nat - '0' as nat)
  }

  /** `format!("{n:0width$}")`. */
  function Padded(n: nat, width: nat): (s: string)
    ensures AllDigits(s) && |s| >= width
  {
    Zeros(width - |Decimal(n)|) + Decimal(n)
  }

  function Zeros(k: int): (s: string)
    ensures AllDigits(s) && |s| == if k <= 0 then 0 else k
  {
    if k <= 0 then [] else ['0'] + Zeros(k - 1)
  }

  lemma {:induction false} LeadingZero(s: string)
    requires AllDigits(s)
    ensures AllDigits(['0'] + s) && Value(['0'] + s) == Value(s)
  {
    if s == [] {
      assert (['0'] + s)[..0] == [];
    } else {
      LeadingZero(s[..|s| - 1]);
      assert (['0'] + s)[..|s|] == ['0'] + s[..|s| - 1];
    }
  }

  lemma {:induction false} ZerosKeepValue(k: int, s: string)
    requires AllDigits(s)
    ensures Value(Zeros(k) + s) == Value(s)
  {
    if k <= 0 {
      assert Zeros(k) + s == s;
    } else {
      ZerosKeepValue(k - 1, s);
      LeadingZero(Zeros(k - 1) + s);
      assert Zeros(k) + s == ['0'] + (Zeros(k - 1) + s);
    }
  }

  lemma PaddedValue(n: nat, width: nat)
    ensures Value(Padded(n, width)) == n
  {
    ZerosKeepValue(width - |Decimal(n)|, Decimal(n));
  }

  /** Shared by the backend key and the L2 path: a base, a bucket of 1000 ids, the id. */
  function KeyUnder(base: string, id: nat): string {
    base + "/" + Padded(id / 1000, 4) + "/" + Padded(id, 12)
  }

  function BackendKey(id: nat): string { KeyUnder("slices", id) }

  function DiskKey(base: string, id: nat): string { KeyUnder(base, id) }

  function Pow10(k: nat): nat { if k == 0 then 1 else 10 * Pow10(k - 1) }

  lemma {:induction false} DecimalWidth(n: nat, k: nat)
    requires k > 0 && n < Pow10(k)
    ensures |Decimal(n)| <= k
    decreases k
  {
    if n < 10 {
    } else {
      assert Pow10(1) == 10;
      DecimalWidth(n / 10, k - 1);
    }
  }

  /** A number that fits the width is printed with exactly that many digits. */
  lemma PaddedWidth(n: nat, width: nat)
    requires width > 0 && n < Pow10(width)
    ensures |Padded(n, width)| == width
  {
    DecimalWidth(n, width);
  }

  /** Four digits for the bucket of a thousand ids, twelve for the id. */
  lemma KeyLayout(base: string, id: nat)
    requires id < 10_000_000
    ensures exists bucket, digits: string ::
              && KeyUnder(base, id) == base + "/" + bucket + "/" + digits
              && AllDigits(bucket) && |bucket| == 4 && Value(bucket) == id / 1000
              && AllDigits(digits) && |digits| == 12 && Value(digits) == id
  {
    var bucket, digits := Padded(id / 1000, 4), Padded(id, 12);
    assert Pow10(4) == 10_000 && Pow10(12) == 1_000_000_000_000;
    PaddedWidth(id / 1000, 4);
    PaddedWidth(id, 12);
    PaddedValue(id / 1000, 4);
    PaddedValue(id, 12);
    assert KeyUnder(base, id) == base + "/" + bucket + "/" + digits;
  }

  /** Digits before a separator are determined by the whole string. */
  lemma SplitUnique(p: string, q: string, p': string, q': string)
    requires AllDigits(p) && AllDigits(p')
    requires p + "/" + q == p' + "/" + q'
    ensures p == p' && q == q'
  {
    var s := p + "/" + q;
    assert s == p' + "/" + q';
    assert s[|p|] == '/' && s[|p'|] == '/';
    assert forall i | 0 <= i < |p| :: s[i] == p[i];
    assert forall i | 0 <= i < |p'| :: s[i] == p'[i];
    assert |p| == |p'|;
    assert s[..|p|] == p && s[..|p'|] == p';
    assert s[|p| + 1..] == q && s[|p'| + 1..] == q';
  }

  /** Distinct ids never share a key, however wide the id is. */
  lemma KeyInjective(base: string, a: nat, b: nat)
    ensures KeyUnder(base, a) == KeyUnder(base, b) <==> a == b
  {
    if KeyUnder(base, a) == KeyUnder(base, b) {
      DropBase(base, Padded(a / 1000, 4), Padded(a, 12), Padded(b / 1000, 4), Padded(b, 12));
      SplitUnique(Padded(a / 1000, 4), Padded(a, 12), Padded(b / 1000, 4), Padded(b, 12));
      PaddedValue(a, 12);
      PaddedValue(b, 12);
    }
  }

  lemma DropBase(base: string, p: string, q: string, p': string, q': string)
    requires base + "/" + p + "/" + q == base + "/" + p' + "/" + q'
    ensures p + "/" + q == p' + "/" + q'
  {
    var n := |base| + 1;
    assert (base + "/" + p + "/" + q)[n..] == p + "/" + q;
    assert (base + "/" + p' + "/" + q')[n..] == p' + "/" + q';
  }
}
