/** Bytes, byte strings and decimal numerals shared by every component. */
module Bytes {

  type Byte = b: int | 0 <= b < 256
  type ByteString = seq<Byte>

  const CR: Byte := 13
  const LF: Byte := 10
  const ZERO: Byte := 48
  const NINE: Byte := 57
  const CRLF: ByteString := [CR, LF]

  /** Largest value of an unsigned 64-bit `size_t`. */
  const SIZE_MAX: nat := 0xFFFF_FFFF_FFFF_FFFF
  /** Largest value of `off_t` and `long long`. */
  const INT64_MAX: nat := 0x7FFF_FFFF_FFFF_FFFF
  /** Largest value of `int`. */
  const INT_MAX: nat := 0x7FFF_FFFF

  predicate IsDigit(b: Byte) {
    ZERO <= b <= NINE
  }

  predicate AllDigits(ds: ByteString) {
    forall i :: 0 <= i < |ds| ==> IsDigit(ds[i])
  }

  /** The number a digit string denotes, most significant digit first. */
  function Value(ds: ByteString): (v: nat)
    requires AllDigits(ds)
  {
    if ds == [] then 0 else 10 * Value(ds[..|ds| - 1]) + (ds[|ds| - 1] - ZERO)
  }

  /** A non-empty digit string denoting `v`; leading zeros are allowed. */
  predicate IsNumeral(ds: ByteString, v: nat) {
    ds != [] && AllDigits(ds) && Value(ds) == v
  }

  /** The numeral of `n` without leading zeros. */
  function Decimal(n: nat): (ds: ByteString)
    ensures ds != [] && AllDigits(ds) && Value(ds) == n
    ensures ds[0] == ZERO ==> n == 0
    ensures n == 0 ==> ds == [ZERO]
  {
    if n < 10 then
      var ds := [ZERO + n];
      assert Value(ds[..0]) == 0;
      ds
    else
      var front := Decimal(n / 10);
      var ds := front + [ZERO + n % 10];
      assert ds[..|ds| - 1] == front;
      ds
  }

  /** Reading one more digit extends the value the way the parsers accumulate it. */
  lemma ValueSnoc(ds: ByteString, d: Byte)
    requires AllDigits(ds) && IsDigit(d)
    ensures AllDigits(ds + [d]) && Value(ds + [d]) == 10 * Value(ds) + (d - ZERO)
  {
    assert (ds + [d])[..|ds|] == ds;
  }

  /** A prefix of a numeral never denotes a larger number. */
  lemma {:induction false} ValuePrefix(ds: ByteString, k: nat)
    requires AllDigits(ds) && k <= |ds|
    ensures Value(ds[..k]) <= Value(ds)
    decreases |ds| - k
  {
    if k < |ds| {
      ValuePrefix(ds, k + 1);
      assert ds[..k + 1] == ds[..k] + [ds[k]];
      ValueSnoc(ds[..k], ds[k]);
    } else {
      assert ds[..k] == ds;
    }
  }

  /** The canonical numeral is never longer than another numeral of the same number. */
  lemma {:induction false} DecimalShortest(ds: ByteString, n: nat)
    requires IsNumeral(ds, n)
    ensures |Decimal(n)| <= |ds|
    decreases |ds|
  {
    if n >= 10 {
      var front := ds[..|ds| - 1];
      assert n == 10 * Value(front) + (ds[|ds| - 1] - ZERO);
      assert Value(front) == n / 10;
      DecimalShortest(front, n / 10);
    }
  }

  function PowerOfTwo(k: nat): nat {
    if k == 0 then 1 else 2 * PowerOfTwo(k - 1)
  }

  function PowerOfTen(k: nat): nat {
    if k == 0 then 1 else 10 * PowerOfTen(k - 1)
  }

  /** How many digits a bounded number can take. */
  lemma {:induction false} DecimalWidth(n: nat, k: nat)
    requires 0 < k && n < PowerOfTen(k)
    ensures |Decimal(n)| <= k
  {
    if n >= 10 {
      assert PowerOfTen(k) == 10 * PowerOfTen(k - 1);
      assert PowerOfTen(1) == 10;
      DecimalWidth(n / 10, k - 1);
    }
  }

  lemma Regroup(a: ByteString, b: ByteString, c: ByteString)
    ensures a + (b + c) == a + b + c
  {
  }

  lemma MiddlePart<T>(a: seq<T>, b: seq<T>, c: seq<T>)
    ensures (a + b + c)[|a|..|a| + |b|] == b
    ensures (a + b + c)[..|a|] == a && (a + b + c)[|a| + |b|..] == c
  {
    assert (a + b + c)[|a|..|a| + |b|] == b;
  }

  lemma CutInThree<T>(s: seq<T>, i: nat, j: nat, n: nat)
    requires i <= j <= n <= |s|
    ensures s[..n] == s[..i] + s[i..j] + s[j..n]
  {
  }
}
