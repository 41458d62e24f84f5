/**
 * Digit conversion of the early-boot console (common/src/lib.rs, copied in
 * loader/src/main.rs): `int_to_char` and the digit strings that `print_int`,
 * `print_hex` and `print_hex_64` build, most significant digit first.
 */
module Numerals {
  import opened Wrappers

  /** Lower-case ASCII hexadecimal digits `0`-`9` and `a`-`f`. */
  predicate IsHexDigit(c: bv8)
  {
    (0x30 <= c <= 0x39) || (0x61 <= c <= 0x66)
  }

  /** `int_to_char`: 0-9 to `'0'`-`'9'`, 10-15 to `'a'`-`'f'`; any other value panics (`None`). */
  function IntToChar(n: bv8): (r: Option<bv8>)
    ensures r.Some? <==> n < 16
    ensures r.Some? ==> IsHexDigit(r.value)
    ensures n < 10 ==> r == Some(0x30 + n)
  {
    if n <= 9 then Some(n + 48)
    else if n <= 15 then Some(n + 87)
    else None
  }

  /** The value of a lower-case hexadecimal digit, the inverse of `IntToChar`. */
  function DigitValue(c: bv8): (r: Option<nat>)
    ensures r.Some? <==> IsHexDigit(c)
    ensures r.Some? ==> r.value < 16
  {
    if 0x30 <= c <= 0x39 then Some((c - 0x30) as nat)
    else if 0x61 <= c <= 0x66 then Some((c - 0x57) as nat)
    else None
  }

  /** `IntToChar` and `DigitValue` are inverse bijections between 0..15 and the hex digits. */
  lemma CharRoundTrip(n: bv8, c: bv8)
    ensures n < 16 ==> DigitValue(IntToChar(n).value) == Some(n as nat)
    ensures IsHexDigit(c) ==> IntToChar(DigitValue(c).value as bv8) == Some(c)
  {
  }

  function Pow(b: nat, k: nat): nat
  {
    if k == 0 then 1 else b * Pow(b, k - 1)
  }

  /** The digit of value `n % base` as the source computes it: `int_to_char((n % base) as u8)`. */
  function DigitOf(n: nat, base: nat): (c: bv8)
    requires 2 <= base <= 16
    ensures IsHexDigit(c) && DigitValue(c) == Some(n % base)
  {
    CharRoundTrip((n % base) as bv8, 0);
    IntToChar((n % base) as bv8).value
  }

  /** The base-`base` digits of `n`, most significant first; empty for zero. */
  function Digits(n: nat, base: nat): (ds: seq<bv8>)
    requires 2 <= base <= 16
    ensures forall i :: 0 <= i < |ds| ==> IsHexDigit(ds[i])
    ensures |ds| == 0 <==> n == 0
  {
    if n == 0 then [] else Digits(n / base, base) + [DigitOf(n, base)]
  }

  /** Reads a digit string back: each digit must be below `base`. */
  function Parse(ds: seq<bv8>, base: nat): Option<nat>
    requires 2 <= base <= 16
  {
    if ds == [] then Some(0)
    else
      match Parse(ds[..|ds| - 1], base)
      case None => None
      case Some(p) =>
        match DigitValue(ds[|ds| - 1])
        case None => None
        case Some(v) => if v < base then Some(p * base + v) else None
  }

  /** Appending a digit of value `v` to a string denoting `p` denotes `p * base + v`. */
  lemma ParseSnoc(ds: seq<bv8>, c: bv8, base: nat, p: nat, v: nat)
    requires 2 <= base <= 16
    requires Parse(ds, base) == Some(p) && DigitValue(c) == Some(v) && v < base
    ensures Parse(ds + [c], base) == Some(p * base + v)
  {
    assert (ds + [c])[..|ds + [c]| - 1] == ds;
  }

  lemma DivisionShrinks(n: nat, base: nat)
    requires 2 <= base && n > 0
    ensures 0 <= n / base < n && (n / base) * base + n % base == n
  {
  }

  /** The digits denote `n`. */
  lemma {:induction false} DigitsRoundTrip(n: nat, base: nat)
    requires 2 <= base <= 16
    ensures Parse(Digits(n, base), base) == Some(n)
  {
    if n != 0 {
      DivisionShrinks(n, base);
      DigitsRoundTrip(n / base, base);
      ParseSnoc(Digits(n / base, base), DigitOf(n, base), base, n / base, n % base);
      assert (n / base) * base + n % base == n;
    }
  }

  /** Different numbers have different digit strings. */
  lemma DigitsInjective(n: nat, m: nat, base: nat)
    requires 2 <= base <= 16
    ensures Digits(n, base) == Digits(m, base) ==> n == m
  {
    DigitsRoundTrip(n, base);
    DigitsRoundTrip(m, base);
  }

  /** No leading zero: the first digit of a nonzero number is not `'0'`. */
  lemma {:induction false} NoLeadingZero(n: nat, base: nat)
    requires 2 <= base <= 16
    requires n > 0
    ensures Digits(n, base)[0] != 0x30
  {
    DivisionShrinks(n, base);
    var q := n / base;
    assert Digits(n, base) == Digits(q, base) + [DigitOf(n, base)];
    if q == 0 {
      assert n % base == n;
      assert DigitValue(DigitOf(n, base)) == Some(n);
    } else {
      NoLeadingZero(q, base);
      assert Digits(n, base)[0] == Digits(q, base)[0];
    }
  }

  /** A number below `base^k` has at most `k` digits. */
  lemma {:induction false} DigitsLength(n: nat, base: nat, k: nat)
    requires 2 <= base <= 16
    requires n < Pow(base, k)
    ensures |Digits(n, base)| <= k
    decreases k
  {
    if n != 0 {
      assert k > 0;
      var p := Pow(base, k - 1);
      assert n < base * p;
      QuotientBelow(n, base, p);
      DigitsLength(n / base, base, k - 1);
    }
  }

  /** Dividing a number below `base * p` by `base` leaves a number below `p`. */
  lemma QuotientBelow(n: nat, base: nat, p: nat)
    requires base > 0 && n < base * p
    ensures n / base < p
  {
    assert (n / base) * base <= n;
  }

  /** Every `u32` fits in ten decimal or eight hexadecimal digits; every `u64` in sixteen hexadecimal ones. */
  lemma DigitBudgets(n32: nat, n64: nat)
    requires n32 < 0x1_0000_0000 && n64 < 0x1_0000_0000_0000_0000
    ensures |Digits(n32, 10)| <= 10
    ensures |Digits(n32, 16)| <= 8
    ensures |Digits(n64, 16)| <= 16
  {
    PowValues();
    DigitsLength(n32, 10, 10);
    DigitsLength(n32, 16, 8);
    DigitsLength(n64, 16, 16);
  }

  lemma PowValues()
    ensures Pow(10, 10) == 10_000_000_000
    ensures Pow(16, 8) == 0x1_0000_0000
    ensures Pow(16, 16) == 0x1_0000_0000_0000_0000
  {
    assert Pow(10, 2) == 100;
    assert Pow(10, 4) == 10_000;
    assert Pow(10, 6) == 1_000_000;
    assert Pow(10, 8) == 100_000_000;
    assert Pow(16, 2) == 0x100;
    assert Pow(16, 4) == 0x1_0000;
    assert Pow(16, 6) == 0x100_0000;
    assert Pow(16, 8) == 0x1_0000_0000;
    assert Pow(16, 10) == 0x100_0000_0000;
    assert Pow(16, 12) == 0x1_0000_0000_0000;
    assert Pow(16, 14) == 0x100_0000_0000_0000;
  }

  /** A larger budget admits at least the numbers a smaller one does. */
  lemma {:induction false} PowMonotone(b: nat, j: nat, k: nat)
    requires 1 <= b && j <= k
    ensures Pow(b, j) <= Pow(b, k)
  {
    if j < k {
      PowMonotone(b, j, k - 1);
      var x := Pow(b, k - 1);
      assert Pow(b, k) == b * x == x + (b - 1) * x;
      assert (b - 1) * x >= 0;
      assert Pow(b, j) <= x <= Pow(b, k);
    }
  }
}
