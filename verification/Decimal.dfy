/** Decimal printing and the C library's prefix parsers, over bytes. */
module Decimal {

  /** An 8-bit character code. */
  type byte = x: int | 0 <= x < 256

  const NUL: byte := 0
  const TAB: byte := 9
  const LF: byte := 10
  const CR: byte := 13
  const SPACE: byte := 32
  const PLUS: byte := 43
  const MINUS: byte := 45
  const ZERO: byte := 48

  const INT_MAX: int := 0x7FFF_FFFF
  const LONG_MAX: int := 0x7FFF_FFFF_FFFF_FFFF

  predicate IsDigit(b: byte) {
    48 <= b <= 57
  }

  /** `isspace` in the C locale. */
  predicate IsSpace(b: byte) {
    b == 32 || 9 <= b <= 13
  }

  function Lower(b: byte): byte {
    if 65 <= b <= 90 then b + 32 else b
  }

  predicate EqualsIgnoreCase(a: seq<byte>, b: seq<byte>) {
    |a| == |b| && forall i :: 0 <= i < |a| ==> Lower(a[i]) == Lower(b[i])
  }

  /** The decimal numeral of `n`, as `ull2string` and `%lld` print it. */
  function Digits(n: nat): (r: seq<byte>)
    ensures |r| >= 1
    ensures forall i :: 0 <= i < |r| ==> IsDigit(r[i])
    ensures n > 0 ==> r[0] != ZERO
  {
    if n < 10 then [ZERO + n] else Digits(n / 10) + [ZERO + n % 10]
  }

  /** The value of the digits at the front of `s`, continuing from `acc`. */
  function DigitsValue(s: seq<byte>, acc: nat): nat {
    if s == [] || !IsDigit(s[0]) then acc
    else DigitsValue(s[1..], acc * 10 + (s[0] - ZERO))
  }

  function SkipSpaces(s: seq<byte>): seq<byte> {
    if s != [] && IsSpace(s[0]) then SkipSpaces(s[1..]) else s
  }

  /** `strtol(s, NULL, 10)`: blanks, an optional sign, digits; clamped to a 64-bit long. */
  function Strtol(s: seq<byte>): int {
    var t := SkipSpaces(s);
    if t != [] && t[0] == MINUS then
      var v: int := DigitsValue(t[1..], 0);
      if v > LONG_MAX + 1 then -LONG_MAX - 1 else -v
    else
      var v := DigitsValue(if t != [] && t[0] == PLUS then t[1..] else t, 0);
      if v > LONG_MAX then LONG_MAX else v
  }

  function Pow10(k: nat): nat {
    if k == 0 then 1 else 10 * Pow10(k - 1)
  }

  lemma {:induction false} DigitsLength(n: nat, k: nat)
    requires k >= 1 && n < Pow10(k)
    ensures |Digits(n)| <= k
  {
    if n >= 10 {
      DigitsLength(n / 10, k - 1);
    }
  }

  /** A 64-bit value never needs more than twenty digits. */
  lemma LongDigitsLength(n: nat)
    requires n <= LONG_MAX
    ensures |Digits(n)| <= 20
  {
    assert Pow10(5) == 10_0000;
    assert Pow10(10) == 10_0000 * Pow10(5);
    assert Pow10(15) == 10_0000 * Pow10(10);
    assert Pow10(20) == 10_0000 * Pow10(15);
    DigitsLength(n, 20);
  }

  lemma {:induction false} DigitsValueAppend(s: seq<byte>, t: seq<byte>, acc: nat)
    requires forall i :: 0 <= i < |s| ==> IsDigit(s[i])
    ensures DigitsValue(s + t, acc) == DigitsValue(t, DigitsValue(s, acc))
  {
    if s == [] {
      assert s + t == t;
    } else {
      assert (s + t)[1..] == s[1..] + t;
      DigitsValueAppend(s[1..], t, acc * 10 + (s[0] - ZERO));
    }
  }

  lemma {:induction false} DigitsValueOfDigits(n: nat)
    ensures DigitsValue(Digits(n), 0) == n
  {
    if n < 10 {
      assert Digits(n)[1..] == [];
    } else {
      DigitsValueOfDigits(n / 10);
      DigitsValueAppend(Digits(n / 10), [ZERO + n % 10], 0);
      assert [ZERO + n % 10][1..] == [];
    }
  }

  /** Parsing inverts printing, whatever non-digit follows the numeral. */
  lemma StrtolOfDigits(n: nat, rest: seq<byte>)
    requires n <= LONG_MAX
    requires rest == [] || !IsDigit(rest[0])
    ensures Strtol(Digits(n) + rest) == n
  {
    var s := Digits(n) + rest;
    assert s[0] == Digits(n)[0];
    DigitsValueAppend(Digits(n), rest, 0);
    DigitsValueOfDigits(n);
  }

  /** Cutting a numeral short leaves a numeral that is no larger, and positive if it was. */
  lemma {:induction false} StrtolOfDigitsPrefix(n: nat, k: nat)
    requires 0 < n <= LONG_MAX
    requires 1 <= k <= |Digits(n)|
    ensures 1 <= Strtol(Digits(n)[..k]) <= n
  {
    var d := Digits(n);
    if k == |d| {
      assert d[..k] + [] == d;
      StrtolOfDigits(n, []);
      assert d[..k] == d;
    } else {
      assert n >= 10;
      assert d[..k] == Digits(n / 10)[..k];
      StrtolOfDigitsPrefix(n / 10, k);
    }
  }
}
