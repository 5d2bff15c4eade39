/** BITFIELD: integers of any width at any bit offset of a string. */
module Bitfield {
  import opened Options
  import opened Bits

  // ---------------------------------------------------------------- writing bits

  /** A byte with bit `k` set to `v`. */
  function SetBit(b: bv8, k: nat, v: bool): bv8
    requires k < 8
  {
    (b & !Mask(k)) | (if v then Mask(k) else 0)
  }

  lemma SetBitBits(b: bv8, k: nat, v: bool, j: nat)
    requires k < 8 && j < 8
    ensures Bit(SetBit(b, k, v), j) == if j == k then v else Bit(b, j)
  {
  }

  function WriteBit(s: Bytes, i: nat, v: bool): Bytes
    requires i < 8 * |s|
  {
    s[i / 8 := SetBit(s[i / 8], i % 8, v)]
  }

  lemma WriteBitBits(s: Bytes, i: nat, v: bool, j: nat)
    requires i < 8 * |s| && j < 8 * |s|
    ensures BitAt(WriteBit(s, i, v), j) == if j == i then v else BitAt(s, j)
  {
    hide Bit, SetBit;
    if j / 8 == i / 8 { SetBitBits(s[i / 8], i % 8, v, j % 8); }
  }

  /** The low `n` bits of `v` written at position `off`, most significant first. */
  function WriteBits(s: Bytes, off: nat, n: nat, v: nat): (r: Bytes)
    requires off + n <= 8 * |s|
    ensures |r| == |s|
  {
    if n == 0 then s else WriteBit(WriteBits(s, off, n - 1, v / 2), off + n - 1, v % 2 == 1)
  }

  /** Nothing outside the field changes. */
  lemma {:induction false} WriteOutside(s: Bytes, off: nat, n: nat, v: nat, j: nat)
    requires off + n <= 8 * |s| && j < 8 * |s| && !(off <= j < off + n)
    ensures BitAt(WriteBits(s, off, n, v), j) == BitAt(s, j)
    decreases n
  {
    hide BitAt, WriteBit;
    if n > 0 {
      WriteOutside(s, off, n - 1, v / 2, j);
      WriteBitBits(WriteBits(s, off, n - 1, v / 2), off + n - 1, v % 2 == 1, j);
    }
  }

  lemma {:induction false} SameValue(s: Bytes, r: Bytes, off: nat, n: nat)
    requires |r| == |s| && off + n <= 8 * |s|
    requires forall j: nat :: off <= j < off + n ==> BitAt(r, j) == BitAt(s, j)
    ensures Value(r, off, n) == Value(s, off, n)
    decreases n
  {
    hide BitAt;
    if n > 0 { SameValue(s, r, off, n - 1); }
  }

  lemma ModHalf(v: nat, n: nat)
    requires n > 0
    ensures Pow2(n) > 0 && Pow2(n - 1) > 0
    ensures v % Pow2(n) == 2 * (v / 2 % Pow2(n - 1)) + v % 2
  {
    Pow2Positive(n);
    Pow2Positive(n - 1);
    HalfModulo(v, Pow2(n - 1));
  }

  /** What is written reads back, modulo the width. */
  lemma {:induction false} WriteValue(s: Bytes, off: nat, n: nat, v: nat)
    requires off + n <= 8 * |s|
    ensures Pow2(n) > 0 && Value(WriteBits(s, off, n, v), off, n) == v % Pow2(n)
    decreases n
  {
    hide BitAt, WriteBit;
    Pow2Positive(n);
    if n > 0 {
      var t := WriteBits(s, off, n - 1, v / 2);
      var r := WriteBits(s, off, n, v);
      WriteValue(s, off, n - 1, v / 2);
      forall j: nat | off <= j < off + n - 1
        ensures BitAt(r, j) == BitAt(t, j)
      {
        WriteBitBits(t, off + n - 1, v % 2 == 1, j);
      }
      SameValue(t, r, off, n - 1);
      WriteBitBits(t, off + n - 1, v % 2 == 1, off + n - 1);
      ModHalf(v, n);
    }
  }

  // ---------------------------------------------------------------- the loops

  lemma DivideOnce(v: nat, n: nat)
    requires n > 0
    ensures Pow2(n) > 0 && Pow2(n - 1) > 0 && v / Pow2(n - 1) / 2 == v / Pow2(n)
  {
    Pow2Positive(n);
    Pow2Positive(n - 1);
    DivideThenHalf(v, Pow2(n - 1));
  }

  /** setUnsignedBitfield, in place. */
  method SetUnsignedBitfield(p: array<bv8>, offset: nat, bits: nat, value: nat)
    requires offset + bits <= 8 * p.Length
    modifies p
    ensures p[..] == WriteBits(old(p[..]), offset, bits, value)
  {
    hide SetBit, Pow2;
    ghost var s := p[..];
    var j := 0;
    Pow2Positive(bits);
    WriteNone(s, offset, value / Shift(bits));
    while j < bits
      invariant 0 <= j <= bits
      invariant p[..] == WriteBits(s, offset, j, value / Shift(bits - j))
    {
      DivideOnce(value, bits - j);
      var bitval := value / Shift(bits - 1 - j) % 2 == 1;
      var byte := (offset + j) / 8;
      var bit := (offset + j) % 8;
      p[byte] := SetBit(p[byte], bit, bitval);
      j := j + 1;
    }
    LastShift(value);
  }

  /** A divisor 2^n. */
  function Shift(n: nat): (r: nat)
    ensures r > 0
  {
    Pow2Positive(n);
    Pow2(n)
  }

  lemma WriteNone(s: Bytes, offset: nat, v: nat)
    requires offset <= 8 * |s|
    ensures WriteBits(s, offset, 0, v) == s
  {
  }

  lemma LastShift(v: nat)
    ensures v / Shift(0) == v
  {
  }

  /** getUnsignedBitfield. */
  method GetUnsignedBitfield(p: Bytes, offset: nat, bits: nat) returns (value: nat)
    requires offset + bits <= 8 * |p|
    ensures value == Value(p, offset, bits) && value < Shift(bits)
  {
    hide Bit;
    value := 0;
    var j := 0;
    while j < bits
      invariant 0 <= j <= bits && value == Value(p, offset, j)
    {
      var byte := (offset + j) / 8;
      var bit := (offset + j) % 8;
      value := 2 * value + (if Bit(p[byte], bit) then 1 else 0);
      j := j + 1;
    }
    ValueBound(p, offset, bits);
  }

  // ---------------------------------------------------------------- 64-bit arithmetic

  predicate IsInt64(x: int) {
    0 - I64 <= x < I64
  }

  /** The low 64 bits of a number. */
  function Unsigned64(x: int): nat {
    x % U64
  }

  /** The two's complement reading of 64 bits. */
  function Signed64(x: nat): int {
    if x >= I64 then x - U64 else x
  }

  // ---------------------------------------------------------------- types

  datatype Overflow = Wrap | Sat | Fail

  /** An integer type of BITFIELD. */
  datatype Kind = Kind(signed: bool, bits: nat)

  /** The widths getBitfieldTypeFromArgument accepts. */
  predicate KindOk(k: Kind) {
    1 <= k.bits <= if k.signed then 64 else 63
  }

  function Max(k: Kind): int
    requires KindOk(k)
  {
    if k.signed then Pow2(k.bits - 1) - 1 else Pow2(k.bits) - 1
  }

  function Min(k: Kind): int
    requires KindOk(k)
  {
    if k.signed then 0 - Pow2(k.bits - 1) else 0
  }

  predicate Fits(k: Kind, x: int)
    requires KindOk(k)
  {
    Min(k) <= x <= Max(k)
  }

  /** The number of the type that is congruent to `x` modulo 2^bits. */
  function Wrapped(k: Kind, x: int): int
    requires KindOk(k)
  {
    var u := x % Shift(k.bits);
    if k.signed && u >= Pow2(k.bits - 1) then u - Pow2(k.bits) else u
  }

  function Clamped(k: Kind, x: int): int
    requires KindOk(k)
  {
    if x > Max(k) then Max(k) else if x < Min(k) then Min(k) else x
  }

  /** What an operation with the result `x` has to store, None for nothing. */
  function Stored(k: Kind, ow: Overflow, x: int): Option<int>
    requires KindOk(k)
  {
    if Fits(k, x) then Some(x)
    else match ow case Wrap => Some(Wrapped(k, x)) case Sat => Some(Clamped(k, x)) case Fail => None
  }

  // ---------------------------------------------------------------- overflow checks

  /** checkUnsignedBitfieldOverflow, once its bounds and the wrapped result are computed: the
      verdict, and what *limit is set to, 0 if it is not. */
  function UnsignedVerdict(value: nat, incr: int, ow: Overflow,
                           max: int, maxincr: int, minincr: int, wrapped: int): (int, int)
  {
    if value > max || (incr > 0 && incr > maxincr) then
      (1, match ow case Wrap => wrapped case Sat => max case Fail => 0)
    else if incr < 0 && incr < minincr then
      (if ow == Wrap then 1 else -1, match ow case Wrap => wrapped case Sat => 0 case Fail => 0)
    else (0, 0)
  }

  /** checkUnsignedBitfieldOverflow. */
  function CheckUnsigned(value: nat, incr: int, bits: nat, ow: Overflow): (int, int)
    requires 1 <= bits <= 63
  {
    var max := Pow2(bits) - 1;
    var maxincr := Signed64(Unsigned64(max - value));
    var minincr := Signed64(Unsigned64(0 - value));
    var wrapped := Unsigned64(value + incr) % Shift(bits);
    UnsignedVerdict(value, incr, ow, max, maxincr, minincr, wrapped)
  }

  /** checkSignedBitfieldOverflow, once its bounds and the wrapped result are computed. */
  function SignedVerdict(value: int, incr: int, full: bool, ow: Overflow,
                         max: int, maxincr: int, minincr: int, wrapped: int): (int, int)
  {
    if value > max || (!full && incr > maxincr) || (value >= 0 && incr > 0 && incr > maxincr) then
      (1, match ow case Wrap => wrapped case Sat => max case Fail => 0)
    else if value < -max - 1 || (!full && incr < minincr) || (value < 0 && incr < 0 && incr < minincr) then
      (if ow == Wrap then 1 else -1, match ow case Wrap => wrapped case Sat => -max - 1 case Fail => 0)
    else (0, 0)
  }

  /** checkSignedBitfieldOverflow. */
  function CheckSigned(value: int, incr: int, bits: nat, ow: Overflow): (int, int)
    requires 1 <= bits <= 64
  {
    var max := Pow2(bits - 1) - 1;
    var maxincr := Signed64(Unsigned64(max - value));
    var minincr := Signed64(Unsigned64(-max - 1 - value));
    var c := Unsigned64(value + incr);
    var wrapped := if bits < 64 then SignExtended(c, bits) else Signed64(c);
    SignedVerdict(value, incr, bits == 64, ow, max, maxincr, minincr, wrapped)
  }

  /** The low bits of `c`, with the bit below the width copied upwards. */
  function SignExtended(c: nat, bits: nat): int
    requires 1 <= bits
  {
    var u := c % Shift(bits);
    if c / Shift(bits - 1) % 2 == 1 then u - Pow2(bits) else u
  }

  /** 64 bits wrap around to any smaller width. */
  lemma Mod64(x: int, bits: nat)
    requires bits <= 64
    ensures Unsigned64(x) % Shift(bits) == x % Shift(bits)
  {
    LargePowers();
    Pow2Add(bits, 64 - bits);
    ModMod(x, Shift(bits), Shift(64 - bits));
  }

  lemma ModMod(x: int, a: nat, b: nat)
    requires a > 0 && b > 0
    ensures a * b > 0 && x % (a * b) % a == x % a
  {
    var q, r := x / (a * b), x % (a * b);
    var p, t := r / a, r % a;
    assert x == q * (a * b) + r && r == p * a + t;
    assert x == (q * b + p) * a + t by { assert q * (a * b) == q * b * a; }
    ModUnique(x, q * b + p, t, a);
  }

  lemma ModUnique(x: int, q: int, r: nat, m: nat)
    requires m > 0 && x == q * m + r && r < m
    ensures x % m == r
  {
    var k := x / m - q;
    assert k * m == r - x % m;
    assert k >= 1 ==> k * m >= m;
    assert k <= -1 ==> k * m <= -1 * m;
  }

  /** Casting a number that fits to 64 unsigned bits and back changes nothing. */
  lemma Signed64Id(x: int)
    requires IsInt64(x)
    ensures Signed64(Unsigned64(x)) == x
  {
    if x >= 0 {
      ModUnique(x, 0, x, U64);
    } else {
      ModUnique(x, -1, x + U64, U64);
    }
  }

  lemma WidthBounds(bits: nat)
    requires 1 <= bits <= 64
    ensures Pow2(bits) == 2 * Pow2(bits - 1) && 1 <= Pow2(bits - 1) <= I64
    ensures bits < 64 ==> Pow2(bits) <= I64
  {
    LargePowers();
    Pow2Positive(bits - 1);
    Pow2Monotone(bits - 1, 63);
    if bits < 64 { Pow2Monotone(bits, 63); }
  }

  lemma UnsignedCases(value: nat, incr: int, ow: Overflow, max: int, maxincr: int, minincr: int, w: int)
    requires incr == 0 || (value <= max && maxincr == max - value && minincr == 0 - value)
    ensures var x := value + incr;
            UnsignedVerdict(value, incr, ow, max, maxincr, minincr, w) ==
            if x > max then (1, match ow case Wrap => w case Sat => max case Fail => 0)
            else if x < 0 then (if ow == Wrap then 1 else -1, match ow case Wrap => w case Sat => 0 case Fail => 0)
            else (0, 0)
  {
  }

  lemma UnsignedBounds(value: nat, bits: nat)
    requires 1 <= bits <= 63 && Fits(Kind(false, bits), value)
    ensures var max := Pow2(bits) - 1;
            Signed64(Unsigned64(max - value)) == max - value && Signed64(Unsigned64(0 - value)) == 0 - value
  {
    WidthBounds(bits);
    hide Pow2, Unsigned64, Signed64;
    Signed64Id(Pow2(bits) - 1 - value);
    Signed64Id(0 - value);
  }

  /** The unsigned check finds exactly the results that do not fit, and its limit is what the
      overflow mode asks for. */
  lemma UnsignedCheck(value: nat, incr: int, bits: nat, ow: Overflow)
    requires 1 <= bits <= 63 && IsInt64(incr)
    requires incr == 0 || Fits(Kind(false, bits), value)
    ensures var k := Kind(false, bits);
            var (o, limit) := CheckUnsigned(value, incr, bits, ow);
            && (o == 0 <==> Fits(k, value + incr))
            && (o != 0 && ow != Fail ==> Stored(k, ow, value + incr) == Some(limit))
  {
    hide Pow2, Unsigned64, Signed64, UnsignedVerdict;
    var max := Pow2(bits) - 1;
    var maxincr, minincr := Signed64(Unsigned64(max - value)), Signed64(Unsigned64(0 - value));
    Mod64(value + incr, bits);
    if incr != 0 { UnsignedBounds(value, bits); }
    UnsignedCases(value, incr, ow, max, maxincr, minincr, (value + incr) % Shift(bits));
  }

  lemma TopBit(c: nat, m: nat)
    requires m > 0
    ensures c / m % 2 == 1 <==> c % (2 * m) >= m
  {
    var k := 2 * m;
    QuotientRest(c, k);
    HalfQuotient(c, c / k, c % k, m, k);
  }

  lemma QuotientRest(c: nat, k: nat)
    requires k > 0
    ensures c == c / k * k + c % k && c / k >= 0 && 0 <= c % k < k
  {
  }

  lemma HalfQuotient(c: nat, q: nat, r: nat, m: nat, k: nat)
    requires m > 0 && k == 2 * m && c == q * k + r && r < k
    ensures c / m % 2 == 1 <==> r >= m
  {
    assert q * k == q * (2 * m);
    if r >= m {
      assert q * (2 * m) + r == (2 * q + 1) * m + (r - m);
      Quotient(c, 2 * q + 1, r - m, m);
      OddEven(q);
    } else {
      assert q * (2 * m) + r == 2 * q * m + r;
      Quotient(c, 2 * q, r, m);
      OddEven(q);
    }
  }

  lemma OddEven(q: nat)
    ensures (2 * q) % 2 == 0 && (2 * q + 1) % 2 == 1
  {
  }

  lemma SignExtendedIs(x: int, bits: nat)
    requires 1 <= bits <= 64
    ensures SignExtended(Unsigned64(x), bits) == Wrapped(Kind(true, bits), x)
  {
    WidthBounds(bits);
    Mod64(x, bits);
    TopBit(Unsigned64(x), Pow2(bits - 1));
    hide Pow2, Unsigned64;
  }

  lemma Signed64IsWrapped(x: int)
    ensures Signed64(Unsigned64(x)) == Wrapped(Kind(true, 64), x)
  {
    LargePowers();
    hide Pow2;
  }

  /** The wrapped result of the signed check. */
  lemma SignedWrap(x: int, bits: nat)
    requires 1 <= bits <= 64
    ensures (if bits < 64 then SignExtended(Unsigned64(x), bits) else Signed64(Unsigned64(x))) ==
            Wrapped(Kind(true, bits), x)
  {
    hide SignExtended, Wrapped, Unsigned64, Signed64;
    SignExtendedIs(x, bits);
    Signed64IsWrapped(x);
  }

  /** The bounds the signed check compares with do not wrap where it uses them. */
  lemma SignedBounds(value: int, bits: nat)
    requires 1 <= bits <= 64 && Fits(Kind(true, bits), value)
    ensures var max := Pow2(bits - 1) - 1;
            && (bits < 64 || value >= 0 ==> Signed64(Unsigned64(max - value)) == max - value)
            && (bits < 64 || value < 0 ==> Signed64(Unsigned64(-max - 1 - value)) == -max - 1 - value)
  {
    WidthBounds(bits);
    hide Pow2, Unsigned64, Signed64;
    var max := Pow2(bits - 1) - 1;
    if bits < 64 || value >= 0 { Signed64Id(max - value); }
    if bits < 64 || value < 0 { Signed64Id(-max - 1 - value); }
  }

  lemma VerdictCases(value: int, incr: int, full: bool, ow: Overflow, max: int, maxincr: int, minincr: int, w: int)
    requires -max - 1 <= value <= max && IsInt64(incr) && (full ==> max == I64 - 1)
    requires !full || value >= 0 ==> maxincr == max - value
    requires !full || value < 0 ==> minincr == -max - 1 - value
    ensures var x := value + incr;
            SignedVerdict(value, incr, full, ow, max, maxincr, minincr, w) ==
            if x > max then (1, match ow case Wrap => w case Sat => max case Fail => 0)
            else if x < -max - 1 then
              (if ow == Wrap then 1 else -1, match ow case Wrap => w case Sat => -max - 1 case Fail => 0)
            else (0, 0)
  {
  }

  lemma CheckSignedIs(value: int, incr: int, bits: nat, ow: Overflow)
    requires 1 <= bits <= 64
    ensures var max := Pow2(bits - 1) - 1;
            CheckSigned(value, incr, bits, ow) ==
            SignedVerdict(value, incr, bits == 64, ow, max, Signed64(Unsigned64(max - value)),
                          Signed64(Unsigned64(-max - 1 - value)), Wrapped(Kind(true, bits), value + incr))
  {
    hide Pow2, Unsigned64, Signed64, SignExtended, Wrapped, SignedVerdict;
    SignedWrap(value + incr, bits);
  }

  /** The signed check, without 64-bit arithmetic. */
  lemma SignedCases(value: int, incr: int, bits: nat, ow: Overflow)
    requires 1 <= bits <= 64 && IsInt64(incr) && Fits(Kind(true, bits), value)
    ensures var k := Kind(true, bits);
            var x := value + incr;
            CheckSigned(value, incr, bits, ow) ==
            if x > Max(k) then (1, match ow case Wrap => Wrapped(k, x) case Sat => Max(k) case Fail => 0)
            else if x < -Max(k) - 1 then
              (if ow == Wrap then 1 else -1, match ow case Wrap => Wrapped(k, x) case Sat => -Max(k) - 1 case Fail => 0)
            else (0, 0)
  {
    hide Pow2, Unsigned64, Signed64, Wrapped, SignedVerdict, CheckSigned;
    var max := Pow2(bits - 1) - 1;
    var maxincr, minincr := Signed64(Unsigned64(max - value)), Signed64(Unsigned64(-max - 1 - value));
    CheckSignedIs(value, incr, bits, ow);
    SignedBounds(value, bits);
    FullWidth(bits);
    VerdictCases(value, incr, bits == 64, ow, max, maxincr, minincr, Wrapped(Kind(true, bits), value + incr));
  }

  lemma FullWidth(bits: nat)
    requires 1 <= bits <= 64
    ensures bits == 64 ==> Pow2(bits - 1) == I64
  {
    LargePowers();
  }

  /** The signed check, for a value of the type. */
  lemma SignedCheck(value: int, incr: int, bits: nat, ow: Overflow)
    requires 1 <= bits <= 64 && IsInt64(incr) && Fits(Kind(true, bits), value)
    ensures var k := Kind(true, bits);
            var (o, limit) := CheckSigned(value, incr, bits, ow);
            && (o == 0 <==> Fits(k, value + incr))
            && (o != 0 && ow != Fail ==> Stored(k, ow, value + incr) == Some(limit))
  {
    SignedCases(value, incr, bits, ow);
    WidthBounds(bits);
    hide CheckSigned, Wrapped, Pow2;
  }
}
