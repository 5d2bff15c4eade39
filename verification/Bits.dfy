/** Strings as rows of bits, numbered from the most significant bit of the first byte. */
module Bits {

  type Bytes = seq<bv8>

  /** The bit number `k` of a byte, as a mask. */
  function Mask(k: nat): bv8
    requires k < 8
  {
    if k == 0 then 0x80 else if k == 1 then 0x40 else if k == 2 then 0x20 else if k == 3 then 0x10
    else if k == 4 then 0x08 else if k == 5 then 0x04 else if k == 6 then 0x02 else 0x01
  }

  predicate Bit(b: bv8, k: nat)
    requires k < 8
  {
    b & Mask(k) != 0
  }

  function One(v: bool): nat {
    if v then 1 else 0
  }

  predicate BitAt(s: Bytes, i: nat)
    requires i < 8 * |s|
  {
    Bit(s[i / 8], i % 8)
  }

  /** The string continued with zero bits. */
  predicate PadBit(s: Bytes, i: nat) {
    i < 8 * |s| && BitAt(s, i)
  }

  /** The number of set bits of a byte: what bitsinbyte holds. */
  function Pop8(b: bv8): nat {
    One(Bit(b, 0)) + One(Bit(b, 1)) + One(Bit(b, 2)) + One(Bit(b, 3))
    + One(Bit(b, 4)) + One(Bit(b, 5)) + One(Bit(b, 6)) + One(Bit(b, 7))
  }

  /** The number of set bits from position `lo` up to but not including `hi`. */
  function CountBits(s: Bytes, lo: nat, hi: nat): nat
    requires hi <= 8 * |s|
    decreases hi
  {
    if hi <= lo then 0 else CountBits(s, lo, hi - 1) + One(BitAt(s, hi - 1))
  }

  lemma {:induction false} CountSplit(s: Bytes, lo: nat, mid: nat, hi: nat)
    requires lo <= mid <= hi <= 8 * |s|
    ensures CountBits(s, lo, hi) == CountBits(s, lo, mid) + CountBits(s, mid, hi)
    decreases hi
  {
    if mid < hi { CountSplit(s, lo, mid, hi - 1); }
  }

  /** The bits of byte `j`, one by one. */
  lemma ByteBit(s: Bytes, j: nat, k: nat)
    requires j < |s| && k < 8
    ensures 8 * j + k < 8 * |s| && BitAt(s, 8 * j + k) == Bit(s[j], k)
  {
    assert (8 * j + k) / 8 == j && (8 * j + k) % 8 == k;
  }

  /** The set bits among the first `k` of a byte. */
  function Pop8To(b: bv8, k: nat): nat
    requires k <= 8
  {
    if k == 0 then 0 else Pop8To(b, k - 1) + One(Bit(b, k - 1))
  }

  lemma {:induction false} CountInByte(s: Bytes, j: nat, k: nat)
    requires j < |s| && k <= 8
    ensures CountBits(s, 8 * j, 8 * j + k) == Pop8To(s[j], k)
    decreases k
  {
    if k > 0 {
      CountInByte(s, j, k - 1);
      ByteBit(s, j, k - 1);
    }
  }

  lemma Pop8ToAll(b: bv8)
    ensures Pop8To(b, 8) == Pop8(b)
  {
    hide Bit;
    assert Pop8To(b, 1) == Pop8To(b, 0) + One(Bit(b, 0));
    assert Pop8To(b, 2) == Pop8To(b, 1) + One(Bit(b, 1));
    assert Pop8To(b, 3) == Pop8To(b, 2) + One(Bit(b, 2));
    assert Pop8To(b, 4) == Pop8To(b, 3) + One(Bit(b, 3));
    assert Pop8To(b, 5) == Pop8To(b, 4) + One(Bit(b, 4));
    assert Pop8To(b, 6) == Pop8To(b, 5) + One(Bit(b, 5));
    assert Pop8To(b, 7) == Pop8To(b, 6) + One(Bit(b, 6));
  }

  /** The set bits of a whole string, byte by byte. */
  function PopBytes(s: Bytes): nat {
    if s == [] then 0 else PopBytes(s[..|s| - 1]) + Pop8(s[|s| - 1])
  }

  lemma {:induction false} PopBytesAppend(a: Bytes, b: Bytes)
    ensures PopBytes(a + b) == PopBytes(a) + PopBytes(b)
    decreases |b|
  {
    hide Pop8;
    if b == [] {
      assert a + b == a;
    } else {
      var n := |b| - 1;
      assert (a + b)[..|a + b| - 1] == a + b[..n];
      PopBytesAppend(a, b[..n]);
    }
  }

  lemma {:induction false} CountIsPop(s: Bytes, lo: nat, hi: nat)
    requires lo <= hi <= |s|
    ensures CountBits(s, 8 * lo, 8 * hi) == PopBytes(s[lo..hi])
    decreases hi
  {
    hide Pop8, BitAt;
    if lo < hi {
      CountIsPop(s, lo, hi - 1);
      CountSplit(s, 8 * lo, 8 * (hi - 1), 8 * hi);
      CountInByte(s, hi - 1, 8);
      Pop8ToAll(s[hi - 1]);
      assert s[lo..hi][..hi - lo - 1] == s[lo..hi - 1];
    }
  }

  lemma SliceBit(s: Bytes, p: nat, q: nat, i: nat)
    requires p <= q <= |s| && i < 8 * (q - p)
    ensures BitAt(s[p..q], i) == BitAt(s, 8 * p + i)
  {
    assert (8 * p + i) / 8 == p + i / 8 && (8 * p + i) % 8 == i % 8;
  }

  // ---------------------------------------------------------------- numbers in bits

  function Pow2(n: nat): nat {
    if n == 0 then 1 else 2 * Pow2(n - 1)
  }

  /** The number that `n` bits from position `off` on stand for, most significant bit first. */
  function Value(s: Bytes, off: nat, n: nat): nat
    requires off + n <= 8 * |s|
  {
    if n == 0 then 0 else 2 * Value(s, off, n - 1) + One(BitAt(s, off + n - 1))
  }

  lemma {:induction false} Pow2Positive(n: nat)
    ensures Pow2(n) >= 1
  {
    if n > 0 { Pow2Positive(n - 1); }
  }

  lemma {:induction false} Pow2Add(a: nat, b: nat)
    ensures Pow2(a + b) == Pow2(a) * Pow2(b)
    decreases b
  {
    if b > 0 { Pow2Add(a, b - 1); }
  }

  lemma {:induction false} ValueBound(s: Bytes, off: nat, n: nat)
    requires off + n <= 8 * |s|
    ensures Value(s, off, n) < Pow2(n)
  {
    if n > 0 { ValueBound(s, off, n - 1); }
  }

  lemma HalfThenDivide(x: nat, b: nat)
    requires b > 0
    ensures x / 2 / b == x / (2 * b)
  {
    var q := x / 2;
    var p, t := q / b, q % b;
    assert q == p * b + t;
    assert p * (2 * b) == 2 * (p * b);
    Quotient(x, p, 2 * t + x % 2, 2 * b);
  }

  lemma DivideThenHalf(x: nat, m: nat)
    requires m > 0
    ensures x / m / 2 == x / (2 * m)
  {
    var q, r := x / m, x % m;
    var p, t := q / 2, q % 2;
    assert x == q * m + r;
    assert (2 * p + t) * m == p * (2 * m) + t * m;
    assert t * m == 0 || t * m == m;
    Quotient(x, p, t * m + r, 2 * m);
  }

  lemma HalfModulo(v: nat, m: nat)
    requires m > 0
    ensures v % (2 * m) == 2 * (v / 2 % m) + v % 2
  {
    var h := v / 2;
    var q, r := h / m, h % m;
    assert h == q * m + r;
    assert q * (2 * m) == 2 * (q * m);
    Quotient(v, q, 2 * r + v % 2, 2 * m);
  }

  lemma Quotient(x: nat, q: nat, r: nat, m: nat)
    requires m > 0 && x == q * m + r && r < m
    ensures x % m == r && x / m == q
  {
    var k := x / m - q;
    assert k * m == r - x % m;
    assert k >= 1 ==> k * m >= m;
  }

  /** Dropping the last bits leaves the number of the first ones. */
  lemma {:induction false} ValuePrefix(s: Bytes, off: nat, n: nat, k: nat)
    requires k <= n && off + n <= 8 * |s|
    ensures Pow2(n - k) > 0 && Value(s, off, n) / Pow2(n - k) == Value(s, off, k)
    decreases n
  {
    hide BitAt;
    Pow2Positive(n - k);
    if k < n {
      ValuePrefix(s, off, n - 1, k);
      Pow2Positive(n - 1 - k);
      HalfThenDivide(Value(s, off, n), Pow2(n - 1 - k));
    }
  }

  const U64: nat := 0x1_0000_0000_0000_0000
  const I64: nat := 0x8000_0000_0000_0000

  lemma SmallPowers()
    ensures Pow2(1) == 2 && Pow2(2) == 4 && Pow2(4) == 16 && Pow2(8) == 256
  {
    assert Pow2(4) == 16;
  }

  lemma LargePowers()
    ensures Pow2(64) == U64 && Pow2(63) == I64 && Pow2(62) == I64 / 2 && Pow2(56) == U64 / 256
  {
    hide Pow2;
    SmallPowers();
    Pow2Add(8, 8);
    Pow2Add(16, 16);
    Pow2Add(32, 16);
    Pow2Add(48, 8);
    Pow2Add(56, 4);
    Pow2Add(60, 2);
    Pow2Add(62, 1);
    Pow2Add(63, 1);
  }

  lemma {:induction false} Pow2Monotone(a: nat, b: nat)
    requires a <= b
    ensures Pow2(a) <= Pow2(b)
    decreases b
  {
    if a < b { Pow2Monotone(a, b - 1); }
  }

  lemma {:induction false} ValueSlice(s: Bytes, p: nat, q: nat, i: nat, n: nat)
    requires p <= q <= |s| && i + n <= 8 * (q - p)
    ensures Value(s[p..q], i, n) == Value(s, 8 * p + i, n)
    decreases n
  {
    hide BitAt;
    if n > 0 {
      ValueSlice(s, p, q, i, n - 1);
      SliceBit(s, p, q, i + n - 1);
    }
  }
}
