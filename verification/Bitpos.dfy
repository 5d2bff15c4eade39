/** The first bit with a given value: redisBitpos and the range logic of BITPOS. */
module Bitpos {
  import opened Bits
  import opened Bitcount

  // ---------------------------------------------------------------- what is asked for

  /** `pos` is the first position whose bit is `bit` in the string continued with zeros; -1 when
      there is none, which can only happen for a set bit. */
  ghost predicate IsFirst(s: Bytes, bit: bool, pos: int) {
    if pos == -1 then bit && forall i: nat :: !PadBit(s, i)
    else 0 <= pos <= 8 * |s| && PadBit(s, pos) == bit && forall i: nat :: i < pos ==> PadBit(s, i) != bit
  }

  /** No bit before position `n` is `bit`. */
  ghost predicate NoneBefore(s: Bytes, bit: bool, n: nat) {
    n <= 8 * |s| && forall i: nat :: i < n ==> BitAt(s, i) != bit
  }

  // ---------------------------------------------------------------- bytes and words

  /** A byte without the wanted bit. */
  function SkipByte(bit: bool): bv8 {
    if bit then 0 else 0xFF
  }

  lemma SkipBits(b: bv8, bit: bool, k: nat)
    requires k < 8
    ensures b == SkipByte(bit) ==> Bit(b, k) != bit
  {
  }

  /** The number a byte stands for. */
  function ByteValue(b: bv8): nat {
    128 * One(Bit(b, 0)) + 64 * One(Bit(b, 1)) + 32 * One(Bit(b, 2)) + 16 * One(Bit(b, 3))
    + 8 * One(Bit(b, 4)) + 4 * One(Bit(b, 5)) + 2 * One(Bit(b, 6)) + One(Bit(b, 7))
  }

  /** The eight bytes that the word is loaded from: the rest of the string and zeros. */
  function WordBytes(s: Bytes, c: nat): (w: Bytes)
    ensures |w| == 8
  {
    seq(8, i requires 0 <= i => if c + i < |s| then s[c + i] else 0)
  }

  lemma WordBit(s: Bytes, c: nat, i: nat)
    requires c <= |s| && i < 64
    ensures BitAt(WordBytes(s, c), i) == PadBit(s, 8 * c + i)
  {
    var w := WordBytes(s, c);
    var j, k := i / 8, i % 8;
    assert (8 * c + i) / 8 == c + j && (8 * c + i) % 8 == k;
    assert !Bit(0, k) by { SkipBits(0, true, k); }
    assert w[j] == if c + j < |s| then s[c + j] else 0;
  }

  lemma ByteInWord(w: Bytes, j: nat)
    requires j < |w|
    ensures Value(w, 0, 8 * j + 8) == 256 * Value(w, 0, 8 * j) + ByteValue(w[j])
  {
    hide BitAt, Bit;
    forall k | 0 <= k < 8
      ensures BitAt(w, 8 * j + k) == Bit(w[j], k)
    {
      ByteBit(w, j, k);
    }
    var n := 8 * j;
    assert BitAt(w, n + 0) == Bit(w[j], 0);
    assert Value(w, 0, n + 1) == 2 * Value(w, 0, n) + One(Bit(w[j], 0));
    assert Value(w, 0, n + 2) == 2 * Value(w, 0, n + 1) + One(Bit(w[j], 1));
    assert Value(w, 0, n + 3) == 2 * Value(w, 0, n + 2) + One(Bit(w[j], 2));
    assert Value(w, 0, n + 4) == 2 * Value(w, 0, n + 3) + One(Bit(w[j], 3));
    assert Value(w, 0, n + 5) == 2 * Value(w, 0, n + 4) + One(Bit(w[j], 4));
    assert Value(w, 0, n + 6) == 2 * Value(w, 0, n + 5) + One(Bit(w[j], 5));
    assert Value(w, 0, n + 7) == 2 * Value(w, 0, n + 6) + One(Bit(w[j], 6));
    assert Value(w, 0, n + 8) == 2 * Value(w, 0, n + 7) + One(Bit(w[j], 7));
  }

  /** Loading the word, most significant byte first, padded with zeros on the right. */
  method LoadWord(s: Bytes, c0: nat) returns (word: nat)
    requires c0 <= |s|
    ensures word == Value(WordBytes(s, c0), 0, 64) && word < U64
  {
    hide Value, ByteValue, Pow2;
    ghost var w := WordBytes(s, c0);
    word := 0;
    var c, j := c0, 0;
    NoValue(w);
    while j < 8
      invariant 0 <= j <= 8 && c == (if c0 + j < |s| then c0 + j else |s|)
      invariant word == Value(w, 0, 8 * j)
    {
      ValueBound(w, 0, 8 * j);
      Pow2Monotone(8 * j, 56);
      LargePowers();
      ByteInWord(w, j);
      word := word * 256 % U64;
      ZeroValue();
      if c < |s| {
        word := word + ByteValue(s[c]);
        c := c + 1;
      }
      j := j + 1;
    }
    ValueBound(w, 0, 64);
    LargePowers();
  }

  lemma NoValue(w: Bytes)
    ensures Value(w, 0, 0) == 0
  {
  }

  lemma ZeroValue()
    ensures ByteValue(0) == 0
  {
  }

  /** Testing the bit under the mask `one` == 2^(63 - i). */
  lemma ScanBit(w: Bytes, i: nat)
    requires |w| == 8 && i < 64
    ensures Pow2(63 - i) > 0 && Value(w, 0, 64) / Pow2(63 - i) % 2 == One(BitAt(w, i))
  {
    LastBit(w, i);
    hide Value, BitAt, Pow2;
    ValuePrefix(w, 0, 64, i + 1);
  }

  lemma LastBit(w: Bytes, i: nat)
    requires i < 8 * |w|
    ensures Value(w, 0, i + 1) % 2 == One(BitAt(w, i))
  {
    hide BitAt;
    assert Value(w, 0, i + 1) == 2 * Value(w, 0, i) + One(BitAt(w, i));
    hide Value;
    LastDigit(Value(w, 0, i), One(BitAt(w, i)));
  }

  lemma LastDigit(x: nat, b: nat)
    requires b < 2
    ensures (2 * x + b) % 2 == b
  {
  }

  lemma {:induction false} AllZero(w: Bytes, n: nat)
    requires n <= 8 * |w| && Value(w, 0, n) == 0
    ensures forall i: nat :: i < n ==> !BitAt(w, i)
  {
    hide BitAt;
    if n > 0 { AllZero(w, n - 1); }
  }

  // ---------------------------------------------------------------- redisBitpos

  lemma ByteHasBit(b: bv8, bit: bool) returns (k: nat)
    requires b != SkipByte(bit)
    ensures k < 8 && Bit(b, k) == bit
  {
    if Bit(b, 0) == bit { k := 0; }
    else if Bit(b, 1) == bit { k := 1; }
    else if Bit(b, 2) == bit { k := 2; }
    else if Bit(b, 3) == bit { k := 3; }
    else if Bit(b, 4) == bit { k := 4; }
    else if Bit(b, 5) == bit { k := 5; }
    else if Bit(b, 6) == bit { k := 6; }
    else { k := 7; }
  }

  /** Why the skipping loops stopped: a byte among the next eight is not the skipped one, or the
      string ends within the word. */
  predicate Stopped(s: Bytes, bit: bool, c: nat) {
    c <= |s| && (|s| - c < 8 || exists j :: c <= j < c + 8 && s[j] != SkipByte(bit))
  }

  lemma HasByte(w: Bytes, bit: bool, j: nat) returns (k: nat)
    requires j < |w| == 8 && w[j] != SkipByte(bit)
    ensures k < 64 && BitAt(w, k) == bit
  {
    var x := ByteHasBit(w[j], bit);
    ByteBit(w, j, x);
    k := 8 * j + x;
  }

  /** The word contains the wanted bit, or it is all zeros and a set bit was wanted. */
  lemma WordHasBit(s: Bytes, bit: bool, c: nat) returns (k: nat)
    requires Stopped(s, bit, c) && !(bit && Value(WordBytes(s, c), 0, 64) == 0)
    ensures k < 64 && BitAt(WordBytes(s, c), k) == bit
  {
    hide BitAt;
    var w := WordBytes(s, c);
    if |s| - c >= 8 {
      var j :| c <= j < c + 8 && s[j] != SkipByte(bit);
      assert w[j - c] == s[j];
      k := HasByte(w, bit, j - c);
    } else if !bit {
      k := HasByte(w, bit, 7);
    } else {
      k := NotAllZero(w, 64);
    }
  }

  lemma {:induction false} NotAllZero(w: Bytes, n: nat) returns (k: nat)
    requires n <= 8 * |w| && Value(w, 0, n) != 0
    ensures k < n && BitAt(w, k)
  {
    hide BitAt;
    if BitAt(w, n - 1) {
      k := n - 1;
    } else {
      k := NotAllZero(w, n - 1);
    }
  }

  lemma SkippedByte(s: Bytes, bit: bool, c: nat)
    requires NoneBefore(s, bit, 8 * c) && c < |s| && s[c] == SkipByte(bit)
    ensures NoneBefore(s, bit, 8 * c + 8)
  {
    forall i: nat | i < 8 * c + 8
      ensures BitAt(s, i) != bit
    {
      if i >= 8 * c {
        ByteBit(s, c, i - 8 * c);
        SkipBits(s[c], bit, i - 8 * c);
      }
    }
  }

  lemma {:induction false} SkippedBytes(s: Bytes, bit: bool, c: nat, n: nat)
    requires NoneBefore(s, bit, 8 * c) && c + n <= |s|
    requires forall j :: c <= j < c + n ==> s[j] == SkipByte(bit)
    ensures NoneBefore(s, bit, 8 * (c + n))
    decreases n
  {
    hide NoneBefore, SkipByte;
    if n > 0 {
      SkippedBytes(s, bit, c, n - 1);
      SkippedByte(s, bit, c + (n - 1));
    }
  }

  /** The unaligned bytes, then whole words, that do not contain the bit. */
  method SkipWords(s: Bytes, addr: nat, bit: bool) returns (c: nat)
    ensures NoneBefore(s, bit, 8 * c) && Stopped(s, bit, c)
  {
    hide NoneBefore, SkipByte;
    c := 0;
    NothingBefore(s, bit);
    while (addr + c) % 8 != 0 && c < |s|
      invariant 0 <= c <= |s| && NoneBefore(s, bit, 8 * c)
      decreases |s| - c
    {
      if s[c] != SkipByte(bit) {
        return;
      }
      SkippedByte(s, bit, c);
      c := c + 1;
    }
    while |s| - c >= 8
      invariant 0 <= c <= |s| && NoneBefore(s, bit, 8 * c)
      decreases |s| - c
    {
      if exists j :: c <= j < c + 8 && s[j] != SkipByte(bit) {
        return;
      }
      SkippedBytes(s, bit, c, 8);
      c := c + 8;
    }
  }

  lemma NothingBefore(s: Bytes, bit: bool)
    ensures NoneBefore(s, bit, 0)
  {
  }

  lemma NotFound(s: Bytes, c: nat)
    requires NoneBefore(s, true, 8 * c) && Stopped(s, true, c) && Value(WordBytes(s, c), 0, 64) == 0
    ensures IsFirst(s, true, -1)
  {
    var w := WordBytes(s, c);
    AllZero(w, 64);
    assert |s| - c < 8 by { if |s| - c >= 8 { OnlyZeros(s, c); } }
    forall i: nat
      ensures !PadBit(s, i)
    {
      if 8 * c <= i < 8 * c + 64 { WordBit(s, c, i - 8 * c); }
    }
  }

  lemma OnlyZeros(s: Bytes, c: nat)
    requires c + 8 <= |s| && forall i: nat :: i < 64 ==> !BitAt(WordBytes(s, c), i)
    ensures !Stopped(s, true, c)
  {
    var w := WordBytes(s, c);
    forall j | c <= j < c + 8
      ensures s[j] == SkipByte(true)
    {
      assert w[j - c] == s[j];
      if s[j] != SkipByte(true) { var k := HasByte(w, true, j - c); }
    }
  }

  lemma Found(s: Bytes, bit: bool, c: nat, i: nat)
    requires NoneBefore(s, bit, 8 * c) && c <= |s| && i < 64 && BitAt(WordBytes(s, c), i) == bit
    requires forall k: nat :: k < i ==> BitAt(WordBytes(s, c), k) != bit
    ensures IsFirst(s, bit, 8 * c + i)
  {
    hide BitAt;
    WordBit(s, c, i);
    forall k: nat | k < 8 * c + i
      ensures PadBit(s, k) != bit
    {
      if k >= 8 * c { WordBit(s, c, k - 8 * c); }
    }
    assert !PadBit(s, 8 * |s|);
  }

  /** redisBitpos on a string at address `addr`; the panic at its end is never reached. */
  method RedisBitpos(s: Bytes, addr: nat, bit: bool) returns (pos: int)
    ensures IsFirst(s, bit, pos)
  {
    hide BitAt, NoneBefore, IsFirst, Stopped, Value, Pow2;
    var c := SkipWords(s, addr, bit);
    assert c <= |s| by { StoppedWithin(s, bit, c); }
    var word := LoadWord(s, c);
    ghost var w := WordBytes(s, c);
    if bit && word == 0 {
      NotFound(s, c);
      return -1;
    }
    ghost var target := WordHasBit(s, bit, c);
    var one := U64 / 2;
    LargePowers();
    pos := 8 * c;
    ghost var i := 0;
    while one > 0
      invariant 0 <= i <= target && pos == 8 * c + i && one == Pow2(63 - i)
      invariant forall k: nat :: k < i ==> BitAt(w, k) != bit
      decreases 64 - i
    {
      ScanBit(w, i);
      if (word / one % 2 == 1) == bit {
        Found(s, bit, c, i);
        return;
      }
      HalfPow(63 - i);
      pos := pos + 1;
      one := one / 2;
      i := i + 1;
    }
    Pow2Positive(63 - i);
    assert false;
  }

  lemma StoppedWithin(s: Bytes, bit: bool, c: nat)
    requires Stopped(s, bit, c)
    ensures c <= |s|
  {
  }

  lemma HalfPow(n: nat)
    ensures n > 0 ==> Pow2(n) / 2 == Pow2(n - 1)
  {
  }

  // ---------------------------------------------------------------- BITPOS

  ghost predicate NoneIn(s: Bytes, bit: bool, a: nat, b: nat) {
    b <= 8 * |s| && forall i: nat :: a <= i < b ==> BitAt(s, i) != bit
  }

  /** The answer for the bit positions from `a` up to but not including `b`: the first match; if
      there is none -1, or `b` itself when zeros are assumed to follow and a zero is wanted. */
  ghost predicate IsAnswer(s: Bytes, bit: bool, a: nat, b: nat, padded: bool, pos: int) {
    b <= 8 * |s| &&
    if pos == -1 then NoneIn(s, bit, a, b) && (bit || !padded)
    else if pos == b then NoneIn(s, bit, a, b) && !bit && padded
    else a <= pos < b && BitAt(s, pos) == bit && NoneIn(s, bit, a, pos)
  }

  /** How a search in part of the string came out, relative to its start `from`. */
  ghost predicate Searched(s: Bytes, bit: bool, from: nat, a: nat, b: nat, len: nat, pos: int) {
    b <= 8 * |s| &&
    if pos == -1 then bit && NoneIn(s, bit, a, b)
    else if pos == len then !bit && NoneIn(s, bit, a, b)
    else a <= from + pos < b && BitAt(s, from + pos) == bit && NoneIn(s, bit, a, from + pos)
  }

  lemma SliceSearched(s: Bytes, bit: bool, p: nat, q: nat, pos: int)
    requires p < q <= |s| && IsFirst(s[p..q], bit, pos)
    ensures Searched(s, bit, 8 * p, 8 * p, 8 * q, 8 * (q - p), pos)
  {
    hide BitAt;
    var t := s[p..q];
    var n := 8 * (q - p);
    forall i: nat | i < n
      ensures PadBit(t, i) == BitAt(s, 8 * p + i)
    {
      SliceBit(s, p, q, i);
    }
    assert !PadBit(t, n);
    forall i: nat | 8 * p <= i < (if pos == -1 then 8 * q else 8 * p + pos)
      ensures BitAt(s, i) != bit
    {
      assert PadBit(t, i - 8 * p) == BitAt(s, i);
    }
  }

  /** A byte with the positions outside the range set so that they cannot match. */
  function Hidden(b: bv8, m: bv8, bit: bool): bv8 {
    if bit then b & !m else b | m
  }

  lemma HiddenBit(b: bv8, m: bv8, bit: bool, k: nat)
    requires k < 8
    ensures Bit(Hidden(b, m, bit), k) == if Bit(m, k) then !bit else Bit(b, k)
  {
  }

  /** Only the bits from `x` up to but not including `y` can match in `t`. */
  ghost predicate Window(t: bv8, b: bv8, bit: bool, x: nat, y: nat) {
    forall k: nat :: k < 8 ==> Bit(t, k) == if x <= k < y then Bit(b, k) else !bit
  }

  ghost predicate FirstInByte(t: bv8, bit: bool, pos: int) {
    if pos == -1 || pos == 8 then bit == (pos == -1) && forall k: nat :: k < 8 ==> Bit(t, k) != bit
    else 0 <= pos < 8 && Bit(t, pos) == bit && forall k: nat :: k < pos ==> Bit(t, k) != bit
  }

  lemma OneByte(t: bv8, bit: bool, pos: int)
    requires IsFirst([t], bit, pos)
    ensures FirstInByte(t, bit, pos)
  {
    hide Bit;
    forall k: nat | k < 8
      ensures PadBit([t], k) == Bit(t, k)
    {
      ByteBit([t], 0, k);
    }
    hide BitAt;
    assert !PadBit([t], 8);
  }

  lemma ByteSearched(s: Bytes, bit: bool, j: nat, t: bv8, x: nat, y: nat, pos: int)
    requires j < |s| && x < y <= 8 && Window(t, s[j], bit, x, y) && IsFirst([t], bit, pos)
    ensures Searched(s, bit, 8 * j, 8 * j + x, 8 * j + y, 8, pos)
  {
    hide Bit, IsFirst, BitAt;
    OneByte(t, bit, pos);
    if 0 <= pos < 8 {
      ByteBit(s, j, pos);
    }
    forall i: nat | 8 * j + x <= i < (if pos == -1 || pos == 8 then 8 * j + y else 8 * j + pos) && i < 8 * j + y
      ensures BitAt(s, i) != bit
    {
      ByteBit(s, j, i - 8 * j);
      assert Bit(t, i - 8 * j) == Bit(s[j], i - 8 * j);
    }
  }

  lemma FirstWindow(b: bv8, bit: bool, k: nat, t: bv8)
    requires k < 8 && t == Hidden(b, FirstNegMask(k), bit)
    ensures Window(t, b, bit, k, 8)
  {
    hide Bit, FirstNegMask, Hidden;
    forall j: nat | j < 8
      ensures Bit(t, j) == if k <= j < 8 then Bit(b, j) else !bit
    {
      HiddenBit(b, FirstNegMask(k), bit, j);
      MaskBits(k, j);
    }
  }

  lemma LastWindow(b: bv8, bit: bool, x: nat, l: nat, t0: bv8, t: bv8)
    requires x <= l < 8 && Window(t0, b, bit, x, 8) && t == Hidden(t0, LastNegMask(l), bit)
    ensures Window(t, b, bit, x, l + 1)
  {
    hide Bit, LastNegMask, Hidden;
    forall j: nat | j < 8
      ensures Bit(t, j) == if x <= j < l + 1 then Bit(b, j) else !bit
    {
      HiddenBit(t0, LastNegMask(l), bit, j);
      MaskBits(l, j);
    }
  }

  lemma PlainWindow(b: bv8, bit: bool)
    ensures Window(b, b, bit, 0, 8)
  {
  }

  /** A zero mask leaves the whole byte. */
  lemma ZeroMasks(k: nat)
    requires k < 8
    ensures FirstNegMask(k) == 0 <==> k == 0
    ensures LastNegMask(k) == 0 <==> k == 7
  {
  }

  lemma Joined(s: Bytes, bit: bool, a: nat, m: nat, b: nat)
    requires NoneIn(s, bit, a, m) && NoneIn(s, bit, m, b)
    ensures NoneIn(s, bit, a, b)
  {
  }

  /** The last part of a search decides the answer for the whole range. */
  lemma Concluded(s: Bytes, bit: bool, a: nat, from: nat, m: nat, b: nat, len: nat, padded: bool, pos: int)
    requires a <= m && NoneIn(s, bit, a, m) && Searched(s, bit, from, m, b, len, pos) && from + len >= b
    requires padded ==> from + len == b
    ensures IsAnswer(s, bit, a, b, padded,
                     if !padded && !bit && pos == len then -1 else if pos == -1 then -1 else pos + from)
  {
    hide BitAt;
  }

  /** A hit in an early part decides as well. */
  lemma Hit(s: Bytes, bit: bool, a: nat, from: nat, m: nat, e: nat, b: nat, len: nat, padded: bool, pos: int)
    requires a <= m && NoneIn(s, bit, a, m) && Searched(s, bit, from, m, e, len, pos) && pos != -1 && pos != len
    requires e <= b <= 8 * |s|
    ensures IsAnswer(s, bit, a, b, padded, pos + from)
  {
    hide BitAt;
  }

  /** The search of BITPOS in the bit range from `a` to `last`, with the masks of both edges. */
  method SearchBits(s: Bytes, addr: nat, bit: bool, a: nat, last: nat) returns (pos: int)
    requires a <= last < 8 * |s|
    ensures IsAnswer(s, bit, a, last + 1, false, pos)
  {
    hide BitAt, NoneIn, IsAnswer, Searched, Window, FirstNegMask, LastNegMask, Hidden, IsFirst;
    var first, end := a / 8, last / 8;
    var firstMask, lastMask := FirstNegMask(a % 8), LastNegMask(last % 8);
    ZeroMasks(a % 8);
    ZeroMasks(last % 8);
    ghost var b := last + 1;
    var start, bytes := first, end - first + 1;
    NothingIn(s, bit, a);
    ghost var m := a;
    if firstMask != 0 {
      var t := Hidden(s[start], firstMask, bit);
      FirstWindow(s[start], bit, a % 8, t);
      ghost var y := 8;
      if lastMask != 0 && bytes == 1 {
        var t' := Hidden(t, lastMask, bit);
        LastWindow(s[start], bit, a % 8, last % 8, t, t');
        t, y := t', last % 8 + 1;
      }
      pos := RedisBitpos([t], 0, bit);
      ByteSearched(s, bit, start, t, a % 8, y, pos);
      if bytes == 1 {
        Concluded(s, bit, a, 8 * start, a, b, 8, false, pos);
        return if !bit && pos == 8 then -1 else if pos == -1 then -1 else pos + 8 * start;
      }
      if pos != -1 && pos != 8 {
        Hit(s, bit, a, 8 * start, a, 8 * start + 8, b, 8, false, pos);
        return pos + 8 * start;
      }
      m := 8 * start + 8;
      NoMatch(s, bit, 8 * start, a, m, 8, pos);
      start, bytes := start + 1, bytes - 1;
    }
    assert m == 8 * start && NoneIn(s, bit, a, m);
    var cur := bytes - (if lastMask != 0 then 1 else 0);
    if cur > 0 {
      pos := RedisBitpos(s[start..start + cur], addr + start, bit);
      SliceSearched(s, bit, start, start + cur, pos);
      if bytes == cur {
        Concluded(s, bit, a, 8 * start, m, b, 8 * cur, false, pos);
        return if !bit && pos == 8 * bytes then -1 else if pos == -1 then -1 else pos + 8 * start;
      }
      if pos != -1 && pos != 8 * cur {
        Hit(s, bit, a, 8 * start, m, 8 * (start + cur), b, 8 * cur, false, pos);
        return pos + 8 * start;
      }
      NoMatch(s, bit, 8 * start, m, 8 * (start + cur), 8 * cur, pos);
      Joined(s, bit, a, m, 8 * (start + cur));
      start, bytes := start + cur, bytes - cur;
      m := 8 * start;
    }
    assert start == end && bytes == 1;
    var t := Hidden(s[end], lastMask, bit);
    PlainWindow(s[end], bit);
    LastWindow(s[end], bit, 0, last % 8, s[end], t);
    pos := RedisBitpos([t], 0, bit);
    ByteSearched(s, bit, end, t, 0, last % 8 + 1, pos);
    Concluded(s, bit, a, 8 * end, m, b, 8, false, pos);
    pos := if !bit && pos == 8 then -1 else if pos == -1 then -1 else pos + 8 * start;
  }

  lemma NothingIn(s: Bytes, bit: bool, a: nat)
    requires a <= 8 * |s|
    ensures NoneIn(s, bit, a, a)
  {
  }

  lemma NoMatch(s: Bytes, bit: bool, from: nat, a: nat, b: nat, len: nat, pos: int)
    requires Searched(s, bit, from, a, b, len, pos) && (pos == -1 || pos == len)
    ensures NoneIn(s, bit, a, b)
  {
  }

  /** BITPOS on an existing string; without an end the range runs to the end of the string and
      zeros are assumed to follow it. */
  method BitposCommand(s: Bytes, addr: nat, bit: bool, start: int, end: int, endGiven: bool, isBit: bool)
    returns (pos: int)
    requires !endGiven ==> !isBit && end == |s| - 1
    ensures var n := if isBit then 8 * |s| else |s|;
            var lo, hi := NormalStart(start, n), NormalEnd(end, n);
            var unit := if isBit then 1 else 8;
            if lo > hi then pos == -1
            else IsAnswer(s, bit, unit * lo, unit * (hi + 1), !endGiven, pos)
  {
    hide BitAt, NoneIn, IsAnswer, Searched, IsFirst;
    var total := if isBit then 8 * |s| else |s|;
    var a, b := start, end;
    if a < 0 { a := total + a; }
    if b < 0 { b := total + b; }
    if a < 0 { a := 0; }
    if b < 0 { b := 0; }
    if b >= total { b := total - 1; }
    assert a == NormalStart(start, total) && b == NormalEnd(end, total);
    if a > b {
      return -1;
    }
    if isBit {
      pos := SearchBits(s, addr, bit, a, b);
    } else {
      var bytes := b - a + 1;
      pos := RedisBitpos(s[a..b + 1], addr + a, bit);
      SliceSearched(s, bit, a, b + 1, pos);
      NothingIn(s, bit, 8 * a);
      Concluded(s, bit, 8 * a, 8 * a, 8 * a, 8 * (b + 1), 8 * bytes, !endGiven, pos);
      if endGiven && !bit && pos == 8 * bytes {
        return -1;
      }
      if pos != -1 {
        pos := pos + 8 * a;
      }
    }
  }
}
