/** BITCOUNT: ranges, negative indexes and the masks at the edges. */
module Bitcount {
  import opened Bits
  import opened Popcount

  /** ~((1<<(8-k))-1) & 0xFF: the first `k` bits of a byte. */
  function FirstNegMask(k: nat): bv8
    requires k < 8
  {
    if k == 0 then 0x00 else if k == 1 then 0x80 else if k == 2 then 0xC0 else if k == 3 then 0xE0
    else if k == 4 then 0xF0 else if k == 5 then 0xF8 else if k == 6 then 0xFC else 0xFE
  }

  /** (1<<(7-k))-1: the bits of a byte after bit `k`. */
  function LastNegMask(k: nat): bv8
    requires k < 8
  {
    if k == 0 then 0x7F else if k == 1 then 0x3F else if k == 2 then 0x1F else if k == 3 then 0x0F
    else if k == 4 then 0x07 else if k == 5 then 0x03 else if k == 6 then 0x01 else 0x00
  }

  /** A start index: negative ones count from the end. */
  function NormalStart(i: int, n: nat): nat {
    if i >= 0 then i else if n + i < 0 then 0 else n + i
  }

  /** An end index, cut at the last position; -1 for an empty string. */
  function NormalEnd(i: int, n: nat): int {
    var e := if i >= 0 then i else if n + i < 0 then 0 else n + i;
    if e >= n then n - 1 else e
  }

  /** The bit positions a range stands for: from `lo` up to but not including `hi`. */
  datatype Range = Range(lo: nat, hi: nat)

  function BitRange(s: Bytes, start: int, end: int, isBit: bool): (r: Range)
    ensures r.lo <= r.hi <= 8 * |s|
  {
    var unit := if isBit then 1 else 8;
    var n := if isBit then 8 * |s| else |s|;
    var lo, hi := NormalStart(start, n), NormalEnd(end, n);
    if lo > hi then Range(0, 0) else Range(unit * lo, unit * (hi + 1))
  }

  lemma MaskBits(k: nat, j: nat)
    requires k < 8 && j < 8
    ensures Bit(FirstNegMask(k), j) <==> j < k
    ensures Bit(LastNegMask(k), j) <==> j > k
  {
  }

  lemma AndBit(a: bv8, b: bv8, j: nat)
    requires j < 8
    ensures Bit(a & b, j) <==> Bit(a, j) && Bit(b, j)
  {
  }

  /** What is left of a byte under an edge mask. */
  function FirstBits(b: bv8, k: nat): bv8
    requires k < 8
  {
    b & FirstNegMask(k)
  }

  function LastBits(b: bv8, k: nat): bv8
    requires k < 8
  {
    b & LastNegMask(k)
  }

  lemma EdgeBit(b: bv8, k: nat, j: nat)
    requires k < 8 && j < 8
    ensures Bit(FirstBits(b, k), j) <==> Bit(b, j) && j < k
    ensures Bit(LastBits(b, k), j) <==> Bit(b, j) && j > k
  {
    hide FirstNegMask, LastNegMask;
    AndBit(b, FirstNegMask(k), j);
    AndBit(b, LastNegMask(k), j);
    MaskBits(k, j);
    hide Bit;
  }

  lemma {:induction false} FirstMaskedTo(b: bv8, k: nat, j: nat)
    requires k < 8 && j <= 8
    ensures Pop8To(FirstBits(b, k), j) == Pop8To(b, if j < k then j else k)
    decreases j
  {
    hide Bit, FirstBits;
    if j > 0 {
      FirstMaskedTo(b, k, j - 1);
      EdgeBit(b, k, j - 1);
    }
  }

  lemma {:induction false} LastMaskedTo(b: bv8, k: nat, j: nat)
    requires k < 8 && j <= 8
    ensures Pop8To(LastBits(b, k), j) == if j <= k + 1 then 0 else Pop8To(b, j) - Pop8To(b, k + 1)
    decreases j
  {
    hide Bit, LastBits;
    if j > 0 {
      LastMaskedTo(b, k, j - 1);
      EdgeBit(b, k, j - 1);
    }
  }

  /** The bits the byte count takes in before the range. */
  lemma FirstEdge(s: Bytes, lo: nat)
    requires lo < 8 * |s|
    ensures Pop8(FirstBits(s[lo / 8], lo % 8)) == CountBits(s, 8 * (lo / 8), lo)
  {
    hide Pop8, Pop8To, BitAt, FirstBits, CountBits;
    var f := s[lo / 8];
    Pop8ToAll(FirstBits(f, lo % 8));
    FirstMaskedTo(f, lo % 8, 8);
    CountInByte(s, lo / 8, lo % 8);
    assert 8 * (lo / 8) + lo % 8 == lo;
  }

  /** And after it. */
  lemma LastEdge(s: Bytes, last: nat)
    requires last < 8 * |s|
    ensures Pop8(LastBits(s[last / 8], last % 8)) == CountBits(s, last + 1, 8 * (last / 8) + 8)
  {
    hide Pop8, Pop8To, BitAt, LastBits, CountBits;
    var j, k := last / 8, last % 8;
    assert 8 * j + (k + 1) == last + 1;
    LastEdgeIn(s, j, k);
  }

  lemma LastEdgeIn(s: Bytes, j: nat, k: nat)
    requires j < |s| && k < 8
    ensures Pop8(LastBits(s[j], k)) == CountBits(s, 8 * j + (k + 1), 8 * j + 8)
  {
    hide Pop8, Pop8To, BitAt, LastBits, CountBits;
    var l := s[j];
    Pop8ToAll(LastBits(l, k));
    LastMaskedTo(l, k, 8);
    CountInByte(s, j, 8);
    CountInByte(s, j, k + 1);
    CountSplit(s, 8 * j, 8 * j + (k + 1), 8 * j + 8);
    if k == 7 { NoneAfter(l); }
  }

  lemma NoneAfter(l: bv8)
    ensures Pop8To(LastBits(l, 7), 8) == 0
  {
    hide Bit;
    LastMaskedTo(l, 7, 8);
  }

  lemma PopTwo(a: bv8, b: bv8)
    ensures PopBytes([a, b]) == Pop8(a) + Pop8(b)
  {
    hide Pop8;
    assert [a, b][..1] == [a] && [a][..0] == [];
    assert PopBytes([a]) == Pop8(a);
  }

  /** The bits of the first and the last byte that lie outside the range from bit `a` to bit `b`,
      in one call of the counting loop. */
  method OutsideBits(s: Bytes, a: nat, b: nat) returns (n: nat)
    requires a <= b < 8 * |s|
    ensures n == CountBits(s, 8 * (a / 8), a) + CountBits(s, b + 1, 8 * (b / 8) + 8)
  {
    hide CountBits, PopBytes, Pop8, FirstNegMask, LastNegMask;
    var firstMask, lastMask := FirstNegMask(a % 8), LastNegMask(b % 8);
    var first, last := s[a / 8], s[b / 8];
    FirstEdge(s, a);
    LastEdge(s, b);
    n := 0;
    MaskedNothing(first, firstMask);
    MaskedNothing(last, lastMask);
    if firstMask != 0 || lastMask != 0 {
      var x: bv8 := if firstMask != 0 then first & firstMask else 0;
      var y: bv8 := if lastMask != 0 then last & lastMask else 0;
      PopTwo(x, y);
      n := RedisPopcount([x, y], 0);
    }
  }

  /** BITCOUNT on a string, at address `addr`: the number of set bits in the range, also when both
      edges fall into one byte. */
  method BitcountCommand(s: Bytes, addr: nat, start: int, end: int, isBit: bool) returns (count: int)
    ensures start < 0 && end < 0 && start > end ==> count == 0
    ensures !(start < 0 && end < 0 && start > end) ==>
              count == var r := BitRange(s, start, end, isBit); CountBits(s, r.lo, r.hi)
  {
    hide CountBits, PopBytes;
    if start < 0 && end < 0 && start > end {
      return 0;
    }
    var total := if isBit then 8 * |s| else |s|;
    var a, b := start, end;
    if a < 0 { a := total + a; }
    if b < 0 { b := total + b; }
    if a < 0 { a := 0; }
    if b < 0 { b := 0; }
    if b >= total { b := total - 1; }
    assert a == NormalStart(start, total) && b == NormalEnd(end, total);
    if a > b {
      NoBits(s);
      return 0;
    }
    var sb, eb := if isBit then a / 8 else a, if isBit then b / 8 else b;
    count := RedisPopcount(s[sb..eb + 1], addr + sb);
    CountIsPop(s, sb, eb + 1);
    if isBit {
      var outside := OutsideBits(s, a, b);
      CountSplit(s, 8 * sb, a, 8 * (eb + 1));
      CountSplit(s, a, b + 1, 8 * (eb + 1));
      count := count - outside;
    }
  }

  lemma NoBits(s: Bytes)
    ensures CountBits(s, 0, 0) == 0
  {
  }

  /** A zero mask takes nothing away. */
  lemma MaskedNothing(b: bv8, m: bv8)
    ensures m == 0 ==> b & m == 0
    ensures Pop8(0) == 0
  {
  }
}
