/** Counting set bits: the 28-byte loop of redisPopcount, and BITCOUNT's edges. */
module Popcount {
  import opened Bits

  // ---------------------------------------------------------------- one 32-bit word

  /** A little-endian load of four bytes. */
  function Load(s: Bytes): bv32
    requires |s| == 4
  {
    (s[0] as bv32) | ((s[1] as bv32) << 8) | ((s[2] as bv32) << 16) | ((s[3] as bv32) << 24)
  }

  /** The first two steps: pairs, then nibbles. */
  function Nibbles(x: bv32): bv32 {
    var a := x - ((x >> 1) & 0x55555555);
    (a & 0x33333333) + ((a >> 2) & 0x33333333)
  }

  /** One count per byte lane. */
  function Lanes(x: bv32): bv32 {
    var a := Nibbles(x);
    (a + (a >> 4)) & 0x0F0F0F0F
  }

  /** The set bits of the low byte, as a bit vector. */
  function LowBits(x: bv32): bv32 {
    (x & 1) + ((x >> 1) & 1) + ((x >> 2) & 1) + ((x >> 3) & 1)
    + ((x >> 4) & 1) + ((x >> 5) & 1) + ((x >> 6) & 1) + ((x >> 7) & 1)
  }

  lemma LanesPacked(x: bv32)
    ensures Lanes(x) == LowBits(x) | (LowBits(x >> 8) << 8) | (LowBits(x >> 16) << 16) | (LowBits(x >> 24) << 24)
  {
  }

  lemma LowBitsBound(x: bv32)
    ensures LowBits(x) <= 8
  {
  }

  lemma LowBitsIsPop8(x: bv32, b: bv8)
    requires x & 0xFF == b as bv32
    ensures ToInt(LowBits(x)) == Pop8(b)
  {
  }

  lemma LoadBytes(s: Bytes)
    requires |s| == 4
    ensures Load(s) & 0xFF == s[0] as bv32 && (Load(s) >> 8) & 0xFF == s[1] as bv32
    ensures (Load(s) >> 16) & 0xFF == s[2] as bv32 && (Load(s) >> 24) & 0xFF == s[3] as bv32
  {
  }

  /** The number a 32-bit word stands for. */
  function ToInt(x: bv32): nat {
    x as int
  }

  /** Four counts, one per byte lane, as a number. */
  function Spread(a: nat, b: nat, c: nat, d: nat): nat {
    a + 0x100 * b + 0x10000 * c + 0x1000000 * d
  }

  lemma PackedIsSpread(a: bv32, b: bv32, c: bv32, d: bv32)
    requires a <= 8 && b <= 8 && c <= 8 && d <= 8
    ensures ToInt(a | (b << 8) | (c << 16) | (d << 24)) == Spread(ToInt(a), ToInt(b), ToInt(c), ToInt(d))
  {
  }

  lemma LanesAreLowBits(x: bv32)
    ensures ToInt(Lanes(x)) ==
            Spread(ToInt(LowBits(x)), ToInt(LowBits(x >> 8)), ToInt(LowBits(x >> 16)), ToInt(LowBits(x >> 24)))
  {
    hide Lanes, LowBits, Spread, ToInt;
    LanesPacked(x);
    LowBitsBound(x);
    LowBitsBound(x >> 8);
    LowBitsBound(x >> 16);
    LowBitsBound(x >> 24);
    PackedIsSpread(LowBits(x), LowBits(x >> 8), LowBits(x >> 16), LowBits(x >> 24));
  }

  /** The set bits of one byte of a word, and of one byte of a string. */
  function LaneCount(x: bv32, k: nat): nat {
    if k == 0 then ToInt(LowBits(x)) else if k == 1 then ToInt(LowBits(x >> 8))
    else if k == 2 then ToInt(LowBits(x >> 16)) else ToInt(LowBits(x >> 24))
  }

  function PopAt(s: Bytes, k: nat): nat
    requires k < |s|
  {
    Pop8(s[k])
  }

  lemma LoadCount(s: Bytes, k: nat)
    requires |s| == 4 && k < 4
    ensures LaneCount(Load(s), k) == PopAt(s, k) <= 8
  {
    hide Load, LowBits, Pop8, ToInt;
    LoadBytes(s);
    Pop8Bound(s[k]);
    if k == 0 {
      LowBitsIsPop8(Load(s), s[0]);
    } else if k == 1 {
      LowBitsIsPop8(Load(s) >> 8, s[1]);
    } else if k == 2 {
      LowBitsIsPop8(Load(s) >> 16, s[2]);
    } else {
      LowBitsIsPop8(Load(s) >> 24, s[3]);
    }
  }

  lemma LanesAreCounts(x: bv32)
    ensures ToInt(Lanes(x)) == Spread(LaneCount(x, 0), LaneCount(x, 1), LaneCount(x, 2), LaneCount(x, 3))
  {
    hide Lanes, LowBits, Spread, ToInt;
    LanesAreLowBits(x);
  }

  function LoadedLanes(s: Bytes): nat
    requires |s| == 4
  {
    ToInt(Lanes(Load(s)))
  }

  /** The three steps leave in each lane the number of set bits of that byte. */
  lemma {:induction false} LanesArePops(s: Bytes)
    requires |s| == 4
    ensures LoadedLanes(s) == Spread(PopAt(s, 0), PopAt(s, 1), PopAt(s, 2), PopAt(s, 3))
    ensures PopAt(s, 0) <= 8 && PopAt(s, 1) <= 8 && PopAt(s, 2) <= 8 && PopAt(s, 3) <= 8
  {
    hide Load, Lanes, LaneCount, PopAt, Spread, ToInt;
    LanesAreCounts(Load(s));
    LoadCount(s, 0);
    LoadCount(s, 1);
    LoadCount(s, 2);
    LoadCount(s, 3);
  }

  // ---------------------------------------------------------------- seven words

  const WORD: nat := 0x1_0000_0000

  /** The sum of the four lanes of a 32-bit word, gathered in its top byte. */
  function Gather(x: nat): nat {
    (x * 0x01010101) % WORD / 0x1000000
  }

  /** The top byte does not overflow while each lane is at most 56. */
  lemma GatherIsSum(a: nat, b: nat, c: nat, d: nat)
    requires a <= 56 && b <= 56 && c <= 56 && d <= 56
    ensures Spread(a, b, c, d) < WORD && Gather(Spread(a, b, c, d)) == a + b + c + d
  {
    var low := a + 0x100 * (a + b) + 0x10000 * (a + b + c);
    var high := (b + c + d) + 0x100 * (c + d) + 0x10000 * d;
    assert Spread(a, b, c, d) * 0x01010101 == high * WORD + ((a + b + c + d) * 0x1000000 + low);
    Quotient(Spread(a, b, c, d) * 0x01010101, high, (a + b + c + d) * 0x1000000 + low, WORD);
    Quotient((a + b + c + d) * 0x1000000 + low, a + b + c + d, low, 0x1000000);
  }

  lemma SpreadAdd(a: nat, b: nat, c: nat, d: nat, e: nat, f: nat, g: nat, h: nat)
    ensures Spread(a, b, c, d) + Spread(e, f, g, h) == Spread(a + e, b + f, c + g, d + h)
  {
  }

  lemma Pop8Bound(b: bv8)
    ensures Pop8(b) <= 8
  {
  }

  /** Addition of 32-bit words. */
  function Add32(x: nat, y: nat): nat {
    (x + y) % WORD
  }

  /** The lane sum of the words of a block of 4 * n bytes, in 32-bit arithmetic. */
  function LaneSum(s: Bytes): nat
    requires |s| % 4 == 0
    decreases |s|
  {
    if s == [] then 0 else Add32(LaneSum(s[..|s| - 4]), LoadedLanes(s[|s| - 4..]))
  }

  /** Its four lanes: the set bits of every fourth byte. */
  lemma {:induction false} LaneSumIs(s: Bytes) returns (a: nat, b: nat, c: nat, d: nat)
    requires |s| % 4 == 0 && |s| <= 28
    ensures LaneSum(s) == Spread(a, b, c, d) && a + b + c + d == PopBytes(s)
    ensures a <= 2 * |s| && b <= 2 * |s| && c <= 2 * |s| && d <= 2 * |s|
    decreases |s|
  {
    hide Spread, LoadedLanes, PopAt, Pop8;
    if s == [] {
      a, b, c, d := 0, 0, 0, 0;
      SpreadZero();
      NoBytes();
    } else {
      var f, w := s[..|s| - 4], s[|s| - 4..];
      var a', b', c', d' := LaneSumIs(f);
      LanesArePops(w);
      a, b, c, d := a' + PopAt(w, 0), b' + PopAt(w, 1), c' + PopAt(w, 2), d' + PopAt(w, 3);
      PopWord(w);
      assert s == f + w;
      PopBytesAppend(f, w);
      SpreadAdd(a', b', c', d', PopAt(w, 0), PopAt(w, 1), PopAt(w, 2), PopAt(w, 3));
      GatherIsSum(a, b, c, d);
    }
  }

  lemma SpreadZero()
    ensures Spread(0, 0, 0, 0) == 0
  {
  }

  lemma PopWord(w: Bytes)
    requires |w| == 4
    ensures PopBytes(w) == PopAt(w, 0) + PopAt(w, 1) + PopAt(w, 2) + PopAt(w, 3)
  {
    hide Pop8;
    assert w[..3][..2] == w[..2] && w[..2][..1] == w[..1] && w[..1][..0] == [];
    assert PopBytes(w[..1]) == Pop8(w[0]);
    assert PopBytes(w[..2]) == PopBytes(w[..1]) + Pop8(w[1]);
    assert PopBytes(w[..3]) == PopBytes(w[..2]) + Pop8(w[2]);
  }

  /** One turn of the 28-byte loop counts exactly the bits of its 28 bytes. */
  lemma BlockCount(s: Bytes)
    requires |s| == 28
    ensures Gather(LaneSum(s)) == PopBytes(s)
  {
    hide LaneSum, PopBytes, Gather;
    var a, b, c, d := LaneSumIs(s);
    GatherIsSum(a, b, c, d);
  }

  // ---------------------------------------------------------------- redisPopcount

  lemma PopSnoc(s: Bytes, i: nat)
    requires i < |s|
    ensures PopBytes(s[..i + 1]) == PopBytes(s[..i]) + Pop8(s[i])
  {
    hide Pop8;
    assert s[..i + 1][..i] == s[..i];
  }

  /** The body of the 28-byte loop: seven words, one multiplication. */
  method CountBlock(block: Bytes) returns (n: nat)
    requires |block| == 28
    ensures n == PopBytes(block)
  {
    hide PopBytes, Gather, LaneSum, LoadedLanes, Add32;
    var sum, i := 0, 0;
    NoLanes();
    assert block[..0] == [];
    while i < 7
      invariant 0 <= i <= 7 && sum == LaneSum(block[..4 * i])
    {
      LaneSnoc(block, 4 * i);
      sum := Add32(sum, LoadedLanes(block[4 * i..4 * i + 4]));
      i := i + 1;
    }
    assert block[..28] == block;
    BlockCount(block);
    n := Gather(sum);
  }

  /** redisPopcount without the POPCNT instruction, on a string at address `addr`. */
  method RedisPopcount(s: Bytes, addr: nat) returns (bits: nat)
    ensures bits == PopBytes(s)
  {
    hide PopBytes, Pop8;
    bits := 0;
    var p := 0;
    NoBytes();
    assert s[..0] == [];
    while (addr + p) % 4 != 0 && p < |s|
      invariant 0 <= p <= |s| && bits == PopBytes(s[..p])
      decreases |s| - p
    {
      PopSnoc(s, p);
      bits := bits + Pop8(s[p]);
      p := p + 1;
    }
    while |s| - p >= 28
      invariant 0 <= p <= |s| && bits == PopBytes(s[..p])
      decreases |s| - p
    {
      var n := CountBlock(s[p..p + 28]);
      PopBytesAppend(s[..p], s[p..p + 28]);
      assert s[..p + 28] == s[..p] + s[p..p + 28];
      bits := bits + n;
      p := p + 28;
    }
    while p < |s|
      invariant 0 <= p <= |s| && bits == PopBytes(s[..p])
    {
      PopSnoc(s, p);
      bits := bits + Pop8(s[p]);
      p := p + 1;
    }
    assert s[..p] == s;
  }

  lemma NoBytes()
    ensures PopBytes([]) == 0
  {
  }

  lemma NoLanes()
    ensures LaneSum([]) == 0
  {
  }

  lemma LastFour<T>(block: seq<T>, k: nat)
    requires k + 4 <= |block|
    ensures var s := block[..k + 4];
            s[..|s| - 4] == block[..k] && s[|s| - 4..] == block[k..k + 4]
  {
  }

  lemma {:induction false} LaneSnoc(block: Bytes, k: nat)
    requires k % 4 == 0 && k + 4 <= |block|
    ensures LaneSum(block[..k + 4]) == Add32(LaneSum(block[..k]), LoadedLanes(block[k..k + 4]))
  {
    hide LoadedLanes, Add32;
    LastFour(block, k);
  }
}
