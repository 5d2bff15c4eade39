/** BITOP: eight operators over any number of strings, by words and by bytes. */
module Bitop {
  import opened Options
  import opened Bits

  datatype Op = And | Or | Xor | Not | Diff | Diff1 | AndOr | ExactlyOne

  // ---------------------------------------------------------------- what is asked for, per bit

  /** The number of set bits among the first `n` of a column. */
  function Trues(col: seq<bool>, n: nat): nat
    requires n <= |col|
  {
    if n == 0 then 0 else Trues(col, n - 1) + One(col[n - 1])
  }

  /** The result bit for the bits that the keys have at one position. */
  predicate Expected(op: Op, col: seq<bool>)
    requires col != []
  {
    var t := Trues(col, |col|);
    match op
    case And => t == |col|
    case Or => t > 0
    case Xor => t % 2 == 1
    case Not => !col[0]
    case Diff => col[0] && t == 1
    case Diff1 => !col[0] && t > 0
    case AndOr => col[0] && t > 1
    case ExactlyOne => t == 1
  }

  /** The bits of all keys at position `i`, missing ones zero. */
  function Column(keys: seq<Bytes>, i: nat): (c: seq<bool>)
    ensures |c| == |keys|
  {
    seq(|keys|, n requires 0 <= n < |keys| => PadBit(keys[n], i))
  }

  // ---------------------------------------------------------------- the running state, per bit

  /** output, disjunction and common_bits. */
  datatype Acc<T> = Acc(out: T, dis: T, common: T)

  function StepBit(op: Op, masked: bool, a: Acc<bool>, x: bool): Acc<bool> {
    match op
    case And => a.(out := a.out && x)
    case Or => a.(out := a.out || x)
    case Xor => a.(out := a.out != x)
    case Not => a
    case Diff => a.(dis := a.dis || x)
    case Diff1 => a.(dis := a.dis || x)
    case AndOr => a.(dis := a.dis || x)
    case ExactlyOne =>
      var c := a.common || (a.out && x);
      a.(out := (a.out != x) && !(masked && c), common := c)
  }

  predicate FinalBit(op: Op, a: Acc<bool>) {
    match op
    case And => a.out
    case Or => a.out
    case Xor => a.out
    case Not => a.out
    case Diff => a.out && !a.dis
    case Diff1 => !a.out && a.dis
    case AndOr => a.out && a.dis
    case ExactlyOne => a.out && !a.common
  }

  /** What the state means after the first `n` keys. */
  predicate Reached(op: Op, masked: bool, col: seq<bool>, n: nat, a: Acc<bool>)
    requires 1 <= n <= |col|
  {
    var t := Trues(col, n);
    match op
    case And => a.out == (t == n)
    case Or => a.out == (t > 0)
    case Xor => a.out == (t % 2 == 1)
    case Not => a.out == !col[0]
    case Diff => a.out == col[0] && a.dis == (t > One(col[0]))
    case Diff1 => a.out == col[0] && a.dis == (t > One(col[0]))
    case AndOr => a.out == col[0] && a.dis == (t > One(col[0]))
    case ExactlyOne => a.common == (t >= 2) && a.out == if masked then t == 1 else t % 2 == 1
  }

  function StartBit(op: Op, x: bool): Acc<bool> {
    Acc(if op == Not then !x else x, false, false)
  }

  lemma StartReached(op: Op, masked: bool, col: seq<bool>)
    requires col != []
    ensures Reached(op, masked, col, 1, StartBit(op, col[0]))
  {
    assert Trues(col, 1) == Trues(col, 0) + One(col[0]);
  }

  lemma {:induction false} TruesBound(col: seq<bool>, n: nat, m: nat)
    requires n <= m <= |col|
    ensures Trues(col, n) <= Trues(col, m) <= Trues(col, n) + (m - n)
    decreases m
  {
    if n < m { TruesBound(col, n, m - 1); }
  }

  lemma FirstCounts(col: seq<bool>, n: nat)
    requires 1 <= n <= |col|
    ensures One(col[0]) <= Trues(col, n) <= n
  {
    assert Trues(col, 1) == Trues(col, 0) + One(col[0]);
    TruesBound(col, 1, n);
    TruesBound(col, 0, n);
  }

  lemma StepReached(op: Op, masked: bool, col: seq<bool>, n: nat, a: Acc<bool>)
    requires 1 <= n < |col| && Reached(op, masked, col, n, a)
    ensures Reached(op, masked, col, n + 1, StepBit(op, masked, a, col[n]))
  {
    FirstCounts(col, n);
    assert Trues(col, n + 1) == Trues(col, n) + One(col[n]);
    hide Trues;
  }

  lemma FinalExpected(op: Op, masked: bool, col: seq<bool>, a: Acc<bool>)
    requires col != [] && Reached(op, masked, col, |col|, a)
    requires op == Not ==> |col| == 1
    ensures FinalBit(op, a) == Expected(op, col)
  {
    FirstCounts(col, |col|);
    hide Trues;
  }

  /** When the byte loop may stop early: the bits still to come cannot change the result. */
  predicate Settled(op: Op, a: Acc<bool>) {
    match op
    case And => !a.out
    case Or => a.out
    case Xor => false
    case Not => false
    case Diff => a.dis
    case Diff1 => a.dis
    case AndOr => a.dis
    case ExactlyOne => a.common
  }

  lemma SettledExpected(op: Op, col: seq<bool>, n: nat, a: Acc<bool>)
    requires 1 <= n <= |col| && Reached(op, true, col, n, a) && Settled(op, a)
    ensures FinalBit(op, a) == Expected(op, col)
  {
    FirstCounts(col, n);
    TruesBound(col, n, |col|);
    hide Trues;
  }

  // ---------------------------------------------------------------- bytes

  function And8(x: bv8, y: bv8): bv8 { x & y }
  function Or8(x: bv8, y: bv8): bv8 { x | y }
  function Xor8(x: bv8, y: bv8): bv8 { x ^ y }
  function Not8(x: bv8): bv8 { !x }

  function StepByte(op: Op, a: Acc<bv8>, x: bv8): Acc<bv8> {
    match op
    case And => a.(out := And8(a.out, x))
    case Or => a.(out := Or8(a.out, x))
    case Xor => a.(out := Xor8(a.out, x))
    case Not => a
    case Diff => a.(dis := Or8(a.dis, x))
    case Diff1 => a.(dis := Or8(a.dis, x))
    case AndOr => a.(dis := Or8(a.dis, x))
    case ExactlyOne =>
      var c := Or8(a.common, And8(a.out, x));
      a.(out := And8(Xor8(a.out, x), Not8(c)), common := c)
  }

  function FinalByte(op: Op, a: Acc<bv8>): bv8 {
    match op
    case And => a.out
    case Or => a.out
    case Xor => a.out
    case Not => a.out
    case Diff => And8(a.out, Not8(a.dis))
    case Diff1 => And8(Not8(a.out), a.dis)
    case AndOr => And8(a.out, a.dis)
    case ExactlyOne => a.out
  }

  function AccBit(a: Acc<bv8>, k: nat): Acc<bool>
    requires k < 8
  {
    Acc(Bit(a.out, k), Bit(a.dis, k), Bit(a.common, k))
  }

  lemma AndBits(x: bv8, y: bv8, k: nat)
    requires k < 8
    ensures Bit(And8(x, y), k) == (Bit(x, k) && Bit(y, k))
  {
  }

  lemma OrBits(x: bv8, y: bv8, k: nat)
    requires k < 8
    ensures Bit(Or8(x, y), k) == (Bit(x, k) || Bit(y, k))
  {
  }

  lemma NotBits(x: bv8, k: nat)
    requires k < 8
    ensures Bit(Not8(x), k) == !Bit(x, k)
  {
  }

  lemma XorIs(x: bv8, y: bv8)
    ensures Xor8(x, y) == Or8(And8(x, Not8(y)), And8(Not8(x), y))
  {
  }

  lemma XorBits(x: bv8, y: bv8, k: nat)
    requires k < 8
    ensures Bit(Xor8(x, y), k) == (Bit(x, k) != Bit(y, k))
  {
    hide Bit, And8, Or8, Xor8, Not8;
    XorIs(x, y);
    NotBits(x, k);
    NotBits(y, k);
    AndBits(x, Not8(y), k);
    AndBits(Not8(x), y, k);
    OrBits(And8(x, Not8(y)), And8(Not8(x), y), k);
  }

  lemma StepByteBits(op: Op, a: Acc<bv8>, x: bv8, k: nat)
    requires k < 8
    ensures AccBit(StepByte(op, a, x), k) == StepBit(op, true, AccBit(a, k), Bit(x, k))
  {
    hide Bit, And8, Or8, Xor8, Not8;
    var c := Or8(a.common, And8(a.out, x));
    AndBits(a.out, x, k);
    OrBits(a.out, x, k);
    XorBits(a.out, x, k);
    OrBits(a.dis, x, k);
    OrBits(a.common, And8(a.out, x), k);
    NotBits(c, k);
    AndBits(Xor8(a.out, x), Not8(c), k);
  }

  lemma FinalByteBits(op: Op, a: Acc<bv8>, k: nat)
    requires k < 8
    ensures op != ExactlyOne ==> Bit(FinalByte(op, a), k) == FinalBit(op, AccBit(a, k))
    ensures op == ExactlyOne ==> Bit(FinalByte(op, a), k) == Bit(a.out, k)
  {
    hide Bit, And8, Or8, Xor8, Not8;
    NotBits(a.dis, k);
    NotBits(a.out, k);
    AndBits(a.out, Not8(a.dis), k);
    AndBits(Not8(a.out), a.dis, k);
    AndBits(a.out, a.dis, k);
  }

  /** The byte at `j` of a string continued with zeros. */
  function ByteAt(s: Bytes, j: nat): bv8 {
    if j < |s| then s[j] else 0
  }

  lemma ByteAtBits(s: Bytes, j: nat, k: nat)
    requires k < 8
    ensures Bit(ByteAt(s, j), k) == PadBit(s, 8 * j + k)
  {
    assert (8 * j + k) / 8 == j && (8 * j + k) % 8 == k;
    assert !Bit(0, k) by { ZeroBits(k); }
    hide Bit;
  }

  lemma ZeroBits(k: nat)
    requires k < 8
    ensures !Bit(0, k) && Bit(0xFF, k)
  {
  }

  /** The state of the byte loop at position `j` after `n` keys. */
  ghost predicate ByteState(op: Op, keys: seq<Bytes>, j: nat, n: nat, a: Acc<bv8>)
    requires 1 <= n <= |keys|
  {
    forall k: nat :: k < 8 ==> Reached(op, true, Column(keys, 8 * j + k), n, AccBit(a, k))
  }

  ghost predicate ByteDone(op: Op, keys: seq<Bytes>, j: nat, b: bv8)
    requires keys != []
  {
    forall k: nat :: k < 8 ==> Bit(b, k) == Expected(op, Column(keys, 8 * j + k))
  }

  lemma StartByteState(op: Op, keys: seq<Bytes>, j: nat, a: Acc<bv8>)
    requires keys != []
    requires a == Acc(if op == Not then Not8(ByteAt(keys[0], j)) else ByteAt(keys[0], j), 0, 0)
    ensures ByteState(op, keys, j, 1, a)
  {
    hide Bit, Not8, Reached, ByteAt;
    forall k: nat | k < 8
      ensures Reached(op, true, Column(keys, 8 * j + k), 1, AccBit(a, k))
    {
      ByteAtBits(keys[0], j, k);
      NotBits(ByteAt(keys[0], j), k);
      ZeroBits(k);
      StartReached(op, true, Column(keys, 8 * j + k));
    }
  }

  lemma NextByteState(op: Op, keys: seq<Bytes>, j: nat, n: nat, a: Acc<bv8>)
    requires 1 <= n < |keys| && ByteState(op, keys, j, n, a)
    ensures ByteState(op, keys, j, n + 1, StepByte(op, a, ByteAt(keys[n], j)))
  {
    hide Bit, Reached, ByteAt, StepByte, StepBit, AccBit;
    forall k: nat | k < 8
      ensures Reached(op, true, Column(keys, 8 * j + k), n + 1, AccBit(StepByte(op, a, ByteAt(keys[n], j)), k))
    {
      ByteAtBits(keys[n], j, k);
      StepByteBits(op, a, ByteAt(keys[n], j), k);
      StepReached(op, true, Column(keys, 8 * j + k), n, AccBit(a, k));
    }
  }

  /** The condition under which the byte loop leaves its inner loop. */
  predicate Skip(op: Op, a: Acc<bv8>) {
    match op
    case And => a.out == 0
    case Or => a.out == 0xFF
    case Xor => false
    case Not => false
    case Diff => a.dis == 0xFF
    case Diff1 => a.dis == 0xFF
    case AndOr => a.dis == 0xFF
    case ExactlyOne => a.common == 0xFF
  }

  lemma SkipSettles(op: Op, a: Acc<bv8>, k: nat)
    requires k < 8 && Skip(op, a)
    ensures Settled(op, AccBit(a, k))
  {
    ZeroBits(k);
    hide Bit;
  }

  /** A masked output never overlaps the common bits. */
  lemma MaskedFinal(op: Op, col: seq<bool>, n: nat, a: Acc<bool>)
    requires 1 <= n <= |col| && Reached(op, true, col, n, a)
    ensures op == ExactlyOne ==> FinalBit(op, a) == a.out
  {
    hide Trues;
  }

  lemma ByteResult(op: Op, keys: seq<Bytes>, j: nat, n: nat, a: Acc<bv8>)
    requires 1 <= n <= |keys| && ByteState(op, keys, j, n, a) && (n == |keys| || Skip(op, a))
    requires op == Not ==> |keys| == 1
    ensures ByteDone(op, keys, j, FinalByte(op, a))
  {
    hide Bit, Reached, FinalByte, FinalBit, Expected, Skip, Settled, AccBit;
    forall k: nat | k < 8
      ensures Bit(FinalByte(op, a), k) == Expected(op, Column(keys, 8 * j + k))
    {
      var col := Column(keys, 8 * j + k);
      FinalByteBits(op, a, k);
      MaskedFinal(op, col, n, AccBit(a, k));
      OutBit(a, k);
      if n == |keys| {
        FinalExpected(op, true, col, AccBit(a, k));
      } else {
        SkipSettles(op, a, k);
        SettledExpected(op, col, n, AccBit(a, k));
      }
    }
  }

  lemma OutBit(a: Acc<bv8>, k: nat)
    requires k < 8
    ensures AccBit(a, k).out == Bit(a.out, k)
  {
  }

  /** One turn of the byte loop, with its early exits. */
  method ByteColumn(op: Op, keys: seq<Bytes>, j: nat) returns (b: bv8)
    requires keys != [] && (op == Not ==> |keys| == 1)
    ensures ByteDone(op, keys, j, b)
  {
    hide ByteState, ByteDone, StepByte, FinalByte, Skip, ByteAt, Not8;
    var output := ByteAt(keys[0], j);
    if op == Not { output := Not8(output); }
    var a := Acc(output, 0, 0);
    StartByteState(op, keys, j, a);
    var i := 1;
    while i < |keys|
      invariant 1 <= i <= |keys| && ByteState(op, keys, j, i, a)
    {
      NextByteState(op, keys, j, i, a);
      a := StepByte(op, a, ByteAt(keys[i], j));
      i := i + 1;
      if Skip(op, a) {
        break;
      }
    }
    ByteResult(op, keys, j, i, a);
    b := FinalByte(op, a);
  }

  // ---------------------------------------------------------------- words

  /** Byte `q` of a word, in memory order on a little-endian machine. */
  function ByteOf(w: bv64, q: nat): bv8
    requires q < 8
  {
    if q == 0 then (w & 0xFF) as bv8 else if q == 1 then ((w >> 8) & 0xFF) as bv8
    else if q == 2 then ((w >> 16) & 0xFF) as bv8 else if q == 3 then ((w >> 24) & 0xFF) as bv8
    else if q == 4 then ((w >> 32) & 0xFF) as bv8 else if q == 5 then ((w >> 40) & 0xFF) as bv8
    else if q == 6 then ((w >> 48) & 0xFF) as bv8 else ((w >> 56) & 0xFF) as bv8
  }

  /** The word in eight bytes. */
  function Packed(b0: bv8, b1: bv8, b2: bv8, b3: bv8, b4: bv8, b5: bv8, b6: bv8, b7: bv8): bv64 {
    (b0 as bv64) | ((b1 as bv64) << 8) | ((b2 as bv64) << 16) | ((b3 as bv64) << 24)
    | ((b4 as bv64) << 32) | ((b5 as bv64) << 40) | ((b6 as bv64) << 48) | ((b7 as bv64) << 56)
  }

  lemma PackedBytes(b0: bv8, b1: bv8, b2: bv8, b3: bv8, b4: bv8, b5: bv8, b6: bv8, b7: bv8)
    ensures var w := Packed(b0, b1, b2, b3, b4, b5, b6, b7);
            && ByteOf(w, 0) == b0 && ByteOf(w, 1) == b1 && ByteOf(w, 2) == b2 && ByteOf(w, 3) == b3
            && ByteOf(w, 4) == b4 && ByteOf(w, 5) == b5 && ByteOf(w, 6) == b6 && ByteOf(w, 7) == b7
  {
  }

  function LoadWord(s: Bytes, at: nat): bv64
    requires at + 8 <= |s|
  {
    Packed(s[at], s[at + 1], s[at + 2], s[at + 3], s[at + 4], s[at + 5], s[at + 6], s[at + 7])
  }

  lemma LoadedByte(s: Bytes, at: nat, q: nat)
    requires at + 8 <= |s| && q < 8
    ensures ByteOf(LoadWord(s, at), q) == s[at + q]
  {
    hide ByteOf, Packed;
    PackedBytes(s[at], s[at + 1], s[at + 2], s[at + 3], s[at + 4], s[at + 5], s[at + 6], s[at + 7]);
  }

  function And64(x: bv64, y: bv64): bv64 { x & y }
  function Or64(x: bv64, y: bv64): bv64 { x | y }
  function Xor64(x: bv64, y: bv64): bv64 { x ^ y }
  function Not64(x: bv64): bv64 { !x }

  lemma AndBytes(x: bv64, y: bv64, q: nat)
    requires q < 8
    ensures ByteOf(And64(x, y), q) == And8(ByteOf(x, q), ByteOf(y, q))
  {
    if q == 0 { assert ByteOf(And64(x, y), 0) == And8(ByteOf(x, 0), ByteOf(y, 0)); }
    else if q == 1 { assert ByteOf(And64(x, y), 1) == And8(ByteOf(x, 1), ByteOf(y, 1)); }
    else if q == 2 { assert ByteOf(And64(x, y), 2) == And8(ByteOf(x, 2), ByteOf(y, 2)); }
    else if q == 3 { assert ByteOf(And64(x, y), 3) == And8(ByteOf(x, 3), ByteOf(y, 3)); }
    else if q == 4 { assert ByteOf(And64(x, y), 4) == And8(ByteOf(x, 4), ByteOf(y, 4)); }
    else if q == 5 { assert ByteOf(And64(x, y), 5) == And8(ByteOf(x, 5), ByteOf(y, 5)); }
    else if q == 6 { assert ByteOf(And64(x, y), 6) == And8(ByteOf(x, 6), ByteOf(y, 6)); }
    else { assert ByteOf(And64(x, y), 7) == And8(ByteOf(x, 7), ByteOf(y, 7)); }
  }

  lemma OrBytes(x: bv64, y: bv64, q: nat)
    requires q < 8
    ensures ByteOf(Or64(x, y), q) == Or8(ByteOf(x, q), ByteOf(y, q))
  {
    if q == 0 { assert ByteOf(Or64(x, y), 0) == Or8(ByteOf(x, 0), ByteOf(y, 0)); }
    else if q == 1 { assert ByteOf(Or64(x, y), 1) == Or8(ByteOf(x, 1), ByteOf(y, 1)); }
    else if q == 2 { assert ByteOf(Or64(x, y), 2) == Or8(ByteOf(x, 2), ByteOf(y, 2)); }
    else if q == 3 { assert ByteOf(Or64(x, y), 3) == Or8(ByteOf(x, 3), ByteOf(y, 3)); }
    else if q == 4 { assert ByteOf(Or64(x, y), 4) == Or8(ByteOf(x, 4), ByteOf(y, 4)); }
    else if q == 5 { assert ByteOf(Or64(x, y), 5) == Or8(ByteOf(x, 5), ByteOf(y, 5)); }
    else if q == 6 { assert ByteOf(Or64(x, y), 6) == Or8(ByteOf(x, 6), ByteOf(y, 6)); }
    else { assert ByteOf(Or64(x, y), 7) == Or8(ByteOf(x, 7), ByteOf(y, 7)); }
  }

  lemma NotBytes(x: bv64, q: nat)
    requires q < 8
    ensures ByteOf(Not64(x), q) == Not8(ByteOf(x, q))
  {
    if q == 0 { assert ByteOf(Not64(x), 0) == Not8(ByteOf(x, 0)); }
    else if q == 1 { assert ByteOf(Not64(x), 1) == Not8(ByteOf(x, 1)); }
    else if q == 2 { assert ByteOf(Not64(x), 2) == Not8(ByteOf(x, 2)); }
    else if q == 3 { assert ByteOf(Not64(x), 3) == Not8(ByteOf(x, 3)); }
    else if q == 4 { assert ByteOf(Not64(x), 4) == Not8(ByteOf(x, 4)); }
    else if q == 5 { assert ByteOf(Not64(x), 5) == Not8(ByteOf(x, 5)); }
    else if q == 6 { assert ByteOf(Not64(x), 6) == Not8(ByteOf(x, 6)); }
    else { assert ByteOf(Not64(x), 7) == Not8(ByteOf(x, 7)); }
  }

  lemma XorWordIs(x: bv64, y: bv64)
    ensures Xor64(x, y) == Or64(And64(x, Not64(y)), And64(Not64(x), y))
  {
  }

  lemma XorBytes(x: bv64, y: bv64, q: nat)
    requires q < 8
    ensures ByteOf(Xor64(x, y), q) == Xor8(ByteOf(x, q), ByteOf(y, q))
  {
    hide ByteOf, And8, Or8, Xor8, Not8, And64, Or64, Xor64, Not64;
    XorWordIs(x, y);
    NotBytes(x, q);
    NotBytes(y, q);
    AndBytes(x, Not64(y), q);
    AndBytes(Not64(x), y, q);
    OrBytes(And64(x, Not64(y)), And64(Not64(x), y), q);
    XorIs(ByteOf(x, q), ByteOf(y, q));
  }

  /** Bit `m` of the eight bytes of a word. */
  predicate WordBit(w: bv64, m: nat)
    requires m < 64
  {
    Bit(ByteOf(w, m / 8), m % 8)
  }

  lemma WordBitOps(x: bv64, y: bv64, m: nat)
    requires m < 64
    ensures WordBit(And64(x, y), m) == (WordBit(x, m) && WordBit(y, m))
    ensures WordBit(Or64(x, y), m) == (WordBit(x, m) || WordBit(y, m))
    ensures WordBit(Xor64(x, y), m) == (WordBit(x, m) != WordBit(y, m))
    ensures WordBit(Not64(x), m) == !WordBit(x, m)
  {
    hide Bit, ByteOf, And8, Or8, Xor8, Not8, And64, Or64, Xor64, Not64;
    AndBytes(x, y, m / 8);
    OrBytes(x, y, m / 8);
    XorBytes(x, y, m / 8);
    NotBytes(x, m / 8);
    AndBits(ByteOf(x, m / 8), ByteOf(y, m / 8), m % 8);
    OrBits(ByteOf(x, m / 8), ByteOf(y, m / 8), m % 8);
    XorBits(ByteOf(x, m / 8), ByteOf(y, m / 8), m % 8);
    NotBits(ByteOf(x, m / 8), m % 8);
  }

  lemma LoadedBit(s: Bytes, at: nat, m: nat)
    requires at + 8 <= |s| && m < 64
    ensures WordBit(LoadWord(s, at), m) == PadBit(s, 8 * at + m)
  {
    hide Bit, ByteOf, LoadWord;
    LoadedByte(s, at, m / 8);
    assert (8 * at + m) / 8 == at + m / 8 && (8 * at + m) % 8 == m % 8;
  }

  lemma ZeroWord(m: nat)
    requires m < 64
    ensures !WordBit(0, m)
  {
    assert ByteOf(0, m / 8) == 0;
    hide Bit, ByteOf;
    ZeroBits(m % 8);
  }

  function StepWord(op: Op, a: Acc<bv64>, x: bv64): Acc<bv64> {
    match op
    case And => a.(out := And64(a.out, x))
    case Or => a.(out := Or64(a.out, x))
    case Xor => a.(out := Xor64(a.out, x))
    case Not => a
    case Diff => a.(dis := Or64(a.dis, x))
    case Diff1 => a.(dis := Or64(a.dis, x))
    case AndOr => a.(dis := Or64(a.dis, x))
    case ExactlyOne => a.(out := Xor64(a.out, x), common := Or64(a.common, And64(a.out, x)))
  }

  function FinalWord(op: Op, a: Acc<bv64>): bv64 {
    match op
    case And => a.out
    case Or => a.out
    case Xor => a.out
    case Not => a.out
    case Diff => And64(a.out, Not64(a.dis))
    case Diff1 => And64(Not64(a.out), a.dis)
    case AndOr => And64(a.out, a.dis)
    case ExactlyOne => And64(a.out, Not64(a.common))
  }

  function AccWordBit(a: Acc<bv64>, m: nat): Acc<bool>
    requires m < 64
  {
    Acc(WordBit(a.out, m), WordBit(a.dis, m), WordBit(a.common, m))
  }

  lemma StepWordBits(op: Op, a: Acc<bv64>, x: bv64, m: nat)
    requires m < 64
    ensures AccWordBit(StepWord(op, a, x), m) == StepBit(op, false, AccWordBit(a, m), WordBit(x, m))
  {
    hide WordBit, And64, Or64, Xor64, Not64;
    WordBitOps(a.out, x, m);
    WordBitOps(a.dis, x, m);
    WordBitOps(a.common, And64(a.out, x), m);
  }

  lemma FinalWordBits(op: Op, a: Acc<bv64>, m: nat)
    requires m < 64
    ensures WordBit(FinalWord(op, a), m) == FinalBit(op, AccWordBit(a, m))
  {
    hide WordBit, And64, Or64, Xor64, Not64;
    WordBitOps(a.dis, a.dis, m);
    WordBitOps(a.common, a.common, m);
    WordBitOps(a.out, Not64(a.dis), m);
    WordBitOps(Not64(a.out), a.dis, m);
    WordBitOps(a.out, a.dis, m);
    WordBitOps(a.out, Not64(a.common), m);
  }

  /** The state of the word loop for the word at byte `at` after `n` keys. */
  ghost predicate WordState(op: Op, keys: seq<Bytes>, at: nat, n: nat, a: Acc<bv64>)
    requires 1 <= n <= |keys|
  {
    forall m: nat :: m < 64 ==> Reached(op, false, Column(keys, 8 * at + m), n, AccWordBit(a, m))
  }

  ghost predicate WordDone(op: Op, keys: seq<Bytes>, at: nat, w: bv64)
    requires keys != []
  {
    forall m: nat :: m < 64 ==> WordBit(w, m) == Expected(op, Column(keys, 8 * at + m))
  }

  lemma StartWordState(op: Op, keys: seq<Bytes>, at: nat, a: Acc<bv64>)
    requires keys != [] && at + 8 <= |keys[0]|
    requires a == Acc(if op == Not then Not64(LoadWord(keys[0], at)) else LoadWord(keys[0], at), 0, 0)
    ensures WordState(op, keys, at, 1, a)
  {
    hide WordBit, Not64, Reached, LoadWord;
    var w := LoadWord(keys[0], at);
    forall m: nat | m < 64
      ensures Reached(op, false, Column(keys, 8 * at + m), 1, AccWordBit(a, m))
    {
      LoadedBit(keys[0], at, m);
      WordBitOps(w, w, m);
      ZeroWord(m);
      StartReached(op, false, Column(keys, 8 * at + m));
    }
  }

  lemma NextWordState(op: Op, keys: seq<Bytes>, at: nat, n: nat, a: Acc<bv64>)
    requires 1 <= n < |keys| && at + 8 <= |keys[n]| && WordState(op, keys, at, n, a)
    ensures WordState(op, keys, at, n + 1, StepWord(op, a, LoadWord(keys[n], at)))
  {
    hide WordBit, Reached, LoadWord, StepWord, StepBit, AccWordBit;
    forall m: nat | m < 64
      ensures Reached(op, false, Column(keys, 8 * at + m), n + 1, AccWordBit(StepWord(op, a, LoadWord(keys[n], at)), m))
    {
      LoadedBit(keys[n], at, m);
      StepWordBits(op, a, LoadWord(keys[n], at), m);
      StepReached(op, false, Column(keys, 8 * at + m), n, AccWordBit(a, m));
    }
  }

  lemma WordResult(op: Op, keys: seq<Bytes>, at: nat, a: Acc<bv64>)
    requires keys != [] && WordState(op, keys, at, |keys|, a) && (op == Not ==> |keys| == 1)
    ensures WordDone(op, keys, at, FinalWord(op, a))
  {
    hide WordBit, Reached, FinalWord, FinalBit, Expected, AccWordBit;
    forall m: nat | m < 64
      ensures WordBit(FinalWord(op, a), m) == Expected(op, Column(keys, 8 * at + m))
    {
      FinalWordBits(op, a, m);
      FinalExpected(op, false, Column(keys, 8 * at + m), AccWordBit(a, m));
    }
  }

  lemma WordDoneBytes(op: Op, keys: seq<Bytes>, at: nat, w: bv64, q: nat)
    requires keys != [] && WordDone(op, keys, at, w) && q < 8
    ensures ByteDone(op, keys, at + q, ByteOf(w, q))
  {
    hide Bit, ByteOf, Expected;
    forall k: nat | k < 8
      ensures Bit(ByteOf(w, q), k) == Expected(op, Column(keys, 8 * (at + q) + k))
    {
      assert (8 * q + k) / 8 == q && (8 * q + k) % 8 == k;
      assert WordBit(w, 8 * q + k) == Expected(op, Column(keys, 8 * at + (8 * q + k)));
      assert 8 * at + (8 * q + k) == 8 * (at + q) + k;
    }
  }

  // ---------------------------------------------------------------- the command

  ghost predicate AllLonger(keys: seq<Bytes>, n: nat) {
    forall i :: 0 <= i < |keys| ==> |keys[i]| >= n
  }

  /** One turn of the word loop: four words of every key, into `res`. */
  method WordBlock(op: Op, keys: seq<Bytes>, j: nat, res: array<bv8>)
    requires keys != [] && (op == Not ==> |keys| == 1) && AllLonger(keys, j + 32) && j + 32 <= res.Length
    modifies res
    ensures forall i :: 0 <= i < res.Length && !(j <= i < j + 32) ==> res[i] == old(res[i])
    ensures forall i: nat :: j <= i < j + 32 ==> ByteDone(op, keys, i, res[i])
  {
    hide WordState, WordDone, ByteDone, StepWord, FinalWord, LoadWord, ByteOf, Not64;
    var l: seq<Acc<bv64>> := [];
    var q := 0;
    while q < 4
      invariant 0 <= q <= 4 && |l| == q && res[..] == old(res[..])
      invariant forall x :: 0 <= x < q ==> WordState(op, keys, j + 8 * x, 1, l[x])
    {
      var w := LoadWord(keys[0], j + 8 * q);
      var a := Acc(if op == Not then Not64(w) else w, 0, 0);
      StartWordState(op, keys, j + 8 * q, a);
      l := l + [a];
      q := q + 1;
    }
    var i := 1;
    while i < |keys|
      invariant 1 <= i <= |keys| && |l| == 4 && res[..] == old(res[..])
      invariant forall x :: 0 <= x < 4 ==> WordState(op, keys, j + 8 * x, i, l[x])
    {
      ghost var before := l;
      q := 0;
      while q < 4
        invariant 0 <= q <= 4 && |l| == 4 && res[..] == old(res[..])
        invariant forall x :: q <= x < 4 ==> l[x] == before[x]
        invariant forall x :: 0 <= x < q ==> WordState(op, keys, j + 8 * x, i + 1, l[x])
      {
        NextWordState(op, keys, j + 8 * q, i, l[q]);
        l := l[q := StepWord(op, l[q], LoadWord(keys[i], j + 8 * q))];
        q := q + 1;
      }
      i := i + 1;
    }
    q := 0;
    while q < 4
      invariant 0 <= q <= 4
      invariant forall x :: 0 <= x < res.Length && !(j <= x < j + 32) ==> res[x] == old(res[x])
      invariant forall x: nat :: j <= x < j + 8 * q ==> ByteDone(op, keys, x, res[x])
    {
      WordResult(op, keys, j + 8 * q, l[q]);
      StoreWord(op, keys, j + 8 * q, FinalWord(op, l[q]), res);
      q := q + 1;
    }
  }

  method StoreWord(op: Op, keys: seq<Bytes>, at: nat, w: bv64, res: array<bv8>)
    requires keys != [] && WordDone(op, keys, at, w) && at + 8 <= res.Length
    modifies res
    ensures forall i :: 0 <= i < res.Length && !(at <= i < at + 8) ==> res[i] == old(res[i])
    ensures forall i: nat :: at <= i < at + 8 ==> ByteDone(op, keys, i, res[i])
  {
    hide WordDone, ByteDone, ByteOf;
    var r := 0;
    while r < 8
      invariant 0 <= r <= 8
      invariant forall x :: 0 <= x < res.Length && !(at <= x < at + 8) ==> res[x] == old(res[x])
      invariant forall x: nat :: at <= x < at + r ==> ByteDone(op, keys, x, res[x])
    {
      WordDoneBytes(op, keys, at, w, r);
      res[at + r] := ByteOf(w, r);
      r := r + 1;
    }
  }

  function MaxLen(keys: seq<Bytes>): nat {
    if keys == [] then 0 else
    var m := MaxLen(keys[..|keys| - 1]);
    if |keys[|keys| - 1]| > m then |keys[|keys| - 1]| else m
  }

  /** `m` is the least of the lengths. */
  ghost predicate IsMinLen(keys: seq<Bytes>, m: nat) {
    AllLonger(keys, m) && exists i :: 0 <= i < |keys| && |keys[i]| == m
  }

  /** `m` is the largest of the lengths. */
  ghost predicate IsMaxLen(keys: seq<Bytes>, m: nat) {
    (forall i :: 0 <= i < |keys| ==> |keys[i]| <= m) && exists i :: 0 <= i < |keys| && |keys[i]| == m
  }

  /** A missing key counts as an empty string. */
  function Strings(keys: seq<Option<Bytes>>): (r: seq<Bytes>)
    ensures |r| == |keys|
  {
    seq(|keys|, i requires 0 <= i < |keys| => if keys[i].Some? then keys[i].value else [])
  }

  function MinLen(keys: seq<Bytes>): nat
    requires keys != []
  {
    var n := |keys[|keys| - 1]|;
    if |keys| == 1 then n else
    var m := MinLen(keys[..|keys| - 1]);
    if n < m then n else m
  }

  lemma {:induction false} MinLenIs(keys: seq<Bytes>)
    requires keys != []
    ensures IsMinLen(keys, MinLen(keys))
    decreases |keys|
  {
    var front, last := keys[..|keys| - 1], keys[|keys| - 1];
    if |keys| > 1 {
      MinLenIs(front);
      var i :| 0 <= i < |front| && |front[i]| == MinLen(front);
      assert |keys[i]| == MinLen(front);
    }
    assert |keys[|keys| - 1]| == |last|;
  }

  lemma LengthsSnoc(strs: seq<Bytes>, j: nat)
    requires j < |strs|
    ensures var n := |strs[j]|;
            && MaxLen(strs[..j + 1]) == (if n > MaxLen(strs[..j]) then n else MaxLen(strs[..j]))
            && MinLen(strs[..j + 1]) == if j == 0 || n < MinLen(strs[..j]) then n else MinLen(strs[..j])
  {
    assert strs[..j + 1][..j] == strs[..j] && strs[..j + 1][j] == strs[j];
  }

  /** The lookup loop: `maxlen` is the largest length and `minlen` the least one, missing keys
      included. */
  method Lengths(keys: seq<Option<Bytes>>) returns (minlen: nat, maxlen: nat)
    requires keys != []
    ensures IsMinLen(Strings(keys), minlen) && maxlen == MaxLen(Strings(keys))
  {
    hide MinLen, MaxLen, IsMinLen;
    ghost var strs := Strings(keys);
    minlen, maxlen := 0, 0;
    NoKeys();
    assert strs[..0] == [];
    var j := 0;
    while j < |keys|
      invariant 0 <= j <= |keys| && maxlen == MaxLen(strs[..j])
      invariant j > 0 ==> minlen == MinLen(strs[..j])
    {
      LengthsSnoc(strs, j);
      if keys[j].None? {
        minlen := 0;
      } else {
        var len := |keys[j].value|;
        if len > maxlen { maxlen := len; }
        if j == 0 || len < minlen { minlen := len; }
      }
      j := j + 1;
    }
    assert strs[..j] == strs;
    MinLenIs(strs);
  }

  lemma NoKeys()
    ensures MaxLen([]) == 0
  {
  }

  lemma {:induction false} MaxLenBounds(keys: seq<Bytes>, i: nat)
    requires i < |keys|
    ensures |keys[i]| <= MaxLen(keys)
    decreases |keys|
  {
    if i < |keys| - 1 { MaxLenBounds(keys[..|keys| - 1], i); }
  }

  lemma {:induction false} MaxLenIs(keys: seq<Bytes>)
    requires keys != []
    ensures IsMaxLen(keys, MaxLen(keys))
    decreases |keys|
  {
    var front, last := keys[..|keys| - 1], keys[|keys| - 1];
    assert |keys[|keys| - 1]| == |last|;
    if |keys| > 1 {
      MaxLenIs(front);
      var i :| 0 <= i < |front| && |front[i]| == MaxLen(front);
      assert |keys[i]| == MaxLen(front);
    }
  }

  /** The arity errors of bitopCommand. */
  predicate ArityOk(op: Op, n: nat) {
    && (op == Not ==> n == 1)
    && (op == Diff || op == Diff1 || op == AndOr ==> n >= 2)
  }

  /** BITOP: the word path while all keys have 32 bytes left, then byte by byte; every bit of the
      result is the operator applied to the bits of the zero-padded keys. */
  method BitopCommand(op: Op, keys: seq<Option<Bytes>>) returns (r: Option<Bytes>)
    requires keys != []
    ensures r.Some? <==> match op case Not => |keys| == 1 case Diff | Diff1 | AndOr => |keys| >= 2 case _ => true
    ensures r.Some? ==> IsMaxLen(Strings(keys), |r.value|)
    ensures r.Some? ==> forall i: nat :: i < 8 * |r.value| ==>
                          BitAt(r.value, i) == Expected(op, Column(Strings(keys), i))
  {
    hide ByteDone, Expected, MaxLen, Column;
    if !ArityOk(op, |keys|) {
      return None;
    }
    var minlen, maxlen := Lengths(keys);
    var strs := Strings(keys);
    var res := new bv8[maxlen](_ => 0);
    if maxlen > 0 {
      var left, j := minlen, 0;
      assert minlen <= maxlen by { MinBelowMax(strs, minlen); }
      while left >= 32
        invariant j + left == minlen && j >= 0 && left >= 0
        invariant forall x: nat :: x < j ==> ByteDone(op, strs, x, res[x])
      {
        WordBlock(op, strs, j, res);
        j, left := j + 32, left - 32;
      }
      while j < maxlen
        invariant 0 <= j <= maxlen
        invariant forall x: nat :: x < j ==> ByteDone(op, strs, x, res[x])
      {
        var b := ByteColumn(op, strs, j);
        res[j] := b;
        j := j + 1;
      }
    }
    forall i: nat | i < 8 * maxlen
      ensures BitAt(res[..], i) == Expected(op, Column(strs, i))
    {
      BitOfByte(op, strs, res[..], i);
    }
    MaxLenIs(strs);
    return Some(res[..]);
  }

  lemma MinBelowMax(keys: seq<Bytes>, m: nat)
    requires IsMinLen(keys, m)
    ensures m <= MaxLen(keys)
  {
    var i :| 0 <= i < |keys| && |keys[i]| == m;
    MaxLenBounds(keys, i);
  }

  lemma BitOfByte(op: Op, keys: seq<Bytes>, r: Bytes, i: nat)
    requires keys != [] && i < 8 * |r| && ByteDone(op, keys, i / 8, r[i / 8])
    ensures BitAt(r, i) == Expected(op, Column(keys, i))
  {
    hide Bit, Expected;
    assert Bit(r[i / 8], i % 8) == Expected(op, Column(keys, 8 * (i / 8) + i % 8));
    assert 8 * (i / 8) + i % 8 == i;
  }
}
