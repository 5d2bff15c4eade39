/** The BITFIELD command: SET, INCRBY and GET on a string, with the overflow modes. */
module BitfieldOps {
  import opened Options
  import opened Bits
  import opened Bitfield

  // ---------------------------------------------------------------- fields

  /** The number of the type that a bit pattern stands for. */
  function Reading(k: Kind, u: nat): int
    requires KindOk(k)
  {
    if k.signed && u >= Pow2(k.bits - 1) then u - Pow2(k.bits) else u
  }

  function Read(k: Kind, s: Bytes, off: nat): int
    requires KindOk(k) && off + k.bits <= 8 * |s|
  {
    Reading(k, Value(s, off, k.bits))
  }

  lemma ReadingFits(k: Kind, u: nat)
    requires KindOk(k) && u < Pow2(k.bits)
    ensures Fits(k, Reading(k, u))
  {
    WidthBounds(k.bits);
    hide Pow2;
  }

  lemma ReadFits(k: Kind, s: Bytes, off: nat)
    requires KindOk(k) && off + k.bits <= 8 * |s|
    ensures Fits(k, Read(k, s, off))
  {
    hide Value, Pow2;
    ValueBound(s, off, k.bits);
    ReadingFits(k, Value(s, off, k.bits));
  }

  /** A number of the type is read back from its low bits. */
  lemma ReadingBack(k: Kind, x: int)
    requires KindOk(k) && Fits(k, x)
    ensures Reading(k, x % Shift(k.bits)) == x
  {
    WidthBounds(k.bits);
    hide Pow2;
    if x >= 0 {
      ModUnique(x, 0, x, Shift(k.bits));
    } else {
      ModUnique(x, -1, x + Shift(k.bits), Shift(k.bits));
    }
  }

  lemma ReadingWrapped(k: Kind, x: int)
    requires KindOk(k)
    ensures Reading(k, x % Shift(k.bits)) == Wrapped(k, x) && Fits(k, Wrapped(k, x))
  {
    ReadingFits(k, x % Shift(k.bits));
  }

  lemma ShiftIs(n: nat)
    ensures Shift(n) == Pow2(n)
  {
  }

  /** What an overflow mode stores is a number of the type. */
  lemma StoredFits(k: Kind, ow: Overflow, x: int)
    requires KindOk(k)
    ensures Stored(k, ow, x).Some? ==> Fits(k, Stored(k, ow, x).value)
  {
    WidthBounds(k.bits);
    ReadingWrapped(k, x);
    hide Pow2, Wrapped;
  }

  /** The field at `off` holds `x` and no bit outside it has changed. */
  ghost predicate FieldSet(s: Bytes, r: Bytes, k: Kind, off: nat, x: int)
    requires KindOk(k) && off + k.bits <= 8 * |s|
  {
    && |r| == |s| && Read(k, r, off) == x
    && forall j: nat :: j < 8 * |s| && !(off <= j < off + k.bits) ==> BitAt(r, j) == BitAt(s, j)
  }

  lemma WrittenField(s: Bytes, k: Kind, off: nat, x: int)
    requires KindOk(k) && off + k.bits <= 8 * |s| && Fits(k, x)
    ensures FieldSet(s, WriteBits(s, off, k.bits, Unsigned64(x)), k, off, x)
  {
    hide BitAt, Value, Unsigned64, WriteBits, Pow2;
    var r := WriteBits(s, off, k.bits, Unsigned64(x));
    WriteValue(s, off, k.bits, Unsigned64(x));
    Mod64(x, k.bits);
    ShiftIs(k.bits);
    ReadingBack(k, x);
    forall j: nat | j < 8 * |s| && !(off <= j < off + k.bits)
      ensures BitAt(r, j) == BitAt(s, j)
    {
      WriteOutside(s, off, k.bits, Unsigned64(x), j);
    }
  }

  // ---------------------------------------------------------------- reading and writing in place

  /** getUnsignedBitfield or getSignedBitfield. */
  method GetField(p: Bytes, k: Kind, off: nat) returns (value: int)
    requires KindOk(k) && off + k.bits <= 8 * |p|
    ensures value == Read(k, p, off)
  {
    hide Value;
    var u := GetUnsignedBitfield(p, off, k.bits);
    if !k.signed {
      return u;
    }
    WidthBounds(k.bits);
    LargePowers();
    ShiftIs(k.bits);
    value := Signed64(u);
    if k.bits < 64 && u / Shift(k.bits - 1) % 2 == 1 {
      value := value - Shift(k.bits);
    }
    TopBit(u, Shift(k.bits - 1));
    SmallMod(u, 2 * Shift(k.bits - 1));
  }

  lemma SmallMod(u: nat, m: nat)
    ensures u < m ==> u % m == u
  {
  }

  /** setUnsignedBitfield or setSignedBitfield. */
  method SetField(p: array<bv8>, k: Kind, off: nat, value: int)
    requires KindOk(k) && off + k.bits <= 8 * p.Length && Fits(k, value)
    modifies p
    ensures FieldSet(old(p[..]), p[..], k, off, value)
  {
    hide FieldSet, WriteBits;
    ghost var s := p[..];
    SetUnsignedBitfield(p, off, k.bits, Unsigned64(value));
    WrittenField(s, k, off, value);
  }

  /** The overflow check of the type. */
  function Check(k: Kind, value: int, incr: int, ow: Overflow): (int, int)
    requires KindOk(k) && (k.signed || value >= 0)
  {
    if k.signed then CheckSigned(value, incr, k.bits, ow) else CheckUnsigned(value, incr, k.bits, ow)
  }

  /** INCRBY: the field becomes the old value plus the increment, wrapped, clamped or left alone
      as the overflow mode says; the reply is the new value, or nothing. */
  method IncrBy(p: array<bv8>, k: Kind, off: nat, incr: int, ow: Overflow) returns (reply: Option<int>)
    requires KindOk(k) && off + k.bits <= 8 * p.Length && IsInt64(incr)
    modifies p
    ensures reply == Stored(k, ow, Read(k, old(p[..]), off) + incr)
    ensures reply.Some? ==> FieldSet(old(p[..]), p[..], k, off, reply.value)
    ensures reply.None? ==> p[..] == old(p[..])
  {
    hide FieldSet, Read, Stored, CheckSigned, CheckUnsigned;
    ghost var s := p[..];
    var oldval := GetField(p[..], k, off);
    ReadFits(k, s, off);
    StoredFits(k, ow, oldval + incr);
    CheckIs(k, oldval, incr, ow);
    var (overflow, limit) := Check(k, oldval, incr, ow);
    var newval := if overflow != 0 then limit else oldval + incr;
    if overflow != 0 && ow == Fail {
      return None;
    }
    SetField(p, k, off, newval);
    return Some(newval);
  }

  lemma CheckIs(k: Kind, value: int, incr: int, ow: Overflow)
    requires KindOk(k) && Fits(k, value) && IsInt64(incr)
    ensures var (o, limit) := Check(k, value, incr, ow);
            Stored(k, ow, value + incr) ==
            if o == 0 then Some(value + incr) else if ow == Fail then None else Some(limit)
    ensures k.signed || value >= 0
  {
    hide CheckSigned, CheckUnsigned, Wrapped, Pow2;
    if k.signed { SignedCheck(value, incr, k.bits, ow); } else { UnsignedCheck(value, incr, k.bits, ow); }
  }

  // ---------------------------------------------------------------- SET

  /** The number SET stores before any check: a 64-bit argument, reinterpreted for an unsigned
      type. */
  function SetArgument(k: Kind, arg: int): int {
    if k.signed then arg else Unsigned64(arg)
  }

  /** The subtraction the signed check makes without using it for values of the type: it wraps
      around when the argument is far below the type. */
  predicate FarBelow(k: Kind, arg: int)
    requires KindOk(k)
  {
    k.signed && k.bits < 64 && Max(k) - arg >= I64
  }

  lemma SetVerdict(arg: int, bits: nat, ow: Overflow, max: int, maxincr: int, minincr: int, w: int)
    requires IsInt64(arg) && 0 <= max < I64 && (bits != 64 ==> max < I64 / 2)
    requires maxincr == (if max - arg >= I64 then max - arg - U64 else max - arg)
    requires bits != 64 && arg <= max ==> minincr == -max - 1 - arg
    requires bits == 64 ==> max == I64 - 1
    ensures var (o, limit) := SignedVerdict(arg, 0, bits == 64, ow, max, maxincr, minincr, w);
            && (o == 0 <==> -max - 1 <= arg <= max)
            && (o != 0 && ow == Wrap ==> limit == w)
            && (o != 0 && ow == Sat ==> limit == if arg > max || (bits != 64 && max - arg >= I64) then max else -max - 1)
  {
  }

  lemma Signed64Below(x: int)
    requires I64 <= x < U64
    ensures Signed64(Unsigned64(x)) == x - U64
  {
    ModUnique(x, 0, x, U64);
  }

  lemma SetBounds(arg: int, bits: nat)
    requires 1 <= bits <= 64 && IsInt64(arg)
    ensures var max := Pow2(bits - 1) - 1;
            && 0 <= max < I64 && (bits != 64 ==> max < I64 / 2) && (bits == 64 ==> max == I64 - 1)
            && Signed64(Unsigned64(max - arg)) == (if max - arg >= I64 then max - arg - U64 else max - arg)
            && (bits != 64 && arg <= max ==> Signed64(Unsigned64(-max - 1 - arg)) == -max - 1 - arg)
  {
    WidthBounds(bits);
    LargePowers();
    if bits != 64 { WidthBounds(bits); Pow2Monotone(bits - 1, 62); }
    hide Pow2, Unsigned64, Signed64;
    var max := Pow2(bits - 1) - 1;
    if max - arg >= I64 { Signed64Below(max - arg); } else { Signed64Id(max - arg); }
    if bits != 64 && arg <= max { Signed64Id(-max - 1 - arg); }
  }

  /** The signed check of SET, for any 64-bit argument: the verdict and the wrapped value are
      right, the clamped one unless the argument is far below the type. */
  lemma SignedSetCheck(arg: int, bits: nat, ow: Overflow)
    requires 1 <= bits <= 64 && IsInt64(arg)
    ensures var k := Kind(true, bits);
            var (o, limit) := CheckSigned(arg, 0, bits, ow);
            && (o == 0 <==> Fits(k, arg))
            && (o != 0 && ow == Wrap ==> limit == Wrapped(k, arg))
            && (o != 0 && ow == Sat ==> limit == if FarBelow(k, arg) then Max(k) else Clamped(k, arg))
  {
    var max := Pow2(bits - 1) - 1;
    var maxincr, minincr := Signed64(Unsigned64(max - arg)), Signed64(Unsigned64(-max - 1 - arg));
    CheckSignedIs(arg, 0, bits, ow);
    SetBounds(arg, bits);
    hide Pow2, Unsigned64, Signed64, Wrapped, SignedVerdict, CheckSigned;
    SetVerdict(arg, bits, ow, max, maxincr, minincr, Wrapped(Kind(true, bits), arg + 0));
  }

  /** A saturating SET of a number that does not fit stores the nearest number of the type exactly
      when the argument is not far below it. */
  lemma SaturatingSet(arg: int, bits: nat)
    requires 1 <= bits <= 64 && IsInt64(arg) && !Fits(Kind(true, bits), arg)
    ensures CheckSigned(arg, 0, bits, Sat).1 == Clamped(Kind(true, bits), arg) <==> !FarBelow(Kind(true, bits), arg)
  {
    SignedSetCheck(arg, bits, Sat);
    WidthBounds(bits);
    hide Pow2, CheckSigned;
  }

  /** The far end of it: the most negative number is stored as the largest. */
  lemma SaturatingSetFails()
    ensures CheckSigned(0 - I64, 0, 8, Sat) == (1, 127) && Clamped(Kind(true, 8), 0 - I64) == -128
  {
    SignedSetCheck(0 - I64, 8, Sat);
    assert Pow2(7) == 128 by { SmallPowers(); }
    CheckSignedIs(0 - I64, 0, 8, Sat);
    SetBounds(0 - I64, 8);
    hide Pow2, CheckSigned, Unsigned64, Signed64, Wrapped;
  }

  /** What SET stores, None for nothing. */
  function SetStored(k: Kind, ow: Overflow, arg: int): Option<int>
    requires KindOk(k)
  {
    var x := SetArgument(k, arg);
    if Fits(k, x) then Some(x)
    else match ow
      case Wrap => Some(Wrapped(k, x))
      case Sat => Some(if FarBelow(k, arg) then Max(k) else Clamped(k, x))
      case Fail => None
  }

  lemma SetCheckIs(k: Kind, arg: int, ow: Overflow)
    requires KindOk(k) && IsInt64(arg)
    ensures k.signed || SetArgument(k, arg) >= 0
    ensures var x := SetArgument(k, arg);
            var (o, limit) := Check(k, x, 0, ow);
            SetStored(k, ow, arg) == if o == 0 then Some(x) else if ow == Fail then None else Some(limit)
  {
    hide CheckSigned, CheckUnsigned, Wrapped, Pow2;
    if k.signed { SignedSetCheck(arg, k.bits, ow); } else { UnsignedCheck(Unsigned64(arg), 0, k.bits, ow); }
  }

  lemma SetStoredFits(k: Kind, ow: Overflow, arg: int)
    requires KindOk(k)
    ensures SetStored(k, ow, arg).Some? ==> Fits(k, SetStored(k, ow, arg).value)
  {
    WidthBounds(k.bits);
    ReadingWrapped(k, SetArgument(k, arg));
    hide Pow2, Wrapped;
  }

  /** SET: the reply is the old value, or nothing when the argument is refused. */
  method SetOp(p: array<bv8>, k: Kind, off: nat, arg: int, ow: Overflow) returns (reply: Option<int>)
    requires KindOk(k) && off + k.bits <= 8 * p.Length && IsInt64(arg)
    modifies p
    ensures match SetStored(k, ow, arg)
            case Some(x) => reply == Some(Read(k, old(p[..]), off)) && FieldSet(old(p[..]), p[..], k, off, x)
            case None => reply == None && p[..] == old(p[..])
  {
    hide FieldSet, Read, SetStored, SetArgument, CheckSigned, CheckUnsigned;
    var oldval := GetField(p[..], k, off);
    SetCheckIs(k, arg, ow);
    SetStoredFits(k, ow, arg);
    var newval := SetArgument(k, arg);
    var (overflow, limit) := Check(k, newval, 0, ow);
    if overflow != 0 { newval := limit; }
    if overflow != 0 && ow == Fail {
      return None;
    }
    SetField(p, k, off, newval);
    return Some(oldval);
  }

  // ---------------------------------------------------------------- GET

  function Zeros(n: nat): Bytes {
    seq(n, _ => 0)
  }

  /** The string with zero bytes added up to length `n`, as sdsgrowzero leaves it. */
  function Padded(s: Bytes, n: nat): Bytes {
    if |s| >= n then s else s + Zeros(n - |s|)
  }

  /** A field of the string continued with zeros. */
  function PadRead(k: Kind, s: Bytes, off: nat): int
    requires KindOk(k)
  {
    Read(k, Padded(s, off / 8 + 9), off)
  }

  /** GET reads through a copy of nine bytes, so that it may reach past the end of the string. */
  method GetOp(src: Bytes, k: Kind, off: nat) returns (value: int)
    requires KindOk(k)
    ensures value == PadRead(k, src, off)
  {
    hide Read;
    var byte := off / 8;
    var buf: Bytes := Zeros(9);
    var i := 0;
    while i < 9 && i + byte < |src|
      invariant CopiedTo(src, byte, buf, i)
    {
      buf := buf[i := src[i + byte]];
      i := i + 1;
    }
    ghost var t := Padded(src, byte + 9);
    assert buf == t[byte..byte + 9] by { CopiedPart(src, byte, buf, i); }
    value := GetField(buf, k, off - 8 * byte);
    ReadSlice(k, t, byte, byte + 9, off - 8 * byte);
  }

  /** The first `i` bytes are those of the string from `byte` on, the others zero. */
  predicate CopiedTo(src: Bytes, byte: nat, buf: Bytes, i: int) {
    && 0 <= i <= 9 == |buf| && (i > 0 ==> byte + i <= |src|)
    && forall j :: 0 <= j < 9 ==> buf[j] == if j < i then src[byte + j] else 0
  }

  lemma CopiedPart(src: Bytes, byte: nat, buf: Bytes, i: nat)
    requires CopiedTo(src, byte, buf, i) && (i == 9 || i + byte >= |src|)
    ensures |Padded(src, byte + 9)| >= byte + 9 && buf == Padded(src, byte + 9)[byte..byte + 9]
  {
    var t := Padded(src, byte + 9);
    forall j | 0 <= j < 9
      ensures buf[j] == t[byte..byte + 9][j]
    {
      assert t[byte..byte + 9][j] == t[byte + j];
    }
  }

  lemma ReadSlice(k: Kind, t: Bytes, p: nat, q: nat, off: nat)
    requires KindOk(k) && p <= q <= |t| && off + k.bits <= 8 * (q - p)
    ensures Read(k, t[p..q], off) == Read(k, t, 8 * p + off)
  {
    hide Value;
    ValueSlice(t, p, q, off, k.bits);
  }

  // ---------------------------------------------------------------- the command

  datatype Op =
    | Get(kind: Kind, off: nat)
    | SetTo(kind: Kind, off: nat, arg: int, ow: Overflow)
    | Incr(kind: Kind, off: nat, arg: int, ow: Overflow)

  predicate OpOk(op: Op) {
    KindOk(op.kind) && (op.Get? || IsInt64(op.arg))
  }

  /** The highest bit any of the operations writes. */
  function Highest(ops: seq<Op>): nat {
    if ops == [] then 0 else
    var h, op := Highest(ops[..|ops| - 1]), ops[|ops| - 1];
    if !op.Get? && op.off + op.kind.bits > h + 1 then op.off + op.kind.bits - 1 else h
  }

  predicate ReadOnly(ops: seq<Op>) {
    forall i :: 0 <= i < |ops| ==> ops[i].Get?
  }

  /** The string the operations run on: grown to the highest bit written, if any. */
  function Grown(s: Bytes, ops: seq<Op>): Bytes {
    if ReadOnly(ops) then s else Padded(s, Highest(ops) / 8 + 1)
  }

  lemma {:induction false} HighestCovers(ops: seq<Op>, i: nat)
    requires i < |ops| && !ops[i].Get?
    ensures ops[i].off + ops[i].kind.bits <= Highest(ops) + 1
    decreases |ops|
  {
    if i < |ops| - 1 { HighestCovers(ops[..|ops| - 1], i); }
  }

  /** Every write stays inside the grown string. */
  lemma WritesInside(s: Bytes, ops: seq<Op>, i: nat)
    requires i < |ops| && !ops[i].Get?
    ensures ops[i].off + ops[i].kind.bits <= 8 * |Grown(s, ops)|
  {
    hide Highest;
    HighestCovers(ops, i);
  }

  /** An operation that writes bit `j`. */
  predicate Writes(op: Op, j: nat) {
    !op.Get? && op.off <= j < op.off + op.kind.bits
  }

  /** Growing changes no bit of the string continued with zeros. */
  lemma GrownBits(s: Bytes, ops: seq<Op>, j: nat)
    ensures PadBit(Grown(s, ops), j) == PadBit(s, j)
  {
    hide Highest;
    var g := Grown(s, ops);
    if j < 8 * |g| {
      assert j / 8 < |s| ==> g[j / 8] == s[j / 8];
      if j / 8 >= |s| {
        assert g[j / 8] == 0;
        ZeroBits(j % 8);
      }
    }
  }

  lemma ZeroBits(k: nat)
    requires k < 8
    ensures !Bit(0, k)
  {
  }

  /** The highest bit written is the last one of some operation. */
  lemma {:induction false} HighestReached(ops: seq<Op>)
    requires !ReadOnly(ops) && forall i :: 0 <= i < |ops| ==> KindOk(ops[i].kind)
    ensures exists i :: 0 <= i < |ops| && !ops[i].Get? && ops[i].off + ops[i].kind.bits == Highest(ops) + 1
    decreases |ops|
  {
    var rest, op := ops[..|ops| - 1], ops[|ops| - 1];
    if !op.Get? && op.off + op.kind.bits > Highest(rest) {
      assert ops[|ops| - 1].off + ops[|ops| - 1].kind.bits == Highest(ops) + 1;
    } else {
      if ReadOnly(rest) { AllReads(rest); }
      HighestReached(rest);
      var i :| 0 <= i < |rest| && !rest[i].Get? && rest[i].off + rest[i].kind.bits == Highest(rest) + 1;
      assert ops[i] == rest[i];
    }
  }

  lemma {:induction false} AllReads(ops: seq<Op>)
    requires ReadOnly(ops)
    ensures Highest(ops) == 0
    decreases |ops|
  {
    if ops != [] { AllReads(ops[..|ops| - 1]); }
  }

  /** The length a string needs for the operations: its own, or up to the last bit one of them writes. */
  ghost predicate LongEnough(s: Bytes, ops: seq<Op>, n: nat) {
    && n >= |s|
    && (forall i :: 0 <= i < |ops| && !ops[i].Get? ==> ops[i].off + ops[i].kind.bits <= 8 * n)
    && (n == |s| || exists i :: 0 <= i < |ops| && !ops[i].Get? && ops[i].off + ops[i].kind.bits > 8 * (n - 1))
  }

  lemma GrownLength(s: Bytes, ops: seq<Op>)
    requires forall i :: 0 <= i < |ops| ==> KindOk(ops[i].kind)
    ensures LongEnough(s, ops, |Grown(s, ops)|) && (ReadOnly(ops) ==> Grown(s, ops) == s)
  {
    hide Highest;
    forall i | 0 <= i < |ops| && !ops[i].Get? ensures ops[i].off + ops[i].kind.bits <= 8 * |Grown(s, ops)| {
      WritesInside(s, ops, i);
    }
    if !ReadOnly(ops) { HighestReached(ops); }
  }

  lemma DoneKeeps(s: Bytes, op: Op, r: Bytes, reply: Option<int>, j: nat)
    requires OpOk(op) && Done(s, op, r, reply)
    ensures |r| == |s| && (!Writes(op, j) ==> PadBit(r, j) == PadBit(s, j))
  {
    hide Read, PadRead, Stored, SetStored, BitAt;
  }

  /** What one operation does to the string and what it replies. */
  ghost predicate Done(s: Bytes, op: Op, r: Bytes, reply: Option<int>)
    requires OpOk(op)
  {
    match op
    case Get(k, off) => r == s && reply == Some(PadRead(k, s, off))
    case SetTo(k, off, arg, ow) =>
      off + k.bits <= 8 * |s| &&
      (match SetStored(k, ow, arg)
       case Some(x) => reply == Some(Read(k, s, off)) && FieldSet(s, r, k, off, x)
       case None => reply == None && r == s)
    case Incr(k, off, arg, ow) =>
      off + k.bits <= 8 * |s| && reply == Stored(k, ow, Read(k, s, off) + arg) &&
      if reply.Some? then FieldSet(s, r, k, off, reply.value) else r == s
  }

  method Execute(p: array<bv8>, op: Op) returns (reply: Option<int>)
    requires OpOk(op) && (!op.Get? ==> op.off + op.kind.bits <= 8 * p.Length)
    modifies p
    ensures Done(old(p[..]), op, p[..], reply)
  {
    hide PadRead, FieldSet, Read, Stored, SetStored;
    match op {
      case Get(k, off) =>
        var value := GetOp(p[..], k, off);
        reply := Some(value);
      case SetTo(k, off, arg, ow) => reply := SetOp(p, k, off, arg, ow);
      case Incr(k, off, arg, ow) => reply := IncrBy(p, k, off, arg, ow);
    }
  }

  /** bitfieldGeneric: room is made for the highest bit written, then the operations run in order,
      each on what the ones before it left. */
  method BitfieldCommand(s: Bytes, ops: seq<Op>) returns (r: Bytes, replies: seq<Option<int>>, ghost trace: seq<Bytes>)
    requires forall i :: 0 <= i < |ops| ==> OpOk(ops[i])
    ensures |trace| == |ops| + 1 && |replies| == |ops|
    ensures (forall j: nat :: PadBit(trace[0], j) == PadBit(s, j)) && trace[|ops|] == r
    ensures forall i :: 0 <= i < |ops| ==> Done(trace[i], ops[i], trace[i + 1], replies[i])
    ensures LongEnough(s, ops, |r|) && forall i :: 0 <= i < |trace| ==> |trace[i]| == |r|
    ensures forall j: nat :: (forall i :: 0 <= i < |ops| ==> !Writes(ops[i], j)) ==> PadBit(r, j) == PadBit(s, j)
  {
    hide Done, Highest, Padded, Writes, PadBit, Grown, LongEnough;
    var highest, readonly, i := 0, true, 0;
    NoWrites();
    while i < |ops|
      invariant 0 <= i <= |ops| && highest == Highest(ops[..i]) && (readonly <==> ReadOnly(ops[..i]))
    {
      HighestSnoc(ops, i);
      if !ops[i].Get? {
        readonly := false;
        if highest < ops[i].off + ops[i].kind.bits - 1 { highest := ops[i].off + ops[i].kind.bits - 1; }
      }
      i := i + 1;
    }
    assert ops[..i] == ops;
    var start := if readonly then s else Padded(s, highest / 8 + 1);
    assert start == Grown(s, ops) by { GrownIs(s, ops); }
    GrownLength(s, ops);
    forall j: nat ensures PadBit(start, j) == PadBit(s, j) { GrownBits(s, ops, j); }
    var p := new bv8[|start|](j requires 0 <= j < |start| => start[j]);
    assert p[..] == start;
    replies, trace := [], [p[..]];
    i := 0;
    while i < |ops|
      invariant 0 <= i <= |ops| && p.Length == |start| && |replies| == i && |trace| == i + 1
      invariant trace[0] == start && trace[i] == p[..]
      invariant forall j :: 0 <= j < i ==> Done(trace[j], ops[j], trace[j + 1], replies[j])
      invariant forall j :: 0 <= j < |trace| ==> |trace[j]| == |start|
      invariant forall j: nat :: (forall x :: 0 <= x < i ==> !Writes(ops[x], j)) ==> PadBit(p[..], j) == PadBit(s, j)
    {
      if !ops[i].Get? { WritesInside(s, ops, i); }
      ghost var before := p[..];
      var reply := Execute(p, ops[i]);
      forall j: nat | forall x :: 0 <= x < i + 1 ==> !Writes(ops[x], j) ensures PadBit(p[..], j) == PadBit(s, j) {
        DoneKeeps(before, ops[i], p[..], reply, j);
        assert !Writes(ops[i], j);
      }
      replies, trace := replies + [reply], trace + [p[..]];
      i := i + 1;
    }
    r := p[..];
  }

  lemma GrownIs(s: Bytes, ops: seq<Op>)
    ensures Grown(s, ops) == if ReadOnly(ops) then s else Padded(s, Highest(ops) / 8 + 1)
  {
  }

  lemma NoWrites()
    ensures Highest([]) == 0
  {
  }

  lemma HighestSnoc(ops: seq<Op>, i: nat)
    requires i < |ops|
    ensures var h, op := Highest(ops[..i]), ops[i];
            Highest(ops[..i + 1]) == if !op.Get? && op.off + op.kind.bits > h + 1 then op.off + op.kind.bits - 1 else h
    ensures ReadOnly(ops[..i + 1]) <==> ReadOnly(ops[..i]) && ops[i].Get?
  {
    assert ops[..i + 1][..i] == ops[..i];
    assert ops[..i + 1][i] == ops[i];
  }
}
