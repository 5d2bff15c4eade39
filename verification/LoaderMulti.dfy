/** Loading transactions: commands between MULTI and EXEC are queued, an open transaction at the end is taken
    back, and what that means for a file cut anywhere. */
module LoaderMulti {
  import opened Options
  import opened Decimal
  import opened Resp

  datatype Kind = Multi | Exec | Plain

  // ---------------------------------------------------------------- the loop

  /** Where the loading loop stands: the commands run, the offset after the last command read, the offset
      before the last MULTI, and the queue of an open transaction. */
  datatype Loop = Loop(ran: seq<Command>, valid: nat, before: nat, queue: Option<seq<Command>>)

  const FRESH: Loop := Loop([], 0, 0, None)

  /** What EXEC runs: a MULTI in the queue is an error without effect. */
  function Plains(q: seq<Command>, kind: Command -> Kind): seq<Command> {
    if q == [] then [] else (if kind(q[0]) == Plain then [q[0]] else []) + Plains(q[1..], kind)
  }

  /** One known command that ends at offset `end`. */
  function Fed(l: Loop, c: Command, end: nat, kind: Command -> Kind): Loop {
    var k := kind(c);
    Loop(if l.queue.Some? && k == Exec then l.ran + Plains(l.queue.value, kind)
         else if l.queue.None? && k == Plain then l.ran + [c]
         else l.ran,
         end,
         if k == Multi then l.valid else l.before,
         if l.queue.Some? then if k == Exec then None else Some(l.queue.value + [c])
         else if k == Multi then Some([])
         else None)
  }

  /** The end of the file without an error: an open transaction is a short read from before its MULTI. */
  function AtEnd(l: Loop): Outcome {
    if l.queue.Some? then Outcome(l.ran, l.before, ShortRead) else Outcome(l.ran, l.valid, CleanEof)
  }

  /** The loading loop from the point where `s` is left of a file of `total` bytes. */
  function LoadTx(l: Loop, s: seq<byte>, total: nat, known: Command -> bool, kind: Command -> Kind): Outcome
    requires |s| <= total
    decreases |s|
  {
    if s == [] then AtEnd(l) else
    var i := ReadItem(s);
    if i.Annotation? then LoadTx(l, i.rest, total, known, kind)
    else if i.Item? && known(i.argv) then LoadTx(Fed(l, i.argv, total - |i.rest|, kind), i.rest, total, known, kind)
    else Outcome(l.ran, l.valid, ExitOf(i))
  }

  function LoadTxFile(file: seq<byte>, known: Command -> bool, kind: Command -> Kind): Outcome {
    LoadTx(FRESH, file, |file|, known, kind)
  }

  lemma LoadTxStep(l: Loop, s: seq<byte>, total: nat, known: Command -> bool, kind: Command -> Kind)
    requires 0 < |s| <= total
    ensures var i := ReadItem(s);
            LoadTx(l, s, total, known, kind) ==
            if i.Annotation? then LoadTx(l, i.rest, total, known, kind)
            else if i.Item? && known(i.argv) then LoadTx(Fed(l, i.argv, total - |i.rest|, kind), i.rest, total, known, kind)
            else Outcome(l.ran, l.valid, ExitOf(i))
  {
    hide Fed, ReadItem;
  }

  /** The reading loop of loadSingleAppendOnlyFile with its transactions. */
  method ReadTransactions(file: seq<byte>, known: Command -> bool, kind: Command -> Kind)
    returns (executed: seq<Command>, validUpTo: nat, exit: Exit)
    ensures LoadTxFile(file, known, kind) == Outcome(executed, validUpTo, exit)
  {
    hide ReadItem, LoadTx, Plains;
    executed, validUpTo, exit := [], 0, CleanEof;
    var validBeforeMulti, queued: seq<Command>, inMulti, pos := 0, [], false, 0;
    assert file[0..] == file;
    while pos < |file|
      invariant pos <= |file| && exit == CleanEof
      invariant LoadTxFile(file, known, kind) ==
                LoadTx(Loop(executed, validUpTo, validBeforeMulti, if inMulti then Some(queued) else None), file[pos..],
                       |file|, known, kind)
      decreases |file| - pos
    {
      var item := ReadItem(file[pos..]);
      ReadItemAdvances(file, pos);
      LoadTxStep(Loop(executed, validUpTo, validBeforeMulti, if inMulti then Some(queued) else None), file[pos..],
                 |file|, known, kind);
      if item.Annotation? {
        pos := |file| - |item.rest|;
        continue;
      }
      if !item.Item? || !known(item.argv) {
        exit := ExitOf(item);
        return;
      }
      var c := item.argv;
      if kind(c) == Multi {
        validBeforeMulti := validUpTo;
      }
      if inMulti && kind(c) != Exec {
        queued := queued + [c];
      } else {
        match kind(c) {
          case Multi => inMulti, queued := true, [];
          case Exec =>
            if inMulti {
              executed := executed + Plains(queued, kind);
              inMulti, queued := false, [];
            }
          case Plain => executed := executed + [c];
        }
      }
      pos := |file| - |item.rest|;
      validUpTo := pos;
    }
    assert file[pos..] == [];
    LoadTxEnd(Loop(executed, validUpTo, validBeforeMulti, if inMulti then Some(queued) else None), |file|, known, kind);
    if inMulti {
      validUpTo, exit := validBeforeMulti, ShortRead;
    }
  }

  lemma LoadTxEnd(l: Loop, total: nat, known: Command -> bool, kind: Command -> Kind)
    ensures LoadTx(l, [], total, known, kind) == AtEnd(l)
  {
  }

  // ---------------------------------------------------------------- whole commands

  function FedAll(l: Loop, cs: seq<Command>, from: nat, kind: Command -> Kind): Loop
    decreases |cs|
  {
    if cs == [] then l else
    var end := from + |Encode(cs[0])|;
    FedAll(Fed(l, cs[0], end, kind), cs[1..], end, kind)
  }

  lemma {:induction false} FedLoad(l: Loop, cs: seq<Command>, t: seq<byte>, total: nat, known: Command -> bool,
                                   kind: Command -> Kind)
    requires AllValid(cs) && AllKnown(cs, known) && |EncodeAll(cs)| + |t| <= total
    ensures LoadTx(l, EncodeAll(cs) + t, total, known, kind) ==
            LoadTx(FedAll(l, cs, total - |EncodeAll(cs)| - |t|, kind), t, total, known, kind)
    decreases |cs|
  {
    hide ReadItem, LoadTx, Encode, Fed;
    if cs == [] {
      assert EncodeAll(cs) + t == t;
    } else {
      var u := EncodeAll(cs[1..]) + t;
      assert EncodeAll(cs) + t == Encode(cs[0]) + u;
      ReadItemOfEncode(cs[0], u);
      LoadTxStep(l, Encode(cs[0]) + u, total, known, kind);
      FedLoad(Fed(l, cs[0], total - |u|, kind), cs[1..], t, total, known, kind);
    }
  }

  lemma {:induction false} FedAppend(l: Loop, a: seq<Command>, b: seq<Command>, from: nat, kind: Command -> Kind)
    ensures FedAll(l, a + b, from, kind) == FedAll(FedAll(l, a, from, kind), b, from + |EncodeAll(a)|, kind)
    decreases |a|
  {
    hide Encode, Fed;
    if a == [] {
      assert a + b == b;
    } else {
      assert (a + b)[1..] == a[1..] + b;
      FedAppend(Fed(l, a[0], from + |Encode(a[0])|, kind), a[1..], b, from + |Encode(a[0])|, kind);
    }
  }

  lemma FedOne(l: Loop, c: Command, from: nat, kind: Command -> Kind)
    ensures FedAll(l, [c], from, kind) == Fed(l, c, from + |Encode(c)|, kind)
  {
    assert [c][1..] == [];
  }

  predicate AllPlain(cs: seq<Command>, kind: Command -> Kind) {
    forall i :: 0 <= i < |cs| ==> kind(cs[i]) == Plain
  }

  /** An open transaction queues plain commands. */
  lemma {:induction false} FedQueue(l: Loop, cs: seq<Command>, from: nat, kind: Command -> Kind)
    requires l.queue.Some? && AllPlain(cs, kind)
    ensures var r := FedAll(l, cs, from, kind);
            && r.ran == l.ran && r.before == l.before && r.queue == Some(l.queue.value + cs)
            && r.valid == if cs == [] then l.valid else from + |EncodeAll(cs)|
    decreases |cs|
  {
    hide Encode, Plains;
    if cs == [] {
      assert l.queue.value + cs == l.queue.value;
    } else {
      assert EncodeAll([]) == [];
      FedQueue(Fed(l, cs[0], from + |Encode(cs[0])|, kind), cs[1..], from + |Encode(cs[0])|, kind);
      assert l.queue.value + [cs[0]] + cs[1..] == l.queue.value + cs;
    }
  }

  lemma {:induction false} PlainsAll(q: seq<Command>, kind: Command -> Kind)
    requires AllPlain(q, kind)
    ensures Plains(q, kind) == q
  {
    if q != [] { PlainsAll(q[1..], kind); }
  }

  lemma {:induction false} PlainsAppend(a: seq<Command>, b: seq<Command>, kind: Command -> Kind)
    ensures Plains(a + b, kind) == Plains(a, kind) + Plains(b, kind)
  {
    hide Plains;
    if a == [] {
      PlainsNone(kind);
      assert a + b == b && [] + Plains(b, kind) == Plains(b, kind);
    } else {
      PlainsAppend(a[1..], b, kind);
      assert a == [a[0]] + a[1..] && a + b == [a[0]] + (a[1..] + b);
      PlainsStep(a[0], a[1..], kind);
      PlainsStep(a[0], a[1..] + b, kind);
      var p := if kind(a[0]) == Plain then [a[0]] else [];
      assert p + (Plains(a[1..], kind) + Plains(b, kind)) == p + Plains(a[1..], kind) + Plains(b, kind);
    }
  }

  lemma PlainsNone(kind: Command -> Kind)
    ensures Plains([], kind) == []
  {
  }

  lemma PlainsStep(c: Command, q: seq<Command>, kind: Command -> Kind)
    ensures Plains([c] + q, kind) == (if kind(c) == Plain then [c] else []) + Plains(q, kind)
  {
    assert ([c] + q)[1..] == q;
  }

  // ---------------------------------------------------------------- commands and transactions

  /** What the server writes: a command by itself, or a transaction. */
  datatype Unit = One(c: Command) | Tx(open: Command, cs: seq<Command>, close: Command)

  function Written(u: Unit): seq<Command> {
    match u
    case One(c) => [c]
    case Tx(open, cs, close) => [open] + cs + [close]
  }

  function Effects(u: Unit): seq<Command> {
    match u
    case One(c) => [c]
    case Tx(_, cs, _) => cs
  }

  function WrittenAll(us: seq<Unit>): seq<Command> {
    if us == [] then [] else Written(us[0]) + WrittenAll(us[1..])
  }

  function EffectsAll(us: seq<Unit>): seq<Command> {
    if us == [] then [] else Effects(us[0]) + EffectsAll(us[1..])
  }

  ghost predicate UnitOk(u: Unit, known: Command -> bool, kind: Command -> Kind) {
    && AllValid(Written(u)) && AllKnown(Written(u), known) && AllPlain(Effects(u), kind)
    && (u.Tx? ==> kind(u.open) == Multi && kind(u.close) == Exec)
  }

  ghost predicate UnitsOk(us: seq<Unit>, known: Command -> bool, kind: Command -> Kind) {
    forall i :: 0 <= i < |us| ==> UnitOk(us[i], known, kind)
  }

  predicate HasTx(us: seq<Unit>) {
    exists i :: 0 <= i < |us| && us[i].Tx?
  }

  /** The start of a transaction runs nothing; the offset before it is kept. */
  lemma FedOpen(l: Loop, open: Command, cs: seq<Command>, from: nat, kind: Command -> Kind)
    requires l.queue.None? && kind(open) == Multi && AllPlain(cs, kind)
    ensures FedAll(l, [open] + cs, from, kind) == Loop(l.ran, from + |EncodeAll([open] + cs)|, l.valid, Some(cs))
  {
    hide Encode, EncodeAll, AllPlain;
    FedAppend(l, [open], cs, from, kind);
    FedOne(l, open, from, kind);
    EncodeOne(open);
    EncodeAllAppend([open], cs);
    NoBytes();
    var l1 := Fed(l, open, from + |Encode(open)|, kind);
    hide FedAll, Fed;
    FedMulti(l, open, from + |Encode(open)|, kind);
    FedQueue(l1, cs, from + |Encode(open)|, kind);
    assert [] + cs == cs;
  }

  lemma FedMulti(l: Loop, c: Command, end: nat, kind: Command -> Kind)
    requires l.queue.None? && kind(c) == Multi
    ensures Fed(l, c, end, kind) == Loop(l.ran, end, l.valid, Some([]))
  {
  }

  lemma FedExec(l: Loop, c: Command, end: nat, kind: Command -> Kind)
    requires l.queue.Some? && kind(c) == Exec
    ensures Fed(l, c, end, kind) == Loop(l.ran + Plains(l.queue.value, kind), end, l.before, None)
  {
  }

  /** A unit outside a transaction takes effect as a whole. */
  lemma FedUnit(l: Loop, u: Unit, from: nat, known: Command -> bool, kind: Command -> Kind)
    requires l.queue.None? && UnitOk(u, known, kind)
    ensures var r := FedAll(l, Written(u), from, kind);
            r.ran == l.ran + Effects(u) && r.queue == None && r.valid == from + |EncodeAll(Written(u))|
  {
    hide Encode, EncodeAll, FedAll, AllPlain;
    match u {
      case One(c) =>
        FedOne(l, c, from, kind);
        EncodeOne(c);
        assert kind(c) == Plain by { OnePlain(c, kind); }
      case Tx(open, cs, close) =>
        hide Fed;
        FedAppend(l, [open] + cs, [close], from, kind);
        FedOpen(l, open, cs, from, kind);
        EncodeOne(close);
        EncodeAllAppend([open] + cs, [close]);
        var l2 := FedAll(l, [open] + cs, from, kind);
        FedOne(l2, close, from + |EncodeAll([open] + cs)|, kind);
        FedExec(l2, close, from + |EncodeAll([open] + cs)| + |Encode(close)|, kind);
        PlainsAll(cs, kind);
    }
  }

  lemma OnePlain(c: Command, kind: Command -> Kind)
    ensures AllPlain([c], kind) <==> kind(c) == Plain
  {
    assert [c][0] == c;
  }

  lemma EncodeOne(c: Command)
    ensures EncodeAll([c]) == Encode(c)
  {
    assert [c][1..] == [] && Encode(c) + [] == Encode(c);
  }

  lemma {:induction false} FedUnits(l: Loop, us: seq<Unit>, from: nat, known: Command -> bool, kind: Command -> Kind)
    requires l.queue.None? && UnitsOk(us, known, kind)
    ensures var r := FedAll(l, WrittenAll(us), from, kind);
            && r.ran == l.ran + EffectsAll(us) && r.queue == None
            && r.valid == if us == [] then l.valid else from + |EncodeAll(WrittenAll(us))|
    decreases |us|
  {
    hide Written, Effects, EncodeAll, UnitOk, FedAll;
    if us == [] {
      assert l.ran + [] == l.ran && FedAll(l, [], from, kind) == l by { FedNone(l, from, kind); }
    } else {
      var w := Written(us[0]);
      FedAppend(l, w, WrittenAll(us[1..]), from, kind);
      FedUnit(l, us[0], from, known, kind);
      FedUnits(FedAll(l, w, from, kind), us[1..], from + |EncodeAll(w)|, known, kind);
      EncodeAllAppend(w, WrittenAll(us[1..]));
      if us[1..] == [] { assert EncodeAll([]) == [] by { NoBytes(); } }
      assert l.ran + Effects(us[0]) + EffectsAll(us[1..]) == l.ran + (Effects(us[0]) + EffectsAll(us[1..]));
    }
  }

  lemma FedNone(l: Loop, from: nat, kind: Command -> Kind)
    ensures FedAll(l, [], from, kind) == l
  {
  }

  lemma NoBytes()
    ensures EncodeAll([]) == []
  {
  }

  // ---------------------------------------------------------------- a file cut anywhere

  /** The units `us`, the first `j` commands of `u` and the first `k` bytes of its next command. */
  function Cut(us: seq<Unit>, u: Unit, j: nat, k: nat): seq<byte>
    requires j < |Written(u)| && k < |Encode(Written(u)[j])|
  {
    EncodeAll(WrittenAll(us) + Written(u)[..j]) + Encode(Written(u)[j])[..k]
  }

  lemma LoadTxCut(l: Loop, c: Command, k: nat, total: nat, known: Command -> bool, kind: Command -> Kind)
    requires Valid(c) && k < |Encode(c)| && k <= total
    ensures LoadTx(l, Encode(c)[..k], total, known, kind) == if k == 0 then AtEnd(l) else Outcome(l.ran, l.valid, ShortRead)
  {
    hide ReadItem, Encode, Fed;
    if k == 0 {
      assert Encode(c)[..0] == [];
    } else {
      ReadItemCut(c, k);
      LoadTxStep(l, Encode(c)[..k], total, known, kind);
    }
  }

  /** The loop after whole units and the first `j` commands of another. */
  lemma FedPart(us: seq<Unit>, u: Unit, j: nat, known: Command -> bool, kind: Command -> Kind)
    requires UnitsOk(us, known, kind) && UnitOk(u, known, kind) && j < |Written(u)|
    ensures var r := FedAll(FRESH, WrittenAll(us) + Written(u)[..j], 0, kind);
            && r.ran == EffectsAll(us)
            && (j == 0 ==> r.queue == None && r.valid == |EncodeAll(WrittenAll(us))|)
            && (j > 0 ==> u.Tx? && r.queue == Some(u.cs[..j - 1]) && r.before == |EncodeAll(WrittenAll(us))|
                          && r.valid == |EncodeAll(WrittenAll(us) + Written(u)[..j])|)
  {
    hide EncodeAll, FedAll, UnitsOk;
    var w, p := WrittenAll(us), Written(u)[..j];
    FedUnits(FRESH, us, 0, known, kind);
    NoBytes();
    assert [] + EffectsAll(us) == EffectsAll(us);
    var l := FedAll(FRESH, w, 0, kind);
    if j == 0 {
      assert w + p == w;
    } else {
      FedAppend(FRESH, w, p, 0, kind);
      EncodeAllAppend(w, p);
      assert p == [u.open] + u.cs[..j - 1];
      FedOpen(l, u.open, u.cs[..j - 1], |EncodeAll(w)|, kind);
    }
  }

  /** Whole units take effect and the cut one does not. The file is good up to the start of the cut unit,
      except when the cut falls inside a command that stands in a transaction: then up to that command. */
  lemma CutTx(us: seq<Unit>, u: Unit, j: nat, k: nat, known: Command -> bool, kind: Command -> Kind)
    requires UnitsOk(us, known, kind) && UnitOk(u, known, kind) && j < |Written(u)| && k < |Encode(Written(u)[j])|
    ensures var file, o := Cut(us, u, j, k), LoadTxFile(Cut(us, u, j, k), known, kind);
            && o.executed == EffectsAll(us) && o.exit == (if j == 0 && k == 0 then CleanEof else ShortRead)
            && |EncodeAll(WrittenAll(us))| <= |file| && k <= |file|
            && o.validUpTo == if j > 0 && k > 0 then |file| - k else |EncodeAll(WrittenAll(us))|
  {
    var w, c := WrittenAll(us) + Written(u)[..j], Written(u)[j];
    WrittenOk(us, u, j, known, kind);
    EncodeAllAppend(WrittenAll(us), Written(u)[..j]);
    hide LoadTx, FedAll, UnitsOk, UnitOk, WrittenAll, Written, Encode, EncodeAll, EffectsAll;
    var file := Cut(us, u, j, k);
    FedLoad(FRESH, w, Encode(c)[..k], |file|, known, kind);
    FedPart(us, u, j, known, kind);
    LoadTxCut(FedAll(FRESH, w, 0, kind), c, k, |file|, known, kind);
  }

  lemma {:induction false} WrittenAllOk(us: seq<Unit>, known: Command -> bool, kind: Command -> Kind)
    requires UnitsOk(us, known, kind)
    ensures AllValid(WrittenAll(us)) && AllKnown(WrittenAll(us), known)
  {
    hide Written;
    if us != [] {
      assert UnitOk(us[0], known, kind);
      WrittenAllOk(us[1..], known, kind);
    }
  }

  lemma WrittenOk(us: seq<Unit>, u: Unit, j: nat, known: Command -> bool, kind: Command -> Kind)
    requires UnitsOk(us, known, kind) && UnitOk(u, known, kind) && j < |Written(u)|
    ensures AllValid(WrittenAll(us) + Written(u)[..j]) && AllKnown(WrittenAll(us) + Written(u)[..j], known)
    ensures Valid(Written(u)[j])
  {
    WrittenAllOk(us, known, kind);
    hide Written, WrittenAll, UnitsOk;
  }

  // ---------------------------------------------------------------- going on with the recovered file

  lemma FedOneQueued(l: Loop, c: Command, from: nat, kind: Command -> Kind)
    requires l.queue.Some? && kind(c) == Plain
    ensures var r := FedAll(l, Written(One(c)), from, kind);
            r.ran == l.ran && r.before == l.before && r.queue == Some(l.queue.value + [c])
  {
    FedOne(l, c, from, kind);
    hide FedAll, Encode;
  }

  /** A transaction inside an open one: its MULTI is queued, and its EXEC runs the whole queue. */
  lemma FedTxQueued(l: Loop, u: Unit, from: nat, known: Command -> bool, kind: Command -> Kind)
    requires l.queue.Some? && u.Tx? && UnitOk(u, known, kind)
    ensures var r := FedAll(l, Written(u), from, kind);
            r.ran == l.ran + (Plains(l.queue.value, kind) + u.cs) && r.queue == None
  {
    hide Encode, EncodeAll, FedAll, Plains, AllPlain, AllValid, AllKnown;
    var a, q := [u.open] + u.cs, l.queue.value;
    FedAppend(l, a, [u.close], from, kind);
    FedAppend(l, [u.open], u.cs, from, kind);
    FedOne(l, u.open, from, kind);
    var l1 := Fed(l, u.open, from + |Encode(u.open)|, kind);
    assert l1.ran == l.ran && l1.queue == Some(q + [u.open]);
    hide Fed;
    FedQueue(l1, u.cs, from + |EncodeAll([u.open])|, kind);
    var l2 := FedAll(l, a, from, kind);
    FedOne(l2, u.close, from + |EncodeAll(a)|, kind);
    FedExec(l2, u.close, from + |EncodeAll(a)| + |Encode(u.close)|, kind);
    PlainsAppend(q + [u.open], u.cs, kind);
    PlainsAppend(q, [u.open], kind);
    PlainsAll(u.cs, kind);
    assert Plains([u.open], kind) == [] by { NotPlain(u.open, kind); }
    assert Plains(q, kind) + [] == Plains(q, kind);
  }

  lemma NotPlain(c: Command, kind: Command -> Kind)
    requires kind(c) != Plain
    ensures Plains([c], kind) == []
  {
    assert [c][1..] == [];
  }

  /** What an open transaction does to the units behind it: without a transaction among them it takes them
      all in and runs nothing; otherwise the next EXEC runs its queue as well. */
  lemma {:induction false} FedUnitsQueued(l: Loop, us: seq<Unit>, from: nat, known: Command -> bool, kind: Command -> Kind)
    requires l.queue.Some? && UnitsOk(us, known, kind)
    ensures var r := FedAll(l, WrittenAll(us), from, kind);
            if HasTx(us) then r.ran == l.ran + (Plains(l.queue.value, kind) + EffectsAll(us)) && r.queue == None
            else r.ran == l.ran && r.before == l.before && r.queue.Some?
    decreases |us|
  {
    hide Written, EncodeAll, FedAll, Plains, UnitOk, HasTx, WrittenAll, EffectsAll;
    if us == [] {
      NoUnits();
      FedNone(l, from, kind);
    } else {
      var u, t := us[0], us[1..];
      assert UnitOk(u, known, kind) && UnitsOk(t, known, kind);
      AllStep(us);
      HasTxStep(us);
      if u.Tx? {
        TxBehind(l, u, t, from, known, kind);
      } else {
        var w := Written(u);
        FedAppend(l, w, WrittenAll(t), from, kind);
        UnitPlain(u, known, kind);
        FedOneQueued(l, u.c, from, kind);
        FedUnitsQueued(FedAll(l, w, from, kind), t, from + |EncodeAll(w)|, known, kind);
        OneMore(l.queue.value, u.c, EffectsAll(t), kind);
      }
    }
  }

  lemma NoUnits()
    ensures WrittenAll([]) == [] && !HasTx([])
  {
  }

  lemma OneMore(q: seq<Command>, c: Command, e: seq<Command>, kind: Command -> Kind)
    requires kind(c) == Plain
    ensures Plains(q + [c], kind) + e == Plains(q, kind) + ([c] + e)
  {
    PlainsSnoc(q, c, kind);
    hide Plains;
    assert Plains(q, kind) + [c] + e == Plains(q, kind) + ([c] + e);
  }

  lemma TxBehind(l: Loop, u: Unit, t: seq<Unit>, from: nat, known: Command -> bool, kind: Command -> Kind)
    requires l.queue.Some? && u.Tx? && UnitOk(u, known, kind) && UnitsOk(t, known, kind)
    ensures var r := FedAll(l, Written(u) + WrittenAll(t), from, kind);
            r.ran == l.ran + (Plains(l.queue.value, kind) + (u.cs + EffectsAll(t))) && r.queue == None
  {
    hide Written, EncodeAll, FedAll, Plains, UnitOk, UnitsOk, WrittenAll, EffectsAll;
    var w, p, e := Written(u), Plains(l.queue.value, kind), EffectsAll(t);
    FedAppend(l, w, WrittenAll(t), from, kind);
    FedTxQueued(l, u, from, known, kind);
    FedUnits(FedAll(l, w, from, kind), t, from + |EncodeAll(w)|, known, kind);
    assert l.ran + (p + u.cs) + e == l.ran + (p + (u.cs + e));
  }

  lemma AllStep(us: seq<Unit>)
    requires us != []
    ensures WrittenAll(us) == Written(us[0]) + WrittenAll(us[1..])
    ensures EffectsAll(us) == (if us[0].Tx? then us[0].cs else [us[0].c]) + EffectsAll(us[1..])
  {
    hide Written;
  }

  lemma PlainsSnoc(q: seq<Command>, c: Command, kind: Command -> Kind)
    requires kind(c) == Plain
    ensures Plains(q + [c], kind) == Plains(q, kind) + [c]
  {
    hide Plains;
    PlainsAppend(q, [c], kind);
    PlainsAll([c], kind) by { OnePlain(c, kind); }
  }

  lemma UnitPlain(u: Unit, known: Command -> bool, kind: Command -> Kind)
    requires u.One? && UnitOk(u, known, kind)
    ensures kind(u.c) == Plain
  {
    OnePlain(u.c, kind);
  }

  lemma HasTxStep(us: seq<Unit>)
    requires us != []
    ensures HasTx(us) <==> us[0].Tx? || HasTx(us[1..])
  {
    if i :| 0 < i < |us| && us[i].Tx? { assert us[1..][i - 1].Tx?; }
    if i :| 0 <= i < |us[1..]| && us[1..][i].Tx? { assert us[i + 1].Tx?; }
  }

  /** The loop over a file of two parts that hold whole commands. */
  lemma TwoParts(w: seq<Command>, x: seq<Command>, known: Command -> bool, kind: Command -> Kind)
    requires AllValid(w) && AllValid(x) && AllKnown(w, known) && AllKnown(x, known)
    ensures LoadTxFile(EncodeAll(w) + EncodeAll(x), known, kind) ==
            AtEnd(FedAll(FedAll(FRESH, w, 0, kind), x, |EncodeAll(w)|, kind))
  {
    hide LoadTx, FedAll, EncodeAll, AllValid, AllKnown;
    var file := EncodeAll(w) + EncodeAll(x);
    assert file == file + [];
    EncodeAllAppend(w, x);
    FedAppend(FRESH, w, x, 0, kind);
    AllAppend(w, x, known);
    FedLoad(FRESH, w + x, [], |file|, known, kind);
    LoadTxEnd(FedAll(FRESH, w + x, 0, kind), |file|, known, kind);
  }

  /** Units written behind whole units and the first `d` commands of another. */
  lemma AppendedIs(us: seq<Unit>, u: Unit, d: nat, more: seq<Unit>, known: Command -> bool, kind: Command -> Kind)
    requires UnitsOk(us, known, kind) && UnitOk(u, known, kind) && d < |Written(u)| && UnitsOk(more, known, kind)
    ensures var o := LoadTxFile(EncodeAll(WrittenAll(us) + Written(u)[..d]) + EncodeAll(WrittenAll(more)), known, kind);
            && (d == 0 ==> o.executed == EffectsAll(us) + EffectsAll(more) && o.exit == CleanEof)
            && (d > 0 && HasTx(more) ==>
                  u.Tx? && o.executed == EffectsAll(us) + (u.cs[..d - 1] + EffectsAll(more)) && o.exit == CleanEof)
            && (d > 0 && !HasTx(more) ==>
                  o.executed == EffectsAll(us) && o.exit == ShortRead && o.validUpTo == |EncodeAll(WrittenAll(us))|)
  {
    var w, x := WrittenAll(us) + Written(u)[..d], WrittenAll(more);
    WrittenOk(us, u, d, known, kind);
    WrittenAllOk(more, known, kind);
    if d > 0 { TxPart(u, d, known, kind); }
    hide LoadTxFile, FedAll, UnitsOk, UnitOk, WrittenAll, Written, EncodeAll, EffectsAll, AllPlain, HasTx, AllValid, AllKnown;
    TwoParts(w, x, known, kind);
    var l := FedAll(FRESH, w, 0, kind);
    FedPart(us, u, d, known, kind);
    if d == 0 {
      FedUnits(l, more, |EncodeAll(w)|, known, kind);
    } else {
      FedUnitsQueued(l, more, |EncodeAll(w)|, known, kind);
      PlainsAll(u.cs[..d - 1], kind);
    }
  }

  lemma TxPart(u: Unit, d: nat, known: Command -> bool, kind: Command -> Kind)
    requires UnitOk(u, known, kind) && 0 < d < |Written(u)|
    ensures u.Tx? && d - 1 <= |u.cs| && AllPlain(u.cs[..d - 1], kind)
  {
  }

  lemma AllAppend(a: seq<Command>, b: seq<Command>, known: Command -> bool)
    requires AllValid(a) && AllValid(b) && AllKnown(a, known) && AllKnown(b, known)
    ensures AllValid(a + b) && AllKnown(a + b, known)
  {
    hide Valid;
  }

  /** A file cut anywhere, recovered, and written to again: it loads to the units that were whole and those
      written since exactly when the cut was not inside a command of a transaction, or only the MULTI was
      whole and a transaction follows, or nothing follows. */
  lemma RecoveredGoesOnIff(us: seq<Unit>, u: Unit, j: nat, k: nat, more: seq<Unit>, known: Command -> bool, kind: Command -> Kind)
    requires UnitsOk(us, known, kind) && UnitOk(u, known, kind) && j < |Written(u)| && k < |Encode(Written(u)[j])|
    requires UnitsOk(more, known, kind)
    ensures LoadTxFile(Cut(us, u, j, k), known, kind).validUpTo <= |Cut(us, u, j, k)|
    ensures var kept := Cut(us, u, j, k)[..LoadTxFile(Cut(us, u, j, k), known, kind).validUpTo];
            LoadTxFile(kept + EncodeAll(WrittenAll(more)), known, kind).executed == EffectsAll(us) + EffectsAll(more)
            <==> j == 0 || k == 0 || (if HasTx(more) then j == 1 else more == [])
  {
    var d := if k > 0 then j else 0;
    CutTx(us, u, j, k, known, kind);
    KeptIs(us, u, j, k);
    AppendedIs(us, u, d, more, known, kind);
    if d > 0 && !HasTx(more) { EffectsNone(more); }
    hide LoadTxFile, UnitsOk, UnitOk, WrittenAll, Written, Encode, EncodeAll, Cut;
    if d > 0 && HasTx(more) {
      assert |EffectsAll(us) + (u.cs[..d - 1] + EffectsAll(more))| == |EffectsAll(us)| + (d - 1) + |EffectsAll(more)|;
      if d == 1 { assert u.cs[..0] + EffectsAll(more) == EffectsAll(more); }
    }
  }

  lemma KeptIs(us: seq<Unit>, u: Unit, j: nat, k: nat)
    requires j < |Written(u)| && k < |Encode(Written(u)[j])|
    ensures var file := Cut(us, u, j, k);
            && k <= |file| && file[..|file| - k] == EncodeAll(WrittenAll(us) + Written(u)[..j])
            && |EncodeAll(WrittenAll(us))| <= |file|
            && file[..|EncodeAll(WrittenAll(us))|] == EncodeAll(WrittenAll(us) + Written(u)[..0])
  {
    hide WrittenAll, Written, Encode, EncodeAll;
    EncodeAllAppend(WrittenAll(us), Written(u)[..j]);
    assert WrittenAll(us) + Written(u)[..0] == WrittenAll(us);
    var a, b, c := EncodeAll(WrittenAll(us)), EncodeAll(Written(u)[..j]), Encode(Written(u)[j])[..k];
    assert (a + b + c)[..|a|] == a;
  }

  lemma EffectsNone(us: seq<Unit>)
    requires !HasTx(us)
    ensures EffectsAll(us) == [] <==> us == []
  {
    if us != [] { assert us[0].One?; }
  }

  // ---------------------------------------------------------------- every cut has this form

  lemma CutCommands(cs: seq<Command>, k: nat) returns (j: nat, m: nat)
    requires k < |EncodeAll(cs)|
    ensures j < |cs| && m < |Encode(cs[j])| && EncodeAll(cs)[..k] == EncodeAll(cs[..j]) + Encode(cs[j])[..m]
  {
    hide EncodeAll, Encode, Whole;
    j := Whole(cs, k);
    assert j < |cs| by { assert cs[..|cs|] == cs; }
    m := k - |EncodeAll(cs[..j])|;
    assert cs[..j + 1] == cs[..j] + [cs[j]] && cs == cs[..j + 1] + cs[j + 1..];
    EncodeAllAppend(cs[..j], [cs[j]]);
    EncodeAllAppend(cs[..j + 1], cs[j + 1..]);
    EncodeOne(cs[j]);
    var a, b, c := EncodeAll(cs[..j]), Encode(cs[j]), EncodeAll(cs[j + 1..]);
    assert (a + b + c)[..k] == a + b[..m];
  }

  lemma {:induction false} EveryCut(us: seq<Unit>, k: nat) returns (n: nat, j: nat, m: nat)
    requires k < |EncodeAll(WrittenAll(us))|
    ensures n < |us| && j < |Written(us[n])| && m < |Encode(Written(us[n])[j])|
    ensures EncodeAll(WrittenAll(us))[..k] == Cut(us[..n], us[n], j, m)
    decreases |us|
  {
    hide Written, Encode;
    var w := Written(us[0]);
    EncodeAllAppend(w, WrittenAll(us[1..]));
    var e, f := EncodeAll(w), EncodeAll(WrittenAll(us[1..]));
    if k < |e| {
      j, m := CutCommands(w, k);
      n := 0;
      assert us[..0] == [] && [] + w[..j] == w[..j];
      assert (e + f)[..k] == e[..k];
    } else {
      var i: nat;
      i, j, m := EveryCut(us[1..], k - |e|);
      n := i + 1;
      assert (e + f)[..k] == e + f[..k - |e|];
      var p, v := WrittenAll(us[1..][..i]), us[n];
      assert us[..n][1..] == us[1..][..i];
      assert w + p + Written(v)[..j] == w + (p + Written(v)[..j]);
      EncodeAllAppend(w, p + Written(v)[..j]);
    }
  }

  // ---------------------------------------------------------------- without transactions

  /** A file without transactions loads as before. */
  lemma {:induction false} NoTransactions(l: Loop, s: seq<byte>, total: nat, known: Command -> bool, kind: Command -> Kind)
    requires |s| <= total && l.queue.None? && forall c :: kind(c) == Plain
    ensures var o := Load(s, total, l.valid, known);
            LoadTx(l, s, total, known, kind) == o.(executed := l.ran + o.executed)
    decreases |s|
  {
    hide ReadItem, Load, Plains;
    if s == [] {
      LoadNothing(total, l.valid, known);
      assert l.ran + [] == l.ran;
    } else {
      LoadTxStep(l, s, total, known, kind);
      hide LoadTx;
      var i := ReadItem(s);
      if i.Annotation? {
        LoadAnnotation(s, total, l.valid, known);
        NoTransactions(l, i.rest, total, known, kind);
      } else if i.Item? && known(i.argv) {
        LoadItem(s, total, l.valid, known);
        var l1 := Fed(l, i.argv, total - |i.rest|, kind);
        NoTransactions(l1, i.rest, total, known, kind);
        var o := Load(i.rest, total, total - |i.rest|, known);
        assert l.ran + [i.argv] + o.executed == l.ran + ([i.argv] + o.executed);
      } else {
        LoadStops(s, total, l.valid, known);
        assert l.ran + [] == l.ran;
      }
    }
  }

  // ---------------------------------------------------------------- a transaction cut in its second command

  const MULTI: Command := [[77, 85, 76, 84, 73]]
  const EXEC: Command := [[69, 88, 69, 67]]

  function KindOf(c: Command): Kind {
    if c == MULTI then Multi else if c == EXEC then Exec else Plain
  }

  /** MULTI, a command, EXEC, cut after one byte of the EXEC; recovered; then a command written and the
      file loaded again: nothing is run. */
  lemma WriteSwallowed(a: Command, b: Command)
    requires Valid(a) && Valid(b) && KindOf(a) == Plain && KindOf(b) == Plain
    ensures var known := (_: Command) => true;
            var file := EncodeAll([MULTI, a]) + Encode(EXEC)[..1];
            var kept := EncodeAll([MULTI, a]);
            && LoadTxFile(file, known, KindOf) == Outcome([], |kept|, ShortRead)
            && LoadTxFile(kept + EncodeAll([b]), known, KindOf).executed == []
  {
    var known := (_: Command) => true;
    var u, more := Tx(MULTI, [a], EXEC), [One(b)];
    assert UnitOk(u, known, KindOf) && UnitOk(One(b), known, KindOf);
    assert WrittenAll([]) == [] && EffectsAll([]) == [] && Written(u) == [MULTI, a, EXEC];
    assert [] + Written(u)[..2] == [MULTI, a];
    assert WrittenAll(more) == [b] by { assert more[1..] == []; }
    hide Encode, EncodeAll, LoadTxFile, UnitOk;
    CutTx([], u, 2, 1, known, KindOf);
    AppendedIs([], u, 2, more, known, KindOf);
    assert !HasTx(more);
    NoBytes();
  }
}
