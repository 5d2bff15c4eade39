/** A log with NULs in it: exactly where the loader reads over them. */
module HoleBytes {
  import opened Decimal
  import opened Resp
  import AofFlush

  /** `s` with `n` NULs before its byte `k`. */
  function Holed(s: seq<byte>, k: nat, n: nat): seq<byte>
    requires k <= |s|
  {
    s[..k] + AofFlush.Zeros(n) + s[k..]
  }

  lemma HoledFront(a: seq<byte>, b: seq<byte>, k: nat, n: nat)
    requires k <= |a|
    ensures Holed(a + b, k, n) == Holed(a, k, n) + b
  {
    assert (a + b)[..k] == a[..k] && (a + b)[k..] == a[k..] + b;
  }

  lemma HoledBack(a: seq<byte>, b: seq<byte>, k: nat, n: nat)
    requires |a| <= k <= |a| + |b|
    ensures Holed(a + b, k, n) == a + Holed(b, k - |a|, n)
  {
    assert (a + b)[..k] == a + b[..k - |a|] && (a + b)[k..] == b[k - |a|..];
  }

  /** No argument, command or annotation starts with such a byte. */
  predicate Filler(b: byte) {
    b == NUL || b == CR || b == LF || IsDigit(b)
  }

  predicate AllFiller(s: seq<byte>) {
    forall i :: 0 <= i < |s| ==> Filler(s[i])
  }

  predicate StartsFilled(s: seq<byte>) {
    s != [] && Filler(s[0])
  }

  // ---------------------------------------------------------------- the number in a header

  /** The loader sees the number of a header with NULs before byte `k`: the digits before them, which
      are all the digits, or none of a zero. */
  predicate NumberKept(v: nat, k: nat) {
    k > |Digits(v)| || v == 0
  }

  /** The NULs are read over: the number is kept and the line still fits the line buffer. */
  predicate HeaderHides(v: nat, k: nat, n: nat) {
    1 <= k < |Digits(v)| + 3 && NumberKept(v, k) && |Digits(v)| + 3 + n < LINE_MAX
  }

  lemma {:induction false} PrefixValue(v: nat, j: nat)
    requires 1 <= j < |Digits(v)|
    ensures DigitsValue(Digits(v)[..j], 0) < v
  {
    var d := Digits(v);
    assert v >= 10;
    assert d[..j] == Digits(v / 10)[..j];
    if j < |Digits(v / 10)| {
      PrefixValue(v / 10, j);
    } else {
      assert Digits(v / 10)[..j] == Digits(v / 10);
      DigitsValueOfDigits(v / 10);
    }
  }

  lemma NumberBeforeNul(v: nat, j: nat, rest: seq<byte>)
    requires v <= LONG_MAX && j <= |Digits(v)| && rest != [] && rest[0] == NUL
    ensures 0 <= Strtol(Digits(v)[..j] + rest) <= v
    ensures Strtol(Digits(v)[..j] + rest) == v <==> j == |Digits(v)| || v == 0
  {
    var d := Digits(v);
    var s := d[..j] + rest;
    DigitsValueAppend(d[..j], rest, 0);
    DigitsValueOfDigits(v);
    if j == |d| {
      assert d[..j] == d;
    } else if j == 0 {
      assert s == rest;
    } else {
      PrefixValue(v, j);
    }
    assert s[0] == if j == 0 then NUL else d[0];
  }

  lemma NumberBeforeEnd(v: nat, rest: seq<byte>)
    requires v <= LONG_MAX && rest != [] && !IsDigit(rest[0])
    ensures Strtol(Digits(v) + rest) == v
  {
    StrtolOfDigits(v, rest);
  }

  /** The bytes of a header with a hole: one line feed at the end, digits, CR and NULs before it. */
  lemma HeaderBytes(mark: byte, v: nat, k: nat, n: nat)
    requires mark != LF && 1 <= k < |Digits(v)| + 3
    ensures var h := Holed(Header(mark, v), k, n);
            && |h| == |Digits(v)| + 3 + n && h[0] == mark && h[|h| - 1] == LF
            && (forall i :: 0 <= i < |h| - 1 ==> h[i] != LF) && AllFiller(h[1..])
  {
    hide Digits;
  }

  /** The number that is read, from the whole line or from as much of it as fits. */
  lemma HeaderNumber(mark: byte, v: nat, k: nat, n: nat, l: nat)
    requires mark != LF && v <= LONG_MAX && 1 <= k < |Digits(v)| + 3 && n > 0 && k < l <= |Digits(v)| + 3 + n
    ensures var h := Holed(Header(mark, v), k, n);
            var x := Strtol(h[..l][1..]);
            0 <= x <= v && (x == v <==> NumberKept(v, k))
  {
    hide Digits, Strtol, Holed;
    var d, e := Digits(v), Header(mark, v);
    HoledAt(e, k, n);
    var x := Holed(e, k, n)[..l];
    assert x[..k] == e[..k] && x[k] == NUL;
    if k <= |d| {
      assert e[..k] == [mark] + d[..k - 1];
      DropFirst(x, mark, d[..k - 1]);
      NumberBeforeNul(v, k - 1, x[k..]);
    } else {
      assert e[..1 + |d|] == [mark] + d;
      assert x[..1 + |d|] == x[..k][..1 + |d|] == e[..1 + |d|];
      DropFirst(x, mark, d);
      var rest := x[1 + |d|..];
      assert rest[0] == if k == |d| + 1 then NUL else CR by {
        if k > |d| + 1 { assert x[1 + |d|] == x[..k][1 + |d|] == e[1 + |d|] == CR; }
      }
      NumberBeforeEnd(v, rest);
    }
  }

  lemma HoledAt(s: seq<byte>, k: nat, n: nat)
    requires k <= |s|
    ensures var h := Holed(s, k, n); |h| == |s| + n && h[..k] == s[..k] && (n > 0 ==> h[k] == NUL)
  {
  }

  lemma DropFirst(x: seq<byte>, m: byte, y: seq<byte>)
    requires |x| > |y| && x[..1 + |y|] == [m] + y
    ensures x[1..] == y + x[1 + |y|..]
  {
    assert x == x[..1 + |y|] + x[1 + |y|..];
  }

  /** What `fgets` takes of a header with a hole, and what it leaves. */
  lemma HeaderLineHoled(mark: byte, v: nat, k: nat, n: nat, t: seq<byte>) returns (left: seq<byte>)
    requires mark != LF && v <= LONG_MAX && 1 <= k < |Digits(v)| + 3 && n > 0
    ensures var s := Holed(Header(mark, v), k, n) + t;
            var line := Line(s);
            && |line| > k && line[0] == mark && (k == 1 ==> line[1] == NUL) && (k > 1 ==> IsDigit(line[1]))
            && s[|line|..] == left + t && AllFiller(left)
            && (left == [] <==> |Digits(v)| + 3 + n < LINE_MAX)
            && var x := Strtol(line[1..]); 0 <= x <= v && (x == v <==> NumberKept(v, k))
  {
    hide Digits, Strtol;
    var h := Holed(Header(mark, v), k, n);
    var s := h + t;
    HeaderBytes(mark, v, k, n);
    LongDigitsLength(v);
    if |h| < LINE_MAX {
      LineLengthAt(h, t, LINE_MAX - 1);
      HeaderNumber(mark, v, k, n, |h|);
      left := [];
      assert s[..|h|] == h && h[..|h|] == h && s[|h|..] == left + t;
    } else {
      LineLengthFull(s, LINE_MAX - 1);
      HeaderNumber(mark, v, k, n, LINE_MAX - 1);
      left := h[LINE_MAX - 1..];
      assert s[..LINE_MAX - 1] == h[..LINE_MAX - 1] && s[LINE_MAX - 1..] == left + t;
      assert forall i :: 0 <= i < |left| ==> left[i] == h[1..][LINE_MAX - 2 + i];
    }
    assert h[1] == if k == 1 then NUL else Digits(v)[0];
  }

  // ---------------------------------------------------------------- an argument

  predicate ArgHides(a: seq<byte>, k: nat, n: nat) {
    HeaderHides(|a|, k, n)
  }

  /** Bytes shifted by fillers: if the argument is still what it was, a filler comes where the next
      header should be. */
  lemma Shifted(g: seq<byte>, a: seq<byte>, f: seq<byte>)
    requires AllFiller(f) && |f| >= 3 && |g| == |a| + |f| && multiset(g) == multiset(a) + multiset(f)
    requires g[..|a|] == a
    ensures Filler(g[|a| + 2])
  {
    assert g == g[..|a|] + g[|a|..];
    var b := g[|a|..];
    assert multiset(g) == multiset(a) + multiset(b);
    assert forall x :: multiset(b)[x] == multiset(g)[x] - multiset(a)[x];
    assert b[2] == g[|a| + 2] && multiset(b)[b[2]] > 0;
    assert b[2] in multiset(f);
  }

  /** An argument read from bytes that hold its own bytes among fillers. */
  lemma ShiftedArg(s: seq<byte>, g: seq<byte>, t: seq<byte>, a: seq<byte>, f: seq<byte>)
    requires s != [] && Line(s)[0] == DOLLAR && s[|Line(s)|..] == g + t && Strtol(Line(s)[1..]) == |a|
    requires AllFiller(f) && |f| >= 3 && |g| == |a| + |f| && multiset(g) == multiset(a) + multiset(f)
    ensures var r := ReadArg(s); r.Arg? ==> r.data != a || StartsFilled(r.rest)
  {
    hide Strtol, LineLength;
    var body := g + t;
    assert body[..|a|] == g[..|a|] && body[|a| + 2..][0] == g[|a| + 2];
    if g[..|a|] == a {
      Shifted(g, a, f);
    }
  }

  lemma HoledBag(s: seq<byte>, k: nat, n: nat)
    requires k <= |s|
    ensures multiset(Holed(s, k, n)) == multiset(s) + multiset(AofFlush.Zeros(n))
  {
    assert s == s[..k] + s[k..];
  }

  /** A hole in the header of an argument. */
  lemma ArgHeaderHoled(a: seq<byte>, k: nat, n: nat, t: seq<byte>)
    requires |a| <= LONG_MAX && 1 <= k < |Digits(|a|)| + 3 && n > 0
    ensures var r := ReadArg(Holed(Header(DOLLAR, |a|), k, n) + (a + [CR, LF] + t));
            if ArgHides(a, k, n) then r == Arg(a, t)
            else r.Arg? ==> r.data != a || StartsFilled(r.rest)
  {
    hide Strtol, LineLength, Digits;
    var y := a + [CR, LF];
    var s := Holed(Header(DOLLAR, |a|), k, n) + (y + t);
    var left := HeaderLineHoled(DOLLAR, |a|, k, n, y + t);
    if left == [] {
      var body := s[|Line(s)|..];
      assert body == y + t;
      assert body[..|a|] == a && body[|a| + 2..] == t;
    } else if NumberKept(|a|, k) {
      var g, f := left + y, left + [CR, LF];
      assert s[|Line(s)|..] == g + t;
      ShiftedArg(s, g, t, a, f);
    }
  }

  /** A hole in the bytes of an argument or in the line end behind them. */
  lemma ArgBodyHoled(a: seq<byte>, j: nat, n: nat, t: seq<byte>)
    requires |a| <= LONG_MAX && j < |a| + 2 && n > 0
    ensures var r := ReadArg(Header(DOLLAR, |a|) + (Holed(a + [CR, LF], j, n) + t));
            r.Arg? ==> r.data != a || StartsFilled(r.rest)
  {
    hide Strtol, LineLength, Digits;
    var g := Holed(a + [CR, LF], j, n);
    var s := Header(DOLLAR, |a|) + (g + t);
    HeaderLine(DOLLAR, |a|, g + t);
    assert s[|Header(DOLLAR, |a|)|..] == g + t;
    var f := [CR, LF] + AofFlush.Zeros(n);
    HoledBag(a + [CR, LF], j, n);
    ShiftedArg(s, g, t, a, f);
  }

  lemma ArgHoled(a: seq<byte>, k: nat, n: nat, t: seq<byte>)
    requires |a| <= LONG_MAX && k < |EncodeArg(a)| && n > 0
    ensures var r := ReadArg(Holed(EncodeArg(a), k, n) + t);
            if ArgHides(a, k, n) then r == Arg(a, t)
            else r.Arg? ==> r.data != a || StartsFilled(r.rest)
  {
    hide Strtol, LineLength, Digits, ReadArg;
    var h, y := Header(DOLLAR, |a|), a + [CR, LF];
    assert EncodeArg(a) == h + y;
    var s := Holed(EncodeArg(a), k, n) + t;
    if k == 0 {
      assert s[0] == NUL;
      FilledIsNoArg(s);
    } else if k < |h| {
      HoledFront(h, y, k, n);
      assert s == Holed(h, k, n) + (y + t);
      ArgHeaderHoled(a, k, n, t);
    } else {
      HoledBack(h, y, k, n);
      assert s == h + (Holed(y, k - |h|, n) + t);
      ArgBodyHoled(a, k - |h|, n, t);
    }
  }

  lemma FilledIsNoArg(s: seq<byte>)
    requires StartsFilled(s)
    ensures ReadArg(s) == ArgFormat
  {
  }

  // ---------------------------------------------------------------- a command

  predicate ArgsHide(c: Command, k: nat, n: nat) {
    if c == [] then false
    else if k < |EncodeArg(c[0])| then ArgHides(c[0], k, n)
    else ArgsHide(c[1..], k - |EncodeArg(c[0])|, n)
  }

  lemma {:induction false} ArgsHoled(c: Command, k: nat, n: nat, t: seq<byte>)
    requires (forall i :: 0 <= i < |c| ==> |c[i]| <= LONG_MAX) && k < |EncodeArgs(c)| && n > 0
    ensures var r := ReadArgs(Holed(EncodeArgs(c), k, n) + t, |c|);
            if ArgsHide(c, k, n) then r == Args(c, t)
            else r.Args? ==> r.argv != c || StartsFilled(r.rest)
    decreases |c|
  {
    hide EncodeArg, ReadArg, ArgHides, Holed;
    var e, more := EncodeArg(c[0]), EncodeArgs(c[1..]);
    assert EncodeArgs(c) == e + more;
    if k < |e| {
      HoledFront(e, more, k, n);
      assert Holed(e + more, k, n) + t == Holed(e, k, n) + (more + t);
      ArgHoled(c[0], k, n, more + t);
      if ArgHides(c[0], k, n) {
        ReadArgsOfEncodeArgs(c[1..], t);
        assert [c[0]] + c[1..] == c;
      } else {
        FirstArgLost(Holed(e, k, n) + (more + t), c);
      }
    } else {
      HoledBack(e, more, k, n);
      var rest := Holed(more, k - |e|, n) + t;
      assert Holed(e + more, k, n) + t == e + rest;
      ReadArgOfEncodeArg(c[0], rest);
      ArgsHoled(c[1..], k - |e|, n, t);
      assert [c[0]] + c[1..] == c;
    }
  }

  lemma FirstArgLost(s: seq<byte>, c: Command)
    requires c != []
    requires var r := ReadArg(s); r.Arg? ==> r.data != c[0] || StartsFilled(r.rest)
    ensures var r := ReadArgs(s, |c|); r.Args? ==> r.argv != c || StartsFilled(r.rest)
  {
    hide ReadArg;
    var r := ReadArg(s);
    if r.Arg? && r.data == c[0] && |c| > 1 {
      FilledIsNoArg(r.rest);
    }
  }

  /** The NULs before byte `k` of a command are read over. */
  predicate CommandHides(c: Command, k: nat, n: nat) {
    var h := |Header(STAR, |c|)|;
    if k < h then HeaderHides(|c|, k, n) else ArgsHide(c, k - h, n)
  }

  lemma {:induction false} ReadArgsCount(s: seq<byte>, n: nat)
    ensures var r := ReadArgs(s, n); r.Args? ==> |r.argv| == n
    decreases n
  {
    hide ReadArg;
    if n > 0 && ReadArg(s).Arg? {
      ReadArgsCount(ReadArg(s).rest, n - 1);
    }
  }

  lemma FilledIsNoItem(s: seq<byte>)
    requires StartsFilled(s)
    ensures ReadItem(s) == ItemFormat
  {
  }

  /** A hole in the header of a command. */
  lemma CommandHeaderHoled(c: Command, k: nat, n: nat, t: seq<byte>)
    requires Valid(c) && 1 <= k < |Digits(|c|)| + 3 && n > 0
    ensures var r := ReadItem(Holed(Header(STAR, |c|), k, n) + (EncodeArgs(c) + t));
            if HeaderHides(|c|, k, n) then r == Item(c, t)
            else !r.Annotation? && (r.Item? ==> r.argv != c || StartsFilled(r.rest))
  {
    hide Strtol, LineLength, Digits, ReadArgs, EncodeArgs, Holed;
    var s := Holed(Header(STAR, |c|), k, n) + (EncodeArgs(c) + t);
    var left := HeaderLineHoled(STAR, |c|, k, n, EncodeArgs(c) + t);
    var line := Line(s);
    var x := Strtol(line[1..]);
    assert Atoi(line[1..]) == x;
    var rest := s[|line|..];
    if x > 0 { ReadArgsCount(rest, x); }
    if NumberKept(|c|, k) {
      if left == [] {
        assert rest == EncodeArgs(c) + t;
        ReadArgsOfEncodeArgs(c, t);
      } else {
        FilledIsNoArgs(rest, |c|);
      }
    }
  }

  lemma FilledIsNoArgs(s: seq<byte>, n: nat)
    requires StartsFilled(s) && n > 0
    ensures ReadArgs(s, n) == ArgsFormat
  {
    FilledIsNoArg(s);
  }

  /** A command with a hole is read as itself exactly when the hole is read over; otherwise it is not
      read, or as another command, or a filler comes where the next command should start. */
  lemma CommandHoled(c: Command, k: nat, n: nat, t: seq<byte>)
    requires Valid(c) && k < |Encode(c)| && n > 0
    ensures var r := ReadItem(Holed(Encode(c), k, n) + t);
            if CommandHides(c, k, n) then r == Item(c, t)
            else !r.Annotation? && (r.Item? ==> r.argv != c || StartsFilled(r.rest))
  {
    hide Strtol, Line, Digits, ReadItem, EncodeArgs, ArgsHide, HeaderHides, Holed, ReadArgs;
    var h, e := Header(STAR, |c|), EncodeArgs(c);
    var s := Holed(Encode(c), k, n) + t;
    if k == 0 {
      HoledAt(Encode(c), 0, n);
      assert s[0] == NUL;
      FilledIsNoItem(s);
      NothingHidden(c, n);
    } else if k < |h| {
      HoledFront(h, e, k, n);
      assert s == Holed(h, k, n) + (e + t);
      CommandHeaderHoled(c, k, n, t);
    } else {
      HoledBack(h, e, k, n);
      var rest := Holed(e, k - |h|, n) + t;
      assert s == h + rest;
      ArgsHoled(c, k - |h|, n, t);
      HeaderLine(STAR, |c|, rest);
      assert s[|h|..] == rest;
      ItemOfArgs(c, s);
    }
  }

  lemma NothingHidden(c: Command, n: nat)
    ensures !CommandHides(c, 0, n)
  {
  }

  lemma ItemOfArgs(c: Command, s: seq<byte>)
    requires Valid(c) && s != []
    requires Line(s) == Header(STAR, |c|) && Strtol(Line(s)[1..]) == |c|
    ensures ReadItem(s) == FromArgs(ReadArgs(s[|Line(s)|..], |c|))
  {
    hide Strtol, LineLength, ReadArgs;
    assert Line(s)[1] == Digits(|c|)[0];
  }

  // ---------------------------------------------------------------- a log

  /** Whole commands in front are executed, whatever follows. */
  lemma {:induction false} LoadBehind(cs: seq<Command>, s: seq<byte>, total: nat, valid: nat, known: Command -> bool)
    requires AllValid(cs) && AllKnown(cs, known) && |EncodeAll(cs)| + |s| <= total
    ensures var o := Load(s, total, if cs == [] then valid else total - |s|, known);
            Load(EncodeAll(cs) + s, total, valid, known) == o.(executed := cs + o.executed)
    decreases |cs|
  {
    hide Load, ReadItem, Encode;
    if cs == [] {
      assert EncodeAll(cs) + s == s;
      assert cs + Load(s, total, valid, known).executed == Load(s, total, valid, known).executed;
    } else {
      var rest := EncodeAll(cs[1..]) + s;
      assert EncodeAll(cs) + s == Encode(cs[0]) + rest;
      ReadItemOfEncode(cs[0], rest);
      LoadItem(EncodeAll(cs) + s, total, valid, known);
      LoadBehind(cs[1..], s, total, total - |rest|, known);
      var o := Load(s, total, total - |s|, known);
      if cs[1..] == [] { assert rest == s; }
      assert [cs[0]] + (cs[1..] + o.executed) == cs + o.executed;
    }
  }

  /** A log with a hole before byte `k` of command `m` loads to its commands if and only if the hole
      is read over; otherwise it loads to others or not at all. */
  lemma LogHoled(cs: seq<Command>, m: nat, k: nat, n: nat, known: Command -> bool)
    requires AllValid(cs) && AllKnown(cs, known) && m < |cs| && k < |Encode(cs[m])| && n > 0
    ensures var file := EncodeAll(cs[..m]) + (Holed(Encode(cs[m]), k, n) + EncodeAll(cs[m + 1..]));
            var o := LoadFile(file, known);
            if CommandHides(cs[m], k, n) then o.executed == cs && o.exit == CleanEof
            else o.executed != cs || o.exit == FormatError
  {
    hide Load, ReadItem, Encode, Holed, CommandHides, EncodeAll;
    var c, t := cs[m], EncodeAll(cs[m + 1..]);
    var s := Holed(Encode(c), k, n) + t;
    var total := |EncodeAll(cs[..m]) + s|;
    assert s != [] by { HoledLonger(Encode(c), k, n); }
    LoadBehind(cs[..m], s, total, 0, known);
    CommandHoled(c, k, n, t);
    var valid := if cs[..m] == [] then 0 else total - |s|;
    var r := ReadItem(s);
    if r.Item? && known(r.argv) {
      LoadItem(s, total, valid, known);
      if CommandHides(c, k, n) {
        assert t + [] == t;
        LoadBehind(cs[m + 1..], [], total, total - |t|, known);
        LoadNothing(total, total - |t|, known);
        LoadNothing(total, total, known);
        assert cs == cs[..m] + ([c] + (cs[m + 1..] + []));
      } else if r.argv == c {
        FilledIsNoItem(r.rest);
        LoadStops(r.rest, total, total - |r.rest|, known);
      } else {
        var o := Load(r.rest, total, total - |r.rest|, known);
        assert (cs[..m] + ([r.argv] + o.executed))[m] == r.argv;
      }
    } else {
      LoadStops(s, total, valid, known);
      assert |cs[..m] + []| < |cs|;
    }
  }

  lemma HoledLonger(s: seq<byte>, k: nat, n: nat)
    requires k <= |s|
    ensures |Holed(s, k, n)| == |s| + n
  {
  }
}
