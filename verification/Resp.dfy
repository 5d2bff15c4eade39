/** The append-only file's record format and its loader: commands are RESP
    arrays of bulk strings, and a file cut anywhere is recovered up to the last
    command that is wholly there. */
module Resp {
  import opened Decimal

  /** An argument vector: arbitrary binary strings. */
  type Command = seq<seq<byte>>

  const HASH: byte := 35
  const DOLLAR: byte := 36
  const STAR: byte := 42

  /** AOF_ANNOTATION_LINE_MAX_LEN: the size of the loader's line buffer. */
  const LINE_MAX: nat := 1024

  /** What C's `int argc` and string lengths can hold; a command has a name. */
  predicate Valid(c: Command) {
    && 1 <= |c| <= INT_MAX
    && forall i :: 0 <= i < |c| ==> |c[i]| <= LONG_MAX
  }

  predicate AllValid(cs: seq<Command>) {
    forall i :: 0 <= i < |cs| ==> Valid(cs[i])
  }

  // ---------------------------------------------------------------- encoding

  function Header(mark: byte, n: nat): seq<byte> {
    [mark] + Digits(n) + [CR, LF]
  }

  function EncodeArg(a: seq<byte>): seq<byte> {
    Header(DOLLAR, |a|) + a + [CR, LF]
  }

  function EncodeArgs(c: Command): seq<byte> {
    if c == [] then [] else EncodeArg(c[0]) + EncodeArgs(c[1..])
  }

  function Encode(c: Command): (r: seq<byte>)
    ensures |r| > 0
  {
    Header(STAR, |c|) + EncodeArgs(c)
  }

  function EncodeAll(cs: seq<Command>): seq<byte> {
    if cs == [] then [] else Encode(cs[0]) + EncodeAll(cs[1..])
  }

  lemma {:induction false} EncodeArgsAppend(c: Command, d: Command)
    ensures EncodeArgs(c + d) == EncodeArgs(c) + EncodeArgs(d)
  {
    if c == [] {
      assert c + d == d;
    } else {
      assert (c + d)[1..] == c[1..] + d;
      EncodeArgsAppend(c[1..], d);
    }
  }

  lemma {:induction false} EncodeAllAppend(cs: seq<Command>, ds: seq<Command>)
    ensures EncodeAll(cs + ds) == EncodeAll(cs) + EncodeAll(ds)
  {
    if cs == [] {
      assert cs + ds == ds;
    } else {
      assert (cs + ds)[1..] == cs[1..] + ds;
      EncodeAllAppend(cs[1..], ds);
    }
  }

  lemma EncodeArgsSnoc(c: Command, j: nat)
    requires j < |c|
    ensures EncodeArgs(c[..j + 1]) == EncodeArgs(c[..j]) + EncodeArg(c[j])
  {
    assert c[..j + 1] == c[..j] + [c[j]];
    EncodeArgsAppend(c[..j], [c[j]]);
    assert EncodeArgs([c[j]]) == EncodeArg(c[j]) + EncodeArgs([]);
  }

  /** catAppendOnlyGenericCommand: append one command to a buffer. */
  method CatCommand(dst: seq<byte>, argv: Command) returns (r: seq<byte>)
    ensures r == dst + Encode(argv)
  {
    var buf := [STAR] + Digits(|argv|) + [CR, LF];
    r := dst + buf;
    var j := 0;
    while j < |argv|
      invariant 0 <= j <= |argv|
      invariant r == dst + buf + EncodeArgs(argv[..j])
    {
      var arg := [DOLLAR] + Digits(|argv[j]|) + [CR, LF];
      arg := arg + argv[j];
      arg := arg + [CR, LF];
      EncodeArgsSnoc(argv, j);
      r := r + arg;
      j := j + 1;
    }
    assert argv[..j] == argv;
    assert dst + buf + EncodeArgs(argv) == dst + (buf + EncodeArgs(argv));
  }

  // ---------------------------------------------------------------- decoding

  /** The number of bytes `fgets` takes from `s` into a buffer with `room` free characters. */
  function LineLength(s: seq<byte>, room: nat): (n: nat)
    ensures n <= |s| && n <= room
    ensures s != [] && room > 0 ==> n > 0
  {
    if room == 0 || s == [] then 0
    else if s[0] == LF then 1
    else 1 + LineLength(s[1..], room - 1)
  }

  function Line(s: seq<byte>): (l: seq<byte>)
    ensures |l| <= |s| && l == s[..|l|]
    ensures s != [] ==> |l| > 0
  {
    s[..LineLength(s, LINE_MAX - 1)]
  }

  /** `fgets` ran into the end of the file while reading this line. */
  predicate HitsEof(s: seq<byte>) {
    var l := Line(s);
    |l| == |s| && |l| < LINE_MAX - 1 && (l == [] || l[|l| - 1] != LF)
  }

  /** `atoi`: `strtol` converted to a 32-bit int. */
  function Atoi(s: seq<byte>): int {
    (Strtol(s) + 0x8000_0000) % 0x1_0000_0000 - 0x8000_0000
  }

  datatype Arg =
    | Arg(data: seq<byte>, rest: seq<byte>)
    | ArgShort
    | ArgFormat
    | ArgAbort   // a negative length: the allocation fails and the process aborts

  function ReadArg(s: seq<byte>): (r: Arg)
    ensures r.Arg? ==> |r.rest| < |s|
  {
    if s == [] then ArgShort else
    var line := Line(s);
    if line[0] != DOLLAR then ArgFormat else
    var len := Strtol(line[1..]);
    var body := s[|line|..];
    if len < 0 then ArgAbort
    else if |body| < len then ArgShort
    else if |body| - len < 2 then ArgShort
    else Arg(body[..len], body[len + 2..])
  }

  datatype Args =
    | Args(argv: Command, rest: seq<byte>)
    | ArgsShort
    | ArgsFormat
    | ArgsAbort

  function ReadArgs(s: seq<byte>, n: nat): (r: Args)
    ensures r.Args? ==> |r.rest| <= |s|
  {
    if n == 0 then Args([], s) else
    match ReadArg(s)
    case ArgShort => ArgsShort
    case ArgFormat => ArgsFormat
    case ArgAbort => ArgsAbort
    case Arg(a, rest) =>
      match ReadArgs(rest, n - 1)
      case Args(more, rest') => Args([a] + more, rest')
      case other => other
  }

  datatype Item =
    | Annotation(rest: seq<byte>)
    | Item(argv: Command, rest: seq<byte>)
    | ItemShort
    | ItemIoError
    | ItemFormat
    | ItemAbort

  function FromArgs(a: Args): Item {
    match a
    case Args(argv, rest) => Item(argv, rest)
    case ArgsShort => ItemShort
    case ArgsFormat => ItemFormat
    case ArgsAbort => ItemAbort
  }

  function ReadItem(s: seq<byte>): (r: Item)
    requires s != []
    ensures r.Annotation? || r.Item? ==> |r.rest| < |s|
  {
    var line := Line(s);
    var rest := s[|line|..];
    if line[0] == HASH then Annotation(rest)
    else if line[0] != STAR then ItemFormat
    else if |line| == 1 || line[1] == NUL then
      if HitsEof(s) then ItemShort else ItemIoError
    else
      var argc := Atoi(line[1..]);
      if argc < 1 then ItemFormat else FromArgs(ReadArgs(rest, argc))
  }

  datatype Exit = CleanEof | ShortRead | FormatError | IoError | UnknownCommand | Abort

  /** What the loading loop did: the commands it executed, the offset just after
      the last of them, and how it stopped. */
  datatype Outcome = Outcome(executed: seq<Command>, validUpTo: nat, exit: Exit)

  /** The loading loop from the point where `s` is left of a file of `total` bytes. */
  function Load(s: seq<byte>, total: nat, validUpTo: nat, known: Command -> bool): (r: Outcome)
    requires |s| <= total
    decreases |s|
  {
    if s == [] then Outcome([], validUpTo, CleanEof) else
    match ReadItem(s)
    case Annotation(rest) => Load(rest, total, validUpTo, known)
    case ItemShort => Outcome([], validUpTo, ShortRead)
    case ItemIoError => Outcome([], validUpTo, IoError)
    case ItemFormat => Outcome([], validUpTo, FormatError)
    case ItemAbort => Outcome([], validUpTo, Abort)
    case Item(argv, rest) =>
      if !known(argv) then Outcome([], validUpTo, UnknownCommand)
      else
        var r := Load(rest, total, total - |rest|, known);
        r.(executed := [argv] + r.executed)
  }

  function LoadFile(file: seq<byte>, known: Command -> bool): Outcome {
    Load(file, |file|, 0, known)
  }

  // ------------------------------------------------- one record read back

  lemma {:induction false} LineLengthAt(a: seq<byte>, t: seq<byte>, room: nat)
    requires 0 < |a| <= room
    requires a[|a| - 1] == LF
    requires forall i :: 0 <= i < |a| - 1 ==> a[i] != LF
    ensures LineLength(a + t, room) == |a|
  {
    if |a| > 1 {
      assert (a + t)[1..] == a[1..] + t;
      LineLengthAt(a[1..], t, room - 1);
    }
  }

  lemma {:induction false} LineLengthNone(a: seq<byte>, room: nat)
    requires |a| <= room
    requires forall i :: 0 <= i < |a| ==> a[i] != LF
    ensures LineLength(a, room) == |a|
  {
    if a != [] {
      LineLengthNone(a[1..], room - 1);
    }
  }

  lemma {:induction false} LineLengthFull(s: seq<byte>, room: nat)
    requires room <= |s|
    requires forall i :: 0 <= i < room ==> s[i] != LF
    ensures LineLength(s, room) == room
  {
    if room > 0 {
      LineLengthFull(s[1..], room - 1);
    }
  }

  lemma HeaderLine(mark: byte, n: nat, t: seq<byte>)
    requires mark != LF && n <= LONG_MAX
    ensures Line(Header(mark, n) + t) == Header(mark, n)
    ensures Strtol(Header(mark, n)[1..]) == n
  {
    var h := Header(mark, n);
    LongDigitsLength(n);
    LineLengthAt(h, t, LINE_MAX - 1);
    assert h[1..] == Digits(n) + [CR, LF];
    StrtolOfDigits(n, [CR, LF]);
  }

  lemma ReadArgOfEncodeArg(a: seq<byte>, t: seq<byte>)
    requires |a| <= LONG_MAX
    ensures ReadArg(EncodeArg(a) + t) == Arg(a, t)
  {
    var s := EncodeArg(a) + t;
    var h := Header(DOLLAR, |a|);
    assert s == h + (a + [CR, LF] + t);
    HeaderLine(DOLLAR, |a|, a + [CR, LF] + t);
    assert s[|h|..] == a + [CR, LF] + t;
    assert s[|h|..][|a| + 2..] == t;
  }

  lemma {:induction false} ReadArgsOfEncodeArgs(c: Command, t: seq<byte>)
    requires forall i :: 0 <= i < |c| ==> |c[i]| <= LONG_MAX
    ensures ReadArgs(EncodeArgs(c) + t, |c|) == Args(c, t)
  {
    hide ReadArg, EncodeArg;
    if c == [] {
      assert EncodeArgs(c) + t == t;
    } else {
      assert EncodeArgs(c) + t == EncodeArg(c[0]) + (EncodeArgs(c[1..]) + t);
      ReadArgOfEncodeArg(c[0], EncodeArgs(c[1..]) + t);
      ReadArgsOfEncodeArgs(c[1..], t);
      assert [c[0]] + c[1..] == c;
    }
  }

  lemma ReadItemCommand(s: seq<byte>, n: nat)
    requires s != []
    requires var l := Line(s); |l| > 1 && l[0] == STAR && l[1] != NUL && Strtol(l[1..]) == n
    requires 1 <= n <= INT_MAX
    ensures ReadItem(s) == FromArgs(ReadArgs(s[|Line(s)|..], n))
  {
    assert Atoi(Line(s)[1..]) == n;
  }

  lemma ReadItemOfEncode(c: Command, t: seq<byte>)
    requires Valid(c)
    ensures ReadItem(Encode(c) + t) == Item(c, t)
  {
    var h := Header(STAR, |c|);
    var s := Encode(c) + t;
    assert s == h + (EncodeArgs(c) + t);
    HeaderLine(STAR, |c|, EncodeArgs(c) + t);
    assert h[1] == Digits(|c|)[0];
    ReadItemCommand(s, |c|);
    assert s[|h|..] == EncodeArgs(c) + t;
    ReadArgsOfEncodeArgs(c, t);
  }

  // ------------------------------------------------- a record cut short

  /** A header cut before its line feed is read as one line that ends the file. */
  lemma HeaderCut(mark: byte, n: nat, k: nat)
    requires mark != LF && n <= LONG_MAX
    requires 1 <= k < |Header(mark, n)|
    ensures Line(Header(mark, n)[..k]) == Header(mark, n)[..k]
    ensures HitsEof(Header(mark, n)[..k])
    ensures k >= 2 && n > 0 ==> 1 <= Strtol(Header(mark, n)[..k][1..]) <= n
    ensures n == 0 ==> Strtol(Header(mark, n)[..k][1..]) == 0
  {
    var h := Header(mark, n);
    var p := h[..k];
    LongDigitsLength(n);
    LineLengthNone(p, LINE_MAX - 1);
    if n > 0 && k >= 2 {
      if k <= 1 + |Digits(n)| {
        assert p[1..] == Digits(n)[..k - 1];
        StrtolOfDigitsPrefix(n, k - 1);
      } else {
        assert p[1..] == Digits(n) + [CR];
        StrtolOfDigits(n, [CR]);
      }
    }
    if n == 0 {
      if k == 1 {
        assert p[1..] == [];
      } else if k == 2 {
        assert p[1..] == Digits(0) + [];
        StrtolOfDigits(0, []);
      } else {
        assert p[1..] == Digits(0) + [CR];
        StrtolOfDigits(0, [CR]);
      }
    }
  }

  lemma ReadArgCut(a: seq<byte>, k: nat)
    requires |a| <= LONG_MAX
    requires k < |EncodeArg(a)|
    ensures ReadArg(EncodeArg(a)[..k]) == ArgShort
  {
    var h := Header(DOLLAR, |a|);
    var p := EncodeArg(a)[..k];
    if k == 0 {
    } else if k < |h| {
      assert p == h[..k];
      HeaderCut(DOLLAR, |a|, k);
      if k == 1 {
        assert p[1..] == [];
      }
    } else {
      assert p == h + (a + [CR, LF])[..k - |h|];
      HeaderLine(DOLLAR, |a|, (a + [CR, LF])[..k - |h|]);
    }
  }

  lemma {:induction false} ReadArgsCut(c: Command, k: nat)
    requires forall i :: 0 <= i < |c| ==> |c[i]| <= LONG_MAX
    requires k < |EncodeArgs(c)|
    ensures ReadArgs(EncodeArgs(c)[..k], |c|) == ArgsShort
  {
    hide ReadArg, EncodeArg;
    var e := EncodeArg(c[0]);
    var p := EncodeArgs(c)[..k];
    if k < |e| {
      assert p == e[..k];
      ReadArgCut(c[0], k);
    } else {
      assert p == e + EncodeArgs(c[1..])[..k - |e|];
      ReadArgOfEncodeArg(c[0], EncodeArgs(c[1..])[..k - |e|]);
      ReadArgsCut(c[1..], k - |e|);
    }
  }

  lemma ReadHeaderCut(n: nat, k: nat)
    requires 1 <= n <= INT_MAX && 1 <= k < |Header(STAR, n)|
    ensures ReadItem(Header(STAR, n)[..k]) == ItemShort
  {
    var p := Header(STAR, n)[..k];
    HeaderCut(STAR, n, k);
    hide Line, HitsEof, Strtol;
    if k >= 2 {
      assert p[1] == Digits(n)[0];
      ReadItemCommand(p, Strtol(p[1..]));
      assert p[|p|..] == [];
    }
  }

  lemma ReadBodyCut(c: Command, k: nat)
    requires Valid(c) && k < |EncodeArgs(c)|
    ensures ReadItem(Header(STAR, |c|) + EncodeArgs(c)[..k]) == ItemShort
  {
    var h := Header(STAR, |c|);
    var p := h + EncodeArgs(c)[..k];
    HeaderLine(STAR, |c|, EncodeArgs(c)[..k]);
    assert h[1] == Digits(|c|)[0];
    hide Line, Strtol, EncodeArgs, Digits;
    ReadItemCommand(p, |c|);
    assert p[|h|..] == EncodeArgs(c)[..k];
    ReadArgsCut(c, k);
  }

  lemma ReadItemCut(c: Command, k: nat)
    requires Valid(c)
    requires 1 <= k < |Encode(c)|
    ensures ReadItem(Encode(c)[..k]) == ItemShort
  {
    hide ReadItem, EncodeArgs, Header;
    var h := Header(STAR, |c|);
    if k < |h| {
      assert Encode(c)[..k] == h[..k];
      ReadHeaderCut(|c|, k);
    } else {
      assert Encode(c)[..k] == h + EncodeArgs(c)[..k - |h|];
      ReadBodyCut(c, k - |h|);
    }
  }

  // ------------------------------------------------- whole files

  /** How many of `cs` lie wholly in the first `k` bytes of their encoding. */
  function Whole(cs: seq<Command>, k: nat): (n: nat)
    ensures n <= |cs|
    ensures |EncodeAll(cs[..n])| <= k
    ensures n < |cs| ==> |EncodeAll(cs[..n + 1])| > k
  {
    if cs == [] then 0
    else if |Encode(cs[0])| > k then
      assert cs[..1][1..] == [];
      0
    else
      var m := Whole(cs[1..], k - |Encode(cs[0])|);
      assert cs[..1 + m][1..] == cs[1..][..m];
      assert m < |cs[1..]| ==> cs[..2 + m][1..] == cs[1..][..m + 1];
      1 + m
  }

  predicate AllKnown(cs: seq<Command>, known: Command -> bool) {
    forall i :: 0 <= i < |cs| ==> known(cs[i])
  }

  /** How the loop stops on an item it cannot execute. */
  function ExitOf(i: Item): Exit {
    match i
    case ItemShort => ShortRead
    case ItemIoError => IoError
    case ItemFormat => FormatError
    case ItemAbort => Abort
    case Item(_, _) => UnknownCommand
    case Annotation(_) => CleanEof
  }

  lemma LoadStops(s: seq<byte>, total: nat, valid: nat, known: Command -> bool)
    requires 0 < |s| <= total
    requires !ReadItem(s).Annotation? && !(ReadItem(s).Item? && known(ReadItem(s).argv))
    ensures Load(s, total, valid, known) == Outcome([], valid, ExitOf(ReadItem(s)))
  {
  }

  lemma LoadNothing(total: nat, valid: nat, known: Command -> bool)
    ensures Load([], total, valid, known) == Outcome([], valid, CleanEof)
  {
  }

  lemma LoadAnnotation(s: seq<byte>, total: nat, valid: nat, known: Command -> bool)
    requires 0 < |s| <= total && ReadItem(s).Annotation?
    ensures Load(s, total, valid, known) == Load(ReadItem(s).rest, total, valid, known)
  {
  }

  lemma LoadItem(s: seq<byte>, total: nat, valid: nat, known: Command -> bool)
    requires 0 < |s| <= total && ReadItem(s).Item? && known(ReadItem(s).argv)
    ensures var i := ReadItem(s);
            var o := Load(i.rest, total, total - |i.rest|, known);
            Load(s, total, valid, known) == o.(executed := [i.argv] + o.executed)
  {
  }

  lemma WholeStep(cs: seq<Command>, k: nat)
    requires cs != [] && |Encode(cs[0])| <= k
    ensures var m := Whole(cs[1..], k - |Encode(cs[0])|);
            && Whole(cs, k) == m + 1
            && cs[..m + 1] == [cs[0]] + cs[1..][..m]
            && |EncodeAll(cs[..m + 1])| == |Encode(cs[0])| + |EncodeAll(cs[1..][..m])|
  {
    var m := Whole(cs[1..], k - |Encode(cs[0])|);
    assert cs[..m + 1][1..] == cs[1..][..m];
  }

  lemma EncodeAllCut(cs: seq<Command>, k: nat)
    requires cs != [] && k <= |EncodeAll(cs)|
    ensures var e := Encode(cs[0]);
            EncodeAll(cs)[..k] == if k < |e| then e[..k] else e + EncodeAll(cs[1..])[..k - |e|]
  {
  }

  /** What loading the first `k` bytes of `cs`, the tail of a file of `total` bytes, comes to. */
  function PrefixOutcome(cs: seq<Command>, k: nat, total: nat, valid: nat): Outcome
    requires k <= total
  {
    var n := Whole(cs, k);
    var w := |EncodeAll(cs[..n])|;
    Outcome(cs[..n], if n == 0 then valid else total - k + w, if w == k then CleanEof else ShortRead)
  }

  lemma PrefixOutcomeStep(cs: seq<Command>, k: nat, total: nat, valid: nat)
    requires cs != [] && |Encode(cs[0])| <= k <= total
    ensures var e := |Encode(cs[0])|;
            var o := PrefixOutcome(cs[1..], k - e, total, total - k + e);
            PrefixOutcome(cs, k, total, valid) == o.(executed := [cs[0]] + o.executed)
  {
    WholeStep(cs, k);
    assert EncodeAll([]) == [];
  }

  lemma LoadOfCut(cs: seq<Command>, k: nat, total: nat, valid: nat, known: Command -> bool)
    requires AllValid(cs) && cs != []
    requires 0 < k < |Encode(cs[0])| && k <= total
    ensures Load(Encode(cs[0])[..k], total, valid, known) == PrefixOutcome(cs, k, total, valid)
  {
    ReadItemCut(cs[0], k);
    LoadStops(Encode(cs[0])[..k], total, valid, known);
    assert Whole(cs, k) == 0 && cs[..0] == [];
  }

  lemma {:induction false} LoadOfPrefix(cs: seq<Command>, k: nat, total: nat, valid: nat, known: Command -> bool)
    requires AllValid(cs) && AllKnown(cs, known)
    requires k <= |EncodeAll(cs)| && k <= total
    ensures Load(EncodeAll(cs)[..k], total, valid, known) == PrefixOutcome(cs, k, total, valid)
  {
    hide ReadItem, Encode;
    if k == 0 {
      assert Whole(cs, k) == 0 && cs[..0] == [];
    } else if k < |Encode(cs[0])| {
      EncodeAllCut(cs, k);
      LoadOfCut(cs, k, total, valid, known);
    } else {
      var e := Encode(cs[0]);
      var t := EncodeAll(cs[1..])[..k - |e|];
      EncodeAllCut(cs, k);
      ReadItemOfEncode(cs[0], t);
      LoadItem(e + t, total, valid, known);
      LoadOfPrefix(cs[1..], k - |e|, total, total - |t|, known);
      PrefixOutcomeStep(cs, k, total, valid);
    }
  }

  /** Loading any prefix of a well-formed file executes exactly the commands wholly
      inside it, ends with `validUpTo` just after the last of them, and reports a
      short read exactly when some bytes are left over. */
  lemma LoadFilePrefix(cs: seq<Command>, k: nat, known: Command -> bool)
    requires AllValid(cs) && AllKnown(cs, known)
    requires k <= |EncodeAll(cs)|
    ensures var n := Whole(cs, k);
            var w := |EncodeAll(cs[..n])|;
            LoadFile(EncodeAll(cs)[..k], known)
            == Outcome(cs[..n], w, if w == k then CleanEof else ShortRead)
  {
    LoadOfPrefix(cs, k, k, 0, known);
    if Whole(cs, k) == 0 {
      assert cs[..0] == [];
    }
  }

  lemma {:induction false} WholeOfAll(cs: seq<Command>)
    ensures Whole(cs, |EncodeAll(cs)|) == |cs|
  {
    if cs != [] {
      WholeStep(cs, |EncodeAll(cs)|);
      WholeOfAll(cs[1..]);
    }
  }

  /** Decoding inverts encoding. */
  lemma LoadFileRoundTrip(cs: seq<Command>, known: Command -> bool)
    requires AllValid(cs) && AllKnown(cs, known)
    ensures LoadFile(EncodeAll(cs), known) == Outcome(cs, |EncodeAll(cs)|, CleanEof)
  {
    var e := EncodeAll(cs);
    LoadFilePrefix(cs, |e|, known);
    WholeOfAll(cs);
    assert e[..|e|] == e;
    assert cs[..|cs|] == cs;
  }

  /** The encoding is uniquely decodable. */
  lemma EncodeAllInjective(cs: seq<Command>, ds: seq<Command>)
    requires AllValid(cs) && AllValid(ds)
    requires EncodeAll(cs) == EncodeAll(ds)
    ensures cs == ds
  {
    LoadFileRoundTrip(cs, c => true);
    LoadFileRoundTrip(ds, c => true);
  }

  // ------------------------------------------------- the loader itself

  datatype Config = Config(loadTruncated: bool, corruptTailMax: nat)

  datatype Status = AofOk | AofEmpty | AofTruncated | AofBrokenRecovered | AofFailed | AofAbort

  /** What loadSingleAppendOnlyFile returns and what it leaves in the file. */
  datatype LoadResult = LoadResult(status: Status, file: seq<byte>)

  /** The exit paths after the loop: short reads and corrupt tails are cut off when
      configured, `truncateOk` being the result of truncate(2). */
  function Finish(file: seq<byte>, valid: nat, exit: Exit, cfg: Config, truncateOk: bool): LoadResult
    requires valid <= |file|
  {
    match exit
    case CleanEof => LoadResult(AofOk, file)
    case ShortRead =>
      if cfg.loadTruncated && truncateOk then LoadResult(AofTruncated, file[..valid])
      else LoadResult(AofFailed, file)
    case FormatError =>
      if cfg.corruptTailMax > 0 && |file| - valid < cfg.corruptTailMax && truncateOk
      then LoadResult(AofBrokenRecovered, file[..valid])
      else LoadResult(AofFailed, file)
    case IoError => LoadResult(AofFailed, file)
    case UnknownCommand => LoadResult(AofFailed, file)
    case Abort => LoadResult(AofAbort, file)
  }

  /** The offset the loader tracks: only kept up to date when some recovery is configured. */
  predicate Tracks(cfg: Config) {
    cfg.loadTruncated || cfg.corruptTailMax > 0
  }

  lemma {:induction false} LoadValidUpTo(s: seq<byte>, total: nat, valid: nat, known: Command -> bool)
    requires |s| <= total && valid <= total
    ensures Load(s, total, valid, known).validUpTo <= total
    decreases |s|
  {
    hide ReadItem;
    if s != [] {
      var i := ReadItem(s);
      if i.Annotation? {
        LoadValidUpTo(i.rest, total, valid, known);
      } else if i.Item? {
        LoadValidUpTo(i.rest, total, total - |i.rest|, known);
      }
    }
  }

  /** What loadSingleAppendOnlyFile reports and leaves behind. */
  function Loaded(file: seq<byte>, cfg: Config, truncateOk: bool, known: Command -> bool): LoadResult {
    if file == [] then LoadResult(AofEmpty, file) else
    var o := LoadFile(file, known);
    LoadValidUpTo(file, |file|, 0, known);
    Finish(file, if Tracks(cfg) then o.validUpTo else 0, o.exit, cfg, truncateOk)
  }

  lemma ReadArgRest(s: seq<byte>)
    ensures var r := ReadArg(s); r.Arg? ==> r.rest == s[|s| - |r.rest|..]
  {
  }

  lemma {:induction false} ReadArgsRest(s: seq<byte>, n: nat)
    ensures var r := ReadArgs(s, n); r.Args? ==> r.rest == s[|s| - |r.rest|..]
  {
    hide ReadArg;
    if n > 0 {
      var a := ReadArg(s);
      if a.Arg? {
        ReadArgRest(s);
        ReadArgsRest(a.rest, n - 1);
      }
    }
  }

  lemma ReadItemRest(s: seq<byte>)
    requires s != []
    ensures var r := ReadItem(s); r.Annotation? || r.Item? ==> r.rest == s[|s| - |r.rest|..]
  {
    var line := Line(s);
    if |line| > 1 && line[0] == STAR && line[1] != NUL && Atoi(line[1..]) >= 1 {
      ReadArgsRest(s[|line|..], Atoi(line[1..]));
    }
  }

  /** The loader only ever drops bytes from the front, so a file position describes its state. */
  lemma ReadItemAdvances(file: seq<byte>, pos: nat)
    requires pos < |file|
    ensures var r := ReadItem(file[pos..]);
            r.Annotation? || r.Item? ==>
              |r.rest| < |file| - pos && file[|file| - |r.rest|..] == r.rest
  {
    var s := file[pos..];
    ReadItemRest(s);
    var r := ReadItem(s);
    if r.Annotation? || r.Item? {
      assert s[|s| - |r.rest|..] == file[|file| - |r.rest|..];
    }
  }

  /** `o` continues a run that has executed `done` into the run `all`. */
  ghost predicate Continues(all: Outcome, done: seq<Command>, o: Outcome) {
    all == o.(executed := done + o.executed)
  }

  lemma ContinuesStep(all: Outcome, done: seq<Command>, c: Command, o: Outcome)
    requires Continues(all, done, o.(executed := [c] + o.executed))
    ensures Continues(all, done + [c], o)
  {
    assert done + ([c] + o.executed) == done + [c] + o.executed;
  }

  /** The reading loop of loadSingleAppendOnlyFile. */
  method ReadCommands(file: seq<byte>, known: Command -> bool)
    returns (executed: seq<Command>, validUpTo: nat, exit: Exit)
    ensures LoadFile(file, known) == Outcome(executed, validUpTo, exit)
    ensures validUpTo <= |file|
  {
    hide ReadItem, Load;
    executed, validUpTo, exit := [], 0, CleanEof;
    var pos := 0;
    assert file[0..] == file;
    while pos < |file|
      invariant pos <= |file| && validUpTo <= |file| && exit == CleanEof
      invariant Continues(LoadFile(file, known), executed, Load(file[pos..], |file|, validUpTo, known))
      decreases |file| - pos
    {
      var item := ReadItem(file[pos..]);
      ReadItemAdvances(file, pos);
      if item.Annotation? {
        LoadAnnotation(file[pos..], |file|, validUpTo, known);
        pos := |file| - |item.rest|;
      } else if item.Item? && known(item.argv) {
        LoadItem(file[pos..], |file|, validUpTo, known);
        ContinuesStep(LoadFile(file, known), executed, item.argv, Load(item.rest, |file|, |file| - |item.rest|, known));
        executed := executed + [item.argv];
        pos := |file| - |item.rest|;
        validUpTo := pos;
      } else {
        LoadStops(file[pos..], |file|, validUpTo, known);
        exit := ExitOf(item);
        return;
      }
    }
    LoadNothing(|file|, validUpTo, known);
  }

  /** loadSingleAppendOnlyFile on a file without an RDB preamble or MULTI. The offset of
      the last good command is only kept when some recovery is configured. */
  method LoadSingleAppendOnlyFile(file: seq<byte>, cfg: Config, truncateOk: bool, known: Command -> bool)
    returns (executed: seq<Command>, r: LoadResult)
    ensures executed == LoadFile(file, known).executed && r == Loaded(file, cfg, truncateOk, known)
  {
    executed := [];
    if |file| == 0 {
      r := LoadResult(AofEmpty, file);
      return;
    }
    var validUpTo, exit;
    executed, validUpTo, exit := ReadCommands(file, known);
    r := Finish(file, if Tracks(cfg) then validUpTo else 0, exit, cfg, truncateOk);
  }
}
