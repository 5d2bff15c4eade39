/** The manifest file as the server writes and reads it: the string-building and line-reading
    loops, and the file names of the manifests the server can reach. */
module ManifestFile {
  import opened Options
  import opened Decimal
  import opened Manifest
  import opened SplitArgs
  import opened ManifestCodec
  import Resp

  // ---------------------------------------------------------------- printing loops

  lemma {:induction false} JoinAppend(a: seq<Bytes>, b: seq<Bytes>)
    requires a != [] && b != []
    ensures Join(a + b) == Join(a) + [SPACE] + Join(b)
  {
    hide Word;
    assert (a + b)[1..] == a[1..] + b;
    if |a| > 1 {
      JoinAppend(a[1..], b);
    } else {
      assert a[1..] + b == b;
    }
  }

  lemma JoinTwo(v: Bytes, w: Bytes)
    ensures Join([v, w]) == Word(v) + [SPACE] + Word(w)
  {
    assert [v, w][1..] == [w];
  }

  lemma PlainWords(k: FileType)
    ensures Word(FILE) == FILE && Word(SEQ) == SEQ && Word(TYPE) == TYPE
    ensures Word(STARTOFFSET) == STARTOFFSET && Word(ENDOFFSET) == ENDOFFSET
    ensures Word([KindByte(k)]) == [KindByte(k)]
  {
    hide Repr, NeedsRepr;
    PlainKeys(k);
  }

  lemma PlainKeys(k: FileType)
    ensures !NeedsRepr(FILE) && !NeedsRepr(SEQ) && !NeedsRepr(TYPE)
    ensures !NeedsRepr(STARTOFFSET) && !NeedsRepr(ENDOFFSET) && !NeedsRepr([KindByte(k)])
  {
  }

  lemma PlainNumber(n: int)
    ensures Word(Number(n)) == Number(n)
  {
    hide Digits;
    var d := if n < 0 then -n else n;
    PlainDigits(d);
    assert n < 0 ==> forall i :: 0 < i < |Number(n)| ==> Number(n)[i] == Digits(d)[i - 1];
  }

  /** A key, its value and the spaces sdscatprintf puts around them. */
  function Pair(key: Bytes, value: Bytes): Bytes {
    key + [SPACE] + value
  }

  lemma FirstWords(ai: NamedInfo)
    ensures Join([FILE, ai.name, SEQ, Number(ai.num), TYPE, [KindByte(ai.kind)]]) ==
            Pair(FILE, Word(ai.name)) + [SPACE] + Pair(SEQ, Number(ai.num)) + [SPACE] + Pair(TYPE, [KindByte(ai.kind)])
  {
    hide Word, Join, Number;
    PlainWords(ai.kind);
    PlainNumber(ai.num);
    var a, b, c := [FILE, ai.name], [SEQ, Number(ai.num)], [TYPE, [KindByte(ai.kind)]];
    assert [FILE, ai.name, SEQ, Number(ai.num), TYPE, [KindByte(ai.kind)]] == a + (b + c);
    JoinAppend(b, c);
    JoinAppend(a, b + c);
    JoinTwo(FILE, ai.name);
    JoinTwo(SEQ, Number(ai.num));
    JoinTwo(TYPE, [KindByte(ai.kind)]);
    assert Join(a) + [SPACE] + (Join(b) + [SPACE] + Join(c)) == Join(a) + [SPACE] + Join(b) + [SPACE] + Join(c);
  }

  lemma MoreWords(ws: seq<Bytes>, key: Bytes, n: int)
    requires ws != [] && Word(key) == key
    ensures Join(ws + [key, Number(n)]) == Join(ws) + [SPACE] + Pair(key, Number(n))
  {
    hide Word, Join, Number;
    PlainNumber(n);
    JoinAppend(ws, [key, Number(n)]);
    JoinTwo(key, Number(n));
  }

  /** aofInfoFormat. */
  method InfoFormat(buf: Bytes, ai: NamedInfo) returns (ret: Bytes)
    ensures ret == buf + Format(ai)
  {
    hide Word, Join, Number;
    var name := ai.name;
    if NeedsRepr(ai.name) {
      name := Repr(ai.name);
    }
    WordIs(ai.name);
    var text := Pair(FILE, name) + [SPACE] + Pair(SEQ, Number(ai.num)) + [SPACE] + Pair(TYPE, [KindByte(ai.kind)]);
    ghost var ws := [FILE, ai.name, SEQ, Number(ai.num), TYPE, [KindByte(ai.kind)]];
    FirstWords(ai);
    PlainWords(ai.kind);
    if ai.startOffset != -1 {
      MoreWords(ws, STARTOFFSET, ai.startOffset);
      ws := ws + [STARTOFFSET, Number(ai.startOffset)];
      text := text + [SPACE] + Pair(STARTOFFSET, Number(ai.startOffset));
      if ai.endOffset != -1 {
        MoreWords(ws, ENDOFFSET, ai.endOffset);
        ws := ws + [ENDOFFSET, Number(ai.endOffset)];
        text := text + [SPACE] + Pair(ENDOFFSET, Number(ai.endOffset));
      }
    }
    assert ws == Words(ai);
    ret := buf + text + [LF];
    assert buf + text + [LF] == buf + (text + [LF]);
  }

  lemma WordIs(w: Bytes)
    ensures Word(w) == if NeedsRepr(w) then Repr(w) else w
  {
  }

  lemma {:induction false} FormatAllAppend(a: seq<NamedInfo>, b: seq<NamedInfo>)
    ensures FormatAll(a + b) == FormatAll(a) + FormatAll(b)
  {
    hide Format;
    if a == [] {
      assert a + b == b;
    } else {
      assert (a + b)[1..] == a[1..] + b;
      FormatAllAppend(a[1..], b);
    }
  }

  lemma FormatOne(ai: NamedInfo)
    ensures FormatAll([ai]) == Format(ai)
  {
    hide Format;
    assert FormatAll([ai][1..]) == [];
  }

  /** appendAofInfoFromList. */
  method AppendInfos(buf: Bytes, infos: seq<NamedInfo>) returns (ret: Bytes)
    ensures ret == buf + FormatAll(infos)
  {
    hide Format, FormatAll;
    ret := buf;
    FormatNone();
    var i := 0;
    while i < |infos|
      invariant 0 <= i <= |infos|
      invariant ret == buf + FormatAll(infos[..i])
    {
      ghost var before := ret;
      ret := InfoFormat(ret, infos[i]);
      FormatOne(infos[i]);
      FormatAllAppend(infos[..i], [infos[i]]);
      assert infos[..i + 1] == infos[..i] + [infos[i]];
      i := i + 1;
    }
    assert infos[..i] == infos;
  }

  lemma FormatNone()
    ensures FormatAll([]) == []
  {
  }

  /** getAofManifestAsString. */
  method ManifestAsString(am: NamedManifest) returns (buf: Bytes)
    ensures buf == Print(am)
  {
    hide Format, FormatAll;
    FormatNone();
    buf := [];
    if am.base.Some? {
      buf := InfoFormat(buf, am.base.value);
      FormatOne(am.base.value);
    }
    buf := AppendInfos(buf, am.hist);
    buf := AppendInfos(buf, am.incr);
    ghost var b := if am.base.Some? then [am.base.value] else [];
    FormatAllAppend(b, am.hist);
    FormatAllAppend(b + am.hist, am.incr);
  }

  // ---------------------------------------------------------------- loading loops

  lemma ApplyPairsStep(r: Raw, args: seq<Bytes>)
    requires |args| % 2 == 0 && args != []
    ensures ApplyPairs(r, args) ==
            match ApplyPair(r, args[0], args[1])
            case None => None
            case Some(r') => ApplyPairs(r', args[2..])
  {
  }

  /** The loop of aofLoadManifestFromFile over the words of one line. */
  method ReadPairs(args: seq<Bytes>) returns (r: Option<Raw>)
    requires |args| % 2 == 0
    ensures r == ApplyPairs(NO_INFO, args)
  {
    hide ApplyPairs, ApplyPair;
    var ai := NO_INFO;
    var i := 0;
    assert args[0..] == args;
    while i < |args|
      invariant 0 <= i <= |args| && i % 2 == 0
      invariant ApplyPairs(ai, args[i..]) == ApplyPairs(NO_INFO, args)
    {
      ApplyPairsStep(ai, args[i..]);
      assert args[i..][2..] == args[i + 2..];
      var next := ApplyPair(ai, args[i], args[i + 1]);
      if next.None? {
        return None;
      }
      ai := next.value;
      i := i + 2;
    }
    ApplyNone(ai);
    assert args[i..] == [];
    return Some(ai);
  }

  lemma ApplyNone(r: Raw)
    ensures ApplyPairs(r, []) == Some(r)
  {
  }

  /** One line that is not a comment. */
  method ReadLine(line: Bytes) returns (r: Option<NamedInfo>)
    ensures r == ParseLine(line)
  {
    hide ApplyPairs, Split, TrimLeft, TrimRight;
    var t := TrimRight(TrimLeft(line));
    if t == [] {
      return None;
    }
    var args := Split(t);
    if args.None? || |args.value| < 6 || |args.value| % 2 == 1 {
      return None;
    }
    var ai := ReadPairs(args.value);
    if ai.None? || ai.value.name.None? || ai.value.num == 0 || KindOf(ai.value.kind).None? {
      return None;
    }
    return Some(Info(ai.value.name.value, ai.value.num, KindOf(ai.value.kind).value,
                     ai.value.startOffset, ai.value.endOffset));
  }

  lemma LoadFromStep(s: Bytes, m: NamedManifest, maxSeq: int, any: bool)
    requires s != []
    ensures 1 <= Resp.LineLength(s, MAX_LINE) <= |s|
    ensures LoadFrom(s, m, maxSeq, any) ==
            var n := Resp.LineLength(s, MAX_LINE);
            var line := CString(s[..n]);
            if s[0] == HASH then LoadFrom(s[n..], m, maxSeq, true)
            else if LF !in line || ParseLine(line).None? then None
            else
              var a := Add(m, maxSeq, ParseLine(line).value);
              if a.None? then None else LoadFrom(s[n..], a.value.0, a.value.1, true)
  {
    hide CString, ParseLine, Add;
  }

  /** aofLoadManifestFromFile; None is the fatal error exit. */
  method LoadManifest(file: Bytes) returns (r: Option<NamedManifest>)
    ensures r == Load(file)
  {
    hide LoadFrom, ParseLine, CString, Resp.LineLength;
    var base: Option<NamedInfo>, hist: seq<NamedInfo>, incr: seq<NamedInfo> := None, [], [];
    var baseSeq, incrSeq, maxSeq, lines := 0, 0, 0, 0;
    var s := file;
    while s != []
      invariant LoadFrom(s, Manifest(base, hist, incr, baseSeq, incrSeq, false), maxSeq, lines > 0) == Load(file)
      invariant lines >= 0
      decreases |s|
    {
      LoadFromStep(s, Manifest(base, hist, incr, baseSeq, incrSeq, false), maxSeq, lines > 0);
      var n := Resp.LineLength(s, MAX_LINE);
      var line := CString(s[..n]);
      var comment := s[0] == HASH;
      s := s[n..];
      lines := lines + 1;
      if comment {
        continue;
      }
      if LF !in line {
        return None;
      }
      var ai := ReadLine(line);
      if ai.None? {
        return None;
      }
      match ai.value.kind {
        case BaseFile =>
          if base.Some? {
            return None;
          }
          base, baseSeq := ai, ai.value.num;
        case HistFile =>
          hist := hist + [ai.value];
        case IncrFile =>
          if ai.value.num <= maxSeq {
            return None;
          }
          incr, incrSeq, maxSeq := incr + [ai.value], ai.value.num, ai.value.num;
      }
    }
    LoadFromEnd(Manifest(base, hist, incr, baseSeq, incrSeq, false), maxSeq, lines > 0);
    if lines == 0 {
      return None;
    }
    return Some(Manifest(base, hist, incr, baseSeq, incrSeq, false));
  }

  lemma LoadFromEnd(m: NamedManifest, maxSeq: int, any: bool)
    ensures LoadFrom([], m, maxSeq, any) == if any then Some(m) else None
  {
  }

  // ---------------------------------------------------------------- file names

  const DOT: byte := 46
  /** ".base", ".incr", ".rdb", ".aof", "temp-". */
  const BASE: Bytes := [46, 98, 97, 115, 101]
  const INCR: Bytes := [46, 105, 110, 99, 114]
  const RDB: Bytes := [46, 114, 100, 98]
  const AOF: Bytes := [46, 97, 111, 102]
  const TEMP: Bytes := [116, 101, 109, 112, 45]

  function Suffix(n: FileName): Bytes {
    match n
    case BaseName(_, rdb) => BASE + (if rdb then RDB else AOF)
    case IncrName(_) => INCR + AOF
    case TempIncrName => INCR
  }

  /** The naming rules, for a configured appendfilename. */
  function Render(prefix: Bytes, n: FileName): Bytes {
    match n
    case BaseName(k, _) => prefix + [DOT] + Number(k) + Suffix(n)
    case IncrName(k) => prefix + [DOT] + Number(k) + Suffix(n)
    case TempIncrName => TEMP + prefix + Suffix(n)
  }

  function RenderInfo(prefix: Bytes, i: AofInfo): NamedInfo {
    Info(Render(prefix, i.name), i.num, i.kind, i.startOffset, i.endOffset)
  }

  function RenderInfos(prefix: Bytes, s: seq<AofInfo>): (r: seq<NamedInfo>)
    ensures |r| == |s|
    ensures forall i :: 0 <= i < |s| ==> r[i] == RenderInfo(prefix, s[i])
  {
    seq(|s|, i requires 0 <= i < |s| => RenderInfo(prefix, s[i]))
  }

  function RenderManifest(prefix: Bytes, m: AofManifest): NamedManifest {
    Manifest(if m.base.Some? then Some(RenderInfo(prefix, m.base.value)) else None,
             RenderInfos(prefix, m.hist), RenderInfos(prefix, m.incr), m.baseSeq, m.incrSeq, m.dirty)
  }

  lemma NumberInjective(a: int, b: int)
    requires Number(a) == Number(b)
    ensures a == b
  {
    DigitsValueOfDigits(if a < 0 then -a else a);
    DigitsValueOfDigits(if b < 0 then -b else b);
    DigitsEnd(if a < 0 then -a else a);
    DigitsEnd(if b < 0 then -b else b);
    if a < 0 && b < 0 {
      assert Digits(-a) == Number(a)[1..] == Digits(-b);
    }
  }

  lemma SameTail(a: Bytes, x: Bytes, b: Bytes, y: Bytes)
    requires a + x == b + y && |x| == |y|
    ensures a == b && x == y
  {
    assert |a| == |b|;
    assert (a + x)[..|a|] == a && (b + y)[..|b|] == b;
    assert (a + x)[|a|..] == x && (b + y)[|b|..] == y;
  }

  lemma SameHead(a: Bytes, x: Bytes, y: Bytes)
    requires a + x == a + y
    ensures x == y
  {
    assert (a + x)[|a|..] == x && (a + y)[|a|..] == y;
  }

  /** Different files never get the same name. */
  lemma RenderInjective(prefix: Bytes, a: FileName, b: FileName)
    requires Render(prefix, a) == Render(prefix, b)
    ensures a == b
  {
    hide Number;
    var ra, rb := Render(prefix, a), Render(prefix, b);
    assert ra[|ra| - 1] == Suffix(a)[|Suffix(a)| - 1];
    assert rb[|rb| - 1] == Suffix(b)[|Suffix(b)| - 1];
    if !a.TempIncrName? && !b.TempIncrName? {
      var pa, pb := prefix + [DOT] + Number(a.num), prefix + [DOT] + Number(b.num);
      SameTail(pa, Suffix(a), pb, Suffix(b));
      SameHead(prefix + [DOT], Number(a.num), Number(b.num));
      NumberInjective(a.num, b.num);
      assert Suffix(a)[1] == Suffix(b)[1] && Suffix(a)[8] == Suffix(b)[8];
    }
  }

  /** The appendfilename the configuration accepts: a C string that is not a path. */
  predicate ValidPrefix(prefix: Bytes) {
    NUL !in prefix && IsBaseName(prefix)
  }

  /** Bytes that are never quoted, escaped or refused. */
  predicate PlainBytes(s: Bytes) {
    forall i :: 0 <= i < |s| ==> IsPlain(s[i]) && IsPrint(s[i]) && s[i] != SLASH && s[i] != BACKSLASH
  }

  lemma PlainParts(n: FileName)
    ensures PlainBytes(Suffix(n)) && PlainBytes(TEMP) && PlainBytes([DOT]) && PlainBytes([MINUS])
  {
  }

  lemma NumberPlain(n: int)
    ensures PlainBytes(Number(n))
  {
    PlainParts(TempIncrName);
    if n < 0 {
      PlainConcat([MINUS], Digits(-n));
    }
  }

  lemma PlainConcat(a: Bytes, b: Bytes)
    requires PlainBytes(a) && PlainBytes(b)
    ensures PlainBytes(a + b)
  {
  }

  lemma RenderAround(prefix: Bytes, n: FileName) returns (before: Bytes, after: Bytes)
    ensures PlainBytes(before) && PlainBytes(after) && after != [] && Render(prefix, n) == before + prefix + after
  {
    hide PlainBytes, Number;
    PlainParts(n);
    if n.TempIncrName? {
      before, after := TEMP, Suffix(n);
    } else {
      before, after := [], [DOT] + Number(n.num) + Suffix(n);
      PlainEmpty();
      NumberPlain(n.num);
      PlainConcat([DOT], Number(n.num));
      PlainConcat([DOT] + Number(n.num), Suffix(n));
      assert [] + prefix + after == prefix + [DOT] + Number(n.num) + Suffix(n);
    }
  }

  lemma PlainEmpty()
    ensures PlainBytes([])
  {
  }

  lemma PlainAround(prefix: Bytes, before: Bytes, after: Bytes)
    requires PlainBytes(before) && PlainBytes(after) && after != []
    ensures var r := before + prefix + after;
            && (ValidPrefix(prefix) ==> NUL !in r && IsBaseName(r))
            && (Safe(r) <==> (SQUOTE in prefix ==> NeedsRepr(prefix)))
  {
    var r := before + prefix + after;
    if NeedsRepr(prefix) {
      var i :| 0 <= i < |prefix| && (prefix[i] == BACKSLASH || prefix[i] == DQUOTE || !IsPrint(prefix[i]) || IsSpace(prefix[i]));
      assert r[|before| + i] == prefix[i];
    }
    assert SQUOTE in r <==> SQUOTE in prefix;
  }

  /** The limits of the file format for an entry: 64-bit numbers. */
  predicate InRange(i: AofInfo) {
    i.num <= LONG_MAX && OffsetOk(i.startOffset) && OffsetOk(i.endOffset)
  }

  /** What a line can carry: an end offset only beside a start offset, 1024 bytes. */
  predicate Fits(prefix: Bytes, i: AofInfo) {
    && (i.endOffset != -1 ==> i.startOffset != -1)
    && |Format(RenderInfo(prefix, i))| <= MAX_LINE
  }

  function Listing(m: AofManifest): seq<AofInfo> {
    (if m.base.Some? then [m.base.value] else []) + m.hist + m.incr
  }

  lemma InfoSurvives(prefix: Bytes, i: AofInfo)
    requires ValidPrefix(prefix) && i.num >= 1 && InRange(i)
    ensures Writable(RenderInfo(prefix, i))
    ensures Survives(RenderInfo(prefix, i)) <==> (SQUOTE in prefix ==> NeedsRepr(prefix)) && Fits(prefix, i)
  {
    hide Safe, Render, Format, ValidPrefix, NeedsRepr;
    var before, after := RenderAround(prefix, i.name);
    PlainAround(prefix, before, after);
  }

  lemma RenderEntries(prefix: Bytes, m: AofManifest)
    requires WellFormed(m)
    ensures Sorted(RenderManifest(prefix, m))
    ensures Entries(RenderManifest(prefix, m)) == RenderInfos(prefix, Listing(m))
    ensures forall i :: 0 <= i < |Listing(m)| ==> Listing(m)[i].num >= 1
  {
    hide Render;
  }

  /** Loading the file written for a manifest the server can reach gives back the same BASE,
      HISTORY and INCR lists under the same names, with the counters read off them, if and only if
      there is an entry, every line fits, and appendfilename has no single quote or has a
      character that causes it to be quoted. */
  lemma ReachableRoundTrip(prefix: Bytes, m: AofManifest)
    requires ValidPrefix(prefix) && WellFormed(m)
    requires forall i :: 0 <= i < |Listing(m)| ==> InRange(Listing(m)[i])
    ensures Load(Print(RenderManifest(prefix, m))) == Some(RenderManifest(prefix, Reloaded(m))) <==>
            && Listing(m) != []
            && (SQUOTE in prefix ==> NeedsRepr(prefix))
            && forall i :: 0 <= i < |Listing(m)| ==> Fits(prefix, Listing(m)[i])
  {
    hide Load, Print, Fits, ValidPrefix, WellFormed, NeedsRepr, InRange, Listing, Entries, AllWritable, AllSurvive;
    RenderEntries(prefix, m);
    ListingSurvives(prefix, Listing(m));
    LoadOfPrint(RenderManifest(prefix, m));
    RenderReloaded(prefix, m);
  }

  lemma ListingSurvives(prefix: Bytes, l: seq<AofInfo>)
    requires ValidPrefix(prefix) && forall i :: 0 <= i < |l| ==> l[i].num >= 1 && InRange(l[i])
    ensures AllWritable(RenderInfos(prefix, l))
    ensures l != [] ==> (AllSurvive(RenderInfos(prefix, l)) <==>
                         (SQUOTE in prefix ==> NeedsRepr(prefix)) && forall i :: 0 <= i < |l| ==> Fits(prefix, l[i]))
  {
    hide Fits, ValidPrefix, NeedsRepr, InRange, Survives, Writable, RenderInfo;
    forall i | 0 <= i < |l|
      ensures Writable(RenderInfos(prefix, l)[i])
      ensures Survives(RenderInfos(prefix, l)[i]) <==> (SQUOTE in prefix ==> NeedsRepr(prefix)) && Fits(prefix, l[i])
    {
      InfoSurvives(prefix, l[i]);
    }
    if l != [] {
      assert AllSurvive(RenderInfos(prefix, l)) ==> Survives(RenderInfos(prefix, l)[0]);
    }
  }

  lemma RenderReloaded(prefix: Bytes, m: AofManifest)
    ensures RenderManifest(prefix, Reloaded(m)) == Reloaded(RenderManifest(prefix, m))
  {
    hide Render;
  }
}
