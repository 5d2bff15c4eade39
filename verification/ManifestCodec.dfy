/** The manifest file: printing it and loading it back. */
module ManifestCodec {
  import opened Options
  import opened Decimal
  import opened Manifest
  import opened SplitArgs
  import Resp

  type Bytes = seq<byte>
  type NamedInfo = Info<Bytes>
  type NamedManifest = Manifest<Bytes>

  const HASH: byte := 35
  const SLASH: byte := 47

  const FILE: Bytes := [102, 105, 108, 101]
  const SEQ: Bytes := [115, 101, 113]
  const TYPE: Bytes := [116, 121, 112, 101]
  const STARTOFFSET: Bytes := [115, 116, 97, 114, 116, 111, 102, 102, 115, 101, 116]
  const ENDOFFSET: Bytes := [101, 110, 100, 111, 102, 102, 115, 101, 116]

  /** MANIFEST_MAX_LINE. */
  const MAX_LINE: nat := 1024

  function KindByte(k: FileType): byte {
    match k case BaseFile => 98 case HistFile => 104 case IncrFile => 105
  }

  /** `%lld`. */
  function Number(n: int): Bytes {
    if n < 0 then [MINUS] + Digits(-n) else Digits(n)
  }

  // ---------------------------------------------------------------- printing

  /** The words of one line; the end offset only follows a start offset. */
  function Words(ai: NamedInfo): seq<Bytes> {
    [FILE, ai.name, SEQ, Number(ai.num), TYPE, [KindByte(ai.kind)]]
    + (if ai.startOffset == -1 then []
       else [STARTOFFSET, Number(ai.startOffset)]
            + (if ai.endOffset == -1 then [] else [ENDOFFSET, Number(ai.endOffset)]))
  }

  function Format(ai: NamedInfo): Bytes {
    Join(Words(ai)) + [LF]
  }

  function FormatAll(infos: seq<NamedInfo>): Bytes {
    if infos == [] then [] else Format(infos[0]) + FormatAll(infos[1..])
  }

  /** BASE first, then HISTORY, then INCR. */
  function Entries(m: NamedManifest): seq<NamedInfo> {
    (if m.base.Some? then [m.base.value] else []) + m.hist + m.incr
  }

  function Print(m: NamedManifest): Bytes {
    FormatAll(Entries(m))
  }

  // ---------------------------------------------------------------- loading

  predicate IsBaseName(s: Bytes) {
    SLASH !in s && BACKSLASH !in s
  }

  /** A C string ends at its first NUL. */
  function CString(s: Bytes): Bytes {
    if s == [] || s[0] == NUL then [] else [s[0]] + CString(s[1..])
  }

  predicate Trimmed(b: byte) {
    b == SPACE || b == TAB || b == CR || b == LF
  }

  function TrimLeft(s: Bytes): Bytes {
    if s != [] && Trimmed(s[0]) then TrimLeft(s[1..]) else s
  }

  function TrimRight(s: Bytes): Bytes {
    if s != [] && Trimmed(s[|s| - 1]) then TrimRight(s[..|s| - 1]) else s
  }

  /** An aofInfo being filled in: zero and None mean not seen. */
  datatype Raw = Raw(name: Option<Bytes>, num: int, kind: byte, startOffset: int, endOffset: int)

  const NO_INFO: Raw := Raw(None, 0, 0, -1, -1)

  /** One key and value; unknown keys are skipped, a path as file name is an error. */
  function ApplyPair(r: Raw, k: Bytes, v: Bytes): Option<Raw> {
    var key := CString(k);
    if EqualsIgnoreCase(key, FILE) then
      if IsBaseName(CString(v)) then Some(r.(name := Some(CString(v)))) else None
    else if EqualsIgnoreCase(key, SEQ) then Some(r.(num := Strtol(CString(v))))
    else if EqualsIgnoreCase(key, TYPE) then Some(r.(kind := if v == [] then 0 else v[0]))
    else if EqualsIgnoreCase(key, STARTOFFSET) then Some(r.(startOffset := Strtol(CString(v))))
    else if EqualsIgnoreCase(key, ENDOFFSET) then Some(r.(endOffset := Strtol(CString(v))))
    else Some(r)
  }

  function ApplyPairs(r: Raw, args: seq<Bytes>): Option<Raw>
    requires |args| % 2 == 0
    decreases |args|
  {
    if args == [] then Some(r) else
    match ApplyPair(r, args[0], args[1])
    case None => None
    case Some(r') => ApplyPairs(r', args[2..])
  }

  function KindOf(b: byte): Option<FileType> {
    if b == 98 then Some(BaseFile) else if b == 104 then Some(HistFile) else if b == 105 then Some(IncrFile) else None
  }

  /** One line, without its comment and length checks. */
  function ParseLine(line: Bytes): Option<NamedInfo> {
    var t := TrimRight(TrimLeft(line));
    if t == [] then None else
    match Split(t)
    case None => None
    case Some(args) =>
      if |args| < 6 || |args| % 2 == 1 then None else
      match ApplyPairs(NO_INFO, args)
      case None => None
      case Some(r) =>
        if r.name.None? || r.num == 0 || KindOf(r.kind).None? then None
        else Some(Info(r.name.value, r.num, KindOf(r.kind).value, r.startOffset, r.endOffset))
  }

  /** Adding a parsed entry: one BASE at most, INCR numbers strictly increasing. */
  function Add(m: NamedManifest, maxSeq: int, ai: NamedInfo): Option<(NamedManifest, int)> {
    match ai.kind
    case BaseFile => if m.base.Some? then None else Some((m.(base := Some(ai), baseSeq := ai.num), maxSeq))
    case HistFile => Some((m.(hist := m.hist + [ai]), maxSeq))
    case IncrFile =>
      if ai.num <= maxSeq then None else Some((m.(incr := m.incr + [ai], incrSeq := ai.num), ai.num))
  }

  const NO_FILES: NamedManifest := Manifest(None, [], [], 0, 0, false)

  /** aofLoadManifestFromFile from `s` on; `any` when a line has been read. None is a fatal error. */
  function LoadFrom(s: Bytes, m: NamedManifest, maxSeq: int, any: bool): Option<NamedManifest>
    decreases |s|
  {
    if s == [] then if any then Some(m) else None else
    var n := Resp.LineLength(s, MAX_LINE);
    var line := CString(s[..n]);
    var rest := s[n..];
    if s[0] == HASH then LoadFrom(rest, m, maxSeq, true)
    else if LF !in line then None
    else
      match ParseLine(line)
      case None => None
      case Some(ai) =>
        match Add(m, maxSeq, ai)
        case None => None
        case Some((m', maxSeq')) => LoadFrom(rest, m', maxSeq', true)
  }

  function Load(file: Bytes): Option<NamedManifest> {
    LoadFrom(file, NO_FILES, 0, false)
  }

  // ---------------------------------------------------------------- one line

  predicate OffsetOk(n: int) {
    -1 <= n <= LONG_MAX
  }

  /** The entries the server writes: a plain file name without NUL and 64-bit numbers. */
  predicate Writable(ai: NamedInfo) {
    && NUL !in ai.name && IsBaseName(ai.name)
    && 0 < ai.num <= LONG_MAX
    && OffsetOk(ai.startOffset) && OffsetOk(ai.endOffset)
  }

  /** The entries that survive printing and loading: the splitter agrees with the writer about the
      name, no end offset stands alone, and the line fits. */
  predicate Survives(ai: NamedInfo) {
    && Safe(ai.name)
    && (ai.endOffset != -1 ==> ai.startOffset != -1)
    && |Format(ai)| <= MAX_LINE
  }

  /** An entry as far as its line tells it. */
  function Kept(ai: NamedInfo): NamedInfo {
    if ai.startOffset == -1 then ai.(endOffset := -1) else ai
  }

  /** What the loader makes of the line of an entry. */
  function ReadBack(ai: NamedInfo): Option<NamedInfo> {
    if |Format(ai)| > MAX_LINE then None else ParseLine(Format(ai))
  }

  lemma PlainDigits(n: nat)
    ensures !NeedsRepr(Digits(n)) && Safe(Digits(n)) && Word(Digits(n)) == Digits(n)
    ensures NUL !in Digits(n)
  {
  }

  predicate Unquoted(w: Bytes) {
    Safe(w) && !NeedsRepr(w)
  }

  /** All words but the name stand for themselves. */
  lemma TailUnquoted(ai: NamedInfo)
    requires Writable(ai)
    ensures forall i :: 2 <= i < |Words(ai)| ==> Unquoted(Words(ai)[i])
  {
    hide Digits;
    PlainDigits(ai.num);
    if ai.startOffset != -1 { PlainDigits(ai.startOffset); }
    if ai.endOffset != -1 { PlainDigits(ai.endOffset); }
  }

  lemma {:induction false} JoinUnquoted(ws: seq<Bytes>)
    requires forall i :: 0 <= i < |ws| ==> Unquoted(ws[i])
    ensures SQUOTE !in Join(ws)
  {
    if |ws| > 1 {
      JoinUnquoted(ws[1..]);
    }
  }

  lemma {:induction false} CStringWhole(s: Bytes)
    requires NUL !in s
    ensures CString(s) == s
  {
    if s != [] { CStringWhole(s[1..]); }
  }

  lemma {:induction false} CStringShorter(s: Bytes)
    ensures |CString(s)| <= |s|
  {
    if s != [] { CStringShorter(s[1..]); }
  }

  lemma NumberBack(n: nat)
    requires n <= LONG_MAX
    ensures CString(Number(n)) == Number(n) && Strtol(Number(n)) == n
  {
    PlainDigits(n);
    CStringWhole(Digits(n));
    StrtolOfDigits(n, []);
    assert Digits(n) + [] == Digits(n);
  }

  lemma ApplyNumber(r: Raw, n: nat)
    requires n <= LONG_MAX
    ensures ApplyPair(r, SEQ, Number(n)) == Some(r.(num := n))
    ensures ApplyPair(r, STARTOFFSET, Number(n)) == Some(r.(startOffset := n))
    ensures ApplyPair(r, ENDOFFSET, Number(n)) == Some(r.(endOffset := n))
  {
    hide Number, Strtol, CString;
    NumberBack(n);
    KeyStrings();
    KeysDiffer();
  }

  lemma KeyStrings()
    ensures CString(FILE) == FILE && CString(SEQ) == SEQ && CString(TYPE) == TYPE
    ensures CString(STARTOFFSET) == STARTOFFSET && CString(ENDOFFSET) == ENDOFFSET
  {
    hide CString;
    CStringWhole(FILE);
    CStringWhole(SEQ);
    CStringWhole(TYPE);
    CStringWhole(STARTOFFSET);
    CStringWhole(ENDOFFSET);
  }

  lemma KeysDiffer()
    ensures !EqualsIgnoreCase(SEQ, FILE) && !EqualsIgnoreCase(TYPE, FILE) && !EqualsIgnoreCase(TYPE, SEQ)
    ensures !EqualsIgnoreCase(STARTOFFSET, FILE) && !EqualsIgnoreCase(STARTOFFSET, SEQ) && !EqualsIgnoreCase(STARTOFFSET, TYPE)
    ensures !EqualsIgnoreCase(ENDOFFSET, FILE) && !EqualsIgnoreCase(ENDOFFSET, SEQ) && !EqualsIgnoreCase(ENDOFFSET, TYPE)
    ensures !EqualsIgnoreCase(ENDOFFSET, STARTOFFSET)
  {
    assert Lower(TYPE[0]) != Lower(FILE[0]);
  }

  lemma ApplyType(r: Raw, k: FileType)
    ensures ApplyPair(r, TYPE, [KindByte(k)]) == Some(r.(kind := KindByte(k)))
  {
    KeyStrings();
    KeysDiffer();
  }

  lemma ApplyCons(r: Raw, k: Bytes, v: Bytes, more: seq<Bytes>)
    requires |more| % 2 == 0 && ApplyPair(r, k, v).Some?
    ensures ApplyPairs(r, [k, v] + more) == ApplyPairs(ApplyPair(r, k, v).value, more)
  {
    assert ([k, v] + more)[2..] == more;
  }

  lemma ApplyOffsets(r: Raw, ai: NamedInfo)
    requires OffsetOk(ai.startOffset) && OffsetOk(ai.endOffset)
    requires r.startOffset == -1 && r.endOffset == -1
    ensures ApplyPairs(r, Words(ai)[6..]) == Some(r.(startOffset := ai.startOffset, endOffset := Kept(ai).endOffset))
  {
    hide ApplyPair, Number;
    if ai.startOffset == -1 {
      assert Words(ai)[6..] == [];
    } else {
      ApplyNumber(r, ai.startOffset);
      var r1 := r.(startOffset := ai.startOffset);
      if ai.endOffset == -1 {
        assert Words(ai)[6..] == [STARTOFFSET, Number(ai.startOffset)] + [];
        ApplyCons(r, STARTOFFSET, Number(ai.startOffset), []);
      } else {
        var e := [ENDOFFSET, Number(ai.endOffset)];
        assert Words(ai)[6..] == [STARTOFFSET, Number(ai.startOffset)] + e;
        ApplyCons(r, STARTOFFSET, Number(ai.startOffset), e);
        ApplyNumber(r1, ai.endOffset);
        assert e == e + [];
        ApplyCons(r1, ENDOFFSET, Number(ai.endOffset), []);
      }
    }
  }

  lemma ApplyTail(r: Raw, ai: NamedInfo)
    requires Writable(ai) && r.startOffset == -1 && r.endOffset == -1
    ensures |Words(ai)| % 2 == 0
    ensures ApplyPairs(r, Words(ai)[2..]) ==
            Some(Raw(r.name, ai.num, KindByte(ai.kind), ai.startOffset, Kept(ai).endOffset))
  {
    hide ApplyPair, Number;
    var w := Words(ai);
    var r1 := r.(num := ai.num);
    var r2 := r1.(kind := KindByte(ai.kind));
    ApplyNumber(r, ai.num);
    ApplyType(r1, ai.kind);
    ApplyOffsets(r2, ai);
    var t := w[6..];
    assert w[2..] == [SEQ, Number(ai.num)] + ([TYPE, [KindByte(ai.kind)]] + t);
    ApplyCons(r, SEQ, Number(ai.num), [TYPE, [KindByte(ai.kind)]] + t);
    ApplyCons(r1, TYPE, [KindByte(ai.kind)], t);
  }

  lemma WordsShape(ai: NamedInfo)
    ensures var w := Words(ai);
            && |w| >= 6 && |w| % 2 == 0 && w[0] == FILE && Safe(FILE)
            && w[1..] == [ai.name] + w[2..] && w[1..][1..] == w[2..] && w == [FILE, ai.name] + w[2..]
  {
  }

  /** The entry read from the words of `ai` with `name` in place of its own name. */
  lemma ApplyWords(name: Bytes, ai: NamedInfo)
    requires Writable(ai)
    ensures |Words(ai)| % 2 == 0
    ensures ApplyPairs(NO_INFO, [FILE, name] + Words(ai)[2..]) ==
            if IsBaseName(CString(name))
            then Some(Raw(Some(CString(name)), ai.num, KindByte(ai.kind), ai.startOffset, Kept(ai).endOffset))
            else None
  {
    hide Words, Kept, Writable, CString, IsBaseName;
    var r := NO_INFO.(name := Some(CString(name)));
    WordsShape(ai);
    KeyStrings();
    var t := Words(ai)[2..];
    ApplyTail(r, ai);
    var w := [FILE, name] + t;
    assert w[0] == FILE && w[1] == name && w[2..] == t;
  }

  // ---------------------------------------------------------------- lines of a file

  predicate AllPrint(s: Bytes) {
    forall i :: 0 <= i < |s| ==> IsPrint(s[i])
  }

  lemma {:induction false} EscapeAllPrint(s: Bytes)
    ensures AllPrint(EscapeAll(s))
  {
    if s != [] {
      EscapeAllPrint(s[1..]);
      assert AllPrint(Escape(s[0]));
    }
  }

  /** Whatever a name holds, what is written is printable: no line feed, no NUL. */
  lemma {:induction false} JoinPrint(ws: seq<Bytes>)
    ensures AllPrint(Join(ws))
  {
    hide Repr;
    if ws != [] {
      JoinPrint(ws[1..]);
      if NeedsRepr(ws[0]) { ReprPrint(ws[0]); }
    }
  }

  lemma ReprPrint(s: Bytes)
    ensures AllPrint(Repr(s))
  {
    EscapeAllPrint(s);
  }

  lemma {:induction false} JoinEnd(ws: seq<Bytes>)
    requires ws != [] && Word(ws[|ws| - 1]) != []
    ensures Join(ws) != []
    ensures var l := Word(ws[|ws| - 1]); Join(ws)[|Join(ws)| - 1] == l[|l| - 1]
  {
    hide Word;
    if |ws| > 1 {
      JoinEnd(ws[1..]);
    }
  }

  lemma LastWord(ai: NamedInfo)
    requires Writable(ai)
    ensures var w := Words(ai);
            var l := Word(w[|w| - 1]);
            l != [] && !Trimmed(l[|l| - 1])
  {
    hide Format, Digits;
    if ai.startOffset == -1 {
      assert Word([KindByte(ai.kind)]) == [KindByte(ai.kind)];
    } else {
      var n := if ai.endOffset == -1 then ai.startOffset else ai.endOffset;
      PlainDigits(n);
      DigitsEnd(n);
    }
  }

  lemma DigitsEnd(n: nat)
    ensures var d := Digits(n); d != [] && !Trimmed(d[|d| - 1])
  {
  }

  lemma FormatShape(ai: NamedInfo)
    requires Writable(ai)
    ensures var j := Join(Words(ai));
            && j != [] && AllPrint(j) && j[0] == FILE[0] && !Trimmed(j[|j| - 1])
  {
    hide Writable;
    JoinPrint(Words(ai));
    LastWord(ai);
    JoinEnd(Words(ai));
    assert !NeedsRepr(FILE);
    assert Join(Words(ai)) == Word(FILE) + [SPACE] + Join(Words(ai)[1..]);
  }

  lemma TrimLine(j: Bytes)
    requires j != [] && !Trimmed(j[0]) && !Trimmed(j[|j| - 1])
    ensures TrimRight(TrimLeft(j + [LF])) == j
  {
    var s := j + [LF];
    assert s[..|s| - 1] == j;
  }

  /** How the line of an entry splits: a safe name comes back, an empty one disappears, and any
      other makes the line unreadable or is read as a shorter one. */
  ghost predicate SplitAs(ai: NamedInfo, args: Option<seq<Bytes>>) {
    var t := Words(ai)[2..];
    if Safe(ai.name) then args == Some([FILE, ai.name] + t)
    else if ai.name == [] then args == Some([FILE] + t)
    else args.Some? ==> |args.value| >= 2 && args.value == [FILE, args.value[1]] + t && |args.value[1]| < |ai.name|
  }

  lemma SplitName(ai: NamedInfo)
    requires Writable(ai) && ai.name != []
    ensures var t := Words(ai)[2..];
            var x := Split(Word(ai.name) + [SPACE] + Join(t));
            if Safe(ai.name) then x == Some([ai.name] + t)
            else x.Some? ==> |x.value| >= 1 && x.value == [x.value[0]] + t && |x.value[0]| < |ai.name|
  {
    hide Words, ReadToken, Writable, Split;
    WordsShape(ai);
    var t := Words(ai)[2..];
    var rest := [SPACE] + Join(t);
    var s := Word(ai.name) + rest;
    assert s == Word(ai.name) + [SPACE] + Join(t);
    TailUnquoted(ai);
    SplitOfJoin(t);
    SplitSpace(Join(t));
    assert rest[1..] == Join(t);
    if Safe(ai.name) {
      ReadWord(ai.name, rest);
      SplitStep(s);
    } else {
      JoinUnquoted(t);
      ReadUnsafe(ai.name, [], rest);
      UnsafeStart(ai.name, rest);
    }
  }

  lemma UnsafeStart(w: Bytes, rest: Bytes)
    requires w != [] && !NeedsRepr(w)
    ensures var s := w + rest;
            var r := ReadToken(s, [], Plain);
            Split(s) == match r
                        case BadToken => None
                        case Token(x, more) =>
                          match Split(more) case None => None case Some(xs) => Some([x] + xs)
  {
    hide ReadToken;
    var s := w + rest;
    assert s[0] == w[0] && !IsSpace(w[0]);
  }

  lemma JoinTwice(w: seq<Bytes>)
    requires |w| > 2
    ensures Join(w) == Word(w[0]) + ([SPACE] + (Word(w[1]) + [SPACE] + Join(w[2..])))
  {
    hide Word;
    assert w[1..][0] == w[1] && w[1..][1..] == w[2..];
  }

  lemma SplitLine(ai: NamedInfo)
    requires Writable(ai)
    ensures SplitAs(ai, Split(Join(Words(ai))))
  {
    hide Words, ReadToken, Writable, Split, Word, Safe;
    WordsShape(ai);
    var w := Words(ai);
    var t := w[2..];
    var j := Word(ai.name) + [SPACE] + Join(t);
    var rest := [SPACE] + j;
    JoinTwice(w);
    ReadWord(FILE, rest);
    SplitStep(Join(w));
    SplitSpace(j);
    assert rest[1..] == j;
    if ai.name == [] {
      EmptyWord();
      assert j == [SPACE] + Join(t);
      SplitSpace(Join(t));
      TailUnquoted(ai);
      SplitOfJoin(t);
    } else {
      SplitName(ai);
      var x := Split(j);
      if x.Some? {
        assert [FILE] + ([x.value[0]] + t) == [FILE, x.value[0]] + t;
      }
    }
  }

  lemma EmptyWord()
    ensures Word([]) == [] && !Safe([])
  {
  }

  lemma ParseJoined(ai: NamedInfo)
    requires Writable(ai)
    ensures ParseLine(Format(ai)) ==
            match Split(Join(Words(ai)))
            case None => None
            case Some(args) =>
              if |args| < 6 || |args| % 2 == 1 then None else
              match ApplyPairs(NO_INFO, args)
              case None => None
              case Some(r) =>
                if r.name.None? || r.num == 0 || KindOf(r.kind).None? then None
                else Some(Info(r.name.value, r.num, KindOf(r.kind).value, r.startOffset, r.endOffset))
  {
    hide Writable, Split, Join, Words, TrimLeft, TrimRight, ApplyPairs;
    FormatShape(ai);
    TrimLine(Join(Words(ai)));
  }

  /** One printed line parses back to what it says of its entry, except that an unsafe name is
      lost. */
  lemma ParseFormat(ai: NamedInfo)
    requires Writable(ai)
    ensures var p := ParseLine(Format(ai));
            && (Safe(ai.name) ==> p == Some(Kept(ai)))
            && (p.Some? ==> p.value == Kept(ai).(name := p.value.name) && (Safe(ai.name) || |p.value.name| < |ai.name|))
  {
    hide Safe, Split, Join, Words, ApplyPairs, ParseLine;
    WordsShape(ai);
    ParseJoined(ai);
    SplitLine(ai);
    var x := Split(Join(Words(ai)));
    if Safe(ai.name) {
      CStringWhole(ai.name);
      ApplyWords(ai.name, ai);
    } else if x.Some? && ai.name != [] {
      CStringShorter(x.value[1]);
      ApplyWords(x.value[1], ai);
    }
  }

  /** An entry comes back from its line if and only if its name is safe, its end offset does not
      stand alone and the line is not too long; its kind and number always do. */
  lemma LineSurvives(ai: NamedInfo)
    requires Writable(ai)
    ensures ReadBack(ai) == Some(ai) <==> Survives(ai)
    ensures var b := ReadBack(ai); b.Some? ==> b.value.kind == ai.kind && b.value.num == ai.num
  {
    hide Safe, ParseLine, Format;
    ParseFormat(ai);
  }

  lemma FormatLine(ai: NamedInfo, rest: Bytes)
    requires Writable(ai)
    ensures Format(ai) != [] && Format(ai)[0] != HASH
    ensures var n := Resp.LineLength(Format(ai) + rest, MAX_LINE);
            var line := (Format(ai) + rest)[..n];
            if |Format(ai)| <= MAX_LINE then line == Format(ai) && n == |Format(ai)| && CString(line) == line && LF in line
            else LF !in CString(line)
  {
    hide Writable, Join, Words;
    FormatShape(ai);
    var f := Format(ai);
    var s := f + rest;
    assert f[|f| - 1] == LF;
    if |f| <= MAX_LINE {
      Resp.LineLengthAt(f, rest, MAX_LINE);
      assert s[..|f|] == f;
      CStringWhole(f);
    } else {
      Resp.LineLengthFull(s, MAX_LINE);
      CStringWhole(s[..MAX_LINE]);
    }
  }

  lemma LoadFromFormat(ai: NamedInfo, rest: Bytes, m: NamedManifest, maxSeq: int, any: bool)
    requires Writable(ai)
    ensures LoadFrom(Format(ai) + rest, m, maxSeq, any) ==
            match ReadBack(ai)
            case None => None
            case Some(b) =>
              match Add(m, maxSeq, b)
              case None => None
              case Some((m', maxSeq')) => LoadFrom(rest, m', maxSeq', true)
  {
    hide Format, ParseLine, Writable, Resp.LineLength, CString, Add;
    FormatLine(ai, rest);
    var s := Format(ai) + rest;
    assert s[|Format(ai)|..] == rest;
  }

  /** Adding entries one after the other. */
  function AddAll(m: NamedManifest, maxSeq: int, infos: seq<NamedInfo>): Option<NamedManifest>
    decreases |infos|
  {
    if infos == [] then Some(m) else
    match Add(m, maxSeq, infos[0])
    case None => None
    case Some((m', maxSeq')) => AddAll(m', maxSeq', infos[1..])
  }

  /** What the loader makes of the lines of several entries. */
  function ReadAll(infos: seq<NamedInfo>): Option<seq<NamedInfo>> {
    if infos == [] then Some([]) else
    match (ReadBack(infos[0]), ReadAll(infos[1..]))
    case (Some(b), Some(more)) => Some([b] + more)
    case (_, _) => None
  }

  ghost predicate AllWritable(infos: seq<NamedInfo>) {
    forall i :: 0 <= i < |infos| ==> Writable(infos[i])
  }

  ghost predicate AllSurvive(infos: seq<NamedInfo>) {
    forall i :: 0 <= i < |infos| ==> Survives(infos[i])
  }

  ghost predicate SameNumbers(a: seq<NamedInfo>, b: seq<NamedInfo>) {
    |a| == |b| && forall i :: 0 <= i < |a| ==> a[i].kind == b[i].kind && a[i].num == b[i].num
  }

  lemma {:induction false} ReadAllSurvive(infos: seq<NamedInfo>)
    requires AllWritable(infos)
    ensures ReadAll(infos) == Some(infos) <==> AllSurvive(infos)
    ensures var b := ReadAll(infos); b.Some? ==> SameNumbers(b.value, infos)
  {
    hide Writable, Survives, ReadBack;
    if infos != [] {
      assert Writable(infos[0]);
      LineSurvives(infos[0]);
      ReadAllSurvive(infos[1..]);
      assert infos == [infos[0]] + infos[1..];
      assert AllSurvive(infos) <==> Survives(infos[0]) && AllSurvive(infos[1..]) by {
        if Survives(infos[0]) && AllSurvive(infos[1..]) {
          assert forall i :: 0 < i < |infos| ==> infos[i] == infos[1..][i - 1];
        }
      }
    }
  }

  lemma {:induction false} LoadFormatAll(infos: seq<NamedInfo>, m: NamedManifest, maxSeq: int, any: bool)
    requires AllWritable(infos) && (infos != [] || any)
    ensures LoadFrom(FormatAll(infos), m, maxSeq, any) ==
            match ReadAll(infos) case None => None case Some(b) => AddAll(m, maxSeq, b)
    decreases |infos|
  {
    hide Format, Writable, LoadFrom, Add, ReadBack;
    if infos == [] {
      LoadFromNothing(m, maxSeq);
    } else {
      LoadFromFormat(infos[0], FormatAll(infos[1..]), m, maxSeq, any);
      var b := ReadBack(infos[0]);
      if b.Some? {
        var a := Add(m, maxSeq, b.value);
        if a.Some? {
          LoadFormatAll(infos[1..], a.value.0, a.value.1, true);
        }
        var more := ReadAll(infos[1..]);
        if more.Some? {
          assert ([b.value] + more.value)[1..] == more.value;
        }
      }
    }
  }

  lemma LoadFromNothing(m: NamedManifest, maxSeq: int)
    ensures LoadFrom([], m, maxSeq, true) == Some(m)
  {
  }

  // ---------------------------------------------------------------- whole manifests

  predicate Increasing(infos: seq<NamedInfo>, above: int) {
    && (forall i :: 0 <= i < |infos| ==> infos[i].num > above)
    && (forall i, j :: 0 <= i < j < |infos| ==> infos[i].num < infos[j].num)
  }

  /** The shape of every manifest in memory: each list holds its own kind, INCR numbers grow. */
  ghost predicate Sorted(m: NamedManifest) {
    && (m.base.Some? ==> m.base.value.kind == BaseFile)
    && (forall i :: 0 <= i < |m.hist| ==> m.hist[i].kind == HistFile)
    && (forall i :: 0 <= i < |m.incr| ==> m.incr[i].kind == IncrFile)
    && Increasing(m.incr, 0)
  }

  lemma {:induction false} AddHist(m: NamedManifest, maxSeq: int, hist: seq<NamedInfo>, more: seq<NamedInfo>)
    requires forall i :: 0 <= i < |hist| ==> hist[i].kind == HistFile
    ensures AddAll(m, maxSeq, hist + more) == AddAll(m.(hist := m.hist + hist), maxSeq, more)
    decreases |hist|
  {
    if hist == [] {
      assert hist + more == more && m.hist + hist == m.hist;
    } else {
      assert (hist + more)[1..] == hist[1..] + more;
      AddHist(m.(hist := m.hist + [hist[0]]), maxSeq, hist[1..], more);
      assert m.hist + [hist[0]] + hist[1..] == m.hist + hist;
    }
  }

  lemma {:induction false} AddIncr(m: NamedManifest, maxSeq: int, incr: seq<NamedInfo>)
    requires (forall i :: 0 <= i < |incr| ==> incr[i].kind == IncrFile) && Increasing(incr, maxSeq)
    ensures AddAll(m, maxSeq, incr) ==
            Some(m.(incr := m.incr + incr, incrSeq := if incr == [] then m.incrSeq else incr[|incr| - 1].num))
    decreases |incr|
  {
    if incr == [] {
      assert m.incr + incr == m.incr;
    } else {
      AddIncr(m.(incr := m.incr + [incr[0]], incrSeq := incr[0].num), incr[0].num, incr[1..]);
      assert m.incr + [incr[0]] + incr[1..] == m.incr + incr;
    }
  }

  /** The manifest after its BASE line. */
  function WithBase(base: Option<NamedInfo>): NamedManifest {
    if base.Some? then NO_FILES.(base := base, baseSeq := base.value.num) else NO_FILES
  }

  lemma AddBase(base: Option<NamedInfo>, more: seq<NamedInfo>)
    requires base.Some? ==> base.value.kind == BaseFile
    ensures AddAll(NO_FILES, 0, (if base.Some? then [base.value] else []) + more) == AddAll(WithBase(base), 0, more)
  {
    if base.Some? {
      assert ([base.value] + more)[1..] == more;
    } else {
      assert [] + more == more;
    }
  }

  lemma AddEntries(m: NamedManifest)
    requires Sorted(m)
    ensures AddAll(NO_FILES, 0, Entries(m)) == Some(Reloaded(m))
  {
    hide AddAll, Increasing;
    var b := if m.base.Some? then [m.base.value] else [];
    var m0 := WithBase(m.base);
    var m1 := m0.(hist := m.hist);
    assert Entries(m) == b + (m.hist + m.incr);
    AddBase(m.base, m.hist + m.incr);
    AddHist(m0, 0, m.hist, m.incr);
    assert m0.hist + m.hist == m.hist;
    AddIncr(m1, 0, m.incr);
    assert m1.incr + m.incr == m.incr;
  }

  /** The manifest with its entries replaced in order. */
  function Replaced(m: NamedManifest, infos: seq<NamedInfo>): NamedManifest
    requires |infos| == |Entries(m)|
  {
    var k := if m.base.Some? then 1 else 0;
    m.(base := if m.base.Some? then Some(infos[0]) else None,
       hist := infos[k..k + |m.hist|], incr := infos[k + |m.hist|..])
  }

  lemma ReplacedEntries(m: NamedManifest, infos: seq<NamedInfo>)
    requires Sorted(m) && SameNumbers(infos, Entries(m))
    ensures Sorted(Replaced(m, infos)) && Entries(Replaced(m, infos)) == infos
  {
    hide Increasing, Sorted, SameNumbers;
    var k := if m.base.Some? then 1 else 0;
    var e := Entries(m);
    SameLength(infos, e);
    var r := Replaced(m, infos);
    EntriesParts(m);
    EntriesParts(r);
    SameSlice(infos, e, 0, k);
    SameSlice(infos, e, k, k + |m.hist|);
    SameSlice(infos, e, k + |m.hist|, |e|);
    assert infos[k + |m.hist|..|e|] == r.incr;
    assert m.base.Some? ==> infos[0..k] == [r.base.value] && e[0..k] == [m.base.value];
    SortedAlike(m, r);
    assert infos == infos[..k] + r.hist + r.incr;
  }

  lemma EntriesParts(m: NamedManifest)
    ensures var k := if m.base.Some? then 1 else 0;
            var e := Entries(m);
            && |e| == k + |m.hist| + |m.incr|
            && e[k..k + |m.hist|] == m.hist && e[k + |m.hist|..|e|] == m.incr
  {
  }

  lemma SameSlice(a: seq<NamedInfo>, b: seq<NamedInfo>, i: nat, j: nat)
    requires SameNumbers(a, b) && i <= j <= |a|
    ensures |a| == |b| && SameNumbers(a[i..j], b[i..j])
  {
  }

  lemma SameLength(a: seq<NamedInfo>, b: seq<NamedInfo>)
    requires SameNumbers(a, b)
    ensures |a| == |b|
  {
  }

  lemma SortedAlike(m: NamedManifest, r: NamedManifest)
    requires Sorted(m) && SameNumbers(r.hist, m.hist) && SameNumbers(r.incr, m.incr)
    requires r.base.None? || (m.base.Some? && SameNumbers([r.base.value], [m.base.value]))
    ensures Sorted(r)
  {
    if r.base.Some? {
      assert [r.base.value][0].kind == [m.base.value][0].kind;
    }
  }

  lemma SameEntries(a: NamedManifest, b: NamedManifest)
    requires Reloaded(a) == Reloaded(b)
    ensures Entries(a) == Entries(b)
  {
  }

  lemma ReloadedTwice(m: NamedManifest)
    ensures Reloaded(Reloaded(m)) == Reloaded(m)
  {
  }

  /** Loading a printed manifest returns the same BASE, HISTORY and INCR lists, with the
      counters recomputed from them, if and only if there is an entry and every entry survives. */
  lemma LoadOfPrint(m: NamedManifest)
    requires Sorted(m) && AllWritable(Entries(m))
    ensures Load(Print(m)) == Some(Reloaded(m)) <==> Entries(m) != [] && AllSurvive(Entries(m))
    ensures var l := Load(Print(m)); l.Some? ==> l.value == Reloaded(l.value)
  {
    hide LoadFrom, FormatAll, AddAll, Reloaded, AllWritable, AllSurvive, ReadAll, Sorted, Replaced;
    var e := Entries(m);
    if e == [] {
      NothingIsRefused(m);
    } else {
      LoadFormatAll(e, NO_FILES, 0, false);
      ReadAllSurvive(e);
      var b := ReadAll(e);
      if b.Some? {
        ReplacedEntries(m, b.value);
        var r := Replaced(m, b.value);
        AddEntries(r);
        ReloadedTwice(r);
        if Reloaded(r) == Reloaded(m) {
          SameEntries(r, m);
        }
        if b.value == e {
          AddEntries(m);
        }
      }
    }
  }

  /** A manifest without files prints as an empty file, which the loader refuses. */
  lemma NothingIsRefused(m: NamedManifest)
    requires Entries(m) == []
    ensures Load(Print(m)) == None
  {
  }

  /** The counters survive as well exactly when each list that has one is not empty or never was. */
  lemma CountersSurvive(m: NamedManifest)
    requires Sorted(m) && AllWritable(Entries(m)) && !m.dirty
    requires m.base.Some? ==> m.baseSeq == m.base.value.num
    requires m.incr != [] ==> m.incrSeq == m.incr[|m.incr| - 1].num
    ensures Load(Print(m)) == Some(m) <==>
            && Entries(m) != [] && AllSurvive(Entries(m))
            && (m.base.Some? || m.baseSeq == 0) && (m.incr != [] || m.incrSeq == 0)
  {
    hide LoadFrom, Print, AllWritable, AllSurvive, Entries;
    LoadOfPrint(m);
  }
}
