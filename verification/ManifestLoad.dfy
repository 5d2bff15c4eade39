/** Which manifest files are accepted and what is read from them: entries in any order, comments, keys in
    any order and case. */
module ManifestLoad {
  import opened Options
  import opened Decimal
  import opened Manifest
  import opened ManifestCodec
  import opened ManifestFile
  import SplitArgs
  import Resp

  // ---------------------------------------------------------------- entries in any order

  function OfKind(infos: seq<NamedInfo>, k: FileType): seq<NamedInfo> {
    if infos == [] then []
    else (if infos[0].kind == k then [infos[0]] else []) + OfKind(infos[1..], k)
  }

  /** At most one BASE, and the numbers of the INCRs grow from above `above`. */
  ghost predicate Consistent(infos: seq<NamedInfo>, above: int) {
    && (forall i, j :: 0 <= i < j < |infos| ==> !(infos[i].kind == BaseFile && infos[j].kind == BaseFile))
    && (forall i :: 0 <= i < |infos| && infos[i].kind == IncrFile ==> infos[i].num > above)
    && (forall i, j :: 0 <= i < j < |infos| && infos[i].kind == IncrFile && infos[j].kind == IncrFile ==>
          infos[i].num < infos[j].num)
  }

  ghost predicate HasBase(infos: seq<NamedInfo>) {
    exists i :: 0 <= i < |infos| && infos[i].kind == BaseFile
  }

  lemma ConsistentStep(infos: seq<NamedInfo>, above: int)
    requires infos != []
    ensures var x, t := infos[0], infos[1..];
            Consistent(infos, above) <==>
            match x.kind
            case BaseFile => !HasBase(t) && Consistent(t, above)
            case HistFile => Consistent(t, above)
            case IncrFile => x.num > above && Consistent(t, x.num)
  {
    var x, t := infos[0], infos[1..];
    assert forall i :: 0 < i < |infos| ==> infos[i] == t[i - 1];
    assert forall i :: 0 <= i < |t| ==> t[i] == infos[i + 1];
  }

  lemma HasBaseStep(infos: seq<NamedInfo>)
    requires infos != []
    ensures HasBase(infos) <==> infos[0].kind == BaseFile || HasBase(infos[1..])
  {
    if i :| 0 < i < |infos| && infos[i].kind == BaseFile { assert infos[1..][i - 1].kind == BaseFile; }
    if i :| 0 <= i < |infos[1..]| && infos[1..][i].kind == BaseFile { assert infos[i + 1].kind == BaseFile; }
  }

  lemma {:induction false} BaseListed(infos: seq<NamedInfo>)
    ensures OfKind(infos, BaseFile) != [] <==> HasBase(infos)
  {
    if infos != [] {
      BaseListed(infos[1..]);
      HasBaseStep(infos);
    }
  }

  /** The manifest that `m` becomes when the entries are filed by kind. */
  function Filed(m: NamedManifest, infos: seq<NamedInfo>): NamedManifest {
    FiledAs(m, OfKind(infos, BaseFile), OfKind(infos, HistFile), OfKind(infos, IncrFile))
  }

  function FiledAs(m: NamedManifest, b: seq<NamedInfo>, h: seq<NamedInfo>, i: seq<NamedInfo>): NamedManifest {
    Manifest(if b == [] then m.base else Some(b[0]), m.hist + h, m.incr + i,
             if b == [] then m.baseSeq else b[0].num, if i == [] then m.incrSeq else i[|i| - 1].num, m.dirty)
  }

  lemma {:induction false} AddAllIs(m: NamedManifest, above: int, infos: seq<NamedInfo>)
    ensures AddAll(m, above, infos) ==
            if Consistent(infos, above) && !(m.base.Some? && HasBase(infos)) then Some(Filed(m, infos)) else None
    decreases |infos|
  {
    hide Consistent, HasBase;
    if infos == [] {
      assert Consistent(infos, above) && !HasBase(infos) by { EmptyConsistent(above); }
      assert m.hist + [] == m.hist && m.incr + [] == m.incr;
    } else {
      ConsistentStep(infos, above);
      HasBaseStep(infos);
      var a := Add(m, above, infos[0]);
      if a.Some? {
        AddAllIs(a.value.0, a.value.1, infos[1..]);
        BaseListed(infos[1..]);
        if infos[0].kind != BaseFile || !HasBase(infos[1..]) { FiledStep(m, above, infos); }
      }
    }
  }

  lemma EmptyConsistent(above: int)
    ensures Consistent([], above) && !HasBase([])
  {
  }

  lemma OfKindStep(infos: seq<NamedInfo>, k: FileType)
    requires infos != []
    ensures OfKind(infos, k) == if infos[0].kind == k then [infos[0]] + OfKind(infos[1..], k) else OfKind(infos[1..], k)
  {
  }

  lemma FiledBase(m: NamedManifest, x: NamedInfo, h: seq<NamedInfo>, i: seq<NamedInfo>)
    ensures FiledAs(m.(base := Some(x), baseSeq := x.num), [], h, i) == FiledAs(m, [x], h, i)
  {
  }

  lemma FiledHist(m: NamedManifest, x: NamedInfo, b: seq<NamedInfo>, h: seq<NamedInfo>, i: seq<NamedInfo>)
    ensures FiledAs(m.(hist := m.hist + [x]), b, h, i) == FiledAs(m, b, [x] + h, i)
  {
    assert m.hist + [x] + h == m.hist + ([x] + h);
  }

  lemma FiledIncr(m: NamedManifest, x: NamedInfo, b: seq<NamedInfo>, h: seq<NamedInfo>, i: seq<NamedInfo>)
    ensures FiledAs(m.(incr := m.incr + [x], incrSeq := x.num), b, h, i) == FiledAs(m, b, h, [x] + i)
  {
    assert m.incr + [x] + i == m.incr + ([x] + i);
    assert ([x] + i)[|i|] == if i == [] then x else i[|i| - 1];
  }

  lemma FiledStep(m: NamedManifest, above: int, infos: seq<NamedInfo>)
    requires infos != [] && Add(m, above, infos[0]).Some?
    requires infos[0].kind == BaseFile ==> OfKind(infos[1..], BaseFile) == []
    ensures Filed(Add(m, above, infos[0]).value.0, infos[1..]) == Filed(m, infos)
  {
    var x, t := infos[0], infos[1..];
    OfKindStep(infos, BaseFile);
    OfKindStep(infos, HistFile);
    OfKindStep(infos, IncrFile);
    hide OfKind, FiledAs;
    var b, h, i := OfKind(t, BaseFile), OfKind(t, HistFile), OfKind(t, IncrFile);
    match x.kind {
      case BaseFile =>
        assert [x] + [] == [x];
        FiledBase(m, x, h, i);
      case HistFile => FiledHist(m, x, b, h, i);
      case IncrFile => FiledIncr(m, x, b, h, i);
    }
  }

  /** Lines in any order are accepted exactly when there is at most one BASE and the INCR numbers are
      positive and grow; then the BASE, the history and the INCRs are as listed, in their order, and the
      counters are the numbers of the BASE and of the last INCR. */
  lemma AnyOrderLoads(infos: seq<NamedInfo>)
    requires AllWritable(infos) && AllSurvive(infos) && infos != []
    ensures Load(FormatAll(infos)) == if Consistent(infos, 0) then Some(Filed(NO_FILES, infos)) else None
  {
    hide FormatAll, LoadFrom, ReadAll, AllWritable, AllSurvive, Consistent, HasBase, AddAll, Filed;
    LoadFormatAll(infos, NO_FILES, 0, false);
    ReadAllSurvive(infos);
    AddAllIs(NO_FILES, 0, infos);
  }

  // ---------------------------------------------------------------- comments and blank lines

  /** A comment line that fits is skipped, but counts as a line. */
  lemma CommentSkipped(text: Bytes, rest: Bytes, m: NamedManifest, maxSeq: int, any: bool)
    requires 10 !in text && |text| + 2 <= 1024
    ensures LoadFrom([35] + text + [10] + rest, m, maxSeq, any) == LoadFrom(rest, m, maxSeq, true)
  {
    var a := [35] + text + [10];
    Resp.LineLengthAt(a, rest, MAX_LINE);
    hide CString, ParseLine, Add;
    assert (a + rest)[|a|..] == rest;
  }

  /** A last line without its line feed, or one longer than the buffer, is refused, unless it is a comment. */
  lemma LongLineRefused(s: Bytes, m: NamedManifest, maxSeq: int, any: bool)
    requires s != [] && s[0] != 35 && (forall i :: 0 <= i < |s| && i < 1024 ==> s[i] != 10)
    ensures LoadFrom(s, m, maxSeq, any) == None
  {
    var n := Resp.LineLength(s, MAX_LINE);
    CStringShorter(s[..n]);
    hide Resp.LineLength, ParseLine, Add;
    forall i | 0 <= i < |CString(s[..n])|
      ensures CString(s[..n])[i] != LF
    {
      CStringAt(s[..n], i);
    }
  }

  lemma {:induction false} CStringAt(s: Bytes, i: nat)
    requires i < |CString(s)|
    ensures i < |s| && CString(s)[i] == s[i]
  {
    if i > 0 { CStringAt(s[1..], i - 1); }
  }

  predicate AllBlank(s: Bytes) {
    forall i :: 0 <= i < |s| ==> s[i] in {32, 9, 13, 10}
  }

  lemma {:induction false} TrimmedLeft(a: Bytes, x: Bytes)
    requires AllBlank(a)
    ensures TrimLeft(a + x) == TrimLeft(x)
  {
    if a == [] {
      assert a + x == x;
    } else {
      assert (a + x)[1..] == a[1..] + x;
      TrimmedLeft(a[1..], x);
    }
  }

  lemma {:induction false} TrimmedRight(x: Bytes, b: Bytes)
    requires AllBlank(b)
    ensures TrimRight(x + b) == TrimRight(x)
    decreases |b|
  {
    if b == [] {
      assert x + b == x;
    } else {
      assert (x + b)[..|x + b| - 1] == x + b[..|b| - 1];
      TrimmedRight(x, b[..|b| - 1]);
    }
  }

  lemma {:induction false} TrimLeftOf(x: Bytes, b: Bytes)
    ensures TrimLeft(x + b) == if AllBlank(x) then TrimLeft(b) else TrimLeft(x) + b
  {
    if x == [] {
      assert x + b == b;
    } else {
      assert (x + b)[1..] == x[1..] + b;
      TrimLeftOf(x[1..], b);
      assert AllBlank(x) <==> Trimmed(x[0]) && AllBlank(x[1..]) by {
        if Trimmed(x[0]) && AllBlank(x[1..]) { assert forall i :: 1 <= i < |x| ==> x[i] == x[1..][i - 1]; }
      }
    }
  }

  lemma {:induction false} BlankTrims(s: Bytes)
    requires AllBlank(s)
    ensures TrimLeft(s) == []
  {
    if s != [] { BlankTrims(s[1..]); }
  }

  /** Blanks around a line make no difference, and a line of blanks is refused. */
  lemma BlanksTrimmed(a: Bytes, line: Bytes, b: Bytes)
    requires AllBlank(a) && AllBlank(b)
    ensures ParseLine(a + line + b) == ParseLine(line)
    ensures AllBlank(line) ==> ParseLine(line) == None
  {
    hide TrimLeft, TrimRight, SplitArgs.Split, ApplyPairs, AllBlank;
    assert a + line + b == a + (line + b);
    TrimmedLeft(a, line + b);
    TrimLeftOf(line, b);
    if AllBlank(line) {
      BlankTrims(line);
      BlankTrims(b);
    } else {
      TrimmedRight(TrimLeft(line), b);
    }
    TrimNone();
  }

  lemma TrimNone()
    ensures TrimRight([]) == []
  {
  }

  // ---------------------------------------------------------------- the words of a line

  datatype Key = FileKey | SeqKey | TypeKey | StartKey | EndKey

  /** "file", "seq", "type", "startoffset" and "endoffset". */
  function KeyText(k: Key): Bytes {
    match k
    case FileKey => [102, 105, 108, 101]
    case SeqKey => [115, 101, 113]
    case TypeKey => [116, 121, 112, 101]
    case StartKey => [115, 116, 97, 114, 116, 111, 102, 102, 115, 101, 116]
    case EndKey => [101, 110, 100, 111, 102, 102, 115, 101, 116]
  }

  /** The pair of words at `i` is one of the key. */
  predicate IsKey(args: seq<Bytes>, i: nat, k: Key) {
    2 * i + 1 < |args| && EqualsIgnoreCase(CString(args[2 * i]), KeyText(k))
  }

  /** The last pair of the key. */
  ghost predicate LastAt(args: seq<Bytes>, i: nat, k: Key) {
    IsKey(args, i, k) && forall j: nat :: j > i ==> !IsKey(args, j, k)
  }

  /** What the value of a key leaves in the entry. */
  ghost predicate Shows(r: Raw, k: Key, v: Bytes) {
    match k
    case FileKey => r.name == Some(CString(v))
    case SeqKey => r.num == Strtol(CString(v))
    case TypeKey => r.kind == if v == [] then 0 else v[0]
    case StartKey => r.startOffset == Strtol(CString(v))
    case EndKey => r.endOffset == Strtol(CString(v))
  }

  ghost predicate SameField(a: Raw, b: Raw, k: Key) {
    match k
    case FileKey => a.name == b.name
    case SeqKey => a.num == b.num
    case TypeKey => a.kind == b.kind
    case StartKey => a.startOffset == b.startOffset
    case EndKey => a.endOffset == b.endOffset
  }

  /** A pair sets its own field and no other; only a path as a file name is refused. */
  lemma OnePair(r: Raw, args: seq<Bytes>, k: Key)
    requires |args| >= 2
    ensures ApplyPair(r, args[0], args[1]).None? <==>
            IsKey(args, 0, FileKey) && (47 in CString(args[1]) || 92 in CString(args[1]))
    ensures var a := ApplyPair(r, args[0], args[1]);
            a.Some? ==> if IsKey(args, 0, k) then Shows(a.value, k, args[1]) else SameField(a.value, r, k)
  {
    assert KeyText(FileKey) == FILE && KeyText(SeqKey) == SEQ && KeyText(TypeKey) == TYPE;
    assert KeyText(StartKey) == STARTOFFSET && KeyText(EndKey) == ENDOFFSET;
    hide CString, Strtol, EqualsIgnoreCase, KeyText;
    OneKey(CString(args[0]));
    assert args[2 * 0] == args[0];
  }

  lemma OneKey(w: Bytes)
    ensures forall a, b :: EqualsIgnoreCase(w, KeyText(a)) && EqualsIgnoreCase(w, KeyText(b)) ==> a == b
  {
    assert forall a: Key, b: Key :: |KeyText(a)| == |KeyText(b)| && a != b ==> Lower(KeyText(a)[0]) != Lower(KeyText(b)[0]);
  }

  lemma IsKeyNext(args: seq<Bytes>, i: nat, k: Key)
    requires |args| >= 2
    ensures IsKey(args[2..], i, k) <==> IsKey(args, i + 1, k)
    ensures IsKey(args, i + 1, k) ==> args[2..][2 * i + 1] == args[2 * (i + 1) + 1]
  {
    hide CString, EqualsIgnoreCase;
  }

  /** A file name that is a path. */
  ghost predicate IsPath(args: seq<Bytes>, i: nat) {
    IsKey(args, i, FileKey) && (47 in CString(args[2 * i + 1]) || 92 in CString(args[2 * i + 1]))
  }

  /** The words of a line are refused exactly when some file name is a path. */
  lemma {:induction false} PairsRefused(r: Raw, args: seq<Bytes>)
    requires |args| % 2 == 0
    ensures ApplyPairs(r, args).None? <==> exists i: nat :: IsPath(args, i)
    decreases |args|
  {
    hide CString, ApplyPair, IsKey;
    if args == [] {
      assert forall i: nat :: !IsKey(args, i, FileKey) by { NoKeys(); }
    } else {
      OnePair(r, args, FileKey);
      var a := ApplyPair(r, args[0], args[1]);
      if a.None? {
        assert IsPath(args, 0);
      } else {
        PairsRefused(a.value, args[2..]);
        if i: nat :| IsPath(args[2..], i) {
          IsKeyNext(args, i, FileKey);
          assert IsPath(args, i + 1);
        }
        if i: nat :| IsPath(args, i) {
          IsKeyNext(args, i - 1, FileKey);
          assert IsPath(args[2..], i - 1);
        }
      }
    }
  }

  lemma NoKeys()
    ensures forall i: nat, k: Key :: !IsKey([], i, k)
  {
  }

  /** A field whose key does not occur keeps its value. */
  lemma {:induction false} PairsKeep(r: Raw, args: seq<Bytes>, k: Key)
    requires |args| % 2 == 0 && ApplyPairs(r, args).Some? && forall i: nat :: !IsKey(args, i, k)
    ensures SameField(ApplyPairs(r, args).value, r, k)
    decreases |args|
  {
    hide CString, ApplyPair, IsKey;
    if args != [] {
      OnePair(r, args, k);
      forall i: nat
        ensures !IsKey(args[2..], i, k)
      {
        IsKeyNext(args, i, k);
      }
      PairsKeep(ApplyPair(r, args[0], args[1]).value, args[2..], k);
    }
  }

  /** A field has the value of the last of its keys, whatever their order. */
  lemma {:induction false} PairsLast(r: Raw, args: seq<Bytes>, k: Key, i: nat)
    requires |args| % 2 == 0 && ApplyPairs(r, args).Some? && LastAt(args, i, k)
    ensures Shows(ApplyPairs(r, args).value, k, args[2 * i + 1])
    decreases |args|
  {
    hide CString, ApplyPair, Strtol, EqualsIgnoreCase;
    OnePair(r, args, k);
    var a := ApplyPair(r, args[0], args[1]).value;
    forall j: nat
      ensures IsKey(args[2..], j, k) <==> IsKey(args, j + 1, k)
    {
      IsKeyNext(args, j, k);
    }
    hide IsKey;
    if i == 0 {
      PairsKeep(a, args[2..], k);
    } else {
      IsKeyNext(args, i - 1, k);
      PairsLast(a, args[2..], k, i - 1);
    }
  }

  /** A line of words gives an entry exactly when there are at least three pairs and nothing over, no file
      name is a path, a file name is given, and the last number and type are not zero and one of `b`, `h`
      and `i`; the entry has what the last of each key says, and no offsets where there are none. */
  lemma LineIff(line: Bytes, args: seq<Bytes>)
    requires TrimRight(TrimLeft(line)) != [] && SplitArgs.Split(TrimRight(TrimLeft(line))) == Some(args)
    ensures ParseLine(line).Some? <==>
            && |args| >= 6 && |args| % 2 == 0 && (forall i: nat :: !IsPath(args, i))
            && (exists i: nat :: LastAt(args, i, FileKey))
            && (exists i: nat :: LastAt(args, i, SeqKey) && Strtol(CString(args[2 * i + 1])) != 0)
            && (exists i: nat :: LastAt(args, i, TypeKey) && args[2 * i + 1] != [] && args[2 * i + 1][0] in {98, 104, 105})
    ensures ParseLine(line).Some? ==>
            var x := ParseLine(line).value;
            && (forall i: nat :: LastAt(args, i, FileKey) ==> x.name == CString(args[2 * i + 1]))
            && (forall i: nat :: LastAt(args, i, SeqKey) ==> x.num == Strtol(CString(args[2 * i + 1])))
            && (forall i: nat :: LastAt(args, i, TypeKey) ==>
                  args[2 * i + 1] != [] &&
                  args[2 * i + 1][0] == match x.kind case BaseFile => 98 case HistFile => 104 case IncrFile => 105)
            && (forall i: nat :: LastAt(args, i, StartKey) ==> x.startOffset == Strtol(CString(args[2 * i + 1])))
            && (forall i: nat :: LastAt(args, i, EndKey) ==> x.endOffset == Strtol(CString(args[2 * i + 1])))
            && ((forall i: nat :: !LastAt(args, i, StartKey)) ==> x.startOffset == -1)
            && ((forall i: nat :: !LastAt(args, i, EndKey)) ==> x.endOffset == -1)
  {
    hide TrimRight, TrimLeft, SplitArgs.Split, ApplyPairs, IsKey, CString, Strtol, LastAt, IsPath;
    if |args| >= 6 && |args| % 2 == 0 {
      PairsRefused(NO_INFO, args);
      if ApplyPairs(NO_INFO, args).Some? {
        LastField(args, FileKey);
        LastField(args, SeqKey);
        LastField(args, TypeKey);
        LastField(args, StartKey);
        LastField(args, EndKey);
      }
    }
  }

  lemma LastField(args: seq<Bytes>, k: Key)
    requires |args| % 2 == 0 && ApplyPairs(NO_INFO, args).Some?
    ensures var r := ApplyPairs(NO_INFO, args).value;
            && (forall i: nat :: LastAt(args, i, k) ==> Shows(r, k, args[2 * i + 1]))
            && ((forall i: nat :: !LastAt(args, i, k)) ==> SameField(r, NO_INFO, k))
  {
    hide ApplyPairs, Shows, CString, EqualsIgnoreCase;
    forall i: nat | LastAt(args, i, k)
      ensures Shows(ApplyPairs(NO_INFO, args).value, k, args[2 * i + 1])
    {
      PairsLast(NO_INFO, args, k, i);
    }
    if forall i: nat :: !IsKey(args, i, k) {
      PairsKeep(NO_INFO, args, k);
    } else {
      var i: nat :| IsKey(args, i, k);
      var j := FindLast(args, k, i);
    }
  }

  lemma {:induction false} FindLast(args: seq<Bytes>, k: Key, i: nat) returns (j: nat)
    requires IsKey(args, i, k)
    ensures LastAt(args, j, k)
    decreases |args| - i
  {
    if n: nat :| n > i && IsKey(args, n, k) {
      j := FindLast(args, k, n);
    } else {
      j := i;
    }
  }

  // ---------------------------------------------------------------- the text of a line

  function TypeLetter(k: FileType): byte {
    match k case BaseFile => 98 case HistFile => 104 case IncrFile => 105
  }

  /** "file NAME seq N type b", with `h` and `i` for history and INCR; the name is quoted where it has to be. */
  function HeadText(ai: NamedInfo): Bytes {
    [102, 105, 108, 101, 32] + (if SplitArgs.NeedsRepr(ai.name) then SplitArgs.Repr(ai.name) else ai.name) +
    [32, 115, 101, 113, 32] + Number(ai.num) + [32, 116, 121, 112, 101, 32, TypeLetter(ai.kind)]
  }

  /** " startoffset N" and " endoffset N", where they are known. */
  function OffsetText(ai: NamedInfo): Bytes {
    if ai.startOffset == -1 then []
    else [32, 115, 116, 97, 114, 116, 111, 102, 102, 115, 101, 116, 32] + Number(ai.startOffset) +
         (if ai.endOffset == -1 then [] else [32, 101, 110, 100, 111, 102, 102, 115, 101, 116, 32] + Number(ai.endOffset))
  }

  lemma HeadIs(w: Bytes, n: Bytes, k: FileType)
    ensures Pair(FILE, w) + [SPACE] + Pair(SEQ, n) + [SPACE] + Pair(TYPE, [KindByte(k)]) ==
            [102, 105, 108, 101, 32] + w + [32, 115, 101, 113, 32] + n + [32, 116, 121, 112, 101, 32, TypeLetter(k)]
  {
    var a, b, c := FILE + [SPACE], [SPACE] + SEQ + [SPACE], [SPACE] + TYPE + [SPACE] + [KindByte(k)];
    assert a == [102, 105, 108, 101, 32] && b == [32, 115, 101, 113, 32];
    assert c == [32, 116, 121, 112, 101, 32, TypeLetter(k)];
    assert Pair(FILE, w) + [SPACE] + Pair(SEQ, n) + [SPACE] + Pair(TYPE, [KindByte(k)]) == a + w + b + n + c;
  }

  lemma Glue(text: Bytes, key: Bytes, n: Bytes)
    ensures text + [SPACE] + Pair(key, n) == text + ([SPACE] + key + [SPACE] + n)
  {
  }

  /** The bytes of a line, ended by a line feed. */
  lemma LineText(ai: NamedInfo)
    ensures Format(ai) == HeadText(ai) + OffsetText(ai) + [10]
  {
    hide SplitArgs.Join, SplitArgs.Word, SplitArgs.NeedsRepr, SplitArgs.Repr, Number;
    WordIs(ai.name);
    FirstWords(ai);
    HeadIs(SplitArgs.Word(ai.name), Number(ai.num), ai.kind);
    PlainWords(ai.kind);
    var ws := [FILE, ai.name, SEQ, Number(ai.num), TYPE, [KindByte(ai.kind)]];
    var h, st, en := HeadText(ai), Number(ai.startOffset), Number(ai.endOffset);
    assert SplitArgs.Join(ws) == h;
    var ws' := ws + [STARTOFFSET, st];
    MoreWords(ws, STARTOFFSET, ai.startOffset);
    MoreWords(ws', ENDOFFSET, ai.endOffset);
    hide HeadText;
    var a, b := [SPACE] + STARTOFFSET + [SPACE], [SPACE] + ENDOFFSET + [SPACE];
    assert a == [32, 115, 116, 97, 114, 116, 111, 102, 102, 115, 101, 116, 32];
    assert b == [32, 101, 110, 100, 111, 102, 102, 115, 101, 116, 32];
    Glue(h, STARTOFFSET, st);
    Glue(h + (a + st), ENDOFFSET, en);
    if ai.startOffset == -1 {
      assert Words(ai) == ws && h + [] == h;
    } else if ai.endOffset == -1 {
      assert Words(ai) == ws' && a + st + [] == a + st;
    } else {
      assert Words(ai) == ws' + [ENDOFFSET, en];
      assert h + (a + st) + (b + en) == h + (a + st + (b + en));
    }
  }

  /** NAME.N.base.rdb or NAME.N.base.aof, NAME.N.incr.aof, and temp-NAME.incr. */
  lemma NameText(prefix: Bytes, k: int)
    ensures Render(prefix, BaseName(k, true)) == prefix + [46] + Number(k) + [46, 98, 97, 115, 101, 46, 114, 100, 98]
    ensures Render(prefix, BaseName(k, false)) == prefix + [46] + Number(k) + [46, 98, 97, 115, 101, 46, 97, 111, 102]
    ensures Render(prefix, IncrName(k)) == prefix + [46] + Number(k) + [46, 105, 110, 99, 114, 46, 97, 111, 102]
    ensures Render(prefix, TempIncrName) == [116, 101, 109, 112, 45] + prefix + [46, 105, 110, 99, 114]
  {
    hide Number;
  }
}
