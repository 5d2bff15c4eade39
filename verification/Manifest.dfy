/** The multi-part AOF manifest: which files make up the append-only log. */
module Manifest {
  import opened Options

  datatype FileType = BaseFile | HistFile | IncrFile

  /** File names, up to the configured prefix: the naming rules of BASE, INCR and the
      temporary INCR that collects writes while the first rewrite runs. */
  datatype FileName =
    | BaseName(num: int, rdb: bool)
    | IncrName(num: int)
    | TempIncrName

  /** aofInfo. Offsets are -1 when absent. */
  datatype Info<+N> = Info(name: N, num: int, kind: FileType, startOffset: int, endOffset: int)

  /** aofManifest. */
  datatype Manifest<+N> = Manifest(
    base: Option<Info<N>>,
    hist: seq<Info<N>>,
    incr: seq<Info<N>>,
    baseSeq: int,
    incrSeq: int,
    dirty: bool)

  type AofInfo = Info<FileName>
  type AofManifest = Manifest<FileName>

  const EMPTY: AofManifest := Manifest(None, [], [], 0, 0, false)

  function AsHistory<N>(i: Info<N>): Info<N> {
    i.(kind := HistFile)
  }

  function AllAsHistory<N>(s: seq<Info<N>>): (r: seq<Info<N>>)
    ensures |r| == |s|
    ensures forall i :: 0 <= i < |s| ==> r[i] == AsHistory(s[i])
  {
    seq(|s|, i requires 0 <= i < |s| => AsHistory(s[i]))
  }

  // ------------------------------------------------------------ operations

  /** getNewBaseFileNameAndMarkPreAsHistory: the old BASE heads the history list. */
  function NewBase(m: AofManifest, rdb: bool): AofManifest {
    var n := m.baseSeq + 1;
    m.(base := Some(Info(BaseName(n, rdb), n, BaseFile, -1, -1)),
       hist := (if m.base.Some? then [AsHistory(m.base.value)] else []) + m.hist,
       baseSeq := n,
       dirty := true)
  }

  /** getNewIncrAofName. */
  function NewIncr(m: AofManifest, startOffset: int): AofManifest {
    var n := m.incrSeq + 1;
    m.(incr := m.incr + [Info(IncrName(n), n, IncrFile, startOffset, -1)],
       incrSeq := n,
       dirty := true)
  }

  /** markRewrittenIncrAofAsHistory: every INCR but the one being written becomes history. */
  function MarkRewritten(m: AofManifest, fdOpen: bool): AofManifest {
    if m.incr == [] then m else
    var keep := if fdOpen then |m.incr| - 1 else |m.incr|;
    m.(incr := m.incr[keep..],
       hist := AllAsHistory(m.incr[..keep]) + m.hist,
       dirty := true)
  }

  /** updateCurIncrAofEndOffset, while AOF is on. */
  function SetEndOffset(m: AofManifest, offset: int): AofManifest {
    if m.incr == [] then m else
    var last := |m.incr| - 1;
    m.(incr := m.incr[last := m.incr[last].(endOffset := offset)], dirty := true)
  }

  /** The history entries that survive a pass of aofDelHistoryFiles in which exactly the
      names in `stuck` could not be unlinked. */
  function StuckHistory(hist: seq<AofInfo>, stuck: set<FileName>): seq<AofInfo> {
    if hist == [] then []
    else (if hist[0].name in stuck then [hist[0]] else []) + StuckHistory(hist[1..], stuck)
  }

  lemma {:induction false} StuckHistoryMembers(hist: seq<AofInfo>, stuck: set<FileName>, x: AofInfo)
    ensures x in StuckHistory(hist, stuck) <==> x in hist && x.name in stuck
  {
    if hist != [] {
      StuckHistoryMembers(hist[1..], stuck, x);
      assert x in hist <==> x == hist[0] || x in hist[1..];
    }
  }

  /** The names that pass unlinks (a missing file counts as unlinked). */
  function UnlinkedNames(hist: seq<AofInfo>, stuck: set<FileName>): set<FileName> {
    if hist == [] then {}
    else (if hist[0].name in stuck then {} else {hist[0].name}) + UnlinkedNames(hist[1..], stuck)
  }

  lemma {:induction false} UnlinkedNamesMembers(hist: seq<AofInfo>, stuck: set<FileName>, n: FileName)
    ensures n in UnlinkedNames(hist, stuck) <==> n !in stuck && exists i :: 0 <= i < |hist| && hist[i].name == n
  {
    if hist != [] {
      var t := hist[1..];
      UnlinkedNamesMembers(t, stuck, n);
      if i :| 0 <= i < |t| && t[i].name == n {
        assert hist[i + 1].name == n;
      }
      if i :| 1 <= i < |hist| && hist[i].name == n {
        assert t[i - 1].name == n;
      }
    }
  }

  /** What reading a printed manifest back gives: counters come from the listed files. */
  function Reloaded<N>(m: Manifest<N>): Manifest<N> {
    m.(baseSeq := if m.base.Some? then m.base.value.num else 0,
       incrSeq := if m.incr != [] then m.incr[|m.incr| - 1].num else 0,
       dirty := false)
  }

  // ------------------------------------------------------------ invariant

  ghost predicate IncrWellFormed(m: AofManifest) {
    && (forall i :: 0 <= i < |m.incr| ==>
          var x := m.incr[i];
          x.kind == IncrFile && x.name == IncrName(x.num) && 1 <= x.num <= m.incrSeq)
    && (forall i, j :: 0 <= i < j < |m.incr| ==> m.incr[i].num < m.incr[j].num)
    && (m.incr != [] ==> m.incr[|m.incr| - 1].num == m.incrSeq)
  }

  ghost predicate BaseWellFormed(m: AofManifest) {
    m.base.Some? ==>
      var b := m.base.value;
      b.kind == BaseFile && b.name.BaseName? && b.name.num == b.num == m.baseSeq && b.num >= 1
  }

  /** A name the manifest has given up: it is neither listed now nor ever issued again. */
  predicate Retired(m: AofManifest, n: FileName) {
    match n
    case BaseName(k, _) => 1 <= k && (if m.base.Some? then k < m.baseSeq else k <= m.baseSeq)
    case IncrName(k) => 1 <= k <= m.incrSeq && (m.incr != [] ==> k < m.incr[0].num)
    case TempIncrName => false
  }

  ghost predicate HistoryRetired(m: AofManifest, hist: seq<AofInfo>) {
    forall i :: 0 <= i < |hist| ==> hist[i].kind == HistFile && hist[i].num >= 1 && Retired(m, hist[i].name)
  }

  /** What every manifest operation keeps. */
  ghost predicate WellFormed(m: AofManifest) {
    && 0 <= m.baseSeq && 0 <= m.incrSeq && (m.base.None? ==> m.baseSeq == 0)
    && BaseWellFormed(m)
    && IncrWellFormed(m)
    && HistoryRetired(m, m.hist)
  }

  /** A file the manifest lists as BASE or INCR. */
  ghost predicate Listed(m: AofManifest, n: FileName) {
    || (m.base.Some? && m.base.value.name == n)
    || (exists i :: 0 <= i < |m.incr| && m.incr[i].name == n)
  }

  lemma RetiredIsNotListed(m: AofManifest, n: FileName)
    requires WellFormed(m) && Retired(m, n)
    ensures !Listed(m, n)
  {
    if m.incr != [] && n.IncrName? {
      assert forall i :: 0 <= i < |m.incr| ==> m.incr[0].num <= m.incr[i].num;
    }
  }

  lemma NewBaseWellFormed(m: AofManifest, rdb: bool)
    requires WellFormed(m)
    ensures WellFormed(NewBase(m, rdb))
    ensures forall n :: Retired(m, n) ==> Retired(NewBase(m, rdb), n)
    ensures !Listed(m, BaseName(m.baseSeq + 1, rdb)) && !Retired(m, BaseName(m.baseSeq + 1, rdb))
    ensures var r := NewBase(m, rdb);
            && Listed(r, BaseName(m.baseSeq + 1, rdb)) && r.incr == m.incr && r.incrSeq == m.incrSeq && r.dirty
            && forall x :: x in r.hist <==> x in m.hist || (m.base.Some? && x == m.base.value.(kind := HistFile))
  {
    var r := NewBase(m, rdb);
    assert IncrWellFormed(r);
    forall i | 0 <= i < |r.hist|
      ensures r.hist[i].kind == HistFile && r.hist[i].num >= 1 && Retired(r, r.hist[i].name)
    {
      if m.base.Some? && i > 0 {
        assert r.hist[i] == m.hist[i - 1];
      }
    }
  }

  lemma NewIncrWellFormed(m: AofManifest, startOffset: int)
    requires WellFormed(m)
    ensures WellFormed(NewIncr(m, startOffset))
    ensures forall n :: Retired(m, n) ==> Retired(NewIncr(m, startOffset), n)
    ensures !Listed(m, IncrName(m.incrSeq + 1)) && !Retired(m, IncrName(m.incrSeq + 1))
    ensures var r := NewIncr(m, startOffset);
            && m.incr < r.incr && |r.incr| == |m.incr| + 1 && r.base == m.base && r.hist == m.hist && r.dirty
            && r.incr[|m.incr|].startOffset == startOffset && r.incr[|m.incr|].endOffset == -1
            && r.incr[|m.incr|].name == IncrName(m.incrSeq + 1)
  {
    var r := NewIncr(m, startOffset);
    assert m.incr != [] ==> r.incr[0] == m.incr[0];
    assert forall i :: 0 <= i < |r.hist| ==> r.hist[i] == m.hist[i];
  }

  lemma MarkRewrittenWellFormed(m: AofManifest, fdOpen: bool)
    requires WellFormed(m)
    ensures WellFormed(MarkRewritten(m, fdOpen))
    ensures forall n :: Retired(m, n) ==> Retired(MarkRewritten(m, fdOpen), n)
    ensures fdOpen && m.incr != [] ==> MarkRewritten(m, fdOpen).incr == [m.incr[|m.incr| - 1]]
    ensures !fdOpen ==> MarkRewritten(m, fdOpen).incr == []
    ensures var r := MarkRewritten(m, fdOpen);
            && r.base == m.base && r.incrSeq == m.incrSeq && (m.incr != [] ==> r.dirty)
            && forall x :: x in r.hist <==>
                           || x in m.hist
                           || exists i :: 0 <= i < |m.incr| - (if fdOpen then 1 else 0) && x == m.incr[i].(kind := HistFile)
  {
    if m.incr != [] {
      var keep := if fdOpen then |m.incr| - 1 else |m.incr|;
      var r := MarkRewritten(m, fdOpen);
      assert forall i :: 0 <= i < |r.incr| ==> r.incr[i] == m.incr[keep + i];
      forall i | 0 <= i < |r.hist|
        ensures r.hist[i].kind == HistFile && r.hist[i].num >= 1 && Retired(r, r.hist[i].name)
      {
        if i < keep {
          assert r.hist[i] == AsHistory(m.incr[i]);
        } else {
          assert r.hist[i] == m.hist[i - keep];
        }
      }
      forall n | Retired(m, n) ensures Retired(r, n) {
      }
    }
  }

  lemma SetEndOffsetWellFormed(m: AofManifest, offset: int)
    requires WellFormed(m)
    ensures WellFormed(SetEndOffset(m, offset))
    ensures forall n :: Retired(m, n) <==> Retired(SetEndOffset(m, offset), n)
    ensures var r := SetEndOffset(m, offset);
            && |r.incr| == |m.incr| && r.base == m.base && r.hist == m.hist && (m.incr != [] ==> r.dirty)
            && forall i :: 0 <= i < |m.incr| ==>
                 && r.incr[i].name == m.incr[i].name && r.incr[i].startOffset == m.incr[i].startOffset
                 && r.incr[i].endOffset == if i == |m.incr| - 1 then offset else m.incr[i].endOffset
  {
  }

  lemma DropHistoryWellFormed(m: AofManifest, stuck: set<FileName>)
    requires WellFormed(m)
    ensures WellFormed(m.(hist := StuckHistory(m.hist, stuck), dirty := true))
  {
    var h := StuckHistory(m.hist, stuck);
    forall i | 0 <= i < |h|
      ensures h[i].kind == HistFile && h[i].num >= 1 && Retired(m, h[i].name)
    {
      StuckHistoryMembers(m.hist, stuck, h[i]);
    }
  }

  /** The manifest a process starts from after reloading is well formed exactly when no
      INCR is left in history without an INCR in use to keep the counter above it. */
  lemma ReloadedWellFormed(m: AofManifest)
    requires WellFormed(m)
    ensures WellFormed(Reloaded(m)) <==>
            (m.incr != [] || forall i :: 0 <= i < |m.hist| ==> !m.hist[i].name.IncrName?)
  {
    var r := Reloaded(m);
    if m.incr == [] && !(forall i :: 0 <= i < |m.hist| ==> !m.hist[i].name.IncrName?) {
      var i :| 0 <= i < |m.hist| && m.hist[i].name.IncrName?;
      assert !Retired(r, r.hist[i].name);
    } else {
      forall i | 0 <= i < |r.hist| ensures Retired(r, r.hist[i].name) {
        assert Retired(m, m.hist[i].name);
      }
    }
  }

  // ------------------------------------------------------------ the backwards walk

  /** What the walk of markRewrittenIncrAofAsHistory has left of the INCR list. */
  ghost function LeftAfter<N>(was: seq<Info<N>>, next: int, keep: nat): seq<Info<N>>
    requires -1 <= next < keep <= |was|
  {
    was[..next + 1] + was[keep..]
  }

  /** What it has put before the history list. */
  ghost function MovedAfter<N>(was: seq<Info<N>>, hist: seq<Info<N>>, next: int, keep: nat): seq<Info<N>>
    requires -1 <= next < keep <= |was|
  {
    AllAsHistory(was[next + 1..keep]) + hist
  }

  lemma WalkStarts<N>(was: seq<Info<N>>, hist: seq<Info<N>>, keep: nat)
    requires keep <= |was|
    ensures LeftAfter(was, keep - 1, keep) == was && MovedAfter(was, hist, keep - 1, keep) == hist
  {
    assert was[..keep] + was[keep..] == was;
    assert AllAsHistory(was[keep..keep]) == [];
  }

  lemma WalkTurn<N>(was: seq<Info<N>>, hist: seq<Info<N>>, next: nat, keep: nat)
    requires next < keep <= |was|
    ensures var left := LeftAfter(was, next, keep);
            next < |left| && left[next] == was[next] && left[..next] + left[next + 1..] == LeftAfter(was, next - 1, keep)
    ensures [AsHistory(was[next])] + MovedAfter(was, hist, next, keep) == MovedAfter(was, hist, next - 1, keep)
  {
    var left := LeftAfter(was, next, keep);
    assert left[..next] == was[..next] && left[next + 1..] == was[keep..];
    AllAsHistoryStep(was, next, keep);
    hide AllAsHistory;
    var h := AllAsHistory(was[next + 1..keep]);
    assert [AsHistory(was[next])] + (h + hist) == [AsHistory(was[next])] + h + hist;
  }

  lemma AllAsHistoryStep<N>(s: seq<Info<N>>, k: nat, keep: nat)
    requires k < keep <= |s|
    ensures AllAsHistory(s[k..keep]) == [AsHistory(s[k])] + AllAsHistory(s[k + 1..keep])
  {
  }

  lemma WalkEnds<N>(was: seq<Info<N>>, hist: seq<Info<N>>, keep: nat)
    requires keep <= |was|
    ensures LeftAfter(was, -1, keep) == was[keep..]
    ensures MovedAfter(was, hist, -1, keep) == AllAsHistory(was[..keep]) + hist
  {
    assert was[0..keep] == was[..keep];
    assert was[..0] + was[keep..] == was[keep..];
  }

  // ------------------------------------------------------------ the mutable manifest

  /** server.aof_manifest: the lists are changed in place. */
  class ManifestObject {
    var base: Option<AofInfo>
    var hist: seq<AofInfo>
    var incr: seq<AofInfo>
    var baseSeq: int
    var incrSeq: int
    var dirty: bool

    ghost function Value(): AofManifest
      reads this
    {
      Manifest(base, hist, incr, baseSeq, incrSeq, dirty)
    }

    /** aofManifestDup. */
    constructor Dup(orig: ManifestObject)
      ensures Value() == orig.Value()
    {
      baseSeq, incrSeq, dirty := orig.baseSeq, orig.incrSeq, orig.dirty;
      base, incr, hist := orig.base, orig.incr, orig.hist;
    }

    method GetNewBaseFileNameAndMarkPreAsHistory(rdb: bool) returns (name: FileName)
      requires base.Some? ==> base.value.kind == BaseFile
      modifies this
      ensures Value() == NewBase(old(Value()), rdb)
      ensures name == BaseName(old(baseSeq) + 1, rdb)
    {
      if base.Some? {
        hist := [base.value.(kind := HistFile)] + hist;
      }
      baseSeq := baseSeq + 1;
      name := BaseName(baseSeq, rdb);
      base := Some(Info(name, baseSeq, BaseFile, -1, -1));
      dirty := true;
    }

    method GetNewIncrAofName(startOffset: int) returns (name: FileName)
      modifies this
      ensures Value() == NewIncr(old(Value()), startOffset)
      ensures name == IncrName(old(incrSeq) + 1)
    {
      incrSeq := incrSeq + 1;
      name := IncrName(incrSeq);
      incr := incr + [Info(name, incrSeq, IncrFile, startOffset, -1)];
      dirty := true;
    }

    /** The list is walked from its tail; each entry is copied to the head of the history
        list and deleted. The walk finds only INCR entries (the source asserts it). */
    method MarkRewrittenIncrAofAsHistory(fdOpen: bool)
      requires forall i :: 0 <= i < |incr| ==> incr[i].kind == IncrFile
      modifies this
      ensures Value() == MarkRewritten(old(Value()), fdOpen)
    {
      if |incr| == 0 { return; }
      hide LeftAfter, MovedAfter, AllAsHistory;
      var next := |incr| - 1;      // the iterator, one past the last entry to visit
      if fdOpen { next := next - 1; }
      ghost var was, histWas := incr, hist;
      ghost var keep := next + 1;
      WalkStarts(was, histWas, keep);
      while next >= 0
        invariant -1 <= next < keep <= |was|
        invariant base == old(base) && baseSeq == old(baseSeq) && incrSeq == old(incrSeq)
        invariant incr == LeftAfter(was, next, keep) && hist == MovedAfter(was, histWas, next, keep)
      {
        WalkTurn(was, histWas, next, keep);
        var ai := incr[next];
        assert ai.kind == IncrFile;
        hist := [ai.(kind := HistFile)] + hist;
        incr := incr[..next] + incr[next + 1..];
        next := next - 1;
      }
      WalkEnds(was, histWas, keep);
      dirty := true;
    }

    /** The pass of aofDelHistoryFiles over the history list, `stuck` being the names whose
        unlink fails. Reports the unlinked names and whether anything changed. */
    method DelHistoryFiles(stuck: set<FileName>) returns (unlinked: set<FileName>, changed: bool)
      requires forall i :: 0 <= i < |hist| ==> hist[i].kind == HistFile
      modifies this`hist
      ensures hist == StuckHistory(old(hist), stuck)
      ensures unlinked == UnlinkedNames(old(hist), stuck)
      ensures changed == (unlinked != {})
    {
      hide StuckHistory, UnlinkedNames;
      ghost var was := hist;
      unlinked, changed := {}, false;
      var i := 0;                  // entries before `i` stay
      ghost var next := 0;         // entries of `was` already visited
      while i < |hist|
        invariant 0 <= i <= |hist| && next <= |was| && hist[i..] == was[next..]
        invariant StuckHistory(was, stuck) == hist[..i] + StuckHistory(was[next..], stuck)
        invariant UnlinkedNames(was, stuck) == unlinked + UnlinkedNames(was[next..], stuck)
        invariant changed == (unlinked != {})
        decreases |was| - next
      {
        var ai := hist[i];
        assert ai == was[next];
        HistoryStep(was, next, stuck);
        if ai.name in stuck {
          i := i + 1;
        } else {
          unlinked := unlinked + {ai.name};
          changed := true;
          hist := hist[..i] + hist[i + 1..];
        }
        next := next + 1;
      }
      HistoryEnd(stuck);
    }
  }

  lemma HistoryEnd(stuck: set<FileName>)
    ensures StuckHistory([], stuck) == [] && UnlinkedNames([], stuck) == {}
  {
  }

  lemma HistoryStep(h: seq<AofInfo>, k: nat, stuck: set<FileName>)
    requires k < |h|
    ensures StuckHistory(h[k..], stuck) == (if h[k].name in stuck then [h[k]] else []) + StuckHistory(h[k + 1..], stuck)
    ensures UnlinkedNames(h[k..], stuck) == (if h[k].name in stuck then {} else {h[k].name}) + UnlinkedNames(h[k + 1..], stuck)
  {
    assert h[k..][1..] == h[k + 1..];
  }
}
