/** A restart that finds no INCR in use counts from one again: what happens to a file in history that
    has the name it gives out. */
module AofReuse {
  import opened Manifest
  import opened AofLog
  import opened AofServer
  import opened AofInvariant
  import opened AofBackup
  import opened AofSafety
  import opened AofTheorems

  // ---------------------------------------------------------------- a history file with the next name

  /** Deleting history keeps every listed file if and only if it unlinks no listed name. */
  lemma DelHistoryListed(s: State, stuck: set<FileName>, p: Persist)
    requires SameFiles(DiskManifest(s), s.am) && (forall n :: Listed(s.am, n) ==> n in s.dir)
    ensures var t := DelHistory(s, stuck, p);
            && SameFiles(DiskManifest(t), s.am)
            && ((forall n :: Listed(DiskManifest(t), n) ==> n in t.dir) <==>
                (s.gcDisabled || forall n :: n in UnlinkedNames(s.am.hist, stuck) ==> !Listed(s.am, n)))
  {
    hide UnlinkedNames, StuckHistory, Listed;
    var t := DelHistory(s, stuck, p);
    forall n
      ensures Listed(DiskManifest(t), n) <==> Listed(s.am, n)
    {
      SameListedBoth(DiskManifest(t), s.am, n);
    }
    if !s.gcDisabled && exists n :: n in UnlinkedNames(s.am.hist, stuck) && Listed(s.am, n) {
      var n :| n in UnlinkedNames(s.am.hist, stuck) && Listed(s.am, n);
      assert n !in t.dir;
    }
  }

  lemma SameListedBoth(p: AofManifest, m: AofManifest, n: FileName)
    requires SameFiles(p, m)
    ensures Listed(p, n) <==> Listed(m, n)
  {
    if Listed(p, n) { SameListed(p, m, n); }
    if Listed(m, n) { SameListed(m, p, n); }
  }

  /** The name of an entry that history deletion unlinks. */
  predicate Unlinks(hist: seq<AofInfo>, stuck: set<FileName>, n: FileName) {
    n !in stuck && exists i :: 0 <= i < |hist| && hist[i].name == n
  }

  lemma UnlinksIs(hist: seq<AofInfo>, stuck: set<FileName>, n: FileName)
    ensures n in UnlinkedNames(hist, stuck) <==> Unlinks(hist, stuck, n)
  {
    UnlinkedNamesMembers(hist, stuck, n);
  }

  // ---------------------------------------------------------------- at a restart

  /** What a restarted process finds listed, whatever its counters are. */
  lemma RebootedFiles(s: State, r: Restarting)
    requires Core(s)
    ensures var t := Rebooted(s, r);
            && SameFiles(t.am, s.am) && SameFiles(DiskManifest(t), t.am) && t.am.hist == DiskManifest(s).hist
            && FilesOk(t.am, t.dir, t.data) && Indexed(t)
  {
    hide Decoded, Complete, WellFormed, Live, FilesOk, Torn, ChildOk;
    TornFiles(s, r.torn);
    SameFilesOk(Reloaded(DiskManifest(s)), s.am, s.dir, Torn(s, r.torn));
  }

  /** The process as it opens its files. */
  ghost function Starting(s: State, r: Restarting): State
    requires var t := Rebooted(s, r); Present(t.am.incr, t.dir, t.data) && LoadAll(t.am, t.dir, t.data).Some?
  {
    var t := Rebooted(s, r);
    t.(data := RecoverLast(t.am, t.dir, t.data), hist := LoadAll(t.am, t.dir, t.data).value, mode := On)
  }

  lemma RestartIs(s: State, r: Restarting)
    requires Core(s) && r.enabled
    ensures var t := Rebooted(s, r); Present(t.am.incr, t.dir, t.data) && LoadAll(t.am, t.dir, t.data).Some?
    ensures Restart(s, r) == DelHistory(OpenOnStart(Starting(s, r), r.rdb, r.offset), r.stuck, r.p)
  {
    hide Core, LoadAll, RecoverLast, OpenOnStart, DelHistory, Rebooted, Loadable, SameFiles;
    RebootedFiles(s, r);
    var t := Rebooted(s, r);
    LoadOfFilesOk(t.am, t.dir, t.data);
  }

  /** The manifest a process starts with. */
  function StartManifest(m: AofManifest, rdb: bool, offset: int): AofManifest {
    if m.incr != [] then m else NewIncr(if m.base.Some? then m else NewBase(m, rdb), offset)
  }

  /** It lists what was listed, the first BASE if there was none, and the first INCR if there was none. */
  lemma StartListed(m: AofManifest, rdb: bool, offset: int, n: FileName)
    requires (m.incr == [] ==> m.incrSeq == 0) && (m.base.None? ==> m.baseSeq == 0)
    ensures StartManifest(m, rdb, offset).hist == m.hist
    ensures Listed(StartManifest(m, rdb, offset), n) <==>
            || Listed(m, n) || (m.incr == [] && n == IncrName(1))
            || (m.base.None? && m.incr == [] && n == BaseName(1, rdb))
  {
    var t := StartManifest(m, rdb, offset);
    if m.incr == [] { assert t.incr[0].name == IncrName(1) && |t.incr| == 1; }
  }

  lemma OpenedManifest(s: State, rdb: bool, offset: int)
    requires !s.am.dirty
    ensures var t := OpenOnStart(s, rdb, offset);
            && t.am == StartManifest(s.am, rdb, offset).(dirty := false) && t.gcDisabled == s.gcDisabled
            && DiskManifest(t) == if s.am.incr == [] then t.am else DiskManifest(s)
  {
    var f := ForceBase(s, rdb);
    var n := StartManifest(s.am, rdb, offset).incr[|StartManifest(s.am, rdb, offset).incr| - 1].name;
    OpenFields(f, n, false);
    hide Open;
  }

  lemma OpenedDir(s: State, rdb: bool, offset: int)
    ensures var t := OpenOnStart(s, rdb, offset);
            && (forall n :: n in s.dir ==> n in t.dir)
            && (s.am.incr == [] ==> IncrName(s.am.incrSeq + 1) in t.dir)
            && (s.am.base.None? && s.am.incr == [] ==> BaseName(s.am.baseSeq + 1, rdb) in t.dir)
  {
    hide Open, ForceBase;
    ForceBaseKeeps(s, rdb);
    var f := ForceBase(s, rdb);
    var m := if s.am.incr == [] then NewIncr(f.am, offset) else f.am;
    OpenKeeps(f, m.incr[|m.incr| - 1].name);
  }

  lemma ForceBaseKeeps(s: State, rdb: bool)
    ensures var f := ForceBase(s, rdb);
            && f.am.incrSeq == s.am.incrSeq && f.am.incr == s.am.incr && (forall n :: n in s.dir ==> n in f.dir)
            && (s.am.base.None? && s.am.incr == [] ==> BaseName(s.am.baseSeq + 1, rdb) in f.dir)
  {
  }

  lemma OpenKeeps(s: State, n: FileName)
    ensures var t := Open(s, n, false); n in t.dir && forall x :: x in s.dir ==> x in t.dir
  {
  }

  lemma OpenedFields(s: State, rdb: bool, offset: int)
    requires !s.am.dirty
    ensures var t := OpenOnStart(s, rdb, offset);
            && t.am == StartManifest(s.am, rdb, offset).(dirty := false) && t.gcDisabled == s.gcDisabled
            && (forall n :: n in s.dir ==> n in t.dir)
            && (s.am.incr == [] ==> IncrName(s.am.incrSeq + 1) in t.dir)
            && (s.am.base.None? && s.am.incr == [] ==> BaseName(s.am.baseSeq + 1, rdb) in t.dir)
            && DiskManifest(t) == if s.am.incr == [] then t.am else DiskManifest(s)
  {
    hide OpenOnStart, StartManifest;
    OpenedManifest(s, rdb, offset);
    OpenedDir(s, rdb, offset);
  }

  lemma DirtyListed(m: AofManifest, d: bool, n: FileName)
    ensures Listed(m.(dirty := d), n) <==> Listed(m, n)
  {
  }

  /** No name in history is listed, and none is a BASE as long as there is no BASE. */
  lemma HistoryApart(s: State, n: FileName)
    requires Core(s) && exists i :: 0 <= i < |DiskManifest(s).hist| && DiskManifest(s).hist[i].name == n
    ensures !Listed(s.am, n) && (s.am.base.None? ==> !n.BaseName?)
  {
    hide FilesOk, Live, ChildOk, Positioned;
    var i :| 0 <= i < |DiskManifest(s).hist| && DiskManifest(s).hist[i].name == n;
    assert Retired(s.am, n);
    RetiredIsNotListed(s.am, n);
  }

  /** The restart gives out the first INCR name although a file in history has it, and unlinks it. */
  predicate ReusesName(s: State, r: Restarting) {
    && DiskManifest(s).incr == [] && !s.gcDisabled && Unlinks(DiskManifest(s).hist, r.stuck, IncrName(1))
  }

  lemma StartingFacts(s: State, r: Restarting)
    requires Core(s) && r.enabled
    requires var t := Rebooted(s, r); Present(t.am.incr, t.dir, t.data) && LoadAll(t.am, t.dir, t.data).Some?
    ensures var t := Starting(s, r);
            && !t.am.dirty && SameFiles(t.am, s.am) && SameFiles(DiskManifest(t), t.am) && t.am.hist == DiskManifest(s).hist
            && t.am.incr == DiskManifest(s).incr && t.gcDisabled == s.gcDisabled
            && (t.am.incr == [] ==> t.am.incrSeq == 0) && (t.am.base.None? ==> t.am.baseSeq == 0)
            && (forall n :: Listed(t.am, n) ==> n in t.dir)
  {
    RebootedFiles(s, r);
    hide Core, LoadAll, RecoverLast, FilesOk, SameFiles, Listed, Torn;
    ListedPresent(Rebooted(s, r));
  }

  /** After a restart with AOF on every file the manifest on disk lists exists, if and only if the
      restart does not reuse a name from history. */
  lemma RestartKeepsListedIff(s: State, r: Restarting)
    requires Core(s) && r.enabled
    ensures var t := Restart(s, r);
            (forall n :: Listed(DiskManifest(t), n) ==> n in t.dir) <==> !ReusesName(s, r)
  {
    hide Core, LoadAll, RecoverLast, FilesOk, Listed, Torn, OpenOnStart, DelHistory, Restart, Rebooted, Starting, StartManifest,
         UnlinkedNames;
    RestartIs(s, r);
    StartingFacts(s, r);
    var a := Starting(s, r);
    OpenedFields(a, r.rdb, r.offset);
    var o := OpenOnStart(a, r.rdb, r.offset);
    forall n
      ensures Listed(o.am, n) <==> || Listed(a.am, n) || (a.am.incr == [] && n == IncrName(1))
                                   || (a.am.base.None? && a.am.incr == [] && n == BaseName(1, r.rdb))
      ensures o.am.hist == a.am.hist
    {
      StartListed(a.am, r.rdb, r.offset, n);
      DirtyListed(StartManifest(a.am, r.rdb, r.offset), false, n);
    }
    forall n
      ensures n in UnlinkedNames(o.am.hist, r.stuck) ==> !Listed(a.am, n) && (a.am.base.None? ==> !n.BaseName?)
      ensures n in UnlinkedNames(o.am.hist, r.stuck) <==> Unlinks(DiskManifest(s).hist, r.stuck, n)
    {
      UnlinksIs(DiskManifest(s).hist, r.stuck, n);
      SameListedBoth(a.am, s.am, n);
      if n in UnlinkedNames(o.am.hist, r.stuck) { HistoryApart(s, n); }
    }
    assert SameFiles(DiskManifest(o), o.am) by { StartSameFiles(a, r.rdb, r.offset); }
    DelHistoryListed(o, r.stuck, r.p);
  }

  lemma StartSameFiles(s: State, rdb: bool, offset: int)
    requires !s.am.dirty && SameFiles(DiskManifest(s), s.am)
    ensures var t := OpenOnStart(s, rdb, offset); SameFiles(DiskManifest(t), t.am)
  {
    OpenedFields(s, rdb, offset);
  }

  // ---------------------------------------------------------------- at a later rotation

  /** The same at a rotation: history deletion keeps every listed file if and only if it does not
      unlink the name just given out. */
  lemma RotationKeepsListedIff(s: State, offset: int, stuck: set<FileName>, p: Persist)
    requires Indexed(s) && SameFiles(DiskManifest(s), s.am) && (forall n :: Listed(s.am, n) ==> n in s.dir)
    requires forall n :: Unlinks(s.am.hist, stuck, n) ==> !Listed(s.am, n)
    ensures var t := DelHistory(Rotated(s, offset), stuck, p);
            (forall n :: Listed(DiskManifest(t), n) ==> n in t.dir) <==>
            (s.gcDisabled || !Unlinks(s.am.hist, stuck, IncrName(s.am.incrSeq + 1)))
  {
    var x := IncrName(s.am.incrSeq + 1);
    OpenFields(s, x, true);
    OpenShape(s, x, true);
    hide Open, DelHistory, Listed, UnlinkedNames, Unlinks;
    var o := Rotated(s, offset);
    forall n
      ensures Listed(o.am, n) <==> Listed(s.am, n) || n == x
      ensures n in UnlinkedNames(o.am.hist, stuck) <==> Unlinks(s.am.hist, stuck, n)
    {
      NewIncrListed(s.am, offset, n);
      DirtyListed(NewIncr(s.am, offset), false, n);
      UnlinksIs(s.am.hist, stuck, n);
    }
    DelHistoryListed(o, stuck, p);
  }

  lemma NewIncrListed(m: AofManifest, offset: int, n: FileName)
    ensures Listed(NewIncr(m, offset), n) <==> Listed(m, n) || n == IncrName(m.incrSeq + 1)
  {
    var t := NewIncr(m, offset);
    assert t.incr[|m.incr|].name == IncrName(m.incrSeq + 1);
    if Listed(m, n) && !(m.base.Some? && m.base.value.name == n) {
      var i :| 0 <= i < |m.incr| && m.incr[i].name == n;
      assert t.incr[i].name == n;
    }
  }

  // ---------------------------------------------------------------- when AOF is switched on

  /** The manifest a first rewrite installs. */
  function FirstListing(m: AofManifest, rdb: bool, offset: int): AofManifest {
    MarkRewritten(NewIncr(NewBase(m, rdb), offset), true)
  }

  /** It lists the two names just given out, and its history what was listed before. */
  lemma FirstListingIs(m: AofManifest, rdb: bool, offset: int, n: FileName)
    ensures var t := FirstListing(m, rdb, offset);
            && (Listed(t, n) <==> n == BaseName(m.baseSeq + 1, rdb) || n == IncrName(m.incrSeq + 1))
            && ((exists i :: 0 <= i < |t.hist| && t.hist[i].name == n) <==>
                (exists i :: 0 <= i < |m.hist| && m.hist[i].name == n) || Listed(m, n))
  {
    var t := FirstListing(m, rdb, offset);
    var k := |m.incr|;
    var was := if m.base.Some? then [AsHistory(m.base.value)] else [];
    assert NewIncr(NewBase(m, rdb), offset).incr[..k] == m.incr;
    assert |t.incr| == 1 && t.incr[0].name == IncrName(m.incrSeq + 1);
    assert t.hist == AllAsHistory(m.incr) + (was + m.hist);
    HistoryNames(m, t.hist, was, n);
  }

  lemma HistoryNames(m: AofManifest, hist: seq<AofInfo>, was: seq<AofInfo>, n: FileName)
    requires was == (if m.base.Some? then [AsHistory(m.base.value)] else []) && hist == AllAsHistory(m.incr) + (was + m.hist)
    ensures (exists i :: 0 <= i < |hist| && hist[i].name == n) <==>
            (exists i :: 0 <= i < |m.hist| && m.hist[i].name == n) || Listed(m, n)
  {
    var k := |m.incr|;
    if i :| 0 <= i < |hist| && hist[i].name == n {
      if i < k {
        assert m.incr[i].name == n;
      } else if i >= k + |was| {
        assert m.hist[i - k - |was|].name == n;
      }
    }
    if i :| 0 <= i < |m.hist| && m.hist[i].name == n { assert hist[k + |was| + i].name == n; }
    if i :| 0 <= i < |m.incr| && m.incr[i].name == n { assert hist[i].name == n; }
    if m.base.Some? && m.base.value.name == n { assert hist[k].name == n; }
  }

  lemma FirstInstallIs(s: State, d: Done)
    requires s.mode == WaitRewrite && s.child.AofChild? && s.fd.Some? && TempIncrName in s.dir
    requires d.renameBaseOk && d.renameIncrOk && d.p == Written
    ensures var t := Install(s, d).0;
            var m := FirstListing(s.am, d.rdb, d.offset).(dirty := false);
            && Install(s, d).1 && t.am == m && DiskManifest(t) == m && t.gcDisabled == s.gcDisabled && t.backup == s.backup
            && BaseName(s.am.baseSeq + 1, d.rdb) in t.dir && IncrName(s.am.incrSeq + 1) in t.dir
  {
  }

  /** A server restarted with AOF off and switched on later gives the next names out at the end of the
      first rewrite: every listed file exists if and only if the deletion of history that follows does
      not unlink them. */
  lemma InstallKeepsListedIff(s: State, d: Done)
    requires s.mode == WaitRewrite && s.child.AofChild? && s.fd.Some? && TempIncrName in s.dir && s.backup != Snapshotting
    requires d.exitOk && d.renameBaseOk && d.renameIncrOk && d.p == Written
    requires !Listed(s.am, BaseName(s.am.baseSeq + 1, d.rdb)) && !Listed(s.am, IncrName(s.am.incrSeq + 1))
    ensures var t := RewriteDone(s, d);
            (forall n :: Listed(DiskManifest(t), n) ==> n in t.dir) <==>
            || s.gcDisabled
            || (&& !Unlinks(s.am.hist, d.stuck, BaseName(s.am.baseSeq + 1, d.rdb))
                && !Unlinks(s.am.hist, d.stuck, IncrName(s.am.incrSeq + 1)))
  {
    hide Install, DelHistory, RewriteDone, BackupFailed, Listed, UnlinkedNames, FirstListing;
    RewriteDoneCases(s, d);
    FirstInstallIs(s, d);
    var o, m := Install(s, d).0, FirstListing(s.am, d.rdb, d.offset);
    var bn, x := BaseName(s.am.baseSeq + 1, d.rdb), IncrName(s.am.incrSeq + 1);
    forall n
      ensures Listed(o.am, n) <==> n == bn || n == x
      ensures n == bn || n == x ==> (n in UnlinkedNames(o.am.hist, d.stuck) <==> Unlinks(s.am.hist, d.stuck, n))
    {
      FirstListingIs(s.am, d.rdb, d.offset, n);
      DirtyListed(m, false, n);
      UnlinksIs(m.hist, d.stuck, n);
    }
    DelHistoryMode(o, d.stuck, d.p2);
    DelHistoryListed(o, d.stuck, d.p2);
  }
}
