/** A crash inside the handler that installs a finished rewrite. */
module AofInterrupt {
  import opened Options
  import opened Manifest
  import opened AofLog
  import opened AofServer
  import opened AofInvariant
  import opened AofRewrite
  import opened AofBackup
  import opened AofSafety

  /** Files the manifest does not list come and go: what is left of the process is coherent. */
  lemma DeadCore(s: State, t: State)
    requires Core(s)
    requires t == Dead(s.(data := t.data, dir := t.dir))
    requires |s.data| <= |t.data| && t.data[..|s.data|] == s.data
    requires forall n :: n in t.dir ==> t.dir[n] < |t.data|
    requires forall a, b :: a in t.dir && b in t.dir && t.dir[a] == t.dir[b] ==> a == b
    requires forall n :: Listed(s.am, n) && n in s.dir ==> n in t.dir && t.dir[n] == s.dir[n]
    ensures Core(t)
    ensures LoadAll(s.am, t.dir, t.data) == LoadAll(s.am, s.dir, s.data)
  {
    hide Decoded, Complete, Flat, WellFormed, DiskAgrees, Loadable, Live, Listed;
    ListedPresent(s);
    assert forall j :: 0 <= j < |s.data| ==> t.data[j] == t.data[..|s.data|][j];
    FilesOkFrame(s.am, s.dir, s.data, t.dir, t.data);
    hide FilesOk;
    LoadOfFilesOk(s.am, s.dir, s.data);
    LoadOfFilesOk(s.am, t.dir, t.data);
  }

  /** The names about to be given out are not listed. */
  lemma NextNames(m: AofManifest, rdb: bool)
    requires WellFormed(m)
    ensures !Listed(m, BaseName(m.baseSeq + 1, rdb)) && !Listed(m, IncrName(m.incrSeq + 1)) && !Listed(m, TempIncrName)
  {
  }

  lemma RenamedCore(s: State, d: Done, stage: Stage)
    requires Core(s) && s.child.AofChild? && stage != ManifestWritten
    ensures var t := Interrupted(s, d, stage);
            Core(t) && t.am == s.am && t.disk == s.disk && LoadAll(s.am, t.dir, t.data) == LoadAll(s.am, s.dir, s.data)
  {
    hide Decoded, Complete, Flat, DiskAgrees, Loadable, Live, LoadAll, FilesOk;
    NextNames(s.am, d.rdb);
    hide WellFormed, Listed;
    var t := Interrupted(s, d, stage);
    assert t.data[..|s.data|] == s.data;
    DeadCore(s, t);
  }

  lemma DeadIs(s: State)
    requires Core(s) && s.mode != WaitRewrite
    ensures Core(Dead(s))
  {
    hide Core;
    ClosedCore(s, NoChild);
    CoreIgnores(s.(fd := None, cur := NO_CURSOR, child := NoChild, mode := Off, buf := []), Dead(s));
  }

  /** The rewrite installed in full. */
  function InFull(d: Done): Done {
    d.(renameBaseOk := true, renameIncrOk := true, p := Written)
  }

  lemma InFullInstalls(s: State, d: Done)
    requires Core(s) && s.child.AofChild?
    ensures Install(s, InFull(d)).1
  {
    hide Decoded, Complete, Flat, DiskAgrees, Loadable, Live, FilesOk, WellFormed, NewBase, NewIncr, MarkRewritten;
  }

  lemma InstalledCore(s: State, d: Done)
    requires Core(s) && s.child.AofChild?
    ensures Core(Interrupted(s, d, ManifestWritten))
    ensures Core(Finished(s, InFull(d))) && Interrupted(s, d, ManifestWritten) == Dead(Finished(s, InFull(d)))
  {
    hide Core, Install;
    InFullInstalls(s, d);
    InstallSucceeds(s, InFull(d));
    DeadIs(Finished(s, InFull(d)));
  }

  lemma InterruptedInv(s: State, d: Done, stage: Stage)
    requires Core(s) && s.child.AofChild?
    ensures Inv(Interrupted(s, d, stage))
  {
    hide Core, Install;
    if stage == ManifestWritten {
      InstalledCore(s, d);
    } else {
      RenamedCore(s, d, stage);
    }
  }

  lemma InterruptedRestarts(s: State, d: Done, stage: Stage, r: Restarting)
    requires Inv(s) && s.child.AofChild? && RestartGuard(Interrupted(s, d, stage), r)
    ensures Inv(Restart(Interrupted(s, d, stage), r))
  {
    hide Core, Interrupted, Restart, RestartGuard, BackupOk;
    InterruptedInv(s, d, stage);
    RestartInv(Interrupted(s, d, stage), r);
  }
}
