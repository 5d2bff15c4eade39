/** A short write that is taken back through a descriptor without O_APPEND: the next write leaves a
    hole in the file. */
module AofHole {
  import opened Options
  import opened Decimal
  import opened Resp
  import opened Manifest
  import opened Recovery
  import opened HoleBytes
  import opened AofLog
  import opened AofServer
  import opened AofInvariant
  import opened AofBackup
  import opened AofTheorems
  import opened AofExact
  import AofFlush

  // ---------------------------------------------------------------- loading a hole

  /** NULs where a command should start are a format error. */
  lemma HoleIsRefused(b: seq<byte>, n: nat, rest: seq<byte>)
    requires Complete(b) && n > 0
    ensures Run(b + AofFlush.Zeros(n) + rest).exit == FormatError
  {
    hide Decoded;
    var cs := Decoded(b);
    CompleteRun(b);
    var junk := AofFlush.Zeros(n) + rest;
    assert junk[0] == NUL;
    NulIsNoItem(junk);
    hide Load, ReadItem;
    assert b + AofFlush.Zeros(n) + rest == b + junk;
    LoadThenStop(cs, junk, |b + junk|, 0, Any);
  }

  lemma NulIsNoItem(junk: seq<byte>)
    requires junk != [] && junk[0] == NUL
    ensures ReadItem(junk) == ItemFormat
  {
  }

  /** The next command of a log, of which `b` holds a part, reads over `n` NULs behind that part. */
  predicate HoleHidden(b: seq<byte>, buf: seq<byte>, n: nat) {
    var cs, m := Decoded(b + buf), |Decoded(b)|;
    m < |cs| && Run(b).validUpTo <= |b| && CommandHides(cs[m], |b| - Run(b).validUpTo, n)
  }

  /** Where a log ends inside its next command. */
  lemma NextCommand(b: seq<byte>, buf: seq<byte>)
    requires Complete(b + buf) && buf != []
    ensures var cs, m := Decoded(b + buf), |Decoded(b)|;
            && AllValid(cs) && m < |cs| && Run(b).validUpTo <= |b|
            && var k := |b| - Run(b).validUpTo;
               && k < |Encode(cs[m])| && b == EncodeAll(cs[..m]) + Encode(cs[m])[..k]
               && buf == Encode(cs[m])[k..] + EncodeAll(cs[m + 1..])
  {
    hide LoadFile, Encode, Whole;
    var cs := Decoded(b + buf);
    CompleteRun(b + buf);
    assert b == (b + buf)[..|b|] && (b + buf)[|b|..] == buf;
    assert IsCut(b, cs, |b|);
    CutRun(b, cs, |b|);
    var m := Whole(cs, |b|);
    var w := |EncodeAll(cs[..m])|;
    assert cs[m..][1..] == cs[m + 1..];
    SplitAt(b[w..], buf, Encode(cs[m]), EncodeAll(cs[m + 1..]));
    assert b == b[..w] + b[w..];
  }

  /** A log with a hole loads to its commands if and only if the hole is read over. */
  lemma FileHoled(b: seq<byte>, buf: seq<byte>, n: nat)
    requires Complete(b + buf) && buf != [] && n > 0
    ensures var cs, o := Decoded(b + buf), Run(b + AofFlush.Zeros(n) + buf);
            if HoleHidden(b, buf, n) then o.executed == cs && o.exit == CleanEof
            else o.executed != cs || o.exit == FormatError
  {
    hide LoadFile, Encode, CommandHides, EncodeAll, Complete, AofFlush.Zeros, Decoded, Valid;
    NextCommand(b, buf);
    var cs, m, k := Decoded(b + buf), |Decoded(b)|, |b| - Run(b).validUpTo;
    HoledIs(EncodeAll(cs[..m]), Encode(cs[m]), k, n, EncodeAll(cs[m + 1..]));
    LogHoled(cs, m, k, n, Any);
  }

  lemma HoledIs(a: seq<byte>, e: seq<byte>, k: nat, n: nat, t: seq<byte>)
    requires k <= |e|
    ensures a + e[..k] + AofFlush.Zeros(n) + (e[k..] + t) == a + (Holed(e, k, n) + t)
  {
    hide AofFlush.Zeros;
  }

  lemma SplitAt(x: seq<byte>, y: seq<byte>, e: seq<byte>, t: seq<byte>)
    requires x + y == e + t && |x| <= |e|
    ensures x == e[..|x|] && y == e[|x|..] + t
  {
    assert x == (x + y)[..|x|] == (e + t)[..|x|];
    assert y == (x + y)[|x|..] == (e + t)[|x|..];
  }

  /** Inside a command a hole may be read over: NULs after the number in the header of a command are,
      as the number ends there and the line only at the line feed. */
  lemma HoleReadOver(c: Command, n: nat)
    requires Valid(c) && 0 < n && |Digits(|c|)| + 3 + n < LINE_MAX
    ensures var b, rest := [STAR] + Digits(|c|), [CR, LF] + EncodeArgs(c);
            b + rest == Encode(c) && Run(b + AofFlush.Zeros(n) + rest).executed == [c]
            && Run(b + AofFlush.Zeros(n) + rest).exit == CleanEof
  {
    hide Digits, Load, EncodeArgs, AofFlush.Zeros;
    var b, rest := [STAR] + Digits(|c|), [CR, LF] + EncodeArgs(c);
    assert b + rest == Encode(c);
    assert Encode(c)[..|b|] == b && Encode(c)[|b|..] == rest;
    assert [c][..0] == [] && [c][1..] == [];
    assert [] + (Holed(Encode(c), |b|, n) + []) == b + AofFlush.Zeros(n) + rest;
    LogHoled([c], 0, |b|, n, Any);
  }

  /** Only the last log is in question. */
  lemma {:induction false} LoadWithLast(fs: seq<seq<byte>>, b: seq<byte>)
    requires AllComplete(fs)
    ensures LoadLogs(fs + [b]) ==
            match LoadLogs([b]) case None => None case Some(x) => Some(Flat(fs) + x)
    decreases |fs|
  {
    hide Run, Complete;
    if fs == [] {
      assert fs + [b] == [b];
      assert forall x: seq<Command> :: Flat([]) + x == x;
    } else {
      assert (fs + [b])[1..] == fs[1..] + [b];
      assert Complete(fs[0]);
      CompleteRun(fs[0]);
      DecodedIs(fs[0]);
      LoadWithLast(fs[1..], b);
      if LoadLogs([b]).Some? {
        var x := LoadLogs([b]).value;
        assert Decoded(fs[0]) + (Flat(fs[1..]) + x) == Decoded(fs[0]) + Flat(fs[1..]) + x;
      }
    }
  }

  // ---------------------------------------------------------------- the machine

  /** The file after a short write of `n` bytes was taken back and the whole buffer written. */
  lemma HoleFile(s: State, w: Write)
    requires Core(s) && s.fd.Some? && s.fd.value < |s.data| && s.data[s.fd.value].Log?
    requires !s.cur.append && Undone(s, w)
    ensures var t := Flush(s, w);
            var u := Flush(t, Write(|t.buf|, false));
            var v := Flush(s, Write(|s.buf|, false));
            && t.buf == s.buf
            && v.data == s.data[s.fd.value := Log(s.data[s.fd.value].bytes + s.buf)] && v.buf == []
            && u == v.(data := v.data[s.fd.value := Log(s.data[s.fd.value].bytes + AofFlush.Zeros(w.n) + s.buf)], cur := u.cur)
  {
    hide Coherent, AofFlush.Truncate;
    var b := s.data[s.fd.value].bytes;
    var t := Flush(s, w);
    FlushShape(s, w);
    TakesBack(s, s.buf[..w.n]);
    assert t.cur.pos == |b| + w.n;
    FlushShape(t, Write(|t.buf|, false));
    FlushShape(s, Write(|s.buf|, false));
    PutsAtEnd(s, s.buf);
    assert t.buf[..|t.buf|] == t.buf && s.buf[..|s.buf|] == s.buf;
  }

  /** The live files with the last log replaced. */
  lemma LastReplaced(s: State, bad: seq<byte>) returns (front: seq<Command>)
    requires Core(s) && s.mode == On
    ensures s.fd.Some? && s.fd.value < |s.data| && s.data[s.fd.value].Log?
    ensures Complete(Tail(s)) && s.hist == front + Decoded(Tail(s))
    ensures LoadAll(DiskManifest(s), s.dir, s.data[s.fd.value := Log(bad)]) ==
            match LoadLogs([bad]) case None => None case Some(x) => Some(front + x)
  {
    hide Decoded, Complete, Flat, LoadLogs, Run, ChildOk, Positioned;
    LiveLastIsFd(s);
    IncrNamesDistinct(s.am);
    var k := |s.am.incr| - 1;
    var data := s.data[s.fd.value := Log(bad)];
    forall j | 0 <= j < k ensures data[s.dir[s.am.incr[j].name]] == s.data[s.dir[s.am.incr[j].name]] {
      assert s.am.incr[j].name != s.am.incr[k].name;
    }
    var logs, logs' := Logs(s.am.incr, s.dir, s.data), Logs(s.am.incr, s.dir, data);
    assert logs' == logs[..k] + [bad];
    LoadWithLast(logs[..k], bad);
    SameFilesLoad(DiskManifest(s), s.am, s.dir, data);
    var c := BaseCmds(s.am.base, s.dir, s.data);
    assert BaseCmds(s.am.base, s.dir, data) == c;
    front := c + Flat(logs[..k]);
    if LoadLogs([bad]).Some? {
      var x := LoadLogs([bad]).value;
      assert c + (Flat(logs[..k]) + x) == front + x;
    }
  }

  /** With a hole in front of what was in the buffer the files load to the history if and only if the
      hole is read over; between commands they do not load. */
  lemma HoledLoads(s: State, b: seq<byte>, buf: seq<byte>, n: nat)
    requires Core(s) && s.mode == On && Tail(s) == b + buf && buf != [] && n > 0
    ensures s.fd.Some? && s.fd.value < |s.data| && s.data[s.fd.value].Log?
    ensures var loaded := LoadAll(DiskManifest(s), s.dir, s.data[s.fd.value := Log(b + AofFlush.Zeros(n) + buf)]);
            && (loaded == Some(s.hist) <==> HoleHidden(b, buf, n))
            && (Complete(b) ==> loaded.None?)
  {
    hide Core, Complete, HoleHidden, LoadAll, Tail;
    var bad := b + AofFlush.Zeros(n) + buf;
    var front := LastReplaced(s, bad);
    FileHoled(b, buf, n);
    OneLog(bad);
    var x, y := Run(bad).executed, Decoded(b + buf);
    hide LoadLogs, Run;
    assert (front + x)[|front|..] == x && (front + y)[|front|..] == y;
    if Complete(b) { HoleIsRefused(b, n, buf); }
  }

  lemma OneLog(b: seq<byte>)
    ensures var o := Run(b); LoadLogs([b]) == if o.exit == CleanEof || o.exit == ShortRead then Some(o.executed) else None
  {
  }

  /** A flush followed by one that writes everything leaves files that load to the whole history if and
      only if the first did not take a short write back through a descriptor without O_APPEND, or the
      hole this leaves is read over. Between commands it never is, and the files do not load at all.
      Every INCR that a rotation opened has such a descriptor. */
  lemma HoleIff(s: State, w: Write)
    requires Inv(s) && s.mode == On
    ensures s.fd.Some? && s.fd.value < |s.data| && s.data[s.fd.value].Log?
    ensures var b := s.data[s.fd.value].bytes;
            var t := Flush(s, w);
            var u := Flush(t, Write(|t.buf|, false));
            var loaded := LoadAll(DiskManifest(u), u.dir, u.data);
            && u.hist == s.hist && u.buf == []
            && (loaded == Some(s.hist) <==> WriteOk(s, w) || HoleHidden(b, s.buf, w.n))
            && (Complete(b) ==> (loaded.Some? <==> WriteOk(s, w)))
  {
    hide LoadAll, Coherent, Flush, Complete, BackupOk, HoleHidden, Tail;
    OpenLog(s);
    var t := Flush(s, w);
    FlushFields(s, w);
    var all := Write(|t.buf|, false);
    FlushFields(t, all);
    if WriteOk(s, w) {
      FlushCore(s, w);
      FlushCore(t, all);
      FlushEmpties(t);
      InvLoadsHistory(Flush(t, all));
    } else {
      HoleFile(s, w);
      var v := Flush(s, Write(|s.buf|, false));
      FlushFields(s, Write(|s.buf|, false));
      FlushCore(s, Write(|s.buf|, false));
      TailIs(v);
      HoledLoads(v, s.data[s.fd.value].bytes, s.buf, w.n);
    }
  }

  lemma OpenLog(s: State)
    requires Core(s) && s.mode == On
    ensures s.fd.Some? && s.fd.value < |s.data| && s.data[s.fd.value].Log?
  {
    hide Decoded, Complete, Flat, Loadable, ChildOk, Positioned;
    LiveLastIsFd(s);
  }

  lemma TailIs(s: State)
    requires s.fd.Some? && s.fd.value < |s.data| && s.data[s.fd.value].Log? && s.buf == []
    ensures Tail(s) == s.data[s.fd.value].bytes
  {
    assert s.data[s.fd.value].bytes + [] == s.data[s.fd.value].bytes;
  }

  lemma FlushEmpties(s: State)
    requires s.fd.Some?
    ensures Flush(s, Write(|s.buf|, false)).buf == []
  {
    hide AofFlush.Put, AofFlush.Truncate;
  }

  // ---------------------------------------------------------------- the first rewrite

  lemma InstallContents(s: State, d: Done, i: Inode, b: seq<byte>, cur: Cursor)
    requires s.child.AofChild? && i < |s.data|
    ensures var t := Install(s, d).0;
            && i < |t.data|
            && Install(s.(data := s.data[i := Log(b)], cur := cur), d) ==
               (t.(data := t.data[i := Log(b)], cur := cur), Install(s, d).1)
  {
    hide NewBase, NewIncr, MarkRewritten;
    var x := [Snapshot(s.child.snap)];
    assert (s.data + x)[i := Log(b)] == s.data[i := Log(b)] + x;
  }

  lemma DelHistoryContents(s: State, stuck: set<FileName>, p: Persist, data: seq<Content>, cur: Cursor)
    ensures DelHistory(s.(data := data, cur := cur), stuck, p) == DelHistory(s, stuck, p).(data := data, cur := cur)
    ensures DelHistory(s, stuck, p).data == s.data
  {
    hide StuckHistory, UnlinkedNames;
  }

  /** The end of a rewrite does not look into the logs. */
  lemma SucceededContents(s: State, d: Done, i: Inode, b: seq<byte>, cur: Cursor)
    requires s.child.AofChild? && i < |s.data|
    ensures var t := s.(data := s.data[i := Log(b)], cur := cur);
            && Install(t, d).1 == Install(s, d).1
            && i < |Succeeded(s, d).data|
            && Succeeded(t, d) == Succeeded(s, d).(data := Succeeded(s, d).data[i := Log(b)], cur := cur)
  {
    hide Install, DelHistory;
    InstallContents(s, d, i, b, cur);
    var t := Install(s, d).0;
    DelHistoryContents(t, d.stuck, d.p2, t.data[i := Log(b)], cur);
  }

  lemma InstallsFirst(s: State, d: Done)
    requires s.child.AofChild? && s.mode == WaitRewrite && TempIncrName in s.dir
    requires d.renameBaseOk && d.renameIncrOk && d.p == Written
    ensures Install(s, d).1 && Succeeded(s, d).mode == On && Succeeded(s, d).fd == s.fd
    ensures Succeeded(s, d).hist == s.hist && Succeeded(s, d).buf == s.buf && Succeeded(s, d).backup == s.backup
    ensures s.fd.Some? && s.fd.value < |s.data| ==>
              s.fd.value < |Succeeded(s, d).data| && Succeeded(s, d).data[s.fd.value] == s.data[s.fd.value]
  {
    hide NewBase, NewIncr, MarkRewritten, StuckHistory, UnlinkedNames;
  }

  /** The same for the temporary INCR of a first rewrite, once the rewrite is installed. */
  lemma FirstHoleIff(s: State, w: Write, d: Done)
    requires Inv(s) && s.mode == WaitRewrite && s.child.AofChild? && s.backup != Snapshotting
    requires d.exitOk && d.renameBaseOk && d.renameIncrOk && d.p == Written
    ensures s.fd.Some? && s.fd.value < |s.data| && s.data[s.fd.value].Log?
    ensures var b := s.data[s.fd.value].bytes;
            var t := Flush(s, w);
            var u := RewriteDone(Flush(t, Write(|t.buf|, false)), d);
            var loaded := LoadAll(DiskManifest(u), u.dir, u.data);
            && u.mode == On && u.hist == s.hist && u.buf == []
            && (loaded == Some(s.hist) <==> WriteOk(s, w) || HoleHidden(b, s.buf, w.n))
            && (Complete(b) ==> (loaded.Some? <==> WriteOk(s, w)))
  {
    FirstOpen(s);
    hide LoadAll, Core, Flush, Complete, BackupOk, HoleHidden, Tail, RewriteDone, Install, Succeeded, GaveUp, BackupFailed;
    var t := Flush(s, w);
    FlushFields(s, w);
    var u := Flush(t, Write(|t.buf|, false));
    FlushFields(t, Write(|t.buf|, false));
    FlushEmpties(t);
    InstallsFirst(u, d);
    RewriteDoneCases(u, d);
    if WriteOk(s, w) {
      FlushCore(s, w);
      FlushCore(t, Write(|t.buf|, false));
      SucceededCore(u, d);
      assert Coherent(Succeeded(u, d)) by { CoreCoherent(Succeeded(u, d)); }
      InvLoadsHistory(Succeeded(u, d));
    } else {
      HoleFile(s, w);
      FirstHoled(s, w.n, u, d);
    }
  }

  lemma FirstOpen(s: State)
    requires Core(s) && s.mode == WaitRewrite && s.child.AofChild?
    ensures TempIncrName in s.dir && s.fd.Some? && s.fd.value < |s.data| && s.data[s.fd.value].Log?
  {
    hide Complete, Decoded, Tail, Live, FilesOk;
  }

  lemma FirstHoled(s: State, n: nat, u: State, d: Done)
    requires Core(s) && s.mode == WaitRewrite && s.child.AofChild? && s.buf != [] && n > 0
    requires d.renameBaseOk && d.renameIncrOk && d.p == Written
    requires s.fd.Some? && s.fd.value < |s.data| && s.data[s.fd.value].Log?
    requires var v := Flush(s, Write(|s.buf|, false));
             var b := s.data[s.fd.value].bytes;
             && v.data == s.data[s.fd.value := Log(b + s.buf)] && v.buf == []
             && u == v.(data := v.data[s.fd.value := Log(b + AofFlush.Zeros(n) + s.buf)], cur := u.cur)
    ensures var b := s.data[s.fd.value].bytes;
            var t := Succeeded(u, d);
            var loaded := LoadAll(DiskManifest(t), t.dir, t.data);
            && (loaded == Some(s.hist) <==> HoleHidden(b, s.buf, n))
            && (Complete(b) ==> loaded.None?)
  {
    hide LoadAll, Core, Flush, Complete, HoleHidden, Tail, Install, Succeeded, AofFlush.Zeros;
    var v := Flush(s, Write(|s.buf|, false));
    FlushFields(s, Write(|s.buf|, false));
    FlushCore(s, Write(|s.buf|, false));
    FirstOpen(s);
    InstallsFirst(v, d);
    SucceededCore(v, d);
    SucceededContents(v, d, s.fd.value, s.data[s.fd.value].bytes + AofFlush.Zeros(n) + s.buf, u.cur);
    TailIs(Succeeded(v, d));
    HoledLoads(Succeeded(v, d), s.data[s.fd.value].bytes, s.buf, n);
  }

  // ---------------------------------------------------------------- SEAL with appendonly off

  /** A flush after one that was taken back writes nothing, or something behind a hole. */
  lemma SecondFlush(s: State, w: Write, w': Write) returns (j: nat)
    requires Core(s) && s.fd.Some? && s.fd.value < |s.data| && s.data[s.fd.value].Log?
    requires !s.cur.append && Undone(s, w)
    ensures j <= |s.buf|
    ensures var b := s.data[s.fd.value].bytes;
            Flush(Flush(s, w), w').data ==
            s.data[s.fd.value := Log(if j == 0 then b else b + AofFlush.Zeros(w.n) + s.buf[..j])]
    ensures w'.n >= |s.buf| ==> j == |s.buf| && Flush(Flush(s, w), w').buf == []
  {
    hide Coherent;
    var b := s.data[s.fd.value].bytes;
    var t := Flush(s, w);
    FlushShape(s, w);
    TakesBack(s, s.buf[..w.n]);
    assert t.cur.pos == |b| + w.n && t.buf == s.buf && t.data == s.data && t.cur.size == |b|;
    FlushShape(t, w');
    var n := if w'.n < |t.buf| then w'.n else |t.buf|;
    assert s.data[s.fd.value := Log(b)] == s.data;
    if n == 0 || Undone(t, w') {
      j := 0;
      assert (b + AofFlush.Zeros(w.n) + t.buf[..n])[..|b|] == b;
    } else {
      j := n;
    }
  }

  /** What is pinned by SEAL while the descriptor is closed. */
  lemma SealedByClosing(s: State, q: Sealing)
    requires Inv(s) && s.backup == Incrementing && !s.enabled && s.am.incr[0].name !in s.bdir
    requires q.fsyncOk && q.linkOk && q.manifestOk
    ensures s.am.base.Some? && s.am.base.value.name in s.dir && s.am.incr[0].name in s.dir
    ensures var t := Seal(s, q);
            var b, n := s.am.base.value.name, s.am.incr[0].name;
            && t.backup == Sealed && t.hist == s.hist && t.data == Flush(Flush(s, q.w), q.sp.w).data
            && t.bBase == Some(b) && t.bIncr == Some(n)
            && b in t.bdir && n in t.bdir && t.bdir[b] == s.dir[b] && t.bdir[n] == s.dir[n]
  {
    SealFacts(s);
    hide Core, Flush, UpdateEnd, BackupFailed, StopFiles, SealedOk, Seal;
    SealCases(s, q);
    var s1 := Flush(s, q.w);
    FlushFields(s, q.w);
    UpdateEndFields(s1, q.offset, q.p);
    var s2 := UpdateEnd(s1, q.offset, q.p);
    var n := s.am.incr[0].name;
    var s3 := PinIncr(s2, n).(backup := Sealed, sealedHist := s.hist);
    StopSealed(s3, q.sp);
    FlushSame(s1, s3, q.sp.w);
    StopFilesKeeps(s3, q.sp);
  }

  lemma SealFacts(s: State)
    requires Inv(s) && s.backup == Incrementing
    ensures s.mode == On && SealAsserts(s) && s.fd.Some?
    ensures var b, n := s.am.base.value.name, s.am.incr[0].name;
            b in s.dir && n in s.dir && b != n && s.bBase == Some(b) && b in s.bdir && s.bdir[b] == s.dir[b]
  {
    hide Core;
    SingleTail(s);
  }

  lemma FlushSame(s: State, t: State, w: Write)
    requires t.fd == s.fd && t.cur == s.cur && t.buf == s.buf && t.data == s.data
    ensures Flush(t, w).data == Flush(s, w).data
  {
    hide AofFlush.Put, AofFlush.Truncate;
  }

  lemma StopFilesKeeps(s: State, sp: Stopping)
    requires s.fd.Some?
    ensures var t := StopFiles(s, sp);
            t.data == Flush(s, sp.w).data && t.backup == s.backup && t.bdir == s.bdir && t.bBase == s.bBase &&
            t.bIncr == s.bIncr && t.hist == s.hist
  {
    UpdateEndFields(Flush(s, sp.w), sp.offset, sp.p);
    hide Flush, UpdateEnd;
  }

  /** Between commands no hole is read over. */
  lemma WholeHidesNothing(b: seq<byte>, buf: seq<byte>, n: nat)
    requires Complete(b)
    ensures !HoleHidden(b, buf, n)
  {
    hide Run, Complete;
    CompleteRun(b);
    if |Decoded(b)| < |Decoded(b + buf)| {
      NothingHidden(Decoded(b + buf)[|Decoded(b)|], n);
    }
  }

  /** With appendonly off SEAL closes the INCR after a second flush. What it pinned loads to the history
      if and only if the two flushes together wrote the whole buffer, and the first took nothing back
      without O_APPEND or left a hole that is read over. (A second flush that ends inside a command
      behind a hole inside a command is left out.) */
  lemma SealOffNeedsFlush(s: State, q: Sealing)
    requires Inv(s) && s.backup == Incrementing && !s.enabled && s.am.incr[0].name !in s.bdir
    requires q.fsyncOk && q.linkOk && q.manifestOk
    requires WriteOk(s, q.w) || EndsWhole(s) || q.sp.w.n >= |s.buf|
    ensures s.fd.Some? && s.fd.value < |s.data| && s.data[s.fd.value].Log?
    ensures var t := Seal(s, q);
            && t.backup == Sealed && t.hist == s.hist
            && (LoadBackup(t) == Some(s.hist) <==>
                && Flush(Flush(s, q.w), q.sp.w).buf == []
                && (WriteOk(s, q.w) || HoleHidden(s.data[s.fd.value].bytes, s.buf, q.w.n)))
  {
    hide Core, Flush, Seal, SealedOk, Decoded, Complete, LoadLogs, Issued, HoleHidden;
    SealedByClosing(s, q);
    SingleTail(s);
    var bytes, c := s.data[s.fd.value].bytes, s.data[s.dir[s.am.base.value.name]].cmds;
    var file: seq<byte>;
    if WriteOk(s, q.w) {
      var k := FlushedTwice(s, q.w, q.sp.w);
      CutIsLess(bytes, s.buf, k);
      file := bytes + s.buf[..k];
    } else {
      var j := SecondFlush(s, q.w, q.sp.w);
      file := if j == 0 then bytes else bytes + AofFlush.Zeros(q.w.n) + s.buf[..j];
      assert s.buf[..0] == [] && bytes + [] == bytes && s.buf[0..] == s.buf;
      CutIsLess(bytes, s.buf, 0);
      OneLog(file);
      if EndsWhole(s) {
        WholeHidesNothing(bytes, s.buf, q.w.n);
        if j > 0 { HoleIsRefused(bytes, q.w.n, s.buf[..j]); }
      } else {
        assert s.buf[..j] == s.buf;
        FileHoled(bytes, s.buf, q.w.n);
      }
    }
    var t := Seal(s, q);
    assert t.data == s.data[s.fd.value := Log(file)];
    assert LoadBackup(t) == match LoadLogs([file]) case None => None case Some(x) => Some(c + x);
    var y := Decoded(bytes + s.buf);
    if LoadLogs([file]).Some? {
      var x := LoadLogs([file]).value;
      assert (c + x)[|c|..] == x && (c + y)[|c|..] == y;
    }
  }

  lemma FlushedTwice(s: State, w: Write, w': Write) returns (k: nat)
    requires Core(s) && WriteOk(s, w) && s.fd.Some? && s.fd.value < |s.data| && s.data[s.fd.value].Log?
    ensures k <= |s.buf|
    ensures var t := Flush(Flush(s, w), w');
            t.data == s.data[s.fd.value := Log(s.data[s.fd.value].bytes + s.buf[..k])] && t.buf == s.buf[k..]
  {
    hide Core, Flush, Flushed, WriteOk;
    var t := Flush(s, w);
    FlushFields(s, w);
    FlushCore(s, w);
    FlushedBytes(s, w);
    FlushedBytes(t, w');
    var i, j := Flushed(s, w), Flushed(t, w');
    k := i + j;
    assert s.buf[i..][..j] == s.buf[i..k] && s.buf[i..][j..] == s.buf[k..];
    assert s.data[s.fd.value].bytes + s.buf[..i] + s.buf[i..k] == s.data[s.fd.value].bytes + s.buf[..k];
  }
}
