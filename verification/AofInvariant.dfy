/** What every step of the append-only-file protocol keeps, and what follows from it. */
module AofInvariant {
  import opened Options
  import opened Decimal
  import opened Resp
  import opened Manifest
  import opened AofLog
  import opened AofServer
  import AofFlush

  // ---------------------------------------------------------------- the invariant

  /** Directory entries and the descriptor name existing files; one name per file. */
  ghost predicate Indexed(s: State) {
    && (forall n :: n in s.dir ==> s.dir[n] < |s.data|)
    && (forall a, b :: a in s.dir && b in s.dir && s.dir[a] == s.dir[b] ==> a == b)
    && (s.fd.Some? ==> s.fd.value < |s.data|)
  }

  /** Two manifests that list the same BASE and INCR files. */
  ghost predicate SameFiles(p: AofManifest, m: AofManifest) {
    && p.base == m.base
    && |p.incr| == |m.incr|
    && forall i :: 0 <= i < |m.incr| ==>
         p.incr[i].name == m.incr[i].name && p.incr[i].num == m.incr[i].num && p.incr[i].kind == m.incr[i].kind
  }

  /** The manifest file lists what memory lists; its history is retired. */
  ghost predicate DiskAgrees(disk: Option<AofManifest>, m: AofManifest) {
    var p := if disk.Some? then disk.value else EMPTY;
    SameFiles(p, m) && HistoryRetired(m, p.hist)
  }

  /** Every listed file exists, the INCR files load, and there is no INCR without a BASE. */
  ghost predicate FilesOk(m: AofManifest, dir: map<FileName, Inode>, data: seq<Content>) {
    && (m.incr != [] ==> m.base.Some?)
    && BasePresent(m.base, dir, data)
    && Present(m.incr, dir, data)
    && Loadable(Logs(m.incr, dir, data))
  }

  /** The INCR logs as they will be once the buffer is written. */
  ghost function Full(logs: seq<seq<byte>>, buf: seq<byte>): seq<seq<byte>>
    requires logs != []
  {
    logs[..|logs| - 1] + [logs[|logs| - 1] + buf]
  }

  /** With AOF on: BASE, INCRs and buffer together are the history, in order. */
  ghost predicate Live(s: State) {
    && s.am.base.Some? && s.am.incr != []
    && FilesOk(s.am, s.dir, s.data)
    && s.fd == Some(s.dir[s.am.incr[|s.am.incr| - 1].name])
    && var logs := Logs(s.am.incr, s.dir, s.data);
       && AllComplete(Full(logs, s.buf))
       && s.hist == BaseCmds(s.am.base, s.dir, s.data) + Flat(Full(logs, s.buf))
  }

  /** The log the server is appending to, with the buffer. */
  ghost function Tail(s: State): seq<byte> {
    if s.fd.Some? && s.fd.value < |s.data| && s.data[s.fd.value].Log?
    then s.data[s.fd.value].bytes + s.buf else s.buf
  }

  /** The child's snapshot and what was logged since are the history. */
  ghost predicate ChildOk(s: State) {
    s.child.AofChild? && s.mode != Off ==>
      && s.hist == s.child.snap + Decoded(Tail(s))
      && (s.mode == WaitRewrite ==>
            && TempIncrName in s.dir && s.fd == Some(s.dir[TempIncrName])
            && s.fd.value < |s.data| && s.data[s.fd.value].Log?
            && Complete(Tail(s)))
  }

  ghost predicate Quiet(s: State) {
    && (s.mode == Off ==> s.buf == [] && s.fd.None?)
    && (s.mode == WaitRewrite && !s.child.AofChild? ==> s.buf == [])
  }

  /** The next write goes to the end of the file, and the recorded size is true. */
  ghost predicate Positioned(s: State) {
    s.fd.Some? && s.fd.value < |s.data| && s.data[s.fd.value].Log? ==>
      var n := |s.data[s.fd.value].bytes|; (s.cur.append || s.cur.pos == n) && s.cur.size == n
  }

  /** Memory and files agree. */
  ghost predicate Coherent(s: State) {
    && Indexed(s)
    && WellFormed(s.am)
    && DiskAgrees(s.disk, s.am)
    && FilesOk(s.am, s.dir, s.data)
    && (s.mode == On ==> Live(s))
    && ChildOk(s)
    && Quiet(s)
    && !s.aborted
  }

  ghost predicate Core(s: State) {
    Coherent(s) && Positioned(s)
  }

  // ---------------------------------------------------------------- frames

  /** Logs are read through the listed names only. */
  lemma LogsFrame(infos: seq<AofInfo>, dir: map<FileName, Inode>, data: seq<Content>,
                  dir': map<FileName, Inode>, data': seq<Content>)
    requires Present(infos, dir, data)
    requires forall i :: 0 <= i < |infos| ==>
               var n := infos[i].name; n in dir' && dir'[n] == dir[n] && dir[n] < |data'| && data'[dir[n]] == data[dir[n]]
    ensures Present(infos, dir', data')
    ensures Logs(infos, dir', data') == Logs(infos, dir, data)
  {
  }

  lemma SameNamesSameLogs(p: seq<AofInfo>, q: seq<AofInfo>, dir: map<FileName, Inode>, data: seq<Content>)
    requires |p| == |q| && forall i :: 0 <= i < |p| ==> p[i].name == q[i].name
    ensures Present(p, dir, data) <==> Present(q, dir, data)
    ensures Present(p, dir, data) ==> Logs(p, dir, data) == Logs(q, dir, data)
  {
  }

  /** Changing files that are not listed keeps the listed ones. */
  lemma FilesOkFrame(m: AofManifest, dir: map<FileName, Inode>, data: seq<Content>,
                     dir': map<FileName, Inode>, data': seq<Content>)
    requires FilesOk(m, dir, data)
    requires forall n :: Listed(m, n) ==> n in dir' && n in dir && dir'[n] == dir[n] && dir[n] < |data'| && dir[n] < |data| && data'[dir[n]] == data[dir[n]]
    ensures FilesOk(m, dir', data')
    ensures Logs(m.incr, dir', data') == Logs(m.incr, dir, data)
    ensures BaseCmds(m.base, dir', data') == BaseCmds(m.base, dir, data)
  {
    assert forall i :: 0 <= i < |m.incr| ==> Listed(m, m.incr[i].name);
    if m.base.Some? { assert Listed(m, m.base.value.name); }
    LogsFrame(m.incr, dir, data, dir', data');
  }

  /** Appending to the last INCR. */
  lemma LogsAppendLast(infos: seq<AofInfo>, dir: map<FileName, Inode>, data: seq<Content>, b: seq<byte>)
    requires Present(infos, dir, data) && infos != []
    requires forall x, y :: x in dir && y in dir && dir[x] == dir[y] ==> x == y
    requires forall i, j :: 0 <= i < j < |infos| ==> infos[i].name != infos[j].name
    ensures var last := dir[infos[|infos| - 1].name];
            var logs := Logs(infos, dir, data);
            var data' := Append(data, last, b);
            && Present(infos, dir, data')
            && Logs(infos, dir, data') == Full(logs, b)
  {
    var n := |infos| - 1;
    var last := dir[infos[n].name];
    var data' := Append(data, last, b);
    forall i | 0 <= i < n ensures data'[dir[infos[i].name]] == data[dir[infos[i].name]] {
      assert infos[i].name != infos[n].name;
    }
  }

  lemma IncrNamesDistinct(m: AofManifest)
    requires WellFormed(m)
    ensures forall i, j :: 0 <= i < j < |m.incr| ==> m.incr[i].name != m.incr[j].name
    ensures m.base.Some? ==> forall i :: 0 <= i < |m.incr| ==> m.incr[i].name != m.base.value.name
  {
  }

  lemma FullOfNothing(logs: seq<seq<byte>>)
    requires logs != []
    ensures Full(logs, []) == logs
  {
    assert logs[|logs| - 1] + [] == logs[|logs| - 1];
  }

  lemma FullLoadable(logs: seq<seq<byte>>, buf: seq<byte>, k: nat)
    requires logs != [] && k <= |buf| && AllComplete(Full(logs, buf))
    ensures Loadable(Full(logs, buf[..k]))
    ensures AllComplete(logs[..|logs| - 1])
  {
    hide Complete, Cut;
    var n := |logs| - 1;
    var f := Full(logs, buf);
    assert Complete(f[n]);
    TornWrite(logs[n], buf, k);
    assert forall i :: 0 <= i < n ==> logs[..n][i] == f[i];
    assert Full(logs, buf[..k])[..n] == logs[..n];
  }

  lemma FlatFull(logs: seq<seq<byte>>, buf: seq<byte>)
    requires logs != []
    ensures Flat(Full(logs, buf)) == Flat(logs[..|logs| - 1]) + Decoded(logs[|logs| - 1] + buf)
  {
    FlatSnoc(logs[..|logs| - 1], logs[|logs| - 1] + buf);
  }

  // ---------------------------------------------------------------- feeding and flushing

  function Append(data: seq<Content>, i: Inode, b: seq<byte>): seq<Content> {
    if i < |data| && data[i].Log? then data[i := Log(data[i].bytes + b)] else data
  }

  /** What a flush appends: all of the buffer, a part of it, or nothing. */
  function Flushed(s: State, w: Write): nat {
    if s.fd.None? || Undone(s, w) then 0
    else if w.n >= |s.buf| then |s.buf|
    else w.n
  }

  /** A short write may be taken back only through a descriptor with O_APPEND. */
  predicate WriteOk(s: State, w: Write) {
    s.cur.append || !Undone(s, w)
  }

  /** The first `k` bytes of the buffer appended to the file. */
  function Appended(s: State, k: nat): State
    requires k <= |s.buf|
  {
    s.(data := if s.fd.Some? then Append(s.data, s.fd.value, s.buf[..k]) else s.data, buf := s.buf[k..])
  }

  lemma PutsAtEnd(s: State, b: seq<byte>)
    requires Positioned(s) && s.fd.Some?
    ensures Store(s.data, s.fd.value, AofFlush.Put(Descriptor(s), b).contents) == Append(s.data, s.fd.value, b)
    ensures s.fd.value < |s.data| && s.data[s.fd.value].Log? ==>
              var n := |s.data[s.fd.value].bytes|;
              && |AofFlush.Put(Descriptor(s), b).contents| == n + |b|
              && (s.cur.append || AofFlush.Put(Descriptor(s), b).pos == n + |b|)
  {
    if s.fd.value < |s.data| && s.data[s.fd.value].Log? {
      var c := s.data[s.fd.value].bytes;
      assert c[..|c|] == c && c + [] == c && c + b + [] == c + b;
    }
  }

  /** Taking a short write back leaves the file as it was. */
  lemma TakesBack(s: State, b: seq<byte>)
    requires Positioned(s) && s.fd.Some?
    ensures Store(s.data, s.fd.value, AofFlush.Truncate(AofFlush.Put(Descriptor(s), b), s.cur.size).contents) == s.data
  {
    if s.fd.value < |s.data| && s.data[s.fd.value].Log? {
      var c := s.data[s.fd.value].bytes;
      assert c[..|c|] == c && c + b + [] == c + b;
      assert (c + b)[..|c|] == c;
      assert s.data[s.fd.value := Log(c)] == s.data;
    }
  }

  lemma FlushShape(s: State, w: Write)
    requires s.fd.Some?
    ensures var n := if w.n < |s.buf| then w.n else |s.buf|;
            var put := AofFlush.Put(Descriptor(s), s.buf[..n]);
            Flush(s, w) ==
            if Undone(s, w)
            then s.(data := Store(s.data, s.fd.value, AofFlush.Truncate(put, s.cur.size).contents),
                    cur := Cursor(s.cur.append, put.pos, s.cur.size))
            else s.(data := Store(s.data, s.fd.value, put.contents), buf := s.buf[n..],
                    cur := Cursor(s.cur.append, put.pos, s.cur.size + n))
  {
    assert s.buf[0..] == s.buf;
  }

  /** Through a descriptor at the end of its file a flush appends. */
  lemma FlushIs(s: State, w: Write)
    requires Positioned(s)
    ensures Flushed(s, w) <= |s.buf|
    ensures Flush(s, w) == Appended(s, Flushed(s, w)).(cur := Flush(s, w).cur)
  {
    hide AofFlush.Put, AofFlush.Truncate, Flush, Positioned, Store, Append, Descriptor;
    assert s.buf[0..] == s.buf && s.buf[..0] == [];
    if s.fd.Some? {
      var n := if w.n < |s.buf| then w.n else |s.buf|;
      FlushShape(s, w);
      PutsAtEnd(s, s.buf[..n]);
      TakesBack(s, s.buf[..n]);
      AppendNothing(s.data, s.fd.value);
    } else {
      FlushClosed(s, w);
    }
  }

  lemma FlushPositioned(s: State, w: Write)
    requires Positioned(s) && WriteOk(s, w)
    ensures Positioned(Flush(s, w))
  {
    hide AofFlush.Put, AofFlush.Truncate, Flush, Descriptor, Store, Append;
    if s.fd.Some? {
      var n := if w.n < |s.buf| then w.n else |s.buf|;
      FlushShape(s, w);
      PutsAtEnd(s, s.buf[..n]);
      TakesBack(s, s.buf[..n]);
      AppendKind(s.data, s.fd.value, s.buf[..n]);
    } else {
      FlushClosed(s, w);
    }
  }

  lemma AppendKind(data: seq<Content>, i: Inode, b: seq<byte>)
    ensures |Append(data, i, b)| == |data|
    ensures i < |data| ==>
              if data[i].Log? then Append(data, i, b)[i] == Log(data[i].bytes + b) else Append(data, i, b)[i] == data[i]
  {
  }

  lemma TornIs(s: State, k: nat)
    requires Positioned(s) && k <= |s.buf|
    ensures Torn(s, k) == Appended(s, k).data
  {
    hide AofFlush.Put;
    if s.fd.Some? { PutsAtEnd(s, s.buf[..k]); }
  }

  /** A flush that empties the buffer took nothing back. */
  lemma EmptiedOk(s: State, w: Write)
    requires Flush(s, w).buf == []
    ensures WriteOk(s, w) && (s.fd.Some? ==> Flushed(s, w) == |s.buf|)
  {
    hide AofFlush.Put, AofFlush.Truncate;
  }

  ghost predicate Unlisted(s: State, i: Inode) {
    forall n :: Listed(s.am, n) && n in s.dir ==> s.dir[n] != i
  }

  lemma LiveLastIsFd(s: State)
    requires Indexed(s) && WellFormed(s.am) && Live(s)
    ensures s.fd.Some? && s.fd.value < |s.data| && s.data[s.fd.value].Log?
    ensures var logs := Logs(s.am.incr, s.dir, s.data);
            && Tail(s) == logs[|logs| - 1] + s.buf
            && Complete(Tail(s))
            && s.hist == BaseCmds(s.am.base, s.dir, s.data) + Flat(logs[..|logs| - 1]) + Decoded(Tail(s))
  {
    hide Decoded, Complete, Flat, Loadable, WellFormed;
    var logs := Logs(s.am.incr, s.dir, s.data);
    var n := |logs| - 1;
    assert Full(logs, s.buf)[n] == logs[n] + s.buf;
    FlatFull(logs, s.buf);
    var b := BaseCmds(s.am.base, s.dir, s.data);
    assert b + (Flat(logs[..n]) + Decoded(Tail(s))) == b + Flat(logs[..n]) + Decoded(Tail(s));
  }

  /** Rebuilding `Live` from the tail. */
  lemma LiveFromTail(s: State)
    requires s.am.base.Some? && s.am.incr != []
    requires BasePresent(s.am.base, s.dir, s.data) && Present(s.am.incr, s.dir, s.data)
    requires s.fd == Some(s.dir[s.am.incr[|s.am.incr| - 1].name])
    requires var logs := Logs(s.am.incr, s.dir, s.data);
             && AllComplete(logs[..|logs| - 1])
             && Complete(Tail(s))
             && s.hist == BaseCmds(s.am.base, s.dir, s.data) + Flat(logs[..|logs| - 1]) + Decoded(Tail(s))
    ensures Live(s)
  {
    hide Decoded, Complete, Flat, Cut;
    var logs := Logs(s.am.incr, s.dir, s.data);
    var n := |logs| - 1;
    var f := Full(logs, s.buf);
    assert Tail(s) == logs[n] + s.buf;
    assert forall i :: 0 <= i < n ==> f[i] == logs[..n][i];
    assert AllComplete(f);
    FullLoadable(logs, s.buf, 0);
    FullOfNothing(logs);
    assert s.buf[..0] == [];
    FlatFull(logs, s.buf);
    var b := BaseCmds(s.am.base, s.dir, s.data);
    assert b + (Flat(logs[..n]) + Decoded(Tail(s))) == b + Flat(logs[..n]) + Decoded(Tail(s));
  }

  lemma TailAfterFlush(s: State, k: nat)
    requires k <= |s.buf| && s.fd.Some? && s.fd.value < |s.data| && s.data[s.fd.value].Log?
    ensures Tail(s.(data := Append(s.data, s.fd.value, s.buf[..k]), buf := s.buf[k..])) == Tail(s)
  {
    assert s.buf[..k] + s.buf[k..] == s.buf;
    var b := s.data[s.fd.value].bytes;
    assert b + s.buf[..k] + s.buf[k..] == b + s.buf;
  }

  lemma FlushLive(s: State, k: nat)
    requires Indexed(s) && WellFormed(s.am) && Live(s) && k <= |s.buf|
    ensures Live(s.(data := Append(s.data, s.fd.value, s.buf[..k]), buf := s.buf[k..]))
  {
    hide Decoded, Complete, Flat, Loadable, WellFormed;
    var t := s.(data := Append(s.data, s.fd.value, s.buf[..k]), buf := s.buf[k..]);
    var logs := Logs(s.am.incr, s.dir, s.data);
    IncrNamesDistinct(s.am);
    LiveLastIsFd(s);
    LogsAppendLast(s.am.incr, s.dir, s.data, s.buf[..k]);
    var logs' := Logs(t.am.incr, t.dir, t.data);
    assert logs'[..|logs| - 1] == logs[..|logs| - 1];
    FullLoadable(logs, s.buf, k);
    TailAfterFlush(s, k);
    assert BaseCmds(t.am.base, t.dir, t.data) == BaseCmds(s.am.base, s.dir, s.data);
    LiveFromTail(t);
  }

  lemma AppendUnlisted(s: State, i: Inode, b: seq<byte>)
    requires Indexed(s) && FilesOk(s.am, s.dir, s.data) && Unlisted(s, i)
    ensures FilesOk(s.am, s.dir, Append(s.data, i, b))
  {
    hide Loadable, Append;
    AppendFacts(s.data, i, b);
    ListedPresent(s);
    FilesOkFrame(s.am, s.dir, s.data, s.dir, Append(s.data, i, b));
  }

  lemma AppendFacts(data: seq<Content>, i: Inode, b: seq<byte>)
    ensures |Append(data, i, b)| == |data|
    ensures forall j :: 0 <= j < |data| && j != i ==> Append(data, i, b)[j] == data[j]
  {
  }

  lemma ListedPresent(s: State)
    requires FilesOk(s.am, s.dir, s.data)
    ensures forall n :: Listed(s.am, n) ==> n in s.dir && s.dir[n] < |s.data|
  {
  }

  lemma TempUnlisted(s: State)
    requires Indexed(s) && WellFormed(s.am) && TempIncrName in s.dir
    ensures Unlisted(s, s.dir[TempIncrName])
  {
    assert !Listed(s.am, TempIncrName);
  }

  lemma AppendedCoherent(s: State, k: nat)
    requires Coherent(s) && k <= |s.buf| && s.fd.Some?
    ensures Coherent(Appended(s, k))
  {
    hide Decoded, Complete, Flat, Loadable, WellFormed, Live, DiskAgrees, Append;
    var t := Appended(s, k);
    AppendFacts(s.data, s.fd.value, s.buf[..k]);
    if s.mode == On {
      LiveLastIsFd(s);
      FlushLive(s, k);
      LiveIsFilesOk(t);
      TailAfterFlush(s, k);
    } else if s.child.AofChild? {
      TempUnlisted(s);
      AppendUnlisted(s, s.fd.value, s.buf[..k]);
      TailAfterFlush(s, k);
      AppendLog(s.data, s.fd.value, s.buf[..k]);
    } else {
      AppendNothing(s.data, s.fd.value);
      assert s.buf[..k] == [] && s.buf[k..] == s.buf;
      assert t == s;
    }
  }

  lemma CoherentIgnoresCursor(s: State, c: Cursor)
    requires Coherent(s)
    ensures Coherent(s.(cur := c))
  {
    hide Decoded, Complete, FilesOk, WellFormed, DiskAgrees;
    TailOfManifest(s, s.(cur := c));
  }

  /** Any flush leaves the files and the buffer in agreement. */
  lemma FlushCoherent(s: State, w: Write)
    requires Core(s)
    ensures Coherent(Flush(s, w))
  {
    hide Coherent, Positioned, Flush, Append;
    FlushIs(s, w);
    if s.fd.Some? {
      AppendedCoherent(s, Flushed(s, w));
      CoherentIgnoresCursor(Appended(s, Flushed(s, w)), Flush(s, w).cur);
    } else {
      assert Flush(s, w) == s by { FlushClosed(s, w); }
    }
  }

  lemma FlushClosed(s: State, w: Write)
    requires s.fd.None?
    ensures Flush(s, w) == s
  {
  }

  lemma FlushCore(s: State, w: Write)
    requires Core(s) && WriteOk(s, w)
    ensures Core(Flush(s, w))
  {
    hide Coherent, Positioned, Flush, WriteOk;
    FlushCoherent(s, w);
    FlushPositioned(s, w);
  }

  lemma AppendNothing(data: seq<Content>, i: Inode)
    ensures Append(data, i, []) == data
  {
    if i < |data| && data[i].Log? { assert data[i].bytes + [] == data[i].bytes; }
  }

  lemma AppendLog(data: seq<Content>, i: Inode, b: seq<byte>)
    requires i < |data| && data[i].Log?
    ensures Append(data, i, b)[i] == Log(data[i].bytes + b)
  {
  }

  lemma LiveIsFilesOk(s: State)
    requires Live(s)
    ensures FilesOk(s.am, s.dir, s.data)
  {
  }

  lemma TailAfterFeed(s: State, c: Command)
    requires Complete(Tail(s)) && Valid(c)
    ensures var t := s.(hist := s.hist + [c], buf := s.buf + Encode(c));
            Complete(Tail(t)) && Decoded(Tail(t)) == Decoded(Tail(s)) + [c]
  {
    hide Decoded, Complete, Encode;
    var t := s.(hist := s.hist + [c], buf := s.buf + Encode(c));
    if s.fd.Some? && s.fd.value < |s.data| && s.data[s.fd.value].Log? {
      var b := s.data[s.fd.value].bytes;
      assert b + s.buf + Encode(c) == b + (s.buf + Encode(c));
    }
    assert Tail(t) == Tail(s) + Encode(c);
    CompleteExtend(Tail(s), c);
  }

  lemma FeedLive(s: State, c: Command)
    requires Indexed(s) && WellFormed(s.am) && Live(s) && Valid(c)
    ensures var t := s.(hist := s.hist + [c], buf := s.buf + Encode(c));
            Live(t) && Decoded(Tail(t)) == Decoded(Tail(s)) + [c]
  {
    hide Decoded, Complete, Flat, Loadable, WellFormed, Encode;
    var t := s.(hist := s.hist + [c], buf := s.buf + Encode(c));
    LiveLastIsFd(s);
    TailAfterFeed(s, c);
    var logs := Logs(s.am.incr, s.dir, s.data);
    FullLoadable(logs, s.buf, 0);
    var h := BaseCmds(s.am.base, s.dir, s.data) + Flat(logs[..|logs| - 1]);
    assert h + Decoded(Tail(s)) + [c] == h + (Decoded(Tail(s)) + [c]);
    LiveFromTail(t);
  }

  lemma FeedCore(s: State, c: Command)
    requires Core(s) && Valid(c)
    ensures Core(Feed(s, c))
  {
    hide Decoded, Complete, FilesOk, WellFormed, DiskAgrees, Encode, Live, Tail;
    if s.mode == On {
      FeedLive(s, c);
    } else if s.mode == WaitRewrite && s.child.AofChild? {
      TailAfterFeed(s, c);
    }
    if s.child.AofChild? {
      assert s.child.snap + Decoded(Tail(s)) + [c] == s.child.snap + (Decoded(Tail(s)) + [c]);
    }
  }

  // ---------------------------------------------------------------- opening a new INCR

  lemma OpenIndexed(s: State, n: FileName, truncate: bool)
    requires Indexed(s)
    ensures Indexed(Open(s, n, truncate))
  {
  }

  lemma OpenShape(s: State, n: FileName, truncate: bool)
    requires Indexed(s)
    ensures var t := Open(s, n, truncate);
            && Indexed(t)
            && n in t.dir
            && (truncate || n !in s.dir ==> t.data[t.dir[n]] == Log([]))
            && |s.data| <= |t.data|
            && (forall j :: 0 <= j < |s.data| && !(n in s.dir && s.dir[n] == j) ==> t.data[j] == s.data[j])
            && (forall x :: x in s.dir ==> x in t.dir && t.dir[x] == s.dir[x])
            && (forall x :: x in t.dir && x != n ==> x in s.dir)
  {
    OpenIndexed(s, n, truncate);
    hide Indexed;
    IndexedDir(s);
  }

  lemma IndexedDir(s: State)
    requires Indexed(s)
    ensures forall n :: n in s.dir ==> s.dir[n] < |s.data|
  {
  }

  /** Opening a file that is not listed disturbs no listed file. */
  lemma OpenFrame(s: State, n: FileName, truncate: bool)
    requires Indexed(s) && FilesOk(s.am, s.dir, s.data) && !Listed(s.am, n)
    ensures var t := Open(s, n, truncate);
            && FilesOk(s.am, t.dir, t.data)
            && Logs(s.am.incr, t.dir, t.data) == Logs(s.am.incr, s.dir, s.data)
            && BaseCmds(s.am.base, t.dir, t.data) == BaseCmds(s.am.base, s.dir, s.data)
  {
    hide Loadable, Open, FilesOk;
    var t := Open(s, n, truncate);
    ListedPresent(s);
    OpenShape(s, n, truncate);
    FilesOkFrame(s.am, s.dir, s.data, t.dir, t.data);
  }

  lemma WellFormedDirty(m: AofManifest, d: bool)
    requires WellFormed(m)
    ensures WellFormed(m.(dirty := d))
    ensures forall n :: Retired(m.(dirty := d), n) <==> Retired(m, n)
  {
    assert forall i :: 0 <= i < |m.hist| ==> (Retired(m.(dirty := d), m.hist[i].name) <==> Retired(m, m.hist[i].name));
  }

  lemma DiskIs(m: AofManifest)
    requires WellFormed(m)
    ensures DiskAgrees(Some(m.(dirty := false)), m.(dirty := false))
  {
    WellFormedDirty(m, false);
  }

  /** A rotation that stops half-way leaves at most an unlisted file behind. */
  lemma OpenOnly(s: State, n: FileName)
    requires Core(s) && s.mode == On && !Listed(s.am, n)
    ensures Core(Open(s, n, true))
  {
    hide Decoded, Complete, Flat, Loadable, WellFormed, DiskAgrees, Open;
    var t := Open(s, n, true);
    OpenFields(s, n, true);
    OpenShape(s, n, true);
    OpenFrame(s, n, true);
    LiveLastIsFd(s);
    assert Listed(s.am, s.am.incr[|s.am.incr| - 1].name);
    assert t.data[t.fd.value] == s.data[s.fd.value];
  }

  lemma OpenFields(s: State, n: FileName, truncate: bool)
    ensures Open(s, n, truncate) == s.(data := Open(s, n, truncate).data, dir := Open(s, n, truncate).dir)
  {
  }

  lemma LogsSnoc(infos: seq<AofInfo>, x: AofInfo, dir: map<FileName, Inode>, data: seq<Content>)
    requires Present(infos, dir, data)
    requires x.name in dir && dir[x.name] < |data| && data[dir[x.name]].Log?
    ensures Present(infos + [x], dir, data)
    ensures Logs(infos + [x], dir, data) == Logs(infos, dir, data) + [data[dir[x.name]].bytes]
  {
  }

  /** The state openNewIncrAofForAppend leaves when AOF is on and all goes well. */
  function Rotated(s: State, offset: int): State {
    var m := NewIncr(s.am, offset);
    var n := IncrName(m.incrSeq);
    var t := Open(s, n, true);
    t.(am := m.(dirty := false), disk := Some(m.(dirty := false)), fd := if n in t.dir then Some(t.dir[n]) else None,
       cur := NO_CURSOR)
  }

  lemma RotatedLive(s: State, offset: int)
    requires Core(s) && s.mode == On && s.buf == []
    ensures var t := Rotated(s, offset);
            Indexed(t) && Live(t) && Tail(t) == [] && Positioned(t)
  {
    hide Decoded, Complete, Flat, Loadable, WellFormed, DiskAgrees, Open;
    var m := NewIncr(s.am, offset);
    var x := m.incr[|m.incr| - 1];
    var t0 := Open(s, x.name, true);
    var t := Rotated(s, offset);
    NewIncrWellFormed(s.am, offset);
    OpenFields(s, x.name, true);
    OpenShape(s, x.name, true);
    OpenFrame(s, x.name, true);
    var logs := Logs(s.am.incr, s.dir, s.data);
    LogsSnoc(s.am.incr, x, t.dir, t.data);
    var logs' := Logs(t.am.incr, t.dir, t.data);
    assert logs' == logs + [[]];
    assert logs'[..|logs'| - 1] == logs;
    FullOfNothing(logs);
    EmptyLog();
    assert Tail(t) == [];
    var b := BaseCmds(s.am.base, s.dir, s.data);
    assert b + Flat(logs) + [] == b + Flat(logs);
    LiveFromTail(t);
  }

  lemma RotatedCore(s: State, offset: int)
    requires Core(s) && s.mode == On && s.buf == [] && !s.child.AofChild?
    ensures Core(Rotated(s, offset))
  {
    hide Decoded, Complete, Flat, FilesOk, WellFormed, DiskAgrees, Open, Live, Indexed, Positioned;
    var m := NewIncr(s.am, offset);
    OpenFields(s, IncrName(m.incrSeq), true);
    NewIncrWellFormed(s.am, offset);
    WellFormedDirty(m, false);
    DiskIs(m);
    RotatedLive(s, offset);
    LiveIsFilesOk(Rotated(s, offset));
  }

  lemma OpenTempCore(s: State)
    requires Core(s) && !s.child.AofChild? && s.mode == WaitRewrite
    ensures var t0 := Open(s, TempIncrName, true);
            && TempIncrName in t0.dir
            && var t := t0.(fd := Some(t0.dir[TempIncrName]), cur := NO_CURSOR);
               && Core(t) && Tail(t) == []
               && t.fd.value < |t.data| && t.data[t.fd.value].Log?
  {
    hide Decoded, Complete, Flat, FilesOk, WellFormed, DiskAgrees, Open;
    OpenFields(s, TempIncrName, true);
    TempNotListed(s.am);
    OpenShape(s, TempIncrName, true);
    OpenFrame(s, TempIncrName, true);
  }

  /** openNewIncrAofForAppend keeps the invariant when the buffer has been written and the
      manifest is either written or left alone. */
  lemma OpenNewIncrCore(s: State, r: Rotate)
    requires Core(s) && !s.child.AofChild? && (s.mode == On ==> s.buf == []) && r.p != RenamedNotSynced
    ensures var (t, ok) := OpenNewIncr(s, r);
            && Core(t)
            && (ok && s.mode != Off ==> Tail(t) == [])
            && (ok && s.mode == WaitRewrite ==>
                  TempIncrName in t.dir && t.fd == Some(t.dir[TempIncrName]) && t.fd.value < |t.data| && t.data[t.fd.value].Log?)
  {
    hide Decoded, Complete, Core, WellFormed, Open, Tail;
    CoreParts(s);
    if s.mode != Off && r.openOk {
      if s.mode == WaitRewrite {
        OpenTempCore(s);
        OpenFields(s, TempIncrName, true);
      } else {
        OpenNewIncrOn(s, r);
      }
    }
  }

  lemma OpenNewIncrWritten(s: State, r: Rotate)
    requires s.mode == On && r.openOk && r.p == Written && Indexed(s)
    ensures OpenNewIncr(s, r) == (Rotated(s, r.offset), true)
  {
    hide Open, Indexed;
    OpenShape(s, IncrName(s.am.incrSeq + 1), true);
    OpenFields(s, IncrName(s.am.incrSeq + 1), true);
  }

  lemma OpenNewIncrNotWritten(s: State, r: Rotate)
    requires s.mode == On && r.openOk && r.p == NotRenamed
    ensures OpenNewIncr(s, r) == (Open(s, IncrName(s.am.incrSeq + 1), true), false)
  {
    hide Open;
    OpenFields(s, IncrName(s.am.incrSeq + 1), true);
  }

  lemma OpenNewIncrOn(s: State, r: Rotate)
    requires Core(s) && !s.child.AofChild? && s.mode == On && s.buf == [] && r.p != RenamedNotSynced && r.openOk
    ensures var (t, ok) := OpenNewIncr(s, r);
            Core(t) && (ok ==> Tail(t) == [])
  {
    hide Core, Open, Tail, OpenNewIncr, Rotated, WellFormed, Live, FilesOk, DiskAgrees;
    CoreParts(s);
    NewIncrWellFormed(s.am, r.offset);
    if r.p == Written {
      RotatedCore(s, r.offset);
      RotatedLive(s, r.offset);
      OpenNewIncrWritten(s, r);
    } else {
      OpenOnly(s, IncrName(s.am.incrSeq + 1));
      OpenNewIncrNotWritten(s, r);
    }
  }

  lemma CoreParts(s: State)
    requires Core(s)
    ensures Indexed(s) && WellFormed(s.am) && DiskAgrees(s.disk, s.am) && FilesOk(s.am, s.dir, s.data)
    ensures s.mode == On ==> Live(s)
    ensures ChildOk(s) && Quiet(s) && Positioned(s) && !s.aborted
  {
  }

  lemma TempNotListed(m: AofManifest)
    requires WellFormed(m)
    ensures !Listed(m, TempIncrName)
  {
  }

  // ---------------------------------------------------------------- starting a rewrite

  lemma AbortWaitCore(s: State)
    requires Core(s) && !s.child.AofChild?
    ensures Core(AbortWait(s))
  {
    hide Decoded, Complete, Flat, WellFormed, DiskAgrees, Loadable;
    if s.mode == WaitRewrite {
      TempNotListed(s.am);
      ListedPresent(s);
      FilesOkFrame(s.am, s.dir, s.data, s.dir - {TempIncrName}, s.data);
    }
  }

  /** Forking with everything logged so far on disk. */
  lemma ForkCore(s: State)
    requires Core(s) && s.child == NoChild && (s.mode != Off ==> Tail(s) == [])
    requires s.mode == WaitRewrite ==>
               TempIncrName in s.dir && s.fd == Some(s.dir[TempIncrName]) && s.fd.value < |s.data| && s.data[s.fd.value].Log?
    ensures Core(s.(child := AofChild(s.hist)))
  {
    hide Decoded, Complete, FilesOk, WellFormed, DiskAgrees;
    EmptyLog();
    assert Tail(s.(child := AofChild(s.hist))) == Tail(s);
    assert s.hist + [] == s.hist;
  }

  /** What rewriteAppendOnlyFileBackground relies on with AOF on: its flush empties the buffer and
      the write of its manifest is atomic. */
  predicate RewriteGuard(s: State, rw: Rewrite) {
    s.mode == On && s.child == NoChild ==> Flush(s, rw.w).buf == [] && rw.r.p != RenamedNotSynced
  }

  lemma RewriteFlush(s: State, rw: Rewrite)
    requires Core(s) && s.child == NoChild && RewriteGuard(s, rw)
    ensures Core(Flush(s, rw.w)) && (s.mode == On ==> Flush(s, rw.w).buf == [])
  {
    if s.mode == On { EmptiedOk(s, rw.w); }
    hide Coherent, Positioned, Flush;
    assert WriteOk(s, rw.w) by { if s.mode != On { CoreParts(s); } }
    FlushCore(s, rw.w);
  }

  /** The way a new INCR is persisted only matters with AOF on. */
  lemma OpenNewIncrUnpersisted(s: State, r: Rotate)
    requires s.mode != On
    ensures OpenNewIncr(s, r) == OpenNewIncr(s, r.(p := NotRenamed))
  {
    hide Open;
  }

  /** rewriteAppendOnlyFileBackground keeps the invariant. */
  lemma StartRewriteCore(s: State, rw: Rewrite)
    requires Core(s) && RewriteGuard(s, rw)
    ensures Core(StartRewrite(s, rw).0)
  {
    hide Core, Flush, OpenNewIncr, AbortWait, Tail;
    if s.child == NoChild {
      FlushFields(s, rw.w);
      RewriteFlush(s, rw);
      var f := Flush(s, rw.w);
      var r := if s.mode == On then rw.r else rw.r.(p := NotRenamed);
      if s.mode != On { OpenNewIncrUnpersisted(f, rw.r); }
      OpenNewIncrCore(f, r);
      OpenNewIncrFields(f, r);
      var (t, ok) := OpenNewIncr(f, r);
      if !ok || !rw.forkOk {
        AbortWaitCore(t);
      } else {
        ForkCore(t);
      }
    }
  }

  lemma FlushFields(s: State, w: Write)
    ensures Flush(s, w) == s.(data := Flush(s, w).data, buf := Flush(s, w).buf, cur := Flush(s, w).cur)
  {
  }

  lemma OpenNewIncrFields(s: State, r: Rotate)
    ensures var t := OpenNewIncr(s, r).0;
            t == s.(data := t.data, dir := t.dir, disk := t.disk, am := t.am, fd := t.fd, cur := t.cur)
  {
  }

  // ---------------------------------------------------------------- stopping

  lemma SameFilesLive(s: State, m: AofManifest)
    requires Live(s) && SameFiles(m, s.am)
    ensures Live(s.(am := m)) && Tail(s.(am := m)) == Tail(s)
  {
    hide Decoded, Complete, Flat, Loadable;
    SameNamesSameLogs(m.incr, s.am.incr, s.dir, s.data);
  }

  lemma EndOffsetSameFiles(m: AofManifest, offset: int, d: bool)
    ensures SameFiles(SetEndOffset(m, offset).(dirty := d), m)
  {
  }

  lemma DiskAgreesWith(disk: Option<AofManifest>, m: AofManifest, m': AofManifest)
    requires DiskAgrees(disk, m) && SameFiles(m', m)
    requires forall n :: Retired(m, n) ==> Retired(m', n)
    ensures DiskAgrees(disk, m')
  {
  }

  lemma UpdateEndCore(s: State, offset: int, p: Persist)
    requires Core(s)
    ensures Core(UpdateEnd(s, offset, p))
  {
    hide Decoded, Complete, Flat, FilesOk, WellFormed, DiskAgrees, Live, SameFiles, SetEndOffset, Tail;
    if s.mode == On && s.am.incr != [] {
      var m := SetEndOffset(s.am, offset);
      var t := UpdateEnd(s, offset, p);
      EndOffsetSameFiles(s.am, offset, t.am.dirty);
      SetEndOffsetWellFormed(s.am, offset);
      WellFormedDirty(m, t.am.dirty);
      SameFilesLive(s, t.am);
      TailOfManifest(s, t);
      LiveIsFilesOk(s.(am := t.am));
      DiskIs(m);
      WellFormedDirty(m, false);
      if DiskAfter(s.disk, m, p) == s.disk {
        DiskAgreesWith(s.disk, s.am, t.am);
      } else {
        EndOffsetSameFiles(s.am, offset, false);
        SameFilesDirty(m, t.am.dirty);
        DiskAgreesWith(Some(m.(dirty := false)), m.(dirty := false), t.am);
      }
      LiveOfParts(s.(am := t.am), t);
    }
  }

  lemma SameFilesDirty(m: AofManifest, d: bool)
    ensures SameFiles(m.(dirty := d), m.(dirty := false))
  {
  }

  lemma TailOfManifest(s: State, t: State)
    requires t.fd == s.fd && t.data == s.data && t.buf == s.buf
    ensures Tail(t) == Tail(s)
  {
  }

  lemma LiveOfParts(s: State, t: State)
    requires Live(s)
    requires t.am == s.am && t.dir == s.dir && t.data == s.data && t.fd == s.fd && t.buf == s.buf && t.hist == s.hist
    ensures Live(t)
  {
  }

  lemma UpdateEndFields(s: State, offset: int, p: Persist)
    ensures UpdateEnd(s, offset, p) == s.(disk := UpdateEnd(s, offset, p).disk, am := UpdateEnd(s, offset, p).am)
  {
  }

  lemma ClosedCore(u: State, child: Child)
    requires Core(u)
    ensures Core(u.(fd := None, cur := NO_CURSOR, child := child, mode := Off, buf := [],
                    dir := if u.mode == WaitRewrite then u.dir - {TempIncrName} else u.dir))
  {
    hide Decoded, Complete, Flat, WellFormed, DiskAgrees, Live, Loadable;
    var dir' := if u.mode == WaitRewrite then u.dir - {TempIncrName} else u.dir;
    TempNotListed(u.am);
    ListedPresent(u);
    FilesOkFrame(u.am, u.dir, u.data, dir', u.data);
  }

  /** Whether a last short write is taken back makes no difference to what a closed descriptor leaves. */
  lemma LastFlush(s: State, sp: Stopping)
    requires Positioned(s)
    ensures StopFiles(s, sp) == StopFiles(s, sp.(w := Write(Flushed(s, sp.w), false)))
    ensures WriteOk(s, Write(Flushed(s, sp.w), false))
  {
    hide Positioned, Flush, Append, UpdateEnd;
    var w := Write(Flushed(s, sp.w), false);
    FlushIs(s, sp.w);
    FlushIs(s, w);
    assert Flushed(s, w) == Flushed(s, sp.w);
    UpdateEndOf(Flush(s, sp.w), Flush(s, w), sp.offset, sp.p);
  }

  lemma UpdateEndOf(s: State, t: State, offset: int, p: Persist)
    requires t == s.(cur := t.cur)
    ensures UpdateEnd(t, offset, p) == UpdateEnd(s, offset, p).(cur := t.cur)
  {
  }

  lemma StopFilesCore(s: State, sp: Stopping)
    requires Core(s)
    ensures Core(StopFiles(s, sp))
  {
    LastFlush(s, sp);
    hide Core, Flush, UpdateEnd, StopFiles, Flushed, WriteOk;
    StopFlushedCore(s, sp.(w := Write(Flushed(s, sp.w), false)));
  }

  lemma StopFlushedCore(s: State, sp: Stopping)
    requires Core(s) && WriteOk(s, sp.w)
    ensures Core(StopFiles(s, sp))
  {
    hide Core, Flush, UpdateEnd, WriteOk;
    FlushCore(s, sp.w);
    FlushFields(s, sp.w);
    var f := Flush(s, sp.w);
    UpdateEndCore(f, sp.offset, sp.p);
    UpdateEndFields(f, sp.offset, sp.p);
    var u := if s.fd.Some? then UpdateEnd(f, sp.offset, sp.p) else s;
    var t := StopFiles(s, sp);
    ClosedCore(u, t.child);
    assert t == u.(fd := None, cur := NO_CURSOR, child := t.child, mode := Off, buf := [],
                    dir := if u.mode == WaitRewrite then u.dir - {TempIncrName} else u.dir);
  }

  /** The settings a backup relies on: it owns the directory only while appendonly is off. */
  ghost predicate Settings(s: State) {
    && (s.enabled ==> s.mode != Off)
    && !(s.canRemove && s.enabled)
  }

  lemma RemoveAofDirCore(s: State)
    requires Core(s) && s.mode == Off
    ensures Core(RemoveAofDir(s))
  {
    hide Decoded, Complete, Live;
    if s.canRemove {
      var t := RemoveAofDir(s);
      assert Logs(t.am.incr, t.dir, t.data) == [];
    }
  }

  lemma StopAofCore(s: State, sp: Stopping)
    requires Core(s) && Settings(s) && s.mode != Off && !s.enabled
    ensures var t := StopAof(s, sp); Core(t) && Settings(t) && t.mode == Off && !t.enabled
    decreases Rank(s), 0
  {
    hide Core, StopFiles;
    StopFilesCore(s, sp);
    StopFilesFields(s, sp);
    BackupFailedCore(StopFiles(s, sp), sp);
  }

  lemma StopFilesFields(s: State, sp: Stopping)
    ensures var t := StopFiles(s, sp);
            t == s.(data := t.data, disk := t.disk, am := t.am, fd := None, cur := NO_CURSOR, child := t.child, mode := Off,
                    buf := [], dir := t.dir)
  {
  }

  lemma StopTempAofCore(s: State, sp: Stopping)
    requires Core(s) && Settings(s) && !InProgress(s.backup)
    ensures var t := StopTempAof(s, sp); Core(t) && Settings(t) && t.enabled == s.enabled && (!s.enabled ==> t.mode == Off)
    decreases Rank(s), 1
  {
    hide Core;
    if !s.enabled && s.mode != Off {
      StopAofCore(s, sp);
    }
  }

  /** backupSetFailed keeps the invariant, and ends the backup. */
  lemma BackupFailedCore(s: State, sp: Stopping)
    requires Core(s) && Settings(s)
    ensures var t := BackupFailed(s, sp);
            && Core(t) && Settings(t) && t.enabled == s.enabled
            && (s.mode == Off ==> t.mode == Off)
            && (InProgress(s.backup) ==> t.backup == Failed)
            && (!InProgress(s.backup) ==> t == s)
    decreases Rank(s), 2
  {
    hide Core;
    if InProgress(s.backup) {
      var s0 := s.(backup := Failed);
      CoreIgnores(s, s0);
      StopTempAofCore(s0, sp);
      var s1 := StopTempAof(s0, sp);
      StopTempBackup(s0, sp);
      if s1.canRemove {
        RemoveAofDirCore(s1);
      } else {
        assert RemoveAofDir(s1) == s1;
      }
      CoreIgnores(RemoveAofDir(s1), BackupFailed(s, sp));
    }
  }

  /** A failure that is not in progress any more leaves the backup fields alone. */
  lemma StopTempBackup(s: State, sp: Stopping)
    requires !InProgress(s.backup)
    ensures var t := StopTempAof(s, sp);
            && t.backup == s.backup && t.bdir == s.bdir && t.bBase == s.bBase && t.bIncr == s.bIncr
            && t.canRemove == s.canRemove && t.sealedHist == s.sealedHist && t.hist == s.hist
            && (t == s || t == StopFiles(s, sp))
  {
    hide StopFiles;
    StopFilesFields(s, sp);
    if !s.enabled && s.mode != Off {
      assert StopAof(s, sp) == BackupFailed(StopFiles(s, sp), sp);
      assert BackupFailed(StopFiles(s, sp), sp) == StopFiles(s, sp);
    }
  }

  /** The invariant does not look at the backup fields or the settings. */
  lemma CoreIgnores(s: State, t: State)
    requires Core(s)
    requires t == s.(bdir := t.bdir, backup := t.backup, bBase := t.bBase, bIncr := t.bIncr, canRemove := t.canRemove,
                     sealedHist := t.sealedHist, enabled := t.enabled, gcDisabled := t.gcDisabled)
    ensures Core(t)
  {
    hide Decoded, Complete, FilesOk, WellFormed, DiskAgrees;
    TailOfManifest(s, t);
  }
}
