/** Writing the AOF buffer: short writes, write errors and ftruncate. */
module AofFlush {
  import opened Decimal

  type Bytes = seq<byte>

  /** An open descriptor: what the file holds, where the next write goes. */
  datatype Fd = Fd(contents: Bytes, append: bool, pos: nat)

  /** What one write(2) call may do. */
  datatype WriteResult = Interrupted | Failed | Wrote(n: nat)

  function Zeros(n: nat): Bytes {
    seq(n, _ => NUL)
  }

  /** Bytes put at an offset: past the end they leave a hole of NULs. */
  function Overwrite(c: Bytes, at: nat, data: Bytes): Bytes {
    if data == [] then c
    else if at > |c| then c + Zeros(at - |c|) + data
    else c[..at] + data + (if at + |data| < |c| then c[at + |data|..] else [])
  }

  function Put(fd: Fd, data: Bytes): Fd {
    var at := if fd.append then |fd.contents| else fd.pos;
    if data == [] then fd
    else fd.(contents := Overwrite(fd.contents, at, data), pos := at + |data|)
  }

  function Truncate(fd: Fd, size: nat): Fd {
    fd.(contents := if size <= |fd.contents| then fd.contents[..size]
                    else fd.contents + Zeros(size - |fd.contents|))
  }

  /** aofWrite against the results of its write calls, the last of which takes the rest. The
      number of bytes written is -1 for an error before the first byte. */
  function Write(fd: Fd, data: Bytes, total: nat, script: seq<WriteResult>): (Fd, int)
    decreases |script|
  {
    if data == [] then (fd, total)
    else if script == [] then (Put(fd, data), total + |data|)
    else
      match script[0]
      case Interrupted => Write(fd, data, total, script[1..])
      case Failed => (fd, if total > 0 then total else -1)
      case Wrote(n) =>
        var k := if n < |data| then n else |data|;
        Write(Put(fd, data[..k]), data[k..], total + k, script[1..])
  }

  datatype State = State(
    fd: Fd,
    buf: Bytes,           // aof_buf
    incrSize: nat,        // aof_last_incr_size
    currentSize: nat,     // aof_current_size
    writeOk: bool,        // aof_last_write_status
    exited: bool)

  /** What the system does during one flush: the results of write, and whether ftruncate works. */
  datatype Outcome = Outcome(script: seq<WriteResult>, truncateOk: bool)

  /** flushAppendOnlyFile once it has decided to write; `always` is the fsync policy. */
  function Flush(s: State, o: Outcome, always: bool): State {
    if s.buf == [] || s.exited then s else
    WriteBounds(s.fd, s.buf, 0, o.script);
    var (fd, n) := Write(s.fd, s.buf, 0, o.script);
    if n == |s.buf| then
      s.(fd := fd, buf := [], incrSize := s.incrSize + n, currentSize := s.currentSize + n, writeOk := true)
    else
      var undone := n != -1 && o.truncateOk;
      var fd' := if undone then Truncate(fd, s.incrSize) else fd;
      var kept: nat := if n == -1 || undone then 0 else n;
      if always then s.(fd := fd', exited := true)
      else s.(fd := fd', writeOk := false, buf := s.buf[kept..],
              incrSize := s.incrSize + kept, currentSize := s.currentSize + kept)
  }

  function Feed(s: State, data: Bytes): State {
    if s.exited then s else s.(buf := s.buf + data)
  }

  // ---------------------------------------------------------------- the object

  lemma WriteStep(fd: Fd, data: Bytes, total: nat, script: seq<WriteResult>)
    requires data != [] && script != []
    ensures Write(fd, data, total, script) ==
            match script[0]
            case Interrupted => Write(fd, data, total, script[1..])
            case Failed => (fd, if total > 0 then total else -1)
            case Wrote(n) =>
              var k := if n < |data| then n else |data|;
              Write(Put(fd, data[..k]), data[k..], total + k, script[1..])
  {
  }

  class Aof {
    var contents: Bytes
    var append: bool
    var pos: nat
    var buf: Bytes
    var incrSize: nat
    var currentSize: nat
    var writeOk: bool
    var exited: bool

    ghost function Value(): State
      reads this
    {
      State(Fd(contents, append, pos), buf, incrSize, currentSize, writeOk, exited)
    }

    /** loadAppendOnlyFiles has left `c` in the last INCR; aofOpenIfNeededOnServerStart opens it
        for appending, openNewIncrAofForAppend truncates a new one. */
    constructor (c: Bytes, append: bool, otherFiles: nat)
      ensures Value() == Opened(c, append, otherFiles)
    {
      contents, this.append, pos := if append then c else [], append, 0;
      buf, writeOk, exited := [], true, false;
      incrSize := if append then |c| else 0;
      currentSize := otherFiles + (if append then |c| else 0);
    }

    method FeedAppendOnlyFile(data: Bytes)
      modifies this
      ensures Value() == Feed(old(Value()), data)
    {
      if !exited {
        buf := buf + data;
      }
    }

    /** write(2). */
    method PutBytes(data: Bytes)
      modifies `contents, `pos
      ensures Fd(contents, append, pos) == Put(old(Fd(contents, append, pos)), data)
    {
      var at := if append then |contents| else pos;
      if data != [] {
        contents, pos := Overwrite(contents, at, data), at + |data|;
      }
    }

    /** aofWrite. */
    method AofWrite(data: Bytes, script: seq<WriteResult>) returns (n: int)
      modifies `contents, `pos
      ensures (Fd(contents, append, pos), n) == Write(old(Fd(contents, append, pos)), data, 0, script)
    {
      hide Put, Write;
      var len, total, calls := data, 0, 0;
      assert script[0..] == script;
      while len != []
        invariant 0 <= total && 0 <= calls <= |script|
        invariant Write(Fd(contents, append, pos), len, total, script[calls..]) ==
                  Write(old(Fd(contents, append, pos)), data, 0, script)
        decreases |script| - calls, |len|
      {
        if calls == |script| {
          LastWrite(Fd(contents, append, pos), len, total);
          PutBytes(len);
          total, len := total + |len|, [];
        } else {
          WriteStep(Fd(contents, append, pos), len, total, script[calls..]);
          assert script[calls..][1..] == script[calls + 1..];
          var r := script[calls];
          calls := calls + 1;
          match r {
            case Interrupted => continue;
            case Failed => return if total > 0 then total else -1;
            case Wrote(m) =>
              var k := if m < |len| then m else |len|;
              PutBytes(len[..k]);
              len, total := len[k..], total + k;
          }
        }
      }
      DoneWrite(Fd(contents, append, pos), total, script[calls..]);
      return total;
    }

    /** flushAppendOnlyFile. */
    method FlushAppendOnlyFile(o: Outcome, always: bool)
      modifies this
      ensures Value() == Flush(old(Value()), o, always)
    {
      hide Write;
      if buf == [] || exited {
        return;
      }
      ghost var fd0 := Fd(contents, append, pos);
      var n := AofWrite(buf, o.script);
      WriteBounds(fd0, buf, 0, o.script);
      if n != |buf| {
        if n != -1 && o.truncateOk {
          contents := if incrSize <= |contents| then contents[..incrSize] else contents + Zeros(incrSize - |contents|);
          n := -1;
        }
        if always {
          exited := true;
        } else {
          writeOk := false;
          if n > 0 {
            currentSize, incrSize := currentSize + n, incrSize + n;
            buf := buf[n..];
          }
        }
        return;
      }
      writeOk := true;
      currentSize, incrSize := currentSize + n, incrSize + n;
      buf := [];
    }
  }

  lemma LastWrite(fd: Fd, data: Bytes, total: nat)
    requires data != []
    ensures Write(fd, data, total, []) == Write(Put(fd, data), [], total + |data|, [])
  {
  }

  lemma DoneWrite(fd: Fd, total: nat, script: seq<WriteResult>)
    ensures Write(fd, [], total, script) == (fd, total)
  {
  }

  function Opened(c: Bytes, append: bool, otherFiles: nat): State {
    var kept := if append then c else [];
    State(Fd(kept, append, 0), [], |kept|, otherFiles + |kept|, true, false)
  }

  lemma {:induction false} WriteBounds(fd: Fd, data: Bytes, total: nat, script: seq<WriteResult>)
    ensures -1 <= Write(fd, data, total, script).1 <= total + |data|
    ensures total > 0 ==> Write(fd, data, total, script).1 >= total
    ensures Write(fd, data, total, script).1 == 0 ==> total == 0
    decreases |script|
  {
    if data != [] && script != [] {
      match script[0] {
        case Interrupted => WriteBounds(fd, data, total, script[1..]);
        case Failed =>
        case Wrote(n) =>
          var k := if n < |data| then n else |data|;
          WriteBounds(Put(fd, data[..k]), data[k..], total + k, script[1..]);
      }
    }
  }

  // ---------------------------------------------------------------- nothing lost, nothing twice

  /** The descriptor writes at the end of the file. */
  predicate AtEnd(fd: Fd) {
    fd.append || fd.pos == |fd.contents|
  }

  lemma PutAtEnd(fd: Fd, data: Bytes)
    requires AtEnd(fd)
    ensures AtEnd(Put(fd, data)) && Put(fd, data).append == fd.append
    ensures Put(fd, data).contents == fd.contents + data
  {
    assert fd.contents[..|fd.contents|] == fd.contents;
  }

  lemma AppendTwice(c: Bytes, data: Bytes, k: nat, j: nat)
    requires k + j <= |data|
    ensures c + data[..k] + data[k..][..j] == c + data[..k + j]
  {
    assert data[..k] + data[k..][..j] == data[..k + j];
  }

  /** However the writes go, exactly the reported number of bytes has been appended. */
  lemma {:induction false} WriteAppends(fd: Fd, data: Bytes, total: nat, script: seq<WriteResult>)
    requires AtEnd(fd)
    ensures var (fd', n) := Write(fd, data, total, script);
            var k := if n == -1 then 0 else n - total;
            && 0 <= k <= |data| && AtEnd(fd') && fd'.append == fd.append
            && fd'.contents == fd.contents + data[..k]
    decreases |script|
  {
    hide Put, AtEnd;
    if data == [] {
      assert fd.contents + data[..0] == fd.contents;
    } else if script == [] {
      PutAtEnd(fd, data);
      assert data[..|data|] == data;
    } else {
      match script[0] {
        case Interrupted => WriteAppends(fd, data, total, script[1..]);
        case Failed => assert fd.contents + data[..0] == fd.contents;
        case Wrote(n) =>
          var k := if n < |data| then n else |data|;
          PutAtEnd(fd, data[..k]);
          var fd1 := Put(fd, data[..k]);
          WriteAppends(fd1, data[k..], total + k, script[1..]);
          WriteBounds(fd1, data[k..], total + k, script[1..]);
          var r := Write(fd1, data[k..], total + k, script[1..]);
          var j := if r.1 == -1 then 0 else r.1 - (total + k);
          AppendTwice(fd.contents, data, k, j);
      }
    }
  }

  /** File then buffer is everything fed, and the recorded size is the file's. */
  predicate Exact(s: State, fed: Bytes) {
    s.fd.contents + s.buf == fed && s.incrSize == |s.fd.contents|
  }

  /** After an exit the file still holds a prefix of what was fed. */
  predicate Consistent(s: State, fed: Bytes) {
    if s.exited then s.fd.contents <= fed else Exact(s, fed)
  }

  /** What a flush leaves after `k` bytes have reached the end of the file. */
  lemma FlushParts(s: State, k: nat)
    requires Exact(s, s.fd.contents + s.buf) && k <= |s.buf|
    ensures var c := s.fd.contents + s.buf[..k];
            c + s.buf[k..] == s.fd.contents + s.buf && c[..s.incrSize] == s.fd.contents
    ensures s.buf[0..] == s.buf && s.buf[..|s.buf|] == s.buf
  {
  }

  lemma FlushExact(s: State, o: Outcome, always: bool, fed: Bytes)
    requires !s.exited && AtEnd(s.fd) && Exact(s, fed)
    ensures Consistent(Flush(s, o, always), fed)
    ensures Flush(s, o, always).currentSize - Flush(s, o, always).incrSize == s.currentSize - s.incrSize
    ensures Flush(s, o, always).fd.append == s.fd.append
  {
    hide Write, AtEnd;
    if s.buf != [] {
      WriteAppends(s.fd, s.buf, 0, o.script);
      var (fd, n) := Write(s.fd, s.buf, 0, o.script);
      FlushParts(s, if n == -1 then 0 else n);
    }
  }

  /** What a flush achieves: everything reaches the file, or the error is on record and the server
      goes on with the rest in the buffer, or it exits; a short write is gone if it could be removed. */
  lemma FlushOutcome(s: State, o: Outcome, always: bool, fed: Bytes)
    requires !s.exited && AtEnd(s.fd) && Exact(s, fed) && s.buf != []
    ensures var t := Flush(s, o, always);
            var done := Write(s.fd, s.buf, 0, o.script).1 == |s.buf|;
            && (t.exited <==> always && !done)
            && (!t.exited ==> (t.buf == [] <==> done) && (t.writeOk <==> done))
            && (done ==> t.fd.contents == fed)
            && (!done && o.truncateOk ==> t.fd.contents == s.fd.contents)
  {
    hide Write, AtEnd;
    WriteAppends(s.fd, s.buf, 0, o.script);
    WriteBounds(s.fd, s.buf, 0, o.script);
    var (fd, n) := Write(s.fd, s.buf, 0, o.script);
    FlushParts(s, if n == -1 then 0 else n);
  }

  datatype Event = Fed(data: Bytes) | Flushed(o: Outcome, always: bool)

  function Step(s: State, e: Event): State {
    match e
    case Fed(data) => Feed(s, data)
    case Flushed(o, always) => Flush(s, o, always)
  }

  function Run(s: State, es: seq<Event>): State
    decreases |es|
  {
    if es == [] then s else Run(Step(s, es[0]), es[1..])
  }

  /** Every byte handed to the AOF while the server ran. */
  function FedBytes(s: State, es: seq<Event>): Bytes
    decreases |es|
  {
    if es == [] then []
    else (if es[0].Fed? && !s.exited then es[0].data else []) + FedBytes(Step(s, es[0]), es[1..])
  }

  lemma ExitedStays(s: State, e: Event)
    requires s.exited
    ensures Step(s, e) == s
  {
  }

  lemma FeedExact(s: State, data: Bytes, fed: Bytes)
    requires Consistent(s, fed)
    ensures Consistent(Feed(s, data), fed + if s.exited then [] else data)
  {
    assert s.fd.contents + (s.buf + data) == s.fd.contents + s.buf + data;
    assert fed + [] == fed;
  }

  lemma StepExact(s: State, e: Event, fed: Bytes)
    requires Consistent(s, fed) && s.fd.append
    ensures Consistent(Step(s, e), fed + if e.Fed? && !s.exited then e.data else [])
    ensures Step(s, e).fd.append
    ensures Step(s, e).currentSize - Step(s, e).incrSize == s.currentSize - s.incrSize
  {
    hide Flush, Consistent;
    assert fed + [] == fed;
    if s.exited {
      ExitedStays(s, e);
    } else if e.Fed? {
      FeedExact(s, e.data, fed);
    } else {
      ConsistentIs(s, fed);
      FlushExact(s, e.o, e.always, fed);
    }
  }

  lemma ConsistentIs(s: State, fed: Bytes)
    ensures Consistent(s, fed) <==> if s.exited then s.fd.contents <= fed else Exact(s, fed)
  {
  }

  lemma {:induction false} RunExact(s: State, es: seq<Event>, fed: Bytes)
    requires Consistent(s, fed) && s.fd.append
    ensures Consistent(Run(s, es), fed + FedBytes(s, es))
    ensures Run(s, es).currentSize - Run(s, es).incrSize == s.currentSize - s.incrSize
    decreases |es|
  {
    hide Consistent, Step;
    if es == [] {
      assert fed + [] == fed;
    } else {
      var more := if es[0].Fed? && !s.exited then es[0].data else [];
      StepExact(s, es[0], fed);
      RunExact(Step(s, es[0]), es[1..], fed + more);
      assert fed + more + FedBytes(Step(s, es[0]), es[1..]) == fed + FedBytes(s, es);
    }
  }

  /** On the file opened for appending, after any feeds and flushes: the file followed by the
      buffer is what the file held plus every byte fed, in order, once; the recorded sizes are
      true; and a server that gave up left a prefix. */
  lemma AppendNothingLost(c: Bytes, otherFiles: nat, es: seq<Event>)
    ensures var s0 := Opened(c, true, otherFiles);
            var s := Run(s0, es);
            var fed := c + FedBytes(s0, es);
            && (s.exited ==> s.fd.contents <= fed)
            && (!s.exited ==> s.fd.contents + s.buf == fed && s.incrSize == |s.fd.contents|
                              && s.currentSize == otherFiles + |s.fd.contents|)
  {
    hide Run, FedBytes;
    var s0 := Opened(c, true, otherFiles);
    assert c + [] == c;
    RunExact(s0, es, c);
    ConsistentIs(Run(s0, es), c + FedBytes(s0, es));
  }

  // ---------------------------------------------------------------- descriptors without O_APPEND

  /** The file length a complete write produces. */
  lemma PutLength(fd: Fd, data: Bytes)
    requires data != [] && !fd.append
    ensures fd.pos > |fd.contents| ==> |Put(fd, data).contents| > |fd.contents| + |data|
    ensures fd.pos < |fd.contents| ==> |Put(fd, data).contents| < |fd.contents| + |data|
  {
  }

  /** Whatever the system does, a flush keeps file-then-buffer exact if and only if the
      descriptor writes at the end of the file. */
  lemma FlushExactIff(s: State, always: bool, fed: Bytes)
    requires !s.exited && Exact(s, fed) && s.buf != []
    ensures (forall o :: Consistent(Flush(s, o, always), fed)) <==> AtEnd(s.fd)
  {
    hide Consistent, Flush;
    if AtEnd(s.fd) {
      forall o
        ensures Consistent(Flush(s, o, always), fed)
      {
        FlushExact(s, o, always, fed);
      }
    } else {
      HoleAppears(s, always, fed);
      assert !Consistent(Flush(s, Outcome([], true), always), fed);
    }
  }

  lemma HoleAppears(s: State, always: bool, fed: Bytes)
    requires !s.exited && Exact(s, fed) && s.buf != [] && !AtEnd(s.fd)
    ensures !Consistent(Flush(s, Outcome([], true), always), fed)
  {
    hide Put;
    PutLength(s.fd, s.buf);
    assert Write(s.fd, s.buf, 0, []) == (Put(s.fd, s.buf), |s.buf|);
  }

  /** A rotated INCR is opened without O_APPEND. A flush leaves such a descriptor at the end of
      the file unless it removed a short write: ftruncate does not move the offset. */
  lemma TruncateLosesPosition(s: State, o: Outcome, fed: Bytes)
    requires !s.exited && Exact(s, fed) && !s.fd.append && AtEnd(s.fd) && s.buf != []
    ensures var n := Write(s.fd, s.buf, 0, o.script).1;
            AtEnd(Flush(s, o, false).fd) <==> !(0 < n < |s.buf| && o.truncateOk)
  {
    hide Write;
    WriteAppends(s.fd, s.buf, 0, o.script);
    WriteBounds(s.fd, s.buf, 0, o.script);
    var (fd, n) := Write(s.fd, s.buf, 0, o.script);
    var k := if n == -1 then 0 else n;
    assert (s.fd.contents + s.buf[..k])[..s.incrSize] == s.fd.contents;
  }

  /** The two together, on a concrete run: after a removed short write the next flush leaves a
      hole of NULs in the file, and the recorded size falls behind the file's. */
  lemma RotatedHole()
    ensures var s := Run(Opened([], false, 0),
                         [Fed([1, 2, 3]), Flushed(Outcome([Wrote(2), Failed], true), false),
                          Flushed(Outcome([], true), false)]);
            s.fd.contents == [NUL, NUL, 1, 2, 3] && s.incrSize == 3 && s.buf == []
  {
    var s1 := Feed(Opened([], false, 0), [1, 2, 3]);
    assert s1.buf == [1, 2, 3];
    var o1, o2 := Outcome([Wrote(2), Failed], true), Outcome([], true);
    var fd1 := Put(s1.fd, [1, 2, 3][..2]);
    assert [1, 2, 3][..2] == [1, 2] && [1, 2, 3][2..] == [3];
    assert fd1 == Fd([1, 2], false, 2);
    assert [Wrote(2), Failed][1..] == [Failed];
    assert Write(fd1, [3], 2, [Failed]) == (fd1, 2);
    assert Write(s1.fd, s1.buf, 0, o1.script) == (fd1, 2);
    var s2 := Flush(s1, o1, false);
    assert s2.fd == Fd([], false, 2) && s2.buf == [1, 2, 3][0..] && s2.incrSize == 0;
    assert Zeros(2) == [NUL, NUL];
    assert Put(s2.fd, s2.buf).contents == [] + Zeros(2) + s2.buf;
    var es := [Fed([1, 2, 3]), Flushed(o1, false), Flushed(o2, false)];
    assert es[1..][1..] == [Flushed(o2, false)] && es[1..][1..][1..] == [];
  }
}
