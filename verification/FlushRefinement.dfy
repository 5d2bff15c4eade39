/** The flush of the protocol is the flush of AofFlush: what the write calls do inside it comes down to
    how many bytes went out and whether they were taken back. */
module FlushRefinement {
  import opened Decimal
  import opened AofServer
  import opened AofInvariant
  import AofFlush

  // ---------------------------------------------------------------- write calls

  /** Two writes are one write of both. */
  lemma PutTwice(fd: AofFlush.Fd, a: seq<byte>, b: seq<byte>)
    ensures AofFlush.Put(AofFlush.Put(fd, a), b) == AofFlush.Put(fd, a + b)
  {
    if a == [] {
      assert a + b == b;
    } else if b == [] {
      assert a + b == a;
    } else {
      var at := if fd.append then |fd.contents| else fd.pos;
      OverwriteTwice(fd.contents, at, a, b);
      if fd.append { OverwriteLength(fd.contents, at, a); }
    }
  }

  /** What stands before an offset, NULs up to it included, and what stands behind one. */
  function Before(c: seq<byte>, at: nat): seq<byte> {
    if at > |c| then c + AofFlush.Zeros(at - |c|) else c[..at]
  }

  function Behind(c: seq<byte>, at: nat): seq<byte> {
    if at < |c| then c[at..] else []
  }

  lemma OverwriteIs(c: seq<byte>, at: nat, a: seq<byte>)
    requires a != []
    ensures AofFlush.Overwrite(c, at, a) == Before(c, at) + a + Behind(c, at + |a|) && |Before(c, at)| == at
  {
    if at > |c| {
      assert c + AofFlush.Zeros(at - |c|) + a + [] == c + AofFlush.Zeros(at - |c|) + a;
    }
  }

  lemma Cut3(x: seq<byte>, y: seq<byte>, n: nat)
    ensures Before(x + y, |x|) == x && Behind(x + y, |x| + n) == Behind(y, n)
  {
  }

  lemma BehindTwice(c: seq<byte>, i: nat, n: nat)
    ensures Behind(Behind(c, i), n) == Behind(c, i + n)
  {
  }

  lemma Regroup(x: seq<byte>, y: seq<byte>, z: seq<byte>)
    ensures x + y + z == x + (y + z)
  {
  }

  lemma OverwriteTwice(c: seq<byte>, at: nat, a: seq<byte>, b: seq<byte>)
    requires a != [] && b != []
    ensures AofFlush.Overwrite(AofFlush.Overwrite(c, at, a), at + |a|, b) == AofFlush.Overwrite(c, at, a + b)
  {
    hide AofFlush.Overwrite, Before, Behind;
    OverwriteIs(c, at, a);
    OverwriteIs(c, at, a + b);
    var z, y := Before(c, at), Behind(c, at + |a|);
    var x := z + a;
    OverwriteIs(x + y, |x|, b);
    Cut3(x, y, |b|);
    BehindTwice(c, at + |a|, |b|);
    Regroup(z, a, b);
  }

  lemma OverwriteLength(c: seq<byte>, at: nat, a: seq<byte>)
    requires a != [] && at >= |c|
    ensures |AofFlush.Overwrite(c, at, a)| == at + |a|
  {
  }

  /** However the calls of aofWrite go, they are one write of the first `j` bytes. */
  lemma {:induction false} WriteIsPut(fd: AofFlush.Fd, data: seq<byte>, total: nat, script: seq<AofFlush.WriteResult>)
    returns (j: nat)
    ensures j <= |data|
    ensures AofFlush.Write(fd, data, total, script) ==
            (AofFlush.Put(fd, data[..j]), if total + j > 0 || data == [] then total + j else -1)
    decreases |script|
  {
    hide AofFlush.Put;
    if data == [] || (script != [] && script[0].Failed?) {
      j := 0;
      PutNothing(fd);
    } else if script == [] {
      j := |data|;
      assert data[..j] == data;
    } else {
      AofFlush.WriteStep(fd, data, total, script);
      match script[0]
      case Interrupted =>
        j := WriteIsPut(fd, data, total, script[1..]);
      case Wrote(n) =>
        var k := if n < |data| then n else |data|;
        var i := WriteIsPut(AofFlush.Put(fd, data[..k]), data[k..], total + k, script[1..]);
        j := k + i;
        PutTwice(fd, data[..k], data[k..][..i]);
        assert data[..k] + data[k..][..i] == data[..j];
    }
  }

  lemma PutNothing(fd: AofFlush.Fd)
    ensures AofFlush.Put(fd, []) == fd
  {
  }

  // ---------------------------------------------------------------- the two flushes

  /** The descriptor, buffer and size of the server, as AofFlush sees them. */
  ghost predicate Matches(s: State, a: AofFlush.State) {
    && s.fd.Some? && s.fd.value < |s.data| && s.data[s.fd.value].Log?
    && a.fd == Descriptor(s) && a.buf == s.buf && a.incrSize == s.cur.size && !a.exited
  }

  /** The number of bytes that went out, and whether they were taken back. */
  function Effect(buf: seq<byte>, j: nat, truncateOk: bool): Write {
    Write(j, 0 < j < |buf| && truncateOk)
  }

  lemma FlushEffect(s: State, a: AofFlush.State, o: AofFlush.Outcome, j: nat)
    requires Matches(s, a) && s.buf != [] && j <= |s.buf|
    requires AofFlush.Write(a.fd, a.buf, 0, o.script) == (AofFlush.Put(a.fd, a.buf[..j]), if j > 0 then j else -1)
    ensures Matches(Flush(s, Effect(s.buf, j, o.truncateOk)), AofFlush.Flush(a, o, false))
  {
    hide AofFlush.Put, AofFlush.Truncate, AofFlush.Write;
    FlushShape(s, Effect(s.buf, j, o.truncateOk));
    PutKeeps(a.fd, a.buf[..j]);
    TruncateKeeps(AofFlush.Put(a.fd, a.buf[..j]), a.incrSize);
    PutNothing(a.fd);
    if j == 0 { assert a.buf[..0] == [] && a.buf[0..] == a.buf; }
  }

  lemma PutKeeps(fd: AofFlush.Fd, b: seq<byte>)
    ensures AofFlush.Put(fd, b).append == fd.append
  {
  }

  lemma TruncateKeeps(fd: AofFlush.Fd, n: nat)
    ensures AofFlush.Truncate(fd, n).append == fd.append && AofFlush.Truncate(fd, n).pos == fd.pos
  {
  }

  /** Every flush under a policy other than always is a flush of the protocol. */
  lemma FlushRefines(s: State, a: AofFlush.State, o: AofFlush.Outcome) returns (w: Write)
    requires Matches(s, a)
    ensures Matches(Flush(s, w), AofFlush.Flush(a, o, false))
    ensures Flush(s, w) == s.(data := Flush(s, w).data, buf := Flush(s, w).buf, cur := Flush(s, w).cur)
  {
    hide AofFlush.Write, Flush;
    if s.buf == [] {
      w := Write(0, false);
      EmptyWrite(s, w);
    } else {
      var j := WriteIsPut(a.fd, a.buf, 0, o.script);
      w := Effect(s.buf, j, o.truncateOk);
      FlushEffect(s, a, o, j);
    }
    FlushFields(s, w);
  }

  /** Write calls that have the effect of `w`. */
  function Calls(buf: seq<byte>, w: Write): AofFlush.Outcome {
    AofFlush.Outcome(if w.n >= |buf| then [] else if w.n == 0 then [AofFlush.Failed] else [AofFlush.Wrote(w.n), AofFlush.Failed],
                     w.undone)
  }

  /** And every flush of the protocol is such a flush. */
  lemma FlushIsReached(s: State, a: AofFlush.State, w: Write)
    requires Matches(s, a)
    ensures Matches(Flush(s, w), AofFlush.Flush(a, Calls(s.buf, w), false))
  {
    hide AofFlush.Put, AofFlush.Truncate;
    if s.buf == [] {
      EmptyWrite(s, w);
    } else {
      var o := Calls(s.buf, w);
      var j := if w.n < |s.buf| then w.n else |s.buf|;
      CallsWrite(a.fd, a.buf, w);
      FlushEffect(s, a, o, j);
      SameEffect(s, w);
    }
  }

  lemma EmptyWrite(s: State, w: Write)
    requires s.fd.Some? && s.fd.value < |s.data| && s.data[s.fd.value].Log? && s.buf == []
    ensures Flush(s, w) == s
  {
    hide AofFlush.Put, AofFlush.Truncate, Flush;
    FlushShape(s, w);
    PutNothing(Descriptor(s));
    assert s.buf[..0] == [] && s.buf[0..] == [];
    assert s.data[s.fd.value := s.data[s.fd.value]] == s.data;
  }

  lemma CallsWrite(fd: AofFlush.Fd, buf: seq<byte>, w: Write)
    requires buf != []
    ensures var j := if w.n < |buf| then w.n else |buf|;
            AofFlush.Write(fd, buf, 0, Calls(buf, w).script) == (AofFlush.Put(fd, buf[..j]), if j > 0 then j else -1)
  {
    hide AofFlush.Put;
    PutNothing(fd);
    var script := Calls(buf, w).script;
    if w.n >= |buf| {
      assert buf[..|buf|] == buf;
    } else {
      AofFlush.WriteStep(fd, buf, 0, script);
      if w.n > 0 {
        assert script[1..] == [AofFlush.Failed];
        AofFlush.WriteStep(AofFlush.Put(fd, buf[..w.n]), buf[w.n..], w.n, script[1..]);
      }
    }
  }

  lemma SameEffect(s: State, w: Write)
    requires s.fd.Some? && s.buf != []
    ensures var j := if w.n < |s.buf| then w.n else |s.buf|;
            Flush(s, w) == Flush(s, Effect(s.buf, j, w.undone))
  {
    hide AofFlush.Put, AofFlush.Truncate;
  }

  /** Under policy always a flush that fails ends the process: it leaves the file as a crash inside the
      write does. */
  lemma AlwaysIsCrash(s: State, a: AofFlush.State, o: AofFlush.Outcome) returns (k: nat)
    requires Matches(s, a) && Positioned(s) && AofFlush.Flush(a, o, true).exited
    ensures k <= |s.buf|
    ensures Torn(s, k) == s.data[s.fd.value := Log(AofFlush.Flush(a, o, true).fd.contents)]
  {
    hide AofFlush.Write, AofFlush.Put, AofFlush.Truncate;
    var j := WriteIsPut(a.fd, a.buf, 0, o.script);
    PutNothing(a.fd);
    assert a.buf[..0] == [];
    if j > 0 && o.truncateOk {
      k := 0;
      TakesBack(s, s.buf[..j]);
    } else {
      k := j;
    }
  }
}
