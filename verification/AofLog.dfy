/** A BASE followed by a chain of INCR logs: what loading the chain yields when the
    last log may end in the middle of a command. */
module AofLog {
  import opened Options
  import opened Decimal
  import opened Resp
  import opened Manifest
  import opened Recovery

  /** Which commands the loading server knows: here all of them. */
  predicate Any(c: Command) { true }

  /** The loader as it is configured here: short reads are cut off, corrupt tails are not. */
  const LOADER: Config := Config(true, 0)

  /** What the loader leaves of the last log when truncate works. */
  function Recover(b: seq<byte>): LoadResult {
    Loaded(b, LOADER, true, Any)
  }

  function Run(b: seq<byte>): Outcome {
    LoadFile(b, Any)
  }

  /** The commands a log file replays to. */
  function Decoded(b: seq<byte>): seq<Command> {
    Run(b).executed
  }

  /** A log holding whole commands only. */
  ghost predicate Complete(b: seq<byte>) {
    exists cs :: AllValid(cs) && b == EncodeAll(cs)
  }

  ghost predicate IsCut(b: seq<byte>, cs: seq<Command>, k: nat) {
    AllValid(cs) && k <= |EncodeAll(cs)| && b == EncodeAll(cs)[..k]
  }

  /** A log that may have lost a tail of its bytes. */
  ghost predicate Cut(b: seq<byte>) {
    exists cs, k :: IsCut(b, cs, k)
  }

  lemma CompleteRun(b: seq<byte>)
    requires Complete(b)
    ensures Run(b) == Outcome(Decoded(b), |b|, CleanEof)
    ensures AllValid(Decoded(b)) && EncodeAll(Decoded(b)) == b
  {
    hide LoadFile, EncodeAll, Valid;
    var cs :| AllValid(cs) && b == EncodeAll(cs);
    LoadFileRoundTrip(cs, Any);
  }

  lemma CompleteOf(cs: seq<Command>)
    requires AllValid(cs)
    ensures Complete(EncodeAll(cs)) && Decoded(EncodeAll(cs)) == cs
  {
    hide LoadFile;
    LoadFileRoundTrip(cs, Any);
  }

  lemma EmptyLog()
    ensures Complete([]) && Decoded([]) == []
  {
    CompleteOf([]);
  }

  /** Feeding one more command. */
  lemma CompleteExtend(b: seq<byte>, c: Command)
    requires Complete(b) && Valid(c)
    ensures Complete(b + Encode(c)) && Decoded(b + Encode(c)) == Decoded(b) + [c]
  {
    hide LoadFile, Encode, Decoded;
    var cs := Decoded(b);
    CompleteRun(b);
    EncodeAllAppend(cs, [c]);
    assert EncodeAll([c]) == Encode(c) + EncodeAll([]);
    CompleteOf(cs + [c]);
  }

  lemma CompleteIsCut(b: seq<byte>)
    requires Complete(b)
    ensures Cut(b)
  {
    var cs :| AllValid(cs) && b == EncodeAll(cs);
    assert IsCut(b, cs, |b|);
  }

  /** What a log cut at `k` bytes replays to, relative to the uncut one. */
  lemma CutRun(b: seq<byte>, cs: seq<Command>, k: nat)
    requires IsCut(b, cs, k)
    ensures var n := Whole(cs, k);
            var w := |EncodeAll(cs[..n])|;
            && Run(b) == Outcome(cs[..n], w, if w == k then CleanEof else ShortRead)
            && w <= k && b[..w] == EncodeAll(cs[..n])
            && b[w..] + EncodeAll(cs)[k..] == EncodeAll(cs[n..])
            && (n < |cs| ==> k - w < |Encode(cs[n])|)
  {
    hide LoadFile, Whole, Encode;
    var n := Whole(cs, k);
    var w := |EncodeAll(cs[..n])|;
    LoadFilePrefix(cs, k, Any);
    EncodeAllAppend(cs[..n], cs[n..]);
    assert cs == cs[..n] + cs[n..];
    var e := EncodeAll(cs);
    assert b[w..] + e[k..] == e[w..];
    if n < |cs| {
      EncodeSnoc(cs, n);
    }
  }

  lemma EncodeSnoc(cs: seq<Command>, n: nat)
    requires n < |cs|
    ensures EncodeAll(cs[..n + 1]) == EncodeAll(cs[..n]) + Encode(cs[n])
  {
    assert cs[..n + 1] == cs[..n] + [cs[n]];
    EncodeAllAppend(cs[..n], [cs[n]]);
    assert EncodeAll([cs[n]]) == Encode(cs[n]) + EncodeAll([]);
  }

  /** Recovery: the loader accepts a cut log, and leaves a whole one with the same commands. */
  lemma CutRecovers(b: seq<byte>)
    requires Cut(b)
    ensures Run(b).exit == CleanEof || Run(b).exit == ShortRead
    ensures Run(b).validUpTo <= |b| && Recover(b).file == b[..Run(b).validUpTo]
    ensures Recover(b).status == AofEmpty || Recover(b).status == AofOk || Recover(b).status == AofTruncated
    ensures Complete(Recover(b).file) && Decoded(Recover(b).file) == Decoded(b)
    ensures AllValid(Decoded(b))
  {
    hide LoadFile, EncodeAll, Valid, Whole;
    var cs, k :| IsCut(b, cs, k);
    CutRun(b, cs, k);
    CompleteOf(cs[..Whole(cs, k)]);
    if b == [] {
      LoadNothing(0, 0, Any);
      assert b[..0] == b;
    } else {
      PrefixRecovers(cs, k, LOADER, true, Any);
    }
  }

  /** `done` are the commands wholly in the file, `tail` the bytes of the file after them
      and `rest` the bytes not yet in the file: nothing else of `all` is missing. */
  ghost predicate Exactly(all: seq<Command>, done: seq<Command>, tail: seq<byte>, rest: seq<byte>) {
    && |done| <= |all| && done == all[..|done|]
    && tail + rest == EncodeAll(all[|done|..])
    && (|done| < |all| ==> |tail| < |Encode(all[|done|])|)
  }

  /** A write of the buffer torn after `k` bytes leaves exactly the commands wholly written. */
  lemma TornWrite(b: seq<byte>, buf: seq<byte>, k: nat)
    requires Complete(b + buf) && k <= |buf|
    ensures var t := b + buf[..k];
            && Cut(t)
            && Run(t).validUpTo <= |t|
            && Exactly(Decoded(b + buf), Decoded(t), t[Run(t).validUpTo..], buf[k..])
  {
    hide LoadFile, Encode, Whole, Decoded;
    var t := b + buf[..k];
    var cs := Decoded(b + buf);
    CompleteRun(b + buf);
    assert t == (b + buf)[..|b| + k];
    assert IsCut(t, cs, |b| + k);
    CutRun(t, cs, |b| + k);
    assert (b + buf)[|b| + k..] == buf[k..];
    assert Decoded(t) == cs[..Whole(cs, |b| + k)] by { DecodedIs(t); }
  }

  lemma DecodedIs(b: seq<byte>)
    ensures Decoded(b) == Run(b).executed
  {
  }

  // ------------------------------------------------------------ chains

  /** loadAppendOnlyFiles on the INCR files: only the last may be cut short. */
  function LoadLogs(fs: seq<seq<byte>>): Option<seq<Command>> {
    if fs == [] then Some([]) else
    var o := Run(fs[0]);
    if |fs| == 1 then
      if o.exit == CleanEof || o.exit == ShortRead then Some(o.executed) else None
    else if o.exit != CleanEof then None
    else
      match LoadLogs(fs[1..])
      case None => None
      case Some(r) => Some(o.executed + r)
  }

  function Flat(fs: seq<seq<byte>>): seq<Command> {
    if fs == [] then [] else Decoded(fs[0]) + Flat(fs[1..])
  }

  ghost predicate AllComplete(fs: seq<seq<byte>>) {
    forall i :: 0 <= i < |fs| ==> Complete(fs[i])
  }

  ghost predicate Loadable(fs: seq<seq<byte>>) {
    fs != [] ==> AllComplete(fs[..|fs| - 1]) && Cut(fs[|fs| - 1])
  }

  lemma {:induction false} LoadLogsOfLoadable(fs: seq<seq<byte>>)
    requires Loadable(fs)
    ensures LoadLogs(fs) == Some(Flat(fs))
  {
    hide Decoded, Run, Complete, Cut;
    if fs != [] {
      DecodedIs(fs[0]);
      if |fs| == 1 {
        CutRecovers(fs[0]);
        assert Flat(fs) == Decoded(fs[0]) + Flat([]) == Decoded(fs[0]) by { assert fs[1..] == []; }
      } else {
        assert fs[0] == fs[..|fs| - 1][0];
        CompleteRun(fs[0]);
        assert fs[1..][..|fs[1..]| - 1] == fs[..|fs| - 1][1..];
        LoadLogsOfLoadable(fs[1..]);
      }
    }
  }

  lemma {:induction false} FlatAppend(fs: seq<seq<byte>>, gs: seq<seq<byte>>)
    ensures Flat(fs + gs) == Flat(fs) + Flat(gs)
  {
    hide Decoded;
    if fs == [] {
      assert fs + gs == gs;
    } else {
      assert (fs + gs)[1..] == fs[1..] + gs;
      FlatAppend(fs[1..], gs);
    }
  }

  lemma FlatSnoc(fs: seq<seq<byte>>, b: seq<byte>)
    ensures Flat(fs + [b]) == Flat(fs) + Decoded(b)
  {
    hide Decoded;
    FlatAppend(fs, [b]);
    assert [b][1..] == [];
    assert Flat([b]) == Decoded(b) + Flat([]);
  }
}
