/** What the recovery of a single append-only file achieves: cutting it where the loader stopped. */
module Recovery {
  import opened Decimal
  import opened Resp

  // ---------------------------------------------------------------- reading less than the file

  lemma {:induction false} LineLengthTake(s: seq<byte>, room: nat, m: nat)
    requires LineLength(s, room) <= m <= |s|
    ensures LineLength(s[..m], room) == LineLength(s, room)
    decreases room
  {
    if room != 0 && s != [] && m != 0 {
      assert s[..m][0] == s[0] && s[..m][1..] == s[1..][..m - 1];
      if s[0] != LF { LineLengthTake(s[1..], room - 1, m - 1); }
    }
  }

  lemma LineTake(s: seq<byte>, m: nat)
    requires |Line(s)| <= m <= |s|
    ensures Line(s[..m]) == Line(s)
  {
    LineLengthTake(s, LINE_MAX - 1, m);
  }

  /** An argument is read the same when bytes after it are missing. */
  lemma ReadArgTake(s: seq<byte>, m: nat)
    requires var a := ReadArg(s); a.Arg? && |s| - |a.rest| <= m <= |s|
    ensures var a := ReadArg(s); ReadArg(s[..m]) == Arg(a.data, a.rest[..m - (|s| - |a.rest|)])
  {
    var line := Line(s);
    LineTake(s, m);
    hide LineLength, Strtol;
    var body, len := s[|line|..], Strtol(line[1..]);
    assert s[..m][|line|..] == body[..m - |line|];
    assert body[..m - |line|][..len] == body[..len];
  }

  lemma {:induction false} ReadArgsTake(s: seq<byte>, n: nat, m: nat)
    requires var a := ReadArgs(s, n); a.Args? && |s| - |a.rest| <= m <= |s|
    ensures var a := ReadArgs(s, n); ReadArgs(s[..m], n) == Args(a.argv, a.rest[..m - (|s| - |a.rest|)])
    decreases n
  {
    hide ReadArg;
    if n > 0 {
      var a := ReadArg(s);
      var k := |s| - |a.rest|;
      ReadArgTake(s, m);
      ReadArgsTake(a.rest, n - 1, m - k);
    }
  }

  lemma ReadItemTake(s: seq<byte>, m: nat)
    requires s != [] && 0 < m
    requires var i := ReadItem(s); (i.Item? || i.Annotation?) && |s| - |i.rest| <= m <= |s|
    ensures var i := ReadItem(s);
            var rest := i.rest[..m - (|s| - |i.rest|)];
            ReadItem(s[..m]) == if i.Item? then Item(i.argv, rest) else Annotation(rest)
  {
    var line := Line(s);
    var i := ReadItem(s);
    hide LineLength, Strtol, ReadArgs;
    if i.Item? {
      ReadArgsTake(s[|line|..], Atoi(line[1..]), m - |line|);
    }
    LineTake(s, m);
    assert s[..m][|line|..] == s[|line|..][..m - |line|];
  }

  // ---------------------------------------------------------------- whole files

  lemma LoadExecutes(s: seq<byte>, total: nat, valid: nat, known: Command -> bool)
    requires |s| <= total && valid <= total - |s|
    ensures var o := Load(s, total, valid, known);
            && (o.executed == [] ==> o.validUpTo == valid)
            && (o.executed != [] ==> total - |s| < o.validUpTo <= total)
    decreases |s|
  {
    hide ReadItem;
    if s != [] {
      var i := ReadItem(s);
      if i.Annotation? {
        LoadExecutes(i.rest, total, valid, known);
      } else if i.Item? {
        LoadExecutes(i.rest, total, total - |i.rest|, known);
      }
    }
  }

  /** What is left of a file when it is cut where the loader stopped. */
  ghost predicate TakeLoads(s: seq<byte>, total: nat, valid: nat, known: Command -> bool)
    requires |s| <= total
  {
    var o := Load(s, total, valid, known);
    var m := o.validUpTo - (total - |s|);
    && 0 < m <= |s|
    && Load(s[..m], o.validUpTo, valid, known) == Outcome(o.executed, o.validUpTo, CleanEof)
  }

  lemma TakeItem(s: seq<byte>, total: nat, valid: nat, known: Command -> bool)
    requires 0 < |s| <= total && ReadItem(s).Item? && known(ReadItem(s).argv)
    requires var rest := ReadItem(s).rest;
             var p := Load(rest, total, total - |rest|, known);
             if p.executed == [] then p.validUpTo == total - |rest| else TakeLoads(rest, total, total - |rest|, known)
    ensures TakeLoads(s, total, valid, known)
  {
    hide ReadItem, Load;
    var i := ReadItem(s);
    var next := total - |i.rest|;
    LoadItem(s, total, valid, known);
    var p := Load(i.rest, total, next, known);
    var m := p.validUpTo - (total - |s|);
    assert m == (|s| - |i.rest|) + (p.validUpTo - next);
    ReadItemTake(s, m);
    LoadItem(s[..m], p.validUpTo, valid, known);
    if p.executed == [] { LoadNothing(p.validUpTo, next, known); }
  }

  lemma TakeAnnotation(s: seq<byte>, total: nat, valid: nat, known: Command -> bool)
    requires 0 < |s| <= total && ReadItem(s).Annotation? && TakeLoads(ReadItem(s).rest, total, valid, known)
    ensures TakeLoads(s, total, valid, known)
  {
    hide ReadItem, Load;
    LoadAnnotation(s, total, valid, known);
    var o := Load(s, total, valid, known);
    var m := o.validUpTo - (total - |s|);
    ReadItemTake(s, m);
    LoadAnnotation(s[..m], o.validUpTo, valid, known);
  }

  /** Loading the part of a file up to the offset the loader reports. */
  lemma {:induction false} LoadTake(s: seq<byte>, total: nat, valid: nat, known: Command -> bool)
    requires |s| <= total && valid <= total - |s| && Load(s, total, valid, known).executed != []
    ensures TakeLoads(s, total, valid, known)
    decreases |s|
  {
    hide ReadItem, Load, TakeLoads;
    if s == [] {
      LoadNothing(total, valid, known);
    } else {
      var i := ReadItem(s);
      if i.Annotation? {
        LoadAnnotation(s, total, valid, known);
        LoadTake(i.rest, total, valid, known);
        TakeAnnotation(s, total, valid, known);
      } else if i.Item? && known(i.argv) {
        LoadExecutes(i.rest, total, total - |i.rest|, known);
        if Load(i.rest, total, total - |i.rest|, known).executed != [] {
          LoadTake(i.rest, total, total - |i.rest|, known);
        }
        TakeItem(s, total, valid, known);
      } else {
        LoadStops(s, total, valid, known);
      }
    }
  }

  /** Whatever a file holds: cut where the loader stopped, it loads cleanly to the same commands. */
  lemma CutLoads(file: seq<byte>, known: Command -> bool)
    ensures var o := LoadFile(file, known);
            && o.validUpTo <= |file|
            && LoadFile(file[..o.validUpTo], known) == Outcome(o.executed, o.validUpTo, CleanEof)
  {
    hide Load;
    LoadExecutes(file, |file|, 0, known);
    if LoadFile(file, known).executed == [] {
      LoadNothing(0, 0, known);
    } else {
      LoadTake(file, |file|, 0, known);
    }
  }

  // ---------------------------------------------------------------- recovery

  predicate Recovered(s: Status) {
    s == AofTruncated || s == AofBrokenRecovered
  }

  /** For every file, configuration and outcome of truncate: a file that is not recovered is left as it
      is; a recovered one is a prefix that loads without error to the commands just executed. */
  lemma RecoveryKeeps(file: seq<byte>, cfg: Config, truncateOk: bool, known: Command -> bool)
    ensures var o, r := LoadFile(file, known), Loaded(file, cfg, truncateOk, known);
            && (!Recovered(r.status) ==> r.file == file)
            && (Recovered(r.status) ==>
                  && r.file <= file && r.file != file
                  && LoadFile(r.file, known) == Outcome(o.executed, |r.file|, CleanEof)
                  && forall cfg', ok' :: Loaded(r.file, cfg', ok', known) ==
                                         LoadResult(if r.file == [] then AofEmpty else AofOk, r.file))
  {
    hide LoadFile;
    CutLoads(file, known);
    if file != [] {
      StopsBeforeEnd(file, known);
    }
  }

  lemma {:induction false} EndsClean(s: seq<byte>, total: nat, valid: nat, known: Command -> bool)
    requires |s| <= total && valid <= total - |s| && (s == [] ==> valid == total)
    requires Load(s, total, valid, known).validUpTo == total
    ensures Load(s, total, valid, known).exit == CleanEof
    decreases |s|
  {
    hide ReadItem, Load;
    if s == [] {
      LoadNothing(total, valid, known);
    } else {
      var i := ReadItem(s);
      if i.Annotation? {
        LoadAnnotation(s, total, valid, known);
        LoadExecutes(i.rest, total, valid, known);
        if i.rest != [] { EndsClean(i.rest, total, valid, known); }
        else { LoadNothing(total, valid, known); }
      } else if i.Item? && known(i.argv) {
        LoadItem(s, total, valid, known);
        EndsClean(i.rest, total, total - |i.rest|, known);
      } else {
        LoadStops(s, total, valid, known);
      }
    }
  }

  lemma StopsBeforeEnd(file: seq<byte>, known: Command -> bool)
    requires file != []
    ensures var o := LoadFile(file, known); o.exit != CleanEof ==> o.validUpTo < |file|
  {
    CutLoads(file, known);
    if LoadFile(file, known).validUpTo == |file| { EndsClean(file, |file|, 0, known); }
  }

  /** A log that lost its tail: it is accepted exactly when nothing is left over or short reads may be
      cut off and the cut succeeds; then the file is the log of the commands executed, otherwise it is
      untouched. */
  lemma PrefixRecovers(cs: seq<Command>, k: nat, cfg: Config, truncateOk: bool, known: Command -> bool)
    requires AllValid(cs) && AllKnown(cs, known) && 0 < k <= |EncodeAll(cs)|
    ensures var file := EncodeAll(cs)[..k];
            var done := cs[..Whole(cs, k)];
            var r := Loaded(file, cfg, truncateOk, known);
            && LoadFile(file, known).executed == done
            && (r.status == AofOk <==> file == EncodeAll(done))
            && (r.status == AofOk || r.status == AofTruncated <==>
                file == EncodeAll(done) || (cfg.loadTruncated && truncateOk))
            && (r.status == AofOk || r.status == AofTruncated ==> r.file == EncodeAll(done))
            && (r.status != AofOk && r.status != AofTruncated ==> r.status == AofFailed && r.file == file)
  {
    hide Load, Whole, EncodeAll;
    var n := Whole(cs, k);
    LoadFilePrefix(cs, k, known);
    WholePrefix(cs, k);
  }

  lemma WholePrefix(cs: seq<Command>, k: nat)
    requires k <= |EncodeAll(cs)|
    ensures var e := EncodeAll(cs[..Whole(cs, k)]);
            |e| <= k && EncodeAll(cs)[..|e|] == e && (EncodeAll(cs)[..k] == e <==> |e| == k)
  {
    var n := Whole(cs, k);
    assert cs == cs[..n] + cs[n..];
    EncodeAllAppend(cs[..n], cs[n..]);
  }

  /** What the loader makes of bytes after a whole log. */
  lemma {:induction false} LoadThenStop(cs: seq<Command>, junk: seq<byte>, total: nat, valid: nat, known: Command -> bool)
    requires AllValid(cs) && AllKnown(cs, known) && junk != [] && |EncodeAll(cs)| + |junk| <= total
    requires !ReadItem(junk).Annotation? && !(ReadItem(junk).Item? && known(ReadItem(junk).argv))
    ensures Load(EncodeAll(cs) + junk, total, valid, known) ==
            Outcome(cs, if cs == [] then valid else total - |junk|, ExitOf(ReadItem(junk)))
    decreases |cs|
  {
    hide ReadItem, Load, Encode;
    if cs == [] {
      assert EncodeAll(cs) + junk == junk;
      LoadStops(junk, total, valid, known);
    } else {
      var t := EncodeAll(cs[1..]) + junk;
      assert EncodeAll(cs) + junk == Encode(cs[0]) + t;
      ReadItemOfEncode(cs[0], t);
      LoadItem(Encode(cs[0]) + t, total, valid, known);
      LoadThenStop(cs[1..], junk, total, total - |t|, known);
    }
  }

  /** A log with a corrupt tail: it is accepted exactly when the tail is shorter than the configured
      size and the cut succeeds; then the tail is gone and nothing else, otherwise the file is untouched. */
  lemma CorruptTailRecovers(cs: seq<Command>, junk: seq<byte>, cfg: Config, truncateOk: bool, known: Command -> bool)
    requires AllValid(cs) && AllKnown(cs, known) && junk != [] && ReadItem(junk) == ItemFormat
    ensures var file := EncodeAll(cs) + junk;
            var r := Loaded(file, cfg, truncateOk, known);
            && LoadFile(file, known).executed == cs
            && (r.status == AofBrokenRecovered <==> truncateOk && |junk| < cfg.corruptTailMax)
            && (r.status == AofBrokenRecovered ==> r.file == EncodeAll(cs))
            && (r.status != AofBrokenRecovered ==> r.status == AofFailed && r.file == file)
  {
    hide Load, ReadItem;
    var file := EncodeAll(cs) + junk;
    LoadThenStop(cs, junk, |file|, 0, known);
    assert file[..|EncodeAll(cs)|] == EncodeAll(cs);
  }
}
