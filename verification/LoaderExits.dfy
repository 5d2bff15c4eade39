/** The record format and the loader in bytes: what is skipped, what is run, and every way to stop. */
module LoaderExits {
  import opened Decimal
  import opened Resp
  import opened Recovery

  /** A command is `*`, the number of its arguments and, for each of them, `$`, its length and its bytes,
      every part closed by CR and LF. */
  lemma {:induction false} Layout(c: Command, j: nat)
    requires j < |c|
    ensures Encode(c) == [42] + Digits(|c|) + [13, 10] + EncodeArgs(c[..j]) +
                         ([36] + Digits(|c[j]|) + [13, 10] + c[j] + [13, 10]) + EncodeArgs(c[j + 1..])
  {
    hide Digits;
    EncodeArgsSnoc(c, j);
    assert c == c[..j + 1] + c[j + 1..];
    EncodeArgsAppend(c[..j + 1], c[j + 1..]);
    var h, a, b, d := [42] + Digits(|c|) + [13, 10], EncodeArgs(c[..j]), EncodeArg(c[j]), EncodeArgs(c[j + 1..]);
    assert h + (a + b + d) == h + a + b + d;
  }

  // ---------------------------------------------------------------- annotations

  /** A line of the file that is a comment, or a command. */
  datatype Piece = Note(text: seq<byte>) | Cmd(c: Command)

  /** A comment fits the line buffer with its mark and its line feed. */
  predicate PieceOk(p: Piece) {
    match p
    case Note(text) => 10 !in text && |text| + 2 < 1024
    case Cmd(c) => Valid(c)
  }

  predicate PiecesOk(ps: seq<Piece>) {
    forall i :: 0 <= i < |ps| ==> PieceOk(ps[i])
  }

  function PieceBytes(p: Piece): seq<byte> {
    match p
    case Note(text) => [35] + text + [10]
    case Cmd(c) => Encode(c)
  }

  function Bytes(ps: seq<Piece>): seq<byte> {
    if ps == [] then [] else PieceBytes(ps[0]) + Bytes(ps[1..])
  }

  function Commands(ps: seq<Piece>): seq<Command> {
    if ps == [] then [] else (if ps[0].Cmd? then [ps[0].c] else []) + Commands(ps[1..])
  }

  lemma NoteRead(text: seq<byte>, t: seq<byte>)
    requires PieceOk(Note(text))
    ensures ReadItem([35] + text + [10] + t) == Annotation(t)
  {
    var a := [35] + text + [10];
    LineLengthAt(a, t, LINE_MAX - 1);
    assert (a + t)[|a|..] == t;
  }

  /** Where the last command of the pieces ends, or `valid` when there is none. */
  function LastEnd(ps: seq<Piece>, from: nat, valid: nat): nat {
    if ps == [] then valid else
    var end := from + |PieceBytes(ps[0])|;
    LastEnd(ps[1..], end, if ps[0].Cmd? then end else valid)
  }

  lemma {:induction false} PiecesLoad(ps: seq<Piece>, total: nat, valid: nat, known: Command -> bool)
    requires PiecesOk(ps) && AllKnown(Commands(ps), known) && |Bytes(ps)| <= total
    ensures Load(Bytes(ps), total, valid, known) ==
            Outcome(Commands(ps), LastEnd(ps, total - |Bytes(ps)|, valid), CleanEof)
    decreases |ps|
  {
    hide Load, PieceBytes, PieceOk, AllKnown;
    if ps == [] {
      LoadNothing(total, valid, known);
    } else {
      var t := Bytes(ps[1..]);
      RestKnown(ps, known);
      if ps[0].Note? {
        NoteLoads(ps[0].text, t, total, valid, known);
        PiecesLoad(ps[1..], total, valid, known);
      } else {
        CommandLoads(ps[0].c, t, total, valid, known);
        PiecesLoad(ps[1..], total, total - |t|, known);
      }
    }
  }

  lemma RestKnown(ps: seq<Piece>, known: Command -> bool)
    requires ps != [] && AllKnown(Commands(ps), known)
    ensures AllKnown(Commands(ps[1..]), known) && (ps[0].Cmd? ==> known(ps[0].c))
  {
    var cs, ds := Commands(ps), Commands(ps[1..]);
    assert cs == (if ps[0].Cmd? then [ps[0].c] else []) + ds;
    assert ps[0].Cmd? ==> cs[0] == ps[0].c;
    assert forall i :: 0 <= i < |ds| ==> ds[i] == cs[i + if ps[0].Cmd? then 1 else 0];
  }

  lemma NoteLoads(text: seq<byte>, t: seq<byte>, total: nat, valid: nat, known: Command -> bool)
    requires PieceOk(Note(text)) && |PieceBytes(Note(text)) + t| <= total
    ensures Load(PieceBytes(Note(text)) + t, total, valid, known) == Load(t, total, valid, known)
  {
    hide Load, ReadItem;
    NoteRead(text, t);
    LoadAnnotation(PieceBytes(Note(text)) + t, total, valid, known);
  }

  lemma CommandLoads(c: Command, t: seq<byte>, total: nat, valid: nat, known: Command -> bool)
    requires PieceOk(Cmd(c)) && known(c) && |PieceBytes(Cmd(c)) + t| <= total
    ensures var o := Load(t, total, total - |t|, known);
            Load(PieceBytes(Cmd(c)) + t, total, valid, known) == o.(executed := [c] + o.executed)
  {
    hide Load, ReadItem, Encode;
    ReadItemOfEncode(c, t);
    LoadItem(Encode(c) + t, total, valid, known);
  }

  /** A file of commands with comment lines anywhere runs exactly the commands, in order, and loads. */
  lemma NotesSkipped(ps: seq<Piece>, cfg: Config, truncateOk: bool, known: Command -> bool)
    requires PiecesOk(ps) && AllKnown(Commands(ps), known) && ps != []
    ensures LoadFile(Bytes(ps), known) == Outcome(Commands(ps), LastEnd(ps, 0, 0), CleanEof)
    ensures Loaded(Bytes(ps), cfg, truncateOk, known) == LoadResult(AofOk, Bytes(ps))
  {
    hide Load, Commands, LastEnd, Encode;
    PiecesLoad(ps, |Bytes(ps)|, 0, known);
    assert Bytes(ps) != [];
  }

  // ---------------------------------------------------------------- what is no command

  /** Headers and arguments of which the next one is broken. */
  lemma {:induction false} ArgsStop(c: Command, more: nat, x: seq<byte>)
    requires (forall i :: 0 <= i < |c| ==> |c[i]| <= LONG_MAX) && more > 0 && !ReadArg(x).Arg?
    ensures ReadArgs(EncodeArgs(c) + x, |c| + more) ==
            match ReadArg(x) case ArgShort => ArgsShort case ArgFormat => ArgsFormat case _ => ArgsAbort
    decreases |c|
  {
    hide ReadArg, EncodeArg;
    if c == [] {
      assert EncodeArgs(c) + x == x;
    } else {
      assert EncodeArgs(c) + x == EncodeArg(c[0]) + (EncodeArgs(c[1..]) + x);
      ReadArgOfEncodeArg(c[0], EncodeArgs(c[1..]) + x);
      ArgsStop(c[1..], more, x);
    }
  }

  /** The start of a command of `|c| + more` arguments, with the first `|c|` of them. */
  function Begun(c: Command, more: nat): seq<byte> {
    [42] + Digits(|c| + more) + [13, 10] + EncodeArgs(c)
  }

  lemma BegunStops(c: Command, more: nat, x: seq<byte>)
    requires (forall i :: 0 <= i < |c| ==> |c[i]| <= LONG_MAX) && more > 0 && |c| + more <= INT_MAX
    requires !ReadArg(x).Arg?
    ensures ReadItem(Begun(c, more) + x) ==
            match ReadArg(x) case ArgShort => ItemShort case ArgFormat => ItemFormat case _ => ItemAbort
  {
    hide ReadArg, EncodeArgs, Digits;
    var h, s := Header(STAR, |c| + more), Begun(c, more) + x;
    assert s == h + (EncodeArgs(c) + x);
    HeaderLine(STAR, |c| + more, EncodeArgs(c) + x);
    assert h[1] == Digits(|c| + more)[0];
    ReadItemCommand(s, |c| + more);
    assert s[|h|..] == EncodeArgs(c) + x;
    ArgsStop(c, more, x);
  }

  /** Bytes that are the start of no command: neither mark, a count below one, or an argument that is
      announced but does not start with `$`. */
  ghost predicate Corrupt(s: seq<byte>) {
    && s != []
    && (|| (s[0] != 35 && s[0] != 42)
        || (exists t: seq<byte> :: s == [42, 48, 13, 10] + t)
        || (exists n: nat, t: seq<byte> :: n <= INT_MAX && s == [42, 45] + Digits(n) + [13, 10] + t)
        || (exists c: Command, more: nat, x: seq<byte> ::
              Unfinished(c, more) && x != [] && x[0] != 36 && s == Begun(c, more) + x))
  }

  predicate Unfinished(c: Command, more: nat) {
    (forall i :: 0 <= i < |c| ==> |c[i]| <= LONG_MAX) && more > 0 && |c| + more <= INT_MAX
  }

  /** A header with a negative number. */
  lemma NegativeLine(mark: byte, n: nat, t: seq<byte>)
    requires mark != LF && n <= LONG_MAX
    ensures var h := [mark, 45] + Digits(n) + [13, 10];
            Line(h + t) == h && Strtol(h[1..]) == 0 - n
  {
    var h := [mark, 45] + Digits(n) + [13, 10];
    LongDigitsLength(n);
    LineLengthAt(h, t, LINE_MAX - 1);
    assert h[1..][1..] == Digits(n) + [13, 10];
    DigitsValueAppend(Digits(n), [13, 10], 0);
    DigitsValueOfDigits(n);
  }

  lemma NegativeCount(n: nat, t: seq<byte>)
    requires n <= INT_MAX
    ensures ReadItem([42, 45] + Digits(n) + [13, 10] + t) == ItemFormat
  {
    NegativeLine(42, n, t);
    hide Digits, Line;
  }

  lemma ZeroCount(t: seq<byte>)
    ensures ReadItem([42, 48, 13, 10] + t) == ItemFormat
  {
    assert Header(42, 0) == [42, 48, 13, 10];
    HeaderLine(42, 0, t);
    hide Digits, Line;
  }

  lemma CorruptItem(s: seq<byte>)
    requires Corrupt(s)
    ensures ReadItem(s) == ItemFormat
  {
    if s[0] != 35 && s[0] != 42 {
    } else if t: seq<byte> :| s == [42, 48, 13, 10] + t {
      ZeroCount(t);
    } else if n: nat, t: seq<byte> :| n <= INT_MAX && s == [42, 45] + Digits(n) + [13, 10] + t {
      NegativeCount(n, t);
    } else {
      var c: Command, more: nat, x: seq<byte> :|
        Unfinished(c, more) && x != [] && x[0] != 36 && s == Begun(c, more) + x;
      BegunStops(c, more, x);
    }
  }

  // ---------------------------------------------------------------- how loading ends

  lemma TailStops(cs: seq<Command>, junk: seq<byte>, cfg: Config, truncateOk: bool, known: Command -> bool)
    requires AllValid(cs) && AllKnown(cs, known) && junk != []
    requires !ReadItem(junk).Annotation? && !(ReadItem(junk).Item? && known(ReadItem(junk).argv))
    ensures var file := EncodeAll(cs) + junk;
            && LoadFile(file, known).executed == cs
            && Loaded(file, cfg, truncateOk, known) ==
               Finish(file, if Tracks(cfg) then |EncodeAll(cs)| else 0, ExitOf(ReadItem(junk)), cfg, truncateOk)
  {
    hide ReadItem, Load, Finish;
    LoadThenStop(cs, junk, |EncodeAll(cs) + junk|, 0, known);
  }

  /** A log and then bytes that start no command: accepted exactly when they are fewer than configured and
      can be cut off, and then nothing else is lost. */
  lemma CorruptBytesRecover(cs: seq<Command>, s: seq<byte>, cfg: Config, truncateOk: bool, known: Command -> bool)
    requires AllValid(cs) && AllKnown(cs, known) && Corrupt(s)
    ensures var file := EncodeAll(cs) + s;
            && LoadFile(file, known).executed == cs
            && Loaded(file, cfg, truncateOk, known) ==
               if truncateOk && |s| < cfg.corruptTailMax then LoadResult(AofBrokenRecovered, EncodeAll(cs))
               else LoadResult(AofFailed, file)
  {
    CorruptItem(s);
    hide Corrupt, ReadItem, Load;
    CorruptTailRecovers(cs, s, cfg, truncateOk, known);
  }

  /** Whatever is configured, a command that does not exist ends loading in failure: the commands before it
      are run, it and what follows are not, and the file is left as it is. */
  lemma UnknownFails(cs: seq<Command>, c: Command, t: seq<byte>, cfg: Config, truncateOk: bool, known: Command -> bool)
    requires AllValid(cs) && AllKnown(cs, known) && Valid(c) && !known(c)
    ensures var file := EncodeAll(cs) + (Encode(c) + t);
            && LoadFile(file, known).executed == cs
            && Loaded(file, cfg, truncateOk, known) == LoadResult(AofFailed, file)
  {
    hide ReadItem, LoadFile, Loaded, Encode, EncodeAll;
    ReadItemOfEncode(c, t);
    TailStops(cs, Encode(c) + t, cfg, truncateOk, known);
  }

  /** So does a line that starts with `*` and a NUL, unless the file ends in it: then it is a short read, and
      is cut off where that is configured. */
  lemma NulStar(cs: seq<Command>, s: seq<byte>, cfg: Config, truncateOk: bool, known: Command -> bool)
    requires AllValid(cs) && AllKnown(cs, known) && |s| >= 2 && s[0] == 42 && s[1] == 0
    ensures var file := EncodeAll(cs) + s;
            && LoadFile(file, known).executed == cs
            && Loaded(file, cfg, truncateOk, known) ==
               if 10 !in s && |s| < 1023 && cfg.loadTruncated && truncateOk then LoadResult(AofTruncated, EncodeAll(cs))
               else LoadResult(AofFailed, file)
  {
    hide ReadItem, LoadFile, Loaded, EncodeAll;
    NulLine(s);
    TailStops(cs, s, cfg, truncateOk, known);
    assert (EncodeAll(cs) + s)[..|EncodeAll(cs)|] == EncodeAll(cs);
  }

  lemma NulLine(s: seq<byte>)
    requires |s| >= 2 && s[0] == 42 && s[1] == 0
    ensures ReadItem(s) == if 10 !in s && |s| < 1023 then ItemShort else ItemIoError
  {
    if 10 !in s && |s| < 1023 {
      LineLengthNone(s, LINE_MAX - 1);
    } else if HitsEof(s) {
      LineLengthLast(s, LINE_MAX - 1);
      assert false;
    }
  }

  /** A line that takes everything has no line feed but its last byte. */
  lemma {:induction false} LineLengthLast(s: seq<byte>, room: nat)
    requires LineLength(s, room) == |s|
    ensures forall i :: 0 <= i < |s| - 1 ==> s[i] != LF
  {
    if s != [] && s[0] != LF { LineLengthLast(s[1..], room - 1); }
  }

  /** A negative length ends the process, and the file is left as it is. */
  lemma NegativeLengthAborts(cs: seq<Command>, c: Command, more: nat, n: nat, t: seq<byte>,
                             cfg: Config, truncateOk: bool, known: Command -> bool)
    requires AllValid(cs) && AllKnown(cs, known) && Unfinished(c, more) && 0 < n <= LONG_MAX
    ensures var file := EncodeAll(cs) + (Begun(c, more) + ([36, 45] + Digits(n) + [13, 10] + t));
            && LoadFile(file, known).executed == cs
            && Loaded(file, cfg, truncateOk, known) == LoadResult(AofAbort, file)
  {
    hide ReadItem, LoadFile, Loaded, EncodeAll, Digits;
    var x := [36, 45] + Digits(n) + [13, 10] + t;
    NegativeArg(n, t);
    BegunStops(c, more, x);
    TailStops(cs, Begun(c, more) + x, cfg, truncateOk, known);
  }

  lemma NegativeArg(n: nat, t: seq<byte>)
    requires 0 < n <= LONG_MAX
    ensures ReadArg([36, 45] + Digits(n) + [13, 10] + t) == ArgAbort
  {
    NegativeLine(36, n, t);
    hide Digits, Line;
  }
}
