/** What each ACL operation on commands does, byte for byte and bit for bit, and which are accepted. */
module AclEffects {
  import opened Decimal
  import opened Options
  import opened AclString
  import opened AclRules
  import opened AclSelector
  import opened AclReplay

  // ---------------------------------------------------------------- names

  /** The same letters in upper or lower case, and otherwise the same bytes. */
  ghost predicate SameLetters(a: Bytes, b: Bytes) {
    |a| == |b| && forall i :: 0 <= i < |a| ==>
      || a[i] == b[i] || (65 <= a[i] <= 90 && b[i] as int == a[i] as int + 32)
      || (65 <= b[i] <= 90 && a[i] as int == b[i] as int + 32)
  }

  lemma IgnoreCaseIs(a: Bytes, b: Bytes)
    ensures EqualsIgnoreCase(a, b) <==> SameLetters(a, b)
  {
  }

  /** The command, subcommand or category of this number is the first of this name. */
  ghost predicate Names(t: Table, name: Bytes, k: nat) {
    && k < |t.commands| && SameLetters(t.commands[k].name, name)
    && forall j :: 0 <= j < k ==> !SameLetters(t.commands[j].name, name)
  }

  ghost predicate NamesSub(c: Command, name: Bytes, k: nat) {
    && k < |c.subs| && SameLetters(c.subs[k].name, name)
    && forall j :: 0 <= j < k ==> !SameLetters(c.subs[j].name, name)
  }

  ghost predicate NamesCategory(t: Table, name: Bytes, k: nat) {
    && k < |t.categories| && SameLetters(t.categories[k], name)
    && forall j :: 0 <= j < k ==> !SameLetters(t.categories[j], name)
  }

  lemma {:induction false} CommandFound(cs: seq<Command>, name: Bytes, k: nat)
    requires k < |cs| && SameLetters(cs[k].name, name) && forall j :: 0 <= j < k ==> !SameLetters(cs[j].name, name)
    ensures FindCommand(cs, name) == Some(cs[k])
  {
    hide EqualsIgnoreCase, SameLetters;
    IgnoreCaseIs(cs[0].name, name);
    if k > 0 { CommandFound(cs[1..], name, k - 1); }
  }

  lemma {:induction false} CommandHas(cs: seq<Command>, name: Bytes) returns (k: nat)
    requires FindCommand(cs, name).Some?
    ensures k < |cs| && SameLetters(cs[k].name, name) && forall j :: 0 <= j < k ==> !SameLetters(cs[j].name, name)
  {
    hide EqualsIgnoreCase, SameLetters;
    IgnoreCaseIs(cs[0].name, name);
    if SameLetters(cs[0].name, name) {
      k := 0;
    } else {
      var i := CommandHas(cs[1..], name);
      k := i + 1;
    }
  }

  lemma {:induction false} SubFound(ss: seq<Sub>, name: Bytes, k: nat)
    requires k < |ss| && SameLetters(ss[k].name, name) && forall j :: 0 <= j < k ==> !SameLetters(ss[j].name, name)
    ensures FindSub(ss, name) == Some(ss[k])
  {
    hide EqualsIgnoreCase, SameLetters;
    IgnoreCaseIs(ss[0].name, name);
    if k > 0 { SubFound(ss[1..], name, k - 1); }
  }

  lemma {:induction false} SubHas(ss: seq<Sub>, name: Bytes) returns (k: nat)
    requires FindSub(ss, name).Some?
    ensures k < |ss| && SameLetters(ss[k].name, name) && forall j :: 0 <= j < k ==> !SameLetters(ss[j].name, name)
  {
    hide EqualsIgnoreCase, SameLetters;
    IgnoreCaseIs(ss[0].name, name);
    if SameLetters(ss[0].name, name) {
      k := 0;
    } else {
      var i := SubHas(ss[1..], name);
      k := i + 1;
    }
  }

  lemma {:induction false} CategoryFound(t: Table, i: nat, name: Bytes, k: nat)
    requires i <= k && NamesCategory(t, name, k)
    ensures FindCategory(t.categories, i, name) == Some(k)
    decreases k - i
  {
    hide EqualsIgnoreCase, SameLetters;
    IgnoreCaseIs(t.categories[i], name);
    if i < k { CategoryFound(t, i + 1, name, k); }
  }

  lemma {:induction false} CategoryHas(t: Table, i: nat, name: Bytes)
    requires FindCategory(t.categories, i, name).Some?
    requires i <= |t.categories| && forall j :: 0 <= j < i ==> !SameLetters(t.categories[j], name)
    ensures NamesCategory(t, name, FindCategory(t.categories, i, name).value)
    decreases |t.categories| - i
  {
    hide EqualsIgnoreCase, SameLetters;
    IgnoreCaseIs(t.categories[i], name);
    if !SameLetters(t.categories[i], name) { CategoryHas(t, i + 1, name); }
  }

  // ---------------------------------------------------------------- the forms of an operation

  /** `allcommands` or `+@all`; `nocommands` or `-@all`. */
  ghost predicate SaysAll(op: Bytes) {
    SameLetters(op, [97, 108, 108, 99, 111, 109, 109, 97, 110, 100, 115]) || SameLetters(op, [43, 64, 97, 108, 108])
  }

  ghost predicate SaysNone(op: Bytes) {
    SameLetters(op, [110, 111, 99, 111, 109, 109, 97, 110, 100, 115]) || SameLetters(op, [45, 64, 97, 108, 108])
  }

  predicate Signed(op: Bytes) {
    |op| > 1 && (op[0] == 43 || op[0] == 45)
  }

  /** `+command` or `-command`. */
  ghost predicate SaysCommand(t: Table, op: Bytes, k: nat) {
    Signed(op) && op[1] != 64 && 124 !in op[1..] && Names(t, op[1..], k)
  }

  /** The only bar of the operation stands at `b`, behind the name of a command. */
  ghost predicate SplitsAt(t: Table, op: Bytes, b: nat, k: nat) {
    && Signed(op) && op[1] != 64 && 1 <= b < |op| && op[b] == 124 && 124 !in op[1..b] && 124 !in op[b + 1..]
    && Names(t, op[1..b], k)
  }

  /** `+command|subcommand` or `-command|subcommand`. */
  ghost predicate SaysSub(t: Table, op: Bytes, b: nat, k: nat, j: nat) {
    SplitsAt(t, op, b, k) && t.commands[k].subs != [] && NamesSub(t.commands[k], op[b + 1..], j)
  }

  /** `+command|argument`, for a command without subcommands. */
  ghost predicate SaysArg(t: Table, op: Bytes, b: nat, k: nat) {
    SplitsAt(t, op, b, k) && op[0] == 43 && t.commands[k].subs == [] && b + 1 < |op|
  }

  /** `+@category` or `-@category`. */
  ghost predicate SaysCategory(t: Table, op: Bytes, k: nat) {
    Signed(op) && op[1] == 64 && NamesCategory(t, op[2..], k)
  }

  lemma SaysAllIs(op: Bytes)
    ensures SaysAll(op) <==> EqualsIgnoreCase(op, ALLCOMMANDS) || EqualsIgnoreCase(op, [PLUS, AT] + ALL)
    ensures SaysNone(op) <==> EqualsIgnoreCase(op, NOCOMMANDS) || EqualsIgnoreCase(op, [MINUS, AT] + ALL)
  {
    assert [PLUS, AT] + ALL == [43, 64, 97, 108, 108] && [MINUS, AT] + ALL == [45, 64, 97, 108, 108];
    hide EqualsIgnoreCase, SameLetters;
    IgnoreCaseIs(op, [97, 108, 108, 99, 111, 109, 109, 97, 110, 100, 115]);
    IgnoreCaseIs(op, [43, 64, 97, 108, 108]);
    IgnoreCaseIs(op, [110, 111, 99, 111, 109, 109, 97, 110, 100, 115]);
    IgnoreCaseIs(op, [45, 64, 97, 108, 108]);
  }

  /** The words for everything and for nothing are different. */
  lemma NotBoth(op: Bytes)
    ensures !(SaysAll(op) && SaysNone(op))
  {
    assert SaysAll(op) ==> op != [] && (op[0] == 97 || op[0] == 65 || op[0] == 43);
    assert SaysNone(op) ==> op != [] && (op[0] == 110 || op[0] == 78 || op[0] == 45);
  }

  /** In any case: the words for everything leave every bit and the flag set, those for nothing leave
      none; no first arguments and no logged rules are left. */
  lemma ResetWords(t: Table, s: Selector, op: Bytes, v: bool)
    requires if v then SaysAll(op) else SaysNone(op)
    ensures var r := Set(t, s, op);
            && |r.bits| == |s.bits| && (forall i :: 0 <= i < |r.bits| ==> r.bits[i] == v) && r.all == v
            && |r.firstArgs| == |s.firstArgs| && (forall i :: 0 <= i < |r.firstArgs| ==> r.firstArgs[i] == [])
            && r.rules == []
  {
    NotBoth(op);
    SaysAllIs(op);
    hide EqualsIgnoreCase, SaysAll, SaysNone;
  }

  // ---------------------------------------------------------------- what is parsed

  lemma CommandParses(t: Table, op: Bytes, k: nat)
    requires SaysCommand(t, op, k)
    ensures Parse(t, op).Some? && Parse(t, op).value.Perm?
    ensures Parse(t, op).value.target == Top(t.commands[k]) && Parse(t, op).value.allow == (op[0] == 43)
  {
    var body := op[1..];
    SaysAllIs(op);
    CommandFound(t.commands, body, k);
    BarAtIs(body, |body|);
    LastBarNone(body);
    hide EqualsIgnoreCase, FindCommand, FullName, LowerAll;
  }

  /** The parts of a body with one bar. */
  lemma SplitParts(t: Table, op: Bytes, b: nat, k: nat)
    requires SplitsAt(t, op, b, k)
    ensures var body := op[1..];
            && BarAt(body) == LastBar(body) == b - 1 && body[..b - 1] == op[1..b] && body[b..] == op[b + 1..]
            && FindCommand(t.commands, op[1..b]) == Some(t.commands[k])
  {
    var body := op[1..];
    assert body[..b - 1] == op[1..b] && body[b..] == op[b + 1..];
    BarAtIs(body, b - 1);
    LastBarIs(body, b - 1);
    CommandFound(t.commands, op[1..b], k);
  }

  lemma NotResetWord(op: Bytes)
    requires Signed(op) && op[1] != 64
    ensures !SaysAll(op) && !SaysNone(op)
  {
  }

  lemma SubParses(t: Table, op: Bytes, b: nat, k: nat, j: nat)
    requires TableOk(t) && SaysSub(t, op, b, k, j)
    ensures Parse(t, op).Some? && Parse(t, op).value.Perm?
    ensures var c := t.commands[k];
            Parse(t, op).value.target == Under(c, c.subs[j]) && Parse(t, op).value.allow == (op[0] == 43)
  {
    NotResetWord(op);
    SaysAllIs(op);
    SplitParts(t, op, b, k);
    SubFound(t.commands[k].subs, op[b + 1..], j);
    FrontFound(t, op, b, k);
    hide EqualsIgnoreCase, FindCommand, FindSub, FullName, LowerAll, SaysAll, SaysNone, TableOk;
  }

  lemma FrontFound(t: Table, op: Bytes, b: nat, k: nat)
    requires TableOk(t) && SplitsAt(t, op, b, k)
    ensures Lookup(t, op[1..b]) == Some(Top(t.commands[k]))
  {
    CommandFound(t.commands, op[1..b], k);
    BarAtIs(op[1..b], b - 1);
    assert CommandOk(t, t.commands[k]);
  }

  lemma ArgParses(t: Table, op: Bytes, b: nat, k: nat)
    requires TableOk(t) && SaysArg(t, op, b, k)
    ensures Parse(t, op).Some? && Parse(t, op).value.Arg?
    ensures Parse(t, op).value.id == t.commands[k].id && Parse(t, op).value.arg == op[b + 1..]
  {
    NotResetWord(op);
    SaysAllIs(op);
    SplitParts(t, op, b, k);
    FrontFound(t, op, b, k);
    hide EqualsIgnoreCase, FindCommand, FindSub, FullName, LowerAll, SaysAll, SaysNone, TableOk;
  }

  lemma CategoryParses(t: Table, op: Bytes, k: nat)
    requires TableOk(t) && SaysCategory(t, op, k)
    ensures Parse(t, op).Some? && Parse(t, op).value.Cat?
    ensures Parse(t, op).value.cat == k && Parse(t, op).value.allow == (op[0] == 43)
  {
    CategoryFound(t, 0, op[2..], k);
    if SaysAll(op) || SaysNone(op) {
      assert SameLetters(op[2..], ALL);
      IgnoreCaseIs(op[2..], ALL);
      LowerSame(op[2..], ALL);
      FindCategoryLower(t.categories, 0, op[2..], ALL);
      assert false;
    }
    SaysAllIs(op);
    hide EqualsIgnoreCase, FindCategory, LowerAll, SaysAll, SaysNone;
  }

  // ---------------------------------------------------------------- what is changed

  lemma {:induction false} SubIdsAre(ss: seq<Sub>, i: nat)
    ensures i in SubIds(ss) <==> exists j :: 0 <= j < |ss| && ss[j].id == i
  {
    if ss != [] {
      SubIdsAre(ss[1..], i);
      if j :| 0 <= j < |ss| && ss[j].id == i { assert j == 0 || ss[1..][j - 1].id == i; }
      if j :| 0 <= j < |ss[1..]| && ss[1..][j].id == i { assert ss[j + 1].id == i; }
    }
  }

  lemma {:induction false} CatSubIdsAre(ss: seq<Sub>, cat: nat, i: nat)
    ensures i in CatSubIds(ss, cat) <==> exists j :: 0 <= j < |ss| && cat in ss[j].cats && ss[j].id == i
  {
    if ss != [] {
      CatSubIdsAre(ss[1..], cat, i);
      if j :| 0 <= j < |ss| && cat in ss[j].cats && ss[j].id == i { assert j == 0 || ss[1..][j - 1].id == i; }
      if j :| 0 <= j < |ss[1..]| && cat in ss[1..][j].cats && ss[1..][j].id == i { assert ss[j + 1].id == i; }
    }
  }

  /** A command and everything under it. */
  ghost predicate Covered(c: Command, i: nat) {
    c.id == i || exists j :: 0 <= j < |c.subs| && c.subs[j].id == i
  }

  /** What a category reaches in a command: all of it when the command is of the category, and the
      subcommands that are. */
  ghost predicate Reached(c: Command, cat: nat, i: nat) {
    || (cat in c.cats && Covered(c, i))
    || exists j :: 0 <= j < |c.subs| && cat in c.subs[j].cats && c.subs[j].id == i
  }

  lemma {:induction false} CatFootIs(cs: seq<Command>, cat: nat, i: nat)
    ensures i in CatFoot(cs, cat) <==> exists k :: 0 <= k < |cs| && Reached(cs[k], cat, i)
  {
    hide Reached;
    if cs != [] {
      CatFootIs(cs[1..], cat, i);
      assert Reached(cs[0], cat, i) <==> i in (if cat in cs[0].cats then Foot(cs[0]) else {}) + CatSubIds(cs[0].subs, cat) by {
        ReachedIs(cs[0], cat, i);
      }
      if k :| 0 <= k < |cs| && Reached(cs[k], cat, i) { assert k == 0 || Reached(cs[1..][k - 1], cat, i); }
      if k :| 0 <= k < |cs[1..]| && Reached(cs[1..][k], cat, i) { assert Reached(cs[k + 1], cat, i); }
    }
  }

  lemma ReachedIs(c: Command, cat: nat, i: nat)
    ensures Reached(c, cat, i) <==> i in (if cat in c.cats then Foot(c) else {}) + CatSubIds(c.subs, cat)
  {
    SubIdsAre(c.subs, i);
    CatSubIdsAre(c.subs, cat, i);
    hide SubIds, CatSubIds;
  }

  lemma {:induction false} CatTopsAre(cs: seq<Command>, cat: nat, i: nat)
    ensures i in CatTops(cs, cat) <==> exists k :: 0 <= k < |cs| && cat in cs[k].cats && cs[k].id == i
  {
    if cs != [] {
      CatTopsAre(cs[1..], cat, i);
      if k :| 0 <= k < |cs| && cat in cs[k].cats && cs[k].id == i { assert k == 0 || cs[1..][k - 1].id == i; }
      if k :| 0 <= k < |cs[1..]| && cat in cs[1..][k].cats && cs[1..][k].id == i { assert cs[k + 1].id == i; }
    }
  }

  /** A selector as every run leaves it: of full size, and only commands have first arguments. */
  ghost predicate Sized(t: Table, s: Selector) {
    |s.bits| == BITS == |s.firstArgs| && ArgsTop(t, s)
  }

  lemma {:induction false} MarkSubsAll(s: Selector, ss: seq<Sub>, v: bool)
    requires |s.bits| == BITS
    ensures MarkSubs(s, ss, v).all ==> s.all
    ensures v ==> MarkSubs(s, ss, v).all == s.all
    ensures |MarkSubs(s, ss, v).bits| == BITS && MarkSubs(s, ss, v).firstArgs == s.firstArgs
    decreases |ss|
  {
    if ss != [] { MarkSubsAll(Mark(s, ss[0].id, v), ss[1..], v); }
  }

  lemma ChangeAll(s: Selector, x: Target, v: bool)
    requires |s.bits| == BITS && (if x.Top? then x.c.id else x.sub.id) < BITS
    ensures Change(s, x, v).all == (s.all && v) && |Change(s, x, v).bits| == BITS
  {
    if x.Top? { MarkSubsAll(DropArgs(Mark(s, x.c.id, v), x.c.id), x.c.subs, v); }
    hide MarkSubs;
  }

  lemma {:induction false} CatSubsAll(s: Selector, c: Command, ss: seq<Sub>, cat: nat, v: bool)
    requires |s.bits| == BITS && forall j :: 0 <= j < |ss| ==> ss[j].id < BITS
    ensures ChangeCatSubs(s, c, ss, cat, v).all == (s.all && (v || CatSubIds(ss, cat) == {}))
    ensures |ChangeCatSubs(s, c, ss, cat, v).bits| == BITS
    decreases |ss|
  {
    hide Change;
    if ss != [] {
      ChangeAll(s, Under(c, ss[0]), v);
      CatSubsAll(if cat in ss[0].cats then Change(s, Under(c, ss[0]), v) else s, c, ss[1..], cat, v);
      assert cat in ss[0].cats ==> ss[0].id in CatSubIds(ss, cat);
    }
  }

  lemma {:induction false} CatAll(t: Table, s: Selector, cs: seq<Command>, cat: nat, v: bool)
    requires |s.bits| == BITS && forall k :: 0 <= k < |cs| ==> CommandOk(t, cs[k])
    ensures ChangeCat(s, cs, cat, v).all == (s.all && (v || CatFoot(cs, cat) == {}))
    decreases |cs|
  {
    hide Change, ChangeCatSubs, CatSubIds, SubIds;
    if cs != [] {
      var c := cs[0];
      assert CommandOk(t, c);
      ChangeAll(s, Top(c), v);
      var s1 := if cat in c.cats then Change(s, Top(c), v) else s;
      CatSubsAll(s1, c, c.subs, cat, v);
      CatAll(t, ChangeCatSubs(s1, c, c.subs, cat, v), cs[1..], cat, v);
      assert cat in c.cats ==> c.id in CatFoot(cs, cat);
    }
  }

  /** `+command` and `-command` set or clear the bits of the command and of its subcommands and drop
      the command's first arguments; nothing else changes, and a denial clears the flag. */
  lemma CommandEffect(t: Table, s: Selector, op: Bytes, k: nat)
    requires TableOk(t) && Sized(t, s) && SaysCommand(t, op, k)
    ensures var c, r := t.commands[k], Set(t, s, op);
            && |r.bits| == BITS == |r.firstArgs|
            && (forall i: nat :: i < BITS ==> r.bits[i] == if Covered(c, i) then op[0] == 43 else s.bits[i])
            && (forall i: nat :: i < BITS ==> r.firstArgs[i] == if i == c.id then [] else s.firstArgs[i])
            && r.all == (s.all && op[0] == 43)
  {
    CommandParses(t, op, k);
    var c, v := t.commands[k], op[0] == 43;
    assert CommandOk(t, c);
    ChangeTopIs(t, s, c, v);
    ChangeAll(s, Top(c), v);
    hide Parse, SaysCommand, TableOk, Change, SubIds, Joined, RulesOf, Updated;
    forall i: nat
      ensures i in Foot(c) <==> Covered(c, i)
    {
      SubIdsAre(c.subs, i);
    }
  }

  /** `+command|subcommand` and `-command|subcommand` set or clear that one bit. */
  lemma SubEffect(t: Table, s: Selector, op: Bytes, b: nat, k: nat, j: nat)
    requires TableOk(t) && Sized(t, s) && SaysSub(t, op, b, k, j)
    ensures var id, r := t.commands[k].subs[j].id, Set(t, s, op);
            && id < BITS && r.bits == s.bits[id := op[0] == 43] && r.firstArgs == s.firstArgs
            && r.all == (s.all && op[0] == 43)
  {
    SubParses(t, op, b, k, j);
    var c := t.commands[k];
    assert CommandOk(t, c);
    ChangeUnderIs(t, s, c, c.subs[j], op[0] == 43);
    hide Parse, SaysSub, TableOk, Joined, RulesOf, Updated;
  }

  /** `+command|argument` adds the argument to the end of the command's list unless the list has it, in
      any case, and leaves the bits, the flag and all other lists. */
  lemma ArgEffect(t: Table, s: Selector, op: Bytes, b: nat, k: nat)
    requires TableOk(t) && Sized(t, s) && SaysArg(t, op, b, k)
    ensures var id, a, r := t.commands[k].id, op[b + 1..], Set(t, s, op);
            && id < BITS && r.bits == s.bits && r.all == s.all
            && r.firstArgs == if exists i :: 0 <= i < |s.firstArgs[id]| && SameLetters(s.firstArgs[id][i], a) then s.firstArgs
                              else s.firstArgs[id := s.firstArgs[id] + [a]]
  {
    ArgParses(t, op, b, k);
    assert CommandOk(t, t.commands[k]);
    var id, a := t.commands[k].id, op[b + 1..];
    hide Parse, SaysArg, TableOk, Joined, RulesOf, Updated, SameLetters, EqualsIgnoreCase;
    forall i | 0 <= i < |s.firstArgs[id]|
      ensures EqualsIgnoreCase(s.firstArgs[id][i], a) <==> SameLetters(s.firstArgs[id][i], a)
    {
      IgnoreCaseIs(s.firstArgs[id][i], a);
    }
  }

  /** `+@category` and `-@category` set or clear the bits the category reaches and drop the first arguments
      of its commands; a denial that reaches anything clears the flag. */
  lemma CategoryEffect(t: Table, s: Selector, op: Bytes, k: nat)
    requires TableOk(t) && Sized(t, s) && SaysCategory(t, op, k)
    ensures var cs, v, r := t.commands, op[0] == 43, Set(t, s, op);
            && |r.bits| == BITS == |r.firstArgs|
            && (forall i: nat :: i < BITS ==>
                 r.bits[i] == if exists n :: 0 <= n < |cs| && Reached(cs[n], k, i) then v else s.bits[i])
            && (forall i: nat :: i < BITS ==>
                 r.firstArgs[i] == if exists n :: 0 <= n < |cs| && k in cs[n].cats && cs[n].id == i then [] else s.firstArgs[i])
            && (r.all <==> s.all && (v || forall i: nat, n :: 0 <= n < |cs| ==> !Reached(cs[n], k, i)))
  {
    CategoryParses(t, op, k);
    var cs, v, a := t.commands, op[0] == 43, Parse(t, op).value;
    ParseRule(t, op);
    var m := AddRule(s, a.rule);
    ChangeCatIs(t, m, cs, k, v);
    CatAll(t, m, cs, k, v);
    hide Parse, SaysCategory, TableOk, Joined, RulesOf, Updated, ChangeCat, CatFoot, CatTops, Reached;
    forall i: nat
      ensures i in CatFoot(cs, k) <==> exists n :: 0 <= n < |cs| && Reached(cs[n], k, i)
      ensures i in CatTops(cs, k) <==> exists n :: 0 <= n < |cs| && k in cs[n].cats && cs[n].id == i
    {
      CatFootIs(cs, k, i);
      CatTopsAre(cs, k, i);
    }
  }

  // ---------------------------------------------------------------- what is accepted

  ghost predicate Accepted(t: Table, op: Bytes) {
    || SaysAll(op) || SaysNone(op)
    || (exists k: nat :: SaysCommand(t, op, k))
    || (exists b: nat, k: nat, j: nat :: SaysSub(t, op, b, k, j))
    || (exists b: nat, k: nat :: SaysArg(t, op, b, k))
    || (exists k: nat :: SaysCategory(t, op, k))
  }

  /** A body that the lookup finds is the name of a command, or of a command and one of its subcommands. */
  lemma LookupSays(t: Table, op: Bytes)
    requires Signed(op) && op[1] != 64 && Lookup(t, op[1..]).Some?
    ensures Accepted(t, op)
  {
    hide SaysAll, SaysNone, SaysArg, SaysCategory, FindCommand, FindSub, SameLetters;
    var body := op[1..];
    var i := BarAt(body);
    if i == |body| {
      var k := CommandHas(t.commands, body);
      assert body[..i] == body;
      assert SaysCommand(t, op, k);
    } else {
      var k := CommandHas(t.commands, body[..i]);
      CommandFound(t.commands, body[..i], k);
      var j := SubHas(t.commands[k].subs, body[i + 1..]);
      assert body[..i] == op[1..i + 1] && body[i + 1..] == op[i + 2..];
      assert SaysSub(t, op, i + 1, k, j);
    }
  }

  lemma AllowSays(t: Table, op: Bytes)
    requires Signed(op) && op[0] == 43 && op[1] != 64 && ParseAllow(t, op[1..]).Some?
    ensures Accepted(t, op)
  {
    var body := op[1..];
    var i := LastBar(body);
    if Lookup(t, body).Some? {
      LookupSays(t, op);
    } else {
      OneBar(t, body);
      assert body[..i] == op[1..i + 1] && body[i + 1..] == op[i + 2..];
      hide Lookup, FindCommand, SameLetters;
      var k := CommandHas(t.commands, body[..i]);
      CommandFound(t.commands, body[..i], k);
      assert SaysArg(t, op, i + 1, k);
    }
  }

  /** An operation on commands is accepted exactly when it is one of the reset words or a sign and: a
      command; a command with subcommands, a bar and one of them; for `+` a command without
      subcommands, a bar and an argument; or `@` and a category. Anything else changes nothing. */
  lemma AcceptedIff(t: Table, s: Selector, op: Bytes)
    requires TableOk(t)
    ensures Parse(t, op).Some? <==> Accepted(t, op)
    ensures !Accepted(t, op) ==> Set(t, s, op) == s
  {
    hide Accepted;
    if Accepted(t, op) { AcceptedParses(t, op); }
    if Parse(t, op).Some? { ParsedSays(t, op); }
  }

  lemma ParsedSays(t: Table, op: Bytes)
    requires Parse(t, op).Some?
    ensures Accepted(t, op)
  {
    SaysAllIs(op);
    hide SameLetters, EqualsIgnoreCase, ParseAllow, Lookup, FindCategory;
    if !SaysAll(op) && !SaysNone(op) {
      EmptyBody(t);
      if |op| > 1 && op[1] == AT {
        CategoryHas(t, 0, op[2..]);
        assert SaysCategory(t, op, FindCategory(t.categories, 0, op[2..]).value);
      } else if op[0] == PLUS {
        AllowSays(t, op);
      } else {
        LookupSays(t, op);
      }
    }
  }

  lemma EmptyBody(t: Table)
    ensures Lookup(t, []).None? && ParseAllow(t, []).None?
  {
  }

  lemma AcceptedParses(t: Table, op: Bytes)
    requires TableOk(t) && Accepted(t, op)
    ensures Parse(t, op).Some?
  {
    hide Parse, SaysAll, SaysNone, SaysCommand, SaysSub, SaysArg, SaysCategory, TableOk;
    if SaysAll(op) || SaysNone(op) {
      assert Parse(t, op).Some? by { ResetParses(t, op); }
    } else if k: nat :| SaysCommand(t, op, k) {
      CommandParses(t, op, k);
    } else if b: nat, k: nat, j: nat :| SaysSub(t, op, b, k, j) {
      SubParses(t, op, b, k, j);
    } else if b: nat, k: nat :| SaysArg(t, op, b, k) {
      ArgParses(t, op, b, k);
    } else {
      var k: nat :| SaysCategory(t, op, k);
      CategoryParses(t, op, k);
    }
  }

  lemma ResetParses(t: Table, op: Bytes)
    requires SaysAll(op) || SaysNone(op)
    ensures Parse(t, op).Some?
  {
    SaysAllIs(op);
    hide EqualsIgnoreCase, SaysAll, SaysNone;
  }
}
