/** The rule log of a selector always replays to the selector. */
module AclReplay {
  import opened Decimal
  import opened Options
  import opened AclString
  import opened AclRules
  import opened AclSelector
  import SplitArgs

  // ---------------------------------------------------------------- logged rules parse back

  lemma LastBarNone(body: Bytes)
    requires BarAt(body) == |body|
    ensures LastBar(body) == |body|
  {
    assert body[..|body|] == body;
  }

  lemma LastBarIs(body: Bytes, i: nat)
    requires i < |body| && body[i] == BAR && BAR !in body[i + 1..]
    ensures LastBar(body) == i
  {
    hide LastBar;
    var j := LastBar(body);
    assert body[i] in body;
    forall k | i < k < |body|
      ensures body[k] != BAR
    {
      Later(body, i, k);
    }
    forall k | j < k < |body|
      ensures body[k] != BAR
    {
      Later(body, j, k);
    }
  }

  lemma Later(s: Bytes, i: nat, j: nat)
    requires i < j < |s|
    ensures s[j] in s[i + 1..]
  {
    assert s[i + 1..][j - i - 1] == s[j];
  }

  lemma LastBarOne(body: Bytes)
    requires BarAt(body) < |body| && BAR !in body[BarAt(body) + 1..]
    ensures LastBar(body) == BarAt(body)
    ensures BarAt(body[..BarAt(body)]) == BarAt(body)
  {
    hide BarAt, LastBar;
    var i := BarAt(body);
    LastBarIs(body, i);
    assert body[..i][..i] == body[..i];
    BarAtIs(body[..i], i);
  }

  lemma NoEmptySub(ss: seq<Sub>)
    requires forall j :: 0 <= j < |ss| ==> ss[j].name != []
    ensures FindSub(ss, []).None?
  {
    if ss != [] { NoEmptySub(ss[1..]); }
  }

  lemma TableCommand(t: Table, c: Command)
    requires TableOk(t) && c in t.commands
    ensures CommandOk(t, c)
  {
    var k :| 0 <= k < |t.commands| && t.commands[k] == c;
  }

  lemma AllowAgain(t: Table, body: Bytes)
    requires TableOk(t) && Meaning(t, body).Some? && body[0] != AT
    ensures ParseAllow(t, body).Some?
  {
    hide FindCommand, CommandOk;
    var i := BarAt(body);
    if i == |body| {
      LastBarNone(body);
    } else {
      assert BAR !in body[i + 1..];
      LastBarOne(body);
      var f := body[..i];
      FoundIt(t, body, i);
      if f == [] {
        EmptyName(t);
      }
    }
  }

  lemma FoundIt(t: Table, body: Bytes, i: nat)
    requires TableOk(t) && i < |body| && i == BarAt(body) && Meaning(t, body).Some? && body[0] != AT
    ensures FindCommand(t.commands, body[..i]).Some?
    ensures FindCommand(t.commands, body[..i]).value.subs != [] ==> Lookup(t, body).Some?
    ensures i + 1 < |body|
  {
    hide CommandOk;
    var c := FindCommand(t.commands, body[..i]).value;
    if c.subs != [] && i + 1 == |body| {
      assert body[i + 1..] == [];
      FoundCommand(t.commands, body[..i]);
      SubsNamed(t, c);
      NoEmptySub(c.subs);
    }
  }

  lemma SubsNamed(t: Table, c: Command)
    requires TableOk(t) && c in t.commands
    ensures forall j :: 0 <= j < |c.subs| ==> c.subs[j].name != []
  {
    TableCommand(t, c);
  }

  /** No command has an empty name. */
  lemma EmptyName(t: Table)
    requires TableOk(t)
    ensures FindCommand(t.commands, []).None?
  {
    if FindCommand(t.commands, []).Some? {
      FoundCommand(t.commands, []);
      TableCommand(t, FindCommand(t.commands, []).value);
    }
  }

  /** Every rule of the log is an operation that succeeds, does what it means and logs itself. */
  lemma RuleParses(t: Table, r: Bytes)
    requires TableOk(t) && RuleOk(t, r)
    ensures var p := Parse(t, r);
            && p.Some? && !p.value.Reset? && p.value.rule == r
            && (Allows(p.value) <==> r[0] == PLUS) && MeanOf(t, p.value) == Meaning(t, r[1..]).value
  {
    hide Meaning, CommandOk;
    NotReset(t, r);
    RuleParsesSome(t, r);
    ParseMeaning(t, r);
    assert Rule(r[0], r[1..]) == r;
  }

  lemma NotReset(t: Table, r: Bytes)
    requires TableOk(t) && RuleOk(t, r)
    ensures !EqualsIgnoreCase(r, ALLCOMMANDS) && !EqualsIgnoreCase(r, NOCOMMANDS)
    ensures !EqualsIgnoreCase(r, [PLUS, AT] + ALL) && !EqualsIgnoreCase(r, [MINUS, AT] + ALL)
  {
    hide CommandOk, Lookup, FirstArg, CatFoot, CatTops;
    if EqualsIgnoreCase(r, [PLUS, AT] + ALL) || EqualsIgnoreCase(r, [MINUS, AT] + ALL) {
      assert r[1..][1..] == r[2..];
      assert Lower(r[1]) == Lower(AT) == AT;
      assert EqualsIgnoreCase(r[2..], ALL);
      LowerSame(r[2..], ALL);
      FindCategoryLower(t.categories, 0, r[2..], ALL);
    }
  }

  lemma RuleParsesSome(t: Table, r: Bytes)
    requires TableOk(t) && RuleOk(t, r)
    requires !EqualsIgnoreCase(r, ALLCOMMANDS) && !EqualsIgnoreCase(r, NOCOMMANDS)
    requires !EqualsIgnoreCase(r, [PLUS, AT] + ALL) && !EqualsIgnoreCase(r, [MINUS, AT] + ALL)
    ensures Parse(t, r).Some? && !Parse(t, r).value.Reset?
  {
    hide CommandOk, EqualsIgnoreCase, ParseAllow, CatFoot, CatTops;
    var body := r[1..];
    assert body != [];
    if body[0] == AT {
      assert r[2..] == body[1..];
    } else if r[0] == PLUS {
      AllowAgain(t, body);
      AllowMeaning(t, body);
    } else {
      assert Lookup(t, body).Some?;
    }
  }

  // ---------------------------------------------------------------- operations have their meaning

  ghost predicate BitsAre(s: Selector, bits: set<nat>) {
    && |s.bits| == BITS
    && (forall i :: 0 <= i < BITS ==> (s.bits[i] <==> i in bits))
    && (forall i :: i in bits ==> i < BITS)
  }

  predicate HasArg(args: seq<Bytes>, a: Bytes) {
    exists j :: 0 <= j < |args| && LowerAll(args[j]) == a
  }

  ghost predicate ArgsAre(s: Selector, args: set<(nat, Bytes)>) {
    && |s.firstArgs| == BITS
    && (forall p :: p in args <==> p.0 < BITS && HasArg(s.firstArgs[p.0], p.1))
  }

  /** Only commands, not subcommands, have first arguments. */
  ghost predicate ArgsTop(t: Table, s: Selector) {
    forall i :: 0 <= i < |s.firstArgs| && s.firstArgs[i] != [] ==> IsTop(t, i)
  }

  /** The selector grants exactly the effect; first arguments up to case and order. */
  ghost predicate Grants(t: Table, s: Selector, e: Effect) {
    BitsAre(s, e.bits) && ArgsAre(s, e.args) && ArgsTop(t, s)
  }

  /** What setting bits does, bit by bit. */
  ghost predicate BitsChanged(s: Selector, r: Selector, ids: set<nat>, v: bool) {
    && |s.bits| == |r.bits| == BITS
    && (forall i :: 0 <= i < BITS ==> r.bits[i] == if i in ids then v else s.bits[i])
  }

  lemma {:induction false} MarkSubsBits(s: Selector, ss: seq<Sub>, v: bool)
    requires |s.bits| == BITS && forall j :: 0 <= j < |ss| ==> ss[j].id < BITS
    ensures BitsChanged(s, MarkSubs(s, ss, v), SubIds(ss), v)
    ensures MarkSubs(s, ss, v).firstArgs == s.firstArgs && MarkSubs(s, ss, v).rules == s.rules
    decreases |ss|
  {
    if ss != [] { MarkSubsBits(Mark(s, ss[0].id, v), ss[1..], v); }
  }

  lemma ChangeTopIs(t: Table, s: Selector, c: Command, v: bool)
    requires |s.bits| == BITS == |s.firstArgs| && CommandOk(t, c)
    ensures var r := Change(s, Top(c), v);
            && BitsChanged(s, r, Foot(c), v)
            && r.firstArgs == s.firstArgs[c.id := []] && r.rules == s.rules
  {
    MarkSubsBits(DropArgs(Mark(s, c.id, v), c.id), c.subs, v);
  }

  lemma ChangeUnderIs(t: Table, s: Selector, c: Command, sub: Sub, v: bool)
    requires |s.bits| == BITS == |s.firstArgs| && ArgsTop(t, s) && sub.id < BITS && !IsTop(t, sub.id)
    ensures var r := Change(s, Under(c, sub), v);
            && BitsChanged(s, r, {sub.id}, v) && r.firstArgs == s.firstArgs && r.rules == s.rules
  {
    assert s.firstArgs[sub.id] == [];
    assert s.firstArgs[sub.id := []] == s.firstArgs;
  }

  lemma BitsChain(s: Selector, m: Selector, r: Selector, a: set<nat>, b: set<nat>, v: bool)
    requires BitsChanged(s, m, a, v) && BitsChanged(m, r, b, v)
    ensures BitsChanged(s, r, a + b, v)
  {
  }

  lemma BitsSame(s: Selector, v: bool)
    requires |s.bits| == BITS
    ensures BitsChanged(s, s, {}, v)
  {
  }

  lemma {:induction false} ChangeCatSubsIs(t: Table, s: Selector, c: Command, ss: seq<Sub>, cat: nat, v: bool)
    requires |s.bits| == BITS == |s.firstArgs| && ArgsTop(t, s)
    requires forall j :: 0 <= j < |ss| ==> ss[j].id < BITS && !IsTop(t, ss[j].id)
    ensures var r := ChangeCatSubs(s, c, ss, cat, v);
            && BitsChanged(s, r, CatSubIds(ss, cat), v) && r.firstArgs == s.firstArgs && r.rules == s.rules
    decreases |ss|
  {
    hide BitsChanged, Change;
    BitsSame(s, v);
    if ss != [] {
      ChangeUnderIs(t, s, c, ss[0], v);
      var s1 := if cat in ss[0].cats then Change(s, Under(c, ss[0]), v) else s;
      SameLength(s, s1, if cat in ss[0].cats then {ss[0].id} else {}, v);
      ChangeCatSubsIs(t, s1, c, ss[1..], cat, v);
      BitsChain(s, s1, ChangeCatSubs(s, c, ss, cat, v), if cat in ss[0].cats then {ss[0].id} else {}, CatSubIds(ss[1..], cat), v);
    }
  }

  lemma SameLength(s: Selector, r: Selector, ids: set<nat>, v: bool)
    requires BitsChanged(s, r, ids, v)
    ensures |r.bits| == BITS
  {
  }

  ghost predicate ArgsDropped(s: Selector, r: Selector, ids: set<nat>) {
    && |s.firstArgs| == |r.firstArgs| == BITS
    && (forall i :: 0 <= i < BITS ==> r.firstArgs[i] == if i in ids then [] else s.firstArgs[i])
  }

  lemma ArgsChain(t: Table, s: Selector, m: Selector, r: Selector, a: set<nat>, b: set<nat>)
    requires ArgsDropped(s, m, a) && ArgsDropped(m, r, b) && ArgsTop(t, s)
    ensures ArgsDropped(s, r, a + b) && ArgsTop(t, m) && ArgsTop(t, r)
  {
  }

  /** One command of a category. */
  lemma ChangeOneIs(t: Table, s: Selector, c: Command, cat: nat, v: bool)
    requires |s.bits| == BITS == |s.firstArgs| && ArgsTop(t, s) && CommandOk(t, c)
    ensures var s1 := if cat in c.cats then Change(s, Top(c), v) else s;
            var r := ChangeCatSubs(s1, c, c.subs, cat, v);
            && BitsChanged(s, r, (if cat in c.cats then Foot(c) else {}) + CatSubIds(c.subs, cat), v)
            && ArgsDropped(s, r, if cat in c.cats then {c.id} else {}) && ArgsTop(t, r) && r.rules == s.rules
  {
    ChangeTopIs(t, s, c, v);
    BitsSame(s, v);
    var s1 := if cat in c.cats then Change(s, Top(c), v) else s;
    assert |s1.firstArgs| == BITS && ArgsTop(t, s1) && ArgsDropped(s, s1, if cat in c.cats then {c.id} else {});
    hide BitsChanged, Change, Foot;
    SameLength(s, s1, if cat in c.cats then Foot(c) else {}, v);
    ChangeCatSubsIs(t, s1, c, c.subs, cat, v);
    BitsChain(s, s1, ChangeCatSubs(s1, c, c.subs, cat, v), if cat in c.cats then Foot(c) else {}, CatSubIds(c.subs, cat), v);
  }

  lemma {:induction false} ChangeCatIs(t: Table, s: Selector, cs: seq<Command>, cat: nat, v: bool)
    requires |s.bits| == BITS == |s.firstArgs| && ArgsTop(t, s)
    requires forall k :: 0 <= k < |cs| ==> CommandOk(t, cs[k])
    ensures var r := ChangeCat(s, cs, cat, v);
            && BitsChanged(s, r, CatFoot(cs, cat), v) && ArgsDropped(s, r, CatTops(cs, cat))
            && ArgsTop(t, r) && r.rules == s.rules
    decreases |cs|
  {
    hide BitsChanged, ArgsDropped, ArgsTop, Change, ChangeCatSubs, CommandOk, Foot, CatSubIds;
    if cs == [] {
      BitsSame(s, v);
      assert ArgsDropped(s, s, {}) by { NothingDropped(s); }
    } else {
      var c := cs[0];
      ChangeOneIs(t, s, c, cat, v);
      var s1 := if cat in c.cats then Change(s, Top(c), v) else s;
      var s2 := ChangeCatSubs(s1, c, c.subs, cat, v);
      var b := (if cat in c.cats then Foot(c) else {}) + CatSubIds(c.subs, cat);
      var d := if cat in c.cats then {c.id} else {};
      SameLength(s, s2, b, v);
      SameArgs(s, s2, d);
      ChangeCatIs(t, s2, cs[1..], cat, v);
      BitsChain(s, s2, ChangeCat(s, cs, cat, v), b, CatFoot(cs[1..], cat), v);
      ArgsChain(t, s, s2, ChangeCat(s, cs, cat, v), d, CatTops(cs[1..], cat));
    }
  }

  lemma NothingDropped(s: Selector)
    requires |s.firstArgs| == BITS
    ensures ArgsDropped(s, s, {})
  {
  }

  lemma SameArgs(s: Selector, r: Selector, ids: set<nat>)
    requires ArgsDropped(s, r, ids)
    ensures |r.firstArgs| == BITS
  {
  }

  // From bits and lists to effects.

  lemma GrantsChanged(t: Table, s: Selector, r: Selector, e: Effect, m: Mean, v: bool)
    requires Grants(t, s, e) && BitsChanged(s, r, m.bits, v) && ArgsDropped(s, r, m.clears) && m.adds.None?
    requires forall i :: i in m.bits ==> i < BITS
    ensures Grants(t, r, Act(e, v, m))
  {
    var f := Act(e, v, m);
    assert BitsAre(r, f.bits);
    forall p
      ensures p in f.args <==> p.0 < BITS && HasArg(r.firstArgs[p.0], p.1)
    {
    }
    assert ArgsTop(t, r);
  }

  lemma ListedIsHasArg(args: seq<Bytes>, arg: Bytes)
    ensures Listed(args, arg) <==> HasArg(args, LowerAll(arg))
  {
    if j :| 0 <= j < |args| && EqualsIgnoreCase(args[j], arg) { LowerSame(args[j], arg); }
    if j :| 0 <= j < |args| && LowerAll(args[j]) == LowerAll(arg) { LowerSame(args[j], arg); }
  }

  lemma HasArgAdd(args: seq<Bytes>, arg: Bytes, a: Bytes)
    ensures HasArg(args + [arg], a) <==> HasArg(args, a) || LowerAll(arg) == a
  {
    var x := args + [arg];
    assert x[|args|] == arg;
    if j :| 0 <= j < |args| && LowerAll(args[j]) == a { assert LowerAll(x[j]) == a; }
    if j :| 0 <= j < |x| && LowerAll(x[j]) == a { assert j < |args| ==> LowerAll(args[j]) == a; }
  }

  lemma GrantsArg(t: Table, s: Selector, e: Effect, id: nat, arg: Bytes)
    requires Grants(t, s, e) && id < BITS && IsTop(t, id)
    ensures Grants(t, AddArg(s, id, arg), Act(e, true, Mean({}, {}, Some((id, LowerAll(arg))))))
  {
    hide HasArg, Listed;
    var r, f := AddArg(s, id, arg), Act(e, true, Mean({}, {}, Some((id, LowerAll(arg)))));
    ListedIsHasArg(s.firstArgs[id], arg);
    assert f.bits == e.bits;
    forall p: (nat, Bytes)
      ensures p in f.args <==> p.0 < BITS && HasArg(r.firstArgs[p.0], p.1)
    {
      HasArgAdd(s.firstArgs[id], arg, p.1);
    }
  }

  // ---------------------------------------------------------------- actions

  /** What an action names is in the table. */
  ghost predicate ActionOk(t: Table, a: Action) {
    match a
    case Reset(_) => true
    case Perm(Top(c), _, _) => c in t.commands
    case Perm(Under(c, sub), _, _) => c in t.commands && sub in c.subs
    case Arg(id, _, _) => exists c :: c in t.commands && c.id == id
    case Cat(_, _, _) => true
  }

  lemma LookupIn(t: Table, s: Bytes)
    requires Lookup(t, s).Some?
    ensures var x := Lookup(t, s).value; x.c in t.commands && (x.Under? ==> x.sub in x.c.subs)
  {
    hide FindCommand, FindSub;
    var i := BarAt(s);
    FoundCommand(t.commands, if i == |s| then s else s[..i]);
    if i < |s| {
      FoundSub(FindCommand(t.commands, s[..i]).value.subs, s[i + 1..]);
    }
  }

  lemma ParseIn(t: Table, op: Bytes)
    requires Parse(t, op).Some?
    ensures ActionOk(t, Parse(t, op).value)
  {
    hide Lookup, FindCategory, EqualsIgnoreCase;
    var a := Parse(t, op).value;
    if (a.Perm? || a.Arg?) && op != [] {
      var body := op[1..];
      if Lookup(t, body).Some? { LookupIn(t, body); }
      if LastBar(body) < |body| && Lookup(t, body[..LastBar(body)]).Some? { LookupIn(t, body[..LastBar(body)]); }
    }
  }

  lemma SubOk(t: Table, c: Command, sub: Sub)
    requires CommandOk(t, c) && sub in c.subs
    ensures sub.id < RESERVED && !IsTop(t, sub.id)
  {
    var j :| 0 <= j < |c.subs| && c.subs[j] == sub;
  }

  lemma TopOk(t: Table, c: Command)
    requires c in t.commands
    ensures IsTop(t, c.id)
  {
    var k :| 0 <= k < |t.commands| && t.commands[k] == c;
  }

  lemma {:induction false} SubIdsIn(t: Table, ss: seq<Sub>, cat: nat)
    requires forall j :: 0 <= j < |ss| ==> ss[j].id < RESERVED
    ensures forall i :: i in SubIds(ss) ==> i < RESERVED
    ensures forall i :: i in CatSubIds(ss, cat) ==> i < RESERVED
  {
    if ss != [] { SubIdsIn(t, ss[1..], cat); }
  }

  lemma {:induction false} CatFootIn(t: Table, cs: seq<Command>, cat: nat)
    requires forall k :: 0 <= k < |cs| ==> CommandOk(t, cs[k])
    ensures forall i :: i in CatFoot(cs, cat) ==> i < RESERVED
  {
    if cs != [] {
      SubIdsIn(t, cs[0].subs, cat);
      CatFootIn(t, cs[1..], cat);
    }
  }

  /** No rule touches the reserved bit. */
  lemma MeanBelowReserved(t: Table, a: Action)
    requires TableOk(t) && ActionOk(t, a) && !a.Reset?
    ensures forall i :: i in MeanOf(t, a).bits ==> i < RESERVED
  {
    hide CatFoot, CatTops;
    match a {
      case Perm(Top(c), _, _) =>
        TableCommand(t, c);
        SubIdsIn(t, c.subs, 0);
      case Perm(Under(c, sub), _, _) =>
        TableCommand(t, c);
        SubOk(t, c, sub);
      case Arg(_, _, _) =>
      case Cat(cat, _, _) => CatFootIn(t, t.commands, cat);
    }
  }

  lemma GrantsRules(t: Table, s: Selector, e: Effect, rules: Bytes)
    requires Grants(t, s, e)
    ensures Grants(t, s.(rules := rules), e)
  {
    assert BitsAre(s.(rules := rules), e.bits);
    assert ArgsAre(s.(rules := rules), e.args);
  }

  lemma PermGrants(t: Table, s: Selector, e: Effect, a: Action)
    requires TableOk(t) && Grants(t, s, e) && a.Perm? && ActionOk(t, a)
    ensures var r := Change(s, a.target, a.allow);
            Grants(t, r, Act(e, a.allow, MeanOf(t, a))) && r.rules == s.rules
  {
    hide Change, BitsChanged, ArgsDropped, TableOk, CommandOk, Act, BitsAre, ArgsAre;
    MeanBelowReserved(t, a);
    Lengths(t, s, e);
    var r := Change(s, a.target, a.allow);
    TableCommand(t, a.target.c);
    match a.target {
      case Top(c) =>
        ChangeTopIs(t, s, c, a.allow);
        assert ArgsDropped(s, r, {c.id}) by { DropOne(s, r, c.id); }
      case Under(c, sub) =>
        SubOk(t, c, sub);
        ChangeUnderIs(t, s, c, sub, a.allow);
        assert ArgsDropped(s, r, {}) by { NothingDropped(s); SameDropped(s, r); }
    }
    GrantsChanged(t, s, r, e, MeanOf(t, a), a.allow);
  }

  lemma Lengths(t: Table, s: Selector, e: Effect)
    requires Grants(t, s, e)
    ensures |s.bits| == |s.firstArgs| == BITS
  {
  }

  lemma DropOne(s: Selector, r: Selector, id: nat)
    requires |s.firstArgs| == BITS && id < BITS && r.firstArgs == s.firstArgs[id := []]
    ensures ArgsDropped(s, r, {id})
  {
  }

  lemma SameDropped(s: Selector, r: Selector)
    requires |s.firstArgs| == BITS && r.firstArgs == s.firstArgs
    ensures ArgsDropped(s, r, {})
  {
  }

  lemma CatGrants(t: Table, s: Selector, e: Effect, a: Action)
    requires TableOk(t) && Grants(t, s, e) && a.Cat?
    ensures var r := ChangeCat(s, t.commands, a.cat, a.allow);
            Grants(t, r, Act(e, a.allow, MeanOf(t, a))) && r.rules == s.rules
  {
    hide BitsChanged, ArgsDropped, ChangeCat, Act, BitsAre, ArgsAre, CommandOk, CatFoot, CatTops;
    MeanBelowReserved(t, a);
    Lengths(t, s, e);
    ChangeCatIs(t, s, t.commands, a.cat, a.allow);
    GrantsChanged(t, s, ChangeCat(s, t.commands, a.cat, a.allow), e, MeanOf(t, a), a.allow);
  }

  /** Every action does to the selector what it means, and logs its rule. */
  lemma ApplyGrants(t: Table, s: Selector, e: Effect, a: Action)
    requires TableOk(t) && Grants(t, s, e) && ActionOk(t, a) && !a.Reset? && a.rule != []
    ensures var r := Apply(t, s, a);
            && Grants(t, r, Act(e, Allows(a), MeanOf(t, a)))
            && r.rules == Joined(Updated(RulesOf(s.rules), a.rule))
  {
    hide Grants, TableOk, Act, MeanOf, Joined, Updated, RulesOf, Change, ChangeCat, AddArg;
    var rules := Joined(Updated(RulesOf(s.rules), a.rule));
    match a {
      case Perm(x, v, _) =>
        PermGrants(t, s, e, a);
        GrantsRules(t, Change(s, x, v), Act(e, Allows(a), MeanOf(t, a)), rules);
      case Arg(id, arg, _) =>
        ArgGrants(t, s, e, a);
        GrantsRules(t, AddArg(s, id, arg), Act(e, Allows(a), MeanOf(t, a)), rules);
      case Cat(cat, v, _) =>
        GrantsRules(t, s, e, rules);
        CatGrants(t, s.(rules := rules), e, a);
    }
  }

  lemma ArgGrants(t: Table, s: Selector, e: Effect, a: Action)
    requires TableOk(t) && Grants(t, s, e) && ActionOk(t, a) && a.Arg?
    ensures Grants(t, AddArg(s, a.id, a.arg), Act(e, true, MeanOf(t, a)))
    ensures AddArg(s, a.id, a.arg).rules == s.rules
  {
    hide Grants, Act;
    var c :| c in t.commands && c.id == a.id;
    TopOk(t, c);
    TableCommand(t, c);
    GrantsArg(t, s, e, a.id, a.arg);
  }

  // ---------------------------------------------------------------- the invariant

  /** A token without white space, quotes or NUL. */
  predicate PlainToken(op: Bytes) {
    forall i :: 0 <= i < |op| ==> SplitArgs.IsPlain(op[i])
  }

  ghost predicate PlainTokens(ops: seq<Bytes>) {
    forall i :: 0 <= i < |ops| ==> PlainToken(ops[i])
  }

  lemma PlainIsToken(op: Bytes)
    requires PlainToken(op)
    ensures IsToken(op)
  {
  }

  lemma PlainRule(op: Bytes)
    requires op != [] && PlainToken(op)
    ensures PlainToken(Rule(op[0], op[1..]))
  {
    var r := Rule(op[0], op[1..]);
    forall i | 0 <= i < |r|
      ensures SplitArgs.IsPlain(r[i])
    {
      assert i > 0 ==> r[i] == LowerAll(op[1..])[i - 1] == Lower(op[i]);
      assert SplitArgs.IsPlain(op[i]);
    }
  }

  /** The log is well formed and compacted, every rule means something, and replayed from the
      state the reserved bit tells it grants what the selector grants. */
  ghost predicate LogOk(t: Table, rs: seq<Bytes>) {
    AllRules(rs) && RulesOk(t, rs) && Compacted(rs) && PlainTokens(rs)
  }

  ghost predicate Inv(t: Table, s: Selector) {
    && |s.bits| == BITS
    && LogOk(t, RulesOf(s.rules))
    && Grants(t, s, Fold(t, AclRules.Start(s.bits[RESERVED]), RulesOf(s.rules)))
    && (s.all ==> forall i :: 0 <= i < BITS ==> s.bits[i])
  }

  lemma {:induction false} AllIdsAre(n: nat, i: nat)
    ensures i in AllIds(n) <==> i < n
  {
    if n > 0 { AllIdsAre(n - 1, i); }
  }

  lemma StartGrants(t: Table, s: Selector, v: bool)
    requires s.bits == Fill(BITS, v) && s.firstArgs == NoArgs(BITS)
    ensures Grants(t, s, AclRules.Start(v))
  {
    forall i: nat
      ensures i in AllIds(BITS) <==> i < BITS
    {
      AllIdsAre(BITS, i);
    }
    hide AllIds;
    assert BitsAre(s, AclRules.Start(v).bits);
    assert ArgsAre(s, {});
  }

  lemma ResetInv(t: Table, s: Selector, v: bool)
    requires s.bits == Fill(BITS, v) && s.firstArgs == NoArgs(BITS) && s.rules == [] && s.all == v
    ensures Inv(t, s)
  {
    StartGrants(t, s, v);
  }

  lemma UpdatedLogOk(t: Table, rs: seq<Bytes>, r: Bytes)
    requires LogOk(t, rs) && RuleOk(t, r) && PlainToken(r)
    ensures LogOk(t, Updated(rs, r)) && RulesOf(Joined(Updated(rs, r))) == Updated(rs, r)
  {
    hide RuleOk, PlainToken, RulesOf, Joined, Kept;
    RuleIsRule(t, r);
    UpdatedOk(t, rs, r);
    KeptRules(rs, r[1..]);
    var ks := Kept(rs, r[1..]);
    forall i | 0 <= i < |ks|
      ensures PlainToken(ks[i])
    {
      var k := KeptFrom(rs, r[1..], i);
    }
    RulesOfJoined(Updated(rs, r));
  }

  lemma RuleIsRule(t: Table, r: Bytes)
    requires RuleOk(t, r)
    ensures IsRule(r)
  {
  }

  /** The flag is set only while every bit is. */
  ghost predicate FlagOk(s: Selector) {
    s.all ==> forall i :: 0 <= i < |s.bits| ==> s.bits[i]
  }

  lemma {:induction false} MarkSubsFlag(s: Selector, ss: seq<Sub>, v: bool)
    requires FlagOk(s)
    ensures FlagOk(MarkSubs(s, ss, v))
    decreases |ss|
  {
    if ss != [] { MarkSubsFlag(Mark(s, ss[0].id, v), ss[1..], v); }
  }

  lemma ChangeFlag(s: Selector, x: Target, v: bool)
    requires FlagOk(s)
    ensures FlagOk(Change(s, x, v))
  {
    if x.Top? { MarkSubsFlag(DropArgs(Mark(s, x.c.id, v), x.c.id), x.c.subs, v); }
  }

  lemma {:induction false} ChangeCatSubsFlag(s: Selector, c: Command, ss: seq<Sub>, cat: nat, v: bool)
    requires FlagOk(s)
    ensures FlagOk(ChangeCatSubs(s, c, ss, cat, v))
    decreases |ss|
  {
    if ss != [] {
      ChangeFlag(s, Under(c, ss[0]), v);
      ChangeCatSubsFlag(if cat in ss[0].cats then Change(s, Under(c, ss[0]), v) else s, c, ss[1..], cat, v);
    }
  }

  lemma {:induction false} ChangeCatFlag(s: Selector, cs: seq<Command>, cat: nat, v: bool)
    requires FlagOk(s)
    ensures FlagOk(ChangeCat(s, cs, cat, v))
    decreases |cs|
  {
    if cs != [] {
      ChangeFlag(s, Top(cs[0]), v);
      var s1 := if cat in cs[0].cats then Change(s, Top(cs[0]), v) else s;
      ChangeCatSubsFlag(s1, cs[0], cs[0].subs, cat, v);
      ChangeCatFlag(ChangeCatSubs(s1, cs[0], cs[0].subs, cat, v), cs[1..], cat, v);
    }
  }

  lemma ApplyFlag(t: Table, s: Selector, a: Action)
    requires FlagOk(s) && (!a.Reset? ==> a.rule != [])
    ensures FlagOk(Apply(t, s, a))
  {
    hide Change, ChangeCat, Joined, Updated, RulesOf;
    match a {
      case Reset(_) =>
      case Perm(x, v, _) => ChangeFlag(s, x, v);
      case Arg(_, _, _) =>
      case Cat(cat, v, rule) => ChangeCatFlag(AddRule(s, rule), t.commands, cat, v);
    }
  }

  lemma ReservedKept(t: Table, s: Selector, r: Selector, e: Effect, a: Action)
    requires TableOk(t) && ActionOk(t, a) && !a.Reset?
    requires Grants(t, s, e) && Grants(t, r, Act(e, Allows(a), MeanOf(t, a)))
    ensures |r.bits| == |s.bits| == BITS && r.bits[RESERVED] == s.bits[RESERVED]
  {
    MeanBelowReserved(t, a);
    hide TableOk, MeanOf, ArgsAre, ArgsTop;
    var f := Act(e, Allows(a), MeanOf(t, a));
    assert RESERVED in f.bits <==> RESERVED in e.bits;
  }

  /** A successful operation that logs a rule keeps the invariant. */
  lemma ActionInv(t: Table, s: Selector, op: Bytes)
    requires TableOk(t) && Inv(t, s) && PlainToken(op) && Parse(t, op).Some? && !Parse(t, op).value.Reset?
    ensures Inv(t, Set(t, s, op))
  {
    var a, rs := Parse(t, op).value, RulesOf(s.rules);
    ParseRule(t, op);
    var r := Apply(t, s, a);
    var e := Fold(t, AclRules.Start(s.bits[RESERVED]), rs);
    ApplyFlag(t, s, a);
    ParseIn(t, op);
    PlainIsToken(op);
    ParsedRuleOk(t, op);
    ParseMeaning(t, op);
    PlainRule(op);
    ApplyGrants(t, s, e, a);
    ReservedKept(t, s, r, e, a);
    UpdatedLogOk(t, rs, a.rule);
    UpdateKeepsEffect(t, AclRules.Start(s.bits[RESERVED]), rs, a.rule);
    assert a.rule[0] == op[0];
    hide Parse, Apply, Meaning, MeanOf, Fold, TableOk, RulesOf, Joined, Updated, Grants, LogOk, PlainToken, AclRules.Start;
    assert ActRule(t, e, a.rule) == Act(e, Allows(a), MeanOf(t, a));
  }

  lemma SetInv(t: Table, s: Selector, op: Bytes)
    requires TableOk(t) && Inv(t, s) && PlainToken(op)
    ensures Inv(t, Set(t, s, op))
  {
    if Parse(t, op).Some? {
      if Parse(t, op).value.Reset? {
        assert |s.firstArgs| == BITS;
        hide Parse, TableOk;
        ResetInv(t, Set(t, s, op), Parse(t, op).value.all);
      } else {
        ActionInv(t, s, op);
      }
    }
  }

  lemma {:induction false} SetAllInv(t: Table, s: Selector, ops: seq<Bytes>)
    requires TableOk(t) && Inv(t, s) && PlainTokens(ops)
    ensures Inv(t, SetAll(t, s, ops))
    decreases |ops|
  {
    hide TableOk, Inv, PlainToken, Set;
    if ops != [] {
      SetInv(t, s, ops[0]);
      SetAllInv(t, Set(t, s, ops[0]), ops[1..]);
    }
  }

  // ---------------------------------------------------------------- replaying

  /** The first operation of a description: +@all or -@all, by the reserved bit. */
  function AllOp(v: bool): Bytes {
    [if v then PLUS else MINUS, AT] + ALL
  }

  /** ACLDescribeSelectorCommandRules, as the operations it prints. */
  function Description(s: Selector): seq<Bytes> {
    [AllOp(|s.bits| == BITS && s.bits[RESERVED])] + RulesOf(s.rules)
  }

  lemma AllOpParses(t: Table, v: bool)
    ensures Parse(t, AllOp(v)) == Some(Reset(v))
  {
    assert AllOp(v)[0] != ALLCOMMANDS[0];
    assert !v ==> Lower(AllOp(v)[0]) != Lower(([PLUS, AT] + ALL)[0]);
  }

  /** One rule of a compacted log, applied to what the rules before it have built. */
  lemma ReplayRule(t: Table, r: Selector, e: Effect, rs: seq<Bytes>, i: nat)
    requires TableOk(t) && LogOk(t, rs) && i < |rs|
    requires Grants(t, r, Fold(t, e, rs[..i])) && r.rules == Joined(rs[..i])
    ensures Parse(t, rs[i]).Some?
    ensures Grants(t, Set(t, r, rs[i]), Fold(t, e, rs[..i + 1]))
    ensures Set(t, r, rs[i]).rules == Joined(rs[..i + 1])
  {
    RuleParses(t, rs[i]);
    var a := Parse(t, rs[i]).value;
    ParseIn(t, rs[i]);
    assert AllRules(rs[..i]);
    RulesOfJoined(rs[..i]);
    RuleIsRule(t, rs[i]);
    ReplayStep(rs, i);
    ApplyGrants(t, r, Fold(t, e, rs[..i]), a);
    FoldSnoc(t, e, rs[..i], rs[i]);
    assert rs[..i + 1] == rs[..i] + [rs[i]];
    hide Parse, Apply, Meaning, MeanOf, TableOk, Fold, RulesOf, Joined, Grants, Act, Updated, Compacted;
  }

  lemma {:induction false} ReplayFrom(t: Table, r: Selector, e: Effect, rs: seq<Bytes>, i: nat)
    requires TableOk(t) && LogOk(t, rs) && i <= |rs|
    requires Grants(t, r, Fold(t, e, rs[..i])) && r.rules == Joined(rs[..i])
    ensures Grants(t, SetAll(t, r, rs[i..]), Fold(t, e, rs)) && SetAll(t, r, rs[i..]).rules == Joined(rs)
    ensures forall k :: i <= k < |rs| ==> Parse(t, rs[k]).Some?
    decreases |rs| - i
  {
    hide TableOk, LogOk, Grants, Fold, Joined, Set, Parse;
    if i == |rs| {
      assert rs[..i] == rs && rs[i..] == [];
    } else {
      ReplayRule(t, r, e, rs, i);
      ReplayFrom(t, Set(t, r, rs[i]), e, rs, i + 1);
      assert rs[i..][1..] == rs[i + 1..] && rs[i..][0] == rs[i];
    }
  }

  /** The same bits, the same log, and the same first arguments for every command, up to case. */
  ghost predicate SameCommands(s: Selector, r: Selector) {
    && r.bits == s.bits && r.rules == s.rules && |r.firstArgs| == |s.firstArgs|
    && forall id, a :: 0 <= id < |s.firstArgs| ==> (HasArg(r.firstArgs[id], a) <==> HasArg(s.firstArgs[id], a))
  }

  lemma GrantsSame(t: Table, s: Selector, r: Selector, e: Effect)
    requires Grants(t, s, e) && Grants(t, r, e) && r.rules == s.rules
    ensures SameCommands(s, r)
  {
    hide HasArg;
    assert forall i :: 0 <= i < BITS ==> r.bits[i] == s.bits[i];
    forall id, a | 0 <= id < BITS
      ensures HasArg(r.firstArgs[id], a) <==> HasArg(s.firstArgs[id], a)
    {
      assert (id, a) in e.args <==> HasArg(s.firstArgs[id], a);
    }
  }

  /** Applying its description to a fresh selector rebuilds the selector. */
  lemma DescriptionRebuilds(t: Table, s: Selector)
    requires TableOk(t) && Inv(t, s)
    ensures forall k :: 0 <= k < |Description(s)| ==> Parse(t, Description(s)[k]).Some?
    ensures SameCommands(s, SetAll(t, NewSelector(), Description(s)))
  {
    var v, rs := s.bits[RESERVED], RulesOf(s.rules);
    AllOpParses(t, v);
    var r0 := Set(t, NewSelector(), AllOp(v));
    assert |NewSelector().bits| == |NewSelector().firstArgs| == BITS;
    StartGrants(t, r0, v);
    assert Description(s)[1..] == rs;
    JoinedRulesOf(s.rules);
    EmptyLog(t, AclRules.Start(v), rs);
    hide Parse, TableOk, LogOk, Grants, Fold, Joined, RulesOf, Set, NewSelector, AclRules.Start;
    assert rs[..0] == [] && rs[0..] == rs;
    ReplayFrom(t, r0, AclRules.Start(v), rs, 0);
    GrantsSame(t, s, SetAll(t, r0, rs), Fold(t, AclRules.Start(v), rs));
  }

  lemma EmptyLog(t: Table, e: Effect, rs: seq<Bytes>)
    ensures Fold(t, e, []) == e && Joined([]) == []
  {
  }

  /** For every sequence of command operations: every printed operation is accepted again, and
      together they rebuild the bitmap, the first-argument sets and the log itself. The panic of
      ACLDescribeSelectorCommandRules cannot be reached. */
  lemma LogReplays(t: Table, ops: seq<Bytes>)
    requires TableOk(t) && PlainTokens(ops)
    ensures var s := SetAll(t, NewSelector(), ops);
            && (forall k :: 0 <= k < |Description(s)| ==> Parse(t, Description(s)[k]).Some?)
            && SameCommands(s, SetAll(t, NewSelector(), Description(s)))
  {
    hide Parse, TableOk, Inv, SetAll, PlainTokens;
    ResetInv(t, NewSelector(), false);
    SetAllInv(t, NewSelector(), ops);
    DescriptionRebuilds(t, SetAll(t, NewSelector(), ops));
  }

  /** The log of a reachable selector, cut by sdssplitargs, gives its rules. */
  lemma LogSplits(t: Table, ops: seq<Bytes>)
    requires TableOk(t) && PlainTokens(ops)
    ensures var s := SetAll(t, NewSelector(), ops);
            SplitArgs.Split(s.rules) == Some(RulesOf(s.rules)) && WellFormed(s.rules)
  {
    hide Parse, TableOk, SetAll, SplitArgs.Split;
    ResetInv(t, NewSelector(), false);
    SetAllInv(t, NewSelector(), ops);
    var s := SetAll(t, NewSelector(), ops);
    JoinedRulesOf(s.rules);
    SplitOfJoined(RulesOf(s.rules));
  }

  lemma {:induction false} SplitOfJoined(ws: seq<Bytes>)
    requires AllRules(ws) && PlainTokens(ws)
    ensures SplitArgs.Split(Joined(ws)) == Some(ws)
    decreases |ws|
  {
    hide SplitArgs.ReadToken;
    if ws != [] {
      var w, s := ws[0], Joined(ws);
      assert IsRule(w) && PlainToken(w);
      if |ws| == 1 {
        SplitArgs.ReadPlain(w, [], []);
        assert w + [] == s && [] + w == w;
        SplitArgs.SplitStep(s);
        assert SplitArgs.Split([]) == Some([]);
        assert [w] + [] == ws;
      } else {
        var rest := [SPACE] + Joined(ws[1..]);
        assert s == w + rest && [] + w == w && rest[1..] == Joined(ws[1..]);
        SplitArgs.ReadPlain(w, rest, []);
        SplitArgs.SplitStep(s);
        assert AllRules(ws[1..]) && PlainTokens(ws[1..]);
        SplitOfJoined(ws[1..]);
        assert [w] + ws[1..] == ws;
      }
    }
  }

  /** The ALLCOMMANDS flag is set only when every command is allowed, so that skipping the bit
      test on it changes nothing. */
  lemma FlagMeansAll(t: Table, ops: seq<Bytes>)
    requires TableOk(t) && PlainTokens(ops)
    ensures var s := SetAll(t, NewSelector(), ops);
            s.all ==> forall i :: 0 <= i < |s.bits| ==> s.bits[i]
  {
    hide Parse, TableOk, SetAll;
    ResetInv(t, NewSelector(), false);
    SetAllInv(t, NewSelector(), ops);
  }
}
