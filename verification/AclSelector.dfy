/** An ACL selector: the operations on its command bits, first-argument lists and rule log. */
module AclSelector {
  import opened Decimal
  import opened Options
  import opened AclString
  import opened AclRules

  /** The value of an aclSelector, as far as commands go. */
  datatype Selector = Selector(
    bits: seq<bool>,               // allowed_commands
    firstArgs: seq<seq<Bytes>>,    // allowed_firstargs
    rules: Bytes,                  // command_rules
    all: bool)                     // SELECTOR_FLAG_ALLCOMMANDS

  /** The bit that only +@all sets. */
  const RESERVED: nat := BITS - 1

  function Fill(n: nat, v: bool): seq<bool> {
    seq(n, _ => v)
  }

  function NoArgs(n: nat): seq<seq<Bytes>> {
    seq(n, _ => [])
  }

  /** ACLCreateSelector. */
  function NewSelector(): Selector {
    Selector(Fill(BITS, false), NoArgs(BITS), [], false)
  }

  // ---------------------------------------------------------------- bits and first arguments

  /** ACLSetSelectorCommandBit. */
  function Mark(s: Selector, id: nat, v: bool): Selector {
    if id >= |s.bits| then s else s.(bits := s.bits[id := v], all := s.all && v)
  }

  function MarkSubs(s: Selector, ss: seq<Sub>, v: bool): Selector
    decreases |ss|
  {
    if ss == [] then s else MarkSubs(Mark(s, ss[0].id, v), ss[1..], v)
  }

  /** ACLResetFirstArgsForCommand. */
  function DropArgs(s: Selector, id: nat): Selector {
    if id >= |s.firstArgs| then s else s.(firstArgs := s.firstArgs[id := []])
  }

  /** ACLChangeSelectorPerm. */
  function Change(s: Selector, x: Target, v: bool): Selector {
    match x
    case Top(c) => MarkSubs(DropArgs(Mark(s, c.id, v), c.id), c.subs, v)
    case Under(_, sub) => DropArgs(Mark(s, sub.id, v), sub.id)
  }

  /** ACLSetSelectorCommandBitsForCategory on the subcommands of a command. */
  function ChangeCatSubs(s: Selector, c: Command, ss: seq<Sub>, cat: nat, v: bool): Selector
    decreases |ss|
  {
    if ss == [] then s
    else ChangeCatSubs(if cat in ss[0].cats then Change(s, Under(c, ss[0]), v) else s, c, ss[1..], cat, v)
  }

  /** ACLSetSelectorCommandBitsForCategory. */
  function ChangeCat(s: Selector, cs: seq<Command>, cat: nat, v: bool): Selector
    decreases |cs|
  {
    if cs == [] then s else
    var s1 := if cat in cs[0].cats then Change(s, Top(cs[0]), v) else s;
    ChangeCat(ChangeCatSubs(s1, cs[0], cs[0].subs, cat, v), cs[1..], cat, v)
  }

  predicate Listed(args: seq<Bytes>, arg: Bytes) {
    exists j :: 0 <= j < |args| && EqualsIgnoreCase(args[j], arg)
  }

  /** ACLAddAllowedFirstArg. */
  function AddArg(s: Selector, id: nat, arg: Bytes): Selector {
    if id >= |s.firstArgs| || Listed(s.firstArgs[id], arg) then s
    else s.(firstArgs := s.firstArgs[id := s.firstArgs[id] + [arg]])
  }

  /** ACLUpdateCommandRules with a sign and a body in any case. */
  function AddRule(s: Selector, r: Bytes): Selector
    requires r != []
  {
    s.(rules := Joined(Updated(RulesOf(s.rules), r)))
  }

  // ---------------------------------------------------------------- operations

  /** What ACLSetSelector does for an operation about commands; `rule` is what it logs. */
  datatype Action =
    | Reset(all: bool)
    | Perm(target: Target, allow: bool, rule: Bytes)
    | Arg(id: nat, arg: Bytes, rule: Bytes)
    | Cat(cat: nat, allow: bool, rule: Bytes)

  /** cmd->fullname. */
  function FullName(x: Target): Bytes {
    match x
    case Top(c) => c.name
    case Under(c, sub) => c.name + [BAR] + sub.name
  }

  function Rule(sign: byte, body: Bytes): Bytes {
    [sign] + LowerAll(body)
  }

  /** Where the last bar stands, or the end when there is none. */
  function LastBar(s: Bytes): (i: nat)
    ensures i <= |s|
    ensures i < |s| ==> s[i] == BAR && BAR !in s[i + 1..]
    ensures i == |s| ==> BAR !in s
  {
    if s == [] then 0
    else if s[|s| - 1] == BAR then |s| - 1
    else
      var t := s[..|s| - 1];
      var i := LastBar(t);
      if i == |t| then assert s == t + [s[|s| - 1]]; |s|
      else assert s[i + 1..] == t[i + 1..] + [s[|s| - 1]]; i
  }

  /** `+body` where the body does not start with `@`. */
  function ParseAllow(t: Table, body: Bytes): Option<Action> {
    var i := LastBar(body);
    if i == |body| then
      match Lookup(t, body)
      case None => None
      case Some(x) => Some(Perm(x, true, Rule(PLUS, FullName(x))))
    else
      match Lookup(t, body[..i])
      case None => None
      case Some(Under(_, _)) => None
      case Some(Top(c)) =>
        if i + 1 == |body| then None
        else if c.subs != [] then
          match Lookup(t, body)
          case None => None
          case Some(x) => Some(Perm(x, true, Rule(PLUS, body)))
        else Some(Arg(c.id, body[i + 1..], Rule(PLUS, body)))
  }

  /** `-body` where the body does not start with `@`. */
  function ParseDeny(t: Table, body: Bytes): Option<Action> {
    match Lookup(t, body)
    case None => None
    case Some(x) => Some(Perm(x, false, Rule(MINUS, FullName(x))))
  }

  const ALLCOMMANDS: Bytes := [97, 108, 108, 99, 111, 109, 109, 97, 110, 100, 115]
  const NOCOMMANDS: Bytes := [110, 111, 99, 111, 109, 109, 97, 110, 100, 115]
  const ALL: Bytes := [97, 108, 108]

  /** The command operations of ACLSetSelector; None stands for an error. */
  function Parse(t: Table, op: Bytes): Option<Action> {
    if EqualsIgnoreCase(op, ALLCOMMANDS) || EqualsIgnoreCase(op, [PLUS, AT] + ALL) then Some(Reset(true))
    else if EqualsIgnoreCase(op, NOCOMMANDS) || EqualsIgnoreCase(op, [MINUS, AT] + ALL) then Some(Reset(false))
    else if op == [] || (op[0] != PLUS && op[0] != MINUS) then None
    else if |op| > 1 && op[1] == AT then
      match FindCategory(t.categories, 0, op[2..])
      case None => None
      case Some(cat) => Some(Cat(cat, op[0] == PLUS, Rule(op[0], op[1..])))
    else if op[0] == PLUS then ParseAllow(t, op[1..])
    else ParseDeny(t, op[1..])
  }

  function Apply(t: Table, s: Selector, a: Action): Selector
    requires !a.Reset? ==> a.rule != []
  {
    match a
    case Reset(v) => s.(bits := Fill(|s.bits|, v), firstArgs := NoArgs(|s.firstArgs|), rules := [], all := v)
    case Perm(x, v, rule) => AddRule(Change(s, x, v), rule)
    case Arg(id, arg, rule) => AddRule(AddArg(s, id, arg), rule)
    case Cat(cat, v, rule) => ChangeCat(AddRule(s, rule), t.commands, cat, v)
  }

  lemma ParseRule(t: Table, op: Bytes)
    ensures Parse(t, op).Some? && !Parse(t, op).value.Reset? ==> Parse(t, op).value.rule != []
  {
  }

  /** ACLSetSelector on a command operation; an error changes nothing. */
  function Set(t: Table, s: Selector, op: Bytes): Selector {
    ParseRule(t, op);
    match Parse(t, op)
    case None => s
    case Some(a) => Apply(t, s, a)
  }

  function SetAll(t: Table, s: Selector, ops: seq<Bytes>): Selector
    decreases |ops|
  {
    if ops == [] then s else SetAll(t, Set(t, s, ops[0]), ops[1..])
  }

  // ---------------------------------------------------------------- the command table

  ghost predicate IsTop(t: Table, id: nat) {
    exists k :: 0 <= k < |t.commands| && t.commands[k].id == id
  }

  /** Ids are within the bitmap and never the reserved one, and no subcommand shares its id with
      a command; `all` is not a category. */
  ghost predicate TableOk(t: Table) {
    && CategoriesOk(t)
    && FindCategory(t.categories, 0, ALL).None?
    && (forall k :: 0 <= k < |t.commands| ==> CommandOk(t, t.commands[k]))
  }

  ghost predicate CommandOk(t: Table, c: Command) {
    && c.id < RESERVED && c.name != []
    && forall j :: 0 <= j < |c.subs| ==>
         c.subs[j].id < RESERVED && c.subs[j].name != [] && !IsTop(t, c.subs[j].id)
  }

  // ---------------------------------------------------------------- case does not matter

  lemma LowerSame(a: Bytes, b: Bytes)
    ensures EqualsIgnoreCase(a, b) <==> LowerAll(a) == LowerAll(b)
  {
    if LowerAll(a) == LowerAll(b) {
      LowerEach(a, b);
    }
  }

  lemma LowerEach(a: Bytes, b: Bytes)
    requires LowerAll(a) == LowerAll(b)
    ensures |a| == |b| && forall i :: 0 <= i < |a| ==> Lower(a[i]) == Lower(b[i])
  {
    assert |a| == |LowerAll(a)| == |b|;
    forall i | 0 <= i < |a|
      ensures Lower(a[i]) == Lower(b[i])
    {
      assert LowerAll(a)[i] == Lower(a[i]) && LowerAll(b)[i] == Lower(b[i]);
    }
  }

  lemma LowerTwice(a: Bytes)
    ensures LowerAll(LowerAll(a)) == LowerAll(a)
  {
  }

  lemma LowerSlices(a: Bytes, b: Bytes, i: nat)
    requires LowerAll(a) == LowerAll(b) && i <= |a|
    ensures |a| == |b| && LowerAll(a[..i]) == LowerAll(b[..i]) && LowerAll(a[i..]) == LowerAll(b[i..])
  {
    assert |a| == |LowerAll(a)| == |b|;
    assert LowerAll(a[..i]) == LowerAll(a)[..i] && LowerAll(b[..i]) == LowerAll(b)[..i];
    assert LowerAll(a[i..]) == LowerAll(a)[i..] && LowerAll(b[i..]) == LowerAll(b)[i..];
  }

  lemma {:induction false} FindCommandLower(cs: seq<Command>, a: Bytes, b: Bytes)
    requires LowerAll(a) == LowerAll(b)
    ensures FindCommand(cs, a) == FindCommand(cs, b)
  {
    hide EqualsIgnoreCase;
    if cs != [] {
      LowerSame(cs[0].name, a);
      LowerSame(cs[0].name, b);
      FindCommandLower(cs[1..], a, b);
    }
  }

  lemma {:induction false} FindSubLower(ss: seq<Sub>, a: Bytes, b: Bytes)
    requires LowerAll(a) == LowerAll(b)
    ensures FindSub(ss, a) == FindSub(ss, b)
  {
    hide EqualsIgnoreCase;
    if ss != [] {
      LowerSame(ss[0].name, a);
      LowerSame(ss[0].name, b);
      FindSubLower(ss[1..], a, b);
    }
  }

  lemma {:induction false} FindCategoryLower(cats: seq<Bytes>, i: nat, a: Bytes, b: Bytes)
    requires LowerAll(a) == LowerAll(b)
    ensures FindCategory(cats, i, a) == FindCategory(cats, i, b)
    decreases |cats| - i
  {
    hide EqualsIgnoreCase;
    if i < |cats| {
      LowerSame(cats[i], a);
      LowerSame(cats[i], b);
      FindCategoryLower(cats, i + 1, a, b);
    }
  }

  lemma {:induction false} FoundCommand(cs: seq<Command>, name: Bytes)
    requires FindCommand(cs, name).Some?
    ensures FindCommand(cs, name).value in cs
    ensures LowerAll(FindCommand(cs, name).value.name) == LowerAll(name)
  {
    hide EqualsIgnoreCase;
    if EqualsIgnoreCase(cs[0].name, name) {
      LowerSame(cs[0].name, name);
    } else {
      FoundCommand(cs[1..], name);
    }
  }

  lemma {:induction false} FoundSub(ss: seq<Sub>, name: Bytes)
    requires FindSub(ss, name).Some?
    ensures FindSub(ss, name).value in ss
    ensures LowerAll(FindSub(ss, name).value.name) == LowerAll(name)
  {
    hide EqualsIgnoreCase;
    if EqualsIgnoreCase(ss[0].name, name) {
      LowerSame(ss[0].name, name);
    } else {
      FoundSub(ss[1..], name);
    }
  }

  /** A bar is its own lower case, and nothing else's. */
  lemma BarLower(a: Bytes, b: Bytes)
    requires LowerAll(a) == LowerAll(b)
    ensures forall i :: 0 <= i < |a| ==> (a[i] == BAR <==> b[i] == BAR) && (a[i] == AT <==> b[i] == AT)
  {
    LowerEach(a, b);
  }

  lemma HasBarLower(a: Bytes, b: Bytes)
    requires LowerAll(a) == LowerAll(b)
    ensures BAR in a <==> BAR in b
  {
    assert |a| == |LowerAll(a)| == |b|;
    BarLower(a, b);
    if i :| 0 <= i < |a| && a[i] == BAR { assert b[i] == BAR; }
    if i :| 0 <= i < |b| && b[i] == BAR { assert a[i] == BAR; }
  }

  lemma BarAtIs(s: Bytes, i: nat)
    requires i <= |s| && BAR !in s[..i] && (i < |s| ==> s[i] == BAR)
    ensures BarAt(s) == i
  {
    var j := BarAt(s);
    assert forall k :: 0 <= k < i ==> s[..i][k] == s[k];
    assert forall k :: 0 <= k < j ==> s[..j][k] == s[k];
  }

  lemma BarAtLower(a: Bytes, b: Bytes)
    requires LowerAll(a) == LowerAll(b)
    ensures BarAt(a) == BarAt(b)
  {
    var i := BarAt(a);
    LowerSlices(a, b, i);
    HasBarLower(a[..i], b[..i]);
    BarLower(a, b);
    BarAtIs(b, i);
  }

  lemma AfterBarLower(a: Bytes, b: Bytes, i: nat)
    requires LowerAll(a) == LowerAll(b) && i < |a|
    ensures |a| == |b|
    ensures LowerAll(a[..i]) == LowerAll(b[..i])
    ensures LowerAll(a[i + 1..]) == LowerAll(b[i + 1..])
    ensures BAR in a[i + 1..] <==> BAR in b[i + 1..]
  {
    hide LowerAll;
    LowerSlices(a, b, i);
    LowerSlices(a, b, i + 1);
    HasBarLower(a[i + 1..], b[i + 1..]);
  }

  lemma LookupLower(t: Table, a: Bytes, b: Bytes)
    requires LowerAll(a) == LowerAll(b)
    ensures Lookup(t, a) == Lookup(t, b)
  {
    hide FindCommand, FindSub;
    if a != [] {
      var i := BarAt(a);
      BarAtLower(a, b);
      if i == |a| {
        FindCommandLower(t.commands, a, b);
      } else {
        AfterBarLower(a, b, i);
        FindCommandLower(t.commands, a[..i], b[..i]);
        var c := FindCommand(t.commands, a[..i]);
        if c.Some? { FindSubLower(c.value.subs, a[i + 1..], b[i + 1..]); }
      }
    }
  }

  lemma FullNameLower(t: Table, s: Bytes)
    requires Lookup(t, s).Some?
    ensures LowerAll(FullName(Lookup(t, s).value)) == LowerAll(s)
  {
    var i := BarAt(s);
    if i == |s| {
      FoundCommand(t.commands, s);
    } else {
      FoundCommand(t.commands, s[..i]);
      var c := FindCommand(t.commands, s[..i]).value;
      FoundSub(c.subs, s[i + 1..]);
      LowerJoin(c.name, FindSub(c.subs, s[i + 1..]).value.name);
      LowerJoin(s[..i], s[i + 1..]);
      assert s == s[..i] + [BAR] + s[i + 1..];
    }
  }

  lemma LowerJoin(a: Bytes, b: Bytes)
    ensures LowerAll(a + [BAR] + b) == LowerAll(a) + [BAR] + LowerAll(b)
  {
  }

  lemma FirstArgLower(t: Table, a: Bytes, b: Bytes)
    requires LowerAll(a) == LowerAll(b)
    ensures FirstArg(t, a) == FirstArg(t, b)
  {
    hide FindCommand;
    BarAtLower(a, b);
    var i := BarAt(a);
    if i < |a| {
      AfterBarLower(a, b, i);
      FindCommandLower(t.commands, a[..i], b[..i]);
    }
  }

  lemma MeaningLower(t: Table, a: Bytes, b: Bytes)
    requires LowerAll(a) == LowerAll(b)
    ensures Meaning(t, a) == Meaning(t, b)
  {
    hide Lookup, FirstArg, FindCategory, CatFoot, CatTops;
    if a != [] {
      BarLower(a, b);
      LowerSlices(a, b, 1);
      FindCategoryLower(t.categories, 0, a[1..], b[1..]);
      LookupLower(t, a, b);
      FirstArgLower(t, a, b);
    }
  }

  // ---------------------------------------------------------------- what an operation logs

  function MeanOf(t: Table, a: Action): Mean
    requires !a.Reset?
  {
    match a
    case Perm(Top(c), _, _) => Mean(Foot(c), {c.id}, None)
    case Perm(Under(_, sub), _, _) => Mean({sub.id}, {}, None)
    case Arg(id, arg, _) => Mean({}, {}, Some((id, LowerAll(arg))))
    case Cat(cat, _, _) => Mean(CatFoot(t.commands, cat), CatTops(t.commands, cat), None)
  }

  function Allows(a: Action): bool
    requires !a.Reset?
  {
    a.Arg? || a.allow
  }

  /** Splitting at the last bar and at the first one is the same when the front is a command. */
  lemma OneBar(t: Table, body: Bytes)
    requires LastBar(body) < |body| && Lookup(t, body[..LastBar(body)]).Some?
    requires Lookup(t, body[..LastBar(body)]).value.Top?
    ensures BarAt(body) == LastBar(body)
    ensures BAR !in body[LastBar(body) + 1..]
    ensures FindCommand(t.commands, body[..LastBar(body)]) == Some(Lookup(t, body[..LastBar(body)]).value.c)
  {
    var i := LastBar(body);
    var f := body[..i];
    assert BarAt(f) == |f|;
    assert f[..|f|] == f;
    BarAtIs(body, i);
  }

  lemma AllowMeaning(t: Table, body: Bytes)
    requires ParseAllow(t, body).Some? && (body != [] ==> body[0] != AT)
    ensures var a := ParseAllow(t, body).value;
            !a.Reset? && a.rule == Rule(PLUS, body) && Allows(a) && Meaning(t, body) == Some(MeanOf(t, a))
  {
    hide Foot, FindCommand, FindSub;
    var i := LastBar(body);
    if i == |body| {
      FullNameLower(t, body);
    } else {
      OneBar(t, body);
    }
  }

  lemma DenyMeaning(t: Table, body: Bytes)
    requires ParseDeny(t, body).Some? && (body != [] ==> body[0] != AT)
    ensures var a := ParseDeny(t, body).value;
            && !a.Reset? && a.rule == Rule(MINUS, body) && !Allows(a)
            && Meaning(t, body) == Some(MeanOf(t, a)) && MeanOf(t, a).adds.None?
  {
    hide Foot, FindCommand, FindSub;
    FullNameLower(t, body);
  }

  /** What is logged for a successful operation is its own text in lower case, and means what the
      operation does. */
  lemma ParseMeaning(t: Table, op: Bytes)
    requires Parse(t, op).Some? && !Parse(t, op).value.Reset?
    ensures var a := Parse(t, op).value;
            && op != [] && a.rule == Rule(op[0], op[1..]) && (op[0] == PLUS || op[0] == MINUS)
            && (Allows(a) <==> op[0] == PLUS)
            && Meaning(t, a.rule[1..]) == Some(MeanOf(t, a))
            && (op[0] == MINUS ==> MeanOf(t, a).adds.None?)
  {
    hide ParseAllow, ParseDeny, CatFoot, CatTops, FindCategory, Lookup, FirstArg;
    var a := Parse(t, op).value;
    var body := op[1..];
    assert Rule(op[0], body)[1..] == LowerAll(body);
    LowerTwice(body);
    MeaningLower(t, body, LowerAll(body));
    if |op| > 1 && op[1] == AT {
      assert body[1..] == op[2..];
    } else if op[0] == PLUS {
      AllowMeaning(t, body);
    } else {
      DenyMeaning(t, body);
    }
  }

  /** A token of an operation: no white space and no NUL, as command names and arguments have. */
  predicate IsToken(op: Bytes) {
    SPACE !in op && NUL !in op
  }

  lemma ParsedRuleOk(t: Table, op: Bytes)
    requires Parse(t, op).Some? && !Parse(t, op).value.Reset? && IsToken(op)
    ensures RuleOk(t, Parse(t, op).value.rule)
  {
    hide Parse, Meaning;
    ParseMeaning(t, op);
    var r := Rule(op[0], op[1..]);
    LowerTwice(op[1..]);
    assert r[1..] == LowerAll(op[1..]);
    forall k | 0 <= k < |r|
      ensures r[k] != SPACE && r[k] != NUL
    {
      assert op[k] in op && (k > 0 ==> r[k] == Lower(op[k]));
    }
  }
}
