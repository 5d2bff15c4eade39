/** What ACL command rules mean, and why dropping the rules a new one replaces loses nothing. */
module AclRules {
  import opened Decimal
  import opened Options
  import opened AclString

  const AT: byte := 64

  /** A subcommand and a command of the table; categories are numbered. */
  datatype Sub = Sub(id: nat, name: Bytes, cats: set<nat>)
  datatype Command = Command(id: nat, name: Bytes, cats: set<nat>, subs: seq<Sub>)
  datatype Table = Table(commands: seq<Command>, categories: seq<Bytes>)

  datatype Target = Top(c: Command) | Under(c: Command, sub: Sub)

  function LowerAll(s: Bytes): (r: Bytes)
    ensures |r| == |s|
  {
    seq(|s|, i requires 0 <= i < |s| => Lower(s[i]))
  }

  // ---------------------------------------------------------------- lookup

  function FindCommand(cs: seq<Command>, name: Bytes): Option<Command> {
    if cs == [] then None
    else if EqualsIgnoreCase(cs[0].name, name) then Some(cs[0])
    else FindCommand(cs[1..], name)
  }

  function FindSub(ss: seq<Sub>, name: Bytes): Option<Sub> {
    if ss == [] then None
    else if EqualsIgnoreCase(ss[0].name, name) then Some(ss[0])
    else FindSub(ss[1..], name)
  }

  /** ACLGetCommandCategoryFlagByName, as the category's number, from number `i` on. */
  function FindCategory(cats: seq<Bytes>, i: nat, name: Bytes): Option<nat>
    decreases |cats| - i
  {
    if i >= |cats| then None
    else if EqualsIgnoreCase(cats[i], name) then Some(i)
    else FindCategory(cats, i + 1, name)
  }

  /** Where the first bar stands, or the end. */
  function BarAt(s: Bytes): (i: nat)
    ensures i <= |s|
    ensures i < |s| ==> s[i] == BAR
    ensures BAR !in s[..i]
  {
    if s == [] || s[0] == BAR then 0 else
    assert s[..1 + BarAt(s[1..])] == [s[0]] + s[1..][..BarAt(s[1..])];
    1 + BarAt(s[1..])
  }

  /** lookupCommandBySdsLogic, strict: a command, or a command that has subcommands, a bar and
      one of them. */
  function Lookup(t: Table, s: Bytes): Option<Target> {
    if s == [] then None else
    var i := BarAt(s);
    if i == |s| then
      match FindCommand(t.commands, s)
      case None => None
      case Some(c) => Some(Top(c))
    else if BAR in s[i + 1..] then None
    else
      match FindCommand(t.commands, s[..i])
      case None => None
      case Some(c) =>
        if c.subs == [] then None else
        match FindSub(c.subs, s[i + 1..])
        case None => None
        case Some(sub) => Some(Under(c, sub))
  }

  // ---------------------------------------------------------------- meaning

  function SubIds(ss: seq<Sub>): set<nat> {
    if ss == [] then {} else {ss[0].id} + SubIds(ss[1..])
  }

  /** The bits a rule about a command covers. */
  function Foot(c: Command): set<nat> {
    {c.id} + SubIds(c.subs)
  }

  function CatSubIds(ss: seq<Sub>, cat: nat): set<nat> {
    if ss == [] then {} else (if cat in ss[0].cats then {ss[0].id} else {}) + CatSubIds(ss[1..], cat)
  }

  /** The bits a rule about a category covers, and the commands whose first arguments it drops. */
  function CatFoot(cs: seq<Command>, cat: nat): set<nat> {
    if cs == [] then {}
    else (if cat in cs[0].cats then Foot(cs[0]) else {}) + CatSubIds(cs[0].subs, cat) + CatFoot(cs[1..], cat)
  }

  function CatTops(cs: seq<Command>, cat: nat): set<nat> {
    if cs == [] then {} else (if cat in cs[0].cats then {cs[0].id} else {}) + CatTops(cs[1..], cat)
  }

  /** What a rule body touches: bits, first-argument lists it clears, and a first argument it
      adds. */
  datatype Mean = Mean(bits: set<nat>, clears: set<nat>, adds: Option<(nat, Bytes)>)

  /** A body `command|argument` for a command without subcommands. */
  function FirstArg(t: Table, body: Bytes): Option<(nat, Bytes)> {
    var i := BarAt(body);
    if i == |body| || BAR in body[i + 1..] || i + 1 == |body| then None else
    match FindCommand(t.commands, body[..i])
    case None => None
    case Some(c) => if c.subs == [] then Some((c.id, LowerAll(body[i + 1..]))) else None
  }

  function Meaning(t: Table, body: Bytes): Option<Mean> {
    if body == [] then None
    else if body[0] == AT then
      match FindCategory(t.categories, 0, body[1..])
      case None => None
      case Some(cat) => Some(Mean(CatFoot(t.commands, cat), CatTops(t.commands, cat), None))
    else
      match Lookup(t, body)
      case Some(Top(c)) => Some(Mean(Foot(c), {c.id}, None))
      case Some(Under(_, sub)) => Some(Mean({sub.id}, {}, None))
      case None => if FirstArg(t, body).Some? then Some(Mean({}, {}, FirstArg(t, body))) else None
  }

  /** A rule of the log: a sign and a lower-case body with a meaning; a first argument can only
      be allowed. */
  predicate RuleOk(t: Table, r: Bytes) {
    && IsRule(r) && (r[0] == PLUS || r[0] == MINUS) && LowerAll(r[1..]) == r[1..]
    && Meaning(t, r[1..]).Some?
    && (r[0] == MINUS ==> Meaning(t, r[1..]).value.adds.None?)
  }

  ghost predicate RulesOk(t: Table, rs: seq<Bytes>) {
    forall i :: 0 <= i < |rs| ==> RuleOk(t, rs[i])
  }

  // ---------------------------------------------------------------- effects

  const BITS: nat := 1024

  function AllIds(n: nat): set<nat> {
    if n == 0 then {} else AllIds(n - 1) + {n - 1}
  }

  /** What a selector allows: command bits, and pairs of a command and a first argument. */
  datatype Effect = Effect(bits: set<nat>, args: set<(nat, Bytes)>)

  function Start(all: bool): Effect {
    Effect(if all then AllIds(BITS) else {}, {})
  }

  function Without(args: set<(nat, Bytes)>, clears: set<nat>): set<(nat, Bytes)> {
    set p | p in args && p.0 !in clears
  }

  function Act(e: Effect, allow: bool, m: Mean): Effect {
    Effect(if allow then e.bits + m.bits else e.bits - m.bits,
           Without(e.args, m.clears) + (if m.adds.Some? then {m.adds.value} else {}))
  }

  function ActRule(t: Table, e: Effect, r: Bytes): Effect {
    if RuleOk(t, r) then Act(e, r[0] == PLUS, Meaning(t, r[1..]).value) else e
  }

  function Fold(t: Table, e: Effect, rs: seq<Bytes>): Effect
    decreases |rs|
  {
    if rs == [] then e else Fold(t, ActRule(t, e, rs[0]), rs[1..])
  }

  // ---------------------------------------------------------------- dropping replaced rules

  predicate Touched(m: Mean, p: (nat, Bytes)) {
    p.0 in m.clears || m.adds == Some(p)
  }

  /** The same but for what `m` overwrites. */
  ghost predicate Agree(a: Effect, b: Effect, m: Mean) {
    && (forall i :: i !in m.bits ==> (i in a.bits <==> i in b.bits))
    && (forall p :: !Touched(m, p) ==> (p in a.args <==> p in b.args))
  }

  /** Everything `x` touches, `m` overwrites. */
  predicate Below(x: Mean, m: Mean) {
    x.bits <= m.bits && x.clears <= m.clears && (x.adds.Some? ==> Touched(m, x.adds.value))
  }

  lemma AgreeAct(a: Effect, b: Effect, m: Mean, allow: bool, x: Mean)
    requires Agree(a, b, m)
    ensures Agree(Act(a, allow, x), Act(b, allow, x), m)
  {
  }

  lemma AgreeDrop(a: Effect, b: Effect, m: Mean, allow: bool, x: Mean)
    requires Agree(a, b, m) && Below(x, m)
    ensures Agree(Act(a, allow, x), b, m)
  {
  }

  /** Overwriting makes them equal. */
  lemma AgreeOverwrite(a: Effect, b: Effect, m: Mean, allow: bool)
    requires Agree(a, b, m)
    ensures Act(a, allow, m) == Act(b, allow, m)
  {
    var x, y := Act(a, allow, m), Act(b, allow, m);
    assert x.bits == y.bits;
    assert x.args == y.args;
  }

  lemma {:induction false} FindSubMember(ss: seq<Sub>, name: Bytes)
    requires FindSub(ss, name).Some?
    ensures FindSub(ss, name).value.id in SubIds(ss)
  {
    if !EqualsIgnoreCase(ss[0].name, name) { FindSubMember(ss[1..], name); }
  }

  ghost predicate CategoriesOk(t: Table) {
    forall i :: 0 <= i < |t.categories| ==> BAR !in t.categories[i]
  }

  lemma {:induction false} FindCategoryPlain(cats: seq<Bytes>, i: nat, name: Bytes)
    requires forall k :: 0 <= k < |cats| ==> BAR !in cats[k]
    requires FindCategory(cats, i, name).Some?
    ensures BAR !in name
    decreases |cats| - i
  {
    if EqualsIgnoreCase(cats[i], name) {
      forall k | 0 <= k < |name|
        ensures name[k] != BAR
      {
        assert Lower(cats[i][k]) == Lower(name[k]) && cats[i][k] in cats[i];
      }
    } else {
      FindCategoryPlain(cats, i + 1, name);
    }
  }

  /** The first bar of a body that goes on after `b` with a bar. */
  lemma BarAtExtended(b: Bytes, prior: Bytes)
    requires |prior| > |b| && prior[..|b|] == b && prior[|b|] == BAR
    ensures BarAt(b) == |b| ==> BarAt(prior) == |b|
    ensures BarAt(b) < |b| ==> BarAt(prior) < |prior| && BAR in prior[BarAt(prior) + 1..]
  {
    var i := BarAt(prior);
    assert forall k :: 0 <= k < i ==> prior[..i][k] == prior[k];
    assert forall k :: 0 <= k < |b| ==> b[k] == prior[k];
    if BarAt(b) == |b| {
      assert b[..|b|] == b;
    } else {
      assert prior[BarAt(b)] == BAR;
      assert prior[i + 1..][|b| - i - 1] == BAR;
    }
  }

  /** A rule that a new one replaces touches nothing the new one does not overwrite. */
  lemma ReplacedIsBelow(t: Table, b: Bytes, prior: Bytes)
    requires CategoriesOk(t) && Meaning(t, b).Some? && Meaning(t, prior).Some? && Replaces(b, prior)
    ensures Below(Meaning(t, prior).value, Meaning(t, b).value)
  {
    if b != prior {
      assert prior[0] == prior[..|b|][0] == b[0];
      if b[0] == AT {
        assert prior[1..][|b| - 1] == BAR;
        FindCategoryPlain(t.categories, 0, prior[1..]);
        assert false;
      } else {
        BarAtExtended(b, prior);
        ExtendedCommand(t, b, prior);
      }
    }
  }

  lemma ExtendedCommand(t: Table, b: Bytes, prior: Bytes)
    requires b != [] && b[0] != AT && |prior| > |b| && prior[..|b|] == b && prior[|b|] == BAR
    requires BarAt(b) == |b| ==> BarAt(prior) == |b|
    requires BarAt(b) < |b| ==> BarAt(prior) < |prior| && BAR in prior[BarAt(prior) + 1..]
    requires Meaning(t, b).Some? && Meaning(t, prior).Some?
    ensures Below(Meaning(t, prior).value, Meaning(t, b).value)
  {
    assert prior[0] == prior[..|b|][0] == b[0];
    var c := FindCommand(t.commands, b);
    if c.Some? && c.value.subs != [] && FindSub(c.value.subs, prior[|b| + 1..]).Some? {
      FindSubMember(c.value.subs, prior[|b| + 1..]);
    }
  }

  lemma {:induction false} KeptAgrees(t: Table, e: Effect, f: Effect, rs: seq<Bytes>, b: Bytes)
    requires CategoriesOk(t) && RulesOk(t, rs) && Meaning(t, b).Some? && Agree(e, f, Meaning(t, b).value)
    ensures Agree(Fold(t, e, rs), Fold(t, f, Kept(rs, b)), Meaning(t, b).value)
    decreases |rs|
  {
    hide Agree, Meaning, Act;
    if rs != [] {
      var m := Meaning(t, b).value;
      assert RuleOk(t, rs[0]);
      var x := Meaning(t, rs[0][1..]).value;
      if Dropped(b, rs[0]) {
        ReplacedIsBelow(t, b, rs[0][1..]);
        AgreeDrop(e, f, m, rs[0][0] == PLUS, x);
        KeptAgrees(t, ActRule(t, e, rs[0]), f, rs[1..], b);
        assert [] + Kept(rs[1..], b) == Kept(rs[1..], b);
      } else {
        AgreeAct(e, f, m, rs[0][0] == PLUS, x);
        KeptAgrees(t, ActRule(t, e, rs[0]), ActRule(t, f, rs[0]), rs[1..], b);
        assert Kept(rs, b)[0] == rs[0] && Kept(rs, b)[1..] == Kept(rs[1..], b);
      }
    }
  }

  lemma {:induction false} FoldSnoc(t: Table, e: Effect, rs: seq<Bytes>, r: Bytes)
    ensures Fold(t, e, rs + [r]) == ActRule(t, Fold(t, e, rs), r)
    decreases |rs|
  {
    hide ActRule;
    if rs == [] {
      assert [r][1..] == [] && rs + [r] == [r];
    } else {
      assert (rs + [r])[1..] == rs[1..] + [r];
      FoldSnoc(t, ActRule(t, e, rs[0]), rs[1..], r);
    }
  }

  /** ACLUpdateCommandRules on the list of rules. */
  function Updated(rs: seq<Bytes>, r: Bytes): seq<Bytes>
    requires r != []
  {
    Kept(rs, r[1..]) + [r]
  }

  /** Dropping the replaced rules before adding the new one does not change what the log grants. */
  lemma UpdateKeepsEffect(t: Table, e: Effect, rs: seq<Bytes>, r: Bytes)
    requires CategoriesOk(t) && RulesOk(t, rs) && RuleOk(t, r)
    ensures Fold(t, e, Updated(rs, r)) == ActRule(t, Fold(t, e, rs), r)
  {
    hide Fold, Meaning, Kept, Act;
    var b := r[1..];
    var m := Meaning(t, b).value;
    assert Agree(e, e, m);
    KeptAgrees(t, e, e, rs, b);
    FoldSnoc(t, e, Kept(rs, b), r);
    AgreeOverwrite(Fold(t, e, rs), Fold(t, e, Kept(rs, b)), m, r[0] == PLUS);
  }

  // ---------------------------------------------------------------- compacted logs

  predicate Stays(earlier: Bytes, later: Bytes) {
    later != [] && !Dropped(later[1..], earlier)
  }

  /** No rule is followed by one that replaces it. */
  ghost predicate Compacted(rs: seq<Bytes>) {
    forall i, j :: 0 <= i < j < |rs| ==> Stays(rs[i], rs[j])
  }

  lemma {:induction false} KeptFrom(rs: seq<Bytes>, b: Bytes, i: nat) returns (k: nat)
    requires i < |Kept(rs, b)|
    ensures i <= k < |rs| && Kept(rs, b)[i] == rs[k] && !Dropped(b, rs[k])
    ensures Kept(rs[k + 1..], b) == Kept(rs, b)[i + 1..]
    decreases |rs|
  {
    if Dropped(b, rs[0]) {
      assert Kept(rs, b) == Kept(rs[1..], b);
      var k' := KeptFrom(rs[1..], b, i);
      k := k' + 1;
      assert rs[1..][k' + 1..] == rs[k + 1..];
    } else if i == 0 {
      k := 0;
    } else {
      assert Kept(rs, b)[1..] == Kept(rs[1..], b);
      var k' := KeptFrom(rs[1..], b, i - 1);
      k := k' + 1;
      assert rs[1..][k' + 1..] == rs[k + 1..];
      assert Kept(rs, b)[i + 1..] == Kept(rs[1..], b)[i..];
    }
  }

  lemma {:induction false} KeptRulesOk(t: Table, rs: seq<Bytes>, b: Bytes)
    requires RulesOk(t, rs)
    ensures RulesOk(t, Kept(rs, b))
  {
    forall i | 0 <= i < |Kept(rs, b)|
      ensures RuleOk(t, Kept(rs, b)[i])
    {
      var k := KeptFrom(rs, b, i);
    }
  }

  lemma KeptCompacted(rs: seq<Bytes>, b: Bytes)
    requires Compacted(rs)
    ensures Compacted(Kept(rs, b))
  {
    var ks := Kept(rs, b);
    forall i, j | 0 <= i < j < |ks|
      ensures Stays(ks[i], ks[j])
    {
      var k := KeptFrom(rs, b, i);
      var l := KeptFrom(rs[k + 1..], b, j - i - 1);
      assert ks[j] == ks[i + 1..][j - i - 1] == rs[k + 1..][l] == rs[k + 1 + l];
    }
  }

  /** Every update leaves a compacted log of meaningful rules. */
  lemma UpdatedOk(t: Table, rs: seq<Bytes>, r: Bytes)
    requires RulesOk(t, rs) && Compacted(rs) && RuleOk(t, r)
    ensures RulesOk(t, Updated(rs, r)) && Compacted(Updated(rs, r))
  {
    hide Dropped;
    var ks := Kept(rs, r[1..]);
    KeptRulesOk(t, rs, r[1..]);
    KeptCompacted(rs, r[1..]);
    forall i | 0 <= i < |ks|
      ensures !Dropped(r[1..], ks[i])
    {
      var k := KeptFrom(rs, r[1..], i);
    }
  }

  lemma {:induction false} KeptAll(rs: seq<Bytes>, b: Bytes)
    requires forall i :: 0 <= i < |rs| ==> !Dropped(b, rs[i])
    ensures Kept(rs, b) == rs
  {
    if rs != [] {
      KeptAll(rs[1..], b);
    }
  }

  /** Replaying a compacted log one rule at a time drops nothing. */
  lemma ReplayStep(rs: seq<Bytes>, i: nat)
    requires Compacted(rs) && i < |rs| && rs[i] != []
    ensures Updated(rs[..i], rs[i]) == rs[..i + 1]
  {
    assert forall k :: 0 <= k < i ==> Stays(rs[k], rs[i]);
    KeptAll(rs[..i], rs[i][1..]);
    assert rs[..i] + [rs[i]] == rs[..i + 1];
  }
}
