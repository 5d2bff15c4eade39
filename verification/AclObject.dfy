/** The ACL selector and the command id registry as the server keeps them: updated in place. */
module AclObject {
  import opened Decimal
  import opened AclString
  import opened AclRules
  import opened AclSelector

  class SelectorObject {
    const bits: array<bool>
    const firstArgs: array<seq<Bytes>>
    var rules: array<byte>
    ghost var text: Bytes          // the string in `rules`
    var all: bool

    ghost predicate Valid()
      reads this, rules
    {
      && bits.Length == BITS && firstArgs.Length == BITS
      && Holds(rules, text) && AclString.WellFormed(text)
    }

    ghost function Value(): Selector
      reads this, bits, firstArgs
    {
      Selector(bits[..], firstArgs[..], text, all)
    }

    /** ACLCreateSelector. */
    constructor ()
      ensures Valid() && Value() == NewSelector() && fresh(bits) && fresh(firstArgs) && fresh(rules)
    {
      bits := new bool[BITS](_ => false);
      firstArgs := new seq<Bytes>[BITS](_ => []);
      rules := new byte[1](_ => NUL);
      text, all := [], false;
      new;
      assert bits[..] == Fill(BITS, false);
      assert firstArgs[..] == NoArgs(BITS);
    }

    /** ACLSetSelectorCommandBit. */
    method SetCommandBit(id: nat, value: bool)
      requires Valid()
      modifies `all, bits
      ensures Valid() && Value() == Mark(old(Value()), id, value)
    {
      if id < bits.Length {
        bits[id] := value;
        if !value {
          all := false;
        }
      }
    }

    /** ACLResetFirstArgsForCommand. */
    method ResetFirstArgsForCommand(id: nat)
      requires Valid()
      modifies firstArgs
      ensures Valid() && Value() == DropArgs(old(Value()), id)
    {
      if id < firstArgs.Length {
        firstArgs[id] := [];
      }
    }

    /** ACLChangeSelectorPerm. */
    method ChangeSelectorPerm(x: Target, allow: bool)
      requires Valid()
      modifies `all, bits, firstArgs
      ensures Valid() && Value() == Change(old(Value()), x, allow)
    {
      hide MarkSubs, Mark, DropArgs;
      var id := if x.Top? then x.c.id else x.sub.id;
      SetCommandBit(id, allow);
      ResetFirstArgsForCommand(id);
      if x.Top? {
        var subs := x.c.subs;
        ghost var s0 := Value();
        var i := 0;
        MarkNone(s0, allow);
        while i < |subs|
          invariant 0 <= i <= |subs|
          invariant Valid() && Value() == MarkSubs(s0, subs[..i], allow)
          invariant rules == old(rules) && rules[..] == old(rules[..]) && text == old(text)
        {
          MarkSnoc(s0, subs[..i], subs[i], allow);
          assert subs[..i + 1] == subs[..i] + [subs[i]];
          SetCommandBit(subs[i].id, allow);
          i := i + 1;
        }
        assert subs[..i] == subs;
      }
    }

    /** ACLSetSelectorCommandBitsForCategory, with its recursion into subcommands. */
    method SetBitsForCategory(commands: seq<Command>, cat: nat, value: bool)
      requires Valid()
      modifies `all, bits, firstArgs
      ensures Valid() && Value() == ChangeCat(old(Value()), commands, cat, value)
    {
      hide ChangeCat, ChangeCatSubs, Change;
      ghost var s0 := Value();
      CatNone(s0, cat, value);
      var i := 0;
      while i < |commands|
        invariant 0 <= i <= |commands|
        invariant Valid() && Value() == ChangeCat(s0, commands[..i], cat, value)
      {
        var c := commands[i];
        CatSnoc(s0, commands[..i], c, cat, value);
        assert commands[..i + 1] == commands[..i] + [c];
        if cat in c.cats {
          ChangeSelectorPerm(Top(c), value);
        }
        ghost var s1 := Value();
        CatSubsNone(s1, c, cat, value);
        var j := 0;
        while j < |c.subs|
          invariant 0 <= j <= |c.subs|
          invariant Valid() && Value() == ChangeCatSubs(s1, c, c.subs[..j], cat, value)
        {
          CatSubsSnoc(s1, c, c.subs[..j], c.subs[j], cat, value);
          assert c.subs[..j + 1] == c.subs[..j] + [c.subs[j]];
          if cat in c.subs[j].cats {
            ChangeSelectorPerm(Under(c, c.subs[j]), value);
          }
          j := j + 1;
        }
        assert c.subs[..j] == c.subs;
        i := i + 1;
      }
      assert commands[..i] == commands;
    }

    /** ACLAddAllowedFirstArg. */
    method AddAllowedFirstArg(id: nat, sub: Bytes)
      requires Valid()
      modifies firstArgs
      ensures Valid() && Value() == AddArg(old(Value()), id, sub)
    {
      if id >= firstArgs.Length {
        return;
      }
      var items := 0;
      while items < |firstArgs[id]|
        invariant 0 <= items <= |firstArgs[id]|
        invariant forall j :: 0 <= j < items ==> !EqualsIgnoreCase(firstArgs[id][j], sub)
      {
        if EqualsIgnoreCase(firstArgs[id][items], sub) {
          return;
        }
        items := items + 1;
      }
      firstArgs[id] := firstArgs[id] + [sub];
    }

    /** ACLUpdateCommandRules; the caller's rule is a token. */
    method UpdateCommandRules(rule: Bytes, allow: bool)
      requires Valid() && IsToken(rule)
      modifies this, rules
      ensures Valid() && all == old(all) && fresh(rules)
      ensures text == Joined(Updated(RulesOf(old(text)), Rule(if allow then PLUS else MINUS, rule)))
    {
      hide Joined, RulesOf, Kept;
      var newRule := LowerAll(rule);
      ghost var before := text;
      RemoveCommandRule(rules, text, newRule);
      ghost var ks := Kept(RulesOf(before), newRule);
      KeptRules(RulesOf(before), newRule);
      ghost var kept := Joined(ks);
      var end := StringEnd(rules, kept, 0);
      var sign := if allow then PLUS else MINUS;
      var line := (if end > 0 then rules[..end] + [SPACE] else []) + [sign] + newRule;
      ghost var r := Rule(sign, rule);
      assert r[1..] == newRule;
      NewLog(ks, r, rule, sign);
      assert line == Joined(ks + [r]);
      rules := new byte[|line| + 1](i requires 0 <= i => if i < |line| then line[i] else NUL);
      text := line;
      assert rules[..|line|] == line;
    }

    /** sdsclear(command_rules). */
    method ClearRules()
      requires Valid()
      modifies this
      ensures Valid() && text == [] && all == old(all) && fresh(rules)
    {
      rules := new byte[1](_ => NUL);
      text := [];
    }

    /** The +@all and -@all branches of ACLSetSelector. */
    method ResetCommands(v: bool)
      requires Valid()
      modifies this, bits, firstArgs
      ensures Valid() && Value() == Selector(Fill(BITS, v), NoArgs(BITS), [], v)
      ensures fresh(rules)
    {
      forall i | 0 <= i < bits.Length {
        bits[i] := v;
      }
      all := v;
      ClearRules();
      forall i | 0 <= i < firstArgs.Length {
        firstArgs[i] := [];
      }
      assert bits[..] == Fill(BITS, v);
      assert firstArgs[..] == NoArgs(BITS);
    }

    /** ACLSetSelector on a command operation. Whether the full name of the command or the text
        of the operation is logged makes no difference: both are the same in lower case. */
    method SetSelector(t: Table, op: Bytes) returns (ok: bool)
      requires Valid() && IsToken(op)
      modifies this, rules, bits, firstArgs
      ensures Valid() && ok == Parse(t, op).Some? && Value() == Set(t, old(Value()), op)
    {
      hide Parse, Change, ChangeCat, AddArg, Joined, Updated, RulesOf, Kept, Rule;
      ghost var s0 := Value();
      var p := Parse(t, op);
      ok := p.Some?;
      if p.None? {
        return;
      }
      ParseRule(t, op);
      if p.value.Reset? {
        ResetCommands(p.value.all);
        return;
      }
      ParseMeaning(t, op);
      TokenTail(op);
      match p.value {
        case Perm(x, allow, _) =>
          ChangeSelectorPerm(x, allow);
          UpdateCommandRules(op[1..], op[0] == PLUS);
        case Arg(id, arg, _) =>
          AddAllowedFirstArg(id, arg);
          UpdateCommandRules(op[1..], op[0] == PLUS);
        case Cat(cat, allow, _) =>
          UpdateCommandRules(op[1..], op[0] == PLUS);
          SetBitsForCategory(t.commands, cat, allow);
      }
    }
  }

  lemma TokenTail(op: Bytes)
    requires op != [] && IsToken(op)
    ensures IsToken(op[1..])
  {
  }

  lemma MarkNone(s: Selector, v: bool)
    ensures MarkSubs(s, [], v) == s
  {
  }

  lemma {:induction false} MarkSnoc(s: Selector, ss: seq<Sub>, x: Sub, v: bool)
    ensures MarkSubs(s, ss + [x], v) == Mark(MarkSubs(s, ss, v), x.id, v)
    decreases |ss|
  {
    hide Mark;
    if ss == [] {
      assert ss + [x] == [x] && [x][1..] == [];
    } else {
      assert (ss + [x])[1..] == ss[1..] + [x];
      MarkSnoc(Mark(s, ss[0].id, v), ss[1..], x, v);
    }
  }

  lemma CatSubsNone(s: Selector, c: Command, cat: nat, v: bool)
    ensures ChangeCatSubs(s, c, [], cat, v) == s
  {
  }

  lemma {:induction false} CatSubsSnoc(s: Selector, c: Command, ss: seq<Sub>, x: Sub, cat: nat, v: bool)
    ensures var m := ChangeCatSubs(s, c, ss, cat, v);
            ChangeCatSubs(s, c, ss + [x], cat, v) == if cat in x.cats then Change(m, Under(c, x), v) else m
    decreases |ss|
  {
    hide Change;
    if ss == [] {
      assert ss + [x] == [x] && [x][1..] == [];
    } else {
      assert (ss + [x])[1..] == ss[1..] + [x];
      CatSubsSnoc(if cat in ss[0].cats then Change(s, Under(c, ss[0]), v) else s, c, ss[1..], x, cat, v);
    }
  }

  lemma CatNone(s: Selector, cat: nat, v: bool)
    ensures ChangeCat(s, [], cat, v) == s
  {
  }

  lemma {:induction false} CatSnoc(s: Selector, cs: seq<Command>, c: Command, cat: nat, v: bool)
    ensures var m := ChangeCat(s, cs, cat, v);
            ChangeCat(s, cs + [c], cat, v) ==
            ChangeCatSubs(if cat in c.cats then Change(m, Top(c), v) else m, c, c.subs, cat, v)
    decreases |cs|
  {
    hide Change, ChangeCatSubs;
    if cs == [] {
      assert cs + [c] == [c] && [c][1..] == [];
      var m := ChangeCatSubs(if cat in c.cats then Change(s, Top(c), v) else s, c, c.subs, cat, v);
      CatNone(m, cat, v);
    } else {
      assert (cs + [c])[1..] == cs[1..] + [c];
      var s1 := if cat in cs[0].cats then Change(s, Top(cs[0]), v) else s;
      CatSnoc(ChangeCatSubs(s1, cs[0], cs[0].subs, cat, v), cs[1..], c, cat, v);
    }
  }

  lemma LogText(ks: seq<Bytes>, r: Bytes)
    requires AllRules(ks)
    ensures var kept := Joined(ks);
            Joined(ks + [r]) == (if |kept| > 0 then kept + [SPACE] else []) + r
  {
    JoinedNoNul(ks);
    assert Joined([r]) == r;
    hide Joined;
    if ks == [] {
      assert ks + [r] == [r];
      assert Joined([]) == [] by { NoRules(); }
      assert [] + r == r;
    } else {
      JoinedAppend(ks, [r]);
    }
  }

  lemma NoRules()
    ensures Joined([]) == []
  {
  }

  /** The log with one more rule, as text. */
  lemma NewLog(ks: seq<Bytes>, r: Bytes, rule: Bytes, sign: byte)
    requires AllRules(ks) && IsToken(rule) && r == Rule(sign, rule) && (sign == PLUS || sign == MINUS)
    ensures var kept := Joined(ks);
            Joined(ks + [r]) == (if |kept| > 0 then kept + [SPACE] else []) + [sign] + LowerAll(rule)
    ensures AclString.WellFormed(Joined(ks + [r])) && NUL !in Joined(ks + [r])
  {
    assert IsRule(r) by { LoweredRule(r, rule, sign); }
    hide Joined, AclString.WellFormed;
    assert AclString.WellFormed(Joined(ks + [r])) && NUL !in Joined(ks + [r]) by {
      assert AllRules(ks + [r]);
      RulesOfJoined(ks + [r]);
      JoinedNoNul(ks + [r]);
    }
    LogText(ks, r);
    var pre := if |Joined(ks)| > 0 then Joined(ks) + [SPACE] else [];
    assert pre + r == pre + [sign] + LowerAll(rule);
  }

  lemma LoweredRule(r: Bytes, rule: Bytes, sign: byte)
    requires IsToken(rule) && r == Rule(sign, rule) && (sign == PLUS || sign == MINUS)
    ensures IsRule(r)
  {
    forall i | 0 <= i < |r|
      ensures r[i] != SPACE && r[i] != NUL
    {
      if i > 0 { assert r[i] == Lower(rule[i - 1]) && rule[i - 1] in rule; }
    }
  }

  // ---------------------------------------------------------------- command ids

  /** The registry behind ACLGetCommandID. */
  class CommandIds {
    var ids: map<Bytes, nat>
    var nextId: nat

    /** Ids are handed out once, below the next one, and never the reserved bit. */
    ghost predicate Valid()
      reads this
    {
      && nextId != RESERVED
      && (forall n :: n in ids ==> ids[n] < nextId && ids[n] != RESERVED)
      && (forall n, m :: n in ids && m in ids && ids[n] == ids[m] ==> n == m)
    }

    constructor ()
      ensures Valid() && ids == map[]
    {
      ids, nextId := map[], 0;
    }

    /** ACLGetCommandID: the same id for the same name, whatever its case; a new one otherwise. */
    method GetCommandId(name: Bytes) returns (id: nat)
      requires Valid()
      modifies this
      ensures Valid() && id != RESERVED
      ensures LowerAll(name) in ids && ids[LowerAll(name)] == id
      ensures forall n :: n in old(ids) ==> n in ids && ids[n] == old(ids)[n]
      ensures ids.Keys == old(ids.Keys) + {LowerAll(name)}
      ensures LowerAll(name) !in old(ids) ==> id == old(nextId)
    {
      var lower := LowerAll(name);
      if lower in ids {
        return ids[lower];
      }
      ids := ids[lower := nextId];
      id := nextId;
      nextId := nextId + 1;
      if nextId == RESERVED {
        nextId := nextId + 1;
      }
    }
  }
}
