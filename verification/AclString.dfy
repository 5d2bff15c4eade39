/** The rule log of an ACL selector as a string: rules separated by single spaces, edited in
    place. */
module AclString {
  import opened Decimal

  type Bytes = seq<byte>

  const BAR: byte := 124

  /** A rule: a sign and a body, without spaces. */
  predicate IsRule(t: Bytes) {
    t != [] && SPACE !in t && NUL !in t
  }

  ghost predicate AllRules(ts: seq<Bytes>) {
    forall i :: 0 <= i < |ts| ==> IsRule(ts[i])
  }

  function Joined(ts: seq<Bytes>): Bytes {
    if ts == [] then []
    else if |ts| == 1 then ts[0]
    else ts[0] + [SPACE] + Joined(ts[1..])
  }

  /** Cutting a string at every space. */
  function SplitSpaces(s: Bytes): (ts: seq<Bytes>)
    ensures ts != []
  {
    if s == [] then [[]]
    else if s[0] == SPACE then [[]] + SplitSpaces(s[1..])
    else var r := SplitSpaces(s[1..]); [[s[0]] + r[0]] + r[1..]
  }

  /** The rules of a log. */
  function RulesOf(s: Bytes): seq<Bytes> {
    if s == [] then [] else SplitSpaces(s)
  }

  /** No leading, trailing or double space. */
  ghost predicate WellFormed(s: Bytes) {
    AllRules(RulesOf(s))
  }

  /** A rule that a new rule replaces: the same body, or the body followed by a subcommand. */
  predicate Replaces(newRule: Bytes, body: Bytes) {
    body == newRule || (|body| > |newRule| && body[..|newRule|] == newRule && body[|newRule|] == BAR)
  }

  predicate Dropped(newRule: Bytes, t: Bytes) {
    t != [] && Replaces(newRule, t[1..])
  }

  function Kept(ts: seq<Bytes>, newRule: Bytes): seq<Bytes> {
    if ts == [] then []
    else (if Dropped(newRule, ts[0]) then [] else [ts[0]]) + Kept(ts[1..], newRule)
  }

  // ---------------------------------------------------------------- joining and splitting

  lemma {:induction false} SplitPrefix(t: Bytes, rest: Bytes)
    requires SPACE !in t
    ensures SplitSpaces(t) == [t]
    ensures SplitSpaces(t + [SPACE] + rest) == [t] + SplitSpaces(rest)
    decreases |t|
  {
    if t == [] {
      assert [] + [SPACE] + rest == [SPACE] + rest;
      assert ([SPACE] + rest)[1..] == rest;
    } else {
      SplitPrefix(t[1..], rest);
      assert (t + [SPACE] + rest)[1..] == t[1..] + [SPACE] + rest;
      assert [t[0]] + t[1..] == t;
      var r := [t[1..]] + SplitSpaces(rest);
      assert r[0] == t[1..] && r[1..] == SplitSpaces(rest);
    }
  }

  /** Splitting undoes joining. */
  lemma {:induction false} RulesOfJoined(ts: seq<Bytes>)
    requires AllRules(ts)
    ensures RulesOf(Joined(ts)) == ts
    decreases |ts|
  {
    if ts != [] {
      assert IsRule(ts[0]);
      if |ts| == 1 {
        SplitPrefix(ts[0], []);
      } else {
        assert AllRules(ts[1..]);
        RulesOfJoined(ts[1..]);
        assert IsRule(ts[1]) && Joined(ts[1..]) != [];
        SplitPrefix(ts[0], Joined(ts[1..]));
      }
    }
  }

  /** Joining undoes splitting. */
  lemma {:induction false} JoinedSplit(s: Bytes)
    ensures Joined(SplitSpaces(s)) == s
  {
    if s != [] {
      JoinedSplit(s[1..]);
      var r := SplitSpaces(s[1..]);
      if s[0] == SPACE {
        assert ([[]] + r)[1..] == r;
        assert [] + [SPACE] + s[1..] == s;
      } else {
        var q := [[s[0]] + r[0]] + r[1..];
        assert q[1..] == r[1..];
        if |r| > 1 {
          assert Joined(r) == r[0] + [SPACE] + Joined(r[1..]);
          assert [s[0]] + r[0] + [SPACE] + Joined(r[1..]) == [s[0]] + (r[0] + [SPACE] + Joined(r[1..]));
        }
        assert [s[0]] + s[1..] == s;
      }
    }
  }

  lemma JoinedRulesOf(s: Bytes)
    ensures Joined(RulesOf(s)) == s
  {
    JoinedSplit(s);
  }

  /** Where the rule after `done` starts. */
  function Offset(done: seq<Bytes>): nat {
    if done == [] then 0 else |Joined(done)| + 1
  }

  lemma {:induction false} JoinedAppend(a: seq<Bytes>, b: seq<Bytes>)
    requires a != [] && b != []
    ensures Joined(a + b) == Joined(a) + [SPACE] + Joined(b)
    decreases |a|
  {
    assert (a + b)[1..] == a[1..] + b;
    if |a| > 1 {
      JoinedAppend(a[1..], b);
    } else {
      assert a[1..] + b == b;
    }
  }

  lemma {:induction false} JoinedNoNul(ts: seq<Bytes>)
    requires AllRules(ts)
    ensures NUL !in Joined(ts)
    ensures ts != [] ==> Joined(ts) != []
    decreases |ts|
  {
    if ts != [] {
      assert IsRule(ts[0]);
      if |ts| > 1 {
        assert AllRules(ts[1..]);
        JoinedNoNul(ts[1..]);
      }
    }
  }

  /** What stands at and after the rule `rest[0]`. */
  lemma JoinedAt(done: seq<Bytes>, rest: seq<Bytes>)
    requires rest != []
    ensures var s := Joined(done + rest);
            var e := Offset(done);
            && e + |rest[0]| <= |s|
            && s[..e] == (if done == [] then [] else Joined(done) + [SPACE])
            && s[e..e + |rest[0]|] == rest[0]
            && s[e + |rest[0]|..] == if |rest| == 1 then [] else [SPACE] + Joined(rest[1..])
  {
    hide Joined;
    var pre := if done == [] then [] else Joined(done) + [SPACE];
    var post := if |rest| == 1 then [] else [SPACE] + Joined(rest[1..]);
    JoinedAround(done, rest);
    Pieces(Joined(done + rest), pre, rest[0], post);
  }

  lemma JoinedAround(done: seq<Bytes>, rest: seq<Bytes>)
    requires rest != []
    ensures var pre := if done == [] then [] else Joined(done) + [SPACE];
            var post := if |rest| == 1 then [] else [SPACE] + Joined(rest[1..]);
            Joined(done + rest) == pre + (rest[0] + post)
  {
    hide Joined;
    JoinedFirst(rest);
    if done == [] {
      assert done + rest == rest;
      assert [] + Joined(rest) == Joined(rest);
    } else {
      JoinedAppend(done, rest);
    }
  }

  lemma JoinedFirst(ts: seq<Bytes>)
    requires ts != []
    ensures Joined(ts) == ts[0] + if |ts| == 1 then [] else [SPACE] + Joined(ts[1..])
  {
    JoinedUnfold(ts);
    hide Joined;
    Regroup(ts[0], [SPACE], Joined(ts[1..]));
    assert ts[0] + [] == ts[0];
  }

  lemma JoinedUnfold(ts: seq<Bytes>)
    requires ts != []
    ensures Joined(ts) == if |ts| == 1 then ts[0] else ts[0] + [SPACE] + Joined(ts[1..])
  {
  }

  lemma Regroup(a: Bytes, b: Bytes, c: Bytes)
    ensures a + b + c == a + (b + c)
  {
  }

  lemma Pieces(s: Bytes, p: Bytes, r: Bytes, q: Bytes)
    requires s == p + (r + q)
    ensures s[..|p|] == p && s[|p|..|p| + |r|] == r && s[|p| + |r|..] == q
  {
  }

  lemma {:induction false} KeptSplit(done: seq<Bytes>, ts: seq<Bytes>, newRule: Bytes)
    requires ts != []
    ensures done + Kept(ts, newRule) ==
            (if Dropped(newRule, ts[0]) then done else done + [ts[0]]) + Kept(ts[1..], newRule)
  {
    hide Dropped;
    var k := Kept(ts[1..], newRule);
    assert done + ([ts[0]] + k) == done + [ts[0]] + k;
    assert [] + k == k;
  }

  // ---------------------------------------------------------------- in place

  /** The string in a buffer: it ends at the first NUL. */
  ghost predicate Holds(a: array<byte>, s: Bytes)
    reads a
  {
    |s| < a.Length && a[..|s|] == s && a[|s|] == NUL && NUL !in s
  }

  /** The bytes of a buffer after `n` bytes at `src` have been copied to `dst`. */
  function CopiedDown(s: Bytes, dst: nat, src: nat, n: nat): Bytes
    requires dst <= src && src + n <= |s|
  {
    s[..dst] + s[src..src + n] + s[dst + n..]
  }

  lemma CopiedNext(s: Bytes, dst: nat, src: nat, n: nat)
    requires dst <= src && src + n < |s|
    ensures var m := CopiedDown(s, dst, src, n);
            |m| == |s| && m[src + n] == s[src + n] && m[dst + n := s[src + n]] == CopiedDown(s, dst, src, n + 1)
  {
    var m := CopiedDown(s, dst, src, n);
    assert m[src + n] == s[dst + n..][src - dst];
    assert m[..dst + n] == s[..dst] + s[src..src + n] && m[dst + n + 1..] == s[dst + n + 1..];
    assert m[dst + n := s[src + n]] == m[..dst + n] + [s[src + n]] + m[dst + n + 1..];
    assert s[src..src + n] + [s[src + n]] == s[src..src + n + 1];
  }

  lemma CopiedParts(s: Bytes, dst: nat, src: nat, n: nat)
    requires dst <= src && src + n <= |s|
    ensures var m := CopiedDown(s, dst, src, n);
            |m| == |s| && m[..dst] == s[..dst] && m[dst..dst + n] == s[src..src + n]
  {
  }

  /** memmove towards the front. */
  method MoveDown(a: array<byte>, dst: nat, src: nat, n: nat)
    requires dst <= src && src + n <= a.Length
    modifies a
    ensures a[..dst] == old(a[..dst])
    ensures a[dst..dst + n] == old(a[src..src + n])
  {
    hide CopiedDown;
    ghost var was := a[..];
    assert CopiedDown(was, dst, src, 0) == was by { CopiedNone(was, dst, src); }
    var i := 0;
    while i < n
      invariant 0 <= i <= n && a[..] == CopiedDown(was, dst, src, i)
    {
      CopiedNext(was, dst, src, i);
      assert a[src + i] == a[..][src + i];
      a[dst + i] := a[src + i];
      i := i + 1;
    }
    CopiedParts(was, dst, src, n);
    assert a[..][..dst] == a[..dst] && a[..][dst..dst + n] == a[dst..dst + n];
  }

  lemma CopiedNone(s: Bytes, dst: nat, src: nat)
    requires dst <= src <= |s|
    ensures CopiedDown(s, dst, src, 0) == s
  {
  }

  /** strchr(p, ' ') and the end of the string: the first space at or after `from`, or the NUL. */
  method RuleEnd(a: array<byte>, ghost s: Bytes, from: nat) returns (e: nat)
    requires Holds(a, s) && from <= |s|
    ensures from <= e <= |s| && SPACE !in s[from..e]
    ensures e < |s| ==> s[e] == SPACE
  {
    e := from;
    while a[e] != NUL && a[e] != SPACE
      invariant from <= e <= |s|
      invariant SPACE !in s[from..e]
      decreases |s| - e
    {
      assert a[e] == a[..|s|][e];
      assert s[from..e + 1] == s[from..e] + [s[e]];
      e := e + 1;
    }
    assert e < |s| ==> a[e] == a[..|s|][e];
  }

  /** strlen. */
  method StringEnd(a: array<byte>, ghost s: Bytes, from: nat) returns (e: nat)
    requires Holds(a, s) && from <= |s|
    ensures e == |s|
  {
    e := from;
    while a[e] != NUL
      invariant from <= e <= |s|
      decreases |s| - e
    {
      e := e + 1;
    }
  }

  /** The loop state: the rules before `existing` are kept, those from it on are still to see. */
  ghost predicate Cursor(a: array<byte>, done: seq<Bytes>, rest: seq<Bytes>, existing: nat)
    reads a
  {
    && AllRules(done + rest) && Holds(a, Joined(done + rest))
    && existing == if rest == [] then |Joined(done)| else Offset(done)
  }

  /** Where the deletion of `rest[0]` copies to. */
  function CopyPosition(existing: nat, last: bool): nat {
    if last && existing != 0 then existing - 1 else existing
  }

  /** Copying the tail over the first rule of `rest` removes that rule and one space. */
  lemma Deleted(done: seq<Bytes>, rest: seq<Bytes>)
    requires rest != []
    ensures var s, e, last := Joined(done + rest), Offset(done), |rest| == 1;
            var from := e + |rest[0]| + (if last then 0 else 1);
            && from <= |s|
            && CopyPosition(e, last) <= |s|
            && s[..CopyPosition(e, last)] + s[from..] == Joined(done + rest[1..])
  {
    hide Joined;
    JoinedAround(done, rest);
    var pre := if done == [] then [] else Joined(done) + [SPACE];
    var post := if |rest| == 1 then [] else [SPACE] + Joined(rest[1..]);
    Pieces(Joined(done + rest), pre, rest[0], post);
    if |rest| == 1 {
      assert done + rest[1..] == done;
      if done == [] {
        NothingJoined();
      } else {
        assert Joined(done + rest)[..|pre| - 1] == pre[..|pre| - 1] == Joined(done);
      }
    } else {
      DeletedInside(done, rest);
      assert Joined(done + rest)[|pre| + |rest[0]| + 1..] == post[1..] == Joined(rest[1..]);
    }
  }

  lemma NothingJoined()
    ensures Joined([]) == []
  {
  }

  lemma DeletedInside(done: seq<Bytes>, rest: seq<Bytes>)
    requires |rest| > 1
    ensures (if done == [] then [] else Joined(done) + [SPACE]) + Joined(rest[1..]) == Joined(done + rest[1..])
  {
    hide Joined;
    if done == [] {
      assert done + rest[1..] == rest[1..];
      assert [] + Joined(rest[1..]) == Joined(rest[1..]);
    } else {
      JoinedAppend(done, rest[1..]);
    }
  }

  lemma AllRulesParts(done: seq<Bytes>, rest: seq<Bytes>)
    requires AllRules(done + rest) && rest != []
    ensures IsRule(rest[0]) && AllRules(done + rest[1..])
    ensures done + rest == (done + [rest[0]]) + rest[1..]
  {
    assert (done + rest)[|done|] == rest[0];
    var u := done + rest[1..];
    forall i | 0 <= i < |u|
      ensures IsRule(u[i])
    {
      assert i < |done| ==> u[i] == (done + rest)[i];
      assert i >= |done| ==> u[i] == (done + rest)[i + 1];
    }
  }

  /** Stepping over a rule that stays. */
  lemma Skipped(done: seq<Bytes>, rest: seq<Bytes>)
    requires rest != []
    ensures Offset(done) + |rest[0]| == |Joined(done + [rest[0]])|
  {
    assert Joined([rest[0]]) == rest[0];
    if done == [] {
      assert done + [rest[0]] == [rest[0]];
    } else {
      JoinedAppend(done, [rest[0]]);
    }
  }

  method Delete(a: array<byte>, ghost done: seq<Bytes>, ghost rest: seq<Bytes>, copyPosition: nat, copyEnd: nat)
    requires rest != [] && AllRules(done + rest) && Holds(a, Joined(done + rest))
    requires copyPosition == CopyPosition(Offset(done), |rest| == 1)
    requires copyEnd == Offset(done) + |rest[0]| + (if |rest| == 1 then 0 else 1)
    modifies a
    ensures Holds(a, Joined(done + rest[1..]))
  {
    ghost var s, u := Joined(done + rest), Joined(done + rest[1..]);
    Deleted(done, rest);
    AllRulesParts(done, rest);
    JoinedNoNul(done + rest[1..]);
    hide Joined, Offset;
    var end := StringEnd(a, s, copyEnd);
    ghost var before := a[..];
    assert before[..|s|] == a[..|s|];
    MoveDown(a, copyPosition, copyEnd, end + 1 - copyEnd);
    ghost var after := a[..];
    assert after[..copyPosition] == a[..copyPosition];
    assert after[copyPosition..copyPosition + (end + 1 - copyEnd)] == a[copyPosition..copyPosition + (end + 1 - copyEnd)];
    Moved(before, after, s, u, copyPosition, copyEnd);
    assert a[..|u|] == after[..|u|];
  }

  lemma Moved(before: Bytes, after: Bytes, s: Bytes, u: Bytes, dst: nat, src: nat)
    requires |s| < |before| == |after| && before[..|s|] == s && before[|s|] == NUL
    requires dst <= src <= |s| && s[..dst] + s[src..] == u
    requires var n := |s| + 1 - src;
             after[..dst] == before[..dst] && after[dst..dst + n] == before[src..src + n]
    ensures |u| < |after| && after[..|u|] == u && after[|u|] == NUL
  {
    var n := |s| + 1 - src;
    forall i | 0 <= i < |u|
      ensures after[i] == u[i]
    {
      if i < dst {
        assert after[i] == after[..dst][i] == before[i] == before[..|s|][i];
      } else {
        assert after[i] == after[dst..dst + n][i - dst] == before[src..src + n][i - dst] == before[..|s|][src + (i - dst)];
      }
    }
    assert after[|u|] == after[dst..dst + n][n - 1] == before[src..src + n][n - 1];
  }

  lemma CursorStart(ts: seq<Bytes>)
    ensures [] + ts == ts && Offset([]) == 0 && Joined([]) == []
  {
  }

  /** The cursor stands on a rule exactly when one is left. */
  lemma CursorAt(a: array<byte>, done: seq<Bytes>, rest: seq<Bytes>, existing: nat)
    requires Cursor(a, done, rest, existing)
    ensures existing < a.Length && (a[existing] == NUL <==> rest == [])
  {
    if rest == [] {
      assert done + rest == done;
    } else {
      JoinedAt(done, rest);
      AllRulesParts(done, rest);
      var s := Joined(done + rest);
      assert s[existing..existing + |rest[0]|][0] == rest[0][0];
      assert a[existing] == a[..|s|][existing];
    }
  }

  lemma EndOfRule(s: Bytes, existing: nat, e: nat, t: Bytes)
    requires IsRule(t) && existing + |t| <= |s| && s[existing..existing + |t|] == t
    requires existing + |t| < |s| ==> s[existing + |t|] == SPACE
    requires existing + 1 <= e <= |s| && SPACE !in s[existing + 1..e] && (e < |s| ==> s[e] == SPACE)
    ensures e == existing + |t|
  {
    var mid := s[existing + 1..e];
    assert forall i :: existing + 1 <= i < e ==> s[i] == mid[i - existing - 1];
    assert forall i :: existing <= i < existing + |t| ==> s[i] == t[i - existing];
  }

  /** The comparison of the loop, over the shorter length and then the next character. */
  predicate Compared(newRule: Bytes, b: Bytes) {
    var m := if |b| < |newRule| then |b| else |newRule|;
    b[..m] == newRule[..m] && (|b| == |newRule| || (|b| > |newRule| && b[|newRule|] == BAR))
  }

  lemma ComparedIsReplaces(newRule: Bytes, b: Bytes)
    ensures Compared(newRule, b) <==> Replaces(newRule, b)
  {
    assert b[..|b|] == b && newRule[..|newRule|] == newRule;
  }

  /** Where the cursor goes when its rule is deleted, and when it stays. */
  lemma CursorNext(done: seq<Bytes>, rest: seq<Bytes>)
    requires rest != []
    ensures CopyPosition(Offset(done), |rest| == 1) == if rest[1..] == [] then |Joined(done)| else Offset(done)
    ensures Offset(done) + |rest[0]| + (if |rest| == 1 then 0 else 1) ==
            if rest[1..] == [] then |Joined(done + [rest[0]])| else Offset(done + [rest[0]])
  {
    Skipped(done, rest);
  }

  /** One turn of the loop, from its reads of the buffer to the new cursor. */
  method Turn(a: array<byte>, ghost done: seq<Bytes>, ghost rest: seq<Bytes>, existing: nat, newRule: Bytes)
    returns (next: nat, dropped: bool)
    requires rest != [] && Cursor(a, done, rest, existing)
    modifies a
    ensures dropped <==> Dropped(newRule, rest[0])
    ensures Cursor(a, if dropped then done else done + [rest[0]], rest[1..], next)
  {
    hide Joined, Offset;
    ghost var s, t := Joined(done + rest), rest[0];
    AllRulesParts(done, rest);
    JoinedAt(done, rest);
    CursorNext(done, rest);
    var copyPosition := existing;
    var body := existing + 1;
    var ruleEnd := RuleEnd(a, s, body);
    assert s[existing + |t|..] != [] ==> s[existing + |t|] == s[existing + |t|..][0];
    EndOfRule(s, existing, ruleEnd, t);
    var last := a[ruleEnd] == NUL;
    assert last <==> |rest| == 1 by { LastRule(a, s, ruleEnd, |rest| == 1); }
    if last && copyPosition != 0 {
      copyPosition := copyPosition - 1;
    }
    var copyEnd := if last then ruleEnd else ruleEnd + 1;
    assert a[body..ruleEnd] == t[1..] by {
      SliceOf(a, |s|, body, ruleEnd);
      assert s[body..ruleEnd] == s[existing..ruleEnd][1..];
    }
    ComparedIsReplaces(newRule, t[1..]);
    dropped := Compared(newRule, a[body..ruleEnd]);
    if dropped {
      Delete(a, done, rest, copyPosition, copyEnd);
      next := copyPosition;
    } else {
      next := copyEnd;
    }
  }

  lemma SliceOf(a: array<byte>, n: nat, lo: nat, hi: nat)
    requires lo <= hi <= n <= a.Length
    ensures a[lo..hi] == a[..n][lo..hi]
  {
    forall i | 0 <= i < hi - lo
      ensures a[lo..hi][i] == a[..n][lo..hi][i]
    {
      assert a[..n][lo + i] == a[lo + i];
    }
  }

  lemma LastRule(a: array<byte>, s: Bytes, e: nat, last: bool)
    requires Holds(a, s) && e <= |s|
    requires s[e..] == [] <==> last
    ensures a[e] == NUL <==> last
  {
    assert e < |s| ==> a[e] == a[..|s|][e] && s[e..] != [];
  }

  /** ACLSelectorRemoveCommandRule: on a well-formed log the in-place loop ends, and leaves the
      rules that the new one does not replace, joined by single spaces. */
  method RemoveCommandRule(a: array<byte>, ghost rules: Bytes, newRule: Bytes)
    requires Holds(a, rules) && WellFormed(rules)
    modifies a
    ensures Holds(a, Joined(Kept(RulesOf(rules), newRule)))
  {
    hide Kept, Joined, RulesOf, Offset, Dropped;
    ghost var ts := RulesOf(rules);
    ghost var done: seq<Bytes>, rest: seq<Bytes> := [], ts;
    JoinedRulesOf(rules);
    CursorStart(ts);
    var existing: nat := 0;
    CursorAt(a, done, rest, existing);
    while a[existing] != NUL
      invariant Cursor(a, done, rest, existing) && existing < a.Length
      invariant a[existing] == NUL <==> rest == []
      invariant done + Kept(rest, newRule) == Kept(ts, newRule)
      decreases |rest|
    {
      KeptSplit(done, rest, newRule);
      var dropped;
      existing, dropped := Turn(a, done, rest, existing, newRule);
      done, rest := if dropped then done else done + [rest[0]], rest[1..];
      CursorAt(a, done, rest, existing);
    }
    KeptNone(newRule);
    assert done + [] == done;
  }

  lemma KeptNone(newRule: Bytes)
    ensures Kept([], newRule) == []
  {
  }

  /** The kept rules again make a well-formed log. */
  lemma {:induction false} KeptRules(ts: seq<Bytes>, newRule: Bytes)
    requires AllRules(ts)
    ensures AllRules(Kept(ts, newRule))
    decreases |ts|
  {
    if ts != [] {
      assert IsRule(ts[0]) && AllRules(ts[1..]);
      KeptRules(ts[1..], newRule);
    }
  }

  lemma WellFormedAfter(rules: Bytes, newRule: Bytes)
    requires WellFormed(rules)
    ensures WellFormed(Joined(Kept(RulesOf(rules), newRule)))
    ensures RulesOf(Joined(Kept(RulesOf(rules), newRule))) == Kept(RulesOf(rules), newRule)
  {
    KeptRules(RulesOf(rules), newRule);
    RulesOfJoined(Kept(RulesOf(rules), newRule));
  }
}
