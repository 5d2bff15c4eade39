/** Serving the clients that wait for a ready key: order, bounds and the list of ready keys. */
module Serving {
  import opened Options
  import opened Blocked
  import opened BlockedClients

  // ---------------------------------------------------------------- the server around the index

  /** An entry of server.ready_keys. */
  datatype Ready = Ready(key: Key, wakeModules: bool)

  datatype Server = Server(index: State, queue: seq<Ready>, ready: set<Key>)

  /** What a running command may do to the index and to the ready keys. Serving is not reentrant, so
      nothing but the pass itself rotates a waiter list. */
  datatype Effect = Change(e: Event) | Signal(k: Key, t: Type, deleted: bool)

  /** Whether a signal can serve a client of type `b`. */
  predicate Serves(t: Type, b: Type) {
    t == b || (t == List && b == ListNonEmpty) || (t != ListNonEmpty && b == Module)
  }

  /** signalKeyAsReadyLogic. */
  function SignalKey(s: Server, k: Key, t: Type, deleted: bool): Server {
    var counts := (b: Type) => TypeCount(s.index, b) != 0;
    if t == NoType then s
    else if !(if t == List then counts(List) || counts(ListNonEmpty) else counts(t)) &&
            !(t != ListNonEmpty && counts(Module)) then s
    else if deleted && k !in s.index.noKey then s
    else if !deleted && k !in s.index.waiting then s
    else if k in s.ready then s
    else s.(ready := s.ready + {k}, queue := s.queue + [Ready(k, t != ListNonEmpty)])
  }

  function Affect(s: Server, f: Effect): Server {
    match f
    case Change(e) => if e.RotateWaiters? then s else s.(index := Step(s.index, e))
    case Signal(k, t, deleted) => SignalKey(s, k, t, deleted)
  }

  function AffectAll(s: Server, fs: seq<Effect>): Server
    decreases |fs|
  {
    if fs == [] then s else AffectAll(Affect(s, fs[0]), fs[1..])
  }

  // ---------------------------------------------------------------- one pass

  /** What a visit finds and causes: the type of the object at the key, the order in which the
      client's table is walked, and everything the reprocessed command does. */
  datatype Visit = Visit(stored: Option<Type>, order: seq<Key>, effects: seq<Effect>)

  const IDLE_VISIT: Visit := Visit(None, [], [])

  predicate ShouldWake(x: Client, stored: Option<Type>) {
    || (stored.Some? && (x.btype == stored.value || (stored.value == List && x.btype == ListNonEmpty)))
    || (stored.Some? && x.btype == Module)
    || x.onNoKey
  }

  /** The visit of the client that was at the head before the rotation. */
  function VisitClient(s: Server, c: nat, k: Key, wakeModules: bool, v: Visit): Server {
    var x := Of(s.index, c);
    if !ShouldWake(x, v.stored) then s
    else if x.btype != Module then AffectAll(Affect(s, Change(UnblockClientOnKey(c, k, v.order))), v.effects)
    else if wakeModules then AffectAll(s, v.effects)
    else s
  }

  function VisitHead(s: Server, k: Key, wakeModules: bool, v: Visit): Server
    requires Waiters(s.index, k) != []
  {
    VisitClient(s.(index := Rotate(s.index, k)), Waiters(s.index, k)[0].client, k, wakeModules, v)
  }

  datatype Served = Served(s: Server, visited: seq<Waiter>)

  /** The loop of handleClientsBlockedOnKey with `count` visits to go. */
  function Pass(s: Server, r: Ready, count: nat, script: seq<Visit>, visited: seq<Waiter>): Served
    decreases count
  {
    var w := Waiters(s.index, r.key);
    if count == 0 || w == [] then Served(s, visited)
    else
      var v := if script == [] then IDLE_VISIT else script[0];
      var rest := if script == [] then [] else script[1..];
      Pass(VisitHead(s, r.key, r.wakeModules, v), r, count - 1, rest, visited + [w[0]])
  }

  /** handleClientsBlockedOnKey. */
  function ServeKey(s: Server, r: Ready, script: seq<Visit>): Served {
    Pass(s, r, |Waiters(s.index, r.key)|, script, [])
  }

  // ---------------------------------------------------------------- subsequences

  predicate Sub<T(==)>(a: seq<T>, w: seq<T>)
    decreases |w|
  {
    a == [] || (w != [] && ((a[0] == w[0] && Sub(a[1..], w[1..])) || Sub(a, w[1..])))
  }

  lemma {:induction false} SubRefl<T>(w: seq<T>)
    ensures Sub(w, w)
    decreases |w|
  {
    if w != [] { SubRefl(w[1..]); }
  }

  lemma {:induction false} SubTrans<T>(a: seq<T>, b: seq<T>, c: seq<T>)
    requires Sub(a, b) && Sub(b, c)
    ensures Sub(a, c)
    decreases |c|
  {
    if a != [] {
      if Sub(b, c[1..]) {
        SubTrans(a, b, c[1..]);
      } else if Sub(a, b[1..]) {
        SubTrans(a, b[1..], c[1..]);
      } else {
        SubTrans(a[1..], b[1..], c[1..]);
      }
    }
  }

  lemma {:induction false} SubWithout<T>(w: seq<T>, i: nat)
    requires i < |w|
    ensures Sub(w[..i] + w[i + 1..], w)
    decreases |w|
  {
    if i == 0 {
      assert w[..0] + w[1..] == w[1..];
      SubRefl(w[1..]);
      if w[1..] != [] { assert Sub(w[1..], w); }
    } else {
      SubWithout(w[1..], i - 1);
      var a := w[..i] + w[i + 1..];
      assert a[1..] == w[1..][..i - 1] + w[1..][i..];
    }
  }

  lemma {:induction false} SubAfter<T>(a: seq<T>, u: seq<T>, w: seq<T>)
    requires Sub(u, w)
    ensures Sub(a + u, a + w)
    decreases |a|
  {
    if a == [] {
      assert a + u == u && a + w == w;
    } else {
      SubAfter(a[1..], u, w);
      assert (a + u)[1..] == a[1..] + u && (a + w)[1..] == a[1..] + w;
    }
  }

  lemma {:induction false} SubMember<T>(a: seq<T>, w: seq<T>)
    requires Sub(a, w)
    ensures |a| <= |w| && forall x :: x in a ==> x in w
    decreases |w|
  {
    if a != [] {
      if Sub(a, w[1..]) {
        SubMember(a, w[1..]);
      } else {
        SubMember(a[1..], w[1..]);
        assert a == [a[0]] + a[1..];
      }
    }
  }

  // ---------------------------------------------------------------- what an event does to a list

  /** A list whose head part is a subsequence of `u`, followed by old members of `t` and new nodes. */
  ghost predicate Evolved(u: seq<Waiter>, t: seq<Waiter>, n: nat, u': seq<Waiter>, t': seq<Waiter>) {
    Sub(u', u) && forall i :: 0 <= i < |t'| ==> t'[i] in t || t'[i].node >= n
  }

  lemma EvolvedTrans(u: seq<Waiter>, t: seq<Waiter>, n: nat, u1: seq<Waiter>, t1: seq<Waiter>,
                     u2: seq<Waiter>, t2: seq<Waiter>)
    requires Evolved(u, t, n, u1, t1) && Evolved(u1, t1, n, u2, t2)
    ensures Evolved(u, t, n, u2, t2)
  {
    SubTrans(u2, u1, u);
  }

  lemma EvolvedSame(u: seq<Waiter>, t: seq<Waiter>, n: nat)
    ensures Evolved(u, t, n, u, t)
  {
    SubRefl(u);
  }

  lemma AddEvolves(s: State, c: nat, k: Key, q: Key, u: seq<Waiter>, t: seq<Waiter>, n: nat)
    returns (u': seq<Waiter>, t': seq<Waiter>)
    requires Waiters(s, q) == u + t && n <= s.nextNode
    ensures Waiters(AddWaiter(s, c, k), q) == u' + t' && Evolved(u, t, n, u', t')
    ensures n <= AddWaiter(s, c, k).nextNode
  {
    SubRefl(u);
    u', t' := u, t;
    if k == q && k !in Of(s, c).keys { t' := t + [Waiter(s.nextNode, c)]; }
  }

  lemma RemoveEvolves(s: State, c: nat, k: Key, q: Key, u: seq<Waiter>, t: seq<Waiter>, n: nat)
    returns (u': seq<Waiter>, t': seq<Waiter>)
    requires IndexOk(s) && Waiters(s, q) == u + t
    ensures Waiters(RemoveWaiter(s, c, k), q) == u' + t' && Evolved(u, t, n, u', t')
  {
    SubRefl(u);
    u', t' := u, t;
    if k == q && k in Of(s, c).keys {
      var i := Position(s, c, k);
      hide Unlinked, IndexOk, Sub;
      var w := Waiters(s, k);
      assert Waiters(RemoveWaiter(s, c, k), q) == w[..i] + w[i + 1..];
      if i < |u| {
        u' := u[..i] + u[i + 1..];
        SubWithout(u, i);
        assert w[..i] + w[i + 1..] == u' + t;
      } else {
        var j := i - |u|;
        t' := t[..j] + t[j + 1..];
        assert w[..i] + w[i + 1..] == u + t';
      }
    } else if k in Of(s, c).keys {
      RemoveOthers(s, c, k, q);
    }
  }

  lemma {:induction false} AddAllEvolves(s: State, c: nat, ks: seq<Key>, q: Key, u: seq<Waiter>, t: seq<Waiter>, n: nat)
    returns (u': seq<Waiter>, t': seq<Waiter>)
    requires Waiters(s, q) == u + t && n <= s.nextNode
    ensures Waiters(AddAll(s, c, ks), q) == u' + t' && Evolved(u, t, n, u', t')
    ensures n <= AddAll(s, c, ks).nextNode
    decreases |ks|
  {
    hide AddWaiter, Waiters, Evolved;
    u', t' := u, t;
    EvolvedSame(u, t, n);
    if ks != [] {
      var u1, t1 := AddAllEvolves(s, c, ks[..|ks| - 1], q, u, t, n);
      u', t' := AddEvolves(AddAll(s, c, ks[..|ks| - 1]), c, ks[|ks| - 1], q, u1, t1, n);
      EvolvedTrans(u, t, n, u1, t1, u', t');
    }
  }

  lemma {:induction false} RemoveAllEvolves(s: State, c: nat, ks: seq<Key>, q: Key, u: seq<Waiter>, t: seq<Waiter>, n: nat)
    returns (u': seq<Waiter>, t': seq<Waiter>)
    requires IndexOk(s) && Waiters(s, q) == u + t && n <= s.nextNode
    ensures Waiters(RemoveAll(s, c, ks), q) == u' + t' && Evolved(u, t, n, u', t')
    ensures n <= RemoveAll(s, c, ks).nextNode
    decreases |ks|
  {
    hide Unlinked, SetList, SetCount, Waiters, Evolved, IndexOk;
    u', t' := u, t;
    EvolvedSame(u, t, n);
    if ks != [] {
      var m := RemoveAll(s, c, ks[..|ks| - 1]);
      var u1, t1 := RemoveAllEvolves(s, c, ks[..|ks| - 1], q, u, t, n);
      RemoveAllIndexOk(s, c, ks[..|ks| - 1]);
      u', t' := RemoveEvolves(m, c, ks[|ks| - 1], q, u1, t1, n);
      EvolvedTrans(u, t, n, u1, t1, u', t');
    }
  }

  lemma UnblockEvolves(s: State, c: nat, order: seq<Key>, q: Key, u: seq<Waiter>, t: seq<Waiter>, n: nat)
    returns (u': seq<Waiter>, t': seq<Waiter>)
    requires IndexOk(s) && Waiters(s, q) == u + t && n <= s.nextNode
    ensures Waiters(Unblock(s, c, order), q) == u' + t' && Evolved(u, t, n, u', t')
    ensures n <= Unblock(s, c, order).nextNode
  {
    hide RemoveAll, Evolved, IndexOk;
    u', t' := u, t;
    EvolvedSame(u, t, n);
    if KeyType(Of(s, c).btype) { u', t' := RemoveAllEvolves(s, c, order, q, u, t, n); }
  }

  /** Every event that a command can cause only removes waiters or appends new ones. */
  lemma StepEvolves(s: State, e: Event, q: Key, u: seq<Waiter>, t: seq<Waiter>, n: nat)
    returns (u': seq<Waiter>, t': seq<Waiter>)
    requires Inv(s) && !e.RotateWaiters? && Waiters(s, q) == u + t && n <= s.nextNode
    ensures Waiters(Step(s, e), q) == u' + t' && Evolved(u, t, n, u', t')
    ensures n <= Step(s, e).nextNode && Inv(Step(s, e))
  {
    hide Inv, Evolved, AddAll, RemoveAll, IndexOk, RemoveWaiter, Unblock;
    StepInv(s, e);
    u', t' := u, t;
    EvolvedSame(u, t, n);
    assert IndexOk(s) by { InvIndex(s); }
    match e {
      case BlockOnKeys(c, ty, ks, onNoKey) =>
        var u1, t1 := AddAllEvolves(SetOnNoKey(s, c, onNoKey), c, ks, q, u, t, n);
        if Step(s, e) != s { u', t' := u1, t1; }
      case UnblockClient(c, order) =>
        if Step(s, e) != s { u', t' := UnblockEvolves(s, c, order, q, u, t, n); }
      case UnblockClientOnKey(c, k, order) =>
        if Step(s, e) != s {
          u', t' := OnKeyEvolves(s, c, k, order, q, u, t, n);
        }
      case _ =>
    }
  }

  lemma InvIndex(s: State)
    requires Inv(s)
    ensures IndexOk(s)
  {
  }

  lemma OnKeyEvolves(s: State, c: nat, k: Key, order: seq<Key>, q: Key, u: seq<Waiter>, t: seq<Waiter>, n: nat)
    returns (u': seq<Waiter>, t': seq<Waiter>)
    requires IndexOk(s) && Waiters(s, q) == u + t && n <= s.nextNode
    ensures Waiters(UnblockOnKey(s, c, k, order), q) == u' + t' && Evolved(u, t, n, u', t')
    ensures n <= UnblockOnKey(s, c, k, order).nextNode
  {
    var u1, t1 := RemoveEvolves(s, c, k, q, u, t, n);
    RemoveIndexOk(s, c, k);
    assert RemoveWaiter(s, c, k).nextNode == s.nextNode;
    hide RemoveWaiter, Evolved, IndexOk, Unblock;
    u', t' := UnblockEvolves(RemoveWaiter(s, c, k), c, order, q, u1, t1, n);
    EvolvedTrans(u, t, n, u1, t1, u', t');
  }

  // ---------------------------------------------------------------- the order of a pass

  /** The visits that reach a waiter of `w` for the first time. */
  function FirstVisits(visited: seq<Waiter>, w: seq<Waiter>): seq<Waiter>
    decreases |visited|
  {
    if visited == [] then [] else
    var x, before := visited[|visited| - 1], FirstVisits(visited[..|visited| - 1], w);
    if x in w && x !in before then before + [x] else before
  }

  lemma FirstVisitsNext(visited: seq<Waiter>, x: Waiter, w: seq<Waiter>)
    ensures FirstVisits(visited + [x], w) ==
            FirstVisits(visited, w) + if x in w && x !in FirstVisits(visited, w) then [x] else []
  {
    assert (visited + [x])[..|visited|] == visited;
  }

  ghost predicate AllDistinct(w: seq<Waiter>) {
    forall i, j :: 0 <= i < j < |w| ==> w[i] != w[j]
  }

  lemma {:induction false} SubDistinct(a: seq<Waiter>, w: seq<Waiter>)
    requires Sub(a, w) && AllDistinct(w)
    ensures AllDistinct(a)
    decreases |w|
  {
    if a != [] {
      if Sub(a, w[1..]) {
        SubDistinct(a, w[1..]);
      } else {
        SubDistinct(a[1..], w[1..]);
        SubMember(a[1..], w[1..]);
        forall i, j | 0 <= i < j < |a|
          ensures a[i] != a[j]
        {
          assert a[j] == a[1..][j - 1];
          assert a[1..][j - 1] in w[1..];
          if i > 0 { assert a[i] == a[1..][i - 1]; }
        }
      }
    }
  }

  lemma {:induction false} AffectAllEvolves(s: Server, fs: seq<Effect>, q: Key, u: seq<Waiter>, t: seq<Waiter>, n: nat)
    returns (u': seq<Waiter>, t': seq<Waiter>)
    requires Inv(s.index) && Waiters(s.index, q) == u + t && n <= s.index.nextNode
    ensures Waiters(AffectAll(s, fs).index, q) == u' + t' && Evolved(u, t, n, u', t')
    ensures n <= AffectAll(s, fs).index.nextNode && Inv(AffectAll(s, fs).index)
    decreases |fs|
  {
    hide Inv, Evolved, Step, Waiters;
    u', t' := u, t;
    EvolvedSame(u, t, n);
    if fs != [] {
      var u1, t1 := u, t;
      if fs[0].Change? && !fs[0].e.RotateWaiters? { u1, t1 := StepEvolves(s.index, fs[0].e, q, u, t, n); }
      u', t' := AffectAllEvolves(Affect(s, fs[0]), fs[1..], q, u1, t1, n);
      EvolvedTrans(u, t, n, u1, t1, u', t');
    }
  }

  lemma VisitClientEvolves(s: Server, c: nat, k: Key, wake: bool, v: Visit, q: Key, u: seq<Waiter>, t: seq<Waiter>, n: nat)
    returns (u': seq<Waiter>, t': seq<Waiter>)
    requires Inv(s.index) && Waiters(s.index, q) == u + t && n <= s.index.nextNode
    ensures Waiters(VisitClient(s, c, k, wake, v).index, q) == u' + t' && Evolved(u, t, n, u', t')
    ensures n <= VisitClient(s, c, k, wake, v).index.nextNode && Inv(VisitClient(s, c, k, wake, v).index)
  {
    hide Inv, Evolved, Step, Waiters, AffectAll;
    u', t' := u, t;
    EvolvedSame(u, t, n);
    var x := Of(s.index, c);
    if ShouldWake(x, v.stored) {
      if x.btype != Module {
        var e := UnblockClientOnKey(c, k, v.order);
        var u1, t1 := StepEvolves(s.index, e, q, u, t, n);
        u', t' := AffectAllEvolves(Affect(s, Change(e)), v.effects, q, u1, t1, n);
        EvolvedTrans(u, t, n, u1, t1, u', t');
      } else if wake {
        u', t' := AffectAllEvolves(s, v.effects, q, u, t, n);
      }
    }
  }

  /** A visit takes the head of the unvisited part, if there is one, out of that part. */
  lemma VisitHeadEvolves(s: Server, k: Key, wake: bool, v: Visit, u: seq<Waiter>, t: seq<Waiter>, n: nat)
    returns (u': seq<Waiter>, t': seq<Waiter>)
    requires Inv(s.index) && Waiters(s.index, k) == u + t && n <= s.index.nextNode && u + t != []
    ensures Waiters(VisitHead(s, k, wake, v).index, k) == u' + t'
    ensures if u == [] then Evolved([], t, n, u', t') else Evolved(u[1..], t + [u[0]], n, u', t')
    ensures n <= VisitHead(s, k, wake, v).index.nextNode && Inv(VisitHead(s, k, wake, v).index)
  {
    var s1 := s.(index := Rotate(s.index, k));
    RotateInv(s.index, k);
    hide Inv, VisitClient;
    var w, c := u + t, (u + t)[0].client;
    if u == [] {
      assert w == t;
      RotateMembers(t);
      u', t' := VisitClientEvolves(s1, c, k, wake, v, k, [], RotateList(t), n);
    } else {
      assert RotateList(w) == u[1..] + (t + [u[0]]);
      u', t' := VisitClientEvolves(s1, c, k, wake, v, k, u[1..], t + [u[0]], n);
    }
  }

  /** Between two visits: `u` are the waiters of the start that were not visited, in their order. */
  ghost predicate Between(w0: seq<Waiter>, n: nat, s: Server, k: Key, count: nat, visited: seq<Waiter>,
                          u: seq<Waiter>, t: seq<Waiter>) {
    var first := FirstVisits(visited, w0);
    && Inv(s.index) && Waiters(s.index, k) == u + t && |u| <= count && n <= s.index.nextNode
    && AllDistinct(w0) && (forall i :: 0 <= i < |w0| ==> w0[i].node < n)
    && Sub(first + u, w0) && first <= visited && (u != [] ==> first == visited)
    && (forall i :: 0 <= i < |t| ==> t[i] in first || t[i].node >= n)
  }

  lemma VisitUnvisited(w0: seq<Waiter>, n: nat, s: Server, k: Key, count: nat, visited: seq<Waiter>,
                       u: seq<Waiter>, t: seq<Waiter>, s': Server, u': seq<Waiter>, t': seq<Waiter>)
    requires Between(w0, n, s, k, count, visited, u, t) && count > 0 && u != []
    requires Inv(s'.index) && Waiters(s'.index, k) == u' + t' && n <= s'.index.nextNode
    requires Evolved(u[1..], t + [u[0]], n, u', t')
    ensures Between(w0, n, s', k, count - 1, visited + [u[0]], u', t')
  {
    hide Inv, Waiters;
    var first, x := FirstVisits(visited, w0), u[0];
    SubDistinct(first + u, w0);
    SubMember(first + u, w0);
    assert (first + u)[|first|] == x;
    assert x in w0;
    assert x !in first by {
      forall i | 0 <= i < |first|
        ensures first[i] != x
      {
        assert (first + u)[i] == first[i];
      }
    }
    FirstVisitsNext(visited, x, w0);
    SubMember(u', u[1..]);
    SubAfter(first + [x], u', u[1..]);
    assert first + [x] + u[1..] == first + u;
    SubTrans(first + [x] + u', first + u, w0);
    hide FirstVisits, Sub;
  }

  lemma VisitAgain(w0: seq<Waiter>, n: nat, s: Server, k: Key, count: nat, visited: seq<Waiter>,
                   t: seq<Waiter>, s': Server, u': seq<Waiter>, t': seq<Waiter>)
    requires Between(w0, n, s, k, count, visited, [], t) && count > 0 && t != []
    requires Inv(s'.index) && Waiters(s'.index, k) == u' + t' && n <= s'.index.nextNode
    requires Evolved([], t, n, u', t')
    ensures Between(w0, n, s', k, count - 1, visited + [t[0]], u', t')
  {
    hide Inv, Waiters;
    var first, x := FirstVisits(visited, w0), t[0];
    SubMember(u', []);
    assert x in first || x.node >= n;
    FirstVisitsNext(visited, x, w0);
    assert first + [] == first + u';
  }

  lemma {:induction false} PassOrder(w0: seq<Waiter>, n: nat, s: Server, r: Ready, count: nat, script: seq<Visit>,
                                     visited: seq<Waiter>, u: seq<Waiter>, t: seq<Waiter>)
    requires Between(w0, n, s, r.key, count, visited, u, t)
    ensures var o := Pass(s, r, count, script, visited);
            var first := FirstVisits(o.visited, w0);
            && |o.visited| <= |visited| + count && Inv(o.s.index)
            && Sub(first, w0) && first <= o.visited
            && forall x :: x in w0 && x in Waiters(o.s.index, r.key) ==> x in first
    decreases count
  {
    hide Inv, VisitHead, FirstVisits, Sub, Evolved, Waiters;
    var w := Waiters(s.index, r.key);
    if count == 0 || w == [] {
      assert FirstVisits(visited, w0) + [] == FirstVisits(visited, w0);
    } else {
      var v := if script == [] then IDLE_VISIT else script[0];
      var rest := if script == [] then [] else script[1..];
      var s' := VisitHead(s, r.key, r.wakeModules, v);
      var u', t' := VisitHeadEvolves(s, r.key, r.wakeModules, v, u, t, n);
      if u != [] {
        VisitUnvisited(w0, n, s, r.key, count, visited, u, t, s', u', t');
      } else {
        assert u + t == t;
        VisitAgain(w0, n, s, r.key, count, visited, t, s', u', t');
      }
      hide Between;
      PassOrder(w0, n, s', r, count - 1, rest, visited + [w[0]], u', t');
    }
  }

  /** However visits remove waiters, wake them or block clients again: a pass makes at most as many
      visits as there were waiters; its first visits to them come before all other visits and follow
      the order in which they blocked; and none that still waits at the end was left out. */
  lemma ServingOrder(s: Server, r: Ready, script: seq<Visit>)
    requires Inv(s.index)
    ensures var w, o := Waiters(s.index, r.key), ServeKey(s, r, script);
            var first := FirstVisits(o.visited, w);
            && |o.visited| <= |w| && Sub(first, w) && first <= o.visited
            && (forall x :: x in w && x in Waiters(o.s.index, r.key) ==> x in first)
            && Inv(o.s.index)
  {
    var w := Waiters(s.index, r.key);
    StartOfPass(s, r.key);
    PassOrder(w, s.index.nextNode, s, r, |w|, script, [], w, []);
  }

  lemma StartOfPass(s: Server, k: Key)
    requires Inv(s.index)
    ensures var w := Waiters(s.index, k); Between(w, s.index.nextNode, s, k, |w|, [], w, [])
  {
    var w := Waiters(s.index, k);
    assert ListOk(s.index, k);
    hide Inv;
    forall i | 0 <= i < |w|
      ensures w[i].node < s.index.nextNode
    {
      assert WaiterOk(s.index, k, w[i]);
    }
    SubRefl(w);
    assert [] + w == w && w + [] == w;
  }
}
