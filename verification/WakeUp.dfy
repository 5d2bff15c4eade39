/** Who is woken: a pass whose commands do nothing else leaves exactly the waiters it cannot serve. */
module WakeUp {
  import opened Options
  import opened Blocked
  import opened BlockedClients
  import opened BlockedExact
  import opened Serving

  /** A waiter the pass serves by itself: one that wants to hear of any change, or whose command works on
      the type of the object; module clients are left to their module. */
  predicate Woken(s: State, stored: Option<Type>, w: Waiter) {
    var x := Of(s, w.client);
    && x.btype != Module
    && (x.onNoKey ||
        match stored
        case None => false
        case Some(List) => x.btype == List || x.btype == ListNonEmpty
        case Some(t) => x.btype == t)
  }

  /** Who is woken: without the flag a list waiter by a list, a sorted-set waiter by a sorted set and a
      stream waiter by a stream, and by nothing else; with the flag every native waiter; a module
      client never. */
  lemma WokenWho(s: State, stored: Option<Type>, w: Waiter)
    requires stored == None || stored.value in {List, Zset, Stream, Module, NoType}
    ensures var x := Of(s, w.client);
            && (x.btype == Module ==> !Woken(s, stored, w))
            && (x.onNoKey && x.btype != Module ==> Woken(s, stored, w))
            && (!x.onNoKey && x.btype in {List, ListNonEmpty} ==> (Woken(s, stored, w) <==> stored == Some(List)))
            && (!x.onNoKey && x.btype == Zset ==> (Woken(s, stored, w) <==> stored == Some(Zset)))
            && (!x.onNoKey && x.btype == Stream ==> (Woken(s, stored, w) <==> stored == Some(Stream)))
  {
  }

  /** The waiters that stay, in their order. */
  function Staying(s: State, stored: Option<Type>, w: seq<Waiter>): seq<Waiter> {
    if w == [] then [] else
    var x := w[|w| - 1];
    Staying(s, stored, w[..|w| - 1]) + if Woken(s, stored, x) then [] else [x]
  }

  /** A visit that finds `stored` at the key, walks the whole table, and causes nothing else. */
  predicate Quiet(v: Visit, stored: Option<Type>, keys: seq<Key>) {
    v.stored == stored && v.effects == [] && v.order == keys
  }

  /** A walk in this order reaches every key anybody waits for. */
  ghost predicate Reaches(s: State, keys: seq<Key>) {
    forall c: nat :: Covers(keys, Of(s, c).keys)
  }

  // ---------------------------------------------------------------- one client

  lemma TakenOut(s: State, c: nat, k: Key, i: nat)
    requires IndexOk(s) && i < |Waiters(s, k)| && Waiters(s, k)[i].client == c
    ensures c in s.clients && k in s.clients[c].keys
    ensures Waiters(RemoveWaiter(s, c, k), k) == Waiters(s, k)[..i] + Waiters(s, k)[i + 1..]
  {
    assert ListOk(s, k) && WaiterOk(s, k, Waiters(s, k)[i]);
    var j := Position(s, c, k);
    assert j == i;
    hide IndexOk, Unlinked;
  }

  lemma Unblocked(m: State, c: nat, k: Key, order: seq<Key>)
    requires c in m.clients && k !in m.clients[c].keys
    ensures var t := Unblock(m, c, order);
            && Waiters(t, k) == Waiters(m, k) && !Of(t, c).blocked && Of(t, c).keys == map[]
            && forall d: nat :: d != c ==> Of(t, d) == Of(m, d)
  {
    WalkPast(m, c, order, k);
    RemoveAllFlags(m, c, order);
    hide RemoveAll;
  }

  /** Waking a client takes its waiter out of the list and changes no other client. */
  lemma WokenLeaves(s: State, c: nat, k: Key, order: seq<Key>, i: nat)
    requires Inv(s) && Covers(order, Of(s, c).keys)
    requires i < |Waiters(s, k)| && Waiters(s, k)[i].client == c
    ensures var t := Step(s, UnblockClientOnKey(c, k, order));
            && Inv(t) && Waiters(t, k) == Waiters(s, k)[..i] + Waiters(s, k)[i + 1..]
            && !Of(t, c).blocked && Of(t, c).keys == map[] && forall d: nat :: d != c ==> Of(t, d) == Of(s, d)
  {
    StepInv(s, UnblockClientOnKey(c, k, order));
    TakenOut(s, c, k, i);
    RemoveKeys(s, c, k);
    hide Inv, RemoveWaiter, Unblock;
    Unblocked(RemoveWaiter(s, c, k), c, k, order);
    assert Step(s, UnblockClientOnKey(c, k, order)) == Unblock(RemoveWaiter(s, c, k), c, order);
  }

  // ---------------------------------------------------------------- the whole pass

  /** After `i` visits: the unvisited waiters, then those visited that stay. The clients still
      waiting for the key, and those not waiting, are as they were. */
  ghost predicate Halfway(w0: seq<Waiter>, i: nat, s0: State, s: State, k: Key, stored: Option<Type>, keys: seq<Key>) {
    && i <= |w0| && Inv(s) && Reaches(s, keys)
    && Waiters(s, k) == w0[i..] + Staying(s0, stored, w0[..i])
    && (forall j :: 0 <= j < |w0| ==> Settled(s0, s, stored, w0[j], j < i))
  }

  /** The client of a waiter is as it was, or was visited, woken and waits for nothing. */
  predicate Settled(s0: State, s: State, stored: Option<Type>, w: Waiter, visited: bool) {
    if visited && Woken(s0, stored, w) then !Of(s, w.client).blocked && Of(s, w.client).keys == map[]
    else Of(s, w.client) == Of(s0, w.client)
  }

  ghost predicate ClientsDistinct(w: seq<Waiter>) {
    forall i, j :: 0 <= i < j < |w| ==> w[i].client != w[j].client
  }

  lemma StayingNext(s: State, stored: Option<Type>, w: seq<Waiter>, i: nat)
    requires i < |w|
    ensures Staying(s, stored, w[..i + 1]) == Staying(s, stored, w[..i]) + if Woken(s, stored, w[i]) then [] else [w[i]]
  {
    assert w[..i + 1][..i] == w[..i];
  }

  lemma RotatedList(s: State, k: Key, u: seq<Waiter>, t: seq<Waiter>)
    requires Waiters(s, k) == u + t && u != []
    ensures Waiters(Rotate(s, k), k) == u[1..] + t + [u[0]] && Rotate(s, k).clients == s.clients
  {
    assert (u + t)[1..] == u[1..] + t;
  }

  /** What a visit does to the index when its command does nothing else. */
  lemma QuietVisitIndex(s: Server, k: Key, wake: bool, v: Visit)
    requires Waiters(s.index, k) != [] && v.effects == []
    ensures var x, m := Waiters(s.index, k)[0], Rotate(s.index, k);
            VisitHead(s, k, wake, v).index ==
            if Woken(s.index, v.stored, x) then Step(m, UnblockClientOnKey(x.client, k, v.order)) else m
  {
    hide Step;
  }

  lemma VisitStays(w0: seq<Waiter>, i: nat, s0: State, s: State, k: Key, stored: Option<Type>, keys: seq<Key>)
    requires Halfway(w0, i, s0, s, k, stored, keys) && i < |w0| && !Woken(s0, stored, w0[i])
    ensures Halfway(w0, i + 1, s0, Rotate(s, k), k, stored, keys)
  {
    var x, u, t := w0[i], w0[i..], Staying(s0, stored, w0[..i]);
    RotatedList(s, k, u, t);
    RotateInv(s, k);
    StayingNext(s0, stored, w0, i);
    hide Inv, Rotate, Staying, Woken;
    assert u[1..] + t + [x] == w0[i + 1..] + (t + [x]);
    forall d: nat
      ensures Covers(keys, Of(Rotate(s, k), d).keys)
    {
      assert Covers(keys, Of(s, d).keys);
    }
    forall j | 0 <= j < |w0|
      ensures Settled(s0, Rotate(s, k), stored, w0[j], j < i + 1)
    {
      assert Settled(s0, s, stored, w0[j], j < i);
    }
  }

  lemma VisitWakes(w0: seq<Waiter>, i: nat, s0: State, s: State, k: Key, stored: Option<Type>, keys: seq<Key>)
    requires Halfway(w0, i, s0, s, k, stored, keys) && i < |w0| && Woken(s0, stored, w0[i]) && ClientsDistinct(w0)
    ensures Halfway(w0, i + 1, s0, Step(Rotate(s, k), UnblockClientOnKey(w0[i].client, k, keys)), k, stored, keys)
  {
    var x, u, t := w0[i], w0[i..], Staying(s0, stored, w0[..i]);
    RotatedList(s, k, u, t);
    RotateInv(s, k);
    StayingNext(s0, stored, w0, i);
    hide Inv, Rotate, Staying, Woken;
    var w1 := Waiters(Rotate(s, k), k);
    var n := |w1| - 1;
    assert Covers(keys, Of(Rotate(s, k), x.client).keys) by { assert Covers(keys, Of(s, x.client).keys); }
    WokenLeaves(Rotate(s, k), x.client, k, keys, n);
    hide Step;
    var r := Step(Rotate(s, k), UnblockClientOnKey(x.client, k, keys));
    assert w1[..n] + w1[n + 1..] == w0[i + 1..] + t;
    forall j | 0 <= j < |w0|
      ensures Settled(s0, r, stored, w0[j], j < i + 1)
    {
      assert Settled(s0, s, stored, w0[j], j < i);
    }
    forall d: nat
      ensures Covers(keys, Of(r, d).keys)
    {
      assert Covers(keys, Of(s, d).keys);
    }
  }

  lemma QuietVisit(w0: seq<Waiter>, i: nat, s0: State, s: Server, k: Key, wake: bool, v: Visit, keys: seq<Key>)
    requires Halfway(w0, i, s0, s.index, k, v.stored, keys) && i < |w0| && ClientsDistinct(w0) && Quiet(v, v.stored, keys)
    ensures Waiters(s.index, k) != [] && Waiters(s.index, k)[0] == w0[i]
    ensures Halfway(w0, i + 1, s0, VisitHead(s, k, wake, v).index, k, v.stored, keys)
  {
    QuietVisitIndex(s, k, wake, v);
    assert Settled(s0, s.index, v.stored, w0[i], i < i);
    assert Woken(s.index, v.stored, w0[i]) == Woken(s0, v.stored, w0[i]);
    hide Inv, Step, Rotate, VisitHead;
    if Woken(s0, v.stored, w0[i]) {
      VisitWakes(w0, i, s0, s.index, k, v.stored, keys);
    } else {
      VisitStays(w0, i, s0, s.index, k, v.stored, keys);
    }
  }

  lemma PassNext(s: Server, r: Ready, count: nat, script: seq<Visit>, visited: seq<Waiter>)
    requires count > 0 && Waiters(s.index, r.key) != [] && script != []
    ensures Pass(s, r, count, script, visited) ==
            Pass(VisitHead(s, r.key, r.wakeModules, script[0]), r, count - 1, script[1..],
                 visited + [Waiters(s.index, r.key)[0]])
  {
    hide VisitHead;
  }

  predicate AllQuiet(script: seq<Visit>, stored: Option<Type>, keys: seq<Key>) {
    forall j :: 0 <= j < |script| ==> Quiet(script[j], stored, keys)
  }

  lemma {:induction false} QuietPass(w0: seq<Waiter>, i: nat, s0: State, s: Server, r: Ready, script: seq<Visit>,
                                     visited: seq<Waiter>, stored: Option<Type>, keys: seq<Key>)
    requires Halfway(w0, i, s0, s.index, r.key, stored, keys) && ClientsDistinct(w0)
    requires i <= |w0| && |script| == |w0| - i && AllQuiet(script, stored, keys)
    ensures var o := Pass(s, r, |w0| - i, script, visited);
            Halfway(w0, |w0|, s0, o.s.index, r.key, stored, keys) && o.visited == visited + w0[i..]
    decreases |w0| - i
  {
    hide Halfway, VisitHead, ClientsDistinct, Waiters;
    if i == |w0| {
      assert w0[i..] == [];
    } else {
      hide Pass;
      assert Quiet(script[0], stored, keys);
      QuietVisit(w0, i, s0, s, r.key, r.wakeModules, script[0], keys);
      PassNext(s, r, |w0| - i, script, visited);
      assert forall j :: 0 <= j < |script[1..]| ==> script[1..][j] == script[j + 1];
      QuietPass(w0, i + 1, s0, VisitHead(s, r.key, r.wakeModules, script[0]), r, script[1..], visited + [w0[i]], stored, keys);
      assert visited + [w0[i]] + w0[i + 1..] == visited + w0[i..];
    }
  }

  lemma BeforeVisits(s: State, k: Key, stored: Option<Type>, keys: seq<Key>)
    requires Inv(s) && Reaches(s, keys)
    ensures Halfway(Waiters(s, k), 0, s, s, k, stored, keys) && ClientsDistinct(Waiters(s, k))
  {
    var w := Waiters(s, k);
    assert ListOk(s, k);
    hide Inv, Woken;
    assert w[0..] + Staying(s, stored, w[..0]) == w;
  }

  lemma AfterVisits(w: seq<Waiter>, s0: State, s: State, k: Key, stored: Option<Type>, keys: seq<Key>)
    requires Halfway(w, |w|, s0, s, k, stored, keys)
    ensures Waiters(s, k) == Staying(s0, stored, w)
    ensures forall j :: 0 <= j < |w| ==> Settled(s0, s, stored, w[j], true)
  {
    hide Inv, Woken, Of;
    assert w[|w|..] == [] && w[..|w|] == w;
    forall j | 0 <= j < |w|
      ensures Settled(s0, s, stored, w[j], true)
    {
      assert Settled(s0, s, stored, w[j], j < |w|);
    }
  }

  /** If the commands of the woken clients do nothing further, a pass visits every waiter once, in
      order; the waiters left are those it cannot serve, in their old order; the clients of the
      others are not blocked any more; and the clients left are as they were. */
  lemma PassWakes(s: Server, r: Ready, script: seq<Visit>, stored: Option<Type>, keys: seq<Key>)
    requires Inv(s.index) && Reaches(s.index, keys)
    requires |script| == |Waiters(s.index, r.key)| && AllQuiet(script, stored, keys)
    ensures var w, o := Waiters(s.index, r.key), ServeKey(s, r, script);
            && o.visited == w && Waiters(o.s.index, r.key) == Staying(s.index, stored, w)
            && forall j :: 0 <= j < |w| ==> Settled(s.index, o.s.index, stored, w[j], true)
  {
    var w, o := Waiters(s.index, r.key), ServeKey(s, r, script);
    assert o == Pass(s, r, |w| - 0, script, []);
    assert w[0..] == w && [] + w == w;
    BeforeVisits(s.index, r.key, stored, keys);
    hide *;
    QuietPass(w, 0, s.index, s, r, script, [], stored, keys);
    AfterVisits(w, s.index, o.s.index, r.key, stored, keys);
  }
}
