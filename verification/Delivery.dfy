/** From a signal to the clients it wakes: what is queued, what a visit does, and the whole way. */
module Delivery {
  import opened Options
  import opened Blocked
  import opened BlockedClients
  import opened Serving
  import opened ReadyKeys
  import opened WakeUp

  // ---------------------------------------------------------------- the signal

  /** Somebody is blocked, on whatever key, in a way that a signal of this kind can serve. */
  ghost predicate Servable(s: State, t: Type) {
    exists c: nat :: c in s.clients && s.clients[c].blocked && Fits(t, s.clients[c].btype)
  }

  /** A list that appears serves both kinds of list client, one that grows only those that wait for
      more elements; a module client is served by everything but a list that grows. */
  predicate Fits(t: Type, b: Type) {
    match b
    case List => t == List
    case ListNonEmpty => t == List || t == ListNonEmpty
    case Module => t != ListNonEmpty
    case _ => t == b
  }

  lemma CountsOf(s: State, t: Type)
    requires Inv(s)
    ensures TypeCount(s, t) != 0 <==> exists c: nat :: c in s.clients && s.clients[c].blocked && s.clients[c].btype == t
  {
    assert TypeCount(s, t) == |OfType(s, t)|;
    hide Inv;
    if |OfType(s, t)| != 0 {
      var c :| c in OfType(s, t);
    }
    if c: nat :| c in s.clients && s.clients[c].blocked && s.clients[c].btype == t {
      assert c in OfType(s, t);
    }
  }

  lemma ServableIff(s: State, t: Type)
    requires Inv(s)
    ensures Servable(s, t) <==>
            || TypeCount(s, t) != 0 || (t == List && TypeCount(s, ListNonEmpty) != 0)
            || (t != ListNonEmpty && TypeCount(s, Module) != 0)
  {
    CountsOf(s, t);
    CountsOf(s, ListNonEmpty);
    CountsOf(s, Module);
    hide Inv, TypeCount;
  }

  /** Somebody waits for the key; when it was deleted, somebody who wants to hear of that. */
  ghost predicate Awaited(s: State, k: Key, deleted: bool) {
    exists c: nat :: k in Of(s, c).keys && (deleted ==> Of(s, c).onNoKey)
  }

  lemma AwaitedIff(s: State, k: Key, deleted: bool)
    requires Inv(s)
    ensures Awaited(s, k, deleted) <==> if deleted then k in s.noKey else k in s.waiting
  {
    if Awaited(s, k, deleted) {
      var c: nat :| k in Of(s, c).keys && (deleted ==> Of(s, c).onNoKey);
      WaitsThere(s, c, k);
    }
    var w := Waiters(s, k);
    assert ListOk(s, k) && CountOk(s, k);
    if deleted && k in s.noKey {
      CountIsPlaces(s, w);
      assert NoKeyPlaces(s, w) != {};
      var i :| i in NoKeyPlaces(s, w);
      assert WaiterOk(s, k, w[i]);
    } else if !deleted && k in s.waiting {
      assert WaiterOk(s, k, w[0]);
    }
  }

  /** A signal queues a key exactly when it is not queued yet, somebody waits for it, and somebody,
      perhaps on another key, is blocked in a way the signal can serve. Then the key goes to the end
      of the list, and modules may hear of it unless an existing list grew. */
  lemma SignalIff(s: Server, k: Key, t: Type, deleted: bool)
    requires Inv(s.index)
    ensures var r := SignalKey(s, k, t, deleted);
            if t != NoType && k !in s.ready && Servable(s.index, t) && Awaited(s.index, k, deleted)
            then r == Server(s.index, s.queue + [Ready(k, t != ListNonEmpty)], s.ready + {k})
            else r == s
  {
    ServableIff(s.index, t);
    AwaitedIff(s.index, k, deleted);
    hide Inv, Servable, Awaited, TypeCount;
  }

  // ---------------------------------------------------------------- one visit

  /** A module client is left where it is; its module runs exactly when the signal was meant for
      modules and the key exists or the client wants to hear of its end. */
  lemma ModuleVisit(s: Server, k: Key, wake: bool, v: Visit)
    requires Waiters(s.index, k) != [] && Of(s.index, Waiters(s.index, k)[0].client).btype == Module
    ensures var x, s1 := Of(s.index, Waiters(s.index, k)[0].client), s.(index := Rotate(s.index, k));
            VisitHead(s, k, wake, v) == if wake && (v.stored != None || x.onNoKey) then AffectAll(s1, v.effects) else s1
  {
    hide AffectAll, RotateList;
  }

  /** A client that is woken and whose command blocks again on the key goes, with a new node, behind
      all the others, which keep their order. */
  lemma VisitReblocks(s: Server, k: Key, wake: bool, v: Visit, c: nat, t: Type, onNoKey: bool)
    requires Inv(s.index) && Waiters(s.index, k) != [] && Waiters(s.index, k)[0].client == c
    requires Woken(s.index, v.stored, Waiters(s.index, k)[0]) && Covers(v.order, Of(s.index, c).keys)
    requires KeyType(t) && v.effects == [Change(BlockOnKeys(c, t, [k], onNoKey))]
    ensures var w, r := Waiters(s.index, k), VisitHead(s, k, wake, v);
            && |Waiters(r.index, k)| == |w| && Waiters(r.index, k)[..|w| - 1] == w[1..]
            && Waiters(r.index, k)[|w| - 1].client == c && Waiters(r.index, k)[|w| - 1].node >= s.index.nextNode
            && Of(r.index, c).blocked && Of(r.index, c).btype == t && Of(r.index, c).keys.Keys == {k}
  {
    hide Inv, Step;
    var b := Step(Rotate(s.index, k), UnblockClientOnKey(c, k, v.order));
    RotatedLeaves(s.index, c, k, v.order);
    assert VisitHead(s, k, wake, v) == AffectAll(Server(b, s.queue, s.ready), v.effects) by { hide AffectAll; }
    hide VisitHead, Rotate, Woken;
    Blocks(b, c, t, k, onNoKey);
    assert v.effects[1..] == [];
    var e := BlockOnKeys(c, t, [k], onNoKey);
    assert AffectAll(Server(b, s.queue, s.ready), v.effects) == Server(Step(b, e), s.queue, s.ready);
  }

  lemma RotatedLeaves(s: State, c: nat, k: Key, order: seq<Key>)
    requires Inv(s) && Waiters(s, k) != [] && Waiters(s, k)[0].client == c && Covers(order, Of(s, c).keys)
    ensures var r := Step(Rotate(s, k), UnblockClientOnKey(c, k, order));
            && Waiters(r, k) == Waiters(s, k)[1..] && r.nextNode >= s.nextNode
            && c in r.clients && !Of(r, c).blocked && Of(r, c).keys == map[]
  {
    var w, a, e := Waiters(s, k), Rotate(s, k), UnblockClientOnKey(c, k, order);
    RotateInv(s, k);
    assert Waiters(a, k) == w[1..] + [w[0]] && c in a.clients by { assert ListOk(s, k) && WaiterOk(s, k, w[0]); }
    hide Inv, Rotate;
    var _, _ := StepEvolves(a, e, k, Waiters(a, k), [], a.nextNode);
    WokenLeaves(a, c, k, order, |w| - 1);
    StepKeepsClient(a, c, k, order);
  }

  lemma StepKeepsClient(s: State, c: nat, k: Key, order: seq<Key>)
    requires c in s.clients
    ensures c in Step(s, UnblockClientOnKey(c, k, order)).clients
  {
    hide RemoveAll, RemoveWaiter;
  }

  lemma Blocks(s: State, c: nat, t: Type, k: Key, onNoKey: bool)
    requires c in s.clients && !Of(s, c).blocked && Of(s, c).keys == map[] && KeyType(t)
    ensures var r := Step(s, BlockOnKeys(c, t, [k], onNoKey));
            && Waiters(r, k) == Waiters(s, k) + [Waiter(s.nextNode, c)]
            && Of(r, c).blocked && Of(r, c).btype == t && Of(r, c).keys.Keys == {k}
  {
    var m := SetOnNoKey(s, c, onNoKey);
    assert [k][..0] == [];
    assert AddAll(m, c, [k]) == AddWaiter(AddAll(m, c, []), c, k);
  }

  // ---------------------------------------------------------------- the whole way

  lemma PlaceOf(s: State, c: nat, k: Key) returns (j: nat)
    requires Inv(s) && k in Of(s, c).keys
    ensures j < |Waiters(s, k)| && Waiters(s, k)[j].client == c && Of(s, c).blocked
  {
    assert Listed(s, c, k) && ClientOk(Of(s, c));
    j :| 0 <= j < |Waiters(s, k)| && Waiters(s, k)[j] == Waiter(Of(s, c).keys[k], c);
  }

  /** A quiet pass over the head of the list unblocks a client that waits for the key exactly when the
      client wants to hear of any change or works on the type of the object; a module client stays. */
  lemma ServeWakesIff(h: Handler, c: nat, script: seq<Visit>, stored: Option<Type>, keys: seq<Key>)
    requires HandlerInv(h) && h.local != [] && h.local[0].key in Of(h.s.index, c).keys
    requires Reaches(h.s.index, keys) && |script| == |Waiters(h.s.index, h.local[0].key)| && AllQuiet(script, stored, keys)
    ensures var x, r := Of(h.s.index, c), Next(h, Serve(script));
            if x.btype != Module &&
               (x.onNoKey || stored == Some(x.btype) || (stored == Some(List) && x.btype == ListNonEmpty))
            then !Of(r.s.index, c).blocked && Of(r.s.index, c).keys == map[]
            else Of(r.s.index, c) == x && x.blocked
  {
    hide Inv, ReadyOk, ServeKey, Reaches, AllQuiet, Settled, Woken;
    var k, s := h.local[0].key, Begun(h);
    var j := PlaceOf(s.index, c, k);
    PassWakes(s, h.local[0], script, stored, keys);
    SettledIs(s.index, ServeKey(s, h.local[0], script).s.index, stored, Waiters(s.index, k)[j]);
  }

  lemma SettledIs(s: State, r: State, stored: Option<Type>, w: Waiter)
    requires Settled(s, r, stored, w, true)
    ensures var x := Of(s, w.client);
            if x.btype != Module &&
               (x.onNoKey || stored == Some(x.btype) || (stored == Some(List) && x.btype == ListNonEmpty))
            then !Of(r, w.client).blocked && Of(r, w.client).keys == map[]
            else Of(r, w.client) == x
  {
    hide Of;
  }

  /** A native client waiting for a key, when nothing else is queued: the signal that its key holds an
      object it can use, the taking of the list and a quiet pass leave it unblocked and the list empty. */
  lemma SignalledClientWakes(h: Handler, c: nat, k: Key, t: Type, script: seq<Visit>, keys: seq<Key>)
    requires HandlerInv(h) && h.local == [] && h.s.queue == []
    requires k in Of(h.s.index, c).keys && Of(h.s.index, c).btype != Module && Fits(t, Of(h.s.index, c).btype)
    requires Reaches(h.s.index, keys) && |script| == |Waiters(h.s.index, k)|
    requires AllQuiet(script, Some(if t == ListNonEmpty then List else t), keys)
    ensures var r := RunHandler(h, [Act(Signal(k, t, false)), Take, Serve(script)]);
            !Of(r.s.index, c).blocked && Of(r.s.index, c).keys == map[] && r.local == []
  {
    assert ClientOk(Of(h.s.index, c));
    assert h.s.ready == {} by { assert [] + h.s.queue == []; }
    hide Inv, ReadyOk, Reaches;
    assert Servable(h.s.index, t) && Awaited(h.s.index, k, false);
    NextInv(h, Act(Signal(k, t, false)));
    NextInv(Next(h, Act(Signal(k, t, false))), Take);
    hide HandlerInv, SignalKey, Servable, Awaited, AllQuiet, ServeKey;
    SignalIff(h.s, k, t, false);
    var h2 := Next(Next(h, Act(Signal(k, t, false))), Take);
    assert h2.local == [Ready(k, t != ListNonEmpty)] && h2.s.index == h.s.index;
    ServeWakesIff(h2, c, script, Some(if t == ListNonEmpty then List else t), keys);
    hide Next;
    RunThree(h, Act(Signal(k, t, false)), Take, Serve(script));
  }

  lemma RunThree(h: Handler, a: Move, b: Move, c: Move)
    ensures RunHandler(h, [a, b, c]) == Next(Next(Next(h, a), b), c)
  {
    hide Next;
    assert [a, b, c][1..] == [b, c] && [b, c][1..] == [c] && [c][1..] == [];
    assert RunHandler(h, [a, b, c]) == RunHandler(Next(h, a), [b, c]) == RunHandler(Next(Next(h, a), b), [c]);
  }
}
