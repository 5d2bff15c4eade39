/** The list of ready keys and the per-database ready sets, through every run of the handler. */
module ReadyKeys {
  import opened Blocked
  import opened BlockedClients
  import opened Serving

  // ---------------------------------------------------------------- the handler

  /** `local` is the list handleClientsBlockedOnKeys took from the server and still works on. */
  datatype Handler = Handler(s: Server, local: seq<Ready>)

  datatype Move =
    | Act(f: Effect)              // a command outside a pass
    | Take                        // the server's list becomes the local one
    | Serve(script: seq<Visit>)   // the head of the local list is served

  const START: Handler := Handler(Server(INIT, [], {}), [])

  /** The server when the pass over the head of the local list begins. */
  function Begun(h: Handler): Server
    requires h.local != []
  {
    h.s.(ready := h.s.ready - {h.local[0].key})
  }

  function Next(h: Handler, m: Move): Handler {
    match m
    case Act(f) => h.(s := Affect(h.s, f))
    case Take => if h.local == [] then Handler(h.s.(queue := []), h.s.queue) else h
    case Serve(script) =>
      if h.local == [] then h else Handler(ServeKey(Begun(h), h.local[0], script).s, h.local[1..])
  }

  function RunHandler(h: Handler, ms: seq<Move>): Handler
    decreases |ms|
  {
    if ms == [] then h else RunHandler(Next(h, ms[0]), ms[1..])
  }

  /** The loop of handleClientsBlockedOnKey. */
  method HandleKey(start: Server, r: Ready, script: seq<Visit>) returns (s: Server, visited: seq<Waiter>)
    ensures Served(s, visited) == ServeKey(start, r, script)
  {
    hide VisitHead;
    s, visited := start, [];
    var count, rest := |Waiters(s.index, r.key)|, script;
    while count > 0
      invariant 0 <= count
      invariant Pass(s, r, count, rest, visited) == ServeKey(start, r, script)
    {
      var clients := Waiters(s.index, r.key);
      if clients == [] {
        break;
      }
      var v := if rest == [] then IDLE_VISIT else rest[0];
      s, visited := VisitHead(s, r.key, r.wakeModules, v), visited + [clients[0]];
      rest, count := if rest == [] then [] else rest[1..], count - 1;
    }
  }

  // ---------------------------------------------------------------- list and set agree

  function KeysOf(q: seq<Ready>): set<Key> {
    set i | 0 <= i < |q| :: q[i].key
  }

  /** No key is queued twice, and the ready set holds exactly the queued keys. */
  ghost predicate ReadyOk(s: Server, pending: seq<Ready>) {
    var all := pending + s.queue;
    && (forall i, j :: 0 <= i < j < |all| ==> all[i].key != all[j].key)
    && s.ready == KeysOf(all)
  }

  lemma KeysOfAppend(q: seq<Ready>, x: Ready)
    ensures KeysOf(q + [x]) == KeysOf(q) + {x.key}
    ensures forall i :: 0 <= i < |q| ==> q[i].key in KeysOf(q)
  {
    forall k | k in KeysOf(q) + {x.key}
      ensures k in KeysOf(q + [x])
    {
      if k in KeysOf(q) {
        var i :| 0 <= i < |q| && q[i].key == k;
        assert (q + [x])[i].key == k;
      } else {
        assert (q + [x])[|q|].key == k;
      }
    }
  }

  lemma SignalReadyOk(s: Server, pending: seq<Ready>, k: Key, t: Type, deleted: bool)
    requires ReadyOk(s, pending)
    ensures ReadyOk(SignalKey(s, k, t, deleted), pending)
  {
    var s' := SignalKey(s, k, t, deleted);
    if s' != s {
      var all, x := pending + s.queue, Ready(k, t != ListNonEmpty);
      assert s'.ready == s.ready + {k} && s'.queue == s.queue + [x] && k !in s.ready;
      hide SignalKey, KeysOf;
      assert pending + s'.queue == all + [x];
      KeysOfAppend(all, x);
    }
  }

  lemma {:induction false} EffectsReadyOk(s: Server, pending: seq<Ready>, fs: seq<Effect>)
    requires ReadyOk(s, pending)
    ensures ReadyOk(AffectAll(s, fs), pending)
    decreases |fs|
  {
    hide ReadyOk, SignalKey, Step;
    if fs != [] {
      EffectReadyOk(s, pending, fs[0]);
      EffectsReadyOk(Affect(s, fs[0]), pending, fs[1..]);
    }
  }

  lemma EffectReadyOk(s: Server, pending: seq<Ready>, f: Effect)
    requires ReadyOk(s, pending)
    ensures ReadyOk(Affect(s, f), pending)
  {
    hide SignalKey, Step;
    if f.Signal? { SignalReadyOk(s, pending, f.k, f.t, f.deleted); }
  }

  lemma VisitReadyOk(s: Server, pending: seq<Ready>, c: nat, k: Key, wake: bool, v: Visit)
    requires ReadyOk(s, pending)
    ensures ReadyOk(VisitClient(s, c, k, wake, v), pending)
  {
    hide ReadyOk, Affect, AffectAll;
    var e := Change(UnblockClientOnKey(c, k, v.order));
    EffectReadyOk(s, pending, e);
    EffectsReadyOk(Affect(s, e), pending, v.effects);
    EffectsReadyOk(s, pending, v.effects);
  }

  /** After any number of visits. */
  lemma {:induction false} PassReadyOk(s: Server, pending: seq<Ready>, r: Ready, count: nat, script: seq<Visit>,
                                       visited: seq<Waiter>)
    requires ReadyOk(s, pending)
    ensures ReadyOk(Pass(s, r, count, script, visited).s, pending)
    decreases count
  {
    var w := Waiters(s.index, r.key);
    if count != 0 && w != [] {
      var v := if script == [] then IDLE_VISIT else script[0];
      var rest := if script == [] then [] else script[1..];
      var s1 := s.(index := Rotate(s.index, r.key));
      assert ReadyOk(s1, pending);
      hide ReadyOk, VisitClient;
      VisitReadyOk(s1, pending, w[0].client, r.key, r.wakeModules, v);
      PassReadyOk(VisitHead(s, r.key, r.wakeModules, v), pending, r, count - 1, rest, visited + [w[0]]);
    }
  }

  /** Taking the head out of the set leaves the rest in agreement, so the key can be signalled again. */
  lemma BegunReadyOk(h: Handler)
    requires ReadyOk(h.s, h.local) && h.local != []
    ensures ReadyOk(Begun(h), h.local[1..]) && h.local[0].key !in Begun(h).ready
  {
    var all, k := h.local + h.s.queue, h.local[0].key;
    assert h.local[1..] + h.s.queue == all[1..];
    assert KeysOf(all[1..]) == KeysOf(all) - {k} by {
      forall q | q in KeysOf(all) - {k}
        ensures q in KeysOf(all[1..])
      {
        var i :| 0 <= i < |all| && all[i].key == q;
        assert all[1..][i - 1].key == q;
      }
      forall q | q in KeysOf(all[1..])
        ensures q in KeysOf(all) - {k}
      {
        var i :| 0 <= i < |all[1..]| && all[1..][i].key == q;
        assert all[i + 1].key == q && all[0].key == k;
      }
    }
  }

  ghost predicate HandlerInv(h: Handler) {
    Inv(h.s.index) && ReadyOk(h.s, h.local)
  }

  lemma EffectInv(s: Server, f: Effect)
    requires Inv(s.index)
    ensures Inv(Affect(s, f).index)
  {
    hide Inv, Step;
    if f.Change? { StepInv(s.index, f.e); }
  }

  lemma NextInv(h: Handler, m: Move)
    requires HandlerInv(h)
    ensures HandlerInv(Next(h, m))
  {
    hide Inv, Affect, ServeKey;
    match m {
      case Act(f) =>
        EffectInv(h.s, f);
        EffectReadyOk(h.s, h.local, f);
      case Take => assert [] + h.s.queue == h.s.queue == h.s.queue + [];
      case Serve(script) =>
        if h.local != [] {
          ServingOrder(Begun(h), h.local[0], script);
          BegunReadyOk(h);
          ServeReadyOk(Begun(h), h.local[1..], h.local[0], script);
        }
    }
  }

  lemma ServeReadyOk(s: Server, pending: seq<Ready>, r: Ready, script: seq<Visit>)
    requires ReadyOk(s, pending)
    ensures ReadyOk(ServeKey(s, r, script).s, pending)
  {
    hide ReadyOk, Pass;
    PassReadyOk(s, pending, r, |Waiters(s.index, r.key)|, script, []);
  }

  lemma {:induction false} RunHandlerInv(h: Handler, ms: seq<Move>)
    requires HandlerInv(h)
    ensures HandlerInv(RunHandler(h, ms))
    decreases |ms|
  {
    hide HandlerInv, Next;
    if ms != [] {
      NextInv(h, ms[0]);
      RunHandlerInv(Next(h, ms[0]), ms[1..]);
    }
  }

  /** In every run, before a pass and after any number `n` of its visits, no key is queued twice and
      the ready set is the set of keys queued behind the one being served. */
  lemma ReadyListMatches(ms: seq<Move>, script: seq<Visit>, n: nat)
    ensures var h := RunHandler(START, ms);
            && ReadyOk(h.s, h.local) && Inv(h.s.index)
            && (h.local != [] ==> ReadyOk(Pass(Begun(h), h.local[0], n, script, []).s, h.local[1..]))
  {
    InitInv();
    assert HandlerInv(START);
    RunHandlerInv(START, ms);
    hide RunHandler, ReadyOk, Inv, Pass;
    var h := RunHandler(START, ms);
    if h.local != [] {
      BegunReadyOk(h);
      PassReadyOk(Begun(h), h.local[1..], h.local[0], n, script, []);
    }
  }

  // ---------------------------------------------------------------- signals

  /** The counters never hide a waiter: a signal that can serve some waiter of the key makes it ready. */
  lemma SignalReaches(s: Server, c: nat, k: Key, t: Type, deleted: bool)
    requires Inv(s.index) && k in Of(s.index, c).keys
    requires t != NoType && Serves(t, Of(s.index, c).btype) && (deleted ==> Of(s.index, c).onNoKey)
    ensures k in SignalKey(s, k, t, deleted).ready
  {
    var x := Of(s.index, c);
    assert c in OfType(s.index, x.btype) by { assert ClientOk(s.index.clients[c]); }
    assert TypeCount(s.index, x.btype) > 0;
    assert k in s.index.waiting && (deleted ==> k in s.index.noKey) by { WaitsThere(s.index, c, k); }
    hide Inv;
  }

  lemma WaitsThere(s: State, c: nat, k: Key)
    requires Inv(s) && k in Of(s, c).keys
    ensures k in s.waiting && (Of(s, c).onNoKey ==> k in s.noKey)
  {
    assert Listed(s, c, k) && CountOk(s, k);
    var w := Waiters(s, k);
    var i :| 0 <= i < |w| && w[i] == Waiter(Of(s, c).keys[k], c);
    NoKeyWaitersDrop(s, w, i);
  }

  /** And a key only becomes ready when somebody waits for it. */
  lemma SignalNeedsWaiter(s: Server, k: Key, t: Type, deleted: bool)
    requires Inv(s.index) && k !in s.ready && k in SignalKey(s, k, t, deleted).ready
    ensures Waiters(s.index, k) != []
    ensures deleted ==> exists i :: 0 <= i < |Waiters(s.index, k)| && Of(s.index, Waiters(s.index, k)[i].client).onNoKey
  {
    assert ListOk(s.index, k) && CountOk(s.index, k);
    if deleted {
      CountIsPlaces(s.index, Waiters(s.index, k));
      assert NoKeyPlaces(s.index, Waiters(s.index, k)) != {};
      var i :| i in NoKeyPlaces(s.index, Waiters(s.index, k));
    }
  }

  /** A signal that should wake a module client of the key is heard by the module exactly when the key
      was not queued before by a signal that skips modules. */
  lemma ModulesHearIff(s: Server, pending: seq<Ready>, c: nat, k: Key, t: Type, deleted: bool)
    requires Inv(s.index) && ReadyOk(s, pending) && k in Of(s.index, c).keys && Of(s.index, c).btype == Module
    requires t != NoType && t != ListNonEmpty && (deleted ==> Of(s.index, c).onNoKey)
    ensures Ready(k, true) in pending + SignalKey(s, k, t, deleted).queue <==> Ready(k, false) !in pending + s.queue
  {
    SignalReaches(s, c, k, t, deleted);
    var all := pending + s.queue;
    hide Inv;
    if k in s.ready {
      var i :| 0 <= i < |all| && all[i].key == k;
      assert all[i] == Ready(k, true) || all[i] == Ready(k, false);
    } else {
      assert forall i :: 0 <= i < |all| ==> all[i].key in KeysOf(all);
      var s' := SignalKey(s, k, t, deleted);
      assert pending + s'.queue == all + [Ready(k, true)];
    }
  }

  /** A list that grew is signalled first, the creation of the key second: the entry still skips modules. */
  lemma SecondSignalDropped(s: Server, c: nat, k: Key)
    requires Inv(s.index) && k !in s.ready && k in Of(s.index, c).keys && Of(s.index, c).btype == ListNonEmpty
    ensures AffectAll(s, [Signal(k, ListNonEmpty, false), Signal(k, List, false)]).queue == s.queue + [Ready(k, false)]
  {
    SignalReaches(s, c, k, ListNonEmpty, false);
    hide Inv;
    var fs := [Signal(k, ListNonEmpty, false), Signal(k, List, false)];
    var s1 := SignalKey(s, k, ListNonEmpty, false);
    assert s1.queue == s.queue + [Ready(k, false)];
    assert fs[1..] == [Signal(k, List, false)] && fs[1..][1..] == [];
    assert AffectAll(s1, fs[1..]) == s1;
  }

  lemma BlockOne(s: State, c: nat, t: Type, k: Key)
    requires c in s.clients && s.clients[c].keys == map[]
    ensures var r := BlockForKeys(s, c, t, [k], false);
            && c in r.clients && k in r.clients[c].keys && r.clients[c].btype == t
            && forall d :: d in s.clients && d != c ==> d in r.clients && r.clients[d] == s.clients[d]
  {
    var m := SetOnNoKey(s, c, false);
    assert [k][..0] == [];
    assert AddAll(m, c, [k]) == AddWaiter(AddAll(m, c, []), c, k);
  }

  /** So a module client waiting for the key is passed over. */
  lemma ModulesPassedOver()
    ensures var k := Key(0, "k");
            var setup := [Create(0, false), Create(1, false), BlockOnKeys(0, ListNonEmpty, [k], false),
                          BlockOnKeys(1, Module, [k], false)];
            var s := Server(Run(INIT, setup), [], {});
            && k in Of(s.index, 1).keys && Of(s.index, 1).btype == Module
            && AffectAll(s, [Signal(k, ListNonEmpty, false), Signal(k, List, false)]).queue == [Ready(k, false)]
  {
    var k := Key(0, "k");
    var e3, e4 := BlockOnKeys(0, ListNonEmpty, [k], false), BlockOnKeys(1, Module, [k], false);
    var setup := [Create(0, false), Create(1, false), e3, e4];
    InitInv();
    RunInv(INIT, setup);
    hide Inv, BlockForKeys;
    var s2 := Step(Step(INIT, Create(0, false)), Create(1, false));
    assert s2.clients == map[0 := IDLE, 1 := IDLE];
    BlockOne(s2, 0, ListNonEmpty, k);
    var s3 := Step(s2, e3);
    BlockOne(s3, 1, Module, k);
    assert setup[1..] == [Create(1, false), e3, e4] && setup[1..][1..] == [e3, e4];
    assert [e3, e4][1..] == [e4] && [e4][1..] == [];
    assert Run(INIT, setup) == Run(s2, [e3, e4]) == Run(s3, [e4]) == Run(Step(s3, e4), []);
    SecondSignalDropped(Server(Run(INIT, setup), [], {}), 0, k);
  }

  /** A client that is woken waits for nothing any more. */
  lemma WokenClient(s: Server, c: nat, k: Key, order: seq<Key>, q: Key)
    requires Inv(s.index) && k in Of(s.index, c).keys && Covers(order, Of(s.index, c).keys - {k})
    ensures var t := Affect(s, Change(UnblockClientOnKey(c, k, order))).index;
            && c in t.clients && !t.clients[c].blocked && t.clients[c].keys == map[]
            && forall i :: 0 <= i < |Waiters(t, q)| ==> Waiters(t, q)[i].client != c
  {
    var t := Step(s.index, UnblockClientOnKey(c, k, order));
    StepInv(s.index, UnblockClientOnKey(c, k, order));
    assert t == UnblockOnKey(s.index, c, k, order);
    RemoveKeys(s.index, c, k);
    hide RemoveWaiter, RemoveAll;
    assert c in t.clients && !t.clients[c].blocked && t.clients[c].keys == map[];
    hide Step, UnblockOnKey;
    assert ListOk(t, q);
    forall i | 0 <= i < |Waiters(t, q)|
      ensures Waiters(t, q)[i].client != c
    {
      assert WaiterOk(t, q, Waiters(t, q)[i]);
    }
  }
}
