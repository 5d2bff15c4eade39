/** What blocking and unblocking do to every list and table, exactly. */
module BlockedExact {
  import opened Blocked
  import opened BlockedClients

  // ---------------------------------------------------------------- blocking

  /** The client's table and every list after the loop of blockForKeys. */
  lemma {:induction false} AddAllExact(s: State, c: nat, ks: seq<Key>, q: Key)
    requires c in s.clients && s.clients[c].keys == map[]
    ensures var m := AddAll(s, c, ks);
            && c in m.clients && (q in m.clients[c].keys <==> q in ks)
            && Waiters(m, q) == Waiters(s, q) + if q in ks then [Waiter(m.clients[c].keys[q], c)] else []
    decreases |ks|
  {
    if ks == [] {
      assert Waiters(s, q) + [] == Waiters(s, q);
    } else {
      var k, init := ks[|ks| - 1], ks[..|ks| - 1];
      assert ks == init + [k];
      AddAllExact(s, c, init, q);
      AddAllExact(s, c, init, k);
    }
  }

  /** A client that blocks waits for exactly the given keys, once each, behind everybody who waited
      before; nobody else is touched. */
  lemma BlockExact(s: State, c: nat, t: Type, ks: seq<Key>, onNoKey: bool, q: Key)
    requires c in s.clients && s.clients[c].keys == map[]
    ensures var r := BlockForKeys(s, c, t, ks, onNoKey);
            && c in r.clients && (q in r.clients[c].keys <==> q in ks)
            && r.clients[c].blocked && r.clients[c].btype == t && r.clients[c].onNoKey == onNoKey
            && Waiters(r, q) == Waiters(s, q) + (if q in ks then [Waiter(r.clients[c].keys[q], c)] else [])
            && forall d: nat :: d != c ==> Of(r, d) == Of(s, d)
  {
    var m := SetOnNoKey(s, c, onNoKey);
    AddAllExact(m, c, ks, q);
    AddAllFlags(m, c, ks);
    hide AddAll;
  }

  // ---------------------------------------------------------------- unblocking

  /** A list without the waiters of one client. */
  function Others(w: seq<Waiter>, c: nat): seq<Waiter> {
    if w == [] then [] else (if w[0].client == c then [] else [w[0]]) + Others(w[1..], c)
  }

  lemma {:induction false} OthersAll(w: seq<Waiter>, c: nat)
    requires forall i :: 0 <= i < |w| ==> w[i].client != c
    ensures Others(w, c) == w
    decreases |w|
  {
    if w != [] { OthersAll(w[1..], c); }
  }

  lemma {:induction false} OthersAt(w: seq<Waiter>, c: nat, i: nat)
    requires i < |w| && w[i].client == c && NodesDistinct(w)
    ensures Others(w, c) == w[..i] + w[i + 1..]
    decreases |w|
  {
    if i == 0 {
      forall j | 0 <= j < |w[1..]|
        ensures w[1..][j].client != c
      {
        assert w[0].client != w[j + 1].client;
      }
      OthersAll(w[1..], c);
    } else {
      assert w[0].client != w[i].client;
      assert NodesDistinct(w[1..]);
      OthersAt(w[1..], c, i - 1);
      assert [w[0]] + (w[1..][..i - 1] + w[1..][i..]) == w[..i] + w[i + 1..];
    }
  }

  /** A client that does not have a key does not stand in its list. */
  lemma NotInList(s: State, c: nat, k: Key)
    requires IndexOk(s) && k !in Of(s, c).keys
    ensures Others(Waiters(s, k), c) == Waiters(s, k)
  {
    var w := Waiters(s, k);
    assert ListOk(s, k);
    forall i | 0 <= i < |w|
      ensures w[i].client != c
    {
      assert WaiterOk(s, k, w[i]);
    }
    OthersAll(w, c);
  }

  /** Releasing one key takes the client out of that list. */
  lemma RemoveExact(s: State, c: nat, k: Key)
    requires IndexOk(s)
    ensures Waiters(RemoveWaiter(s, c, k), k) == Others(Waiters(s, k), c)
  {
    if k in Of(s, c).keys {
      var i := Position(s, c, k);
      OthersAt(Waiters(s, k), c, i);
      hide Unlinked, IndexOk, Others;
    } else {
      NotInList(s, c, k);
    }
  }

  lemma {:induction false} RemoveAllExact(s: State, c: nat, ks: seq<Key>, q: Key)
    requires IndexOk(s) && c in s.clients && Covers(ks, Of(s, c).keys)
    ensures Waiters(RemoveAll(s, c, ks), q) == Others(Waiters(s, q), c)
  {
    hide IndexOk, Others;
    if q in ks {
      WalkExact(s, c, ks, q);
    } else {
      assert q !in Of(s, c).keys;
      NotInList(s, c, q);
      WalkPast(s, c, ks, q);
    }
  }

  lemma {:induction false} WalkPast(s: State, c: nat, ks: seq<Key>, q: Key)
    requires q !in ks || q !in Of(s, c).keys
    ensures Waiters(RemoveAll(s, c, ks), q) == Waiters(s, q)
    ensures q in Of(RemoveAll(s, c, ks), c).keys <==> q in Of(s, c).keys
    decreases |ks|
  {
    if ks != [] {
      var k, init := ks[|ks| - 1], ks[..|ks| - 1];
      assert ks == init + [k];
      WalkPast(s, c, init, q);
      hide Unlinked, RemoveAll;
      if k != q { RemoveOthers(RemoveAll(s, c, init), c, k, q); }
      assert RemoveAll(s, c, ks) == RemoveWaiter(RemoveAll(s, c, init), c, k) by { RemoveAllLast(s, c, ks); }
    }
  }

  lemma RemoveAllLast(s: State, c: nat, ks: seq<Key>)
    requires ks != []
    ensures RemoveAll(s, c, ks) == RemoveWaiter(RemoveAll(s, c, ks[..|ks| - 1]), c, ks[|ks| - 1])
  {
    hide RemoveWaiter;
  }

  lemma {:induction false} WalkExact(s: State, c: nat, ks: seq<Key>, q: Key)
    requires IndexOk(s) && c in s.clients && q in ks
    ensures Waiters(RemoveAll(s, c, ks), q) == Others(Waiters(s, q), c)
    decreases |ks|
  {
    hide IndexOk, Others, RemoveAll, RemoveWaiter;
    var k, init := ks[|ks| - 1], ks[..|ks| - 1];
    assert ks == init + [k];
    var m := RemoveAll(s, c, init);
    RemoveAllLast(s, c, ks);
    RemoveAllIndexOk(s, c, init);
    RemoveAllFlags(s, c, init);
    if q in init {
      WalkExact(s, c, init, q);
      assert q !in Of(m, c).keys;
      if k == q { RemoveExact(m, c, q); NotInList(m, c, q); } else { RemoveOthers(m, c, k, q); }
    } else {
      WalkPast(s, c, init, q);
      RemoveExact(m, c, q);
    }
  }

  /** A client that is unblocked stands in no list any more; everybody else keeps their place. */
  lemma UnblockExact(s: State, c: nat, order: seq<Key>, q: Key)
    requires Inv(s) && c in s.clients && s.clients[c].blocked && Covers(order, s.clients[c].keys)
    ensures var r := Unblock(s, c, order);
            && c in r.clients && !r.clients[c].blocked && r.clients[c].keys == map[]
            && Waiters(r, q) == Others(Waiters(s, q), c)
            && forall d: nat :: d != c ==> Of(r, d) == Of(s, d)
  {
    assert ClientOk(s.clients[c]);
    if KeyType(s.clients[c].btype) {
      RemoveAllExact(s, c, order, q);
      RemoveAllFlags(s, c, order);
    } else {
      NotInList(s, c, q);
    }
    hide Inv, RemoveAll, Others;
  }

  // ---------------------------------------------------------------- every step

  /** A client blocks on keys exactly when it exists, is not blocked and the type waits for keys; then it
      waits behind everybody else for the given keys, and the counter of its type goes up by one. */
  lemma BlockStepIff(s: State, c: nat, t: Type, ks: seq<Key>, onNoKey: bool, q: Key)
    requires Inv(s)
    ensures var r := Step(s, BlockOnKeys(c, t, ks, onNoKey));
            if c in s.clients && !s.clients[c].blocked && t in {List, ListNonEmpty, Zset, Stream, Module}
            then && c in r.clients && (q in r.clients[c].keys <==> q in ks)
                 && r.clients[c].blocked && r.clients[c].btype == t && r.clients[c].onNoKey == onNoKey
                 && Waiters(r, q) == Waiters(s, q) + (if q in ks then [Waiter(r.clients[c].keys[q], c)] else [])
                 && (forall d: nat :: d != c ==> Of(r, d) == Of(s, d)) && TypeCount(r, t) == TypeCount(s, t) + 1
            else r == s
  {
    if c in s.clients && !s.clients[c].blocked && KeyType(t) {
      assert ClientOk(s.clients[c]);
      hide Inv, BlockForKeys;
      BlockExact(s, c, t, ks, onNoKey, q);
      BlockCounts(s, c, t, ks, onNoKey);
    }
  }

  lemma BlockCounts(s: State, c: nat, t: Type, ks: seq<Key>, onNoKey: bool)
    ensures TypeCount(BlockForKeys(s, c, t, ks, onNoKey), t) == TypeCount(s, t) + 1
  {
    hide AddAll;
    AddAllCounts(SetOnNoKey(s, c, onNoKey), c, ks, t);
  }

  lemma {:induction false} AddAllCounts(s: State, c: nat, ks: seq<Key>, t: Type)
    ensures TypeCount(AddAll(s, c, ks), t) == TypeCount(s, t)
    decreases |ks|
  {
    if ks != [] { AddAllCounts(s, c, ks[..|ks| - 1], t); }
  }

  /** An unblocked client waits for nothing and stands in no list; a client that is not blocked is left alone. */
  lemma UnblockStepIff(s: State, c: nat, order: seq<Key>, q: Key)
    requires Inv(s) && Covers(order, Of(s, c).keys)
    ensures var r := Step(s, UnblockClient(c, order));
            if Of(s, c).blocked
            then && !Of(r, c).blocked && Of(r, c).keys == map[] && Of(r, c).btype == NoType && !Of(r, c).onNoKey
                 && Waiters(r, q) == Others(Waiters(s, q), c) && forall d: nat :: d != c ==> Of(r, d) == Of(s, d)
            else r == s
  {
    if Of(s, c).blocked {
      UnblockExact(s, c, order, q);
      StepInv(s, UnblockClient(c, order));
      hide RemoveAll, Others;
    }
  }

  /** Creating, freeing, blocking for something else than keys, and rotating. */
  lemma OtherSteps(s: State, c: nat, isModule: bool, t: Type, k: Key)
    ensures var r := Step(s, Create(c, isModule));
            r.clients == if c in s.clients then s.clients else s.clients[c := Client(false, NoType, isModule, false, map[])]
    ensures var r := Step(s, Free(c));
            r.clients == if c in s.clients && s.clients[c].blocked then s.clients else s.clients - {c}
    ensures var r := Step(s, BlockOther(c, t));
            if c in s.clients && !s.clients[c].blocked && t !in {NoType, List, ListNonEmpty, Zset, Stream, Module}
            then Of(r, c) == s.clients[c].(blocked := true, btype := t) && r.waiting == s.waiting
            else r == s
    ensures var r, w := Step(s, RotateWaiters(k)), Waiters(s, k);
            Waiters(r, k) == (if w == [] then [] else w[1..] + [w[0]]) && r.clients == s.clients
  {
    assert c !in s.clients ==> s.clients - {c} == s.clients;
  }
}
