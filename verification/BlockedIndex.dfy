/** The blocked-client index as the server updates it: fields rewritten in place, key by key. */
module BlockedIndex {
  import opened Blocked
  import opened BlockedClients

  /** The state with some keys taken out of a client's table. */
  function Hiding(s: State, c: nat, done: set<Key>): State {
    s.(clients := s.clients[c := Of(s, c).(keys := Of(s, c).keys - done)])
  }

  lemma HidingNothing(s: State, c: nat)
    requires c in s.clients
    ensures Hiding(s, c, {}) == s
  {
    assert s.clients[c].keys - {} == s.clients[c].keys;
    assert s.clients[c := s.clients[c]] == s.clients;
  }

  /** What releaseBlockedEntry asserts: the list exists and holds the node, and the count of a client
      that asked to be woken without the key is not missing. */
  lemma EntryExists(s: State, c: nat, k: Key)
    requires IndexOk(s) && k in Of(s, c).keys
    ensures k in s.waiting && Waiter(Of(s, c).keys[k], c) in s.waiting[k]
    ensures Of(s, c).onNoKey ==> k in s.noKey && s.noKey[k] > 0
  {
    assert Listed(s, c, k) && CountOk(s, k);
    var w := Waiters(s, k);
    var i :| 0 <= i < |w| && w[i] == Waiter(Of(s, c).keys[k], c);
    NoKeyWaitersDrop(s, w, i);
  }

  /** One key of blockForKeys with the flag still outside the client. */
  function Added(s: State, c: nat, k: Key, v: bool): State {
    var x := Of(s, c);
    if k in x.keys then s else
    s.(clients := s.clients[c := x.(keys := x.keys[k := s.nextNode])],
       waiting := s.waiting[k := Waiters(s, k) + [Waiter(s.nextNode, c)]],
       noKey := if v then s.noKey[k := NoKeys(s, k) + 1] else s.noKey,
       nextNode := s.nextNode + 1)
  }

  /** Setting the flag after the loop is as good as setting it before. */
  lemma FlagAfter(s: State, c: nat, k: Key, v: bool)
    requires c in s.clients
    ensures SetOnNoKey(Added(s, c, k, v), c, v) == AddWaiter(SetOnNoKey(s, c, v), c, k)
    ensures c in Added(s, c, k, v).clients
  {
    var l, r := SetOnNoKey(Added(s, c, k, v), c, v), AddWaiter(SetOnNoKey(s, c, v), c, k);
    assert l.waiting == r.waiting && l.noKey == r.noKey && l.nextNode == r.nextNode;
    assert l.clients[c] == r.clients[c];
    assert l.clients == r.clients;
  }

  /** What releaseBlockedEntry leaves behind. */
  function Released(s: State, c: nat, k: Key, removeKey: bool): State {
    var x := Of(s, c);
    if k !in x.keys then s else
    var w := Unlinked(Waiters(s, k), x.keys[k]);
    s.(clients := if removeKey then s.clients[c := x.(keys := x.keys - {k})] else s.clients,
       waiting := SetList(s.waiting, k, w),
       noKey := if w == [] then s.noKey - {k}
                else if x.onNoKey && NoKeys(s, k) > 0 then SetCount(s.noKey, k, NoKeys(s, k) - 1)
                else s.noKey)
  }

  lemma HidingMore<V>(m: map<Key, V>, done: set<Key>, k: Key)
    ensures m - (done + {k}) == m - done - {k} == m - {k} - (done + {k})
  {
  }

  /** Releasing an entry and hiding it later is as good as removing it at once; `done` are the
      entries whose lists were released before. */
  lemma ReleaseHides(s: State, c: nat, k: Key, done: set<Key>)
    requires c in s.clients && k in s.clients[c].keys && k !in done
    ensures Hiding(Released(s, c, k, false), c, done + {k}) == RemoveWaiter(Hiding(s, c, done), c, k)
  {
    hide Unlinked;
    HidingMore(s.clients[c].keys, done, k);
    var l, r := Hiding(Released(s, c, k, false), c, done + {k}), RemoveWaiter(Hiding(s, c, done), c, k);
    assert l.waiting == r.waiting && l.noKey == r.noKey;
    assert l.clients[c] == r.clients[c];
    assert l.clients == r.clients;
  }

  lemma ReleaseRemoves(s: State, c: nat, k: Key)
    requires c in s.clients
    ensures Released(s, c, k, true) == RemoveWaiter(s, c, k)
  {
    hide Unlinked;
  }

  lemma ReleaseFacts(s: State, c: nat, k: Key, done: set<Key>)
    requires c in s.clients && k in s.clients[c].keys && k !in done && IndexOk(Hiding(s, c, done))
    ensures k in s.waiting && (s.clients[c].onNoKey ==> k in s.noKey && s.noKey[k] > 0)
    ensures Hiding(Released(s, c, k, false), c, done + {k}) == RemoveWaiter(Hiding(s, c, done), c, k)
    ensures IndexOk(Hiding(Released(s, c, k, false), c, done + {k}))
    ensures Released(s, c, k, false).clients == s.clients
  {
    EntryExists(Hiding(s, c, done), c, k);
    ReleaseHides(s, c, k, done);
    RemoveIndexOk(Hiding(s, c, done), c, k);
    hide IndexOk, RemoveWaiter, Unlinked;
  }

  class Index {
    var clients: map<nat, Client>
    var waiting: map<Key, seq<Waiter>>
    var noKey: map<Key, nat>
    var total: int
    var byType: map<Type, int>
    var nextNode: nat

    constructor ()
      ensures Value() == INIT
    {
      clients, waiting, noKey := map[], map[], map[];
      total, byType, nextNode := 0, map[], 0;
    }

    function Value(): State
      reads this
    {
      State(clients, waiting, noKey, total, byType, nextNode)
    }

    /** blockClient. */
    method BlockClient(c: nat, t: Type)
      requires c in clients
      modifies this
      ensures Value() == Block(old(Value()), c, t)
    {
      clients := clients[c := clients[c].(blocked := true)];
      clients := clients[c := clients[c].(btype := t)];
      if !clients[c].isModule {
        total := total + 1;
      }
      byType := byType[t := TypeCount(Value(), t) + 1];
    }

    /** One key of blockForKeys. The client's own flag is only set after the loop. */
    method AddKey(c: nat, k: Key, onNoKey: bool)
      requires c in clients
      modifies this
      ensures Value() == Added(old(Value()), c, k, onNoKey)
    {
      if k in clients[c].keys {
        return;
      }
      var x, node := clients[c], nextNode;
      nextNode := node + 1;
      var list := if k in waiting then waiting[k] else [];
      waiting := waiting[k := list + [Waiter(node, c)]];
      clients := clients[c := x.(keys := x.keys[k := node])];
      if onNoKey {
        noKey := noKey[k := if k in noKey then noKey[k] + 1 else 1];
      }
    }

    /** blockForKeys. */
    method BlockOnKeys(c: nat, t: Type, ks: seq<Key>, onNoKey: bool)
      requires c in clients
      modifies this
      ensures Value() == BlockForKeys(old(Value()), c, t, ks, onNoKey)
    {
      hide AddWaiter, Added;
      ghost var start := SetOnNoKey(Value(), c, onNoKey);
      var j := 0;
      while j < |ks|
        invariant 0 <= j <= |ks| && c in clients
        invariant SetOnNoKey(Value(), c, onNoKey) == AddAll(start, c, ks[..j])
      {
        FlagAfter(Value(), c, ks[j], onNoKey);
        AddKey(c, ks[j], onNoKey);
        assert ks[..j + 1][..j] == ks[..j];
        j := j + 1;
      }
      assert ks[..|ks|] == ks;
      clients := clients[c := clients[c].(onNoKey := onNoKey)];
      assert Value() == AddAll(start, c, ks);
      BlockClient(c, t);
    }

    /** releaseBlockedEntry; what its assertions say is what callers have to establish. */
    method ReleaseBlockedEntry(c: nat, k: Key, removeKey: bool)
      requires c in clients && k in clients[c].keys && k in waiting
      requires clients[c].onNoKey && Unlinked(waiting[k], clients[c].keys[k]) != [] ==> k in noKey && noKey[k] > 0
      modifies this
      ensures Value() == Released(old(Value()), c, k, removeKey)
    {
      hide Unlinked;
      var pos := clients[c].keys[k];
      waiting := waiting[k := Unlinked(waiting[k], pos)];
      if waiting[k] == [] {
        waiting := waiting - {k};
        noKey := noKey - {k};
      } else if clients[c].onNoKey {
        noKey := noKey[k := noKey[k] - 1];
        if noKey[k] == 0 {
          noKey := noKey - {k};
        }
      }
      if removeKey {
        clients := clients[c := clients[c].(keys := clients[c].keys - {k})];
      }
    }

    /** unblockClientWaitingData: the table is walked in any order and emptied in one go. */
    method UnblockWaitingData(c: nat) returns (ghost order: seq<Key>)
      requires c in clients && IndexOk(Value())
      modifies this
      ensures Value() == RemoveAll(old(Value()), c, order)
      ensures Covers(order, old(clients[c].keys)) && c in clients && clients[c].keys == map[]
    {
      hide IndexOk, RemoveWaiter, Released;
      order := [];
      ghost var start, done := Value(), {};
      var keys, rest := clients[c].keys, clients[c].keys.Keys;
      HidingNothing(start, c);
      while rest != {}
        invariant c in clients && clients[c].keys == keys && rest <= keys.Keys
        invariant done == keys.Keys - rest && forall k :: k in done <==> k in order
        invariant Hiding(Value(), c, done) == RemoveAll(start, c, order)
        invariant IndexOk(Hiding(Value(), c, done))
        decreases rest
      {
        var k :| k in rest;
        ReleaseFacts(Value(), c, k, done);
        ReleaseBlockedEntry(c, k, false);
        assert (order + [k])[..|order|] == order;
        order, done, rest := order + [k], done + {k}, rest - {k};
      }
      clients := clients[c := clients[c].(keys := map[])];
      assert Value() == Hiding(Value(), c, done);
    }

    /** The end of unblockClient: flags and counters. */
    method ClearFlags(c: nat)
      requires c in clients && clients[c].keys == map[]
      modifies this
      ensures Value() == Release(old(Value()), c)
    {
      var x := clients[c];
      if !x.isModule {
        total := total - 1;
      }
      byType := byType[x.btype := TypeCount(Value(), x.btype) - 1];
      clients := clients[c := x.(blocked := false, btype := NoType, onNoKey := false)];
    }

    /** unblockClient, without its queues for other reasons to wait. */
    method Unblocking(c: nat) returns (ghost order: seq<Key>)
      requires c in clients && clients[c].blocked && ClientOk(clients[c]) && IndexOk(Value())
      modifies this
      ensures Value() == Unblock(old(Value()), c, order) && Covers(order, old(clients[c].keys))
    {
      hide IndexOk, Release;
      order := [];
      var t := clients[c].btype;
      if t == List || t == ListNonEmpty || t == Zset || t == Stream || (t == Module && clients[c].keys != map[]) {
        order := UnblockWaitingData(c);
      }
      assert Value() == if KeyType(t) then RemoveAll(old(Value()), c, order) else old(Value());
      hide RemoveAll;
      ClearFlags(c);
    }

    /** unblockClientOnKey up to the reprocessing of the command; the assertion on the type holds. */
    method UnblockingOnKey(c: nat, k: Key) returns (ghost order: seq<Key>)
      requires Inv(Value()) && c in clients && k in clients[c].keys && clients[c].btype != Module
      modifies this
      ensures Value() == UnblockOnKey(old(Value()), c, k, order) && Inv(Value())
    {
      ghost var s := Value();
      HidingNothing(s, c);
      ReleaseFacts(s, c, k, {});
      ReleaseRemoves(s, c, k);
      RemoveIndexOk(s, c, k);
      RemoveKeys(s, c, k);
      assert ClientOk(clients[c]);
      hide IndexOk, CountersOk, RemoveWaiter, Released, Unblock;
      ReleaseBlockedEntry(c, k, true);
      var t := clients[c].btype;
      assert t == Stream || t == List || t == ListNonEmpty || t == Zset;
      order := Unblocking(c);
      UnblockOnKeyInv(s, c, k, order);
    }

    /** listRotateHeadToTail on the waiters of a key. */
    method RotateHeadToTail(k: Key)
      requires k in waiting && |waiting[k]| > 0
      modifies this`waiting
      ensures Value() == Rotate(old(Value()), k)
    {
      if |waiting[k]| > 1 {
        waiting := waiting[k := waiting[k][1..] + [waiting[k][0]]];
      }
    }
  }
}
