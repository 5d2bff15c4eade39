/** Clients blocked on keys: the index from clients to keys and from keys to clients. */
module Blocked {

  datatype Key = Key(db: nat, name: string)

  datatype Type =
    | NoType | List | ListNonEmpty | Zset | Stream | Wait | WaitAof | Module | Postpone | PostponeTrim
    | Shutdown | LazyFree

  /** A node of a waiter list, as a client's table remembers it. */
  datatype Waiter = Waiter(node: nat, client: nat)

  /** The blocking state of a client; `keys` maps each key to the node in that key's list. */
  datatype Client = Client(blocked: bool, btype: Type, isModule: bool, onNoKey: bool, keys: map<Key, nat>)

  const IDLE: Client := Client(false, NoType, false, false, map[])

  datatype State = State(
    clients: map<nat, Client>,
    waiting: map<Key, seq<Waiter>>,   // blocking_keys
    noKey: map<Key, nat>,             // blocking_keys_unblock_on_nokey
    total: int,                       // blocked_clients
    byType: map<Type, int>,           // blocked_clients_by_type
    nextNode: nat)                    // nodes allocated so far

  function Waiters(s: State, k: Key): seq<Waiter> {
    if k in s.waiting then s.waiting[k] else []
  }

  function NoKeys(s: State, k: Key): nat {
    if k in s.noKey then s.noKey[k] else 0
  }

  function Of(s: State, c: nat): Client {
    if c in s.clients then s.clients[c] else IDLE
  }

  function TypeCount(s: State, t: Type): int {
    if t in s.byType then s.byType[t] else 0
  }

  /** A map without the entries that became empty. */
  function SetList(m: map<Key, seq<Waiter>>, k: Key, w: seq<Waiter>): map<Key, seq<Waiter>> {
    if w == [] then m - {k} else m[k := w]
  }

  function SetCount(m: map<Key, nat>, k: Key, n: nat): map<Key, nat> {
    if n == 0 then m - {k} else m[k := n]
  }

  /** listUnlinkNode on a list that holds the node once. */
  function Unlinked(w: seq<Waiter>, node: nat): seq<Waiter> {
    if w == [] then [] else if w[0].node == node then w[1..] else [w[0]] + Unlinked(w[1..], node)
  }

  // ---------------------------------------------------------------- steps

  /** One turn of the loop of blockForKeys, for a client whose onNoKey is already set. */
  function AddWaiter(s: State, c: nat, k: Key): State {
    var x := Of(s, c);
    if k in x.keys then s else
    s.(clients := s.clients[c := x.(keys := x.keys[k := s.nextNode])],
       waiting := s.waiting[k := Waiters(s, k) + [Waiter(s.nextNode, c)]],
       noKey := if x.onNoKey then s.noKey[k := NoKeys(s, k) + 1] else s.noKey,
       nextNode := s.nextNode + 1)
  }

  /** releaseBlockedEntry. */
  function RemoveWaiter(s: State, c: nat, k: Key): State {
    var x := Of(s, c);
    if k !in x.keys then s else
    var w := Unlinked(Waiters(s, k), x.keys[k]);
    s.(clients := s.clients[c := x.(keys := x.keys - {k})],
       waiting := SetList(s.waiting, k, w),
       noKey := if w == [] then s.noKey - {k}
                else if x.onNoKey && NoKeys(s, k) > 0 then SetCount(s.noKey, k, NoKeys(s, k) - 1)
                else s.noKey)
  }

  // ---------------------------------------------------------------- the index

  /** The number of waiters that want to be woken when the key disappears. */
  function NoKeyWaiters(s: State, w: seq<Waiter>): nat {
    if w == [] then 0 else NoKeyWaiters(s, w[..|w| - 1]) + (if Of(s, w[|w| - 1].client).onNoKey then 1 else 0)
  }

  /** A waiter's client has the key in its table, at this very node. */
  predicate WaiterOk(s: State, k: Key, w: Waiter) {
    && w.client in s.clients && k in s.clients[w.client].keys
    && s.clients[w.client].keys[k] == w.node && w.node < s.nextNode
  }

  ghost predicate ListOk(s: State, k: Key) {
    var w := Waiters(s, k);
    && (k in s.waiting ==> w != [])
    && (forall i :: 0 <= i < |w| ==> WaiterOk(s, k, w[i]))
    && (forall i, j :: 0 <= i < j < |w| ==> w[i].client != w[j].client && w[i].node != w[j].node)
  }

  predicate Listed(s: State, c: nat, k: Key) {
    k in Of(s, c).keys ==> Waiter(Of(s, c).keys[k], c) in Waiters(s, k)
  }

  predicate CountOk(s: State, k: Key) {
    NoKeys(s, k) == NoKeyWaiters(s, Waiters(s, k)) && (k in s.noKey ==> s.noKey[k] > 0)
  }

  /** Client tables and waiter lists say the same. */
  ghost predicate IndexOk(s: State) {
    && (forall k: Key :: ListOk(s, k))
    && (forall c: nat, k: Key :: Listed(s, c, k))
    && (forall k: Key :: CountOk(s, k))
  }

  // ---------------------------------------------------------------- adding

  lemma {:induction false} NoKeyWaitersSame(s: State, t: State, w: seq<Waiter>)
    requires forall i :: 0 <= i < |w| ==> Of(t, w[i].client).onNoKey == Of(s, w[i].client).onNoKey
    ensures NoKeyWaiters(t, w) == NoKeyWaiters(s, w)
    decreases |w|
  {
    if w != [] { NoKeyWaitersSame(s, t, w[..|w| - 1]); }
  }

  lemma AddOthers(s: State, c: nat, k: Key, k': Key)
    requires k' != k
    ensures var t := AddWaiter(s, c, k);
            && Waiters(t, k') == Waiters(s, k') && NoKeys(t, k') == NoKeys(s, k')
            && (k' in t.waiting <==> k' in s.waiting) && (k' in t.noKey <==> k' in s.noKey)
            && t.nextNode >= s.nextNode
            && (forall d: nat :: (k' in Of(t, d).keys <==> k' in Of(s, d).keys) && Of(t, d).onNoKey == Of(s, d).onNoKey)
            && (forall d: nat :: k' in Of(s, d).keys ==> Of(t, d).keys[k'] == Of(s, d).keys[k'])
            && (forall d: nat :: d in s.clients ==> d in t.clients)
  {
  }

  lemma AddList(s: State, c: nat, k: Key, k': Key)
    requires IndexOk(s)
    ensures ListOk(AddWaiter(s, c, k), k')
  {
    var t := AddWaiter(s, c, k);
    assert ListOk(s, k');
    if k' != k {
      AddOthers(s, c, k, k');
      var w := Waiters(s, k');
      forall i | 0 <= i < |w|
        ensures WaiterOk(t, k', w[i])
      {
        assert WaiterOk(s, k', w[i]) && Of(s, w[i].client) == s.clients[w[i].client];
      }
    } else if k !in Of(s, c).keys {
      var w := Waiters(s, k);
      forall i | 0 <= i < |w|
        ensures WaiterOk(t, k, w[i]) && w[i].client != c && w[i].node < s.nextNode
      {
        assert WaiterOk(s, k, w[i]);
      }
    }
  }

  lemma AddListed(s: State, c: nat, k: Key, d: nat, k': Key)
    requires Listed(s, d, k')
    ensures Listed(AddWaiter(s, c, k), d, k')
  {
  }

  lemma AddCount(s: State, c: nat, k: Key, k': Key)
    requires CountOk(s, k')
    ensures CountOk(AddWaiter(s, c, k), k')
  {
    var t := AddWaiter(s, c, k);
    assert forall d: nat :: Of(t, d).onNoKey == Of(s, d).onNoKey;
    NoKeyWaitersSame(s, t, Waiters(s, k'));
    if k' == k && k !in Of(s, c).keys {
      var w := Waiters(t, k);
      assert w[..|w| - 1] == Waiters(s, k);
    }
  }

  lemma AddIndexOk(s: State, c: nat, k: Key)
    requires IndexOk(s)
    ensures IndexOk(AddWaiter(s, c, k))
  {
    hide ListOk, Listed, CountOk, AddWaiter;
    forall k': Key
      ensures ListOk(AddWaiter(s, c, k), k') && CountOk(AddWaiter(s, c, k), k')
    {
      AddList(s, c, k, k');
      AddCount(s, c, k, k');
    }
    forall d: nat, k': Key
      ensures Listed(AddWaiter(s, c, k), d, k')
    {
      AddListed(s, c, k, d, k');
    }
  }

  // ---------------------------------------------------------------- removing

  ghost predicate NodesDistinct(w: seq<Waiter>) {
    forall i, j :: 0 <= i < j < |w| ==> w[i].client != w[j].client && w[i].node != w[j].node
  }

  lemma {:induction false} UnlinkedAt(w: seq<Waiter>, i: nat)
    requires i < |w| && forall j, k :: 0 <= j < k < |w| ==> w[j].node != w[k].node
    ensures Unlinked(w, w[i].node) == w[..i] + w[i + 1..]
    decreases |w|
  {
    if i > 0 {
      assert w[1..][i - 1] == w[i];
      UnlinkedAt(w[1..], i - 1);
      assert [w[0]] + (w[1..][..i - 1] + w[1..][i..]) == w[..i] + w[i + 1..];
    }
  }

  lemma {:induction false} NoKeyWaitersSplit(s: State, a: seq<Waiter>, b: seq<Waiter>)
    ensures NoKeyWaiters(s, a + b) == NoKeyWaiters(s, a) + NoKeyWaiters(s, b)
    decreases |b|
  {
    if b == [] {
      assert a + b == a;
    } else {
      assert (a + b)[..|a + b| - 1] == a + b[..|b| - 1];
      NoKeyWaitersSplit(s, a, b[..|b| - 1]);
    }
  }

  lemma NoKeyWaitersDrop(s: State, w: seq<Waiter>, i: nat)
    requires i < |w|
    ensures NoKeyWaiters(s, w[..i] + w[i + 1..]) + (if Of(s, w[i].client).onNoKey then 1 else 0) == NoKeyWaiters(s, w)
  {
    var a, x, b := w[..i], [w[i]], w[i + 1..];
    assert w == a + (x + b);
    NoKeyWaitersSplit(s, a, x + b);
    NoKeyWaitersSplit(s, x, b);
    NoKeyWaitersSplit(s, a, b);
    assert x[..0] == [];
    assert NoKeyWaiters(s, x) == if Of(s, w[i].client).onNoKey then 1 else 0;
  }

  /** Where a client stands in the list of one of its keys. */
  lemma Position(s: State, c: nat, k: Key) returns (i: nat)
    requires IndexOk(s) && k in Of(s, c).keys
    ensures i < |Waiters(s, k)| && Waiters(s, k)[i] == Waiter(Of(s, c).keys[k], c)
    ensures NodesDistinct(Waiters(s, k))
    ensures Unlinked(Waiters(s, k), Of(s, c).keys[k]) == Waiters(s, k)[..i] + Waiters(s, k)[i + 1..]
  {
    assert ListOk(s, k) && Listed(s, c, k);
    var w := Waiters(s, k);
    i :| 0 <= i < |w| && w[i] == Waiter(Of(s, c).keys[k], c);
    UnlinkedAt(w, i);
  }

  lemma RemoveOthers(s: State, c: nat, k: Key, k': Key)
    requires k' != k
    ensures var t := RemoveWaiter(s, c, k);
            && Waiters(t, k') == Waiters(s, k') && NoKeys(t, k') == NoKeys(s, k')
            && (k' in t.waiting <==> k' in s.waiting) && (k' in t.noKey <==> k' in s.noKey)
            && t.nextNode == s.nextNode
            && (forall d: nat :: (k' in Of(t, d).keys <==> k' in Of(s, d).keys) && Of(t, d).onNoKey == Of(s, d).onNoKey)
            && (forall d: nat :: k' in Of(s, d).keys ==> Of(t, d).keys[k'] == Of(s, d).keys[k'])
            && (forall d: nat :: d in s.clients ==> d in t.clients)
  {
    hide Unlinked;
  }

  lemma RemoveOtherList(s: State, c: nat, k: Key, k': Key)
    requires ListOk(s, k') && k' != k
    ensures ListOk(RemoveWaiter(s, c, k), k')
  {
    RemoveOthers(s, c, k, k');
    hide RemoveWaiter;
    var t, w := RemoveWaiter(s, c, k), Waiters(s, k');
    forall i | 0 <= i < |w|
      ensures WaiterOk(t, k', w[i])
    {
      assert WaiterOk(s, k', w[i]) && Of(s, w[i].client) == s.clients[w[i].client];
    }
  }

  lemma RemoveOwnList(s: State, c: nat, k: Key)
    requires IndexOk(s) && k in Of(s, c).keys
    ensures ListOk(RemoveWaiter(s, c, k), k)
  {
    assert ListOk(s, k);
    var i := Position(s, c, k);
    hide Unlinked, IndexOk;
    var t, w := RemoveWaiter(s, c, k), Waiters(s, k);
    var u := w[..i] + w[i + 1..];
    assert Waiters(t, k) == u;
    forall j | 0 <= j < |u|
      ensures WaiterOk(t, k, u[j])
    {
      assert u[j] == w[if j < i then j else j + 1];
      assert WaiterOk(s, k, u[j]) && u[j].client != c;
    }
  }

  lemma RemoveList(s: State, c: nat, k: Key, k': Key)
    requires IndexOk(s)
    ensures ListOk(RemoveWaiter(s, c, k), k')
  {
    hide ListOk;
    if k' != k {
      RemoveOtherList(s, c, k, k');
    } else if k in Of(s, c).keys {
      RemoveOwnList(s, c, k);
    }
  }

  lemma RemoveListed(s: State, c: nat, k: Key, d: nat, k': Key)
    requires IndexOk(s)
    ensures Listed(RemoveWaiter(s, c, k), d, k')
  {
    var t := RemoveWaiter(s, c, k);
    assert Listed(s, d, k');
    if k' != k {
      RemoveOthers(s, c, k, k');
      hide RemoveWaiter;
    } else if k in Of(s, c).keys && d != c && k in Of(s, d).keys {
      var i := Position(s, c, k);
      var j := Position(s, d, k);
      hide Unlinked, IndexOk;
      var w := Waiters(s, k);
      var u := w[..i] + w[i + 1..];
      assert Waiters(t, k) == u;
      assert u[if j < i then j else j - 1] == w[j];
    }
  }

  lemma RemoveCount(s: State, c: nat, k: Key, k': Key)
    requires IndexOk(s)
    ensures CountOk(RemoveWaiter(s, c, k), k')
  {
    var t := RemoveWaiter(s, c, k);
    assert CountOk(s, k');
    if k' != k {
      RemoveOthers(s, c, k, k');
      hide RemoveWaiter;
      NoKeyWaitersSame(s, t, Waiters(s, k'));
    } else if k in Of(s, c).keys {
      var i := Position(s, c, k);
      hide Unlinked, IndexOk;
      var w := Waiters(s, k);
      var u := w[..i] + w[i + 1..];
      NoKeyWaitersDrop(s, w, i);
      assert forall d: nat :: Of(t, d).onNoKey == Of(s, d).onNoKey;
      NoKeyWaitersSame(s, t, u);
    }
  }

  lemma RemoveIndexOk(s: State, c: nat, k: Key)
    requires IndexOk(s)
    ensures IndexOk(RemoveWaiter(s, c, k))
  {
    hide ListOk, Listed, CountOk, RemoveWaiter;
    forall k': Key
      ensures ListOk(RemoveWaiter(s, c, k), k') && CountOk(RemoveWaiter(s, c, k), k')
    {
      RemoveList(s, c, k, k');
      RemoveCount(s, c, k, k');
    }
    forall d: nat, k': Key
      ensures Listed(RemoveWaiter(s, c, k), d, k')
    {
      RemoveListed(s, c, k, d, k');
    }
  }
}
