/** Blocking and unblocking clients: every reachable state of the index and its counters. */
module BlockedClients {
  import opened Blocked

  /** The types that wait for keys. */
  predicate KeyType(t: Type) {
    t.List? || t.ListNonEmpty? || t.Zset? || t.Stream? || t.Module?
  }

  // ---------------------------------------------------------------- operations

  function SetOnNoKey(s: State, c: nat, v: bool): State {
    s.(clients := s.clients[c := Of(s, c).(onNoKey := v)])
  }

  function AddAll(s: State, c: nat, ks: seq<Key>): State {
    if ks == [] then s else AddWaiter(AddAll(s, c, ks[..|ks| - 1]), c, ks[|ks| - 1])
  }

  /** blockClient. */
  function Block(s: State, c: nat, t: Type): State {
    var x := Of(s, c);
    s.(clients := s.clients[c := x.(blocked := true, btype := t)],
       total := if x.isModule then s.total else s.total + 1,
       byType := s.byType[t := TypeCount(s, t) + 1])
  }

  /** blockForKeys. */
  function BlockForKeys(s: State, c: nat, t: Type, ks: seq<Key>, onNoKey: bool): State {
    Block(AddAll(SetOnNoKey(s, c, onNoKey), c, ks), c, t)
  }

  /** The loop of unblockClientWaitingData, in the order its dictionary is walked. */
  function RemoveAll(s: State, c: nat, ks: seq<Key>): State {
    if ks == [] then s else RemoveWaiter(RemoveAll(s, c, ks[..|ks| - 1]), c, ks[|ks| - 1])
  }

  /** The end of unblockClient. */
  function Release(s: State, c: nat): State {
    var x := Of(s, c);
    s.(clients := s.clients[c := Client(false, NoType, x.isModule, false, map[])],
       total := if x.isModule then s.total else s.total - 1,
       byType := s.byType[x.btype := TypeCount(s, x.btype) - 1])
  }

  /** unblockClient. */
  function Unblock(s: State, c: nat, order: seq<Key>): State {
    Release(if KeyType(Of(s, c).btype) then RemoveAll(s, c, order) else s, c)
  }

  /** unblockClientOnKey, up to the reprocessing of the command. */
  function UnblockOnKey(s: State, c: nat, k: Key, order: seq<Key>): State {
    Unblock(RemoveWaiter(s, c, k), c, order)
  }

  function RotateList(w: seq<Waiter>): seq<Waiter> {
    if |w| <= 1 then w else w[1..] + [w[0]]
  }

  /** listRotateHeadToTail on the waiters of a key. */
  function Rotate(s: State, k: Key): State {
    if k in s.waiting then s.(waiting := s.waiting[k := RotateList(s.waiting[k])]) else s
  }

  datatype Event =
    | Create(c: nat, isModule: bool)
    | Free(c: nat)
    | BlockOnKeys(c: nat, t: Type, ks: seq<Key>, onNoKey: bool)
    | BlockOther(c: nat, t: Type)
    | UnblockClient(c: nat, order: seq<Key>)
    | UnblockClientOnKey(c: nat, k: Key, order: seq<Key>)
    | RotateWaiters(k: Key)

  predicate Covers(order: seq<Key>, keys: map<Key, nat>) {
    forall k :: k in keys ==> k in order
  }

  /** A blocked client runs no command, so only a client that is not blocked can block. */
  function Step(s: State, e: Event): State {
    match e
    case Create(c, isModule) =>
      if c in s.clients then s else s.(clients := s.clients[c := IDLE.(isModule := isModule)])
    case Free(c) => if c in s.clients && !s.clients[c].blocked then s.(clients := s.clients - {c}) else s
    case BlockOnKeys(c, t, ks, onNoKey) =>
      if c in s.clients && !s.clients[c].blocked && KeyType(t) then BlockForKeys(s, c, t, ks, onNoKey) else s
    case BlockOther(c, t) =>
      if c in s.clients && !s.clients[c].blocked && !KeyType(t) && t != NoType then Block(s, c, t) else s
    case UnblockClient(c, order) =>
      if c in s.clients && s.clients[c].blocked && Covers(order, s.clients[c].keys) then Unblock(s, c, order) else s
    case UnblockClientOnKey(c, k, order) =>
      if c in s.clients && k in s.clients[c].keys && Covers(order, s.clients[c].keys - {k})
      then UnblockOnKey(s, c, k, order) else s
    case RotateWaiters(k) => Rotate(s, k)
  }

  function Run(s: State, es: seq<Event>): State
    decreases |es|
  {
    if es == [] then s else Run(Step(s, es[0]), es[1..])
  }

  const INIT: State := State(map[], map[], map[], 0, map[], 0)

  // ---------------------------------------------------------------- invariant

  predicate ClientOk(x: Client) {
    && (!x.blocked ==> x.keys == map[] && x.btype == NoType && !x.onNoKey)
    && (x.blocked ==> x.btype != NoType && (x.keys != map[] ==> KeyType(x.btype)))
  }

  /** The blocked clients that are counted, and those of one type. */
  function Counted(s: State): set<nat> {
    set c | c in s.clients && s.clients[c].blocked && !s.clients[c].isModule
  }

  function OfType(s: State, t: Type): set<nat> {
    set c | c in s.clients && s.clients[c].blocked && s.clients[c].btype == t
  }

  ghost predicate CountersOk(s: State) {
    s.total == |Counted(s)| && forall t: Type :: TypeCount(s, t) == |OfType(s, t)|
  }

  ghost predicate Inv(s: State) {
    IndexOk(s) && (forall c :: c in s.clients ==> ClientOk(s.clients[c])) && CountersOk(s)
  }

  lemma InitInv()
    ensures Inv(INIT)
  {
  }

  // ---------------------------------------------------------------- the index through the operations

  lemma {:induction false} AddAllIndexOk(s: State, c: nat, ks: seq<Key>)
    requires IndexOk(s)
    ensures IndexOk(AddAll(s, c, ks))
    decreases |ks|
  {
    hide IndexOk, AddWaiter;
    if ks != [] {
      AddAllIndexOk(s, c, ks[..|ks| - 1]);
      AddIndexOk(AddAll(s, c, ks[..|ks| - 1]), c, ks[|ks| - 1]);
    }
  }

  lemma {:induction false} RemoveAllIndexOk(s: State, c: nat, ks: seq<Key>)
    requires IndexOk(s)
    ensures IndexOk(RemoveAll(s, c, ks))
    decreases |ks|
  {
    hide IndexOk, RemoveWaiter;
    if ks != [] {
      RemoveAllIndexOk(s, c, ks[..|ks| - 1]);
      RemoveIndexOk(RemoveAll(s, c, ks[..|ks| - 1]), c, ks[|ks| - 1]);
    }
  }

  /** Whatever else changes, the index only depends on the tables, the lists and the onNoKey flags
      of waiting clients. */
  lemma SameIndex(s: State, t: State)
    requires IndexOk(s) && t.waiting == s.waiting && t.noKey == s.noKey && t.nextNode == s.nextNode
    requires forall d: nat :: Of(t, d).keys == Of(s, d).keys
    requires forall d: nat :: Of(s, d).keys != map[] ==> Of(t, d).onNoKey == Of(s, d).onNoKey
    requires forall d: nat :: d in s.clients && s.clients[d].keys != map[] ==> d in t.clients
    ensures IndexOk(t)
  {
    forall k: Key
      ensures ListOk(t, k) && CountOk(t, k)
    {
      SameKey(s, t, k);
    }
    forall d: nat, k: Key
      ensures Listed(t, d, k)
    {
      assert Listed(s, d, k);
    }
  }

  lemma SameKey(s: State, t: State, k: Key)
    requires IndexOk(s) && t.waiting == s.waiting && t.noKey == s.noKey && t.nextNode == s.nextNode
    requires forall d: nat :: Of(t, d).keys == Of(s, d).keys
    requires forall d: nat :: Of(s, d).keys != map[] ==> Of(t, d).onNoKey == Of(s, d).onNoKey
    requires forall d: nat :: d in s.clients && s.clients[d].keys != map[] ==> d in t.clients
    ensures ListOk(t, k) && CountOk(t, k)
  {
    assert ListOk(s, k) && CountOk(s, k);
    var w := Waiters(s, k);
    forall i | 0 <= i < |w|
      ensures WaiterOk(t, k, w[i]) && Of(s, w[i].client).keys != map[]
    {
      assert WaiterOk(s, k, w[i]);
      assert Of(s, w[i].client).keys == Of(t, w[i].client).keys;
    }
    NoKeyWaitersSame(s, t, w);
  }

  lemma RotateIndexOk(s: State, k: Key)
    requires IndexOk(s)
    ensures IndexOk(Rotate(s, k))
  {
    var t := Rotate(s, k);
    forall k': Key
      ensures ListOk(t, k') && CountOk(t, k')
    {
      RotateKey(s, k, k');
    }
    forall d: nat, k': Key
      ensures Listed(t, d, k')
    {
      assert Listed(s, d, k');
      RotateMembers(Waiters(s, k'));
    }
  }

  lemma RotateMembers(w: seq<Waiter>)
    ensures forall x :: x in RotateList(w) <==> x in w
  {
    if |w| > 1 {
      assert w == [w[0]] + w[1..];
    }
  }

  lemma RotateIndex(w: seq<Waiter>, i: nat)
    requires i < |w|
    ensures |RotateList(w)| == |w| && RotateList(w)[i] == w[if i + 1 < |w| then i + 1 else 0]
  {
  }

  lemma RotateCount(s: State, w: seq<Waiter>)
    ensures NoKeyWaiters(s, RotateList(w)) == NoKeyWaiters(s, w)
  {
    if |w| > 1 {
      NoKeyWaitersSplit(s, w[1..], [w[0]]);
      NoKeyWaitersSplit(s, [w[0]], w[1..]);
      assert [w[0]] + w[1..] == w;
    }
  }

  lemma RotateListOk(s: State, k: Key)
    requires ListOk(s, k) && k in s.waiting
    ensures ListOk(Rotate(s, k), k)
  {
    var t, w := Rotate(s, k), Waiters(s, k);
    var r := RotateList(w);
    assert Waiters(t, k) == r && t.clients == s.clients;
    forall i: nat | i < |w|
      ensures r[i] == w[if i + 1 < |w| then i + 1 else 0] && WaiterOk(t, k, r[i])
    {
      RotateIndex(w, i);
      assert WaiterOk(s, k, w[if i + 1 < |w| then i + 1 else 0]);
    }
    hide RotateList, Rotate;
  }

  lemma RotateKey(s: State, k: Key, k': Key)
    requires IndexOk(s)
    ensures ListOk(Rotate(s, k), k') && CountOk(Rotate(s, k), k')
  {
    var t := Rotate(s, k);
    assert ListOk(s, k') && CountOk(s, k');
    if k' == k && k in s.waiting {
      RotateListOk(s, k);
      RotateCount(s, Waiters(s, k));
      NoKeyWaitersSame(s, t, Waiters(t, k));
    } else {
      assert Waiters(t, k') == Waiters(s, k');
      hide RotateList;
      forall i | 0 <= i < |Waiters(s, k')|
        ensures WaiterOk(t, k', Waiters(s, k')[i])
      {
        assert WaiterOk(s, k', Waiters(s, k')[i]);
      }
      NoKeyWaitersSame(s, t, Waiters(s, k'));
    }
  }

  // ---------------------------------------------------------------- flags and counters

  /** Nothing but tables, lists and onNoKey differs. */
  ghost predicate SameFlags(s: State, t: State) {
    && t.clients.Keys == s.clients.Keys && t.total == s.total && t.byType == s.byType
    && forall d :: d in s.clients ==>
         && t.clients[d].blocked == s.clients[d].blocked && t.clients[d].btype == s.clients[d].btype
         && t.clients[d].isModule == s.clients[d].isModule
  }

  lemma SameCounters(s: State, t: State)
    requires SameFlags(s, t) && CountersOk(s)
    ensures CountersOk(t)
  {
    assert Counted(t) == Counted(s);
    forall ty: Type
      ensures TypeCount(t, ty) == |OfType(t, ty)|
    {
      assert OfType(t, ty) == OfType(s, ty);
    }
  }

  /** The other clients keep everything, the client itself its flags. */
  ghost predicate OnlyKeysOf(s: State, t: State, c: nat) {
    && SameFlags(s, t) && c in s.clients && t.clients[c].onNoKey == s.clients[c].onNoKey
    && forall d :: d in s.clients && d != c ==> t.clients[d] == s.clients[d]
  }

  lemma {:induction false} AddAllFlags(s: State, c: nat, ks: seq<Key>)
    requires c in s.clients
    ensures OnlyKeysOf(s, AddAll(s, c, ks), c)
    decreases |ks|
  {
    if ks != [] { AddAllFlags(s, c, ks[..|ks| - 1]); }
  }

  lemma {:induction false} RemoveAllFlags(s: State, c: nat, ks: seq<Key>)
    requires c in s.clients
    ensures OnlyKeysOf(s, RemoveAll(s, c, ks), c)
    ensures forall k :: k in RemoveAll(s, c, ks).clients[c].keys <==> k in s.clients[c].keys && k !in ks
    decreases |ks|
  {
    hide Unlinked;
    if ks != [] {
      var m := RemoveAll(s, c, ks[..|ks| - 1]);
      RemoveAllFlags(s, c, ks[..|ks| - 1]);
      var k := ks[|ks| - 1];
      assert ks == ks[..|ks| - 1] + [k];
      RemoveKeys(m, c, k);
    }
  }

  lemma RemoveKeys(s: State, c: nat, k: Key)
    requires c in s.clients
    ensures OnlyKeysOf(s, RemoveWaiter(s, c, k), c)
    ensures RemoveWaiter(s, c, k).clients[c].keys == s.clients[c].keys - {k}
  {
    hide Unlinked;
  }

  lemma BlockSets(s: State, c: nat, t: Type, ty: Type)
    requires c in s.clients && !s.clients[c].blocked
    ensures var r := Block(s, c, t);
            && Counted(r) == (if s.clients[c].isModule then Counted(s) else Counted(s) + {c})
            && OfType(r, ty) == (if ty == t then OfType(s, ty) + {c} else OfType(s, ty))
            && c !in Counted(s) && c !in OfType(s, ty)
  {
  }

  lemma BlockNumbers(s: State, c: nat, t: Type, ty: Type)
    requires c in s.clients
    ensures var r := Block(s, c, t);
            && r.total == s.total + (if s.clients[c].isModule then 0 else 1)
            && TypeCount(r, ty) == TypeCount(s, ty) + if ty == t then 1 else 0
  {
  }

  /** One client more among the blocked ones. */
  lemma BlockCounters(s: State, c: nat, t: Type)
    requires CountersOk(s) && c in s.clients && !s.clients[c].blocked
    ensures CountersOk(Block(s, c, t))
  {
    hide Counted, OfType, Block, TypeCount;
    BlockSets(s, c, t, t);
    BlockNumbers(s, c, t, t);
    forall ty: Type
      ensures TypeCount(Block(s, c, t), ty) == |OfType(Block(s, c, t), ty)|
    {
      BlockSets(s, c, t, ty);
      BlockNumbers(s, c, t, ty);
    }
  }

  lemma ReleaseSets(s: State, c: nat, ty: Type)
    requires c in s.clients && s.clients[c].blocked
    ensures var r, t := Release(s, c), s.clients[c].btype;
            && Counted(r) == (if s.clients[c].isModule then Counted(s) else Counted(s) - {c})
            && OfType(r, ty) == (if ty == t then OfType(s, ty) - {c} else OfType(s, ty))
            && (!s.clients[c].isModule ==> c in Counted(s)) && c in OfType(s, t)
  {
  }

  lemma ReleaseNumbers(s: State, c: nat, ty: Type)
    requires c in s.clients
    ensures var r := Release(s, c);
            && r.total == s.total - (if s.clients[c].isModule then 0 else 1)
            && TypeCount(r, ty) == TypeCount(s, ty) - if ty == s.clients[c].btype then 1 else 0
  {
  }

  /** One client fewer. */
  lemma ReleaseCounters(s: State, c: nat)
    requires CountersOk(s) && c in s.clients && s.clients[c].blocked
    ensures CountersOk(Release(s, c))
  {
    hide Counted, OfType, Release, TypeCount;
    ReleaseSets(s, c, NoType);
    ReleaseNumbers(s, c, NoType);
    forall ty: Type
      ensures TypeCount(Release(s, c), ty) == |OfType(Release(s, c), ty)|
    {
      ReleaseSets(s, c, ty);
      ReleaseNumbers(s, c, ty);
    }
  }

  // ---------------------------------------------------------------- every step keeps the invariant

  lemma BlockIndexOk(s: State, c: nat, t: Type)
    requires IndexOk(s) && c in s.clients
    ensures IndexOk(Block(s, c, t))
  {
    SameIndex(s, Block(s, c, t));
  }

  lemma OnNoKeyIndexOk(s: State, c: nat, v: bool)
    requires IndexOk(s) && c in s.clients && s.clients[c].keys == map[]
    ensures IndexOk(SetOnNoKey(s, c, v))
  {
    SameIndex(s, SetOnNoKey(s, c, v));
  }

  lemma ReleaseIndexOk(s: State, c: nat)
    requires IndexOk(s) && c in s.clients && s.clients[c].keys == map[]
    ensures IndexOk(Release(s, c))
  {
    SameIndex(s, Release(s, c));
  }

  /** The state before the client is marked as blocked. */
  lemma AddedKeys(s: State, c: nat, ks: seq<Key>, onNoKey: bool)
    requires IndexOk(s) && CountersOk(s) && c in s.clients && s.clients[c].keys == map[]
    ensures var t := AddAll(SetOnNoKey(s, c, onNoKey), c, ks);
            && IndexOk(t) && CountersOk(t) && SameFlags(s, t)
            && forall d :: d in s.clients && d != c ==> t.clients[d] == s.clients[d]
  {
    hide IndexOk, CountersOk, AddAll;
    var s1 := SetOnNoKey(s, c, onNoKey);
    OnNoKeyIndexOk(s, c, onNoKey);
    AddAllIndexOk(s1, c, ks);
    AddAllFlags(s1, c, ks);
    assert SameFlags(s, s1);
    hide SetOnNoKey;
    assert SameFlags(s, AddAll(s1, c, ks));
    SameCounters(s, AddAll(s1, c, ks));
  }

  lemma BlockForKeysInv(s: State, c: nat, t: Type, ks: seq<Key>, onNoKey: bool)
    requires Inv(s) && c in s.clients && !s.clients[c].blocked && KeyType(t)
    ensures Inv(BlockForKeys(s, c, t, ks, onNoKey))
  {
    hide IndexOk, CountersOk, AddAll, SetOnNoKey;
    assert ClientOk(s.clients[c]);
    AddedKeys(s, c, ks, onNoKey);
    var m := AddAll(SetOnNoKey(s, c, onNoKey), c, ks);
    BlockIndexOk(m, c, t);
    BlockCounters(m, c, t);
  }

  lemma UnblockInv(s: State, c: nat, order: seq<Key>)
    requires IndexOk(s) && CountersOk(s) && c in s.clients && s.clients[c].blocked
    requires forall d :: d in s.clients && d != c ==> ClientOk(s.clients[d])
    requires Covers(order, s.clients[c].keys) && (s.clients[c].keys != map[] ==> KeyType(s.clients[c].btype))
    ensures Inv(Unblock(s, c, order))
  {
    hide IndexOk, CountersOk;
    var m := if KeyType(Of(s, c).btype) then RemoveAll(s, c, order) else s;
    RemoveAllIndexOk(s, c, order);
    RemoveAllFlags(s, c, order);
    if KeyType(Of(s, c).btype) {
      SameCounters(s, m);
      assert m.clients[c].keys == map[];
    }
    ReleaseIndexOk(m, c);
    ReleaseCounters(m, c);
    hide RemoveAll;
  }

  lemma UnblockOnKeyInv(s: State, c: nat, k: Key, order: seq<Key>)
    requires Inv(s) && c in s.clients && k in s.clients[c].keys && Covers(order, s.clients[c].keys - {k})
    ensures Inv(UnblockOnKey(s, c, k, order))
  {
    hide IndexOk, CountersOk;
    assert ClientOk(s.clients[c]);
    var m := RemoveWaiter(s, c, k);
    RemoveIndexOk(s, c, k);
    RemoveKeys(s, c, k);
    SameCounters(s, m);
    hide RemoveWaiter;
    UnblockInv(m, c, order);
  }

  /** Adding or removing a client that is not blocked. */
  lemma IdleCounters(s: State, t: State)
    requires CountersOk(s) && t.total == s.total && t.byType == s.byType
    requires forall d: nat :: Of(t, d).blocked == Of(s, d).blocked
    requires forall d: nat :: Of(s, d).blocked ==> Of(t, d) == Of(s, d)
    ensures CountersOk(t)
  {
    assert Counted(t) == Counted(s) by {
      assert forall d: nat :: d in Counted(s) <==> Of(s, d).blocked && !Of(s, d).isModule;
      assert forall d: nat :: d in Counted(t) <==> Of(t, d).blocked && !Of(t, d).isModule;
    }
    forall ty: Type
      ensures TypeCount(t, ty) == |OfType(t, ty)|
    {
      assert forall d: nat :: d in OfType(s, ty) <==> Of(s, d).blocked && Of(s, d).btype == ty;
      assert forall d: nat :: d in OfType(t, ty) <==> Of(t, d).blocked && Of(t, d).btype == ty;
      assert OfType(t, ty) == OfType(s, ty);
    }
  }

  lemma CreateInv(s: State, c: nat, isModule: bool)
    requires Inv(s) && c !in s.clients
    ensures Inv(s.(clients := s.clients[c := IDLE.(isModule := isModule)]))
  {
    hide IndexOk, CountersOk;
    var t := s.(clients := s.clients[c := IDLE.(isModule := isModule)]);
    SameIndex(s, t);
    IdleCounters(s, t);
  }

  lemma FreeInv(s: State, c: nat)
    requires Inv(s) && c in s.clients && !s.clients[c].blocked
    ensures Inv(s.(clients := s.clients - {c}))
  {
    hide IndexOk, CountersOk;
    assert ClientOk(s.clients[c]);
    var t := s.(clients := s.clients - {c});
    SameIndex(s, t);
    IdleCounters(s, t);
  }

  lemma RotateInv(s: State, k: Key)
    requires Inv(s)
    ensures Inv(Rotate(s, k))
  {
    RotateIndexOk(s, k);
    hide IndexOk, CountersOk;
    SameCounters(s, Rotate(s, k));
  }

  lemma BlockOtherInv(s: State, c: nat, t: Type)
    requires Inv(s) && c in s.clients && !s.clients[c].blocked && !KeyType(t) && t != NoType
    ensures Inv(Block(s, c, t))
  {
    hide IndexOk, CountersOk;
    assert ClientOk(s.clients[c]);
    BlockIndexOk(s, c, t);
    BlockCounters(s, c, t);
  }

  lemma StepInv(s: State, e: Event)
    requires Inv(s)
    ensures Inv(Step(s, e))
  {
    hide IndexOk, CountersOk, BlockForKeys, Block, Unblock, UnblockOnKey, Rotate;
    match e {
      case Create(c, isModule) => if c !in s.clients { CreateInv(s, c, isModule); }
      case Free(c) => if c in s.clients && !s.clients[c].blocked { FreeInv(s, c); }
      case BlockOnKeys(c, t, ks, onNoKey) =>
        if c in s.clients && !s.clients[c].blocked && KeyType(t) { BlockForKeysInv(s, c, t, ks, onNoKey); }
      case BlockOther(c, t) =>
        if c in s.clients && !s.clients[c].blocked && !KeyType(t) && t != NoType { BlockOtherInv(s, c, t); }
      case UnblockClient(c, order) =>
        if c in s.clients && s.clients[c].blocked && Covers(order, s.clients[c].keys) {
          assert ClientOk(s.clients[c]);
          UnblockInv(s, c, order);
        }
      case UnblockClientOnKey(c, k, order) =>
        if c in s.clients && k in s.clients[c].keys && Covers(order, s.clients[c].keys - {k}) {
          UnblockOnKeyInv(s, c, k, order);
        }
      case RotateWaiters(k) => RotateInv(s, k);
    }
  }

  lemma {:induction false} RunInv(s: State, es: seq<Event>)
    requires Inv(s)
    ensures Inv(Run(s, es))
    decreases |es|
  {
    hide Inv, Step;
    if es != [] {
      StepInv(s, es[0]);
      RunInv(Step(s, es[0]), es[1..]);
    }
  }

  // ---------------------------------------------------------------- every reachable state

  /** The places where a client stands in a waiter list. */
  function Places(w: seq<Waiter>, c: nat): set<nat> {
    set i: nat | i < |w| && w[i].client == c
  }

  /** The waiters of a key that want to be woken when the key disappears. */
  function NoKeyPlaces(s: State, w: seq<Waiter>): set<nat> {
    set i: nat | i < |w| && Of(s, w[i].client).onNoKey
  }

  lemma {:induction false} CountIsPlaces(s: State, w: seq<Waiter>)
    ensures NoKeyWaiters(s, w) == |NoKeyPlaces(s, w)|
    decreases |w|
  {
    if w == [] {
      assert NoKeyPlaces(s, w) == {};
    } else {
      var n := |w| - 1;
      CountIsPlaces(s, w[..n]);
      var before := NoKeyPlaces(s, w[..n]);
      assert NoKeyPlaces(s, w) == if Of(s, w[n].client).onNoKey then before + {n} else before;
    }
  }

  /** A key is in a client's table exactly when the client stands once in the key's list, at the node
      the table remembers. */
  lemma ReachableTwoWay(es: seq<Event>, c: nat, k: Key)
    ensures var s := Run(INIT, es);
            var w := Waiters(s, k);
            && (k in Of(s, c).keys <==> |Places(w, c)| == 1) && |Places(w, c)| <= 1
            && (forall i :: i in Places(w, c) ==> k in Of(s, c).keys && w[i].node == Of(s, c).keys[k])
  {
    hide Run, Inv;
    var s := Run(INIT, es);
    InitInv();
    RunInv(INIT, es);
    TwoWay(s, c, k);
  }

  lemma TwoWay(s: State, c: nat, k: Key)
    requires Inv(s)
    ensures var w := Waiters(s, k);
            && (k in Of(s, c).keys <==> |Places(w, c)| == 1) && |Places(w, c)| <= 1
            && (forall i :: i in Places(w, c) ==> k in Of(s, c).keys && w[i].node == Of(s, c).keys[k])
  {
    hide CountersOk, CountOk, ClientOk;
    var w := Waiters(s, k);
    assert ListOk(s, k) && Listed(s, c, k);
    if k in Of(s, c).keys {
      var i :| 0 <= i < |w| && w[i] == Waiter(Of(s, c).keys[k], c);
      assert Places(w, c) == {i};
    } else {
      forall i: nat | i < |w|
        ensures w[i].client != c
      {
        assert WaiterOk(s, k, w[i]);
      }
      assert Places(w, c) == {};
    }
  }

  /** Lists are never empty, and the count of a key is the number of its waiters that asked for it. */
  lemma ReachableLists(es: seq<Event>, k: Key)
    ensures var s := Run(INIT, es);
            && (k in s.waiting ==> s.waiting[k] != [])
            && NoKeys(s, k) == |NoKeyPlaces(s, Waiters(s, k))|
            && (k in s.noKey ==> s.noKey[k] > 0 && k in s.waiting)
  {
    InitInv();
    RunInv(INIT, es);
    hide Run, CountersOk;
    var s := Run(INIT, es);
    assert ListOk(s, k) && CountOk(s, k);
    CountIsPlaces(s, Waiters(s, k));
  }

  /** The counters are the true counts. */
  lemma ReachableCounters(es: seq<Event>, t: Type)
    ensures var s := Run(INIT, es);
            s.total == |Counted(s)| && TypeCount(s, t) == |OfType(s, t)|
  {
    InitInv();
    RunInv(INIT, es);
    hide Run, IndexOk;
  }
}
