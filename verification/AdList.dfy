/** The doubly linked list of adlist.c, refined to a sequence of its nodes. */
module AdList {

  class Node<T> {
    var prev: Node?<T>
    var next: Node?<T>
    const value: T

    constructor (v: T)
      ensures value == v && prev == null && next == null
    {
      value := v;
      prev, next := null, null;
    }
  }

  /** Position of a node. */
  ghost function IndexOf<T>(nodes: seq<Node<T>>, n: Node<T>): (i: nat)
    requires n in nodes
    ensures i < |nodes| && nodes[i] == n
  {
    if nodes[0] == n then 0 else 1 + IndexOf(nodes[1..], n)
  }

  ghost predicate Distinct<T>(s: seq<T>) {
    forall i, j :: 0 <= i < j < |s| ==> s[i] != s[j]
  }

  /** A sequence without the element at `i`. */
  function Without<T>(s: seq<T>, i: nat): seq<T>
    requires i < |s|
  {
    s[..i] + s[i + 1..]
  }

  lemma WithoutDistinct<T>(s: seq<T>, i: nat)
    requires i < |s| && Distinct(s)
    ensures Distinct(Without(s, i)) && s[i] !in Without(s, i)
  {
  }

  /** The first element moved to the end. */
  function Rotated<T>(s: seq<T>): seq<T> {
    if |s| <= 1 then s else s[1..] + [s[0]]
  }

  class List<T> {
    var head: Node?<T>
    var tail: Node?<T>
    var len: nat
    ghost var nodes: seq<Node<T>>

    ghost predicate Linked(i: nat)
      requires i < |nodes|
      reads this, nodes
    {
      && nodes[i].prev == (if i == 0 then null else nodes[i - 1])
      && nodes[i].next == (if i + 1 == |nodes| then null else nodes[i + 1])
    }

    ghost predicate Valid()
      reads this, nodes
    {
      && len == |nodes| && Distinct(nodes)
      && head == (if nodes == [] then null else nodes[0])
      && tail == (if nodes == [] then null else nodes[|nodes| - 1])
      && (forall i: nat :: i < |nodes| ==> Linked(i))
    }

    /** listCreate. */
    constructor ()
      ensures Valid() && nodes == []
    {
      head, tail, len, nodes := null, null, 0, [];
    }

    /** listLinkNodeTail. */
    method LinkNodeTail(node: Node<T>)
      requires Valid() && node !in nodes
      modifies this, node, nodes
      ensures Valid() && nodes == old(nodes) + [node]
    {
      assert len > 0 ==> Linked(|nodes| - 1);
      ghost var before := nodes;
      if len == 0 {
        head, tail := node, node;
        node.prev, node.next := null, null;
      } else {
        node.prev := tail;
        node.next := null;
        tail.next := node;
        tail := node;
      }
      len := len + 1;
      nodes := nodes + [node];
      forall i: nat | i < |nodes|
        ensures Linked(i)
      {
        if i < |before| { assert nodes[i] == before[i] && old(Linked(i)); }
      }
    }

    /** listAddNodeTail. */
    method AddNodeTail(value: T) returns (node: Node<T>)
      requires Valid()
      modifies this, nodes
      ensures Valid() && fresh(node) && node.value == value && nodes == old(nodes) + [node]
    {
      node := new Node(value);
      LinkNodeTail(node);
    }

    /** The pointer updates of listUnlinkNode: the neighbours of the node at `k` are joined. */
    method Detach(node: Node<T>, ghost k: nat)
      requires Valid() && k < |nodes| && nodes[k] == node
      modifies this, nodes
      ensures nodes == old(nodes) && len == old(len) - 1
      ensures head == (if k == 0 then old(node.next) else old(head))
      ensures tail == (if k + 1 == |nodes| then old(node.prev) else old(tail))
      ensures node.prev == null && node.next == null
      ensures forall j: nat :: j < |nodes| && j != k ==>
                && nodes[j].next == (if j + 1 == k then old(node.next) else old(nodes[j].next))
                && nodes[j].prev == (if j == k + 1 then old(node.prev) else old(nodes[j].prev))
    {
      assert Linked(k);
      if node.prev != null {
        node.prev.next := node.next;
      } else {
        head := node.next;
      }
      if node.next != null {
        node.next.prev := node.prev;
      } else {
        tail := node.prev;
      }
      node.next := null;
      node.prev := null;
      len := len - 1;
    }

    /** listUnlinkNode. */
    method UnlinkNode(node: Node<T>)
      requires Valid() && node in nodes
      modifies this, nodes
      ensures Valid() && nodes == Without(old(nodes), IndexOf(old(nodes), node))
      ensures node.prev == null && node.next == null && node !in nodes
    {
      hide IndexOf;
      ghost var k, before := IndexOf(nodes, node), nodes;
      assert Linked(k);
      Detach(node, k);
      WithoutDistinct(nodes, k);
      hide Distinct;
      nodes := Without(nodes, k);
      forall i: nat | i < |nodes|
        ensures Linked(i)
      {
        assert old(Linked(if i < k then i else i + 1));
      }
    }

    /** listRotateHeadToTail. */
    method RotateHeadToTail()
      requires Valid()
      modifies this, nodes
      ensures Valid() && nodes == Rotated(old(nodes))
    {
      if len <= 1 {
        return;
      }
      assert Linked(0) && Linked(1) && Linked(|nodes| - 1);
      var first := head;
      head := first.next;
      head.prev := null;
      tail.next := first;
      first.next := null;
      first.prev := tail;
      tail := first;
      nodes := nodes[1..] + [nodes[0]];
      forall i: nat | i < |nodes|
        ensures Linked(i)
      {
        assert i + 1 < |nodes| ==> nodes[i] == old(nodes)[i + 1] && old(Linked(i + 1));
      }
    }
  }

  /** listIter. */
  class Iter<T> {
    var next: Node?<T>
    var forward: bool

    /** The iterator stands before position `k` of the list, after the last one for `|nodes|`
        (before the first one for -1 when it runs backwards). */
    ghost predicate At(l: List<T>, k: int)
      reads this, l
    {
      -1 <= k <= |l.nodes| && next == if 0 <= k < |l.nodes| then l.nodes[k] else null
    }

    /** listRewind and listRewindTail. */
    constructor (l: List<T>, forward: bool)
      requires l.Valid()
      ensures this.forward == forward && At(l, if forward then 0 else |l.nodes| - 1)
    {
      this.forward := forward;
      next := if forward then l.head else l.tail;
    }

    /** listNext: the node at the cursor; the cursor moves on before the caller sees the node, so
        that the caller may unlink it. */
    method Next(l: List<T>, ghost k: int) returns (current: Node?<T>)
      requires l.Valid() && At(l, k)
      modifies this
      ensures forward == old(forward)
      ensures 0 <= k < |l.nodes| ==> current == l.nodes[k] && At(l, if forward then k + 1 else k - 1)
      ensures !(0 <= k < |l.nodes|) ==> current == null && At(l, k)
    {
      current := next;
      if current != null {
        assert l.Linked(k);
        next := if forward then current.next else current.prev;
      }
    }
  }

  /** Walking a list with an iterator meets every node once, in order. */
  method Walk<T>(l: List<T>) returns (seen: seq<T>)
    requires l.Valid()
    ensures |seen| == |l.nodes| && forall i :: 0 <= i < |seen| ==> seen[i] == l.nodes[i].value
  {
    var it := new Iter(l, true);
    seen := [];
    var n := it.Next(l, 0);
    ghost var k := 0;
    while n != null
      invariant fresh(it) && it.forward && l.Valid()
      invariant 0 <= k <= |l.nodes| && |seen| == k
      invariant n == if k < |l.nodes| then l.nodes[k] else null
      invariant it.At(l, if k < |l.nodes| then k + 1 else k)
      invariant forall i :: 0 <= i < k ==> seen[i] == l.nodes[i].value
      decreases |l.nodes| - k
    {
      seen := seen + [n.value];
      k := k + 1;
      n := it.Next(l, k);
    }
  }
}
