/** The waiters of one key as the server keeps them: a linked list of clients whose nodes the clients
    point to. Refines one list of the blocked-client index. */
module WaiterList {
  import opened AdList
  import opened Blocked
  import opened BlockedClients

  /** Rotating the list of a key is what the index does to it. */
  lemma RotatesKey(s: State, k: Key)
    requires k in s.waiting
    ensures Rotate(s, k).waiting == s.waiting[k := Rotated(s.waiting[k])]
  {
  }

  class KeyWaiters {
    const list: List<nat>
    /** The list of the index, where numbers stand for nodes, and the node each number stands for. */
    ghost var waiters: seq<Waiter>
    ghost var at: map<nat, Node<nat>>

    ghost predicate Tracks(i: nat)
      requires i < |waiters| && i < |list.nodes|
      reads this, list
    {
      var w := waiters[i];
      list.nodes[i].value == w.client && w.node in at && at[w.node] == list.nodes[i]
    }

    ghost predicate Valid()
      reads this, list, list.nodes
    {
      && list.Valid() && |waiters| == |list.nodes|
      && forall i: nat :: i < |waiters| ==> Tracks(i)
    }

    /** listCreate on the first waiter of a key. */
    constructor ()
      ensures Valid() && fresh(list) && waiters == [] && at == map[]
    {
      list := new List();
      waiters, at := [], map[];
    }

    /** listAddNodeTail in blockForKeys, for a number that stands for no node yet. */
    method Add(client: nat, ghost number: nat) returns (node: Node<nat>)
      requires Valid() && number !in at
      modifies this, list, list.nodes
      ensures Valid() && fresh(node)
      ensures waiters == old(waiters) + [Waiter(number, client)] && at == old(at)[number := node]
    {
      node := list.AddNodeTail(client);
      waiters, at := waiters + [Waiter(number, client)], at[number := node];
      forall i: nat | i < |waiters|
        ensures Tracks(i)
      {
        assert i < |old(waiters)| ==> old(Tracks(i));
      }
    }

    /** Different nodes have different numbers, so a number is found where its node is. */
    lemma Position(node: Node<nat>, number: nat)
      requires Valid() && node in list.nodes && number in at && at[number] == node
      requires exists i :: 0 <= i < |waiters| && waiters[i].node == number
      ensures Unlinked(waiters, number) == Without(waiters, IndexOf(list.nodes, node))
    {
      var i: nat :| i < |waiters| && waiters[i].node == number;
      assert Tracks(i);
      forall j: nat, k: nat | j < k < |waiters|
        ensures waiters[j].node != waiters[k].node
      {
        assert Tracks(j) && Tracks(k);
      }
      UnlinkedAt(waiters, i);
    }

    /** listUnlinkNode in releaseBlockedEntry, through the pointer kept by the client. */
    method Unlink(node: Node<nat>, ghost number: nat)
      requires Valid() && node in list.nodes && number in at && at[number] == node
      requires exists i :: 0 <= i < |waiters| && waiters[i].node == number
      modifies this, list, list.nodes
      ensures Valid() && node !in list.nodes
      ensures waiters == Unlinked(old(waiters), number) && at == old(at)
    {
      hide IndexOf, Unlinked;
      Position(node, number);
      ghost var k := IndexOf(list.nodes, node);
      list.UnlinkNode(node);
      waiters := Without(waiters, k);
      forall j: nat | j < |waiters|
        ensures Tracks(j)
      {
        assert old(Tracks(if j < k then j else j + 1));
      }
    }

    /** listRotateHeadToTail while a key is served. */
    method Rotate()
      requires Valid()
      modifies this, list, list.nodes
      ensures Valid() && waiters == RotateList(old(waiters)) && at == old(at)
    {
      list.RotateHeadToTail();
      waiters := RotateList(waiters);
      forall j: nat | j < |waiters|
        ensures Tracks(j)
      {
        assert old(Tracks(if |waiters| <= 1 then j else if j + 1 < |waiters| then j + 1 else 0));
      }
    }

    /** listFirst: the client that has waited longest, and whom the index serves next. */
    method First() returns (client: nat)
      requires Valid() && waiters != []
      ensures client == waiters[0].client
    {
      assert Tracks(0);
      client := list.head.value;
    }
  }
}
