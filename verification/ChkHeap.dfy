/** The min-heap of the heavy keeper: sifting a bucket down. */
module ChkHeap {

  datatype Bucket = Bucket(count: nat, fp: nat, item: string)

  /** The bucket at `p` is not above either of its children. */
  predicate OrderedAt(s: seq<Bucket>, p: nat) {
    && (2 * p + 1 < |s| ==> s[p].count <= s[2 * p + 1].count)
    && (2 * p + 2 < |s| ==> s[p].count <= s[2 * p + 2].count)
  }

  ghost predicate OrderedBelow(s: seq<Bucket>, start: nat, hole: int) {
    forall p: nat :: start <= p && p != hole ==> OrderedAt(s, p)
  }

  function Swapped<T>(s: seq<T>, i: nat, j: nat): (r: seq<T>)
    requires i < |s| && j < |s|
    ensures |r| == |s|
  {
    s[i := s[j]][j := s[i]]
  }

  lemma SwapKeepsAll<T>(s: seq<T>, i: nat, j: nat)
    requires i < |s| && j < |s| && i != j
    ensures multiset(Swapped(s, i, j)) == multiset(s)
  {
    assert s == s[i := s[i]];
    assert multiset(s[i := s[j]]) == multiset(s) - multiset{s[i]} + multiset{s[j]};
  }

  /** The smaller of the two children. */
  function MinChild(s: seq<Bucket>, p: nat): (c: nat)
    requires 2 * p + 1 < |s|
    ensures p < c < |s| && (c == 2 * p + 1 || c == 2 * p + 2)
  {
    if 2 * p + 2 < |s| && s[2 * p + 1].count > s[2 * p + 2].count then 2 * p + 2 else 2 * p + 1
  }

  /** Sinking the bucket at `p` while a child is smaller. */
  function Sunk(s: seq<Bucket>, p: nat): seq<Bucket>
    requires p < |s|
    decreases |s| - p
  {
    if 2 * p + 1 >= |s| then s else
    var c := MinChild(s, p);
    if s[c].count >= s[p].count then s else Sunk(Swapped(s, p, c), c)
  }

  /** The first step also moves up a child with the same count. */
  function HeapifiedDown(s: seq<Bucket>, p: nat): seq<Bucket>
    requires p < |s|
  {
    if 2 * p + 1 >= |s| then s else
    var c := MinChild(s, p);
    if s[c].count > s[p].count then s else Sunk(Swapped(s, p, c), c)
  }

  // ---------------------------------------------------------------- what sinking does

  /** Position `i` is `p` or hangs below it. */
  predicate Under(i: nat, p: nat)
    decreases i
  {
    i == p || (i > p && Under((i - 1) / 2, p))
  }

  /** The place above `hole` is already in order with what hangs below `hole`. */
  predicate AboveOk(s: seq<Bucket>, start: nat, hole: nat)
    requires hole < |s|
  {
    hole > start ==>
      && (hole - 1) / 2 >= start
      && (2 * hole + 1 < |s| ==> s[(hole - 1) / 2].count <= s[2 * hole + 1].count)
      && (2 * hole + 2 < |s| ==> s[(hole - 1) / 2].count <= s[2 * hole + 2].count)
  }

  lemma MoveUpOne(s: seq<Bucket>, start: nat, hole: nat, p: nat)
    requires start <= hole && 2 * hole + 1 < |s| && s[MinChild(s, hole)].count <= s[hole].count
    requires OrderedBelow(s, start, hole) && AboveOk(s, start, hole)
    requires start <= p && p != MinChild(s, hole)
    ensures OrderedAt(Swapped(s, hole, MinChild(s, hole)), p)
  {
    assert p != hole ==> OrderedAt(s, p);
    assert 2 * p + 1 == hole || 2 * p + 2 == hole ==> p == (hole - 1) / 2;
  }

  /** Putting the smaller child in the place of its parent leaves only the child's place open. */
  lemma MoveUp(s: seq<Bucket>, start: nat, hole: nat)
    requires start <= hole && 2 * hole + 1 < |s| && s[MinChild(s, hole)].count <= s[hole].count
    requires OrderedBelow(s, start, hole) && AboveOk(s, start, hole)
    ensures var c := MinChild(s, hole);
            var t := Swapped(s, hole, c);
            && OrderedBelow(t, start, c) && AboveOk(t, start, c) && multiset(t) == multiset(s)
            && (forall i: nat :: i < |s| && !Under(i, hole) ==> t[i] == s[i])
  {
    var c := MinChild(s, hole);
    assert Under(c, hole) by { assert Under((c - 1) / 2, hole); }
    var t := Swapped(s, hole, c);
    SwapKeepsAll(s, hole, c);
    assert OrderedAt(s, c);
    assert (c - 1) / 2 == hole;
    hide Swapped, MinChild, OrderedAt;
    forall p: nat | start <= p && p != c
      ensures OrderedAt(t, p)
    {
      MoveUpOne(s, start, hole, p);
    }
  }

  lemma {:induction false} SunkOrders(s: seq<Bucket>, start: nat, p: nat)
    requires start <= p < |s| && OrderedBelow(s, start, p) && AboveOk(s, start, p)
    ensures var r := Sunk(s, p);
            && |r| == |s| && OrderedBelow(r, start, -1) && multiset(r) == multiset(s)
            && (forall i: nat :: i < |s| && !Under(i, p) ==> r[i] == s[i])
    decreases |s| - p
  {
    hide Swapped, AboveOk, MinChild, Under;
    if 2 * p + 1 >= |s| {
      assert OrderedAt(s, p);
    } else {
      var c := MinChild(s, p);
      MinChildIs(s, p);
      if s[c].count >= s[p].count {
        assert OrderedAt(s, p);
      } else {
        MoveUp(s, start, p);
        SunkOrders(Swapped(s, p, c), start, c);
        forall i: nat | i < |s| && !Under(i, p)
          ensures !Under(i, c)
        {
          UnderChild(i, p, c);
        }
      }
    }
  }

  lemma {:induction false} UnderChild(i: nat, p: nat, c: nat)
    requires c == 2 * p + 1 || c == 2 * p + 2
    ensures Under(i, c) ==> Under(i, p)
    decreases i
  {
    if i > c {
      UnderChild((i - 1) / 2, p, c);
    } else if i == c {
      assert Under((i - 1) / 2, p);
    }
  }

  lemma MinChildIs(s: seq<Bucket>, p: nat)
    requires 2 * p + 1 < |s|
    ensures s[MinChild(s, p)].count <= s[2 * p + 1].count
    ensures 2 * p + 2 < |s| ==> s[MinChild(s, p)].count <= s[2 * p + 2].count
  {
  }

  /** From `start` on the heap order holds again, nothing that does not hang below `start` is
      touched, the buckets are the same ones, and at `start` now stands its old bucket or its
      smaller child. */
  lemma HeapifyRestores(s: seq<Bucket>, start: nat)
    requires start < |s| && OrderedBelow(s, start, start)
    ensures var r := HeapifiedDown(s, start);
            && |r| == |s| && OrderedBelow(r, start, -1) && multiset(r) == multiset(s)
            && (forall i: nat :: i < |s| && !Under(i, start) ==> r[i] == s[i])
            && (r[start] == s[start] || (2 * start + 1 < |s| && r[start] == s[MinChild(s, start)]))
  {
    hide Sunk, MinChild, Under;
    if 2 * start + 1 >= |s| {
      assert OrderedAt(s, start);
    } else {
      var c := MinChild(s, start);
      MinChildIs(s, start);
      if s[c].count > s[start].count {
        assert OrderedAt(s, start);
      } else {
        MoveUp(s, start, start);
        var t := Swapped(s, start, c);
        hide AboveOk;
        SunkOrders(t, start, c);
        forall i: nat | i < |s| && !Under(i, start)
          ensures !Under(i, c)
        {
          UnderChild(i, start, c);
        }
        NotUnder(start, c);
        assert t[start] == s[c];
      }
    }
  }

  /** Which bucket comes up: the right child if it is smaller than the left one, else the left, as soon as
      that one does not count more than the top; a child with the same count comes up too. */
  lemma ComesUp(s: seq<Bucket>, start: nat)
    requires 2 * start + 1 < |s|
    ensures var r, left := HeapifiedDown(s, start), s[2 * start + 1];
            var least := if 2 * start + 2 < |s| && s[2 * start + 2].count < left.count then s[2 * start + 2] else left;
            |r| == |s| && r[start] == if least.count <= s[start].count then least else s[start]
  {
    var c := MinChild(s, start);
    var t := Swapped(s, start, c);
    SunkAbove(t, c, start);
    hide Sunk;
  }

  /** Sinking from `p` leaves what stands before `p`. */
  lemma {:induction false} SunkAbove(s: seq<Bucket>, p: nat, i: nat)
    requires i < p < |s|
    ensures |Sunk(s, p)| == |s| && Sunk(s, p)[i] == s[i]
    decreases |s| - p
  {
    if 2 * p + 1 < |s| && s[MinChild(s, p)].count < s[p].count {
      SunkAbove(Swapped(s, p, MinChild(s, p)), MinChild(s, p), i);
    }
  }

  lemma NotUnder(i: nat, p: nat)
    requires i < p
    ensures !Under(i, p)
  {
  }

  /** A heap in which the count of one bucket was raised is a heap again afterwards. */
  lemma RaisedBucket(s: seq<Bucket>, start: nat, count: nat)
    requires start < |s| && OrderedBelow(s, 0, -1) && count >= s[start].count
    ensures OrderedBelow(HeapifiedDown(s[start := s[start].(count := count)], start), 0, -1)
  {
    var u := s[start := s[start].(count := count)];
    forall p: nat | p != start && p != (start - 1) / 2
      ensures OrderedAt(u, p)
    {
      assert OrderedAt(s, p);
    }
    assert OrderedBelow(u, start, start);
    HeapifyRestores(u, start);
    var r := HeapifiedDown(u, start);
    hide HeapifiedDown, Under;
    forall p: nat
      ensures OrderedAt(r, p)
    {
      if p < start {
        assert OrderedAt(s, p) && OrderedAt(s, start);
        NotUnder(p, start);
        ChildOutside(p, 2 * p + 1, start);
        ChildOutside(p, 2 * p + 2, start);
      }
    }
  }

  /** A child of a place before `start` is `start` itself or does not hang below it. */
  lemma ChildOutside(p: nat, c: nat, start: nat)
    requires p < start && (c == 2 * p + 1 || c == 2 * p + 2)
    ensures c == start || !Under(c, start)
  {
    assert (c - 1) / 2 == p;
    NotUnder(p, start);
  }

  // ---------------------------------------------------------------- in place

  lemma SunkStep(s: seq<Bucket>, p: nat)
    requires p < |s|
    ensures Sunk(s, p) == if 2 * p + 1 >= |s| || s[MinChild(s, p)].count >= s[p].count then s
                          else Sunk(Swapped(s, p, MinChild(s, p)), MinChild(s, p))
  {
  }

  /** Copying the child up, with `top` kept aside, is the swap. */
  lemma CopiedUp(x: seq<Bucket>, start: nat, child: nat, top: Bucket)
    requires start < |x| && child < |x| && start != child
    ensures x[start := x[child]][child := top] == Swapped(x[start := top], start, child)
  {
  }

  /** The index of the smaller child, as the loop finds it. */
  method SmallerChild(a: array<Bucket>, start: nat, ghost s: seq<Bucket>) returns (child: nat)
    requires 2 * start + 1 < a.Length == |s| && forall i :: start < i < a.Length ==> s[i] == a[i]
    ensures child == MinChild(s, start) && start < child < a.Length
  {
    child := 2 * start + 1;
    if child + 1 < a.Length && a[child].count > a[child + 1].count {
      child := child + 1;
    }
  }

  /** chkHeapifyDown. */
  method HeapifyDown(a: array<Bucket>, start0: nat)
    requires start0 < a.Length
    modifies a
    ensures a[..] == HeapifiedDown(old(a[..]), start0)
  {
    hide Sunk, Swapped, MinChild;
    var len, start := a.Length, start0;
    if len < 2 || (len - 2) / 2 < start {
      return;
    }
    ghost var s := a[..];
    var child := SmallerChild(a, start, s);
    if a[child].count > a[start].count {
      return;
    }
    var top := a[start];
    assert s == s[start := top];
    CopiedUp(a[..], start, child, top);
    a[start] := a[child];
    s := Swapped(s, start, child);
    start := child;
    while (len - 2) / 2 >= start
      invariant start < len == a.Length == |s| && s == a[..][start := top]
      invariant Sunk(s, start) == HeapifiedDown(old(a[..]), start0)
      decreases len - start
    {
      SunkStep(s, start);
      child := SmallerChild(a, start, s);
      if a[child].count >= top.count {
        break;
      }
      CopiedUp(a[..], start, child, top);
      a[start] := a[child];
      s := Swapped(s, start, child);
      start := child;
    }
    SunkStep(s, start);
    a[start] := top;
    assert a[..] == s;
  }
}
