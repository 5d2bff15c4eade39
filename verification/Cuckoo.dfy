/** Cuckoo Heavy Keeper: two tables of buckets, alternate indexes and bounded kick-outs. */
module Cuckoo {
  import opened Options

  const TABLES: nat := 2
  const ENTRIES_PER_BUCKET: nat := 2
  const MAX_KICKS: nat := 16

  /** (counter_t)-1. */
  const COUNTER_MAX: nat := 0xFFFF_FFFF_FFFF_FFFF

  /** A heavy entry: empty when its count is zero. `home` is the index of its item in the first
      table; the algorithm does not store it. */
  datatype Entry = Entry(fp: bv16, count: nat, home: bv64)

  datatype Slot = Slot(table: nat, idx: bv64, pos: nat)

  // ---------------------------------------------------------------- alternate indexes

  predicate PowerOfTwo(n: bv64) {
    n != 0 && n & (n - 1) == 0
  }

  predicate InTable(idx: bv64, n: bv64) {
    idx < n
  }

  function Scramble(fp: bv16): bv64 {
    0x5bd1e995 * (fp as bv64)
  }

  function Flip(idx: bv64, h: bv64, m: bv64): bv64 {
    (idx ^ h) & m
  }

  /** generateAltIdx. */
  function AltIdx(fp: bv16, idx: bv64, n: bv64): bv64 {
    Flip(idx, Scramble(fp), n - 1)
  }

  lemma XorTwice(i: bv64, h: bv64, m: bv64)
    ensures (((i ^ h) & m) ^ h) & m == i & m
  {
  }

  lemma FlipIs(i: bv64, h: bv64, m: bv64)
    ensures Flip(i, h, m) == (i ^ h) & m
  {
  }

  lemma FlipTwice(idx: bv64, h: bv64, m: bv64)
    ensures Flip(Flip(idx, h, m), h, m) == idx & m
  {
    hide Flip;
    FlipIs(idx, h, m);
    FlipIs((idx ^ h) & m, h, m);
    XorTwice(idx, h, m);
  }

  lemma MaskKeeps(idx: bv64, n: bv64)
    requires PowerOfTwo(n) && InTable(idx, n)
    ensures idx & (n - 1) == idx
  {
  }

  lemma AndAtMost(i: bv64, m: bv64)
    ensures i & m <= m
  {
  }

  lemma OneBelow(m: bv64, n: bv64)
    requires n != 0 && m <= n - 1
    ensures InTable(m, n)
  {
  }

  lemma FlipInTable(idx: bv64, h: bv64, n: bv64)
    requires n != 0
    ensures InTable(Flip(idx, h, n - 1), n)
  {
    hide InTable;
    AndAtMost(idx ^ h, n - 1);
    OneBelow((idx ^ h) & (n - 1), n);
  }

  lemma AltIdxInTable(fp: bv16, idx: bv64, n: bv64)
    requires PowerOfTwo(n)
    ensures InTable(AltIdx(fp, idx, n), n)
  {
    NotZero(n);
    hide InTable, Flip, Scramble, PowerOfTwo;
    FlipInTable(idx, Scramble(fp), n);
  }

  lemma NotZero(n: bv64)
    requires PowerOfTwo(n)
    ensures n != 0
  {
  }

  /** The alternate of the alternate index is the index itself. */
  lemma AltIdxInvolution(fp: bv16, idx: bv64, n: bv64)
    requires PowerOfTwo(n) && InTable(idx, n)
    ensures AltIdx(fp, AltIdx(fp, idx, n), n) == idx
  {
    hide InTable, Flip, Scramble, PowerOfTwo;
    FlipTwice(idx, Scramble(fp), n - 1);
    MaskKeeps(idx, n);
  }

  /** For any number of buckets the alternate of the alternate keeps the bits under the mask. */
  lemma AltIdxTwice(fp: bv16, idx: bv64, n: bv64)
    ensures AltIdx(fp, AltIdx(fp, idx, n), n) == idx & (n - 1)
  {
    hide Flip, Scramble;
    FlipTwice(idx, Scramble(fp), n - 1);
  }

  /** The lowest set bit of a number that is no power of two is below it, and not under its mask. */
  lemma LowestBit(n: bv64)
    requires n != 0 && !PowerOfTwo(n)
    ensures InTable(n & (0 - n), n) && (n & (0 - n)) & (n - 1) != n & (0 - n)
  {
  }

  /** It is an involution on the table exactly when the number of buckets is a power of two. */
  lemma AltIdxInvolutionIff(fp: bv16, n: bv64)
    requires n != 0
    ensures (forall idx: bv64 :: InTable(idx, n) ==> AltIdx(fp, AltIdx(fp, idx, n), n) == idx) <==> PowerOfTwo(n)
  {
    hide AltIdx, InTable, PowerOfTwo;
    if PowerOfTwo(n) {
      forall idx: bv64 | InTable(idx, n)
        ensures AltIdx(fp, AltIdx(fp, idx, n), n) == idx
      {
        AltIdxInvolution(fp, idx, n);
      }
    } else {
      LowestBit(n);
      AltIdxTwice(fp, n & (0 - n), n);
    }
  }

  /** Six buckets, for example. */
  lemma AltIdxNotInvolution()
    ensures AltIdx(1, AltIdx(1, 2, 6), 6) != 2
  {
  }

  /** The two buckets an item may be in. */
  predicate Legal(e: Entry, table: nat, idx: bv64, n: bv64) {
    (table == 0 && idx == e.home) || (table == 1 && idx == AltIdx(e.fp, e.home, n))
  }

  /** A kicked-out entry moves to its other bucket. */
  lemma OtherBucket(e: Entry, table: nat, idx: bv64, n: bv64)
    requires PowerOfTwo(n) && InTable(e.home, n) && Legal(e, table, idx, n)
    ensures Legal(e, 1 - table, AltIdx(e.fp, idx, n), n) && InTable(AltIdx(e.fp, idx, n), n)
  {
    hide AltIdx, InTable, PowerOfTwo;
    AltIdxInvolution(e.fp, e.home, n);
    AltIdxInTable(e.fp, idx, n);
  }

  /** Within one bucket the fingerprint tells the home: two entries with the same fingerprint in
      the same bucket have the same pair of buckets. */
  lemma SameHome(a: Entry, b: Entry, table: nat, idx: bv64, n: bv64)
    requires PowerOfTwo(n) && InTable(a.home, n) && InTable(b.home, n) && a.fp == b.fp
    requires Legal(a, table, idx, n) && Legal(b, table, idx, n)
    ensures a.home == b.home
  {
    hide AltIdx, InTable, PowerOfTwo;
    AltIdxInvolution(a.fp, a.home, n);
    AltIdxInvolution(b.fp, b.home, n);
  }

  // ---------------------------------------------------------------- conservation

  function One(b: bool): nat {
    if b then 1 else 0
  }

  function Places(m: map<Slot, Entry>, e: Entry): set<Slot> {
    set s | s in m && m[s] == e
  }

  /** In how many slots an entry stands. */
  function Occurrences(m: map<Slot, Entry>, e: Entry): nat {
    |Places(m, e)|
  }

  lemma OccurrencesUpdate(m: map<Slot, Entry>, s: Slot, x: Entry, e: Entry)
    requires s in m
    ensures Occurrences(m[s := x], e) + One(m[s] == e) == Occurrences(m, e) + One(x == e)
  {
    hide Places;
    PlacesUpdate(m, s, x, e);
    PlacesUpdate(m, s, m[s], e);
    assert m[s := m[s]] == m;
    var rest := Places(m, e) - {s};
    assert |rest + {s}| == |rest| + 1;
  }

  lemma PlacesUpdate(m: map<Slot, Entry>, s: Slot, x: Entry, e: Entry)
    requires s in m
    ensures Places(m[s := x], e) == (Places(m, e) - {s}) + if x == e then {s} else {}
  {
  }

  /** The entries of `m` and the one that is carried, if any, are those of `m0` and `first`. */
  ghost predicate Conserved(m: map<Slot, Entry>, carried: Option<Entry>, m0: map<Slot, Entry>, first: Entry) {
    forall e: Entry :: e.count > 0 ==>
      Occurrences(m, e) + One(carried == Some(e)) == Occurrences(m0, e) + One(e == first)
  }

  lemma ConservedStart(m: map<Slot, Entry>, first: Entry)
    ensures Conserved(m, Some(first), m, first)
  {
    hide Occurrences;
  }

  /** Putting the carried entry down and taking up the one that was there. */
  lemma ConservedStep(m: map<Slot, Entry>, s: Slot, entry: Entry, m0: map<Slot, Entry>, first: Entry)
    requires s in m && Conserved(m, Some(entry), m0, first)
    ensures Conserved(m[s := entry], if m[s].count > 0 then Some(m[s]) else None, m0, first)
  {
    hide Occurrences;
    forall e: Entry | e.count > 0
      ensures Occurrences(m[s := entry], e) + One(m[s] == e) == Occurrences(m0, e) + One(e == first)
    {
      OccurrencesUpdate(m, s, entry, e);
    }
  }

  /** Nothing differs but the slots in `moved`. */
  ghost predicate OnlyAt(m: map<Slot, Entry>, m0: map<Slot, Entry>, moved: seq<Slot>) {
    m.Keys == m0.Keys && forall s :: s in m && s !in moved ==> m[s] == m0[s]
  }

  /** The moves so far: the first goes to the other bucket of `first`, none leaves a slot empty, and
      nothing else differs from `m0`. */
  ghost predicate Path(m: map<Slot, Entry>, m0: map<Slot, Entry>, moved: seq<Slot>, first: Entry, table: nat, idx: bv64,
                       n: bv64) {
    && OnlyAt(m, m0, moved)
    && (forall j :: 0 <= j < |moved| ==> moved[j] in m && m[moved[j]].count > 0)
    && (moved != [] ==> moved[0].table == 1 - table && moved[0].idx == AltIdx(first.fp, idx, n))
  }

  lemma NoMoves(m: map<Slot, Entry>, first: Entry, table: nat, idx: bv64, n: bv64)
    ensures Path(m, m, [], first, table, idx, n)
  {
  }

  lemma PathStep(m: map<Slot, Entry>, m0: map<Slot, Entry>, moved: seq<Slot>, first: Entry, table: nat, idx: bv64, n: bv64,
                 s: Slot, e: Entry)
    requires Path(m, m0, moved, first, table, idx, n) && s in m && e.count > 0
    requires moved == [] ==> s.table == 1 - table && s.idx == AltIdx(first.fp, idx, n)
    ensures Path(m[s := e], m0, moved + [s], first, table, idx, n)
    ensures s in m0 && (m[s].count == 0 ==> m0[s].count == 0)
  {
    hide AltIdx;
  }

  lemma ConservedTrans(m2: map<Slot, Entry>, dropped: Option<Entry>, m1: map<Slot, Entry>, prior: Entry,
                       m0: map<Slot, Entry>, first: Entry)
    requires Conserved(m1, Some(prior), m0, first) && Conserved(m2, dropped, m1, prior)
    ensures Conserved(m2, dropped, m0, first)
  {
    hide Occurrences;
  }

  // ---------------------------------------------------------------- the structure

  /** An item's fingerprint and its index in each table. */
  datatype Item = Item(fp: bv16, home: bv64)

  function IndexIn(item: Item, table: nat, n: bv64): bv64 {
    if table == 0 then item.home else AltIdx(item.fp, item.home, n)
  }

  lemma IndexLegal(item: Item, table: nat, count: nat, n: bv64)
    requires table < TABLES && PowerOfTwo(n) && InTable(item.home, n)
    ensures Legal(Entry(item.fp, count, item.home), table, IndexIn(item, table, n), n)
    ensures InTable(IndexIn(item, table, n), n)
  {
    hide AltIdx, InTable, PowerOfTwo;
    AltIdxInTable(item.fp, item.home, n);
  }

  datatype BucketId = BucketId(table: nat, idx: bv64)

  datatype LobbyEntry = LobbyEntry(fp: bv16, count: nat)

  /** No entry of the item in its bucket of a table. */
  ghost predicate Absent(m: map<Slot, Entry>, item: Item, table: nat, n: bv64) {
    forall j: nat :: j < ENTRIES_PER_BUCKET && Slot(table, IndexIn(item, table, n), j) in m ==>
      m[Slot(table, IndexIn(item, table, n), j)].count == 0
      || m[Slot(table, IndexIn(item, table, n), j)].fp != item.fp
  }

  /** The item's bucket of a table has no empty slot before `pos`. */
  ghost predicate FullBelow(m: map<Slot, Entry>, item: Item, table: nat, n: bv64, pos: nat) {
    forall j: nat :: j < pos && Slot(table, IndexIn(item, table, n), j) in m ==>
      m[Slot(table, IndexIn(item, table, n), j)].count > 0
  }

  /** An entry that had to leave a slot: it belongs in that bucket, and was a least one there. */
  ghost predicate LeastAt(m: map<Slot, Entry>, e: Entry, s: Slot, n: bv64) {
    && s in m && Legal(e, s.table, s.idx, n)
    && forall j: nat :: j < ENTRIES_PER_BUCKET && j != s.pos && Slot(s.table, s.idx, j) in m ==>
         e.count <= m[Slot(s.table, s.idx, j)].count
  }

  class TopK {
    const n: bv64
    var heavy: map<Slot, Entry>
    var lobby: map<BucketId, LobbyEntry>
    var total: nat

    predicate IsSlot(s: Slot) {
      s.table < TABLES && InTable(s.idx, n) && s.pos < ENTRIES_PER_BUCKET
    }

    /** Every heavy entry is in one of the two buckets of its item, and counts stay below the
        value that marks "no minimum yet". */
    predicate EntryOk(s: Slot, e: Entry) {
      e.count > 0 ==> e.count < COUNTER_MAX && InTable(e.home, n) && Legal(e, s.table, s.idx, n)
    }

    ghost predicate Valid()
      reads this
    {
      && PowerOfTwo(n)
      && (forall s :: s in heavy <==> IsSlot(s))
      && (forall s :: s in heavy ==> EntryOk(s, heavy[s]))
    }

    /** isHeavyHitter: the count reaches 0.008 of the total. */
    predicate IsHeavyHitter(count: nat)
      reads this
    {
      1000 * count >= 8 * total
    }

    /** The first empty entry of a bucket, or else the first with the least count. */
    method FindInBucket(table: nat, idx: bv64) returns (pos: nat, empty: bool)
      requires Valid() && table < TABLES && InTable(idx, n)
      ensures pos < ENTRIES_PER_BUCKET && Slot(table, idx, pos) in heavy
      ensures empty <==> heavy[Slot(table, idx, pos)].count == 0
      ensures forall j: nat :: j < pos && Slot(table, idx, j) in heavy ==>
                heavy[Slot(table, idx, pos)].count < heavy[Slot(table, idx, j)].count
      ensures !empty ==> forall j: nat :: j < ENTRIES_PER_BUCKET && Slot(table, idx, j) in heavy ==>
                           heavy[Slot(table, idx, pos)].count <= heavy[Slot(table, idx, j)].count
    {
      hide Legal, InTable, PowerOfTwo;
      var min, minPos, j := COUNTER_MAX, -1, 0;
      while j < ENTRIES_PER_BUCKET
        invariant 0 <= j <= ENTRIES_PER_BUCKET
        invariant j == 0 ==> min == COUNTER_MAX
        invariant j > 0 ==> 0 <= minPos < j && min == heavy[Slot(table, idx, minPos)].count && min > 0
        invariant forall x: nat :: x < j ==> Slot(table, idx, x) in heavy && min <= heavy[Slot(table, idx, x)].count
        invariant forall x: nat :: x < minPos ==> Slot(table, idx, x) in heavy && min < heavy[Slot(table, idx, x)].count
      {
        var s := Slot(table, idx, j);
        assert IsSlot(s) && EntryOk(s, heavy[s]);
        var e := heavy[s];
        if e.count == 0 {
          return j, true;
        }
        if e.count < min {
          min, minPos := e.count, j;
        }
        j := j + 1;
      }
      return minPos, false;
    }

    method Put(s: Slot, e: Entry)
      requires Valid() && s in heavy && EntryOk(s, e)
      modifies `heavy
      ensures Valid() && heavy == old(heavy)[s := e]
    {
      hide Legal, InTable, PowerOfTwo;
      heavy := heavy[s := e];
    }

    /** The entry leaves its bucket for its other one, where it takes the place of an empty entry or
        of one with the least count. */
    method Displace(entry: Entry, from: Slot) returns (prior: Entry, s: Slot)
      requires Valid() && from.table < TABLES && entry.count > 0 && EntryOk(from, entry)
      modifies `heavy
      ensures Valid() && s.table == 1 - from.table && s.idx == AltIdx(entry.fp, from.idx, n) && s in old(heavy)
      ensures prior == old(heavy)[s] && heavy == old(heavy)[s := entry] && EntryOk(s, prior)
      ensures prior.count > 0 ==> LeastAt(heavy, prior, s, n)
    {
      hide Legal, AltIdx, PowerOfTwo, InTable;
      OtherBucket(entry, from.table, from.idx, n);
      var table, idx := 1 - from.table, AltIdx(entry.fp, from.idx, n);
      var pos, empty := FindInBucket(table, idx);
      s := Slot(table, idx, pos);
      prior := heavy[s];
      assert EntryOk(s, prior);
      Put(s, entry);
    }

    /** kickout: within MAX_KICKS moves every entry goes to its own other bucket, and apart from
        at most one entry that is dropped nothing is lost or made up. An entry is only dropped when it
        is no heavy hitter or MAX_KICKS moves are used up, and then it was a least one of the last
        bucket reached, at the slot `last`; otherwise `last` was empty. */
    method Kickout(first: Entry, idx0: bv64, table0: nat)
      returns (dropped: Option<Entry>, ghost moved: seq<Slot>, ghost last: Slot)
      requires Valid() && table0 < TABLES && first.count > 0
      requires EntryOk(Slot(table0, idx0, 0), first)
      modifies `heavy
      ensures Valid()
      ensures Conserved(heavy, dropped, old(heavy), first)
      ensures |moved| <= MAX_KICKS && Path(heavy, old(heavy), moved, first, table0, idx0, n)
      ensures dropped.Some? ==> !IsHeavyHitter(dropped.value.count) || |moved| == MAX_KICKS
      ensures dropped.Some? && moved != [] ==> LeastAt(heavy, dropped.value, last, n)
      ensures moved == [] <==> !IsHeavyHitter(first.count)
      ensures dropped == None ==> last in old(heavy) && old(heavy)[last].count == 0 && moved != []
    {
      ConservedStart(heavy, first);
      var entry, at, i := first, Slot(table0, idx0, 0), 0;
      NoMoves(heavy, first, table0, idx0, n);
      hide Legal, AltIdx, PowerOfTwo, InTable, Conserved, LeastAt, Path, Valid, EntryOk, IsHeavyHitter;
      moved := [];
      while i < MAX_KICKS
        invariant 0 <= i <= MAX_KICKS && |moved| == i
        invariant Valid() && at.table < TABLES && entry.count > 0 && EntryOk(at, entry)
        invariant Conserved(heavy, Some(entry), old(heavy), first)
        invariant Path(heavy, old(heavy), moved, first, table0, idx0, n)
        invariant if i == 0 then entry == first && at == Slot(table0, idx0, 0)
                  else IsHeavyHitter(first.count) && LeastAt(heavy, entry, at, n)
      {
        if !IsHeavyHitter(entry.count) {
          return Some(entry), moved, at;
        }
        ghost var before := heavy;
        var prior, s := Displace(entry, at);
        ConservedStep(before, s, entry, old(heavy), first);
        PathStep(before, old(heavy), moved, first, table0, idx0, n, s, entry);
        moved := moved + [s];
        if prior.count == 0 {
          return None, moved, s;
        }
        entry, at, i := prior, s, i + 1;
      }
      return Some(entry), moved, at;
    }

    /** Every entry of a bucket counts at least `count`. */
    ghost predicate BucketAtLeast(m: map<Slot, Entry>, table: nat, idx: bv64, count: nat) {
      forall j: nat :: j < ENTRIES_PER_BUCKET && Slot(table, idx, j) in m ==> m[Slot(table, idx, j)].count >= count
    }

    /** tryPromoteAndKickout; `lucky` is the outcome of the random test. The item is refused exactly
        when it is unlucky and every entry of its bucket counts more. Otherwise it takes the place and
        the count of a least entry, which is then kicked out, or an empty place. Its lobby entry is
        cleared in the first case only. */
    method TryPromoteAndKickout(item: Item, newCount: nat, table: nat, lucky: bool)
      returns (pos: int, dropped: Option<Entry>, ghost moved: seq<Slot>)
      requires Valid() && table < TABLES && InTable(item.home, n) && 0 < newCount < COUNTER_MAX
      requires BucketId(table, IndexIn(item, table, n)) in lobby
      requires lobby[BucketId(table, IndexIn(item, table, n))].fp == item.fp
      modifies `heavy, `lobby
      ensures Valid()
      ensures pos == -1 <==> !lucky && BucketAtLeast(old(heavy), table, IndexIn(item, table, n), newCount + 1)
      ensures pos == -1 ==> heavy == old(heavy) && lobby == old(lobby) && dropped == None
      ensures pos != -1 ==>
                0 <= pos < ENTRIES_PER_BUCKET &&
                var s := Slot(table, IndexIn(item, table, n), pos);
                s in old(heavy) &&
                var least := old(heavy)[s].count;
                var promoted := Entry(item.fp, if least == 0 then newCount else least, item.home);
                && BucketAtLeast(old(heavy), table, IndexIn(item, table, n), least)
                && Conserved(heavy, dropped, old(heavy), promoted) 
                && Path(heavy, old(heavy)[s := promoted], moved, old(heavy)[s], s.table, s.idx, n)
                && (least == 0 ==> moved == [] && dropped == None && lobby == old(lobby))
                && (least > 0 ==>
                    && lobby == old(lobby)[BucketId(table, IndexIn(item, table, n)) := LobbyEntry(0, 0)]
                    && (moved == [] <==> !IsHeavyHitter(least)) && |moved| <= MAX_KICKS
                    && (dropped.Some? ==> !IsHeavyHitter(dropped.value.count) || |moved| == MAX_KICKS))
    {
      hide Legal, AltIdx, PowerOfTwo, InTable, IndexIn, Conserved, Path;
      var idx := IndexIn(item, table, n);
      IndexLegal(item, table, newCount, n);
      var p, empty := FindInBucket(table, idx);
      var s := Slot(table, idx, p);
      var prior := heavy[s];
      assert EntryOk(s, prior);
      assert BucketAtLeast(heavy, table, idx, prior.count);
      if !empty && prior.count > newCount && !lucky {
        return -1, None, [];
      }
      var fp := if empty then item.fp else lobby[BucketId(table, idx)].fp;
      var promoted := Entry(fp, if empty then newCount else prior.count, item.home);
      IndexLegal(item, table, promoted.count, n);
      ghost var before := heavy;
      ConservedStart(before, promoted);
      ConservedStep(before, s, promoted, before, promoted);
      Put(s, promoted);
      pos, dropped, moved := p, None, [];
      NoMoves(heavy, prior, table, idx, n);
      if !empty {
        lobby := lobby[BucketId(table, idx) := LobbyEntry(0, 0)];
        ghost var after, last := heavy, s;
        dropped, moved, last := Kickout(prior, idx, table);
        ConservedTrans(heavy, dropped, after, prior, before, promoted);
      }
    }

    /** The slot of the item in a table, the first empty one if there is none yet. */
    method CheckBucket(item: Item, table: nat) returns (found: int, firstEmpty: int)
      requires Valid() && table < TABLES && InTable(item.home, n)
      ensures InTable(IndexIn(item, table, n), n)
      ensures found != -1 ==>
                0 <= found < ENTRIES_PER_BUCKET &&
                var s := Slot(table, IndexIn(item, table, n), found);
                s in heavy && heavy[s].count > 0 && heavy[s].fp == item.fp && heavy[s].home == item.home
      ensures found == -1 ==> Absent(heavy, item, table, n)
      ensures firstEmpty != -1 ==>
                0 <= firstEmpty < ENTRIES_PER_BUCKET &&
                var s := Slot(table, IndexIn(item, table, n), firstEmpty);
                s in heavy && heavy[s].count == 0
      ensures found == -1 ==> FullBelow(heavy, item, table, n, if firstEmpty == -1 then ENTRIES_PER_BUCKET else firstEmpty)
    {
      hide Legal, AltIdx, PowerOfTwo, InTable, IndexIn;
      var idx := IndexIn(item, table, n);
      found, firstEmpty := -1, -1;
      var j := 0;
      IndexLegal(item, table, 1, n);
      while j < ENTRIES_PER_BUCKET
        invariant 0 <= j <= ENTRIES_PER_BUCKET && found == -1
        invariant firstEmpty == -1 || (0 <= firstEmpty < j && Slot(table, idx, firstEmpty) in heavy
                                       && heavy[Slot(table, idx, firstEmpty)].count == 0)
        invariant FullBelow(heavy, item, table, n, if firstEmpty == -1 then j else firstEmpty)
        invariant forall x: nat :: x < j && Slot(table, idx, x) in heavy ==>
                    heavy[Slot(table, idx, x)].count == 0 || heavy[Slot(table, idx, x)].fp != item.fp
      {
        var s := Slot(table, idx, j);
        assert IsSlot(s) && EntryOk(s, heavy[s]);
        var e := heavy[s];
        if e.count > 0 {
          if e.fp == item.fp {
            SameHome(e, Entry(item.fp, 1, item.home), table, idx, n);
            return j, firstEmpty;
          }
        } else if firstEmpty == -1 {
          firstEmpty := j;
        }
        j := j + 1;
      }
    }

    /** checkHeavyEntries: an item that is already a heavy entry has its count raised where it
        stands; otherwise it takes the first empty slot of its two buckets, if there is one. */
    method CheckHeavyEntries(item: Item, weight: nat) returns (at: Option<Slot>)
      requires Valid() && InTable(item.home, n) && 0 < weight < COUNTER_MAX
      requires forall s :: s in heavy ==> heavy[s].count + weight < COUNTER_MAX
      modifies `heavy
      ensures Valid()
      ensures at == None ==> heavy == old(heavy)
      ensures at == None ==>
                forall table: nat :: table < TABLES ==> FullBelow(old(heavy), item, table, n, ENTRIES_PER_BUCKET)
      ensures at.Some? ==> at.value in old(heavy)
      ensures at.Some? && old(heavy)[at.value].count == 0 ==>
                && FullBelow(old(heavy), item, at.value.table, n, at.value.pos)
                && forall table: nat :: table < at.value.table ==> FullBelow(old(heavy), item, table, n, ENTRIES_PER_BUCKET)
      ensures at == None || old(heavy)[at.value].count == 0 ==>
                forall table: nat :: table < TABLES ==> Absent(old(heavy), item, table, n)
      ensures at.Some? ==>
                var s := at.value;
                && s.idx == IndexIn(item, s.table, n)
                && heavy == old(heavy)[s := Entry(item.fp, old(heavy)[s].count + weight, item.home)]
                && (old(heavy)[s].count > 0 ==> old(heavy)[s].fp == item.fp && old(heavy)[s].home == item.home)
    {
      hide Legal, AltIdx, PowerOfTwo, InTable, IndexIn, Absent, FullBelow;
      var empty: Option<Slot>, i := None, 0;
      while i < TABLES
        invariant 0 <= i <= TABLES && heavy == old(heavy)
        invariant forall table: nat :: table < i ==> Absent(heavy, item, table, n)
        invariant forall table: nat :: table < (if empty.Some? then empty.value.table else i) ==>
                    FullBelow(heavy, item, table, n, ENTRIES_PER_BUCKET)
        invariant empty.Some? ==>
                    var s := empty.value;
                    && FullBelow(heavy, item, s.table, n, s.pos) && s in heavy && s.table < TABLES
                    && s.idx == IndexIn(item, s.table, n) && heavy[s].count == 0
      {
        var found, firstEmpty := CheckBucket(item, i);
        var idx := IndexIn(item, i, n);
        IndexLegal(item, i, weight, n);
        if found != -1 {
          var s := Slot(i, idx, found);
          assert EntryOk(s, heavy[s]);
          IndexLegal(item, i, heavy[s].count + weight, n);
          Put(s, Entry(item.fp, heavy[s].count + weight, item.home));
          return Some(s);
        }
        if firstEmpty != -1 && empty.None? {
          empty := Some(Slot(i, idx, firstEmpty));
        }
        i := i + 1;
      }
      if empty.Some? {
        IndexLegal(item, empty.value.table, weight, n);
        Put(empty.value, Entry(item.fp, weight, item.home));
      }
      return empty;
    }
  }

  /** An entry is a heavy hitter from one part in 125 of everything counted on. */
  lemma HeavyIs(t: TopK, count: nat)
    ensures t.IsHeavyHitter(count) <==> 125 * count >= t.total
  {
  }
}
