/**
  One zone of the buddy page allocator: free lists per order and migrate type, the page
  flags, the counters and the two search filters, updated step by step as blocks are split,
  stolen and merged.  The zone starts and ends on a multiple of the largest block size, and
  coalescing is immediate.
 */
module PageAlloc {
  import opened Powers
  import opened BuddyBlocks
  import opened PageLedger

  datatype Page = Page(buddy: bool, order: nat, mtype: nat)

  type Lists = seq<seq<seq<nat>>>

  datatype Alloc =
    | Got(pfn: nat)
    | NoPage
    | Overrun  // the order counter wrapped below zero and indexed past the free areas

  // ---- Lists ----

  predicate NoDuplicates(l: seq<nat>)
  {
    forall i, j :: 0 <= i < j < |l| ==> l[i] != l[j]
  }

  function Delete(l: seq<nat>, x: nat): (r: seq<nat>)
    ensures forall y :: y in r ==> y in l
    ensures forall y :: y in l && y != x ==> y in r
  {
    if l == [] then []
    else if l[0] == x then l[1..]
    else [l[0]] + Delete(l[1..], x)
  }

  lemma {:induction false} DeleteFromList(l: seq<nat>, x: nat)
    requires NoDuplicates(l) && x in l
    ensures NoDuplicates(Delete(l, x)) && x !in Delete(l, x) && |Delete(l, x)| == |l| - 1
  {
    assert NoDuplicates(l[1..]);
    if l[0] != x {
      DeleteFromList(l[1..], x);
      assert l[0] !in Delete(l[1..], x);
    }
  }

  /** Sum of the lengths of the lists of one order. */
  function TotalLen(ls: seq<seq<nat>>): nat
  {
    if ls == [] then 0 else TotalLen(ls[..|ls| - 1]) + |ls[|ls| - 1]|
  }

  lemma {:induction false} TotalLenUpdate(ls: seq<seq<nat>>, m: nat, l: seq<nat>)
    requires m < |ls|
    ensures TotalLen(ls[m := l]) == TotalLen(ls) - |ls[m]| + |l|
  {
    var n := |ls| - 1;
    var us := ls[m := l];
    if m == n {
      assert us[..n] == ls[..n];
    } else {
      TotalLenUpdate(ls[..n], m, l);
      assert us[..n] == ls[..n][m := l];
    }
  }

  lemma {:induction false} TotalLenZero(ls: seq<seq<nat>>, m: nat)
    requires m < |ls| && TotalLen(ls) == 0
    ensures ls[m] == []
  {
    if m < |ls| - 1 { TotalLenZero(ls[..|ls| - 1], m); }
  }

  /** The number of frames on the lists of all orders, as the zone's self check adds them up. */
  function FoundFree(lists: Lists): nat
  {
    if lists == [] then 0
    else FoundFree(lists[..|lists| - 1]) + Pow2(|lists| - 1) * TotalLen(lists[|lists| - 1])
  }

  lemma {:induction false} FoundFreeUpdate(lists: Lists, o: nat, ls: seq<seq<nat>>, d: int)
    requires o < |lists| && TotalLen(ls) == TotalLen(lists[o]) + d
    ensures FoundFree(lists[o := ls]) == FoundFree(lists) + Pow2(o) * d
  {
    var n := |lists| - 1;
    var us := lists[o := ls];
    if o == n {
      assert us[..n] == lists[..n];
      assert Pow2(o) * (TotalLen(lists[o]) + d) == Pow2(o) * TotalLen(lists[o]) + Pow2(o) * d;
    } else {
      FoundFreeUpdate(lists[..n], o, ls, d);
      assert us[..n] == lists[..n][o := ls];
    }
  }

  // ---- Agreement of lists and page flags ----

  /** The blocks that the page flags of [lo, hi) describe. */
  function BlocksOf(page: seq<Page>, lo: nat, hi: nat): Blocks
    requires hi <= |page|
  {
    map p: nat | lo <= p < hi && page[p].buddy :: page[p].order
  }

  /** The list holds exactly the block heads of its order and type, each once. */
  ghost predicate ListOk(l: seq<nat>, page: seq<Page>, lo: nat, hi: nat, o: nat, m: nat)
    requires hi <= |page|
  {
    && NoDuplicates(l)
    && (forall p :: p in l ==> lo <= p < hi && page[p] == Page(true, o, m))
    && (forall p :: lo <= p < hi && page[p] == Page(true, o, m) ==> p in l)
  }

  ghost predicate Linked(lists: Lists, page: seq<Page>, lo: nat, hi: nat, types: nat)
  {
    && hi <= |page|
    && (forall o :: 0 <= o < |lists| ==> |lists[o]| == types)
    && (forall o, m :: 0 <= o < |lists| && 0 <= m < types ==> ListOk(lists[o][m], page, lo, hi, o, m))
    && (forall p :: lo <= p < hi && page[p].buddy ==> page[p].order < |lists| && page[p].mtype < types)
  }

  lemma LinkOk(lists: Lists, page: seq<Page>, lo: nat, hi: nat, types: nat, p: nat, o: nat, m: nat)
    requires Linked(lists, page, lo, hi, types)
    requires lo <= p < hi && !page[p].buddy && o < |lists| && m < types
    ensures Linked(lists[o := lists[o][m := [p] + lists[o][m]]], page[p := Page(true, o, m)], lo, hi, types)
    ensures BlocksOf(page[p := Page(true, o, m)], lo, hi) == BlocksOf(page, lo, hi)[p := o]
  {
    var lists' := lists[o := lists[o][m := [p] + lists[o][m]]];
    var page' := page[p := Page(true, o, m)];
    forall j, k | 0 <= j < |lists| && 0 <= k < types
      ensures ListOk(lists'[j][k], page', lo, hi, j, k)
    {
      assert ListOk(lists[j][k], page, lo, hi, j, k);
      if j == o && k == m { assert lists'[j][k] == [p] + lists[o][m]; } else { assert lists'[j][k] == lists[j][k]; }
    }
  }

  lemma UnlinkOk(lists: Lists, page: seq<Page>, lo: nat, hi: nat, types: nat, p: nat, pg: Page)
    requires Linked(lists, page, lo, hi, types)
    requires lo <= p < hi && page[p].buddy && !pg.buddy
    ensures var o, m := page[p].order, page[p].mtype;
            && p in lists[o][m]
            && Linked(lists[o := lists[o][m := Delete(lists[o][m], p)]], page[p := pg], lo, hi, types)
            && |Delete(lists[o][m], p)| == |lists[o][m]| - 1
    ensures BlocksOf(page[p := pg], lo, hi) == BlocksOf(page, lo, hi) - {p}
  {
    var o, m := page[p].order, page[p].mtype;
    assert ListOk(lists[o][m], page, lo, hi, o, m);
    DeleteFromList(lists[o][m], p);
    var l := Delete(lists[o][m], p);
    var lists' := lists[o := lists[o][m := l]];
    var page' := page[p := pg];
    forall j, k | 0 <= j < |lists| && 0 <= k < types
      ensures ListOk(lists'[j][k], page', lo, hi, j, k)
    {
      assert ListOk(lists[j][k], page, lo, hi, j, k);
      if j == o && k == m { assert lists'[j][k] == l; } else { assert lists'[j][k] == lists[j][k]; }
    }
  }

  // ---- Zone state ----

  datatype Config = Config(
    start: nat,
    end: nat,
    top: nat,                   // MAX_ORDER - 1
    types: nat,                 // MIGRATE_TYPES
    fallbacks: seq<seq<nat>>    // per type, the types to borrow from; entry `types` ends a row
  )
  {
    predicate Ok()
    {
      && start <= end && Aligned(start, top) && Aligned(end, top)
      && |fallbacks| == types
      && (forall t :: 0 <= t < types ==> |fallbacks[t]| == types)
      && (forall t, i :: 0 <= t < types && 0 <= i < types ==> fallbacks[t][i] <= types)
    }
  }

  datatype State = State(
    page: seq<Page>,            // mem_map
    lists: Lists,               // free_area[order].free_list[type]
    nrFree: seq<nat>,           // free_area[order].nr_free
    nrFreePages: nat,
    maxFreeOrder: nat,
    bitmap: seq<set<nat>>       // free_area_bitmap[order]
  )

  ghost predicate Agrees(s: State, c: Config)
  {
    c.Ok() && |s.lists| == c.top + 1 && Linked(s.lists, s.page, c.start, c.end, c.types)
  }

  ghost function BlocksIn(s: State, c: Config): Blocks
    requires c.end <= |s.page|
  {
    BlocksOf(s.page, c.start, c.end)
  }

  /** The free frames of the zone. */
  ghost function FreeIn(s: State, c: Config): set<int>
    requires c.end <= |s.page|
  {
    FreePages(BlocksIn(s, c), c.start, c.end)
  }

  /** Counters agree with the lists. */
  ghost predicate ListCounted(s: State)
  {
    && |s.nrFree| == |s.lists|
    && (forall o :: 0 <= o < |s.nrFree| ==> s.nrFree[o] == TotalLen(s.lists[o]))
    && s.nrFreePages == FoundFree(s.lists)
  }

  /** Counters agree with the lists and with the number of free frames. */
  ghost predicate Counted(s: State, c: Config)
    requires c.end <= |s.page|
  {
    ListCounted(s) && s.nrFreePages == |FreeIn(s, c)|
  }

  /** The filters never rule out a non-empty list or a free block. */
  ghost predicate Filters(s: State, c: Config)
    requires Agrees(s, c)
  {
    && |s.bitmap| == |s.lists|
    && (forall o, m :: 0 <= o < |s.lists| && 0 <= m < c.types && s.lists[o][m] != [] ==> m in s.bitmap[o])
    && (forall p :: p in BlocksIn(s, c) ==> BlocksIn(s, c)[p] <= s.maxFreeOrder)
  }

  /**
    The zone invariant: lists and flags agree, counters are right, filters are safe, and the
    free blocks are aligned, disjoint, inside the zone and without free buddy pairs.
   */
  ghost predicate ValidState(s: State, c: Config)
  {
    && Agrees(s, c)
    && Counted(s, c)
    && Filters(s, c)
    && Canonical(BlocksIn(s, c), c.start, c.end, c.top)
  }

  /** What even a zone in which free blocks overlap satisfies: lists, flags, counters and filters agree. */
  ghost predicate Consistent(s: State, c: Config)
  {
    Agrees(s, c) && ListCounted(s) && Filters(s, c)
  }

  /** Block p of the given order may be put on a free list. */
  ghost predicate MayLink(s: State, c: Config, p: nat, order: nat)
    requires ValidState(s, c)
  {
    && Aligned(p, order) && order <= c.top && c.start <= p && p + Pow2(order) <= c.end
    && Uncovered(BlocksIn(s, c), p, order)
    && (order < c.top ==> !IsFreeBuddy(BlocksIn(s, c), p, order))
  }

  function Linking(s: State, p: nat, o: nat, m: nat): State
    requires p < |s.page| && o < |s.lists| == |s.nrFree| == |s.bitmap| && m < |s.lists[o]|
  {
    State(s.page[p := Page(true, o, m)],
          s.lists[o := s.lists[o][m := [p] + s.lists[o][m]]],
          s.nrFree[o := s.nrFree[o] + 1],
          s.nrFreePages + Pow2(o),
          if o > s.maxFreeOrder then o else s.maxFreeOrder,
          s.bitmap[o := s.bitmap[o] + {m}])
  }

  /** Changing one list by d elements changes the counts of its order accordingly. */
  lemma ListCounts(lists: Lists, nrFree: seq<nat>, o: nat, m: nat, l: seq<nat>)
    requires |nrFree| == |lists| && o < |lists| && m < |lists[o]|
    requires forall j :: 0 <= j < |lists| ==> nrFree[j] == TotalLen(lists[j])
    ensures var lists', d := lists[o := lists[o][m := l]], |l| - |lists[o][m]|;
            && FoundFree(lists') == FoundFree(lists) + Pow2(o) * d
            && TotalLen(lists'[o]) == nrFree[o] + d
            && (forall j :: 0 <= j < |lists| && j != o ==> nrFree[j] == TotalLen(lists'[j]))
  {
    hide TotalLen, FoundFree, Pow2;
    TotalLenUpdate(lists[o], m, l);
    FoundFreeUpdate(lists, o, lists[o][m := l], |l| - |lists[o][m]|);
  }

  lemma LinkCover(s: State, c: Config, p: nat, o: nat, m: nat)
    requires ValidState(s, c) && MayLink(s, c, p, o) && m < c.types
    ensures !s.page[p].buddy
    ensures BlocksIn(Linking(s, p, o, m), c) == BlocksIn(s, c)[p := o]
    ensures FreeIn(Linking(s, p, o, m), c) == FreeIn(s, c) + Range(p, o)
    ensures |FreeIn(Linking(s, p, o, m), c)| == |FreeIn(s, c)| + Pow2(o)
  {
    hide ListOk, WellFormed, NoBuddyPairs, TotalLen, FoundFree, IsFreeBuddy, Filters, Counted, Uncovered, FreePages;
    AddCover(BlocksIn(s, c), p, o, c.start, c.end);
    IntervalSize(p, p + Pow2(o));
    LinkOk(s.lists, s.page, c.start, c.end, c.types, p, o, m);
  }

  lemma LinkCounted(s: State, c: Config, p: nat, o: nat, m: nat)
    requires ValidState(s, c) && MayLink(s, c, p, o) && m < c.types
    ensures Counted(Linking(s, p, o, m), c)
  {
    hide ListOk, WellFormed, NoBuddyPairs, Uncovered, IsFreeBuddy, FreeIn, TotalLen, FoundFree;
    LinkCover(s, c, p, o, m);
    ListCounts(s.lists, s.nrFree, o, m, [p] + s.lists[o][m]);
  }

  /** Putting an uncovered block without a free buddy on its list keeps the zone valid. */
  lemma LinkValid(s: State, c: Config, p: nat, o: nat, m: nat)
    requires ValidState(s, c) && MayLink(s, c, p, o) && m < c.types
    ensures ValidState(Linking(s, p, o, m), c)
    ensures BlocksIn(Linking(s, p, o, m), c) == BlocksIn(s, c)[p := o]
    ensures FreeIn(Linking(s, p, o, m), c) == FreeIn(s, c) + Range(p, o)
  {
    hide ListOk, WellFormed, NoBuddyPairs, Uncovered, IsFreeBuddy, FoundFree, TotalLen, FreePages;
    LinkCover(s, c, p, o, m);
    LinkCounted(s, c, p, o, m);
    LinkOk(s.lists, s.page, c.start, c.end, c.types, p, o, m);
    AddBlock(BlocksIn(s, c), p, o, c.start, c.end, c.top);
    var s' := Linking(s, p, o, m);
    forall j, k | 0 <= j < |s.lists| && 0 <= k < c.types && s'.lists[j][k] != []
      ensures k in s'.bitmap[j]
    {
      if j == o && k == m { } else { assert s'.lists[j][k] == s.lists[j][k]; }
    }
  }

  function Unlinking(s: State, p: nat, pg: Page): State
    requires p < |s.page|
    requires s.page[p].order < |s.lists| == |s.nrFree| && s.page[p].mtype < |s.lists[s.page[p].order]|
    requires s.nrFree[s.page[p].order] > 0 && s.nrFreePages >= Pow2(s.page[p].order)
  {
    var o, m := s.page[p].order, s.page[p].mtype;
    s.(page := s.page[p := pg],
       lists := s.lists[o := s.lists[o][m := Delete(s.lists[o][m], p)]],
       nrFree := s.nrFree[o := s.nrFree[o] - 1],
       nrFreePages := s.nrFreePages - Pow2(o))
  }

  lemma HeadIsListed(s: State, c: Config, p: nat)
    requires Agrees(s, c) && p in BlocksIn(s, c)
    ensures s.page[p].order <= c.top && s.page[p].mtype < c.types
    ensures p in s.lists[s.page[p].order][s.page[p].mtype]
    ensures TotalLen(s.lists[s.page[p].order]) > 0
  {
    var o, m := s.page[p].order, s.page[p].mtype;
    assert ListOk(s.lists[o][m], s.page, c.start, c.end, o, m);
    if TotalLen(s.lists[o]) == 0 { TotalLenZero(s.lists[o], m); }
  }

  lemma HeadIsCounted(s: State, c: Config, p: nat)
    requires ValidState(s, c) && p in BlocksIn(s, c)
    ensures s.nrFreePages >= Pow2(s.page[p].order)
  {
    hide ListOk, WellFormed, NoBuddyPairs, Uncovered, FoundFree, TotalLen;
    var o := s.page[p].order;
    RemoveBlock(BlocksIn(s, c), p, c.start, c.end, c.top);
    SubsetSize(Range(p, o), FreeIn(s, c));
    IntervalSize(p, p + Pow2(o));
  }

  lemma SubsetSize<T>(a: set<T>, b: set<T>)
    requires a <= b
    ensures |a| <= |b| && |b - a| == |b| - |a|
  {
    assert b == a + (b - a);
  }

  lemma UnlinkCover(s: State, c: Config, p: nat, pg: Page)
    requires ValidState(s, c) && p in BlocksIn(s, c) && !pg.buddy
    ensures c.end <= |s.page[p := pg]|
    ensures BlocksOf(s.page[p := pg], c.start, c.end) == BlocksIn(s, c) - {p}
    ensures var free' := FreePages(BlocksIn(s, c) - {p}, c.start, c.end);
            && free' == FreeIn(s, c) - Range(p, s.page[p].order)
            && |free'| == |FreeIn(s, c)| - Pow2(s.page[p].order)
  {
    hide ListOk, WellFormed, NoBuddyPairs, Uncovered, TotalLen, FoundFree, Filters, Counted, FreePages;
    var o := s.page[p].order;
    RemoveBlock(BlocksIn(s, c), p, c.start, c.end, c.top);
    SubsetSize(Range(p, o), FreeIn(s, c));
    IntervalSize(p, p + Pow2(o));
    UnlinkOk(s.lists, s.page, c.start, c.end, c.types, p, pg);
  }

  lemma UnlinkCounted(s: State, c: Config, p: nat, pg: Page)
    requires ValidState(s, c) && p in BlocksIn(s, c) && !pg.buddy
    requires s.page[p].order <= c.top && s.page[p].mtype < c.types
    requires s.nrFree[s.page[p].order] > 0 && s.nrFreePages >= Pow2(s.page[p].order)
    ensures Counted(Unlinking(s, p, pg), c)
    ensures BlocksIn(Unlinking(s, p, pg), c) == BlocksIn(s, c) - {p}
    ensures FreeIn(Unlinking(s, p, pg), c) == FreeIn(s, c) - Range(p, s.page[p].order)
  {
    hide ListOk, WellFormed, NoBuddyPairs, Uncovered, TotalLen, FoundFree, FreePages;
    var o, m := s.page[p].order, s.page[p].mtype;
    UnlinkCover(s, c, p, pg);
    UnlinkOk(s.lists, s.page, c.start, c.end, c.types, p, pg);
    ListCounts(s.lists, s.nrFree, o, m, Delete(s.lists[o][m], p));
  }

  /** Taking a block off its list uncovers exactly its frames and keeps the zone valid. */
  lemma UnlinkValid(s: State, c: Config, p: nat, pg: Page)
    requires ValidState(s, c) && p in BlocksIn(s, c) && !pg.buddy
    ensures s.page[p].order <= c.top && s.page[p].mtype < c.types
    ensures s.nrFree[s.page[p].order] > 0 && s.nrFreePages >= Pow2(s.page[p].order)
    ensures ValidState(Unlinking(s, p, pg), c)
    ensures BlocksIn(Unlinking(s, p, pg), c) == BlocksIn(s, c) - {p}
    ensures Uncovered(BlocksIn(s, c) - {p}, p, s.page[p].order)
    ensures Range(p, s.page[p].order) <= FreeIn(s, c)
    ensures FreeIn(Unlinking(s, p, pg), c) == FreeIn(s, c) - Range(p, s.page[p].order)
  {
    hide ListOk, WellFormed, NoBuddyPairs, Uncovered, FoundFree, TotalLen, FreePages;
    HeadIsListed(s, c, p);
    HeadIsCounted(s, c, p);
    UnlinkCounted(s, c, p, pg);
    UnlinkOk(s.lists, s.page, c.start, c.end, c.types, p, pg);
    RemoveBlock(BlocksIn(s, c), p, c.start, c.end, c.top);
    var s' := Unlinking(s, p, pg);
    forall j, k | 0 <= j < |s.lists| && 0 <= k < c.types && s'.lists[j][k] != []
      ensures k in s'.bitmap[j]
    {
      var o, m := s.page[p].order, s.page[p].mtype;
      if j == o && k == m { assert s.lists[j][k] != []; } else { assert s'.lists[j][k] == s.lists[j][k]; }
    }
  }

  // ---- Lists without regard to overlap ----

  lemma LinkConsistent(s: State, c: Config, p: nat, o: nat, m: nat)
    requires Consistent(s, c) && c.start <= p < c.end && !s.page[p].buddy && o <= c.top && m < c.types
    ensures Consistent(Linking(s, p, o, m), c)
    ensures BlocksIn(Linking(s, p, o, m), c) == BlocksIn(s, c)[p := o]
  {
    hide ListOk, FoundFree, TotalLen;
    LinkOk(s.lists, s.page, c.start, c.end, c.types, p, o, m);
    ListCounts(s.lists, s.nrFree, o, m, [p] + s.lists[o][m]);
    var s' := Linking(s, p, o, m);
    assert Agrees(s', c) && ListCounted(s');
    forall q | q in BlocksIn(s', c)
      ensures BlocksIn(s', c)[q] <= s'.maxFreeOrder
    {
      assert q != p ==> q in BlocksIn(s, c) && BlocksIn(s, c)[q] <= s.maxFreeOrder;
    }
    forall j, k | 0 <= j < |s.lists| && 0 <= k < c.types && s'.lists[j][k] != []
      ensures k in s'.bitmap[j]
    {
      if j == o && k == m { } else { assert s'.lists[j][k] == s.lists[j][k]; }
    }
  }

  lemma {:induction false} FoundFreeAtLeast(lists: Lists, o: nat)
    requires o < |lists| && TotalLen(lists[o]) > 0
    ensures FoundFree(lists) >= Pow2(o)
  {
    hide Pow2, TotalLen;
    var n := |lists| - 1;
    MulAtLeast(Pow2(n), TotalLen(lists[n]));
    if o < n {
      FoundFreeAtLeast(lists[..n], o);
      assert lists[..n][o] == lists[o];
    }
  }

  lemma MulAtLeast(a: nat, b: nat)
    ensures a * b >= 0 && (b > 0 ==> a * b >= a)
  {
    if b > 0 { assert a * b == a * (b - 1) + a; }
  }

  lemma UnlinkConsistent(s: State, c: Config, p: nat, pg: Page)
    requires Consistent(s, c) && p in BlocksIn(s, c) && !pg.buddy
    ensures s.page[p].order <= c.top && s.page[p].mtype < c.types
    ensures s.nrFree[s.page[p].order] > 0 && s.nrFreePages >= Pow2(s.page[p].order)
    ensures Consistent(Unlinking(s, p, pg), c)
    ensures BlocksIn(Unlinking(s, p, pg), c) == BlocksIn(s, c) - {p}
  {
    hide ListOk, FoundFree, TotalLen;
    HeadIsListed(s, c, p);
    var o, m := s.page[p].order, s.page[p].mtype;
    FoundFreeAtLeast(s.lists, o);
    UnlinkOk(s.lists, s.page, c.start, c.end, c.types, p, pg);
    ListCounts(s.lists, s.nrFree, o, m, Delete(s.lists[o][m], p));
    var s' := Unlinking(s, p, pg);
    forall j, k | 0 <= j < |s.lists| && 0 <= k < c.types && s'.lists[j][k] != []
      ensures k in s'.bitmap[j]
    {
      if j == o && k == m { assert s.lists[j][k] != []; } else { assert s'.lists[j][k] == s.lists[j][k]; }
    }
  }

  lemma ValidIsConsistent(s: State, c: Config)
    requires ValidState(s, c)
    ensures Consistent(s, c)
  {
  }

  /** A block some of whose frames are free shares one with a block on the lists. */
  lemma Overlap(s: State, c: Config, p: nat, order: nat) returns (q: nat, x: int)
    requires ValidState(s, c) && c.start <= p && p + Pow2(order) <= c.end
    ensures if Range(p, order) !! FreeIn(s, c) then Uncovered(BlocksIn(s, c), p, order)
            else Contains(BlocksIn(s, c), q, x) && x in Range(p, order)
  {
    hide ListOk, Counted, Filters, Canonical;
    q, x := 0, 0;
    if Range(p, order) !! FreeIn(s, c) {
      UncoveredIfApart(BlocksIn(s, c), p, order, c.start, c.end);
    } else {
      x :| x in Range(p, order) && x in FreeIn(s, c);
      q :| Contains(BlocksIn(s, c), q, x);
    }
  }

  /** Two blocks that share a frame are no well-formed block set. */
  lemma OverlapIsInvalid(F: Blocks, p: nat, o: nat, q: nat, x: int, c: Config)
    requires Contains(F, q, x) && x in Range(p, o) && p !in F
    ensures !Canonical(F[p := o], c.start, c.end, c.top)
  {
    assert p in F[p := o] && q in F[p := o];
  }

  /**
    Block p of order o is being freed: it is on no list.  If its frames are not free the zone is valid without it;
    otherwise block q, on a list, shares frame x with it.
   */
  ghost predicate Freeing(s: State, c: Config, p: nat, o: nat, fine: bool, q: nat, x: int)
  {
    && Consistent(s, c)
    && o <= c.top && Aligned(p, o) && c.start <= p && p + Pow2(o) <= c.end && !s.page[p].buddy
    && (if fine then ValidState(s, c) && Uncovered(BlocksIn(s, c), p, o)
         else Contains(BlocksIn(s, c), q, x) && x in Range(p, o))
  }

  lemma MergeOverlap(F: Blocks, p: nat, o: nat, b: nat, q: nat, x: int)
    requires AreBuddies(p, b, o) && b in F && F[b] == o && Contains(F, q, x) && x in Range(p, o)
    ensures Contains(F - {b}, q, x) && x in Range(And(b, p), o + 1)
  {
    hide And;
  }

  /** Taking the buddy b of the block being freed off its list makes the two one block that is being freed. */
  lemma MergeFrees(s: State, c: Config, p: nat, o: nat, b: nat, pg: Page, fine: bool, q: nat, x: int)
    requires Freeing(s, c, p, o, fine, q, x) && o < c.top && b == FindBuddy(p, o) && b in BlocksIn(s, c)
             && BlocksIn(s, c)[b] == o
    requires !pg.buddy
    ensures s.page[b].order <= c.top && s.page[b].mtype < c.types
    ensures s.nrFree[s.page[b].order] > 0 && s.nrFreePages >= Pow2(s.page[b].order)
    ensures var s' := Unlinking(s, b, pg);
            && Freeing(s', c, And(b, p), o + 1, fine, q, x)
            && (fine ==> FreeIn(s', c) + Range(And(b, p), o + 1) == FreeIn(s, c) + Range(p, o))
  {
    hide ListOk, Counted, Filters, Canonical, FreePages, Uncovered, Aligned, FindBuddy, And;
    BuddyInZone(c, p, o);
    BuddyFacts(p, o);
    UnlinkConsistent(s, c, b, pg);
    var s' := Unlinking(s, b, pg);
    if fine {
      UnlinkValid(s, c, b, pg);
      MergeStep(BlocksIn(s, c), BlocksIn(s', c), c, p, o);
    } else {
      MergeOverlap(BlocksIn(s, c), p, o, b, q, x);
    }
  }

  lemma PutBackValid(s: State, c: Config, p: nat, o: nat, m: nat, fine: bool, q: nat, x: int)
    requires Freeing(s, c, p, o, fine, q, x) && m < c.types && (o < c.top ==> !IsFreeBuddy(BlocksIn(s, c), p, o))
    ensures var s' := Linking(s, p, o, m);
            && Consistent(s', c) && (ValidState(s', c) <==> fine)
            && (fine ==> FreeIn(s', c) == FreeIn(s, c) + Range(p, o))
  {
    hide ListOk, Counted, ListCounted, Filters, Canonical, FreePages, Uncovered, Aligned, IsFreeBuddy;
    LinkConsistent(s, c, p, o, m);
    if fine { LinkValid(s, c, p, o, m); } else { OverlapIsInvalid(BlocksIn(s, c), p, o, q, x, c); }
  }

  /** A flagged head is a free frame. */
  lemma HeadIsFree(s: State, c: Config, p: nat)
    requires ValidState(s, c) && c.start <= p < c.end
    ensures p < |s.page| && (s.page[p].buddy ==> p in FreeIn(s, c))
  {
    HeadIsCovered(BlocksIn(s, c), p);
  }

  // ---- Splitting ----

  lemma UncoveredIsNotFree(F: Blocks, p: nat, order: nat, lo: nat, hi: nat)
    requires lo <= p && p + Pow2(order) <= hi
    ensures Uncovered(F, p, order) <==> Range(p, order) !! FreePages(F, lo, hi)
  {
    forall x: int | p <= x < p + Pow2(order)
      ensures Covered(F, x) <==> x in FreePages(F, lo, hi)
    {
    }
    if Range(p, order) !! FreePages(F, lo, hi) {
      forall x: int | p <= x < p + Pow2(order) ensures !Covered(F, x) { assert x in Range(p, order); }
    }
  }

  /** Of an uncovered block of order h, the upper half may be linked. */
  lemma UpperHalfMayLink(s: State, c: Config, p: nat, h: nat)
    requires ValidState(s, c) && 0 < h <= c.top
    requires Aligned(p, h) && c.start <= p && p + Pow2(h) <= c.end && Uncovered(BlocksIn(s, c), p, h)
    ensures Aligned(p, h - 1) && MayLink(s, c, p + Pow2(h - 1), h - 1)
  {
    hide ListOk, Counted, Filters, Canonical, Covered;
    HalvesAreBuddies(p, h - 1);
    HeadIsCovered(BlocksIn(s, c), p);
    assert !Covered(BlocksIn(s, c), p);
  }

  lemma LowerHalfStaysUncovered(F: Blocks, G: Blocks, p: nat, h: nat, lo: nat, hi: nat)
    requires h > 0 && lo <= p && p + Pow2(h) <= hi && Uncovered(F, p, h)
    requires FreePages(G, lo, hi) == FreePages(F, lo, hi) + Range(p + Pow2(h - 1), h - 1)
    ensures Uncovered(G, p, h - 1)
    ensures Range(p, h) == Range(p, h - 1) + Range(p + Pow2(h - 1), h - 1)
  {
    UncoveredIsNotFree(F, p, h, lo, hi);
    UncoveredIsNotFree(G, p, h - 1, lo, hi);
    hide FreePages, Uncovered;
    assert Range(p, h) == Range(p, h - 1) + Range(p + Pow2(h - 1), h - 1);
  }

  // ---- The search ----

  /** Row entry i of type m's fallback row names a type, and no end mark precedes it. */
  predicate InRow(c: Config, m: nat, i: nat)
    requires c.Ok() && m < c.types
  {
    i < c.types && c.fallbacks[m][i] < c.types && (forall k :: 0 <= k < i ==> c.fallbacks[m][k] != c.types)
  }

  /** The request's own lists, from the given order up, are all empty. */
  ghost predicate OwnEmpty(s: State, c: Config, order: nat, m: nat)
    requires Agrees(s, c) && m < c.types
  {
    forall k :: order <= k <= c.top ==> s.lists[k][m] == []
  }

  /** Every list of order k that the request may borrow from, up to row entry n, is empty. */
  ghost predicate RowEmpty(s: State, c: Config, k: nat, m: nat, n: nat)
    requires Agrees(s, c) && m < c.types && k <= c.top
  {
    forall i :: 0 <= i < n && InRow(c, m, i) ==> s.lists[k][c.fallbacks[m][i]] == []
  }

  ghost predicate BorrowEmptyAbove(s: State, c: Config, order: int, m: nat)
    requires Agrees(s, c) && m < c.types
  {
    forall k :: 0 <= k <= c.top && order <= k ==> RowEmpty(s, c, k, m, c.types)
  }

  /** No list that serves the request holds a block of sufficient order. */
  ghost predicate Exhausted(s: State, c: Config, order: nat, m: nat)
    requires Agrees(s, c) && m < c.types
  {
    OwnEmpty(s, c, order, m) && BorrowEmptyAbove(s, c, order, m)
  }

  /** p heads the list of order k of the request's own type, the least sufficient order. */
  ghost predicate OwnChoice(s: State, c: Config, order: nat, m: nat, k: nat, p: nat)
    requires Agrees(s, c) && m < c.types
  {
    && order <= k <= c.top
    && (forall j :: order <= j < k ==> s.lists[j][m] == [])
    && s.lists[k][m] != [] && s.lists[k][m][0] == p
  }

  /** p heads the list to borrow from: the greatest order, and at that order the first type of the row. */
  ghost predicate BorrowChoice(s: State, c: Config, order: nat, m: nat, k: nat, i: nat, p: nat)
    requires Agrees(s, c) && m < c.types
  {
    && order <= k <= c.top && InRow(c, m, i)
    && BorrowEmptyAbove(s, c, k + 1, m)
    && RowEmpty(s, c, k, m, i)
    && s.lists[k][c.fallbacks[m][i]] != [] && s.lists[k][c.fallbacks[m][i]][0] == p
  }

  lemma ListHeadIsBlock(s: State, c: Config, k: nat, t: nat)
    requires ValidState(s, c) && k <= c.top && t < c.types && s.lists[k][t] != []
    ensures var p := s.lists[k][t][0];
            && p in BlocksIn(s, c) && BlocksIn(s, c)[p] == k
            && c.start <= p && p + Pow2(k) <= c.end && Aligned(p, k)
            && Range(p, k) <= FreeIn(s, c)
  {
    hide Counted, Filters, FoundFree, TotalLen;
    var p := s.lists[k][t][0];
    assert ListOk(s.lists[k][t], s.page, c.start, c.end, k, t);
    assert p in s.lists[k][t];
    assert BlockOk(BlocksIn(s, c), p, c.start, c.end, c.top);
    RemoveBlock(BlocksIn(s, c), p, c.start, c.end, c.top);
  }

  lemma UncoveredHead(s: State, c: Config, p: nat, order: nat)
    requires ValidState(s, c) && c.start <= p && p + Pow2(order) <= c.end && Uncovered(BlocksIn(s, c), p, order)
    ensures p < |s.page| && !s.page[p].buddy
  {
    hide ListOk, Counted, Filters, Canonical, Covered;
    assert !Covered(BlocksIn(s, c), p);
    HeadIsCovered(BlocksIn(s, c), p);
  }

  /** A request above the order bound finds nothing, whatever its type. */
  lemma SkipIsSafe(s: State, c: Config, order: nat, m: nat)
    requires ValidState(s, c) && m < c.types && order > s.maxFreeOrder
    ensures Exhausted(s, c, order, m)
  {
    forall k, t | order <= k <= c.top && 0 <= t < c.types
      ensures s.lists[k][t] == []
    {
      if s.lists[k][t] != [] {
        ListHeadIsBlock(s, c, k, t);
        assert false;
      }
    }
  }

  // ---- Merging ----

  /** Zone boundaries are aligned to the top order, so a buddy below it never leaves the zone. */
  lemma BuddyInZone(c: Config, p: nat, o: nat)
    requires c.Ok() && o < c.top && Aligned(p, o) && c.start <= p && p + Pow2(o) <= c.end
    ensures var b := FindBuddy(p, o);
            && c.start <= b && b + Pow2(o) <= c.end && Aligned(b, o)
            && c.start <= And(b, p) && And(b, p) + Pow2(o + 1) <= c.end && Aligned(And(b, p), o + 1)
  {
    BuddyFacts(p, o);
    var u := And(FindBuddy(p, o), p);
    AlignedDown(c.start, o + 1, c.top);
    AlignedDown(c.end, o + 1, c.top);
    NestedOrDisjoint(u, o + 1, c.start, o + 1);
    NestedOrDisjoint(u, o + 1, c.end, o + 1);
  }

  lemma MergeStep(F: Blocks, G: Blocks, c: Config, p: nat, o: nat)
    requires c.Ok() && o < c.top && Aligned(p, o) && c.start <= p && p + Pow2(o) <= c.end
    requires Uncovered(F, p, o)
    requires Range(FindBuddy(p, o), o) <= FreePages(F, c.start, c.end)
    requires FreePages(G, c.start, c.end) == FreePages(F, c.start, c.end) - Range(FindBuddy(p, o), o)
    ensures var u := And(FindBuddy(p, o), p);
            && Uncovered(G, u, o + 1)
            && FreePages(G, c.start, c.end) + Range(u, o + 1) == FreePages(F, c.start, c.end) + Range(p, o)
  {
    BuddyFacts(p, o);
    BuddyInZone(c, p, o);
    var b := FindBuddy(p, o);
    var u := And(b, p);
    UncoveredIsNotFree(F, p, o, c.start, c.end);
    UncoveredIsNotFree(G, u, o + 1, c.start, c.end);
    hide FreePages, Uncovered, And, FindBuddy, Aligned;
    assert Range(u, o + 1) == Range(p, o) + Range(b, o);
  }

  // ---- Whole-zone results ----

  /**
    Whatever the search split or stole to serve a request, freeing the block again leads to
    the same set of free blocks.
   */
  lemma AllocFreeRoundTrip(s0: State, s1: State, s2: State, c: Config, p: nat, order: nat)
    requires ValidState(s0, c) && ValidState(s1, c) && ValidState(s2, c)
    requires Range(p, order) <= FreeIn(s0, c)
    requires FreeIn(s1, c) == FreeIn(s0, c) - Range(p, order)
    requires FreeIn(s2, c) == FreeIn(s1, c) + Range(p, order)
    ensures BlocksIn(s2, c) == BlocksIn(s0, c)
  {
    hide ListOk, Counted, Filters, FreePages;
    CanonicalUnique(BlocksIn(s2, c), BlocksIn(s0, c), c.start, c.end, c.top);
  }

  /**
    When a whole pageblock is stolen, the scan over its frames for further blocks of the same
    type finds none: no other block starts inside the stolen one.
   */
  lemma StealScanFindsNothing(s: State, c: Config, p: nat, pageblockOrder: nat, x: nat)
    requires ValidState(s, c) && p in BlocksIn(s, c)
    requires pageblockOrder <= s.page[p].order
    requires p < x < p + Pow2(pageblockOrder)
    ensures x < c.end && !s.page[x].buddy
  {
    hide ListOk, Counted, Filters, NoBuddyPairs;
    assert BlockOk(BlocksIn(s, c), p, c.start, c.end, c.top);
    Pow2Monotone(pageblockOrder, s.page[p].order);
    assert x !in BlocksIn(s, c);
  }

  function InitialState(c: Config, page: seq<Page>): State
  {
    State(page, seq(c.top + 1, o => seq(c.types, m => [])), seq(c.top + 1, o => 0), 0, 0, seq(c.top + 1, o => {}))
  }

  lemma {:induction false} EmptyLists(lists: Lists)
    requires forall o, m :: 0 <= o < |lists| && 0 <= m < |lists[o]| ==> lists[o][m] == []
    ensures FoundFree(lists) == 0
    ensures forall o :: 0 <= o < |lists| ==> TotalLen(lists[o]) == 0
  {
    forall o | 0 <= o < |lists| ensures TotalLen(lists[o]) == 0 { EmptyTotal(lists[o]); }
    if lists != [] {
      EmptyLists(lists[..|lists| - 1]);
      EmptyTotal(lists[|lists| - 1]);
    }
  }

  lemma {:induction false} EmptyTotal(ls: seq<seq<nat>>)
    requires forall m :: 0 <= m < |ls| ==> ls[m] == []
    ensures TotalLen(ls) == 0
  {
    if ls != [] { EmptyTotal(ls[..|ls| - 1]); }
  }

  /** The zone with all frames in use is valid, and a request of order 0 on it is the overrun case. */
  lemma InitialValid(c: Config, page: seq<Page>)
    requires c.Ok() && c.end <= |page|
    requires forall p :: c.start <= p < c.end ==> !page[p].buddy
    ensures ValidState(InitialState(c, page), c)
    ensures FreeIn(InitialState(c, page), c) == {}
    ensures forall order: nat, m: nat :: m < c.types ==> Exhausted(InitialState(c, page), c, order, m)
  {
    var s := InitialState(c, page);
    EmptyLists(s.lists);
    assert BlocksIn(s, c) == map[];
    forall x: int ensures !Covered(BlocksIn(s, c), x) { }
    assert FreeIn(s, c) == {};
  }

  // ---- The zone ----

  class Zone {
    const c: Config
    var page: seq<Page>
    var freeList: Lists
    var nrFree: seq<nat>
    var nrFreePages: nat
    var maxFreeOrder: nat
    var bitmap: seq<set<nat>>
    ghost var live: Blocks      // blocks handed out and not returned
    ghost var kept: set<int>    // frames never given to the allocator

    ghost function S(): State
      reads this
    {
      State(page, freeList, nrFree, nrFreePages, maxFreeOrder, bitmap)
    }

    ghost predicate Valid()
      reads this
    {
      ValidState(S(), c)
    }

    ghost function Blocks(): Blocks
      reads this
      requires Valid()
    {
      BlocksIn(S(), c)
    }

    ghost function Free(): set<int>
      reads this
      requires Valid()
    {
      FreeIn(S(), c)
    }

    /** The zone is valid and every frame is free, in one live block, or kept. */
    ghost predicate Accounted()
      reads this
    {
      Valid() && Ledger(live, kept, Free(), c.start, c.end, c.top)
    }

    /** Page structures outside the zone are as they were. */
    twostate predicate OutsideUntouched()
      reads this
    {
      && |page| == |old(page)|
      && (forall p :: 0 <= p < |page| && !(c.start <= p < c.end) ==> page[p] == old(page)[p])
    }

    /** Put block p at the head of its list, whatever it overlaps. */
    method ListAdd(p: nat, order: nat, m: nat)
      requires Consistent(S(), c) && c.start <= p < c.end && !page[p].buddy && order <= c.top && m < c.types
      modifies this`page, this`freeList, this`nrFree, this`nrFreePages, this`maxFreeOrder, this`bitmap
      ensures S() == Linking(old(S()), p, order, m)
    {
      page := page[p := Page(true, order, m)];
      freeList := freeList[order := freeList[order][m := [p] + freeList[order][m]]];
      nrFree := nrFree[order := nrFree[order] + 1];
      bitmap := bitmap[order := bitmap[order] + {m}];
      nrFreePages := nrFreePages + Pow2(order);
      if order > maxFreeOrder { maxFreeOrder := order; }
    }

    /** Take block p off its list. */
    method ListDel(p: nat, newOrder: nat)
      requires Consistent(S(), c) && p in BlocksIn(S(), c)
      modifies this`page, this`freeList, this`nrFree, this`nrFreePages, this`maxFreeOrder, this`bitmap
      ensures page == old(page)[p := Page(false, newOrder, old(page[p].mtype))]
      ensures old(page[p].order) <= c.top && old(page[p].mtype) < c.types
      ensures old(nrFree[page[p].order]) > 0 && old(nrFreePages) >= Pow2(old(page[p].order))
      ensures S() == Unlinking(old(S()), p, Page(false, newOrder, old(page[p].mtype)))
    {
      var o, m := page[p].order, page[p].mtype;
      UnlinkConsistent(S(), c, p, Page(false, newOrder, m));
      freeList := freeList[o := freeList[o][m := Delete(freeList[o][m], p)]];
      page := page[p := Page(false, newOrder, m)];
      nrFree := nrFree[o := nrFree[o] - 1];
      nrFreePages := nrFreePages - Pow2(o);
    }

    method Link(p: nat, order: nat, m: nat)
      requires Valid() && MayLink(S(), c, p, order) && m < c.types
      modifies this`page, this`freeList, this`nrFree, this`nrFreePages, this`maxFreeOrder, this`bitmap
      ensures Valid() && OutsideUntouched()
      ensures Blocks() == old(Blocks())[p := order]
      ensures Free() == old(Free()) + Range(p, order)
    {
      hide ListOk, Canonical, Uncovered, IsFreeBuddy, FreeIn, BlocksIn, TotalLen, FoundFree;
      LinkValid(S(), c, p, order, m);
      LinkCover(S(), c, p, order, m);
      ListAdd(p, order, m);
    }

    method Unlink(p: nat, newOrder: nat)
      requires Valid() && p in Blocks()
      modifies this`page, this`freeList, this`nrFree, this`nrFreePages, this`maxFreeOrder, this`bitmap
      ensures Valid() && OutsideUntouched()
      ensures Blocks() == old(Blocks()) - {p}
      ensures Range(p, old(Blocks())[p]) <= old(Free())
      ensures Free() == old(Free()) - Range(p, old(Blocks())[p])
      ensures Uncovered(Blocks(), p, old(Blocks())[p])
      ensures maxFreeOrder == old(maxFreeOrder)
    {
      hide ListOk, Canonical, Uncovered, FreeIn, TotalLen, FoundFree;
      UnlinkValid(S(), c, p, Page(false, newOrder, page[p].mtype));
      ListDel(p, newOrder);
    }

    method ClearFreeAreaBit(order: nat, m: nat)
      requires Valid() && order <= c.top && m < c.types
      modifies this`bitmap
      ensures Valid() && Blocks() == old(Blocks()) && Free() == old(Free())
    {
      hide ListOk, Canonical, FreePages, TotalLen, FoundFree;
      if freeList[order][m] == [] {
        bitmap := bitmap[order := bitmap[order] - {m}];
      }
    }

    /** Split the uncovered block p of order high down to order low, freeing the upper halves. */
    method Expand(p: nat, low: nat, high: nat, m: nat)
      requires Valid() && low <= high <= c.top && m < c.types
      requires Aligned(p, high) && c.start <= p && p + Pow2(high) <= c.end && Uncovered(Blocks(), p, high)
      modifies this`page, this`freeList, this`nrFree, this`nrFreePages, this`maxFreeOrder, this`bitmap
      ensures Valid() && OutsideUntouched()
      ensures Aligned(p, low) && p + Pow2(low) <= p + Pow2(high) && Uncovered(Blocks(), p, low)
      ensures Free() == old(Free()) + (Range(p, high) - Range(p, low))
    {
      hide ValidState, Uncovered, FreePages, BlocksOf;
      var h := high;
      while h > low
        invariant low <= h <= high
        invariant Valid() && OutsideUntouched()
        invariant Aligned(p, h) && p + Pow2(h) <= p + Pow2(high) && Uncovered(Blocks(), p, h)
        invariant Range(p, h) <= Range(p, high)
        invariant Free() == old(Free()) + (Range(p, high) - Range(p, h))
      {
        ghost var F := Blocks();
        UpperHalfMayLink(S(), c, p, h);
        h := h - 1;
        Link(p + Pow2(h), h, m);
        LowerHalfStaysUncovered(F, Blocks(), p, h + 1, c.start, c.end);
      }
    }

    /** Take the block that heads its list off it; in the main search, also lower the order bound. */
    method TakeHead(p: nat, k: nat, t: nat, lower: bool)
      requires Valid() && k <= c.top && t < c.types
      requires freeList[k][t] != [] && freeList[k][t][0] == p
      modifies this`page, this`freeList, this`nrFree, this`nrFreePages, this`maxFreeOrder, this`bitmap
      ensures Valid() && OutsideUntouched()
      ensures c.start <= p && p + Pow2(k) <= c.end && Aligned(p, k)
      ensures Uncovered(Blocks(), p, k) && Range(p, k) <= old(Free())
      ensures Free() == old(Free()) - Range(p, k)
    {
      hide ListOk, Linked, Canonical, Uncovered, FreeIn, BlocksIn, TotalLen, FoundFree, Filters;
      ListHeadIsBlock(S(), c, k, t);
      Unlink(p, k);
      ClearFreeAreaBit(k, t);
      if lower && k == maxFreeOrder && nrFree[k] == 0 {
        LowerMaxFreeOrder();
      }
    }

    /** Take the block that heads its list, of order k, and split it down to the requested order. */
    method Take(p: nat, k: nat, t: nat, order: nat, m: nat, lower: bool)
      requires Valid() && order <= k <= c.top && t < c.types && m < c.types
      requires freeList[k][t] != [] && freeList[k][t][0] == p
      modifies this`page, this`freeList, this`nrFree, this`nrFreePages, this`maxFreeOrder, this`bitmap
      ensures Valid() && OutsideUntouched()
      ensures c.start <= p && p + Pow2(order) <= c.end && Aligned(p, order) && p < |page|
      ensures !page[p].buddy && page[p].mtype == m
      ensures Range(p, order) <= old(Free())
      ensures Free() == old(Free()) - Range(p, order)
    {
      hide ValidState, Uncovered, FreeIn, BlocksIn;
      TakeHead(p, k, t, lower);
      Expand(p, order, k, m);
      Pow2Monotone(order, k);
      UncoveredHead(S(), c, p, order);
      SetMigrateType(p, m);
    }

    /** Lower the bound to the highest order that still has a block, or to zero. */
    method LowerMaxFreeOrder()
      requires Valid() && maxFreeOrder <= c.top
      modifies this`maxFreeOrder
      ensures Valid() && Blocks() == old(Blocks()) && Free() == old(Free())
    {
      hide ListOk, Canonical, FreePages, FoundFree, TotalLen;
      var o: nat := maxFreeOrder;
      while o > 0 && nrFree[o] == 0
        invariant o <= maxFreeOrder
        invariant forall p: nat :: p in Blocks() ==> Blocks()[p] <= o
      {
        forall p: nat | p in Blocks() ensures Blocks()[p] <= o - 1 { HeadIsListed(S(), c, p); }
        o := o - 1;
      }
      ghost var F := Blocks();
      maxFreeOrder := o;
      assert BlocksIn(S(), c) == F;
    }

    method SetMigrateType(p: nat, m: nat)
      requires Valid() && p < |page| && !page[p].buddy
      modifies this`page
      ensures Valid() && |page| == |old(page)|
      ensures page[p] == old(page[p]).(mtype := m)
      ensures forall q :: 0 <= q < |page| && q != p ==> page[q] == old(page)[q]
      ensures Blocks() == old(Blocks()) && Free() == old(Free())
    {
      hide Canonical, FreePages, FoundFree, TotalLen;
      ghost var page0 := page;
      page := page[p := page[p].(mtype := m)];
      assert BlocksOf(page, c.start, c.end) == BlocksOf(page0, c.start, c.end);
      forall j, k | 0 <= j < |freeList| && 0 <= k < c.types
        ensures ListOk(freeList[j][k], page, c.start, c.end, j, k)
      {
        assert ListOk(freeList[j][k], page0, c.start, c.end, j, k);
      }
    }

    /** What a search that returned r has done to the zone. */
    twostate predicate Served(r: Alloc, order: nat, m: nat)
      requires old(Valid()) && Valid()
      reads this
    {
      if r.Got? then
        && c.start <= r.pfn && r.pfn + Pow2(order) <= c.end && Aligned(r.pfn, order)
        && r.pfn < |page| && !page[r.pfn].buddy && page[r.pfn].mtype == m
        && Range(r.pfn, order) <= old(Free())
        && Free() == old(Free()) - Range(r.pfn, order)
      else
        S() == old(S())
    }

    /** A block that was handed out is live from then on, and was not before. */
    twostate predicate HandedOut(r: Alloc, order: nat)
      reads this
    {
      && kept == old(kept)
      && (if r.Got? then r.pfn !in old(live) && live == old(live)[r.pfn := order] else live == old(live))
    }

    method RmqueueFallback(order: nat, m: nat) returns (r: Alloc)
      requires Valid() && m < c.types
      modifies this`page, this`freeList, this`nrFree, this`nrFreePages, this`maxFreeOrder, this`bitmap
      ensures Valid() && OutsideUntouched() && Served(r, order, m)
      ensures r.Got? ==> exists k, i :: BorrowChoice(old(S()), c, order, m, k, i, r.pfn)
      ensures !r.Got? <==> BorrowEmptyAbove(old(S()), c, order, m)
      ensures r.Overrun? <==> order == 0 && BorrowEmptyAbove(old(S()), c, order, m)
    {
      hide ListOk, Counted, Canonical, FreeIn, BlocksIn;
      var cur: int := c.top;
      while cur >= order
        invariant order - 1 <= cur <= c.top || (cur == c.top < order)
        invariant S() == old(S())
        invariant BorrowEmptyAbove(S(), c, cur + 1, m)
        decreases cur
      {
        if bitmap[cur] != {} {
          var i := 0;
          while i < c.types && c.fallbacks[m][i] != c.types
            invariant 0 <= i <= c.types
            invariant S() == old(S())
            invariant forall k :: 0 <= k < i ==> c.fallbacks[m][k] != c.types
            invariant RowEmpty(S(), c, cur, m, i)
          {
            var t := c.fallbacks[m][i];
            if t in bitmap[cur] && freeList[cur][t] != [] {
              var p := freeList[cur][t][0];
              assert BorrowChoice(S(), c, order, m, cur, i, p);
              assert !RowEmpty(S(), c, cur, m, c.types) by { assert InRow(c, m, i); }
              Take(p, cur, t, order, m, false);
              return Got(p);
            }
            i := i + 1;
          }
          assert RowEmpty(S(), c, cur, m, c.types);
        }
        cur := cur - 1;
      }
      r := if order == 0 then Overrun else NoPage;
    }

    method Rmqueue(order: nat, m: nat) returns (r: Alloc)
      requires Accounted() && m < c.types
      modifies this
      ensures Accounted() && OutsideUntouched() && Served(r, order, m) && HandedOut(r, order)
      ensures r.Got? ==>
                if OwnEmpty(old(S()), c, order, m)
                then exists k, i :: BorrowChoice(old(S()), c, order, m, k, i, r.pfn)
                else exists k :: OwnChoice(old(S()), c, order, m, k, r.pfn)
      ensures !r.Got? <==> Exhausted(old(S()), c, order, m)
      ensures r.Overrun? <==> order == 0 && Exhausted(old(S()), c, order, m)
    {
      hide ListOk, Counted, Canonical, FreeIn, BlocksIn;
      var cur := order;
      while cur <= c.top
        invariant order <= cur
        invariant S() == old(S())
        invariant forall j :: order <= j < cur && j <= c.top ==> freeList[j][m] == []
      {
        if m in bitmap[cur] && freeList[cur][m] != [] {
          var p := freeList[cur][m][0];
          assert OwnChoice(S(), c, order, m, cur, p);
          ghost var free := Free();
          Take(p, cur, m, order, m, true);
          HandOut(live, kept, free, c.start, c.end, c.top, p, order);
          live := live[p := order];
          return Got(p);
        }
        cur := cur + 1;
      }
      ghost var free := Free();
      r := RmqueueFallback(order, m);
      if r.Got? {
        HandOut(live, kept, free, c.start, c.end, c.top, r.pfn, order);
        live := live[r.pfn := order];
      }
    }

    /** The zone is tried only if its order bound admits the request. */
    method AllocFromZone(order: nat, m: nat) returns (r: Alloc)
      requires Accounted() && m < c.types
      modifies this
      ensures Accounted() && OutsideUntouched() && Served(r, order, m) && HandedOut(r, order)
      ensures !r.Got? <==> Exhausted(old(S()), c, order, m)
    {
      if order > maxFreeOrder {
        SkipIsSafe(S(), c, order, m);
        return NoPage;
      }
      r := Rmqueue(order, m);
    }

    /** Take the buddy b of the block being freed off its list. */
    method MergeBuddy(p: nat, o: nat, b: nat, ghost fine: bool, ghost q: nat, ghost x: int)
      requires Freeing(S(), c, p, o, fine, q, x) && o < c.top && b == FindBuddy(p, o) && c.start <= b < c.end
      requires page[b].buddy && page[b].order == o
      modifies this`page, this`freeList, this`nrFree, this`nrFreePages, this`maxFreeOrder, this`bitmap
      ensures OutsideUntouched() && Freeing(S(), c, And(b, p), o + 1, fine, q, x)
      ensures fine ==> Free() + Range(And(b, p), o + 1) == old(Free()) + Range(p, o)
    {
      hide ListOk, Counted, Canonical, FreePages, Uncovered, Aligned, FindBuddy, And;
      MergeFrees(S(), c, p, o, b, Page(false, 0, page[b].mtype), fine, q, x);
      ListDel(b, 0);
    }

    /** Put the merged block on its list. */
    method PutBack(p: nat, o: nat, m: nat, ghost fine: bool, ghost q: nat, ghost x: int)
      requires Freeing(S(), c, p, o, fine, q, x) && m < c.types && (o < c.top ==> !IsFreeBuddy(BlocksIn(S(), c), p, o))
      modifies this`page, this`freeList, this`nrFree, this`nrFreePages, this`maxFreeOrder, this`bitmap
      ensures OutsideUntouched() && Consistent(S(), c)
      ensures Valid() <==> fine
      ensures fine ==> Free() == old(Free()) + Range(p, o)
    {
      hide ListOk, Counted, Canonical, FreePages, Uncovered, Aligned, IsFreeBuddy;
      PutBackValid(S(), c, p, o, m, fine, q, x);
      ListAdd(p, o, m);
    }

    /**
      Return a block, merging it with its free buddies as far up as they go.  The zone stays valid exactly if
      no frame of the block was free; of those that were, only a flagged head is noticed.
     */
    method FreeOnePage(pfn: nat, order: nat, m: nat) returns (panicked: bool)
      requires Valid() && m < c.types && order <= c.top
      requires Aligned(pfn, order) && c.start <= pfn && pfn + Pow2(order) <= c.end
      modifies this`page, this`freeList, this`nrFree, this`nrFreePages, this`maxFreeOrder, this`bitmap
      ensures OutsideUntouched() && Consistent(S(), c)
      ensures panicked <==> old(page[pfn].buddy)
      ensures panicked ==> S() == old(S())
      ensures !panicked ==> (Valid() <==> Range(pfn, order) !! old(Free()))
      ensures !panicked && Valid() ==> Free() == old(Free()) + Range(pfn, order)
    {
      hide ListOk, Counted, ListCounted, Filters, Canonical, FreePages, Uncovered, Aligned, FindBuddy, And, Linking,
          Unlinking;
      ValidIsConsistent(S(), c);
      if page[pfn].buddy { return true; }
      ghost var fine := Range(pfn, order) !! Free();
      ghost var q, x := Overlap(S(), c, pfn, order);
      var p: nat, o: nat := pfn, order;
      while o < c.top
        invariant OutsideUntouched() && Freeing(S(), c, p, o, fine, q, x)
        invariant fine ==> Free() + Range(p, o) == old(Free()) + Range(pfn, order)
      {
        var b := FindBuddy(p, o);
        BuddyInZone(c, p, o);
        if !(page[b].buddy && page[b].order == o) { break; }
        MergeBuddy(p, o, b, fine, q, x);
        p := And(b, p);
        o := o + 1;
      }
      if o < c.top { BuddyInZone(c, p, o); }
      PutBack(p, o, m, fine, q, x);
      return false;
    }

    /** Return a live block, or give the allocator one that was kept from it: nothing else is needed. */
    method Release(pfn: nat, order: nat, m: nat) returns (panicked: bool)
      requires Accounted() && m < c.types && MayReturn(live, kept, c.start, c.end, c.top, pfn, order)
      modifies this
      ensures Accounted() && OutsideUntouched() && !panicked
      ensures Free() == old(Free()) + Range(pfn, order)
      ensures if pfn in old(live) then live == old(live) - {pfn} && kept == old(kept)
              else live == old(live) && kept == old(kept) - Range(pfn, order)
    {
      hide ValidState, FreeIn, Ledger, Aligned;
      ghost var free := Free();
      ReturnFacts(live, kept, free, c.start, c.end, c.top, pfn, order);
      HeadIsFree(S(), c, pfn);
      panicked := FreeOnePage(pfn, order, m);
      if pfn in live {
        TakeBack(live, kept, free, c.start, c.end, c.top, pfn);
        live := live - {pfn};
      } else {
        Donate(live, kept, free, c.start, c.end, c.top, pfn, order);
        kept := kept - Range(pfn, order);
      }
    }

    /** A zone with every frame in use: the lists are empty. */
    constructor (config: Config, memMap: seq<Page>)
      requires config.Ok() && config.end <= |memMap|
      requires forall p :: config.start <= p < config.end ==> !memMap[p].buddy
      ensures c == config && page == memMap
      ensures Accounted() && Free() == {} && live == map[] && kept == Interval(config.start, config.end)
    {
      c := config;
      page := memMap;
      freeList := seq(config.top + 1, o => seq(config.types, m => []));
      nrFree := seq(config.top + 1, o => 0);
      nrFreePages := 0;
      maxFreeOrder := 0;
      bitmap := seq(config.top + 1, o => {});
      live, kept := map[], Interval(config.start, config.end);
      new;
      hide ValidState, Ledger, FreeIn, Exhausted;
      assert S() == InitialState(c, page);
      InitialValid(c, page);
      Fresh(c.start, c.end, c.top);
    }

    method VerifyList(o: nat, m: nat) returns (ok: bool, found: nat)
      requires Valid() && o <= c.top && m < c.types
      ensures ok && found == Pow2(o) * |freeList[o][m]|
    {
      hide Canonical, Filters, Counted;
      ok, found := true, 0;
      var l := freeList[o][m];
      assert ListOk(l, page, c.start, c.end, o, m);
      for i := 0 to |l|
        invariant ok && found == Pow2(o) * i
      {
        assert l[i] in l;
        ok := ok && page[l[i]].buddy && page[l[i]].order == o;
        found := found + Pow2(o);
      }
    }

    method VerifyOrder(o: nat) returns (ok: bool, found: nat)
      requires Valid() && o <= c.top
      ensures ok && found == Pow2(o) * TotalLen(freeList[o])
    {
      hide Canonical, Filters, Counted, ListOk;
      ok, found := true, 0;
      for m := 0 to c.types
        invariant ok && found == Pow2(o) * TotalLen(freeList[o][..m])
      {
        var ok', n := VerifyList(o, m);
        ok, found := ok && ok', found + n;
        assert freeList[o][..m + 1][..m] == freeList[o][..m];
        assert Pow2(o) * (TotalLen(freeList[o][..m]) + |freeList[o][m]|) == Pow2(o) * TotalLen(freeList[o][..m]) + n;
      }
      assert freeList[o][..c.types] == freeList[o];
    }

    /** The zone's self check: every listed page carries its flag and order, and the total agrees. */
    method Verify() returns (ok: bool)
      requires Valid()
      ensures ok
    {
      hide Canonical, Filters, ListOk, TotalLen, FreePages;
      ok := true;
      var found: nat := 0;
      for o := 0 to c.top + 1
        invariant ok && found == FoundFree(freeList[..o])
      {
        var ok', n := VerifyOrder(o);
        ok, found := ok && ok', found + n;
        assert freeList[..o + 1][..o] == freeList[..o];
      }
      assert freeList[..c.top + 1] == freeList;
      ok := ok && found == nrFreePages;
    }
  }

  /** Allocating a block and freeing it restores exactly the same free blocks. */
  method AllocThenFree(z: Zone, order: nat, m: nat) returns (r: Alloc)
    requires z.Accounted() && m < z.c.types
    modifies z
    ensures z.Accounted() && z.OutsideUntouched() && z.live == old(z.live) && z.kept == old(z.kept)
    ensures z.Blocks() == old(z.Blocks())
    ensures r.Got? <==> !Exhausted(old(z.S()), z.c, order, m)
  {
    hide ValidState, Ledger, Exhausted;
    ghost var s0 := z.S();
    r := z.Rmqueue(order, m);
    if r.Got? {
      ghost var s1 := z.S();
      var panicked := z.Release(r.pfn, order, m);
      AllocFreeRoundTrip(s0, s1, z.S(), z.c, r.pfn, order);
    }
  }

  datatype Request = Allocate(order: nat, mtype: nat) | Return(pfn: nat, mtype: nat)

  /** In an accounted zone, free, live and kept pages add up to the zone, by the count of frames and by the counter. */
  lemma AddsUp(z: Zone)
    requires z.Accounted()
    ensures |z.Free()| + Pages(z.live) + |z.kept| == z.c.end - z.c.start
    ensures z.nrFreePages == |z.Free()|
  {
    hide Ledger, FreeIn, ListCounted, Filters, Canonical, Pages, Linked;
    Conserved(z.live, z.kept, z.Free(), z.c.start, z.c.end, z.c.top);
  }

  /**
    Any sequence of requests by callers that return only what they were handed, up to the first overrun, where the
    source leaves its arrays.  Throughout, live blocks are aligned, disjoint and disjoint from the free frames, and free
    and allocated pages add up to the same number.
   */
  method Serve(z: Zone, requests: seq<Request>) returns (mine: map<nat, nat>, served: nat)
    requires z.Accounted() && forall i :: 0 <= i < |requests| ==> requests[i].mtype < z.c.types
    modifies z
    ensures z.Accounted() && z.kept == old(z.kept) && served <= |requests|
    ensures served < |requests| ==>
              var r := requests[served]; r.Allocate? && r.order == 0 && Exhausted(z.S(), z.c, 0, r.mtype)
    ensures forall p :: p in mine ==> p in z.live && z.live[p] == mine[p]
    ensures |z.Free()| + Pages(z.live) == |old(z.Free())| + Pages(old(z.live))
    ensures z.nrFreePages + Pages(z.live) == old(z.nrFreePages) + Pages(old(z.live))
  {
    hide ValidState, Ledger, FreeIn, Pages, Aligned, Exhausted;
    AddsUp(z);
    mine, served := map[], 0;
    while served < |requests|
      invariant z.Accounted() && z.kept == old(z.kept) && served <= |requests|
      invariant forall p :: p in mine ==> p in z.live && z.live[p] == mine[p]
    {
      match requests[served] {
        case Allocate(order, m) =>
          var r := z.Rmqueue(order, m);
          if r.Overrun? { break; }
          if r.Got? { mine := mine[r.pfn := order]; }
        case Return(pfn, m) =>
          if pfn in mine {
            var panicked := z.Release(pfn, mine[pfn], m);
            mine := mine - {pfn};
          }
      }
      served := served + 1;
    }
    AddsUp(z);
  }

  // ---- A double free that is not noticed ----

  /** A free pair of pages: freeing the second one alone goes unnoticed and leaves two blocks that overlap. */
  method DoubleFree() returns (z: Zone)
    ensures fresh(z) && !z.Valid() && Consistent(z.S(), z.c)
  {
    hide ValidState, Consistent, Ledger, FreeIn, BlocksIn;
    assert Aligned(0, 1) && Aligned(2, 1) && Aligned(1, 0) && Pow2(1) == 2 && Pow2(0) == 1;
    z := new Zone(Config(0, 2, 1, 1, [[1]]), [Page(false, 0, 0), Page(false, 0, 0)]);
    var panicked := z.Release(0, 1, 0);
    PairIsFree(z.S(), z.c);
    panicked := z.FreeOnePage(1, 0, 0);
  }

  /** With both frames of a zone of two free, they are one block. */
  lemma PairIsFree(s: State, c: Config)
    requires ValidState(s, c) && c.start == 0 && c.end == 2 && c.top == 1 && FreeIn(s, c) == Range(0, 1)
    ensures 1 < |s.page| && !s.page[1].buddy && 1 in Range(1, 0) && 1 in FreeIn(s, c)
  {
    hide Counted, Filters;
    var pair: Blocks := map[0 := 1];
    assert Canonical(pair, 0, 2, 1);
    assert Contains(pair, 0, 0) && Contains(pair, 0, 1);
    assert FreePages(pair, 0, 2) == Range(0, 1);
    CanonicalUnique(BlocksIn(s, c), pair, 0, 2, 1);
    assert 1 !in BlocksIn(s, c);
  }
}
