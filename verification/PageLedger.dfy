/**
  Who owns which frame of a zone: the frames on the free lists, the blocks handed out and not
  yet returned, and the frames that have never been given to the allocator.
 */
module PageLedger {
  import opened Powers
  import opened BuddyBlocks

  /**
    Free frames, live blocks and frames kept from the allocator make up [lo, hi) without overlap;
    live blocks are aligned and do not overlap each other.
   */
  ghost predicate Ledger(live: Blocks, kept: set<int>, free: set<int>, lo: nat, hi: nat, top: nat)
  {
    var held := FreePages(live, lo, hi);
    && WellFormed(live, lo, hi, top)
    && free !! held && free !! kept && kept !! held
    && free + held + kept == Interval(lo, hi)
  }

  /** The number of pages in live blocks: two to the order, summed over the blocks. */
  ghost function Pages(live: Blocks): nat
    decreases |live|
  {
    if live == map[] then 0
    else
      var p: nat :| p in live;
      assert p !in live - {p} && |live - {p}| < |live|;
      Pow2(live[p]) + Pages(live - {p})
  }

  lemma OneBlockMore(live: Blocks, p: nat, lo: nat, hi: nat, top: nat)
    requires WellFormed(live, lo, hi, top) && p in live
    ensures WellFormed(live - {p}, lo, hi, top)
    ensures |FreePages(live, lo, hi)| == Pow2(live[p]) + |FreePages(live - {p}, lo, hi)|
  {
    hide FreePages, Uncovered;
    RemoveCover(live, p, lo, hi, top);
    IntervalSize(p, p + Pow2(live[p]));
    DisjointSize(FreePages(live - {p}, lo, hi), Range(p, live[p]));
    assert FreePages(live, lo, hi) == FreePages(live - {p}, lo, hi) + Range(p, live[p]);
  }

  lemma Unfold(live: Blocks) returns (p: nat)
    requires live != map[]
    ensures p in live && |live - {p}| < |live| && Pages(live) == Pow2(live[p]) + Pages(live - {p})
  {
    p :| p in live && Pages(live) == Pow2(live[p]) + Pages(live - {p});
    assert p !in live - {p};
  }

  lemma {:induction false} PagesAreFrames(live: Blocks, lo: nat, hi: nat, top: nat)
    requires WellFormed(live, lo, hi, top)
    ensures Pages(live) == |FreePages(live, lo, hi)|
    decreases |live|
  {
    if live == map[] {
      assert forall x: int :: !Covered(live, x);
      assert FreePages(live, lo, hi) == {};
    } else {
      hide WellFormed, Pages, FreePages;
      var p := Unfold(live);
      OneBlockMore(live, p, lo, hi, top);
      PagesAreFrames(live - {p}, lo, hi, top);
    }
  }

  lemma DisjointSize<T>(a: set<T>, b: set<T>)
    requires a !! b
    ensures |a + b| == |a| + |b|
  {
  }

  /** Every frame is counted once. */
  lemma Conserved(live: Blocks, kept: set<int>, free: set<int>, lo: nat, hi: nat, top: nat)
    requires Ledger(live, kept, free, lo, hi, top) && lo <= hi
    ensures |free| + Pages(live) + |kept| == hi - lo
  {
    var held := FreePages(live, lo, hi);
    PagesAreFrames(live, lo, hi, top);
    hide FreePages;
    DisjointSize(free, held);
    DisjointSize(free + held, kept);
    IntervalSize(lo, hi);
  }

  /** Two live blocks have no frame in common, and none of their frames is free. */
  lemma LiveApart(live: Blocks, kept: set<int>, free: set<int>, lo: nat, hi: nat, top: nat, p: nat)
    requires Ledger(live, kept, free, lo, hi, top) && p in live
    ensures live[p] <= top && Aligned(p, live[p]) && lo <= p && p + Pow2(live[p]) <= hi
    ensures Range(p, live[p]) !! free
    ensures forall q :: q in live && q != p ==> Range(p, live[p]) !! Range(q, live[q])
  {
    RemoveCover(live, p, lo, hi, top);
    assert BlockOk(live, p, lo, hi, top);
  }

  /** A free aligned block is handed out. */
  lemma HandOut(live: Blocks, kept: set<int>, free: set<int>, lo: nat, hi: nat, top: nat, p: nat, order: nat)
    requires Ledger(live, kept, free, lo, hi, top)
    requires Aligned(p, order) && order <= top && lo <= p && p + Pow2(order) <= hi && Range(p, order) <= free
    ensures p !in live && Ledger(live[p := order], kept, free - Range(p, order), lo, hi, top)
  {
    UncoveredIfApart(live, p, order, lo, hi);
    AddCover(live, p, order, lo, hi);
    AddKeepsWellFormed(live, p, order, lo, hi, top);
    hide FreePages, WellFormed, Uncovered;
  }

  lemma UncoveredIfApart(F: Blocks, p: nat, order: nat, lo: nat, hi: nat)
    requires lo <= p && p + Pow2(order) <= hi && Range(p, order) !! FreePages(F, lo, hi)
    ensures Uncovered(F, p, order)
  {
    forall x: int | p <= x < p + Pow2(order) ensures !Covered(F, x) { assert x in Range(p, order); }
  }

  /** A live block is returned. */
  lemma TakeBack(live: Blocks, kept: set<int>, free: set<int>, lo: nat, hi: nat, top: nat, p: nat)
    requires Ledger(live, kept, free, lo, hi, top) && p in live
    ensures Ledger(live - {p}, kept, free + Range(p, live[p]), lo, hi, top)
  {
    RemoveCover(live, p, lo, hi, top);
    hide FreePages, WellFormed, Uncovered;
  }

  /** A block that was kept from the allocator is given to it. */
  lemma Donate(live: Blocks, kept: set<int>, free: set<int>, lo: nat, hi: nat, top: nat, p: nat, order: nat)
    requires Ledger(live, kept, free, lo, hi, top) && Range(p, order) <= kept
    ensures Range(p, order) !! free && Ledger(live, kept - Range(p, order), free + Range(p, order), lo, hi, top)
  {
    hide FreePages, WellFormed;
  }

  /** What may be given to the allocator: a live block, or an aligned block of kept frames. */
  ghost predicate MayReturn(live: Blocks, kept: set<int>, lo: nat, hi: nat, top: nat, p: nat, order: nat)
  {
    || (p in live && live[p] == order)
    || (order <= top && Aligned(p, order) && lo <= p && p + Pow2(order) <= hi && Range(p, order) <= kept)
  }

  lemma ReturnFacts(live: Blocks, kept: set<int>, free: set<int>, lo: nat, hi: nat, top: nat, p: nat, order: nat)
    requires Ledger(live, kept, free, lo, hi, top) && MayReturn(live, kept, lo, hi, top, p, order)
    ensures order <= top && Aligned(p, order) && lo <= p && p + Pow2(order) <= hi
    ensures Range(p, order) !! free && p in Range(p, order)
    ensures if p in live then live[p] == order else Range(p, order) <= kept
  {
    if p in live {
      LiveApart(live, kept, free, lo, hi, top, p);
      RemoveCover(live, p, lo, hi, top);
      assert p in Range(p, live[p]);
      assert p in Range(p, order);
    }
  }

  lemma Fresh(lo: nat, hi: nat, top: nat)
    ensures Ledger(map[], Interval(lo, hi), {}, lo, hi, top)
  {
    var none: Blocks := map[];
    assert forall x: int :: !Covered(none, x);
    assert FreePages(none, lo, hi) == {};
  }
}
