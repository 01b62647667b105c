/**
  Gap tracking in allocation trees: the largest gap of a leaf, and the propagation of a changed
  gap towards the root with its early exits.
 */
module MapleGaps {
  import opened Machine
  import opened MapleRuns
  import opened MapleLeaf
  import opened MapleTree

  // ---- The largest gap of a leaf ----

  function Size(runs: seq<Run>, min: nat, i: nat): int
    requires i < |runs|
  {
    runs[i].last - Start(runs, min, i) + 1
  }

  function Max(a: nat, b: nat): nat
  {
    if a < b then b else a
  }

  /** The size of the largest empty run among those from lo up to hi. */
  function LargestGap(runs: seq<Run>, min: nat, lo: nat, hi: nat): (g: nat)
    requires lo <= hi <= |runs| && (forall i :: 0 <= i < |runs| ==> Size(runs, min, i) > 0)
    ensures forall i :: lo <= i < hi && runs[i].entry == NULL ==> Size(runs, min, i) <= g
    ensures g > 0 ==> exists i :: lo <= i < hi && runs[i].entry == NULL && Size(runs, min, i) == g
    decreases hi - lo
  {
    if lo == hi then 0
    else Max(LargestGap(runs, min, lo, hi - 1), if runs[hi - 1].entry == NULL then Size(runs, min, hi - 1) else 0)
  }

  lemma Sizes(runs: seq<Run>, min: nat, max: nat)
    requires Ordered(runs, min, max)
    ensures forall i :: 0 <= i < |runs| ==> Size(runs, min, i) > 0
  {
  }

  /** The gap of a leaf. */
  function LeafGap(runs: seq<Run>, min: nat, max: nat): nat
    requires Ordered(runs, min, max)
  {
    Sizes(runs, min, max);
    LargestGap(runs, min, 0, |runs|)
  }

  /** Every index from a to b is empty. */
  ghost predicate Empty(runs: seq<Run>, min: nat, max: nat, a: nat, b: nat)
    requires |runs| > 0
  {
    min <= a <= b <= max && forall x :: a <= x <= b ==> Lookup(runs, x) == NULL
  }

  /** No stretch of empty indices is longer than the leaf's gap. */
  lemma EmptyBound(runs: seq<Run>, min: nat, max: nat, a: nat, b: nat)
    requires Ordered(runs, min, max) && NoAdjacentNulls(runs) && Empty(runs, min, max, a, b)
    ensures b - a + 1 <= LeafGap(runs, min, max)
  {
    Sizes(runs, min, max);
    var i := FindRun(runs, min, max, a);
    LookupIs(runs, min, i, a);
    assert runs[i].entry == NULL;
    if i + 1 < |runs| {
      LookupIs(runs, min, i + 1, runs[i].last + 1);
      assert Lookup(runs, runs[i].last + 1) != NULL;
    }
  }

  lemma EmptyAttained(runs: seq<Run>, min: nat, max: nat) returns (a: nat, b: nat)
    requires Ordered(runs, min, max) && LeafGap(runs, min, max) > 0
    ensures Empty(runs, min, max, a, b) && b - a + 1 == LeafGap(runs, min, max)
  {
    Sizes(runs, min, max);
    var i :| 0 <= i < |runs| && runs[i].entry == NULL && Size(runs, min, i) == LeafGap(runs, min, max);
    a, b := Start(runs, min, i), runs[i].last;
    assert min <= a;
    forall x | a <= x <= b ensures Lookup(runs, x) == NULL { LookupIs(runs, min, i, x); }
  }

  /** The gap of a leaf depends only on which of its indices are empty. */
  lemma SameNullsSameGap(r: seq<Run>, q: seq<Run>, min: nat, max: nat)
    requires Ordered(r, min, max) && Ordered(q, min, max) && NoAdjacentNulls(r) && NoAdjacentNulls(q)
             && SameNulls(r, q, min, max)
    ensures LeafGap(r, min, max) == LeafGap(q, min, max)
  {
    hide LeafGap, Ordered, Lookup, NoAdjacentNulls;
    if LeafGap(r, min, max) > 0 {
      var a, b := EmptyAttained(r, min, max);
      EmptyBound(q, min, max, a, b);
    }
    if LeafGap(q, min, max) > 0 {
      var a, b := EmptyAttained(q, min, max);
      EmptyBound(r, min, max, a, b);
    }
  }

  /** g bounds the empty runs selected by the range, and is one of their sizes unless it is zero. */
  predicate Bounds(runs: seq<Run>, min: nat, g: nat, lo: nat, hi: nat)
    requires hi <= |runs|
  {
    forall i :: lo <= i < hi && runs[i].entry == NULL ==> Size(runs, min, i) <= g
  }

  predicate Attained(runs: seq<Run>, min: nat, g: nat)
  {
    g == 0 || exists i :: 0 <= i < |runs| && runs[i].entry == NULL && Size(runs, min, i) == g
  }

  lemma GapIs(runs: seq<Run>, min: nat, max: nat, g: nat)
    requires Ordered(runs, min, max) && Bounds(runs, min, g, 0, |runs|) && Attained(runs, min, g)
    ensures LeafGap(runs, min, max) == g
  {
    Sizes(runs, min, max);
  }

  /** Every empty run before the last lies below the last run, so a gap larger than all that is the largest. */
  lemma EarlyExit(runs: seq<Run>, min: nat, max: nat, g: nat)
    requires Ordered(runs, min, max) && |runs| >= 2 && g > runs[|runs| - 2].last - min
    requires runs[|runs| - 1].entry == NULL ==> Size(runs, min, |runs| - 1) <= g
    ensures Bounds(runs, min, g, 0, |runs|)
  {
    forall i | 0 <= i < |runs| && runs[i].entry == NULL ensures Size(runs, min, i) <= g {
      assert i > 0 ==> min <= runs[0].last <= runs[i - 1].last;
      assert i < |runs| - 1 ==> runs[i].last <= runs[|runs| - 2].last;
    }
  }

  /** The largest gap of a leaf: mas_leaf_max_gap.  A leaf below the root has at least two slots. */
  method LeafMaxGap(pivots: seq<nat>, slots: seq<Cell>, min: nat, max: nat, ghost end: nat) returns (maxGap: nat)
    requires LeafOk(pivots, slots, end, min, max) && end > 0 && Settled(RunsOf(pivots, slots, end, max), max)
    ensures maxGap == LeafGap(RunsOf(pivots, slots, end, max), min, max)
  {
    ghost var runs := RunsOf(pivots, slots, end, max);
    DataEndCorrect(pivots, slots, end, min, max);
    var i: nat := 1;
    maxGap := 0;
    if slots[0].e == NULL {
      maxGap := pivots[0] - min + 1;
      i := 2;
      assert Size(runs, min, 0) == maxGap;
    }
    assert Bounds(runs, min, maxGap, 0, i) && Attained(runs, min, maxGap);
    var maxPiv := DataEnd(pivots, slots, max) - 1;
    if max == ULONG_MAX && slots[maxPiv + 1].e == NULL {
      var gap := ULONG_MAX - pivots[maxPiv];
      assert Size(runs, min, end) == gap;
      if gap > maxGap { maxGap := gap; }
      if maxGap > pivots[maxPiv] - min {
        EarlyExit(runs, min, max, maxGap);
        GapIs(runs, min, max, maxGap);
        return;
      }
    }
    maxGap := ScanGaps(pivots, slots, min, max, maxPiv, i, maxGap, end);
    GapIs(runs, min, max, maxGap);
  }

  /** The loop over the middle slots, which steps over the slot after a gap. */
  method ScanGaps(pivots: seq<nat>, slots: seq<Cell>, min: nat, max: nat, maxPiv: int, first: nat, gap0: nat,
      ghost end: nat) returns (maxGap: nat)
    requires LeafOk(pivots, slots, end, min, max) && maxPiv == end - 1 >= 0 && 1 <= first
    requires var runs := RunsOf(pivots, slots, end, max);
             && NoAdjacentNulls(runs) && Attained(runs, min, gap0)
             && Bounds(runs, min, gap0, 0, if first < end then first else end) && Bounds(runs, min, gap0, end, end + 1)
    ensures var runs := RunsOf(pivots, slots, end, max);
            Attained(runs, min, maxGap) && Bounds(runs, min, maxGap, 0, end + 1)
  {
    ghost var runs := RunsOf(pivots, slots, end, max);
    var i := first;
    maxGap := gap0;
    hide Attained, Bounds, RunsOf, NoAdjacentNulls;
    while i <= maxPiv
      invariant 1 <= i && Bounds(runs, min, maxGap, 0, if i < end then i else end)
                && Bounds(runs, min, maxGap, end, end + 1)
      invariant Attained(runs, min, maxGap)
    {
      SlotGap(pivots, slots, end, min, max, i);
      ghost var before := maxGap;
      if slots[i].e == NULL {
        var gap := pivots[i] - pivots[i - 1];
        if gap > maxGap { maxGap := gap; Attains(runs, min, i); }
        BoundsPast(runs, min, max, before, maxGap, i, end);
        i := i + 1;
      } else {
        BoundsPast(runs, min, max, before, maxGap, i, end);
      }
      i := i + 1;
    }
    BoundsAll(runs, min, maxGap, end);
  }

  /** A slot between the first and the last, as its pivots give it. */
  lemma SlotGap(pivots: seq<nat>, slots: seq<Cell>, end: nat, min: nat, max: nat, i: nat)
    requires LeafOk(pivots, slots, end, min, max) && 1 <= i < end
    ensures var runs := RunsOf(pivots, slots, end, max);
            && slots[i].Ent? && runs[i].entry == slots[i].e && pivots[i - 1] < pivots[i]
            && Size(runs, min, i) == pivots[i] - pivots[i - 1]
  {
    var runs := RunsOf(pivots, slots, end, max);
    assert runs[i - 1].last < runs[i].last;
  }

  /** Past slot i, and past the slot after it if slot i is empty and the next one therefore is not. */
  lemma BoundsPast(runs: seq<Run>, min: nat, max: nat, g: nat, g': nat, i: nat, end: nat)
    requires Ordered(runs, min, max) && NoAdjacentNulls(runs) && |runs| == end + 1 && 1 <= i < end && g <= g'
    requires Bounds(runs, min, g, 0, i) && Bounds(runs, min, g, end, end + 1)
    requires runs[i].entry == NULL ==> Size(runs, min, i) <= g'
    ensures Bounds(runs, min, g', end, end + 1)
    ensures var j := if runs[i].entry == NULL then i + 2 else i + 1;
            Bounds(runs, min, g', 0, if j < end then j else end)
  {
  }

  lemma BoundsAll(runs: seq<Run>, min: nat, g: nat, end: nat)
    requires |runs| == end + 1 && Bounds(runs, min, g, 0, end) && Bounds(runs, min, g, end, end + 1)
    ensures Bounds(runs, min, g, 0, end + 1)
  {
  }

  lemma Attains(runs: seq<Run>, min: nat, i: nat)
    requires i < |runs| && runs[i].entry == NULL && Size(runs, min, i) > 0
    ensures Attained(runs, min, Size(runs, min, i))
  {
  }

  // ---- Gap data of the branches ----

  /** The gaps a branch records for its slots, and the offset of the largest of them. */
  datatype GapData = GapData(gaps: seq<nat>, meta: nat)

  /** The largest of the first n gaps. */
  function MaxOf(gaps: seq<nat>, n: nat): (g: nat)
    requires 0 < n <= |gaps|
    ensures forall i :: 0 <= i < n ==> gaps[i] <= g
    ensures exists i :: 0 <= i < n && gaps[i] == g
  {
    if n == 1 then gaps[0] else Max(MaxOf(gaps, n - 1), gaps[n - 1])
  }

  /** The metadata of a branch points at a largest gap. */
  predicate MetaOk(g: GapData, end: nat)
  {
    && |g.gaps| == ARANGE_SLOTS && g.meta <= end < ARANGE_SLOTS
    && (forall i :: 0 <= i <= end ==> g.gaps[i] <= g.gaps[g.meta])
  }

  /** A tree that tracks gaps: arange branches, and no leaf below the root with a single slot. */
  ghost predicate AllocTree(t: Tree)
  {
    && TreeOk(t)
    && (forall id :: id in t.nodes && t.nodes[id].kind != Leaf64 ==> t.nodes[id].kind == Arange64)
    && (forall id :: id in t.nodes && t.nodes[id].kind == Leaf64 && id != t.root ==> t.span[id].end > 0)
  }

  predicate IsBranch(t: Tree, id: Id)
  {
    id in t.nodes && t.nodes[id].kind != Leaf64
  }

  ghost predicate MetasOk(t: Tree, gd: map<Id, GapData>)
    requires AllocTree(t)
  {
    forall id :: IsBranch(t, id) ==> id in gd && MetaOk(gd[id], t.span[id].end)
  }

  /** The largest gap below a node, as its gap data or its leaf slots give it. */
  ghost function GapOf(t: Tree, gd: map<Id, GapData>, id: Id): nat
    requires AllocTree(t) && MetasOk(t, gd) && id in t.nodes
  {
    if IsBranch(t, id) then MaxOf(gd[id].gaps, t.span[id].end + 1)
    else LeafGap(Runs(t, id), t.span[id].min, t.span[id].max)
  }

  /** Slot i of a branch records the gap of its child. */
  ghost predicate Recorded(t: Tree, gd: map<Id, GapData>, id: Id, i: nat)
    requires AllocTree(t) && MetasOk(t, gd) && IsBranch(t, id) && i <= t.span[id].end
  {
    ChildOk(t, id, i) && gd[id].gaps[i] == GapOf(t, gd, Child(t, id, i))
  }

  /** Gap data is right everywhere, except possibly in the slot that leads to node `stale`. */
  ghost predicate GapsOkBut(t: Tree, gd: map<Id, GapData>, stale: Parent)
  {
    && AllocTree(t) && MetasOk(t, gd)
    && (forall id, i: nat :: IsBranch(t, id) && i <= t.span[id].end && Under(id, i) != stale ==> Recorded(t, gd, id, i))
  }

  ghost predicate GapsOk(t: Tree, gd: map<Id, GapData>)
  {
    GapsOkBut(t, gd, Root)
  }

  lemma MetaIsMax(g: GapData, end: nat)
    requires MetaOk(g, end)
    ensures MaxOf(g.gaps, end + 1) == g.gaps[g.meta]
  {
  }

  /** Writing the child's gap into a stale slot leaves every other slot's record right, if its child is not p itself. */
  lemma RecordOther(t: Tree, gd: map<Id, GapData>, p: Id, o: nat, g: GapData, id: Id, i: nat)
    requires GapsOkBut(t, gd, Under(p, o)) && IsBranch(t, p) && o <= t.span[p].end
    requires MetaOk(g, t.span[p].end) && ChildOk(t, p, o) && g.gaps == gd[p].gaps[o := GapOf(t, gd, Child(t, p, o))]
    requires MetasOk(t, gd[p := g]) && IsBranch(t, id) && i <= t.span[id].end
    ensures ChildOk(t, id, i)
    ensures Under(id, i) != t.nodes[p].parent ==> Recorded(t, gd[p := g], id, i)
    ensures MaxOf(g.gaps, t.span[p].end + 1) == MaxOf(gd[p].gaps, t.span[p].end + 1) ==> Recorded(t, gd[p := g], id, i)
  {
    assert ChildOk(t, id, i);
    assert Under(id, i) != Under(p, o) ==> Recorded(t, gd, id, i);
    hide AllocTree, GapsOkBut, MetaOk, MaxOf, MetasOk, GapOf;
    var c := Child(t, id, i);
    GapOfChanged(t, gd, p, g, c);
    if id == p { ChildDeeper(t, p, i); }
    ChildDeeper(t, p, o);
  }

  lemma GapOfChanged(t: Tree, gd: map<Id, GapData>, p: Id, g: GapData, c: Id)
    requires AllocTree(t) && MetasOk(t, gd) && MetasOk(t, gd[p := g]) && IsBranch(t, p) && c in t.nodes
    ensures t.span[p].end < |g.gaps| && t.span[p].end < |gd[p].gaps|
    ensures GapOf(t, gd[p := g], c) == if c == p then MaxOf(g.gaps, t.span[p].end + 1) else GapOf(t, gd, c)
    ensures GapOf(t, gd, p) == MaxOf(gd[p].gaps, t.span[p].end + 1)
  {
    hide TreeOk, MaxOf;
  }

  lemma ChildDeeper(t: Tree, p: Id, o: nat)
    requires IsBranch(t, p) && Present(t, p) && o <= t.span[p].end && ChildOk(t, p, o)
    ensures Child(t, p, o) != p
  {
  }

  /**
    Writing the child's gap into a stale slot moves the staleness to the slot above, or ends it if the maximum stays.
   */
  lemma RecordStep(t: Tree, gd: map<Id, GapData>, p: Id, o: nat, g: GapData)
    requires GapsOkBut(t, gd, Under(p, o)) && IsBranch(t, p) && o <= t.span[p].end
    requires MetaOk(g, t.span[p].end) && ChildOk(t, p, o) && g.gaps == gd[p].gaps[o := GapOf(t, gd, Child(t, p, o))]
    ensures GapsOkBut(t, gd[p := g], t.nodes[p].parent)
    ensures MaxOf(g.gaps, t.span[p].end + 1) == MaxOf(gd[p].gaps, t.span[p].end + 1) ==> GapsOk(t, gd[p := g])
  {
    var gd' := gd[p := g];
    assert MetasOk(t, gd');
    hide AllocTree, Recorded, MaxOf, MetaOk, GapOf, ChildOk;
    forall id, i: nat | IsBranch(t, id) && i <= t.span[id].end
      ensures Under(id, i) != t.nodes[p].parent ==> Recorded(t, gd', id, i)
      ensures MaxOf(g.gaps, t.span[p].end + 1) == MaxOf(gd[p].gaps, t.span[p].end + 1) ==> Recorded(t, gd', id, i)
    {
      RecordOther(t, gd, p, o, g, id, i);
    }
  }

  /** The largest recorded gap and where it is, scanning back from the data end: ma_max_gap. */
  method ScanMax(gaps: seq<nat>, end: nat) returns (maxGap: nat, offset: nat)
    requires |gaps| == ARANGE_SLOTS && end < ARANGE_SLOTS
    ensures offset <= end && maxGap == gaps[offset] && MetaOk(GapData(gaps, offset), end)
  {
    maxGap, offset := 0, end;
    var i: int := end;
    while i >= 0
      invariant -1 <= i <= end && offset <= end
      invariant forall j :: i < j <= end ==> gaps[j] <= maxGap
      invariant maxGap == gaps[offset] || (maxGap == 0 && offset == end)
    {
      if gaps[i] > maxGap { maxGap, offset := gaps[i], i; }
      i := i - 1;
    }
  }

  /** A branch's gap data with one gap replaced: its largest gap afterwards, and whether that may be a new one. */
  method ReplaceGap(before: GapData, end: nat, o: nat, gap: nat) returns (g: GapData, up: bool, above: nat)
    requires MetaOk(before, end) && o <= end
    ensures g.gaps == before.gaps[o := gap] && MetaOk(g, end) && above == MaxOf(g.gaps, end + 1)
    ensures !up ==> above == MaxOf(before.gaps, end + 1)
  {
    MetaIsMax(before, end);
    hide MaxOf;
    var metaOffset, gaps := before.meta, before.gaps;
    var metaGap := gaps[metaOffset];
    gaps := gaps[o := gap];
    up, above := true, gap;
    if metaGap == gap {
      up := false;
    } else if o != metaOffset {
      if metaGap > gap { up, above := false, metaGap; } else { metaOffset := o; }
    } else if gap < metaGap {
      above, metaOffset := ScanMax(gaps, end);
    }
    g := GapData(gaps, metaOffset);
    MetaIsMax(g, end);
  }

  class GapTree {
    const tree: Tree
    var data: map<Id, GapData>

    constructor (tree: Tree, data: map<Id, GapData>)
      ensures this.tree == tree && this.data == data
    {
      this.tree, this.data := tree, data;
    }

    /** The largest gap below a node: mas_max_gap. */
    method MaxGap(id: Id) returns (g: nat)
      requires AllocTree(tree) && MetasOk(tree, data) && id in tree.nodes && id != tree.root
      ensures g == GapOf(tree, data, id)
    {
      var n := tree.nodes[id];
      ghost var s := tree.span[id];
      if n.kind == Leaf64 {
        assert NodeRuns(n, s) == RunsOf(n.pivots, n.slots, s.end, s.max);
        g := LeafMaxGap(n.pivots, n.slots, tree.span[id].min, tree.span[id].max, s.end);
      } else {
        MetaIsMax(data[id], s.end);
        g := data[id].gaps[data[id].meta];
      }
    }

    /**
      One round of mas_parent_gap: record the gap in the parent; say whether the parent's own gap may have changed, and
      to what.
     */
    method RecordGap(p: Id, o: nat, gap: nat) returns (up: bool, above: nat)
      requires GapsOkBut(tree, data, Under(p, o)) && IsBranch(tree, p) && o <= tree.span[p].end && ChildOk(tree, p, o)
      requires gap == GapOf(tree, data, Child(tree, p, o))
      modifies this`data
      ensures GapsOkBut(tree, data, tree.nodes[p].parent) && above == GapOf(tree, data, p)
      ensures !up ==> GapsOk(tree, data)
    {
      hide MetaOk, MaxOf;
      assert NodeOk(tree.nodes[p], tree.span[p]);
      var g;
      g, up, above := ReplaceGap(data[p], tree.nodes[p].metaEnd, o, gap);
      RecordStep(tree, data, p, o, g);
      hide GapsOkBut;
      data := data[p := g];
    }

    /** Record a new gap and climb while the maximum changes: mas_parent_gap. */
    method ParentGap(id: Id, gap: nat)
      requires id in tree.nodes && id != tree.root && GapsOkBut(tree, data, tree.nodes[id].parent)
               && gap == GapOf(tree, data, id)
      modifies this`data
      ensures GapsOk(tree, data)
    {
      var node, g := id, gap;
      while node != tree.root
        invariant node in tree.nodes && GapsOkBut(tree, data, tree.nodes[node].parent) && g == GapOf(tree, data, node)
        decreases tree.span[node].depth
      {
        var p, o := tree.nodes[node].parent.id, tree.nodes[node].parent.slot;
        assert HasParent(tree, node) && ChildOk(tree, p, o);
        var up;
        up, g := RecordGap(p, o, g);
        if !up { return; }
        node := p;
      }
    }

    /** Bring the gap data up to date after node `id` changed: mas_update_gap. */
    method UpdateGap(id: Id)
      requires id in tree.nodes && GapsOkBut(tree, data, tree.nodes[id].parent)
      modifies this`data
      ensures GapsOk(tree, data)
    {
      if id == tree.root { return; }
      var maxGap := MaxGap(id);
      var p, o := tree.nodes[id].parent.id, tree.nodes[id].parent.slot;
      assert HasParent(tree, id) && ChildOk(tree, p, o);
      if data[p].gaps[o] != maxGap {
        ParentGap(id, maxGap);
      } else {
        assert Recorded(tree, data, p, o);
      }
    }
  }

  // ---- What the gap data means ----

  /** Every index from a to b is empty below the node. */
  ghost predicate Free(t: Tree, id: Id, a: nat, b: nat)
    requires TreeOk(t) && id in t.nodes
  {
    t.span[id].min <= a <= b <= t.span[id].max && forall x :: a <= x <= b ==> TreeLookup(t, id, x) == NULL
  }

  /** g is the length of the longest stretch of consecutive empty indices below the node. */
  ghost predicate LargestFree(t: Tree, id: Id, g: nat)
    requires TreeOk(t) && id in t.nodes
  {
    && (forall a: nat, b: nat :: Free(t, id, a, b) ==> b - a + 1 <= g)
    && (g > 0 ==> exists a: nat, b: nat :: Free(t, id, a, b) && b - a + 1 == g)
  }

  /** Only at the end of the index space can the last index below a node be empty. */
  lemma {:induction false} LastHolds(t: Tree, id: Id)
    requires TreeOk(t) && id in t.nodes && t.span[id].max < ULONG_MAX
    ensures TreeLookup(t, id, t.span[id].max) != NULL
    decreases t.height - t.span[id].depth
  {
    var s := t.span[id];
    FindIs(Runs(t, id), s.min, s.max, s.end, s.max);
    if t.nodes[id].kind != Leaf64 {
      assert ChildOk(t, id, s.end);
      LastHolds(t, Child(t, id, s.end));
    } else {
      assert Settled(Runs(t, id), s.max);
    }
  }

  lemma LeafLookup(t: Tree, id: Id, x: nat)
    requires TreeOk(t) && id in t.nodes && t.nodes[id].kind == Leaf64
    ensures TreeLookup(t, id, x) == Lookup(Runs(t, id), x)
  {
    FindLookup(Runs(t, id), x);
  }

  lemma LeafMeans(t: Tree, id: Id)
    requires TreeOk(t) && id in t.nodes && t.nodes[id].kind == Leaf64
    ensures forall x: nat :: TreeLookup(t, id, x) == Lookup(Runs(t, id), x)
    ensures NoAdjacentNulls(Runs(t, id)) && Ordered(Runs(t, id), t.span[id].min, t.span[id].max)
  {
    assert Settled(Runs(t, id), t.span[id].max);
    hide TreeLookup, Lookup, NodeRuns;
    forall x: nat ensures TreeLookup(t, id, x) == Lookup(Runs(t, id), x) { LeafLookup(t, id, x); }
  }

  lemma LeafLargestFree(t: Tree, id: Id)
    requires TreeOk(t) && id in t.nodes && t.nodes[id].kind == Leaf64
    ensures LargestFree(t, id, LeafGap(Runs(t, id), t.span[id].min, t.span[id].max))
  {
    hide NodeOk, HasParent, ChildOk, TreeLookup, Lookup, NodeRuns, NoAdjacentNulls, LeafGap, Ordered;
    LeafMeans(t, id);
    var s, runs := t.span[id], Runs(t, id);
    forall a: nat, b: nat | Free(t, id, a, b)
      ensures b - a + 1 <= LeafGap(runs, s.min, s.max)
    {
      assert Empty(runs, s.min, s.max, a, b);
      EmptyBound(runs, s.min, s.max, a, b);
    }
    if LeafGap(runs, s.min, s.max) > 0 {
      var a, b := EmptyAttained(runs, s.min, s.max);
      assert Free(t, id, a, b);
    }
  }

  /** The last index of a slot that is not the last one holds an entry. */
  lemma SlotEndHolds(t: Tree, id: Id, i: nat)
    requires TreeOk(t) && IsBranch(t, id) && i < t.span[id].end
    ensures TreeLookup(t, id, Runs(t, id)[i].last) != NULL
  {
    var s, runs := t.span[id], Runs(t, id);
    assert runs[i].last < s.max <= ULONG_MAX;
    assert Start(runs, s.min, i) <= runs[i].last;
    hide TreeLookup, NodeOk, HasParent;
    ThroughSlot(t, id, i);
    LastHolds(t, Child(t, id, i));
  }

  /** A free stretch below a branch lies below one of its slots. */
  lemma StretchInSlot(t: Tree, id: Id, a: nat, b: nat) returns (i: nat)
    requires TreeOk(t) && IsBranch(t, id) && Free(t, id, a, b)
    ensures i <= t.span[id].end && ChildOk(t, id, i) && Free(t, Child(t, id, i), a, b)
  {
    var s, runs := t.span[id], Runs(t, id);
    FindInRun(runs, s.min, s.max, a);
    assert runs[|runs| - 1].last == s.max;
    hide TreeLookup, NodeOk, HasParent;
    i := Find(runs, a);
    ThroughSlot(t, id, i);
    if i < s.end { SlotEndHolds(t, id, i); }
  }

  /** A stretch below a slot is a stretch below the branch. */
  lemma StretchAbove(t: Tree, id: Id, i: nat, a: nat, b: nat)
    requires TreeOk(t) && IsBranch(t, id) && i <= t.span[id].end && ChildOk(t, id, i) && Free(t, Child(t, id, i), a, b)
    ensures Free(t, id, a, b)
  {
    SlotInside(t, id, i);
    ThroughSlot(t, id, i);
  }

  /** Each slot's gap is the longest free stretch below the slot. */
  ghost predicate SlotsRight(t: Tree, id: Id, gaps: seq<nat>)
    requires TreeOk(t) && IsBranch(t, id)
  {
    && t.span[id].end < |gaps|
    && (forall i: nat :: i <= t.span[id].end ==> ChildOk(t, id, i) && LargestFree(t, Child(t, id, i), gaps[i]))
  }

  lemma BranchBound(t: Tree, id: Id, gaps: seq<nat>, a: nat, b: nat)
    requires TreeOk(t) && IsBranch(t, id) && SlotsRight(t, id, gaps) && Free(t, id, a, b)
    ensures b - a + 1 <= MaxOf(gaps, t.span[id].end + 1)
  {
    var i := StretchInSlot(t, id, a, b);
    hide NodeOk, HasParent, MaxOf;
    assert LargestFree(t, Child(t, id, i), gaps[i]);
  }

  lemma BranchAttained(t: Tree, id: Id, gaps: seq<nat>, m: nat) returns (a: nat, b: nat)
    requires TreeOk(t) && IsBranch(t, id) && SlotsRight(t, id, gaps) && m <= t.span[id].end && gaps[m] > 0
    ensures Free(t, id, a, b) && b - a + 1 == gaps[m]
  {
    assert ChildOk(t, id, m) && LargestFree(t, Child(t, id, m), gaps[m]);
    hide NodeOk, HasParent, SlotsRight;
    a, b :| Free(t, Child(t, id, m), a, b) && b - a + 1 == gaps[m];
    hide Free;
    StretchAbove(t, id, m, a, b);
  }

  lemma BranchLargestFree(t: Tree, id: Id, gaps: seq<nat>)
    requires TreeOk(t) && IsBranch(t, id) && SlotsRight(t, id, gaps)
    ensures LargestFree(t, id, MaxOf(gaps, t.span[id].end + 1))
  {
    hide NodeOk, HasParent, ChildOk;
    var g := MaxOf(gaps, t.span[id].end + 1);
    var m: nat :| m <= t.span[id].end && gaps[m] == g;
    hide TreeOk, SlotsRight, Free, MaxOf;
    forall a: nat, b: nat | Free(t, id, a, b) ensures b - a + 1 <= g { BranchBound(t, id, gaps, a, b); }
    if g > 0 { var a, b := BranchAttained(t, id, gaps, m); }
  }

  lemma SlotInside(t: Tree, id: Id, i: nat)
    requires TreeOk(t) && IsBranch(t, id) && i <= t.span[id].end
    ensures ChildOk(t, id, i)
    ensures t.span[id].min <= t.span[Child(t, id, i)].min && t.span[Child(t, id, i)].max <= t.span[id].max
  {
    assert ChildOk(t, id, i);
  }

  /** Right gap data gives, at every node, the longest stretch of free indices below it. */
  lemma {:induction false} GapIsLargestFree(t: Tree, gd: map<Id, GapData>, id: Id)
    requires GapsOk(t, gd) && id in t.nodes
    ensures LargestFree(t, id, GapOf(t, gd, id))
    decreases t.height - t.span[id].depth, 1
  {
    hide LargestFree, NodeOk, HasParent;
    if !IsBranch(t, id) {
      LeafLargestFree(t, id);
    } else {
      forall i: nat | i <= t.span[id].end ensures ChildOk(t, id, i) && LargestFree(t, Child(t, id, i), gd[id].gaps[i]) {
        RecordedGaps(t, gd, id, i);
      }
      hide ChildOk, Child, Recorded;
      BranchLargestFree(t, id, gd[id].gaps);
    }
  }

  /** So every slot of every branch records the longest free stretch of its own interval. */
  lemma {:induction false} RecordedGaps(t: Tree, gd: map<Id, GapData>, id: Id, i: nat)
    requires GapsOk(t, gd) && IsBranch(t, id) && i <= t.span[id].end
    ensures ChildOk(t, id, i) && LargestFree(t, Child(t, id, i), gd[id].gaps[i])
    decreases t.height - t.span[id].depth, 0
  {
    hide LargestFree;
    assert Recorded(t, gd, id, i);
    GapIsLargestFree(t, gd, Child(t, id, i));
  }

  // ---- A tree with right gap data ----

  /** A leaf with two runs. */
  function TwoRuns(p: nat, max: nat, a: Entry, b: Entry, parent: Parent): Node
  {
    Node(Leaf64, [p, max] + seq(13, _ => 0), [Ent(a), Ent(b)] + seq(13, _ => Ent(NULL)) + [Meta(1)], 0, parent)
  }

  /** A branch over two leaves that part at p. */
  function TwoLeaves(p: nat): Node
  {
    Node(Arange64, [p, ULONG_MAX] + seq(7, _ => 0), [Ent(2), Ent(3)] + seq(8, _ => Ent(NULL)), 1, Root)
  }

  lemma TwoRunsOk(min: nat, p: nat, max: nat, a: Entry, b: Entry, parent: Parent, depth: nat)
    requires min <= p < max <= ULONG_MAX && (a != NULL || b != NULL) && (b == NULL ==> max == ULONG_MAX)
    ensures NodeOk(TwoRuns(p, max, a, b, parent), Span(min, max, 1, depth))
    ensures NodeRuns(TwoRuns(p, max, a, b, parent), Span(min, max, 1, depth)) == [Run(p, a), Run(max, b)]
  {
    var n, s := TwoRuns(p, max, a, b, parent), Span(min, max, 1, depth);
    assert NodeRuns(n, s) == [Run(p, a), Run(max, b)];
    assert RunsOf(n.pivots, n.slots, 1, max) == [Run(p, a), Run(max, b)];
  }

  lemma TwoLeavesOk(p: nat)
    requires p < ULONG_MAX
    ensures NodeOk(TwoLeaves(p), Span(0, ULONG_MAX, 1, 0))
    ensures NodeRuns(TwoLeaves(p), Span(0, ULONG_MAX, 1, 0)) == [Run(p, 2), Run(ULONG_MAX, 3)]
  {
    assert NodeRuns(TwoLeaves(p), Span(0, ULONG_MAX, 1, 0)) == [Run(p, 2), Run(ULONG_MAX, 3)];
  }

  function SmallTree(): Tree
  {
    Tree(1,
         map[1 := TwoLeaves(9), 2 := TwoRuns(4, 9, NULL, 7, Under(1, 0)),
             3 := TwoRuns(19, ULONG_MAX, 8, NULL, Under(1, 1))],
         map[1 := Span(0, ULONG_MAX, 1, 0), 2 := Span(0, 9, 1, 1), 3 := Span(10, ULONG_MAX, 1, 1)], 1)
  }

  lemma SmallTreeNodes()
    ensures var t := SmallTree(); Present(t, 1) && Present(t, 2) && Present(t, 3)
    ensures Runs(SmallTree(), 1) == [Run(9, 2), Run(ULONG_MAX, 3)]
    ensures Runs(SmallTree(), 2) == [Run(4, NULL), Run(9, 7)]
            && Runs(SmallTree(), 3) == [Run(19, 8), Run(ULONG_MAX, NULL)]
    ensures SmallTree().nodes[1].slots[0].e == 2 && SmallTree().nodes[1].slots[1].e == 3
  {
    hide NodeOk, NodeRuns;
    TwoRunsOk(0, 4, 9, NULL, 7, Under(1, 0), 1);
    TwoRunsOk(10, 19, ULONG_MAX, 8, NULL, Under(1, 1), 1);
    TwoLeavesOk(9);
  }

  lemma SmallTreeOk()
    ensures AllocTree(SmallTree())
  {
    hide NodeOk, NodeRuns;
    SmallTreeNodes();
    var t := SmallTree();
    assert ChildOk(t, 1, 0) && ChildOk(t, 1, 1);
    hide Present, ChildOk;
    assert forall id, i: nat :: id in t.nodes && t.nodes[id].kind != Leaf64 && i <= t.span[id].end ==>
        ChildOk(t, id, i);
  }

  lemma TwoRunGap(min: nat, p: nat, max: nat, a: Entry, b: Entry)
    requires min <= p < max
    ensures Ordered([Run(p, a), Run(max, b)], min, max)
    ensures LeafGap([Run(p, a), Run(max, b)], min, max) == Max(if a == NULL then p + 1 - min else 0, if b == NULL
            then max - p else 0)
  {
    var runs := [Run(p, a), Run(max, b)];
    assert Size(runs, min, 0) == p + 1 - min && Size(runs, min, 1) == max - p;
    assert LargestGap(runs, min, 0, 1) == if a == NULL then p + 1 - min else 0;
  }

  /** There are trees of more than one level in which the gap data is right. */
  lemma SmallTreeGapsOk()
    ensures GapsOk(SmallTree(), map[1 := GapData([5, ULONG_MAX - 19] + seq(8, _ => 0), 1)])
  {
    hide NodeOk, NodeRuns, LeafGap, Runs;
    SmallTreeNodes();
    SmallTreeOk();
    TwoRunGap(0, 4, 9, NULL, 7);
    TwoRunGap(10, 19, ULONG_MAX, 8, NULL);
    var t, gd := SmallTree(), map[1 := GapData([5, ULONG_MAX - 19] + seq(8, _ => 0), 1)];
    assert MetasOk(t, gd);
    assert GapOf(t, gd, 2) == 5 && GapOf(t, gd, 3) == ULONG_MAX - 19;
    assert Recorded(t, gd, 1, 0) && Recorded(t, gd, 1, 1);
  }
}
