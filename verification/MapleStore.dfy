/**
  A store into a whole allocation tree: the leaf write, its effect on every lookup in the tree,
  and the gap update that follows it.
 */
module MapleStore {
  import opened Machine
  import opened MapleRuns
  import opened MapleLeaf
  import opened MapleTree
  import opened MapleGaps

  /** The leaf in which the descent for x ends. */
  ghost function LeafAt(t: Tree, id: Id, x: nat): Id
    requires TreeOk(t) && id in t.nodes
    decreases t.height - t.span[id].depth
  {
    if t.nodes[id].kind == Leaf64 then id
    else var i := Find(Runs(t, id), x); assert ChildOk(t, id, i); LeafAt(t, Child(t, id, i), x)
  }

  ghost predicate Covers(t: Tree, id: Id, x: nat)
    requires TreeOk(t) && id in t.nodes
  {
    t.span[id].min <= x <= t.span[id].max
  }

  lemma {:induction false} DescentStays(t: Tree, id: Id, x: nat)
    requires TreeOk(t) && id in t.nodes && Covers(t, id, x)
    ensures LeafAt(t, id, x) in t.nodes && t.nodes[LeafAt(t, id, x)].kind == Leaf64 && Covers(t, LeafAt(t, id, x), x)
    decreases t.height - t.span[id].depth
  {
    if t.nodes[id].kind != Leaf64 {
      var s := t.span[id];
      var i := Find(Runs(t, id), x);
      FindInRun(Runs(t, id), s.min, s.max, x);
      assert ChildOk(t, id, i);
      DescentStays(t, Child(t, id, i), x);
    }
  }

  /** From the root, every index a node covers is looked up through that node. */
  lemma {:induction false} RootThrough(t: Tree, id: Id, x: nat)
    requires TreeOk(t) && id in t.nodes && Covers(t, id, x)
    ensures LeafAt(t, t.root, x) == LeafAt(t, id, x)
    decreases t.span[id].depth
  {
    if id != t.root {
      assert HasParent(t, id);
      var p, i := t.nodes[id].parent.id, t.nodes[id].parent.slot;
      assert ChildOk(t, p, i);
      SlotInside(t, p, i);
      FindIs(Runs(t, p), t.span[p].min, t.span[p].max, i, x);
      RootThrough(t, p, x);
    }
  }

  /** The descent for x from the root ends in a leaf exactly if the leaf covers x. */
  lemma ReachedIffCovered(t: Tree, leaf: Id, x: nat)
    requires TreeOk(t) && leaf in t.nodes && t.nodes[leaf].kind == Leaf64 && x <= ULONG_MAX
    ensures LeafAt(t, t.root, x) == leaf <==> Covers(t, leaf, x)
  {
    DescentStays(t, t.root, x);
    if Covers(t, leaf, x) { RootThrough(t, leaf, x); }
  }

  // ---- Replacing one leaf ----

  function Replaced(t: Tree, leaf: Id, n: Node, s: Span): Tree
  {
    t.(nodes := t.nodes[leaf := n], span := t.span[leaf := s])
  }

  /** A new version of a leaf: same place in the tree, same interval, any well-formed content. */
  predicate NewVersion(t: Tree, leaf: Id, n: Node, s: Span)
  {
    && leaf in t.nodes && leaf in t.span && t.nodes[leaf].kind == Leaf64 && n.kind == Leaf64 && NodeOk(n, s)
    && n.parent == t.nodes[leaf].parent && s == t.span[leaf].(end := s.end)
  }

  lemma ReplacedOk(t: Tree, leaf: Id, n: Node, s: Span)
    requires TreeOk(t) && NewVersion(t, leaf, n, s)
    ensures TreeOk(Replaced(t, leaf, n, s))
  {
    var t' := Replaced(t, leaf, n, s);
    hide NodeOk;
    assert forall id :: id in t'.nodes ==> Present(t, id) && Present(t', id);
    forall id, i: nat | id in t'.nodes && t'.nodes[id].kind != Leaf64 && i <= t'.span[id].end
      ensures ChildOk(t', id, i)
    {
      assert ChildOk(t, id, i);
    }
    forall id | id in t'.nodes && id != t'.root ensures HasParent(t', id) {
      assert HasParent(t, id);
    }
  }

  lemma {:induction false} ReplacedLookup(t: Tree, leaf: Id, n: Node, s: Span, id: Id, x: nat)
    requires TreeOk(t) && NewVersion(t, leaf, n, s) && TreeOk(Replaced(t, leaf, n, s)) && id in t.nodes
    ensures TreeLookup(Replaced(t, leaf, n, s), id, x) == if LeafAt(t, id, x) == leaf then Lookup(NodeRuns(n, s), x)
            else TreeLookup(t, id, x)
    decreases t.height - t.span[id].depth
  {
    var t' := Replaced(t, leaf, n, s);
    if t.nodes[id].kind == Leaf64 {
      if id == leaf { LeafLookup(t', id, x); }
    } else {
      var i := Find(Runs(t, id), x);
      assert ChildOk(t, id, i) && ChildOk(t', id, i);
      ReplacedLookup(t, leaf, n, s, Child(t, id, i), x);
    }
  }

  /** The tree looks up the new leaf content where the leaf covers the index, and is unchanged elsewhere. */
  lemma ReplacedMeans(t: Tree, leaf: Id, n: Node, s: Span, x: nat)
    requires TreeOk(t) && NewVersion(t, leaf, n, s) && x <= ULONG_MAX
    ensures TreeOk(Replaced(t, leaf, n, s))
    ensures TreeLookup(Replaced(t, leaf, n, s), t.root, x) ==
            if Covers(t, leaf, x) then Lookup(NodeRuns(n, s), x) else TreeLookup(t, t.root, x)
  {
    ReplacedOk(t, leaf, n, s);
    ReachedIffCovered(t, leaf, x);
    ReplacedLookup(t, leaf, n, s, t.root, x);
  }

  lemma {:induction false} LookupAtLeaf(t: Tree, id: Id, x: nat)
    requires TreeOk(t) && id in t.nodes
    ensures LeafAt(t, id, x) in t.nodes && TreeLookup(t, id, x) == Lookup(Runs(t, LeafAt(t, id, x)), x)
    decreases t.height - t.span[id].depth
  {
    if t.nodes[id].kind == Leaf64 {
      LeafLookup(t, id, x);
    } else {
      var i := Find(Runs(t, id), x);
      assert ChildOk(t, id, i);
      LookupAtLeaf(t, Child(t, id, i), x);
    }
  }

  lemma CoveredLookup(t: Tree, leaf: Id, x: nat)
    requires TreeOk(t) && leaf in t.nodes && t.nodes[leaf].kind == Leaf64 && Covers(t, leaf, x)
    ensures TreeLookup(t, t.root, x) == Lookup(Runs(t, leaf), x)
  {
    hide TreeLookup, NodeRuns, Lookup;
    RootThrough(t, leaf, x);
    LookupAtLeaf(t, t.root, x);
  }

  /** Overwriting a range in one leaf overwrites that range in the tree. */
  lemma StoredMeans(t: Tree, leaf: Id, n: Node, s: Span, index: nat, last: nat, entry: Entry, x: nat)
    requires TreeOk(t) && NewVersion(t, leaf, n, s) && x <= ULONG_MAX
    requires s.min <= index <= last <= s.max
             && Overwrites(NodeRuns(n, s), Runs(t, leaf), s.min, s.max, index, last, entry)
    ensures TreeOk(Replaced(t, leaf, n, s))
    ensures TreeLookup(Replaced(t, leaf, n, s), t.root, x) == if index <= x <= last then entry
            else TreeLookup(t, t.root, x)
  {
    hide Replaced, TreeLookup, NodeRuns, Lookup, NodeOk, HasParent, ChildOk, TreeOk;
    ReplacedMeans(t, leaf, n, s, x);
    if Covers(t, leaf, x) { CoveredLookup(t, leaf, x); }
  }

  lemma StoredEverywhere(t: Tree, leaf: Id, n: Node, s: Span, index: nat, last: nat, entry: Entry)
    requires TreeOk(t) && NewVersion(t, leaf, n, s)
    requires s.min <= index <= last <= s.max
             && Overwrites(NodeRuns(n, s), Runs(t, leaf), s.min, s.max, index, last, entry)
    ensures TreeOk(Replaced(t, leaf, n, s))
    ensures forall x :: 0 <= x <= ULONG_MAX ==>
              TreeLookup(Replaced(t, leaf, n, s), t.root, x) == if index <= x <= last then entry
                  else TreeLookup(t, t.root, x)
  {
    ReplacedOk(t, leaf, n, s);
    hide TreeLookup, NodeOk, ChildOk, HasParent, NodeRuns, Overwrites;
    forall x | 0 <= x <= ULONG_MAX
      ensures TreeLookup(Replaced(t, leaf, n, s), t.root, x) == if index <= x <= last then entry
              else TreeLookup(t, t.root, x)
    {
      StoredMeans(t, leaf, n, s, index, last, entry, x);
    }
  }

  lemma ReplacedAlloc(t: Tree, leaf: Id, n: Node, s: Span)
    requires AllocTree(t) && NewVersion(t, leaf, n, s) && (leaf != t.root ==> s.end > 0)
    ensures AllocTree(Replaced(t, leaf, n, s))
  {
    hide NodeOk, ChildOk, HasParent;
    ReplacedOk(t, leaf, n, s);
    var t' := Replaced(t, leaf, n, s);
    hide TreeOk;
    forall id | id in t'.nodes ensures id in t.nodes && t'.nodes[id].kind == t.nodes[id].kind {}
  }

  lemma ReplacedMetas(t: Tree, gd: map<Id, GapData>, leaf: Id, n: Node, s: Span)
    requires AllocTree(t) && MetasOk(t, gd) && NewVersion(t, leaf, n, s) && AllocTree(Replaced(t, leaf, n, s))
    ensures MetasOk(Replaced(t, leaf, n, s), gd)
  {
    hide NodeOk, ChildOk, HasParent, MetaOk;
    var t' := Replaced(t, leaf, n, s);
    forall id | IsBranch(t', id) ensures id in gd && MetaOk(gd[id], t'.span[id].end) {
      assert IsBranch(t, id);
    }
  }

  /** The new version of the leaf has the gap of the old one. */
  ghost predicate SameGap(t: Tree, leaf: Id, n: Node, s: Span)
    requires TreeOk(t) && NewVersion(t, leaf, n, s)
  {
    LeafGap(NodeRuns(n, s), s.min, s.max) == LeafGap(Runs(t, leaf), s.min, s.max)
  }

  lemma ReplacedRecorded(t: Tree, gd: map<Id, GapData>, leaf: Id, n: Node, s: Span, t': Tree, id: Id, i: nat)
    requires GapsOk(t, gd) && NewVersion(t, leaf, n, s) && t' == Replaced(t, leaf, n, s)
    requires AllocTree(t') && MetasOk(t', gd) && IsBranch(t', id) && i <= t'.span[id].end
    ensures Under(id, i) != n.parent || SameGap(t, leaf, n, s) ==> Recorded(t', gd, id, i)
  {
    hide LeafGap, HasParent, NodeOk;
    assert Recorded(t, gd, id, i);
    assert ChildOk(t, id, i) && ChildOk(t', id, i);
  }

  /**
    Only the slot that leads to the changed leaf can hold a stale gap, and not even that one if the leaf's gap is the
    same.
   */
  lemma ReplacedGaps(t: Tree, gd: map<Id, GapData>, leaf: Id, n: Node, s: Span)
    requires GapsOk(t, gd) && NewVersion(t, leaf, n, s) && (leaf != t.root ==> s.end > 0)
    ensures var t' := Replaced(t, leaf, n, s);
            GapsOkBut(t', gd, n.parent) && (SameGap(t, leaf, n, s) ==> GapsOk(t', gd))
  {
    var t' := Replaced(t, leaf, n, s);
    ReplacedAlloc(t, leaf, n, s);
    ReplacedMetas(t, gd, leaf, n, s);
    hide LeafGap, HasParent, NodeOk, ChildOk, Recorded, NewVersion, TreeOk, SameGap;
    forall id, i: nat | IsBranch(t', id) && i <= t'.span[id].end
      ensures Under(id, i) != n.parent || SameGap(t, leaf, n, s) ==> Recorded(t', gd, id, i)
    {
      ReplacedRecorded(t, gd, leaf, n, s, t', id, i);
    }
  }

  // ---- The write walk ----

  /** A store up to `last` stays in a node that ends at max: an empty last run may only end the whole index space. */
  predicate StaysIn(max: nat, last: nat, entry: Entry)
  {
    last < max || (last == max && (entry != NULL || last == ULONG_MAX))
  }

  /** One round of the write walk: mas_wr_node_walk in a node of any kind. */
  method WalkNode(n: Node, ghost s: Span, min: nat, max: nat, index: nat) returns (offset: nat, rMin: nat, rMax: nat)
    requires NodeOk(n, s) && min == s.min && max == s.max && s.min <= index <= s.max
    ensures offset <= s.end && InRun(NodeRuns(n, s), s.min, offset, index)
    ensures rMin == Start(NodeRuns(n, s), s.min, offset) && rMax == NodeRuns(n, s)[offset].last <= max
  {
    NodeDataEndCorrect(n, s);
    var count := NodeDataEnd(n, max);
    hide LeafOk, Settled, DataEnd;
    offset := 0;
    while offset < count && index > n.pivots[offset]
      invariant offset <= count
      invariant offset > 0 ==> n.pivots[offset - 1] < index
    {
      offset := offset + 1;
    }
    rMax := if offset < count then n.pivots[offset] else max;
    rMin := if offset != 0 then n.pivots[offset - 1] + 1 else min;
  }

  /** mas_is_span_wr: the store does not stay in the node, or in the slot of a branch. */
  predicate IsSpanning(leaf: bool, rMax: nat, max: nat, last: nat, entry: Entry)
  {
    if last < rMax then false
    else if leaf && last < max then false
    else !(last == (if leaf then max else rMax) && (entry != NULL || last == ULONG_MAX))
  }

  /** The leaf of an index lies inside every node on the way. */
  lemma {:induction false} LeafInside(t: Tree, id: Id, x: nat)
    requires TreeOk(t) && id in t.nodes && Covers(t, id, x)
    ensures LeafAt(t, id, x) in t.nodes && t.span[LeafAt(t, id, x)].max <= t.span[id].max
    decreases t.height - t.span[id].depth
  {
    if t.nodes[id].kind != Leaf64 {
      var s := t.span[id];
      var i := Find(Runs(t, id), x);
      FindInRun(Runs(t, id), s.min, s.max, x);
      SlotInside(t, id, i);
      LeafInside(t, Child(t, id, i), x);
    }
  }

  /** One step of the descent. */
  lemma ThroughChild(t: Tree, id: Id, i: nat, x: nat)
    requires TreeOk(t) && id in t.nodes && t.nodes[id].kind != Leaf64 && i <= t.span[id].end
    requires InRun(Runs(t, id), t.span[id].min, i, x)
    ensures i < |t.nodes[id].slots| && t.nodes[id].slots[i].Ent? && ChildOk(t, id, i) && Child(t, id, i) in t.nodes
    ensures var c := Child(t, id, i);
            && Covers(t, c, x) && LeafAt(t, id, x) == LeafAt(t, c, x)
               && t.span[c].depth == t.span[id].depth + 1 <= t.height
            && t.span[c].min == Start(Runs(t, id), t.span[id].min, i) && t.span[c].max == Runs(t, id)[i].last
            && LeafAt(t, c, x) in t.nodes && t.span[LeafAt(t, c, x)].max <= t.span[c].max
  {
    assert ChildOk(t, id, i);
    FindIs(Runs(t, id), t.span[id].min, t.span[id].max, i, x);
    LeafInside(t, Child(t, id, i), x);
  }

  lemma SpanningFacts(leaf: bool, rMax: nat, max: nat, last: nat, entry: Entry)
    requires rMax <= max
    ensures leaf ==> (IsSpanning(true, rMax, max, last, entry) <==> !StaysIn(max, last, entry))
    ensures !leaf ==> (IsSpanning(false, rMax, max, last, entry) <==> !StaysIn(rMax, last, entry))
  {
  }

  /**
    The write walk from the root: mas_wr_walk.  It ends in the leaf that holds the first index, unless the store
    does not stay in that leaf, which it may find out higher up.
   */
  method WriteWalk(t: Tree, index: nat, last: nat, entry: Entry) returns (found: bool, node: Id)
    requires TreeOk(t) && index <= last <= ULONG_MAX
    ensures LeafAt(t, t.root, index) in t.nodes
    ensures found <==> StaysIn(t.span[LeafAt(t, t.root, index)].max, last, entry)
    ensures found ==> node == LeafAt(t, t.root, index) && t.nodes[node].kind == Leaf64 && Covers(t, node, index)
  {
    hide NodeOk, HasParent, ChildOk, NodeRuns, IsSpanning;
    DescentStays(t, t.root, index);
    node := t.root;
    var min, max := 0, ULONG_MAX;
    while true
      invariant node in t.nodes && t.span[node].min == min && t.span[node].max == max && Covers(t, node, index)
      invariant LeafAt(t, t.root, index) == LeafAt(t, node, index)
      decreases t.height - t.span[node].depth
    {
      assert Present(t, node);
      var offset, rMin, rMax := WalkNode(t.nodes[node], t.span[node], min, max, index);
      SpanningFacts(t.nodes[node].kind == Leaf64, rMax, max, last, entry);
      if t.nodes[node].kind == Leaf64 {
        return !IsSpanning(true, rMax, max, last, entry), node;
      }
      ThroughChild(t, node, offset, index);
      if IsSpanning(false, rMax, max, last, entry) { return false, node; }
      node, min, max := t.nodes[node].slots[offset].e, rMin, rMax;
    }
  }

  /**
    Store an entry over a range of an allocation tree.  When the range stays in one leaf and so does the strategy, the
    new tree is well formed, holds the entry on exactly the range and the old entries elsewhere, and every slot of every
    branch again records the longest free stretch below it.
   */
  method StoreRange(t: Tree, gd: map<Id, GapData>, entry: Entry, index: nat, last: nat, inRcu: bool)
    returns (t': Tree, gd': map<Id, GapData>, how: StoreType)
    requires GapsOk(t, gd) && index <= last <= ULONG_MAX
    ensures GapsOk(t', gd') && t'.root == t.root && LeafAt(t, t.root, index) in t.nodes
    ensures how == SpanningStore <==> !StaysIn(t.span[LeafAt(t, t.root, index)].max, last, entry)
    ensures InLeaf(how) ==> forall x :: 0 <= x <= ULONG_MAX ==>
              TreeLookup(t', t.root, x) == if index <= x <= last then entry else TreeLookup(t, t.root, x)
    ensures !InLeaf(how) ==> t' == t && gd' == gd
  {
    hide TreeLookup, NodeOk, ChildOk, HasParent, LeafAt;
    var found, leaf := WriteWalk(t, index, last, entry);
    if !found { return t, gd, SpanningStore; }
    t', gd', how := StoreInLeaf(t, gd, leaf, entry, index, last, inRcu);
  }

  /**
    Store an entry over a range that lies in one leaf of an allocation tree.  When the strategy stays in the leaf, the
    new tree is well formed, holds the entry on exactly the range and the old entries elsewhere, and every slot of every
    branch again records the longest free stretch below it.
   */
  method StoreInLeaf(t: Tree, gd: map<Id, GapData>, leaf: Id, entry: Entry, index: nat, last: nat, inRcu: bool)
    returns (t': Tree, gd': map<Id, GapData>, how: StoreType)
    requires GapsOk(t, gd) && leaf in t.nodes && t.nodes[leaf].kind == Leaf64
    requires t.span[leaf].min <= index <= last <= t.span[leaf].max
             && (entry == NULL && last == t.span[leaf].max ==> last == ULONG_MAX)
    ensures GapsOk(t', gd') && t'.root == t.root && how != SpanningStore
    ensures InLeaf(how) ==> forall x :: 0 <= x <= ULONG_MAX ==>
              TreeLookup(t', t.root, x) == if index <= x <= last then entry else TreeLookup(t, t.root, x)
    ensures !InLeaf(how) ==> t' == t && gd' == gd
  {
    var n, s := t.nodes[leaf], t.span[leaf];
    ghost var runs := Runs(t, leaf);
    assert runs == RunsOf(n.pivots, n.slots, s.end, s.max);
    var w := new LeafWrite(n.pivots, n.slots, s.min, s.max, inRcu, leaf == t.root, entry, index, last);
    var gaps: bool;
    how, gaps := w.Store(s.end);
    if !InLeaf(how) { return t, gd, how; }
    var n', s' := n.(pivots := w.pivots, slots := w.slots), s.(end := w.end);
    LeafBecomesNode(n', s');
    t' := Replaced(t, leaf, n', s');
    ReplacedGaps(t, gd, leaf, n', s');
    StoredEverywhere(t, leaf, n', s', index, last, entry);
    hide TreeLookup, NodeOk, TreeOk, LeafGap;
    if gaps {
      var g := new GapTree(t', gd);
      g.UpdateGap(leaf);
      gd' := g.data;
    } else {
      gd' := gd;
      SameNullsSameGap(NodeRuns(n', s'), runs, s.min, s.max);
    }
  }

  lemma LeafBecomesNode(n: Node, s: Span)
    requires n.kind == Leaf64 && LeafOk(n.pivots, n.slots, s.end, s.min, s.max)
    requires Settled(RunsOf(n.pivots, n.slots, s.end, s.max), s.max)
    ensures NodeOk(n, s) && NodeRuns(n, s) == RunsOf(n.pivots, n.slots, s.end, s.max)
  {
    assert Readable(n, s.end);
    assert NodeRuns(n, s) == RunsOf(n.pivots, n.slots, s.end, s.max);
  }
}
