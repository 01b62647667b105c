/**
  Multi-level maple trees in memory, what they look up, and the two walks from the root.
  A node's gap data is kept apart from the rest of the node, in MapleGaps.
 */
module MapleTree {
  import opened Machine
  import opened MapleRuns
  import opened MapleLeaf

  const ARANGE_SLOTS: nat := 10
  const ARANGE_PIVOTS: nat := 9

  type Id = nat

  datatype Kind = Leaf64 | Range64 | Arange64

  datatype Parent = Root | Under(id: Id, slot: nat)

  /** A node: its pivots, its slots (entries in a leaf, nodes above), and for arange nodes the stored data end. */
  datatype Node = Node(kind: Kind, pivots: seq<nat>, slots: seq<Cell>, metaEnd: nat, parent: Parent)

  /** The indices a node covers, its data end, and its distance from the root. */
  datatype Span = Span(min: nat, max: nat, end: nat, depth: nat)

  function PivotCount(kind: Kind): nat
  {
    if kind == Arange64 then ARANGE_PIVOTS else PIVOTS
  }

  predicate Readable(n: Node, end: nat)
  {
    && |n.pivots| == PivotCount(n.kind) && |n.slots| == PivotCount(n.kind) + 1 && end < |n.slots|
    && (forall i :: 0 <= i <= end ==> n.slots[i].Ent?)
  }

  /** The runs of a node of any kind. */
  function NodeRuns(n: Node, s: Span): (r: seq<Run>)
    requires Readable(n, s.end)
    ensures |r| == s.end + 1
  {
    seq(s.end + 1, i requires 0 <= i <= s.end => Run(if i < s.end then n.pivots[i] else s.max, n.slots[i].e))
  }

  /** A well-formed node: leaf and range nodes share one layout, arange nodes store their data end. */
  predicate NodeOk(n: Node, s: Span)
  {
    && Readable(n, s.end) && Ordered(NodeRuns(n, s), s.min, s.max) && s.max <= ULONG_MAX
    && (s.end < PivotCount(n.kind) ==> n.pivots[s.end] == s.max)
    && (if n.kind == Arange64 then n.metaEnd == s.end
        else LeafOk(n.pivots, n.slots, s.end, s.min, s.max))
    && (n.kind == Leaf64 ==> Settled(NodeRuns(n, s), s.max))
  }

  /** The data end of a node: ma_data_end. */
  function NodeDataEnd(n: Node, max: nat): nat
    requires |n.pivots| == PivotCount(n.kind) && (n.kind != Arange64 ==> Sized(n.pivots, n.slots))
  {
    if n.kind == Arange64 then n.metaEnd else DataEnd(n.pivots, n.slots, max)
  }

  lemma NodeDataEndCorrect(n: Node, s: Span)
    requires NodeOk(n, s)
    ensures |n.pivots| == PivotCount(n.kind) && (n.kind != Arange64 ==> Sized(n.pivots, n.slots))
    ensures NodeDataEnd(n, s.max) == s.end
  {
    if n.kind != Arange64 { DataEndCorrect(n.pivots, n.slots, s.end, s.min, s.max); }
  }

  /** The slot whose run holds x. */
  function Find(runs: seq<Run>, x: nat): (i: nat)
    requires |runs| > 0
    ensures i < |runs| && (i > 0 ==> runs[i - 1].last < x) && (i + 1 < |runs| ==> x <= runs[i].last)
  {
    if |runs| == 1 || x <= runs[0].last then 0 else 1 + Find(runs[1..], x)
  }

  lemma FindIs(runs: seq<Run>, min: nat, max: nat, i: nat, x: nat)
    requires Ordered(runs, min, max) && i < |runs| && InRun(runs, min, i, x)
    ensures Find(runs, x) == i
  {
    assert forall k :: 0 <= k < i ==> runs[k].last < x;
  }

  lemma FindInRun(runs: seq<Run>, min: nat, max: nat, x: nat)
    requires Ordered(runs, min, max) && min <= x <= max
    ensures InRun(runs, min, Find(runs, x), x)
  {
  }

  lemma {:induction false} FindLookup(runs: seq<Run>, x: nat)
    requires |runs| > 0
    ensures Lookup(runs, x) == runs[Find(runs, x)].entry
  {
    if |runs| > 1 && x > runs[0].last { FindLookup(runs[1..], x); }
  }

  // ---- Trees ----

  datatype Tree = Tree(root: Id, nodes: map<Id, Node>, span: map<Id, Span>, height: nat)

  predicate Present(t: Tree, id: Id)
  {
    id in t.nodes && id in t.span && NodeOk(t.nodes[id], t.span[id]) && t.span[id].depth <= t.height
  }

  /** Slot i of branch `id` leads to a node that covers exactly the slot's interval. */
  predicate ChildOk(t: Tree, id: Id, i: nat)
    requires Present(t, id) && i <= t.span[id].end
  {
    var s := t.span[id];
    var runs := NodeRuns(t.nodes[id], s);
    var c := t.nodes[id].slots[i].e;
    && Present(t, c) && t.nodes[c].parent == Under(id, i)
    && t.span[c].min == Start(runs, s.min, i) && t.span[c].max == runs[i].last && t.span[c].depth == s.depth + 1
  }

  ghost predicate TreeOk(t: Tree)
  {
    && t.root in t.nodes
    && (forall id :: id in t.nodes ==> Present(t, id))
    && t.span[t.root].min == 0 && t.span[t.root].max == ULONG_MAX && t.nodes[t.root].parent == Root
    && (forall id, i: nat :: id in t.nodes && t.nodes[id].kind != Leaf64 && i <= t.span[id].end ==> ChildOk(t, id, i))
    && (forall id :: id in t.nodes && id != t.root ==> HasParent(t, id))
  }

  /** The parent pointer and parent slot of a node lead back to it. */
  predicate HasParent(t: Tree, id: Id)
    requires id in t.nodes
  {
    var p := t.nodes[id].parent;
    && p.Under? && Present(t, p.id) && t.nodes[p.id].kind != Leaf64 && p.slot <= t.span[p.id].end
    && t.nodes[p.id].slots[p.slot].e == id
  }

  function Runs(t: Tree, id: Id): seq<Run>
    requires Present(t, id)
  {
    NodeRuns(t.nodes[id], t.span[id])
  }

  function Child(t: Tree, id: Id, i: nat): Id
    requires Present(t, id) && i <= t.span[id].end
  {
    t.nodes[id].slots[i].e
  }

  /** The meaning of the tree below a node: descend through the slot whose interval holds x. */
  ghost function TreeLookup(t: Tree, id: Id, x: nat): Entry
    requires TreeOk(t) && id in t.nodes
    decreases t.height - t.span[id].depth
  {
    var i := Find(Runs(t, id), x);
    if t.nodes[id].kind == Leaf64 then Child(t, id, i)
    else assert ChildOk(t, id, i); TreeLookup(t, Child(t, id, i), x)
  }

  /** All indices of a slot's interval are looked up through that slot. */
  lemma ThroughSlot(t: Tree, id: Id, i: nat)
    requires TreeOk(t) && id in t.nodes && t.nodes[id].kind != Leaf64 && i <= t.span[id].end
    ensures ChildOk(t, id, i)
    ensures var c := Child(t, id, i); forall x :: t.span[c].min <= x <= t.span[c].max ==>
            TreeLookup(t, id, x) == TreeLookup(t, c, x)
  {
    assert ChildOk(t, id, i);
    var c, s := Child(t, id, i), t.span[id];
    forall x | t.span[c].min <= x <= t.span[c].max ensures TreeLookup(t, id, x) == TreeLookup(t, c, x) {
      FindIs(Runs(t, id), s.min, s.max, i, x);
    }
  }

  lemma InLeafSlot(t: Tree, id: Id, i: nat)
    requires TreeOk(t) && id in t.nodes && t.nodes[id].kind == Leaf64 && i <= t.span[id].end
    ensures forall x :: InRun(Runs(t, id), t.span[id].min, i, x) ==> TreeLookup(t, id, x) == Child(t, id, i)
  {
    var s := t.span[id];
    forall x | InRun(Runs(t, id), s.min, i, x) ensures TreeLookup(t, id, x) == Child(t, id, i) {
      FindIs(Runs(t, id), s.min, s.max, i, x);
    }
  }

  /** A slot and, in a branch, its child. */
  lemma SlotChild(t: Tree, id: Id, i: nat)
    requires TreeOk(t) && id in t.nodes && i <= t.span[id].end
    ensures i < |t.nodes[id].slots| && t.nodes[id].slots[i].Ent? && Child(t, id, i) == t.nodes[id].slots[i].e
    ensures t.span[id].min <= Start(Runs(t, id), t.span[id].min, i) && Runs(t, id)[i].last <= t.span[id].max
    ensures t.nodes[id].kind != Leaf64 ==>
              var c := Child(t, id, i);
              && Present(t, c) && t.span[c].depth == t.span[id].depth + 1
              && t.span[c].min == Start(Runs(t, id), t.span[id].min, i) && t.span[c].max == Runs(t, id)[i].last
              && forall x :: t.span[c].min <= x <= t.span[c].max ==> TreeLookup(t, id, x) == TreeLookup(t, c, x)
  {
    assert Present(t, id);
    hide TreeLookup, HasParent;
    if t.nodes[id].kind != Leaf64 { ThroughSlot(t, id, i); }
  }

  // ---- The walks ----

  /** The range walk's step in one node: slot and interval of the index. */
  method ScanToEnd(n: Node, ghost s: Span, min0: nat, max0: nat, index: nat)
      returns (offset: nat, min: nat, max: nat, end: nat)
    requires NodeOk(n, s) && min0 == s.min && max0 == s.max && s.min <= index <= s.max
    ensures end == s.end && offset <= end && InRun(NodeRuns(n, s), s.min, offset, index)
    ensures min == Start(NodeRuns(n, s), s.min, offset) && max == NodeRuns(n, s)[offset].last
  {
    NodeDataEndCorrect(n, s);
    end := NodeDataEnd(n, max0);
    min, max := min0, max0;
    assert end < PivotCount(n.kind) ==> n.pivots[end] == s.max;
    hide LeafOk, Settled, DataEnd;
    ghost var runs := NodeRuns(n, s);
    if n.pivots[0] >= index {
      offset, max := 0, n.pivots[0];
    } else {
      offset := 1;
      while offset < end
        invariant 1 <= offset <= end && n.pivots[offset - 1] < index && max == max0
        invariant offset < end ==> runs[offset].last == n.pivots[offset]
      {
        if n.pivots[offset] >= index {
          max := n.pivots[offset];
          break;
        }
        offset := offset + 1;
      }
      min := n.pivots[offset - 1] + 1;
    }
  }

  /** The quick walk's step: scan up to the pivot capacity, whatever the data end. */
  method ScanToCapacity(n: Node, ghost s: Span, index: nat) returns (offset: nat)
    requires NodeOk(n, s) && s.min <= index <= s.max
    ensures offset <= s.end && InRun(NodeRuns(n, s), s.min, offset, index)
  {
    var capacity := PivotCount(n.kind);
    offset := 0;
    while offset < capacity && n.pivots[offset] < index
      invariant offset <= s.end
      invariant offset > 0 ==> n.pivots[offset - 1] < index
      decreases capacity - offset
    {
      assert offset != s.end;
      offset := offset + 1;
    }
  }

  /**
    mtree_range_walk: the entry for the index, the leaf and slot it is in, and the slot's interval, over all of
    which the tree holds that entry.
   */
  method RangeWalk(t: Tree, index: nat)
      returns (entry: Entry, leaf: Id, offset: nat, first: nat, last: nat, end: nat, min: nat, max: nat)
    requires TreeOk(t) && index <= ULONG_MAX
    ensures entry == TreeLookup(t, t.root, index)
    ensures leaf in t.nodes && t.nodes[leaf].kind == Leaf64 && t.span[leaf] == Span(min, max, end, t.span[leaf].depth)
            && offset <= end
    ensures first == Start(Runs(t, leaf), min, offset) <= index <= last == Runs(t, leaf)[offset].last
    ensures forall x :: first <= x <= last ==> TreeLookup(t, t.root, x) == entry
  {
    hide TreeLookup, NodeOk, NodeRuns, ChildOk, HasParent;
    leaf, min, max := t.root, 0, ULONG_MAX;
    assert Present(t, leaf);
    offset, first, last, end := ScanToEnd(t.nodes[leaf], t.span[leaf], min, max, index);
    while t.nodes[leaf].kind != Leaf64
      invariant leaf in t.nodes && t.span[leaf] == Span(min, max, end, t.span[leaf].depth) && min <= index <= max
      invariant offset <= end && first == Start(Runs(t, leaf), min, offset) <= index
      invariant index <= last == Runs(t, leaf)[offset].last
      invariant forall x :: min <= x <= max ==> TreeLookup(t, t.root, x) == TreeLookup(t, leaf, x)
      decreases t.height - t.span[leaf].depth
    {
      SlotChild(t, leaf, offset);
      leaf, min, max := t.nodes[leaf].slots[offset].e, first, last;
      offset, first, last, end := ScanToEnd(t.nodes[leaf], t.span[leaf], min, max, index);
    }
    SlotChild(t, leaf, offset);
    entry := t.nodes[leaf].slots[offset].e;
    InLeafSlot(t, leaf, offset);
    assert InRun(Runs(t, leaf), min, offset, index);
    forall x | first <= x <= last
      ensures TreeLookup(t, t.root, x) == entry
    {
      assert InRun(Runs(t, leaf), min, offset, x);
    }
  }

  /** mtree_lookup_walk: the entry for the index. */
  method LookupWalk(t: Tree, index: nat) returns (entry: Entry)
    requires TreeOk(t) && index <= ULONG_MAX
    ensures entry == TreeLookup(t, t.root, index)
  {
    hide TreeLookup, NodeRuns, LeafOk, Settled, Ordered;
    var next := t.root;
    var offset: nat := ScanToCapacity(t.nodes[next], t.span[next], index);
    while t.nodes[next].kind != Leaf64
      invariant next in t.nodes && t.span[next].min <= index <= t.span[next].max && offset <= t.span[next].end
      invariant InRun(Runs(t, next), t.span[next].min, offset, index)
      invariant TreeLookup(t, t.root, index) == TreeLookup(t, next, index)
      decreases t.height - t.span[next].depth
    {
      ThroughSlot(t, next, offset);
      next := t.nodes[next].slots[offset].e;
      offset := ScanToCapacity(t.nodes[next], t.span[next], index);
    }
    InLeafSlot(t, next, offset);
    entry := t.nodes[next].slots[offset].e;
  }
}
