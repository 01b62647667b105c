/**
  The shape of the RCU node tree: how many nodes each level has, where each level starts in
  the flat node array, and which parent each node reports to.  The protocol relies only on
  WellLinked, which the construction establishes for any CPU count and fanout, and on a single root.
 */
module RcuTopology {
  import opened Machine

  const MAX_LEVELS := 4

  datatype Node = Node(level: nat, parent: int, grpStart: nat, grpLast: int)

  datatype Tree = Tree(cpus: nat, fanout: nat, cnt: seq<nat>, offset: seq<nat>, nodes: seq<Node>)

  // ---- Division ----

  function CeilDiv(n: nat, f: nat): nat
    requires f > 0
  {
    (n + f - 1) / f
  }

  lemma DivFacts(n: nat, f: nat)
    requires f > 0
    ensures (n / f) * f <= n < (n / f) * f + f
    ensures n % f == n - (n / f) * f
  {
  }

  lemma CeilDivFacts(n: nat, f: nat)
    requires f > 0 && n > 0
    ensures var q := CeilDiv(n, f);
            q >= 1 && (q - 1) * f < n <= q * f
  {
    var q := CeilDiv(n, f);
    DivFacts(n + f - 1, f);
    assert (q - 1) * f == q * f - f;
    assert q == 0 ==> q * f == 0;
  }

  /** x = q*f + r with r < f determines quotient and remainder. */
  lemma DivModUnique(q: nat, r: nat, f: nat)
    requires r < f
    ensures (q * f + r) / f == q && (q * f + r) % f == r
  {
    var x := q * f + r;
    DivFacts(x, f);
    var e := q - x / f;
    assert e * f == x % f - r by { assert e * f == q * f - (x / f) * f; }
    assert e >= 1 ==> e * f >= f by { if e >= 1 { MulMono(1, e, f); } }
    assert e <= -1 ==> e * f + f <= 0 by { if e <= -1 { MulMono(e + 1, 0, f); } }
  }

  lemma MulMono(a: int, b: int, f: nat)
    requires a <= b
    ensures a * f <= b * f
  {
    assert (b - a) * f >= 0;
  }

  lemma DivBelow(j: nat, q: nat, f: nat)
    requires f > 0 && j < q * f
    ensures j / f < q
  {
    DivFacts(j, f);
    if j / f >= q { MulMono(q, j / f, f); }
  }

  // ---- Level sizes ----

  function Pow(f: nat, k: nat): nat
  {
    if k == 0 then 1 else f * Pow(f, k - 1)
  }

  /** Dividing by the fanout, rounding up, takes one factor off the capacity bound. */
  lemma CeilDivPow(n: nat, f: nat, k: nat)
    requires f > 0 && n > 0
    ensures n <= Pow(f, k + 1) <==> CeilDiv(n, f) <= Pow(f, k)
  {
    var q, p := CeilDiv(n, f), Pow(f, k);
    CeilDivFacts(n, f);
    assert Pow(f, k + 1) == f * p == p * f;
    if q <= p { MulMono(q, p, f); }
    if q > p { MulMono(p, q - 1, f); }
  }

  ghost predicate LevelCounts(cpus: nat, f: nat, cnt: seq<nat>)
    requires f > 0
  {
    && 1 <= |cnt| <= MAX_LEVELS
    && cnt[0] == CeilDiv(cpus, f)
    && (forall l :: 0 < l < |cnt| ==> cnt[l] == CeilDiv(cnt[l - 1], f))
    && (forall l :: 0 <= l < |cnt| ==> cnt[l] >= 1)
    && (forall l :: 0 <= l < |cnt| - 1 ==> cnt[l] > 1)
  }

  /** Each level divides what the levels above it have to hold by the fanout. */
  lemma {:induction false} LevelCapacity(cpus: nat, f: nat, cnt: seq<nat>, l: nat)
    requires cpus >= 1 && f >= 1 && LevelCounts(cpus, f, cnt) && l < |cnt|
    ensures cpus <= Pow(f, MAX_LEVELS) <==> cnt[l] <= Pow(f, MAX_LEVELS - 1 - l)
  {
    hide Pow;
    if l == 0 {
      CeilDivPow(cpus, f, MAX_LEVELS - 1);
    } else {
      LevelCapacity(cpus, f, cnt, l - 1);
      CeilDivPow(cnt[l - 1], f, MAX_LEVELS - 1 - l);
    }
  }

  /** The tree gets a single root exactly when the CPUs fit into four levels. */
  method LevelSizes(cpus: nat, f: nat) returns (cnt: seq<nat>)
    requires cpus >= 1 && f >= 1
    ensures LevelCounts(cpus, f, cnt) && (cnt[|cnt| - 1] == 1 || |cnt| == MAX_LEVELS)
    ensures cnt[|cnt| - 1] == 1 <==> cpus <= Pow(f, MAX_LEVELS)
  {
    cnt := [CeilDiv(cpus, f)];
    CeilDivFacts(cpus, f);
    while cnt[|cnt| - 1] > 1 && |cnt| < MAX_LEVELS
      invariant LevelCounts(cpus, f, cnt)
      decreases MAX_LEVELS - |cnt|
    {
      var n := cnt[|cnt| - 1];
      CeilDivFacts(n, f);
      cnt := cnt + [CeilDiv(n, f)];
    }
    LevelCapacity(cpus, f, cnt, |cnt| - 1);
    PowPositive(f, MAX_LEVELS - |cnt|);
  }

  lemma {:induction false} PowPositive(f: nat, k: nat)
    requires f > 0
    ensures Pow(f, k) >= 1
  {
    if k > 0 { PowPositive(f, k - 1); MulMono(1, Pow(f, k - 1), f); }
  }

  // ---- The node array ----

  /** Nodes on the levels below l. */
  function Offset(cnt: seq<nat>, l: nat): nat
    requires l <= |cnt|
  {
    if l == 0 then 0 else Offset(cnt, l - 1) + cnt[l - 1]
  }

  lemma {:induction false} OffsetMonotone(cnt: seq<nat>, l: nat, k: nat)
    requires l < k <= |cnt|
    ensures Offset(cnt, l) + cnt[l] <= Offset(cnt, k)
  {
    if l < k - 1 { OffsetMonotone(cnt, l, k - 1); }
  }

  /** The contents given to the node at position j of level l. */
  function NodeAt(cpus: nat, f: nat, cnt: seq<nat>, offset: seq<nat>, l: nat, j: nat): Node
    requires f > 0 && l < |cnt| == |offset|
  {
    var last := (j + 1) * f - 1;
    Node(l,
         if l < |cnt| - 1 then offset[l + 1] + j / f else -1,
         j * f,
         if l == 0 && last >= cpus then cpus - 1 else last)
  }

  /** Node n is what belongs at index i of the array. */
  ghost predicate PlacedRight(cpus: nat, f: nat, cnt: seq<nat>, offset: seq<nat>, n: Node, i: int)
    requires f > 0 && |cnt| == |offset|
  {
    && n.level < |cnt|
    && offset[n.level] <= i < offset[n.level] + cnt[n.level]
    && n == NodeAt(cpus, f, cnt, offset, n.level, i - offset[n.level])
  }

  ghost predicate Built(t: Tree)
  {
    && t.cpus >= 1 && t.fanout >= 1
    && LevelCounts(t.cpus, t.fanout, t.cnt) && (t.cnt[|t.cnt| - 1] == 1 || |t.cnt| == MAX_LEVELS)
    && |t.offset| == |t.cnt|
    && (forall l :: 0 <= l < |t.cnt| ==> t.offset[l] == Offset(t.cnt, l))
    && |t.nodes| == Offset(t.cnt, |t.cnt|)
    && (forall i :: 0 <= i < |t.nodes| ==> PlacedRight(t.cpus, t.fanout, t.cnt, t.offset, t.nodes[i], i))
  }

  method Build(cpus: nat, fanout: nat) returns (t: Tree)
    requires cpus >= 1 && fanout >= 1
    ensures Built(t) && t.cpus == cpus && t.fanout == fanout
    ensures t.cnt[|t.cnt| - 1] == 1 <==> cpus <= Pow(fanout, MAX_LEVELS)
  {
    hide Pow;
    var cnt := LevelSizes(cpus, fanout);
    var offset: seq<nat>, total: nat := [], 0;
    for l := 0 to |cnt|
      invariant |offset| == l && total == Offset(cnt, l)
      invariant forall k :: 0 <= k < l ==> offset[k] == Offset(cnt, k)
    {
      offset, total := offset + [total], total + cnt[l];
    }
    var nodes: seq<Node> := [];
    for l := 0 to |cnt|
      invariant |nodes| == Offset(cnt, l)
      invariant forall i :: 0 <= i < |nodes| ==>
                  nodes[i].level < l && PlacedRight(cpus, fanout, cnt, offset, nodes[i], i)
    {
      for j := 0 to cnt[l]
        invariant |nodes| == Offset(cnt, l) + j
        invariant forall i :: 0 <= i < |nodes| ==>
                    nodes[i].level <= l && PlacedRight(cpus, fanout, cnt, offset, nodes[i], i)
      {
        nodes := nodes + [NodeAt(cpus, fanout, cnt, offset, l, j)];
      }
    }
    t := Tree(cpus, fanout, cnt, offset, nodes);
  }

  // ---- What the protocol needs ----

  predicate Sized(t: Tree)
  {
    && t.fanout >= 1 && |t.cnt| == |t.offset| && |t.nodes| > 0
    && (forall i :: 0 <= i < |t.nodes| ==>
          t.nodes[i].level < |t.cnt|
          && t.offset[t.nodes[i].level] <= i < t.offset[t.nodes[i].level] + t.cnt[t.nodes[i].level])
  }

  predicate IsNode(t: Tree, i: int)
  {
    0 <= i < |t.nodes|
  }

  predicate IsLeaf(t: Tree, i: int)
    requires IsNode(t, i)
  {
    t.nodes[i].level == 0
  }

  /** Position of a node on its level. */
  function Index(t: Tree, i: int): nat
    requires Sized(t) && IsNode(t, i)
  {
    i - t.offset[t.nodes[i].level]
  }

  /** The bit a node clears in its parent's mask. */
  function Bit(t: Tree, i: int): nat
    requires Sized(t) && IsNode(t, i)
  {
    Index(t, i) % t.fanout
  }

  /** The number of bits an internal node's mask starts with. */
  function NumChildren(t: Tree, u: int): nat
    requires Sized(t) && IsNode(t, u) && !IsLeaf(t, u)
  {
    var total := t.cnt[t.nodes[u].level - 1];
    if Index(t, u) == t.cnt[t.nodes[u].level] - 1 then
      if total % t.fanout == 0 then t.fanout else total % t.fanout
    else
      t.fanout
  }

  function Child(t: Tree, u: int, b: nat): int
    requires Sized(t) && IsNode(t, u) && !IsLeaf(t, u)
  {
    t.offset[t.nodes[u].level - 1] + Index(t, u) * t.fanout + b
  }

  predicate IsRoot(t: Tree, i: int)
    requires IsNode(t, i)
  {
    t.nodes[i].parent == -1
  }

  predicate ParentOk(t: Tree, v: int)
    requires Sized(t) && IsNode(t, v)
  {
    var u := t.nodes[v].parent;
    IsNode(t, u) && t.nodes[u].level == t.nodes[v].level + 1 && Bit(t, v) < NumChildren(t, u)
        && Child(t, u, Bit(t, v)) == v
  }

  predicate ChildOk(t: Tree, u: int, b: nat)
    requires Sized(t) && IsNode(t, u) && !IsLeaf(t, u)
  {
    var v := Child(t, u, b);
    IsNode(t, v) && t.nodes[v].parent == u && Bit(t, v) == b && t.nodes[v].level + 1 == t.nodes[u].level
  }

  predicate LeafOk(t: Tree, c: nat)
    requires Sized(t)
  {
    var i := c / t.fanout;
    && IsNode(t, i) && IsLeaf(t, i)
    && t.nodes[i].grpStart <= c <= t.nodes[i].grpLast
    && t.nodes[i].grpStart + c % t.fanout == c
  }

  /** CPU c is in the range of leaf i. */
  predicate InRange(t: Tree, i: int, c: nat)
    requires IsNode(t, i)
  {
    t.nodes[i].grpStart <= c <= t.nodes[i].grpLast
  }

  /**
    Parent indices, child masks and leaf ranges fit together: a node's bit is among those its
    parent waits for, every bit waited for belongs to a child, and a leaf's range is its CPUs.
   */
  ghost predicate WellLinked(t: Tree)
  {
    && Sized(t)
    && (forall v :: IsNode(t, v) && !IsRoot(t, v) ==> ParentOk(t, v))
    && (forall u :: IsNode(t, u) && !IsLeaf(t, u) ==> 1 <= NumChildren(t, u) <= t.fanout)
    && (forall u, b :: IsNode(t, u) && !IsLeaf(t, u) && 0 <= b < NumChildren(t, u) ==> ChildOk(t, u, b))
    && (forall c :: 0 <= c < t.cpus ==> LeafOk(t, c))
    && (forall i, c: nat :: IsNode(t, i) && IsLeaf(t, i) && InRange(t, i, c) ==> c < t.cpus && c / t.fanout == i)
  }

  /** The last node is the only root. */
  ghost predicate OneRoot(t: Tree)
  {
    forall v :: IsNode(t, v) ==> (IsRoot(t, v) <==> v == |t.nodes| - 1)
  }

  lemma NodeIn(t: Tree, l: nat, j: nat)
    requires Built(t) && l < |t.cnt| && j < t.cnt[l]
    ensures var i := t.offset[l] + j;
            IsNode(t, i) && t.nodes[i] == NodeAt(t.cpus, t.fanout, t.cnt, t.offset, l, j)
  {
    var i := t.offset[l] + j;
    if l + 1 < |t.cnt| { OffsetMonotone(t.cnt, l, |t.cnt|); }
    assert IsNode(t, i);
    var k := t.nodes[i].level;
    if k < l { OffsetMonotone(t.cnt, k, l); }
    if l < k { OffsetMonotone(t.cnt, l, k); }
  }

  /** The children of the node at (l, j) are those of positions j*f .. j*f + NumChildren - 1 below. */
  lemma ChildCount(t: Tree, u: int)
    requires Built(t) && Sized(t) && IsNode(t, u) && !IsLeaf(t, u)
    ensures 1 <= NumChildren(t, u) <= t.fanout
    ensures var j, below := Index(t, u), t.cnt[t.nodes[u].level - 1];
            if j == t.cnt[t.nodes[u].level] - 1 then j * t.fanout + NumChildren(t, u) == below
            else (j + 1) * t.fanout <= below
  {
    var f := t.fanout;
    var l, j := t.nodes[u].level, Index(t, u);
    var total := t.cnt[l - 1];
    var q := t.cnt[l];
    CeilDivFacts(total, f);
    DivFacts(total, f);
    if j == q - 1 {
      var r := total - j * f;
      assert 0 < r <= f;
      if r < f { DivModUnique(j, r, f); } else { DivModUnique(q, 0, f); }
    } else {
      MulMono(j + 1, q - 1, f);
    }
  }

  lemma ChildInRange(t: Tree, u: int, b: nat)
    requires Built(t) && Sized(t) && IsNode(t, u) && !IsLeaf(t, u) && b < NumChildren(t, u)
    ensures Index(t, u) * t.fanout + b < t.cnt[t.nodes[u].level - 1]
  {
    ChildCount(t, u);
    hide Built;
    var j, f := Index(t, u), t.fanout;
    assert (j + 1) * f == j * f + f;
  }

  lemma ChildNode(t: Tree, u: int, b: nat)
    requires Built(t) && Sized(t) && IsNode(t, u) && !IsLeaf(t, u) && b < NumChildren(t, u)
    ensures var l, k := t.nodes[u].level - 1, Index(t, u) * t.fanout + b;
            && b < t.fanout && l + 1 < |t.cnt| && IsNode(t, t.offset[l] + k)
            && t.nodes[t.offset[l] + k] == NodeAt(t.cpus, t.fanout, t.cnt, t.offset, l, k)
  {
    hide Built, NumChildren, Index;
    ChildCount(t, u);
    ChildInRange(t, u, b);
    NodeIn(t, t.nodes[u].level - 1, Index(t, u) * t.fanout + b);
  }

  lemma ChildrenOk(t: Tree, u: int, b: nat)
    requires Built(t) && Sized(t) && IsNode(t, u) && !IsLeaf(t, u) && b < NumChildren(t, u)
    ensures ChildOk(t, u, b)
  {
    hide Built, NumChildren;
    ChildNode(t, u, b);
    DivModUnique(Index(t, u), b, t.fanout);
  }

  lemma ParentInRange(t: Tree, l: nat, j: nat)
    requires Built(t) && t.fanout >= 1 && l + 1 < |t.cnt| && j < t.cnt[l]
    ensures j / t.fanout < t.cnt[l + 1]
  {
    CeilDivFacts(t.cnt[l], t.fanout);
    DivBelow(j, t.cnt[l + 1], t.fanout);
  }

  lemma ParentIs(t: Tree, v: int)
    requires Built(t) && Sized(t) && IsNode(t, v) && t.nodes[v].level < |t.cnt| - 1
    ensures var u := t.nodes[v].parent;
            IsNode(t, u) && t.nodes[u].level == t.nodes[v].level + 1 && Index(t, u) == Index(t, v) / t.fanout
  {
    hide Built;
    var f, l, j := t.fanout, t.nodes[v].level, Index(t, v);
    NodeIn(t, l, j);
    ParentInRange(t, l, j);
    NodeIn(t, l + 1, j / f);
  }

  lemma ParentsOk(t: Tree, v: int)
    requires Built(t) && Sized(t) && IsNode(t, v) && t.nodes[v].level < |t.cnt| - 1
    ensures ParentOk(t, v)
  {
    ParentIs(t, v);
    var u := t.nodes[v].parent;
    ChildCount(t, u);
    hide Built, NumChildren;
    var f, j := t.fanout, Index(t, v);
    var q := j / f;
    DivFacts(j, f);
    assert j < t.cnt[t.nodes[v].level];
    assert q != t.cnt[t.nodes[u].level] - 1 ==> NumChildren(t, u) == f by { ChildCountBelowLast(t, u); }
  }

  lemma ChildCountBelowLast(t: Tree, u: int)
    requires Sized(t) && IsNode(t, u) && !IsLeaf(t, u)
    ensures Index(t, u) != t.cnt[t.nodes[u].level] - 1 ==> NumChildren(t, u) == t.fanout
  {
  }

  lemma LeavesOk(t: Tree, c: nat)
    requires Built(t) && Sized(t) && c < t.cpus
    ensures LeafOk(t, c)
  {
    var f := t.fanout;
    CeilDivFacts(t.cpus, f);
    DivBelow(c, t.cnt[0], f);
    NodeIn(t, 0, c / f);
    DivFacts(c, f);
  }

  lemma RangesOk(t: Tree, i: int, c: nat)
    requires Built(t) && Sized(t) && IsNode(t, i) && IsLeaf(t, i) && InRange(t, i, c)
    ensures c < t.cpus && c / t.fanout == i
  {
    var f, j := t.fanout, Index(t, i);
    NodeIn(t, 0, j);
    assert c - j * f < f by { assert (j + 1) * f == j * f + f; }
    DivModUnique(j, c - j * f, f);
  }

  /** The roots of a built tree are the nodes of its top level. */
  lemma RootsAreTop(t: Tree, v: int)
    requires Built(t) && IsNode(t, v)
    ensures IsRoot(t, v) <==> t.nodes[v].level == |t.cnt| - 1
  {
    hide LevelCounts, Offset;
    assert PlacedRight(t.cpus, t.fanout, t.cnt, t.offset, t.nodes[v], v);
  }

  /** Any CPU count, with any fanout, gives a consistent tree, which has a single root if its top level has one node. */
  lemma BuiltIsWellLinked(t: Tree)
    requires Built(t)
    ensures WellLinked(t) && (OneRoot(t) <==> t.cnt[|t.cnt| - 1] == 1)
  {
    NodeIn(t, 0, 0);
    assert Sized(t);
    forall v | IsNode(t, v) && !IsRoot(t, v)
      ensures ParentOk(t, v)
    {
      RootsAreTop(t, v);
      ParentsOk(t, v);
    }
    forall u | IsNode(t, u) && !IsLeaf(t, u) ensures 1 <= NumChildren(t, u) <= t.fanout { ChildCount(t, u); }
    forall u, b | IsNode(t, u) && !IsLeaf(t, u) && 0 <= b < NumChildren(t, u)
      ensures ChildOk(t, u, b)
    {
      ChildrenOk(t, u, b);
    }
    forall c | 0 <= c < t.cpus ensures LeafOk(t, c) { LeavesOk(t, c); }
    forall i, c: nat | IsNode(t, i) && IsLeaf(t, i) && InRange(t, i, c)
      ensures c < t.cpus && c / t.fanout == i
    {
      RangesOk(t, i, c);
    }
    RootCount(t);
  }

  /** A built tree has a single root exactly if the CPUs fit into four levels. */
  lemma OneRootIff(t: Tree)
    requires Built(t)
    ensures OneRoot(t) <==> t.cpus <= Pow(t.fanout, MAX_LEVELS)
  {
    RootCount(t);
    LevelCapacity(t.cpus, t.fanout, t.cnt, |t.cnt| - 1);
    PowPositive(t.fanout, MAX_LEVELS - |t.cnt|);
  }

  lemma RootCount(t: Tree)
    requires Built(t)
    ensures OneRoot(t) <==> t.cnt[|t.cnt| - 1] == 1
  {
    var top := |t.cnt| - 1;
    NodeIn(t, top, 0);
    RootsAreTop(t, t.offset[top]);
    if t.cnt[top] == 1 {
      forall v | IsNode(t, v)
        ensures IsRoot(t, v) <==> v == |t.nodes| - 1
      {
        RootsAreTop(t, v);
        var l := t.nodes[v].level;
        if l < top { OffsetMonotone(t.cnt, l, top); }
      }
    } else {
      assert IsRoot(t, t.offset[top]) && t.offset[top] < |t.nodes| - 1;
    }
  }

  // ---- Bits in 64-bit words ----

  /** The bit that a one shifted left by p is: the processor takes shift counts modulo the word size. */
  function WordBit(p: nat): nat
  {
    p % BITS
  }

  /** Every CPU of a leaf and every child of a node has a position inside the word. */
  ghost predicate Narrow(t: Tree)
    requires Sized(t)
  {
    && (forall c: nat :: c < t.cpus ==> c % t.fanout < BITS)
    && (forall u :: IsNode(t, u) && !IsLeaf(t, u) ==> NumChildren(t, u) <= BITS)
  }

  /** No two CPUs of one leaf have the same bit. */
  ghost predicate BitsApart(t: Tree)
    requires t.fanout > 0
  {
    forall c: nat, d: nat :: c < d < t.cpus && c / t.fanout == d / t.fanout ==>
        WordBit(c % t.fanout) != WordBit(d % t.fanout)
  }

  lemma SameLeafApart(f: nat, c: nat, d: nat)
    requires f > 0 && c < d && c / f == d / f
    ensures c % f < d % f
  {
    DivFacts(c, f);
    DivFacts(d, f);
  }

  lemma PositionBound(c: nat, f: nat)
    requires f > 0
    ensures c % f < f && c % f <= c
  {
    DivFacts(c, f);
  }

  lemma SmallBit(p: nat)
    requires p < BITS
    ensures WordBit(p) == p
  {
  }

  /** With a fanout above 64, CPU 64 is in the leaf of CPU 0 and has its bit. */
  lemma SmallRemainder(f: nat)
    requires f > BITS
    ensures 64 % f == 64 && 64 / f == 0 && 0 % f == 0 && 0 / f == 0 && WordBit(64 % f) == WordBit(0 % f)
  {
    DivModUnique(0, 64, f);
    DivModUnique(0, 0, f);
  }

  /** Positions fit the word, and CPUs have bits of their own, exactly if the fanout or the CPU count is at most 64. */
  lemma NarrowIff(t: Tree)
    requires Built(t) && Sized(t)
    ensures Narrow(t) <==> t.fanout <= BITS || t.cpus <= BITS
    ensures BitsApart(t) <==> t.fanout <= BITS || t.cpus <= BITS
  {
    var f := t.fanout;
    if t.fanout <= BITS || t.cpus <= BITS {
      forall c: nat | c < t.cpus ensures c % f < BITS { PositionBound(c, f); }
      forall u | IsNode(t, u) && !IsLeaf(t, u) ensures NumChildren(t, u) <= BITS { ChildCount(t, u); FewCpus(t, u); }
      hide Built;
      forall c: nat, d: nat | c < d < t.cpus && c / f == d / f
        ensures WordBit(c % f) != WordBit(d % f)
      {
        SameLeafApart(f, c, d);
        SmallBit(c % f);
        SmallBit(d % f);
      }
    } else {
      SmallRemainder(f);
      assert WordBit(0 % f) == WordBit(64 % f);
    }
  }

  lemma FewCpus(t: Tree, u: int)
    requires Built(t) && Sized(t) && IsNode(t, u) && !IsLeaf(t, u)
    ensures t.cpus > t.fanout
  {
    var q, f := t.cnt[0], t.fanout;
    assert q > 1;
    CeilDivFacts(t.cpus, f);
    hide Built;
    MulMono(1, q - 1, f);
  }
}
