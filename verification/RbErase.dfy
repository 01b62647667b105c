/**
  Removing a node from a red-black tree: unlinking it, or putting its in-order successor in its
  place, and then the fix-up.
 */
module RbErase {
  import opened RbTree

  // ---- Composing contexts ----

  /** The context d inside the context `base`. */
  function Graft(d: Ctx, base: Ctx): Ctx
  {
    match d
    case Top => base
    case InLeft(up, n, red, r) => InLeft(Graft(up, base), n, red, r)
    case InRight(l, n, red, up) => InRight(l, n, red, Graft(up, base))
  }

  lemma {:induction false} GraftPlug(d: Ctx, base: Ctx, t: Tree)
    ensures Plug(Graft(d, base), t) == Plug(base, Plug(d, t))
  {
    match d
    case Top =>
    case InLeft(up, n, red, r) => GraftPlug(up, base, Node(t, n, red, r));
    case InRight(l, n, red, up) => GraftPlug(up, base, Node(l, n, red, t));
  }

  lemma {:induction false} FocusDown(m: Mem, root: Ptr, base: Ctx, d: Ctx, t: Tree)
    requires At(m, root, base, Plug(d, t))
    ensures At(m, root, Graft(d, base), t)
  {
    match d
    case Top =>
    case InLeft(up, n, red, r) =>
      FocusDown(m, root, base, up, Node(t, n, red, r));
      DownLeft(m, root, Graft(up, base), Node(t, n, red, r));
    case InRight(l, n, red, up) =>
      FocusDown(m, root, base, up, Node(l, n, red, t));
      DownRight(m, root, Graft(up, base), Node(l, n, red, t));
  }

  lemma {:induction false} FocusUp(m: Mem, root: Ptr, base: Ctx, d: Ctx, t: Tree)
    requires At(m, root, Graft(d, base), t)
    ensures At(m, root, base, Plug(d, t))
  {
    match d
    case Top =>
    case InLeft(up, n, red, r) =>
      UpLeft(m, root, Graft(up, base), Node(t, n, red, r));
      FocusUp(m, root, base, up, Node(t, n, red, r));
    case InRight(l, n, red, up) =>
      UpRight(m, root, Graft(up, base), Node(l, n, red, t));
      FocusUp(m, root, base, up, Node(l, n, red, t));
  }

  /** Which node stands where makes no difference to what a context accepts. */
  lemma {:induction false} AcceptsRenamed(d: Ctx, l: Tree, n: Ptr, s: Ptr, red: bool, c: Ctx, h: int, isRed: bool)
    ensures Accepts(Graft(d, InRight(l, n, red, c)), h, isRed) <==> Accepts(Graft(d, InRight(l, s, red, c)), h, isRed)
  {
    match d
    case Top =>
    case InLeft(up, _, nred, _) => AcceptsRenamed(up, l, n, s, red, c, if nred then h else h + 1, nred);
    case InRight(_, _, nred, up) => AcceptsRenamed(up, l, n, s, red, c, if nred then h else h + 1, nred);
  }

  /** Going left only. */
  predicate Leftward(d: Ctx)
  {
    d.Top? || (d.InLeft? && Leftward(d.up))
  }

  lemma {:induction false} LeftwardBefore(d: Ctx)
    requires Leftward(d)
    ensures Before(d) == []
  {
    if d.InLeft? { LeftwardBefore(d.up); }
  }

  // ---- Replacing a node by its only child ----

  /** t with its root given a colour. */
  function Painted(t: Tree, red: bool): Tree
  {
    if t.Leaf? then Leaf else Node(t.l, t.n, red, t.r)
  }

  /** Memory after y has taken the place of x below q, with the given colour. */
  function ReplaceMem(m: Mem, root: Ptr, q: Ptr, x: Ptr, y: Ptr, red: bool): (Mem, Ptr)
    requires (q != NULL ==> q in m) && (y != NULL ==> y in m)
  {
    var (w, r) := Redirect(m, root, q, x, y);
    (if y == NULL then w else w[y := w[y].(parent := q, red := red)], r)
  }

  lemma PaintedHolds(m: Mem, w: Mem, t: Tree, x: Ptr, p: Ptr, q: Ptr, red: bool)
    requires Holds(m, t, x, p) && Same(m, w, Nodes(t) - {x})
    requires t.Node? ==> x in m && x in w && w[x] == m[x].(parent := q, red := red)
    ensures Holds(w, Painted(t, red), x, q) && Nodes(Painted(t, red)) == Nodes(t) && RootOf(Painted(t, red)) == x
  {
    if t.Node? {
      HoldsFrame(m, w, t.l, m[x].left, x);
      HoldsFrame(m, w, t.r, m[x].right, x);
    }
  }

  lemma ReplaceOk(m: Mem, root: Ptr, c: Ctx, t: Tree, child: Tree, red: bool)
    requires At(m, root, c, t) && t.Node? && ((t.l.Leaf? && child == t.r) || (t.r.Leaf? && child == t.l))
    ensures (HoleParent(c) != NULL ==> HoleParent(c) in m) && (RootOf(child) != NULL ==> RootOf(child) in m)
    ensures var (w, r) := ReplaceMem(m, root, HoleParent(c), t.n, RootOf(child), red);
            At(w, r, c, Painted(child, red))
  {
    var q, y := HoleParent(c), RootOf(child);
    Open(m, t, t.n, q);
    RootFacts(m, child, y, t.n);
    RedirectAround(m, root, c, t.n, y);
    NoNullAround(m, root, c, t.n);
    var (w0, r0) := Redirect(m, root, q, t.n, y);
    var (w, r) := ReplaceMem(m, root, q, t.n, y, red);
    assert Same(w0, w, CtxNodes(c));
    AroundFrame(w0, w, r0, c, y);
    PaintedHolds(m, w, child, y, t.n, q, red);
  }

  // ---- Putting another node in a node's place ----

  /** Memory after s has taken over the links and the colour of x. */
  function RenameMem(m: Mem, root: Ptr, q: Ptr, x: Ptr, s: Ptr): (Mem, Ptr)
    requires x in m && (q != NULL ==> q in m) && (m[x].left != NULL ==> m[x].left in m)
             && (m[x].right != NULL ==> m[x].right in m)
  {
    var w0 := m[s := RbNode(q, m[x].red, m[x].left, m[x].right)];
    var w1 := if m[x].left == NULL then w0 else w0[m[x].left := w0[m[x].left].(parent := s)];
    var w2 := if m[x].right == NULL then w1 else w1[m[x].right := w1[m[x].right].(parent := s)];
    Redirect(w2, root, q, x, s)
  }

  lemma RenameParts(m: Mem, root: Ptr, c: Ctx, t: Tree, s: Ptr)
    requires At(m, root, c, t) && t.Node? && s != NULL && s !in Nodes(t) && s !in CtxNodes(c)
    ensures t.n in m && (HoleParent(c) != NULL ==> HoleParent(c) in m && HoleParent(c) in CtxNodes(c))
    ensures (m[t.n].left != NULL ==> m[t.n].left in m) && (m[t.n].right != NULL ==> m[t.n].right in m)
    ensures var w := RenameMem(m, root, HoleParent(c), t.n, s).0;
            && s in w && w[s] == RbNode(HoleParent(c), t.red, RootOf(t.l), RootOf(t.r))
            && Holds(w, t.l, RootOf(t.l), s) && Holds(w, t.r, RootOf(t.r), s)
  {
    var q := HoleParent(c);
    Open(m, t, t.n, q);
    RootFacts(m, t.l, m[t.n].left, t.n);
    RootFacts(m, t.r, m[t.n].right, t.n);
    NoNullAround(m, root, c, t.n);
    RedirectAround(m, root, c, t.n, s);
    var w := RenameMem(m, root, q, t.n, s).0;
    hide Shape, CtxShape, Sep, SepCtx, Nodes, CtxNodes;
    Reparent(m, w, t.l, RootOf(t.l), t.n, s);
    Reparent(m, w, t.r, RootOf(t.r), t.n, s);
  }

  lemma RenameAround(m: Mem, root: Ptr, c: Ctx, t: Tree, s: Ptr)
    requires At(m, root, c, t) && t.Node? && s != NULL && s !in Nodes(t) && s !in CtxNodes(c)
    requires t.n in m && (HoleParent(c) != NULL ==> HoleParent(c) in m)
    requires (m[t.n].left != NULL ==> m[t.n].left in m) && (m[t.n].right != NULL ==> m[t.n].right in m)
    ensures var (w, r) := RenameMem(m, root, HoleParent(c), t.n, s); Around(w, r, c, s)
  {
    var q := HoleParent(c);
    Open(m, t, t.n, q);
    RootFacts(m, t.l, m[t.n].left, t.n);
    RootFacts(m, t.r, m[t.n].right, t.n);
    NoNullAround(m, root, c, t.n);
    var w0 := m[s := RbNode(q, m[t.n].red, m[t.n].left, m[t.n].right)];
    var w1 := if m[t.n].left == NULL then w0 else w0[m[t.n].left := w0[m[t.n].left].(parent := s)];
    var w2 := if m[t.n].right == NULL then w1 else w1[m[t.n].right := w1[m[t.n].right].(parent := s)];
    assert Same(m, w2, CtxNodes(c));
    hide Shape, CtxShape, Sep, SepCtx, Nodes, CtxNodes;
    AroundFrame(m, w2, root, c, t.n);
    RedirectAround(w2, root, c, t.n, s);
  }

  lemma RenameOk(m: Mem, root: Ptr, c: Ctx, t: Tree, s: Ptr)
    requires At(m, root, c, t) && t.Node? && s != NULL && s !in Nodes(t) && s !in CtxNodes(c)
    ensures t.n in m && (HoleParent(c) != NULL ==> HoleParent(c) in m)
    ensures (m[t.n].left != NULL ==> m[t.n].left in m) && (m[t.n].right != NULL ==> m[t.n].right in m)
    ensures var (w, r) := RenameMem(m, root, HoleParent(c), t.n, s); At(w, r, c, Node(t.l, s, t.red, t.r))
  {
    RenameParts(m, root, c, t, s);
    RenameAround(m, root, c, t, s);
    Open(m, t, t.n, HoleParent(c));
    var (w, r) := RenameMem(m, root, HoleParent(c), t.n, s);
    hide Shape, CtxShape, Sep, SepCtx, Around, Holds;
    Close(w, Node(t.l, s, t.red, t.r), HoleParent(c));
  }

  // ---- Balance and order ----

  /** Removing a node with at most one child: the tree is whole, or one black node short where the node was. */
  lemma RemoveBalance(c: Ctx, t: Tree, child: Tree)
    requires RedBlack(Plug(c, t)) && t.Node? && ((t.l.Leaf? && child == t.r) || (t.r.Leaf? && child == t.l))
    ensures child.Node? ==> !t.red
    ensures child.Node? || t.red || c.Top? ==> RedBlack(Plug(c, Painted(child, t.red)))
    ensures child.Leaf? && !t.red && !c.Top? ==> BlackShort(c, Leaf, 0)
  {
    var H :| Bal(Plug(c, t), H);
    var h := Unplug(c, t, H);
    if child.Node? {
      BalNonNegative(child.l, if child.red then 0 else -1);
      BalNonNegative(child.r, if child.red then 0 else -1);
      PlugRedBlack(c, Painted(child, t.red), 1);
    } else if t.red {
      AcceptsBlack(c, 0);
      PlugRedBlack(c, Leaf, 0);
    } else if c.Top? {
      PlugRedBlack(c, Leaf, 0);
    }
  }

  lemma RenameBalance(c: Ctx, t: Tree, s: Ptr)
    requires RedBlack(Plug(c, t)) && t.Node?
    ensures RedBlack(Plug(c, Node(t.l, s, t.red, t.r)))
  {
    var H :| Bal(Plug(c, t), H);
    var h := Unplug(c, t, H);
    PlugRedBlack(c, Node(t.l, s, t.red, t.r), h);
  }

  lemma Shift<T>(b: seq<T>, l: seq<T>, s: seq<T>, k: seq<T>, d: seq<T>, a: seq<T>)
    ensures b + (l + s + ([] + k + d)) + a == b + l + ([] + ([] + s + k) + d) + a
  {
    assert [] + k + d == k + d && [] + ([] + s + k) + d == s + k + d;
    Regroup(l, s, k, d, []);
    assert b + (l + s + (k + d)) + a == b + l + (s + k + d) + a;
  }

  /** With its successor in its place, exactly the node is missing from the order. */
  lemma SuccessorOrder(c: Ctx, t: Tree, d: Ctx, s: Ptr, sred: bool, k: Tree, red: bool)
    requires t.Node? && Leftward(d) && t.r == Plug(d, Node(Leaf, s, sred, k))
    ensures Inorder(Plug(c, Node(t.l, s, t.red, Plug(d, Painted(k, red)))))
            == Before(c) + Inorder(t.l) + Inorder(t.r) + After(c)
  {
    assert Inorder(Painted(k, red)) == Inorder(k);
    assert Inorder(Node(Leaf, s, sred, k)) == [] + [s] + Inorder(k);
    assert Inorder(Node(t.l, s, t.red, Plug(d, Painted(k, red))))
        == Inorder(t.l) + [s] + Inorder(Plug(d, Painted(k, red)));
    hide Inorder, Plug, Before, After, Painted;
    InorderPlug(c, Node(t.l, s, t.red, Plug(d, Painted(k, red))));
    InorderPlug(d, Painted(k, red));
    InorderPlug(d, Node(Leaf, s, sred, k));
    LeftwardBefore(d);
    Shift(Before(c), Inorder(t.l), [s], Inorder(k), After(d), After(c));
  }

  // ---- Splicing the successor into the node's place ----

  lemma {:induction false} PlugNodes(d: Ctx, t: Tree)
    ensures Nodes(Plug(d, t)) == Nodes(t) + CtxNodes(d)
    ensures !d.Top? ==> RootOf(Plug(d, t)) in CtxNodes(d) && Plug(d, t).Node?
  {
    match d
    case Top =>
    case InLeft(up, n, red, r) => PlugNodes(up, Node(t, n, red, r));
    case InRight(l, n, red, up) => PlugNodes(up, Node(l, n, red, t));
  }

  /** The addresses that splicing s into the place of x reads and writes are as different as a tree makes them. */
  predicate Spread(m: Mem, x: Ptr, s: Ptr, p: Ptr, k: Ptr)
  {
    && x in m && s in m && p in m && m[x].left in m && m[x].right in m && (m[x].parent != NULL ==> m[x].parent in m)
    && (k != NULL ==> k in m) && NULL !in {x, s, p, m[x].left, m[x].right}
    && x !in {s, p, k, m[x].left, m[x].right, m[x].parent}
    && m[x].left !in {s, p, k, m[x].right, m[x].parent}
    && m[x].parent !in {s, p, m[x].right} && (k != NULL ==> k != m[x].parent)
    && k !in {s, p, m[x].right}
    && (if s == m[x].right then p == s else p != s && m[p].left == s)
  }

  /** Memory after the writes that put s, with right child k and parent p, into the place of x. */
  function SpliceMem(m: Mem, root: Ptr, x: Ptr, s: Ptr, p: Ptr, k: Ptr): (Mem, Ptr)
    requires Spread(m, x, s, p, k)
  {
    var l, r, q := m[x].left, m[x].right, m[x].parent;
    var w0 := if s == r then m else var v := m[p := m[p].(left := k)][s := m[s].(right := r)];
        v[r := v[r].(parent := s)];
    var w1 := w0[s := w0[s].(left := l)][l := w0[l].(parent := s)];
    var (w2, top) := Redirect(w1, root, q, x, s);
    var w3 := if k == NULL then w2 else w2[k := w2[k].(parent := p, red := false)];
    (w3[s := w3[s].(parent := q, red := m[x].red)], top)
  }

  /** Taking s out of its place, with its child k below p in its stead, leaves x where it is. */
  lemma ReplaceKeeps(m: Mem, root: Ptr, x: Ptr, s: Ptr, p: Ptr, k: Ptr)
    requires Spread(m, x, s, p, k)
    ensures var hp := if s == m[x].right then x else p;
            var (v, r0) := ReplaceMem(m, root, hp, s, k, false);
            && r0 == root && v.Keys == m.Keys && v[x] == m[x].(right := if s == m[x].right then k else m[x].right)
            && (s != m[x].right ==> v[p] == m[p].(left := k))
            && (k != NULL ==> v[k] == m[k].(parent := hp, red := false))
            && (forall y :: y in m && y !in {x, p, k} ==> v[y] == m[y]) && v[s] == m[s]
            && (s == m[x].right || p != m[x].right ==> v[m[x].right] == m[m[x].right])
  {
  }

  /** Memory after s has been taken out of its place and put in the place of x. */
  function MoveMem(m: Mem, root: Ptr, x: Ptr, s: Ptr, p: Ptr, k: Ptr): (Mem, Ptr)
    requires Spread(m, x, s, p, k)
  {
    ReplaceKeeps(m, root, x, s, p, k);
    var (v, r0) := ReplaceMem(m, root, if s == m[x].right then x else p, s, k, false);
    RenameMem(v, r0, m[x].parent, x, s)
  }

  /** The record of y, other than x, once s is in the place of x. */
  function MovedNode(m: Mem, x: Ptr, s: Ptr, p: Ptr, k: Ptr, y: Ptr): RbNode
    requires Spread(m, x, s, p, k) && y in m
  {
    var l, r, q := m[x].left, m[x].right, m[x].parent;
    if y == s then RbNode(q, m[x].red, l, if s == r then k else r)
    else if y == l then m[l].(parent := s)
    else if y == q then if m[q].left == x then m[q].(left := s) else m[q].(right := s)
    else if y == k then m[k].(parent := p, red := false)
    else
      var e := if y == p then m[p].(left := k) else m[y];
      if y == r then e.(parent := s) else e
  }

  lemma SpliceEntry(m: Mem, root: Ptr, x: Ptr, s: Ptr, p: Ptr, k: Ptr, y: Ptr)
    requires Spread(m, x, s, p, k) && m[s].right == k && y in m && y !in {x, NULL}
    ensures y in SpliceMem(m, root, x, s, p, k).0 && SpliceMem(m, root, x, s, p, k).0[y] == MovedNode(m, x, s, p, k, y)
    ensures SpliceMem(m, root, x, s, p, k).1 == if m[x].parent == NULL then s else root
  {
  }

  lemma MoveEntry(m: Mem, root: Ptr, x: Ptr, s: Ptr, p: Ptr, k: Ptr, y: Ptr)
    requires Spread(m, x, s, p, k) && m[s].right == k && y in m && y !in {x, NULL}
    ensures y in MoveMem(m, root, x, s, p, k).0 && MoveMem(m, root, x, s, p, k).0[y] == MovedNode(m, x, s, p, k, y)
    ensures MoveMem(m, root, x, s, p, k).1 == if m[x].parent == NULL then s else root
  {
    ReplaceKeeps(m, root, x, s, p, k);
    hide ReplaceMem;
  }

  /** Splicing is taking s out of its place and then putting it in the place of x; only x itself may differ. */
  lemma SpliceIsMove(m: Mem, root: Ptr, x: Ptr, s: Ptr, p: Ptr, k: Ptr)
    requires Spread(m, x, s, p, k) && m[s].right == k
    ensures var (w, r) := SpliceMem(m, root, x, s, p, k);
            var (v, r') := MoveMem(m, root, x, s, p, k);
            r == r' && Same(v, w, m.Keys - {x, NULL})
  {
    hide SpliceMem, MoveMem, MovedNode;
    SpliceEntry(m, root, x, s, p, k, s);
    MoveEntry(m, root, x, s, p, k, s);
    forall y | y in m && y !in {x, NULL}
      ensures y in SpliceMem(m, root, x, s, p, k).0 && y in MoveMem(m, root, x, s, p, k).0
      ensures SpliceMem(m, root, x, s, p, k).0[y] == MoveMem(m, root, x, s, p, k).0[y]
    {
      SpliceEntry(m, root, x, s, p, k, y);
      MoveEntry(m, root, x, s, p, k, y);
    }
  }

  lemma MoveKeys(m: Mem, root: Ptr, x: Ptr, s: Ptr, p: Ptr, k: Ptr)
    requires Spread(m, x, s, p, k)
    ensures MoveMem(m, root, x, s, p, k).0.Keys == m.Keys
  {
    ReplaceKeeps(m, root, x, s, p, k);
    hide ReplaceMem;
  }

  // ---- The successor in the tree ----

  /** The successor of the root of t is s, with right subtree k, at the left end of the right subtree. */
  predicate Succeeds(t: Tree, d: Ctx, s: Ptr, sred: bool, k: Tree)
  {
    t.Node? && t.l.Node? && Leftward(d) && t.r == Plug(d, Node(Leaf, s, sred, k))
  }

  lemma {:induction false} GraftNodes(d: Ctx, base: Ctx)
    ensures CtxNodes(Graft(d, base)) == CtxNodes(d) + CtxNodes(base)
  {
    match d
    case Top =>
    case InLeft(up, _, _, _) => GraftNodes(up, base);
    case InRight(_, _, _, up) => GraftNodes(up, base);
  }

  /** The parent of the successor after the splice. */
  function SpliceParent(d: Ctx, s: Ptr): Ptr
  {
    if d.Top? then s else d.n
  }

  /** Seen from the successor. */
  lemma SuccessorAt(m: Mem, root: Ptr, c: Ctx, t: Tree, d: Ctx, s: Ptr, sred: bool, k: Tree)
    requires At(m, root, c, t) && Succeeds(t, d, s, sred, k)
    ensures At(m, root, Graft(d, InRight(t.l, t.n, t.red, c)), Node(Leaf, s, sred, k))
  {
    hide At, Graft;
    DownRight(m, root, c, t);
    FocusDown(m, root, InRight(t.l, t.n, t.red, c), d, Node(Leaf, s, sred, k));
  }

  /** Which parts of the tree the nodes involved are in. */
  lemma SuccessorNodes(m: Mem, root: Ptr, c: Ctx, t: Tree, d: Ctx, s: Ptr, sred: bool, k: Tree)
    requires At(m, root, c, t) && Succeeds(t, d, s, sred, k)
    ensures Nodes(t.r) == Nodes(k) + {s} + CtxNodes(d) && s !in Nodes(k) && Nodes(k) + {s} !! CtxNodes(d)
    ensures d.Top? ==> RootOf(t.r) == s
    ensures !d.Top? ==> RootOf(t.r) in CtxNodes(d) && d.n in CtxNodes(d)
  {
    SuccessorAt(m, root, c, t, d, s, sred, k);
    PlugNodes(d, Node(Leaf, s, sred, k));
    GraftNodes(d, InRight(t.l, t.n, t.red, c));
  }

  /** What memory says about the successor. */
  lemma SuccessorView(m: Mem, root: Ptr, c: Ctx, t: Tree, d: Ctx, s: Ptr, sred: bool, k: Tree)
    requires At(m, root, c, t) && Succeeds(t, d, s, sred, k)
    ensures s != NULL && s in m && m[s].right == RootOf(k) && m[s].red == sred
    ensures k.Node? ==> RootOf(k) != NULL && RootOf(k) in m && RootOf(k) in Nodes(k)
    ensures !d.Top? ==> d.n in m && d.n != NULL && m[d.n].left == s
  {
    SuccessorAt(m, root, c, t, d, s, sred, k);
    var base, T := Graft(d, InRight(t.l, t.n, t.red, c)), Node(Leaf, s, sred, k);
    Open(m, T, s, HoleParent(base));
    RootFacts(m, k, m[s].right, s);
    if !d.Top? { ParentView(m, root, base, s); }
  }

  lemma SpreadHere(m: Mem, root: Ptr, c: Ctx, t: Tree, d: Ctx, s: Ptr, sred: bool, k: Tree)
    requires At(m, root, c, t) && Succeeds(t, d, s, sred, k)
    ensures Spread(m, t.n, s, SpliceParent(d, s), RootOf(k)) && m[s].right == RootOf(k) && m[s].red == sred
    ensures m[t.n].parent == HoleParent(c) && m[t.n].red == t.red && (d.Top? <==> s == m[t.n].right)
  {
    SuccessorNodes(m, root, c, t, d, s, sred, k);
    SuccessorView(m, root, c, t, d, s, sred, k);
    Open(m, t, t.n, HoleParent(c));
    RootFacts(m, t.l, m[t.n].left, t.n);
    RootFacts(m, t.r, m[t.n].right, t.n);
    NoNullAround(m, root, c, t.n);
    NoNull(m, t, t.n, HoleParent(c));
    if !c.Top? { ParentView(m, root, c, t.n); }
  }

  /** t with its successor in the place of its root. */
  function Succeeded(t: Tree, d: Ctx, s: Ptr, k: Tree): Tree
    requires t.Node?
  {
    Node(t.l, s, t.red, Plug(d, Painted(k, false)))
  }

  /** The successor taken out of the tree. */
  lemma TakenOut(m: Mem, root: Ptr, c: Ctx, t: Tree, d: Ctx, s: Ptr, sred: bool, k: Tree)
    requires At(m, root, c, t) && Succeeds(t, d, s, sred, k) && Spread(m, t.n, s, SpliceParent(d, s), RootOf(k))
    requires d.Top? <==> s == m[t.n].right
    ensures var (v, r) := ReplaceMem(m, root, if s == m[t.n].right then t.n
            else SpliceParent(d, s), s, RootOf(k), false);
            At(v, r, c, Node(t.l, t.n, t.red, Plug(d, Painted(k, false))))
  {
    hide At, Plug;
    SuccessorAt(m, root, c, t, d, s, sred, k);
    var base := InRight(t.l, t.n, t.red, c);
    ReplaceOk(m, root, Graft(d, base), Node(Leaf, s, sred, k), k, false);
    var (v, r) := ReplaceMem(m, root, if s == m[t.n].right then t.n else SpliceParent(d, s), s, RootOf(k), false);
    FocusUp(v, r, base, d, Painted(k, false));
    UpRight(v, r, c, Node(t.l, t.n, t.red, Plug(d, Painted(k, false))));
  }

  lemma SucceededNodes(m: Mem, root: Ptr, c: Ctx, t: Tree, d: Ctx, s: Ptr, sred: bool, k: Tree)
    requires At(m, root, c, t) && Succeeds(t, d, s, sred, k)
    ensures Nodes(Node(t.l, t.n, t.red, Plug(d, Painted(k, false)))) == Nodes(t) - {s} && s !in CtxNodes(c)
            && s in Nodes(t)
    ensures Nodes(Succeeded(t, d, s, k)) == Nodes(t) - {t.n} && t.n !in CtxNodes(c)
  {
    SuccessorNodes(m, root, c, t, d, s, sred, k);
    PlugNodes(d, Painted(k, false));
    assert Nodes(Painted(k, false)) == Nodes(k);
    Open(m, t, t.n, HoleParent(c));
  }

  lemma MoveOk(m: Mem, root: Ptr, c: Ctx, t: Tree, d: Ctx, s: Ptr, sred: bool, k: Tree)
    requires At(m, root, c, t) && Succeeds(t, d, s, sred, k)
    ensures Spread(m, t.n, s, SpliceParent(d, s), RootOf(k))
    ensures var (v, r) := MoveMem(m, root, t.n, s, SpliceParent(d, s), RootOf(k)); At(v, r, c, Succeeded(t, d, s, k))
  {
    hide At, Spread, Plug, Nodes, CtxNodes, ReplaceMem, RenameMem;
    SpreadHere(m, root, c, t, d, s, sred, k);
    TakenOut(m, root, c, t, d, s, sred, k);
    SucceededNodes(m, root, c, t, d, s, sred, k);
    SuccessorView(m, root, c, t, d, s, sred, k);
    var (v, r) := ReplaceMem(m, root, if s == m[t.n].right then t.n else SpliceParent(d, s), s, RootOf(k), false);
    RenameOk(v, r, c, Node(t.l, t.n, t.red, Plug(d, Painted(k, false))), s);
  }

  /** The splice leaves the tree without its root, the successor in its place. */
  lemma SpliceOk(m: Mem, root: Ptr, c: Ctx, t: Tree, d: Ctx, s: Ptr, sred: bool, k: Tree)
    requires At(m, root, c, t) && Succeeds(t, d, s, sred, k)
    ensures Spread(m, t.n, s, SpliceParent(d, s), RootOf(k))
    ensures var (w, r) := SpliceMem(m, root, t.n, s, SpliceParent(d, s), RootOf(k)); At(w, r, c, Succeeded(t, d, s, k))
  {
    MoveOk(m, root, c, t, d, s, sred, k);
    SpreadHere(m, root, c, t, d, s, sred, k);
    SucceededNodes(m, root, c, t, d, s, sred, k);
    var p, y, u := SpliceParent(d, s), RootOf(k), Succeeded(t, d, s, k);
    SpliceIsMove(m, root, t.n, s, p, y);
    MoveKeys(m, root, t.n, s, p, y);
    var (v, r) := MoveMem(m, root, t.n, s, p, y);
    var (w, r') := SpliceMem(m, root, t.n, s, p, y);
    hide Shape, CtxShape, Sep, SepCtx, Nodes, CtxNodes, SpliceMem, MoveMem, Spread, Succeeded;
    NoNull(v, u, RootOf(u), HoleParent(c));
    NoNullAround(v, r, c, RootOf(u));
    HoldsFrame(v, w, u, RootOf(u), HoleParent(c));
    AroundFrame(v, w, r, c, RootOf(u));
  }

  /** Balance after the splice: whole, or one black node short where the successor was. */
  lemma SpliceBalance(c: Ctx, t: Tree, d: Ctx, s: Ptr, sred: bool, k: Tree)
    requires RedBlack(Plug(c, t)) && Succeeds(t, d, s, sred, k)
    ensures k.Node? || sred ==> RedBlack(Plug(c, Succeeded(t, d, s, k)))
    ensures k.Leaf? && !sred ==> BlackShort(Graft(d, InRight(t.l, s, t.red, c)), Leaf, 0)
  {
    var base, T := InRight(t.l, t.n, t.red, c), Node(Leaf, s, sred, k);
    GraftPlug(d, base, T);
    GraftPlug(d, base, Painted(k, false));
    RemoveBalance(Graft(d, base), T, k);
    AcceptsRenamed(d, t.l, t.n, s, t.red, c, 1, false);
    if k.Node? || sred {
      RenameBalance(c, Node(t.l, t.n, t.red, Plug(d, Painted(k, false))), s);
    }
  }

  lemma ChildView(m: Mem, root: Ptr, c: Ctx, t: Tree)
    requires At(m, root, c, t) && t.Node?
    ensures t.n in m && (m[t.n].left == NULL <==> t.l.Leaf?) && (m[t.n].right == NULL <==> t.r.Leaf?)
  {
    RootFacts(m, t.l, m[t.n].left, t.n);
    RootFacts(m, t.r, m[t.n].right, t.n);
  }

  lemma HoleFacts(m: Mem, root: Ptr, c: Ctx, t: Tree)
    requires At(m, root, c, t)
    ensures HoleParent(c) == NULL <==> c.Top?
  {
    if !c.Top? { NoNullAround(m, root, c, RootOf(t)); }
  }

  lemma OneOrder(c: Ctx, t: Tree, child: Tree, red: bool)
    requires t.Node? && ((t.l.Leaf? && child == t.r) || (t.r.Leaf? && child == t.l))
    ensures Inorder(Plug(c, Painted(child, red))) == Before(c) + Inorder(t.l) + Inorder(t.r) + After(c)
  {
    InorderPlug(c, Painted(child, red));
    assert Inorder(Painted(child, red)) == Inorder(child);
    assert Before(c) + Inorder(t.l) + Inorder(t.r) == Before(c) + Inorder(child);
  }

  /** One step down the left side. */
  lemma LeftChild(m: Mem, root: Ptr, c: Ctx, t: Tree)
    requires At(m, root, c, t) && t.Node? && t.l.Node?
    ensures At(m, root, InLeft(c, t.n, t.red, t.r), t.l)
    ensures t.l.n in m && m[t.l.n].left == RootOf(t.l.l) && (RootOf(t.l.l) == NULL <==> t.l.l.Leaf?)
  {
    DownLeft(m, root, c, t);
    Open(m, t.l, t.l.n, t.n);
    RootFacts(m, t.l.l, m[t.l.n].left, t.l.n);
  }

  /** The place the successor left, seen from below. */
  lemma ShortPlace(m: Mem, root: Ptr, c: Ctx, t: Tree, d: Ctx, s: Ptr)
    requires t.Node? && At(m, root, c, Succeeded(t, d, s, Leaf))
    ensures var e := Graft(d, InRight(t.l, s, t.red, c));
            At(m, root, e, Leaf) && Plug(e, Leaf) == Plug(c, Succeeded(t, d, s, Leaf))
                && HoleParent(e) == SpliceParent(d, s) && !e.Top?
  {
    DownRight(m, root, c, Succeeded(t, d, s, Leaf));
    FocusDown(m, root, InRight(t.l, s, t.red, c), d, Leaf);
    GraftPlug(d, InRight(t.l, s, t.red, c), Leaf);
  }

  // ---- Finding a node in a tree, and the order without it ----

  function Without<T(==)>(s: seq<T>, x: T): seq<T>
  {
    if s == [] then [] else if s[0] == x then Without(s[1..], x) else [s[0]] + Without(s[1..], x)
  }

  lemma {:induction false} WithoutAbsent<T>(s: seq<T>, x: T)
    requires x !in s
    ensures Without(s, x) == s
  {
    if s != [] { WithoutAbsent(s[1..], x); }
  }

  lemma {:induction false} WithoutMiddle<T>(a: seq<T>, x: T, b: seq<T>)
    requires x !in a && x !in b
    ensures Without(a + [x] + b, x) == a + b
  {
    if a == [] {
      assert (a + [x] + b)[1..] == b && a + b == b;
      WithoutAbsent(b, x);
    } else {
      WithoutMiddle(a[1..], x, b);
      assert (a + [x] + b)[1..] == a[1..] + [x] + b && a + b == [a[0]] + (a[1..] + b);
    }
  }

  lemma {:induction false} GraftTop(c: Ctx)
    ensures Graft(c, Top) == c
  {
    match c
    case Top =>
    case InLeft(up, _, _, _) => GraftTop(up);
    case InRight(_, _, _, up) => GraftTop(up);
  }

  /** Every node of a tree is the root of a subtree at some position. */
  lemma {:induction false} Locate(c: Ctx, t: Tree, x: Ptr) returns (d: Ctx, s: Tree)
    requires x in Nodes(t)
    ensures s.Node? && s.n == x && Plug(d, s) == Plug(c, t)
    decreases t
  {
    if t.n == x {
      d, s := c, t;
    } else if x in Nodes(t.l) {
      d, s := Locate(InLeft(c, t.n, t.red, t.r), t.l, x);
    } else {
      d, s := Locate(InRight(t.l, t.n, t.red, c), t.r, x);
    }
  }

  lemma {:induction false} InorderNodes(t: Tree, x: Ptr)
    ensures x in Inorder(t) <==> x in Nodes(t)
  {
    if t.Node? { InorderNodes(t.l, x); InorderNodes(t.r, x); }
  }

  lemma {:induction false} AroundNodes(c: Ctx, x: Ptr)
    requires x !in CtxNodes(c)
    ensures x !in Before(c) && x !in After(c)
  {
    match c
    case Top =>
    case InLeft(up, _, _, r) => AroundNodes(up, x); InorderNodes(r, x);
    case InRight(l, _, _, up) => AroundNodes(up, x); InorderNodes(l, x);
  }

  /** What is left of the order when the root of the subtree t goes. */
  lemma OrderWithout(m: Mem, root: Ptr, c: Ctx, t: Tree)
    requires At(m, root, c, t) && t.Node?
    ensures Without(Inorder(Plug(c, t)), t.n) == Before(c) + Inorder(t.l) + Inorder(t.r) + After(c)
  {
    Open(m, t, t.n, HoleParent(c));
    AroundNodes(c, t.n);
    InorderNodes(t.l, t.n);
    InorderNodes(t.r, t.n);
    InorderPlug(c, t);
    assert Inorder(t) == Inorder(t.l) + [t.n] + Inorder(t.r);
    Unbracket(Before(c), Inorder(t.l), [t.n], Inorder(t.r), After(c));
    WithoutMiddle(Before(c) + Inorder(t.l), t.n, Inorder(t.r) + After(c));
  }

  lemma Unbracket<T>(a: seq<T>, b: seq<T>, x: seq<T>, d: seq<T>, e: seq<T>)
    ensures a + (b + x + d) + e == (a + b) + x + (d + e) && a + b + d + e == (a + b) + (d + e)
  {
  }

  // ---- Erasing in place ----

  /** Case 1: a node with at most one child is replaced by that child, which takes over its parent and colour. */
  method UnlinkOne(tr: RbTree, node: Ptr, ghost c: Ctx, ghost t: Tree, ghost child: Tree) returns (rebalance: Ptr)
    requires At(tr.nodes, tr.root, c, t) && t.Node? && t.n == node
    requires if t.l.Leaf? then child == t.r else t.r.Leaf? && child == t.l
    modifies tr
    ensures At(tr.nodes, tr.root, c, Painted(child, t.red))
    ensures rebalance == if child.Leaf? && !t.red then HoleParent(c) else NULL
  {
    ReplaceOk(tr.nodes, tr.root, c, t, child, t.red);
    Open(tr.nodes, t, node, HoleParent(c));
    RootFacts(tr.nodes, t.l, tr.nodes[node].left, node);
    RootFacts(tr.nodes, t.r, tr.nodes[node].right, node);
    if !c.Top? { ParentView(tr.nodes, tr.root, c, node); }
    assert t.l.Node? && !c.Top? ==> RootOf(t.l) != HoleParent(c);
    hide At, Holds, Around, Nodes, CtxNodes;
    ghost var after := ReplaceMem(tr.nodes, tr.root, HoleParent(c), node, RootOf(child), t.red);
    var right, tmp := tr.nodes[node].right, tr.nodes[node].left;
    var parent, red := tr.nodes[node].parent, tr.nodes[node].red;
    if tmp == NULL {
      tr.ChangeChild(node, right, parent);
      if right != NULL {
        tr.SetParentColor(right, parent, red);
        rebalance := NULL;
      } else {
        rebalance := if !red then parent else NULL;
      }
    } else {
      tr.SetParentColor(tmp, parent, red);
      tr.ChangeChild(node, tmp, parent);
      assert tr.nodes == after.0;
      rebalance := NULL;
    }
  }

  /** Case 1 as a whole. */
  method EraseOne(tr: RbTree, node: Ptr, ghost c: Ctx, ghost t: Tree) returns (ghost u: Tree)
    requires At(tr.nodes, tr.root, c, t) && t.Node? && t.n == node && RedBlack(Plug(c, t)) && (t.l.Leaf? || t.r.Leaf?)
    modifies tr
    ensures At(tr.nodes, tr.root, Top, u) && RedBlack(u)
    ensures Inorder(u) == Before(c) + Inorder(t.l) + Inorder(t.r) + After(c)
  {
    hide At, RedBlack, Inorder, Plug, Before, After, BlackShort;
    ghost var child := if t.l.Leaf? then t.r else t.l;
    RemoveBalance(c, t, child);
    OneOrder(c, t, child, t.red);
    HoleFacts(tr.nodes, tr.root, c, t);
    var rebalance := UnlinkOne(tr, node, c, t, child);
    if rebalance != NULL {
      u := tr.EraseColor(rebalance, c, 0);
    } else {
      PlugAt(tr.nodes, tr.root, c, Painted(child, t.red));
      u := Plug(c, Painted(child, t.red));
    }
  }

  /** The leftmost node of the node's right subtree, and the parent that its right child is to have. */
  method Successor(tr: RbTree, node: Ptr, ghost c: Ctx, ghost t: Tree)
      returns (successor: Ptr, parent: Ptr, ghost d: Ctx, ghost sred: bool, ghost k: Tree)
    requires At(tr.nodes, tr.root, c, t) && t.Node? && t.n == node && t.l.Node? && t.r.Node?
    ensures Succeeds(t, d, successor, sred, k) && parent == SpliceParent(d, successor)
  {
    ghost var base := InRight(t.l, t.n, t.red, c);
    Open(tr.nodes, t, node, HoleParent(c));
    RootFacts(tr.nodes, t.r, tr.nodes[node].right, node);
    DownRight(tr.nodes, tr.root, c, t);
    successor := tr.nodes[node].right;
    parent := successor;
    d := Top;
    ghost var T := t.r;
    Open(tr.nodes, T, successor, node);
    RootFacts(tr.nodes, T.l, tr.nodes[successor].left, successor);
    hide At, Holds;
    var tmp := tr.nodes[successor].left;
    while tmp != NULL
      invariant At(tr.nodes, tr.root, Graft(d, base), T) && t.r == Plug(d, T) && Leftward(d)
      invariant T.Node? && T.n == successor && tmp == RootOf(T.l) && (tmp == NULL <==> T.l.Leaf?)
      invariant parent == SpliceParent(d, successor)
      decreases T
    {
      LeftChild(tr.nodes, tr.root, Graft(d, base), T);
      d, T := InLeft(d, T.n, T.red, T.r), T.l;
      parent := successor;
      successor := tmp;
      tmp := tr.nodes[tmp].left;
    }
    sred, k := T.red, T.r;
  }

  /** Cases 2 and 3: the successor leaves its place to its right child and takes the node's. */
  method Splice(tr: RbTree, node: Ptr, successor: Ptr, parent: Ptr) returns (rebalance: Ptr)
    requires successor in tr.nodes && Spread(tr.nodes, node, successor, parent, tr.nodes[successor].right)
    modifies tr
    ensures var m := old(tr.nodes);
            && (tr.nodes, tr.root) == SpliceMem(m, old(tr.root), node, successor, parent, m[successor].right)
            && rebalance == if m[successor].right == NULL && !m[successor].red then parent else NULL
  {
    var child, child2 := tr.nodes[node].right, tr.nodes[successor].right;
    if successor != child {
      tr.SetLeft(parent, child2);
      tr.SetRight(successor, child);
      tr.SetParent(child, successor);
    }
    var tmp := tr.nodes[node].left;
    tr.SetLeft(successor, tmp);
    tr.SetParent(tmp, successor);
    var up, red := tr.nodes[node].parent, tr.nodes[node].red;
    tr.ChangeChild(node, successor, up);
    if child2 != NULL {
      tr.SetParentColor(child2, parent, false);
      rebalance := NULL;
    } else {
      rebalance := if !tr.nodes[successor].red then parent else NULL;
    }
    tr.SetParentColor(successor, up, red);
  }

  /** Cases 2 and 3 as a whole. */
  method EraseTwo(tr: RbTree, node: Ptr, ghost c: Ctx, ghost t: Tree) returns (ghost u: Tree)
    requires At(tr.nodes, tr.root, c, t) && t.Node? && t.n == node && RedBlack(Plug(c, t)) && t.l.Node? && t.r.Node?
    modifies tr
    ensures At(tr.nodes, tr.root, Top, u) && RedBlack(u)
    ensures Inorder(u) == Before(c) + Inorder(t.l) + Inorder(t.r) + After(c)
  {
    hide At, RedBlack, Inorder, Plug, Before, After, BlackShort, Spread, SpliceMem, Graft;
    var successor, parent, d, sred, k := Successor(tr, node, c, t);
    SpliceOk(tr.nodes, tr.root, c, t, d, successor, sred, k);
    SpreadHere(tr.nodes, tr.root, c, t, d, successor, sred, k);
    SpliceBalance(c, t, d, successor, sred, k);
    SuccessorOrder(c, t, d, successor, sred, k, false);
    SuccessorView(tr.nodes, tr.root, c, t, d, successor, sred, k);
    var rebalance := Splice(tr, node, successor, parent);
    u := Succeeded(t, d, successor, k);
    if rebalance != NULL {
      ShortPlace(tr.nodes, tr.root, c, t, d, successor);
      u := tr.EraseColor(rebalance, Graft(d, InRight(t.l, successor, t.red, c)), 0);
    } else {
      PlugAt(tr.nodes, tr.root, c, u);
      u := Plug(c, u);
    }
  }

  /** The node leaves the tree, which is again a red-black tree with the other nodes in their order. */
  method Erase(tr: RbTree, node: Ptr, ghost c: Ctx, ghost t: Tree) returns (ghost u: Tree)
    requires At(tr.nodes, tr.root, c, t) && t.Node? && t.n == node && RedBlack(Plug(c, t))
    modifies tr
    ensures At(tr.nodes, tr.root, Top, u) && RedBlack(u)
    ensures Inorder(u) == Before(c) + Inorder(t.l) + Inorder(t.r) + After(c)
  {
    hide At, RedBlack, Inorder, Plug, Before, After, BlackShort, Spread, SpliceMem;
    ChildView(tr.nodes, tr.root, c, t);
    if tr.nodes[node].left == NULL || tr.nodes[node].right == NULL {
      u := EraseOne(tr, node, c, t);
    } else {
      u := EraseTwo(tr, node, c, t);
    }
  }

  /** Any node of a red-black tree can be erased: exactly it is missing afterwards. */
  method EraseNode(tr: RbTree, node: Ptr, ghost t: Tree) returns (ghost u: Tree)
    requires At(tr.nodes, tr.root, Top, t) && RedBlack(t) && node in Nodes(t)
    modifies tr
    ensures At(tr.nodes, tr.root, Top, u) && RedBlack(u) && Inorder(u) == Without(Inorder(t), node)
  {
    hide At, RedBlack, Inorder, Before, After, Nodes;
    ghost var c, s := Locate(Top, t, node);
    FocusDown(tr.nodes, tr.root, Top, c, s);
    GraftTop(c);
    OrderWithout(tr.nodes, tr.root, c, s);
    u := Erase(tr, node, c, s);
  }

  /** Erasing a node that was just inserted leaves the order as it was. */
  method InsertThenErase(tr: RbTree, node: Ptr, parent: Ptr, left: bool, ghost c: Ctx) returns (ghost u: Tree)
    requires node != NULL && node !in CtxNodes(c)
    requires At(tr.nodes, tr.root, c, Leaf) && RedBlack(Plug(c, Leaf)) && parent == HoleParent(c)
    requires left <==> c.InLeft?
    modifies tr
    ensures At(tr.nodes, tr.root, Top, u) && RedBlack(u) && Inorder(u) == Inorder(Plug(c, Leaf))
  {
    AroundNodes(c, node);
    WithoutMiddle(Before(c), node, After(c));
    InorderPlug(c, Leaf);
    assert Inorder(Plug(c, Leaf)) == Before(c) + After(c);
    hide At, RedBlack, Inorder, Plug, Before, After, Nodes, CtxNodes;
    var v := tr.InsertAt(node, parent, left, c);
    InorderNodes(v, node);
    u := EraseNode(tr, node, v);
  }
}
