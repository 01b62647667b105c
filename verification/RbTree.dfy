/**
  Red-black trees as linked nodes with parent pointers.  The insertion and erasure fix-ups
  rewrite pointers and colours in place; trees and one-hole contexts describe what memory
  holds at each point.  Memory is a map from addresses to node records.  Parent and colour
  share one word in the source; here they are two fields, written together where the word is.
 */
module RbTree {

  type Ptr = nat

  const NULL: Ptr := 0

  datatype RbNode = RbNode(parent: Ptr, red: bool, left: Ptr, right: Ptr)

  /** The nodes in memory, by address. */
  type Mem = map<Ptr, RbNode>

  datatype Tree = Leaf | Node(l: Tree, n: Ptr, red: bool, r: Tree)

  /** A tree with one subtree missing, from the hole upwards. */
  datatype Ctx =
    | Top
    | InLeft(up: Ctx, n: Ptr, red: bool, r: Tree)
    | InRight(l: Tree, n: Ptr, red: bool, up: Ctx)

  // ---- Trees and contexts as values ----

  function Nodes(t: Tree): set<Ptr>
  {
    match t
    case Leaf => {}
    case Node(l, n, _, r) => Nodes(l) + {n} + Nodes(r)
  }

  function CtxNodes(c: Ctx): set<Ptr>
  {
    match c
    case Top => {}
    case InLeft(up, n, _, r) => CtxNodes(up) + {n} + Nodes(r)
    case InRight(l, n, _, up) => CtxNodes(up) + {n} + Nodes(l)
  }

  function Inorder(t: Tree): seq<Ptr>
  {
    match t
    case Leaf => []
    case Node(l, n, _, r) => Inorder(l) + [n] + Inorder(r)
  }

  function Plug(c: Ctx, t: Tree): Tree
  {
    match c
    case Top => t
    case InLeft(up, n, red, r) => Plug(up, Node(t, n, red, r))
    case InRight(l, n, red, up) => Plug(up, Node(l, n, red, t))
  }

  function Before(c: Ctx): seq<Ptr>
  {
    match c
    case Top => []
    case InLeft(up, _, _, _) => Before(up)
    case InRight(l, n, _, up) => Before(up) + (Inorder(l) + [n])
  }

  function After(c: Ctx): seq<Ptr>
  {
    match c
    case Top => []
    case InLeft(up, n, _, r) => ([n] + Inorder(r)) + After(up)
    case InRight(_, _, _, up) => After(up)
  }

  lemma Regroup<T>(a: seq<T>, b: seq<T>, c: seq<T>, d: seq<T>, e: seq<T>)
    ensures a + (b + c + d) + e == a + b + ((c + d) + e)
    ensures a + (b + c + d) + e == (a + (b + c)) + d + e
    ensures (a + b + c) + d + e == a + b + (c + d + e)
  {
  }

  lemma {:induction false} InorderPlug(c: Ctx, t: Tree)
    ensures Inorder(Plug(c, t)) == Before(c) + Inorder(t) + After(c)
  {
    match c
    case Top =>
    case InLeft(up, n, red, r) =>
      InorderPlug(up, Node(t, n, red, r));
      Regroup(Before(up), Inorder(t), [n], Inorder(r), After(up));
    case InRight(l, n, red, up) =>
      InorderPlug(up, Node(l, n, red, t));
      Regroup(Before(up), Inorder(l), [n], Inorder(t), After(up));
  }

  /** Rotation keeps the order of nodes, whatever the colours. */
  lemma RotationInorder(a: Tree, p: Ptr, b: Tree, g: Ptr, d: Tree, r1: bool, r2: bool, r3: bool, r4: bool)
    ensures Inorder(Node(Node(a, p, r1, b), g, r2, d)) == Inorder(Node(a, p, r3, Node(b, g, r4, d)))
  {
    Regroup(Inorder(a), [p], Inorder(b), [g], Inorder(d));
  }

  // ---- Red-black properties ----

  predicate IsRed(t: Tree)
  {
    t.Node? && t.red
  }

  /** Every path from the root of t to a leaf has h black nodes. */
  predicate Bal(t: Tree, h: int)
  {
    match t
    case Leaf => h == 0
    case Node(l, _, red, r) => var k := if red then h else h - 1; Bal(l, k) && Bal(r, k)
  }

  /** No red node has a red child. */
  predicate NoRedRed(t: Tree)
  {
    match t
    case Leaf => true
    case Node(l, _, red, r) => NoRedRed(l) && NoRedRed(r) && (red ==> !IsRed(l) && !IsRed(r))
  }

  ghost predicate RedBlack(t: Tree)
  {
    !IsRed(t) && NoRedRed(t) && exists h :: Bal(t, h)
  }

  /** The context becomes a red-black tree when filled with a tree of black height h whose root has the given colour. */
  predicate Accepts(c: Ctx, h: int, red: bool)
  {
    match c
    case Top => !red
    case InLeft(up, _, nred, r) =>
      Bal(r, h) && NoRedRed(r) && (nred ==> !red && !IsRed(r)) && Accepts(up, if nred then h else h + 1, nred)
    case InRight(l, _, nred, up) =>
      Bal(l, h) && NoRedRed(l) && (nred ==> !red && !IsRed(l)) && Accepts(up, if nred then h else h + 1, nred)
  }

  lemma {:induction false} PlugRedBlack(c: Ctx, t: Tree, h: int)
    requires Bal(t, h) && NoRedRed(t) && Accepts(c, h, IsRed(t))
    ensures RedBlack(Plug(c, t))
  {
    match c
    case Top =>
    case InLeft(up, n, red, r) => PlugRedBlack(up, Node(t, n, red, r), if red then h else h + 1);
    case InRight(l, n, red, up) => PlugRedBlack(up, Node(l, n, red, t), if red then h else h + 1);
  }

  /** Conversely, a red-black tree seen at one position is an accepting context with a fitting subtree. */
  lemma {:induction false} Unplug(c: Ctx, t: Tree, H: int) returns (h: int)
    requires Bal(Plug(c, t), H) && NoRedRed(Plug(c, t)) && !IsRed(Plug(c, t))
    ensures Bal(t, h) && NoRedRed(t) && Accepts(c, h, IsRed(t))
  {
    match c
    case Top => h := H;
    case InLeft(up, n, red, r) =>
      h := Unplug(up, Node(t, n, red, r), H);
      h := if red then h else h - 1;
    case InRight(l, n, red, up) =>
      h := Unplug(up, Node(l, n, red, t), H);
      h := if red then h else h - 1;
  }

  // ---- Trees and contexts in memory ----

  function RootOf(t: Tree): Ptr
  {
    if t.Leaf? then NULL else t.n
  }

  /** The node whose child the hole is. */
  function HoleParent(c: Ctx): Ptr
  {
    if c.Top? then NULL else c.n
  }

  /** No node occurs twice. */
  predicate Sep(t: Tree)
  {
    t.Node? ==> t.n !in Nodes(t.l) && t.n !in Nodes(t.r) && Nodes(t.l) !! Nodes(t.r) && Sep(t.l) && Sep(t.r)
  }

  predicate SepCtx(c: Ctx)
  {
    match c
    case Top => true
    case InLeft(up, n, _, r) => n !in CtxNodes(up) && n !in Nodes(r) && Nodes(r) !! CtxNodes(up) && Sep(r) && SepCtx(up)
    case InRight(l, n, _, up) =>
      n !in CtxNodes(up) && n !in Nodes(l) && Nodes(l) !! CtxNodes(up) && Sep(l) && SepCtx(up)
  }

  /** Memory at x, whose parent is p, holds the tree t. */
  predicate Shape(m: Mem, t: Tree, x: Ptr, p: Ptr)
  {
    match t
    case Leaf => x == NULL
    case Node(l, n, red, r) =>
      && x == n != NULL && n in m && m[n].red == red && m[n].parent == p
      && Shape(m, l, m[n].left, n) && Shape(m, r, m[n].right, n)
  }

  /** Memory around the subtree at x holds the context c, under the given root pointer. */
  predicate CtxShape(m: Mem, root: Ptr, c: Ctx, x: Ptr)
  {
    match c
    case Top => root == x
    case InLeft(up, n, red, r) =>
      && n != NULL && n in m && m[n].left == x && m[n].red == red && m[n].parent == HoleParent(up)
      && Shape(m, r, m[n].right, n) && CtxShape(m, root, up, n)
    case InRight(l, n, red, up) =>
      && n != NULL && n in m && m[n].right == x && m[n].red == red && m[n].parent == HoleParent(up)
      && Shape(m, l, m[n].left, n) && CtxShape(m, root, up, n)
  }

  /** The tree t is in memory at x, below p, with no node twice. */
  predicate Holds(m: Mem, t: Tree, x: Ptr, p: Ptr)
  {
    Sep(t) && Shape(m, t, x, p)
  }

  /** The context c is in memory around x. */
  predicate Around(m: Mem, root: Ptr, c: Ctx, x: Ptr)
  {
    SepCtx(c) && CtxShape(m, root, c, x)
  }

  /** Memory holds the tree Plug(c, t), seen at the position of t. */
  predicate At(m: Mem, root: Ptr, c: Ctx, t: Tree)
  {
    Nodes(t) !! CtxNodes(c) && Holds(m, t, RootOf(t), HoleParent(c)) && Around(m, root, c, RootOf(t))
  }

  /** Memories m and w agree on the nodes of s. */
  predicate Same(m: Mem, w: Mem, s: set<Ptr>)
  {
    forall k :: k in s && k in m ==> k in w && w[k] == m[k]
  }

  lemma {:induction false} HoldsFrame(m: Mem, w: Mem, t: Tree, x: Ptr, p: Ptr)
    requires Holds(m, t, x, p) && Same(m, w, Nodes(t))
    ensures Holds(w, t, x, p)
  {
    if t.Node? {
      HoldsFrame(m, w, t.l, m[t.n].left, t.n);
      HoldsFrame(m, w, t.r, m[t.n].right, t.n);
    }
  }

  lemma {:induction false} AroundFrame(m: Mem, w: Mem, root: Ptr, c: Ctx, x: Ptr)
    requires Around(m, root, c, x) && Same(m, w, CtxNodes(c))
    ensures Around(w, root, c, x)
  {
    match c
    case Top =>
    case InLeft(up, n, _, r) => HoldsFrame(m, w, r, m[n].right, n); AroundFrame(m, w, root, up, n);
    case InRight(l, n, _, up) => HoldsFrame(m, w, l, m[n].left, n); AroundFrame(m, w, root, up, n);
  }

  /** A subtree whose root gets a new parent, and the colour it is to have. */
  lemma Reparent(m: Mem, w: Mem, t: Tree, x: Ptr, p: Ptr, q: Ptr)
    requires Holds(m, t, x, p) && Same(m, w, Nodes(t) - {x})
    requires t.Node? ==> x in m && x in w && w[x] == m[x].(parent := q)
    ensures Holds(w, t, x, q)
  {
    if t.Node? {
      HoldsFrame(m, w, t.l, m[x].left, x);
      HoldsFrame(m, w, t.r, m[x].right, x);
    }
  }

  lemma Open(m: Mem, t: Tree, x: Ptr, p: Ptr)
    requires t.Node? && Holds(m, t, x, p)
    ensures x == t.n != NULL && x in m && m[x].red == t.red && m[x].parent == p
    ensures Holds(m, t.l, m[x].left, x) && Holds(m, t.r, m[x].right, x)
    ensures Nodes(t) == Nodes(t.l) + {x} + Nodes(t.r)
    ensures x !in Nodes(t.l) && x !in Nodes(t.r) && Nodes(t.l) !! Nodes(t.r)
  {
  }

  lemma Close(m: Mem, t: Tree, p: Ptr)
    requires t.Node? && t.n != NULL && t.n in m && m[t.n].red == t.red && m[t.n].parent == p
    requires Holds(m, t.l, m[t.n].left, t.n) && Holds(m, t.r, m[t.n].right, t.n)
    requires t.n !in Nodes(t.l) && t.n !in Nodes(t.r) && Nodes(t.l) !! Nodes(t.r)
    ensures Holds(m, t, t.n, p)
    ensures Nodes(t) == Nodes(t.l) + {t.n} + Nodes(t.r)
  {
  }

  lemma RootFacts(m: Mem, t: Tree, x: Ptr, p: Ptr)
    requires Holds(m, t, x, p)
    ensures x == RootOf(t) && (x == NULL <==> t.Leaf?)
    ensures x != NULL ==> x in Nodes(t) && x in m && m[x].red == t.red && m[x].parent == p
  {
  }

  // ---- Pointer updates ----

  /** Memory and root pointer after the pointer that led to x has been made to lead to y. */
  function Redirect(m: Mem, root: Ptr, parent: Ptr, x: Ptr, y: Ptr): (Mem, Ptr)
    requires parent != NULL ==> parent in m
  {
    if parent == NULL then (m, y)
    else if m[parent].left == x then (m[parent := m[parent].(left := y)], root)
    else (m[parent := m[parent].(right := y)], root)
  }

  lemma RedirectAround(m: Mem, root: Ptr, c: Ctx, x: Ptr, y: Ptr)
    requires Around(m, root, c, x) && x != NULL && x !in CtxNodes(c)
    ensures var q := HoleParent(c);
            && (q != NULL ==> q in m && q in CtxNodes(c))
            && Around(Redirect(m, root, q, x, y).0, Redirect(m, root, q, x, y).1, c, y)
  {
    var q := HoleParent(c);
    match c
    case Top =>
    case InLeft(up, n, _, r) =>
      var w := Redirect(m, root, q, x, y).0;
      HoldsFrame(m, w, r, m[n].right, n);
      AroundFrame(m, w, root, up, n);
    case InRight(l, n, _, up) =>
      RootFacts(m, l, m[n].left, n);
      var w := Redirect(m, root, q, x, y).0;
      HoldsFrame(m, w, l, m[n].left, n);
      AroundFrame(m, w, root, up, n);
  }

  // ---- Rotations ----

  /** Three subtrees, two nodes and the context around them share no node. */
  predicate Apart(c: Ctx, x: Ptr, y: Ptr, a: Tree, b: Tree, d: Tree)
  {
    && x != y && x !in CtxNodes(c) && y !in CtxNodes(c)
    && x !in Nodes(a) && x !in Nodes(b) && x !in Nodes(d)
    && y !in Nodes(a) && y !in Nodes(b) && y !in Nodes(d)
    && Nodes(a) !! Nodes(b) && Nodes(a) !! Nodes(d) && Nodes(b) !! Nodes(d)
    && Nodes(a) !! CtxNodes(c) && Nodes(b) !! CtxNodes(c) && Nodes(d) !! CtxNodes(c)
  }

  /** The pieces of ((a p b) g d) in memory. */
  predicate LeftPieces(m: Mem, root: Ptr, c: Ctx, a: Tree, p: Ptr, b: Tree, g: Ptr, d: Tree)
  {
    && Apart(c, p, g, a, b, d) && Around(m, root, c, g)
    && p != NULL && g != NULL && p in m && g in m && m[g].left == p && m[p].parent == g
    && m[g].parent == HoleParent(c)
    && Holds(m, a, m[p].left, p) && Holds(m, b, m[p].right, p) && Holds(m, d, m[g].right, g)
  }

  /** The pieces of (a g (b p d)) in memory. */
  predicate RightPieces(m: Mem, root: Ptr, c: Ctx, a: Tree, g: Ptr, b: Tree, p: Ptr, d: Tree)
  {
    && Apart(c, p, g, a, b, d) && Around(m, root, c, g)
    && p != NULL && g != NULL && p in m && g in m && m[g].right == p && m[p].parent == g
    && m[g].parent == HoleParent(c)
    && Holds(m, a, m[g].left, g) && Holds(m, b, m[p].left, p) && Holds(m, d, m[p].right, p)
  }

  lemma OpenLeft(m: Mem, root: Ptr, c: Ctx, t: Tree)
    requires At(m, root, c, t) && t.Node? && t.l.Node?
    ensures LeftPieces(m, root, c, t.l.l, t.l.n, t.l.r, t.n, t.r)
    ensures m[t.n].red == t.red && m[t.l.n].red == t.l.red
  {
    Open(m, t, t.n, HoleParent(c));
    Open(m, t.l, t.l.n, t.n);
  }

  lemma CloseLeft(m: Mem, root: Ptr, c: Ctx, a: Tree, p: Ptr, b: Tree, g: Ptr, d: Tree)
    requires LeftPieces(m, root, c, a, p, b, g, d)
    ensures At(m, root, c, Node(Node(a, p, m[p].red, b), g, m[g].red, d))
  {
    hide Shape, CtxShape, Sep, SepCtx, Nodes, CtxNodes, Holds, Around;
    Close(m, Node(a, p, m[p].red, b), g);
    Close(m, Node(Node(a, p, m[p].red, b), g, m[g].red, d), HoleParent(c));
  }

  lemma OpenRight(m: Mem, root: Ptr, c: Ctx, t: Tree)
    requires At(m, root, c, t) && t.Node? && t.r.Node?
    ensures RightPieces(m, root, c, t.l, t.n, t.r.l, t.r.n, t.r.r)
    ensures m[t.n].red == t.red && m[t.r.n].red == t.r.red
  {
    Open(m, t, t.n, HoleParent(c));
    Open(m, t.r, t.r.n, t.n);
  }

  lemma CloseRight(m: Mem, root: Ptr, c: Ctx, a: Tree, g: Ptr, b: Tree, p: Ptr, d: Tree)
    requires RightPieces(m, root, c, a, g, b, p, d)
    ensures At(m, root, c, Node(a, g, m[g].red, Node(b, p, m[p].red, d)))
  {
    hide Shape, CtxShape, Sep, SepCtx, Nodes, CtxNodes, Holds, Around;
    Close(m, Node(b, p, m[p].red, d), g);
    Close(m, Node(a, g, m[g].red, Node(b, p, m[p].red, d)), HoleParent(c));
  }

  /** Memory w is m after the pointer writes of a right rotation at g, colours aside. */
  predicate RotatedRight(m: Mem, w: Mem, p: Ptr, g: Ptr)
    requires p in m && g in m
  {
    var tmp := m[p].right;
    && p in w && w[p] == RbNode(m[g].parent, w[p].red, m[p].left, g)
    && g in w && w[g] == RbNode(p, w[g].red, tmp, m[g].right)
    && (tmp != NULL && tmp in m ==> tmp in w && w[tmp] == m[tmp].(parent := g))
    && (forall k :: k in m && k != p && k != g && (k != tmp || tmp == NULL) ==> k in w && w[k] == m[k])
  }

  /** A right rotation turns ((a p b) g d) into (a p (b g d)). */
  lemma RotateRightOk(m: Mem, w: Mem, root: Ptr, c: Ctx, a: Tree, p: Ptr, b: Tree, g: Ptr, d: Tree)
    requires LeftPieces(m, root, c, a, p, b, g, d) && RotatedRight(m, w, p, g)
    ensures var q := HoleParent(c);
            && (q != NULL ==> q in w)
            && var r := Redirect(w, root, q, g, p);
               p in r.0 && g in r.0 && At(r.0, r.1, c, Node(a, p, w[p].red, Node(b, g, w[g].red, d)))
  {
    hide Shape, CtxShape, Sep, SepCtx, Nodes, CtxNodes, Holds, Around, HoleParent;
    RootFacts(m, b, m[p].right, p);
    AroundFrame(m, w, root, c, g);
    RedirectAround(w, root, c, g, p);
    var (r, root') := Redirect(w, root, HoleParent(c), g, p);
    HoldsFrame(m, r, a, m[p].left, p);
    Reparent(m, r, b, m[p].right, p, g);
    HoldsFrame(m, r, d, m[g].right, g);
    CloseRight(r, root', c, a, p, b, g, d);
  }

  /** Memory w is m after the pointer writes of a left rotation at g, colours aside. */
  predicate RotatedLeft(m: Mem, w: Mem, p: Ptr, g: Ptr)
    requires p in m && g in m
  {
    var tmp := m[p].left;
    && p in w && w[p] == RbNode(m[g].parent, w[p].red, g, m[p].right)
    && g in w && w[g] == RbNode(p, w[g].red, m[g].left, tmp)
    && (tmp != NULL && tmp in m ==> tmp in w && w[tmp] == m[tmp].(parent := g))
    && (forall k :: k in m && k != p && k != g && (k != tmp || tmp == NULL) ==> k in w && w[k] == m[k])
  }

  /** A left rotation turns (a g (b p d)) into ((a g b) p d). */
  lemma RotateLeftOk(m: Mem, w: Mem, root: Ptr, c: Ctx, a: Tree, g: Ptr, b: Tree, p: Ptr, d: Tree)
    requires RightPieces(m, root, c, a, g, b, p, d) && RotatedLeft(m, w, p, g)
    ensures var q := HoleParent(c);
            && (q != NULL ==> q in w)
            && var r := Redirect(w, root, q, g, p);
               p in r.0 && g in r.0 && At(r.0, r.1, c, Node(Node(a, g, w[g].red, b), p, w[p].red, d))
  {
    hide Shape, CtxShape, Sep, SepCtx, Nodes, CtxNodes, Holds, Around, HoleParent;
    RootFacts(m, b, m[p].left, p);
    AroundFrame(m, w, root, c, g);
    RedirectAround(w, root, c, g, p);
    var (r, root') := Redirect(w, root, HoleParent(c), g, p);
    HoldsFrame(m, r, a, m[g].left, g);
    Reparent(m, r, b, m[p].left, p, g);
    HoldsFrame(m, r, d, m[p].right, p);
    CloseLeft(r, root', c, a, g, b, p, d);
  }

  // ---- Moving the point of view ----

  lemma DownLeft(m: Mem, root: Ptr, c: Ctx, t: Tree)
    requires t.Node? && At(m, root, c, t)
    ensures At(m, root, InLeft(c, t.n, t.red, t.r), t.l)
  {
    RootFacts(m, t.l, m[t.n].left, t.n);
  }

  lemma UpLeft(m: Mem, root: Ptr, c: Ctx, t: Tree)
    requires t.Node? && At(m, root, InLeft(c, t.n, t.red, t.r), t.l)
    ensures At(m, root, c, t)
  {
  }

  lemma DownRight(m: Mem, root: Ptr, c: Ctx, t: Tree)
    requires t.Node? && At(m, root, c, t)
    ensures At(m, root, InRight(t.l, t.n, t.red, c), t.r)
  {
    RootFacts(m, t.r, m[t.n].right, t.n);
  }

  lemma UpRight(m: Mem, root: Ptr, c: Ctx, t: Tree)
    requires t.Node? && At(m, root, InRight(t.l, t.n, t.red, c), t.r)
    ensures At(m, root, c, t)
  {
  }

  // ---- What the insertion cases see and achieve ----

  lemma {:induction false} NoNull(m: Mem, t: Tree, x: Ptr, p: Ptr)
    requires Holds(m, t, x, p)
    ensures NULL !in Nodes(t)
  {
    if t.Node? { NoNull(m, t.l, m[t.n].left, t.n); NoNull(m, t.r, m[t.n].right, t.n); }
  }

  lemma {:induction false} NoNullAround(m: Mem, root: Ptr, c: Ctx, x: Ptr)
    requires Around(m, root, c, x)
    ensures NULL !in CtxNodes(c)
  {
    match c
    case Top =>
    case InLeft(up, n, _, r) => NoNull(m, r, m[n].right, n); NoNullAround(m, root, up, n);
    case InRight(l, n, _, up) => NoNull(m, l, m[n].left, n); NoNullAround(m, root, up, n);
  }

  lemma {:induction false} PlugAt(m: Mem, root: Ptr, c: Ctx, t: Tree)
    requires At(m, root, c, t)
    ensures At(m, root, Top, Plug(c, t))
  {
    match c
    case Top =>
    case InLeft(up, n, red, r) => UpLeft(m, root, up, Node(t, n, red, r)); PlugAt(m, root, up, Node(t, n, red, r));
    case InRight(l, n, red, up) => UpRight(m, root, up, Node(l, n, red, t)); PlugAt(m, root, up, Node(l, n, red, t));
  }

  lemma SameInorder(c: Ctx, t: Tree, u: Tree)
    requires Inorder(t) == Inorder(u)
    ensures Inorder(Plug(c, t)) == Inorder(Plug(c, u))
  {
    InorderPlug(c, t);
    InorderPlug(c, u);
  }

  /** The insertion loop's invariant: all is well but for the red root of t, whose parent may be red. */
  predicate RedPending(c: Ctx, t: Tree, h: int)
  {
    IsRed(t) && NoRedRed(t) && Bal(t, h) && Accepts(c, h, false)
  }

  /** What memory says about the hole's parent. */
  lemma ParentView(m: Mem, root: Ptr, c: Ctx, x: Ptr)
    requires Around(m, root, c, x) && !c.Top? && x !in CtxNodes(c)
    ensures c.n != NULL && c.n in m && m[c.n].red == c.red && m[c.n].parent == HoleParent(c.up)
    ensures Around(m, root, c.up, c.n) && c.n !in CtxNodes(c.up)
    ensures c.InLeft? ==>
              m[c.n].left == x && m[c.n].right == RootOf(c.r) && (x != NULL || c.r.Node? ==> RootOf(c.r) != x)
    ensures c.InRight? ==>
              m[c.n].right == x && m[c.n].left == RootOf(c.l) && (x != NULL || c.l.Node? ==> RootOf(c.l) != x)
    ensures c.InLeft? && c.r.Node? ==> c.r.n in m && m[c.r.n].red == c.r.red && c.r.n != NULL
    ensures c.InRight? && c.l.Node? ==> c.l.n in m && m[c.l.n].red == c.l.red && c.l.n != NULL
  {
    if c.InLeft? { RootFacts(m, c.r, m[c.n].right, c.n); } else { RootFacts(m, c.l, m[c.n].left, c.n); }
  }

  /** The tree that hangs from the hole's parent. */
  function Fill(c: Ctx, t: Tree): Tree
    requires !c.Top?
  {
    if c.InLeft? then Node(t, c.n, c.red, c.r) else Node(c.l, c.n, c.red, t)
  }

  lemma FillAt(m: Mem, root: Ptr, c: Ctx, t: Tree)
    requires At(m, root, c, t) && !c.Top?
    ensures At(m, root, c.up, Fill(c, t)) && Plug(c.up, Fill(c, t)) == Plug(c, t)
  {
    if c.InLeft? { UpLeft(m, root, c.up, Fill(c, t)); } else { UpRight(m, root, c.up, Fill(c, t)); }
  }

  /** Sibling subtree at the hole. */
  function Sib(c: Ctx): Tree
    requires !c.Top?
  {
    if c.InLeft? then c.r else c.l
  }

  /** A pending node with a red parent has a black grandparent. */
  lemma GrandparentIsBlack(c: Ctx, t: Tree, h: int)
    requires RedPending(c, t, h) && !c.Top? && c.red
    ensures !c.up.Top? && !c.up.red && Accepts(c.up.up, h + 1, false)
    ensures Bal(Sib(c), h) && NoRedRed(Sib(c)) && !IsRed(Sib(c)) && Bal(Sib(c.up), h) && NoRedRed(Sib(c.up))
    ensures !IsRed(t.l) && !IsRed(t.r) && Bal(t.l, h) && Bal(t.r, h) && NoRedRed(t.l) && NoRedRed(t.r)
  {
    assert Accepts(c.up, h, true);
  }

  /** Case 1: with a red uncle, the recoloured grandparent is the new pending node. */
  lemma FlipPending(c: Ctx, t: Tree, h: int)
    requires RedPending(c, t, h) && !c.Top? && c.red && !c.up.Top?
    requires IsRed(Sib(c.up))
    ensures RedPending(c.up.up, Recolored(Fill(c.up, Fill(c, t)), true, false, false), h + 1)
  {
    GrandparentIsBlack(c, t, h);
    var u := Recolored(Fill(c.up, Fill(c, t)), true, false, false);
    assert Bal(u.l, h + 1) && Bal(u.r, h + 1) && NoRedRed(u.l) && NoRedRed(u.r);
  }

  lemma InorderLeft(a: Tree, b: Tree, g: Ptr, d: Tree, red: bool)
    requires Inorder(a) == Inorder(b)
    ensures Inorder(Node(a, g, red, d)) == Inorder(Node(b, g, red, d))
  {
  }

  lemma InorderRight(d: Tree, g: Ptr, a: Tree, b: Tree, red: bool)
    requires Inorder(a) == Inorder(b)
    ensures Inorder(Node(d, g, red, a)) == Inorder(Node(d, g, red, b))
  {
  }

  lemma RotatedInorder(c: Ctx, t: Tree, u: Tree)
    requires !c.Top? && !c.up.Top? && t.Node?
    requires c.up.InLeft? && c.InLeft? ==> u == Node(t, c.n, false, Node(c.r, c.up.n, true, c.up.r))
    requires c.up.InLeft? && c.InRight? ==>
             u == Node(Node(c.l, c.n, true, t.l), t.n, false, Node(t.r, c.up.n, true, c.up.r))
    requires c.up.InRight? && c.InRight? ==> u == Node(Node(c.up.l, c.up.n, true, c.l), c.n, false, t)
    requires c.up.InRight? && c.InLeft? ==>
             u == Node(Node(c.up.l, c.up.n, true, t.l), t.n, false, Node(t.r, c.n, true, c.r))
    ensures Inorder(u) == Inorder(Fill(c.up, Fill(c, t)))
  {
    hide Inorder;
    var p, g, U := c.n, c.up.n, Sib(c.up);
    if c.up.InLeft? && c.InLeft? {
      RotationInorder(t, p, c.r, g, U, c.red, c.up.red, false, true);
    } else if c.up.InLeft? {
      RotationInorder(c.l, p, t.l, t.n, t.r, true, true, c.red, t.red);
      RotationInorder(Node(c.l, p, true, t.l), t.n, t.r, g, U, true, c.up.red, false, true);
      InorderLeft(Node(Node(c.l, p, true, t.l), t.n, true, t.r), Node(c.l, p, c.red, t), g, U, c.up.red);
    } else if c.InRight? {
      RotationInorder(U, g, c.l, p, t, true, false, c.up.red, c.red);
    } else {
      RotationInorder(t.l, t.n, t.r, p, c.r, t.red, c.red, true, true);
      RotationInorder(U, g, t.l, t.n, Node(t.r, p, true, c.r), true, false, c.up.red, true);
      InorderRight(U, g, Node(t.l, t.n, true, Node(t.r, p, true, c.r)), Node(t, p, c.red, c.r), c.up.red);
    }
  }

  /** Cases 2 and 3: the rotated subtree is black, balanced and accepted where the grandparent was. */
  lemma RotatedFits(c: Ctx, t: Tree, h: int, u: Tree)
    requires RedPending(c, t, h) && !c.Top? && c.red && !c.up.Top?
    requires !IsRed(Sib(c.up))
    requires c.up.InLeft? && c.InLeft? ==> u == Node(t, c.n, false, Node(c.r, c.up.n, true, c.up.r))
    requires c.up.InLeft? && c.InRight? ==>
             u == Node(Node(c.l, c.n, true, t.l), t.n, false, Node(t.r, c.up.n, true, c.up.r))
    requires c.up.InRight? && c.InRight? ==> u == Node(Node(c.up.l, c.up.n, true, c.l), c.n, false, t)
    requires c.up.InRight? && c.InLeft? ==>
             u == Node(Node(c.up.l, c.up.n, true, t.l), t.n, false, Node(t.r, c.n, true, c.r))
    ensures RedBlack(Plug(c.up.up, u)) && Inorder(Plug(c.up.up, u)) == Inorder(Plug(c, t))
  {
    GrandparentIsBlack(c, t, h);
    assert Bal(u.l, h) && Bal(u.r, h) && NoRedRed(u.l) && NoRedRed(u.r);
    PlugRedBlack(c.up.up, u, h + 1);
    RotatedInorder(c, t, u);
    SameInorder(c.up.up, u, Fill(c.up, Fill(c, t)));
  }

  // ---- What the erasure cases see and achieve ----

  /** The erasure loop's invariant: all is well but that paths through the black-rooted t are one black node short. */
  predicate BlackShort(c: Ctx, t: Tree, h: int)
  {
    !IsRed(t) && NoRedRed(t) && Bal(t, h) && Accepts(c, h + 1, false) && !c.Top?
  }

  lemma {:induction false} BalNonNegative(t: Tree, h: int)
    requires Bal(t, h)
    ensures h >= 0
  {
    if t.Node? { BalNonNegative(t.l, if t.red then h else h - 1); }
  }

  /** The sibling of a short subtree is a node; if it is red, its parent is black and its children are black nodes. */
  lemma SiblingFacts(c: Ctx, t: Tree, h: int)
    requires BlackShort(c, t, h)
    ensures h >= 0 && Sib(c).Node? && Bal(Sib(c), h + 1) && NoRedRed(Sib(c))
    ensures Accepts(c.up, if c.red then h + 1 else h + 2, c.red)
    ensures Sib(c).red ==> !c.red && Sib(c).l.Node? && !Sib(c).l.red && Sib(c).r.Node? && !Sib(c).r.red
  {
    BalNonNegative(t, h);
    assert Sib(c).red ==> Bal(Sib(c).l, h + 1) && Bal(Sib(c).r, h + 1);
  }

  /** The context of t after the rotation of Case 1. */
  function CaseOneCtx(c: Ctx): Ctx
    requires !c.Top? && Sib(c).Node?
  {
    if c.InLeft? then InLeft(InLeft(c.up, c.r.n, false, c.r.r), c.n, true, c.r.l)
    else InRight(c.l.r, c.n, true, InRight(c.l.l, c.l.n, false, c.up))
  }

  lemma CaseOneShort(c: Ctx, t: Tree, h: int)
    requires BlackShort(c, t, h) && Sib(c).Node? && Sib(c).red
    ensures BlackShort(CaseOneCtx(c), t, h)
    ensures Inorder(Plug(CaseOneCtx(c), t)) == Inorder(Plug(c, t))
  {
    SiblingFacts(c, t, h);
    var d := CaseOneCtx(c);
    assert Accepts(d.up, h + 1, true);
    if c.InLeft? {
      RotationInorder(t, c.n, c.r.l, c.r.n, c.r.r, true, false, c.red, c.r.red);
    } else {
      RotationInorder(c.l.l, c.l.n, c.l.r, c.n, t, c.l.red, c.red, false, true);
    }
    SameInorder(c.up, Fill(d.up, Fill(d, t)), Fill(c, t));
  }

  lemma {:induction false} AcceptsBlack(c: Ctx, h: int)
    requires Accepts(c, h, true)
    ensures Accepts(c, h, false)
  {
  }

  /**
    Case 2: the sibling turns red, which makes the parent's subtree short in turn, or whole if the parent turns black.
   */
  lemma CaseTwo(c: Ctx, t: Tree, h: int, u: Tree)
    requires BlackShort(c, t, h) && Sib(c).Node? && !Sib(c).red && !IsRed(Sib(c).l) && !IsRed(Sib(c).r)
    requires u == Recolored(Fill(c, t), false, if c.InLeft? then false else true, if c.InLeft? then true else false)
    ensures !c.red && !c.up.Top? ==> BlackShort(c.up, u, h + 1)
    ensures c.red || c.up.Top? ==> RedBlack(Plug(c.up, u))
    ensures Inorder(Plug(c.up, u)) == Inorder(Plug(c, t))
  {
    SiblingFacts(c, t, h);
    if t.Node? && c.InLeft? { assert u.l == t; }
    if t.Node? && c.InRight? { assert u.r == t; }
    var s := if c.InLeft? then u.r else u.l;
    assert Bal(s, h) && NoRedRed(s);
    assert Bal(u, h + 1) && NoRedRed(u);
    if c.red { AcceptsBlack(c.up, h + 1); }
    if c.red || c.up.Top? { PlugRedBlack(c.up, u, h + 1); }
    RecolorInorder(Fill(c, t), u.red, c.InRight?, c.InLeft?);
    SameInorder(c.up, u, Fill(c, t));
  }

  lemma RecolorInorder(t: Tree, red: bool, lred: bool, rred: bool)
    requires t.Node?
    ensures Inorder(Recolored(t, red, lred, rred)) == Inorder(t)
  {
  }

  function Blackened(t: Tree): Tree
  {
    if t.Leaf? then Leaf else Node(t.l, t.n, false, t.r)
  }

  /** Case 4, after Case 3 if need be: the rotated subtree has the full black count. */
  lemma CaseFour(c: Ctx, t: Tree, h: int, u: Tree)
    requires BlackShort(c, t, h) && Sib(c).Node? && !Sib(c).red
    requires c.InLeft? && IsRed(c.r.r) ==> u == Node(Node(t, c.n, false, c.r.l), c.r.n, c.red, Blackened(c.r.r))
    requires c.InLeft? && !IsRed(c.r.r) ==>
               IsRed(c.r.l) && u == Node(Node(t, c.n, false, c.r.l.l), c.r.l.n, c.red,
                   Node(c.r.l.r, c.r.n, false, c.r.r))
    requires c.InRight? && IsRed(c.l.l) ==> u == Node(Blackened(c.l.l), c.l.n, c.red, Node(c.l.r, c.n, false, t))
    requires c.InRight? && !IsRed(c.l.l) ==>
               IsRed(c.l.r) && u == Node(Node(c.l.l, c.l.n, false, c.l.r.l), c.l.r.n, c.red,
                   Node(c.l.r.r, c.n, false, t))
    ensures RedBlack(Plug(c.up, u))
    ensures Inorder(Plug(c.up, u)) == Inorder(Plug(c, t))
  {
    SiblingFacts(c, t, h);
    assert Bal(u.l, h + 1) && Bal(u.r, h + 1) && NoRedRed(u.l) && NoRedRed(u.r);
    PlugRedBlack(c.up, u, if c.red then h + 1 else h + 2);
    CaseFourInorder(c, t, u);
    SameInorder(c.up, u, Fill(c, t));
  }

  lemma CaseFourInorder(c: Ctx, t: Tree, u: Tree)
    requires !c.Top? && Sib(c).Node?
    requires c.InLeft? ==> u == (if IsRed(c.r.r) || c.r.l.Leaf?
             then Node(Node(t, c.n, false, c.r.l), c.r.n, c.red, Blackened(c.r.r))
               else Node(Node(t, c.n, false, c.r.l.l), c.r.l.n, c.red, Node(c.r.l.r, c.r.n, false, c.r.r)))
    requires c.InRight? ==> u == (if IsRed(c.l.l) || c.l.r.Leaf?
             then Node(Blackened(c.l.l), c.l.n, c.red, Node(c.l.r, c.n, false, t))
               else Node(Node(c.l.l, c.l.n, false, c.l.r.l), c.l.r.n, c.red, Node(c.l.r.r, c.n, false, t)))
    ensures Inorder(u) == Inorder(Fill(c, t))
  {
    var p, s := c.n, Sib(c);
    assert Inorder(Blackened(s.l)) == Inorder(s.l) && Inorder(Blackened(s.r)) == Inorder(s.r);
    hide Inorder;
    if c.InLeft? {
      if IsRed(s.r) || s.l.Leaf? {
        RotationInorder(t, p, s.l, s.n, s.r, false, c.red, c.red, s.red);
        InorderRight(Node(t, p, false, s.l), s.n, s.r, Blackened(s.r), c.red);
      } else {
        RotationInorder(t, p, s.l.l, s.l.n, Node(s.l.r, s.n, false, s.r), false, c.red, c.red, false);
        RotationInorder(s.l.l, s.l.n, s.l.r, s.n, s.r, s.l.red, s.red, false, false);
        InorderRight(t, p, Node(s.l.l, s.l.n, false, Node(s.l.r, s.n, false, s.r)), s, c.red);
      }
    } else {
      if IsRed(s.l) || s.r.Leaf? {
        RotationInorder(s.l, s.n, s.r, p, t, s.red, c.red, c.red, false);
        InorderLeft(s.l, Blackened(s.l), s.n, Node(s.r, p, false, t), c.red);
      } else {
        RotationInorder(Node(s.l, s.n, false, s.r.l), s.r.n, s.r.r, p, t, false, c.red, c.red, false);
        RotationInorder(s.l, s.n, s.r.l, s.r.n, s.r.r, false, false, s.red, s.r.red);
        InorderLeft(Node(Node(s.l, s.n, false, s.r.l), s.r.n, false, s.r.r), s, p, t, c.red);
      }
    }
  }

  // ---- The tree in place ----

  class RbTree {
    var nodes: Mem
    var root: Ptr

    method SetParentColor(x: Ptr, p: Ptr, red: bool)
      requires x in nodes
      modifies this`nodes
      ensures nodes == old(nodes)[x := old(nodes)[x].(parent := p, red := red)]
    {
      nodes := nodes[x := nodes[x].(parent := p, red := red)];
    }

    method SetLeft(x: Ptr, y: Ptr)
      requires x in nodes
      modifies this`nodes
      ensures nodes == old(nodes)[x := old(nodes)[x].(left := y)]
    {
      nodes := nodes[x := nodes[x].(left := y)];
    }

    method SetRight(x: Ptr, y: Ptr)
      requires x in nodes
      modifies this`nodes
      ensures nodes == old(nodes)[x := old(nodes)[x].(right := y)]
    {
      nodes := nodes[x := nodes[x].(right := y)];
    }

    /** Make the pointer that leads to x lead to y. */
    method ChangeChild(x: Ptr, y: Ptr, parent: Ptr)
      requires parent != NULL ==> parent in nodes
      modifies this
      ensures (nodes, root) == Redirect(old(nodes), old(root), parent, x, y)
    {
      if parent != NULL {
        if nodes[parent].left == x { SetLeft(parent, y); } else { SetRight(parent, y); }
      } else {
        root := y;
      }
    }

    /** y takes over the parent and colour of x, which becomes its child with the given colour. */
    method RotateSetParents(x: Ptr, y: Ptr, red: bool)
      requires x in nodes && y in nodes && x != y
      requires nodes[x].parent != NULL ==> nodes[x].parent in nodes
      modifies this
      ensures var m := old(nodes);
              var w := m[y := m[y].(parent := m[x].parent, red := m[x].red)][x := m[x].(parent := y, red := red)];
              (nodes, root) == Redirect(w, old(root), m[x].parent, x, y)
    {
      var parent := nodes[x].parent;
      SetParentColor(y, nodes[x].parent, nodes[x].red);
      SetParentColor(x, y, red);
      ChangeChild(x, y, parent);
    }

    // ---- Insertion ----

    /**
      Case 3, right rotation at the grandparent: node is the left child of the left child.
      Memory may differ from the tree r in the two pointers this case overwrites.
     */
    method InsertRotateRight(g: Ptr, p: Ptr, ghost r: Mem, ghost c: Ctx, ghost a: Tree, ghost b: Tree, ghost d: Tree)
      requires At(r, root, c, Node(Node(a, p, true, b), g, false, d)) && !IsRed(b)
      requires LeftButFor(r, nodes, p, g)
      modifies this
      ensures At(nodes, root, c, Node(a, p, false, Node(b, g, true, d)))
    {
      OpenLeft(r, root, c, Node(Node(a, p, true, b), g, false, d));
      hide At, Holds, Around, Apart, HoleParent;
      RootFacts(r, b, r[p].right, p);
      var tmp := nodes[p].right;
      SetLeft(g, tmp);
      SetRight(p, g);
      if tmp != NULL { SetParentColor(tmp, g, false); }
      ghost var v := nodes;
      ghost var w := v[p := v[p].(parent := v[g].parent, red := v[g].red)][g := v[g].(parent := p, red := true)];
      assert RotatedRight(r, w, p, g);
      RotateRightOk(r, w, root, c, a, p, b, g, d);
      RotateSetParents(g, p, true);
    }

    /** Case 2, left rotation at the parent, without the writes that Case 3 makes void. */
    method InsertRotateParentLeft(p: Ptr, n: Ptr)
      requires p in nodes && n in nodes && p != n
      requires nodes[n].left != NULL ==> nodes[n].left in nodes && nodes[n].left != p && nodes[n].left != n
      modifies this`nodes
      ensures nodes == CaseTwoLeft(old(nodes), p, n)
    {
      var tmp := nodes[n].left;
      SetRight(p, tmp);
      SetLeft(n, p);
      if tmp != NULL { SetParentColor(tmp, p, false); }
      SetParentColor(p, n, true);
    }

    /** Cases 2 and 3: node is the right child of the left child. */
    method InsertRotateLeftRight(g: Ptr, p: Ptr, n: Ptr, ghost c: Ctx, ghost a: Tree, ghost b: Tree, ghost e: Tree,
        ghost d: Tree)
      requires At(nodes, root, c, Node(Node(a, p, true, Node(b, n, true, e)), g, false, d)) && !IsRed(b) && !IsRed(e)
      modifies this
      ensures At(nodes, root, c, Node(Node(a, p, true, b), n, false, Node(e, g, true, d)))
    {
      ghost var r := FirstLeft(nodes, root, c, Node(Node(a, p, true, Node(b, n, true, e)), g, false, d));
      hide At;
      InsertRotateParentLeft(p, n);
      InsertRotateRight(g, n, r, c, Node(a, p, true, b), e, d);
    }

    /** The mirror image of InsertRotateRight. */
    method InsertRotateLeft(g: Ptr, p: Ptr, ghost r: Mem, ghost c: Ctx, ghost d: Tree, ghost b: Tree, ghost a: Tree)
      requires At(r, root, c, Node(d, g, false, Node(b, p, true, a))) && !IsRed(b)
      requires RightButFor(r, nodes, p, g)
      modifies this
      ensures At(nodes, root, c, Node(Node(d, g, true, b), p, false, a))
    {
      OpenRight(r, root, c, Node(d, g, false, Node(b, p, true, a)));
      hide At, Holds, Around, Apart, HoleParent;
      RootFacts(r, b, r[p].left, p);
      var tmp := nodes[p].left;
      SetRight(g, tmp);
      SetLeft(p, g);
      if tmp != NULL { SetParentColor(tmp, g, false); }
      ghost var v := nodes;
      ghost var w := v[p := v[p].(parent := v[g].parent, red := v[g].red)][g := v[g].(parent := p, red := true)];
      assert RotatedLeft(r, w, p, g);
      RotateLeftOk(r, w, root, c, d, g, b, p, a);
      RotateSetParents(g, p, true);
    }

    method InsertRotateParentRight(p: Ptr, n: Ptr)
      requires p in nodes && n in nodes && p != n
      requires nodes[n].right != NULL ==> nodes[n].right in nodes && nodes[n].right != p && nodes[n].right != n
      modifies this`nodes
      ensures nodes == CaseTwoRight(old(nodes), p, n)
    {
      var tmp := nodes[n].right;
      SetLeft(p, tmp);
      SetRight(n, p);
      if tmp != NULL { SetParentColor(tmp, p, false); }
      SetParentColor(p, n, true);
    }

    /** The mirror image of InsertRotateLeftRight. */
    method InsertRotateRightLeft(g: Ptr, p: Ptr, n: Ptr, ghost c: Ctx, ghost d: Tree, ghost e: Tree, ghost b: Tree,
        ghost a: Tree)
      requires At(nodes, root, c, Node(d, g, false, Node(Node(e, n, true, b), p, true, a))) && !IsRed(b) && !IsRed(e)
      modifies this
      ensures At(nodes, root, c, Node(Node(d, g, true, e), n, false, Node(b, p, true, a)))
    {
      ghost var r := FirstRight(nodes, root, c, Node(d, g, false, Node(Node(e, n, true, b), p, true, a)));
      hide At;
      InsertRotateParentRight(p, n);
      InsertRotateLeft(g, n, r, c, d, e, Node(b, p, true, a));
    }

    /** Case 1: the uncle is red, so parent and uncle turn black and the grandparent red. */
    method FlipColors(g: Ptr, p: Ptr, u: Ptr, ghost c: Ctx, ghost t: Tree)
      requires At(nodes, root, c, t) && t.Node? && t.n == g && t.l.Node? && t.r.Node?
      requires {p, u} == {t.l.n, t.r.n}
      modifies this`nodes
      ensures At(nodes, root, c, Recolored(t, true, false, false))
      ensures Inorder(Recolored(t, true, false, false)) == Inorder(t)
    {
      ghost var m := nodes;
      OpenLeft(m, root, c, t);
      OpenRight(m, root, c, t);
      NoNull(m, t, g, HoleParent(c));
      NoNullAround(m, root, c, g);
      hide At, Holds, Around, Apart, Nodes, CtxNodes, HoleParent;
      SetParentColor(u, g, false);
      SetParentColor(p, g, false);
      SetParentColor(g, nodes[g].parent, true);
      RecolorOk(m, nodes, root, c, t, true, false, false);
    }

    /** Cases 2 and 3, either side: rotate at the grandparent, after the parent if need be. */
    method InsertRotate(node: Ptr, p: Ptr, g: Ptr, left: bool, ghost c: Ctx, ghost t: Tree, ghost h: int)
        returns (ghost u: Tree)
      requires At(nodes, root, c, t) && RedPending(c, t, h) && t.n == node
      requires !c.Top? && c.red && c.n == p && !c.up.Top? && c.up.n == g && !IsRed(Sib(c.up))
      requires left <==> c.up.InLeft?
      modifies this
      ensures At(nodes, root, Top, u) && RedBlack(u) && Inorder(u) == Inorder(Plug(c, t))
    {
      GrandparentIsBlack(c, t, h);
      FillAt(nodes, root, c, t);
      FillAt(nodes, root, c.up, Fill(c, t));
      ParentView(nodes, root, c, node);
      hide At, Accepts, Bal, NoRedRed, Inorder, Plug, RedPending, Nodes, CtxNodes;
      ghost var v;
      if left {
        if node == nodes[p].right {
          v := Node(Node(c.l, p, true, t.l), node, false, Node(t.r, g, true, c.up.r));
          InsertRotateLeftRight(g, p, node, c.up.up, c.l, t.l, t.r, c.up.r);
        } else {
          v := Node(t, p, false, Node(c.r, g, true, c.up.r));
          InsertRotateRight(g, p, nodes, c.up.up, t, c.r, c.up.r);
        }
      } else {
        if node == nodes[p].left {
          v := Node(Node(c.up.l, g, true, t.l), node, false, Node(t.r, p, true, c.r));
          InsertRotateRightLeft(g, p, node, c.up.up, c.up.l, t.l, t.r, c.r);
        } else {
          v := Node(Node(c.up.l, g, true, c.l), p, false, t);
          InsertRotateLeft(g, p, nodes, c.up.up, c.up.l, c.l, t);
        }
      }
      RotatedFits(c, t, h, v);
      PlugAt(nodes, root, c.up.up, v);
      u := Plug(c.up.up, v);
    }

    /**
      The insertion fix-up: from a tree that is red-black but for the red node just linked,
      to a red-black tree with the same nodes in the same order.
     */
    method InsertColor(start: Ptr, ghost c0: Ctx, ghost t0: Tree, ghost h0: int) returns (ghost u: Tree)
      requires At(nodes, root, c0, t0) && RedPending(c0, t0, h0) && t0.n == start
      modifies this
      ensures At(nodes, root, Top, u) && RedBlack(u) && Inorder(u) == Inorder(Plug(c0, t0))
    {
      hide At, Accepts, Bal, NoRedRed, Inorder, Plug, RedPending, HoleParent;
      var node := start;
      RootAt(nodes, root, c0, t0, h0);
      var parent := nodes[node].parent;
      ghost var c, t, h := c0, t0, h0;
      while true
        invariant At(nodes, root, c, t) && RedPending(c, t, h) && t.Node? && t.n == node && parent == HoleParent(c)
        invariant Inorder(Plug(c, t)) == Inorder(Plug(c0, t0))
        decreases c
      {
        RootAt(nodes, root, c, t, h);
        if parent == NULL {
          u := BlackRoot(nodes, root, c, t, h);
          SetParentColor(node, NULL, false);
          return;
        }
        ParentViewAt(nodes, root, c, t);
        if !nodes[parent].red {
          PendingUnderBlack(c, t, h);
          PlugAt(nodes, root, c, t);
          u := Plug(c, t);
          return;
        }
        GrandparentIsBlack(c, t, h);
        var g := nodes[parent].parent;
        var left := parent != nodes[g].right;
        var tmp := if left then nodes[g].right else nodes[g].left;
        if tmp != NULL && nodes[tmp].red {
          FillAt(nodes, root, c, t);
          FillAt(nodes, root, c.up, Fill(c, t));
          ghost var v := Fill(c.up, Fill(c, t));
          FlipPending(c, t, h);
          FlipColors(g, parent, tmp, c.up.up, v);
          SameInorder(c.up.up, v, Recolored(v, true, false, false));
          node := g;
          c, t, h := c.up.up, Recolored(v, true, false, false), h + 1;
          RootAt(nodes, root, c, t, h);
          parent := nodes[node].parent;
        } else {
          u := InsertRotate(node, parent, g, left, c, t, h);
          return;
        }
      }
    }

    // ---- Erasure ----

    method SetParent(x: Ptr, p: Ptr)
      requires x in nodes
      modifies this`nodes
      ensures nodes == old(nodes)[x := old(nodes)[x].(parent := p)]
    {
      nodes := nodes[x := nodes[x].(parent := p)];
    }

    method EraseLinkLeft(p: Ptr, s: Ptr, x: Ptr)
      requires p in nodes && s in nodes && x in nodes && p != s && s != x && p != x
      requires nodes[s].left != NULL ==> nodes[s].left in nodes && nodes[s].left !in {p, s, x}
      modifies this`nodes
      ensures nodes == LinkedLeft(old(nodes), p, s, x)
    {
      var tmp := nodes[s].left;
      SetRight(p, tmp);
      SetLeft(s, p);
      SetParentColor(x, s, false);
      if tmp != NULL { SetParent(tmp, p); }
    }

    /** Case 4, left rotation at the parent; x is the sibling's right child. */
    method EraseRotateLeft(p: Ptr, s: Ptr, x: Ptr, ghost r: Mem, ghost c: Ctx, ghost t: Tree, ghost pr: bool,
        ghost b: Tree, ghost sr: bool, ghost d: Tree)
      requires At(r, root, c, Node(t, p, pr, Node(b, s, sr, d))) && d.Node? && d.n == x
      requires ErasedButFor(r, nodes, s, x)
      modifies this
      ensures At(nodes, root, c, Node(Node(t, p, false, b), s, pr, Blackened(d)))
    {
      ghost var q := BlackenRight(r, root, c, Node(t, p, pr, Node(b, s, sr, d)));
      OpenRight(q, root, c, Node(t, p, pr, Node(b, s, sr, Blackened(d))));
      hide At, Holds, Around, Apart, HoleParent;
      RootFacts(q, b, q[s].left, s);
      RootFacts(q, Blackened(d), q[s].right, s);
      ghost var w := LinkedIsRotatedLeft(r, nodes, p, s, x);
      RotateLeftOk(q, w, root, c, t, p, b, s, Blackened(d));
      hide RotatedLeft, Apart, RightPieces;
      EraseLinkLeft(p, s, x);
      RotateSetParents(p, s, false);
    }

    /** Case 3, right rotation at the sibling, without the parent links that Case 4 writes. */
    method EraseRotateSiblingRight(p: Ptr, s: Ptr, n: Ptr)
      requires p in nodes && s in nodes && n in nodes && p != s && s != n && p != n
      requires nodes[n].right != NULL ==> nodes[n].right in nodes && nodes[n].right !in {p, s, n}
      modifies this`nodes
      ensures var m, tmp := old(nodes), old(nodes)[n].right;
              var v := m[s := m[s].(left := tmp)][n := m[n].(right := s)][p := m[p].(right := n)];
              nodes == if tmp == NULL then v else v[tmp := m[tmp].(parent := s, red := false)]
    {
      var tmp := nodes[n].right;
      SetLeft(s, tmp);
      SetRight(n, s);
      SetRight(p, n);
      if tmp != NULL { SetParentColor(tmp, s, false); }
    }

    /** Cases 3 and 4: the sibling's left child is red and its right child is not. */
    method EraseRotateRightLeft(p: Ptr, s: Ptr, n: Ptr, ghost c: Ctx, ghost t: Tree, ghost pr: bool, ghost a: Tree,
        ghost b: Tree, ghost d: Tree)
      requires At(nodes, root, c, Node(t, p, pr, Node(Node(a, n, true, b), s, false, d))) && !IsRed(b)
      modifies this
      ensures At(nodes, root, c, Node(Node(t, p, false, a), n, pr, Node(b, s, false, d)))
    {
      ghost var r := FirstRight(nodes, root, c, Node(t, p, pr, Node(Node(a, n, true, b), s, false, d)));
      hide At;
      EraseRotateSiblingRight(p, s, n);
      EraseRotateLeft(p, n, s, r, c, t, pr, a, true, Node(b, s, false, d));
    }

    method EraseLinkRight(p: Ptr, s: Ptr, x: Ptr)
      requires p in nodes && s in nodes && x in nodes && p != s && s != x && p != x
      requires nodes[s].right != NULL ==> nodes[s].right in nodes && nodes[s].right !in {p, s, x}
      modifies this`nodes
      ensures nodes == LinkedRight(old(nodes), p, s, x)
    {
      var tmp := nodes[s].right;
      SetLeft(p, tmp);
      SetRight(s, p);
      SetParentColor(x, s, false);
      if tmp != NULL { SetParent(tmp, p); }
    }

    /** The mirror image of EraseRotateLeft; x is the sibling's left child. */
    method EraseRotateRight(p: Ptr, s: Ptr, x: Ptr, ghost r: Mem, ghost c: Ctx, ghost d: Tree, ghost sr: bool,
        ghost b: Tree, ghost pr: bool, ghost t: Tree)
      requires At(r, root, c, Node(Node(d, s, sr, b), p, pr, t)) && d.Node? && d.n == x
      requires ErasedButFor(r, nodes, s, x)
      modifies this
      ensures At(nodes, root, c, Node(Blackened(d), s, pr, Node(b, p, false, t)))
    {
      ghost var q := BlackenLeft(r, root, c, Node(Node(d, s, sr, b), p, pr, t));
      OpenLeft(q, root, c, Node(Node(Blackened(d), s, sr, b), p, pr, t));
      hide At, Holds, Around, Apart, HoleParent;
      RootFacts(q, b, q[s].right, s);
      RootFacts(q, Blackened(d), q[s].left, s);
      ghost var w := LinkedIsRotatedRight(r, nodes, p, s, x);
      RotateRightOk(q, w, root, c, Blackened(d), s, b, p, t);
      hide RotatedRight, Apart, LeftPieces;
      EraseLinkRight(p, s, x);
      RotateSetParents(p, s, false);
    }

    method EraseRotateSiblingLeft(p: Ptr, s: Ptr, n: Ptr)
      requires p in nodes && s in nodes && n in nodes && p != s && s != n && p != n
      requires nodes[n].left != NULL ==> nodes[n].left in nodes && nodes[n].left !in {p, s, n}
      modifies this`nodes
      ensures var m, tmp := old(nodes), old(nodes)[n].left;
              var v := m[s := m[s].(right := tmp)][n := m[n].(left := s)][p := m[p].(left := n)];
              nodes == if tmp == NULL then v else v[tmp := m[tmp].(parent := s, red := false)]
    {
      var tmp := nodes[n].left;
      SetRight(s, tmp);
      SetLeft(n, s);
      SetLeft(p, n);
      if tmp != NULL { SetParentColor(tmp, s, false); }
    }

    /** The mirror image of EraseRotateRightLeft. */
    method EraseRotateLeftRight(p: Ptr, s: Ptr, n: Ptr, ghost c: Ctx, ghost d: Tree, ghost b: Tree, ghost a: Tree,
        ghost pr: bool, ghost t: Tree)
      requires At(nodes, root, c, Node(Node(d, s, false, Node(b, n, true, a)), p, pr, t)) && !IsRed(b)
      modifies this
      ensures At(nodes, root, c, Node(Node(d, s, false, b), n, pr, Node(a, p, false, t)))
    {
      ghost var r := FirstLeft(nodes, root, c, Node(Node(d, s, false, Node(b, n, true, a)), p, pr, t));
      hide At;
      EraseRotateSiblingLeft(p, s, n);
      EraseRotateRight(p, n, s, r, c, Node(d, s, false, b), true, a, pr, t);
    }

    /** Case 1: the sibling is red; rotate so that t gets a black sibling. */
    method EraseCaseOne(p: Ptr, s: Ptr, left: bool, ghost c: Ctx, ghost t: Tree, ghost h: int)
      requires At(nodes, root, c, t) && BlackShort(c, t, h) && c.n == p && Sib(c).Node? && Sib(c).n == s && Sib(c).red
      requires left <==> c.InLeft?
      modifies this
      ensures At(nodes, root, CaseOneCtx(c), t)
    {
      SiblingFacts(c, t, h);
      FillAt(nodes, root, c, t);
      hide At, BlackShort, Accepts, Bal, NoRedRed, Inorder, Plug;
      if left {
        InsertRotateLeft(p, s, nodes, c.up, t, c.r.l, c.r.r);
        DownLeft(nodes, root, c.up, Node(Node(t, p, true, c.r.l), s, false, c.r.r));
        DownLeft(nodes, root, InLeft(c.up, s, false, c.r.r), Node(t, p, true, c.r.l));
      } else {
        InsertRotateRight(p, s, nodes, c.up, c.l.l, c.l.r, t);
        DownRight(nodes, root, c.up, Node(c.l.l, s, false, Node(c.l.r, p, true, t)));
        DownRight(nodes, root, InRight(c.l.l, s, false, c.up), Node(c.l.r, p, true, t));
      }
    }

    /** Case 2: the sibling and both its children are black; the sibling turns red, and a red parent black. */
    method EraseCaseTwo(p: Ptr, s: Ptr, ghost c: Ctx, ghost t: Tree, ghost h: int) returns (climb: bool, ghost u: Tree)
      requires At(nodes, root, c, t) && BlackShort(c, t, h) && c.n == p && Sib(c).Node? && Sib(c).n == s
      requires !Sib(c).red && !IsRed(Sib(c).l) && !IsRed(Sib(c).r)
      modifies this`nodes
      ensures climb <==> !c.red && !c.up.Top?
      ensures climb ==>
                At(nodes, root, c.up, u) && BlackShort(c.up, u, h + 1) && u.Node? && u.n == p
                && Inorder(Plug(c.up, u)) == Inorder(Plug(c, t))
      ensures !climb ==> At(nodes, root, Top, u) && RedBlack(u) && Inorder(u) == Inorder(Plug(c, t))
    {
      ghost var m := nodes;
      CaseTwoView(m, root, c, t, h);
      u := Recolored(Fill(c, t), false, c.InRight?, c.InLeft?);
      CaseTwo(c, t, h, u);
      hide At, BlackShort, Accepts, Bal, NoRedRed, Inorder, Plug, Nodes, CtxNodes;
      SetParentColor(s, p, true);
      if nodes[p].red {
        SetParentColor(p, nodes[p].parent, false);
        climb := false;
      } else {
        climb := nodes[p].parent != NULL;
      }
      RecolorOk(m, nodes, root, c.up, Fill(c, t), false, c.InRight?, c.InLeft?);
      if !climb {
        PlugAt(nodes, root, c.up, u);
        u := Plug(c.up, u);
      }
    }

    /** Cases 3 and 4: the black sibling has a red child. */
    method EraseCaseFour(p: Ptr, s: Ptr, left: bool, ghost c: Ctx, ghost t: Tree, ghost h: int) returns (ghost u: Tree)
      requires At(nodes, root, c, t) && BlackShort(c, t, h) && c.n == p && Sib(c).Node? && Sib(c).n == s
      requires !Sib(c).red && (IsRed(Sib(c).l) || IsRed(Sib(c).r))
      requires left <==> c.InLeft?
      modifies this
      ensures At(nodes, root, Top, u) && RedBlack(u) && Inorder(u) == Inorder(Plug(c, t))
    {
      SiblingFacts(c, t, h);
      CaseFourView(nodes, root, c, t, h);
      ghost var v;
      hide At, BlackShort, Accepts, Bal, NoRedRed, Inorder, Plug;
      if left {
        var tmp := nodes[s].right;
        if tmp == NULL || !nodes[tmp].red {
          v := Node(Node(t, p, false, c.r.l.l), c.r.l.n, c.red, Node(c.r.l.r, s, false, c.r.r));
          EraseRotateRightLeft(p, s, nodes[s].left, c.up, t, c.red, c.r.l.l, c.r.l.r, c.r.r);
        } else {
          v := Node(Node(t, p, false, c.r.l), s, c.red, Blackened(c.r.r));
          EraseRotateLeft(p, s, tmp, nodes, c.up, t, c.red, c.r.l, false, c.r.r);
        }
      } else {
        var tmp := nodes[s].left;
        if tmp == NULL || !nodes[tmp].red {
          v := Node(Node(c.l.l, s, false, c.l.r.l), c.l.r.n, c.red, Node(c.l.r.r, p, false, t));
          EraseRotateLeftRight(p, s, nodes[s].right, c.up, c.l.l, c.l.r.l, c.l.r.r, c.red, t);
        } else {
          v := Node(Blackened(c.l.l), s, c.red, Node(c.l.r, p, false, t));
          EraseRotateRight(p, s, tmp, nodes, c.up, c.l.l, false, c.l.r, c.red, t);
        }
      }
      CaseFour(c, t, h, v);
      PlugAt(nodes, root, c.up, v);
      u := Plug(c.up, v);
    }

    /**
      The erasure fix-up: from a tree that is red-black but that paths through one empty
      position are one black node short, to a red-black tree with the same nodes in order.
     */
    method EraseColor(start: Ptr, ghost c0: Ctx, ghost h0: int) returns (ghost u: Tree)
      requires At(nodes, root, c0, Leaf) && BlackShort(c0, Leaf, h0) && c0.n == start
      modifies this
      ensures At(nodes, root, Top, u) && RedBlack(u) && Inorder(u) == Inorder(Plug(c0, Leaf))
    {
      hide At, BlackShort, Accepts, Bal, NoRedRed, Inorder, Plug;
      var node, parent := NULL, start;
      NotTop(c0, Leaf, h0);
      ghost var c, t, h := c0, Leaf, h0;
      while true
        invariant !c.Top? && At(nodes, root, c, t) && BlackShort(c, t, h) && node == RootOf(t) && parent == c.n
        invariant Inorder(Plug(c, t)) == Inorder(Plug(c0, Leaf))
        decreases c
      {
        SiblingFacts(c, t, h);
        SiblingView(nodes, root, c, t, h);
        var left := node != nodes[parent].right;
        var sibling := if left then nodes[parent].right else nodes[parent].left;
        ghost var d := c;
        if nodes[sibling].red {
          CaseOneShort(c, t, h);
          EraseCaseOne(parent, sibling, left, c, t, h);
          d := CaseOneCtx(c);
          SiblingView(nodes, root, d, t, h);
          sibling := if left then nodes[parent].right else nodes[parent].left;
        }
        var l, r := nodes[sibling].left, nodes[sibling].right;
        if (r == NULL || !nodes[r].red) && (l == NULL || !nodes[l].red) {
          var climb;
          climb, u := EraseCaseTwo(parent, sibling, d, t, h);
          if !climb { return; }
          c, t, h := d.up, u, h + 1;
          node := parent;
          ClimbView(nodes, root, c, t);
          parent := nodes[node].parent;
        } else {
          u := EraseCaseFour(parent, sibling, left, d, t, h);
          return;
        }
      }
    }

    /** Link a new red leaf at an empty position of a red-black tree and rebalance. */
    method InsertAt(node: Ptr, parent: Ptr, left: bool, ghost c: Ctx) returns (ghost u: Tree)
      requires node != NULL && node !in CtxNodes(c)
      requires At(nodes, root, c, Leaf) && RedBlack(Plug(c, Leaf)) && parent == HoleParent(c)
      requires left <==> c.InLeft?
      modifies this
      ensures At(nodes, root, Top, u) && RedBlack(u) && Inorder(u) == Before(c) + [node] + After(c)
    {
      ghost var t := Node(Leaf, node, true, Leaf);
      ghost var h := LinkedPending(c, node);
      LinkedView(nodes, root, c, node);
      InorderPlug(c, t);
      hide At, Accepts, Bal, NoRedRed, Inorder, Plug, RedPending, Nodes, CtxNodes, HoleParent, RedBlack;
      nodes := nodes[node := RbNode(parent, true, NULL, NULL)];
      if parent == NULL {
        root := node;
      } else if left {
        SetLeft(parent, node);
      } else {
        SetRight(parent, node);
      }
      u := InsertColor(node, c, t, h);
    }
  }

  /** Where a red leaf replaces an empty position of a red-black tree, only its own redness is pending. */
  lemma LinkedPending(c: Ctx, node: Ptr) returns (h: int)
    requires RedBlack(Plug(c, Leaf))
    ensures RedPending(c, Node(Leaf, node, true, Leaf), h)
    ensures Inorder(Node(Leaf, node, true, Leaf)) == [node]
  {
    var H :| Bal(Plug(c, Leaf), H);
    h := Unplug(c, Leaf, H);
  }

  lemma LinkedView(m: Mem, root: Ptr, c: Ctx, node: Ptr)
    requires node != NULL && node !in CtxNodes(c) && At(m, root, c, Leaf)
    ensures HoleParent(c) == NULL <==> c.Top?
    ensures HoleParent(c) != NULL ==> HoleParent(c) in m
    ensures var w := m[node := RbNode(HoleParent(c), true, NULL, NULL)];
            var q := HoleParent(c);
            var v := if q == NULL then w else if c.InLeft? then w[q := w[q].(left := node)]
                else w[q := w[q].(right := node)];
            At(v, if q == NULL then node else root, c, Node(Leaf, node, true, Leaf))
  {
    var w := m[node := RbNode(HoleParent(c), true, NULL, NULL)];
    var q := HoleParent(c);
    NoNullAround(m, root, c, NULL);
    if !c.Top? {
      ParentView(m, root, c, NULL);
      var v := if c.InLeft? then w[q := w[q].(left := node)] else w[q := w[q].(right := node)];
      HoldsFrame(m, v, Sib(c), if c.InLeft? then m[q].right else m[q].left, q);
      AroundFrame(m, v, root, c.up, q);
    }
  }

  lemma NotTop(c: Ctx, t: Tree, h: int)
    requires BlackShort(c, t, h)
    ensures !c.Top?
  {
  }

  lemma ClimbView(m: Mem, root: Ptr, c: Ctx, t: Tree)
    requires At(m, root, c, t) && t.Node? && !c.Top?
    ensures t.n in m && m[t.n].parent == c.n
  {
  }

  /** What memory says about the parent, the sibling and the sibling's children. */
  lemma SiblingView(m: Mem, root: Ptr, c: Ctx, t: Tree, h: int)
    requires At(m, root, c, t) && BlackShort(c, t, h)
    ensures c.n in m && Sib(c).Node? && Sib(c).n in m && m[Sib(c).n].red == Sib(c).red
    ensures c.InLeft? <==> m[c.n].right != RootOf(t)
    ensures Sib(c).n == if c.InLeft? then m[c.n].right else m[c.n].left
    ensures m[Sib(c).n].left == RootOf(Sib(c).l) && m[Sib(c).n].right == RootOf(Sib(c).r)
    ensures Sib(c).l.Node? ==> Sib(c).l.n != NULL && Sib(c).l.n in m && m[Sib(c).l.n].red == Sib(c).l.red
    ensures Sib(c).r.Node? ==> Sib(c).r.n != NULL && Sib(c).r.n in m && m[Sib(c).r.n].red == Sib(c).r.red
  {
    SiblingFacts(c, t, h);
    var s := Sib(c);
    if t.Node? { RootFacts(m, t, t.n, c.n); }
    NoNullAround(m, root, c, RootOf(t));
    ParentView(m, root, c, RootOf(t));
    Open(m, s, s.n, c.n);
    RootFacts(m, s.l, m[s.n].left, s.n);
    RootFacts(m, s.r, m[s.n].right, s.n);
  }

  /** What memory says about the parent and sibling in Case 2. */
  lemma CaseTwoView(m: Mem, root: Ptr, c: Ctx, t: Tree, h: int)
    requires At(m, root, c, t) && BlackShort(c, t, h) && Sib(c).Node?
    ensures At(m, root, c.up, Fill(c, t)) && NULL !in Nodes(Fill(c, t)) && NULL !in CtxNodes(c.up)
    ensures c.n in m && m[c.n].red == c.red && m[c.n].parent == HoleParent(c.up)
            && (HoleParent(c.up) == NULL <==> c.up.Top?)
    ensures Sib(c).n in m && m[Sib(c).n].red == Sib(c).red && m[Sib(c).n].parent == c.n && Sib(c).n != c.n
    ensures t.Node? ==> t.n in m && m[t.n].red == t.red && t.n != c.n && t.n != Sib(c).n
  {
    var f := Fill(c, t);
    FillAt(m, root, c, t);
    Open(m, f, c.n, HoleParent(c.up));
    RootFacts(m, f.l, m[c.n].left, c.n);
    RootFacts(m, f.r, m[c.n].right, c.n);
    NoNull(m, f, c.n, HoleParent(c.up));
    NoNullAround(m, root, c.up, c.n);
    if !c.up.Top? { ParentView(m, root, c.up, c.n); }
  }

  /** What memory says about the sibling's children in Cases 3 and 4. */
  lemma CaseFourView(m: Mem, root: Ptr, c: Ctx, t: Tree, h: int)
    requires At(m, root, c, t) && BlackShort(c, t, h) && Sib(c).Node? && !Sib(c).red
    ensures At(m, root, c.up, Fill(c, t)) && c.n in m
    ensures var s := Sib(c);
            && s.n in m && m[s.n].left == RootOf(s.l) && m[s.n].right == RootOf(s.r) && c.n != s.n
            && (s.l.Node? ==> s.l.n in m && m[s.l.n].red == s.l.red && s.l.n != NULL && s.l.n != s.n)
            && (s.r.Node? ==> s.r.n in m && m[s.r.n].red == s.r.red && s.r.n != NULL && s.r.n != s.n)
            && (IsRed(s.l) ==> !IsRed(s.l.r) && !IsRed(s.l.l)) && (IsRed(s.r) ==> !IsRed(s.r.l) && !IsRed(s.r.r))
  {
    var f, s := Fill(c, t), Sib(c);
    FillAt(m, root, c, t);
    Open(m, f, c.n, HoleParent(c.up));
    Open(m, s, s.n, c.n);
    RootFacts(m, s.l, m[s.n].left, s.n);
    RootFacts(m, s.r, m[s.n].right, s.n);
    SiblingFacts(c, t, h);
  }

  function LinkedLeft(m: Mem, p: Ptr, s: Ptr, x: Ptr): Mem
    requires p in m && s in m && x in m && (m[s].left != NULL ==> m[s].left in m)
  {
    var tmp := m[s].left;
    var v := m[p := m[p].(right := tmp)][s := m[s].(left := p)][x := m[x].(parent := s, red := false)];
    if tmp == NULL then v else v[tmp := m[tmp].(parent := p)]
  }

  /** The writes of Case 4 amount to a left rotation of the tree in which x is already black. */
  lemma LinkedIsRotatedLeft(r: Mem, m: Mem, p: Ptr, s: Ptr, x: Ptr) returns (w: Mem)
    requires p in r && s in r && x in r && p != s && s != x && p != x && ErasedButFor(r, m, s, x) && r[x].parent == s
    requires r[s].left != NULL ==> r[s].left in r && r[s].left !in {p, s, x}
    ensures var v := LinkedLeft(m, p, s, x);
            w == v[s := v[s].(parent := v[p].parent, red := v[p].red)][p := v[p].(parent := s, red := false)]
    ensures RotatedLeft(r[x := r[x].(red := false)], w, s, p) && w[p].red == false && w[s].red == r[p].red
  {
    var v := LinkedLeft(m, p, s, x);
    w := v[s := v[s].(parent := v[p].parent, red := v[p].red)][p := v[p].(parent := s, red := false)];
  }

  /** Memory v is r but for the parents of s and x. */
  predicate ErasedButFor(r: Mem, v: Mem, s: Ptr, x: Ptr)
  {
    && s in r && x in r && s in v && x in v
    && v == r[s := r[s].(parent := v[s].parent)][x := r[x].(parent := v[x].parent)]
  }

  function LinkedRight(m: Mem, p: Ptr, s: Ptr, x: Ptr): Mem
    requires p in m && s in m && x in m && (m[s].right != NULL ==> m[s].right in m)
  {
    var tmp := m[s].right;
    var v := m[p := m[p].(left := tmp)][s := m[s].(right := p)][x := m[x].(parent := s, red := false)];
    if tmp == NULL then v else v[tmp := m[tmp].(parent := p)]
  }

  lemma LinkedIsRotatedRight(r: Mem, m: Mem, p: Ptr, s: Ptr, x: Ptr) returns (w: Mem)
    requires p in r && s in r && x in r && p != s && s != x && p != x && ErasedButFor(r, m, s, x) && r[x].parent == s
    requires r[s].right != NULL ==> r[s].right in r && r[s].right !in {p, s, x}
    ensures var v := LinkedRight(m, p, s, x);
            w == v[s := v[s].(parent := v[p].parent, red := v[p].red)][p := v[p].(parent := s, red := false)]
    ensures RotatedRight(r[x := r[x].(red := false)], w, s, p) && w[p].red == false && w[s].red == r[p].red
  {
    var v := LinkedRight(m, p, s, x);
    w := v[s := v[s].(parent := v[p].parent, red := v[p].red)][p := v[p].(parent := s, red := false)];
  }

  lemma BlackenLeft(m: Mem, root: Ptr, c: Ctx, t: Tree) returns (w: Mem)
    requires At(m, root, c, t) && t.Node? && t.l.Node? && t.l.l.Node?
    ensures var x := t.l.l.n; x in m && w == m[x := m[x].(red := false)] && x != t.n && x != t.l.n
    ensures At(w, root, c, Node(Node(Blackened(t.l.l), t.l.n, t.l.red, t.l.r), t.n, t.red, t.r))
  {
    var x := t.l.l.n;
    var c1 := InLeft(c, t.n, t.red, t.r);
    OpenLeft(m, root, c, t);
    DownLeft(m, root, c, t);
    Open(m, t.l, t.l.n, t.n);
    RootFacts(m, t.l.l, m[t.l.n].left, t.l.n);
    RootFacts(m, t.l.r, m[t.l.n].right, t.l.n);
    NoNull(m, t.l, t.l.n, t.n);
    NoNullAround(m, root, c1, t.l.n);
    w := m[x := m[x].(red := false)];
    hide At, Holds, Around, Nodes, CtxNodes, Apart;
    RecolorOk(m, w, root, c1, t.l, t.l.red, false, t.l.r.Node? && t.l.r.red);
    UpLeft(w, root, c, Node(Recolored(t.l, t.l.red, false, t.l.r.Node? && t.l.r.red), t.n, t.red, t.r));
  }

  /** The memory in which the right child of the right child is black. */
  lemma BlackenRight(m: Mem, root: Ptr, c: Ctx, t: Tree) returns (w: Mem)
    requires At(m, root, c, t) && t.Node? && t.r.Node? && t.r.r.Node?
    ensures var x := t.r.r.n; x in m && w == m[x := m[x].(red := false)] && x != t.n && x != t.r.n
    ensures At(w, root, c, Node(t.l, t.n, t.red, Node(t.r.l, t.r.n, t.r.red, Blackened(t.r.r))))
  {
    var x := t.r.r.n;
    var c1 := InRight(t.l, t.n, t.red, c);
    OpenRight(m, root, c, t);
    DownRight(m, root, c, t);
    Open(m, t.r, t.r.n, t.n);
    RootFacts(m, t.r.r, m[t.r.n].right, t.r.n);
    RootFacts(m, t.r.l, m[t.r.n].left, t.r.n);
    NoNull(m, t.r, t.r.n, t.n);
    NoNullAround(m, root, c1, t.r.n);
    w := m[x := m[x].(red := false)];
    hide At, Holds, Around, Nodes, CtxNodes, Apart;
    RecolorOk(m, w, root, c1, t.r, t.r.red, t.r.l.Node? && t.r.l.red, false);
    UpRight(w, root, c, Node(t.l, t.n, t.red, Recolored(t.r, t.r.red, t.r.l.Node? && t.r.l.red, false)));
  }

  lemma RootAt(m: Mem, root: Ptr, c: Ctx, t: Tree, h: int)
    requires At(m, root, c, t) && RedPending(c, t, h)
    ensures t.Node? && t.n in m && m[t.n].parent == HoleParent(c)
  {
  }

  lemma PendingUnderBlack(c: Ctx, t: Tree, h: int)
    requires RedPending(c, t, h) && !c.Top? && !c.red
    ensures RedBlack(Plug(c, t))
  {
    PlugRedBlack(c, t, h);
  }

  /** What memory says about the parent and the grandparent of the tree t. */
  lemma ParentViewAt(m: Mem, root: Ptr, c: Ctx, t: Tree)
    requires At(m, root, c, t) && t.Node? && HoleParent(c) != NULL
    ensures !c.Top? && c.n == HoleParent(c) && c.n in m && m[c.n].red == c.red
    ensures !c.up.Top? ==> m[c.n].parent == c.up.n && c.up.n in m && c.up.n != NULL
    ensures !c.up.Top? ==> (c.up.InLeft? <==> m[c.up.n].right != c.n)
    ensures !c.up.Top? ==> RootOf(Sib(c.up)) == if c.up.InLeft? then m[c.up.n].right else m[c.up.n].left
    ensures !c.up.Top? && Sib(c.up).Node? ==>
              Sib(c.up).n in m && m[Sib(c.up).n].red == Sib(c.up).red && Sib(c.up).n != NULL
  {
    ParentView(m, root, c, t.n);
    if !c.up.Top? { ParentView(m, root, c.up, c.n); }
  }

  /** Blackening a red root yields a red-black tree. */
  lemma BlackRoot(m: Mem, root: Ptr, c: Ctx, t: Tree, h: int) returns (u: Tree)
    requires At(m, root, c, t) && RedPending(c, t, h) && HoleParent(c) == NULL
    ensures t.n in m && At(m[t.n := m[t.n].(parent := NULL, red := false)], root, Top, u)
    ensures RedBlack(u) && Inorder(u) == Inorder(Plug(c, t))
  {
    u := Node(t.l, t.n, false, t.r);
    assert c.Top?;
    assert Bal(u, h + 1);
    RecolorRoot(m, m[t.n := m[t.n].(parent := NULL, red := false)], t, t.n, NULL, false);
  }

  /** Memory v is r but for the link from g down to its left child p and the parent of p. */
  predicate LeftButFor(r: Mem, v: Mem, p: Ptr, g: Ptr)
  {
    && p in r && g in r && p in v && g in v
    && v == r[p := r[p].(parent := v[p].parent)][g := r[g].(left := v[g].left)]
  }

  function CaseTwoLeft(m: Mem, p: Ptr, n: Ptr): Mem
    requires p in m && n in m && (m[n].left != NULL ==> m[n].left in m)
  {
    var tmp := m[n].left;
    var v := m[p := m[p].(right := tmp, parent := n, red := true)][n := m[n].(left := p)];
    if tmp == NULL then v else v[tmp := m[tmp].(parent := p, red := false)]
  }

  /** The memory after a left rotation at the left child of t, as the double rotation's first half. */
  lemma FirstLeft(m: Mem, root: Ptr, c: Ctx, t: Tree) returns (r: Mem)
    requires At(m, root, c, t) && t.Node? && t.l.Node? && t.l.r.Node? && !IsRed(t.l.r.l)
    ensures var p, n, g := t.l.n, t.l.r.n, t.n;
            && p in m && n in m && g in m && p != n && n != g && p != g
            && n == m[p].right && p == m[g].left && m[p].red == t.l.red && m[n].red == t.l.r.red && m[g].red == t.red
            && var tmp := m[n].left;
               && (tmp != NULL ==> tmp in m && tmp != p && tmp != n && tmp != g && !m[tmp].red)
               && var v := m[p := m[p].(right := tmp, parent := n)][n := m[n].(left := p, parent := g)][g :=
                  m[g].(left := n)];
                  r == if tmp == NULL then v else v[tmp := v[tmp].(parent := p)]
    ensures At(r, root, c, Node(Node(Node(t.l.l, t.l.n, t.l.red, t.l.r.l), t.l.r.n, t.l.r.red, t.l.r.r), t.n, t.red,
            t.r))
  {
    hide At, Holds, Around, Shape, CtxShape, Sep, SepCtx;
    var p, n, g := t.l.n, t.l.r.n, t.n;
    var c1 := InLeft(c, t.n, t.red, t.r);
    OpenLeft(m, root, c, t);
    DownLeft(m, root, c, t);
    OpenRight(m, root, c1, t.l);
    var tmp := m[n].left;
    RootFacts(m, t.l.r.l, tmp, n);
    var w := m[p := m[p].(right := tmp, parent := n)][n := m[n].(left := p, parent := g)];
    if tmp != NULL { w := w[tmp := w[tmp].(parent := p)]; }
    assert RotatedLeft(m, w, n, p);
    RotateLeftOk(m, w, root, c1, t.l.l, p, t.l.r.l, n, t.l.r.r);
    r := Redirect(w, root, g, p, n).0;
    UpLeft(r, root, c, Node(Node(Node(t.l.l, p, t.l.red, t.l.r.l), n, t.l.r.red, t.l.r.r), g, t.red, t.r));
  }

  predicate RightButFor(r: Mem, v: Mem, p: Ptr, g: Ptr)
  {
    && p in r && g in r && p in v && g in v
    && v == r[p := r[p].(parent := v[p].parent)][g := r[g].(right := v[g].right)]
  }

  function CaseTwoRight(m: Mem, p: Ptr, n: Ptr): Mem
    requires p in m && n in m && (m[n].right != NULL ==> m[n].right in m)
  {
    var tmp := m[n].right;
    var v := m[p := m[p].(left := tmp, parent := n, red := true)][n := m[n].(right := p)];
    if tmp == NULL then v else v[tmp := m[tmp].(parent := p, red := false)]
  }

  lemma FirstRight(m: Mem, root: Ptr, c: Ctx, t: Tree) returns (r: Mem)
    requires At(m, root, c, t) && t.Node? && t.r.Node? && t.r.l.Node? && !IsRed(t.r.l.r)
    ensures var p, n, g := t.r.n, t.r.l.n, t.n;
            && p in m && n in m && g in m && p != n && n != g && p != g
            && n == m[p].left && p == m[g].right && m[p].red == t.r.red && m[n].red == t.r.l.red && m[g].red == t.red
            && var tmp := m[n].right;
               && (tmp != NULL ==> tmp in m && tmp != p && tmp != n && tmp != g && !m[tmp].red)
               && var v := m[p := m[p].(left := tmp, parent := n)][n := m[n].(right := p, parent := g)][g :=
                  m[g].(right := n)];
                  r == if tmp == NULL then v else v[tmp := v[tmp].(parent := p)]
    ensures At(r, root, c, Node(t.l, t.n, t.red,
            Node(t.r.l.l, t.r.l.n, t.r.l.red, Node(t.r.l.r, t.r.n, t.r.red, t.r.r))))
  {
    hide At, Holds, Around, Shape, CtxShape, Sep, SepCtx;
    var p, n, g := t.r.n, t.r.l.n, t.n;
    var c1 := InRight(t.l, t.n, t.red, c);
    OpenRight(m, root, c, t);
    RootFacts(m, t.l, m[g].left, g);
    DownRight(m, root, c, t);
    OpenLeft(m, root, c1, t.r);
    var tmp := m[n].right;
    RootFacts(m, t.r.l.r, tmp, n);
    var w := m[p := m[p].(left := tmp, parent := n)][n := m[n].(right := p, parent := g)];
    if tmp != NULL { w := w[tmp := w[tmp].(parent := p)]; }
    assert RotatedRight(m, w, n, p);
    RotateRightOk(m, w, root, c1, t.r.l.l, n, t.r.l.r, p, t.r.r);
    r := Redirect(w, root, g, p, n).0;
    UpRight(r, root, c, Node(t.l, g, t.red, Node(t.r.l.l, n, t.r.l.red, Node(t.r.l.r, p, t.r.red, t.r.r))));
  }

  // ---- Recolouring ----

  /** The tree with its root and the roots of its two subtrees in other colours. */
  function Recolored(t: Tree, red: bool, lred: bool, rred: bool): Tree
    requires t.Node?
  {
    Node(if t.l.Leaf? then Leaf else Node(t.l.l, t.l.n, lred, t.l.r), t.n, red,
         if t.r.Leaf? then Leaf else Node(t.r.l, t.r.n, rred, t.r.r))
  }

  lemma RecolorRoot(m: Mem, w: Mem, t: Tree, x: Ptr, p: Ptr, red: bool)
    requires Holds(m, t, x, p) && Same(m, w, Nodes(t) - {x})
    requires t.Node? ==> x in m && x in w && w[x] == m[x].(red := red)
    ensures var t' := if t.Leaf? then Leaf else Node(t.l, t.n, red, t.r);
            Holds(w, t', x, p) && Nodes(t') == Nodes(t)
  {
    if t.Node? {
      HoldsFrame(m, w, t.l, m[x].left, x);
      HoldsFrame(m, w, t.r, m[x].right, x);
    }
  }

  /** Writing colours at a node and its children recolours the tree in memory. */
  lemma RecolorOk(m: Mem, w: Mem, root: Ptr, c: Ctx, t: Tree, red: bool, lred: bool, rred: bool)
    requires At(m, root, c, t) && t.Node?
    requires t.n in m && t.n in w && w[t.n] == m[t.n].(red := red)
    requires t.l.Node? ==> t.l.n in m && t.l.n in w && w[t.l.n] == m[t.l.n].(red := lred)
    requires t.r.Node? ==> t.r.n in m && t.r.n in w && w[t.r.n] == m[t.r.n].(red := rred)
    requires forall k :: k in m && k !in {t.n, RootOf(t.l), RootOf(t.r)} ==> k in w && w[k] == m[k]
    requires NULL !in Nodes(t) && NULL !in CtxNodes(c)
    ensures At(w, root, c, Recolored(t, red, lred, rred))
    ensures Inorder(Recolored(t, red, lred, rred)) == Inorder(t)
  {
    Open(m, t, t.n, HoleParent(c));
    RootFacts(m, t.l, m[t.n].left, t.n);
    RootFacts(m, t.r, m[t.n].right, t.n);
    assert Around(m, root, c, t.n);
    hide Shape, CtxShape, Sep, SepCtx, Nodes, CtxNodes, Holds, Around;
    AroundFrame(m, w, root, c, t.n);
    RecolorRoot(m, w, t.l, m[t.n].left, t.n, lred);
    RecolorRoot(m, w, t.r, m[t.n].right, t.n, rred);
    Close(w, Recolored(t, red, lred, rred), HoleParent(c));
  }
}
