/**
  Radix trees in memory: nodes of 64 slots at levels 0 to 10, linked by slots, parent pointers and
  offsets.  A node at level l has shift 6 l.  The invariants here are all local to a node and its
  neighbours; what they imply for whole paths is proved from them.
 */
module RadixShape {
  import opened Machine

  const MAP_SIZE: nat := 64
  const MAX_LEVEL: nat := 10
  const TAGS: nat := 3

  // ---- Indices ----

  /** An index shifted right by l digits of six bits. */
  function Shift(k: nat, l: nat): nat
  {
    if l == 0 then k else Shift(k, l - 1) / 64
  }

  /** The slot offset of an index at level l. */
  function Digit(k: nat, l: nat): (d: nat)
    ensures d < MAP_SIZE
  {
    Shift(k, l) % 64
  }

  lemma DigitSplit(k: nat, l: nat)
    ensures Shift(k, l) == 64 * Shift(k, l + 1) + Digit(k, l)
  {
  }

  function Capacity(l: nat): (c: nat)
    ensures c > 0
  {
    if l == 0 then 64 else 64 * Capacity(l - 1)
  }

  /** The largest index below a node of level l, with the wrap-around of 64-bit arithmetic. */
  function MaxIndex(l: nat): nat
  {
    (Capacity(l) - 1) % (ULONG_MAX + 1)
  }

  lemma {:induction false} BelowCapacity(k: nat, l: nat)
    ensures k < Capacity(l) <==> Shift(k, l + 1) == 0
    decreases l
  {
    if l > 0 {
      BelowCapacity(k / 64, l - 1);
      ShiftFirst(k, l);
      ShiftFirst(k, l - 1);
    }
  }

  lemma {:induction false} ShiftFirst(k: nat, l: nat)
    ensures Shift(k, l + 1) == Shift(k / 64, l)
  {
    if l > 0 { ShiftFirst(k, l - 1); }
  }

  lemma Capacities()
    ensures Capacity(9) == 0x1000_0000_0000_0000 && Capacity(10) == 4 * (ULONG_MAX + 1)
  {
    assert Capacity(1) == 0x1000;
    assert Capacity(3) == 0x100_0000;
    assert Capacity(5) == 0x10_0000_0000;
    assert Capacity(7) == 0x1_0000_0000_0000;
  }

  lemma {:induction false} CapacityGrows(l: nat, m: nat)
    requires l <= m
    ensures Capacity(l) <= Capacity(m)
  {
    if l < m { CapacityGrows(l, m - 1); }
  }

  /** Comparing with the maximal index tells whether the digits above the level are zero. */
  lemma FitsLevel(k: nat, l: nat)
    requires k <= ULONG_MAX && l <= MAX_LEVEL
    ensures k <= MaxIndex(l) <==> Shift(k, l + 1) == 0
  {
    Capacities();
    BelowCapacity(k, l);
    if l <= 9 {
      CapacityGrows(l, 9);
    }
  }

  lemma TopDigit(k: nat)
    requires k <= ULONG_MAX
    ensures Shift(k, MAX_LEVEL) < 16
  {
    Capacities();
    BelowCapacity(k / 16, 9);
    ShiftSixteen(k, 10);
  }

  lemma {:induction false} ShiftSixteen(k: nat, l: nat)
    ensures Shift(k / 16, l) == Shift(k, l) / 16
  {
    if l > 0 { ShiftSixteen(k, l - 1); }
  }

  // ---- Trees in memory ----

  type Id = nat
  type Value = nat

  datatype Slot = Empty | Item(v: Value) | Inner(id: Id)
  datatype Parent = NoParent | Under(id: Id)

  /** A node; each of its tags is the set of offsets whose bit is set. */
  datatype Node = Node(level: nat, offset: nat, count: nat, parent: Parent, slots: seq<Slot>, tags: seq<set<nat>>)

  /** The root's head and tags, the nodes, and for each node the digits of the indices above its own level. */
  datatype Tree = Tree(head: Slot, tags: seq<bool>, nodes: map<Id, Node>, high: map<Id, nat>)

  predicate Sized(n: Node)
  {
    |n.slots| == MAP_SIZE && |n.tags| == TAGS && (forall g, o :: 0 <= g < TAGS && o in n.tags[g] ==> o < MAP_SIZE)
        && n.level <= MAX_LEVEL
  }

  /** The parent pointer leads to the slot that holds the node. */
  predicate LinkOk(t: Tree, id: Id)
    requires id in t.nodes && id in t.high
  {
    match t.nodes[id].parent
    case NoParent => t.head == Inner(id) && t.high[id] == 0 && t.nodes[id].offset == 0
    case Under(p) =>
      p in t.nodes && Sized(t.nodes[p]) && t.nodes[id].offset < MAP_SIZE
      && t.nodes[p].slots[t.nodes[id].offset] == Inner(id)
  }

  /** Items live at level 0; a child is one level down and knows its parent and offset. */
  predicate SlotOk(t: Tree, id: Id, o: nat)
    requires id in t.nodes && id in t.high && Sized(t.nodes[id]) && o < MAP_SIZE
  {
    && (t.nodes[id].level == MAX_LEVEL && o >= 16 ==> t.nodes[id].slots[o] == Empty)
    && match t.nodes[id].slots[o]
       case Empty => true
       case Item(_) => t.nodes[id].level == 0
       case Inner(c) =>
         && c in t.nodes && c in t.high && t.nodes[c].level + 1 == t.nodes[id].level
         && t.nodes[c].parent == Under(id) && t.nodes[c].offset == o && t.high[c] == 64 * t.high[id] + o
  }

  predicate NodeOk(t: Tree, id: Id)
  {
    && id in t.nodes && id in t.high && Sized(t.nodes[id]) && LinkOk(t, id)
    && (forall o: nat :: o < MAP_SIZE ==> SlotOk(t, id, o))
  }

  ghost predicate Shaped(t: Tree)
  {
    && |t.tags| == TAGS
    && (forall id :: id in t.nodes ==> NodeOk(t, id))
    && (t.head.Inner? ==> t.head.id in t.nodes && t.nodes[t.head.id].parent == NoParent)
  }

  /** A node's index range lies at its high digits: no node is above the head. */
  lemma {:induction false} BelowHead(t: Tree, id: Id)
    requires Shaped(t) && id in t.nodes
    ensures t.head.Inner? && t.nodes[id].level <= t.nodes[t.head.id].level
    ensures t.nodes[id].level == t.nodes[t.head.id].level ==> id == t.head.id
    decreases MAX_LEVEL - t.nodes[id].level
  {
    assert NodeOk(t, id);
    if t.nodes[id].parent.Under? {
      var p := t.nodes[id].parent.id;
      assert NodeOk(t, p) && SlotOk(t, p, t.nodes[id].offset);
      BelowHead(t, p);
    }
  }

  /** Two nodes of one level with the same high digits are one node. */
  lemma {:induction false} HighUnique(t: Tree, a: Id, b: Id)
    requires Shaped(t) && a in t.nodes && b in t.nodes && t.nodes[a].level == t.nodes[b].level && t.high[a] == t.high[b]
    ensures a == b
    decreases MAX_LEVEL - t.nodes[a].level
  {
    BelowHead(t, a);
    BelowHead(t, b);
    assert NodeOk(t, a) && NodeOk(t, b);
    if t.nodes[a].level < t.nodes[t.head.id].level {
      var p, q := t.nodes[a].parent.id, t.nodes[b].parent.id;
      assert NodeOk(t, p) && SlotOk(t, p, t.nodes[a].offset);
      assert NodeOk(t, q) && SlotOk(t, q, t.nodes[b].offset);
      HighUnique(t, p, q);
    }
  }

  /** A node with index k below it: the digits of k above the node's level are the node's. */
  predicate Above(t: Tree, id: Id, k: nat)
  {
    id in t.nodes && id in t.high && Shift(k, t.nodes[id].level + 1) == t.high[id]
  }

  /** If k is below some node, then it is below each node on the way from the head, whose slot for k is not empty. */
  lemma {:induction false} OnPath(t: Tree, x: Id, id: Id, k: nat)
    requires Shaped(t) && Above(t, x, k) && Above(t, id, k) && t.nodes[x].level < t.nodes[id].level
    ensures t.nodes[id].slots[Digit(k, t.nodes[id].level)] != Empty
    decreases MAX_LEVEL - t.nodes[x].level
  {
    BelowHead(t, x);
    BelowHead(t, id);
    assert NodeOk(t, x) && NodeOk(t, id);
    var p := t.nodes[x].parent.id;
    assert NodeOk(t, p) && SlotOk(t, p, t.nodes[x].offset);
    assert Shift(k, t.nodes[p].level) == 64 * t.high[p] + t.nodes[x].offset;
    assert Above(t, p, k);
    if t.nodes[p].level == t.nodes[id].level {
      HighUnique(t, p, id);
    } else {
      OnPath(t, p, id, k);
    }
  }

  // ---- Contents ----

  /** Slot o of node id is the place of index k, and holds an item. */
  predicate Place(t: Tree, id: Id, o: nat, k: nat)
  {
    && id in t.nodes && id in t.high && t.nodes[id].level == 0 && o < MAP_SIZE && Sized(t.nodes[id])
    && t.nodes[id].slots[o].Item? && k == 64 * t.high[id] + o
  }

  /** Index k holds v. */
  ghost predicate Holds(t: Tree, k: nat, v: Value)
  {
    (k == 0 && t.head == Item(v)) || exists id, o: nat :: Place(t, id, o, k) && t.nodes[id].slots[o].v == v
  }

  /** Index k holds an item that carries tag g. */
  ghost predicate Tagged(t: Tree, g: nat, k: nat)
    requires g < TAGS
  {
    || (k == 0 && t.head.Item? && |t.tags| == TAGS && t.tags[g])
    || exists id, o: nat :: Place(t, id, o, k) && o in t.nodes[id].tags[g]
  }

  /** An index has one place. */
  lemma PlaceUnique(t: Tree, id: Id, o: nat, id': Id, o': nat, k: nat)
    requires Shaped(t) && Place(t, id, o, k) && Place(t, id', o', k)
    ensures id == id' && o == o'
  {
    assert NodeOk(t, id) && NodeOk(t, id');
    HighUnique(t, id, id');
  }

  lemma HeadOnly(t: Tree)
    requires Shaped(t) && !t.head.Inner?
    ensures t.nodes == map[]
  {
    if id :| id in t.nodes { BelowHead(t, id); assert false; }
  }

  lemma HoldsUnique(t: Tree, k: nat, v: Value, w: Value)
    requires Shaped(t) && Holds(t, k, v) && Holds(t, k, w)
    ensures v == w
  {
    if t.head.Inner? {
      var id, o: nat :| Place(t, id, o, k) && t.nodes[id].slots[o].v == v;
      var id', o': nat :| Place(t, id', o', k) && t.nodes[id'].slots[o'].v == w;
      PlaceUnique(t, id, o, id', o', k);
    } else {
      HeadOnly(t);
    }
  }

  /** The tree is as low as it can be: under a head node, some slot other than the first is in use. */
  predicate Minimal(t: Tree)
  {
    t.head.Inner? ==> t.head.id in t.nodes && exists o ::
      0 < o < |t.nodes[t.head.id].slots| && t.nodes[t.head.id].slots[o] != Empty
  }

  lemma {:induction false} AboveHead(t: Tree, x: Id, k: nat)
    requires Shaped(t) && Above(t, x, k)
    ensures t.head.Inner? && Above(t, t.head.id, k) && Shift(k, t.nodes[t.head.id].level + 1) == 0
    decreases MAX_LEVEL - t.nodes[x].level
  {
    BelowHead(t, x);
    assert NodeOk(t, x);
    if t.nodes[x].parent.Under? {
      var p := t.nodes[x].parent.id;
      assert NodeOk(t, p) && SlotOk(t, p, t.nodes[x].offset);
      assert Above(t, p, k);
      AboveHead(t, p, k);
    }
  }

  lemma PlaceAbove(t: Tree, id: Id, o: nat, k: nat)
    requires Place(t, id, o, k)
    ensures Above(t, id, k) && o == Digit(k, 0)
  {
    assert Shift(k, 1) == Shift(k, 0) / 64;
  }

  /** An index whose slot on the path from the head is empty holds nothing. */
  lemma EmptyAbsent(t: Tree, id: Id, k: nat, v: Value)
    requires Shaped(t) && Above(t, id, k) && t.nodes[id].slots[Digit(k, t.nodes[id].level)] == Empty
    ensures !Holds(t, k, v)
  {
    BelowHead(t, id);
    forall x, o: nat ensures !Place(t, x, o, k) {
      if Place(t, x, o, k) {
        PlaceAbove(t, x, o, k);
        assert NodeOk(t, x);
        if t.nodes[id].level == 0 { HighUnique(t, x, id); } else { OnPath(t, x, id, k); }
        assert false;
      }
    }
  }

  /** Nothing is held beyond the head's largest index. */
  lemma BeyondAbsent(t: Tree, k: nat, v: Value)
    requires Shaped(t) && Holds(t, k, v)
    ensures t.head.Inner? ==> Shift(k, t.nodes[t.head.id].level + 1) == 0
    ensures t.head.Inner? || k == 0
  {
    if t.head.Inner? {
      var x, o: nat :| Place(t, x, o, k) && t.nodes[x].slots[o].v == v;
      PlaceAbove(t, x, o, k);
      AboveHead(t, x, k);
    } else {
      HeadOnly(t);
    }
  }

  /** Following the digit of k one level down. */
  lemma Descend(t: Tree, id: Id, k: nat)
    requires Shaped(t) && Above(t, id, k)
    ensures |t.nodes[id].slots| == MAP_SIZE
    ensures var s := t.nodes[id].slots[Digit(k, t.nodes[id].level)];
            && (s.Inner? ==> && Above(t, s.id, k) && t.nodes[s.id].level + 1 == t.nodes[id].level
                             && t.nodes[s.id].parent == Under(id)
                                && t.nodes[s.id].offset == Digit(k, t.nodes[id].level))
            && (s.Item? ==> Place(t, id, Digit(k, t.nodes[id].level), k))
            && (s == Empty ==> forall v :: !Holds(t, k, v))
  {
    var l := t.nodes[id].level;
    assert NodeOk(t, id) && SlotOk(t, id, Digit(k, l));
    DigitSplit(k, l);
    if t.nodes[id].slots[Digit(k, l)] == Empty {
      forall v ensures !Holds(t, k, v) { EmptyAbsent(t, id, k, v); }
    }
    assert l == 0 ==> Shift(k, l) == k;
    hide Shaped, Shift, Digit, LinkOk;
  }

  /** The head reaches an index exactly if the index is below the head node, or is 0 where there is none. */
  lemma Reached(t: Tree, k: nat)
    requires Shaped(t) && k <= ULONG_MAX
    ensures var reached := if t.head.Inner? then k <= MaxIndex(t.nodes[t.head.id].level) else k == 0;
            if reached then (t.head.Inner? ==> Above(t, t.head.id, k))
                && (t.head == Empty ==> forall v :: !Holds(t, k, v))
            else forall v :: !Holds(t, k, v)
  {
    if t.head.Inner? {
      assert NodeOk(t, t.head.id);
      FitsLevel(k, t.nodes[t.head.id].level);
    } else {
      HeadOnly(t);
    }
    forall v | Holds(t, k, v)
      ensures if t.head.Inner? then k <= MaxIndex(t.nodes[t.head.id].level) else k == 0 && t.head != Empty
    {
      BeyondAbsent(t, k, v);
    }
  }
}
