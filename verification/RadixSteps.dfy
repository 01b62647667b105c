/**
  The single memory updates that radix tree operations are made of.  Each keeps the shape of the
  tree, and moves the places where counts or tags are momentarily out of date.
 */
module RadixSteps {
  import opened RadixShape

  // ---- Counts and tags ----

  function NonEmpty(slots: seq<Slot>): nat
  {
    if slots == [] then 0 else NonEmpty(slots[1..]) + (if slots[0] == Empty then 0 else 1)
  }

  lemma {:induction false} NonEmptyUpdate(slots: seq<Slot>, o: nat, s: Slot)
    requires o < |slots|
    ensures NonEmpty(slots[o := s]) == NonEmpty(slots) + (if s == Empty then 0 else 1) - (if slots[o] == Empty then 0
            else 1)
  {
    if o > 0 {
      assert slots[o := s][1..] == slots[1..][o - 1 := s];
      NonEmptyUpdate(slots[1..], o - 1, s);
    }
  }

  lemma {:induction false} NonEmptyZero(slots: seq<Slot>)
    ensures NonEmpty(slots) == 0 <==> forall o :: 0 <= o < |slots| ==> slots[o] == Empty
  {
    if slots != [] {
      NonEmptyZero(slots[1..]);
      assert forall o :: 0 < o < |slots| ==> slots[o] == slots[1..][o - 1];
      assert forall o :: 0 <= o < |slots| - 1 ==> slots[1..][o] == slots[o + 1];
    }
  }

  function NoSlots(): (r: seq<Slot>)
    ensures |r| == MAP_SIZE && forall o :: 0 <= o < MAP_SIZE ==> r[o] == Empty
  {
    seq(MAP_SIZE, _ => Empty)
  }

  /** Counts are exact, and no node is empty except possibly the spare one. */
  ghost predicate Counted(t: Tree, spare: Parent)
  {
    forall id :: id in t.nodes ==> CountOk(t.nodes[id], Under(id) == spare)
  }

  predicate CountOk(n: Node, spare: bool)
  {
    n.count == NonEmpty(n.slots) && (n.count > 0 || spare)
  }

  /** Filling an empty slot and counting it. */
  lemma CountUp(n: Node, o: nat, s: Slot, spare: bool)
    requires o < |n.slots| && n.slots[o] == Empty && s != Empty && CountOk(n, spare)
    ensures CountOk(n.(slots := n.slots[o := s], count := n.count + 1), false)
  {
    NonEmptyUpdate(n.slots, o, s);
  }

  /** Emptying a filled slot and counting it. */
  lemma CountDown(n: Node, o: nat, spare: bool)
    requires o < |n.slots| && n.slots[o] != Empty && CountOk(n, spare)
    ensures n.count > 0 && CountOk(n.(slots := n.slots[o := Empty], count := n.count - 1), true)
  {
    NonEmptyZero(n.slots);
    NonEmptyUpdate(n.slots, o, Empty);
  }

  /** A tag bit: of a slot of a node, or of the root. */
  datatype Bit = Bit(tag: nat, at: Parent, o: nat)

  /** The bit of an empty slot is clear; the bit of a child is set exactly if the child has a bit set. */
  predicate TagOk(t: Tree, g: nat, id: Id, o: nat)
    requires id in t.nodes && Sized(t.nodes[id]) && g < TAGS && o < MAP_SIZE
  {
    match t.nodes[id].slots[o]
    case Empty => o !in t.nodes[id].tags[g]
    case Item(_) => true
    case Inner(c) => c in t.nodes && Sized(t.nodes[c]) && (o in t.nodes[id].tags[g] <==> t.nodes[c].tags[g] != {})
  }

  predicate RootTagOk(t: Tree, g: nat)
    requires g < TAGS && |t.tags| == TAGS
  {
    match t.head
    case Empty => !t.tags[g]
    case Item(_) => true
    case Inner(c) => c in t.nodes && Sized(t.nodes[c]) && t.tags[g] == (t.nodes[c].tags[g] != {})
  }

  /** All tag bits are right, except possibly the stale ones. */
  ghost predicate TagsOkBut(t: Tree, stale: set<Bit>)
    requires Shaped(t)
  {
    && (forall g: nat :: g < TAGS && Bit(g, NoParent, 0) !in stale ==> RootTagOk(t, g))
    && (forall g: nat, id, o: nat :: g < TAGS && o < MAP_SIZE && id in t.nodes && Bit(g, Under(id), o) !in stale ==>
       TagOk(t, g, id, o))
  }

  lemma SizedNodes(t: Tree)
    requires Shaped(t)
    ensures |t.tags| == TAGS && (t.head.Inner? ==> t.head.id in t.nodes)
    ensures forall x :: x in t.nodes ==> Sized(t.nodes[x])
  {
    forall x | x in t.nodes ensures Sized(t.nodes[x]) { assert NodeOk(t, x); }
  }

  /** The same items with the same tags. */
  ghost predicate SameContents(t: Tree, t': Tree)
  {
    && (forall k: nat, v :: Holds(t', k, v) <==> Holds(t, k, v))
    && (forall g: nat, k: nat :: g < TAGS ==> (Tagged(t', g, k) <==> Tagged(t, g, k)))
  }

  // ---- Adding an item ----

  function PutItem(t: Tree, id: Id, o: nat, v: Value): Tree
    requires id in t.nodes && Sized(t.nodes[id]) && o < MAP_SIZE
  {
    var n := t.nodes[id];
    t.(nodes := t.nodes[id := n.(slots := n.slots[o := Item(v)], count := n.count + 1)])
  }

  lemma PutItemShaped(t: Tree, id: Id, o: nat, v: Value)
    requires Shaped(t) && id in t.nodes && t.nodes[id].level == 0 && o < MAP_SIZE && t.nodes[id].slots[o] == Empty
    ensures Shaped(PutItem(t, id, o, v))
  {
    var t' := PutItem(t, id, o, v);
    forall x | x in t'.nodes ensures NodeOk(t', x) {
      assert NodeOk(t, x);
      forall q: nat | q < MAP_SIZE ensures SlotOk(t', x, q) { assert SlotOk(t, x, q); }
    }
  }

  lemma PutItemCounted(t: Tree, id: Id, o: nat, v: Value)
    requires Shaped(t) && id in t.nodes && o < MAP_SIZE && t.nodes[id].slots[o] == Empty && Counted(t, Under(id))
    ensures Counted(PutItem(t, id, o, v), NoParent)
  {
    CountUp(t.nodes[id], o, Item(v), true);
    hide CountOk;
  }

  lemma PutItemTags(t: Tree, id: Id, o: nat, v: Value)
    requires Shaped(t) && id in t.nodes && t.nodes[id].level == 0 && o < MAP_SIZE && t.nodes[id].slots[o] == Empty
             && TagsOkBut(t, {})
    ensures Shaped(PutItem(t, id, o, v)) && TagsOkBut(PutItem(t, id, o, v), {})
  {
    var t' := PutItem(t, id, o, v);
    PutItemShaped(t, id, o, v);
    forall g: nat | g < TAGS ensures RootTagOk(t', g) { assert RootTagOk(t, g); }
    forall g: nat, x, q: nat | g < TAGS && q < MAP_SIZE && x in t'.nodes
      ensures TagOk(t', g, x, q)
    {
      assert TagOk(t, g, x, q);
    }
  }

  lemma PutItemHolds(t: Tree, id: Id, o: nat, v: Value, k: nat, w: Value)
    requires Shaped(t) && id in t.nodes && t.nodes[id].level == 0 && o < MAP_SIZE && t.nodes[id].slots[o] == Empty
    ensures Holds(PutItem(t, id, o, v), k, w) <==> Holds(t, k, w) || (k == 64 * t.high[id] + o && w == v)
  {
    var t' := PutItem(t, id, o, v);
    assert NodeOk(t, id);
    assert Place(t', id, o, 64 * t.high[id] + o);
    hide NodeOk;
    assert forall x, q: nat :: Place(t', x, q, k) && !(x == id && q == o) ==> Place(t, x, q, k);
    assert forall x, q: nat :: Place(t, x, q, k) ==> Place(t', x, q, k);
  }

  lemma PutItemTagged(t: Tree, id: Id, o: nat, v: Value, g: nat, k: nat)
    requires Shaped(t) && id in t.nodes && t.nodes[id].level == 0 && o < MAP_SIZE && t.nodes[id].slots[o] == Empty
             && TagsOkBut(t, {})
    requires g < TAGS
    ensures Tagged(PutItem(t, id, o, v), g, k) <==> Tagged(t, g, k)
  {
    var t' := PutItem(t, id, o, v);
    assert TagOk(t, g, id, o);
    hide NodeOk, TagsOkBut;
    assert forall x, q: nat :: Place(t', x, q, k) && !(x == id && q == o) ==> Place(t, x, q, k);
    assert forall x, q: nat :: Place(t, x, q, k) ==> Place(t', x, q, k);
  }

  // ---- Steps that move no item ----

  /** Items sit in the same slots with the same tags. */
  ghost predicate SamePlaces(t: Tree, t': Tree)
  {
    && !t.head.Item? && !t'.head.Item?
    && (forall id, o: nat, k: nat :: Place(t', id, o, k) <==> Place(t, id, o, k))
    && (forall id, o: nat, k: nat :: Place(t, id, o, k) ==>
          t'.nodes[id].slots[o] == t.nodes[id].slots[o] && forall g: nat :: g < TAGS ==>
              (o in t'.nodes[id].tags[g] <==> o in t.nodes[id].tags[g]))
  }

  lemma SamePlacesContents(t: Tree, t': Tree)
    requires SamePlaces(t, t')
    ensures SameContents(t, t')
  {
    forall k: nat, v ensures Holds(t', k, v) <==> Holds(t, k, v) {
      if Holds(t', k, v) {
        var id, o: nat :| Place(t', id, o, k) && t'.nodes[id].slots[o].v == v;
        assert Place(t, id, o, k);
      }
      if Holds(t, k, v) {
        var id, o: nat :| Place(t, id, o, k) && t.nodes[id].slots[o].v == v;
        assert Place(t', id, o, k);
      }
    }
    forall g: nat, k: nat | g < TAGS ensures Tagged(t', g, k) <==> Tagged(t, g, k) {
      if Tagged(t', g, k) {
        var id, o: nat :| Place(t', id, o, k) && o in t'.nodes[id].tags[g];
        assert Place(t, id, o, k);
      }
      if Tagged(t, g, k) {
        var id, o: nat :| Place(t, id, o, k) && o in t.nodes[id].tags[g];
        assert Place(t', id, o, k);
      }
    }
  }

  /** A fresh node: zeroed slots and tags. */
  function FreshNode(level: nat, offset: nat, parent: Parent): (n: Node)
    ensures n.level == level && n.offset == offset && n.parent == parent && n.count == 0
    ensures |n.slots| == MAP_SIZE && (forall o :: 0 <= o < MAP_SIZE ==> n.slots[o] == Empty)
    ensures |n.tags| == TAGS && (forall g :: 0 <= g < TAGS ==> n.tags[g] == {})
  {
    Node(level, offset, 0, parent, NoSlots(), [{}, {}, {}])
  }

  lemma FreshCount(level: nat, offset: nat, parent: Parent)
    ensures CountOk(FreshNode(level, offset, parent), true)
  {
    NonEmptyZero(FreshNode(level, offset, parent).slots);
  }

  // ---- A new empty child ----

  function AddChild(t: Tree, p: Id, o: nat, c: Id): Tree
    requires p in t.nodes && Sized(t.nodes[p]) && t.nodes[p].level > 0 && o < MAP_SIZE && p in t.high
  {
    var n := t.nodes[p];
    t.(nodes := t.nodes[p := n.(slots := n.slots[o := Inner(c)], count := n.count + 1)][c :=
        FreshNode(n.level - 1, o, Under(p))],
       high := t.high[c := 64 * t.high[p] + o])
  }

  lemma AddChildNode(t: Tree, p: Id, o: nat, c: Id, x: Id)
    requires NodeOk(t, p) && t.nodes[p].level > 0 && o < MAP_SIZE && t.nodes[p].slots[o] == Empty
    requires c !in t.nodes && (t.nodes[p].level == MAX_LEVEL ==> o < 16) && NodeOk(t, x)
    ensures NodeOk(AddChild(t, p, o, c), x)
  {
    var t' := AddChild(t, p, o, c);
    hide FreshNode;
    assert LinkOk(t', x);
    forall q: nat | q < MAP_SIZE ensures SlotOk(t', x, q) { assert SlotOk(t, x, q); }
  }

  lemma AddChildNew(t: Tree, p: Id, o: nat, c: Id)
    requires NodeOk(t, p) && t.nodes[p].level > 0 && o < MAP_SIZE && c !in t.nodes
    ensures NodeOk(AddChild(t, p, o, c), c)
  {
  }

  lemma AddChildShaped(t: Tree, p: Id, o: nat, c: Id)
    requires Shaped(t) && p in t.nodes && t.nodes[p].level > 0 && o < MAP_SIZE && t.nodes[p].slots[o] == Empty
    requires c !in t.nodes && (t.nodes[p].level == MAX_LEVEL ==> o < 16)
    ensures Shaped(AddChild(t, p, o, c))
  {
    var t' := AddChild(t, p, o, c);
    hide NodeOk, FreshNode;
    AddChildNew(t, p, o, c);
    forall x | x in t'.nodes ensures NodeOk(t', x) { if x != c { AddChildNode(t, p, o, c, x); } }
  }

  lemma AddChildTag(t: Tree, p: Id, o: nat, c: Id, g: nat, x: Id, q: nat)
    requires p in t.nodes && p in t.high && Sized(t.nodes[p]) && t.nodes[p].level > 0 && o < MAP_SIZE
             && t.nodes[p].slots[o] == Empty && c !in t.nodes
    requires x in t.nodes && Sized(t.nodes[x]) && g < TAGS && q < MAP_SIZE && TagOk(t, g, x, q)
    ensures Sized(AddChild(t, p, o, c).nodes[x]) && TagOk(AddChild(t, p, o, c), g, x, q)
  {
    hide FreshNode;
  }

  lemma AddChildTags(t: Tree, p: Id, o: nat, c: Id)
    requires Shaped(t) && p in t.nodes && t.nodes[p].level > 0 && o < MAP_SIZE && t.nodes[p].slots[o] == Empty
    requires c !in t.nodes && Shaped(AddChild(t, p, o, c)) && TagsOkBut(t, {})
    ensures TagsOkBut(AddChild(t, p, o, c), {})
  {
    var t' := AddChild(t, p, o, c);
    hide FreshNode;
    assert forall x :: x in t.nodes ==> Sized(t.nodes[x]);
    hide SlotOk, LinkOk, NodeOk;
    forall g: nat | g < TAGS ensures RootTagOk(t', g) { assert RootTagOk(t, g); }
    forall g: nat, x, q: nat | g < TAGS && q < MAP_SIZE && x in t'.nodes ensures TagOk(t', g, x, q) {
      if x != c { assert TagOk(t, g, x, q); AddChildTag(t, p, o, c, g, x, q); }
    }
  }

  lemma AddChildCounted(t: Tree, p: Id, o: nat, c: Id)
    requires p in t.nodes && p in t.high && Sized(t.nodes[p]) && t.nodes[p].level > 0 && o < MAP_SIZE
             && t.nodes[p].slots[o] == Empty
    requires c !in t.nodes && Counted(t, Under(p))
    ensures Counted(AddChild(t, p, o, c), Under(c))
  {
    CountUp(t.nodes[p], o, Inner(c), true);
    FreshCount(t.nodes[p].level - 1, o, Under(p));
    hide FreshNode, CountOk;
  }

  lemma AddChildOk(t: Tree, p: Id, o: nat, c: Id)
    requires Shaped(t) && p in t.nodes && t.nodes[p].level > 0 && o < MAP_SIZE && t.nodes[p].slots[o] == Empty
    requires c !in t.nodes && (t.nodes[p].level == MAX_LEVEL ==> o < 16)
    requires Counted(t, Under(p)) && TagsOkBut(t, {})
    ensures Shaped(AddChild(t, p, o, c)) && Counted(AddChild(t, p, o, c), Under(c))
            && TagsOkBut(AddChild(t, p, o, c), {})
    ensures SameContents(t, AddChild(t, p, o, c))
  {
    var t' := AddChild(t, p, o, c);
    hide FreshNode, SameContents, SamePlaces, TagsOkBut, Counted, LinkOk, SlotOk;
    AddChildShaped(t, p, o, c);
    AddChildTags(t, p, o, c);
    AddChildPlaces(t, p, o, c);
    SamePlacesContents(t, t');
    AddChildCounted(t, p, o, c);
  }

  lemma AddChildPlaces(t: Tree, p: Id, o: nat, c: Id)
    requires Shaped(t) && p in t.nodes && t.nodes[p].level > 0 && o < MAP_SIZE && c !in t.nodes
    ensures SamePlaces(t, AddChild(t, p, o, c))
  {
    BelowHead(t, p);
  }

  // ---- The first node of an empty tree ----

  function AddTop(t: Tree, c: Id, level: nat): Tree
  {
    t.(head := Inner(c), nodes := map[c := FreshNode(level, 0, NoParent)], high := map[c := 0])
  }

  lemma AddTopOk(t: Tree, c: Id, level: nat)
    requires Shaped(t) && t.head == Empty && TagsOkBut(t, {}) && level <= MAX_LEVEL
    ensures Shaped(AddTop(t, c, level)) && Counted(AddTop(t, c, level), Under(c)) && TagsOkBut(AddTop(t, c, level), {})
    ensures SameContents(t, AddTop(t, c, level))
  {
    var t' := AddTop(t, c, level);
    HeadOnly(t);
    FreshCount(level, 0, NoParent);
    hide FreshNode, CountOk;
    assert NodeOk(t', c);
    forall g: nat | g < TAGS ensures RootTagOk(t', g) { assert RootTagOk(t, g); }
    SamePlacesContents(t, t');
  }

  // ---- One more level on top ----

  /** A new top node: the old head in slot 0, tagged as the root is. */
  function TopNode(level: nat, head: Slot, tags: seq<bool>): (n: Node)
    requires |tags| == TAGS
    ensures n.level == level && n.offset == 0 && n.parent == NoParent && n.count == 1
    ensures |n.slots| == MAP_SIZE && n.slots[0] == head && (forall o :: 0 < o < MAP_SIZE ==> n.slots[o] == Empty)
    ensures |n.tags| == TAGS && (forall g :: 0 <= g < TAGS ==> n.tags[g] == if tags[g] then {0} else {})
  {
    Node(level, 0, 1, NoParent, NoSlots()[0 := head],
         [if tags[0] then {0} else {}, if tags[1] then {0} else {}, if tags[2] then {0} else {}])
  }

  lemma TopCount(level: nat, head: Slot, tags: seq<bool>)
    requires |tags| == TAGS && head != Empty
    ensures CountOk(TopNode(level, head, tags), false)
  {
    NonEmptyZero(NoSlots());
    NonEmptyUpdate(NoSlots(), 0, head);
  }

  function TopLevel(t: Tree): nat
    requires t.head.Inner? ==> t.head.id in t.nodes
  {
    if t.head.Inner? then t.nodes[t.head.id].level + 1 else 0
  }

  function PushRoot(t: Tree, c: Id): Tree
    requires t.head.Inner? ==> t.head.id in t.nodes
    requires |t.tags| == TAGS
  {
    var top := TopNode(TopLevel(t), t.head, t.tags);
    if t.head.Inner? then
      t.(head := Inner(c), nodes := t.nodes[t.head.id := t.nodes[t.head.id].(parent := Under(c))][c := top],
          high := t.high[c := 0])
    else
      t.(head := Inner(c), nodes := t.nodes[c := top], high := t.high[c := 0])
  }

  lemma PushRootNode(t: Tree, c: Id, x: Id)
    requires |t.tags| == TAGS && NodeOk(t, x) && c !in t.nodes && t.head.Inner? && NodeOk(t, t.head.id)
             && t.nodes[t.head.id].parent == NoParent
    requires TopLevel(t) <= MAX_LEVEL
    ensures NodeOk(PushRoot(t, c), x)
  {
    var t' := PushRoot(t, c);
    hide TopNode;
    assert LinkOk(t', x);
    forall q: nat | q < MAP_SIZE ensures SlotOk(t', x, q) { assert SlotOk(t, x, q); }
  }

  lemma PushRootNew(t: Tree, c: Id)
    requires |t.tags| == TAGS && c !in t.nodes
             && (t.head.Inner? ==> NodeOk(t, t.head.id) && t.nodes[t.head.id].parent == NoParent)
    requires TopLevel(t) <= MAX_LEVEL
    ensures NodeOk(PushRoot(t, c), c)
  {
    hide TopNode;
  }

  lemma PushRootShaped(t: Tree, c: Id)
    requires Shaped(t) && c !in t.nodes && t.head != Empty && TopLevel(t) <= MAX_LEVEL
    ensures Shaped(PushRoot(t, c))
  {
    var t' := PushRoot(t, c);
    hide TopNode, NodeOk;
    PushRootNew(t, c);
    if t.head.Inner? {
      forall x | x in t'.nodes ensures NodeOk(t', x) { if x != c { PushRootNode(t, c, x); } }
    } else {
      HeadOnly(t);
    }
  }

  lemma PushRootTag(t: Tree, c: Id, g: nat, x: Id, q: nat)
    requires |t.tags| == TAGS && c !in t.nodes && g < TAGS && q < MAP_SIZE && (t.head.Inner? ==> t.head.id in t.nodes)
    requires x in t.nodes && Sized(t.nodes[x]) && TagOk(t, g, x, q)
    ensures Sized(PushRoot(t, c).nodes[x]) && TagOk(PushRoot(t, c), g, x, q)
  {
    hide TopNode;
  }

  lemma PushRootTopTag(t: Tree, c: Id, g: nat, q: nat)
    requires |t.tags| == TAGS && c !in t.nodes && g < TAGS && q < MAP_SIZE && (t.head.Inner? ==> t.head.id in t.nodes)
             && RootTagOk(t, g)
    requires t.head != Empty && Sized(PushRoot(t, c).nodes[c])
    ensures TagOk(PushRoot(t, c), g, c, q)
  {
    hide TopNode;
  }

  lemma PushRootTags(t: Tree, c: Id)
    requires Shaped(t) && c !in t.nodes && t.head != Empty && TagsOkBut(t, {}) && Shaped(PushRoot(t, c))
    ensures TagsOkBut(PushRoot(t, c), {})
  {
    var t' := PushRoot(t, c);
    hide SlotOk, LinkOk, NodeOk, TopNode, Shaped, Sized;
    SizedNodes(t);
    SizedNodes(t');
    forall g: nat, x, q: nat | g < TAGS && q < MAP_SIZE && x in t'.nodes ensures TagOk(t', g, x, q) {
      if x != c {
        assert TagOk(t, g, x, q);
        PushRootTag(t, c, g, x, q);
      } else {
        assert RootTagOk(t, g);
        PushRootTopTag(t, c, g, q);
      }
    }
  }

  lemma PushRootCounted(t: Tree, c: Id)
    requires (t.head.Inner? ==> t.head.id in t.nodes) && |t.tags| == TAGS && t.head != Empty && Counted(t, NoParent)
             && c !in t.nodes
    ensures Counted(PushRoot(t, c), NoParent)
  {
    TopCount(TopLevel(t), t.head, t.tags);
    if t.head.Inner? { assert CountOk(t.nodes[t.head.id], false); }
    hide TopNode, NonEmpty;
  }

  lemma PushRootContents(t: Tree, c: Id)
    requires Shaped(t) && c !in t.nodes && t.head != Empty && TopLevel(t) <= MAX_LEVEL
    ensures SameContents(t, PushRoot(t, c))
  {
    var t' := PushRoot(t, c);
    hide TopNode;
    if t.head.Inner? {
      assert NodeOk(t, t.head.id);
      hide NodeOk, Shaped;
      assert SamePlaces(t, t');
      SamePlacesContents(t, t');
    } else {
      HeadOnly(t);
      assert Place(t', c, 0, 0);
    }
  }
}
