/**
  The memory updates that take things out of a radix tree: clearing an item, freeing an empty
  node, taking a level off the top; and setting or clearing single tag bits.
 */
module RadixRemovals {
  import opened RadixShape
  import opened RadixSteps

  // ---- Taking an item ----

  function TakeItem(t: Tree, id: Id, o: nat): Tree
    requires id in t.nodes && Sized(t.nodes[id]) && o < MAP_SIZE && t.nodes[id].count > 0
  {
    var n := t.nodes[id];
    t.(nodes := t.nodes[id := n.(slots := n.slots[o := Empty], count := n.count - 1)])
  }

  /** No tag is set on slot o. */
  predicate Untagged(n: Node, o: nat)
    requires Sized(n)
  {
    forall g :: 0 <= g < TAGS ==> o !in n.tags[g]
  }

  lemma TakeItemNode(t: Tree, id: Id, o: nat, x: Id)
    requires NodeOk(t, id) && NodeOk(t, x) && o < MAP_SIZE && t.nodes[id].slots[o].Item? && t.nodes[id].count > 0
    ensures NodeOk(TakeItem(t, id, o), x)
  {
    var t' := TakeItem(t, id, o);
    assert LinkOk(t', x) by { assert SlotOk(t, id, o); }
    forall q: nat | q < MAP_SIZE ensures SlotOk(t', x, q) { assert SlotOk(t, x, q); }
  }

  lemma TakeItemShaped(t: Tree, id: Id, o: nat)
    requires Shaped(t) && id in t.nodes && o < MAP_SIZE && t.nodes[id].slots[o].Item? && t.nodes[id].count > 0
    ensures Shaped(TakeItem(t, id, o))
  {
    var t' := TakeItem(t, id, o);
    hide NodeOk;
    forall x | x in t'.nodes ensures NodeOk(t', x) { TakeItemNode(t, id, o, x); }
  }

  lemma TakeItemTag(t: Tree, id: Id, o: nat, g: nat, x: Id, q: nat)
    requires id in t.nodes && Sized(t.nodes[id]) && o < MAP_SIZE && t.nodes[id].slots[o].Item? && t.nodes[id].count > 0
             && Untagged(t.nodes[id], o)
    requires x in t.nodes && Sized(t.nodes[x]) && g < TAGS && q < MAP_SIZE && TagOk(t, g, x, q)
    ensures Sized(TakeItem(t, id, o).nodes[x]) && TagOk(TakeItem(t, id, o), g, x, q)
  {
  }

  lemma TakeItemTags(t: Tree, id: Id, o: nat)
    requires Shaped(t) && id in t.nodes && o < MAP_SIZE && t.nodes[id].slots[o].Item? && TagsOkBut(t, {})
    requires t.nodes[id].count > 0 && Untagged(t.nodes[id], o) && Shaped(TakeItem(t, id, o))
    ensures TagsOkBut(TakeItem(t, id, o), {})
  {
    var t' := TakeItem(t, id, o);
    SizedNodes(t);
    SizedNodes(t');
    hide NodeOk, Shaped, Sized;
    forall g: nat, x, q: nat | g < TAGS && q < MAP_SIZE && x in t'.nodes ensures TagOk(t', g, x, q) {
      assert TagOk(t, g, x, q);
      TakeItemTag(t, id, o, g, x, q);
    }
    forall g: nat | g < TAGS ensures RootTagOk(t', g) { assert RootTagOk(t, g); }
  }

  lemma TakeItemOk(t: Tree, id: Id, o: nat)
    requires Shaped(t) && id in t.nodes && o < MAP_SIZE && t.nodes[id].slots[o].Item? && Counted(t, NoParent)
             && TagsOkBut(t, {})
    requires Untagged(t.nodes[id], o)
    ensures t.nodes[id].count > 0
    ensures Shaped(TakeItem(t, id, o)) && Counted(TakeItem(t, id, o), Under(id)) && TagsOkBut(TakeItem(t, id, o), {})
  {
    CountDown(t.nodes[id], o, false);
    assert Counted(TakeItem(t, id, o), Under(id));
    hide NodeOk, Counted, TagsOkBut;
    TakeItemShaped(t, id, o);
    TakeItemTags(t, id, o);
  }

  lemma TakeItemHolds(t: Tree, id: Id, o: nat, k: nat, w: Value)
    requires Shaped(t) && id in t.high && Place(t, id, o, 64 * t.high[id] + o) && t.nodes[id].count > 0
    ensures Holds(TakeItem(t, id, o), k, w) <==> Holds(t, k, w) && k != 64 * t.high[id] + o
  {
    var t' := TakeItem(t, id, o);
    BelowHead(t, id);
    forall x, q: nat ensures Place(t', x, q, k) <==> Place(t, x, q, k) && k != 64 * t.high[id] + o {
      if Place(t, x, q, k) && k == 64 * t.high[id] + o { PlaceUnique(t, id, o, x, q, k); }
    }
  }

  lemma TakeItemTagged(t: Tree, id: Id, o: nat, g: nat, k: nat)
    requires Shaped(t) && id in t.high && Place(t, id, o, 64 * t.high[id] + o) && t.nodes[id].count > 0 && g < TAGS
             && Untagged(t.nodes[id], o)
    ensures Tagged(TakeItem(t, id, o), g, k) <==> Tagged(t, g, k)
  {
    var t' := TakeItem(t, id, o);
    BelowHead(t, id);
    assert forall x, q: nat :: Place(t', x, q, k) ==> Place(t, x, q, k);
    assert forall x, q: nat :: Place(t, x, q, k) && !(x == id && q == o) ==> Place(t', x, q, k);
  }

  // ---- Freeing an empty node ----

  predicate Vacant(n: Node)
    requires Sized(n)
  {
    forall o :: 0 <= o < MAP_SIZE ==> n.slots[o] == Empty
  }

  function DropNode(t: Tree, id: Id): Tree
    requires id in t.nodes && t.nodes[id].parent.Under? && t.nodes[id].parent.id in t.nodes
    requires var n := t.nodes[t.nodes[id].parent.id]; t.nodes[id].offset < |n.slots| && n.count > 0
  {
    var p := t.nodes[id].parent.id;
    var n := t.nodes[p];
    t.(nodes := t.nodes[p := n.(slots := n.slots[t.nodes[id].offset := Empty], count := n.count - 1)] - {id})
  }

  lemma DropNodeNode(t: Tree, id: Id, x: Id)
    requires NodeOk(t, id) && t.nodes[id].parent.Under? && NodeOk(t, t.nodes[id].parent.id)
             && t.nodes[t.nodes[id].parent.id].count > 0
    requires Vacant(t.nodes[id]) && NodeOk(t, x) && x != id
    ensures NodeOk(DropNode(t, id), x)
  {
    var t' := DropNode(t, id);
    var p := t.nodes[id].parent.id;
    assert SlotOk(t, p, t.nodes[id].offset);
    assert LinkOk(t', x);
    forall q: nat | q < MAP_SIZE ensures SlotOk(t', x, q) { assert SlotOk(t, x, q); }
  }

  lemma DropNodeTag(t: Tree, id: Id, g: nat, x: Id, q: nat)
    requires NodeOk(t, id) && t.nodes[id].parent.Under? && NodeOk(t, t.nodes[id].parent.id)
             && t.nodes[t.nodes[id].parent.id].count > 0
    requires NodeOk(t, x) && x != id && g < TAGS && q < MAP_SIZE && TagOk(t, g, x, q) && t.nodes[id].tags[g] == {}
    requires TagOk(t, g, t.nodes[id].parent.id, t.nodes[id].offset)
    ensures Sized(DropNode(t, id).nodes[x]) && TagOk(DropNode(t, id), g, x, q)
  {
    assert SlotOk(t, x, q);
  }

  lemma VacantTags(t: Tree, id: Id, g: nat)
    requires Shaped(t) && TagsOkBut(t, {}) && id in t.nodes && Vacant(t.nodes[id]) && g < TAGS
    ensures t.nodes[id].tags[g] == {}
  {
    assert NodeOk(t, id);
    forall o: nat | o < MAP_SIZE ensures o !in t.nodes[id].tags[g] { assert TagOk(t, g, id, o); }
  }

  lemma DropNodeOk(t: Tree, id: Id)
    requires Shaped(t) && id in t.nodes && t.nodes[id].parent.Under? && Vacant(t.nodes[id]) && Counted(t, Under(id))
             && TagsOkBut(t, {})
    ensures var p := t.nodes[id].parent.id;
            && p in t.nodes && p != id && t.nodes[id].offset < |t.nodes[p].slots| && t.nodes[p].count > 0
            && Shaped(DropNode(t, id)) && Counted(DropNode(t, id), Under(p)) && TagsOkBut(DropNode(t, id), {})
            && t.nodes[p].level > 0
  {
    var p := t.nodes[id].parent.id;
    assert NodeOk(t, id) && NodeOk(t, p) && SlotOk(t, p, t.nodes[id].offset);
    CountDown(t.nodes[p], t.nodes[id].offset, false);
    var t' := DropNode(t, id);
    assert Counted(t', Under(p));
    hide CountOk, NonEmpty, NodeOk;
    forall x | x in t'.nodes ensures NodeOk(t', x) { DropNodeNode(t, id, x); }
    DropNodeTags(t, id);
  }

  lemma DropNodeTags(t: Tree, id: Id)
    requires Shaped(t) && id in t.nodes && t.nodes[id].parent.Under? && Vacant(t.nodes[id]) && TagsOkBut(t, {})
    requires var p := t.nodes[id].parent.id;
             p in t.nodes && t.nodes[id].offset < |t.nodes[p].slots| && t.nodes[p].count > 0
    requires Shaped(DropNode(t, id))
    ensures TagsOkBut(DropNode(t, id), {})
  {
    var t', p := DropNode(t, id), t.nodes[id].parent.id;
    assert NodeOk(t, id);
    SizedNodes(t);
    SizedNodes(t');
    hide NodeOk, Shaped;
    forall g: nat, x, q: nat | g < TAGS && q < MAP_SIZE && x in t'.nodes ensures TagOk(t', g, x, q) {
      VacantTags(t, id, g);
      assert TagOk(t, g, x, q) && TagOk(t, g, p, t.nodes[id].offset);
      DropNodeTag(t, id, g, x, q);
    }
    forall g: nat | g < TAGS ensures RootTagOk(t', g) { assert RootTagOk(t, g); }
  }

  lemma DropNodeContents(t: Tree, id: Id)
    requires Shaped(t) && id in t.nodes && t.nodes[id].parent.Under? && Vacant(t.nodes[id])
    requires var p := t.nodes[id].parent.id;
             p in t.nodes && t.nodes[id].offset < |t.nodes[p].slots| && t.nodes[p].count > 0
    ensures SameContents(t, DropNode(t, id))
  {
    var p := t.nodes[id].parent.id;
    BelowHead(t, id);
    assert NodeOk(t, id) && NodeOk(t, p) && SlotOk(t, p, t.nodes[id].offset);
    hide NodeOk, Shaped;
    assert SamePlaces(t, DropNode(t, id));
    SamePlacesContents(t, DropNode(t, id));
  }

  // ---- Freeing the last node ----

  function DropRoot(t: Tree): Tree
    requires t.head.Inner?
  {
    t.(head := Empty, tags := [false, false, false], nodes := t.nodes - {t.head.id})
  }

  lemma DropRootNode(t: Tree, x: Id)
    requires t.head.Inner? && NodeOk(t, t.head.id) && t.nodes[t.head.id].parent == NoParent
             && Vacant(t.nodes[t.head.id])
    requires NodeOk(t, x) && x != t.head.id
    ensures NodeOk(DropRoot(t), x)
  {
    var t' := DropRoot(t);
    assert LinkOk(t', x);
    forall q: nat | q < MAP_SIZE ensures SlotOk(t', x, q) { assert SlotOk(t, x, q); }
  }

  lemma DropRootOk(t: Tree)
    requires Shaped(t) && t.head.Inner? && Vacant(t.nodes[t.head.id])
    ensures Shaped(DropRoot(t)) && Counted(DropRoot(t), NoParent) && TagsOkBut(DropRoot(t), {})
            && SameContents(t, DropRoot(t))
  {
    var t' := DropRoot(t);
    assert forall x :: x in t'.nodes ==> NodeOk(t', x) by {
      hide NodeOk;
      forall x | x in t'.nodes ensures NodeOk(t', x) { DropRootNode(t, x); }
    }
    HeadOnly(t');
    assert forall x :: x in t.nodes && x != t.head.id ==> x in t'.nodes;
    assert SamePlaces(t, t');
    SamePlacesContents(t, t');
  }

  // ---- One level less on top ----

  function Shrink(t: Tree): Tree
    requires t.head.Inner? && t.head.id in t.nodes && |t.nodes[t.head.id].slots| == MAP_SIZE
  {
    var child := t.nodes[t.head.id].slots[0];
    t.(head := child,
       nodes := (if child.Inner? && child.id in t.nodes then t.nodes[child.id := t.nodes[child.id].(parent := NoParent)]
           else t.nodes) - {t.head.id})
  }

  /** Slot 0 is the only one in use. */
  predicate OnlyFirst(n: Node)
    requires Sized(n)
  {
    n.slots[0] != Empty && forall o :: 0 < o < MAP_SIZE ==> n.slots[o] == Empty
  }

  lemma OnlyFirstCount(n: Node)
    requires Sized(n) && n.count == NonEmpty(n.slots) && n.slots[0] != Empty
    ensures n.count == 1 <==> OnlyFirst(n)
  {
    NonEmptyZero(n.slots[1..]);
    assert forall o :: 0 < o < MAP_SIZE ==> n.slots[o] == n.slots[1..][o - 1];
    assert forall o :: 0 <= o < MAP_SIZE - 1 ==> n.slots[1..][o] == n.slots[o + 1];
  }

  lemma ShrinkNode(t: Tree, x: Id)
    requires t.head.Inner? && NodeOk(t, t.head.id) && t.nodes[t.head.id].parent == NoParent
             && OnlyFirst(t.nodes[t.head.id])
    requires NodeOk(t, x) && x != t.head.id
    ensures NodeOk(Shrink(t), x)
  {
    var t', h := Shrink(t), t.head.id;
    assert SlotOk(t, h, 0);
    assert t.nodes[x].parent == Under(h) ==> t.nodes[h].slots[0] == Inner(x);
    assert LinkOk(t', x);
    forall q: nat | q < MAP_SIZE ensures SlotOk(t', x, q) { assert SlotOk(t, x, q); }
  }

  lemma ShrinkShaped(t: Tree)
    requires Shaped(t) && t.head.Inner? && OnlyFirst(t.nodes[t.head.id])
    ensures Shaped(Shrink(t))
  {
    var t' := Shrink(t);
    assert SlotOk(t, t.head.id, 0) by { assert NodeOk(t, t.head.id); }
    hide NodeOk;
    forall x | x in t'.nodes ensures NodeOk(t', x) { ShrinkNode(t, x); }
  }

  lemma ShrinkTag(t: Tree, g: nat, x: Id, q: nat)
    requires t.head.Inner? && NodeOk(t, t.head.id) && t.nodes[t.head.id].parent == NoParent && NodeOk(t, x)
             && x != t.head.id
    requires g < TAGS && q < MAP_SIZE && TagOk(t, g, x, q)
    ensures Sized(Shrink(t).nodes[x]) && TagOk(Shrink(t), g, x, q)
  {
    assert SlotOk(t, x, q);
  }

  lemma ShrinkRootTag(t: Tree, g: nat)
    requires Shaped(t) && t.head.Inner? && OnlyFirst(t.nodes[t.head.id]) && TagsOkBut(t, {}) && g < TAGS
    ensures RootTagOk(Shrink(t), g)
  {
    var h := t.head.id;
    HeadTag(t, g);
    assert TagOk(t, g, h, 0) && NodeOk(t, h) && SlotOk(t, h, 0);
    hide TagsOkBut, Shaped;
  }

  lemma ShrinkTags(t: Tree)
    requires Shaped(t) && t.head.Inner? && OnlyFirst(t.nodes[t.head.id]) && TagsOkBut(t, {}) && Shaped(Shrink(t))
    ensures TagsOkBut(Shrink(t), {})
  {
    var t' := Shrink(t);
    hide NodeOk;
    SizedNodes(t);
    SizedNodes(t');
    forall g: nat | g < TAGS ensures RootTagOk(t', g) { ShrinkRootTag(t, g); }
    forall g: nat, x, q: nat | g < TAGS && q < MAP_SIZE && x in t'.nodes ensures TagOk(t', g, x, q) {
      assert TagOk(t, g, x, q);
      ShrinkTag(t, g, x, q);
    }
  }

  /** With only slot 0 in use, the root tag is the tag of slot 0. */
  lemma HeadTag(t: Tree, g: nat)
    requires Shaped(t) && t.head.Inner? && OnlyFirst(t.nodes[t.head.id]) && TagsOkBut(t, {}) && g < TAGS
    ensures t.tags[g] <==> 0 in t.nodes[t.head.id].tags[g]
  {
    var n := t.nodes[t.head.id];
    SizedNodes(t);
    assert RootTagOk(t, g);
    forall o: nat | o in n.tags[g] ensures o == 0 { assert TagOk(t, g, t.head.id, o); }
    assert 0 !in n.tags[g] ==> n.tags[g] == {};
  }

  lemma ShrinkInner(t: Tree)
    requires Shaped(t) && t.head.Inner? && OnlyFirst(t.nodes[t.head.id]) && t.nodes[t.head.id].slots[0].Inner?
    ensures SameContents(t, Shrink(t))
  {
    assert NodeOk(t, t.head.id) && SlotOk(t, t.head.id, 0);
    hide NodeOk, Shaped;
    assert SamePlaces(t, Shrink(t));
    SamePlacesContents(t, Shrink(t));
  }

  lemma ShrinkItem(t: Tree)
    requires Shaped(t) && t.head.Inner? && OnlyFirst(t.nodes[t.head.id]) && t.nodes[t.head.id].slots[0].Item?
             && TagsOkBut(t, {})
    ensures SameContents(t, Shrink(t))
  {
    var t', h := Shrink(t), t.head.id;
    ShrinkShaped(t);
    HeadOnly(t');
    assert forall x :: x in t.nodes && x != h ==> x in t'.nodes;
    assert NodeOk(t, h) && SlotOk(t, h, 0);
    forall g: nat | g < TAGS ensures t.tags[g] <==> 0 in t.nodes[h].tags[g] { HeadTag(t, g); }
    hide NodeOk, Shaped, TagsOkBut;
    assert Place(t, h, 0, 0);
    assert forall x, q: nat, k: nat :: Place(t, x, q, k) ==> x == h && q == 0 && k == 0;
  }

  lemma ShrinkOk(t: Tree)
    requires Shaped(t) && t.head.Inner? && OnlyFirst(t.nodes[t.head.id]) && TagsOkBut(t, {}) && Counted(t, NoParent)
    ensures Shaped(Shrink(t)) && TagsOkBut(Shrink(t), {}) && Counted(Shrink(t), NoParent) && SameContents(t, Shrink(t))
  {
    assert NodeOk(t, t.head.id);
    assert Counted(Shrink(t), NoParent) by { hide NodeOk; }
    hide NodeOk, Counted, TagsOkBut, SameContents;
    ShrinkShaped(t);
    ShrinkTags(t);
    if t.nodes[t.head.id].slots[0].Inner? { ShrinkInner(t); } else { ShrinkItem(t); }
  }

  // ---- Tag bits ----

  function WithBit(t: Tree, g: nat, id: Id, o: nat, b: bool): Tree
    requires id in t.nodes && |t.nodes[id].tags| == TAGS && g < TAGS
  {
    var n := t.nodes[id];
    t.(nodes := t.nodes[id := n.(tags := n.tags[g := if b then n.tags[g] + {o} else n.tags[g] - {o}])])
  }

  /** The bit that summarises a node: of the slot that leads to it, or of the root. */
  function Summary(t: Tree, g: nat, id: Id): Bit
    requires id in t.nodes
  {
    Bit(g, t.nodes[id].parent, t.nodes[id].offset)
  }

  lemma WithBitNode(t: Tree, g: nat, id: Id, o: nat, b: bool, x: Id)
    requires NodeOk(t, id) && NodeOk(t, x) && g < TAGS && o < MAP_SIZE
    ensures NodeOk(WithBit(t, g, id, o, b), x)
  {
    var t' := WithBit(t, g, id, o, b);
    assert Sized(t'.nodes[id]);
    assert LinkOk(t', x);
    forall q: nat | q < MAP_SIZE ensures SlotOk(t', x, q) { assert SlotOk(t, x, q); }
  }

  lemma WithBitShaped(t: Tree, g: nat, id: Id, o: nat, b: bool)
    requires Shaped(t) && id in t.nodes && g < TAGS && o < MAP_SIZE
    ensures |t.nodes[id].tags| == TAGS && Shaped(WithBit(t, g, id, o, b))
    ensures forall spare :: Counted(t, spare) ==> Counted(WithBit(t, g, id, o, b), spare)
  {
    assert NodeOk(t, id);
    var t' := WithBit(t, g, id, o, b);
    hide NodeOk;
    forall x | x in t'.nodes ensures NodeOk(t', x) { WithBitNode(t, g, id, o, b, x); }
  }

  /** Changing a bit disturbs only the slot itself and the summary of its node. */
  lemma WithBitTag(t: Tree, g: nat, id: Id, o: nat, b: bool, f: nat, x: Id, q: nat)
    requires NodeOk(t, id) && NodeOk(t, x) && g < TAGS && o < MAP_SIZE && f < TAGS && q < MAP_SIZE && TagOk(t, f, x, q)
    ensures Sized(WithBit(t, g, id, o, b).nodes[x])
    ensures Bit(f, Under(x), q) in {Bit(g, Under(id), o), Summary(t, g, id)} || TagOk(WithBit(t, g, id, o, b), f, x, q)
  {
    assert SlotOk(t, x, q);
    WithBitNode(t, g, id, o, b, x);
  }

  lemma WithBitTags(t: Tree, g: nat, id: Id, o: nat, b: bool, stale: set<Bit>)
    requires Shaped(t) && id in t.nodes && g < TAGS && o < MAP_SIZE && TagsOkBut(t, stale) && |t.nodes[id].tags| == TAGS
    requires Shaped(WithBit(t, g, id, o, b))
    ensures TagsOkBut(WithBit(t, g, id, o, b), stale + {Bit(g, Under(id), o), Summary(t, g, id)})
  {
    var t', s' := WithBit(t, g, id, o, b), stale + {Bit(g, Under(id), o), Summary(t, g, id)};
    SizedNodes(t);
    SizedNodes(t');
    assert t.head == Inner(id) ==> Summary(t, g, id) == Bit(g, NoParent, 0) by { assert NodeOk(t, id); }
    hide NodeOk;
    forall f: nat, x, q: nat | f < TAGS && q < MAP_SIZE && x in t'.nodes && Bit(f, Under(x), q) !in s'
      ensures TagOk(t', f, x, q)
    {
      assert TagOk(t, f, x, q);
      WithBitTag(t, g, id, o, b, f, x, q);
    }
    forall f: nat | f < TAGS && Bit(f, NoParent, 0) !in s' ensures RootTagOk(t', f) { assert RootTagOk(t, f); }
  }

  /** The bit is what it should be. */
  predicate BitOk(t: Tree, b: Bit)
    requires |t.tags| == TAGS && b.tag < TAGS && (forall x :: x in t.nodes ==> Sized(t.nodes[x]))
  {
    match b.at
    case NoParent => RootTagOk(t, b.tag)
    case Under(id) => id in t.nodes && b.o < MAP_SIZE && TagOk(t, b.tag, id, b.o)
  }

  /** A stale bit that turns out right is not stale. */
  lemma Settle(t: Tree, stale: set<Bit>, b: Bit)
    requires Shaped(t) && TagsOkBut(t, stale) && b.tag < TAGS && (forall x :: x in t.nodes ==> Sized(t.nodes[x]))
             && BitOk(t, b)
    ensures TagsOkBut(t, stale - {b})
  {
  }

  /** What a slot leads to has no bit set; an item's own bit is not looked at. */
  predicate NothingTagged(t: Tree, g: nat, s: Slot)
    requires g < TAGS
  {
    s.Inner? ==> s.id in t.nodes && |t.nodes[s.id].tags| == TAGS && t.nodes[s.id].tags[g] == {}
  }

  /** Clearing a bit that should be clear leaves at most the summary stale, and not even that if another bit is set. */
  lemma ClearBitOk(t: Tree, g: nat, id: Id, o: nat)
    requires Shaped(t) && id in t.nodes && g < TAGS && o < MAP_SIZE && TagsOkBut(t, {Bit(g, Under(id), o)})
             && o in t.nodes[id].tags[g]
    requires NothingTagged(t, g, t.nodes[id].slots[o])
    ensures |t.nodes[id].tags| == TAGS && Shaped(WithBit(t, g, id, o, false))
    ensures TagsOkBut(WithBit(t, g, id, o, false), {Summary(t, g, id)})
    ensures t.nodes[id].tags[g] - {o} != {} ==> TagsOkBut(WithBit(t, g, id, o, false), {})
  {
    var t', b := WithBit(t, g, id, o, false), Summary(t, g, id);
    WithBitShaped(t, g, id, o, false);
    WithBitTags(t, g, id, o, false, {Bit(g, Under(id), o)});
    SizedNodes(t');
    ClearedBit(t, g, id, o);
    hide NodeOk, TagOk, RootTagOk, TagsOkBut, BitOk;
    Settle(t', {Bit(g, Under(id), o)} + {Bit(g, Under(id), o), b}, Bit(g, Under(id), o));
    assert {Bit(g, Under(id), o)} + {Bit(g, Under(id), o), b} - {Bit(g, Under(id), o)} == {b};
    if t.nodes[id].tags[g] - {o} != {} {
      Settle(t', {b}, b);
      assert {b} - {b} == {};
    }
  }

  lemma ClearedBit(t: Tree, g: nat, id: Id, o: nat)
    requires Shaped(t) && id in t.nodes && g < TAGS && o < MAP_SIZE && TagsOkBut(t, {Bit(g, Under(id), o)})
             && o in t.nodes[id].tags[g]
    requires NothingTagged(t, g, t.nodes[id].slots[o])
    requires |t.nodes[id].tags| == TAGS && Shaped(WithBit(t, g, id, o, false))
    requires forall x :: x in WithBit(t, g, id, o, false).nodes ==> Sized(WithBit(t, g, id, o, false).nodes[x])
    ensures Summary(t, g, id) != Bit(g, Under(id), o)
    ensures BitOk(WithBit(t, g, id, o, false), Bit(g, Under(id), o))
    ensures t.nodes[id].tags[g] - {o} != {} ==> BitOk(WithBit(t, g, id, o, false), Summary(t, g, id))
  {
    var n := t.nodes[id];
    assert NodeOk(t, id) && SlotOk(t, id, o);
    if n.parent.Under? {
      assert NodeOk(t, n.parent.id) && SlotOk(t, n.parent.id, n.offset);
      assert TagOk(t, g, n.parent.id, n.offset);
    } else {
      assert RootTagOk(t, g);
    }
    hide NodeOk, Shaped, TagsOkBut;
  }

  /** Setting the bit of a slot whose node is already marked above: the slot's bit becomes the one that may be stale. */
  lemma SetBitOk(t: Tree, g: nat, id: Id, o: nat)
    requires Shaped(t) && id in t.nodes && g < TAGS && o < MAP_SIZE
             && TagsOkBut(t, {Bit(g, NoParent, 0), Summary(t, g, id)})
    requires t.nodes[id].parent.Under? ==> Marked(t, g, t.nodes[id].parent.id, t.nodes[id].offset)
    ensures |t.nodes[id].tags| == TAGS && Shaped(WithBit(t, g, id, o, true))
            && Marked(WithBit(t, g, id, o, true), g, id, o)
    ensures TagsOkBut(WithBit(t, g, id, o, true), {Bit(g, NoParent, 0), Bit(g, Under(id), o)})
  {
    var t', b, root := WithBit(t, g, id, o, true), Summary(t, g, id), Bit(g, NoParent, 0);
    WithBitShaped(t, g, id, o, true);
    WithBitTags(t, g, id, o, true, {root, b});
    SizedNodes(t');
    assert t.nodes[id].parent.Under? ==> BitOk(t', b) by {
      assert NodeOk(t, id);
      if b.at.Under? { assert NodeOk(t, b.at.id); }
    }
    assert b.at == NoParent ==> b == root by { assert NodeOk(t, id); }
    hide NodeOk, BitOk, TagsOkBut, Marked, Sized;
    if b.at.Under? {
      Settle(t', {root, b} + {Bit(g, Under(id), o), b}, b);
      assert {root, b} + {Bit(g, Under(id), o), b} - {b} <= {root, Bit(g, Under(id), o)};
    } else {
      assert {root, b} + {Bit(g, Under(id), o), b} == {root, Bit(g, Under(id), o)};
    }
    StaleMore(t', {root, b} + {Bit(g, Under(id), o), b} - (if b.at.Under? then {b} else {}),
        {root, Bit(g, Under(id), o)});
  }

  lemma StaleMore(t: Tree, r: set<Bit>, s: set<Bit>)
    requires Shaped(t) && TagsOkBut(t, r) && r <= s
    ensures TagsOkBut(t, s)
  {
  }

  /** The bit of the slot is set. */
  predicate Marked(t: Tree, g: nat, id: Id, o: nat)
  {
    id in t.nodes && g < |t.nodes[id].tags| && o in t.nodes[id].tags[g]
  }

  lemma WithBitPlaces(t: Tree, g: nat, id: Id, o: nat, b: bool, k: nat)
    requires Shaped(t) && id in t.nodes && g < TAGS && |t.nodes[id].tags| == TAGS && Shaped(WithBit(t, g, id, o, b))
    ensures forall x, q: nat :: Place(WithBit(t, g, id, o, b), x, q, k) <==> Place(t, x, q, k)
  {
    SizedNodes(t);
    SizedNodes(WithBit(t, g, id, o, b));
    hide NodeOk, Shaped;
  }

  lemma WithBitTagged(t: Tree, g: nat, id: Id, o: nat, b: bool, f: nat, k: nat)
    requires Shaped(t) && id in t.nodes && id in t.high && g < TAGS && o < MAP_SIZE && |t.nodes[id].tags| == TAGS
             && f < TAGS
    requires Shaped(WithBit(t, g, id, o, b))
    ensures Tagged(WithBit(t, g, id, o, b), f, k) <==>
              if f == g && t.nodes[id].slots[o].Item? && k == 64 * t.high[id] + o then b else Tagged(t, f, k)
  {
    var t' := WithBit(t, g, id, o, b);
    BelowHead(t, id);
    assert NodeOk(t, id) && SlotOk(t, id, o);
    WithBitPlaces(t, g, id, o, b, k);
    if t.nodes[id].slots[o].Item? && k == 64 * t.high[id] + o {
      assert Place(t, id, o, k);
      forall x, q: nat | Place(t, x, q, k) ensures x == id && q == o { PlaceUnique(t, id, o, x, q, k); }
    }
  }

  lemma WithBitHolds(t: Tree, g: nat, id: Id, o: nat, b: bool, k: nat, v: Value)
    requires Shaped(t) && id in t.nodes && g < TAGS && o < MAP_SIZE && |t.nodes[id].tags| == TAGS
             && Shaped(WithBit(t, g, id, o, b))
    ensures Holds(WithBit(t, g, id, o, b), k, v) <==> Holds(t, k, v)
  {
    WithBitPlaces(t, g, id, o, b, k);
    hide Place, Shaped;
    var t' := WithBit(t, g, id, o, b);
    if Holds(t, k, v) && !(k == 0 && t.head == Item(v)) {
      var x, q: nat :| Place(t, x, q, k) && t.nodes[x].slots[q].v == v;
      assert Place(t', x, q, k);
    }
  }
}
