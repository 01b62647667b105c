/**
  How the loops that change tags act on a whole radix tree, and what tag bits mean.
 */
module RadixTags {
  import opened Machine
  import opened RadixShape
  import opened RadixSteps
  import opened RadixRemovals

  /** Only bits of tag g differ. */
  ghost predicate SameButTag(t: Tree, t': Tree, g: nat)
  {
    && t'.head == t.head && t'.high == t.high && t'.nodes.Keys == t.nodes.Keys
    && |t.tags| == TAGS && |t'.tags| == TAGS && (forall f :: 0 <= f < TAGS && f != g ==> t'.tags[f] == t.tags[f])
    && (forall x :: x in t.nodes ==> OnlyTag(t.nodes[x], t'.nodes[x], g))
  }

  predicate OnlyTag(n: Node, n': Node, g: nat)
  {
    n' == n.(tags := n'.tags) && |n.tags| == TAGS && |n'.tags| == TAGS && forall f :: 0 <= f < TAGS && f != g ==>
        n'.tags[f] == n.tags[f]
  }

  lemma SameButTagSelf(t: Tree, g: nat)
    requires Shaped(t)
    ensures SameButTag(t, t, g)
  {
    SizedNodes(t);
  }

  lemma SameButTagStep(t: Tree, s: Tree, g: nat, id: Id, o: nat, b: bool)
    requires SameButTag(t, s, g) && g < TAGS && id in s.nodes && |s.nodes[id].tags| == TAGS
    ensures SameButTag(t, WithBit(s, g, id, o, b), g)
  {
  }

  /** Tag g is the same everywhere, except that index k, if `done`, has lost it. */
  ghost predicate TagTaken(t: Tree, t': Tree, g: nat, k: nat, done: bool)
  {
    && (forall j: nat, v :: Holds(t', j, v) <==> Holds(t, j, v))
    && (forall f: nat, j: nat :: f < TAGS ==> (Tagged(t', f, j) <==> Tagged(t, f, j) && !(done && f == g && j == k)))
  }

  /** Clearing the bit of slot (id, o): untags the item in it, or changes no item's tag. */
  lemma ClearTaken(t: Tree, s: Tree, g: nat, k: nat, done: bool, id: Id, o: nat)
    requires TagTaken(t, s, g, k, done) && Shaped(s) && id in s.nodes && id in s.high && g < TAGS && o < MAP_SIZE
    requires |s.nodes[id].tags| == TAGS && Shaped(WithBit(s, g, id, o, false))
    requires if done then !s.nodes[id].slots[o].Item? else Place(s, id, o, k)
    ensures TagTaken(t, WithBit(s, g, id, o, false), g, k, true)
  {
    var s' := WithBit(s, g, id, o, false);
    hide Holds, Tagged, Shaped;
    forall j: nat, v ensures Holds(s', j, v) <==> Holds(s, j, v) { WithBitHolds(s, g, id, o, false, j, v); }
    forall f: nat, j: nat | f < TAGS
      ensures Tagged(s', f, j) <==> Tagged(s, f, j) && !(!done && f == g && j == k)
    {
      WithBitTagged(s, g, id, o, false, f, j);
    }
  }

  /** An item whose bit is clear is not tagged. */
  lemma NotTagged(t: Tree, id: Id, o: nat, g: nat, k: nat)
    requires Shaped(t) && Place(t, id, o, k) && g < TAGS && o !in t.nodes[id].tags[g]
    ensures !Tagged(t, g, k)
  {
    BelowHead(t, id);
    forall x, q: nat | Place(t, x, q, k) ensures x == id && q == o { PlaceUnique(t, id, o, x, q, k); }
  }

  function WithRoot(t: Tree, g: nat, b: bool): Tree
    requires g < |t.tags|
  {
    t.(tags := t.tags[g := b])
  }

  lemma RootShaped(t: Tree, g: nat, b: bool)
    requires Shaped(t) && g < TAGS
    ensures Shaped(WithRoot(t, g, b)) && (forall spare :: Counted(t, spare) ==> Counted(WithRoot(t, g, b), spare))
  {
    var t' := WithRoot(t, g, b);
    forall x | x in t'.nodes ensures NodeOk(t', x) {
      assert NodeOk(t, x);
      forall q: nat | q < MAP_SIZE ensures SlotOk(t', x, q) { assert SlotOk(t, x, q); }
    }
  }

  lemma RootBitTag(t: Tree, g: nat, b: bool, f: nat, x: Id, q: nat)
    requires |t.tags| == TAGS && g < TAGS && f < TAGS && x in t.nodes && Sized(t.nodes[x]) && q < MAP_SIZE
             && TagOk(t, f, x, q)
    ensures TagOk(WithRoot(t, g, b), f, x, q)
  {
  }

  /** Setting the root's bit to what it should be. */
  lemma RootBitOk(t: Tree, g: nat, b: bool)
    requires Shaped(t) && g < TAGS && TagsOkBut(t, {Bit(g, NoParent, 0)}) && Shaped(WithRoot(t, g, b))
    requires match t.head case Empty => !b case Item(_) => true case Inner(c) =>
               c in t.nodes && |t.nodes[c].tags| == TAGS && b == (t.nodes[c].tags[g] != {})
    ensures TagsOkBut(WithRoot(t, g, b), {})
  {
    hide NodeOk, Shaped, Sized;
    SizedNodes(t);
    var t' := WithRoot(t, g, b);
    forall f: nat | f < TAGS ensures RootTagOk(t', f) { if f != g { assert RootTagOk(t, f); } }
    forall f: nat, x, q: nat | f < TAGS && q < MAP_SIZE && x in t'.nodes ensures TagOk(t', f, x, q) {
      assert TagOk(t, f, x, q);
      RootBitTag(t, g, b, f, x, q);
    }
  }

  lemma RootPlaces(t: Tree, g: nat, b: bool)
    requires g < |t.tags|
    ensures forall x, q: nat, j: nat :: Place(WithRoot(t, g, b), x, q, j) <==> Place(t, x, q, j)
  {
  }

  lemma RootTaken(t: Tree, s: Tree, g: nat, k: nat, done: bool)
    requires TagTaken(t, s, g, k, done) && Shaped(s) && g < TAGS
             && (if done then !s.head.Item? else s.head.Item? && k == 0)
    ensures TagTaken(t, WithRoot(s, g, false), g, k, true)
  {
    RootPlaces(s, g, false);
    if s.head.Item? { HeadOnly(s); }
  }

  // ---- What tag bits mean ----

  /** Index k is below slot o of node id. */
  predicate Below(t: Tree, id: Id, o: nat, k: nat)
  {
    id in t.nodes && id in t.high && Shift(k, t.nodes[id].level) == 64 * t.high[id] + o
  }

  lemma {:induction false} BitMeans(t: Tree, g: nat, id: Id, o: nat) returns (k: nat)
    requires Shaped(t) && TagsOkBut(t, {}) && g < TAGS && id in t.nodes && o in t.nodes[id].tags[g]
    ensures Below(t, id, o, k) && Tagged(t, g, k)
    decreases t.nodes[id].level
  {
    SizedNodes(t);
    var n := t.nodes[id];
    assert TagOk(t, g, id, o) && NodeOk(t, id) && SlotOk(t, id, o);
    if n.level == 0 {
      k := 64 * t.high[id] + o;
      assert Place(t, id, o, k);
    } else {
      var c := n.slots[o].id;
      var q: nat :| q in t.nodes[c].tags[g];
      k := BitMeans(t, g, c, q);
      DigitSplit(k, n.level - 1);
      assert Sized(t.nodes[c]);
    }
  }

  /** A set bit is reported in every slot above it. */
  lemma {:induction false} BitReported(t: Tree, g: nat, x: Id, q: nat, id: Id, o: nat, k: nat)
    requires Shaped(t) && TagsOkBut(t, {}) && g < TAGS && x in t.nodes && q in t.nodes[x].tags[g] && Below(t, x, q, k)
    requires Below(t, id, o, k) && o < MAP_SIZE && t.nodes[x].level <= t.nodes[id].level
    ensures o in t.nodes[id].tags[g]
    decreases MAX_LEVEL - t.nodes[x].level
  {
    SizedNodes(t);
    BelowHead(t, x);
    BelowHead(t, id);
    assert NodeOk(t, x) && NodeOk(t, id);
    if t.nodes[x].level == t.nodes[id].level {
      HighUnique(t, x, id);
    } else {
      var p := t.nodes[x].parent.id;
      assert NodeOk(t, p) && SlotOk(t, p, t.nodes[x].offset) && TagOk(t, g, p, t.nodes[x].offset);
      DigitSplit(k, t.nodes[x].level);
      BitReported(t, g, p, t.nodes[x].offset, id, o, k);
    }
  }

  /** A tag bit of a slot is set exactly if some item below the slot carries the tag. */
  lemma SlotBitExact(t: Tree, g: nat, id: Id, o: nat)
    requires Shaped(t) && TagsOkBut(t, {}) && g < TAGS && id in t.nodes && o < MAP_SIZE
    ensures |t.nodes[id].tags| == TAGS
    ensures o in t.nodes[id].tags[g] <==> exists k :: Below(t, id, o, k) && Tagged(t, g, k)
  {
    SizedNodes(t);
    if o in t.nodes[id].tags[g] { var k := BitMeans(t, g, id, o); }
    if k :| Below(t, id, o, k) && Tagged(t, g, k) {
      BelowHead(t, id);
      var x, q: nat :| Place(t, x, q, k) && q in t.nodes[x].tags[g];
      BitReported(t, g, x, q, id, o, k);
    }
  }

  /** The root's tag is set exactly if some item carries the tag. */
  lemma RootBitExact(t: Tree, g: nat)
    requires Shaped(t) && TagsOkBut(t, {}) && g < TAGS
    ensures t.tags[g] <==> exists k :: Tagged(t, g, k)
  {
    SizedNodes(t);
    assert RootTagOk(t, g);
    if t.head.Inner? {
      var h := t.head.id;
      if o: nat :| o in t.nodes[h].tags[g] { var k := BitMeans(t, g, h, o); }
      if k :| Tagged(t, g, k) {
        var x, q: nat :| Place(t, x, q, k) && q in t.nodes[x].tags[g];
        PlaceAbove(t, x, q, k);
        AboveHead(t, x, k);
        DigitSplit(k, t.nodes[h].level);
        BelowHead(t, x);
        BitReported(t, g, x, q, h, Digit(k, t.nodes[h].level), k);
      }
    } else {
      HeadOnly(t);
      assert forall x, q: nat, k: nat :: !Place(t, x, q, k);
      assert Tagged(t, g, 0) <==> t.head.Item? && t.tags[g];
    }
  }

  // ---- No node is idle, and the tree is as low as possible ----

  lemma UsedSlot(t: Tree, id: Id) returns (q: nat)
    requires Counted(t, NoParent) && id in t.nodes && Sized(t.nodes[id])
    ensures q < MAP_SIZE && t.nodes[id].slots[q] != Empty
  {
    assert CountOk(t.nodes[id], false);
    NonEmptyZero(t.nodes[id].slots);
    q :| q < MAP_SIZE && t.nodes[id].slots[q] != Empty;
  }

  /** Below every node there is an item. */
  lemma {:induction false} SomeItem(t: Tree, id: Id, o: nat) returns (k: nat, v: Value)
    requires Shaped(t) && Counted(t, NoParent) && id in t.nodes && o < MAP_SIZE && t.nodes[id].slots[o] != Empty
    ensures Below(t, id, o, k) && Holds(t, k, v)
    decreases t.nodes[id].level
  {
    var n := t.nodes[id];
    SlotLeads(t, id, o);
    hide Shaped, Counted, Holds, NodeOk;
    if n.slots[o].Item? {
      k, v := 64 * t.high[id] + o, n.slots[o].v;
      HoldsAt(t, id, o, k);
    } else {
      var c := n.slots[o].id;
      var q := UsedSlot(t, c);
      k, v := SomeItem(t, c, q);
      BelowUp(t, id, o, c, q, k);
    }
  }

  lemma SlotLeads(t: Tree, id: Id, o: nat)
    requires Shaped(t) && id in t.nodes && o < MAP_SIZE
    ensures Sized(t.nodes[id]) && id in t.high
    ensures var s := t.nodes[id].slots[o];
            && (s.Item? ==> Place(t, id, o, 64 * t.high[id] + o))
            && (s.Inner? ==>
                 s.id in t.nodes && s.id in t.high && Sized(t.nodes[s.id])
                 && t.nodes[s.id].level + 1 == t.nodes[id].level && t.high[s.id] == 64 * t.high[id] + o)
  {
    assert NodeOk(t, id) && SlotOk(t, id, o);
    var s := t.nodes[id].slots[o];
    if s.Inner? { assert NodeOk(t, s.id); }
  }

  lemma HoldsAt(t: Tree, id: Id, o: nat, k: nat)
    requires Place(t, id, o, k)
    ensures Holds(t, k, t.nodes[id].slots[o].v)
  {
  }

  /** What is below a slot of a child is below the child's own slot. */
  lemma BelowUp(t: Tree, id: Id, o: nat, c: Id, q: nat, k: nat)
    requires id in t.nodes && id in t.high && Below(t, c, q, k) && q < MAP_SIZE
    requires t.nodes[c].level + 1 == t.nodes[id].level && t.high[c] == 64 * t.high[id] + o
    ensures Below(t, id, o, k)
  {
    DigitSplit(k, t.nodes[c].level);
  }

  /** A minimal tree holds an index that no lower tree could hold. */
  lemma MinimalMeans(t: Tree) returns (k: nat, v: Value)
    requires Shaped(t) && Counted(t, NoParent) && Minimal(t) && t.head.Inner?
    ensures Holds(t, k, v) && k <= ULONG_MAX
            && (if t.nodes[t.head.id].level == 0 then k > 0 else k > MaxIndex(t.nodes[t.head.id].level - 1))
  {
    var h := t.head.id;
    var o: nat :| 0 < o < |t.nodes[h].slots| && t.nodes[h].slots[o] != Empty;
    SizedNodes(t);
    assert NodeOk(t, h) && SlotOk(t, h, o);
    k, v := SomeItem(t, h, o);
    HeldBound(t, k, v);
    var l := t.nodes[h].level;
    if l > 0 { FitsLevel(k, l - 1); }
  }

  /** Every index that is held fits in 64 bits. */
  lemma HeldBound(t: Tree, k: nat, v: Value)
    requires Shaped(t) && Holds(t, k, v)
    ensures k <= ULONG_MAX
  {
    if t.head.Inner? {
      var h := t.head.id;
      var x, q: nat :| Place(t, x, q, k) && t.nodes[x].slots[q].v == v;
      PlaceAbove(t, x, q, k);
      AboveHead(t, x, k);
      assert NodeOk(t, h);
      var l := t.nodes[h].level;
      Capacities();
      if l < MAX_LEVEL {
        BelowCapacity(k, l);
        CapacityGrows(l, 9);
      } else {
        BelowHead(t, x);
        OnPath(t, x, h, k);
        assert SlotOk(t, h, Digit(k, l));
        DigitSplit(k, l);
        ShiftSixteen(k, 10);
        BelowCapacity(k / 16, 9);
      }
    } else {
      HeadOnly(t);
    }
  }

  // ---- The climb that clears a tag ----

  /**
    The state in which the climb stands: the bit at (node, offset) is the only one that may be wrong, and it should be
    clear.
   */
  ghost predicate Clearing(t: Tree, s: Tree, g: nat, k: nat, node: Parent, offset: nat, done: bool)
  {
    && g < TAGS && Shaped(s) && Counted(s, NoParent) && TagsOkBut(s, {Bit(g, node, offset)}) && SameButTag(t, s, g)
       && TagTaken(t, s, g, k, done)
    && match node
       case NoParent => offset == 0 && NothingTagged(s, g, s.head)
           && (if done then s.head.Inner? else s.head.Item? && k == 0)
       case Under(id) =>
         && id in s.nodes && id in s.high && Sized(s.nodes[id]) && offset < MAP_SIZE
            && NothingTagged(s, g, s.nodes[id].slots[offset])
         && if done then s.nodes[id].slots[offset].Inner? else Place(s, id, offset, k)
  }

  /** The climb is over. */
  ghost predicate TagGone(t: Tree, s: Tree, g: nat, k: nat)
  {
    Shaped(s) && Counted(s, NoParent) && TagsOkBut(s, {}) && SameButTag(t, s, g) && TagTaken(t, s, g, k, true)
  }

  /** The parent, if any, is one level up. */
  predicate LevelUp(t: Tree, id: Id)
    requires id in t.nodes
  {
    t.nodes[id].level <= MAX_LEVEL && (t.nodes[id].parent.Under? ==>
      var p := t.nodes[id].parent.id; p in t.nodes && p != id && t.nodes[p].level == t.nodes[id].level + 1 <= MAX_LEVEL)
  }

  lemma ParentAbove(t: Tree, id: Id)
    requires Shaped(t) && id in t.nodes
    ensures LevelUp(t, id)
  {
    assert NodeOk(t, id);
    if t.nodes[id].parent.Under? {
      var p := t.nodes[id].parent.id;
      assert NodeOk(t, p) && SlotOk(t, p, t.nodes[id].offset);
    }
  }

  /** A bit that is clear already ends the climb. */
  lemma ClimbStops(t: Tree, s: Tree, g: nat, k: nat, id: Id, o: nat, done: bool)
    requires Clearing(t, s, g, k, Under(id), o, done) && o !in s.nodes[id].tags[g]
    ensures TagGone(t, s, g, k)
  {
    SizedNodes(s);
    assert BitOk(s, Bit(g, Under(id), o)) by {
      assert NodeOk(s, id) && SlotOk(s, id, o);
      if done { assert NodeOk(s, s.nodes[id].slots[o].id); }
    }
    if !done { NotTagged(s, id, o, g, k); }
    hide Shaped, Counted, SameButTag, BitOk, Holds, Tagged;
    Settle(s, {Bit(g, Under(id), o)}, Bit(g, Under(id), o));
    assert {Bit(g, Under(id), o)} - {Bit(g, Under(id), o)} == {};
  }

  /** Clearing one bit goes one node up, or ends the climb if the node has another bit. */
  lemma ClimbStep(t: Tree, s: Tree, g: nat, k: nat, id: Id, o: nat, done: bool)
    requires Clearing(t, s, g, k, Under(id), o, done) && o in s.nodes[id].tags[g]
    ensures |s.nodes[id].tags| == TAGS
    ensures if s.nodes[id].tags[g] - {o} != {} then TagGone(t, WithBit(s, g, id, o, false), g, k)
            else Clearing(t, WithBit(s, g, id, o, false), g, k, s.nodes[id].parent, s.nodes[id].offset, true)
    ensures LevelUp(s, id)
  {
    hide Counted, SameButTag, TagTaken, TagsOkBut;
    var s', n := WithBit(s, g, id, o, false), s.nodes[id];
    WithBitShaped(s, g, id, o, false);
    ClearBitOk(s, g, id, o);
    ClearTaken(t, s, g, k, done, id, o);
    SameButTagStep(t, s, g, id, o, false);
    ParentAbove(s, id);
    assert NodeOk(s, id) && NodeOk(s', id);
    if n.parent.Under? { assert NodeOk(s', n.parent.id); }
    hide Shaped, Counted, SameButTag, TagTaken, TagsOkBut, NodeOk;
  }

  /** Clearing the root's bit ends the climb. */
  lemma ClimbRoot(t: Tree, s: Tree, g: nat, k: nat, done: bool)
    requires Clearing(t, s, g, k, NoParent, 0, done)
    ensures |s.tags| == TAGS && TagGone(t, WithRoot(s, g, false), g, k)
  {
    RootShaped(s, g, false);
    RootBitOk(s, g, false);
    RootTaken(t, s, g, k, done);
    hide Shaped, Counted, TagTaken, TagsOkBut;
  }

  lemma ClimbStart(t: Tree, g: nat, k: nat, node: Parent, offset: nat)
    requires Shaped(t) && Counted(t, NoParent) && TagsOkBut(t, {}) && g < TAGS
    requires if node.Under? then Place(t, node.id, offset, k) else offset == 0 && t.head.Item? && k == 0
    ensures Clearing(t, t, g, k, node, offset, false)
  {
    SameButTagSelf(t, g);
    StaleMore(t, {}, {Bit(g, node, offset)});
  }

  lemma ClimbAt(t: Tree, s: Tree, g: nat, k: nat, id: Id, o: nat, done: bool)
    requires Clearing(t, s, g, k, Under(id), o, done)
    ensures g < TAGS && id in s.nodes && |s.nodes[id].tags| == TAGS && LevelUp(s, id)
  {
    ParentAbove(s, id);
  }

  // ---- The descent that sets a tag ----

  /** Tag g is the same everywhere, except that index k, if `done`, has gained it. */
  ghost predicate TagGiven(t: Tree, t': Tree, g: nat, k: nat, done: bool)
  {
    && (forall j: nat, v :: Holds(t', j, v) <==> Holds(t, j, v))
    && (forall f: nat, j: nat :: f < TAGS ==> (Tagged(t', f, j) <==> Tagged(t, f, j) || (done && f == g && j == k)))
  }

  lemma SetGiven(t: Tree, s: Tree, g: nat, k: nat, id: Id, o: nat)
    requires TagGiven(t, s, g, k, false) && Shaped(s) && id in s.nodes && id in s.high && g < TAGS && o < MAP_SIZE
    requires |s.nodes[id].tags| == TAGS && Shaped(WithBit(s, g, id, o, true)) && Sized(s.nodes[id])
    requires s.nodes[id].slots[o].Item? ==> Place(s, id, o, k)
    ensures TagGiven(t, WithBit(s, g, id, o, true), g, k, s.nodes[id].slots[o].Item?)
  {
    var s' := WithBit(s, g, id, o, true);
    hide Holds, Tagged, Shaped;
    forall j: nat, v ensures Holds(s', j, v) <==> Holds(s, j, v) { WithBitHolds(s, g, id, o, true, j, v); }
    forall f: nat, j: nat | f < TAGS
      ensures Tagged(s', f, j) <==> Tagged(s, f, j) || (s.nodes[id].slots[o].Item? && f == g && j == k)
    {
      WithBitTagged(s, g, id, o, true, f, j);
    }
  }

  lemma RootGiven(t: Tree, s: Tree, g: nat, k: nat, done: bool)
    requires TagGiven(t, s, g, k, done) && Shaped(s) && g < TAGS && (if s.head.Item? then !done && k == 0 else done)
    ensures TagGiven(t, WithRoot(s, g, true), g, k, true)
  {
    var s' := WithRoot(s, g, true);
    RootPlaces(s, g, true);
    if s.head.Item? { HeadOnly(s); }
    assert forall j: nat, v :: Holds(s', j, v) <==> Holds(s, j, v);
    assert forall f: nat, j: nat :: f < TAGS ==>
        (Tagged(s', f, j) <==> Tagged(s, f, j) || (s.head.Item? && f == g && j == 0));
  }

  lemma SetStart(t: Tree, g: nat, k: nat)
    requires Shaped(t) && Counted(t, NoParent) && TagsOkBut(t, {}) && g < TAGS
             && (t.head.Inner? ==> Above(t, t.head.id, k)) && (t.head.Item? ==> k == 0)
    ensures Setting(t, t, g, k, NoParent, 0, t.head)
  {
    SameButTagSelf(t, g);
    StaleMore(t, {}, {Bit(g, NoParent, 0), Bit(g, NoParent, 0)});
    if t.head.Inner? { assert NodeOk(t, t.head.id); }
  }

  /**
    The state of the descent: `slot` is what (node, offset) holds, its bit is set, and nothing but it and the root's
    may be wrong.
   */
  ghost predicate Setting(t: Tree, s: Tree, g: nat, k: nat, node: Parent, offset: nat, slot: Slot)
  {
    && g < TAGS && Shaped(s) && Counted(s, NoParent) && SameButTag(t, s, g)
       && TagGiven(t, s, g, k, node.Under? && slot.Item?)
    && TagsOkBut(s, {Bit(g, NoParent, 0), Bit(g, node, offset)})
    && (slot.Inner? ==> Above(s, slot.id, k) && s.nodes[slot.id].parent == node && s.nodes[slot.id].offset == offset)
    && match node
       case NoParent => offset == 0 && slot == s.head && (slot.Item? ==> k == 0)
       case Under(id) =>
         && Above(s, id, k) && offset == Digit(k, s.nodes[id].level)
         && Marked(s, g, id, offset) && s.head.Inner? && s.head.id in s.nodes && |s.nodes[s.head.id].tags| == TAGS
            && s.nodes[s.head.id].tags[g] != {}
         && |s.nodes[id].slots| == MAP_SIZE && offset < MAP_SIZE && slot == s.nodes[id].slots[offset]
  }

  ghost predicate TagAdded(t: Tree, s: Tree, g: nat, k: nat)
  {
    Shaped(s) && Counted(s, NoParent) && TagsOkBut(s, {}) && SameButTag(t, s, g) && TagGiven(t, s, g, k, true)
  }

  lemma SetStepTags(t: Tree, s: Tree, g: nat, k: nat, node: Parent, offset: nat, id: Id, o: nat)
    requires Setting(t, s, g, k, node, offset, Inner(id)) && Sized(s.nodes[id]) && o < MAP_SIZE
    requires s.nodes[id].slots[o].Item? ==> Place(s, id, o, k)
    ensures var s' := WithBit(s, g, id, o, true);
            && Shaped(s') && Counted(s', NoParent) && SameButTag(t, s', g)
               && TagGiven(t, s', g, k, s.nodes[id].slots[o].Item?)
            && TagsOkBut(s', {Bit(g, NoParent, 0), Bit(g, Under(id), o)})
  {
    hide Counted, SameButTag, TagGiven, TagsOkBut, Shaped;
    WithBitShaped(s, g, id, o, true);
    SetBitOk(s, g, id, o);
    SetGiven(t, s, g, k, id, o);
    SameButTagStep(t, s, g, id, o, true);
  }

  lemma SetStepNode(t: Tree, s: Tree, g: nat, k: nat, node: Parent, offset: nat, id: Id)
    requires Setting(t, s, g, k, node, offset, Inner(id))
    ensures id in s.nodes && Sized(s.nodes[id]) && (s.head == Inner(id) <==> node == NoParent)
  {
    hide Counted, SameButTag, TagGiven, TagsOkBut;
    SizedNodes(s);
    assert NodeOk(s, id);
  }

  lemma SetStep(t: Tree, s: Tree, g: nat, k: nat, node: Parent, offset: nat, id: Id)
    requires Setting(t, s, g, k, node, offset, Inner(id))
    ensures id in s.nodes && |s.nodes[id].tags| == TAGS && |s.nodes[id].slots| == MAP_SIZE
    ensures var o := Digit(k, s.nodes[id].level);
            && Setting(t, WithBit(s, g, id, o, true), g, k, Under(id), o, s.nodes[id].slots[o])
            && (s.nodes[id].slots[o].Inner? ==>
                 s.nodes[id].slots[o].id in s.nodes && s.nodes[s.nodes[id].slots[o].id].level < s.nodes[id].level)
  {
    hide Counted, SameButTag, TagGiven, TagsOkBut, Shaped;
    SetStepNode(t, s, g, k, node, offset, id);
    Descend(s, id, k);
    SetStepTags(t, s, g, k, node, offset, id, Digit(k, s.nodes[id].level));
    hide Shift, Digit;
  }

  lemma SetEnd(t: Tree, s: Tree, g: nat, k: nat, node: Parent, offset: nat, slot: Slot)
    requires Setting(t, s, g, k, node, offset, slot) && slot.Item?
    ensures |s.tags| == TAGS && TagAdded(t, WithRoot(s, g, true), g, k)
  {
    SizedNodes(s);
    var root, b := Bit(g, NoParent, 0), Bit(g, node, offset);
    if node.Under? {
      Settle(s, {root, b}, b);
      assert {root, b} - {b} == {root};
    } else {
      assert {root, b} == {root};
    }
    RootShaped(s, g, true);
    RootBitOk(s, g, true);
    RootGiven(t, s, g, k, node.Under?);
    hide Shaped, Counted, TagGiven, TagsOkBut;
  }
}
