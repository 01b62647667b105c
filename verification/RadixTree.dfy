/**
  Radix tree operations: lookup, insertion with extension and path creation, deletion with removal
  of empty nodes and shrinking, and tags.  The tree refines a finite map from indices to items and,
  for each tag, a set of indices.
 */
module RadixTree {
  import opened Machine
  import opened RadixShape
  import opened RadixSteps
  import opened RadixRemovals
  import opened RadixTags
  import opened RadixDelete

  datatype Found = Missing | At(slot: Slot, node: Parent, offset: nat)

  ghost predicate Ok(t: Tree)
  {
    Shaped(t) && Counted(t, NoParent) && TagsOkBut(t, {}) && Minimal(t)
  }

  /** The tree holds exactly these items, with exactly these tagged. */
  ghost predicate Refines(t: Tree, items: map<nat, Value>, tagged: seq<set<nat>>)
  {
    && |tagged| == TAGS
    && (forall k: nat, v :: (k in items && items[k] == v) <==> Holds(t, k, v))
    && (forall g: nat, k: nat :: g < TAGS ==> (k in tagged[g] <==> Tagged(t, g, k)))
  }

  // ---- Building a path ----

  /** Either the tree is minimal already, or it will be once the index is in it. */
  predicate Reaching(t: Tree, k: nat)
  {
    t.head.Inner? ==> Minimal(t) || (t.head.id in t.nodes && Digit(k, t.nodes[t.head.id].level) != 0)
  }

  /**
    `child` is the content of slot `offset` of `node` (or of the root), on the path to k with `level` levels below it.
   */
  ghost predicate OnWay(t: Tree, k: nat, node: Parent, offset: nat, level: nat, child: Slot)
  {
    match node
    case NoParent =>
      && level <= MAX_LEVEL + 1 && Shift(k, level) == 0 && child == t.head && offset == 0
      && (child.Inner? ==> child.id in t.nodes && t.nodes[child.id].level + 1 == level) && (child.Item? ==> level == 0)
    case Under(id) =>
      && Above(t, id, k) && t.nodes[id].level == level && offset == Digit(k, level)
      && |t.nodes[id].slots| == MAP_SIZE && child == t.nodes[id].slots[offset]
  }

  lemma SameSelf(t: Tree)
    ensures SameContents(t, t)
  {
  }

  lemma SameTrans(a: Tree, b: Tree, c: Tree)
    requires SameContents(a, b) && SameContents(b, c)
    ensures SameContents(a, c)
  {
  }

  /** Descending into an existing child. */
  lemma WayDown(t: Tree, k: nat, node: Parent, offset: nat, level: nat, child: Slot)
    requires Building(t, node) && OnWay(t, k, node, offset, level, child) && level > 0 && child != Empty
             && k <= ULONG_MAX
    ensures child.Inner? && child.id in t.nodes && |t.nodes[child.id].slots| == MAP_SIZE
    ensures Building(t, Under(child.id)) && Building(t, NoParent)
    ensures OnWay(t, k, Under(child.id), Digit(k, level - 1), level - 1, t.nodes[child.id].slots[Digit(k, level - 1)])
  {
    if node.Under? {
      assert NodeOk(t, node.id) && SlotOk(t, node.id, offset);
      Descend(t, node.id, k);
      NonEmptyZero(t.nodes[node.id].slots);
    }
    assert NodeOk(t, child.id);
  }

  /** A new child, or a first node, on the way to k. */
  function Grown(t: Tree, node: Parent, offset: nat, level: nat, c: Id): Tree
    requires node.Under? ==>
               node.id in t.nodes && Sized(t.nodes[node.id]) && t.nodes[node.id].level > 0 && offset < MAP_SIZE
               && node.id in t.high
  {
    if node.Under? then AddChild(t, node.id, offset, c) else AddTop(t, c, level)
  }

  lemma ChildPlace(t: Tree, k: nat, node: Parent, offset: nat, level: nat)
    requires Shaped(t) && OnWay(t, k, node, offset, level + 1, Empty) && k <= ULONG_MAX
    ensures forall v :: !Holds(t, k, v)
    ensures if node.Under? then
              && node.id in t.nodes && Sized(t.nodes[node.id]) && t.nodes[node.id].level > 0 && offset < MAP_SIZE
                 && node.id in t.high
              && t.nodes[node.id].slots[offset] == Empty && (t.nodes[node.id].level == MAX_LEVEL ==> offset < 16)
            else t.head == Empty && t.nodes == map[] && level <= MAX_LEVEL
  {
    if node.Under? {
      assert NodeOk(t, node.id);
      TopDigit(k);
      Descend(t, node.id, k);
    } else {
      HeadOnly(t);
    }
  }

  lemma GrowOk(t: Tree, k: nat, node: Parent, offset: nat, level: nat, c: Id)
    requires Building(t, node) && OnWay(t, k, node, offset, level + 1, Empty) && c !in t.nodes && k <= ULONG_MAX
    ensures node.Under? ==>
              node.id in t.nodes && Sized(t.nodes[node.id]) && t.nodes[node.id].level > 0 && offset < MAP_SIZE
              && node.id in t.high
    ensures Building(Grown(t, node, offset, level, c), Under(c)) && SameContents(t, Grown(t, node, offset, level, c))
  {
    ChildPlace(t, k, node, offset, level);
    hide NodeOk, Shaped, Counted, TagsOkBut, SameContents, Holds;
    if node.Under? { AddChildOk(t, node.id, offset, c); } else { AddTopOk(t, c, level); }
  }

  lemma GrowWay(t: Tree, k: nat, node: Parent, offset: nat, level: nat, c: Id)
    requires Building(t, node) && OnWay(t, k, node, offset, level + 1, Empty) && c !in t.nodes
    requires node.Under? ==>
               node.id in t.nodes && Sized(t.nodes[node.id]) && t.nodes[node.id].level > 0 && offset < MAP_SIZE
               && node.id in t.high
    requires Reaching(t, k) && (node == NoParent ==> Digit(k, level) != 0)
    ensures var t' := Grown(t, node, offset, level, c);
            OnWay(t', k, Under(c), Digit(k, level), level, Empty) && Reaching(t', k)
  {
    hide FreshNode, Shaped, Counted, TagsOkBut;
    DigitSplit(k, level + 1);
    if node.Under? && t.head.Inner? && Minimal(t) {
      var o :| 0 < o < |t.nodes[t.head.id].slots| && t.nodes[t.head.id].slots[o] != Empty;
      assert Grown(t, node, offset, level, c).nodes[t.head.id].slots[o] != Empty;
    }
  }

  lemma PushOk(t: Tree, c: Id)
    requires Building(t, NoParent) && t.head != Empty && c !in t.nodes && (t.head.Inner? ==> t.head.id in t.nodes)
             && TopLevel(t) <= MAX_LEVEL
    ensures |t.tags| == TAGS && Building(PushRoot(t, c), NoParent) && SameContents(t, PushRoot(t, c))
  {
    SizedNodes(t);
    hide NodeOk, Counted, TagsOkBut, SameContents;
    PushRootShaped(t, c);
    PushRootTags(t, c);
    PushRootCounted(t, c);
    PushRootContents(t, c);
  }

  /** The lowest height that reaches an index uses the index's highest digit. */
  lemma LowestLevel(k: nat, l: nat)
    requires k <= ULONG_MAX && l <= MAX_LEVEL && k <= MaxIndex(l) && (if l == 0 then k > 0 else k > MaxIndex(l - 1))
    ensures Digit(k, l) != 0 && Shift(k, l + 1) == 0
  {
    FitsLevel(k, l);
    DigitSplit(k, l);
    if l > 0 { FitsLevel(k, l - 1); }
  }

  // ---- The slot of an index at the end of its path ----

  /** Fill the slot the path leads to. */
  function Filled(t: Tree, node: Parent, offset: nat, v: Value): Tree
    requires node.Under? ==> node.id in t.nodes && Sized(t.nodes[node.id]) && offset < MAP_SIZE
  {
    if node.Under? then PutItem(t, node.id, offset, v) else t.(head := Item(v))
  }

  lemma WayEnd(t: Tree, k: nat, node: Parent, offset: nat, slot: Slot)
    requires Shaped(t) && OnWay(t, k, node, offset, 0, slot)
    ensures !slot.Inner? && (node == NoParent ==> k == 0 && t.nodes == map[] && slot == t.head)
    ensures node.Under? ==>
              node.id in t.nodes && node.id in t.high && Sized(t.nodes[node.id]) && offset < MAP_SIZE
              && k == 64 * t.high[node.id] + offset
    ensures slot.Item? ==> Holds(t, k, slot.v)
    ensures slot == Empty ==> forall v :: !Holds(t, k, v)
  {
    if node.Under? {
      assert NodeOk(t, node.id) && SlotOk(t, node.id, offset);
      Descend(t, node.id, k);
      DigitSplit(k, 0);
      assert slot.Item? ==> Place(t, node.id, offset, k);
    } else {
      HeadOnly(t);
    }
  }

  lemma FilledOk(t: Tree, k: nat, node: Parent, offset: nat, v: Value)
    requires Building(t, node) && OnWay(t, k, node, offset, 0, Empty)
    requires node.Under? ==> node.id in t.nodes && Sized(t.nodes[node.id]) && offset < MAP_SIZE
    ensures Building(Filled(t, node, offset, v), NoParent)
  {
    WayEnd(t, k, node, offset, Empty);
    if node.Under? {
      PutItemCounted(t, node.id, offset, v);
      PutItemTags(t, node.id, offset, v);
    }
  }

  lemma FilledMinimal(t: Tree, k: nat, node: Parent, offset: nat, v: Value)
    requires Building(t, node) && OnWay(t, k, node, offset, 0, Empty) && Reaching(t, k)
    requires node.Under? ==> node.id in t.nodes && Sized(t.nodes[node.id]) && offset < MAP_SIZE
    ensures Minimal(Filled(t, node, offset, v))
  {
    var t' := Filled(t, node, offset, v);
    if node.Under? {
      BelowHead(t, node.id);
      AboveHead(t, node.id, k);
      var n, d := t.nodes[t.head.id], Digit(k, t.nodes[t.head.id].level);
      assert NodeOk(t, t.head.id);
      if node.id != t.head.id { OnPath(t, node.id, t.head.id, k); }
      hide Shaped, Counted, TagsOkBut, Digit;
      assert t'.nodes[t.head.id].slots[d] != Empty;
      if Minimal(t) {
        var o :| 0 < o < |n.slots| && n.slots[o] != Empty;
        assert t'.nodes[t.head.id].slots[o] != Empty;
      }
    }
  }

  lemma FilledContents(t: Tree, k: nat, node: Parent, offset: nat, v: Value)
    requires Building(t, node) && OnWay(t, k, node, offset, 0, Empty)
    requires node.Under? ==> node.id in t.nodes && Sized(t.nodes[node.id]) && offset < MAP_SIZE
    ensures forall j: nat, w :: Holds(Filled(t, node, offset, v), j, w) <==> Holds(t, j, w) || (j == k && w == v)
    ensures forall g: nat, j: nat :: g < TAGS ==> (Tagged(Filled(t, node, offset, v), g, j) <==> Tagged(t, g, j))
  {
    WayEnd(t, k, node, offset, Empty);
    if node.Under? {
      hide Shaped, Counted, TagsOkBut, Holds, Tagged;
      forall j: nat, w ensures Holds(Filled(t, node, offset, v), j, w) <==> Holds(t, j, w) || (j == k && w == v) {
        PutItemHolds(t, node.id, offset, v, j, w);
      }
      forall g: nat, j: nat | g < TAGS ensures Tagged(Filled(t, node, offset, v), g, j) <==> Tagged(t, g, j) {
        PutItemTagged(t, node.id, offset, v, g, j);
      }
    } else {
      var t' := Filled(t, node, offset, v);
      assert forall x, q: nat, j: nat :: !Place(t, x, q, j) && !Place(t', x, q, j);
      forall g: nat, j: nat | g < TAGS ensures Tagged(t', g, j) <==> Tagged(t, g, j) { assert RootTagOk(t, g); }
    }
  }

  /** The lowest level, from `levels` on, whose nodes reach the index. */
  method LevelFor(index: nat, levels: nat) returns (maxLevel: nat)
    requires index <= ULONG_MAX && levels <= MAX_LEVEL + 1
             && (if levels == 0 then index > 0 else index > MaxIndex(levels - 1))
    ensures levels <= maxLevel <= MAX_LEVEL && Digit(index, maxLevel) != 0 && Shift(index, maxLevel + 1) == 0
  {
    Capacities();
    maxLevel := levels;
    while index > MaxIndex(maxLevel)
      invariant levels <= maxLevel <= MAX_LEVEL && (if maxLevel == 0 then index > 0 else index > MaxIndex(maxLevel - 1))
      decreases MAX_LEVEL - maxLevel
    {
      maxLevel := maxLevel + 1;
    }
    LowestLevel(index, maxLevel);
  }

  class RadixTree {
    var head: Slot
    var tags: seq<bool>
    var nodes: map<Id, Node>
    var next: Id
    ghost var high: map<Id, nat>
    ghost var items: map<nat, Value>
    ghost var tagged: seq<set<nat>>

    ghost function T(): Tree
      reads this
    {
      Tree(head, tags, nodes, high)
    }

    /** Nodes are allocated afresh. */
    ghost predicate Allocated()
      reads this
    {
      forall id :: id in nodes ==> id < next
    }

    ghost predicate Valid()
      reads this
    {
      Ok(T()) && Allocated() && |tagged| == TAGS && Refines(T(), items, tagged)
    }

    constructor ()
      ensures Valid() && items == map[] && tagged == [{}, {}, {}]
    {
      head, tags, nodes, next, high, items := Empty, [false, false, false], map[], 0, map[], map[];
      tagged := [{}, {}, {}];
    }

    /** Number of levels, and the largest index they reach: radix_tree_load_root. */
    function Levels(): nat
      reads this
      requires head.Inner? ==> head.id in nodes
    {
      if head.Inner? then nodes[head.id].level + 1 else 0
    }

    function Reach(): nat
      reads this
      requires head.Inner? ==> head.id in nodes
    {
      if head.Inner? then MaxIndex(nodes[head.id].level) else 0
    }

    /** The slot of an index: __radix_tree_lookup. */
    method Find(index: nat) returns (f: Found)
      requires Shaped(T()) && index <= ULONG_MAX
      ensures f == Missing || f.slot == Empty ==> forall v :: !Holds(T(), index, v)
      ensures f.At? ==> !f.slot.Inner?
      ensures f.At? && f.slot.Item? ==>
                if f.node == NoParent then f.slot == head && index == 0 && f.offset == 0
                else Place(T(), f.node.id, f.offset, index) && f.slot == nodes[f.node.id].slots[f.offset]
    {
      ghost var t := T();
      Reached(t, index);
      hide Shaped, NodeOk, Holds, Place;
      if index > Reach() { return Missing; }
      var slot, node, offset := head, NoParent, 0;
      while slot.Inner?
        invariant slot.Inner? ==> Above(t, slot.id, index)
        invariant slot == Empty ==> forall v :: !Holds(t, index, v)
        invariant node == NoParent ==> slot == head && offset == 0 && (index == 0 || slot.Inner?)
        invariant node.Under? && slot.Item? ==> Place(t, node.id, offset, index) && slot == nodes[node.id].slots[offset]
        decreases if slot.Inner? then nodes[slot.id].level + 1 else 0
      {
        var id := slot.id;
        Descend(t, id, index);
        node, offset := Under(id), Digit(index, nodes[id].level);
        slot := nodes[id].slots[offset];
      }
      return At(slot, node, offset);
    }

    method Alloc(node: Parent, offset: nat, level: nat) returns (c: Id)
      requires Allocated() && offset < MAP_SIZE && (node == NoParent ==> head == Empty && nodes == map[] && offset == 0)
      requires node.Under? ==>
                 node.id in nodes && Sized(nodes[node.id]) && nodes[node.id].level == level + 1 && node.id in high
      modifies this`head, this`nodes, this`next, this`high
      ensures c == old(next) && Allocated() && T() == Grown(old(T()), node, offset, level, c)
    {
      c := next;
      next := next + 1;
      if node.Under? {
        var n := nodes[node.id];
        nodes := nodes[node.id := n.(slots := n.slots[offset := Inner(c)], count := n.count + 1)][c :=
            FreshNode(level, offset, node)];
        high := high[c := 64 * high[node.id] + offset];
      } else {
        nodes := nodes[c := FreshNode(level, offset, NoParent)];
        head := Inner(c);
        high := map[c := 0];
      }
    }

    method Push()
      requires Allocated() && head != Empty && |tags| == TAGS && (head.Inner? ==> head.id in nodes)
      modifies this`head, this`nodes, this`next, this`high
      ensures Allocated() && T() == PushRoot(old(T()), old(next))
    {
      var c := next;
      next := next + 1;
      var top := TopNode(Levels(), head, tags);
      if head.Inner? { nodes := nodes[head.id := nodes[head.id].(parent := Under(c))]; }
      nodes := nodes[c := top];
      head := Inner(c);
      high := high[c := 0];
    }

    /** Put levels on top up to maxLevel. */
    method PushTo(levels: nat, maxLevel: nat)
      requires Building(T(), NoParent) && Allocated() && head != Empty && (head.Inner? ==> head.id in nodes)
      requires levels == Levels() <= maxLevel <= MAX_LEVEL
      modifies this`head, this`nodes, this`next, this`high
      ensures Building(T(), NoParent) && Allocated() && SameContents(old(T()), T())
      ensures head.Inner? && head.id in nodes && Levels() == maxLevel + 1
    {
      ghost var t := T();
      SameSelf(t);
      hide Shaped, Counted, TagsOkBut, SameContents;
      var level := levels;
      while level <= maxLevel
        invariant levels <= level <= maxLevel + 1
        invariant Building(T(), NoParent) && Allocated() && head != Empty && (head.Inner? ==> head.id in nodes)
                  && Levels() == level
        invariant SameContents(t, T())
      {
        ghost var s := T();
        PushOk(s, next);
        Push();
        SameTrans(t, s, T());
        level := level + 1;
      }
    }

    /** Raise the tree until it reaches an index: radix_tree_extend. */
    method Extend(index: nat, levels: nat) returns (top: nat)
      requires Building(T(), NoParent) && Allocated() && (head.Inner? ==> head.id in nodes)
      requires levels == Levels() && Reach() < index <= ULONG_MAX
      modifies this`head, this`nodes, this`next, this`high
      ensures Building(T(), NoParent) && Allocated() && SameContents(old(T()), T())
      ensures 1 <= top <= MAX_LEVEL + 1 && Digit(index, top - 1) != 0 && Shift(index, top) == 0
      ensures if old(head) == Empty then T() == old(T()) else head.Inner? && head.id in nodes && Levels() == top
    {
      assert head.Inner? ==> nodes[head.id].level <= MAX_LEVEL by {
        if head.Inner? { assert NodeOk(T(), head.id); }
      }
      SameSelf(T());
      hide Building, SameContents;
      var maxLevel := LevelFor(index, levels);
      top := maxLevel + 1;
      if head != Empty { PushTo(levels, maxLevel); }
    }

    /**
      The path to an index is built down to `slot`, with `level` levels to go; nothing was added unless the index is
      absent.
     */
    ghost predicate Way(t: Tree, index: nat, node: Parent, offset: nat, level: nat, slot: Slot)
      reads this
    {
      && Building(T(), node) && Allocated() && SameContents(t, T())
      && OnWay(T(), index, node, offset, level, slot) && Reaching(T(), index)
      && (node == NoParent && slot == Empty && level > 0 ==> Digit(index, level - 1) != 0)
      && (T() == t || forall v :: !Holds(t, index, v))
    }

    /** Make the tree high enough. */
    method Raise(index: nat) returns (level: nat)
      requires Ok(T()) && Allocated() && index <= ULONG_MAX
      modifies this`head, this`nodes, this`next, this`high
      ensures Way(old(T()), index, NoParent, 0, level, head)
    {
      ghost var t := T();
      SizedNodes(t);
      Reached(t, index);
      SameSelf(t);
      hide NodeOk, Shaped, SameContents, Holds, TagsOkBut, Counted;
      level := Levels();
      if index > Reach() { level := Extend(index, level); }
    }

    /** One level down, adding a node where there is none. */
    method StepDown(ghost t: Tree, index: nat, node: Parent, offset: nat, level: nat, slot: Slot) returns (id: Id)
      requires Way(t, index, node, offset, level + 1, slot) && index <= ULONG_MAX
      modifies this`head, this`nodes, this`next, this`high
      ensures id in nodes && |nodes[id].slots| == MAP_SIZE
      ensures Way(t, index, Under(id), Digit(index, level), level, nodes[id].slots[Digit(index, level)])
    {
      ghost var s := T();
      hide NodeOk, Shaped, SameContents, Holds, TagsOkBut, Counted;
      if slot == Empty {
        ChildPlace(s, index, node, offset, level);
        GrowOk(s, index, node, offset, level, next);
        GrowWay(s, index, node, offset, level, next);
        AbsentBefore(t, s, index);
        id := Alloc(node, offset, level);
        SameTrans(t, s, T());
      } else {
        WayDown(s, index, node, offset, level + 1, slot);
        id := slot.id;
      }
    }

    /** Find the slot of an index, building the path to it: __radix_tree_create. */
    method Create(index: nat) returns (node: Parent, offset: nat, slot: Slot)
      requires Ok(T()) && Allocated() && index <= ULONG_MAX
      modifies this`head, this`nodes, this`next, this`high
      ensures Way(old(T()), index, node, offset, 0, slot)
    {
      hide Way;
      var level := Raise(index);
      node, offset, slot := NoParent, 0, head;
      while level > 0
        invariant Way(old(T()), index, node, offset, level, slot)
      {
        level := level - 1;
        var id := StepDown(old(T()), index, node, offset, level, slot);
        node, offset := Under(id), Digit(index, level);
        slot := nodes[id].slots[offset];
      }
    }

    /** Store an item in its slot and count it: insert_entries. */
    method Fill(node: Parent, offset: nat, item: Value)
      requires Allocated() && (node.Under? ==> node.id in nodes && Sized(nodes[node.id]) && offset < MAP_SIZE)
      modifies this`head, this`nodes
      ensures Allocated() && T() == Filled(old(T()), node, offset, item)
    {
      if node.Under? {
        var n := nodes[node.id];
        nodes := nodes[node.id := n.(slots := n.slots[offset := Item(item)], count := n.count + 1)];
      } else {
        head := Item(item);
      }
    }

    /** Insert an item, unless the index is taken: radix_tree_insert. */
    method Insert(index: nat, item: Value) returns (taken: bool)
      requires Valid() && index <= ULONG_MAX
      modifies this
      ensures Valid() && tagged == old(tagged) && taken == (index in old(items))
      ensures if taken then items == old(items) && T() == old(T()) else items == old(items)[index := item]
    {
      hide Ok, SameContents, OnWay, Holds, Refines, Building, Reaching, Shaped;
      ghost var t := T();
      var node, offset, slot := Create(index);
      ghost var s := T();
      BuildingShaped(s, node);
      WayEnd(s, index, node, offset, slot);
      if slot != Empty {
        Occupied(t, s, index, slot.v);
        InItems(t, items, tagged, index);
        taken := true;
      } else {
        InsertOk(t, s, items, tagged, index, node, offset, item);
        Fill(node, offset, item);
        items := items[index := item];
        taken := false;
      }
    }

    /** The item at an index: radix_tree_lookup. */
    method Lookup(index: nat) returns (r: Slot)
      requires Valid() && index <= ULONG_MAX
      ensures r == if index in items then Item(items[index]) else Empty
    {
      InItems(T(), items, tagged, index);
      var f := Find(index);
      FoundIs(T(), items, tagged, index, f);
      hide Ok, Holds, Place;
      r := if f == Missing then Empty else f.slot;
    }

    // ---- Tags ----

    method WriteBit(g: nat, id: Id, offset: nat, b: bool)
      requires id in nodes && |nodes[id].tags| == TAGS && g < TAGS
      modifies this`nodes
      ensures T() == WithBit(old(T()), g, id, offset, b)
    {
      var n := nodes[id];
      nodes := nodes[id := n.(tags := n.tags[g := if b then n.tags[g] + {offset} else n.tags[g] - {offset}])];
    }

    /** One round of the climb; `stop` if the tags are right again. */
    method ClimbOnce(g: nat, id: Id, offset: nat, ghost t: Tree, ghost k: nat, ghost done: bool) returns (stop: bool)
      requires Clearing(t, T(), g, k, Under(id), offset, done) && id in nodes
      modifies this`nodes
      ensures id in nodes && nodes[id].level == old(nodes[id].level)
      ensures if stop then TagGone(t, T(), g, k)
              else LevelUp(T(), id) && Clearing(t, T(), g, k, nodes[id].parent, nodes[id].offset, true)
    {
      hide Clearing, TagGone;
      ClimbAt(t, T(), g, k, id, offset, done);
      if offset !in nodes[id].tags[g] {
        ClimbStops(t, T(), g, k, id, offset, done);
        return true;
      }
      ClimbStep(t, T(), g, k, id, offset, done);
      WriteBit(g, id, offset, false);
      stop := nodes[id].tags[g] != {};
    }

    /** Clear a tag from a slot and, while nothing else below carries it, from the slots above: node_tag_clear. */
    method NodeTagClear(g: nat, node0: Parent, offset0: nat, ghost k: nat)
      requires Building(T(), NoParent) && g < TAGS
      requires if node0.Under? then Place(T(), node0.id, offset0, k) else offset0 == 0 && head.Item? && k == 0
      modifies this`nodes, this`tags
      ensures TagGone(old(T()), T(), g, k)
    {
      ghost var t, done := T(), false;
      var node, offset := node0, offset0;
      ClimbStart(t, g, k, node, offset);
      hide Clearing, TagGone, Place, Building;
      while node.Under?
        invariant Clearing(t, T(), g, k, node, offset, done)
        decreases if node.Under? && node.id in nodes then MAX_LEVEL + 1 - nodes[node.id].level else 0
      {
        var id := node.id;
        ClimbAt(t, T(), g, k, id, offset, done);
        var stop := ClimbOnce(g, id, offset, t, k, done);
        if stop { return; }
        node, offset, done := nodes[id].parent, nodes[id].offset, true;
      }
      ClimbRoot(t, T(), g, k, done);
      tags := tags[g := false];
    }

    /** Clear a tag of a located item. */
    method Untag(g: nat, node: Parent, offset: nat, ghost k: nat)
      requires Valid() && g < TAGS
               && (if node.Under? then Place(T(), node.id, offset, k) else offset == 0 && head.Item? && k == 0)
      modifies this
      ensures Valid() && items == old(items) && tagged == old(tagged)[g := old(tagged)[g] - {k}]
      ensures SameButTag(old(T()), T(), g)
    {
      ghost var t := T();
      hide Ok, Holds, Place, Refines, TagGone, SameButTag, Building, Minimal;
      OkBuilding(t);
      NodeTagClear(g, node, offset, k);
      TagGoneOk(t, T(), items, tagged, g, k);
      tagged := tagged[g := tagged[g] - {k}];
    }

    /** Untag an item: radix_tree_tag_clear. */
    method TagClear(index: nat, g: nat) returns (r: Slot)
      requires Valid() && index <= ULONG_MAX && g < TAGS
      modifies this
      ensures Valid() && items == old(items) && tagged == old(tagged)[g := old(tagged)[g] - {index}]
      ensures r == if index in items then Item(items[index]) else Empty
    {
      hide Holds, Place, Refines;
      var f := Find(index);
      FoundIs(T(), items, tagged, index, f);
      hide Ok, SameButTag;
      if f == Missing || f.slot == Empty {
        UntaggedMissing(T(), items, tagged, index, g);
        r := Empty;
      } else {
        r := f.slot;
        Untag(g, f.node, f.offset, index);
      }
    }

    /** Tag an item that is present: radix_tree_tag_set. */
    method TagSet(index: nat, g: nat) returns (r: Slot)
      requires Valid() && index <= ULONG_MAX && g < TAGS && index in items
      modifies this
      ensures Valid() && items == old(items) && tagged == old(tagged)[g := old(tagged)[g] + {index}]
              && r == Item(items[index])
    {
      hide Ok, Refines, Setting, TagAdded, Holds;
      ghost var t := T();
      TagStart(t, items, tagged, index, g);
      var slot := head;
      ghost var node, offset := NoParent, 0;
      while slot.Inner?
        modifies this`nodes
        invariant Setting(t, T(), g, index, node, offset, slot)
        decreases if slot.Inner? && slot.id in nodes then nodes[slot.id].level + 1 else 0
      {
        var id := slot.id;
        SetStep(t, T(), g, index, node, offset, id);
        var o := Digit(index, nodes[id].level);
        if o !in nodes[id].tags[g] { WriteBit(g, id, o, true); } else { AlreadySet(T(), g, id, o); }
        node, offset := Under(id), o;
        slot := nodes[id].slots[o];
      }
      SetReached(t, T(), items, tagged, g, index, node, offset, slot);
      SetEnd(t, T(), g, index, node, offset, slot);
      tags := tags[g := true];
      TagAddedOk(t, T(), items, tagged, g, index);
      tagged := tagged[g := tagged[g] + {index}];
      r := slot;
    }

    /** Whether an item carries a tag: radix_tree_tag_get. */
    method TagGet(index: nat, g: nat) returns (r: bool)
      requires Valid() && index <= ULONG_MAX && g < TAGS
      ensures r == (index in tagged[g])
    {
      hide Ok, Holds;
      ghost var t := T();
      TagGetStart(t, g, index);
      if !tags[g] { return false; }
      if index > Reach() { return false; }
      var slot := head;
      while slot.Inner?
        invariant slot.Inner? ==> Above(t, slot.id, index)
        invariant !slot.Inner? ==> Tagged(t, g, index)
        decreases if slot.Inner? && slot.id in nodes then nodes[slot.id].level + 1 else 0
      {
        var id := slot.id;
        TagStep(t, g, id, index);
        var o := Digit(index, nodes[id].level);
        if o !in nodes[id].tags[g] { return false; }
        slot := nodes[id].slots[o];
      }
      return true;
    }

    // ---- Deletion ----

    /** Lower the tree to its minimal height: radix_tree_shrink. */
    method ShrinkTop()
      requires Building(T(), NoParent) && Allocated() && (head.Inner? ==> head.id in nodes)
      modifies this`head, this`nodes
      ensures Building(T(), NoParent) && Allocated() && SameContents(old(T()), T()) && Minimal(T())
    {
      hide Building, SameContents, Minimal;
      ghost var t := T();
      SameSelf(t);
      while head.Inner?
        invariant Building(T(), NoParent) && Allocated() && SameContents(t, T()) && (head.Inner? ==> head.id in nodes)
        decreases if head.Inner? && head.id in nodes then nodes[head.id].level + 1 else 0
      {
        ghost var s := T();
        ShrinkStep(s);
        var node := nodes[head.id];
        if node.count != 1 || node.slots[0] == Empty { return; }
        SameTrans(t, s, Shrink(s));
        LowerHead();
      }
      NoHead(T());
    }

    method LowerHead()
      requires head.Inner? && head.id in nodes && |nodes[head.id].slots| == MAP_SIZE && Allocated()
      modifies this`head, this`nodes
      ensures T() == Shrink(old(T())) && Allocated()
    {
      var child := nodes[head.id].slots[0];
      if child.Inner? && child.id in nodes { nodes := nodes[child.id := nodes[child.id].(parent := NoParent)]; }
      nodes := nodes - {head.id};
      head := child;
    }

    /** Free a node that became empty and every ancestor that becomes empty with it, then shrink: delete_node. */
    method DeleteNode(id: Id)
      requires Building(T(), Under(id)) && id in nodes && Allocated() && MinimalBelow(T(), Under(id))
      modifies this`head, this`nodes, this`tags
      ensures Building(T(), NoParent) && Allocated() && SameContents(old(T()), T()) && Minimal(T())
    {
      hide Building, SameContents, Minimal;
      ghost var t := T();
      SameSelf(t);
      var node := Under(id);
      while true
        invariant node.Under? && node.id in nodes && Building(T(), node) && Allocated() && SameContents(t, T())
                  && MinimalBelow(T(), node)
        decreases if node.Under? && node.id in nodes then MAX_LEVEL + 1 - nodes[node.id].level else 0
      {
        ghost var s := T();
        var n := nodes[node.id];
        if n.count != 0 {
          ClimbUsed(s, node.id);
          if head == Inner(node.id) {
            ShrinkTop();
            SameTrans(t, s, T());
          } else {
            NotHead(s, node);
          }
          return;
        }
        if n.parent == NoParent {
          DropLast(s, node.id);
          SameTrans(t, s, DropRoot(s));
          tags := [false, false, false];
          nodes := nodes - {node.id};
          head := Empty;
          return;
        }
        DropStep(s, node.id);
        SameTrans(t, s, DropNode(s, node.id));
        Detach(node.id);
        node := n.parent;
      }
    }

    method Detach(id: Id)
      requires id in nodes && nodes[id].parent.Under? && nodes[id].parent.id in nodes && Allocated()
      requires var n := nodes[nodes[id].parent.id]; nodes[id].offset < |n.slots| && n.count > 0
      modifies this`nodes
      ensures T() == DropNode(old(T()), id) && Allocated()
    {
      var p := nodes[id].parent.id;
      var n := nodes[p];
      nodes := nodes[p := n.(slots := n.slots[nodes[id].offset := Empty], count := n.count - 1)];
      nodes := nodes - {id};
    }

    /** Untag an item completely, before it is deleted. */
    method UntagAll(node: Parent, offset: nat, ghost k: nat)
      requires Valid() && (if node.Under? then Place(T(), node.id, offset, k) else offset == 0 && head.Item? && k == 0)
      modifies this
      ensures Valid() && items == old(items)
              && (if node.Under? then Place(T(), node.id, offset, k) else head == old(head))
      ensures forall g :: 0 <= g < TAGS ==> tagged[g] == old(tagged)[g] - {k}
    {
      hide Ok, Refines, Holds, Place;
      var g := 0;
      while g < TAGS
        invariant g <= TAGS && Valid() && items == old(items) && |tagged| == |old(tagged)| == TAGS
        invariant if node.Under? then Place(T(), node.id, offset, k) else head == old(head)
        invariant forall f :: 0 <= f < TAGS ==> tagged[f] == if f < g then old(tagged)[f] - {k} else old(tagged)[f]
      {
        ghost var s := T();
        Untag(g, node, offset, k);
        PlaceKept(s, T(), g, node, offset, k);
        g := g + 1;
      }
    }

    /** Clear the slot of a located, untagged item and tidy up: __radix_tree_delete. */
    method Remove(node: Parent, offset: nat, ghost k: nat)
      requires Valid() && (if node.Under? then Place(T(), node.id, offset, k) else offset == 0 && head.Item? && k == 0)
      requires forall g :: 0 <= g < TAGS ==> k !in tagged[g]
      modifies this
      ensures Valid() && items == old(items) - {k} && tagged == old(tagged)
    {
      hide Ok, Refines, Holds, Place, Building, SameContents, MinimalBelow;
      ghost var t := T();
      if node.Under? {
        TakeOk(t, items, tagged, node.id, offset, k);
        var n := nodes[node.id];
        nodes := nodes[node.id := n.(slots := n.slots[offset := Empty], count := n.count - 1)];
        items := items - {k};
        ghost var s := T();
        DeleteNode(node.id);
        Tidied(s, T(), items, tagged);
      } else {
        TakeHeadOk(t, items, tagged);
        head := Empty;
        items := items - {k};
      }
    }

    /** Delete the item at an index, if it is there and is the expected one: radix_tree_delete_item. */
    method Delete(index: nat, expected: Slot) returns (r: Slot)
      requires Valid() && index <= ULONG_MAX && !expected.Inner?
      modifies this
      ensures Valid()
      ensures var hit := index in old(items) && (expected == Empty || expected.v == old(items)[index]);
              if hit then
                && r == Item(old(items)[index]) && items == old(items) - {index}
                && forall g :: 0 <= g < TAGS ==> tagged[g] == old(tagged)[g] - {index}
              else r == Empty && items == old(items) && tagged == old(tagged) && T() == old(T())
    {
      hide Holds, Place, Refines;
      var f := Find(index);
      FoundIs(T(), items, tagged, index, f);
      hide Ok;
      if f == Missing || f.slot == Empty { return Empty; }
      if expected.Item? && f.slot != expected { return Empty; }
      UntagAll(f.node, f.offset, index);
      Remove(f.node, f.offset, index);
      return f.slot;
    }
  }

  lemma NoHead(t: Tree)
    requires !t.head.Inner?
    ensures Minimal(t)
  {
  }

  lemma NotHead(t: Tree, node: Parent)
    requires MinimalBelow(t, node) && node.Under? && t.head != Inner(node.id)
    ensures Minimal(t)
  {
  }

  lemma PlaceKept(s: Tree, t: Tree, g: nat, node: Parent, offset: nat, k: nat)
    requires Ok(t) && SameButTag(s, t, g) && (node.Under? ==> Place(s, node.id, offset, k))
    ensures t.head == s.head && (node.Under? ==> Place(t, node.id, offset, k))
  {
    SizedNodes(t);
  }

  lemma TakeOk(t: Tree, items: map<nat, Value>, tagged: seq<set<nat>>, id: Id, o: nat, k: nat)
    requires Ok(t) && Refines(t, items, tagged) && Place(t, id, o, k) && forall g :: 0 <= g < TAGS ==> k !in tagged[g]
    ensures id in t.nodes && Sized(t.nodes[id]) && o < MAP_SIZE && t.nodes[id].count > 0
    ensures var t' := TakeItem(t, id, o);
            Building(t', Under(id)) && MinimalBelow(t', Under(id)) && Refines(t', items - {k}, tagged)
  {
    ItemUntagged(t, items, tagged, id, o, k);
    TakeItemOk(t, id, o);
    TakeRefines(t, items, tagged, id, o, k);
    hide Shaped, Counted, TagsOkBut, Refines;
    if t.head.Inner? && t.head.id != id {
      var q :| 0 < q < |t.nodes[t.head.id].slots| && t.nodes[t.head.id].slots[q] != Empty;
      assert TakeItem(t, id, o).nodes[t.head.id].slots[q] != Empty;
    }
  }

  lemma ItemUntagged(t: Tree, items: map<nat, Value>, tagged: seq<set<nat>>, id: Id, o: nat, k: nat)
    requires Refines(t, items, tagged) && Place(t, id, o, k) && forall g :: 0 <= g < TAGS ==> k !in tagged[g]
    ensures Untagged(t.nodes[id], o)
  {
    forall g: nat | g < TAGS ensures o !in t.nodes[id].tags[g] {
      assert !Tagged(t, g, k);
    }
  }

  lemma TakeRefines(t: Tree, items: map<nat, Value>, tagged: seq<set<nat>>, id: Id, o: nat, k: nat)
    requires Shaped(t) && Refines(t, items, tagged) && Place(t, id, o, k) && t.nodes[id].count > 0
             && Untagged(t.nodes[id], o)
    ensures Refines(TakeItem(t, id, o), items - {k}, tagged)
  {
    hide Holds, Tagged, Shaped, Refines;
    var t' := TakeItem(t, id, o);
    forall j: nat, v ensures Holds(t', j, v) <==> Holds(t, j, v) && j != k { TakeItemHolds(t, id, o, j, v); }
    forall g: nat, j: nat | g < TAGS ensures Tagged(t', g, j) <==> Tagged(t, g, j) { TakeItemTagged(t, id, o, g, j); }
    RefinesWithout(t, t', items, tagged, k);
  }

  lemma RefinesWithout(t: Tree, t': Tree, items: map<nat, Value>, tagged: seq<set<nat>>, k: nat)
    requires Refines(t, items, tagged) && (forall j: nat, v :: Holds(t', j, v) <==> Holds(t, j, v) && j != k)
    requires forall g: nat, j: nat :: g < TAGS ==> (Tagged(t', g, j) <==> Tagged(t, g, j))
    ensures Refines(t', items - {k}, tagged)
  {
    hide Holds, Tagged;
  }

  lemma TakeHeadOk(t: Tree, items: map<nat, Value>, tagged: seq<set<nat>>)
    requires Ok(t) && Refines(t, items, tagged) && t.head.Item? && forall g :: 0 <= g < TAGS ==> 0 !in tagged[g]
    ensures Ok(t.(head := Empty)) && Refines(t.(head := Empty), items - {0}, tagged)
  {
    HeadOnly(t);
    var t' := t.(head := Empty);
    forall g: nat | g < TAGS ensures !t.tags[g] && RootTagOk(t', g) { assert !Tagged(t, g, 0); }
    assert forall x, q: nat, j: nat :: !Place(t, x, q, j) && !Place(t', x, q, j);
    assert forall j: nat, v :: Holds(t', j, v) <==> Holds(t, j, v) && j != 0;
    assert forall g: nat, j: nat :: g < TAGS ==> !Tagged(t', g, j) && !Tagged(t, g, j);
    hide Holds, Tagged;
    RefinesWithout(t, t', items, tagged, 0);
  }

  lemma Tidied(s: Tree, t: Tree, items: map<nat, Value>, tagged: seq<set<nat>>)
    requires Refines(s, items, tagged) && SameContents(s, t) && Building(t, NoParent) && Minimal(t)
    ensures Ok(t) && Refines(t, items, tagged)
  {
  }

  lemma TagGetStart(t: Tree, g: nat, k: nat)
    requires Ok(t) && k <= ULONG_MAX && g < TAGS
    ensures |t.tags| == TAGS && (t.head.Inner? ==> t.head.id in t.nodes)
    ensures var reached := if t.head.Inner? then k <= MaxIndex(t.nodes[t.head.id].level) else k == 0;
            if !t.tags[g] || !reached then !Tagged(t, g, k) else if t.head.Inner? then Above(t, t.head.id, k)
                else Tagged(t, g, k)
  {
    SizedNodes(t);
    RootBitExact(t, g);
    Reached(t, k);
    assert RootTagOk(t, g);
    if Tagged(t, g, k) { TaggedHolds(t, g, k); }
  }

  lemma AlreadySet(t: Tree, g: nat, id: Id, o: nat)
    requires id in t.nodes && |t.nodes[id].tags| == TAGS && g < TAGS && o in t.nodes[id].tags[g]
    ensures WithBit(t, g, id, o, true) == t
  {
    assert t.nodes[id].tags[g] + {o} == t.nodes[id].tags[g];
    assert t.nodes[id].tags[g := t.nodes[id].tags[g]] == t.nodes[id].tags;
    assert t.nodes[id := t.nodes[id]] == t.nodes;
  }

  lemma TagStart(t: Tree, items: map<nat, Value>, tagged: seq<set<nat>>, k: nat, g: nat)
    requires Ok(t) && Refines(t, items, tagged) && k in items && k <= ULONG_MAX && g < TAGS
    ensures Setting(t, t, g, k, NoParent, 0, t.head) && |tagged| == TAGS
  {
    assert Holds(t, k, items[k]);
    Reached(t, k);
    SetStart(t, g, k);
  }

  /** The descent for an index that is present ends at its item. */
  lemma SetReached(t: Tree, s: Tree, items: map<nat, Value>, tagged: seq<set<nat>>, g: nat, k: nat, node: Parent,
      offset: nat, slot: Slot)
    requires Refines(t, items, tagged) && Setting(t, s, g, k, node, offset, slot) && !slot.Inner? && k in items
    ensures slot == Item(items[k]) && |s.tags| == TAGS
  {
    assert Holds(t, k, items[k]);
    assert Holds(s, k, items[k]);
    if node.Under? {
      Descend(s, node.id, k);
      assert slot.Item? ==> Holds(s, k, slot.v);
      if slot.Item? { HoldsUnique(s, k, slot.v, items[k]); }
    } else {
      HeadOnly(s);
    }
  }

  /** What the bit on the path to an index says about the index. */
  lemma TagStep(t: Tree, g: nat, id: Id, k: nat)
    requires Ok(t) && Above(t, id, k) && g < TAGS
    ensures |t.nodes[id].tags| == TAGS && |t.nodes[id].slots| == MAP_SIZE
    ensures var o := Digit(k, t.nodes[id].level);
            var s := t.nodes[id].slots[o];
            if o !in t.nodes[id].tags[g] then !Tagged(t, g, k)
            else if s.Inner? then Above(t, s.id, k) && t.nodes[s.id].level < t.nodes[id].level
            else Tagged(t, g, k)
  {
    var o := Digit(k, t.nodes[id].level);
    SlotBitExact(t, g, id, o);
    DigitSplit(k, t.nodes[id].level);
    assert Below(t, id, o, k);
    assert NodeOk(t, id) && TagOk(t, g, id, o);
    Descend(t, id, k);
  }

  lemma TagAddedOk(t: Tree, s: Tree, items: map<nat, Value>, tagged: seq<set<nat>>, g: nat, k: nat)
    requires Ok(t) && TagAdded(t, s, g, k) && Refines(t, items, tagged) && g < TAGS
    ensures |tagged| == TAGS && Ok(s) && Refines(s, items, tagged[g := tagged[g] + {k}]) && s.nodes.Keys == t.nodes.Keys
  {
    if t.head.Inner? {
      var o :| 0 < o < |t.nodes[t.head.id].slots| && t.nodes[t.head.id].slots[o] != Empty;
      assert s.nodes[t.head.id].slots[o] != Empty;
    }
    hide Holds, Tagged, Shaped;
  }

  lemma OkBuilding(t: Tree)
    requires Ok(t)
    ensures Building(t, NoParent) && Minimal(t)
  {
  }

  /** An index that holds nothing has no tag. */
  lemma UntaggedMissing(t: Tree, items: map<nat, Value>, tagged: seq<set<nat>>, k: nat, g: nat)
    requires Refines(t, items, tagged) && k !in items && g < TAGS
    ensures |tagged| == TAGS && k !in tagged[g] && tagged[g := tagged[g] - {k}] == tagged
  {
    InItems(t, items, tagged, k);
    if Tagged(t, g, k) { TaggedHolds(t, g, k); }
    assert tagged[g] - {k} == tagged[g];
  }

  lemma TaggedHolds(t: Tree, g: nat, k: nat)
    requires g < TAGS && Tagged(t, g, k)
    ensures exists v :: Holds(t, k, v)
  {
    if k == 0 && t.head.Item? {
      assert Holds(t, k, t.head.v);
    } else {
      var id, o: nat :| Place(t, id, o, k) && o in t.nodes[id].tags[g];
      assert Holds(t, k, t.nodes[id].slots[o].v);
    }
  }

  lemma TagGoneOk(t: Tree, s: Tree, items: map<nat, Value>, tagged: seq<set<nat>>, g: nat, k: nat)
    requires Minimal(t) && TagGone(t, s, g, k) && Refines(t, items, tagged) && g < TAGS
    ensures |tagged| == TAGS && Ok(s) && Refines(s, items, tagged[g := tagged[g] - {k}]) && s.nodes.Keys == t.nodes.Keys
            && SameButTag(t, s, g)
  {
    if t.head.Inner? {
      var o :| 0 < o < |t.nodes[t.head.id].slots| && t.nodes[t.head.id].slots[o] != Empty;
      assert s.nodes[t.head.id].slots[o] != Empty;
    }
    hide Holds, Tagged, Shaped;
  }

  /** A lookup that found a slot or missed agrees with the map. */
  lemma FoundIs(t: Tree, items: map<nat, Value>, tagged: seq<set<nat>>, k: nat, f: Found)
    requires Refines(t, items, tagged)
    requires f == Missing || f.slot == Empty ==> forall v :: !Holds(t, k, v)
    requires f.At? ==> !f.slot.Inner?
    requires f.At? && f.slot.Item? ==>
               if f.node == NoParent then f.slot == t.head && k == 0
               else Place(t, f.node.id, f.offset, k) && f.slot == t.nodes[f.node.id].slots[f.offset]
    ensures if f.At? && f.slot.Item? then k in items && items[k] == f.slot.v else k !in items
  {
    InItems(t, items, tagged, k);
    assert f.At? && f.slot.Item? ==> Holds(t, k, f.slot.v);
  }

  lemma BuildingShaped(t: Tree, spare: Parent)
    requires Building(t, spare)
    ensures Shaped(t)
  {
  }

  lemma InsertOk(t: Tree, s: Tree, items: map<nat, Value>, tagged: seq<set<nat>>, k: nat, node: Parent, offset: nat,
      v: Value)
    requires Refines(t, items, tagged) && SameContents(t, s) && Building(s, node) && OnWay(s, k, node, offset, 0, Empty)
             && Reaching(s, k)
    ensures node.Under? ==> node.id in s.nodes && Sized(s.nodes[node.id]) && offset < MAP_SIZE
    ensures Ok(Filled(s, node, offset, v)) && k !in items && Refines(Filled(s, node, offset, v), items[k := v], tagged)
  {
    hide Shaped, SameContents, Holds, Refines, OnWay;
    WayEnd(s, k, node, offset, Empty);
    FilledOk(s, k, node, offset, v);
    FilledMinimal(s, k, node, offset, v);
    FilledContents(s, k, node, offset, v);
    InsertRefines(t, s, Filled(s, node, offset, v), items, tagged, k, v);
  }

  lemma Occupied(t: Tree, s: Tree, k: nat, v: Value)
    requires SameContents(t, s) && Holds(s, k, v)
    ensures Holds(t, k, v)
  {
  }

  lemma InItems(t: Tree, items: map<nat, Value>, tagged: seq<set<nat>>, k: nat)
    requires Refines(t, items, tagged)
    ensures k in items <==> exists v :: Holds(t, k, v)
  {
    if k in items { assert Holds(t, k, items[k]); }
  }

  lemma InsertRefines(t: Tree, s: Tree, t': Tree, items: map<nat, Value>, tagged: seq<set<nat>>, k: nat, v: Value)
    requires Refines(t, items, tagged) && SameContents(t, s) && (forall w :: !Holds(s, k, w))
    requires forall j: nat, w :: Holds(t', j, w) <==> Holds(s, j, w) || (j == k && w == v)
    requires forall g: nat, j: nat :: g < TAGS ==> (Tagged(t', g, j) <==> Tagged(s, g, j))
    ensures k !in items && Refines(t', items[k := v], tagged)
  {
    hide Holds, Tagged;
    InItems(t, items, tagged, k);
  }

  lemma AbsentBefore(t: Tree, s: Tree, k: nat)
    requires SameContents(t, s) && forall v :: !Holds(s, k, v)
    ensures forall v :: !Holds(t, k, v)
  {
  }
}
