/**
  What deletion does to a radix tree, step by step: take the item, free the nodes that became
  empty, and lower the tree while only its first slot is in use.
 */
module RadixDelete {
  import opened RadixShape
  import opened RadixSteps
  import opened RadixRemovals
  import opened RadixTags

  ghost predicate Building(t: Tree, spare: Parent)
  {
    Shaped(t) && Counted(t, spare) && TagsOkBut(t, {})
  }

  /** Minimal unless the climb has reached the head. */
  predicate MinimalBelow(t: Tree, node: Parent)
  {
    t.head.Inner? && node != Under(t.head.id) ==> Minimal(t)
  }

  /** Either the head can be shrunk, or the tree is minimal. */
  lemma ShrinkStep(t: Tree)
    requires Building(t, NoParent) && t.head.Inner?
    ensures t.head.id in t.nodes && |t.nodes[t.head.id].slots| == MAP_SIZE
    ensures if t.nodes[t.head.id].count == 1 && t.nodes[t.head.id].slots[0] != Empty
            then && Building(Shrink(t), NoParent) && SameContents(t, Shrink(t))
                 && (Shrink(t).head.Inner? ==>
                      Shrink(t).head.id in Shrink(t).nodes
                      && Shrink(t).nodes[Shrink(t).head.id].level < t.nodes[t.head.id].level)
            else Minimal(t)
  {
    hide TagsOkBut, SameContents;
    var h := t.head.id;
    SizedNodes(t);
    assert CountOk(t.nodes[h], false) && NodeOk(t, h) && SlotOk(t, h, 0);
    if t.nodes[h].slots[0] == Empty {
      var o := UsedSlot(t, h);
    } else {
      OnlyFirstCount(t.nodes[h]);
      if t.nodes[h].count == 1 {
        ShrinkOk(t);
      } else {
        var o :| 0 < o < MAP_SIZE && t.nodes[h].slots[o] != Empty;
      }
    }
  }

  /** Freeing an empty node moves the climb to its parent. */
  lemma DropStep(t: Tree, id: Id)
    requires Building(t, Under(id)) && id in t.nodes && t.nodes[id].count == 0 && t.nodes[id].parent.Under?
             && MinimalBelow(t, Under(id))
    ensures var p := t.nodes[id].parent.id;
            && p in t.nodes && p != id && t.nodes[id].offset < |t.nodes[p].slots| && t.nodes[p].count > 0
            && Building(DropNode(t, id), Under(p)) && SameContents(t, DropNode(t, id))
               && MinimalBelow(DropNode(t, id), Under(p))
            && LevelUp(t, id)
  {
    VacantNode(t, id);
    hide SameContents;
    DropNodeOk(t, id);
    DropNodeContents(t, id);
    ParentAbove(t, id);
    DropMinimal(t, id);
    hide Shaped, Counted, TagsOkBut;
  }

  lemma VacantNode(t: Tree, id: Id)
    requires Building(t, Under(id)) && id in t.nodes && t.nodes[id].count == 0
    ensures Sized(t.nodes[id]) && Vacant(t.nodes[id])
  {
    assert NodeOk(t, id) && CountOk(t.nodes[id], true);
    NonEmptyZero(t.nodes[id].slots);
  }

  lemma DropMinimal(t: Tree, id: Id)
    requires Shaped(t) && id in t.nodes && t.nodes[id].parent.Under? && MinimalBelow(t, Under(id))
    requires var p := t.nodes[id].parent.id;
             p in t.nodes && t.nodes[id].offset < |t.nodes[p].slots| && t.nodes[p].count > 0
    ensures MinimalBelow(DropNode(t, id), t.nodes[id].parent)
  {
    var t', p := DropNode(t, id), t.nodes[id].parent.id;
    assert NodeOk(t, id);
    if t.head.Inner? && t.head.id != p {
      assert t.head.id != id;
      var o :| 0 < o < |t.nodes[t.head.id].slots| && t.nodes[t.head.id].slots[o] != Empty;
      assert t'.nodes[t.head.id].slots[o] != Empty;
    }
  }

  lemma DropLast(t: Tree, id: Id)
    requires Building(t, Under(id)) && id in t.nodes && t.nodes[id].count == 0 && t.nodes[id].parent == NoParent
    ensures t.head == Inner(id) && Building(DropRoot(t), NoParent) && SameContents(t, DropRoot(t))
            && Minimal(DropRoot(t))
  {
    VacantNode(t, id);
    assert NodeOk(t, id);
    hide SameContents;
    DropRootOk(t);
  }

  /** A node in use ends the climb. */
  lemma ClimbUsed(t: Tree, id: Id)
    requires Building(t, Under(id)) && id in t.nodes && t.nodes[id].count > 0
    ensures Building(t, NoParent)
  {
    assert Counted(t, NoParent) by {
      forall x | x in t.nodes ensures CountOk(t.nodes[x], false) { assert CountOk(t.nodes[x], Under(x) == Under(id)); }
    }
  }
}
