/** No leaf of a tree the plugin builds lists an id twice, provided each
    entity is added to the tree once and from then on only moved, removed or
    collapsed. This is what lets `entitiesInBoundingBox` return every id at
    most once. */
module QTreeNoDup {
  import opened Geometry
  import opened QTree
  import opened Seqs

  /** Adding an id the tree does not hold yet keeps every leaf's list free of
      repeats. */
  lemma {:induction false} AddEntityNoDup(t: Leaf, e: EntityId, boxOf: EntityId -> Box)
    requires Valid(t) && LeavesNoDup(t) && e !in AllEntities(t)
    ensures LeavesNoDup(AddEntity(t, e, boxOf))
    decreases Rank(t), if t.children.Quad? then 0 else 1, 2, 0
  {
    match t.children
    case NoChildren =>
      var t' := t.(entities := t.entities + [e]);
      assert e !in t.entities;
      NoDupConcat(t.entities, [e]);
      UpdatePartitionsNoDup(t', boxOf);
    case Quad(c0, c1, c2, c3) =>
      RankDecreases(t);
      AddToChildNoDup(c0, e, boxOf);
      AddToChildNoDup(c1, e, boxOf);
      AddToChildNoDup(c2, e, boxOf);
      AddToChildNoDup(c3, e, boxOf);
  }

  lemma {:induction false} AddToChildNoDup(c: Leaf, e: EntityId, boxOf: EntityId -> Box)
    requires Valid(c) && LeavesNoDup(c) && e !in AllEntities(c)
    ensures LeavesNoDup(AddToChild(c, e, boxOf))
    decreases Rank(c), 2, 0, 0
  {
    if ShouldEntityBeHere(c.bounds, boxOf(e)) {
      AddEntityNoDup(c, e, boxOf);
    }
  }

  lemma {:induction false} UpdatePartitionsNoDup(t: Leaf, boxOf: EntityId -> Box)
    requires Valid(t) && LeavesNoDup(t)
    ensures LeavesNoDup(UpdatePartitions(t, boxOf))
    decreases Rank(t), if t.children.Quad? then 0 else 1, 1, 0
  {
    if NeedsPartition(t) {
      PartitionNoDup(t, boxOf);
      UpdatePartitionsNoDup(Partition(t, boxOf), boxOf);
    } else if NeedsPartitionDeep(t) {
      match t.children
      case NoChildren =>
      case Quad(c0, c1, c2, c3) =>
        RankDecreases(t);
        UpdateChildPartitionsNoDup(c0, boxOf);
        UpdateChildPartitionsNoDup(c1, boxOf);
        UpdateChildPartitionsNoDup(c2, boxOf);
        UpdateChildPartitionsNoDup(c3, boxOf);
    }
  }

  lemma {:induction false} UpdateChildPartitionsNoDup(c: Leaf, boxOf: EntityId -> Box)
    requires Valid(c) && LeavesNoDup(c)
    ensures LeavesNoDup(UpdateChildPartitions(c, boxOf))
    decreases Rank(c), 2, 0, 0
  {
    if NeedsPartitionDeep(c) {
      UpdatePartitionsNoDup(c, boxOf);
    }
  }

  lemma {:induction false} PartitionNoDup(t: Leaf, boxOf: EntityId -> Box)
    requires Valid(t) && LeavesNoDup(t)
    requires t.children.Quad? || CanPartition(t.bounds)
    ensures LeavesNoDup(Partition(t, boxOf))
    decreases Rank(t), if t.children.Quad? then 0 else 1, 0, 0
  {
    if t.children.NoChildren? {
      var emptied := Leaf(t.bounds, [], FreshQuad(t.bounds));
      assert AllEntities(emptied) == {};
      RedistributeNoDup(emptied, t.entities, boxOf);
    }
  }

  /** The pending ids are distinct and none is in the tree yet. */
  lemma {:induction false} RedistributeNoDup(t: Leaf, pending: seq<EntityId>, boxOf: EntityId -> Box)
    requires Valid(t) && t.children.Quad? && LeavesNoDup(t)
    requires NoDup(pending) && forall x :: x in pending ==> x !in AllEntities(t)
    ensures LeavesNoDup(Redistribute(t, pending, boxOf))
    decreases Rank(t), 0, 3, |pending|
  {
    if pending != [] {
      var last := pending[|pending| - 1];
      var rest := pending[..|pending| - 1];
      assert last in pending;
      AddEntityNoDup(t, last, boxOf);
      var t' := AddEntity(t, last, boxOf);
      forall x | x in rest
        ensures x !in AllEntities(t')
      {
        assert x in pending;
        var k :| 0 <= k < |rest| && rest[k] == x;
        assert pending[k] == x && k < |pending| - 1;
      }
      RedistributeNoDup(t', rest, boxOf);
    }
  }

  /** `updateEntity` adds an id only to a leaf that does not list it. */
  lemma {:induction false} UpdateEntityNoDup(t: Leaf, e: EntityId, boxOf: EntityId -> Box)
    requires Valid(t) && LeavesNoDup(t)
    ensures LeavesNoDup(UpdateEntity(t, e, boxOf))
    decreases t
  {
    match t.children
    case NoChildren =>
      var should := ShouldEntityBeHere(t.bounds, boxOf(e));
      if e !in t.entities && should {
        AddEntityNoDup(t, e, boxOf);
      }
    case Quad(c0, c1, c2, c3) =>
      UpdateEntityNoDup(c0, e, boxOf);
      UpdateEntityNoDup(c1, e, boxOf);
      UpdateEntityNoDup(c2, e, boxOf);
      UpdateEntityNoDup(c3, e, boxOf);
  }

  lemma {:induction false} RemoveEntityNoDup(t: Leaf, e: EntityId)
    requires LeavesNoDup(t)
    ensures LeavesNoDup(RemoveEntity(t, e))
  {
    match t.children
    case NoChildren =>
    case Quad(c0, c1, c2, c3) =>
      RemoveEntityNoDup(c0, e);
      RemoveEntityNoDup(c1, e);
      RemoveEntityNoDup(c2, e);
      RemoveEntityNoDup(c3, e);
  }

  lemma {:induction false} UpdateCollapsesNoDup(t: Leaf)
    requires Valid(t) && LeavesNoDup(t)
    ensures LeavesNoDup(UpdateCollapses(t))
  {
    if !NeedsCollapse(t) {
      match t.children
      case NoChildren =>
      case Quad(c0, c1, c2, c3) =>
        UpdateCollapsesNoDup(c0);
        UpdateCollapsesNoDup(c1);
        UpdateCollapsesNoDup(c2);
        UpdateCollapsesNoDup(c3);
    }
  }
}
