/** What the quadtree operations promise about where an entity ends up.
    For an entity `x` with box `b`, the tree is *sound* for `x` when every
    terminal leaf listing `x` meets `b`, and *complete* for `x` when every
    terminal leaf that meets `b` lists `x`. Collision checks only compare
    entities that share a leaf, so completeness is what makes them find
    every neighbour, and soundness is what keeps the lists short. */
module QTreeFacts {
  import opened Geometry
  import opened QTree
  import opened Seqs

  predicate Sound(t: Leaf, x: EntityId, b: Box)
  {
    match t.children
    case NoChildren => x in t.entities ==> ShouldEntityBeHere(t.bounds, b)
    case Quad(c0, c1, c2, c3) => Sound(c0, x, b) && Sound(c1, x, b) && Sound(c2, x, b) && Sound(c3, x, b)
  }

  predicate Complete(t: Leaf, x: EntityId, b: Box)
  {
    match t.children
    case NoChildren => ShouldEntityBeHere(t.bounds, b) ==> x in t.entities
    case Quad(c0, c1, c2, c3) => Complete(c0, x, b) && Complete(c1, x, b) && Complete(c2, x, b) && Complete(c3, x, b)
  }

  /** `a` lies inside `b`. */
  predicate Inside(a: Box, b: Box)
  {
    b.x1 <= a.x1 && a.x2 <= b.x2 && b.y1 <= a.y1 && a.y2 <= b.y2
  }

  // ---------------------------------------------------------------------
  // Geometry of the split.

  /** The quarters of a splittable rectangle lie inside it. */
  lemma QuadrantsInside(b: Box)
    requires CanPartition(b)
    ensures Inside(Quadrant0(b), b) && Inside(Quadrant1(b), b)
    ensures Inside(Quadrant2(b), b) && Inside(Quadrant3(b), b)
  {
  }

  /** A box that meets a rectangle meets every rectangle around it. */
  lemma ShouldInside(inner: Box, outer: Box, b: Box)
    requires Inside(inner, outer) && ShouldEntityBeHere(inner, b)
    ensures ShouldEntityBeHere(outer, b)
  {
  }

  /** A well-formed box meets a splittable rectangle exactly when it meets
      one of its quarters: splitting loses no entity and invents none. */
  lemma QuadrantsCover(b: Box, e: Box)
    requires CanPartition(b) && e.WellFormed()
    ensures ShouldEntityBeHere(b, e) <==>
      ShouldEntityBeHere(Quadrant0(b), e) || ShouldEntityBeHere(Quadrant1(b), e)
      || ShouldEntityBeHere(Quadrant2(b), e) || ShouldEntityBeHere(Quadrant3(b), e)
  {
    QuadrantsInside(b);
    if ShouldEntityBeHere(b, e) {
      var mx := MidX(b);
      var my := MidY(b);
      if e.x2 < mx {
        if e.y2 < my {
          assert ShouldEntityBeHere(Quadrant0(b), e);
        } else {
          assert ShouldEntityBeHere(Quadrant2(b), e);
        }
      } else {
        if e.y2 < my {
          assert ShouldEntityBeHere(Quadrant1(b), e);
        } else {
          assert ShouldEntityBeHere(Quadrant3(b), e);
        }
      }
    } else {
      if ShouldEntityBeHere(Quadrant0(b), e) { ShouldInside(Quadrant0(b), b, e); }
      if ShouldEntityBeHere(Quadrant1(b), e) { ShouldInside(Quadrant1(b), b, e); }
      if ShouldEntityBeHere(Quadrant2(b), e) { ShouldInside(Quadrant2(b), b, e); }
      if ShouldEntityBeHere(Quadrant3(b), e) { ShouldInside(Quadrant3(b), b, e); }
    }
  }

  /** Every leaf of a valid tree lies inside the root, so a tree whose
      rectangle the box misses is complete for it without holding it. */
  lemma {:induction false} CompleteWhenOutside(t: Leaf, x: EntityId, b: Box)
    requires Valid(t) && !ShouldEntityBeHere(t.bounds, b)
    ensures Complete(t, x, b)
  {
    match t.children
    case NoChildren =>
    case Quad(c0, c1, c2, c3) =>
      QuadrantsInside(t.bounds);
      if ShouldEntityBeHere(c0.bounds, b) { ShouldInside(c0.bounds, t.bounds, b); }
      if ShouldEntityBeHere(c1.bounds, b) { ShouldInside(c1.bounds, t.bounds, b); }
      if ShouldEntityBeHere(c2.bounds, b) { ShouldInside(c2.bounds, t.bounds, b); }
      if ShouldEntityBeHere(c3.bounds, b) { ShouldInside(c3.bounds, t.bounds, b); }
      CompleteWhenOutside(c0, x, b);
      CompleteWhenOutside(c1, x, b);
      CompleteWhenOutside(c2, x, b);
      CompleteWhenOutside(c3, x, b);
  }

  /** A complete tree whose rectangle meets the entity's (well-formed) box
      does hold the entity somewhere. */
  lemma {:induction false} CompleteFinds(t: Leaf, x: EntityId, b: Box)
    requires Valid(t) && b.WellFormed() && ShouldEntityBeHere(t.bounds, b) && Complete(t, x, b)
    ensures x in AllEntities(t)
  {
    match t.children
    case NoChildren =>
    case Quad(c0, c1, c2, c3) =>
      QuadrantsCover(t.bounds, b);
      if ShouldEntityBeHere(c0.bounds, b) { CompleteFinds(c0, x, b); }
      else if ShouldEntityBeHere(c1.bounds, b) { CompleteFinds(c1, x, b); }
      else if ShouldEntityBeHere(c2.bounds, b) { CompleteFinds(c2, x, b); }
      else { CompleteFinds(c3, x, b); }
  }

  // ---------------------------------------------------------------------
  // Adding keeps every entity's placement, and places the added one.

  /** After `addEntity(e)`, the tree is complete for `e`, and for any other
      entity it was complete for; it stays sound for every entity, provided
      `e` itself meets the rectangle it was added to. */
  lemma {:induction false} AddEntityPlaces(t: Leaf, e: EntityId, boxOf: EntityId -> Box, x: EntityId)
    requires Valid(t)
    ensures Sound(t, x, boxOf(x)) && (x == e ==> ShouldEntityBeHere(t.bounds, boxOf(e)))
      ==> Sound(AddEntity(t, e, boxOf), x, boxOf(x))
    ensures Complete(t, x, boxOf(x)) || x == e ==> Complete(AddEntity(t, e, boxOf), x, boxOf(x))
    decreases Rank(t), if t.children.Quad? then 0 else 1, 2, 0
  {
    match t.children
    case NoChildren =>
      var t' := t.(entities := t.entities + [e]);
      UpdatePartitionsPlaces(t', boxOf, x);
    case Quad(c0, c1, c2, c3) =>
      RankDecreases(t);
      AddToChildPlaces(c0, e, boxOf, x);
      AddToChildPlaces(c1, e, boxOf, x);
      AddToChildPlaces(c2, e, boxOf, x);
      AddToChildPlaces(c3, e, boxOf, x);
  }

  lemma {:induction false} AddToChildPlaces(c: Leaf, e: EntityId, boxOf: EntityId -> Box, x: EntityId)
    requires Valid(c)
    ensures Sound(c, x, boxOf(x)) ==> Sound(AddToChild(c, e, boxOf), x, boxOf(x))
    ensures Complete(c, x, boxOf(x)) || x == e ==> Complete(AddToChild(c, e, boxOf), x, boxOf(x))
    decreases Rank(c), 2, 0, 0
  {
    if ShouldEntityBeHere(c.bounds, boxOf(e)) {
      AddEntityPlaces(c, e, boxOf, x);
    } else if x == e {
      CompleteWhenOutside(c, x, boxOf(x));
    }
  }

  lemma {:induction false} UpdatePartitionsPlaces(t: Leaf, boxOf: EntityId -> Box, x: EntityId)
    requires Valid(t)
    ensures Sound(t, x, boxOf(x)) ==> Sound(UpdatePartitions(t, boxOf), x, boxOf(x))
    ensures Complete(t, x, boxOf(x)) ==> Complete(UpdatePartitions(t, boxOf), x, boxOf(x))
    decreases Rank(t), if t.children.Quad? then 0 else 1, 1, 0
  {
    if NeedsPartition(t) {
      PartitionPlaces(t, boxOf, x);
      UpdatePartitionsPlaces(Partition(t, boxOf), boxOf, x);
    } else if NeedsPartitionDeep(t) {
      match t.children
      case NoChildren =>
      case Quad(c0, c1, c2, c3) =>
        RankDecreases(t);
        UpdateChildPartitionsPlaces(c0, boxOf, x);
        UpdateChildPartitionsPlaces(c1, boxOf, x);
        UpdateChildPartitionsPlaces(c2, boxOf, x);
        UpdateChildPartitionsPlaces(c3, boxOf, x);
    }
  }

  lemma {:induction false} UpdateChildPartitionsPlaces(c: Leaf, boxOf: EntityId -> Box, x: EntityId)
    requires Valid(c)
    ensures Sound(c, x, boxOf(x)) ==> Sound(UpdateChildPartitions(c, boxOf), x, boxOf(x))
    ensures Complete(c, x, boxOf(x)) ==> Complete(UpdateChildPartitions(c, boxOf), x, boxOf(x))
    decreases Rank(c), 2, 0, 0
  {
    if NeedsPartitionDeep(c) {
      UpdatePartitionsPlaces(c, boxOf, x);
    }
  }

  lemma {:induction false} PartitionPlaces(t: Leaf, boxOf: EntityId -> Box, x: EntityId)
    requires Valid(t)
    requires t.children.Quad? || CanPartition(t.bounds)
    ensures Sound(t, x, boxOf(x)) ==> Sound(Partition(t, boxOf), x, boxOf(x))
    ensures Complete(t, x, boxOf(x)) ==> Complete(Partition(t, boxOf), x, boxOf(x))
    decreases Rank(t), if t.children.Quad? then 0 else 1, 0, 0
  {
    if t.children.NoChildren? {
      var emptied := Leaf(t.bounds, [], FreshQuad(t.bounds));
      var q := FreshQuad(t.bounds);
      assert Sound(q.c0, x, boxOf(x)) && Sound(q.c1, x, boxOf(x));
      assert Sound(q.c2, x, boxOf(x)) && Sound(q.c3, x, boxOf(x));
      if !ShouldEntityBeHere(t.bounds, boxOf(x)) {
        CompleteWhenOutside(emptied, x, boxOf(x));
      }
      RedistributePlaces(emptied, t.entities, boxOf, x);
    }
  }

  lemma {:induction false} RedistributePlaces(t: Leaf, pending: seq<EntityId>, boxOf: EntityId -> Box, x: EntityId)
    requires Valid(t) && t.children.Quad?
    ensures Sound(t, x, boxOf(x)) && (x in pending ==> ShouldEntityBeHere(t.bounds, boxOf(x)))
      ==> Sound(Redistribute(t, pending, boxOf), x, boxOf(x))
    ensures Complete(t, x, boxOf(x)) || x in pending ==> Complete(Redistribute(t, pending, boxOf), x, boxOf(x))
    decreases Rank(t), 0, 3, |pending|
  {
    if pending != [] {
      var last := pending[|pending| - 1];
      var rest := pending[..|pending| - 1];
      assert pending == rest + [last];
      assert x in pending <==> x in rest || x == last;
      AddEntityPlaces(t, last, boxOf, x);
      RedistributePlaces(AddEntity(t, last, boxOf), rest, boxOf, x);
    }
  }

  // ---------------------------------------------------------------------
  // Moving and removing.

  /** After `updateEntity(e)` the tree is sound and complete for `e`, with
      no condition on where `e` was before, and every other entity keeps
      the placement it had. */
  lemma {:induction false} UpdateEntityPlaces(t: Leaf, e: EntityId, boxOf: EntityId -> Box, x: EntityId)
    requires Valid(t)
    ensures Sound(UpdateEntity(t, e, boxOf), e, boxOf(e))
    ensures Complete(UpdateEntity(t, e, boxOf), e, boxOf(e))
    ensures x != e && Sound(t, x, boxOf(x)) ==> Sound(UpdateEntity(t, e, boxOf), x, boxOf(x))
    ensures x != e && Complete(t, x, boxOf(x)) ==> Complete(UpdateEntity(t, e, boxOf), x, boxOf(x))
    decreases t
  {
    match t.children
    case NoChildren =>
      var should := ShouldEntityBeHere(t.bounds, boxOf(e));
      if e in t.entities && !should {
      } else if e !in t.entities && should {
        AddEntityPlaces(t, e, boxOf, e);
        AddEntityPlaces(t, e, boxOf, x);
      }
    case Quad(c0, c1, c2, c3) =>
      UpdateEntityPlaces(c0, e, boxOf, x);
      UpdateEntityPlaces(c1, e, boxOf, x);
      UpdateEntityPlaces(c2, e, boxOf, x);
      UpdateEntityPlaces(c3, e, boxOf, x);
  }

  /** `removeEntity(e)` leaves every other entity's placement alone. */
  lemma {:induction false} RemoveEntityPlaces(t: Leaf, e: EntityId, x: EntityId, b: Box)
    requires x != e
    ensures Sound(t, x, b) ==> Sound(RemoveEntity(t, e), x, b)
    ensures Complete(t, x, b) ==> Complete(RemoveEntity(t, e), x, b)
  {
    match t.children
    case NoChildren =>
    case Quad(c0, c1, c2, c3) =>
      RemoveEntityPlaces(c0, e, x, b);
      RemoveEntityPlaces(c1, e, x, b);
      RemoveEntityPlaces(c2, e, x, b);
      RemoveEntityPlaces(c3, e, x, b);
  }

  // ---------------------------------------------------------------------
  // Collapsing.

  /** `updateCollapses` keeps the set of held entities and every entity's
      soundness; completeness survives for entities with a well-formed box. */
  lemma {:induction false} UpdateCollapsesPlaces(t: Leaf, x: EntityId, b: Box)
    requires Valid(t)
    ensures AllEntities(UpdateCollapses(t)) == AllEntities(t)
    ensures Sound(t, x, b) ==> Sound(UpdateCollapses(t), x, b)
    ensures Complete(t, x, b) && b.WellFormed() ==> Complete(UpdateCollapses(t), x, b)
  {
    if NeedsCollapse(t) {
      CollapsePlaces(t, x, b);
    } else {
      match t.children
      case NoChildren =>
      case Quad(c0, c1, c2, c3) =>
        if NeedsCollapseDeep(c0) { UpdateCollapsesPlaces(c0, x, b); }
        else if NeedsCollapseDeep(c1) { UpdateCollapsesPlaces(c1, x, b); }
        else if NeedsCollapseDeep(c2) { UpdateCollapsesPlaces(c2, x, b); }
        else if NeedsCollapseDeep(c3) { UpdateCollapsesPlaces(c3, x, b); }
    }
  }

  /** The collapse step itself. */
  lemma CollapsePlaces(t: Leaf, x: EntityId, b: Box)
    requires Valid(t) && NeedsCollapse(t)
    ensures AllEntities(Collapse(t)) == AllEntities(t)
    ensures Sound(t, x, b) ==> Sound(Collapse(t), x, b)
    ensures Complete(t, x, b) && b.WellFormed() ==> Complete(Collapse(t), x, b)
  {
    CollapseEntities(t);
    CollapseSound(t, x, b);
    CollapseComplete(t, x, b);
  }

  lemma CollapseEntities(t: Leaf)
    requires Valid(t) && NeedsCollapse(t)
    ensures AllEntities(Collapse(t)) == AllEntities(t)
  {
    var c := t.children;
    var r := Collapse(t);
    assert AllEntities(r) == Elems(r.entities);
    assert AllEntities(t) == Elems(c.c0.entities) + Elems(c.c1.entities) + Elems(c.c2.entities) + Elems(c.c3.entities);
    forall y
      ensures y in Elems(r.entities) <==> y in AllEntities(t)
    {
      assert y in r.entities <==>
        y in c.c0.entities || y in c.c1.entities || y in c.c2.entities || y in c.c3.entities;
    }
  }

  lemma CollapseSound(t: Leaf, x: EntityId, b: Box)
    requires Valid(t) && NeedsCollapse(t)
    ensures Sound(t, x, b) ==> Sound(Collapse(t), x, b)
  {
    var c := t.children;
    var r := Collapse(t);
    if Sound(t, x, b) && x in r.entities {
      assert Sound(c.c0, x, b) && Sound(c.c1, x, b) && Sound(c.c2, x, b) && Sound(c.c3, x, b);
      QuadrantsInside(t.bounds);
      if x in c.c0.entities { ShouldInside(c.c0.bounds, t.bounds, b); }
      else if x in c.c1.entities { ShouldInside(c.c1.bounds, t.bounds, b); }
      else if x in c.c2.entities { ShouldInside(c.c2.bounds, t.bounds, b); }
      else { ShouldInside(c.c3.bounds, t.bounds, b); }
    }
  }

  lemma CollapseComplete(t: Leaf, x: EntityId, b: Box)
    requires Valid(t) && NeedsCollapse(t)
    ensures Complete(t, x, b) && b.WellFormed() ==> Complete(Collapse(t), x, b)
  {
    var c := t.children;
    if Complete(t, x, b) && b.WellFormed() && ShouldEntityBeHere(t.bounds, b) {
      assert Complete(c.c0, x, b) && Complete(c.c1, x, b) && Complete(c.c2, x, b) && Complete(c.c3, x, b);
      QuadrantsCover(t.bounds, b);
      assert x in c.c0.entities || x in c.c1.entities || x in c.c2.entities || x in c.c3.entities;
    }
  }

  // ---------------------------------------------------------------------
  // Listing, counting, querying.

  /** On a valid tree `entityListDeep` reaches exactly the held entities. */
  lemma {:induction false} ListedIsAll(t: Leaf, x: EntityId)
    requires Valid(t)
    ensures Listed(t, x) <==> x in AllEntities(t)
  {
    match t.children
    case NoChildren =>
    case Quad(c0, c1, c2, c3) =>
      ListedIsAll(c0, x);
      ListedIsAll(c1, x);
      ListedIsAll(c2, x);
      ListedIsAll(c3, x);
  }

  /** `entityCountDeep` counts the distinct held entities. */
  lemma EntityCountDeepIsSize(t: Leaf)
    requires Valid(t)
    ensures EntityCountDeep(t) == |AllEntities(t)|
  {
    var l := EntityListDeep(t, []);
    forall x | true
      ensures x in l <==> x in AllEntities(t)
    {
      ListedIsAll(t, x);
    }
    assert Elems(l) == AllEntities(t);
    NoDupSize(l);
  }

  /** A list without repeats has as many elements as its set. */
  lemma {:induction false} NoDupSize(s: seq<EntityId>)
    requires NoDup(s)
    ensures |Elems(s)| == |s|
  {
    if s == [] {
      assert Elems(s) == {};
    } else {
      var tail := s[1..];
      assert NoDup(tail);
      NoDupSize(tail);
      assert s[0] !in Elems(tail);
      assert Elems(s) == Elems(tail) + {s[0]};
    }
  }

  /** An entity sits in a terminal leaf whose rectangle meets the query box
      (edges included). */
  predicate InQueriedLeaf(t: Leaf, q: Box, x: EntityId)
  {
    match t.children
    case NoChildren => OverlapsClosed(t.bounds, q) && x in t.entities
    case Quad(c0, c1, c2, c3) =>
      InQueriedLeaf(c0, q, x) || InQueriedLeaf(c1, q, x) || InQueriedLeaf(c2, q, x) || InQueriedLeaf(c3, q, x)
  }

  /** On a valid tree `entitiesInBoundingBox` returns exactly the entities
      of the terminal leaves meeting the query box: pruning at a partitioned
      leaf that misses the box loses nothing. */
  lemma {:induction false} QueryIsLeafHits(t: Leaf, q: Box, x: EntityId)
    requires Valid(t)
    ensures Reached(t, q, x) <==> InQueriedLeaf(t, q, x)
  {
    match t.children
    case NoChildren =>
    case Quad(c0, c1, c2, c3) =>
      QuadrantsInside(t.bounds);
      QueryIsLeafHits(c0, q, x);
      QueryIsLeafHits(c1, q, x);
      QueryIsLeafHits(c2, q, x);
      QueryIsLeafHits(c3, q, x);
      if !OverlapsClosed(t.bounds, q) {
        NoHitsOutside(c0, t.bounds, q, x);
        NoHitsOutside(c1, t.bounds, q, x);
        NoHitsOutside(c2, t.bounds, q, x);
        NoHitsOutside(c3, t.bounds, q, x);
      }
  }

  /** No leaf inside a rectangle that misses the query box meets it. */
  lemma {:induction false} NoHitsOutside(t: Leaf, outer: Box, q: Box, x: EntityId)
    requires Valid(t) && Inside(t.bounds, outer) && !OverlapsClosed(outer, q)
    ensures !InQueriedLeaf(t, q, x)
  {
    match t.children
    case NoChildren =>
    case Quad(c0, c1, c2, c3) =>
      QuadrantsInside(t.bounds);
      NoHitsOutside(c0, outer, q, x);
      NoHitsOutside(c1, outer, q, x);
      NoHitsOutside(c2, outer, q, x);
      NoHitsOutside(c3, outer, q, x);
  }

  /** A query whose box contains an entity's (well-formed) box finds that
      entity in a tree complete for it. */
  lemma {:induction false} QueryFindsContained(t: Leaf, acc: seq<EntityId>, q: Box, x: EntityId, b: Box)
    requires Valid(t) && b.WellFormed() && Inside(b, q)
    requires ShouldEntityBeHere(t.bounds, b) && Complete(t, x, b)
    ensures x in EntitiesInBoundingBox(t, acc, q)
  {
    ReachedContained(t, q, x, b);
  }

  lemma {:induction false} ReachedContained(t: Leaf, q: Box, x: EntityId, b: Box)
    requires Valid(t) && b.WellFormed() && Inside(b, q)
    requires ShouldEntityBeHere(t.bounds, b) && Complete(t, x, b)
    ensures Reached(t, q, x)
  {
    assert OverlapsClosed(t.bounds, q);
    match t.children
    case NoChildren =>
    case Quad(c0, c1, c2, c3) =>
      QuadrantsCover(t.bounds, b);
      if ShouldEntityBeHere(c0.bounds, b) { ReachedContained(c0, q, x, b); }
      else if ShouldEntityBeHere(c1.bounds, b) { ReachedContained(c1, q, x, b); }
      else if ShouldEntityBeHere(c2.bounds, b) { ReachedContained(c2, q, x, b); }
      else { ReachedContained(c3, q, x, b); }
  }

  // ---------------------------------------------------------------------
  // Adding does not de-duplicate.

  /** Adding an entity to a terminal leaf that already holds it, when the
      leaf will not split, appends it again: the id is listed twice, so
      adding is not idempotent. */
  lemma AddEntityRepeats(t: Leaf, e: EntityId, boxOf: EntityId -> Box)
    requires Valid(t) && t.children.NoChildren? && e in t.entities
    requires |t.entities| < MAX_ENTITIES || !CanPartition(t.bounds)
    ensures AddEntity(t, e, boxOf).entities == t.entities + [e]
    ensures !NoDup(AddEntity(t, e, boxOf).entities)
  {
    var t' := t.(entities := t.entities + [e]);
    assert !NeedsPartition(t');
    assert !NeedsPartitionDeep(t');
    var i :| 0 <= i < |t.entities| && t.entities[i] == e;
    assert t'.entities[i] == t'.entities[|t.entities|];
  }
}
