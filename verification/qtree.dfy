/** The quadtree of entity hitboxes (`Leaf`). A leaf covers a rectangle; a
    terminal leaf holds a list of entity ids, a partitioned one holds four
    child leaves covering its quarters (in the order top-left, top-right,
    bottom-left, bottom-right, with y growing downwards). Adding entities
    splits a leaf as soon as it holds more than `MAX_ENTITIES` and is large
    enough; collapsing is deferred and done one partition per frame.

    Entities are ids; the hitbox of each id at the time of the call is given
    by a total function `boxOf`, the way the source reads `x1`..`y2` off the
    entity object. The back reference to the parent leaf is not kept: the
    model's trees are always handled from their root. */
module QTree {
  import opened Geometry
  import JsMath
  import opened Seqs

  type EntityId = nat

  /** The plugin parameters' defaults (`max entities`, `min Leaf size`). */
  const MAX_ENTITIES: nat := 2
  const MIN_LEAF_SIZE: real := 1.0

  datatype Leaf = Leaf(bounds: Box, entities: seq<EntityId>, children: Children)

  datatype Children =
    | NoChildren
    | Quad(c0: Leaf, c1: Leaf, c2: Leaf, c3: Leaf)

  /** The shorter side of a rectangle. */
  function MinSide(b: Box): real
  {
    JsMath.MinReal(b.x2 - b.x1, b.y2 - b.y1)
  }

  /** `_canPartition`: half the shorter side still exceeds the minimum size. */
  predicate CanPartition(b: Box)
  {
    MinSide(b) / 2.0 > MIN_LEAF_SIZE
  }

  function MidX(b: Box): real { b.x1 + (b.x2 - b.x1) / 2.0 }
  function MidY(b: Box): real { b.y1 + (b.y2 - b.y1) / 2.0 }

  /** The four quarters `partition` creates, in its order. */
  function Quadrant0(b: Box): Box { Box(b.x1, MidX(b), b.y1, MidY(b)) }
  function Quadrant1(b: Box): Box { Box(MidX(b), b.x2, b.y1, MidY(b)) }
  function Quadrant2(b: Box): Box { Box(b.x1, MidX(b), MidY(b), b.y2) }
  function Quadrant3(b: Box): Box { Box(MidX(b), b.x2, MidY(b), b.y2) }

  /** Four new, empty, terminal children covering the quarters of `b`. */
  function FreshQuad(b: Box): Children
  {
    Quad(Leaf(Quadrant0(b), [], NoChildren), Leaf(Quadrant1(b), [], NoChildren),
         Leaf(Quadrant2(b), [], NoChildren), Leaf(Quadrant3(b), [], NoChildren))
  }

  /** `shouldEntityBeHere`: the entity's box meets the leaf's rectangle, the
      leaf's right and bottom edges excluded, its left and top edges
      included. */
  predicate ShouldEntityBeHere(bounds: Box, e: Box)
  {
    !(bounds.x2 <= e.x1 || e.x2 < bounds.x1) && !(bounds.y2 <= e.y1 || e.y2 < bounds.y1)
  }

  /** The shape every tree the plugin builds keeps: a partitioned leaf holds
      no entities of its own, was large enough to split, and its children
      cover exactly its quarters. */
  predicate Valid(t: Leaf)
  {
    match t.children
    case NoChildren => true
    case Quad(c0, c1, c2, c3) =>
      && t.entities == []
      && CanPartition(t.bounds)
      && c0.bounds == Quadrant0(t.bounds) && c1.bounds == Quadrant1(t.bounds)
      && c2.bounds == Quadrant2(t.bounds) && c3.bounds == Quadrant3(t.bounds)
      && Valid(c0) && Valid(c1) && Valid(c2) && Valid(c3)
  }

  /** The ids in a list. */
  function Elems(s: seq<EntityId>): set<EntityId>
  {
    set x | x in s
  }

  /** The ids held by the terminal leaves. */
  function AllEntities(t: Leaf): set<EntityId>
  {
    match t.children
    case NoChildren => Elems(t.entities)
    case Quad(c0, c1, c2, c3) => AllEntities(c0) + AllEntities(c1) + AllEntities(c2) + AllEntities(c3)
  }

  /** The number of partitioned leaves. */
  function Splits(t: Leaf): nat
  {
    match t.children
    case NoChildren => 0
    case Quad(c0, c1, c2, c3) => 1 + Splits(c0) + Splits(c1) + Splits(c2) + Splits(c3)
  }

  /** `needsPartition`. */
  predicate NeedsPartition(t: Leaf)
  {
    CanPartition(t.bounds) && |t.entities| > MAX_ENTITIES
  }

  /** `needsPartitionDeepCheck`. */
  predicate NeedsPartitionDeep(t: Leaf)
  {
    match t.children
    case NoChildren => NeedsPartition(t)
    case Quad(c0, c1, c2, c3) =>
      NeedsPartitionDeep(c0) || NeedsPartitionDeep(c1) || NeedsPartitionDeep(c2) || NeedsPartitionDeep(c3)
  }

  // ---------------------------------------------------------------------
  // Termination measure: how many more times the shorter side can halve.

  function Halvings(side: real): nat
    decreases if side > 0.0 then side.Floor else 0
  {
    if side / 2.0 > MIN_LEAF_SIZE then
      assert side.Floor >= (side / 2.0).Floor + 1 by {
        assert side >= side / 2.0 + 1.0;
      }
      1 + Halvings(side / 2.0)
    else 0
  }

  function Rank(t: Leaf): nat
  {
    Halvings(MinSide(t.bounds))
  }

  /** Every child of a valid partitioned leaf can halve one time fewer. */
  lemma RankDecreases(t: Leaf)
    requires Valid(t) && t.children.Quad?
    ensures Rank(t.children.c0) < Rank(t) && Rank(t.children.c1) < Rank(t)
    ensures Rank(t.children.c2) < Rank(t) && Rank(t.children.c3) < Rank(t)
  {
    var b := t.bounds;
    var half := MinSide(b) / 2.0;
    assert MinSide(Quadrant0(b)) == half;
    assert MinSide(Quadrant1(b)) == half;
    assert MinSide(Quadrant2(b)) == half;
    assert MinSide(Quadrant3(b)) == half;
    assert Halvings(MinSide(b)) == 1 + Halvings(half);
  }

  // ---------------------------------------------------------------------
  // Adding: `addEntity`, `updatePartitions`, `partition` and the loop that
  // hands a split leaf's entities down to its new children.

  /** `addEntity`: a terminal leaf appends the id (even one it already holds)
      and splits as needed; a partitioned one passes it to every child whose
      rectangle the entity's box meets. */
  function AddEntity(t: Leaf, e: EntityId, boxOf: EntityId -> Box): (r: Leaf)
    requires Valid(t)
    ensures Valid(r) && r.bounds == t.bounds
    ensures t.children.Quad? ==> r.children.Quad?
    ensures AllEntities(r) <= AllEntities(t) + {e}
    ensures !NeedsPartitionDeep(t) ==> !NeedsPartitionDeep(r)
    decreases Rank(t), if t.children.Quad? then 0 else 1, 2, 0
  {
    match t.children
    case NoChildren =>
      UpdatePartitions(t.(entities := t.entities + [e]), boxOf)
    case Quad(c0, c1, c2, c3) =>
      RankDecreases(t);
      t.(children := Quad(AddToChild(c0, e, boxOf), AddToChild(c1, e, boxOf),
                          AddToChild(c2, e, boxOf), AddToChild(c3, e, boxOf)))
  }

  /** One child's share of `addEntity` on a partitioned leaf. */
  function AddToChild(c: Leaf, e: EntityId, boxOf: EntityId -> Box): (r: Leaf)
    requires Valid(c)
    ensures Valid(r) && r.bounds == c.bounds && (c.children.Quad? ==> r.children.Quad?)
    ensures AllEntities(r) <= AllEntities(c) + {e}
    ensures !NeedsPartitionDeep(c) ==> !NeedsPartitionDeep(r)
    decreases Rank(c), 2, 0, 0
  {
    if ShouldEntityBeHere(c.bounds, boxOf(e)) then AddEntity(c, e, boxOf) else c
  }

  /** `updatePartitions`: split this leaf while it needs it, else visit the
      children whose subtrees need a split. */
  function UpdatePartitions(t: Leaf, boxOf: EntityId -> Box): (r: Leaf)
    requires Valid(t)
    ensures Valid(r) && r.bounds == t.bounds
    ensures t.children.Quad? ==> r.children.Quad?
    ensures AllEntities(r) <= AllEntities(t)
    ensures !NeedsPartitionDeep(r)
    decreases Rank(t), if t.children.Quad? then 0 else 1, 1, 0
  {
    if NeedsPartition(t) then
      UpdatePartitions(Partition(t, boxOf), boxOf)
    else if NeedsPartitionDeep(t) then
      match t.children
      case NoChildren => t
      case Quad(c0, c1, c2, c3) =>
        RankDecreases(t);
        t.(children := Quad(UpdateChildPartitions(c0, boxOf), UpdateChildPartitions(c1, boxOf),
                            UpdateChildPartitions(c2, boxOf), UpdateChildPartitions(c3, boxOf)))
    else t
  }

  /** One child's share of `updatePartitions` on a partitioned leaf. */
  function UpdateChildPartitions(c: Leaf, boxOf: EntityId -> Box): (r: Leaf)
    requires Valid(c)
    ensures Valid(r) && r.bounds == c.bounds && (c.children.Quad? ==> r.children.Quad?)
    ensures AllEntities(r) <= AllEntities(c)
    ensures !NeedsPartitionDeep(r)
    decreases Rank(c), 2, 0, 0
  {
    if NeedsPartitionDeep(c) then UpdatePartitions(c, boxOf) else c
  }

  /** `partition`: a partitioned leaf is left alone; a terminal one gets four
      fresh children and its entities, popped from the end of its list, are
      added again through the now partitioned leaf. The source only calls it
      on a leaf that `needsPartition`, hence large enough to split. */
  function Partition(t: Leaf, boxOf: EntityId -> Box): (r: Leaf)
    requires Valid(t)
    requires t.children.Quad? || CanPartition(t.bounds)
    ensures Valid(r) && r.bounds == t.bounds && r.children.Quad?
    ensures AllEntities(r) <= AllEntities(t)
    ensures t.children.Quad? ==> r == t
    decreases Rank(t), if t.children.Quad? then 0 else 1, 0, 0
  {
    if t.children.Quad? then t
    else
      var emptied := Leaf(t.bounds, [], FreshQuad(t.bounds));
      assert AllEntities(emptied) == {};
      Redistribute(emptied, t.entities, boxOf)
  }

  /** The `while (this._entities.length) this.addEntity(this._entities.pop())`
      loop of `partition`. */
  function Redistribute(t: Leaf, pending: seq<EntityId>, boxOf: EntityId -> Box): (r: Leaf)
    requires Valid(t) && t.children.Quad?
    ensures Valid(r) && r.bounds == t.bounds && r.children.Quad?
    ensures AllEntities(r) <= AllEntities(t) + Elems(pending)
    decreases Rank(t), 0, 3, |pending|
  {
    if pending == [] then t
    else
      var last := pending[|pending| - 1];
      var rest := pending[..|pending| - 1];
      assert Elems(pending) == Elems(rest) + {last};
      Redistribute(AddEntity(t, last, boxOf), rest, boxOf)
  }

  // ---------------------------------------------------------------------
  // Removing and moving.

  /** `removeEntityHere`: drop every occurrence of `e` from the list. */
  function Without(s: seq<EntityId>, e: EntityId): (r: seq<EntityId>)
    ensures forall x :: x in r <==> x in s && x != e
    ensures |r| <= |s|
    ensures e !in s ==> r == s
    ensures NoDup(s) ==> NoDup(r)
  {
    if s == [] then []
    else
      var tail := Without(s[1..], e);
      if s[0] == e then tail
      else
        var r := [s[0]] + tail;
        assert NoDup(s) ==> NoDup(r) by {
          if NoDup(s) {
            assert s[0] !in s[1..];
            assert s[0] !in tail;
          }
        }
        assert e !in s ==> r == s by {
          if e !in s { assert s == [s[0]] + s[1..]; }
        }
        r
  }

  /** Some leaf of the tree, partitioned or not, lists `x`. */
  predicate Holds(t: Leaf, x: EntityId)
  {
    x in t.entities ||
    match t.children
    case NoChildren => false
    case Quad(c0, c1, c2, c3) => Holds(c0, x) || Holds(c1, x) || Holds(c2, x) || Holds(c3, x)
  }

  /** `removeEntity`: remove `e` from every leaf of the tree. */
  function RemoveEntity(t: Leaf, e: EntityId): (r: Leaf)
    ensures r.bounds == t.bounds && Splits(r) == Splits(t)
    ensures AllEntities(r) == AllEntities(t) - {e}
    ensures t.entities == [] ==> r.entities == []
    // No leaf at any depth keeps `e`; every other id stays wherever it was.
    ensures !Holds(r, e)
    ensures forall x :: x != e ==> (x in r.entities <==> x in t.entities)
    ensures forall x :: x != e ==> (Holds(r, x) <==> Holds(t, x))
  {
    var here := Without(t.entities, e);
    match t.children
    case NoChildren => t.(entities := here)
    case Quad(c0, c1, c2, c3) =>
      t.(entities := here,
         children := Quad(RemoveEntity(c0, e), RemoveEntity(c1, e), RemoveEntity(c2, e), RemoveEntity(c3, e)))
  }

  /** Removing an entity keeps the tree's shape invariant. */
  lemma {:induction false} RemoveEntityValid(t: Leaf, e: EntityId)
    requires Valid(t)
    ensures Valid(RemoveEntity(t, e))
  {
    match t.children
    case NoChildren =>
    case Quad(c0, c1, c2, c3) =>
      RemoveEntityValid(c0, e);
      RemoveEntityValid(c1, e);
      RemoveEntityValid(c2, e);
      RemoveEntityValid(c3, e);
      SameShapeValid(t, RemoveEntity(t, e));
  }

  /** Replacing the children of a valid partitioned leaf by valid leaves
      over the same rectangles, its own list still empty, keeps it valid. */
  lemma SameShapeValid(t: Leaf, r: Leaf)
    requires Valid(t) && t.children.Quad? && r.children.Quad?
    requires r.bounds == t.bounds && r.entities == []
    requires r.children.c0.bounds == t.children.c0.bounds && Valid(r.children.c0)
    requires r.children.c1.bounds == t.children.c1.bounds && Valid(r.children.c1)
    requires r.children.c2.bounds == t.children.c2.bounds && Valid(r.children.c2)
    requires r.children.c3.bounds == t.children.c3.bounds && Valid(r.children.c3)
    ensures Valid(r)
  {
  }

  /** `updateEntity`: after `e` has moved, every terminal leaf drops it if
      the entity's box no longer meets the leaf and adds it if the box now
      does. */
  function UpdateEntity(t: Leaf, e: EntityId, boxOf: EntityId -> Box): (r: Leaf)
    requires Valid(t)
    ensures Valid(r) && r.bounds == t.bounds
    decreases t
  {
    match t.children
    case NoChildren =>
      var should := ShouldEntityBeHere(t.bounds, boxOf(e));
      if e in t.entities && !should then
        t.(entities := Without(t.entities, e))
      else if e !in t.entities && should then
        AddEntity(t, e, boxOf)
      else t
    case Quad(c0, c1, c2, c3) =>
      t.(children := Quad(UpdateEntity(c0, e, boxOf), UpdateEntity(c1, e, boxOf),
                          UpdateEntity(c2, e, boxOf), UpdateEntity(c3, e, boxOf)))
  }

  // ---------------------------------------------------------------------
  // Collapsing.

  /** `needsCollapse`: a partitioned leaf whose children are all terminal and
      whose subtree holds at most `MAX_ENTITIES` distinct ids. */
  predicate NeedsCollapse(t: Leaf)
  {
    match t.children
    case NoChildren => false
    case Quad(c0, c1, c2, c3) =>
      && EntityCountDeep(t) <= MAX_ENTITIES
      && !(c0.children.Quad? || c1.children.Quad? || c2.children.Quad? || c3.children.Quad?)
  }

  /** `needsCollapseDeepCheck`. */
  predicate NeedsCollapseDeep(t: Leaf)
  {
    if NeedsCollapse(t) then true
    else match t.children
      case NoChildren => false
      case Quad(c0, c1, c2, c3) =>
        NeedsCollapseDeep(c0) || NeedsCollapseDeep(c1) || NeedsCollapseDeep(c2) || NeedsCollapseDeep(c3)
  }

  /** `collapse`: a partitioned leaf takes its children's ids, skipping ones
      it already has, and becomes terminal. */
  function Collapse(t: Leaf): (r: Leaf)
    ensures r.bounds == t.bounds && r.children.NoChildren?
    ensures t.children.NoChildren? ==> r == t
    ensures t.children.Quad? ==> forall x :: x in r.entities <==>
      x in t.entities || x in t.children.c0.entities || x in t.children.c1.entities
        || x in t.children.c2.entities || x in t.children.c3.entities
    ensures NoDup(t.entities) ==> NoDup(r.entities)
  {
    match t.children
    case NoChildren => t
    case Quad(c0, c1, c2, c3) =>
      var adopted := AppendNew(AppendNew(AppendNew(AppendNew(t.entities, c0.entities), c1.entities), c2.entities), c3.entities);
      Leaf(t.bounds, adopted, NoChildren)
  }

  /** `a` is a prefix of `b`. */
  predicate Prefix(a: seq<EntityId>, b: seq<EntityId>)
  {
    |a| <= |b| && b[..|a|] == a
  }

  lemma PrefixTransitive(a: seq<EntityId>, b: seq<EntityId>, c: seq<EntityId>)
    requires Prefix(a, b) && Prefix(b, c)
    ensures Prefix(a, c)
  {
    assert c[..|a|] == c[..|b|][..|a|];
  }

  /** `list.includes(x) || list.push(x)` for each `x` of `s` in turn. */
  function AppendNew(list: seq<EntityId>, s: seq<EntityId>): (r: seq<EntityId>)
    ensures forall x :: x in r <==> x in list || x in s
    ensures Prefix(list, r)
    ensures NoDup(list) ==> NoDup(r)
    decreases |s|
  {
    if s == [] then list
    else
      var next := if s[0] in list then list else list + [s[0]];
      var r := AppendNew(next, s[1..]);
      PrefixTransitive(list, next, r);
      assert forall x :: x in s <==> x == s[0] || x in s[1..];
      r
  }

  /** `updateCollapses`: collapse this leaf if it needs it, or else go down
      into the first child whose subtree needs a collapse. At most one
      partition disappears per call. */
  function UpdateCollapses(t: Leaf): (r: Leaf)
    requires Valid(t)
    ensures Valid(r) && r.bounds == t.bounds
    ensures NeedsCollapseDeep(t) ==> Splits(r) + 1 == Splits(t)
    ensures !NeedsCollapseDeep(t) ==> r == t
  {
    if NeedsCollapse(t) then
      assert Splits(t) == 1;
      Collapse(t)
    else
      match t.children
      case NoChildren => t
      case Quad(c0, c1, c2, c3) =>
        if NeedsCollapseDeep(c0) then t.(children := Quad(UpdateCollapses(c0), c1, c2, c3))
        else if NeedsCollapseDeep(c1) then t.(children := Quad(c0, UpdateCollapses(c1), c2, c3))
        else if NeedsCollapseDeep(c2) then t.(children := Quad(c0, c1, UpdateCollapses(c2), c3))
        else if NeedsCollapseDeep(c3) then t.(children := Quad(c0, c1, c2, UpdateCollapses(c3)))
        else t
  }

  // ---------------------------------------------------------------------
  // Listing and querying.

  /** The ids `entityListDeep` reaches: a leaf's own list when it is not
      empty, else its children's. */
  predicate Listed(t: Leaf, x: EntityId)
  {
    if |t.entities| > 0 then x in t.entities
    else match t.children
      case NoChildren => false
      case Quad(c0, c1, c2, c3) => Listed(c0, x) || Listed(c1, x) || Listed(c2, x) || Listed(c3, x)
  }

  /** `entityListDeep`: append to `list` the ids of the tree not yet in it. */
  function EntityListDeep(t: Leaf, list: seq<EntityId>): (r: seq<EntityId>)
    ensures Prefix(list, r)
    ensures forall x :: x in r <==> x in list || Listed(t, x)
    ensures NoDup(list) ==> NoDup(r)
  {
    if |t.entities| > 0 then AppendNew(list, t.entities)
    else match t.children
      case NoChildren => list
      case Quad(c0, c1, c2, c3) =>
        var l0 := EntityListDeep(c0, list);
        var l1 := EntityListDeep(c1, l0);
        var l2 := EntityListDeep(c2, l1);
        var l3 := EntityListDeep(c3, l2);
        PrefixTransitive(list, l0, l1);
        PrefixTransitive(list, l1, l2);
        PrefixTransitive(list, l2, l3);
        l3
  }

  /** `entityCountDeep`: the length of the deduplicated list. */
  function EntityCountDeep(t: Leaf): nat
  {
    |EntityListDeep(t, [])|
  }

  /** The source's overlap test for queries, all four edges included. */
  predicate OverlapsClosed(bounds: Box, q: Box)
  {
    !(bounds.x1 > q.x2 || q.x1 > bounds.x2 || bounds.y1 > q.y2 || q.y1 > bounds.y2)
  }

  /** The ids `entitiesInBoundingBox` reaches. */
  predicate Reached(t: Leaf, q: Box, x: EntityId)
  {
    if !OverlapsClosed(t.bounds, q) then false
    else if |t.entities| > 0 then x in t.entities
    else match t.children
      case NoChildren => false
      case Quad(c0, c1, c2, c3) => Reached(c0, q, x) || Reached(c1, q, x) || Reached(c2, q, x) || Reached(c3, q, x)
  }

  /** `entities.filter(e => !acc.includes(e)).forEach(e => acc.push(e))`:
      the filter runs against `acc` before anything is pushed. */
  function AppendAbsent(acc: seq<EntityId>, s: seq<EntityId>): (r: seq<EntityId>)
    ensures forall x :: x in r <==> x in acc || x in s
    ensures Prefix(acc, r)
    ensures NoDup(acc) && NoDup(s) ==> NoDup(r)
  {
    var extra := Absent(acc, s);
    var r := acc + extra;
    assert r[..|acc|] == acc;
    assert NoDup(acc) && NoDup(s) ==> NoDup(r) by {
      if NoDup(acc) && NoDup(s) { NoDupConcat(acc, extra); }
    }
    r
  }

  /** The elements of `s` that are not in `acc`, in order. */
  function Absent(acc: seq<EntityId>, s: seq<EntityId>): (r: seq<EntityId>)
    ensures forall x :: x in r <==> x in s && x !in acc
    ensures NoDup(s) ==> NoDup(r)
  {
    if s == [] then []
    else
      var tail := Absent(acc, s[1..]);
      if s[0] in acc then tail
      else
        var r := [s[0]] + tail;
        assert NoDup(s) ==> NoDup(r) by {
          if NoDup(s) {
            assert s[0] !in s[1..];
            assert s[0] !in tail;
          }
        }
        r
  }

  /** `entitiesInBoundingBox`: the ids of the leaves whose rectangle meets
      the query box, each appended to `acc` unless already there. */
  function EntitiesInBoundingBox(t: Leaf, acc: seq<EntityId>, q: Box): (r: seq<EntityId>)
    ensures Prefix(acc, r)
    ensures forall x :: x in r <==> x in acc || Reached(t, q, x)
    ensures NoDup(acc) && LeavesNoDup(t) ==> NoDup(r)
  {
    if !OverlapsClosed(t.bounds, q) then acc
    else if |t.entities| > 0 then AppendAbsent(acc, t.entities)
    else match t.children
      case NoChildren => acc
      case Quad(c0, c1, c2, c3) =>
        var a0 := EntitiesInBoundingBox(c0, acc, q);
        var a1 := EntitiesInBoundingBox(c1, a0, q);
        var a2 := EntitiesInBoundingBox(c2, a1, q);
        var a3 := EntitiesInBoundingBox(c3, a2, q);
        PrefixTransitive(acc, a0, a1);
        PrefixTransitive(acc, a1, a2);
        PrefixTransitive(acc, a2, a3);
        a3
  }

  /** No leaf lists an id twice. */
  predicate LeavesNoDup(t: Leaf)
  {
    NoDup(t.entities) &&
    match t.children
    case NoChildren => true
    case Quad(c0, c1, c2, c3) => LeavesNoDup(c0) && LeavesNoDup(c1) && LeavesNoDup(c2) && LeavesNoDup(c3)
  }
}
