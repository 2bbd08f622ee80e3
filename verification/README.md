# Free movement core, modelled in Dafny

This project models the logic core of an RPG Maker MV plugin called "free movement". The plugin replaces tile-by-tile walking with continuous motion: characters carry a mass, forces and momentum, and they move by fractions of a tile each frame. The model states and proves properties about five parts of the plugin:

- **Adaptive quadtree** (`QTree`, `QTreeFacts`, `QTreeNoDup`). A `Leaf` holds entity ids in its terminal leaves. It splits eagerly when a leaf holds more than `MAX_ENTITIES` (2) and is large enough (half its shorter side exceeds `MIN_LEAF_SIZE`, 1). It collapses lazily, at most one partition per frame. It re-places moved entities, removes entities, and answers de-duplicated box queries. Entity boxes are supplied as a function from ids to boxes. Each split halves the shorter side, and termination rests on how many halvings remain.
- **Tile collision geometry** (`TileMap`, `TileTrim`, `CollisionGrid`):
  - classify the tiles that cannot be left in any direction;
  - merge them greedily into rectangles, then trim overlapping columns;
  - add one-way border segments for partly passable tiles;
  - bucket every object into a per-cell grid, and answer box queries from that grid.
  The four-flag passability grid is an input. Objects are identified by their position in the list, as the plugin identifies them by object identity.
- **Character motion step** (`Character`):
  - force accumulation and reset;
  - friction that never reverses motion;
  - gravity while airborne, and the ground clamp on height;
  - momentum bookkeeping;
  - the 8-way to 4-way facing state machine.
- **Collision vector algebra** (`Vectors` for two-component arrays, `Vector3D` for the `Vector` class):
  - the one-dimensional elastic collision, which conserves momentum and energy;
  - reflections;
  - the tile response;
  - the two-body response along the line between centres, which conserves momentum and keeps perpendicular components.
- **Scalar and direction helpers** (`NumberExt`, `Utils`, `Directions`, `Hitbox`, `Constants`, `JsMath`):
  - the `Number.prototype` extensions;
  - the two rounding helpers;
  - the clamp;
  - the direction predicates over the keypad codes 1-9;
  - the probe rectangle in front of a character.

Numbers are exact reals. JavaScript's `Math.round(y)` is `Floor(y + 1/2)`, and `Math.sign` is written out. `Seqs` and `Geometry` hold the shared duplicate-free predicate and the real-valued box.

Some behaviours of the code that the model keeps as written:

- Adding an entity id to a terminal leaf that already holds it lists the id twice, unless the leaf then splits, so `add` is not idempotent (`QTreeFacts.AddEntityRepeats`).
- A character is grounded only at a height of exactly zero (`Game_CharacterBase.js:170-172`).
- A velocity is the acceleration rounded to four decimals. The momentum enters only through the acceleration (`Game_CharacterBase.js:24-41`).
- Collisions are perfectly elastic: there is no restitution factor. Nothing checks a character's mass; every character the plugin builds has mass 1, and the model requires `mass > 0`.

## Model

| member | source | states |
|---|---|---|
| NumberExt.Abs | src/rpg_core/Number.js:1-3 | the absolute value is never negative and is the number or its negation |
| NumberExt.AbsEven | src/rpg_core/Number.js:1-3 | a number and its negation have the same absolute value |
| NumberExt.Round | src/rpg_core/Number.js:5-7 | the result is zero or has the sign of the input, is a multiple of 1/10000, and lies within 1/20000 of the input, an exact half going away from zero |
| NumberExt.RoundOdd | src/rpg_core/Number.js:5-7 | rounding is symmetric about zero: round(-x) = -round(x) |
| NumberExt.SubtractMagnitude | src/rpg_core/Number.js:9-13 | zero stays zero; otherwise the magnitude drops by the amount with the sign kept, and the sign never flips while the amount is at most the magnitude |
| NumberExt.SubtractMagnitudeOdd | src/rpg_core/Number.js:9-13 | subtracting a magnitude commutes with negation |
| Utils.Round | src/utils.js:4 | the result is a multiple of 1/1000 within 1/2000 of the input, halves rounded up |
| Utils.RoundKeepsSign | src/utils.js:4 | rounding never moves a non-negative value below zero or a non-positive one above |
| Utils.SubtractScalar | src/utils.js:6-10 | zero stays zero; otherwise it is the magnitude reduced by the amount and rounded to 1/1000; it keeps the input's sign while the amount is at most the magnitude, and never keeps it once the amount is larger |
| Utils.LimitScalar | src/utils.js:12-15 | with a non-negative limit the magnitude is at most the limit, a value beyond it comes back with magnitude exactly the limit, a value within it is unchanged, and the sign never flips |
| Utils.LimitScalarIdempotent | src/utils.js:12-15 | limiting twice to the same limit equals limiting once |
| Utils.DirectionPredicateFacts | src/utils.js:17-39 | left and right exclude each other, as do up and down; isVert holds exactly for LEFT and RIGHT and implies isHorz, which is everything except DOWN and UP |
| Directions.AgreesWithUtils | src/utils/directions.js:3-25 | the duplicated direction predicates agree with the top-level helpers on every integer |
| Directions.ComponentFacts | src/utils/directions.js:3-25 | opposite components exclude each other; a value has some component exactly when it is one of the eight codes; isHorz and isVert describe the sets written in the source |
| Directions.IsDiagonal | src/utils/directions.js:27-29 | true for every value outside the four cardinal codes; characterised by `Directions.DiagonalFacts` |
| Directions.DiagonalFacts | src/utils/directions.js:27-29 | on the eight codes a diagonal has both a horizontal and a vertical component; every non-cardinal value, out-of-range ones included, counts as diagonal |
| Hitbox.RectangleHitbox | src/utils/Hitbox.js:9-38 | a strip exists exactly for the four cardinal directions, and any other direction is the error case; the strip is well formed for a well-formed body, shares the facing edge, spans the body's other axis, and is abs(distance) deep |
| Hitbox.HitboxDepth | src/utils/Hitbox.js:10-35 | the sign of the distance is ignored, and a deeper strip contains a shallower one |
| Hitbox.HitboxOutsideCharacter | src/utils/Hitbox.js:12-35 | the strip never overlaps the interior of the character's box |
| Vectors.DotProduct | src/utils/vectors.js:2 | the reduce over the first vector's indices; characterised by `Vectors.DotProductSymmetric`, `DotProductPrefix`, `DotProductSelfNonNegative` and `DotProductScales` |
| Vectors.VectorMultiply | src/utils/vectors.js:3 | the same length, with each component times the scalar; it scales a dot product by the scalar (`Vectors.DotProductScales`) |
| Vectors.DotProductSymmetric | src/utils/vectors.js:2 | the fold-based dot product of equal-length vectors is symmetric |
| Vectors.DotProductPrefix | src/utils/vectors.js:2 | only the first len(a) components of the second vector matter |
| Vectors.DotProductSelfNonNegative | src/utils/vectors.js:2 | a vector's dot product with itself is never negative |
| Vectors.DotProductScales | src/utils/vectors.js:2-3 | scaling the second vector with vectorMultiply scales the dot product by the same factor |
| Vectors.ReflectX | src/utils/vectors.js:12 | a two-component vector with x negated and y kept |
| Vectors.ReflectY | src/utils/vectors.js:13 | a two-component vector with x kept and y negated |
| Vectors.ReflectionFacts | src/utils/vectors.js:12-13 | each reflection is an involution, negates exactly one component, and keeps the squared length |
| Vectors.CollisionFinalVectors | src/utils/vectors.js:21-28 | momentum is conserved (m1 v1 + m2 v2 = m1 v1f + m2 v2f) and the relative velocity reverses (v1 + v1f = v2 + v2f) |
| Vectors.CollisionFinalVectorsUnique | src/utils/vectors.js:21-28 | any pair of final velocities that conserves momentum and reverses the relative velocity is the pair the formula returns |
| Vectors.CollisionConservesEnergy | src/utils/vectors.js:21-28 | m1 v1² + m2 v2² = m1 v1f² + m2 v2f² |
| Vectors.ElasticCollisionVectors | src/utils/vectors.js:30-37 | two-component results; on each axis separately, momentum is conserved and the relative velocity reverses |
| Vectors.TileCollidingVector | src/utils/vectors.js:43-44 | against a tile, an x-collision keeps x and negates y, and any other collision negates x and keeps y (the crossed mapping as written) |
| Vectors.TileCollidingVectorFacts | src/utils/vectors.js:43-44 | bouncing twice off the same tile edge restores the velocity, and a bounce keeps the squared speed |
| Vectors.GetTargetMassAndVector | src/utils/vectors.js:52-66 | a tile is mass 1000000 at rest; a character contributes its own mass and a velocity that, multiplied by that mass, gives back its momentum |
| Vectors.TileCollisionVectors | src/utils/vectors.js:68-74 | against a tile, which starts at rest with mass 1000000, momentum is conserved on both axes, and on each axis the reflected velocity plus the subject's final velocity is the tile's final velocity |
| Vectors.ElasticAgainstRest | src/utils/vectors.js:30-37 | against a target at rest, momentum is conserved on both axes and the subject's velocity before plus after equals the target's velocity after |
| Vectors.SubtractScalar | src/utils/vectors.js:76-80 | zero stays zero; otherwise the magnitude drops by the amount with the sign kept, and the sign never flips while the amount is at most the magnitude |
| Vectors.SubtractScalarOdd | src/utils/vectors.js:76-80 | the unrounded subtractScalar is odd in the scalar |
| Vector3D.InverseOperations | src/utils/Vector.js:62-76 | adding and subtracting the same vector cancel in either order, and so do multiplying and dividing by the same non-zero scalar (division at lines 82-84) |
| Vector3D.EqualsIsEquality | src/utils/Vector.js:86-88 | equals holds exactly when all three components are equal |
| Vector3D.PlanarIdempotent | src/utils/Vector.js:78-80 | planar is idempotent and keeps only the x and y contribution to the squared length |
| Vector3D.SubtractMagnitudeOdd | src/utils/Vector.js:70-72 | componentwise magnitude subtraction commutes with negation and keeps the zero vector at zero |
| Vector3D.DotFacts | src/utils/Vector.js:90-92 | dot is symmetric, and a vector's dot product with itself is not negative |
| Vector3D.DotLinear | src/utils/Vector.js:90-92 | dot is linear in its first argument under subtract, add and multiply |
| Vector3D.Projection | src/utils/Vector.js:54-56 | the projection onto b is parallel to b (every pairwise cross term vanishes) |
| Vector3D.ProjectionFacts | src/utils/Vector.js:54-56 | the remainder after projecting is perpendicular to b; projecting twice equals projecting once; b projects onto itself |
| Vector3D.GetTileCollisionResult | src/utils/Vector.js:1-6 | one vector; on an x-collision (an x-edge within 0.0001 of the tile's opposite x-edge) x is negated, otherwise y; z is kept |
| Vector3D.TileCollisionResultFacts | src/utils/Vector.js:1-6 | bouncing twice off the same tile restores the velocity, and a bounce keeps the speed |
| Vector3D.FinalVectorForElasticCollision | src/utils/Vector.js:8-13 | every component perpendicular to the line between the centres is unchanged |
| Vector3D.ImpulseBalance | src/utils/Vector.js:8-13 | the two bodies' impulse scales, weighted by their masses, are equal |
| Vector3D.GetCharCollisionResult | src/utils/Vector.js:15-26 | two results, each keeping its body's z velocity, because the centres are planar |
| Vector3D.CharCollisionConservesMomentum | src/utils/Vector.js:15-26 | total momentum m1 v1 + m2 v2 is the same before and after |
| Vector3D.CharCollisionReversesApproach | src/utils/Vector.js:8-26 | along the line d between the centres the relative velocity reverses: (v1' - v2') . d = -((v1 - v2) . d) |
| Vector3D.CharCollisionKeepsPerpendicular | src/utils/Vector.js:15-26 | both bodies keep every velocity component perpendicular to the line between the centres |
| Character.FrictionalAcceleration | src/rpg_objects/Game_CharacterBase.js:24-38 | the planar acceleration is zero or has the sign of momentum plus force; it is zero when friction (mass times 0.01) absorbs the push, non-zero when the push clearly exceeds friction, and then times the mass gives back exactly the rounded push less friction |
| Character.FrictionalAccelerationApprox | src/rpg_objects/Game_CharacterBase.js:24-38 | a non-zero acceleration times the mass is the push less friction to within 1/2000 |
| Character.InitMembers | src/rpg_objects/Game_CharacterBase.js:47-57 | a new character has unit mass and is grounded, with no force and no momentum, and its heading equals its facing |
| Character.SetForces | src/rpg_objects/Game_CharacterBase.js:59-63 | all three forces become zero and nothing else changes |
| Character.ApplyForce | src/rpg_objects/Game_CharacterBase.js:65-69 | each force grows by the applied amount and nothing else changes |
| Character.ForcesCompose | src/rpg_objects/Game_CharacterBase.js:59-69 | two applications equal one application of the sum, and clearing after applying equals clearing |
| Character.SetMomentum | src/rpg_objects/Game_CharacterBase.js:104-108 | momentum over mass gives back the velocity on every axis, and nothing else changes |
| Character.ApplyGravitationalForce | src/rpg_objects/Game_CharacterBase.js:75-78 | only above the ground, forceZ drops by the weight (mass times 0.01); at or below the ground nothing changes |
| Character.Move | src/rpg_objects/Game_CharacterBase.js:88-98 | x moves by vx; y plus z moves by vy; z moves by vz unless that would go below zero, in which case it lands at zero; momentum is mass times (vx, vy, the z step actually taken) |
| Character.UpdateMove | src/rpg_objects/Game_CharacterBase.js:88-102 | the same for the character's own rounded velocities; a character at or above the ground stays there; mass, forces and facing are unchanged |
| Character.Update | src/rpg_objects/Game_CharacterBase.js:80-86 | after a frame the forces are zero, the character is never below the ground if it started on or above it, and mass and facing are kept |
| Character.RestIsStable | src/rpg_objects/Game_CharacterBase.js:80-108 | a grounded character with no force and no momentum is not moving, and a frame leaves it exactly as it was |
| Character.AirborneFalls | src/rpg_objects/Game_CharacterBase.js:75-98 | a character in the air with no vertical push drops by 0.01 per frame, or lands at zero, and gains downward momentum |
| Character.MovementStatus | src/rpg_objects/Game_CharacterBase.js:24-43 | a character whose planar pushes friction absorbs and with no vertical push is not moving (isMoving, lines 71-73); a planar velocity needs a push beyond friction; a character that can move and is not pushed upward can still move after a frame (canMove, lines 170-176) |
| Character.UpdateDirection | src/rpg_objects/Game_CharacterBase.js:141-168 | repeating the heading changes nothing; otherwise the heading becomes the new one, a non-cardinal facing is kept, a cardinal facing stays cardinal, and only the facing and the heading change |
| Character.UpdateDirectionFollowsHeading | src/rpg_objects/Game_CharacterBase.js:141-168 | for a new heading among the eight codes, a cardinal facing ends up on a component of it: the heading itself if cardinal, and on a diagonal always a turn |
| Character.UpdateDirectionPriority | src/rpg_objects/Game_CharacterBase.js:141-168 | on a change of heading a cardinal facing turns to the opposite direction when the heading has it as a component, else to the heading's other component, and stays put when the heading has no component besides the facing |
| Character.UpdateDirectionIdempotent | src/rpg_objects/Game_CharacterBase.js:141-168 | updating twice with the same heading equals updating once |
| QTree.ShouldEntityBeHere | src/q-tree/index.js:71-73 | overlap with the leaf's right and bottom edges excluded; a box meets a splittable leaf exactly when it meets one of its quarters (`QTreeFacts.QuadrantsCover`) |
| QTree.NeedsPartition | src/q-tree/index.js:156-159 | a leaf large enough to split holding more than MAX_ENTITIES ids; `QTree.UpdatePartitions` leaves no leaf for which it holds |
| QTree.NeedsPartitionDeep | src/q-tree/index.js:147-154 | some terminal leaf needs a split; false after `QTree.UpdatePartitions` and `QTree.AddEntity` |
| QTree.RankDecreases | src/q-tree/index.js:119-128 | each child of a split leaf can halve one time fewer than its parent, which bounds the splitting |
| QTree.AddEntity | src/q-tree/index.js:31-40 | the tree stays valid (a partitioned leaf lists nothing itself, and its children tile its quarters); a partitioned root stays partitioned; no id other than the new one appears; no leaf is left needing a split |
| QTree.UpdatePartitions | src/q-tree/index.js:91-100 | afterwards no leaf needs a split; validity is kept and no id appears |
| QTree.Partition | src/q-tree/index.js:119-132 | a partitioned leaf is unchanged; otherwise the result is partitioned into the four quarters, the leaf's own list is empty, and no id appears |
| QTree.Redistribute | src/q-tree/index.js:131 | handing the popped entities down keeps the tree valid and adds only those ids |
| QTree.Without | src/q-tree/index.js:67-69 | exactly the other ids remain, none appear, and a duplicate-free list stays duplicate-free |
| QTree.RemoveEntity | src/q-tree/index.js:60-65 | no leaf at any depth keeps the id; every other id stays in exactly the leaves it was in; the rectangles and the number of partitions are unchanged |
| QTree.RemoveEntityValid | src/q-tree/index.js:60-65 | removal keeps a well-formed tree well-formed |
| QTree.UpdateEntity | src/q-tree/index.js:45-55 | the tree stays valid and keeps its bounds |
| QTree.NeedsCollapse | src/q-tree/index.js:172-176 | a partitioned leaf with only terminal children and at most MAX_ENTITIES distinct ids; `QTreeFacts.CollapsePlaces` shows collapsing it keeps every placement |
| QTree.NeedsCollapseDeep | src/q-tree/index.js:161-170 | some subtree needs a collapse; exactly then `QTree.UpdateCollapses` removes one partition |
| QTree.Collapse | src/q-tree/index.js:135-145 | the result is terminal; its list is exactly the union of its own and its children's lists, without duplicates when its own list had none |
| QTree.AppendNew | src/q-tree/index.js:140 | appending only absent ids extends the list, yields the union, and keeps it duplicate-free |
| QTree.UpdateCollapses | src/q-tree/index.js:110-116 | exactly one partition disappears when some subtree needs a collapse, and nothing changes otherwise |
| QTree.EntityListDeep | src/q-tree/index.js:187-193 | extends the list with exactly the ids reached, never adding one already present |
| QTree.EntityCountDeep | src/q-tree/index.js:178-183 | the number of distinct ids in the tree (`QTreeFacts.EntityCountDeepIsSize`) |
| QTree.AppendAbsent | src/q-tree/index.js:206-208 | the filter-then-push keeps the accumulator as a prefix, yields the union, and adds no duplicates |
| QTree.EntitiesInBoundingBox | src/q-tree/index.js:201-213 | extends the accumulator with exactly the ids of the leaves it reaches; the result has no duplicates when neither the accumulator nor any leaf list has any |
| QTreeFacts.QuadrantsCover | src/q-tree/index.js:71-73 | a box meets a splittable leaf exactly when it meets one of its four quarters |
| QTreeFacts.CompleteFinds | src/q-tree/index.js:71-73 | in a valid tree, an id listed in every leaf its box meets is held somewhere when the box meets the root |
| QTreeFacts.AddEntityPlaces | src/q-tree/index.js:31-40 | after adding, the new entity is in every terminal leaf its box meets; every other entity stays in every leaf its box meets and in no leaf its box misses, and so does the new one when its box meets the root |
| QTreeFacts.UpdatePartitionsPlaces | src/q-tree/index.js:91-100 | splitting keeps each entity in every terminal leaf its box meets and out of every leaf it misses, when that held before |
| QTreeFacts.PartitionPlaces | src/q-tree/index.js:119-132 | a single split keeps each entity in every terminal leaf its box meets and out of every leaf it misses, when that held before |
| QTreeFacts.RedistributePlaces | src/q-tree/index.js:131 | handing the popped entities down puts each in every terminal leaf its box meets; an entity whose box meets the leaf is in no terminal leaf its box misses |
| QTreeFacts.UpdateEntityPlaces | src/q-tree/index.js:45-55 | after a move, the entity is in a terminal leaf exactly when its box meets the leaf; the placement of every other entity is kept |
| QTreeFacts.RemoveEntityPlaces | src/q-tree/index.js:60-65 | removing one entity keeps the placement of every other |
| QTreeFacts.UpdateCollapsesPlaces | src/q-tree/index.js:110-116 | the deferred collapse keeps the set of entities and the placement of every entity |
| QTreeFacts.CollapsePlaces | src/q-tree/index.js:135-145 | a collapse keeps the set of entities and the placement of every entity |
| QTreeFacts.ListedIsAll | src/q-tree/index.js:187-193 | the ids entityListDeep reaches are exactly the ids in the terminal leaves |
| QTreeFacts.EntityCountDeepIsSize | src/q-tree/index.js:179-183 | entityCountDeep is the number of distinct ids in the tree |
| QTreeFacts.QueryIsLeafHits | src/q-tree/index.js:201-213 | a query returns exactly the ids of the terminal leaves whose closed rectangle meets the box |
| QTreeFacts.QueryFindsContained | src/q-tree/index.js:201-213 | an entity placed in every leaf its box meets is found by any query box containing its box |
| QTreeFacts.AddEntityRepeats | src/q-tree/index.js:31-40 | adding an id to a terminal leaf that already holds it, when the leaf will not split, appends it again, so the list is no longer duplicate-free |
| QTreeNoDup.AddEntityNoDup | src/q-tree/index.js:31-40 | adding an id the tree does not hold keeps every leaf's list duplicate-free |
| QTreeNoDup.UpdatePartitionsNoDup | src/q-tree/index.js:91-100 | splitting keeps every leaf's list duplicate-free |
| QTreeNoDup.PartitionNoDup | src/q-tree/index.js:119-132 | a single split keeps every leaf's list duplicate-free |
| QTreeNoDup.UpdateEntityNoDup | src/q-tree/index.js:45-55 | a move re-placement keeps every leaf's list duplicate-free, because it adds only where the id is absent |
| QTreeNoDup.RemoveEntityNoDup | src/q-tree/index.js:60-69 | removal keeps every leaf's list duplicate-free |
| QTreeNoDup.UpdateCollapsesNoDup | src/q-tree/index.js:110-116 | the deferred collapse keeps every leaf's list duplicate-free |
| TileMap.ClassifyRow | src/rpg_objects/Game_Map.js:192-197 | every entry is 0 or 1, and it is 1 exactly when the tile cannot be left in any direction |
| TileMap.Classify | src/rpg_objects/Game_Map.js:189-198 | the grid keeps its shape, and a cell is 1 exactly when its tile cannot be left in any direction |
| TileMap.RowEnd | src/rpg_objects/Game_Map.js:71-78 | the first column from x that is off the map or passable; every cell before it is a collision cell |
| TileMap.SpanEnd | src/rpg_objects/Game_Map.js:69-80 | the first row that does not stop at the same column as the first row |
| TileMap.GrownCells | src/rpg_objects/Game_Map.js:61-80 | a rectangle grown from a collision cell is non-empty, lies on the map, and covers collision cells only |
| TileMap.SpanObject | src/rpg_objects/Game_Map.js:61-80 | the labelled spanning loop produces exactly the grown rectangle |
| TileMap.Mark | src/rpg_objects/Game_Map.js:84-89 | every cell inside the rectangle becomes 2, and every other cell is unchanged |
| TileMap.ScanStep | src/rpg_objects/Game_Map.js:59-91 | one step of the scan keeps the scan invariant and covers the cell it started from |
| TileMap.GetTileCollisionObjects | src/rpg_objects/Game_Map.js:54-96 | every rectangle is non-empty, on the map, and over collision cells only; every collision cell is covered; each rectangle covers a collision cell no earlier one covers |
| TileTrim.ColumnScan | src/rpg_objects/Game_Map.js:104-117 | the inner scan reports true exactly when every remaining cell of the column lies in another object |
| TileTrim.OverlappedCountFull | src/rpg_objects/Game_Map.js:119-123 | a run of columns whose overlapped count equals its width consists of fully overlapped columns only |
| TileTrim.TrimObject | src/rpg_objects/Game_Map.js:101-133 | rows are kept; the columns shrink inward from at most one side; every column cut away was covered entirely by other objects |
| TileTrim.TrimKeepsCoverage | src/rpg_objects/Game_Map.js:124-131 | replacing an object by a copy that loses only overlapped columns covers exactly the same cells |
| TileTrim.TrimObjects | src/rpg_objects/Game_Map.js:100-136 | the same number of objects; y1 and y2 are kept, x1 never decreases and x2 never increases, with x1 at most x2; exactly the same cells are covered |
| CollisionGrid.Edge | src/rpg_objects/Game_Map.js:152-181 | a border is a side of the tile's unit square: down at y+1, up at y, left at x, right at x+1; down and up borders are one tile wide and flat, left and right ones one tile high and thin |
| CollisionGrid.TileBorders | src/rpg_objects/Game_Map.js:143-182 | a tile closed on all sides gives nothing; otherwise it gives exactly the edges in the directions it cannot be left through, at most three |
| CollisionGrid.TileBordersNoDup | src/rpg_objects/Game_Map.js:143-182 | a tile lists each of its borders once |
| CollisionGrid.RowBordersMembers | src/rpg_objects/Game_Map.js:142-183 | a segment is in a row's list exactly when it is a border of one of the row's tiles |
| CollisionGrid.BorderObjects | src/rpg_objects/Game_Map.js:139-186 | the borders of every tile, row by row; it lists exactly the borders of the map's tiles (`CollisionGrid.BorderObjectsSound`, `CollisionGrid.BorderObjectsComplete`) |
| CollisionGrid.BorderObjectsSound | src/rpg_objects/Game_Map.js:139-186 | every segment in the map's list is a border of some tile of the grid |
| CollisionGrid.BorderObjectsComplete | src/rpg_objects/Game_Map.js:139-186 | every border of every tile of the grid is in the map's list |
| CollisionGrid.BordersCoverNothing | src/rpg_objects/Game_Map.js:139-186 | zero-thickness borders contain no cell |
| CollisionGrid.TilemapCollisionObjects | src/rpg_objects/Game_Map.js:189-204 | a cell lies inside some object exactly when it is a map tile that cannot be left in any direction; every object lies on the grid |
| CollisionGrid.NearObjects | src/rpg_objects/Game_Map.js:213-218 | a grid cell lists exactly the objects within one tile of it, each once |
| CollisionGrid.BuildGrid | src/rpg_objects/Game_Map.js:208-222 | the grid has height+1 rows of width+1 cells, and each cell lists exactly the objects within one tile of it |
| CollisionGrid.FreshTouching | src/rpg_objects/Game_Map.js:234-240 | from a cell, exactly the objects not yet found that meet the query box (edges included) |
| CollisionGrid.CollisionsInBoundingBox | src/rpg_objects/Game_Map.js:224-248 | reads only the grid cells 0..width by 0..height that the clamp allows; returns no duplicate; returns exactly the objects that meet the box (edges included) and lie near a scanned cell |
| CollisionGrid.QueryFindsAllTouching | src/rpg_objects/Game_Map.js:227-243 | for a box of positive area reaching onto the grid, every object on the grid that meets it lies near a scanned cell, so the query finds all of them |
| CollisionGrid.QueryMissesFlushLeft | src/rpg_objects/Game_Map.js:227-243 | a box ending at or before the map's left side scans no cell, so an object along that side that it touches is not found |

## Left out

- `moveStraight` is not modelled. It uses a `speedThisFrame` that is never defined. It also calls `isDiagonal`, which the helper file it imports from does not export. There is no working behaviour to model.
- Sprites and rendering, the plugin header, and the plugin parameter reads are left out. `MAX_ENTITIES` and `MIN_LEAF_SIZE` are their default values, 2 and 1.
- `Game_Map.setup`, `update` and `setupQTree` are host glue and are left out. The root-only `Leaf.update` is `QTree.UpdateCollapses` applied to the root.
- `getTilemapProperty2DArray` is left out. It asks the host `isValid`/`isPassable` for every tile, so the four-flag grid is an input of the model. The host `isValid` is taken to be the bounds check `0 <= x < width`, `0 <= y < height`.
- The parent back-reference of `Leaf` is dropped. It only tells the root apart, and the model always works from the root.
- Square roots and trigonometry are left out: `Vector.length`, `unit`, `perpendicularUnit`, `angleBetween`; `magnitude`, `angleAToB`, `normalizedVectorAToB` and `vectorProjection`; the character branch of `getCollidingVector`. A squared length is modelled as the dot product with itself.
- IEEE-754 behaviour (negative zero, NaN, rounding error), `toString` and `roundFour` are left out. Numbers are exact reals.
- The character's `isStopping`, `updateStop`, `updateAnimation`, `refreshBushDepth` and `setDirection` are host calls. `Character.Update` leaves them out, and `setDirection` is a plain field update.
- Hitbox.RectangleHitbox: the direction is always passed in. The constructor's default, the character's own facing when the argument is omitted, is not modelled: no call site in the source relies on it, and a caller wanting it passes the facing explicitly.
- Vector3D.GetCharCollisionResult: requires the two centres to differ in the plane. When they coincide the source divides by zero.
- Character.FrictionalAcceleration: requires `mass > 0`. The plugin always sets a mass of 1, but nothing in the source checks the mass.
- Vectors.CollisionFinalVectors: requires `m1 != 0` and `m1 + m2 != 0`. The source would divide by zero otherwise.
- QTree.UpdateEntity: its contract states placement only, through `QTreeFacts.UpdateEntityPlaces`, and not the full set of entities. Re-adding an entity can split a leaf, and an entity whose box meets none of the new quarters then drops out. That is the source's behaviour too.
- QTree.Partition: requires the leaf to be large enough to split, or already split. The source only calls it under `needsPartition`.
- QTree.EntityListDeep: follows the source in reading a leaf's own list when it is non-empty and its children otherwise. On valid trees, only terminal leaves hold entities, so this is every id (`QTreeFacts.ListedIsAll`).
- TileTrim.TrimObject: modelled as written, and two behaviours stay unproved.
  - A run marker at column 0 reads as unset, because 0 is falsy, so an overlapped run that starts at column 0 is never trimmed from the left.
  - A trailing run is trimmed only when it starts at the first overlapped column.
  The contract states soundness (only overlapped columns are cut), not that every overlap is removed.
- TileMap.GetTileCollisionObjects: the spanning loop treats column `width` as off the map, so the extra column of the classified grid is never covered.
- CollisionGrid.QueryFindsAllTouching: requires a query box of positive area. A zero-area box at an integer coordinate clamps to an empty range of cells and finds nothing, which is the source's behaviour too.
- CollisionGrid.QueryFindsAllTouching: also requires `q.x2 > 0`, `q.y2 > 0`, `q.x1 < width + 1` and `q.y1 < height + 1`. A box lying flush against the left side of the map, such as `x1 = -1, x2 = 0`, clamps to an empty range of columns. It then misses every object that touches it along that side, such as a rectangle with `x1 = 0` (`CollisionGrid.QueryMissesFlushLeft`). The top side, and a box starting at `width + 1` or `height + 1`, behave alike. The source behaves the same way.
