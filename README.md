# Evolution simulation engine — a Dafny model

This project models the artificial-life engine inside `SceneRenderer`
(`src/lib/Renderer.ts`, bleemesser/evolution_sim). The rest of that class sets
up a Three.js scene. A population of creatures searches a square floor for food
items. On each frame, every creature in index order:

- moves along its facing, corrected by a wall check;
- sometimes wanders a little;
- targets the nearest food item it sees;
- eats that item if it is close enough.

When the food list is empty at the start of a frame, the day ends. Creatures
that ate nothing are dropped. Survivors are carried over one day older, each
reproducing survivor is followed by one mutated offspring, and a new day's food
is placed.

Modules:

- `Geometry` (`geometry.dfy`): points on the floor, `Math.PI`, and distances
  compared without square roots. `distanceTo` in the source is three-dimensional:
  food sits at height 0.2 and creatures at height -0.05. `DistSq` is therefore
  the squared horizontal distance plus the squared vertical gap 0.25.
  `SquaresOrderDistances` shows that comparing squares decides every comparison
  the source makes on distances.
- `Creatures` (`creatures.dfy`): the creature and info records, and how the
  random draws become a default creature, a carried-over survivor, or an
  offspring.
- `Movement` (`movement.dfy`): the step along the facing, the wall check and
  the wander rule. `Math.cos`, `Math.sin` and `Math.atan2` are supplied as a
  `Trig` value.
- `Perception` (`perception.dfy`): the `filter` of the food list by view radius
  (`FoodInView`) and the `reduce` that keeps the nearest item (`Closest`).
  Together they make `Perceive`.
- `Foraging` (`foraging.dfy`): eating, one creature's whole step (`Step`), and
  the pass over the population in index order (`Forage`). In that pass, each
  creature sees the food list its predecessors left.
- `Turnover` (`turnover.dfy`): the list of creatures carried into the next day
  (`NextGeneration`).
- `Renderer` (`renderer.dfy`): the class `SceneRenderer`. Its fields are the
  floor size, the daily food count, the food positions and food meshes (two
  parallel `seq`s), the next mesh identifier, the `spawned` flag saying whether
  a creature collection exists yet, and the creature collection (an
  `array<Creature>`, one slot per instance). Its methods update these in place,
  with the same loops as the source. Each method is proved equal to the
  functions above.

Random draws are explicit parameters in the order the source draws them:
`SpawnDraw`, `FoodDraw` and `WanderDraw`. A draw is valid when it lies in
`[0, 1)`. A food item is identified by its index in the food list. The source
finds the eaten item again with `findIndex` on object identity, and that
identity is the same index.

Behaviours of the code worth noting:

- An offspring's reproduction threshold is computed from its parent's traits
  before mutation (`Renderer.ts:290-292`). `Creatures.Offspring` states this.
- The wall check corrects at most one axis per tick, so a creature may leave the
  arena. `Movement.CornerEscape` shows a creature in a corner leaving the floor.
- Distances include the vertical offset between food and creatures, because
  `distanceTo` is three-dimensional. The vertical gap changes which food is in
  view and which food is close enough to eat.
- `spawnFood` appends to the food lists. At the end of a day the lists are
  empty, so the new day's lists hold exactly the new batch.
- Mesh identifiers come from a counter. Every identifier in the food mesh list
  is below the counter, so each new mesh is distinct from those already placed.

## Model

| member | source | states |
|---|---|---|
| Geometry.SquaresOrderDistances | src/lib/Renderer.ts:371-387 | for non-negative lengths, comparing squares (`<`, `<` against a radius, `<=`) agrees with comparing the lengths, so squared distances decide the view, nearest and eat tests |
| Geometry.DistSq | src/lib/Renderer.ts:370-387 | the squared `distanceTo` between a creature and a food item always includes the vertical gap of 0.25, so it is never below 0.0625 |
| Geometry.EatReachIsHorizontal | src/lib/Renderer.ts:387 | an item is within eating distance 0.5 exactly when the squared horizontal gap is at most 0.1875, because of the vertical gap |
| Geometry.Scatter | src/lib/Renderer.ts:158-162 | `(r - 0.5) * floorSize` of a draw in `[0, 1)` lies in `[-floorSize/2, floorSize/2)` |
| Creatures.RequiredFood | src/lib/Renderer.ts:225-227 | the threshold is the floor of `10*speed + 2*viewRadius` (greatest integer not above it) |
| Creatures.DefaultCreature | src/lib/Renderer.ts:209-230 | a default creature is newborn (all flags false, nothing eaten, age 0), its threshold comes from its own traits, and with valid draws speed is in `[0.01, 0.11)`, view radius in `[1, 3)`, facing in `[0, 2π)` and position in the arena |
| Creatures.DefaultThreshold | src/lib/Renderer.ts:217-227 | with valid draws a default creature's threshold is between 2 and 7 |
| Creatures.Survivor | src/lib/Renderer.ts:259-272 | a carried-over creature keeps position and facing, is one day older, has its survive flag cleared, and every other info field (food eaten, reproduce and targeting flags) unchanged |
| Creatures.Offspring | src/lib/Renderer.ts:275-299 | an offspring is newborn, its threshold is computed from the parent's unmutated traits, and with valid draws its speed is within 0.005 and its view radius within 0.25 of the parent's, with facing in `[0, 2π)` and position in the arena |
| Movement.WallCheck | src/lib/Renderer.ts:347-359 | x is tested first: if out, only the x displacement is reflected and facing becomes `π - facing`; only when x is in is z tested: if out, only z is reflected and facing becomes `-facing`; otherwise nothing changes; at least one displacement is always untouched |
| Movement.Move | src/lib/Renderer.ts:339-361 | the new position and facing in each of the three wall-check cases, with both displacements always added to the position |
| Movement.WallCheckStaysInside | src/lib/Renderer.ts:347-359 | from a point inside the arena, with displacements of at most half the floor side, the corrected point is inside exactly when the x and z candidates are not both outside |
| Movement.MoveStaysInside | src/lib/Renderer.ts:339-361 | a creature inside the arena whose displacements along its facing are at most half the floor side stays inside after `Move` exactly when its x and z candidates are not both outside (the corner case `CornerEscape` exhibits) |
| Movement.CornerEscape | src/lib/Renderer.ts:347-361 | a creature inside the arena near a corner, stepping out across both walls, ends outside the arena |
| Movement.Wander | src/lib/Renderer.ts:364-366 | facing is unchanged unless the chance draw is below 0.1 and the creature is not targeting; then it turns by `(π/4)(angle - 0.5)`, a turn in `[-π/8, π/8)` |
| Perception.FoodInView | src/lib/Renderer.ts:370-372 | exactly the indices of items strictly within the view radius, in increasing list order |
| Perception.Closest | src/lib/Renderer.ts:376-380 | the fold's result is the starting item or a visited one, no farther than the starting item, and strictly nearer when it is a later item |
| Perception.ClosestIsNearest | src/lib/Renderer.ts:376-380 | the fold's result is no farther than every visited item, and strictly nearer than every visited item before it in list order |
| Perception.Perceive | src/lib/Renderer.ts:370-385 | nothing is targeted exactly when no item is in view; otherwise the target is in view, no item in view is nearer, and every equally near item in view comes later in the list |
| Perception.NearestSeen | src/lib/Renderer.ts:370-380 | the reduce over the filtered indices yields an item in view that is nearest, and the first in list order among equally near ones |
| Foraging.RemoveAt | src/lib/Renderer.ts:391-399 | `splice(k, 1)` removes exactly the entry at `k`: one shorter, entries before `k` kept, later ones shifted down by one in order, and the multiset loses exactly that entry |
| Foraging.Consume | src/lib/Renderer.ts:387-399 | a list loses one entry when an item is eaten and none otherwise |
| Foraging.Eat | src/lib/Renderer.ts:400-407 | eating adds exactly one to the food eaten, sets the survive flag, clears targeting, sets reproduce exactly when it was already set or the new count reaches the threshold, and changes nothing else |
| Foraging.SenseAndEat | src/lib/Renderer.ts:368-411 | after perception the position is unchanged, at most one valid index is eaten, the info record only grows, and the food counter rises by one exactly when an item is eaten |
| Foraging.Step | src/lib/Renderer.ts:334-411 | a creature's step ends at the position `Move` gives, eats at most one item with a valid index, only grows its info record (traits, threshold and age kept, flags never cleared), and counts the item it eats |
| Foraging.StepSeesNothing | src/lib/Renderer.ts:364-411 | with no item in view after moving, nothing is eaten, targeting is cleared, the facing is the one left by the wall check and wander, and no other info field changes |
| Foraging.StepSeesFood | src/lib/Renderer.ts:370-407 | with some item in view, the creature faces `atan2` toward the target, which is in view, no farther than any item in view and strictly nearer than any earlier one; it is eaten exactly when within 0.5 (as `Eat` says); otherwise targeting is set and nothing else changes |
| Foraging.Forage | src/lib/Renderer.ts:330-416 | the pass keeps one record per creature and never adds food; food and mesh lists stay the same length |
| Foraging.ForageExtends | src/lib/Renderer.ts:330-416 | the pass over one more creature is the pass so far followed by that creature's step against the food list the pass left, with the eaten index removed from both food lists |
| Foraging.ForageConservesFood | src/lib/Renderer.ts:387-402 | over a pass, the rise in total food eaten equals the number of items removed from the food list |
| Foraging.ForageOnlyGrows | src/lib/Renderer.ts:330-416 | during a pass every creature keeps traits, threshold and age, its food counter never falls, and survive and reproduce flags once set stay set |
| Foraging.ForageOnlyRemovesFood | src/lib/Renderer.ts:387-399 | a pass only removes items: the remaining food positions and meshes are sub-multisets of those before |
| Turnover.NextGeneration | src/lib/Renderer.ts:257-303 | the next population has one member per survivor plus one per reproducing survivor |
| Turnover.GenerationExtends | src/lib/Renderer.ts:258-302 | building over one more creature appends exactly that creature's successors, using the next unused draw when it reproduces |
| Turnover.GenerationPlacement | src/lib/Renderer.ts:258-302 | survivors appear in original index order at the position fixed by their predecessors, each reproducing survivor immediately followed by its offspring made from the next unused draw |
| Turnover.GenerationMembers | src/lib/Renderer.ts:257-303 | every member of the next population is a carried-over survivor or an offspring of a reproducing survivor built from one of the draws |
| Renderer.FoodBatch | src/lib/Renderer.ts:154-166 | a batch has one item per draw pair, all inside the arena when the draws are valid |
| Renderer.SceneRenderer.constructor | src/lib/Renderer.ts:13-20 | a renderer starts with no food, no creature collection and a daily food count of 20 |
| Renderer.SceneRenderer.SpawnFood | src/lib/Renderer.ts:147-166 | appends exactly `count` items and `count` new meshes after the existing ones, the new meshes carrying the next `count` identifiers of the counter, none of them already in the list; records `count` as the daily food count, and keeps every identifier in the list below the counter |
| Renderer.SceneRenderer.SpawnCreatures | src/lib/Renderer.ts:169-238 | replaces the collection with a fresh one of `count` creatures, each a default creature from its draws or a verbatim copy of the given facing, position and info |
| Renderer.SceneRenderer.CarryOver | src/lib/Renderer.ts:259-301 | one creature contributes exactly its successors (nothing, itself carried over, or itself and its offspring) and uses one draw exactly when it reproduces |
| Renderer.SceneRenderer.CollectSurvivors | src/lib/Renderer.ts:257-303 | the survivor list built by the loop equals the next generation |
| Renderer.SceneRenderer.EndDay | src/lib/Renderer.ts:254-321 | after the day ends the collection is a fresh array holding the next generation; the food lists hold a new batch of exactly the daily count, whose meshes carry the next identifiers of the counter (all at or above its old value, so none was in use), and the counter advances by the daily count; floor size and daily count are kept |
| Renderer.SceneRenderer.MoveStep | src/lib/Renderer.ts:338-366 | the in-place wall check and wander yield the position of `Move` and the facing of `Wander` |
| Renderer.SceneRenderer.SenseStep | src/lib/Renderer.ts:368-416 | the in-place perception and eating write back exactly the perception outcome for creature `i`, and remove the eaten index from both food lists |
| Renderer.SceneRenderer.Sense | src/lib/Renderer.ts:368-411 | reading the current food list, the new facing, info record and eaten index are exactly the perception outcome `SenseAndEat` |
| Renderer.SceneRenderer.RemoveFood | src/lib/Renderer.ts:391-399 | the eaten index is spliced out of both food lists, which stay parallel, and every remaining mesh identifier stays below the counter |
| Renderer.SceneRenderer.StepCreature | src/lib/Renderer.ts:330-416 | only slot `i` of the collection changes, to that creature's step, and the food lists lose the item it ate |
| Renderer.SceneRenderer.MoveCreatures | src/lib/Renderer.ts:324-416 | the loop over the collection leaves the creatures, food positions and meshes as the foraging pass says |
| Renderer.SceneRenderer.Update | src/lib/Renderer.ts:252-416 | nothing changes before a collection exists (creatures, food positions and meshes kept); the day ends exactly when the food list is empty at the start of the frame, and then the collection is a fresh array, the foraging pass runs over the next generation and the new food and the mesh counter advances by the daily count; otherwise the pass runs over the current state in the same array and the counter is kept; floor size, daily count and the spawned flag never change |

## Left out

- Scene setup, the camera, controls, stats, lights, floor and wall meshes
  (`Renderer.ts:1-145`): rendering with no simulation logic.
- Asynchronous GLTF loading in `spawnCreatures`. The model replaces the creature
  collection at once. In the source, the replacement happens in a load callback.
  Until that callback fires:
  - the old collection keeps being stepped;
  - its info records, shared with the survivor list, keep being mutated.
- Instance matrices and the cosmetic heights. Positions are stored as `(x, z)`.
  The heights enter only as the constant vertical gap in `DistSq`.
- The `requestAnimationFrame` loop and `Date.now`: the frame time `delta` is a
  parameter.
- The debug text with its averages, and the debug sphere and ring
  (`Renderer.ts:417-482`): user-interface output only.
- `Math.random`, `Math.cos`, `Math.sin` and `Math.atan2`: supplied as draws and
  as a `Trig` value.
- IEEE floating point, including rounding, NaN and infinities: all numbers are
  reals.
- `Movement.WanderDraw` always carries an angle draw. The source draws the angle
  only when the chance is below 0.1 and the creature is not targeting food. This changes which random number later draws
  receive, not the rule itself.
- Food meshes are identifiers from a counter. The scene removal of an eaten
  mesh is not modelled.
- The guard on a missing food mesh is kept in `RemoveFood`, but it never fails,
  because the two food lists always have the same length.
