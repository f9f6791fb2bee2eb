/** The simulation state held by the scene renderer and the operations that
    change it: spawning food, spawning creatures, the per-creature step, and
    the per-frame update that either ends the day or runs a foraging pass. */
module Renderer {
  import opened Geometry
  import opened Creatures
  import opened Movement
  import opened Perception
  import opened Foraging
  import opened Turnover

  /** The two Math.random() draws that place one food item: x, then z. */
  datatype FoodDraw = FoodDraw(x: real, z: real)
  {
    predicate Valid()
    {
      Unit(x) && Unit(z)
    }
  }

  /** Where a batch of food items lands, one item per pair of draws. */
  function FoodBatch(draws: seq<FoodDraw>, floorSize: real): (food: seq<Vec>)
    ensures |food| == |draws|
    ensures (forall i :: 0 <= i < |draws| ==> draws[i].Valid()) && 0.0 < floorSize ==>
              forall i :: 0 <= i < |food| ==> InArena(food[i], floorSize)
  {
    seq(|draws|, i requires 0 <= i < |draws| => Vec(Scatter(draws[i].x, floorSize), Scatter(draws[i].z, floorSize)))
  }

  /** The mesh identifiers `count` new food items receive when `first` is
      the next free one: consecutive, so no two of them coincide. */
  function MeshIds(first: nat, count: nat): (ids: seq<nat>)
    ensures |ids| == count
    ensures forall j :: 0 <= j < count ==> ids[j] == first + j
    ensures forall j, k :: 0 <= j < k < count ==> ids[j] < ids[k]
  {
    seq(count, j => first + j)
  }

  /** How a batch of creatures is created: from fresh draws, or from the
      facings, positions and info records of the creatures carried over. */
  datatype Lineage =
    | Default(draws: seq<SpawnDraw>)
    | Inherited(facings: seq<real>, positions: seq<Vec>, infos: seq<CreatureInfo>)
  {
    /** The lists hold exactly `count` entries each. */
    predicate Fits(count: nat)
    {
      match this
      case Default(draws) => |draws| == count
      case Inherited(facings, positions, infos) => |facings| == count && |positions| == count && |infos| == count
    }

    /** The `j`-th creature of the batch. */
    function Member(j: nat, floorSize: real): Creature
      requires j < (match this case Default(draws) => |draws| case Inherited(f, p, i) => |f|)
      requires Inherited? ==> |positions| == |facings| && |infos| == |facings|
    {
      match this
      case Default(draws) => DefaultCreature(draws[j], floorSize)
      case Inherited(facings, positions, infos) => Creature(positions[j], facings[j], infos[j])
    }
  }

  class SceneRenderer {
    /** Side of the square floor, centred at the origin. */
    var floorSize: real
    /** Number of food items placed at the start of each day. */
    var foodCount: nat
    /** Positions of the food items still on the floor. */
    var foodPositions: seq<Vec>
    /** The mesh of each food item, at the same index as its position. */
    var foodMeshes: seq<nat>
    /** Identifier the next food mesh gets. */
    var nextMesh: nat
    /** Whether a creature collection exists yet. */
    var spawned: bool
    /** The creature collection: one record per instance. */
    var creatures: array<Creature>

    /** The food lists are parallel, and every mesh identifier in use was
        handed out before `nextMesh`. */
    ghost predicate Valid()
      reads this`foodMeshes, this`foodPositions, this`nextMesh
    {
      |foodMeshes| == |foodPositions| && forall m :: m in foodMeshes ==> m < nextMesh
    }

    /** A renderer with no food and no creature collection yet. */
    constructor (floorSize: real)
      ensures Valid() && !spawned && foodPositions == [] && creatures.Length == 0
      ensures this.floorSize == floorSize && foodCount == 20
    {
      this.floorSize := floorSize;
      foodCount := 20;
      foodPositions := [];
      foodMeshes := [];
      nextMesh := 0;
      spawned := false;
      creatures := new Creature[0];
    }

    /** Places `count` new food items after the ones already on the floor,
        each with a new mesh, and remembers `count` as the daily amount. */
    method SpawnFood(count: nat, draws: seq<FoodDraw>)
      requires Valid() && |draws| == count
      modifies this`foodCount, this`foodPositions, this`foodMeshes, this`nextMesh
      ensures Valid() && foodCount == count
      ensures foodPositions == old(foodPositions) + FoodBatch(draws, floorSize)
      ensures foodMeshes == old(foodMeshes) + MeshIds(old(nextMesh), count)
      ensures forall j :: 0 <= j < count ==> MeshIds(old(nextMesh), count)[j] !in old(foodMeshes)
      ensures nextMesh == old(nextMesh) + count
    {
      foodCount := count;
      ghost var batch := FoodBatch(draws, floorSize);
      ghost var meshes := MeshIds(old(nextMesh), count);
      for i := 0 to count
        invariant foodCount == count
        invariant foodPositions == old(foodPositions) + batch[..i]
        invariant foodMeshes == old(foodMeshes) + meshes[..i]
        invariant nextMesh == old(nextMesh) + i
        invariant forall m :: m in foodMeshes ==> m < nextMesh
      {
        var food := Vec((draws[i].x - 0.5) * floorSize, (draws[i].z - 0.5) * floorSize);
        foodPositions := foodPositions + [food];
        foodMeshes := foodMeshes + [nextMesh];
        nextMesh := nextMesh + 1;
        assert batch[i] == food;
        assert batch[..i + 1] == batch[..i] + [food];
        assert meshes[..i + 1] == meshes[..i] + [meshes[i]];
      }
      assert batch[..count] == batch && meshes[..count] == meshes;
    }

    /** Replaces the creature collection with `count` creatures made as
        `lineage` says. */
    method SpawnCreatures(count: nat, lineage: Lineage)
      requires lineage.Fits(count)
      modifies this`creatures, this`spawned
      ensures spawned && fresh(creatures) && creatures.Length == count
      ensures forall j :: 0 <= j < count ==> creatures[j] == lineage.Member(j, floorSize)
    {
      var collection := new Creature[count];
      for i := 0 to count
        invariant forall j :: 0 <= j < i ==> collection[j] == lineage.Member(j, floorSize)
      {
        match lineage
        case Inherited(facings, positions, infos) =>
          collection[i] := Creature(positions[i], facings[i], infos[i]);
        case Default(draws) =>
          var d := draws[i];
          var position := Vec((d.x - 0.5) * floorSize, (d.z - 0.5) * floorSize);
          var facing := d.facing * (PI * 2.0);
          var speed := d.speed * 0.1 + 0.01;
          var viewRadius := d.viewRadius * 2.0 + 1.0;
          var info := CreatureInfo(speed, viewRadius, false, false, false,
                                   (10.0 * speed + viewRadius * 2.0).Floor, 0, 0);
          collection[i] := Creature(position, facing, info);
      }
      creatures := collection;
      spawned := true;
    }

    /** The list of creatures carried into the next day, built in index
        order: each survivor one day older and with its survive flag
        cleared, followed by its offspring when it reproduces. */
    method CollectSurvivors(population: seq<Creature>, draws: seq<SpawnDraw>) returns (surviving: seq<Creature>)
      requires |draws| == ReproducerCount(population)
      ensures surviving == NextGeneration(population, draws, floorSize)
    {
      surviving := [];
      var used := 0;
      for i := 0 to |population|
        invariant used == ReproducerCount(population[..i]) <= |draws|
        invariant surviving == NextGeneration(population[..i], draws[..used], floorSize)
      {
        GenerationExtends(population, draws, floorSize, i);
        var next, after := CarryOver(population[i], draws, used);
        surviving := surviving + next;
        used := after;
      }
      assert population[..|population|] == population;
      assert draws[..used] == draws;
    }

    /** What one creature of the old collection contributes to the next
        day: nothing if it does not survive; otherwise itself, a day older
        and with its survive flag cleared, followed by an offspring made
        from `draws[used]` when it reproduces. */
    method CarryOver(c: Creature, draws: seq<SpawnDraw>, used: nat) returns (next: seq<Creature>, after: nat)
      requires used + (if Reproduces(c) then 1 else 0) <= |draws|
      ensures after == used + (if Reproduces(c) then 1 else 0)
      ensures next == Successors(c, draws[used..after], floorSize)
    {
      next := [];
      after := used;
      if c.info.willSurvive {
        var info := c.info.(age := c.info.age + 1, willSurvive := false);
        next := [Creature(c.position, c.facing, info)];
        if info.willReproduce {
          var d := draws[used];
          var offspring := CreatureInfo(
            info.speed + (d.speed - 0.5) * 0.01,
            info.viewRadius + (d.viewRadius - 0.5) * 0.5,
            false, false, false,
            RequiredFood(info.speed, info.viewRadius),
            0, 0);
          var child := Creature(Vec(Scatter(d.x, floorSize), Scatter(d.z, floorSize)), d.facing * (PI * 2.0), offspring);
          assert child == Offspring(c.info, d, floorSize);
          next := next + [child];
          after := used + 1;
          assert draws[used..after] == [d];
        }
      }
    }

    /** The end of a day: the surviving creatures, each followed by its
        offspring if it reproduces, replace the collection, and a new day's
        food is placed. */
    method EndDay(draws: seq<SpawnDraw>, foodDraws: seq<FoodDraw>)
      requires Valid() && foodPositions == []
      requires |draws| == ReproducerCount(creatures[..]) && |foodDraws| == foodCount
      modifies this
      ensures Valid() && spawned && fresh(creatures)
      ensures creatures[..] == NextGeneration(old(creatures[..]), draws, floorSize)
      ensures foodPositions == FoodBatch(foodDraws, floorSize) && |foodPositions| == foodCount
      ensures foodMeshes == MeshIds(old(nextMesh), foodCount) && nextMesh == old(nextMesh) + foodCount
      ensures forall m :: m in foodMeshes ==> old(nextMesh) <= m
      ensures floorSize == old(floorSize) && foodCount == old(foodCount)
    {
      var surviving := CollectSurvivors(creatures[..], draws);
      var facings := seq(|surviving|, j requires 0 <= j < |surviving| => surviving[j].facing);
      var positions := seq(|surviving|, j requires 0 <= j < |surviving| => surviving[j].position);
      var infos := seq(|surviving|, j requires 0 <= j < |surviving| => surviving[j].info);
      SpawnCreatures(|surviving|, Inherited(facings, positions, infos));
      SpawnFood(foodCount, foodDraws);
    }

    /** The movement part of a creature's step: the displacement along its
        facing, the wall check, and the random wander. */
    method MoveStep(c: Creature, delta: real, trig: Trig, w: WanderDraw) returns (position: Vec, facing: real)
      ensures var m := Move(c, floorSize, delta, trig);
              position == m.position && facing == Wander(m.facing, c.info.isTargetingFood, w)
    {
      position := c.position;
      facing := c.facing;
      var speed := c.info.speed * MovementScale * delta;
      var dx := trig.cos(facing) * speed;
      var dz := trig.sin(facing) * speed;
      var h := floorSize / 2.0;
      ghost var wall := WallCheck(position, facing, dx, dz, h);
      assert Move(c, floorSize, delta, trig) == Motion(Vec(position.x + wall.dx, position.z + wall.dz), wall.facing);
      if position.x + dx < -h || position.x + dx > h {
        dx := -dx;
        facing := PI - facing;
      } else if position.z + dz < -h || position.z + dz > h {
        dz := -dz;
        facing := -facing;
      }
      assert dx == wall.dx && dz == wall.dz && facing == wall.facing;
      position := Vec(position.x + dx, position.z + dz);

      if w.chance < WanderChance && !c.info.isTargetingFood {
        facing := facing + (PI / 4.0) * (w.angle - 0.5);
      }
    }

    /** The perception part of creature `i`'s step, standing at `position`
        and facing `facing`: target the nearest food it sees, and eat it
        when it is close enough. */
    method SenseStep(i: nat, position: Vec, facing: real, trig: Trig)
      requires Valid() && i < creatures.Length
      modifies this`foodPositions, this`foodMeshes, creatures
      ensures Valid()
      ensures var o := SenseAndEat(position, facing, old(creatures[i]).info, old(foodPositions), trig);
              creatures[..] == old(creatures[..])[i := o.creature] &&
              foodPositions == Consume(old(foodPositions), o.eaten) &&
              foodMeshes == Consume(old(foodMeshes), o.eaten)
    {
      ghost var food, meshes := foodPositions, foodMeshes;
      var aim, info, eaten := Sense(position, facing, creatures[i].info, trig);
      if eaten.Some? {
        RemoveFood(eaten.value);
      }
      assert foodPositions == Consume(food, eaten) && foodMeshes == Consume(meshes, eaten);
      creatures[i] := Creature(position, aim, info);
    }

    /** What a creature with traits `info`, standing at `position` and facing
        `facing`, makes of the current food list: where it turns, its new
        traits, and the index of the food it eats, if any. */
    method Sense(position: Vec, facing: real, info: CreatureInfo, trig: Trig)
      returns (aim: real, next: CreatureInfo, eaten: Option<nat>)
      ensures Outcome(Creature(position, aim, next), eaten) == SenseAndEat(position, facing, info, foodPositions, trig)
    {
      aim, next, eaten := facing, info, None;
      var target := Perceive(foodPositions, position, info.viewRadius);
      if target.Some? {
        var k := target.value;
        next := next.(isTargetingFood := true);
        aim := trig.atan2(foodPositions[k].z - position.z, foodPositions[k].x - position.x);
        if AtMost(DistSq(position, foodPositions[k]), EatRadius) {
          next := next.(isTargetingFood := false, willSurvive := true, eatenFood := next.eatenFood + 1);
          if next.eatenFood >= next.requiredReproductionFood {
            next := next.(willReproduce := true);
          }
          eaten := Some(k);
        }
      } else {
        next := next.(isTargetingFood := false);
      }
    }

    /** Drops the eaten food item `k` from both lists. */
    method RemoveFood(k: nat)
      requires Valid() && k < |foodPositions|
      modifies this`foodPositions, this`foodMeshes
      ensures Valid()
      ensures foodPositions == RemoveAt(old(foodPositions), k) && foodMeshes == RemoveAt(old(foodMeshes), k)
    {
      if k < |foodMeshes| {
        foodMeshes := RemoveAt(foodMeshes, k);
      }
      foodPositions := RemoveAt(foodPositions, k);
    }

    /** One creature's step: move, then perceive and perhaps eat. */
    method StepCreature(i: nat, delta: real, trig: Trig, w: WanderDraw)
      requires Valid() && i < creatures.Length
      modifies this`foodPositions, this`foodMeshes, creatures
      ensures Valid()
      ensures var o := Step(old(creatures[i]), old(foodPositions), floorSize, delta, trig, w);
              creatures[..] == old(creatures[..])[i := o.creature] &&
              foodPositions == Consume(old(foodPositions), o.eaten) &&
              foodMeshes == Consume(old(foodMeshes), o.eaten)
    {
      var position, facing := MoveStep(creatures[i], delta, trig, w);
      SenseStep(i, position, facing, trig);
    }

    /** The foraging pass: every creature steps, in index order. */
    method MoveCreatures(delta: real, trig: Trig, ws: seq<WanderDraw>)
      requires Valid() && |ws| == creatures.Length
      modifies this`foodPositions, this`foodMeshes, creatures
      ensures Valid()
      ensures var t := Forage(old(creatures[..]), old(foodPositions), old(foodMeshes), floorSize, delta, trig, ws);
              creatures[..] == t.creatures && foodPositions == t.food && foodMeshes == t.meshes
    {
      ghost var start := creatures[..];
      ghost var food := foodPositions;
      ghost var meshes := foodMeshes;
      ghost var t := Tally([], food, meshes);
      for i := 0 to creatures.Length
        invariant Valid()
        invariant t == Forage(start[..i], food, meshes, floorSize, delta, trig, ws[..i])
        invariant creatures[..] == t.creatures + start[i..] && foodPositions == t.food && foodMeshes == t.meshes
      {
        t := AdvancePass(i, start, food, meshes, delta, trig, ws, t);
      }
      assert start[..creatures.Length] == start && ws[..creatures.Length] == ws;
    }

    /** One round of the foraging pass: creature `i` steps, and the pass so
        far grows by one creature. */
    method AdvancePass(i: nat, ghost start: seq<Creature>, ghost food: seq<Vec>, ghost meshes: seq<nat>,
                       delta: real, trig: Trig, ws: seq<WanderDraw>, ghost t: Tally) returns (ghost next: Tally)
      requires |ws| == |start| == creatures.Length && |meshes| == |food| && i < |start|
      requires Valid() && t == Forage(start[..i], food, meshes, floorSize, delta, trig, ws[..i])
      requires creatures[..] == t.creatures + start[i..] && foodPositions == t.food && foodMeshes == t.meshes
      modifies this`foodPositions, this`foodMeshes, creatures
      ensures Valid() && next == Forage(start[..i + 1], food, meshes, floorSize, delta, trig, ws[..i + 1])
      ensures creatures[..] == next.creatures + start[i + 1..] && foodPositions == next.food && foodMeshes == next.meshes
    {
      ghost var o := Step(start[i], t.food, floorSize, delta, trig, ws[i]);
      ghost var before := creatures[..];
      ForageExtends(start, food, meshes, floorSize, delta, trig, ws, i);
      SplicedAt(before, t.creatures, start, i);
      StepCreature(i, delta, trig, ws[i]);
      SplicePlaces(before, t.creatures, start, i, o.creature);
      next := Tally(t.creatures + [o.creature], Consume(t.food, o.eaten), Consume(t.meshes, o.eaten));
    }

    /** The loop state of the foraging pass is the stepped prefix followed by
        the untouched suffix; its element `i` is still the original one. */
    static lemma SplicedAt(state: seq<Creature>, done: seq<Creature>, start: seq<Creature>, i: nat)
      requires |done| == i < |start| && state == done + start[i..]
      ensures state[i] == start[i]
    {
    }

    /** Stepping creature `i` extends the stepped prefix by one. */
    static lemma SplicePlaces(state: seq<Creature>, done: seq<Creature>, start: seq<Creature>, i: nat, x: Creature)
      requires |done| == i < |start| && state == done + start[i..]
      ensures state[i := x] == (done + [x]) + start[i + 1..]
    {
    }

    /** One frame. Nothing happens before a creature collection exists.
        Otherwise, when no food is left the day ends first; then every
        creature of the current collection steps. */
    method Update(delta: real, trig: Trig, draws: seq<SpawnDraw>, foodDraws: seq<FoodDraw>, ws: seq<WanderDraw>)
      requires Valid()
      requires spawned && foodPositions == [] ==>
                 |draws| == ReproducerCount(creatures[..]) && |foodDraws| == foodCount
      requires spawned ==>
                 |ws| == if foodPositions == [] then PopulationAfter(creatures[..]) else creatures.Length
      modifies this, creatures
      ensures Valid() && floorSize == old(floorSize)
      ensures foodCount == old(foodCount) && spawned == old(spawned)
      ensures nextMesh == if old(spawned) && old(foodPositions) == [] then old(nextMesh) + old(foodCount) else old(nextMesh)
      ensures !old(spawned) ==>
                creatures == old(creatures) && creatures[..] == old(creatures[..]) &&
                foodPositions == old(foodPositions) && foodMeshes == old(foodMeshes)
      ensures old(spawned) && old(foodPositions) != [] ==>
                creatures == old(creatures) &&
                var t := Forage(old(creatures[..]), old(foodPositions), old(foodMeshes), floorSize, delta, trig, ws);
                creatures[..] == t.creatures && foodPositions == t.food && foodMeshes == t.meshes
      ensures old(spawned) && old(foodPositions) == [] ==>
                fresh(creatures) &&
                var next := NextGeneration(old(creatures[..]), draws, floorSize);
                var meshes := MeshIds(old(nextMesh), old(foodCount));
                var t := Forage(next, FoodBatch(foodDraws, floorSize), meshes, floorSize, delta, trig, ws);
                creatures[..] == t.creatures && foodPositions == t.food && foodMeshes == t.meshes
    {
      if spawned {
        if |foodPositions| == 0 {
          EndDay(draws, foodDraws);
        }
        MoveCreatures(delta, trig, ws);
      }
    }
  }
}
