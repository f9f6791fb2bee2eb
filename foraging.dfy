/** The foraging half of a tick: one creature's step (movement, wander,
    perception, eating) and the pass over the whole population in index
    order, in which every creature sees the food list its predecessors left. */
module Foraging {
  import opened Geometry
  import opened Creatures
  import opened Movement
  import opened Perception

  /** `splice(k, 1)`: the list without its entry at `k`, the others kept in order. */
  function RemoveAt<T>(s: seq<T>, k: nat): (r: seq<T>)
    requires k < |s|
    ensures |r| == |s| - 1
    ensures forall i :: 0 <= i < k ==> r[i] == s[i]
    ensures forall i :: k <= i < |r| ==> r[i] == s[i + 1]
    ensures multiset(r) + multiset{s[k]} == multiset(s)
    ensures forall x :: x in r ==> x in s
  {
    assert s == s[..k] + [s[k]] + s[k + 1..];
    s[..k] + s[k + 1..]
  }

  /** The list after a creature's step: unchanged, or without the item it ate. */
  function Consume<T>(s: seq<T>, eaten: Option<nat>): (r: seq<T>)
    requires eaten.Some? ==> eaten.value < |s|
    ensures |r| == if eaten.Some? then |s| - 1 else |s|
  {
    if eaten.Some? then RemoveAt(s, eaten.value) else s
  }

  /** Consuming never adds an entry nor makes one more frequent. */
  lemma ConsumeOnlyRemoves<T>(s: seq<T>, eaten: Option<nat>)
    requires eaten.Some? ==> eaten.value < |s|
    ensures multiset(Consume(s, eaten)) <= multiset(s)
  {
  }

  /** The info record after eating one food item: one more item eaten, the
      creature will survive the day, it stops targeting, and it will
      reproduce once it has eaten its threshold. */
  function Eat(info: CreatureInfo): (r: CreatureInfo)
    ensures r.eatenFood == info.eatenFood + 1
    ensures r.willSurvive && !r.isTargetingFood
    ensures r.willReproduce <==> info.willReproduce || r.eatenFood >= info.requiredReproductionFood
    ensures r.(isTargetingFood := info.isTargetingFood, willSurvive := info.willSurvive,
               willReproduce := info.willReproduce, eatenFood := info.eatenFood) == info
  {
    var fed := info.(isTargetingFood := false, willSurvive := true, eatenFood := info.eatenFood + 1);
    if fed.eatenFood >= fed.requiredReproductionFood then fed.(willReproduce := true) else fed
  }

  /** What foraging may change in an info record: the traits, the
      threshold and the age stay; the food count only grows; neither the
      survive nor the reproduce flag is ever cleared. */
  predicate Grows(before: CreatureInfo, after: CreatureInfo)
  {
    after.speed == before.speed && after.viewRadius == before.viewRadius &&
    after.requiredReproductionFood == before.requiredReproductionFood && after.age == before.age &&
    before.eatenFood <= after.eatenFood &&
    (before.willSurvive ==> after.willSurvive) && (before.willReproduce ==> after.willReproduce)
  }

  /** A creature after its step, and the index of the food item it ate, if any. */
  datatype Outcome = Outcome(creature: Creature, eaten: Option<nat>)

  /** Perception and eating for a creature that stands at `p` facing
      `facing` after its movement step. */
  function SenseAndEat(p: Vec, facing: real, info: CreatureInfo, food: seq<Vec>, trig: Trig): (o: Outcome)
    ensures o.eaten.Some? ==> o.eaten.value < |food|
    ensures o.creature.position == p
    ensures Grows(info, o.creature.info)
    ensures o.creature.info.eatenFood == info.eatenFood + (if o.eaten.Some? then 1 else 0)
  {
    match Perceive(food, p, info.viewRadius)
    case None =>
      Outcome(Creature(p, facing, info.(isTargetingFood := false)), None)
    case Some(k) =>
      var aim := trig.atan2(food[k].z - p.z, food[k].x - p.x);
      if AtMost(DistSq(p, food[k]), EatRadius) then
        Outcome(Creature(p, aim, Eat(info)), Some(k))
      else
        Outcome(Creature(p, aim, info.(isTargetingFood := true)), None)
  }

  /** One creature's step against the current food list: move, wander, then
      perceive and perhaps eat. */
  function Step(c: Creature, food: seq<Vec>, floorSize: real, delta: real, trig: Trig, w: WanderDraw): (o: Outcome)
    ensures o.eaten.Some? ==> o.eaten.value < |food|
    ensures o.creature.position == Move(c, floorSize, delta, trig).position
    ensures Grows(c.info, o.creature.info)
    ensures o.creature.info.eatenFood == c.info.eatenFood + (if o.eaten.Some? then 1 else 0)
  {
    var m := Move(c, floorSize, delta, trig);
    SenseAndEat(m.position, Wander(m.facing, c.info.isTargetingFood, w), c.info, food, trig)
  }

  /** A creature that sees no food after moving stops targeting, eats
      nothing, and keeps the facing left by the wall check and the wander rule. */
  lemma StepSeesNothing(c: Creature, food: seq<Vec>, floorSize: real, delta: real, trig: Trig, w: WanderDraw)
    requires var p := Move(c, floorSize, delta, trig).position;
             forall k :: 0 <= k < |food| ==> !Sees(food, p, c.info.viewRadius, k)
    ensures var o := Step(c, food, floorSize, delta, trig, w);
            var m := Move(c, floorSize, delta, trig);
            o.eaten.None? && !o.creature.info.isTargetingFood &&
            o.creature.facing == Wander(m.facing, c.info.isTargetingFood, w) &&
            o.creature.info == c.info.(isTargetingFood := false)
  {
  }

  /** A creature that sees food turns toward the item it targets: one it
      sees, with none nearer and no equally near one earlier in the list.
      It eats that item exactly when it is within the eat radius, and
      otherwise keeps targeting it. */
  lemma StepSeesFood(c: Creature, food: seq<Vec>, floorSize: real, delta: real, trig: Trig, w: WanderDraw, j: nat)
    requires Sees(food, Move(c, floorSize, delta, trig).position, c.info.viewRadius, j)
    ensures var o := Step(c, food, floorSize, delta, trig, w);
            var p := Move(c, floorSize, delta, trig).position;
            var t := Perceive(food, p, c.info.viewRadius);
            t.Some? && Sees(food, p, c.info.viewRadius, t.value) &&
            DistSq(p, food[t.value]) <= DistSq(p, food[j]) &&
            (j < t.value ==> DistSq(p, food[t.value]) < DistSq(p, food[j])) &&
            o.creature.facing == trig.atan2(food[t.value].z - p.z, food[t.value].x - p.x) &&
            (o.eaten.Some? <==> AtMost(DistSq(p, food[t.value]), EatRadius)) &&
            (o.eaten.Some? ==> o.eaten.value == t.value && o.creature.info == Eat(c.info)) &&
            (o.eaten.None? ==> o.creature.info == c.info.(isTargetingFood := true))
  {
  }

  /** The creatures after a pass, with the food list and the parallel list
      of food meshes as the last creature left them. */
  datatype Tally = Tally(creatures: seq<Creature>, food: seq<Vec>, meshes: seq<nat>)

  /** The foraging pass over `cs` in index order: each creature steps
      against the food list its predecessors left, and an item it eats is
      removed, at the same index, from the food list and the mesh list. */
  function Forage(cs: seq<Creature>, food: seq<Vec>, meshes: seq<nat>, floorSize: real, delta: real,
                  trig: Trig, ws: seq<WanderDraw>): (t: Tally)
    requires |ws| == |cs| && |meshes| == |food|
    ensures |t.creatures| == |cs| && |t.meshes| == |t.food| <= |food|
    decreases |cs|
  {
    if cs == [] then Tally([], food, meshes)
    else
      var n := |cs| - 1;
      var t := Forage(cs[..n], food, meshes, floorSize, delta, trig, ws[..n]);
      var o := Step(cs[n], t.food, floorSize, delta, trig, ws[n]);
      Tally(t.creatures + [o.creature], Consume(t.food, o.eaten), Consume(t.meshes, o.eaten))
  }

  /** A pass over one more creature is the pass so far followed by that
      creature's step against the food the pass left. */
  lemma ForageExtends(cs: seq<Creature>, food: seq<Vec>, meshes: seq<nat>, floorSize: real, delta: real,
                      trig: Trig, ws: seq<WanderDraw>, i: nat)
    requires |ws| == |cs| && |meshes| == |food| && i < |cs|
    ensures var t := Forage(cs[..i], food, meshes, floorSize, delta, trig, ws[..i]);
            var o := Step(cs[i], t.food, floorSize, delta, trig, ws[i]);
            Forage(cs[..i + 1], food, meshes, floorSize, delta, trig, ws[..i + 1]) ==
              Tally(t.creatures + [o.creature], Consume(t.food, o.eaten), Consume(t.meshes, o.eaten))
  {
    assert cs[..i + 1][..i] == cs[..i] && ws[..i + 1][..i] == ws[..i];
  }

  /** Total food eaten so far by the creatures of `cs`. */
  function TotalEaten(cs: seq<Creature>): int
    decreases |cs|
  {
    if cs == [] then 0 else TotalEaten(cs[..|cs| - 1]) + cs[|cs| - 1].info.eatenFood
  }

  /** Every item that leaves the food list during a pass is counted by
      exactly one creature's food counter. */
  lemma {:induction false} ForageConservesFood(cs: seq<Creature>, food: seq<Vec>, meshes: seq<nat>,
                                               floorSize: real, delta: real, trig: Trig, ws: seq<WanderDraw>)
    requires |ws| == |cs| && |meshes| == |food|
    ensures var t := Forage(cs, food, meshes, floorSize, delta, trig, ws);
            TotalEaten(t.creatures) - TotalEaten(cs) == |food| - |t.food|
    decreases |cs|
  {
    if cs != [] {
      var n := |cs| - 1;
      ForageConservesFood(cs[..n], food, meshes, floorSize, delta, trig, ws[..n]);
      var t := Forage(cs[..n], food, meshes, floorSize, delta, trig, ws[..n]);
      var o := Step(cs[n], t.food, floorSize, delta, trig, ws[n]);
      assert (t.creatures + [o.creature])[..n] == t.creatures;
    }
  }

  /** During a pass every creature keeps its traits, threshold and age, its
      food counter only grows, and its survive and reproduce flags, once
      set, stay set. */
  lemma ForageOnlyGrows(cs: seq<Creature>, food: seq<Vec>, meshes: seq<nat>,
                        floorSize: real, delta: real, trig: Trig, ws: seq<WanderDraw>)
    requires |ws| == |cs| && |meshes| == |food|
    ensures var t := Forage(cs, food, meshes, floorSize, delta, trig, ws);
            forall i :: 0 <= i < |cs| ==> Grows(cs[i].info, t.creatures[i].info)
  {
    forall i | 0 <= i < |cs|
      ensures Grows(cs[i].info, Forage(cs, food, meshes, floorSize, delta, trig, ws).creatures[i].info)
    {
      GrowsAt(cs, food, meshes, floorSize, delta, trig, ws, i);
    }
  }

  /** The creature at index `i` of a pass, by induction on the pass. */
  lemma {:induction false} GrowsAt(cs: seq<Creature>, food: seq<Vec>, meshes: seq<nat>,
                                   floorSize: real, delta: real, trig: Trig, ws: seq<WanderDraw>, i: nat)
    requires |ws| == |cs| && |meshes| == |food| && i < |cs|
    ensures Grows(cs[i].info, Forage(cs, food, meshes, floorSize, delta, trig, ws).creatures[i].info)
    decreases |cs|
  {
    var n := |cs| - 1;
    var t := Forage(cs[..n], food, meshes, floorSize, delta, trig, ws[..n]);
    var o := Step(cs[n], t.food, floorSize, delta, trig, ws[n]);
    var all := Forage(cs, food, meshes, floorSize, delta, trig, ws).creatures;
    assert all == t.creatures + [o.creature];
    if i < n {
      GrowsAt(cs[..n], food, meshes, floorSize, delta, trig, ws[..n], i);
      assert cs[..n][i] == cs[i] && all[i] == t.creatures[i];
    } else {
      assert all[i] == o.creature;
    }
  }

  /** A pass only removes food: every item left was there before, as often
      as before, and the same holds for the food meshes. */
  lemma {:induction false} ForageOnlyRemovesFood(cs: seq<Creature>, food: seq<Vec>, meshes: seq<nat>,
                                                 floorSize: real, delta: real, trig: Trig, ws: seq<WanderDraw>)
    requires |ws| == |cs| && |meshes| == |food|
    ensures var t := Forage(cs, food, meshes, floorSize, delta, trig, ws);
            multiset(t.food) <= multiset(food) && multiset(t.meshes) <= multiset(meshes)
    decreases |cs|
  {
    if cs != [] {
      var n := |cs| - 1;
      ForageOnlyRemovesFood(cs[..n], food, meshes, floorSize, delta, trig, ws[..n]);
      var t := Forage(cs[..n], food, meshes, floorSize, delta, trig, ws[..n]);
      var o := Step(cs[n], t.food, floorSize, delta, trig, ws[n]);
      var all := Forage(cs, food, meshes, floorSize, delta, trig, ws);
      assert all == Tally(t.creatures + [o.creature], Consume(t.food, o.eaten), Consume(t.meshes, o.eaten));
      ConsumeOnlyRemoves(t.food, o.eaten);
      ConsumeOnlyRemoves(t.meshes, o.eaten);
    }
  }
}
