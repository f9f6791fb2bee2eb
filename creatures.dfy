/** Creature records: what a creature carries from tick to tick, how a
    creature is created from random draws, and the two records the
    end-of-day turnover produces (a carried-over survivor and an offspring). */
module Creatures {
  import opened Geometry

  /** The info record stored per creature: heritable traits, the
      reproduction threshold fixed at creation, the flags of the current
      day, and the two counters. */
  datatype CreatureInfo = CreatureInfo(
    speed: real,
    viewRadius: real,
    isTargetingFood: bool,
    willSurvive: bool,
    willReproduce: bool,
    requiredReproductionFood: int,
    eatenFood: int,
    age: int)

  /** One creature: its position on the floor, its facing angle in radians
      (never normalised) and its info record. */
  datatype Creature = Creature(position: Vec, facing: real, info: CreatureInfo)

  /** The five Math.random() draws a newly created creature consumes, in the
      order they are drawn: position x, position z, facing, speed, view radius. */
  datatype SpawnDraw = SpawnDraw(x: real, z: real, facing: real, speed: real, viewRadius: real)
  {
    predicate Valid()
    {
      Unit(x) && Unit(z) && Unit(facing) && Unit(speed) && Unit(viewRadius)
    }
  }

  /** `Math.floor(10 * speed + viewRadius * 2)`: food needed to reproduce. */
  function RequiredFood(speed: real, viewRadius: real): (n: int)
    ensures n as real <= 10.0 * speed + viewRadius * 2.0 < n as real + 1.0
  {
    (10.0 * speed + viewRadius * 2.0).Floor
  }

  /** The state every creature starts a life in: no flag set, nothing eaten, age 0. */
  predicate Newborn(info: CreatureInfo)
  {
    !info.isTargetingFood && !info.willSurvive && !info.willReproduce &&
    info.eatenFood == 0 && info.age == 0
  }

  /** A creature of the very first population, built from its draws. */
  function DefaultCreature(d: SpawnDraw, floorSize: real): (c: Creature)
    ensures Newborn(c.info)
    ensures c.info.requiredReproductionFood == RequiredFood(c.info.speed, c.info.viewRadius)
    ensures d.Valid() ==> 0.01 <= c.info.speed < 0.11 && 1.0 <= c.info.viewRadius < 3.0
    ensures d.Valid() ==> 0.0 <= c.facing < 2.0 * PI
    ensures d.Valid() && 0.0 < floorSize ==> InArena(c.position, floorSize)
  {
    var speed := d.speed * 0.1 + 0.01;
    var viewRadius := d.viewRadius * 2.0 + 1.0;
    Creature(
      Vec(Scatter(d.x, floorSize), Scatter(d.z, floorSize)),
      d.facing * (PI * 2.0),
      CreatureInfo(speed, viewRadius, false, false, false, RequiredFood(speed, viewRadius), 0, 0))
  }

  /** With valid draws the reproduction threshold of a default creature is
      between 2 and 7 food items. */
  lemma DefaultThreshold(d: SpawnDraw, floorSize: real)
    requires d.Valid()
    ensures 2 <= DefaultCreature(d, floorSize).info.requiredReproductionFood <= 7
  {
    var info := DefaultCreature(d, floorSize).info;
    assert 2.1 <= 10.0 * info.speed + info.viewRadius * 2.0 < 7.1;
  }

  /** The record a surviving creature is carried over with: one day older,
      its survive flag cleared, everything else as it was. */
  function Survivor(c: Creature): (s: Creature)
    requires c.info.willSurvive
    ensures s.position == c.position && s.facing == c.facing
    ensures s.info.age == c.info.age + 1 && !s.info.willSurvive
    ensures s.info.(age := c.info.age, willSurvive := true) == c.info
  {
    Creature(c.position, c.facing, c.info.(age := c.info.age + 1, willSurvive := false))
  }

  /** The offspring of a reproducing parent. Its traits are the parent's
      shifted by a draw each; its threshold is computed from the parent's
      traits before the shift. */
  function Offspring(parent: CreatureInfo, d: SpawnDraw, floorSize: real): (c: Creature)
    ensures Newborn(c.info)
    ensures c.info.requiredReproductionFood == RequiredFood(parent.speed, parent.viewRadius)
    ensures d.Valid() ==> parent.speed - 0.005 <= c.info.speed < parent.speed + 0.005
    ensures d.Valid() ==> parent.viewRadius - 0.25 <= c.info.viewRadius < parent.viewRadius + 0.25
    ensures d.Valid() ==> 0.0 <= c.facing < 2.0 * PI
    ensures d.Valid() && 0.0 < floorSize ==> InArena(c.position, floorSize)
  {
    Creature(
      Vec(Scatter(d.x, floorSize), Scatter(d.z, floorSize)),
      d.facing * (PI * 2.0),
      CreatureInfo(
        parent.speed + (d.speed - 0.5) * 0.01,
        parent.viewRadius + (d.viewRadius - 0.5) * 0.5,
        false, false, false,
        RequiredFood(parent.speed, parent.viewRadius),
        0, 0))
  }
}
