/** The movement half of a tick: advancing a creature along its facing,
    the wall check, and the random wander of a creature that is not
    targeting food. */
module Movement {
  import opened Geometry
  import opened Creatures

  /** Math.cos, Math.sin and Math.atan2(y, x), supplied by the environment. */
  datatype Trig = Trig(cos: real -> real, sin: real -> real, atan2: (real, real) -> real)

  /** Scale from a creature's speed trait and the frame time to a step length. */
  const MovementScale: real := 80.0

  /** Chance per tick that a creature not targeting food turns a little. */
  const WanderChance: real := 0.1

  /** The two Math.random() draws of the wander rule: the chance test, and the
      turn, which is only drawn when the chance is below 0.1 and the creature
      is not targeting food. */
  datatype WanderDraw = WanderDraw(chance: real, angle: real)

  /** Displacements along x and z and the facing, after the wall check. */
  datatype Correction = Correction(dx: real, dz: real, facing: real)

  /** Where a creature stands and faces after the movement step. */
  datatype Motion = Motion(position: Vec, facing: real)

  /** The wall check. The x candidate `p.x + dx` is tested first; when it is
      outside `[-h, h]` the x displacement is reflected, the facing mirrored
      about the z axis, and the z candidate is not looked at. Only when the x
      candidate is inside is the z candidate tested; when it is outside the z
      displacement is reflected and the facing mirrored about the x axis. */
  function WallCheck(p: Vec, facing: real, dx: real, dz: real, h: real): (r: Correction)
    ensures r.dz == dz || r.dx == dx
    ensures OutOfBounds(p.x + dx, h) ==> r.dx == -dx && r.dz == dz && r.facing == PI - facing
    ensures !OutOfBounds(p.x + dx, h) && OutOfBounds(p.z + dz, h) ==>
              r.dx == dx && r.dz == -dz && r.facing == -facing
    ensures !OutOfBounds(p.x + dx, h) && !OutOfBounds(p.z + dz, h) ==> r == Correction(dx, dz, facing)
  {
    if OutOfBounds(p.x + dx, h) then Correction(-dx, dz, PI - facing)
    else if OutOfBounds(p.z + dz, h) then Correction(dx, -dz, -facing)
    else Correction(dx, dz, facing)
  }

  /** The movement step of one creature on a floor of side `floorSize` for a
      frame of `delta` seconds: both displacements, reflected or not, are
      added to the position. */
  function Move(c: Creature, floorSize: real, delta: real, trig: Trig): (m: Motion)
    ensures var step := c.info.speed * MovementScale * delta;
            var dx := trig.cos(c.facing) * step;
            var dz := trig.sin(c.facing) * step;
            var p := c.position;
            var h := floorSize / 2.0;
            (OutOfBounds(p.x + dx, h) ==> m == Motion(Vec(p.x - dx, p.z + dz), PI - c.facing)) &&
            (!OutOfBounds(p.x + dx, h) && OutOfBounds(p.z + dz, h) ==> m == Motion(Vec(p.x + dx, p.z - dz), -c.facing)) &&
            (!OutOfBounds(p.x + dx, h) && !OutOfBounds(p.z + dz, h) ==> m == Motion(Vec(p.x + dx, p.z + dz), c.facing))
  {
    var step := c.info.speed * MovementScale * delta;
    var w := WallCheck(c.position, c.facing, trig.cos(c.facing) * step, trig.sin(c.facing) * step, floorSize / 2.0);
    Motion(Vec(c.position.x + w.dx, c.position.z + w.dz), w.facing)
  }

  /** A reflected axis lands back inside the arena, provided the creature
      started inside on that axis and the displacement is at most half the
      floor side. */
  lemma ReflectionStaysInside(x: real, d: real, h: real)
    requires !OutOfBounds(x, h) && OutOfBounds(x + d, h)
    requires -h <= d <= h
    ensures !OutOfBounds(x - d, h)
  {
  }

  /** For a point `p` inside the arena and displacements of at most half the
      floor side, the point `q` the wall check leads to is inside exactly
      when the x and z candidates are not both outside. */
  lemma WallCheckStaysInside(p: Vec, facing: real, dx: real, dz: real, floorSize: real, q: Vec)
    requires InArena(p, floorSize)
    requires -floorSize / 2.0 <= dx <= floorSize / 2.0 && -floorSize / 2.0 <= dz <= floorSize / 2.0
    requires var r := WallCheck(p, facing, dx, dz, floorSize / 2.0);
             q == Vec(p.x + r.dx, p.z + r.dz)
    ensures InArena(q, floorSize) <==>
              !(OutOfBounds(p.x + dx, floorSize / 2.0) && OutOfBounds(p.z + dz, floorSize / 2.0))
  {
    var h := floorSize / 2.0;
    if OutOfBounds(p.x + dx, h) {
      ReflectionStaysInside(p.x, dx, h);
    } else if OutOfBounds(p.z + dz, h) {
      ReflectionStaysInside(p.z, dz, h);
    }
  }

  /** The position after the movement step is the start plus the displacements
      the wall check leaves. */
  lemma MoveIsWallCheck(c: Creature, floorSize: real, delta: real, trig: Trig)
    ensures var step := c.info.speed * MovementScale * delta;
            var r := WallCheck(c.position, c.facing, trig.cos(c.facing) * step, trig.sin(c.facing) * step, floorSize / 2.0);
            Move(c, floorSize, delta, trig).position == Vec(c.position.x + r.dx, c.position.z + r.dz)
  {
  }

  /** For a creature inside the arena whose displacements `dx` and `dz` along
      its facing are at most half the floor side, the movement step keeps it
      inside exactly when the x and z candidates are not both outside;
      `CornerEscape` is an instance of that remaining case. */
  lemma MoveStaysInside(c: Creature, floorSize: real, delta: real, trig: Trig, dx: real, dz: real)
    requires dx == trig.cos(c.facing) * (c.info.speed * MovementScale * delta)
    requires dz == trig.sin(c.facing) * (c.info.speed * MovementScale * delta)
    requires InArena(c.position, floorSize)
    requires -floorSize / 2.0 <= dx <= floorSize / 2.0 && -floorSize / 2.0 <= dz <= floorSize / 2.0
    ensures InArena(Move(c, floorSize, delta, trig).position, floorSize) <==>
              !(OutOfBounds(c.position.x + dx, floorSize / 2.0) && OutOfBounds(c.position.z + dz, floorSize / 2.0))
  {
    MoveIsWallCheck(c, floorSize, delta, trig);
    WallCheckStaysInside(c.position, c.facing, dx, dz, floorSize, Move(c, floorSize, delta, trig).position);
  }

  /** A creature in a corner, stepping out across both walls in the same
      tick, has only its x displacement reflected and leaves the arena
      along z: the wall check does not keep positions inside the arena. */
  lemma CornerEscape()
    ensures var p := Vec(0.9, 0.9);
            var r := WallCheck(p, PI / 4.0, 0.2, 0.2, 1.0);
            InArena(p, 2.0) && !InArena(Vec(p.x + r.dx, p.z + r.dz), 2.0)
  {
  }

  /** The wander rule: with a chance draw under 0.1, and only when the
      creature is not targeting food, the facing turns by
      `(PI / 4) * (angle - 0.5)`, a turn in `[-PI/8, PI/8)`. */
  function Wander(facing: real, isTargetingFood: bool, w: WanderDraw): (f: real)
    ensures !(w.chance < WanderChance && !isTargetingFood) ==> f == facing
    ensures w.chance < WanderChance && !isTargetingFood ==> f - facing == (PI / 4.0) * (w.angle - 0.5)
    ensures Unit(w.angle) ==> facing - PI / 8.0 <= f < facing + PI / 8.0
  {
    if w.chance < WanderChance && !isTargetingFood then facing + (PI / 4.0) * (w.angle - 0.5) else facing
  }
}
