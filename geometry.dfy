/** Geometry of the arena: points on the floor plane, the constants the
    simulation shares, and distances compared without square roots. */
module Geometry {

  /** A point on the floor plane: the x and z coordinates of a Vector3.
      The vertical coordinate is fixed per kind of object and is folded into
      `DistSq` below. */
  datatype Vec = Vec(x: real, z: real)

  /** The value of Math.PI. */
  const PI: real := 3.141592653589793

  /** Food items are placed at height 0.2 and creatures at height -0.05, so
      every creature-to-food distance has this vertical component. */
  const VerticalGap: real := 0.25

  /** A targeted food item is eaten when its distance is at most this. */
  const EatRadius: real := 0.5

  /** A draw of Math.random(). */
  predicate Unit(r: real)
  {
    0.0 <= r < 1.0
  }

  /** The square of `a`, which is never negative. */
  function Sq(a: real): (s: real)
    ensures 0.0 <= s
  {
    if a < 0.0 then assert (-a) * (-a) == a * a; (-a) * (-a) else a * a
  }

  /** Squared 3-D distance from a creature standing at `p` to a food item at `q`. */
  function DistSq(p: Vec, q: Vec): (d: real)
    ensures d >= Sq(VerticalGap)
  {
    Sq(q.x - p.x) + Sq(q.z - p.z) + Sq(VerticalGap)
  }

  /** Because of the vertical gap, a food item is within eating distance of a
      creature exactly when their horizontal gap, squared, is at most
      `0.5^2 - 0.25^2 = 0.1875`. */
  lemma EatReachIsHorizontal(p: Vec, q: Vec)
    ensures AtMost(DistSq(p, q), EatRadius) <==> Sq(q.x - p.x) + Sq(q.z - p.z) <= 0.1875
  {
  }

  /** `sqrt(d) < r`: no distance is below a radius that is not positive. */
  predicate Below(d: real, r: real)
  {
    0.0 < r && d < r * r
  }

  /** `sqrt(d) <= r`. */
  predicate AtMost(d: real, r: real)
  {
    0.0 <= r && d <= r * r
  }

  /** Squared distances order points exactly as distances do, and `Below` and
      `AtMost` are the comparisons of the distance `s` itself. */
  lemma SquaresOrderDistances(s: real, t: real)
    requires 0.0 <= s && 0.0 <= t
    ensures s * s < t * t <==> s < t
    ensures Below(s * s, t) <==> s < t
    ensures AtMost(s * s, t) <==> s <= t
  {
    if s < t {
      MonotoneSquare(s, t);
    } else if s == t {
    } else {
      MonotoneSquare(t, s);
    }
  }

  /** Squaring is strictly increasing on the non-negative reals. */
  lemma MonotoneSquare(a: real, b: real)
    requires 0.0 <= a < b
    ensures a * a < b * b
  {
    var d := b - a;
    assert b * b == a * a + d * (a + b);
    assert 0.0 < d * (a + b);
  }

  /** Maps a draw to a coordinate, as `(Math.random() - 0.5) * floorSize`. */
  function Scatter(r: real, floorSize: real): (c: real)
    ensures Unit(r) && 0.0 < floorSize ==> -floorSize / 2.0 <= c < floorSize / 2.0
  {
    (r - 0.5) * floorSize
  }

  /** True when `c` lies outside `[-h, h]`. */
  predicate OutOfBounds(c: real, h: real)
  {
    c < -h || c > h
  }

  /** True when `p` lies on the floor of side `floorSize` centred at the origin. */
  predicate InArena(p: Vec, floorSize: real)
  {
    !OutOfBounds(p.x, floorSize / 2.0) && !OutOfBounds(p.z, floorSize / 2.0)
  }
}
