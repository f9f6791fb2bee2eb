/** Perception: which food items a creature sees, and which one it targets. */
module Perception {
  import opened Geometry

  datatype Option<T> = None | Some(value: T)

  /** True when food item `k` exists and is strictly within the view radius
      of a creature standing at `p`. */
  predicate Sees(food: seq<Vec>, p: Vec, viewRadius: real, k: int)
  {
    0 <= k < |food| && Below(DistSq(p, food[k]), viewRadius)
  }

  /** True when the indices strictly increase, i.e. are in food-list order. */
  predicate Increasing(s: seq<nat>)
  {
    forall i, j :: 0 <= i < j < |s| ==> s[i] < s[j]
  }

  /** The items a creature sees, as indices into the food list, in list
      order: the `filter` of the food positions by distance. */
  function FoodInView(food: seq<Vec>, p: Vec, viewRadius: real): (idx: seq<nat>)
    ensures forall i :: 0 <= i < |idx| ==> idx[i] < |food|
    ensures forall k: nat :: k in idx <==> Sees(food, p, viewRadius, k)
    ensures Increasing(idx)
    decreases |food|
  {
    if food == [] then []
    else
      var n := |food| - 1;
      var seen := FoodInView(food[..n], p, viewRadius);
      var last := if Below(DistSq(p, food[n]), viewRadius) then [n] else [];
      assert forall k: nat :: k < n ==> (Sees(food[..n], p, viewRadius, k) <==> Sees(food, p, viewRadius, k));
      assert forall i :: 0 <= i < |seen| ==> seen[i] < n;
      seen + last
  }

  /** The `reduce` that picks the nearest item: `best` is the item kept so
      far and `rest` the items still to visit, in list order; an item
      replaces the one kept only when it is strictly closer. The result is
      one of the visited items and no farther than `best`, and strictly
      nearer when it is a later one. */
  function Closest(food: seq<Vec>, p: Vec, best: nat, rest: seq<nat>): (r: nat)
    requires best < |food| && forall i :: 0 <= i < |rest| ==> rest[i] < |food|
    requires Increasing(rest) && forall i :: 0 <= i < |rest| ==> best < rest[i]
    ensures r == best || r in rest
    ensures DistSq(p, food[r]) <= DistSq(p, food[best])
    ensures best < r ==> DistSq(p, food[r]) < DistSq(p, food[best])
    decreases |rest|
  {
    if rest == [] then best
    else
      var next := if DistSq(p, food[rest[0]]) < DistSq(p, food[best]) then rest[0] else best;
      assert forall i :: 1 <= i < |rest| ==> rest[i] == rest[1..][i - 1];
      Closest(food, p, next, rest[1..])
  }

  /** Against the items still to visit, the reduce result is no farther
      than any of them, and strictly nearer than any that comes before it. */
  lemma {:induction false} ClosestIsNearest(food: seq<Vec>, p: Vec, best: nat, rest: seq<nat>)
    requires best < |food| && forall i :: 0 <= i < |rest| ==> rest[i] < |food|
    requires Increasing(rest) && forall i :: 0 <= i < |rest| ==> best < rest[i]
    ensures var r := Closest(food, p, best, rest);
            forall i :: 0 <= i < |rest| ==> DistSq(p, food[r]) <= DistSq(p, food[rest[i]])
    ensures var r := Closest(food, p, best, rest);
            forall i :: 0 <= i < |rest| && rest[i] < r ==> DistSq(p, food[r]) < DistSq(p, food[rest[i]])
    decreases |rest|
  {
    if rest != [] {
      var next := if DistSq(p, food[rest[0]]) < DistSq(p, food[best]) then rest[0] else best;
      assert forall i :: 1 <= i < |rest| ==> rest[i] == rest[1..][i - 1];
      ClosestIsNearest(food, p, next, rest[1..]);
      var r := Closest(food, p, best, rest);
      assert r == Closest(food, p, next, rest[1..]);
      forall i | 0 <= i < |rest|
        ensures DistSq(p, food[r]) <= DistSq(p, food[rest[i]])
        ensures rest[i] < r ==> DistSq(p, food[r]) < DistSq(p, food[rest[i]])
      {
        if i > 0 {
          assert rest[i] == rest[1..][i - 1];
        } else if rest[0] < r {
          assert r in rest[1..];
        }
      }
    }
  }

  /** The food item a creature at `p` targets, if it sees any: the nearest
      item it sees, the first in list order among equally near ones. */
  function Perceive(food: seq<Vec>, p: Vec, viewRadius: real): (t: Option<nat>)
    ensures t.None? <==> forall k :: 0 <= k < |food| ==> !Sees(food, p, viewRadius, k)
    ensures t.Some? ==> Sees(food, p, viewRadius, t.value)
    ensures t.Some? ==> forall k :: Sees(food, p, viewRadius, k) ==> DistSq(p, food[t.value]) <= DistSq(p, food[k])
    ensures t.Some? ==> forall k :: Sees(food, p, viewRadius, k) && k < t.value ==>
              DistSq(p, food[t.value]) < DistSq(p, food[k])
  {
    var idx := FoodInView(food, p, viewRadius);
    if |idx| > 0 then
      assert forall i :: 0 <= i < |idx| - 1 ==> idx[1..][i] == idx[i + 1];
      var r := Closest(food, p, idx[0], idx[1..]);
      NearestSeen(food, p, viewRadius, idx, r);
      Some(r)
    else
      None
  }

  /** The reduce over the items in view yields an item in view, none nearer,
      and no equally near one earlier in the list. */
  lemma NearestSeen(food: seq<Vec>, p: Vec, viewRadius: real, idx: seq<nat>, r: nat)
    requires idx == FoodInView(food, p, viewRadius) && |idx| > 0
    requires r == Closest(food, p, idx[0], idx[1..])
    ensures Sees(food, p, viewRadius, r)
    ensures forall k :: Sees(food, p, viewRadius, k) ==> DistSq(p, food[r]) <= DistSq(p, food[k])
    ensures forall k :: Sees(food, p, viewRadius, k) && k < r ==> DistSq(p, food[r]) < DistSq(p, food[k])
  {
    assert r in idx;
    ClosestIsNearest(food, p, idx[0], idx[1..]);
    forall k | Sees(food, p, viewRadius, k)
      ensures DistSq(p, food[r]) <= DistSq(p, food[k])
      ensures k < r ==> DistSq(p, food[r]) < DistSq(p, food[k])
    {
      assert k as nat in idx;
      var i :| 0 <= i < |idx| && idx[i] == k;
      if i > 0 {
        assert idx[1..][i - 1] == k;
      }
    }
  }
}
