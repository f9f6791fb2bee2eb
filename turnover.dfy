/** The end of a day: the population that the next day starts with. */
module Turnover {
  import opened Geometry
  import opened Creatures

  /** A creature that survives the day and has eaten enough to reproduce. */
  predicate Reproduces(c: Creature)
  {
    c.info.willSurvive && c.info.willReproduce
  }

  /** The number of creatures in `cs` that survive the day. */
  function SurvivorCount(cs: seq<Creature>): (n: nat)
    ensures n <= |cs|
    decreases |cs|
  {
    if cs == [] then 0
    else SurvivorCount(cs[..|cs| - 1]) + (if cs[|cs| - 1].info.willSurvive then 1 else 0)
  }

  /** The number of creatures in `cs` that survive and reproduce: one
      offspring draw is needed for each. */
  function ReproducerCount(cs: seq<Creature>): (n: nat)
    ensures n <= SurvivorCount(cs)
    decreases |cs|
  {
    if cs == [] then 0
    else ReproducerCount(cs[..|cs| - 1]) + (if Reproduces(cs[|cs| - 1]) then 1 else 0)
  }

  /** Size of the next population. */
  function PopulationAfter(cs: seq<Creature>): nat
  {
    SurvivorCount(cs) + ReproducerCount(cs)
  }

  /** What one creature contributes to the next population: nothing when it
      starves; its carried-over record when it survives; that record
      followed by one offspring when it also reproduces. */
  function Successors(c: Creature, draws: seq<SpawnDraw>, floorSize: real): seq<Creature>
    requires |draws| == if Reproduces(c) then 1 else 0
  {
    if !c.info.willSurvive then []
    else if c.info.willReproduce then [Survivor(c), Offspring(c.info, draws[0], floorSize)]
    else [Survivor(c)]
  }

  /** The next population, built in index order; `draws` holds one offspring
      draw per reproducing survivor, in that order. It has one member per
      survivor plus one per reproducing survivor. */
  function NextGeneration(cs: seq<Creature>, draws: seq<SpawnDraw>, floorSize: real): (g: seq<Creature>)
    requires |draws| == ReproducerCount(cs)
    ensures |g| == PopulationAfter(cs)
    decreases |cs|
  {
    if cs == [] then []
    else
      var n := |cs| - 1;
      var k := ReproducerCount(cs[..n]);
      NextGeneration(cs[..n], draws[..k], floorSize) + Successors(cs[n], draws[k..], floorSize)
  }

  /** Counting the creatures before `j` never exceeds counting the whole list. */
  lemma {:induction false} CountsOfPrefix(cs: seq<Creature>, j: nat)
    requires j < |cs|
    ensures SurvivorCount(cs[..j]) + (if cs[j].info.willSurvive then 1 else 0) <= SurvivorCount(cs)
    ensures ReproducerCount(cs[..j]) + (if Reproduces(cs[j]) then 1 else 0) <= ReproducerCount(cs)
    decreases |cs|
  {
    var n := |cs| - 1;
    if j < n {
      CountsOfPrefix(cs[..n], j);
      assert cs[..n][..j] == cs[..j];
    } else {
      assert cs[..j] == cs[..n];
    }
  }

  /** Building the next population one creature further appends that
      creature's successors, using the draws that follow the ones used so far. */
  lemma GenerationExtends(cs: seq<Creature>, draws: seq<SpawnDraw>, floorSize: real, i: nat)
    requires i < |cs| && ReproducerCount(cs) <= |draws|
    ensures var k := ReproducerCount(cs[..i]);
            var k' := ReproducerCount(cs[..i + 1]);
            k' == k + (if Reproduces(cs[i]) then 1 else 0) && k' <= |draws| &&
            NextGeneration(cs[..i + 1], draws[..k'], floorSize) ==
              NextGeneration(cs[..i], draws[..k], floorSize) + Successors(cs[i], draws[k..k'], floorSize)
  {
    CountsOfPrefix(cs, i);
    var k := ReproducerCount(cs[..i]);
    var k' := ReproducerCount(cs[..i + 1]);
    assert cs[..i + 1][..i] == cs[..i];
    assert draws[..k'][..k] == draws[..k];
    assert draws[..k'][k..] == draws[k..k'];
  }

  /** Where a survivor lands: the survivor at index `j` is carried over at
      the position given by the survivors and offspring before it, and when
      it reproduces its offspring, built from the next unused draw, follows
      it immediately. */
  lemma {:induction false} GenerationPlacement(cs: seq<Creature>, draws: seq<SpawnDraw>, floorSize: real, j: nat)
    requires |draws| == ReproducerCount(cs)
    requires j < |cs| && cs[j].info.willSurvive
    ensures var g := NextGeneration(cs, draws, floorSize);
            var p := PopulationAfter(cs[..j]);
            var q := ReproducerCount(cs[..j]);
            p < |g| && g[p] == Survivor(cs[j]) &&
            (cs[j].info.willReproduce ==>
               p + 1 < |g| && q < |draws| && g[p + 1] == Offspring(cs[j].info, draws[q], floorSize))
    decreases |cs|
  {
    var n := |cs| - 1;
    var k := ReproducerCount(cs[..n]);
    var init := NextGeneration(cs[..n], draws[..k], floorSize);
    var g := NextGeneration(cs, draws, floorSize);
    assert g == init + Successors(cs[n], draws[k..], floorSize);
    var p := PopulationAfter(cs[..j]);
    var q := ReproducerCount(cs[..j]);
    if j < n {
      assert cs[..n][..j] == cs[..j];
      assert cs[..n][j] == cs[j];
      GenerationPlacement(cs[..n], draws[..k], floorSize, j);
      assert p < |init| && g[p] == init[p];
      if cs[j].info.willReproduce {
        assert p + 1 < |init| && g[p + 1] == init[p + 1];
        assert q < k && draws[..k][q] == draws[q];
      }
    } else {
      assert cs[..j] == cs[..n];
      assert p == |init| && q == k;
      if cs[j].info.willReproduce {
        assert draws[k..][0] == draws[q];
      }
    }
  }

  /** Nobody is in the next population who does not come from a survivor:
      each member is the carried-over record of a creature that survived,
      or an offspring of one that reproduced, built from one of the draws. */
  lemma {:induction false} GenerationMembers(cs: seq<Creature>, draws: seq<SpawnDraw>, floorSize: real)
    requires |draws| == ReproducerCount(cs)
    ensures forall x :: x in NextGeneration(cs, draws, floorSize) ==>
              (exists c :: c in cs && c.info.willSurvive && x == Survivor(c)) ||
              (exists c, d :: c in cs && d in draws && Reproduces(c) && x == Offspring(c.info, d, floorSize))
    decreases |cs|
  {
    if cs != [] {
      var n := |cs| - 1;
      var k := ReproducerCount(cs[..n]);
      var init := NextGeneration(cs[..n], draws[..k], floorSize);
      var succ := Successors(cs[n], draws[k..], floorSize);
      GenerationMembers(cs[..n], draws[..k], floorSize);
      forall x | x in init + succ
        ensures (exists c :: c in cs && c.info.willSurvive && x == Survivor(c)) ||
                (exists c, d :: c in cs && d in draws && Reproduces(c) && x == Offspring(c.info, d, floorSize))
      {
        if x in init {
          if exists c :: c in cs[..n] && c.info.willSurvive && x == Survivor(c) {
            var c :| c in cs[..n] && c.info.willSurvive && x == Survivor(c);
            assert c in cs;
          } else {
            var c, d :| c in cs[..n] && d in draws[..k] && Reproduces(c) && x == Offspring(c.info, d, floorSize);
            assert c in cs && d in draws;
          }
        } else {
          assert cs[n] in cs;
          if x != Survivor(cs[n]) {
            assert draws[k..][0] in draws;
          }
        }
      }
    }
  }
}
