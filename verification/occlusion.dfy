/** Alpha-pruning of a candidate pool into an adjacency list (metrics L2 and cosine). */
module Occlusion {
  import opened Collections
  import opened NeighborQueue

  /** The distance between two locations. */
  type Metric = (nat, nat) -> real

  /** An occlusion factor: a ratio, or the largest float, which stands for "do not consider again". */
  datatype Factor = Ratio(r: real) | Settled

  predicate Exceeds(f: Factor, a: real) {
    f.Settled? || f.r > a
  }

  /** The alpha of a round: 1, 1.2, 1.44, ... */
  function Level(round: nat): (a: real)
    ensures a >= 1.0
  {
    if round == 0 then 1.0 else Level(round - 1) * 1.2
  }

  /** Candidate p occludes candidate t at a level: they coincide, or t is more than that much closer to p. */
  predicate Blocks(pool: seq<Neighbor>, D: Metric, p: nat, t: nat, level: real)
    requires p < |pool| && t < |pool|
  {
    var djk := D(pool[t].id, pool[p].id);
    djk == 0.0 || pool[t].distance / djk > level
  }

  /** What the choice of candidate i does to the factor of candidate t. */
  function Occluded(pool: seq<Neighbor>, D: Metric, i: nat, t: nat, f: Factor, alpha: real): Factor
    requires i < |pool| && t < |pool|
  {
    if t <= i || Exceeds(f, alpha) then f
    else
      var djk := D(pool[t].id, pool[i].id);
      if djk == 0.0 then Settled
      else Ratio(if f.r < pool[t].distance / djk then pool[t].distance / djk else f.r)
  }

  method OccludeFrom(pool: seq<Neighbor>, D: Metric, i: nat, was: seq<Factor>, alpha: real)
    returns (factor: seq<Factor>)
    requires i < |pool| == |was|
    ensures |factor| == |pool| && forall t :: 0 <= t < |pool| ==> factor[t] == Occluded(pool, D, i, t, was[t], alpha)
  {
    factor := was;
    for t := i + 1 to |pool|
      invariant |factor| == |pool|
      invariant forall u :: 0 <= u < t ==> factor[u] == Occluded(pool, D, i, u, was[u], alpha)
      invariant forall u :: t <= u < |pool| ==> factor[u] == was[u]
    {
      if Exceeds(factor[t], alpha) {
        continue;
      }
      var djk := D(pool[t].id, pool[i].id);
      if djk == 0.0 {
        factor := factor[t := Settled];
      } else if factor[t].r < pool[t].distance / djk {
        factor := factor[t := Ratio(pool[t].distance / djk)];
      }
    }
  }

  /** The locations of the chosen candidates, without the location itself and without deleted ones. */
  function KeptIds(pool: seq<Neighbor>, chosen: seq<nat>, location: nat, deleted: set<nat>): (r: seq<nat>)
    requires Below(chosen, |pool|)
    ensures |r| <= |chosen|
  {
    if chosen == [] then []
    else
      var r := KeptIds(pool, chosen[..|chosen| - 1], location, deleted);
      var id := pool[chosen[|chosen| - 1]].id;
      if id !in deleted && id != location then r + [id] else r
  }

  /** Someone chosen, ahead of t in the pool, occludes t at the level. */
  ghost predicate Covered(pool: seq<Neighbor>, D: Metric, chosen: seq<nat>, t: nat, level: real)
    requires Below(chosen, |pool|) && t < |pool|
  {
    exists k :: 0 <= k < |chosen| && chosen[k] < t && Blocks(pool, D, chosen[k], t, level)
  }

  /** Nobody chosen and ahead of t in the pool occludes t at the level. */
  ghost predicate Clear(pool: seq<Neighbor>, D: Metric, chosen: seq<nat>, t: nat, level: real)
    requires Below(chosen, |pool|) && t < |pool|
  {
    forall k :: 0 <= k < |chosen| && chosen[k] < t ==> !Blocks(pool, D, chosen[k], t, level)
  }

  /** The j-th choice: clear at the level of its round, while all unchosen candidates before it are covered at that
      level and all unchosen candidates are covered at the level before. */
  ghost predicate ChoiceJustified(pool: seq<Neighbor>, D: Metric, chosen: seq<nat>, rounds: seq<nat>, j: nat)
    requires Below(chosen, |pool|) && |rounds| == |chosen| && j < |chosen|
  {
    && Clear(pool, D, chosen[..j], chosen[j], Level(rounds[j]))
    && (forall t: nat :: t < chosen[j] && t !in chosen[..j] ==> Covered(pool, D, chosen[..j], t, Level(rounds[j])))
    && (rounds[j] > 0 ==> forall t: nat :: t < |pool| && t !in chosen[..j] ==>
        Covered(pool, D, chosen[..j], t, Level(rounds[j] - 1)))
  }

  /** Choices are made round by round, and within a round in pool order. */
  ghost predicate InRounds(chosen: seq<nat>, rounds: seq<nat>) {
    && |rounds| == |chosen|
    && forall i, j :: 0 <= i < j < |chosen| ==>
         rounds[i] < rounds[j] || (rounds[i] == rounds[j] && chosen[i] < chosen[j])
  }

  ghost predicate Justified(pool: seq<Neighbor>, D: Metric, alpha: real, chosen: seq<nat>, rounds: seq<nat>) {
    && NoDup(chosen) && Below(chosen, |pool|) && InRounds(chosen, rounds)
    && forall j :: 0 <= j < |chosen| ==> Level(rounds[j]) <= alpha && ChoiceJustified(pool, D, chosen, rounds, j)
  }

  /** What the pruning loop is for. It never overshoots the degree; if it ends below it, every unchosen candidate is
      covered at every level up to alpha. */
  ghost predicate IsPruning(pool: seq<Neighbor>, D: Metric, alpha: real, degree: nat, location: nat, deleted: set<nat>,
                            chosen: seq<nat>, rounds: seq<nat>)
  {
    && Justified(pool, D, alpha, chosen, rounds)
    && |KeptIds(pool, chosen, location, deleted)| <= degree
    && NoOvershoot(pool, location, deleted, degree, chosen)
    && (|KeptIds(pool, chosen, location, deleted)| < degree ==>
          forall t: nat, r: nat :: t < |pool| && t !in chosen ==> CoveredInRound(pool, D, alpha, chosen, t, r))
  }

  ghost predicate CoveredInRound(pool: seq<Neighbor>, D: Metric, alpha: real, chosen: seq<nat>, t: nat, round: nat)
    requires Below(chosen, |pool|) && t < |pool|
  {
    Level(round) <= alpha ==> Covered(pool, D, chosen, t, Level(round))
  }

  // ------------------------------------------------------------------ the factors mean what they should

  /** The factor of t is attained by a chosen candidate ahead of it. */
  ghost predicate Attained(pool: seq<Neighbor>, D: Metric, chosen: seq<nat>, t: nat, f: Factor)
    requires Below(chosen, |pool|) && t < |pool|
  {
    f == Ratio(0.0) || exists k :: 0 <= k < |chosen| && chosen[k] < t && Gives(pool, D, chosen[k], t, f)
  }

  ghost predicate Gives(pool: seq<Neighbor>, D: Metric, p: nat, t: nat, f: Factor)
    requires p < |pool| && t < |pool|
  {
    var djk := D(pool[t].id, pool[p].id);
    if djk == 0.0 then f.Settled? else f == Ratio(pool[t].distance / djk)
  }

  ghost predicate FactorOk(pool: seq<Neighbor>, D: Metric, alpha: real, chosen: seq<nat>, t: nat, f: Factor)
    requires Below(chosen, |pool|) && t < |pool|
  {
    if t in chosen then f.Settled?
    else Attained(pool, D, chosen, t, f) && (Exceeds(f, alpha) || Clear(pool, D, chosen, t, f.r))
  }

  ghost predicate FactorsOk(pool: seq<Neighbor>, D: Metric, alpha: real, chosen: seq<nat>, factor: seq<Factor>) {
    && Below(chosen, |pool|) && |factor| == |pool|
    && forall t :: 0 <= t < |pool| ==> FactorOk(pool, D, alpha, chosen, t, factor[t])
  }

  /** A factor above a positive level is there because of a chosen candidate. */
  lemma ExceedingIsCovered(pool: seq<Neighbor>, D: Metric, alpha: real, chosen: seq<nat>, t: nat, f: Factor,
                           level: real)
    requires Below(chosen, |pool|) && t < |pool| && FactorOk(pool, D, alpha, chosen, t, f)
    requires t !in chosen && Exceeds(f, level) && level >= 0.0
    ensures Covered(pool, D, chosen, t, level)
  {
    var k :| 0 <= k < |chosen| && chosen[k] < t && Gives(pool, D, chosen[k], t, f);
    assert Blocks(pool, D, chosen[k], t, level);
  }

  lemma CoveredGrows(pool: seq<Neighbor>, D: Metric, chosen: seq<nat>, x: nat, t: nat, level: real)
    requires Below(chosen + [x], |pool|) && Below(chosen, |pool|) && t < |pool| && Covered(pool, D, chosen, t, level)
    ensures Covered(pool, D, chosen + [x], t, level)
  {
    var k :| 0 <= k < |chosen| && chosen[k] < t && Blocks(pool, D, chosen[k], t, level);
    assert (chosen + [x])[k] == chosen[k];
  }

  /** Choosing i updates the factor of another candidate correctly. */
  lemma ChoiceKeepsFactor(pool: seq<Neighbor>, D: Metric, alpha: real, chosen: seq<nat>, i: nat, t: nat, f: Factor)
    requires Below(chosen, |pool|) && i < |pool| && t < |pool| && t != i
    requires FactorOk(pool, D, alpha, chosen, t, f)
    ensures Below(chosen + [i], |pool|)
    ensures FactorOk(pool, D, alpha, chosen + [i], t, Occluded(pool, D, i, t, f, alpha))
  {
    var c := chosen + [i];
    var g := Occluded(pool, D, i, t, f, alpha);
    assert c[|chosen|] == i && forall k :: 0 <= k < |chosen| ==> c[k] == chosen[k];
    if t !in chosen {
      if g == f {
        if f != Ratio(0.0) {
          var k :| 0 <= k < |chosen| && chosen[k] < t && Gives(pool, D, chosen[k], t, f);
          assert c[k] < t && Gives(pool, D, c[k], t, g);
        }
      } else {
        assert c[|chosen|] < t && Gives(pool, D, c[|chosen|], t, g);
      }
    }
  }

  lemma ChoiceKeepsFactors(pool: seq<Neighbor>, D: Metric, alpha: real, chosen: seq<nat>, i: nat,
                           factor: seq<Factor>, next: seq<Factor>)
    requires FactorsOk(pool, D, alpha, chosen, factor) && i < |pool| == |next|
    requires next[i] == Settled
    requires forall t :: 0 <= t < |pool| && t != i ==> next[t] == Occluded(pool, D, i, t, factor[t], alpha)
    ensures FactorsOk(pool, D, alpha, chosen + [i], next)
  {
    forall t | 0 <= t < |pool| ensures FactorOk(pool, D, alpha, chosen + [i], t, next[t]) {
      if t == i {
        assert (chosen + [i])[|chosen|] == i;
      } else {
        ChoiceKeepsFactor(pool, D, alpha, chosen, i, t, factor[t]);
      }
    }
  }

  /** What is known between two visits of a pass: the first i candidates have been looked at in this round. */
  ghost predicate PassInv(pool: seq<Neighbor>, D: Metric, alpha: real, chosen: seq<nat>, rounds: seq<nat>,
                          factor: seq<Factor>, round: nat, i: nat)
  {
    && FactorsOk(pool, D, alpha, chosen, factor)
    && Justified(pool, D, alpha, chosen, rounds)
    && (forall k :: 0 <= k < |chosen| ==> rounds[k] < round || (rounds[k] == round && chosen[k] < i))
    && (forall t :: 0 <= t < |pool| && t < i && t !in chosen ==> Exceeds(factor[t], Level(round)))
    && (round > 0 ==> forall t :: 0 <= t < |pool| && t !in chosen ==> Covered(pool, D, chosen, t, Level(round - 1)))
  }

  /** Choosing a candidate whose factor is not above the level. */
  lemma ChooseKeepsPass(pool: seq<Neighbor>, D: Metric, alpha: real, chosen: seq<nat>, rounds: seq<nat>,
                        factor: seq<Factor>, round: nat, i: nat, next: seq<Factor>)
    requires PassInv(pool, D, alpha, chosen, rounds, factor, round, i)
    requires i < |pool| == |next| && Level(round) <= alpha && !Exceeds(factor[i], Level(round))
    requires next[i] == Settled
    requires forall t :: 0 <= t < |pool| && t != i ==> next[t] == Occluded(pool, D, i, t, factor[t], alpha)
    ensures PassInv(pool, D, alpha, chosen + [i], rounds + [round], next, round, i + 1)
  {
    ChoiceKeepsFactors(pool, D, alpha, chosen, i, factor, next);
    ChoiceIsJustified(pool, D, alpha, chosen, rounds, factor, round, i);
    forall t | 0 <= t < |pool| && t !in chosen + [i] && round > 0
      ensures Covered(pool, D, chosen + [i], t, Level(round - 1)) {
      assert t !in chosen;
      CoveredGrows(pool, D, chosen, i, t, Level(round - 1));
    }
    forall t | 0 <= t < i + 1 && t !in chosen + [i] ensures Exceeds(next[t], Level(round)) {
      assert t !in chosen && (chosen + [i])[|chosen|] == i;
    }
  }

  lemma LaterChoice(chosen: seq<nat>, rounds: seq<nat>, round: nat, i: nat)
    requires InRounds(chosen, rounds)
    requires forall k :: 0 <= k < |chosen| ==> rounds[k] < round || (rounds[k] == round && chosen[k] < i)
    ensures InRounds(chosen + [i], rounds + [round])
  {
  }

  lemma EarlierChoice(pool: seq<Neighbor>, D: Metric, chosen: seq<nat>, rounds: seq<nat>, i: nat, round: nat, j: nat)
    requires Below(chosen, |pool|) && Below(chosen + [i], |pool|) && |rounds| == |chosen| && j < |chosen|
    requires ChoiceJustified(pool, D, chosen, rounds, j)
    ensures ChoiceJustified(pool, D, chosen + [i], rounds + [round], j)
  {
    assert (chosen + [i])[..j] == chosen[..j];
  }

  lemma NewChoice(pool: seq<Neighbor>, D: Metric, alpha: real, chosen: seq<nat>, rounds: seq<nat>, f: Factor,
                  round: nat, i: nat)
    requires Below(chosen, |pool|) && Below(chosen + [i], |pool|) && |rounds| == |chosen| && i < |pool| && i !in chosen
    requires FactorOk(pool, D, alpha, chosen, i, f) && Level(round) <= alpha && !Exceeds(f, Level(round))
    requires forall t: nat :: t < i && t !in chosen ==> Covered(pool, D, chosen, t, Level(round))
    requires round > 0 ==> forall t: nat :: t < |pool| && t !in chosen ==> Covered(pool, D, chosen, t, Level(round - 1))
    ensures ChoiceJustified(pool, D, chosen + [i], rounds + [round], |chosen|)
  {
    assert (chosen + [i])[..|chosen|] == chosen;
  }

  lemma ChoiceIsJustified(pool: seq<Neighbor>, D: Metric, alpha: real, chosen: seq<nat>, rounds: seq<nat>,
                          factor: seq<Factor>, round: nat, i: nat)
    requires PassInv(pool, D, alpha, chosen, rounds, factor, round, i)
    requires i < |pool| && Level(round) <= alpha && !Exceeds(factor[i], Level(round))
    ensures Justified(pool, D, alpha, chosen + [i], rounds + [round])
  {
    var c, r := chosen + [i], rounds + [round];
    assert i !in chosen;
    NoDupSnoc(chosen, i);
    LaterChoice(chosen, rounds, round, i);
    forall t: nat | t < i && t !in chosen ensures Covered(pool, D, chosen, t, Level(round)) {
      ExceedingIsCovered(pool, D, alpha, chosen, t, factor[t], Level(round));
    }
    NewChoice(pool, D, alpha, chosen, rounds, factor[i], round, i);
    forall j | 0 <= j < |chosen| ensures Level(r[j]) <= alpha && ChoiceJustified(pool, D, c, r, j) {
      EarlierChoice(pool, D, chosen, rounds, i, round, j);
    }
  }

  /** The end of a pass: whoever is not chosen is covered at its level. */
  lemma PassEnds(pool: seq<Neighbor>, D: Metric, alpha: real, chosen: seq<nat>, rounds: seq<nat>,
                 factor: seq<Factor>, round: nat)
    requires PassInv(pool, D, alpha, chosen, rounds, factor, round, |pool|)
    ensures PassInv(pool, D, alpha, chosen, rounds, factor, round + 1, 0)
  {
    forall t | 0 <= t < |pool| && t !in chosen ensures Covered(pool, D, chosen, t, Level(round)) {
      ExceedingIsCovered(pool, D, alpha, chosen, t, factor[t], Level(round));
    }
  }

  function Truncated(pool: seq<Neighbor>, maxc: nat): (r: seq<Neighbor>)
    ensures r <= pool && |r| <= maxc && (|r| < maxc ==> r == pool)
  {
    if |pool| > maxc then pool[..maxc] else pool
  }

  lemma SkipKeepsPass(pool: seq<Neighbor>, D: Metric, alpha: real, chosen: seq<nat>, rounds: seq<nat>,
                      factor: seq<Factor>, round: nat, i: nat)
    requires PassInv(pool, D, alpha, chosen, rounds, factor, round, i)
    requires i < |pool| && Exceeds(factor[i], Level(round))
    ensures PassInv(pool, D, alpha, chosen, rounds, factor, round, i + 1)
  {
  }

  lemma KeptSnoc(pool: seq<Neighbor>, chosen: seq<nat>, i: nat, location: nat, deleted: set<nat>)
    requires Below(chosen, |pool|) && i < |pool|
    ensures Below(chosen + [i], |pool|)
    ensures KeptIds(pool, chosen + [i], location, deleted) ==
      KeptIds(pool, chosen, location, deleted)
        + if pool[i].id !in deleted && pool[i].id != location then [pool[i].id] else []
  {
    assert (chosen + [i])[..|chosen|] == chosen;
  }

  /** The choices so far and what is known of them. */
  ghost predicate Visited(pool: seq<Neighbor>, D: Metric, alpha: real, location: nat, deleted: set<nat>, degree: nat,
                          chosen: seq<nat>, rounds: seq<nat>, factor: seq<Factor>, result: seq<nat>, round: nat, i: nat)
  {
    && PassInv(pool, D, alpha, chosen, rounds, factor, round, i)
    && result == KeptIds(pool, chosen, location, deleted)
    && NoOvershoot(pool, location, deleted, degree, chosen)
  }

  /** Before each choice there was still room. */
  ghost predicate NoOvershoot(pool: seq<Neighbor>, location: nat, deleted: set<nat>, degree: nat, chosen: seq<nat>)
    requires Below(chosen, |pool|)
  {
    forall j :: 0 <= j < |chosen| ==> |KeptIds(pool, chosen[..j], location, deleted)| < degree
  }

  lemma RoomForOne(pool: seq<Neighbor>, location: nat, deleted: set<nat>, degree: nat, chosen: seq<nat>, i: nat)
    requires Below(chosen, |pool|) && i < |pool| && NoOvershoot(pool, location, deleted, degree, chosen)
    requires |KeptIds(pool, chosen, location, deleted)| < degree
    ensures Below(chosen + [i], |pool|) && NoOvershoot(pool, location, deleted, degree, chosen + [i])
  {
    forall j | 0 <= j < |chosen| + 1 ensures |KeptIds(pool, (chosen + [i])[..j], location, deleted)| < degree {
      assert (chosen + [i])[..j] == if j < |chosen| then chosen[..j] else chosen;
    }
  }

  /** Looks at candidate i. If its factor allows, it is settled, listed unless deleted or the location itself, and
      occludes what comes behind it. */
  method Visit(cand: seq<Neighbor>, D: Metric, alpha: real, curAlpha: real, location: nat, deleted: set<nat>,
               degree: nat, i: nat, factor0: seq<Factor>, result0: seq<nat>, ghost chosen0: seq<nat>,
               ghost rounds0: seq<nat>, ghost round: nat)
    returns (factor: seq<Factor>, result: seq<nat>, ghost chosen: seq<nat>, ghost rounds: seq<nat>)
    requires i < |cand| == |factor0| && curAlpha == Level(round) <= alpha && |result0| < degree
    requires Visited(cand, D, alpha, location, deleted, degree, chosen0, rounds0, factor0, result0, round, i)
    ensures |factor| == |cand| && |result| <= |result0| + 1
    ensures Visited(cand, D, alpha, location, deleted, degree, chosen, rounds, factor, result, round, i + 1)
  {
    factor, result, chosen, rounds := factor0, result0, chosen0, rounds0;
    if Exceeds(factor[i], curAlpha) {
      SkipKeepsPass(cand, D, alpha, chosen, rounds, factor, round, i);
      return;
    }
    KeptSnoc(cand, chosen, i, location, deleted);
    RoomForOne(cand, location, deleted, degree, chosen, i);
    if cand[i].id !in deleted && cand[i].id != location {
      result := result + [cand[i].id];
    }
    factor := OccludeFrom(cand, D, i, factor[i := Settled], alpha);
    ChooseKeepsPass(cand, D, alpha, chosen, rounds, factor0, round, i, factor);
    chosen, rounds := chosen + [i], rounds + [round];
  }

  /** One round over the candidates at a given level. */
  method Pass(cand: seq<Neighbor>, D: Metric, alpha: real, curAlpha: real, location: nat, deleted: set<nat>,
              degree: nat, factor0: seq<Factor>, result0: seq<nat>, ghost chosen0: seq<nat>,
              ghost rounds0: seq<nat>, ghost round: nat)
    returns (factor: seq<Factor>, result: seq<nat>, ghost chosen: seq<nat>, ghost rounds: seq<nat>)
    requires Visited(cand, D, alpha, location, deleted, degree, chosen0, rounds0, factor0, result0, round, 0)
    requires |factor0| == |cand| && |result0| < degree && curAlpha == Level(round) <= alpha
    ensures Outcome(cand, D, alpha, location, deleted, degree, chosen, rounds, factor, result, round + 1)
  {
    factor, result, chosen, rounds := factor0, result0, chosen0, rounds0;
    var i := 0;
    while |result| < degree && i < |cand|
      invariant i <= |cand| == |factor| && |result| <= degree
      invariant Visited(cand, D, alpha, location, deleted, degree, chosen, rounds, factor, result, round, i)
      decreases |cand| - i
    {
      factor, result, chosen, rounds :=
        Visit(cand, D, alpha, curAlpha, location, deleted, degree, i, factor, result, chosen, rounds, round);
      i := i + 1;
    }
    RoundEnds(cand, D, alpha, location, deleted, degree, chosen, rounds, factor, result, round, i);
  }

  /** After a round: justified choices, and unless the list is full everything is set for the next round. */
  ghost predicate Outcome(pool: seq<Neighbor>, D: Metric, alpha: real, location: nat, deleted: set<nat>, degree: nat,
                          chosen: seq<nat>, rounds: seq<nat>, factor: seq<Factor>, result: seq<nat>, round: nat)
  {
    && Justified(pool, D, alpha, chosen, rounds)
    && NoOvershoot(pool, location, deleted, degree, chosen)
    && result == KeptIds(pool, chosen, location, deleted)
    && |result| <= degree
    && (|result| < degree ==>
          |factor| == |pool|
            && Visited(pool, D, alpha, location, deleted, degree, chosen, rounds, factor, result, round, 0))
  }

  lemma RoundEnds(pool: seq<Neighbor>, D: Metric, alpha: real, location: nat, deleted: set<nat>, degree: nat,
                  chosen: seq<nat>, rounds: seq<nat>, factor: seq<Factor>, result: seq<nat>, round: nat, i: nat)
    requires Visited(pool, D, alpha, location, deleted, degree, chosen, rounds, factor, result, round, i)
    requires |factor| == |pool| && |result| <= degree && (|result| < degree ==> i == |pool|)
    ensures Outcome(pool, D, alpha, location, deleted, degree, chosen, rounds, factor, result, round + 1)
  {
    if |result| < degree {
      PassEnds(pool, D, alpha, chosen, rounds, factor, round);
    }
  }

  lemma {:induction false} LevelsGrow(r: nat, s: nat)
    requires r <= s
    ensures Level(r) <= Level(s)
    ensures r < s ==> Level(r) < Level(s)
    decreases s
  {
    if r < s { LevelsGrow(r, s - 1); }
  }

  lemma CoveredBelow(pool: seq<Neighbor>, D: Metric, chosen: seq<nat>, t: nat, level: real, lower: real)
    requires Below(chosen, |pool|) && t < |pool| && Covered(pool, D, chosen, t, level) && lower <= level
    ensures Covered(pool, D, chosen, t, lower)
  {
    var k :| 0 <= k < |chosen| && chosen[k] < t && Blocks(pool, D, chosen[k], t, level);
    assert Blocks(pool, D, chosen[k], t, lower);
  }

  lemma EarlierLevel(r: nat, passes: nat, alpha: real)
    requires Level(r) <= alpha < Level(passes)
    ensures r < passes && Level(r) <= Level(passes - 1)
  {
    if r < passes { LevelsGrow(r, passes - 1); } else { LevelsGrow(passes, r); }
  }

  /** The rounds ran out. */
  lemma RoundsRanOut(pool: seq<Neighbor>, D: Metric, alpha: real, location: nat, deleted: set<nat>, degree: nat,
                     chosen: seq<nat>, rounds: seq<nat>, factor: seq<Factor>, result: seq<nat>, passes: nat)
    requires Outcome(pool, D, alpha, location, deleted, degree, chosen, rounds, factor, result, passes)
    requires |result| < degree ==> Level(passes) > alpha
    ensures IsPruning(pool, D, alpha, degree, location, deleted, chosen, rounds)
  {
    if |result| < degree {
      forall t: nat, r: nat | t < |pool| && t !in chosen ensures CoveredInRound(pool, D, alpha, chosen, t, r) {
        if Level(r) <= alpha {
          EarlierLevel(r, passes, alpha);
          CoveredBelow(pool, D, chosen, t, Level(passes - 1), Level(r));
        }
      }
    }
  }

  /** The pruning loop. `chosen` lists the positions of the chosen candidates, `rounds` the round of each. */
  method OccludeList(location: nat, pool: seq<Neighbor>, alpha: real, degree: nat, maxc: nat, D: Metric,
                     deleted: set<nat>)
    returns (cand: seq<Neighbor>, result: seq<nat>, ghost chosen: seq<nat>, ghost rounds: seq<nat>)
    ensures cand == Truncated(pool, maxc)
    ensures IsPruning(cand, D, alpha, degree, location, deleted, chosen, rounds)
    ensures result == KeptIds(cand, chosen, location, deleted)
  {
    cand, result, chosen, rounds := Truncated(pool, maxc), [], [], [];
    if |pool| == 0 {
      return;
    }
    var factor := seq(|cand|, t => Ratio(0.0));
    var curAlpha := 1.0;
    ghost var passes := 0;
    while curAlpha <= alpha && |result| < degree
      invariant curAlpha == Level(passes)
      invariant Outcome(cand, D, alpha, location, deleted, degree, chosen, rounds, factor, result, passes)
      decreases if curAlpha <= alpha then (5.0 * (alpha - curAlpha)).Floor + 1 else 0
    {
      factor, result, chosen, rounds :=
        Pass(cand, D, alpha, curAlpha, location, deleted, degree, factor, result, chosen, rounds, passes);
      curAlpha := curAlpha * 1.2;
      passes := passes + 1;
    }
    RoundsRanOut(cand, D, alpha, location, deleted, degree, chosen, rounds, factor, result, passes);
  }

  // ------------------------------------------------------------------ what the pruned list guarantees

  /** Of two lists the same candidates could be put on, the next choice is forced. */
  lemma NextChoiceForced(pool: seq<Neighbor>, D: Metric, prefix: seq<nat>, t1: nat, r1: nat, t2: nat, r2: nat)
    requires Below(prefix, |pool|) && t1 < |pool| && t1 !in prefix
    requires Clear(pool, D, prefix, t1, Level(r1))
    requires t1 < t2 && r1 == r2 ==> Covered(pool, D, prefix, t1, Level(r2))
    requires r2 > 0 ==> Covered(pool, D, prefix, t1, Level(r2 - 1))
    ensures r1 > r2 || (r1 == r2 && t1 >= t2)
  {
    if r1 < r2 {
      LevelsGrow(r1, r2 - 1);
      CoveredBelow(pool, D, prefix, t1, Level(r2 - 1), Level(r1));
    }
  }

  lemma SameChoice(pool: seq<Neighbor>, D: Metric, c1: seq<nat>, r1: seq<nat>, c2: seq<nat>, r2: seq<nat>, j: nat)
    requires Below(c1, |pool|) && |r1| == |c1| && j < |c1| && NoDup(c1) && ChoiceJustified(pool, D, c1, r1, j)
    requires Below(c2, |pool|) && |r2| == |c2| && j < |c2| && NoDup(c2) && ChoiceJustified(pool, D, c2, r2, j)
    requires c1[..j] == c2[..j]
    ensures c1[j] == c2[j] && r1[j] == r2[j]
  {
    assert c1[j] !in c1[..j] && c2[j] !in c2[..j];
    NextChoiceForced(pool, D, c1[..j], c1[j], r1[j], c2[j], r2[j]);
    NextChoiceForced(pool, D, c1[..j], c2[j], r2[j], c1[j], r1[j]);
  }

  lemma {:induction false} SamePrefix(pool: seq<Neighbor>, D: Metric, alpha: real, c1: seq<nat>, r1: seq<nat>,
                                      c2: seq<nat>, r2: seq<nat>, n: nat)
    requires Justified(pool, D, alpha, c1, r1) && Justified(pool, D, alpha, c2, r2) && n <= |c1| && n <= |c2|
    ensures c1[..n] == c2[..n] && r1[..n] == r2[..n]
  {
    if n > 0 {
      SamePrefix(pool, D, alpha, c1, r1, c2, r2, n - 1);
      var j := n - 1;
      SameChoice(pool, D, c1, r1, c2, r2, j);
      assert c1[..n] == c1[..j] + [c1[j]] && c2[..n] == c2[..j] + [c2[j]];
      assert r1[..n] == r1[..j] + [r1[j]] && r2[..n] == r2[..j] + [r2[j]];
    }
  }

  /** Where a pruning goes on from a prefix, there is room and the next candidate is clear. */
  lemma GoesOn(pool: seq<Neighbor>, D: Metric, alpha: real, degree: nat, location: nat, deleted: set<nat>,
               prefix: seq<nat>, c: seq<nat>, r: seq<nat>)
    requires IsPruning(pool, D, alpha, degree, location, deleted, c, r) && |prefix| < |c| && prefix == c[..|prefix|]
    ensures Below(prefix, |pool|) && |KeptIds(pool, prefix, location, deleted)| < degree
    ensures c[|prefix|] !in prefix && Level(r[|prefix|]) <= alpha
    ensures Clear(pool, D, prefix, c[|prefix|], Level(r[|prefix|]))
  {
    assert ChoiceJustified(pool, D, c, r, |prefix|);
  }

  /** Where a pruning stops, it is full or every unchosen candidate is covered. */
  lemma StoppedBecause(pool: seq<Neighbor>, D: Metric, alpha: real, degree: nat, location: nat, deleted: set<nat>,
                       c: seq<nat>, r: seq<nat>, t: nat, round: nat)
    requires IsPruning(pool, D, alpha, degree, location, deleted, c, r) && t < |pool|
    ensures |KeptIds(pool, c, location, deleted)| == degree || t in c || Level(round) > alpha
      || Covered(pool, D, c, t, Level(round))
  {
    assert t in c || |KeptIds(pool, c, location, deleted)| == degree || CoveredInRound(pool, D, alpha, c, t, round);
  }

  /** A pruning never stops while another would go on. */
  lemma NotShorter(pool: seq<Neighbor>, D: Metric, alpha: real, degree: nat, location: nat, deleted: set<nat>,
                   c1: seq<nat>, r1: seq<nat>, c2: seq<nat>, r2: seq<nat>)
    requires IsPruning(pool, D, alpha, degree, location, deleted, c1, r1)
    requires IsPruning(pool, D, alpha, degree, location, deleted, c2, r2)
    ensures |c1| >= |c2|
  {
    var n := if |c1| < |c2| then |c1| else |c2|;
    SamePrefix(pool, D, alpha, c1, r1, c2, r2, n);
    if n == |c1| && n < |c2| {
      assert c1[..n] == c1;
      StoppedBecause(pool, D, alpha, degree, location, deleted, c1, r1, c2[n], r2[n]);
      GoesOn(pool, D, alpha, degree, location, deleted, c1, c2, r2);
      assert false;
    }
  }

  /** IsPruning determines the list: the loop computes the only one there is. */
  lemma PruningIsDetermined(pool: seq<Neighbor>, D: Metric, alpha: real, degree: nat, location: nat, deleted: set<nat>,
                            c1: seq<nat>, r1: seq<nat>, c2: seq<nat>, r2: seq<nat>)
    requires IsPruning(pool, D, alpha, degree, location, deleted, c1, r1)
    requires IsPruning(pool, D, alpha, degree, location, deleted, c2, r2)
    ensures c1 == c2 && r1 == r2
  {
    NotShorter(pool, D, alpha, degree, location, deleted, c1, r1, c2, r2);
    NotShorter(pool, D, alpha, degree, location, deleted, c2, r2, c1, r1);
    SamePrefix(pool, D, alpha, c1, r1, c2, r2, |c1|);
    assert c1 == c1[..|c1|] && c2 == c2[..|c2|] && r1 == r1[..|r1|] && r2 == r2[..|r2|];
  }

  ghost predicate NonNegative(D: Metric) {
    forall x, y :: D(x, y) >= 0.0
  }

  /** Candidate t coincides with p, or is more than level times closer to p than to the point. */
  ghost predicate MuchCloser(pool: seq<Neighbor>, D: Metric, p: nat, t: nat, level: real)
    requires p < |pool| && t < |pool|
  {
    var djk := D(pool[t].id, pool[p].id);
    djk == 0.0 || pool[t].distance > level * djk
  }

  /** Soundness: a candidate kept after another one that is ahead of it in the pool is not occluded by that one. */
  lemma KeptAreNotOccluded(pool: seq<Neighbor>, D: Metric, alpha: real, chosen: seq<nat>, rounds: seq<nat>, i: nat,
                           j: nat)
    requires Justified(pool, D, alpha, chosen, rounds) && NonNegative(D)
    requires i < j < |chosen| && chosen[i] < chosen[j]
    ensures !MuchCloser(pool, D, chosen[i], chosen[j], Level(rounds[j]))
    ensures !MuchCloser(pool, D, chosen[i], chosen[j], alpha)
  {
    assert ChoiceJustified(pool, D, chosen, rounds, j);
    assert chosen[..j][i] == chosen[i];
    assert !Blocks(pool, D, chosen[i], chosen[j], Level(rounds[j]));
    assert !Blocks(pool, D, chosen[i], chosen[j], alpha);
    BlocksMeans(pool, D, chosen[i], chosen[j], Level(rounds[j]));
    BlocksMeans(pool, D, chosen[i], chosen[j], alpha);
  }

  lemma RatioAtMost(d: real, djk: real, level: real)
    requires djk > 0.0
    ensures d / djk <= level <==> d <= level * djk
  {
    assert d == (d / djk) * djk;
    if d / djk <= level { assert (d / djk) * djk <= level * djk; }
    else { assert (d / djk) * djk > level * djk; }
  }

  /** Coverage: a list shorter than the degree has, for every dropped candidate and every level up to alpha, a kept one
      ahead of it that coincides with it or is that much closer to it than the point is. */
  lemma DroppedAreOccluded(pool: seq<Neighbor>, D: Metric, alpha: real, degree: nat, location: nat, deleted: set<nat>,
                           chosen: seq<nat>, rounds: seq<nat>, t: nat, round: nat)
    returns (k: nat)
    requires IsPruning(pool, D, alpha, degree, location, deleted, chosen, rounds) && NonNegative(D)
    requires |KeptIds(pool, chosen, location, deleted)| < degree && t < |pool| && t !in chosen && Level(round) <= alpha
    ensures k < |chosen| && chosen[k] < t && MuchCloser(pool, D, chosen[k], t, Level(round))
  {
    StoppedBecause(pool, D, alpha, degree, location, deleted, chosen, rounds, t, round);
    k := Coverer(pool, D, chosen, t, Level(round));
  }

  /** The levels are the powers of 1.2. */
  lemma LevelsAre(round: nat)
    ensures Level(0) == 1.0 && Level(1) == 1.2 && Level(round + 1) == 1.2 * Level(round)
  {
  }

  /** The largest level up to alpha is within a factor of 1.2 of it. */
  lemma {:induction false} LastLevel(alpha: real, from: nat) returns (round: nat)
    requires Level(from) <= alpha
    ensures Level(round) <= alpha < 1.2 * Level(round)
    decreases (5.0 * (alpha - Level(from))).Floor
  {
    LevelsAre(from);
    if alpha < 1.2 * Level(from) { round := from; } else { round := LastLevel(alpha, from + 1); }
  }

  lemma MuchCloserThan(pool: seq<Neighbor>, D: Metric, p: nat, t: nat, level: real, lower: real)
    requires p < |pool| && t < |pool| && D(pool[t].id, pool[p].id) >= 0.0
    requires MuchCloser(pool, D, p, t, level) && lower <= level
    ensures MuchCloser(pool, D, p, t, lower)
  {
    var djk := D(pool[t].id, pool[p].id);
    assert lower * djk <= level * djk;
  }

  /** In numbers: a candidate dropped from a list with room has a kept one ahead of it that coincides with it, or to
      which it is more than factor times closer than to the point, for every factor up to alpha / 1.2; and for 1.2
      itself, if alpha is that large. */
  lemma DroppedInNumbers(pool: seq<Neighbor>, D: Metric, alpha: real, degree: nat, location: nat, deleted: set<nat>,
                         chosen: seq<nat>, rounds: seq<nat>, t: nat, factor: real)
    returns (k: nat)
    requires IsPruning(pool, D, alpha, degree, location, deleted, chosen, rounds) && NonNegative(D)
    requires |KeptIds(pool, chosen, location, deleted)| < degree && t < |pool| && t !in chosen && 1.0 <= alpha
    requires 1.2 * factor <= alpha || factor == 1.2 <= alpha
    ensures k < |chosen| && chosen[k] < t
    ensures D(pool[t].id, pool[chosen[k]].id) == 0.0 || pool[t].distance > factor * D(pool[t].id, pool[chosen[k]].id)
  {
    var round, level := NearLevel(alpha, factor);
    k := DroppedAreOccluded(pool, D, alpha, degree, location, deleted, chosen, rounds, t, round);
    MuchCloserThan(pool, D, chosen[k], t, level, factor);
  }

  lemma NearLevel(alpha: real, factor: real) returns (round: nat, level: real)
    requires 1.0 <= alpha && (1.2 * factor <= alpha || factor == 1.2 <= alpha)
    ensures level == Level(round) <= alpha && factor <= level
  {
    LevelsAre(0);
    if factor == 1.2 { round := 1; } else { round := LastLevel(alpha, 0); }
    level := Level(round);
  }

  /** With the usual alpha of 1.2 there are two rounds. A choice of the first is occluded by no earlier choice ahead of
      it at 1.0; one of the second is occluded by an earlier choice ahead of it at 1.0, and by none of them at 1.2. */
  lemma TwoRounds(pool: seq<Neighbor>, D: Metric, degree: nat, location: nat, deleted: set<nat>, chosen: seq<nat>,
                  rounds: seq<nat>, j: nat)
    requires IsPruning(pool, D, 1.2, degree, location, deleted, chosen, rounds) && NonNegative(D)
    requires j < |chosen|
    ensures var djk := (k: nat) requires k < |chosen| => D(pool[chosen[j]].id, pool[chosen[k]].id);
      var d := pool[chosen[j]].distance;
      && rounds[j] <= 1
      && (rounds[j] == 0 ==> forall k :: 0 <= k < j && chosen[k] < chosen[j] ==> djk(k) > 0.0 && d <= 1.0 * djk(k))
      && (rounds[j] == 1 ==>
            && (forall k :: 0 <= k < j && chosen[k] < chosen[j] ==> djk(k) > 0.0 && d <= 1.2 * djk(k))
            && exists k :: 0 <= k < j && chosen[k] < chosen[j] && (djk(k) == 0.0 || d > 1.0 * djk(k)))
  {
    LevelsAre(0);
    LevelsAre(1);
    if rounds[j] > 1 { LevelsGrow(2, rounds[j]); }
    forall k | 0 <= k < j && chosen[k] < chosen[j]
      ensures !MuchCloser(pool, D, chosen[k], chosen[j], Level(rounds[j]))
    {
      KeptAreNotOccluded(pool, D, 1.2, chosen, rounds, k, j);
    }
    if rounds[j] == 1 {
      assert ChoiceJustified(pool, D, chosen, rounds, j);
      assert chosen[j] !in chosen[..j];
      var k := Coverer(pool, D, chosen[..j], chosen[j], 1.0);
      assert chosen[..j][k] == chosen[k];
    }
  }

  lemma Coverer(pool: seq<Neighbor>, D: Metric, chosen: seq<nat>, t: nat, level: real) returns (k: nat)
    requires Below(chosen, |pool|) && t < |pool| && Covered(pool, D, chosen, t, level) && NonNegative(D)
    ensures k < |chosen| && chosen[k] < t && MuchCloser(pool, D, chosen[k], t, level)
  {
    k :| 0 <= k < |chosen| && chosen[k] < t && Blocks(pool, D, chosen[k], t, level);
    BlocksMeans(pool, D, chosen[k], t, level);
  }

  lemma BlocksMeans(pool: seq<Neighbor>, D: Metric, p: nat, t: nat, level: real)
    requires p < |pool| && t < |pool| && D(pool[t].id, pool[p].id) >= 0.0
    ensures Blocks(pool, D, p, t, level) <==> MuchCloser(pool, D, p, t, level)
  {
    var djk := D(pool[t].id, pool[p].id);
    if djk > 0.0 { RatioAtMost(pool[t].distance, djk, level); }
  }

  lemma {:induction false} KeptMembers(pool: seq<Neighbor>, chosen: seq<nat>, location: nat, deleted: set<nat>)
    requires Below(chosen, |pool|)
    ensures forall x :: x in KeptIds(pool, chosen, location, deleted) <==>
      x !in deleted && x != location && exists k :: 0 <= k < |chosen| && pool[chosen[k]].id == x
    ensures NoDup(chosen) && NoDup(Ids(pool)) ==> NoDup(KeptIds(pool, chosen, location, deleted))
  {
    if chosen != [] {
      var init := chosen[..|chosen| - 1];
      var last := chosen[|chosen| - 1];
      KeptMembers(pool, init, location, deleted);
      assert chosen == init + [last];
      if NoDup(chosen) && NoDup(Ids(pool)) {
        NoDupSnoc(init, last);
        NoDupSnoc(KeptIds(pool, init, location, deleted), pool[last].id);
        forall k | 0 <= k < |init| ensures pool[init[k]].id != pool[last].id {
          assert init[k] in init;
          assert Ids(pool)[init[k]] != Ids(pool)[last];
        }
      }
    }
  }

  /** The list is in the order of the choices. */
  lemma {:induction false} KeptInOrder(pool: seq<Neighbor>, chosen: seq<nat>, location: nat, deleted: set<nat>)
    requires Below(chosen, |pool|)
    requires forall k :: 0 <= k < |chosen| ==> pool[chosen[k]].id !in deleted && pool[chosen[k]].id != location
    ensures var r := KeptIds(pool, chosen, location, deleted);
      |r| == |chosen| && forall k :: 0 <= k < |r| ==> r[k] == pool[chosen[k]].id
  {
    if chosen != [] { KeptInOrder(pool, chosen[..|chosen| - 1], location, deleted); }
  }

  /** The shape every caller relies on. */
  lemma PrunedShape(pool: seq<Neighbor>, D: Metric, alpha: real, degree: nat, location: nat, deleted: set<nat>,
                    chosen: seq<nat>, rounds: seq<nat>)
    requires IsPruning(pool, D, alpha, degree, location, deleted, chosen, rounds)
    ensures var r := KeptIds(pool, chosen, location, deleted);
      && |r| <= degree && location !in r
      && (forall x :: x in r ==> x in Ids(pool) && x !in deleted)
      && (NoDup(Ids(pool)) ==> NoDup(r))
  {
    KeptMembers(pool, chosen, location, deleted);
    forall x | x in KeptIds(pool, chosen, location, deleted) ensures x in Ids(pool) {
      var k :| 0 <= k < |chosen| && pool[chosen[k]].id == x;
      assert Ids(pool)[chosen[k]] == x;
    }
  }

  /** With alpha at least 1 and a positive degree the nearest candidate always is the first choice. */
  lemma NearestIsChosen(pool: seq<Neighbor>, D: Metric, alpha: real, degree: nat, location: nat, deleted: set<nat>,
                        chosen: seq<nat>, rounds: seq<nat>)
    requires IsPruning(pool, D, alpha, degree, location, deleted, chosen, rounds)
    requires pool != [] && degree > 0 && alpha >= 1.0
    ensures chosen != [] && chosen[0] == 0 && rounds[0] == 0
  {
    NobodyCovers(pool, D);
    assert chosen == [] ==> CoveredInRound(pool, D, alpha, [], 0, 0);
    assert chosen != [];
    assert ChoiceJustified(pool, D, chosen, rounds, 0) && chosen[..0] == [] && 0 !in chosen[..0];
  }

  lemma NobodyCovers(pool: seq<Neighbor>, D: Metric)
    ensures forall t: nat, level: real :: t < |pool| ==> !Covered(pool, D, [], t, level)
  {
  }
}
