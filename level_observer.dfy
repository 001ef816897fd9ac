/**
 * Three observers of core/src/com/mygdx/kaps/level/LevelObserver.java: the default reaction of
 * every observer to a hit object, the screen shaker, which queues one quake episode per tile
 * attack and one per combo step of a match, and the score manager, which counts combos across
 * consecutive matching turns and scales every hit object's score by a half-integer multiplier.
 * A set of matches is given by whether each match holds a germ; the level the freeze event
 * carries is given by whether its board has matches; quake timers are their durations.
 */
module LevelObservers {
  import Occupants

  // ---------------------------------------------------------------- default reaction

  /** The default `onObjectHit`: `onObjectDestroyed` follows exactly when the object is destroyed. */
  predicate NotifiesDestroyed(o: Occupants.Occupant)
    reads o.HitFootprint()
  {
    o.IsDestroyed()
  }

  /** So the notice follows the hit that takes the object's last hit left. */
  lemma NoticeFollowsLastHit(o: Occupants.Occupant, before: int)
    requires before >= 0 && o.HitState() == if before > 0 then before - 1 else before
    ensures NotifiesDestroyed(o) <==> before <= 1
  {
  }

  // ---------------------------------------------------------------- screen shaker

  const TileAttackQuake := 800
  const MatchQuake := 300

  /**
   * How many episodes `onMatchPerformed` adds: none for no match, `combo` when some match holds
   * a germ, `combo + 1` otherwise (a negative count adds none).
   */
  function QuakeCount(holdsGerm: seq<bool>, combo: int): (n: nat)
    ensures holdsGerm == [] ==> n == 0
    ensures holdsGerm != [] && true in holdsGerm ==> n == if combo > 0 then combo else 0
    ensures holdsGerm != [] && true !in holdsGerm ==> n == if combo + 1 > 0 then combo + 1 else 0
  {
    if holdsGerm == [] then 0
    else if true in holdsGerm then (if combo > 0 then combo else 0)
    else (if combo + 1 > 0 then combo + 1 else 0)
  }

  /** A germless match set shakes once more than one with a germ. */
  lemma GermlessShakesMore(withGerm: seq<bool>, without: seq<bool>, combo: nat)
    requires true in withGerm && without != [] && true !in without
    ensures QuakeCount(without, combo) == QuakeCount(withGerm, combo) + 1
  {
  }

  class ScreenShaker {
    /** The running quake episodes, by duration in milliseconds. */
    var episodes: seq<int>

    constructor ()
      ensures episodes == []
    {
      episodes := [];
    }

    /** `shake(millis, iterations)`: `iterations` more episodes of `millis`, none if it is not positive. */
    method Shake(millis: int, iterations: int)
      modifies this
      ensures |episodes| == |old(episodes)| + (if iterations > 0 then iterations else 0)
      ensures episodes[..|old(episodes)|] == old(episodes)
      ensures forall i :: |old(episodes)| <= i < |episodes| ==> episodes[i] == millis
    {
      var n := 0;
      while n < iterations
        invariant iterations > 0 ==> n <= iterations
        invariant iterations <= 0 ==> n == 0
        invariant |episodes| == |old(episodes)| + n
        invariant episodes[..|old(episodes)|] == old(episodes)
        invariant forall i :: |old(episodes)| <= i < |episodes| ==> episodes[i] == millis
      {
        episodes := episodes + [millis];
        n := n + 1;
      }
    }

    /** `onTileAttack`: exactly one episode of 800 ms. */
    method OnTileAttack()
      modifies this
      ensures episodes == old(episodes) + [TileAttackQuake]
    {
      Shake(TileAttackQuake, 1);
      assert episodes == episodes[..|old(episodes)|] + [episodes[|old(episodes)|]];
    }

    /** `onMatchPerformed`: `QuakeCount` episodes of 300 ms. */
    method OnMatchPerformed(holdsGerm: seq<bool>, combo: int)
      modifies this
      ensures |episodes| == |old(episodes)| + QuakeCount(holdsGerm, combo)
      ensures episodes[..|old(episodes)|] == old(episodes)
      ensures forall i :: |old(episodes)| <= i < |episodes| ==> episodes[i] == MatchQuake
    {
      if holdsGerm == [] {
        return;
      }
      if true in holdsGerm {
        Shake(MatchQuake, combo);
      } else {
        Shake(MatchQuake, combo + 1);
      }
    }
  }

  // ---------------------------------------------------------------- score manager

  /**
   * Twice `scoreMultiplier`, `max(1, (combo + 1) / 2.)`: the multiplier moves by halves, so its
   * double is an integer.
   */
  function DoubledMultiplier(combo: int): (m: int)
    ensures m >= 2 && m >= combo + 1
    ensures m == 2 || m == combo + 1
  {
    if combo + 1 > 2 then combo + 1 else 2
  }

  /** Combos 0 and 1 both score single; from there each combo step adds half. */
  lemma MultiplierSteps(combo: nat)
    ensures DoubledMultiplier(0) == DoubledMultiplier(1) == 2
    ensures combo >= 1 ==> DoubledMultiplier(combo + 1) == DoubledMultiplier(combo) + 1
  {
  }

  /**
   * `score += objScore * scoreMultiplier()`: the sum is computed in halves and truncated towards
   * zero by the compound assignment's cast back to `int`.
   */
  function ScaledAdd(score: int, objScore: int, combo: int): (r: int)
    ensures var halves := 2 * score + objScore * DoubledMultiplier(combo);
      (halves >= 0 ==> 2 * r <= halves < 2 * r + 2) && (halves < 0 ==> 2 * r - 2 < halves <= 2 * r)
  {
    var halves := 2 * score + objScore * DoubledMultiplier(combo);
    if halves >= 0 then halves / 2 else -((-halves) / 2)
  }

  /** A longer combo never scores a hit less. */
  lemma {:induction false} LongerComboScoresMore(score: nat, objScore: nat, c1: int, c2: int)
    requires c1 <= c2
    ensures score <= ScaledAdd(score, objScore, c1) <= ScaledAdd(score, objScore, c2)
  {
    var m1, m2 := DoubledMultiplier(c1), DoubledMultiplier(c2);
    assert objScore * m1 <= objScore * m2 by {
      assert m1 <= m2;
      MultiplyMonotone(objScore, m1, m2);
    }
  }

  lemma MultiplyMonotone(k: nat, a: int, b: int)
    requires a <= b
    ensures k * a <= k * b
  {
  }

  /** The state of a `ScoreManager`. */
  datatype Tally = Tally(streakMode: bool, score: int, combo: int)

  /** `onCapsuleFreeze`: the combo ends when the board has no match and no streak is running. */
  function AfterFreeze(t: Tally, boardHasMatches: bool): (r: Tally)
    ensures r.streakMode == t.streakMode && r.score == t.score
    ensures r.combo == 0 <==> (!boardHasMatches && !t.streakMode) || t.combo == 0
    ensures r.combo != 0 ==> r.combo == t.combo
  {
    if !boardHasMatches && !t.streakMode then t.(combo := 0) else t
  }

  /** `onObjectHit`. */
  function AfterHit(t: Tally, objScore: int): (r: Tally)
    ensures r.streakMode == t.streakMode && r.combo == t.combo
    ensures r.score == ScaledAdd(t.score, objScore, t.combo)
  {
    t.(score := ScaledAdd(t.score, objScore, t.combo))
  }

  /** `onMatchPerformed`: an empty match set ends the streak, any other extends the combo by one. */
  function AfterMatches(t: Tally, matchCount: nat): (r: Tally)
    ensures r.score == t.score
    ensures r.streakMode <==> matchCount > 0
    ensures r.combo == if matchCount > 0 then t.combo + 1 else t.combo
  {
    if matchCount == 0 then t.(streakMode := false) else t.(streakMode := true, combo := t.combo + 1)
  }

  /** The rounds of matches of one turn, one after the other, by the number of matches in each. */
  function Cascade(t: Tally, rounds: seq<nat>): Tally
    decreases rounds
  {
    if rounds == [] then t else Cascade(AfterMatches(t, rounds[0]), rounds[1..])
  }

  /** Every round that matches something adds one to the combo. */
  lemma {:induction false} CascadeCountsRounds(t: Tally, rounds: seq<nat>)
    requires forall i :: 0 <= i < |rounds| ==> rounds[i] > 0
    ensures Cascade(t, rounds).combo == t.combo + |rounds|
    ensures Cascade(t, rounds).score == t.score
    ensures rounds != [] ==> Cascade(t, rounds).streakMode
    decreases rounds
  {
    if rounds != [] {
      CascadeCountsRounds(AfterMatches(t, rounds[0]), rounds[1..]);
    }
  }

  /**
   * A turn with no match ends the combo at the next freeze, and a turn with matches keeps it
   * going: the streak flag survives until the next empty round.
   */
  lemma ComboAcrossTurns(t: Tally, matchCount: nat)
    ensures AfterFreeze(AfterMatches(AfterMatches(t, matchCount), 0), false).combo == 0
    ensures matchCount > 0 ==> AfterFreeze(AfterMatches(t, matchCount), false).combo == t.combo + 1
  {
  }

  class ScoreManager {
    var streakMode: bool
    var score: int
    var combo: int

    constructor ()
      ensures State() == Tally(false, 0, 0)
    {
      streakMode, score, combo := false, 0, 0;
    }

    function State(): Tally
      reads this
    {
      Tally(streakMode, score, combo)
    }

    /** `scoreMultiplier`, doubled. */
    function ScoreMultiplierDoubled(): (m: int)
      reads this
      ensures m == DoubledMultiplier(combo)
    {
      DoubledMultiplier(combo)
    }

    method OnCapsuleFreeze(boardHasMatches: bool)
      modifies this
      ensures State() == AfterFreeze(old(State()), boardHasMatches)
    {
      if !boardHasMatches && !streakMode {
        combo := 0;
      }
    }

    method OnObjectHit(o: Occupants.Occupant)
      modifies this
      ensures State() == AfterHit(old(State()), o.Score())
    {
      score := ScaledAdd(score, o.Score(), combo);
    }

    method OnMatchPerformed(matchCount: nat)
      modifies this
      ensures State() == AfterMatches(old(State()), matchCount)
    {
      if matchCount == 0 {
        streakMode := false;
        return;
      }
      streakMode := true;
      combo := combo + 1;
    }
  }
}
