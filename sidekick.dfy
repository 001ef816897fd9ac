/**
 * The sidekicks of core/src/com/mygdx/kaps/level/Sidekick.java: a sidekick is either a mana
 * sidekick, whose gauge of 5 fills as the player plays and which is ready when it is full, or a
 * passive cooldown sidekick, whose gauge starts full at the id's declared mana, counts down and
 * makes it ready when it is empty. Triggering a sidekick queues one attack, a list of moves the
 * attack's timer runs one at a time, and resets the gauge. This generation's id table keeps the
 * declared mana and builds its attacks without a final `deleteMatches`; the sidekick calls
 * `deleteMatches` itself when an attack is over.
 */
module Sidekicks {
  import opened Wrappers
  import Coordinates
  import Grids
  import Gauges
  import opened SidekickIds

  // ---------------------------------------------------------------- the id table

  /** `gaugeMax`: this generation's table keeps the mana as declared. */
  function CooldownMax(id: Id): (m: int)
    ensures m == DeclaredMana(id) && m > 0
  {
    DeclaredMana(id)
  }

  function Abs(n: int): (r: nat)
    ensures r == n || r == -n
  {
    if n < 0 then -n else n
  }

  /** `hitRandomColumn` as written here: row 0 first, then upwards. */
  function ColumnBottomUp(x: int, height: nat): (r: seq<Pos>)
    ensures |r| == height && forall n :: 0 <= n < height ==> r[n] == Coordinates.Pos(x, n)
  {
    seq(height, n => Coordinates.Pos(x, n))
  }

  /** `hitRandomDiagonals` as written here: one pass over the board, `|dx| == |dy|`. */
  function AbsDiagonals(picked: Pos, width: nat, height: nat): seq<Pos>
  {
    Filter(Grids.EveryTile(width, height), (c: Pos) => Abs(c.x - picked.x) == Abs(c.y - picked.y))
  }

  /**
   * The moves of each sidekick's attack in this generation. The colour and type of the moves'
   * hits, and the pick of their random targets, are not part of the move.
   */
  function Moves(id: Id, picked: Pos, mateColor: nat, width: nat, height: nat): seq<Move>
  {
    match id
    case Sean => [Hit([picked]), Hit(Adjacents(picked))]
    case Zyrame => Repeated(2, HitRandomGerm)
    case R3d => HitEach(ColumnBottomUp(picked.x, height))
    case Mimaps => Repeated(3, HitRandomObject)
    case Painter => Repeated(5, PaintRandomCapsule(mateColor))
    case Xereth => HitEach(AbsDiagonals(picked, width, height))
    case Bomber => [Idle]
    case Jim => HitEach(RowTiles(picked.y, width))
    case Uni => [InjectMonoColorCapsule]
    case Sniper => [HitRandomGerm]
  }

  /** The two column orders are each other's reverse. */
  lemma ColumnOrdersReversed(x: int, height: nat)
    ensures |ColumnTopDown(x, height)| == |ColumnBottomUp(x, height)|
    ensures forall i :: 0 <= i < height ==>
      ColumnTopDown(x, height)[i] == ColumnBottomUp(x, height)[height - 1 - i]
  {
  }

  /** The single `|dx| == |dy|` pass hits the same tiles as the two passes of SidekickId.java. */
  lemma DiagonalsSameTiles(picked: Pos, width: nat, height: nat, c: Pos)
    ensures c in AbsDiagonals(picked, width, height) <==> c in Diagonals(picked, width, height)
  {
    var tiles := Grids.EveryTile(width, height);
    assert Abs(c.x - picked.x) == Abs(c.y - picked.y) <==>
      OnRisingDiagonal(picked, c) || OnFallingDiagonal(picked, c);
    assert c in Diagonals(picked, width, height) <==>
      c in Filter(tiles, c => OnRisingDiagonal(picked, c)) || c in Filter(tiles, c => OnFallingDiagonal(picked, c));
  }

  /**
   * The two generations build the same moves except for R3D's column order, XERETH's
   * diagonals and BOMBER's capsule, and this one never deletes matches inside an attack.
   */
  lemma GenerationsAgree(id: Id, picked: Pos, mateColor: nat, width: nat, height: nat)
    ensures DeleteMatches !in Moves(id, picked, mateColor, width, height)
    ensures id != R3d && id != Xereth && id != Bomber ==>
      Moves(id, picked, mateColor, width, height) == AttackMoves(id, picked, mateColor, width, height)
    ensures Moves(id, picked, mateColor, width, height) == [] <==>
      (id == R3d && height == 0) || (id == Jim && width == 0) || (id == Xereth && AbsDiagonals(picked, width, height) == [])
  {
  }

  // ---------------------------------------------------------------- attacks

  /** One timer tick: the head move is removed and run, unless none is left. */
  function AfterUpdate(moves: seq<Move>, fired: bool): (r: seq<Move>)
    ensures fired && moves != [] ==> [moves[0]] + r == moves
    ensures !(fired && moves != []) ==> r == moves
  {
    if fired && moves != [] then moves[1..] else moves
  }

  /** The moves left after `n` ticks. */
  function Drain(moves: seq<Move>, n: nat): seq<Move>
  {
    if n == 0 then moves else Drain(AfterUpdate(moves, true), n - 1)
  }

  /** An attack of `k` moves is over after exactly `k` ticks, having run its moves in order. */
  lemma {:induction false} DrainDropsPrefix(moves: seq<Move>, n: nat)
    ensures Drain(moves, n) == if n >= |moves| then [] else moves[n..]
    ensures Drain(moves, n) == [] <==> n >= |moves|
  {
    if n > 0 {
      DrainDropsPrefix(AfterUpdate(moves, true), n - 1);
      if moves != [] && n - 1 < |moves| - 1 {
        assert moves[1..][n - 1..] == moves[n..];
      }
    }
  }

  class SidekickAttack {
    var moves: seq<Move>

    constructor (moves: seq<Move>)
      ensures this.moves == moves
    {
      this.moves := moves;
    }

    /** `isOver`: no move left. */
    predicate IsOver()
      reads this
    {
      moves == []
    }

    /**
     * `update` when the move timer fires or not: a firing removes and returns the head move,
     * unless the attack is over; the moves that stay keep their order.
     */
    method Update(fired: bool) returns (ran: Option<Move>)
      modifies this
      ensures moves == AfterUpdate(old(moves), fired)
      ensures ran.Some? <==> fired && !old(IsOver())
      ensures ran.Some? ==> old(moves) == [ran.value] + moves
    {
      if fired && moves != [] {
        ran := Some(moves[0]);
        moves := moves[1..];
      } else {
        ran := Option.None;
      }
    }
  }

  /** No attack is listed twice. */
  predicate Distinct(attacks: seq<SidekickAttack>)
  {
    forall i, j :: 0 <= i < j < |attacks| ==> attacks[i] != attacks[j]
  }

  /** The attacks that are not over, in their order (the `removeIf(isOver)` that follows). */
  function Running(attacks: seq<SidekickAttack>): (r: seq<SidekickAttack>)
    reads attacks
    ensures forall i :: 0 <= i < |r| ==> r[i] in attacks && !r[i].IsOver()
    ensures forall i :: 0 <= i < |attacks| && !attacks[i].IsOver() ==> attacks[i] in r
    ensures |r| <= |attacks|
    ensures Distinct(attacks) ==> Distinct(r)
  {
    if attacks == [] then []
    else
      var init := attacks[..|attacks| - 1];
      var last := attacks[|attacks| - 1];
      assert forall i :: 0 <= i < |attacks| - 1 ==> attacks[i] == init[i];
      Running(init) + (if last.IsOver() then [] else [last])
  }

  /** How many of the attacks are over. */
  function OverCount(attacks: seq<SidekickAttack>): nat
    reads attacks
  {
    if attacks == [] then 0
    else OverCount(attacks[..|attacks| - 1]) + (if attacks[|attacks| - 1].IsOver() then 1 else 0)
  }

  /** Every attack is either kept or counted as over. */
  lemma {:induction false} RunningAndOverSplit(attacks: seq<SidekickAttack>)
    ensures |Running(attacks)| + OverCount(attacks) == |attacks|
  {
    if attacks != [] {
      RunningAndOverSplit(attacks[..|attacks| - 1]);
    }
  }

  /** The `forEach` of `updateAttacks`: each attack updated, and the ones over afterwards counted. */
  method UpdateEach(attacks: seq<SidekickAttack>, fired: seq<bool>) returns (deletions: nat)
    requires Distinct(attacks) && |fired| == |attacks|
    modifies attacks
    ensures forall i :: 0 <= i < |attacks| ==> attacks[i].moves == AfterUpdate(old(attacks[i].moves), fired[i])
    ensures deletions == OverCount(attacks)
  {
    deletions := 0;
    for i := 0 to |attacks|
      invariant forall j :: 0 <= j < i ==> attacks[j].moves == AfterUpdate(old(attacks[j].moves), fired[j])
      invariant forall j :: i <= j < |attacks| ==> attacks[j].moves == old(attacks[j].moves)
      invariant deletions == OverCount(attacks[..i])
    {
      var a := attacks[i];
      assert a !in attacks[..i];
      var _ := a.Update(fired[i]);
      OverCountStep(attacks, i);
      if a.IsOver() {
        deletions := deletions + 1;
      }
    }
    assert attacks[..|attacks|] == attacks;
  }

  /** Counting one more attack adds one exactly when that attack is over. */
  lemma OverCountStep(attacks: seq<SidekickAttack>, i: nat)
    requires i < |attacks|
    ensures OverCount(attacks[..i + 1]) == OverCount(attacks[..i]) + (if attacks[i].IsOver() then 1 else 0)
  {
    assert attacks[..i + 1][..i] == attacks[..i];
  }

  /** The `removeIf(isOver)` of `updateAttacks`. */
  method KeepRunning(attacks: seq<SidekickAttack>) returns (kept: seq<SidekickAttack>)
    ensures kept == Running(attacks)
  {
    kept := [];
    for i := 0 to |attacks|
      invariant kept == Running(attacks[..i])
    {
      assert attacks[..i + 1][..i] == attacks[..i];
      if !attacks[i].IsOver() {
        kept := kept + [attacks[i]];
      }
    }
    assert attacks[..|attacks|] == attacks;
  }

  // ---------------------------------------------------------------- sidekicks

  /**
   * A sidekick. `ofId` builds a `CooldownSidekick` for a passive id and a `ManaSidekick`
   * otherwise; the two differ only in how the gauge is read and reset, so one class carries
   * the id and the gauge and dispatches on `IsPassive(id)`.
   */
  class Sidekick {
    const id: Id
    const gauge: Gauges.Gauge
    var currentAttacks: seq<SidekickAttack>

    predicate Valid()
      reads this
    {
      Distinct(currentAttacks)
    }

    /**
     * `ofId`: a cooldown gauge that starts full at the id's mana, or a mana gauge of 5 that
     * starts empty; either way the new sidekick is not ready and has no attack running.
     */
    constructor OfId(id: Id)
      ensures this.id == id && currentAttacks == [] && Valid() && fresh(gauge)
      ensures IsPassive(id) ==> gauge.max == CooldownMax(id) && gauge.value == gauge.max
      ensures !IsPassive(id) ==> gauge.max == 5 && gauge.value == 0
      ensures !IsReady()
    {
      this.id := id;
      if IsPassive(id) {
        gauge := new Gauges.Gauge.WithValue(CooldownMax(id), CooldownMax(id));
      } else {
        gauge := new Gauges.Gauge(5);
      }
      currentAttacks := [];
    }

    /** `ofName`: the sidekick of the id `SidekickId.ofName` resolves, or its exception. */
    static method OfName(name: string) returns (r: Result<Sidekick, string>)
      ensures r.Success? <==> SidekickIds.OfName(name).Success?
      ensures r.Success? ==> fresh(r.value) && r.value.id == SidekickIds.OfName(name).value
      ensures r.Success? ==> r.value.currentAttacks == [] && !r.value.IsReady()
      ensures r.Failure? ==> r.error == SidekickIds.OfName(name).error
    {
      var found := SidekickIds.OfName(name);
      if found.Failure? {
        return Failure(found.error);
      }
      var s := new Sidekick.OfId(found.value);
      return Success(s);
    }

    /** `isReady`: a full mana gauge, or an empty cooldown. */
    predicate IsReady()
      reads gauge
    {
      if IsPassive(id) then gauge.IsEmpty() else gauge.IsFull()
    }

    /** `equals`: the same object, or another sidekick with the same id. */
    predicate Equals(o: Sidekick?)
    {
      this == o || (o != null && id == o.id)
    }

    /** `resetGauge`: empties the mana, or refills the cooldown. */
    method ResetGauge()
      modifies gauge
      ensures IsPassive(id) ==> gauge.value == gauge.max
      ensures !IsPassive(id) ==> gauge.value == 0
      ensures gauge.max > 0 ==> !IsReady()
    {
      if IsPassive(id) {
        gauge.Fill();
      } else {
        gauge.Empty();
      }
    }

    /** `increaseMana`, which only mana sidekicks have; nothing caps it. */
    method IncreaseMana()
      requires !IsPassive(id)
      modifies gauge
      ensures gauge.value == old(gauge.value) + 1
      ensures old(IsReady()) ==> IsReady()
    {
      gauge.Increase();
    }

    /** `decreaseCooldown`, which only cooldown sidekicks have: it stops at 0. */
    method DecreaseCooldown()
      requires IsPassive(id)
      modifies gauge
      ensures gauge.value == Gauges.StepDown(old(gauge.value))
      ensures old(IsReady()) ==> IsReady()
    {
      gauge.DecreaseIfPossible();
    }

    /**
     * `trigger`: one new attack, built from the id's moves, at the back of the running ones,
     * then the gauge reset.
     */
    method Trigger(picked: Pos, mateColor: nat, width: nat, height: nat)
      requires Valid()
      modifies this, gauge
      ensures Valid()
      ensures |currentAttacks| == |old(currentAttacks)| + 1
      ensures currentAttacks[..|old(currentAttacks)|] == old(currentAttacks)
      ensures fresh(currentAttacks[|old(currentAttacks)|])
      ensures currentAttacks[|old(currentAttacks)|].moves == Moves(id, picked, mateColor, width, height)
      ensures IsPassive(id) ==> gauge.value == gauge.max
      ensures !IsPassive(id) ==> gauge.value == 0
      ensures gauge.max > 0 ==> !IsReady()
    {
      var attack := new SidekickAttack(Moves(id, picked, mateColor, width, height));
      currentAttacks := currentAttacks + [attack];
      ResetGauge();
    }

    /**
     * `updateAttacks`: every attack is updated (`fired[i]` says whether the i-th one's timer
     * fired) and `deleteMatches` is called once for each attack over afterwards; then the
     * attacks that are over are dropped. Returns how many times `deleteMatches` was called.
     */
    method UpdateAttacks(fired: seq<bool>) returns (deletions: nat)
      requires Valid() && |fired| == |currentAttacks|
      modifies this, currentAttacks
      ensures Valid()
      ensures forall i :: 0 <= i < |old(currentAttacks)| ==>
        old(currentAttacks)[i].moves == AfterUpdate(old(currentAttacks[i].moves), fired[i])
      ensures currentAttacks == Running(old(currentAttacks))
      ensures forall i :: 0 <= i < |currentAttacks| ==> !currentAttacks[i].IsOver()
      ensures deletions == |old(currentAttacks)| - |currentAttacks|
    {
      var attacks := currentAttacks;
      deletions := UpdateEach(attacks, fired);
      var kept := KeepRunning(attacks);
      RunningAndOverSplit(attacks);
      currentAttacks := kept;
    }
  }

  /** `equals` is an equivalence: it compares ids. */
  lemma EqualsComparesIds(a: Sidekick, b: Sidekick, c: Sidekick)
    ensures a.Equals(a)
    ensures a.Equals(b) <==> a.id == b.id
    ensures a.Equals(b) <==> b.Equals(a)
    ensures a.Equals(b) && b.Equals(c) ==> a.Equals(c)
  {
  }

  /** A cooldown sidekick reset to its full gauge is ready again after exactly that many decreases. */
  lemma CooldownReadyAfter(id: Id, n: nat)
    requires IsPassive(id)
    ensures Gauges.Drained(CooldownMax(id), n) <= 0 <==> n >= CooldownMax(id)
  {
    Gauges.DrainedEmptiesAfterExactly(CooldownMax(id), n);
  }

  /** The two passive ids wait 13 and 4 decreases. */
  lemma CooldownLengths()
    ensures CooldownMax(Bomber) == 13 && CooldownMax(Uni) == 4
    ensures forall id :: IsPassive(id) <==> id == Bomber || id == Uni
  {
  }
}
