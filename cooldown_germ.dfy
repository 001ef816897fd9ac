/**
 * Germs that attack every few turns (core/src/com/mygdx/kaps/level/gridobject/CooldownGerm.java):
 * a cooldown `Gauge` that starts full at the kind's cooldown and counts down by guarded steps,
 * an `attacking` flag, and the attacks queued by `trigger`. An attack's moves depend on the
 * level and on random draws; a queued attack is recorded here by the kind that launched it.
 */
module CooldownGerms {
  import opened Wrappers
  import Gauges
  import Coordinates
  import opened GridObjects
  import opened Germs

  /** `kind.newAttack(level, this).periodicMoves()`, as queued in the germ's task manager. */
  datatype AttackTask = AttackTask(kind: GermKind)

  class CooldownGerm {
    const germ: Germ
    const cooldown: Gauges.Gauge
    var attacking: bool
    var tasks: seq<AttackTask>

    /** A new cooldown germ waits a full cooldown before its first attack. */
    constructor (color: Color, kind: GermKind, mana: int, score: int)
      ensures fresh(germ) && fresh(germ.obj) && fresh(germ.obj.coordinates) && fresh(cooldown)
      ensures germ.kind == kind && germ.obj.color == color && germ.obj.mana == mana && germ.obj.score == score
      ensures germ.obj.coordinates.Value() == Coordinates.Pos(0, 0)
      ensures !germ.obj.destroyed
      ensures cooldown.max == Cooldown(kind) && cooldown.value == Cooldown(kind)
      ensures cooldown.InRange() && cooldown.IsFull()
      ensures !attacking && tasks == []
    {
      var g := new Germ(color, kind, mana, score);
      var c := Gauges.Gauge.Full(Cooldown(kind));
      this.germ := g;
      this.cooldown := c;
      this.attacking := false;
      this.tasks := [];
    }

    /** `VirusGerm(color)`: three points of mana, thirty of score, eight turns of cooldown. */
    constructor VirusGerm(color: Color)
      ensures fresh(germ) && fresh(germ.obj) && fresh(germ.obj.coordinates) && fresh(cooldown)
      ensures germ.kind == GermKind.Virus && germ.obj.color == color
      ensures germ.obj.coordinates.Value() == Coordinates.Pos(0, 0)
      ensures germ.obj.mana == 3 && germ.obj.score == 30 && !germ.obj.destroyed
      ensures cooldown.max == 8 && cooldown.value == 8
      ensures !attacking && tasks == []
    {
      var g := new Germ(color, GermKind.Virus, 3, 30);
      var c := Gauges.Gauge.Full(Cooldown(GermKind.Virus));
      this.germ := g;
      this.cooldown := c;
      this.attacking := false;
      this.tasks := [];
    }

    /** `ThornGerm(color)`: three points of mana, thirty-five of score, five turns of cooldown. */
    constructor ThornGerm(color: Color)
      ensures fresh(germ) && fresh(germ.obj) && fresh(germ.obj.coordinates) && fresh(cooldown)
      ensures germ.kind == GermKind.Thorn && germ.obj.color == color
      ensures germ.obj.coordinates.Value() == Coordinates.Pos(0, 0)
      ensures germ.obj.mana == 3 && germ.obj.score == 35 && !germ.obj.destroyed
      ensures cooldown.max == 5 && cooldown.value == 5
      ensures !attacking && tasks == []
    {
      var g := new Germ(color, GermKind.Thorn, 3, 35);
      var c := Gauges.Gauge.Full(Cooldown(GermKind.Thorn));
      this.germ := g;
      this.cooldown := c;
      this.attacking := false;
      this.tasks := [];
    }

    function TurnsLeft(): int
      reads cooldown
    {
      cooldown.value
    }

    /** `isReady`: the cooldown has run out. */
    predicate IsReady()
      reads cooldown
    {
      cooldown.IsEmpty()
    }

    method StartAttacking()
      modifies this
      ensures attacking && tasks == old(tasks)
    {
      attacking := true;
    }

    method StopAttacking()
      modifies this
      ensures !attacking && tasks == old(tasks)
    {
      attacking := false;
    }

    /** `decreaseCooldown`: one guarded step down, never below 0. */
    method DecreaseCooldown()
      modifies cooldown
      ensures cooldown.value == Gauges.StepDown(old(cooldown.value))
      ensures old(cooldown.value) >= 0 ==> cooldown.value >= 0
      ensures old(cooldown.InRange()) ==> cooldown.InRange()
    {
      cooldown.DecreaseIfPossible();
    }

    /** `trigger`: queues exactly one attack of the germ's kind and restarts the cooldown. */
    method Trigger()
      modifies this, cooldown
      ensures tasks == old(tasks) + [AttackTask(germ.kind)]
      ensures cooldown.value == cooldown.max && attacking == old(attacking)
    {
      tasks := tasks + [AttackTask(germ.kind)];
      cooldown.Fill();
    }
  }

  /**
   * From a full cooldown, a germ becomes ready after exactly as many guarded decreases as its
   * kind's cooldown: eight turns for a virus, five for a thorn, at once for the others.
   */
  lemma {:induction false} ReadyAfterExactlyCooldownTurns(kind: GermKind, n: nat)
    ensures Gauges.Drained(Cooldown(kind), n) <= 0 <==> n >= Cooldown(kind)
    ensures Gauges.Drained(Cooldown(kind), n) >= 0
  {
    Gauges.DrainedEmptiesAfterExactly(Cooldown(kind), n);
  }

  /** `Germ.cooldownGermOfKind(kind, color)`: a fresh cooldown germ of that kind, or the exception's message. */
  method CooldownGermOfKind(kind: GermKind, color: Color) returns (r: Result<CooldownGerm, string>)
    ensures r.Success? <==> kind == GermKind.Virus || kind == GermKind.Thorn
    ensures r.Success? ==> fresh(r.value) && r.value.germ.kind == kind && r.value.germ.obj.color == color
    ensures r.Success? ==> r.value.cooldown.value == Cooldown(kind) && r.value.tasks == []
    ensures r.Failure? ==> r.error == "Couldn't resolve germ of kind: " + KindName(kind)
  {
    var supplier := CooldownSupplierOfKind(kind);
    if supplier.Failure? {
      return Failure(supplier.error);
    }
    if Builds(supplier.value) == ThornSpec {
      var g := new CooldownGerm.ThornGerm(color);
      return Success(g);
    }
    var g := new CooldownGerm.VirusGerm(color);
    return Success(g);
  }
}
