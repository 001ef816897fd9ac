/**
 * The wall germ of core/src/com/mygdx/kaps/level/gridobject/WallGerm.java: its health is a
 * `Gauge` of maximum 4, a hit is a guarded decrement, and the wall is worth 40 points once
 * destroyed (10 before).
 */
module WallGerms {
  import opened Wrappers
  import Text
  import Gauges
  import Coordinates
  import opened GridObjects
  import opened Germs

  class WallGerm {
    const germ: Germ
    const health: Gauges.Gauge

    constructor (color: Color, health: int)
      requires 0 < health <= MaxHealth
      ensures fresh(germ) && fresh(germ.obj) && fresh(germ.obj.coordinates) && fresh(this.health)
      ensures germ.kind == Wall && germ.obj.mana == 3 && germ.obj.score == 40
      ensures germ.obj.color == color && !germ.obj.destroyed
      ensures germ.obj.coordinates.Value() == Coordinates.Pos(0, 0)
      ensures this.health.value == health && this.health.max == MaxHealth
      ensures this.health.InRange() && !IsDestroyed()
    {
      var g := new Germ(color, Wall, 3, 40);
      var h := new Gauges.Gauge.WithValue(health, MaxHealth);
      this.germ := g;
      this.health := h;
    }

    /** `WallGerm(color)`: full health. */
    constructor Full(color: Color)
      ensures fresh(germ) && fresh(germ.obj) && fresh(germ.obj.coordinates) && fresh(health)
      ensures germ.kind == Wall && germ.obj.mana == 3 && germ.obj.score == 40 && germ.obj.color == color
      ensures health.value == MaxHealth && health.max == MaxHealth && health.IsFull()
    {
      var g := new Germ(color, Wall, 3, 40);
      var h := new Gauges.Gauge.WithValue(MaxHealth, MaxHealth);
      this.germ := g;
      this.health := h;
    }

    /** `WallGerm(color, health)`: refuses a health outside 1..4. */
    static method New(color: Color, health: int) returns (r: Result<WallGerm, string>)
      ensures r.Success? <==> 0 < health <= MaxHealth
      ensures r.Success? ==> fresh(r.value) && fresh(r.value.health)
      ensures r.Success? ==> r.value.health.value == health && r.value.health.max == MaxHealth
      ensures r.Success? ==> r.value.germ.kind == Wall && !r.value.IsDestroyed()
      ensures r.Failure? ==> r.error == "Invalid health: " + Text.IntToString(health) + " / 4"
    {
      if health <= 0 || MaxHealth < health {
        return Failure("Invalid health: " + Text.IntToString(health) + " / " + Text.IntToString(MaxHealth));
      }
      var w := new WallGerm(color, health);
      return Success(w);
    }

    /** `isDestroyed`: the health gauge is empty. */
    predicate IsDestroyed()
      reads health
    {
      health.IsEmpty()
    }

    /** `getScore`: 40 once destroyed, 10 while standing. */
    function GetScore(): (r: int)
      reads health
      ensures IsDestroyed() ==> r == germ.obj.score
      ensures !IsDestroyed() ==> r == 10
    {
      if IsDestroyed() then germ.obj.score else 10
    }

    /** `takeHit` lowers health by one unless it is already empty; nothing else changes. */
    method TakeHit()
      modifies health
      ensures health.value == Gauges.StepDown(old(health.value))
      ensures old(health.InRange()) ==> health.InRange()
      ensures old(IsDestroyed()) ==> IsDestroyed()
    {
      health.DecreaseIfPossible();
    }
  }
}
