/**
 * The integer counter behind sidekick mana, sidekick and germ cooldowns and wall-germ health
 * (core/src/com/mygdx/kaps/level/Gauge.java). `max` is fixed at construction; `value` moves
 * by one step at a time, or jumps to 0 or to `max`. Only the guarded steps respect the bounds:
 * `Increase` may overshoot `max`.
 */
module Gauges {
  import Text

  /** The value `decreaseIfPossible` leaves behind. */
  function StepDown(value: int): int
  {
    if value > 0 then value - 1 else value
  }

  /** The value `increaseIfPossible` leaves behind. */
  function StepUp(value: int, max: int): int
  {
    if value < max then value + 1 else value
  }

  /** The value after `n` calls of `decreaseIfPossible`. */
  function Drained(value: int, n: nat): int
  {
    if n == 0 then value else Drained(StepDown(value), n - 1)
  }

  /** Guarded decrements never cross 0 and stop there: from a non-negative value, exactly `value` of them empty the gauge. */
  lemma {:induction false} DrainedEmptiesAfterExactly(value: int, n: nat)
    requires value >= 0
    ensures Drained(value, n) >= 0
    ensures Drained(value, n) == if n >= value then 0 else value - n
    decreases n
  {
    if n > 0 {
      DrainedEmptiesAfterExactly(StepDown(value), n - 1);
    }
  }

  /** One more guarded decrement after `n` of them is the `n + 1`-th: a loop of `decreaseIfPossible` calls computes `Drained`. */
  lemma {:induction false} DrainedOneMore(value: int, n: nat)
    ensures Drained(value, n + 1) == StepDown(Drained(value, n))
    decreases n
  {
    if n > 0 {
      DrainedOneMore(StepDown(value), n - 1);
    }
  }

  /** The guarded steps keep a value inside [0, max]. */
  lemma GuardedStepsStayInRange(value: int, max: int)
    requires 0 <= value <= max
    ensures 0 <= StepDown(value) <= max && StepDown(value) <= value
    ensures 0 <= StepUp(value, max) <= max && StepUp(value, max) >= value
    ensures StepDown(value) == value <==> value == 0
    ensures StepUp(value, max) == value <==> value == max
  {
  }

  function GaugeString(value: int, max: int): string
  {
    Text.IntToString(value) + " / " + Text.IntToString(max)
  }

  class Gauge {
    const max: int
    var value: int

    /** `Gauge(max)`: an empty gauge. */
    constructor (max: int)
      ensures this.max == max && value == 0
      ensures IsEmpty() && InRange() == (max >= 0)
    {
      this.max := max;
      value := 0;
    }

    /** `Gauge(value, max)`: no check relates the two. */
    constructor WithValue(value: int, max: int)
      ensures this.max == max && this.value == value
    {
      this.max := max;
      this.value := value;
    }

    /** `Gauge.full(max)`. */
    static method Full(max: int) returns (g: Gauge)
      ensures fresh(g) && g.max == max && g.value == max
      ensures g.IsFull() && (g.InRange() <==> max >= 0)
    {
      g := new Gauge.WithValue(max, max);
    }

    function ToString(): string
      reads this
    {
      GaugeString(value, max)
    }

    predicate IsFull()
      reads this
    {
      value >= max
    }

    predicate IsEmpty()
      reads this
    {
      value <= 0
    }

    /** The bounds the guarded steps keep; nothing in the class enforces it. */
    predicate InRange()
      reads this
    {
      0 <= value <= max
    }

    /** Unguarded: may go past `max`. */
    method Increase()
      modifies this
      ensures value == old(value) + 1
    {
      value := value + 1;
    }

    method Decrease()
      modifies this
      ensures value == old(value) - 1
    {
      value := value - 1;
    }

    method DecreaseIfPossible()
      modifies this
      ensures value == StepDown(old(value))
      ensures old(IsEmpty()) ==> value == old(value)
      ensures !old(IsEmpty()) ==> value == old(value) - 1
      ensures old(value) >= 0 ==> value >= 0
      ensures old(InRange()) ==> InRange()
    {
      if !IsEmpty() {
        Decrease();
      }
    }

    method IncreaseIfPossible()
      modifies this
      ensures value == StepUp(old(value), max)
      ensures old(IsFull()) ==> value == old(value)
      ensures !old(IsFull()) ==> value == old(value) + 1
      ensures old(value) <= max ==> value <= max
      ensures old(InRange()) ==> InRange()
    {
      if !IsFull() {
        Increase();
      }
    }

    method Empty()
      modifies this
      ensures value == 0 && IsEmpty()
      ensures max >= 0 ==> InRange()
    {
      value := 0;
    }

    method Fill()
      modifies this
      ensures value == max && IsFull()
      ensures max >= 0 ==> InRange()
    {
      value := max;
    }
  }
}
