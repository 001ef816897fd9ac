/**
 * What a board tile holds: one of the concrete `GridObject` classes of the gridobject package.
 * Java reaches the overridden methods (`isDestroyed`, `takeHit`, `isDropping`, `linked`, ...)
 * by dynamic dispatch; the model names the concrete class and dispatches by match.
 */
module Occupants {
  import opened Wrappers
  import Coordinates
  import Gauges
  import opened GridObjects
  import Germs
  import WallGerms
  import CooldownGerms
  import opened CapsuleParts
  import opened LinkedCapsuleParts

  datatype Occupant =
    | OfPart(part: CapsulePart)
    | OfLinked(half: LinkedCapsulePart)
    | OfBasicGerm(germ: Germs.Germ)
    | OfWallGerm(wall: WallGerms.WallGerm)
    | OfCooldownGerm(attacker: CooldownGerms.CooldownGerm)
  {
    /** The `GridObject` part of the object. */
    function Base(): GridObject
    {
      match this
      case OfPart(p) => p.obj
      case OfLinked(l) => l.part.obj
      case OfBasicGerm(g) => g.obj
      case OfWallGerm(w) => w.germ.obj
      case OfCooldownGerm(c) => c.germ.obj
    }

    function CoordinatesObject(): Coordinates.Coordinates
    {
      Base().coordinates
    }

    function Pos(): Coordinates.Pos
      reads CoordinatesObject()
    {
      CoordinatesObject().Value()
    }

    function Color(): Color
      reads Base()
    {
      Base().color
    }

    /** `isGerm`: false by default, true from `Germ` down. */
    predicate IsGerm()
      ensures IsGerm() ==> !IsCapsule()
    {
      OfBasicGerm? || OfWallGerm? || OfCooldownGerm?
    }

    /** `isCapsule`: false by default, true from `CapsulePart` down. */
    predicate IsCapsule()
    {
      OfPart? || OfLinked?
    }

    /** `hasCooldown`: only `CooldownGerm` overrides the germ default of false. */
    predicate HasCooldown()
      ensures HasCooldown() ==> IsGerm()
    {
      OfCooldownGerm?
    }

    /** The object holding the `dropping` flag of a capsule half. */
    function DroppingHolder(): set<object>
    {
      match this
      case OfPart(p) => {p}
      case OfLinked(l) => {l.part}
      case _ => {}
    }

    /** `isDropping`: false by default, the flag for capsule halves. */
    predicate IsDropping()
      reads DroppingHolder()
      ensures IsDropping() ==> IsCapsule()
    {
      match this
      case OfPart(p) => p.dropping
      case OfLinked(l) => l.part.dropping
      case _ => false
    }

    /** What `takeHit` writes: the health gauge of a wall, the `destroyed` flag otherwise. */
    function HitFootprint(): set<object>
    {
      if OfWallGerm? then {wall.health} else {Base()}
    }

    /**
     * How many more hits the object takes to be destroyed: a wall's health, otherwise 1 for an
     * intact object and 0 for a destroyed one.
     */
    function HitState(): int
      reads HitFootprint()
    {
      match this
      case OfWallGerm(w) => w.health.value
      case _ => if Base().destroyed then 0 else 1
    }

    /** `isDestroyed`: an empty health gauge for a wall, the flag otherwise. */
    predicate IsDestroyed()
      reads HitFootprint()
      ensures IsDestroyed() <==> HitState() <= 0
    {
      match this
      case OfWallGerm(w) => w.IsDestroyed()
      case _ => Base().destroyed
    }

    /** `getScore`: the wall's override, the stored score otherwise. */
    function Score(): int
      reads HitFootprint()
    {
      match this
      case OfWallGerm(w) => w.GetScore()
      case _ => Base().score
    }

    /** `linked()`: the partner of a linked half, nothing for every other object. */
    function Partner(): (r: Option<LinkedCapsulePart>)
      reads if OfLinked? then {half} else {}
      ensures r.Some? ==> IsCapsule()
    {
      if OfLinked? then half.Linked() else Option.None
    }

    /** Everything the board's functions read of the object. */
    function Footprint(): set<object>
    {
      {Base(), CoordinatesObject()} + DroppingHolder() + HitFootprint() + (if OfLinked? then {half} else {})
    }
  }

  /** `takeHit` by dispatch: one guarded step down of the hits left. */
  method TakeHit(o: Occupant)
    modifies o.HitFootprint()
    ensures o.HitState() == Gauges.StepDown(old(o.HitState()))
    ensures old(o.IsDestroyed()) ==> o.IsDestroyed()
    ensures o.Color() == old(o.Color())
  {
    if o.OfWallGerm? {
      o.wall.TakeHit();
    } else {
      o.Base().TakeHit();
    }
  }

  /**
   * After `n` hits an object is destroyed exactly when `n` reaches the hits it had left: one hit
   * for any intact plain object, `h` hits for a wall of health `h`.
   */
  lemma {:induction false} DestroyedAfterHits(state: int, n: nat)
    requires state >= 0
    ensures Gauges.Drained(state, n) <= 0 <==> n >= state
  {
    Gauges.DrainedEmptiesAfterExactly(state, n);
  }

  /** `Germ.ofSymbol(symbol)` with the colour drawn by the caller: a fresh germ of the symbol's supplier. */
  method GermOfSymbol(symbol: char, color: Color) returns (r: Result<Occupant, string>)
    ensures r.Success? <==> symbol in "BWXYTV"
    ensures r.Success? ==> r.value.IsGerm() && r.value.Color() == color && fresh(r.value.Base())
    ensures r.Success? ==> fresh(r.value.CoordinatesObject()) && fresh(r.value.HitFootprint())
    ensures r.Success? ==> r.value.Pos() == Coordinates.Pos(0, 0) && !r.value.IsDestroyed()
    ensures r.Success? ==> Germs.SpecKind(Germs.SymbolSpec(symbol)) == KindOf(r.value)
    ensures r.Success? && r.value.OfWallGerm? ==> Germs.SymbolSpec(symbol) == Germs.WallSpec(r.value.wall.health.value)
    ensures r.Failure? ==> r.error == "Couldn't resolve germ with symbol: " + [symbol]
  {
    var supplier := Germs.SupplierOfSymbol(symbol);
    if supplier.Failure? {
      return Failure(supplier.error);
    }
    Germs.SymbolTable(symbol);
    var g := GermOfSpec(Germs.Builds(supplier.value), color);
    return Success(g);
  }

  /** What a supplier's `get` builds: a fresh germ of the spec's kind at (0,0), not destroyed. */
  method GermOfSpec(spec: Germs.GermSpec, color: Color) returns (o: Occupant)
    requires spec.WallSpec? ==> 0 < spec.health <= Germs.MaxHealth
    ensures o.IsGerm() && o.Color() == color && fresh(o.Base())
    ensures fresh(o.CoordinatesObject()) && fresh(o.HitFootprint())
    ensures o.Pos() == Coordinates.Pos(0, 0) && !o.IsDestroyed()
    ensures Germs.SpecKind(spec) == KindOf(o)
    ensures o.OfWallGerm? ==> spec == Germs.WallSpec(o.wall.health.value)
  {
    if spec.BasicSpec? {
      var g := new Germs.Germ.Basic(color);
      o := OfBasicGerm(g);
    } else if spec.WallSpec? {
      var w := new WallGerms.WallGerm(color, spec.health);
      o := OfWallGerm(w);
    } else if spec.ThornSpec? {
      var c := new CooldownGerms.CooldownGerm.ThornGerm(color);
      o := OfCooldownGerm(c);
    } else {
      var c := new CooldownGerms.CooldownGerm.VirusGerm(color);
      o := OfCooldownGerm(c);
    }
  }

  /** The germ kind of a germ; capsule halves have none and are reported as BASIC. */
  function KindOf(o: Occupant): Germs.GermKind
  {
    match o
    case OfBasicGerm(g) => g.kind
    case OfWallGerm(w) => w.germ.kind
    case OfCooldownGerm(c) => c.germ.kind
    case _ => Germs.GermKind.Basic
  }
}
