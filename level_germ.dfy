/**
 * Germs of the older level-package generation (core/src/com/mygdx/kaps/level/Germ.java). The
 * kind enum and the symbol table are those of the gridobject generation (module Germs); what
 * differs is the objects: a germ is a level-package `GridObject` with a kind, and the wall germ
 * keeps its health as a plain counter and is built with the BASIC kind.
 */
module LevelGerms {
  import opened Wrappers
  import Text
  import Coordinates
  import Gauges
  import Germs
  import opened LevelGridObjects

  class Germ {
    const obj: GridObject
    const kind: Germs.GermKind

    /** `Germ(color, kind)`: a germ at (0, 0). */
    constructor (color: Color, kind: Germs.GermKind)
      ensures fresh(obj) && fresh(obj.coordinates)
      ensures obj.Pos() == Coordinates.Pos(0, 0) && obj.color == color && !obj.destroyed
      ensures this.kind == kind
    {
      var origin := new Coordinates.Coordinates(0, 0);
      obj := new GridObject(origin, color);
      this.kind := kind;
    }
  }

  const MaxHealth := 4

  /** The message of the exception a health outside 1..4 raises. */
  function InvalidHealth(health: int): string
  {
    "Invalid health: " + Text.IntToString(health) + " / " + Text.IntToString(MaxHealth)
  }

  class WallGerm {
    const germ: Germ
    var health: int

    constructor (color: Color, health: int)
      requires 0 < health <= MaxHealth
      ensures fresh(germ) && fresh(germ.obj) && fresh(germ.obj.coordinates)
      ensures germ.kind == Germs.GermKind.Basic && germ.obj.color == color && !germ.obj.destroyed
      ensures germ.obj.Pos() == Coordinates.Pos(0, 0)
      ensures this.health == health && !IsDestroyed()
    {
      germ := new Germ(color, Germs.GermKind.Basic);
      this.health := health;
    }

    /** `WallGerm(color)`: full health. */
    constructor Full(color: Color)
      ensures fresh(germ) && fresh(germ.obj) && germ.obj.color == color
      ensures health == MaxHealth && !IsDestroyed()
    {
      germ := new Germ(color, Germs.GermKind.Basic);
      health := MaxHealth;
    }

    /** `WallGerm(color, health)`: a health outside 1..4 raises the exception instead. */
    static method New(color: Color, health: int) returns (r: Result<WallGerm, string>)
      ensures r.Success? <==> 0 < health <= MaxHealth
      ensures r.Success? ==> fresh(r.value) && fresh(r.value.germ) && r.value.health == health
      ensures r.Success? ==> r.value.germ.obj.color == color && !r.value.IsDestroyed()
      ensures r.Failure? ==> r.error == InvalidHealth(health)
    {
      if health <= 0 || MaxHealth < health {
        return Failure(InvalidHealth(health));
      }
      var w := new WallGerm(color, health);
      return Success(w);
    }

    /** `isDestroyed`: no health left. */
    predicate IsDestroyed()
      reads this
    {
      health <= 0
    }

    /** `takeHit` lowers the health only while it is positive. */
    method TakeHit()
      modifies this
      ensures health == Gauges.StepDown(old(health))
      ensures old(health) >= 0 ==> health >= 0
      ensures IsDestroyed() <==> old(health) <= 1
    {
      if health > 0 {
        health := health - 1;
      }
    }
  }

  /** The germs `GermSupplier` builds: wall germs are a class of their own, the others plain germs. */
  datatype LevelGerm = Plain(germ: Germ) | Walled(wall: WallGerm)
  {
    function Base(): GridObject
    {
      if Plain? then germ.obj else wall.germ.obj
    }

    function Kind(): Germs.GermKind
    {
      if Plain? then germ.kind else wall.germ.kind
    }
  }

  /** The kind each supplier passes to the `Germ` constructor: walls pass BASIC. */
  function ConstructedKind(spec: Germs.GermSpec): (k: Germs.GermKind)
    ensures k == Germs.GermKind.Basic <==> spec.BasicSpec? || spec.WallSpec?
    ensures !spec.WallSpec? ==> k == Germs.SpecKind(spec)
  {
    match spec
    case BasicSpec => Germs.GermKind.Basic
    case WallSpec(_) => Germs.GermKind.Basic
    case ThornSpec => Germs.GermKind.Thorn
    case VirusSpec => Germs.GermKind.Virus
  }

  /**
   * `Germ.ofSymbol(symbol, colors)` with the colour drawn by the caller: the germ the symbol's
   * supplier builds (a wall of health 2, 3 or 4 for W, X, Y), or the lookup's exception message.
   */
  method OfSymbol(symbol: char, color: Color) returns (r: Result<LevelGerm, string>)
    ensures r.Success? <==> symbol in "BWXYTV"
    ensures r.Success? ==> r.value.Base().color == color && fresh(r.value.Base())
    ensures r.Success? ==> r.value.Base().Pos() == Coordinates.Pos(0, 0) && !r.value.Base().destroyed
    ensures r.Success? ==> (r.value.Walled? <==> Germs.SymbolSpec(symbol).WallSpec?)
    ensures r.Success? && r.value.Walled? ==> Germs.SymbolSpec(symbol) == Germs.WallSpec(r.value.wall.health)
    ensures r.Success? ==> r.value.Kind() == ConstructedKind(Germs.SymbolSpec(symbol))
    ensures r.Failure? ==> r.error == "Couldn't resolve germ with symbol: " + [symbol]
  {
    var supplier := Germs.SupplierOfSymbol(symbol);
    if supplier.Failure? {
      return Failure(supplier.error);
    }
    Germs.SymbolTable(symbol);
    var spec := Germs.Builds(supplier.value);
    if spec.WallSpec? {
      var w := new WallGerm(color, spec.health);
      return Success(Walled(w));
    } else {
      var g := new Germ(color, ConstructedKind(spec));
      return Success(Plain(g));
    }
  }
}
