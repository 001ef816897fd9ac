/**
 * Germs of the gridobject generation (core/src/com/mygdx/kaps/level/gridobject/Germ.java):
 * the kind table, the one-letter symbols of level files, the base `Germ` and the `WallGerm`
 * nested in that file, whose health is a plain counter. The germ built for a symbol is
 * described here by a `GermSpec` value; module Grids builds the objects.
 */
module Germs {
  import opened Wrappers
  import Text
  import Gauges
  import Coordinates
  import opened GridObjects

  datatype AttackType = Melee | Magic | Slice

  datatype GermKind = Basic | Wall | Virus | Thorn

  /** The enum constants as declared. */
  function EnumName(k: GermKind): string
  {
    match k
    case Basic => "BASIC"
    case Wall => "WALL"
    case Virus => "VIRUS"
    case Thorn => "THORN"
  }

  /** `GermKind.toString`: the constant's name in lower case. */
  function KindName(k: GermKind): string
  {
    Text.ToLower(EnumName(k))
  }

  lemma KindNames()
    ensures KindName(Basic) == "basic" && KindName(Wall) == "wall"
    ensures KindName(Virus) == "virus" && KindName(Thorn) == "thorn"
  {
    assert EnumName(Basic) == ['B', 'A', 'S', 'I', 'C'];
    assert EnumName(Wall) == ['W', 'A', 'L', 'L'];
    assert EnumName(Virus) == ['V', 'I', 'R', 'U', 'S'];
    assert EnumName(Thorn) == ['T', 'H', 'O', 'R', 'N'];
  }

  /** The turns between two attacks; the one-argument enum constructor gives 0. */
  function Cooldown(k: GermKind): (r: nat)
    ensures r > 0 <==> k == Virus || k == Thorn
  {
    match k
    case Basic => 0
    case Wall => 0
    case Virus => 8
    case Thorn => 5
  }

  function AttackTypeOf(k: GermKind): (r: AttackType)
    ensures r == Melee <==> Cooldown(k) == 0
  {
    match k
    case Basic => Melee
    case Wall => Melee
    case Virus => Magic
    case Thorn => Slice
  }

  /** The level-file symbols, in declaration order. */
  datatype Supplier = B | W | X | Y | T | V

  const Suppliers: seq<Supplier> := [B, W, X, Y, T, V]

  /** What each supplier builds: `WallGerm::new` is the full-health wall. */
  datatype GermSpec = BasicSpec | WallSpec(health: int) | ThornSpec | VirusSpec

  function Builds(s: Supplier): GermSpec
  {
    match s
    case B => BasicSpec
    case W => WallSpec(2)
    case X => WallSpec(3)
    case Y => WallSpec(MaxHealth)
    case T => ThornSpec
    case V => VirusSpec
  }

  function SpecKind(g: GermSpec): GermKind
  {
    match g
    case BasicSpec => Basic
    case WallSpec(_) => Wall
    case ThornSpec => Thorn
    case VirusSpec => Virus
  }

  /** Only thorn and virus germs are `CooldownGerm`s. */
  predicate SpecHasCooldown(g: GermSpec)
  {
    g.ThornSpec? || g.VirusSpec?
  }

  /** The first character of the constant's name. */
  function Symbol(s: Supplier): char
  {
    match s
    case B => 'B'
    case W => 'W'
    case X => 'X'
    case Y => 'Y'
    case T => 'T'
    case V => 'V'
  }

  /** The first supplier of `ss` satisfying `p`, as `stream().filter(p).findFirst()`. */
  function FindFirst(ss: seq<Supplier>, p: Supplier -> bool): (r: Option<nat>)
    ensures r.None? <==> forall i :: 0 <= i < |ss| ==> !p(ss[i])
    ensures r.Some? ==> r.value < |ss| && p(ss[r.value])
    ensures r.Some? ==> forall i :: 0 <= i < r.value ==> !p(ss[i])
  {
    if |ss| == 0 then None
    else if p(ss[0]) then Some(0)
    else match FindFirst(ss[1..], p)
      case None => None
      case Some(i) => Some(i + 1)
  }

  /** `GermSupplier.getGermOfSymbol`: the supplier named by `symbol`, or the exception's message. */
  function SupplierOfSymbol(symbol: char): (r: Result<Supplier, string>)
    ensures r.Success? <==> symbol in "BWXYTV"
    ensures r.Success? ==> Symbol(r.value) == symbol
    ensures r.Failure? ==> r.error == "Couldn't resolve germ with symbol: " + [symbol]
  {
    match FindFirst(Suppliers, s => Symbol(s) == symbol)
    case Some(i) => Success(Suppliers[i])
    case None =>
      assert forall s :: Symbol(s) == symbol ==> s in Suppliers;
      Failure("Couldn't resolve germ with symbol: " + [symbol])
  }

  /** Every supplier is found again from its symbol. */
  lemma SymbolRoundTrip(s: Supplier)
    ensures SupplierOfSymbol(Symbol(s)) == Success(s)
  {
    var r := SupplierOfSymbol(Symbol(s));
    assert r.Success?;
  }

  /** What each level-file symbol builds. */
  function SymbolSpec(symbol: char): GermSpec
    requires symbol in "BWXYTV"
  {
    if symbol == 'B' then BasicSpec
    else if symbol == 'W' then WallSpec(2)
    else if symbol == 'X' then WallSpec(3)
    else if symbol == 'Y' then WallSpec(4)
    else if symbol == 'T' then ThornSpec
    else VirusSpec
  }

  lemma SymbolTable(symbol: char)
    requires symbol in "BWXYTV"
    ensures SupplierOfSymbol(symbol).Success?
    ensures Builds(SupplierOfSymbol(symbol).value) == SymbolSpec(symbol)
  {
    var s := SupplierOfSymbol(symbol).value;
    assert Symbol(s) == symbol;
    BuildsBySymbol(s);
  }

  /** Each supplier builds what its symbol stands for. */
  lemma BuildsBySymbol(s: Supplier)
    ensures Symbol(s) in "BWXYTV" && Builds(s) == SymbolSpec(Symbol(s))
  {
  }

  /**
   * `cooldownGermOfKind`: the first supplier whose germ has a cooldown and the requested kind,
   * or the exception's message.
   */
  function CooldownSupplierOfKind(kind: GermKind): (r: Result<Supplier, string>)
    ensures r.Success? <==> kind == Virus || kind == Thorn
    ensures r.Success? ==> SpecHasCooldown(Builds(r.value)) && SpecKind(Builds(r.value)) == kind
    ensures r.Failure? ==> r.error == "Couldn't resolve germ of kind: " + KindName(kind)
  {
    assert Suppliers[4] == T && Suppliers[5] == V;
    match FindFirst(Suppliers, s => SpecHasCooldown(Builds(s)) && SpecKind(Builds(s)) == kind)
    case Some(i) => Success(Suppliers[i])
    case None => Failure("Couldn't resolve germ of kind: " + KindName(kind))
  }

  /** The base `Germ`: a board object with a kind, always a germ and never with a cooldown. */
  class Germ {
    const obj: GridObject
    const kind: GermKind

    /** The mana-and-score constructor used by the subclasses; a new germ sits at (0, 0). */
    constructor (color: Color, kind: GermKind, mana: int, score: int)
      ensures fresh(obj) && fresh(obj.coordinates)
      ensures obj.coordinates.Value() == Coordinates.Pos(0, 0)
      ensures obj.color == color && obj.mana == mana && obj.score == score && !obj.destroyed
      ensures this.kind == kind
    {
      var origin := new Coordinates.Coordinates.Origin();
      var o := new GridObject(origin, color, mana, score);
      this.obj := o;
      this.kind := kind;
    }

    /** `Germ(color, kind, mana)`: the score is the board default of 10. */
    constructor WithMana(color: Color, kind: GermKind, mana: int)
      ensures fresh(obj) && fresh(obj.coordinates)
      ensures obj.coordinates.Value() == Coordinates.Pos(0, 0)
      ensures obj.color == color && obj.mana == mana && obj.score == 10 && !obj.destroyed
      ensures this.kind == kind
    {
      var origin := new Coordinates.Coordinates.Origin();
      var o := new GridObject(origin, color, mana, 10);
      this.obj := o;
      this.kind := kind;
    }

    /** `Germ(color, kind)`: two points of mana. */
    constructor OfKind(color: Color, kind: GermKind)
      ensures fresh(obj) && fresh(obj.coordinates)
      ensures obj.coordinates.Value() == Coordinates.Pos(0, 0)
      ensures obj.color == color && obj.mana == 2 && obj.score == 10 && !obj.destroyed
      ensures this.kind == kind
    {
      var origin := new Coordinates.Coordinates.Origin();
      var o := new GridObject(origin, color, 2, 10);
      this.obj := o;
      this.kind := kind;
    }

    /** `BasicGerm(color)`. */
    constructor Basic(color: Color)
      ensures fresh(obj) && fresh(obj.coordinates)
      ensures obj.coordinates.Value() == Coordinates.Pos(0, 0)
      ensures obj.color == color && obj.mana == 2 && obj.score == 10 && !obj.destroyed
      ensures kind == GermKind.Basic
    {
      var origin := new Coordinates.Coordinates.Origin();
      var o := new GridObject(origin, color, 2, 10);
      this.obj := o;
      this.kind := GermKind.Basic;
    }

    predicate IsOfKind(k: GermKind)
    {
      k == kind
    }
  }

  const MaxHealth := 4

  /** The wall germ declared inside Germ.java: health is a counter in 1..4 at construction. */
  class WallGerm {
    const germ: Germ
    var health: int

    constructor (color: Color, health: int)
      requires 0 < health <= MaxHealth
      ensures fresh(germ) && fresh(germ.obj) && fresh(germ.obj.coordinates)
      ensures germ.kind == Wall && germ.obj.mana == 3 && germ.obj.color == color && !germ.obj.destroyed
      ensures this.health == health && !IsDestroyed()
    {
      var g := new Germ.WithMana(color, Wall, 3);
      this.germ := g;
      this.health := health;
    }

    /** `WallGerm(color)`: full health. */
    constructor Full(color: Color)
      ensures fresh(germ) && fresh(germ.obj) && fresh(germ.obj.coordinates)
      ensures germ.kind == Wall && germ.obj.mana == 3 && germ.obj.color == color
      ensures health == MaxHealth
    {
      var g := new Germ.WithMana(color, Wall, 3);
      this.germ := g;
      this.health := MaxHealth;
    }

    /** `WallGerm(color, health)`: refuses a health outside 1..4. */
    static method New(color: Color, health: int) returns (r: Result<WallGerm, string>)
      ensures r.Success? <==> 0 < health <= MaxHealth
      ensures r.Success? ==> fresh(r.value) && r.value.health == health && r.value.germ.kind == Wall
      ensures r.Failure? ==> r.error == "Invalid health: " + Text.IntToString(health) + " / 4"
    {
      if health <= 0 || MaxHealth < health {
        return Failure("Invalid health: " + Text.IntToString(health) + " / " + Text.IntToString(MaxHealth));
      }
      var w := new WallGerm(color, health);
      return Success(w);
    }

    predicate IsDestroyed()
      reads this
    {
      health <= 0
    }

    /** `takeHit` decrements only while health is positive. */
    method TakeHit()
      modifies this
      ensures health == Gauges.StepDown(old(health))
      ensures old(health) >= 0 ==> health >= 0
    {
      if health > 0 {
        health := health - 1;
      }
    }
  }

  /** A wall built with health `h` is destroyed after exactly `h` hits, whatever comes later. */
  lemma {:induction false} WallFallsAfterExactly(h: int, n: nat)
    requires 0 < h <= MaxHealth
    ensures Gauges.Drained(h, n) <= 0 <==> n >= h
    ensures Gauges.Drained(h, n) >= 0
  {
    Gauges.DrainedEmptiesAfterExactly(h, n);
  }
}
