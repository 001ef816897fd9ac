/**
 * A single capsule half with no partner (core/src/com/mygdx/kaps/level/gridobject/CapsulePart.java):
 * a board object that moves by unit vectors, carries a `dropping` flag, and applies checks and
 * actions to itself alone. The partnered half (module LinkedCapsuleParts) holds one of these.
 * The predicates and actions Java passes as lambdas are modelled by what they look at
 * (`PartView`) and by the finite set of actions the game passes (`PartAction`).
 */
module CapsuleParts {
  import Coordinates
  import opened Orientations
  import opened GridObjects

  /** The state a `Predicate<CapsulePart>` can look at. */
  datatype PartView = PartView(pos: Coordinates.Pos, color: Color, dropping: bool, orientation: Orientation)

  /** The `Consumer<CapsulePart>` arguments the game passes to `applyToBoth`/`applyForEach`. */
  datatype PartAction = InitDropping | Freeze | MoveLeft | MoveRight | Dip

  /** What an action does to the part it is applied to. */
  function Applied(a: PartAction, v: PartView): (r: PartView)
    ensures r.color == v.color && r.orientation == v.orientation
    ensures a.InitDropping? || a.Freeze? ==> r.pos == v.pos
    ensures a.InitDropping? ==> r.dropping
    ensures a.Freeze? ==> !r.dropping
    ensures a.MoveLeft? || a.MoveRight? || a.Dip? ==> r.dropping == v.dropping
  {
    match a
    case InitDropping => v.(dropping := true)
    case Freeze => v.(dropping := false)
    case MoveLeft => v.(pos := v.pos.Plus(DirectionVector(Left)))
    case MoveRight => v.(pos := v.pos.Plus(DirectionVector(Right)))
    case Dip => v.(pos := v.pos.Plus(DirectionVector(Down)))
  }

  /** Moving left undoes moving right and the other way round; dipping lowers by one row. */
  lemma MovesUndo(v: PartView)
    ensures Applied(MoveLeft, Applied(MoveRight, v)) == v
    ensures Applied(MoveRight, Applied(MoveLeft, v)) == v
    ensures Applied(Dip, v).pos == Coordinates.Pos(v.pos.x, v.pos.y - 1)
  {
  }

  class CapsulePart {
    const obj: GridObject
    var dropping: bool

    /** `CapsulePart(coordinates, color)`: the board defaults of mana and score, not dropping. */
    constructor (coordinates: Coordinates.Coordinates, color: Color)
      ensures fresh(obj) && fresh(obj.coordinates)
      ensures obj.coordinates.Value() == coordinates.Value() && obj.color == color
      ensures obj.mana == 1 && obj.score == 10 && !obj.destroyed && !dropping
    {
      var o := new GridObject.WithDefaults(coordinates, color);
      this.obj := o;
      this.dropping := false;
    }

    function Footprint(): set<object>
    {
      {this, obj, obj.coordinates}
    }

    function Pos(): Coordinates.Pos
      reads obj.coordinates
    {
      obj.coordinates.Value()
    }

    /** What a predicate sees of an unlinked part: its orientation is always NONE. */
    function View(): (v: PartView)
      reads this, obj, obj.coordinates
      ensures v.orientation == None && v.pos == Pos() && v.dropping == dropping && v.color == obj.color
    {
      PartView(Pos(), obj.color, dropping, None)
    }

    /** `copy`: a new, independent part at the same place with the same colour. */
    method Copy() returns (c: CapsulePart)
      ensures fresh(c) && fresh(c.obj) && fresh(c.obj.coordinates)
      ensures c.Pos() == Pos() && c.obj.color == obj.color && !c.dropping
    {
      c := new CapsulePart(obj.coordinates, obj.color);
    }

    method InitDropping()
      modifies this
      ensures dropping
    {
      dropping := true;
    }

    method Freeze()
      modifies this
      ensures !dropping
    {
      dropping := false;
    }

    /** `moveTowards`: one step along the orientation's unit vector. */
    method MoveTowards(o: Orientation)
      modifies obj.coordinates
      ensures Pos() == old(Pos()).Plus(DirectionVector(o))
    {
      var d := DirectionVector(o);
      obj.coordinates.Add(d.x, d.y);
    }

    method MoveLeft()
      modifies obj.coordinates
      ensures Pos() == old(Pos()).Plus(Coordinates.Pos(-1, 0))
    {
      MoveTowards(Left);
    }

    method MoveRight()
      modifies obj.coordinates
      ensures Pos() == old(Pos()).Plus(Coordinates.Pos(1, 0))
    {
      MoveTowards(Right);
    }

    method Dip()
      modifies obj.coordinates
      ensures Pos() == old(Pos()).Plus(Coordinates.Pos(0, -1))
    {
      MoveTowards(Down);
    }

    /** `dipped`: a copy one row lower; the part itself does not move. */
    method Dipped() returns (c: CapsulePart)
      ensures fresh(c) && fresh(c.obj) && fresh(c.obj.coordinates)
      ensures c.Pos() == Pos().Plus(Coordinates.Pos(0, -1)) && c.obj.color == obj.color
    {
      c := Copy();
      c.Dip();
    }

    /** Runs one of the game's part actions on this part. */
    method Apply(a: PartAction)
      modifies this, obj.coordinates
      ensures View() == Applied(a, old(View()))
    {
      match a {
        case InitDropping => InitDropping();
        case Freeze => Freeze();
        case MoveLeft => MoveLeft();
        case MoveRight => MoveRight();
        case Dip => Dip();
      }
    }

    /** `applyToBoth`: an unlinked part has only itself to act on. */
    method ApplyToBoth(a: PartAction)
      modifies this, obj.coordinates
      ensures View() == Applied(a, old(View()))
    {
      Apply(a);
    }

    /** `verify` and `verticalVerify`: an unlinked part tests only itself. */
    predicate Verify(condition: PartView -> bool)
      reads this, obj, obj.coordinates
    {
      condition(View())
    }

    predicate VerticalVerify(condition: PartView -> bool)
      reads this, obj, obj.coordinates
    {
      condition(View())
    }
  }
}
