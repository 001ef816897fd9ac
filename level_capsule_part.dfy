/**
 * A capsule half of the older level-package generation
 * (core/src/com/mygdx/kaps/level/CapsulePart.java): a board object with the side it faces. It
 * moves by unit vectors, turns a quarter with `flip`, and `face` puts it next to another half,
 * on that half's opposite side.
 */
module LevelCapsuleParts {
  import Coordinates
  import opened Orientations
  import opened LevelGridObjects
  import LinkedCapsuleParts
  import Grids

  /** What a half is: its place, colour and side. */
  datatype HalfView = HalfView(pos: Coordinates.Pos, color: Color, orientation: Orientation)

  class CapsulePart {
    const obj: GridObject
    var orientation: Orientation

    constructor (coordinates: Coordinates.Coordinates, color: Color, orientation: Orientation)
      ensures fresh(obj) && fresh(obj.coordinates)
      ensures View() == HalfView(coordinates.Value(), color, orientation) && !obj.destroyed
    {
      obj := new GridObject(coordinates, color);
      this.orientation := orientation;
    }

    function Pos(): Coordinates.Pos
      reads obj.coordinates
    {
      obj.Pos()
    }

    function View(): HalfView
      reads this, obj.coordinates
    {
      HalfView(Pos(), obj.color, orientation)
    }

    /** `copy`: an independent half with the same place, colour and side. */
    method Copy() returns (c: CapsulePart)
      ensures fresh(c) && fresh(c.obj) && fresh(c.obj.coordinates)
      ensures c.View() == View()
    {
      c := new CapsulePart(obj.coordinates, obj.color, orientation);
    }

    /** `facingCoordinates`: the tile its partner sits on. */
    function FacingPos(): (r: Coordinates.Pos)
      reads this, obj.coordinates
      ensures r == LinkedCapsuleParts.FacingPos(Pos(), orientation)
    {
      Pos().Plus(OppositeVector(orientation))
    }

    /** `canStandIn`: on the board and on an empty tile. */
    predicate CanStandIn(g: Grids.Grid)
      requires g.Valid()
      reads obj.coordinates, g.Rows()
    {
      g.InBounds(Pos()) && g.Get(Pos()).None?
    }

    method MoveTowards(o: Orientation)
      modifies obj.coordinates
      ensures Pos() == old(Pos()).Plus(DirectionVector(o))
    {
      var d := DirectionVector(o);
      obj.coordinates.Add(d.x, d.y);
    }

    /** `moveForward`: one step towards the side it faces. */
    method MoveForward()
      modifies obj.coordinates
      ensures Pos() == old(Pos()).Plus(DirectionVector(orientation))
    {
      MoveTowards(orientation);
    }

    method MoveLeft()
      modifies obj.coordinates
      ensures Pos() == Coordinates.Pos(old(Pos()).x - 1, old(Pos()).y)
    {
      MoveTowards(Left);
    }

    method MoveRight()
      modifies obj.coordinates
      ensures Pos() == Coordinates.Pos(old(Pos()).x + 1, old(Pos()).y)
    {
      MoveTowards(Right);
    }

    method Dip()
      modifies obj.coordinates
      ensures Pos() == Coordinates.Pos(old(Pos()).x, old(Pos()).y - 1)
    {
      MoveTowards(Down);
    }

    /** `flip`: a quarter turn; the half does not move. */
    method Flip()
      modifies this
      ensures orientation == Flipped(old(orientation))
    {
      orientation := Flipped(orientation);
    }

    /** `face(caps)`: the side opposite to `caps` and the tile `caps` faces. */
    method Face(caps: CapsulePart)
      requires caps != this && caps.obj.coordinates != obj.coordinates
      modifies this, obj.coordinates
      ensures orientation == Opposite(caps.orientation)
      ensures Pos() == LinkedCapsuleParts.FacingPos(caps.Pos(), caps.orientation)
    {
      orientation := Opposite(caps.orientation);
      var target := caps.FacingPos();
      obj.coordinates.Set(target.x, target.y);
    }
  }
}
