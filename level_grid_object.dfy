/**
 * The board object of the older level-package generation
 * (core/src/com/mygdx/kaps/level/GridObject.java): its own copy of the coordinates, a fixed
 * colour and a `destroyed` flag that only `takeHit` sets. The older germs and capsule parts
 * hold one of these.
 */
module LevelGridObjects {
  import Coordinates

  /** A colour of the level package's Color enum, by ordinal. */
  type Color = nat

  class GridObject {
    const coordinates: Coordinates.Coordinates
    const color: Color
    var destroyed: bool

    /** Keeps a copy of the coordinates, so moving the argument later does not move the object. */
    constructor (coordinates: Coordinates.Coordinates, color: Color)
      ensures fresh(this.coordinates) && this.coordinates != coordinates
      ensures this.coordinates.Value() == coordinates.Value() && this.color == color && !destroyed
    {
      var c := coordinates.Copy();
      this.coordinates := c;
      this.color := color;
      this.destroyed := false;
    }

    function Pos(): Coordinates.Pos
      reads coordinates
    {
      coordinates.Value()
    }

    predicate IsDestroyed()
      reads this
    {
      destroyed
    }

    /** `takeHit`: one hit destroys the object, and nothing undoes it. */
    method TakeHit()
      modifies this
      ensures IsDestroyed()
    {
      destroyed := true;
    }
  }
}
