/**
 * The common state of everything that sits on the board
 * (core/src/com/mygdx/kaps/level/gridobject/GridObject.java). Java subclasses are modelled by
 * composition: a germ or a capsule part holds a `const` reference to its `GridObject` part, and
 * the board dispatches the overridden methods (see module Grids).
 */
module GridObjects {
  import Coordinates

  /** A colour of the Color enum, by ordinal; only equality of colours matters to the game logic. */
  type Color = nat

  class GridObject {
    const coordinates: Coordinates.Coordinates
    const score: int
    const mana: int
    var destroyed: bool
    var color: Color

    /**
     * `GridObject(coordinates, color, mana, score)`: keeps its own copy of the coordinates,
     * so moving the argument later does not move the object.
     */
    constructor (coordinates: Coordinates.Coordinates, color: Color, mana: int, score: int)
      ensures fresh(this.coordinates) && this.coordinates != coordinates
      ensures this.coordinates.Value() == coordinates.Value()
      ensures this.color == color && this.mana == mana && this.score == score
      ensures !destroyed
    {
      var c := coordinates.Copy();
      this.coordinates := c;
      this.color := color;
      this.score := score;
      this.mana := mana;
      this.destroyed := false;
    }

    /** `GridObject(coordinates, color)`: one point of mana and ten points of score. */
    constructor WithDefaults(coordinates: Coordinates.Coordinates, color: Color)
      ensures fresh(this.coordinates) && this.coordinates != coordinates
      ensures this.coordinates.Value() == coordinates.Value()
      ensures this.color == color && mana == 1 && score == 10
      ensures !destroyed
    {
      var c := coordinates.Copy();
      this.coordinates := c;
      this.color := color;
      this.score := 10;
      this.mana := 1;
      this.destroyed := false;
    }

    /** The printed form is the printed coordinates (distinct positions print differently: Coordinates.PosToStringInjective). */
    function ToString(): string
      reads coordinates
    {
      coordinates.ToString()
    }

    predicate IsDestroyed()
      reads this
    {
      destroyed
    }

    /** `takeHit`: any single hit destroys a plain object, and nothing ever restores it. */
    method TakeHit()
      modifies this
      ensures destroyed && color == old(color)
    {
      destroyed := true;
    }

    /** `repaint` changes the colour and nothing else. */
    method Repaint(color: Color)
      modifies this
      ensures this.color == color && destroyed == old(destroyed)
    {
      this.color := color;
    }
  }
}
