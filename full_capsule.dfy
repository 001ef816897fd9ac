/**
 * The falling capsule of the older level-package generation
 * (core/src/com/mygdx/kaps/level/FullCapsule.java): a main half and a slave half that, after
 * every move of the main half, turns to face it (`updateSlave`). So the slave always sits on
 * the tile the main half faces away from, with the opposite side, just as in the gridobject
 * generation; the capsule is described by the same `Capsules.CapsuleView` and moved by the
 * same `Capsules.Moved`. Two flags, `frozen` and `falling`, start false and are only ever set.
 */
module FullCapsules {
  import Coordinates
  import opened Orientations
  import opened LevelGridObjects
  import opened LevelCapsuleParts
  import LinkedCapsuleParts
  import Capsules
  import Grids

  class FullCapsule {
    const main: CapsulePart
    const slave: CapsulePart
    var frozen: bool
    var falling: bool

    function Repr(): set<object>
    {
      {this, main, main.obj, main.obj.coordinates, slave, slave.obj, slave.obj.coordinates}
    }

    /** The halves share no state. */
    predicate Separate()
    {
      main != slave && main.obj != slave.obj && main.obj.coordinates != slave.obj.coordinates
    }

    /** The slave faces the main half from the tile the main half faces away from. */
    predicate Adjacent()
      reads main, main.obj.coordinates, slave, slave.obj.coordinates
    {
      slave.orientation == Opposite(main.orientation)
      && slave.Pos() == LinkedCapsuleParts.FacingPos(main.Pos(), main.orientation)
    }

    predicate Valid()
      reads Repr()
    {
      Separate() && Adjacent()
    }

    function View(): Capsules.CapsuleView
      reads Repr()
    {
      Capsules.CapsuleView(main.Pos(), main.orientation, main.obj.color, slave.obj.color)
    }

    /** The private constructor: a main half built here, next to a given slave. */
    constructor WithSlave(coordinates: Coordinates.Coordinates, color: Color, orientation: Orientation, slave: CapsulePart)
      ensures fresh(main) && fresh(main.obj) && fresh(main.obj.coordinates) && this.slave == slave
      ensures main.View() == HalfView(coordinates.Value(), color, orientation)
      ensures !frozen && !falling
    {
      main := new CapsulePart(coordinates, color, orientation);
      this.slave := slave;
      frozen, falling := false, false;
    }

    /**
     * `FullCapsule(coordinates, mainColor, slaveColor, orientation)`: the slave is built on the
     * tile `coordinates + oppositeVector(orientation)`, facing the opposite side.
     */
    constructor (coordinates: Coordinates.Coordinates, mainColor: Color, slaveColor: Color, orientation: Orientation)
      ensures Valid() && fresh(Repr() - {this}) && !frozen && !falling
      ensures View() == Capsules.CapsuleView(coordinates.Value(), orientation, mainColor, slaveColor)
    {
      var v := OppositeVector(orientation);
      var slaveCoordinates := coordinates.AddedTo(v.x, v.y);
      slave := new CapsulePart(slaveCoordinates, slaveColor, Opposite(orientation));
      main := new CapsulePart(coordinates, mainColor, orientation);
      frozen, falling := false, false;
    }

    /** `copy`: a new capsule with a copy of the slave; the flags start false again. */
    method Copy() returns (c: FullCapsule)
      requires Valid()
      ensures c.Valid() && fresh(c.Repr()) && c.View() == View() && !c.frozen && !c.falling
    {
      var s := slave.Copy();
      c := new FullCapsule.WithSlave(main.obj.coordinates, main.obj.color, main.orientation, s);
    }

    /**
     * `forEachCapsule` with a consumer that records what it is given: the main half, then the
     * slave.
     */
    method ForEachCapsule(visited: seq<HalfView>) returns (r: seq<HalfView>)
      ensures |r| == |visited| + 2 && r[..|visited|] == visited
      ensures r[|visited|] == main.View() && r[|visited| + 1] == slave.View()
    {
      r := visited + [main.View()];
      r := r + [slave.View()];
    }

    /** `canStandIn`: both halves can. */
    predicate CanStandIn(g: Grids.Grid)
      requires g.Valid()
      reads Repr(), g.Rows()
    {
      main.CanStandIn(g) && slave.CanStandIn(g)
    }

    method StartFalling()
      modifies this
      ensures falling && frozen == old(frozen)
    {
      falling := true;
    }

    method Freeze()
      modifies this
      ensures frozen && falling == old(falling)
    {
      frozen := true;
    }

    /** `updateSlave`: the slave turns to face the main half. */
    method UpdateSlave()
      requires Separate()
      modifies slave, slave.obj.coordinates
      ensures Valid()
    {
      slave.Face(main);
    }

    method Dip()
      requires Valid()
      modifies Repr() - {this}
      ensures Valid() && View() == Capsules.Moved(Capsules.DipMove, old(View()))
    {
      main.Dip();
      UpdateSlave();
    }

    method Flip()
      requires Valid()
      modifies Repr() - {this}
      ensures Valid() && View() == Capsules.Moved(Capsules.FlipMove, old(View()))
    {
      main.Flip();
      UpdateSlave();
    }

    method MoveLeft()
      requires Valid()
      modifies Repr() - {this}
      ensures Valid() && View() == Capsules.Moved(Capsules.LeftMove, old(View()))
    {
      main.MoveLeft();
      UpdateSlave();
    }

    method MoveRight()
      requires Valid()
      modifies Repr() - {this}
      ensures Valid() && View() == Capsules.Moved(Capsules.RightMove, old(View()))
    {
      main.MoveRight();
      UpdateSlave();
    }

    method MoveForward()
      requires Valid()
      modifies Repr() - {this}
      ensures Valid() && View() == Capsules.Moved(Capsules.ForwardMove, old(View()))
    {
      main.MoveForward();
      UpdateSlave();
    }

    /** `shifted`: a copy moved by `m`; the capsule itself does not change. */
    method Shifted(m: Capsules.Move) returns (c: FullCapsule)
      requires Valid()
      ensures c.Valid() && fresh(c.Repr()) && c.View() == Capsules.Moved(m, View())
      ensures !c.frozen && !c.falling
    {
      c := Copy();
      match m {
        case DipMove => c.Dip();
        case FlipMove => c.Flip();
        case LeftMove => c.MoveLeft();
        case RightMove => c.MoveRight();
        case ForwardMove => c.MoveForward();
      }
    }

    method Dipped() returns (c: FullCapsule)
      requires Valid()
      ensures c.Valid() && fresh(c.Repr()) && c.View() == Capsules.Moved(Capsules.DipMove, View())
    {
      c := Shifted(Capsules.DipMove);
    }

    method Flipped() returns (c: FullCapsule)
      requires Valid()
      ensures c.Valid() && fresh(c.Repr()) && c.View() == Capsules.Moved(Capsules.FlipMove, View())
    {
      c := Shifted(Capsules.FlipMove);
    }

    method MovedLeft() returns (c: FullCapsule)
      requires Valid()
      ensures c.Valid() && fresh(c.Repr()) && c.View() == Capsules.Moved(Capsules.LeftMove, View())
    {
      c := Shifted(Capsules.LeftMove);
    }

    method MovedRight() returns (c: FullCapsule)
      requires Valid()
      ensures c.Valid() && fresh(c.Repr()) && c.View() == Capsules.Moved(Capsules.RightMove, View())
    {
      c := Shifted(Capsules.RightMove);
    }

    method MovedBack() returns (c: FullCapsule)
      requires Valid()
      ensures c.Valid() && fresh(c.Repr()) && c.View() == Capsules.Moved(Capsules.ForwardMove, View())
    {
      c := Shifted(Capsules.ForwardMove);
    }
  }

  /** `randomNewInstance` with the two drawn colours: a capsule at the spawning place, facing LEFT. */
  method RandomNewInstance(spawn: Coordinates.Coordinates, mainColor: Color, slaveColor: Color) returns (c: FullCapsule)
    ensures c.Valid() && fresh(c.Repr() - {c}) && !c.frozen && !c.falling
    ensures c.View() == Capsules.CapsuleView(spawn.Value(), Left, mainColor, slaveColor)
  {
    c := new FullCapsule(spawn, mainColor, slaveColor, Left);
  }

  /**
   * The two halves of a capsule facing some side lie on two different tiles, so putting both
   * on the board (`forEachCapsule(grid::put)`) fills two tiles.
   */
  lemma HalvesOnTwoTiles(v: Capsules.CapsuleView)
    ensures v.orientation != Orientation.None <==> Capsules.SlavePos(v) != v.mainPos
  {
  }
}
