/**
 * The falling capsule of core/src/com/mygdx/kaps/level/gridobject/Capsule.java: a main linked
 * half whose partner (the slave) always sits on the tile the main half faces away from, with the
 * opposite orientation. Every move acts on the main half and then re-aligns the slave
 * (`shift`), so the pair stays adjacent; the `*ed()` variants move a copy instead.
 */
module Capsules {
  import Coordinates
  import opened Orientations
  import opened GridObjects
  import opened CapsuleParts
  import opened LinkedCapsuleParts
  import opened Grids

  /** What a capsule is, apart from its dropping flags: where its main half is, which side it faces, its colours. */
  datatype CapsuleView = CapsuleView(mainPos: Coordinates.Pos, orientation: Orientation, mainColor: Color, slaveColor: Color)

  /** The moves `shift` applies to the main half. */
  datatype Move = DipMove | FlipMove | LeftMove | RightMove | ForwardMove

  /** Where the slave of a capsule sits. */
  function SlavePos(v: CapsuleView): Coordinates.Pos
  {
    FacingPos(v.mainPos, v.orientation)
  }

  /** What a move does to the capsule: the main half's step or turn, the slave following. */
  function Moved(m: Move, v: CapsuleView): (r: CapsuleView)
    ensures r.mainColor == v.mainColor && r.slaveColor == v.slaveColor
    ensures m != FlipMove ==> r.orientation == v.orientation
    ensures m == FlipMove ==> r.mainPos == v.mainPos
  {
    match m
    case DipMove => v.(mainPos := Coordinates.Pos(v.mainPos.x, v.mainPos.y - 1))
    case FlipMove => v.(orientation := Flipped(v.orientation))
    case LeftMove => v.(mainPos := Coordinates.Pos(v.mainPos.x - 1, v.mainPos.y))
    case RightMove => v.(mainPos := Coordinates.Pos(v.mainPos.x + 1, v.mainPos.y))
    case ForwardMove => v.(mainPos := v.mainPos.Plus(DirectionVector(v.orientation)))
  }

  /**
   * Moves translate both halves alike: after a dip, a left or a right move, the slave has taken
   * the same step as the main half; a left and a right move undo each other; four flips are no move.
   */
  lemma MovesKeepShape(v: CapsuleView)
    ensures SlavePos(Moved(DipMove, v)) == Coordinates.Pos(SlavePos(v).x, SlavePos(v).y - 1)
    ensures SlavePos(Moved(LeftMove, v)) == Coordinates.Pos(SlavePos(v).x - 1, SlavePos(v).y)
    ensures SlavePos(Moved(RightMove, v)) == Coordinates.Pos(SlavePos(v).x + 1, SlavePos(v).y)
    ensures Moved(LeftMove, Moved(RightMove, v)) == v && Moved(RightMove, Moved(LeftMove, v)) == v
    ensures Moved(FlipMove, Moved(FlipMove, Moved(FlipMove, Moved(FlipMove, v)))) == v
  {
    FourFlipsAreIdentity(v.orientation);
  }

  /**
   * Two flips put the slave on the other side of the main half: the main half faces the opposite
   * side and the slave lands on the mirror of its tile.
   */
  lemma FlipTwiceMirrorsSlave(v: CapsuleView)
    ensures Moved(FlipMove, Moved(FlipMove, v)).orientation == Opposite(v.orientation)
    ensures SlavePos(Moved(FlipMove, Moved(FlipMove, v))).x == 2 * v.mainPos.x - SlavePos(v).x
    ensures SlavePos(Moved(FlipMove, Moved(FlipMove, v))).y == 2 * v.mainPos.y - SlavePos(v).y
  {
    TwoFlipsAreOpposite(v.orientation);
  }

  class Capsule {
    const main: LinkedCapsulePart
    var preview: Capsule?

    function Slave(): LinkedCapsulePart?
      reads main
    {
      main.linked
    }

    function Repr(): set<object>
      reads this, main
    {
      {this} + main.Footprint() + (if main.linked != null then main.linked.Footprint() else {})
    }

    /** The slave exists, shares no state with the main half, and sits adjacent to it. */
    predicate Valid()
      reads Repr()
    {
      main.linked != null && main.SeparateFrom(main.linked) && main.Adjacent()
    }

    function View(): CapsuleView
      requires Valid()
      reads Repr()
    {
      CapsuleView(main.Pos(), main.orientation, main.part.obj.color, main.linked.part.obj.color)
    }

    /**
     * `Capsule(main, slave, mainOrientation)`: a new slave at the slave's place and colour is
     * linked to a new main half, which faces `orientation`; the slave then faces it.
     */
    constructor (mainCoordinates: Coordinates.Coordinates, mainColor: Color,
                 slaveCoordinates: Coordinates.Coordinates, slaveColor: Color, orientation: Orientation)
      ensures Valid() && fresh(Repr() - {this}) && preview == null
      ensures View() == CapsuleView(mainCoordinates.Value(), orientation, mainColor, slaveColor)
      ensures IsFrozen()
    {
      var linked := new LinkedCapsulePart(slaveCoordinates, slaveColor);
      main := new LinkedCapsulePart.Linking(mainCoordinates, mainColor, orientation, linked);
      preview := null;
      new;
      assert main.linked == linked && main.SeparateFrom(linked);
    }

    /** `Capsule(coordinates, mainColor, slaveColor)`: both halves from one place, the main half facing LEFT. */
    constructor OfColors(coordinates: Coordinates.Coordinates, mainColor: Color, slaveColor: Color)
      ensures Valid() && fresh(Repr() - {this}) && preview == null
      ensures View() == CapsuleView(coordinates.Value(), Left, mainColor, slaveColor)
      ensures SlavePos(View()) == Coordinates.Pos(coordinates.x + 1, coordinates.y)
      ensures IsFrozen()
    {
      var linked := new LinkedCapsulePart(coordinates, slaveColor);
      main := new LinkedCapsulePart.Linking(coordinates, mainColor, Left, linked);
      preview := null;
      new;
      assert main.linked == linked && main.SeparateFrom(linked);
    }

    /** `copy`: a new capsule in the same place, facing the same side, in the same colours, not dropping. */
    method Copy() returns (c: Capsule)
      requires Valid()
      ensures c.Valid() && fresh(c.Repr()) && c.preview == null
      ensures c.View() == View() && c.IsFrozen()
    {
      c := new Capsule(main.part.obj.coordinates, main.part.obj.color,
                       main.linked.part.obj.coordinates, main.linked.part.obj.color, main.orientation);
    }

    /** `canStandIn`: both halves are on the board, on empty tiles. */
    predicate CanStandIn(g: Grid)
      requires Valid() && g.Valid()
      reads Repr(), g.Rows()
    {
      g.CanStandIn(main.Pos()) && g.CanStandIn(main.linked.Pos())
    }

    /** `isDropping`: both halves are dropping. */
    predicate IsDropping()
      reads Repr()
    {
      main.linked != null && main.part.dropping && main.linked.part.dropping
    }

    /** `isFrozen`: neither half is dropping, so a frozen capsule is never a dropping one. */
    predicate IsFrozen()
      reads Repr()
      ensures IsFrozen() ==> !IsDropping()
    {
      main.linked != null && !main.part.dropping && !main.linked.part.dropping
    }

    method ApplyForEach(mainAction: PartAction, slaveAction: PartAction)
      requires Valid()
      modifies Repr() - {this}
      ensures main.linked == old(main.linked) && preview == old(preview)
      ensures main.View() == Applied(mainAction, old(main.View()))
      ensures main.linked.View() == Applied(slaveAction, old(main.linked.View()))
    {
      main.ApplyForEach(mainAction, slaveAction);
    }

    /** `applyToBoth`: the same action on both halves; both move alike, so they stay adjacent. */
    method ApplyToBoth(action: PartAction)
      requires Valid()
      modifies Repr() - {this}
      ensures Valid() && View() == old(View()).(mainPos := Applied(action, old(main.View())).pos)
      ensures main.View() == Applied(action, old(main.View()))
      ensures main.linked.View() == Applied(action, old(main.linked.View()))
      ensures preview == old(preview)
    {
      main.ApplyToBoth(action);
    }

    /** `startDropping`: both halves drop and the preview goes. */
    method StartDropping()
      requires Valid()
      modifies Repr()
      ensures Valid() && View() == old(View()) && IsDropping() && preview == null
    {
      ApplyToBoth(InitDropping);
      preview := null;
    }

    /** `freeze`: both halves stop and the preview goes. */
    method Freeze()
      requires Valid()
      modifies Repr()
      ensures Valid() && View() == old(View()) && IsFrozen() && preview == null
    {
      ApplyToBoth(PartAction.Freeze);
      preview := null;
    }

    method ClearPreview()
      modifies this
      ensures preview == null
    {
      preview := null;
    }

    /** `shift`: the move on the main half, then the slave re-aligned with it. */
    method Shift(m: Move)
      requires Valid()
      modifies Repr() - {this}
      ensures Valid() && View() == Moved(m, old(View())) && main.linked == old(main.linked)
      ensures main.part.dropping == old(main.part.dropping) && main.linked.part.dropping == old(main.linked.part.dropping)
    {
      match m {
        case DipMove => main.part.Dip();
        case FlipMove => main.Flip();
        case LeftMove => main.part.MoveLeft();
        case RightMove => main.part.MoveRight();
        case ForwardMove => main.MoveForward();
      }
      main.UpdateLinked();
    }

    method Dip()
      requires Valid()
      modifies Repr() - {this}
      ensures Valid() && View() == Moved(DipMove, old(View())) && main.linked == old(main.linked)
    {
      Shift(DipMove);
    }

    method Flip()
      requires Valid()
      modifies Repr() - {this}
      ensures Valid() && View() == Moved(FlipMove, old(View())) && main.linked == old(main.linked)
    {
      Shift(FlipMove);
    }

    method MoveLeft()
      requires Valid()
      modifies Repr() - {this}
      ensures Valid() && View() == Moved(LeftMove, old(View())) && main.linked == old(main.linked)
    {
      Shift(LeftMove);
    }

    method MoveRight()
      requires Valid()
      modifies Repr() - {this}
      ensures Valid() && View() == Moved(RightMove, old(View())) && main.linked == old(main.linked)
    {
      Shift(RightMove);
    }

    method MoveForward()
      requires Valid()
      modifies Repr() - {this}
      ensures Valid() && View() == Moved(ForwardMove, old(View())) && main.linked == old(main.linked)
    {
      Shift(ForwardMove);
    }

    /** `shifted`: a moved copy; the capsule itself does not change. */
    method Shifted(m: Move) returns (c: Capsule)
      requires Valid()
      ensures c.Valid() && fresh(c.Repr()) && c.preview == null
      ensures c.View() == Moved(m, View()) && c.IsFrozen()
    {
      c := Copy();
      c.Shift(m);
    }

    method Dipped() returns (c: Capsule)
      requires Valid()
      ensures c.Valid() && fresh(c.Repr()) && c.View() == Moved(DipMove, View())
    {
      c := Shifted(DipMove);
    }

    method Flipped() returns (c: Capsule)
      requires Valid()
      ensures c.Valid() && fresh(c.Repr()) && c.View() == Moved(FlipMove, View())
    {
      c := Shifted(FlipMove);
    }

    method MovedLeft() returns (c: Capsule)
      requires Valid()
      ensures c.Valid() && fresh(c.Repr()) && c.View() == Moved(LeftMove, View())
    {
      c := Shifted(LeftMove);
    }

    method MovedRight() returns (c: Capsule)
      requires Valid()
      ensures c.Valid() && fresh(c.Repr()) && c.View() == Moved(RightMove, View())
    {
      c := Shifted(RightMove);
    }

    method MovedBack() returns (c: Capsule)
      requires Valid()
      ensures c.Valid() && fresh(c.Repr()) && c.View() == Moved(ForwardMove, View())
    {
      c := Shifted(ForwardMove);
    }

    /**
     * The copy `updatePreview` keeps: dipped for as long as its next dip could stand on the
     * board. It ends in the same column, no higher, and its next dip cannot stand. Each dip
     * lowers the copy and only tiles of row 0 and above can take it, so the loop ends.
     */
    method LowestCopy(g: Grid) returns (p: Capsule)
      requires Valid() && g.Valid()
      ensures p.Valid() && fresh(p.Repr()) && p.preview == null
      ensures p.View() == View().(mainPos := Coordinates.Pos(View().mainPos.x, p.View().mainPos.y))
      ensures p.View().mainPos.y <= View().mainPos.y
      ensures !CanStandAt(g, Moved(DipMove, p.View()))
    {
      p := Copy();
      p.DipWhileStanding(g);
    }

    /** The dip loop of `updatePreview`, on the copy: dips while the next dip could stand. */
    method DipWhileStanding(g: Grid)
      requires Valid() && g.Valid()
      modifies Repr() - {this}
      ensures Valid() && main.linked == old(main.linked)
      ensures View() == old(View()).(mainPos := Coordinates.Pos(old(View()).mainPos.x, View().mainPos.y))
      ensures View().mainPos.y <= old(View()).mainPos.y
      ensures !CanStandAt(g, Moved(DipMove, View()))
    {
      ghost var start := View();
      var probe := Dipped();
      while probe.CanStandIn(g)
        invariant Valid() && main.linked == old(main.linked) && g.Valid()
        invariant probe.Valid() && fresh(probe.Repr())
        invariant probe.View() == Moved(DipMove, View())
        invariant View() == start.(mainPos := Coordinates.Pos(start.mainPos.x, View().mainPos.y))
        invariant View().mainPos.y <= start.mainPos.y
        decreases View().mainPos.y
      {
        RowsApart(g, this);
        Dip();
        probe := Dipped();
      }
    }

    /** `updatePreview`: the preview becomes the lowest copy of the capsule in its column. */
    method UpdatePreview(g: Grid)
      requires Valid() && g.Valid()
      modifies this
      ensures Valid() && View() == old(View())
      ensures preview != null && preview.Valid() && fresh(preview.Repr())
      ensures preview.View() == View().(mainPos := Coordinates.Pos(View().mainPos.x, preview.View().mainPos.y))
      ensures preview.View().mainPos.y <= View().mainPos.y
      ensures !CanStandAt(g, Moved(DipMove, preview.View()))
    {
      preview := LowestCopy(g);
    }
  }

  /** A capsule's state holds no row of a board. */
  lemma RowsApart(g: Grid, c: Capsule)
    requires c.Valid()
    ensures g.Rows() !! c.Repr()
  {
  }

  /** A capsule described by `v` can stand on the board: both its tiles are on the board and empty. */
  predicate CanStandAt(g: Grid, v: CapsuleView)
    requires g.Valid()
    reads g.Rows()
  {
    g.CanStandIn(v.mainPos) && g.CanStandIn(SlavePos(v))
  }

  /** The capsule's own test agrees with the test on its view. */
  lemma CanStandInMeansCanStandAt(c: Capsule, g: Grid)
    requires c.Valid() && g.Valid()
    ensures c.CanStandIn(g) <==> CanStandAt(g, c.View())
  {
  }

  /** `randomNewInstance`: a capsule at the spawning place in two drawn colours, facing LEFT. */
  method RandomNewInstance(spawn: Coordinates.Coordinates, mainColor: Color, slaveColor: Color) returns (c: Capsule)
    ensures c.Valid() && fresh(c.Repr()) && c.IsFrozen() && c.preview == null
    ensures c.View() == CapsuleView(spawn.Value(), Left, mainColor, slaveColor)
  {
    c := new Capsule.OfColors(spawn, mainColor, slaveColor);
  }

  /** `randomMonoColorInstance`: one drawn colour for both halves. */
  method RandomMonoColorInstance(spawn: Coordinates.Coordinates, color: Color) returns (c: Capsule)
    ensures c.Valid() && fresh(c.Repr()) && c.IsFrozen()
    ensures c.View().mainColor == c.View().slaveColor == color
    ensures c.View().mainPos == spawn.Value() && c.View().orientation == Left
  {
    c := new Capsule.OfColors(spawn, color, color);
  }
}
