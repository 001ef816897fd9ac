/**
 * A capsule half with a partner
 * (core/src/com/mygdx/kaps/level/gridobject/LinkedCapsulePart.java). It holds its
 * `CapsulePart` state, the side it faces and a reference to its partner. `linkTo` ties two
 * halves both ways, and `face` puts a half next to its partner on the partner's opposite
 * side: the partner of a half facing `o` sits at `position + oppositeVector(o)` and faces
 * `opposite(o)`.
 */
module LinkedCapsuleParts {
  import opened Wrappers
  import Coordinates
  import opened Orientations
  import opened GridObjects
  import opened CapsuleParts

  /** The partner's place and side for a half at `p` facing `o`. */
  function FacingPos(p: Coordinates.Pos, o: Orientation): (r: Coordinates.Pos)
    ensures r.x == p.x - DirectionVector(o).x && r.y == p.y - DirectionVector(o).y
  {
    var q := OppositeVector(o);
    var d := DirectionVector(o);
    assert q.x == -d.x && q.y == -d.y;
    Coordinates.Pos(p.x + q.x, p.y + q.y)
  }

  /** Facing is symmetric: the partner of the partner is back where it started, facing the same side. */
  lemma FacingIsSymmetric(p: Coordinates.Pos, o: Orientation)
    ensures FacingPos(FacingPos(p, o), Opposite(o)) == p
    ensures Opposite(Opposite(o)) == o
  {
    OppositeIsInvolution(o);
  }

  class LinkedCapsulePart {
    const part: CapsulePart
    var orientation: Orientation
    var linked: LinkedCapsulePart?

    /**
     * `LinkedCapsulePart(coordinates, color)`: Java leaves the orientation and the partner null
     * until `linkTo` or `face`; the model starts it unlinked, facing NONE.
     */
    constructor (coordinates: Coordinates.Coordinates, color: Color)
      ensures fresh(part) && fresh(part.obj) && fresh(part.obj.coordinates)
      ensures Pos() == coordinates.Value() && part.obj.color == color && !part.dropping
      ensures orientation == Orientation.None && linked == null
    {
      var p := new CapsulePart(coordinates, color);
      this.part := p;
      this.orientation := Orientation.None;
      this.linked := null;
    }

    /** The private constructor used by `copy`. */
    constructor WithOrientation(coordinates: Coordinates.Coordinates, color: Color, orientation: Orientation)
      ensures fresh(part) && fresh(part.obj) && fresh(part.obj.coordinates)
      ensures Pos() == coordinates.Value() && part.obj.color == color && !part.dropping
      ensures this.orientation == orientation && linked == null
    {
      var p := new CapsulePart(coordinates, color);
      this.part := p;
      this.orientation := orientation;
      this.linked := null;
    }

    /**
     * `LinkedCapsulePart(coordinates, color, side, linked)`: links to `linked`, which then
     * faces this half. `linkTo` receives `opposite(side)` and turns it back, so this half faces `side`.
     */
    constructor Linking(coordinates: Coordinates.Coordinates, color: Color, side: Orientation, linked: LinkedCapsulePart)
      modifies linked, linked.part.obj.coordinates
      ensures fresh(part) && fresh(part.obj) && fresh(part.obj.coordinates)
      ensures Pos() == old(coordinates.Value()) && part.obj.color == color && !part.dropping
      ensures orientation == side && this.linked == linked && linked.linked == this
      ensures linked.orientation == Opposite(side)
      ensures linked.Pos() == FacingPos(Pos(), side)
      ensures linked.part.obj.color == old(linked.part.obj.color)
      ensures linked.part.dropping == old(linked.part.dropping)
      ensures Adjacent()
    {
      var p := new CapsulePart(coordinates, color);
      this.part := p;
      this.orientation := Orientation.None;
      this.linked := null;
      new;
      LinkTo(linked, Opposite(side));
      OppositeIsInvolution(side);
    }

    function Footprint(): set<object>
    {
      {this, part, part.obj, part.obj.coordinates}
    }

    function Pos(): Coordinates.Pos
      reads part.obj.coordinates
    {
      part.Pos()
    }

    /** What a predicate sees of a linked half: its own orientation. */
    function View(): (v: PartView)
      reads this, part, part.obj, part.obj.coordinates
      ensures v.pos == Pos() && v.orientation == orientation && v.dropping == part.dropping && v.color == part.obj.color
    {
      PartView(Pos(), part.obj.color, part.dropping, orientation)
    }

    /**
     * `linked()`: the partner. Java wraps the field with `Optional.of`, which throws while the
     * field is still null; the model answers None then.
     */
    function Linked(): (r: Option<LinkedCapsulePart>)
      reads this
      ensures r.Some? <==> linked != null
      ensures r.Some? ==> r.value == linked
    {
      if linked == null then Option.None else Some(linked)
    }

    /** The two halves are tied both ways and the partner sits on this half's opposite side. */
    predicate Adjacent()
      reads this, part.obj.coordinates, linked
      reads if linked != null then {linked.part.obj.coordinates} else {}
    {
      linked != null && linked.linked == this
      && linked.orientation == Opposite(orientation)
      && linked.Pos() == FacingPos(Pos(), orientation)
    }

    /** Two distinct halves whose states do not overlap. */
    predicate SeparateFrom(other: LinkedCapsulePart)
    {
      other != this && other.part != part && other.part.obj != part.obj
      && other.part.obj.coordinates != part.obj.coordinates
    }

    /** `copy`: same place, colour and side, no partner. */
    method Copy() returns (c: LinkedCapsulePart)
      ensures fresh(c) && fresh(c.part) && fresh(c.part.obj) && fresh(c.part.obj.coordinates)
      ensures c.Pos() == Pos() && c.part.obj.color == part.obj.color && c.orientation == orientation
      ensures c.linked == null && !c.part.dropping
    {
      c := new LinkedCapsulePart.WithOrientation(part.obj.coordinates, part.obj.color, orientation);
    }

    /** `copy(color)`: as `copy`, in another colour. */
    method CopyWithColor(color: Color) returns (c: LinkedCapsulePart)
      ensures fresh(c) && fresh(c.part) && fresh(c.part.obj) && fresh(c.part.obj.coordinates)
      ensures c.Pos() == Pos() && c.part.obj.color == color && c.orientation == orientation
      ensures c.linked == null
    {
      c := new LinkedCapsulePart.WithOrientation(part.obj.coordinates, color, orientation);
    }

    /** `linkTo`: faces the opposite of `side`, ties both halves, and brings the partner alongside. */
    method LinkTo(l: LinkedCapsulePart, side: Orientation)
      requires SeparateFrom(l)
      modifies this, l, l.part.obj.coordinates
      ensures orientation == Opposite(side) && linked == l && l.linked == this
      ensures l.orientation == Opposite(orientation) && l.Pos() == FacingPos(Pos(), orientation)
      ensures Pos() == old(Pos()) && l.part.obj.color == old(l.part.obj.color)
      ensures Adjacent()
    {
      orientation := Opposite(side);
      linked := l;
      l.linked := this;
      UpdateLinked();
    }

    /** `updateLinked`: the partner faces this half; this half does not move. */
    method UpdateLinked()
      requires linked != null && SeparateFrom(linked)
      modifies linked, linked.part.obj.coordinates
      ensures linked == old(linked) && linked.linked == old(linked.linked)
      ensures linked.orientation == Opposite(orientation)
      ensures linked.Pos() == FacingPos(Pos(), orientation)
      ensures linked.linked == this ==> Adjacent()
    {
      linked.Face(this);
    }

    /** `face(caps)`: take the side opposite to `caps` and the place it faces. */
    method Face(caps: LinkedCapsulePart)
      requires SeparateFrom(caps)
      modifies this, part.obj.coordinates
      ensures orientation == Opposite(caps.orientation)
      ensures Pos() == FacingPos(caps.Pos(), caps.orientation)
      ensures linked == old(linked)
    {
      orientation := Opposite(caps.orientation);
      var target := FacingPos(caps.Pos(), caps.orientation);
      part.obj.coordinates.Set(target.x, target.y);
    }

    /** `moveForward`: one step towards the side this half faces. */
    method MoveForward()
      modifies part.obj.coordinates
      ensures Pos() == old(Pos()).Plus(DirectionVector(orientation))
    {
      part.MoveTowards(orientation);
    }

    /** `flip`: a quarter turn of the side faced; the half does not move. */
    method Flip()
      modifies this
      ensures orientation == Flipped(old(orientation)) && linked == old(linked)
    {
      orientation := Flipped(orientation);
    }

    /** `atLeastOneVerify`. */
    predicate AtLeastOneVerify(condition: PartView -> bool)
      requires linked != null
      reads this, part, part.obj, part.obj.coordinates, linked, linked.part, linked.part.obj, linked.part.obj.coordinates
    {
      condition(View()) || condition(linked.View())
    }

    /** `verify`: both halves pass. */
    predicate Verify(condition: PartView -> bool)
      requires linked != null
      reads this, part, part.obj, part.obj.coordinates, linked, linked.part, linked.part.obj, linked.part.obj.coordinates
    {
      condition(View()) && condition(linked.View())
    }

    /** `verticalVerify`: one half is enough for a vertical half, both are needed otherwise. */
    predicate VerticalVerify(condition: PartView -> bool)
      requires linked != null
      reads this, part, part.obj, part.obj.coordinates, linked, linked.part, linked.part.obj, linked.part.obj.coordinates
    {
      if IsVertical(orientation) then AtLeastOneVerify(condition) else Verify(condition)
    }

    /** `applyForEach`: the first action on this half, then the second on its partner. */
    method ApplyForEach(action: PartAction, linkedAction: PartAction)
      requires linked != null && SeparateFrom(linked)
      modifies part, part.obj.coordinates, linked.part, linked.part.obj.coordinates
      ensures View() == Applied(action, old(View()))
      ensures linked.View() == Applied(linkedAction, old(linked.View()))
    {
      part.Apply(action);
      linked.part.Apply(linkedAction);
    }

    method ApplyToBoth(action: PartAction)
      requires linked != null && SeparateFrom(linked)
      modifies part, part.obj.coordinates, linked.part, linked.part.obj.coordinates
      ensures View() == Applied(action, old(View()))
      ensures linked.View() == Applied(action, old(linked.View()))
    {
      ApplyForEach(action, action);
    }
  }

  /** A predicate that holds for both halves holds for one of them, so `verify` implies `verticalVerify`. */
  lemma VerifyImpliesVerticalVerify(p: LinkedCapsulePart, condition: PartView -> bool)
    requires p.linked != null
    ensures p.Verify(condition) ==> p.VerticalVerify(condition)
    ensures p.VerticalVerify(condition) ==> p.AtLeastOneVerify(condition)
  {
  }

  /** `new CapsulePart(linkedPart)`: an unlinked half with the linked one's place and colour. */
  method Unlinked(caps: LinkedCapsulePart) returns (p: CapsulePart)
    ensures fresh(p) && fresh(p.obj) && fresh(p.obj.coordinates)
    ensures p.Pos() == caps.Pos() && p.obj.color == caps.part.obj.color && !p.dropping
  {
    p := new CapsulePart(caps.part.obj.coordinates, caps.part.obj.color);
  }
}
