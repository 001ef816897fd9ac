/**
 * The side a capsule half faces (core/src/com/mygdx/kaps/level/Orientation.java):
 * a quarter-turn rotation, an opposite, and a unit displacement per side.
 */
module Orientations {
  import opened Coordinates

  datatype Orientation = None | Left | Up | Right | Down

  /** The sprite-path name of each orientation. */
  function ToString(o: Orientation): string
  {
    match o
    case None => "unlinked"
    case Left => "left"
    case Up => "up"
    case Right => "right"
    case Down => "down"
  }

  predicate IsVertical(o: Orientation) {
    o == Up || o == Down
  }

  predicate IsHorizontal(o: Orientation) {
    o == Left || o == Right
  }

  /** A quarter turn: LEFT, UP, RIGHT, DOWN, LEFT, ...; an unlinked part stays unlinked. */
  function Flipped(o: Orientation): (r: Orientation)
    ensures IsVertical(r) <==> IsHorizontal(o)
    ensures IsHorizontal(r) <==> IsVertical(o)
    ensures r == None <==> o == None
  {
    match o
    case Left => Up
    case Up => Right
    case Right => Down
    case Down => Left
    case None => None
  }

  function Opposite(o: Orientation): (r: Orientation)
    ensures IsVertical(r) <==> IsVertical(o)
    ensures IsHorizontal(r) <==> IsHorizontal(o)
    ensures r == None <==> o == None
  {
    match o
    case Left => Right
    case Up => Down
    case Right => Left
    case Down => Up
    case None => None
  }

  /** The unit step towards the side: y grows upwards. */
  function DirectionVector(o: Orientation): (r: Pos)
    ensures o == None <==> r == Pos(0, 0)
    ensures IsHorizontal(o) <==> (r.y == 0 && (r.x == 1 || r.x == -1))
    ensures IsVertical(o) <==> (r.x == 0 && (r.y == 1 || r.y == -1))
  {
    match o
    case Left => Pos(-1, 0)
    case Up => Pos(0, 1)
    case Right => Pos(1, 0)
    case Down => Pos(0, -1)
    case None => Pos(0, 0)
  }

  /** `directionVector().mapped(x -> -x)`. */
  function OppositeVector(o: Orientation): (r: Pos)
    ensures r == DirectionVector(Opposite(o))
    ensures r.x == -DirectionVector(o).x && r.y == -DirectionVector(o).y
  {
    var d := DirectionVector(o);
    Pos(-d.x, -d.y)
  }

  lemma NoneIsNeitherVerticalNorHorizontal(o: Orientation)
    ensures !(IsVertical(o) && IsHorizontal(o))
    ensures o == None <==> !IsVertical(o) && !IsHorizontal(o)
  {
  }

  lemma FourFlipsAreIdentity(o: Orientation)
    ensures Flipped(Flipped(Flipped(Flipped(o)))) == o
  {
  }

  lemma TwoFlipsAreOpposite(o: Orientation)
    ensures Flipped(Flipped(o)) == Opposite(o)
  {
  }

  lemma OppositeIsInvolution(o: Orientation)
    ensures Opposite(Opposite(o)) == o
    ensures o != None ==> Opposite(o) != o
  {
  }

  /** Distinct orientations have distinct names and distinct vectors. */
  lemma NamesAndVectorsAreDistinct(a: Orientation, b: Orientation)
    ensures ToString(a) == ToString(b) ==> a == b
    ensures DirectionVector(a) == DirectionVector(b) ==> a == b
  {
  }
}
