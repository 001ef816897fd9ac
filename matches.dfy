/**
 * Match detection of core/src/com/mygdx/kaps/level/Grid.java (`MatchPattern`, `MatchHandler`,
 * `Match`). A pattern is a list of offsets, the identity included; the window of an object is
 * the set of objects on the tiles at those offsets from the object's own coordinates. A window
 * anchored on a non-dropping object matches when it holds at least as many objects as the
 * pattern has offsets, all of one colour.
 */
module Matches {
  import opened Wrappers
  import Coordinates
  import opened GridObjects
  import opened Occupants
  import opened Grids

  /** The offsets of a pattern; the last one is the identity Java adds to every pattern. */
  datatype MatchPattern = MatchPattern(relativeTiles: seq<Pos>)
  {
    function Size(): nat
    {
      |relativeTiles|
    }
  }

  /** The 3 by 3 square around the anchor. */
  const SquarePattern := MatchPattern([
    Coordinates.Pos(-1, -1), Coordinates.Pos(-1, 0), Coordinates.Pos(-1, 1), Coordinates.Pos(0, 1),
    Coordinates.Pos(1, 1), Coordinates.Pos(1, 0), Coordinates.Pos(1, -1), Coordinates.Pos(0, -1),
    Coordinates.Pos(0, 0)])

  /** The anchor and the three tiles below it. */
  const ColumnPattern := MatchPattern([
    Coordinates.Pos(0, -1), Coordinates.Pos(0, -2), Coordinates.Pos(0, -3), Coordinates.Pos(0, 0)])

  /** The anchor and the three tiles to its right. */
  const RowPattern := MatchPattern([
    Coordinates.Pos(1, 0), Coordinates.Pos(2, 0), Coordinates.Pos(3, 0), Coordinates.Pos(0, 0)])

  /** The patterns in the order `MatchHandler` tries them. */
  const Patterns := [SquarePattern, ColumnPattern, RowPattern]

  function Bases(objects: set<Occupant>): set<GridObject>
  {
    set o | o in objects :: o.Base()
  }

  /** The distinct colours of some objects. */
  function ColorsOf(objects: set<Occupant>): set<Color>
    reads Bases(objects)
  {
    set o | o in objects :: o.Color()
  }

  /** `isMatch`: enough objects for the pattern, of a single colour. */
  predicate IsMatch(pattern: MatchPattern, objects: set<Occupant>)
    reads Bases(objects)
  {
    |objects| >= pattern.Size() && |ColorsOf(objects)| == 1
  }

  /** A set of objects has one colour exactly when it is not empty and its objects all share a colour. */
  lemma SingleColor(objects: set<Occupant>)
    ensures |ColorsOf(objects)| == 1 <==>
      objects != {} && forall a, b :: a in objects && b in objects ==> a.Color() == b.Color()
  {
    var colors := ColorsOf(objects);
    if |colors| == 1 {
      var c :| c in colors;
      assert colors == {c} by {
        assert |colors - {c}| == 0;
      }
      forall a | a in objects ensures a.Color() == c {
        assert a.Color() in colors;
      }
      var o :| o in objects && o.Color() == c;
    }
    if objects != {} && forall a, b :: a in objects && b in objects ==> a.Color() == b.Color() {
      var a :| a in objects;
      assert colors == {a.Color()};
    }
  }

  /** The objects on the tiles at the pattern's offsets from `a`'s coordinates. */
  function Window(g: Grid, a: Occupant, pattern: MatchPattern): set<Occupant>
    requires g.Valid()
    reads g.Rows(), a.CoordinatesObject()
  {
    set i | 0 <= i < |pattern.relativeTiles| && g.Get(a.Pos().Plus(pattern.relativeTiles[i])).Some? ::
      g.Get(a.Pos().Plus(pattern.relativeTiles[i])).value
  }

  lemma WindowOnBoard(g: Grid, a: Occupant, pattern: MatchPattern)
    requires g.Valid()
    ensures Window(g, a, pattern) <= g.Stack()
    ensures Bases(Window(g, a, pattern)) <= g.Objects()
  {
    g.StackHoldsTiles();
  }

  /** `matchesFoundIn(grid, pattern)`: the union of the matching windows anchored on non-dropping objects. */
  function MatchesFoundIn(g: Grid, pattern: MatchPattern): set<Occupant>
    requires g.Valid()
    reads g.Rows(), g.Objects()
  {
    set a, o | a in g.Stack() && (g.FootprintOnBoard(a); !a.IsDropping()) && o in Window(g, a, pattern)
      && (WindowOnBoard(g, a, pattern); IsMatch(pattern, Window(g, a, pattern))) :: o
  }

  lemma MatchesOnBoard(g: Grid, pattern: MatchPattern)
    requires g.Valid()
    ensures MatchesFoundIn(g, pattern) <= g.Stack()
    ensures Bases(MatchesFoundIn(g, pattern)) <= g.Objects()
  {
    var found := MatchesFoundIn(g, pattern);
    forall o | o in found ensures o in g.Stack() {
      var a :| a in g.Stack() && o in Window(g, a, pattern);
      WindowOnBoard(g, a, pattern);
    }
    StackBases(g, found);
  }

  /** The state of objects on the board is among the board's objects. */
  lemma StackBases(g: Grid, objects: set<Occupant>)
    requires g.Valid() && objects <= g.Stack()
    ensures Bases(objects) <= g.Objects()
  {
    forall b | b in Bases(objects) ensures b in g.Objects() {
      var o :| o in objects && b == o.Base();
      assert o in g.Stack() && b in o.Footprint();
    }
  }

  /**
   * An object is reported exactly when the window of some non-dropping object on the board
   * holds it, has at least as many objects as the pattern has offsets, and is of its colour
   * throughout.
   */
  lemma MatchedExactly(g: Grid, pattern: MatchPattern, o: Occupant)
    requires g.Valid()
    ensures o in MatchesFoundIn(g, pattern) <==>
      exists a :: a in g.Stack() && !a.IsDropping() && o in Window(g, a, pattern)
        && |Window(g, a, pattern)| >= pattern.Size()
        && forall b :: b in Window(g, a, pattern) ==> b.Color() == o.Color()
  {
    if o in MatchesFoundIn(g, pattern) {
      var a :| a in g.Stack() && !a.IsDropping() && o in Window(g, a, pattern) && IsMatch(pattern, Window(g, a, pattern));
      SingleColor(Window(g, a, pattern));
    }
    if exists a :: a in g.Stack() && !a.IsDropping() && o in Window(g, a, pattern)
        && |Window(g, a, pattern)| >= pattern.Size()
        && forall b :: b in Window(g, a, pattern) ==> b.Color() == o.Color()
    {
      var a :| a in g.Stack() && !a.IsDropping() && o in Window(g, a, pattern)
        && |Window(g, a, pattern)| >= pattern.Size()
        && forall b :: b in Window(g, a, pattern) ==> b.Color() == o.Color();
      SingleColor(Window(g, a, pattern));
      assert IsMatch(pattern, Window(g, a, pattern));
    }
  }

  /** The elements of a list without repetitions are as many as its length. */
  lemma {:induction false} DistinctElements(s: seq<Occupant>)
    requires forall i, j :: 0 <= i < j < |s| ==> s[i] != s[j]
    ensures |set i | 0 <= i < |s| :: s[i]| == |s|
  {
    if s != [] {
      var init := s[..|s| - 1];
      DistinctElements(init);
      var last := s[|s| - 1];
      assert (set i | 0 <= i < |s| :: s[i]) == (set i | 0 <= i < |init| :: init[i]) + {last} by {
        forall i | 0 <= i < |s| ensures s[i] in (set i | 0 <= i < |init| :: init[i]) + {last} {
          if i < |s| - 1 {
            assert s[i] == init[i];
          }
        }
      }
      assert last !in (set i | 0 <= i < |init| :: init[i]);
    }
  }

  /**
   * A full window is found: when every offset of the pattern around a non-dropping object holds a
   * distinct object of that object's colour, all of them are reported.
   */
  lemma FullWindowIsFound(g: Grid, pattern: MatchPattern, a: Occupant, objs: seq<Occupant>)
    requires g.Valid() && a in g.Stack() && !a.IsDropping()
    requires |objs| == pattern.Size() > 0
    requires forall i :: 0 <= i < |objs| ==> g.Get(a.Pos().Plus(pattern.relativeTiles[i])) == Some(objs[i])
    requires forall i, j :: 0 <= i < j < |objs| ==> objs[i] != objs[j]
    requires forall i :: 0 <= i < |objs| ==> objs[i].Color() == a.Color()
    ensures Window(g, a, pattern) == set i | 0 <= i < |objs| :: objs[i]
    ensures |Window(g, a, pattern)| == pattern.Size() && IsMatch(pattern, Window(g, a, pattern))
    ensures forall i :: 0 <= i < |objs| ==> objs[i] in MatchesFoundIn(g, pattern)
  {
    var w := Window(g, a, pattern);
    assert w == set i | 0 <= i < |objs| :: objs[i] by {
      forall o | o in w ensures o in set i | 0 <= i < |objs| :: objs[i] {
        var i :| 0 <= i < |pattern.relativeTiles| && g.Get(a.Pos().Plus(pattern.relativeTiles[i])).Some?
          && o == g.Get(a.Pos().Plus(pattern.relativeTiles[i])).value;
      }
      forall i | 0 <= i < |objs| ensures objs[i] in w {
        assert g.Get(a.Pos().Plus(pattern.relativeTiles[i])) == Some(objs[i]);
      }
    }
    DistinctElements(objs);
    assert objs[0] in w;
    SingleColor(w);
    assert IsMatch(pattern, w);
    WindowOnBoard(g, a, pattern);
    forall i | 0 <= i < |objs| ensures objs[i] in MatchesFoundIn(g, pattern) {
      assert objs[i] in w;
    }
  }

  /** Fewer objects on the board than a pattern's size: nothing matches it. */
  lemma FewObjectsNeverMatch(g: Grid, pattern: MatchPattern)
    requires g.Valid() && |g.Stack()| < pattern.Size()
    ensures MatchesFoundIn(g, pattern) == {}
  {
    forall a | a in g.Stack() ensures !IsMatch(pattern, Window(g, a, pattern)) {
      WindowOnBoard(g, a, pattern);
      SubsetSize(Window(g, a, pattern), g.Stack());
    }
  }

  lemma {:induction false} SubsetSize(a: set<Occupant>, b: set<Occupant>)
    requires a <= b
    ensures |a| <= |b|
    decreases |b|
  {
    if a != {} {
      var x :| x in a;
      SubsetSize(a - {x}, b - {x});
    }
  }

  /** Everything the three patterns report. */
  function Found(g: Grid): set<Occupant>
    requires g.Valid()
    reads g.Rows(), g.Objects()
  {
    MatchesFoundIn(g, SquarePattern) + MatchesFoundIn(g, ColumnPattern) + MatchesFoundIn(g, RowPattern)
  }

  /** `allMatchesFoundIn` (`getMatches`): the reported objects grouped by colour. */
  function AllMatchesFoundIn(g: Grid): map<Color, set<Occupant>>
    requires g.Valid()
    reads g.Rows(), g.Objects()
  {
    MatchesOnBoard(g, SquarePattern);
    MatchesOnBoard(g, ColumnPattern);
    MatchesOnBoard(g, RowPattern);
    var found := Found(g);
    map c | c in ColorsOf(found) :: set o | o in found && o.Color() == c
  }

  /**
   * The grouping partitions what the patterns report: one non-empty group per colour, each
   * holding exactly the reported objects of its colour.
   */
  lemma AllMatchesGroupByColor(g: Grid)
    requires g.Valid()
    ensures forall c :: c in AllMatchesFoundIn(g) ==>
      AllMatchesFoundIn(g)[c] != {} && forall o :: o in AllMatchesFoundIn(g)[c] ==> o.Color() == c
    ensures forall o :: o in Found(g) <==> o.Color() in AllMatchesFoundIn(g) && o in AllMatchesFoundIn(g)[o.Color()]
  {
    var m := AllMatchesFoundIn(g);
    var found := Found(g);
    forall c | c in m ensures m[c] != {} {
      var o :| o in found && o.Color() == c;
      assert o in m[c];
    }
  }

  const ClassicSize := 4
  const BigSize := 5
  const HugeSize := 9

  /** A group of matched objects, as `Grid.Match` holds it. */
  datatype Match = Match(objects: set<Occupant>)

  /** `Match.isValid` as written: fewer than CLASSIC_SIZE objects, of one colour. */
  predicate IsValidAsWritten(objects: set<Occupant>)
    reads Bases(objects)
  {
    |objects| < ClassicSize && |ColorsOf(objects)| == 1
  }

  /** `Match.isValid` as the sizes and `dependingOnSize` intend it: at least CLASSIC_SIZE objects, of one colour. */
  predicate IsValidMatch(objects: set<Occupant>)
    reads Bases(objects)
  {
    |objects| >= ClassicSize && |ColorsOf(objects)| == 1
  }

  /** `new Match(matched)` as written; None stands for the exception. */
  function NewMatchAsWritten(objects: set<Occupant>): Option<Match>
    reads Bases(objects)
  {
    if IsValidAsWritten(objects) then Some(Match(objects)) else Option.None
  }

  /** `new Match(matched)` with the intended validity check. */
  function NewMatch(objects: set<Occupant>): Option<Match>
    reads Bases(objects)
  {
    if IsValidMatch(objects) then Some(Match(objects)) else Option.None
  }

  /** `dependingOnSize(classic, big, huge)`: the tier of the match's size. */
  function DependingOnSize<T>(m: Match, classic: T, big: T, huge: T): T
  {
    if |m.objects| >= HugeSize then huge else if |m.objects| >= BigSize then big else classic
  }

  /** Every window the handler reports has at least four objects, so `Match` as written refuses it. */
  lemma FoundWindowsRefusedAsWritten(pattern: MatchPattern, objects: set<Occupant>)
    requires pattern in Patterns && IsMatch(pattern, objects)
    ensures NewMatchAsWritten(objects).None?
  {
  }

  /** As written, a match that can be built is always CLASSIC: the big and huge tiers are unreachable. */
  lemma AsWrittenOnlyClassic<T>(objects: set<Occupant>, classic: T, big: T, huge: T)
    requires NewMatchAsWritten(objects).Some?
    ensures DependingOnSize(NewMatchAsWritten(objects).value, classic, big, huge) == classic
  {
  }

  /**
   * With the corrected check, a window the handler reports is a valid match, and one that fills
   * its pattern is CLASSIC for a row or a column of four and HUGE for a full square of nine.
   */
  lemma PatternTiers<T>(pattern: MatchPattern, objects: set<Occupant>, classic: T, big: T, huge: T)
    requires pattern in Patterns && IsMatch(pattern, objects)
    ensures NewMatch(objects) == Some(Match(objects))
    ensures |objects| == pattern.Size() ==>
      DependingOnSize(Match(objects), classic, big, huge) == if pattern == SquarePattern then huge else classic
  {
    if pattern == SquarePattern {
      assert pattern.Size() == 9;
    } else {
      assert pattern.Size() == 4;
    }
  }
}
