/**
 * The board of core/src/com/mygdx/kaps/level/Grid.java: rows of optional objects, bottom row
 * first once built. Tile (x, y) is column x of row y; objects carry their own coordinates,
 * which the constructor stamps and which `put` trusts. Clearing a linked capsule half leaves
 * its partner behind as an unlinked part (`detach`), and `hit` clears an object once it is
 * destroyed.
 */
module Grids {
  import opened Wrappers
  import Coordinates
  import Gauges
  import opened GridObjects
  import opened CapsuleParts
  import opened LinkedCapsuleParts
  import opened Occupants

  type Pos = Coordinates.Pos
  type Tile = Option<Occupant>

  /** One row of tiles; `Row(List)` refuses an empty list. */
  class Row {
    var tiles: seq<Tile>

    constructor (elems: seq<Tile>)
      requires |elems| > 0
      ensures tiles == elems
    {
      tiles := elems;
    }

    /** `Row(elems)`: the list's elements as tiles, or the exception's message for an empty list. */
    static method New(elems: seq<Tile>) returns (r: Result<Row, string>)
      ensures r.Success? <==> |elems| > 0
      ensures r.Success? ==> fresh(r.value) && r.value.tiles == elems
      ensures r.Failure? ==> r.error == "Rows can't be empty."
    {
      if |elems| == 0 {
        return Failure("Rows can't be empty.");
      }
      var row := new Row(elems);
      return Success(row);
    }

    /** `Row(length)`: `length` empty tiles; a length of zero or less is an empty list and is refused. */
    static method OfLength(length: int) returns (r: Result<Row, string>)
      ensures r.Success? <==> length > 0
      ensures r.Success? ==> fresh(r.value) && |r.value.tiles| == length
      ensures r.Success? ==> forall i :: 0 <= i < |r.value.tiles| ==> r.value.tiles[i].None?
      ensures r.Failure? ==> r.error == "Rows can't be empty."
    {
      var n := if length < 0 then 0 else length;
      r := New(seq(n, _ => Option.None));
    }

    method Set(n: nat, obj: Occupant)
      requires n < |tiles|
      modifies this
      ensures tiles == old(tiles)[n := Some(obj)]
    {
      tiles := tiles[n := Some(obj)];
    }

    method Clear(n: nat)
      requires n < |tiles|
      modifies this
      ensures tiles == old(tiles)[n := Option.None]
    {
      tiles := tiles[n := Option.None];
    }
  }

  /** Why the grid constructor refuses a list of rows. */
  datatype GridError =
    | InsufficientHeight(height: nat)
    | InsufficientWidth(width: nat)
    | RowsOfDifferentSizes
    | EmptyRow

  /** The list reversed, as `Collections.reverse` leaves it. */
  function Reversed<T>(s: seq<T>): (r: seq<T>)
    ensures |r| == |s| && forall i :: 0 <= i < |s| ==> r[i] == s[|s| - 1 - i]
  {
    if s == [] then [] else Reversed(s[1..]) + [s[0]]
  }

  /** The positions whose tiles are replaced when `detach` runs on a tile, with what goes there. */
  datatype Leftover = Leftover(pos: Pos, color: Color)

  /** An unlinked part at `left.pos` in `left.color`, as `new CapsulePart(partner)` makes it. */
  predicate HoldsLeftover(t: Tile, left: Leftover)
    reads if t.Some? then t.value.Footprint() else {}
  {
    t.Some? && t.value.OfPart? && t.value.Pos() == left.pos && t.value.Color() == left.color
    && !t.value.IsDropping()
  }

  /** The row objects of a list of rows, for frames. */
  function RowSet(rows: seq<Row>): set<Row>
  {
    set r | r in rows
  }

  /** The tiles of column `x`, bottom to top. */
  function ColumnTiles(x: int, h: nat): (r: seq<Pos>)
    ensures |r| == h && forall y :: 0 <= y < h ==> r[y] == Coordinates.Pos(x, y)
  {
    seq(h, y => Coordinates.Pos(x, y))
  }

  /**
   * `everyTile` on a `w` by `h` board: column by column from the left, bottom to top within a
   * column, so tile (x, y) comes at index `x * h + y`.
   */
  function EveryTile(w: nat, h: nat): (r: seq<Pos>)
    ensures |r| == w * h
    ensures forall i :: 0 <= i < |r| ==> 0 <= r[i].x < w && 0 <= r[i].y < h && r[i].x * h + r[i].y == i
  {
    if w == 0 then [] else EveryTile(w - 1, h) + ColumnTiles(w - 1, h)
  }

  /** Every tile of the board is listed. */
  lemma {:induction false} EveryTileCovers(w: nat, h: nat, p: Pos)
    requires 0 <= p.x < w && 0 <= p.y < h
    ensures p in EveryTile(w, h)
    decreases w
  {
    if p.x < w - 1 {
      EveryTileCovers(w - 1, h, p);
    } else {
      assert ColumnTiles(w - 1, h)[p.y] == p;
    }
  }

  /** ... and listed once. */
  lemma EveryTileOnce(w: nat, h: nat, i: nat, j: nat)
    requires i < j < |EveryTile(w, h)|
    ensures EveryTile(w, h)[i] != EveryTile(w, h)[j]
  {
  }

  /** The coordinates objects of the objects on some rows. */
  function CoordinatesOf(rows: seq<Row>): set<Coordinates.Coordinates>
    reads RowSet(rows)
  {
    set y, x | 0 <= y < |rows| && 0 <= x < |rows[y].tiles| && rows[y].tiles[x].Some? ::
      rows[y].tiles[x].value.CoordinatesObject()
  }

  /** No two tiles hold objects sharing one coordinates object. */
  predicate Unshared(rows: seq<Row>)
    reads RowSet(rows)
  {
    forall y1, x1, y2, x2 ::
      0 <= y1 < |rows| && 0 <= x1 < |rows[y1].tiles| && 0 <= y2 < |rows| && 0 <= x2 < |rows[y2].tiles|
      && (y1, x1) != (y2, x2) && rows[y1].tiles[x1].Some? && rows[y2].tiles[x2].Some? ==>
        rows[y1].tiles[x1].value.CoordinatesObject() != rows[y2].tiles[x2].value.CoordinatesObject()
  }

  /** Every object's coordinates are those of its tile: column `x` of row `y`. */
  predicate Stamped(rows: seq<Row>)
    reads RowSet(rows), CoordinatesOf(rows)
  {
    forall y, x :: 0 <= y < |rows| && 0 <= x < |rows[y].tiles| && rows[y].tiles[x].Some? ==>
      rows[y].tiles[x].value.Pos() == Coordinates.Pos(x, y)
  }

  /** Reversing the rows keeps the same coordinates objects. */
  lemma ReversedCoordinates(rows: seq<Row>)
    ensures CoordinatesOf(Reversed(rows)) == CoordinatesOf(rows)
  {
    var rev := Reversed(rows);
    var n := |rows|;
    forall c | c in CoordinatesOf(rev) ensures c in CoordinatesOf(rows) {
      var y, x :| 0 <= y < |rev| && 0 <= x < |rev[y].tiles| && rev[y].tiles[x].Some?
        && c == rev[y].tiles[x].value.CoordinatesObject();
      assert rev[y] == rows[n - 1 - y];
    }
    forall c | c in CoordinatesOf(rows) ensures c in CoordinatesOf(rev) {
      var y, x :| 0 <= y < |rows| && 0 <= x < |rows[y].tiles| && rows[y].tiles[x].Some?
        && c == rows[y].tiles[x].value.CoordinatesObject();
      assert rev[n - 1 - y] == rows[y];
    }
  }

  /** Reversing the rows keeps the objects' coordinates apart. */
  lemma ReversedUnshared(rows: seq<Row>)
    requires Unshared(rows)
    ensures Unshared(Reversed(rows))
  {
    var rev := Reversed(rows);
    forall y1, x1, y2, x2 |
      0 <= y1 < |rev| && 0 <= x1 < |rev[y1].tiles| && 0 <= y2 < |rev| && 0 <= x2 < |rev[y2].tiles|
      && (y1, x1) != (y2, x2) && rev[y1].tiles[x1].Some? && rev[y2].tiles[x2].Some?
      ensures rev[y1].tiles[x1].value.CoordinatesObject() != rev[y2].tiles[x2].value.CoordinatesObject()
    {
      ReversedPair(rows, y1, x1, y2, x2);
    }
  }

  /** One pair of tiles of the reversed rows: they are a pair of distinct tiles of `rows`. */
  lemma ReversedPair(rows: seq<Row>, y1: int, x1: int, y2: int, x2: int)
    requires Unshared(rows)
    requires 0 <= y1 < |rows| && 0 <= y2 < |rows|
    requires 0 <= x1 < |Reversed(rows)[y1].tiles| && 0 <= x2 < |Reversed(rows)[y2].tiles|
    requires (y1, x1) != (y2, x2) && Reversed(rows)[y1].tiles[x1].Some? && Reversed(rows)[y2].tiles[x2].Some?
    ensures Reversed(rows)[y1].tiles[x1].value.CoordinatesObject() != Reversed(rows)[y2].tiles[x2].value.CoordinatesObject()
  {
    var n := |rows|;
    var a, b := n - 1 - y1, n - 1 - y2;
    assert Reversed(rows)[y1] == rows[a];
    assert Reversed(rows)[y2] == rows[b];
    assert a != b || x1 != x2;
    UnsharedPair(rows, a, x1, b, x2);
  }

  /** Two distinct occupied tiles of unshared rows hold different coordinates objects. */
  lemma UnsharedPair(rows: seq<Row>, y1: int, x1: int, y2: int, x2: int)
    requires Unshared(rows)
    requires 0 <= y1 < |rows| && 0 <= x1 < |rows[y1].tiles| && 0 <= y2 < |rows| && 0 <= x2 < |rows[y2].tiles|
    requires (y1, x1) != (y2, x2) && rows[y1].tiles[x1].Some? && rows[y2].tiles[x2].Some?
    ensures rows[y1].tiles[x1].value.CoordinatesObject() != rows[y2].tiles[x2].value.CoordinatesObject()
  {
  }

  /**
   * The loop of `forEachTile` with `setCoordinates`: the object on the `j`-th tile, if any, is
   * moved to the `j`-th position; no two tiles share a coordinates object.
   */
  method StampEach(ps: seq<Pos>, tiles: seq<Tile>)
    requires |ps| == |tiles|
    requires forall j, k :: 0 <= j < k < |tiles| && tiles[j].Some? && tiles[k].Some? ==>
      tiles[j].value.CoordinatesObject() != tiles[k].value.CoordinatesObject()
    modifies set j | 0 <= j < |tiles| && tiles[j].Some? :: tiles[j].value.CoordinatesObject()
    ensures forall j :: 0 <= j < |tiles| && tiles[j].Some? ==> tiles[j].value.Pos() == ps[j]
  {
    for i := 0 to |ps|
      invariant forall j :: 0 <= j < i && tiles[j].Some? ==> tiles[j].value.Pos() == ps[j]
    {
      var t := tiles[i];
      if t.Some? {
        t.value.CoordinatesObject().Set(ps[i].x, ps[i].y);
      }
    }
  }

  class Grid {
    const rows: seq<Row>

    /** The row objects, for frames. */
    function Rows(): set<Row>
    {
      RowSet(rows)
    }

    /** At least two rows, at least two columns, all rows of one width, no row object twice. */
    predicate Valid()
      reads Rows()
    {
      |rows| >= 2 && |rows[0].tiles| >= 2
      && (forall i, j :: 0 <= i < j < |rows| ==> rows[i] != rows[j])
      && (forall i :: 0 <= i < |rows| ==> |rows[i].tiles| == |rows[0].tiles|)
    }

    constructor (rows: seq<Row>)
      ensures this.rows == rows
    {
      this.rows := rows;
    }

    /**
     * `Grid(List<Row>)`: refuses fewer than two rows, a first row narrower than two tiles and
     * rows of different widths, in that order; otherwise keeps the rows bottom row first and
     * stamps every object with its tile's coordinates.
     */
    static method New(rows: seq<Row>) returns (r: Result<Grid, GridError>)
      requires forall i, j :: 0 <= i < j < |rows| ==> rows[i] != rows[j]
      requires Unshared(rows)
      modifies CoordinatesOf(rows)
      ensures r.Success? <==>
        |rows| >= 2 && |rows[0].tiles| >= 2 && forall i :: 0 <= i < |rows| ==> |rows[i].tiles| == |rows[0].tiles|
      ensures |rows| < 2 ==> r == Failure(InsufficientHeight(|rows|))
      ensures |rows| >= 2 && |rows[0].tiles| < 2 ==> r == Failure(InsufficientWidth(|rows[0].tiles|))
      ensures |rows| >= 2 && |rows[0].tiles| >= 2 && r.Failure? ==> r == Failure(RowsOfDifferentSizes)
      ensures r.Success? ==> fresh(r.value) && r.value.rows == Reversed(rows) && r.value.Valid()
      ensures r.Success? ==> Stamped(r.value.rows)
      ensures forall i :: 0 <= i < |rows| ==> rows[i].tiles == old(rows[i].tiles)
    {
      if |rows| < 2 {
        return Failure(InsufficientHeight(|rows|));
      }
      if |rows[0].tiles| < 2 {
        return Failure(InsufficientWidth(|rows[0].tiles|));
      }
      if exists i :: 0 <= i < |rows| && |rows[i].tiles| != |rows[0].tiles| {
        return Failure(RowsOfDifferentSizes);
      }
      var g := new Grid(Reversed(rows));
      ReversedUnshared(rows);
      ReversedCoordinates(rows);
      g.StampCoordinates();
      return Success(g);
    }

    /** `Grid(columns, rows)`: `rows` rows of `columns` empty tiles, validated as above. */
    static method OfSize(columns: int, height: int) returns (r: Result<Grid, GridError>)
      ensures height > 0 && columns <= 0 ==> r == Failure(EmptyRow)
      ensures height < 2 && !(height > 0 && columns <= 0) ==> r == Failure(InsufficientHeight(if height < 0 then 0 else height))
      ensures height >= 2 && 0 < columns < 2 ==> r == Failure(InsufficientWidth(columns))
      ensures r.Success? <==> height >= 2 && columns >= 2
      ensures r.Success? ==> fresh(r.value) && r.value.Valid() && fresh(r.value.Rows())
      ensures r.Success? ==> r.value.Width() == columns && r.value.Height() == height
      ensures r.Success? ==> forall p :: r.value.Get(p).None?
    {
      var rs: seq<Row> := [];
      var i := 0;
      while i < height
        invariant 0 <= i && (height >= 0 ==> i <= height) && (height < 0 ==> i == 0)
        invariant |rs| == i && (i > 0 ==> columns > 0)
        invariant forall k :: 0 <= k < |rs| ==> fresh(rs[k])
        invariant forall k, l :: 0 <= k < l < |rs| ==> rs[k] != rs[l]
        invariant forall k :: 0 <= k < |rs| ==> |rs[k].tiles| == columns
        invariant forall k, x :: 0 <= k < |rs| && 0 <= x < |rs[k].tiles| ==> rs[k].tiles[x].None?
      {
        var row := Row.OfLength(columns);
        if row.Failure? {
          return Failure(EmptyRow);
        }
        rs := rs + [row.value];
        i := i + 1;
      }
      assert CoordinatesOf(rs) == {};
      r := New(rs);
      if r.Success? {
        var g := r.value;
        forall p | g.InBounds(p) ensures g.Get(p).None? {
          assert g.rows[p.y] == rs[|rs| - 1 - p.y];
        }
      }
    }

    /**
     * The constructor's `forEachTile` pass: visits `everyTile` in order and sets each object's
     * coordinates to its tile.
     */
    method StampCoordinates()
      requires Valid() && Unshared(rows)
      modifies CoordinatesOf(rows)
      ensures Valid() && Stamped(rows)
    {
      var tiles := EveryTile(Width(), Height());
      var objs := TilesAt(tiles);
      EveryTileApart();
      TilesAtOnBoard(tiles);
      StampEach(tiles, objs);
      assert objs == TilesAt(tiles);
      StampedByEveryTile();
    }

    /** The objects on the tiles at some positions all belong to the board. */
    lemma TilesAtOnBoard(ps: seq<Pos>)
      requires Valid()
      ensures forall j :: 0 <= j < |ps| && TilesAt(ps)[j].Some? ==> TilesAt(ps)[j].value.CoordinatesObject() in CoordinatesOf(rows)
    {
      forall j | 0 <= j < |ps| && TilesAt(ps)[j].Some?
        ensures TilesAt(ps)[j].value.CoordinatesObject() in CoordinatesOf(rows)
      {
        var p := ps[j];
        assert TilesAt(ps)[j] == rows[p.y].tiles[p.x];
      }
    }

    /** The tiles at some positions, in order. */
    function TilesAt(ps: seq<Pos>): seq<Tile>
      requires Valid()
      reads Rows()
    {
      seq(|ps|, j requires 0 <= j < |ps| && Valid() reads Rows() => Get(ps[j]))
    }

    /** Once every tile of `everyTile` holds its own position, the whole board is stamped. */
    lemma StampedByEveryTile()
      requires Valid()
      requires forall j :: 0 <= j < |EveryTile(Width(), Height())| && TilesAt(EveryTile(Width(), Height()))[j].Some? ==>
        TilesAt(EveryTile(Width(), Height()))[j].value.Pos() == EveryTile(Width(), Height())[j]
      ensures Stamped(rows)
    {
      var tiles := EveryTile(Width(), Height());
      var objs := TilesAt(tiles);
      forall y, x | 0 <= y < |rows| && 0 <= x < |rows[y].tiles| && rows[y].tiles[x].Some?
        ensures rows[y].tiles[x].value.Pos() == Coordinates.Pos(x, y)
      {
        EveryTileCovers(Width(), Height(), Coordinates.Pos(x, y));
        var j :| 0 <= j < |tiles| && tiles[j] == Coordinates.Pos(x, y);
        assert objs[j] == rows[y].tiles[x];
      }
    }

    /** The objects on distinct tiles of `everyTile` share no coordinates. */
    lemma EveryTileApart()
      requires Valid() && Unshared(rows)
      ensures var objs := TilesAt(EveryTile(Width(), Height()));
        forall j, k :: 0 <= j < k < |objs| && objs[j].Some? && objs[k].Some? ==>
          objs[j].value.CoordinatesObject() != objs[k].value.CoordinatesObject()
    {
      var tiles := EveryTile(Width(), Height());
      var objs := TilesAt(tiles);
      forall j, k | 0 <= j < k < |objs| && objs[j].Some? && objs[k].Some?
        ensures objs[j].value.CoordinatesObject() != objs[k].value.CoordinatesObject()
      {
        EveryTileOnce(Width(), Height(), j, k);
        var q, p := tiles[j], tiles[k];
        assert objs[j] == rows[q.y].tiles[q.x] && objs[k] == rows[p.y].tiles[p.x];
        UnsharedPair(rows, q.y, q.x, p.y, p.x);
      }
    }

    function Width(): nat
      requires Valid()
      reads Rows()
    {
      |rows[0].tiles|
    }

    function Height(): nat
    {
      |rows|
    }

    predicate InBounds(p: Pos)
      requires Valid()
      reads Rows()
    {
      0 <= p.x < Width() && 0 <= p.y < Height()
    }

    /** `get`: the tile's content, and nothing outside the board. */
    function Get(p: Pos): Tile
      requires Valid()
      reads Rows()
    {
      if InBounds(p) then rows[p.y].tiles[p.x] else Option.None
    }

    /** `CapsulePart.canStandIn`: in bounds and not overlapping the stack. */
    predicate CanStandIn(p: Pos)
      requires Valid()
      reads Rows()
    {
      InBounds(p) && Get(p).None?
    }

    /** `canBePut`: the object's own tile is in bounds and empty. */
    predicate CanBePut(o: Occupant)
      requires Valid()
      reads Rows(), o.CoordinatesObject()
    {
      CanStandIn(o.Pos())
    }

    /** The half on a tile, whose partner `detach` would read. */
    function HalfAt(p: Pos): set<object>
      requires Valid()
      reads Rows()
    {
      var t := Get(p);
      if t.Some? && t.value.OfLinked? then {t.value.half} else {}
    }

    function LeftoverFootprint(p: Pos): set<object>
      requires Valid()
      reads Rows(), HalfAt(p)
    {
      var t := Get(p);
      if t.Some? && t.value.OfLinked? && t.value.half.linked != null
      then {t.value.half.linked.part.obj, t.value.half.linked.part.obj.coordinates}
      else {}
    }

    /**
     * What `detach` leaves on the board for tile `p`: when it holds a linked half with a
     * partner, an unlinked part at the partner's place in the partner's colour.
     */
    function LeftoverAt(p: Pos): Option<Leftover>
      requires Valid()
      reads Rows(), HalfAt(p), LeftoverFootprint(p)
    {
      var t := Get(p);
      if t.Some? && t.value.OfLinked? && t.value.half.linked != null
      then Some(Leftover(t.value.half.linked.Pos(), t.value.half.linked.part.obj.color))
      else Option.None
    }

    /** `detach` may only put the leftover part on the board. */
    predicate DetachableAt(p: Pos)
      requires Valid()
      reads Rows(), HalfAt(p), LeftoverFootprint(p)
    {
      LeftoverAt(p).Some? ==> InBounds(LeftoverAt(p).value.pos)
    }

    method SetTile(p: Pos, obj: Occupant)
      requires Valid() && InBounds(p)
      modifies rows[p.y]
      ensures Valid()
      ensures Get(p) == Some(obj) && Width() == old(Width())
      ensures forall q :: q != p ==> Get(q) == old(Get(q))
    {
      rows[p.y].Set(p.x, obj);
    }

    method ClearTile(p: Pos)
      requires Valid() && InBounds(p)
      modifies rows[p.y]
      ensures Valid()
      ensures Get(p).None? && Width() == old(Width())
      ensures forall q :: q != p ==> Get(q) == old(Get(q))
    {
      rows[p.y].Clear(p.x);
    }

    /** `put`: the object goes to its own tile, which then cannot take another; no other tile changes. */
    method Put(obj: Occupant)
      requires Valid() && InBounds(obj.Pos())
      modifies rows[obj.Pos().y]
      ensures Valid()
      ensures Get(obj.Pos()) == Some(obj) && !CanBePut(obj) && Width() == old(Width())
      ensures forall q :: q != obj.Pos() ==> Get(q) == old(Get(q))
    {
      SetTile(obj.Pos(), obj);
    }

    /**
     * `detach`: when the tile holds a linked half, an unlinked copy of its partner replaces
     * whatever is on the partner's tile; every other tile is unchanged.
     */
    method Detach(p: Pos)
      requires Valid() && DetachableAt(p)
      modifies Rows()
      ensures Valid() && Width() == old(Width())
      ensures old(LeftoverAt(p)).None? ==> forall q :: Get(q) == old(Get(q))
      ensures old(LeftoverAt(p)).Some? ==>
        var left := old(LeftoverAt(p)).value;
        var t := Get(left.pos);
        HoldsLeftover(t, left) && fresh(t.value.part) && fresh(t.value.part.obj)
        && fresh(t.value.part.obj.coordinates)
      ensures old(LeftoverAt(p)).Some? ==>
        forall q :: q != old(LeftoverAt(p)).value.pos ==> Get(q) == old(Get(q))
    {
      var t := Get(p);
      if t.Some? && t.value.OfLinked? && t.value.half.linked != null {
        var part := Unlinked(t.value.half.linked);
        Put(OfPart(part));
      }
    }

    /** `clear`: detach, then empty the tile; only the tile and the partner's tile change. */
    method Clear(p: Pos)
      requires Valid() && InBounds(p) && DetachableAt(p)
      modifies Rows()
      ensures Valid() && Width() == old(Width())
      ensures Get(p).None? && CanStandIn(p)
      ensures old(LeftoverAt(p)).Some? && old(LeftoverAt(p)).value.pos != p ==>
        var left := old(LeftoverAt(p)).value;
        var t := Get(left.pos);
        HoldsLeftover(t, left) && fresh(t.value.part) && fresh(t.value.part.obj)
        && fresh(t.value.part.obj.coordinates)
      ensures forall q :: q != p && (old(LeftoverAt(p)).None? || q != old(LeftoverAt(p)).value.pos) ==>
        Get(q) == old(Get(q))
    {
      Detach(p);
      ClearTile(p);
    }

    /**
     * `replace(old, newObj)`: detach at the old object's place, move the new object there and
     * put it on that tile.
     */
    method Replace(prev: Occupant, next: Occupant)
      requires Valid() && InBounds(prev.Pos()) && DetachableAt(prev.Pos())
      modifies Rows(), next.CoordinatesObject()
      ensures Valid() && Width() == old(Width())
      ensures next.Pos() == old(prev.Pos()) && Get(next.Pos()) == Some(next)
      ensures old(LeftoverAt(prev.Pos())).Some? && old(LeftoverAt(prev.Pos())).value.pos != old(prev.Pos()) ==>
        var left := old(LeftoverAt(prev.Pos())).value;
        var t := Get(left.pos);
        HoldsLeftover(t, left) && fresh(t.value.part) && fresh(t.value.part.obj)
        && fresh(t.value.part.obj.coordinates)
      ensures forall q :: q != old(prev.Pos()) && (old(LeftoverAt(prev.Pos())).None? || q != old(LeftoverAt(prev.Pos())).value.pos) ==>
        Get(q) == old(Get(q))
    {
      var target := prev.Pos();
      Detach(target);
      next.CoordinatesObject().Set(target.x, target.y);
      SetTile(target, next);
    }

    /** The state `takeHit` writes in the object on a tile. */
    function HitFootprintAt(p: Pos): set<object>
      requires Valid()
      reads Rows()
    {
      var t := Get(p);
      if t.Some? then t.value.HitFootprint() else {}
    }

    /**
     * One round of `hit`'s loop: the object takes a hit and, once destroyed, its tile is cleared.
     * After the first clear the tile is empty and later rounds change no tile.
     */
    method HitOnce(p: Pos, o: Occupant, ghost left: Option<Leftover>)
      requires Valid() && InBounds(p)
      requires Get(p) == Some(o) || (Get(p).None? && o.IsDestroyed())
      requires Get(p) == Some(o) ==> LeftoverAt(p) == left && DetachableAt(p)
      modifies Rows(), o.HitFootprint()
      ensures Valid() && Width() == old(Width())
      ensures o.HitState() == Gauges.StepDown(old(o.HitState()))
      ensures old(o.IsDestroyed()) ==> o.IsDestroyed()
      ensures o.Color() == old(o.Color())
      ensures old(Get(p)).None? || !o.IsDestroyed() ==> forall q :: Get(q) == old(Get(q))
      ensures o.IsDestroyed() ==> Get(p).None?
      ensures old(Get(p)).Some? && o.IsDestroyed() && left.Some? && left.value.pos != p ==>
        var t := Get(left.value.pos);
        HoldsLeftover(t, left.value) && fresh(t.value.part) && fresh(t.value.part.obj)
        && fresh(t.value.part.obj.coordinates)
      ensures forall q :: q != p && (left.None? || q != left.value.pos) ==> Get(q) == old(Get(q))
    {
      TakeHit(o);
      if o.IsDestroyed() {
        Clear(p);
      }
    }

    /**
     * `hit(coordinates, damage)`: the object on the tile takes `damage` hits and is returned; the
     * tile is cleared (detaching a partner) once the object is destroyed. An empty tile changes nothing.
     */
    method Hit(p: Pos, damage: int) returns (r: Tile)
      requires Valid() && DetachableAt(p)
      modifies Rows(), HitFootprintAt(p)
      ensures Valid() && Width() == old(Width())
      ensures r == old(Get(p))
      ensures r.None? ==> forall q :: Get(q) == old(Get(q))
      ensures r.Some? ==> r.value.HitState() == Gauges.Drained(old(r.value.HitState()), if damage < 0 then 0 else damage)
      ensures r.Some? && (damage <= 0 || !r.value.IsDestroyed()) ==> forall q :: Get(q) == old(Get(q))
      ensures r.Some? && damage > 0 && r.value.IsDestroyed() ==> Get(p).None?
      ensures r.Some? && damage > 0 && r.value.IsDestroyed() && old(LeftoverAt(p)).Some? && old(LeftoverAt(p)).value.pos != p ==>
        var left := old(LeftoverAt(p)).value;
        var t := Get(left.pos);
        HoldsLeftover(t, left) && fresh(t.value.part) && fresh(t.value.part.obj)
        && fresh(t.value.part.obj.coordinates)
      ensures forall q :: q != p && (old(LeftoverAt(p)).None? || q != old(LeftoverAt(p)).value.pos) ==>
        Get(q) == old(Get(q))
    {
      r := Get(p);
      if r.None? {
        return;
      }
      var o := r.value;
      ghost var start := o.HitState();
      ghost var left := LeftoverAt(p);
      var n := 0;
      while n < damage
        invariant Valid() && Width() == old(Width()) && InBounds(p)
        invariant 0 <= n && (damage < 0 ==> n == 0) && (damage >= 0 ==> n <= damage)
        invariant o.HitState() == Gauges.Drained(start, n)
        invariant Get(p) == Some(o) ==> LeftoverAt(p) == left && DetachableAt(p)
        invariant n == 0 || !o.IsDestroyed() ==> forall q :: Get(q) == old(Get(q))
        invariant n > 0 && o.IsDestroyed() ==> Get(p).None?
        invariant n > 0 && o.IsDestroyed() && left.Some? && left.value.pos != p ==>
          var t := Get(left.value.pos);
          HoldsLeftover(t, left.value) && fresh(t.value.part) && fresh(t.value.part.obj)
          && fresh(t.value.part.obj.coordinates)
        invariant forall q :: q != p && (left.None? || q != left.value.pos) ==> Get(q) == old(Get(q))
      {
        HitOnce(p, o, left);
        Gauges.DrainedOneMore(start, n);
        n := n + 1;
      }
    }

    /** `stack()`: the objects on the board. */
    function Stack(): set<Occupant>
      requires Valid()
      reads Rows()
    {
      set y, x | 0 <= y < |rows| && 0 <= x < |rows[y].tiles| && rows[y].tiles[x].Some? :: rows[y].tiles[x].value
    }

    /** Everything the objects on the board hold. */
    function Objects(): set<object>
      requires Valid()
      reads Rows()
    {
      set o, obj | o in Stack() && obj in o.Footprint() :: obj
    }

    /** Every occupied tile's object is in the stack, and its state among the board's objects. */
    lemma StackHoldsTiles()
      requires Valid()
      ensures forall p :: Get(p).Some? ==> Get(p).value in Stack()
      ensures forall o :: o in Stack() ==> o.Footprint() <= Objects()
    {
      forall p | Get(p).Some? ensures Get(p).value in Stack() {
        assert rows[p.y].tiles[p.x] == Get(p);
      }
    }

    /** The state of an object on the board is among the board's objects. */
    lemma FootprintOnBoard(o: Occupant)
      requires Valid() && o in Stack()
      ensures o.Footprint() <= Objects()
    {
    }

    /** `repaint(obj, color)`: the object on `obj`'s tile, if any, takes the colour. */
    method Repaint(obj: Occupant, color: Color)
      requires Valid()
      modifies if Get(obj.Pos()).Some? then {Get(obj.Pos()).value.Base()} else {}
      ensures Get(obj.Pos()).Some? ==> Get(obj.Pos()).value.Color() == color
    {
      var t := Get(obj.Pos());
      if t.Some? {
        t.value.Base().Repaint(color);
      }
    }
  }
}
