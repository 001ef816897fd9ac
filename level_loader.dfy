/**
 * The level loader of core/src/com/mygdx/kaps/level/LevelLoader.java: a queue of level numbers
 * checked on the way in (-1 asks for a bonus grid of random germs, 0 to 20 for a level file),
 * the party of at most two sidekicks, the random germ placement of a bonus grid and the parsing
 * of a level file's lines into board rows. Random draws, the file's lines and the colour drawn
 * for each germ are parameters; the `Level` built from the board is not part of this model.
 */
module LevelLoaders {
  import opened Wrappers
  import Text
  import Coordinates
  import GridObjects
  import Occupants
  import Grids
  import SidekickIds

  type Pos = Coordinates.Pos

  const MaxSidekicks := 2
  const RandomGrid := -1
  const MaxLevels := 20

  // ---------------------------------------------------------------- level numbers

  /** The numbers `addLevel` takes. */
  predicate ValidLevel(lvl: int)
  {
    RandomGrid <= lvl <= MaxLevels
  }

  /** The reason `addLevel`'s message gives, as written: `lvl < MAX_LEVELS ? "max level is 20" : "negative value"`. */
  function ReasonAsWritten(lvl: int): string
  {
    if lvl < MaxLevels then "max level is 20" else "negative value"
  }

  /** The reason that names the bound the number breaks. */
  function Reason(lvl: int): string
  {
    if lvl > MaxLevels then "max level is 20" else "negative value"
  }

  function LevelMessage(lvl: int, reason: string): string
  {
    "Invalid level number: " + Text.IntToString(lvl) + " (" + reason + ")"
  }

  /** The message `addLevel` throws, as written. */
  function InvalidLevelMessageAsWritten(lvl: int): string
  {
    LevelMessage(lvl, ReasonAsWritten(lvl))
  }

  /** The message with the reason the refused number evidently calls for. */
  function InvalidLevelMessage(lvl: int): string
  {
    LevelMessage(lvl, Reason(lvl))
  }

  /**
   * As written, every refused number gets the other bound's reason: -2 is told the maximum is
   * 20 and 21 is told it is negative.
   */
  lemma MessageAsWrittenInverted(lvl: int)
    requires !ValidLevel(lvl)
    ensures InvalidLevelMessageAsWritten(lvl) != InvalidLevelMessage(lvl)
    ensures ReasonAsWritten(-2) == "max level is 20" && ReasonAsWritten(21) == "negative value"
  {
    assert |ReasonAsWritten(lvl)| != |Reason(lvl)|;
    assert |InvalidLevelMessageAsWritten(lvl)| != |InvalidLevelMessage(lvl)|;
  }

  /** The corrected message names the bound each refused number breaks. */
  lemma MessageNamesBrokenBound(lvl: int)
    requires !ValidLevel(lvl)
    ensures lvl > MaxLevels <==> Reason(lvl) == "max level is 20"
    ensures lvl < RandomGrid <==> Reason(lvl) == "negative value"
  {
  }

  /** What `takeNextLevel` builds for a number: a bonus grid for -1, the level file otherwise. */
  datatype LevelRequest = BonusGrid | FromFile(number: int)

  function RequestOf(lvl: int): (r: LevelRequest)
    ensures r.BonusGrid? <==> lvl == RandomGrid
    ensures r.FromFile? ==> r.number == lvl
  {
    if lvl == RandomGrid then BonusGrid else FromFile(lvl)
  }

  /** The level file `loadLevelFromNumber` reads, and the title of its level. */
  function LevelPath(lvl: int): string
  {
    "android/assets/levels/level" + Text.IntToString(lvl)
  }

  function LevelTitle(lvl: int): string
  {
    "1 - " + Text.IntToString(lvl)
  }

  // ---------------------------------------------------------------- the loader

  class LevelLoader {
    var levelSeq: seq<int>
    var sidekicks: set<SidekickIds.Id>

    constructor ()
      ensures levelSeq == [] && sidekicks == {} && Valid()
    {
      levelSeq, sidekicks := [], {};
    }

    /** At most two sidekicks, and only accepted numbers in the queue. */
    predicate Valid()
      reads this
    {
      |sidekicks| <= MaxSidekicks && forall i :: 0 <= i < |levelSeq| ==> ValidLevel(levelSeq[i])
    }

    /**
     * `addLevel`: an accepted number goes to the back of the queue; any other is refused with the
     * message as written, which names the other bound than the one the number breaks.
     */
    method AddLevel(lvl: int) returns (err: Option<string>)
      modifies this
      ensures err.None? <==> ValidLevel(lvl)
      ensures err.None? ==> levelSeq == old(levelSeq) + [lvl]
      ensures err.Some? ==> levelSeq == old(levelSeq) && err.value == InvalidLevelMessageAsWritten(lvl)
      ensures err.Some? ==> err.value != InvalidLevelMessage(lvl)
      ensures sidekicks == old(sidekicks)
      ensures old(Valid()) ==> Valid()
    {
      if lvl < RandomGrid || MaxLevels < lvl {
        MessageAsWrittenInverted(lvl);
        return Some(InvalidLevelMessageAsWritten(lvl));
      }
      levelSeq := levelSeq + [lvl];
      return Option.None;
    }

    /** `addRandomGrid`: queues a bonus grid. */
    method AddRandomGrid()
      modifies this
      ensures levelSeq == old(levelSeq) + [RandomGrid] && sidekicks == old(sidekicks)
      ensures old(Valid()) ==> Valid()
    {
      var _ := AddLevel(RandomGrid);
    }

    /** `addRandomLevel` with the number drawn in 0..20. */
    method AddRandomLevel(draw: int)
      requires 0 <= draw <= MaxLevels
      modifies this
      ensures levelSeq == old(levelSeq) + [draw] && sidekicks == old(sidekicks)
      ensures old(Valid()) ==> Valid()
    {
      var _ := AddLevel(draw);
    }

    /** `takeNextLevel`: nothing on an empty queue, otherwise the head, removed. */
    method TakeNextLevel() returns (r: Option<LevelRequest>)
      modifies this
      ensures old(levelSeq) == [] ==> r.None? && levelSeq == []
      ensures old(levelSeq) != [] ==> r == Some(RequestOf(old(levelSeq)[0])) && old(levelSeq) == [old(levelSeq)[0]] + levelSeq
      ensures sidekicks == old(sidekicks)
      ensures old(Valid()) ==> Valid()
    {
      if levelSeq == [] {
        return Option.None;
      }
      var lvl := levelSeq[0];
      levelSeq := levelSeq[1..];
      return Some(RequestOf(lvl));
    }

    /**
     * `addSidekick`: while fewer than two are held, the named sidekick joins (a set, so once);
     * an unknown name raises `ofName`'s exception then, and is not even looked up once the party
     * is full.
     */
    method AddSidekick(name: string) returns (err: Option<string>)
      modifies this
      ensures |old(sidekicks)| >= MaxSidekicks ==> err.None? && sidekicks == old(sidekicks)
      ensures |old(sidekicks)| < MaxSidekicks && SidekickIds.OfName(name).Failure? ==>
        err == Some(SidekickIds.OfName(name).error) && sidekicks == old(sidekicks)
      ensures |old(sidekicks)| < MaxSidekicks && SidekickIds.OfName(name).Success? ==>
        err.None? && sidekicks == old(sidekicks) + {SidekickIds.OfName(name).value}
      ensures levelSeq == old(levelSeq)
      ensures old(Valid()) ==> Valid()
    {
      if |sidekicks| < MaxSidekicks {
        var id := SidekickIds.OfName(name);
        if id.Failure? {
          return Some(id.error);
        }
        sidekicks := sidekicks + {id.value};
      }
      return Option.None;
    }

    /**
     * `fillParty` with the random ids drawn one after the other: draws join until two sidekicks
     * are held. The draws must hold enough distinct ids to get there, as an endless random
     * stream eventually does.
     */
    method FillParty(draws: seq<SidekickIds.Id>) returns (used: nat)
      requires Valid() && |sidekicks + set i | 0 <= i < |draws| :: draws[i]| >= MaxSidekicks
      modifies this
      ensures Valid() && |sidekicks| == MaxSidekicks
      ensures used <= |draws| && sidekicks == old(sidekicks) + set i | 0 <= i < used :: draws[i]
      ensures levelSeq == old(levelSeq)
    {
      used := 0;
      while |sidekicks| < MaxSidekicks
        invariant used <= |draws| && |sidekicks| <= MaxSidekicks
        invariant sidekicks == old(sidekicks) + set i | 0 <= i < used :: draws[i]
        invariant levelSeq == old(levelSeq)
        decreases |draws| - used
      {
        if used == |draws| {
          assert false;
        }
        sidekicks := sidekicks + {draws[used]};
        used := used + 1;
      }
    }
  }

  // ---------------------------------------------------------------- bonus grids

  function Min(a: int, b: int): int
  {
    if a < b then a else b
  }

  /** The germs fit in the three bottom rows. */
  predicate GermsFit(width: int, height: int, germNumber: int)
  {
    germNumber <= width * Min(height, 3)
  }

  function TooManyGerms(width: int, height: int, germNumber: int): string
  {
    "Too many germs for a " + Text.IntToString(width) + "x" + Text.IntToString(height) + " grid: "
      + Text.IntToString(germNumber)
  }

  /** The sizes `takeNextLevel` draws for a bonus grid (6..8 wide, 10..12 high, 10..12 germs) always fit. */
  lemma DrawnBonusGridsFit(width: int, height: int, germNumber: int)
    requires 6 <= width <= 8 && 10 <= height <= 12 && 10 <= germNumber <= 12
    ensures GermsFit(width, height, germNumber)
  {
  }

  /** One `Germ.random` draw: the column, the row among the three bottom ones, the supplier (by symbol) and the colour. */
  datatype GermDraw = GermDraw(x: int, y: int, symbol: char, color: GridObjects.Color)

  /** One pass of the placement loop: a random germ at the drawn tile, put there if the tile is free. */
  method PlaceOne(grid: Grids.Grid, d: GermDraw) returns (at: Option<Pos>)
    requires grid.Valid() && d.symbol in "BWXYTV"
    modifies grid.Rows()
    ensures grid.Valid() && grid.Width() == old(grid.Width())
    ensures at.Some? <==> old(grid.CanStandIn(Coordinates.Pos(d.x, d.y)))
    ensures at.Some? ==> at.value == Coordinates.Pos(d.x, d.y)
    ensures at.Some? ==> grid.Get(at.value).Some? && grid.Get(at.value).value.IsGerm()
    ensures forall q :: (at.None? || q != at.value) ==> grid.Get(q) == old(grid.Get(q))
  {
    var made := Occupants.GermOfSymbol(d.symbol, d.color);
    var germ := made.value;
    germ.CoordinatesObject().Set(d.x, d.y);
    if grid.CanBePut(germ) {
      grid.Put(germ);
      return Some(germ.Pos());
    }
    return Option.None;
  }

  /**
   * The do-while of `generateRandomGrid`, over the draws it makes: every pass draws a germ and
   * puts it if its tile is free, counting it down; the loop goes on while germs are left. So
   * it puts `germNumber` germs when that is positive, and when it is not, still tries once.
   * Germs only land on free tiles of the three bottom rows. `used` is the number of draws made.
   */
  method PlaceGerms(grid: Grids.Grid, germNumber: int, draws: seq<GermDraw>) returns (placed: seq<Pos>, used: nat)
    requires grid.Valid() && |draws| > 0
    requires forall i :: 0 <= i < |draws| ==>
      0 <= draws[i].x < grid.Width() && 0 <= draws[i].y < 3 && draws[i].symbol in "BWXYTV"
    modifies grid.Rows()
    ensures grid.Valid() && grid.Width() == old(grid.Width())
    ensures 1 <= used <= |draws|
    ensures forall i, j :: 0 <= i < j < |placed| ==> placed[i] != placed[j]
    ensures forall i :: 0 <= i < |placed| ==> placed[i].y < 3 && old(grid.CanStandIn(placed[i]))
    ensures forall i :: 0 <= i < |placed| ==> grid.Get(placed[i]).Some? && grid.Get(placed[i]).value.IsGerm()
    ensures forall q :: q !in placed ==> grid.Get(q) == old(grid.Get(q))
    ensures germNumber >= 1 ==> |placed| <= germNumber
    ensures used < |draws| ==> |placed| >= germNumber
    ensures germNumber <= 0 ==> used == 1 && |placed| <= 1
    ensures germNumber <= 0 ==> (|placed| == 1 <==> old(grid.CanStandIn(Coordinates.Pos(draws[0].x, draws[0].y))))
  {
    var n := germNumber;
    placed, used := [], 0;
    while used < |draws| && (used == 0 || n > 0)
      invariant used <= |draws| && grid.Valid() && grid.Width() == old(grid.Width())
      invariant n == germNumber - |placed| && (germNumber >= 1 ==> n >= 0)
      invariant used == 0 ==> placed == []
      invariant forall i, j :: 0 <= i < j < |placed| ==> placed[i] != placed[j]
      invariant forall i :: 0 <= i < |placed| ==> placed[i].y < 3 && old(grid.CanStandIn(placed[i]))
      invariant forall i :: 0 <= i < |placed| ==> grid.Get(placed[i]).Some? && grid.Get(placed[i]).value.IsGerm()
      invariant forall q :: q !in placed ==> grid.Get(q) == old(grid.Get(q))
      invariant germNumber <= 0 && used >= 1 ==> used == 1 && |placed| <= 1
      invariant germNumber <= 0 && used >= 1 ==>
        (|placed| == 1 <==> old(grid.CanStandIn(Coordinates.Pos(draws[0].x, draws[0].y))))
      decreases |draws| - used
    {
      var d := draws[used];
      var at := PlaceOne(grid, d);
      if at.Some? {
        assert at.value !in placed;
        placed := placed + [at.value];
        n := n - 1;
      }
      used := used + 1;
    }
  }

  /**
   * `generateRandomGrid` up to the level it builds: too many germs for the three bottom rows is
   * refused with a message; otherwise a `width` by `height` board whose only objects are the
   * placed germs (a size the board refuses is refused with the board's error).
   */
  method GenerateRandomGrid(width: int, height: int, germNumber: int, draws: seq<GermDraw>)
    returns (r: Result<Grids.Grid, LoadError>, placed: seq<Pos>, used: nat)
    requires |draws| > 0
    requires forall i :: 0 <= i < |draws| ==>
      0 <= draws[i].x < width && 0 <= draws[i].y < 3 && draws[i].symbol in "BWXYTV"
    ensures !GermsFit(width, height, germNumber) ==> r == Failure(Refused(TooManyGerms(width, height, germNumber)))
    ensures GermsFit(width, height, germNumber) ==> (r.Success? <==> width >= 2 && height >= 2)
    ensures r.Success? ==> fresh(r.value) && r.value.Valid()
    ensures r.Success? ==> r.value.Width() == width && r.value.Height() == height
    ensures r.Success? ==> forall i, j :: 0 <= i < j < |placed| ==> placed[i] != placed[j]
    ensures r.Success? ==> forall i :: 0 <= i < |placed| ==>
      r.value.InBounds(placed[i]) && placed[i].y < 3 && r.value.Get(placed[i]).Some? && r.value.Get(placed[i]).value.IsGerm()
    ensures r.Success? ==> forall q :: q !in placed ==> r.value.Get(q).None?
    ensures r.Success? && germNumber >= 1 ==> |placed| <= germNumber
    ensures r.Success? && used < |draws| ==> |placed| >= germNumber
  {
    placed, used := [], 0;
    if !GermsFit(width, height, germNumber) {
      return Failure(Refused(TooManyGerms(width, height, germNumber))), placed, used;
    }
    var made := Grids.Grid.OfSize(width, height);
    if made.Failure? {
      return Failure(BadGrid(made.error)), placed, used;
    }
    var grid := made.value;
    placed, used := PlaceGerms(grid, germNumber, draws);
    return Success(grid), placed, used;
  }

  // ---------------------------------------------------------------- level files

  /** Why a level cannot be loaded: a message of the loader's, or the board's refusal. */
  datatype LoadError = Refused(message: string) | BadGrid(error: Grids.GridError)

  /** The characters of a level line: '.' for an empty tile, or a germ symbol. */
  predicate Readable(c: char)
  {
    c == '.' || c in "BWXYTV"
  }

  /** The first character of a line that is neither '.' nor a germ symbol. */
  function FirstUnreadable(line: string): (r: Option<nat>)
    ensures r.Some? ==> r.value < |line| && !Readable(line[r.value])
    ensures r.Some? ==> forall i :: 0 <= i < r.value ==> Readable(line[i])
    ensures r.None? <==> forall i :: 0 <= i < |line| ==> Readable(line[i])
  {
    if line == [] then Option.None
    else if !Readable(line[0]) then Some(0)
    else match FirstUnreadable(line[1..])
      case None => Option.None
      case Some(k) => Some(k + 1)
  }

  /** The tiles a line stands for: one per character, empty for '.', a germ otherwise. */
  predicate TilesOfLine(tiles: seq<Grids.Tile>, line: string)
  {
    |tiles| == |line|
    && (forall x :: 0 <= x < |line| ==> (tiles[x].None? <==> line[x] == '.'))
    && (forall x :: 0 <= x < |line| && tiles[x].Some? ==> tiles[x].value.IsGerm())
  }

  /** A tile added to a row adds its object's coordinates, if any. */
  lemma TileCoordinatesAppend(tiles: seq<Grids.Tile>, t: Grids.Tile)
    ensures TileCoordinates(tiles + [t]) == TileCoordinates(tiles) + (if t.Some? then {t.value.CoordinatesObject()} else {})
  {
    var s := tiles + [t];
    assert forall x :: 0 <= x < |tiles| ==> s[x] == tiles[x];
    if t.Some? {
      assert s[|tiles|] == t;
    }
  }

  /** No two objects of a row share a coordinates object. */
  predicate TilesUnshared(tiles: seq<Grids.Tile>)
  {
    forall i, j :: 0 <= i < j < |tiles| && tiles[i].Some? && tiles[j].Some? ==>
      tiles[i].value.CoordinatesObject() != tiles[j].value.CoordinatesObject()
  }

  /**
   * One line of a level file as a row: '.' is an empty tile and any other character the germ
   * `Germ.ofSymbol` builds, in the colour drawn for that tile. The first character that is no
   * germ symbol raises its exception; an empty line is an empty row, which `Row` refuses.
   */
  method ParseRow(line: string, colors: seq<GridObjects.Color>) returns (r: Result<Grids.Row, string>)
    requires |colors| == |line|
    ensures r.Success? <==> |line| > 0 && FirstUnreadable(line).None?
    ensures FirstUnreadable(line).Some? ==>
      r == Failure("Couldn't resolve germ with symbol: " + [line[FirstUnreadable(line).value]])
    ensures line == [] ==> r == Failure("Rows can't be empty.")
    ensures r.Success? ==> fresh(r.value) && TilesOfLine(r.value.tiles, line) && TilesUnshared(r.value.tiles)
    ensures r.Success? ==> forall i :: 0 <= i < |line| && r.value.tiles[i].Some? ==> r.value.tiles[i].value.Color() == colors[i]
    ensures r.Success? ==> forall c :: c in TileCoordinates(r.value.tiles) ==> fresh(c)
  {
    var tiles: seq<Grids.Tile> := [];
    for i := 0 to |line|
      invariant |tiles| == i && TilesUnshared(tiles)
      invariant forall k :: 0 <= k < i ==> Readable(line[k])
      invariant forall k :: 0 <= k < i ==> (tiles[k].None? <==> line[k] == '.')
      invariant forall k :: 0 <= k < i && tiles[k].Some? ==>
        tiles[k].value.IsGerm() && tiles[k].value.Color() == colors[k]
      invariant forall c :: c in TileCoordinates(tiles) ==> fresh(c)
    {
      if line[i] == '.' {
        TileCoordinatesAppend(tiles, Option.None);
        tiles := tiles + [Option.None];
      } else {
        var germ := Occupants.GermOfSymbol(line[i], colors[i]);
        if germ.Failure? {
          assert FirstUnreadable(line) == Some(i);
          return Failure(germ.error);
        }
        TileCoordinatesAppend(tiles, Some(germ.value));
        tiles := tiles + [Some(germ.value)];
      }
    }
    r := Grids.Row.New(tiles);
  }

  /** The coordinates objects of a row's objects. */
  function TileCoordinates(tiles: seq<Grids.Tile>): set<Coordinates.Coordinates>
  {
    set x | 0 <= x < |tiles| && tiles[x].Some? :: tiles[x].value.CoordinatesObject()
  }

  /** Rows whose objects are unshared within each row and across rows share no coordinates object at all. */
  lemma UnsharedRows(rows: seq<Grids.Row>)
    requires forall y :: 0 <= y < |rows| ==> TilesUnshared(rows[y].tiles)
    requires forall y1, y2 :: 0 <= y1 < y2 < |rows| ==> TileCoordinates(rows[y1].tiles) !! TileCoordinates(rows[y2].tiles)
    ensures Grids.Unshared(rows)
  {
    forall y1, x1, y2, x2 |
      0 <= y1 < |rows| && 0 <= x1 < |rows[y1].tiles| && 0 <= y2 < |rows| && 0 <= x2 < |rows[y2].tiles|
      && (y1, x1) != (y2, x2) && rows[y1].tiles[x1].Some? && rows[y2].tiles[x2].Some?
      ensures rows[y1].tiles[x1].value.CoordinatesObject() != rows[y2].tiles[x2].value.CoordinatesObject()
    {
      var c1, c2 := rows[y1].tiles[x1].value.CoordinatesObject(), rows[y2].tiles[x2].value.CoordinatesObject();
      assert c1 in TileCoordinates(rows[y1].tiles) && c2 in TileCoordinates(rows[y2].tiles);
      if y1 == y2 {
        assert TilesUnshared(rows[y1].tiles);
      }
    }
  }

  /** The board's coordinates objects are those of its rows. */
  lemma CoordinatesOfRows(rows: seq<Grids.Row>, c: Coordinates.Coordinates)
    requires c in Grids.CoordinatesOf(rows)
    ensures exists y :: 0 <= y < |rows| && c in TileCoordinates(rows[y].tiles)
  {
    var y, x :| 0 <= y < |rows| && 0 <= x < |rows[y].tiles| && rows[y].tiles[x].Some?
      && c == rows[y].tiles[x].value.CoordinatesObject();
    assert c in TileCoordinates(rows[y].tiles);
  }

  /**
   * The `map` of `loadLevelFromNumber` over the file's lines: one new row per line, in order,
   * or the first line's failure.
   */
  method ParseRows(lines: seq<string>, colors: seq<seq<GridObjects.Color>>) returns (r: Result<seq<Grids.Row>, string>)
    requires |colors| == |lines| && forall y :: 0 <= y < |lines| ==> |colors[y]| == |lines[y]|
    ensures r.Success? <==> forall y :: 0 <= y < |lines| ==> |lines[y]| > 0 && FirstUnreadable(lines[y]).None?
    ensures r.Success? ==> |r.value| == |lines|
    ensures r.Success? ==> forall y :: 0 <= y < |lines| ==> fresh(r.value[y]) && TilesOfLine(r.value[y].tiles, lines[y])
    ensures r.Success? ==> (forall i, j :: 0 <= i < j < |r.value| ==> r.value[i] != r.value[j]) && Grids.Unshared(r.value)
    ensures r.Success? ==> forall c :: c in Grids.CoordinatesOf(r.value) ==> fresh(c)
  {
    r := ParseEachLine(lines, colors);
    if r.Success? {
      var rows := r.value;
      UnsharedRows(rows);
      forall c | c in Grids.CoordinatesOf(rows) ensures fresh(c) {
        CoordinatesOfRows(rows, c);
      }
    }
  }

  /** The loop of `ParseRows`: each line parsed in turn, each row with objects of its own. */
  method ParseEachLine(lines: seq<string>, colors: seq<seq<GridObjects.Color>>) returns (r: Result<seq<Grids.Row>, string>)
    requires |colors| == |lines| && forall y :: 0 <= y < |lines| ==> |colors[y]| == |lines[y]|
    ensures r.Success? <==> forall y :: 0 <= y < |lines| ==> ReadableLine(lines[y])
    ensures r.Success? ==> |r.value| == |lines|
    ensures r.Success? ==> forall y :: 0 <= y < |lines| ==> fresh(r.value[y])
    ensures r.Success? ==> forall y :: 0 <= y < |lines| ==> TilesOfLine(r.value[y].tiles, lines[y]) && TilesUnshared(r.value[y].tiles)
    ensures r.Success? ==> forall y :: 0 <= y < |lines| ==> forall c :: c in TileCoordinates(r.value[y].tiles) ==> fresh(c)
    ensures r.Success? ==> forall i, j :: 0 <= i < j < |lines| ==> r.value[i] != r.value[j]
    ensures r.Success? ==> forall i, j :: 0 <= i < j < |lines| ==> TileCoordinates(r.value[i].tiles) !! TileCoordinates(r.value[j].tiles)
  {
    var rows: seq<Grids.Row> := [];
    ghost var used: set<Coordinates.Coordinates> := {};
    for y := 0 to |lines|
      invariant |rows| == y
      invariant forall k :: 0 <= k < y ==> ReadableLine(lines[k])
      invariant forall k :: 0 <= k < y ==> fresh(rows[k]) && RowOfLine(rows[k], lines[k])
      invariant forall c :: c in used ==> fresh(c)
      invariant forall k :: 0 <= k < y ==> TileCoordinates(rows[k].tiles) <= used
      invariant forall i, j :: 0 <= i < j < y ==> rows[i] != rows[j]
      invariant forall i, j :: 0 <= i < j < y ==> TileCoordinates(rows[i].tiles) !! TileCoordinates(rows[j].tiles)
    {
      var row := ParseRow(lines[y], colors[y]);
      if row.Failure? {
        return Failure(row.error);
      }
      assert RowOfLine(row.value, lines[y]);
      ghost var added := TileCoordinates(row.value.tiles);
      assert added !! used;
      rows := rows + [row.value];
      used := used + added;
    }
    return Success(rows);
  }

  /** A line `Row` accepts: not empty, and every character a germ symbol or '.'. */
  predicate ReadableLine(line: string)
  {
    |line| > 0 && FirstUnreadable(line).None?
  }

  /** A row parsed from a line: its tiles show the line, and no two share a coordinates object. */
  predicate RowOfLine(row: Grids.Row, line: string)
    reads row
  {
    TilesOfLine(row.tiles, line) && TilesUnshared(row.tiles)
  }

  /**
   * `loadLevelFromNumber` once the file's lines are read: the rows parsed, then the board built
   * from them (bottom line last in the file, so first on the board).
   */
  method LoadGrid(lines: seq<string>, colors: seq<seq<GridObjects.Color>>) returns (r: Result<Grids.Grid, LoadError>)
    requires |colors| == |lines| && forall y :: 0 <= y < |lines| ==> |colors[y]| == |lines[y]|
    ensures (forall y :: 0 <= y < |lines| ==> |lines[y]| > 0 && FirstUnreadable(lines[y]).None?) ==>
      (r.Success? <==> |lines| >= 2 && |lines[0]| >= 2 && forall y :: 0 <= y < |lines| ==> |lines[y]| == |lines[0]|)
    ensures r.Success? ==> fresh(r.value) && r.value.Valid() && r.value.Height() == |lines|
    ensures r.Success? ==> forall y, x :: 0 <= y < |lines| && 0 <= x < |lines[y]| ==>
      (r.value.Get(Coordinates.Pos(x, |lines| - 1 - y)).None? <==> lines[y][x] == '.')
    ensures r.Success? ==> forall y, x :: 0 <= y < |lines| && 0 <= x < |lines[y]| && lines[y][x] != '.' ==>
      r.value.Get(Coordinates.Pos(x, |lines| - 1 - y)).value.IsGerm()
    ensures r.Success? ==> Grids.Stamped(r.value.rows)
    ensures (exists y :: 0 <= y < |lines| && (|lines[y]| == 0 || FirstUnreadable(lines[y]).Some?)) ==> r.Failure?
  {
    var rows := ParseRows(lines, colors);
    if rows.Failure? {
      return Failure(Refused(rows.error));
    }
    var grid := Grids.Grid.New(rows.value);
    if grid.Failure? {
      return Failure(BadGrid(grid.error));
    }
    BoardShowsLines(grid.value, rows.value, lines);
    return Success(grid.value);
  }

  /** A board built from the rows of some lines shows each line upside down: the last line is row 0. */
  lemma BoardShowsLines(g: Grids.Grid, rows: seq<Grids.Row>, lines: seq<string>)
    requires g.Valid() && g.rows == Grids.Reversed(rows) && |rows| == |lines|
    requires forall y :: 0 <= y < |lines| ==> TilesOfLine(rows[y].tiles, lines[y])
    ensures forall y, x :: 0 <= y < |lines| && 0 <= x < |lines[y]| ==>
      (g.Get(Coordinates.Pos(x, |lines| - 1 - y)).None? <==> lines[y][x] == '.')
    ensures forall y, x :: 0 <= y < |lines| && 0 <= x < |lines[y]| && lines[y][x] != '.' ==>
      g.Get(Coordinates.Pos(x, |lines| - 1 - y)).value.IsGerm()
  {
    forall y, x | 0 <= y < |lines| && 0 <= x < |lines[y]|
      ensures g.Get(Coordinates.Pos(x, |lines| - 1 - y)).None? <==> lines[y][x] == '.'
      ensures lines[y][x] != '.' ==> g.Get(Coordinates.Pos(x, |lines| - 1 - y)).value.IsGerm()
    {
      assert g.rows[|lines| - 1 - y] == rows[y];
      assert TilesOfLine(rows[y].tiles, lines[y]);
    }
  }
}
