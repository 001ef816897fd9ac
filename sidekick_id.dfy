/**
 * The sidekick table of core/src/com/mygdx/kaps/level/SidekickId.java: ten sidekicks, each with
 * a colour, an attack type, an attack, a declared mana, a passive flag, a damage and possibly an
 * alternate sprite name; the name lookup used by the menus; and the move lists the attacks of
 * that file build. Two sidekicks (BOMBER and UNI) are passive. The constructor stores a mana of
 * 4 whatever is declared.
 */
module SidekickIds {
  import opened Wrappers
  import Text
  import Coordinates
  import Grids

  type Pos = Coordinates.Pos

  datatype AttackType = Slice | Fire | Firearm | Melee | Brush

  datatype Id = Sean | Zyrame | R3d | Mimaps | Painter | Xereth | Bomber | Jim | Uni | Sniper

  /** The constants in declaration order, as `values()` lists them. */
  const Ids: seq<Id> := [Sean, Zyrame, R3d, Mimaps, Painter, Xereth, Bomber, Jim, Uni, Sniper]

  /** `ordinal()`: the constant's place in the declaration. */
  function Ordinal(id: Id): (n: nat)
    ensures n < |Ids| && Ids[n] == id
  {
    match id
    case Sean => 0
    case Zyrame => 1
    case R3d => 2
    case Mimaps => 3
    case Painter => 4
    case Xereth => 5
    case Bomber => 6
    case Jim => 7
    case Uni => 8
    case Sniper => 9
  }

  lemma IdsListsEveryIdOnce()
    ensures forall id :: id in Ids
    ensures forall i, j :: 0 <= i < j < |Ids| ==> Ids[i] != Ids[j]
  {
    forall id: Id
      ensures id in Ids
    {
      assert Ids[Ordinal(id)] == id;
    }
  }

  function EnumName(id: Id): string
  {
    match id
    case Sean => "SEAN"
    case Zyrame => "ZYRAME"
    case R3d => "R3D"
    case Mimaps => "MIMAPS"
    case Painter => "PAINTER"
    case Xereth => "XERETH"
    case Bomber => "BOMBER"
    case Jim => "JIM"
    case Uni => "UNI"
    case Sniper => "SNIPER"
  }

  /** `toString`: the first character kept, the others in lower case. */
  function Name(id: Id): (r: string)
    ensures |r| == |EnumName(id)|
  {
    var s := EnumName(id);
    [s[0]] + Text.ToLower(s[1..])
  }

  /** A lower-cased string is known character by character. */
  lemma LowerIs(s: string, t: string)
    requires |s| == |t| && forall i :: 0 <= i < |s| ==> Text.ToLowerChar(s[i]) == t[i]
    ensures Text.ToLower(s) == t
  {
  }

  /** The name of one sidekick, from its spelled-out enum name. */
  lemma NameFromEnumName(id: Id, upper: string, name: string)
    requires EnumName(id) == upper && |upper| == |name| > 0 && upper[0] == name[0]
    requires forall i :: 1 <= i < |upper| ==> Text.ToLowerChar(upper[i]) == name[i]
    ensures Name(id) == name
  {
    LowerIs(upper[1..], name[1..]);
    assert name == [name[0]] + name[1..];
  }

  lemma Names1()
    ensures Name(Sean) == "Sean" && Name(Zyrame) == "Zyrame" && Name(R3d) == "R3d"
  {
    NameFromEnumName(Sean, "SEAN", "Sean");
    NameFromEnumName(Zyrame, "ZYRAME", "Zyrame");
    NameFromEnumName(R3d, "R3D", "R3d");
  }

  lemma Names2()
    ensures Name(Mimaps) == "Mimaps" && Name(Painter) == "Painter" && Name(Xereth) == "Xereth"
  {
    NameFromEnumName(Mimaps, "MIMAPS", "Mimaps");
    NameFromEnumName(Painter, "PAINTER", "Painter");
    NameFromEnumName(Xereth, "XERETH", "Xereth");
  }

  lemma Names3()
    ensures Name(Bomber) == "Bomber" && Name(Jim) == "Jim" && Name(Uni) == "Uni" && Name(Sniper) == "Sniper"
  {
    NameFromEnumName(Bomber, "BOMBER", "Bomber");
    NameFromEnumName(Jim, "JIM", "Jim");
    NameFromEnumName(Uni, "UNI", "Uni");
    NameFromEnumName(Sniper, "SNIPER", "Sniper");
  }

  /**
   * Names differ even ignoring case: two names equal up to case have the same length and the
   * same first letter, and only SEAN and SNIPER share a first letter.
   */
  lemma NamesDifferIgnoringCase(a: Id, b: Id)
    requires Text.EqualsIgnoreCase(Name(a), Name(b))
    ensures a == b
  {
    var la, lb := Text.ToLower(Name(a)), Text.ToLower(Name(b));
    assert la[0] == Text.ToLowerChar(EnumName(a)[0]);
    assert lb[0] == Text.ToLowerChar(EnumName(b)[0]);
    assert |la| == |EnumName(a)| && |lb| == |EnumName(b)|;
  }

  /** The first of `ids` whose name equals `name` ignoring case. */
  function FirstNamed(ids: seq<Id>, name: string): (r: Option<Id>)
    ensures r.Some? ==> r.value in ids && Text.EqualsIgnoreCase(Name(r.value), name)
    ensures r.None? <==> forall id :: id in ids ==> !Text.EqualsIgnoreCase(Name(id), name)
  {
    if ids == [] then Option.None
    else if Text.EqualsIgnoreCase(Name(ids[0]), name) then Some(ids[0])
    else FirstNamed(ids[1..], name)
  }

  /**
   * `ofName`: the sidekick whose name equals `name` ignoring case, or the exception's message
   * when there is none.
   */
  function OfName(name: string): (r: Result<Id, string>)
    ensures r.Success? ==> Text.EqualsIgnoreCase(Name(r.value), name)
    ensures r.Failure? <==> forall id :: !Text.EqualsIgnoreCase(Name(id), name)
    ensures r.Failure? ==> r.error == "Can't resolve sidekick of name " + name
  {
    IdsListsEveryIdOnce();
    match FirstNamed(Ids, name)
    case Some(id) => Success(id)
    case None => Failure("Can't resolve sidekick of name " + name)
  }

  /** Any spelling of a sidekick's name, whatever its case, finds that sidekick. */
  lemma OfNameFindsEveryCase(id: Id, name: string)
    requires Text.EqualsIgnoreCase(Name(id), name)
    ensures OfName(name) == Success(id)
  {
    var r := OfName(name);
    NamesDifferIgnoringCase(r.value, id);
  }

  /** The colour constant, by its number: COLOR_1 for SEAN and so on. */
  function ColorNumber(id: Id): nat
  {
    match id
    case Sean => 1
    case Zyrame => 2
    case R3d => 3
    case Mimaps => 4
    case Painter => 5
    case Xereth => 6
    case Bomber => 7
    case Jim => 10
    case Uni => 11
    case Sniper => 12
  }

  /** No two sidekicks share a colour constant. */
  lemma ColorsDistinct(a: Id, b: Id)
    ensures ColorNumber(a) == ColorNumber(b) ==> a == b
  {
  }

  /** The attack type each constant declares. */
  function TypeOf(id: Id): AttackType
  {
    match id
    case Sean => Melee
    case Zyrame => Slice
    case R3d => Slice
    case Mimaps => Fire
    case Painter => Brush
    case Xereth => Slice
    case Bomber => Firearm
    case Jim => Slice
    case Uni => Brush
    case Sniper => Firearm
  }

  /** The mana written in the table. */
  function DeclaredMana(id: Id): int
  {
    match id
    case Sean => 20
    case Zyrame => 18
    case R3d => 25
    case Mimaps => 15
    case Painter => 10
    case Xereth => 25
    case Bomber => 13
    case Jim => 18
    case Uni => 4
    case Sniper => 20
  }

  /** Only the constants built with the `passive` flag: BOMBER and UNI. */
  predicate IsPassive(id: Id)
  {
    id == Bomber || id == Uni
  }

  /** The damage argument; the passive constructor passes 0. */
  function Damage(id: Id): (d: nat)
    ensures IsPassive(id) ==> d == 0
    ensures !IsPassive(id) ==> d > 0
  {
    match id
    case Sean => 2
    case Zyrame => 2
    case R3d => 2
    case Mimaps => 2
    case Painter => 1
    case Xereth => 1
    case Bomber => 0
    case Jim => 1
    case Uni => 0
    case Sniper => 3
  }

  function AlternateName(id: Id): Option<string>
  {
    match id
    case R3d => Some("Red")
    case Painter => Some("Paint")
    case Uni => Some("Color")
    case _ => Option.None
  }

  /** `animPath`: the sprite folder, then the alternate name or else the name, then `_`. */
  function AnimPath(id: Id): string
  {
    "android/assets/sprites/sidekicks/" + (if AlternateName(id).Some? then AlternateName(id).value else Name(id)) + "_"
  }

  lemma AnimPaths()
    ensures AnimPath(R3d) == "android/assets/sprites/sidekicks/Red_"
    ensures AnimPath(Painter) == "android/assets/sprites/sidekicks/Paint_"
    ensures AnimPath(Uni) == "android/assets/sprites/sidekicks/Color_"
    ensures AnimPath(Sean) == "android/assets/sprites/sidekicks/Sean_"
  {
    NameFromEnumName(Sean, "SEAN", "Sean");
  }

  /** `gaugeMax`: the stored mana, which the constructor fixes at 4. */
  function GaugeMax(id: Id): (m: int)
    ensures m == 4
  {
    4
  }

  // ---------------------------------------------------------------- attacks

  /**
   * One move of an attack. Moves whose target is drawn when they run (a random object, a
   * random germ, a random capsule to repaint) carry no target; the others hit given tiles.
   * `Idle` does nothing (the explosive capsule of the Sidekick.java generation).
   */
  datatype Move =
    | Hit(tiles: seq<Pos>)
    | HitRandomObject
    | HitRandomGerm
    | PaintRandomCapsule(color: nat)
    | InjectMonoColorCapsule
    | DeleteMatches
    | Idle

  /** The moves themselves, each of `n` copies of one move. */
  function Repeated(n: nat, m: Move): (r: seq<Move>)
    ensures |r| == n && forall i :: 0 <= i < n ==> r[i] == m
  {
    seq(n, _ => m)
  }

  /** The four neighbours `hitRandomObjectAndAdjacents` hits second: above, below, right, left. */
  function Adjacents(p: Pos): seq<Pos>
  {
    [p.Plus(Coordinates.Pos(0, 1)), p.Plus(Coordinates.Pos(0, -1)), p.Plus(Coordinates.Pos(1, 0)), p.Plus(Coordinates.Pos(-1, 0))]
  }

  /** The tiles of `s` that satisfy `f`, in order. */
  function Filter(s: seq<Pos>, f: Pos -> bool): (r: seq<Pos>)
    ensures forall p :: p in r <==> p in s && f(p)
    ensures |r| <= |s|
  {
    if s == [] then [] else (if f(s[0]) then [s[0]] else []) + Filter(s[1..], f)
  }

  function HitEach(tiles: seq<Pos>): (r: seq<Move>)
    ensures |r| == |tiles| && forall i :: 0 <= i < |tiles| ==> r[i] == Hit([tiles[i]])
  {
    seq(|tiles|, i requires 0 <= i < |tiles| => Hit([tiles[i]]))
  }

  /** `hitRandomLine`: each tile of the picked row, from column 0 to the last. */
  function RowTiles(y: int, width: nat): (r: seq<Pos>)
    ensures |r| == width && forall n :: 0 <= n < width ==> r[n] == Coordinates.Pos(n, y)
  {
    seq(width, n => Coordinates.Pos(n, y))
  }

  /**
   * `hitRandomColumn` as written in this file: the row numbers 0..height-1, negated, sorted,
   * negated back, so the top row comes first.
   */
  function ColumnTopDown(x: int, height: nat): (r: seq<Pos>)
    ensures |r| == height
  {
    seq(height, i => Coordinates.Pos(x, height - 1 - i))
  }

  /** The first diagonal of `hitRandomDiagonals`: `x - px == y - py`. */
  predicate OnRisingDiagonal(picked: Pos, c: Pos)
  {
    c.x - picked.x == c.y - picked.y
  }

  /** The second diagonal: `x - px == py - y`. */
  predicate OnFallingDiagonal(picked: Pos, c: Pos)
  {
    c.x - picked.x == picked.y - c.y
  }

  /** `hitRandomDiagonals` as written here: the rising diagonal's tiles, then the falling one's. */
  function Diagonals(picked: Pos, width: nat, height: nat): seq<Pos>
  {
    var tiles := Grids.EveryTile(width, height);
    Filter(tiles, c => OnRisingDiagonal(picked, c)) + Filter(tiles, c => OnFallingDiagonal(picked, c))
  }

  /** The picked tile lies on both diagonals, so an in-board pick is hit twice. */
  lemma PickedHitTwice(picked: Pos, width: nat, height: nat)
    requires 0 <= picked.x < width && 0 <= picked.y < height
    ensures picked in Filter(Grids.EveryTile(width, height), c => OnRisingDiagonal(picked, c))
    ensures picked in Filter(Grids.EveryTile(width, height), c => OnFallingDiagonal(picked, c))
  {
    Grids.EveryTileCovers(width, height, picked);
  }

  /**
   * The moves each sidekick's attack is made of, before `deleteMatches` is appended. `picked`
   * is the tile the attack drew when it was built and `mateColor` the colour of the mate a
   * painter drew; the board's size comes from the level.
   */
  function AttackMoves(id: Id, picked: Pos, mateColor: nat, width: nat, height: nat): seq<Move>
  {
    match id
    case Sean => [Hit([picked]), Hit(Adjacents(picked))]
    case Zyrame => Repeated(2, HitRandomGerm)
    case R3d => HitEach(ColumnTopDown(picked.x, height))
    case Mimaps => Repeated(3, HitRandomObject)
    case Painter => Repeated(5, PaintRandomCapsule(mateColor))
    case Xereth => HitEach(Diagonals(picked, width, height))
    case Bomber => [InjectMonoColorCapsule]
    case Jim => HitEach(RowTiles(picked.y, width))
    case Uni => [InjectMonoColorCapsule]
    case Sniper => [HitRandomGerm]
  }

  /** The private `SidekickAttack` constructor: the moves, then `deleteMatches`. */
  function Attack(moves: seq<Move>): (r: seq<Move>)
    ensures |r| == |moves| + 1 && r[|moves|] == DeleteMatches && r[..|moves|] == moves
  {
    moves + [DeleteMatches]
  }

  /** No attack move deletes matches, so every attack deletes them once, last. */
  lemma DeleteMatchesOnlyLast(id: Id, picked: Pos, mateColor: nat, width: nat, height: nat)
    ensures DeleteMatches !in AttackMoves(id, picked, mateColor, width, height)
    ensures var r := Attack(AttackMoves(id, picked, mateColor, width, height));
      forall i :: 0 <= i < |r| ==> (r[i] == DeleteMatches <==> i == |r| - 1)
  {
  }

  /** How many moves each attack has: fixed counts, or one per tile of the row or column. */
  lemma MoveCounts(picked: Pos, mateColor: nat, width: nat, height: nat)
    ensures |Attack(AttackMoves(Sean, picked, mateColor, width, height))| == 3
    ensures |Attack(AttackMoves(Mimaps, picked, mateColor, width, height))| == 4
    ensures |Attack(AttackMoves(Painter, picked, mateColor, width, height))| == 6
    ensures |Attack(AttackMoves(R3d, picked, mateColor, width, height))| == height + 1
    ensures |Attack(AttackMoves(Jim, picked, mateColor, width, height))| == width + 1
  {
  }
}
