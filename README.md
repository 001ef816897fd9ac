# kaps in Dafny

This project models the core of *kaps*, a falling-capsule puzzle game written in Java on libGDX, in the style of Dr. Mario. It also models the Python palette tool that recolours its sprites. Capsules of two coloured halves fall onto a board of germs. In the game as intended, four tiles of one colour in a row or in a column, or a full 3 x 3 square of one colour, match and are destroyed; the validity check as written refuses every such match (see Findings). Sidekicks charge gauges and then attack the board. A score manager counts combos. Levels come from a validated queue of level numbers, are either read from level files or generated at random, and are played with a party of two sidekicks.

The repository keeps two generations of several classes side by side. The `gridobject` package holds `Coordinates`, `GridObject`, `Germ`, `CapsulePart` and `Capsule`. The older `level` package holds its own `Coordinates`, `GridObject`, `Germ`, `CapsulePart` and `FullCapsule`. Each generation is modelled on its own terms. `Orientation`, `Coordinates` and `Gauge` are shared modules.

How the Java and Python constructs map to Dafny:

- An object whose fields change in place is a Dafny `class` with `modifies`/`reads` frames. Examples: gauges, coordinates, grid objects, capsule halves, rows and the board, sidekicks, the score manager, the screen shaker and the level loader.
- A value is a `datatype`. Examples: orientations, key and sidekick tables, match patterns, attack moves and colour sets.
- Java inheritance becomes composition. A subclass object holds a `const` reference to its superclass part. The board stores an `Occupant` datatype, a tagged union of references, and dispatches overridden methods by `match`.
- An exception thrown on an input the callers can pass becomes a failure value: a `Result` carrying the exception's message, or an `Option` where only the failure matters. Exceptions that every caller rules out are preconditions instead; "## Left out" lists them.
- Randomness, file contents, timers and the directory walk become parameters:
  - the drawn colours, tiles, ids and level numbers;
  - the lines of a level file;
  - whether an attack's timer fired;
  - the `(root, files)` entries of `os.walk`.

Modules, one per source file:

| module | source |
|---|---|
| `Wrappers`, `Text` | helpers: `Option`/`Result`; splitting, joining, lower-casing and decimal rendering of strings |
| `Orientations` | core/src/com/mygdx/kaps/level/Orientation.java |
| `Gauges` | core/src/com/mygdx/kaps/level/Gauge.java |
| `Coordinates` | both `Coordinates.java` files |
| `GridObjects`, `Germs`, `WallGerms`, `CooldownGerms`, `CapsuleParts`, `LinkedCapsuleParts`, `Capsules` | the `gridobject` package |
| `Occupants`, `Grids`, `Matches` | core/src/com/mygdx/kaps/level/Grid.java and the objects it holds |
| `LevelGridObjects`, `LevelGerms`, `LevelCapsuleParts`, `FullCapsules` | the older classes of the `level` package |
| `SidekickIds`, `Sidekicks` | core/src/com/mygdx/kaps/level/SidekickId.java and Sidekick.java |
| `LevelObservers` | core/src/com/mygdx/kaps/level/LevelObserver.java |
| `LevelLoaders` | core/src/com/mygdx/kaps/level/LevelLoader.java |
| `InputHandlers` | core/src/com/mygdx/kaps/controller/InputHandler.java |
| `Recolor` | android/assets/sprites/recolor.py |

## Model

| member | source | states |
|---|---|---|
| Gauges.Gauge.constructor | core/src/com/mygdx/kaps/level/Gauge.java:7-9 | a new gauge holds 0 out of `max`, so it is empty |
| Gauges.Gauge.WithValue | core/src/com/mygdx/kaps/level/Gauge.java:11-14 | the two-argument constructor stores the value and the bound as given |
| Gauges.Gauge.Full | core/src/com/mygdx/kaps/level/Gauge.java:16-18 | `full(max)` starts at `max`, so it is full, and it is in range iff `max >= 0` |
| Gauges.Gauge.Increase | core/src/com/mygdx/kaps/level/Gauge.java:45-47 | the unguarded increment adds one, even past `max` |
| Gauges.Gauge.Decrease | core/src/com/mygdx/kaps/level/Gauge.java:49-51 | the unguarded decrement takes one away |
| Gauges.Gauge.DecreaseIfPossible | core/src/com/mygdx/kaps/level/Gauge.java:53-55 | decrements iff the gauge is not empty, so a non-negative value stays non-negative and `0..max` is preserved |
| Gauges.Gauge.IncreaseIfPossible | core/src/com/mygdx/kaps/level/Gauge.java:57-59 | increments iff the gauge is not full, so a value at most `max` stays at most `max` and `0..max` is preserved |
| Gauges.Gauge.Empty | core/src/com/mygdx/kaps/level/Gauge.java:61-63 | the value becomes 0 and the gauge is empty |
| Gauges.Gauge.Fill | core/src/com/mygdx/kaps/level/Gauge.java:65-67 | the value becomes `max` and the gauge is full |
| Gauges.GuardedStepsStayInRange | core/src/com/mygdx/kaps/level/Gauge.java:53-59 | from inside `0..max` the guarded steps stay inside it, and each leaves the value unchanged exactly at its own end of the range |
| Gauges.DrainedEmptiesAfterExactly | core/src/com/mygdx/kaps/level/Gauge.java:53-55 | `n` guarded decrements from `value` leave `max(0, value - n)`: the gauge empties after exactly `value` of them |
| Gauges.DrainedOneMore | core/src/com/mygdx/kaps/level/Gauge.java:53-55 | one more guarded decrement is one more step of the drain |
| Gauges.Gauge.ToString | core/src/com/mygdx/kaps/level/Gauge.java:21-23 | `value + " / " + max`, the printed value and maximum |
| Gauges.Gauge.IsFull | core/src/com/mygdx/kaps/level/Gauge.java:33-35 | a gauge is full once its value reaches the maximum; Gauges.Gauge.IncreaseIfPossible changes nothing on a full gauge |
| Gauges.Gauge.IsEmpty | core/src/com/mygdx/kaps/level/Gauge.java:37-39 | a gauge is empty once its value reaches 0; Gauges.Gauge.DecreaseIfPossible changes nothing on an empty gauge |
| Orientations.Flipped | core/src/com/mygdx/kaps/level/Orientation.java:26-39 | a flip turns a vertical side horizontal and back, and fixes NONE only |
| Orientations.Opposite | core/src/com/mygdx/kaps/level/Orientation.java:41-54 | the opposite side keeps the axis and fixes NONE only |
| Orientations.DirectionVector | core/src/com/mygdx/kaps/level/Orientation.java:56-69 | NONE gives (0,0), horizontal sides a unit x step and vertical sides a unit y step |
| Orientations.OppositeVector | core/src/com/mygdx/kaps/level/Orientation.java:71-73 | the negated direction vector, which is the direction vector of the opposite side |
| Orientations.NoneIsNeitherVerticalNorHorizontal | core/src/com/mygdx/kaps/level/Orientation.java:18-24 | no side is both vertical and horizontal, and NONE is exactly the side that is neither |
| Orientations.FourFlipsAreIdentity | core/src/com/mygdx/kaps/level/Orientation.java:26-39 | four flips give the side back |
| Orientations.TwoFlipsAreOpposite | core/src/com/mygdx/kaps/level/Orientation.java:26-54 | two flips give the opposite side |
| Orientations.OppositeIsInvolution | core/src/com/mygdx/kaps/level/Orientation.java:41-54 | the opposite of the opposite is the side itself, and no real side is its own opposite |
| Orientations.NamesAndVectorsAreDistinct | core/src/com/mygdx/kaps/level/Orientation.java:5-69 | distinct sides have distinct names and distinct direction vectors |
| Orientations.ToString | core/src/com/mygdx/kaps/level/Orientation.java:5-16 | each orientation prints as its sprite-path name ("unlinked", "left", "up", "right", "down"); distinct orientations print differently (Orientations.NamesAndVectorsAreDistinct) |
| Orientations.IsVertical | core/src/com/mygdx/kaps/level/Orientation.java:18-20 | UP and DOWN are vertical; no orientation is both vertical and horizontal (Orientations.NoneIsNeitherVerticalNorHorizontal), and a quarter turn swaps the two (Orientations.Flipped) |
| Orientations.IsHorizontal | core/src/com/mygdx/kaps/level/Orientation.java:22-24 | LEFT and RIGHT are horizontal; NONE is neither horizontal nor vertical (Orientations.NoneIsNeitherVerticalNorHorizontal) |
| Coordinates.Coordinates.Origin | core/src/com/mygdx/kaps/level/gridobject/Coordinates.java:8-10 | the no-argument constructor gives (0,0) |
| Coordinates.Coordinates.constructor | core/src/com/mygdx/kaps/level/gridobject/Coordinates.java:12-15 | the pair holds the given x and y |
| Coordinates.Coordinates.Map | core/src/com/mygdx/kaps/level/gridobject/Coordinates.java:28-31 | each component becomes its function applied to the old component |
| Coordinates.Coordinates.Set | core/src/com/mygdx/kaps/level/gridobject/Coordinates.java:33-35 | the pair becomes exactly (x, y) |
| Coordinates.Coordinates.Add | core/src/com/mygdx/kaps/level/gridobject/Coordinates.java:37-39 | the pair moves by (dx, dy) |
| Coordinates.Coordinates.SetCoordinates | core/src/com/mygdx/kaps/level/Coordinates.java:28-30 | the pair becomes the other pair's value (same as gridobject/Coordinates.java:41-43) |
| Coordinates.Coordinates.AddCoordinates | core/src/com/mygdx/kaps/level/Coordinates.java:32-34 | the pair moves by the other pair's value (same as gridobject/Coordinates.java:45-47) |
| Coordinates.Coordinates.Mapped | core/src/com/mygdx/kaps/level/Coordinates.java:41-45 | a fresh pair with each function applied to its component, the receiver unchanged |
| Coordinates.Coordinates.MappedBoth | core/src/com/mygdx/kaps/level/Coordinates.java:47-49 | a fresh pair with the one function applied to both components |
| Coordinates.Coordinates.Copy | core/src/com/mygdx/kaps/level/Coordinates.java:51-53 | a fresh pair with the same value |
| Coordinates.Coordinates.AddedTo | core/src/com/mygdx/kaps/level/Coordinates.java:59-61 | a fresh pair moved by (dx, dy), the receiver unchanged |
| Coordinates.Coordinates.AddedToCoordinates | core/src/com/mygdx/kaps/level/Coordinates.java:55-57 | a fresh pair moved by the other pair's value |
| Coordinates.CopyIsIndependent | core/src/com/mygdx/kaps/level/gridobject/Coordinates.java:64-66 | moving the origin after `copy` does not move the copy |
| Coordinates.PosToStringInjective | core/src/com/mygdx/kaps/level/gridobject/Coordinates.java:17-20 | the printed form `(x , y)` tells any two pairs apart |
| Coordinates.IntToStringInjective | core/src/com/mygdx/kaps/level/gridobject/Coordinates.java:17-20 | Java's decimal form of an int is injective and has no blank |
| Coordinates.NatToStringInjective | core/src/com/mygdx/kaps/level/gridobject/Coordinates.java:17-20 | the decimal form of a natural number is injective |
| Coordinates.FieldBeforeSeparator | core/src/com/mygdx/kaps/level/gridobject/Coordinates.java:17-20 | a field free of the separator is recovered from the printed form |
| Coordinates.Coordinates.ToString | core/src/com/mygdx/kaps/level/gridobject/Coordinates.java:17-20 | prints `(x , y)`; distinct positions print differently (Coordinates.PosToStringInjective) |
| GridObjects.GridObject.constructor | core/src/com/mygdx/kaps/level/gridobject/GridObject.java:43-48 | the object keeps a fresh copy of the given coordinates, the colour, mana and score, and starts not destroyed |
| GridObjects.GridObject.WithDefaults | core/src/com/mygdx/kaps/level/gridobject/GridObject.java:50-52 | the two-argument constructor gives mana 1 and score 10 |
| GridObjects.GridObject.TakeHit | core/src/com/mygdx/kaps/level/gridobject/GridObject.java:79-81 | one hit destroys the object and keeps its colour |
| GridObjects.GridObject.IsDestroyed | core/src/com/mygdx/kaps/level/gridobject/GridObject.java:67-69 | the destroyed flag, which one hit sets (GridObjects.GridObject.TakeHit) |
| GridObjects.GridObject.Repaint | core/src/com/mygdx/kaps/level/gridobject/GridObject.java:83-85 | only the colour changes |
| GridObjects.GridObject.ToString | core/src/com/mygdx/kaps/level/gridobject/GridObject.java:54-57 | an object prints as its coordinates |
| Germs.KindNames | core/src/com/mygdx/kaps/level/gridobject/Germ.java:41-44 | each kind prints as its lower-cased constant name |
| Germs.Cooldown | core/src/com/mygdx/kaps/level/gridobject/Germ.java:19-39 | only VIRUS and THORN have a cooldown (8 and 5); the one-argument kinds get 0 |
| Germs.AttackTypeOf | core/src/com/mygdx/kaps/level/gridobject/Germ.java:19-39 | a kind attacks by melee exactly when it has no cooldown |
| Germs.FindFirst | core/src/com/mygdx/kaps/level/gridobject/Germ.java:79-81 | `filter(p).findFirst()` finds nothing iff no supplier satisfies `p`, else the first one that does |
| Germs.SupplierOfSymbol | core/src/com/mygdx/kaps/level/gridobject/Germ.java:78-84 | a symbol resolves iff it is one of B, W, X, Y, T, V, to the supplier it names; any other symbol gives the exception's message |
| Germs.SymbolRoundTrip | core/src/com/mygdx/kaps/level/gridobject/Germ.java:63-84 | every supplier is found again from its own symbol |
| Germs.SymbolTable | core/src/com/mygdx/kaps/level/gridobject/Germ.java:63-70 | B builds a basic germ, W, X and Y walls of health 2, 3 and 4, T a thorn germ and V a virus germ |
| Germs.Builds | core/src/com/mygdx/kaps/level/gridobject/Germ.java:64-69 | B builds a basic germ, W, X and Y walls of health 2, 3 and full, T a thorn germ and V a virus germ (Germs.SymbolTable) |
| Germs.SymbolSpec | core/src/com/mygdx/kaps/level/gridobject/Germ.java:64-69 | what a level-file symbol builds, the same as its supplier builds (Germs.SymbolTable, Germs.SymbolRoundTrip) |
| Germs.CooldownSupplierOfKind | core/src/com/mygdx/kaps/level/gridobject/Germ.java:102-110 | a cooldown germ of a kind is found iff the kind is VIRUS or THORN, and it has that kind; otherwise the exception's message |
| Germs.Germ.constructor | core/src/com/mygdx/kaps/level/gridobject/Germ.java:89-92 | a new germ sits on a fresh (0,0) with its colour, kind, mana and score, not destroyed |
| Germs.Germ.WithMana | core/src/com/mygdx/kaps/level/gridobject/Germ.java:89-92 | the three-argument constructor scores the board default of 10 |
| Germs.Germ.OfKind | core/src/com/mygdx/kaps/level/gridobject/Germ.java:94-96 | the two-argument constructor gives 2 points of mana |
| Germs.Germ.IsOfKind | core/src/com/mygdx/kaps/level/gridobject/Germ.java:118-120 | a germ is of its own kind and no other |
| Germs.Germ.Basic | core/src/com/mygdx/kaps/level/gridobject/Germ.java:150-154 | a basic germ is of kind BASIC with the defaults |
| Germs.WallGerm.constructor | core/src/com/mygdx/kaps/level/gridobject/Germ.java:160-166 | a wall of health 1..4 is a WALL germ of mana 3 holding that health, not destroyed |
| Germs.WallGerm.Full | core/src/com/mygdx/kaps/level/gridobject/Germ.java:168-170 | `WallGerm(color)` starts at the maximum health 4 |
| Germs.WallGerm.New | core/src/com/mygdx/kaps/level/gridobject/Germ.java:160-166 | the constructor succeeds iff 0 < health <= 4, else fails with `Invalid health: <h> / 4` |
| Germs.WallGerm.TakeHit | core/src/com/mygdx/kaps/level/gridobject/Germ.java:176-178 | health drops by one only while positive, so it never goes below 0 |
| Germs.WallGerm.IsDestroyed | core/src/com/mygdx/kaps/level/gridobject/Germ.java:172-174 | a wall is destroyed once its health is at most 0 (Germs.WallFallsAfterExactly) |
| Germs.WallFallsAfterExactly | core/src/com/mygdx/kaps/level/gridobject/Germ.java:172-178 | a wall of health `h` is destroyed after exactly `h` hits, and health never goes negative |
| Germs.KindName | core/src/com/mygdx/kaps/level/gridobject/Germ.java:41-44 | a kind prints as its constant name in lower case (Germs.KindNames) |
| Germs.Symbol | core/src/com/mygdx/kaps/level/gridobject/Germ.java:62-69 | the symbol of a supplier is the first character of its constant name, B, W, X, Y, T or V; each symbol builds its own germ (Germs.BuildsBySymbol) |
| WallGerms.WallGerm.constructor | core/src/com/mygdx/kaps/level/gridobject/WallGerm.java:14-19 | a wall of health 1..4 is a WALL germ of mana 3 and score 40, its health gauge holding the health out of 4, not destroyed |
| WallGerms.WallGerm.Full | core/src/com/mygdx/kaps/level/gridobject/WallGerm.java:21-23 | `WallGerm(color)` starts with a full gauge of 4 |
| WallGerms.WallGerm.New | core/src/com/mygdx/kaps/level/gridobject/WallGerm.java:14-19 | construction succeeds iff 0 < health <= 4, else fails with `Invalid health: <h> / 4` |
| WallGerms.WallGerm.GetScore | core/src/com/mygdx/kaps/level/gridobject/WallGerm.java:25-28 | a destroyed wall scores its stored 40, a standing one 10 |
| WallGerms.WallGerm.TakeHit | core/src/com/mygdx/kaps/level/gridobject/WallGerm.java:45-51 | health takes one guarded step down, stays in range, and a destroyed wall stays destroyed |
| WallGerms.WallGerm.IsDestroyed | core/src/com/mygdx/kaps/level/gridobject/WallGerm.java:45-47 | a wall is destroyed once its health gauge is empty |
| CooldownGerms.CooldownGerm.constructor | core/src/com/mygdx/kaps/level/gridobject/CooldownGerm.java:15-18 | the cooldown gauge starts full at the kind's cooldown, not attacking, with no queued attack |
| CooldownGerms.CooldownGerm.VirusGerm | core/src/com/mygdx/kaps/level/gridobject/CooldownGerm.java:71-75 | a virus germ has mana 3, score 30 and a cooldown of 8 |
| CooldownGerms.CooldownGerm.ThornGerm | core/src/com/mygdx/kaps/level/gridobject/CooldownGerm.java:77-81 | a thorn germ has mana 3, score 35 and a cooldown of 5 |
| CooldownGerms.CooldownGerm.StartAttacking | core/src/com/mygdx/kaps/level/gridobject/CooldownGerm.java:45-47 | the attacking flag is set |
| CooldownGerms.CooldownGerm.StopAttacking | core/src/com/mygdx/kaps/level/gridobject/CooldownGerm.java:49-51 | the attacking flag is cleared |
| CooldownGerms.CooldownGerm.DecreaseCooldown | core/src/com/mygdx/kaps/level/gridobject/CooldownGerm.java:53-55 | the cooldown takes one guarded step down and never goes below 0 |
| CooldownGerms.CooldownGerm.Trigger | core/src/com/mygdx/kaps/level/gridobject/CooldownGerm.java:57-60 | exactly one attack of the germ's kind is queued and the cooldown is refilled |
| CooldownGerms.ReadyAfterExactlyCooldownTurns | core/src/com/mygdx/kaps/level/gridobject/CooldownGerm.java:33-55 | a germ becomes ready after exactly its kind's cooldown in turns |
| CooldownGerms.CooldownGermOfKind | core/src/com/mygdx/kaps/level/gridobject/Germ.java:102-110 | a fresh cooldown germ of the kind and colour iff the kind is VIRUS or THORN, else the exception's message |
| CooldownGerms.CooldownGerm.IsReady | core/src/com/mygdx/kaps/level/gridobject/CooldownGerm.java:33-35 | a cooldown germ is ready once its cooldown gauge is empty |
| CapsuleParts.Applied | core/src/com/mygdx/kaps/level/gridobject/CapsulePart.java:58-109 | each part action keeps colour and orientation; `initDropping` sets and `freeze` clears the dropping flag without moving, the moves keep it |
| CapsuleParts.MovesUndo | core/src/com/mygdx/kaps/level/gridobject/CapsulePart.java:95-109 | moving left undoes moving right and back, and dipping lowers by one row |
| CapsuleParts.CapsulePart.constructor | core/src/com/mygdx/kaps/level/gridobject/CapsulePart.java:19-24 | a new unlinked part keeps a copy of the coordinates and the colour, with the board defaults, not dropping |
| CapsuleParts.CapsulePart.View | core/src/com/mygdx/kaps/level/gridobject/CapsulePart.java:44-46 | an unlinked part always faces NONE |
| CapsuleParts.CapsulePart.Copy | core/src/com/mygdx/kaps/level/gridobject/CapsulePart.java:26-28 | an independent part at the same place with the same colour |
| CapsuleParts.CapsulePart.InitDropping | core/src/com/mygdx/kaps/level/gridobject/CapsulePart.java:58-60 | the part is dropping |
| CapsuleParts.CapsulePart.Freeze | core/src/com/mygdx/kaps/level/gridobject/CapsulePart.java:62-64 | the part is no longer dropping |
| CapsuleParts.CapsulePart.MoveTowards | core/src/com/mygdx/kaps/level/gridobject/CapsulePart.java:95-97 | the part moves by the orientation's direction vector |
| CapsuleParts.CapsulePart.MoveLeft | core/src/com/mygdx/kaps/level/gridobject/CapsulePart.java:99-101 | the part moves by (-1, 0) |
| CapsuleParts.CapsulePart.MoveRight | core/src/com/mygdx/kaps/level/gridobject/CapsulePart.java:103-105 | the part moves by (1, 0) |
| CapsuleParts.CapsulePart.Dip | core/src/com/mygdx/kaps/level/gridobject/CapsulePart.java:107-109 | the part moves by (0, -1) |
| CapsuleParts.CapsulePart.Dipped | core/src/com/mygdx/kaps/level/gridobject/CapsulePart.java:111-115 | a fresh copy one row lower, the part itself unmoved |
| CapsuleParts.CapsulePart.Apply | core/src/com/mygdx/kaps/level/gridobject/CapsulePart.java:58-109 | running a part action changes the part as `Applied` says |
| CapsuleParts.CapsulePart.ApplyToBoth | core/src/com/mygdx/kaps/level/gridobject/CapsulePart.java:86-88 | an unlinked part applies the action to itself only |
| CapsuleParts.CapsulePart.Verify | core/src/com/mygdx/kaps/level/gridobject/CapsulePart.java:78-80 | an unlinked part tests the condition on itself alone |
| CapsuleParts.CapsulePart.VerticalVerify | core/src/com/mygdx/kaps/level/gridobject/CapsulePart.java:82-84 | an unlinked part tests the condition on itself alone, whatever its side |
| LinkedCapsuleParts.FacingPos | core/src/com/mygdx/kaps/level/gridobject/LinkedCapsulePart.java:73-75 | the tile a half faces away from is its place minus its direction vector |
| LinkedCapsuleParts.FacingIsSymmetric | core/src/com/mygdx/kaps/level/gridobject/LinkedCapsulePart.java:73-80 | the partner of the partner is back on the first half's tile, facing the first half's side |
| LinkedCapsuleParts.LinkedCapsulePart.constructor | core/src/com/mygdx/kaps/level/gridobject/LinkedCapsulePart.java:18-29 | a new half at the coordinates in the colour, not dropping, facing NONE, with no partner |
| LinkedCapsuleParts.LinkedCapsulePart.WithOrientation | core/src/com/mygdx/kaps/level/gridobject/LinkedCapsulePart.java:31-34 | as the plain constructor, facing the given side |
| LinkedCapsuleParts.LinkedCapsulePart.Linking | core/src/com/mygdx/kaps/level/gridobject/LinkedCapsulePart.java:36-40 | the new half faces `side` itself (`linkTo` receives the opposite and reverses it), the link goes both ways, and the partner faces back from the adjacent tile |
| LinkedCapsuleParts.LinkedCapsulePart.View | core/src/com/mygdx/kaps/level/gridobject/LinkedCapsulePart.java:54-56 | a linked half shows its own orientation |
| LinkedCapsuleParts.LinkedCapsulePart.Linked | core/src/com/mygdx/kaps/level/gridobject/LinkedCapsulePart.java:50-52 | the partner when one is set; a half without a partner gives nothing, where `Optional.of` throws (see Left out) |
| LinkedCapsuleParts.LinkedCapsulePart.Copy | core/src/com/mygdx/kaps/level/gridobject/LinkedCapsulePart.java:42-44 | a fresh half with the same place, colour and side, and no partner |
| LinkedCapsuleParts.LinkedCapsulePart.CopyWithColor | core/src/com/mygdx/kaps/level/gridobject/LinkedCapsulePart.java:46-48 | as `copy`, in the given colour |
| LinkedCapsuleParts.LinkedCapsulePart.LinkTo | core/src/com/mygdx/kaps/level/gridobject/LinkedCapsulePart.java:62-67 | this half faces the opposite of `side`, the two are linked both ways, and the partner faces it from the adjacent tile |
| LinkedCapsuleParts.LinkedCapsulePart.UpdateLinked | core/src/com/mygdx/kaps/level/gridobject/LinkedCapsulePart.java:69-71 | the partner takes the opposite side on the tile this half faces away from; this half does not move |
| LinkedCapsuleParts.LinkedCapsulePart.Face | core/src/com/mygdx/kaps/level/gridobject/LinkedCapsulePart.java:77-80 | the half takes the side opposite to `caps` and the tile `caps` faces away from |
| LinkedCapsuleParts.LinkedCapsulePart.MoveForward | core/src/com/mygdx/kaps/level/gridobject/LinkedCapsulePart.java:82-84 | one step along the half's own direction vector |
| LinkedCapsuleParts.LinkedCapsulePart.Flip | core/src/com/mygdx/kaps/level/gridobject/LinkedCapsulePart.java:86-88 | the side turns a quarter and the half stays on its tile |
| LinkedCapsuleParts.LinkedCapsulePart.ApplyForEach | core/src/com/mygdx/kaps/level/gridobject/LinkedCapsulePart.java:102-105 | the first action acts on this half and the second on its partner |
| LinkedCapsuleParts.LinkedCapsulePart.ApplyToBoth | core/src/com/mygdx/kaps/level/gridobject/LinkedCapsulePart.java:107-109 | the one action acts on both halves |
| LinkedCapsuleParts.VerifyImpliesVerticalVerify | core/src/com/mygdx/kaps/level/gridobject/LinkedCapsulePart.java:90-100 | `verify` (both halves) implies `verticalVerify`, which implies `atLeastOneVerify` (either half) |
| LinkedCapsuleParts.LinkedCapsulePart.AtLeastOneVerify | core/src/com/mygdx/kaps/level/gridobject/LinkedCapsulePart.java:90-92 | the condition holds on this half or on its partner (LinkedCapsuleParts.VerifyImpliesVerticalVerify) |
| LinkedCapsuleParts.LinkedCapsulePart.Verify | core/src/com/mygdx/kaps/level/gridobject/LinkedCapsulePart.java:94-96 | the condition holds on both halves (LinkedCapsuleParts.VerifyImpliesVerticalVerify) |
| LinkedCapsuleParts.LinkedCapsulePart.VerticalVerify | core/src/com/mygdx/kaps/level/gridobject/LinkedCapsulePart.java:98-100 | a vertical half needs one half to pass, any other both (LinkedCapsuleParts.VerifyImpliesVerticalVerify) |
| LinkedCapsuleParts.Unlinked | core/src/com/mygdx/kaps/level/gridobject/CapsulePart.java:15-17 | an unlinked part built from a linked half takes its place and colour |
| Capsules.Moved | core/src/com/mygdx/kaps/level/gridobject/Capsule.java:102-125 | a move keeps both colours, only a flip turns the capsule, and a flip does not move the main half |
| Capsules.MovesKeepShape | core/src/com/mygdx/kaps/level/gridobject/Capsule.java:107-125 | the slave follows the main half: a dip lowers it, left and right shift it, left and right undo each other, four flips are the identity |
| Capsules.FlipTwiceMirrorsSlave | core/src/com/mygdx/kaps/level/gridobject/Capsule.java:111-113 | two flips turn the capsule to the opposite side and mirror the slave through the main half |
| Capsules.Capsule.constructor | core/src/com/mygdx/kaps/level/gridobject/Capsule.java:15-22 | a new capsule has its main half at the main coordinates facing the given side, the slave on the adjacent tile facing back, neither dropping, no preview |
| Capsules.Capsule.OfColors | core/src/com/mygdx/kaps/level/gridobject/Capsule.java:24-30 | built from one place, the main half faces LEFT and the slave sits one tile to its right |
| Capsules.Capsule.Copy | core/src/com/mygdx/kaps/level/gridobject/Capsule.java:45-47 | a fresh capsule in the same place, facing the same side, in the same colours, not dropping |
| Capsules.Capsule.ApplyForEach | core/src/com/mygdx/kaps/level/gridobject/Capsule.java:79-81 | the main action acts on the main half and the slave action on the slave |
| Capsules.Capsule.ApplyToBoth | core/src/com/mygdx/kaps/level/gridobject/Capsule.java:83-85 | the action acts on both halves, which stay adjacent |
| Capsules.Capsule.StartDropping | core/src/com/mygdx/kaps/level/gridobject/Capsule.java:87-90 | both halves drop, nothing moves, and the preview goes |
| Capsules.Capsule.Freeze | core/src/com/mygdx/kaps/level/gridobject/Capsule.java:92-95 | both halves stop dropping, nothing moves, and the preview goes |
| Capsules.Capsule.ClearPreview | core/src/com/mygdx/kaps/level/gridobject/Capsule.java:63-65 | the preview goes |
| Capsules.Capsule.Shift | core/src/com/mygdx/kaps/level/gridobject/Capsule.java:102-105 | the move acts on the main half and the slave is re-aligned, so the capsule stays valid and becomes `Moved(m, old)` |
| Capsules.Capsule.Dip | core/src/com/mygdx/kaps/level/gridobject/Capsule.java:107-109 | the capsule becomes its dip |
| Capsules.Capsule.Flip | core/src/com/mygdx/kaps/level/gridobject/Capsule.java:111-113 | the capsule becomes its flip |
| Capsules.Capsule.MoveLeft | core/src/com/mygdx/kaps/level/gridobject/Capsule.java:115-117 | the capsule moves one tile left |
| Capsules.Capsule.MoveRight | core/src/com/mygdx/kaps/level/gridobject/Capsule.java:119-121 | the capsule moves one tile right |
| Capsules.Capsule.MoveForward | core/src/com/mygdx/kaps/level/gridobject/Capsule.java:123-125 | the capsule moves one tile towards the main half's side |
| Capsules.Capsule.Shifted | core/src/com/mygdx/kaps/level/gridobject/Capsule.java:131-135 | a fresh moved copy; the capsule itself does not change |
| Capsules.Capsule.Dipped | core/src/com/mygdx/kaps/level/gridobject/Capsule.java:137-139 | a fresh copy one row lower |
| Capsules.Capsule.Flipped | core/src/com/mygdx/kaps/level/gridobject/Capsule.java:141-143 | a fresh flipped copy |
| Capsules.Capsule.MovedLeft | core/src/com/mygdx/kaps/level/gridobject/Capsule.java:145-147 | a fresh copy one tile left |
| Capsules.Capsule.MovedRight | core/src/com/mygdx/kaps/level/gridobject/Capsule.java:149-151 | a fresh copy one tile right |
| Capsules.Capsule.MovedBack | core/src/com/mygdx/kaps/level/gridobject/Capsule.java:153-155 | a fresh copy moved forward |
| Capsules.Capsule.LowestCopy | core/src/com/mygdx/kaps/level/gridobject/Capsule.java:59-60 | the dip loop ends, on a copy in the same column no higher than the capsule, whose next dip could not stand on the board |
| Capsules.Capsule.DipWhileStanding | core/src/com/mygdx/kaps/level/gridobject/Capsule.java:59-60 | the capsule dips while its next dip can stand on the board; it keeps its column and its link, ends no higher, and its next dip could not stand |
| Capsules.Capsule.UpdatePreview | core/src/com/mygdx/kaps/level/gridobject/Capsule.java:58-61 | the preview becomes that lowest copy and the capsule itself does not change |
| Capsules.CanStandInMeansCanStandAt | core/src/com/mygdx/kaps/level/gridobject/Capsule.java:67-69 | `canStandIn` holds iff both of the capsule's tiles are on the board and empty |
| Capsules.RandomNewInstance | core/src/com/mygdx/kaps/level/gridobject/Capsule.java:32-38 | a new capsule at the spawning place, in the two drawn colours, facing LEFT, not dropping |
| Capsules.RandomMonoColorInstance | core/src/com/mygdx/kaps/level/gridobject/Capsule.java:40-43 | both halves get the one drawn colour |
| Capsules.Capsule.CanStandIn | core/src/com/mygdx/kaps/level/gridobject/Capsule.java:67-69 | both halves can stand on the board: on it and on empty tiles |
| Capsules.Capsule.IsDropping | core/src/com/mygdx/kaps/level/gridobject/Capsule.java:71-73 | both halves are dropping |
| Capsules.Capsule.IsFrozen | core/src/com/mygdx/kaps/level/gridobject/Capsule.java:75-77 | neither half is dropping, so a frozen capsule is never a dropping one |
| Occupants.Occupant.IsDestroyed | core/src/com/mygdx/kaps/level/gridobject/WallGerm.java:45-47 | an object is destroyed iff it has no hit left: an empty health gauge for a wall, the `destroyed` flag of gridobject/GridObject.java:67-69 otherwise |
| Occupants.Occupant.IsGerm | core/src/com/mygdx/kaps/level/gridobject/GridObject.java:11-13 | false by default and true for every germ (gridobject/Germ.java:126-129); no germ is a capsule half |
| Occupants.Occupant.IsCapsule | core/src/com/mygdx/kaps/level/gridobject/GridObject.java:15-17 | false by default and true for capsule halves (gridobject/CapsulePart.java:48-51) |
| Occupants.Occupant.HasCooldown | core/src/com/mygdx/kaps/level/gridobject/Germ.java:122-124 | false for germs except cooldown germs (CooldownGerm.java:20-23), so an object with a cooldown is a germ |
| Occupants.Occupant.IsDropping | core/src/com/mygdx/kaps/level/gridobject/GridObject.java:19-21 | false by default and the dropping flag of capsule halves (gridobject/CapsulePart.java:53-56), so a dropping object is a capsule half |
| Occupants.Occupant.Score | core/src/com/mygdx/kaps/level/gridobject/GridObject.java:75-77 | the stored score, and for a wall its override (WallGerms.WallGerm.GetScore) |
| Occupants.Occupant.Partner | core/src/com/mygdx/kaps/level/gridobject/CapsulePart.java:40-42 | nothing for an unlinked part, the partner of a linked half (LinkedCapsulePart.java:50-52); only a capsule half has a partner |
| Occupants.TakeHit | core/src/com/mygdx/kaps/level/gridobject/GridObject.java:79-81 | the overridden `takeHit` (WallGerm.java:49-51 for walls) takes one guarded step down of the hits left, keeps the colour, and never restores a destroyed object |
| Occupants.DestroyedAfterHits | core/src/com/mygdx/kaps/level/Grid.java:244-247 | an object with `s` hits left is destroyed after exactly `s` hits |
| Occupants.GermOfSymbol | core/src/com/mygdx/kaps/level/gridobject/Germ.java:98-100 | a symbol of B, W, X, Y, T, V gives a fresh germ of its supplier's kind (a wall with the symbol's health) at (0,0), not destroyed; any other symbol gives the exception's message |
| Occupants.GermOfSpec | core/src/com/mygdx/kaps/level/gridobject/Germ.java:64-69 | a supplier's constructor gives a fresh germ of the supplier's kind in the given colour at (0,0), not destroyed, and a wall carries the supplier's health |
| Grids.Row.constructor | core/src/com/mygdx/kaps/level/Grid.java:17-22 | the row holds the given tiles |
| Grids.Row.New | core/src/com/mygdx/kaps/level/Grid.java:17-22 | `Row(List)` succeeds iff the list is not empty, else fails with `Rows can't be empty.` |
| Grids.Row.OfLength | core/src/com/mygdx/kaps/level/Grid.java:24-26 | `Row(length)` gives `length` empty tiles, and refuses a length of 0 or less as an empty list |
| Grids.Row.Set | core/src/com/mygdx/kaps/level/Grid.java:44-46 | only tile `n` changes, to the object |
| Grids.Row.Clear | core/src/com/mygdx/kaps/level/Grid.java:40-42 | only tile `n` changes, to empty |
| Grids.Reversed | core/src/com/mygdx/kaps/level/Grid.java:158 | `Collections.reverse`: element `i` of the result is element `n-1-i` of the list |
| Grids.ColumnTiles | core/src/com/mygdx/kaps/level/Grid.java:194-195 | the tiles of one column, bottom to top |
| Grids.EveryTile | core/src/com/mygdx/kaps/level/Grid.java:192-198 | `w*h` tiles, all on the board, the `i`-th being column `i / h`, row `i % h` (x-major order) |
| Grids.EveryTileCovers | core/src/com/mygdx/kaps/level/Grid.java:192-198 | every tile of the board is listed |
| Grids.EveryTileOnce | core/src/com/mygdx/kaps/level/Grid.java:192-198 | no tile is listed twice |
| Grids.ReversedCoordinates | core/src/com/mygdx/kaps/level/Grid.java:158 | reversing the rows keeps the same coordinates objects |
| Grids.ReversedUnshared | core/src/com/mygdx/kaps/level/Grid.java:158 | reversing the rows keeps the objects' coordinates apart |
| Grids.Grid.constructor | core/src/com/mygdx/kaps/level/Grid.java:150-161 | the board holds the given rows |
| Grids.Grid.New | core/src/com/mygdx/kaps/level/Grid.java:150-161 | refuses fewer than 2 rows, then a first row narrower than 2, then rows of different widths, in that order; otherwise the rows are reversed and every object's coordinates become those of its tile |
| Grids.Grid.OfSize | core/src/com/mygdx/kaps/level/Grid.java:144-148 | `Grid(columns, rows)` is an empty board of that size iff both are at least 2, with the error of the first failing check otherwise |
| Grids.Grid.StampCoordinates | core/src/com/mygdx/kaps/level/Grid.java:160 | the constructor's pass sets each object's coordinates to its tile's, through `forEachTile` (Grid.java:263-265) |
| Grids.StampEach | core/src/com/mygdx/kaps/level/Grid.java:160 | each listed object, on distinct coordinates objects, is moved to the position listed with it |
| Grids.Grid.SetTile | core/src/com/mygdx/kaps/level/Grid.java:223-225 | only the tile at the coordinates changes, to the object |
| Grids.Grid.ClearTile | core/src/com/mygdx/kaps/level/Grid.java:229 | only the tile at the coordinates changes, to empty |
| Grids.Grid.Put | core/src/com/mygdx/kaps/level/Grid.java:232-234 | the object goes to its own tile, which can then take no other; no other tile changes |
| Grids.Grid.Detach | core/src/com/mygdx/kaps/level/Grid.java:251-257 | a linked half's partner tile gets an unlinked part with the partner's place and colour; for any other tile nothing changes |
| Grids.Grid.Clear | core/src/com/mygdx/kaps/level/Grid.java:227-230 | the tile ends empty, the partner of a linked half is replaced by an unlinked part, and no other tile changes |
| Grids.Grid.Replace | core/src/com/mygdx/kaps/level/Grid.java:236-240 | the new object takes the old one's coordinates and tile after the detach, and no other tile changes |
| Grids.Grid.HitOnce | core/src/com/mygdx/kaps/level/Grid.java:244-247 | one round of the damage loop: the object takes a hit, and its tile is cleared iff it is now destroyed |
| Grids.Grid.Hit | core/src/com/mygdx/kaps/level/Grid.java:242-249 | returns the tile's content; an empty tile changes nothing; otherwise the object takes `damage` guarded hits, and its tile is cleared iff it ends destroyed, the rest of the board unchanged except for the detached partner |
| Grids.Grid.StackHoldsTiles | core/src/com/mygdx/kaps/level/Grid.java:200-205 | `stack()` holds the object of every occupied tile |
| Grids.Grid.Repaint | core/src/com/mygdx/kaps/level/Grid.java:259-261 | the object on `obj`'s tile, if any, takes the colour |
| Grids.Grid.InBounds | core/src/com/mygdx/kaps/level/Grid.java:172-178 | a position is on the board when 0 <= x < width and 0 <= y < height |
| Grids.Grid.Width | core/src/com/mygdx/kaps/level/Grid.java:164-166 | the width of the first row, which every row shares on a valid board (Grids.Grid.New, Grids.EveryTile) |
| Grids.Grid.Height | core/src/com/mygdx/kaps/level/Grid.java:168-170 | the number of rows (Grids.Grid.New, Grids.EveryTile) |
| Grids.Grid.Get | core/src/com/mygdx/kaps/level/Grid.java:184-190 | the tile's content on the board and nothing off it; every occupied tile's object is in the stack (Grids.Grid.StackHoldsTiles) |
| Grids.Grid.CanStandIn | core/src/com/mygdx/kaps/level/gridobject/CapsulePart.java:66-76 | a half can stand on a position that is on the board and empty |
| Grids.Grid.CanBePut | core/src/com/mygdx/kaps/level/Grid.java:180-182 | an object can be put when its own tile is on the board and empty |
| Grids.Grid.Stack | core/src/com/mygdx/kaps/level/Grid.java:200-205 | the set of objects on the occupied tiles (Grids.Grid.StackHoldsTiles) |
| Matches.SingleColor | core/src/com/mygdx/kaps/level/Grid.java:101 | `map(color).distinct().count() == 1` holds iff the set is not empty and all its objects share one colour |
| Matches.WindowOnBoard | core/src/com/mygdx/kaps/level/Grid.java:117-122 | a pattern window holds only objects on the board |
| Matches.Window | core/src/com/mygdx/kaps/level/Grid.java:117-122 | the objects on the tiles at the pattern's offsets from an anchor; only objects on the board (Matches.WindowOnBoard), no more than the stack (Matches.SubsetSize) |
| Matches.MatchesOnBoard | core/src/com/mygdx/kaps/level/Grid.java:113-127 | `matchesFoundIn` reports only objects on the board |
| Matches.MatchedExactly | core/src/com/mygdx/kaps/level/Grid.java:100-127 | an object is reported iff some non-dropping object's window holds it, has at least the pattern's size in objects (identity included: 9 for the square, 4 for a row or a column), and is of one colour |
| Matches.DistinctElements | core/src/com/mygdx/kaps/level/Grid.java:117-122 | a list of distinct objects collects into a set of the same size |
| Matches.FullWindowIsFound | core/src/com/mygdx/kaps/level/Grid.java:113-127 | a window whose every tile holds a distinct object of the anchor's colour is a match, and all its objects are reported |
| Matches.FewObjectsNeverMatch | core/src/com/mygdx/kaps/level/Grid.java:100-102 | a board with fewer objects than a pattern's size matches nothing for it |
| Matches.SubsetSize | core/src/com/mygdx/kaps/level/Grid.java:100-102 | a window is no larger than the board's stack |
| Matches.AllMatchesGroupByColor | core/src/com/mygdx/kaps/level/Grid.java:129-138 | `allMatchesFoundIn` has one non-empty group per colour, holding exactly the reported objects of that colour |
| Matches.FoundWindowsRefusedAsWritten | core/src/com/mygdx/kaps/level/Grid.java:55-63 | as written, `new Match` throws for every window the patterns report |
| Matches.AsWrittenOnlyClassic | core/src/com/mygdx/kaps/level/Grid.java:61-67 | as written, a match that can be built is always in the CLASSIC tier |
| Matches.PatternTiers | core/src/com/mygdx/kaps/level/Grid.java:51-67 | with the corrected check, every reported window is a valid match; a full row or column is CLASSIC and a full square is HUGE |
| Matches.MatchesFoundIn | core/src/com/mygdx/kaps/level/Grid.java:113-127 | the union of the pattern windows, anchored on non-dropping objects of the stack, that match; Matches.MatchedExactly and Matches.FullWindowIsFound state what it holds |
| Matches.IsMatch | core/src/com/mygdx/kaps/level/Grid.java:100-102 | a window matches iff it holds at least the pattern's size of objects, all of one colour; one colour means non-empty and shared (Matches.SingleColor) |
| Matches.AllMatchesFoundIn | core/src/com/mygdx/kaps/level/Grid.java:129-138 | the objects the three patterns report, grouped by colour (Matches.AllMatchesGroupByColor) |
| Matches.IsValidAsWritten | core/src/com/mygdx/kaps/level/Grid.java:61-63 | as written, a match is valid with fewer than four objects of one colour (see Findings) |
| Matches.IsValidMatch | core/src/com/mygdx/kaps/level/Grid.java:61-63 | the intended check: at least four objects, of one colour |
| Matches.NewMatchAsWritten | core/src/com/mygdx/kaps/level/Grid.java:55-59 | `new Match` as written, refusing every window the patterns report (Matches.FoundWindowsRefusedAsWritten) |
| Matches.NewMatch | core/src/com/mygdx/kaps/level/Grid.java:55-59 | `new Match` with the intended check, accepting every reported window (Matches.PatternTiers) |
| Matches.DependingOnSize | core/src/com/mygdx/kaps/level/Grid.java:65-67 | HUGE from nine objects, BIG from five, CLASSIC below (Matches.PatternTiers) |
| Recolor.RoleNamed | android/assets/sprites/recolor.py:42-49 | a key names a role only when it is that role's dictionary key |
| Recolor.RoleNamesRoundTrip | android/assets/sprites/recolor.py:42-49 | every role's key names that role back, and a key naming no role is no role's key |
| Recolor.EveryRoleHasAColor | android/assets/sprites/recolor.py:42-49 | the dictionary built from a base colour has an entry for each of the seven roles |
| Recolor.EveryRoleIsListed | android/assets/sprites/recolor.py:42-49 | the insertion order lists all seven roles |
| Recolor.ColorSet.Keys | android/assets/sprites/recolor.py:63-64 | iterating a set yields one key per entry of its insertion order |
| Recolor.ColorSet.Color | android/assets/sprites/recolor.py:60-61 | `color(key)` succeeds iff the key names a role present in the dictionary, gives that role's colour, and otherwise fails with a KeyError on that key |
| Recolor.NewColorSet | android/assets/sprites/recolor.py:31-52 | the constructor's check, seven insertions and alpha loop produce exactly `ColorSetOf(rgb, code)` |
| Recolor.ColorSetFailsIffChannelOutOfRange | android/assets/sprites/recolor.py:37-40 | construction fails, with exit status 1, iff some base channel lies outside [20, 235] |
| Recolor.RgbValid | android/assets/sprites/recolor.py:37-40 | every base channel lies in [20, 235]; construction fails exactly when one does not (Recolor.ColorSetFailsIffChannelOutOfRange, Recolor.PaletteIsValid) |
| Recolor.ConstructedSetIsWellFormed | android/assets/sprites/recolor.py:42-52 | a constructed set iterates over the seven role names in insertion order, each key once |
| Recolor.ColorOfRole | android/assets/sprites/recolor.py:42-52 | looking up a role's name gives that role's derived colour followed by an opaque alpha |
| Recolor.RolesOfValidBase | android/assets/sprites/recolor.py:42-52 | the seven derived colours: principal and flash outline are the base, outline -20, shade -10, mouth halved, flash filling +20, flash shade +10, all with alpha 255; the set keeps its base and code |
| Recolor.RoleColors | android/assets/sprites/recolor.py:42-49 | the seven derived colours before the alpha loop (Recolor.RolesOfValidBase) |
| Recolor.WithAlpha | android/assets/sprites/recolor.py:51-52 | every entry gains an opaque alpha of 255 (Recolor.RolesOfValidBase, Recolor.ColorOfRole) |
| Recolor.OtherKeysFail | android/assets/sprites/recolor.py:60-61 | a key naming no role is a KeyError on a constructed set |
| Recolor.RoleChannelsAreBytesIffValid | android/assets/sprites/recolor.py:37-49 | every derived channel is a byte exactly when the base passes the [20, 235] check |
| Recolor.ConstructedSetsCanRecolor | android/assets/sprites/recolor.py:98-104 | any two constructed sets can look up every key of the first in both, so `replace_colors` raises no KeyError |
| Recolor.HexDigits | android/assets/sprites/recolor.py:67-69 | the hexadecimal rendering of a number has at least one digit |
| Recolor.ParseHex | android/assets/sprites/recolor.py:76 | `int(s, 16)` fails only with the message "invalid literal for int() with base 16: " followed by the `repr` of the argument, cut after 200 characters as `%.200R` cuts it (Recolor.InvalidLiteral) |
| Recolor.InvalidLiteral | android/assets/sprites/recolor.py:76 | the message is the prefix followed by the argument's `repr`, of which it shows at most the first 200 characters |
| Recolor.ShortLiteralQuotedWhole | android/assets/sprites/recolor.py:76 | a literal whose `repr` has at most 200 characters is quoted whole, closing quote included |
| Recolor.LongLiteralCut | android/assets/sprites/recolor.py:76 | a plain literal of 200 characters or more shows only the opening quote and its first 199 characters, with no closing quote |
| Recolor.Trim | android/assets/sprites/recolor.py:76 | the blanks `int()` skips are removed from both ends, leaving no more characters than before |
| Recolor.TrimBlanks | android/assets/sprites/recolor.py:76 | a string of blanks only is trimmed to nothing |
| Recolor.TrimmedAlready | android/assets/sprites/recolor.py:76 | a non-empty string with no blank at either end is its own trimmed form |
| Recolor.GroupedValueIffWellGrouped | android/assets/sprites/recolor.py:76 | a digit string is read exactly when it is non-empty, made of hex digits and underscores, with no underscore first, last or doubled |
| Recolor.GroupedValueIsDigits | android/assets/sprites/recolor.py:76 | a well-grouped digit string is worth the positional value of its digits once the underscores are dropped |
| Recolor.DigitsAreHex | android/assets/sprites/recolor.py:76 | the digits of a well-grouped string, underscores dropped, are all hexadecimal digits |
| Recolor.GroupedPrefix | android/assets/sprites/recolor.py:76 | a string ending in a digit is well grouped iff what is left without that digit, and without the underscore before it if any, is non-empty and well grouped |
| Recolor.DigitsOfPrefix | android/assets/sprites/recolor.py:76 | the digits of a string ending in a digit are those of the rest, as in Recolor.GroupedPrefix, followed by that digit |
| Recolor.Repr | android/assets/sprites/recolor.py:76 | `repr` of a string is quoted at both ends with the same quote, and no shorter than the string plus its quotes |
| Recolor.ReprOfPlain | android/assets/sprites/recolor.py:76 | `repr` of printable ASCII text without quote or backslash is that text between single quotes |
| Recolor.ParseHexIgnoresBlanks | android/assets/sprites/recolor.py:76 | blanks added before or after a literal change neither whether `int(s, 16)` succeeds nor its value |
| Recolor.SignedLiteral | android/assets/sprites/recolor.py:76 | a '-' before a readable literal negates its value and a '+' keeps it |
| Recolor.PlainLiteral | android/assets/sprites/recolor.py:76 | a well-grouped digit string reads as the value of its digits |
| Recolor.PrefixedLiteral | android/assets/sprites/recolor.py:76 | before a well-grouped digit string, a `0x` prefix does not change the value read |
| Recolor.PrefixedUnderscoreLiteral | android/assets/sprites/recolor.py:76 | before a well-grouped digit string, a `0X_` prefix, the prefix followed by one underscore, does not change the value read |
| Recolor.RefusedEmptyLiterals | android/assets/sprites/recolor.py:76 | every string of blanks only, the empty string included, is refused with the message naming it, and so is a bare `0x` |
| Recolor.RefusedMisplacedLiterals | android/assets/sprites/recolor.py:76 | examples: "_f" (a leading underscore), "f_" (a trailing one) and "- f" (a blank between the sign and the digits) are refused |
| Recolor.LStrip | android/assets/sprites/recolor.py:72-76 | `lstrip` returns a suffix of its input that does not start with the stripped character |
| Recolor.Hex02OfByte | android/assets/sprites/recolor.py:67-69 | `'%02x'` of a byte is its two hexadecimal digits |
| Recolor.Hex02 | android/assets/sprites/recolor.py:69 | `'%02x'`: at least two characters, and exactly a byte's two hexadecimal digits for a byte (Recolor.Hex02OfByte, Recolor.HexRoundTrip) |
| Recolor.ParseTwoHexDigits | android/assets/sprites/recolor.py:72-76 | parsing two hexadecimal digits gives their value |
| Recolor.StripOneHash | android/assets/sprites/recolor.py:72-76 | stripping '#' from "#" + digits gives the digits back |
| Recolor.CutIntoThirds | android/assets/sprites/recolor.py:76 | three chunks of one length are cut apart again by the chunking of `hex_to_rgb` |
| Recolor.Chunks | android/assets/sprites/recolor.py:76 | the slices `v[i:i + step]`, the last one possibly shorter; three equal thirds are cut apart again (Recolor.CutIntoThirds) |
| Recolor.ParseAllCons | android/assets/sprites/recolor.py:72-76 | parsing a list of chunks parses its head and then its tail |
| Recolor.ParseThree | android/assets/sprites/recolor.py:72-76 | three parseable chunks give their three values |
| Recolor.HexRoundTrip | android/assets/sprites/recolor.py:67-76 | `hex_to_rgb(rgb_to_hexa(c))` gives back the first three channels of a byte colour with an opaque alpha |
| Recolor.DecodeThirds | android/assets/sprites/recolor.py:72-76 | three readable chunks of one length, after one '#' or none, decode to their three values followed by an opaque alpha |
| Recolor.PlusSignedChannels | android/assets/sprites/recolor.py:72-76 | `hex_to_rgb("+ff+ff+ff")` is (255, 255, 255, 255): a chunk may carry a sign |
| Recolor.MinusSignedChannels | android/assets/sprites/recolor.py:72-76 | `hex_to_rgb("#-0f-0f-0f")` is (-15, -15, -15, 255): a negative channel is passed on |
| Recolor.HexToRgb | android/assets/sprites/recolor.py:72-76 | fewer than three characters after the '#'s fail with `range()`'s zero-step error; any other failure is `int()`'s refusal of one of the chunks; a success ends with the opaque alpha |
| Recolor.ParseAll | android/assets/sprites/recolor.py:76 | parsing the chunks succeeds with one value per chunk, or fails with `int()`'s refusal of one of them |
| Recolor.RgbToHexa | android/assets/sprites/recolor.py:67-69 | the code is a '#' followed by at least two characters per channel; Recolor.HexRoundTrip states that it decodes back |
| Recolor.RenamedSegments | android/assets/sprites/recolor.py:90-95 | renaming keeps the number of path segments |
| Recolor.RenamedSegment | android/assets/sprites/recolor.py:93 | a segment containing "color" becomes the folder name, any other is kept (Recolor.NewPathRewritesSegments) |
| Recolor.FolderNameShape | android/assets/sprites/recolor.py:54-55 | a folder name contains "color" and no '/' |
| Recolor.NewPathSegments | android/assets/sprites/recolor.py:90-95 | the segments of the new path are the renamed segments of the old one |
| Recolor.NewPathRewritesSegments | android/assets/sprites/recolor.py:90-95 | `new_path` keeps the number of segments, keeps those without "color" and replaces the others by the folder name |
| Recolor.NewPathOverwrites | android/assets/sprites/recolor.py:90-95 | rewriting towards one set and then another equals rewriting towards the second; `new_path` is idempotent |
| Recolor.SelectedIffFolderEndsRoot | android/assets/sprites/recolor.py:84 | for a root holding the folder name once, after a non-empty prefix, the split gives the two sides, and the root is selected iff the folder name ends it |
| Recolor.Selected | android/assets/sprites/recolor.py:84 | a root is walked iff splitting it on the folder name yields an empty piece (Recolor.SelectedIffFolderEndsRoot) |
| Recolor.Slashed | android/assets/sprites/recolor.py:86 | replacing backslashes keeps the length and leaves no backslash |
| Recolor.SelectedPathsMembership | android/assets/sprites/recolor.py:79-87 | a path is collected iff it is the joined path of a file of a selected root |
| Recolor.PathJoin | android/assets/sprites/recolor.py:86 | `os.path.join` on POSIX: an absolute file replaces the root, otherwise the two are joined by one '/' (Recolor.SelectedPathsMembership) |
| Recolor.AllPathsOfSet | android/assets/sprites/recolor.py:79-87 | the walk loop collects exactly `SelectedPaths` for the set's (non-empty) folder name |
| Recolor.ReplacePixel | android/assets/sprites/recolor.py:102-104 | the key loop leaves the pixel at `ReplacedPixel` of its old value and changes no other pixel |
| Recolor.ReplaceColors | android/assets/sprites/recolor.py:98-104 | every pixel of the 64 x 64 corner becomes `ReplacedPixel` of its old value; every other pixel is unchanged |
| Recolor.UnmatchedPixelUnchanged | android/assets/sprites/recolor.py:102-104 | a pixel matching no colour of the first set is left as it is |
| Recolor.SameColorsChangeNothing | android/assets/sprites/recolor.py:102-104 | recolouring between sets with the same colours changes no pixel |
| Recolor.SameBaseSameColors | android/assets/sprites/recolor.py:31-52 | two sets built from the same base have the same colours whatever their codes |
| Recolor.FirstMatch | android/assets/sprites/recolor.py:102-104 | finds the first key, from a position on, whose colour is the pixel, or reports that none is |
| Recolor.ReplacedPixelOnce | android/assets/sprites/recolor.py:98-104 | the intended recolouring: a pixel matching no role is unchanged, and one whose first matching key is k takes the second set's colour for k |
| Recolor.ReplacementChains | android/assets/sprites/recolor.py:102-104 | with bases (100, 100, 100) and (110, 110, 110) the loop as written turns a principal pixel into (120, 120, 120, 255), while the intended recolouring gives (110, 110, 110, 255) |
| Recolor.PrincipalStep | android/assets/sprites/recolor.py:102-104 | the principal key turns the principal pixel into the second set's principal, which the intended recolouring keeps |
| Recolor.ChainAfterPrincipal | android/assets/sprites/recolor.py:102-104 | after the principal key, the later keys carry the pixel on to the second set's flash shade |
| Recolor.PaletteIsValid | android/assets/sprites/recolor.py:5-27 | every palette entry passes the channel check |
| Recolor.ScriptSetsSelection | android/assets/sprites/recolor.py:132-135 | the script builds the default set with code 1 and the palette entries from index 12 on with codes 13 onwards |
| Recolor.ColorSet.FolderName | android/assets/sprites/recolor.py:54-55 | "color" followed by the code in decimal; it contains "color" and no '/' (Recolor.FolderNameShape) |
| Recolor.ColorSet.CodeStr | android/assets/sprites/recolor.py:57-58 | the code in decimal |
| Recolor.ColorSetOf | android/assets/sprites/recolor.py:31-52 | the set a base and code build, or exit status 1 (Recolor.ColorSetFailsIffChannelOutOfRange, Recolor.RolesOfValidBase) |
| Recolor.NewPath | android/assets/sprites/recolor.py:90-95 | the path with every segment containing "color" replaced by the folder name (Recolor.NewPathRewritesSegments) |
| Recolor.SelectedPaths | android/assets/sprites/recolor.py:79-87 | the paths of the files of the roots the folder name selects, in walk order (Recolor.SelectedPathsMembership) |
| Recolor.ReplacedFrom | android/assets/sprites/recolor.py:102-104 | the pixel after the keys of `set1` from the k-th on, each compared with the value the previous keys left |
| Recolor.ReplacedPixel | android/assets/sprites/recolor.py:102-104 | the pixel after the whole key loop (Recolor.ReplacementChains, Recolor.UnmatchedPixelUnchanged) |
| Recolor.ScriptSets | android/assets/sprites/recolor.py:132-135 | the default set and the output sets the script builds (Recolor.ScriptSetsSelection) |
| LevelGridObjects.GridObject.constructor | core/src/com/mygdx/kaps/level/GridObject.java:24-27 | the object holds a fresh copy of the given coordinates (same value, different object), keeps the colour and is not destroyed |
| LevelGridObjects.GridObject.TakeHit | core/src/com/mygdx/kaps/level/GridObject.java:46-48 | after one hit the object is destroyed |
| LevelGridObjects.GridObject.IsDestroyed | core/src/com/mygdx/kaps/level/GridObject.java:42-44 | the destroyed flag, which one hit sets (LevelGridObjects.GridObject.TakeHit) |
| LevelGerms.Germ.constructor | core/src/com/mygdx/kaps/level/Germ.java:60-69 | `Germ(color, kind)`: a fresh, undestroyed germ of that colour and kind at (0, 0) |
| LevelGerms.WallGerm.constructor | core/src/com/mygdx/kaps/level/Germ.java:107-118 | a wall germ with health in 1..4 is a fresh BASIC germ at (0, 0) of that colour, holding that health, not destroyed |
| LevelGerms.WallGerm.Full | core/src/com/mygdx/kaps/level/Germ.java:120-122 | `WallGerm(color)` starts at the maximum health 4 |
| LevelGerms.WallGerm.New | core/src/com/mygdx/kaps/level/Germ.java:107-118 | construction succeeds iff 0 < health <= 4; otherwise it fails with "Invalid health: <health> / 4" |
| LevelGerms.WallGerm.TakeHit | core/src/com/mygdx/kaps/level/Germ.java:129-135 | a hit lowers a positive health by one and leaves a non-positive one alone; the wall is destroyed after the hit iff its health was at most 1 |
| LevelGerms.WallGerm.IsDestroyed | core/src/com/mygdx/kaps/level/Germ.java:129-131 | a wall is destroyed once its health is at most 0 |
| LevelGerms.ConstructedKind | core/src/com/mygdx/kaps/level/Germ.java:34-41 | the kind a supplier's germ carries is BASIC exactly for B and for the three wall suppliers, otherwise the supplier's own kind |
| LevelGerms.OfSymbol | core/src/com/mygdx/kaps/level/Germ.java:49-55 | `ofSymbol` succeeds iff the symbol is one of B, W, X, Y, T, V, giving a fresh undestroyed germ of the drawn colour at (0, 0) (a wall with the supplier's health for W, X, Y); any other symbol fails with "Couldn't resolve germ with symbol: <symbol>" |
| LevelCapsuleParts.CapsulePart.constructor | core/src/com/mygdx/kaps/level/CapsulePart.java:13-23 | the half sits on (a copy of) the given coordinates with the given colour and side, not destroyed |
| LevelCapsuleParts.CapsulePart.Copy | core/src/com/mygdx/kaps/level/CapsulePart.java:25-27 | the copy is a fresh half with the same place, colour and side |
| LevelCapsuleParts.CapsulePart.CanStandIn | core/src/com/mygdx/kaps/level/CapsulePart.java:49-51 | the half is on the board and its tile holds no object |
| LevelCapsuleParts.CapsulePart.FacingPos | core/src/com/mygdx/kaps/level/CapsulePart.java:37-39 | the tile facing the half is its position plus the opposite vector of its side, the same rule as the linked halves |
| LevelCapsuleParts.CapsulePart.MoveTowards | core/src/com/mygdx/kaps/level/CapsulePart.java:58-60 | the half moves by the direction vector of the given orientation |
| LevelCapsuleParts.CapsulePart.MoveForward | core/src/com/mygdx/kaps/level/CapsulePart.java:62-64 | the half moves one step towards the side it faces |
| LevelCapsuleParts.CapsulePart.MoveLeft | core/src/com/mygdx/kaps/level/CapsulePart.java:66-68 | x decreases by one, y is unchanged |
| LevelCapsuleParts.CapsulePart.MoveRight | core/src/com/mygdx/kaps/level/CapsulePart.java:70-72 | x increases by one, y is unchanged |
| LevelCapsuleParts.CapsulePart.Dip | core/src/com/mygdx/kaps/level/CapsulePart.java:74-76 | y decreases by one, x is unchanged |
| LevelCapsuleParts.CapsulePart.Flip | core/src/com/mygdx/kaps/level/CapsulePart.java:78-80 | the side turns a quarter turn and the half does not move |
| LevelCapsuleParts.CapsulePart.Face | core/src/com/mygdx/kaps/level/CapsulePart.java:82-85 | the half takes the side opposite to its partner's and moves onto the tile its partner faces |
| FullCapsules.FullCapsule.WithSlave | core/src/com/mygdx/kaps/level/FullCapsule.java:12-15 | the private constructor builds a fresh main half of the given place, colour and side next to the given slave, with both flags false |
| FullCapsules.FullCapsule.constructor | core/src/com/mygdx/kaps/level/FullCapsule.java:17-22 | a new capsule is valid (the slave, of the slave colour, sits on the tile the main half faces away from, with the opposite side), is made of fresh halves and shows the given place, side and colours |
| FullCapsules.FullCapsule.Copy | core/src/com/mygdx/kaps/level/FullCapsule.java:33-35 | the copy is a fresh valid capsule showing the same place, side and colours, with both flags false again |
| FullCapsules.FullCapsule.ForEachCapsule | core/src/com/mygdx/kaps/level/FullCapsule.java:37-40 | the action visits the main half, then the slave, and nothing else |
| FullCapsules.FullCapsule.StartFalling | core/src/com/mygdx/kaps/level/FullCapsule.java:54-56 | `falling` is set and `frozen` kept |
| FullCapsules.FullCapsule.Freeze | core/src/com/mygdx/kaps/level/FullCapsule.java:58-60 | `frozen` is set and `falling` kept |
| FullCapsules.FullCapsule.UpdateSlave | core/src/com/mygdx/kaps/level/FullCapsule.java:62-64 | after the slave faces the main half the capsule is valid again, whatever the slave's previous place and side |
| FullCapsules.FullCapsule.Dip | core/src/com/mygdx/kaps/level/FullCapsule.java:66-69 | the capsule stays valid and shows `Capsules.Moved(DipMove, …)` of its old view: one tile down |
| FullCapsules.FullCapsule.Flip | core/src/com/mygdx/kaps/level/FullCapsule.java:71-74 | the capsule stays valid and shows the flipped view: the main half keeps its tile, the side turns a quarter |
| FullCapsules.FullCapsule.MoveLeft | core/src/com/mygdx/kaps/level/FullCapsule.java:76-79 | the capsule stays valid and shows its old view one tile to the left |
| FullCapsules.FullCapsule.MoveRight | core/src/com/mygdx/kaps/level/FullCapsule.java:81-84 | the capsule stays valid and shows its old view one tile to the right |
| FullCapsules.FullCapsule.MoveForward | core/src/com/mygdx/kaps/level/FullCapsule.java:86-89 | the capsule stays valid and shows its old view one step towards the main half's side |
| FullCapsules.FullCapsule.Shifted | core/src/com/mygdx/kaps/level/FullCapsule.java:95-99 | the result is a fresh valid capsule showing the move applied to this one's view, with both flags false; this capsule is unchanged |
| FullCapsules.FullCapsule.Dipped | core/src/com/mygdx/kaps/level/FullCapsule.java:101-103 | a fresh valid capsule showing this one's view one tile down |
| FullCapsules.FullCapsule.Flipped | core/src/com/mygdx/kaps/level/FullCapsule.java:105-107 | a fresh valid capsule showing this one's view flipped |
| FullCapsules.FullCapsule.MovedLeft | core/src/com/mygdx/kaps/level/FullCapsule.java:109-111 | a fresh valid capsule showing this one's view one tile to the left |
| FullCapsules.FullCapsule.MovedRight | core/src/com/mygdx/kaps/level/FullCapsule.java:113-115 | a fresh valid capsule showing this one's view one tile to the right |
| FullCapsules.FullCapsule.MovedBack | core/src/com/mygdx/kaps/level/FullCapsule.java:117-119 | a fresh valid capsule showing this one's view moved forward, since `movedBack` applies `moveForward` |
| FullCapsules.RandomNewInstance | core/src/com/mygdx/kaps/level/FullCapsule.java:24-31 | with the two drawn colours, a valid capsule of fresh halves at the spawning place, facing LEFT, with both flags false |
| FullCapsules.HalvesOnTwoTiles | core/src/com/mygdx/kaps/level/FullCapsule.java:37-40 | the two halves lie on two different tiles exactly when the capsule faces some side |
| FullCapsules.FullCapsule.CanStandIn | core/src/com/mygdx/kaps/level/FullCapsule.java:42-44 | both halves can stand on the board |
| SidekickIds.Ordinal | core/src/com/mygdx/kaps/level/SidekickId.java:18-29 | a sidekick's ordinal is its place in the declaration order |
| SidekickIds.IdsListsEveryIdOnce | core/src/com/mygdx/kaps/level/SidekickId.java:18-29 | `values()` lists all ten sidekicks, each once |
| SidekickIds.Name | core/src/com/mygdx/kaps/level/SidekickId.java:59-63 | `toString` keeps the length of the constant's name |
| SidekickIds.LowerIs | core/src/com/mygdx/kaps/level/SidekickId.java:62 | a lower-cased string is determined character by character |
| SidekickIds.NameFromEnumName | core/src/com/mygdx/kaps/level/SidekickId.java:59-63 | the name is the constant's first letter followed by the rest in lower case |
| SidekickIds.Names1 | core/src/com/mygdx/kaps/level/SidekickId.java:59-63 | the names of SEAN, ZYRAME and R3D are "Sean", "Zyrame" and "R3d" |
| SidekickIds.Names2 | core/src/com/mygdx/kaps/level/SidekickId.java:59-63 | the names of MIMAPS, PAINTER and XERETH are "Mimaps", "Painter" and "Xereth" |
| SidekickIds.Names3 | core/src/com/mygdx/kaps/level/SidekickId.java:59-63 | the names of BOMBER, JIM, UNI and SNIPER are "Bomber", "Jim", "Uni" and "Sniper" |
| SidekickIds.NamesDifferIgnoringCase | core/src/com/mygdx/kaps/level/SidekickId.java:77-82 | two sidekicks whose names are equal ignoring case are the same sidekick, so the lookup's "first" match is the only one |
| SidekickIds.FirstNamed | core/src/com/mygdx/kaps/level/SidekickId.java:78-80 | the scan finds a sidekick of the list whose name equals the given one ignoring case, and finds none iff no sidekick of the list has such a name |
| SidekickIds.OfName | core/src/com/mygdx/kaps/level/SidekickId.java:77-82 | `ofName` finds the sidekick whose name equals the given one ignoring case, and fails with "Can't resolve sidekick of name <name>" iff there is none |
| SidekickIds.OfNameFindsEveryCase | core/src/com/mygdx/kaps/level/SidekickId.java:77-82 | any spelling of a sidekick's name, in any case, finds that sidekick |
| SidekickIds.Damage | core/src/com/mygdx/kaps/level/SidekickId.java:19-57 | the passive sidekicks (BOMBER and UNI) get damage 0, every other one a positive damage |
| SidekickIds.ColorNumber | core/src/com/mygdx/kaps/level/SidekickId.java:19-28 | the colour constant each sidekick declares; no two sidekicks share one (SidekickIds.ColorsDistinct) |
| SidekickIds.ColorsDistinct | core/src/com/mygdx/kaps/level/SidekickId.java:19-28 | sidekicks with the same colour constant are the same sidekick |
| SidekickIds.TypeOf | core/src/com/mygdx/kaps/level/SidekickId.java:19-28 | the attack type each sidekick declares, as written in the table |
| SidekickIds.DeclaredMana | core/src/com/mygdx/kaps/level/SidekickId.java:19-28 | the mana each sidekick declares, which the constructor ignores (SidekickIds.GaugeMax) and the other generation uses as the cooldown (Sidekicks.CooldownMax, Sidekicks.CooldownLengths) |
| SidekickIds.IsPassive | core/src/com/mygdx/kaps/level/SidekickId.java:25-27 | BOMBER and UNI, the constants built with the passive flag (SidekickIds.Damage, Sidekicks.CooldownLengths) |
| SidekickIds.AnimPaths | core/src/com/mygdx/kaps/level/SidekickId.java:39-42 | the sprite path uses the alternate name when there is one (R3D "Red", PAINTER "Paint", UNI "Color") and the name otherwise |
| SidekickIds.AlternateName | core/src/com/mygdx/kaps/level/SidekickId.java:21-27 | R3D, PAINTER and UNI pass "Red", "Paint" and "Color", the others no name (SidekickIds.AnimPaths) |
| SidekickIds.AnimPath | core/src/com/mygdx/kaps/level/SidekickId.java:41-42 | the sprite folder, then the alternate name or else the name, then "_" (SidekickIds.AnimPaths) |
| SidekickIds.GaugeMax | core/src/com/mygdx/kaps/level/SidekickId.java:47-75 | `gaugeMax` is 4 for every sidekick, since the constructor stores 4 instead of the declared mana |
| SidekickIds.Repeated | core/src/com/mygdx/kaps/level/SidekickId.java:97-99 | `iterations` copies of one move |
| SidekickIds.Filter | core/src/com/mygdx/kaps/level/SidekickId.java:181-182 | the filtered tiles are exactly the tiles that pass the test, and no more of them |
| SidekickIds.HitEach | core/src/com/mygdx/kaps/level/SidekickId.java:164-185 | one hit per tile, in the tiles' order |
| SidekickIds.RowTiles | core/src/com/mygdx/kaps/level/SidekickId.java:159-166 | `hitRandomLine` hits the tiles (0, y) to (width-1, y) of the picked row, in that order |
| SidekickIds.ColumnTopDown | core/src/com/mygdx/kaps/level/SidekickId.java:168-176 | `hitRandomColumn` hits one tile per row of the board |
| SidekickIds.PickedHitTwice | core/src/com/mygdx/kaps/level/SidekickId.java:178-187 | a picked tile on the board lies on both diagonals, so `hitRandomDiagonals` hits it twice |
| SidekickIds.Attack | core/src/com/mygdx/kaps/level/SidekickId.java:88-95 | an attack runs its moves in order and then `deleteMatches` |
| SidekickIds.DeleteMatchesOnlyLast | core/src/com/mygdx/kaps/level/SidekickId.java:88-95 | no attack move deletes matches, so every attack deletes them exactly once, as its last move |
| SidekickIds.MoveCounts | core/src/com/mygdx/kaps/level/SidekickId.java:124-176 | SEAN makes 3 moves, MIMAPS 4, PAINTER 6, R3D one per row plus one and JIM one per column plus one |
| SidekickIds.Adjacents | core/src/com/mygdx/kaps/level/SidekickId.java:138-145 | the four neighbours of the picked tile, above, below, right and left, hit by SEAN's second move |
| SidekickIds.Diagonals | core/src/com/mygdx/kaps/level/SidekickId.java:178-187 | the tiles of the board on the rising diagonal through the pick, then those on the falling one (SidekickIds.PickedHitTwice, Sidekicks.DiagonalsSameTiles) |
| SidekickIds.AttackMoves | core/src/com/mygdx/kaps/level/SidekickId.java:18-29 | the moves each sidekick's attack is made of; Sidekicks.GenerationsAgree compares them with the other generation |
| Sidekicks.CooldownMax | core/src/com/mygdx/kaps/level/Sidekick.java:100-120 | this generation's `gaugeMax` is the declared mana, which is positive |
| Sidekicks.Abs | core/src/com/mygdx/kaps/level/Sidekick.java:369 | `Math.abs`: the number or its negation, never negative |
| Sidekicks.AbsDiagonals | core/src/com/mygdx/kaps/level/Sidekick.java:365-371 | the tiles of the board whose distances to the pick along x and y are equal (Sidekicks.DiagonalsSameTiles) |
| Sidekicks.ColumnBottomUp | core/src/com/mygdx/kaps/level/Sidekick.java:356-363 | `hitRandomColumn` hits the tiles (x, 0) to (x, height-1) of the picked column, in that order |
| Sidekicks.ColumnOrdersReversed | core/src/com/mygdx/kaps/level/Sidekick.java:356-363 | this file's column order is the reverse of SidekickId.java's |
| Sidekicks.DiagonalsSameTiles | core/src/com/mygdx/kaps/level/Sidekick.java:365-372 | the single `abs(dx) == abs(dy)` pass hits a tile iff one of the two diagonal passes of SidekickId.java does |
| Sidekicks.GenerationsAgree | core/src/com/mygdx/kaps/level/Sidekick.java:312-380 | no attack of this file deletes matches itself; apart from R3D, XERETH and BOMBER it builds the same moves as SidekickId.java; an attack has no move only for an empty column, row or diagonal set |
| Sidekicks.AfterUpdate | core/src/com/mygdx/kaps/level/Sidekick.java:280-282 | a firing of the move timer removes the head move, unless none is left; otherwise the moves are unchanged |
| Sidekicks.DrainDropsPrefix | core/src/com/mygdx/kaps/level/Sidekick.java:280-299 | after n firings the moves left are those after the first n, and the attack is over iff n reaches the number of moves |
| Sidekicks.SidekickAttack.constructor | core/src/com/mygdx/kaps/level/Sidekick.java:278-283 | the attack holds the given moves |
| Sidekicks.SidekickAttack.Update | core/src/com/mygdx/kaps/level/Sidekick.java:280-282 | the moves become `AfterUpdate` of the old ones; a move runs iff the timer fired and the attack was not over, and it is the old head (the move runs as at Sidekick.java:382-384) |
| Sidekicks.SidekickAttack.IsOver | core/src/com/mygdx/kaps/level/Sidekick.java:297-299 | an attack is over once no move is left (Sidekicks.DrainDropsPrefix) |
| Sidekicks.Running | core/src/com/mygdx/kaps/level/Sidekick.java:195 | `removeIf(isOver)` keeps exactly the attacks that are not over, drops nothing else and keeps them distinct |
| Sidekicks.RunningAndOverSplit | core/src/com/mygdx/kaps/level/Sidekick.java:190-196 | every attack is either kept or counted as over |
| Sidekicks.UpdateEach | core/src/com/mygdx/kaps/level/Sidekick.java:191-194 | each attack is updated as `AfterUpdate` with its own timer, and `deleteMatches` is called once per attack over afterwards |
| Sidekicks.KeepRunning | core/src/com/mygdx/kaps/level/Sidekick.java:195 | the loop keeps exactly `Running` of the attacks |
| Sidekicks.Sidekick.OfId | core/src/com/mygdx/kaps/level/Sidekick.java:141-143 | a passive id gets a full cooldown gauge of its declared mana, any other id an empty mana gauge of 5; either way no attack runs and the sidekick is not ready (the gauges are built at Sidekick.java:207-210 and 244-247) |
| Sidekicks.Sidekick.OfName | core/src/com/mygdx/kaps/level/Sidekick.java:145-147 | succeeds iff the id lookup succeeds, with a fresh sidekick of that id that is not ready, and otherwise fails with the lookup's message |
| Sidekicks.Sidekick.ResetGauge | core/src/com/mygdx/kaps/level/Sidekick.java:228-263 | a mana gauge is emptied and a cooldown gauge filled, so a sidekick with a positive maximum is no longer ready |
| Sidekicks.Sidekick.IsReady | core/src/com/mygdx/kaps/level/Sidekick.java:232-234 | a mana sidekick is ready with a full gauge, a cooldown one (Sidekick.java:265-267) with an empty gauge (Sidekicks.CooldownReadyAfter) |
| Sidekicks.Sidekick.Equals | core/src/com/mygdx/kaps/level/Sidekick.java:158-163 | the same object, or another sidekick of the same id (Sidekicks.EqualsComparesIds) |
| Sidekicks.Sidekick.IncreaseMana | core/src/com/mygdx/kaps/level/Sidekick.java:224-226 | the mana rises by one, and a ready sidekick stays ready |
| Sidekicks.Sidekick.DecreaseCooldown | core/src/com/mygdx/kaps/level/Sidekick.java:257-259 | the cooldown drops by one while positive, and a ready sidekick stays ready |
| Sidekicks.Sidekick.Trigger | core/src/com/mygdx/kaps/level/Sidekick.java:198-201 | one fresh attack with the id's moves is appended after the running ones, and the gauge is reset |
| Sidekicks.Sidekick.UpdateAttacks | core/src/com/mygdx/kaps/level/Sidekick.java:190-196 | every attack is updated, the attacks left are exactly those not over, and `deleteMatches` runs once per dropped attack |
| Sidekicks.EqualsComparesIds | core/src/com/mygdx/kaps/level/Sidekick.java:157-163 | `equals` holds iff the ids are equal, so it is reflexive, symmetric and transitive |
| Sidekicks.CooldownReadyAfter | core/src/com/mygdx/kaps/level/Sidekick.java:244-267 | a cooldown sidekick reset to its full gauge is ready again after exactly that many decreases |
| Sidekicks.CooldownLengths | core/src/com/mygdx/kaps/level/Sidekick.java:77-79 | the passive ids are BOMBER and UNI, and they wait 13 and 4 decreases |
| Sidekicks.Moves | core/src/com/mygdx/kaps/level/Sidekick.java:312-380 | the moves of each sidekick's attack in this generation (Sidekicks.GenerationsAgree) |
| Sidekicks.Drain | core/src/com/mygdx/kaps/level/Sidekick.java:280-299 | the moves left after n firings of the move timer (Sidekicks.DrainDropsPrefix) |
| LevelObservers.NoticeFollowsLastHit | core/src/com/mygdx/kaps/level/LevelObserver.java:32-34 | after a hit that took one hit off an object, `onObjectDestroyed` follows iff the object had at most one hit left |
| LevelObservers.NotifiesDestroyed | core/src/com/mygdx/kaps/level/LevelObserver.java:32-34 | the default `onObjectHit` notifies the destruction exactly when the object is destroyed; the notice follows the hit that takes the last hit left (LevelObservers.NoticeFollowsLastHit) |
| LevelObservers.QuakeCount | core/src/com/mygdx/kaps/level/LevelObserver.java:144-150 | an empty match set adds no episode, one holding a germ adds `combo` episodes, any other `combo + 1` (a negative count adds none) |
| LevelObservers.GermlessShakesMore | core/src/com/mygdx/kaps/level/LevelObserver.java:144-150 | a germless match set shakes once more than one holding a germ, for the same combo |
| LevelObservers.ScreenShaker.constructor | core/src/com/mygdx/kaps/level/LevelObserver.java:123-124 | a new shaker has no episode running |
| LevelObservers.ScreenShaker.Shake | core/src/com/mygdx/kaps/level/LevelObserver.java:130-132 | `shake` appends `iterations` episodes of `millis` (none for a non-positive count) and keeps the earlier ones |
| LevelObservers.ScreenShaker.OnTileAttack | core/src/com/mygdx/kaps/level/LevelObserver.java:134-141 | a tile attack appends exactly one episode of 800 ms |
| LevelObservers.ScreenShaker.OnMatchPerformed | core/src/com/mygdx/kaps/level/LevelObserver.java:143-150 | a match appends `QuakeCount` episodes of 300 ms and keeps the earlier ones |
| LevelObservers.DoubledMultiplier | core/src/com/mygdx/kaps/level/LevelObserver.java:408-410 | twice the multiplier is at least 2 and at least combo + 1, and is one of the two |
| LevelObservers.MultiplierSteps | core/src/com/mygdx/kaps/level/LevelObserver.java:408-410 | combos 0 and 1 both score single, and from there each combo step adds half |
| LevelObservers.ScaledAdd | core/src/com/mygdx/kaps/level/LevelObserver.java:418-420 | the new score is the exact sum `score + objScore * multiplier` truncated towards zero |
| LevelObservers.LongerComboScoresMore | core/src/com/mygdx/kaps/level/LevelObserver.java:408-420 | a hit never lowers a non-negative score, and a longer combo never scores it less |
| LevelObservers.MultiplyMonotone | core/src/com/mygdx/kaps/level/LevelObserver.java:419 | multiplying by a non-negative score keeps the order of the multipliers |
| LevelObservers.AfterFreeze | core/src/com/mygdx/kaps/level/LevelObserver.java:412-415 | a freeze keeps the streak and the score; the combo becomes 0 iff the board has no match and no streak is running (or it was 0), and is kept otherwise |
| LevelObservers.AfterHit | core/src/com/mygdx/kaps/level/LevelObserver.java:417-420 | a hit adds the scaled score and keeps the streak and combo |
| LevelObservers.AfterMatches | core/src/com/mygdx/kaps/level/LevelObserver.java:422-431 | an empty match set ends the streak; any other starts it and adds one to the combo; the score is kept |
| LevelObservers.CascadeCountsRounds | core/src/com/mygdx/kaps/level/LevelObserver.java:422-431 | a turn of rounds that each match something adds one to the combo per round, keeps the score and leaves a streak running |
| LevelObservers.ComboAcrossTurns | core/src/com/mygdx/kaps/level/LevelObserver.java:412-431 | a turn whose last round matches nothing lets the next freeze on a board without matches end the combo, and a turn with matches keeps its combo across the freeze |
| LevelObservers.ScoreManager.constructor | core/src/com/mygdx/kaps/level/LevelObserver.java:395-398 | a new manager has no streak, score 0 and combo 0 |
| LevelObservers.ScoreManager.ScoreMultiplierDoubled | core/src/com/mygdx/kaps/level/LevelObserver.java:408-410 | twice `scoreMultiplier` is `DoubledMultiplier` of the current combo |
| LevelObservers.ScoreManager.OnCapsuleFreeze | core/src/com/mygdx/kaps/level/LevelObserver.java:412-415 | the new state is `AfterFreeze` of the old one |
| LevelObservers.ScoreManager.OnObjectHit | core/src/com/mygdx/kaps/level/LevelObserver.java:417-420 | the new state is `AfterHit` of the old one with the object's score |
| LevelObservers.ScoreManager.OnMatchPerformed | core/src/com/mygdx/kaps/level/LevelObserver.java:422-431 | the new state is `AfterMatches` of the old one |
| LevelLoaders.MessageAsWrittenInverted | core/src/com/mygdx/kaps/level/LevelLoader.java:86-90 | for every refused number the message as written differs from the corrected one: -2 is told "max level is 20" and 21 "negative value" |
| LevelLoaders.MessageNamesBrokenBound | core/src/com/mygdx/kaps/level/LevelLoader.java:86-90 | the corrected message says "max level is 20" exactly for numbers above 20 and "negative value" exactly for numbers below -1 |
| LevelLoaders.RequestOf | core/src/com/mygdx/kaps/level/LevelLoader.java:97-103 | -1 asks for a bonus grid, any other queued number for the level file of that number |
| LevelLoaders.LevelLoader.constructor | core/src/com/mygdx/kaps/level/LevelLoader.java:16-17 | a new loader has an empty queue and no sidekick |
| LevelLoaders.LevelLoader.AddLevel | core/src/com/mygdx/kaps/level/LevelLoader.java:86-92 | a number in -1..20 goes to the back of the queue; any other is refused with the message as written, whose reason names the other bound than the one the number breaks (see Findings), and the queue is unchanged; the party is untouched |
| LevelLoaders.LevelLoader.AddRandomGrid | core/src/com/mygdx/kaps/level/LevelLoader.java:78-80 | -1 goes to the back of the queue |
| LevelLoaders.LevelLoader.AddRandomLevel | core/src/com/mygdx/kaps/level/LevelLoader.java:82-84 | the number drawn in 0..20 goes to the back of the queue |
| LevelLoaders.LevelLoader.TakeNextLevel | core/src/com/mygdx/kaps/level/LevelLoader.java:94-104 | an empty queue gives nothing; otherwise its head is removed and asked for as a bonus grid or a level file; the party is untouched |
| LevelLoaders.LevelLoader.AddSidekick | core/src/com/mygdx/kaps/level/LevelLoader.java:73-76 | with fewer than two sidekicks the named one joins the party, or the lookup's exception is raised; with two, nothing happens and the name is not looked up |
| LevelLoaders.LevelLoader.FillParty | core/src/com/mygdx/kaps/level/LevelLoader.java:22-25 | random ids join the party, in the order drawn, until it holds exactly two sidekicks |
| LevelLoaders.DrawnBonusGridsFit | core/src/com/mygdx/kaps/level/LevelLoader.java:98-102 | the sizes drawn for a bonus grid (6..8 wide, 10..12 high, 10..12 germs) always pass the too-many-germs check (bounds declared at LevelLoader.java:27-29) |
| LevelLoaders.GermsFit | core/src/com/mygdx/kaps/level/LevelLoader.java:28 | the germs fit when there are no more of them than tiles in the three bottom rows, or in every row of a lower board (LevelLoaders.DrawnBonusGridsFit, LevelLoaders.GenerateRandomGrid) |
| LevelLoaders.TooManyGerms | core/src/com/mygdx/kaps/level/LevelLoader.java:29 | the refusal reads "Too many germs for a WxH grid: N" (LevelLoaders.GenerateRandomGrid) |
| LevelLoaders.PlaceOne | core/src/com/mygdx/kaps/level/LevelLoader.java:34-41 | one pass puts a germ at the drawn tile exactly when the germ can stand there, and changes no other tile |
| LevelLoaders.PlaceGerms | core/src/com/mygdx/kaps/level/LevelLoader.java:33-42 | the do-while puts germs only on distinct free tiles of the three bottom rows and changes no other tile; it puts at most `germNumber` germs, and exactly that many unless the draws run out; with a non-positive count it still tries once |
| LevelLoaders.GenerateRandomGrid | core/src/com/mygdx/kaps/level/LevelLoader.java:27-46 | too many germs for the three bottom rows is refused with "Too many germs for a WxH grid: N"; otherwise the board has the requested size (when the board accepts it) and holds only the placed germs |
| LevelLoaders.FirstUnreadable | core/src/com/mygdx/kaps/level/LevelLoader.java:62-64 | finds the first character that is neither '.' nor a germ symbol, and finds none iff every character is one of those |
| LevelLoaders.TileCoordinatesAppend | core/src/com/mygdx/kaps/level/LevelLoader.java:62-65 | adding a tile to a row adds its object's coordinates, if any |
| LevelLoaders.ParseRow | core/src/com/mygdx/kaps/level/LevelLoader.java:60-66 | a line becomes a row iff it is non-empty and every character is '.' or a germ symbol; '.' gives an empty tile and a symbol a fresh germ of the tile's colour; the first unknown symbol fails with its message and an empty line with "Rows can't be empty." |
| LevelLoaders.ParseEachLine | core/src/com/mygdx/kaps/level/LevelLoader.java:60-67 | the `map` over the lines succeeds iff every line is non-empty and readable; then it gives one fresh row per line, in order, no two rows sharing a coordinates object |
| LevelLoaders.UnsharedRows | core/src/com/mygdx/kaps/level/LevelLoader.java:60-67 | rows that share no coordinates object within or across themselves form a board with no shared coordinates object |
| LevelLoaders.CoordinatesOfRows | core/src/com/mygdx/kaps/level/LevelLoader.java:60-67 | every coordinates object of the board belongs to one of its rows |
| LevelLoaders.ParseRows | core/src/com/mygdx/kaps/level/LevelLoader.java:60-67 | the lines become rows, one fresh row per line in order, sharing no coordinates object, or the first failing line's error |
| LevelLoaders.LoadGrid | core/src/com/mygdx/kaps/level/LevelLoader.java:60-70 | a readable file becomes a board iff it has at least two lines, all of the first line's length of at least two; the last line is the bottom row; a tile is empty iff its character is '.', and holds a germ otherwise; an unreadable character fails |
| LevelLoaders.BoardShowsLines | core/src/com/mygdx/kaps/level/LevelLoader.java:60-70 | on the board built from the reversed rows, character x of line y is '.' iff tile (x, height-1-y) is empty, and any other character puts a germ there |
| LevelLoaders.ValidLevel | core/src/com/mygdx/kaps/level/LevelLoader.java:86-87 | the numbers `addLevel` accepts are -1 to 20 |
| LevelLoaders.ReasonAsWritten | core/src/com/mygdx/kaps/level/LevelLoader.java:89 | as written, the reason is "max level is 20" below 20 and "negative value" otherwise (Findings; LevelLoaders.MessageAsWrittenInverted) |
| LevelLoaders.Reason | core/src/com/mygdx/kaps/level/LevelLoader.java:89 | the reason names the bound the number breaks (LevelLoaders.MessageNamesBrokenBound) |
| LevelLoaders.InvalidLevelMessageAsWritten | core/src/com/mygdx/kaps/level/LevelLoader.java:88-89 | the message `addLevel` throws as written: "Invalid level number: <lvl> (<reason as written>)" |
| LevelLoaders.LevelMessage | core/src/com/mygdx/kaps/level/LevelLoader.java:88-89 | "Invalid level number: <lvl> (<reason>)", shared by the as-written and the corrected message (LevelLoaders.MessageAsWrittenInverted) |
| LevelLoaders.InvalidLevelMessage | core/src/com/mygdx/kaps/level/LevelLoader.java:88-89 | the same message with the corrected reason |
| LevelLoaders.LevelPath | core/src/com/mygdx/kaps/level/LevelLoader.java:49 | the level file of number n is "android/assets/levels/level" followed by n in decimal |
| LevelLoaders.LevelTitle | core/src/com/mygdx/kaps/level/LevelLoader.java:70 | a file level is titled "1 - " followed by its number |
| InputHandlers.KeysListsEveryKeyOnce | core/src/com/mygdx/kaps/controller/InputHandler.java:11-20 | `values()` lists all seven keys, each once |
| InputHandlers.CodesDisjoint | core/src/com/mygdx/kaps/controller/InputHandler.java:12-19 | no key code is bound to two keys |
| InputHandlers.Codes | core/src/com/mygdx/kaps/controller/InputHandler.java:12-19 | the key codes each key is bound to; no code belongs to two keys (InputHandlers.CodesDisjoint) and the escape key holds 29, 131 and 68 (InputHandlers.Exits) |
| InputHandlers.FirstWithCode | core/src/com/mygdx/kaps/controller/InputHandler.java:29 | the scan finds a key of the list bound to the code, preceded by no key bound to it, and finds none iff no key of the list is bound to it |
| InputHandlers.OfCodeFindsOwner | core/src/com/mygdx/kaps/controller/InputHandler.java:28-30 | `ofCode` finds a key exactly when the code is bound to that key |
| InputHandlers.Label | core/src/com/mygdx/kaps/controller/InputHandler.java:32-35 | the label is the part of the constant's name before its first underscore, in brackets |
| InputHandlers.LabelOfStem | core/src/com/mygdx/kaps/controller/InputHandler.java:32-35 | a constant named `<stem>_KEY`, with no underscore in the stem, is labelled `[<stem>]` |
| InputHandlers.LabelDropsKeySuffix | core/src/com/mygdx/kaps/controller/InputHandler.java:11-35 | every constant's name ends in "_KEY", and its label is the name without that suffix, in brackets |
| InputHandlers.LeftLabel | core/src/com/mygdx/kaps/controller/InputHandler.java:32-35 | LEFT_KEY is labelled "[LEFT]" |
| InputHandlers.EscapeLabel | core/src/com/mygdx/kaps/controller/InputHandler.java:32-35 | ESCAPE_KEY is labelled "[ESCAPE]" |
| InputHandlers.Handled | core/src/com/mygdx/kaps/controller/InputHandler.java:40-81 | key presses and releases are consumed (true); typing, touches, mouse moves and scrolls are passed on (false) |
| InputHandlers.Exits | core/src/com/mygdx/kaps/controller/InputHandler.java:42-44 | a key press quits the application iff its code is 29, 131 or 68, the codes of the escape key |
| InputHandlers.OfCode | core/src/com/mygdx/kaps/controller/InputHandler.java:28-30 | a key found for a code is bound to it, and none is found only when no key is bound to it (the converse is InputHandlers.OfCodeFindsOwner) |

## Left out

- Rendering and assets are not modelled: the three `GameView.java` files, the renderer package, and every `Sprite`, `Texture` and `AnimatedSprite` field built in the constructors. They are libGDX calls and float geometry.
- Time-driven scheduling (the `time` package) is not modelled. An attack's timer is a `fired` flag per update. A quake episode is its duration in milliseconds. The `ScreenShaker.onLevelUpdate` removal of exceeded timers is left out with it.
- Randomness (`Utils`, `SidekickPower`, `GermAttack`, `Color.random*`, `Sidekick.random`, `Sidekick.randomMate`) is left out. The drawn values are parameters: colours, tiles, ids, level numbers, and the tile an attack picks. Which random object or germ a `hitRandom…` move hits when it runs is not part of a move.
- Sound and process side effects are not modelled: `SoundStream`, `SoundPlayer`, `ParticleManager` and `GameEndManager` (`Thread.sleep`, `System.exit`).
- InputHandlers.Exits: says when `keyDown` quits the application; the `System.exit(0)` call itself is not modelled.
- Floating point is not modelled: `Gauge.ratio()`, every `gaugeRatio()`, the libGDX colours of the two `Color.java` enums, animation speeds, and attack speeds in milliseconds.
- The stale classes `level/Capsule.java`, `Gelule.java` and `Level.java` are not part of this model. They call `Orientation` methods that the orientation enum does not define. `Level` is timer-driven.
- `LevelBuilder.java` is not part of this model. It is random generation over board methods that are not shown.
- `game/Grid.java` is not part of this model: it only holds two dimensions.
- `Grid.initEveryCapsuleDropping` and `Grid.dipOrFreezeDroppingCapsules` (core/src/com/mygdx/kaps/level/Grid.java:272-306) are not modelled. Their effect depends on the evaluation order of lazy streams with side effects.
- `generate_new_color_folder` in recolor.py is not modelled: it is image loading and saving, directory creation and printing. `all_paths_of_set` is modelled over the entries of the walk, and `replace_colors` over a pixel array.
- `rename.py` is not modelled: its body is commented out.
- LevelLoaders.LevelLoader: the static `LEVEL_SEQ` and `sidekicks` fields are fields of one loader object. The model does not capture their sharing between loader instances.
- LevelLoaders.LevelLoader.FillParty: requires the finite list of draws to hold enough distinct ids to complete the party. The source draws from an endless random stream, which eventually does.
- LevelLoaders.PlaceGerms: the finite list of draws may run out before `germNumber` germs are placed. The full count is promised only when the loop stops before the draws are used up.
- LevelLoaders.GenerateRandomGrid: the same finite-draws caveat applies. The `Level` it builds ("??? - Bonus", with the filled party) is not modelled, nor is the `Level` that `loadLevelFromNumber` builds.
- LevelLoaders.LoadGrid: the file reading and its `IOException` message are not modelled. The lines, and the colour drawn for each germ, are parameters.
- LevelGerms.Germ.constructor: `Germ(color, kind)` calls `new Coordinates()`, which the level package's `Coordinates` class does not declare. The model places the germ at (0, 0), as the `gridobject` generation's no-argument constructor does.
- Germs.Germ.WithMana: Germ.java:90 calls `super(new Coordinates(), color, mana)`, a three-argument `GridObject` constructor that GridObject.java:43-52 does not declare (it has the four-argument one and the two-argument one). The model reads the call as the four-argument constructor with the two-argument one's default score of 10.
- Germs.Germ.constructor: WallGerm.java:15 and CooldownGerm.java:16 call `Germ(color, kind, mana, score)`, which Germ.java does not declare. The model supplies it: a germ at (0, 0) with the given mana and score, built by `GridObject`'s four-argument constructor.
- WallGerms.WallGerm.constructor: relies on that supplied four-argument `Germ` constructor, so mana 3 and score 40 are the values WallGerm.java:15 passes.
- CooldownGerms.CooldownGerm.constructor: relies on the same supplied constructor; `VirusGerm` and `ThornGerm` (CooldownGerm.java:73, 79) pass mana 3 with scores 30 and 35.
- CapsuleParts.CapsulePart.constructor: CapsulePart.java:20 calls `super(coordinates, color, <sprite folder>)`, a three-argument `GridObject` constructor taking a string, which GridObject.java does not declare. The model uses the two-argument constructor's defaults, mana 1 and score 10 (GridObject.java:50-51), and drops the sprite folder.
- Grids.Grid.SetTile: requires the tile to be on the board; the `IndexOutOfBoundsException` that `rows.get` throws for a tile off the board is not modelled. The callers only put objects that `canBePut` accepts (LevelLoader.java:38-39).
- Grids.Grid.ClearTile: requires the tile to be on the board; the `IndexOutOfBoundsException` that `rows.get` throws for a tile off the board is not modelled. The callers only put objects that `canBePut` accepts (LevelLoader.java:38-39).
- Grids.Grid.Put: requires the tile to be on the board; the `IndexOutOfBoundsException` that `rows.get` throws for a tile off the board is not modelled. The callers only put objects that `canBePut` accepts (LevelLoader.java:38-39).
- Grids.Grid.Clear: requires the tile to be on the board, and `DetachableAt` as Grids.Grid.Detach does; the `IndexOutOfBoundsException` of a tile off the board is not modelled.
- Grids.Grid.Replace: requires the tile to be on the board; the `IndexOutOfBoundsException` that `rows.get` throws for a tile off the board is not modelled. The callers only put objects that `canBePut` accepts (LevelLoader.java:38-39).
- Grids.Grid.Detach: requires `DetachableAt`, that is, a linked half's partner lies on the board. An off-board partner, which the capsules' moves never produce, would make `put` throw; that exception is not modelled.
- Grids.Grid.Hit: requires `DetachableAt`, that is, a linked half's partner lies on the board. An off-board partner, which the capsules' moves never produce, would make `put` throw; that exception is not modelled.
- LinkedCapsuleParts.LinkedCapsulePart: the methods and predicates that read the partner require it to be set, except LinkedCapsuleParts.LinkedCapsulePart.Linked. The `NullPointerException` of a half without a partner is not modelled; every half the capsules build is linked before it is used.
- LinkedCapsuleParts.LinkedCapsulePart.Linked: a half without a partner gives nothing (None), where `Optional.of(linked)` throws `NullPointerException`. Through Occupants.Occupant.Partner, the board's detach then treats such a half as unlinked, where Grid.java would throw. Only a half that no capsule links reaches this case.
- Recolor.ReplaceColors: requires an image of at least 64 x 64 pixels. The `IndexError` that Pillow raises for a smaller sprite is not modelled.
- Recolor.RgbToHexa: requires at least three channels. The `IndexError` of a shorter tuple is not modelled; every colour of a set has four.
- Recolor.ParseHex: models `int(s, 16)` on ASCII text: surrounding blanks, a sign, a `0x` prefix and single underscores between digits. `int()` also skips non-ASCII blanks and reads non-ASCII digits, and `repr` in the error message escapes non-printable non-ASCII characters; these are not modelled.
- Recolor.HexToRgb: inherits the ASCII limits of Recolor.ParseHex.
- SidekickIds.OfName: compares names by ASCII case folding, which is Java's `equalsIgnoreCase` for ASCII names. Java also matches characters such as the dotless "ı" of "jım" or the long "ſ" of "ſean"; those matches are not modelled.
- SidekickIds.FirstNamed: the same ASCII case folding as SidekickIds.OfName.
- SidekickIds.Name: `toLowerCase` is modelled as ASCII lower-casing, which is Java's result for the constant names in any default locale but a Turkish one, where "JIM" prints as "Jım".
- SidekickIds.OfNameFindsEveryCase: "every case" means every ASCII upper/lower-case spelling.
- Sidekicks.Sidekick.OfName: uses the ASCII lookup of SidekickIds.OfName.
- LevelLoaders.LevelLoader.AddSidekick: uses the ASCII lookup of SidekickIds.OfName.
- Germs.KindNames: `toLowerCase` is modelled as ASCII lower-casing. That matches Java's result for the four constant names in any default locale except a Turkish one, where "I" lower-cases to a dotless "ı".
- LevelObservers.ScaledAdd: the product is computed in halves with unbounded integers. The model does not capture 32-bit overflow of `score`, or double rounding for scores beyond 2^53.
- Gauges.Gauge.Increase: the value is an unbounded integer. Java's `int` wraps `Integer.MAX_VALUE + 1` to `Integer.MIN_VALUE`; that wrap-around is not modelled.
- Gauges.Gauge.Decrease: the value is an unbounded integer; Java's wrap of `Integer.MIN_VALUE - 1` to `Integer.MAX_VALUE` is not modelled.
- Sidekicks.Sidekick.IncreaseMana: raises the mana gauge with Gauges.Gauge.Increase, so it has the same missing wrap-around.
- Coordinates.Coordinates.Add: the coordinates are unbounded integers; a sum outside Java's `int` range does not wrap in the model. The same holds for Coordinates.Coordinates.AddCoordinates, Coordinates.Coordinates.AddedTo, Coordinates.Coordinates.AddedToCoordinates and every part or capsule move built on them.
- Coordinates.Coordinates.AddedTo: the same missing wrap-around as Coordinates.Coordinates.Add.
- LevelLoaders.GermsFit: compares `germNumber` with the exact product `width * min(height, 3)`. Java computes that product in 32 bits: with a width of 1000000000 and a height of 3 it wraps to -1294967296, so Java refuses 5 germs that the model places.
- LevelLoaders.GenerateRandomGrid: decides with LevelLoaders.GermsFit, so it has the same missing wrap-around once `width * min(height, 3)` exceeds `Integer.MAX_VALUE`.
- LevelObservers.QuakeCount: a match set is given by whether each of its matches holds a germ.
- LevelObservers.AfterFreeze: the level is given by whether its board has matches.
- SidekickIds.ColumnTopDown: states only the number of tiles. The top-down order is stated through Sidekicks.ColumnOrdersReversed against Sidekicks.ColumnBottomUp.
- Sidekicks.Sidekick: `ManaSidekick` and `CooldownSidekick` are one class that dispatches on whether the id is passive. `ifActiveElse` and `ifHasCooldownElse` are flattened into that dispatch.
- Sidekicks.Moves: the explosive capsule BOMBER injects in Sidekick.java is a move that does nothing (`Idle`), as written there.
- The colour and attack type of a sidekick's hits, and the sound each `AttackType` plays, are not part of a move.
- Germs: the animation speed of each germ kind is not modelled (floating point).

## Findings

| source | as written | input that shows it | evidently intended | confidence | as-written member | corrected member |
|---|---|---|---|---|---|---|
| android/assets/sprites/recolor.py:102-104 | each key of `set1` is compared with the pixel's current value, so a pixel already replaced can be replaced again by a later key | bases (100, 100, 100) and (110, 110, 110): a principal pixel (100, 100, 100, 255) becomes (110, 110, 110, 255), which is the first set's flash shade, and ends as (120, 120, 120, 255) | each pixel takes the colour of its own role in `set2`, once: (110, 110, 110, 255) | not executed | Recolor.ReplacementChains | Recolor.ReplacedPixelOnce |
| core/src/com/mygdx/kaps/level/Grid.java:62 | `objects.size() < CLASSIC_SIZE` accepts only matches of fewer than four objects | any window the patterns report, such as four objects of one colour in a row: `new Match` throws "is invalid", and the BIG and HUGE tiers are unreachable | `objects.size() >= CLASSIC_SIZE` | not executed | Matches.FoundWindowsRefusedAsWritten | Matches.PatternTiers |
| core/src/com/mygdx/kaps/level/LevelLoader.java:89 | the reason is `lvl < MAX_LEVELS ? "max level is 20" : "negative value"` | -2 is refused with "max level is 20", and 21 with "negative value" | "max level is 20" for numbers above 20 and "negative value" below -1 | not executed | LevelLoaders.MessageAsWrittenInverted | LevelLoaders.MessageNamesBrokenBound |
