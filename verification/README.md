# Three console games, modelled in Dafny

This project models the game logic of three small Python console games and
proves properties of that model. Input, output and randomness are left out.

- **Jumps and hits** (`jumps_and_hits.py`) is a board game driven by an
  instruction tape.
  - A map of `n` entries is generated: `nop`, then `add N`, `sub N`, `mul N`,
    `jmp T` or `hlt` for each interior slot, then `hlt`.
  - The map is drawn on a character grid in snake order.
  - Each turn a die moves the player along the map modulo its length. An
    arithmetic entry updates the score. A `jmp` entry moves the player once
    more, and the game ends on `hlt`.
- **Battleship** (`battleship.py`) is the board logic of two-player
  Battleship. It covers blank boards, placing the five ships, checking and
  resolving shots, and the win check.
- **Where's Carmen** (`carmen.py`) is a text adventure over a world of
  locations, people and clues.
  - `build_world` prepares the world.
  - `can_go` searches the location graph depth first for a route that avoids
    locked locations.
  - Talking to people and investigating clues unlock locations and reveal
    people and clues.
  - The main loop classifies each typed command.
  - `carmen.py` holds two identical copies of the program, lines 1-251 and
    258-519. Only the first is cited.

Modules and files:

| file | module | contents |
|---|---|---|
| `option.dfy` | `Options` | `Option`, for absent keys and failed parses |
| `text.dfy` | `Text` | the Python string operations used: ASCII case mapping, Python whitespace |
| `instructions.dfy` | `Instructions` | instructions, their text form, `math_command`, `jump` |
| `mapgen.dfy` | `MapGen` | `generate_random_map` over injected draws |
| `engine.dfy` | `Engine` | one turn of `play_game`, and a reference semantics on instructions |
| `grid.dfy` | `Grid` | `make_grid`, snake layout, `fill_grid_square` |
| `battleship.dfy` | `Battleship` | boards, placement, shots, win check |
| `carmen_data.dfy` | `CarmenData` | the world records and `build_world` |
| `carmen_routes.dfy` | `Routes` | `can_go` and its reference meaning, reachability |
| `carmen_actions.dfy` | `Actions` | unlock loops, `talk_to_person`, `investigate_location`, display filters |
| `carmen_game.dfy` | `Dispatch` | command classification and one pass of the command loop |

How the model treats the Python program:

- **Randomness becomes parameters.**
  - Each interior slot of the map takes a `Draw`: the two `randint` results
    and the index `random.choices` returned.
  - Each turn takes its die roll as a parameter.
- **Python errors become preconditions.** Where Python would raise
  `IndexError` or `KeyError`, the model states a precondition instead of
  adding an error result the code does not have. Examples:
  - a malformed map entry;
  - a jump off the map;
  - an off-board index;
  - a missing dictionary key.

  The one exception is `display locations`: a location without a
  `starts-locked` flag makes it raise `KeyError`, which ends the program,
  and `Dispatch.Turn` returns that outcome.
- **Python indexing is modelled as Python does it.** Negative list indices
  count from the end (`Battleship.PyIndex`). Slices clamp (`Text.Drop`,
  `Text.Take`). `%` with a positive divisor matches Dafny's `%`.
- **The visited list of `can_go` is a set.** The code only tests
  membership in it.

What the jumps-and-hits code does at its edges:

- A requested length below 3 yields `["nop", "hlt"]`. No length is
  rejected.
- A grid row holds `k = ceil(sqrt(n))` cells, and rows alternate direction
  (snake order).
- Landing on `jmp 7` with `add 20` at index 7 moves to 7 but does not add
  20. The code reports the target entry without executing it, so the score
  stays 0 (`Engine.JumpThenAddExample`).
- The loop stops when the player lands on `hlt`.

## Model

| member | source | states |
|---|---|---|
| `Text.Lower` | carmen.py:214 | `str.lower()`: same length, each ASCII capital replaced by its small letter and every other character kept |
| `Text.Capitalize` | carmen.py:223 | `str.capitalize()`: same length, first character upper-cased, every later one lower-cased |
| `Text.Strip` | carmen.py:230 | `str.strip()`: the slice of the input left once leading and trailing whitespace is removed, neither starting nor ending with whitespace |
| `Text.Words` | jumps_and_hits.py:77 | `split()` yields only non-empty words free of whitespace |
| `Text.WordsAppend` | jumps_and_hits.py:77 | `split()` of two texts joined by a space is the words of the first followed by the words of the second |
| `Text.WordsSeparator` | jumps_and_hits.py:77 | `split()` breaks `old<U+001C>map` into `old` and `map`: information separators are whitespace |
| `Text.WordsJoinSpace` | carmen.py:117 | splitting words joined with single spaces gives the words back |
| `Text.ParseNatToString` | jumps_and_hits.py:78 | `int(str(n)) == n` for every natural number |
| `Text.SplitLinesJoin` | jumps_and_hits.py:60 | `"\n".join(s.split("\n")) == s`: splitting into lines loses nothing |
| `Instructions.Format` | jumps_and_hits.py:20 | the text the map stores for each instruction: `nop`, `add N`, `sub N`, `mul N`, `jmp T`, `hlt` |
| `Instructions.Parse` | jumps_and_hits.py:77-92 | a printed map entry decoded: `nop` and `hlt` exactly, `add`/`sub`/`mul`/`jmp` followed by a numeral that `int` reads; anything else has no decoding |
| `Instructions.OperandShape` | jumps_and_hits.py:18-20 | an operand instruction prints as its word, a space and its number, and that word and number decode back to it |
| `Instructions.ParseOperand` | jumps_and_hits.py:77-92 | `op N` reads back as what `op` and N decode to |
| `Instructions.ParseFormat` | jumps_and_hits.py:77-92 | the text written for every instruction splits and `int`s back to the same operation and number |
| `Instructions.ParseOperandFormat` | jumps_and_hits.py:77-92 | `op N` is neither `nop` nor `hlt`, splits into two words, and reads back as operation `op` and number N |
| `Instructions.FormatInjective` | jumps_and_hits.py:20 | two instructions print the same iff they are equal |
| `Instructions.FormatShape` | jumps_and_hits.py:126-130 | printed instructions survive `.lower()` and their first three characters name the operation |
| `Instructions.MathCommand` | jumps_and_hits.py:73-85 | `add`, `sub`, `mul` give score plus, minus, times the operand; any other operation leaves the score alone |
| `Instructions.MathCommandOfFormat` | jumps_and_hits.py:77-85 | on printed instructions `math_command` agrees with the reference arithmetic `Arith`, and `jmp T` leaves the score alone |
| `Instructions.JumpTarget` | jumps_and_hits.py:87-92 | the new position is the operand, and for a `jmp` entry it is the target the entry parses to |
| `Instructions.JumpTargetOfFormat` | jumps_and_hits.py:91-92 | `jmp T` jumps to T |
| `MapGen.GenerateMap` | jumps_and_hits.py:8-22 | length is `max(length, 2)`; first entry `nop`, last `hlt`; each interior entry parses to the instruction its draws chose, with operands in [1,100] and jump targets in [0, length-1] |
| `MapGen.EntryReadsBack` | jumps_and_hits.py:18-20 | an entry drawn in range reads back to the chosen instruction, with its operands in range |
| `MapGen.Program` | jumps_and_hits.py:16-22 | the generated map is the printed form of an instruction list starting with `Nop` and ending with `Hlt` |
| `Engine.Step` | jumps_and_hits.py:124-137 | the new position is the landing square, or the jump target; only a directly landed arithmetic entry changes the score; the game is over iff the reported entry is `hlt` |
| `Engine.Exec` | jumps_and_hits.py:124-132 | the reference turn on instructions stays on the map and reports the instruction at its final position |
| `Engine.ExecutableFormat` | jumps_and_hits.py:128-131 | a printed instruction meets everything a turn demands of the entry it lands on |
| `Engine.StepMatchesExec` | jumps_and_hits.py:124-137 | on a map printed from instructions whose jumps stay on the map, every turn is defined and equals the reference turn |
| `Engine.JumpReportsWithoutExecuting` | jumps_and_hits.py:130-132 | landing on `jmp T` ends at T with the score untouched and reports the entry at T, ending the game only if it is `hlt` |
| `Engine.ProgramJumpsInRange` | jumps_and_hits.py:19-20 | every jump in a generated map targets an entry of the map |
| `Engine.GeneratedMapSteps` | jumps_and_hits.py:124-132 | on any generated map, every turn from any position with any roll is defined and matches the reference turn |
| `Engine.JumpThenAddExample` | jumps_and_hits.py:128-132 | roll 3 from 0 onto `jmp 7` with `add 20` at 7 ends at 7 with score 0 |
| `Engine.WrapThenArithmeticExample` | jumps_and_hits.py:125-129 | position 8 plus roll 5 wraps to 3 on a ten-entry map, and two arithmetic turns give (10 - 4) * 3 |
| `Grid.CeilSqrt` | jumps_and_hits.py:30-32 | the cells per row is the least k with k * k >= n |
| `Grid.CeilSqrtPositive` | jumps_and_hits.py:30-32 | k is at least 1 exactly when the map is not empty |
| `Grid.TableHeight` | jumps_and_hits.py:33-35 | the cell-row count h is the least with h * k >= n (-1 for an empty map) |
| `Grid.MakeGrid` | jumps_and_hits.py:37-40 | the grid has `3h+1` rows of `8k+1` characters, `*` on every third row and every eighth column, blank elsewhere |
| `Grid.CellOf` | jumps_and_hits.py:52-58 | entry i is in cell row i / k, at column `8*(i%k)` on even rows and `8*(k-1-i%k)` on odd rows, inside the grid width |
| `Grid.SnakeWithinRow` | jumps_and_hits.py:52-58 | consecutive entries in one cell row are one cell apart, rightwards on even rows and leftwards on odd rows |
| `Grid.SnakeRowBreak` | jumps_and_hits.py:52-58 | across a row break the next entry keeps the column and moves one cell row down |
| `Grid.CellsDistinct` | jumps_and_hits.py:52-58 | distinct entries get distinct cells |
| `Grid.WriteLines` | jumps_and_hits.py:60-62 | line r, character j of the text lands at (y + r, x + j), and every other character is unchanged |
| `Grid.FillGridSquare` | jumps_and_hits.py:43-62 | the message is written from one row below and one column right of the cell's corner, and nothing else changes |
| `Grid.RowWithinHeight` | jumps_and_hits.py:33-35 | the height correction never drops the cell row of an existing entry |
| `Grid.LabelStaysInCell` | jumps_and_hits.py:34-62 | a label of at most two lines of at most seven characters fits the grid, lands strictly inside its entry's cell, and leaves every border `*` |
| `Battleship.CreateBoard` | battleship.py:8-15 | a 10 by 10 board of blanks with no occupied cell |
| `Battleship.PyIndex` | battleship.py:80 | Python's index into a ten-element list: in range, and equal to the index modulo 10 |
| `Battleship.Positions` | battleship.py:77-89 | the ship's `length` cells, rightwards for `r` and downwards otherwise |
| `Battleship.WriteCells` | battleship.py:83-84 | each listed cell gets the character and every other cell keeps its content |
| `Battleship.WriteCellsCount` | battleship.py:79-84 | writing a ship initial into distinct blank cells occupies exactly that many more cells |
| `Battleship.GuardAsWritten` | battleship.py:76-88 | the range tests of `place_ships`: `r` with `start_x + length <= 10`, or `d` with `start_y + length <= 10` |
| `Battleship.PlaceShipAsWritten` | battleship.py:76-101 | the placement step as written is accepted iff the far-end test passes and every cell Python indexes is blank; it then writes exactly those cells, and a refusal changes nothing |
| `Battleship.ShipWrapsAroundEdge` | battleship.py:76-84 | a Carrier started at x = -2 going right is accepted and wraps round to columns 8, 9, 0, 1, 2 |
| `Battleship.ResolveDistinct` | battleship.py:76-84 | a ship of at most ten cells covers no cell twice, even when Python's negative indexing wraps it |
| `Battleship.PlaceShipAsWrittenCount` | battleship.py:76-101 | a ship placed as written occupies exactly `length` more cells, wrapped or not |
| `Battleship.PositionsShape` | battleship.py:77-89 | on the board, the ship's positions are distinct and are exactly its cells |
| `Battleship.PlaceShip` | battleship.py:76-101 | accepted iff the whole ship is on the board and all its cells are blank; then exactly its cells get the initial and nothing else changes; a refusal changes nothing |
| `Battleship.PlaceShipCount` | battleship.py:79-84 | a placed ship occupies exactly `length` more cells, so it overlaps nothing |
| `Battleship.PlaceFleetAsWritten` | battleship.py:66-101 | `place_ships` as written: when every request succeeds, the occupied cells grow by the sum of the placed ships' lengths |
| `Battleship.FleetOccupies17AsWritten` | battleship.py:5-6 | five successful placements as written on a blank board leave exactly 17 occupied cells |
| `Battleship.PlaceFleet` | battleship.py:66-101 | the intended fleet, with the corrected range test: the occupied cells grow by the sum of the placed ships' lengths |
| `Battleship.FleetOccupies17` | battleship.py:5-6 | five successful corrected placements on a blank board leave exactly 17 occupied cells |
| `Battleship.FleetsDisagreeOnWrap` | battleship.py:76-84 | the Carrier at x = -2 going right is placed by the program and refused by the corrected placement |
| `Battleship.ShotAccepted` | battleship.py:128 | the shot validity test: on the board and not already `X` or `-`, reading `grid[x][y]` |
| `Battleship.CheckShot` | battleship.py:134-154 | a hit iff the cell was not blank, returning its old content; the cell becomes `X` or `-`; no other cell changes |
| `Battleship.ShotNotRepeatable` | battleship.py:128 | after a shot that cell is refused by the shot validity test, and no other cell's validity changes |
| `Battleship.ShotsReadTransposed` | battleship.py:148-154 | with one ship placed, a shot at (x, y) hits iff (y, x) is a placement cell of the ship |
| `Battleship.TransposedShotExample` | battleship.py:148-154 | a ship along row 0 is missed at x = 2, y = 0 and hit at x = 0, y = 2 |
| `Battleship.EveryCell` | battleship.py:166-170 | true iff every cell satisfies the test |
| `Battleship.CheckWinCondition` | battleship.py:156-170 | the win check as written: true iff every cell is blank |
| `Battleship.NoWinAfterAnyShot` | battleship.py:148-170 | after any shot the win check as written is false |
| `Battleship.AllShipsSunk` | battleship.py:156-170 | the intended win check: true iff every cell is blank, a hit or a miss |
| `Battleship.SinkingLastShipCellWins` | battleship.py:156-170 | hitting the last ship cell makes the intended check true and leaves the written one false |
| `Battleship.SunkIsStable` | battleship.py:160-170 | the intended check is false while a ship cell remains, and no shot undoes it |
| `Battleship.ChecksAgreeBeforeShots` | battleship.py:166-170 | before any shot the intended and written checks agree |
| `CarmenData.BuildWorld` | carmen.py:23-37 | `locked` takes `starts-locked` (default False); people's `hidden` takes `starts-hidden` (default False); every clue is hidden; no name is added or removed |
| `CarmenData.BuildWorldPrepares` | carmen.py:32-37 | afterwards every hidden flag is present, every clue hidden, and people who start hidden are hidden |
| `CarmenData.BuildWorldIdempotent` | carmen.py:32-37 | building twice equals building once |
| `Routes.Dfs` | carmen.py:53-64 | a call marks its start visited and the visited set only grows |
| `Routes.DfsNeighbors` | carmen.py:60-64 | the neighbour loop only grows the visited set |
| `Routes.DfsSound` | carmen.py:56-63 | a successful search implies a route from start to end along unlocked connections |
| `Routes.DfsNeighborsSound` | carmen.py:60-63 | a successful neighbour loop went through an unlocked neighbour from which the end is reachable |
| `Routes.DfsClosed` | carmen.py:53-64 | a failed search never visits the end, and every location it visited has all its moves into the visited set |
| `Routes.DfsNeighborsClosed` | carmen.py:60-64 | a failed neighbour loop visited every unlocked neighbour and left the visited set closed and free of the end |
| `Routes.ClosedNoEscape` | carmen.py:60-64 | no route leaves a set closed under moves |
| `Routes.DfsComplete` | carmen.py:40-64 | whenever a route exists, the search from an empty visited list finds it |
| `Routes.CanGo` | carmen.py:40-64 | `can_go` is true iff a route leads from start to end, each move entering an unlocked connection |
| `Routes.ReachableEndsInLocs` | carmen.py:224-225 | the end of a route from a known location is a known location |
| `Actions.UnlockLocations` | carmen.py:84-88 | exactly the listed locations get `starts-locked` False and nothing else changes |
| `Actions.UnhidePeople` | carmen.py:90-94 | exactly the people a listed name capitalises to are revealed and nothing else changes |
| `Actions.UnhideClues` | carmen.py:96-100 | exactly the clues a listed name capitalises to are revealed and nothing else changes |
| `Actions.ApplyUnlocksSpec` | carmen.py:84-100 | the three loops together only unlock and reveal, and exactly what the lists name |
| `Actions.TalkAllowed` | carmen.py:78-81 | the guard of `talk_to_person`: the capitalised name is a person at the current location who is not hidden |
| `Actions.TalkToPerson` | carmen.py:67-102 | a failed guard changes nothing; otherwise exactly the person's unlocks happen and nothing else changes |
| `Actions.CapitalizeKeepsWords` | carmen.py:117 | capitalising keeps words non-empty and free of whitespace |
| `Actions.TitleWords` | carmen.py:117 | splitting the normalised clue name gives exactly the capitalised words of the typed name |
| `Actions.TitleWordsSeparator` | carmen.py:117 | a clue typed as `old<U+001C>map` is looked up as `Old Map` |
| `Actions.CapitalizeIdempotent` | carmen.py:117 | capitalising twice is capitalising once |
| `Actions.TitleWordsIdempotent` | carmen.py:117 | a normalised clue name normalises to itself |
| `Actions.InvestigateAllowed` | carmen.py:117-121 | the guard of `investigate_location`: the normalised clue exists, is not hidden and lists the current location |
| `Actions.InvestigateLocation` | carmen.py:105-142 | a failed guard changes nothing; otherwise exactly the clue's unlocks happen and nothing else changes |
| `Actions.DisplayClues` | carmen.py:158-170 | exactly the clues that are not hidden and list the current location |
| `Actions.DisplayPeople` | carmen.py:173-185 | exactly the people who are not hidden and stand at the current location |
| `Actions.ListedCluesAreInvestigable` | carmen.py:117-121 | a clue can be investigated iff its normalised name is listed at the current location |
| `Actions.ListedPeopleAreTalkable` | carmen.py:78-81 | a person can be talked to iff the capitalised name is listed at the current location |
| `Actions.PathsCarryOver` | carmen.py:58-61 | a route stays a route when nothing unlocked becomes locked |
| `Actions.MoreMovesKeepRoutes` | carmen.py:58-61 | more moves keep the route data well formed and keep every route |
| `Actions.UnlocksOnlyOpen` | carmen.py:84-100 | unlocks never close a route, never hide anything and never remove a listed clue or person |
| `Actions.UnlockTwice` | carmen.py:124-140 | applying the same unlocks twice equals applying them once |
| `Actions.TalkIdempotent` | carmen.py:78-100 | talking to the same person twice has the effect of talking once |
| `Actions.LockedFlagUnread` | carmen.py:33 | the `locked` flag `build_world` writes changes no route and no well-formedness |
| `Dispatch.StripKeepsChars` | carmen.py:230 | `strip()` keeps only characters of its input |
| `Dispatch.ArgumentNoUpper` | carmen.py:230 | on a capital-free line, the stripped rest after any prefix is capital-free |
| `Dispatch.CapitalizeTail` | carmen.py:223 | after `capitalize()` no character past the first is a capital |
| `Dispatch.ParseCommand` | carmen.py:216-247 | on a capital-free line the talk and investigate arguments are capital-free, and a destination has no capital after its first character |
| `Dispatch.Classify` | carmen.py:214-247 | talk and investigate arguments carry no capitals, and a destination has none after its first character |
| `Dispatch.LowerAppend` | carmen.py:214 | lower-casing a lower-case prefix plus a name lower-cases only the name |
| `Dispatch.CapitalizeLower` | carmen.py:223 | capitalising ignores the case a name was typed in |
| `Dispatch.ClassifyPrefixed` | carmen.py:214 | a typed prefix plus a name is dispatched as the prefix plus the lowered name |
| `Dispatch.PrefixSplit` | carmen.py:222 | a prefix plus a rest starts with the prefix, and dropping the prefix's length leaves the rest |
| `Dispatch.ParseGoTo` | carmen.py:222-223 | on a lowered line, `go to <rest>` is a move to the capitalised rest |
| `Dispatch.GoToTakesRest` | carmen.py:222-223 | `go to <name>` asks for the capitalised name |
| `Dispatch.TravelTail` | carmen.py:223 | `command[6:]` of `travel to <rest>` is ` to <rest>` |
| `Dispatch.ParseTravel` | carmen.py:222-223 | on a lowered line, `travel to <rest>` is a move to ` to <rest>`, capitalised |
| `Dispatch.ClassifyTravel` | carmen.py:214-223 | a typed `travel to <name>` is a move to ` to <name>` lower-cased, then capitalised |
| `Dispatch.CapitalizeAfterSpace` | carmen.py:223 | `capitalize()` leaves a space followed by capital-free text unchanged |
| `Dispatch.NoUpperAppend` | carmen.py:214 | joining two capital-free texts gives a capital-free text |
| `Dispatch.TravelToMangles` | carmen.py:222-223 | `travel to <name>` asks for ` to <name>`, never the typed name |
| `Dispatch.ParseTalk` | carmen.py:229-231 | on a lowered line, `talk to <rest>` names the stripped rest |
| `Dispatch.TalkToTakesRest` | carmen.py:229-231 | `talk to <name>` passes the lower-cased, stripped name |
| `Dispatch.ParseInvestigate` | carmen.py:232-234 | on a lowered line, `investigate <rest>` names the stripped rest |
| `Dispatch.InvestigateTakesRest` | carmen.py:232-234 | `investigate <name>` passes the lower-cased, stripped name |
| `Dispatch.ClassifyCatch` | carmen.py:235 | `catch carmen` is classified as a catch attempt |
| `Dispatch.ParseKeywords` | carmen.py:216-245 | each fixed command is recognised by exactly its lowered line: the three listings, `catch carmen`, and `quit` or `exit` |
| `Dispatch.ClassifyKeywords` | carmen.py:214-245 | the same for the typed line, compared after lower-casing |
| `Dispatch.Turn` | carmen.py:212-247 | the game stays playable; a move goes to the destination exactly when a route leads there; talk and investigate apply their actions; listings, quitting and unrecognised lines change nothing; the world only gains unlocks; misses grow by one on every failed catch and on nothing else; the loop ends on quit and exit and when listing meets a location without `starts-locked` (the `KeyError` of line 155); the loss message comes exactly on the third miss |
| `Dispatch.TravelNeverMoves` | carmen.py:222-226 | when no location name starts with ` to `, `travel to` never moves the player |
| `Dispatch.CatchDoesNotEndGame` | carmen.py:235-237 | catching Carmen reports the catch and leaves the game running and unchanged |

## Left out

- Console I/O is left out. That covers every `input` and `print`, and the
  loops that only prompt and print:
  - `play` and its restart;
  - the prompting in `place_ships` and `register_shot`;
  - `run_game`;
  - the read loop of `carmen_sandiego`;
  - the printing in every `display_*` function.
  `Dispatch.Turn` models one pass of the Carmen loop, with a `Reply` naming
  the message printed.
- `display_board` of both games and `display_ship_placement_board` are left
  out because they only format and print. Of `display_locations` only the
  `KeyError` it can raise is modelled. `Grid.LabelStaysInCell` covers the labels `display_board`
  writes whenever they fit in a cell.
- `load_game` is left out because it reads a file and parses JSON. The world
  is a parameter.
- Randomness is left out.
  - `random.seed`, `randint`, `choices` and `roll_dice` are replaced by
    parameters: the `Draw` records and the roll.
  - The weights `[5,2,2,2,3,1]` are probabilistic and not stated.
- The floating-point square root in `make_grid` and `fill_grid_square` is
  replaced by an exact integer ceiling square root. Floating-point rounding
  is not modelled.
- The `roll = 0` assignments at jumps_and_hits.py:138-142 are left out
  because nothing reads them.
- Text handling is partly limited to ASCII.
  - `lower`, `upper` and `capitalize` map ASCII letters only. Whitespace for
    `split()` and `strip()` is Python's full set, as `str.isspace()` defines
    it.
  - `int()` is modelled on digit strings only: no sign, no surrounding
    whitespace, no underscores. Generated maps never contain anything else.
  - No Unicode case rules.
- The shot coordinates in `check_shot` and `register_shot` and the cell
  index of `fill_grid_square` are non-negative in the model. The code only
  produces such values.
- Python truthiness is modelled on booleans only. The world's flags are
  `bool` values, not arbitrary JSON values, and a person record is never an
  empty dictionary after `build_world`.
- The display functions iterate dictionaries in insertion order. The model
  returns the selected names as a set, so the order of the listing is not
  modelled.
- Required keys are modelled as record fields, so a missing required key in
  the game file is out of the model: a location's `connections`, a person's
  `location`, a clue's `clue-text`.
- `Routes.WellFormed` is stronger than `can_go` strictly needs. It asks of
  every location that its connections be known locations with a
  `starts-locked` flag. Python only fails on the locations the search
  actually visits.
- `Dispatch.Turn` requires the whole game to be playable, not only the parts
  the command touches: well-formed routes, a known current location, and
  every hidden flag present.
- `Battleship.PlaceShipAsWritten` requires that Python can index every cell
  when the range test passes. Python raises `IndexError` for a start below
  -10 on either axis (`r` with x = -11 indexes `board[y][-11]`), and for a
  start of 10 or more on the unchecked axis. `Battleship.PlaceFleetAsWritten`
  carries the same requirement for every request.
- `Instructions.Parse` decodes only the printed form the generator writes.
  The interpreter lower-cases an entry and looks at its first three letters,
  so it also runs `JMP 1` and `jmpx 1` as jumps, which `Parse` has no
  decoding for. The interpreter's own reading of arbitrary entries is
  `Engine.Step`.

## Findings

| source | as written | input that shows it | evidently intended | confidence | as-written member | corrected member |
|---|---|---|---|---|---|---|
| battleship.py:76-101 | only the far end of the ship is range-checked, so a negative start is accepted and Python's negative indexing wraps the ship round the board edge | Carrier at x = -2, y = 0, direction `r` on an empty board: accepted, occupying columns 8, 9, 0, 1, 2 of row 0 | refuse any ship not wholly on the board | high; not executed | `Battleship.ShipWrapsAroundEdge` (on `Battleship.PlaceShipAsWritten`) | `Battleship.PlaceShip` (with `Battleship.PlaceShipCount`) |
| battleship.py:166-170 | the win check is true only when every cell is blank, but every shot leaves `X` or `-`, so no player can ever win | any board after any shot, for example the last ship cell being hit | true once no ship cell is left: every cell blank, `X` or `-` | high; not executed | `Battleship.NoWinAfterAnyShot` (on `Battleship.CheckWinCondition`) | `Battleship.AllShipsSunk` (with `Battleship.SinkingLastShipCellWins`) |

Two further behaviours are kept as written and not counted as findings:

- Shots read the board as `board[x][y]`, transposed against placement's
  `board[y][x]` (`Battleship.ShotsReadTransposed`).
- `travel to <name>` asks for the destination ` to <name>`
  (`Dispatch.TravelToMangles`).
