# Othello rules engine in Dafny

This project models the rules engine of a console Othello game written in C# (`Program.cs`).
The board is a `string[,]` grid whose cells hold " ", "X" or "O". The two players are
records `Player(Colour, Symbol, Name)`: Black plays "X" and White plays "O". The engine has
three static methods:

- `TryDirection` scans one of the eight rays from a target cell. It looks for a run of
  opposing discs closed by one of the mover's discs. On success it flips.
- `TryMove` checks bounds and occupancy and places the mark provisionally. It then runs
  `TryDirection` in all eight directions and takes the mark back if no direction succeeded.
- `GetScore` counts a player's discs.

The model keeps the program's form. The board is an `array2<Cell>` that the methods update
in place. Each method is proved against a pure function on the board's contents, a `Grid`
(a rectangular `seq<seq<Cell>>`):

- `TryDirection` against `Rules.DirectionResult`;
- `TryMove` against `Rules.MoveResult`;
- `GetScore` against `Score.Count`.

Lemmas then prove what the program promises about those functions.

Modules:

- `Board`: cells, players, grids, and the value view `Snapshot` of the array.
- `Rules`: `TryDirection` and `TryMove`, their loops, and the specification functions they
  are proved against. `Rules.Flanked` is a quantified
  definition of a sandwich, independent of the loop.
- `Moves`: what a whole move does. The eight scans do not interfere with one another. A move
  is legal exactly when some direction is a sandwich on the original board. It flips one
  disc per such direction.
- `Score`: `GetScore`, the link between the count and the multiplicity of a mark, the bound
  on the scores, and how a move changes the scores.
- `Intended`: the two places where the code does not do what its comments and the rules of
  Othello ask for, each with a corrected definition (see "Findings").

The model follows the code as written in the two places where the code does not do what
its own comments ask for:

- The comment at `Program.cs:103` says the test checks that the position is within the
  board, but the test at line 104 rejects only a row or column greater than the board's
  size. It lets through a row or column equal to the size, and a negative row or column when
  the other coordinate is not past the edge. For such a target the array access at line 108
  raises an exception, and `Main` does not catch it.
- The comments at `Program.cs:173` and `Program.cs:204` say the scan flips the opponent's
  pieces, and the rules of Othello flip every disc of the run. The flip loop at
  `Program.cs:207-215` flips only the disc next to the target.

Both are modelled as written and reported under "Findings", each with a corrected definition.

## Model

| member | source | states |
|---|---|---|
| `Board.SetCell` | Program.cs:112 | writing a cell of the board changes that cell to the given mark and no other cell |
| `Rules.RayIsProduct` | Program.cs:196-199 | the k-th step of a ray, reached by repeated steps, is the coordinate `moveRow + deltaRow * flips` the program computes |
| `Rules.ScanStep` | Program.cs:193-218 | one pass of the scan loop over an opposing disc leaves the outcome of the scan unchanged and strictly shrinks the distance to the edge, so the `while (validMove)` loop, whose flag is never cleared, still ends |
| `Rules.ScanFrom` | Program.cs:193-219 | the scan loop standing at distance k: a reported closing distance is never below k; what it reports is proved in `Rules.ScanFromCloses` and `Rules.ScanStep` |
| `Rules.Terminator` | Program.cs:179-219 | the whole scan: when it reports a distance, that distance is at least 2 and the adjacent cell is on the board and holds the other player's disc; its meaning is proved in `Rules.TerminatorCloses` |
| `Rules.ScanFromCloses` | Program.cs:193-219 | the scan loop started at distance k, with opposing discs before k, stops at distance t exactly when t closes a sandwich |
| `Rules.TerminatorCloses` | Program.cs:179-219 | the whole scan reports distance t exactly when t closes a sandwich, and it succeeds exactly when the ray is a sandwich |
| `Rules.DirectionResult` | Program.cs:175-221 | `TryDirection` as written: the board keeps its shape, a success means the adjacent cell held the other player's disc, and a failure leaves the board as it was; its meaning is proved in `Rules.DirectionSucceedsIffFlanked` and `Rules.DirectionFlipsAdjacent` |
| `Rules.DirectionSucceedsIffFlanked` | Program.cs:175-221 | a scan succeeds if and only if its ray is a sandwich; it fails when the adjacent cell is off the board, blank or the player's own; a failed scan leaves the board unchanged |
| `Rules.DirectionFlipsAdjacent` | Program.cs:205-216 | a successful scan turns only the cell next to the target, which held the other player's disc, into the mover's; every other cell, the target and the closing disc among them, is unchanged |
| `Rules.Flip` | Program.cs:207-215 | the flip loop writes the adjacent cell on its first pass and the closing cell (already the mover's) on every later pass, so the board afterwards differs only at the adjacent cell |
| `Rules.ScanRay` | Program.cs:190-220 | the scan loop returns true exactly when the scan finds a sandwich, and then only the adjacent cell changes; on false nothing changes |
| `Rules.TryDirection` | Program.cs:175-221 | the method's result and the board it leaves are those of `DirectionResult` on the board it was given |
| `Rules.Sweep` | Program.cs:115-163 | after n of the eight scans the board keeps its shape and at most n scans have succeeded |
| `Rules.TryAllDirections` | Program.cs:115-163 | the eight calls, in the program's order, count the successful scans and leave the board `Sweep` describes |
| `Rules.PastEdge` | Program.cs:104-105 | the bounds test as written: a row greater than the number of rows or a column greater than the number of columns; no contract of its own, its consequences are proved in `Intended.GuardWitness` |
| `Rules.MoveResult` | Program.cs:101-171 | the move function keeps the board's shape |
| `Rules.TryMove` | Program.cs:101-171 | the method's result and the board it leaves are those of `MoveResult` on the board it was given |
| `Moves.OriginOffRay` | Program.cs:196-199 | no step of a ray lands on the target, so no scan writes the target |
| `Moves.PlacingKeepsFlanked` | Program.cs:112 | placing the mark on the target first does not change whether any ray from it is a sandwich |
| `Moves.SweptRayUnchanged` | Program.cs:117-163 | the earlier scans of a move leave the ray of a later direction as it was |
| `Moves.SweepFlipsNeighbours` | Program.cs:117-163 | after n scans exactly the cells next to the target in the sandwich directions among the first n hold the mover's mark; every other cell is unchanged |
| `Moves.SweepFlipsFlanked` | Program.cs:115-163 | the counter after n scans is the number of sandwich directions among the first n on the starting board, and the cells are as above |
| `Moves.FlankedNeighbourOpposes` | Program.cs:184-188 | on a sandwich the adjacent cell is on the board and holds the other player's disc |
| `Moves.PlacedFlipped` | Program.cs:112 | the sandwich directions and the cells to flip are the same before and after the provisional placement |
| `Moves.MoveLegalIffFlanked` | Program.cs:101-171 | a move is accepted if and only if its target is on the board, blank, and at least one of the eight directions is a sandwich |
| `Moves.FlippedCellsOppose` | Program.cs:205-216 | every cell a move flips is next to the target, not the target itself, and held the other player's disc |
| `Moves.MoveRejectedKeepsBoard` | Program.cs:104-168 | a rejected move, whether past the edge, occupied or without a sandwich, leaves the board exactly as it was, because the provisional mark is taken back (lines 165-168) |
| `Moves.MoveAcceptedFlips` | Program.cs:112-170 | an accepted move puts the mark on the target and on the adjacent cell of every sandwich direction, each of which held the other player's disc, and changes no other cell |
| `Score.GetScore` | Program.cs:225-238 | the nested loops return the number of cells holding the player's mark, and the board is not modified |
| `Score.Count` | Program.cs:231-235 | the number of cells of the board holding a mark, row by row (with `Score.CountRows` and `Score.CountRow`); no contract of its own, its meaning is proved in `Score.CountIsMultiplicity` and `Score.ScoreBounds` |
| `Score.CountIsMultiplicity` | Program.cs:231-235 | that number is the multiplicity of the mark in the board read row by row |
| `Score.ScoreBounds` | Program.cs:225-238 | the two scores and the blank cells add up to rows × cols, so each score lies in [0, rows × cols] |
| `Score.CountPut` | Program.cs:233 | writing one cell changes a count by at most one: up for the mark written, down for the mark overwritten |
| `Score.ScanScore` | Program.cs:205-216 | a successful scan raises the mover's score by one and lowers the other player's by one; a failed one changes neither |
| `Score.SweepScore` | Program.cs:117-163 | each successful scan raises the mover's score by one and lowers the other player's by one |
| `Score.MoveScore` | Program.cs:101-171 | an accepted move raises the mover's score by one plus the number of sandwich directions and lowers the other player's by that number; a rejected move changes neither score |
| `Intended.FlipRun` | Program.cs:207-215 | the corrected flip loop: the board keeps its shape, every cell strictly between the target and the closing disc takes the mark, and no other cell changes |
| `Intended.DirectionIntended` | Program.cs:175-221 | `TryDirection` with the corrected flip; no contract of its own, its meaning is proved in `Intended.DirectionIntendedFlipsRun` and `Intended.ShortRunAgrees` |
| `Intended.DirectionIntendedFlipsRun` | Program.cs:204-216 | the corrected scan succeeds on the same rays as the program's; on success every opposing disc strictly between the target and the closing disc becomes the mover's, and no other cell changes |
| `Intended.ShortRunAgrees` | Program.cs:207-215 | on a run of one opposing disc the program's flip and the corrected one give the same board |
| `Intended.LongRunDiffers` | Program.cs:207-215 | on a longer run the program leaves the second disc with the other player while the corrected flip turns it |
| `Intended.OneDiscFlipWitness` | Program.cs:207-215 | Black playing at the left end of the row "_ O O X" is accepted, and the row becomes "X X O X" |
| `Intended.WholeRunWitness` | Program.cs:204-216 | with the corrected flip the same move gives "X X X X" |
| `Intended.GuardWitness` | Program.cs:104-105 | the program's bounds test admits exactly the off-board targets at most one past the last row and column, among them the row equal to the board's size |
| `Intended.SweepIntended` | Program.cs:117-163 | the corrected scans keep the board's shape, succeed at most once per direction, and change nothing when none succeeds |
| `Intended.MoveIntended` | Program.cs:101-171 | the corrected move keeps the board's shape |
| `Intended.MoveIntendedTotal` | Program.cs:101-171 | the corrected move rejects every off-board target without changing the board, a rejected move leaves the board as it was, and an accepted one was on the board, was blank and now holds the mark |
| `Intended.SweepIntendedKeepsOrigin` | Program.cs:117-163 | no corrected scan writes the target |
| `Intended.RaysDisjoint` | Program.cs:117-163 | two rays from the target in different directions of the table share no cell beyond the target |
| `Moves.TerminatorFrame` | Program.cs:179-219 | the outcome of a scan, the closing distance included, depends only on the cells along its ray |
| `Intended.RunsOffRay` | Program.cs:117-163 | flipping whole runs in earlier directions does not change the scan of a later direction |
| `Intended.SweepIntendedCells` | Program.cs:117-163 | after n corrected scans exactly the cells inside the sandwiches of the first n directions, found on the starting board, hold the mover's mark; every other cell is unchanged |
| `Intended.SweepIntendedCount` | Program.cs:115-163 | the corrected scans succeed once per sandwich direction on the starting board, like the program's |
| `Intended.PlacedRuns` | Program.cs:112 | the provisional placement does not change the runs to flip |
| `Intended.MoveIntendedFlipsRuns` | Program.cs:101-171 | the corrected move accepts exactly the on-board targets the program accepts; an accepted move gives the mark to the target and to every disc inside every sandwich from it, and changes nothing else |

## Left out

- Console input and output are not modelled: the banner, the prompts, reading the board size and the moves, and printing the scores and the winner (`Program.cs:35-97`, `Program.cs:242-278`).
- The turn loop in `Main` (`Program.cs:280-345`) is not modelled. It creates the two players, alternates turns with `(turn + 1) % players.Length` and handles "skip" and "quit". The two players it creates (lines 296-297) are modelled as the constants `Board.BLACK` and `Board.WHITE`.
- `NewBoard`, `DisplayBoard` and `IndexAtLetter` are called by `Main` but not defined in `Program.cs`, so they are not part of this model, and neither is the opening position.
- The `Player` record is declared at `Program.cs:7` and modelled by its three fields. The comments at lines 9-29, which show an equivalent class, are not modelled.
- Cells are the enumeration `Cell` rather than strings. The program only ever compares them with " ", "X" and "O", and the player's symbol is always "X" or "O".
- `Rules.TryMove`: does not model the `IndexOutOfRangeException` that the array access at line 108 raises for a row or column equal to the board's size, or a negative one, when the other coordinate is not past the edge. Its precondition excludes exactly those targets. `Intended.GuardWitness` characterises them.
- `Rules.TryDirection`: requires a direction in {-1, 0, 1}² other than (0, 0). With (0, 0) and an opposing disc on the target, the loop at `Program.cs:193-219` never ends: `deltaRow * flips` stays 0 and each pass only increments `flips`. All eight call sites in `TryMove` pass non-zero directions, so the model does not cover that non-ending case.
- `Rules.TryDirection`: the scan loop and the flip loop are separate methods (`Rules.ScanRay` and `Rules.Flip`), and the eight direction blocks of `TryMove` are a loop over the direction table (`Rules.TryAllDirections`). The statements and their order are the program's.
- Integer overflow is not modelled. A count stays within rows × cols, at most 676 (26 × 26, the largest board `Program.cs:65` allows). The scan coordinates stay within one step of the board. The target coordinates come from `IndexAtLetter`, which is not part of this model, and the test at line 104 rejects any beyond the board's size. The counts and the coordinates are therefore far below the 32-bit limit.

## Findings

| source | as written | input that shows it | evidently intended | confidence | as-written member | corrected member |
|---|---|---|---|---|---|---|
| Program.cs:207-215 | the flip loop writes the adjacent cell once and then rewrites the closing cell `flips` times, so only one disc per direction is flipped | Black plays at the left end of the row "_ O O X": the row becomes "X X O X" | every opposing disc between the target and the closing disc is flipped: "X X X X" | not executed | `Intended.OneDiscFlipWitness` | `Intended.DirectionIntended` (proved in `Intended.DirectionIntendedFlipsRun`, `Intended.MoveIntendedFlipsRuns` and `Intended.WholeRunWitness`) |
| Program.cs:104-105 | the bounds test rejects only `row > rows` or `col > cols` | row equal to the number of rows, or row -1, with column 0 on any board: the test passes and the array access at line 108 fails | reject every target outside [0, rows) × [0, cols) and return false | not executed | `Intended.GuardWitness` | `Intended.MoveIntended` (proved in `Intended.MoveIntendedTotal` and `Intended.MoveIntendedFlipsRuns`) |
