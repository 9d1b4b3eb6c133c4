# Jump61 board engine in Dafny

This project models the board of Jump61, the "jumping cube" game, as implemented by
`jump61/Board.java`. The board has four parts:

- an N x N array of squares in row-major order, each holding an owner (white, red or blue) and a
  number of spots;
- three owner counters (`_white`, `_red`, `_blue`) and a spot counter (`_spots`);
- a stack of undo snapshots.

On that state the board implements the following:

- **Index arithmetic:** `exists`, `row`, `col` and `sqNum`.
- **Grid topology:** `neighbors` and `neighborJumpIndex`.
- **Turn and win rules:** `whoseMove`, `getWinner`, `isLegal` and `numOfSide`.
- **Moves:** the overflow cascade `set`/`addSpot` → `internalSet` → `jump` → `jumpSet`. An over-full
  square gives one spot and its owner to each neighbour, depth first.
- **Snapshots:** snapshot undo, plus `clear`, `copy` and `internalCopy`.
- **Equality and dump:** `equals`/`deepCheck` and the `toString` dump.

Layout:

- `wrappers.dfy`: `Option`, `Result`, and `Outcome`, a result for methods that may raise.
- `errors.dfy`: each condition under which the board throws its `GameException`.
- `sides.dfy`:
  - sides and squares;
  - the dump glyphs;
  - the content of a fresh square.
- `topology.dfy`:
  - square numbers and (row, column) pairs;
  - neighbour counts;
  - the neighbour lists of `neighborJumpIndex`, proved to be exactly the orthogonally adjacent
    squares.
- `rules.dfy`:
  - owner counting and the effect of `colorCount`;
  - the spot total;
  - turn order, the winner, legality;
  - "settled" boards, where no square holds more spots than it has neighbours.
- `dump.dfy`: the text of the `toString` dump, as a function of the squares.
- `board.dfy`: the `Board` class with the array, the counters and the history, as fields its methods
  update in place.
- `boardtests.dfy`: the game of `BoardTest.testMove` (`jump61/BoardTest.java:38-53`), replayed
  through the contracts of `Board`.

Java exceptions are modelled as `Err`/`Fail` results carrying a `GameError`.

The cascade methods `InternalSet`, `Jump`, `Spread`, `SpreadStep` and `JumpSet` are mutually
recursive. Each takes a `fuel`
bound on nesting depth and returns `done`: `done` is false only when the bound cut the cascade off.
Every property of a cascade is stated for the `done` case, or for every case where it holds anyway.
Examples of the latter: the winner check, and that every changed square now belongs to the moving
side. When no neighbour of a jumping square overflows, the board and the counters after the jump
are stated exactly, with no condition on `done` or on the winner: `Boards.QuietSpread` gives each
neighbour in turn, in the order of `neighborJumpIndex`, one more spot and the jumping side's colour,
and moves the counters with it, until the counters show a winner; from then on `jumpSet` changes
nothing. `Boards.QuietSpreadDeposits` shows that a run ending with no winner made every deposit
(`Boards.Deposit`), and `Boards.QuietDeposit` that this is the board with exactly those squares one
spot up.

Two facts about the code shape the model.

- **Fresh squares hold one white spot.** `boardIntialize` builds its squares as `square(WHITE, 0)`
  (`jump61/Board.java:43`). Yet it starts the spot counter at N*N (`:46`), and the tests read a fresh
  square as one white spot. `Square.square` is not part of this model, so the model fixes that
  reading as the constant `Sides.Fresh == Square(White, 1)`.
- **Undo snapshots are taken late.** `set` updates the spot counter (`increaseSpots`) and
  recolours the target square in the owner counters (`colorCount`) before `markUndo` takes its
  snapshot (`jump61/Board.java:262-264`). The cascade's own recolourings (`jumpSet`,
  `jump61/Board.java:274`) come after the snapshot. So `undo` restores the squares exactly, and
  restores the owner counters to their values after the target square's recolouring and before
  the cascade; the spot counter stays one higher than before the move. When the player already
  owned the target square, the owner counters come back exactly. The model follows the code here,
  and `Boards.Board.AddSpotThenUndo` states the result.

- **Counter drift.** After such an undo the owner counters need not describe the squares.
  `Rules.Drift(c, sq)` is, side by side, counter c minus the number of squares of sq that side owns.
  Every step of a move keeps the drift unchanged, so exact counters stay exact, and counters left
  off by an undo stay off by the same amounts.

## Model

| member | source | states |
|---|---|---|
| Sides.Glyph | jump61/Board.java:485-496 | toSingle maps each side to one of `-`, `r`, `b` |
| Sides.GlyphInjective | jump61/Board.java:485-496 | distinct sides get distinct glyphs, so the dump determines every owner |
| Sides.NameInjective | jump61/Board.java:209-219 | comparing sides through their names (`toString().equals`) is the same as comparing the sides |
| Topology.Row | jump61/Board.java:164-170 | row(n) succeeds exactly for 0 <= n < N*N, then lies in 1..N; otherwise the "Not possible row" error |
| Topology.Col | jump61/Board.java:173-179 | col(n) succeeds exactly for 0 <= n < N*N, then lies in 1..N; otherwise the "Not possible column" error |
| Topology.SqNum | jump61/Board.java:182-189 | sqNum(r, c) succeeds exactly when exists(r, c), giving a valid square number; otherwise the "Not possible index" error |
| Topology.CoordsToIndex | jump61/Board.java:153-189 | for an existing (r, c), sqNum's arithmetic gives a valid square number whose row and column arithmetic give back r and c |
| Topology.IndexToCoords | jump61/Board.java:158-179 | for a valid n, row and column arithmetic give an existing (r, c) whose sqNum arithmetic is n |
| Topology.SqNumRoundTrip | jump61/Board.java:164-189 | row(sqNum(r, c)) == r and col(sqNum(r, c)) == c for every existing (r, c) |
| Topology.RowColRoundTrip | jump61/Board.java:164-189 | sqNum(row(n), col(n)) == n for every valid n, and row/col fail together |
| Topology.ExistsAt | jump61/Board.java:153-155 | exists(r, c): row and column both lie in 1..N; Topology.SqNum and Topology.CoordsToIndex tie it to exists(n) |
| Topology.ExistsSq | jump61/Board.java:158-161 | exists(s): 0 <= s < N*N; Topology.Row, Topology.Col and Topology.IndexToCoords tie it to exists(r, c) |
| Topology.Neighbors | jump61/Board.java:515-532 | neighbors(r, c) lies in 0..4, and is at least 2 for an existing square of a board larger than 1 x 1 |
| Topology.NeighborCount | jump61/Board.java:534-537 | neighbors(n) lies in 0..4, and is at least 2 for a valid square of a board larger than 1 x 1 |
| Topology.NeighborJumpIndex | jump61/Board.java:405-463 | an invalid n fails with row's "Not possible row" error; any other failure is "Invalid Neighbor Count"; a list has 2 to 4 entries, none of them n itself |
| Topology.NeighborsByPosition | jump61/Board.java:515-532 | neighbors(r, c) is 2 at a corner, 4 in the interior and 3 elsewhere on the board |
| Topology.EnumerateFails | jump61/Board.java:405-463 | the case analysis of neighborJumpIndex reaches "Invalid Neighbor Count" exactly on a 1 x 1 board, and otherwise lists neighbors(r, c) squares |
| Topology.NeighborJumpIndexFails | jump61/Board.java:405-463 | neighborJumpIndex(n) fails exactly for an invalid n or a 1 x 1 board; otherwise it lists neighbors(n) squares |
| Topology.NeighborList | jump61/Board.java:405-463 | on a board of side N > 1, the list neighborJumpIndex returns for a valid square has neighbors(n) entries |
| Topology.NeighborListInRange | jump61/Board.java:405-463 | every listed neighbour is a valid square other than n |
| Topology.NeighborListExact | jump61/Board.java:405-463 | m is listed iff m is orthogonally adjacent to n, and the list has no repeats |
| Topology.NeighborListsOnFour | jump61/BoardTest.java:237-261 | the neighbour lists of squares 0, 3, 12, 15, 1, 14, 8, 7 and 5 of a 4 x 4 board, in the board's order |
| Rules.Shift | jump61/Board.java:574-606 | colorCount keeps the counter sum, changes nothing for equal sides, else moves one unit from the old side to the new and leaves the third side alone |
| Rules.CountsSum | jump61/Board.java:45-48 | the owner counts of any squares sum to the number of squares |
| Rules.CountsOfUpdate | jump61/Board.java:260-268 | recolouring one square changes the exact owner counts exactly as colorCount changes the counters |
| Rules.TotalUpdate | jump61/Board.java:668-674 | replacing one square changes the spot total by new spots minus old spots, as increaseSpots does |
| Rules.DriftShift | jump61/Board.java:272-278 | recolouring a square while colorCount shifts the counters keeps the counters' distance from the exact owner counts |
| Rules.DriftKeep | jump61/Board.java:405-463 | changing a square's spots but not its owner, as the subtraction in neighborJumpIndex does, keeps that distance |
| Rules.CountOfAll | jump61/Board.java:223-231 | a side's count equals the number of squares iff it owns every square |
| Rules.CountOfBound | jump61/Board.java:234-245 | no side owns more squares than there are |
| Rules.Turn | jump61/Board.java:148-150 | whoseMove is never white |
| Rules.TurnAtStart | jump61/Board.java:46-46 | on a fresh board (N*N spots) Red moves first |
| Rules.TurnAlternates | jump61/Board.java:148-150 | every added spot passes the move to the other player |
| Rules.WinnerOf | jump61/Board.java:223-231 | getWinner is never white, and there is one exactly when Blue's or Red's counter is N*N |
| Rules.WinnerOwnsAll | jump61/Board.java:223-231 | with exact counters, the winner is the non-white side that owns every square |
| Dump.NatToString | jump61/Board.java:475-475 | the decimal spots of a token are a non-empty run of digits |
| Dump.NatToStringValue | jump61/Board.java:475-475 | those digits read back as the number |
| Dump.LastRowSnoc | jump61/Board.java:469-476 | a row of the dump holds 1..N squares, and each square lengthens the last row or starts a new one |
| Dump.RowsTextSnoc | jump61/Board.java:470-477 | appending a square appends its token, after a line break and indent when the last row is full |
| Boards.FreshCounts | jump61/Board.java:38-50 | a fresh board is described exactly by counters (N*N, 0, 0) and spot counter N*N |
| Boards.FreshSettled | jump61/Board.java:38-50 | a fresh board has no over-full square |
| Boards.NewFreshArray | jump61/Board.java:40-44 | the initialisation loop fills a new array, square by square, with fresh squares |
| Boards.QuietSpreadDeposits | jump61/Board.java:272-278 | the quiet loop of jump stops at the first winner: a run that starts with a winner changes neither squares nor counters, and a run that ends with no winner made every deposit, giving Boards.Deposit |
| Boards.QuietDeposit | jump61/Board.java:396-401 | when the listed neighbours are distinct and each is below its neighbour count, every deposit of the loop lands without a further jump, and the result (Boards.Deposit) has exactly those squares one spot up and owned by the jumping side, every other square unchanged |
| Boards.Board.constructor | jump61/Board.java:29-35 | Board(N): a valid fresh N x N board, exact counters, empty history, no over-full square |
| Boards.Board.Default | jump61/Board.java:24-26 | Board(): the fresh 6 x 6 board |
| Boards.Board.Create | jump61/Board.java:29-35 | Board(N) fails with "Size must be greater than 1!" exactly when N <= 1 |
| Boards.Board.FromBoard | jump61/Board.java:54-64 | Board(board0) has board0's size, squares and counters, a fresh array and an empty history |
| Boards.Board.Clear | jump61/Board.java:73-77 | clear(N) gives exactly the state of Board(N), with empty history |
| Boards.Board.Copy | jump61/Board.java:81-95 | copy adopts the other board's size, squares and counters in a fresh array and empties the history |
| Boards.Board.InternalCopy | jump61/Board.java:99-111 | internalCopy overwrites the squares and counters in place and keeps the history |
| Boards.Board.Get | jump61/Board.java:142-144 | get(n) is the square that get(r, c) finds at row(n), col(n) |
| Boards.Board.WhoseMove | jump61/Board.java:148-150 | the side to move is red or blue: red exactly when spots + N is even |
| Boards.Board.Winner | jump61/Board.java:223-231 | getWinner is never white; Blue when Blue's counter is N*N, else Red when Red's is, else none |
| Boards.Board.NumSquares | jump61/Board.java:129-131 | numSquares is the length of the square array |
| Boards.Board.GetAt | jump61/Board.java:135-137 | get(r, c) is the square at sqNum(r, c), or sqNum's error |
| Boards.Board.NumOfSide | jump61/Board.java:234-245 | with exact counters, numOfSide(s) is the number of squares s owns |
| Boards.Board.IsLegal | jump61/Board.java:216-219 | a player may move iff there is no winner yet and the player is the side to move; so white never may, and nobody may after a win |
| Boards.Board.IsLegalAt | jump61/Board.java:209-213 | false whenever isLegal(player) is, without reading the square; when isLegal(player) holds, square n is legal iff it is not the opponent's |
| Boards.Board.IsLegalRC | jump61/Board.java:203-205 | isLegal(player, r, c) fails exactly for a bad (r, c), else agrees with isLegal at sqNum(r, c) |
| Boards.Board.ColorCount | jump61/Board.java:574-606 | the counters become Shift of the old ones, and the new side's count is returned |
| Boards.Board.IncreaseSpots | jump61/Board.java:668-674 | num <= 0 fails with "Not possible set value" and changes nothing; otherwise spots grows by num minus the square's spots |
| Boards.Board.MarkUndo | jump61/Board.java:315-317 | pushes one snapshot of the current squares and counters |
| Boards.Board.ReleaseSpots | jump61/Board.java:405-463 | the over-full square keeps its owner and loses one spot per neighbour; the neighbour list is returned |
| Boards.Board.InternalSet | jump61/Board.java:289-294 | sets the square; within its neighbour count nothing else changes; an over-full square jumps: its neighbours take the player's side (when the cascade completes with no winner), and when each is below its own count the board and counters become Boards.QuietSpread of the set square minus one spot per neighbour, stopping at a winner; the counters' drift is kept; the spot total changes by num minus the old spots when the cascade completes with no winner; a completed cascade ends settled when the old board was settled except at n and num <= neighbours + 1 |
| Boards.Board.Jump | jump61/Board.java:396-401 | S loses one spot per neighbour and, when the cascade completes with no winner, every neighbour takes its owner; when each neighbour is below its own count, the board and counters become Boards.QuietSpread of that released board, stopping at a winner; the drift is kept; spots are conserved when the cascade completes with no winner; a completed cascade ends settled when the old board was settled except at S and S held exactly one spot more than its neighbours |
| Boards.Board.Spread | jump61/Board.java:397-400 | the loop of jump: one jumpSet per listed neighbour, each taking S's owner (when the loop completes with no winner, every listed neighbour is S's owner's and the total has grown by one spot per neighbour); the drift is kept; for distinct neighbours all below their counts the board and counters become Boards.QuietSpread of the old ones |
| Boards.Board.SpreadStep | jump61/Board.java:398-399 | one pass of that loop: carries each of the loop's invariants from one neighbour to the next |
| Boards.Board.JumpSet | jump61/Board.java:272-278 | after a win nothing changes; otherwise the square takes the player's side, the counters shift, the drift is kept, and the spot total changes by num minus the old spots |
| Boards.Board.Set | jump61/Board.java:260-268 | after a win nothing changes; bad (r, c) and num <= 0 fail; otherwise the spot counter moves by num minus the old spots and one snapshot is pushed; without overflow only the square and its counters change; with overflow the neighbours take the player's side when the cascade completes with no winner, and when they are below their counts the board and counters are Boards.QuietSpread of the placed square, stopping at a winner; the drift is kept always; settledness is kept when the old board was settled, num <= neighbours + 1 and the cascade completed |
| Boards.Board.Place | jump61/Board.java:263-265 | colorCount, markUndo and internalSet on square n: the snapshot holds the old squares and the shifted counters, and the result is that of internalSet |
| Boards.Board.AddSpot | jump61/Board.java:249-251 | one more spot for player at (r, c): a square holding a negative number of spots fails with "Not possible set value" and changes nothing; otherwise the spot counter grows by 1, the turn flips, one snapshot of the old squares is pushed; without overflow only that square and its owner's counters change; with overflow the neighbours take the player's side when the cascade completes with no winner and, when they are below their counts, the board and counters are Boards.QuietSpread of the placed square, stopping at a winner; the drift is kept; a settled board stays settled when the cascade completes |
| Boards.Board.AddSpotAt | jump61/Board.java:254-256 | addSpot(player, row(n), col(n)): a bad n fails with row's error, a move after a win does nothing and passes, and otherwise the same contract as addSpot(player, r, c) at square n |
| Boards.Board.Undo | jump61/Board.java:299-312 | restores the squares and counters of the latest snapshot and pops it; an empty history fails with "No history to undo" |
| Boards.Board.AddSpotThenUndo | jump61/BoardTest.java:38-53 | a move followed by undo restores the squares and the history; the owner counters keep only the target square's recolouring, and the spot counter stays one higher; on a square holding a negative number of spots the move fails with "Not possible set value" and nothing changes |
| BoardTests.CornerOfSix | jump61/Board.java:405-463 | on a 6 x 6 board the neighbours of square 0 are [1, 6], square 0 has two, and deposits on squares 1 and 6 stay quiet below three spots |
| BoardTests.CornerDeposits | jump61/BoardTest.java:46-46 | the quiet loop for red from counters (34, 1, 1) turns a white 1-spot square 1 into 2r and a blue 2-spot square 6 into 3r, ending at counters (33, 3, 0) with no winner |
| BoardTests.FirstMove | jump61/BoardTest.java:41-42 | addSpot(RED, 1, 1) on a fresh square 0 leaves 2r there, the rest unchanged, counters (35, 1, 0) |
| BoardTests.SecondMove | jump61/BoardTest.java:43-44 | addSpot(BLUE, 2, 1) on a fresh square 6 leaves 2b there, the rest unchanged, counters (34, 1, 1) |
| BoardTests.ThirdMove | jump61/BoardTest.java:45-46 | addSpot(RED, 1, 1) on 2r at square 0 jumps: square 0 holds 1r, square 1 2r, square 6 3r, every other square unchanged, counters (33, 3, 0), no winner |
| BoardTests.MoveAndUndo | jump61/BoardTest.java:38-53 | from a fresh 6 x 6 board, the three moves and three undos give back the fresh squares and the old history; the owner counters end at (35, 1, 0), those of the first snapshot |
| Boards.Board.Equals | jump61/Board.java:540-553 | equals holds iff both boards have the same number of squares and equal squares at every index |
| Boards.Board.DeepCheck | jump61/Board.java:558-569 | deepCheck holds iff the squares agree at every index |
| Boards.Board.ToString | jump61/Board.java:467-480 | the dump is `===`, each row of N squares on a new indented line as ` <spots><glyph>` tokens, then `\n===` |

## Left out

- The notifier (`setNotifier`, `announce`, `NOP`) is not modelled. It calls an unknown `Consumer<Board>`
  and has no state of its own.
- `readonlyBoard` and `ConstantBoard` are not part of this model.
- `toDisplayString`, `moveString` and `hashCode` are library formatting and a getter, and are not
  modelled.
- The getters `getBoard`, `getWhite`, `getRed`, `getBlue`, `getSpots` and `numPieces` are field reads.
  `getHistory` is also a field read. All of them are the fields of `Boards.Board`.
- `simpleAdd` is never called by the board, and is not modelled.
- `boardCopyState` and the `GameState` class are modelled as the value `Boards.GameState`, which
  holds a sequence of squares. Squares are immutable values, so a copied snapshot cannot alias the
  live array.
- `parseSide(side.toString())` in `copy` and `internalCopy` is modelled as the identity on sides.
- Java's 32-bit `int` arithmetic is modelled with unbounded integers. The model assumes no counter
  overflows.
- Boards.Board.InternalSet, Boards.Board.Jump, Boards.Board.Spread and Boards.Board.JumpSet: the
  cascade is cut off at a nesting depth of `fuel`, reporting `done == false`. The source has no such
  bound, and its cascade need not terminate once its counters disagree with its squares. The spot
  total, settledness and the neighbours' owners are stated only when `done` holds. The quiet board
  (`Boards.QuietSpread`) is stated whenever `fuel > 0` and no neighbour overflows; `done` follows
  there.
- Boards.Board.Set states its spot exactness, settledness and neighbour ownership only for a cascade
  that completed (`done`), because of the `fuel` bound above. Without overflow `done` always holds
  and the board is stated exactly; with `fuel > 0` and no neighbour overflowing, `done` holds and
  the board and counters are stated exactly.
- Boards.Board.AddSpot states its spot exactness, settledness and neighbour ownership only for a
  cascade that completed (`done`), for the same reason; the quiet board is stated as in Set.
- Boards.Board.AddSpotAt shares the contract of Boards.Board.AddSpot, with the same `done` condition.
- Boards.Board.Place states its spot total, settledness and neighbour ownership only when `done`
  holds, as Boards.Board.Set does.
- Boards.Board.AddSpotThenUndo: the move it undoes is cut off like any other cascade when `fuel`
  runs out. Its contract holds whether or not the cascade completed, because undo restores the
  squares either way.
- Boards.Board.InternalSet and Boards.Board.JumpSet take the square number. The source's `jumpSet`
  and the `internalSet(r, c, ...)` that `set` calls take row and column and convert with `sqNum`;
  the argument is always valid there. `jump(S)` takes the square number in the source as well.
- Boards.Board.ReleaseSpots: the source computes the neighbour list and subtracts the spots in one
  step. The model splits them into the pure `Topology.NeighborJumpIndex`, which also covers its
  error paths, and this method for the subtraction. The method requires a valid square, which every
  caller passes.
- Boards.Board.Clear requires N > 1. The source does not check N, and would build a degenerate board.
- Boards.Board.Copy requires a different board. Copying a board into itself in the source reads the
  array it has just replaced.
- Boards.Board.IsLegalAt requires a valid square number only when the player may move. The `&&` of
  `jump61/Board.java:210` short-circuits, so a bad square number gives false when the player may
  not move, as in the model; otherwise the source throws an `ArrayIndexOutOfBoundsException`, which
  the model excludes.
- Boards.Board.Spread is the `for` loop of `jump`, written as a method of its own, and
  Boards.Board.SpreadStep is the loop's body; `Boards.Board.Jump` is the rest of `jump` and calls
  Spread. Likewise Boards.Board.Place is the tail of `set` after `increaseSpots`.
- Boards.Board.Jump and Boards.Board.Spread state the board square by square only when no
  neighbour overflows. When one does, the nested cascade may change any square again, including a
  neighbour already served; for that case the model states the neighbours' owners, the spot total
  and settledness, not the board.
- Boards.Board.Get requires a valid square number. The source's `get(n)` indexes the array
  directly and throws an `ArrayIndexOutOfBoundsException` for a bad n; every caller passes a valid
  square.
- Topology.NeighborCount requires only n >= 0, and returns a count for n >= N*N as well, where the
  source's `neighbors(n)` throws row's "Not possible row" error. That error path is modelled in
  `Topology.NeighborJumpIndex`, and every caller of NeighborCount passes a valid square.
- BoardTests.MoveAndUndo starts from any valid 6 x 6 board whose squares are all fresh and whose
  counters are (36, 0, 0), which is what the constructor builds, rather than calling the
  constructor itself.
- Boards.Board.NumOfSide: the source's "Not side color." branch cannot be reached with three sides,
  and is not modelled.
