# Tic-tac-toe `Game` — a Dafny model

This project models the game logic of a browser tic-tac-toe in which a human
plays X against a computer that plays O (`script.js`). The core is the `Game`
object. It holds:

- the nine-cell board `_moves`, written in place;
- the step counter `_step`;
- the eight winning lines `WIN_VARIANTS`.

It also has these operations:

- `_canWinIndex` scans for a line where a player holds two cells and the third is empty;
- `_isPlayerWon` reports every line a player holds completely;
- `_circleMove` is the computer's move;
- `_crossMove` reads the clicked cell from the element's class attribute;
- `_doStep` writes a mark and advances the counter;
- `playerMove` runs the human's turn.

Files and modules:

- `board.dfy` (module `Board`): the marks, the lines, and the scans as functions of a board snapshot. The scans are stated for any list of lines, and the game passes `WIN_VARIANTS`. Each scan has lemmas that characterise it:
  - which cell `_canWinIndex` answers, and when it answers null;
  - which lines `_isPlayerWon` reports.
- `classname.dfy` (module `ClassName`): splitting the class attribute at spaces, finding the first `cell_id_` class, and taking its last character as the key of the cell.
- `strategy.dfy` (module `Strategy`): what `_circleMove` may play, and what that choice achieves. It also holds the boards of the findings below.
- `game.dfy` (module `TicTacToe`): the class `Game`, with `moves: array<Mark>`, `step`, and a ghost log `endCalls` of the calls to `_endGame`. `_endGame` has no effect except on the page. The methods follow the source's loops.

The class keeps the invariant `Valid()`: nine cells, and fewer cells taken than the step counter. Every public method preserves it. In a game of strict alternation, where every move is made on an empty cell, the step counter is exactly one more than the number of cells taken.

Randomness is a parameter of the model. `_randomFromArray` becomes a nondeterministic choice that guarantees only membership. On an empty list it gives `undefined`, which is the key `Outside`. Writing `_moves[undefined]`, or `_moves[c]` for any character `c` other than `'0'`..`'8'`, leaves the nine cells as they were.

The model keeps the source's quirks:

- `!index` treats a winning or blocking cell 0 as "none" (see Findings).
- `_canWinIndex` answers the empty cell of the last matching line, not the first.
- `_doStep` overwrites a cell without checking it.
- The corner picked on step 2 is not checked for emptiness. `Strategy.CirclePlaysEmptyCell` proves this harmless under the class invariant: on step 2 at most one cell is taken.

In three places the code does not do what a tic-tac-toe design would lead one to expect. The model follows the code:

- the corner pick on step 2 is unchecked, rather than chosen among empty corners;
- a click on an occupied cell overwrites it, rather than being ignored;
- `_isPlayerWon` calls `_endGame` once for every line the player holds, rather than reporting only the first complete line.

## Model

| member | source | states |
|---|---|---|
| Board.VariantsDistinct | script.js:7-9 | The eight winning lines are pairwise distinct. |
| Board.Place | script.js:116 | `_moves[id] = player` writes the mark at a cell and leaves the other cells unchanged. A key outside the board changes no cell. |
| Board.OwnedSpec | script.js:47 | The `forEach`/`push` list holds an index exactly when its cell holds the mark, in increasing order. |
| Board.CompletionIsThreat | script.js:50-53 | For a player, the per-line answer is c exactly when the player holds the line's other two cells and c is empty. |
| Board.LastCompletionEmpty | script.js:50-54 | A non-null result of `_canWinIndex` is an index in 0..8 whose cell is currently empty. |
| Board.LastCompletionScan | script.js:49-56 | One turn of the variants loop: the filter of the line against the player's cells leaves exactly one empty cell when that cell completes the line. It then becomes the result; otherwise the result stays. |
| Board.LastCompletionNone | script.js:45-58 | `_canWinIndex(p)` is null exactly when no line has two cells held by p and its third cell empty. |
| Board.LastCompletionSome | script.js:49-56 | Otherwise the result completes some line, and no later line in `WIN_VARIANTS` order is completable. |
| Board.LastCompletionIs | script.js:49-56 | The empty cell of the last completable line is the result, whatever the earlier lines hold. |
| Board.LineWon | script.js:65-67 | The filter leaves no cell of a line exactly when the player holds all three. |
| Board.WonLinesSound | script.js:64-72 | Every reported line is held completely by the player and is one of the lines scanned. |
| Board.WonLinesComplete | script.js:64-72 | Every scanned line the player holds completely is reported. |
| Board.WonLinesDistinct | script.js:64-72 | Of distinct lines, none is reported twice. |
| Board.WonLinesNone | script.js:64-72 | When the player holds none of the lines completely, nothing is reported. |
| Board.TakenPlaceEmpty | script.js:116-118 | A mark written into an empty cell takes exactly one more cell, as each move also advances the step counter by one. |
| Board.TakenAll | script.js:6 | The board is full exactly when the count of taken cells reaches nine, the NUMBER_OF_STEPS cells. |
| ClassName.Split | script.js:104 | `split(' ')` gives at least one piece, and no piece holds a space. |
| ClassName.JoinSplit | script.js:104 | Joining the pieces with spaces gives back the class attribute. |
| ClassName.SplitJoin | script.js:104 | Splitting the join of space-free pieces gives back the pieces. |
| ClassName.FindPrefixed | script.js:104-105 | `find` answers none exactly when no piece starts with the prefix. Otherwise it answers the first piece that does. |
| ClassName.CellIdOf | script.js:104-106 | The id is absent (the caught exception) exactly when no class starts with `cell_id_`. Otherwise it is the last character of the first class that does. |
| ClassName.CellSlot | script.js:106 | The one-character key names cell n exactly when it is the digit n, for n in 0..8. Any other key lies outside the board. |
| ClassName.ParseCellIdOfClasses | script.js:104-106 | A class list whose first `cell_id_` class is `cell_id_N`, with N in 0..8, is a click on cell N. |
| ClassName.ParseRenderedCell | script.js:104-106 | A click on a cell rendered with class "cell cell_id_N" (script.js:145) is a move on cell N. |
| Strategy.CirclePlaysEmptyCell | script.js:78-95 | Under the class invariant the computer never plays an occupied cell. It plays outside the board only when the board is full. |
| Strategy.CircleTakesWin | script.js:85-86 | When its own `_canWinIndex` is truthy, the computer's move completes a line. |
| Strategy.CircleBlocks | script.js:87-88 | Otherwise, when the human's is truthy, the computer plays the empty cell of a line whose other two cells the human holds. |
| Strategy.CornerReply | script.js:78-81 | After a centre opening, the computer may take corner 2 on step 2. |
| Strategy.RandomSecondReply | script.js:85-91 | On the step-4 board the only threat is the human's at the falsy cell 0, so the computer may play cell 1 at random. The human's reply at 3 then gives the step-6 board of the finding. |
| Strategy.MissedWinBoardCircleScan | script.js:45-58 | On the step-6 board the computer's `_canWinIndex` is 0. |
| Strategy.MissedWinBoardCrossScan | script.js:45-58 | On the step-6 board the human's `_canWinIndex` is 5. |
| Strategy.MissedWinChoice | script.js:85-88 | On the step-6 board the computer plays 5. |
| Strategy.MissedWinAtCellZero | script.js:86-88 | As written, on the step-6 board the computer blocks at 5 and completes no line. It also leaves the human's winning cell 0 open. |
| Strategy.IntendedTakesWin | script.js:86-88 | Under the corrected test (not null rather than truthy), the computer completes a line whenever it has a completable line. |
| Strategy.IntendedBlocksAtZero | script.js:86-88 | Under the corrected test, the computer blocks the human's threat at cell 0 on the step-4 board, where as written it may play 1. |
| Strategy.MissedWinBoardAtStepSix | script.js:118 | The finding's board has five cells taken, so it meets the class invariant at step 6 with one move per step. |
| Strategy.DrawCentreReply | script.js:78-81 | After the human opens at 0, the computer takes the empty centre on step 2. |
| Strategy.DrawRandomReply | script.js:85-91 | On the drawn game's step-4 board no player can complete a line, so the computer may pick cell 1 at random. |
| Strategy.DrawFirstBlock | script.js:85-88 | On the drawn game's step-6 board the computer must block the human at 6. |
| Strategy.DrawSecondBlock | script.js:85-88 | On the drawn game's step-8 board the computer must block the human at 5. This leaves eight cells taken at step 9. |
| Strategy.DrawFilled | script.js:61-72 | The human's move at 3 on step 9 fills the board, and neither player holds a line. |
| TicTacToe.WinCallsStep | script.js:64-71 | Scanning one more line adds an `_endGame` call for that line exactly when the player holds it. |
| TicTacToe.WinCallsSpec | script.js:61-73 | `_isPlayerWon(p)` calls `_endGame(p, line)` once for every line p holds completely, and for no other line. |
| TicTacToe.Game.constructor | script.js:11-15 | A new game is at step 1 with nine empty cells, and no `_endGame` call has been made. |
| TicTacToe.Game.RandomFromArray | script.js:41-43 | The result is a member of the list, or `undefined` exactly when the list is empty. |
| TicTacToe.Game.IndexesOf | script.js:47 | The loop lists the cells holding the mark, in order (as characterised by `Board.OwnedSpec`). |
| TicTacToe.Game.CanWinIndex | script.js:45-59 | The result is the scan `LastCompletion` over `WIN_VARIANTS`, characterised by the `Board.LastCompletion*` lemmas. |
| TicTacToe.Game.ScanForCompletion | script.js:49-56 | The loop that overwrites its result computes the last completable line's empty cell, for any list of lines. |
| TicTacToe.Game.ScanLine | script.js:50-55 | The arrow function run on one line turns the scan of the lines before it into the scan including it. |
| TicTacToe.Game.IsPlayerWon | script.js:61-74 | The `_endGame` calls made are exactly those of `WinCalls`, characterised by `WinCallsSpec`. Nothing else changes. |
| TicTacToe.Game.DoStep | script.js:115-120 | The cell gets the mark whether or not it was empty, and the other cells are unchanged. The step grows by exactly one, the win calls for the mover are logged, and the invariant is kept. |
| TicTacToe.Game.ChooseCircleCell | script.js:78-93 | The chosen cell is one the strategy allows, and it is empty. |
| TicTacToe.Game.CircleMove | script.js:76-97 | The computer places O on an allowed, previously empty cell and advances the step. Its win calls are logged. |
| TicTacToe.Game.CrossMove | script.js:99-113 | A click without a `cell_id_` class changes nothing. Otherwise X is written at the parsed key and the step advances. |
| TicTacToe.Game.PlayerMove | script.js:122-130 | The human's move, then a bare `_endGame()` call exactly when the step counter then stands at 9. This holds also after a click that did not parse. |
| TicTacToe.Game.PlayerMoveIntended | script.js:128-130 | With the check moved one step later, in a game of strict alternation a human move onto an empty cell is followed by `_endGame()` exactly when it fills the board (see Findings). |
| TicTacToe.StepLimitAsWritten | script.js:128-130 | In a game of strict alternation, the step counter stands at 10 after the human fills the board. It stands at 9 after a human move exactly when one cell is left empty. |
| TicTacToe.StepLimitIntended | script.js:128-130 | With the check at 10, a human move onto an empty cell reaches it exactly when that move fills the board. |
| TicTacToe.DrawNotAnnounced | script.js:128-130 | In the drawn game, the human's last move fills the board with no line held, so as written no `_endGame` call follows: no win call, and the step counter is not 9. |
| TicTacToe.CentreOpening | script.js:78-81 | In a new game where the human opens in the centre, the computer answers in a corner. |

## Left out

- `_showCell`, `prepareGame`, `ready` and the click listener (script.js:17-39, 141-172): DOM rendering and page bootstrap. `_showCell` is treated as a call that returns normally. It can throw on one path, which the next two lines cover.
- TicTacToe.Game.CrossMove: a `cell_id_` class that is not a valid CSS class selector (such as `cell_id_(4`) makes `document.querySelector` in `_showCell` (script.js:18, outside its `try`) throw after `_doStep` has written the cell. The source then leaves `_step` as it was and does not run `_isPlayerWon`. The model advances the step and logs the win calls anyway. The page renders only classes of the form `cell cell_id_N`, so such a class does not arise from the page itself.
- TicTacToe.Game.PlayerMove: on the same input the exception leaves `playerMove`, so the step-9 check, the timer and the `not-clickable` removal (script.js:128-132) do not run. The model runs the step-9 check.
- The `not-clickable` class toggling in `playerMove`, `_crossMove` and `_endGame`: page effects only.
- `_endGame` (script.js:135-139) has only page effects. It is modelled as an entry in the ghost log `endCalls`.
- `setTimeout`, `clearTimeout` and `_timerId` (script.js:14, 69, 131): the computer's move is an explicit call to `CircleMove`. `playerMove` schedules that move even after the game ended or the click failed. The source's `clearTimeout` (script.js:69) cancels a pending move when a line is won; the model never cancels a pending move. The model does not order or schedule moves, so any interleaving of `PlayerMove` and `CircleMove` calls is allowed.
- `console.log` (script.js:68, 77, 136): output only.
- `Math.random` (script.js:42): the distribution is not modelled, only that the pick is a member of the list.
- TicTacToe.Game.IsPlayerWon: its return value, always null and ignored by its one caller, is not modelled.
- TicTacToe.Game.CrossMove: a `className` that is not a string (an SVG element's `className` is an object, and `split` then throws) is not modelled. The attribute is taken as a string, and a click without a `cell_id_` class is the caught exception.
- A key `'9'` or any other non-cell key adds a property to the JavaScript array (and `'9'` lengthens it). The model has no such extra properties: every such write is `Outside` and changes none of the nine cells.

## Findings

| source | as written | input that shows it | evidently intended | confidence | as-written member | corrected member |
|---|---|---|---|---|---|---|
| script.js:86-88 | `if(!index)` treats `_canWinIndex` returning cell 0 like null, so a win (or block, see `Strategy.IntendedBlocksAtZero`) at cell 0 is skipped. | Step-6 board: X at 3, 4, 8 and O at 1, 2, reached by the game in `CornerReply` and `RandomSecondReply`. O can win at 0, but plays the block at 5 and leaves X's win at 0 open. | `if(index === null)`: take the win at any cell, 0 included | not executed | Strategy.MissedWinAtCellZero | Strategy.IntendedTakesWin |
| script.js:128-130 | `_step === NUMBER_OF_STEPS` after the human's move. `_step` starts at 1 and each move adds one, so after the human's k-th move in a game of strict alternation it is 2k: never 9. A drawn game therefore ends without any `_endGame` call. | The drawn game of `Strategy.DrawCentreReply` to `Strategy.DrawSecondBlock`: X at 0, O at 4, X at 8, O at 1, X at 7, O at 6, X at 2, O at 5, then X at 3 on step 9. The board is full, no line is held, and the step counter stands at 10. | Signal the end once nine moves have been made, when the step counter stands at 10 | not executed | TicTacToe.DrawNotAnnounced | TicTacToe.Game.PlayerMoveIntended |
