# Gobblet Gobblers rules engine in Dafny

This project models the game engine of a browser-based 3×3 "Gobblet Gobblers" game. Two players, black and white, each start with two large, three medium and three small pieces. Black moves first. On a turn, a player selects a piece from their own stock and places it:

- on an empty cell, or
- on top of a strictly smaller piece of either colour, which it covers for good.

Each placement is logged, so the last one can be undone. Three pieces of one colour in a row, a column or a diagonal end the game. Reset starts a new game.

The project has three modules:

- `Rules` (`rules.dfy`) is the pure part:
  - colours, sizes and pieces;
  - the size rank and the capture test;
  - the eight winning lines, in the order the source scans them;
  - the line test, the first winning line and the colour of the winner.
- `Game` (`game.dfy`) is the engine as a state machine over values:
  - the six variables of the source together as one `State`;
  - the four operations as transition functions that return the next state and an `Outcome`. An `Outcome` is `Ok` or one of the six refusals: `GameInactive`, `WrongTurn`, `PieceExhausted`, `NoPieceSelected`, `IllegalCapture` and `NothingToUndo`;
  - the invariant that every reachable state keeps;
  - the laws that relate the operations.
- `Engine` (`engine.dfy`) is the engine as the source keeps it, a class whose fields are changed in place:
  - a nine-cell `array` board;
  - the inventory table;
  - the history stack;
  - the current player, the selection and the active flag.

  Each method is proved to leave the object in the state that the matching `Game` transition prescribes. So every law proved in `Game` also holds of the object.

Three behaviours of the source deserve a note:

- The source stores no winner. It only clears `gameActive` and shows the winner's colour in a message. `Rules.Winner` derives that colour from the board, and `Game.WinnerIsMover` proves that it is the colour of the piece just placed.
- Undo neither refunds the spent piece nor clears the selection, and it passes the turn. After an undo, the player to move may therefore hold the other colour's selected piece and place it. The model keeps this behaviour. The inventory still never goes negative, because a selection is only made while its count is positive and is spent by one placement at most.
- Undo refunds nothing, so the pieces taken from stock can exceed the placements still recorded in the history. What holds, and is proved, is that the history is never longer than the number of pieces taken from stock.

## Model

| member | source | states |
|---|---|---|
| `Rules.Other` | script.js:110-113 | Switching the player gives the other colour. |
| `Rules.CanCapture` | script.js:116-119 | A piece can cover another exactly when it is bigger: medium or large covers small, and only large covers medium. Equal sizes never capture. |
| `Rules.CaptureIsStrictOrder` | script.js:116-119 | Capture is irreflexive, asymmetric, transitive and total on distinct sizes, so it is the strict order small < medium < large. |
| `Rules.FirstWinLine` | script.js:167-185 | The scan finds the first of the eight lines, in source order, whose three cells hold pieces of one colour. It finds none exactly when no line qualifies. |
| `Rules.Winner` | script.js:178-184 | There is a winner exactly when some line is complete, and the winner is the colour of a completed line. |
| `Rules.EachLineWins` | script.js:167-185 | Each of the eight lines, filled with one colour, is a win for that colour. |
| `Game.Inventory.Take` | script.js:79 | Spending a piece lowers that colour and size's count by exactly one and leaves the other five counts alone. |
| `Game.Select` | script.js:36-53 | The checks run in this order: game inactive, wrong turn, count not positive. Each refusal leaves the state unchanged. The selection succeeds exactly when none of them applies, and then sets only the selection. |
| `Game.Place` | script.js:60-95 | The placement succeeds exactly when the game is active, a piece is selected, and the cell is empty or holds a strictly smaller piece of either colour. Refusals for an inactive game, no selection and a capture that is not strictly larger leave the state unchanged. Success does the following and nothing else: it pushes one history entry {cell, previous occupant}, writes only that cell, lowers one count by one and clears the selection. The game ends exactly when a line is complete, and the player switches exactly when it does not end. |
| `Game.Undo` | script.js:122-144 | An inactive game and an empty history are refused with no change. Undo succeeds exactly when neither applies; then the last entry is popped, its cell gets back the recorded occupant and the player toggles. Inventory and selection stay as they are. |
| `Game.Reset` | script.js:147-156 | Reset succeeds from any state. Afterwards all nine cells are empty, each colour has large 2, medium 3 and small 3, the history and the selection are empty, black is to move and the game is active. |
| `Game.InitialInv` | script.js:2-10 | The starting state satisfies the engine invariant. |
| `Game.SelectPreservesInv` | script.js:47-48 | Selecting keeps the invariant: a piece is only selected while it is in stock. |
| `Game.UnwindAfterPlace` | script.js:76-78 | Undoing the entry a placement just pushed gives back the board that placement wrote over. |
| `Game.PlacePreservesInv` | script.js:73-94 | Placing keeps the invariant: no count goes negative, the history grows with the pieces spent, and the game stays active exactly while no line is complete. |
| `Game.UndoPreservesInv` | script.js:128-139 | Undoing keeps the invariant. In particular it never leads back to a won board, so the game stays active. |
| `Game.RunPreservesInv` | script.js:36-163 | Every sequence of calls, from a state that satisfies the invariant, ends in a state that satisfies it. |
| `Game.Reachable` | script.js:2-10 | In every reachable state: every count is at least 0, a selected piece has a count of at least 1, the history has at most 16 entries, and the game is active exactly when no line is complete. |
| `Game.EndedIsTerminal` | script.js:37-40 | Once the game is over, selecting, placing and undoing are all refused with `GameInactive`, with no change. Only reset leaves that state. |
| `Game.PlaceThenUndo` | script.js:76-82 | A placement that does not end the game, followed by undo, gives back the board, the history and the player to move exactly. The spent piece is not refunded, and the selection stays cleared. |
| `Game.WinnerIsMover` | script.js:178-184 | Every line completed by the ending placement runs through the cell just played. The winner is the colour of the piece placed. |
| `Game.OpeningMove` | script.js:87-93 | From the start, black selects large and plays cell 0. Then white is to move, cell 0 holds a black large piece and black has one large piece left. |
| `Engine.GameEngine.constructor` | script.js:2-10 | A new engine is in the starting state and satisfies the invariant. |
| `Engine.GameEngine.SelectPiece` | script.js:36-53 | `selectPiece` changes only the `selectedPiece` field, as `Game.Select` prescribes, and reports its outcome. |
| `Engine.GameEngine.SwitchPlayer` | script.js:110-113 | `switchPlayer` changes only the current player, to the other colour. |
| `Engine.GameEngine.CheckWin` | script.js:166-186 | `checkWin` clears the active flag exactly when some line is complete and otherwise leaves it alone. It changes nothing else. |
| `Engine.GameEngine.HandleCellClick` | script.js:60-95 | `handleCellClick` updates the array board and the other fields in place to the state `Game.Place` prescribes, and keeps the invariant. |
| `Engine.GameEngine.UndoMove` | script.js:122-144 | `undoMove` updates the fields in place to the state `Game.Undo` prescribes, and keeps the invariant. |
| `Engine.GameEngine.ResetGame` | script.js:147-163 | `resetGame` clears the same board array cell by cell and restores the starting values, as `Game.Reset` prescribes. |

## Left out

- Rendering and event wiring are not modelled:
  - the DOM lookups and listener set-up (script.js:12-33, 56-58);
  - `updateCellContent` (script.js:98-107);
  - the `innerHTML` updates in undo and reset.

  They only display the state.
- Status and error messages are not modelled as text. Every message that reports a refusal becomes an `Outcome` value. The informational messages (the selection made, whose turn it is, the winner's colour, the reset) are not modelled.
- The cell index is modelled as a number 0..8 (`CellIndex`), not as the string `cell.dataset.index`. An index outside 0..8 is something callers cannot pass, not a game rule.
- The two identical placement branches of `handleCellClick` (script.js:76-82 and 87-93) are one path in the model, with the same effects.
- Inventory counts are unbounded integers. JavaScript numbers are not modelled, because the counts never leave 0..3.
