# Tic-tac-toe kiosk: game engine and screen state machines in Dafny

This project models the logic core of a kiosk tic-tac-toe game: the board
engine, the game screen's event handlers, the app's idle-timeout screen
switch, and the rotating facts panel. Each part is a set of pure functions
over immutable datatypes, with contracts and lemmas about them. Rendering,
HTTP, SQL and timers stay outside the model.

- `GameLogic` (game_logic.dfy) covers `src/utils/gameLogic.ts`: the cell type, the eight winning lines, `checkWinner`,
  `checkDraw`, `getEmptyBoard`, `makeMove` and `getNextPlayer`. A board is a
  sequence of cells of any length. Reading an index off the board behaves
  like reading JavaScript `undefined`: it is falsy in `checkWinner`, and it
  is "not `null`" in `makeMove`, so a move there is a no-op.
- `JsString` (js_string.dfy) covers `String.prototype.trim`, which the name form uses
  to reject blank names. Its white space is ECMAScript's WhiteSpace plus
  LineTerminator.
- `GameScreen` (game_screen.dfy) covers `src/components/GameScreen.tsx`: the state
  record and the handlers `handleNameSubmit`, `handleCellClick`,
  `handleNewGame` and `handleNewPlayers`. It also covers the two name-field
  `onChange` handlers. Each handler is one atomic transition. `addWin` is
  modelled as appending the player's name to a log, `recorded`. The module
  also defines the reachable-state invariant `Inv` and proves it holds
  after any sequence of events.
- `App` (app.dfy) covers `src/App.tsx`: the idle/game screen switch with
  `IDLE_TIMEOUT = 120000` ms. Clock readings are event parameters, and
  each firing of the 1-second interval is an explicit `Interval(now)` event.
- `FactsDisplay` (facts_display.dfy) covers `src/components/FactsDisplay.tsx`: the
  rotation step `i ↦ (i + 1) % n`, which is skipped when the list is empty,
  the highlighted progress dot, and the panel's index across list reloads.
  `src/components/IdleScreen.tsx:20-26` uses the same step on an 8-second
  timer, so `FactsDisplay.Advance` covers it too.
- `Wrappers` (wrappers.dfy) holds `Option`, which stands for an
  `undefined` result.

Two facts about the code are worth stating on their own:

- The fact index is never reset when the list is reloaded: once the panel
  has mounted at index 0, only the rotation step writes it. After a reload
  to a non-empty list too short to reach the index, the panel shows no text
  until the next step (`FactsDisplay.ShrinkThenRotate`), which counts the
  index on round the new list (`FactsDisplay.AdvancePeriodic`). After a
  reload to an empty list no step runs at all (`FactsDisplay.Rotate` leaves
  the panel as it is).
- One move can complete two lines, both of them the mover's
  (`GameLogic.OneMoveTwoLines`). Every uniform line belongs to the recorded
  winner (`GameScreen.Inv`), so the scan order of `checkWinner` never
  changes the result in a reachable state.

A quirk of `handleCellClick`, modelled as written: an index off the board
passes the guard, because `board[index]` is falsy there. `makeMove` then
returns the board unchanged, and the turn still passes to the other player
(`GameScreen.OffBoardClickPassesTurn`). The grid only ever sends indices 0
to 8, so the invariant lemmas assume grid clicks (`GameScreen.FromGrid`).
`GameScreen.Step` accepts every event in every state, although the screen
offers name edits only before the names are accepted and the grid and the
New Game / New Players buttons only after; the lemmas about runs therefore
cover more runs than the screen can produce. Likewise `App.Step` accepts
`Start` on the game screen and `Back` on the idle screen, although the app
wires start only to the idle screen and back only to the game screen.

## Model

| member | source | states |
|---|---|---|
| `GameLogic.WinningLinesAreGridLines` | src/utils/gameLogic.ts:3-12 | the table has 8 lines; each is a row, a column or a diagonal of the 3x3 grid, so every index is in 0..8 |
| `GameLogic.GridLinesAreWinningLines` | src/utils/gameLogic.ts:3-12 | every row, column and diagonal of the grid appears in the table |
| `GameLogic.ScanFrom` | src/utils/gameLogic.ts:15-21 | the scan from line k returns empty iff no line from k on is uniform; otherwise it returns the owner of the first uniform line from k on |
| `GameLogic.CheckWinner` | src/utils/gameLogic.ts:14-22 | empty iff no line holds three equal non-empty cells; otherwise the symbol of the first such line in table order |
| `GameLogic.AllOccupied` | src/utils/gameLogic.ts:25 | true iff no cell of the board is empty |
| `GameLogic.CheckDraw` | src/utils/gameLogic.ts:24-26 | true iff every cell is taken and no line is uniform |
| `GameLogic.DrawExcludesWinner` | src/utils/gameLogic.ts:24-26 | a draw means no winner, and a winner means no draw |
| `GameLogic.TwoLineSetup` | src/utils/gameLogic.ts:3-22 | the board X on 1, 2, 3, 6 and O on 4, 5, 7, 8 has four pieces each and no uniform line |
| `GameLogic.OneMoveTwoLines` | src/utils/gameLogic.ts:14-39 | on that board, X taking cell 0 completes the top row and the left column at once, and the winner is X |
| `GameLogic.SampleDraw` | src/utils/gameLogic.ts:24-26 | the full board XOXOXOOXO is a draw with no winner |
| `GameLogic.EmptyBoard` | src/utils/gameLogic.ts:28-30 | nine cells, all empty |
| `GameLogic.EmptyBoardUndecided` | src/utils/gameLogic.ts:14-30 | the empty board has no winner and is not a draw |
| `GameLogic.MakeMove` | src/utils/gameLogic.ts:32-39 | same length; a taken or off-board index gives back the board unchanged; a free cell gets the player's symbol and no other cell changes |
| `GameLogic.MakeMoveOnTakenCell` | src/utils/gameLogic.ts:33-35 | after a symbol is placed, any further move on that index, by anyone, is a no-op |
| `GameLogic.MakeMoveIdempotent` | src/utils/gameLogic.ts:32-39 | making the same move twice equals making it once |
| `GameLogic.MakeMoveKeepsTakenCells` | src/utils/gameLogic.ts:32-39 | no move ever clears or overwrites a taken cell |
| `GameLogic.CountAfterMove` | src/utils/gameLogic.ts:36-38 | a move on a free cell adds one of the mover's pieces, removes one empty cell and leaves the other count alone |
| `GameLogic.CountEmptyBoard` | src/utils/gameLogic.ts:28-30 | the empty board holds no X and no O |
| `GameLogic.MoveOnlyCreatesMoverLines` | src/utils/gameLogic.ts:14-39 | on a board with no uniform line, every line a move completes belongs to the mover, so the winner afterwards is empty or the mover |
| `GameLogic.NextPlayer` | src/utils/gameLogic.ts:41-43 | never returns its argument |
| `GameLogic.NextPlayerInvolution` | src/utils/gameLogic.ts:41-43 | applying it twice gives back the original player |
| `JsString.TextStart` | src/components/GameScreen.tsx:49 | the first index from i on that holds a non-space character, or the length when there is none; every character skipped is white space |
| `JsString.TextEnd` | src/components/GameScreen.tsx:49 | moving back from e, but not past lo, the end of the text: the character before it is not white space (unless it is lo), and every character cut is white space |
| `JsString.Trim` | src/components/GameScreen.tsx:49 | the result is empty (falsy) iff the input is all white space; it is the input's characters from the trim offset on, with only white space cut before and after, and it neither starts nor ends with white space |
| `GameScreen.Initial` | src/components/GameScreen.tsx:20-28 | X first and O second, empty names, no wins, names not accepted, an empty nine-cell board, X to move, no winner, no draw, empty log |
| `GameScreen.FindBySymbol` | src/components/GameScreen.tsx:65 | returns the first player holding the symbol, or nothing when neither holds it |
| `GameScreen.Credit` | src/components/GameScreen.tsx:67-71 | each player holding the winning symbol gains one win; names, symbols and the other tally are unchanged |
| `GameScreen.EditName` | src/components/GameScreen.tsx:111-137 | typing replaces only the edited player's name; symbols, wins and the rest of the state are unchanged |
| `GameScreen.NameSubmit` | src/components/GameScreen.tsx:47-52 | names are accepted iff both contain a non-space character (or were already accepted); nothing else changes |
| `GameScreen.CellClick` | src/components/GameScreen.tsx:54-79 | a taken cell or a finished round leaves the whole state unchanged; otherwise the mover's symbol is placed, winner and draw become the engine's verdict on the new board, and the turn passes iff the round goes on |
| `GameScreen.WinningClick` | src/components/GameScreen.tsx:63-73 | on a winning move the winner is the mover; only the mover's win count rises, by one; names and the other player are unchanged; the mover's name is sent to addWin |
| `GameScreen.NonWinningClickKeepsPlayers` | src/components/GameScreen.tsx:54-79 | a click that sets no new winner changes neither the players nor the addWin log |
| `GameScreen.OffBoardClickPassesTurn` | src/components/GameScreen.tsx:55-77 | during a running round, an off-board index passes the guard, leaves the board as it is, and still passes the turn |
| `GameScreen.ClickKeepsTakenCells` | src/components/GameScreen.tsx:54-58 | a click never changes a taken cell or the board's length |
| `GameScreen.NewGame` | src/components/GameScreen.tsx:81-86 | the board becomes nine empty cells, X moves, no winner and no draw; players, wins, the names flag and the log are untouched |
| `GameScreen.NewPlayers` | src/components/GameScreen.tsx:88-95 | back to the state the screen mounts with (empty names, zero wins, names not accepted, new round); only the addWin log survives |
| `GameScreen.InitialInv` | src/components/GameScreen.tsx:20-28 | the mounted state satisfies the invariant |
| `GameScreen.NewGameInv` | src/components/GameScreen.tsx:81-86 | a new round satisfies the invariant from any state whose players hold X and O |
| `GameScreen.MoveInv` | src/components/GameScreen.tsx:57-78 | a move on a free cell during a running round keeps pieces balanced, the turn tied to the counts, winner and draw exclusive, and every uniform line owned by the winner |
| `GameScreen.StepInv` | src/components/GameScreen.tsx:47-95 | every event the grid and buttons can produce (click indices 0..8) keeps the invariant |
| `GameScreen.RunInv` | src/components/GameScreen.tsx:47-95 | the invariant holds after any sequence of grid clicks, name edits and button presses |
| `GameScreen.ReachableInv` | src/components/GameScreen.tsx:20-95 | every reachable state has X level with O or one ahead, X to move iff level while the round runs, never both a winner and a draw, and a draw iff the board is full with no winner |
| `GameScreen.RunRecordGrows` | src/components/GameScreen.tsx:72 | the log of names sent to addWin only ever grows: earlier entries are kept, in order |
| `App.Init` | src/App.tsx:9-10 | the app mounts on the idle screen, stamped with the mount time |
| `App.Activity` | src/App.tsx:13-15 | input stamps the clock with the current time and never changes the screen |
| `App.StartGame` | src/App.tsx:45-48 | the game screen is shown and the clock is stamped with the start time |
| `App.BackToIdle` | src/App.tsx:50-52 | the idle screen is shown and the clock stamp is kept |
| `App.Tick` | src/App.tsx:32-43 | never moves the stamp; the game screen survives iff it was shown and less than 120000 ms have passed since the stamp |
| `App.TickWhileIdle` | src/App.tsx:33 | on the idle screen a tick changes nothing |
| `App.TimeoutBoundary` | src/App.tsx:35-39 | at 119999 ms of quiet the state is unchanged; at 120000 ms the game screen falls back to idle |
| `App.LateInputSuppressesTimeout` | src/App.tsx:13-39 | input at 119999 ms keeps the game screen through the check at 120000 ms |
| `App.OnlyStartLeavesIdle` | src/App.tsx:13-52 | no event other than a start moves the idle screen to the game screen |
| `App.OnlyInputAndStartStamp` | src/App.tsx:13-52 | only input and a start change the clock stamp |
| `App.IdleWithoutStart` | src/App.tsx:13-52 | from the idle screen, any run of events without a start stays idle |
| `App.TicksWhileIdle` | src/App.tsx:32-43 | any run of ticks on the idle screen changes nothing |
| `App.TicksAlone` | src/App.tsx:32-43 | after a run of ticks alone, the stamp is unchanged, and the game screen survives iff every tick came less than 120000 ms after the stamp |
| `FactsDisplay.Advance` | src/components/FactsDisplay.tsx:11-17 | with no facts the index stays; otherwise the result is in [0, n) and is the next index, wrapping from n - 1 to 0 |
| `FactsDisplay.AdvancePeriodic` | src/components/FactsDisplay.tsx:14 | an index at or past the end of a list of n facts advances like the index n places earlier, which fixes the step for an index a shrinking reload left behind |
| `FactsDisplay.AdvanceByAdds` | src/components/FactsDisplay.tsx:13-15 | a steps and then b steps equal a + b steps |
| `FactsDisplay.AdvanceByCounts` | src/components/FactsDisplay.tsx:14 | while it does not reach n, k steps move the index k places on |
| `FactsDisplay.VisitsInOrder` | src/components/FactsDisplay.tsx:14 | from 0, the k-th step (k < n) shows fact k, so facts are visited 0, 1, ..., n - 1 |
| `FactsDisplay.FullCycle` | src/components/FactsDisplay.tsx:14 | from any in-range index, n steps return to it |
| `FactsDisplay.AdvanceByStaysInRange` | src/components/FactsDisplay.tsx:14 | over a non-empty list an in-range index stays in range forever |
| `FactsDisplay.ThreeFactsCycle` | src/components/FactsDisplay.tsx:14 | with three facts the index runs 0, 1, 2, 0, never exceeds 2, and a fact is always shown |
| `FactsDisplay.Shown` | src/components/FactsDisplay.tsx:28 | there is text to show iff the index is in range, and then it is that fact's text |
| `FactsDisplay.Dots` | src/components/FactsDisplay.tsx:31-39 | one dot per fact; a dot is highlighted iff its position is the current index |
| `FactsDisplay.CountSingleLit` | src/components/FactsDisplay.tsx:31-39 | a row lit only at position i has one lit dot if i is inside the row, and none otherwise |
| `FactsDisplay.OneDotLit` | src/components/FactsDisplay.tsx:31-39 | for an in-range index exactly one dot is highlighted, the current one; for an out-of-range index none is |
| `FactsDisplay.Mount` | src/components/FactsDisplay.tsx:8-9 | the panel mounts over the list the screen holds with index 0; it shows text at once iff that list is non-empty, and no dots when it is empty |
| `FactsDisplay.EmptyListHolds` | src/components/FactsDisplay.tsx:12 | over an empty list no timer runs, so any number of firings leaves the index where it is |
| `FactsDisplay.FirstLoadInOrder` | src/components/FactsDisplay.tsx:8-17 | when the panel mounts before any list has arrived, however many firings pass over the empty list, once a list arrives k steps show fact k, for every fact in turn |
| `FactsDisplay.Reload` | src/components/FactsDisplay.tsx:9-17 | a new list replaces the old one and the index is not reset |
| `FactsDisplay.Rotate` | src/components/FactsDisplay.tsx:11-17 | over a non-empty list one step moves to the next fact, from the last fact to the first, and from an index past the end as from the index n places earlier, always landing in range; over an empty list nothing changes |
| `FactsDisplay.ShrinkThenRotate` | src/components/FactsDisplay.tsx:9-28 | a reload to a non-empty list too short to reach the index shows no text; one step later a fact is shown again |

## Left out

- The backend (`backend/src/database.ts`, `backend/src/index.ts`) is not modelled. Leaderboard grouping, summing, ordering and the 50-row limit happen inside an SQL query that SQLite evaluates. Schema setup and fact seeding are file I/O. Routing, CORS and status codes are HTTP plumbing.
- The API client `src/services/api.ts` is network I/O. `addWin` appears only as the `recorded` log. A fetch of facts is a `Reload`, and a failed fetch reloads an empty list.
- Timers and clocks are left out: `setInterval`, `Date.now`, the 30-second data refresh, and the 10-second and 8-second rotation periods. Time is an explicit integer argument and each timer firing is an explicit event. The model does not say when the interval fires. In particular, after each stamp change the interval is re-created, so its next firing comes 1 s later.
- React mechanics are left out: batched `setState`, and the remount of the game screen when it is shown again from idle (which restarts it from `GameScreen.Initial`). The app machine and the game screen machine are not composed.
- FactsDisplay.Mount: the panel is rendered only once the names are accepted, so it mounts again at index 0 after each New Players and name submit; the model has no composed screen-and-panel machine that performs these remounts.
- The `maxLength={20}` limit on the name inputs is enforced by the browser and is not modelled. `EditName` accepts any text.
- Rendering and styling are left out: all JSX, `Leaderboard.tsx`, `TicTacToeGrid.tsx` (except that its buttons produce indices 0 to 8, which is `GameScreen.FromGrid`) and `tailwind.config.js`.
- The unused `GameState` interface with `isGameOver` in `src/types/index.ts` is not modelled.
- Move indices are integers. A fractional JavaScript index, which would also read `undefined`, is not modelled.
