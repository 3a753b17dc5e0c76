# Four-in-a-row: board engines and remote session, modelled in Dafny

The repository holds three small game cores for four-in-a-row (connect four):

- the **server board engine**, `ConnectFour` in `connect_four.py`: a flat, row-major board whose
  top row comes first, a `next` player, a `winner`, two seats, the `move` operation with its turn
  and game-over checks, the gravity drop, and win detection by streak counts capped at 3 in seven
  directions around the coin just placed;
- the **offline client board**, `ConnectFour` in `client/connect_four.js`: a board built from a
  JSON description whose dimensions are checked, played by button presses (`handleButtonPress`)
  with no win detection;
- the **remote session controller**, `ConnectFourRemoteController` in `static/connect_four.js`:
  it derives the local player's state (waiting, my turn, their turn, won, lost) from each server
  snapshot, notifies its views only when that state changes, refuses moves unless it is the
  player's turn, and polls while the opponent is to play.

Files:

- `wrappers.dfy` holds `Option`, `Outcome` and `Result`, which stand for the exceptions the code
  raises or throws.
- `grid.dfy` (module `Grid`) holds the row-major geometry shared by both boards: flat indices, the
  bottom-up gravity scan (`ScanUp`, `LowestEmpty`), the single-cell update `Drop`, and the
  invariant `Settled`, which says that no coin floats above an empty cell.
- `server_game.dfy` (module `ServerGame`) holds the server engine. It has the streak function, the
  win test, and the class `ConnectFour` with `Move`, `DetermineWinner`, `CountSameDirection` and
  `GetPlayer`.
- `client_game.dfy` (module `ClientGame`) holds the offline board.
- `remote_session.dfy` (module `RemoteSession`) holds the session controller.

The main results:

- The server's seven-direction test, which leaves out "up", finds a winner exactly when four equal
  coins in a row on one of the four axes pass through the new coin (`WinnerAtIsFourInARow`,
  `AxisStreaksFindRun`). This needs the cell above the new coin not to hold the same mark.
- A gravity drop on a settled board always leaves the cell above the new coin empty
  (`DropKeepsSettled`). So leaving out "up" loses no vertical win. `UpOmittedNeedsEmptyAbove`
  shows a board where, without that condition, a win would be missed.
- A successful move on either board changes exactly one cell: the lowest empty cell of the
  column. The turn passes to the other player. A full column changes nothing.
- Once a snapshot has arrived, the session state is a function of that snapshot alone and is
  never `Initial`. Views are notified only when the state changes, so applying the same snapshot
  twice notifies at most once. The controller polls exactly while the state is TheirTurn or
  Waiting. For snapshots without a `state` field, as `toJson` sends them, the client offers a
  move exactly when the server's own checks would accept it (`MyTurnMatchesServerChecks`).

Modelling decisions about the code:

- `move` has no column range check, so `0 <= column < width` is a precondition of the server's
  `Move`.
- `move` returns nothing, although its docstring says that it returns the next player. The model
  returns only the outcome: success or the exception raised.
- The win test keeps the code's seven directions. It is proved to agree with a symmetric four-axis
  test after a gravity drop.
- The controller has no guard against overlapping pollers; the model runs each operation to
  completion in sequence.

## Model

| member | source | states |
|---|---|---|
| `Grid.Toggle` | connect_four.py:50 | the player to move after player 1 is 2 and after player 2 is 1: the turn alternates between the two players |
| `Grid.IndexInRange` | connect_four.py:47 | the flat index `row * width + column` of every on-board cell lies inside the `width * height` cells |
| `Grid.IndexDecomposes` | connect_four.py:55-56 | from a cell's flat index, `% width` recovers its column and `(index - column) / width` recovers its row |
| `Grid.IndexInjective` | connect_four.py:47 | distinct cells have distinct flat indices |
| `Grid.ColumnOf` | client/connect_four.js:46 | the column a button index maps to is always in `[0, width)` |
| `Grid.ColumnOfCell` | client/connect_four.js:46 | the button at a cell's flat index maps to that cell's column |
| `Grid.ScanUp` | client/connect_four.js:48-52 | the bottom-up scan returns an empty cell whose lower cells in the column are all taken, or nothing when every scanned cell is taken |
| `Grid.LowestEmptyNoneIffFull` | client/connect_four.js:48-57 | a column has no landing cell exactly when each of its cells is taken |
| `Grid.Drop` | connect_four.py:49 | placing a coin changes exactly one cell, to the mover's mark, and keeps the number of cells |
| `Grid.DropKeepsSettled` | connect_four.py:66-67 | a gravity drop keeps a settled board settled, and the cell above the new coin is empty or off the board |
| `Grid.DropStacksUp` | client/connect_four.js:48-52 | after a coin lands, the next coin dropped into the same column lands where the scan from the row above it lands, on any board |
| `Grid.SettledDropStacksUp` | client/connect_four.js:48-52 | on a settled board, the next coin dropped into the same column lands in the cell just above the last one, and the column is full once the top row is taken |
| `Grid.ScanUpIgnoresFilledBelow` | client/connect_four.js:48-52 | scanning up through taken cells ends where scanning from above them would |
| `Grid.ScanUpAgrees` | client/connect_four.js:48-52 | the scan depends only on the scanned cells of the column |
| `ServerGame.PyRange` | connect_four.py:44 | Python's `range(start, stop, step)`: it is empty exactly when `start` is already past `stop`, and otherwise starts at `start` |
| `ServerGame.PyRangeSteps` | connect_four.py:44 | each element of a range is the one before it plus `step`; all stay on the `start` side of `stop`; the last is the final value before reaching `stop` |
| `ServerGame.LiteralRowRangeIsEmpty` | connect_four.py:44 | the literal row range `range(height, -1)` is empty for every positive height |
| `ServerGame.ScanOutcome` | connect_four.py:44-52 | when the row loop places a coin, it places it on an empty on-board cell |
| `ServerGame.IntendedRowsLandLowest` | connect_four.py:44-46 | the intended row range from `height - 1` down to `-1` lands in the lowest empty cell, or reaches row -1 and raises "No empty slots in column" when the column is full |
| `ServerGame.LiteralRowsNeverLand` | connect_four.py:44-52 | the row loop as written runs out without placing a coin |
| `ServerGame.StepOpposite` | connect_four.py:59-64 | stepping `j` times in the opposite direction reaches the cell `-j` steps away |
| `ServerGame.Streak` | connect_four.py:84-99 | the capped streak is at most the cap; each of its steps reaches an on-board cell holding the player's mark; below the cap, the next step does not |
| `ServerGame.AxisStreaksFindRun` | connect_four.py:76-78 | on one axis, the two capped streaks add up to the cap exactly when a run of cap + 1 equal coins passes through the cell |
| `ServerGame.StreaksGiveRun` | connect_four.py:76-79 | if the two streaks reach the cap, such a run exists |
| `ServerGame.RunGivesStreaks` | connect_four.py:76-79 | if such a run exists, the two streaks reach the cap |
| `ServerGame.WinnerAround` | connect_four.py:66-80 | the seven-direction test around a cell reports either no winner or the mark it tests for |
| `ServerGame.WinnerAt` | connect_four.py:54-80 | `determineWinner` with integer division reports either no winner or the mark at the index |
| `ServerGame.WinnerAtIsFourInARow` | connect_four.py:54-80 | when the cell above does not hold the same mark, `determineWinner` returns that mark exactly when four in a row on some axis pass through the cell, and None otherwise |
| `ServerGame.WinnerAroundIsFourInARow` | connect_four.py:66-80 | leaving out "up" loses nothing when the cell above does not match: the four sums tested detect four in a row on some axis |
| `ServerGame.UpOmittedNeedsEmptyAbove` | connect_four.py:66-73 | without an empty cell above, the test misses a win: a column of four 1s checked at its bottom coin yields no winner |
| `ServerGame.CountAsWritten` | connect_four.py:84-99 | `countSameDirection` with a float row counts 0 when the first step leaves the board, and raises TypeError exactly when the first step is on the board |
| `ServerGame.DetermineWinnerAsWritten` | connect_four.py:54-80 | `determineWinner` as written, with the float row from true division, never reports a winner: it raises TypeError or returns None |
| `ServerGame.FloatRowAlwaysRaises` | connect_four.py:56 | with the float row from true division, `determineWinner` raises TypeError on every board at least two columns wide |
| `ServerGame.ConnectFour.constructor` | connect_four.py:5-10 | a new game has `width * height` cells, all empty, player 1 to move and no winner; with positive dimensions it satisfies the invariant |
| `ServerGame.ConnectFour.SetPlayer1` | connect_four.py:22-23 | seat 1 holds the given session |
| `ServerGame.ConnectFour.SetPlayer2` | connect_four.py:25-26 | seat 2 holds the given session |
| `ServerGame.ConnectFour.GetPlayer` | connect_four.py:28-33 | returns 1 for the session in seat 1, otherwise 2 for the session in seat 2, otherwise "Not your game!"; an unassigned seat checked on the way raises |
| `ServerGame.ConnectFour.CountSameDirection` | connect_four.py:84-99 | the loop returns a count in `[0, 3]`; the counted cells are on the board and hold the player's mark; below 3, the next cell is off the board or different |
| `ServerGame.ConnectFour.DetermineWinner` | connect_four.py:54-80 | the seven counts combined give the test `WinnerAt`, whose winner is the mark at the index |
| `ServerGame.ConnectFour.Place` | connect_four.py:47-52 | the mover's coin fills the found cell and the turn passes; the winner is recomputed from that cell |
| `ServerGame.ConnectFour.DropAlongRows` | connect_four.py:44-52 | the row loop places the coin at the first empty row it visits; it raises on a negative row and changes nothing if it runs out |
| `ServerGame.ConnectFour.Move` | connect_four.py:37-52 | a move by a player other than `next` raises "not your turn", and then a decided game raises "game over", both with no change. Otherwise the coin lands in the lowest empty cell, the turn passes, and a winner is recorded exactly when four in a row form; a full column raises with no change. The invariant is kept |
| `ServerGame.ConnectFour.MoveAsWritten` | connect_four.py:37-52 | as written, after the two checks `move` returns without changing the game |
| `ClientGame.CheckDimensions` | client/connect_four.js:14-16 | the construction error is the first failing check: non-positive width, then non-positive height, then a cell count other than `width * height`; there is none when all hold |
| `ClientGame.ConnectFour.Init` | client/connect_four.js:9-13 | the fields are taken from the JSON, and player 1 starts |
| `ClientGame.ConnectFour.Create` | client/connect_four.js:9-17 | construction fails with the first failing check; a game built successfully is valid and starts with player 1 |
| `ClientGame.ConnectFour.HandleButtonPress` | client/connect_four.js:45-58 | the press uses column `index % width`. The current player's coin fills the lowest empty cell of that column, and the turn passes. A full column throws "cannot put a coin in full column" and changes nothing. The dimensions and the cell count never change |
| `RemoteSession.DeriveState` | static/connect_four.js:62-73 | the five-way priority: won when the winner is the player; otherwise lost for any other truthy winner; otherwise waiting; otherwise my turn when the player is next; otherwise their turn. Never "initial" |
| `RemoteSession.MyTurnMatchesServerChecks` | static/connect_four.js:69-70 | for a snapshot from the server, the client is in "myturn" exactly when the server's `move` would pass its turn and game-over checks |
| `RemoteSession.SeatsSeeOppositeStates` | static/connect_four.js:63-73 | for one game, seat 1 sees "myturn" exactly when seat 2 sees "theirturn", and "won" exactly when seat 2 sees "lost" |
| `RemoteSession.StateAfter` | static/connect_four.js:74-77 | after at least one snapshot the state is never "initial" |
| `RemoteSession.Notifications` | static/connect_four.js:74-77 | the `updateViews` calls made while a run of snapshots is applied: one for each snapshot whose derived state differs from the state before it. Its properties are the contracts of the three lemmas that follow |
| `RemoteSession.NotificationsFromFeed` | static/connect_four.js:74-77 | every `updateViews` call passes on one of the applied snapshots together with the state derived from it |
| `RemoteSession.NotificationsOnlyOnChange` | static/connect_four.js:74-77 | every notification changes the state: the first differs from the starting state, each differs from the one before, and the last is the final state; there are no more notifications than snapshots |
| `RemoteSession.SameSnapshotTwiceNotifiesOnce` | static/connect_four.js:74-77 | applying the same snapshot twice notifies at most once |
| `RemoteSession.NotificationsAppend` | static/connect_four.js:60-78 | applying two runs of snapshots in turn notifies as applying them together |
| `RemoteSession.PollCount` | static/connect_four.js:127-132 | the poll loop fetches exactly while the state is "theirturn" or "waiting", and stops at the first other state |
| `RemoteSession.ButtonColumn` | static/connect_four.js:177 | a button's column `index % 7` is always in `[0, 7)` |
| `RemoteSession.ButtonColumnOfCell` | static/connect_four.js:177 | on a seven-column board, each button plays the column it sits in |
| `RemoteSession.RemoteController.constructor` | static/connect_four.js:48-58 | the controller starts in "initial", with no snapshot and no notifications |
| `RemoteSession.RemoteController.UpdateStateFromJson` | static/connect_four.js:60-78 | the snapshot is always stored and the state becomes the derived one. Views are notified exactly when the derived state differs from the stored one |
| `RemoteSession.RemoteController.PollState` | static/connect_four.js:127-132 | the loop applies snapshots while the state is "theirturn" or "waiting". If it stops before the feed runs out, the state is neither "theirturn" nor "waiting": it is "myturn", "won" or "lost", or still "initial" when no snapshot was ever applied |
| `RemoteSession.RemoteController.Move` | static/connect_four.js:134-142 | outside "myturn" the move throws "not my turn" and sends no request. Otherwise it sends one request for the stored game's id and the column, applies the answer and polls; the stored snapshot is then the last one applied, which the next request's id comes from |

## Left out

- DOM rendering and event wiring are not modelled: `ConnectFourView`, `fillHtml`,
  `installHandlers`, `connectToStateArea`, `connectToNewGameButton`, the listener part of
  `connectToView`, and the page bootstrap code. They have no behaviour to state beyond the
  column mapping, which is modelled.
- The network and timers are not modelled: `fetch`, `wait`, `newGame`, `currentGame` and
  `fetchCurrentGame`. The snapshots they would deliver are inputs of `UpdateStateFromJson`,
  `PollState` and `Move`. When `currentGame` stores a bare `{id}` as `json`, it does not
  re-derive the state. That step is not modelled, and the controller invariant assumes it
  does not happen.
- RemoteSession.RemoteController.PollState: on page load `currentGame` starts `pollState` before
  its un-awaited `fetchCurrentGame` has applied a snapshot. The loop then ends at once in
  "initial". The model allows this start, but it does not model the later fetch racing the loop.
- Concurrency is not modelled. `move` and `newGame` start `pollState` without awaiting it, so
  two pollers can overlap. The model runs each operation to completion in sequence.
- RemoteSession.RemoteController.PollState: it also stops when the supplied feed runs out; the
  source would keep polling a server that never answers.
- `toJson` is not modelled; it is a thin wrapper over JSON serialisation. It sends `player`,
  `next` and `winner` (with the board) but neither the game `id` nor a `state` field.
  `RemoteSession.ServerSnapshot` is a snapshot with those three fields plus a game id. The web
  layer that would add the id is not part of this model, and server snapshots never carry `state`.
- `app.py` is not modelled; it is a single redirect.
- JavaScript loose equality between a string and a number, such as `"1" == 1`, is not modelled.
  Snapshot ids are strings or absent (the client takes them from a URL path); players, `next` and
  `winner` are numbers or absent.
- ClientGame.ConnectFour.Create: JavaScript shares the `cells` array with the JSON object it was
  built from. The model copies the sequence, so that aliasing is not captured.
- ClientGame.ConnectFour.HandleButtonPress: negative button indices are excluded by a
  precondition; every caller passes a button's position, which is never negative.
- ServerGame.ConnectFour.Move: the column range is a precondition because the source has no
  check.

## Findings

| source | as written | input that shows it | evidently intended | confidence | as-written member | corrected member |
|---|---|---|---|---|---|---|
| connect_four.py:44 | the row loop iterates over `range(self.height, -1)`, which is empty for every positive height. After its two checks `move` returns without placing a coin, and the "No empty slots" raise is unreachable | a new 7x6 game, then `move(1, 0)`: the board stays empty and player 1 is still to move | scan the rows from `height - 1` down to 0 and raise when the column is full, as the offline client does | high; not executed | `ServerGame.ConnectFour.MoveAsWritten` (shown by `ServerGame.LiteralRowsNeverLand`) | `ServerGame.ConnectFour.Move` (proved by `ServerGame.IntendedRowsLandLowest`) |
| connect_four.py:56 | `row` comes from true division, so it is a float. The cell lookup at line 95 then indexes a list with a float, which raises TypeError | a 7x6 board, `determineWinner(35)`: upper-left leaves the board, and upper-right (column 1, row 4.0) is on it, so that lookup raises. As written this cannot be reached, because the empty range at line 44 means `determineWinner` is never called | integer division, which is exact because `index - column` is a multiple of the width | high; not executed | `ServerGame.DetermineWinnerAsWritten` (shown by `ServerGame.FloatRowAlwaysRaises`) | `ServerGame.WinnerAt` (proved by `ServerGame.WinnerAtIsFourInARow`) |
