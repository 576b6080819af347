# Connect Four game engine, modelled in Dafny

This project models the game engine of a browser Connect Four game: the
`ConnectFour` class of `script.js`, with all of its page updates removed.
The engine covers the following:

- **Construction.** Options are resolved against their defaults (6 rows, 7
  columns, red and yellow). Equal colours for the two players are refused.
- **Dropping a token.** A token dropped into a column falls to the lowest
  empty cell.
- **After a drop.** The win check counts the run through the new token
  along the horizontal, vertical and both diagonal axes. If there is no
  win, the draw check tests whether the board is full. The round then ends
  with a point for the winner, or the turn passes to the other player.
- **A click.** It is ignored once the round is over.
- **Undo and reset.** Undo takes back the last move. Reset starts a new
  round and keeps the scores.

The model has four modules:

- `Board` (Board.dfy) holds the board as a value (`Grid`, a sequence of
  rows, row 0 on top) and the pure rules that read it:
  - `LandingRow`: where a dropped token comes to rest.
  - `CheckDirection` and `CheckWin`: the run counting behind the win check.
    Both are proved equal to an independent definition, `FourThrough`: four
    consecutive cells on one axis, with the new token among them, all hold
    that token. Off-board cells hold nothing, so a line never wraps around
    an edge.
  - `CheckDraw`: the nested "every row, every cell" test, proved equal to
    "no cell is empty".
- `Game` (Game.dfy) holds the whole game object as a value (`State`) and
  every operation as a function from the old state to the new one.
  - `Consistent` is the invariant every operation keeps. The board has the
    configured shape and both players have a score. A cell holds a token
    exactly when the move history names it. History entries are distinct,
    and the number of tokens equals the length of the history.
- `Engine` (ConnectFour.dfy) is the class itself. The board is an `array2`
  that `DropToken` and `UndoLastMove` write in place. `ResetGame`
  allocates a new one.
  - `DropToken` keeps the source's downward scan loop. `CheckDirection`
    keeps its two walking loops, in `CountRun`.
  - Every state-changing method is proved to change the object exactly as
    the matching `Game` function changes the state value. So every
    property proved about the functions holds of the object.
- `Properties` (Properties.dfy) proves facts that relate several
  operations:
  - an undo right after a click restores the state before it;
  - what undo does after a round has ended;
  - which scores a click can change;
  - the alternation of turns;
  - stacking in a column;
  - a vertical four.

Two behaviours of the code are kept as written:

- **Undo does not take back a point.** A win earns a point, and undo of
  that winning move leaves the point on the score board.
- **Undo after a finished round passes the turn to the opponent of the
  player who made the undone move.** Undo always switches the player. The
  move that ended the round had not switched it.

Undo never touches the scores (`Properties.UndoAfterClosingMove`), and
after a finished round it breaks the alternation of turns
(`Properties.UndoAfterEndBreaksParity`).

## Model

| member | source | states |
|---|---|---|
| Board.Other | script.js:94 | the other player differs from the given one, and player 1 and player 2 are swapped |
| Board.ScanUp | script.js:61-62 | scanning a column upwards from a row gives the first empty cell at or above it: every cell passed over is occupied, and None exactly when no cell in that stretch is empty |
| Board.LandingRow | script.js:61-62 | the landing row is an empty cell of the column with every cell below it occupied; None exactly when the column has no empty cell, in particular for a column index off the board |
| Board.RunCovers | script.js:113-125 | the walk along a direction counts at least n cells exactly when the first n cells from its start are on the board and hold the token |
| Board.RunsMeetFour | script.js:109-127 | the cell plus the run ahead plus the run behind reach four exactly when some window of four consecutive cells on the axis, containing the cell, holds the token |
| Board.CheckDirection | script.js:109-128 | the direction check is true exactly when four consecutive cells on that axis, one of them the new token, all hold its owner's token (no wrap-around) |
| Board.CheckWin | script.js:98-107 | the win check is true exactly when such a four exists on one of the four axes: horizontal, vertical, and the two diagonals |
| Board.RowFull | script.js:131 | a row passes the inner `every` exactly when none of its cells is empty |
| Board.CheckDraw | script.js:130-132 | the draw check is true exactly when no cell of the board is empty |
| Game.SizeOr | script.js:4-5 | a missing or zero row or column count is replaced by the default; any other count is kept |
| Game.ColorOr | script.js:7-8 | a missing or empty colour is replaced by the default; any other colour is kept |
| Game.Configure | script.js:3-19 | equal resolved colours are refused before anything else; otherwise a row or column count that cannot be an array length is refused; a configuration that is accepted has positive dimensions and two different colours |
| Game.Initial | script.js:19-23 | a new game has an empty board of the configured shape, player 1 to move, an open round, no history and both scores at 0, and it satisfies the invariant |
| Game.SwitchPlayer | script.js:93-94 | the turn passes to the other player and nothing else changes: dimensions, board, history, round flag and scores are kept |
| Game.EndGame | script.js:134-143 | the round is over; the winner, if any, gains exactly one point and every other score is unchanged; board, history, turn and dimensions are untouched |
| Game.Place | script.js:62-64 | the mover's token is written into the empty cell, the move is appended to the history, and the invariant is kept |
| Game.Resolve | script.js:67-73 | a win ends the round with a point for the mover; otherwise a full board ends it as a draw with the scores unchanged; otherwise the turn passes; the win is checked first |
| Game.DropToken | script.js:60-77 | a drop changes the state exactly when the column has an empty cell; it then adds one history entry in that column, at its lowest empty cell, and the result is the placement followed by the win, draw or turn outcome; the invariant is kept |
| Game.HandleCellClick | script.js:51-57 | a click during a finished round leaves the state unchanged; otherwise it is a drop into that column |
| Game.UndoLastMove | script.js:153-160 | with no history nothing changes; otherwise the last move's cell is emptied, the move is removed, the turn switches and the round reopens, with the scores unchanged; the invariant is kept |
| Game.ResetGame | script.js:164-168 | a new round: every cell is empty, player 1 moves, the round is open and the history is empty; the scores carry over; the invariant is kept |
| Properties.UndoAfterOpenMove | script.js:153-160 | undo right after a click that did not end the round gives back exactly the state before the click |
| Properties.UndoAfterClosingMove | script.js:153-160 | undo right after a click that ended the round gives back the board and history and reopens the round, but the turn goes to the mover's opponent and the scores stay as the click left them |
| Properties.ClickScores | script.js:67-73 | a click never changes the opponent's score; it raises the mover's score by one exactly when the token it placed completes a four |
| Properties.InitialParity | script.js:19-23 | a new game satisfies the turn rule |
| Properties.ResetParity | script.js:164-168 | a reset from any consistent state satisfies the turn rule, including a state whose rule an undo after a finished round broke |
| Properties.ClickKeepsParity | script.js:51-77 | every click keeps the turn rule: while the round is open, player 1 moves exactly after an even number of moves, and a move that ends the round keeps its mover current |
| Properties.UndoKeepsParityWhileOpen | script.js:153-160 | undo during an open round keeps the turn rule |
| Properties.UndoAfterEndBreaksParity | script.js:153-160 | undo after the round has ended breaks the turn rule |
| Properties.DropStacks | script.js:60-77 | after a drop, the landing cell holds the mover's token and every empty cell left in that column lies above it |
| Properties.VerticalFour | script.js:98-107 | four tokens of one player stacked in a column make the win check true at the top one |
| Engine.ConnectFour.constructor | script.js:3-23 | a new object has a fresh board array and the state of `Game.Initial` for its configuration, with the two colours recorded |
| Engine.ConnectFour.Create | script.js:3-19 | an object is created exactly when the options are accepted, and the error is the refusal reason otherwise; a created object starts in the initial state |
| Engine.ConnectFour.HandleCellClick | script.js:51-57 | the object changes exactly as `Game.HandleCellClick` says, and keeps its invariant |
| Engine.ConnectFour.DropToken | script.js:60-77 | the downward scan, in-place write and outcome change the object exactly as `Game.DropToken` says, and keep its invariant |
| Engine.ConnectFour.PlaceToken | script.js:62-64 | the array write and the history push produce `Game.Place` of the old state |
| Engine.ConnectFour.Resolve | script.js:67-73 | the win check, draw check, end of round and turn switch produce `Game.Resolve` of the old state |
| Engine.ConnectFour.SwitchPlayer | script.js:93-94 | the current player becomes the other player, and nothing else changes |
| Engine.ConnectFour.CheckWin | script.js:98-107 | the result equals the pure win check on the board array |
| Engine.ConnectFour.CheckDirection | script.js:109-128 | the result is true exactly when four consecutive cells on the axis through the cell hold its token |
| Engine.ConnectFour.CountRun | script.js:113-125 | each walking loop counts exactly the run of equal cells from its start up to the edge or a different cell |
| Engine.ConnectFour.CheckDraw | script.js:130-132 | the result equals the pure draw check on the board array |
| Engine.ConnectFour.EndGame | script.js:134-143 | the object changes exactly as `Game.EndGame` says |
| Engine.ConnectFour.UndoLastMove | script.js:153-160 | the in-place undo changes the object exactly as `Game.UndoLastMove` says, and keeps its invariant |
| Engine.ConnectFour.ResetGame | script.js:164-168 | the object gets a fresh empty array and changes exactly as `Game.ResetGame` says, keeping its invariant |

## Left out

- Page updates are not modelled:
  - building the cell grid (`initializeDOM`) and wiring the buttons (`setupEventListeners`);
  - repainting cells (`updateBoard`) and the score line (`updateScoreDisplay`);
  - the winner text, the game-over overlay, and the current-player message in `switchPlayer` and `resetGame`.

  None of them changes the engine's state.
- Player labels are not modelled. They are display text only.
- Player colours are kept only for the constructor's equal-colour check.
- Reading the column out of the click event is not modelled: `parseInt` of the cell's data attribute, and the `isNaN` return. A click whose target has no column is a page event the engine never sees. The model takes the column as an integer.
- `reconfigureGame` is not modelled. It only shows and hides page sections.
- The configuration form handler is not modelled: parsing the form, its own colour check with `alert`, and storing the new object in a global. Its check duplicates the constructor's refusal, which `Game.Configure` models.
- The runtime's allocation limits are modelled only as the array-length bound of 2^32. Running out of memory for a huge but legal board is not modelled.
- Option values are given as `Option<int>` and `Option<string>`. The form passes the result of `parseInt`, which is NaN for an empty or non-numeric field. `|| 6` and `|| 7` treat NaN like a missing value, so the model writes it as `None`. Option values of other types and fractional row or column counts are not modelled.
- The walking loops of `CheckDirection` are bounded by the array's dimensions rather than the `rows` and `cols` fields. The object invariant makes the two equal.
