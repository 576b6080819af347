/**
  The state of one Connect Four game object, as a value, and every operation
  of the game engine as a function from the old state to the new one: the
  construction-time option check, a column click, the gravity drop with the
  win and draw checks that follow it, the turn switch, the end of a round,
  undo and the round reset. The imperative engine in module Engine is proved
  to change its fields exactly as these functions say.
 */
module Game {
  import opened Wrappers
  import opened Board

  /** A resolved move: the cell the token came to rest in. */
  datatype Move = Move(row: nat, col: nat)

  /** Everything a game object holds besides its display settings. */
  datatype State = State(
    rows: nat,
    cols: nat,
    board: Grid,
    current: Player,
    over: bool,
    history: seq<Move>,
    scores: map<Player, nat>)

  /**
    The invariant every reachable state keeps: the board has the configured
    shape, both players have a score, the history names distinct cells of the
    board, a cell holds a token exactly when the history names it, and the
    number of tokens equals the length of the history.
   */
  ghost predicate Consistent(s: State)
  {
    && s.rows > 0 && s.cols > 0
    && |s.board| == s.rows && IsRect(s.board) && Width(s.board) == s.cols
    && (forall p: Player :: p in s.scores)
    && (forall i :: 0 <= i < |s.history| ==> InBounds(s.board, s.history[i].row, s.history[i].col))
    && (forall i, j :: 0 <= i < j < |s.history| ==> s.history[i] != s.history[j])
    && (forall r: nat, c: nat :: InBounds(s.board, r, c) ==> (s.board[r][c] != Empty <==> Move(r, c) in s.history))
    && Occupied(s.board) == |s.history|
  }

  // ---------------------------------------------------------------- construction

  /**
    The options a game is created with. None stands for an option that was
    not given (or a number that did not parse).
   */
  datatype Options = Options(rows: Option<int>, cols: Option<int>, color1: Option<string>, color2: Option<string>)

  /** The settings a game object runs with once the defaults are filled in. */
  datatype Config = Config(rows: nat, cols: nat, color1: string, color2: string)

  datatype ConfigError =
    | SameColors   // both players were given the same colour
    | BadLength    // the board cannot be allocated with this many rows or columns

  const DefaultRows: int := 6
  const DefaultCols: int := 7
  const DefaultColor1: string := "red"
  const DefaultColor2: string := "yellow"

  /** An array length the runtime accepts is below 2^32. */
  const LengthLimit: int := 0x1_0000_0000

  /** `given || fallback` on a number: a missing or zero option takes the default. */
  function SizeOr(given: Option<int>, fallback: int): (n: int)
    ensures fallback != 0 ==> n != 0
    ensures given.Some? && given.value != 0 ==> n == given.value
    ensures !(given.Some? && given.value != 0) ==> n == fallback
  {
    if given.Some? && given.value != 0 then given.value else fallback
  }

  /** `given || fallback` on a string: a missing or empty option takes the default. */
  function ColorOr(given: Option<string>, fallback: string): (c: string)
    ensures fallback != "" ==> c != ""
    ensures given.Some? && given.value != "" ==> c == given.value
    ensures !(given.Some? && given.value != "") ==> c == fallback
  {
    if given.Some? && given.value != "" then given.value else fallback
  }

  /**
    The constructor's checks: equal colours are refused first; then a board
    dimension the runtime cannot allocate is refused.
   */
  function Configure(o: Options): (r: Result<Config, ConfigError>)
    ensures r == Failure(SameColors) <==> ColorOr(o.color1, DefaultColor1) == ColorOr(o.color2, DefaultColor2)
    ensures r.Success? <==>
      && ColorOr(o.color1, DefaultColor1) != ColorOr(o.color2, DefaultColor2)
      && 0 <= SizeOr(o.rows, DefaultRows) < LengthLimit
      && 0 <= SizeOr(o.cols, DefaultCols) < LengthLimit
    ensures r.Success? ==> r.value.rows > 0 && r.value.cols > 0 && r.value.color1 != r.value.color2
    ensures r.Success? ==> r.value.rows == SizeOr(o.rows, DefaultRows) && r.value.cols == SizeOr(o.cols, DefaultCols)
  {
    var rows := SizeOr(o.rows, DefaultRows);
    var cols := SizeOr(o.cols, DefaultCols);
    var color1 := ColorOr(o.color1, DefaultColor1);
    var color2 := ColorOr(o.color2, DefaultColor2);
    if color1 == color2 then Failure(SameColors)
    else if !(0 <= rows < LengthLimit && 0 <= cols < LengthLimit) then Failure(BadLength)
    else Success(Config(rows, cols, color1, color2))
  }

  /** The state a new game object starts in. */
  function Initial(cfg: Config): (s: State)
    requires cfg.rows > 0 && cfg.cols > 0
    ensures Consistent(s)
    ensures s.rows == cfg.rows && s.cols == cfg.cols && s.history == [] && Occupied(s.board) == 0
    ensures s.current == One && !s.over && s.scores[One] == 0 && s.scores[Two] == 0
  {
    var board := EmptyGrid(cfg.rows, cfg.cols);
    var scores: map<Player, nat> := map[One := 0, Two := 0];
    EmptyOccupied(board);
    assert forall p: Player :: p in scores by {
      forall p: Player ensures p in scores {
        assert p.One? || p.Two?;
      }
    }
    State(cfg.rows, cfg.cols, board, One, false, [], scores)
  }

  // ---------------------------------------------------------------- a move

  /** The turn passes to the other player. */
  function SwitchPlayer(s: State): (t: State)
    ensures t.current == Other(s.current) && t.current != s.current
    ensures t.rows == s.rows && t.cols == s.cols
    ensures t.board == s.board && t.history == s.history && t.over == s.over && t.scores == s.scores
  {
    s.(current := Other(s.current))
  }

  /** The round ends; a winner, when there is one, gains exactly one point. */
  function EndGame(s: State, winner: Option<Player>): (t: State)
    requires forall p: Player :: p in s.scores
    ensures t.over && t.scores.Keys == s.scores.Keys
    ensures t.rows == s.rows && t.cols == s.cols
    ensures forall p :: p in s.scores ==> t.scores[p] == s.scores[p] + (if winner == Some(p) then 1 else 0)
    ensures t.board == s.board && t.history == s.history && t.current == s.current
  {
    s.(over := true, scores := if winner.Some? then s.scores[winner.value := s.scores[winner.value] + 1] else s.scores)
  }

  /** (row, col) is the lowest empty cell of column `col`. */
  predicate LowestEmpty(g: Grid, row: int, col: int)
  {
    Holds(g, row, col, Empty) && forall k :: row < k < |g| ==> !Holds(g, k, col, Empty)
  }

  /** The current player's token is written into the empty cell (row, col) and the move recorded. */
  function Place(s: State, row: nat, col: nat): (t: State)
    requires Consistent(s) && Holds(s.board, row, col, Empty)
    ensures Consistent(t)
    ensures t.board == Set(s.board, row, col, Token(s.current)) && t.history == s.history + [Move(row, col)]
    ensures t.rows == s.rows && t.cols == s.cols && t.current == s.current && t.over == s.over && t.scores == s.scores
  {
    var t := s.(board := Set(s.board, row, col, Token(s.current)), history := s.history + [Move(row, col)]);
    SetOccupied(s.board, row, col, Token(s.current));
    assert Move(row, col) !in s.history;
    t
  }

  /**
    What follows a placement at (row, col): a win ends the round with the
    mover as winner; otherwise a full board ends it as a draw; otherwise the
    turn passes. The win is looked for first, so a move that both fills the
    board and completes four is a win.
   */
  function Resolve(s: State, row: nat, col: nat): (t: State)
    requires Consistent(s) && InBounds(s.board, row, col)
    ensures Consistent(t)
    ensures t.rows == s.rows && t.cols == s.cols && t.board == s.board && t.history == s.history
    ensures CheckWin(s.board, row, col) ==>
      t.over && t.current == s.current && t.scores == s.scores[s.current := s.scores[s.current] + 1]
    ensures !CheckWin(s.board, row, col) && CheckDraw(s.board) ==>
      t.over && t.current == s.current && t.scores == s.scores
    ensures !CheckWin(s.board, row, col) && !CheckDraw(s.board) ==>
      t.over == s.over && t.current == Other(s.current) && t.scores == s.scores
  {
    if CheckWin(s.board, row, col) then EndGame(s, Some(s.current))
    else if CheckDraw(s.board) then EndGame(s, None)
    else SwitchPlayer(s)
  }

  /**
    A token dropped into column `col` falls to the lowest empty cell of that
    column. A full column, or a number that is not a column of the board,
    leaves the state exactly as it was.
   */
  function DropToken(s: State, col: int): (t: State)
    requires Consistent(s)
    ensures Consistent(t)
    ensures t == s <==> forall k :: 0 <= k < s.rows ==> !Holds(s.board, k, col, Empty)
    ensures t != s ==> |t.history| == |s.history| + 1 && t.history[..|s.history|] == s.history
    ensures t != s ==>
      && t.history[|s.history|].col == col
      && LowestEmpty(s.board, t.history[|s.history|].row, col)
      && t == Resolve(Place(s, t.history[|s.history|].row, col), t.history[|s.history|].row, col)
  {
    match LandingRow(s.board, col)
    case None => s
    case Some(row) =>
      var t := Resolve(Place(s, row, col), row, col);
      assert t.history == s.history + [Move(row, col)];
      t
  }

  /** A click on a column is ignored once the round is over. */
  function HandleCellClick(s: State, col: int): (t: State)
    requires Consistent(s)
    ensures Consistent(t)
    ensures s.over ==> t == s
    ensures !s.over ==> t == DropToken(s, col)
  {
    if s.over then s else DropToken(s, col)
  }

  // ---------------------------------------------------------------- undo and reset

  /**
    Takes back the last move: its cell is emptied, the turn switches and the
    round is open again. The scores are not touched. With no move to take
    back nothing happens.
   */
  function UndoLastMove(s: State): (t: State)
    requires Consistent(s)
    ensures Consistent(t)
    ensures t.rows == s.rows && t.cols == s.cols && t.scores == s.scores
    ensures |s.history| == 0 ==> t == s
    ensures |s.history| > 0 ==>
      && t.history == s.history[..|s.history| - 1]
      && t.board == Set(s.board, s.history[|s.history| - 1].row, s.history[|s.history| - 1].col, Empty)
      && t.current == Other(s.current) && !t.over
  {
    if |s.history| == 0 then s
    else
      var last := s.history[|s.history| - 1];
      var t := s.(board := Set(s.board, last.row, last.col, Empty),
                  history := s.history[..|s.history| - 1],
                  current := Other(s.current),
                  over := false);
      SetOccupied(s.board, last.row, last.col, Empty);
      assert last in s.history;
      forall r: nat, c: nat | InBounds(t.board, r, c)
        ensures t.board[r][c] != Empty <==> Move(r, c) in t.history
      {
        assert Move(r, c) in s.history <==> Move(r, c) in t.history || Move(r, c) == last;
      }
      t
  }

  /** A new round: an empty board, player 1 to move, no history; the scores carry over. */
  function ResetGame(s: State): (t: State)
    requires Consistent(s)
    ensures Consistent(t)
    ensures t.rows == s.rows && t.cols == s.cols && t.scores == s.scores
    ensures forall r, c :: InBounds(t.board, r, c) ==> t.board[r][c] == Empty
    ensures t.current == One && !t.over && t.history == []
  {
    var board := EmptyGrid(s.rows, s.cols);
    EmptyOccupied(board);
    s.(board := board, current := One, over := false, history := [])
  }
}
