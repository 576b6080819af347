/**
  The game object itself: the board is a two-dimensional array written in
  place, and the player to move, the end-of-round flag, the move history and
  the scores are fields the methods reassign. Every method is proved to
  change the object exactly as the matching function of module Game changes
  the state value, so that the lemmas proved there hold of the object.
 */
module Engine {
  import opened Wrappers
  import opened Board
  import opened Game

  class ConnectFour {
    const rows: nat
    const cols: nat
    const playerColors: map<Player, string>
    var board: array2<Cell>
    var currentPlayer: Player
    var gameOver: bool
    var moveHistory: seq<Move>
    var playerScores: map<Player, nat>

    /** The board array read as a sequence of rows. */
    ghost function Cells(): (g: Grid)
      reads this`board, board
      ensures |g| == board.Length0 && IsRect(g) && (board.Length0 > 0 ==> Width(g) == board.Length1)
      ensures forall r, c :: 0 <= r < board.Length0 && 0 <= c < board.Length1 ==> g[r][c] == board[r, c]
    {
      var b := board;
      seq(b.Length0, r requires 0 <= r < b.Length0 reads b =>
        seq(b.Length1, c requires 0 <= c < b.Length1 reads b => b[r, c]))
    }

    /** The object's fields as a game state. */
    ghost function Abstract(): State
      reads this, board
    {
      State(rows, cols, Cells(), currentPlayer, gameOver, moveHistory, playerScores)
    }

    /** The object invariant: the array has the configured shape and the state is consistent. */
    ghost predicate Valid()
      reads this, board
    {
      && board.Length0 == rows && board.Length1 == cols
      && One in playerColors && Two in playerColors && playerColors[One] != playerColors[Two]
      && Consistent(Abstract())
    }

    /** A new game object for settings that passed the constructor's checks. */
    constructor (cfg: Config)
      requires cfg.rows > 0 && cfg.cols > 0 && cfg.color1 != cfg.color2
      ensures Valid() && fresh(board)
      ensures Abstract() == Initial(cfg)
      ensures playerColors == map[One := cfg.color1, Two := cfg.color2]
    {
      rows, cols := cfg.rows, cfg.cols;
      playerColors := map[One := cfg.color1, Two := cfg.color2];
      board := new Cell[cfg.rows, cfg.cols]((r, c) => Empty);
      currentPlayer := One;
      gameOver := false;
      moveHistory := [];
      playerScores := map[One := 0, Two := 0];
      new;
      SameGrid(Cells(), EmptyGrid(rows, cols));
      assert Abstract() == Initial(cfg);
    }

    /** Creating a game: the options are checked first, and a refused configuration yields no object. */
    static method Create(o: Options) returns (r: Result<ConnectFour, ConfigError>)
      ensures r.Success? <==> Configure(o).Success?
      ensures r.Failure? ==> r.error == Configure(o).error
      ensures r.Success? ==> fresh(r.value) && fresh(r.value.board) && r.value.Valid()
      ensures r.Success? ==> r.value.Abstract() == Initial(Configure(o).value)
    {
      var cfg := Configure(o);
      if cfg.Failure? {
        return Failure(cfg.error);
      }
      var game := new ConnectFour(cfg.value);
      return Success(game);
    }

    /** A click on column `col`: ignored once the round is over, otherwise a drop. */
    method HandleCellClick(col: int)
      requires Valid()
      modifies this, board
      ensures Valid() && board == old(board)
      ensures Abstract() == Game.HandleCellClick(old(Abstract()), col)
    {
      if gameOver {
        return;
      }
      DropToken(col);
    }

    /**
      Drops the current player's token into column `col`, scanning from the
      bottom row up for the first empty cell; then ends the round or passes
      the turn.
     */
    method DropToken(col: int)
      requires Valid()
      modifies this, board
      ensures Valid() && board == old(board)
      ensures Abstract() == Game.DropToken(old(Abstract()), col)
    {
      var row: int := rows - 1;
      while row >= 0
        invariant -1 <= row < rows
        invariant unchanged(this) && unchanged(board)
        invariant ScanUp(Cells(), col, row) == LandingRow(Cells(), col)
      {
        if 0 <= col < cols && board[row, col] == Empty {
          PlaceToken(row, col);
          Resolve(row, col);
          return;
        }
        row := row - 1;
      }
    }

    /** Writes the current player's token into the empty cell (row, col) and records the move. */
    method PlaceToken(row: nat, col: nat)
      requires Valid() && row < rows && col < cols && board[row, col] == Empty
      modifies this`moveHistory, board
      ensures Valid()
      ensures Abstract() == Game.Place(old(Abstract()), row, col)
    {
      ghost var s := Abstract();
      board[row, col] := Token(currentPlayer);
      moveHistory := moveHistory + [Move(row, col)];
      SameGrid(Cells(), Set(s.board, row, col, Token(s.current)));
      assert Abstract() == Game.Place(s, row, col);
    }

    /** After a placement at (row, col): a win or a full board ends the round, otherwise the turn passes. */
    method Resolve(row: nat, col: nat)
      requires Valid() && row < rows && col < cols
      modifies this`currentPlayer, this`gameOver, this`playerScores
      ensures Abstract() == Game.Resolve(old(Abstract()), row, col)
    {
      ghost var s := Abstract();
      var won := CheckWin(row, col);
      if won {
        EndGame(Some(currentPlayer));
      } else {
        var full := CheckDraw();
        if full {
          EndGame(None);
        } else {
          SwitchPlayer();
        }
      }
    }

    /** The turn passes to the other player. */
    method SwitchPlayer()
      modifies this`currentPlayer
      ensures currentPlayer == Other(old(currentPlayer))
      ensures Abstract() == Game.SwitchPlayer(old(Abstract()))
    {
      currentPlayer := if currentPlayer == One then Two else One;
    }

    /** Whether the token at (row, col) completes four in a row on one of the four axes. */
    method CheckWin(row: int, col: int) returns (won: bool)
      requires 0 <= row < board.Length0 && 0 <= col < board.Length1
      ensures won == Board.CheckWin(Cells(), row, col)
    {
      won := CheckDirection(row, col, 0, 1);
      if !won {
        won := CheckDirection(row, col, 1, 0);
      }
      if !won {
        won := CheckDirection(row, col, 1, 1);
      }
      if !won {
        won := CheckDirection(row, col, 1, -1);
      }
    }

    /**
      Counts the cells equal to (row, col) met walking from it along
      (dx, dy) and then along (-dx, -dy), the cell itself once, and reports
      whether the count reaches four.
     */
    method CheckDirection(row: int, col: int, dx: int, dy: int) returns (won: bool)
      requires 0 <= row < board.Length0 && 0 <= col < board.Length1 && IsStep(dx, dy)
      ensures won <==> FourThrough(Cells(), row, col, dx, dy)
    {
      ghost var g := Cells();
      var player := board[row, col];
      var ahead := CountRun(row + dx, col + dy, dx, dy, player);
      assert ahead == Run(g, row + dx, col + dy, dx, dy, player);
      var ex, ey := -dx, -dy;
      var behind := CountRun(row + ex, col + ey, ex, ey, player);
      assert behind == Run(g, row + ex, col + ey, ex, ey, player);
      won := 1 + ahead + behind >= 4;
      RunsMeetFour(g, row, col, dx, dy, ex, ey, player);
    }

    /** Walks from (r, c) along (dx, dy) while the cells hold `player`, and returns how many it passed. */
    method CountRun(r0: int, c0: int, dx: int, dy: int, player: Cell) returns (count: nat)
      requires IsStep(dx, dy)
      ensures count == Run(Cells(), r0, c0, dx, dy, player)
    {
      ghost var g := Cells();
      count := 0;
      var r, c := r0, c0;
      while 0 <= r < board.Length0 && 0 <= c < board.Length1 && board[r, c] == player
        invariant count + Run(g, r, c, dx, dy, player) == Run(g, r0, c0, dx, dy, player)
        decreases Reach(g, r, c, dx, dy)
      {
        assert Holds(g, r, c, player);
        count := count + 1;
        r, c := r + dx, c + dy;
      }
      assert !Holds(g, r, c, player);
    }

    /** Whether no cell of the board is empty. */
    function CheckDraw(): (full: bool)
      reads this, board
      ensures full == Board.CheckDraw(Cells())
    {
      forall r, c :: 0 <= r < board.Length0 && 0 <= c < board.Length1 ==> board[r, c] != Empty
    }

    /** The round ends; a winner, when there is one, gains a point. */
    method EndGame(winner: Option<Player>)
      requires forall p: Player :: p in playerScores
      modifies this`gameOver, this`playerScores
      ensures Abstract() == Game.EndGame(old(Abstract()), winner)
    {
      gameOver := true;
      if winner.Some? {
        playerScores := playerScores[winner.value := playerScores[winner.value] + 1];
      }
    }

    /** Takes back the last move, if there is one; the scores are left alone. */
    method UndoLastMove()
      requires Valid()
      modifies this, board
      ensures Valid() && board == old(board)
      ensures Abstract() == Game.UndoLastMove(old(Abstract()))
    {
      if |moveHistory| == 0 {
        return;
      }
      ghost var s := Abstract();
      var lastMove := moveHistory[|moveHistory| - 1];
      moveHistory := moveHistory[..|moveHistory| - 1];
      board[lastMove.row, lastMove.col] := Empty;
      SwitchPlayer();
      gameOver := false;
      SameGrid(Cells(), Set(s.board, lastMove.row, lastMove.col, Empty));
      assert Abstract() == Game.UndoLastMove(s);
    }

    /** Starts a new round on a fresh empty board; the scores carry over. */
    method ResetGame()
      requires Valid()
      modifies this
      ensures Valid() && fresh(board)
      ensures Abstract() == Game.ResetGame(old(Abstract()))
    {
      ghost var s := Abstract();
      board := new Cell[rows, cols]((r, c) => Empty);
      currentPlayer := One;
      gameOver := false;
      moveHistory := [];
      SameGrid(Cells(), EmptyGrid(rows, cols));
      assert Abstract() == Game.ResetGame(s);
    }
  }
}
