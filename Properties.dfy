/**
  Properties of the game engine that relate several operations: taking back
  a move, the consequences of undo after a round has ended, and the order in
  which the players move.
 */
module Properties {
  import opened Wrappers
  import opened Board
  import opened Game

  /**
    Undo right after a click that placed a token without ending the round
    gives back exactly the state before the click: board, history, the
    player to move, the open round and the scores.
   */
  lemma UndoAfterOpenMove(s: State, col: int)
    requires Consistent(s) && !s.over
    requires HandleCellClick(s, col) != s && !HandleCellClick(s, col).over
    ensures UndoLastMove(HandleCellClick(s, col)) == s
  {
    var t := HandleCellClick(s, col);
    var row := t.history[|s.history|].row;
    assert t.history[..|t.history| - 1] == s.history;
    SetRestore(s.board, row, col, Token(s.current));
  }

  /**
    Undo right after a click that ended the round (a win or a draw) gives
    back the board and the history and reopens the round, but the turn goes
    to the opponent of the player whose move was taken back, and the point a
    win earned stays on the score board.
   */
  lemma UndoAfterClosingMove(s: State, col: int)
    requires Consistent(s) && !s.over && HandleCellClick(s, col).over
    ensures UndoLastMove(HandleCellClick(s, col)).board == s.board
    ensures UndoLastMove(HandleCellClick(s, col)).history == s.history
    ensures !UndoLastMove(HandleCellClick(s, col)).over
    ensures UndoLastMove(HandleCellClick(s, col)).current == Other(s.current)
    ensures UndoLastMove(HandleCellClick(s, col)).scores == HandleCellClick(s, col).scores
  {
    var t := HandleCellClick(s, col);
    var row := t.history[|s.history|].row;
    assert t.history[..|t.history| - 1] == s.history;
    SetRestore(s.board, row, col, Token(s.current));
  }

  /**
    A click that completes four in a row for the mover gives the mover
    exactly one point and the opponent none; any other click leaves the
    scores alone.
   */
  lemma ClickScores(s: State, col: int)
    requires Consistent(s)
    ensures var t := HandleCellClick(s, col);
      t.scores[Other(s.current)] == s.scores[Other(s.current)]
      && (t.scores[s.current] == s.scores[s.current] + 1 || t.scores[s.current] == s.scores[s.current])
      && (t.scores[s.current] == s.scores[s.current] + 1 <==>
            t != s && CheckWin(t.board, t.history[|s.history|].row, col))
  {
  }

  /**
    The alternation rule, stated so that it survives the end of a round:
    while the round is open, player 1 is to move exactly when an even number
    of moves stands on the board; once a move has ended the round, the
    player who made it stays current.
   */
  predicate TurnParity(s: State)
  {
    (s.current == One) <==> ((|s.history| % 2 == 0) == !s.over)
  }

  /** A new game satisfies the alternation rule. */
  lemma InitialParity(cfg: Config)
    requires cfg.rows > 0 && cfg.cols > 0
    ensures TurnParity(Initial(cfg))
  {
  }

  /** A reset restores the alternation rule from any state, even one an undo after the end of a round broke. */
  lemma ResetParity(s: State)
    requires Consistent(s)
    ensures TurnParity(ResetGame(s))
  {
  }

  /** Every click, accepted or ignored, keeps the alternation rule. */
  lemma ClickKeepsParity(s: State, col: int)
    requires Consistent(s) && TurnParity(s)
    ensures TurnParity(HandleCellClick(s, col))
  {
    var t := HandleCellClick(s, col);
    if !s.over && t != s {
      var row := t.history[|s.history|].row;
      assert t == Resolve(Place(s, row, col), row, col);
      var n := |s.history|;
      assert |t.history| == n + 1;
      EvenStep(n);
      var even := n % 2 == 0;
      assert (s.current == One) == even;
      if t.over {
        assert t.current == s.current;
        assert ((n + 1) % 2 == 0) == !even;
      } else {
        assert t.current == Other(s.current);
      }
    }
  }

  /** One more move flips the parity of the move count. */
  lemma EvenStep(n: nat)
    ensures ((n + 1) % 2 == 0) == !(n % 2 == 0)
  {
  }

  /** Undo during an open round keeps the alternation rule. */
  lemma UndoKeepsParityWhileOpen(s: State)
    requires Consistent(s) && TurnParity(s) && !s.over
    ensures TurnParity(UndoLastMove(s))
  {
  }

  /**
    Undo after the round has ended breaks the alternation rule: the turn
    switches although the player who made the last move did not keep it.
   */
  lemma UndoAfterEndBreaksParity(s: State)
    requires Consistent(s) && TurnParity(s) && s.over && |s.history| > 0
    ensures !TurnParity(UndoLastMove(s))
  {
  }

  /**
    Tokens stack: after a drop into column `col`, the landing cell holds
    the mover's token and every empty cell left in that column lies above it.
   */
  lemma DropStacks(s: State, col: int)
    requires Consistent(s)
    ensures var t := DropToken(s, col);
      t != s ==>
        var row := t.history[|s.history|].row;
        && t.board[row][col] == Token(s.current)
        && forall k :: row <= k < s.rows ==> !Holds(t.board, k, col, Empty)
  {
    var t := DropToken(s, col);
    if t != s {
      var row := t.history[|s.history|].row;
      assert t.board == Set(s.board, row, col, Token(s.current));
      forall k | row <= k < s.rows
        ensures !Holds(t.board, k, col, Empty)
      {
        if k > row {
          assert !Holds(s.board, k, col, Empty);
        }
      }
    }
  }

  /**
    Four tokens of one player stacked in a column are a win for the top one:
    the vertical axis is among those the win check scans.
   */
  lemma VerticalFour(g: Grid, row: nat, col: nat)
    requires IsRect(g) && row + 3 < |g| && col < Width(g)
    requires forall i :: row <= i <= row + 3 ==> g[i][col] == g[row][col]
    ensures CheckWin(g, row, col)
  {
    var v := g[row][col];
    assert Holds(g, row + 3, col, v) && Holds(g, row + 2, col, v) && Holds(g, row + 1, col, v);
    assert AllHold(g, row, col, 1, 0, v, 4);
    assert Window(g, row, col, 1, 0, v, 0);
    assert FourThrough(g, row, col, Axes[1].0, Axes[1].1);
  }
}
