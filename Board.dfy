/**
  The board of a Connect Four game and the pure rules read off it: where a
  dropped token lands, whether the token just placed completes four in a row,
  and whether the board is full.
 */
module Board {
  import opened Wrappers

  /** The two players, numbered 1 and 2 in the game. */
  datatype Player = One | Two

  /** The opponent of `p`. */
  function Other(p: Player): (q: Player)
    ensures q != p
    ensures p == One <==> q == Two
  {
    if p == One then Two else One
  }

  /** A cell is empty or holds one player's token. */
  datatype Cell = Empty | Token(owner: Player)

  /** The board as a sequence of rows; row 0 is the top, the last row the bottom. */
  type Grid = seq<seq<Cell>>

  function Width(g: Grid): nat
  {
    if |g| == 0 then 0 else |g[0]|
  }

  /** Every row has the same number of columns. */
  predicate IsRect(g: Grid)
  {
    forall r :: 0 <= r < |g| ==> |g[r]| == Width(g)
  }

  predicate InBounds(g: Grid, r: int, c: int)
  {
    0 <= r < |g| && 0 <= c < Width(g)
  }

  /**
    Cell (r, c) lies on the board and holds `v`. Off the board the game's
    lookup yields no cell at all, which equals neither a token nor Empty.
   */
  predicate Holds(g: Grid, r: int, c: int, v: Cell)
  {
    0 <= r < |g| && 0 <= c < |g[r]| && g[r][c] == v
  }

  /** A `rows` by `cols` board of empty cells. */
  function EmptyGrid(rows: nat, cols: nat): (g: Grid)
    requires rows > 0
    ensures |g| == rows && IsRect(g) && Width(g) == cols
    ensures forall r, c :: InBounds(g, r, c) ==> g[r][c] == Empty
  {
    seq(rows, r => seq(cols, c => Empty))
  }

  /** The board with cell (r, c) replaced by `v`. */
  function Set(g: Grid, r: nat, c: nat, v: Cell): (h: Grid)
    requires IsRect(g) && InBounds(g, r, c)
    ensures |h| == |g| && IsRect(h) && Width(h) == Width(g)
    ensures h[r][c] == v
    ensures forall r', c' :: InBounds(g, r', c') && (r', c') != (r, c) ==> h[r'][c'] == g[r'][c']
  {
    g[r := g[r][c := v]]
  }

  /** Writing back a cell's old value after overwriting it restores the board. */
  lemma SetRestore(g: Grid, r: nat, c: nat, v: Cell)
    requires IsRect(g) && InBounds(g, r, c)
    ensures Set(Set(g, r, c, v), r, c, g[r][c]) == g
  {
    assert g[r][c := v][c := g[r][c]] == g[r];
  }

  /** Two boards with the same shape and the same cells are equal. */
  lemma SameGrid(g: Grid, h: Grid)
    requires |g| == |h| && forall r :: 0 <= r < |g| ==> |g[r]| == |h[r]|
    requires forall r, c :: 0 <= r < |g| && 0 <= c < |g[r]| ==> g[r][c] == h[r][c]
    ensures g == h
  {
    forall r | 0 <= r < |g|
      ensures g[r] == h[r]
    {
    }
  }

  // ---------------------------------------------------------------- gravity

  /**
    Scanning column `col` from row `row` upwards, the first empty cell: the
    largest row index at most `row` whose cell is empty.
   */
  function ScanUp(g: Grid, col: int, row: int): (r: Option<nat>)
    requires IsRect(g) && -1 <= row < |g|
    ensures r.Some? ==> r.value <= row && Holds(g, r.value, col, Empty)
    ensures r.Some? ==> forall k :: r.value < k <= row ==> g[k][col] != Empty
    ensures r.None? <==> forall k :: 0 <= k <= row ==> !Holds(g, k, col, Empty)
    decreases row + 1
  {
    if row < 0 then None
    else if Holds(g, row, col, Empty) then Some(row)
    else ScanUp(g, col, row - 1)
  }

  /**
    The row a token dropped into column `col` comes to rest in: the lowest
    empty cell of that column. None when the column is full or is not a
    column of the board.
   */
  function LandingRow(g: Grid, col: int): (r: Option<nat>)
    requires IsRect(g)
    ensures r.Some? ==> InBounds(g, r.value, col) && g[r.value][col] == Empty
    ensures r.Some? ==> forall k :: r.value < k < |g| ==> g[k][col] != Empty
    ensures r.None? <==> forall k :: 0 <= k < |g| ==> !Holds(g, k, col, Empty)
    ensures !(0 <= col < Width(g)) ==> r.None?
  {
    ScanUp(g, col, |g| - 1)
  }

  // ---------------------------------------------------------------- lines

  /** A unit step along one of the eight compass directions. */
  predicate IsStep(dx: int, dy: int)
  {
    -1 <= dx <= 1 && -1 <= dy <= 1 && (dx != 0 || dy != 0)
  }

  /** How many steps of (dx, dy) from (r, c) stay on the board. */
  function Reach(g: Grid, r: int, c: int, dx: int, dy: int): int
  {
    if dx > 0 then |g| - r
    else if dx < 0 then r + 1
    else if dy > 0 then (if 0 <= r < |g| then |g[r]| - c else 0)
    else c + 1
  }

  /**
    The number of consecutive cells holding `v`, starting at (r, c) and
    stepping by (dx, dy), up to the first cell that differs or the edge.
   */
  function Run(g: Grid, r: int, c: int, dx: int, dy: int, v: Cell): nat
    requires IsStep(dx, dy)
    decreases Reach(g, r, c, dx, dy)
  {
    if Holds(g, r, c, v) then 1 + Run(g, r + dx, c + dy, dx, dy, v) else 0
  }

  /** The `n` cells from (r, c) on, stepping by (dx, dy), all lie on the board and hold `v`. */
  predicate AllHold(g: Grid, r: int, c: int, dx: int, dy: int, v: Cell, n: nat)
    decreases n
  {
    n == 0 || (Holds(g, r, c, v) && AllHold(g, r + dx, c + dy, dx, dy, v, n - 1))
  }

  /** A run is at least `n` long exactly when its first `n` cells hold `v`. */
  lemma {:induction false} RunCovers(g: Grid, r: int, c: int, dx: int, dy: int, v: Cell, n: nat)
    requires IsStep(dx, dy)
    ensures Run(g, r, c, dx, dy, v) >= n <==> AllHold(g, r, c, dx, dy, v, n)
    decreases n
  {
    if n > 0 {
      RunCovers(g, r + dx, c + dy, dx, dy, v, n - 1);
    }
  }

  /**
    Four consecutive cells on the axis (dx, dy) with (row, col) in place `k`
    (0 to 3) hold `v`: (row, col) and the `k` cells behind it, and
    (row, col) and the `3 - k` cells ahead of it. Cells off the board hold
    nothing, so a line never wraps around an edge.
   */
  predicate Window(g: Grid, row: int, col: int, dx: int, dy: int, v: Cell, k: nat)
  {
    k <= 3 && AllHold(g, row, col, -dx, -dy, v, k + 1) && AllHold(g, row, col, dx, dy, v, 4 - k)
  }

  /**
    Four consecutive cells on the axis (dx, dy), one of them (row, col),
    all hold the token that (row, col) holds.
   */
  ghost predicate FourThrough(g: Grid, row: int, col: int, dx: int, dy: int)
    requires IsRect(g) && InBounds(g, row, col)
  {
    exists k :: 0 <= k <= 3 && Window(g, row, col, dx, dy, g[row][col], k)
  }

  /**
    Counts the run through (row, col) along (dx, dy) in both senses, the cell
    itself once, and reports whether it reaches four.
   */
  function CheckDirection(g: Grid, row: int, col: int, dx: int, dy: int): (won: bool)
    requires IsRect(g) && InBounds(g, row, col) && IsStep(dx, dy)
    ensures won <==> FourThrough(g, row, col, dx, dy)
  {
    var ex, ey := -dx, -dy;
    RunsMeetFour(g, row, col, dx, dy, ex, ey, g[row][col]);
    1 + Run(g, row + dx, col + dy, dx, dy, g[row][col])
      + Run(g, row + ex, col + ey, ex, ey, g[row][col]) >= 4
  }

  /**
    The run ahead of (row, col) along (dx, dy), the run behind it along
    (ex, ey) = (-dx, -dy) and the cell itself reach four together exactly
    when some window of four on the axis contains the cell.
   */
  lemma RunsMeetFour(g: Grid, row: int, col: int, dx: int, dy: int, ex: int, ey: int, v: Cell)
    requires Holds(g, row, col, v) && IsStep(dx, dy) && ex == -dx && ey == -dy
    ensures 1 + Run(g, row + dx, col + dy, dx, dy, v) + Run(g, row + ex, col + ey, ex, ey, v) >= 4
            <==> exists k :: 0 <= k <= 3 && Window(g, row, col, dx, dy, v, k)
  {
    var ahead := Run(g, row + dx, col + dy, dx, dy, v);
    var behind := Run(g, row + ex, col + ey, ex, ey, v);
    if 1 + ahead + behind >= 4 {
      var k := if behind < 3 then behind else 3;
      RunCovers(g, row + ex, col + ey, ex, ey, v, k);
      RunCovers(g, row + dx, col + dy, dx, dy, v, 3 - k);
      assert Window(g, row, col, dx, dy, v, k);
    }
    if exists k :: 0 <= k <= 3 && Window(g, row, col, dx, dy, v, k) {
      var k :| 0 <= k <= 3 && Window(g, row, col, dx, dy, v, k);
      RunCovers(g, row + ex, col + ey, ex, ey, v, k);
      RunCovers(g, row + dx, col + dy, dx, dy, v, 3 - k);
    }
  }

  /** The four axes the win check scans: horizontal, vertical and the two diagonals. */
  const Axes: seq<(int, int)> := [(0, 1), (1, 0), (1, 1), (1, -1)]

  /**
    The token at (row, col) completes four in a row along some axis: the
    `some` over the four axes, first to last.
   */
  function CheckWin(g: Grid, row: int, col: int): (won: bool)
    requires IsRect(g) && InBounds(g, row, col)
    ensures won <==> exists a :: 0 <= a < |Axes| && FourThrough(g, row, col, Axes[a].0, Axes[a].1)
  {
    var w := CheckDirection(g, row, col, 0, 1) || CheckDirection(g, row, col, 1, 0)
      || CheckDirection(g, row, col, 1, 1) || CheckDirection(g, row, col, 1, -1);
    assert FourThrough(g, row, col, Axes[0].0, Axes[0].1) == CheckDirection(g, row, col, 0, 1);
    assert FourThrough(g, row, col, Axes[1].0, Axes[1].1) == CheckDirection(g, row, col, 1, 0);
    assert FourThrough(g, row, col, Axes[2].0, Axes[2].1) == CheckDirection(g, row, col, 1, 1);
    assert FourThrough(g, row, col, Axes[3].0, Axes[3].1) == CheckDirection(g, row, col, 1, -1);
    w
  }

  // ---------------------------------------------------------------- fullness

  /** Every cell of the row holds a token. */
  function RowFull(row: seq<Cell>): (full: bool)
    ensures full <==> forall c :: 0 <= c < |row| ==> row[c] != Empty
  {
    |row| == 0 || (row[0] != Empty && RowFull(row[1..]))
  }

  /** Every row is full: the draw check, `every` row `every` cell non-empty. */
  function CheckDraw(g: Grid): (full: bool)
    ensures full <==> forall r, c :: 0 <= r < |g| && 0 <= c < |g[r]| ==> g[r][c] != Empty
  {
    |g| == 0 || (RowFull(g[0]) && CheckDraw(g[1..]))
  }

  // ---------------------------------------------------------------- counting

  function Weight(v: Cell): nat
  {
    if v == Empty then 0 else 1
  }

  function CountRow(row: seq<Cell>): nat
  {
    if |row| == 0 then 0 else Weight(row[0]) + CountRow(row[1..])
  }

  /** The number of tokens on the board. */
  function Occupied(g: Grid): nat
  {
    if |g| == 0 then 0 else CountRow(g[0]) + Occupied(g[1..])
  }

  lemma {:induction false} CountRowUpdate(row: seq<Cell>, c: nat, v: Cell)
    requires c < |row|
    ensures CountRow(row[c := v]) == CountRow(row) - Weight(row[c]) + Weight(v)
  {
    if c > 0 {
      CountRowUpdate(row[1..], c - 1, v);
      assert row[c := v][1..] == row[1..][c - 1 := v];
    }
  }

  lemma {:induction false} OccupiedUpdate(g: Grid, r: nat, row: seq<Cell>)
    requires r < |g|
    ensures Occupied(g[r := row]) == Occupied(g) - CountRow(g[r]) + CountRow(row)
  {
    if r > 0 {
      OccupiedUpdate(g[1..], r - 1, row);
      assert g[r := row][1..] == g[1..][r - 1 := row];
    }
  }

  /** Writing `v` over cell (r, c) changes the token count by the difference of their weights. */
  lemma SetOccupied(g: Grid, r: nat, c: nat, v: Cell)
    requires IsRect(g) && InBounds(g, r, c)
    ensures Occupied(Set(g, r, c, v)) == Occupied(g) - Weight(g[r][c]) + Weight(v)
  {
    CountRowUpdate(g[r], c, v);
    OccupiedUpdate(g, r, g[r][c := v]);
  }

  lemma {:induction false} EmptyOccupied(g: Grid)
    requires forall r, c :: 0 <= r < |g| && 0 <= c < |g[r]| ==> g[r][c] == Empty
    ensures Occupied(g) == 0
  {
    if |g| > 0 {
      EmptyRowCount(g[0]);
      EmptyOccupied(g[1..]);
    }
  }

  lemma {:induction false} EmptyRowCount(row: seq<Cell>)
    requires forall c :: 0 <= c < |row| ==> row[c] == Empty
    ensures CountRow(row) == 0
  {
    if |row| > 0 {
      EmptyRowCount(row[1..]);
    }
  }
}
