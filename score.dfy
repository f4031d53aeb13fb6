/** Scoring: `GetScore` counts the cells that hold a player's mark. The count is also the
    multiplicity of the mark in the flattened board, and a move changes the two scores by
    the number of discs it flips. */
module Score {
  import opened Board
  import opened Rules
  import opened Moves

  /** Cells among the first n of a row that hold v. */
  function CountRow(row: seq<Cell>, v: Cell, n: nat): nat
    requires n <= |row|
  {
    if n == 0 then 0 else CountRow(row, v, n - 1) + if row[n - 1] == v then 1 else 0
  }

  /** Cells in the first m rows of g that hold v. */
  function CountRows(g: Grid, v: Cell, m: nat): nat
    requires m <= |g|
  {
    if m == 0 then 0 else CountRows(g, v, m - 1) + CountRow(g[m - 1], v, |g[m - 1]|)
  }

  /** Cells of the whole grid that hold v. */
  function Count(g: Grid, v: Cell): nat {
    CountRows(g, v, |g|)
  }

  /** The rows of g one after the other. */
  function Flatten(g: seq<seq<Cell>>): seq<Cell> {
    if |g| == 0 then [] else Flatten(g[..|g| - 1]) + g[|g| - 1]
  }

  /** The score loop: it reads every cell once and changes nothing. */
  method GetScore(board: array2<Cell>, player: Player) returns (score: int)
    ensures score == Count(Snapshot(board), player.symbol)
  {
    ghost var g := Snapshot(board);
    var row := board.Length0;
    var col := board.Length1;
    score := 0;
    for i := 0 to row
      invariant score == CountRows(g, player.symbol, i)
    {
      assert |g[i]| == col;
      for j := 0 to col
        invariant score == CountRows(g, player.symbol, i) + CountRow(g[i], player.symbol, j)
      {
        if board[i, j] == player.symbol { score := score + 1; }
      }
    }
  }

  lemma {:induction false} CountRowIsMultiplicity(row: seq<Cell>, v: Cell, n: nat)
    requires n <= |row|
    ensures CountRow(row, v, n) == multiset(row[..n])[v]
  {
    if n > 0 {
      CountRowIsMultiplicity(row, v, n - 1);
      assert row[..n] == row[..n - 1] + [row[n - 1]];
    }
  }

  /** The score is the number of occurrences of the mark in the board read row by row. */
  lemma {:induction false} CountIsMultiplicity(g: Grid, v: Cell, m: nat)
    requires m <= |g|
    ensures CountRows(g, v, m) == multiset(Flatten(g[..m]))[v]
  {
    if m > 0 {
      CountIsMultiplicity(g, v, m - 1);
      assert g[..m][..m - 1] == g[..m - 1];
      CountRowIsMultiplicity(g[m - 1], v, |g[m - 1]|);
      assert g[m - 1][..|g[m - 1]|] == g[m - 1];
    }
  }

  lemma {:induction false} CountRowPartition(row: seq<Cell>, n: nat)
    requires n <= |row|
    ensures CountRow(row, X, n) + CountRow(row, O, n) + CountRow(row, Empty, n) == n
  {
    if n > 0 { CountRowPartition(row, n - 1); }
  }

  lemma {:induction false} CountRowsPartition(g: Grid, m: nat)
    requires m <= |g|
    ensures CountRows(g, X, m) + CountRows(g, O, m) + CountRows(g, Empty, m) == m * Width(g)
  {
    if m > 0 {
      CountRowsPartition(g, m - 1);
      CountRowPartition(g[m - 1], |g[m - 1]|);
      assert |g[m - 1]| == Width(g);
      assert (m - 1) * Width(g) + Width(g) == m * Width(g);
    }
  }

  /** Every cell is blank or holds one of the two marks, so the two scores and the blanks add
      up to the size of the board, and each score lies between 0 and that size. */
  lemma ScoreBounds(g: Grid)
    ensures Count(g, X) + Count(g, O) + Count(g, Empty) == |g| * Width(g)
    ensures Count(g, X) <= |g| * Width(g) && Count(g, O) <= |g| * Width(g)
  {
    CountRowsPartition(g, |g|);
  }

  /** The delta of writing v into a cell that held u, for the count of w. */
  function Delta(u: Cell, v: Cell, w: Cell): int {
    (if v == w then 1 else 0) - (if u == w then 1 else 0)
  }

  lemma {:induction false} CountRowPut(row: seq<Cell>, y: int, v: Cell, w: Cell, n: nat)
    requires 0 <= y < |row| && n <= |row|
    ensures CountRow(row[y := v], w, n) == CountRow(row, w, n) + if y < n then Delta(row[y], v, w) else 0
  {
    if n > 0 { CountRowPut(row, y, v, w, n - 1); }
  }

  lemma {:induction false} CountRowsPut(g: Grid, x: int, y: int, v: Cell, w: Cell, m: nat)
    requires InGrid(g, x, y) && m <= |g|
    ensures CountRows(Put(g, x, y, v), w, m) == CountRows(g, w, m) + if x < m then Delta(g[x][y], v, w) else 0
  {
    if m > 0 {
      CountRowsPut(g, x, y, v, w, m - 1);
      assert Put(g, x, y, v)[m - 1] == if m - 1 == x then g[x][y := v] else g[m - 1];
      if m - 1 == x { CountRowPut(g[x], y, v, w, |g[x]|); }
    }
  }

  /** Writing one cell changes a count by at most one: up for the mark written, down for the
      one overwritten. */
  lemma CountPut(g: Grid, x: int, y: int, v: Cell, w: Cell)
    requires InGrid(g, x, y)
    ensures Count(Put(g, x, y, v), w) == Count(g, w) + Delta(g[x][y], v, w)
  {
    CountRowsPut(g, x, y, v, w, |g|);
  }

  /** A successful scan turns one disc of the other player into the mover's. */
  lemma ScanScore(g: Grid, p: Player, r: int, c: int, dr: int, dc: int)
    requires IsDirection(dr, dc)
    ensures var (ok, h) := DirectionResult(g, p, r, c, dr, dc);
      Count(h, p.symbol) == Count(g, p.symbol) + (if ok then 1 else 0) &&
      Count(h, Other(p.symbol)) + (if ok then 1 else 0) == Count(g, Other(p.symbol))
  {
    if DirectionResult(g, p, r, c, dr, dc).0 {
      CountPut(g, r + dr, c + dc, p.symbol, p.symbol);
      CountPut(g, r + dr, c + dc, p.symbol, Other(p.symbol));
    }
  }

  /** After the first n scans of a move each successful scan has turned one disc of the other
      player into the mover's. */
  lemma {:induction false} SweepScore(g: Grid, p: Player, r: int, c: int, n: nat)
    requires n <= |DIRECTIONS|
    ensures Count(Sweep(g, p, r, c, n).1, p.symbol) == Count(g, p.symbol) + Sweep(g, p, r, c, n).0
    ensures Count(Sweep(g, p, r, c, n).1, Other(p.symbol)) + Sweep(g, p, r, c, n).0 == Count(g, Other(p.symbol))
  {
    if n > 0 {
      SweepScore(g, p, r, c, n - 1);
      var h := Sweep(g, p, r, c, n - 1).1;
      ScanScore(h, p, r, c, DIRECTIONS[n - 1].0, DIRECTIONS[n - 1].1);
    }
  }

  lemma {:induction false} FlankedCountPlaced(g: Grid, s: Symbol, row: int, col: int, n: nat)
    requires InGrid(g, row, col) && n <= |DIRECTIONS|
    ensures FlankedCount(Put(g, row, col, s), s, row, col, n) == FlankedCount(g, s, row, col, n)
  {
    if n > 0 {
      FlankedCountPlaced(g, s, row, col, n - 1);
      PlacedFlipped(g, s, row, col);
    }
  }

  /** An accepted move raises the mover's score by one for the new disc plus one for each
      sandwich direction, and lowers the other player's score by the number of sandwich
      directions; a rejected move changes neither score. */
  lemma MoveScore(g: Grid, p: Player, row: int, col: int)
    requires PastEdge(|g|, Width(g), row, col) || InGrid(g, row, col)
    ensures var (ok, h) := MoveResult(g, p, row, col);
      (ok ==> Count(h, p.symbol) == Count(g, p.symbol) + 1 + FlankedCount(g, p.symbol, row, col, |DIRECTIONS|) &&
              Count(h, Other(p.symbol)) == Count(g, Other(p.symbol)) - FlankedCount(g, p.symbol, row, col, |DIRECTIONS|)) &&
      (!ok ==> Count(h, X) == Count(g, X) && Count(h, O) == Count(g, O))
  {
    MoveRejectedKeepsBoard(g, p, row, col);
    if !PastEdge(|g|, Width(g), row, col) && g[row][col] == Empty {
      var placed := Put(g, row, col, p.symbol);
      CountPut(g, row, col, p.symbol, p.symbol);
      CountPut(g, row, col, p.symbol, Other(p.symbol));
      SweepScore(placed, p, row, col, |DIRECTIONS|);
      SweepFlipsFlanked(placed, p, row, col, |DIRECTIONS|);
      FlankedCountPlaced(g, p.symbol, row, col, |DIRECTIONS|);
    }
  }
}
