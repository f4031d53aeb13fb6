/** The rules engine: the single-ray scan and flip (`TryDirection`) and the move checker
    (`TryMove`), each as a method on the two-dimensional board, proved against a function
    on the board's contents. */
module Rules {
  import opened Board

  /** A ray direction: both components in {-1, 0, 1}, not both zero. */
  predicate IsDirection(dr: int, dc: int) {
    -1 <= dr <= 1 && -1 <= dc <= 1 && (dr != 0 || dc != 0)
  }

  type Direction = d: (int, int) | IsDirection(d.0, d.1) witness (1, 0)

  /** The eight directions, in the order the move checker tries them:
      up, down, left, right, top-left, top-right, bottom-left, bottom-right. */
  const DIRECTIONS: seq<Direction> :=
    [(-1, 0), (1, 0), (0, -1), (0, 1), (-1, -1), (-1, 1), (1, -1), (1, 1)]

  /** Coordinate k steps from m along d, by repeated steps. */
  function Ray(m: int, d: int, k: nat): int {
    if k == 0 then m else Ray(m, d, k - 1) + d
  }

  /** The program computes the coordinate as `moveRow + (deltaRow * flips)`. */
  lemma {:induction false} RayIsProduct(m: int, d: int, k: nat)
    ensures Ray(m, d, k) == m + d * k
  {
    if k > 0 { RayIsProduct(m, d, k - 1); }
  }

  lemma RayOne(m: int, d: int)
    ensures Ray(m, d, 1) == m + d
  {
    assert Ray(m, d, 0) == m;
  }

  /** Step k of the ray from (r, c) is on the board. */
  predicate OnBoard(g: Grid, r: int, c: int, dr: int, dc: int, k: nat)
    requires IsDirection(dr, dc)
  {
    InGrid(g, Ray(r, dr, k), Ray(c, dc, k))
  }

  function CellAt(g: Grid, r: int, c: int, dr: int, dc: int, k: nat): Cell
    requires IsDirection(dr, dc) && OnBoard(g, r, c, dr, dc, k)
  {
    g[Ray(r, dr, k)][Ray(c, dc, k)]
  }

  /** Step k of the ray holds a disc of the other player. */
  predicate Opposing(g: Grid, s: Symbol, r: int, c: int, dr: int, dc: int, k: nat)
    requires IsDirection(dr, dc)
  {
    OnBoard(g, r, c, dr, dc, k) && CellAt(g, r, c, dr, dc, k) != Empty && CellAt(g, r, c, dr, dc, k) != s
  }

  /** Step k >= 2 holds s and every step strictly between the origin and it holds an
      opposing disc: the ray is a sandwich closed at distance k. */
  predicate ClosesAt(g: Grid, s: Symbol, r: int, c: int, dr: int, dc: int, k: nat)
    requires IsDirection(dr, dc)
  {
    2 <= k && OnBoard(g, r, c, dr, dc, k) && CellAt(g, r, c, dr, dc, k) == s &&
    forall j: nat :: 1 <= j < k ==> Opposing(g, s, r, c, dr, dc, j)
  }

  /** Some distance closes a sandwich along the ray. */
  ghost predicate Flanked(g: Grid, s: Symbol, r: int, c: int, dr: int, dc: int)
    requires IsDirection(dr, dc)
  {
    exists k: nat :: ClosesAt(g, s, r, c, dr, dc, k)
  }

  /** How many more cells along d, from coordinate p on, lie inside [0, n).
      It shrinks by one with every step taken inside. */
  function Room(p: int, d: int, n: int): nat {
    if d > 0 then (if p < n then n - p else 0)
    else if d < 0 then (if 0 <= p then p + 1 else 0)
    else 0
  }

  /** The scan loop of `TryDirection`, standing on (row, col) at distance k: the distance of
      the first cell holding s, unless a blank cell or the edge of the board comes first. */
  function ScanFrom(g: Grid, s: Symbol, dr: int, dc: int, k: nat, row: int, col: int): (t: Option<nat>)
    requires IsDirection(dr, dc)
    ensures t.Some? ==> k <= t.value
    decreases Room(row, dr, |g|) + Room(col, dc, Width(g))
  {
    if !InGrid(g, row, col) then None
    else if g[row][col] == Empty then None
    else if g[row][col] == s then Some(k)
    else ScanFrom(g, s, dr, dc, k + 1, row + dr, col + dc)
  }

  /** The whole scan of `TryDirection`: the adjacent cell must hold an opposing disc,
      then the loop runs from distance 2. */
  function Terminator(g: Grid, s: Symbol, r: int, c: int, dr: int, dc: int): (t: Option<nat>)
    requires IsDirection(dr, dc)
    ensures t.Some? ==> 2 <= t.value && InGrid(g, r + dr, c + dc) && g[r + dr][c + dc] == Other(s)
  {
    if !InGrid(g, r + dr, c + dc) then None
    else if g[r + dr][c + dc] == s then None
    else if g[r + dr][c + dc] == Empty then None
    else ScanFrom(g, s, dr, dc, 2, Ray(r, dr, 2), Ray(c, dc, 2))
  }

  /** The scan from distance k finds distance t exactly when t closes the sandwich,
      given that the steps before k hold opposing discs. */
  lemma {:induction false} ScanFromCloses(g: Grid, s: Symbol, r: int, c: int, dr: int, dc: int, k: nat)
    requires IsDirection(dr, dc) && 2 <= k
    requires forall j: nat :: 1 <= j < k ==> Opposing(g, s, r, c, dr, dc, j)
    ensures forall t: nat :: ScanFrom(g, s, dr, dc, k, Ray(r, dr, k), Ray(c, dc, k)) == Some(t) <==>
      k <= t && ClosesAt(g, s, r, c, dr, dc, t)
    decreases Room(Ray(r, dr, k), dr, |g|) + Room(Ray(c, dc, k), dc, Width(g))
  {
    if !OnBoard(g, r, c, dr, dc, k) || CellAt(g, r, c, dr, dc, k) == Empty {
      forall t: nat | k <= t
        ensures !ClosesAt(g, s, r, c, dr, dc, t)
      {
        if t > k { assert !Opposing(g, s, r, c, dr, dc, k); }
      }
    } else if CellAt(g, r, c, dr, dc, k) == s {
      forall t: nat | k < t
        ensures !ClosesAt(g, s, r, c, dr, dc, t)
      {
        assert !Opposing(g, s, r, c, dr, dc, k);
      }
    } else {
      ScanFromCloses(g, s, r, c, dr, dc, k + 1);
    }
  }

  /** One pass of the scan loop over an opposing disc moves it one step further along the ray. */
  lemma ScanStep(g: Grid, s: Symbol, r: int, c: int, dr: int, dc: int, k: nat)
    requires IsDirection(dr, dc) && Opposing(g, s, r, c, dr, dc, k)
    ensures ScanFrom(g, s, dr, dc, k, Ray(r, dr, k), Ray(c, dc, k))
         == ScanFrom(g, s, dr, dc, k + 1, Ray(r, dr, k + 1), Ray(c, dc, k + 1))
    ensures Room(Ray(r, dr, k + 1), dr, |g|) + Room(Ray(c, dc, k + 1), dc, Width(g))
          < Room(Ray(r, dr, k), dr, |g|) + Room(Ray(c, dc, k), dc, Width(g))
  {
    assert Ray(r, dr, k + 1) == Ray(r, dr, k) + dr;
  }

  /** The scan of `TryDirection` succeeds exactly on a sandwich, and then it reports
      the distance of the closing cell. */
  lemma TerminatorCloses(g: Grid, s: Symbol, r: int, c: int, dr: int, dc: int)
    requires IsDirection(dr, dc)
    ensures forall t: nat :: Terminator(g, s, r, c, dr, dc) == Some(t) <==> ClosesAt(g, s, r, c, dr, dc, t)
    ensures Terminator(g, s, r, c, dr, dc).Some? <==> Flanked(g, s, r, c, dr, dc)
  {
    RayOne(r, dr);
    RayOne(c, dc);
    if Opposing(g, s, r, c, dr, dc, 1) {
      ScanFromCloses(g, s, r, c, dr, dc, 2);
      assert Terminator(g, s, r, c, dr, dc) == ScanFrom(g, s, dr, dc, 2, Ray(r, dr, 2), Ray(c, dc, 2));
      if Flanked(g, s, r, c, dr, dc) {
        var k: nat :| ClosesAt(g, s, r, c, dr, dc, k);
      }
      if Terminator(g, s, r, c, dr, dc).Some? {
        assert ClosesAt(g, s, r, c, dr, dc, Terminator(g, s, r, c, dr, dc).value);
      }
    } else {
      forall t: nat ensures !ClosesAt(g, s, r, c, dr, dc, t) {
        if 2 <= t { assert !Opposing(g, s, r, c, dr, dc, 1); }
      }
    }
  }

  /** `TryDirection` as written: on a sandwich it writes the player's mark on the adjacent
      cell only (the flip loop rewrites the closing cell, which already holds the mark). */
  function DirectionResult(g: Grid, p: Player, r: int, c: int, dr: int, dc: int): (res: (bool, Grid))
    requires IsDirection(dr, dc)
    ensures |res.1| == |g| && Width(res.1) == Width(g)
    ensures res.0 ==> InGrid(g, r + dr, c + dc) && g[r + dr][c + dc] == Other(p.symbol)
    ensures !res.0 ==> res.1 == g
  {
    if Terminator(g, p.symbol, r, c, dr, dc).Some? then
      (true, Put(g, r + dr, c + dc, p.symbol))
    else
      (false, g)
  }

  /** A scan succeeds exactly when the ray is a sandwich; it fails when the adjacent cell is
      off the board, blank or the player's own, and a failing scan leaves the board as it was. */
  lemma DirectionSucceedsIffFlanked(g: Grid, p: Player, r: int, c: int, dr: int, dc: int)
    requires IsDirection(dr, dc)
    ensures DirectionResult(g, p, r, c, dr, dc).0 <==> Flanked(g, p.symbol, r, c, dr, dc)
    ensures !OnBoard(g, r, c, dr, dc, 1) ==> !DirectionResult(g, p, r, c, dr, dc).0
    ensures OnBoard(g, r, c, dr, dc, 1) && CellAt(g, r, c, dr, dc, 1) in {Empty, p.symbol} ==>
      !DirectionResult(g, p, r, c, dr, dc).0
    ensures !DirectionResult(g, p, r, c, dr, dc).0 ==> DirectionResult(g, p, r, c, dr, dc).1 == g
  {
    RayOne(r, dr);
    RayOne(c, dc);
    TerminatorCloses(g, p.symbol, r, c, dr, dc);
  }

  /** A successful scan changes one cell, the one next to the origin, from the other player's
      mark to the mover's; the origin and the closing cell keep their contents. */
  lemma DirectionFlipsAdjacent(g: Grid, p: Player, r: int, c: int, dr: int, dc: int)
    requires IsDirection(dr, dc)
    ensures var (ok, h) := DirectionResult(g, p, r, c, dr, dc);
      |h| == |g| && Width(h) == Width(g) &&
      (ok ==> OnBoard(g, r, c, dr, dc, 1) && CellAt(g, r, c, dr, dc, 1) == Other(p.symbol)) &&
      (ok ==> forall i, j :: InGrid(g, i, j) ==>
        h[i][j] == if i == r + dr && j == c + dc then p.symbol else g[i][j])
  {
    RayOne(r, dr);
    RayOne(c, dc);
    TerminatorCloses(g, p.symbol, r, c, dr, dc);
  }

  /** The first n scans of `TryMove` from (r, c), each on the board the previous ones left:
      how many succeeded, and the board after them. */
  function Sweep(g: Grid, p: Player, r: int, c: int, n: nat): (res: (nat, Grid))
    requires n <= |DIRECTIONS|
    ensures |res.1| == |g| && Width(res.1) == Width(g)
    ensures res.0 <= n
  {
    if n == 0 then (0, g)
    else
      var (count, h) := Sweep(g, p, r, c, n - 1);
      var (ok, h') := DirectionResult(h, p, r, c, DIRECTIONS[n - 1].0, DIRECTIONS[n - 1].1);
      (count + if ok then 1 else 0, h')
  }

  /** The bounds test of `TryMove` as written: it rejects only a row or a column past
      the board's size. */
  predicate PastEdge(rows: int, cols: int, row: int, col: int) {
    row > rows || col > cols
  }

  /** `TryMove` as written, on the board's contents. */
  function MoveResult(g: Grid, p: Player, row: int, col: int): (res: (bool, Grid))
    requires PastEdge(|g|, Width(g), row, col) || InGrid(g, row, col)
    ensures |res.1| == |g| && Width(res.1) == Width(g)
  {
    if PastEdge(|g|, Width(g), row, col) then (false, g)
    else if g[row][col] == O || g[row][col] == X then (false, g)
    else
      var (count, h) := Sweep(Put(g, row, col, p.symbol), p, row, col, |DIRECTIONS|);
      if count == 0 then (false, Put(h, row, col, Empty)) else (true, h)
  }

  /** The flip loop of `TryDirection`, run once the scan has found the player's mark at
      distance `flips`: its first pass writes the cell next to the origin and every later pass
      writes the closing cell again, so only the adjacent cell changes. */
  method Flip(board: array2<Cell>, player: Player, moveRow: int, moveCol: int,
              deltaRow: int, deltaCol: int, flips: int)
    requires IsDirection(deltaRow, deltaCol) && 2 <= flips
    requires 0 <= moveRow + deltaRow < board.Length0 && 0 <= moveCol + deltaCol < board.Length1
    requires 0 <= Ray(moveRow, deltaRow, flips) < board.Length0 && 0 <= Ray(moveCol, deltaCol, flips) < board.Length1
    requires board[Ray(moveRow, deltaRow, flips), Ray(moveCol, deltaCol, flips)] == player.symbol
    modifies board
    ensures forall i, j :: 0 <= i < board.Length0 && 0 <= j < board.Length1 ==>
      board[i, j] == if i == moveRow + deltaRow && j == moveCol + deltaCol then player.symbol else old(board[i, j])
  {
    RayIsProduct(moveRow, deltaRow, flips);
    RayIsProduct(moveCol, deltaCol, flips);
    var nextRow := moveRow + deltaRow;
    var nextCol := moveCol + deltaCol;
    for i := 1 to flips + 1
      invariant i == 1 ==> nextRow == moveRow + deltaRow && nextCol == moveCol + deltaCol && unchanged(board)
      invariant i > 1 ==> nextRow == moveRow + deltaRow * flips && nextCol == moveCol + deltaCol * flips
      invariant i > 1 ==> forall a, b :: 0 <= a < board.Length0 && 0 <= b < board.Length1 ==>
        board[a, b] == if a == moveRow + deltaRow && b == moveCol + deltaCol then player.symbol else old(board[a, b])
    {
      board[nextRow, nextCol] := player.symbol;
      nextRow := moveRow + (deltaRow * flips);
      nextCol := moveCol + (deltaCol * flips);
    }
  }

  /** Scan one ray from (moveRow, moveCol) and, on a sandwich, flip as the program does. */
  method TryDirection(board: array2<Cell>, player: Player, moveRow: int, moveCol: int,
                      deltaRow: int, deltaCol: int) returns (ok: bool)
    requires IsDirection(deltaRow, deltaCol)
    modifies board
    ensures ok == DirectionResult(old(Snapshot(board)), player, moveRow, moveCol, deltaRow, deltaCol).0
    ensures Snapshot(board) == DirectionResult(old(Snapshot(board)), player, moveRow, moveCol, deltaRow, deltaCol).1
  {
    ghost var g := Snapshot(board);
    var nextRow := moveRow + deltaRow;
    if nextRow < 0 || nextRow >= board.Length0 { return false; }
    var nextCol := moveCol + deltaCol;
    if nextCol < 0 || nextCol >= board.Length1 { return false; }
    if board[nextRow, nextCol] == player.symbol { return false; }
    if board[nextRow, nextCol] == Empty { return false; }
    ok := ScanRay(board, player, moveRow, moveCol, deltaRow, deltaCol);
    DirectionFlipsAdjacent(g, player, moveRow, moveCol, deltaRow, deltaCol);
    GridExt(Snapshot(board), DirectionResult(g, player, moveRow, moveCol, deltaRow, deltaCol).1);
  }

  /** The scan loop of `TryDirection`, entered once the adjacent cell holds an opposing disc. */
  method ScanRay(board: array2<Cell>, player: Player, moveRow: int, moveCol: int,
                 deltaRow: int, deltaCol: int) returns (ok: bool)
    requires IsDirection(deltaRow, deltaCol)
    requires 0 <= moveRow + deltaRow < board.Length0 && 0 <= moveCol + deltaCol < board.Length1
    requires board[moveRow + deltaRow, moveCol + deltaCol] != Empty
    requires board[moveRow + deltaRow, moveCol + deltaCol] != player.symbol
    modifies board
    ensures ok == Terminator(old(Snapshot(board)), player.symbol, moveRow, moveCol, deltaRow, deltaCol).Some?
    ensures forall i, j :: 0 <= i < board.Length0 && 0 <= j < board.Length1 ==>
      board[i, j] == if ok && i == moveRow + deltaRow && j == moveCol + deltaCol then player.symbol else old(board[i, j])
  {
    ghost var g := Snapshot(board);
    ghost var found := Terminator(g, player.symbol, moveRow, moveCol, deltaRow, deltaCol);
    var nextRow, nextCol;
    var validMove := true;
    var flips := 2;
    while validMove
      invariant 2 <= flips
      invariant unchanged(board)
      invariant found == ScanFrom(g, player.symbol, deltaRow, deltaCol, flips, Ray(moveRow, deltaRow, flips), Ray(moveCol, deltaCol, flips))
      decreases Room(Ray(moveRow, deltaRow, flips), deltaRow, |g|) + Room(Ray(moveCol, deltaCol, flips), deltaCol, Width(g))
    {
      nextRow := moveRow + (deltaRow * flips);
      RayIsProduct(moveRow, deltaRow, flips);
      if nextRow < 0 || nextRow >= board.Length0 { return false; }
      nextCol := moveCol + (deltaCol * flips);
      RayIsProduct(moveCol, deltaCol, flips);
      if nextCol < 0 || nextCol >= board.Length1 { return false; }

      assert InGrid(g, nextRow, nextCol) && g[nextRow][nextCol] == board[nextRow, nextCol];
      if board[nextRow, nextCol] == Empty { return false; }

      if board[nextRow, nextCol] == player.symbol {
        assert found == Some(flips);
        Flip(board, player, moveRow, moveCol, deltaRow, deltaCol, flips);
        return true;
      }
      ScanStep(g, player.symbol, moveRow, moveCol, deltaRow, deltaCol, flips);
      flips := flips + 1;
    }
    return false;
  }

  /** Place the player's mark at (row, col) if it closes a sandwich in some direction. */
  method TryMove(board: array2<Cell>, player: Player, row: int, col: int) returns (ok: bool)
    requires PastEdge(board.Length0, board.Length1, row, col) || (0 <= row < board.Length0 && 0 <= col < board.Length1)
    modifies board
    ensures ok == MoveResult(old(Snapshot(board)), player, row, col).0
    ensures Snapshot(board) == MoveResult(old(Snapshot(board)), player, row, col).1
  {
    if row > board.Length0 || col > board.Length1 { return false; }
    if board[row, col] == O || board[row, col] == X { return false; }

    SetCell(board, row, col, player.symbol);
    var legalCounter := TryAllDirections(board, player, row, col);

    if legalCounter == 0 {
      SetCell(board, row, col, Empty);
      return false;
    }
    return true;
  }

  /** The eight `TryDirection` calls of `TryMove`, in order, counting the ones that succeed. */
  method TryAllDirections(board: array2<Cell>, player: Player, row: int, col: int) returns (legalCounter: nat)
    modifies board
    ensures legalCounter == Sweep(old(Snapshot(board)), player, row, col, |DIRECTIONS|).0
    ensures Snapshot(board) == Sweep(old(Snapshot(board)), player, row, col, |DIRECTIONS|).1
  {
    ghost var g := Snapshot(board);
    legalCounter := 0;
    for d := 0 to |DIRECTIONS|
      invariant legalCounter == Sweep(g, player, row, col, d).0
      invariant Snapshot(board) == Sweep(g, player, row, col, d).1
    {
      var (deltaRow, deltaCol) := DIRECTIONS[d];
      var legalMove := TryDirection(board, player, row, col, deltaRow, deltaCol);
      if legalMove { legalCounter := legalCounter + 1; }
    }
  }
}
