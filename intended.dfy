/** The two places where the rules engine does not do what its comments and the rules of
    Othello ask for, each next to a corrected definition:
    the flip loop rewrites the closing disc instead of walking along the run, so only one
    disc is flipped per direction; and the bounds test lets a row or column equal to the
    board's size (or a negative one) through to the array access. */
module Intended {
  import opened Board
  import opened Rules
  import opened Moves

  /** (x, y) is one of the steps 1 .. t-1 of the ray from (r, c): strictly between the origin
      and the closing cell at distance t. */
  ghost predicate InRun(r: int, c: int, dr: int, dc: int, t: nat, x: int, y: int) {
    exists j: nat :: 1 <= j < t && x == Ray(r, dr, j) && y == Ray(c, dc, j)
  }

  lemma InRunStep(r: int, c: int, dr: int, dc: int, t: nat, x: int, y: int)
    requires 2 <= t
    ensures InRun(r, c, dr, dc, t, x, y) <==>
      InRun(r, c, dr, dc, t - 1, x, y) || (x == Ray(r, dr, t - 1) && y == Ray(c, dc, t - 1))
  {
    if InRun(r, c, dr, dc, t, x, y) {
      var j: nat :| 1 <= j < t && x == Ray(r, dr, j) && y == Ray(c, dc, j);
      if j < t - 1 { assert InRun(r, c, dr, dc, t - 1, x, y); }
    }
    if x == Ray(r, dr, t - 1) && y == Ray(c, dc, t - 1) {
      assert 1 <= t - 1 < t;
    }
  }

  /** The intended flip: every cell strictly between the origin and the closing cell at
      distance t takes the mark s, and no other cell changes. */
  function FlipRun(g: Grid, s: Symbol, r: int, c: int, dr: int, dc: int, t: nat): (h: Grid)
    requires IsDirection(dr, dc)
    requires forall j: nat :: 1 <= j < t ==> OnBoard(g, r, c, dr, dc, j)
    ensures |h| == |g| && Width(h) == Width(g)
    ensures forall x, y :: InGrid(g, x, y) ==> h[x][y] == if InRun(r, c, dr, dc, t, x, y) then s else g[x][y]
  {
    if t <= 1 then
      assert forall x, y :: !InRun(r, c, dr, dc, t, x, y);
      g
    else
      assert OnBoard(g, r, c, dr, dc, t - 1);
      var h := Put(FlipRun(g, s, r, c, dr, dc, t - 1), Ray(r, dr, t - 1), Ray(c, dc, t - 1), s);
      assert forall x, y :: InRun(r, c, dr, dc, t, x, y) <==>
        InRun(r, c, dr, dc, t - 1, x, y) || (x == Ray(r, dr, t - 1) && y == Ray(c, dc, t - 1)) by {
        forall x, y { InRunStep(r, c, dr, dc, t, x, y); }
      }
      h
  }

  /** `TryDirection` as the rules intend: the same scan, and on a sandwich closed at distance
      t every disc of the run is flipped. */
  function DirectionIntended(g: Grid, p: Player, r: int, c: int, dr: int, dc: int): (res: (bool, Grid))
    requires IsDirection(dr, dc)
  {
    match Terminator(g, p.symbol, r, c, dr, dc)
    case None => (false, g)
    case Some(t) =>
      TerminatorCloses(g, p.symbol, r, c, dr, dc);
      assert ClosesAt(g, p.symbol, r, c, dr, dc, t);
      assert forall j: nat :: 1 <= j < t ==> OnBoard(g, r, c, dr, dc, j) by {
        forall j: nat | 1 <= j < t ensures OnBoard(g, r, c, dr, dc, j) {
          assert Opposing(g, p.symbol, r, c, dr, dc, j);
        }
      }
      (true, FlipRun(g, p.symbol, r, c, dr, dc, t))
  }

  /** The corrected scan succeeds on the same rays as the program's; on success it turns every
      opposing disc of the run into the mover's and leaves every other cell, the origin and
      the closing cell among them, as it was. */
  lemma DirectionIntendedFlipsRun(g: Grid, p: Player, r: int, c: int, dr: int, dc: int)
    requires IsDirection(dr, dc)
    ensures DirectionIntended(g, p, r, c, dr, dc).0 == DirectionResult(g, p, r, c, dr, dc).0
    ensures DirectionIntended(g, p, r, c, dr, dc).0 <==> Flanked(g, p.symbol, r, c, dr, dc)
    ensures !DirectionIntended(g, p, r, c, dr, dc).0 ==> DirectionIntended(g, p, r, c, dr, dc).1 == g
    ensures forall t: nat :: Terminator(g, p.symbol, r, c, dr, dc) == Some(t) ==>
      (forall j: nat :: 1 <= j < t ==>
        (OnBoard(g, r, c, dr, dc, j) && CellAt(g, r, c, dr, dc, j) == Other(p.symbol) &&
         DirectionIntended(g, p, r, c, dr, dc).1[Ray(r, dr, j)][Ray(c, dc, j)] == p.symbol)) &&
      (forall x, y :: InGrid(g, x, y) && !InRun(r, c, dr, dc, t, x, y) ==>
        DirectionIntended(g, p, r, c, dr, dc).1[x][y] == g[x][y])
  {
    TerminatorCloses(g, p.symbol, r, c, dr, dc);
    DirectionSucceedsIffFlanked(g, p, r, c, dr, dc);
    forall t: nat | Terminator(g, p.symbol, r, c, dr, dc) == Some(t)
      ensures forall j: nat :: 1 <= j < t ==>
        (OnBoard(g, r, c, dr, dc, j) && CellAt(g, r, c, dr, dc, j) == Other(p.symbol) &&
         DirectionIntended(g, p, r, c, dr, dc).1[Ray(r, dr, j)][Ray(c, dc, j)] == p.symbol)
    {
      forall j: nat | 1 <= j < t
        ensures OnBoard(g, r, c, dr, dc, j) && CellAt(g, r, c, dr, dc, j) == Other(p.symbol)
        ensures DirectionIntended(g, p, r, c, dr, dc).1[Ray(r, dr, j)][Ray(c, dc, j)] == p.symbol
      {
        assert Opposing(g, p.symbol, r, c, dr, dc, j);
        assert InRun(r, c, dr, dc, t, Ray(r, dr, j), Ray(c, dc, j));
      }
    }
  }

  /** On a run of one opposing disc the program's flip and the intended one agree. */
  lemma ShortRunAgrees(g: Grid, p: Player, r: int, c: int, dr: int, dc: int)
    requires IsDirection(dr, dc) && Terminator(g, p.symbol, r, c, dr, dc) == Some(2)
    ensures DirectionIntended(g, p, r, c, dr, dc) == DirectionResult(g, p, r, c, dr, dc)
  {
    RayOne(r, dr);
    RayOne(c, dc);
    var h := DirectionIntended(g, p, r, c, dr, dc).1;
    var h' := DirectionResult(g, p, r, c, dr, dc).1;
    forall x, y | InGrid(g, x, y)
      ensures h[x][y] == h'[x][y]
    {
      InRunStep(r, c, dr, dc, 2, x, y);
      assert !InRun(r, c, dr, dc, 1, x, y);
    }
    GridExt(h, h');
  }

  /** On a longer run they differ: the program leaves the second disc of the run unflipped. */
  lemma LongRunDiffers(g: Grid, p: Player, r: int, c: int, dr: int, dc: int, t: nat)
    requires IsDirection(dr, dc) && Terminator(g, p.symbol, r, c, dr, dc) == Some(t) && 3 <= t
    ensures DirectionResult(g, p, r, c, dr, dc).1[Ray(r, dr, 2)][Ray(c, dc, 2)] == Other(p.symbol)
    ensures DirectionIntended(g, p, r, c, dr, dc).1[Ray(r, dr, 2)][Ray(c, dc, 2)] == p.symbol
  {
    DirectionIntendedFlipsRun(g, p, r, c, dr, dc);
    assert OnBoard(g, r, c, dr, dc, 2) && CellAt(g, r, c, dr, dc, 2) == Other(p.symbol);
    DirectionFlipsAdjacent(g, p, r, c, dr, dc);
    OriginOffRay(r + dr, c + dc, dr, dc, 1);
    RayOne(r, dr);
    RayOne(c, dc);
  }

  /** The first row of a board on which Black places at the left end of "_ O O X". */
  const RUN_ROW: seq<Cell> := [Empty, O, O, X]

  /** As written, Black's move there is accepted but turns only the first White disc:
      the row becomes "X X O X" instead of "X X X X". */
  lemma OneDiscFlipWitness()
    ensures MoveResult([RUN_ROW], BLACK, 0, 0) == (true, [[X, X, O, X]])
  {
    var g: Grid := [RUN_ROW];
    RayIsProduct(0, 0, 1);
    RayIsProduct(0, 0, 2);
    RayIsProduct(0, 1, 1);
    RayIsProduct(0, 1, 2);
    assert Opposing(g, X, 0, 0, 0, 1, 1) && Opposing(g, X, 0, 0, 0, 1, 2);
    assert ClosesAt(g, X, 0, 0, 0, 1, 3);
    assert FlankedAt(g, X, 0, 0, 3);
    MoveLegalIffFlanked(g, BLACK, 0, 0);
    MoveAcceptedFlips(g, BLACK, 0, 0);
    assert Flipped(g, X, 0, 0, |DIRECTIONS|, 0, 1);
    var h := MoveResult(g, BLACK, 0, 0).1;
    GridExt(h, [[X, X, O, X]]);
  }

  /** A scan whose first step leaves the board changes nothing. */
  lemma StepOffBoard(g: Grid, p: Player, r: int, c: int, n: nat)
    requires n < |DIRECTIONS| && !InGrid(g, r + DIRECTIONS[n].0, c + DIRECTIONS[n].1)
    ensures SweepIntended(g, p, r, c, n + 1) == SweepIntended(g, p, r, c, n)
  {
    var h := SweepIntended(g, p, r, c, n).1;
    assert Terminator(h, p.symbol, r, c, DIRECTIONS[n].0, DIRECTIONS[n].1) == None;
  }

  /** With the intended flip the same move closes the whole run. The grids are parameters
      fixed by the precondition so that the solver does not unfold the sweep on literals. */
  lemma WholeRunWitness(g: Grid, placed: Grid, full: Grid)
    requires g == [RUN_ROW] && placed == [[X, O, O, X]] && full == [[X, X, X, X]]
    ensures MoveIntended(g, BLACK, 0, 0) == (true, full)
  {
    GridExt(Put(g, 0, 0, X), placed);
    StepOffBoard(placed, BLACK, 0, 0, 0);
    StepOffBoard(placed, BLACK, 0, 0, 1);
    StepOffBoard(placed, BLACK, 0, 0, 2);
    assert SweepIntended(placed, BLACK, 0, 0, 3) == (0, placed);
    RayIsProduct(0, 0, 2);
    RayIsProduct(0, 1, 1);
    RayIsProduct(0, 1, 2);
    assert ScanFrom(placed, X, 0, 1, 3, 0, 3) == Some(3);
    assert ScanFrom(placed, X, 0, 1, 2, 0, 2) == Some(3);
    assert Terminator(placed, X, 0, 0, 0, 1) == Some(3);
    assert InRun(0, 0, 0, 1, 3, 0, 1) && InRun(0, 0, 0, 1, 3, 0, 2);
    GridExt(FlipRun(placed, X, 0, 0, 0, 1, 3), full);
    assert SweepIntended(placed, BLACK, 0, 0, 4) == (1, full);
    StepOffBoard(placed, BLACK, 0, 0, 4);
    StepOffBoard(placed, BLACK, 0, 0, 5);
    StepOffBoard(placed, BLACK, 0, 0, 6);
    StepOffBoard(placed, BLACK, 0, 0, 7);
  }

  /** As written, the test lets through exactly the targets that are off the board yet no
      further than one past its last row and column: a negative row or column, or the row or
      column equal to the board's size. The row just past the last one is such a target on
      every board. */
  lemma GuardWitness(g: Grid, row: int, col: int)
    ensures (!PastEdge(|g|, Width(g), row, col) && !InGrid(g, row, col)) <==>
      row <= |g| && col <= Width(g) && (row < 0 || col < 0 || row == |g| || col == Width(g))
    ensures !PastEdge(|g|, Width(g), |g|, 0) && !InGrid(g, |g|, 0)
  {
  }

  /** The first n scans of a move, each flipping its whole run. */
  function SweepIntended(g: Grid, p: Player, r: int, c: int, n: nat): (res: (nat, Grid))
    requires n <= |DIRECTIONS|
    ensures |res.1| == |g| && Width(res.1) == Width(g)
    ensures res.0 <= n
    ensures res.0 == 0 ==> res.1 == g
  {
    if n == 0 then (0, g)
    else
      var (count, h) := SweepIntended(g, p, r, c, n - 1);
      var (ok, h') := DirectionIntended(h, p, r, c, DIRECTIONS[n - 1].0, DIRECTIONS[n - 1].1);
      DirectionIntendedFlipsRun(h, p, r, c, DIRECTIONS[n - 1].0, DIRECTIONS[n - 1].1);
      (count + if ok then 1 else 0, h')
  }

  /** `TryMove` as intended: every target is accepted or rejected, none makes the program fail,
      and every sandwich run is flipped (`MoveIntendedFlipsRuns`). */
  function MoveIntended(g: Grid, p: Player, row: int, col: int): (res: (bool, Grid))
    ensures |res.1| == |g| && Width(res.1) == Width(g)
  {
    if !InGrid(g, row, col) then (false, g)
    else if g[row][col] != Empty then (false, g)
    else
      var (count, h) := SweepIntended(Put(g, row, col, p.symbol), p, row, col, |DIRECTIONS|);
      if count == 0 then (false, Put(h, row, col, Empty)) else (true, h)
  }

  /** With the corrected test every target is handled: off the board or occupied it is
      rejected, a rejected move leaves the board as it was, and an accepted one holds the mark on
      the target, which is on the board and was blank. */
  lemma MoveIntendedTotal(g: Grid, p: Player, row: int, col: int)
    ensures !InGrid(g, row, col) ==> MoveIntended(g, p, row, col) == (false, g)
    ensures !MoveIntended(g, p, row, col).0 ==> MoveIntended(g, p, row, col).1 == g
    ensures MoveIntended(g, p, row, col).0 ==>
      InGrid(g, row, col) && g[row][col] == Empty && MoveIntended(g, p, row, col).1[row][col] == p.symbol
  {
    if InGrid(g, row, col) && g[row][col] == Empty {
      var placed := Put(g, row, col, p.symbol);
      var (count, h) := SweepIntended(placed, p, row, col, |DIRECTIONS|);
      if count == 0 {
        GridExt(Put(h, row, col, Empty), g);
      } else {
        SweepIntendedKeepsOrigin(placed, p, row, col, |DIRECTIONS|);
      }
    }
  }

  /** An intended scan never writes its origin: the run starts one step away from it. */
  lemma DirectionIntendedKeepsOrigin(g: Grid, p: Player, r: int, c: int, dr: int, dc: int)
    requires IsDirection(dr, dc) && InGrid(g, r, c)
    ensures DirectionIntended(g, p, r, c, dr, dc).1[r][c] == g[r][c]
  {
    DirectionIntendedFlipsRun(g, p, r, c, dr, dc);
    if Terminator(g, p.symbol, r, c, dr, dc).Some? {
      var t := Terminator(g, p.symbol, r, c, dr, dc).value;
      if InRun(r, c, dr, dc, t, r, c) {
        var j: nat :| 1 <= j < t && r == Ray(r, dr, j) && c == Ray(c, dc, j);
        OriginOffRay(r, c, dr, dc, j);
      }
    }
  }

  /** No intended scan of a move writes the origin. */
  lemma {:induction false} SweepIntendedKeepsOrigin(g: Grid, p: Player, r: int, c: int, n: nat)
    requires n <= |DIRECTIONS| && InGrid(g, r, c)
    ensures SweepIntended(g, p, r, c, n).1[r][c] == g[r][c]
  {
    if n > 0 {
      SweepIntendedKeepsOrigin(g, p, r, c, n - 1);
      var h := SweepIntended(g, p, r, c, n - 1).1;
      DirectionIntendedKeepsOrigin(h, p, r, c, DIRECTIONS[n - 1].0, DIRECTIONS[n - 1].1);
    }
  }

  /** Equal positive multiples of two unit steps come from the same step. */
  lemma SameStep(d: int, e: int, k: nat, j: nat)
    requires -1 <= d <= 1 && -1 <= e <= 1 && 1 <= k && 1 <= j
    ensures d * k == e * j ==> d == e
  {
    if d == 0 {
      assert d * k == 0;
      assert e != 0 ==> e * j != 0;
    } else if d == 1 {
      assert e == 0 ==> e * j == 0;
      assert e == -1 ==> e * j < 0;
    } else {
      assert e == 0 ==> e * j == 0;
      assert e == 1 ==> e * j > 0;
    }
  }

  /** Two rays from one origin in different directions share no cell but the origin. */
  lemma {:induction false} RaysDisjoint(r: int, c: int, dr: int, dc: int, e: int, f: int, k: nat, j: nat)
    requires IsDirection(dr, dc) && IsDirection(e, f) && (dr, dc) != (e, f) && 1 <= k && 1 <= j
    ensures Ray(r, dr, k) != Ray(r, e, j) || Ray(c, dc, k) != Ray(c, f, j)
  {
    RayIsProduct(r, dr, k);
    RayIsProduct(r, e, j);
    RayIsProduct(c, dc, k);
    RayIsProduct(c, f, j);
    SameStep(dr, e, k, j);
    SameStep(dc, f, k, j);
  }

  /** (x, y) lies strictly inside the sandwich of direction i from (r, c). */
  ghost predicate InRunOf(g: Grid, s: Symbol, r: int, c: int, i: int, x: int, y: int)
    requires 0 <= i < |DIRECTIONS|
  {
    var t := Terminator(g, s, r, c, DIRECTIONS[i].0, DIRECTIONS[i].1);
    t.Some? && InRun(r, c, DIRECTIONS[i].0, DIRECTIONS[i].1, t.value, x, y)
  }

  /** (x, y) lies inside the sandwich of one of the first n directions. */
  ghost predicate RunFlipped(g: Grid, s: Symbol, r: int, c: int, n: nat, x: int, y: int)
    requires n <= |DIRECTIONS|
  {
    exists i :: 0 <= i < n && InRunOf(g, s, r, c, i, x, y)
  }

  /** A grid that differs from g only inside the sandwiches of the first n directions scans
      direction n exactly as g does. */
  lemma RunsOffRay(g: Grid, h: Grid, s: Symbol, r: int, c: int, n: nat)
    requires n < |DIRECTIONS| && |h| == |g| && Width(h) == Width(g)
    requires forall x, y :: InGrid(g, x, y) ==> h[x][y] == if RunFlipped(g, s, r, c, n, x, y) then s else g[x][y]
    ensures Terminator(h, s, r, c, DIRECTIONS[n].0, DIRECTIONS[n].1) == Terminator(g, s, r, c, DIRECTIONS[n].0, DIRECTIONS[n].1)
  {
    var (dr, dc) := DIRECTIONS[n];
    forall k: nat | 1 <= k && OnBoard(g, r, c, dr, dc, k)
      ensures CellAt(h, r, c, dr, dc, k) == CellAt(g, r, c, dr, dc, k)
    {
      if RunFlipped(g, s, r, c, n, Ray(r, dr, k), Ray(c, dc, k)) {
        var i :| 0 <= i < n && InRunOf(g, s, r, c, i, Ray(r, dr, k), Ray(c, dc, k));
        var (e, f) := DIRECTIONS[i];
        var t := Terminator(g, s, r, c, e, f).value;
        var j: nat :| 1 <= j < t && Ray(r, dr, k) == Ray(r, e, j) && Ray(c, dc, k) == Ray(c, f, j);
        DirectionsDistinct();
        RaysDisjoint(r, c, dr, dc, e, f, k, j);
      }
    }
    TerminatorFrame(g, h, s, r, c, dr, dc);
  }

  lemma RunFlippedStep(g: Grid, s: Symbol, r: int, c: int, n: nat, x: int, y: int)
    requires 1 <= n <= |DIRECTIONS|
    ensures RunFlipped(g, s, r, c, n, x, y) <==>
      RunFlipped(g, s, r, c, n - 1, x, y) || InRunOf(g, s, r, c, n - 1, x, y)
  {
    if RunFlipped(g, s, r, c, n, x, y) && !RunFlipped(g, s, r, c, n - 1, x, y) {
      var i :| 0 <= i < n && InRunOf(g, s, r, c, i, x, y);
      assert i == n - 1;
    }
    if RunFlipped(g, s, r, c, n - 1, x, y) {
      var i :| 0 <= i < n - 1 && InRunOf(g, s, r, c, i, x, y);
      assert RunFlipped(g, s, r, c, n, x, y);
    }
  }

  /** The corrected scan, cell by cell: on a sandwich closed at distance t the run takes the
      mark, and nothing else changes. */
  lemma DirectionIntendedCells(g: Grid, p: Player, r: int, c: int, dr: int, dc: int)
    requires IsDirection(dr, dc)
    ensures var t := Terminator(g, p.symbol, r, c, dr, dc);
      var (ok, h) := DirectionIntended(g, p, r, c, dr, dc);
      ok == t.Some? && |h| == |g| && Width(h) == Width(g) &&
      forall x, y :: InGrid(g, x, y) ==>
        h[x][y] == if t.Some? && InRun(r, c, dr, dc, t.value, x, y) then p.symbol else g[x][y]
  {
  }

  /** One more corrected scan keeps the cellwise description of the corrected sweep. */
  lemma RunStepCells(g: Grid, h: Grid, h': Grid, s: Symbol, r: int, c: int, n: nat)
    requires n < |DIRECTIONS|
    requires |h| == |g| && Width(h) == Width(g) && |h'| == |g| && Width(h') == Width(g)
    requires forall x, y :: InGrid(g, x, y) ==> h[x][y] == if RunFlipped(g, s, r, c, n, x, y) then s else g[x][y]
    requires forall x, y :: InGrid(g, x, y) ==> h'[x][y] == if InRunOf(g, s, r, c, n, x, y) then s else h[x][y]
    ensures forall x, y :: InGrid(g, x, y) ==> h'[x][y] == if RunFlipped(g, s, r, c, n + 1, x, y) then s else g[x][y]
  {
    forall x, y | InGrid(g, x, y) {
      RunFlippedStep(g, s, r, c, n + 1, x, y);
    }
  }

  /** After the first n corrected scans exactly the cells inside the sandwiches of those
      directions, as found on the starting grid, hold the mover's mark. */
  lemma {:induction false} SweepIntendedCells(g: Grid, p: Player, r: int, c: int, n: nat)
    requires n <= |DIRECTIONS|
    ensures forall x, y :: InGrid(g, x, y) ==>
      SweepIntended(g, p, r, c, n).1[x][y] == if RunFlipped(g, p.symbol, r, c, n, x, y) then p.symbol else g[x][y]
  {
    if n > 0 {
      SweepIntendedCells(g, p, r, c, n - 1);
      var h := SweepIntended(g, p, r, c, n - 1).1;
      var (dr, dc) := DIRECTIONS[n - 1];
      RunsOffRay(g, h, p.symbol, r, c, n - 1);
      DirectionIntendedCells(h, p, r, c, dr, dc);
      var h' := DirectionIntended(h, p, r, c, dr, dc).1;
      RunStepCells(g, h, h', p.symbol, r, c, n - 1);
    }
  }

  /** The first n corrected scans succeed once per direction that is a sandwich on the
      starting grid, as the program's do. */
  lemma {:induction false} SweepIntendedCount(g: Grid, p: Player, r: int, c: int, n: nat)
    requires n <= |DIRECTIONS|
    ensures SweepIntended(g, p, r, c, n).0 == FlankedCount(g, p.symbol, r, c, n)
  {
    if n > 0 {
      SweepIntendedCount(g, p, r, c, n - 1);
      SweepIntendedCells(g, p, r, c, n - 1);
      var h := SweepIntended(g, p, r, c, n - 1).1;
      var (dr, dc) := DIRECTIONS[n - 1];
      RunsOffRay(g, h, p.symbol, r, c, n - 1);
      DirectionIntendedCells(h, p, r, c, dr, dc);
      TerminatorCloses(g, p.symbol, r, c, dr, dc);
    }
  }

  /** Placing the mark first changes no scan from the target. */
  lemma PlacedRuns(g: Grid, s: Symbol, row: int, col: int)
    requires InGrid(g, row, col)
    ensures forall x, y :: RunFlipped(Put(g, row, col, s), s, row, col, |DIRECTIONS|, x, y) <==>
      RunFlipped(g, s, row, col, |DIRECTIONS|, x, y)
  {
    var placed := Put(g, row, col, s);
    forall i | 0 <= i < |DIRECTIONS|
      ensures Terminator(placed, s, row, col, DIRECTIONS[i].0, DIRECTIONS[i].1) ==
              Terminator(g, s, row, col, DIRECTIONS[i].0, DIRECTIONS[i].1)
    {
      var (dr, dc) := DIRECTIONS[i];
      forall k: nat | 1 <= k && OnBoard(g, row, col, dr, dc, k)
        ensures CellAt(placed, row, col, dr, dc, k) == CellAt(g, row, col, dr, dc, k)
      {
        OriginOffRay(row, col, dr, dc, k);
      }
      TerminatorFrame(g, placed, s, row, col, dr, dc);
    }
    forall x, y
      ensures RunFlipped(placed, s, row, col, |DIRECTIONS|, x, y) <==> RunFlipped(g, s, row, col, |DIRECTIONS|, x, y)
    {
      if RunFlipped(placed, s, row, col, |DIRECTIONS|, x, y) {
        var i :| 0 <= i < |DIRECTIONS| && InRunOf(placed, s, row, col, i, x, y);
        assert InRunOf(g, s, row, col, i, x, y);
      }
      if RunFlipped(g, s, row, col, |DIRECTIONS|, x, y) {
        var i :| 0 <= i < |DIRECTIONS| && InRunOf(g, s, row, col, i, x, y);
        assert InRunOf(placed, s, row, col, i, x, y);
      }
    }
  }

  /** The corrected move accepts exactly the on-board targets the program accepts, and an
      accepted move puts the mark on the target and on every cell inside every sandwich from
      it, and changes no other cell. */
  lemma MoveIntendedFlipsRuns(g: Grid, p: Player, row: int, col: int)
    ensures InGrid(g, row, col) ==> MoveIntended(g, p, row, col).0 == MoveResult(g, p, row, col).0
    ensures MoveIntended(g, p, row, col).0 ==> forall x, y :: InGrid(g, x, y) ==>
      MoveIntended(g, p, row, col).1[x][y] ==
        if (x == row && y == col) || RunFlipped(g, p.symbol, row, col, |DIRECTIONS|, x, y) then p.symbol else g[x][y]
  {
    if InGrid(g, row, col) && g[row][col] == Empty {
      var placed := Put(g, row, col, p.symbol);
      SweepIntendedCount(placed, p, row, col, |DIRECTIONS|);
      SweepFlipsFlanked(placed, p, row, col, |DIRECTIONS|);
      SweepIntendedCells(placed, p, row, col, |DIRECTIONS|);
      PlacedRuns(g, p.symbol, row, col);
    }
  }
}
