/** What a whole move does: `TryMove`'s eight scans do not interfere with one another, so a move
    is legal exactly when some direction is a sandwich on the board as it was, and it flips
    one disc per such direction. */
module Moves {
  import opened Board
  import opened Rules

  /** No two entries of the direction table are the same. */
  lemma DirectionsDistinct()
    ensures forall i, j :: 0 <= i < j < |DIRECTIONS| ==> DIRECTIONS[i] != DIRECTIONS[j]
  {
  }

  /** A ray never comes back to its origin. */
  lemma {:induction false} OriginOffRay(r: int, c: int, dr: int, dc: int, k: nat)
    requires IsDirection(dr, dc) && 1 <= k
    ensures Ray(r, dr, k) != r || Ray(c, dc, k) != c
  {
    RayIsProduct(r, dr, k);
    RayIsProduct(c, dc, k);
    if dr != 0 {
      assert dr * k != 0;
    } else {
      assert dc * k != 0;
    }
  }

  /** The ray along (dr, dc) never passes through the cell next to the origin in another
      direction (e, f). */
  lemma {:induction false} NeighbourOffRay(r: int, c: int, dr: int, dc: int, e: int, f: int, k: nat)
    requires IsDirection(dr, dc) && IsDirection(e, f) && (dr, dc) != (e, f) && 1 <= k
    ensures Ray(r, dr, k) != r + e || Ray(c, dc, k) != c + f
  {
    RayIsProduct(r, dr, k);
    RayIsProduct(c, dc, k);
    if k == 1 {
    } else if dr != 0 {
      assert dr * k >= 2 || dr * k <= -2;
    } else if dc != 0 {
      assert dc * k >= 2 || dc * k <= -2;
    }
  }

  /** The scan of a ray depends only on the cells along it. */
  lemma TerminatorFrame(g: Grid, h: Grid, s: Symbol, r: int, c: int, dr: int, dc: int)
    requires IsDirection(dr, dc) && |h| == |g| && Width(h) == Width(g)
    requires forall k: nat :: 1 <= k && OnBoard(g, r, c, dr, dc, k) ==> CellAt(h, r, c, dr, dc, k) == CellAt(g, r, c, dr, dc, k)
    ensures Terminator(h, s, r, c, dr, dc) == Terminator(g, s, r, c, dr, dc)
  {
    forall k: nat
      ensures ClosesAt(h, s, r, c, dr, dc, k) <==> ClosesAt(g, s, r, c, dr, dc, k)
    {
      assert forall j: nat :: 1 <= j ==> (Opposing(h, s, r, c, dr, dc, j) <==> Opposing(g, s, r, c, dr, dc, j));
    }
    TerminatorCloses(g, s, r, c, dr, dc);
    TerminatorCloses(h, s, r, c, dr, dc);
    if Terminator(g, s, r, c, dr, dc).Some? {
      assert ClosesAt(h, s, r, c, dr, dc, Terminator(g, s, r, c, dr, dc).value);
    }
  }

  /** Hence whether a ray is a sandwich depends only on the cells along it. */
  lemma RayFrame(g: Grid, h: Grid, s: Symbol, r: int, c: int, dr: int, dc: int)
    requires IsDirection(dr, dc) && |h| == |g| && Width(h) == Width(g)
    requires forall k: nat :: 1 <= k && OnBoard(g, r, c, dr, dc, k) ==> CellAt(h, r, c, dr, dc, k) == CellAt(g, r, c, dr, dc, k)
    ensures Flanked(h, s, r, c, dr, dc) <==> Flanked(g, s, r, c, dr, dc)
  {
    TerminatorFrame(g, h, s, r, c, dr, dc);
    TerminatorCloses(g, s, r, c, dr, dc);
    TerminatorCloses(h, s, r, c, dr, dc);
  }

  /** Writing the origin does not change whether any ray from it is a sandwich. */
  lemma PlacingKeepsFlanked(g: Grid, s: Symbol, v: Cell, r: int, c: int, dr: int, dc: int)
    requires IsDirection(dr, dc) && InGrid(g, r, c)
    ensures Flanked(Put(g, r, c, v), s, r, c, dr, dc) <==> Flanked(g, s, r, c, dr, dc)
  {
    forall k: nat | 1 <= k && OnBoard(g, r, c, dr, dc, k)
      ensures CellAt(Put(g, r, c, v), r, c, dr, dc, k) == CellAt(g, r, c, dr, dc, k)
    {
      OriginOffRay(r, c, dr, dc, k);
    }
    RayFrame(g, Put(g, r, c, v), s, r, c, dr, dc);
  }

  /** Direction i of the table is a sandwich from (r, c). */
  ghost predicate FlankedAt(g: Grid, s: Symbol, r: int, c: int, i: int)
    requires 0 <= i < |DIRECTIONS|
  {
    Flanked(g, s, r, c, DIRECTIONS[i].0, DIRECTIONS[i].1)
  }

  /** (x, y) is the cell next to (r, c) in one of the first n directions, and that direction
      is a sandwich. */
  ghost predicate Flipped(g: Grid, s: Symbol, r: int, c: int, n: nat, x: int, y: int)
    requires n <= |DIRECTIONS|
  {
    exists i :: 0 <= i < n && FlankedAt(g, s, r, c, i) && x == r + DIRECTIONS[i].0 && y == c + DIRECTIONS[i].1
  }

  /** How many of the first n directions are sandwiches. */
  ghost function FlankedCount(g: Grid, s: Symbol, r: int, c: int, n: nat): (count: nat)
    requires n <= |DIRECTIONS|
    ensures count <= n
    ensures count > 0 <==> exists i :: 0 <= i < n && FlankedAt(g, s, r, c, i)
  {
    if n == 0 then 0
    else FlankedCount(g, s, r, c, n - 1) + if FlankedAt(g, s, r, c, n - 1) then 1 else 0
  }

  /** A grid that differs from g only at cells next to (r, c) in the first n directions
      agrees with g along the ray of direction n. */
  lemma SweptRayUnchanged(g: Grid, h: Grid, s: Symbol, r: int, c: int, n: nat)
    requires n < |DIRECTIONS| && |h| == |g| && Width(h) == Width(g)
    requires forall x, y :: InGrid(g, x, y) ==> h[x][y] == if Flipped(g, s, r, c, n, x, y) then s else g[x][y]
    ensures FlankedAt(h, s, r, c, n) <==> FlankedAt(g, s, r, c, n)
  {
    var (dr, dc) := DIRECTIONS[n];
    forall k: nat | 1 <= k && OnBoard(g, r, c, dr, dc, k)
      ensures CellAt(h, r, c, dr, dc, k) == CellAt(g, r, c, dr, dc, k)
    {
      if Flipped(g, s, r, c, n, Ray(r, dr, k), Ray(c, dc, k)) {
        var i :| 0 <= i < n && FlankedAt(g, s, r, c, i) &&
          Ray(r, dr, k) == r + DIRECTIONS[i].0 && Ray(c, dc, k) == c + DIRECTIONS[i].1;
        DirectionsDistinct();
        NeighbourOffRay(r, c, dr, dc, DIRECTIONS[i].0, DIRECTIONS[i].1, k);
      }
    }
    RayFrame(g, h, s, r, c, dr, dc);
  }

  /** A cell is flipped by the first n directions when it is by the first n-1 or it is the
      neighbour in direction n-1 and that direction is a sandwich. */
  lemma FlippedStep(g: Grid, s: Symbol, r: int, c: int, n: nat, x: int, y: int)
    requires 1 <= n <= |DIRECTIONS|
    ensures Flipped(g, s, r, c, n, x, y) <==>
      Flipped(g, s, r, c, n - 1, x, y) ||
      (FlankedAt(g, s, r, c, n - 1) && x == r + DIRECTIONS[n - 1].0 && y == c + DIRECTIONS[n - 1].1)
  {
    if Flipped(g, s, r, c, n, x, y) && !Flipped(g, s, r, c, n - 1, x, y) {
      var i :| 0 <= i < n && FlankedAt(g, s, r, c, i) && x == r + DIRECTIONS[i].0 && y == c + DIRECTIONS[i].1;
      assert i == n - 1;
    }
    if Flipped(g, s, r, c, n - 1, x, y) {
      var i :| 0 <= i < n - 1 && FlankedAt(g, s, r, c, i) && x == r + DIRECTIONS[i].0 && y == c + DIRECTIONS[i].1;
      assert Flipped(g, s, r, c, n, x, y);
    }
  }

  /** One more scan keeps the cellwise description of the sweep: if it succeeds exactly when its
      direction is a sandwich on the starting grid and writes only its neighbour cell, the
      grid after it is the starting grid with the first n+1 directions' neighbours flipped. */
  lemma FlipStepCells(g: Grid, h: Grid, h': Grid, s: Symbol, r: int, c: int, n: nat, ok: bool)
    requires n < |DIRECTIONS|
    requires |h| == |g| && Width(h) == Width(g) && |h'| == |g| && Width(h') == Width(g)
    requires forall x, y :: InGrid(g, x, y) ==> h[x][y] == if Flipped(g, s, r, c, n, x, y) then s else g[x][y]
    requires ok <==> FlankedAt(g, s, r, c, n)
    requires forall x, y :: InGrid(g, x, y) ==>
      h'[x][y] == if ok && x == r + DIRECTIONS[n].0 && y == c + DIRECTIONS[n].1 then s else h[x][y]
    ensures forall x, y :: InGrid(g, x, y) ==> h'[x][y] == if Flipped(g, s, r, c, n + 1, x, y) then s else g[x][y]
  {
    forall x, y | InGrid(g, x, y) {
      FlippedStep(g, s, r, c, n + 1, x, y);
    }
  }

  /** The first n scans of a move set exactly the cells next to the origin in the sandwich
      directions to the player's mark. */
  lemma {:induction false} SweepFlipsNeighbours(g: Grid, p: Player, r: int, c: int, n: nat)
    requires n <= |DIRECTIONS|
    ensures forall x, y :: InGrid(g, x, y) ==>
      Sweep(g, p, r, c, n).1[x][y] == if Flipped(g, p.symbol, r, c, n, x, y) then p.symbol else g[x][y]
  {
    if n > 0 {
      SweepFlipsNeighbours(g, p, r, c, n - 1);
      var h := Sweep(g, p, r, c, n - 1).1;
      var (dr, dc) := DIRECTIONS[n - 1];
      SweptRayUnchanged(g, h, p.symbol, r, c, n - 1);
      DirectionSucceedsIffFlanked(h, p, r, c, dr, dc);
      DirectionFlipsAdjacent(h, p, r, c, dr, dc);
      var (ok, h') := DirectionResult(h, p, r, c, dr, dc);
      FlipStepCells(g, h, h', p.symbol, r, c, n - 1, ok);
    }
  }

  /** The first n scans of a move succeed once per direction that is a sandwich on the
      starting grid, and together they set exactly the cells next to the origin in those
      directions to the player's mark. */
  lemma {:induction false} SweepFlipsFlanked(g: Grid, p: Player, r: int, c: int, n: nat)
    requires n <= |DIRECTIONS|
    ensures Sweep(g, p, r, c, n).0 == FlankedCount(g, p.symbol, r, c, n)
    ensures forall x, y :: InGrid(g, x, y) ==>
      Sweep(g, p, r, c, n).1[x][y] == if Flipped(g, p.symbol, r, c, n, x, y) then p.symbol else g[x][y]
  {
    SweepFlipsNeighbours(g, p, r, c, n);
    if n > 0 {
      SweepFlipsFlanked(g, p, r, c, n - 1);
      var h := Sweep(g, p, r, c, n - 1).1;
      var (dr, dc) := DIRECTIONS[n - 1];
      SweptRayUnchanged(g, h, p.symbol, r, c, n - 1);
      DirectionSucceedsIffFlanked(h, p, r, c, dr, dc);
    }
  }

  /** On a sandwich the cell next to the origin holds the other player's disc. */
  lemma FlankedNeighbourOpposes(g: Grid, s: Symbol, r: int, c: int, dr: int, dc: int)
    requires IsDirection(dr, dc) && Flanked(g, s, r, c, dr, dc)
    ensures InGrid(g, r + dr, c + dc) && g[r + dr][c + dc] == Other(s)
  {
    var k: nat :| ClosesAt(g, s, r, c, dr, dc, k);
    assert Opposing(g, s, r, c, dr, dc, 1);
    RayOne(r, dr);
    RayOne(c, dc);
  }

  /** Placing the mark first does not change which directions are sandwiches. */
  lemma PlacedFlipped(g: Grid, s: Symbol, row: int, col: int)
    requires InGrid(g, row, col)
    ensures forall i :: 0 <= i < |DIRECTIONS| ==>
      (FlankedAt(Put(g, row, col, s), s, row, col, i) <==> FlankedAt(g, s, row, col, i))
    ensures forall x, y :: Flipped(Put(g, row, col, s), s, row, col, |DIRECTIONS|, x, y) <==> Flipped(g, s, row, col, |DIRECTIONS|, x, y)
  {
    forall i | 0 <= i < |DIRECTIONS|
      ensures FlankedAt(Put(g, row, col, s), s, row, col, i) <==> FlankedAt(g, s, row, col, i)
    {
      PlacingKeepsFlanked(g, s, s, row, col, DIRECTIONS[i].0, DIRECTIONS[i].1);
    }
  }

  /** A move is legal exactly when its target is on the board and blank and at least one of
      the eight directions from it is a sandwich on the board as it was. */
  lemma MoveLegalIffFlanked(g: Grid, p: Player, row: int, col: int)
    requires PastEdge(|g|, Width(g), row, col) || InGrid(g, row, col)
    ensures MoveResult(g, p, row, col).0 <==>
      InGrid(g, row, col) && g[row][col] == Empty &&
      exists i :: 0 <= i < |DIRECTIONS| && FlankedAt(g, p.symbol, row, col, i)
  {
    if !PastEdge(|g|, Width(g), row, col) && g[row][col] == Empty {
      var placed := Put(g, row, col, p.symbol);
      SweepFlipsFlanked(placed, p, row, col, |DIRECTIONS|);
      PlacedFlipped(g, p.symbol, row, col);
    }
  }

  /** Every cell a move flips lies next to the target, not on it, and holds the other
      player's disc. */
  lemma FlippedCellsOppose(g: Grid, s: Symbol, row: int, col: int)
    ensures forall x, y :: Flipped(g, s, row, col, |DIRECTIONS|, x, y) ==>
      (x != row || y != col) && InGrid(g, x, y) && g[x][y] == Other(s)
  {
    forall x, y | Flipped(g, s, row, col, |DIRECTIONS|, x, y)
      ensures (x != row || y != col) && InGrid(g, x, y) && g[x][y] == Other(s)
    {
      var i :| 0 <= i < |DIRECTIONS| && FlankedAt(g, s, row, col, i) &&
        x == row + DIRECTIONS[i].0 && y == col + DIRECTIONS[i].1;
      FlankedNeighbourOpposes(g, s, row, col, DIRECTIONS[i].0, DIRECTIONS[i].1);
    }
  }

  /** A rejected move leaves the board exactly as it was: off the board or on an occupied
      cell nothing is written, and otherwise no scan flipped anything and the mark is taken
      back from the blank target. */
  lemma MoveRejectedKeepsBoard(g: Grid, p: Player, row: int, col: int)
    requires PastEdge(|g|, Width(g), row, col) || InGrid(g, row, col)
    ensures !MoveResult(g, p, row, col).0 ==> MoveResult(g, p, row, col).1 == g
  {
    if !PastEdge(|g|, Width(g), row, col) && g[row][col] == Empty {
      var placed := Put(g, row, col, p.symbol);
      SweepFlipsFlanked(placed, p, row, col, |DIRECTIONS|);
      var (count, h) := Sweep(placed, p, row, col, |DIRECTIONS|);
      if count == 0 {
        GridExt(Put(h, row, col, Empty), g);
      }
    }
  }

  /** An accepted move puts the mark on the target and on the cell next to it in every
      sandwich direction, each of which held the other player's disc, and changes nothing else. */
  lemma MoveAcceptedFlips(g: Grid, p: Player, row: int, col: int)
    requires PastEdge(|g|, Width(g), row, col) || InGrid(g, row, col)
    ensures MoveResult(g, p, row, col).0 ==> forall x, y :: InGrid(g, x, y) ==>
      MoveResult(g, p, row, col).1[x][y] ==
        if (x == row && y == col) || Flipped(g, p.symbol, row, col, |DIRECTIONS|, x, y) then p.symbol else g[x][y]
    ensures MoveResult(g, p, row, col).0 ==> forall x, y :: Flipped(g, p.symbol, row, col, |DIRECTIONS|, x, y) ==>
      InGrid(g, x, y) && g[x][y] == Other(p.symbol)
  {
    if !PastEdge(|g|, Width(g), row, col) && g[row][col] == Empty {
      var placed := Put(g, row, col, p.symbol);
      SweepFlipsFlanked(placed, p, row, col, |DIRECTIONS|);
      PlacedFlipped(g, p.symbol, row, col);
      FlippedCellsOppose(g, p.symbol, row, col);
    }
  }
}
