/** The board of the Othello program: its cells, the two players and a value view of the
    `string[,]` grid that the rules engine updates in place. */
module Board {

  /** A cell of the board; the program stores the strings " ", "X" and "O". */
  datatype Cell = Empty | X | O

  /** The mark a player puts on the board: never the blank. */
  type Symbol = c: Cell | c != Empty witness X

  /** `record Player(string Colour, string Symbol, string Name)`. */
  datatype Player = Player(colour: string, symbol: Symbol, name: string)

  /** The two players the game creates at start-up. */
  const BLACK: Player := Player("black", X, "Black")
  const WHITE: Player := Player("white", O, "White")

  datatype Option<T> = None | Some(value: T)

  /** The other player's mark. */
  function Other(s: Symbol): (t: Symbol)
    ensures t != s
  {
    if s == X then O else X
  }

  predicate Rectangular(g: seq<seq<Cell>>) {
    forall i :: 0 <= i < |g| ==> |g[i]| == |g[0]|
  }

  /** The contents of a board as a value: a sequence of rows of equal length. */
  type Grid = g: seq<seq<Cell>> | Rectangular(g)

  function Width(g: Grid): nat {
    if |g| == 0 then 0 else |g[0]|
  }

  predicate InGrid(g: Grid, r: int, c: int) {
    0 <= r < |g| && 0 <= c < Width(g)
  }

  /** The grid with cell (r, c) replaced by v. */
  function Put(g: Grid, r: int, c: int, v: Cell): (h: Grid)
    requires InGrid(g, r, c)
    ensures |h| == |g| && Width(h) == Width(g)
    ensures forall i, j :: InGrid(g, i, j) ==> h[i][j] == if i == r && j == c then v else g[i][j]
  {
    g[r := g[r][c := v]]
  }

  /** Two grids of one shape that agree on every cell are equal. */
  lemma GridExt(a: Grid, b: Grid)
    requires |a| == |b| && Width(a) == Width(b)
    requires forall i, j :: InGrid(a, i, j) ==> a[i][j] == b[i][j]
    ensures a == b
  {
    forall i | 0 <= i < |a|
      ensures a[i] == b[i]
    {
      assert |a[i]| == Width(a) == |b[i]|;
      assert forall j :: 0 <= j < |a[i]| ==> InGrid(a, i, j);
    }
  }

  /** The current contents of a board held in a two-dimensional array. */
  ghost function Snapshot(board: array2<Cell>): (g: Grid)
    reads board
    ensures |g| == board.Length0
    ensures forall i, j :: InGrid(g, i, j) <==> 0 <= i < board.Length0 && 0 <= j < board.Length1
    ensures forall i, j :: 0 <= i < board.Length0 && 0 <= j < board.Length1 ==>
      |g[i]| == board.Length1 && g[i][j] == board[i, j]
  {
    var g := seq(board.Length0, i requires 0 <= i < board.Length0 reads board =>
      seq(board.Length1, j requires 0 <= j < board.Length1 reads board => board[i, j]));
    assert Rectangular(g);
    g
  }

  /** Write v into cell (row, col) of the board: the indexer assignment `board[row, col] = v`. */
  method SetCell(board: array2<Cell>, row: int, col: int, v: Cell)
    requires 0 <= row < board.Length0 && 0 <= col < board.Length1
    modifies board
    ensures Snapshot(board) == Put(old(Snapshot(board)), row, col, v)
  {
    ghost var g := Snapshot(board);
    board[row, col] := v;
    GridExt(Snapshot(board), Put(g, row, col, v));
  }
}
