/** The board of the N-queens game: an N×N grid of occupancy flags, and the
    one mutation the game offers, toggling a single cell (a left click on it). */
module Board {

  /** A cell coordinate (row, column). */
  type Cell = (int, int)

  /** Occupancy grid, indexed row first: g[r][c] holds when a queen stands on (r, c). */
  type Grid = seq<seq<bool>>

  /** The grid is square; its side N is |g|, fixed when the board is built. */
  predicate Square(g: Grid) {
    forall r :: 0 <= r < |g| ==> |g[r]| == |g|
  }

  predicate InBoard(n: int, p: Cell) {
    0 <= p.0 < n && 0 <= p.1 < n
  }

  /** The coordinates of the occupied cells. */
  function Queens(g: Grid): (q: set<Cell>)
    requires Square(g)
    ensures forall p :: p in q <==> InBoard(|g|, p) && g[p.0][p.1]
  {
    var q := set r, c | 0 <= r < |g| && 0 <= c < |g| && g[r][c] :: (r, c);
    assert forall p | InBoard(|g|, p) && g[p.0][p.1] :: (p.0, p.1) in q;
    q
  }

  /** The coordinates of the free cells. */
  function FreeCells(g: Grid): (f: set<Cell>)
    requires Square(g)
    ensures forall p :: p in f <==> InBoard(|g|, p) && !g[p.0][p.1]
  {
    var f := set r, c | 0 <= r < |g| && 0 <= c < |g| && !g[r][c] :: (r, c);
    assert forall p | InBoard(|g|, p) && !g[p.0][p.1] :: (p.0, p.1) in f;
    f
  }

  /** A freshly built board of side n: every cell free. */
  function Empty(n: nat): (g: Grid)
    ensures Square(g) && |g| == n
    ensures Queens(g) == {}
    ensures forall p :: InBoard(n, p) <==> p in FreeCells(g)
  {
    seq(n, _ => seq(n, _ => false))
  }

  /** A left click on cell (r, c): its occupancy flips. */
  function Toggle(g: Grid, r: int, c: int): (g': Grid)
    requires Square(g) && InBoard(|g|, (r, c))
    ensures Square(g') && |g'| == |g|
    ensures g'[r][c] == !g[r][c]
    ensures forall p :: InBoard(|g|, p) && p != (r, c) ==> g'[p.0][p.1] == g[p.0][p.1]
  {
    g[r := g[r][c := !g[r][c]]]
  }

  /** Clicking the same cell twice restores the board exactly. */
  lemma ToggleTwice(g: Grid, r: int, c: int)
    requires Square(g) && InBoard(|g|, (r, c))
    ensures Toggle(Toggle(g, r, c), r, c) == g
  {
    var g' := Toggle(Toggle(g, r, c), r, c);
    assert forall i | 0 <= i < |g| :: g'[i] == g[i];
  }

  /** Toggling a cell adds it to, or removes it from, the set of queens and the
      set of free cells, and nothing else. */
  lemma ToggleQueens(g: Grid, r: int, c: int)
    requires Square(g) && InBoard(|g|, (r, c))
    ensures g[r][c] ==> Queens(Toggle(g, r, c)) == Queens(g) - {(r, c)}
    ensures g[r][c] ==> FreeCells(Toggle(g, r, c)) == FreeCells(g) + {(r, c)}
    ensures !g[r][c] ==> Queens(Toggle(g, r, c)) == Queens(g) + {(r, c)}
    ensures !g[r][c] ==> FreeCells(Toggle(g, r, c)) == FreeCells(g) - {(r, c)}
  {
  }
}
