/** The board as the game stores it, a mutable N×N array of occupancy flags,
    and the two queries that explore it by toggling cells and toggling them
    back: the solvability search with its hint fields, and the scan for
    threatening queens.  Both leave every cell as they found it. */
module InPlace {
  import opened Board
  import opened Lines
  import opened Configuration
  import opened Solver
  import opened Threats

  /** The contents of the array as a grid. */
  function Snapshot(a: array2<bool>): (g: Grid)
    reads a
    ensures |g| == a.Length0
    ensures forall r :: 0 <= r < a.Length0 ==> |g[r]| == a.Length1
    ensures forall r, c :: 0 <= r < a.Length0 && 0 <= c < a.Length1 ==> g[r][c] == a[r, c]
  {
    seq(a.Length0, r reads a =>
      seq(a.Length1, c reads a =>
        if 0 <= r < a.Length0 && 0 <= c < a.Length1 then a[r, c] else false))
  }

  /** Grids with equal cells are equal. */
  lemma SameCells(g: Grid, h: Grid)
    requires Square(g) && Square(h) && |g| == |h|
    requires forall r, c :: 0 <= r < |g| && 0 <= c < |g| ==> g[r][c] == h[r][c]
    ensures g == h
  {
    forall r | 0 <= r < |g| ensures g[r] == h[r] {
      assert forall c :: 0 <= c < |g| ==> g[r][c] == h[r][c];
    }
  }

  /** Case.clicGauche on the stored board. */
  method Click(a: array2<bool>, r: int, c: int)
    requires a.Length0 == a.Length1 && 0 <= r < a.Length0 && 0 <= c < a.Length1
    modifies a
    ensures Snapshot(a) == Toggle(old(Snapshot(a)), r, c)
  {
    ghost var g := Snapshot(a);
    a[r, c] := !a[r, c];
    SameCells(Snapshot(a), Toggle(g, r, c));
  }

  /** verifieResolubilite on the stored board, with the hint fields
      (indiceL, indiceC) passed in and returned.  It answers the functional
      query, writes (-1, -1) on a complete board and the move otherwise,
      leaves the hint untouched when it answers false, and restores every
      cell it toggled. */
  method Resolubility(a: array2<bool>, hint: Cell) returns (ok: bool, hint': Cell)
    requires a.Length0 == a.Length1
    modifies a
    ensures Snapshot(a) == old(Snapshot(a))
    ensures ok <==> Solve(old(Snapshot(a))) != Unsolvable
    ensures Solve(old(Snapshot(a))) == AlreadyComplete ==> hint' == (-1, -1)
    ensures Solve(old(Snapshot(a))).NextMove? ==>
      hint' == (Solve(old(Snapshot(a))).row, Solve(old(Snapshot(a))).col)
    ensures !ok ==> hint' == hint
    decreases FreeCells(Snapshot(a)), 2
  {
    var n := a.Length0;
    ghost var g := Snapshot(a);
    if !IsValid(Snapshot(a)) {
      return false, hint;
    }
    if CountAll(Snapshot(a)) == n {
      return true, (-1, -1);
    }
    var y := 0;
    while y < n
      invariant 0 <= y <= n
      invariant Snapshot(a) == g
      invariant Search(g, y, 0) == Solve(g)
    {
      var found, x := ScanRow(a, y, hint);
      if found {
        return true, (y, x);
      }
      y := y + 1;
    }
    return false, hint;
  }

  /** The inner loop of verifieResolubilite over row y: the first cell of the
      row that leads to a solvable board, if any; every cell ends as it began. */
  method ScanRow(a: array2<bool>, y: int, hint: Cell) returns (found: bool, x: int)
    requires a.Length0 == a.Length1 && 0 <= y < a.Length0
    modifies a
    ensures Snapshot(a) == old(Snapshot(a))
    ensures found ==> Search(old(Snapshot(a)), y, 0) == NextMove(y, x)
    ensures !found ==> Search(old(Snapshot(a)), y, 0) == Search(old(Snapshot(a)), y + 1, 0)
    decreases FreeCells(Snapshot(a)), 1
  {
    var n := a.Length0;
    ghost var g := Snapshot(a);
    x := 0;
    while x < n
      invariant 0 <= x <= n
      invariant Snapshot(a) == g
      invariant Search(g, y, x) == Search(g, y, 0)
    {
      SearchStep(g, y, x);
      LeadersMember(g, y, x);
      if !a[y, x] {
        var sub := TryCell(a, y, x, hint);
        if sub {
          return true, x;
        }
      }
      x := x + 1;
    }
    SearchStep(g, y, n);
    return false, x;
  }

  /** The body of the search loop on a free cell: occupy it, ask the query of
      the resulting board, and free it again. */
  method TryCell(a: array2<bool>, y: int, x: int, hint: Cell) returns (sub: bool)
    requires a.Length0 == a.Length1 && 0 <= y < a.Length0 && 0 <= x < a.Length1
    requires !a[y, x]
    modifies a
    ensures Snapshot(a) == old(Snapshot(a))
    ensures sub <==> Solve(Toggle(old(Snapshot(a)), y, x)) != Unsolvable
    decreases FreeCells(Snapshot(a)), 0
  {
    ghost var g := Snapshot(a);
    Click(a, y, x);
    ToggleQueens(g, y, x);
    // The inner query may write the hint; the caller overwrites it with (y, x)
    // when it answers true, and it is untouched when it answers false.
    var hint2;
    sub, hint2 := Resolubility(a, hint);
    Click(a, y, x);
    ToggleTwice(g, y, x);
  }

  /** The marked queens that come before q in row-major order. */
  function MarkedBefore(g: Grid, q: Cell): set<Cell>
    requires Square(g)
  {
    set p | p in ThreateningQueens(g) && Before(p, q)
  }

  /** Looking at cell (y, x) extends the marked set by that cell, if it is marked. */
  lemma MarkedBeforeStep(g: Grid, y: int, x: int)
    requires Square(g) && InBoard(|g|, (y, x))
    ensures MarkedBefore(g, (y, x + 1)) ==
      MarkedBefore(g, (y, x)) + (if g[y][x] && IsValid(Toggle(g, y, x)) then {(y, x)} else {})
  {
  }

  /** The end of a row is the start of the next; after the last row every
      marked queen has been seen. */
  lemma MarkedBeforeRowEnd(g: Grid, y: int)
    requires Square(g)
    ensures MarkedBefore(g, (y, |g|)) == MarkedBefore(g, (y + 1, 0))
    ensures MarkedBefore(g, (|g|, 0)) == ThreateningQueens(g)
  {
  }

  /** afficheThreateningQueens on the stored board: the queens it would mark,
      found by freeing each queen, checking, and occupying it again; every
      cell ends as it began. */
  method MarkThreatening(a: array2<bool>) returns (marked: set<Cell>)
    requires a.Length0 == a.Length1
    modifies a
    ensures Snapshot(a) == old(Snapshot(a))
    ensures marked == ThreateningQueens(old(Snapshot(a)))
  {
    var n := a.Length0;
    ghost var g := Snapshot(a);
    marked := {};
    var y := 0;
    while y < n
      invariant 0 <= y <= n
      invariant Snapshot(a) == g
      invariant marked == MarkedBefore(g, (y, 0))
    {
      var x := 0;
      while x < n
        invariant 0 <= x <= n
        invariant Snapshot(a) == g
        invariant marked == MarkedBefore(g, (y, x))
      {
        MarkedBeforeStep(g, y, x);
        if a[y, x] {
          Click(a, y, x);
          var legal := IsValid(Snapshot(a));
          Click(a, y, x);
          ToggleTwice(g, y, x);
          if legal {
            marked := marked + {(y, x)};
          }
        }
        x := x + 1;
      }
      MarkedBeforeRowEnd(g, y);
      y := y + 1;
    }
    MarkedBeforeRowEnd(g, n);
  }
}
