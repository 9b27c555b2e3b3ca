/** The solvability query with its hint: a backtracking search that tries
    the free cells in row-major order, occupies one, asks the same question
    of the resulting board, and frees the cell again. */
module Solver {
  import opened Board
  import opened Lines
  import opened Configuration
  import opened Sets

  /** The three answers of the query.  NextMove carries the hint cell. */
  datatype Outcome = Unsolvable | AlreadyComplete | NextMove(row: int, col: int)

  /** p comes strictly before q in row-major order. */
  predicate Before(p: Cell, q: Cell) {
    p.0 < q.0 || (p.0 == q.0 && p.1 < q.1)
  }

  /** verifieResolubilite: an illegal board is unsolvable; a legal board with
      N queens is already complete; otherwise the answer is that of the search. */
  function Solve(g: Grid): (o: Outcome)
    requires Square(g)
    ensures !IsValid(g) ==> o == Unsolvable
    ensures o == AlreadyComplete <==> IsValid(g) && CountAll(g) == |g|
    ensures o.NextMove? ==> IsValid(g) && CountAll(g) < |g| && (o.row, o.col) in FreeCells(g)
    decreases FreeCells(g), 1, 0, 0
  {
    if !IsValid(g) then Unsolvable
    else if CountAll(g) == |g| then AlreadyComplete
    else
      ValidHasAtMostNQueens(g);
      Search(g, 0, 0)
  }

  /** The nested loops of verifieResolubilite, from cell (r, c) on: the first
      free cell whose occupation leaves a solvable board. */
  function Search(g: Grid, r: nat, c: nat): (o: Outcome)
    requires Square(g) && r <= |g| && c <= |g|
    ensures o != AlreadyComplete
    ensures o.NextMove? ==> (o.row, o.col) in FreeCells(g) && !Before((o.row, o.col), (r, c))
    decreases FreeCells(g), 0, |g| - r, |g| - c
  {
    if r == |g| then Unsolvable
    else if c == |g| then Search(g, r + 1, 0)
    else if g[r][c] then Search(g, r, c + 1)
    else
      ToggleQueens(g, r, c);
      if Solve(Toggle(g, r, c)) != Unsolvable then NextMove(r, c)
      else Search(g, r, c + 1)
  }

  /** The free cells whose occupation leaves a solvable board. */
  function Leaders(g: Grid): (L: set<Cell>)
    requires Square(g)
    ensures L <= FreeCells(g)
  {
    set p | p in FreeCells(g) && Solve(Toggle(g, p.0, p.1)) != Unsolvable
  }

  /** Occupying the free cell p leaves a solvable board. */
  predicate Leads(g: Grid, p: Cell)
    requires Square(g)
  {
    p in Leaders(g)
  }

  /** The cell after (r, c) in the scan order of the search. */
  function Next(n: nat, r: nat, c: nat): (q: (nat, nat))
    requires r < n && c <= n
    ensures q.0 <= n && q.1 <= n
    ensures forall p :: InBoard(n, p) && !Before(p, (r, c)) && p != (r, c) ==> !Before(p, q)
  {
    if c == n then (r + 1, 0) else (r, c + 1)
  }

  /** One step of the search: on a board cell that leads to a solvable board
      it answers that cell; otherwise it answers what the search from the next
      cell answers. */
  lemma SearchStep(g: Grid, r: nat, c: nat)
    requires Square(g) && r < |g| && c <= |g|
    ensures Search(g, r, c) ==
      if c < |g| && (r, c) in Leaders(g) then NextMove(r, c)
      else Search(g, Next(|g|, r, c).0, Next(|g|, r, c).1)
  {
    if c == |g| {
      assert Next(|g|, r, c) == (r + 1, 0);
    } else {
      assert Next(|g|, r, c) == (r, c + 1);
      LeadersMember(g, r, c);
      if g[r][c] {
        assert (r, c) !in Leaders(g);
        assert Search(g, r, c) == Search(g, r, c + 1);
      } else if Solve(Toggle(g, r, c)) != Unsolvable {
        assert (r, c) in Leaders(g);
        assert Search(g, r, c) == NextMove(r, c);
      } else {
        assert (r, c) !in Leaders(g);
        assert Search(g, r, c) == Search(g, r, c + 1);
      }
    }
  }

  /** A board cell leads to a solvable board exactly when it is free and
      occupying it leaves a board the query does not reject. */
  lemma LeadersMember(g: Grid, r: int, c: int)
    requires Square(g) && InBoard(|g|, (r, c))
    ensures (r, c) in Leaders(g) <==> !g[r][c] && Solve(Toggle(g, r, c)) != Unsolvable
  {
    assert (r, c) in FreeCells(g) <==> !g[r][c];
  }

  /** No member of L at or after (r, c) comes before the answer o, and o is
      a move when there is such a member. */
  predicate FirstFrom(L: set<Cell>, r: int, c: int, o: Outcome) {
    forall p :: p in L && !Before(p, (r, c)) ==> o.NextMove? && !Before(p, (o.row, o.col))
  }

  /** The ordering argument of one search step, over any set L of board
      cells: if the answer o' from the next cell is the first member of L from
      there on, then the answer o from (r, c) is the first member of L from
      (r, c) on. */
  lemma FirstStep(L: set<Cell>, n: nat, r: nat, c: nat, o: Outcome, o': Outcome)
    requires r < n && c <= n
    requires forall p :: p in L ==> InBoard(n, p)
    requires o == if c < n && (r, c) in L then NextMove(r, c) else o'
    requires FirstFrom(L, Next(n, r, c).0, Next(n, r, c).1, o')
    ensures FirstFrom(L, r, c, o)
  {
    var q := Next(n, r, c);
    forall p | p in L && !Before(p, (r, c)) ensures o.NextMove? && !Before(p, (o.row, o.col)) {
      if c < n && (r, c) in L {
        assert o == NextMove(r, c);
      } else {
        assert p != (r, c);
        assert !Before(p, q);
      }
    }
  }

  /** The last row has been passed: no board cell lies at or after (N, c). */
  lemma FirstFromEnd(L: set<Cell>, n: nat, c: int, o: Outcome)
    requires forall p :: p in L ==> InBoard(n, p)
    ensures FirstFrom(L, n, c, o)
  {
  }

  /** A move answered by the search from (r, c) leads to a solvable board. */
  lemma {:induction false} SearchAnswersLead(g: Grid, r: nat, c: nat)
    requires Square(g) && r <= |g| && c <= |g|
    ensures var o := Search(g, r, c);
      o.NextMove? ==> (o.row, o.col) in Leaders(g)
    decreases |g| - r, |g| - c
  {
    if r < |g| {
      SearchStep(g, r, c);
      var q := Next(|g|, r, c);
      SearchAnswersLead(g, q.0, q.1);
    }
  }

  /** No cell at or after (r, c) that leads to a solvable board comes before
      the answer of the search from (r, c). */
  lemma {:induction false} SearchAnswersFirst(g: Grid, r: nat, c: nat)
    requires Square(g) && r <= |g| && c <= |g|
    ensures FirstFrom(Leaders(g), r, c, Search(g, r, c))
    decreases |g| - r, |g| - c
  {
    var L := Leaders(g);
    if r < |g| {
      var q := Next(|g|, r, c);
      SearchStep(g, r, c);
      SearchAnswersFirst(g, q.0, q.1);
      FirstStep(L, |g|, r, c, Search(g, r, c), Search(g, q.0, q.1));
    } else {
      FirstFromEnd(L, |g|, c, Search(g, r, c));
    }
  }

  /** The search from (r, c) answers the first cell, at or after (r, c) in
      row-major order, whose occupation leaves a solvable board, and
      Unsolvable when there is none. */
  lemma SearchFindsFirst(g: Grid, r: nat, c: nat)
    requires Square(g) && r <= |g| && c <= |g|
    ensures var o := Search(g, r, c);
      o.NextMove? ==> Leads(g, (o.row, o.col))
    ensures var o := Search(g, r, c);
      forall p :: Leads(g, p) && !Before(p, (r, c)) ==> o.NextMove? && !Before(p, (o.row, o.col))
  {
    SearchAnswersLead(g, r, c);
    SearchAnswersFirst(g, r, c);
  }

  /** The hint of verifieResolubilite is the first free cell, in row-major
      order, whose occupation leaves a solvable board; it keeps the board legal.
      An Unsolvable answer on a legal, incomplete board means no free cell leads
      to a solution. */
  lemma SolveHint(g: Grid)
    requires Square(g)
    ensures Solve(g).NextMove? ==>
      var m := (Solve(g).row, Solve(g).col);
      && m in FreeCells(g)
      && Solve(Toggle(g, m.0, m.1)) != Unsolvable
      && IsValid(Toggle(g, m.0, m.1))
      && forall p :: p in FreeCells(g) && Before(p, m) ==> !Leads(g, p)
    ensures Solve(g) == Unsolvable && IsValid(g) && CountAll(g) != |g| ==>
      forall p :: p in FreeCells(g) ==> !Leads(g, p)
  {
    SearchFindsFirst(g, 0, 0);
  }

  /** s is a complete solution extending g: it keeps all of g's queens, is
      legal, and holds N queens. */
  predicate IsCompletion(g: Grid, s: Grid)
    requires Square(g)
  {
    Square(s) && |s| == |g| && Queens(g) <= Queens(s) && IsValid(s) && CountAll(s) == |s|
  }

  /** The placement g can still be completed to an N-queens solution. */
  ghost predicate Extendable(g: Grid)
    requires Square(g)
  {
    exists s :: IsCompletion(g, s)
  }

  /** Whatever the search answers positively can indeed be completed. */
  lemma {:induction false} SolveSound(g: Grid)
    requires Square(g) && Solve(g) != Unsolvable
    ensures Extendable(g)
    decreases FreeCells(g)
  {
    if Solve(g) == AlreadyComplete {
      assert IsCompletion(g, g);
    } else {
      var m := Solve(g);
      SearchFindsFirst(g, 0, 0);
      ToggleQueens(g, m.row, m.col);
      var h := Toggle(g, m.row, m.col);
      SolveSound(h);
      var s :| IsCompletion(h, s);
      assert IsCompletion(g, s);
    }
  }

  /** A free cell at or after (r, c) whose occupation leaves a solvable board
      makes the search from (r, c) answer a move. */
  lemma SearchComplete(g: Grid, r: nat, c: nat, p: Cell)
    requires Square(g) && r <= |g| && c <= |g|
    requires p in FreeCells(g) && !Before(p, (r, c))
    requires Solve(Toggle(g, p.0, p.1)) != Unsolvable
    ensures Search(g, r, c).NextMove?
  {
    SearchFindsFirst(g, r, c);
  }

  /** Occupying a cell that a completion occupies keeps that completion. */
  lemma CompletionStep(g: Grid, s: Grid, p: Cell)
    requires Square(g) && IsCompletion(g, s)
    requires p in Queens(s) && p !in Queens(g)
    ensures p in FreeCells(g)
    ensures IsCompletion(Toggle(g, p.0, p.1), s)
  {
  }

  /** Every placement that can be completed is found solvable by the search. */
  lemma {:induction false} SolveComplete(g: Grid)
    requires Square(g) && Extendable(g)
    ensures Solve(g) != Unsolvable
    decreases FreeCells(g)
  {
    var s :| IsCompletion(g, s);
    NonAttackingSubset(g, s);
    if CountAll(g) != |g| {
      ValidHasAtMostNQueens(g);
      var p := Missing(Queens(g), Queens(s));
      CompletionStep(g, s, p);
      var h := Toggle(g, p.0, p.1);
      ToggleQueens(g, p.0, p.1);
      SolveComplete(h);
      SearchComplete(g, 0, 0, p);
    }
  }

  /** verifieResolubilite answers true exactly when the placement can be
      completed to an N-queens solution. */
  lemma SolveCorrect(g: Grid)
    requires Square(g)
    ensures Solve(g) != Unsolvable <==> Extendable(g)
  {
    if Solve(g) != Unsolvable {
      SolveSound(g);
    }
    if Extendable(g) {
      SolveComplete(g);
    }
  }

  /** Any two distinct cells of a 2×2 board attack each other, so no placement
      on it is solvable. */
  lemma TwoByTwoUnsolvable(g: Grid)
    requires Square(g) && |g| == 2
    ensures Solve(g) == Unsolvable
  {
    if Solve(g) != Unsolvable {
      SolveSound(g);
      var s :| IsCompletion(g, s);
      var q := Queens(s);
      var p1 :| p1 in q;
      var p2 := OtherMember(q, p1);
      assert Attacks(p1, p2);
      assert false;
    }
  }

  /** On a 1×1 board the empty placement is answered with the move (0, 0),
      after which the board is complete. */
  lemma OneByOne()
    ensures Solve(Empty(1)) == NextMove(0, 0)
    ensures Solve(Toggle(Empty(1), 0, 0)) == AlreadyComplete
  {
  }

  /** Among three distinct cells of a 3×3 board two attack each other. */
  lemma ThreeCellsAttack(p1: Cell, p2: Cell, p3: Cell)
    requires InBoard(3, p1) && InBoard(3, p2) && InBoard(3, p3)
    requires p1 != p2 && p1 != p3 && p2 != p3
    ensures Attacks(p1, p2) || Attacks(p1, p3) || Attacks(p2, p3)
  {
  }

  /** No placement on a 3×3 board is solvable. */
  lemma ThreeByThreeUnsolvable(g: Grid)
    requires Square(g) && |g| == 3
    ensures Solve(g) == Unsolvable
  {
    if Solve(g) != Unsolvable {
      SolveSound(g);
      var s :| IsCompletion(g, s);
      var q := Queens(s);
      var p1 :| p1 in q;
      var p2 := OtherMember(q, p1);
      assert |q - {p1} - {p2}| == 1;
      var p3 :| p3 in q - {p1} - {p2};
      ThreeCellsAttack(p1, p2, p3);
      assert false;
    }
  }

  /** A solution of the 4×4 board: queens on (0, 1), (1, 3), (2, 0) and (3, 2). */
  lemma FourQueens() returns (s: Grid)
    ensures Square(s) && |s| == 4
    ensures Queens(s) == {(0, 1), (1, 3), (2, 0), (3, 2)}
  {
    var e := Empty(4);
    var s1 := Toggle(e, 0, 1);
    ToggleQueens(e, 0, 1);
    var s2 := Toggle(s1, 1, 3);
    ToggleQueens(s1, 1, 3);
    var s3 := Toggle(s2, 2, 0);
    ToggleQueens(s2, 2, 0);
    s := Toggle(s3, 3, 2);
    ToggleQueens(s3, 3, 2);
  }

  /** The four queens of the 4×4 solution are distinct and pairwise safe. */
  lemma FourQueensSafe(q: set<Cell>)
    requires q == {(0, 1), (1, 3), (2, 0), (3, 2)}
    ensures |q| == 4
    ensures forall p, p' :: p in q && p' in q && p != p' ==> !Attacks(p, p')
  {
  }

  /** The empty 4×4 board is answered with a move, since it extends to a solution. */
  lemma FourByFourSolvable()
    ensures Solve(Empty(4)).NextMove?
  {
    var s := FourQueens();
    FourQueensSafe(Queens(s));
    assert NonAttacking(s);
    EmptyIsValid(4);
    assert IsCompletion(Empty(4), s);
    SolveComplete(Empty(4));
  }
}
