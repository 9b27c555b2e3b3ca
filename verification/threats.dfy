/** Which queens are shown as threatening when a placement is illegal: each
    occupied cell is freed on its own, the board is checked, and the cell is
    occupied again.  A queen is marked when freeing it alone makes the board
    legal. */
module Threats {
  import opened Board
  import opened Configuration
  import opened Sets

  /** afficheThreateningQueens, without the colouring: the queens whose
      single removal makes the board legal. */
  function ThreateningQueens(g: Grid): (t: set<Cell>)
    requires Square(g)
    ensures t <= Queens(g)
  {
    set p | p in Queens(g) && IsValid(Toggle(g, p.0, p.1))
  }

  /** Two distinct queens attacking each other. */
  predicate Conflict(g: Grid, u: Cell, v: Cell)
    requires Square(g)
  {
    u in Queens(g) && v in Queens(g) && u != v && Attacks(u, v)
  }

  /** An illegal board holds two queens in conflict. */
  lemma SomeConflict(g: Grid) returns (u: Cell, v: Cell)
    requires Square(g) && !IsValid(g)
    ensures Conflict(g, u, v)
  {
    assert !NonAttacking(g);
    u, v :| u in Queens(g) && v in Queens(g) && u != v && Attacks(u, v);
  }

  /** Freeing a queen of a legal board leaves it legal, so on a legal board
      every queen would be marked. */
  lemma ValidMarksEveryQueen(g: Grid)
    requires Square(g) && IsValid(g)
    ensures ThreateningQueens(g) == Queens(g)
  {
  }

  /** On an illegal board a marked queen takes part in every conflict. */
  lemma MarkedQueenInEveryConflict(g: Grid, p: Cell, u: Cell, v: Cell)
    requires Square(g) && p in ThreateningQueens(g) && Conflict(g, u, v)
    ensures p == u || p == v
  {
  }

  /** Conversely, a queen that takes part in every conflict is marked: freeing
      it leaves no two queens attacking each other. */
  lemma QueenInEveryConflictIsMarked(g: Grid, p: Cell)
    requires Square(g) && p in Queens(g)
    requires forall u, v :: Conflict(g, u, v) ==> p == u || p == v
    ensures p in ThreateningQueens(g)
  {
    var h := Toggle(g, p.0, p.1);
    ToggleQueens(g, p.0, p.1);
    forall a, b | a in Queens(h) && b in Queens(h) && a != b ensures !Attacks(a, b) {
      assert a != p && b != p && a in Queens(g) && b in Queens(g);
      assert !Conflict(g, a, b);
    }
    assert NonAttacking(h);
  }

  /** The marked queens are exactly the queens that take part in every
      conflict of the board. */
  lemma MarkedExactly(g: Grid, p: Cell)
    requires Square(g)
    ensures p in ThreateningQueens(g) <==>
      p in Queens(g) && forall u, v :: Conflict(g, u, v) ==> p == u || p == v
  {
    if p in ThreateningQueens(g) {
      forall u, v | Conflict(g, u, v) ensures p == u || p == v {
        MarkedQueenInEveryConflict(g, p, u, v);
      }
    }
    if p in Queens(g) && forall u, v :: Conflict(g, u, v) ==> p == u || p == v {
      QueenInEveryConflictIsMarked(g, p);
    }
  }

  /** A board whose only conflict is the pair u, v has exactly u and v marked:
      the case the marking is designed for. */
  lemma SingleConflictMarksBoth(g: Grid, u: Cell, v: Cell)
    requires Square(g) && Conflict(g, u, v)
    requires forall a, b :: Conflict(g, a, b) ==> (a == u && b == v) || (a == v && b == u)
    ensures ThreateningQueens(g) == {u, v}
  {
    QueenInEveryConflictIsMarked(g, u);
    QueenInEveryConflictIsMarked(g, v);
    forall p | p in ThreateningQueens(g) ensures p in {u, v} {
      MarkedQueenInEveryConflict(g, p, u, v);
    }
  }

  /** On an illegal board every marked queen attacks another queen. */
  lemma MarkedQueensAreInConflict(g: Grid)
    requires Square(g) && !IsValid(g)
    ensures forall p :: p in ThreateningQueens(g) ==> exists q :: Conflict(g, p, q)
  {
    var u, v := SomeConflict(g);
    forall p | p in ThreateningQueens(g) ensures exists q :: Conflict(g, p, q) {
      MarkedQueenInEveryConflict(g, p, u, v);
      if p == u {
        assert Conflict(g, p, v);
      } else {
        assert Conflict(g, p, u);
      }
    }
  }

  /** On an illegal board at most two queens are marked, and when two are
      marked they form the board's only conflict: the attribution works for a
      single attacking pair only. */
  lemma AtMostTwoMarked(g: Grid)
    requires Square(g) && !IsValid(g)
    ensures |ThreateningQueens(g)| <= 2
    ensures forall p, q :: p in ThreateningQueens(g) && q in ThreateningQueens(g) && p != q ==>
      Conflict(g, p, q) && forall u, v :: Conflict(g, u, v) ==> (u == p && v == q) || (u == q && v == p)
  {
    var t := ThreateningQueens(g);
    var u, v := SomeConflict(g);
    forall p | p in t ensures p in {u, v} {
      MarkedQueenInEveryConflict(g, p, u, v);
    }
    assert t <= {u, v};
    SubsetOfPair(t, u, v);
    forall p, q, u', v' | p in t && q in t && p != q && Conflict(g, u', v')
      ensures (u' == p && v' == q) || (u' == q && v' == p)
    {
      MarkedQueenInEveryConflict(g, p, u', v');
      MarkedQueenInEveryConflict(g, q, u', v');
    }
    forall p, q | p in t && q in t && p != q ensures Conflict(g, p, q) {
      MarkedQueenInEveryConflict(g, p, u, v);
      MarkedQueenInEveryConflict(g, q, u, v);
      assert Attacks(v, u);
    }
  }

  /** The documented limitation: three queens that attack one another pairwise
      make the board illegal, yet no queen is marked, since freeing any one
      leaves the other two in conflict. */
  lemma MutualTriangleMarksNothing(g: Grid, p: Cell, q: Cell, r: Cell)
    requires Square(g) && Conflict(g, p, q) && Conflict(g, q, r) && Conflict(g, p, r)
    ensures !IsValid(g)
    ensures ThreateningQueens(g) == {}
  {
  }
}
