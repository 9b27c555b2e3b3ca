/** The legality check of a placement: every row, column, diagonal and
    anti-diagonal holds at most one queen, which is the same as no two
    queens attacking each other. */
module Configuration {
  import opened Board
  import opened Lines
  import opened Sets

  /** Two cells share a row, a column, a diagonal or an anti-diagonal. */
  predicate Attacks(p: Cell, q: Cell) {
    p.0 == q.0 || p.1 == q.1 || p.1 - p.0 == q.1 - q.0 || p.0 + p.1 == q.0 + q.1
  }

  /** No two distinct queens attack each other. */
  predicate NonAttacking(g: Grid)
    requires Square(g)
  {
    forall p, q :: p in Queens(g) && q in Queens(g) && p != q ==> !Attacks(p, q)
  }

  /** verifieLignes. */
  predicate RowsOk(g: Grid)
    requires Square(g)
  {
    forall r :: 0 <= r < |g| ==> CountLine(g, Row(r)) <= 1
  }

  /** verifieColonnes. */
  predicate ColumnsOk(g: Grid)
    requires Square(g)
  {
    forall c :: 0 <= c < |g| ==> CountLine(g, Column(c)) <= 1
  }

  /** verifieDiagonales: the one-cell diagonals 1-N and N-1 are not examined. */
  predicate DiagonalsOk(g: Grid)
    requires Square(g)
  {
    forall k :: 2 - |g| <= k < |g| - 1 ==> CountLine(g, Diagonal(k)) <= 1
  }

  /** verifieAntidiagonales: the one-cell anti-diagonals 1-N and N-1 are not examined. */
  predicate AntiDiagonalsOk(g: Grid)
    requires Square(g)
  {
    forall k :: 2 - |g| <= k < |g| - 1 ==> CountLine(g, AntiDiagonal(k)) <= 1
  }

  /** Every line of the board, the skipped diagonals included, holds at most one queen. */
  ghost predicate AllLinesAtMostOne(g: Grid)
    requires Square(g)
  {
    forall l :: IsLine(|g|, l) ==> CountLine(g, l) <= 1
  }

  /** A line holds at most one queen exactly when any two queens on it coincide. */
  lemma AtMostOneOnLine(g: Grid, l: Line)
    requires Square(g) && Addressable(|g|, l)
    ensures CountLine(g, l) <= 1 <==> forall p, q :: p in LineQueens(g, l) && q in LineQueens(g, l) ==> p == q
  {
    var s := LineQueens(g, l);
    if |s| > 1 {
      var p :| p in s;
      assert |s - {p}| > 0;
      var q :| q in s - {p};
    } else {
      forall p, q | p in s && q in s ensures p == q {
        if p != q {
          TwoMembers(s, p, q);
        }
      }
    }
  }

  /** Two queens on a line that holds at most one queen are the same queen. */
  lemma SameLine(g: Grid, l: Line, p: Cell, q: Cell)
    requires Square(g) && Addressable(|g|, l) && CountLine(g, l) <= 1
    requires p in Queens(g) && q in Queens(g) && OnLine(|g|, l, p) && OnLine(|g|, l, q)
    ensures p == q
  {
    AtMostOneOnLine(g, l);
    assert p in LineQueens(g, l) && q in LineQueens(g, l);
  }

  /** verifieLignes passes exactly when no two distinct queens share a row. */
  lemma RowsOkMeaning(g: Grid)
    requires Square(g)
    ensures RowsOk(g) <==> forall p, q :: p in Queens(g) && q in Queens(g) && p.0 == q.0 ==> p == q
  {
    if RowsOk(g) {
      forall p, q | p in Queens(g) && q in Queens(g) && p.0 == q.0 ensures p == q {
        SameLine(g, Row(p.0), p, q);
      }
    }
    if forall p, q :: p in Queens(g) && q in Queens(g) && p.0 == q.0 ==> p == q {
      forall r | 0 <= r < |g| ensures CountLine(g, Row(r)) <= 1 {
        AtMostOneOnLine(g, Row(r));
      }
    }
  }

  /** verifieColonnes passes exactly when no two distinct queens share a column. */
  lemma ColumnsOkMeaning(g: Grid)
    requires Square(g)
    ensures ColumnsOk(g) <==> forall p, q :: p in Queens(g) && q in Queens(g) && p.1 == q.1 ==> p == q
  {
    if ColumnsOk(g) {
      forall p, q | p in Queens(g) && q in Queens(g) && p.1 == q.1 ensures p == q {
        SameLine(g, Column(p.1), p, q);
      }
    }
    if forall p, q :: p in Queens(g) && q in Queens(g) && p.1 == q.1 ==> p == q {
      forall c | 0 <= c < |g| ensures CountLine(g, Column(c)) <= 1 {
        AtMostOneOnLine(g, Column(c));
      }
    }
  }

  /** When verifieDiagonales passes, no two distinct queens share a diagonal,
      the skipped one-cell diagonals included. */
  lemma DiagonalsOkPairwise(g: Grid)
    requires Square(g) && DiagonalsOk(g)
    ensures forall p, q :: p in Queens(g) && q in Queens(g) && p.1 - p.0 == q.1 - q.0 ==> p == q
  {
    SkippedDiagonalsAreSafe(g);
    forall p, q | p in Queens(g) && q in Queens(g) && p.1 - p.0 == q.1 - q.0 ensures p == q {
      var k := p.1 - p.0;
      assert InBoard(|g|, p);
      assert CountLine(g, Diagonal(k)) <= 1;
      SameLine(g, Diagonal(k), p, q);
    }
  }

  /** When no two distinct queens share a diagonal, verifieDiagonales passes. */
  lemma PairwiseDiagonalsOk(g: Grid)
    requires Square(g)
    requires forall p, q :: p in Queens(g) && q in Queens(g) && p.1 - p.0 == q.1 - q.0 ==> p == q
    ensures DiagonalsOk(g)
  {
    forall k | 2 - |g| <= k < |g| - 1 ensures CountLine(g, Diagonal(k)) <= 1 {
      AtMostOneOnLine(g, Diagonal(k));
    }
  }

  /** verifieDiagonales passes exactly when no two distinct queens share a
      diagonal (the same column - row). */
  lemma DiagonalsOkMeaning(g: Grid)
    requires Square(g)
    ensures DiagonalsOk(g) <==>
      forall p, q :: p in Queens(g) && q in Queens(g) && p.1 - p.0 == q.1 - q.0 ==> p == q
  {
    if DiagonalsOk(g) {
      DiagonalsOkPairwise(g);
    }
    if forall p, q :: p in Queens(g) && q in Queens(g) && p.1 - p.0 == q.1 - q.0 ==> p == q {
      PairwiseDiagonalsOk(g);
    }
  }

  /** When verifieAntidiagonales passes, no two distinct queens share an
      anti-diagonal, the skipped one-cell anti-diagonals included. */
  lemma AntiDiagonalsOkPairwise(g: Grid)
    requires Square(g) && AntiDiagonalsOk(g)
    ensures forall p, q :: p in Queens(g) && q in Queens(g) && p.0 + p.1 == q.0 + q.1 ==> p == q
  {
    SkippedDiagonalsAreSafe(g);
    forall p, q | p in Queens(g) && q in Queens(g) && p.0 + p.1 == q.0 + q.1 ensures p == q {
      var k := p.0 + p.1 - (|g| - 1);
      assert InBoard(|g|, p);
      assert CountLine(g, AntiDiagonal(k)) <= 1;
      SameLine(g, AntiDiagonal(k), p, q);
    }
  }

  /** When no two distinct queens share an anti-diagonal, verifieAntidiagonales passes. */
  lemma PairwiseAntiDiagonalsOk(g: Grid)
    requires Square(g)
    requires forall p, q :: p in Queens(g) && q in Queens(g) && p.0 + p.1 == q.0 + q.1 ==> p == q
    ensures AntiDiagonalsOk(g)
  {
    forall k | 2 - |g| <= k < |g| - 1 ensures CountLine(g, AntiDiagonal(k)) <= 1 {
      AtMostOneOnLine(g, AntiDiagonal(k));
    }
  }

  /** verifieAntidiagonales passes exactly when no two distinct queens share an
      anti-diagonal (the same row + column). */
  lemma AntiDiagonalsOkMeaning(g: Grid)
    requires Square(g)
    ensures AntiDiagonalsOk(g) <==>
      forall p, q :: p in Queens(g) && q in Queens(g) && p.0 + p.1 == q.0 + q.1 ==> p == q
  {
    if AntiDiagonalsOk(g) {
      AntiDiagonalsOkPairwise(g);
    }
    if forall p, q :: p in Queens(g) && q in Queens(g) && p.0 + p.1 == q.0 + q.1 ==> p == q {
      PairwiseAntiDiagonalsOk(g);
    }
  }

  /** The diagonals and anti-diagonals of index 1-N and N-1 hold a single cell. */
  lemma ExtremeDiagonalsHoldOneCell(g: Grid, k: int)
    requires Square(g) && |g| > 0 && (k == 1 - |g| || k == |g| - 1)
    ensures CountLine(g, Diagonal(k)) <= 1
    ensures CountLine(g, AntiDiagonal(k)) <= 1
  {
  }

  /** Skipping the indices 1-N and N-1 loses nothing: the checks over
      2-N <= k < N-1 agree with checks over every -N < k < N. */
  lemma SkippedDiagonalsAreSafe(g: Grid)
    requires Square(g)
    ensures DiagonalsOk(g) <==> forall k :: -|g| < k < |g| ==> CountLine(g, Diagonal(k)) <= 1
    ensures AntiDiagonalsOk(g) <==> forall k :: -|g| < k < |g| ==> CountLine(g, AntiDiagonal(k)) <= 1
  {
  }

  /** The four family checks, skipped diagonals included, cover every line. */
  lemma FamiliesCoverAllLines(g: Grid)
    requires Square(g) && RowsOk(g) && ColumnsOk(g) && DiagonalsOk(g) && AntiDiagonalsOk(g)
    ensures AllLinesAtMostOne(g)
  {
    SkippedDiagonalsAreSafe(g);
    forall l | IsLine(|g|, l) ensures CountLine(g, l) <= 1 {
      // One case per family, so that each line meets the check that covers it.
      match l
      case Row(r) =>
      case Column(c) =>
      case Diagonal(k) =>
      case AntiDiagonal(k) =>
    }
  }

  /** Two attacking queens lie on a common line of the board. */
  lemma SharedLine(g: Grid, p: Cell, q: Cell) returns (l: Line)
    requires Square(g) && p in Queens(g) && q in Queens(g) && Attacks(p, q)
    ensures IsLine(|g|, l) && p in LineQueens(g, l) && q in LineQueens(g, l)
  {
    var n := |g|;
    l :=
      if p.0 == q.0 then Row(p.0)
      else if p.1 == q.1 then Column(p.1)
      else if p.1 - p.0 == q.1 - q.0 then Diagonal(p.1 - p.0)
      else AntiDiagonal(p.0 + p.1 - (n - 1));
  }

  /** When every line holds at most one queen, no two queens attack. */
  lemma AllLinesNonAttacking(g: Grid)
    requires Square(g) && AllLinesAtMostOne(g)
    ensures NonAttacking(g)
  {
    forall p, q | p in Queens(g) && q in Queens(g) && Attacks(p, q) ensures p == q {
      var l := SharedLine(g, p, q);
      AtMostOneOnLine(g, l);
    }
  }

  /** When no two queens attack, every line holds at most one queen. */
  lemma NonAttackingAllLines(g: Grid)
    requires Square(g) && NonAttacking(g)
    ensures AllLinesAtMostOne(g)
  {
    forall l | IsLine(|g|, l) ensures CountLine(g, l) <= 1 {
      AtMostOneOnLine(g, l);
      forall p, q | p in LineQueens(g, l) && q in LineQueens(g, l) ensures p == q {
        assert p != q ==> Attacks(p, q);
      }
    }
  }

  /** The four families together say the same as the line-by-line and the
      pairwise statements. */
  lemma FamiliesCharacterisation(g: Grid)
    requires Square(g)
    ensures RowsOk(g) && ColumnsOk(g) && DiagonalsOk(g) && AntiDiagonalsOk(g) <==> AllLinesAtMostOne(g)
    ensures AllLinesAtMostOne(g) <==> NonAttacking(g)
  {
    if RowsOk(g) && ColumnsOk(g) && DiagonalsOk(g) && AntiDiagonalsOk(g) {
      FamiliesCoverAllLines(g);
    }
    if AllLinesAtMostOne(g) {
      AllLinesNonAttacking(g);
    }
    if NonAttacking(g) {
      NonAttackingAllLines(g);
    }
  }

  /** verifieConfiguration: the conjunction of the four checks.  It holds
      exactly when no two queens attack each other, and exactly when every
      line of the board holds at most one queen. */
  predicate IsValid(g: Grid)
    requires Square(g)
    ensures IsValid(g) <==> NonAttacking(g)
    ensures IsValid(g) <==> AllLinesAtMostOne(g)
  {
    FamiliesCharacterisation(g);
    RowsOk(g) && ColumnsOk(g) && DiagonalsOk(g) && AntiDiagonalsOk(g)
  }

  /** Removing queens never creates an attack. */
  lemma NonAttackingSubset(g: Grid, h: Grid)
    requires Square(g) && Square(h) && |g| == |h|
    requires Queens(g) <= Queens(h) && NonAttacking(h)
    ensures NonAttacking(g)
  {
  }

  /** The rows of a legal board hold at most one queen each, so at most N in all. */
  lemma {:induction false} SumRowsOfValid(g: Grid, m: nat)
    requires Square(g) && m <= |g| && IsValid(g)
    ensures SumRows(g, m) <= m
  {
    if m > 0 {
      SumRowsOfValid(g, m - 1);
      assert CountLine(g, Row(m - 1)) <= 1;
    }
  }

  /** A legal board holds at most N queens. */
  lemma ValidHasAtMostNQueens(g: Grid)
    requires Square(g) && IsValid(g)
    ensures CountAll(g) <= |g|
  {
    SumRowsOfValid(g, |g|);
  }

  /** A fresh board holds no queen and is legal. */
  lemma EmptyIsValid(n: nat)
    ensures IsValid(Empty(n)) && CountAll(Empty(n)) == 0
  {
  }
}
