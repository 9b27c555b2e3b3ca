/** Lines of the board and the queen counters that walk them: a row, a column,
    a diagonal of index k (the cells (i, i+k)) and an anti-diagonal of index k
    (the cells (N-1-i, i+k)). */
module Lines {
  import opened Board

  datatype Line = Row(r: int) | Column(c: int) | Diagonal(k: int) | AntiDiagonal(k: int)

  /** p lies on line l of an n×n board.  Along a diagonal column - row is k;
      along an anti-diagonal row + column is n - 1 + k. */
  predicate OnLine(n: int, l: Line, p: Cell) {
    match l
    case Row(r) => p.0 == r
    case Column(c) => p.1 == c
    case Diagonal(k) => p.1 - p.0 == k
    case AntiDiagonal(k) => p.0 + p.1 == n - 1 + k
  }

  /** The lines the counters may be asked about: a row or column must exist
      (indexing outside the board fails), any diagonal index is accepted. */
  predicate Addressable(n: int, l: Line) {
    match l
    case Row(r) => 0 <= r < n
    case Column(c) => 0 <= c < n
    case _ => true
  }

  /** The lines of an n×n board: the documented diagonal indices are -n < k < n. */
  predicate IsLine(n: int, l: Line) {
    match l
    case Row(r) => 0 <= r < n
    case Column(c) => 0 <= c < n
    case Diagonal(k) => -n < k < n
    case AntiDiagonal(k) => -n < k < n
  }

  predicate Distinct(cs: seq<Cell>) {
    forall i, j :: 0 <= i < j < |cs| ==> cs[i] != cs[j]
  }

  /** Both i and i + k are row or column indices of an n×n board. */
  predicate Along(n: int, k: int, i: int) {
    0 <= i < n && 0 <= i + k < n
  }

  /** The [min, max) range of the diagonal counters: exactly the i for which
      i and i + k are both coordinates (and so is n - 1 - i). */
  function DiagonalRange(n: int, k: int): (range: (int, int))
    ensures forall i :: range.0 <= i < range.1 <==> Along(n, k, i)
    ensures 0 <= range.0 && range.1 <= n
    ensures -n < k < n ==> range.0 < range.1
  {
    if k < 0 then (-k, n) else (0, n - k)
  }

  /** The cells a counter visits along l, in the order it visits them. */
  function Cells(n: nat, l: Line): (cs: seq<Cell>)
    requires Addressable(n, l)
    ensures forall j :: 0 <= j < |cs| ==> InBoard(n, cs[j]) && OnLine(n, l, cs[j])
    ensures Distinct(cs)
  {
    match l
    case Row(r) => seq(n, x => (r, x))
    case Column(c) => seq(n, y => (y, c))
    case Diagonal(k) =>
      var (lo, hi) := DiagonalRange(n, k);
      if lo < hi then seq(hi - lo, j => (lo + j, lo + j + k)) else []
    case AntiDiagonal(k) =>
      var (lo, hi) := DiagonalRange(n, k);
      if lo < hi then seq(hi - lo, j => (n - 1 - (lo + j), lo + j + k)) else []
  }

  /** Every cell of the board on line l is visited. */
  lemma CellsCover(n: nat, l: Line, p: Cell)
    requires Addressable(n, l) && InBoard(n, p) && OnLine(n, l, p)
    ensures p in Cells(n, l)
  {
    var cs := Cells(n, l);
    match l
    case Row(r) => assert cs[p.1] == p;
    case Column(c) => assert cs[p.0] == p;
    case Diagonal(k) =>
      var (lo, hi) := DiagonalRange(n, k);
      assert cs[p.0 - lo] == p;
    case AntiDiagonal(k) =>
      var (lo, hi) := DiagonalRange(n, k);
      assert cs[n - 1 - p.0 - lo] == p;
  }

  /** The number of occupied cells among cs. */
  function CountOn(g: Grid, cs: seq<Cell>): (count: nat)
    requires Square(g)
    requires forall j :: 0 <= j < |cs| ==> InBoard(|g|, cs[j])
    ensures count <= |cs|
  {
    if cs == [] then 0
    else
      var x := cs[0];
      assert InBoard(|g|, x) && |g[x.0]| == |g|;
      (if g[x.0][x.1] then 1 else 0) + CountOn(g, cs[1..])
  }

  /** Counting one more visited cell adds its occupancy, as the loops do. */
  lemma {:induction false} CountOnSnoc(g: Grid, cs: seq<Cell>, p: Cell)
    requires Square(g) && InBoard(|g|, p)
    requires forall j :: 0 <= j < |cs| ==> InBoard(|g|, cs[j])
    ensures CountOn(g, cs + [p]) == CountOn(g, cs) + (if g[p.0][p.1] then 1 else 0)
  {
    if cs != [] {
      assert (cs + [p])[1..] == cs[1..] + [p];
      CountOnSnoc(g, cs[1..], p);
    }
  }

  /** A prefix of a list of board cells holds board cells only. */
  lemma PrefixOnBoard(n: int, cs: seq<Cell>, m: nat)
    requires m <= |cs|
    requires forall j :: 0 <= j < |cs| ==> InBoard(n, cs[j])
    ensures forall j :: 0 <= j < m ==> InBoard(n, cs[..m][j])
  {
    forall j | 0 <= j < m ensures InBoard(n, cs[..m][j]) {
      assert cs[..m][j] == cs[j];
    }
  }

  /** Over distinct cells, the count is the number of queens among them. */
  lemma {:induction false} CountIsCardinality(g: Grid, cs: seq<Cell>)
    requires Square(g) && Distinct(cs)
    requires forall j :: 0 <= j < |cs| ==> InBoard(|g|, cs[j])
    ensures CountOn(g, cs) == |set p | p in Queens(g) && p in cs|
  {
    var s := set p | p in Queens(g) && p in cs;
    if cs == [] {
      assert s == {};
    } else {
      var x := cs[0];
      var rest := cs[1..];
      CountIsCardinality(g, rest);
      var t := set p | p in Queens(g) && p in rest;
      assert x !in rest by {
        forall j | 0 <= j < |rest| ensures rest[j] != x {
          assert rest[j] == cs[j + 1];
        }
      }
      if g[x.0][x.1] {
        assert s == t + {x};
      } else {
        assert s == t;
      }
    }
  }

  /** The queens standing on line l. */
  function LineQueens(g: Grid, l: Line): set<Cell>
    requires Square(g)
  {
    set p | p in Queens(g) && OnLine(|g|, l, p)
  }

  /** compteLigne, compteColonne, compteDiagonale, compteAntidiagonale: the
      number of queens on line l. */
  function CountLine(g: Grid, l: Line): (count: nat)
    requires Square(g) && Addressable(|g|, l)
    ensures count == |LineQueens(g, l)|
  {
    var cs := Cells(|g|, l);
    CountIsCardinality(g, cs);
    assert (set p | p in Queens(g) && p in cs) == LineQueens(g, l) by {
      forall p | p in LineQueens(g, l) ensures p in cs {
        CellsCover(|g|, l, p);
      }
    }
    CountOn(g, cs)
  }

  /** compteDiagonale as written: the loop over [min, max) stays on the board
      and counts the queens of diagonal k. */
  method CountDiagonal(g: Grid, k: int) returns (nb: nat)
    requires Square(g)
    ensures nb == |LineQueens(g, Diagonal(k))|
  {
    var n := |g|;
    var min, max;
    if k < 0 {
      min, max := -k, n;
    } else {
      min, max := 0, n - k;
    }
    ghost var cs := Cells(n, Diagonal(k));
    assert (min, max) == DiagonalRange(n, k);
    nb := 0;
    var i := min;
    while i < max
      invariant min <= i && (i <= max || i == min)
      invariant i - min <= |cs|
      invariant nb == CountOn(g, cs[..i - min])
    {
      assert cs[i - min] == (i, i + k);
      assert cs[..i - min + 1] == cs[..i - min] + [(i, i + k)];
      PrefixOnBoard(n, cs, i - min);
      CountOnSnoc(g, cs[..i - min], (i, i + k));
      if g[i][i + k] {
        nb := nb + 1;
      }
      i := i + 1;
    }
    assert cs[..i - min] == cs;
    assert nb == CountLine(g, Diagonal(k));
  }

  /** compteAntidiagonale as written: the loop over [min, max) reads the cells
      (N-1-i, i+k), stays on the board and counts the queens of anti-diagonal k. */
  method CountAntiDiagonal(g: Grid, k: int) returns (nb: nat)
    requires Square(g)
    ensures nb == |LineQueens(g, AntiDiagonal(k))|
  {
    var n := |g|;
    var min, max;
    if k < 0 {
      min, max := -k, n;
    } else {
      min, max := 0, n - k;
    }
    ghost var cs := Cells(n, AntiDiagonal(k));
    assert (min, max) == DiagonalRange(n, k);
    nb := 0;
    var i := min;
    while i < max
      invariant min <= i && (i <= max || i == min)
      invariant i - min <= |cs|
      invariant nb == CountOn(g, cs[..i - min])
    {
      assert cs[i - min] == (n - 1 - i, i + k);
      assert cs[..i - min + 1] == cs[..i - min] + [(n - 1 - i, i + k)];
      PrefixOnBoard(n, cs, i - min);
      CountOnSnoc(g, cs[..i - min], (n - 1 - i, i + k));
      if g[n - 1 - i][i + k] {
        nb := nb + 1;
      }
      i := i + 1;
    }
    assert cs[..i - min] == cs;
    assert nb == CountLine(g, AntiDiagonal(k));
  }

  /** The running sum of compteToutesReines after the first m rows. */
  function SumRows(g: Grid, m: nat): nat
    requires Square(g) && m <= |g|
  {
    if m == 0 then 0 else SumRows(g, m - 1) + CountLine(g, Row(m - 1))
  }

  /** The queens in the first m rows. */
  function QueensAbove(g: Grid, m: int): set<Cell>
    requires Square(g)
  {
    set p | p in Queens(g) && p.0 < m
  }

  /** The queens of the first m rows are those of the first m - 1 rows plus
      those of row m - 1, and the two parts are disjoint. */
  lemma RowSplit(g: Grid, m: int)
    requires Square(g) && 0 < m <= |g|
    ensures QueensAbove(g, m) == QueensAbove(g, m - 1) + LineQueens(g, Row(m - 1))
    ensures QueensAbove(g, m - 1) !! LineQueens(g, Row(m - 1))
    ensures |QueensAbove(g, m)| == |QueensAbove(g, m - 1)| + CountLine(g, Row(m - 1))
  {
    var s, t, row := QueensAbove(g, m), QueensAbove(g, m - 1), LineQueens(g, Row(m - 1));
    forall p | p in s ensures p in t + row {
      if p.0 < m - 1 { assert p in t; } else { assert OnLine(|g|, Row(m - 1), p); }
    }
    forall p | p in t ensures p !in row {
      assert !OnLine(|g|, Row(m - 1), p);
    }
  }

  /** The first m rows together hold SumRows(g, m) queens. */
  lemma {:induction false} SumRowsIsCardinality(g: Grid, m: nat)
    requires Square(g) && m <= |g|
    ensures SumRows(g, m) == |QueensAbove(g, m)|
  {
    if m == 0 {
      NoQueensAboveTop(g);
    } else {
      SumRowsIsCardinality(g, m - 1);
      RowSplit(g, m);
      assert SumRows(g, m) == SumRows(g, m - 1) + CountLine(g, Row(m - 1));
    }
  }

  /** No queen stands above the first row. */
  lemma NoQueensAboveTop(g: Grid)
    requires Square(g)
    ensures QueensAbove(g, 0) == {}
  {
    assert forall p :: p in Queens(g) ==> p.0 >= 0;
  }

  /** compteToutesReines: the sum of the row counts is the number of queens. */
  function CountAll(g: Grid): (count: nat)
    requires Square(g)
    ensures count == |Queens(g)|
  {
    SumRowsIsCardinality(g, |g|);
    assert QueensAbove(g, |g|) == Queens(g);
    SumRows(g, |g|)
  }
}
