/** Grids counted by rows and by columns, and the digits of numbers, for the order of the answers to GetBulk. */
module Grid {
  /** The number of the cell in column j of row i, counted row by row in rows of length m. */
  function Cell(i: nat, m: nat, j: nat): nat { i * m + j }

  /** The row and the column of cell p, in rows of length m. */
  function Row(p: nat, m: nat): (r: nat)
    requires m > 0
    ensures p > 0 && m >= 2 ==> r < p
  {
    p / m
  }

  function Column(p: nat, m: nat): (r: nat)
    requires m > 0
    ensures r < m
  {
    p % m
  }

  function DigitSum(m: nat, n: nat): nat
    requires m >= 2
  {
    if n == 0 then 0 else DigitSum(m, Row(n, m)) + Column(n, m)
  }

  predicate IsPower(m: nat, n: nat)
    requires m >= 2
  {
    n == 1 || (n > 1 && Column(n, m) == 0 && IsPower(m, Row(n, m)))
  }

  // -- Cells ------------------------------------------------------------------------------------------

  lemma MulOrder(a: nat, b: nat, d: nat)
    requires a < b
    ensures a * d + d <= b * d
  {
    assert (a + 1) * d <= b * d;
  }

  lemma SameCell(i: nat, j: nat, i': nat, j': nat, m: nat)
    requires Cell(i, m, j) == Cell(i', m, j') && j < m && j' < m
    ensures i == i' && j == j'
  {
    if i < i' { MulOrder(i, i', m); }
    if i' < i { MulOrder(i', i, m); }
  }

  lemma PartsOf(p: nat, m: nat)
    requires m > 0
    ensures p == Cell(Row(p, m), m, Column(p, m))
  {
  }

  lemma CellParts(i: nat, m: nat, j: nat)
    requires j < m
    ensures Row(Cell(i, m, j), m) == i && Column(Cell(i, m, j), m) == j
  {
    hide Cell, Row, Column;
    var p := Cell(i, m, j);
    PartsOf(p, m);
    SameCell(i, j, Row(p, m), Column(p, m), m);
  }

  /** A cell lies within n rows if and only if its row is one of them. */
  lemma CellWithin(i: nat, m: nat, j: nat, n: nat)
    requires j < m
    ensures Cell(i, m, j) < Cell(n, m, 0) <==> i < n
  {
    if i < n { MulOrder(i, n, m); }
    if n < i { MulOrder(n, i, m); }
  }

  lemma RowWithin(p: nat, m: nat, n: nat)
    requires m > 0 && p < Cell(n, m, 0)
    ensures Row(p, m) < n
  {
    hide Cell, Row, Column;
    PartsOf(p, m);
    CellWithin(Row(p, m), m, Column(p, m), n);
  }

  lemma NextRow(i: nat, m: nat)
    ensures Cell(i + 1, m, 0) == Cell(i, m, 0) + m
  {
    assert (i + 1) * m == i * m + m;
  }

  lemma InRow(i: nat, m: nat, j: nat)
    ensures Cell(i, m, j) == Cell(i, m, 0) + j
  {
  }

  lemma SmallGrids(m: nat, j: nat)
    ensures Cell(0, m, j) == j && Cell(1, m, 0) == m && Cell(j, 1, 0) == j
  {
  }

  lemma Transposed(n: nat, m: nat)
    ensures Cell(n, m, 0) == Cell(m, n, 0)
  {
  }

  lemma Regrouped(j: nat, q: nat, m: nat, a: nat, b: nat)
    ensures Cell(j, Cell(q, m, 0), Cell(a, m, b)) == Cell(Cell(j, q, a), m, b)
  {
    assert j * (q * m) == (j * q) * m;
  }

  lemma MoreThanARow(n: nat, m: nat)
    requires n > 0 && m >= 2
    ensures n < Cell(n, m, 0)
  {
    assert n * m >= n * 2;
  }

  // -- Digits ----------------------------------------------------------------------------------------

  lemma LastDigit(m: nat, a: nat, b: nat)
    requires m >= 2 && b < m
    ensures DigitSum(m, Cell(a, m, b)) == DigitSum(m, a) + b
  {
    hide Cell, Row, Column;
    CellParts(a, m, b);
    if Cell(a, m, b) == 0 {
      SmallGrids(m, 0);
      SameCell(a, b, 0, 0, m);
    }
  }

  lemma SmallDigit(m: nat, j: nat)
    requires m >= 2 && j < m
    ensures DigitSum(m, j) == j
  {
    hide Cell, Row, Column;
    LastDigit(m, 0, j);
    SmallGrids(m, j);
  }

  lemma PowerStep(m: nat, n: nat)
    requires m >= 2 && IsPower(m, n) && n != 1
    ensures n == Cell(Row(n, m), m, 0) && IsPower(m, Row(n, m)) && Row(n, m) < n
  {
    hide Cell, Row, Column;
    PartsOf(n, m);
  }

  lemma {:induction false} PowerDigits(m: nat, n: nat, i: nat, j: nat)
    requires m >= 2 && IsPower(m, n) && i < n && j < m
    ensures DigitSum(m, Cell(j, n, i)) == j + DigitSum(m, i)
    decreases n
  {
    hide DigitSum, IsPower, Cell, Row, Column;
    if n == 1 {
      SmallGrids(1, j);
      SmallDigit(m, j);
      SmallDigit(m, 0);
    } else {
      var q, a, b := Row(n, m), Row(i, m), Column(i, m);
      PowerStep(m, n);
      RowWithin(i, m, q);
      PowerDigits(m, q, a, j);
      PartsOf(i, m);
      Regrouped(j, q, m, a, b);
      LastDigit(m, Cell(j, q, a), b);
      LastDigit(m, a, b);
    }
  }

  lemma {:induction false} UnitDigits(m: nat, n: nat)
    requires m >= 2 && DigitSum(m, n) <= 1
    ensures DigitSum(m, n) == 0 ==> n == 0
    ensures DigitSum(m, n) == 1 ==> IsPower(m, n)
    decreases n
  {
    hide Cell, Row, Column;
    if n > 0 {
      PartsOf(n, m);
      UnitDigits(m, Row(n, m));
      SmallGrids(m, Column(n, m));
    }
  }

  // -- Two ways of counting -----------------------------------------------------------------------------

  /** Where the rows start with k[i] and count up, the cells by rows of m and the cells by columns hold the same numbers. */
  ghost predicate CountsAgree(k: seq<int>, m: nat)
    requires k != [] && m > 0
  {
    forall p: nat | p < Cell(|k|, m, 0) ::
      Row(p, m) < |k| && k[Row(p, m)] + Column(p, m) == k[Column(p, |k|)] + Row(p, |k|)
  }

  lemma {:induction false} StartsAreDigitSums(k: seq<int>, m: nat, i: nat)
    requires k != [] && m >= 2 && CountsAgree(k, m) && i < |k|
    ensures k[i] == k[0] + DigitSum(m, i)
    decreases i
  {
    hide Cell, Row, Column;
    if i > 0 {
      MoreThanARow(|k|, m);
      SmallGrids(|k|, i);
      CellParts(0, |k|, i);
      StartsAreDigitSums(k, m, Row(i, m));
    }
  }

  lemma LengthIsPower(k: seq<int>, m: nat)
    requires k != [] && m >= 2 && CountsAgree(k, m)
    ensures IsPower(m, |k|)
  {
    hide Cell, Row, Column, IsPower;
    var n := |k|;
    MoreThanARow(n, m);
    SmallGrids(n, 0);
    CellParts(1, n, 0);
    StartsAreDigitSums(k, m, Row(n, m));
    UnitDigits(m, n);
  }

  lemma DigitSumsAgree(k: seq<int>, m: nat, p: nat)
    requires k != [] && m >= 2 && IsPower(m, |k|) && p < Cell(|k|, m, 0)
    requires forall i | 0 <= i < |k| :: k[i] == k[0] + DigitSum(m, i)
    ensures Row(p, m) < |k| && k[Row(p, m)] + Column(p, m) == k[Column(p, |k|)] + Row(p, |k|)
  {
    hide DigitSum, IsPower, Cell, Row, Column;
    var n := |k|;
    RowWithin(p, m, n);
    Transposed(n, m);
    RowWithin(p, n, m);
    PartsOf(p, m);
    PartsOf(p, n);
    PowerDigits(m, n, Column(p, n), Row(p, n));
    LastDigit(m, Row(p, m), Column(p, m));
  }

  /** They agree exactly when the number of rows is a power of m and the starts are the digit sums to base m. */
  lemma CountsAgreeExactly(k: seq<int>, m: nat)
    requires k != [] && m >= 2
    ensures CountsAgree(k, m) <==> IsPower(m, |k|) && forall i | 0 <= i < |k| :: k[i] == k[0] + DigitSum(m, i)
  {
    hide DigitSum, IsPower, Cell, Row, Column;
    if CountsAgree(k, m) {
      LengthIsPower(k, m);
      forall i | 0 <= i < |k| ensures k[i] == k[0] + DigitSum(m, i) { StartsAreDigitSums(k, m, i); }
    }
    if IsPower(m, |k|) && forall i | 0 <= i < |k| :: k[i] == k[0] + DigitSum(m, i) {
      forall p: nat | p < Cell(|k|, m, 0)
        ensures Row(p, m) < |k| && k[Row(p, m)] + Column(p, m) == k[Column(p, |k|)] + Row(p, |k|)
      {
        DigitSumsAgree(k, m, p);
      }
    }
  }
}
