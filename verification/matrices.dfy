/** Dense weight matrices (the numpy arrays `A` and `S`), their row and column
    sums, and the boolean-mask row and column selections `A[cond, :]` and
    `A[:, cond]` used by every filtering stage.
 */
module Matrices {
  import opened IndexMapping

  function Sum(s: seq<nat>): nat
  {
    if |s| == 0 then 0 else Sum(s[..|s| - 1]) + s[|s| - 1]
  }

  /** A sum of non-negative weights is zero exactly when every weight is. */
  lemma {:induction false} SumZeroIff(s: seq<nat>)
    ensures Sum(s) == 0 <==> forall i :: 0 <= i < |s| ==> s[i] == 0
  {
    if |s| > 0 {
      var n := |s| - 1;
      SumZeroIff(s[..n]);
      assert forall i :: 0 <= i < n ==> s[..n][i] == s[i];
    }
  }

  /** The sum of a 0/1 vector counts its ones. */
  lemma {:induction false} SumZeroOne(s: seq<nat>)
    requires forall i :: 0 <= i < |s| ==> s[i] <= 1
    ensures Sum(s) == CountTrue(seq(|s|, i requires 0 <= i < |s| => s[i] == 1))
  {
    var ones := seq(|s|, i requires 0 <= i < |s| => s[i] == 1);
    if |s| > 0 {
      var n := |s| - 1;
      SumZeroOne(s[..n]);
      assert ones[..n] == seq(n, i requires 0 <= i < n => s[..n][i] == 1);
    }
  }

  /** A dense `rows x cols` matrix of non-negative weights. */
  datatype Matrix = Matrix(rows: nat, cols: nat, cells: seq<seq<nat>>)

  predicate Valid(m: Matrix)
  {
    && |m.cells| == m.rows
    && forall i :: 0 <= i < m.rows ==> |m.cells[i]| == m.cols
  }

  /** `np.zeros((rows, cols))`. */
  function Zeros(rows: nat, cols: nat): (m: Matrix)
    ensures Valid(m) && m.rows == rows && m.cols == cols
    ensures forall i, j :: 0 <= i < rows && 0 <= j < cols ==> m.cells[i][j] == 0
  {
    Matrix(rows, cols, seq(rows, _ => seq(cols, _ => 0)))
  }

  /** `m[i, j] = v`: one cell changes, every other cell keeps its value. */
  function Set(m: Matrix, i: nat, j: nat, v: nat): (r: Matrix)
    requires Valid(m) && i < m.rows && j < m.cols
    ensures Valid(r) && r.rows == m.rows && r.cols == m.cols
    ensures r.cells[i][j] == v
    ensures forall a, b :: 0 <= a < m.rows && 0 <= b < m.cols && (a, b) != (i, j) ==>
              r.cells[a][b] == m.cells[a][b]
  {
    var row: seq<nat> := m.cells[i][j := v];
    Matrix(m.rows, m.cols, m.cells[i := row])
  }

  function Column(m: Matrix, j: nat): (c: seq<nat>)
    requires Valid(m) && j < m.cols
    ensures |c| == m.rows
  {
    seq(m.rows, i requires 0 <= i < m.rows => m.cells[i][j])
  }

  /** `sum(A[i, :])` */
  function RowSum(m: Matrix, i: nat): nat
    requires Valid(m) && i < m.rows
  {
    Sum(m.cells[i])
  }

  /** `sum(A[:, j])` */
  function ColSum(m: Matrix, j: nat): nat
    requires Valid(m) && j < m.cols
  {
    Sum(Column(m, j))
  }

  /** `A[cond, :]`: keeps the rows where `cond` holds. Row `i` of the result is
      row `IdxMapping(cond)[i]` of `m`. */
  function SelectRows(m: Matrix, cond: seq<bool>): (r: Matrix)
    requires Valid(m) && |cond| == m.rows
    ensures Valid(r) && r.rows == CountTrue(cond) && r.cols == m.cols
    ensures forall i :: 0 <= i < r.rows ==> r.cells[i] == m.cells[IdxMapping(cond)[i]]
  {
    MaskSelects(m.cells, cond);
    Matrix(CountTrue(cond), m.cols, Mask(m.cells, cond))
  }

  /** `A[:, cond]`: keeps the columns where `cond` holds. Column `j` of the
      result is column `IdxMapping(cond)[j]` of `m`. */
  function SelectCols(m: Matrix, cond: seq<bool>): (r: Matrix)
    requires Valid(m) && |cond| == m.cols
    ensures Valid(r) && r.rows == m.rows && r.cols == CountTrue(cond)
    ensures forall i, j :: 0 <= i < r.rows && 0 <= j < r.cols ==>
              r.cells[i][j] == m.cells[i][IdxMapping(cond)[j]]
  {
    var cells := seq(m.rows, i requires 0 <= i < m.rows => Mask(m.cells[i], cond));
    assert forall i :: 0 <= i < m.rows ==> |cells[i]| == CountTrue(cond);
    forall i | 0 <= i < m.rows
      ensures forall j :: 0 <= j < CountTrue(cond) ==> cells[i][j] == m.cells[i][IdxMapping(cond)[j]]
    {
      MaskSelects(m.cells[i], cond);
    }
    Matrix(m.rows, CountTrue(cond), cells)
  }

  /** A row of a column selection has a positive sum exactly when the
      original row has a positive weight in some kept column. */
  lemma SelectedRowPositive(m: Matrix, cond: seq<bool>, i: nat)
    requires Valid(m) && |cond| == m.cols && i < m.rows
    ensures RowSum(SelectCols(m, cond), i) > 0 <==>
            exists j :: 0 <= j < CountTrue(cond) && m.cells[i][IdxMapping(cond)[j]] > 0
  {
    var row := SelectCols(m, cond).cells[i];
    assert |row| == CountTrue(cond);
    SumZeroIff(row);
    if Sum(row) > 0 {
      var j :| 0 <= j < |row| && row[j] != 0;
      assert m.cells[i][IdxMapping(cond)[j]] > 0;
    } else {
      forall j | 0 <= j < CountTrue(cond)
        ensures m.cells[i][IdxMapping(cond)[j]] == 0
      {
        assert row[j] == m.cells[i][IdxMapping(cond)[j]];
      }
    }
  }
}
