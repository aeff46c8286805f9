/** Dense 2-D numeric grids as the driver handles them with numpy: the
    interior slice `g[1:-1, 1:-1]`, element-wise scaling, and the bulk
    assignment `buffer[...] = values` into a region-shaped buffer. */
module Grids {

  /** A grid is a sequence of rows. */
  type Grid = seq<seq<real>>

  /** `g` has exactly `rows` rows of `cols` values each. */
  predicate IsMatrix(g: Grid, rows: int, cols: int) {
    |g| == rows && forall i :: 0 <= i < |g| ==> |g[i]| == cols
  }

  /** `a` and `b` have the same number of rows, and row by row the same length. */
  predicate SameShape(a: Grid, b: Grid) {
    |a| == |b| && forall i :: 0 <= i < |a| ==> |a[i]| == |b[i]|
  }

  /** Length of the Python slice `x[1:-1]` of a sequence of length `n`:
      two shorter, and empty once `n` is below two. */
  function InnerLength(n: nat): nat
  {
    if n >= 2 then n - 2 else 0
  }

  /** The Python slice `row[1:-1]`. */
  function InnerRow(row: seq<real>): (r: seq<real>)
    ensures |r| == InnerLength(|row|)
    ensures forall j :: 0 <= j < |r| ==> r[j] == row[j + 1]
  {
    if |row| >= 2 then row[1..|row| - 1] else []
  }

  /** numpy's `g[1:-1, 1:-1]`: the grid without its outermost ring of cells. */
  function Interior(g: Grid): (r: Grid)
    ensures |r| == InnerLength(|g|)
    ensures forall i :: 0 <= i < |r| ==>
      |r[i]| == InnerLength(|g[i + 1]|) &&
      forall j :: 0 <= j < |r[i]| ==> r[i][j] == g[i + 1][j + 1]
  {
    seq(InnerLength(|g|), i requires 0 <= i < InnerLength(|g|) => InnerRow(g[i + 1]))
  }

  /** On a rows x cols matrix the interior is a (rows-2) x (cols-2) matrix,
      and its cell (i, j) is the input's cell (i+1, j+1). */
  lemma InteriorOfMatrix(g: Grid, rows: nat, cols: nat)
    requires IsMatrix(g, rows, cols)
    requires rows >= 2 && cols >= 2
    ensures IsMatrix(Interior(g), rows - 2, cols - 2)
    ensures forall i, j :: 0 <= i < rows - 2 && 0 <= j < cols - 2 ==> Interior(g)[i][j] == g[i + 1][j + 1]
  {
    var r := Interior(g);
    forall i | 0 <= i < |r| ensures |r[i]| == cols - 2 {
      assert |g[i + 1]| == cols;
    }
  }

  /** numpy's `g * k`: every cell multiplied by `k`, the shape kept. */
  function Scaled(g: Grid, k: real): (r: Grid)
    ensures SameShape(r, g)
    ensures forall i, j :: 0 <= i < |r| && 0 <= j < |r[i]| ==> r[i][j] == k * g[i][j]
  {
    seq(|g|, i requires 0 <= i < |g| => seq(|g[i]|, j requires 0 <= j < |g[i]| => k * g[i][j]))
  }

  /** The values held by a 2-D buffer, row by row. */
  function Values(a: array2<real>): (r: Grid)
    reads a
    ensures IsMatrix(r, a.Length0, a.Length1)
    ensures forall i, j :: 0 <= i < a.Length0 && 0 <= j < a.Length1 ==> r[i][j] == a[i, j]
  {
    seq(a.Length0, i requires 0 <= i < a.Length0 reads a =>
      seq(a.Length1, j requires 0 <= j < a.Length1 reads a => a[i, j]))
  }

  /** Two matrices of one shape that agree cell by cell are equal. */
  lemma {:induction false} MatrixExtensionality(a: Grid, b: Grid, rows: nat, cols: nat)
    requires IsMatrix(a, rows, cols) && IsMatrix(b, rows, cols)
    requires forall i, j :: 0 <= i < rows && 0 <= j < cols ==> a[i][j] == b[i][j]
    ensures a == b
  {
    forall i | 0 <= i < rows ensures a[i] == b[i] {
      assert |a[i]| == cols && |b[i]| == cols;
      forall j | 0 <= j < cols ensures a[i][j] == b[i][j] {
      }
    }
  }

  /** numpy's `buffer[...] = values` with a right-hand side of exactly the
      buffer's shape: every cell of the buffer is overwritten. */
  method AssignAll(buffer: array2<real>, values: Grid)
    requires IsMatrix(values, buffer.Length0, buffer.Length1)
    modifies buffer
    ensures Values(buffer) == values
  {
    forall i, j | 0 <= i < buffer.Length0 && 0 <= j < buffer.Length1 {
      buffer[i, j] := values[i][j];
    }
    MatrixExtensionality(Values(buffer), values, buffer.Length0, buffer.Length1);
  }
}
