/** The GIS processing region as a value, the two ways the driver sets it
    (`g.region` with and without explicit row/column counts), and the
    one-cell shrink and restore that r.flexure.py performs around the
    write-back of the solver's result. */
module Regions {

  /** Bounds (north, south, east, west), cell sizes and cell counts. */
  datatype Region = Region(n: real, s: real, e: real, w: real,
                           nsres: real, ewres: real, rows: int, cols: int)

  /** What the platform keeps true of its current region: positive cell
      sizes and counts, and bounds spanned exactly by the cells. */
  predicate Valid(r: Region) {
    r.nsres > 0.0 && r.ewres > 0.0 && r.rows >= 1 && r.cols >= 1 &&
    r.n - r.s == r.rows as real * r.nsres &&
    r.e - r.w == r.cols as real * r.ewres
  }

  /** A valid region has north above south and east beyond west. */
  lemma BoundsOrdered(r: Region)
    requires Valid(r)
    ensures r.n > r.s && r.e > r.w
  {
    ScaleBySize(0.0, r.rows as real, r.nsres);
    ScaleBySize(0.0, r.cols as real, r.ewres);
  }

  /** `g.region n= s= e= w= rows= cols=`: the counts are given and the cell
      sizes follow from bounds and counts. */
  function WithCounts(n: real, s: real, e: real, w: real, rows: int, cols: int): (r: Region)
    requires n > s && e > w && rows >= 1 && cols >= 1
    ensures Valid(r)
    ensures r.n == n && r.s == s && r.e == e && r.w == w
    ensures r.rows == rows && r.cols == cols
  {
    Region(n, s, e, w, (n - s) / rows as real, (e - w) / cols as real, rows, cols)
  }

  /** The number of cells of size `res` nearest to `extent`, and at least one:
      how the platform derives a count when only bounds are given. */
  function CellCount(extent: real, res: real): (k: int)
    requires extent > 0.0 && res > 0.0
    ensures k >= 1
  {
    var k := (extent / res + 0.5).Floor;
    if k == 0 then 1 else k
  }

  /** The count is the nearest one: the cells overshoot the extent by less
      than half a cell, and fall short of it by at most half a cell unless
      a single cell is already too big. */
  lemma CellCountNearest(extent: real, res: real)
    requires extent > 0.0 && res > 0.0
    ensures extent < (CellCount(extent, res) as real + 0.5) * res
    ensures CellCount(extent, res) == 1 || (CellCount(extent, res) as real - 0.5) * res <= extent
  {
    var x := extent / res;
    var k := (x + 0.5).Floor;
    ScaleBySize(extent, 0.0, res);
    ScaleBySize(x, k as real + 0.5, res);
    ScaleBySize(k as real - 0.5, x, res);
    ScaleBySize(k as real + 0.5, 1.5, res);
  }

  /** Multiplying by a positive cell size keeps order, and dividing by it
      undoes the multiplication. */
  lemma ScaleBySize(x: real, y: real, res: real)
    requires res > 0.0
    ensures x < y ==> x * res < y * res
    ensures x <= y ==> x * res <= y * res
    ensures (x / res) * res == x && (x * res) / res == x
  {
  }

  /** A span of `k` cells determines the cell size. */
  lemma SameSpanSameSize(span: real, k: int, a: real, b: real)
    requires k >= 1
    requires span == k as real * a && span == k as real * b
    ensures a == b
  {
  }

  /** A whole number of cells is counted exactly. */
  lemma CellCountExact(extent: real, k: int, res: real)
    requires k >= 1 && res > 0.0 && extent == k as real * res
    ensures CellCount(extent, res) == k
  {
    ScaleBySize(k as real, 0.0, res);
  }

  /** `g.region n= s= e= w=`: new bounds, the cell sizes kept, the counts
      recomputed from them, and the cell sizes then re-derived so that the
      cells span the bounds. */
  function WithBounds(r: Region, n: real, s: real, e: real, w: real): (r': Region)
    requires Valid(r) && n > s && e > w
    ensures Valid(r')
    ensures r'.n == n && r'.s == s && r'.e == e && r'.w == w
    ensures r'.rows == CellCount(n - s, r.nsres) && r'.cols == CellCount(e - w, r.ewres)
  {
    WithCounts(n, s, e, w, CellCount(n - s, r.nsres), CellCount(e - w, r.ewres))
  }

  /** Setting the current bounds again changes nothing. */
  lemma {:induction false} SameBounds(r: Region)
    requires Valid(r)
    ensures WithBounds(r, r.n, r.s, r.e, r.w) == r
  {
    CellCountExact(r.n - r.s, r.rows, r.nsres);
    CellCountExact(r.e - r.w, r.cols, r.ewres);
    var r' := WithBounds(r, r.n, r.s, r.e, r.w);
    assert r'.rows == r.rows && r'.cols == r.cols;
    SameSpanSameSize(r.n - r.s, r.rows, r'.nsres, r.nsres);
    SameSpanSameSize(r.e - r.w, r.cols, r'.ewres, r.ewres);
  }

  /** Lines 206-212: every bound moves one cell inward and both counts drop
      by two. The cells keep their size and still span the bounds. */
  function ShrinkRegion(r: Region): (r': Region)
    requires Valid(r) && r.rows >= 3 && r.cols >= 3
    ensures Valid(r')
    ensures r'.n == r.n - r.nsres && r'.s == r.s + r.nsres
    ensures r'.e == r.e - r.ewres && r'.w == r.w + r.ewres
    ensures r'.rows == r.rows - 2 && r'.cols == r.cols - 2
    ensures r'.nsres == r.nsres && r'.ewres == r.ewres
  {
    var n := r.n - r.nsres;
    var s := r.s + r.nsres;
    var e := r.e - r.ewres;
    var w := r.w + r.ewres;
    assert n - s == (r.rows - 2) as real * r.nsres;
    assert e - w == (r.cols - 2) as real * r.ewres;
    WithCounts(n, s, e, w, r.rows - 2, r.cols - 2)
  }

  /** Lines 220-225 as written: the bounds are set again, then every bound,
      north and south included, moves one east-west cell outward. */
  function RestoreAsWritten(r: Region): (r': Region)
    requires Valid(r)
    ensures Valid(r')
    ensures r'.e == r.e + r.ewres && r'.w == r.w - r.ewres
    ensures r'.n == r.n + r.ewres && r'.s == r.s - r.ewres
    ensures r'.rows == CellCount(r'.n - r'.s, r.nsres)
    ensures r'.cols == CellCount(r'.e - r'.w, r.ewres)
  {
    var r1 := WithBounds(r, r.n, r.s, r.e, r.w);
    SameBounds(r);
    WithBounds(r1, r1.n + r1.ewres, r1.s - r1.ewres, r1.e + r1.ewres, r1.w - r1.ewres)
  }

  /** Lines 220-225 as evidently intended ("revert to the old region"): north
      and south move one north-south cell outward, east and west one
      east-west cell. */
  function RestoreRegion(r: Region): (r': Region)
    requires Valid(r)
    ensures Valid(r')
    ensures r'.n == r.n + r.nsres && r'.s == r.s - r.nsres
    ensures r'.e == r.e + r.ewres && r'.w == r.w - r.ewres
    ensures r'.rows == CellCount(r'.n - r'.s, r.nsres)
    ensures r'.cols == CellCount(r'.e - r'.w, r.ewres)
  {
    var r1 := WithBounds(r, r.n, r.s, r.e, r.w);
    SameBounds(r);
    WithBounds(r1, r1.n + r1.nsres, r1.s - r1.nsres, r1.e + r1.ewres, r1.w - r1.ewres)
  }

  /** Two valid regions with the same bounds and counts are the same region. */
  lemma SameSpansSameRegion(a: Region, b: Region)
    requires Valid(a) && Valid(b)
    requires a.n == b.n && a.s == b.s && a.e == b.e && a.w == b.w
    requires a.rows == b.rows && a.cols == b.cols
    ensures a == b
  {
    SameSpanSameSize(a.n - a.s, a.rows, a.nsres, b.nsres);
    SameSpanSameSize(a.e - a.w, a.cols, a.ewres, b.ewres);
  }

  /** The corrected restore undoes the shrink exactly: bounds, cell sizes
      and counts all come back. */
  lemma {:induction false} ShrinkRestoreRoundTrip(r: Region)
    requires Valid(r) && r.rows >= 3 && r.cols >= 3
    ensures RestoreRegion(ShrinkRegion(r)) == r
  {
    var r1 := ShrinkRegion(r);
    var r2 := RestoreRegion(r1);
    assert r2.n == r.n && r2.s == r.s && r2.e == r.e && r2.w == r.w;
    CellCountExact(r.n - r.s, r.rows, r.nsres);
    CellCountExact(r.e - r.w, r.cols, r.ewres);
    SameSpansSameRegion(r2, r);
  }

  /** As written, the shrink-restore pair always gives back east, west and
      the column count. */
  lemma {:induction false} AsWrittenKeepsEastWest(r: Region)
    requires Valid(r) && r.rows >= 3 && r.cols >= 3
    ensures RestoreAsWritten(ShrinkRegion(r)).e == r.e
    ensures RestoreAsWritten(ShrinkRegion(r)).w == r.w
    ensures RestoreAsWritten(ShrinkRegion(r)).cols == r.cols
    ensures RestoreAsWritten(ShrinkRegion(r)).ewres == r.ewres
  {
    var r1 := ShrinkRegion(r);
    var r2 := RestoreAsWritten(r1);
    assert r2.e == r.e && r2.w == r.w;
    CellCountExact(r.e - r.w, r.cols, r.ewres);
    assert r2.cols == r.cols;
    SameSpanSameSize(r.e - r.w, r.cols, r2.ewres, r.ewres);
  }

  /** As written, north (and likewise south) comes back exactly when the
      two cell sizes are equal. */
  lemma AsWrittenNorthSouth(r: Region)
    requires Valid(r) && r.rows >= 3 && r.cols >= 3
    ensures RestoreAsWritten(ShrinkRegion(r)).n == r.n <==> r.nsres == r.ewres
    ensures RestoreAsWritten(ShrinkRegion(r)).s == r.s <==> r.nsres == r.ewres
  {
  }

  /** As written, square cells make the shrink-restore pair a round trip. */
  lemma {:induction false} AsWrittenSquareCells(r: Region)
    requires Valid(r) && r.rows >= 3 && r.cols >= 3
    requires r.nsres == r.ewres
    ensures RestoreAsWritten(ShrinkRegion(r)) == r
  {
    ShrinkRestoreRoundTrip(r);
  }

  /** A 1000 m x 500 m region of 10 x 10 cells (100 m north-south, 50 m
      east-west): as written, north comes back 50 m short, south 50 m
      high, and the region has 9 rows instead of 10. */
  lemma AsWrittenCounterexample()
    ensures var r := Region(1000.0, 0.0, 500.0, 0.0, 100.0, 50.0, 10, 10);
      Valid(r) &&
      RestoreAsWritten(ShrinkRegion(r)).n == 950.0 &&
      RestoreAsWritten(ShrinkRegion(r)).s == 50.0 &&
      RestoreAsWritten(ShrinkRegion(r)).rows == 9
  {
    var r := Region(1000.0, 0.0, 500.0, 0.0, 100.0, 50.0, 10, 10);
    var r2 := RestoreAsWritten(ShrinkRegion(r));
    CellCountExact(900.0, 9, 100.0);
    assert r2.n - r2.s == 9.0 * 100.0;
  }
}
