/** Frames: which LEDs of the 4x4 matrix should appear lit. A frame is laid out
    row by row (`f[row][col]`) and always has exactly 4 rows of 4 cells. */
module Frames {

  /** Rows and columns of the matrix. */
  const Size: nat := 4

  predicate IsFrame(f: seq<seq<bool>>) {
    |f| == Size && forall i :: 0 <= i < Size ==> |f[i]| == Size
  }

  type Frame = f: seq<seq<bool>> | IsFrame(f)
    witness [[false, false, false, false], [false, false, false, false],
             [false, false, false, false], [false, false, false, false]]

  /** No cell of the frame is lit. */
  predicate Dark(f: Frame) {
    forall i, j :: 0 <= i < Size && 0 <= j < Size ==> !f[i][j]
  }

  /** The lit cells, as (row, column) pairs. */
  function LitCells(f: Frame): set<(nat, nat)> {
    set i: nat, j: nat | i < Size && j < Size && f[i][j] :: (i, j)
  }

  /** Number of `true` entries, counted front to back. */
  function CountTrue(s: seq<bool>): (n: nat)
    ensures n <= |s|
  {
    if |s| == 0 then 0
    else CountTrue(s[..|s| - 1]) + (if s[|s| - 1] then 1 else 0)
  }

  /** The rows laid end to end, first row first. */
  function Flatten(rows: seq<seq<bool>>): seq<bool> {
    if |rows| == 0 then [] else Flatten(rows[..|rows| - 1]) + rows[|rows| - 1]
  }

  /** `num_on`: the number of lit cells, counted over the flattened frame. */
  function LitCount(f: Frame): (n: nat)
    ensures n <= Size * Size
    ensures n == 0 <==> Dark(f)
  {
    CountIsCellCount(f);
    CountTrue(Flatten(f))
  }

  // ---------------------------------------------------------------------------

  lemma {:induction false} CountTrueAppend(a: seq<bool>, b: seq<bool>)
    ensures CountTrue(a + b) == CountTrue(a) + CountTrue(b)
    decreases |b|
  {
    if |b| == 0 {
      assert a + b == a;
    } else {
      var c := a + b;
      assert c[..|c| - 1] == a + b[..|b| - 1];
      assert c[|c| - 1] == b[|b| - 1];
      CountTrueAppend(a, b[..|b| - 1]);
    }
  }

  /** Lit cells of row `i` among its first `m` columns. */
  function RowCells(f: Frame, i: nat, m: nat): set<(nat, nat)>
    requires i < Size && m <= Size
  {
    set j: nat | j < m && f[i][j] :: (i, j)
  }

  /** Lit cells of the first `n` rows. */
  function CellsUpTo(f: Frame, n: nat): set<(nat, nat)>
    requires n <= Size
  {
    set i: nat, j: nat | i < n && j < Size && f[i][j] :: (i, j)
  }

  lemma {:induction false} RowCellsCount(f: Frame, i: nat, m: nat)
    requires i < Size && m <= Size
    ensures |RowCells(f, i, m)| == CountTrue(f[i][..m])
  {
    if m > 0 {
      RowCellsCount(f, i, m - 1);
      assert f[i][..m][..m - 1] == f[i][..m - 1];
      var last: set<(nat, nat)> := if f[i][m - 1] then {(i, m - 1)} else {};
      assert RowCells(f, i, m) == RowCells(f, i, m - 1) + last;
      assert (i, m - 1) !in RowCells(f, i, m - 1);
    }
  }

  lemma {:induction false} CellsUpToCount(f: Frame, n: nat)
    requires n <= Size
    ensures |CellsUpTo(f, n)| == CountTrue(Flatten(f[..n]))
  {
    if n > 0 {
      CellsUpToCount(f, n - 1);
      assert f[..n][..n - 1] == f[..n - 1];
      CountTrueAppend(Flatten(f[..n - 1]), f[n - 1]);
      RowCellsCount(f, n - 1, Size);
      assert f[n - 1][..Size] == f[n - 1];
      assert CellsUpTo(f, n) == CellsUpTo(f, n - 1) + RowCells(f, n - 1, Size);
      assert CellsUpTo(f, n - 1) !! RowCells(f, n - 1, Size);
    }
  }

  lemma {:induction false} FlattenLength(f: Frame, n: nat)
    requires n <= Size
    ensures |Flatten(f[..n])| == Size * n
  {
    if n > 0 {
      assert f[..n][..n - 1] == f[..n - 1];
      FlattenLength(f, n - 1);
    }
  }

  /** `num_on` is the number of lit cells of the frame. */
  lemma LitCountIsCellCount(f: Frame)
    ensures LitCount(f) == |LitCells(f)|
  {
    CountIsCellCount(f);
  }

  /** The count taken over the flattened frame is the number of lit cells,
      and it is zero exactly when the frame is dark. */
  lemma CountIsCellCount(f: Frame)
    ensures CountTrue(Flatten(f)) == |LitCells(f)|
    ensures CountTrue(Flatten(f)) <= Size * Size
    ensures CountTrue(Flatten(f)) == 0 <==> Dark(f)
  {
    CellsUpToCount(f, Size);
    FlattenLength(f, Size);
    assert f[..Size] == f;
    assert CellsUpTo(f, Size) == LitCells(f);
    if !Dark(f) {
      var i, j :| 0 <= i < Size && 0 <= j < Size && f[i][j];
      assert (i, j) in LitCells(f);
    }
  }
}
