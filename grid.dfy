/**
 * Board helpers shared by the rule sets: rectangular grids, counting cells, the
 * windows a line-up win is looked for in, the push-up shift of one column, and the
 * row-major list of the cells that satisfy a test.
 */
module Grid {
  import opened Elements

  /** `rows` rows of `cols` cells each. */
  predicate IsGrid<T>(b: seq<seq<T>>, rows: nat, cols: nat)
  {
    |b| == rows && forall r :: 0 <= r < |b| ==> |b[r]| == cols
  }

  /** `iter().filter(|x| x == v).count()`. */
  function CountOf<T(==)>(s: seq<T>, v: T): (k: nat)
    ensures k <= |s|
  {
    if s == [] then 0 else CountOf(s[..|s| - 1], v) + (if s[|s| - 1] == v then 1 else 0)
  }

  lemma {:induction false} CountOfConcat<T>(s: seq<T>, t: seq<T>, v: T)
    ensures CountOf(s + t, v) == CountOf(s, v) + CountOf(t, v)
    decreases |t|
  {
    if t == [] {
      assert s + t == s;
    } else {
      assert (s + t)[..|s + t| - 1] == s + t[..|t| - 1];
      assert (s + t)[|s + t| - 1] == t[|t| - 1];
      CountOfConcat(s, t[..|t| - 1], v);
    }
  }

  /** Every cell of `s` is `v` exactly when all `|s|` of them are counted. */
  lemma {:induction false} CountOfAll<T>(s: seq<T>, v: T)
    ensures CountOf(s, v) == |s| <==> forall i :: 0 <= i < |s| ==> s[i] == v
  {
    if s != [] {
      CountOfAll(s[..|s| - 1], v);
      if CountOf(s, v) == |s| {
        forall i | 0 <= i < |s|
          ensures s[i] == v
        {
          if i < |s| - 1 {
            assert s[..|s| - 1][i] == s[i];
          }
        }
      }
    }
  }

  /** No entry of `s` is `v` exactly when none is counted. */
  lemma {:induction false} CountOfZero<T>(s: seq<T>, v: T)
    ensures CountOf(s, v) == 0 <==> forall i :: 0 <= i < |s| ==> s[i] != v
  {
    if s != [] {
      var last := |s| - 1;
      CountOfZero(s[..last], v);
      assert forall i :: 0 <= i < last ==> s[..last][i] == s[i];
    }
  }

  /** Replacing one entry changes the count by what leaves and what arrives. */
  lemma CountOfUpdate<T>(s: seq<T>, i: nat, x: T, v: T)
    requires i < |s|
    ensures CountOf(s[i := x], v) + (if s[i] == v then 1 else 0) == CountOf(s, v) + (if x == v then 1 else 0)
  {
    assert s == s[..i] + [s[i]] + s[i + 1..];
    assert s[i := x] == s[..i] + [x] + s[i + 1..];
    CountOfConcat(s[..i] + [s[i]], s[i + 1..], v);
    CountOfConcat(s[..i], [s[i]], v);
    CountOfConcat(s[..i] + [x], s[i + 1..], v);
    CountOfConcat(s[..i], [x], v);
  }

  /** `is_sequence_win`: at least `n` cells of the window are `v`. */
  predicate SequenceWin<T(==)>(s: seq<T>, v: T, n: nat)
  {
    CountOf(s, v) >= n
  }

  /** A window of exactly `n` cells wins exactly when it is a run of `v`. */
  lemma WindowWinIffRun<T>(s: seq<T>, v: T, n: nat)
    requires |s| == n
    ensures SequenceWin(s, v, n) <==> forall k :: 0 <= k < n ==> s[k] == v
  {
    CountOfAll(s, v);
  }

  /** Column `col` of the board, top to bottom. */
  function Column<T>(b: seq<seq<T>>, cols: nat, col: nat): (c: seq<T>)
    requires IsGrid(b, |b|, cols) && col < cols
    ensures |c| == |b| && forall r :: 0 <= r < |b| ==> c[r] == b[r][col]
  {
    seq(|b|, r requires 0 <= r < |b| => b[r][col])
  }

  /** The `n` cells going down and right from `(i, j)`. */
  function Diagonal<T>(b: seq<seq<T>>, cols: nat, i: nat, j: nat, n: nat): (d: seq<T>)
    requires IsGrid(b, |b|, cols) && i + n <= |b| && j + n <= cols
    ensures |d| == n && forall k :: 0 <= k < n ==> d[k] == b[i + k][j + k]
  {
    seq(n, k requires 0 <= k < n => b[i + k][j + k])
  }

  /** The `n` cells going down and left from `(i, j)`. */
  function AntiDiagonal<T>(b: seq<seq<T>>, cols: nat, i: nat, j: nat, n: nat): (d: seq<T>)
    requires IsGrid(b, |b|, cols) && i + n <= |b| && j < cols && n <= j + 1
    ensures |d| == n && forall k :: 0 <= k < n ==> d[k] == b[i + k][j - k]
  {
    seq(n, k requires 0 <= k < n => b[i + k][j - k])
  }

  /** The `n` cells of row `r` from column `i` on. */
  function RowWindow<T>(b: seq<seq<T>>, cols: nat, r: nat, i: nat, n: nat): (w: seq<T>)
    requires IsGrid(b, |b|, cols) && r < |b| && i + n <= cols
    ensures |w| == n && forall k :: 0 <= k < n ==> w[k] == b[r][i + k]
  {
    b[r][i..i + n]
  }

  /** The `n` cells of column `col` from row `i` down. */
  function ColWindow<T>(b: seq<seq<T>>, cols: nat, col: nat, i: nat, n: nat): (w: seq<T>)
    requires IsGrid(b, |b|, cols) && col < cols && i + n <= |b|
    ensures |w| == n && forall k :: 0 <= k < n ==> w[k] == b[i + k][col]
  {
    Column(b, cols, col)[i..i + n]
  }

  /** Some row has a window of `n` cells with `n` of them `v`. */
  predicate RowWin<T(==)>(b: seq<seq<T>>, cols: nat, v: T, n: nat)
    requires IsGrid(b, |b|, cols) && n <= cols
  {
    exists r: nat, i: nat :: r < |b| && i <= cols - n && SequenceWin(RowWindow(b, cols, r, i, n), v, n)
  }

  predicate ColWin<T(==)>(b: seq<seq<T>>, cols: nat, v: T, n: nat)
    requires IsGrid(b, |b|, cols) && n <= |b|
  {
    exists col: nat, i: nat :: col < cols && i <= |b| - n && SequenceWin(ColWindow(b, cols, col, i, n), v, n)
  }

  predicate MainDiagWin<T(==)>(b: seq<seq<T>>, cols: nat, v: T, n: nat)
    requires IsGrid(b, |b|, cols) && n <= |b| && n <= cols
  {
    exists i: nat, j: nat :: i <= |b| - n && j <= cols - n && SequenceWin(Diagonal(b, cols, i, j, n), v, n)
  }

  predicate AntiDiagWin<T(==)>(b: seq<seq<T>>, cols: nat, v: T, n: nat)
    requires IsGrid(b, |b|, cols) && n <= |b| && n <= cols
  {
    exists i: nat, j: nat :: i <= |b| - n && n - 1 <= j < cols && SequenceWin(AntiDiagonal(b, cols, i, j, n), v, n)
  }

  /** Horizontal windows read left to right, one row after the other; the first win returns. */
  method IsRowWin<T(==)>(b: seq<seq<T>>, cols: nat, v: T, n: nat) returns (w: bool)
    requires IsGrid(b, |b|, cols) && n <= cols
    ensures w == RowWin(b, cols, v, n)
  {
    for r := 0 to |b|
      invariant forall r': nat, i: nat :: r' < r && i <= cols - n ==> !SequenceWin(RowWindow(b, cols, r', i, n), v, n)
    {
      var row := b[r];
      for i := 0 to cols - n + 1
        invariant forall i': nat :: i' < i ==> !SequenceWin(RowWindow(b, cols, r, i', n), v, n)
      {
        if SequenceWin(row[i..i + n], v, n) {
          assert row[i..i + n] == RowWindow(b, cols, r, i, n);
          return true;
        }
      }
    }
    return false;
  }

  /** Each column is copied out, then its vertical windows are read top to bottom. */
  method IsColWin<T(==)>(b: seq<seq<T>>, cols: nat, v: T, n: nat) returns (w: bool)
    requires IsGrid(b, |b|, cols) && n <= |b|
    ensures w == ColWin(b, cols, v, n)
  {
    for col := 0 to cols
      invariant forall c: nat, i: nat :: c < col && i <= |b| - n ==> !SequenceWin(ColWindow(b, cols, c, i, n), v, n)
    {
      var colElems := Column(b, cols, col);
      for i := 0 to |b| - n + 1
        invariant forall i': nat :: i' < i ==> !SequenceWin(ColWindow(b, cols, col, i', n), v, n)
      {
        if SequenceWin(colElems[i..i + n], v, n) {
          assert colElems[i..i + n] == ColWindow(b, cols, col, i, n);
          return true;
        }
      }
    }
    return false;
  }

  /** The down-right diagonals first, then the down-left ones; the first win returns. */
  method IsDiagWin<T(==)>(b: seq<seq<T>>, cols: nat, v: T, n: nat) returns (w: bool)
    requires IsGrid(b, |b|, cols) && n <= |b| && n <= cols
    ensures w == (MainDiagWin(b, cols, v, n) || AntiDiagWin(b, cols, v, n))
  {
    // an empty window always wins, so getting past one means `n` is positive
    for i := 0 to |b| - n + 1
      invariant forall i', j :: 0 <= i' < i && 0 <= j <= cols - n ==> !SequenceWin(Diagonal(b, cols, i', j, n), v, n)
      invariant i > 0 ==> n >= 1
    {
      for j := 0 to cols - n + 1
        invariant forall j' :: 0 <= j' < j ==> !SequenceWin(Diagonal(b, cols, i, j', n), v, n)
        invariant j > 0 ==> n >= 1
      {
        if SequenceWin(Diagonal(b, cols, i, j, n), v, n) {
          return true;
        }
      }
    }
    for i := 0 to |b| - n + 1
      invariant forall i', j :: 0 <= i' < i && n - 1 <= j < cols ==> !SequenceWin(AntiDiagonal(b, cols, i', j, n), v, n)
    {
      for j := n - 1 to cols
        invariant forall j' :: n - 1 <= j' < j ==> !SequenceWin(AntiDiagonal(b, cols, i, j', n), v, n)
      {
        if SequenceWin(AntiDiagonal(b, cols, i, j, n), v, n) {
          return true;
        }
      }
    }
    return false;
  }

  /** A line-up of `n` cells equal to `v` starting at `(r, c)` and stepping by `(dr, dc)`. */
  ghost predicate Run<T>(b: seq<seq<T>>, cols: nat, v: T, n: nat, r: int, c: int, dr: int, dc: int)
    requires IsGrid(b, |b|, cols)
  {
    && 0 <= r && 0 <= r + (n - 1) * dr < |b| && r < |b|
    && 0 <= c && 0 <= c + (n - 1) * dc < cols && c < cols
    && forall k :: 0 <= k < n ==> b[r + k * dr][c + k * dc] == v
  }

  /**
   * The window tests hold exactly when the board holds a horizontal, vertical, diagonal or
   * anti-diagonal run of `n` cells equal to `v`.
   */
  lemma RowWinIffRun<T>(b: seq<seq<T>>, cols: nat, v: T, n: nat)
    requires IsGrid(b, |b|, cols) && 1 <= n <= cols
    ensures RowWin(b, cols, v, n) <==> exists r, c :: Run(b, cols, v, n, r, c, 0, 1)
  {
    forall r0: nat, i: nat | r0 < |b| && i <= cols - n
      ensures SequenceWin(RowWindow(b, cols, r0, i, n), v, n) <==> Run(b, cols, v, n, r0, i, 0, 1)
    {
      var w := RowWindow(b, cols, r0, i, n);
      WindowWinIffRun(w, v, n);
      forall k | 0 <= k < n
        ensures w[k] == b[r0 + k * 0][i + k * 1]
      {
      }
      assert (forall k :: 0 <= k < n ==> w[k] == v) <==> (forall k :: 0 <= k < n ==> b[r0 + k * 0][i + k * 1] == v);
      assert 0 <= r0 + (n - 1) * 0 < |b| && 0 <= i + (n - 1) * 1 < cols;
    }
    if exists r, c :: Run(b, cols, v, n, r, c, 0, 1) {
      var r, c :| Run(b, cols, v, n, r, c, 0, 1);
      var r0, i := r, c;
      assert r0 < |b| && i <= cols - n;
      assert SequenceWin(RowWindow(b, cols, r0, i, n), v, n);
    }
  }

  lemma ColWinIffRun<T>(b: seq<seq<T>>, cols: nat, v: T, n: nat)
    requires IsGrid(b, |b|, cols) && 1 <= n <= |b|
    ensures ColWin(b, cols, v, n) <==> exists r, c :: Run(b, cols, v, n, r, c, 1, 0)
  {
    forall col: nat, i: nat | col < cols && i <= |b| - n
      ensures SequenceWin(ColWindow(b, cols, col, i, n), v, n) <==> Run(b, cols, v, n, i, col, 1, 0)
    {
      var w := ColWindow(b, cols, col, i, n);
      WindowWinIffRun(w, v, n);
      forall k | 0 <= k < n
        ensures w[k] == b[i + k * 1][col + k * 0]
      {
      }
    }
    if exists r, c :: Run(b, cols, v, n, r, c, 1, 0) {
      var r, c :| Run(b, cols, v, n, r, c, 1, 0);
      var col, i := c, r;
      assert col < cols && i <= |b| - n;
      assert SequenceWin(ColWindow(b, cols, col, i, n), v, n);
    }
  }

  lemma MainDiagWinIffRun<T>(b: seq<seq<T>>, cols: nat, v: T, n: nat)
    requires IsGrid(b, |b|, cols) && 1 <= n <= |b| && n <= cols
    ensures MainDiagWin(b, cols, v, n) <==> exists r, c :: Run(b, cols, v, n, r, c, 1, 1)
  {
    forall i: nat, j: nat | i <= |b| - n && j <= cols - n
      ensures SequenceWin(Diagonal(b, cols, i, j, n), v, n) <==> Run(b, cols, v, n, i, j, 1, 1)
    {
      var w := Diagonal(b, cols, i, j, n);
      WindowWinIffRun(w, v, n);
      forall k | 0 <= k < n
        ensures w[k] == b[i + k * 1][j + k * 1]
      {
      }
      if forall k :: 0 <= k < n ==> w[k] == v {
        forall k | 0 <= k < n
          ensures b[i + k * 1][j + k * 1] == v
        {
          assert w[k] == v;
        }
      }
      if Run(b, cols, v, n, i, j, 1, 1) {
        forall k | 0 <= k < n
          ensures w[k] == v
        {
          assert b[i + k * 1][j + k * 1] == v;
        }
      }
    }
    if exists r, c :: Run(b, cols, v, n, r, c, 1, 1) {
      var r, c :| Run(b, cols, v, n, r, c, 1, 1);
      var i, j := r, c;
      assert i <= |b| - n && j <= cols - n;
      assert SequenceWin(Diagonal(b, cols, i, j, n), v, n);
    }
  }

  lemma AntiDiagWinIffRun<T>(b: seq<seq<T>>, cols: nat, v: T, n: nat)
    requires IsGrid(b, |b|, cols) && 1 <= n <= |b| && n <= cols
    ensures AntiDiagWin(b, cols, v, n) <==> exists r, c :: Run(b, cols, v, n, r, c, 1, -1)
  {
    forall i: nat, j: nat | i <= |b| - n && n - 1 <= j < cols
      ensures SequenceWin(AntiDiagonal(b, cols, i, j, n), v, n) <==> Run(b, cols, v, n, i, j, 1, -1)
    {
      var w := AntiDiagonal(b, cols, i, j, n);
      WindowWinIffRun(w, v, n);
      forall k | 0 <= k < n
        ensures w[k] == b[i + k * 1][j + k * -1]
      {
      }
      if forall k :: 0 <= k < n ==> w[k] == v {
        forall k | 0 <= k < n
          ensures b[i + k * 1][j + k * -1] == v
        {
          assert w[k] == v;
        }
      }
      if Run(b, cols, v, n, i, j, 1, -1) {
        forall k | 0 <= k < n
          ensures w[k] == v
        {
          assert b[i + k * 1][j + k * -1] == v;
        }
      }
    }
    if exists r, c :: Run(b, cols, v, n, r, c, 1, -1) {
      var r, c :| Run(b, cols, v, n, r, c, 1, -1);
      var i, j := r, c;
      assert i <= |b| - n && n - 1 <= j < cols;
      assert SequenceWin(AntiDiagonal(b, cols, i, j, n), v, n);
    }
  }

  /**
   * The push-up shift of column `col`: every cell of the column moves one row up, the top
   * cell falls off, and `x` enters at the bottom. Other columns are as they were.
   */
  function PushUp<T>(b: seq<seq<T>>, cols: nat, col: nat, x: T): (nb: seq<seq<T>>)
    requires IsGrid(b, |b|, cols) && |b| >= 1 && col < cols
    ensures IsGrid(nb, |b|, cols)
  {
    seq(|b|, r requires 0 <= r < |b| => b[r][col := if r < |b| - 1 then b[r + 1][col] else x])
  }

  /** Cell by cell: the column moves up one, `x` is at the bottom, and nothing else changes. */
  lemma PushUpSpec<T>(b: seq<seq<T>>, cols: nat, col: nat, x: T)
    requires IsGrid(b, |b|, cols) && |b| >= 1 && col < cols
    ensures forall r :: 0 <= r < |b| - 1 ==> PushUp(b, cols, col, x)[r][col] == b[r + 1][col]
    ensures PushUp(b, cols, col, x)[|b| - 1][col] == x
    ensures forall r, c :: 0 <= r < |b| && 0 <= c < cols && c != col ==> PushUp(b, cols, col, x)[r][c] == b[r][c]
  {
  }

  /**
   * The push-up transition's loop on a copy of the board: for each row but the last, the
   * cell of column `col` takes the value of the cell below it; then `x` goes into the
   * bottom cell.
   */
  method PushChip<T>(b: seq<seq<T>>, cols: nat, col: nat, x: T) returns (nb: seq<seq<T>>)
    requires IsGrid(b, |b|, cols) && |b| >= 1 && col < cols
    ensures nb == PushUp(b, cols, col, x)
  {
    nb := b;
    var rows := |b|;
    for row := 0 to rows - 1
      invariant IsGrid(nb, rows, cols)
      invariant forall r {:trigger nb[r]} :: 0 <= r < rows ==> nb[r] == b[r][col := if r < row then b[r + 1][col] else b[r][col]]
    {
      assert nb[row + 1] == b[row + 1][col := b[row + 1][col]];
      assert nb[row + 1][col] == b[row + 1][col];
      assert nb[row][col := nb[row + 1][col]] == b[row][col := b[row + 1][col]];
      nb := nb[row := nb[row][col := nb[row + 1][col]]];
    }
    assert nb[rows - 1] == b[rows - 1];
    nb := nb[rows - 1 := nb[rows - 1][col := x]];
    forall r | 0 <= r < rows
      ensures nb[r] == PushUp(b, cols, col, x)[r]
    {
    }
  }

  /** The number of cells of the board equal to `v`, row by row. */
  function GridCount<T(==)>(b: seq<seq<T>>, v: T): nat
  {
    if b == [] then 0 else GridCount(b[..|b| - 1], v) + CountOf(b[|b| - 1], v)
  }

  /** Setting one cell changes the board count by what leaves and what arrives. */
  lemma {:induction false} GridCountUpdate<T>(b: seq<seq<T>>, r: nat, c: nat, x: T, v: T)
    requires r < |b| && c < |b[r]|
    ensures GridCount(b[r := b[r][c := x]], v) + (if b[r][c] == v then 1 else 0) ==
            GridCount(b, v) + (if x == v then 1 else 0)
  {
    var nb := b[r := b[r][c := x]];
    var last := |b| - 1;
    if r == last {
      assert nb[..last] == b[..last];
      CountOfUpdate(b[r], c, x, v);
    } else {
      assert nb[..last] == b[..last][r := b[r][c := x]];
      GridCountUpdate(b[..last], r, c, x, v);
    }
  }

  /** Two boards of one shape that hold `v` in the same cells count the same number of `v`. */
  lemma {:induction false} GridCountSameCells<T>(b: seq<seq<T>>, nb: seq<seq<T>>, cols: nat, v: T)
    requires IsGrid(b, |b|, cols) && IsGrid(nb, |b|, cols)
    requires forall r, c :: 0 <= r < |b| && 0 <= c < cols ==> (nb[r][c] == v <==> b[r][c] == v)
    ensures GridCount(nb, v) == GridCount(b, v)
  {
    if b != [] {
      var last := |b| - 1;
      GridCountSameCells(b[..last], nb[..last], cols, v);
      RowCountSameCells(b[last], nb[last], v);
    }
  }

  lemma {:induction false} RowCountSameCells<T>(s: seq<T>, t: seq<T>, v: T)
    requires |s| == |t| && forall i :: 0 <= i < |s| ==> (t[i] == v <==> s[i] == v)
    ensures CountOf(t, v) == CountOf(s, v)
  {
    if s != [] {
      RowCountSameCells(s[..|s| - 1], t[..|t| - 1], v);
    }
  }

  /** A board of `rows` rows of `cols` cells that all hold `v` counts `rows * cols` of them. */
  lemma {:induction false} GridCountUniform<T>(b: seq<seq<T>>, rows: nat, cols: nat, v: T)
    requires IsGrid(b, rows, cols) && forall r, c :: 0 <= r < rows && 0 <= c < cols ==> b[r][c] == v
    ensures GridCount(b, v) == rows * cols
  {
    if rows > 0 {
      var last := rows - 1;
      CountOfAll(b[last], v);
      GridCountUniform(b[..last], last, cols, v);
    }
  }

  /** The board counts no `v` exactly when no cell holds `v`. */
  lemma {:induction false} GridCountZero<T>(b: seq<seq<T>>, v: T)
    ensures GridCount(b, v) == 0 <==> forall r, c :: 0 <= r < |b| && 0 <= c < |b[r]| ==> b[r][c] != v
  {
    if b != [] {
      var last := |b| - 1;
      GridCountZero(b[..last], v);
      CountOfZero(b[last], v);
      forall r, c | 0 <= r < last && 0 <= c < |b[r]|
        ensures b[..last][r][c] == b[r][c]
      {
      }
    }
  }

  /**
   * Shifting a column up changes the board count by what falls off the top and what
   * enters at the bottom.
   */
  lemma {:induction false} PushUpCount<T>(b: seq<seq<T>>, cols: nat, col: nat, x: T, v: T)
    requires IsGrid(b, |b|, cols) && |b| >= 1 && col < cols
    ensures GridCount(PushUp(b, cols, col, x), v) + (if b[0][col] == v then 1 else 0) ==
            GridCount(b, v) + (if x == v then 1 else 0)
  {
    ColumnShiftCount(b, cols, col, x, v, |b|);
    assert PushUp(b, cols, col, x)[..|b|] == PushUp(b, cols, col, x) && b[..|b|] == b;
  }

  /**
   * The first `k` rows of the pushed board against the first `k` rows of the original:
   * counts differ by the cell leaving row 0 and the cell entering row `k - 1`.
   */
  lemma {:induction false} ColumnShiftCount<T>(b: seq<seq<T>>, cols: nat, col: nat, x: T, v: T, k: nat)
    requires IsGrid(b, |b|, cols) && 1 <= k <= |b| && col < cols
    ensures var nb := PushUp(b, cols, col, x);
      var entering := if k < |b| then b[k][col] else x;
      GridCount(nb[..k], v) + (if b[0][col] == v then 1 else 0) ==
      GridCount(b[..k], v) + (if entering == v then 1 else 0)
  {
    var nb := PushUp(b, cols, col, x);
    var entering := if k < |b| then b[k][col] else x;
    assert nb[..k][..k - 1] == nb[..k - 1];
    assert b[..k][..k - 1] == b[..k - 1];
    assert nb[k - 1] == b[k - 1][col := entering];
    CountOfUpdate(b[k - 1], col, entering, v);
    if k > 1 {
      ColumnShiftCount(b, cols, col, x, v, k - 1);
    } else {
      assert nb[..0] == [] && b[..0] == [];
    }
  }

  /**
   * The bottom-row move of every column from `from` on whose top cell is `empty`, in
   * increasing column order: the push-up games' `filter_map` over the columns.
   */
  function OpenColumns<T(==)>(b: seq<seq<T>>, cols: nat, empty: T, from: nat): (moves: seq<Move>)
    requires IsGrid(b, |b|, cols) && |b| >= 1
    ensures forall m :: m in moves <==> m.row == |b| - 1 && from <= m.col < cols && b[0][m.col] == empty
    ensures forall i, j :: 0 <= i < j < |moves| ==> moves[i].col < moves[j].col
    decreases cols - from
  {
    if from >= cols then []
    else (if b[0][from] == empty then [Move(|b| - 1, from)] else []) + OpenColumns(b, cols, empty, from + 1)
  }

  /** `(r1, c1)` comes before `(r2, c2)` in row-major order. */
  predicate Before(m1: Move, m2: Move)
  {
    m1.row < m2.row || (m1.row == m2.row && m1.col < m2.col)
  }

  predicate RowMajor(ms: seq<Move>)
  {
    forall i, j :: 0 <= i < j < |ms| ==> Before(ms[i], ms[j])
  }

  /** Two row-major lists, every move of the first before every move of the second, join into one. */
  lemma RowMajorAppend(ms: seq<Move>, ns: seq<Move>)
    requires RowMajor(ms) && RowMajor(ns)
    requires forall m, n :: m in ms && n in ns ==> Before(m, n)
    ensures RowMajor(ms + ns)
  {
    forall i, j | 0 <= i < j < |ms + ns|
      ensures Before((ms + ns)[i], (ms + ns)[j])
    {
      if j < |ms| {
      } else if i >= |ms| {
        assert (ms + ns)[i] == ns[i - |ms|];
      } else {
        assert (ms + ns)[i] in ms;
      }
    }
  }

  /**
   * The two nested loops over rows and over each row's cells, pushing `(row, col)` for
   * every cell equal to `v`: the result is in row-major order and holds exactly those cells.
   */
  method CellsEqual<T(==)>(b: seq<seq<T>>, v: T) returns (moves: seq<Move>)
    ensures RowMajor(moves)
    ensures forall m :: m in moves <==> m.row < |b| && m.col < |b[m.row]| && b[m.row][m.col] == v
  {
    moves := [];
    for r := 0 to |b|
      invariant RowMajor(moves)
      invariant forall m :: m in moves <==> m.row < r && m.col < |b[m.row]| && b[m.row][m.col] == v
    {
      for c := 0 to |b[r]|
        invariant RowMajor(moves)
        invariant forall m :: m in moves ==> Before(m, Move(r, c))
        invariant forall m :: m in moves <==>
          (m.row < r && m.col < |b[m.row]| && b[m.row][m.col] == v) || (m.row == r && m.col < c && b[r][m.col] == v)
      {
        if b[r][c] == v {
          moves := moves + [Move(r, c)];
        }
      }
    }
  }

  /** The board with `v` written at `m` (`board[row][col] = v`); every other cell is as it was. */
  function Place<T>(b: seq<seq<T>>, m: Move, v: T): (nb: seq<seq<T>>)
    requires m.row < |b| && m.col < |b[m.row]|
    ensures |nb| == |b| && forall r :: 0 <= r < |b| ==> |nb[r]| == |b[r]|
    ensures nb[m.row][m.col] == v
    ensures forall r, c :: 0 <= r < |b| && 0 <= c < |b[r]| && (r != m.row || c != m.col) ==> nb[r][c] == b[r][c]
  {
    b[m.row := b[m.row][m.col := v]]
  }
}
