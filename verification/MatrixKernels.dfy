/** The loop kernels of src/lib/utils/math_utils.c on matrices stored row by row, over the reals. */
module MatrixKernels {
  import opened Arithmetic
  import opened Matrices

  /** Where entry (i, j) of a matrix with `cols` columns is. */
  function Cell(i: nat, j: nat, cols: nat): nat { i * cols + j }

  lemma CellInside(i: nat, j: nat, rows: nat, cols: nat)
    requires i < rows && j < cols
    ensures Cell(i, j, cols) < rows * cols
  {
    BlockOrder(i, rows, cols);
  }

  lemma CellUnique(i: nat, j: nat, a: nat, b: nat, cols: nat)
    requires j < cols && b < cols && Cell(i, j, cols) == Cell(a, b, cols)
    ensures i == a && j == b
  {
    DigitsUnique(i, j, a, b, cols);
  }

  /** The matrix a buffer holds. */
  function View(s: seq<real>, cols: nat): Mat {
    (i: nat, j: nat) => if Cell(i, j, cols) < |s| then s[Cell(i, j, cols)] else 0.0
  }

  ghost predicate Shows(s: seq<real>, rows: nat, cols: nat, M: Mat) {
    |s| == rows * cols && Same(View(s, cols), M, rows, cols)
  }

  function Put(M: Mat, i: nat, j: nat, v: real): Mat {
    (a: nat, b: nat) => if a == i && b == j then v else M(a, b)
  }

  /** Storing one entry. */
  lemma ShowsPut(s: seq<real>, rows: nat, cols: nat, M: Mat, i: nat, j: nat, v: real)
    requires Shows(s, rows, cols, M) && i < rows && j < cols
    ensures Cell(i, j, cols) < |s| && Shows(s[Cell(i, j, cols) := v], rows, cols, Put(M, i, j, v))
  {
    CellInside(i, j, rows, cols);
    var s' := s[Cell(i, j, cols) := v];
    forall a: nat, b: nat | a < rows && b < cols ensures View(s', cols)(a, b) == Put(M, i, j, v)(a, b) {
      CellInside(a, b, rows, cols);
      if Cell(a, b, cols) == Cell(i, j, cols) { CellUnique(i, j, a, b, cols); }
      assert View(s, cols)(a, b) == M(a, b);
    }
  }

  lemma ShowsSame(s: seq<real>, rows: nat, cols: nat, M: Mat, M': Mat)
    requires Shows(s, rows, cols, M) && Same(M, M', rows, cols)
    ensures Shows(s, rows, cols, M')
  {
  }

  /** Row by row, `done` so far: rows below `i`, and the first `k` entries of row `i`. */
  function Partly(done: Mat, before: Mat, i: nat, k: nat): Mat {
    (a: nat, b: nat) => if a < i || (a == i && b < k) then done(a, b) else before(a, b)
  }

  /** The inner loop of _mat_mat_mult: one entry of the product. */
  method DotCell(lhs: array<real>, rhs: array<real>, res: array<real>, nx: nat, ny: nat, nz: nat, i: nat, k: nat)
    requires lhs.Length == nx * ny && rhs.Length == ny * nz && res.Length == nx * nz && i < nx && k < nz
    requires res != lhs && res != rhs
    modifies res
    ensures Cell(i, k, nz) < res.Length
    ensures res[..] == old(res[..])[Cell(i, k, nz) := Mul(View(lhs[..], ny), ny, View(rhs[..], nz))(i, k)]
  {
    CellInside(i, k, nx, nz);
    ghost var before, A, B := res[..], View(lhs[..], ny), View(rhs[..], nz);
    var c := Cell(i, k, nz);
    res[c] := 0.0;
    ghost var sum := 0.0;
    for j := 0 to ny
      invariant sum == Dot(j, Row(A, i), Col(B, k))
      invariant res[..] == before[c := sum]
    {
      CellInside(i, j, nx, ny);
      CellInside(j, k, ny, nz);
      var x, y := lhs[Cell(i, j, ny)], rhs[Cell(j, k, nz)];
      var term := x * y;
      assert x == Row(A, i)(j) && y == Col(B, k)(j);
      DotNext(j, Row(A, i), Col(B, k), term);
      sum := sum + term;
      res[c] := res[c] + term;
    }
  }

  /** _mat_mat_mult */
  method MatMatMult(lhs: array<real>, rhs: array<real>, res: array<real>, nx: nat, ny: nat, nz: nat)
    requires lhs.Length == nx * ny && rhs.Length == ny * nz && res.Length == nx * nz
    requires res != lhs && res != rhs
    modifies res
    ensures Shows(res[..], nx, nz, Mul(View(lhs[..], ny), ny, View(rhs[..], nz)))
  {
    ghost var before, M := View(res[..], nz), Mul(View(lhs[..], ny), ny, View(rhs[..], nz));
    for i := 0 to nx
      invariant Shows(res[..], nx, nz, Partly(M, before, i, 0))
    {
      for k := 0 to nz
        invariant Shows(res[..], nx, nz, Partly(M, before, i, k))
      {
        ShowsPut(res[..], nx, nz, Partly(M, before, i, k), i, k, M(i, k));
        DotCell(lhs, rhs, res, nx, ny, nz, i, k);
        ShowsSame(res[..], nx, nz, Put(Partly(M, before, i, k), i, k, M(i, k)), Partly(M, before, i, k + 1));
      }
      ShowsSame(res[..], nx, nz, Partly(M, before, i, nz), Partly(M, before, i + 1, 0));
    }
  }

  /** _mat_transpose: `mat` has `nx` rows and `ny` columns. */
  method MatTranspose(mat: array<real>, res: array<real>, nx: nat, ny: nat)
    requires mat.Length == nx * ny && res.Length == ny * nx && res != mat
    modifies res
    ensures Shows(res[..], ny, nx, Transpose(View(mat[..], ny)))
  {
    ghost var before, M := View(res[..], nx), View(mat[..], ny);
    for i := 0 to nx
      invariant Shows(res[..], ny, nx, Transpose(Partly(M, Transpose(before), i, 0)))
    {
      for j := 0 to ny
        invariant Shows(res[..], ny, nx, Transpose(Partly(M, Transpose(before), i, j)))
      {
        ghost var now := Transpose(Partly(M, Transpose(before), i, j));
        ShowsPut(res[..], ny, nx, now, j, i, M(i, j));
        CellInside(i, j, nx, ny);
        res[Cell(j, i, nx)] := mat[Cell(i, j, ny)];
        ShowsSame(res[..], ny, nx, Put(now, j, i, M(i, j)), Transpose(Partly(M, Transpose(before), i, j + 1)));
      }
      ShowsSame(res[..], ny, nx, Transpose(Partly(M, Transpose(before), i, ny)),
                Transpose(Partly(M, Transpose(before), i + 1, 0)));
    }
  }

  /** _mat_mat_sum */
  method MatMatSum(lhs: array<real>, rhs: array<real>, res: array<real>, nx: nat, ny: nat)
    requires lhs.Length == nx * ny == rhs.Length == res.Length && res != lhs && res != rhs
    modifies res
    ensures Shows(res[..], nx, ny, Add(View(lhs[..], ny), View(rhs[..], ny)))
  {
    for i := 0 to nx * ny
      invariant forall c | 0 <= c < i :: res[c] == lhs[c] + rhs[c]
    {
      res[i] := lhs[i] + rhs[i];
    }
    forall a: nat, b: nat | a < nx && b < ny
      ensures View(res[..], ny)(a, b) == Add(View(lhs[..], ny), View(rhs[..], ny))(a, b)
    {
      CellInside(a, b, nx, ny);
    }
  }

  /** `M` with the first `i` rows of the n by n block `B` put in at (p, q). */
  function Block(M: Mat, B: Mat, n: nat, p: nat, q: nat, i: nat): Mat {
    (a: nat, b: nat) => if p <= a < p + i && q <= b < q + n then B(a - p, b - q) else M(a, b)
  }

  /** _mat_copy steps by the number of rows where the number of columns is meant. */
  function StepOfCopy(rows: nat, i: nat, j: nat): nat { rows * i + j }

  /** So it finds every entry of a matrix exactly when that is square, or has no second row. */
  lemma CopyStepIff(rows: nat, cols: nat)
    requires cols > 0
    ensures (forall i: nat, j: nat | i < rows && j < cols :: StepOfCopy(rows, i, j) == Cell(i, j, cols)) <==>
      rows == cols || rows <= 1
  {
    if rows > 1 && rows != cols {
      assert StepOfCopy(rows, 1, 0) == rows && Cell(1, 0, cols) == cols;
    }
  }

  function Overlay(s: seq<real>, a: nat, d: seq<real>): (r: seq<real>)
    requires a + |d| <= |s|
    ensures |r| == |s|
  {
    s[..a] + d + s[a + |d|..]
  }

  function RowAt(stride: nat, i: nat, offset: nat): nat { stride * i + offset }

  /** `rows` rows of `width` entries, `stride` apart, starting at `offset`, are inside a buffer of length `n`. */
  predicate RowsFit(rows: nat, stride: nat, offset: nat, width: nat, n: nat) {
    rows == 0 || RowAt(stride, rows - 1, offset) + width <= n
  }

  lemma RowFits(rows: nat, stride: nat, offset: nat, width: nat, n: nat, i: nat)
    requires RowsFit(rows, stride, offset, width, n) && i < rows
    ensures RowAt(stride, i, offset) + width <= n && RowsFit(i, stride, offset, width, n)
    ensures RowsFit(i + 1, stride, offset, width, n)
  {
    Scale(i, rows - 1, stride);
    if i > 0 { Scale(i - 1, rows - 1, stride); }
  }

  /** The first `i` rows copied: row `i` is read at `from * i` and goes to `to * i + offset`. */
  function Copied(s: seq<real>, mat: seq<real>, from: nat, width: nat, to: nat, offset: nat, i: nat): (r: seq<real>)
    requires RowsFit(i, from, 0, width, |mat|) && RowsFit(i, to, offset, width, |s|)
    ensures |r| == |s|
  {
    if i == 0 then s else
      RowFits(i, from, 0, width, |mat|, i - 1);
      RowFits(i, to, offset, width, |s|, i - 1);
      Overlay(Copied(s, mat, from, width, to, offset, i - 1), RowAt(to, i - 1, offset),
              mat[RowAt(from, i - 1, 0)..RowAt(from, i - 1, 0) + width])
  }

  lemma CopiedNext(s: seq<real>, mat: seq<real>, from: nat, width: nat, to: nat, offset: nat, rows: nat, i: nat)
    requires RowsFit(rows, from, 0, width, |mat|) && RowsFit(rows, to, offset, width, |s|) && i < rows
    ensures RowsFit(i, from, 0, width, |mat|) && RowsFit(i, to, offset, width, |s|)
    ensures RowsFit(i + 1, from, 0, width, |mat|) && RowsFit(i + 1, to, offset, width, |s|)
    ensures RowAt(from, i, 0) + width <= |mat| && RowAt(to, i, offset) + width <= |s|
    ensures Copied(s, mat, from, width, to, offset, i + 1) ==
      Overlay(Copied(s, mat, from, width, to, offset, i), RowAt(to, i, offset),
              mat[RowAt(from, i, 0)..RowAt(from, i, 0) + width])
  {
    RowFits(rows, from, 0, width, |mat|, i);
    RowFits(rows, to, offset, width, |s|, i);
  }

  lemma OverlayNext(s: seq<real>, a: nat, d: seq<real>, x: real)
    requires a + |d| < |s|
    ensures Overlay(s, a, d)[a + |d| := x] == Overlay(s, a, d + [x])
  {
  }

  method CopyRow(mat: array<real>, src: nat, res: array<real>, dst: nat, width: nat)
    requires src + width <= mat.Length && dst + width <= res.Length && mat != res
    modifies res
    ensures res[..] == Overlay(old(res[..]), dst, mat[src..src + width])
  {
    ghost var before, row := res[..], mat[src..src + width];
    for j := 0 to width
      invariant res[..] == Overlay(before, dst, row[..j])
    {
      OverlayNext(before, dst, row[..j], row[j]);
      assert row[..j] + [row[j]] == row[..j + 1];
      res[dst + j] := mat[src + j];
    }
    assert row[..width] == row;
  }

  method CopyRows(mat: array<real>, res: array<real>, rows: nat, from: nat, width: nat, to: nat, offset: nat)
    requires RowsFit(rows, from, 0, width, mat.Length) && RowsFit(rows, to, offset, width, res.Length) && mat != res
    modifies res
    ensures res[..] == Copied(old(res[..]), mat[..], from, width, to, offset, rows)
  {
    ghost var before, source := res[..], mat[..];
    for i := 0 to rows
      invariant RowsFit(i, from, 0, width, |source|) && RowsFit(i, to, offset, width, |before|)
      invariant res[..] == Copied(before, source, from, width, to, offset, i)
    {
      CopiedNext(before, source, from, width, to, offset, rows, i);
      var src := RowAt(from, i, 0);
      CopyRow(mat, src, res, RowAt(to, i, offset), width);
      assert source[src..src + width] == mat[src..src + width];
    }
  }

  /** _mat_copy, of any shape: the numbers of rows serve as strides, and `resy` is not used. */
  method MatCopy(mat: array<real>, res: array<real>, matx: nat, maty: nat, resx: nat, p: nat, q: nat)
    requires RowsFit(matx, matx, 0, maty, mat.Length) && RowsFit(matx, resx, RowAt(resx, p, q), maty, res.Length)
    requires mat != res
    modifies res
    ensures res[..] == Copied(old(res[..]), mat[..], matx, maty, resx, RowAt(resx, p, q), matx)
  {
    CopyRows(mat, res, matx, matx, maty, resx, RowAt(resx, p, q));
  }

  function PutRow(M: Mat, r: nat, q: nat, row: seq<real>): Mat {
    (a: nat, b: nat) => if a == r && q <= b < q + |row| then row[b - q] else M(a, b)
  }

  /** Storing part of a row. */
  lemma ShowsRow(s: seq<real>, rows: nat, cols: nat, M: Mat, r: nat, q: nat, row: seq<real>)
    requires Shows(s, rows, cols, M) && r < rows && q + |row| <= cols
    ensures Cell(r, q, cols) + |row| <= |s|
    ensures Shows(Overlay(s, Cell(r, q, cols), row), rows, cols, PutRow(M, r, q, row))
  {
    BlockOrder(r, rows, cols);
    var s' := Overlay(s, Cell(r, q, cols), row);
    forall a: nat, b: nat | a < rows && b < cols ensures View(s', cols)(a, b) == PutRow(M, r, q, row)(a, b) {
      CellInside(a, b, rows, cols);
      if a < r { BlockOrder(a, r, cols); } else if r < a { BlockOrder(r, a, cols); }
      assert View(s, cols)(a, b) == M(a, b);
    }
  }

  lemma SquareFits(n: nat, m: nat, p: nat, q: nat)
    requires p + n <= m && q + n <= m
    ensures RowsFit(n, n, 0, n, n * n) && RowsFit(n, m, RowAt(m, p, q), n, m * m)
  {
    if n > 0 {
      BlockOrder(n - 1, n, n);
      BlockOrder(p + n - 1, m, m);
      RowIsCell(m, n - 1, p, q);
    }
  }

  lemma RowIsCell(m: nat, i: nat, p: nat, q: nat)
    ensures RowAt(m, i, RowAt(m, p, q)) == Cell(p + i, q, m)
  {
    assert (p + i) * m == m * p + m * i;
  }

  lemma BlockRow(M: Mat, mat: seq<real>, n: nat, m: nat, p: nat, q: nat, i: nat)
    requires |mat| == n * n && p + n <= m && q + n <= m && i < n
    ensures RowAt(n, i, 0) + n <= |mat|
    ensures var row := mat[RowAt(n, i, 0)..RowAt(n, i, 0) + n];
      Same(PutRow(Block(M, View(mat, n), n, p, q, i), p + i, q, row), Block(M, View(mat, n), n, p, q, i + 1), m, m)
  {
    BlockOrder(i, n, n);
    var row := mat[RowAt(n, i, 0)..RowAt(n, i, 0) + n];
    forall j: nat | j < n ensures row[j] == View(mat, n)(i, j) { assert Cell(i, j, n) == RowAt(n, i, 0) + j; }
  }

  /** One more row. */
  lemma ShowsNextRow(done: seq<real>, M: Mat, mat: seq<real>, n: nat, m: nat, p: nat, q: nat, i: nat)
    requires |mat| == n * n && p + n <= m && q + n <= m && i < n
    requires Shows(done, m, m, Block(M, View(mat, n), n, p, q, i))
    ensures RowAt(n, i, 0) + n <= |mat| && RowAt(m, i, RowAt(m, p, q)) + n <= |done|
    ensures Shows(Overlay(done, RowAt(m, i, RowAt(m, p, q)), mat[RowAt(n, i, 0)..RowAt(n, i, 0) + n]), m, m,
                  Block(M, View(mat, n), n, p, q, i + 1))
  {
    RowIsCell(m, i, p, q);
    BlockRow(M, mat, n, m, p, q, i);
    var row := mat[RowAt(n, i, 0)..RowAt(n, i, 0) + n];
    var before := Block(M, View(mat, n), n, p, q, i);
    ShowsRow(done, m, m, before, p + i, q, row);
    ShowsSame(Overlay(done, Cell(p + i, q, m), row), m, m, PutRow(before, p + i, q, row),
              Block(M, View(mat, n), n, p, q, i + 1));
  }

  lemma ShowsNoRow(s: seq<real>, B: Mat, n: nat, m: nat, p: nat, q: nat)
    requires |s| == m * m
    ensures Shows(s, m, m, Block(View(s, m), B, n, p, q, 0))
  {
  }

  /** The first `i` rows of the block are in their place, and nothing else changed. */
  ghost predicate RowsShown(s: seq<real>, mat: seq<real>, n: nat, m: nat, p: nat, q: nat, i: nat)
    requires RowsFit(i, n, 0, n, |mat|) && RowsFit(i, m, RowAt(m, p, q), n, |s|)
  {
    Shows(Copied(s, mat, n, n, m, RowAt(m, p, q), i), m, m, Block(View(s, m), View(mat, n), n, p, q, i))
  }

  lemma RowsShownNext(s: seq<real>, mat: seq<real>, n: nat, m: nat, p: nat, q: nat, i: nat)
    requires |mat| == n * n && p + n <= m && q + n <= m && i < n
    requires RowsFit(n, n, 0, n, |mat|) && RowsFit(n, m, RowAt(m, p, q), n, |s|)
    requires RowsFit(i, n, 0, n, |mat|) && RowsFit(i, m, RowAt(m, p, q), n, |s|) && RowsShown(s, mat, n, m, p, q, i)
    ensures RowsFit(i + 1, n, 0, n, |mat|) && RowsFit(i + 1, m, RowAt(m, p, q), n, |s|)
    ensures RowsShown(s, mat, n, m, p, q, i + 1)
  {
    CopiedNext(s, mat, n, n, m, RowAt(m, p, q), n, i);
    ShowsNextRow(Copied(s, mat, n, n, m, RowAt(m, p, q), i), View(s, m), mat, n, m, p, q, i);
  }

  lemma {:induction false} RowsShow(s: seq<real>, mat: seq<real>, n: nat, m: nat, p: nat, q: nat, i: nat)
    requires |mat| == n * n && |s| == m * m && p + n <= m && q + n <= m && i <= n
    requires RowsFit(n, n, 0, n, |mat|) && RowsFit(n, m, RowAt(m, p, q), n, |s|)
    ensures RowsFit(i, n, 0, n, |mat|) && RowsFit(i, m, RowAt(m, p, q), n, |s|) && RowsShown(s, mat, n, m, p, q, i)
  {
    if i == 0 {
      ShowsNoRow(s, View(mat, n), n, m, p, q);
    } else {
      RowsShow(s, mat, n, m, p, q, i - 1);
      RowsShownNext(s, mat, n, m, p, q, i - 1);
    }
  }

  /** For a square block in a square matrix those strides are right: the block is put at (p, q) and the rest stays. */
  lemma CopiedShows(s: seq<real>, mat: seq<real>, n: nat, m: nat, p: nat, q: nat)
    requires |mat| == n * n && |s| == m * m && p + n <= m && q + n <= m
    ensures RowsFit(n, n, 0, n, |mat|) && RowsFit(n, m, RowAt(m, p, q), n, |s|)
    ensures Shows(Copied(s, mat, n, n, m, RowAt(m, p, q), n), m, m, Block(View(s, m), View(mat, n), n, p, q, n))
  {
    SquareFits(n, m, p, q);
    RowsShow(s, mat, n, m, p, q, n);
  }

  /** mat_set_diag and _mat_set_diag: a multiple of the identity */
  method MatSetDiag(m: array<real>, val: real, n: nat)
    requires m.Length == n * n
    modifies m
    ensures Shows(m[..], n, n, Diagonal((i: nat) => val))
  {
    ghost var before, D := View(m[..], n), Diagonal((i: nat) => val);
    for i := 0 to n
      invariant Shows(m[..], n, n, Partly(D, before, i, 0))
    {
      for j := 0 to n
        invariant Shows(m[..], n, n, Partly(D, before, i, j))
      {
        ShowsPut(m[..], n, n, Partly(D, before, i, j), i, j, D(i, j));
        m[Cell(i, j, n)] := if i == j then val else 0.0;
        ShowsSame(m[..], n, n, Put(Partly(D, before, i, j), i, j, D(i, j)), Partly(D, before, i, j + 1));
      }
      ShowsSame(m[..], n, n, Partly(D, before, i, n), Partly(D, before, i + 1, 0));
    }
  }
}
