/**
 Zero-padded tiled matrix multiplication against the plain triple loop, for all dimensions and
 tile sizes.  Matrices of the example are given by fill functions; buffers are flat arrays in
 row-major order.  Values are integers; `PartialSumsExact` says when float32 holds them all.
 */
module TiledGemm {
  import opened Basics

  type Matrix = (nat, nat) -> int

  // ------------------------------------------------------------- tile geometry --

  function CeilDiv(a: nat, b: nat): nat
    requires b > 0
  {
    (a + b - 1) / b
  }

  /** How many rows or columns of a tile that starts at `start` are real data. */
  function Extent(start: nat, dim: nat, tile: nat): nat
    requires start <= dim
  {
    if tile < dim - start then tile else dim - start
  }

  /** The same for tile number `t`. */
  function ValidExtent(t: nat, dim: nat, tile: nat): nat
    requires t * tile <= dim
  {
    Extent(t * tile, dim, tile)
  }

  /** Every tile starts inside the dimension (so the extent does not underflow and is positive),
      and the tiles reach its end. */
  lemma TilesFit(t: nat, dim: nat, tile: nat)
    requires tile > 0
    ensures t < CeilDiv(dim, tile) ==> t * tile < dim && 0 < ValidExtent(t, dim, tile) <= tile
    ensures dim <= CeilDiv(dim, tile) * tile
  {
    var n := CeilDiv(dim, tile);
    assert n * tile <= dim + tile - 1 < n * tile + tile;
    if t < n {
      assert (t + 1) * tile <= n * tile by { MulLe(t + 1, n, tile); }
      assert (t + 1) * tile == t * tile + tile;
    }
  }

  lemma MulLe(a: nat, b: nat, k: nat)
    requires a <= b
    ensures a * k <= b * k
  {
  }

  /** Index `x` is row (or column) `r` of the real data of tile `t`. */
  ghost predicate InTile(x: nat, t: nat, r: nat, dim: nat, tile: nat)
    requires tile > 0
  {
    t < CeilDiv(dim, tile) && t * tile <= dim && r < ValidExtent(t, dim, tile) && x == t * tile + r
  }

  /** The tiles partition the dimension: each index is real data of exactly one tile. */
  lemma TilesPartition(x: nat, dim: nat, tile: nat)
    requires tile > 0 && x < dim
    ensures InTile(x, x / tile, x % tile, dim, tile)
    ensures forall t: nat, r: nat :: InTile(x, t, r, dim, tile) ==> t == x / tile && r == x % tile
  {
    TileOfIndex(x, dim, tile);
    forall t: nat, r: nat | InTile(x, t, r, dim, tile) ensures t == x / tile && r == x % tile {
      TileUnique(x, t, r, dim, tile);
    }
  }

  lemma TileUnique(x: nat, t: nat, r: nat, dim: nat, tile: nat)
    requires tile > 0 && InTile(x, t, r, dim, tile)
    ensures t == x / tile && r == x % tile
  {
    Quotient(x, tile);
    DivUnique(t, r, x / tile, x % tile, tile);
  }

  lemma Quotient(x: nat, n: nat)
    requires n > 0
    ensures x == x / n * n + x % n
  {
  }

  lemma TileOfIndex(x: nat, dim: nat, tile: nat)
    requires tile > 0 && x < dim
    ensures InTile(x, x / tile, x % tile, dim, tile)
  {
    var t, n := x / tile, CeilDiv(dim, tile);
    Quotient(x, tile);
    TilesFit(0, dim, tile);
    if t >= n { MulLe(n, t, tile); }
  }

  lemma DivUnique(t: nat, r: nat, t': nat, r': nat, n: nat)
    requires r < n && r' < n && t * n + r == t' * n + r'
    ensures t == t' && r == r'
  {
    Successor(t, n);
    Successor(t', n);
    if t < t' { MulLe(t + 1, t', n); } else if t' < t { MulLe(t' + 1, t, n); }
  }

  lemma Successor(t: nat, n: nat)
    ensures (t + 1) * n == t * n + n
  {
  }

  // --------------------------------------------------------------- flat arrays --

  /** Element of a row-major buffer of width `w`. */
  function Cell(s: seq<int>, w: nat, r: nat, c: nat): int {
    if r * w + c < |s| then s[r * w + c] else 0
  }

  lemma CellIndex(r: nat, c: nat, h: nat, w: nat)
    requires r < h && c < w
    ensures r * w + c < h * w
  {
    MulLe(r + 1, h, w);
    assert (r + 1) * w == r * w + w;
  }

  lemma CellUpdate(s: seq<int>, h: nat, w: nat, r: nat, c: nat, v: int, r': nat, c': nat)
    requires |s| == h * w && r < h && c < w && c' < w
    ensures r * w + c < |s|
    ensures Cell(s[r * w + c := v], w, r', c') == if r' == r && c' == c then v else Cell(s, w, r', c')
  {
    CellIndex(r, c, h, w);
    if r' * w + c' == r * w + c { DivUnique(r', c', r, c, w); }
  }

  // --------------------------------------------------------------------- sums --

  /** The first `n` terms of element (r, c) of the product. */
  function Dot(a: Matrix, b: Matrix, r: nat, c: nat, n: nat): int {
    if n == 0 then 0 else Dot(a, b, r, c, n - 1) + a(r, n - 1) * b(n - 1, c)
  }

  function Identity(row: nat, col: nat): int {
    if row == col then 1 else 0
  }

  /** `Dot` is the matrix product: the identity is neutral on both sides, and the product is
      additive in each factor. */
  lemma {:induction false} ProductWithIdentity(a: Matrix, r: nat, c: nat, n: nat)
    ensures Dot(a, Identity, r, c, n) == if c < n then a(r, c) else 0
    ensures Dot(Identity, a, r, c, n) == if r < n then a(r, c) else 0
  {
    if n > 0 { ProductWithIdentity(a, r, c, n - 1); }
  }

  lemma {:induction false} ProductAdds(a: Matrix, b: Matrix, b': Matrix, sum: Matrix, r: nat, c: nat, n: nat)
    requires forall i: nat, j: nat :: sum(i, j) == b(i, j) + b'(i, j)
    ensures Dot(a, sum, r, c, n) == Dot(a, b, r, c, n) + Dot(a, b', r, c, n)
    ensures Dot(sum, a, r, c, n) == Dot(b, a, r, c, n) + Dot(b', a, r, c, n)
  {
    if n > 0 {
      ProductAdds(a, b, b', sum, r, c, n - 1);
      Distributes(a(r, n - 1), b(n - 1, c), b'(n - 1, c));
      Distributes(a(n - 1, c), b(r, n - 1), b'(r, n - 1));
    }
  }

  lemma Distributes(x: int, y: int, z: int)
    ensures x * (y + z) == x * y + x * z && (y + z) * x == y * x + z * x
  {
  }

  /** The same over two row-major buffers. */
  function BufferDot(a: seq<int>, b: seq<int>, k: nat, w: nat, r: nat, c: nat, n: nat): int {
    if n == 0 then 0 else BufferDot(a, b, k, w, r, c, n - 1) + Cell(a, k, r, n - 1) * Cell(b, w, n - 1, c)
  }

  /** The accumulate loop: c += a * b for an h-by-k, a k-by-w and an h-by-w buffer. */
  method MultiplyAccumulate(a: array<int>, b: array<int>, c: array<int>, h: nat, k: nat, w: nat)
    requires a.Length == h * k && b.Length == k * w && c.Length == h * w && a != c && b != c
    modifies c
    ensures forall r: nat, col: nat :: r < h && col < w ==>
              Cell(c[..], w, r, col) == Cell(old(c[..]), w, r, col) + BufferDot(a[..], b[..], k, w, r, col, k)
  {
    ghost var c0 := c[..];
    for r := 0 to h
      invariant forall r': nat, col: nat :: r' < h && col < w ==>
                  Cell(c[..], w, r', col) == Cell(c0, w, r', col) + (if r' < r then BufferDot(a[..], b[..], k, w, r', col, k) else 0)
    {
      MultiplyRow(a, b, c, h, k, w, r);
    }
  }

  method MultiplyRow(a: array<int>, b: array<int>, c: array<int>, h: nat, k: nat, w: nat, r: nat)
    requires a.Length == h * k && b.Length == k * w && c.Length == h * w && a != c && b != c && r < h
    modifies c
    ensures forall r': nat, col: nat :: r' < h && col < w ==>
              Cell(c[..], w, r', col) ==
              Cell(old(c[..]), w, r', col) + (if r' == r then BufferDot(a[..], b[..], k, w, r, col, k) else 0)
  {
    ghost var c0 := c[..];
    for j := 0 to k
      invariant forall r': nat, col: nat :: r' < h && col < w ==>
                  Cell(c[..], w, r', col) == Cell(c0, w, r', col) + (if r' == r then BufferDot(a[..], b[..], k, w, r, col, j) else 0)
    {
      CellIndex(r, j, h, k);
      var factor := a[r * k + j];
      AddScaledRow(b, c, h, k, w, r, j, factor);
    }
  }

  method AddScaledRow(b: array<int>, c: array<int>, h: nat, k: nat, w: nat, r: nat, j: nat, factor: int)
    requires b.Length == k * w && c.Length == h * w && b != c && r < h && j < k
    modifies c
    ensures forall r': nat, col: nat :: r' < h && col < w ==>
              Cell(c[..], w, r', col) == Cell(old(c[..]), w, r', col) + (if r' == r then factor * Cell(b[..], w, j, col) else 0)
  {
    ghost var c0 := c[..];
    for col := 0 to w
      invariant forall r': nat, col': nat :: r' < h && col' < w ==>
                  Cell(c[..], w, r', col') == Cell(c0, w, r', col') + (if r' == r && col' < col then factor * Cell(b[..], w, j, col') else 0)
    {
      ghost var before := c[..];
      CellIndex(r, col, h, w);
      CellIndex(j, col, k, w);
      c[r * w + col] := c[r * w + col] + factor * b[j * w + col];
      forall r': nat, col': nat | r' < h && col' < w
        ensures Cell(c[..], w, r', col') ==
                if r' == r && col' == col then Cell(before, w, r, col) + factor * Cell(b[..], w, j, col) else Cell(before, w, r', col')
      {
        assert c[..] == before[r * w + col := before[r * w + col] + factor * b[j * w + col]];
        CellUpdate(before, h, w, r, col, before[r * w + col] + factor * b[j * w + col], r', col');
      }
    }
  }

  ghost predicate FilledTo(s: seq<int>, f: Matrix, rowBase: nat, colBase: nat, rows: nat, cols: nat, h: nat, w: nat) {
    forall r: nat, c: nat :: r < h && c < w ==>
      Cell(s, w, r, c) == if r < rows && c < cols then f(rowBase + r, colBase + c) else 0
  }

  method FillRow(dst: array<int>, f: Matrix, rowBase: nat, colBase: nat, row: nat, cols: nat, h: nat, w: nat)
    requires dst.Length == h * w && row < h && cols <= w
    modifies dst
    ensures forall r: nat, c: nat :: r < h && c < w ==>
              Cell(dst[..], w, r, c) == if r == row && c < cols then f(rowBase + row, colBase + c) else Cell(old(dst[..]), w, r, c)
  {
    ghost var s := dst[..];
    for c := 0 to cols
      invariant forall r: nat, c': nat :: r < h && c' < w ==>
                  Cell(dst[..], w, r, c') == if r == row && c' < c then f(rowBase + row, colBase + c') else Cell(s, w, r, c')
    {
      ghost var before := dst[..];
      var v := f(rowBase + row, colBase + c);
      CellIndex(row, c, h, w);
      dst[row * w + c] := v;
      assert dst[..] == before[row * w + c := v];
      forall r: nat, c': nat | r < h && c' < w
        ensures Cell(dst[..], w, r, c') == if r == row && c' == c then v else Cell(before, w, r, c')
      {
        CellUpdate(before, h, w, row, c, v, r, c');
      }
    }
  }

  /** A zeroed buffer whose first `rows` by `cols` elements are filled from a matrix. */
  method Fill(f: Matrix, rowBase: nat, colBase: nat, rows: nat, cols: nat, h: nat, w: nat) returns (dst: array<int>)
    requires rows <= h && cols <= w
    ensures fresh(dst) && dst.Length == h * w
    ensures FilledTo(dst[..], f, rowBase, colBase, rows, cols, h, w)
  {
    var size := h * w;
    dst := Zeroed(size);
    ZeroFilled(dst[..], f, rowBase, colBase, cols, h, w);
    for r := 0 to rows
      invariant FilledTo(dst[..], f, rowBase, colBase, r, cols, h, w)
    {
      FillNextRow(dst, f, rowBase, colBase, r, cols, h, w);
    }
  }

  method Zeroed(size: nat) returns (dst: array<int>)
    ensures fresh(dst) && dst.Length == size && forall i :: 0 <= i < size ==> dst[i] == 0
  {
    dst := new int[size](i => 0);
  }

  lemma ZeroFilled(s: seq<int>, f: Matrix, rowBase: nat, colBase: nat, cols: nat, h: nat, w: nat)
    requires forall i :: 0 <= i < |s| ==> s[i] == 0
    ensures FilledTo(s, f, rowBase, colBase, 0, cols, h, w)
  {
  }

  method FillNextRow(dst: array<int>, f: Matrix, rowBase: nat, colBase: nat, row: nat, cols: nat, h: nat, w: nat)
    requires dst.Length == h * w && row < h && cols <= w && FilledTo(dst[..], f, rowBase, colBase, row, cols, h, w)
    modifies dst
    ensures FilledTo(dst[..], f, rowBase, colBase, row + 1, cols, h, w)
  {
    FillRow(dst, f, rowBase, colBase, row, cols, h, w);
  }

  // ---------------------------------------------------------- reference product --

  lemma {:induction false} FilledDot(a: Matrix, b: Matrix, sa: seq<int>, sb: seq<int>, k: nat, w: nat, r: nat, c: nat, n: nat)
    requires n <= k && forall j: nat :: j < k ==> Cell(sa, k, r, j) == a(r, j) && Cell(sb, w, j, c) == b(j, c)
    ensures BufferDot(sa, sb, k, w, r, c, n) == Dot(a, b, r, c, n)
  {
    if n > 0 { FilledDot(a, b, sa, sb, k, w, r, c, n - 1); }
  }

  ghost predicate IsProduct(s: seq<int>, a: Matrix, b: Matrix, m: nat, k: nat, n: nat) {
    forall r: nat, col: nat :: r < m && col < n ==> Cell(s, n, r, col) == Dot(a, b, r, col, k)
  }

  method ReferenceGemm(a: Matrix, b: Matrix, m: nat, k: nat, n: nat) returns (c: array<int>)
    ensures c.Length == m * n && IsProduct(c[..], a, b, m, k, n)
  {
    var sa := Fill(a, 0, 0, m, k, m, k);
    var sb := Fill(b, 0, 0, k, n, k, n);
    c := Fill(a, 0, 0, 0, 0, m, n);
    ghost var zero := c[..];
    MultiplyAccumulate(sa, sb, c, m, k, n);
    forall r: nat, col: nat | r < m && col < n ensures Cell(c[..], n, r, col) == Dot(a, b, r, col, k) {
      FilledDot(a, b, sa[..], sb[..], k, n, r, col, k);
      assert Cell(zero, n, r, col) == 0;
    }
  }

  // --------------------------------------------------------------- tiled product --

  function Min(a: nat, b: nat): nat {
    if a < b then a else b
  }

  /** Within one pair of padded tiles the partial sums are those of the untiled product; the
      padding adds nothing. */
  lemma {:induction false} PaddedDot(a: Matrix, b: Matrix, sa: seq<int>, sb: seq<int>, tile: nat, kdim: nat, start: nat,
                                     row: nat, col: nat, r: nat, c: nat, n: nat)
    requires n <= tile && start <= kdim
    requires forall j: nat :: j < tile ==> Cell(sa, tile, r, j) == if start + j < kdim then a(row, start + j) else 0
    requires forall j: nat :: j < tile ==> Cell(sb, tile, j, c) == if start + j < kdim then b(start + j, col) else 0
    ensures Dot(a, b, row, col, start) + BufferDot(sa, sb, tile, tile, r, c, n) ==
            Dot(a, b, row, col, Min(start + n, kdim))
  {
    if n > 0 { PaddedDot(a, b, sa, sb, tile, kdim, start, row, col, r, c, n - 1); }
  }

  /** The real-data part of an output tile, summed over the first `n` indices of K. */
  ghost predicate TileHolds(s: seq<int>, a: Matrix, b: Matrix, tile: nat, row: nat, col: nat, rows: nat, cols: nat, n: nat) {
    forall r: nat, c: nat :: r < rows && c < cols ==> Cell(s, tile, r, c) == Dot(a, b, row + r, col + c, n)
  }

  /** One step over K: multiply a padded tile of A with a padded tile of B onto the output. */
  method AccumulateTile(a: Matrix, b: Matrix, c: array<int>, tile: nat, k: nat, start: nat,
                        row: nat, col: nat, rows: nat, cols: nat)
    requires c.Length == tile * tile && start <= k && rows <= tile && cols <= tile
    requires TileHolds(c[..], a, b, tile, row, col, rows, cols, start)
    modifies c
    ensures TileHolds(c[..], a, b, tile, row, col, rows, cols, Min(start + tile, k))
  {
    var depth := Extent(start, k, tile);
    var sa := Fill(a, row, start, rows, depth, tile, tile);
    var sb := Fill(b, start, col, depth, cols, tile, tile);
    ghost var before := c[..];
    MultiplyAccumulate(sa, sb, c, tile, tile, tile);
    forall r: nat, j: nat | r < rows && j < cols
      ensures Cell(c[..], tile, r, j) == Dot(a, b, row + r, col + j, Min(start + tile, k))
    {
      PaddedDot(a, b, sa[..], sb[..], tile, k, start, row + r, col + j, r, j, tile);
      assert Cell(before, tile, r, j) == Dot(a, b, row + r, col + j, start);
    }
  }

  /** One output tile: accumulate over the K tiles, always multiplying full tiles. */
  method ComputeTile(a: Matrix, b: Matrix, m: nat, k: nat, n: nat, tile: nat, ti: nat, tj: nat) returns (c: array<int>)
    requires tile > 0 && ti < CeilDiv(m, tile) && tj < CeilDiv(n, tile)
    ensures ti * tile < m && tj * tile < n && c.Length == tile * tile
    ensures TileHolds(c[..], a, b, tile, ti * tile, tj * tile, ValidExtent(ti, m, tile), ValidExtent(tj, n, tile), k)
  {
    TilesFit(ti, m, tile);
    TilesFit(tj, n, tile);
    var row, col := ti * tile, tj * tile;
    var rows, cols := Extent(row, m, tile), Extent(col, n, tile);
    c := Fill(a, 0, 0, 0, 0, tile, tile);
    ghost var start := 0;
    for tk := 0 to CeilDiv(k, tile)
      invariant fresh(c) && c.Length == tile * tile && start == tk * tile
      invariant TileHolds(c[..], a, b, tile, row, col, rows, cols, Min(start, k))
    {
      TilesFit(tk, k, tile);
      AccumulateTile(a, b, c, tile, k, tk * tile, row, col, rows, cols);
      Successor(tk, tile);
      start := start + tile;
    }
    TilesFit(0, k, tile);
  }

  /** Output tile `(ti, tj)` holds its part of the product. */
  ghost predicate TileDone(s: seq<int>, a: Matrix, b: Matrix, m: nat, k: nat, n: nat, tile: nat, ti: nat, tj: nat) {
    && ti * tile < m && tj * tile < n
    && TileHolds(s, a, b, tile, ti * tile, tj * tile, ValidExtent(ti, m, tile), ValidExtent(tj, n, tile), k)
  }

  ghost predicate RowDone(row: seq<seq<int>>, a: Matrix, b: Matrix, m: nat, k: nat, n: nat, tile: nat, ti: nat) {
    forall tj: nat :: tj < |row| ==> TileDone(row[tj], a, b, m, k, n, tile, ti, tj)
  }

  ghost predicate GridDone(grid: seq<seq<seq<int>>>, a: Matrix, b: Matrix, m: nat, k: nat, n: nat, tile: nat, nt: nat) {
    forall ti: nat :: ti < |grid| ==> |grid[ti]| == nt && RowDone(grid[ti], a, b, m, k, n, tile, ti)
  }

  method TiledRow(a: Matrix, b: Matrix, m: nat, k: nat, n: nat, tile: nat, ti: nat) returns (row: seq<seq<int>>)
    requires tile > 0 && ti < CeilDiv(m, tile)
    ensures |row| == CeilDiv(n, tile) && RowDone(row, a, b, m, k, n, tile, ti)
  {
    row := [];
    for tj := 0 to CeilDiv(n, tile)
      invariant |row| == tj && RowDone(row, a, b, m, k, n, tile, ti)
    {
      var c := ComputeTile(a, b, m, k, n, tile, ti, tj);
      assert TileDone(c[..], a, b, m, k, n, tile, ti, tj);
      row := row + [c[..]];
    }
  }

  /** The whole tiled product, as a grid of output tiles. */
  method TiledProduct(a: Matrix, b: Matrix, m: nat, k: nat, n: nat, tile: nat) returns (grid: seq<seq<seq<int>>>)
    requires tile > 0
    ensures |grid| == CeilDiv(m, tile) && GridDone(grid, a, b, m, k, n, tile, CeilDiv(n, tile))
  {
    grid := [];
    for ti := 0 to CeilDiv(m, tile)
      invariant |grid| == ti && GridDone(grid, a, b, m, k, n, tile, CeilDiv(n, tile))
    {
      var row := TiledRow(a, b, m, k, n, tile, ti);
      grid := grid + [row];
    }
  }

  /** Padded tiled GEMM is plain GEMM: every element of the product, looked up in its tile of the
      grid (`TilesPartition`: there is exactly one), equals the element of the untiled result. */
  lemma TiledEqualsReference(a: Matrix, b: Matrix, m: nat, k: nat, n: nat, tile: nat, row: nat, col: nat,
                             ti: nat, r: nat, tj: nat, c: nat, grid: seq<seq<seq<int>>>, reference: seq<int>)
    requires tile > 0 && InTile(row, ti, r, m, tile) && InTile(col, tj, c, n, tile)
    requires |grid| == CeilDiv(m, tile) && GridDone(grid, a, b, m, k, n, tile, CeilDiv(n, tile))
    requires IsProduct(reference, a, b, m, k, n)
    ensures ti < |grid| && tj < |grid[ti]| && Cell(grid[ti][tj], tile, r, c) == Cell(reference, n, row, col)
  {
    assert RowDone(grid[ti], a, b, m, k, n, tile, ti);
    ElementMatches(grid[ti][tj], reference, a, b, m, k, n, tile, ti, tj, r, c);
  }

  lemma ElementMatches(s: seq<int>, reference: seq<int>, a: Matrix, b: Matrix, m: nat, k: nat, n: nat, tile: nat,
                       ti: nat, tj: nat, r: nat, c: nat)
    requires TileDone(s, a, b, m, k, n, tile, ti, tj) && IsProduct(reference, a, b, m, k, n)
    requires r < ValidExtent(ti, m, tile) && c < ValidExtent(tj, n, tile)
    ensures Cell(s, tile, r, c) == Cell(reference, n, ti * tile + r, tj * tile + c)
  {
  }

  /** The tile's real-data part equals the reference. */
  ghost predicate RegionMatches(s: seq<int>, reference: seq<int>, tile: nat, n: nat, row: nat, col: nat, rows: nat, cols: nat) {
    forall r: nat, c: nat :: r < rows && c < cols ==> Cell(s, tile, r, c) == Cell(reference, n, row + r, col + c)
  }

  /** The comparison at the end of the program: finds an element of the tile's real-data part
      that differs from the reference exactly if there is one. */
  method FirstMismatch(s: seq<int>, reference: seq<int>, tile: nat, n: nat, row: nat, col: nat, rows: nat, cols: nat)
    returns (at: Option<(nat, nat)>)
    ensures at.None? <==> RegionMatches(s, reference, tile, n, row, col, rows, cols)
    ensures at.Some? ==>
              && at.value.0 < rows && at.value.1 < cols
              && Cell(s, tile, at.value.0, at.value.1) != Cell(reference, n, row + at.value.0, col + at.value.1)
  {
    for r: nat := 0 to rows
      invariant RegionMatches(s, reference, tile, n, row, col, r, cols)
    {
      for c: nat := 0 to cols
        invariant forall c': nat :: c' < c ==> Cell(s, tile, r, c') == Cell(reference, n, row + r, col + c')
      {
        if Cell(s, tile, r, c) != Cell(reference, n, row + r, col + c) {
          return Some((r, c));
        }
      }
    }
    return None;
  }

  lemma TileRegionMatches(s: seq<int>, reference: seq<int>, a: Matrix, b: Matrix, m: nat, k: nat, n: nat, tile: nat,
                          ti: nat, tj: nat)
    requires TileDone(s, a, b, m, k, n, tile, ti, tj) && IsProduct(reference, a, b, m, k, n)
    ensures RegionMatches(s, reference, tile, n, ti * tile, tj * tile, ValidExtent(ti, m, tile), ValidExtent(tj, n, tile))
  {
    forall r: nat, c: nat | r < ValidExtent(ti, m, tile) && c < ValidExtent(tj, n, tile)
      ensures Cell(s, tile, r, c) == Cell(reference, n, ti * tile + r, tj * tile + c)
    {
      ElementMatches(s, reference, a, b, m, k, n, tile, ti, tj, r, c);
    }
  }

  method CompareTile(s: seq<int>, reference: seq<int>, ghost a: Matrix, ghost b: Matrix, m: nat, ghost k: nat, n: nat,
                     tile: nat, ti: nat, tj: nat) returns (ok: bool)
    requires TileDone(s, a, b, m, k, n, tile, ti, tj) && IsProduct(reference, a, b, m, k, n)
    ensures ok
  {
    TileRegionMatches(s, reference, a, b, m, k, n, tile, ti, tj);
    var at := FirstMismatch(s, reference, tile, n, ti * tile, tj * tile, ValidExtent(ti, m, tile), ValidExtent(tj, n, tile));
    ok := at.None?;
  }

  method CompareRow(row: seq<seq<int>>, reference: seq<int>, ghost a: Matrix, ghost b: Matrix, m: nat, ghost k: nat, n: nat,
                    tile: nat, ti: nat) returns (ok: bool)
    requires RowDone(row, a, b, m, k, n, tile, ti) && IsProduct(reference, a, b, m, k, n)
    ensures ok
  {
    ok := true;
    for tj := 0 to |row|
      invariant ok
    {
      ok := CompareTile(row[tj], reference, a, b, m, k, n, tile, ti, tj);
    }
  }

  /** The whole program: for every size and every pair of matrices the comparison of the tiled
      with the reference product finds no mismatch. */
  method RunComparison(a: Matrix, b: Matrix, m: nat, k: nat, n: nat, tile: nat) returns (ok: bool)
    requires tile > 0
    ensures ok
  {
    var grid := TiledProduct(a, b, m, k, n, tile);
    var c := ReferenceGemm(a, b, m, k, n);
    var reference := c[..];
    ok := true;
    for ti := 0 to |grid|
      invariant ok
    {
      ok := CompareRow(grid[ti], reference, a, b, m, k, n, tile, ti);
    }
  }

  // ------------------------------------------------------------------- exactness --

  function AValue(row: nat, col: nat): int {
    (row * 3 + col) % 7
  }

  function BValue(row: nat, col: nat): int {
    (row + col * 5) % 11
  }

  /** The fill values are the residues of 3 row + col modulo 7 and of row + 5 col modulo 11. */
  lemma FillMeaning(row: nat, col: nat)
    ensures 0 <= AValue(row, col) <= 6 && (row * 3 + col - AValue(row, col)) % 7 == 0
    ensures 0 <= BValue(row, col) <= 10 && (row + col * 5 - BValue(row, col)) % 11 == 0
  {
  }

  const FLOAT_EXACT := 0x100_0000

  /** With the example's fill values every partial sum is an integer between 0 and 60 n, so as
      long as 60 K does not exceed 2^24 every intermediate value is exact in float32. */
  lemma {:induction false} PartialSumsExact(r: nat, c: nat, n: nat, k: nat)
    requires n <= k
    ensures 0 <= Dot(AValue, BValue, r, c, n) <= 60 * n
    ensures 60 * k <= FLOAT_EXACT ==> Dot(AValue, BValue, r, c, n) <= FLOAT_EXACT
  {
    if n > 0 {
      PartialSumsExact(r, c, n - 1, k);
      ProductBound(AValue(r, n - 1), BValue(n - 1, c));
    }
  }

  lemma ProductBound(x: int, y: int)
    requires 0 <= x <= 6 && 0 <= y <= 10
    ensures 0 <= x * y <= 60
  {
  }
}
