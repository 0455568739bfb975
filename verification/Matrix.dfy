/** Matrix multiplication over any addition and multiplication: the tiled loops compute what the simple ones do. */
module Matrix {

  /** The number operations stay uninterpreted, so nothing below reorders or regroups a sum. */
  datatype Ops<!T> = Ops(zero: T, add: (T, T) -> T, mul: (T, T) -> T)

  // ---------- row-major indices ----------

  function Index(size: nat, i: nat, j: nat): nat {
    i * size + j
  }

  lemma IndexInside(size: nat, i: nat, j: nat)
    requires i < size && j < size
    ensures Index(size, i, j) < size * size
  {
    assert (i + 1) * size <= size * size;
    assert (i + 1) * size == i * size + size;
  }

  lemma IndexInjective(size: nat, i: nat, j: nat, p: nat, q: nat)
    requires j < size && q < size && Index(size, i, j) == Index(size, p, q)
    ensures i == p && j == q
  {
    if i < p {
      RowsApart(size, i, p);
    } else if p < i {
      RowsApart(size, p, i);
    }
  }

  lemma RowsApart(size: nat, i: nat, p: nat)
    requires i < p
    ensures i * size + size <= p * size
  {
    assert (i + 1) * size <= p * size;
    assert (i + 1) * size == i * size + size;
  }

  function Cell<T>(m: seq<T>, size: nat, i: nat, j: nat): T
    requires |m| == size * size && i < size && j < size
  {
    IndexInside(size, i, j);
    m[Index(size, i, j)]
  }

  lemma CellUpdate<T>(m: seq<T>, size: nat, i: nat, j: nat, v: T)
    requires |m| == size * size && i < size && j < size
    ensures Index(size, i, j) < |m|
    ensures forall p, q :: 0 <= p < size && 0 <= q < size ==>
              Cell(m[Index(size, i, j) := v], size, p, q) == if p == i && q == j then v else Cell(m, size, p, q)
  {
    IndexInside(size, i, j);
    var m' := m[Index(size, i, j) := v];
    forall p, q | 0 <= p < size && 0 <= q < size
      ensures Cell(m', size, p, q) == if p == i && q == j then v else Cell(m, size, p, q)
    {
      IndexInside(size, p, q);
      if Index(size, p, q) == Index(size, i, j) {
        IndexInjective(size, p, q, i, j);
      }
    }
  }

  // ---------- what is computed ----------

  /** The sum of the first `n` products of row `i` and column `j`, added up from the left. */
  function Dot<T>(ops: Ops<T>, a: seq<T>, b: seq<T>, size: nat, i: nat, j: nat, n: nat): T
    requires |a| == |b| == size * size && i < size && j < size && n <= size
  {
    if n == 0 then ops.zero
    else (ops.add)(Dot(ops, a, b, size, i, j, n - 1), (ops.mul)(Cell(a, size, i, n - 1), Cell(b, size, n - 1, j)))
  }

  /** The matrix a run of the tiled loops leaves: products inside the whole tiles, `c0` elsewhere. */
  ghost predicate TiledResult<T(!new)>(ops: Ops<T>, a: seq<T>, b: seq<T>, c0: seq<T>, c: seq<T>, size: nat, tile: nat)
    requires |a| == |b| == |c0| == |c| == size * size && tile > 0
  {
    var n := (size / tile) * tile;
    forall p, q :: 0 <= p < size && 0 <= q < size ==>
      Cell(c, size, p, q) == if p < n && q < n then Dot(ops, a, b, size, p, q, n) else Cell(c0, size, p, q)
  }

  /** The matrix the simple loops leave. */
  ghost predicate SimpleResult<T(!new)>(ops: Ops<T>, a: seq<T>, b: seq<T>, c: seq<T>, size: nat)
    requires |a| == |b| == |c| == size * size
  {
    forall p, q :: 0 <= p < size && 0 <= q < size ==> Cell(c, size, p, q) == Dot(ops, a, b, size, p, q, size)
  }

  // ---------- the simple loops ----------

  ghost predicate Before(i: nat, j: nat, p: nat, q: nat) {
    p < i || (p == i && q < j)
  }

  /** `mat_multiply`. */
  method Multiply<T(!new)>(ops: Ops<T>, a: array<T>, b: array<T>, c: array<T>, size: nat)
    requires a.Length == b.Length == c.Length == size * size && a != c && b != c
    modifies c
    ensures SimpleResult(ops, a[..], b[..], c[..], size)
  {
    for i := 0 to size
      invariant forall p, q :: 0 <= p < i && 0 <= q < size ==>
                  Cell(c[..], size, p, q) == Dot(ops, a[..], b[..], size, p, q, size)
    {
      for j := 0 to size
        invariant forall p, q :: 0 <= p < size && 0 <= q < size && Before(i, j, p, q) ==>
                    Cell(c[..], size, p, q) == Dot(ops, a[..], b[..], size, p, q, size)
      {
        SetCell(c, size, i, j, ops.zero);
        AddProducts(ops, a, b, c, size, i, j, 0, size);
      }
    }
  }

  method SetCell<T>(c: array<T>, size: nat, i: nat, j: nat, v: T)
    requires c.Length == size * size && i < size && j < size
    modifies c
    ensures forall p, q :: 0 <= p < size && 0 <= q < size ==>
              Cell(c[..], size, p, q) == if p == i && q == j then v else Cell(old(c[..]), size, p, q)
  {
    CellUpdate(c[..], size, i, j, v);
    ghost var before := c[..];
    c[i * size + j] := v;
    assert c[..] == before[Index(size, i, j) := v];
  }

  /** The innermost loop: products `from` to `from + count` are added to one cell, in that order. */
  method AddProducts<T>(ops: Ops<T>, a: array<T>, b: array<T>, c: array<T>, size: nat, i: nat, j: nat, from: nat,
                        count: nat)
    requires a.Length == b.Length == c.Length == size * size && a != c && b != c
    requires i < size && j < size && from + count <= size
    requires Cell(c[..], size, i, j) == Dot(ops, a[..], b[..], size, i, j, from)
    modifies c
    ensures forall p, q :: 0 <= p < size && 0 <= q < size ==>
              Cell(c[..], size, p, q) == if p == i && q == j then Dot(ops, a[..], b[..], size, i, j, from + count)
                                         else Cell(old(c[..]), size, p, q)
  {
    for k := 0 to count
      invariant forall p, q :: 0 <= p < size && 0 <= q < size ==>
                  Cell(c[..], size, p, q) == if p == i && q == j then Dot(ops, a[..], b[..], size, i, j, from + k)
                                             else Cell(old(c[..]), size, p, q)
    {
      IndexInside(size, i, j);
      IndexInside(size, i, from + k);
      IndexInside(size, from + k, j);
      assert c[i * size + j] == Cell(c[..], size, i, j);
      assert a[i * size + (from + k)] == Cell(a[..], size, i, from + k);
      assert b[(from + k) * size + j] == Cell(b[..], size, from + k, j);
      SetCell(c, size, i, j, (ops.add)(c[i * size + j], (ops.mul)(a[i * size + (from + k)], b[(from + k) * size + j])));
    }
  }

  // ---------- the tiled loops ----------

  /** Cell `(p, q)` lies in the square of side `tile` whose first cell is `(i0, j0)`. */
  predicate InBox(p: nat, q: nat, i0: nat, j0: nat, tile: nat) {
    i0 <= p < i0 + tile && j0 <= q < j0 + tile
  }

  method ZeroTile<T>(ops: Ops<T>, c: array<T>, size: nat, tile: nat, i0: nat, j0: nat)
    requires c.Length == size * size && i0 + tile <= size && j0 + tile <= size
    modifies c
    ensures forall p, q :: 0 <= p < size && 0 <= q < size ==>
              Cell(c[..], size, p, q) == if InBox(p, q, i0, j0, tile) then ops.zero else Cell(old(c[..]), size, p, q)
  {
    for i := 0 to tile
      invariant forall p, q :: 0 <= p < size && 0 <= q < size ==>
                  Cell(c[..], size, p, q) == if InBox(p, q, i0, j0, tile) && p < i0 + i then ops.zero
                                             else Cell(old(c[..]), size, p, q)
    {
      for j := 0 to tile
        invariant forall p, q :: 0 <= p < size && 0 <= q < size ==>
                    Cell(c[..], size, p, q) == if InBox(p, q, i0, j0, tile) && Before(i0 + i, j0 + j, p, q)
                                               then ops.zero else Cell(old(c[..]), size, p, q)
      {
        SetCell(c, size, i0 + i, j0 + j, ops.zero);
      }
    }
  }

  /** The sums of a whole tile are carried on over the next `tile` products. */
  method AddTile<T>(ops: Ops<T>, a: array<T>, b: array<T>, c: array<T>, size: nat, tile: nat, i0: nat, j0: nat, k0: nat)
    requires a.Length == b.Length == c.Length == size * size && a != c && b != c
    requires i0 + tile <= size && j0 + tile <= size && k0 + tile <= size
    requires forall p, q :: 0 <= p < size && 0 <= q < size && InBox(p, q, i0, j0, tile) ==>
               Cell(c[..], size, p, q) == Dot(ops, a[..], b[..], size, p, q, k0)
    modifies c
    ensures forall p, q :: 0 <= p < size && 0 <= q < size ==>
              Cell(c[..], size, p, q) == if InBox(p, q, i0, j0, tile) then Dot(ops, a[..], b[..], size, p, q, k0 + tile)
                                         else Cell(old(c[..]), size, p, q)
  {
    for i := 0 to tile
      invariant forall p, q :: 0 <= p < size && 0 <= q < size ==>
                  Cell(c[..], size, p, q) == if InBox(p, q, i0, j0, tile) && p < i0 + i
                                             then Dot(ops, a[..], b[..], size, p, q, k0 + tile)
                                             else Cell(old(c[..]), size, p, q)
    {
      for j := 0 to tile
        invariant forall p, q :: 0 <= p < size && 0 <= q < size ==>
                    Cell(c[..], size, p, q) == if InBox(p, q, i0, j0, tile) && Before(i0 + i, j0 + j, p, q)
                                               then Dot(ops, a[..], b[..], size, p, q, k0 + tile)
                                               else Cell(old(c[..]), size, p, q)
      {
        AddProducts(ops, a, b, c, size, i0 + i, j0 + j, k0, tile);
      }
    }
  }

  /** All products of one tile of the result: the tile is cleared, then each `tk` adds its share, in order. */
  method ComputeTile<T>(ops: Ops<T>, a: array<T>, b: array<T>, c: array<T>, size: nat, tile: nat, nTiles: nat, i0: nat,
                        j0: nat)
    requires a.Length == b.Length == c.Length == size * size && a != c && b != c
    requires nTiles * tile <= size && i0 + tile <= size && j0 + tile <= size
    modifies c
    ensures forall p, q :: 0 <= p < size && 0 <= q < size ==>
              Cell(c[..], size, p, q) == if InBox(p, q, i0, j0, tile)
                                         then Dot(ops, a[..], b[..], size, p, q, nTiles * tile)
                                         else Cell(old(c[..]), size, p, q)
  {
    ZeroTile(ops, c, size, tile, i0, j0);
    for tk := 0 to nTiles
      invariant tk * tile <= nTiles * tile
      invariant forall p, q :: 0 <= p < size && 0 <= q < size ==>
                  Cell(c[..], size, p, q) == if InBox(p, q, i0, j0, tile)
                                             then Dot(ops, a[..], b[..], size, p, q, tk * tile)
                                             else Cell(old(c[..]), size, p, q)
    {
      TileStep(nTiles, tile, tk);
      AddTile(ops, a, b, c, size, tile, i0, j0, tk * tile);
    }
  }

  lemma TileStep(n: nat, tile: nat, t: nat)
    requires t < n
    ensures t * tile + tile == (t + 1) * tile <= n * tile
  {
    assert (n - t - 1) * tile >= 0;
    assert n * tile == (t + 1) * tile + (n - t - 1) * tile;
  }

  /** One row of tiles. */
  method ComputeTileRow<T>(ops: Ops<T>, a: array<T>, b: array<T>, c: array<T>, size: nat, tile: nat, nTiles: nat,
                           i0: nat)
    requires a.Length == b.Length == c.Length == size * size && a != c && b != c
    requires nTiles * tile <= size && i0 + tile <= size
    modifies c
    ensures forall p, q :: 0 <= p < size && 0 <= q < size ==>
              Cell(c[..], size, p, q) == if i0 <= p < i0 + tile && q < nTiles * tile
                                         then Dot(ops, a[..], b[..], size, p, q, nTiles * tile)
                                         else Cell(old(c[..]), size, p, q)
  {
    ghost var n := nTiles * tile;
    for tj := 0 to nTiles
      invariant tj * tile <= n
      invariant forall p, q :: 0 <= p < size && 0 <= q < size ==>
                  Cell(c[..], size, p, q) == if i0 <= p < i0 + tile && q < tj * tile
                                             then Dot(ops, a[..], b[..], size, p, q, n)
                                             else Cell(old(c[..]), size, p, q)
    {
      TileStep(nTiles, tile, tj);
      ComputeTile(ops, a, b, c, size, tile, nTiles, i0, tj * tile);
    }
  }

  /**
   * `mat_multiply_opt` for any positive tile size: the cells inside the whole tiles hold the sums of as many products
   * as the whole tiles cover, and all other cells are left as they were.
   */
  method MultiplyTiled<T(!new)>(ops: Ops<T>, a: array<T>, b: array<T>, c: array<T>, size: nat, tile: nat)
    requires a.Length == b.Length == c.Length == size * size && a != c && b != c && tile > 0
    modifies c
    ensures TiledResult(ops, a[..], b[..], old(c[..]), c[..], size, tile)
  {
    var nTiles := size / tile;
    ghost var n := nTiles * tile;
    WholeTiles(size, tile);
    for ti := 0 to nTiles
      invariant ti * tile <= n
      invariant forall p, q :: 0 <= p < size && 0 <= q < size ==>
                  Cell(c[..], size, p, q) == if p < ti * tile && q < n then Dot(ops, a[..], b[..], size, p, q, n)
                                             else Cell(old(c[..]), size, p, q)
    {
      TileStep(nTiles, tile, ti);
      ComputeTileRow(ops, a, b, c, size, tile, nTiles, ti * tile);
    }
  }

  lemma WholeTiles(size: nat, tile: nat)
    requires tile > 0
    ensures (size / tile) * tile <= size
    ensures size % tile == 0 <==> (size / tile) * tile == size
  {
  }

  lemma PlaceOfIndex(size: nat, k: nat)
    requires k < size * size
    ensures k / size < size && k == Index(size, k / size, k % size)
  {
    if k / size >= size {
      RowsApart(size, size - 1, k / size);
    }
  }

  /** The cells determine the matrix. */
  lemma SameCells<T>(x: seq<T>, y: seq<T>, size: nat)
    requires |x| == |y| == size * size
    requires forall p, q :: 0 <= p < size && 0 <= q < size ==> Cell(x, size, p, q) == Cell(y, size, p, q)
    ensures x == y
  {
    forall k | 0 <= k < |x| ensures x[k] == y[k] {
      PlaceOfIndex(size, k);
      assert Cell(x, size, k / size, k % size) == Cell(y, size, k / size, k % size);
    }
  }

  /** When the tile size divides the matrix size, the tiled and the simple loops leave the same matrix, bit for bit. */
  lemma TiledRefinesSimple<T(!new)>(ops: Ops<T>, a: seq<T>, b: seq<T>, c0: seq<T>, x: seq<T>, y: seq<T>, size: nat,
                                    tile: nat)
    requires |a| == |b| == |c0| == |x| == |y| == size * size && tile > 0 && size % tile == 0
    requires TiledResult(ops, a, b, c0, x, size, tile) && SimpleResult(ops, a, b, y, size)
    ensures x == y
  {
    WholeTiles(size, tile);
    forall p, q | 0 <= p < size && 0 <= q < size ensures Cell(x, size, p, q) == Cell(y, size, p, q) {
    }
    SameCells(x, y, size);
  }

  const INTEGERS: Ops<int> := Ops(0, (x: int, y: int) => x + y, (x: int, y: int) => x * y)

  /** Whatever the integer matrices, and whatever `c` held before, the tiled loops leave the product. */
  ghost predicate TiledIsRight(size: nat, tile: nat)
    requires tile > 0
  {
    forall a: seq<int>, b: seq<int>, c0: seq<int>, x: seq<int>, y: seq<int>
      {:trigger TiledCase(a, b, c0, x, y, size, tile)} ::
      TiledCase(a, b, c0, x, y, size, tile) ==> x == y
  }

  ghost predicate TiledCase(a: seq<int>, b: seq<int>, c0: seq<int>, x: seq<int>, y: seq<int>, size: nat, tile: nat)
    requires tile > 0
  {
    && |a| == |b| == |c0| == |x| == |y| == size * size
    && TiledResult(INTEGERS, a, b, c0, x, size, tile) && SimpleResult(INTEGERS, a, b, y, size)
  }

  function Constant(n: nat, v: int): (m: seq<int>)
    ensures |m| == n && forall k :: 0 <= k < n ==> m[k] == v
  {
    if n == 0 then [] else [v] + Constant(n - 1, v)
  }

  lemma {:induction false} ZeroDot(z: seq<int>, size: nat, i: nat, j: nat, n: nat)
    requires |z| == size * size && i < size && j < size && n <= size
    requires forall k :: 0 <= k < |z| ==> z[k] == 0
    ensures Dot(INTEGERS, z, z, size, i, j, n) == 0
  {
    hide Constant;
    if n > 0 {
      ZeroDot(z, size, i, j, n - 1);
      IndexInside(size, i, n - 1);
      IndexInside(size, n - 1, j);
      assert Cell(z, size, i, n - 1) == 0 && Cell(z, size, n - 1, j) == 0;
    }
  }

  /** A matrix of zeros with ones outside the whole tiles, built row by row. */
  function Frame(size: nat, n: nat, k: nat): (m: seq<int>)
    requires size > 0
    ensures |m| == k && forall i :: 0 <= i < k ==> m[i] == if i / size < n && i % size < n then 0 else 1
  {
    if k == 0 then [] else Frame(size, n, k - 1) + [if (k - 1) / size < n && (k - 1) % size < n then 0 else 1]
  }

  lemma RowAndColumn(size: nat, p: nat, q: nat)
    requires q < size
    ensures Index(size, p, q) / size == p && Index(size, p, q) % size == q
  {
    var k := Index(size, p, q);
    assert k == Index(size, k / size, k % size);
    IndexInjective(size, k / size, k % size, p, q);
  }

  /** Over the integers the tiled loops leave the product for all inputs exactly when the tile size divides the size. */
  lemma TiledIsRightIff(size: nat, tile: nat)
    requires tile > 0
    ensures TiledIsRight(size, tile) <==> size % tile == 0
  {
    WholeTiles(size, tile);
    if size % tile == 0 {
      forall a: seq<int>, b: seq<int>, c0: seq<int>, x: seq<int>, y: seq<int> | TiledCase(a, b, c0, x, y, size, tile)
        ensures x == y
      {
        TiledRefinesSimple(INTEGERS, a, b, c0, x, y, size, tile);
      }
    } else {
      WrongLastCell(size, tile);
    }
  }

  lemma WrongLastCell(size: nat, tile: nat)
    requires tile > 0 && size % tile != 0
    ensures !TiledIsRight(size, tile)
  {
    WholeTiles(size, tile);
    var n, s := (size / tile) * tile, size * size;
    var zeros, ones := Constant(s, 0), Constant(s, 1);
    var x := Frame(size, n, s);
    forall p, q | 0 <= p < size && 0 <= q < size
      ensures Cell(x, size, p, q) == (if p < n && q < n then 0 else 1) && Cell(zeros, size, p, q) == 0
      ensures Cell(ones, size, p, q) == 1
      ensures Dot(INTEGERS, zeros, zeros, size, p, q, n) == 0 == Dot(INTEGERS, zeros, zeros, size, p, q, size)
    {
      IndexInside(size, p, q);
      RowAndColumn(size, p, q);
      ZeroDot(zeros, size, p, q, n);
      ZeroDot(zeros, size, p, q, size);
    }
    assert TiledCase(zeros, zeros, ones, x, zeros, size, tile);
    assert Cell(x, size, size - 1, size - 1) != Cell(zeros, size, size - 1, size - 1);
  }

  // ---------- the sums are those of a matrix product ----------

  /** Matrices are stored row by row. */
  lemma CellByPlace<T>(m: seq<T>, size: nat, i: nat, j: nat)
    requires |m| == size * size && i < size && j < size
    ensures i * size + j < |m| && Cell(m, size, i, j) == m[i * size + j]
  {
    IndexInside(size, i, j);
  }

  /** The sum of products by row-major places: row `i` of `a` against column `j` of `b`, added from the left. */
  lemma DotByPlaces<T>(ops: Ops<T>, a: seq<T>, b: seq<T>, size: nat, i: nat, j: nat, n: nat)
    requires |a| == |b| == size * size && i < size && j < size && n < size
    ensures i * size + n < |a| && n * size + j < |b|
    ensures Dot(ops, a, b, size, i, j, 0) == ops.zero
    ensures Dot(ops, a, b, size, i, j, n + 1)
         == (ops.add)(Dot(ops, a, b, size, i, j, n), (ops.mul)(a[i * size + n], b[n * size + j]))
  {
    IndexInside(size, i, n);
    IndexInside(size, n, j);
  }

  lemma {:induction false} IdentityDot(e: seq<int>, b: seq<int>, size: nat, i: nat, j: nat, n: nat)
    requires |e| == |b| == size * size && i < size && j < size && n <= size
    requires forall p, q :: 0 <= p < size && 0 <= q < size ==> Cell(e, size, p, q) == if p == q then 1 else 0
    ensures Dot(INTEGERS, e, b, size, i, j, n) == if i < n then Cell(b, size, i, j) else 0
  {
    if n > 0 {
      IdentityDot(e, b, size, i, j, n - 1);
      assert Cell(e, size, i, n - 1) == if i == n - 1 then 1 else 0;
    }
  }

  /** The identity matrix times `b` is `b`. */
  lemma IdentityTimes(e: seq<int>, b: seq<int>, x: seq<int>, size: nat)
    requires |e| == |b| == |x| == size * size && SimpleResult(INTEGERS, e, b, x, size)
    requires forall p, q :: 0 <= p < size && 0 <= q < size ==> Cell(e, size, p, q) == if p == q then 1 else 0
    ensures x == b
  {
    forall p, q | 0 <= p < size && 0 <= q < size ensures Cell(x, size, p, q) == Cell(b, size, p, q) {
      IdentityDot(e, b, size, p, q, size);
      assert Cell(x, size, p, q) == Dot(INTEGERS, e, b, size, p, q, size);
    }
    SameCells(x, b, size);
  }

  /** The sum over k < n of (the sum over l < m of a[i, l] * b[l, k]) * c[k, j]. */
  function DoubleSum(a: seq<int>, b: seq<int>, c: seq<int>, size: nat, i: nat, j: nat, n: nat, m: nat): int
    requires |a| == |b| == |c| == size * size && i < size && j < size && n <= size && m <= size
  {
    if n == 0 then 0
    else DoubleSum(a, b, c, size, i, j, n - 1, m) + Dot(INTEGERS, a, b, size, i, n - 1, m) * Cell(c, size, n - 1, j)
  }

  lemma Distribute(s: int, x: int, d: int, p: int, y: int, z: int)
    ensures (s + x * d) + (p + x * y) * z == (s + p * z) + x * (d + y * z)
  {
  }

  lemma {:induction false} DoubleSumGrows(a: seq<int>, b: seq<int>, c: seq<int>, size: nat, i: nat, j: nat, n: nat,
                                          m: nat)
    requires |a| == |b| == |c| == size * size && i < size && j < size && n <= size && m < size
    ensures DoubleSum(a, b, c, size, i, j, n, m + 1)
         == DoubleSum(a, b, c, size, i, j, n, m) + Cell(a, size, i, m) * Dot(INTEGERS, b, c, size, m, j, n)
  {
    hide Cell;
    if n > 0 {
      DoubleSumGrows(a, b, c, size, i, j, n - 1, m);
      Distribute(DoubleSum(a, b, c, size, i, j, n - 1, m), Cell(a, size, i, m), Dot(INTEGERS, b, c, size, m, j, n - 1),
                 Dot(INTEGERS, a, b, size, i, n - 1, m), Cell(b, size, m, n - 1), Cell(c, size, n - 1, j));
    }
  }

  lemma {:induction false} NoSum(a: seq<int>, b: seq<int>, c: seq<int>, size: nat, i: nat, j: nat, n: nat)
    requires |a| == |b| == |c| == size * size && i < size && j < size && n <= size
    ensures DoubleSum(a, b, c, size, i, j, n, 0) == 0
  {
    if n > 0 {
      NoSum(a, b, c, size, i, j, n - 1);
    }
  }

  /** Summed over k first. */
  lemma {:induction false} RightSum(a: seq<int>, b: seq<int>, c: seq<int>, bc: seq<int>, size: nat, i: nat, j: nat,
                                    m: nat)
    requires |a| == |b| == |c| == |bc| == size * size && i < size && j < size && m <= size
    requires SimpleResult(INTEGERS, b, c, bc, size)
    ensures Dot(INTEGERS, a, bc, size, i, j, m) == DoubleSum(a, b, c, size, i, j, size, m)
  {
    hide Cell, DoubleSum;
    if m == 0 {
      NoSum(a, b, c, size, i, j, size);
    } else {
      RightSum(a, b, c, bc, size, i, j, m - 1);
      DoubleSumGrows(a, b, c, size, i, j, size, m - 1);
      assert Cell(bc, size, m - 1, j) == Dot(INTEGERS, b, c, size, m - 1, j, size);
    }
  }

  /** Summed over l first. */
  lemma {:induction false} LeftSum(a: seq<int>, b: seq<int>, c: seq<int>, ab: seq<int>, size: nat, i: nat, j: nat,
                                   n: nat)
    requires |a| == |b| == |c| == |ab| == size * size && i < size && j < size && n <= size
    requires SimpleResult(INTEGERS, a, b, ab, size)
    ensures Dot(INTEGERS, ab, c, size, i, j, n) == DoubleSum(a, b, c, size, i, j, n, size)
  {
    hide Cell;
    if n > 0 {
      LeftSum(a, b, c, ab, size, i, j, n - 1);
      assert Cell(ab, size, i, n - 1) == Dot(INTEGERS, a, b, size, i, n - 1, size);
    }
  }

  /** (a b) c is a (b c), for whatever the simple loops leave. */
  lemma ProductAssociates(a: seq<int>, b: seq<int>, c: seq<int>, ab: seq<int>, bc: seq<int>, x: seq<int>, y: seq<int>,
                          size: nat)
    requires |a| == |b| == |c| == |ab| == |bc| == |x| == |y| == size * size
    requires SimpleResult(INTEGERS, a, b, ab, size) && SimpleResult(INTEGERS, ab, c, x, size)
    requires SimpleResult(INTEGERS, b, c, bc, size) && SimpleResult(INTEGERS, a, bc, y, size)
    ensures x == y
  {
    hide Cell, DoubleSum, Dot;
    forall p, q | 0 <= p < size && 0 <= q < size ensures Cell(x, size, p, q) == Cell(y, size, p, q) {
      LeftSum(a, b, c, ab, size, p, q, size);
      RightSum(a, b, c, bc, size, p, q, size);
      assert Cell(x, size, p, q) == Dot(INTEGERS, ab, c, size, p, q, size);
      assert Cell(y, size, p, q) == Dot(INTEGERS, a, bc, size, p, q, size);
    }
    SameCells(x, y, size);
  }
}
