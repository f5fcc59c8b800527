/**
 * The uniform spatial grid over the toroidal frame. Cells are `cellSize` wide;
 * each cell holds a bucket of particles (a hash set in the original, here a
 * duplicate-free sequence in insertion order). A neighbour query concatenates
 * the buckets of the 3 x 3 block of cells around a particle's cell, wrapping
 * column and row indices around the torus, and then removes the queried
 * particle once, by identity.
 */
module Grids {
  import opened JavaMath
  import opened Particles

  // ---------------------------------------------------------------------------
  // Cell arithmetic
  // ---------------------------------------------------------------------------

  /** The number of cells across an extent: `(int) Math.ceil(extent / cellSize)`. */
  function CellsAcross(extent: int, cellSize: real): (n: int)
    requires extent > 0 && cellSize > 0.0
    ensures n >= 1
  {
    DivisionByPositive(0.0, extent as real, cellSize);
    Ceil(extent as real / cellSize)
  }

  /** The cells across an extent cover it, and the last of them is needed. */
  lemma CellsAcrossCover(extent: int, cellSize: real)
    requires extent > 0 && cellSize > 0.0
    ensures var n := CellsAcross(extent, cellSize);
      (n - 1) as real * cellSize < extent as real <= n as real * cellSize
  {
    var n := CellsAcross(extent, cellSize) as real;
    var q := extent as real / cellSize;
    DivisionByPositive(extent as real, extent as real, cellSize);
    assert n - 1.0 < q <= n;
    var over, under := n - q, q - n + 1.0;
    ProductSign(over, cellSize);
    ProductSign(under, cellSize);
    assert over * cellSize == n * cellSize - extent as real;
    assert under * cellSize == extent as real - (n - 1.0) * cellSize;
  }

  /** The column (or row) of a coordinate: `(int) (v / cellSize)`. */
  function Column(v: real, cellSize: real): int
    requires cellSize > 0.0
  {
    Trunc(v / cellSize)
  }

  /** A coordinate inside the extent falls into one of the cells across it. */
  lemma ColumnInRange(v: real, extent: int, cellSize: real)
    requires extent > 0 && cellSize > 0.0
    requires 0.0 <= v < extent as real
    ensures 0 <= Column(v, cellSize) < CellsAcross(extent, cellSize)
  {
    DivisionByPositive(0.0, v, cellSize);
    DivisionByPositive(v, extent as real, cellSize);
    assert Column(v, cellSize) as real <= v / cellSize < extent as real / cellSize;
  }

  /** The position lies in a cell of a `cols` by `rows` grid. */
  predicate InRange(x: real, y: real, cellSize: real, cols: int, rows: int)
    requires cellSize > 0.0
  {
    0 <= Column(x, cellSize) < cols && 0 <= Column(y, cellSize) < rows
  }

  /** Row-major cell index of a position: `row * cols + col`. */
  function CellIndex(x: real, y: real, cellSize: real, cols: int): int
    requires cellSize > 0.0
  {
    Column(y, cellSize) * cols + Column(x, cellSize)
  }

  /** Row-major indexing of a `cols`-wide grid: Java's `/` and `%` by `cols` give back the row and the column. */
  lemma RowMajor(col: int, row: int, cols: int, rows: int)
    requires 0 <= col < cols && 0 <= row < rows
    ensures 0 <= row * cols + col < cols * rows
    ensures IntDiv(row * cols + col, cols) == row && IntRem(row * cols + col, cols) == col
  {
    MulMonotone(row, rows - 1, cols);
    assert (rows - 1) * cols == rows * cols - cols;
    ProductNonNegative(row, cols);
    DivRemUnique(row * cols + col, cols, row, col);
  }

  lemma MulMonotone(a: int, b: int, c: int)
    requires a <= b && c >= 0
    ensures a * c <= b * c
  {
    ProductNonNegative(b - a, c);
    assert b * c - a * c == (b - a) * c;
  }

  /** Distinct (column, row) pairs of a grid have distinct row-major indices. */
  lemma RowMajorInjective(c1: int, r1: int, c2: int, r2: int, cols: int, rows: int)
    requires 0 <= c1 < cols && 0 <= r1 < rows && 0 <= c2 < cols && 0 <= r2 < rows
    requires r1 * cols + c1 == r2 * cols + c2
    ensures c1 == c2 && r1 == r2
  {
    RowMajor(c1, r1, cols, rows);
    RowMajor(c2, r2, cols, rows);
  }

  /** A valid bucket index splits into a column and a row inside the grid. */
  lemma RowMajorBounds(idx: int, cols: int, rows: int)
    requires cols > 0 && 0 <= idx < cols * rows
    ensures 0 <= IntRem(idx, cols) < cols && 0 <= IntDiv(idx, cols) < rows
    ensures IntDiv(idx, cols) * cols + IntRem(idx, cols) == idx
  {
    NonNegativeIntDivRem(idx, cols);
    var q := IntDiv(idx, cols);
    if q >= rows {
      MulMonotone(rows, q, cols);
    }
  }

  /** The column and row Java's `index % cols` and `index / cols` give for a valid bucket index. */
  function CellOf(idx: int, cols: int, rows: int): (cr: (int, int))
    requires cols > 0 && 0 <= idx < cols * rows
    ensures 0 <= cr.0 < cols && 0 <= cr.1 < rows
    ensures cr.1 * cols + cr.0 == idx
  {
    RowMajorBounds(idx, cols, rows);
    (IntRem(idx, cols), IntDiv(idx, cols))
  }

  /**
   * For a position inside the grid the cell index is a valid bucket index,
   * and Java's `index % cols` and `index / cols` recover its column and row.
   */
  lemma CellIndexDecomposes(x: real, y: real, cellSize: real, cols: int, rows: int)
    requires cellSize > 0.0 && InRange(x, y, cellSize, cols, rows)
    ensures 0 <= CellIndex(x, y, cellSize, cols) < cols * rows
    ensures IntRem(CellIndex(x, y, cellSize, cols), cols) == Column(x, cellSize)
    ensures IntDiv(CellIndex(x, y, cellSize, cols), cols) == Column(y, cellSize)
  {
    RowMajor(Column(x, cellSize), Column(y, cellSize), cols, rows);
  }

  /** Every position inside the frame lies in the grid built over the frame. */
  lemma FramePositionInRange(x: real, y: real, cellSize: real, width: int, height: int)
    requires cellSize > 0.0 && width > 0 && height > 0
    requires 0.0 <= x < width as real && 0.0 <= y < height as real
    ensures InRange(x, y, cellSize, CellsAcross(width, cellSize), CellsAcross(height, cellSize))
  {
    ColumnInRange(x, width, cellSize);
    ColumnInRange(y, height, cellSize);
  }

  /**
   * A column or row index at most one step off the grid, wrapped back onto it:
   * one step past either edge comes back in at the opposite edge.
   */
  function Wrap(i: int, n: int): (w: int)
    requires n > 0 && -1 <= i <= n
    ensures 0 <= w < n
  {
    if i == -1 then n - 1 else if i == n then 0 else i
  }

  /** Java's `(i + n) % n` is that wrap, for every index at most one step off the grid. */
  lemma JavaWrapIsWrap(i: int, n: int)
    requires n > 0 && -1 <= i <= n
    ensures IntRem(i + n, n) == Wrap(i, n)
  {
    if i == -1 {
      DivRemUnique(i + n, n, 0, n - 1);
    } else if i == n {
      DivRemUnique(i + n, n, 2, 0);
    } else {
      DivRemUnique(i + n, n, 1, i);
    }
  }

  /** Java's `(i + n) % n`, computed for an index at most one step off the grid. */
  method WrapAround(i: int, n: int) returns (w: int)
    requires n > 0 && -1 <= i <= n
    ensures w == Wrap(i, n)
  {
    w := IntRem(i + n, n);
    JavaWrapIsWrap(i, n);
  }

  /** The bucket visited for column offset `a` and row offset `b` (each 0, 1 or 2) around (`col`, `row`). */
  function BlockCell(col: int, row: int, cols: int, rows: int, a: int, b: int): int
    requires 0 <= col < cols && 0 <= row < rows && 0 <= a < 3 && 0 <= b < 3
  {
    Wrap(row - 1 + b, rows) * cols + Wrap(col - 1 + a, cols)
  }

  /**
   * The nine bucket indices a neighbour query visits, in the order it visits them:
   * columns `col - 1 .. col + 1` in the outer loop, rows `row - 1 .. row + 1` inside.
   */
  function BlockCells(col: int, row: int, cols: int, rows: int): (r: seq<int>)
    requires 0 <= col < cols && 0 <= row < rows
    ensures |r| == 9 && IndicesBelow(r, cols * rows)
  {
    BlockCellsInRange(col, row, cols, rows);
    [BlockCell(col, row, cols, rows, 0, 0), BlockCell(col, row, cols, rows, 0, 1), BlockCell(col, row, cols, rows, 0, 2),
     BlockCell(col, row, cols, rows, 1, 0), BlockCell(col, row, cols, rows, 1, 1), BlockCell(col, row, cols, rows, 1, 2),
     BlockCell(col, row, cols, rows, 2, 0), BlockCell(col, row, cols, rows, 2, 1), BlockCell(col, row, cols, rows, 2, 2)]
  }

  /** Visit number `3 * a + b` is column offset `a`, row offset `b`. */
  lemma BlockCellsAt(col: int, row: int, cols: int, rows: int, a: int, b: int)
    requires 0 <= col < cols && 0 <= row < rows && 0 <= a < 3 && 0 <= b < 3
    ensures BlockCells(col, row, cols, rows)[3 * a + b] == BlockCell(col, row, cols, rows, a, b)
  {
  }

  /** The visit for grid column `i` and grid row `j`, before wrapping, is the bucket of their wrapped values. */
  lemma BlockCellsVisit(col: int, row: int, cols: int, rows: int, i: int, j: int)
    requires 0 <= col < cols && 0 <= row < rows && col - 1 <= i <= col + 1 && row - 1 <= j <= row + 1
    ensures BlockCells(col, row, cols, rows)[3 * (i - col + 1) + (j - row + 1)] == Wrap(j, rows) * cols + Wrap(i, cols)
  {
    var a, b := i - col + 1, j - row + 1;
    BlockCellsAt(col, row, cols, rows, a, b);
    assert col - 1 + a == i && row - 1 + b == j;
  }

  /** One more step of the neighbour walk extends the visited prefix by the next bucket, which is in bounds. */
  lemma VisitStep(col: int, row: int, cols: int, rows: int, i: int, j: int, visited: seq<int>)
    requires 0 <= col < cols && 0 <= row < rows && col - 1 <= i <= col + 1 && row - 1 <= j <= row + 1
    requires |visited| == 3 * (i - col + 1) + (j - row + 1) && visited == BlockCells(col, row, cols, rows)[..|visited|]
    ensures var next := Wrap(j, rows) * cols + Wrap(i, cols);
      0 <= next < cols * rows && visited + [next] == BlockCells(col, row, cols, rows)[..|visited| + 1]
  {
    BlockCellsVisit(col, row, cols, rows, i, j);
    RowMajor(Wrap(i, cols), Wrap(j, rows), cols, rows);
  }

  /** Every bucket the walk visits is in bounds. */
  lemma BlockCellsInRange(col: int, row: int, cols: int, rows: int)
    requires 0 <= col < cols && 0 <= row < rows
    ensures forall a, b :: 0 <= a < 3 && 0 <= b < 3 ==> 0 <= BlockCell(col, row, cols, rows, a, b) < cols * rows
  {
    forall a, b | 0 <= a < 3 && 0 <= b < 3
      ensures 0 <= BlockCell(col, row, cols, rows, a, b) < cols * rows
    {
      RowMajor(Wrap(col - 1 + a, cols), Wrap(row - 1 + b, rows), cols, rows);
    }
  }

  /** The query's own cell is the fifth one visited. */
  lemma BlockCellsCentre(col: int, row: int, cols: int, rows: int)
    requires 0 <= col < cols && 0 <= row < rows
    ensures BlockCells(col, row, cols, rows)[4] == row * cols + col
  {
  }

  predicate NoDuplicates<T(==)>(s: seq<T>)
  {
    forall i, j :: 0 <= i < j < |s| ==> s[i] != s[j]
  }

  /**
   * The nine visited cells are distinct exactly when the grid is at least three
   * cells wide and three cells high; on a narrower grid some bucket is visited twice.
   */
  lemma BlockCellsDistinctIff(col: int, row: int, cols: int, rows: int)
    requires 0 <= col < cols && 0 <= row < rows
    ensures NoDuplicates(BlockCells(col, row, cols, rows)) <==> cols >= 3 && rows >= 3
  {
    var b := BlockCells(col, row, cols, rows);
    if cols >= 3 && rows >= 3 {
      forall k, m | 0 <= k < m < 9
        ensures b[k] != b[m]
      {
        BlockCellsDiffer(col, row, cols, rows, k, m);
      }
    } else if cols < 3 {
      var a, a' := WrappedTripleRepeats(col, cols);
      BlockCellsAt(col, row, cols, rows, a, 0);
      BlockCellsAt(col, row, cols, rows, a', 0);
      assert b[3 * a] == b[3 * a'];
    } else {
      var c, c' := WrappedTripleRepeats(row, rows);
      BlockCellsAt(col, row, cols, rows, 0, c);
      BlockCellsAt(col, row, cols, rows, 0, c');
      assert b[c] == b[c'];
    }
  }

  /** On a grid at least three by three, two different visits go to different buckets. */
  lemma BlockCellsDiffer(col: int, row: int, cols: int, rows: int, k: int, m: int)
    requires 0 <= col < cols && 0 <= row < rows && cols >= 3 && rows >= 3
    requires 0 <= k < m < 9
    ensures BlockCells(col, row, cols, rows)[k] != BlockCells(col, row, cols, rows)[m]
  {
    BlockCellsAt(col, row, cols, rows, k / 3, k % 3);
    BlockCellsAt(col, row, cols, rows, m / 3, m % 3);
    BlockCellDistinct(col, row, cols, rows, k / 3, k % 3, m / 3, m % 3);
  }

  lemma BlockCellDistinct(col: int, row: int, cols: int, rows: int, a: int, b: int, a': int, b': int)
    requires 0 <= col < cols && 0 <= row < rows && cols >= 3 && rows >= 3
    requires 0 <= a < 3 && 0 <= b < 3 && 0 <= a' < 3 && 0 <= b' < 3 && (a, b) != (a', b')
    ensures BlockCell(col, row, cols, rows, a, b) != BlockCell(col, row, cols, rows, a', b')
  {
    var c1, r1 := Wrap(col - 1 + a, cols), Wrap(row - 1 + b, rows);
    var c2, r2 := Wrap(col - 1 + a', cols), Wrap(row - 1 + b', rows);
    if r1 * cols + c1 == r2 * cols + c2 {
      RowMajorInjective(c1, r1, c2, r2, cols, rows);
      if a < a' {
        WrappedTripleDistinct(col, cols, a, a');
      } else if a' < a {
        WrappedTripleDistinct(col, cols, a', a);
      } else if b < b' {
        WrappedTripleDistinct(row, rows, b, b');
      } else {
        WrappedTripleDistinct(row, rows, b', b);
      }
    }
  }

  /** On an axis at least three cells long, the three wrapped offsets are distinct. */
  lemma WrappedTripleDistinct(c: int, n: int, i: int, i': int)
    requires 0 <= c < n && n >= 3 && 0 <= i < i' < 3
    ensures Wrap(c - 1 + i, n) != Wrap(c - 1 + i', n)
  {
  }

  /** On an axis fewer than three cells long, two of the three wrapped offsets coincide. */
  lemma WrappedTripleRepeats(c: int, n: int) returns (i: int, i': int)
    requires 0 <= c < n && n < 3
    ensures 0 <= i < i' < 3 && Wrap(c - 1 + i, n) == Wrap(c - 1 + i', n)
  {
    i, i' := 0, if n == 1 then 1 else 2;
  }

  // ---------------------------------------------------------------------------
  // Buckets and the neighbour list, as values
  // ---------------------------------------------------------------------------

  /** `HashSet.add`: a particle already in the bucket is not added again. */
  function Insert(bucket: seq<Particle>, p: Particle): seq<Particle>
  {
    if p in bucket then bucket else bucket + [p]
  }

  /** Bucket indices are valid for a grid of `n` cells. */
  predicate IndicesBelow(idx: seq<int>, n: int)
  {
    forall k :: 0 <= k < |idx| ==> 0 <= idx[k] < n
  }

  /** `n` empty buckets. */
  function EmptyBuckets(n: nat): (b: seq<seq<Particle>>)
    ensures |b| == n && forall c :: 0 <= c < n ==> b[c] == []
  {
    if n == 0 then [] else EmptyBuckets(n - 1) + [[]]
  }

  /** The `n` buckets after adding `ps` in order, particle `ps[k]` to bucket `idx[k]`. */
  function Buckets(ps: seq<Particle>, idx: seq<int>, n: nat): (b: seq<seq<Particle>>)
    requires |idx| == |ps| && IndicesBelow(idx, n)
    ensures |b| == n
  {
    if ps == [] then EmptyBuckets(n)
    else
      var b := Buckets(ps[..|ps| - 1], idx[..|idx| - 1], n);
      var c := idx[|idx| - 1];
      b[c := Insert(b[c], ps[|ps| - 1])]
  }

  /** Building from one more particle adds it to its bucket. */
  lemma BucketsStep(ps: seq<Particle>, idx: seq<int>, n: nat, k: int)
    requires |idx| == |ps| && IndicesBelow(idx, n) && 0 <= k < |ps|
    ensures IndicesBelow(idx[..k], n) && IndicesBelow(idx[..k + 1], n)
    ensures var b := Buckets(ps[..k], idx[..k], n);
      Buckets(ps[..k + 1], idx[..k + 1], n) == b[idx[k] := Insert(b[idx[k]], ps[k])]
  {
    assert ps[..k + 1][..k] == ps[..k] && idx[..k + 1][..k] == idx[..k];
  }

  /** Every bucket built from `ps` holds exactly the particles sent to it, each once. */
  lemma {:induction false} BucketsMembership(ps: seq<Particle>, idx: seq<int>, n: nat, c: int, q: Particle)
    requires |idx| == |ps| && IndicesBelow(idx, n) && 0 <= c < n
    ensures q in Buckets(ps, idx, n)[c] <==> exists k :: 0 <= k < |ps| && ps[k] == q && idx[k] == c
  {
    if ps != [] {
      var m := |ps| - 1;
      BucketsMembership(ps[..m], idx[..m], n, c, q);
      if q in Buckets(ps, idx, n)[c] && q !in Buckets(ps[..m], idx[..m], n)[c] {
        assert ps[m] == q && idx[m] == c;
      }
      if exists k :: 0 <= k < |ps| && ps[k] == q && idx[k] == c {
        var k :| 0 <= k < |ps| && ps[k] == q && idx[k] == c;
        if k < m {
          assert ps[..m][k] == q && idx[..m][k] == c;
        }
      }
      if q in Buckets(ps[..m], idx[..m], n)[c] {
        var k :| 0 <= k < m && ps[..m][k] == q && idx[..m][k] == c;
        assert ps[k] == q && idx[k] == c;
      }
    }
  }

  /** `HashSet.add` never makes a bucket hold a particle twice. */
  lemma {:induction false} BucketsNoDuplicates(ps: seq<Particle>, idx: seq<int>, n: nat, c: int)
    requires |idx| == |ps| && IndicesBelow(idx, n) && 0 <= c < n
    ensures NoDuplicates(Buckets(ps, idx, n)[c])
  {
    if ps != [] {
      var m := |ps| - 1;
      BucketsNoDuplicates(ps[..m], idx[..m], n, c);
      var before := Buckets(ps[..m], idx[..m], n)[c];
      if idx[m] == c && ps[m] !in before {
        var after := before + [ps[m]];
        forall i, j | 0 <= i < j < |after|
          ensures after[i] != after[j]
        {
          if j == |before| {
            assert after[i] == before[i];
          }
        }
      }
    }
  }

  /** The same particle is always sent to the same bucket (its position is fixed while the grid is built). */
  predicate Consistent(ps: seq<Particle>, idx: seq<int>)
    requires |idx| == |ps|
  {
    forall a, b :: 0 <= a < |ps| && 0 <= b < |ps| && ps[a] == ps[b] ==> idx[a] == idx[b]
  }

  /** Each particle of the list lies in exactly the bucket its index names, and in no other. */
  lemma ParticleInExactlyOneBucket(ps: seq<Particle>, idx: seq<int>, n: nat, k: int)
    requires |idx| == |ps| && IndicesBelow(idx, n) && Consistent(ps, idx) && 0 <= k < |ps|
    ensures ps[k] in Buckets(ps, idx, n)[idx[k]]
    ensures forall c :: 0 <= c < n && c != idx[k] ==> ps[k] !in Buckets(ps, idx, n)[c]
  {
    BucketsMembership(ps, idx, n, idx[k], ps[k]);
    forall c | 0 <= c < n && c != idx[k]
      ensures ps[k] !in Buckets(ps, idx, n)[c]
    {
      BucketsMembership(ps, idx, n, c, ps[k]);
    }
  }

  /** Buckets built from a consistent list are duplicate-free and pairwise disjoint. */
  lemma BucketsDisjoint(ps: seq<Particle>, idx: seq<int>, n: nat)
    requires |idx| == |ps| && IndicesBelow(idx, n) && Consistent(ps, idx)
    ensures forall c :: 0 <= c < n ==> NoDuplicates(Buckets(ps, idx, n)[c])
    ensures forall c, d, q :: 0 <= c < n && 0 <= d < n && q in Buckets(ps, idx, n)[c] && q in Buckets(ps, idx, n)[d] ==> c == d
  {
    var b := Buckets(ps, idx, n);
    forall c | 0 <= c < n
      ensures NoDuplicates(b[c])
    {
      BucketsNoDuplicates(ps, idx, n, c);
    }
    forall c, d, q | 0 <= c < n && 0 <= d < n && q in b[c] && q in b[d]
      ensures c == d
    {
      BucketsMembership(ps, idx, n, c, q);
      BucketsMembership(ps, idx, n, d, q);
    }
  }

  /** The visited buckets concatenated in visiting order, as `addAll` builds them. */
  function Gather(cells: seq<seq<Particle>>, visit: seq<int>): seq<Particle>
    requires IndicesBelow(visit, |cells|)
  {
    if visit == [] then []
    else Gather(cells, visit[..|visit| - 1]) + cells[visit[|visit| - 1]]
  }

  /** Visiting one more bucket appends its contents. */
  lemma GatherAppend(cells: seq<seq<Particle>>, visit: seq<int>, c: int)
    requires IndicesBelow(visit, |cells|) && 0 <= c < |cells|
    ensures IndicesBelow(visit + [c], |cells|)
    ensures Gather(cells, visit + [c]) == Gather(cells, visit) + cells[c]
  {
    assert (visit + [c])[..|visit|] == visit;
  }

  /** The total size of the visited buckets, a bucket visited twice counted twice. */
  function SizeSum(cells: seq<seq<Particle>>, visit: seq<int>): nat
    requires IndicesBelow(visit, |cells|)
  {
    if visit == [] then 0
    else SizeSum(cells, visit[..|visit| - 1]) + |cells[visit[|visit| - 1]]|
  }

  /** Particle `q` lies in one of the visited buckets. */
  predicate InVisited(cells: seq<seq<Particle>>, visit: seq<int>, q: Particle)
    requires IndicesBelow(visit, |cells|)
  {
    exists m :: 0 <= m < |visit| && q in cells[visit[m]]
  }

  /** A particle is gathered exactly when it lies in one of the visited buckets; the length is the size sum. */
  lemma {:induction false} GatherContents(cells: seq<seq<Particle>>, visit: seq<int>, q: Particle)
    requires IndicesBelow(visit, |cells|)
    ensures |Gather(cells, visit)| == SizeSum(cells, visit)
    ensures q in Gather(cells, visit) <==> InVisited(cells, visit, q)
  {
    if visit != [] {
      var last := |visit| - 1;
      var front := visit[..last];
      GatherContents(cells, front, q);
      assert Gather(cells, visit) == Gather(cells, front) + cells[visit[last]];
      if InVisited(cells, front, q) {
        var m :| 0 <= m < |front| && q in cells[front[m]];
        assert visit[m] == front[m];
      }
      if InVisited(cells, visit, q) && q !in cells[visit[last]] {
        var m :| 0 <= m < |visit| && q in cells[visit[m]];
        assert m < last && front[m] == visit[m];
      }
    }
  }

  /**
   * Concatenating duplicate-free, pairwise disjoint buckets visited at most once
   * each gives a duplicate-free list.
   */
  lemma {:induction false} GatherNoDuplicates(cells: seq<seq<Particle>>, visit: seq<int>)
    requires IndicesBelow(visit, |cells|) && NoDuplicates(visit)
    requires forall c :: 0 <= c < |cells| ==> NoDuplicates(cells[c])
    requires forall c, d, q :: 0 <= c < |cells| && 0 <= d < |cells| && q in cells[c] && q in cells[d] ==> c == d
    ensures NoDuplicates(Gather(cells, visit))
  {
    if visit != [] {
      var last := |visit| - 1;
      var front := Gather(cells, visit[..last]);
      var tail := cells[visit[last]];
      GatherNoDuplicates(cells, visit[..last]);
      forall i, j | 0 <= i < j < |front + tail|
        ensures (front + tail)[i] != (front + tail)[j]
      {
        if i < |front| <= j {
          var q := front[i];
          GatherContents(cells, visit[..last], q);
          var m :| 0 <= m < last && q in cells[visit[..last][m]];
          assert visit[..last][m] != visit[last];
        }
      }
    }
  }

  /** `ArrayList.remove(Object)`: drops the first element identical to `x`, if any. */
  function RemoveFirst<T(==)>(s: seq<T>, x: T): seq<T>
  {
    if s == [] then []
    else if s[0] == x then s[1..]
    else [s[0]] + RemoveFirst(s[1..], x)
  }

  /** Removing the first occurrence of `x` takes exactly one copy of `x` out of the list, if it has one. */
  lemma {:induction false} RemoveFirstMultiset<T>(s: seq<T>, x: T)
    ensures multiset(RemoveFirst(s, x)) == multiset(s) - multiset{x}
  {
    if s != [] {
      assert s == [s[0]] + s[1..];
      assert multiset(s) == multiset{s[0]} + multiset(s[1..]);
      if s[0] != x {
        RemoveFirstMultiset(s[1..], x);
        assert multiset(RemoveFirst(s, x)) == multiset{s[0]} + (multiset(s[1..]) - multiset{x});
      }
    }
  }

  /** The list loses one element when it holds `x`, and is left alone when it does not. */
  lemma {:induction false} RemoveFirstLength<T>(s: seq<T>, x: T)
    ensures |RemoveFirst(s, x)| == if x in s then |s| - 1 else |s|
    ensures x !in s ==> RemoveFirst(s, x) == s
  {
    if s != [] {
      RemoveFirstLength(s[1..], x);
      assert s == [s[0]] + s[1..];
    }
  }

  /** What remains is the list with the position of the first occurrence of `x` cut out. */
  lemma {:induction false} RemoveFirstAt<T>(s: seq<T>, x: T, i: int)
    requires 0 <= i < |s| && s[i] == x && x !in s[..i]
    ensures RemoveFirst(s, x) == s[..i] + s[i + 1..]
  {
    if i > 0 {
      assert s[0] != x by {
        assert s[0] == s[..i][0];
      }
      assert s[1..][i - 1] == x && s[1..][..i - 1] == s[..i][1..];
      RemoveFirstAt(s[1..], x, i - 1);
      assert s[..i] == [s[0]] + s[1..][..i - 1];
    }
  }

  /** In a duplicate-free list, removing the first `x` leaves no `x` behind. */
  lemma {:induction false} RemoveFirstUnique<T>(s: seq<T>, x: T)
    requires NoDuplicates(s)
    ensures x !in RemoveFirst(s, x)
  {
    if s != [] {
      var t := s[1..];
      if s[0] == x {
        forall j | 0 <= j < |t|
          ensures t[j] != x
        {
          assert t[j] == s[j + 1];
        }
      } else {
        assert NoDuplicates(t) by {
          forall i, j | 0 <= i < j < |t|
            ensures t[i] != t[j]
          {
            assert t[i] == s[i + 1] && t[j] == s[j + 1];
          }
        }
        RemoveFirstUnique(t, x);
        assert RemoveFirst(s, x) == [s[0]] + RemoveFirst(t, x);
      }
    }
  }

  /** The nine buckets around (`col`, `row`) concatenated in visiting order. */
  function Block(cells: seq<seq<Particle>>, cols: int, rows: int, col: int, row: int): seq<Particle>
    requires |cells| == cols * rows && 0 <= col < cols && 0 <= row < rows
  {
    Gather(cells, BlockCells(col, row, cols, rows))
  }

  /** The neighbour list of particle `p` whose cell is (`col`, `row`): the nine buckets, with `p` removed once. */
  function NeighborList(cells: seq<seq<Particle>>, cols: int, rows: int, col: int, row: int, p: Particle): seq<Particle>
    requires |cells| == cols * rows && 0 <= col < cols && 0 <= row < rows
  {
    RemoveFirst(Block(cells, cols, rows, col, row), p)
  }

  /** Exactly one copy of `p` is taken out of the nine buckets, when they hold one. */
  lemma NeighborListMultiset(cells: seq<seq<Particle>>, cols: int, rows: int, col: int, row: int, p: Particle)
    requires |cells| == cols * rows && 0 <= col < cols && 0 <= row < rows
    ensures multiset(NeighborList(cells, cols, rows, col, row, p)) == multiset(Block(cells, cols, rows, col, row)) - multiset{p}
  {
    RemoveFirstMultiset(Block(cells, cols, rows, col, row), p);
  }

  /** A particle other than `p` is a neighbour exactly when it is stored in one of the nine buckets. */
  lemma NeighborListMember(cells: seq<seq<Particle>>, cols: int, rows: int, col: int, row: int, p: Particle, q: Particle)
    requires |cells| == cols * rows && 0 <= col < cols && 0 <= row < rows && q != p
    ensures (q in NeighborList(cells, cols, rows, col, row, p) <==> InVisited(cells, BlockCells(col, row, cols, rows), q))
  {
    var all := Block(cells, cols, rows, col, row);
    RemoveFirstMultiset(all, p);
    GatherContents(cells, BlockCells(col, row, cols, rows), q);
    var nb: seq<Particle> := NeighborList(cells, cols, rows, col, row, p);
    var before: multiset<Particle> := multiset(all);
    assert multiset(nb)[q] == before[q];
  }

  /**
   * The neighbour list is as long as the nine visited buckets together, a bucket
   * visited twice counted twice, less one when `p` was among them; and `p` is among
   * them whenever it lies in the bucket of its own cell.
   */
  lemma NeighborListLength(cells: seq<seq<Particle>>, cols: int, rows: int, idx: int, p: Particle)
    requires |cells| == cols * rows && cols > 0 && 0 <= idx < |cells|
    ensures var (col, row) := CellOf(idx, cols, rows);
      |NeighborList(cells, cols, rows, col, row, p)| ==
        SizeSum(cells, BlockCells(col, row, cols, rows)) - (if p in Block(cells, cols, rows, col, row) then 1 else 0)
    ensures var (col, row) := CellOf(idx, cols, rows);
      p in cells[idx] ==> p in Block(cells, cols, rows, col, row)
  {
    var (col, row) := CellOf(idx, cols, rows);
    var visit := BlockCells(col, row, cols, rows);
    RemoveFirstLength(Gather(cells, visit), p);
    GatherContents(cells, visit, p);
    BlockCellsCentre(col, row, cols, rows);
    if p in cells[idx] {
      assert p in cells[visit[4]];
    }
  }

  /**
   * On a grid at least three cells wide and high whose buckets are duplicate-free and
   * pairwise disjoint, a particle is never its own neighbour.
   */
  lemma NoSelfNeighbor(cells: seq<seq<Particle>>, cols: int, rows: int, col: int, row: int, p: Particle)
    requires |cells| == cols * rows && 0 <= col < cols && 0 <= row < rows
    requires cols >= 3 && rows >= 3
    requires forall c :: 0 <= c < |cells| ==> NoDuplicates(cells[c])
    requires forall c, d, q :: 0 <= c < |cells| && 0 <= d < |cells| && q in cells[c] && q in cells[d] ==> c == d
    ensures p !in NeighborList(cells, cols, rows, col, row, p)
  {
    var visit := BlockCells(col, row, cols, rows);
    BlockCellsDistinctIff(col, row, cols, rows);
    GatherNoDuplicates(cells, visit);
    RemoveFirstUnique(Gather(cells, visit), p);
  }

  /** Every neighbour is stored in one of the nine buckets. */
  lemma NeighborInBlock(cells: seq<seq<Particle>>, cols: int, rows: int, col: int, row: int, p: Particle, q: Particle)
    requires |cells| == cols * rows && 0 <= col < cols && 0 <= row < rows
    requires q in NeighborList(cells, cols, rows, col, row, p)
    ensures InVisited(cells, BlockCells(col, row, cols, rows), q)
  {
    NeighborListMultiset(cells, cols, rows, col, row, p);
    var nb: seq<Particle> := NeighborList(cells, cols, rows, col, row, p);
    var all: seq<Particle> := Block(cells, cols, rows, col, row);
    assert multiset(nb)[q] > 0;
    assert q in all;
    GatherContents(cells, BlockCells(col, row, cols, rows), q);
  }

  /** Every neighbour found in a grid built from `ps` is one of the particles of `ps`. */
  lemma NeighborFromList(ps: seq<Particle>, idx: seq<int>, cols: int, rows: int, col: int, row: int,
                         p: Particle, q: Particle)
    requires |idx| == |ps| && cols >= 1 && rows >= 1 && IndicesBelow(idx, cols * rows)
    requires 0 <= col < cols && 0 <= row < rows
    requires q in NeighborList(Buckets(ps, idx, cols * rows), cols, rows, col, row, p)
    ensures q in ps
  {
    var cells := Buckets(ps, idx, cols * rows);
    var visit := BlockCells(col, row, cols, rows);
    NeighborInBlock(cells, cols, rows, col, row, p, q);
    var m :| 0 <= m < |visit| && q in cells[visit[m]];
    BucketsMembership(ps, idx, cols * rows, visit[m], q);
  }

  // ---------------------------------------------------------------------------
  // The grid object
  // ---------------------------------------------------------------------------

  /** The positions of a list of particles, read from their fields. */
  ghost function Positions(ps: seq<Particle>): (r: seq<(real, real)>)
    reads ps
    ensures |r| == |ps| && forall k :: 0 <= k < |ps| ==> r[k] == (ps[k].x, ps[k].y)
  {
    if ps == [] then [] else Positions(ps[..|ps| - 1]) + [(ps[|ps| - 1].x, ps[|ps| - 1].y)]
  }

  /** The bucket index of each position. */
  function Indices(pos: seq<(real, real)>, cellSize: real, cols: int): (idx: seq<int>)
    requires cellSize > 0.0
    ensures |idx| == |pos|
  {
    seq(|pos|, k requires 0 <= k < |pos| => CellIndex(pos[k].0, pos[k].1, cellSize, cols))
  }

  /** Every position of the list lies in a cell of the grid. */
  predicate AllInRange(pos: seq<(real, real)>, cellSize: real, cols: int, rows: int)
    requires cellSize > 0.0
  {
    forall k :: 0 <= k < |pos| ==> InRange(pos[k].0, pos[k].1, cellSize, cols, rows)
  }

  /**
   * Positions inside the grid have valid bucket indices, and a particle listed twice
   * is sent to the same bucket both times.
   */
  lemma IndicesValid(ps: seq<Particle>, cellSize: real, cols: int, rows: int)
    requires cellSize > 0.0 && AllInRange(Positions(ps), cellSize, cols, rows)
    ensures IndicesBelow(Indices(Positions(ps), cellSize, cols), cols * rows)
    ensures Consistent(ps, Indices(Positions(ps), cellSize, cols))
  {
    var pos := Positions(ps);
    forall k | 0 <= k < |pos|
      ensures 0 <= Indices(pos, cellSize, cols)[k] < cols * rows
    {
      CellIndexDecomposes(pos[k].0, pos[k].1, cellSize, cols, rows);
    }
  }

  class Grid {
    const cellSize: real
    const cols: int
    const rows: int
    var cells: seq<seq<Particle>>

    ghost predicate Valid()
      reads this
    {
      cellSize > 0.0 && cols >= 1 && rows >= 1 && |cells| == cols * rows
    }

    /**
     * Sizes the grid to cover the frame, allocates `cols * rows` empty buckets and
     * adds every particle to the bucket its cell index names. A particle whose
     * index falls outside the buckets would make the bucket lookup fail, so every
     * index must be valid.
     */
    constructor (cellSize: real, particles: seq<Particle>, width: int, height: int)
      requires cellSize > 0.0 && width > 0 && height > 0
      requires IndicesBelow(Indices(Positions(particles), cellSize, CellsAcross(width, cellSize)),
                            CellsAcross(width, cellSize) * CellsAcross(height, cellSize))
      ensures Valid()
      ensures this.cellSize == cellSize
      ensures cols == CellsAcross(width, cellSize) && rows == CellsAcross(height, cellSize)
      ensures cells == Buckets(particles, Indices(Positions(particles), cellSize, cols), cols * rows)
    {
      ghost var idx := Indices(Positions(particles), cellSize, CellsAcross(width, cellSize));
      this.cols := CellsAcross(width, cellSize);
      this.rows := CellsAcross(height, cellSize);
      this.cellSize := cellSize;
      this.cells := [];
      new;
      var n := cols * rows;
      var i := 0;
      while i < n
        invariant 0 <= i <= n && cells == EmptyBuckets(i)
      {
        cells := cells + [[]];
        i := i + 1;
      }
      var k := 0;
      while k < |particles|
        invariant 0 <= k <= |particles|
        invariant cells == Buckets(particles[..k], idx[..k], n)
      {
        assert idx[k] == GetCellIndex(particles[k]);
        BucketsStep(particles, idx, n, k);
        AddParticle(particles[k]);
        k := k + 1;
      }
      assert particles[..k] == particles && idx[..k] == idx;
    }

    /** Adds a particle to the bucket its cell index names; a particle already there is not added twice. */
    method AddParticle(particle: Particle)
      requires Valid() && 0 <= GetCellIndex(particle) < |cells|
      modifies this`cells
      ensures Valid()
      ensures var c := GetCellIndex(particle);
        cells == old(cells)[c := Insert(old(cells)[c], particle)]
    {
      var cellIndex := GetCellIndex(particle);
      cells := cells[cellIndex := Insert(cells[cellIndex], particle)];
    }

    /**
     * The bucket index of a particle's cell: row-major over the truncated column and
     * row. For a particle inside the grid it is a valid bucket index.
     */
    function GetCellIndex(particle: Particle): (r: int)
      reads particle
      requires cellSize > 0.0
      ensures r == CellIndex(particle.x, particle.y, cellSize, cols)
      ensures InRange(particle.x, particle.y, cellSize, cols, rows) ==> 0 <= r < cols * rows
    {
      var col := Trunc(particle.x / cellSize);
      var row := Trunc(particle.y / cellSize);
      if InRange(particle.x, particle.y, cellSize, cols, rows) then
        RowMajor(col, row, cols, rows);
        row * cols + col
      else
        row * cols + col
    }

    /**
     * The particles in the particle's own cell and the eight cells around it, the
     * grid wrapping around at its edges, with the particle itself removed once.
     * The cell is the one the particle's bucket index names, which is the cell of
     * its position whenever that position lies inside the grid.
     */
    method GetNeighbors(particle: Particle) returns (neighbors: seq<Particle>)
      requires Valid() && 0 <= GetCellIndex(particle) < |cells|
      ensures var (col, row) := CellOf(GetCellIndex(particle), cols, rows);
        neighbors == NeighborList(cells, cols, rows, col, row, particle)
    {
      neighbors := [];
      var cellIndex := GetCellIndex(particle);
      var col := IntRem(cellIndex, cols);
      var row := IntDiv(cellIndex, cols);
      assert (col, row) == CellOf(cellIndex, cols, rows);
      ghost var visited: seq<int> := [];
      var i := col - 1;
      while i <= col + 1
        invariant col - 1 <= i <= col + 2 && |visited| == 3 * (i - col + 1)
        invariant IndicesBelow(visited, |cells|) && neighbors == Gather(cells, visited)
        invariant visited == BlockCells(col, row, cols, rows)[..|visited|]
      {
        var j := row - 1;
        while j <= row + 1
          invariant row - 1 <= j <= row + 2 && |visited| == 3 * (i - col + 1) + (j - row + 1)
          invariant IndicesBelow(visited, |cells|) && neighbors == Gather(cells, visited)
          invariant visited == BlockCells(col, row, cols, rows)[..|visited|]
        {
          var wrappedI := WrapAround(i, cols);
          var wrappedJ := WrapAround(j, rows);
          VisitStep(col, row, cols, rows, i, j, visited);
          GatherAppend(cells, visited, wrappedJ * cols + wrappedI);
          visited := visited + [wrappedJ * cols + wrappedI];
          neighbors := neighbors + cells[wrappedJ * cols + wrappedI];
          j := j + 1;
        }
        i := i + 1;
      }
      assert visited == BlockCells(col, row, cols, rows);
      neighbors := RemoveFirst(neighbors, particle);
    }
  }
}
