/**
 * The particle manager: it owns the particle list and the tunables, and its
 * update advances every particle once, in list order and in place. The grid is
 * built once per update from the positions before the update, while the force
 * on each particle is computed from its neighbours' current fields, so particles
 * later in the list see the new positions of the earlier ones.
 */
module Manager {
  import opened JavaMath
  import opened Particles
  import opened Grids
  import opened Kernel

  // ---------------------------------------------------------------------------
  // The step, on values
  // ---------------------------------------------------------------------------

  /** What the force law reads of a neighbour: its position and its group. */
  function Sample(s: PState): (real, real, int)
  {
    (s.x, s.y, s.group)
  }

  /**
   * The samples of the listed particles in a snapshot of all particle states.
   * A particle missing from the snapshot reads as a particle at the origin of
   * group -1; under the update's precondition every neighbour is in it.
   */
  function Lookup(st: map<Particle, PState>, nb: seq<Particle>): (r: seq<(real, real, int)>)
    ensures |r| == |nb|
    ensures forall i :: 0 <= i < |nb| && nb[i] in st ==> r[i] == Sample(st[nb[i]])
  {
    seq(|nb|, i requires 0 <= i < |nb| => if nb[i] in st then Sample(st[nb[i]]) else (0.0, 0.0, -1))
  }

  /** The grid as the update reads it: its cell size, its shape and its buckets. */
  datatype Layout = Layout(cellSize: real, cols: int, rows: int, cells: seq<seq<Particle>>)

  predicate LayoutValid(g: Layout)
  {
    g.cellSize > 0.0 && g.cols >= 1 && g.rows >= 1 && |g.cells| == g.cols * g.rows
  }

  /** `updateVelocity` on a state: friction, then the net force on both axes. */
  function Accelerated(s: PState, f: (real, real), cfg: Config): PState
  {
    s.(xspeed := Accelerate(s.xspeed, f.0, cfg), yspeed := Accelerate(s.yspeed, f.1, cfg))
  }

  /** The first half of `updatePosition`: each coordinate moves one time step `dt` at its speed. */
  function Displaced(s: PState, dt: real): PState
  {
    s.(x := s.x + s.xspeed * dt, y := s.y + s.yspeed * dt)
  }

  /** `setInFrame` on a state: each coordinate is wrapped back onto its axis, the two axes independently. */
  function InFrame(s: PState, width: int, height: int): PState
    requires width > 0 && height > 0
  {
    s.(x := FrameAxis(s.x, width as real), y := FrameAxis(s.y, height as real))
  }

  /** `updatePosition` on a state: one time step at the current speed, then back onto the frame. */
  function Moved(s: PState, cfg: Config): PState
    requires cfg.width > 0 && cfg.height > 0
  {
    InFrame(Displaced(s, cfg.dt), cfg.width, cfg.height)
  }

  /** The bucket index of a state's position has a cell in the grid. */
  predicate IndexValid(g: Layout, s: PState)
    requires LayoutValid(g)
  {
    0 <= CellIndex(s.x, s.y, g.cellSize, g.cols) < |g.cells|
  }

  /** The neighbour list the grid gives a particle in state `s`. */
  function Neighbors(g: Layout, s: PState, p: Particle): seq<Particle>
    requires LayoutValid(g) && IndexValid(g, s)
  {
    var (col, row) := CellOf(CellIndex(s.x, s.y, g.cellSize, g.cols), g.cols, g.rows);
    NeighborList(g.cells, g.cols, g.rows, col, row, p)
  }

  /** The net force on particle `p` in state `s` from its neighbours' states in the snapshot. */
  function ForceOn(st: map<Particle, PState>, p: Particle, s: PState, g: Layout, cfg: Config, sqrt: real -> real): (real, real)
    requires LayoutValid(g) && IndexValid(g, s)
  {
    NetForce(s.x, s.y, s.group, Lookup(st, Neighbors(g, s, p)), cfg, sqrt)
  }

  /**
   * One particle's turn: its neighbours in the grid, their current states, the
   * net force they exert, the new velocity and the new position. Only `p`
   * changes. A particle outside the snapshot, or whose bucket index falls
   * outside the grid (where the original would fail), is left as it is.
   */
  function Advance(st: map<Particle, PState>, p: Particle, g: Layout, cfg: Config, sqrt: real -> real): map<Particle, PState>
    requires LayoutValid(g) && cfg.width > 0 && cfg.height > 0
  {
    if p !in st || !IndexValid(g, st[p]) then st
    else st[p := Moved(Accelerated(st[p], ForceOn(st, p, st[p], g, cfg, sqrt), cfg), cfg)]
  }

  /** `update` on values: the particles of `ps` take their turns in list order, each seeing the states left by the earlier ones. */
  function Step(st: map<Particle, PState>, ps: seq<Particle>, g: Layout, cfg: Config, sqrt: real -> real): map<Particle, PState>
    requires LayoutValid(g) && cfg.width > 0 && cfg.height > 0
  {
    if ps == [] then st
    else Advance(Step(st, ps[..|ps| - 1], g, cfg, sqrt), ps[|ps| - 1], g, cfg, sqrt)
  }

  /** A turn updates the particle taking it and no other: the same particles are known, and the others keep their states. */
  lemma AdvanceFrame(st: map<Particle, PState>, p: Particle, g: Layout, cfg: Config, sqrt: real -> real, q: Particle)
    requires LayoutValid(g) && cfg.width > 0 && cfg.height > 0
    ensures Advance(st, p, g, cfg, sqrt).Keys == st.Keys
    ensures q != p && q in st ==> Advance(st, p, g, cfg, sqrt)[q] == st[q]
  {
  }

  /**
   * A particle whose index is valid ends its turn with the velocity friction
   * and the net force give it, at a position on the frame: inside it, or on its
   * far edge only when it lands exactly there.
   */
  lemma AdvanceMoves(st: map<Particle, PState>, p: Particle, g: Layout, cfg: Config, sqrt: real -> real)
    requires LayoutValid(g) && cfg.width > 0 && cfg.height > 0
    requires p in st && IndexValid(g, st[p])
    ensures var s := st[p];
      var f := ForceOn(st, p, s, g, cfg, sqrt);
      var r := Advance(st, p, g, cfg, sqrt)[p];
      r.xspeed == Accelerate(s.xspeed, f.0, cfg) && r.yspeed == Accelerate(s.yspeed, f.1, cfg) &&
      0.0 <= r.x <= cfg.width as real && 0.0 <= r.y <= cfg.height as real &&
      r.radius == s.radius && r.group == s.group && r.color == s.color && r.glow == s.glow
  {
    var s := st[p];
    var a := Accelerated(s, ForceOn(st, p, s, g, cfg, sqrt), cfg);
    var d := Displaced(a, cfg.dt);
    FrameAxisInFrame(d.x, cfg.width as real);
    FrameAxisInFrame(d.y, cfg.height as real);
    assert Advance(st, p, g, cfg, sqrt)[p] == Moved(a, cfg);
  }

  /** A turn changes the snapshot at the particle taking it, to the state `Moved` gives after `Accelerated`. */
  lemma AdvanceAt(st: map<Particle, PState>, p: Particle, g: Layout, cfg: Config, sqrt: real -> real, r: PState)
    requires LayoutValid(g) && cfg.width > 0 && cfg.height > 0
    requires p in st && IndexValid(g, st[p])
    requires r == Moved(Accelerated(st[p], ForceOn(st, p, st[p], g, cfg, sqrt), cfg), cfg)
    ensures Advance(st, p, g, cfg, sqrt) == st[p := r]
  {
  }

  /** A particle with no neighbours feels only friction: its speed is scaled by the friction factor. */
  lemma AdvanceWithoutNeighbors(st: map<Particle, PState>, p: Particle, g: Layout, cfg: Config, sqrt: real -> real)
    requires LayoutValid(g) && cfg.width > 0 && cfg.height > 0
    requires p in st && IndexValid(g, st[p]) && Neighbors(g, st[p], p) == []
    ensures Advance(st, p, g, cfg, sqrt)[p].xspeed == st[p].xspeed * cfg.friction
    ensures Advance(st, p, g, cfg, sqrt)[p].yspeed == st[p].yspeed * cfg.friction
  {
    var s := st[p];
    assert Lookup(st, Neighbors(g, s, p)) == [];
    assert ForceOn(st, p, s, g, cfg, sqrt) == (0.0, 0.0);
    AccelerateWithoutForce(s.xspeed, cfg);
    AccelerateWithoutForce(s.yspeed, cfg);
    assert Advance(st, p, g, cfg, sqrt)[p] == Moved(Accelerated(s, (0.0, 0.0), cfg), cfg);
  }

  /** One more turn at the end of the list. */
  lemma StepExtend(st: map<Particle, PState>, ps: seq<Particle>, k: int, g: Layout, cfg: Config, sqrt: real -> real)
    requires LayoutValid(g) && cfg.width > 0 && cfg.height > 0 && 0 <= k < |ps|
    ensures Step(st, ps[..k + 1], g, cfg, sqrt) == Advance(Step(st, ps[..k], g, cfg, sqrt), ps[k], g, cfg, sqrt)
  {
    assert ps[..k + 1][..k] == ps[..k];
  }

  /** A step knows the same particles as the snapshot, and leaves a particle that takes no turn as it was. */
  lemma {:induction false} StepFrame(st: map<Particle, PState>, ps: seq<Particle>, g: Layout, cfg: Config, sqrt: real -> real, q: Particle)
    requires LayoutValid(g) && cfg.width > 0 && cfg.height > 0
    ensures Step(st, ps, g, cfg, sqrt).Keys == st.Keys
    ensures q !in ps && q in st ==> Step(st, ps, g, cfg, sqrt)[q] == st[q]
  {
    if ps != [] {
      var init := ps[..|ps| - 1];
      assert q !in ps ==> q !in init && q != ps[|ps| - 1];
      StepFrame(st, init, g, cfg, sqrt, q);
      AdvanceFrame(Step(st, init, g, cfg, sqrt), ps[|ps| - 1], g, cfg, sqrt, q);
    }
  }

  /** What a turn never changes: the radius, the colour, the group and the glow. */
  predicate SameKind(r: PState, s: PState)
  {
    r.radius == s.radius && r.color == s.color && r.group == s.group && r.glow == s.glow
  }

  /** A step knows the same particles as the snapshot, and changes none of their kinds. */
  lemma {:induction false} StepKeepsKind(st: map<Particle, PState>, ps: seq<Particle>, g: Layout, cfg: Config, sqrt: real -> real)
    requires LayoutValid(g) && cfg.width > 0 && cfg.height > 0
    ensures Step(st, ps, g, cfg, sqrt).Keys == st.Keys
    ensures forall q :: q in st ==> SameKind(Step(st, ps, g, cfg, sqrt)[q], st[q])
  {
    if ps != [] {
      var init, p := ps[..|ps| - 1], ps[|ps| - 1];
      StepKeepsKind(st, init, g, cfg, sqrt);
      var mid := Step(st, init, g, cfg, sqrt);
      if p in mid && IndexValid(g, mid[p]) {
        AdvanceMoves(mid, p, g, cfg, sqrt);
      }
      forall q | q in st
        ensures SameKind(Advance(mid, p, g, cfg, sqrt)[q], mid[q])
      {
        AdvanceFrame(mid, p, g, cfg, sqrt, q);
      }
    }
  }

  /** Every pair of groups stays covered by the attraction matrix through a step. */
  lemma StepKeepsCover(attraction: seq<seq<real>>, st: map<Particle, PState>, ps: seq<Particle>, g: Layout, cfg: Config, sqrt: real -> real)
    requires LayoutValid(g) && cfg.width > 0 && cfg.height > 0
    requires CoversGroups(attraction, st)
    ensures CoversGroups(attraction, Step(st, ps, g, cfg, sqrt))
  {
    StepKeepsKind(st, ps, g, cfg, sqrt);
  }

  /** Every particle of the snapshot has the colour of its group. */
  predicate Coloured(st: map<Particle, PState>)
  {
    forall q :: q in st ==> st[q].color == GroupColor(st[q].group)
  }

  /** A step leaves every particle in the colour of its group. */
  lemma StepKeepsColour(st: map<Particle, PState>, ps: seq<Particle>, g: Layout, cfg: Config, sqrt: real -> real)
    requires LayoutValid(g) && cfg.width > 0 && cfg.height > 0
    requires Coloured(st)
    ensures Coloured(Step(st, ps, g, cfg, sqrt))
  {
    StepKeepsKind(st, ps, g, cfg, sqrt);
  }

  /** After a step in which the particles of `ps` take one turn each, every one of them is on the frame. */
  lemma {:induction false} StepOnFrame(st: map<Particle, PState>, ps: seq<Particle>, g: Layout, cfg: Config, sqrt: real -> real)
    requires LayoutValid(g) && cfg.width > 0 && cfg.height > 0 && NoDuplicates(ps)
    requires forall q :: q in ps ==> q in st && IndexValid(g, st[q])
    ensures Step(st, ps, g, cfg, sqrt).Keys == st.Keys
    ensures forall q :: q in ps ==> var r := Step(st, ps, g, cfg, sqrt)[q];
      0.0 <= r.x <= cfg.width as real && 0.0 <= r.y <= cfg.height as real
  {
    if ps != [] {
      var n := |ps| - 1;
      var init, p := ps[..n], ps[n];
      assert NoDuplicates(init) by {
        forall i, j | 0 <= i < j < |init|
          ensures init[i] != init[j]
        {
          assert init[i] == ps[i] && init[j] == ps[j];
        }
      }
      assert p !in init by {
        forall i | 0 <= i < n
          ensures init[i] != p
        {
          assert init[i] == ps[i];
        }
      }
      StepOnFrame(st, init, g, cfg, sqrt);
      var mid := Step(st, init, g, cfg, sqrt);
      StepFrame(st, init, g, cfg, sqrt, p);
      AdvanceMoves(mid, p, g, cfg, sqrt);
      forall q | q in init
        ensures Advance(mid, p, g, cfg, sqrt)[q] == mid[q]
      {
        AdvanceFrame(mid, p, g, cfg, sqrt, q);
      }
      assert ps == init + [p];
    }
  }

  // ---------------------------------------------------------------------------
  // Reading the heap
  // ---------------------------------------------------------------------------

  /** The grid object as a value. */
  function LayoutOf(grid: Grid): Layout
    reads grid
  {
    Layout(grid.cellSize, grid.cols, grid.rows, grid.cells)
  }

  /** The position and group of each listed particle, read from its fields. */
  ghost function Samples(nb: seq<Particle>): (r: seq<(real, real, int)>)
    reads nb
    ensures |r| == |nb| && forall i :: 0 <= i < |nb| ==> r[i] == Sample(nb[i].State())
  {
    if nb == [] then [] else Samples(nb[..|nb| - 1]) + [Sample(nb[|nb| - 1].State())]
  }

  /** The state of every listed particle, read from its fields. */
  ghost function Snapshot(ps: seq<Particle>): (st: map<Particle, PState>)
    reads ps
    ensures forall q :: q in st ==> q in ps
    ensures forall q :: q in ps ==> q in st && st[q] == q.State()
  {
    map q | q in ps :: q.State()
  }

  /** When every stored particle is listed, so is every neighbour the grid gives. */
  lemma NeighborsListed(ps: seq<Particle>, g: Layout, s: PState, p: Particle)
    requires LayoutValid(g) && IndexValid(g, s)
    requires forall c, q :: 0 <= c < |g.cells| && q in g.cells[c] ==> q in ps
    ensures forall q :: q in Neighbors(g, s, p) ==> q in ps
  {
    var (col, row) := CellOf(CellIndex(s.x, s.y, g.cellSize, g.cols), g.cols, g.rows);
    forall q | q in Neighbors(g, s, p)
      ensures q in ps
    {
      NeighborInBlock(g.cells, g.cols, g.rows, col, row, p, q);
      var visit := BlockCells(col, row, g.cols, g.rows);
      var m :| 0 <= m < |visit| && q in g.cells[visit[m]];
    }
  }

  /** Looking neighbours up in a snapshot of a list that holds them all reads their own fields. */
  lemma LookupSnapshot(ps: seq<Particle>, nb: seq<Particle>)
    requires forall q :: q in nb ==> q in ps
    ensures Lookup(Snapshot(ps), nb) == Samples(nb)
  {
    var st := Snapshot(ps);
    forall i | 0 <= i < |nb|
      ensures Lookup(st, nb)[i] == Samples(nb)[i]
    {
      assert nb[i] in ps;
    }
  }

  /** A list's snapshot is coloured exactly when every particle of the list has its group's colour. */
  lemma ColouredSnapshot(ps: seq<Particle>)
    ensures Coloured(Snapshot(ps)) <==> forall q :: q in ps ==> q.Valid()
  {
    var st := Snapshot(ps);
    if Coloured(st) {
      forall q | q in ps
        ensures q.Valid()
      {
        assert st[q] == q.State();
      }
    }
  }

  /** The attraction matrix has a row for a group `g` and, in it, an entry for a group `h`. */
  predicate Indexable(attraction: seq<seq<real>>, g: int, h: int)
  {
    0 <= g < |attraction| && 0 <= h < |attraction[g]|
  }

  /** Every pair of groups in the snapshot has an entry in the attraction matrix. */
  predicate CoversGroups(attraction: seq<seq<real>>, st: map<Particle, PState>)
  {
    forall p, q :: p in st && q in st ==> Indexable(attraction, st[p].group, st[q].group)
  }

  /** When every particle in the grid has an entry in the particle's row, so does every neighbour the grid lists. */
  lemma NeighborsIndexable(cells: seq<seq<Particle>>, cols: int, rows: int, col: int, row: int, p: Particle, attraction: seq<seq<real>>)
    requires |cells| == cols * rows && 0 <= col < cols && 0 <= row < rows
    requires forall c, q :: 0 <= c < |cells| && q in cells[c] ==> Indexable(attraction, p.group, q.group)
    ensures forall q :: q in NeighborList(cells, cols, rows, col, row, p) ==> Indexable(attraction, p.group, q.group)
  {
    forall q | q in NeighborList(cells, cols, rows, col, row, p)
      ensures Indexable(attraction, p.group, q.group)
    {
      NeighborInBlock(cells, cols, rows, col, row, p, q);
      var visit := BlockCells(col, row, cols, rows);
      var m :| 0 <= m < |visit| && q in cells[visit[m]];
    }
  }

  /** A coordinate inside an extent of `n` whole cells lies in one of those `n` columns. */
  lemma ColumnBelow(u: real, cs: real, n: int)
    requires cs > 0.0 && 0.0 <= u < n as real * cs
    ensures 0 <= Column(u, cs) < n
    ensures (u / cs) * cs == u && Column(u, cs) == (u / cs).Floor
  {
    var t := u / cs;
    DivisionByPositive(0.0, u, cs);
    DivisionByPositive(u, u, cs);
    if t >= n as real {
      ProductSign(t - n as real, cs);
      assert (t - n as real) * cs == u - n as real * cs;
    }
  }

  /** A number that `cs` scales to within one `cs` of zero lies within one of zero. */
  lemma WithinOne(t: real, cs: real, r: real)
    requires cs > 0.0 && -cs < r < cs && r == t * cs
    ensures -1.0 < t < 1.0
  {
    if t >= 1.0 {
      ProductSign(t - 1.0, cs);
    }
    if t <= -1.0 {
      ProductSign(-1.0 - t, cs);
    }
  }

  /**
   * On an axis that is a whole number `n` of cells long, a point less than one
   * cell from another, measured the short way round the torus, lies in the
   * other's column or in the column just before or after it, wrapped: it is
   * column offset `k` of the 3 x 3 walk around the other.
   */
  lemma AxisNeighbor(u: real, v: real, cs: real, n: int, w: real) returns (k: int)
    requires cs > 0.0 && n >= 1 && w == n as real * cs
    requires 0.0 <= u < w && 0.0 <= v < w
    requires Abs(CheckDelta(v - u, w)) < cs
    ensures 0 <= Column(u, cs) < n && 0 <= Column(v, cs) < n
    ensures 0 <= k < 3 && Wrap(Column(u, cs) - 1 + k, n) == Column(v, cs)
  {
    ColumnBelow(u, cs, n);
    ColumnBelow(v, cs, n);
    var a, b := u / cs, v / cs;
    var cu, cv := Column(u, cs), Column(v, cs);
    CheckDeltaMinimumImage(v - u, w);
    var r := CheckDelta(v - u, w);
    var s: int := if r == v - u then 0 else if r == v - u - w then -1 else 1;
    assert r == v - u + s as real * w;
    var e := b - a + (s * n) as real;
    assert -cs < r < cs;
    assert r == e * cs;
    WithinOne(e, cs, r);
    var t := cv + s * n - cu;
    assert -1 <= t <= 1;
    if s == 0 {
      k := t + 1;
    } else if s == -1 {
      k := 0;
    } else {
      k := 2;
    }
  }

  /**
   * When the frame is a whole number of cells wide and high, the neighbour query
   * misses nobody. In the grid built from a list of particles inside the frame,
   * a particle less than one cell from another along each axis, measured the
   * short way round the torus, is among the other's neighbours.
   */
  lemma NeighborCovered(ps: seq<Particle>, pos: seq<(real, real)>, cs: real, cols: int, rows: int,
                        width: int, height: int, i: int, j: int)
    requires |pos| == |ps| && cs > 0.0 && cols >= 1 && rows >= 1
    requires width as real == cols as real * cs && height as real == rows as real * cs
    requires forall k :: 0 <= k < |pos| ==> 0.0 <= pos[k].0 < width as real && 0.0 <= pos[k].1 < height as real
    requires 0 <= i < |ps| && 0 <= j < |ps| && ps[i] != ps[j]
    requires Abs(CheckDelta(pos[j].0 - pos[i].0, width as real)) < cs
    requires Abs(CheckDelta(pos[j].1 - pos[i].1, height as real)) < cs
    ensures var idx := Indices(pos, cs, cols);
      IndicesBelow(idx, cols * rows) &&
      var (col, row) := CellOf(idx[i], cols, rows);
      ps[j] in NeighborList(Buckets(ps, idx, cols * rows), cols, rows, col, row, ps[i])
  {
    var idx := Indices(pos, cs, cols);
    var n := cols * rows;
    forall k | 0 <= k < |pos|
      ensures 0 <= idx[k] < n
    {
      ColumnBelow(pos[k].0, cs, cols);
      ColumnBelow(pos[k].1, cs, rows);
      CellIndexDecomposes(pos[k].0, pos[k].1, cs, cols, rows);
    }
    var ka := AxisNeighbor(pos[i].0, pos[j].0, cs, cols, width as real);
    var kb := AxisNeighbor(pos[i].1, pos[j].1, cs, rows, height as real);
    CellIndexDecomposes(pos[i].0, pos[i].1, cs, cols, rows);
    var (col, row) := CellOf(idx[i], cols, rows);
    assert col == Column(pos[i].0, cs) && row == Column(pos[i].1, cs);
    var cells := Buckets(ps, idx, n);
    var visit := BlockCells(col, row, cols, rows);
    BlockCellsAt(col, row, cols, rows, ka, kb);
    assert visit[3 * ka + kb] == idx[j];
    BucketsMembership(ps, idx, n, idx[j], ps[j]);
    assert ps[j] in cells[visit[3 * ka + kb]];
    NeighborListMember(cells, cols, rows, col, row, ps[i], ps[j]);
  }

  /** An extent of `n` whole cells is cut into exactly `n` cells. */
  lemma CellsAcrossExact(extent: int, cs: real, n: int)
    requires cs > 0.0 && n >= 1 && extent as real == n as real * cs
    ensures extent > 0 && CellsAcross(extent, cs) == n
  {
    ProductSign(n as real, cs);
    var q := extent as real / cs;
    DivisionByPositive(extent as real, extent as real, cs);
    var d := q - n as real;
    assert d * cs == 0.0;
    if d != 0.0 {
      ProductSign(if d >= 0.0 then d else -d, cs);
    }
  }

  /**
   * The same for the grid an update builds from the particles' fields: on a
   * frame of whole cells the grid has exactly those cells, and a particle less
   * than one cell from another along each axis, the short way round, is in the
   * neighbour list `GetNeighbors` returns for the other.
   */
  lemma GridListsCloseParticles(ps: seq<Particle>, cs: real, cols: int, rows: int,
                                width: int, height: int, p: Particle, q: Particle)
    requires cs > 0.0 && cols >= 1 && rows >= 1
    requires width as real == cols as real * cs && height as real == rows as real * cs
    requires forall r :: r in ps ==> 0.0 <= r.x < width as real && 0.0 <= r.y < height as real
    requires p in ps && q in ps && p != q
    requires Abs(CheckDelta(q.x - p.x, width as real)) < cs
    requires Abs(CheckDelta(q.y - p.y, height as real)) < cs
    ensures width > 0 && height > 0
    ensures CellsAcross(width, cs) == cols && CellsAcross(height, cs) == rows
    ensures var idx := Indices(Positions(ps), cs, cols);
      IndicesBelow(idx, cols * rows) && 0 <= CellIndex(p.x, p.y, cs, cols) < cols * rows &&
      var (col, row) := CellOf(CellIndex(p.x, p.y, cs, cols), cols, rows);
      q in NeighborList(Buckets(ps, idx, cols * rows), cols, rows, col, row, p)
  {
    CellsAcrossExact(width, cs, cols);
    CellsAcrossExact(height, cs, rows);
    var pos := Positions(ps);
    var i :| 0 <= i < |ps| && ps[i] == p;
    var j :| 0 <= j < |ps| && ps[j] == q;
    forall k | 0 <= k < |pos|
      ensures 0.0 <= pos[k].0 < width as real && 0.0 <= pos[k].1 < height as real
    {
      assert ps[k] in ps;
    }
    NeighborCovered(ps, pos, cs, cols, rows, width, height, i, j);
  }

  /**
   * The neighbour query misses particles across a narrow last column. On a
   * 310 by 310 frame with `rMax` 100 the grid has four columns, the last only
   * 10 wide. A particle at (299, 5) lies in bucket 2, and one at (5, 5) in
   * bucket 0. The two are 16 apart across the wrap, well inside `rMax`, and the
   * first would push the second with force (0.2, 0). But column 2 is not among
   * the columns 3, 0 and 1 visited around column 0, so in any grid that keeps
   * the particle at (299, 5) in its own bucket only, that particle is not a
   * neighbour of the particle at (5, 5).
   */
  lemma NarrowColumnMissesNeighbor(g: Layout, a: Particle, b: Particle, s: PState, attraction: real, sqrt: real -> real)
    requires g.cellSize == 100.0 && g.cols == 4 && g.rows == 4 && |g.cells| == 16
    requires a != b && s.x == 5.0 && s.y == 5.0
    requires forall c :: 0 <= c < 16 && b in g.cells[c] ==> c == CellIndex(299.0, 5.0, 100.0, 4)
    requires sqrt(256.0) == 16.0
    ensures CellsAcross(310, 100.0) == 4 && CellIndex(299.0, 5.0, 100.0, 4) == 2 && CellIndex(5.0, 5.0, 100.0, 4) == 0
    ensures LayoutValid(g) && IndexValid(g, s) && b !in Neighbors(g, s, a)
    ensures Contribution(5.0, 5.0, 299.0, 5.0, attraction, 100.0, 310, 310, sqrt) == (0.2, 0.0)
  {
    NarrowCells();
    NarrowCellSkips(2);
    HiddenFromBlock(g.cells, g.cols, g.rows, 0, 0, a, b, 2);
    NarrowColumnPush(attraction, sqrt);
  }

  /**
   * The same across a narrow last row: on that frame a particle at (5, 299) lies
   * in bucket 8, row 2, and the walk around the particle at (5, 5) visits rows
   * 3, 0 and 1 only. It is 16 from that particle across the wrap and would push
   * it with force (0, 0.2), yet it is not among its neighbours.
   */
  lemma NarrowRowMissesNeighbor(g: Layout, a: Particle, b: Particle, s: PState, attraction: real, sqrt: real -> real)
    requires g.cellSize == 100.0 && g.cols == 4 && g.rows == 4 && |g.cells| == 16
    requires a != b && s.x == 5.0 && s.y == 5.0
    requires forall c :: 0 <= c < 16 && b in g.cells[c] ==> c == CellIndex(5.0, 299.0, 100.0, 4)
    requires sqrt(256.0) == 16.0
    ensures CellsAcross(310, 100.0) == 4 && CellIndex(5.0, 299.0, 100.0, 4) == 8 && CellIndex(5.0, 5.0, 100.0, 4) == 0
    ensures LayoutValid(g) && IndexValid(g, s) && b !in Neighbors(g, s, a)
    ensures Contribution(5.0, 5.0, 5.0, 299.0, attraction, 100.0, 310, 310, sqrt) == (0.0, 0.2)
  {
    NarrowCells();
    NarrowCellSkips(8);
    HiddenFromBlock(g.cells, g.cols, g.rows, 0, 0, a, b, 8);
    NarrowRowPush(attraction, sqrt);
  }

  /** The cells of the narrow-edge examples: four cells each way, and the indices of their positions. */
  lemma NarrowCells()
    ensures CellsAcross(310, 100.0) == 4 && CellIndex(5.0, 5.0, 100.0, 4) == 0
    ensures CellIndex(299.0, 5.0, 100.0, 4) == 2 && CellIndex(5.0, 299.0, 100.0, 4) == 8
    ensures CellOf(0, 4, 4) == (0, 0)
  {
    assert Column(5.0, 100.0) == 0 && Column(299.0, 100.0) == 2;
    RowMajor(0, 0, 4, 4);
  }

  /** A particle stored only in a bucket that the walk around (`col`, `row`) skips is not a neighbour. */
  lemma HiddenFromBlock(cells: seq<seq<Particle>>, cols: int, rows: int, col: int, row: int, a: Particle, b: Particle, hidden: int)
    requires |cells| == cols * rows && 0 <= col < cols && 0 <= row < rows && a != b
    requires forall c :: 0 <= c < |cells| && b in cells[c] ==> c == hidden
    requires forall m :: 0 <= m < 9 ==> BlockCells(col, row, cols, rows)[m] != hidden
    ensures b !in NeighborList(cells, cols, rows, col, row, a)
  {
    NeighborListMember(cells, cols, rows, col, row, a, b);
  }

  /** The walk around cell (0, 0) of a four by four grid visits columns and rows 3, 0 and 1 only, so never bucket 2 or 8. */
  lemma NarrowCellSkips(hidden: int)
    requires hidden == 2 || hidden == 8
    ensures forall m :: 0 <= m < 9 ==> BlockCells(0, 0, 4, 4)[m] != hidden
  {
    forall m | 0 <= m < 9
      ensures BlockCells(0, 0, 4, 4)[m] != hidden
    {
      var i, j := m / 3, m % 3;
      BlockCellsAt(0, 0, 4, 4, i, j);
      assert 3 * i + j == m;
    }
  }

  /** Across the wrap the particle at (299, 5) is 16 from the one at (5, 5), and pushes it away with force (0.2, 0). */
  lemma NarrowColumnPush(attraction: real, sqrt: real -> real)
    requires sqrt(256.0) == 16.0
    ensures CheckDelta(299.0 - 5.0, 310.0) == -16.0
    ensures Contribution(5.0, 5.0, 299.0, 5.0, attraction, 100.0, 310, 310, sqrt) == (0.2, 0.0)
  {
    assert SquaredLength(-16.0, 0.0) == 256.0;
    assert Force(0.16, attraction) == -0.2;
  }

  /** Across the wrap the particle at (5, 299) is 16 from the one at (5, 5), and pushes it away with force (0, 0.2). */
  lemma NarrowRowPush(attraction: real, sqrt: real -> real)
    requires sqrt(256.0) == 16.0
    ensures CheckDelta(299.0 - 5.0, 310.0) == -16.0
    ensures Contribution(5.0, 5.0, 5.0, 299.0, attraction, 100.0, 310, 310, sqrt) == (0.0, 0.2)
  {
    assert SquaredLength(0.0, -16.0) == 256.0;
    assert Force(0.16, attraction) == -0.2;
  }

  /**
   * The neighbour query misses particles on the far edge. `setInFrame` leaves a
   * particle exactly at `x == width`, and the moves do not wrap at all. On a
   * 500 by 500 frame with `rMax` 100 the grid is five whole cells each way. A
   * particle at (500, 201) gets column 5, one past the last, so its index 15 is
   * the first bucket of row 3. A particle at (1, 199), in cell (0, 1), is 1 from
   * it across the wrap and 2 along y, but its walk visits rows 0 to 2 only, so
   * in a grid that keeps the first particle in its own bucket only, it is not a
   * neighbour. At (500, 450) the index is 25, one past the last bucket, and the
   * grid's constructor fails.
   */
  lemma FarEdgeMissesNeighbor(g: Layout, a: Particle, b: Particle, s: PState)
    requires g.cellSize == 100.0 && g.cols == 5 && g.rows == 5 && |g.cells| == 25
    requires a != b && s.x == 1.0 && s.y == 199.0
    requires forall c :: 0 <= c < 25 && b in g.cells[c] ==> c == CellIndex(500.0, 201.0, 100.0, 5)
    ensures CellsAcross(500, 100.0) == 5 && FrameAxis(500.0, 500.0) == 500.0
    ensures CellIndex(500.0, 201.0, 100.0, 5) == 15 && CellOf(15, 5, 5) == (0, 3)
    ensures CheckDelta(500.0 - 1.0, 500.0) == -1.0 && CheckDelta(201.0 - 199.0, 500.0) == 2.0
    ensures LayoutValid(g) && IndexValid(g, s) && b !in Neighbors(g, s, a)
    ensures CellIndex(500.0, 450.0, 100.0, 5) == 5 * 5
  {
    FarEdgeCells();
    FrameAxisKeeps(500.0, 500.0);
    FarEdgeCellOf();
    FarEdgeSkips();
    HiddenFromBlock(g.cells, g.cols, g.rows, 0, 1, a, b, 15);
  }

  /** Bucket 5 is cell (0, 1) and bucket 15 cell (0, 3) of a five by five grid. */
  lemma FarEdgeCellOf()
    ensures CellOf(5, 5, 5) == (0, 1) && CellOf(15, 5, 5) == (0, 3)
  {
    RowMajor(0, 1, 5, 5);
    RowMajor(0, 3, 5, 5);
  }

  /** The walk around cell (0, 1) of a five by five grid visits rows 0 to 2 only, so never bucket 15. */
  lemma FarEdgeSkips()
    ensures forall m :: 0 <= m < 9 ==> BlockCells(0, 1, 5, 5)[m] != 15
  {
    forall m | 0 <= m < 9
      ensures BlockCells(0, 1, 5, 5)[m] != 15
    {
      var i, j := m / 3, m % 3;
      BlockCellsAt(0, 1, 5, 5, i, j);
      assert 3 * i + j == m;
      assert Wrap(j, 5) <= 2;
    }
  }

  /** The cells of the far-edge example: five whole cells each way, and the indices of its positions. */
  lemma FarEdgeCells()
    ensures CellsAcross(500, 100.0) == 5
    ensures CellIndex(1.0, 199.0, 100.0, 5) == 5 && CellIndex(500.0, 201.0, 100.0, 5) == 15
    ensures CellIndex(500.0, 450.0, 100.0, 5) == 25
    ensures CheckDelta(500.0 - 1.0, 500.0) == -1.0 && CheckDelta(201.0 - 199.0, 500.0) == 2.0
  {
    assert Column(1.0, 100.0) == 0 && Column(199.0, 100.0) == 1;
    assert Column(500.0, 100.0) == 5 && Column(201.0, 100.0) == 2 && Column(450.0, 100.0) == 4;
  }

  /** The attraction matrix the manager starts with: each group attracts its own kind only. */
  const DefaultAttraction: seq<seq<real>> := [
    [1.0, 0.0, 0.0, 0.0, 0.0, 0.0],
    [0.0, 1.0, 0.0, 0.0, 0.0, 0.0],
    [0.0, 0.0, 1.0, 0.0, 0.0, 0.0],
    [0.0, 0.0, 0.0, 1.0, 0.0, 0.0],
    [0.0, 0.0, 0.0, 0.0, 1.0, 0.0],
    [0.0, 0.0, 0.0, 0.0, 0.0, 1.0]]

  // ---------------------------------------------------------------------------
  // The manager object
  // ---------------------------------------------------------------------------

  /** `changeGlow` on one particle: its glow effect switched, nothing else changed. */
  function Toggled(s: PState): PState
  {
    s.(glow := !s.glow)
  }

  /** Switching the glow effect twice gives a particle back the state it had. */
  lemma ToggledTwice(s: PState)
    ensures Toggled(Toggled(s)) == s
  {
  }

  /** `moveParticlesX` and `moveParticlesY` on one particle: moved by `(dx, dy)`, nothing else changed. */
  function Translated(s: PState, dx: real, dy: real): PState
  {
    s.(x := s.x + dx, y := s.y + dy)
  }

  /** Moving a particle by `(dx, dy)` and then by `(-dx, -dy)` puts it back where it was. */
  lemma TranslatedBack(s: PState, dx: real, dy: real)
    ensures Translated(Translated(s, dx, dy), -dx, -dy) == s
  {
  }

  /** Two moves add up: moving by `(a, b)` and then by `(c, d)` is moving by `(a + c, b + d)`. */
  lemma TranslatedTwice(s: PState, a: real, b: real, c: real, d: real)
    ensures Translated(Translated(s, a, b), c, d) == Translated(s, a + c, b + d)
  {
  }

  /**
   * One entry drawn by `ChangeAttraction`: a whole number `d` from -5 up to,
   * but not including, 5, divided by 5.0. The ten levels run from -1.0 to 0.8
   * in steps of 0.2.
   */
  function Level(d: int): (r: real)
    requires -5 <= d < 5
    ensures -1.0 <= r <= 0.8 && r * 5.0 == d as real
  {
    d as real / 5.0
  }

  /** The attraction matrix `ChangeAttraction` draws: each entry the level of its draw. */
  function Levels(draws: seq<seq<int>>): (m: seq<seq<real>>)
    requires forall i, j :: 0 <= i < |draws| && 0 <= j < |draws[i]| ==> -5 <= draws[i][j] < 5
    ensures |m| == |draws|
    ensures forall i :: 0 <= i < |draws| ==> |m[i]| == |draws[i]|
    ensures forall i, j :: 0 <= i < |draws| && 0 <= j < |draws[i]| ==> -1.0 <= m[i][j] <= 0.8 && m[i][j] * 5.0 == draws[i][j] as real
  {
    seq(|draws|, i requires 0 <= i < |draws| => seq(|draws[i]|, j requires 0 <= j < |draws[i]| => Level(draws[i][j])))
  }

  /** Two matrices with rows of the same lengths. */
  predicate SameShape(a: seq<seq<real>>, b: seq<seq<real>>)
  {
    |a| == |b| && forall i :: 0 <= i < |a| ==> |a[i]| == |b[i]|
  }

  /** A matrix of the same shape covers the same groups: randomising the rules keeps every lookup in bounds. */
  lemma SameShapeCovers(a: seq<seq<real>>, b: seq<seq<real>>, st: map<Particle, PState>)
    requires SameShape(a, b) && CoversGroups(a, st)
    ensures CoversGroups(b, st)
  {
    forall p, q | p in st && q in st
      ensures Indexable(b, st[p].group, st[q].group)
    {
      assert Indexable(a, st[p].group, st[q].group);
    }
  }

  class ParticleManager {
    const numberParticles: int := 600
    const numberOfGroups: int := 6
    /** The frame's size, `Frame.width` and `Frame.height` in the original. */
    const width: int
    const height: int

    var particles: seq<Particle>
    var particlesCreated: bool
    var grid: Grid?

    var rMax: real
    var friction: real
    var forceFactor: int
    var dt: real

    var totalForcex: real
    var totalForcey: real
    var attraction: seq<seq<real>>

    /** The frame is non-empty, and no particle is listed twice. */
    ghost predicate Valid()
      reads this
    {
      width > 0 && height > 0 && NoDuplicates(particles)
    }

    /** Every particle has the colour of its group. */
    ghost predicate ParticlesValid()
      reads this, particles
    {
      forall q :: q in particles ==> q.Valid()
    }

    /** The tunables and the frame, as the update reads them. */
    function Cfg(): Config
      reads this
    {
      Config(rMax, friction, forceFactor, dt, attraction, width, height)
    }

    constructor (width: int, height: int)
      requires width > 0 && height > 0
      ensures Valid() && ParticlesValid() && this.width == width && this.height == height
      ensures particles == [] && !particlesCreated && grid == null
      ensures rMax == 172.0 && friction == 0.90 && forceFactor == 1 && dt == 0.01
      ensures totalForcex == 0.0 && totalForcey == 0.0 && attraction == DefaultAttraction
    {
      this.width := width;
      this.height := height;
      particles := [];
      particlesCreated := false;
      grid := null;
      rMax := 172.0;
      friction := 0.90;
      forceFactor := 1;
      dt := 0.01;
      totalForcex := 0.0;
      totalForcey := 0.0;
      attraction := DefaultAttraction;
    }

    /**
     * Adds `numberParticles` particles to each of the `numberOfGroups` groups, group
     * by group. The positions the random generator draws are passed in, in
     * creation order; the generator draws them from [5, extent - 5).
     */
    method CreateParticles(xs: seq<int>, ys: seq<int>)
      requires Valid()
      requires |xs| == numberOfGroups * numberParticles && |ys| == |xs|
      requires forall k :: 0 <= k < |xs| ==> 5 <= xs[k] < width - 5 && 5 <= ys[k] < height - 5
      modifies this`particles, this`particlesCreated
      ensures Valid() && particlesCreated
      ensures old(ParticlesValid()) ==> ParticlesValid()
      ensures |particles| == |old(particles)| + |xs| && particles[..|old(particles)|] == old(particles)
      ensures forall q :: q in particles[|old(particles)|..] ==> fresh(q)
      ensures forall k :: 0 <= k < |xs| ==>
        particles[|old(particles)| + k].State() ==
          PState(xs[k] as real, ys[k] as real, 2, GroupColor(k / numberParticles), 0.0, 0.0, k / numberParticles, false)
    {
      ghost var n0 := |particles|;
      var i := 0;
      while i < numberOfGroups
        invariant 0 <= i <= numberOfGroups && Valid() && (old(ParticlesValid()) ==> ParticlesValid())
        invariant |particles| == n0 + i * numberParticles && particles[..n0] == old(particles)
        invariant forall q :: q in particles[n0..] ==> fresh(q)
        invariant forall k :: 0 <= k < i * numberParticles ==>
          particles[n0 + k].State() ==
            PState(xs[k] as real, ys[k] as real, 2, GroupColor(k / numberParticles), 0.0, 0.0, k / numberParticles, false)
      {
        var j := 0;
        while j < numberParticles
          invariant 0 <= j <= numberParticles && Valid() && (old(ParticlesValid()) ==> ParticlesValid())
          invariant |particles| == n0 + i * numberParticles + j && particles[..n0] == old(particles)
          invariant forall q :: q in particles[n0..] ==> fresh(q)
          invariant forall k :: 0 <= k < i * numberParticles + j ==>
            particles[n0 + k].State() ==
              PState(xs[k] as real, ys[k] as real, 2, GroupColor(k / numberParticles), 0.0, 0.0, k / numberParticles, false)
        {
          var k := i * numberParticles + j;
          var x := xs[k] as real;
          var y := ys[k] as real;
          var radius := 2;
          var xspeed := 0.0;
          var yspeed := 0.0;
          var glowEnabled := false;
          var p := new Particle(x, y, radius, xspeed, yspeed, i, glowEnabled);
          assert k / numberParticles == i;
          assert particles[n0..] + [p] == (particles + [p])[n0..];
          ghost var before := particles;
          particles := particles + [p];
          forall m | 0 <= m <= k
            ensures particles[n0 + m].State() ==
              PState(xs[m] as real, ys[m] as real, 2, GroupColor(m / numberParticles), 0.0, 0.0, m / numberParticles, false)
          {
            if m < k {
              assert particles[n0 + m] == before[n0 + m];
            }
          }
          j := j + 1;
        }
        i := i + 1;
      }
      particlesCreated := true;
    }

    /**
     * `update`: builds a new grid from the particles' positions, then lets every
     * particle take its turn in list order, its velocity first and then its
     * position. The grid stays as it was built while the particles move. Every
     * position must have a bucket in the grid and every pair of groups an entry
     * in the attraction matrix, as the original's array lookups demand.
     */
    method Update(sqrt: real -> real)
      requires Valid() && rMax > 0.0
      requires IndicesBelow(Indices(Positions(particles), rMax, CellsAcross(width, rMax)),
                            CellsAcross(width, rMax) * CellsAcross(height, rMax))
      requires CoversGroups(attraction, Snapshot(particles))
      modifies this`grid, this`totalForcex, this`totalForcey
      modifies particles`x, particles`y, particles`xspeed, particles`yspeed
      ensures grid != null && fresh(grid) && grid.Valid() && grid.cellSize == rMax
      ensures grid.cols == CellsAcross(width, rMax) && grid.rows == CellsAcross(height, rMax)
      ensures grid.cells == Buckets(particles, old(Indices(Positions(particles), rMax, CellsAcross(width, rMax))),
                                    grid.cols * grid.rows)
      ensures Snapshot(particles) == Step(old(Snapshot(particles)), particles, LayoutOf(grid), Cfg(), sqrt)
    {
      ghost var st := Snapshot(particles);
      var g := BuildGrid();
      Turns(g, sqrt, st);
    }

    /** The loop of `update`: every particle, in list order, takes its turn on the grid `g`. */
    method Turns(g: Grid, sqrt: real -> real, ghost s0: map<Particle, PState>)
      requires Valid() && g.Valid() && Snapshot(particles) == s0
      requires forall c, q :: 0 <= c < |g.cells| && q in g.cells[c] ==> q in particles
      requires forall q :: q in particles ==> IndexValid(LayoutOf(g), q.State())
      requires CoversGroups(attraction, s0)
      modifies this`totalForcex, this`totalForcey
      modifies particles`x, particles`y, particles`xspeed, particles`yspeed
      ensures particles == old(particles) && grid == old(grid) && g.Valid()
      ensures LayoutOf(g) == old(LayoutOf(g)) && Cfg() == old(Cfg())
      ensures Snapshot(particles) == Step(s0, particles, LayoutOf(g), Cfg(), sqrt)
    {
      ghost var layout, cfg, ps := LayoutOf(g), Cfg(), particles;
      assert forall q :: q in ps ==> q in s0 && IndexValid(layout, s0[q]);
      var i := 0;
      while i < |particles|
        invariant 0 <= i <= |ps| && particles == ps
        invariant LayoutOf(g) == layout && Cfg() == cfg
        invariant Snapshot(particles) == Step(s0, ps[..i], layout, cfg, sqrt)
      {
        NextTurn(i, g, sqrt, s0);
        i := i + 1;
      }
      assert ps[..i] == ps;
    }

    /** One pass of the loop of `update`: after the first `i` turns of the step, the next one. */
    method NextTurn(i: int, g: Grid, sqrt: real -> real, ghost s0: map<Particle, PState>)
      requires Valid() && 0 <= i < |particles| && g.Valid()
      requires forall c, q :: 0 <= c < |g.cells| && q in g.cells[c] ==> q in particles
      requires forall q :: q in particles ==> q in s0 && IndexValid(LayoutOf(g), s0[q])
      requires CoversGroups(attraction, s0)
      requires Snapshot(particles) == Step(s0, particles[..i], LayoutOf(g), Cfg(), sqrt)
      modifies this`totalForcex, this`totalForcey
      modifies particles`x, particles`y, particles`xspeed, particles`yspeed
      ensures particles == old(particles) && g.Valid()
      ensures LayoutOf(g) == old(LayoutOf(g)) && Cfg() == old(Cfg())
      ensures Snapshot(particles) == Step(s0, particles[..i + 1], LayoutOf(g), Cfg(), sqrt)
    {
      assert particles[i] !in particles[..i];
      StepFrame(s0, particles[..i], LayoutOf(g), Cfg(), sqrt, particles[i]);
      StepKeepsCover(attraction, s0, particles[..i], LayoutOf(g), Cfg(), sqrt);
      UpdateTurn(i, g, sqrt);
      StepExtend(s0, particles, i, LayoutOf(g), Cfg(), sqrt);
    }

    /**
     * The first line of `update`: a fresh grid over the current positions, whose
     * buckets hold only listed particles, each in a valid cell.
     */
    method BuildGrid() returns (g: Grid)
      requires Valid() && rMax > 0.0
      requires IndicesBelow(Indices(Positions(particles), rMax, CellsAcross(width, rMax)),
                            CellsAcross(width, rMax) * CellsAcross(height, rMax))
      modifies this`grid
      ensures grid == g && fresh(g) && g.Valid() && g.cellSize == rMax
      ensures g.cols == CellsAcross(width, rMax) && g.rows == CellsAcross(height, rMax)
      ensures g.cells == Buckets(particles, old(Indices(Positions(particles), rMax, CellsAcross(width, rMax))), g.cols * g.rows)
      ensures Snapshot(particles) == old(Snapshot(particles))
      ensures forall c, q :: 0 <= c < |g.cells| && q in g.cells[c] ==> q in particles
      ensures forall q :: q in particles ==> IndexValid(LayoutOf(g), q.State())
    {
      ghost var idx := Indices(Positions(particles), rMax, CellsAcross(width, rMax));
      g := new Grid(rMax, particles, width, height);
      grid := g;
      forall c, q | 0 <= c < |g.cells| && q in g.cells[c]
        ensures q in particles
      {
        BucketsMembership(particles, idx, g.cols * g.rows, c, q);
      }
      forall q | q in particles
        ensures IndexValid(LayoutOf(g), q.State())
      {
        var k :| 0 <= k < |particles| && particles[k] == q;
        assert idx[k] == CellIndex(q.x, q.y, rMax, g.cols);
      }
    }

    /**
     * One pass of the loop in `update`: the particle at position `i` of the list
     * takes its turn, the turn `Advance` describes.
     */
    method UpdateTurn(i: int, g: Grid, sqrt: real -> real)
      requires Valid() && 0 <= i < |particles| && g.Valid()
      requires forall c, q :: 0 <= c < |g.cells| && q in g.cells[c] ==> q in particles
      requires IndexValid(LayoutOf(g), particles[i].State())
      requires CoversGroups(attraction, Snapshot(particles))
      modifies this`totalForcex, this`totalForcey
      modifies particles`x, particles`y, particles`xspeed, particles`yspeed
      ensures Snapshot(particles) == Advance(old(Snapshot(particles)), particles[i], LayoutOf(g), Cfg(), sqrt)
    {
      var particle := particles[i];
      ghost var st := Snapshot(particles);
      forall c, q | 0 <= c < |g.cells| && q in g.cells[c]
        ensures Indexable(attraction, particle.group, q.group)
      {
        assert st[particle].group == particle.group && st[q].group == q.group;
      }
      Turn(particle, g, sqrt);
      AdvanceAt(st, particle, LayoutOf(g), Cfg(), sqrt, particle.State());
    }

    /**
     * `updateVelocity` and then `updatePosition` for one particle: the turn
     * `Advance` describes, with the neighbours read from the particles' fields.
     */
    method Turn(particle: Particle, g: Grid, sqrt: real -> real)
      requires Valid() && particle in particles && g.Valid()
      requires IndexValid(LayoutOf(g), particle.State())
      requires forall c, q :: 0 <= c < |g.cells| && q in g.cells[c] ==>
        q in particles && Indexable(attraction, particle.group, q.group)
      modifies this`totalForcex, this`totalForcey, particle`x, particle`y, particle`xspeed, particle`yspeed
      ensures var s := old(particle.State());
        particle.State() == Moved(Accelerated(s, ForceOn(old(Snapshot(particles)), particle, s, LayoutOf(g), Cfg(), sqrt), Cfg()), Cfg())
    {
      ghost var s, layout := particle.State(), LayoutOf(g);
      NeighborsListed(particles, layout, s, particle);
      LookupSnapshot(particles, Neighbors(layout, s, particle));
      UpdateVelocity(particle, g, sqrt);
      UpdatePosition(particle);
    }

    /**
     * `calculateDistance`: adds to the accumulated force what a neighbour at
     * (`x2`, `y2`) with attraction `a` exerts on a particle at (`x1`, `y1`).
     */
    method CalculateDistance(x1: real, y1: real, x2: real, y2: real, a: real, sqrt: real -> real)
      modifies this`totalForcex, this`totalForcey
      ensures var c := Contribution(x1, y1, x2, y2, a, rMax, width, height, sqrt);
        totalForcex == old(totalForcex) + c.0 && totalForcey == old(totalForcey) + c.1
    {
      ghost var c := Contribution(x1, y1, x2, y2, a, rMax, width, height, sqrt);
      var dx := x2 - x1;
      var dy := y2 - y1;
      dx := CheckDelta(dx, width as real);
      dy := CheckDelta(dy, height as real);
      assert c == Push(dx, dy, a, rMax, sqrt);
      var distance := sqrt(SquaredLength(dx, dy));
      if distance > 0.0 && distance < rMax {
        var f := Force(distance / rMax, a);
        assert c == Along(dx, dy, distance, f);
        totalForcex := totalForcex + dx / distance * f;
        totalForcey := totalForcey + dy / distance * f;
      }
    }

    /**
     * One pass of the loop in `updateVelocity`: the force `neighbor` exerts on
     * `particle` is added to the accumulated force, which advances it from the
     * net force of the first `i` samples to that of the first `i + 1`.
     */
    method AddNeighborForce(particle: Particle, neighbor: Particle, sqrt: real -> real,
                            ghost nbs: seq<(real, real, int)>, ghost i: nat)
      requires Indexable(attraction, particle.group, neighbor.group)
      requires i < |nbs| && nbs[i] == Sample(neighbor.State())
      requires (totalForcex, totalForcey) == PartialForce(particle.x, particle.y, particle.group, nbs, i, Cfg(), sqrt)
      modifies this`totalForcex, this`totalForcey
      ensures (totalForcex, totalForcey) == PartialForce(particle.x, particle.y, particle.group, nbs, i + 1, Cfg(), sqrt)
    {
      CalculateDistance(particle.GetX(), particle.GetY(), neighbor.GetX(), neighbor.GetY(),
                        attraction[particle.GetGroupNumber()][neighbor.GetGroupNumber()], sqrt);
    }

    /**
     * The loop of `updateVelocity`: from zero, the accumulated force becomes the
     * net force the listed neighbours exert on the particle.
     */
    method SumForces(particle: Particle, neighbors: seq<Particle>, sqrt: real -> real, ghost nbs: seq<(real, real, int)>)
      requires totalForcex == 0.0 && totalForcey == 0.0
      requires forall q :: q in neighbors ==> Indexable(attraction, particle.group, q.group)
      requires |nbs| == |neighbors| && forall k :: 0 <= k < |nbs| ==> nbs[k] == Sample(neighbors[k].State())
      modifies this`totalForcex, this`totalForcey
      ensures (totalForcex, totalForcey) == NetForce(particle.x, particle.y, particle.group, nbs, Cfg(), sqrt)
    {
      var i := 0;
      while i < |neighbors|
        invariant 0 <= i <= |neighbors|
        invariant (totalForcex, totalForcey) == PartialForce(particle.x, particle.y, particle.group, nbs, i, Cfg(), sqrt)
      {
        AddNeighborForce(particle, neighbors[i], sqrt, nbs, i);
        i := i + 1;
      }
    }

    /**
     * The end of `updateVelocity`: the accumulated force is scaled by
     * `rMax * forceFactor`, friction damps the velocity, and the scaled force
     * times the time step is added to it.
     */
    method ApplyForce(particle: Particle)
      modifies this`totalForcex, this`totalForcey, particle`xspeed, particle`yspeed
      ensures totalForcex == Scaled(old(totalForcex), Cfg()) && totalForcey == Scaled(old(totalForcey), Cfg())
      ensures particle.State() == Accelerated(old(particle.State()), (old(totalForcex), old(totalForcey)), Cfg())
    {
      totalForcex := totalForcex * (rMax * forceFactor as real);
      totalForcey := totalForcey * (rMax * forceFactor as real);
      particle.SetXspeed(particle.GetXspeed() * friction);
      particle.SetYspeed(particle.GetYspeed() * friction);
      particle.SetXspeed(particle.GetXspeed() + totalForcex * dt);
      particle.SetYspeed(particle.GetYspeed() + totalForcey * dt);
    }

    /**
     * `updateVelocity`: sums the forces of the particle's neighbours in the grid,
     * scales the sum by `rMax * forceFactor`, applies friction to the velocity and
     * then adds the scaled force times the time step. The neighbours' fields are
     * read as they are when the particle takes its turn.
     */
    method UpdateVelocity(particle: Particle, grid: Grid, sqrt: real -> real)
      requires grid.Valid() && 0 <= grid.GetCellIndex(particle) < |grid.cells|
      requires forall c, q :: 0 <= c < |grid.cells| && q in grid.cells[c] ==> Indexable(attraction, particle.group, q.group)
      modifies this`totalForcex, this`totalForcey, particle`xspeed, particle`yspeed
      ensures IndexValid(LayoutOf(grid), old(particle.State()))
      ensures var s := old(particle.State());
        var f := NetForce(s.x, s.y, s.group, old(Samples(Neighbors(LayoutOf(grid), s, particle))), old(Cfg()), sqrt);
        particle.State() == Accelerated(s, f, old(Cfg())) &&
        totalForcex == Scaled(f.0, old(Cfg())) && totalForcey == Scaled(f.1, old(Cfg()))
    {
      ghost var s := particle.State();
      ghost var cfg := Cfg();
      totalForcex := 0.0;
      totalForcey := 0.0;
      var neighbors := grid.GetNeighbors(particle);
      ghost var (col, row) := CellOf(grid.GetCellIndex(particle), grid.cols, grid.rows);
      NeighborsIndexable(grid.cells, grid.cols, grid.rows, col, row, particle, attraction);
      ghost var nbs := Samples(neighbors);
      assert neighbors == Neighbors(LayoutOf(grid), s, particle);
      assert nbs == old(Samples(neighbors));
      ghost var f := NetForce(s.x, s.y, s.group, nbs, cfg, sqrt);
      SumForces(particle, neighbors, sqrt, nbs);
      assert (totalForcex, totalForcey) == f;
      ApplyForce(particle);
      assert particle.State() == Accelerated(s, f, cfg);
    }

    /**
     * `updatePosition`: one time step at the new velocity on both axes, then the
     * wrap back onto the frame.
     */
    method UpdatePosition(particle: Particle)
      requires width > 0 && height > 0
      modifies particle`x, particle`y
      ensures particle.State() == Moved(old(particle.State()), old(Cfg()))
    {
      ghost var s := particle.State();
      ghost var cfg := Cfg();
      var x := particle.GetX() + particle.GetXspeed() * dt;
      assert particle.GetX() == s.x && particle.GetXspeed() == s.xspeed && dt == cfg.dt;
      assert x == s.x + s.xspeed * cfg.dt;
      particle.SetX(x);
      assert particle.State() == s.(x := x) && dt == cfg.dt;
      var y := particle.GetY() + particle.GetYspeed() * dt;
      assert particle.GetY() == s.y && particle.GetYspeed() == s.yspeed;
      assert y == s.y + s.yspeed * cfg.dt;
      particle.SetY(y);
      assert particle.State() == Displaced(s, cfg.dt);
      SetInFrame(particle);
    }

    /**
     * `setInFrame`: a coordinate beyond the far edge is reduced by Java's `%`,
     * a negative one is brought up by `(v % extent + extent) % extent`; the
     * two axes are independent, and nothing else changes.
     */
    method SetInFrame(particle: Particle)
      requires width > 0 && height > 0
      modifies particle`x, particle`y
      ensures particle.State() == InFrame(old(particle.State()), width, height)
    {
      if particle.GetX() > width as real {
        particle.SetX(FloatRem(particle.GetX(), width as real));
      }
      if particle.GetX() < 0.0 {
        particle.SetX(FloatRem(FloatRem(particle.GetX(), width as real) + width as real, width as real));
      }
      if particle.GetY() > height as real {
        particle.SetY(FloatRem(particle.GetY(), height as real));
      }
      if particle.GetY() < 0.0 {
        particle.SetY(FloatRem(FloatRem(particle.GetY(), height as real) + height as real, height as real));
      }
    }

    /** `ChangeAttraction`: every entry of the attraction matrix is set to the level of its draw, row by row. */
    method ChangeAttraction(draws: seq<seq<int>>)
      requires |draws| == |attraction| && forall i :: 0 <= i < |draws| ==> |draws[i]| == |attraction[i]|
      requires forall i, j :: 0 <= i < |draws| && 0 <= j < |draws[i]| ==> -5 <= draws[i][j] < 5
      modifies this`attraction
      ensures attraction == Levels(draws) && SameShape(old(attraction), attraction)
    {
      var i := 0;
      while i < |attraction|
        invariant 0 <= i <= |attraction| == |draws|
        invariant SameShape(old(attraction), attraction)
        invariant forall k :: 0 <= k < i ==> attraction[k] == Levels(draws)[k]
      {
        var j := 0;
        while j < |attraction[i]|
          invariant |attraction| == |draws| && SameShape(old(attraction), attraction)
          invariant 0 <= j <= |attraction[i]| == |draws[i]|
          invariant forall k :: 0 <= k < i ==> attraction[k] == Levels(draws)[k]
          invariant attraction[i][..j] == Levels(draws)[i][..j]
        {
          attraction := attraction[i := attraction[i][j := Level(draws[i][j])]];
          j := j + 1;
        }
        assert attraction[i] == attraction[i][..j];
        i := i + 1;
      }
    }

    /** `changeGlow`: every particle's glow effect is switched on if it was off and off if it was on. */
    method ChangeGlow()
      requires Valid()
      modifies particles`glow
      ensures forall q :: q in particles ==> q.State() == Toggled(old(q.State()))
      ensures old(ParticlesValid()) ==> ParticlesValid()
    {
      for i := 0 to |particles|
        invariant forall k :: 0 <= k < i ==> particles[k].glow == !old(particles[k].glow)
        invariant forall k :: i <= k < |particles| ==> particles[k].glow == old(particles[k].glow)
      {
        var particle := particles[i];
        if particle.IsGlowEnabled() {
          particle.SetGlow(false);
        } else {
          particle.SetGlow(true);
        }
      }
      forall q | q in particles
        ensures q.State() == Toggled(old(q.State()))
      {
        var k :| 0 <= k < |particles| && particles[k] == q;
      }
    }

    /** `moveParticlesX`: every particle moves `value` pixels along the x axis. */
    method MoveParticlesX(value: int)
      requires Valid()
      modifies particles`x
      ensures forall q :: q in particles ==> q.State() == Translated(old(q.State()), value as real, 0.0)
      ensures old(ParticlesValid()) ==> ParticlesValid()
    {
      for i := 0 to |particles|
        invariant forall k :: 0 <= k < i ==> particles[k].x == old(particles[k].x) + value as real
        invariant forall k :: i <= k < |particles| ==> particles[k].x == old(particles[k].x)
      {
        var particle := particles[i];
        particle.SetX(particle.GetX() + value as real);
      }
      forall q | q in particles
        ensures q.State() == Translated(old(q.State()), value as real, 0.0)
      {
        var k :| 0 <= k < |particles| && particles[k] == q;
      }
    }

    /** `moveParticlesY`: every particle moves `value` pixels along the y axis. */
    method MoveParticlesY(value: int)
      requires Valid()
      modifies particles`y
      ensures forall q :: q in particles ==> q.State() == Translated(old(q.State()), 0.0, value as real)
      ensures old(ParticlesValid()) ==> ParticlesValid()
    {
      for i := 0 to |particles|
        invariant forall k :: 0 <= k < i ==> particles[k].y == old(particles[k].y) + value as real
        invariant forall k :: i <= k < |particles| ==> particles[k].y == old(particles[k].y)
      {
        var particle := particles[i];
        particle.SetY(particle.GetY() + value as real);
      }
      forall q | q in particles
        ensures q.State() == Translated(old(q.State()), 0.0, value as real)
      {
        var k :| 0 <= k < |particles| && particles[k] == q;
      }
    }

    method SetAttraction(attraction: seq<seq<real>>)
      modifies this`attraction
      ensures this.attraction == attraction
    {
      this.attraction := attraction;
    }

    function GetFriction(): real
      reads this
    {
      friction
    }

    method SetFriction(friction: real)
      modifies this`friction
      ensures GetFriction() == friction
    {
      this.friction := friction;
    }

    function GetForceFactor(): int
      reads this
    {
      forceFactor
    }

    method SetForceFactor(forceFactor: int)
      modifies this`forceFactor
      ensures GetForceFactor() == forceFactor
    {
      this.forceFactor := forceFactor;
    }

    function GetDt(): real
      reads this
    {
      dt
    }

    method SetDt(dt: real)
      modifies this`dt
      ensures GetDt() == dt
    {
      this.dt := dt;
    }

    function GetRMax(): real
      reads this
    {
      rMax
    }

    /** `setRMax`: any radius is accepted; `Update` needs a positive one to build its grid. */
    method SetRMax(radius: real)
      modifies this`rMax
      ensures GetRMax() == radius
    {
      this.rMax := radius;
    }

    function GetNumberParticles(): int
    {
      numberParticles
    }

    function GetNumberOfGroups(): int
    {
      numberOfGroups
    }
  }
}
