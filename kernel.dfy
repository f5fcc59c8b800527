/**
 * The pure laws of the particle update: the piecewise attraction force, the
 * minimum-image displacement on the torus, the wrap of a coordinate back onto
 * the frame, and the force one neighbour contributes.
 */
module Kernel {
  import opened JavaMath

  // ---------------------------------------------------------------------------
  // The force law
  // ---------------------------------------------------------------------------

  /** The relative distance below which particles repel each other whatever their attraction. */
  const Breakpoint: real := 0.2

  /**
   * The force between two particles at relative distance `d` (distance over `rMax`)
   * with attraction `a`: a linear repulsion below the breakpoint, a tent of height
   * `a` between the breakpoint and 1, and nothing elsewhere.
   */
  function Force(d: real, a: real): real
  {
    if d < Breakpoint then d / Breakpoint - 1.0
    else if Breakpoint < d && d < 1.0 then a * (1.0 - Abs(2.0 * d - 1.0 - Breakpoint) / (1.0 - Breakpoint))
    else 0.0
  }

  /** No force at or beyond `rMax`, and none exactly at the breakpoint. */
  lemma ForceVanishes(d: real, a: real)
    requires d >= 1.0 || d == Breakpoint
    ensures Force(d, a) == 0.0
  {
  }

  /**
   * Below the breakpoint the force is a repulsion in [-1, 0) that grows linearly
   * towards -1 as the distance shrinks to 0, whatever the attraction.
   */
  lemma ForceRepulsive(d: real, a: real, a': real)
    requires 0.0 <= d < Breakpoint
    ensures -1.0 <= Force(d, a) < 0.0
    ensures Force(d, a) == Force(d, a')
    ensures Force(d, a) * Breakpoint == d - Breakpoint
  {
    DivisionByPositive(0.0, d, Breakpoint);
    DivisionByPositive(d, Breakpoint, Breakpoint);
  }

  /** A factor in [0, 1] shrinks a non-negative number. */
  lemma ScaleAtMost(a: real, s: real, r: real)
    requires a >= 0.0 && 0.0 <= s <= 1.0 && r == a * s
    ensures 0.0 <= r <= a
  {
    assert a * (1.0 - s) >= 0.0;
  }

  /** A factor in [0, 1] never increases a magnitude, and keeps the sign. */
  lemma ScaleBounded(a: real, s: real)
    requires 0.0 <= s <= 1.0
    ensures Abs(a * s) <= Abs(a)
    ensures a >= 0.0 ==> a * s >= 0.0
    ensures a <= 0.0 ==> a * s <= 0.0
  {
    if a >= 0.0 {
      ScaleAtMost(a, s, a * s);
    } else {
      ScaleAtMost(-a, s, (-a) * s);
      assert a * s == -((-a) * s);
    }
  }

  /**
   * Between the breakpoint and 1 the force is bounded by the attraction and has
   * its sign; it peaks at the midpoint 0.6, where it equals the attraction.
   */
  lemma ForceBounded(d: real, a: real)
    requires Breakpoint < d < 1.0
    ensures Abs(Force(d, a)) <= Abs(a)
    ensures a >= 0.0 ==> Force(d, a) >= 0.0
    ensures a <= 0.0 ==> Force(d, a) <= 0.0
  {
    var t := Abs(2.0 * d - 1.0 - Breakpoint);
    assert 0.0 <= t < 1.0 - Breakpoint;
    DivisionByPositive(0.0, t, 1.0 - Breakpoint);
    DivisionByPositive(t, 1.0 - Breakpoint, 1.0 - Breakpoint);
    ScaleBounded(a, 1.0 - t / (1.0 - Breakpoint));
  }

  /** The force peaks at relative distance 0.6 with exactly the attraction. */
  lemma ForcePeak(a: real)
    ensures Force(0.6, a) == a
  {
  }

  // ---------------------------------------------------------------------------
  // The torus
  // ---------------------------------------------------------------------------

  /**
   * `checkdx` / `checkdy`: the displacement `d` along an axis of extent `w`,
   * shifted by one extent when it is longer than half the axis.
   */
  function CheckDelta(d: real, w: real): real
  {
    var d' := if d > 0.5 * w then d - w else d;
    if d' < -0.5 * w then d' + w else d'
  }

  /**
   * For a displacement between two points of the frame the corrected one is the
   * minimum image: it differs from `d` by at most one extent, lies within half
   * an extent, and is no longer than any of the three images.
   */
  lemma CheckDeltaMinimumImage(d: real, w: real)
    requires w > 0.0 && -w <= d <= w
    ensures var r := CheckDelta(d, w);
      (r == d || r == d - w || r == d + w) &&
      -0.5 * w <= r <= 0.5 * w &&
      Abs(r) <= Abs(d) && Abs(r) <= Abs(d - w) && Abs(r) <= Abs(d + w)
  {
  }

  /** Reversing the displacement reverses the correction, whatever its length. */
  lemma CheckDeltaOdd(d: real, w: real)
    requires w >= 0.0
    ensures CheckDelta(-d, w) == -CheckDelta(d, w)
  {
  }

  /**
   * `setInFrame` on one axis of extent `w`: a coordinate beyond the far edge is
   * reduced by Java's `%`, and a negative one is brought up by `(v % w + w) % w`.
   */
  function FrameAxis(v: real, w: real): real
    requires w >= 1.0
  {
    var v' := if v > w then FloatRem(v, w) else v;
    if v' < 0.0 then FloatRem(FloatRem(v', w) + w, w) else v'
  }

  /** A coordinate already on the axis, far edge included, is left alone. */
  lemma FrameAxisKeeps(v: real, w: real)
    requires w >= 1.0 && 0.0 <= v <= w
    ensures FrameAxis(v, w) == v
  {
  }

  /** A coordinate off the axis, on either side, is brought into [0, w). */
  lemma FrameAxisWraps(v: real, w: real)
    requires w >= 1.0 && (v > w || v < 0.0)
    ensures 0.0 <= FrameAxis(v, w) < w
  {
    if v > w {
      FloatRemNonNegative(v, w);
    } else {
      FloatRemNegative(v, w);
      FloatRemNonNegative(FloatRem(v, w) + w, w);
    }
  }

  /** Every result lies on the axis; the far edge `w` itself is reached only from `w`. */
  lemma FrameAxisInFrame(v: real, w: real)
    requires w >= 1.0
    ensures 0.0 <= FrameAxis(v, w) <= w
    ensures FrameAxis(v, w) == w <==> v == w
  {
    if 0.0 <= v <= w {
      FrameAxisKeeps(v, w);
    } else {
      FrameAxisWraps(v, w);
    }
  }

  /** The wrap moves a coordinate by a whole number of extents: it comes out at the other side. */
  lemma FrameAxisShift(v: real, w: real) returns (k: int)
    requires w >= 1.0
    ensures FrameAxis(v, w) == v + (k as real) * w
  {
    if v > w {
      FloatRemNonNegative(v, w);
      k := FloatRemShift(v, w);
    } else if v < 0.0 {
      var k1 := FloatRemShift(v, w);
      var k2 := FloatRemShift(FloatRem(v, w) + w, w);
      CombineShifts(v, w, k1, k2, FrameAxis(v, w));
      k := k1 + 1 + k2;
    } else {
      k := 0;
    }
  }

  /** Two shifts by whole extents, with one more extent between them, are one shift. */
  lemma CombineShifts(v: real, w: real, k1: int, k2: int, r: real)
    requires r == v + (k1 as real) * w + w + (k2 as real) * w
    ensures r == v + ((k1 + 1 + k2) as real) * w
  {
  }

  // ---------------------------------------------------------------------------
  // One neighbour's contribution
  // ---------------------------------------------------------------------------

  /** The tunables and the frame the update reads. */
  datatype Config = Config(rMax: real, friction: real, forceFactor: int, dt: real,
                           attraction: seq<seq<real>>, width: int, height: int)

  /** The entry of the attraction matrix for a pair of groups (0 for a pair outside it, which the update never looks up). */
  function Coefficient(attraction: seq<seq<real>>, g: int, h: int): real
  {
    if 0 <= g < |attraction| && 0 <= h < |attraction[g]| then attraction[g][h] else 0.0
  }

  /** The squared length of a displacement. */
  function SquaredLength(dx: real, dy: real): real
  {
    dx * dx + dy * dy
  }

  /**
   * The force along a minimum-image displacement (`dx`, `dy`): the force law at the
   * relative distance, along the unit vector of the displacement, or nothing when
   * the distance is 0 or at least `rMax`. `sqrt` is the square root.
   */
  function Push(dx: real, dy: real, a: real, rMax: real, sqrt: real -> real): (real, real)
  {
    var distance := sqrt(SquaredLength(dx, dy));
    if distance > 0.0 && distance < rMax then Along(dx, dy, distance, Force(distance / rMax, a))
    else (0.0, 0.0)
  }

  /** A force `f` along the direction of (`dx`, `dy`), whose length is `distance`. */
  function Along(dx: real, dy: real, distance: real, f: real): (real, real)
    requires distance != 0.0
  {
    (dx / distance * f, dy / distance * f)
  }

  /**
   * `calculateDistance`: the force a neighbour at (`x2`, `y2`) exerts on a particle
   * at (`x1`, `y1`) with attraction `a`, along the minimum-image displacement.
   */
  function Contribution(x1: real, y1: real, x2: real, y2: real, a: real,
                        rMax: real, width: int, height: int, sqrt: real -> real): (real, real)
  {
    Push(CheckDelta(x2 - x1, width as real), CheckDelta(y2 - y1, height as real), a, rMax, sqrt)
  }

  /** A neighbour at distance 0 or at least `rMax` contributes nothing. */
  lemma ContributionVanishes(x1: real, y1: real, x2: real, y2: real, a: real,
                             rMax: real, width: int, height: int, sqrt: real -> real)
    requires var dx := CheckDelta(x2 - x1, width as real);
      var dy := CheckDelta(y2 - y1, height as real);
      sqrt(SquaredLength(dx, dy)) == 0.0 || sqrt(SquaredLength(dx, dy)) >= rMax
    ensures Contribution(x1, y1, x2, y2, a, rMax, width, height, sqrt) == (0.0, 0.0)
  {
  }

  /** The reversed displacement is pushed the opposite way. */
  lemma PushOpposite(dx: real, dy: real, a: real, rMax: real, sqrt: real -> real)
    ensures var (px, py) := Push(dx, dy, a, rMax, sqrt);
      Push(-dx, -dy, a, rMax, sqrt) == (-px, -py)
  {
    var distance := sqrt(SquaredLength(dx, dy));
    assert SquaredLength(-dx, -dy) == SquaredLength(dx, dy);
    assert sqrt(SquaredLength(-dx, -dy)) == distance;
    if distance > 0.0 && distance < rMax {
      var f := Force(distance / rMax, a);
      AlongOpposite(dx, dy, distance, f);
      assert Push(dx, dy, a, rMax, sqrt) == Along(dx, dy, distance, f);
      assert Push(-dx, -dy, a, rMax, sqrt) == Along(-dx, -dy, distance, f);
    } else {
      assert Push(dx, dy, a, rMax, sqrt) == (0.0, 0.0) == Push(-dx, -dy, a, rMax, sqrt);
    }
  }

  /** Negating a component negates its share of a force. */
  lemma NegatedShare(x: real, d: real, f: real)
    requires d != 0.0
    ensures (-x) / d * f == -(x / d * f)
  {
  }

  /** The reversed direction carries the opposite force. */
  lemma AlongOpposite(dx: real, dy: real, distance: real, f: real)
    requires distance != 0.0
    ensures Along(-dx, -dy, distance, f).0 == -Along(dx, dy, distance, f).0
    ensures Along(-dx, -dy, distance, f).1 == -Along(dx, dy, distance, f).1
  {
    NegatedShare(dx, distance, f);
    NegatedShare(dy, distance, f);
    assert Along(-dx, -dy, distance, f).0 == (-dx) / distance * f;
    assert Along(-dx, -dy, distance, f).1 == (-dy) / distance * f;
    assert Along(dx, dy, distance, f).0 == dx / distance * f;
    assert Along(dx, dy, distance, f).1 == dy / distance * f;
  }

  /** When `sqrt` is exact, a push has the magnitude of the force law: it acts along a unit vector. */
  lemma PushMagnitude(dx: real, dy: real, a: real, rMax: real, sqrt: real -> real)
    requires var s := SquaredLength(dx, dy); sqrt(s) >= 0.0 && sqrt(s) * sqrt(s) == s
    ensures var distance := sqrt(SquaredLength(dx, dy));
      var (px, py) := Push(dx, dy, a, rMax, sqrt);
      px * px + py * py == (if 0.0 < distance < rMax then Force(distance / rMax, a) * Force(distance / rMax, a) else 0.0)
  {
    var distance := sqrt(SquaredLength(dx, dy));
    if 0.0 < distance < rMax {
      var f := Force(distance / rMax, a);
      assert Push(dx, dy, a, rMax, sqrt) == Along(dx, dy, distance, f);
      AlongMagnitude(dx, dy, distance, f);
    }
  }

  /** A force along a direction of known length has the magnitude of the force. */
  lemma AlongMagnitude(dx: real, dy: real, distance: real, f: real)
    requires distance > 0.0 && distance * distance == SquaredLength(dx, dy)
    ensures Along(dx, dy, distance, f).0 * Along(dx, dy, distance, f).0 +
            Along(dx, dy, distance, f).1 * Along(dx, dy, distance, f).1 == f * f
  {
    var ux, uy := dx / distance, dy / distance;
    assert ux * distance == dx && uy * distance == dy;
    UnitVector(ux, uy, distance, SquaredLength(dx, dy));
    assert Along(dx, dy, distance, f).0 == ux * f;
    assert Along(dx, dy, distance, f).1 == uy * f;
    assert (ux * f) * (ux * f) + (uy * f) * (uy * f) == (ux * ux + uy * uy) * (f * f);
  }

  lemma PositiveProduct(a: real, b: real, r: real)
    requires a > 0.0 && b > 0.0 && r == a * b
    ensures r > 0.0
  {
  }

  /** Only the factor 1 leaves a positive number unchanged. */
  lemma CancelFactor(n: real, s: real, r: real)
    requires s > 0.0 && r == n * s && r == s
    ensures n == 1.0
  {
    if n > 1.0 {
      PositiveProduct(n - 1.0, s, r - s);
    } else if n < 1.0 {
      PositiveProduct(1.0 - n, s, s - r);
    }
  }

  /** A vector of length `d` shrunk by `d` has length 1. */
  lemma UnitVector(ux: real, uy: real, d: real, s: real)
    requires d > 0.0 && d * d == s && (ux * d) * (ux * d) + (uy * d) * (uy * d) == s
    ensures ux * ux + uy * uy == 1.0
  {
    var n := ux * ux + uy * uy;
    PositiveProduct(d, d, s);
    assert (ux * d) * (ux * d) + (uy * d) * (uy * d) == n * s;
    CancelFactor(n, s, n * s);
  }

  /**
   * With a symmetric attraction the two particles of a pair push each other with
   * opposite forces (on a frame of non-negative extent).
   */
  lemma ContributionOpposite(x1: real, y1: real, x2: real, y2: real, a: real,
                             rMax: real, width: int, height: int, sqrt: real -> real)
    requires width >= 0 && height >= 0
    ensures var (fx, fy) := Contribution(x1, y1, x2, y2, a, rMax, width, height, sqrt);
      Contribution(x2, y2, x1, y1, a, rMax, width, height, sqrt) == (-fx, -fy)
  {
    CheckDeltaOdd(x2 - x1, width as real);
    CheckDeltaOdd(y2 - y1, height as real);
    assert x1 - x2 == -(x2 - x1) && y1 - y2 == -(y2 - y1);
    PushOpposite(CheckDelta(x2 - x1, width as real), CheckDelta(y2 - y1, height as real), a, rMax, sqrt);
  }

  /** The total force of a list of neighbours: their contributions summed in list order. */
  function NetForce(x: real, y: real, group: int, nbs: seq<(real, real, int)>, cfg: Config, sqrt: real -> real): (real, real)
  {
    PartialForce(x, y, group, nbs, |nbs|, cfg, sqrt)
  }

  /** The force of the first `k` neighbours of the list. */
  function PartialForce(x: real, y: real, group: int, nbs: seq<(real, real, int)>, k: nat, cfg: Config, sqrt: real -> real): (real, real)
    requires k <= |nbs|
    decreases k, 0
  {
    if k == 0 then (0.0, 0.0) else ForceThrough(x, y, group, nbs, k - 1, cfg, sqrt)
  }

  /** The force of the neighbours up to and including neighbour `k` of the list. */
  function ForceThrough(x: real, y: real, group: int, nbs: seq<(real, real, int)>, k: nat, cfg: Config, sqrt: real -> real): (real, real)
    requires k < |nbs|
    decreases k, 1
  {
    Add(PartialForce(x, y, group, nbs, k, cfg, sqrt), NeighborForce(x, y, group, nbs[k], cfg, sqrt))
  }

  /** The contribution of one neighbour, given by its position and group. */
  function NeighborForce(x: real, y: real, group: int, nb: (real, real, int), cfg: Config, sqrt: real -> real): (real, real)
  {
    Contribution(x, y, nb.0, nb.1, Coefficient(cfg.attraction, group, nb.2), cfg.rMax, cfg.width, cfg.height, sqrt)
  }

  /** Two forces, added component by component. */
  function Add(f: (real, real), g: (real, real)): (real, real)
  {
    (f.0 + g.0, f.1 + g.1)
  }

  /** Neighbours that all lie at distance 0 or beyond `rMax` exert no force at all. */
  lemma NetForceVanishes(x: real, y: real, group: int, nbs: seq<(real, real, int)>, cfg: Config, sqrt: real -> real)
    requires forall k :: 0 <= k < |nbs| ==> NeighborForce(x, y, group, nbs[k], cfg, sqrt) == (0.0, 0.0)
    ensures NetForce(x, y, group, nbs, cfg, sqrt) == (0.0, 0.0)
  {
    PartialForceVanishes(x, y, group, nbs, |nbs|, cfg, sqrt);
  }

  /** The same for the first `k` neighbours, by induction on `k`. */
  lemma {:induction false} PartialForceVanishes(x: real, y: real, group: int, nbs: seq<(real, real, int)>, k: nat, cfg: Config, sqrt: real -> real)
    requires k <= |nbs|
    requires forall j :: 0 <= j < k ==> NeighborForce(x, y, group, nbs[j], cfg, sqrt) == (0.0, 0.0)
    ensures PartialForce(x, y, group, nbs, k, cfg, sqrt) == (0.0, 0.0)
  {
    if k > 0 {
      PartialForceVanishes(x, y, group, nbs, k - 1, cfg, sqrt);
    }
  }

  // ---------------------------------------------------------------------------
  // Velocity and position
  // ---------------------------------------------------------------------------

  /**
   * `updateVelocity` on one axis: friction first, then the force scaled by
   * `rMax * forceFactor` and the time step.
   */
  function Accelerate(v: real, f: real, cfg: Config): real
  {
    v * cfg.friction + Scaled(f, cfg) * cfg.dt
  }

  /** A summed force component scaled by `rMax * forceFactor`, as `updateVelocity` scales it. */
  function Scaled(f: real, cfg: Config): real
  {
    f * (cfg.rMax * cfg.forceFactor as real)
  }

  /** With no force, only friction acts: the speed is scaled by the friction factor. */
  lemma AccelerateWithoutForce(v: real, cfg: Config)
    ensures Accelerate(v, 0.0, cfg) == v * cfg.friction
    ensures 0.0 <= cfg.friction <= 1.0 ==> Abs(Accelerate(v, 0.0, cfg)) <= Abs(v)
  {
    if 0.0 <= cfg.friction <= 1.0 {
      ScaleBounded(v, cfg.friction);
    }
  }
}
