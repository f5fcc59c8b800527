/**
 * Java's numeric conversions and remainders, written out over Dafny's unbounded
 * `int` and exact `real`. Dafny's own `/` and `%` on `int` are Euclidean; Java's
 * truncate toward zero, and Java's `(int)` cast of a `double` truncates too.
 */
module JavaMath {

  function Abs(r: real): (a: real)
    ensures a >= 0.0 && (a == r || a == -r)
  {
    if r < 0.0 then -r else r
  }

  /** `(int) r` for a `double` r: rounds toward zero. */
  function Trunc(r: real): (n: int)
    ensures r >= 0.0 ==> 0 <= n && n as real <= r < n as real + 1.0
    ensures r < 0.0 ==> n <= 0 && n as real - 1.0 < r <= n as real
  {
    if r >= 0.0 then r.Floor else -((-r).Floor)
  }

  /** `Math.ceil(r)`, then cast to `int`. */
  function Ceil(r: real): (n: int)
    ensures n as real - 1.0 < r <= n as real
  {
    -((-r).Floor)
  }

  /** The quotient of a non-negative `a` by a positive `b`, by repeated subtraction. */
  function Quot(a: int, b: int): (q: int)
    requires a >= 0 && b > 0
    ensures q >= 0
    decreases a
  {
    if a < b then 0 else 1 + Quot(a - b, b)
  }

  /** Java's `a / b` on `int`: the quotient of the magnitudes, negated when the signs differ (rounds toward zero). */
  function IntDiv(a: int, b: int): int
    requires b != 0
  {
    var q := Quot(if a >= 0 then a else -a, if b > 0 then b else -b);
    if (a >= 0) == (b > 0) then q else -q
  }

  /** What is left of a non-negative `a` once `b` has been subtracted as often as it fits. */
  function Rem(a: int, b: int): (r: int)
    requires a >= 0 && b > 0
    decreases a
  {
    if a < b then a else Rem(a - b, b)
  }

  /** Java's `a % b` on `int`: the remainder of the magnitudes, with the sign of `a`. */
  function IntRem(a: int, b: int): int
    requires b != 0
  {
    var r := Rem(if a >= 0 then a else -a, if b > 0 then b else -b);
    if a >= 0 then r else -r
  }

  /** Repeated subtraction splits `a` into `b` times the quotient plus a remainder in [0, b). */
  lemma {:induction false} QuotRem(a: int, b: int)
    requires a >= 0 && b > 0
    ensures 0 <= Rem(a, b) < b && a == b * Quot(a, b) + Rem(a, b)
  {
    if a >= b {
      QuotRem(a - b, b);
      var q := Quot(a - b, b);
      assert b * (1 + q) == b + b * q;
    }
  }

  /** Any split `a == b * q + r` with `0 <= r < b` and `q >= 0` is the one repeated subtraction finds. */
  lemma {:induction false} QuotUnique(a: int, b: int, q: int, r: int)
    requires b > 0 && q >= 0 && 0 <= r < b && a == b * q + r
    ensures Quot(a, b) == q && Rem(a, b) == r
  {
    if q > 0 {
      assert b * q == b * (q - 1) + b;
      assert b * (q - 1) >= 0 by {
        ProductNonNegative(b, q - 1);
      }
      QuotUnique(a - b, b, q - 1, r);
    } else {
      assert a == r;
    }
  }

  lemma ProductNonNegative(a: int, b: int)
    requires a >= 0 && b >= 0
    ensures a * b >= 0
  {
  }

  /** On a non-negative dividend and a positive divisor, Java's `/` and `%` split the dividend exactly. */
  lemma NonNegativeIntDivRem(a: int, b: int)
    requires 0 <= a && 0 < b
    ensures IntDiv(a, b) == Quot(a, b) >= 0 && IntRem(a, b) == Rem(a, b)
    ensures 0 <= IntRem(a, b) < b && a == b * IntDiv(a, b) + IntRem(a, b)
  {
    QuotRem(a, b);
  }

  /** Java's `/` and `%` recover the quotient and remainder of any such split. */
  lemma DivRemUnique(a: int, b: int, q: int, r: int)
    requires b > 0 && q >= 0 && 0 <= r < b && a == b * q + r
    ensures IntDiv(a, b) == q && IntRem(a, b) == r
  {
    ProductNonNegative(b, q);
    QuotUnique(a, b, q, r);
  }

  /**
   * For a positive divisor and any dividend, Java's `/` and `%` are odd in the
   * dividend, split it exactly, and leave a remainder smaller than the divisor
   * in magnitude that takes the sign of the dividend.
   */
  lemma IntDivRemSigned(a: int, b: int)
    requires b > 0
    ensures IntDiv(a, b) == -IntDiv(-a, b) && IntRem(a, b) == -IntRem(-a, b)
    ensures a == b * IntDiv(a, b) + IntRem(a, b)
    ensures -b < IntRem(a, b) < b
    ensures a >= 0 ==> IntRem(a, b) >= 0
    ensures a <= 0 ==> IntRem(a, b) <= 0
  {
    QuotRem(if a >= 0 then a else -a, b);
    if a < 0 {
      assert b * (-Quot(-a, b)) == -(b * Quot(-a, b));
    }
  }

  /** Java's `/` by a positive divisor is the real quotient rounded toward zero. */
  lemma IntDivRoundsTowardZero(a: int, b: int)
    requires b > 0
    ensures IntDiv(a, b) == Trunc(a as real / b as real)
  {
    if a >= 0 {
      NonNegativeQuotient(a, b);
    } else {
      NonNegativeQuotient(-a, b);
      assert (-a) as real / b as real == -(a as real / b as real);
    }
  }

  /** For a non-negative dividend the quotient is the floor of the real quotient. */
  lemma NonNegativeQuotient(a: int, b: int)
    requires a >= 0 && b > 0
    ensures Quot(a, b) == Trunc(a as real / b as real)
  {
    QuotRem(a, b);
    var q, r := Quot(a, b), Rem(a, b);
    var x := a as real / b as real;
    DivisionByPositive(a as real, a as real, b as real);
    assert a as real == (b as real) * (q as real) + r as real;
    assert (x - q as real) * (b as real) == r as real;
    FractionBelowOne(x - q as real, r as real, b as real);
  }

  /** A number that `b` scales to a value in [0, b) lies in [0, 1). */
  lemma FractionBelowOne(t: real, r: real, b: real)
    requires b > 0.0 && 0.0 <= r < b && t * b == r
    ensures 0.0 <= t < 1.0
  {
    if t < 0.0 {
      ProductSign(-t, b);
    }
    if t >= 1.0 {
      ProductSign(t - 1.0, b);
    }
  }

  /**
   * Java's `x % w` on `double`, for a divisor of at least 1 (every divisor the
   * simulation uses is a frame extent, a whole number of pixels): `w` is taken away
   * from a positive `x`, or added to a negative one, as often as it fits, so the
   * result keeps the sign of `x` and is smaller than `w` in magnitude.
   * `FloatRemTruncates` shows it is the exact value of `x - w * (long) (x / w)`.
   */
  function FloatRem(x: real, w: real): real
    requires w >= 1.0
    decreases Abs(x).Floor
  {
    if x >= w then FloatRem(x - w, w)
    else if x <= -w then FloatRem(x + w, w)
    else x
  }

  /** A quotient by a positive divisor keeps the order of the dividends, and undoes multiplication. */
  lemma DivisionByPositive(a: real, b: real, c: real)
    requires c > 0.0
    ensures a < b <==> a / c < b / c
    ensures a <= b <==> a / c <= b / c
    ensures (a / c) * c == a
  {
    assert a / c * c == a;
    assert b / c * c == b;
    if a < b {
      assert (b / c - a / c) * c == b - a;
    }
    if a / c < b / c {
      assert (b / c - a / c) * c == b - a;
    }
    if a / c <= b / c {
      assert (b / c - a / c) * c == b - a;
    }
  }

  /** The sign of a product of a non-negative and a positive factor. */
  lemma ProductSign(a: real, b: real)
    requires a >= 0.0 && b > 0.0
    ensures a * b >= 0.0
    ensures a > 0.0 ==> a * b > 0.0
  {
  }

  /** Taking one `w` away from the dividend takes one away from the quotient. */
  lemma QuotientStep(x: real, w: real)
    requires w > 0.0
    ensures (x - w) / w == x / w - 1.0
  {
    var q := x / w;
    DivisionByPositive(x, x, w);
    DivisionByPositive(x - w, x - w, w);
    var d := (x - w) / w - (q - 1.0);
    assert d * w == 0.0;
    if d != 0.0 {
      ProductSign(if d >= 0.0 then d else -d, w);
    }
  }

  /** Truncation commutes with a whole step away from zero. */
  lemma TruncStep(q: real)
    ensures q >= 1.0 ==> Trunc(q - 1.0) == Trunc(q) - 1
    ensures q <= -1.0 ==> Trunc(q + 1.0) == Trunc(q) + 1
    ensures -1.0 < q < 1.0 ==> Trunc(q) == 0
  {
  }

  /** One extent less in the dividend and one less in the quotient leave the remainder `x - w * t` as it was. */
  lemma ShiftedQuotient(x: real, w: real, t: real, t': real)
    requires t' == t - 1.0
    ensures (x - w) - w * t' == x - w * t
  {
  }

  /** The remainder by repeated subtraction is the one Java defines through the truncated quotient. */
  lemma {:induction false} FloatRemTruncates(x: real, w: real)
    requires w >= 1.0
    ensures FloatRem(x, w) == x - w * (Trunc(x / w) as real)
    decreases Abs(x).Floor, 1
  {
    if x >= w {
      TruncatesAbove(x, w);
    } else if x <= -w {
      TruncatesBelow(x, w);
    } else {
      TruncatesWithin(x, w);
    }
  }

  /** The step of `FloatRemTruncates` for a dividend of at least `w`. */
  lemma {:induction false} TruncatesAbove(x: real, w: real)
    requires w >= 1.0 && x >= w
    ensures FloatRem(x, w) == x - w * (Trunc(x / w) as real)
    decreases Abs(x).Floor, 0
  {
    FloatRemTruncates(x - w, w);
    QuotientStep(x, w);
    DivisionByPositive(w, x, w);
    TruncStep(x / w);
    ShiftedQuotient(x, w, Trunc(x / w) as real, Trunc((x - w) / w) as real);
  }

  /** The step of `FloatRemTruncates` for a dividend of at most `-w`. */
  lemma {:induction false} TruncatesBelow(x: real, w: real)
    requires w >= 1.0 && x <= -w
    ensures FloatRem(x, w) == x - w * (Trunc(x / w) as real)
    decreases Abs(x).Floor, 0
  {
    FloatRemTruncates(x + w, w);
    QuotientStep(x + w, w);
    DivisionByPositive(x, -w, w);
    TruncStep(x / w);
    ShiftedQuotient(x + w, w, Trunc((x + w) / w) as real, Trunc(x / w) as real);
  }

  /** The base of `FloatRemTruncates`: a dividend strictly between `-w` and `w` is its own remainder. */
  lemma TruncatesWithin(x: real, w: real)
    requires w >= 1.0 && -w < x < w
    ensures FloatRem(x, w) == x - w * (Trunc(x / w) as real)
  {
    DivisionByPositive(-w, x, w);
    DivisionByPositive(x, w, w);
    QuotientStep(0.0, w);
    TruncStep(x / w);
    assert Trunc(x / w) == 0;
  }

  /** For w >= 1, the Java remainder of a non-negative x lies in [0, w). */
  lemma {:induction false} FloatRemNonNegative(x: real, w: real)
    requires w >= 1.0 && x >= 0.0
    ensures 0.0 <= FloatRem(x, w) < w
    decreases Abs(x).Floor
  {
    if x >= w {
      FloatRemNonNegative(x - w, w);
    }
  }

  /** For w >= 1, the Java remainder of a negative x lies in (-w, 0]. */
  lemma {:induction false} FloatRemNegative(x: real, w: real)
    requires w >= 1.0 && x < 0.0
    ensures -w < FloatRem(x, w) <= 0.0
    decreases Abs(x).Floor
  {
    if x <= -w && x + w < 0.0 {
      FloatRemNegative(x + w, w);
    }
  }

  /** Java's `x % w` differs from `x` by a whole number of `w`s. */
  lemma {:induction false} FloatRemShift(x: real, w: real) returns (k: int)
    requires w >= 1.0
    ensures FloatRem(x, w) == x + (k as real) * w
    decreases Abs(x).Floor
  {
    if x >= w {
      var k' := FloatRemShift(x - w, w);
      k := k' - 1;
      assert (k as real) * w == (k' as real) * w - w;
    } else if x <= -w {
      var k' := FloatRemShift(x + w, w);
      k := k' + 1;
      assert (k as real) * w == (k' as real) * w + w;
    } else {
      k := 0;
    }
  }
}
