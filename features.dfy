/** Feature extraction from one hand observation: the finger-up test,
    the inputs of the angle computation and the tick input built from them. */
module Features {
  import opened PyNum

  /** One normalised MediaPipe landmark (x, y in frame fractions, y grows downward). */
  datatype Landmark = Landmark(x: real, y: real, z: real)

  /** Landmark ids read by the controller. */
  const WRIST: nat := 0
  const INDEX_PIP: nat := 6
  const INDEX_TIP: nat := 8
  const MIDDLE_PIP: nat := 10
  const MIDDLE_TIP: nat := 12

  /** A finger is up when its tip is strictly higher in the image (smaller y)
      than its PIP joint. */
  predicate FingerIsUp(lm: seq<Landmark>, tip: nat, pip: nat)
    requires tip < |lm| && pip < |lm|
  {
    lm[tip].y < lm[pip].y
  }

  /** The two vectors base->a and base->b, in the image plane. */
  datatype Vectors = Vectors(aX: real, aY: real, bX: real, bY: real)

  function AngleVectors(lm: seq<Landmark>, a: nat, b: nat, base: nat): Vectors
    requires a < |lm| && b < |lm| && base < |lm|
  {
    Vectors(lm[a].x - lm[base].x, lm[a].y - lm[base].y,
            lm[b].x - lm[base].x, lm[b].y - lm[base].y)
  }

  /** The dot product of the two vectors. */
  function Dot(v: Vectors): real {
    v.aX * v.bX + v.aY * v.bY
  }

  /** The squared lengths |a|^2 * |b|^2. */
  function SquaredMagnitudeProduct(v: Vectors): real {
    (v.aX * v.aX + v.aY * v.aY) * (v.bX * v.bX + v.bY * v.bY)
  }

  /** One of the vectors is the zero vector, i.e. a fingertip coincides with
      the base landmark: the case the source reports as angle 0.0 instead of
      dividing by zero (AngleOf). */
  predicate Degenerate(v: Vectors) {
    (v.aX == 0.0 && v.aY == 0.0) || (v.bX == 0.0 && v.bY == 0.0)
  }

  /** Cauchy-Schwarz in the plane: dot^2 <= |a|^2 * |b|^2 (CosineNeedsNoClamp
      turns this into a bound on the cosine). */
  lemma CosineInRange(v: Vectors)
    ensures Dot(v) * Dot(v) <= SquaredMagnitudeProduct(v)
  {
    var cross := v.aX * v.bY - v.aY * v.bX;
    assert SquaredMagnitudeProduct(v) - Dot(v) * Dot(v) == cross * cross;
  }

  /** `max(min(c, 1.0), -1.0)`: the cosine forced into the domain of acos. */
  function ClampCosine(c: real): (r: real)
    ensures -1.0 <= r <= 1.0
    ensures -1.0 <= c <= 1.0 ==> r == c
    ensures c > 1.0 ==> r == 1.0
    ensures c < -1.0 ==> r == -1.0
  {
    var upper := if c < 1.0 then c else 1.0;
    if upper > -1.0 then upper else -1.0
  }

  /** The angle reported for a degenerate pair of vectors. */
  const DEGENERATE_ANGLE: real := 0.0

  /** Landmark tip lies on landmark base in the image plane (depth ignored). */
  predicate TipAtBase(lm: seq<Landmark>, tip: nat, base: nat)
    requires tip < |lm| && base < |lm|
  {
    lm[tip].x == lm[base].x && lm[tip].y == lm[base].y
  }

  /** The vectors of a landmark triple are degenerate exactly when one of the
      two fingertips lies on the base landmark. */
  lemma DegenerateIffTipAtBase(lm: seq<Landmark>, a: nat, b: nat, base: nat)
    requires a < |lm| && b < |lm| && base < |lm|
    ensures Degenerate(AngleVectors(lm, a, b, base)) <==> TipAtBase(lm, a, base) || TipAtBase(lm, b, base)
  {
  }

  /** `calc_angle_between_fingers`, with the transcendental library calls it
      makes passed in: `hypot` for `math.hypot` and `acosDegrees` for
      `math.degrees(math.acos(.))`. A fingertip on the base gives 0.0. */
  function CalcAngle(lm: seq<Landmark>, a: nat, b: nat, base: nat,
                     hypot: (real, real) -> real, acosDegrees: real -> real): (r: real)
    requires a < |lm| && b < |lm| && base < |lm|
    ensures LengthLike(hypot) && (TipAtBase(lm, a, base) || TipAtBase(lm, b, base)) ==>
      r == DEGENERATE_ANGLE
    ensures Euclidean(hypot) && !TipAtBase(lm, a, base) && !TipAtBase(lm, b, base) ==>
      var c := Cosine(AngleVectors(lm, a, b, base), hypot);
      -1.0 <= c <= 1.0 && r == acosDegrees(c)
  {
    DegenerateIffTipAtBase(lm, a, b, base);
    AngleOf(AngleVectors(lm, a, b, base), hypot, acosDegrees)
  }

  /** The real product p * q, as in `mag_a * mag_b`. Wrapping it in a function
      keeps nonlinear products out of the solver's automatic reasoning; the
      arithmetic lemmas below (ProductSign, ProductMonotone, ...) apply the
      facts about it by hand. */
  function Product(p: real, q: real): real {
    p * q
  }

  /** The product of the two vectors' lengths as `hypot` measures them. */
  function Magnitudes(v: Vectors, hypot: (real, real) -> real): real {
    Product(hypot(v.aX, v.aY), hypot(v.bX, v.bY))
  }

  /** `dot / (mag_a * mag_b)`, defined where the source divides. */
  function Cosine(v: Vectors, hypot: (real, real) -> real): real {
    if Magnitudes(v, hypot) == 0.0 then 0.0 else Dot(v) / Magnitudes(v, hypot)
  }

  /** The angle between the two vectors: 0.0 when their lengths multiply to
      0, otherwise acos of the clamped cosine. A degenerate pair is exactly
      the case whose product is 0; and when hypot is the Euclidean length the
      cosine already lies in [-1, 1], so the clamp never changes it. */
  function AngleOf(v: Vectors, hypot: (real, real) -> real, acosDegrees: real -> real): (r: real)
    ensures LengthLike(hypot) && Degenerate(v) ==> r == DEGENERATE_ANGLE
    ensures LengthLike(hypot) && !Degenerate(v) ==>
      Magnitudes(v, hypot) > 0.0 && r == acosDegrees(ClampCosine(Cosine(v, hypot)))
    ensures Euclidean(hypot) && !Degenerate(v) ==>
      -1.0 <= Cosine(v, hypot) <= 1.0 && r == acosDegrees(Cosine(v, hypot))
  {
    ProductSign(hypot(v.aX, v.aY), hypot(v.bX, v.bY));
    CosineNeedsNoClamp(v, hypot);
    if Magnitudes(v, hypot) == 0.0 then DEGENERATE_ANGLE
    else acosDegrees(ClampCosine(Cosine(v, hypot)))
  }

  /** hypot behaves like a length: non-negative, and zero only at the origin. */
  ghost predicate LengthLike(hypot: (real, real) -> real) {
    forall x, y :: hypot(x, y) >= 0.0 && (hypot(x, y) == 0.0 <==> x == 0.0 && y == 0.0)
  }

  /** hypot is the Euclidean length: `hypot(x, y)^2 == x^2 + y^2`. */
  ghost predicate Euclidean(hypot: (real, real) -> real) {
    forall x, y :: hypot(x, y) >= 0.0 && Product(hypot(x, y), hypot(x, y)) == Product(x, x) + Product(y, y)
  }

  lemma ProductSign(p: real, q: real)
    ensures p == 0.0 || q == 0.0 ==> Product(p, q) == 0.0
    ensures p > 0.0 && q > 0.0 ==> Product(p, q) > 0.0
  {
  }

  /** Multiplying by a positive factor preserves strict order. */
  lemma ProductMonotone(a: real, b: real, c: real)
    requires a > b && c > 0.0
    ensures Product(a, c) > Product(b, c)
  {
    assert Product(a, c) - Product(b, c) == Product(a - b, c);
    ProductSign(a - b, c);
  }

  /** A non-zero square is positive. */
  lemma SquarePositive(x: real)
    requires x != 0.0
    ensures Product(x, x) > 0.0
  {
    if x > 0.0 {
      ProductSign(x, x);
    } else {
      assert Product(x, x) == Product(-x, -x);
      ProductSign(-x, -x);
    }
  }

  /** x^2 + y^2 vanishes only at the origin. */
  lemma SumOfSquaresZero(x: real, y: real)
    ensures Product(x, x) + Product(y, y) == 0.0 <==> x == 0.0 && y == 0.0
  {
    if x != 0.0 { SquarePositive(x); }
    if y != 0.0 { SquarePositive(y); }
    ProductSign(x, x);
    ProductSign(y, y);
  }

  /** The Euclidean length is a length. */
  lemma EuclideanIsLengthLike(hypot: (real, real) -> real)
    requires Euclidean(hypot)
    ensures LengthLike(hypot)
  {
    forall x, y ensures hypot(x, y) >= 0.0 && (hypot(x, y) == 0.0 <==> x == 0.0 && y == 0.0) {
      SumOfSquaresZero(x, y);
      var m := hypot(x, y);
      if m != 0.0 { SquarePositive(m); }
    }
  }

  /** From d^2 <= p^2 and p > 0: -p <= d <= p. */
  lemma BoundFromSquares(d: real, p: real)
    requires p > 0.0 && Product(d, d) <= Product(p, p)
    ensures -p <= d <= p
  {
    if d > p {
      ProductMonotone(d, p, d);
      ProductMonotone(d, p, p);
    }
    if d < -p {
      assert Product(d, d) == Product(-d, -d);
      ProductMonotone(-d, p, -d);
      ProductMonotone(-d, p, p);
    }
  }

  /** Dividing by p maps [-p, p] into [-1, 1]. */
  lemma QuotientInUnit(d: real, p: real)
    requires p > 0.0 && -p <= d <= p
    ensures -1.0 <= d / p <= 1.0
  {
  }

  /** (p * q)^2 == p^2 * q^2. */
  lemma ProductSquare(p: real, q: real)
    ensures Product(Product(p, q), Product(p, q)) == Product(Product(p, p), Product(q, q))
  {
  }

  /** With the Euclidean length, the cosine the source clamps already lies in
      [-1, 1] (Cauchy-Schwarz), so the clamp only absorbs rounding. */
  lemma CosineNeedsNoClamp(v: Vectors, hypot: (real, real) -> real)
    ensures Euclidean(hypot) && !Degenerate(v) ==>
      Magnitudes(v, hypot) > 0.0 && -1.0 <= Cosine(v, hypot) <= 1.0
  {
    if Euclidean(hypot) && !Degenerate(v) {
      var magA := hypot(v.aX, v.aY);
      var magB := hypot(v.bX, v.bY);
      EuclideanIsLengthLike(hypot);
      assert magA > 0.0 && magB > 0.0;
      ProductSign(magA, magB);
      var p := Magnitudes(v, hypot);
      ProductSquare(magA, magB);
      assert Product(magA, magA) == Product(v.aX, v.aX) + Product(v.aY, v.aY);
      assert Product(magB, magB) == Product(v.bX, v.bX) + Product(v.bY, v.bY);
      assert Product(p, p) == SquaredMagnitudeProduct(v);
      CosineInRange(v);
      BoundFromSquares(Dot(v), p);
      QuotientInUnit(Dot(v), p);
      assert Cosine(v, hypot) == Dot(v) / p;
    }
  }

  /** The pixel of a landmark inside the frame, `int(f * extent)` with f in
      [0, 1], lies in [0, extent]. */
  lemma PixelWithinFrame(f: real, extent: nat)
    ensures 0.0 <= f <= 1.0 ==> 0 <= Trunc(f * extent as real) <= extent
  {
    if 0.0 <= f <= 1.0 {
      var e := extent as real;
      assert f * e <= 1.0 * e;
      assert 0.0 <= f * e;
    }
  }

  /** Per-frame features of the tracked hand that the tick consumes: both finger
      flags, the index/middle angle at the wrist and the index-tip pixel
      `int(lm[8].x * w)`, `int(lm[8].y * h)`. */
  datatype Hand = Hand(indexUp: bool, middleUp: bool, angle: real, tipX: int, tipY: int)

  function Extract(lm: seq<Landmark>, width: nat, height: nat,
                   hypot: (real, real) -> real, acosDegrees: real -> real): (h: Hand)
    requires MIDDLE_TIP < |lm|
    ensures h.indexUp <==> lm[INDEX_TIP].y < lm[INDEX_PIP].y
    ensures h.middleUp <==> lm[MIDDLE_TIP].y < lm[MIDDLE_PIP].y
    ensures LengthLike(hypot) && (TipAtBase(lm, INDEX_TIP, WRIST) || TipAtBase(lm, MIDDLE_TIP, WRIST)) ==>
      h.angle == DEGENERATE_ANGLE
    ensures 0.0 <= lm[INDEX_TIP].x <= 1.0 ==> 0 <= h.tipX <= width
    ensures 0.0 <= lm[INDEX_TIP].y <= 1.0 ==> 0 <= h.tipY <= height
  {
    var tipX := Trunc(lm[INDEX_TIP].x * width as real);
    var tipY := Trunc(lm[INDEX_TIP].y * height as real);
    PixelWithinFrame(lm[INDEX_TIP].x, width);
    PixelWithinFrame(lm[INDEX_TIP].y, height);
    Hand(FingerIsUp(lm, INDEX_TIP, INDEX_PIP), FingerIsUp(lm, MIDDLE_TIP, MIDDLE_PIP),
         CalcAngle(lm, INDEX_TIP, MIDDLE_TIP, WRIST, hypot, acosDegrees), tipX, tipY)
  }
}
