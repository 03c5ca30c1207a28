/** Mapping the index-tip pixel to screen coordinates through the active region,
    and the exponential smoothing of the cursor. */
module Motion {
  import opened Config
  import opened PyNum

  /** The active region in frame pixels, bounds inclusive. */
  datatype Region = Region(xMin: int, xMax: int, yMin: int, yMax: int) {
    /** Both extents are positive, so normalising inside the region never
        divides by zero. */
    predicate WellFormed() {
      xMin < xMax && yMin < yMax
    }

    /** The chained comparisons `x_min <= x <= x_max and y_min <= y <= y_max`. */
    predicate Contains(px: int, py: int) {
      xMin <= px <= xMax && yMin <= py <= yMax
    }
  }

  /** The region's pixel bounds for a frame of the given size:
      `int(MOVE_REGION[i] * w)` and `int(MOVE_REGION[i] * h)`. */
  function RegionOf(width: nat, height: nat): (r: Region)
    ensures 0 <= r.xMin <= r.xMax <= width && 0 <= r.yMin <= r.yMax <= height
  {
    Region(Trunc(REGION_X_MIN * width as real), Trunc(REGION_X_MAX * width as real),
           Trunc(REGION_Y_MIN * height as real), Trunc(REGION_Y_MAX * height as real))
  }

  /** int(0.2 * n) < int(0.8 * n) exactly when the side has at least two pixels. */
  lemma RegionSideNonEmpty(n: nat)
    ensures Trunc(REGION_X_MIN * n as real) < Trunc(REGION_X_MAX * n as real) <==> n >= 2
  {
  }

  /** The region is usable exactly when the frame is at least 2 x 2 pixels;
      for a smaller frame the source would divide by zero at the region's edge. */
  lemma RegionWellFormedIff(width: nat, height: nat)
    ensures RegionOf(width, height).WellFormed() <==> width >= 2 && height >= 2
  {
  }

  /** The configured camera resolution gives the region [128, 512] x [96, 384]. */
  lemma RegionOfCameraResolution()
    ensures RegionOf(CAM_WIDTH, CAM_HEIGHT) == Region(128, 512, 96, 384)
  {
  }

  /** Position of p within [lo, hi] as a fraction: `(p - lo) / (hi - lo)`. */
  function Normalize(p: int, lo: int, hi: int): (n: real)
    requires lo < hi && lo <= p <= hi
    ensures 0.0 <= n <= 1.0
    ensures n == 0.0 <==> p == lo
    ensures n == 1.0 <==> p == hi
  {
    var num := (p - lo) as real;
    var den := (hi - lo) as real;
    FractionInUnit(num, den);
    num / den
  }

  lemma FractionInUnit(num: real, den: real)
    requires 0.0 <= num <= den && den > 0.0
    ensures 0.0 <= num / den <= 1.0
    ensures num / den == 0.0 <==> num == 0.0
    ensures num / den == 1.0 <==> num == den
  {
  }

  /** Normalisation preserves order: a pixel further right (or down) never maps
      further left (or up). */
  lemma NormalizeMonotone(p: int, q: int, lo: int, hi: int)
    requires lo < hi && lo <= p <= q <= hi
    ensures Normalize(p, lo, hi) <= Normalize(q, lo, hi)
  {
  }

  /** A point on the screen, in (fractional) screen pixels. */
  datatype Point = Point(x: real, y: real)

  /** The cursor target for a tip pixel inside the region: the normalised position
      scaled to the screen size. */
  function MapToScreen(r: Region, px: int, py: int, screenW: nat, screenH: nat): (t: Point)
    requires r.WellFormed() && r.Contains(px, py)
    ensures 0.0 <= t.x <= screenW as real && 0.0 <= t.y <= screenH as real
    ensures px == r.xMin ==> t.x == 0.0
    ensures px == r.xMax ==> t.x == screenW as real
    ensures py == r.yMin ==> t.y == 0.0
    ensures py == r.yMax ==> t.y == screenH as real
  {
    var nx := Normalize(px, r.xMin, r.xMax);
    var ny := Normalize(py, r.yMin, r.yMax);
    ScaleFraction(nx, screenW as real);
    ScaleFraction(ny, screenH as real);
    Point(screenW as real * nx, screenH as real * ny)
  }

  lemma ScaleFraction(f: real, extent: real)
    requires 0.0 <= f <= 1.0 && extent >= 0.0
    ensures 0.0 <= extent * f <= extent
  {
  }

  /** With the configured 640 x 480 camera, the frame centre (320, 240) maps to the
      centre of the screen. */
  lemma FrameCentreMapsToScreenCentre(screenW: nat, screenH: nat)
    ensures RegionOf(CAM_WIDTH, CAM_HEIGHT).WellFormed()
    ensures RegionOf(CAM_WIDTH, CAM_HEIGHT).Contains(320, 240)
    ensures MapToScreen(RegionOf(CAM_WIDTH, CAM_HEIGHT), 320, 240, screenW, screenH)
         == Point(screenW as real / 2.0, screenH as real / 2.0)
  {
    RegionOfCameraResolution();
    assert Normalize(320, 128, 512) == 0.5;
    assert Normalize(240, 96, 384) == 0.5;
  }

  /** One smoothing step `s + (target - s) / SMOOTHING`. */
  function Smooth(s: real, target: real): (r: real)
    ensures s <= target ==> s <= r <= target
    ensures target <= s ==> target <= r <= s
    ensures Abs(r - target) == Abs(s - target) * DECAY
  {
    s + (target - s) / SMOOTHING
  }

  function Abs(x: real): real {
    if x < 0.0 then -x else x
  }

  /** The retained fraction of the distance to the target per step, 6/7. */
  const DECAY: real := (SMOOTHING - 1.0) / SMOOTHING

  function Pow(b: real, n: nat): real {
    if n == 0 then 1.0 else b * Pow(b, n - 1)
  }

  /** n smoothing steps toward a fixed target. */
  function SmoothSteps(s: real, target: real, n: nat): real
    decreases n
  {
    if n == 0 then s else SmoothSteps(Smooth(s, target), target, n - 1)
  }

  /** Exponential decay law: after n steps toward a fixed target the distance
      is the initial distance times (6/7)^n. */
  lemma {:induction false} DecayLaw(s: real, target: real, n: nat)
    ensures Abs(SmoothSteps(s, target, n) - target) == Abs(s - target) * Pow(DECAY, n)
    decreases n
  {
    if n > 0 {
      var s1 := Smooth(s, target);
      DecayLaw(s1, target, n - 1);
      assert Abs(s1 - target) == Abs(s - target) * DECAY;
    }
  }

  /** Repeated smoothing never overshoots: every intermediate value stays between
      the start and the target. */
  lemma {:induction false} SmoothStepsBetween(s: real, target: real, n: nat)
    ensures s <= target ==> s <= SmoothSteps(s, target, n) <= target
    ensures target <= s ==> target <= SmoothSteps(s, target, n) <= s
    decreases n
  {
    if n > 0 {
      SmoothStepsBetween(Smooth(s, target), target, n - 1);
    }
  }
}
