/** Vectors, viewports and the scalar/vector helpers of the canvas utilities.
    Coordinates are exact reals.  The square root of the browser's math library
    is passed around as a function `sqrt` that satisfies `IsSqrt`. */
module Geometry {

  datatype Option<T> = None | Some(value: T)

  /** A point or a displacement, in world or in screen space. */
  datatype Vector2 = Vec(x: real, y: real)

  /** `(x, y)` is the world point shown at the screen origin; `zoom` scales world to screen. */
  datatype Viewport = Viewport(x: real, y: real, zoom: real)

  /** A viewport update in which every field is optional. */
  datatype ViewportPatch = ViewportPatch(x: Option<real>, y: Option<real>, zoom: Option<real>)

  /** An axis-aligned rectangle given by its top-left corner and its extent. */
  datatype Rect = Rect(x: real, y: real, width: real, height: real)

  const Zero := Vec(0.0, 0.0)

  // ---------------------------------------------------------------------------
  // Squares.  Products are kept behind `Sq`, and every fact about a product is
  // stated on a product passed in as a parameter, which keeps the solver's
  // non-linear reasoning small.

  function Sq(r: real): real { r * r }

  lemma MulPos(a: real, b: real, p: real)
    requires p == a * b && 0.0 < a && 0.0 < b
    ensures 0.0 < p
  {
  }

  lemma MulNonNeg(a: real, b: real, p: real)
    requires p == a * b && 0.0 <= a && 0.0 <= b
    ensures 0.0 <= p
  {
  }

  /** The square of a product is the product of the squares. */
  lemma SqProduct(u: real, m: real, p: real)
    requires p == u * m
    ensures Sq(p) == Sq(u) * Sq(m)
  {
  }

  lemma SqPos(d: real)
    ensures 0.0 <= Sq(d)
    ensures d != 0.0 ==> 0.0 < Sq(d)
  {
    if 0.0 < d {
      MulPos(d, d, Sq(d));
    } else if d < 0.0 {
      MulPos(-d, -d, Sq(d));
    }
  }

  /** Squaring is strictly increasing on the non-negative reals. */
  lemma SqLess(a: real, b: real)
    requires 0.0 <= a < b
    ensures Sq(a) < Sq(b)
  {
    MulNonNeg(a, b - a, a * (b - a));
    MulPos(b, b - a, b * (b - a));
    assert Sq(b) - Sq(a) == a * (b - a) + b * (b - a);
  }

  /** A non-negative number is determined by its square. */
  lemma RootUnique(r: real, s: real)
    requires 0.0 <= r && 0.0 <= s && Sq(r) == Sq(s)
    ensures r == s
  {
    if r < s {
      SqLess(r, s);
    } else if s < r {
      SqLess(s, r);
    }
  }

  /** Comparing two non-negative numbers is the same as comparing their squares. */
  lemma CompareRoot(d: real, c: real)
    requires 0.0 <= d && 0.0 <= c
    ensures d < c <==> Sq(d) < Sq(c)
    ensures d <= c <==> Sq(d) <= Sq(c)
  {
    if d < c {
      SqLess(d, c);
    } else if c < d {
      SqLess(c, d);
    }
  }

  /** `sqrt` behaves as the non-negative square root on non-negative arguments. */
  ghost predicate IsSqrt(sqrt: real -> real)
  {
    forall v: real :: 0.0 <= v ==> 0.0 <= sqrt(v) && Sq(sqrt(v)) == v
  }

  function Min(a: real, b: real): real { if a <= b then a else b }
  function Max(a: real, b: real): real { if a >= b then a else b }

  // ---------------------------------------------------------------------------
  // Scalar helpers.

  /** `Math.min(Math.max(value, lo), hi)`. */
  function Clamp(value: real, lo: real, hi: real): (r: real)
    ensures lo <= hi ==> lo <= r <= hi
    ensures lo <= value <= hi ==> r == value
    ensures value < lo ==> r == Min(lo, hi)
    ensures hi < value ==> r == hi
  {
    Min(Max(value, lo), hi)
  }

  lemma ClampIdempotent(value: real, lo: real, hi: real)
    requires lo <= hi
    ensures Clamp(Clamp(value, lo, hi), lo, hi) == Clamp(value, lo, hi)
  {
  }

  /** Linear interpolation from `start` to `end` by `factor`. */
  function Lerp(start: real, end: real, factor: real): (r: real)
    ensures factor == 0.0 ==> r == start
    ensures factor == 1.0 ==> r == end
    ensures start <= end && 0.0 <= factor <= 1.0 ==> start <= r <= end
  {
    LerpBetween(start, end, factor);
    start + (end - start) * factor
  }

  lemma LerpBetween(start: real, end: real, factor: real)
    ensures start <= end && 0.0 <= factor <= 1.0 ==>
      0.0 <= (end - start) * factor <= end - start
  {
    if start <= end && 0.0 <= factor <= 1.0 {
      MulNonNeg(end - start, factor, (end - start) * factor);
      MulNonNeg(end - start, 1.0 - factor, (end - start) * (1.0 - factor));
    }
  }

  /** Componentwise linear interpolation between two vectors. */
  function LerpVector(start: Vector2, end: Vector2, factor: real): (r: Vector2)
    ensures r.x == Lerp(start.x, end.x, factor) && r.y == Lerp(start.y, end.y, factor)
    ensures factor == 0.0 ==> r == start
    ensures factor == 1.0 ==> r == end
  {
    Vec(Lerp(start.x, end.x, factor), Lerp(start.y, end.y, factor))
  }

  // ---------------------------------------------------------------------------
  // Distance.

  /** The square of the Euclidean distance between two points. */
  function DistSq(a: Vector2, b: Vector2): (r: real)
    ensures 0.0 <= r
    ensures a != b <==> 0.0 < r
  {
    SqPos(a.x - b.x);
    SqPos(a.y - b.y);
    Sq(a.x - b.x) + Sq(a.y - b.y)
  }

  lemma DistSqSymmetric(a: Vector2, b: Vector2)
    ensures DistSq(a, b) == DistSq(b, a)
  {
    assert Sq(a.x - b.x) == Sq(b.x - a.x);
    assert Sq(a.y - b.y) == Sq(b.y - a.y);
  }

  /** Euclidean distance between two points. */
  function Distance(a: Vector2, b: Vector2, sqrt: real -> real): (r: real)
    requires IsSqrt(sqrt)
    ensures 0.0 <= r && Sq(r) == DistSq(a, b)
    ensures r == 0.0 <==> a == b
  {
    var r := sqrt(DistSq(a, b));
    SqPos(r);
    r
  }

  lemma DistanceSymmetric(a: Vector2, b: Vector2, sqrt: real -> real)
    requires IsSqrt(sqrt)
    ensures Distance(a, b, sqrt) == Distance(b, a, sqrt)
  {
    DistSqSymmetric(a, b);
  }

  /** A distance guard `Distance(a, b) < c` (or `<= c`) is a guard on the squared distance. */
  lemma DistanceBelow(a: Vector2, b: Vector2, c: real, sqrt: real -> real)
    requires IsSqrt(sqrt) && 0.0 <= c
    ensures Distance(a, b, sqrt) < c <==> DistSq(a, b) < Sq(c)
    ensures Distance(a, b, sqrt) <= c <==> DistSq(a, b) <= Sq(c)
  {
    CompareRoot(Distance(a, b, sqrt), c);
  }

  // ---------------------------------------------------------------------------
  // Rectangles.

  /** Inclusive on all four edges. */
  predicate PointInRect(p: Vector2, rect: Rect)
  {
    p.x >= rect.x && p.x <= rect.x + rect.width && p.y >= rect.y && p.y <= rect.y + rect.height
  }

  lemma PointInRectCorners(rect: Rect)
    requires 0.0 <= rect.width && 0.0 <= rect.height
    ensures PointInRect(Vec(rect.x, rect.y), rect)
    ensures PointInRect(Vec(rect.x + rect.width, rect.y + rect.height), rect)
    ensures PointInRect(Vec(rect.x + rect.width, rect.y), rect)
    ensures PointInRect(Vec(rect.x, rect.y + rect.height), rect)
  {
  }

  /** The closed box spanned by two opposite corners given in either order. */
  predicate InBox(p: Vector2, a: Vector2, b: Vector2)
  {
    Min(a.x, b.x) <= p.x <= Max(a.x, b.x) && Min(a.y, b.y) <= p.y <= Max(a.y, b.y)
  }

  lemma InBoxSwap(p: Vector2, a: Vector2, b: Vector2)
    ensures InBox(p, a, b) <==> InBox(p, b, a)
  {
  }

  lemma InBoxCorners(a: Vector2, b: Vector2)
    ensures InBox(a, a, b) && InBox(b, a, b)
  {
  }

  // ---------------------------------------------------------------------------
  // Vectors.

  function Add(a: Vector2, b: Vector2): Vector2 { Vec(a.x + b.x, a.y + b.y) }
  function Sub(a: Vector2, b: Vector2): Vector2 { Vec(a.x - b.x, a.y - b.y) }
  function Scale(v: Vector2, s: real): Vector2 { Vec(v.x * s, v.y * s) }

  lemma SubAddCancel(a: Vector2, b: Vector2)
    ensures Sub(Add(a, b), b) == a
  {
  }

  lemma ScaleOne(v: Vector2)
    ensures Scale(v, 1.0) == v
  {
  }

  /** The squared length of a vector. */
  function NormSq(v: Vector2): (r: real)
    ensures r == DistSq(v, Zero)
  {
    Sq(v.x) + Sq(v.y)
  }

  /** Scaling a vector by `s` scales its squared length by `Sq(s)`. */
  lemma NormSqScale(v: Vector2, s: real)
    ensures NormSq(Scale(v, s)) == Sq(s) * NormSq(v)
  {
    SqProduct(v.x, s, v.x * s);
    SqProduct(v.y, s, v.y * s);
  }

  /** The length (magnitude) of a vector. */
  function Length(v: Vector2, sqrt: real -> real): (r: real)
    requires IsSqrt(sqrt)
    ensures 0.0 <= r && Sq(r) == NormSq(v)
    ensures r == 0.0 <==> v == Zero
  {
    var r := sqrt(NormSq(v));
    SqPos(r);
    r
  }

  /** Unit vector in the direction of `v`; the zero vector is returned as is, with no division. */
  function Normalize(v: Vector2, sqrt: real -> real): (r: Vector2)
    requires IsSqrt(sqrt)
    ensures v == Zero ==> r == Zero
    ensures v != Zero ==> NormSq(r) == 1.0
    ensures v != Zero ==> Scale(r, Length(v, sqrt)) == v
  {
    var m := Length(v, sqrt);
    if m == 0.0 then Zero
    else
      UnitScaled(v, m);
      Vec(v.x / m, v.y / m)
  }

  lemma DivMul(a: real, m: real)
    requires m != 0.0
    ensures (a / m) * m == a
  {
  }

  lemma Cancel(k: real, c: real, p: real)
    requires p == k * c && p == c && 0.0 < c
    ensures k == 1.0
  {
  }

  lemma UnitScaled(v: Vector2, m: real)
    requires 0.0 < m && Sq(m) == Sq(v.x) + Sq(v.y)
    ensures NormSq(Vec(v.x / m, v.y / m)) == 1.0
    ensures Scale(Vec(v.x / m, v.y / m), m) == v
  {
    var u := Vec(v.x / m, v.y / m);
    DivMul(v.x, m);
    DivMul(v.y, m);
    assert Scale(u, m) == v;
    NormSqScale(u, m);
    SqPos(m);
    Cancel(NormSq(u), Sq(m), Sq(m) * NormSq(u));
  }

  // ---------------------------------------------------------------------------
  // Viewport maps.

  /** World to screen: `(p - origin) * zoom`. */
  function WorldToScreen(v: Viewport, p: Vector2): (r: Vector2)
    ensures v.zoom == 1.0 ==> r == Sub(p, Vec(v.x, v.y))
    ensures r == Scale(Sub(p, Vec(v.x, v.y)), v.zoom)
  {
    Vec((p.x - v.x) * v.zoom, (p.y - v.y) * v.zoom)
  }

  /** Screen to world: `p / zoom + origin`.  JS would yield non-finite values at zoom 0. */
  function ScreenToWorld(v: Viewport, p: Vector2): (r: Vector2)
    requires v.zoom != 0.0
    ensures v.zoom == 1.0 ==> r == Add(p, Vec(v.x, v.y))
  {
    Vec(p.x / v.zoom + v.x, p.y / v.zoom + v.y)
  }

  lemma ScreenWorldRoundTrip(v: Viewport, p: Vector2)
    requires v.zoom != 0.0
    ensures ScreenToWorld(v, WorldToScreen(v, p)) == p
    ensures WorldToScreen(v, ScreenToWorld(v, p)) == p
  {
  }

  /** Fields present in `patch` replace those of `v`; the others are kept. */
  function MergeViewport(v: Viewport, patch: ViewportPatch): (r: Viewport)
    ensures patch.x.None? ==> r.x == v.x
    ensures patch.y.None? ==> r.y == v.y
    ensures patch.zoom.None? ==> r.zoom == v.zoom
    ensures patch.x.Some? ==> r.x == patch.x.value
    ensures patch.y.Some? ==> r.y == patch.y.value
    ensures patch.zoom.Some? ==> r.zoom == patch.zoom.value
  {
    Viewport(
      if patch.x.Some? then patch.x.value else v.x,
      if patch.y.Some? then patch.y.value else v.y,
      if patch.zoom.Some? then patch.zoom.value else v.zoom)
  }
}
