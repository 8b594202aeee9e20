/**
 * The pure helpers of the image utilities: the clamped point-to-segment distance,
 * the per-pixel alpha and class-colour rules, and the strict in-bounds point filter.
 */
module Utils {
  import opened Geometry
  import Transforms

  function Clamp01(v: real): (t: real)
    ensures 0.0 <= t <= 1.0
    ensures 0.0 <= v <= 1.0 ==> t == v
  {
    if v < 0.0 then 0.0 else if v > 1.0 then 1.0 else v
  }

  function ProjectionParameter(a: Point, b: Point, p: Point): (t: real)
    ensures 0.0 <= t <= 1.0
  {
    var l2 := SqNorm(Sub(b, a));
    if l2 == 0.0 then 0.0 else Clamp01(Dot(Sub(p, a), Sub(b, a)) / l2)
  }

  function Projection(a: Point, b: Point, p: Point): (q: Point)
  {
    Add(a, Scale(ProjectionParameter(a, b, p), Sub(b, a)))
  }

  function SegmentSqDistance(a: Point, b: Point, p: Point): (r: real)
  {
    var l2 := SqNorm(Sub(b, a));
    if l2 == 0.0 then SqDist(p, a) else SqDist(p, Projection(a, b, p))
  }

  lemma ExpandSqNorm(w: Point, d: Point, t: real)
    ensures SqNorm(Sub(w, Scale(t, d))) == SqNorm(w) - 2.0 * t * Dot(w, d) + t * t * SqNorm(d)
  {
  }

  lemma ProjectionOffset(a: Point, b: Point, p: Point, t: real)
    ensures Sub(p, Add(a, Scale(t, Sub(b, a)))) == Sub(Sub(p, a), Scale(t, Sub(b, a)))
  {
  }

  lemma SegmentSqDistanceBounds(a: Point, b: Point, p: Point)
    ensures 0.0 <= SegmentSqDistance(a, b, p)
    ensures SegmentSqDistance(a, b, p) <= SqDist(p, a)
    ensures SegmentSqDistance(a, b, p) <= SqDist(p, b)
  {
    if SqNorm(Sub(b, a)) == 0.0 {
      DegenerateBounds(a, b, p);
    } else {
      ProperBounds(a, b, p);
    }
  }

  lemma DegenerateBounds(a: Point, b: Point, p: Point)
    requires SqNorm(Sub(b, a)) == 0.0
    ensures SegmentSqDistance(a, b, p) == SqDist(p, a) == SqDist(p, b) >= 0.0
  {
    SqDistZero(b, a);
    SameEnds(a, b, p);
  }

  lemma SameEnds(a: Point, b: Point, p: Point)
    requires a == b
    ensures SegmentSqDistance(a, b, p) == SqDist(p, a) == SqDist(p, b) >= 0.0
  {
    SqDistSymmetric(p, a);
  }

  lemma ProperBounds(a: Point, b: Point, p: Point)
    requires SqNorm(Sub(b, a)) != 0.0
    ensures 0.0 <= SegmentSqDistance(a, b, p)
    ensures SegmentSqDistance(a, b, p) <= SqDist(p, a)
    ensures SegmentSqDistance(a, b, p) <= SqDist(p, b)
  {
    var d, w := Sub(b, a), Sub(p, a);
    SqNormNonNegative(d);
    SqDistSymmetric(p, Projection(a, b, p));
    SqDistToProjection(a, b, p);
    SqDistToEnd(a, b, p);
    var t := ProjectionParameter(a, b, p);
    CombineBounds(SqDist(p, a), Dot(w, d), SqNorm(d), t, Dot(w, d) / SqNorm(d),
      SqDist(p, Projection(a, b, p)), SqDist(p, b));
  }

  lemma SqDistToProjection(a: Point, b: Point, p: Point)
    ensures SqDist(p, Projection(a, b, p)) ==
      SqDist(p, a) - 2.0 * ProjectionParameter(a, b, p) * Dot(Sub(p, a), Sub(b, a))
      + ProjectionParameter(a, b, p) * ProjectionParameter(a, b, p) * SqNorm(Sub(b, a))
  {
    var t := ProjectionParameter(a, b, p);
    ProjectionOffset(a, b, p, t);
    ExpandSqNorm(Sub(p, a), Sub(b, a), t);
  }

  lemma SqDistToEnd(a: Point, b: Point, p: Point)
    ensures SqDist(p, b) == SqDist(p, a) - 2.0 * Dot(Sub(p, a), Sub(b, a)) + SqNorm(Sub(b, a))
  {
    ExpandSqNorm(Sub(p, a), Sub(b, a), 1.0);
    assert Sub(Sub(p, a), Scale(1.0, Sub(b, a))) == Sub(p, b);
  }

  lemma CombineBounds(ww: real, wd: real, l2: real, t: real, u: real, rp: real, rb: real)
    requires l2 > 0.0 && t == Clamp01(u) && u == wd / l2
    requires rp == ww - 2.0 * t * wd + t * t * l2
    requires rb == ww - 2.0 * wd + l2
    ensures rp <= ww && rp <= rb
  {
    ClampBounds(u, t, l2, wd);
  }

  /** With `t` the clamp of `u` to [0, 1]: `t*t - 2*t*u <= 0` and `t*t - 2*t*u <= 1 - 2*u`, scaled by `l2 > 0`. */
  lemma ClampBounds(u: real, t: real, l2: real, wd: real)
    requires l2 > 0.0 && t == Clamp01(u) && u == wd / l2
    ensures t * t * l2 - 2.0 * t * wd <= 0.0
    ensures t * t * l2 - 2.0 * t * wd <= l2 - 2.0 * wd
  {
    assert wd == u * l2;
    if u < 0.0 {
      assert t == 0.0;
      PosProduct(-u, l2);
    } else if u > 1.0 {
      assert t == 1.0;
      PosProduct(u - 1.0, l2);
    } else {
      assert t == u;
      SquareNonNegative(u);
      SquareNonNegative(1.0 - u);
      PosProductNonStrict(u * u, l2);
      PosProductNonStrict((1.0 - u) * (1.0 - u), l2);
    }
  }

  lemma PosProductNonStrict(a: real, b: real)
    requires a >= 0.0 && b > 0.0
    ensures a * b >= 0.0
  {
    if a > 0.0 { PosProduct(a, b); }
  }

  /** A point of the segment, `a + s * (b - a)` with `s` in [0, 1], is at distance zero. */
  lemma PointOnSegment(a: Point, b: Point, s: real)
    requires 0.0 <= s <= 1.0
    ensures SegmentSqDistance(a, b, Add(a, Scale(s, Sub(b, a)))) == 0.0
  {
    if SqNorm(Sub(b, a)) == 0.0 {
      SqDistZero(b, a);
      PointOnDegenerateSegment(a, s);
    } else {
      PointOnProperSegment(a, b, s);
    }
  }

  lemma PointOnDegenerateSegment(a: Point, s: real)
    ensures SegmentSqDistance(a, a, Add(a, Scale(s, Sub(a, a)))) == 0.0
  {
    assert Add(a, Scale(s, Sub(a, a))) == a;
  }

  lemma PointOnProperSegment(a: Point, b: Point, s: real)
    requires 0.0 <= s <= 1.0
    requires SqNorm(Sub(b, a)) != 0.0
    ensures SegmentSqDistance(a, b, Add(a, Scale(s, Sub(b, a)))) == 0.0
  {
    var d := Sub(b, a);
    var p := Add(a, Scale(s, d));
    assert Sub(p, a) == Scale(s, d);
    DotScale(s, d);
    DivCancel(s, SqNorm(d));
    assert ProjectionParameter(a, b, p) == s;
    assert Projection(a, b, p) == p;
  }

  lemma DotScale(s: real, d: Point)
    ensures Dot(Scale(s, d), d) == s * SqNorm(d)
  {
  }

  lemma DivCancel(s: real, l: real)
    requires l != 0.0
    ensures (s * l) / l == s
  {
  }

  predicate Between(v: real, e0: real, e1: real) {
    (e0 <= e1 ==> e0 <= v <= e1) && (e1 <= e0 ==> e1 <= v <= e0)
  }

  /** The projection is the point of `[a, b]` at the clamped parameter: each coordinate lies between the end points'. */
  lemma ProjectionOnSegment(a: Point, b: Point, p: Point)
    ensures Projection(a, b, p).x == Transforms.Lerp(a.x, b.x, ProjectionParameter(a, b, p))
    ensures Projection(a, b, p).y == Transforms.Lerp(a.y, b.y, ProjectionParameter(a, b, p))
    ensures Between(Projection(a, b, p).x, a.x, b.x) && Between(Projection(a, b, p).y, a.y, b.y)
  {
    var t := ProjectionParameter(a, b, p);
    LerpForm(a.x, b.x, t);
    LerpForm(a.y, b.y, t);
    Transforms.LerpBetween(a.x, b.x, t);
    Transforms.LerpBetween(a.y, b.y, t);
  }

  lemma LerpForm(v0: real, v1: real, t: real)
    ensures v0 + t * (v1 - v0) == Transforms.Lerp(v0, v1, t)
  {
  }

  // Alpha channel

  predicate IsBlack(image: array3<int>, i: nat, j: nat)
    requires i < image.Length0 && j < image.Length1 && image.Length2 == 3
    reads image
  {
    image[i, j, 0] == 0 && image[i, j, 1] == 0 && image[i, j, 2] == 0
  }

  /**
   * `add_alpha_to_segmentations`: an `H x W x 4` image whose first three channels are the input's
   * and whose alpha is 0 exactly at the black pixels and 255 everywhere else.
   */
  method AddAlphaToSegmentations(image: array3<int>) returns (withAlpha: array3<int>)
    requires image.Length2 == 3
    ensures withAlpha.Length0 == image.Length0 && withAlpha.Length1 == image.Length1 && withAlpha.Length2 == 4
    ensures forall i, j, c :: 0 <= i < image.Length0 && 0 <= j < image.Length1 && 0 <= c < 3 ==>
      withAlpha[i, j, c] == image[i, j, c]
    ensures forall i, j :: 0 <= i < image.Length0 && 0 <= j < image.Length1 ==>
      withAlpha[i, j, 3] == if IsBlack(image, i, j) then 0 else 255
  {
    var h, w := image.Length0, image.Length1;
    var alpha := new int[h, w]((_, _) => 255);
    var i := 0;
    while i < h
      invariant 0 <= i <= h
      invariant forall i', j' :: 0 <= i' < h && 0 <= j' < w ==>
        alpha[i', j'] == if i' < i && IsBlack(image, i', j') then 0 else 255
    {
      var j := 0;
      while j < w
        invariant 0 <= j <= w
        invariant forall i', j' :: 0 <= i' < h && 0 <= j' < w ==>
          alpha[i', j'] == if (i' < i || (i' == i && j' < j)) && IsBlack(image, i', j') then 0 else 255
      {
        if IsBlack(image, i, j) {
          alpha[i, j] := 0;
        }
        j := j + 1;
      }
      i := i + 1;
    }
    withAlpha := Stack(image, alpha);
  }

  /** `np.dstack((image, alpha))`: the three colour channels followed by the alpha plane. */
  method Stack(image: array3<int>, alpha: array2<int>) returns (stacked: array3<int>)
    requires image.Length2 == 3 && alpha.Length0 == image.Length0 && alpha.Length1 == image.Length1
    ensures stacked.Length0 == image.Length0 && stacked.Length1 == image.Length1 && stacked.Length2 == 4
    ensures forall i, j, c :: 0 <= i < image.Length0 && 0 <= j < image.Length1 && 0 <= c < 3 ==>
      stacked[i, j, c] == image[i, j, c]
    ensures forall i, j :: 0 <= i < image.Length0 && 0 <= j < image.Length1 ==> stacked[i, j, 3] == alpha[i, j]
  {
    var h, w := image.Length0, image.Length1;
    stacked := new int[h, w, 4];
    var i := 0;
    while i < h
      invariant 0 <= i <= h
      invariant forall i', j', c :: 0 <= i' < i && 0 <= j' < w && 0 <= c < 3 ==> stacked[i', j', c] == image[i', j', c]
      invariant forall i', j' :: 0 <= i' < i && 0 <= j' < w ==> stacked[i', j', 3] == alpha[i', j']
    {
      var j := 0;
      while j < w
        invariant 0 <= j <= w
        invariant forall i', j', c :: 0 <= i' < i && 0 <= j' < w && 0 <= c < 3 ==> stacked[i', j', c] == image[i', j', c]
        invariant forall i', j' :: 0 <= i' < i && 0 <= j' < w ==> stacked[i', j', 3] == alpha[i', j']
        invariant forall j', c :: 0 <= j' < j && 0 <= c < 3 ==> stacked[i, j', c] == image[i, j', c]
        invariant forall j' :: 0 <= j' < j ==> stacked[i, j', 3] == alpha[i, j']
      {
        stacked[i, j, 0] := image[i, j, 0];
        stacked[i, j, 1] := image[i, j, 1];
        stacked[i, j, 2] := image[i, j, 2];
        stacked[i, j, 3] := alpha[i, j];
        j := j + 1;
      }
      i := i + 1;
    }
  }

  // Class colours

  datatype Rgb = Rgb(r: int, g: int, b: int) {
    function Channel(c: nat): (v: int)
      requires c < 3
    {
      if c == 0 then r else if c == 1 then g else b
    }
  }

  /** The colour a pixel of class `k` ends up with once the classes `0 .. n-1` have been painted. */
  function PaintedSoFar(k: int, colors: seq<Rgb>, n: nat, c: nat): (v: int)
    requires n <= |colors| && c < 3
  {
    if 0 <= k < n then colors[k].Channel(c) else 0
  }

  /**
   * `class_to_color_np` on an `H x W` class map: an `H x W x 3` image in which a pixel of class
   * `k` with `0 <= k < |colors|` has colour `colors[k]` and every other pixel stays black.
   */
  method ClassToColor(prediction: array2<int>, colors: seq<Rgb>) returns (image: array3<int>)
    ensures image.Length0 == prediction.Length0 && image.Length1 == prediction.Length1 && image.Length2 == 3
    ensures forall i, j, c :: 0 <= i < prediction.Length0 && 0 <= j < prediction.Length1 && 0 <= c < 3 ==>
      image[i, j, c] == if 0 <= prediction[i, j] < |colors| then colors[prediction[i, j]].Channel(c) else 0
  {
    image := new int[prediction.Length0, prediction.Length1, 3]((_, _, _) => 0);
    var k := 0;
    while k < |colors|
      invariant 0 <= k <= |colors|
      invariant image.Length0 == prediction.Length0 && image.Length1 == prediction.Length1 && image.Length2 == 3
      invariant forall i, j, c :: 0 <= i < prediction.Length0 && 0 <= j < prediction.Length1 && 0 <= c < 3 ==>
        image[i, j, c] == PaintedSoFar(prediction[i, j], colors, k, c)
    {
      AddSegment(image, prediction, colors, k);
      k := k + 1;
    }
  }

  /** `output += (prediction == k) * colors[k]`: paints class `k` onto the accumulated image. */
  method AddSegment(image: array3<int>, prediction: array2<int>, colors: seq<Rgb>, k: nat)
    requires k < |colors|
    requires image.Length0 == prediction.Length0 && image.Length1 == prediction.Length1 && image.Length2 == 3
    requires forall i, j, c :: 0 <= i < prediction.Length0 && 0 <= j < prediction.Length1 && 0 <= c < 3 ==>
      image[i, j, c] == PaintedSoFar(prediction[i, j], colors, k, c)
    modifies image
    ensures forall i, j, c :: 0 <= i < prediction.Length0 && 0 <= j < prediction.Length1 && 0 <= c < 3 ==>
      image[i, j, c] == PaintedSoFar(prediction[i, j], colors, k + 1, c)
  {
    var h, w := prediction.Length0, prediction.Length1;
    var i := 0;
    while i < h
      invariant 0 <= i <= h
      invariant forall i', j', c :: 0 <= i' < h && 0 <= j' < w && 0 <= c < 3 ==>
        image[i', j', c] == PaintedSoFar(prediction[i', j'], colors, if i' < i then k + 1 else k, c)
    {
      var j := 0;
      while j < w
        invariant 0 <= j <= w
        invariant forall i', j', c :: 0 <= i' < h && 0 <= j' < w && 0 <= c < 3 ==>
          image[i', j', c] == PaintedSoFar(prediction[i', j'], colors,
            if i' < i || (i' == i && j' < j) then k + 1 else k, c)
      {
        if prediction[i, j] == k {
          image[i, j, 0] := image[i, j, 0] + colors[k].r;
          image[i, j, 1] := image[i, j, 1] + colors[k].g;
          image[i, j, 2] := image[i, j, 2] + colors[k].b;
        }
        j := j + 1;
      }
      i := i + 1;
    }
  }

  // In-bounds filter of `draw_per_batch`

  /** `astype(np.int32)` on a finite value: truncation toward zero. */
  function Truncate(v: real): (n: int)
    ensures 0.0 <= v ==> n as real <= v < n as real + 1.0
    ensures v < 0.0 ==> n as real - 1.0 < v <= n as real
  {
    if v >= 0.0 then v.Floor else -((-v).Floor)
  }

  /** A pixel position `(x, y)` strictly inside an image of `height` rows and `width` columns. */
  predicate StrictlyInside(q: (int, int), height: int, width: int) {
    0 < q.1 < height && 0 < q.0 < width
  }

  function TruncatePoint(p: (real, real)): (q: (int, int)) {
    (Truncate(p.0), Truncate(p.1))
  }

  /** The points `draw_per_batch` keeps, truncated, in their original order. */
  function InBoundsPoints(points: seq<(real, real)>, height: int, width: int): (kept: seq<(int, int)>)
    ensures |kept| <= |points|
    ensures forall q :: q in kept ==> StrictlyInside(q, height, width)
  {
    if points == [] then []
    else
      var rest := InBoundsPoints(points[..|points| - 1], height, width);
      var q := TruncatePoint(points[|points| - 1]);
      if StrictlyInside(q, height, width) then rest + [q] else rest
  }

  /** Filtering distributes over concatenation, so the kept points keep their relative order. */
  lemma {:induction false} InBoundsPointsAppend(s: seq<(real, real)>, t: seq<(real, real)>, height: int, width: int)
    ensures InBoundsPoints(s + t, height, width) == InBoundsPoints(s, height, width) + InBoundsPoints(t, height, width)
    decreases |t|
  {
    if t == [] {
      assert s + t == s;
    } else {
      var t' := t[..|t| - 1];
      assert (s + t)[..|s + t| - 1] == s + t';
      InBoundsPointsAppend(s, t', height, width);
    }
  }

  /** A position is kept exactly when it is strictly inside and some input point truncates to it. */
  lemma {:induction false} InBoundsPointsMembership(points: seq<(real, real)>, height: int, width: int, q: (int, int))
    ensures q in InBoundsPoints(points, height, width) <==>
      StrictlyInside(q, height, width) && exists i :: 0 <= i < |points| && TruncatePoint(points[i]) == q
  {
    if points != [] {
      var init := points[..|points| - 1];
      InBoundsPointsMembership(init, height, width, q);
      if exists i :: 0 <= i < |points| && TruncatePoint(points[i]) == q {
        var i :| 0 <= i < |points| && TruncatePoint(points[i]) == q;
        if i < |points| - 1 {
          assert init[i] == points[i];
        }
      }
      if exists i :: 0 <= i < |init| && TruncatePoint(init[i]) == q {
        var i :| 0 <= i < |init| && TruncatePoint(init[i]) == q;
        assert points[i] == init[i];
      }
    }
  }

  /** When every point is inside, the filter only truncates. */
  lemma {:induction false} InBoundsPointsAllInside(points: seq<(real, real)>, height: int, width: int)
    requires forall i :: 0 <= i < |points| ==> StrictlyInside(TruncatePoint(points[i]), height, width)
    ensures |InBoundsPoints(points, height, width)| == |points|
    ensures forall i :: 0 <= i < |points| ==> InBoundsPoints(points, height, width)[i] == TruncatePoint(points[i])
  {
    if points != [] {
      InBoundsPointsAllInside(points[..|points| - 1], height, width);
    }
  }
}
