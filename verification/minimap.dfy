/** The minimap fit-projection: the bounding box of all canvas destinations is
    scaled uniformly into the minimap panel, and the canvas viewport is drawn on
    it as the camera rectangle. */
module Minimap {
  import opened Rects

  /** Python's `int(r)` on a float: truncation toward zero (not floor). */
  function Trunc(r: real): (t: int)
    ensures 0.0 <= r ==> t as real <= r < t as real + 1.0
    ensures r < 0.0 ==> t as real - 1.0 < r <= t as real
  {
    if r >= 0.0 then r.Floor else -((-r).Floor)
  }

  /** Truncation and floor part ways on negative non-integers. */
  lemma TruncIsNotFloor()
    ensures Trunc(-0.5) == 0 && (-0.5).Floor == -1
    ensures Trunc(-2.5) == -2 && (-2.5).Floor == -3
  {
  }

  /** Truncation never moves a value away from zero. */
  lemma TruncTowardZero(r: real)
    ensures 0.0 <= r ==> 0 <= Trunc(r) && Trunc(r) as real <= r
    ensures r <= 0.0 ==> Trunc(r) <= 0 && r <= Trunc(r) as real
  {
  }

  /** numpy's `.min()` of a non-empty array; see `MinOfIsMin`. */
  function MinOf(xs: seq<real>): real
    requires |xs| > 0
    decreases |xs|
  {
    if |xs| == 1 then xs[0]
    else
      var t := MinOf(xs[1..]);
      if xs[0] <= t then xs[0] else t
  }

  /** numpy's `.max()` of a non-empty array; see `MaxOfIsMax`. */
  function MaxOf(xs: seq<real>): real
    requires |xs| > 0
    decreases |xs|
  {
    if |xs| == 1 then xs[0]
    else
      var t := MaxOf(xs[1..]);
      if xs[0] >= t then xs[0] else t
  }

  /** The minimum is a lower bound that some element attains. */
  lemma {:induction false} MinOfIsMin(xs: seq<real>)
    requires |xs| > 0
    ensures forall i :: 0 <= i < |xs| ==> MinOf(xs) <= xs[i]
    ensures exists i :: 0 <= i < |xs| && xs[i] == MinOf(xs)
    decreases |xs|
  {
    if |xs| == 1 {
      assert xs[0] == MinOf(xs);
    } else {
      var tail := xs[1..];
      MinOfIsMin(tail);
      assert forall i :: 1 <= i < |xs| ==> xs[i] == tail[i - 1];
      var j :| 0 <= j < |tail| && tail[j] == MinOf(tail);
      if MinOf(xs) == xs[0] {
        assert xs[0] == MinOf(xs);
      } else {
        assert xs[j + 1] == MinOf(xs);
      }
    }
  }

  /** The maximum is an upper bound that some element attains. */
  lemma {:induction false} MaxOfIsMax(xs: seq<real>)
    requires |xs| > 0
    ensures forall i :: 0 <= i < |xs| ==> xs[i] <= MaxOf(xs)
    ensures exists i :: 0 <= i < |xs| && xs[i] == MaxOf(xs)
    decreases |xs|
  {
    if |xs| == 1 {
      assert xs[0] == MaxOf(xs);
    } else {
      var tail := xs[1..];
      MaxOfIsMax(tail);
      assert forall i :: 1 <= i < |xs| ==> xs[i] == tail[i - 1];
      var j :| 0 <= j < |tail| && tail[j] == MaxOf(tail);
      if MaxOf(xs) == xs[0] {
        assert xs[0] == MaxOf(xs);
      } else {
        assert xs[j + 1] == MaxOf(xs);
      }
    }
  }

  /** Every layer of `s` lies inside box `b`. */
  predicate Encloses(b: Rect, s: Store) {
    forall i :: 0 <= i < |s| ==>
      && b.x <= s[i].x && s[i].x + s[i].w <= b.x + b.w
      && b.y <= s[i].y && s[i].y + s[i].h <= b.y + b.h
  }

  /** Each of the four edges of box `b` is touched by some layer of `s`. */
  predicate Touches(b: Rect, s: Store) {
    && (exists i :: 0 <= i < |s| && s[i].x == b.x)
    && (exists i :: 0 <= i < |s| && s[i].y == b.y)
    && (exists i :: 0 <= i < |s| && s[i].x + s[i].w == b.x + b.w)
    && (exists i :: 0 <= i < |s| && s[i].y + s[i].h == b.y + b.h)
  }

  /** (x_min, y_min, w_max, h_max), with w_max and h_max measured from the
      minimum corner: the smallest box holding every layer, since every layer
      lies inside it and each of its edges is touched by some layer. */
  function BoundingBox(s: Store): (b: Rect)
    requires |s| > 0
    ensures Encloses(b, s) && Touches(b, s)
  {
    MinOfIsMin(Xs(s));
    MinOfIsMin(Ys(s));
    MaxOfIsMax(Rights(s));
    MaxOfIsMax(Bottoms(s));
    var x := MinOf(Xs(s));
    var y := MinOf(Ys(s));
    Rect(x, y, MaxOf(Rights(s)) - x, MaxOf(Bottoms(s)) - y)
  }

  /** The fit factor `min(w_minimap / w_max, h_minimap / h_max)`; Python's
      `min` keeps the first argument on a tie. */
  function Fit(wm: real, hm: real, b: Rect): (f: real)
    requires b.w != 0.0 && b.h != 0.0
    ensures f <= wm / b.w && f <= hm / b.h
    ensures f == wm / b.w || f == hm / b.h
  {
    var fw := wm / b.w;
    var fh := hm / b.h;
    if fh < fw then fh else fw
  }

  function ProjectRect(r: Rect, b: Rect, f: real): Rect {
    Rect((r.x - b.x) * f, (r.y - b.y) * f, r.w * f, r.h * f)
  }

  /** Every canvas destination mapped into minimap space. */
  function Project(s: Store, b: Rect, f: real): (p: Store)
    ensures |p| == |s|
    ensures forall i :: 0 <= i < |s| ==> p[i] == ProjectRect(s[i], b, f)
  {
    seq(|s|, i requires 0 <= i < |s| => ProjectRect(s[i], b, f))
  }

  /** The camera: the canvas panel's footprint in minimap space, each field
      truncated by `int(...)`. */
  function Camera(b: Rect, f: real, wc: nat, hc: nat): (c: Rect)
    ensures c.x == Trunc(-b.x * f) as real && c.y == Trunc(-b.y * f) as real
    ensures c.w == Trunc(wc as real * f) as real && c.h == Trunc(hc as real * f) as real
  {
    Rect(Trunc(-b.x * f) as real, Trunc(-b.y * f) as real,
         Trunc(wc as real * f) as real, Trunc(hc as real * f) as real)
  }

  /** The outcome of recomputing the minimap from the canvas destinations:
      - EmptyCanvas: no layers, so `.min()` raises;
      - ZeroExtent: the bounding box has zero width or height, so a fit
        factor divides by zero;
      - Projected: the new minimap destinations, camera and fit factor. */
  datatype Recomputed =
    | EmptyCanvas
    | ZeroExtent
    | Projected(destinations: Store, camera: Rect, factor: real)

  /** The geometry part of the minimap update. */
  function Recompute(canvas: Store, wm: nat, hm: nat, wc: nat, hc: nat): (r: Recomputed)
    ensures r.EmptyCanvas? <==> |canvas| == 0
    ensures r.ZeroExtent? <==> |canvas| > 0 && (BoundingBox(canvas).w == 0.0 || BoundingBox(canvas).h == 0.0)
    ensures r.Projected? ==> |r.destinations| == |canvas|
  {
    if |canvas| == 0 then EmptyCanvas
    else
      var b := BoundingBox(canvas);
      if b.w == 0.0 || b.h == 0.0 then ZeroExtent
      else
        var f := Fit(wm as real, hm as real, b);
        Projected(Project(canvas, b, f), Camera(b, f, wc, hc), f)
  }

  /** Scaling by a non-negative factor keeps order. */
  lemma ScaleMonotone(u: real, v: real, f: real)
    requires u <= v && 0.0 <= f
    ensures u * f <= v * f
  {
    assert v * f - u * f == (v - u) * f;
  }

  /** Factor f is non-negative and scales box b to at most the panel wm x hm,
      exactly to its width or to its height. */
  predicate FitsPanel(b: Rect, f: real, wm: real, hm: real) {
    && 0.0 <= f && b.w * f <= wm && b.h * f <= hm
    && (b.w * f == wm || b.h * f == hm)
  }

  /** The fit factor is non-negative and scales the box to at most the panel. */
  lemma FitBounds(wm: real, hm: real, b: Rect)
    requires 0.0 <= wm && 0.0 <= hm && b.w > 0.0 && b.h > 0.0
    ensures FitsPanel(b, Fit(wm, hm, b), wm, hm)
  {
    var f := Fit(wm, hm, b);
    var fw, fh := wm / b.w, hm / b.h;
    assert b.w * fw == wm && b.h * fh == hm;
    assert 0.0 <= fw && 0.0 <= fh;
    ScaleMonotone(f, fw, b.w);
    ScaleMonotone(f, fh, b.h);
  }

  /** Projecting rectangles that lie inside box b by a factor that shrinks b
      into the panel puts every one of them inside the panel. */
  lemma ProjectInside(s: Store, b: Rect, f: real, wm: real, hm: real)
    requires forall i :: 0 <= i < |s| ==> b.x <= s[i].x && s[i].x + s[i].w <= b.x + b.w
    requires forall i :: 0 <= i < |s| ==> b.y <= s[i].y && s[i].y + s[i].h <= b.y + b.h
    requires 0.0 <= f && b.w * f <= wm && b.h * f <= hm
    ensures forall i :: 0 <= i < |s| ==>
              && 0.0 <= Project(s, b, f)[i].x && Project(s, b, f)[i].x + Project(s, b, f)[i].w <= wm
              && 0.0 <= Project(s, b, f)[i].y && Project(s, b, f)[i].y + Project(s, b, f)[i].h <= hm
  {
    var p := Project(s, b, f);
    forall i | 0 <= i < |s|
      ensures 0.0 <= p[i].x && p[i].x + p[i].w <= wm
      ensures 0.0 <= p[i].y && p[i].y + p[i].h <= hm
    {
      ScaleMonotone(0.0, s[i].x - b.x, f);
      ScaleMonotone(0.0, s[i].y - b.y, f);
      ScaleMonotone(s[i].x + s[i].w - b.x, b.w, f);
      ScaleMonotone(s[i].y + s[i].h - b.y, b.h, f);
      assert p[i].x + p[i].w == (s[i].x + s[i].w - b.x) * f;
      assert p[i].y + p[i].h == (s[i].y + s[i].h - b.y) * f;
    }
  }

  /** What a successful recompute is made of: the bounding box, a fit factor
      that shrinks it into the panel exactly along one axis, the projection by
      that factor and the camera for it. */
  lemma RecomputeParts(canvas: Store, wm: nat, hm: nat, wc: nat, hc: nat) returns (b: Rect, f: real)
    requires |canvas| > 0
    requires BoundingBox(canvas).w > 0.0 && BoundingBox(canvas).h > 0.0
    ensures b == BoundingBox(canvas)
    ensures Recompute(canvas, wm, hm, wc, hc) == Projected(Project(canvas, b, f), Camera(b, f, wc, hc), f)
    ensures FitsPanel(b, f, wm as real, hm as real)
  {
    b := BoundingBox(canvas);
    f := Fit(wm as real, hm as real, b);
    FitBounds(wm as real, hm as real, b);
  }

  /** With a non-degenerate box, every projected layer lies inside the minimap
      panel [0, wm] x [0, hm]. */
  lemma ProjectionFitsPanel(canvas: Store, wm: nat, hm: nat, wc: nat, hc: nat)
    requires |canvas| > 0
    requires BoundingBox(canvas).w > 0.0 && BoundingBox(canvas).h > 0.0
    ensures Recompute(canvas, wm, hm, wc, hc).Projected?
    ensures var p := Recompute(canvas, wm, hm, wc, hc).destinations;
            forall i :: 0 <= i < |p| ==>
              && 0.0 <= p[i].x && p[i].x + p[i].w <= wm as real
              && 0.0 <= p[i].y && p[i].y + p[i].h <= hm as real
  {
    var b, f := RecomputeParts(canvas, wm, hm, wc, hc);
    ProjectInside(canvas, b, f, wm as real, hm as real);
  }

  /** A layer on the box's left edge lands on the panel's left edge. */
  lemma ProjectedLeft(s: Store, b: Rect, f: real, i: int)
    requires 0 <= i < |s| && s[i].x == b.x
    ensures Project(s, b, f)[i].x == 0.0
  {
    assert Project(s, b, f)[i] == ProjectRect(s[i], b, f);
  }

  /** A layer on the box's top edge lands on the panel's top edge. */
  lemma ProjectedTop(s: Store, b: Rect, f: real, i: int)
    requires 0 <= i < |s| && s[i].y == b.y
    ensures Project(s, b, f)[i].y == 0.0
  {
    assert Project(s, b, f)[i] == ProjectRect(s[i], b, f);
  }

  /** A layer on the box's right edge ends at b.w * f. */
  lemma ProjectedRight(s: Store, b: Rect, f: real, i: int)
    requires 0 <= i < |s| && s[i].x + s[i].w == b.x + b.w
    ensures Project(s, b, f)[i].x + Project(s, b, f)[i].w == b.w * f
  {
    var q := Project(s, b, f)[i];
    assert q == ProjectRect(s[i], b, f);
    assert q.x + q.w == (s[i].x - b.x + s[i].w) * f;
  }

  /** A layer on the box's bottom edge ends at b.h * f. */
  lemma ProjectedBottom(s: Store, b: Rect, f: real, i: int)
    requires 0 <= i < |s| && s[i].y + s[i].h == b.y + b.h
    ensures Project(s, b, f)[i].y + Project(s, b, f)[i].h == b.h * f
  {
    var q := Project(s, b, f)[i];
    assert q == ProjectRect(s[i], b, f);
    assert q.y + q.h == (s[i].y - b.y + s[i].h) * f;
  }

  /** Projecting by box b's own corner sends the layers on b's left and top
      edges to the panel's left and top edges, and, when f stretches b to the
      full panel width or height, some layer to the panel's right or bottom edge. */
  lemma ProjectTight(s: Store, b: Rect, f: real, wm: real, hm: real)
    requires exists i :: 0 <= i < |s| && s[i].x == b.x
    requires exists i :: 0 <= i < |s| && s[i].y == b.y
    requires exists i :: 0 <= i < |s| && s[i].x + s[i].w == b.x + b.w
    requires exists i :: 0 <= i < |s| && s[i].y + s[i].h == b.y + b.h
    requires b.w * f == wm || b.h * f == hm
    ensures var p := Project(s, b, f);
            && (exists i :: 0 <= i < |p| && p[i].x == 0.0)
            && (exists i :: 0 <= i < |p| && p[i].y == 0.0)
            && (exists i :: 0 <= i < |p| && (p[i].x + p[i].w == wm || p[i].y + p[i].h == hm))
  {
    var p := Project(s, b, f);
    var l :| 0 <= l < |s| && s[l].x == b.x;
    ProjectedLeft(s, b, f, l);
    assert 0 <= l < |p| && p[l].x == 0.0;
    var t :| 0 <= t < |s| && s[t].y == b.y;
    ProjectedTop(s, b, f, t);
    assert 0 <= t < |p| && p[t].y == 0.0;
    if b.w * f == wm {
      var r :| 0 <= r < |s| && s[r].x + s[r].w == b.x + b.w;
      ProjectedRight(s, b, f, r);
      assert 0 <= r < |p| && p[r].x + p[r].w == wm;
    } else {
      var d :| 0 <= d < |s| && s[d].y + s[d].h == b.y + b.h;
      ProjectedBottom(s, b, f, d);
      assert 0 <= d < |p| && p[d].y + p[d].h == hm;
    }
  }

  /** The fit is tight: some projected layer touches the left edge, some the
      top edge, and some the right or the bottom edge of the panel. */
  lemma ProjectionIsTight(canvas: Store, wm: nat, hm: nat, wc: nat, hc: nat)
    requires |canvas| > 0
    requires BoundingBox(canvas).w > 0.0 && BoundingBox(canvas).h > 0.0
    ensures Recompute(canvas, wm, hm, wc, hc).Projected?
    ensures var p := Recompute(canvas, wm, hm, wc, hc).destinations;
            && (exists i :: 0 <= i < |p| && p[i].x == 0.0)
            && (exists i :: 0 <= i < |p| && p[i].y == 0.0)
            && (exists i :: 0 <= i < |p| && (p[i].x + p[i].w == wm as real || p[i].y + p[i].h == hm as real))
  {
    var b, f := RecomputeParts(canvas, wm, hm, wc, hc);
    ProjectTight(canvas, b, f, wm as real, hm as real);
  }

  /** The camera for box b and factor f >= 0: its corner is the exact
      projection of the canvas origin rounded toward zero, so less than one
      minimap pixel away, and its extent is the canvas panel's projected
      extent rounded down. */
  lemma CameraBounds(b: Rect, f: real, wc: nat, hc: nat)
    requires 0.0 <= f
    ensures var c := Camera(b, f, wc, hc);
            && -1.0 < c.x - (-b.x * f) < 1.0
            && -1.0 < c.y - (-b.y * f) < 1.0
            && 0.0 <= c.w <= wc as real * f
            && 0.0 <= c.h <= hc as real * f
  {
    ScaleMonotone(0.0, wc as real, f);
    ScaleMonotone(0.0, hc as real, f);
  }

  /** A single 100 x 50 layer at the origin in a 400 x 400 minimap is limited by
      its width: the factor is 4 and it is drawn as 400 x 200 at the origin. */
  lemma SingleLayerExample()
    ensures Recompute([Rect(0.0, 0.0, 100.0, 50.0)], 400, 400, 0, 0)
         == Projected([Rect(0.0, 0.0, 400.0, 200.0)], Rect(0.0, 0.0, 0.0, 0.0), 4.0)
  {
    var s := [Rect(0.0, 0.0, 100.0, 50.0)];
    assert Xs(s) == [0.0] && Ys(s) == [0.0] && Rights(s) == [100.0] && Bottoms(s) == [50.0];
    assert BoundingBox(s) == Rect(0.0, 0.0, 100.0, 50.0);
    assert Fit(400.0, 400.0, BoundingBox(s)) == 4.0;
    assert Project(s, Rect(0.0, 0.0, 100.0, 50.0), 4.0) == [Rect(0.0, 0.0, 400.0, 200.0)];
  }

  // ---------------------------------------------------------------------------
  // The resampled-bitmap cache

  /** Whether the update resamples the minimap bitmaps: only when asked to
      resize and the fit factor differs from the cached one. */
  predicate Rescales(cached: real, f: real, resize: bool) {
    resize && cached != f
  }

  /** The cached minimap scale factor after an update with fit factor `f`. */
  function CachedScale(cached: real, f: real, resize: bool): (r: real)
    ensures resize ==> r == f
    ensures !resize ==> r == cached
    ensures r != cached <==> Rescales(cached, f, resize)
  {
    if !resize || cached == f then cached else f
  }

  /** Once the bitmaps were resampled for a factor, refreshing again with the
      same factor does not resample them a second time. */
  lemma CacheSettles(cached: real, f: real, resize: bool, again: bool)
    ensures !Rescales(CachedScale(cached, f, true), f, again)
  {
  }
}
