/** The mouse-wheel zoom of the canvas: every layer's corner is rescaled about
    the cursor, and every layer's extent is recomputed from its unscaled size. */
module Zoom {
  import opened Rects

  /** One layer after the zoom: `k` is new factor / old factor, `s` the new factor. */
  function ZoomRect(c: Rect, u: Rect, ax: real, ay: real, k: real, s: real): Rect {
    Rect(ax - k * (ax - c.x), ay - k * (ay - c.y), u.w * s, u.h * s)
  }

  /** Anchored zoom of the canvas destinations `canvas` about (ax, ay), from
      factor `oldF` to factor `newF`; `unscaled` holds the zoom-level-0 sizes. */
  function Zoom(canvas: Store, unscaled: Store, ax: real, ay: real, oldF: real, newF: real): (r: Store)
    requires |canvas| == |unscaled| && oldF > 0.0
    ensures |r| == |canvas|
    ensures forall i :: 0 <= i < |r| ==>
              && r[i].x - ax == (newF / oldF) * (canvas[i].x - ax)
              && r[i].y - ay == (newF / oldF) * (canvas[i].y - ay)
    ensures forall i :: 0 <= i < |r| ==> r[i].w == unscaled[i].w * newF && r[i].h == unscaled[i].h * newF
  {
    seq(|canvas|, i requires 0 <= i < |canvas| => ZoomRect(canvas[i], unscaled[i], ax, ay, newF / oldF, newF))
  }

  /** A wheel event that leaves the factor unchanged moves no corner. */
  lemma ZoomWithoutChangeKeepsCorners(canvas: Store, unscaled: Store, ax: real, ay: real, f: real, i: int)
    requires |canvas| == |unscaled| && f > 0.0 && 0 <= i < |canvas|
    ensures Zoom(canvas, unscaled, ax, ay, f, f)[i].x == canvas[i].x
    ensures Zoom(canvas, unscaled, ax, ay, f, f)[i].y == canvas[i].y
  {
    var r := Zoom(canvas, unscaled, ax, ay, f, f);
    assert f / f == 1.0;
    assert r[i].x - ax == canvas[i].x - ax;
  }

  /** A corner lying on the anchor stays on the anchor. */
  lemma ZoomKeepsAnchor(canvas: Store, unscaled: Store, ax: real, ay: real, oldF: real, newF: real, i: int)
    requires |canvas| == |unscaled| && oldF > 0.0 && 0 <= i < |canvas|
    ensures canvas[i].x == ax ==> Zoom(canvas, unscaled, ax, ay, oldF, newF)[i].x == ax
    ensures canvas[i].y == ay ==> Zoom(canvas, unscaled, ax, ay, oldF, newF)[i].y == ay
  {
  }

  /** Distances between layer corners scale by exactly new / old. */
  lemma ZoomScalesOffsets(canvas: Store, unscaled: Store, ax: real, ay: real, oldF: real, newF: real, i: int, j: int)
    requires |canvas| == |unscaled| && oldF > 0.0 && 0 <= i < |canvas| && 0 <= j < |canvas|
    ensures var r := Zoom(canvas, unscaled, ax, ay, oldF, newF);
            && r[i].x - r[j].x == (newF / oldF) * (canvas[i].x - canvas[j].x)
            && r[i].y - r[j].y == (newF / oldF) * (canvas[i].y - canvas[j].y)
  {
    var r := Zoom(canvas, unscaled, ax, ay, oldF, newF);
    var k := newF / oldF;
    assert r[i].x - r[j].x == (r[i].x - ax) - (r[j].x - ax);
    assert k * (canvas[i].x - ax) - k * (canvas[j].x - ax) == k * (canvas[i].x - canvas[j].x);
    assert k * (canvas[i].y - ay) - k * (canvas[j].y - ay) == k * (canvas[i].y - canvas[j].y);
  }

  /** Two zooms about the same anchor equal one zoom straight to the final factor,
      so repeated wheel events do not accumulate drift in the model. */
  lemma ZoomCompose(canvas: Store, unscaled: Store, ax: real, ay: real, f: real, g: real, h: real)
    requires |canvas| == |unscaled| && f > 0.0 && g > 0.0
    ensures Zoom(Zoom(canvas, unscaled, ax, ay, f, g), unscaled, ax, ay, g, h)
         == Zoom(canvas, unscaled, ax, ay, f, h)
  {
    forall i | 0 <= i < |canvas|
      ensures Zoom(Zoom(canvas, unscaled, ax, ay, f, g), unscaled, ax, ay, g, h)[i]
           == Zoom(canvas, unscaled, ax, ay, f, h)[i]
    {
      ZoomComposeAt(canvas, unscaled, ax, ay, f, g, h, i);
    }
  }

  /** `ZoomCompose` at one layer. */
  lemma ZoomComposeAt(canvas: Store, unscaled: Store, ax: real, ay: real, f: real, g: real, h: real, i: int)
    requires |canvas| == |unscaled| && f > 0.0 && g > 0.0 && 0 <= i < |canvas|
    ensures Zoom(Zoom(canvas, unscaled, ax, ay, f, g), unscaled, ax, ay, g, h)[i]
         == Zoom(canvas, unscaled, ax, ay, f, h)[i]
  {
    var once := Zoom(canvas, unscaled, ax, ay, f, g);
    assert once[i] == ZoomRect(canvas[i], unscaled[i], ax, ay, g / f, g);
    assert Zoom(once, unscaled, ax, ay, g, h)[i] == ZoomRect(once[i], unscaled[i], ax, ay, h / g, h);
    ZoomRectCompose(canvas[i], unscaled[i], ax, ay, f, g, h);
  }

  /** `ZoomCompose` for one rectangle. */
  lemma ZoomRectCompose(c: Rect, u: Rect, ax: real, ay: real, f: real, g: real, h: real)
    requires f > 0.0 && g > 0.0
    ensures ZoomRect(ZoomRect(c, u, ax, ay, g / f, g), u, ax, ay, h / g, h) == ZoomRect(c, u, ax, ay, h / f, h)
  {
    var once := ZoomRect(c, u, ax, ay, g / f, g);
    RatioChain(f, g, h);
    assert ax - once.x == (g / f) * (ax - c.x) && ay - once.y == (g / f) * (ay - c.y);
    Associate(h / g, g / f, ax - c.x, h / f);
    Associate(h / g, g / f, ay - c.y, h / f);
  }

  /** Scaling by g / f and then by h / g is scaling by h / f. */
  lemma RatioChain(f: real, g: real, h: real)
    requires f > 0.0 && g > 0.0
    ensures (h / g) * (g / f) == h / f
  {
  }

  /** Regroups the factor product in `ZoomRectCompose`: scaling by b and then
      by a is scaling by their product ab. */
  lemma Associate(a: real, b: real, d: real, ab: real)
    requires ab == a * b
    ensures a * (b * d) == ab * d
  {
  }

  /** Zooming in and back out about the same anchor restores every corner. */
  lemma ZoomRoundTrip(canvas: Store, unscaled: Store, ax: real, ay: real, f: real, g: real, i: int)
    requires |canvas| == |unscaled| && f > 0.0 && g > 0.0 && 0 <= i < |canvas|
    ensures Zoom(Zoom(canvas, unscaled, ax, ay, f, g), unscaled, ax, ay, g, f)[i].x == canvas[i].x
    ensures Zoom(Zoom(canvas, unscaled, ax, ay, f, g), unscaled, ax, ay, g, f)[i].y == canvas[i].y
  {
    ZoomCompose(canvas, unscaled, ax, ay, f, g, f);
    ZoomWithoutChangeKeepsCorners(canvas, unscaled, ax, ay, f, i);
  }
}
