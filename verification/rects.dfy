/** The `Rects` store: a positional collection of rectangles kept by the source
    as a 4 x n numpy array whose rows are the x, y, w and h columns. Here it is a
    sequence of `Rect`; the columns are projections of it. Coordinates are real
    numbers, an idealisation of the array's floating-point entries. */
module Rects {
  import opened Errors
  import opened Positional

  /** A rectangle: top-left corner (x, y) and extent (w, h). */
  datatype Rect = Rect(x: real, y: real, w: real, h: real)

  type Store = seq<Rect>

  function Translate(r: Rect, dx: real, dy: real): Rect {
    r.(x := r.x + dx, y := r.y + dy)
  }

  /** `Rect.scale(k)`, which the add handler calls on a fresh rectangle; the
      shown `Rect` class does not define it, so every field is scaled. */
  function Scale(r: Rect, k: real): Rect {
    Rect(r.x * k, r.y * k, r.w * k, r.h * k)
  }

  // ---------------------------------------------------------------------------
  // Columns (the `x`, `y`, `w`, `h` row properties) and the right/bottom edges

  function Xs(s: Store): (c: seq<real>)
    ensures |c| == |s| && forall i :: 0 <= i < |s| ==> c[i] == s[i].x
  {
    seq(|s|, i requires 0 <= i < |s| => s[i].x)
  }

  function Ys(s: Store): (c: seq<real>)
    ensures |c| == |s| && forall i :: 0 <= i < |s| ==> c[i] == s[i].y
  {
    seq(|s|, i requires 0 <= i < |s| => s[i].y)
  }

  function Ws(s: Store): (c: seq<real>)
    ensures |c| == |s| && forall i :: 0 <= i < |s| ==> c[i] == s[i].w
  {
    seq(|s|, i requires 0 <= i < |s| => s[i].w)
  }

  function Hs(s: Store): (c: seq<real>)
    ensures |c| == |s| && forall i :: 0 <= i < |s| ==> c[i] == s[i].h
  {
    seq(|s|, i requires 0 <= i < |s| => s[i].h)
  }

  /** `x + w` per rectangle. */
  function Rights(s: Store): (c: seq<real>)
    ensures |c| == |s| && forall i :: 0 <= i < |s| ==> c[i] == s[i].x + s[i].w
  {
    seq(|s|, i requires 0 <= i < |s| => s[i].x + s[i].w)
  }

  /** `y + h` per rectangle. */
  function Bottoms(s: Store): (c: seq<real>)
    ensures |c| == |s| && forall i :: 0 <= i < |s| ==> c[i] == s[i].y + s[i].h
  {
    seq(|s|, i requires 0 <= i < |s| => s[i].y + s[i].h)
  }

  /** Reads rectangle i back from four columns, as `Rect(*rects[:, i])` does. */
  function Stack(xs: seq<real>, ys: seq<real>, ws: seq<real>, hs: seq<real>): (s: Store)
    requires |xs| == |ys| == |ws| == |hs|
    ensures |s| == |xs|
    ensures forall i :: 0 <= i < |s| ==> s[i].x == xs[i] && s[i].y == ys[i] && s[i].w == ws[i] && s[i].h == hs[i]
  {
    seq(|xs|, i requires 0 <= i < |xs| => Rect(xs[i], ys[i], ws[i], hs[i]))
  }

  /** Splitting into columns and reading the rectangles back is lossless in
      both directions. */
  lemma ColumnsRoundTrip(s: Store, xs: seq<real>, ys: seq<real>, ws: seq<real>, hs: seq<real>)
    requires |xs| == |ys| == |ws| == |hs|
    ensures Stack(Xs(s), Ys(s), Ws(s), Hs(s)) == s
    ensures Xs(Stack(xs, ys, ws, hs)) == xs && Ys(Stack(xs, ys, ws, hs)) == ys
    ensures Ws(Stack(xs, ys, ws, hs)) == ws && Hs(Stack(xs, ys, ws, hs)) == hs
  {
  }

  /** `Rects(rects)`: collects the four coordinate lists in one pass over the
      given rectangles and stacks them into the array. */
  method New(rects: seq<Rect>) returns (store: Store)
    ensures |store| == |rects|
    ensures forall i :: 0 <= i < |rects| ==> store[i] == rects[i]
    ensures |Xs(store)| == |Ys(store)| == |Ws(store)| == |Hs(store)| == |store|
  {
    var xs, ys, ws, hs := [], [], [], [];
    var i := 0;
    while i < |rects|
      invariant 0 <= i <= |rects|
      invariant |xs| == i && |ys| == i && |ws| == i && |hs| == i
      invariant forall j :: 0 <= j < i ==> xs[j] == rects[j].x && ys[j] == rects[j].y
      invariant forall j :: 0 <= j < i ==> ws[j] == rects[j].w && hs[j] == rects[j].h
    {
      xs := xs + [rects[i].x];
      ys := ys + [rects[i].y];
      ws := ws + [rects[i].w];
      hs := hs + [rects[i].h];
      i := i + 1;
    }
    store := Stack(xs, ys, ws, hs);
  }

  // ---------------------------------------------------------------------------
  // move

  /** `move(i, dx, dy)`: shifts the corner of rectangle i, without clamping. */
  function Move(s: Store, i: int, dx: real, dy: real): (r: Result<Store>)
    ensures r.Ok? <==> InRange(i, |s|)
    ensures r.Ok? ==> |r.value| == |s|
    ensures r.Ok? ==> var k := Norm(i, |s|);
              && r.value[k].x == s[k].x + dx && r.value[k].y == s[k].y + dy
              && r.value[k].w == s[k].w && r.value[k].h == s[k].h
    ensures r.Ok? ==> forall j :: 0 <= j < |s| && j != Norm(i, |s|) ==> r.value[j] == s[j]
  {
    if InRange(i, |s|) then
      var k := Norm(i, |s|);
      Ok(s[k := Translate(s[k], dx, dy)])
    else
      Err(IndexError)
  }

  /** Moving back by the opposite offset restores the store. */
  lemma MoveInverse(s: Store, i: int, dx: real, dy: real)
    requires InRange(i, |s|)
    ensures Move(Move(s, i, dx, dy).value, i, -dx, -dy) == Ok(s)
  {
    var k := Norm(i, |s|);
    var t := Move(s, i, dx, dy).value;
    assert t[k := Translate(t[k], -dx, -dy)] == s;
  }

  /** Two moves of the same rectangle add up to one. */
  lemma MoveCompose(s: Store, i: int, dx1: real, dy1: real, dx2: real, dy2: real)
    requires InRange(i, |s|)
    ensures Move(Move(s, i, dx1, dy1).value, i, dx2, dy2) == Move(s, i, dx1 + dx2, dy1 + dy2)
  {
    var k := Norm(i, |s|);
    var t := Move(s, i, dx1, dy1).value;
    assert t[k := Translate(t[k], dx2, dy2)] == s[k := Translate(s[k], dx1 + dx2, dy1 + dy2)];
  }

  // ---------------------------------------------------------------------------
  // Moving every rectangle (camera pan)

  /** Every rectangle translated by the same offset. */
  function ShiftAll(s: Store, dx: real, dy: real): (r: Store)
    ensures |r| == |s|
    ensures forall j :: 0 <= j < |s| ==> r[j] == Translate(s[j], dx, dy)
    decreases |s|
  {
    if |s| == 0 then [] else [Translate(s[0], dx, dy)] + ShiftAll(s[1..], dx, dy)
  }

  /** The pan loop: `move(i, dx, dy)` for every position in turn. */
  method Pan(s: Store, dx: real, dy: real) returns (t: Store)
    ensures |t| == |s|
    ensures forall j :: 0 <= j < |s| ==> t[j] == Translate(s[j], dx, dy)
  {
    t := s;
    var i := 0;
    while i < |s|
      invariant 0 <= i <= |s| && |t| == |s|
      invariant forall j :: 0 <= j < i ==> t[j] == Translate(s[j], dx, dy)
      invariant forall j :: i <= j < |s| ==> t[j] == s[j]
    {
      var moved := Move(t, i, dx, dy);
      t := moved.value;
      i := i + 1;
    }
  }

  /** Panning keeps every pairwise offset between rectangles, and every size. */
  lemma ShiftKeepsOffsets(s: Store, dx: real, dy: real, a: int, b: int)
    requires 0 <= a < |s| && 0 <= b < |s|
    ensures ShiftAll(s, dx, dy)[a].x - ShiftAll(s, dx, dy)[b].x == s[a].x - s[b].x
    ensures ShiftAll(s, dx, dy)[a].y - ShiftAll(s, dx, dy)[b].y == s[a].y - s[b].y
    ensures ShiftAll(s, dx, dy)[a].w == s[a].w && ShiftAll(s, dx, dy)[a].h == s[a].h
  {
  }

  /** Panning is undone by the opposite pan. */
  lemma ShiftInverse(s: Store, dx: real, dy: real)
    ensures ShiftAll(ShiftAll(s, dx, dy), -dx, -dy) == s
  {
    var t := ShiftAll(ShiftAll(s, dx, dy), -dx, -dy);
    assert forall j :: 0 <= j < |s| ==> t[j] == s[j];
  }
}
