/** Where the swap and duplicate handlers, as written, break the bookkeeping
    the other handlers rely on, each next to the corrected handler that keeps
    it. */
module Findings {
  import opened Errors
  import opened Positional
  import opened Rects
  import opened Editor
  import opened EditorProofs

  // ---------------------------------------------------------------------------
  // The swap handler leaves the unscaled destinations unswapped

  /** Scaling by a positive factor keeps distinct values distinct. */
  lemma ScaleKeepsDistinct(u: real, v: real, f: real)
    requires u != v && f > 0.0
    ensures u * f != v * f
  {
    if u < v {
      assert v * f - u * f == (v - u) * f;
    } else {
      assert u * f - v * f == (u - v) * f;
    }
  }

  /** The source's swap of two layers of different widths moves the canvas
      rectangle at storage position a to b but leaves the unscaled store as it
      was, so the canvas size at b no longer follows the unscaled size there. */
  lemma SwapLeavesUnscaled(st: Session, i: nat, j: nat)
    requires st.Valid() && Scaled(st.canvas.destinations, st.destinations, st.scale)
    requires i < st.Count() && j < st.Count()
    requires st.destinations[st.Count() - 1 - i].w != st.destinations[st.Count() - 1 - j].w
    ensures var a, b := st.Count() - 1 - i, st.Count() - 1 - j;
            var swapped := OnSwapLayer(st, i, j).state;
            && swapped.canvas.order[b] == st.canvas.order[a]
            && swapped.canvas.destinations[b] == st.canvas.destinations[a]
            && swapped.destinations == st.destinations
            && swapped.canvas.destinations[b].w != swapped.destinations[b].w * swapped.scale
            && !Scaled(swapped.canvas.destinations, swapped.destinations, swapped.scale)
  {
    var n := st.Count();
    var a, b := n - 1 - i, n - 1 - j;
    SwapKeepsUnscaled(st, i, j);
    SwapBreaksScaled(st, OnSwapLayer(st, i, j).state, a, b);
  }

  /** The source's swap of two listed rows moves the canvas layer at storage
      position a to b and keeps the unscaled store and the factor. */
  lemma SwapKeepsUnscaled(st: Session, i: nat, j: nat)
    requires st.Valid() && i < st.Count() && j < st.Count()
    ensures var a, b := st.Count() - 1 - i, st.Count() - 1 - j;
            var swapped := OnSwapLayer(st, i, j).state;
            && swapped.Valid() && swapped.Count() == st.Count()
            && swapped.canvas.order[b] == st.canvas.order[a]
            && swapped.canvas.destinations[b] == st.canvas.destinations[a]
            && swapped.destinations == st.destinations && swapped.scale == st.scale
  {
    MirrorResolves(i, st.Count());
    MirrorResolves(j, st.Count());
  }

  /** A canvas rectangle moved to position b without its unscaled rectangle
      is out of step there when the two unscaled widths differ. */
  lemma SwapBreaksScaled(st: Session, swapped: Session, a: nat, b: nat)
    requires st.Valid() && Scaled(st.canvas.destinations, st.destinations, st.scale)
    requires a < st.Count() && b < st.Count() && |swapped.canvas.destinations| == st.Count()
    requires st.destinations[a].w != st.destinations[b].w
    requires swapped.canvas.destinations[b] == st.canvas.destinations[a]
    requires swapped.destinations == st.destinations && swapped.scale == st.scale
    ensures swapped.canvas.destinations[b].w != swapped.destinations[b].w * swapped.scale
    ensures !Scaled(swapped.canvas.destinations, swapped.destinations, swapped.scale)
  {
    assert SizedAt(st.canvas.destinations[a], st.destinations[a], st.scale);
    ScaleKeepsDistinct(st.destinations[b].w, st.destinations[a].w, st.scale);
    assert !SizedAt(swapped.canvas.destinations[b], swapped.destinations[b], swapped.scale);
  }

  /** What the swap leaves shows at the next wheel event, even one that keeps
      the zoom factor: a layer whose canvas width is out of step with its
      unscaled width is resized to the unscaled width at that factor, in the
      same storage order. After `SwapLeavesUnscaled` this is the layer moved
      to position b, which takes the width of the layer that was there. */
  lemma WheelResizesOutOfStep(s: Session, x: int, y: int, panels: Panels, b: nat)
    requires s.Valid() && b < s.Count()
    requires s.canvas.destinations[b].w != s.destinations[b].w * s.scale
    ensures var r := OnMouseWheel(s, x, y, s.scale, panels).state;
            && r.canvas.order == s.canvas.order
            && r.canvas.destinations[b].w == s.destinations[b].w * s.scale
            && r.canvas.destinations[b].w != s.canvas.destinations[b].w
  {
  }

  /** With the corrected swap (the list exchanging the same rows), the same
      wheel event leaves the canvas untouched. */
  lemma SwapFixedThenWheelKeepsCanvas(st: Session, i: nat, j: nat, x: int, y: int, panels: Panels)
    requires Coherent(st) && i < st.Count() && j < st.Count()
    ensures var swapped := OnSwapLayerFixed(st.(listed := SwapAt(st.listed, i, j)), i, j).state;
            OnMouseWheel(swapped, x, y, swapped.scale, panels).state.canvas == swapped.canvas
  {
    SwapFixedKeepsCoherent(st, i, j);
    var swapped := OnSwapLayerFixed(st.(listed := SwapAt(st.listed, i, j)), i, j).state;
    WheelWithoutChangeKeepsCanvas(swapped, x, y, panels);
  }

  // ---------------------------------------------------------------------------
  // The duplicate handler reads the rectangle by layer id

  /** Adding a 100 x 100 and a 50 x 50 image and removing list row 1 (the
      first image) leaves the one-layer list [1]. */
  lemma AddAddRemoveLeavesLone(panels: Panels)
    ensures var one := OnLayerAdd(Reset(), 100, 100, panels).state;
            var two := OnLayerAdd(one, 50, 50, panels).state;
            var left := OnLayerRemove(two, 1, panels);
            && left.Done? && left.state.Count() == 1 && left.state.listed == [1]
            && Coherent(left.state)
  {
    TwoAdded(panels);
    var one := OnLayerAdd(Reset(), 100, 100, panels).state;
    RemoveBottom(OnLayerAdd(one, 50, 50, panels).state, panels);
  }

  /** The two adds list the second image first. */
  lemma TwoAdded(panels: Panels)
    ensures var two := OnLayerAdd(OnLayerAdd(Reset(), 100, 100, panels).state, 50, 50, panels).state;
            Coherent(two) && two.listed == [1, 0]
  {
    ResetCoherent();
    AddOnto(Reset(), [], 0, 100, 100, panels);
    AddOnto(OnLayerAdd(Reset(), 100, 100, panels).state, [0], 1, 50, 50, panels);
  }

  /** An add onto a coherent session with list `listed` and counter `c`. */
  lemma AddOnto(st: Session, listed: seq<nat>, c: nat, w: nat, h: nat, panels: Panels)
    requires Coherent(st) && st.listed == listed && st.counter == c
    ensures var r := OnLayerAdd(st, w, h, panels).state;
            Coherent(r) && r.listed == [c] + listed && r.counter == c + 1
  {
    AddKeepsCoherent(st, w, h, panels);
  }

  /** Removing list row 1 of the list [1, 0]. */
  lemma RemoveBottom(two: Session, panels: Panels)
    requires Coherent(two) && two.listed == [1, 0]
    ensures var left := OnLayerRemove(two, 1, panels);
            && left.Done? && left.state.Count() == 1 && left.state.listed == [1]
            && Coherent(left.state)
  {
    RemoveKeepsCoherent(two, 1, panels);
    ListedHavePaths(two, 1);
    assert RemoveAt(two.listed, 1) == [1];
  }

  /** When the selected layer's id is not below the number of layers, the
      source's duplicate raises IndexError, while the corrected one copies
      the layer. */
  lemma DuplicateReadsById(st: Session, p: nat, panels: Panels)
    requires Coherent(st) && p < st.Count() && st.listed[p] >= st.Count()
    ensures OnLayerDuplicate(st, p, panels) == Raised(IndexError, st)
    ensures OnLayerDuplicateFixed(st, p, panels).Done?
  {
    ListedHavePaths(st, p);
  }

  /** The session left by adding two images and removing the first is such a
      case: its only layer has id 1. */
  lemma DuplicateAfterAddAddRemoveFails(panels: Panels)
    ensures var one := OnLayerAdd(Reset(), 100, 100, panels).state;
            var two := OnLayerAdd(one, 50, 50, panels).state;
            var left := OnLayerRemove(two, 1, panels).state;
            && OnLayerDuplicate(left, 0, panels) == Raised(IndexError, left)
            && OnLayerDuplicateFixed(left, 0, panels).Done?
  {
    AddAddRemoveLeavesLone(panels);
    var one := OnLayerAdd(Reset(), 100, 100, panels).state;
    var two := OnLayerAdd(one, 50, 50, panels).state;
    DuplicateReadsById(OnLayerRemove(two, 1, panels).state, 0, panels);
  }

  // ---------------------------------------------------------------------------
  // The duplicate handler puts the copy below its source

  /** Whenever the source's duplicate succeeds, list row p shows the copy but
      names a different layer than storage position n - 1 - p of the grown
      canvas, which holds the source: the list no longer mirrors the storage
      order, so a later handler acting on row p acts on the source. */
  lemma DuplicateMisorders(st: Session, p: nat, panels: Panels)
    requires Coherent(st) && p < st.Count() && st.listed[p] < st.Count()
    ensures var r := OnLayerDuplicate(st, p, panels);
            && r.Done?
            && r.state.listed[p] == st.counter
            && r.state.canvas.order[r.state.Count() - 1 - p] == st.listed[p]
            && !Mirrors(r.state.listed, r.state.canvas.order)
  {
    var n := st.Count();
    ListedHavePaths(st, p);
    var r := OnLayerDuplicate(st, p, panels).state;
    assert r.canvas.order[n - p] == st.canvas.order[n - 1 - p];
    assert st.canvas.order[n - 1 - p] < st.counter;
  }

  // ---------------------------------------------------------------------------
  // The duplicate handler stores a scaled rectangle as the unscaled one

  /** A non-zero value is changed by any factor other than 1. */
  lemma FactorChanges(w: real, f: real)
    requires w != 0.0 && f != 1.0
    ensures w * f != w
  {
    assert w * f - w == w * (f - 1.0);
  }

  /** Away from zoom level 0, the source's duplicate of a layer of non-zero
      width records the copy's canvas rectangle as its unscaled one, so the
      copy's canvas size no longer follows its unscaled size. */
  lemma DuplicateMisscales(st: Session, p: nat, panels: Panels)
    requires Coherent(st) && p < st.Count() && st.listed[p] < st.Count()
    requires st.scale != 1.0 && st.canvas.destinations[st.listed[p]].w != 0.0
    ensures var r := OnLayerDuplicate(st, p, panels);
            var k := st.Count() - 1 - p;
            && r.Done?
            && !SizedAt(r.state.canvas.destinations[k], r.state.destinations[k], r.state.scale)
  {
    ListedHavePaths(st, p);
    var d := st.canvas.destinations[st.listed[p]];
    assert OnLayerDuplicate(st, p, panels) == DuplicateRowAsWritten(st, p, d, panels);
    CopyMisscaled(st, p, d, panels);
  }

  /** The copy of rectangle `d` that the source's duplicate stores at
      n - 1 - p is out of step when `d` has non-zero width and the factor is
      not 1. */
  lemma CopyMisscaled(st: Session, p: nat, d: Rect, panels: Panels)
    requires st.Valid() && p < st.Count() && st.listed[p] in st.paths
    requires st.scale != 1.0 && d.w != 0.0
    ensures var r := DuplicateRowAsWritten(st, p, d, panels).state;
            var k := st.Count() - 1 - p;
            !SizedAt(r.canvas.destinations[k], r.destinations[k], r.scale)
  {
    var k := st.Count() - 1 - p;
    var r := DuplicateRowAsWritten(st, p, d, panels).state;
    InsertedOutOfStep(st.canvas.destinations, st.destinations, k, d, st.scale);
    assert r.canvas.destinations == InsertAt(st.canvas.destinations, k, d);
    assert r.destinations == InsertAt(st.destinations, k, d);
  }

  /** One rectangle of non-zero width inserted as both the canvas and the
      unscaled rectangle is out of step at any factor other than 1. */
  lemma InsertedOutOfStep(canvas: Store, unscaled: Store, k: nat, d: Rect, f: real)
    requires k <= |canvas| && k <= |unscaled| && d.w != 0.0 && f != 1.0
    ensures !SizedAt(InsertAt(canvas, k, d)[k], InsertAt(unscaled, k, d)[k], f)
  {
    FactorChanges(d.w, f);
  }
}
