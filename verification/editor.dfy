/** The layer handlers of the main window, over an explicit session state.

    Storage order is bottom layer first: position 0 is drawn first. The layer
    list in the inspector shows the topmost layer first, so a selection `p` in
    the list is turned into storage position n - 1 - p by indexing with
    `Mirror(p)` = -(p + 1). The canvas and the minimap each keep their own copy
    of the order, the visibility flags and the destination rectangles; the main
    window keeps the unscaled (zoom level 0) destinations, the id -> file map and
    the bitmap cache.

    A handler returns `Done(state)` or, when the source raises, `Raised(fault,
    state)` with the state as the source leaves it at that point. */
module Editor {
  import opened Errors
  import opened Positional
  import opened Rects
  import Zoom
  import Minimap

  /** Per-view layer bookkeeping (`canvas.order`, `canvas.visibility`,
      `canvas.destinations`, and the same on the minimap). */
  datatype View = View(order: seq<nat>, visibility: seq<bool>, destinations: Store)

  /** Panel sizes in pixels, as read from the widgets. */
  datatype Panels = Panels(minimapW: nat, minimapH: nat, canvasW: nat, canvasH: nat)

  datatype Key = ArrowLeft | ArrowUp | ArrowRight | ArrowDown | OtherKey

  /** The main window's state.
      - counter: the next layer id;
      - paths: layer id -> temporary image file, a file being named after the
        counter value at its import (the canvas and minimap copies of this map
        are always equal to it and are not kept separately);
      - bitmaps: the files with a loaded bitmap (the keys of the three bitmap
        caches, which are always the same);
      - destinations: the unscaled destination per layer, in storage order;
      - listed: the id of each row of the layer list, topmost layer first;
      - scale: the canvas scale factor; minimapScale: the factor the minimap
        bitmaps were last resampled for; camera: the minimap camera;
      - mouseX, mouseY: the last recorded cursor position. */
  datatype Session = Session(
    counter: nat,
    paths: map<nat, nat>,
    bitmaps: set<nat>,
    destinations: Store,
    canvas: View,
    minimap: View,
    listed: seq<nat>,
    scale: real,
    minimapScale: real,
    camera: Rect,
    mouseX: int,
    mouseY: int)
  {
    /** The number of layers. */
    function Count(): nat {
      |canvas.order|
    }

    /** The stores of the canvas, the minimap and the main window have one
        entry per layer, and the canvas scale factor is positive (the zoom
        divides by it). The layer list is updated after the minimap in the add
        and duplicate handlers, so the minimap update only relies on this. */
    predicate Aligned() {
      var n := |canvas.order|;
      && |canvas.visibility| == n && |canvas.destinations| == n
      && |minimap.order| == n && |minimap.visibility| == n && |minimap.destinations| == n
      && |destinations| == n
      && scale > 0.0
    }

    /** All parallel sequences, the layer list included, have one entry per
        layer. */
    predicate Valid() {
      Aligned() && |listed| == |canvas.order|
    }
  }

  datatype Outcome = Done(state: Session) | Raised(fault: Fault, state: Session)

  /** `reset()`: no layers, counter 0, canvas at scale 1. */
  function Reset(): (s: Session)
    ensures s.Valid() && s.Count() == 0 && s.counter == 0
  {
    Session(0, map[], {}, [], View([], [], []), View([], [], []), [], 1.0, 1.0,
            Rect(0.0, 0.0, 0.0, 0.0), 0, 0)
  }

  // ---------------------------------------------------------------------------
  // __update_minimap

  /** Recomputes the minimap destinations and camera from the canvas
      destinations. With no layers numpy's `.min()` raises before anything is
      assigned. A zero-width or zero-height bounding box would divide by zero;
      the update is then skipped. The cached minimap factor is replaced only
      when `resize` is set and the fit factor differs from it. */
  function RefreshMinimap(st: Session, panels: Panels, resize: bool): (r: Outcome)
    requires st.Aligned()
    ensures r.state.Aligned()
    ensures st.Valid() ==> r.state.Valid()
    ensures r.Raised? <==> st.Count() == 0
    ensures r.Raised? ==> r.fault == ValueError && r.state == st
    ensures && r.state.counter == st.counter && r.state.paths == st.paths && r.state.bitmaps == st.bitmaps
            && r.state.destinations == st.destinations && r.state.canvas == st.canvas
            && r.state.minimap.order == st.minimap.order && r.state.minimap.visibility == st.minimap.visibility
            && r.state.listed == st.listed && r.state.scale == st.scale
            && r.state.mouseX == st.mouseX && r.state.mouseY == st.mouseY
    ensures !resize ==> r.state.minimapScale == st.minimapScale
    ensures var m := Minimap.Recompute(st.canvas.destinations, panels.minimapW, panels.minimapH,
                                       panels.canvasW, panels.canvasH);
            m.Projected? ==> && r.state.minimap.destinations == m.destinations
                             && r.state.camera == m.camera
                             && (resize ==> r.state.minimapScale == m.factor)
  {
    match Minimap.Recompute(st.canvas.destinations, panels.minimapW, panels.minimapH,
                            panels.canvasW, panels.canvasH)
    case EmptyCanvas => Raised(ValueError, st)
    case ZeroExtent => Done(st)
    case Projected(d, c, f) =>
      Done(st.(minimap := st.minimap.(destinations := d), camera := c,
               minimapScale := Minimap.CachedScale(st.minimapScale, f, resize)))
  }

  /** The tail of the add and duplicate handlers: the minimap update with
      resampling, then the layer list and the counter, which are set only
      after it. With at least one layer the update cannot raise. */
  function RefreshThenList(st: Session, panels: Panels, listed: seq<nat>, counter: nat): (r: Outcome)
    requires st.Aligned() && st.Count() > 0 && |listed| == st.Count()
    ensures r.Done? && r.state.Valid()
    ensures r.state.canvas == st.canvas && r.state.destinations == st.destinations
    ensures r.state.minimap.order == st.minimap.order && r.state.minimap.visibility == st.minimap.visibility
    ensures r.state.paths == st.paths && r.state.bitmaps == st.bitmaps && r.state.scale == st.scale
    ensures r.state.listed == listed && r.state.counter == counter
  {
    match RefreshMinimap(st, panels, true)
    case Raised(e, s) => Raised(e, s)
    case Done(s) => Done(s.(listed := listed, counter := counter))
  }

  // ---------------------------------------------------------------------------
  // __on_layer_add

  /** A new layer `id` with unscaled destination `dest` appended on top of
      every store, before the minimap update; it reuses the file of the same
      number. */
  function Admit(st: Session, id: nat, dest: Rect): (s: Session)
    requires st.Valid()
    ensures s.Aligned() && s.Count() == st.Count() + 1 && s.listed == st.listed
    ensures s.canvas.order == st.canvas.order + [id] && s.minimap.order == st.minimap.order + [id]
    ensures s.canvas.visibility == st.canvas.visibility + [false]
    ensures s.minimap.visibility == st.minimap.visibility + [false]
    ensures s.destinations == st.destinations + [dest]
    ensures s.canvas.destinations == st.canvas.destinations + [Scale(dest, st.scale)]
    ensures s.minimap.destinations == st.minimap.destinations + [dest]
    ensures s.paths == st.paths[id := id] && s.bitmaps == st.bitmaps + {id}
    ensures s.counter == st.counter && s.scale == st.scale
  {
    st.(
      paths := st.paths[id := id],
      bitmaps := st.bitmaps + {id},
      destinations := Append(st.destinations, dest),
      canvas := View(Append(st.canvas.order, id), Append(st.canvas.visibility, false),
                     Append(st.canvas.destinations, Scale(dest, st.scale))),
      minimap := View(Append(st.minimap.order, id), Append(st.minimap.visibility, false),
                      Append(st.minimap.destinations, dest)))
  }

  /** Imports a `w` x `h` image as a new layer on top: the unscaled, canvas and
      minimap stores each get it appended (the canvas copy scaled to the current
      zoom), the layer starts hidden, the list shows it first, and the counter
      moves on. Copying and decoding the image file are not modelled. */
  function OnLayerAdd(st: Session, w: nat, h: nat, panels: Panels): (r: Outcome)
    requires st.Valid()
    ensures r.Done? && r.state.Valid()
    ensures r.state.Count() == st.Count() + 1
    ensures r.state.canvas.order == st.canvas.order + [st.counter]
    ensures r.state.minimap.order == st.minimap.order + [st.counter]
    ensures r.state.canvas.visibility == st.canvas.visibility + [false]
    ensures r.state.minimap.visibility == st.minimap.visibility + [false]
    ensures r.state.destinations == st.destinations + [Rect(0.0, 0.0, w as real, h as real)]
    ensures r.state.canvas.destinations
         == st.canvas.destinations + [Scale(Rect(0.0, 0.0, w as real, h as real), st.scale)]
    ensures r.state.listed == [st.counter] + st.listed
    ensures r.state.paths == st.paths[st.counter := st.counter]
    ensures r.state.bitmaps == st.bitmaps + {st.counter}
    ensures r.state.counter == st.counter + 1
  {
    var added := Admit(st, st.counter, Rect(0.0, 0.0, w as real, h as real));
    RefreshThenList(added, panels, [st.counter] + st.listed, st.counter + 1)
  }

  // ---------------------------------------------------------------------------
  // __on_layer_duplicate

  /** A copy of a layer, numbered `id` and using `file`, inserted hidden at
      storage position `k` of every store before the minimap update: `dest` in
      the canvas and the minimap, `unscaled` in the main window's store. */
  function Copy(st: Session, k: nat, id: nat, file: nat, dest: Rect, mini: Rect, unscaled: Rect): (s: Session)
    requires st.Valid() && k <= st.Count()
    ensures s.Aligned() && s.Count() == st.Count() + 1 && s.listed == st.listed
    ensures s.canvas.order == InsertAt(st.canvas.order, k, id)
    ensures s.minimap.order == InsertAt(st.minimap.order, k, id)
    ensures s.canvas.visibility == InsertAt(st.canvas.visibility, k, false)
    ensures s.minimap.visibility == InsertAt(st.minimap.visibility, k, false)
    ensures s.canvas.destinations == InsertAt(st.canvas.destinations, k, dest)
    ensures s.minimap.destinations == InsertAt(st.minimap.destinations, k, mini)
    ensures s.destinations == InsertAt(st.destinations, k, unscaled)
    ensures s.paths == st.paths[id := file] && s.bitmaps == st.bitmaps
    ensures s.counter == st.counter && s.scale == st.scale
  {
    st.(
      paths := st.paths[id := file],
      destinations := InsertAt(st.destinations, k, unscaled),
      canvas := View(InsertAt(st.canvas.order, k, id), InsertAt(st.canvas.visibility, k, false),
                     InsertAt(st.canvas.destinations, k, dest)),
      minimap := View(InsertAt(st.minimap.order, k, id), InsertAt(st.minimap.visibility, k, false),
                      InsertAt(st.minimap.destinations, k, mini)))
  }

  /** Duplicates the layer selected at list row `p`, as the source does: the
      rectangle copied is `canvas.destinations[id]`, indexed by the layer's id
      rather than its position, and it is inserted into the unscaled store as
      well; every store inserts at `Mirror(p)`, which puts the copy at storage
      position n - 1 - p, below the source, while the list shows the copy at
      row p, above the source. */
  function OnLayerDuplicate(st: Session, p: int, panels: Panels): (r: Outcome)
    requires st.Valid()
    ensures r.state.Valid()
    ensures r.Raised? ==> r.state == st
    ensures !(0 <= p < |st.listed|) ==> r == Raised(IndexError, st)
    ensures 0 <= p < |st.listed| && st.listed[p] !in st.paths ==> r == Raised(KeyError, st)
    ensures 0 <= p < |st.listed| && st.listed[p] in st.paths && st.listed[p] >= st.Count() ==>
              r == Raised(IndexError, st)
    ensures r.Done? ==>
              && 0 <= p < st.Count() && st.listed[p] in st.paths && st.listed[p] < st.Count()
              && r == DuplicateRowAsWritten(st, p, st.canvas.destinations[st.listed[p]], panels)
  {
    if !(0 <= p < |st.listed|) then Raised(IndexError, st)
    else
      var id := st.listed[p];
      if id !in st.paths then Raised(KeyError, st)
      else
        match Get(st.canvas.destinations, id)
        case Err(e) => Raised(e, st)
        case Ok(dest) => DuplicateRowAsWritten(st, p, dest, panels)
  }

  /** The source's duplicate of list row `p` once the rectangle `dest` has
      been read: `dest` goes into every store at `Mirror(p)`. */
  function DuplicateRowAsWritten(st: Session, p: nat, dest: Rect, panels: Panels): (r: Outcome)
    requires st.Valid() && p < |st.listed| && st.listed[p] in st.paths
    ensures r.Done? && r.state.Valid()
    ensures var n := st.Count();
            && r.state.Count() == n + 1
            && r.state.canvas.order == InsertAt(st.canvas.order, n - 1 - p, st.counter)
            && r.state.canvas.visibility == InsertAt(st.canvas.visibility, n - 1 - p, false)
            && r.state.minimap.order == InsertAt(st.minimap.order, n - 1 - p, st.counter)
            && r.state.minimap.visibility == InsertAt(st.minimap.visibility, n - 1 - p, false)
            && r.state.canvas.destinations == InsertAt(st.canvas.destinations, n - 1 - p, dest)
            && r.state.destinations == InsertAt(st.destinations, n - 1 - p, dest)
            && r.state.listed == InsertAt(st.listed, p, st.counter)
            && r.state.paths == st.paths[st.counter := st.paths[st.listed[p]]]
            && r.state.bitmaps == st.bitmaps
            && r.state.counter == st.counter + 1 && r.state.scale == st.scale
  {
    var n := st.Count();
    MirrorResolves(p, n);
    var copied := Copy(st, Norm(Mirror(p), n), st.counter, st.paths[st.listed[p]], dest, dest, dest);
    RefreshThenList(copied, panels, InsertAt(st.listed, p, st.counter), st.counter + 1)
  }

  /** The duplicate handler with its three slips corrected: the source layer is
      read at its storage position n - 1 - p, the unscaled store receives the
      source's unscaled rectangle, and the copy goes to storage position n - p,
      just above the source, matching the list, which shows it at row p. */
  function OnLayerDuplicateFixed(st: Session, p: int, panels: Panels): (r: Outcome)
    requires st.Valid()
    ensures r.state.Valid()
    ensures r.Raised? ==> r.state == st
    ensures r.Done? <==> 0 <= p < |st.listed| && st.listed[p] in st.paths
    ensures r.Done? ==>
              var n := st.Count();
              && r.state.Count() == n + 1
              && r.state.canvas.order == InsertAt(st.canvas.order, n - p, st.counter)
              && r.state.canvas.visibility == InsertAt(st.canvas.visibility, n - p, false)
              && r.state.minimap.order == InsertAt(st.minimap.order, n - p, st.counter)
              && r.state.minimap.visibility == InsertAt(st.minimap.visibility, n - p, false)
              && r.state.canvas.destinations
                 == InsertAt(st.canvas.destinations, n - p, st.canvas.destinations[n - 1 - p])
              && r.state.destinations == InsertAt(st.destinations, n - p, st.destinations[n - 1 - p])
              && r.state.listed == InsertAt(st.listed, p, st.counter)
              && r.state.paths == st.paths[st.counter := st.paths[st.listed[p]]]
              && r.state.bitmaps == st.bitmaps
              && r.state.counter == st.counter + 1
  {
    if !(0 <= p < |st.listed|) then Raised(IndexError, st)
    else if st.listed[p] !in st.paths then Raised(KeyError, st)
    else DuplicateRow(st, p, panels)
  }

  /** The corrected duplicate of list row `p` once its id has a file. */
  function DuplicateRow(st: Session, p: nat, panels: Panels): (r: Outcome)
    requires st.Valid() && p < |st.listed| && st.listed[p] in st.paths
    ensures r.Done? && r.state.Valid()
    ensures var n := st.Count();
            && r.state.Count() == n + 1
            && r.state.canvas.order == InsertAt(st.canvas.order, n - p, st.counter)
            && r.state.canvas.visibility == InsertAt(st.canvas.visibility, n - p, false)
            && r.state.minimap.order == InsertAt(st.minimap.order, n - p, st.counter)
            && r.state.minimap.visibility == InsertAt(st.minimap.visibility, n - p, false)
            && r.state.canvas.destinations
               == InsertAt(st.canvas.destinations, n - p, st.canvas.destinations[n - 1 - p])
            && r.state.destinations == InsertAt(st.destinations, n - p, st.destinations[n - 1 - p])
            && r.state.listed == InsertAt(st.listed, p, st.counter)
            && r.state.paths == st.paths[st.counter := st.paths[st.listed[p]]]
            && r.state.bitmaps == st.bitmaps
            && r.state.counter == st.counter + 1 && r.state.scale == st.scale
  {
    RefreshThenList(CopyRow(st, p), panels, InsertAt(st.listed, p, st.counter), st.counter + 1)
  }

  /** The corrected copy of list row `p` before the minimap update: the source
      layer is at storage position n - 1 - p, where `Mirror(p)` resolves, and
      its own rectangles go in just above it. */
  function CopyRow(st: Session, p: nat): (c: Session)
    requires st.Valid() && p < |st.listed| && st.listed[p] in st.paths
    ensures var n := st.Count();
            && c.Aligned() && c.Count() == n + 1 && c.listed == st.listed
            && c.canvas.order == InsertAt(st.canvas.order, n - p, st.counter)
            && c.minimap.order == InsertAt(st.minimap.order, n - p, st.counter)
            && c.canvas.visibility == InsertAt(st.canvas.visibility, n - p, false)
            && c.minimap.visibility == InsertAt(st.minimap.visibility, n - p, false)
            && c.canvas.destinations == InsertAt(st.canvas.destinations, n - p, st.canvas.destinations[n - 1 - p])
            && c.minimap.destinations == InsertAt(st.minimap.destinations, n - p, st.minimap.destinations[n - 1 - p])
            && c.destinations == InsertAt(st.destinations, n - p, st.destinations[n - 1 - p])
            && c.paths == st.paths[st.counter := st.paths[st.listed[p]]] && c.bitmaps == st.bitmaps
            && c.counter == st.counter && c.scale == st.scale
  {
    var n, id := st.Count(), st.listed[p];
    Copy(st, n - p, st.counter, st.paths[id], st.canvas.destinations[n - 1 - p],
         st.minimap.destinations[n - 1 - p], st.destinations[n - 1 - p])
  }

  // ---------------------------------------------------------------------------
  // __on_layer_remove

  /** Whether some layer other than `id` still uses `file`. */
  predicate FileStillUsed(paths: map<nat, nat>, id: nat, file: nat) {
    exists other :: other in paths && other != id && paths[other] == file
  }

  /** The bitmap cache after layer `id` is dropped: its file is evicted exactly
      when no other layer uses it. */
  function Evict(bitmaps: set<nat>, paths: map<nat, nat>, id: nat): (r: set<nat>)
    requires id in paths
    ensures paths[id] in r <==> paths[id] in bitmaps && FileStillUsed(paths, id, paths[id])
    ensures forall f :: f != paths[id] ==> (f in r <==> f in bitmaps)
  {
    var file, remaining := paths[id], paths - {id};
    assert file in remaining.Values <==> FileStillUsed(paths, id, file) by {
      if FileStillUsed(paths, id, file) {
        var other :| other in paths && other != id && paths[other] == file;
        assert remaining[other] == file;
      }
    }
    if file in remaining.Values then bitmaps else bitmaps - {file}
  }

  /** The removal of the layer at list row `p`, storage position `k`, before
      the minimap update. */
  function Forget(st: Session, p: nat, k: nat): (s: Session)
    requires st.Valid() && p < st.Count() && k == st.Count() - 1 - p && st.listed[p] in st.paths
    ensures s.Valid() && s.Count() + 1 == st.Count()
    ensures s.canvas.order == RemoveAt(st.canvas.order, k)
    ensures s.minimap.order == RemoveAt(st.minimap.order, k)
    ensures s.canvas.visibility == RemoveAt(st.canvas.visibility, k)
    ensures s.minimap.visibility == RemoveAt(st.minimap.visibility, k)
    ensures s.canvas.destinations == RemoveAt(st.canvas.destinations, k)
    ensures s.minimap.destinations == RemoveAt(st.minimap.destinations, k)
    ensures s.destinations == RemoveAt(st.destinations, k)
    ensures s.listed == RemoveAt(st.listed, p)
    ensures s.paths == st.paths - {st.listed[p]}
    ensures s.bitmaps == Evict(st.bitmaps, st.paths, st.listed[p])
    ensures s.counter == st.counter && s.scale == st.scale
  {
    var id := st.listed[p];
    st.(
      paths := st.paths - {id},
      bitmaps := Evict(st.bitmaps, st.paths, id),
      destinations := RemoveAt(st.destinations, k),
      listed := RemoveAt(st.listed, p),
      canvas := View(RemoveAt(st.canvas.order, k), RemoveAt(st.canvas.visibility, k),
                     RemoveAt(st.canvas.destinations, k)),
      minimap := View(RemoveAt(st.minimap.order, k), RemoveAt(st.minimap.visibility, k),
                      RemoveAt(st.minimap.destinations, k)))
  }

  /** Removes the layer selected at list row `p` from every store at storage
      position n - 1 - p and its id from the path map; its file leaves the
      bitmap cache exactly when no remaining layer uses it. The final minimap
      update raises ValueError when the last layer was removed. */
  function OnLayerRemove(st: Session, p: int, panels: Panels): (r: Outcome)
    requires st.Valid()
    ensures r.state.Valid()
    ensures !(0 <= p < |st.listed|) ==> r == Raised(IndexError, st)
    ensures 0 <= p < |st.listed| && st.listed[p] !in st.paths ==> r == Raised(KeyError, st)
    ensures 0 <= p < |st.listed| && st.listed[p] in st.paths ==> r == RemoveRow(st, p, panels)
  {
    if !(0 <= p < |st.listed|) then Raised(IndexError, st)
    else if st.listed[p] !in st.paths then Raised(KeyError, st)
    else RemoveRow(st, p, panels)
  }

  /** The removal of list row `p` once its id has a file. */
  function RemoveRow(st: Session, p: nat, panels: Panels): (r: Outcome)
    requires st.Valid() && p < |st.listed| && st.listed[p] in st.paths
    ensures r.state.Valid()
    ensures var n, id := st.Count(), st.listed[p];
            var file := st.paths[id];
            && (r.Raised? <==> n == 1)
            && (r.Raised? ==> r.fault == ValueError)
            && r.state.canvas.order == RemoveAt(st.canvas.order, n - 1 - p)
            && r.state.minimap.order == RemoveAt(st.minimap.order, n - 1 - p)
            && r.state.canvas.visibility == RemoveAt(st.canvas.visibility, n - 1 - p)
            && r.state.minimap.visibility == RemoveAt(st.minimap.visibility, n - 1 - p)
            && r.state.canvas.destinations == RemoveAt(st.canvas.destinations, n - 1 - p)
            && r.state.destinations == RemoveAt(st.destinations, n - 1 - p)
            && r.state.listed == RemoveAt(st.listed, p)
            && r.state.paths == st.paths - {id}
            && (file in r.state.bitmaps <==> file in st.bitmaps && FileStillUsed(st.paths, id, file))
            && (forall f :: f != file ==> (f in r.state.bitmaps <==> f in st.bitmaps))
            && r.state.counter == st.counter
  {
    var n := st.Count();
    MirrorResolves(p, n);
    RefreshMinimap(Forget(st, p, Norm(Mirror(p), n)), panels, true)
  }

  // ---------------------------------------------------------------------------
  // __on_swap_layer

  /** Exchanges the layers at list rows i and j in the canvas and the minimap:
      order, visibility and destinations at storage positions Mirror(i) and
      Mirror(j). The unscaled destinations are left as they were. */
  function OnSwapLayer(st: Session, i: int, j: int): (r: Outcome)
    requires st.Valid()
    ensures r.state.Valid()
    ensures r.Raised? <==> !(InRange(Mirror(i), st.Count()) && InRange(Mirror(j), st.Count()))
    ensures r.Raised? ==> r == Raised(IndexError, st)
    ensures r.Done? ==>
              var a, b := Norm(Mirror(i), st.Count()), Norm(Mirror(j), st.Count());
              && 0 <= a < st.Count() && 0 <= b < st.Count()
              && r.state.canvas.order == SwapAt(st.canvas.order, a, b)
              && r.state.canvas.visibility == SwapAt(st.canvas.visibility, a, b)
              && r.state.canvas.destinations == SwapAt(st.canvas.destinations, a, b)
              && r.state.minimap.order == SwapAt(st.minimap.order, a, b)
              && r.state.minimap.visibility == SwapAt(st.minimap.visibility, a, b)
              && r.state.minimap.destinations == SwapAt(st.minimap.destinations, a, b)
              && r.state == st.(canvas := r.state.canvas, minimap := r.state.minimap)
  {
    var n := st.Count();
    if !(InRange(Mirror(i), n) && InRange(Mirror(j), n)) then Raised(IndexError, st)
    else
      var a, b := Norm(Mirror(i), n), Norm(Mirror(j), n);
      Done(st.(
        canvas := View(SwapAt(st.canvas.order, a, b), SwapAt(st.canvas.visibility, a, b),
                       SwapAt(st.canvas.destinations, a, b)),
        minimap := View(SwapAt(st.minimap.order, a, b), SwapAt(st.minimap.visibility, a, b),
                        SwapAt(st.minimap.destinations, a, b))))
  }

  /** The swap handler corrected to exchange the unscaled destinations too. */
  function OnSwapLayerFixed(st: Session, i: int, j: int): (r: Outcome)
    requires st.Valid()
    ensures r.state.Valid()
    ensures r.Raised? <==> !(InRange(Mirror(i), st.Count()) && InRange(Mirror(j), st.Count()))
    ensures r.Raised? ==> r == Raised(IndexError, st)
    ensures r.Done? ==>
              var a, b := Norm(Mirror(i), st.Count()), Norm(Mirror(j), st.Count());
              && 0 <= a < st.Count() && 0 <= b < st.Count()
              && r.state == OnSwapLayer(st, i, j).state.(destinations := SwapAt(st.destinations, a, b))
  {
    match OnSwapLayer(st, i, j)
    case Raised(e, s) => Raised(e, s)
    case Done(s) =>
      var n := st.Count();
      var a, b := Norm(Mirror(i), n), Norm(Mirror(j), n);
      Done(s.(destinations := SwapAt(st.destinations, a, b)))
  }

  // ---------------------------------------------------------------------------
  // __on_update_visibility

  /** Flips the visibility of the layer selected at list row `p`, in the canvas
      and in the minimap. */
  function OnUpdateVisibility(st: Session, p: int): (r: Outcome)
    requires st.Valid()
    ensures r.state.Valid()
    ensures r.Raised? <==> !InRange(Mirror(p), st.Count())
    ensures r.Raised? ==> r == Raised(IndexError, st)
    ensures r.state.Count() == st.Count()
    ensures r.Done? ==>
              var k := Norm(Mirror(p), st.Count());
              && 0 <= k < st.Count()
              && r.state.canvas.visibility[k] == !st.canvas.visibility[k]
              && r.state.minimap.visibility[k] == !st.minimap.visibility[k]
              && (forall j :: 0 <= j < st.Count() && j != k ==>
                    r.state.canvas.visibility[j] == st.canvas.visibility[j]
                    && r.state.minimap.visibility[j] == st.minimap.visibility[j])
              && r.state == st.(canvas := st.canvas.(visibility := r.state.canvas.visibility),
                                minimap := st.minimap.(visibility := r.state.minimap.visibility))
  {
    var n := st.Count();
    if !InRange(Mirror(p), n) then Raised(IndexError, st)
    else
      var k := Norm(Mirror(p), n);
      Done(st.(
        canvas := st.canvas.(visibility := st.canvas.visibility[k := !st.canvas.visibility[k]]),
        minimap := st.minimap.(visibility := st.minimap.visibility[k := !st.minimap.visibility[k]])))
  }

  // ---------------------------------------------------------------------------
  // __on_key_down, __on_left_down / __on_middle_down, __on_motion

  /** The arrow keys nudge the selected layer by `step` pixels (the source's
      `ceil(scale_factor)`); other keys do nothing. */
  function OnKeyDown(st: Session, key: Key, p: int, step: int): (r: Outcome)
    requires st.Valid()
    ensures r.state.Valid()
    ensures key == OtherKey ==> r == Done(st)
    ensures key != OtherKey ==> (r.Raised? <==> !InRange(Mirror(p), st.Count()))
    ensures r.Raised? ==> r == Raised(IndexError, st)
    ensures r.Done? && key != OtherKey ==>
              var dx := match key case ArrowLeft => -step case ArrowRight => step case _ => 0;
              var dy := match key case ArrowUp => -step case ArrowDown => step case _ => 0;
              r.state == st.(canvas := st.canvas.(
                destinations := Move(st.canvas.destinations, Mirror(p), dx as real, dy as real).value))
  {
    if key == OtherKey then Done(st)
    else
      var dx := match key case ArrowLeft => -step case ArrowRight => step case _ => 0;
      var dy := match key case ArrowUp => -step case ArrowDown => step case _ => 0;
      match Move(st.canvas.destinations, Mirror(p), dx as real, dy as real)
      case Err(e) => Raised(e, st)
      case Ok(d) => Done(st.(canvas := st.canvas.(destinations := d)))
  }

  /** A left or middle button press records the cursor position. */
  function OnPress(st: Session, x: int, y: int): (r: Session)
    requires st.Valid()
    ensures r.Valid()
    ensures r.mouseX == x && r.mouseY == y
    ensures r == st.(mouseX := x, mouseY := y)
  {
    st.(mouseX := x, mouseY := y)
  }

  /** Cursor motion to (x, y). With the left button down the selected layer
      follows the cursor; with the middle button down every canvas layer does
      (camera pan). The minimap is then updated without resampling. */
  function OnMotion(st: Session, leftDown: bool, middleDown: bool, x: int, y: int, p: int, panels: Panels): (r: Outcome)
    requires st.Valid()
    ensures r.state.Valid()
    ensures !leftDown && !middleDown ==> r == Done(st)
    ensures leftDown || middleDown ==> r.state.mouseX == x && r.state.mouseY == y
    ensures r.state.minimapScale == st.minimapScale
    ensures leftDown && !InRange(Mirror(p), st.Count()) ==>
              r == Raised(IndexError, st.(mouseX := x, mouseY := y))
    ensures leftDown && InRange(Mirror(p), st.Count()) ==>
              r.state.canvas.destinations
              == Move(st.canvas.destinations, Mirror(p), (x - st.mouseX) as real, (y - st.mouseY) as real).value
    ensures !leftDown && middleDown ==>
              r.state.canvas.destinations
              == ShiftAll(st.canvas.destinations, (x - st.mouseX) as real, (y - st.mouseY) as real)
    ensures leftDown || middleDown ==>
              r.state.canvas.order == st.canvas.order && r.state.canvas.visibility == st.canvas.visibility
              && r.state.destinations == st.destinations
  {
    if !leftDown && !middleDown then Done(st)
    else
      var dx, dy := (x - st.mouseX) as real, (y - st.mouseY) as real;
      var tracked := st.(mouseX := x, mouseY := y);
      if leftDown then
        match Move(tracked.canvas.destinations, Mirror(p), dx, dy)
        case Err(e) => Raised(e, tracked)
        case Ok(d) => RefreshMinimap(tracked.(canvas := tracked.canvas.(destinations := d)), panels, false)
      else
        RefreshMinimap(tracked.(canvas := tracked.canvas.(destinations := ShiftAll(tracked.canvas.destinations, dx, dy))),
                       panels, false)
  }

  // ---------------------------------------------------------------------------
  // __on_mousewheel

  /** Zooms the canvas about the cursor (x, y) from the current factor to
      `newScale`, the factor `Canvas.zoom` produced for the wheel rotation (the
      current factor when the rotation is 0), then updates the minimap with
      resampling. */
  function OnMouseWheel(st: Session, x: int, y: int, newScale: real, panels: Panels): (r: Outcome)
    requires st.Valid() && newScale > 0.0
    ensures r.state.Valid()
    ensures r.Raised? <==> st.Count() == 0
    ensures r.state.scale == newScale
    ensures r.state.canvas.destinations
         == Zoom.Zoom(st.canvas.destinations, st.destinations, x as real, y as real, st.scale, newScale)
    ensures r.state.canvas.order == st.canvas.order && r.state.canvas.visibility == st.canvas.visibility
    ensures r.state.destinations == st.destinations && r.state.listed == st.listed
  {
    var zoomed := st.(
      scale := newScale,
      canvas := st.canvas.(destinations :=
        Zoom.Zoom(st.canvas.destinations, st.destinations, x as real, y as real, st.scale, newScale)));
    RefreshMinimap(zoomed, panels, true)
  }
}
