/** What the layer handlers keep true of a session, and what they do over
    several events. */
module EditorProofs {
  import opened Errors
  import opened Positional
  import opened Rects
  import opened Editor
  import Zoom
  import Minimap

  // ---------------------------------------------------------------------------
  // The session invariant

  /** The list shows the storage order reversed: row q is storage position
      n - 1 - q. */
  predicate Mirrors(listed: seq<nat>, order: seq<nat>) {
    |listed| == |order| && forall q :: 0 <= q < |listed| ==> listed[q] == order[|order| - 1 - q]
  }

  predicate Distinct(order: seq<nat>) {
    forall a, b :: 0 <= a < b < |order| ==> order[a] != order[b]
  }

  /** Canvas sizes are the unscaled sizes at the current zoom. */
  predicate Scaled(canvas: Store, unscaled: Store, f: real) {
    |canvas| == |unscaled| && forall i :: 0 <= i < |canvas| ==> SizedAt(canvas[i], unscaled[i], f)
  }

  /** A canvas rectangle has its unscaled rectangle's size at factor `f`. */
  predicate SizedAt(c: Rect, u: Rect, f: real) {
    c.w == u.w * f && c.h == u.h * f
  }

  /** Every stored id has a file, every id with a file is stored, and every
      id and every file was issued before the counter's current value (a file
      is named after the counter at its import). */
  predicate Registered(order: seq<nat>, paths: map<nat, nat>, counter: nat) {
    && (forall id :: id in paths ==> id in order && paths[id] < counter)
    && (forall i :: 0 <= i < |order| ==> order[i] in paths && order[i] < counter)
  }

  /** The minimap lists the canvas layers in the same order with the same
      visibility. */
  predicate Synced(st: Session) {
    st.minimap.order == st.canvas.order && st.minimap.visibility == st.canvas.visibility
  }

  /** The bookkeeping the main window relies on between events: the minimap
      follows the canvas, the list mirrors the storage order, every layer id is
      distinct, has a file and was issued by the counter, the bitmap cache
      holds exactly the files in use, and the canvas sizes follow the unscaled
      ones. */
  predicate Coherent(st: Session) {
    && st.Valid()
    && Synced(st)
    && Mirrors(st.listed, st.canvas.order)
    && Distinct(st.canvas.order)
    && Registered(st.canvas.order, st.paths, st.counter)
    && st.bitmaps == st.paths.Values
    && Scaled(st.canvas.destinations, st.destinations, st.scale)
  }

  /** Every row of the list names a layer with a file. */
  lemma ListedHavePaths(st: Session, p: int)
    requires Coherent(st) && 0 <= p < st.Count()
    ensures st.listed[p] in st.paths
    ensures st.listed[p] == st.canvas.order[st.Count() - 1 - p]
  {
    assert st.listed[p] == st.canvas.order[st.Count() - 1 - p];
  }

  // ---------------------------------------------------------------------------
  // How each part of the invariant survives the edits the handlers make

  lemma FreshKeyValues(m: map<nat, nat>, k: nat, v: nat)
    requires k !in m
    ensures m[k := v].Values == m.Values + {v}
  {
    forall f ensures f in m[k := v].Values <==> f in m.Values + {v} {
      if f == v {
        assert m[k := v][k] == v;
      }
      if f in m[k := v].Values {
        var id :| id in m[k := v] && m[k := v][id] == f;
        if id != k {
          assert m[id] == f;
        }
      }
      if f in m.Values {
        var id :| id in m && m[id] == f;
        assert m[k := v][id] == f;
      }
    }
  }

  /** The files still in use after `id` is dropped are what `Evict` keeps of
      the files in use before. */
  lemma RemovedValues(m: map<nat, nat>, id: nat)
    requires id in m
    ensures (m - {id}).Values == Evict(m.Values, m, id)
  {
    var file, rest := m[id], m - {id};
    var kept := Evict(m.Values, m, id);
    forall f ensures f in rest.Values <==> f in kept {
      if f == file {
        if f in rest.Values {
          var other :| other in rest && rest[other] == f;
          assert FileStillUsed(m, id, file);
        }
        if FileStillUsed(m, id, file) {
          var other :| other in m && other != id && m[other] == file;
          assert rest[other] == file;
        }
      } else {
        if f in rest.Values {
          var other :| other in rest && rest[other] == f;
          assert m[other] == f;
        }
        if f in m.Values {
          var other :| other in m && m[other] == f;
          assert rest[other] == f;
        }
      }
    }
  }

  lemma MirrorsPushTop(listed: seq<nat>, order: seq<nat>, c: nat)
    requires Mirrors(listed, order)
    ensures Mirrors([c] + listed, order + [c])
  {
    var l, o := [c] + listed, order + [c];
    forall q | 0 <= q < |l| ensures l[q] == o[|o| - 1 - q] {
      if q > 0 {
        assert l[q] == listed[q - 1];
      }
    }
  }

  lemma MirrorsRemove(listed: seq<nat>, order: seq<nat>, p: nat)
    requires Mirrors(listed, order) && p < |order|
    ensures Mirrors(RemoveAt(listed, p), RemoveAt(order, |order| - 1 - p))
  {
    var l, o := RemoveAt(listed, p), RemoveAt(order, |order| - 1 - p);
    forall q | 0 <= q < |l| ensures l[q] == o[|o| - 1 - q] {
      if q < p {
        assert l[q] == listed[q];
      } else {
        assert l[q] == listed[q + 1];
      }
    }
  }

  lemma MirrorsInsert(listed: seq<nat>, order: seq<nat>, p: nat, k: nat, c: nat)
    requires Mirrors(listed, order) && p < |order| && k == |order| - p
    ensures Mirrors(InsertAt(listed, p, c), InsertAt(order, k, c))
  {
    var l, o := InsertAt(listed, p, c), InsertAt(order, k, c);
    forall q | 0 <= q < |l| ensures l[q] == o[|o| - 1 - q] {
      if q < p {
        assert l[q] == listed[q];
      } else if q > p {
        assert l[q] == listed[q - 1];
      }
    }
  }

  lemma MirrorsSwap(listed: seq<nat>, order: seq<nat>, i: nat, j: nat, a: nat, b: nat)
    requires Mirrors(listed, order) && i < |order| && j < |order|
    requires a == |order| - 1 - i && b == |order| - 1 - j
    ensures Mirrors(SwapAt(listed, i, j), SwapAt(order, a, b))
  {
    var l, o := SwapAt(listed, i, j), SwapAt(order, a, b);
    forall q | 0 <= q < |l| ensures l[q] == o[|o| - 1 - q] {
      if q != i && q != j {
        assert l[q] == listed[q];
      }
    }
  }

  lemma DistinctPushTop(order: seq<nat>, c: nat)
    requires Distinct(order) && c !in order
    ensures Distinct(order + [c])
  {
  }

  lemma DistinctRemove(order: seq<nat>, k: nat)
    requires Distinct(order) && k < |order|
    ensures Distinct(RemoveAt(order, k))
    ensures order[k] !in RemoveAt(order, k)
  {
    var o := RemoveAt(order, k);
    forall a, b | 0 <= a < b < |o| ensures o[a] != o[b] {
      var a', b' := if a < k then a else a + 1, if b < k then b else b + 1;
      assert o[a] == order[a'] && o[b] == order[b'];
    }
  }

  lemma DistinctInsert(order: seq<nat>, k: nat, c: nat)
    requires Distinct(order) && k <= |order| && c !in order
    ensures Distinct(InsertAt(order, k, c))
  {
    var o := InsertAt(order, k, c);
    forall a, b | 0 <= a < b < |o| ensures o[a] != o[b] {
      if a != k && b != k {
        var a', b' := if a < k then a else a - 1, if b < k then b else b - 1;
        assert o[a] == order[a'] && o[b] == order[b'];
      } else if a == k {
        assert o[b] == order[b - 1];
      } else {
        assert o[a] == order[a];
      }
    }
  }

  lemma DistinctSwap(order: seq<nat>, a: nat, b: nat)
    requires Distinct(order) && a < |order| && b < |order|
    ensures Distinct(SwapAt(order, a, b))
  {
    var o := SwapAt(order, a, b);
    forall x, y | 0 <= x < y < |o| ensures o[x] != o[y] {
      var x' := if x == a then b else if x == b then a else x;
      var y' := if y == a then b else if y == b then a else y;
      assert o[x] == order[x'] && o[y] == order[y'];
    }
  }

  lemma RegisteredPushTop(order: seq<nat>, paths: map<nat, nat>, counter: nat)
    requires Registered(order, paths, counter)
    ensures counter !in order && counter !in paths
    ensures Registered(order + [counter], paths[counter := counter], counter + 1)
  {
    var o := order + [counter];
    forall id | id in paths[counter := counter] ensures id in o {
      if id != counter {
        var i :| 0 <= i < |order| && order[i] == id;
        assert o[i] == id;
      }
    }
  }

  lemma RegisteredRemove(order: seq<nat>, paths: map<nat, nat>, counter: nat, k: nat)
    requires Registered(order, paths, counter) && Distinct(order) && k < |order|
    ensures Registered(RemoveAt(order, k), paths - {order[k]}, counter)
  {
    var o := RemoveAt(order, k);
    DistinctRemove(order, k);
    forall i | 0 <= i < |o| ensures o[i] in paths - {order[k]} && o[i] < counter {
      assert o[i] == order[if i < k then i else i + 1];
    }
    forall x | x in paths - {order[k]} ensures x in o {
      var j :| 0 <= j < |order| && order[j] == x;
      assert o[if j < k then j else j - 1] == x;
    }
  }

  lemma RegisteredInsert(order: seq<nat>, paths: map<nat, nat>, counter: nat, k: nat, file: nat)
    requires Registered(order, paths, counter) && k <= |order| && file < counter
    ensures counter !in order && counter !in paths
    ensures Registered(InsertAt(order, k, counter), paths[counter := file], counter + 1)
  {
    InsertedRegistered(order, paths, counter, k, file);
    RegisteredInserted(order, paths, counter, k, file);
  }

  lemma InsertedRegistered(order: seq<nat>, paths: map<nat, nat>, counter: nat, k: nat, file: nat)
    requires Registered(order, paths, counter) && k <= |order|
    ensures forall i :: 0 <= i < |order| + 1 ==>
              InsertAt(order, k, counter)[i] in paths[counter := file] && InsertAt(order, k, counter)[i] < counter + 1
  {
    var o := InsertAt(order, k, counter);
    forall i | 0 <= i < |o| ensures o[i] in paths[counter := file] && o[i] < counter + 1 {
      if i < k {
        assert o[i] == order[i];
      } else if i > k {
        assert o[i] == order[i - 1];
      }
    }
  }

  lemma RegisteredInserted(order: seq<nat>, paths: map<nat, nat>, counter: nat, k: nat, file: nat)
    requires Registered(order, paths, counter) && k <= |order| && file < counter
    ensures forall x :: x in paths[counter := file] ==> x in InsertAt(order, k, counter) && paths[counter := file][x] < counter + 1
  {
    var o := InsertAt(order, k, counter);
    forall x | x in paths[counter := file] ensures x in o && paths[counter := file][x] < counter + 1 {
      if x != counter {
        var j :| 0 <= j < |order| && order[j] == x;
        assert o[if j < k then j else j + 1] == x;
      }
    }
  }

  lemma RegisteredSwap(order: seq<nat>, paths: map<nat, nat>, counter: nat, a: nat, b: nat)
    requires Registered(order, paths, counter) && a < |order| && b < |order|
    ensures Registered(SwapAt(order, a, b), paths, counter)
  {
    var o := SwapAt(order, a, b);
    forall i | 0 <= i < |o| ensures o[i] in paths && o[i] < counter {
      assert o[i] == order[if i == a then b else if i == b then a else i];
    }
    forall x | x in paths ensures x in o {
      var j :| 0 <= j < |order| && order[j] == x;
      assert o[if j == a then b else if j == b then a else j] == x;
    }
  }

  lemma ScaledPushTop(canvas: Store, unscaled: Store, f: real, d: Rect)
    requires Scaled(canvas, unscaled, f)
    ensures Scaled(canvas + [Scale(d, f)], unscaled + [d], f)
  {
    var c, u := canvas + [Scale(d, f)], unscaled + [d];
    forall i | 0 <= i < |c| ensures SizedAt(c[i], u[i], f) {
      if i < |canvas| {
        assert c[i] == canvas[i] && u[i] == unscaled[i];
      }
    }
  }

  lemma ScaledRemove(canvas: Store, unscaled: Store, f: real, k: nat)
    requires Scaled(canvas, unscaled, f) && k < |canvas|
    ensures Scaled(RemoveAt(canvas, k), RemoveAt(unscaled, k), f)
  {
    var c, u := RemoveAt(canvas, k), RemoveAt(unscaled, k);
    forall i | 0 <= i < |c| ensures SizedAt(c[i], u[i], f) {
      var j := if i < k then i else i + 1;
      assert c[i] == canvas[j] && u[i] == unscaled[j];
    }
  }

  lemma ScaledInsert(canvas: Store, unscaled: Store, f: real, k: nat, src: nat)
    requires Scaled(canvas, unscaled, f) && k <= |canvas| && src < |canvas|
    ensures Scaled(InsertAt(canvas, k, canvas[src]), InsertAt(unscaled, k, unscaled[src]), f)
  {
    var c, u := InsertAt(canvas, k, canvas[src]), InsertAt(unscaled, k, unscaled[src]);
    forall i | 0 <= i < |c| ensures SizedAt(c[i], u[i], f) {
      var j := if i < k then i else if i == k then src else i - 1;
      assert c[i] == canvas[j] && u[i] == unscaled[j];
    }
  }

  lemma ScaledSwap(canvas: Store, unscaled: Store, f: real, a: nat, b: nat)
    requires Scaled(canvas, unscaled, f) && a < |canvas| && b < |canvas|
    ensures Scaled(SwapAt(canvas, a, b), SwapAt(unscaled, a, b), f)
  {
    var c, u := SwapAt(canvas, a, b), SwapAt(unscaled, a, b);
    forall i | 0 <= i < |c| ensures SizedAt(c[i], u[i], f) {
      var j := if i == a then b else if i == b then a else i;
      assert c[i] == canvas[j] && u[i] == unscaled[j];
    }
  }

  /** Moving one layer or all of them leaves every size alone. */
  lemma ScaledMove(canvas: Store, unscaled: Store, f: real, i: int, dx: real, dy: real)
    requires Scaled(canvas, unscaled, f) && InRange(i, |canvas|)
    ensures Scaled(Move(canvas, i, dx, dy).value, unscaled, f)
  {
    var c := Move(canvas, i, dx, dy).value;
    forall j | 0 <= j < |c| ensures SizedAt(c[j], unscaled[j], f) {
      assert c[j].w == canvas[j].w && c[j].h == canvas[j].h;
    }
  }

  lemma ScaledShift(canvas: Store, unscaled: Store, f: real, dx: real, dy: real)
    requires Scaled(canvas, unscaled, f)
    ensures Scaled(ShiftAll(canvas, dx, dy), unscaled, f)
  {
    var c := ShiftAll(canvas, dx, dy);
    forall j | 0 <= j < |c| ensures SizedAt(c[j], unscaled[j], f) {
      assert c[j].w == canvas[j].w && c[j].h == canvas[j].h;
    }
  }

  lemma ScaledZoom(canvas: Store, unscaled: Store, ax: real, ay: real, oldF: real, newF: real)
    requires |canvas| == |unscaled| && oldF > 0.0
    ensures Scaled(Zoom.Zoom(canvas, unscaled, ax, ay, oldF, newF), unscaled, newF)
  {
  }

  // ---------------------------------------------------------------------------
  // Preservation, handler by handler

  lemma ResetCoherent()
    ensures Coherent(Reset())
  {
  }

  /** The minimap update touches none of the invariant's parts. */
  lemma RefreshKeepsCoherent(st: Session, panels: Panels, resize: bool)
    requires Coherent(st)
    ensures Coherent(RefreshMinimap(st, panels, resize).state)
  {
  }

  /** The minimap update reads neither the list nor the counter. */
  lemma RefreshIgnoresList(st: Session, panels: Panels, resize: bool, listed: seq<nat>, counter: nat)
    requires st.Aligned()
    ensures RefreshMinimap(st.(listed := listed, counter := counter), panels, resize)
         == match RefreshMinimap(st, panels, resize)
            case Done(s) => Done(s.(listed := listed, counter := counter))
            case Raised(e, s) => Raised(e, s.(listed := listed, counter := counter))
  {
  }

  /** Adding a layer keeps the invariant, and the id it issues was not in use. */
  lemma AddKeepsCoherent(st: Session, w: nat, h: nat, panels: Panels)
    requires Coherent(st)
    ensures st.counter !in st.paths && st.counter !in st.canvas.order
    ensures Coherent(OnLayerAdd(st, w, h, panels).state)
  {
    var c, d := st.counter, Rect(0.0, 0.0, w as real, h as real);
    var added := Admit(st, c, d);
    var mid := added.(listed := [c] + st.listed, counter := c + 1);
    RegisteredPushTop(st.canvas.order, st.paths, c);
    MirrorsPushTop(st.listed, st.canvas.order, c);
    DistinctPushTop(st.canvas.order, c);
    FreshKeyValues(st.paths, c, c);
    ScaledPushTop(st.canvas.destinations, st.destinations, st.scale, d);
    assert Coherent(mid);
    RefreshKeepsCoherent(mid, panels, true);
    RefreshIgnoresList(added, panels, true, mid.listed, mid.counter);
  }

  lemma ForgetKeepsCoherent(st: Session, p: nat)
    requires Coherent(st) && p < st.Count()
    ensures st.listed[p] in st.paths
    ensures Coherent(Forget(st, p, st.Count() - 1 - p))
  {
    var k := st.Count() - 1 - p;
    ListedHavePaths(st, p);
    MirrorsRemove(st.listed, st.canvas.order, p);
    DistinctRemove(st.canvas.order, k);
    RegisteredRemove(st.canvas.order, st.paths, st.counter, k);
    RemovedValues(st.paths, st.listed[p]);
    ScaledRemove(st.canvas.destinations, st.destinations, st.scale, k);
  }

  /** Removing a layer keeps the invariant, whether it succeeds, finds no
      selection, or raises in the final minimap update after removing the
      last layer; a coherent session never makes it raise KeyError. */
  lemma RemoveKeepsCoherent(st: Session, p: int, panels: Panels)
    requires Coherent(st)
    ensures Coherent(OnLayerRemove(st, p, panels).state)
    ensures OnLayerRemove(st, p, panels).Raised? ==>
              OnLayerRemove(st, p, panels).fault == (if 0 <= p < st.Count() then ValueError else IndexError)
  {
    if 0 <= p < st.Count() {
      ForgetKeepsCoherent(st, p);
      var forgotten := Forget(st, p, st.Count() - 1 - p);
      RefreshKeepsCoherent(forgotten, panels, true);
      RemoveSteps(st, p, panels);
    }
  }

  /** A removal of a listed layer with a file is the removal from every store,
      then the minimap update with resampling. */
  lemma RemoveSteps(st: Session, p: nat, panels: Panels)
    requires st.Valid() && p < st.Count() && st.listed[p] in st.paths
    ensures OnLayerRemove(st, p, panels) == RefreshMinimap(Forget(st, p, st.Count() - 1 - p), panels, true)
  {
    MirrorResolves(p, st.Count());
  }

  /** The corrected duplicate keeps the invariant: the copy gets a fresh id,
      shares its source's file, sits just above it in storage and in the
      list, and has its source's unscaled size. */
  lemma DuplicateFixedKeepsCoherent(st: Session, p: int, panels: Panels)
    requires Coherent(st)
    ensures Coherent(OnLayerDuplicateFixed(st, p, panels).state)
    ensures OnLayerDuplicateFixed(st, p, panels).Done? <==> 0 <= p < st.Count()
  {
    if 0 <= p < st.Count() {
      var copied, mid := CopyKeepsCoherent(st, p);
      RefreshKeepsCoherent(mid, panels, true);
      DuplicateFixedSteps(st, p, panels, copied, mid);
    }
  }

  /** The corrected duplicate is the copy, then the minimap update, then the
      list row and the counter. */
  lemma DuplicateFixedSteps(st: Session, p: nat, panels: Panels, copied: Session, mid: Session)
    requires Coherent(st) && p < st.Count()
    requires st.listed[p] in st.paths && copied == CopyRow(st, p)
    requires mid == copied.(listed := InsertAt(st.listed, p, st.counter), counter := st.counter + 1)
    ensures OnLayerDuplicateFixed(st, p, panels) == RefreshMinimap(mid, panels, true)
  {
    assert OnLayerDuplicateFixed(st, p, panels) == RefreshThenList(copied, panels, mid.listed, mid.counter);
    ThenListIsRefresh(copied, panels, mid.listed, mid.counter);
  }

  /** Setting the list and the counter after the minimap update is the same
      as setting them before it. */
  lemma ThenListIsRefresh(st: Session, panels: Panels, listed: seq<nat>, counter: nat)
    requires st.Aligned() && st.Count() > 0 && |listed| == st.Count()
    ensures RefreshThenList(st, panels, listed, counter)
         == RefreshMinimap(st.(listed := listed, counter := counter), panels, true)
  {
    RefreshIgnoresList(st, panels, true, listed, counter);
  }

  /** The corrected copy, list row included, before the minimap update. */
  lemma CopyKeepsCoherent(st: Session, p: nat) returns (copied: Session, mid: Session)
    requires Coherent(st) && p < st.Count()
    ensures st.listed[p] in st.paths && copied == CopyRow(st, p)
    ensures copied.Aligned()
    ensures mid == copied.(listed := InsertAt(st.listed, p, st.counter), counter := st.counter + 1)
    ensures Coherent(mid)
  {
    var n, c := st.Count(), st.counter;
    ListedHavePaths(st, p);
    var id := st.listed[p];
    copied := CopyRow(st, p);
    mid := copied.(listed := InsertAt(st.listed, p, c), counter := c + 1);
    RegisteredInsert(st.canvas.order, st.paths, c, n - p, st.paths[id]);
    MirrorsInsert(st.listed, st.canvas.order, p, n - p, c);
    DistinctInsert(st.canvas.order, n - p, c);
    FreshKeyValues(st.paths, c, st.paths[id]);
    ScaledInsert(st.canvas.destinations, st.destinations, st.scale, n - p, n - 1 - p);
  }

  /** The corrected swap keeps the invariant once the list has exchanged the
      same two rows (the sender of the swap event is not part of this model). */
  lemma SwapFixedKeepsCoherent(st: Session, i: int, j: int)
    requires Coherent(st) && 0 <= i < st.Count() && 0 <= j < st.Count()
    ensures OnSwapLayerFixed(st.(listed := SwapAt(st.listed, i, j)), i, j).Done?
    ensures Coherent(OnSwapLayerFixed(st.(listed := SwapAt(st.listed, i, j)), i, j).state)
  {
    var n := st.Count();
    var a, b := n - 1 - i, n - 1 - j;
    var listedSwapped := st.(listed := SwapAt(st.listed, i, j));
    assert listedSwapped.Valid() && listedSwapped.Count() == n;
    SwapFixedResult(listedSwapped, i, j);
    var r := OnSwapLayerFixed(listedSwapped, i, j).state;
    assert SwappedAt(listedSwapped, r, a, b);
    assert listedSwapped.canvas == st.canvas && listedSwapped.minimap == st.minimap;
    assert listedSwapped.destinations == st.destinations && listedSwapped.paths == st.paths;
    SwappedKeepsCoherent(st, r, i, j, a, b);
  }

  /** `r` is `st` with storage positions a and b exchanged in every store;
      the list, the file map, the cache, the counter and the factor are kept. */
  ghost predicate SwappedAt(st: Session, r: Session, a: nat, b: nat)
    requires st.Valid() && a < st.Count() && b < st.Count()
  {
    && r.Valid()
    && r.canvas.order == SwapAt(st.canvas.order, a, b)
    && r.canvas.visibility == SwapAt(st.canvas.visibility, a, b)
    && r.canvas.destinations == SwapAt(st.canvas.destinations, a, b)
    && r.minimap.order == SwapAt(st.minimap.order, a, b)
    && r.minimap.visibility == SwapAt(st.minimap.visibility, a, b)
    && r.destinations == SwapAt(st.destinations, a, b)
    && r.listed == st.listed && r.paths == st.paths && r.bitmaps == st.bitmaps
    && r.counter == st.counter && r.scale == st.scale
  }

  /** The corrected swap of two listed rows, in the terms of `SwappedAt`. */
  lemma SwapFixedResult(st: Session, i: nat, j: nat)
    requires st.Valid() && i < st.Count() && j < st.Count()
    ensures OnSwapLayerFixed(st, i, j).Done?
    ensures SwappedAt(st, OnSwapLayerFixed(st, i, j).state, st.Count() - 1 - i, st.Count() - 1 - j)
  {
    MirrorResolves(i, st.Count());
    MirrorResolves(j, st.Count());
  }

  /** Exchanging storage positions a and b, with the list exchanging the
      mirrored rows i and j, keeps the invariant. */
  lemma SwappedKeepsCoherent(st: Session, r: Session, i: nat, j: nat, a: nat, b: nat)
    requires Coherent(st) && i < st.Count() && j < st.Count()
    requires a == |st.canvas.order| - 1 - i && b == |st.canvas.order| - 1 - j
    requires r.Valid() && r.listed == SwapAt(st.listed, i, j)
    requires r.canvas.order == SwapAt(st.canvas.order, a, b)
    requires r.canvas.visibility == SwapAt(st.canvas.visibility, a, b)
    requires r.canvas.destinations == SwapAt(st.canvas.destinations, a, b)
    requires r.minimap.order == SwapAt(st.minimap.order, a, b)
    requires r.minimap.visibility == SwapAt(st.minimap.visibility, a, b)
    requires r.destinations == SwapAt(st.destinations, a, b)
    requires r.paths == st.paths && r.bitmaps == st.bitmaps && r.counter == st.counter && r.scale == st.scale
    ensures Coherent(r)
  {
    MirrorsSwap(st.listed, st.canvas.order, i, j, a, b);
    DistinctSwap(st.canvas.order, a, b);
    RegisteredSwap(st.canvas.order, st.paths, st.counter, a, b);
    ScaledSwap(st.canvas.destinations, st.destinations, st.scale, a, b);
  }

  /** A button press keeps the invariant. */
  lemma PressKeepsCoherent(st: Session, x: int, y: int)
    requires Coherent(st)
    ensures Coherent(OnPress(st, x, y))
  {
  }

  /** A press followed by a drag that ends where the press was moves no layer:
      the drag measures the cursor's travel from the recorded press. */
  lemma PressThenStillDragMovesNothing(st: Session, x: int, y: int, p: int, panels: Panels)
    requires st.Valid() && InRange(Mirror(p), st.Count())
    ensures OnMotion(OnPress(st, x, y), true, false, x, y, p, panels).state.canvas.destinations
            == st.canvas.destinations
  {
    var pressed := OnPress(st, x, y);
    DragResult(pressed, x, y, p, panels);
    var k := Norm(Mirror(p), st.Count());
    assert Translate(st.canvas.destinations[k], 0.0, 0.0) == st.canvas.destinations[k];
    assert st.canvas.destinations[k := st.canvas.destinations[k]] == st.canvas.destinations;
  }

  /** Toggling visibility keeps the invariant. */
  lemma VisibilityKeepsCoherent(st: Session, p: int)
    requires Coherent(st)
    ensures Coherent(OnUpdateVisibility(st, p).state)
  {
  }

  /** Nudging a layer keeps the invariant. */
  lemma KeyDownKeepsCoherent(st: Session, key: Key, p: int, step: int)
    requires Coherent(st)
    ensures Coherent(OnKeyDown(st, key, p, step).state)
  {
    var dx := match key case ArrowLeft => -step case ArrowRight => step case _ => 0;
    var dy := match key case ArrowUp => -step case ArrowDown => step case _ => 0;
    if key != OtherKey && InRange(Mirror(p), st.Count()) {
      ScaledMove(st.canvas.destinations, st.destinations, st.scale, Mirror(p), dx as real, dy as real);
    }
  }

  /** Dragging a layer or panning the camera keeps the invariant. */
  lemma MotionKeepsCoherent(st: Session, leftDown: bool, middleDown: bool, x: int, y: int, p: int, panels: Panels)
    requires Coherent(st)
    ensures Coherent(OnMotion(st, leftDown, middleDown, x, y, p, panels).state)
  {
    if leftDown {
      DragKeepsCoherent(st, middleDown, x, y, p, panels);
    } else if middleDown {
      PanKeepsCoherent(st, x, y, p, panels);
    }
  }

  lemma DragKeepsCoherent(st: Session, middleDown: bool, x: int, y: int, p: int, panels: Panels)
    requires Coherent(st)
    ensures Coherent(OnMotion(st, true, middleDown, x, y, p, panels).state)
  {
    var dx, dy := (x - st.mouseX) as real, (y - st.mouseY) as real;
    if InRange(Mirror(p), st.Count()) {
      var d := Move(st.canvas.destinations, Mirror(p), dx, dy).value;
      ScaledMove(st.canvas.destinations, st.destinations, st.scale, Mirror(p), dx, dy);
      CanvasEditKeepsCoherent(st, d, x, y);
      var moved := st.(mouseX := x, mouseY := y, canvas := st.canvas.(destinations := d));
      RefreshKeepsCoherent(moved, panels, false);
      DragSteps(st, middleDown, x, y, p, panels);
    }
  }

  lemma PanKeepsCoherent(st: Session, x: int, y: int, p: int, panels: Panels)
    requires Coherent(st)
    ensures Coherent(OnMotion(st, false, true, x, y, p, panels).state)
  {
    var dx, dy := (x - st.mouseX) as real, (y - st.mouseY) as real;
    var d := ShiftAll(st.canvas.destinations, dx, dy);
    ScaledShift(st.canvas.destinations, st.destinations, st.scale, dx, dy);
    CanvasEditKeepsCoherent(st, d, x, y);
    var panned := st.(mouseX := x, mouseY := y, canvas := st.canvas.(destinations := d));
    RefreshKeepsCoherent(panned, panels, false);
    PanSteps(st, x, y, p, panels);
  }

  /** A drag records the cursor, moves the selected canvas rectangle, then
      updates the minimap without resampling. */
  lemma DragSteps(st: Session, middleDown: bool, x: int, y: int, p: int, panels: Panels)
    requires st.Valid() && InRange(Mirror(p), st.Count())
    ensures var d := Move(st.canvas.destinations, Mirror(p), (x - st.mouseX) as real, (y - st.mouseY) as real).value;
            OnMotion(st, true, middleDown, x, y, p, panels)
            == RefreshMinimap(st.(mouseX := x, mouseY := y, canvas := st.canvas.(destinations := d)), panels, false)
  {
  }

  /** A pan records the cursor, moves every canvas rectangle, then updates
      the minimap without resampling. */
  lemma PanSteps(st: Session, x: int, y: int, p: int, panels: Panels)
    requires st.Valid()
    ensures var d := ShiftAll(st.canvas.destinations, (x - st.mouseX) as real, (y - st.mouseY) as real);
            OnMotion(st, false, true, x, y, p, panels)
            == RefreshMinimap(st.(mouseX := x, mouseY := y, canvas := st.canvas.(destinations := d)), panels, false)
  {
  }

  /** Moving the canvas rectangles without resizing them, while recording the
      cursor, keeps the invariant. */
  lemma CanvasEditKeepsCoherent(st: Session, d: Store, x: int, y: int)
    requires Coherent(st) && Scaled(d, st.destinations, st.scale)
    ensures Coherent(st.(mouseX := x, mouseY := y, canvas := st.canvas.(destinations := d)))
  {
  }

  /** Zooming keeps the invariant: the canvas sizes are recomputed from the
      unscaled ones at the new factor. */
  lemma MouseWheelKeepsCoherent(st: Session, x: int, y: int, newScale: real, panels: Panels)
    requires Coherent(st) && newScale > 0.0
    ensures Coherent(OnMouseWheel(st, x, y, newScale, panels).state)
  {
    ScaledZoom(st.canvas.destinations, st.destinations, x as real, y as real, st.scale, newScale);
  }

  // ---------------------------------------------------------------------------
  // What the handlers do over several events

  lemma RemovePushed<T>(s: seq<T>, v: T, k: nat)
    requires k == |s|
    ensures RemoveAt(s + [v], k) == s
  {
  }

  lemma RemoveFront<T>(s: seq<T>, v: T)
    ensures RemoveAt([v] + s, 0) == s
  {
  }

  /** Removing the layer just added (list row 0) gives back every store, the
      list, the file map and the bitmap cache; only the counter has moved on.
      With no layer before the add, the removal ends in the minimap update's
      ValueError, after the same bookkeeping. */
  lemma AddThenRemoveRestores(st: Session, w: nat, h: nat, panels: Panels)
    requires Coherent(st)
    ensures var r := OnLayerRemove(OnLayerAdd(st, w, h, panels).state, 0, panels);
            && (r.Raised? <==> st.Count() == 0)
            && r.state.canvas.order == st.canvas.order
            && r.state.canvas.visibility == st.canvas.visibility
            && r.state.canvas.destinations == st.canvas.destinations
            && r.state.destinations == st.destinations
            && r.state.listed == st.listed
            && r.state.paths == st.paths
            && r.state.bitmaps == st.bitmaps
            && r.state.counter == st.counter + 1
  {
    AddKeepsCoherent(st, w, h, panels);
    var added := OnLayerAdd(st, w, h, panels).state;
    var n := st.Count();
    assert added.listed[0] == st.counter;
    RemovePushed(st.canvas.order, st.counter, n);
    RemovePushed(st.canvas.visibility, false, n);
    RemovePushed(st.canvas.destinations, Scale(Rect(0.0, 0.0, w as real, h as real), st.scale), n);
    RemovePushed(st.destinations, Rect(0.0, 0.0, w as real, h as real), n);
    RemoveFront(st.listed, st.counter);
    AddedFileEvicted(st, added);
  }

  /** Dropping the layer just added leaves the file map and the cache as they
      were before the add: its file was used by no other layer. */
  lemma AddedFileEvicted(st: Session, added: Session)
    requires Coherent(st)
    requires added.paths == st.paths[st.counter := st.counter] && added.bitmaps == st.bitmaps + {st.counter}
    ensures added.paths - {st.counter} == st.paths
    ensures Evict(added.bitmaps, added.paths, st.counter) == st.bitmaps
  {
    var c, n := st.counter, st.Count();
    assert c !in st.paths;
    assert !FileStillUsed(added.paths, c, c);
    assert c !in st.bitmaps;
  }

  lemma RemoveInserted<T>(s: seq<T>, k: nat, v: T)
    requires k <= |s|
    ensures RemoveAt(InsertAt(s, k, v), k) == s
  {
  }

  /** `r` holds the same layers as `st`: canvas order, visibility and
      destinations, unscaled destinations, list, file map and bitmap cache. */
  ghost predicate SameLayers(st: Session, r: Session) {
    && r.canvas.order == st.canvas.order
    && r.canvas.visibility == st.canvas.visibility
    && r.canvas.destinations == st.canvas.destinations
    && r.destinations == st.destinations
    && r.listed == st.listed
    && r.paths == st.paths
    && r.bitmaps == st.bitmaps
  }

  /** `copied` is `st` after the corrected duplicate of list row `p`. */
  ghost predicate CopiedAt(st: Session, copied: Session, p: nat)
    requires st.Valid() && p < st.Count() && st.listed[p] in st.paths
  {
    var n := st.Count();
    && copied.canvas.order == InsertAt(st.canvas.order, n - p, st.counter)
    && copied.canvas.visibility == InsertAt(st.canvas.visibility, n - p, false)
    && copied.canvas.destinations == InsertAt(st.canvas.destinations, n - p, st.canvas.destinations[n - 1 - p])
    && copied.destinations == InsertAt(st.destinations, n - p, st.destinations[n - 1 - p])
    && copied.listed == InsertAt(st.listed, p, st.counter)
    && copied.paths == st.paths[st.counter := st.paths[st.listed[p]]]
    && copied.bitmaps == st.bitmaps
  }

  /** `r` is `s` after list row `p` was removed without an error. */
  ghost predicate RemovedAt(s: Session, r: Session, p: nat)
    requires s.Valid() && p < |s.listed| && s.listed[p] in s.paths
  {
    var n, id := s.Count(), s.listed[p];
    var file := s.paths[id];
    && r.canvas.order == RemoveAt(s.canvas.order, n - 1 - p)
    && r.canvas.visibility == RemoveAt(s.canvas.visibility, n - 1 - p)
    && r.canvas.destinations == RemoveAt(s.canvas.destinations, n - 1 - p)
    && r.destinations == RemoveAt(s.destinations, n - 1 - p)
    && r.listed == RemoveAt(s.listed, p)
    && r.paths == s.paths - {id}
    && (file in r.bitmaps <==> file in s.bitmaps && FileStillUsed(s.paths, id, file))
    && (forall f :: f != file ==> (f in r.bitmaps <==> f in s.bitmaps))
  }

  /** Removing the copy the corrected duplicate just made (it sits at the
      same list row) gives back every store, the list, the file map and the
      bitmap cache: the copied file is still used by its source. */
  lemma DuplicateThenRemoveRestores(st: Session, p: nat, panels: Panels)
    requires Coherent(st) && p < st.Count()
    ensures OnLayerRemove(OnLayerDuplicateFixed(st, p, panels).state, p, panels).Done?
    ensures SameLayers(st, OnLayerRemove(OnLayerDuplicateFixed(st, p, panels).state, p, panels).state)
  {
    DuplicateFixedKeepsCoherent(st, p, panels);
    ListedHavePaths(st, p);
    var copied := OnLayerDuplicateFixed(st, p, panels).state;
    assert CopiedAt(st, copied, p);
    RemoveCopy(st, copied, p, panels);
  }

  /** Removing, at list row `p`, the copy made from that row. */
  lemma RemoveCopy(st: Session, copied: Session, p: nat, panels: Panels)
    requires Coherent(st) && p < st.Count() && st.listed[p] in st.paths && Coherent(copied)
    requires CopiedAt(st, copied, p)
    ensures OnLayerRemove(copied, p, panels).Done?
    ensures SameLayers(st, OnLayerRemove(copied, p, panels).state)
  {
    assert copied.listed[p] == st.counter && copied.Count() == st.Count() + 1;
    RemoveResult(copied, p, panels);
    CopyRemoved(st, copied, OnLayerRemove(copied, p, panels).state, p);
  }

  /** A removal of a listed layer with a file, in the terms of `RemovedAt`. */
  lemma RemoveResult(s: Session, p: nat, panels: Panels)
    requires s.Valid() && p < |s.listed| && s.listed[p] in s.paths
    ensures OnLayerRemove(s, p, panels).Done? <==> s.Count() != 1
    ensures RemovedAt(s, OnLayerRemove(s, p, panels).state, p)
  {
  }

  /** The store-level half of `RemoveCopy`. */
  lemma CopyRemoved(st: Session, copied: Session, r: Session, p: nat)
    requires Coherent(st) && p < st.Count() && st.listed[p] in st.paths && copied.Valid()
    requires CopiedAt(st, copied, p)
    requires copied.listed[p] == st.counter && RemovedAt(copied, r, p)
    ensures SameLayers(st, r)
  {
    var n := st.Count();
    assert copied.Count() - 1 - p == n - p;
    RemoveInserted(st.canvas.order, n - p, st.counter);
    RemoveInserted(st.canvas.visibility, n - p, false);
    RemoveInserted(st.canvas.destinations, n - p, st.canvas.destinations[n - 1 - p]);
    RemoveInserted(st.destinations, n - p, st.destinations[n - 1 - p]);
    RemoveInserted(st.listed, p, st.counter);
    CopyFileKept(st, copied, st.listed[p]);
  }

  /** Dropping a copy keeps its file: the source still uses it. */
  lemma CopyFileKept(st: Session, copied: Session, id: nat)
    requires Coherent(st) && id in st.paths
    requires copied.paths == st.paths[st.counter := st.paths[id]] && copied.bitmaps == st.bitmaps
    ensures copied.paths - {st.counter} == st.paths
    ensures FileStillUsed(copied.paths, st.counter, st.paths[id])
  {
    assert st.counter !in st.paths;
    assert id != st.counter && copied.paths[id] == st.paths[id];
  }

  /** Exchanging the same two rows twice gives the session back; exchanging
      a row with itself changes nothing. */
  lemma SwapTwiceRestores(st: Session, i: int, j: int)
    requires st.Valid() && OnSwapLayerFixed(st, i, j).Done?
    ensures OnSwapLayerFixed(OnSwapLayerFixed(st, i, j).state, i, j) == Done(st)
    ensures OnSwapLayerFixed(st, i, i) == Done(st)
  {
    var n := st.Count();
    var a, b := Norm(Mirror(i), n), Norm(Mirror(j), n);
    SwapAtTwice(st.canvas.order, a, b);
    SwapAtTwice(st.canvas.visibility, a, b);
    SwapAtTwice(st.canvas.destinations, a, b);
    SwapAtTwice(st.minimap.order, a, b);
    SwapAtTwice(st.minimap.visibility, a, b);
    SwapAtTwice(st.minimap.destinations, a, b);
    SwapAtTwice(st.destinations, a, b);
  }

  /** The swap as the source does it is its own inverse as well: swapping the
      same two rows twice, or a row with itself, gives the session back. */
  lemma SwapTwiceRestoresAsWritten(st: Session, i: int, j: int)
    requires st.Valid() && OnSwapLayer(st, i, j).Done?
    ensures OnSwapLayer(OnSwapLayer(st, i, j).state, i, j) == Done(st)
    ensures OnSwapLayer(st, i, i) == Done(st)
  {
    var n := st.Count();
    var a, b := Norm(Mirror(i), n), Norm(Mirror(j), n);
    SwapAtTwice(st.canvas.order, a, b);
    SwapAtTwice(st.canvas.visibility, a, b);
    SwapAtTwice(st.canvas.destinations, a, b);
    SwapAtTwice(st.minimap.order, a, b);
    SwapAtTwice(st.minimap.visibility, a, b);
    SwapAtTwice(st.minimap.destinations, a, b);
  }

  lemma SwapAtTwice<T>(s: seq<T>, a: nat, b: nat)
    requires a < |s| && b < |s|
    ensures SwapAt(SwapAt(s, a, b), a, b) == s
    ensures SwapAt(s, a, a) == s
  {
  }

  /** Toggling the same row twice gives the session back. */
  lemma ToggleTwiceRestores(st: Session, p: int)
    requires st.Valid() && OnUpdateVisibility(st, p).Done?
    ensures OnUpdateVisibility(OnUpdateVisibility(st, p).state, p) == Done(st)
  {
    var k := Norm(Mirror(p), st.Count());
    var once := OnUpdateVisibility(st, p).state;
    assert once.canvas.visibility[k := !once.canvas.visibility[k]] == st.canvas.visibility;
    assert once.minimap.visibility[k := !once.minimap.visibility[k]] == st.minimap.visibility;
  }

  /** An arrow key followed by the opposite one puts the layer back. */
  lemma OppositeArrowsCancel(st: Session, p: int, step: int)
    requires st.Valid() && InRange(Mirror(p), st.Count())
    ensures OnKeyDown(OnKeyDown(st, ArrowLeft, p, step).state, ArrowRight, p, step) == Done(st)
    ensures OnKeyDown(OnKeyDown(st, ArrowUp, p, step).state, ArrowDown, p, step) == Done(st)
  {
    MoveInverse(st.canvas.destinations, Mirror(p), -step as real, 0 as real);
    MoveInverse(st.canvas.destinations, Mirror(p), 0 as real, -step as real);
  }

  /** Dragging moves the selected layer by the cursor's travel and no other
      layer. */
  lemma DragMovesOnlySelection(st: Session, x: int, y: int, p: int, panels: Panels)
    requires st.Valid() && InRange(Mirror(p), st.Count())
    ensures var r := OnMotion(st, true, false, x, y, p, panels).state;
            var k := Norm(Mirror(p), st.Count());
            && r.canvas.destinations[k] == Translate(st.canvas.destinations[k], (x - st.mouseX) as real, (y - st.mouseY) as real)
            && forall j :: 0 <= j < st.Count() && j != k ==> r.canvas.destinations[j] == st.canvas.destinations[j]
  {
  }

  /** Two drag steps move the selected layer as far as one move over the
      whole travel of the cursor. */
  lemma DragStepsCompose(st: Session, x1: int, y1: int, x2: int, y2: int, p: int, panels: Panels)
    requires st.Valid() && InRange(Mirror(p), st.Count())
    ensures OnMotion(OnMotion(st, true, false, x1, y1, p, panels).state, true, false, x2, y2, p, panels).state.canvas.destinations
            == Move(st.canvas.destinations, Mirror(p), (x2 - st.mouseX) as real, (y2 - st.mouseY) as real).value
  {
    var once := OnMotion(st, true, false, x1, y1, p, panels).state;
    DragResult(st, x1, y1, p, panels);
    DragResult(once, x2, y2, p, panels);
    DragsCompose(st, once, OnMotion(once, true, false, x2, y2, p, panels).state, x1, y1, x2, y2, p);
  }

  /** `r` is what dragging list row `p` of `st` to (x, y) leaves: the
      cursor at (x, y) and the selected layer moved by the cursor's travel. */
  ghost predicate Dragged(st: Session, r: Session, x: int, y: int, p: int) {
    && st.Valid() && InRange(Mirror(p), st.Count())
    && r.Valid() && r.Count() == st.Count() && r.mouseX == x && r.mouseY == y
    && r.canvas.destinations
       == Move(st.canvas.destinations, Mirror(p), (x - st.mouseX) as real, (y - st.mouseY) as real).value
  }

  /** Drags chain: a drag from the end of another adds up to one drag. */
  lemma DragsCompose(st: Session, once: Session, twice: Session, x1: int, y1: int, x2: int, y2: int, p: int)
    requires Dragged(st, once, x1, y1, p) && Dragged(once, twice, x2, y2, p)
    ensures Dragged(st, twice, x2, y2, p)
  {
    MoveCompose(st.canvas.destinations, Mirror(p), (x1 - st.mouseX) as real, (y1 - st.mouseY) as real,
                (x2 - x1) as real, (y2 - y1) as real);
    assert (x1 - st.mouseX) as real + (x2 - x1) as real == (x2 - st.mouseX) as real;
    assert (y1 - st.mouseY) as real + (y2 - y1) as real == (y2 - st.mouseY) as real;
  }

  /** What one drag step leaves on the canvas and as the cursor. */
  lemma DragResult(st: Session, x: int, y: int, p: int, panels: Panels)
    requires st.Valid() && InRange(Mirror(p), st.Count())
    ensures Dragged(st, OnMotion(st, true, false, x, y, p, panels).state, x, y, p)
  {
    var d := Move(st.canvas.destinations, Mirror(p), (x - st.mouseX) as real, (y - st.mouseY) as real).value;
    DragSteps(st, false, x, y, p, panels);
    var moved := st.(mouseX := x, mouseY := y, canvas := st.canvas.(destinations := d));
    assert moved.Aligned();
    var r := RefreshMinimap(moved, panels, false).state;
    assert r.canvas == moved.canvas && r.mouseX == x && r.mouseY == y && r.listed == st.listed;
  }

  /** Panning keeps every layer's offset from every other and every size. */
  lemma PanKeepsLayout(st: Session, x: int, y: int, p: int, panels: Panels, a: nat, b: nat)
    requires st.Valid() && a < st.Count() && b < st.Count()
    ensures var r := OnMotion(st, false, true, x, y, p, panels).state.canvas.destinations;
            var c := st.canvas.destinations;
            && r[a].x - r[b].x == c[a].x - c[b].x && r[a].y - r[b].y == c[a].y - c[b].y
            && r[a].w == c[a].w && r[a].h == c[a].h
  {
    ShiftKeepsOffsets(st.canvas.destinations, (x - st.mouseX) as real, (y - st.mouseY) as real, a, b);
  }

  /** A wheel event that leaves the factor as it is moves nothing on a
      coherent canvas. */
  lemma WheelWithoutChangeKeepsCanvas(st: Session, x: int, y: int, panels: Panels)
    requires Coherent(st)
    ensures OnMouseWheel(st, x, y, st.scale, panels).state.canvas == st.canvas
  {
    var c := st.canvas.destinations;
    var r := Zoom.Zoom(c, st.destinations, x as real, y as real, st.scale, st.scale);
    forall i | 0 <= i < |c| ensures r[i] == c[i] {
      Zoom.ZoomWithoutChangeKeepsCorners(c, st.destinations, x as real, y as real, st.scale, i);
      assert SizedAt(c[i], st.destinations[i], st.scale);
    }
    assert r == c;
  }

  /** Zooming in and back out about the same cursor restores a coherent
      canvas. */
  lemma WheelRoundTrip(st: Session, x: int, y: int, g: real, panels: Panels)
    requires Coherent(st) && g > 0.0
    ensures var there := OnMouseWheel(st, x, y, g, panels).state;
            OnMouseWheel(there, x, y, st.scale, panels).state.canvas == st.canvas
            && OnMouseWheel(there, x, y, st.scale, panels).state.scale == st.scale
  {
    var c, u, ax, ay := st.canvas.destinations, st.destinations, x as real, y as real;
    var r := Zoom.Zoom(Zoom.Zoom(c, u, ax, ay, st.scale, g), u, ax, ay, g, st.scale);
    forall i | 0 <= i < |c| ensures r[i] == c[i] {
      Zoom.ZoomRoundTrip(c, u, ax, ay, st.scale, g, i);
      assert SizedAt(c[i], u[i], st.scale);
    }
    assert r == c;
  }

  /** A layer whose corner is under the cursor stays under it while
      zooming. */
  lemma WheelKeepsPointedCorner(st: Session, x: int, y: int, newScale: real, panels: Panels, i: nat)
    requires st.Valid() && newScale > 0.0 && i < st.Count()
    requires st.canvas.destinations[i].x == x as real && st.canvas.destinations[i].y == y as real
    ensures var r := OnMouseWheel(st, x, y, newScale, panels).state.canvas.destinations;
            r[i].x == x as real && r[i].y == y as real
  {
    Zoom.ZoomKeepsAnchor(st.canvas.destinations, st.destinations, x as real, y as real, st.scale, newScale, i);
  }
}
