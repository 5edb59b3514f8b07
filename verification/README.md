# cartograpy layer model in Dafny

cartograpy is a map editor. It stacks imported images as layers on a canvas,
lets the user move, reorder, duplicate, hide and remove them, pans and zooms
the canvas, and keeps a minimap of the whole scene in an inspector panel. This
project models the part of it that has invariants:

- the `Rects` store: a batch of rectangles held as four numpy coordinate
  rows. It is modelled as a sequence of `Rect` with Python/numpy positional
  semantics. A negative position counts from the end. A position out of range
  raises `IndexError`. numpy's `insert` refuses positions outside `[-n, n]`,
  while a Python list clamps them.
- the main window's layer handlers (add, duplicate, remove, swap, visibility,
  arrow keys, button presses, drag, pan, mouse-wheel zoom) as pure functions on
  a `Session` state. A handler ends in `Done(state)` or, where the Python code
  raises, in `Raised(fault, state)` carrying the state the code leaves behind.
- the minimap update: the bounding box of the canvas rectangles, the fit
  factor, the projection into the minimap panel, the camera rectangle
  truncated by `int(...)`, and the cache of the resampled scale factor.

Storage order is bottom layer first. The inspector's layer list shows the
topmost layer first, so list row `p` is storage position `n - 1 - p`. The
handlers reach it by indexing with `-(p + 1)` (`Positional.Mirror`).

The session invariant `EditorProofs.Coherent` states what the handlers need
between events:
- the minimap follows the canvas;
- the list mirrors the storage order;
- layer ids are distinct, have a file, and were issued by the counter;
- the bitmap cache holds exactly the files in use;
- every canvas size is the unscaled size times the zoom factor.

Every handler except swap and duplicate is proved to keep it. The swap and
duplicate handlers as written break it (see "## Findings"). A corrected
version of each is given, and that version keeps it.

The model follows the code:
- removing the last layer, and a wheel event on an empty canvas, end in
  numpy's `ValueError` from `.min()` of an empty array (line 678);
- a duplicated layer starts hidden (lines 394 and 400);
- "no selection" (`GetFirstSelected() == -1`) becomes storage position 0,
  the bottom layer, for visibility, keys and drag (`-(-1 + 1) == 0`).

Modules: `Errors`, `Positional`, `Rects`, `Zoom`, `Minimap`, `Editor`
(the session and the handlers), `EditorProofs` (the invariant and properties
over several events), and `Findings`.

## Model

| member | source | states |
|---|---|---|
| Positional.Norm | cartograpy/__init__.py:115-116 | a position accepted by get/set/delete/move resolves inside `[0, n)`, and one accepted by insert resolves inside `[0, n]` |
| Positional.MirrorResolves | cartograpy/main_window.py:387 | list row `p` of `n` rows, indexed as `-(p + 1)`, is a valid position and resolves to storage position `n - 1 - p` |
| Positional.MirrorOfNoSelection | cartograpy/main_window.py:648-651 | with no selection (`-1`) the handlers act on storage position 0, the bottom layer |
| Positional.InsertAt | cartograpy/__init__.py:78-84 | the value lands at the position; earlier elements keep their place; later ones shift up by one |
| Positional.RemoveAt | cartograpy/__init__.py:72-73 | earlier elements keep their place and later ones shift down by one |
| Positional.SwapAt | cartograpy/main_window.py:630-636 | the two positions exchange values, all others keep theirs, and the contents are a permutation of the input |
| Positional.Append | cartograpy/__init__.py:69-70 | the value becomes the last element and the others keep their place |
| Positional.Insert | cartograpy/__init__.py:78-84 | succeeds exactly for positions in `[-n, n]`; the value sits at the resolved position with neighbours shifted, otherwise `IndexError` |
| Positional.ListInsert | cartograpy/main_window.py:393-394 | a list insert never fails; inside `[-n, n]` it inserts at the resolved position, and a position before the start or past the end puts the value first or last with the list otherwise kept |
| Positional.Delete | cartograpy/__init__.py:72-73 | succeeds exactly for positions in `[-n, n)` and closes the gap, otherwise `IndexError` |
| Positional.Get | cartograpy/__init__.py:75-76 | succeeds exactly for positions in `[-n, n)` and returns the element at the resolved position |
| Positional.Set | cartograpy/__init__.py:90-91 | succeeds exactly for positions in `[-n, n)`; the resolved position then holds the new value and no other position changes |
| Positional.Swap | cartograpy/main_window.py:630-632 | succeeds exactly when both positions are valid; the two resolved positions exchange their values, so the result is a permutation |
| Positional.AppendIsInsertAtEnd | cartograpy/__init__.py:69-84 | appending is inserting at position `n` |
| Positional.InsertDeleteRoundTrip | cartograpy/__init__.py:72-84 | deleting at the resolved position of an insert gives the original back |
| Positional.NegativeReuseRemovesNeighbour | cartograpy/__init__.py:72-84 | reusing the same negative position does not undo the insert: it removes the element that followed the new one |
| Positional.SetThenGet | cartograpy/__init__.py:75-91 | a set position reads back the stored value, and every other position reads what it read before |
| Positional.ListInsertAgrees | cartograpy/main_window.py:390-402 | inside numpy's range a list insert puts the value where numpy's insert does, so the duplicate handler's list and array inserts agree |
| Positional.SwapInvolution | cartograpy/main_window.py:630-636 | swapping a position with itself, or the same pair twice, changes nothing |
| Rects.ColumnsRoundTrip | cartograpy/__init__.py:112-119 | splitting the store into the four rows and reading rectangles back (`Rect(*rects[:, i])`) is lossless both ways |
| Rects.Xs | cartograpy/__init__.py:96-98 | the x row holds the x of every rectangle, in storage order |
| Rects.Ys | cartograpy/__init__.py:100-102 | the y row holds the y of every rectangle, in storage order |
| Rects.Ws | cartograpy/__init__.py:104-106 | the w row holds the width of every rectangle, in storage order |
| Rects.Hs | cartograpy/__init__.py:108-110 | the h row holds the height of every rectangle, in storage order |
| Rects.Stack | cartograpy/__init__.py:115-116 | rectangle `i` is read back from the `i`-th entry of each of the four rows, as `Rect(*rects[:, i])` does |
| Rects.New | cartograpy/__init__.py:52-67 | the constructor's loop stores exactly the given rectangles, in order, with four rows of equal length |
| Rects.Move | cartograpy/__init__.py:86-88 | succeeds exactly for a valid position; it shifts that rectangle's corner by `(dx, dy)`, keeps its size and leaves every other rectangle alone |
| Rects.MoveInverse | cartograpy/__init__.py:86-88 | a move followed by the opposite move restores the store |
| Rects.MoveCompose | cartograpy/__init__.py:86-88 | two moves of one rectangle add up to a single move |
| Rects.ShiftAll | cartograpy/main_window.py:563-564 | every rectangle is translated by the same offset |
| Rects.Pan | cartograpy/main_window.py:563-564 | the pan loop of single moves translates every rectangle by the offset |
| Rects.ShiftKeepsOffsets | cartograpy/main_window.py:563-564 | panning keeps every pairwise offset between layers and every size |
| Rects.ShiftInverse | cartograpy/main_window.py:563-564 | a pan is undone by the opposite pan |
| Zoom.Zoom | cartograpy/main_window.py:588-593 | every corner's distance from the cursor scales by new/old factor, and every size is the unscaled size times the new factor |
| Zoom.ZoomWithoutChangeKeepsCorners | cartograpy/main_window.py:588-591 | a wheel event that leaves the factor unchanged moves no corner |
| Zoom.ZoomKeepsAnchor | cartograpy/main_window.py:590-591 | a corner under the cursor stays under it |
| Zoom.ZoomScalesOffsets | cartograpy/main_window.py:590-591 | distances between layer corners scale by exactly new/old |
| Zoom.ZoomCompose | cartograpy/main_window.py:588-593 | two zooms about the same cursor equal one zoom straight to the final factor |
| Zoom.ZoomComposeAt | cartograpy/main_window.py:588-593 | `ZoomCompose` at one layer |
| Zoom.ZoomRectCompose | cartograpy/main_window.py:590-593 | `ZoomCompose` for one rectangle |
| Zoom.ZoomRoundTrip | cartograpy/main_window.py:588-593 | zooming in and back out about the same cursor restores every corner |
| Minimap.Trunc | cartograpy/main_window.py:698-701 | `int(r)` truncates toward zero: the result is within one of `r`, on the side of zero |
| Minimap.TruncIsNotFloor | cartograpy/main_window.py:698-699 | on negative non-integers truncation and floor differ (`int(-0.5) == 0`) |
| Minimap.TruncTowardZero | cartograpy/main_window.py:698-701 | truncation never moves a value away from zero |
| Minimap.MinOfIsMin | cartograpy/main_window.py:678-679 | `.min()` is a lower bound that some element attains |
| Minimap.MaxOfIsMax | cartograpy/main_window.py:680-681 | `.max()` is an upper bound that some element attains |
| Minimap.BoundingBox | cartograpy/main_window.py:678-681 | `(x_min, y_min, w_max, h_max)` is the smallest box around the layers: every layer lies inside it, and each of its four edges is touched by some layer |
| Minimap.Fit | cartograpy/main_window.py:686-688 | the factor is the smaller of the two panel/box ratios |
| Minimap.Project | cartograpy/main_window.py:693-696 | one minimap rectangle per layer: its corner's offset from the box corner, and its size, both scaled by the factor |
| Minimap.Camera | cartograpy/main_window.py:698-701 | the camera is the canvas origin's offset from the box corner and the canvas panel size, scaled by the factor and each truncated toward zero by `int` |
| Minimap.Recompute | cartograpy/main_window.py:676-701 | the update fails for lack of layers exactly when the canvas is empty, is skipped exactly when the bounding box has zero width or height, and otherwise yields one minimap rectangle per layer |
| Minimap.FitBounds | cartograpy/main_window.py:686-688 | the fit factor is non-negative, scales the box to at most the panel, and exactly to its width or its height |
| Minimap.ProjectInside | cartograpy/main_window.py:693-696 | rectangles inside the box, projected by a factor that fits the box in the panel, lie inside the panel |
| Minimap.RecomputeParts | cartograpy/main_window.py:678-701 | a successful update is the projection and camera for the bounding box and a factor that fits it in the panel |
| Minimap.ProjectionFitsPanel | cartograpy/main_window.py:676-696 | with a non-degenerate box every minimap rectangle lies inside the minimap panel |
| Minimap.ProjectedLeft | cartograpy/main_window.py:693 | a layer on the box's left edge is drawn at the panel's left edge |
| Minimap.ProjectedTop | cartograpy/main_window.py:694 | a layer on the box's top edge is drawn at the panel's top edge |
| Minimap.ProjectedRight | cartograpy/main_window.py:693-695 | a layer on the box's right edge ends at the box width times the factor |
| Minimap.ProjectedBottom | cartograpy/main_window.py:694-696 | a layer on the box's bottom edge ends at the box height times the factor |
| Minimap.ProjectTight | cartograpy/main_window.py:693-696 | projecting by the box's own corner puts some layer on the left and top panel edges, and one on the right or bottom edge when the factor fills that axis |
| Minimap.ProjectionIsTight | cartograpy/main_window.py:676-696 | the fit is tight: the scene touches the left and top edges of the minimap and its right or bottom edge |
| Minimap.CameraBounds | cartograpy/main_window.py:698-701 | the camera corner is within one pixel of the exact projection of the canvas origin, and its size is at most the projected canvas size |
| Minimap.SingleLayerExample | cartograpy/main_window.py:676-701 | a 100 x 50 layer in a 400 x 400 minimap is width-limited: factor 4, drawn at 400 x 200 at the origin |
| Minimap.CachedScale | cartograpy/main_window.py:704-708 | the cached factor changes exactly when `resize` is set and the fit factor differs from it, and then it becomes the fit factor |
| Minimap.CacheSettles | cartograpy/main_window.py:704-708 | once the bitmaps were resampled for a factor, a second update with that factor does not resample them again |
| Editor.Reset | cartograpy/main_window.py:131-151 | reset leaves a consistent session with no layers and the id counter at 0 |
| Editor.RefreshMinimap | cartograpy/main_window.py:676-711 | raises `ValueError` exactly on an empty canvas, leaving the state unchanged; otherwise it changes only the minimap rectangles, the camera and the cached factor. Without `resize` the cached factor is kept |
| Editor.RefreshThenList | cartograpy/main_window.py:363-371 | after the minimap update of a non-empty canvas the list and the counter are set, and no store of layers changes |
| Editor.Admit | cartograpy/main_window.py:346-362 | every store gets the new layer on top, hidden: the canvas gets the rectangle scaled to the current zoom, the minimap and the unscaled store get it unscaled; its file is registered and cached |
| Editor.OnLayerAdd | cartograpy/main_window.py:328-372 | the new layer `counter` is on top of every store and hidden; the list shows it first; its file is registered and cached; the counter moves on |
| Editor.Copy | cartograpy/main_window.py:389-402 | a copy inserted hidden at one storage position of every store (canvas, minimap and unscaled rectangles given separately), sharing an existing file, with the cache unchanged |
| Editor.OnLayerDuplicate | cartograpy/main_window.py:374-412 | as written: `IndexError` for a row outside the list, `KeyError` for an id without a file, `IndexError` when the id is not a valid storage position, each leaving the state unchanged; otherwise the copy of `canvas.destinations[id]` is inserted at `Mirror(p)` |
| Editor.DuplicateRowAsWritten | cartograpy/main_window.py:387-411 | the copy lands at storage position `n - 1 - p` in the canvas and minimap order and visibility, and, with the same rectangle, in the canvas and unscaled stores; it lands at list row `p`; the file is shared and the counter moves on |
| Editor.OnLayerDuplicateFixed | cartograpy/main_window.py:374-412 | succeeds exactly for a listed row with a file; the copy lands just above its source, at storage position `n - p`, in the canvas and minimap order and visibility, with the source's own canvas and unscaled rectangles |
| Editor.DuplicateRow | cartograpy/main_window.py:387-411 | the corrected duplicate once the row is known: the canvas and minimap order and visibility, the canvas rectangles and the unscaled store all grow at `n - p` |
| Editor.CopyRow | cartograpy/main_window.py:389-402 | the corrected copy before the minimap update: every store of the canvas, the minimap and the unscaled rectangles grows by an insert at `n - p`, just above the source at `n - 1 - p`, with every other layer kept in order; the copy is hidden and holds the source's own canvas, minimap and unscaled rectangles; it shares the source's file, the cache, list, counter and zoom factor are unchanged |
| Editor.Evict | cartograpy/main_window.py:448-451 | the removed layer's file leaves the cache exactly when no other layer uses it; other files stay |
| Editor.Forget | cartograpy/main_window.py:429-446 | the layer at list row `p` leaves every store at position `n - 1 - p` (order, visibility and rectangles of canvas and minimap, and the unscaled store), its row leaves the list, its id leaves the file map, and its file is evicted exactly when unused |
| Editor.OnLayerRemove | cartograpy/main_window.py:414-455 | `IndexError` for a row outside the list and `KeyError` for an id without a file, each leaving the state unchanged; otherwise the removal of that row |
| Editor.RemoveRow | cartograpy/main_window.py:424-455 | the layer leaves every store at `n - 1 - p` and the list at row `p`; its file is evicted exactly when unused; removing the last layer ends in `ValueError` after this bookkeeping |
| Editor.OnSwapLayer | cartograpy/main_window.py:617-638 | as written: `IndexError` unless both rows resolve; otherwise order, visibility and rectangles are exchanged in the canvas and the minimap, and nothing else changes, the unscaled store included |
| Editor.OnSwapLayerFixed | cartograpy/main_window.py:617-638 | the corrected swap: the same exchange plus the unscaled store |
| Editor.OnUpdateVisibility | cartograpy/main_window.py:640-654 | `IndexError` unless the row resolves; otherwise exactly that layer's flag flips, in the canvas and the minimap, and nothing else changes |
| Editor.OnKeyDown | cartograpy/main_window.py:290-326 | left/right/up/down move the selected canvas rectangle by the step along one axis (or raise `IndexError`); other keys change nothing |
| Editor.OnPress | cartograpy/main_window.py:457-465 | a button press records the cursor and changes nothing else |
| Editor.OnMotion | cartograpy/main_window.py:526-566 | with the left button the selected rectangle moves by the cursor's travel; with the middle button every rectangle does; the cursor is recorded first (also before an `IndexError`) and the cached minimap factor is kept |
| Editor.OnMouseWheel | cartograpy/main_window.py:568-599 | the canvas is zoomed about the cursor to the new factor; raises only on an empty canvas; order, visibility and unscaled store are kept |
| EditorProofs.ListedHavePaths | cartograpy/main_window.py:384-386 | in a coherent session every row names the layer at the mirrored position, and that layer has a file |
| EditorProofs.ResetCoherent | cartograpy/main_window.py:131-151 | reset is coherent |
| EditorProofs.RefreshKeepsCoherent | cartograpy/main_window.py:676-711 | the minimap update keeps the invariant |
| EditorProofs.RefreshIgnoresList | cartograpy/main_window.py:363-371 | the minimap update reads neither the list nor the counter, so setting them before or after it is the same |
| EditorProofs.AddKeepsCoherent | cartograpy/main_window.py:328-372 | adding keeps the invariant, and the issued id was not in use |
| EditorProofs.ForgetKeepsCoherent | cartograpy/main_window.py:429-452 | dropping a listed layer from every store keeps the invariant |
| EditorProofs.RemoveKeepsCoherent | cartograpy/main_window.py:414-455 | removing keeps the invariant; on a coherent session it raises only `IndexError` (bad row) or `ValueError` (last layer) |
| EditorProofs.RemoveSteps | cartograpy/main_window.py:424-455 | a removal is the bookkeeping followed by the resampling minimap update |
| EditorProofs.DuplicateFixedKeepsCoherent | cartograpy/main_window.py:374-412 | the corrected duplicate keeps the invariant and succeeds exactly for a row in the list |
| EditorProofs.DuplicateFixedSteps | cartograpy/main_window.py:389-411 | the corrected duplicate is the copy, then the minimap update, with the list and counter set |
| EditorProofs.ThenListIsRefresh | cartograpy/main_window.py:403-411 | setting the list and counter after the minimap update equals setting them before |
| EditorProofs.CopyKeepsCoherent | cartograpy/main_window.py:389-409 | the corrected copy, with its list row, keeps the invariant |
| EditorProofs.SwapFixedKeepsCoherent | cartograpy/main_window.py:617-638 | the corrected swap keeps the invariant once the list has exchanged the same rows |
| EditorProofs.SwapFixedResult | cartograpy/main_window.py:617-638 | the corrected swap of two listed rows succeeds and exchanges the two mirrored positions in every store, keeping the list, files, cache, counter and factor |
| EditorProofs.SwappedKeepsCoherent | cartograpy/main_window.py:630-636 | exchanging two positions in every store, with the list exchanging the mirrored rows, keeps the invariant |
| EditorProofs.VisibilityKeepsCoherent | cartograpy/main_window.py:640-654 | toggling visibility keeps the invariant |
| EditorProofs.PressKeepsCoherent | cartograpy/main_window.py:457-465 | a button press keeps the invariant |
| EditorProofs.PressThenStillDragMovesNothing | cartograpy/main_window.py:457-548 | after a press, a drag to the same position moves no layer, because the drag measures the cursor's travel from the recorded press |
| EditorProofs.KeyDownKeepsCoherent | cartograpy/main_window.py:290-326 | nudging a layer keeps the invariant |
| EditorProofs.MotionKeepsCoherent | cartograpy/main_window.py:526-566 | drag and pan keep the invariant |
| EditorProofs.DragKeepsCoherent | cartograpy/main_window.py:535-550 | dragging keeps the invariant |
| EditorProofs.PanKeepsCoherent | cartograpy/main_window.py:553-566 | panning keeps the invariant |
| EditorProofs.DragSteps | cartograpy/main_window.py:535-548 | a drag records the cursor, moves the selected rectangle and updates the minimap without resampling |
| EditorProofs.PanSteps | cartograpy/main_window.py:553-565 | a pan records the cursor, moves every rectangle and updates the minimap without resampling |
| EditorProofs.CanvasEditKeepsCoherent | cartograpy/main_window.py:535-565 | moving canvas rectangles without resizing them keeps the invariant |
| EditorProofs.MouseWheelKeepsCoherent | cartograpy/main_window.py:568-599 | zooming keeps the invariant: canvas sizes are recomputed from the unscaled sizes at the new factor |
| EditorProofs.AddThenRemoveRestores | cartograpy/main_window.py:328-455 | removing the layer just added (row 0) restores the canvas layers, the unscaled store, the list, the file map and the cache, with only the counter moved on; it raises exactly when there was no layer before |
| EditorProofs.AddedFileEvicted | cartograpy/main_window.py:448-451 | the file of a layer just added is used by no other layer, so removing it evicts it |
| EditorProofs.DuplicateThenRemoveRestores | cartograpy/main_window.py:374-455 | removing the copy the corrected duplicate just made (same row) succeeds and restores the canvas layers, the unscaled store, the list, the file map and the cache, because the source still uses the file |
| EditorProofs.RemoveCopy | cartograpy/main_window.py:414-455 | removing the copy at row `p` of a coherent session succeeds and gives back the layers from before the copy |
| EditorProofs.RemoveResult | cartograpy/main_window.py:424-455 | a removal succeeds exactly when the session holds more than one layer, and it drops the row from the list and the layer at the mirrored position from every store, evicting its file exactly when unused |
| EditorProofs.CopyRemoved | cartograpy/main_window.py:429-451 | removing what the corrected copy inserted gives back the canvas layers, the unscaled store, the list, the file map and the cache |
| EditorProofs.CopyFileKept | cartograpy/main_window.py:448 | dropping a copy keeps its file, because the source still uses it |
| EditorProofs.SwapTwiceRestores | cartograpy/main_window.py:617-638 | the corrected swap of the same rows twice gives the session back, and a row swapped with itself changes nothing |
| EditorProofs.SwapTwiceRestoresAsWritten | cartograpy/main_window.py:626-636 | the swap as written, applied twice to the same rows, gives the session back, and a row swapped with itself changes nothing |
| EditorProofs.ToggleTwiceRestores | cartograpy/main_window.py:640-654 | toggling the same row twice gives the session back |
| EditorProofs.OppositeArrowsCancel | cartograpy/main_window.py:298-326 | an arrow key followed by the opposite one puts the layer back |
| EditorProofs.DragMovesOnlySelection | cartograpy/main_window.py:535-548 | dragging moves the selected layer by the cursor's travel and no other layer |
| EditorProofs.DragStepsCompose | cartograpy/main_window.py:535-548 | two drag steps move the layer as far as one move over the cursor's whole travel |
| EditorProofs.DragsCompose | cartograpy/main_window.py:535-548 | a drag starting where another ended adds up to one drag |
| EditorProofs.DragResult | cartograpy/main_window.py:535-548 | one drag step of a valid selection records the cursor and moves the selected rectangle by the cursor's travel |
| EditorProofs.PanKeepsLayout | cartograpy/main_window.py:553-566 | panning keeps every layer's offset from every other and every size |
| EditorProofs.WheelWithoutChangeKeepsCanvas | cartograpy/main_window.py:568-599 | on a coherent canvas, a wheel event that keeps the factor changes nothing on the canvas |
| EditorProofs.WheelRoundTrip | cartograpy/main_window.py:568-599 | zooming in and back out about the same cursor restores a coherent canvas and its factor |
| EditorProofs.WheelKeepsPointedCorner | cartograpy/main_window.py:588-591 | a layer whose corner is under the cursor stays under it while zooming |
| Findings.SwapLeavesUnscaled | cartograpy/main_window.py:617-638 | the source's swap of two layers of different widths moves the canvas rectangle but not the unscaled one, so the canvas size is out of step at the destination |
| Findings.SwapKeepsUnscaled | cartograpy/main_window.py:626-636 | the source's swap moves the canvas layer and keeps the unscaled store and the factor |
| Findings.SwapBreaksScaled | cartograpy/main_window.py:632 | a canvas rectangle moved without its unscaled rectangle is out of step when the unscaled widths differ |
| Findings.WheelResizesOutOfStep | cartograpy/main_window.py:588-593 | the next wheel event, even at an unchanged factor, resizes an out-of-step layer to its unscaled size, in the same order |
| Findings.SwapFixedThenWheelKeepsCanvas | cartograpy/main_window.py:617-638 | after the corrected swap the same wheel event leaves the canvas untouched |
| Findings.AddAddRemoveLeavesLone | cartograpy/main_window.py:328-455 | adding two images and removing the first leaves a one-layer session whose only id is 1 |
| Findings.TwoAdded | cartograpy/main_window.py:328-372 | two adds list the second image first |
| Findings.AddOnto | cartograpy/main_window.py:328-372 | an add puts the counter at the head of the list and keeps the invariant |
| Findings.RemoveBottom | cartograpy/main_window.py:414-455 | removing row 1 of the list `[1, 0]` leaves `[1]`, coherent |
| Findings.DuplicateReadsById | cartograpy/main_window.py:384-386 | when the selected id is not below the number of layers, the source's duplicate raises `IndexError` while the corrected one succeeds |
| Findings.DuplicateAfterAddAddRemoveFails | cartograpy/main_window.py:384-386 | add, add, remove the first, duplicate: the source raises `IndexError` |
| Findings.DuplicateMisorders | cartograpy/main_window.py:387-408 | a successful source duplicate shows the copy at row `p` while storage position `n - 1 - p` of the grown canvas holds the source, so the list no longer mirrors the order |
| Findings.DuplicateMisscales | cartograpy/main_window.py:386-390 | away from zoom level 0 the source's duplicate stores the copy's canvas rectangle as its unscaled one, so the copy's canvas size no longer follows its unscaled size |
| Findings.CopyMisscaled | cartograpy/main_window.py:386-390 | the copy the source stores at `n - 1 - p` has the canvas rectangle as its unscaled one, which is out of step whenever its width is non-zero and the factor is not 1 |

## Left out

- wx widgets, painting and `Refresh()`: the panel sizes come in as the `Panels` parameter. The layer list is modelled only by the ids of its rows. `CheckItem`/`Select` and what the inspector does with them are not modelled.
- File I/O: copying the image to the temporary directory, `os.remove`, and `reset`'s directory clean-up. A layer's file is modelled as the counter value at its import, which is what the temporary file is named after.
- Bitmap decoding and `__scale` resampling: an image is given by its width and height. The three bitmap caches always hold the same keys and are modelled as one set of files. The three id-to-file maps are always equal and are modelled as one map.
- `Canvas.zoom`: the factor it produces is a parameter of `Editor.OnMouseWheel`. The arrow-key step `ceil(scale_factor)` is a parameter of `Editor.OnKeyDown`. `canvas.py` is not part of this model.
- `Rect.scale`, `canvas.order`, `minimap.camera` and `minimap.delete` are not defined in the modelled files. Their behaviour is inferred from use: `scale` scales all four fields, and `minimap.delete(index)` deletes the minimap rectangle at `index`.
- Numbers: coordinates are idealised as real numbers, not numpy floats. An array built from a non-empty list of integer `Rect`s would have an integer dtype; the stores the handlers use start from an empty, float-typed array.
- Minimap.Recompute: a bounding box of zero width or zero height is skipped, and the minimap stays as it was. The code instead divides by zero in numpy, which gives inf, or nan when that panel side is 0 too. Python's `min` (line 688) keeps its first argument unless the second is smaller, and every comparison with nan is false. The outcomes are:
  - zero height and non-zero width: the update completes with the width factor;
  - zero width and non-zero height: the update completes with the height factor, unless the minimap panel has zero width; then the factor is nan and `int()` at line 698 raises `ValueError`;
  - both zero: `int()` of inf or nan raises `ValueError` or `OverflowError`.
- Editor.Evict: the three `del`s of a cached bitmap (lines 449-451) would raise `KeyError` if a cache lacked the file. The model's set difference never fails. This cannot happen while `EditorProofs.Coherent` holds, because it makes the cache exactly the set of files in use.
- Editor.Reset: `canvas.reset()` and `inspector.reset()` are not part of this model. The model assumes they leave empty stores, zoom factor 1.0, minimap factor 1.0 and a zero camera. `Minimap.CachedScale` and the resampling at the first add depend on the starting minimap factor.
- `GetItemData` on a row outside the list (including "no selection", -1) is modelled as `IndexError`. wx's own assertion error is not modelled.
- The sender of the swap event is not part of this model. The corrected swap's invariant lemmas take the list with the two rows already exchanged.
- `to_dict`, saving, loading, menus, the toolbar colour picker and `__continue` are not part of the core modelled here.

## Findings

| source | as written | input that shows it | evidently intended | confidence | as-written member | corrected member |
|---|---|---|---|---|---|---|
| cartograpy/main_window.py:617-638 | the swap exchanges order, visibility and rectangles in the canvas and the minimap, but not in `self.destinations`, the unscaled store | two layers of unscaled widths 100 and 50 at zoom 1, swapped, then any wheel event: the layer moved gets the other's width | swap `self.destinations` too, so sizes follow their layers | not executed | Findings.SwapLeavesUnscaled | Editor.OnSwapLayerFixed |
| cartograpy/main_window.py:384-386 | the duplicate reads `self.canvas.destinations[selected_data]`, indexing the store by layer id instead of storage position | add image A, add image B, remove A (row 1), duplicate the remaining layer (id 1, one layer): `IndexError` | read the rectangle at the selected layer's storage position `-(selected + 1)` | not executed | Findings.DuplicateAfterAddAddRemoveFails | Editor.OnLayerDuplicateFixed |
| cartograpy/main_window.py:387-408 | every store inserts the copy at `-(selected + 1)`, storage position `n - 1 - p`, below its source; the list inserts it at row `p`, above its source | any successful duplicate: list row `p` shows the copy, while storage position `n - 1 - p` holds the source, so hiding or moving row `p` afterwards acts on the source | insert at storage position `n - p`, just above the source, matching the list | not executed | Findings.DuplicateMisorders | EditorProofs.DuplicateFixedKeepsCoherent |
| cartograpy/main_window.py:386-390 | the canvas rectangle, already scaled by the zoom, is inserted into the unscaled store | zoom factor 2, duplicate a 100 x 100 layer: its unscaled size becomes 200 x 200, and the next wheel event doubles the copy | insert the source's unscaled rectangle into `self.destinations` | not executed | Findings.DuplicateMisscales | Editor.DuplicateRow |
