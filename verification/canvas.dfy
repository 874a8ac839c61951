/**
 The five edit handlers of the sticker canvas, each a pure transition from the
 state before the event to the state after it. The clock and random-number
 readings the source takes from the environment are parameters here.
 */
module Canvas {
  import opened CanvasState
  import ShapeIds

  /**
   `insertSticker(imageUrl)`: store a new sticker with fill `imageUrl` under the
   id derived from the clock, at a random point of the 800 by 600 area, and
   select it. `randomX` and `randomY` are the two `Math.random()` samples.
   */
  function InsertSticker(s: State, imageUrl: string, now: nat, randomX: real, randomY: real): (r: State)
    requires 0.0 <= randomX < 1.0 && 0.0 <= randomY < 1.0
    ensures var id := ShapeIds.ShapeId(now);
      && id in r.shapes
      && r.shapes[id] == Shape(randomX * CanvasWidth, randomY * CanvasHeight, imageUrl)
      && 0.0 <= r.shapes[id].x < CanvasWidth
      && 0.0 <= r.shapes[id].y < CanvasHeight
      && r.shapes.Keys == s.shapes.Keys + {id}
      && UnchangedExcept(s.shapes, r.shapes, id)
      && r.selectedShape == Some(id)
    ensures HasSelection(r.selectedShape)
    ensures r.isDragging == s.isDragging && r.historyPaused == s.historyPaused
  {
    var id := ShapeIds.ShapeId(now);
    s.(shapes := s.shapes[id := Shape(randomX * CanvasWidth, randomY * CanvasHeight, imageUrl)],
       selectedShape := Some(id))
  }

  /**
   `deleteSticker()`: with nothing selected, nothing happens; otherwise the
   selected id is removed from the map (a no-op on the map when it is already
   gone) and the selection is cleared.
   */
  function DeleteSticker(s: State): (r: State)
    ensures !HasSelection(s.selectedShape) ==> r == s
    ensures HasSelection(s.selectedShape) ==>
      && r.shapes.Keys == s.shapes.Keys - {s.selectedShape.value}
      && UnchangedExcept(s.shapes, r.shapes, s.selectedShape.value)
      && r.selectedShape == None
    ensures !HasSelection(r.selectedShape)
    ensures r.isDragging == s.isDragging && r.historyPaused == s.historyPaused
  {
    if !HasSelection(s.selectedShape) then s
    else s.(shapes := s.shapes - {s.selectedShape.value}, selectedShape := None)
  }

  /**
   `onShapePointerDown(e, shapeId)`: pause the history, select the shape and
   start a drag. The shape map is not read or written.
   */
  function OnShapePointerDown(s: State, shapeId: string): (r: State)
    ensures r.shapes == s.shapes
    ensures r.selectedShape == Some(shapeId)
    ensures r.isDragging && r.historyPaused
  {
    s.(selectedShape := Some(shapeId), isDragging := true, historyPaused := true)
  }

  /**
   `onCanvasPointerUp()`: a release that ends no drag is a click on empty
   canvas and clears the selection; a release that ends a drag keeps it. Either
   way the drag ends and the history resumes.
   */
  function OnCanvasPointerUp(s: State): (r: State)
    ensures r.shapes == s.shapes
    ensures s.isDragging ==> r.selectedShape == s.selectedShape
    ensures !s.isDragging ==> r.selectedShape == None
    ensures !r.isDragging && !r.historyPaused
  {
    s.(selectedShape := if s.isDragging then s.selectedShape else None,
       isDragging := false, historyPaused := false)
  }

  /**
   The guard of `onCanvasPointerMove`: a drag is in progress, something is
   selected, and the selected shape is still in the map (another participant
   may have deleted it).
   */
  predicate DragTargetPresent(s: State) {
    s.isDragging && HasSelection(s.selectedShape) && s.selectedShape.value in s.shapes
  }

  /**
   `onCanvasPointerMove(e)`: while dragging a present shape, place it with its
   corner `DragOffset` above and left of the pointer; otherwise do nothing.
   */
  function OnCanvasPointerMove(s: State, clientX: real, clientY: real): (r: State)
    ensures !DragTargetPresent(s) ==> r == s
    ensures DragTargetPresent(s) ==>
      var id := s.selectedShape.value;
      && r.shapes.Keys == s.shapes.Keys
      && UnchangedExcept(s.shapes, r.shapes, id)
      && r.shapes[id].x == clientX - DragOffset
      && r.shapes[id].y == clientY - DragOffset
      && r.shapes[id].fill == s.shapes[id].fill
    ensures r.selectedShape == s.selectedShape
    ensures r.isDragging == s.isDragging && r.historyPaused == s.historyPaused
  {
    if !DragTargetPresent(s) then s
    else
      var id := s.selectedShape.value;
      var shape := s.shapes[id];
      s.(shapes := s.shapes[id := shape.(x := clientX - DragOffset, y := clientY - DragOffset)])
  }

  /** A second `deleteSticker()` right after the first changes nothing. */
  lemma DeleteStickerIdempotent(s: State)
    ensures DeleteSticker(DeleteSticker(s)) == DeleteSticker(s)
  {
  }

  /**
   Deleting right after inserting under an unused id restores the shape map
   and leaves nothing selected.
   */
  lemma DeleteUndoesInsert(s: State, imageUrl: string, now: nat, randomX: real, randomY: real)
    requires 0.0 <= randomX < 1.0 && 0.0 <= randomY < 1.0
    requires ShapeIds.ShapeId(now) !in s.shapes
    ensures DeleteSticker(InsertSticker(s, imageUrl, now, randomX, randomY)) == s.(selectedShape := None)
  {
    var r := DeleteSticker(InsertSticker(s, imageUrl, now, randomX, randomY));
    assert r.shapes.Keys == s.shapes.Keys;
    assert r.shapes == s.shapes;
  }

  /**
   An insertion whose clock reading equals that of an existing sticker replaces
   that sticker's record: the map does not grow.
   */
  lemma InsertStickerSameIdOverwrites(s: State, imageUrl: string, now: nat, randomX: real, randomY: real)
    requires 0.0 <= randomX < 1.0 && 0.0 <= randomY < 1.0
    requires ShapeIds.ShapeId(now) in s.shapes
    ensures |InsertSticker(s, imageUrl, now, randomX, randomY).shapes| == |s.shapes|
    ensures InsertSticker(s, imageUrl, now, randomX, randomY).shapes[ShapeIds.ShapeId(now)].fill == imageUrl
  {
    var r := InsertSticker(s, imageUrl, now, randomX, randomY);
    assert r.shapes.Keys == s.shapes.Keys;
  }

  /** An insertion under a fresh id grows the map by exactly one sticker. */
  lemma InsertStickerFreshIdGrows(s: State, imageUrl: string, now: nat, randomX: real, randomY: real)
    requires 0.0 <= randomX < 1.0 && 0.0 <= randomY < 1.0
    requires ShapeIds.ShapeId(now) !in s.shapes
    ensures |InsertSticker(s, imageUrl, now, randomX, randomY).shapes| == |s.shapes| + 1
  {
    var r := InsertSticker(s, imageUrl, now, randomX, randomY);
    assert r.shapes.Keys == s.shapes.Keys + {ShapeIds.ShapeId(now)};
  }

  /**
   Selection is exclusive per participant: after pressing `a` and then `b`, the
   participant's presence names `b` alone.
   */
  lemma SecondPointerDownReplacesSelection(s: State, a: string, b: string)
    ensures OnShapePointerDown(OnShapePointerDown(s, a), b).selectedShape == Some(b)
  {
  }
}
