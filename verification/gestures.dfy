/**
 Event sequences. One participant's input is a sequence of handler calls,
 applied one after another (React re-renders between events, so each handler
 sees the `isDragging` value the previous one set). This module proves the
 drag gesture end to end and the invariant that history is paused exactly
 while a drag is in progress.
 */
module Gestures {
  import opened CanvasState
  import opened Canvas
  import ShapeIds

  datatype Point = Point(x: real, y: real)

  datatype Event =
    | Insert(imageUrl: string, now: nat, randomX: real, randomY: real)
    | Delete
    | ShapePointerDown(shapeId: string)
    | CanvasPointerMove(clientX: real, clientY: real)
    | CanvasPointerUp

  /** The random samples of an insertion are what `Math.random()` can return. */
  predicate WellFormed(e: Event) {
    e.Insert? ==> 0.0 <= e.randomX < 1.0 && 0.0 <= e.randomY < 1.0
  }

  predicate AllWellFormed(es: seq<Event>) {
    forall i :: 0 <= i < |es| ==> WellFormed(es[i])
  }

  function Step(s: State, e: Event): State
    requires WellFormed(e)
  {
    match e
    case Insert(url, now, rx, ry) => InsertSticker(s, url, now, rx, ry)
    case Delete => DeleteSticker(s)
    case ShapePointerDown(id) => OnShapePointerDown(s, id)
    case CanvasPointerMove(cx, cy) => OnCanvasPointerMove(s, cx, cy)
    case CanvasPointerUp => OnCanvasPointerUp(s)
  }

  function Run(s: State, es: seq<Event>): State
    requires AllWellFormed(es)
    decreases |es|
  {
    if |es| == 0 then s else Run(Step(s, es[0]), es[1..])
  }

  /** Running `a + b` is running `a`, then `b` from where `a` left off. */
  lemma {:induction false} RunAppend(s: State, a: seq<Event>, b: seq<Event>)
    requires AllWellFormed(a) && AllWellFormed(b)
    ensures AllWellFormed(a + b)
    ensures Run(s, a + b) == Run(Run(s, a), b)
    decreases |a|
  {
    assert AllWellFormed(a + b) by {
      forall i | 0 <= i < |a + b| ensures WellFormed((a + b)[i]) {
        if i < |a| { assert (a + b)[i] == a[i]; } else { assert (a + b)[i] == b[i - |a|]; }
      }
    }
    if |a| == 0 {
      assert a + b == b;
    } else {
      assert (a + b)[0] == a[0];
      assert (a + b)[1..] == a[1..] + b;
      RunAppend(Step(s, a[0]), a[1..], b);
    }
  }

  /** The pointer-move events of a drag through the points `ps`, in order. */
  function Moves(ps: seq<Point>): (es: seq<Event>)
    ensures |es| == |ps|
    ensures forall i :: 0 <= i < |es| ==> es[i] == CanvasPointerMove(ps[i].x, ps[i].y)
    decreases |ps|
  {
    if |ps| == 0 then [] else [CanvasPointerMove(ps[0].x, ps[0].y)] + Moves(ps[1..])
  }

  /** Press on sticker `id`, move through `ps`, release. */
  function Drag(id: string, ps: seq<Point>): (es: seq<Event>)
    ensures AllWellFormed(es)
    ensures |es| == |ps| + 2
  {
    [ShapePointerDown(id)] + Moves(ps) + [CanvasPointerUp]
  }

  /**
   During a drag, a run of pointer moves leaves selection, dragging and pause
   state alone, and leaves the selected sticker (if present) where the last
   move put it, with its fill, and every other sticker where it was.
   */
  lemma {:induction false} MovesWhileDragging(s: State, ps: seq<Point>)
    requires s.isDragging
    ensures AllWellFormed(Moves(ps))
    ensures var r := Run(s, Moves(ps));
      && r.selectedShape == s.selectedShape
      && r.isDragging && r.historyPaused == s.historyPaused
      && r.shapes.Keys == s.shapes.Keys
      && (!DragTargetPresent(s) || |ps| == 0 ==> r.shapes == s.shapes)
      && (DragTargetPresent(s) && |ps| > 0 ==>
            var id := s.selectedShape.value;
            && UnchangedExcept(s.shapes, r.shapes, id)
            && r.shapes[id] == Shape(ps[|ps| - 1].x - DragOffset, ps[|ps| - 1].y - DragOffset, s.shapes[id].fill))
    decreases |ps|
  {
    var es := Moves(ps);
    if |ps| > 0 {
      var s' := OnCanvasPointerMove(s, ps[0].x, ps[0].y);
      assert es[1..] == Moves(ps[1..]);
      assert Run(s, es) == Run(s', Moves(ps[1..]));
      MovesWhileDragging(s', ps[1..]);
      if |ps| > 1 {
        assert ps[1..][|ps[1..]| - 1] == ps[|ps| - 1];
      }
    }
  }

  /**
   A complete drag of sticker `id` through `ps`: afterwards `id` is still
   selected, the drag is over and history is live again. The map keeps its
   keys; if `id` names a present sticker and the pointer moved, that sticker
   sits at the last point less the offset, fill unchanged, and nothing else
   moved; otherwise the map is exactly as before.
   */
  lemma DragGesture(s: State, id: string, ps: seq<Point>)
    ensures var r := Run(s, Drag(id, ps));
      && r.selectedShape == Some(id)
      && !r.isDragging && !r.historyPaused
      && r.shapes.Keys == s.shapes.Keys
      && (id == "" || id !in s.shapes || |ps| == 0 ==> r.shapes == s.shapes)
      && (id != "" && id in s.shapes && |ps| > 0 ==>
            && UnchangedExcept(s.shapes, r.shapes, id)
            && r.shapes[id] == Shape(ps[|ps| - 1].x - DragOffset, ps[|ps| - 1].y - DragOffset, s.shapes[id].fill))
  {
    var down := [ShapePointerDown(id)];
    var up := [CanvasPointerUp];
    var s1 := OnShapePointerDown(s, id);
    MovesWhileDragging(s1, ps);
    RunAppend(s, down, Moves(ps));
    RunAppend(s, down + Moves(ps), up);
    assert Run(s, down) == s1;
    var s2 := Run(s1, Moves(ps));
    assert Run(s, Drag(id, ps)) == OnCanvasPointerUp(s2);
  }

  /**
   History is paused exactly while a drag is in progress: pointer-down sets
   both, pointer-up clears both, and no other handler touches either.
   */
  predicate PausedIffDragging(s: State) {
    s.historyPaused == s.isDragging
  }

  lemma StepKeepsPausedIffDragging(s: State, e: Event)
    requires WellFormed(e)
    requires PausedIffDragging(s)
    ensures PausedIffDragging(Step(s, e))
  {
  }

  /**
   If history is paused exactly while a drag is in progress before a sequence
   of events, it still is afterwards: no sequence of handler calls leaves
   history paused outside a drag, or a drag running with history live.
   */
  lemma {:induction false} RunKeepsPausedIffDragging(s: State, es: seq<Event>)
    requires AllWellFormed(es)
    requires PausedIffDragging(s)
    ensures PausedIffDragging(Run(s, es))
    decreases |es|
  {
    if |es| > 0 {
      StepKeepsPausedIffDragging(s, es[0]);
      RunKeepsPausedIffDragging(Step(s, es[0]), es[1..]);
    }
  }

  lemma InitPausedIffDragging()
    ensures PausedIffDragging(Init())
  {
  }

  /**
   From any state in which the clock-derived id is unused: insert a sticker,
   drag it anywhere, delete it. The shape map is exactly as before, nothing is
   selected, no drag is in progress and history is live.
   */
  lemma InsertDragDelete(s: State, imageUrl: string, now: nat, randomX: real, randomY: real, ps: seq<Point>)
    requires 0.0 <= randomX < 1.0 && 0.0 <= randomY < 1.0
    requires ShapeIds.ShapeId(now) !in s.shapes
    ensures var es := [Insert(imageUrl, now, randomX, randomY)] + Drag(ShapeIds.ShapeId(now), ps) + [Delete];
      && AllWellFormed(es)
      && Run(s, es) == s.(selectedShape := None, isDragging := false, historyPaused := false)
  {
    var id := ShapeIds.ShapeId(now);
    var ins := [Insert(imageUrl, now, randomX, randomY)];
    var del := [Delete];
    assert AllWellFormed(ins);
    var s1 := InsertSticker(s, imageUrl, now, randomX, randomY);
    assert Run(s, ins) == s1;
    DragGesture(s1, id, ps);
    var s2 := Run(s1, Drag(id, ps));
    RunAppend(s, ins, Drag(id, ps));
    RunAppend(s, ins + Drag(id, ps), del);
    assert Run(s2, del) == DeleteSticker(s2);
    var s3 := DeleteSticker(s2);
    assert s3.shapes.Keys == s.shapes.Keys;
    assert forall k :: k in s.shapes ==> s3.shapes[k] == s.shapes[k];
    assert s3.shapes == s.shapes;
  }

  /** The same round trip from an empty room returns exactly to `Init()`. */
  lemma InsertDragDeleteFromEmpty(imageUrl: string, now: nat, randomX: real, randomY: real, ps: seq<Point>)
    requires 0.0 <= randomX < 1.0 && 0.0 <= randomY < 1.0
    ensures var es := [Insert(imageUrl, now, randomX, randomY)] + Drag(ShapeIds.ShapeId(now), ps) + [Delete];
      AllWellFormed(es) && Run(Init(), es) == Init()
  {
    InsertDragDelete(Init(), imageUrl, now, randomX, randomY, ps);
  }
}
