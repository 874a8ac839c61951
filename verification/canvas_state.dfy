/**
 The state the canvas's handlers read and write: the replicated shape map,
 the local participant's presence (its selected shape), the React
 `isDragging` flag, and whether the room's history is paused.
 */
module CanvasState {

  datatype Option<T> = None | Some(value: T)

  /** One sticker's record in the shared `shapes` map. Coordinates are exact reals. */
  datatype Shape = Shape(x: real, y: real, fill: string)

  datatype State = State(
    shapes: map<string, Shape>,
    selectedShape: Option<string>,
    isDragging: bool,
    historyPaused: bool)

  /** Width and height of the area new stickers are scattered over. */
  const CanvasWidth: real := 800.0
  const CanvasHeight: real := 600.0

  /** A dragged sticker is placed this far up and left of the pointer. */
  const DragOffset: real := 50.0

  /**
   The state of a freshly created room, as seen by its first participant:
   `initialStorage` gives an empty map and `initialPresence` no selection;
   no drag, history live. A later joiner starts from the room's current map.
   */
  function Init(): (s: State)
    ensures s.shapes == map[] && !s.isDragging && !s.historyPaused
    ensures !HasSelection(s.selectedShape)
  {
    State(map[], None, false, false)
  }

  /**
   JavaScript truthiness of `selectedShape`: both `null` and the empty string
   count as "nothing selected".
   */
  function HasSelection(sel: Option<string>): (b: bool)
    ensures b <==> sel != None && sel != Some("")
  {
    sel.Some? && sel.value != ""
  }

  /** Every key other than `id` is bound to the same record in `m1` and `m2`, or absent from both. */
  predicate UnchangedExcept(m1: map<string, Shape>, m2: map<string, Shape>, id: string) {
    && (forall k :: k in m1 && k != id ==> k in m2 && m2[k] == m1[k])
    && (forall k :: k in m2 && k != id ==> k in m1)
  }
}
