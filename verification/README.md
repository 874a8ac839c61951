# Sticker canvas edit logic, modelled in Dafny

The sticker example is a shared canvas. Participants place image stickers, drag them and delete them. Participants who open the page with the same `roomId` query value, or with none (giving `nextjs-whiteboard`), join the same room. The room's storage holds a map `shapes` from a sticker id to a record `{x, y, fill}`. Each participant's presence holds `selectedShape`, which is a string or `null`. The page also keeps a React `isDragging` flag, and its pointer handlers pause and resume the room history.

This project models the edit logic of `Canvas` as a sequential state machine over an immutable `State`. The state has the shape map, the local selection, the dragging flag and a history-paused flag. The five handlers (`insertSticker`, `deleteSticker`, `onShapePointerDown`, `onCanvasPointerMove`, `onCanvasPointerUp`) are pure transition functions. Each one has a contract that states its guard, its effect and what it leaves untouched. The model also covers:

- the sticker's derived predicates (selected by me, selected by others, and the image shown);
- the room-id override rule;
- the decimal id that `Date.now().toString()` produces.

Modules:

- `CanvasState` (`canvas_state.dfy`): the state, the constants (800 by 600 scatter area, 50-pixel drag offset), JavaScript truthiness of the selection, and the frame predicate `UnchangedExcept`.
- `Canvas` (`canvas.dfy`): the five handlers.
- `Gestures` (`gestures.dfy`): event sequences, the full drag gesture, and the invariant that history is paused exactly while a drag is in progress.
- `StickerView` (`sticker_view.dfy`): what a rendered sticker derives from the state.
- `RoomId` (`room_id.dfy`): the `roomId` query override.
- `ShapeIds` (`shape_ids.dfy`): clock reading to sticker id, with its inverse.

Modelling decisions:

- The environment's inputs are parameters. The clock reading is `now: nat`, the two `Math.random()` samples are reals in `[0, 1)`, and pointer coordinates are reals. JavaScript floating-point rounding is not modelled.
- "Nothing selected" follows JavaScript truthiness: `null` and the empty string both count (`HasSelection`).
- `deleteSticker` never checks that the selected id is present (index.tsx:75-81). So it clears the selection either way, and deleting an absent key leaves the map as it was.
- The handlers run one after another, with a re-render between events. So each handler reads the `isDragging` value that the previous handler set.
- Two insertions in the same millisecond get the same id. The second one overwrites the first (`InsertStickerSameIdOverwrites`). Ids from different clock readings never collide (`ShapeIdInjective`).

## Model

| member | source | states |
|---|---|---|
| Canvas.InsertSticker | examples/nextjs-sticker/pages/index.tsx:58-72 | the clock-derived id is bound to `{x, y, fill = imageUrl}` with `x` in [0,800) and `y` in [0,600), replacing any record under that id; the map's keys grow by exactly that id; every other sticker is unchanged; the selection becomes the new id, which is non-empty; the drag and pause flags are unchanged |
| Canvas.DeleteSticker | examples/nextjs-sticker/pages/index.tsx:74-82 | with no selection (`null` or `""`) the whole state is unchanged; otherwise the selected id leaves the map, every other sticker is unchanged, and the selection becomes `null`; the result never has a selection; the flags are unchanged |
| Canvas.DeleteStickerIdempotent | examples/nextjs-sticker/pages/index.tsx:74-82 | a second delete right after the first is a no-op |
| Canvas.OnShapePointerDown | examples/nextjs-sticker/pages/index.tsx:84-93 | the selection becomes the pressed id, dragging becomes true and history is paused; the shape map is untouched |
| Canvas.OnCanvasPointerUp | examples/nextjs-sticker/pages/index.tsx:95-105 | a release that ends no drag clears the selection, and one that ends a drag keeps it; afterwards there is no drag and history is not paused; the map is untouched |
| Canvas.OnCanvasPointerMove | examples/nextjs-sticker/pages/index.tsx:107-129 | when not dragging, with nothing selected, or when the selected id is missing from the map, the whole state is unchanged; otherwise only the selected sticker moves, to (clientX-50, clientY-50), keeping its fill, with the same keys and every other sticker unchanged; selection and flags are never changed |
| Canvas.InsertStickerSameIdOverwrites | examples/nextjs-sticker/pages/index.tsx:59-70 | an insertion whose id is already present replaces that record: the map keeps its size and the id now carries the new fill |
| Canvas.InsertStickerFreshIdGrows | examples/nextjs-sticker/pages/index.tsx:59-70 | an insertion under an unused id adds exactly one sticker |
| Canvas.SecondPointerDownReplacesSelection | examples/nextjs-sticker/pages/index.tsx:89 | pressing `a` then `b` leaves only `b` selected by this participant |
| Gestures.MovesWhileDragging | examples/nextjs-sticker/pages/index.tsx:107-129 | during a drag, any number of moves keep the selection, the drag and the pause flag; the selected present sticker ends at the last point less the offset with its fill, and nothing else moves; with no target or no moves the map is unchanged |
| Gestures.DragGesture | examples/nextjs-sticker/pages/index.tsx:84-129 | down on `id`, any moves, then up: `id` stays selected, there is no drag, history is not paused, and the keys are unchanged; a present, non-empty `id` that was moved ends at the last point less the offset with its fill, and every other sticker is unchanged; otherwise the map is unchanged |
| Gestures.RunKeepsPausedIffDragging | examples/nextjs-sticker/pages/index.tsx:86-102 | if history is paused exactly when a drag is in progress before a sequence of events, it still is afterwards |
| Gestures.InsertDragDelete | examples/nextjs-sticker/pages/index.tsx:58-129 | from any state whose clock-derived id is unused, inserting a sticker, dragging it anywhere and deleting it leaves the shape map exactly as before, with nothing selected, no drag and history not paused |
| Gestures.InsertDragDeleteFromEmpty | examples/nextjs-sticker/pages/index.tsx:20-21 | from a freshly created room the same round trip returns exactly to the initial state |
| Canvas.DeleteUndoesInsert | examples/nextjs-sticker/pages/index.tsx:58-82 | deleting right after inserting under an unused id restores the shape map and leaves the selection `null`, with the flags unchanged |
| StickerView.SelectedByOthers | examples/nextjs-sticker/pages/index.tsx:210-212 | true exactly when some other participant's presence selection equals the sticker's id |
| StickerView.SelectedByOthersJoin | examples/nextjs-sticker/pages/index.tsx:210-212 | an extra participant makes a sticker selected by others exactly when that participant selects it or someone already did |
| StickerView.RenderedFill | examples/nextjs-sticker/pages/index.tsx:207-224 | the image source is never empty; it is the fill when the sticker is present with a non-empty fill, and `defaultImage.png` otherwise |
| StickerView.SelectedByMeExclusive | examples/nextjs-sticker/pages/index.tsx:209 | at most one id is selected by the local participant |
| StickerView.InsertedStickerView | examples/nextjs-sticker/pages/index.tsx:58-72 | right after insertion the new sticker is selected by me and shows its image, or the default image when the image URL is empty |
| StickerView.DeletedNothingSelectedByMe | examples/nextjs-sticker/pages/index.tsx:74-82 | after a delete, no non-empty id is selected by me |
| StickerView.SelectedByMe | examples/nextjs-sticker/pages/index.tsx:209 | true exactly when the local selection is the sticker's id (a `null` selection matches nothing); for a non-empty id this implies a selection is present |
| CanvasState.Init | examples/nextjs-sticker/pages/index.tsx:20-33 | a freshly created room has an empty shape map and no selection (lines 20-21), no drag (`useState(false)`, line 33), and history not paused (the history's starting state) |
| CanvasState.HasSelection | examples/nextjs-sticker/pages/index.tsx:76 | a selection counts exactly when it is neither `null` nor the empty string, the two falsy values `!shapeId` rejects (also at line 115) |
| ShapeIds.ShapeId | examples/nextjs-sticker/pages/index.tsx:59 | a new sticker's id is a non-empty string of decimal digits, so it always counts as a selection |
| RoomId.OverrideRoomId | examples/nextjs-sticker/pages/index.tsx:243-250 | the room id is `roomId-q` for a truthy query value `q` (a non-empty string, or any array joined by commas), and `roomId` otherwise; it always starts with `roomId` |
| RoomId.PageRoomId | examples/nextjs-sticker/pages/index.tsx:16 | the page's room is `nextjs-whiteboard` without a truthy override, and starts with `nextjs-whiteboard-` with one |
| RoomId.OverrideRoomIdInjective | examples/nextjs-sticker/pages/index.tsx:246 | distinct non-empty single query values give distinct room ids, none equal to the base room |
| RoomId.OverrideRoomIdSplits | examples/nextjs-sticker/pages/index.tsx:246 | with a truthy override, the room id is the base name, a `-`, and the query text, in that order |
| RoomId.JoinComma | examples/nextjs-sticker/pages/index.tsx:246 | an array renders as `""` when empty and as its single element when it has one |
| RoomId.JoinCommaLast | examples/nextjs-sticker/pages/index.tsx:246 | an array of two or more elements renders as the rendering of all but its last element, a comma, and the last element |
| ShapeIds.DecimalString | examples/nextjs-sticker/pages/index.tsx:59 | the rendering of a clock reading is a non-empty string of decimal digits, and it starts with `0` only for zero |
| ShapeIds.ParseDecimalString | examples/nextjs-sticker/pages/index.tsx:59 | reading the rendered digits back gives the clock reading |
| ShapeIds.ShapeIdInjective | examples/nextjs-sticker/pages/index.tsx:59 | two clock readings give the same sticker id exactly when they are equal |

## Left out

- Rendering: JSX layout, styles, the sticker's `transform`/`transition`, the popup and its toggle, and the `Loading` component. These are UI only.
- The sticker catalog read from `config.json`. It only populates the picker, and the model takes the chosen image URL as a parameter.
- The Liveblocks library: the convergent merge of the replicated map, presence broadcast, and the undo/redo stacks behind `useHistory`. That code is not part of this model. History is represented only by the paused flag that `pause()` and `resume()` set. The `addToHistory` option on presence updates is not modelled, and nothing is claimed about undo or redo.
- `Date.now()` and `Math.random()`. These become parameters. JavaScript number rounding is not modelled, so coordinates are exact reals.
- `e.stopPropagation()` and `e.preventDefault()`. These are event plumbing. The canvas element has no pointer-down handler (index.tsx:133-137), so no modelled handler depends on propagation being stopped.
- The Next.js router. The query value is a parameter.
- Concurrent edits by other participants. Their selections appear only as the sequence given to `SelectedByOthers`. A sticker deleted remotely shows up only as a selected id missing from the map, and the move handler's contract covers that case.
- A pointer release that never reaches the canvas, such as one outside the window or during a lost connection. It would leave a drag and the pause in place; the model has no such event.
