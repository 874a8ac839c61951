/**
 What one rendered sticker derives from the state: whether the local
 participant has it selected, whether some other participant has, and which
 image it shows. Other participants are given as the sequence of their
 presence selections.
 */
module StickerView {
  import opened CanvasState
  import Canvas
  import ShapeIds

  /** Image shown for a sticker whose fill is empty or whose record is missing. */
  const DefaultImage: string := "defaultImage.png"

  /** `selectedShape === id`; a `null` selection matches no id. */
  function SelectedByMe(me: Option<string>, id: string): (b: bool)
    ensures b <==> me == Some(id)
    ensures b && id != "" ==> HasSelection(me)
  {
    me.Some? && me.value == id
  }

  /** `others.some(other => other.presence.selectedShape === id)`. */
  function SelectedByOthers(others: seq<Option<string>>, id: string): (r: bool)
    ensures r <==> exists i :: 0 <= i < |others| && others[i] == Some(id)
    decreases |others|
  {
    if |others| == 0 then false
    else if others[0] == Some(id) then true
    else
      var rest := SelectedByOthers(others[1..], id);
      assert forall i :: 1 <= i < |others| ==> others[i] == others[1..][i - 1];
      rest
  }

  /**
   `fill || "defaultImage.png"` over the record read with `?? {}`: the fill
   when the sticker is present with a non-empty fill, the default image
   otherwise. The image source is never empty.
   */
  function RenderedFill(shapes: map<string, Shape>, id: string): (src: string)
    ensures src != ""
    ensures id in shapes && shapes[id].fill != "" ==> src == shapes[id].fill
    ensures id !in shapes || shapes[id].fill == "" ==> src == DefaultImage
  {
    if id in shapes && shapes[id].fill != "" then shapes[id].fill else DefaultImage
  }

  /** At most one sticker is selected by the local participant. */
  lemma SelectedByMeExclusive(me: Option<string>, a: string, b: string)
    requires SelectedByMe(me, a) && SelectedByMe(me, b)
    ensures a == b
  {
  }

  /** Adding a participant who selects `id` makes `id` selected by others; adding one who does not changes nothing. */
  lemma {:induction false} SelectedByOthersJoin(others: seq<Option<string>>, joiner: Option<string>, id: string)
    ensures SelectedByOthers(others + [joiner], id) <==> SelectedByOthers(others, id) || joiner == Some(id)
  {
    var all := others + [joiner];
    if SelectedByOthers(all, id) && joiner != Some(id) {
      var i :| 0 <= i < |all| && all[i] == Some(id);
      assert i < |others| && others[i] == all[i];
    }
    if SelectedByOthers(others, id) {
      var i :| 0 <= i < |others| && others[i] == Some(id);
      assert all[i] == others[i];
    }
    if joiner == Some(id) {
      assert all[|others|] == joiner;
    }
  }

  /**
   Right after `insertSticker(imageUrl)`, the new sticker is selected by the
   local participant and shows `imageUrl`, or the default image when
   `imageUrl` is empty.
   */
  lemma InsertedStickerView(s: State, imageUrl: string, now: nat, randomX: real, randomY: real)
    requires 0.0 <= randomX < 1.0 && 0.0 <= randomY < 1.0
    ensures var r := Canvas.InsertSticker(s, imageUrl, now, randomX, randomY);
      && SelectedByMe(r.selectedShape, ShapeIds.ShapeId(now))
      && RenderedFill(r.shapes, ShapeIds.ShapeId(now)) == (if imageUrl == "" then DefaultImage else imageUrl)
  {
  }

  /** After `deleteSticker()` no sticker is selected by the local participant. */
  lemma DeletedNothingSelectedByMe(s: State, id: string)
    ensures !SelectedByMe(Canvas.DeleteSticker(s).selectedShape, id) || id == ""
  {
  }
}
