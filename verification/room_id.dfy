/**
 The room a page joins. A deployment may pass a `roomId` query parameter,
 which is appended to the base room name so that each deployment gets its own
 room. Next.js gives a query parameter as absent, one string, or an array of
 strings (when the parameter is repeated).
 */
module RoomId {

  /** Base room name the canvas page passes in. */
  const BaseRoomId: string := "nextjs-whiteboard"

  datatype QueryParam = Absent | Single(value: string) | Multiple(values: seq<string>)

  /** JavaScript truthiness: absent and `""` are falsy; any array, even empty, is truthy. */
  predicate Truthy(q: QueryParam) {
    match q
    case Absent => false
    case Single(v) => v != ""
    case Multiple(_) => true
  }

  /** Array-to-string conversion: the elements joined by commas. */
  function JoinComma(parts: seq<string>): (r: string)
    ensures |parts| == 0 ==> r == ""
    ensures |parts| == 1 ==> r == parts[0]
    decreases |parts|
  {
    if |parts| == 0 then ""
    else if |parts| == 1 then parts[0]
    else parts[0] + "," + JoinComma(parts[1..])
  }

  /**
   Joining a longer array is joining all but its last element, then a comma,
   then the last element: the separator appears between elements only.
   */
  lemma {:induction false} JoinCommaLast(parts: seq<string>)
    requires |parts| > 1
    ensures JoinComma(parts) == JoinComma(parts[..|parts| - 1]) + "," + parts[|parts| - 1]
    decreases |parts|
  {
    var n := |parts|;
    var init := parts[..n - 1];
    var tail := parts[1..];
    assert JoinComma(parts) == parts[0] + "," + JoinComma(tail);
    if n == 2 {
      assert JoinComma(tail) == parts[1];
      assert JoinComma(init) == parts[0];
    } else {
      JoinCommaLast(tail);
      assert tail[..n - 2] == init[1..];
      assert tail[n - 2] == parts[n - 1];
      assert JoinComma(init) == init[0] + "," + JoinComma(init[1..]);
      assert JoinComma(tail) == JoinComma(init[1..]) + "," + parts[n - 1];
      assert parts[0] + "," + (JoinComma(init[1..]) + "," + parts[n - 1])
          == (init[0] + "," + JoinComma(init[1..])) + "," + parts[n - 1];
    }
  }

  /** The text a truthy query value contributes inside a template literal. */
  function Interpolate(q: QueryParam): string
    requires Truthy(q)
  {
    match q
    case Single(v) => v
    case Multiple(vs) => JoinComma(vs)
  }

  /** The override rule: `base-q` when the query carries a truthy `roomId` `q`, `base` otherwise. */
  function OverrideRoomId(roomId: string, q: QueryParam): (r: string)
    ensures Truthy(q) ==> r == roomId + "-" + Interpolate(q)
    ensures !Truthy(q) ==> r == roomId
    ensures |r| >= |roomId| && r[..|roomId|] == roomId
  {
    if Truthy(q) then roomId + "-" + Interpolate(q) else roomId
  }

  /** The room the canvas page joins: always the base name, extended only by a truthy query value. */
  function PageRoomId(q: QueryParam): (r: string)
    ensures !Truthy(q) ==> r == BaseRoomId
    ensures Truthy(q) ==> |r| > |BaseRoomId| && r[..|BaseRoomId| + 1] == BaseRoomId + "-"
  {
    var r := OverrideRoomId(BaseRoomId, q);
    assert Truthy(q) ==> r[..|BaseRoomId| + 1] == BaseRoomId + "-";
    r
  }

  /**
   Distinct non-empty single `roomId` values select distinct rooms, and none
   of them is the base room.
   */
  lemma OverrideRoomIdInjective(roomId: string, q1: string, q2: string)
    requires q1 != "" && q2 != ""
    ensures OverrideRoomId(roomId, Single(q1)) == OverrideRoomId(roomId, Single(q2)) <==> q1 == q2
    ensures OverrideRoomId(roomId, Single(q1)) != roomId
  {
    var r1 := OverrideRoomId(roomId, Single(q1));
    var r2 := OverrideRoomId(roomId, Single(q2));
    assert r1[|roomId| + 1..] == q1;
    assert r2[|roomId| + 1..] == q2;
  }

  /** The room id can be split back into the base name and the query text. */
  lemma {:induction false} OverrideRoomIdSplits(roomId: string, q: QueryParam)
    requires Truthy(q)
    ensures var r := OverrideRoomId(roomId, q);
      && |r| > |roomId|
      && r[|roomId|] == '-'
      && r[|roomId| + 1..] == Interpolate(q)
  {
    var r := OverrideRoomId(roomId, q);
    assert r == roomId + "-" + Interpolate(q);
    assert r[|roomId|] == ("-" + Interpolate(q))[0];
    assert r[|roomId| + 1..] == Interpolate(q);
  }
}
