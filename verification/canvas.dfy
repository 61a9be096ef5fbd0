/** The client's replica of its room: the ordered stroke list it draws, plus the
    per-user colours, display info and cursor positions it has been told about. */
module Canvas {
  import opened Wrappers
  import opened Strokes

  datatype UserInfo = UserInfo(id: string, name: string)

  datatype Replica = Replica(strokes: seq<Stroke>,
                             userColors: map<string, string>,
                             userInfo: map<string, UserInfo>,
                             cursors: map<string, Point>)

  const EmptyReplica := Replica([], map[], map[], map[])

  /** `addStroke`: the stroke goes to the tail; nothing else changes. */
  function AddStroke(c: Replica, s: Stroke): (r: Replica)
    ensures |r.strokes| == |c.strokes| + 1 && r.strokes[|c.strokes|] == s
    ensures r.strokes[..|c.strokes|] == c.strokes
    ensures r.userColors == c.userColors && r.userInfo == c.userInfo && r.cursors == c.cursors
  {
    c.(strokes := c.strokes + [s])
  }

  /** `appendSegment` (its list part): one `{start, end}` onto the first stroke with the
      id, every other stroke as it was; an unknown id changes nothing. */
  function AppendSegment(c: Replica, strokeId: string, start: Point, end: Point): (r: Replica)
    ensures strokeId !in Ids(c.strokes) ==> r == c
    ensures strokeId in Ids(c.strokes) ==>
              var i := IndexOf(c.strokes, strokeId).value;
              && |r.strokes| == |c.strokes|
              && r.strokes[i] == c.strokes[i].(segments := c.strokes[i].segments + [Segment(start, end)])
              && (forall j :: 0 <= j < |c.strokes| && j != i ==> r.strokes[j] == c.strokes[j])
    ensures r == c.(strokes := r.strokes)
  {
    c.(strokes := AppendSegmentTo(c.strokes, strokeId, Segment(start, end)))
  }

  /** `removeStroke`: delete the first stroke with the id and keep the others in order;
      an unknown id changes nothing. */
  function RemoveStroke(c: Replica, strokeId: string): (r: Replica)
    ensures strokeId !in Ids(c.strokes) ==> r == c
    ensures strokeId in Ids(c.strokes) ==>
              var i := IndexOf(c.strokes, strokeId).value;
              r.strokes == c.strokes[..i] + c.strokes[i + 1..]
    ensures r == c.(strokes := r.strokes)
  {
    var r := c.(strokes := RemoveFirst(c.strokes, strokeId));
    assert strokeId in Ids(c.strokes) ==>
             var i := IndexOf(c.strokes, strokeId).value;
             r.strokes == c.strokes[..i] + c.strokes[i + 1..];
    r
  }

  /** `redoStroke`: the restored stroke goes back to the tail. */
  function RedoStroke(c: Replica, s: Stroke): (r: Replica)
    ensures r.strokes == c.strokes + [s]
    ensures r == c.(strokes := r.strokes)
  {
    AddStroke(c, s)
  }

  /** `setFullState`: the strokes become a copy of the snapshot's history (none when it
      is missing), each with missing segments read as none; the redo stack is not used. */
  function SetFullState(c: Replica, history: Option<seq<WireStroke>>): (r: Replica)
    ensures history.None? ==> r.strokes == []
    ensures history.Some? ==> |r.strokes| == |history.value|
    ensures history.Some? ==> forall i :: 0 <= i < |history.value| ==>
              && r.strokes[i].id == history.value[i].id
              && (history.value[i].segments.None? ==> r.strokes[i].segments == [])
              && (history.value[i].segments.Some? ==> r.strokes[i].segments == history.value[i].segments.value)
    ensures history.Some? ==> forall i :: 0 <= i < |history.value| ==> r.strokes[i] == FromWire(history.value[i])
    ensures r == c.(strokes := r.strokes)
  {
    c.(strokes := FromWireAll(history.GetOr([])))
  }

  function SetUserColor(c: Replica, userId: string, color: string): Replica {
    c.(userColors := c.userColors[userId := color])
  }

  function SetUserInfo(c: Replica, userId: string, info: UserInfo): Replica {
    c.(userInfo := c.userInfo[userId := info])
  }

  function SetCursor(c: Replica, userId: string, x: real, y: real): Replica {
    c.(cursors := c.cursors[userId := Point(x, y)])
  }

  /** `applyStrokeStart`: append the received stroke, its missing segments read as none.
      There is no duplicate check here. */
  function ApplyStrokeStart(c: Replica, w: WireStroke): (r: Replica)
    ensures r.strokes == c.strokes + [FromWire(w)]
    ensures w.segments.None? ==> r.strokes[|c.strokes|].segments == []
    ensures r == c.(strokes := r.strokes)
  {
    AddStroke(c, FromWire(w))
  }

  function ApplyStrokeSegment(c: Replica, strokeId: string, start: Point, end: Point): Replica {
    AppendSegment(c, strokeId, start, end)
  }

  /** `applyStrokeEnd`: the segment list is already complete, so nothing changes. */
  function ApplyStrokeEnd(c: Replica, strokeId: string): (r: Replica)
    ensures r == c
  {
    c
  }

  function ApplyUndo(c: Replica, strokeId: string): Replica {
    RemoveStroke(c, strokeId)
  }

  /** `applyRedo`: re-append the carried stroke; a message without one changes nothing. */
  function ApplyRedo(c: Replica, stroke: Option<WireStroke>): (r: Replica)
    ensures stroke.None? ==> r == c
    ensures stroke.Some? ==> r.strokes == c.strokes + [FromWire(stroke.value)]
    ensures r == c.(strokes := r.strokes)
  {
    match stroke
    case None => c
    case Some(w) => RedoStroke(c, FromWire(w))
  }

  /** `applyCursor`: overwrite that user's cursor and, when the message names anyone,
      their display info; every other user's cursor stays as it was. */
  function ApplyCursor(c: Replica, userId: string, userName: string, x: real, y: real): (r: Replica)
    ensures userId in r.cursors && r.cursors[userId] == Point(x, y)
    ensures forall u :: u != userId ==> (u in r.cursors <==> u in c.cursors)
    ensures forall u :: u != userId && u in c.cursors ==> r.cursors[u] == c.cursors[u]
    ensures userName != "" || userId != "" ==> r.userInfo == c.userInfo[userId := UserInfo(userId, userName)]
    ensures userName == "" && userId == "" ==> r.userInfo == c.userInfo
    ensures r.strokes == c.strokes && r.userColors == c.userColors
  {
    var c1 := SetCursor(c, userId, x, y);
    if userName != "" || userId != "" then SetUserInfo(c1, userId, UserInfo(userId, userName)) else c1
  }
}
