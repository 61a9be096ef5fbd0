/** The client's session logic: the table of handlers for server messages, and the
    local lifecycle of a stroke drawn with the pointer. Input events, the DOM and the
    clocks are abstracted into parameters. */
module Client {
  import opened Wrappers
  import opened Text
  import opened Strokes
  import opened Canvas
  import R = Rooms
  import opened Protocol

  /** Record one listed user's colour and display info under their id. */
  function RecordUser(c: Replica, u: R.User): (r: Replica)
    ensures r.userColors == c.userColors[u.id := u.color]
    ensures u.id in r.userInfo && r.userInfo[u.id].id == u.id
    ensures u.name != "" ==> r.userInfo[u.id].name == u.name
    ensures u.name == "" ==> r.userInfo[u.id].name == u.id
    ensures forall other :: other != u.id ==> (other in r.userInfo <==> other in c.userInfo)
    ensures forall other :: other != u.id && other in c.userInfo ==> r.userInfo[other] == c.userInfo[other]
    ensures r.strokes == c.strokes && r.cursors == c.cursors
  {
    SetUserInfo(SetUserColor(c, u.id, u.color), u.id, UserInfo(u.id, Or(u.name, u.id)))
  }

  /** Record every listed user in list order (a `forEach`); written from the back so
      that the last entry is the one applied last. */
  function RecordUsers(c: Replica, users: seq<R.User>): (r: Replica)
    ensures r.strokes == c.strokes && r.cursors == c.cursors
    decreases |users|
  {
    if |users| == 0 then c
    else RecordUser(RecordUsers(c, users[..|users| - 1]), users[|users| - 1])
  }

  /** The colour and display info recorded for a listed id are those of its last entry
      in the list; the display name falls back to the id. */
  lemma {:induction false} RecordUsersLastWins(c: Replica, users: seq<R.User>, i: nat)
    requires i < |users|
    requires forall j :: i < j < |users| ==> users[j].id != users[i].id
    ensures users[i].id in RecordUsers(c, users).userColors
    ensures RecordUsers(c, users).userColors[users[i].id] == users[i].color
    ensures users[i].id in RecordUsers(c, users).userInfo
    ensures RecordUsers(c, users).userInfo[users[i].id] == UserInfo(users[i].id, Or(users[i].name, users[i].id))
    decreases |users|
  {
    var n := |users| - 1;
    if i < n {
      var front := users[..n];
      assert front[i] == users[i];
      forall j | i < j < |front| ensures front[j].id != front[i].id {
        assert front[j] == users[j];
      }
      RecordUsersLastWins(c, front, i);
      assert users[n].id != users[i].id;
    }
  }

  /** An id the list does not mention keeps its colour and display info, or their absence. */
  lemma {:induction false} RecordUsersKeepsUnlisted(c: Replica, users: seq<R.User>, id: string)
    requires forall i :: 0 <= i < |users| ==> users[i].id != id
    ensures id in RecordUsers(c, users).userColors <==> id in c.userColors
    ensures id in c.userColors ==> RecordUsers(c, users).userColors[id] == c.userColors[id]
    ensures id in RecordUsers(c, users).userInfo <==> id in c.userInfo
    ensures id in c.userInfo ==> RecordUsers(c, users).userInfo[id] == c.userInfo[id]
    decreases |users|
  {
    if |users| > 0 {
      var n := |users| - 1;
      var front := users[..n];
      forall i | 0 <= i < |front| ensures front[i].id != id {
        assert front[i] == users[i];
      }
      RecordUsersKeepsUnlisted(c, front, id);
      assert users[n].id != id;
    }
  }

  /** The handler table: what each server message does to the replica. The user list
      display is not modelled; `user_left` only updates it. */
  function Handle(c: Replica, m: ServerMsg): (r: Replica)
    // Only drawing messages touch the strokes, and a stroke start only for a new, non-empty id.
    ensures !(m.FullState? || m.StrokeStarted? || m.SegmentAdded? || m.UndoApplied? || m.RedoApplied?) ==>
              r.strokes == c.strokes
    ensures m.StrokeStarted? && m.started.id != "" && m.started.id !in Ids(c.strokes) ==>
              r.strokes == c.strokes + [FromWire(m.started)]
    ensures m.StrokeStarted? && (m.started.id == "" || m.started.id in Ids(c.strokes)) ==> r == c
    // Only user and cursor messages touch colours and display info, only cursors touch cursors.
    ensures !(m.UserList? || m.UserJoined? || m.CursorMoved?) ==> r.userInfo == c.userInfo
    ensures !(m.UserList? || m.UserJoined?) ==> r.userColors == c.userColors
    ensures !m.CursorMoved? ==> r.cursors == c.cursors
    ensures m.UserLeft? || m.StrokeEnded? ==> r == c
    // The rest hand over to the replica operations.
    ensures m.FullState? ==> r == SetFullState(c, m.history)
    ensures m.UndoApplied? ==> r == RemoveStroke(c, m.strokeId)
    ensures m.RedoApplied? ==> r == ApplyRedo(c, m.stroke)
    ensures m.SegmentAdded? ==> r == AppendSegment(c, m.strokeId, m.start, m.end)
    ensures m.CursorMoved? ==> r == ApplyCursor(c, m.userId, m.userName, m.x, m.y)
    ensures m.UserList? ==> r == RecordUsers(c, m.users)
    ensures m.UserJoined? && m.user.Some? ==> r == RecordUser(c, m.user.value)
    ensures m.UserJoined? && m.user.None? ==> r == c
  {
    match m
    case FullState(history, _) => SetFullState(c, history)
    case UserList(users) => RecordUsers(c, users)
    case UserJoined(user, _) =>
      (match user
       case Some(u) => RecordUser(c, u)
       case None => c)
    case UserLeft(_, _) => c
    case StrokeStarted(w) =>
      if w.id != "" && w.id !in Ids(c.strokes) then ApplyStrokeStart(c, w) else c
    case SegmentAdded(strokeId, start, end) => ApplyStrokeSegment(c, strokeId, start, end)
    case StrokeEnded(strokeId) => ApplyStrokeEnd(c, strokeId)
    case CursorMoved(userId, userName, x, y) => ApplyCursor(c, userId, userName, x, y)
    case UndoApplied(strokeId, _) => ApplyUndo(c, strokeId)
    case RedoApplied(stroke) => ApplyRedo(c, stroke)
  }

  /** Handle messages in arrival order. */
  function Deliver(c: Replica, msgs: seq<ServerMsg>): Replica
    decreases |msgs|
  {
    if |msgs| == 0 then c else Deliver(Handle(c, msgs[0]), msgs[1..])
  }

  /** A stroke start delivered twice has the effect of delivering it once. */
  lemma StrokeStartIdempotent(c: Replica, w: WireStroke)
    ensures Handle(Handle(c, StrokeStarted(w)), StrokeStarted(w)) == Handle(c, StrokeStarted(w))
  {
    var c1 := Handle(c, StrokeStarted(w));
    if w.id != "" && w.id !in Ids(c.strokes) {
      assert Ids(c1.strokes)[|c.strokes|] == w.id;
    }
  }

  /** The state of the pointer: whether a stroke is being drawn, its id ("" when none)
      and the last pointer position. */
  datatype Pen = Pen(isDrawing: bool, strokeId: string, lastPos: Option<Point>)

  const IdlePen := Pen(false, "", None)

  /** Drawing tool, colour and width as selected in the toolbar. */
  datatype Tools = Tools(tool: string, color: string, width: real)

  datatype Session = Session(replica: Replica, pen: Pen, tools: Tools)

  /** The session after a pointer event, and the events sent to the server meanwhile. */
  datatype Effect = Effect(session: Session, sent: seq<ClientEvent>)

  /** The three pointer variables move together. */
  ghost predicate PenOk(p: Pen) {
    (p.isDrawing <==> p.lastPos.Some?) && (!p.isDrawing ==> p.strokeId == "")
  }

  /** `emitSegment`: nothing without a current stroke id. */
  function EmitSegment(strokeId: string, start: Point, end: Point): (sent: seq<ClientEvent>)
    ensures strokeId == "" <==> sent == []
    ensures strokeId != "" ==> sent == [StrokeSegment(strokeId, start, end)]
  {
    if strokeId == "" then [] else [StrokeSegment(strokeId, start, end)]
  }

  /** The stroke the client draws locally before the server has seen it. */
  function LocalStroke(id: string, tools: Tools): Stroke {
    Stroke(id, "local", tools.tool, Style(tools.color, tools.width), [], 0)
  }

  /** `pointerDown`. `eligible` is false for a non-primary mouse button or a multi-touch
      gesture; `freshId` is the id `genId` produced. */
  function PointerDown(s: Session, eligible: bool, pos: Point, freshId: string): (r: Effect)
    ensures !eligible ==> r == Effect(s, [])
    ensures eligible ==> r.session.pen == Pen(true, freshId, Some(pos)) && r.session.tools == s.tools
    ensures eligible ==> |r.sent| >= 1 && r.sent[0] == StrokeStart(freshId, s.tools.tool, Some(Style(s.tools.color, s.tools.width)))
    ensures eligible ==> r.sent[1..] == EmitSegment(freshId, pos, pos)
  {
    if !eligible then Effect(s, [])
    else
      var style := Style(s.tools.color, s.tools.width);
      var rep := AppendSegment(AddStroke(s.replica, LocalStroke(freshId, s.tools)), freshId, pos, pos);
      var sent := [StrokeStart(freshId, s.tools.tool, Some(style))] + EmitSegment(freshId, pos, pos);
      Effect(Session(rep, Pen(true, freshId, Some(pos)), s.tools), sent)
  }

  /** `pointerUp`. Not drawing: nothing. Otherwise a last segment, sent and drawn, only
      when the pointer moved since the last position; then the stroke end, and the pen
      is idle again. */
  function PointerUp(s: Session, pos: Point): (r: Effect)
    ensures !s.pen.isDrawing ==> r == Effect(s, [])
    ensures PenOk(s.pen) ==> PenOk(r.session.pen)
    ensures s.pen.isDrawing ==> r.session.pen == IdlePen && r.session.tools == s.tools
    ensures s.pen.isDrawing ==> |r.sent| >= 1 && r.sent[|r.sent| - 1] == StrokeEnd(s.pen.strokeId)
    ensures s.pen.isDrawing && s.pen.lastPos.Some? && s.pen.lastPos.value != pos ==>
              && r.session.replica == AppendSegment(s.replica, s.pen.strokeId, s.pen.lastPos.value, pos)
              && r.sent[..|r.sent| - 1] == EmitSegment(s.pen.strokeId, s.pen.lastPos.value, pos)
    ensures s.pen.isDrawing && (s.pen.lastPos.None? || s.pen.lastPos.value == pos) ==>
              r.session.replica == s.replica && r.sent == [StrokeEnd(s.pen.strokeId)]
  {
    if !s.pen.isDrawing then Effect(s, [])
    else
      var id := s.pen.strokeId;
      var moved := s.pen.lastPos.Some? && s.pen.lastPos.value != pos;
      var rep := if moved then AppendSegment(s.replica, id, s.pen.lastPos.value, pos) else s.replica;
      var seg := if moved then EmitSegment(id, s.pen.lastPos.value, pos) else [];
      Effect(Session(rep, IdlePen, s.tools), seg + [StrokeEnd(id)])
  }

  /** `pointerMove`. A multi-touch gesture ends the stroke. Otherwise the cursor is sent
      when its throttle allows (`cursorDue`); while drawing, the segment from the last
      position is always drawn locally but sent only when its throttle allows (`segmentDue`). */
  function PointerMove(s: Session, multiTouch: bool, pos: Point, cursorDue: bool, segmentDue: bool): (r: Effect)
    ensures PenOk(s.pen) ==> PenOk(r.session.pen)
    ensures multiTouch ==> r == (if s.pen.isDrawing then PointerUp(s, pos) else Effect(s, []))
    ensures !multiTouch && s.pen.isDrawing && s.pen.lastPos.Some? ==>
              && r.session.replica == AppendSegment(s.replica, s.pen.strokeId, s.pen.lastPos.value, pos)
              && r.session.pen == s.pen.(lastPos := Some(pos))
              && r.session.tools == s.tools
    ensures !multiTouch && !(s.pen.isDrawing && s.pen.lastPos.Some?) ==> r.session == s
    ensures !multiTouch ==> (cursorDue <==> |r.sent| >= 1 && r.sent[0] == Cursor(pos.x, pos.y))
    ensures !multiTouch && s.pen.isDrawing && s.pen.lastPos.Some? ==>
              r.sent == (if cursorDue then [Cursor(pos.x, pos.y)] else []) +
                        (if segmentDue then EmitSegment(s.pen.strokeId, s.pen.lastPos.value, pos) else [])
    ensures !multiTouch && !(s.pen.isDrawing && s.pen.lastPos.Some?) ==>
              r.sent == if cursorDue then [Cursor(pos.x, pos.y)] else []
  {
    if multiTouch then
      if s.pen.isDrawing then PointerUp(s, pos) else Effect(s, [])
    else
      var cursor := if cursorDue then [Cursor(pos.x, pos.y)] else [];
      if !s.pen.isDrawing || s.pen.lastPos.None? then Effect(s, cursor)
      else
        var last := s.pen.lastPos.value;
        var rep := AppendSegment(s.replica, s.pen.strokeId, last, pos);
        var seg := if segmentDue then EmitSegment(s.pen.strokeId, last, pos) else [];
        Effect(Session(rep, s.pen.(lastPos := Some(pos)), s.tools), cursor + seg)
  }

  /** After a pointer-down with an id the replica does not hold yet, the replica has
      one more stroke, at the tail: the local stroke with a single segment that starts
      and ends at the pointer. */
  lemma PointerDownAddsLocalStroke(s: Session, pos: Point, freshId: string)
    requires freshId !in Ids(s.replica.strokes)
    ensures var rep := PointerDown(s, true, pos, freshId).session.replica;
            && rep.strokes == s.replica.strokes + [LocalStroke(freshId, s.tools).(segments := [Segment(pos, pos)])]
            && rep.strokes[|rep.strokes| - 1].segments[0].start == rep.strokes[|rep.strokes| - 1].segments[0].end
  {
    var c1 := AddStroke(s.replica, LocalStroke(freshId, s.tools));
    var n := |s.replica.strokes|;
    IndexOfFresh(s.replica.strokes, LocalStroke(freshId, s.tools));
    var rep := AppendSegment(c1, freshId, pos, pos);
    var want := s.replica.strokes + [LocalStroke(freshId, s.tools).(segments := [Segment(pos, pos)])];
    assert |rep.strokes| == |want|;
    forall j | 0 <= j < |want| ensures rep.strokes[j] == want[j] {
      if j < n {
        assert c1.strokes[j] == s.replica.strokes[j];
      }
    }
  }

  /** Whatever ids the replica holds, a pointer-down adds exactly `freshId` to the tail
      of its id sequence. */
  lemma PointerDownIds(s: Session, pos: Point, freshId: string)
    ensures Ids(PointerDown(s, true, pos, freshId).session.replica.strokes) == Ids(s.replica.strokes) + [freshId]
  {
    var local := LocalStroke(freshId, s.tools);
    var c1 := AddStroke(s.replica, local);
    assert Ids(AppendSegment(c1, freshId, pos, pos).strokes) == Ids(c1.strokes);
    IdsAppend(s.replica.strokes, [local]);
  }

  /** What the client sends when its connection opens. */
  function OnOpen(): (e: ClientEvent)
    ensures e.JoinRoom? && e.roomId == "default"
  {
    JoinRoom("default", "", "")
  }
}
