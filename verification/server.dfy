/** The server's message and close handlers as a pure step function: from the
    current store and registry, the connection and its event, to the next store and
    registry and the messages sent. Which sockets are open and the clock are inputs. */
module Server {
  import opened Wrappers
  import opened Text
  import opened Strokes
  import DS = DrawingState
  import R = Rooms
  import opened Protocol

  datatype Server = Server(store: DS.Store, registry: R.Registry)

  const Initial := Server(DS.EmptyStore, R.EmptyRegistry)

  /** The next state and everything sent while handling one input. */
  datatype Reaction = Reaction(server: Server, outbox: seq<Outgoing>)

  /** `out` is one broadcast of `msg` to room `room`: every entry carries `msg`, and the
      addressees are exactly the members that receive it. */
  ghost predicate IsBroadcast(out: seq<Outgoing>, reg: R.Registry, room: string, msg: ServerMsg,
                              exclude: Option<R.SocketId>, open: set<R.SocketId>)
  {
    && (forall i :: 0 <= i < |out| ==> out[i].msg == msg)
    && (forall sid :: (exists i :: 0 <= i < |out| && out[i].to == sid) <==>
                      sid in R.Members(reg, room) && R.Receives(sid, exclude, open))
  }

  /** The room a connection's drawing events act on: the room recorded for it, or the
      default room before it has joined. */
  function SenderRoom(s: Server, conn: R.SocketId): (room: string)
    ensures conn !in s.registry.socketToUser ==> room == DS.DEFAULT_ROOM
    ensures conn in s.registry.socketToUser ==> room == s.registry.socketToUser[conn].roomId
  {
    match R.GetSocketUser(s.registry, conn)
    case Some(meta) => meta.roomId
    case None => DS.DEFAULT_ROOM
  }

  /** The user id a connection acts as: the joined user's id, else the connection id. */
  function SenderId(s: Server, conn: R.SocketId): (id: string)
    ensures conn in s.registry.socketToUser ==> id == s.registry.socketToUser[conn].user.id
    ensures conn !in s.registry.socketToUser ==> id == conn
  {
    match R.GetSocketUser(s.registry, conn)
    case Some(meta) => meta.user.id
    case None => conn
  }

  /** The name shown with a connection's cursor: the joined user's name, else "User "
      and the first four characters of the connection id. */
  function SenderName(s: Server, conn: R.SocketId): (name: string)
    ensures conn in s.registry.socketToUser ==> name == s.registry.socketToUser[conn].user.name
    ensures conn !in s.registry.socketToUser ==>
              && |name| == 5 + (if |conn| <= 4 then |conn| else 4)
              && name[..5] == "User " && name[5..] <= conn
  {
    match R.GetSocketUser(s.registry, conn)
    case Some(meta) => meta.user.name
    case None => "User " + Slice(conn, 4)
  }

  /** "join_room": join, answer the sender with the user list and then the full state,
      and tell the other members. The drawing store is only read. */
  function OnJoin(s: Server, conn: R.SocketId, roomId: string, userId: string, userName: string,
                  open: set<R.SocketId>, now: nat): (r: Reaction)
    ensures var rId := Or(roomId, DS.DEFAULT_ROOM);
            var joined := R.JoinRoom(s.registry, conn, rId, Or(userId, conn), userName, now);
            var users := R.GetUsersInRoom(joined.0, rId);
            && r.server == Server(s.store, joined.0)
            && |r.outbox| >= 2
            && r.outbox[0] == R.Send(conn, UserList(users))
            && r.outbox[1] == R.Send(conn, FullState(Some(WireAll(DS.History(s.store, rId))),
                                                   Some(WireAll(DS.RedoStack(s.store, rId)))))
            && IsBroadcast(r.outbox[2..], joined.0, rId, UserJoined(Some(joined.1), users), Some(conn), open)
            && forall i :: 2 <= i < |r.outbox| ==> r.outbox[i].to != conn
  {
    var rId := Or(roomId, DS.DEFAULT_ROOM);
    var (reg', user) := R.JoinRoom(s.registry, conn, rId, Or(userId, conn), userName, now);
    var users := R.GetUsersInRoom(reg', rId);
    var full := DS.GetFullState(s.store, rId);
    var replies := [R.Send(conn, UserList(users)),
                    R.Send(conn, FullState(Some(WireAll(full.history)), Some(WireAll(full.redoStack))))];
    var others := R.BroadcastToRoom(reg', rId, UserJoined(Some(user), users), Some(conn), open);
    assert (replies + others)[2..] == others;
    Reaction(Server(s.store, reg'), replies + others)
  }

  /** "stroke_start": a new empty stroke at the tail of the sender's room history, then
      that stroke to every other open member. */
  function OnStrokeStart(s: Server, conn: R.SocketId, strokeId: string, tool: string, style: Option<Style>,
                         open: set<R.SocketId>, now: nat): (r: Reaction)
    ensures var room := SenderRoom(s, conn);
            var added := Stroke(strokeId, SenderId(s, conn), Or(tool, "brush"), style.GetOr(EmptyStyle), [], now);
            && DS.History(r.server.store, room) == DS.History(s.store, room) + [added]
            && DS.RedoStack(r.server.store, room) == DS.RedoStack(s.store, room)
            && DS.OtherRoomsUnchanged(s.store, r.server.store, room)
            && r.server.registry == s.registry
            && IsBroadcast(r.outbox, s.registry, room, StrokeStarted(ToWire(added)), Some(conn), open)
  {
    var room := SenderRoom(s, conn);
    var init := Stroke(strokeId, SenderId(s, conn), Or(tool, "brush"), style.GetOr(EmptyStyle), [], 0);
    var (st', stroke) := DS.AddStroke(s.store, room, init, now);
    Reaction(Server(st', s.registry), R.BroadcastToRoom(s.registry, room, StrokeStarted(ToWire(stroke)), Some(conn), open))
  }

  /** "stroke_segment": extend the stroke if the room history has it, and forward the
      segment to the other open members whether or not it did. */
  function OnStrokeSegment(s: Server, conn: R.SocketId, strokeId: string, start: Point, end: Point,
                           open: set<R.SocketId>): (r: Reaction)
    ensures var room := SenderRoom(s, conn);
            && r.server.store == DS.AppendSegment(s.store, room, strokeId, start, end).0
            && r.server.registry == s.registry
            && IsBroadcast(r.outbox, s.registry, room, SegmentAdded(strokeId, start, end), Some(conn), open)
  {
    var room := SenderRoom(s, conn);
    var (st', _) := DS.AppendSegment(s.store, room, strokeId, start, end);
    Reaction(Server(st', s.registry), R.BroadcastToRoom(s.registry, room, SegmentAdded(strokeId, start, end), Some(conn), open))
  }

  /** "stroke_end": no state change; only the stroke id goes to the other open members. */
  function OnStrokeEnd(s: Server, conn: R.SocketId, strokeId: string, open: set<R.SocketId>): (r: Reaction)
    ensures r.server == s
    ensures IsBroadcast(r.outbox, s.registry, SenderRoom(s, conn), StrokeEnded(strokeId), Some(conn), open)
  {
    Reaction(s, R.BroadcastToRoom(s.registry, SenderRoom(s, conn), StrokeEnded(strokeId), Some(conn), open))
  }

  /** "cursor": no state change; the position, with who moved it, to the other open members. */
  function OnCursor(s: Server, conn: R.SocketId, x: real, y: real, open: set<R.SocketId>): (r: Reaction)
    ensures r.server == s
    ensures IsBroadcast(r.outbox, s.registry, SenderRoom(s, conn),
                        CursorMoved(SenderId(s, conn), SenderName(s, conn), x, y), Some(conn), open)
  {
    var msg := CursorMoved(SenderId(s, conn), SenderName(s, conn), x, y);
    Reaction(s, R.BroadcastToRoom(s.registry, SenderRoom(s, conn), msg, Some(conn), open))
  }

  /** "undo": undo in the sender's room; only when a stroke came off the history, tell
      every open member, the sender included, which stroke it was. */
  function OnUndo(s: Server, conn: R.SocketId, open: set<R.SocketId>): (r: Reaction)
    ensures var room := SenderRoom(s, conn);
            var (st', removed) := DS.Undo(s.store, room);
            && r.server == Server(st', s.registry)
            && (removed.None? ==> r.outbox == [])
            && (removed.Some? ==>
                  IsBroadcast(r.outbox, s.registry, room, UndoApplied(removed.value.id, removed.value.userId), None, open))
  {
    var room := SenderRoom(s, conn);
    var (st', removed) := DS.Undo(s.store, room);
    var out := match removed
      case None => []
      case Some(x) => R.BroadcastToRoom(s.registry, room, UndoApplied(x.id, x.userId), None, open);
    Reaction(Server(st', s.registry), out)
  }

  /** "redo": redo in the sender's room; only when a stroke came back, send the whole
      stroke to every open member, the sender included. */
  function OnRedo(s: Server, conn: R.SocketId, open: set<R.SocketId>): (r: Reaction)
    ensures var room := SenderRoom(s, conn);
            var (st', restored) := DS.Redo(s.store, room);
            && r.server == Server(st', s.registry)
            && (restored.None? ==> r.outbox == [])
            && (restored.Some? ==>
                  IsBroadcast(r.outbox, s.registry, room, RedoApplied(Some(ToWire(restored.value))), None, open))
  {
    var room := SenderRoom(s, conn);
    var (st', restored) := DS.Redo(s.store, room);
    var out := match restored
      case None => []
      case Some(x) => R.BroadcastToRoom(s.registry, room, RedoApplied(Some(ToWire(x))), None, open);
    Reaction(Server(st', s.registry), out)
  }

  /** The message handler. Unparsable text and unknown events change nothing and send
      nothing; only a join touches the registry; every known event goes to its handler,
      with the event's own fields and the sender's connection. */
  function OnMessage(s: Server, conn: R.SocketId, input: Inbound, open: set<R.SocketId>, now: nat): (r: Reaction)
    ensures input.Unparsable? || input.event.Unknown? ==> r == Reaction(s, [])
    ensures !(input.Parsed? && input.event.JoinRoom?) ==> r.server.registry == s.registry
    ensures input.Parsed? && input.event.JoinRoom? ==>
              var e := input.event; r == OnJoin(s, conn, e.roomId, e.userId, e.userName, open, now)
    ensures input.Parsed? && input.event.StrokeStart? ==>
              var e := input.event; r == OnStrokeStart(s, conn, e.strokeId, e.tool, e.style, open, now)
    ensures input.Parsed? && input.event.StrokeSegment? ==>
              var e := input.event; r == OnStrokeSegment(s, conn, e.strokeId, e.start, e.end, open)
    ensures input.Parsed? && input.event.StrokeEnd? ==> r == OnStrokeEnd(s, conn, input.event.strokeId, open)
    ensures input.Parsed? && input.event.Cursor? ==> r == OnCursor(s, conn, input.event.x, input.event.y, open)
    ensures input.Parsed? && input.event.Undo? ==> r == OnUndo(s, conn, open)
    ensures input.Parsed? && input.event.Redo? ==> r == OnRedo(s, conn, open)
  {
    match input
    case Unparsable => Reaction(s, [])
    case Parsed(ev) =>
      match ev
      case JoinRoom(roomId, userId, userName) => OnJoin(s, conn, roomId, userId, userName, open, now)
      case StrokeStart(strokeId, tool, style) => OnStrokeStart(s, conn, strokeId, tool, style, open, now)
      case StrokeSegment(strokeId, start, end) => OnStrokeSegment(s, conn, strokeId, start, end, open)
      case StrokeEnd(strokeId) => OnStrokeEnd(s, conn, strokeId, open)
      case Cursor(x, y) => OnCursor(s, conn, x, y, open)
      case Undo => OnUndo(s, conn, open)
      case Redo => OnRedo(s, conn, open)
      case Unknown => Reaction(s, [])
  }

  /** The close handler: leave; when the socket had joined, tell the remaining open
      members of its room who left. The drawing store is untouched, even when the room
      is deleted, and the closed socket is sent nothing. */
  function OnClose(s: Server, conn: R.SocketId, open: set<R.SocketId>): (r: Reaction)
    ensures r.server.store == s.store
    ensures r.server.registry == R.LeaveRoom(s.registry, conn).0
    ensures conn !in s.registry.socketToUser ==> r == Reaction(s, [])
    ensures conn in s.registry.socketToUser ==>
              var meta := s.registry.socketToUser[conn];
              IsBroadcast(r.outbox, r.server.registry, meta.roomId,
                          UserLeft(Some(meta.user), R.GetUsersInRoom(r.server.registry, meta.roomId)), None, open)
    ensures forall i :: 0 <= i < |r.outbox| ==> r.outbox[i].to != conn
  {
    var (reg', left) := R.LeaveRoom(s.registry, conn);
    match left
    case None => Reaction(Server(s.store, reg'), [])
    case Some(meta) =>
      var users := R.GetUsersInRoom(reg', meta.roomId);
      Reaction(Server(s.store, reg'),
               R.BroadcastToRoom(reg', meta.roomId, UserLeft(Some(meta.user), users), None, open - {conn}))
  }
}
