/** The messages exchanged over a connection, each as the `{event, data}` envelope
    it travels in, with the event name folded into the constructor. */
module Protocol {
  import opened Wrappers
  import opened Strokes
  import opened Rooms

  /** Client-to-server events. Absent text fields are "". */
  datatype ClientEvent =
    | JoinRoom(roomId: string, userId: string, userName: string)    // "join_room"
    | StrokeStart(strokeId: string, tool: string, style: Option<Style>)  // "stroke_start"
    | StrokeSegment(strokeId: string, start: Point, end: Point)     // "stroke_segment"
    | StrokeEnd(strokeId: string)                                   // "stroke_end"
    | Cursor(x: real, y: real)                                      // "cursor"
    | Undo                                                          // "undo"
    | Redo                                                          // "redo"
    | Unknown                                                       // any other event name

  /** What arrives on a connection: a parsed envelope, or text that is not JSON. */
  datatype Inbound = Unparsable | Parsed(event: ClientEvent)

  /** Server-to-client events. */
  datatype ServerMsg =
    | UserList(users: seq<User>)                                            // "user_list"
    | FullState(history: Option<seq<WireStroke>>, redoStack: Option<seq<WireStroke>>)  // "full_state"
    | UserJoined(user: Option<User>, users: seq<User>)                      // "user_joined"
    | UserLeft(user: Option<User>, users: seq<User>)                        // "user_left"
    | StrokeStarted(started: WireStroke)    // "stroke_start"; the payload is the stroke itself
    | SegmentAdded(strokeId: string, start: Point, end: Point)              // "stroke_segment"
    | StrokeEnded(strokeId: string)                                         // "stroke_end"
    | CursorMoved(userId: string, userName: string, x: real, y: real)       // "cursor"
    | UndoApplied(strokeId: string, userId: string)                         // "undo_applied"
    | RedoApplied(stroke: Option<WireStroke>)                               // "redo_applied"

  type Outgoing = Send<ServerMsg>

  /** The messages addressed to one socket, in sending order. */
  function Inbox(out: seq<Outgoing>, to: SocketId): (msgs: seq<ServerMsg>)
    ensures |msgs| <= |out|
  {
    if |out| == 0 then []
    else (if out[0].to == to then [out[0].msg] else []) + Inbox(out[1..], to)
  }

  /** Everything in an inbox was sent to that socket. */
  lemma {:induction false} InboxFromOutbox(out: seq<Outgoing>, to: SocketId)
    ensures forall m :: m in Inbox(out, to) ==> Send(to, m) in out
  {
    if |out| > 0 {
      InboxFromOutbox(out[1..], to);
      forall m | m in Inbox(out, to) ensures Send(to, m) in out {
        if m !in Inbox(out[1..], to) {
          assert out[0] == Send(to, m);
        } else {
          assert out == [out[0]] + out[1..];
        }
      }
    }
  }

  lemma {:induction false} InboxAppend(a: seq<Outgoing>, b: seq<Outgoing>, to: SocketId)
    ensures Inbox(a + b, to) == Inbox(a, to) + Inbox(b, to)
  {
    if |a| == 0 {
      assert a + b == b;
    } else {
      var head := if a[0].to == to then [a[0].msg] else [];
      assert (a + b)[0] == a[0] && (a + b)[1..] == a[1..] + b;
      assert Inbox(a + b, to) == head + Inbox(a[1..] + b, to);
      InboxAppend(a[1..], b, to);
      assert Inbox(a, to) == head + Inbox(a[1..], to);
    }
  }

  /** A socket that no message is addressed to receives nothing. */
  lemma {:induction false} InboxEmpty(out: seq<Outgoing>, to: SocketId)
    requires forall i :: 0 <= i < |out| ==> out[i].to != to
    ensures Inbox(out, to) == []
  {
    if |out| > 0 {
      InboxEmpty(out[1..], to);
    }
  }

  /** A socket addressed exactly once, with `msg`, receives just `msg`. */
  lemma {:induction false} InboxSingle(out: seq<Outgoing>, to: SocketId, msg: ServerMsg, k: nat)
    requires k < |out| && out[k] == Send(to, msg)
    requires forall i :: 0 <= i < |out| && i != k ==> out[i].to != to
    ensures Inbox(out, to) == [msg]
  {
    if k == 0 {
      InboxEmpty(out[1..], to);
    } else {
      InboxSingle(out[1..], to, msg, k - 1);
    }
  }

  /** What a broadcast delivers to one socket: the message once if it is a receiving
      member, nothing otherwise. */
  lemma BroadcastInbox(reg: Registry, roomId: string, msg: ServerMsg, exclude: Option<SocketId>,
                       open: set<SocketId>, to: SocketId)
    requires Valid(reg)
    ensures var out := BroadcastToRoom(reg, roomId, msg, exclude, open);
            Inbox(out, to) == if to in Members(reg, roomId) && Receives(to, exclude, open) then [msg] else []
  {
    var out := BroadcastToRoom(reg, roomId, msg, exclude, open);
    if to in Members(reg, roomId) && Receives(to, exclude, open) {
      var k :| 0 <= k < |out| && out[k].to == to;
      InboxSingle(out, to, msg, k);
    } else {
      InboxEmpty(out, to);
    }
  }
}
