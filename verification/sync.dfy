/** How the server's room history and a client's replica stay in step: for each
    drawing event, what one member's inbox holds after the server handles it, and what
    its replica becomes once that inbox is handled. A replica is "in step" with a room
    when it lists the same stroke ids in the same order; a remote peer's replica is
    even equal to the history, stroke for stroke. */
module Sync {
  import opened Wrappers
  import opened Text
  import opened Strokes
  import DS = DrawingState
  import R = Rooms
  import opened Protocol
  import opened Canvas
  import opened Client
  import opened Server

  /** A member of the room that is open, so every broadcast to the room without an
      exclusion reaches it exactly once. */
  ghost predicate Listening(s: Server, room: string, to: R.SocketId, open: set<R.SocketId>) {
    R.Valid(s.registry) && to in R.Members(s.registry, room) && to in open
  }

  /** The replica lists exactly the room history's stroke ids, in order. */
  ghost predicate InStep(rep: Replica, s: Server, room: string) {
    Ids(rep.strokes) == Ids(DS.History(s.store, room))
  }

  lemma DeliverOne(c: Replica, m: ServerMsg)
    ensures Deliver(c, [m]) == Handle(c, m)
  {
    assert [m][1..] == [];
  }

  /** An `undo_applied` removes the first stroke with that id from the replica. */
  lemma DeliverUndo(rep: Replica, strokeId: string, userId: string)
    ensures Deliver(rep, [UndoApplied(strokeId, userId)]).strokes == RemoveFirst(rep.strokes, strokeId)
  {
    DeliverOne(rep, UndoApplied(strokeId, userId));
  }

  /** A `redo_applied` carrying a stroke puts that stroke back at the tail of the replica. */
  lemma DeliverRedo(rep: Replica, x: Stroke)
    ensures Deliver(rep, [RedoApplied(Some(ToWire(x)))]).strokes == rep.strokes + [x]
  {
    DeliverOne(rep, RedoApplied(Some(ToWire(x))));
    WireRoundTrip(x);
  }

  /** An undo, seen by any listening member, the sender included: the inbox holds one
      `undo_applied` when a stroke came off the history and nothing otherwise, and the
      replica stays in step. It relies on ids being distinct in the history: the server
      takes the last stroke off, the replica removes the first with that id. */
  lemma UndoKeepsInStep(s: Server, conn: R.SocketId, open: set<R.SocketId>, rep: Replica, to: R.SocketId)
    requires Listening(s, SenderRoom(s, conn), to, open)
    requires InStep(rep, s, SenderRoom(s, conn))
    requires DistinctIds(DS.History(s.store, SenderRoom(s, conn)))
    ensures var r := OnUndo(s, conn, open);
            var room := SenderRoom(s, conn);
            var h := DS.History(s.store, room);
            && |Inbox(r.outbox, to)| == (if h == [] then 0 else 1)
            && InStep(Deliver(rep, Inbox(r.outbox, to)), r.server, room)
  {
    var room := SenderRoom(s, conn);
    var h := DS.History(s.store, room);
    var r := OnUndo(s, conn, open);
    UndoInbox(s, conn, open, to);
    if h == [] {
      assert Inbox(r.outbox, to) == [] && r.server == s;
    } else {
      var n := |h| - 1;
      var m := UndoApplied(h[n].id, h[n].userId);
      assert Inbox(r.outbox, to) == [m];
      DeliverUndo(rep, h[n].id, h[n].userId);
      assert DS.History(r.server.store, room) == h[..n];
      RemoveLastById(rep.strokes, h);
    }
  }

  /** What a listening member hears from an undo. */
  lemma UndoInbox(s: Server, conn: R.SocketId, open: set<R.SocketId>, to: R.SocketId)
    requires Listening(s, SenderRoom(s, conn), to, open)
    ensures var h := DS.History(s.store, SenderRoom(s, conn));
            Inbox(OnUndo(s, conn, open).outbox, to) ==
              if h == [] then [] else [UndoApplied(h[|h| - 1].id, h[|h| - 1].userId)]
  {
    var room := SenderRoom(s, conn);
    var h := DS.History(s.store, room);
    var r := OnUndo(s, conn, open);
    if h == [] {
      assert r.outbox == [];
    } else {
      BroadcastInbox(s.registry, room, UndoApplied(h[|h| - 1].id, h[|h| - 1].userId), None, open, to);
    }
  }

  /** Removing the first stroke carrying the id of the history's last stroke, from a
      sequence with the same ids as a history of distinct ids, leaves the ids of the
      history without its last stroke. */
  lemma RemoveLastById(a: seq<Stroke>, h: seq<Stroke>)
    requires Ids(a) == Ids(h) && |h| > 0 && DistinctIds(h)
    ensures Ids(RemoveFirst(a, h[|h| - 1].id)) == Ids(h[..|h| - 1])
  {
    var n := |h| - 1;
    LastIsFirstWhenDistinct(h);
    IndexOfByIds(a, h, h[n].id);
    assert h[n].id in Ids(h);
    assert RemoveFirst(a, h[n].id) == a[..n];
    IdsPrefix(a, n);
    IdsPrefix(h, n);
  }

  /** A redo, seen by any listening member, the sender included: the inbox holds one
      `redo_applied` when a stroke came back and nothing otherwise; a replica in step
      stays in step, and one equal to the history stays equal. */
  lemma RedoKeepsInStep(s: Server, conn: R.SocketId, open: set<R.SocketId>, rep: Replica, to: R.SocketId)
    requires Listening(s, SenderRoom(s, conn), to, open)
    requires InStep(rep, s, SenderRoom(s, conn))
    ensures var r := OnRedo(s, conn, open);
            var room := SenderRoom(s, conn);
            var q := DS.RedoStack(s.store, room);
            var rep' := Deliver(rep, Inbox(r.outbox, to));
            && |Inbox(r.outbox, to)| == (if q == [] then 0 else 1)
            && InStep(rep', r.server, room)
            && (rep.strokes == DS.History(s.store, room) ==> rep'.strokes == DS.History(r.server.store, room))
  {
    var room := SenderRoom(s, conn);
    var q := DS.RedoStack(s.store, room);
    var r := OnRedo(s, conn, open);
    RedoInbox(s, conn, open, to);
    if q == [] {
      assert Inbox(r.outbox, to) == [] && r.server == s;
    } else {
      var x := q[|q| - 1];
      var m := RedoApplied(Some(ToWire(x)));
      assert Inbox(r.outbox, to) == [m];
      DeliverRedo(rep, x);
      assert DS.History(r.server.store, room) == DS.History(s.store, room) + [x];
      IdsAppend(rep.strokes, [x]);
      IdsAppend(DS.History(s.store, room), [x]);
    }
  }

  /** What a listening member hears from a redo. */
  lemma RedoInbox(s: Server, conn: R.SocketId, open: set<R.SocketId>, to: R.SocketId)
    requires Listening(s, SenderRoom(s, conn), to, open)
    ensures var q := DS.RedoStack(s.store, SenderRoom(s, conn));
            Inbox(OnRedo(s, conn, open).outbox, to) ==
              if q == [] then [] else [RedoApplied(Some(ToWire(q[|q| - 1])))]
  {
    var room := SenderRoom(s, conn);
    var q := DS.RedoStack(s.store, room);
    var r := OnRedo(s, conn, open);
    if q == [] {
      assert r.outbox == [];
    } else {
      BroadcastInbox(s.registry, room, RedoApplied(Some(ToWire(q[|q| - 1]))), None, open, to);
    }
  }

  /** The sender of a stroke start hears nothing back; its own pointer-down puts the
      same id at the tail of its replica as the server puts at the tail of the history,
      so a replica in step stays in step. */
  lemma LocalStrokeStartInStep(s: Server, conn: R.SocketId, open: set<R.SocketId>, now: nat,
                               sess: Session, pos: Point, freshId: string)
    requires InStep(sess.replica, s, SenderRoom(s, conn))
    ensures var down := PointerDown(sess, true, pos, freshId);
            var ev := down.sent[0];
            var r := OnStrokeStart(s, conn, ev.strokeId, ev.tool, ev.style, open, now);
            && Inbox(r.outbox, conn) == []
            && InStep(down.session.replica, r.server, SenderRoom(s, conn))
  {
    var room := SenderRoom(s, conn);
    var down := PointerDown(sess, true, pos, freshId);
    var ev := down.sent[0];
    var r := OnStrokeStart(s, conn, ev.strokeId, ev.tool, ev.style, open, now);
    var h := DS.History(s.store, room);
    var added := Stroke(freshId, SenderId(s, conn), Or(ev.tool, "brush"), ev.style.GetOr(EmptyStyle), [], now);
    ExcludedHearsNothing(r.outbox, s.registry, room, StrokeStarted(ToWire(added)), conn, open);
    PointerDownIds(sess, pos, freshId);
    assert DS.History(r.server.store, room) == h + [added];
    IdsAppend(h, [added]);
  }

  /** The excluded socket hears nothing from a broadcast. */
  lemma ExcludedHearsNothing(out: seq<Outgoing>, reg: R.Registry, room: string, msg: ServerMsg,
                                conn: R.SocketId, open: set<R.SocketId>)
    requires IsBroadcast(out, reg, room, msg, Some(conn), open)
    ensures Inbox(out, conn) == []
  {
    forall i | 0 <= i < |out| ensures out[i].to != conn {
      assert R.Receives(out[i].to, Some(conn), open);
    }
    InboxEmpty(out, conn);
  }

  /** Another listening member's replica equal to the history stays equal after a stroke
      start whose id is new and non-empty: it receives the stamped stroke once and
      appends it. */
  lemma RemoteStrokeStartInStep(s: Server, conn: R.SocketId, strokeId: string, tool: string, style: Option<Style>,
                                open: set<R.SocketId>, now: nat, rep: Replica, to: R.SocketId)
    requires Listening(s, SenderRoom(s, conn), to, open) && to != conn
    requires rep.strokes == DS.History(s.store, SenderRoom(s, conn))
    requires strokeId != "" && strokeId !in Ids(rep.strokes)
    ensures var r := OnStrokeStart(s, conn, strokeId, tool, style, open, now);
            Deliver(rep, Inbox(r.outbox, to)).strokes == DS.History(r.server.store, SenderRoom(s, conn))
  {
    var room := SenderRoom(s, conn);
    var r := OnStrokeStart(s, conn, strokeId, tool, style, open, now);
    var added := Stroke(strokeId, SenderId(s, conn), Or(tool, "brush"), style.GetOr(EmptyStyle), [], now);
    var m := StrokeStarted(ToWire(added));
    BroadcastInbox(s.registry, room, m, Some(conn), open, to);
    DeliverOne(rep, m);
    WireRoundTrip(added);
  }

  /** A segment, seen by another listening member whose replica equals the history:
      both sides extend the same stroke, so the replica stays equal. */
  lemma RemoteSegmentInStep(s: Server, conn: R.SocketId, strokeId: string, start: Point, end: Point,
                            open: set<R.SocketId>, rep: Replica, to: R.SocketId)
    requires Listening(s, SenderRoom(s, conn), to, open) && to != conn
    requires rep.strokes == DS.History(s.store, SenderRoom(s, conn))
    ensures var r := OnStrokeSegment(s, conn, strokeId, start, end, open);
            Deliver(rep, Inbox(r.outbox, to)).strokes == DS.History(r.server.store, SenderRoom(s, conn))
  {
    var room := SenderRoom(s, conn);
    var m := SegmentAdded(strokeId, start, end);
    BroadcastInbox(s.registry, room, m, Some(conn), open, to);
    DeliverOne(rep, m);
  }

  /** An outbox that starts with two replies to `conn` and then addresses only others
      gives `conn` exactly those two replies. */
  lemma TwoRepliesInbox(out: seq<Outgoing>, conn: R.SocketId)
    requires |out| >= 2 && out[0].to == conn && out[1].to == conn
    requires forall i :: 2 <= i < |out| ==> out[i].to != conn
    ensures Inbox(out, conn) == [out[0].msg, out[1].msg]
  {
    assert out == out[..2] + out[2..];
    InboxAppend(out[..2], out[2..], conn);
    InboxEmpty(out[2..], conn);
    assert out[..2] == [out[0]] + [out[1]];
    InboxAppend([out[0]], [out[1]], conn);
  }

  /** Handling a user list and then a full state leaves the full state's strokes. */
  lemma HydrateFrom(rep: Replica, users: seq<R.User>, h: seq<Stroke>, q: seq<Stroke>)
    ensures Deliver(rep, [UserList(users), FullState(Some(WireAll(h)), Some(WireAll(q)))]).strokes == h
  {
    var inbox := [UserList(users), FullState(Some(WireAll(h)), Some(WireAll(q)))];
    assert inbox[1..] == [inbox[1]];
    DeliverOne(Handle(rep, inbox[0]), inbox[1]);
    WireAllRoundTrip(h);
  }

  /** A joining client hears, from the join alone, the user list and then the full state,
      and a replica hydrated from that full state equals the room's history. */
  lemma JoinHydratesReplica(s: Server, conn: R.SocketId, roomId: string, userId: string, userName: string,
                            open: set<R.SocketId>, now: nat, rep: Replica)
    ensures var r := OnJoin(s, conn, roomId, userId, userName, open, now);
            var room := Or(roomId, DS.DEFAULT_ROOM);
            var inbox := Inbox(r.outbox, conn);
            && |inbox| == 2 && inbox[0].UserList? && inbox[1].FullState?
            && Deliver(rep, inbox).strokes == DS.History(s.store, room)
  {
    var r := OnJoin(s, conn, roomId, userId, userName, open, now);
    var room := Or(roomId, DS.DEFAULT_ROOM);
    TwoRepliesInbox(r.outbox, conn);
    HydrateFrom(rep, r.outbox[0].msg.users, DS.History(s.store, room), DS.RedoStack(s.store, room));
  }

  /** A cursor move reaches every other listening member: its replica shows the sender's
      cursor at the new position, and, when the sender has an id, the sender's name. */
  lemma CursorReachesMember(s: Server, conn: R.SocketId, x: real, y: real, open: set<R.SocketId>,
                            rep: Replica, to: R.SocketId)
    requires Listening(s, SenderRoom(s, conn), to, open) && to != conn
    ensures var rep' := Deliver(rep, Inbox(OnCursor(s, conn, x, y, open).outbox, to));
            var id := SenderId(s, conn);
            && id in rep'.cursors && rep'.cursors[id] == Point(x, y)
            && (id != "" ==> id in rep'.userInfo && rep'.userInfo[id] == UserInfo(id, SenderName(s, conn)))
            && rep'.strokes == rep.strokes
  {
    var msg := CursorMoved(SenderId(s, conn), SenderName(s, conn), x, y);
    BroadcastInbox(s.registry, SenderRoom(s, conn), msg, Some(conn), open, conn);
    BroadcastInbox(s.registry, SenderRoom(s, conn), msg, Some(conn), open, to);
    DeliverOne(rep, msg);
  }

  /** Once a joining client has handled its replies, its replica holds each listed
      user's colour and display info (the last entry for an id wins). */
  lemma JoinRecordsUsers(s: Server, conn: R.SocketId, roomId: string, userId: string, userName: string,
                              open: set<R.SocketId>, now: nat, rep: Replica)
    ensures var rId := Or(roomId, DS.DEFAULT_ROOM);
            var joined := R.JoinRoom(s.registry, conn, rId, Or(userId, conn), userName, now);
            var users := R.GetUsersInRoom(joined.0, rId);
            var rep' := Deliver(rep, Inbox(OnJoin(s, conn, roomId, userId, userName, open, now).outbox, conn));
            forall i :: 0 <= i < |users| && (forall j :: i < j < |users| ==> users[j].id != users[i].id) ==>
                 && users[i].id in rep'.userColors && rep'.userColors[users[i].id] == users[i].color
                 && users[i].id in rep'.userInfo
                 && rep'.userInfo[users[i].id] == UserInfo(users[i].id, Or(users[i].name, users[i].id))
  {
    var r := OnJoin(s, conn, roomId, userId, userName, open, now);
    var rId := Or(roomId, DS.DEFAULT_ROOM);
    var joined := R.JoinRoom(s.registry, conn, rId, Or(userId, conn), userName, now);
    var users := R.GetUsersInRoom(joined.0, rId);
    RepliesRecordUsers(r.outbox, conn, users, rep);
  }

  /** Two replies to one socket, a user list and then a full state, record the listed
      users' colours and display info, the last entry for an id winning. */
  lemma RepliesRecordUsers(out: seq<Outgoing>, conn: R.SocketId, users: seq<R.User>, rep: Replica)
    requires |out| >= 2 && out[0] == R.Send(conn, UserList(users))
    requires out[1].to == conn && out[1].msg.FullState?
    requires forall i :: 2 <= i < |out| ==> out[i].to != conn
    ensures var rep' := Deliver(rep, Inbox(out, conn));
            forall i :: 0 <= i < |users| && (forall j :: i < j < |users| ==> users[j].id != users[i].id) ==>
              && users[i].id in rep'.userColors && rep'.userColors[users[i].id] == users[i].color
              && users[i].id in rep'.userInfo
              && rep'.userInfo[users[i].id] == UserInfo(users[i].id, Or(users[i].name, users[i].id))
  {
    TwoRepliesInbox(out, conn);
    ListThenStateUsers(rep, users, out[1].msg);
    forall i | 0 <= i < |users| && (forall j :: i < j < |users| ==> users[j].id != users[i].id)
      ensures users[i].id in RecordUsers(rep, users).userColors
      ensures RecordUsers(rep, users).userColors[users[i].id] == users[i].color
      ensures users[i].id in RecordUsers(rep, users).userInfo
      ensures RecordUsers(rep, users).userInfo[users[i].id] == UserInfo(users[i].id, Or(users[i].name, users[i].id))
    {
      RecordUsersLastWins(rep, users, i);
    }
  }

  /** A user list followed by a full state leaves the colours and display info the list
      recorded. */
  lemma ListThenStateUsers(rep: Replica, users: seq<R.User>, full: ServerMsg)
    requires full.FullState?
    ensures Deliver(rep, [UserList(users), full]).userColors == RecordUsers(rep, users).userColors
    ensures Deliver(rep, [UserList(users), full]).userInfo == RecordUsers(rep, users).userInfo
  {
    assert [UserList(users), full][1..] == [full];
    DeliverOne(Handle(rep, UserList(users)), full);
  }

  /** The joined user is among the users then listed for the room, so the list a joiner
      receives always names the joiner. */
  lemma JoinerListed(reg: R.Registry, conn: R.SocketId, roomId: string, userId: string, userName: string, now: nat)
    ensures var joined := R.JoinRoom(reg, conn, roomId, userId, userName, now);
            joined.1 in R.GetUsersInRoom(joined.0, Or(roomId, "default"))
  {
    var joined := R.JoinRoom(reg, conn, roomId, userId, userName, now);
    var id := Or(roomId, "default");
    assert conn in R.Members(joined.0, id) && joined.0.socketToUser[conn].user == joined.1;
  }

  /** The in-step results above take a client's local action and the server's handling of
      it as one step. They are not: when another member's stroke start is handled between
      them and reaches the client first, the client lists the two strokes in the opposite
      order to the history, and stays out of step. */
  lemma CrossedStrokeStartsReorder(s: Server, a: R.SocketId, b: R.SocketId, open: set<R.SocketId>,
                                   nowB: nat, nowA: nat, sess: Session, pos: Point, sa: string,
                                   sb: string, toolB: string, styleB: Option<Style>)
    requires a != b && SenderRoom(s, b) == SenderRoom(s, a)
    requires Listening(s, SenderRoom(s, a), a, open)
    requires InStep(sess.replica, s, SenderRoom(s, a))
    requires sb != "" && sb != sa && sb !in Ids(sess.replica.strokes)
    ensures var room := SenderRoom(s, a);
            var h := Ids(DS.History(s.store, room));
            var down := PointerDown(sess, true, pos, sa);
            var rb := OnStrokeStart(s, b, sb, toolB, styleB, open, nowB);
            var repA := Deliver(down.session.replica, Inbox(rb.outbox, a));
            var ev := down.sent[0];
            var ra := OnStrokeStart(rb.server, a, ev.strokeId, ev.tool, ev.style, open, nowA);
            && Ids(repA.strokes) == h + [sa, sb]
            && Ids(DS.History(ra.server.store, room)) == h + [sb, sa]
            && !InStep(repA, ra.server, room)
  {
    var room := SenderRoom(s, a);
    var h := Ids(DS.History(s.store, room));
    var down := PointerDown(sess, true, pos, sa);
    var rb := OnStrokeStart(s, b, sb, toolB, styleB, open, nowB);
    var repA := Deliver(down.session.replica, Inbox(rb.outbox, a));
    var ev := down.sent[0];
    var ra := OnStrokeStart(rb.server, a, ev.strokeId, ev.tool, ev.style, open, nowA);
    RemoteStartAfterLocal(s, a, b, open, nowB, sess, pos, sa, sb, toolB, styleB);
    CrossedHistory(s, a, b, open, nowB, nowA, sa, sb, toolB, styleB, ev.tool, ev.style);
    assert Ids(repA.strokes)[|h|] == sa;
    assert Ids(DS.History(ra.server.store, room))[|h|] == sb;
  }

  /** A's side of the crossing: its local stroke first, then B's relayed one. */
  lemma RemoteStartAfterLocal(s: Server, a: R.SocketId, b: R.SocketId, open: set<R.SocketId>, nowB: nat,
                              sess: Session, pos: Point, sa: string, sb: string, toolB: string, styleB: Option<Style>)
    requires a != b && SenderRoom(s, b) == SenderRoom(s, a)
    requires Listening(s, SenderRoom(s, a), a, open)
    requires InStep(sess.replica, s, SenderRoom(s, a))
    requires sb != "" && sb != sa && sb !in Ids(sess.replica.strokes)
    ensures var down := PointerDown(sess, true, pos, sa);
            var rb := OnStrokeStart(s, b, sb, toolB, styleB, open, nowB);
            Ids(Deliver(down.session.replica, Inbox(rb.outbox, a)).strokes) ==
              Ids(DS.History(s.store, SenderRoom(s, a))) + [sa, sb]
  {
    var rep := PointerDown(sess, true, pos, sa).session.replica;
    PointerDownIds(sess, pos, sa);
    assert sb !in Ids(rep.strokes);
    RemoteStartAppends(s, a, b, open, nowB, rep, sb, toolB, styleB);
  }

  /** A relayed stroke start with a new, non-empty id adds exactly that id at the tail of
      a listening member's replica, whatever the replica held. */
  lemma RemoteStartAppends(s: Server, a: R.SocketId, b: R.SocketId, open: set<R.SocketId>, nowB: nat,
                           rep: Replica, sb: string, toolB: string, styleB: Option<Style>)
    requires a != b && Listening(s, SenderRoom(s, b), a, open)
    requires sb != "" && sb !in Ids(rep.strokes)
    ensures Ids(Deliver(rep, Inbox(OnStrokeStart(s, b, sb, toolB, styleB, open, nowB).outbox, a)).strokes) ==
              Ids(rep.strokes) + [sb]
  {
    var added := Stroke(sb, SenderId(s, b), Or(toolB, "brush"), styleB.GetOr(EmptyStyle), [], nowB);
    var m := StrokeStarted(ToWire(added));
    BroadcastInbox(s.registry, SenderRoom(s, b), m, Some(b), open, a);
    DeliverOne(rep, m);
    WireRoundTrip(added);
    IdsAppend(rep.strokes, [added]);
  }

  /** The server's side of the crossing: B's stroke first, then A's. */
  lemma CrossedHistory(s: Server, a: R.SocketId, b: R.SocketId, open: set<R.SocketId>, nowB: nat, nowA: nat,
                       sa: string, sb: string, toolB: string, styleB: Option<Style>, toolA: string, styleA: Option<Style>)
    requires SenderRoom(s, b) == SenderRoom(s, a)
    ensures var room := SenderRoom(s, a);
            var rb := OnStrokeStart(s, b, sb, toolB, styleB, open, nowB);
            var ra := OnStrokeStart(rb.server, a, sa, toolA, styleA, open, nowA);
            Ids(DS.History(ra.server.store, room)) == Ids(DS.History(s.store, room)) + [sb, sa]
  {
    var room := SenderRoom(s, a);
    var rb := OnStrokeStart(s, b, sb, toolB, styleB, open, nowB);
    var ra := OnStrokeStart(rb.server, a, sa, toolA, styleA, open, nowA);
    assert SenderRoom(rb.server, a) == room;
    var h0 := DS.History(s.store, room);
    var h1 := DS.History(rb.server.store, room);
    IdsAppend(h0, [h1[|h0|]]);
    IdsAppend(h1, [DS.History(ra.server.store, room)[|h1|]]);
  }

  /** A stroke drawn after asking to join but before the full state arrives is lost from
      the drawer's replica, although the server keeps it: the full state was taken before
      the server saw the stroke, and hydrating replaces the strokes wholesale. */
  lemma DrawBeforeHydrationLost(s: Server, conn: R.SocketId, roomId: string, userId: string, userName: string,
                                open: set<R.SocketId>, nowJ: nat, nowS: nat, sess: Session, pos: Point, sa: string)
    requires sa !in Ids(DS.History(s.store, Or(roomId, DS.DEFAULT_ROOM)))
    ensures var rId := Or(roomId, DS.DEFAULT_ROOM);
            var down := PointerDown(sess, true, pos, sa);
            var rj := OnJoin(s, conn, roomId, userId, userName, open, nowJ);
            var ev := down.sent[0];
            var rs := OnStrokeStart(rj.server, conn, ev.strokeId, ev.tool, ev.style, open, nowS);
            var rep := Deliver(down.session.replica, Inbox(rj.outbox + rs.outbox, conn));
            && sa in Ids(down.session.replica.strokes)
            && rep.strokes == DS.History(s.store, rId)
            && sa !in Ids(rep.strokes)
            && sa in Ids(DS.History(rs.server.store, rId))
  {
    var rId := Or(roomId, DS.DEFAULT_ROOM);
    var down := PointerDown(sess, true, pos, sa);
    var rj := OnJoin(s, conn, roomId, userId, userName, open, nowJ);
    var ev := down.sent[0];
    PointerDownIds(sess, pos, sa);
    assert Ids(down.session.replica.strokes)[|sess.replica.strokes|] == sa;
    JoinedSenderRoom(s, conn, roomId, userId, userName, open, nowJ);
    StartAfterJoin(rj.server, rj.outbox, rId, conn, sa, ev.tool, ev.style, open, nowS);
    JoinHydratesReplica(s, conn, roomId, userId, userName, open, nowJ, down.session.replica);
  }

  /** After joining, the socket's messages are filed under the room it joined. */
  lemma JoinedSenderRoom(s: Server, conn: R.SocketId, roomId: string, userId: string, userName: string,
                         open: set<R.SocketId>, now: nat)
    ensures var rj := OnJoin(s, conn, roomId, userId, userName, open, now);
            SenderRoom(rj.server, conn) == Or(roomId, DS.DEFAULT_ROOM)
            && rj.server.store == s.store
  {
  }

  /** A stroke start the sender sends after its join adds to the history of the joined
      room and adds nothing to the sender's own inbox. */
  lemma StartAfterJoin(t: Server, before: seq<Outgoing>, rId: string, conn: R.SocketId, sa: string,
                       tool: string, style: Option<Style>, open: set<R.SocketId>, now: nat)
    requires SenderRoom(t, conn) == rId
    ensures var rs := OnStrokeStart(t, conn, sa, tool, style, open, now);
            && Inbox(before + rs.outbox, conn) == Inbox(before, conn)
            && sa in Ids(DS.History(rs.server.store, rId))
  {
    var rs := OnStrokeStart(t, conn, sa, tool, style, open, now);
    var added := Stroke(sa, SenderId(t, conn), Or(tool, "brush"), style.GetOr(EmptyStyle), [], now);
    ExcludedHearsNothing(rs.outbox, t.registry, rId, StrokeStarted(ToWire(added)), conn, open);
    InboxAppend(before, rs.outbox, conn);
    var h' := DS.History(rs.server.store, rId);
    assert Ids(h')[|h'| - 1] == sa;
  }

  const StrokeA := Stroke("a", "u", "brush", EmptyStyle, [], 1)
  const StrokeB := Stroke("a", "u", "brush", EmptyStyle, [], 2)

  /** Distinct ids are needed: with two strokes sharing an id, an undo takes the later
      one off the history while every replica removes the earlier one. */
  lemma DuplicateIdsDiverge()
    ensures var st := DS.EmptyStore.(histories := map[DS.DEFAULT_ROOM := [StrokeA, StrokeB]]);
            var (st', undone) := DS.Undo(st, DS.DEFAULT_ROOM);
            && undone == Some(StrokeB)
            && DS.History(st', DS.DEFAULT_ROOM) == [StrokeA]
            && ApplyUndo(EmptyReplica.(strokes := [StrokeA, StrokeB]), undone.value.id).strokes == [StrokeB]
  {
    var h := [StrokeA, StrokeB];
    assert Ids(h) == ["a", "a"];
    assert IndexOf(h, "a") == Some(0);
    assert h[..1] == [StrokeA];
  }
}
