# Collaborative whiteboard sync engine in Dafny

A model of the synchronisation core of a shared whiteboard. Clients draw strokes
and send them over a WebSocket. The server keeps, per room, an ordered stroke
history and a redo stack, plus a registry of which sockets are in which room. It
relays every drawing event to the other members. Undo and redo are global to a
room: whoever asks, the last stroke of the room's history moves, and every member
is told which one.

The model is a set of pure functions:

- `Strokes` — stroke records, their wire form, and the id lookups both sides use (first match by id).
- `DrawingState` — the per-room history and redo stack, with add, append-segment, undo, redo and snapshot.
- `Rooms` — membership, colour and name assignment, user listing, and room broadcast.
- `Protocol` — client events, server messages, and what one socket receives from an outbox.
- `Server` — the message and close handlers as one step function. A step takes the state, the connection and its input, and returns the next state and the messages sent.
- `Canvas` — the client's replica: its stroke list, user colours, user info and cursors.
- `Client` — the client's handler table for server messages, and the pointer-down, pointer-move and pointer-up stroke lifecycle.
- `Sync` — end-to-end statements. After the server handles an event, they say what one member's inbox holds, and what that member's replica becomes once the inbox is handled.

Conventions:

- An absent or falsy text field (`undefined`, `null`, `''`) is the empty string. `a || b` on text is `Text.Or`.
- An unset timestamp is `0`.
- The set of open sockets (`readyState === 1`) is a parameter.
- The clock is a parameter: `Date.now()` is `now: nat`.
- A JavaScript `Set` of socket ids is an insertion-ordered sequence without duplicates.

The main results:

- Undo and redo keep every listening member's replica "in step" with the room history, the undoing or redoing client included. In step means the same stroke ids in the same order. Undo needs the history's ids to be distinct: the server pops the last stroke, but every client removes the *first* stroke with that id. `Sync.DuplicateIdsDiverge` shows the two disagree when ids repeat. `DrawingState` proves that undo and redo keep ids distinct, and that adding a fresh stroke does too.
- A stroke start keeps the sender in step by its own local drawing. It keeps every other member's replica equal to the history, stroke for stroke. The same holds for segments. These results take a client's local action and the server's handling of it as one step. When messages cross in flight they fail: `Sync.CrossedStrokeStartsReorder` and `Sync.DrawBeforeHydrationLost` show how.
- A cursor move shows the sender's cursor on every other listening member. A join lists the joiner among the room's users and gives its replica every listed user's colour and name.
- A join answers the joiner with exactly the user list and then the full state. Hydrating from that state reproduces the room history.
- Undo followed by redo, and redo followed by undo, restore every room exactly. Neither loses, creates or duplicates a stroke.
- Colours cycle through the eight-entry palette, one step per join, whatever happens in between.

## Model

| member | source | states |
|---|---|---|
| DrawingState.RoomKey | server/drawing-state.js:6-9 | a falsy room id resolves to the room "default", any other id to itself |
| DrawingState.History | server/drawing-state.js:8-12 | a room never written reads as an empty history |
| DrawingState.RedoStack | server/drawing-state.js:14-18 | a room never written reads as an empty redo stack |
| DrawingState.Stamp | server/drawing-state.js:22 | a stroke with a timestamp is kept as it is; one without gets the clock as its timestamp and nothing else |
| DrawingState.AddStroke | server/drawing-state.js:20-25 | the stroke, stamped with the clock only when it has no timestamp, is appended at the history tail; the redo stack and every other room are unchanged |
| DrawingState.AppendSegment | server/drawing-state.js:27-34 | an unknown id changes nothing and returns nothing; otherwise only the first stroke with the id gains `{start, end}` at the end of its segments, and that stroke is returned |
| DrawingState.FindStroke | server/drawing-state.js:36-39 | returns nothing exactly when no stroke has the id, else the first stroke with it |
| DrawingState.Undo | server/drawing-state.js:41-48 | an empty history changes nothing and returns nothing; otherwise the history tail moves to the top of the redo stack and is returned |
| DrawingState.Redo | server/drawing-state.js:50-57 | an empty redo stack changes nothing and returns nothing; otherwise its top moves back to the history tail and is returned |
| DrawingState.GetFullState | server/drawing-state.js:59-64 | the snapshot lists the room's history and redo stack element by element, in order |
| DrawingState.UndoPreservesStrokes | server/drawing-state.js:41-48 | the room's history and redo stack together hold the same multiset of strokes before and after an undo |
| DrawingState.RedoPreservesStrokes | server/drawing-state.js:50-57 | the same for a redo |
| DrawingState.UndoThenRedo | server/drawing-state.js:41-57 | after an undo of a non-empty history, a redo returns the same stroke and every room reads as before |
| DrawingState.RedoThenUndo | server/drawing-state.js:41-57 | after a redo of a non-empty redo stack, an undo returns the same stroke and every room reads as before |
| DrawingState.UndoKeepsIdsWellFormed | server/drawing-state.js:41-48 | distinct ids within, and disjoint ids between, history and redo stack survive an undo |
| DrawingState.RedoKeepsIdsWellFormed | server/drawing-state.js:50-57 | the same survives a redo |
| DrawingState.AddFreshStrokeKeepsIdsWellFormed | server/drawing-state.js:20-25 | adding a stroke whose id is in neither sequence keeps the ids distinct and disjoint |
| DrawingState.AppendSegmentKeepsIdsWellFormed | server/drawing-state.js:27-34 | appending a segment keeps the ids distinct and disjoint |
| Strokes.IndexOf | server/drawing-state.js:29 | finds nothing exactly when no stroke has the id; otherwise the position holds the id and no earlier one does |
| Strokes.Find | server/drawing-state.js:38 | finds nothing exactly when no stroke has the id; otherwise the stroke at the first position holding the id |
| Strokes.IndexOfByIds | client/canvas.js:155 | the first position of an id depends only on the sequence of ids |
| Strokes.IndexOfFresh | client/canvas.js:128-131 | a stroke appended with a new id is found at the tail |
| Strokes.LastIsFirstWhenDistinct | server/drawing-state.js:45 | with distinct ids, the first match for the last stroke's id is the last position |
| Strokes.AppendSegmentTo | client/canvas.js:135-139 | ids and length are kept; only the first stroke with the id gains the segment |
| Strokes.RemoveFirst | client/canvas.js:154-160 | an unknown id changes nothing; otherwise the strokes before the first match stay, the ones after shift down by one, and the multiset loses exactly that stroke |
| Strokes.RemoveFirstByIds | client/canvas.js:154-160 | sequences with the same ids still have the same ids after removing the same id |
| Strokes.FromWire | client/canvas.js:228-229 | missing segments read as none; every other field is copied |
| Strokes.WireRoundTrip | server/server.js:61 | a stroke sent as it is stored reads back as the same stroke |
| Strokes.WireAllRoundTrip | client/canvas.js:167-170 | a history sent in full reads back as the same history |
| Rooms.NextColor | server/rooms.js:12-16 | returns the palette entry at the colour counter modulo 8 and advances the counter by one |
| Rooms.EnsureRoom | server/rooms.js:18-21 | the room exists afterwards; an existing room is unchanged, a new one is empty |
| Rooms.Insert | server/rooms.js:34 | adding to a set: the members are the old ones plus the new one, still without duplicates; a new member goes last and a present one changes nothing |
| Rooms.Delete | server/rooms.js:45 | deleting from a set: the members are the old ones minus that one, still without duplicates |
| Rooms.JoinRoom | server/rooms.js:25-36 | the socket joins the room (default "default"), inserted as a set adds it, and only that room changes; it is recorded with the new user; the colour is the next palette entry; both counters advance; the name and id fall back as the server code does; the registry stays duplicate-free |
| Rooms.LeaveRoom | server/rooms.js:38-49 | an unknown socket changes nothing; otherwise it is forgotten and removed from its recorded room, which is deleted once empty, and its room and user are returned |
| Rooms.UsersOf | server/rooms.js:54-59 | lists exactly the recorded users of the members |
| Rooms.UsersOfSnoc | server/rooms.js:55-58 | the members are walked in order: one more member appends its recorded user, if any, at the end of the list |
| Rooms.UsersOfCount | server/rooms.js:54-59 | with members free of duplicates, one user is listed per member that has a record |
| Rooms.GetUsersInRoom | server/rooms.js:51-60 | no users for an unknown room; otherwise exactly the users recorded for its members |
| Rooms.GetUsersInRoomCount | server/rooms.js:51-60 | in a well-formed registry, as many users are listed as the room has members with a record |
| Rooms.DefaultName | server/rooms.js:31 | the name is "User " followed by the decimal counter |
| Rooms.GetSocketUser | server/rooms.js:62-64 | the record of the socket, present exactly when the socket joined |
| Rooms.Recipients | server/rooms.js:70-74 | exactly the members that are not excluded and are open, without duplicates when the members have none |
| Rooms.BroadcastToRoom | server/rooms.js:66-75 | nothing for an unknown room; every message is the payload; the addressees are exactly the open, non-excluded members, each once |
| Rooms.Apply | server/rooms.js:25-49 | one join yields one user with the next palette colour and advances both counters; a leave yields none and leaves them |
| Rooms.Replay | server/rooms.js:10-16 | over any sequence of joins and leaves, the i-th join gets palette entry (start + i) mod 8, and the counters advance once per join |
| Rooms.DefaultNamesDiffer | server/rooms.js:29-31 | two different counter values give two different default names |
| Text.NatToString | server/rooms.js:31 | non-empty, digits only, one digit exactly below ten, and no leading zero except for zero itself |
| Text.NatToStringValue | server/rooms.js:31 | the digits read back as the number |
| Text.NatToStringInjective | server/rooms.js:31 | different numbers render differently |
| Text.Slice | server/server.js:74 | the prefix of the text of length n, or the whole text when it is shorter |
| Protocol.InboxAppend | server/server.js:47-50 | what a socket receives from two outboxes in turn is what it receives from each, in order |
| Protocol.InboxFromOutbox | server/server.js:47-50 | everything a socket receives was addressed to it |
| Protocol.InboxSingle | server/rooms.js:70-74 | a socket addressed once receives that one message |
| Protocol.BroadcastInbox | server/rooms.js:66-75 | an open, non-excluded member receives a broadcast exactly once; any other socket receives nothing |
| Server.SenderRoom | server/server.js:37-38 | a joined connection acts on its recorded room, any other on the default room |
| Server.SenderId | server/server.js:56 | a joined connection's recorded user id, otherwise the connection id |
| Server.SenderName | server/server.js:74 | a joined connection's recorded user name, otherwise "User " and the first four characters of the connection id |
| Server.OnJoin | server/server.js:41-52 | the registry joins the connection with the server code's fallbacks; the store is only read; the joiner gets the user list and then the full state; the other open members get the join, and the joiner gets nothing more |
| Server.OnStrokeStart | server/server.js:53-63 | the history gains the new empty, stamped stroke with the sender's id, tool (default "brush") and style (default none); the redo stack is kept; every other open member gets that stroke |
| Server.OnStrokeSegment | server/server.js:64-68 | the segment is appended as the store does; the segment goes to every other open member whether or not the stroke was found |
| Server.OnStrokeEnd | server/server.js:69-72 | no state change; the id goes to every other open member |
| Server.OnCursor | server/server.js:73-82 | no state change; the position with the sender's id and name goes to every other open member |
| Server.OnUndo | server/server.js:83-92 | the store undoes in the sender's room; only when a stroke came off, every open member, sender included, gets its id and author |
| Server.OnRedo | server/server.js:93-99 | the store redoes in the sender's room; only when a stroke came back, every open member, sender included, gets it |
| Server.OnMessage | server/server.js:29-103 | unparsable text and unknown events change nothing and send nothing; only a join touches the registry; each known event goes to its own handler with the event's fields, so every `Server` and `Sync` result about a handler holds for the message that reaches it |
| Server.OnClose | server/server.js:105-113 | the store is untouched; the connection leaves; when it had joined, the remaining open members of its room get who left and the new list; the closed socket gets nothing |
| Canvas.AddStroke | client/canvas.js:128-131 | the stroke goes to the tail; nothing else changes |
| Canvas.AppendSegment | client/canvas.js:135-139 | an unknown id changes nothing; otherwise only the first stroke with the id gains the segment |
| Canvas.RemoveStroke | client/canvas.js:154-160 | an unknown id changes nothing; otherwise exactly the first stroke with the id is cut out |
| Canvas.RedoStroke | client/canvas.js:162-165 | the stroke goes back to the tail |
| Canvas.SetFullState | client/canvas.js:167-170 | the strokes become the snapshot's history, none when missing, each entry read from its wire form with every field copied and missing segments read as none; nothing else changes |
| Canvas.ApplyStrokeStart | client/canvas.js:228-231 | appends the received stroke without a duplicate check |
| Canvas.ApplyStrokeEnd | client/canvas.js:237-239 | changes nothing |
| Canvas.ApplyRedo | client/canvas.js:245-247 | a message without a stroke changes nothing; otherwise the stroke is appended |
| Canvas.ApplyCursor | client/canvas.js:249-255 | that user's cursor is overwritten and all others are kept; the user's info is set only when the message names an id or a name |
| Client.RecordUser | client/main.js:204-207 | the user's colour is set under its id; its display info holds the id and the name, or the id when the name is empty; every other entry is kept; strokes and cursors are kept |
| Client.RecordUsers | client/main.js:195-201 | listing users touches neither strokes nor cursors |
| Client.RecordUsersLastWins | client/main.js:197-200 | a listed id ends with the colour and display info of its last entry in the list |
| Client.RecordUsersKeepsUnlisted | client/main.js:197-200 | an id not in the list keeps its colour and display info, or their absence |
| Client.Handle | client/main.js:192-237 | which part of the replica each message may change; a stroke start is appended only for a non-empty id the replica lacks, and otherwise ignored; a user joining records that user, and a user list every listed user; full state, segment, cursor, undo and redo hand over to the replica operations; user-left and stroke-end change nothing |
| Client.StrokeStartIdempotent | client/main.js:212-216 | a stroke start delivered twice acts as if delivered once |
| Client.PointerDown | client/main.js:93-115 | an ineligible pointer does nothing; otherwise the pen starts drawing at the pointer with the new id; the stroke start goes out first, then the first segment |
| Client.PointerDownAddsLocalStroke | client/main.js:106-113 | with an id the replica lacks, exactly one local stroke is added at the tail, holding one segment from the pointer to itself |
| Client.PointerDownIds | client/main.js:100-113 | the replica's id sequence gains exactly the new id at its tail |
| Client.EmitSegment | client/main.js:81-84 | a segment goes out exactly when a stroke id is current, and then carries that id and the two points |
| Client.PointerMove | client/main.js:117-135 | multi-touch ends the stroke; the cursor is sent exactly when its throttle allows; while drawing, the segment is always drawn locally, sent after the cursor exactly when the segment throttle allows, the pen moves on and the tool settings are kept; the pen variables stay consistent |
| Client.PointerUp | client/main.js:137-149 | not drawing does nothing; otherwise a last segment only when the pointer moved, then the stroke end, and the pen is idle |
| Client.OnOpen | client/main.js:189-191 | on connection the client asks to join the room "default" |
| Sync.UndoInbox | server/server.js:83-92 | a listening member receives one undo notice, naming the history tail, when the history was non-empty, and nothing otherwise |
| Sync.RedoInbox | server/server.js:93-99 | a listening member receives one redo notice, carrying the redo top, when the redo stack was non-empty, and nothing otherwise |
| Sync.UndoKeepsInStep | client/main.js:232-234 | with distinct ids, an undo keeps any listening member's replica in step with the history, the undoing client included |
| Sync.RedoKeepsInStep | client/main.js:235-237 | a redo keeps any listening member's replica in step, and an equal replica equal |
| Sync.LocalStrokeStartInStep | client/main.js:93-115 | the sender of a stroke start hears nothing back and stays in step through its own local stroke |
| Sync.RemoteStrokeStartInStep | client/main.js:212-216 | another member's replica equal to the history stays equal after a stroke start with a new, non-empty id |
| Sync.RemoteSegmentInStep | client/main.js:217-219 | another member's replica equal to the history stays equal after a segment |
| Sync.JoinHydratesReplica | client/main.js:192-201 | the joiner receives exactly the user list and the full state, and its strokes become the room history |
| Sync.CursorReachesMember | client/canvas.js:249-255 | after a cursor move, every other listening member's replica shows the sender's cursor at the new position and, for a sender with an id, its name; strokes are kept |
| Sync.JoinerListed | server/server.js:45-47 | the user list sent to a joiner always includes the user just joined |
| Sync.JoinRecordsUsers | client/main.js:195-201 | after its replies the joiner's replica holds each listed user's colour and display info (name, or id when the name is empty), the last entry for an id winning |
| Sync.CrossedStrokeStartsReorder | server/server.js:53-63 | when another member's stroke start is handled between a client's pointer-down and its own stroke start, the client lists the two strokes in the opposite order to the history and is out of step |
| Sync.DrawBeforeHydrationLost | client/canvas.js:167-170 | a stroke drawn between the join request and the full state is dropped from the drawer's replica while the history keeps it |
| Sync.DuplicateIdsDiverge | client/canvas.js:154-160 | with two strokes sharing an id, the server's undo removes the later one and the replica removes the earlier one |

## Left out

- The transport, JSON encoding and WebSocket framing are not modelled (client/websocket.js is not part of this model). Messages are datatypes, and `JSON.parse` failing is the `Unparsable` input.
- A message with no `data` object is not modelled. The drawing branches of the server's message handler read `data.strokeId` and the like unguarded, so such a message throws a `TypeError` out of the message listener. What happens next depends on the WebSocket library and Node.js, which are not part of this model; the model assumes the fields are present.
- Absent stroke fields (`id`, `userId`, `tool`) are the empty string, not a distinct `undefined`. `style: data.style || {}` is an `Option<Style>` defaulting to `EmptyStyle`.
- Rendering, the redraw scheduling and the DOM user list are not modelled; neither is the cursor label drawing.
- Socket ids, `genId`, `Date.now()` and the two throttles are inputs. The connection id is the `conn` parameter, a fresh stroke id is `freshId`, the clock is `now`, and the throttles are the booleans `cursorDue` and `segmentDue`. The Express/HTTP setup and the `socketsById` map become the `open` set.
- `readyState` is reduced to membership in `open`.
- The lazy creation of empty arrays on first read is not modelled: reading a room nobody wrote yields the empty sequence, which is what the JavaScript observes.
- The shallow copies in `getFullState` and `setFullState` are not modelled: values are immutable, so a copy and the original cannot diverge.
- The stored stroke object is shared with the stroke-start broadcast, and `appendSegment` later mutates it. The broadcast is serialised when it is sent, so receivers get the stroke as it was at that moment, which is the value the model sends.
- Stale membership after a second `join_room` on the same socket is modelled as the server code has it: the earlier room keeps the socket id as a member.
- The drawing store is never cleared, even when a room is deleted. A rejoined room therefore finds its old history, and no property here claims otherwise.
- Sync.UndoKeepsInStep: requires distinct ids in the room history. The client assumes `genId` never repeats; `Sync.DuplicateIdsDiverge` shows what happens otherwise.
- Rooms.GetUsersInRoom: states which users are listed and how many, and `Rooms.UsersOfSnoc` states the member order of `Rooms.UsersOf`; the membership order itself is the order of first joins, stated by `Rooms.Insert` and used by `Rooms.JoinRoom`.
- Rooms.Replay: states the colour and counter progression, not the final registry.
- Client.RecordUsers: its colour and display-info effects are stated by Client.RecordUsersLastWins and Client.RecordUsersKeepsUnlisted, not by its own contract.
- Canvas.SetUserColor, Canvas.SetUserInfo, Canvas.SetCursor, Canvas.ApplyStrokeSegment and Canvas.ApplyUndo are one-line delegations with no contract of their own. Their effect is stated through Client.RecordUser, Canvas.ApplyCursor, Canvas.AppendSegment and Canvas.RemoveStroke, which Client.Handle names for the matching messages.
- Messages in flight while a client acts are not modelled in general. The in-step lemmas treat a local action and the server's handling of it as one step; `Sync.CrossedStrokeStartsReorder` and `Sync.DrawBeforeHydrationLost` show two interleavings where the replica and the history part ways. The JavaScript has no sequence numbers or acknowledgements, so there is no intended corrected protocol to prove against.
