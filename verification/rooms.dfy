/** The server's room registry: membership per room, the record of which room and
    user each socket joined as, round-robin colours and the "User N" counter, and
    the choice of recipients for a room broadcast. */
module Rooms {
  import opened Wrappers
  import opened Text

  /** A connection's id, an opaque token issued when the socket is accepted. */
  type SocketId = string

  /** The colour palette; the n-th colour handed out (from 0) is `COLORS[n % 8]`. */
  const COLORS: seq<string> := [
    "#e74c3c", "#3498db", "#2ecc71", "#f39c12", "#9b59b6",
    "#1abc9c", "#e67e22", "#34495e"
  ]

  /** The n-th colour handed out in the process, counting from 0. */
  function ColorAt(n: nat): string {
    COLORS[n % |COLORS|]
  }

  datatype User = User(id: string, name: string, color: string, socketId: SocketId)

  /** What the registry remembers of a socket: the room it last joined and as whom. */
  datatype Meta = Meta(roomId: string, user: User)

  /** Room members are an insertion-ordered set without repetitions, iterated in
      insertion order. `colorIndex` and `userCounter` count every join in the process. */
  datatype Registry = Registry(rooms: map<string, seq<SocketId>>,
                               socketToUser: map<SocketId, Meta>,
                               colorIndex: nat,
                               userCounter: nat)

  const EmptyRegistry := Registry(map[], map[], 0, 0)

  ghost predicate NoDup<T>(s: seq<T>) {
    forall i, j :: 0 <= i < j < |s| ==> s[i] != s[j]
  }

  /** Every room's member sequence is a proper set. */
  ghost predicate Valid(reg: Registry) {
    forall room :: room in reg.rooms ==> NoDup(reg.rooms[room])
  }

  /** `set.add`: append unless already present. */
  function Insert(s: seq<SocketId>, x: SocketId): (r: seq<SocketId>)
    ensures x in r
    ensures forall y :: y in r <==> y in s || y == x
    ensures NoDup(s) ==> NoDup(r)
    // Insertion order: a new element goes last, a present one leaves the order alone.
    ensures x in s ==> r == s
    ensures x !in s ==> r == s + [x]
  {
    if x in s then s else s + [x]
  }

  /** `set.delete`: drop the element, keeping the order of the rest. */
  function Delete(s: seq<SocketId>, x: SocketId): (r: seq<SocketId>)
    ensures x !in r
    ensures forall y :: y in r <==> y in s && y != x
    ensures NoDup(s) ==> NoDup(r)
    ensures |r| <= |s|
  {
    if |s| == 0 then []
    else if s[0] == x then Delete(s[1..], x)
    else
      var rest := Delete(s[1..], x);
      assert NoDup(s) ==> s[0] !in s[1..];
      [s[0]] + rest
  }

  /** `rooms.get(roomId)` as a sequence, empty for an unknown room. */
  function Members(reg: Registry, roomId: string): seq<SocketId> {
    if roomId in reg.rooms then reg.rooms[roomId] else []
  }

  /** `nextColor`: the palette entry at the colour index, which then advances. */
  function NextColor(reg: Registry): (r: (Registry, string))
    ensures r.1 == ColorAt(reg.colorIndex)
    ensures r.0 == reg.(colorIndex := reg.colorIndex + 1)
  {
    (reg.(colorIndex := reg.colorIndex + 1), ColorAt(reg.colorIndex))
  }

  /** `ensureRoom`: create an empty member set for an unknown room. */
  function EnsureRoom(reg: Registry, roomId: string): (r: Registry)
    ensures roomId in r.rooms
    ensures roomId in reg.rooms ==> r == reg
    ensures roomId !in reg.rooms ==> r.rooms == reg.rooms[roomId := []]
    ensures r.socketToUser == reg.socketToUser
    ensures r.colorIndex == reg.colorIndex && r.userCounter == reg.userCounter
  {
    if roomId in reg.rooms then reg else reg.(rooms := reg.rooms[roomId := []])
  }

  /** The display name of the `n`-th user joined without a name. */
  function DefaultName(n: nat): (name: string)
    ensures |name| >= 6 && name[..5] == "User "
    ensures name[5..] == NatToString(n)
  {
    "User " + NatToString(n)
  }

  /** `joinRoom`. `now` is the clock, read only when neither a user id nor a socket id
      is available. */
  function JoinRoom(reg: Registry, wsId: SocketId, roomId: string, userId: string, userName: string, now: nat)
    : (r: (Registry, User))
    // The room id defaults to "default" and the socket becomes one of its members.
    ensures var id := Or(roomId, "default");
            && id in r.0.rooms
            && (forall s :: s in r.0.rooms[id] <==> s in Members(reg, id) || s == wsId)
            && (forall other :: other != id ==> Members(r.0, other) == Members(reg, other))
            && r.0.rooms.Keys == reg.rooms.Keys + {id}
            && r.0.rooms[id] == Insert(Members(reg, id), wsId)
            && r.0.socketToUser == reg.socketToUser[wsId := Meta(id, r.1)]
    // The palette colour and the name counter advance on every join.
    ensures r.1.color == ColorAt(reg.colorIndex)
    ensures r.0.colorIndex == reg.colorIndex + 1 && r.0.userCounter == reg.userCounter + 1
    ensures userName != "" ==> r.1.name == userName
    ensures userName == "" ==> r.1.name == DefaultName(r.0.userCounter)
    ensures userId != "" ==> r.1.id == userId
    ensures userId == "" && wsId != "" ==> r.1.id == wsId
    ensures userId == "" && wsId == "" ==> r.1.id == NatToString(now)
    ensures r.1.socketId == wsId
    ensures Valid(reg) ==> Valid(r.0)
  {
    var id := Or(roomId, "default");
    var reg1 := EnsureRoom(reg, id);
    var (reg2, color) := NextColor(reg1);
    var counter := reg2.userCounter + 1;
    var uid := Or(userId, Or(wsId, NatToString(now)));
    var name := Or(userName, DefaultName(counter));
    var user := User(uid, name, color, wsId);
    var reg3 := reg2.(userCounter := counter,
                      socketToUser := reg2.socketToUser[wsId := Meta(id, user)],
                      rooms := reg2.rooms[id := Insert(reg2.rooms[id], wsId)]);
    (reg3, user)
  }

  /** `leaveRoom`: forget the socket and drop it from the room it is recorded in,
      deleting that room once empty; `None` and no change for a socket never joined.
      Rooms the socket joined earlier keep it as a member. */
  function LeaveRoom(reg: Registry, wsId: SocketId): (r: (Registry, Option<Meta>))
    ensures wsId !in reg.socketToUser ==> r == (reg, None)
    ensures wsId in reg.socketToUser ==>
              var meta := reg.socketToUser[wsId];
              var rest := Delete(Members(reg, meta.roomId), wsId);
              && r.1 == Some(meta)
              && r.0.socketToUser == reg.socketToUser - {wsId}
              && (meta.roomId in reg.rooms && rest == [] ==> meta.roomId !in r.0.rooms)
              && (meta.roomId in reg.rooms && rest != [] ==> r.0.rooms == reg.rooms[meta.roomId := rest])
              && (meta.roomId !in reg.rooms ==> r.0.rooms == reg.rooms)
              && (forall other :: other != meta.roomId ==> Members(r.0, other) == Members(reg, other))
              && wsId !in Members(r.0, meta.roomId)
              && r.0.colorIndex == reg.colorIndex && r.0.userCounter == reg.userCounter
    ensures Valid(reg) ==> Valid(r.0)
  {
    if wsId !in reg.socketToUser then (reg, None)
    else
      var meta := reg.socketToUser[wsId];
      var reg1 := reg.(socketToUser := reg.socketToUser - {wsId});
      if meta.roomId in reg1.rooms then
        var rest := Delete(reg1.rooms[meta.roomId], wsId);
        var rooms' := if rest == [] then reg1.rooms - {meta.roomId} else reg1.rooms[meta.roomId := rest];
        (reg1.(rooms := rooms'), Some(meta))
      else
        (reg1, Some(meta))
  }

  /** The users recorded for the given sockets, in their order, skipping sockets
      without a record. */
  function UsersOf(members: seq<SocketId>, records: map<SocketId, Meta>): (users: seq<User>)
    ensures |users| <= |members|
    ensures forall u :: u in users <==> exists sid :: sid in members && sid in records && records[sid].user == u
  {
    if |members| == 0 then []
    else
      var rest := UsersOf(members[1..], records);
      if members[0] in records then [records[members[0]].user] + rest else rest
  }

  /** `getUsersInRoom`: empty for an unknown room, otherwise exactly the users of the
      members that still have a record. */
  function GetUsersInRoom(reg: Registry, roomId: string): (users: seq<User>)
    ensures roomId !in reg.rooms ==> users == []
    ensures forall u :: u in users <==>
              exists sid :: sid in Members(reg, roomId) && sid in reg.socketToUser && reg.socketToUser[sid].user == u
  {
    if roomId !in reg.rooms then [] else UsersOf(reg.rooms[roomId], reg.socketToUser)
  }

  /** Listing walks the members in order: one more member adds its recorded user, if
      it has one, at the end of the list. */
  lemma {:induction false} UsersOfSnoc(members: seq<SocketId>, sid: SocketId, records: map<SocketId, Meta>)
    ensures UsersOf(members + [sid], records) ==
              UsersOf(members, records) + (if sid in records then [records[sid].user] else [])
    decreases |members|
  {
    if |members| == 0 {
      assert members + [sid] == [sid];
    } else {
      assert (members + [sid])[1..] == members[1..] + [sid];
      UsersOfSnoc(members[1..], sid, records);
    }
  }

  /** The users listed for a set of sockets have one entry per socket with a record. */
  lemma {:induction false} UsersOfCount(members: seq<SocketId>, records: map<SocketId, Meta>)
    requires NoDup(members)
    ensures |UsersOf(members, records)| == |set sid | sid in members && sid in records|
    decreases |members|
  {
    var all := set sid | sid in members && sid in records;
    if |members| == 0 {
      assert all == {};
    } else {
      var rest := members[1..];
      var tail := set sid | sid in rest && sid in records;
      assert NoDup(rest);
      UsersOfCount(rest, records);
      assert members[0] !in rest;
      if members[0] in records {
        assert all == tail + {members[0]};
      } else {
        assert all == tail;
      }
    }
  }

  /** `getUsersInRoom` lists one user per member that still has a record. */
  lemma GetUsersInRoomCount(reg: Registry, roomId: string)
    requires Valid(reg)
    ensures |GetUsersInRoom(reg, roomId)| == |set sid | sid in Members(reg, roomId) && sid in reg.socketToUser|
  {
    if roomId in reg.rooms {
      UsersOfCount(reg.rooms[roomId], reg.socketToUser);
    } else {
      assert (set sid | sid in Members(reg, roomId) && sid in reg.socketToUser) == {};
    }
  }

  /** `getSocketUser`. */
  function GetSocketUser(reg: Registry, wsId: SocketId): (r: Option<Meta>)
    ensures r.Some? <==> wsId in reg.socketToUser
    ensures r.Some? ==> r.value == reg.socketToUser[wsId]
  {
    if wsId in reg.socketToUser then Some(reg.socketToUser[wsId]) else None
  }

  /** One message handed to one socket. */
  datatype Send<M> = Send(to: SocketId, msg: M)

  /** Whether a member receives a broadcast: it is not the excluded socket and it
      resolves to an open connection. */
  predicate Receives(sid: SocketId, exclude: Option<SocketId>, open: set<SocketId>) {
    exclude != Some(sid) && sid in open
  }

  /** The members that receive a broadcast, in membership order. */
  function Recipients(members: seq<SocketId>, exclude: Option<SocketId>, open: set<SocketId>): (r: seq<SocketId>)
    ensures forall s :: s in r <==> s in members && Receives(s, exclude, open)
    ensures NoDup(members) ==> NoDup(r)
    ensures |r| <= |members|
  {
    if |members| == 0 then []
    else
      var rest := Recipients(members[1..], exclude, open);
      if Receives(members[0], exclude, open) then [members[0]] + rest else rest
  }

  function SendAll<M>(to: seq<SocketId>, msg: M): (out: seq<Send<M>>)
    ensures |out| == |to|
    ensures forall i :: 0 <= i < |to| ==> out[i] == Send(to[i], msg)
  {
    seq(|to|, i requires 0 <= i < |to| => Send(to[i], msg))
  }

  /** `broadcastToRoom`: one copy of the same message to every member of the room
      other than `exclude` whose connection is open; nothing for an unknown room. */
  function BroadcastToRoom<M>(reg: Registry, roomId: string, msg: M, exclude: Option<SocketId>, open: set<SocketId>)
    : (out: seq<Send<M>>)
    ensures roomId !in reg.rooms ==> out == []
    ensures forall i :: 0 <= i < |out| ==> out[i].msg == msg
    ensures forall s :: (exists i :: 0 <= i < |out| && out[i].to == s) <==>
                        s in Members(reg, roomId) && Receives(s, exclude, open)
    ensures Valid(reg) ==> forall i, j :: 0 <= i < j < |out| ==> out[i].to != out[j].to
    ensures exclude.Some? ==> forall i :: 0 <= i < |out| ==> out[i].to != exclude.value
  {
    var to := Recipients(Members(reg, roomId), exclude, open);
    var out := SendAll(to, msg);
    assert forall i :: 0 <= i < |out| ==> out[i].to == to[i] && to[i] in to;
    out
  }

  /** A registry call that can happen between joins. */
  datatype RegistryOp =
    | Join(wsId: SocketId, roomId: string, userId: string, userName: string, now: nat)
    | Leave(wsId: SocketId)

  /** One registry call; a join also yields the user it created. */
  function Apply(reg: Registry, op: RegistryOp): (r: (Registry, seq<User>))
    ensures |r.1| == if op.Join? then 1 else 0
    ensures |r.1| == 1 ==> r.1[0].color == ColorAt(reg.colorIndex)
    ensures r.0.colorIndex == reg.colorIndex + |r.1| && r.0.userCounter == reg.userCounter + |r.1|
  {
    match op
    case Join(ws, room, uid, name, now) =>
      var joined := JoinRoom(reg, ws, room, uid, name, now);
      (joined.0, [joined.1])
    case Leave(ws) => (LeaveRoom(reg, ws).0, [])
  }

  /** `Apply` as a step of `Replay`, seen only through its contract. */
  method Step(reg: Registry, op: RegistryOp) returns (next: Registry, made: seq<User>)
    ensures |made| == if op.Join? then 1 else 0
    ensures |made| == 1 ==> made[0].color == ColorAt(reg.colorIndex)
    ensures next.colorIndex == reg.colorIndex + |made| && next.userCounter == reg.userCounter + |made|
  {
    var r := Apply(reg, op);
    next, made := r.0, r.1;
  }

  /** The number of joins among the calls. */
  function JoinCount(ops: seq<RegistryOp>): nat {
    if |ops| == 0 then 0 else JoinCount(ops[..|ops| - 1]) + (if ops[|ops| - 1].Join? then 1 else 0)
  }

  /** Perform the calls in order and collect the users the joins produced. Colours
      cycle through the palette and the name counter counts up whatever the rooms
      and whatever leaves come in between: the i-th join (from 0) after `reg` gets
      palette entry `reg.colorIndex + i`, so in a fresh process the k-th join (from 1)
      gets `COLORS[(k - 1) % 8]`. */
  method Replay(reg: Registry, ops: seq<RegistryOp>) returns (last: Registry, users: seq<User>)
    ensures |users| == JoinCount(ops)
    ensures last.colorIndex == reg.colorIndex + |users| && last.userCounter == reg.userCounter + |users|
    ensures forall i :: 0 <= i < |users| ==> users[i].color == COLORS[(reg.colorIndex + i) % 8]
  {
    last, users := reg, [];
    var n := 0;
    while n < |ops|
      invariant n <= |ops| && |users| == JoinCount(ops[..n])
      invariant last.colorIndex == reg.colorIndex + |users| && last.userCounter == reg.userCounter + |users|
      invariant forall i :: 0 <= i < |users| ==> users[i].color == ColorAt(reg.colorIndex + i)
    {
      assert ops[..n + 1][..n] == ops[..n];
      assert JoinCount(ops[..n + 1]) == JoinCount(ops[..n]) + if ops[n].Join? then 1 else 0;
      var made;
      last, made := Step(last, ops[n]);
      users := users + made;
      n := n + 1;
    }
    assert ops[..n] == ops;
  }

  /** Two joins without a name never share a default name, since the counter only grows. */
  lemma DefaultNamesDiffer(a: nat, b: nat)
    requires a != b
    ensures DefaultName(a) != DefaultName(b)
  {
    if DefaultName(a) == DefaultName(b) {
      assert NatToString(a) == DefaultName(a)[5..] == DefaultName(b)[5..] == NatToString(b);
      NatToStringInjective(a, b);
    }
  }
}
