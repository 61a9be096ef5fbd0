/** The server's per-room drawing store: an ordered stroke history and a redo
    stack for every room id. Undo and redo form one LIFO per room, shared by all
    of its users. */
module DrawingState {
  import opened Wrappers
  import opened Text
  import opened Strokes

  const DEFAULT_ROOM: string := "default"

  /** The key a room id resolves to: a falsy id means the default room. */
  function RoomKey(roomId: string): (k: string)
    ensures k != ""
    ensures roomId != "" ==> k == roomId
    ensures roomId == "" ==> k == DEFAULT_ROOM
  {
    Or(roomId, DEFAULT_ROOM)
  }

  /** Histories and redo stacks by room key. A key that was never written reads as an
      empty sequence, which is what the lazily created arrays hold when first read. */
  datatype Store = Store(histories: map<string, seq<Stroke>>, redoStacks: map<string, seq<Stroke>>)

  const EmptyStore := Store(map[], map[])

  function History(st: Store, roomId: string): (h: seq<Stroke>)
    ensures RoomKey(roomId) !in st.histories ==> h == []
  {
    var k := RoomKey(roomId);
    if k in st.histories then st.histories[k] else []
  }

  function RedoStack(st: Store, roomId: string): (r: seq<Stroke>)
    ensures RoomKey(roomId) !in st.redoStacks ==> r == []
  {
    var k := RoomKey(roomId);
    if k in st.redoStacks then st.redoStacks[k] else []
  }

  /** Every room other than `roomId` reads the same in both stores. */
  ghost predicate OtherRoomsUnchanged(st: Store, st': Store, roomId: string) {
    forall other :: RoomKey(other) != RoomKey(roomId) ==>
      History(st', other) == History(st, other) && RedoStack(st', other) == RedoStack(st, other)
  }

  /** Both stores read the same for every room. */
  ghost predicate SameContents(st: Store, st': Store) {
    forall room :: History(st', room) == History(st, room) && RedoStack(st', room) == RedoStack(st, room)
  }

  function SetHistory(st: Store, roomId: string, h: seq<Stroke>): (st': Store)
    ensures History(st', roomId) == h && RedoStack(st', roomId) == RedoStack(st, roomId)
    ensures OtherRoomsUnchanged(st, st', roomId)
  {
    st.(histories := st.histories[RoomKey(roomId) := h])
  }

  function SetRedoStack(st: Store, roomId: string, r: seq<Stroke>): (st': Store)
    ensures RedoStack(st', roomId) == r && History(st', roomId) == History(st, roomId)
    ensures OtherRoomsUnchanged(st, st', roomId)
  {
    st.(redoStacks := st.redoStacks[RoomKey(roomId) := r])
  }

  /** The stroke with its timestamp filled in from the clock unless it already had one. */
  function Stamp(s: Stroke, now: nat): (t: Stroke)
    ensures s.timestamp != 0 ==> t == s
    ensures s.timestamp == 0 ==> t == s.(timestamp := now)
  {
    if s.timestamp != 0 then s else s.(timestamp := now)
  }

  /** `addStroke`: append at the history tail; the redo stack is kept, not cleared. */
  function AddStroke(st: Store, roomId: string, stroke: Stroke, now: nat): (r: (Store, Stroke))
    ensures r.1 == Stamp(stroke, now)
    ensures History(r.0, roomId) == History(st, roomId) + [r.1]
    ensures RedoStack(r.0, roomId) == RedoStack(st, roomId)
    ensures OtherRoomsUnchanged(st, r.0, roomId)
  {
    var s := Stamp(stroke, now);
    (SetHistory(st, roomId, History(st, roomId) + [s]), s)
  }

  /** `appendSegment`: one `{start, end}` onto the first history stroke with the id;
      `None` and no change when no history stroke has it. */
  function AppendSegment(st: Store, roomId: string, strokeId: string, start: Point, end: Point)
    : (r: (Store, Option<Stroke>))
    ensures strokeId !in Ids(History(st, roomId)) ==> r == (st, None)
    ensures strokeId in Ids(History(st, roomId)) ==>
              var h := History(st, roomId);
              var i := IndexOf(h, strokeId).value;
              && r.1 == Some(h[i].(segments := h[i].segments + [Segment(start, end)]))
              && History(r.0, roomId) == h[i := r.1.value]
              && RedoStack(r.0, roomId) == RedoStack(st, roomId)
              && OtherRoomsUnchanged(st, r.0, roomId)
  {
    var h := History(st, roomId);
    match IndexOf(h, strokeId)
    case None => (st, None)
    case Some(i) =>
      var h' := AppendSegmentTo(h, strokeId, Segment(start, end));
      (SetHistory(st, roomId, h'), Some(h'[i]))
  }

  /** `findStroke`: the first history stroke with the id, if any. */
  function FindStroke(st: Store, roomId: string, strokeId: string): (r: Option<Stroke>)
    ensures r.None? <==> strokeId !in Ids(History(st, roomId))
    ensures r.Some? ==> r == Some(History(st, roomId)[IndexOf(History(st, roomId), strokeId).value])
  {
    Find(History(st, roomId), strokeId)
  }

  /** `undo`: move the history tail onto the redo stack and return it; `None` and no
      change when the history is empty. */
  function Undo(st: Store, roomId: string): (r: (Store, Option<Stroke>))
    ensures History(st, roomId) == [] ==> r == (st, None)
    ensures History(st, roomId) != [] ==>
              var h := History(st, roomId);
              && r.1 == Some(h[|h| - 1])
              && History(r.0, roomId) == h[..|h| - 1]
              && RedoStack(r.0, roomId) == RedoStack(st, roomId) + [h[|h| - 1]]
              && OtherRoomsUnchanged(st, r.0, roomId)
  {
    var h := History(st, roomId);
    if |h| == 0 then (st, None)
    else
      var s := h[|h| - 1];
      (SetRedoStack(SetHistory(st, roomId, h[..|h| - 1]), roomId, RedoStack(st, roomId) + [s]), Some(s))
  }

  /** `redo`: move the redo tail back onto the history tail and return it; `None` and no
      change when the redo stack is empty. */
  function Redo(st: Store, roomId: string): (r: (Store, Option<Stroke>))
    ensures RedoStack(st, roomId) == [] ==> r == (st, None)
    ensures RedoStack(st, roomId) != [] ==>
              var q := RedoStack(st, roomId);
              && r.1 == Some(q[|q| - 1])
              && RedoStack(r.0, roomId) == q[..|q| - 1]
              && History(r.0, roomId) == History(st, roomId) + [q[|q| - 1]]
              && OtherRoomsUnchanged(st, r.0, roomId)
  {
    var q := RedoStack(st, roomId);
    if |q| == 0 then (st, None)
    else
      var s := q[|q| - 1];
      (SetHistory(SetRedoStack(st, roomId, q[..|q| - 1]), roomId, History(st, roomId) + [s]), Some(s))
  }

  datatype Snapshot = Snapshot(history: seq<Stroke>, redoStack: seq<Stroke>)

  /** `getFullState`: both sequences of the room, element by element and in order. */
  function GetFullState(st: Store, roomId: string): (r: Snapshot)
    ensures |r.history| == |History(st, roomId)| && |r.redoStack| == |RedoStack(st, roomId)|
    ensures forall i :: 0 <= i < |r.history| ==> r.history[i] == History(st, roomId)[i]
    ensures forall i :: 0 <= i < |r.redoStack| ==> r.redoStack[i] == RedoStack(st, roomId)[i]
  {
    Snapshot(History(st, roomId), RedoStack(st, roomId))
  }

  /** The strokes of a room, history and redo stack together, as a bag. */
  function AllStrokes(st: Store, roomId: string): multiset<Stroke> {
    multiset(History(st, roomId)) + multiset(RedoStack(st, roomId))
  }

  /** Undo only moves a stroke from the history to the redo stack: none is created, lost or copied. */
  lemma UndoPreservesStrokes(st: Store, roomId: string)
    ensures AllStrokes(Undo(st, roomId).0, roomId) == AllStrokes(st, roomId)
  {
    var h, q := History(st, roomId), RedoStack(st, roomId);
    if h != [] {
      var st' := Undo(st, roomId).0;
      assert h == h[..|h| - 1] + [h[|h| - 1]];
      assert multiset(h) == multiset(h[..|h| - 1]) + multiset{h[|h| - 1]};
      assert multiset(RedoStack(st', roomId)) == multiset(q) + multiset{h[|h| - 1]};
    }
  }

  /** Redo only moves a stroke from the redo stack back to the history. */
  lemma RedoPreservesStrokes(st: Store, roomId: string)
    ensures AllStrokes(Redo(st, roomId).0, roomId) == AllStrokes(st, roomId)
  {
    var h, q := History(st, roomId), RedoStack(st, roomId);
    if q != [] {
      var st' := Redo(st, roomId).0;
      assert q == q[..|q| - 1] + [q[|q| - 1]];
      assert multiset(q) == multiset(q[..|q| - 1]) + multiset{q[|q| - 1]};
      assert multiset(History(st', roomId)) == multiset(h) + multiset{q[|q| - 1]};
    }
  }

  /** An undo followed by a redo restores every room exactly and hands back the undone stroke. */
  lemma UndoThenRedo(st: Store, roomId: string)
    requires History(st, roomId) != []
    ensures var (st1, undone) := Undo(st, roomId);
            var (st2, redone) := Redo(st1, roomId);
            && redone == undone
            && SameContents(st, st2)
  {
    var h := History(st, roomId);
    assert h[..|h| - 1] + [h[|h| - 1]] == h;
  }

  /** A redo followed by an undo restores every room exactly. */
  lemma RedoThenUndo(st: Store, roomId: string)
    requires RedoStack(st, roomId) != []
    ensures var (st1, redone) := Redo(st, roomId);
            var (st2, undone) := Undo(st1, roomId);
            && redone == undone
            && SameContents(st, st2)
  {
    var q := RedoStack(st, roomId);
    assert q[..|q| - 1] + [q[|q| - 1]] == q;
  }

  /** The id discipline of a room: no id twice in history, none twice in the redo
      stack, and none in both. */
  ghost predicate RoomIdsWellFormed(st: Store, roomId: string) {
    var h, q := History(st, roomId), RedoStack(st, roomId);
    DistinctIds(h) && DistinctIds(q) && DisjointIds(h, q)
  }

  /** Undo keeps the id discipline: the moved stroke's id was in the history only. */
  lemma UndoKeepsIdsWellFormed(st: Store, roomId: string)
    requires RoomIdsWellFormed(st, roomId)
    ensures RoomIdsWellFormed(Undo(st, roomId).0, roomId)
  {
    var h, q := History(st, roomId), RedoStack(st, roomId);
    if h != [] {
      var n := |h| - 1;
      var st' := Undo(st, roomId).0;
      var h', q' := History(st', roomId), RedoStack(st', roomId);
      assert h' == h[..n] && q' == q + [h[n]];
      assert forall i :: 0 <= i < |h'| ==> h'[i] == h[i];
      assert forall j :: 0 <= j < |q| ==> q'[j] == q[j];
      assert DistinctIds(h');
      assert DistinctIds(q');
      assert DisjointIds(h', q');
    }
  }

  /** Redo keeps the id discipline: the moved stroke's id was on the redo stack only. */
  lemma RedoKeepsIdsWellFormed(st: Store, roomId: string)
    requires RoomIdsWellFormed(st, roomId)
    ensures RoomIdsWellFormed(Redo(st, roomId).0, roomId)
  {
    var h, q := History(st, roomId), RedoStack(st, roomId);
    if q != [] {
      var n := |q| - 1;
      var st' := Redo(st, roomId).0;
      var h', q' := History(st', roomId), RedoStack(st', roomId);
      assert q' == q[..n] && h' == h + [q[n]];
      assert forall i :: 0 <= i < |q'| ==> q'[i] == q[i];
      assert forall j :: 0 <= j < |h| ==> h'[j] == h[j];
      assert DistinctIds(h');
      assert DistinctIds(q');
      assert DisjointIds(h', q');
    }
  }

  /** A stroke whose id is in neither sequence keeps the id discipline; the store itself
      does not check this, the client's fresh ids provide it. */
  lemma AddFreshStrokeKeepsIdsWellFormed(st: Store, roomId: string, stroke: Stroke, now: nat)
    requires RoomIdsWellFormed(st, roomId)
    requires stroke.id !in Ids(History(st, roomId)) && stroke.id !in Ids(RedoStack(st, roomId))
    ensures RoomIdsWellFormed(AddStroke(st, roomId, stroke, now).0, roomId)
  {
    var h, q := History(st, roomId), RedoStack(st, roomId);
    forall j | 0 <= j < |h| ensures h[j].id != stroke.id {
      assert Ids(h)[j] == h[j].id;
    }
    forall j | 0 <= j < |q| ensures q[j].id != stroke.id {
      assert Ids(q)[j] == q[j].id;
    }
  }

  /** Appending a segment never touches ids. */
  lemma AppendSegmentKeepsIdsWellFormed(st: Store, roomId: string, strokeId: string, start: Point, end: Point)
    requires RoomIdsWellFormed(st, roomId)
    ensures RoomIdsWellFormed(AppendSegment(st, roomId, strokeId, start, end).0, roomId)
  {
    var h := History(st, roomId);
    var h' := History(AppendSegment(st, roomId, strokeId, start, end).0, roomId);
    assert |h'| == |h|;
    assert forall i :: 0 <= i < |h| ==> h'[i].id == h[i].id by {
      if strokeId in Ids(h) {
        var k := IndexOf(h, strokeId).value;
        assert forall i :: 0 <= i < |h| && i != k ==> h'[i] == h[i];
      }
    }
  }
}
