/** The shared geometry model (points, segments, styles, strokes) and the
    id-addressed list operations that both the server's history and the
    client's replica perform on an ordered sequence of strokes. */
module Strokes {
  import opened Wrappers

  /** A surface coordinate pair. The model compares points but never computes with them. */
  datatype Point = Point(x: real, y: real)

  /** One straight piece of a stroke. */
  datatype Segment = Segment(start: Point, end: Point)

  /** Stroke style as chosen on the client; `{}` is `EmptyStyle`. Only rendering reads it. */
  datatype Style = EmptyStyle | Style(color: string, width: real)

  /** A stored stroke. `timestamp` 0 means "not set yet". */
  datatype Stroke = Stroke(id: string, userId: string, tool: string, style: Style,
                           segments: seq<Segment>, timestamp: nat)

  /** A stroke as it travels in a message: its `segments` field may be missing. */
  datatype WireStroke = WireStroke(id: string, userId: string, tool: string, style: Style,
                                   segments: Option<seq<Segment>>, timestamp: nat)

  function ToWire(s: Stroke): WireStroke {
    WireStroke(s.id, s.userId, s.tool, s.style, Some(s.segments), s.timestamp)
  }

  /** The client's `{ ...s, segments: s.segments || [] }`. */
  function FromWire(w: WireStroke): (s: Stroke)
    ensures s.id == w.id && s.userId == w.userId && s.tool == w.tool
    ensures s.style == w.style && s.timestamp == w.timestamp
    ensures w.segments.None? ==> s.segments == []
    ensures w.segments.Some? ==> s.segments == w.segments.value
  {
    Stroke(w.id, w.userId, w.tool, w.style, w.segments.GetOr([]), w.timestamp)
  }

  /** Serialising a stored stroke and reading it back on the client loses nothing. */
  lemma WireRoundTrip(s: Stroke)
    ensures FromWire(ToWire(s)) == s
  {
  }

  function WireAll(h: seq<Stroke>): (ws: seq<WireStroke>)
    ensures |ws| == |h|
    ensures forall i :: 0 <= i < |h| ==> ws[i] == ToWire(h[i])
  {
    seq(|h|, i requires 0 <= i < |h| => ToWire(h[i]))
  }

  function FromWireAll(ws: seq<WireStroke>): (h: seq<Stroke>)
    ensures |h| == |ws|
    ensures forall i :: 0 <= i < |ws| ==> h[i] == FromWire(ws[i])
  {
    seq(|ws|, i requires 0 <= i < |ws| => FromWire(ws[i]))
  }

  /** A full history survives serialisation and client-side hydration unchanged. */
  lemma {:induction false} WireAllRoundTrip(h: seq<Stroke>)
    ensures FromWireAll(WireAll(h)) == h
  {
    var r := FromWireAll(WireAll(h));
    forall i | 0 <= i < |h|
      ensures r[i] == h[i]
    {
      WireRoundTrip(h[i]);
    }
  }

  /** The stroke ids of a sequence, in order. */
  function Ids(h: seq<Stroke>): (ids: seq<string>)
    ensures |ids| == |h|
    ensures forall i :: 0 <= i < |h| ==> ids[i] == h[i].id
  {
    seq(|h|, i requires 0 <= i < |h| => h[i].id)
  }

  lemma IdsAppend(a: seq<Stroke>, b: seq<Stroke>)
    ensures Ids(a + b) == Ids(a) + Ids(b)
  {
  }

  lemma IdsPrefix(h: seq<Stroke>, n: nat)
    requires n <= |h|
    ensures Ids(h[..n]) == Ids(h)[..n]
  {
  }

  /** No id occurs twice. */
  ghost predicate DistinctIds(h: seq<Stroke>) {
    forall i, j :: 0 <= i < |h| && 0 <= j < |h| && i != j ==> h[i].id != h[j].id
  }

  /** No id occurs in both sequences. */
  ghost predicate DisjointIds(a: seq<Stroke>, b: seq<Stroke>) {
    forall i, j :: 0 <= i < |a| && 0 <= j < |b| ==> a[i].id != b[j].id
  }

  /** The position of the first stroke with id `id` (`findIndex(x => x.id === id)`). */
  function IndexOf(h: seq<Stroke>, id: string): (r: Option<nat>)
    ensures r.None? <==> id !in Ids(h)
    ensures r.Some? ==> r.value < |h| && h[r.value].id == id
    ensures r.Some? ==> forall j :: 0 <= j < r.value ==> h[j].id != id
  {
    if |h| == 0 then None
    else if h[0].id == id then Some(0)
    else
      assert Ids(h) == [h[0].id] + Ids(h[1..]);
      match IndexOf(h[1..], id)
      case None => None
      case Some(i) => Some(i + 1)
  }

  /** A stroke appended with an id the sequence lacks is found at the tail. */
  lemma IndexOfFresh(h: seq<Stroke>, s: Stroke)
    requires s.id !in Ids(h)
    ensures IndexOf(h + [s], s.id) == Some(|h|)
  {
    assert Ids(h + [s])[|h|] == s.id;
    forall j | 0 <= j < |h| ensures (h + [s])[j].id != s.id {
      assert Ids(h)[j] == h[j].id;
    }
  }

  /** The first position of an id depends only on the id sequence. */
  lemma {:induction false} IndexOfByIds(a: seq<Stroke>, b: seq<Stroke>, id: string)
    requires Ids(a) == Ids(b)
    ensures IndexOf(a, id) == IndexOf(b, id)
  {
    if |a| > 0 {
      assert a[0].id == Ids(a)[0] == Ids(b)[0] == b[0].id;
      assert Ids(a[1..]) == Ids(a)[1..] == Ids(b)[1..] == Ids(b[1..]);
      IndexOfByIds(a[1..], b[1..], id);
    }
  }

  /** In a sequence without repeated ids the last stroke is the first one carrying its id. */
  lemma LastIsFirstWhenDistinct(h: seq<Stroke>)
    requires |h| > 0 && DistinctIds(h)
    ensures IndexOf(h, h[|h| - 1].id) == Some(|h| - 1)
  {
    var r := IndexOf(h, h[|h| - 1].id);
    assert h[|h| - 1].id in Ids(h);
  }

  /** `find(...)`: the first stroke with the id, if any. */
  function Find(h: seq<Stroke>, id: string): (r: Option<Stroke>)
    ensures r.None? <==> id !in Ids(h)
    ensures r.Some? ==> r.value in h && r.value.id == id
    ensures r.Some? ==> r == Some(h[IndexOf(h, id).value])
  {
    match IndexOf(h, id)
    case None => None
    case Some(i) => Some(h[i])
  }

  /** Append one segment to the first stroke with the id; a missing id changes nothing. */
  function AppendSegmentTo(h: seq<Stroke>, id: string, seg: Segment): (r: seq<Stroke>)
    ensures |r| == |h| && Ids(r) == Ids(h)
    ensures id !in Ids(h) ==> r == h
    ensures IndexOf(h, id).Some? ==>
              var i := IndexOf(h, id).value;
              && r[i] == h[i].(segments := h[i].segments + [seg])
              && forall j :: 0 <= j < |h| && j != i ==> r[j] == h[j]
  {
    match IndexOf(h, id)
    case None => h
    case Some(i) => h[i := h[i].(segments := h[i].segments + [seg])]
  }

  /** `splice(findIndex(...), 1)`: delete the first stroke with the id, keeping the
      relative order of the others; a missing id changes nothing. */
  function RemoveFirst(h: seq<Stroke>, id: string): (r: seq<Stroke>)
    ensures id !in Ids(h) ==> r == h
    ensures IndexOf(h, id).Some? ==>
              var i := IndexOf(h, id).value;
              && |r| == |h| - 1
              && (forall j :: 0 <= j < i ==> r[j] == h[j])
              && (forall j :: i <= j < |r| ==> r[j] == h[j + 1])
              && multiset(r) + multiset{h[i]} == multiset(h)
  {
    match IndexOf(h, id)
    case None => h
    case Some(i) =>
      assert h == h[..i] + [h[i]] + h[i + 1..];
      h[..i] + h[i + 1..]
  }

  /** Removing by id from two sequences with the same ids leaves the same ids. */
  lemma RemoveFirstByIds(a: seq<Stroke>, b: seq<Stroke>, id: string)
    requires Ids(a) == Ids(b)
    ensures Ids(RemoveFirst(a, id)) == Ids(RemoveFirst(b, id))
  {
    IndexOfByIds(a, b, id);
  }
}
