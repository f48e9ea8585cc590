/** The client's mirror of the room's operations and its reconciliation of local pointer input with
    the server's echo. Drawing calls are replaced by the list of segments they would draw. */
module Canvas {
  import opened Stroke

  /** An operation as the client keeps it: a snapshot entry or the record built from a
      `stroke:start` echo, whose width is the raw width the sender asked for. */
  datatype LocalOp = LocalOp(
    opId: OpId, userId: UserId, tool: Tool, color: string, width: Option<int>,
    points: seq<Point>, active: bool)

  /** Messages the client sends: `stroke:start`, `stroke:points`, `stroke:end`. */
  datatype ClientMsg =
    | SendStrokeStart(tool: string, color: string, width: int, start: Point)
    | SendStrokePoints(opId: OpId, points: seq<Point>)
    | SendStrokeEnd(opId: OpId, end: Point)

  /** A line segment drawn between two consecutive points. */
  type Segment = (Point, Point)

  function FromServer(op: Op): (r: LocalOp)
  {
    LocalOp(op.opId, op.userId, op.tool, op.color, Some(op.width), op.points, op.active)
  }

  /** The local list a `room:state` or `room:ops` snapshot installs: a copy of the server's list. */
  function Snapshot(ops: seq<Op>): (r: seq<LocalOp>)
    ensures |r| == |ops| && forall i :: 0 <= i < |ops| ==> r[i] == FromServer(ops[i])
  {
    seq(|ops|, i requires 0 <= i < |ops| => FromServer(ops[i]))
  }

  /** The segments between consecutive points of a stroke: one per call of `drawSegmentSegment`,
      including a call that draws nothing because one of its two points is missing. */
  function Segments(pts: seq<Point>): (r: seq<Segment>)
    ensures |r| == if pts == [] then 0 else |pts| - 1
    ensures forall j :: 0 <= j < |r| ==> r[j] == (pts[j], pts[j + 1])
  {
    if |pts| <= 1 then [] else [(pts[0], pts[1])] + Segments(pts[1..])
  }

  /** Drawing a stroke's new points as they stream in, from the last point already drawn, and then
      what was drawn before, gives exactly the segments of the whole stroke. */
  lemma SegmentsExtend(a: seq<Point>, b: seq<Point>)
    requires a != []
    ensures Segments(a + b) == Segments(a) + Segments([a[|a| - 1]] + b)
  {
    var c := [a[|a| - 1]] + b;
    var l, r := Segments(a + b), Segments(a) + Segments(c);
    assert |l| == |r|;
    forall j | 0 <= j < |l| ensures l[j] == r[j] {
      if j < |a| - 1 {
        assert r[j] == Segments(a)[j];
        assert (a + b)[j] == a[j] && (a + b)[j + 1] == a[j + 1];
      } else {
        var k := j - (|a| - 1);
        assert r[j] == Segments(c)[k];
        assert c[k] == (a + b)[j];
        assert c[k + 1] == (a + b)[j + 1];
      }
    }
  }

  /** The position of the first operation with the given id, as `Array.prototype.find` picks it. */
  function IndexOf(ops: seq<LocalOp>, id: OpId): (r: Option<nat>)
    ensures r.None? <==> forall i :: 0 <= i < |ops| ==> ops[i].opId != id
    ensures r.Some? ==> r.value < |ops| && ops[r.value].opId == id &&
                        forall i :: 0 <= i < r.value ==> ops[i].opId != id
  {
    if ops == [] then None
    else if ops[0].opId == id then Some(0)
    else
      var rest := IndexOf(ops[1..], id);
      assert forall i :: 1 <= i < |ops| ==> ops[i] == ops[1..][i - 1];
      if rest.None? then None else Some(rest.value + 1)
  }

  /** `renderOperation`: nothing for an inactive operation, otherwise one segment per pair of
      consecutive points. */
  method RenderOperation(op: LocalOp) returns (drawn: seq<Segment>)
    ensures drawn == if op.active then Segments(op.points) else []
  {
    if !op.active {
      return [];
    }
    drawn := [];
    var i := 1;
    while i < |op.points|
      invariant 1 <= i && (i <= |op.points| || i == 1)
      invariant |drawn| == i - 1
      invariant forall j :: 0 <= j < i - 1 ==> drawn[j] == (op.points[j], op.points[j + 1])
    {
      drawn := drawn + [(op.points[i - 1], op.points[i])];
      i := i + 1;
    }
    ghost var segs := Segments(op.points);
    assert |drawn| == |segs|;
    forall j | 0 <= j < |drawn| ensures drawn[j] == segs[j] {
      assert j < i - 1;
      assert drawn[j] == (op.points[j], op.points[j + 1]);
      assert segs[j] == (op.points[j], op.points[j + 1]);
    }
  }

  /** The incremental drawing after `added` points were appended to a stroke's point list `pts`:
      segment i, from point i - 1 to point i, for every i from max(1, |pts| - added) on. */
  method DrawAppended(pts: seq<Point>, added: nat) returns (drawn: seq<Segment>)
    requires added <= |pts|
    ensures var old_ := |pts| - added;
      drawn == Segments(pts)[if old_ == 0 then 0 else old_ - 1..]
  {
    drawn := [];
    var first := if |pts| - added > 1 then |pts| - added else 1;
    var i := first;
    while i < |pts|
      invariant first <= i && (i <= |pts| || i == first)
      invariant |drawn| == i - first
      invariant forall j :: 0 <= j < i - first ==> drawn[j] == (pts[first - 1 + j], pts[first + j])
    {
      drawn := drawn + [(pts[i - 1], pts[i])];
      i := i + 1;
    }
    ghost var segs := Segments(pts)[first - 1..];
    assert |drawn| == |segs|;
    assert forall j :: 0 <= j < |drawn| ==> drawn[j] == segs[j];
  }

  /** What `renderAll` draws after clearing the canvas: each operation as `renderOperation` draws
      it, in list order. */
  function Rendered(ops: seq<LocalOp>): (r: seq<Segment>)
    ensures (forall i :: 0 <= i < |ops| ==> !ops[i].active) ==> r == []
  {
    if ops == [] then []
    else (if ops[0].active then Segments(ops[0].points) else []) + Rendered(ops[1..])
  }

  /** Rendering a list is rendering its two parts one after the other. */
  lemma {:induction false} RenderedAppend(a: seq<LocalOp>, b: seq<LocalOp>)
    ensures Rendered(a + b) == Rendered(a) + Rendered(b)
  {
    if a == [] {
      assert a + b == b;
    } else {
      var head := if a[0].active then Segments(a[0].points) else [];
      assert (a + b)[0] == a[0];
      assert (a + b)[1..] == a[1..] + b;
      RenderedAppend(a[1..], b);
      calc {
        Rendered(a + b);
        head + Rendered(a[1..] + b);
        head + (Rendered(a[1..]) + Rendered(b));
        (head + Rendered(a[1..])) + Rendered(b);
      }
    }
  }

  /** One more point extends a stroke's segments by the segment from its last point, if any. */
  lemma SegmentsSnoc(a: seq<Point>, p: Point)
    ensures Segments(a + [p]) == Segments(a) + if a == [] then [] else [(a[|a| - 1], p)]
  {
    if a == [] {
      assert a + [p] == [p];
    } else {
      SegmentsExtend(a, [p]);
      assert |Segments([a[|a| - 1]] + [p])| == 1;
    }
  }

  class Client {
    var tool: string
    var color: string
    var width: int
    var drawing: bool
    /** The server id of the stroke being drawn; "" stands for null. */
    var currentOpId: OpId
    var localQueueBeforeOpId: seq<Point>
    var localBatch: seq<Point>
    var lastSentAt: int
    var operations: seq<LocalOp>

    /** The pre-id queue only ever holds the start point of a gesture. */
    ghost predicate Valid()
      reads this
    {
      |localQueueBeforeOpId| <= 1
    }

    constructor ()
      ensures Valid()
      ensures tool == "brush" && color == "#3b82f6" && width == 4
      ensures !drawing && currentOpId == "" && localQueueBeforeOpId == [] && localBatch == []
      ensures lastSentAt == 0 && operations == []
    {
      tool, color, width := "brush", "#3b82f6", 4;
      drawing, currentOpId := false, "";
      localQueueBeforeOpId, localBatch := [], [];
      lastSentAt, operations := 0, [];
    }

    /** `setTool`: the tool the next `stroke:start` carries. */
    method SetTool(t: string)
      modifies this
      ensures tool == t && color == old(color) && width == old(width)
      ensures drawing == old(drawing) && currentOpId == old(currentOpId)
      ensures localQueueBeforeOpId == old(localQueueBeforeOpId) && localBatch == old(localBatch)
      ensures lastSentAt == old(lastSentAt) && operations == old(operations)
    {
      tool := t;
    }

    /** `setColor`: the colour the next `stroke:start` carries. */
    method SetColor(c: string)
      modifies this
      ensures color == c && tool == old(tool) && width == old(width)
      ensures drawing == old(drawing) && currentOpId == old(currentOpId)
      ensures localQueueBeforeOpId == old(localQueueBeforeOpId) && localBatch == old(localBatch)
      ensures lastSentAt == old(lastSentAt) && operations == old(operations)
    {
      color := c;
    }

    /** `setWidth`: the width, already converted by `Number`, that the next `stroke:start` carries. */
    method SetWidth(w: int)
      modifies this
      ensures width == w && tool == old(tool) && color == old(color)
      ensures drawing == old(drawing) && currentOpId == old(currentOpId)
      ensures localQueueBeforeOpId == old(localQueueBeforeOpId) && localBatch == old(localBatch)
      ensures lastSentAt == old(lastSentAt) && operations == old(operations)
    {
      width := w;
    }

    /** `renderAll`: every operation of the local list, in order. */
    method RenderAll() returns (drawn: seq<Segment>)
      ensures drawn == Rendered(operations)
    {
      drawn := [];
      var i := 0;
      while i < |operations|
        invariant 0 <= i <= |operations|
        invariant drawn == Rendered(operations[..i])
      {
        var d := RenderOperation(operations[i]);
        assert operations[..i + 1] == operations[..i] + [operations[i]];
        RenderedAppend(operations[..i], [operations[i]]);
        assert [operations[i]][1..] == [];
        drawn := drawn + d;
        i := i + 1;
      }
      assert operations[..i] == operations;
    }

    /** The first local operation with id `opId`. */
    method Find(opId: OpId) returns (found: Option<nat>)
      ensures found == IndexOf(operations, opId)
    {
      var i := 0;
      while i < |operations|
        invariant 0 <= i <= |operations|
        invariant forall j :: 0 <= j < i ==> operations[j].opId != opId
      {
        if operations[i].opId == opId {
          return Some(i);
        }
        i := i + 1;
      }
      return None;
    }

    /** `room:state` and `room:ops`: the local list becomes a copy of the server's snapshot, and
        the canvas is redrawn from it. */
    method OnSnapshot(ops: seq<Op>) returns (drawn: seq<Segment>)
      requires Valid()
      modifies this
      ensures Valid()
      ensures tool == old(tool) && color == old(color) && width == old(width)
      ensures operations == Snapshot(ops) && drawn == Rendered(operations)
      ensures drawing == old(drawing) && currentOpId == old(currentOpId)
      ensures localQueueBeforeOpId == old(localQueueBeforeOpId) && localBatch == old(localBatch)
      ensures lastSentAt == old(lastSentAt)
    {
      operations := Snapshot(ops);
      drawn := RenderAll();
    }

    /** `stroke:start` echo. For this client's own stroke the server id becomes current, the pre-id
        queue minus its start point is sent and emptied, then any pending batch is sent and emptied.
        Every echo appends a local operation holding only the start point. */
    method OnStrokeStart(selfId: Option<UserId>, opId: OpId, userId: UserId, t: Tool, c: string,
                         w: Option<int>, start: Point) returns (sent: seq<ClientMsg>)
      requires Valid()
      modifies this
      ensures Valid()
      ensures tool == old(tool) && color == old(color) && width == old(width)
      ensures operations == old(operations) + [LocalOp(opId, userId, t, c, w, [start], true)]
      ensures selfId == Some(userId) ==>
        && currentOpId == opId
        && sent == (if old(localQueueBeforeOpId) != [] then [SendStrokePoints(opId, old(localQueueBeforeOpId)[1..])] else [])
                 + (if old(localBatch) != [] then [SendStrokePoints(opId, old(localBatch))] else [])
        && localQueueBeforeOpId == [] && localBatch == []
      ensures selfId == Some(userId) && old(localQueueBeforeOpId) != [] ==> sent[0] == SendStrokePoints(opId, [])
      ensures selfId != Some(userId) ==>
        && sent == [] && currentOpId == old(currentOpId)
        && localQueueBeforeOpId == old(localQueueBeforeOpId) && localBatch == old(localBatch)
      ensures drawing == old(drawing) && lastSentAt == old(lastSentAt)
    {
      sent := [];
      if selfId == Some(userId) {
        currentOpId := opId;
        if |localQueueBeforeOpId| > 0 {
          sent := sent + [SendStrokePoints(opId, localQueueBeforeOpId[1..])];
          localQueueBeforeOpId := [];
        }
        if |localBatch| > 0 {
          sent := sent + [SendStrokePoints(opId, localBatch)];
          localBatch := [];
        }
      }
      operations := operations + [LocalOp(opId, userId, t, c, w, [start], true)];
    }

    /** `stroke:points`: no-op for an unknown id; otherwise the points are appended, in order, to the
        first operation with that id, and the segments reaching the new points are drawn. */
    method OnStrokePoints(opId: OpId, points: seq<Point>) returns (drawn: seq<Segment>)
      requires Valid()
      modifies this
      ensures Valid()
      ensures tool == old(tool) && color == old(color) && width == old(width)
      ensures IndexOf(old(operations), opId).None? ==> operations == old(operations) && drawn == []
      ensures IndexOf(old(operations), opId).Some? ==>
        var k := IndexOf(old(operations), opId).value;
        var before := old(operations)[k].points;
        && operations == old(operations)[k := old(operations)[k].(points := before + points)]
        && drawn == Segments(before + points)[if before == [] then 0 else |before| - 1..]
      ensures drawing == old(drawing) && currentOpId == old(currentOpId)
      ensures localQueueBeforeOpId == old(localQueueBeforeOpId) && localBatch == old(localBatch)
      ensures lastSentAt == old(lastSentAt)
    {
      var found := Find(opId);
      if found.None? {
        return [];
      }
      var k := found.value;
      var op := operations[k];
      operations := operations[k := op.(points := op.points + points)];
      drawn := DrawAppended(op.points + points, |points|);
    }

    /** `stroke:end`: no-op for an unknown id; otherwise the end point is appended as received. */
    method OnStrokeEnd(opId: OpId, end: Point)
      requires Valid()
      modifies this
      ensures Valid()
      ensures tool == old(tool) && color == old(color) && width == old(width)
      ensures IndexOf(old(operations), opId).None? ==> operations == old(operations)
      ensures IndexOf(old(operations), opId).Some? ==>
        var k := IndexOf(old(operations), opId).value;
        operations == old(operations)[k := old(operations)[k].(points := old(operations)[k].points + [end])]
      ensures drawing == old(drawing) && currentOpId == old(currentOpId)
      ensures localQueueBeforeOpId == old(localQueueBeforeOpId) && localBatch == old(localBatch)
      ensures lastSentAt == old(lastSentAt)
    {
      var found := Find(opId);
      if found.None? {
        return;
      }
      var k := found.value;
      operations := operations[k := operations[k].(points := operations[k].points + [end])];
    }

    /** Pointer down: start drawing, ask the server for a stroke, and queue the start point until
        the server's id is known. */
    method OnPointerDown(start: Point) returns (sent: seq<ClientMsg>)
      requires Valid()
      modifies this
      ensures Valid()
      ensures drawing && localQueueBeforeOpId == [start]
      ensures sent == [SendStrokeStart(tool, color, width, start)]
      ensures tool == old(tool) && color == old(color) && width == old(width)
      ensures currentOpId == old(currentOpId) && localBatch == old(localBatch)
      ensures lastSentAt == old(lastSentAt) && operations == old(operations)
    {
      drawing := true;
      sent := [SendStrokeStart(tool, color, width, start)];
      localQueueBeforeOpId := [start];
    }

    /** Pointer move: while drawing, the point joins the batch and, when the batch held a point
        already, the segment from that point is drawn as a local prediction; the batch is sent and
        emptied only when more than 16 ms have passed since the last send and the server id is known. */
    method OnPointerMove(p: Point, now: int) returns (sent: seq<ClientMsg>, drawn: seq<Segment>)
      requires Valid()
      modifies this
      ensures Valid()
      ensures tool == old(tool) && color == old(color) && width == old(width)
      ensures !old(drawing) ==> sent == [] && localBatch == old(localBatch) && lastSentAt == old(lastSentAt)
      ensures old(drawing) && now - old(lastSentAt) > 16 && currentOpId != "" ==>
        sent == [SendStrokePoints(currentOpId, old(localBatch) + [p])] && localBatch == [] && lastSentAt == now
      ensures old(drawing) && !(now - old(lastSentAt) > 16 && currentOpId != "") ==>
        sent == [] && localBatch == old(localBatch) + [p] && lastSentAt == old(lastSentAt)
      ensures drawn == if old(drawing) && old(localBatch) != [] then [(old(localBatch)[|old(localBatch)| - 1], p)] else []
      ensures drawing == old(drawing) && currentOpId == old(currentOpId)
      ensures localQueueBeforeOpId == old(localQueueBeforeOpId) && operations == old(operations)
    {
      sent, drawn := [], [];
      if !drawing {
        return;
      }
      localBatch := localBatch + [p];
      if |localBatch| >= 2 {
        drawn := [(localBatch[|localBatch| - 2], localBatch[|localBatch| - 1])];
      }
      if now - lastSentAt > 16 && currentOpId != "" {
        sent := [SendStrokePoints(currentOpId, localBatch)];
        localBatch := [];
        lastSentAt := now;
      }
    }

    /** Pointer up: ends the gesture. When the server id is known, a non-empty batch is flushed, then
        `stroke:end` is sent and the id is forgotten; before the id is known nothing is sent. */
    method OnPointerUp(end: Point) returns (sent: seq<ClientMsg>)
      requires Valid()
      modifies this
      ensures Valid()
      ensures tool == old(tool) && color == old(color) && width == old(width)
      ensures !old(drawing) ==> sent == [] && drawing == old(drawing) && currentOpId == old(currentOpId)
                                && localBatch == old(localBatch)
      ensures old(drawing) && old(currentOpId) != "" ==>
        && sent == (if old(localBatch) != [] then [SendStrokePoints(old(currentOpId), old(localBatch))] else [])
                   + [SendStrokeEnd(old(currentOpId), end)]
        && currentOpId == "" && localBatch == []
      ensures old(drawing) && old(currentOpId) == "" ==>
        sent == [] && currentOpId == "" && localBatch == old(localBatch)
      ensures !drawing
      ensures localQueueBeforeOpId == old(localQueueBeforeOpId) && operations == old(operations)
      ensures lastSentAt == old(lastSentAt)
    {
      sent := [];
      if !drawing {
        return;
      }
      drawing := false;
      if currentOpId != "" {
        if |localBatch| > 0 {
          sent := sent + [SendStrokePoints(currentOpId, localBatch)];
          localBatch := [];
        }
        sent := sent + [SendStrokeEnd(currentOpId, end)];
        currentOpId := "";
      }
    }
  }

  /** The points a list of outgoing messages carries for one stroke, in sending order. */
  function PointsSentFor(msgs: seq<ClientMsg>, id: OpId): (r: seq<Point>)
  {
    if msgs == [] then []
    else (if msgs[0].SendStrokePoints? && msgs[0].opId == id then msgs[0].points else [])
         + PointsSentFor(msgs[1..], id)
  }

  lemma {:induction false} PointsSentForAppend(a: seq<ClientMsg>, b: seq<ClientMsg>, id: OpId)
    ensures PointsSentFor(a + b, id) == PointsSentFor(a, id) + PointsSentFor(b, id)
  {
    if a == [] {
      assert a + b == b;
    } else {
      assert (a + b)[0] == a[0];
      assert (a + b)[1..] == a[1..] + b;
      PointsSentForAppend(a[1..], b, id);
    }
  }

  /** A batch of pointer moves, each with the clock reading taken during it. */
  datatype Move = Move(p: Point, at: int)

  function MovedPoints(moves: seq<Move>): (r: seq<Point>)
    ensures |r| == |moves| && forall i :: 0 <= i < |moves| ==> r[i] == moves[i].p
  {
    seq(|moves|, i requires 0 <= i < |moves| => moves[i].p)
  }

  lemma PointsSentForOne(m: ClientMsg, id: OpId)
    ensures PointsSentFor([m], id) == if m.SendStrokePoints? && m.opId == id then m.points else []
  {
    assert [m][1..] == [];
  }

  /** Pointer down and moves before the server's id is known: nothing but `stroke:start` is sent,
      every moved point waits in the batch, in order, and the local prediction draws the segments
      between consecutive moved points (none from the start point). */
  method PressAndMoveBeforeEcho(c: Client, start: Point, moves: seq<Move>)
    returns (sent: seq<ClientMsg>, drawn: seq<Segment>)
    requires c.Valid() && c.currentOpId == "" && c.localBatch == []
    modifies c
    ensures c.Valid() && c.drawing && c.currentOpId == "" && c.localQueueBeforeOpId == [start]
    ensures c.tool == old(c.tool) && c.color == old(c.color) && c.width == old(c.width)
    ensures c.localBatch == MovedPoints(moves)
    ensures sent == [SendStrokeStart(c.tool, c.color, c.width, start)]
    ensures drawn == Segments(MovedPoints(moves))
  {
    sent := c.OnPointerDown(start);
    drawn := [];
    var i := 0;
    while i < |moves|
      invariant 0 <= i <= |moves|
      invariant c.Valid() && c.drawing && c.currentOpId == "" && c.localQueueBeforeOpId == [start]
      invariant c.tool == old(c.tool) && c.color == old(c.color) && c.width == old(c.width)
      invariant c.localBatch == MovedPoints(moves)[..i]
      invariant sent == [SendStrokeStart(c.tool, c.color, c.width, start)]
      invariant drawn == Segments(c.localBatch)
    {
      SegmentsSnoc(c.localBatch, moves[i].p);
      var s, d := c.OnPointerMove(moves[i].p, moves[i].at);
      drawn := drawn + d;
      assert MovedPoints(moves)[..i + 1] == MovedPoints(moves)[..i] + [moves[i].p];
      i := i + 1;
    }
    assert MovedPoints(moves)[..i] == MovedPoints(moves);
  }

  /** One move while drawing with the server's id known: whatever is sent goes under that id, and
      what it carries followed by the new batch is the old batch followed by the point. */
  method MoveOnce(c: Client, m: Move) returns (sent: seq<ClientMsg>)
    requires c.Valid() && c.drawing && c.currentOpId != ""
    modifies c
    ensures c.Valid() && c.drawing && c.currentOpId == old(c.currentOpId)
    ensures forall k :: 0 <= k < |sent| ==> sent[k].SendStrokePoints? && sent[k].opId == c.currentOpId
    ensures PointsSentFor(sent, c.currentOpId) + c.localBatch == old(c.localBatch) + [m.p]
  {
    var drawn;
    sent, drawn := c.OnPointerMove(m.p, m.at);
    if sent != [] {
      PointsSentForOne(sent[0], c.currentOpId);
    }
  }

  /** Bookkeeping of one step of a stream: if what was sent and batched so far is `sofar`, and the
      step sends `s` and leaves `after` batched from `batch` plus `p`, then it is now `sofar + [p]`;
      messages that are all `stroke:points` under `id` stay so. */
  lemma SentThenBatched(sent: seq<ClientMsg>, s: seq<ClientMsg>, id: OpId, batch: seq<Point>, after: seq<Point>,
                        p: Point, sofar: seq<Point>)
    requires PointsSentFor(sent, id) + batch == sofar
    requires PointsSentFor(s, id) + after == batch + [p]
    requires forall k :: 0 <= k < |sent| ==> sent[k].SendStrokePoints? && sent[k].opId == id
    requires forall k :: 0 <= k < |s| ==> s[k].SendStrokePoints? && s[k].opId == id
    ensures PointsSentFor(sent + s, id) + after == sofar + [p]
    ensures forall k :: 0 <= k < |sent + s| ==> (sent + s)[k].SendStrokePoints? && (sent + s)[k].opId == id
  {
    PointsSentForAppend(sent, s, id);
    var carried := PointsSentFor(sent, id);
    calc {
      PointsSentFor(sent + s, id) + after;
      carried + (PointsSentFor(s, id) + after);
      (carried + batch) + [p];
    }
    assert forall k :: 0 <= k < |sent + s| ==> (sent + s)[k] == if k < |sent| then sent[k] else s[k - |sent|];
  }

  /** Moves while drawing with the server's id known, at any clock readings: only `stroke:points`
      messages under that id are sent, and what they carry followed by what is still batched is the
      earlier batch followed by every moved point, in order. */
  method MoveAfterEcho(c: Client, moves: seq<Move>) returns (sent: seq<ClientMsg>)
    requires c.Valid() && c.drawing && c.currentOpId != ""
    modifies c
    ensures c.Valid() && c.drawing && c.currentOpId == old(c.currentOpId)
    ensures forall k :: 0 <= k < |sent| ==> sent[k].SendStrokePoints? && sent[k].opId == c.currentOpId
    ensures PointsSentFor(sent, c.currentOpId) + c.localBatch == old(c.localBatch) + MovedPoints(moves)
  {
    var id := c.currentOpId;
    sent := [];
    var i := 0;
    while i < |moves|
      invariant 0 <= i <= |moves|
      invariant c.Valid() && c.drawing && c.currentOpId == id
      invariant forall k :: 0 <= k < |sent| ==> sent[k].SendStrokePoints? && sent[k].opId == id
      invariant PointsSentFor(sent, id) + c.localBatch == old(c.localBatch) + MovedPoints(moves)[..i]
    {
      ghost var batch := c.localBatch;
      var s := MoveOnce(c, moves[i]);
      assert MovedPoints(moves)[..i + 1] == MovedPoints(moves)[..i] + [moves[i].p];
      SentThenBatched(sent, s, id, batch, c.localBatch, moves[i].p, old(c.localBatch) + MovedPoints(moves)[..i]);
      sent := sent + s;
      i := i + 1;
    }
    assert MovedPoints(moves)[..i] == MovedPoints(moves);
  }

  /** Pointer down, moves, then the echo of this client's own stroke while still drawing: the id
      becomes current, and what was sent so far is `stroke:start` followed by `stroke:points`
      messages under the id that carry exactly the moved points, in order. */
  method PressMoveAndEcho(c: Client, me: UserId, id: OpId, start: Point, moves: seq<Move>)
    returns (sent: seq<ClientMsg>)
    requires id != ""
    requires c.Valid() && c.currentOpId == "" && c.localBatch == []
    modifies c
    ensures c.Valid() && c.drawing && c.currentOpId == id && c.localBatch == []
    ensures |sent| >= 2 && sent[0] == SendStrokeStart(old(c.tool), old(c.color), old(c.width), start)
    ensures forall k :: 0 < k < |sent| ==> sent[k].SendStrokePoints? && sent[k].opId == id
    ensures PointsSentFor(sent, id) == MovedPoints(moves)
  {
    var down, _ := PressAndMoveBeforeEcho(c, start, moves);
    var echo := c.OnStrokeStart(Some(me), id, me, Brush, "#3b82f6", Some(4), start);
    assert [start][1..] == [];
    PointsSentForAppend(down, echo, id);
    PointsSentForOne(down[0], id);
    PointsSentForOne(echo[0], id);
    if moves != [] {
      assert echo == [echo[0]] + [echo[1]];
      PointsSentForAppend([echo[0]], [echo[1]], id);
      PointsSentForOne(echo[1], id);
    }
    sent := down + echo;
  }

  /** Moves and release while drawing with the id known and nothing batched: `stroke:points`
      messages under the id carry every moved point in order, and `stroke:end` comes last. */
  method MoveAndRelease(c: Client, moves: seq<Move>, end: Point) returns (sent: seq<ClientMsg>)
    requires c.Valid() && c.drawing && c.currentOpId != "" && c.localBatch == []
    modifies c
    ensures |sent| >= 1 && sent[|sent| - 1] == SendStrokeEnd(old(c.currentOpId), end)
    ensures forall k :: 0 <= k < |sent| - 1 ==> sent[k].SendStrokePoints? && sent[k].opId == old(c.currentOpId)
    ensures PointsSentFor(sent, old(c.currentOpId)) == MovedPoints(moves)
  {
    var id := c.currentOpId;
    var moved := MoveAfterEcho(c, moves);
    var batch := c.localBatch;
    assert PointsSentFor(moved, id) + batch == MovedPoints(moves);
    var up := c.OnPointerUp(end);
    PointsSentForOne(up[|up| - 1], id);
    if batch != [] {
      assert up == [up[0]] + [up[1]];
      PointsSentForAppend([up[0]], [up[1]], id);
      PointsSentForOne(up[0], id);
    }
    assert PointsSentFor(up, id) == batch;
    PointsSentForAppend(moved, up, id);
    sent := moved + up;
  }

  /** A gesture begun with no current server id and nothing batched, whose echo arrives while the
      pointer is still down, after any number of moves and before any number of further moves,
      with arbitrary clock readings: the client sends `stroke:start` with its settings and the start
      point, then only `stroke:points` messages under the server's id that carry every moved point
      exactly once and in order, and finally `stroke:end` with the release point. A stale id left
      by an earlier gesture released before its echo breaks the first condition. */
  method OwnStrokeReconciled(c: Client, me: UserId, id: OpId, start: Point, before: seq<Move>, after: seq<Move>,
                             end: Point) returns (sent: seq<ClientMsg>)
    requires id != ""
    requires c.Valid() && c.currentOpId == "" && c.localBatch == []
    modifies c
    ensures |sent| >= 3
    ensures sent[0] == SendStrokeStart(old(c.tool), old(c.color), old(c.width), start)
    ensures sent[|sent| - 1] == SendStrokeEnd(id, end)
    ensures forall i :: 0 < i < |sent| - 1 ==> sent[i].SendStrokePoints? && sent[i].opId == id
    ensures PointsSentFor(sent, id) == MovedPoints(before) + MovedPoints(after)
  {
    var head := PressMoveAndEcho(c, me, id, start, before);
    var tail := MoveAndRelease(c, after, end);
    PointsSentForAppend(head, tail, id);
    sent := head + tail;
  }

  /** A pointer released before the server's echo arrives, then a second gesture begun and moved:
      nothing in this run sends `stroke:end`, the late echo leaves the first stroke's id current
      after its release, and the second gesture's moves are sent under that old id. */
  method ReleaseBeforeEcho(me: UserId, id: OpId, p0: Point, p1: Point, p2: Point, p3: Point)
    returns (sent: seq<ClientMsg>, current: OpId)
    requires id != ""
    ensures |sent| == 4
    ensures forall i :: 0 <= i < |sent| ==> !sent[i].SendStrokeEnd?
    ensures current == id
    ensures sent[|sent| - 1] == SendStrokePoints(id, [p3])
  {
    var c := new Client();
    var s0 := c.OnPointerDown(p0);
    var s1 := c.OnPointerUp(p1);
    var s2 := c.OnStrokeStart(Some(me), id, me, Brush, "#3b82f6", Some(4), p0);
    var s3 := c.OnPointerDown(p2);
    var s4, _ := c.OnPointerMove(p3, 100);
    sent := s0 + s1 + s2 + s3 + s4;
    current := c.currentOpId;
  }

  /** Two gestures each released before their echo: the first stroke's late echo makes its id
      current, so releasing the second gesture sends `stroke:end` under the first stroke's id with
      the second gesture's release point; no other id is used in this run. */
  method StaleIdCommitsEarlierStroke(me: UserId, id: OpId, p0: Point, p1: Point, p2: Point, p3: Point)
    returns (sent: seq<ClientMsg>)
    requires id != ""
    ensures sent == [SendStrokeStart("brush", "#3b82f6", 4, p0), SendStrokePoints(id, []),
                     SendStrokeStart("brush", "#3b82f6", 4, p2), SendStrokeEnd(id, p3)]
  {
    var c := new Client();
    var s0 := c.OnPointerDown(p0);
    var s1 := c.OnPointerUp(p1);
    var s2 := c.OnStrokeStart(Some(me), id, me, Brush, "#3b82f6", Some(4), p0);
    assert [p0][1..] == [];
    var s3 := c.OnPointerDown(p2);
    var s4 := c.OnPointerUp(p3);
    sent := s0 + s1 + s2 + s3 + s4;
  }

  /** The toolbar's choices reach the server: after setting the tool, colour and width, the next
      pointer down asks for a stroke with exactly those settings. */
  method SettingsReachNextStroke(t: string, col: string, w: int, start: Point) returns (sent: seq<ClientMsg>)
    ensures sent == [SendStrokeStart(t, col, w, start)]
  {
    var c := new Client();
    c.SetTool(t);
    c.SetColor(col);
    c.SetWidth(w);
    sent := c.OnPointerDown(start);
  }
}
