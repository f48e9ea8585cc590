/** The per-room drawing state as the server holds it: five structures updated in place by the six
    operations of `createDrawingState`. Each method is proved to leave the structures exactly as the
    matching `LogSpec` function says and to keep `LogSpec.Valid`. */
module OperationLog {
  import opened Stroke
  import LogSpec

  /** The loop of `appendPoints`: pushes, in order, each point with numeric coordinates onto the
      stroke's points, stamped. */
  method PushAccepted(p: Op, points: seq<Point>, now: int) returns (q: Op)
    ensures q == p.(points := p.points + Accepted(points, now))
  {
    q := p;
    var i := 0;
    assert p.points + Accepted(points[..0], now) == p.points;
    while i < |points|
      invariant 0 <= i <= |points|
      invariant q == p.(points := p.points + Accepted(points[..i], now))
    {
      var pt := points[i];
      assert points[..i + 1] == points[..i] + [pt];
      AcceptedAppend(points[..i], [pt], now);
      AcceptedOne(pt, now);
      if pt.Pt? {
        q := q.(points := q.points + [Stamp(pt, now)]);
      }
      i := i + 1;
    }
    assert points[..i] == points;
  }

  class DrawingState {
    var operations: seq<Op>
    var opIndex: map<OpId, nat>
    var pending: map<OpId, Op>
    var history: seq<OpId>
    var redoStack: seq<OpId>

    /** The five structures as one value. */
    function Model(): (m: LogSpec.Log)
      reads this
    {
      LogSpec.Log(operations, opIndex, pending, history, redoStack)
    }

    ghost predicate Valid()
      reads this
    {
      LogSpec.Valid(Model())
    }

    constructor ()
      ensures Model() == LogSpec.Empty && Valid()
    {
      operations, opIndex, pending, history, redoStack := [], map[], map[], [], [];
    }

    /** Registers a pending stroke and returns its id. The id comes from a uuid generator, so it is
        neither pending nor finalised. */
    method BeginStroke(req: LogSpec.StrokeRequest, now: int) returns (id: OpId)
      requires Valid() && LogSpec.Fresh(Model(), req.opId)
      modifies this
      ensures Valid()
      ensures id == req.opId
      ensures Model() == LogSpec.BeginStroke(old(Model()), req, now)
    {
      LogSpec.BeginStrokeKeepsValid(Model(), req, now);
      pending := pending[req.opId := LogSpec.NewPending(req, now)];
      id := req.opId;
    }

    /** Appends, one at a time, the points with numeric coordinates to the pending stroke `id`. */
    method AppendPoints(id: OpId, points: seq<Point>, now: int) returns (ok: bool)
      requires Valid()
      modifies this
      ensures Valid()
      ensures (Model(), ok) == LogSpec.AppendPoints(old(Model()), id, points, now)
    {
      LogSpec.AppendPointsKeepsValid(Model(), id, points, now);
      if id !in pending {
        return false;
      }
      var p := PushAccepted(pending[id], points, now);
      pending := pending[id := p];
      assert (Model(), true) == LogSpec.AppendPoints(old(Model()), id, points, now);
      return true;
    }

    /** Finalises the pending stroke `id`: returns it, or `None` when `id` is not pending. */
    method EndStroke(id: OpId, end: Point, now: int) returns (op: Option<Op>)
      requires Valid()
      modifies this
      ensures Valid()
      ensures (Model(), op) == LogSpec.EndStroke(old(Model()), id, end, now)
    {
      LogSpec.EndStrokeKeepsValid(Model(), id, end, now);
      if id !in pending {
        return None;
      }
      var p := pending[id];
      ghost var expected := LogSpec.EndStroke(old(Model()), id, end, now);
      AcceptedOne(end, now);
      if end.Pt? {
        p := p.(points := p.points + [Stamp(end, now)]);
      } else {
        assert p.points + Accepted([end], now) == p.points;
      }
      p := p.(endedAt := Some(now));
      pending := pending - {id};
      opIndex := opIndex[id := |operations|];
      operations := operations + [p];
      history := history + [id];
      redoStack := [];
      assert expected.1 == Some(p);
      return Some(p);
    }

    /** Scans `history` from the newest entry backwards and deactivates the first stroke still active. */
    method Undo() returns (r: Option<OpId>)
      requires Valid()
      modifies this
      ensures Valid()
      ensures (Model(), r) == LogSpec.Undo(old(Model()))
    {
      ghost var before := Model();
      r := None;
      var i := |history|;
      while i > 0
        invariant 0 <= i <= |history|
        invariant Model() == before
        invariant LogSpec.NewestActive(before, |history|) == LogSpec.NewestActive(before, i)
      {
        var id := history[i - 1];
        if id in opIndex {
          var idx := opIndex[id];
          if idx < |operations| && operations[idx].active {
            operations := operations[idx := operations[idx].(active := false)];
            redoStack := redoStack + [id];
            r := Some(id);
            break;
          }
        }
        i := i - 1;
      }
      assert (Model(), r) == LogSpec.Undo(before);
      LogSpec.UndoKeepsValid(before);
    }

    /** Pops the redo stack until an inactive stroke turns up, and reactivates it. Under `Valid` the
        top entry is always inactive (`LogSpec.RedoPopsTop`), so the skipping of stale entries is
        defensive; the method is therefore stated for every state, not only valid ones. */
    method Redo() returns (r: Option<OpId>)
      modifies this
      ensures old(Valid()) ==> Valid()
      ensures (Model(), r) == LogSpec.Redo(old(Model()))
    {
      ghost var before := Model();
      r := None;
      while |redoStack| > 0
        invariant redoStack == before.redoStack[..|redoStack|]
        invariant operations == before.operations && opIndex == before.opIndex
        invariant pending == before.pending && history == before.history
        invariant LogSpec.RedoTarget(before, redoStack) == LogSpec.RedoTarget(before, before.redoStack)
        decreases |redoStack|
      {
        var id := redoStack[|redoStack| - 1];
        if id in opIndex && opIndex[id] < |operations| && !operations[opIndex[id]].active {
          assert LogSpec.IsInactive(before, id);
          assert LogSpec.RedoTarget(before, redoStack) == Some(|redoStack| - 1);
          assert before.redoStack[..|redoStack| - 1] == redoStack[..|redoStack| - 1];
          redoStack := redoStack[..|redoStack| - 1];
          operations := operations[opIndex[id] := operations[opIndex[id]].(active := true)];
          r := Some(id);
          break;
        }
        redoStack := redoStack[..|redoStack| - 1];
      }
      assert (Model(), r) == LogSpec.Redo(before);
      if LogSpec.Valid(before) {
        LogSpec.RedoKeepsValid(before);
      }
    }

    /** Empties all five structures. */
    method Clear()
      modifies this
      ensures Valid()
      ensures Model() == LogSpec.Clear(old(Model()))
    {
      operations := [];
      opIndex := map[];
      pending := map[];
      history := [];
      redoStack := [];
    }
  }
}
