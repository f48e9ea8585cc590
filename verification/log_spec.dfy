/** The per-room drawing operation log as a value, with one function per operation of the log and
    the lemmas that state what those operations promise. The class `OperationLog.DrawingState`
    implements the same operations by updating its fields in place and is proved against these. */
module LogSpec {
  import opened Stroke

  /** `operations`: finalised strokes in commit order; `opIndex`: id -> position in `operations`;
      `pending`: strokes still streaming; `history`: ids in commit order; `redoStack`: top is last. */
  datatype Log = Log(
    operations: seq<Op>,
    opIndex: map<OpId, nat>,
    pending: map<OpId, Op>,
    history: seq<OpId>,
    redoStack: seq<OpId>)

  const Empty: Log := Log([], map[], map[], [], [])

  /** What `beginStroke` is handed: the stroke's id (already allocated by the caller) and its fields. */
  datatype StrokeRequest = StrokeRequest(
    opId: OpId, userId: UserId, tool: Tool, color: string, width: int, points: seq<Point>)

  /** One `appendPoints` call: the batch and the clock reading during it. */
  datatype Batch = Batch(points: seq<Point>, now: int)

  /** The id names a finalised stroke whose position lies inside `operations`. */
  predicate Live(log: Log, id: OpId)
  {
    id in log.opIndex && log.opIndex[id] < |log.operations|
  }

  predicate IsActive(log: Log, id: OpId)
  {
    Live(log, id) && log.operations[log.opIndex[id]].active
  }

  predicate IsInactive(log: Log, id: OpId)
  {
    Live(log, id) && !log.operations[log.opIndex[id]].active
  }

  /** An id the log has never seen in its current lifetime: what a fresh uuid is to the log. */
  predicate Fresh(log: Log, id: OpId)
  {
    id !in log.pending && id !in log.opIndex
  }

  /** The invariants the log keeps across all operations. */
  ghost predicate Valid(log: Log)
  {
    // history equals the finalised ids in commit order
    && |log.history| == |log.operations|
    && (forall i :: 0 <= i < |log.operations| ==> log.history[i] == log.operations[i].opId)
    // opIndex agrees with operations
    && (forall i :: 0 <= i < |log.operations| ==>
          log.operations[i].opId in log.opIndex && log.opIndex[log.operations[i].opId] == i)
    && (forall id :: id in log.opIndex ==>
          log.opIndex[id] < |log.operations| && log.operations[log.opIndex[id]].opId == id)
    // pending ids are disjoint from finalised ids, and each pending entry carries its own id
    && (forall id :: id in log.pending ==> id !in log.opIndex && log.pending[id].opId == id)
    // the redo stack holds distinct ids of strokes that are currently undone
    && (forall i :: 0 <= i < |log.redoStack| ==> IsInactive(log, log.redoStack[i]))
    && (forall i, j :: 0 <= i < j < |log.redoStack| ==> log.redoStack[i] != log.redoStack[j])
  }

  /** The pending entry `beginStroke` creates. */
  function NewPending(req: StrokeRequest, now: int): (r: Op)
  {
    Op(req.opId, req.userId, req.tool, req.color, req.width, req.points, true, now, None)
  }

  /** `beginStroke`: registers a pending stroke under the request's id. */
  function BeginStroke(log: Log, req: StrokeRequest, now: int): (r: Log)
    ensures req.opId in r.pending && r.pending[req.opId] == NewPending(req, now)
    ensures r.pending[req.opId].active && r.pending[req.opId].endedAt == None
    ensures r.pending[req.opId].points == req.points
    ensures forall id :: id != req.opId ==> (id in r.pending <==> id in log.pending)
    ensures forall id :: id in log.pending && id != req.opId ==> r.pending[id] == log.pending[id]
    ensures r.operations == log.operations && r.opIndex == log.opIndex
    ensures r.history == log.history && r.redoStack == log.redoStack
  {
    log.(pending := log.pending[req.opId := NewPending(req, now)])
  }

  /** `appendPoints`: false and no change for an id that is not pending; otherwise the accepted
      points are appended to the pending stroke and the answer is true. */
  function AppendPoints(log: Log, id: OpId, pts: seq<Point>, now: int): (r: (Log, bool))
    ensures r.1 <==> id in log.pending
    ensures !r.1 ==> r.0 == log
    ensures r.1 ==> r.0.pending.Keys == log.pending.Keys
    ensures forall k :: k in log.pending && k != id ==> k in r.0.pending && r.0.pending[k] == log.pending[k]
    ensures r.1 ==> r.0.pending[id] == log.pending[id].(points := log.pending[id].points + Accepted(pts, now))
    ensures r.0.operations == log.operations && r.0.opIndex == log.opIndex
    ensures r.0.history == log.history && r.0.redoStack == log.redoStack
  {
    if id !in log.pending then (log, false)
    else
      var p := log.pending[id];
      (log.(pending := log.pending[id := p.(points := p.points + Accepted(pts, now))]), true)
  }

  /** `endStroke`: `None` and no change for an id that is not pending; otherwise the stroke, with the
      end point appended when it has numeric coordinates, moves from `pending` to the end of
      `operations`, its id is pushed onto `history`, and the redo stack is emptied. */
  function EndStroke(log: Log, id: OpId, end: Point, now: int): (r: (Log, Option<Op>))
    ensures r.1.None? <==> id !in log.pending
    ensures r.1.None? ==> r.0 == log
    ensures r.1.Some? ==>
      var op := r.1.value;
      && op == log.pending[id].(points := log.pending[id].points + Accepted([end], now), endedAt := Some(now))
      && r.0.operations == log.operations + [op]
      && r.0.opIndex == log.opIndex[id := |log.operations|]
      && r.0.pending == log.pending - {id}
      && r.0.history == log.history + [id]
      && r.0.redoStack == []
  {
    if id !in log.pending then (log, None)
    else
      var p := log.pending[id];
      var op := p.(points := p.points + Accepted([end], now), endedAt := Some(now));
      (Log(log.operations + [op], log.opIndex[id := |log.operations|], log.pending - {id},
           log.history + [id], []), Some(op))
  }

  /** The largest position below `i` in `history` whose stroke is active: where `undo`'s backward scan stops. */
  function NewestActive(log: Log, i: nat): (r: Option<nat>)
    requires i <= |log.history|
    ensures r.Some? ==> r.value < i && IsActive(log, log.history[r.value])
  {
    if i == 0 then None
    else if IsActive(log, log.history[i - 1]) then Some(i - 1)
    else NewestActive(log, i - 1)
  }

  /** The operations list with the stroke at position `k` switched on or off. */
  function SetActive(ops: seq<Op>, k: nat, on: bool): (r: seq<Op>)
    requires k < |ops|
    ensures |r| == |ops| && r[k] == ops[k].(active := on)
    ensures forall i :: 0 <= i < |ops| && i != k ==> r[i] == ops[i]
  {
    ops[k := ops[k].(active := on)]
  }

  /** `undo`: deactivates the newest committed stroke that is still active and pushes its id on the
      redo stack; with no active stroke the log is unchanged and the answer is `None`. */
  function Undo(log: Log): (r: (Log, Option<OpId>))
    ensures r.1.None? ==> r.0 == log
    ensures r.1.Some? ==>
      var id := r.1.value;
      && IsActive(log, id) && IsInactive(r.0, id)
      && r.0.redoStack == log.redoStack + [id]
    ensures r.0.pending == log.pending && r.0.opIndex == log.opIndex && r.0.history == log.history
    ensures |r.0.operations| == |log.operations|
  {
    match NewestActive(log, |log.history|)
    case None => (log, None)
    case Some(j) =>
      var id := log.history[j];
      (log.(operations := SetActive(log.operations, log.opIndex[id], false),
            redoStack := log.redoStack + [id]), Some(id))
  }

  /** The position in `stack` of the topmost id whose stroke is inactive: where `redo`'s popping stops. */
  function RedoTarget(log: Log, stack: seq<OpId>): (r: Option<nat>)
    ensures r.Some? ==> r.value < |stack| && IsInactive(log, stack[r.value])
  {
    if stack == [] then None
    else if IsInactive(log, stack[|stack| - 1]) then Some(|stack| - 1)
    else RedoTarget(log, stack[..|stack| - 1])
  }

  /** `redo`: pops the redo stack down to the topmost inactive stroke and reactivates it; entries
      popped on the way stay popped, and an exhausted stack answers `None`. */
  function Redo(log: Log): (r: (Log, Option<OpId>))
    ensures r.1.None? ==> r.0 == log.(redoStack := [])
    ensures r.1.Some? ==>
      var n := |r.0.redoStack|;
      && IsInactive(log, r.1.value) && IsActive(r.0, r.1.value)
      && n < |log.redoStack| && r.0.redoStack == log.redoStack[..n] && log.redoStack[n] == r.1.value
    ensures r.0.pending == log.pending && r.0.opIndex == log.opIndex && r.0.history == log.history
    ensures |r.0.operations| == |log.operations|
  {
    match RedoTarget(log, log.redoStack)
    case None => (log.(redoStack := []), None)
    case Some(j) =>
      var id := log.redoStack[j];
      (log.(operations := SetActive(log.operations, log.opIndex[id], true),
            redoStack := log.redoStack[..j]), Some(id))
  }

  /** `clear`: every structure of the log is emptied. */
  function Clear(log: Log): (r: Log)
    ensures r.operations == [] && r.opIndex == map[] && r.pending == map[]
    ensures r.history == [] && r.redoStack == []
  {
    Empty
  }

  /** A sequence of `appendPoints` calls on one id. */
  function AppendAll(log: Log, id: OpId, batches: seq<Batch>): (r: Log)
    decreases |batches|
  {
    if batches == [] then log
    else AppendAll(AppendPoints(log, id, batches[0].points, batches[0].now).0, id, batches[1..])
  }

  /** The points a sequence of batches contributes, in call order. */
  function AcceptedAll(batches: seq<Batch>): (r: seq<Point>)
  {
    if batches == [] then [] else Accepted(batches[0].points, batches[0].now) + AcceptedAll(batches[1..])
  }

  // ---------------------------------------------------------------------------------------------
  // What the scans find

  lemma {:induction false} NewestActiveIsNewest(log: Log, i: nat)
    requires i <= |log.history|
    ensures NewestActive(log, i).Some? ==>
      var j := NewestActive(log, i).value;
      j < i && IsActive(log, log.history[j]) &&
      forall k :: j < k < i ==> !IsActive(log, log.history[k])
    ensures NewestActive(log, i).None? <==> forall k :: 0 <= k < i ==> !IsActive(log, log.history[k])
  {
    if i > 0 && !IsActive(log, log.history[i - 1]) {
      NewestActiveIsNewest(log, i - 1);
    }
  }

  lemma {:induction false} RedoTargetIsTopmost(log: Log, stack: seq<OpId>)
    ensures RedoTarget(log, stack).Some? ==>
      var j := RedoTarget(log, stack).value;
      j < |stack| && IsInactive(log, stack[j]) &&
      forall k :: j < k < |stack| ==> !IsInactive(log, stack[k])
    ensures RedoTarget(log, stack).None? <==> forall k :: 0 <= k < |stack| ==> !IsInactive(log, stack[k])
  {
    if stack != [] && !IsInactive(log, stack[|stack| - 1]) {
      var s := stack[..|stack| - 1];
      RedoTargetIsTopmost(log, s);
      assert forall k :: 0 <= k < |s| ==> s[k] == stack[k];
    }
  }

  // ---------------------------------------------------------------------------------------------
  // Undo and redo in terms of the operations list

  /** Under the invariants, `undo` is a global undo: it deactivates the newest active stroke in
      commit order, whoever drew it, and answers `None` exactly when no stroke is active. */
  lemma UndoDeactivatesNewestActive(log: Log)
    requires Valid(log)
    ensures Undo(log).1.None? <==> forall k :: 0 <= k < |log.operations| ==> !log.operations[k].active
    ensures Undo(log).1.None? ==> Undo(log).0 == log
    ensures Undo(log).1.Some? ==>
      exists j :: 0 <= j < |log.operations| && log.operations[j].active
        && log.operations[j].opId == Undo(log).1.value
        && (forall k :: j < k < |log.operations| ==> !log.operations[k].active)
        && Undo(log).0 == log.(operations := SetActive(log.operations, j, false),
                               redoStack := log.redoStack + [log.operations[j].opId])
  {
    NewestActiveIsNewest(log, |log.history|);
    assert forall k :: 0 <= k < |log.operations| ==>
      (IsActive(log, log.history[k]) <==> log.operations[k].active);
  }

  /** Under the invariants the redo stack never holds a stale entry, so `redo` reactivates exactly
      the top of the stack and pops only it. */
  lemma RedoPopsTop(log: Log)
    requires Valid(log) && log.redoStack != []
    ensures var n := |log.redoStack|;
      var id := log.redoStack[n - 1];
      && Redo(log).1 == Some(id)
      && Redo(log).0 == log.(operations := SetActive(log.operations, log.opIndex[id], true),
                             redoStack := log.redoStack[..n - 1])
  {
  }

  /** `undo` immediately followed by `redo` restores the whole log and answers the same id. */
  lemma UndoThenRedoRestores(log: Log)
    requires Undo(log).1.Some?
    ensures Redo(Undo(log).0) == (log, Undo(log).1)
  {
    var j := NewestActive(log, |log.history|).value;
    NewestActiveIsNewest(log, |log.history|);
    var id := log.history[j];
    var l1 := Undo(log).0;
    assert l1.redoStack[|l1.redoStack| - 1] == id;
    assert IsInactive(l1, id);
    assert l1.redoStack[..|l1.redoStack| - 1] == log.redoStack;
    var k := log.opIndex[id];
    assert SetActive(l1.operations, k, true) == log.operations;
  }

  /** With nothing active, `undo` answers `None` and changes nothing. */
  lemma UndoWithNothingActive(log: Log)
    requires forall k :: 0 <= k < |log.history| ==> !IsActive(log, log.history[k])
    ensures Undo(log) == (log, None)
  {
    NewestActiveIsNewest(log, |log.history|);
  }

  /** A commit after an undo invalidates the redo: `redo` then answers `None`. */
  lemma CommitInvalidatesRedo(log: Log, id: OpId, end: Point, now: int)
    requires id in log.pending
    ensures Redo(EndStroke(log, id, end, now).0).1 == None
  {
  }

  /** After `clear`, both `undo` and `redo` answer `None` and the finalised sequence is empty. */
  lemma ClearedLogHasNothingToUndoOrRedo(log: Log)
    ensures Undo(Clear(log)) == (Clear(log), None)
    ensures Redo(Clear(log)).1 == None && Redo(Clear(log)).0.operations == []
  {
  }

  // ---------------------------------------------------------------------------------------------
  // The stroke lifecycle

  lemma {:induction false} AppendAllExtends(log: Log, id: OpId, batches: seq<Batch>)
    requires id in log.pending
    decreases |batches|
    ensures var r := AppendAll(log, id, batches);
      && r.pending == log.pending[id := log.pending[id].(points := log.pending[id].points + AcceptedAll(batches))]
      && r.operations == log.operations && r.opIndex == log.opIndex
      && r.history == log.history && r.redoStack == log.redoStack
  {
    var p := log.pending[id];
    if batches == [] {
      assert p.points + AcceptedAll(batches) == p.points;
      assert log.pending[id := p] == log.pending;
    } else {
      var p1 := p.(points := p.points + Accepted(batches[0].points, batches[0].now));
      var l1 := log.(pending := log.pending[id := p1]);
      assert AppendAll(log, id, batches) == AppendAll(l1, id, batches[1..]);
      AppendAllExtends(l1, id, batches[1..]);
      var q := p.(points := p.points + AcceptedAll(batches));
      assert p1.(points := p1.points + AcceptedAll(batches[1..])) == q by {
        var first, rest := Accepted(batches[0].points, batches[0].now), AcceptedAll(batches[1..]);
        assert AcceptedAll(batches) == first + rest;
        assert (p.points + first) + rest == p.points + (first + rest);
      }
      assert l1.pending[id := q] == log.pending[id := q];
    }
  }

  /** begin, any number of appends, then end: the committed stroke's points are the initial points,
      then every accepted appended point in call order, then the end point if it has coordinates;
      the stroke lands at the end of the finalised sequence, active. */
  lemma StrokeLifecycle(log: Log, req: StrokeRequest, begunAt: nat, batches: seq<Batch>, end: Point, endedAt: int)
    ensures var l1 := AppendAll(BeginStroke(log, req, begunAt), req.opId, batches);
      var (l2, op) := EndStroke(l1, req.opId, end, endedAt);
      && op.Some?
      && op.value.points == req.points + AcceptedAll(batches) + Accepted([end], endedAt)
      && op.value.active && op.value.opId == req.opId && op.value.endedAt == Some(endedAt)
      && l2.operations == log.operations + [op.value]
      && l2.history == log.history + [req.opId]
  {
    AppendAllExtends(BeginStroke(log, req, begunAt), req.opId, batches);
  }

  /** `beginStroke` immediately followed by `endStroke` with no end point. */
  function Commit(log: Log, req: StrokeRequest, now: int): (r: Log)
  {
    EndStroke(BeginStroke(log, req, now), req.opId, Malformed, now).0
  }

  /** Three strokes committed one after another into an empty log, all active, in commit order. */
  lemma ThreeCommits(a: StrokeRequest, b: StrokeRequest, c: StrokeRequest)
    requires a.opId != b.opId && b.opId != c.opId && a.opId != c.opId
    ensures var l3 := Commit(Commit(Commit(Empty, a, 1), b, 2), c, 3);
      && l3.history == [a.opId, b.opId, c.opId] && l3.redoStack == []
      && l3.opIndex == map[a.opId := 0, b.opId := 1, c.opId := 2]
      && |l3.operations| == 3
      && l3.operations[0].opId == a.opId && l3.operations[0].active
      && l3.operations[1].opId == b.opId && l3.operations[1].active
      && l3.operations[2].opId == c.opId && l3.operations[2].active
  {
  }

  /** Strokes A and B by one user, then C by another, committed in that order. `undo` takes back C,
      then B, whoever asks; `redo` brings back B; A stays active throughout. */
  lemma GlobalUndoScenario(a: StrokeRequest, b: StrokeRequest, c: StrokeRequest)
    requires a.opId != b.opId && b.opId != c.opId && a.opId != c.opId
    requires a.userId == b.userId && c.userId != a.userId
    ensures var l3 := Commit(Commit(Commit(Empty, a, 1), b, 2), c, 3);
      var (u1, r1) := Undo(l3);
      var (u2, r2) := Undo(u1);
      var (d1, r3) := Redo(u2);
      && r1 == Some(c.opId) && r2 == Some(b.opId) && r3 == Some(b.opId)
      && |d1.operations| == 3
      && d1.operations[0].opId == a.opId && d1.operations[0].active
      && d1.operations[1].opId == b.opId && d1.operations[1].active
      && d1.operations[2].opId == c.opId && !d1.operations[2].active
      && u1.operations[0].active && u2.operations[0].active
  {
    var l3 := Commit(Commit(Commit(Empty, a, 1), b, 2), c, 3);
    ThreeCommits(a, b, c);
    assert NewestActive(l3, 3) == Some(2);
    var u1 := Undo(l3).0;
    assert u1.redoStack == [c.opId];
    assert !u1.operations[2].active && u1.operations[1].active;
    assert NewestActive(u1, 3) == Some(1);
    var u2 := Undo(u1).0;
    assert u2.redoStack == [c.opId, b.opId];
    assert !u2.operations[1].active;
    assert RedoTarget(u2, u2.redoStack) == Some(1);
  }

  // ---------------------------------------------------------------------------------------------
  // The invariants are kept by every operation

  lemma EmptyIsValid()
    ensures Valid(Empty)
  {
  }

  lemma BeginStrokeKeepsValid(log: Log, req: StrokeRequest, now: int)
    requires Valid(log) && Fresh(log, req.opId)
    ensures Valid(BeginStroke(log, req, now))
  {
  }

  lemma AppendPointsKeepsValid(log: Log, id: OpId, pts: seq<Point>, now: int)
    requires Valid(log)
    ensures Valid(AppendPoints(log, id, pts, now).0)
  {
  }

  lemma EndStrokeKeepsValid(log: Log, id: OpId, end: Point, now: int)
    requires Valid(log)
    ensures Valid(EndStroke(log, id, end, now).0)
  {
    if id in log.pending {
      var r := EndStroke(log, id, end, now).0;
      forall i | 0 <= i < |r.operations|
        ensures r.operations[i].opId in r.opIndex && r.opIndex[r.operations[i].opId] == i
      {
        if i < |log.operations| {
          assert r.operations[i] == log.operations[i];
          assert log.operations[i].opId != id;
        }
      }
    }
  }

  lemma UndoKeepsValid(log: Log)
    requires Valid(log)
    ensures Valid(Undo(log).0)
  {
    NewestActiveIsNewest(log, |log.history|);
    match NewestActive(log, |log.history|)
    case None =>
    case Some(j) =>
      var id := log.history[j];
      var r := Undo(log).0;
      var k := log.opIndex[id];
      assert k == j;
      forall i | 0 <= i < |r.redoStack| ensures IsInactive(r, r.redoStack[i]) {
        if i < |log.redoStack| {
          var x := log.redoStack[i];
          assert IsInactive(log, x);
          assert log.operations[log.opIndex[x]].opId == x;
        }
      }
      forall a, b | 0 <= a < b < |r.redoStack| ensures r.redoStack[a] != r.redoStack[b] {
        if b == |log.redoStack| {
          assert IsInactive(log, log.redoStack[a]);
        }
      }
  }

  lemma RedoKeepsValid(log: Log)
    requires Valid(log)
    ensures Valid(Redo(log).0)
  {
    RedoTargetIsTopmost(log, log.redoStack);
    match RedoTarget(log, log.redoStack)
    case None =>
    case Some(j) =>
      var id := log.redoStack[j];
      var r := Redo(log).0;
      forall i | 0 <= i < |r.redoStack| ensures IsInactive(r, r.redoStack[i]) {
        var x := log.redoStack[i];
        assert x != id;
        assert IsInactive(log, x);
        assert log.operations[log.opIndex[x]].opId == x;
      }
  }

  lemma ClearKeepsValid(log: Log)
    ensures Valid(Clear(log))
  {
  }
}
