/** The server's per-connection event handlers. Each inbound socket event is one step
    `(room, connection, event) -> (room, connection, outbound messages)`; the transport is replaced
    by the returned list of messages, each tagged with its audience. `Step` is the specification;
    `Room.Handle` runs the same handlers against the imperative `DrawingState` and is proved equal. */
module Server {
  import opened Stroke
  import LogSpec
  import opened OperationLog

  type RoomId = string

  datatype User = User(id: UserId, name: string, color: string)

  /** Inbound events with their payload fields; "" stands for a missing or falsy string, a `None`
      width for one that `Number` turns into NaN, a `None` points list for a payload that is not an array. */
  datatype Event =
    | JoinRoom(roomId: RoomId, username: string)
    | StrokeStart(tool: string, color: string, width: Option<int>, start: Point)
    | StrokePoints(opId: OpId, points: Option<seq<Point>>)
    | StrokeEnd(opId: OpId, end: Point)
    | HistoryUndo
    | HistoryRedo
    | CanvasClear

  datatype HistoryKind = UndoKind | RedoKind

  /** Outbound messages, named after the socket events `room:state`, `presence:join`, `stroke:start`,
      `stroke:points`, `stroke:end`, `history:applied` and `room:ops`. */
  datatype Msg =
    | RoomState(users: seq<User>, ops: seq<Op>)
    | PresenceJoin(user: User)
    | StrokeStarted(opId: OpId, userId: UserId, tool: Tool, color: string, width: Option<int>, start: Point)
    | PointsRelayed(opId: OpId, points: seq<Point>)
    | StrokeEnded(opId: OpId, end: Point)
    | HistoryApplied(kind: HistoryKind, opId: OpId)
    | RoomOps(ops: seq<Op>)

  /** `socket.emit` (the sender), `io.to(room)` (everyone in the room, sender included) and
      `socket.to(room)` (everyone in the room but the sender). */
  datatype Audience = ToSender | ToRoom(roomId: RoomId) | ToRoomExceptSender(roomId: RoomId)

  datatype Out = Out(to: Audience, msg: Msg)

  /** What a joined connection's handlers close over: the room id and the colour it was assigned. */
  datatype Session = Session(roomId: RoomId, color: string)

  /** A socket: its id, which is the user id, and its session once `room:join` has registered handlers. */
  datatype Conn = Conn(userId: UserId, session: Option<Session>)

  datatype RoomView = RoomView(users: seq<User>, log: LogSpec.Log)

  /** The foreign calls a step may make: a fresh uuid, the clock, and the colour the room directory
      assigns to this user. */
  datatype Env = Env(freshId: OpId, now: int, assignedColor: string)

  datatype Outcome = Outcome(room: RoomView, conn: Conn, out: seq<Out>)

  predicate UniqueIds(users: seq<User>)
  {
    forall i, j :: 0 <= i < j < |users| ==> users[i].id != users[j].id
  }

  ghost predicate RoomValid(room: RoomView)
  {
    LogSpec.Valid(room.log) && UniqueIds(room.users)
  }

  /** `tool === 'eraser' ? 'eraser' : 'brush'` */
  function NormalizeTool(tool: string): (t: Tool)
    ensures t == Eraser <==> tool == "eraser"
  {
    if tool == "eraser" then Eraser else Brush
  }

  /** `Math.max(1, Math.min(64, Number(width) || 4))`: NaN and 0 are falsy and give the default 4. */
  function ClampWidth(width: Option<int>): (w: int)
    ensures 1 <= w <= 64
    ensures width.None? || width == Some(0) ==> w == 4
    ensures width.Some? && 1 <= width.value <= 64 ==> w == width.value
    ensures width.Some? && width.value > 64 ==> w == 64
    ensures width.Some? && width.value < 0 ==> w == 1
  {
    var n := if width.None? || width.value == 0 then 4 else width.value;
    if n > 64 then 64 else if n < 1 then 1 else n
  }

  /** `username || 'User-' + userId.slice(0, 4)` */
  function DisplayName(username: string, userId: UserId): (name: string)
    ensures username != "" ==> name == username
    ensures username == "" ==>
      && |name| == 5 + (if |userId| < 4 then |userId| else 4)
      && name[..5] == "User-" && name[5..] <= userId
  {
    if username != "" then username
    else "User-" + (if |userId| <= 4 then userId else userId[..4])
  }

  /** `users.set(u.id, u)` on an insertion-ordered map: an existing entry for the id is replaced where
      it stands, otherwise the user is added at the end. */
  function Upsert(users: seq<User>, u: User): (r: seq<User>)
    ensures u in r
    ensures |users| <= |r| <= |users| + 1
  {
    if users == [] then [u]
    else if users[0].id == u.id then [u] + users[1..]
    else [users[0]] + Upsert(users[1..], u)
  }

  /** A user whose id is new goes at the end of the list. */
  lemma {:induction false} UpsertAppendsNewUser(users: seq<User>, u: User)
    requires forall i :: 0 <= i < |users| ==> users[i].id != u.id
    ensures Upsert(users, u) == users + [u]
  {
    if users != [] {
      UpsertAppendsNewUser(users[1..], u);
      assert users + [u] == [users[0]] + (users[1..] + [u]);
    }
  }

  /** A user whose id first appears at position `k` replaces that entry where it stands; every other
      entry stays put. */
  lemma {:induction false} UpsertReplacesFirstMatch(users: seq<User>, u: User, k: nat)
    requires k < |users| && users[k].id == u.id
    requires forall i :: 0 <= i < k ==> users[i].id != u.id
    ensures Upsert(users, u) == users[k := u]
  {
    if k > 0 {
      var tail := users[1..];
      assert users[0].id != u.id;
      UpsertReplacesFirstMatch(tail, u, k - 1);
      assert users[k := u] == [users[0]] + tail[k - 1 := u];
    }
  }

  /** The first position holding `id`, given that position `k` holds it. */
  function FirstWithId(users: seq<User>, id: UserId, k: nat): (f: nat)
    requires k < |users| && users[k].id == id
    ensures f <= k && users[f].id == id && forall i :: 0 <= i < f ==> users[i].id != id
  {
    if users[0].id == id then 0 else 1 + FirstWithId(users[1..], id, k - 1)
  }

  /** Upserting into a list with unique ids keeps them unique and leaves the user in the list. */
  lemma UpsertKeepsIdsUnique(users: seq<User>, u: User)
    requires UniqueIds(users)
    ensures u in Upsert(users, u)
    ensures UniqueIds(Upsert(users, u))
  {
    if k :| 0 <= k < |users| && users[k].id == u.id {
      assert forall i :: 0 <= i < k ==> users[i].id != u.id;
      UpsertReplacesFirstMatch(users, u, k);
      var r := users[k := u];
      assert r[k] == u;
      assert forall i :: 0 <= i < |r| ==> r[i].id == users[i].id;
    } else {
      UpsertAppendsNewUser(users, u);
      var r := users + [u];
      assert r[|users|] == u;
    }
  }

  /** The user record a `room:join` stores and announces. */
  function Joiner(conn: Conn, username: string, env: Env): (r: User)
  {
    User(conn.userId, DisplayName(username, conn.userId), env.assignedColor)
  }

  /** The pending stroke a `stroke:start` registers. */
  function StartRequest(conn: Conn, s: Session, tool: string, color: string, width: Option<int>, start: Point, env: Env): (r: LogSpec.StrokeRequest)
  {
    LogSpec.StrokeRequest(env.freshId, conn.userId, NormalizeTool(tool),
                          if color != "" then color else s.color, ClampWidth(width), [start])
  }

  /** One socket event. For `room:join`, `room` is the room the directory returned for its id; for
      every other event it is the room the connection joined. Before a join no handler exists. */
  function Step(room: RoomView, conn: Conn, ev: Event, env: Env): (r: Outcome)
    ensures !ev.JoinRoom? ==> r.conn == conn && r.room.users == room.users
    ensures ev.JoinRoom? ==> r.room.log == room.log
    ensures !ev.JoinRoom? && conn.session.None? ==> r == Outcome(room, conn, [])
    ensures forall o :: o in r.out ==>
      || o.to == ToSender
      || (ev.JoinRoom? && o.to == ToRoomExceptSender(ev.roomId))
      || (conn.session.Some? && o.to == ToRoom(conn.session.value.roomId))
  {
    match ev
    case JoinRoom(rid, username) =>
      if rid == "" then Outcome(room, conn, [])
      else
        var user := Joiner(conn, username, env);
        var users := Upsert(room.users, user);
        Outcome(room.(users := users), conn.(session := Some(Session(rid, env.assignedColor))),
                [Out(ToSender, RoomState(users, room.log.operations)),
                 Out(ToRoomExceptSender(rid), PresenceJoin(user))])
    case _ =>
      match conn.session
      case None => Outcome(room, conn, [])
      case Some(s) => Outcome(HandleJoined(room, conn, s, ev, env), conn, Emitted(room, conn, s, ev, env))
  }

  /** The room after a handler of a joined connection ran. */
  function HandleJoined(room: RoomView, conn: Conn, s: Session, ev: Event, env: Env): (r: RoomView)
    ensures r.users == room.users
    ensures ev.StrokeStart? || ev.StrokePoints? ==> r.log.operations == room.log.operations
    ensures !ev.StrokeEnd? && !ev.CanvasClear? ==> r.log.history == room.log.history
  {
    match ev
    case JoinRoom(_, _) => room
    case StrokeStart(tool, color, width, start) =>
      room.(log := LogSpec.BeginStroke(room.log, StartRequest(conn, s, tool, color, width, start, env), env.now))
    case StrokePoints(id, pts) =>
      if id == "" || pts.None? || |pts.value| == 0 then room
      else room.(log := LogSpec.AppendPoints(room.log, id, pts.value, env.now).0)
    case StrokeEnd(id, end) =>
      if id == "" then room else room.(log := LogSpec.EndStroke(room.log, id, end, env.now).0)
    case HistoryUndo => room.(log := LogSpec.Undo(room.log).0)
    case HistoryRedo => room.(log := LogSpec.Redo(room.log).0)
    case CanvasClear => room.(log := LogSpec.Clear(room.log))
  }

  /** The messages a handler of a joined connection emits, in order. */
  function Emitted(room: RoomView, conn: Conn, s: Session, ev: Event, env: Env): (r: seq<Out>)
    ensures forall o :: o in r ==> o.to == ToRoom(s.roomId)
    ensures |r| <= 2
    ensures ev.StrokeStart? || ev.CanvasClear? ==> |r| == 1
  {
    match ev
    case JoinRoom(_, _) => []
    case StrokeStart(tool, color, width, start) =>
      var req := StartRequest(conn, s, tool, color, width, start, env);
      [Out(ToRoom(s.roomId), StrokeStarted(env.freshId, conn.userId, req.tool, req.color, width, start))]
    case StrokePoints(id, pts) =>
      if id == "" || pts.None? || |pts.value| == 0 then []
      else [Out(ToRoom(s.roomId), PointsRelayed(id, pts.value))]
    case StrokeEnd(id, end) =>
      if id == "" || LogSpec.EndStroke(room.log, id, end, env.now).1.None? then []
      else [Out(ToRoom(s.roomId), StrokeEnded(id, end))]
    case HistoryUndo =>
      var (log, r) := LogSpec.Undo(room.log);
      if r.None? then []
      else [Out(ToRoom(s.roomId), HistoryApplied(UndoKind, r.value)), Out(ToRoom(s.roomId), RoomOps(log.operations))]
    case HistoryRedo =>
      var (log, r) := LogSpec.Redo(room.log);
      if r.None? then []
      else [Out(ToRoom(s.roomId), HistoryApplied(RedoKind, r.value)), Out(ToRoom(s.roomId), RoomOps(log.operations))]
    case CanvasClear => [Out(ToRoom(s.roomId), RoomOps(LogSpec.Clear(room.log).operations))]
  }

  // ---------------------------------------------------------------------------------------------
  // What each handler promises

  /** A `room:join` with a falsy room id is ignored entirely. */
  lemma JoinWithoutRoomIgnored(room: RoomView, conn: Conn, username: string, env: Env)
    ensures Step(room, conn, JoinRoom("", username), env) == Outcome(room, conn, [])
  {
  }

  /** Before a connection has joined, no handler other than `room:join` exists. */
  lemma EventsBeforeJoinIgnored(room: RoomView, conn: Conn, ev: Event, env: Env)
    requires conn.session.None? && !ev.JoinRoom?
    ensures Step(room, conn, ev, env) == Outcome(room, conn, [])
  {
  }

  /** A join sends the joiner the user list and the finalised operations only (no pending stroke
      appears in it), then tells the rest of the room about the joiner; the log is untouched. */
  lemma JoinSendsFinalisedStrokesOnly(room: RoomView, conn: Conn, rid: RoomId, username: string, env: Env)
    requires rid != "" && LogSpec.Valid(room.log)
    ensures var o := Step(room, conn, JoinRoom(rid, username), env);
      var user := Joiner(conn, username, env);
      && o.room.log == room.log
      && user in o.room.users
      && o.conn.session == Some(Session(rid, env.assignedColor))
      && |o.out| == 2
      && o.out[0] == Out(ToSender, RoomState(o.room.users, room.log.operations))
      && o.out[1] == Out(ToRoomExceptSender(rid), PresenceJoin(user))
      && forall i :: 0 <= i < |room.log.operations| ==> room.log.operations[i].opId !in room.log.pending
  {
    var user := Joiner(conn, username, env);
    if k :| 0 <= k < |room.users| && room.users[k].id == user.id {
      var first := FirstWithId(room.users, user.id, k);
      UpsertReplacesFirstMatch(room.users, user, first);
      assert room.users[first := user][first] == user;
    } else {
      UpsertAppendsNewUser(room.users, user);
      assert (room.users + [user])[|room.users|] == user;
    }
  }

  /** `stroke:start` registers a pending stroke under the fresh id, with the tool normalised to
      eraser exactly when "eraser" was asked for, the colour falling back to the user's assigned
      colour, the width clamped into [1, 64] and the start point as its only point; the broadcast to
      the whole room carries the same id, tool and colour but echoes the raw width. */
  lemma StrokeStartNormalises(room: RoomView, conn: Conn, s: Session, tool: string, color: string,
                              width: Option<int>, start: Point, env: Env)
    requires conn.session == Some(s)
    ensures var o := Step(room, conn, StrokeStart(tool, color, width, start), env);
      var op := o.room.log.pending[env.freshId];
      && env.freshId in o.room.log.pending
      && (op.tool == Eraser <==> tool == "eraser")
      && op.color == (if color != "" then color else s.color)
      && 1 <= op.width <= 64 && op.width == ClampWidth(width)
      && op.points == [start] && op.active && op.endedAt == None && op.userId == conn.userId
      && o.room.log.operations == room.log.operations && o.room.log.history == room.log.history
      && o.out == [Out(ToRoom(s.roomId), StrokeStarted(env.freshId, conn.userId, op.tool, op.color, width, start))]
  {
  }

  /** `stroke:points` with a falsy id, or with points that are not a non-empty array, appends nothing
      and broadcasts nothing; otherwise the points go to `appendPoints` and are relayed verbatim to the
      whole room, whether or not the id was pending. */
  lemma StrokePointsValidated(room: RoomView, conn: Conn, s: Session, id: OpId, pts: Option<seq<Point>>, env: Env)
    requires conn.session == Some(s)
    ensures var o := Step(room, conn, StrokePoints(id, pts), env);
      && (o.out == [] <==> id == "" || pts.None? || pts.value == [])
      && (o.out == [] ==> o.room == room)
      && (o.out != [] ==>
            o.out == [Out(ToRoom(s.roomId), PointsRelayed(id, pts.value))]
            && o.room.log == LogSpec.AppendPoints(room.log, id, pts.value, env.now).0)
  {
  }

  /** `stroke:end` is rebroadcast exactly when the stroke was pending and so got committed. */
  lemma StrokeEndBroadcastOnlyOnCommit(room: RoomView, conn: Conn, s: Session, id: OpId, end: Point, env: Env)
    requires conn.session == Some(s)
    ensures var o := Step(room, conn, StrokeEnd(id, end), env);
      && (o.out != [] <==> id != "" && id in room.log.pending)
      && (o.out != [] ==>
            o.out == [Out(ToRoom(s.roomId), StrokeEnded(id, end))]
            && o.room.log.operations == room.log.operations + [LogSpec.EndStroke(room.log, id, end, env.now).1.value])
      && (o.out == [] ==> o.room == room)
  {
  }

  /** A successful undo or redo emits `history:applied` naming the stroke, then the snapshot of the
      finalised operations after the change; an unsuccessful one emits nothing. */
  lemma HistoryEmitsAppliedThenSnapshot(room: RoomView, conn: Conn, s: Session, undo: bool, env: Env)
    requires conn.session == Some(s)
    ensures var o := Step(room, conn, if undo then HistoryUndo else HistoryRedo, env);
      var (log, r) := if undo then LogSpec.Undo(room.log) else LogSpec.Redo(room.log);
      && o.room.log == log
      && (r.None? ==> o.out == [])
      && (r.Some? ==> o.out == [Out(ToRoom(s.roomId), HistoryApplied(if undo then UndoKind else RedoKind, r.value)),
                                Out(ToRoom(s.roomId), RoomOps(o.room.log.operations))])
  {
  }

  /** `canvas:clear` empties the log and always broadcasts the empty snapshot. */
  lemma ClearAlwaysSnapshots(room: RoomView, conn: Conn, s: Session, env: Env)
    requires conn.session == Some(s)
    ensures var o := Step(room, conn, CanvasClear, env);
      o.room.log == LogSpec.Empty && o.out == [Out(ToRoom(s.roomId), RoomOps([]))]
  {
  }

  /** A handler of a joined connection keeps the log's invariants, given a fresh uuid for `stroke:start`. */
  lemma HandlerKeepsValid(room: RoomView, conn: Conn, s: Session, ev: Event, env: Env)
    requires RoomValid(room)
    requires ev.StrokeStart? ==> LogSpec.Fresh(room.log, env.freshId)
    ensures RoomValid(HandleJoined(room, conn, s, ev, env))
  {
    match ev
    case JoinRoom(_, _) =>
    case StrokeStart(tool, color, width, start) =>
      LogSpec.BeginStrokeKeepsValid(room.log, StartRequest(conn, s, tool, color, width, start, env), env.now);
    case StrokePoints(id, pts) =>
      if pts.Some? {
        LogSpec.AppendPointsKeepsValid(room.log, id, pts.value, env.now);
      }
    case StrokeEnd(id, end) =>
      LogSpec.EndStrokeKeepsValid(room.log, id, end, env.now);
    case HistoryUndo =>
      LogSpec.UndoKeepsValid(room.log);
    case HistoryRedo =>
      LogSpec.RedoKeepsValid(room.log);
    case CanvasClear =>
      LogSpec.ClearKeepsValid(room.log);
  }

  /** Every step keeps the log's invariants and the uniqueness of user ids, given that the uuid drawn
      for a `stroke:start` is fresh. */
  lemma StepKeepsValid(room: RoomView, conn: Conn, ev: Event, env: Env)
    requires RoomValid(room)
    requires ev.StrokeStart? ==> LogSpec.Fresh(room.log, env.freshId)
    ensures RoomValid(Step(room, conn, ev, env).room)
  {
    if ev.JoinRoom? {
      UpsertKeepsIdsUnique(room.users, Joiner(conn, ev.username, env));
    } else if conn.session.Some? {
      HandlerKeepsValid(room, conn, conn.session.value, ev, env);
    }
  }

  // ---------------------------------------------------------------------------------------------
  // The handlers over the imperative drawing state

  class Room {
    var users: seq<User>
    const state: DrawingState

    /** A room as the directory creates it: no users and a new, empty drawing state. */
    constructor ()
      ensures Valid() && fresh(state) && Model() == RoomView([], LogSpec.Empty)
    {
      users := [];
      state := new DrawingState();
    }

    function Model(): (m: RoomView)
      reads this, state
    {
      RoomView(users, state.Model())
    }

    ghost predicate Valid()
      reads this, state
    {
      state.Valid() && UniqueIds(users)
    }

    /** `room:join` with a truthy room id: records the user, opens the session and sends the joiner
        the user list and the finalised operations, then tells the others about the joiner. */
    method Join(conn: Conn, rid: RoomId, username: string, env: Env) returns (conn': Conn, out: seq<Out>)
      requires Valid() && rid != ""
      modifies this
      ensures Valid()
      ensures Outcome(Model(), conn', out) == Step(old(Model()), conn, JoinRoom(rid, username), env)
    {
      var user := Joiner(conn, username, env);
      UpsertKeepsIdsUnique(users, user);
      users := Upsert(users, user);
      conn' := conn.(session := Some(Session(rid, env.assignedColor)));
      out := [Out(ToSender, RoomState(users, state.operations)),
              Out(ToRoomExceptSender(rid), PresenceJoin(user))];
    }

    /** The handlers a joined connection registered: stroke, history and clear events. */
    method Dispatch(conn: Conn, s: Session, ev: Event, env: Env) returns (out: seq<Out>)
      requires Valid() && !ev.JoinRoom?
      requires ev.StrokeStart? ==> LogSpec.Fresh(state.Model(), env.freshId)
      modifies state
      ensures Valid()
      ensures Model() == HandleJoined(old(Model()), conn, s, ev, env)
      ensures out == Emitted(old(Model()), conn, s, ev, env)
    {
      out := [];
      match ev {
        case StrokeStart(tool, color, width, start) =>
          var req := StartRequest(conn, s, tool, color, width, start, env);
          var opId := state.BeginStroke(req, env.now);
          out := [Out(ToRoom(s.roomId), StrokeStarted(opId, conn.userId, req.tool, req.color, width, start))];
        case StrokePoints(id, pts) =>
          if id == "" || pts.None? || |pts.value| == 0 {
            return;
          }
          var _ := state.AppendPoints(id, pts.value, env.now);
          out := [Out(ToRoom(s.roomId), PointsRelayed(id, pts.value))];
        case StrokeEnd(id, end) =>
          if id == "" {
            return;
          }
          var op := state.EndStroke(id, end, env.now);
          if op.Some? {
            out := [Out(ToRoom(s.roomId), StrokeEnded(id, end))];
          }
        case HistoryUndo =>
          var r := state.Undo();
          if r.Some? {
            out := [Out(ToRoom(s.roomId), HistoryApplied(UndoKind, r.value)),
                    Out(ToRoom(s.roomId), RoomOps(state.operations))];
          }
        case HistoryRedo =>
          var r := state.Redo();
          if r.Some? {
            out := [Out(ToRoom(s.roomId), HistoryApplied(RedoKind, r.value)),
                    Out(ToRoom(s.roomId), RoomOps(state.operations))];
          }
        case CanvasClear =>
          state.Clear();
          out := [Out(ToRoom(s.roomId), RoomOps(state.operations))];
      }
    }

    /** Runs the handler `conn` registered for `ev` against this room: the room the directory
        returned for a `room:join`, or the joined room for every other event. */
    method Handle(conn: Conn, ev: Event, env: Env) returns (conn': Conn, out: seq<Out>)
      requires Valid()
      requires ev.StrokeStart? ==> LogSpec.Fresh(state.Model(), env.freshId)
      modifies this, state
      ensures Valid()
      ensures Outcome(Model(), conn', out) == Step(old(Model()), conn, ev, env)
    {
      conn' := conn;
      out := [];
      if ev.JoinRoom? {
        if ev.roomId != "" {
          conn', out := Join(conn, ev.roomId, ev.username, env);
        }
      } else if conn.session.Some? {
        out := Dispatch(conn, conn.session.value, ev, env);
      }
    }
  }
}
