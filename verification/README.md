# Collaborative drawing: operation log, event handlers and client mirror

This project models the core of a real-time collaborative drawing application. Every room keeps
an authoritative **operation log** of strokes. A stroke is begun on `stroke:start`, grows on
`stroke:points` and is committed on `stroke:end`. The room supports a **global** undo and redo,
whoever drew the stroke. Undo takes back the newest active stroke in commit order. Redo brings back
the most recently undone stroke, the top of the redo stack. The model is in five files.

- `stroke.dfy` (module `Stroke`) holds the values the three parts share:
  - points, where a point without numeric coordinates is `Malformed`;
  - tools and stroke operations;
  - the filter `Accepted`, which turns an incoming batch into the points the log stores.
- `log_spec.dfy` (module `LogSpec`) gives the log's five structures (`operations`, `opIndex`,
  `pending`, `history`, `redoStack`) as one value, `Log`:
  - the six operations are functions of it;
  - `Valid` is the invariant every operation keeps, and the lemmas state what undo and redo mean.
- `drawing_state.dfy` (module `OperationLog`) is the imperative `DrawingState` class. It updates the
  five structures in place, with the same loops as the source. Every method is proved to produce
  exactly the state and the answer of the matching `LogSpec` function, and to keep `Valid`.
- `server.dfy` (module `Server`) covers one socket event as a step
  `(room, connection, event) -> (room, connection, messages)`:
  - each outgoing message is tagged with its audience: the sender, the whole room, or the room
    without the sender;
  - `Step` is the specification, and the class `Room` runs the same handlers against a
    `DrawingState`, proved equal to `Step`.
- `canvas.dfy` (module `Canvas`) is the browser client, the class `Client`:
  - its local mirror of the operations;
  - its handling of the server's `stroke:*` echoes;
  - the pointer handlers that stream a local stroke to the server.

  Each drawing call is replaced by the list of segments it would draw:
  - `renderAll` after a snapshot;
  - the new segments of a `stroke:points` echo;
  - the local prediction segment on a pointer move.

Conventions. A missing or falsy string is `""`. A width that `Number` turns into NaN is `None`. A
timestamp of `0` means "absent" and is replaced by the clock. The uuid generator, the clock and the
room directory's colour assignment are parameters: `now`, and `Env(freshId, now, assignedColor)`.

The width default follows the code: `Number(width) || 4` treats a width of 0 like a missing one. The
result is 4, clamped into [1, 64]. A width of 0 is therefore stored as 4, not 1 (`ClampWidth`).

## Model

| member | source | states |
|---|---|---|
| Stroke.Stamp | server/drawing-state.js:36 | the stored point keeps x and y; its timestamp is the point's own when truthy, else the clock |
| Stroke.AcceptedKeepsWellFormed | server/drawing-state.js:34-38 | the appendPoints filter: every kept point has numeric coordinates, and a well-formed batch is kept whole and in order with each point stamped; in any batch, each well-formed point is kept, stamped, between what is kept of the points before it and after it |
| Stroke.AcceptedOne | server/drawing-state.js:45-47 | the end point is appended, stamped, exactly when it has numeric coordinates |
| Stroke.Accepted | server/drawing-state.js:34-38 | the appendPoints filter keeps at most as many points as the batch holds |
| Stroke.AcceptedAround | server/drawing-state.js:34-38 | a well-formed point at any position of a batch is kept, stamped, between the kept points before it and after it |
| Stroke.AcceptedAppend | server/drawing-state.js:34-38 | filtering a batch point by point distributes over concatenation (the loop invariant of appendPoints) |
| LogSpec.BeginStroke | server/drawing-state.js:15-29 | the request's id becomes pending with the given points, active and not ended; every other pending stroke keeps its contents, and nothing else in the log changes |
| LogSpec.AppendPoints | server/drawing-state.js:31-40 | answers true exactly when the id is pending; otherwise the log is unchanged; on success that stroke's points grow by the accepted points, every other pending stroke keeps its contents, and nothing else changes |
| LogSpec.EndStroke | server/drawing-state.js:42-55 | None and no change for an id not pending; otherwise the stroke, end point appended and ended, leaves pending, is appended to operations and indexed at its position, its id is pushed on history, and the redo stack is emptied |
| LogSpec.NewestActive | server/drawing-state.js:59-69 | a position found by undo's backward scan lies below the start and names an active stroke |
| LogSpec.NewestActiveIsNewest | server/drawing-state.js:59-70 | undo's scan finds the newest active history entry, and finds none exactly when no entry is active |
| LogSpec.SetActive | server/drawing-state.js:65 | toggling one operation changes only its active flag |
| LogSpec.RedoTarget | server/drawing-state.js:74-82 | a position found by redo's popping lies in the stack and names an inactive stroke |
| LogSpec.RedoTargetIsTopmost | server/drawing-state.js:73-84 | redo stops at the topmost inactive entry of the stack, and finds none exactly when no entry is inactive |
| LogSpec.Undo | server/drawing-state.js:57-71 | None leaves the log unchanged; otherwise the answered id was active and is now inactive, and it is pushed on the redo stack; pending, index, history and the number of operations never change |
| LogSpec.Redo | server/drawing-state.js:73-84 | None empties the redo stack and changes nothing else; otherwise the answered id was inactive and is now active, it is the stack entry just above the new top, and the stack is cut back to below it; pending, index, history and the number of operations never change |
| LogSpec.Clear | server/drawing-state.js:86-92 | all five structures are empty |
| LogSpec.UndoDeactivatesNewestActive | server/drawing-state.js:57-71 | under the invariant, undo is global: it answers None exactly when no operation is active (and changes nothing), else deactivates the last active operation in commit order and pushes its id on the redo stack |
| LogSpec.RedoPopsTop | server/drawing-state.js:73-84 | under the invariant, with a non-empty redo stack, redo answers the top id; the new operations are the old ones with exactly that operation set active, the stack loses only its top, and nothing else changes |
| LogSpec.UndoThenRedoRestores | server/drawing-state.js:57-84 | a successful undo followed by redo restores the whole log and answers the same id |
| LogSpec.UndoWithNothingActive | server/drawing-state.js:57-71 | with no active history entry, undo answers None and changes nothing |
| LogSpec.CommitInvalidatesRedo | server/drawing-state.js:53 | after a commit, redo answers None |
| LogSpec.ClearedLogHasNothingToUndoOrRedo | server/drawing-state.js:86-92 | after clear, undo and redo both answer None and the finalised list is empty |
| LogSpec.AppendAllExtends | server/drawing-state.js:31-40 | any sequence of appends to a pending stroke extends its points by the accepted points of each batch, in call order; the other pending strokes, operations, index, history and redo stack are unchanged |
| LogSpec.StrokeLifecycle | server/drawing-state.js:15-55 | begin, appends, end: the committed stroke holds the initial points, every accepted appended point in order, then the end point if well formed; it is active, ended, and last in operations and history |
| LogSpec.GlobalUndoScenario | server/drawing-state.js:57-84 | with strokes A, B (one user) and C (another) committed, undo takes back C then B whoever asks, redo restores B, A stays active |
| LogSpec.EmptyIsValid | server/drawing-state.js:8-13 | the freshly created log satisfies the invariant |
| LogSpec.BeginStrokeKeepsValid | server/drawing-state.js:15-29 | beginStroke with a fresh id keeps the invariant |
| LogSpec.AppendPointsKeepsValid | server/drawing-state.js:31-40 | appendPoints keeps the invariant |
| LogSpec.EndStrokeKeepsValid | server/drawing-state.js:42-55 | endStroke keeps the invariant |
| LogSpec.UndoKeepsValid | server/drawing-state.js:57-71 | undo keeps the invariant |
| LogSpec.RedoKeepsValid | server/drawing-state.js:73-84 | redo keeps the invariant |
| LogSpec.ClearKeepsValid | server/drawing-state.js:86-92 | clear keeps the invariant |
| OperationLog.PushAccepted | server/drawing-state.js:34-38 | the loop pushes onto the stroke exactly the accepted points of the batch, in order |
| OperationLog.DrawingState.constructor | server/drawing-state.js:8-13 | the five structures start empty and valid |
| OperationLog.DrawingState.BeginStroke | server/drawing-state.js:15-29 | returns the id and leaves the state equal to LogSpec.BeginStroke, keeping the invariant |
| OperationLog.DrawingState.AppendPoints | server/drawing-state.js:31-40 | state and answer equal LogSpec.AppendPoints, keeping the invariant |
| OperationLog.DrawingState.EndStroke | server/drawing-state.js:42-55 | state and returned stroke equal LogSpec.EndStroke, keeping the invariant |
| OperationLog.DrawingState.Undo | server/drawing-state.js:57-71 | the backward scan leaves state and answer equal to LogSpec.Undo, keeping the invariant |
| OperationLog.DrawingState.Redo | server/drawing-state.js:73-84 | the popping loop leaves state and answer equal to LogSpec.Redo in every state, and keeps the invariant |
| OperationLog.DrawingState.Clear | server/drawing-state.js:86-92 | state equals LogSpec.Clear and is valid |
| Server.NormalizeTool | server/server.js:56 | the tool is eraser exactly when "eraser" was asked for |
| Server.ClampWidth | server/server.js:58 | the width is in [1, 64]; NaN and 0 give 4; in-range widths are kept; larger ones give 64, negative ones 1 |
| Server.DisplayName | server/server.js:30 | a truthy username is kept; otherwise "User-" followed by the first four characters of the socket id |
| Server.Upsert | server/server.js:30 | after `users.set` the user is in the list, which grows by at most one entry |
| Server.UpsertAppendsNewUser | server/server.js:30 | a user with a new id is added at the end of the room's users |
| Server.UpsertReplacesFirstMatch | server/server.js:30 | a user whose id is already present replaces that entry where it stands |
| Server.UpsertKeepsIdsUnique | server/server.js:30 | after a join the user is in the list and user ids stay unique |
| Server.JoinWithoutRoomIgnored | server/server.js:24 | a join without a room id changes nothing and sends nothing |
| Server.EventsBeforeJoinIgnored | server/server.js:23-50 | before a join no stroke, history or clear handler exists, so such events change nothing |
| Server.JoinSendsFinalisedStrokesOnly | server/server.js:23-39 | a join records the user and session, sends the joiner the user list and the finalised operations (never a pending stroke), then announces the user to the others; the log is untouched |
| Server.StrokeStartNormalises | server/server.js:50-62 | stroke:start registers a pending stroke under the fresh id with normalised tool, colour fallback and clamped width, and broadcasts the same id, tool and colour with the raw width |
| Server.StrokePointsValidated | server/server.js:65-69 | a falsy id or an empty or non-array batch is ignored; otherwise the points go to appendPoints and are relayed verbatim to the room |
| Server.StrokeEndBroadcastOnlyOnCommit | server/server.js:72-78 | stroke:end is rebroadcast exactly when the stroke was pending and was committed |
| Server.HistoryEmitsAppliedThenSnapshot | server/server.js:81-96 | a successful undo or redo emits history:applied then the operations snapshot; an unsuccessful one emits nothing |
| Server.ClearAlwaysSnapshots | server/server.js:99-102 | clear empties the log and always broadcasts the empty snapshot |
| Server.Step | server/server.js:23-102 | only a join changes the users or the connection, and a join never touches the log; before a join every other event does nothing; each message goes to the sender, to the room without the sender (on a join), or to the joined room |
| Server.HandleJoined | server/server.js:50-102 | the stroke, history and clear handlers never change the users; stroke:start and stroke:points leave the finalised operations unchanged; only stroke:end and clear can change the history |
| Server.Emitted | server/server.js:50-102 | every message from these handlers is broadcast to the joined room; there are at most two; stroke:start and clear always broadcast exactly one |
| Server.HandlerKeepsValid | server/server.js:50-102 | the stroke, history and clear handlers keep the log invariant, given a fresh uuid for stroke:start |
| Server.StepKeepsValid | server/server.js:23-102 | every event keeps the log invariant and the uniqueness of user ids, given a fresh uuid for stroke:start |
| Server.Room.constructor | server/server.js:25 | a room as the directory creates it: no users, and an empty, valid drawing state |
| Server.Room.Join | server/server.js:23-39 | the join handler on the in-place state gives exactly the room, connection and messages of Step, and keeps ids unique |
| Server.Room.Dispatch | server/server.js:50-102 | the stroke, history and clear handlers on the in-place state give exactly HandleJoined and Emitted, keeping the invariant |
| Server.Room.Handle | server/server.js:23-102 | running the handlers against the in-place state gives exactly the room, connection and messages of Step, and keeps the invariant |
| Canvas.Snapshot | client/canvas.js:145-154 | the local list is an element-wise copy of the server's snapshot |
| Canvas.Segments | client/canvas.js:58-64 | one segment per pair of consecutive points, in order |
| Canvas.SegmentsExtend | client/canvas.js:179-187 | drawing the new points from the last drawn one completes the segments of the whole stroke |
| Canvas.IndexOf | client/canvas.js:180 | the first operation with the id, or None exactly when there is none |
| Canvas.RenderOperation | client/canvas.js:58-64 | an inactive operation draws nothing; an active one draws all of its segments |
| Canvas.DrawAppended | client/canvas.js:184-186 | the incremental draw is the tail of the stroke's segments starting at the last old point |
| Canvas.Rendered | client/canvas.js:66-69 | a list with no active operation renders nothing |
| Canvas.RenderedAppend | client/canvas.js:66-69 | rendering a list draws its first part, then its second part |
| Canvas.Client.RenderAll | client/canvas.js:66-69 | the loop draws each operation of the local list as renderOperation does, in list order |
| Canvas.Client.SetTool | client/canvas.js:29 | the tool becomes the given one, and nothing else changes |
| Canvas.Client.SetColor | client/canvas.js:30 | the colour becomes the given one, and nothing else changes |
| Canvas.Client.SetWidth | client/canvas.js:31 | the width becomes the given one, and nothing else changes |
| Canvas.Client.constructor | client/canvas.js:7-18 | the initial tool, colour, width and empty client state |
| Canvas.Client.Find | client/canvas.js:180 | the search loop returns IndexOf |
| Canvas.Client.OnSnapshot | client/canvas.js:145-154 | a room:state or room:ops snapshot replaces the local list and nothing else, and the canvas is redrawn from the new list |
| Canvas.Client.OnStrokeStart | client/canvas.js:165-177 | the echo appends the stroke; for the client's own stroke it records the id and flushes the pre-echo queue (without its start point) and the local batch |
| Canvas.Client.OnStrokePoints | client/canvas.js:179-187 | points for a known id extend that operation and draw just the new segments; an unknown id changes nothing |
| Canvas.Client.OnStrokeEnd | client/canvas.js:189-193 | the end point is appended to a known operation; an unknown id changes nothing |
| Canvas.Client.OnPointerDown | client/canvas.js:75-84 | pointer down starts drawing, sends stroke:start with the current tool, colour and width, and queues the start point |
| Canvas.Client.OnPointerMove | client/canvas.js:86-99 | while drawing, the point is batched, and the segment from the previous batched point (if any) is drawn as a prediction; the batch is flushed under the stroke's id only when more than 16 ms have passed and the id is known |
| Canvas.Client.OnPointerUp | client/canvas.js:101-110 | on release with a known id the remaining batch and stroke:end are sent and the id is forgotten; drawing always stops |
| Canvas.PointsSentForAppend | client/canvas.js:96-107 | the points sent for a stroke over two runs of messages are those of each, concatenated |
| Canvas.SentThenBatched | client/canvas.js:86-99 | one step of streaming: if the points sent so far plus the batch are everything moved so far, that stays true after one more move, and every message stays under the stroke's id |
| Canvas.MoveOnce | client/canvas.js:86-99 | one move with the id known: anything sent is stroke:points under that id, and the points sent plus the new batch are the old batch plus the moved point |
| Canvas.MoveAfterEcho | client/canvas.js:86-99 | any number of moves with the id known, at any clock readings: only stroke:points under that id are sent, and the points sent plus the batch are the old batch plus every moved point in order |
| Canvas.PressAndMoveBeforeEcho | client/canvas.js:75-99 | before the echo, pointer down and any moves send only stroke:start; the start point is queued, every moved point is batched in order, and the prediction draws exactly the segments between consecutive moved points |
| Canvas.PressMoveAndEcho | client/canvas.js:75-177 | pressing, moving and then the own echo: stroke:start, then only stroke:points under the server's id that carry every moved point in order; the batch is left empty |
| Canvas.MoveAndRelease | client/canvas.js:86-110 | moving and releasing with the id known and nothing batched: stroke:points under the id with every moved point in order, then stroke:end under that id |
| Canvas.OwnStrokeReconciled | client/canvas.js:75-177 | for any gesture begun with no current id and nothing batched, whose echo arrives while the pointer is down, after and before any moves at any clock readings: start with the client's settings, then only points messages under the server's id carrying every moved point exactly once and in order, then end with the release point |
| Canvas.ReleaseBeforeEcho | client/canvas.js:75-177 | in the run press, release, late echo, press, move: no message of the run is stroke:end, the first stroke's id is current after its release, and the second gesture's move is sent under it |
| Canvas.SettingsReachNextStroke | client/canvas.js:29-31 | after the tool, colour and width are set, the next pointer down sends stroke:start with exactly those settings |
| Canvas.StaleIdCommitsEarlierStroke | client/canvas.js:75-177 | in the run press, release, late echo, press, release: the second release sends stroke:end under the first stroke's id with the second release point, and no other id is used in this run |

## Left out

- Transport: socket.io routing, the HTTP server, static files and the port are left out. Each
  outgoing message carries its audience instead.
- The uuid generator, `Date.now()` and `Math.random` are parameters.
  - A single clock reading is used per call. The source reads the clock once per point, so
    timestamps of points within one batch may differ there.
  - `beginStroke` requires a fresh id (`Fresh`), which the uuid generator supplies.
  - `beginStroke`'s fallback `op.opId || uuidv4()` is not modelled, because the server always
    passes an id.
- The room directory (server/rooms.js): `getOrCreateRoom`, `assignUserColor` and
  `removeClientFromRooms` are not part of this model. The room is a parameter of `Step`, and the
  assigned colour comes from `Env`.
- Left out of the server:
  - the `disconnect` and `cursor:update` handlers;
  - the duplicate handlers a second `room:join` on the same socket registers. The model keeps one
    session per connection.
- Concurrency between rooms and between connections is left out. Each event is one atomic step.
- Left out of the client:
  - the DOM and canvas work: `resize` (which also calls `renderAll`), `renderAll`'s clearing,
    cursors, the user list, `init`;
  - the brush each segment is drawn with. A segment is only its two points, so the tool, colour
    and width of a drawing call are not recorded;
  - the undo, redo and clear buttons, which only forward to the socket. The public
    `setActiveTool`, `setActiveColor` and `setStrokeWidth` call the modelled setters.
- `Canvas.Client.SetWidth` takes the width after `Number`, as an integer. A width string that
  `Number` turns into NaN is not represented.
- Coordinates and widths are integers. `Malformed` stands only for coordinates that are not numbers.
  - The source's `typeof === 'number'` test also accepts fractional, NaN and Infinity
    coordinates; these are not represented.
  - `Server.ClampWidth` works on integers, so it cannot express a width of 0.5 becoming 1 or a
    fractional width such as 2.5 being kept.
  - The width echoed in `stroke:start` is modelled as `Number(width)`. The source echoes the raw
    payload value. A `null` width is echoed as `null` there but as `Some(0)` here, and the string
    `"12"` as that string there but as `Some(12)` here.
- A missing payload is not represented: the `Event` datatype always carries its fields.
  `room:join`, `stroke:points` and `stroke:end` destructure their payload (server/server.js:23,
  65, 72), so a missing payload throws a `TypeError` inside the handler there. Only `stroke:start`
  guards with `msg || {}` (line 51), which the model's fields with empty values stand for.
- Aliasing is not modelled:
  - operations are values. In the source, the server's `room:state` payload and `operations`
    array share objects with the live log;
  - the client's snapshot drops `startedAt` and `endedAt`.
- `Stroke.Stamp`: a point timestamp of `0` (or any falsy one) is indistinguishable from a missing
  one, and both take the clock.
- `Canvas.OwnStrokeReconciled` requires that no server id is current when the gesture begins.
  After an earlier gesture was released before its echo, the late echo leaves that stroke's id
  current (client/canvas.js:167). The next gesture's moves before its own echo then go out under
  the old id (lines 95-96), so its points are not all sent under its own id.
- `Canvas.ReleaseBeforeEcho` and `Canvas.StaleIdCommitsEarlierStroke` describe the source's
  behaviour for a release before the echo, and no corrected client is modelled. The first run shows
  that no stroke:end is sent within it. The second shows the stale id being used by the next
  release. What the server then does with the first stroke follows from `Server.Step`, and no lemma
  states it.
