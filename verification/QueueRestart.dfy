/** A start whose rows cannot be read: internal/manager/manager.go logs the error of LoadAll
    and goes on with empty queues. When that is safe, and what goes wrong when it is not. */
module QueueRestart {
  import opened Bytes
  import opened QueueSpec
  import opened QueueProtocol
  import opened QueueSafety

  function CrashUnread(s: Server): Server { s.(queues := map[], threads := map[], failed := {}) }

  // ---------- runs from a server that need not be safe ----------

  /** The little every step keeps whatever the rows hold. */
  ghost predicate Sound(s: Server) {
    && ValidQueues(s) && RowIdsValid(s.rows)
    && (forall t :: t in s.threads && InFlight(s.threads[t]) ==> 0 < s.threads[t].id <= MAX_ID)
  }

  lemma ReplayOneValid(queues: map<QueueID, QState<nat>>, logID: LogID, row: Row)
    requires (forall q :: q in queues ==> ValidQueue(queues[q])) && 0 < row.id <= MAX_ID
    ensures forall q :: q in ReplayOne(queues, logID, row) ==> ValidQueue(ReplayOne(queues, logID, row)[q])
  {
    var q := if row.queueID in queues then queues[row.queueID] else EmptyQueue<nat>();
    assert ValidQueue(q);
    var q' := ReplayOne(queues, logID, row)[row.queueID];
    assert q'.events.Keys == q.events.Keys + {row.id};
    assert ValidQueue(q');
  }

  lemma {:induction false} ReplayValid(rows: map<LogID, Row>, order: seq<LogID>)
    requires RowIdsValid(rows) && forall l :: l in order ==> l in rows
    ensures forall q :: q in Replay(rows, order) ==> ValidQueue(Replay(rows, order)[q])
  {
    hide ValidQueue, ReplayOne;
    if order != [] {
      var front, last := order[..|order| - 1], order[|order| - 1];
      ReplayValid(rows, front);
      ReplayOneValid(Replay(rows, front), last, rows[last]);
    }
  }

  lemma SoundAssign(s: Server, t: Thread, hint: EventID, built: Option<Content>, obj: nat)
    requires Sound(s) && Enabled(s, AssignID(t, hint, built, obj))
    ensures Sound(DoAssign(s, t, hint, built, obj))
  {
    var q := s.queues[s.threads[t].queueID];
    var id := NextID(hint, q.tail);
    if id.Some? && built.Some? {
      NextIDMonotonic(hint, q.tail);
      AssignValid(q, id.value, built.value, obj);
    }
  }

  lemma SoundRecord(s: Server, t: Thread, popped: bool)
    requires Sound(s) && Enabled(s, RecordOrUndo(t, popped))
    ensures Sound(DoRecordOrUndo(s, t, popped))
  {
    var p := s.threads[t];
    var q := s.queues[p.queueID];
    assert Record(q, p.id, p.obj, p.logID).events.Keys == q.events.Keys;
  }

  lemma SoundDrop(s: Server, a: Action)
    requires Sound(s) && Enabled(s, a) && (a.RemoveLocked? || a.CollectQueue?)
    ensures Sound(Apply(s, a))
  {
    var p := s.threads[a.t];
    if a.RemoveLocked? {
      DropValid(s.queues[p.queueID], Gone(s.queues[p.queueID], p.removal));
    } else {
      DropValid(s.queues[a.queueID], GoneExpired(s.queues[a.queueID], p.now));
    }
  }

  lemma SoundStep(s: Server, a: Action)
    requires Sound(s)
    ensures Sound(Apply(s, a))
  {
    hide ValidQueue, DoAssign, DoRecordOrUndo, DoCollect, Gone, Replay;
    if Enabled(s, a) {
      match a
      case AssignID(t, hint, built, obj) => SoundAssign(s, t, hint, built, obj);
      case RecordOrUndo(t, popped) => SoundRecord(s, t, popped);
      case RemoveLocked(t) => SoundDrop(s, a);
      case CollectQueue(t, q) => SoundDrop(s, a);
      case BeginPush(t, q) => EmptyIsValid();
      case Crash => LoadAllIs(s.rows); ReplayValid(s.rows, LoadAll(s.rows));
      case _ =>
    }
  }

  lemma EmptyIsValid()
    ensures ValidQueue(EmptyQueue<nat>())
  {
  }

  ghost function RunFrom(s: Server, acts: seq<Action>): (s': Server)
    requires Sound(s)
    ensures Sound(s')
  {
    if acts == [] then s
    else
      SoundStep(RunFrom(s, acts[..|acts| - 1]), acts[|acts| - 1]);
      Apply(RunFrom(s, acts[..|acts| - 1]), acts[|acts| - 1])
  }

  /** The runs of QueueSafety are the ones from the empty server. */
  lemma {:induction false} RunIsFromInit(acts: seq<Action>)
    ensures Sound(Init()) && Run(acts) == RunFrom(Init(), acts)
  {
    if acts != [] { RunIsFromInit(acts[..|acts| - 1]); }
  }

  lemma {:induction false} RunFromJoin(s: Server, a: seq<Action>, b: seq<Action>)
    requires Sound(s)
    ensures RunFrom(s, a + b) == RunFrom(RunFrom(s, a), b)
  {
    hide Apply, Sound;
    if b == [] {
      assert a + b == a;
    } else {
      RunFromJoin(s, a, b[..|b| - 1]);
      assert (a + b)[..|a + b| - 1] == a + b[..|b| - 1];
    }
  }

  lemma {:induction false} RunFromSafe(s: Server, acts: seq<Action>)
    requires Sound(s) && Safe(s)
    ensures Safe(RunFrom(s, acts))
  {
    hide Safe, Sound, Apply;
    if acts != [] {
      RunFromSafe(s, acts[..|acts| - 1]);
      StepSafe(RunFrom(s, acts[..|acts| - 1]), acts[|acts| - 1]);
    }
  }

  // ---------- one update pushed, stored, confirmed and deleted ----------

  /** Nobody is working, and queueID holds nothing and gives out tail + 1 next. */
  predicate Idle(s: Server, queueID: QueueID, tail: EventID) {
    && s.threads == map[]
    && (if queueID in s.queues then s.queues[queueID] == QState(map[], 0, tail) else tail == 0)
  }

  /** A push with hint 0 through all its steps, every one of which succeeds. */
  function PushSteps(queueID: QueueID, c: Content): seq<Action> {
    [BeginPush(0, queueID), AssignID(0, 0, Some(c), 0), Insert(0, true), RecordOrUndo(0, true)]
  }

  /** The confirmation of its event, and the deletion of its row. */
  function ConfirmSteps(queueID: QueueID, id: EventID, logID: LogID): seq<Action> {
    [BeginRemove(0, queueID, RemoveUpTo(id)), RemoveLocked(0), PopRow(0, logID, true), EndPops(0)]
  }

  /** s with one queue replaced and thread 0 in phase p, alone. */
  function At(s: Server, queueID: QueueID, q: QState<nat>, p: Phase): Server {
    s.(queues := s.queues[queueID := q], threads := map[0 := p])
  }

  function Alone(id: EventID, c: Content, logID: LogID): QState<nat> { QState(map[id := Event(c, 0, logID)], id, id) }

  function Emptied(tail: EventID): QState<nat> { QState(map[], 0, tail) }

  lemma Began(s: Server, queueID: QueueID, tail: EventID)
    requires Sound(s) && Idle(s, queueID, tail)
    ensures Apply(s, BeginPush(0, queueID)) == At(s, queueID, Emptied(tail), Pushing(queueID))
  {
    var s' := Apply(s, BeginPush(0, queueID));
    assert s'.queues == s.queues[queueID := Emptied(tail)];
    assert s'.threads == map[0 := Pushing(queueID)];
  }

  lemma AssignOnEmpty(tail: EventID, c: Content)
    requires 0 <= tail < MAX_ID
    ensures Assign(Emptied(tail), tail + 1, c, 0) == Alone(tail + 1, c, 0)
    ensures AssignPops(Emptied(tail), tail + 1, c, 0) == {}
  {
    var stored := Store(Emptied(tail), tail + 1, c, 0);
    assert stored.events == map[tail + 1 := Event(c, 0, 0)];
    NothingToTrim(stored);
  }

  lemma AssignedState(s: Server, queueID: QueueID, tail: EventID, c: Content)
    requires ValidQueues(s) && s.threads == map[0 := Pushing(queueID)] && 0 <= tail < MAX_ID
    requires queueID in s.queues && s.queues[queueID] == Emptied(tail)
    ensures DoAssign(s, 0, 0, Some(c), 0)
            == At(s, queueID, Alone(tail + 1, c, 0), Persisting(queueID, tail + 1, c, 0, {}))
  {
    AssignOnEmpty(tail, c);
    hide ValidQueue, Assign, AssignPops, Emptied, Alone;
    var p := Persisting(queueID, tail + 1, c, 0, {});
    assert NextID(0, tail) == Some(tail + 1);
    assert s.threads[0 := p] == map[0 := p];
  }

  lemma Assigned(s: Server, queueID: QueueID, tail: EventID, c: Content)
    requires Sound(s) && s.threads == map[0 := Pushing(queueID)] && 0 <= tail < MAX_ID
    requires queueID in s.queues && s.queues[queueID] == Emptied(tail)
    ensures Apply(s, AssignID(0, 0, Some(c), 0))
            == At(s, queueID, Alone(tail + 1, c, 0), Persisting(queueID, tail + 1, c, 0, {}))
  {
    hide DoAssign, ValidQueue, RowIdsValid, Emptied, Alone, At;
    AssignedState(s, queueID, tail, c);
    assert Enabled(s, AssignID(0, 0, Some(c), 0));
  }

  lemma Inserted(s: Server, queueID: QueueID, id: EventID, c: Content)
    requires Sound(s) && s.threads == map[0 := Persisting(queueID, id, c, 0, {})]
    ensures Apply(s, Insert(0, true))
            == s.(rows := s.rows[s.nextLog := Row(queueID, id, c)], nextLog := s.nextLog + 1,
                  threads := map[0 := Recording(queueID, id, c, 0, s.nextLog)])
  {
    assert Apply(s, Insert(0, true)).threads == map[0 := Recording(queueID, id, c, 0, s.nextLog)];
  }

  lemma Recorded(s: Server, queueID: QueueID, id: EventID, c: Content, logID: LogID)
    requires Sound(s) && s.threads == map[0 := Recording(queueID, id, c, 0, logID)]
    requires queueID in s.queues && s.queues[queueID] == Alone(id, c, 0)
    ensures Apply(s, RecordOrUndo(0, true))
            == s.(queues := s.queues[queueID := Alone(id, c, logID)], threads := map[])
  {
    assert Record(Alone(id, c, 0), id, 0, logID) == Alone(id, c, logID);
    assert Apply(s, RecordOrUndo(0, true)).threads == map[];
  }

  lemma BeganRemoval(s: Server, queueID: QueueID, id: EventID)
    requires Sound(s) && s.threads == map[] && queueID in s.queues
    ensures Apply(s, BeginRemove(0, queueID, RemoveUpTo(id)))
            == s.(threads := map[0 := Removing(queueID, RemoveUpTo(id))])
  {
  }

  lemma RemovedAll(s: Server, queueID: QueueID, id: EventID, c: Content, logID: LogID)
    requires Sound(s) && s.threads == map[0 := Removing(queueID, RemoveUpTo(id))] && logID != 0
    requires queueID in s.queues && s.queues[queueID] == Alone(id, c, logID)
    ensures Apply(s, RemoveLocked(0)) == At(s, queueID, Emptied(id), Popping({logID}))
  {
    var q := Alone(id, c, logID);
    ConfirmedAlone(id, c, logID);
    assert Apply(s, RemoveLocked(0)) == RemoveFrom(s, 0, queueID, GoneUpTo(q, id));
    assert s.threads[0 := Popping({logID})] == map[0 := Popping({logID})];
  }

  lemma ConfirmedAlone(id: EventID, c: Content, logID: LogID)
    ensures var q := Alone(id, c, logID);
            Drop(q, GoneUpTo(q, id)) == Emptied(id) && (logID != 0 ==> Pops(q, GoneUpTo(q, id)) == {logID})
  {
    var q := Alone(id, c, logID);
    assert GoneUpTo(q, id) == {id};
    assert q.events - {id} == map[];
    assert q.events.Keys - {id} == {};
    if logID != 0 { assert q.events[id].logID in Pops(q, {id}); }
  }

  lemma Popped(s: Server, logID: LogID)
    requires Sound(s) && s.threads == map[0 := Popping({logID})]
    ensures Apply(s, PopRow(0, logID, true)) == s.(rows := s.rows - {logID}, threads := map[0 := Popping({})])
  {
    assert {logID} - {logID} == {};
    assert s.threads[0 := Popping({})] == map[0 := Popping({})];
  }

  lemma Ended(s: Server)
    requires Sound(s) && s.threads == map[0 := Popping({})]
    ensures Apply(s, EndPops(0)) == s.(threads := map[])
  {
  }

  lemma RunNothing(s: Server)
    requires Sound(s)
    ensures RunFrom(s, []) == s
  {
  }

  lemma RunFromSnoc(s: Server, acts: seq<Action>, a: Action)
    requires Sound(s)
    ensures RunFrom(s, acts + [a]) == Apply(RunFrom(s, acts), a)
  {
    hide Sound, Apply;
    assert (acts + [a])[..|acts + [a]| - 1] == acts;
  }

  lemma OneByOne<T>(a: T, b: T, c: T, d: T)
    ensures [] + [a] == [a] && [a] + [b] == [a, b] && [a, b] + [c] == [a, b, c] && [a, b, c] + [d] == [a, b, c, d]
  {
  }

  lemma RunFour(s: Server, a: Action, b: Action, c: Action, d: Action)
    requires Sound(s)
    ensures RunFrom(s, [a]) == Apply(s, a) && RunFrom(s, [a, b]) == Apply(RunFrom(s, [a]), b)
    ensures RunFrom(s, [a, b, c]) == Apply(RunFrom(s, [a, b]), c)
    ensures RunFrom(s, [a, b, c, d]) == Apply(RunFrom(s, [a, b, c]), d)
  {
    hide Sound, Apply, RunFrom;
    RunNothing(s);
    RunFromSnoc(s, [], a);
    RunFromSnoc(s, [a], b);
    RunFromSnoc(s, [a, b], c);
    RunFromSnoc(s, [a, b, c], d);
    OneByOne(a, b, c, d);
  }

  lemma PushedOnce(s: Server, queueID: QueueID, tail: EventID, c: Content)
    requires Sound(s) && Idle(s, queueID, tail) && 0 <= tail < MAX_ID
    ensures RunFrom(s, PushSteps(queueID, c))
            == s.(queues := s.queues[queueID := Alone(tail + 1, c, s.nextLog)],
                  rows := s.rows[s.nextLog := Row(queueID, tail + 1, c)], nextLog := s.nextLog + 1)
  {
    hide Sound, Apply, Emptied, Alone, RunFrom;
    var acts := PushSteps(queueID, c);
    RunFour(s, acts[0], acts[1], acts[2], acts[3]);
    Began(s, queueID, tail);
    Assigned(RunFrom(s, [acts[0]]), queueID, tail, c);
    Inserted(RunFrom(s, [acts[0], acts[1]]), queueID, tail + 1, c);
    Recorded(RunFrom(s, [acts[0], acts[1], acts[2]]), queueID, tail + 1, c, s.nextLog);
  }

  lemma ConfirmedOnce(s: Server, queueID: QueueID, id: EventID, c: Content, logID: LogID)
    requires Sound(s) && s.threads == map[] && logID != 0
    requires queueID in s.queues && s.queues[queueID] == Alone(id, c, logID)
    ensures RunFrom(s, ConfirmSteps(queueID, id, logID))
            == s.(queues := s.queues[queueID := Emptied(id)], rows := s.rows - {logID})
  {
    hide Sound, Apply, Emptied, Alone, RunFrom;
    var acts := ConfirmSteps(queueID, id, logID);
    RunFour(s, acts[0], acts[1], acts[2], acts[3]);
    BeganRemoval(s, queueID, id);
    RemovedAll(RunFrom(s, [acts[0]]), queueID, id, c, logID);
    Popped(RunFrom(s, [acts[0], acts[1]]), logID);
    Ended(RunFrom(s, [acts[0], acts[1], acts[2]]));
  }

  /** Both together leave the queue empty again, one id and one log id further. */
  lemma CycleEffect(s: Server, queueID: QueueID, tail: EventID, c: Content)
    requires Sound(s) && Idle(s, queueID, tail) && 0 <= tail < MAX_ID
    requires s.nextLog !in s.rows && s.nextLog != 0
    ensures RunFrom(s, PushSteps(queueID, c) + ConfirmSteps(queueID, tail + 1, s.nextLog))
            == s.(queues := s.queues[queueID := Emptied(tail + 1)], nextLog := s.nextLog + 1)
  {
    hide Sound, Apply, Emptied, Alone, RunFrom, PushSteps, ConfirmSteps;
    PushedOnce(s, queueID, tail, c);
    RunFromJoin(s, PushSteps(queueID, c), ConfirmSteps(queueID, tail + 1, s.nextLog));
    var mid := RunFrom(s, PushSteps(queueID, c));
    ConfirmedOnce(mid, queueID, tail + 1, c, s.nextLog);
    assert mid.queues[queueID := Emptied(tail + 1)] == s.queues[queueID := Emptied(tail + 1)];
    assert mid.rows - {s.nextLog} == s.rows;
  }

  // ---------- ids given out again ----------

  function Cycles(queueID: QueueID, n: nat, firstLog: LogID, c: Content): seq<Action> {
    if n == 0 then []
    else Cycles(queueID, n - 1, firstLog, c) + (PushSteps(queueID, c) + ConfirmSteps(queueID, n, firstLog + n - 1))
  }

  /** After n cycles the queue gives out n + 1, whatever rows were there. */
  lemma {:induction false} CyclesEffect(s: Server, queueID: QueueID, n: nat, c: Content)
    requires Sound(s) && Idle(s, queueID, 0) && n <= MAX_ID
    requires s.nextLog > 0 && forall l :: l in s.rows ==> l < s.nextLog
    ensures var s' := RunFrom(s, Cycles(queueID, n, s.nextLog, c));
            Idle(s', queueID, n) && s'.rows == s.rows && s'.nextLog == s.nextLog + n
  {
    hide Sound, Apply, PushSteps, ConfirmSteps, RunFrom;
    if n == 0 {
      RunNothing(s);
    } else {
      CyclesEffect(s, queueID, n - 1, c);
      var mid := RunFrom(s, Cycles(queueID, n - 1, s.nextLog, c));
      RunFromJoin(s, Cycles(queueID, n - 1, s.nextLog, c),
                  PushSteps(queueID, c) + ConfirmSteps(queueID, n, s.nextLog + n - 1));
      CycleEffect(mid, queueID, n - 1, c);
    }
  }

  predicate ZeroHint(a: Action) { a.AssignID? ==> a.hint == 0 }

  ghost predicate ZeroHints(acts: seq<Action>) { forall i :: 0 <= i < |acts| ==> ZeroHint(acts[i]) }

  lemma {:induction false} CyclesZeroHints(queueID: QueueID, n: nat, firstLog: LogID, c: Content)
    ensures ZeroHints(Cycles(queueID, n, firstLog, c))
  {
    if n > 0 { CyclesZeroHints(queueID, n - 1, firstLog, c); }
  }

  /** Pushes and confirmations below the id of a surviving row, and one push more. */
  function UpToRow(row: Row, firstLog: LogID, c: Content): seq<Action>
    requires row.id > 0
  {
    Cycles(row.queueID, row.id - 1, firstLog, c) + PushSteps(row.queueID, c)
  }

  lemma UpToRowZeroHints(row: Row, firstLog: LogID, c: Content)
    requires row.id > 0
    ensures ZeroHints(UpToRow(row, firstLog, c))
  {
    CyclesZeroHints(row.queueID, row.id - 1, firstLog, c);
  }

  /** From empty queues such a run stores a second row under the same key. */
  lemma KeyRepeats(s: Server, l: LogID, c: Content)
    requires Sound(s) && s.queues == map[] && s.threads == map[] && l in s.rows
    requires s.nextLog > 0 && forall k :: k in s.rows ==> k < s.nextLog
    ensures !RowsUnique(RunFrom(s, UpToRow(s.rows[l], s.nextLog, c)).rows)
  {
    hide Apply, ValidQueues, RunFrom, Cycles, PushSteps, Alone;
    var row := s.rows[l];
    var n := row.id - 1;
    CyclesEffect(s, row.queueID, n, c);
    var mid := RunFrom(s, Cycles(row.queueID, n, s.nextLog, c));
    RunFromJoin(s, Cycles(row.queueID, n, s.nextLog, c), PushSteps(row.queueID, c));
    PushedOnce(mid, row.queueID, n, c);
    var rows := RunFrom(s, UpToRow(row, s.nextLog, c)).rows;
    assert l in rows && mid.nextLog in rows && l != mid.nextLog;
  }

  // ---------- the exact condition ----------

  lemma UnreadSound(s: Server)
    requires Safe(s)
    ensures Sound(CrashUnread(s))
    ensures RowIdsValid(s.rows) && s.nextLog > 0 && forall l :: l in s.rows ==> l < s.nextLog
  {
    forall l | l in s.rows ensures 0 < s.rows[l].id <= MAX_ID {
      assert RowInRange(s, s.rows[l]) && ValidQueue(s.queues[s.rows[l].queueID]);
    }
  }

  lemma UnreadSafe(s: Server)
    requires Safe(s)
    ensures Safe(CrashUnread(s)) <==> s.rows == map[]
  {
    if s.rows == map[] {
      assert SortedIds(s.rows.Keys) == [];
      StepSafe(s, Crash);
    } else {
      var l := Min(s.rows.Keys);
      assert !RowInRange(CrashUnread(s), s.rows[l]);
    }
  }

  /** Starting without reading the rows is harmless exactly when there were none: then the
      server is as safe as ever, and otherwise a run of ordinary pushes, whose hints are 0
      as the server's always are, stores two rows under one key. */
  lemma UnreadStart(s: Server)
    requires Safe(s)
    ensures Sound(CrashUnread(s))
    ensures Safe(CrashUnread(s)) <==> s.rows == map[]
    ensures (forall acts :: ZeroHints(acts) ==> RowsUnique(RunFrom(CrashUnread(s), acts).rows)) <==> s.rows == map[]
  {
    hide Safe, Sound, RunFrom, RowsUnique, ZeroHints;
    UnreadSound(s);
    UnreadSafe(s);
    var s' := CrashUnread(s);
    if s.rows == map[] {
      forall acts | ZeroHints(acts) ensures RowsUnique(RunFrom(s', acts).rows) {
        RunFromSafe(s', acts);
        SafeRowsUnique(RunFrom(s', acts));
      }
    } else {
      var l := Min(s.rows.Keys);
      UpToRowZeroHints(s.rows[l], s.nextLog, s.rows[l].content);
      KeyRepeats(s', l, s.rows[l].content);
    }
  }

  lemma SafeRowsUnique(s: Server)
    requires Safe(s)
    ensures RowsUnique(s.rows)
  {
  }
}
