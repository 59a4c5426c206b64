/** The durable update queue as a protocol: every critical section of
    internal/tqueue/tqueue.go and every storage call of internal/storage/tqueue.go is
    one step, in any order, by any number of threads, with crashes in between.

    A step is an Action; Apply is what it does, and does nothing where it is not
    enabled. A run is a sequence of actions from the empty server. */
module QueueProtocol {
  import opened Bytes
  import opened QueueSpec

  type QueueID = int
  type Thread = nat
  type LogID = int

  datatype Row = Row(queueID: QueueID, id: EventID, content: Content)

  datatype Removal = RemoveOne(one: EventID) | RemoveUpTo(upto: EventID) | RemoveAllBut(keepCount: nat)

  // Where a call is between two of its steps. pops are the log ids it still has to
  // delete from storage.
  datatype Phase =
    | Pushing(queueID: QueueID)
    | Persisting(queueID: QueueID, id: EventID, content: Content, obj: nat, pops: set<LogID>)
    | Recording(queueID: QueueID, id: EventID, content: Content, obj: nat, logID: LogID)
    | Removing(queueID: QueueID, removal: Removal)
    | Collecting(todo: set<QueueID>, now: int, pops: set<LogID>)
    | Popping(pops: set<LogID>)

  // failed holds the log ids whose Pop returned an error, which the source ignores;
  // gcTime is the latest time the store has been collected at.
  datatype Server = Server(
    queues: map<QueueID, QState<nat>>,
    threads: map<Thread, Phase>,
    rows: map<LogID, Row>,
    nextLog: LogID,
    failed: set<LogID>,
    gcTime: int)

  datatype Action =
    | BeginPush(t: Thread, queueID: QueueID)
    | AssignID(t: Thread, hint: EventID, built: Option<Content>, obj: nat)
    | Insert(t: Thread, stored: bool)
    | RecordOrUndo(t: Thread, popped: bool)
    | BeginRemove(t: Thread, queueID: QueueID, removal: Removal)
    | RemoveLocked(t: Thread)
    | BeginGC(t: Thread, now: int)
    | CollectQueue(t: Thread, queueID: QueueID)
    | EndGC(t: Thread)
    | PopRow(t: Thread, logID: LogID, popped: bool)
    | EndPops(t: Thread)
    | StoreGC(now: int)
    | Crash

  function Init(): Server { Server(map[], map[], map[], 1, {}, 0) }

  function PendingPops(p: Phase): set<LogID> {
    if p.Persisting? || p.Collecting? || p.Popping? then p.pops else {}
  }

  function WithPops(p: Phase, pops: set<LogID>): Phase
    requires p.Persisting? || p.Collecting? || p.Popping?
  {
    match p
    case Persisting(_, _, _, _, _) => p.(pops := pops)
    case Collecting(_, _, _) => p.(pops := pops)
    case Popping(_) => Popping(pops)
  }

  ghost function Gone(q: QState<nat>, r: Removal): set<EventID> {
    match r
    case RemoveOne(id) => GoneOne(q, id)
    case RemoveUpTo(upto) => GoneUpTo(q, upto)
    case RemoveAllBut(keepCount) => GoneClear(q, keepCount)
  }

  predicate Enabled(s: Server, a: Action) {
    match a
    case BeginPush(t, _) => t !in s.threads
    case AssignID(t, hint, _, _) =>
      t in s.threads && s.threads[t].Pushing? && s.threads[t].queueID in s.queues && -0x8000_0000 <= hint < MAX_INT32
    case Insert(t, _) => t in s.threads && s.threads[t].Persisting? && s.threads[t].pops == {}
    case RecordOrUndo(t, _) => t in s.threads && s.threads[t].Recording? && s.threads[t].queueID in s.queues
    case BeginRemove(t, _, _) => t !in s.threads
    case RemoveLocked(t) => t in s.threads && s.threads[t].Removing? && s.threads[t].queueID in s.queues
    case BeginGC(t, _) => t !in s.threads
    case CollectQueue(t, q) => t in s.threads && s.threads[t].Collecting? && q in s.threads[t].todo && q in s.queues
    case EndGC(t) => t in s.threads && s.threads[t].Collecting? && s.threads[t].todo == {}
    case PopRow(t, logID, _) =>
      t in s.threads && logID in PendingPops(s.threads[t])
      && (s.threads[t].Persisting? || s.threads[t].Popping?)
    case EndPops(t) => t in s.threads && s.threads[t] == Popping({})
    case StoreGC(_) => true
    case Crash => true
  }

  /** Forget, forgetting Get and Clear: drop from the queue, leave the pops for later. */
  function RemoveFrom(s: Server, t: Thread, queueID: QueueID, gone: set<EventID>): Server
    requires queueID in s.queues
  {
    var q := s.queues[queueID];
    s.(queues := s.queues[queueID := Drop(q, gone)], threads := s.threads[t := Popping(Pops(q, gone))])
  }

  ghost function DoAssign(s: Server, t: Thread, hint: EventID, built: Option<Content>, obj: nat): Server
    requires Enabled(s, AssignID(t, hint, built, obj)) && ValidQueue(s.queues[s.threads[t].queueID])
  {
    var queueID := s.threads[t].queueID;
    var q := s.queues[queueID];
    var id := NextID(hint, q.tail);
    if id.None? || built.None? then s.(threads := s.threads - {t})
    else s.(queues := s.queues[queueID := Assign(q, id.value, built.value, obj)],
            threads := s.threads[t := Persisting(queueID, id.value, built.value, obj,
                                                 AssignPops(q, id.value, built.value, obj))])
  }

  function DoInsert(s: Server, t: Thread, stored: bool): Server
    requires Enabled(s, Insert(t, stored))
  {
    var p := s.threads[t];
    if !stored then s.(threads := s.threads - {t})
    else s.(rows := s.rows[s.nextLog := Row(p.queueID, p.id, p.content)],
            nextLog := s.nextLog + 1,
            threads := s.threads[t := Recording(p.queueID, p.id, p.content, p.obj, s.nextLog)])
  }

  function DoRecordOrUndo(s: Server, t: Thread, popped: bool): Server
    requires Enabled(s, RecordOrUndo(t, popped))
  {
    var p := s.threads[t];
    var q := s.queues[p.queueID];
    var done := s.(threads := s.threads - {t});
    if StillThere(q, p.id, p.obj)
    then done.(queues := s.queues[p.queueID := Record(q, p.id, p.obj, p.logID)])
    else DeleteRow(done, p.logID, popped)
  }

  function DeleteRow(s: Server, logID: LogID, popped: bool): Server {
    if popped then s.(rows := s.rows - {logID}) else s.(failed := s.failed + {logID})
  }

  /** One queue of RunGC; its pops wait until every queue has been scanned. */
  function DoCollect(s: Server, t: Thread, queueID: QueueID): Server
    requires Enabled(s, CollectQueue(t, queueID))
  {
    var p := s.threads[t];
    var q := s.queues[queueID];
    var gone := GoneExpired(q, p.now);
    s.(queues := s.queues[queueID := Drop(q, gone)],
       threads := s.threads[t := Collecting(p.todo - {queueID}, p.now, p.pops + Pops(q, gone))])
  }

  function KeepUnexpired(rows: map<LogID, Row>, now: int): map<LogID, Row> {
    map l | l in rows && Unexpired(rows[l].content, now) :: rows[l]
  }

  function DoStoreGC(s: Server, now: int): Server {
    s.(rows := KeepUnexpired(s.rows, now), gcTime := Max(s.gcTime, now))
  }

  // ---------- restart ----------

  /** The rows as LoadAll reads them back, ascending by log id. */
  ghost function LoadAll(rows: map<LogID, Row>): seq<LogID> { SortedIds(rows.Keys) }

  function ReplayOne(queues: map<QueueID, QState<nat>>, logID: LogID, row: Row): map<QueueID, QState<nat>> {
    var q := if row.queueID in queues then queues[row.queueID] else EmptyQueue<nat>();
    queues[row.queueID := QState(q.events[row.id := Event(row.content, 0, logID)],
                                 if q.head == 0 || row.id < q.head then row.id else q.head,
                                 if row.id > q.tail then row.id else q.tail)]
  }

  function Replay(rows: map<LogID, Row>, order: seq<LogID>): map<QueueID, QState<nat>>
    requires forall l :: l in order ==> l in rows
  {
    if order == [] then map[]
    else
      var last := order[|order| - 1];
      ReplayOne(Replay(rows, order[..|order| - 1]), last, rows[last])
  }

  ghost function DoCrash(s: Server): Server {
    s.(queues := Replay(s.rows, LoadAll(s.rows)), threads := map[], failed := {})
  }

  // ---------- steps and runs ----------

  predicate ValidQueues(s: Server) { forall q :: q in s.queues ==> ValidQueue(s.queues[q]) }

  ghost function Apply(s: Server, a: Action): Server
    requires ValidQueues(s)
  {
    if !Enabled(s, a) then s else
    match a
    case BeginPush(t, q) =>
      s.(queues := if q in s.queues then s.queues else s.queues[q := EmptyQueue<nat>()],
         threads := s.threads[t := Pushing(q)])
    case AssignID(t, hint, built, obj) => DoAssign(s, t, hint, built, obj)
    case Insert(t, stored) => DoInsert(s, t, stored)
    case RecordOrUndo(t, popped) => DoRecordOrUndo(s, t, popped)
    case BeginRemove(t, q, r) =>
      if q in s.queues then s.(threads := s.threads[t := Removing(q, r)]) else s
    case RemoveLocked(t) =>
      var p := s.threads[t];
      RemoveFrom(s, t, p.queueID, Gone(s.queues[p.queueID], p.removal))
    case BeginGC(t, now) => s.(threads := s.threads[t := Collecting(s.queues.Keys, now, {})])
    case CollectQueue(t, q) => DoCollect(s, t, q)
    case EndGC(t) => s.(threads := s.threads[t := Popping(s.threads[t].pops)])
    case PopRow(t, logID, popped) =>
      var p := s.threads[t];
      DeleteRow(s, logID, popped).(threads := s.threads[t := WithPops(p, p.pops - {logID})])
    case EndPops(t) => s.(threads := s.threads - {t})
    case StoreGC(now) => DoStoreGC(s, now)
    case Crash => DoCrash(s)
  }
}
