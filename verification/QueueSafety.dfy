/** What every step of QueueProtocol keeps, and what follows for whole runs. */
module QueueSafety {
  import opened Bytes
  import opened QueueSpec
  import opened QueueProtocol

  // ---------- ids ----------

  predicate InFlight(p: Phase) { p.Persisting? || p.Recording? }

  predicate SameKey(a: Phase, b: Phase)
    requires InFlight(a) && InFlight(b)
  {
    a.queueID == b.queueID && a.id == b.id
  }

  predicate RowOf(row: Row, p: Phase)
    requires InFlight(p)
  {
    row.queueID == p.queueID && row.id == p.id
  }

  /** The queue a thread is working on exists. */
  predicate KnownQueues(s: Server, p: Phase) {
    match p
    case Pushing(q) => q in s.queues
    case Removing(q, _) => q in s.queues
    case Persisting(q, _, _, _, _) => q in s.queues
    case Recording(q, _, _, _, _) => q in s.queues
    case Collecting(todo, _, _) => todo <= s.queues.Keys
    case Popping(_) => true
  }

  /** A push between its two locked sections: if its event is still there, it is the very
      record the push stored, with no log id yet. */
  predicate OwnRecord(s: Server, p: Phase)
    requires InFlight(p) && p.queueID in s.queues
  {
    var q := s.queues[p.queueID];
    && 0 < p.id <= q.tail
    && (p.id in q.events ==> q.events[p.id] == Event(p.content, p.obj, 0))
  }

  predicate RowInRange(s: Server, row: Row) {
    row.queueID in s.queues && 0 < row.id <= s.queues[row.queueID].tail
  }

  ghost predicate RowsUnique(rows: map<LogID, Row>) {
    forall l, k :: l in rows && k in rows && rows[l].queueID == rows[k].queueID && rows[l].id == rows[k].id ==> l == k
  }

  ghost predicate ThreadsOk(s: Server) {
    && (forall t :: t in s.threads ==> KnownQueues(s, s.threads[t]))
    && (forall t :: t in s.threads && InFlight(s.threads[t]) ==> OwnRecord(s, s.threads[t]))
    && (forall t, u ::
          (t in s.threads && u in s.threads && InFlight(s.threads[t]) && InFlight(s.threads[u])
           && SameKey(s.threads[t], s.threads[u]))
          ==> t == u)
  }

  ghost predicate RowsOk(s: Server) {
    && (forall l :: l in s.rows ==> 0 < l < s.nextLog && RowInRange(s, s.rows[l]))
    && RowsUnique(s.rows)
    && (forall t, l :: t in s.threads && s.threads[t].Persisting? && l in s.rows ==> !RowOf(s.rows[l], s.threads[t]))
  }

  ghost predicate Ids(s: Server) {
    s.nextLog > 0 && ValidQueues(s) && ThreadsOk(s) && RowsOk(s)
  }

  lemma IdsBeginPush(s: Server, t: Thread, q: QueueID)
    requires Ids(s)
    ensures Ids(Apply(s, BeginPush(t, q)))
  {
  }

  /** Adding one event above the tail of a queue, for a push that is now in flight. */
  lemma IdsNewEvent(s: Server, t: Thread, q': QState<nat>, p: Phase, s': Server)
    requires Ids(s) && p.Persisting? && p.queueID in s.queues && ValidQueue(q')
    requires s.queues[p.queueID].tail < p.id == q'.tail
    requires p.id in q'.events ==> q'.events[p.id] == Event(p.content, p.obj, 0)
    requires forall e :: e in q'.events && e != p.id ==>
               e in s.queues[p.queueID].events && q'.events[e] == s.queues[p.queueID].events[e]
    requires s' == s.(queues := s.queues[p.queueID := q'], threads := s.threads[t := p])
    ensures Ids(s')
  {
    forall u | u in s'.threads && InFlight(s'.threads[u]) ensures OwnRecord(s', s'.threads[u]) {
      if u != t { assert OwnRecord(s, s.threads[u]); }
    }
    forall l | l in s'.rows ensures RowInRange(s', s'.rows[l]) && !RowOf(s'.rows[l], p) {
      assert RowInRange(s, s.rows[l]);
    }
  }

  lemma IdsAssign(s: Server, t: Thread, hint: EventID, built: Option<Content>, obj: nat)
    requires Ids(s) && Enabled(s, AssignID(t, hint, built, obj))
    ensures Ids(Apply(s, AssignID(t, hint, built, obj)))
  {
    var queueID := s.threads[t].queueID;
    var q := s.queues[queueID];
    var id := NextID(hint, q.tail);
    if id.Some? && built.Some? {
      NextIDMonotonic(hint, q.tail);
      AssignValid(q, id.value, built.value, obj);
      IdsNewEvent(s, t, Assign(q, id.value, built.value, obj),
                  Persisting(queueID, id.value, built.value, obj, AssignPops(q, id.value, built.value, obj)),
                  DoAssign(s, t, hint, built, obj));
    }
  }

  lemma IdsInsert(s: Server, t: Thread, stored: bool)
    requires Ids(s)
    ensures Ids(Apply(s, Insert(t, stored)))
  {
  }

  /** A queue changes an event of a push in flight, which ends with that. */
  lemma IdsRecorded(s: Server, t: Thread, logID: LogID)
    requires Ids(s) && t in s.threads && InFlight(s.threads[t])
             && s.threads[t].id in s.queues[s.threads[t].queueID].events
    ensures var p := s.threads[t];
            Ids(s.(queues := s.queues[p.queueID := Record(s.queues[p.queueID], p.id, p.obj, logID)],
                  threads := s.threads - {t}))
  {
    var p := s.threads[t];
    var q := s.queues[p.queueID];
    var q' := Record(q, p.id, p.obj, logID);
    assert q'.events.Keys == q.events.Keys;
    var s' := s.(queues := s.queues[p.queueID := q'], threads := s.threads - {t});
    hide RowsUnique;
    forall u | u in s'.threads && InFlight(s'.threads[u]) ensures OwnRecord(s', s'.threads[u]) {
      assert OwnRecord(s, s.threads[u]) && u != t;
    }
    forall l | l in s'.rows ensures RowInRange(s', s'.rows[l]) { assert RowInRange(s, s.rows[l]); }
  }

  lemma IdsRecord(s: Server, t: Thread, popped: bool)
    requires Ids(s) && Enabled(s, RecordOrUndo(t, popped))
    ensures Ids(Apply(s, RecordOrUndo(t, popped)))
  {
    var p := s.threads[t];
    assert OwnRecord(s, p);
    if StillThere(s.queues[p.queueID], p.id, p.obj) {
      IdsRecorded(s, t, p.logID);
    } else {
      IdsThread(s, t, p);
      IdsFewerRows(s.(threads := s.threads - {t}), DeleteRow(s.(threads := s.threads - {t}), p.logID, popped));
    }
  }

  /** A thread that is not pushing drops events from a queue. */
  lemma IdsDrop(s: Server, t: Thread, queueID: QueueID, gone: set<EventID>, p: Phase)
    requires Ids(s) && queueID in s.queues && !InFlight(p) && KnownQueues(s, p)
    ensures Ids(s.(queues := s.queues[queueID := Drop(s.queues[queueID], gone)], threads := s.threads[t := p]))
  {
    DropValid(s.queues[queueID], gone);
    var s' := s.(queues := s.queues[queueID := Drop(s.queues[queueID], gone)], threads := s.threads[t := p]);
    forall u | u in s'.threads && InFlight(s'.threads[u]) ensures OwnRecord(s', s'.threads[u]) {
      assert OwnRecord(s, s.threads[u]);
    }
    forall l | l in s'.rows ensures RowInRange(s', s'.rows[l]) {
      assert RowInRange(s, s.rows[l]);
    }
  }

  lemma IdsRemoveLocked(s: Server, t: Thread)
    requires Ids(s) && Enabled(s, RemoveLocked(t))
    ensures Ids(Apply(s, RemoveLocked(t)))
  {
    var p := s.threads[t];
    var gone := Gone(s.queues[p.queueID], p.removal);
    IdsDrop(s, t, p.queueID, gone, Popping(Pops(s.queues[p.queueID], gone)));
  }

  lemma IdsCollect(s: Server, t: Thread, q: QueueID)
    requires Ids(s) && Enabled(s, CollectQueue(t, q))
    ensures Ids(Apply(s, CollectQueue(t, q)))
  {
    var p := s.threads[t];
    var gone := GoneExpired(s.queues[q], p.now);
    IdsDrop(s, t, q, gone, Collecting(p.todo - {q}, p.now, p.pops + Pops(s.queues[q], gone)));
  }

  /** A thread that is not pushing moves on, or any thread ends. */
  lemma IdsThread(s: Server, t: Thread, p: Phase)
    requires Ids(s)
    ensures !InFlight(p) && KnownQueues(s, p) ==> Ids(s.(threads := s.threads[t := p]))
    ensures Ids(s.(threads := s.threads - {t}))
  {
  }

  lemma IdsFewerRows(s: Server, s': Server)
    requires Ids(s) && s'.rows.Keys <= s.rows.Keys && (forall l :: l in s'.rows ==> s'.rows[l] == s.rows[l])
    requires s'.queues == s.queues && s'.threads == s.threads && s'.nextLog == s.nextLog
    ensures Ids(s')
  {
    forall u | u in s'.threads && InFlight(s'.threads[u]) ensures OwnRecord(s', s'.threads[u]) {
      assert OwnRecord(s, s.threads[u]);
    }
  }

  /** A thread forgets some of its pending pops. */
  lemma IdsFewerPops(s: Server, t: Thread, pops: set<LogID>)
    requires Ids(s) && t in s.threads && (s.threads[t].Persisting? || s.threads[t].Popping?)
    ensures Ids(s.(threads := s.threads[t := WithPops(s.threads[t], pops)]))
  {
    var s' := s.(threads := s.threads[t := WithPops(s.threads[t], pops)]);
    forall u | u in s'.threads && InFlight(s'.threads[u]) ensures OwnRecord(s', s'.threads[u]) {
      assert OwnRecord(s, s.threads[u]);
    }
    forall u, l | u in s'.threads && s'.threads[u].Persisting? && l in s'.rows
      ensures !RowOf(s'.rows[l], s'.threads[u])
    {
      assert !RowOf(s.rows[l], s.threads[u]);
    }
  }

  lemma IdsPop(s: Server, t: Thread, logID: LogID, popped: bool)
    requires Ids(s) && Enabled(s, PopRow(t, logID, popped))
    ensures Ids(Apply(s, PopRow(t, logID, popped)))
  {
    IdsFewerRows(s, DeleteRow(s, logID, popped));
    IdsFewerPops(DeleteRow(s, logID, popped), t, s.threads[t].pops - {logID});
  }

  // ---------- restart ----------

  predicate Restored(queues: map<QueueID, QState<nat>>, l: LogID, row: Row) {
    && row.queueID in queues && row.id in queues[row.queueID].events
    && queues[row.queueID].events[row.id] == Event(row.content, 0, l)
  }

  ghost predicate OnlyLoaded(rows: map<LogID, Row>, loaded: set<LogID>, q: QueueID, state: QState<nat>) {
    && ValidQueue(state) && state.tail in state.events
    && (forall id :: id in state.events ==>
          state.events[id].logID in loaded && state.events[id].logID in rows
          && rows[state.events[id].logID] == Row(q, id, state.events[id].content))
  }

  /** queues holds exactly the loaded rows, each once, with valid heads and with every
      tail at the largest loaded id. */
  ghost predicate IsReplay(rows: map<LogID, Row>, loaded: set<LogID>, queues: map<QueueID, QState<nat>>) {
    && loaded <= rows.Keys
    && (forall l :: l in loaded ==> Restored(queues, l, rows[l]))
    && (forall q :: q in queues ==> OnlyLoaded(rows, loaded, q, queues[q]))
  }

  ghost predicate RowIdsValid(rows: map<LogID, Row>) { forall l :: l in rows ==> 0 < rows[l].id <= MAX_ID }

  ghost predicate Distinct(order: seq<LogID>) { forall i, j :: 0 <= i < j < |order| ==> order[i] != order[j] }

  /** The queue of the row just read. */
  lemma ReplayOneQueue(rows: map<LogID, Row>, loaded: set<LogID>, queues: map<QueueID, QState<nat>>, l: LogID)
    requires IsReplay(rows, loaded, queues) && RowsUnique(rows) && RowIdsValid(rows)
    requires l in rows && l !in loaded
    ensures var q := rows[l].queueID; OnlyLoaded(rows, loaded + {l}, q, ReplayOne(queues, l, rows[l])[q])
    ensures rows[l].queueID in queues ==> rows[l].id !in queues[rows[l].queueID].events
  {
    hide RowsUnique;
    var row := rows[l];
    var q := if row.queueID in queues then queues[row.queueID] else EmptyQueue<nat>();
    var q' := ReplayOne(queues, l, row)[row.queueID];
    assert row.queueID in queues ==> OnlyLoaded(rows, loaded, row.queueID, q);
    assert row.id !in q.events by { NotYetThere(rows, loaded, queues, l); }
    assert q'.events.Keys == q.events.Keys + {row.id};
    assert ValidQueue(q');
  }

  lemma NotYetThere(rows: map<LogID, Row>, loaded: set<LogID>, queues: map<QueueID, QState<nat>>, l: LogID)
    requires IsReplay(rows, loaded, queues) && RowsUnique(rows)
    requires l in rows && l !in loaded
    ensures rows[l].queueID in queues ==> rows[l].id !in queues[rows[l].queueID].events
  {
    var row := rows[l];
    assert row.queueID in queues ==> OnlyLoaded(rows, loaded, row.queueID, queues[row.queueID]);
  }

  lemma ReplayOneIs(rows: map<LogID, Row>, loaded: set<LogID>, queues: map<QueueID, QState<nat>>, l: LogID)
    requires IsReplay(rows, loaded, queues) && RowsUnique(rows) && RowIdsValid(rows)
    requires l in rows && l !in loaded
    ensures IsReplay(rows, loaded + {l}, ReplayOne(queues, l, rows[l]))
  {
    hide ValidQueue;
    var row := rows[l];
    var queues' := ReplayOne(queues, l, row);
    ReplayOneQueue(rows, loaded, queues, l);
    forall k | k in loaded + {l} ensures Restored(queues', k, rows[k]) {
      if k != l {
        assert Restored(queues, k, rows[k]);
        assert rows[k].queueID == row.queueID ==> rows[k].id != row.id;
      }
    }
    forall qid | qid in queues' ensures OnlyLoaded(rows, loaded + {l}, qid, queues'[qid]) {
      assert qid in queues ==> OnlyLoaded(rows, loaded, qid, queues[qid]);
    }
  }

  function Loaded(order: seq<LogID>): set<LogID> { set l | l in order }

  lemma {:induction false} ReplayIs(rows: map<LogID, Row>, order: seq<LogID>)
    requires RowsUnique(rows) && RowIdsValid(rows) && Distinct(order)
    requires forall l :: l in order ==> l in rows
    ensures IsReplay(rows, Loaded(order), Replay(rows, order))
  {
    if order != [] {
      var front, last := order[..|order| - 1], order[|order| - 1];
      assert order == front + [last];
      ReplayIs(rows, front);
      assert Loaded(order) == Loaded(front) + {last};
      assert last !in front;
      ReplayOneIs(rows, Loaded(front), Replay(rows, front), last);
    }
  }

  /** What a replay must hold leaves it no freedom. */
  lemma ReplayDetermined(rows: map<LogID, Row>, loaded: set<LogID>,
                         a: map<QueueID, QState<nat>>, b: map<QueueID, QState<nat>>)
    requires IsReplay(rows, loaded, a) && IsReplay(rows, loaded, b)
    ensures a == b
  {
    forall q | q in a ensures q in b && a[q] == b[q] {
      ReplayWithin(rows, loaded, a, b, q);
      ReplayWithin(rows, loaded, b, a, q);
      SameMap(a[q].events, b[q].events);
    }
    forall q | q in b ensures q in a { ReplayWithin(rows, loaded, b, a, q); }
  }

  lemma SameMap(a: map<EventID, Event<nat>>, b: map<EventID, Event<nat>>)
    requires forall id :: id in a ==> id in b && b[id] == a[id]
    requires forall id :: id in b ==> id in a
    ensures a == b
  {
    forall id | id in a ensures id in b { }
    forall id | id in b ensures id in a { }
    assert a.Keys == b.Keys;
    forall id | id in a ensures a[id] == b[id] { }
  }

  lemma ReplayWithin(rows: map<LogID, Row>, loaded: set<LogID>,
                     a: map<QueueID, QState<nat>>, b: map<QueueID, QState<nat>>, q: QueueID)
    requires IsReplay(rows, loaded, a) && IsReplay(rows, loaded, b) && q in a
    ensures q in b && a[q].tail <= b[q].tail
    ensures forall id :: id in a[q].events ==> id in b[q].events && b[q].events[id] == a[q].events[id]
  {
    assert OnlyLoaded(rows, loaded, q, a[q]);
    forall id | id in a[q].events ensures q in b && id in b[q].events && b[q].events[id] == a[q].events[id] {
      var e := a[q].events[id];
      assert Restored(b, e.logID, rows[e.logID]) && Restored(a, e.logID, rows[e.logID]);
    }
    assert a[q].tail in a[q].events;
    assert OnlyLoaded(rows, loaded, q, b[q]);
  }

  lemma LoadAllIs(rows: map<LogID, Row>)
    ensures Distinct(LoadAll(rows)) && Loaded(LoadAll(rows)) == rows.Keys
    ensures forall l :: l in LoadAll(rows) ==> l in rows
  {
  }

  /** Loading every row and replaying them gives back exactly the rows. */
  lemma CrashReplays(s: Server)
    requires Ids(s)
    ensures IsReplay(s.rows, s.rows.Keys, DoCrash(s).queues)
  {
    forall l | l in s.rows ensures 0 < s.rows[l].id <= MAX_ID {
      assert RowInRange(s, s.rows[l]);
      assert ValidQueue(s.queues[s.rows[l].queueID]);
    }
    LoadAllIs(s.rows);
    ReplayIs(s.rows, LoadAll(s.rows));
  }

  lemma IdsReplay(s: Server, s': Server)
    requires Ids(s) && s'.rows == s.rows && s'.nextLog == s.nextLog && s'.threads == map[]
    requires IsReplay(s.rows, s.rows.Keys, s'.queues)
    ensures Ids(s')
  {
    forall q | q in s'.queues ensures ValidQueue(s'.queues[q]) {
      assert OnlyLoaded(s.rows, s.rows.Keys, q, s'.queues[q]);
    }
    forall l | l in s'.rows ensures 0 < l < s'.nextLog && RowInRange(s', s'.rows[l]) {
      assert Restored(s'.queues, l, s.rows[l]);
      assert OnlyLoaded(s.rows, s.rows.Keys, s.rows[l].queueID, s'.queues[s.rows[l].queueID]);
    }
  }

  // ---------- who owns a log id ----------

  datatype Owner = Live(queueID: QueueID, id: EventID) | Pending(t: Thread) | Recorder(t: Thread) | Lost

  /** The row of logID is row, unless the store has collected it as expired. */
  predicate RowFits(s: Server, logID: LogID, row: Row) {
    if logID in s.rows then s.rows[logID] == row else !Unexpired(row.content, s.gcTime)
  }

  predicate OwnerOk(s: Server, logID: LogID, o: Owner) {
    match o
    case Live(q, id) =>
      q in s.queues && id in s.queues[q].events && s.queues[q].events[id].logID == logID
      && RowFits(s, logID, Row(q, id, s.queues[q].events[id].content))
    case Pending(t) => t in s.threads && logID in PendingPops(s.threads[t])
    case Recorder(t) =>
      t in s.threads && s.threads[t].Recording? && s.threads[t].logID == logID
      && RowFits(s, logID, Row(s.threads[t].queueID, s.threads[t].id, s.threads[t].content))
    case Lost => logID in s.failed
  }

  /** own names the single owner of every log id that is still in use anywhere. */
  ghost predicate Owned(s: Server, own: map<LogID, Owner>) {
    && (forall l :: l in own ==> 0 < l < s.nextLog && OwnerOk(s, l, own[l]))
    && (forall l :: l in s.rows ==> l in own)
    && (forall q, id :: q in s.queues && id in s.queues[q].events && s.queues[q].events[id].logID != 0 ==>
          s.queues[q].events[id].logID in own && own[s.queues[q].events[id].logID] == Live(q, id))
    && (forall t, l :: t in s.threads && l in PendingPops(s.threads[t]) ==> l in own && own[l] == Pending(t))
    && (forall t :: t in s.threads && s.threads[t].Recording? ==>
          s.threads[t].logID in own && own[s.threads[t].logID] == Recorder(t))
  }

  /** q' is q without some events, whose log ids are pops, and perhaps with events that
      have no log id yet. */
  ghost predicate Handover(q: QState<nat>, q': QState<nat>, pops: set<LogID>) {
    && (forall id :: id in q'.events && q'.events[id].logID != 0 ==> id in q.events && q.events[id] == q'.events[id])
    && (forall id :: id in q.events && q.events[id].logID != 0 ==>
          if id in q'.events then q'.events[id] == q.events[id] else q.events[id].logID in pops)
    && (forall l :: l in pops ==> exists id :: id in q.events && id !in q'.events && q.events[id].logID == l != 0)
  }

  lemma DropHandover(q: QState<nat>, gone: set<EventID>)
    ensures Handover(q, Drop(q, gone), Pops(q, gone))
  {
  }

  lemma StoreHandover(q: QState<nat>, id: EventID, event: Event<nat>, stored: QState<nat>,
                        q': QState<nat>, pops: set<LogID>)
    requires id !in q.events && event.logID == 0 && stored.events == q.events[id := event]
    requires Handover(stored, q', pops)
    ensures Handover(q, q', pops)
  {
    forall l | l in pops ensures exists e :: e in q.events && e !in q'.events && q.events[e].logID == l != 0 {
      var e :| e in stored.events && e !in q'.events && stored.events[e].logID == l != 0;
      assert e in q.events && e !in q'.events && q.events[e].logID == l;
    }
  }

  lemma AssignHandover(q: QState<nat>, id: EventID, content: Content, obj: nat)
    requires ValidQueue(q) && q.tail < id <= MAX_ID
    ensures Handover(q, Assign(q, id, content, obj), AssignPops(q, id, content, obj))
  {
    var stored := Store(q, id, content, obj);
    var gone := GoneTrim(stored);
    DropHandover(stored, gone);
    if |stored.events| <= MAX_QUEUE_EVENTS {
      NothingToTrim(stored);
      StoreHandover(q, id, Event(content, obj, 0), stored, stored, {});
    } else {
      StoreHandover(q, id, Event(content, obj, 0), stored, Drop(stored, gone), Pops(stored, gone));
    }
  }

  function Transfer(own: map<LogID, Owner>, pops: set<LogID>, t: Thread): map<LogID, Owner> {
    map l | l in own :: if l in pops then Pending(t) else own[l]
  }

  lemma PopsWereLive(s: Server, own: map<LogID, Owner>, queueID: QueueID, q': QState<nat>, pops: set<LogID>, l: LogID)
    requires Owned(s, own) && queueID in s.queues && Handover(s.queues[queueID], q', pops)
    requires l in pops
    ensures l in own && own[l].Live? && own[l].queueID == queueID && own[l].id !in q'.events
  {
    var q := s.queues[queueID];
    var id :| id in q.events && id !in q'.events && q.events[id].logID == l != 0;
    assert own[l] == Live(queueID, id);
  }

  lemma HandoverOwner(s: Server, own: map<LogID, Owner>, t: Thread, queueID: QueueID, q': QState<nat>,
                      pops: set<LogID>, p: Phase, l: LogID)
    requires Owned(s, own) && queueID in s.queues && t in s.threads
    requires Handover(s.queues[queueID], q', pops)
    requires !s.threads[t].Recording? && PendingPops(p) == PendingPops(s.threads[t]) + pops
    requires l in own
    ensures OwnerOk(s.(queues := s.queues[queueID := q'], threads := s.threads[t := p]), l, Transfer(own, pops, t)[l])
  {
    assert OwnerOk(s, l, own[l]);
  }

  /** A locked section hands the log ids of dropped events to its thread. */
  lemma OwnedHandover(s: Server, own: map<LogID, Owner>, t: Thread, queueID: QueueID, q': QState<nat>,
                      pops: set<LogID>, p: Phase)
    requires Owned(s, own) && queueID in s.queues && t in s.threads
    requires Handover(s.queues[queueID], q', pops)
    requires !s.threads[t].Recording? && !p.Recording?
    requires PendingPops(p) == PendingPops(s.threads[t]) + pops
    ensures Owned(s.(queues := s.queues[queueID := q'], threads := s.threads[t := p]), Transfer(own, pops, t))
  {
    var own' := Transfer(own, pops, t);
    var s' := s.(queues := s.queues[queueID := q'], threads := s.threads[t := p]);
    forall l | l in own' ensures 0 < l < s'.nextLog && OwnerOk(s', l, own'[l]) {
      HandoverOwner(s, own, t, queueID, q', pops, p, l);
    }
    forall o, id | o in s'.queues && id in s'.queues[o].events && s'.queues[o].events[id].logID != 0
      ensures s'.queues[o].events[id].logID in own' && own'[s'.queues[o].events[id].logID] == Live(o, id)
    {
      var l := s'.queues[o].events[id].logID;
      assert id in s.queues[o].events && s.queues[o].events[id] == s'.queues[o].events[id];
      if l in pops { PopsWereLive(s, own, queueID, q', pops, l); }
    }
    forall u, l | u in s'.threads && l in PendingPops(s'.threads[u]) ensures l in own' && own'[l] == Pending(u) {
      if l in pops { PopsWereLive(s, own, queueID, q', pops, l); }
      assert (u == t && l in pops) || l in PendingPops(s.threads[u]);
    }
    forall u | u in s'.threads && s'.threads[u].Recording?
      ensures s'.threads[u].logID in own' && own'[s'.threads[u].logID] == Recorder(u)
    {
      var l := s.threads[u].logID;
      if l in pops { PopsWereLive(s, own, queueID, q', pops, l); }
      assert own[l] == Recorder(u);
    }
  }

  lemma OwnedStored(s: Server, own: map<LogID, Owner>, t: Thread)
    requires Owned(s, own) && Enabled(s, Insert(t, true)) && s.nextLog > 0
    ensures Owned(DoInsert(s, t, true), own[s.nextLog := Recorder(t)])
  {
    var own' := own[s.nextLog := Recorder(t)];
    var s' := DoInsert(s, t, true);
    forall l | l in own' ensures 0 < l < s'.nextLog && OwnerOk(s', l, own'[l]) {
      if l in own { assert 0 < l < s.nextLog && OwnerOk(s, l, own[l]); }
    }
    forall u, l | u in s'.threads && l in PendingPops(s'.threads[u]) ensures l in own' && own'[l] == Pending(u) {
      assert l in PendingPops(s.threads[u]) && l in own && own[l] == Pending(u) && 0 < l < s.nextLog;
    }
  }

  lemma OwnedInsert(s: Server, own: map<LogID, Owner>, t: Thread, stored: bool) returns (own': map<LogID, Owner>)
    requires Owned(s, own) && Enabled(s, Insert(t, stored)) && s.nextLog > 0
    ensures Owned(DoInsert(s, t, stored), own')
  {
    hide Owned;
    if stored {
      OwnedStored(s, own, t);
      own' := own[s.nextLog := Recorder(t)];
    } else {
      OwnedThread(s, own, DoInsert(s, t, false), t);
      own' := own;
    }
  }

  lemma KeptOwner(s: Server, own: map<LogID, Owner>, t: Thread, l: LogID)
    requires Owned(s, own) && t in s.threads && s.threads[t].Recording? && l in own
    requires s.threads[t].queueID in s.queues && OwnRecord(s, s.threads[t])
    requires s.threads[t].id in s.queues[s.threads[t].queueID].events
    ensures var p := s.threads[t];
            OwnerOk(DoRecordOrUndo(s, t, true), l, if l == p.logID then Live(p.queueID, p.id) else own[l])
  {
    var p := s.threads[t];
    assert own[p.logID] == Recorder(t) && OwnerOk(s, p.logID, Recorder(t)) && OwnerOk(s, l, own[l]);
  }

  lemma OwnedKept(s: Server, own: map<LogID, Owner>, t: Thread)
    requires Owned(s, own) && t in s.threads && s.threads[t].Recording?
    requires s.threads[t].queueID in s.queues && OwnRecord(s, s.threads[t])
    requires s.threads[t].id in s.queues[s.threads[t].queueID].events
    ensures Owned(DoRecordOrUndo(s, t, true), own[s.threads[t].logID := Live(s.threads[t].queueID, s.threads[t].id)])
  {
    hide RowFits;
    var p := s.threads[t];
    var own' := own[p.logID := Live(p.queueID, p.id)];
    var s' := DoRecordOrUndo(s, t, true);
    assert p.logID in own && 0 < p.logID < s.nextLog;
    forall l | l in own' ensures 0 < l < s'.nextLog && OwnerOk(s', l, own'[l]) {
      assert l in own && 0 < l < s.nextLog;
      KeptOwner(s, own, t, l);
    }
  }

  lemma OwnedUndone(s: Server, own: map<LogID, Owner>, t: Thread, popped: bool)
    requires Owned(s, own) && t in s.threads && s.threads[t].Recording?
    ensures Owned(DeleteRow(s.(threads := s.threads - {t}), s.threads[t].logID, popped),
                  if popped then own - {s.threads[t].logID} else own[s.threads[t].logID := Lost])
  {
    var p := s.threads[t];
    var own' := if popped then own - {p.logID} else own[p.logID := Lost];
    var s' := DeleteRow(s.(threads := s.threads - {t}), p.logID, popped);
    forall l | l in own' ensures 0 < l < s'.nextLog && OwnerOk(s', l, own'[l]) {
      assert 0 < l < s.nextLog && OwnerOk(s, l, own[l]);
    }
  }

  lemma OwnedRecord(s: Server, own: map<LogID, Owner>, t: Thread, popped: bool) returns (own': map<LogID, Owner>)
    requires Ids(s) && Owned(s, own) && Enabled(s, RecordOrUndo(t, popped))
    ensures Owned(DoRecordOrUndo(s, t, popped), own')
  {
    var p := s.threads[t];
    assert OwnRecord(s, p);
    if StillThere(s.queues[p.queueID], p.id, p.obj) {
      OwnedKept(s, own, t);
      own' := own[p.logID := Live(p.queueID, p.id)];
    } else {
      OwnedUndone(s, own, t, popped);
      own' := if popped then own - {p.logID} else own[p.logID := Lost];
    }
  }

  lemma OwnedDeleted(s: Server, own: map<LogID, Owner>, t: Thread, logID: LogID, popped: bool, p': Phase)
    requires Owned(s, own) && t in s.threads && logID in PendingPops(s.threads[t])
    requires !s.threads[t].Recording? && !p'.Recording? && PendingPops(p') == PendingPops(s.threads[t]) - {logID}
    ensures Owned(DeleteRow(s, logID, popped).(threads := s.threads[t := p']),
                  if popped then own - {logID} else own[logID := Lost])
  {
    var own' := if popped then own - {logID} else own[logID := Lost];
    assert own[logID] == Pending(t);
    var s' := DeleteRow(s, logID, popped).(threads := s.threads[t := p']);
    forall l | l in own' ensures 0 < l < s'.nextLog && OwnerOk(s', l, own'[l]) {
      assert 0 < l < s.nextLog && OwnerOk(s, l, own[l]);
    }
    forall u, l | u in s'.threads && l in PendingPops(s'.threads[u]) ensures l in own' && own'[l] == Pending(u) {
      assert l in PendingPops(s.threads[u]) && l in own && own[l] == Pending(u) && 0 < l < s.nextLog;
    }
  }

  lemma OwnedPop(s: Server, own: map<LogID, Owner>, t: Thread, logID: LogID, popped: bool)
    returns (own': map<LogID, Owner>)
    requires Owned(s, own) && Enabled(s, PopRow(t, logID, popped)) && ValidQueues(s)
    ensures Owned(Apply(s, PopRow(t, logID, popped)), own')
  {
    hide Owned, ValidQueue;
    own' := if popped then own - {logID} else own[logID := Lost];
    var p := s.threads[t];
    OwnedDeleted(s, own, t, logID, popped, WithPops(p, p.pops - {logID}));
  }

  /** A thread that owns nothing begins, ends or changes phase without touching pops. */
  lemma OwnedThread(s: Server, own: map<LogID, Owner>, s': Server, t: Thread)
    requires Owned(s, own)
    requires s'.rows == s.rows && s'.nextLog == s.nextLog && s'.failed == s.failed && s'.gcTime == s.gcTime
    requires forall q, id :: q in s'.queues && id in s'.queues[q].events ==>
               q in s.queues && id in s.queues[q].events && s'.queues[q].events[id] == s.queues[q].events[id]
    requires forall q, id :: q in s.queues && id in s.queues[q].events ==> q in s'.queues && id in s'.queues[q].events
    requires forall u :: u != t ==> (u in s'.threads <==> u in s.threads)
    requires forall u :: u != t && u in s.threads && u in s'.threads ==> s'.threads[u] == s.threads[u]
    requires t in s.threads ==> !s.threads[t].Recording?
    requires t in s'.threads ==> !s'.threads[t].Recording?
    requires (if t in s.threads then PendingPops(s.threads[t]) else {})
          == (if t in s'.threads then PendingPops(s'.threads[t]) else {})
    ensures Owned(s', own)
  {
    forall l | l in own ensures OwnerOk(s', l, own[l]) { assert OwnerOk(s, l, own[l]); }
  }

  lemma OwnedStoreGC(s: Server, own: map<LogID, Owner>, now: int)
    requires Owned(s, own)
    ensures Owned(DoStoreGC(s, now), own)
  {
    var s' := DoStoreGC(s, now);
    forall l | l in own ensures OwnerOk(s', l, own[l]) { assert OwnerOk(s, l, own[l]); }
  }

  lemma OwnedCrash(s: Server) returns (own': map<LogID, Owner>)
    requires Ids(s)
    ensures Owned(DoCrash(s), own')
  {
    CrashReplays(s);
    own' := map l | l in s.rows :: Live(s.rows[l].queueID, s.rows[l].id);
    var s' := DoCrash(s);
    forall l | l in own' ensures 0 < l < s'.nextLog && OwnerOk(s', l, own'[l]) { }
  }

  // ---------- every run ----------

  ghost predicate Safe(s: Server) { Ids(s) && exists own :: Owned(s, own) }

  lemma IdsStep(s: Server, a: Action)
    requires Ids(s)
    ensures Ids(Apply(s, a))
  {
    hide RowsOk, ThreadsOk;
    if Enabled(s, a) {
      match a
      case BeginPush(t, q) => IdsBeginPush(s, t, q);
      case AssignID(t, hint, built, obj) => IdsAssign(s, t, hint, built, obj);
      case Insert(t, stored) => IdsInsert(s, t, stored);
      case RecordOrUndo(t, popped) => IdsRecord(s, t, popped);
      case BeginRemove(t, q, r) => IdsThread(s, t, Removing(q, r));
      case RemoveLocked(t) => IdsRemoveLocked(s, t);
      case BeginGC(t, now) => IdsThread(s, t, Collecting(s.queues.Keys, now, {}));
      case CollectQueue(t, q) => IdsCollect(s, t, q);
      case EndGC(t) => IdsThread(s, t, Popping(s.threads[t].pops));
      case PopRow(t, logID, popped) => IdsPop(s, t, logID, popped);
      case EndPops(t) => IdsThread(s, t, Popping({}));
      case StoreGC(now) => IdsFewerRows(s, DoStoreGC(s, now));
      case Crash => CrashReplays(s); IdsReplay(s, DoCrash(s));
    }
  }

  lemma OwnedRemove(s: Server, own: map<LogID, Owner>, a: Action) returns (own': map<LogID, Owner>)
    requires Ids(s) && Owned(s, own) && Enabled(s, a) && (a.RemoveLocked? || a.CollectQueue?)
    ensures Owned(Apply(s, a), own')
  {
    var p := s.threads[a.t];
    var queueID := if a.RemoveLocked? then p.queueID else a.queueID;
    var q := s.queues[queueID];
    var gone := if a.RemoveLocked? then Gone(q, p.removal) else GoneExpired(q, p.now);
    DropHandover(q, gone);
    var p' := if a.RemoveLocked? then Popping(Pops(q, gone))
                 else Collecting(p.todo - {queueID}, p.now, p.pops + Pops(q, gone));
    OwnedHandover(s, own, a.t, queueID, Drop(q, gone), Pops(q, gone), p');
    own' := Transfer(own, Pops(q, gone), a.t);
  }

  lemma OwnedAssign(s: Server, own: map<LogID, Owner>, t: Thread, id: EventID, content: Content, obj: nat, p: Phase)
    returns (own': map<LogID, Owner>)
    requires Ids(s) && Owned(s, own) && t in s.threads && s.threads[t].Pushing? && s.threads[t].queueID in s.queues
    requires s.queues[s.threads[t].queueID].tail < id <= MAX_ID
    requires p == Persisting(s.threads[t].queueID, id, content, obj,
                             AssignPops(s.queues[s.threads[t].queueID], id, content, obj))
    ensures Owned(s.(queues := s.queues[p.queueID := Assign(s.queues[p.queueID], id, content, obj)],
                     threads := s.threads[t := p]), own')
  {
    var q := s.queues[p.queueID];
    AssignHandover(q, id, content, obj);
    OwnedHandover(s, own, t, p.queueID, Assign(q, id, content, obj), p.pops, p);
    own' := Transfer(own, p.pops, t);
  }

  lemma OwnedAssignStep(s: Server, own: map<LogID, Owner>, t: Thread, hint: EventID, built: Option<Content>, obj: nat)
    returns (own': map<LogID, Owner>)
    requires Ids(s) && Owned(s, own) && Enabled(s, AssignID(t, hint, built, obj))
    ensures Owned(DoAssign(s, t, hint, built, obj), own')
  {
    hide Owned;
    var queueID := s.threads[t].queueID;
    var q := s.queues[queueID];
    var id := NextID(hint, q.tail);
    if id.Some? && built.Some? {
      NextIDMonotonic(hint, q.tail);
      own' := OwnedAssign(s, own, t, id.value, built.value, obj,
                          Persisting(queueID, id.value, built.value, obj, AssignPops(q, id.value, built.value, obj)));
    } else {
      OwnedThread(s, own, s.(threads := s.threads - {t}), t);
      own' := own;
    }
  }

  lemma OwnedStep(s: Server, own: map<LogID, Owner>, a: Action) returns (own': map<LogID, Owner>)
    requires Ids(s) && Owned(s, own)
    ensures Owned(Apply(s, a), own')
  {
    hide Owned, OwnRecord, RowsOk, ThreadsOk, DoAssign, DoInsert, DoRecordOrUndo, DoCollect, DoStoreGC, DoCrash, Gone;
    assert ValidQueues(s);
    own' := own;
    if Enabled(s, a) {
      match a
      case BeginPush(t, q) => OwnedThread(s, own, Apply(s, a), t);
      case AssignID(t, hint, built, obj) => own' := OwnedAssignStep(s, own, t, hint, built, obj);
      case Insert(t, stored) => own' := OwnedInsert(s, own, t, stored);
      case RecordOrUndo(t, popped) => own' := OwnedRecord(s, own, t, popped);
      case BeginRemove(t, q, r) => OwnedThread(s, own, Apply(s, a), t);
      case RemoveLocked(t) => own' := OwnedRemove(s, own, a);
      case BeginGC(t, now) => OwnedThread(s, own, Apply(s, a), t);
      case CollectQueue(t, q) => own' := OwnedRemove(s, own, a);
      case EndGC(t) => OwnedThread(s, own, Apply(s, a), t);
      case PopRow(t, logID, popped) => own' := OwnedPop(s, own, t, logID, popped);
      case EndPops(t) => OwnedThread(s, own, Apply(s, a), t);
      case StoreGC(now) => OwnedStoreGC(s, own, now);
      case Crash => own' := OwnedCrash(s);
    }
  }

  /** Every step of every thread, every storage call, and a crash, keeps the server safe. */
  lemma StepSafe(s: Server, a: Action)
    requires Safe(s)
    ensures Safe(Apply(s, a))
  {
    var own :| Owned(s, own);
    IdsStep(s, a);
    var own' := OwnedStep(s, own, a);
  }

  /** The server after any sequence of steps. */
  ghost function Run(acts: seq<Action>): (s: Server)
    ensures Safe(s)
  {
    if acts == [] then
      assert Owned(Init(), map[]);
      Init()
    else
      var s := Run(acts[..|acts| - 1]);
      StepSafe(s, acts[|acts| - 1]);
      Apply(s, acts[|acts| - 1])
  }

  // ---------- what it means ----------

  /** No expiry, or one that is not before the time. */
  predicate NotPast(expiresAt: int, time: int) { expiresAt == 0 || time <= expiresAt }

  ghost predicate HeldByEvent(s: Server, l: LogID, row: Row) {
    && row.queueID in s.queues && row.id in s.queues[row.queueID].events
    && s.queues[row.queueID].events[row.id].logID == l
    && s.queues[row.queueID].events[row.id].content == row.content
  }

  ghost predicate PendingPop(s: Server, l: LogID) {
    exists t :: t in s.threads && l in PendingPops(s.threads[t])
  }

  ghost predicate BeingRecorded(s: Server, l: LogID, row: Row) {
    exists t :: t in s.threads && s.threads[t].Recording? && s.threads[t].logID == l && RowOf(row, s.threads[t])
                && s.threads[t].content == row.content
  }

  /** A row is a live event's own row, or some thread is still to pop it, or its push has
      not yet passed the record-or-undo step, or its pop failed. */
  ghost predicate Accounted(s: Server, l: LogID, row: Row) {
    HeldByEvent(s, l, row) || PendingPop(s, l) || BeingRecorded(s, l, row) || l in s.failed
  }

  ghost predicate NoOrphan(s: Server) { forall l :: l in s.rows ==> Accounted(s, l, s.rows[l]) }

  /** A live event with a log id has its own row, unless it has expired. */
  ghost predicate NoLoss(s: Server) {
    forall l, row :: HeldByEvent(s, l, row) && l != 0 && NotPast(row.content.expiresAt, s.gcTime) ==>
      l in s.rows && s.rows[l] == row
  }

  /** A pop still to come never deletes the row of a live event or of a push in flight,
      and no two threads hold the same one. */
  ghost predicate LatePopsHarmless(s: Server) {
    forall t, l :: t in s.threads && l in PendingPops(s.threads[t]) ==>
      && (forall row :: !HeldByEvent(s, l, row) && !BeingRecorded(s, l, row))
      && (forall u :: u in s.threads && l in PendingPops(s.threads[u]) ==> u == t)
  }

  /** Restarting from here brings back, unchanged, every event with a log id that has not
      expired, and nothing but rows accounted for above. */
  ghost predicate RestartRestores(s: Server) {
    && (forall l, row :: HeldByEvent(s, l, row) && l != 0 && NotPast(row.content.expiresAt, s.gcTime) ==>
          HeldByEvent(DoCrash(s), l, row))
    && (forall l, row :: HeldByEvent(DoCrash(s), l, row) ==> l in s.rows && s.rows[l] == row && Accounted(s, l, row))
  }

  lemma SafeMeansNoOrphan(s: Server)
    requires Safe(s)
    ensures NoOrphan(s) && NoLoss(s)
  {
    var own :| Owned(s, own);
    forall l | l in s.rows ensures Accounted(s, l, s.rows[l]) {
      assert OwnerOk(s, l, own[l]);
    }
    forall l, row | HeldByEvent(s, l, row) && l != 0 && Unexpired(row.content, s.gcTime)
      ensures l in s.rows && s.rows[l] == row
    {
      assert own[l] == Live(row.queueID, row.id) && OwnerOk(s, l, own[l]);
    }
  }

  lemma SafeMeansLatePopsHarmless(s: Server)
    requires Safe(s)
    ensures LatePopsHarmless(s)
  {
    var own :| Owned(s, own);
    forall t, l | t in s.threads && l in PendingPops(s.threads[t])
      ensures forall row :: !HeldByEvent(s, l, row) && !BeingRecorded(s, l, row)
      ensures forall u :: u in s.threads && l in PendingPops(s.threads[u]) ==> u == t
    {
      assert own[l] == Pending(t) && l > 0;
    }
  }

  lemma SafeMeansRestartRestores(s: Server)
    requires Safe(s)
    ensures RestartRestores(s)
  {
    SafeMeansNoOrphan(s);
    CrashReplays(s);
    var s' := DoCrash(s);
    forall l, row | HeldByEvent(s, l, row) && l != 0 && Unexpired(row.content, s.gcTime)
      ensures HeldByEvent(s', l, row)
    {
      assert Restored(s'.queues, l, row);
    }
    forall l, row | HeldByEvent(s', l, row) ensures l in s.rows && s.rows[l] == row {
      assert OnlyLoaded(s.rows, s.rows.Keys, row.queueID, s'.queues[row.queueID]);
    }
  }

  /** The main result, over every interleaving and any number of crashes: no orphan and
      no loss, late pops are harmless, no two rows share a queue id and an event id, and
      a restart restores what it should and no more. */
  lemma EveryRun(acts: seq<Action>)
    ensures NoOrphan(Run(acts)) && NoLoss(Run(acts)) && LatePopsHarmless(Run(acts))
    ensures RowsUnique(Run(acts).rows) && RestartRestores(Run(acts))
  {
    SafeMeansNoOrphan(Run(acts));
    SafeMeansLatePopsHarmless(Run(acts));
    SafeMeansRestartRestores(Run(acts));
  }

  /** Once every call has finished and if no pop failed, the rows are exactly the live
      events with a log id, except those the store has collected as expired. */
  lemma QuiescentAgreement(s: Server, l: LogID, row: Row)
    requires Safe(s) && s.threads == map[] && s.failed == {} && l != 0
    ensures l in s.rows && s.rows[l] == row ==> HeldByEvent(s, l, row)
    ensures NotPast(row.content.expiresAt, s.gcTime) ==> (l in s.rows && s.rows[l] == row <==> HeldByEvent(s, l, row))
  {
    SafeMeansNoOrphan(s);
  }

  /** The order in which rows are read back does not matter. */
  lemma ReplayOrderIrrelevant(s: Server, order: seq<LogID>)
    requires Safe(s)
    requires Distinct(order) && Loaded(order) == s.rows.Keys
    requires forall l :: l in order ==> l in s.rows
    ensures Replay(s.rows, order) == DoCrash(s).queues
  {
    forall l | l in s.rows ensures 0 < s.rows[l].id <= MAX_ID {
      assert RowInRange(s, s.rows[l]) && ValidQueue(s.queues[s.rows[l].queueID]);
    }
    ReplayIs(s.rows, order);
    CrashReplays(s);
    ReplayDetermined(s.rows, s.rows.Keys, Replay(s.rows, order), DoCrash(s).queues);
  }

  /** Ids start again above the largest surviving row, so the id of the last push is kept
      from being given out twice exactly when its own row survives the crash. */
  lemma RestartTail(s: Server, q: QueueID)
    requires Safe(s)
    requires q in s.queues
    ensures (q in DoCrash(s).queues && DoCrash(s).queues[q].tail == s.queues[q].tail)
            <==> exists l :: l in s.rows && s.rows[l].queueID == q
                             && s.rows[l].id == s.queues[q].tail
    ensures q in DoCrash(s).queues ==> DoCrash(s).queues[q].tail <= s.queues[q].tail
  {
    CrashReplays(s);
    var s' := DoCrash(s);
    if q in s'.queues {
      assert OnlyLoaded(s.rows, s.rows.Keys, q, s'.queues[q]);
      var e := s'.queues[q].events[s'.queues[q].tail];
      assert RowInRange(s, s.rows[e.logID]);
    }
    if l :| l in s.rows && s.rows[l].queueID == q && s.rows[l].id == s.queues[q].tail {
      assert Restored(s'.queues, l, s.rows[l]);
    }
  }
}
