/** internal/storage/tqueue.go as a table of rows under log ids that are never reused,
    and the calls of internal/tqueue/tqueue.go that go through it. */
module UpdateStore {
  import opened Bytes
  import opened QueueSpec
  import opened QueueProtocol
  import opened UpdateQueue

  const BATCH_SIZE := 10000

  class TQueueStore {
    var rows: map<LogID, Row>
    var nextLog: LogID

    ghost predicate Valid()
      reads this
    {
      0 < nextLog && forall l :: l in rows ==> 0 < l < nextLog
    }

    constructor ()
      ensures Valid() && rows == map[]
    {
      rows, nextLog := map[], 1;
    }

    /** INSERT; accepted says whether the database took it, and 0 is returned if not. */
    method Push(row: Row, accepted: bool) returns (logID: LogID)
      requires Valid()
      modifies this
      ensures Valid()
      ensures if accepted then logID == old(nextLog) != 0 && rows == old(rows)[logID := row] && nextLog == logID + 1
              else logID == 0 && rows == old(rows) && nextLog == old(nextLog)
    {
      if !accepted { return 0; }
      logID := nextLog;
      rows := rows[logID := row];
      nextLog := nextLog + 1;
    }

    /** DELETE by log id. */
    method Pop(logID: LogID)
      requires Valid()
      modifies this`rows
      ensures Valid() && rows == old(rows) - {logID}
    {
      rows := rows - {logID};
    }

    /** popOutsideLock */
    method PopAll(pops: seq<LogID>)
      requires Valid()
      modifies this`rows
      ensures Valid() && rows == old(rows) - LogsOf(pops)
    {
      for i := 0 to |pops|
        invariant Valid() && rows == old(rows) - LogsOf(pops[..i])
      {
        assert LogsOf(pops[..i + 1]) == LogsOf(pops[..i]) + {pops[i]};
        Pop(pops[i]);
      }
      assert pops[..|pops|] == pops;
    }

    /** GC: DELETE the expired rows, whatever the queues in memory hold. */
    method GC(now: int) returns (deleted: nat)
      requires Valid()
      modifies this`rows
      ensures Valid() && rows == KeepUnexpired(old(rows), now) && deleted == |old(rows)| - |rows|
    {
      ghost var before := rows;
      var gone := set l | l in rows && !Unexpired(rows[l].content, now);
      deleted := |gone|;
      rows := rows - gone;
      assert rows == KeepUnexpired(before, now);
      assert before.Keys == rows.Keys + gone;
    }

    /** SELECT ... WHERE log_id > after ORDER BY log_id LIMIT limit */
    method Select(after: LogID, limit: nat) returns (ids: seq<LogID>)
      ensures ids == SelectAfter(rows, after, limit)
    {
      var found := SortKeys(RowsAbove(rows, after));
      ids := if |found| > limit then found[..limit] else found;
    }

    /** LoadAll: batches of BATCH_SIZE rows behind a moving log id read every row, once,
        in log id order. */
    method LoadAll() returns (out: seq<LogID>)
      requires Valid()
      ensures out == QueueProtocol.LoadAll(rows)
    {
      out := [];
      var after: LogID := 0;
      var n := BATCH_SIZE;
      ghost var all := QueueProtocol.LoadAll(rows);
      while n == BATCH_SIZE
        invariant |out| <= |all| && out == all[..|out|] && 0 <= n <= BATCH_SIZE
        invariant after == if out == [] then 0 else all[|out| - 1]
        invariant n < BATCH_SIZE ==> |out| == |all|
        decreases |all| - |out|, n
      {
        var batch := Select(after, BATCH_SIZE);
        SelectIsNext(rows, all, |out|, after, BATCH_SIZE, batch);
        n := |batch|;
        out := out + batch;
        if n > 0 { after := batch[n - 1]; }
      }
    }
  }

  function RowsAbove(rows: map<LogID, Row>, after: LogID): set<LogID> { set l | l in rows && l > after }

  ghost function SelectAfter(rows: map<LogID, Row>, after: LogID, limit: nat): (ids: seq<LogID>) {
    var found := SortedIds(RowsAbove(rows, after));
    if |found| > limit then found[..limit] else found
  }

  /** The part of a sorted list after its k-th element is what lies above that element. */
  lemma RestIsAbove(all: seq<LogID>, k: nat, after: LogID, x: LogID)
    requires Ascending(all) && k <= |all| && (forall i :: 0 <= i < |all| ==> 0 < all[i])
    requires after == if k == 0 then 0 else all[k - 1]
    ensures x in all[k..] <==> x in all && x > after
  {
    if x in all && x > after {
      var i :| 0 <= i < |all| && all[i] == x;
      assert i >= k;
      assert all[k..][i - k] == x;
    }
  }

  /** What a query behind the k-th row returns is the next slice of all the rows. */
  lemma SelectIsNext(rows: map<LogID, Row>, all: seq<LogID>, k: nat, after: LogID, limit: nat, batch: seq<LogID>)
    requires all == LoadAll(rows) && k <= |all| && (forall l :: l in rows ==> 0 < l)
    requires after == if k == 0 then 0 else all[k - 1]
    requires batch == SelectAfter(rows, after, limit)
    ensures |batch| == if |all| - k > limit then limit else |all| - k
    ensures all[..k] + batch == all[..k + |batch|]
    ensures |batch| > 0 ==> batch[|batch| - 1] == all[k + |batch| - 1]
  {
    RestIsSorted(rows, all, k, after);
    var rest := all[k..];
    assert SortedIds(RowsAbove(rows, after)) == rest;
  }

  lemma RestIsSorted(rows: map<LogID, Row>, all: seq<LogID>, k: nat, after: LogID)
    requires all == LoadAll(rows) && k <= |all| && (forall l :: l in rows ==> 0 < l)
    requires after == if k == 0 then 0 else all[k - 1]
    ensures SortedIds(RowsAbove(rows, after)) == all[k..]
  {
    var rest, above := all[k..], RowsAbove(rows, after);
    assert forall i :: 0 <= i < |all| ==> all[i] in all;
    forall x ensures x in rest <==> x in above { RestIsAbove(all, k, after, x); }
    AscendingSize(rest);
    assert (set x | x in rest) == above;
    SortedListUnique(rest, SortedIds(above), above);
  }

  /** Replay, row by row into the queues. */
  method ReplayLoop(rows: map<LogID, Row>, order: seq<LogID>) returns (queues: map<QueueID, QState<nat>>)
    requires forall l :: l in order ==> l in rows
    ensures queues == Replay(rows, order)
  {
    queues := map[];
    for i := 0 to |order|
      invariant queues == Replay(rows, order[..i])
    {
      assert order[i] in order && order[..i + 1][..i] == order[..i];
      queues := ReplayOne(queues, order[i], rows[order[i]]);
    }
    assert order[..|order|] == order;
  }

  /** The last step of a push, whatever has happened to the event meanwhile. */
  method RecordOrUndo(q: Queue, store: TQueueStore, re: RawEvent, logID: LogID, ghost q0: QState<RawEvent>)
    requires q.Indexed() && q.Abs() == q0 && store.Valid()
    modifies re`logID, store`rows
    ensures q.Indexed() && (ValidQueue(q0) <==> q.Valid()) && store.Valid()
    ensures q.Abs() == Record(q0, re.id, re, logID)
    ensures store.rows == if StillThere(q0, re.id, re) then old(store.rows) else old(store.rows) - {logID}
  {
    var undo := q.RecordOrUndoLocked(re, logID, q0);
    if undo { store.Pop(logID); }
  }

  /** Everything after the first locked section, while nobody else touches the queue. */
  method Persist(q: Queue, store: TQueueStore, queueID: QueueID, re: RawEvent, pops: seq<LogID>, accepted: bool,
                 ghost q0: QState<RawEvent>)
    requires q.Indexed() && q.Abs() == q0 && store.Valid()
    modifies re`logID, store
    ensures q.Indexed() && (ValidQueue(q0) <==> q.Valid()) && store.Valid()
    ensures q.Abs() == if accepted then Record(q0, re.id, re, old(store.nextLog)) else q0
    ensures store.rows == if accepted && StillThere(q0, re.id, re)
                          then (old(store.rows) - LogsOf(pops))[old(store.nextLog) := Row(queueID, re.id, re.content)]
                          else old(store.rows) - LogsOf(pops)
  {
    store.PopAll(pops);
    ghost var kept := store.rows;
    var logID := store.Push(Row(queueID, re.id, re.content), accepted);
    if logID != 0 {
      assert logID !in kept;
      RecordOrUndo(q, store, re, logID, q0);
      assert kept[logID := Row(queueID, re.id, re.content)] - {logID} == kept;
    }
  }

  /** PushWithData run without interference: both locked sections and the storage calls
      between them, in this order. */
  method PushWithData(q: Queue, store: TQueueStore, queueID: QueueID, hint: EventID,
                      build: EventID -> Option<Content>, accepted: bool, ghost q0: QState<RawEvent>)
    returns (re: Option<RawEvent>)
    requires q.Valid() && q.Abs() == q0 && store.Valid() && -0x8000_0000 <= hint <= MAX_INT32
    modifies q, store
    ensures q.Indexed() && (q.Valid() <==> re.None? || hint != MAX_INT32) && store.Valid()
    ensures re.Some? <==> NextID(hint, q0.tail).Some? && build(NextID(hint, q0.tail).value).Some?
    ensures re.None? ==> q.Abs() == q0 && store.rows == old(store.rows)
    ensures re.Some? ==> re.value.id == NextID(hint, q0.tail).value && build(re.value.id) == Some(re.value.content)
    ensures re.Some? ==> PushEffect(q0, old(store.rows), queueID, re.value.id, re.value.content, re.value,
                                    if accepted then old(store.nextLog) else 0, q.Abs(), store.rows)
  {
    var pops;
    re, pops := q.AssignLocked(hint, build, q0);
    if re.Some? { Persist(q, store, queueID, re.value, pops, accepted, q.Abs()); }
  }

  /** What one push leaves behind: the event stored under the cap, holding the log id of its
      row if there is one, and the rows of the trimmed events gone. If the cap took the event
      itself, as it does with a negative id, there is no row. */
  ghost predicate PushEffect<O>(q0: QState<O>, rows0: map<LogID, Row>, queueID: QueueID, id: EventID, content: Content,
                                obj: O, logID: LogID, q: QState<O>, rows: map<LogID, Row>) {
    var pushed := Assign(q0, id, content, obj);
    var kept := rows0 - AssignPops(q0, id, content, obj);
    && q == (if logID == 0 then pushed else Record(pushed, id, obj, logID))
    && rows == (if logID != 0 && StillThere(pushed, id, obj) then kept[logID := Row(queueID, id, content)] else kept)
  }

  /** With any other hint the event is there and the queue below its cap. */
  lemma PushKeepsEvent<O>(q0: QState<O>, rows0: map<LogID, Row>, queueID: QueueID, hint: EventID, content: Content,
                          obj: O, logID: LogID, q: QState<O>, rows: map<LogID, Row>)
    requires ValidQueue(q0) && -0x8000_0000 <= hint < MAX_INT32 && NextID(hint, q0.tail).Some?
    requires PushEffect(q0, rows0, queueID, NextID(hint, q0.tail).value, content, obj, logID, q, rows)
    ensures var id := NextID(hint, q0.tail).value;
            && id in q.events && q.events[id] == Event(content, obj, logID) && |q.events| <= MAX_QUEUE_EVENTS
            && (logID != 0 ==> logID in rows && rows[logID] == Row(queueID, id, content))
  {
    hide Assign, AssignPops;
    var id := NextID(hint, q0.tail).value;
    NextIDMonotonic(hint, q0.tail);
    AssignValid(q0, id, content, obj);
    RecordThere(Assign(q0, id, content, obj), id, content, obj, logID);
  }

  lemma RecordThere<O>(q: QState<O>, id: EventID, content: Content, obj: O, logID: LogID)
    requires id in q.events && q.events[id] == Event(content, obj, 0)
    ensures StillThere(q, id, obj) && Record(q, id, obj, logID).events == q.events[id := Event(content, obj, logID)]
    ensures |Record(q, id, obj, logID).events| == |q.events|
  {
    var recorded := Record(q, id, obj, logID);
    assert recorded.events.Keys == q.events.Keys;
    assert |recorded.events| == |recorded.events.Keys| && |q.events| == |q.events.Keys|;
  }
}
