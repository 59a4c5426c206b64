/** What the queue's operations come to in terms of ids, expiry times and counts alone:
    which events a read returns, which ones every removal takes, and which id is next. */
module QueueLaws {
  import opened Bytes
  import opened QueueSpec
  import opened QueueProtocol

  /** What a read wants of an event: above from, and without an expiry or not past it. */
  ghost predicate Wanted<O>(q: QState<O>, from: EventID, now: int, id: EventID) {
    && id in q.events && id > from
    && (q.events[id].content.expiresAt == 0 || now <= q.events[id].content.expiresAt)
  }

  ghost predicate Answers(batch: seq<Update>, id: EventID) { exists i :: 0 <= i < |batch| && batch[i].id == id }

  lemma EligibleIsWanted<O>(q: QState<O>, from: EventID, now: int, id: EventID)
    ensures id in Eligible(q, from, now) <==> Wanted(q, from, now, id)
  {
  }

  lemma BatchIds<O>(q: QState<O>, from: EventID, now: int, limit: int)
    ensures var batch, ids := Batch(q, from, now, limit), SortedIds(Eligible(q, from, now));
            && |batch| == (if limit > 0 && |ids| > limit then limit else |ids|)
            && forall i :: 0 <= i < |batch| ==>
                 ids[i] in q.events && batch[i] == Update(ids[i], q.events[ids[i]].content)
  {
    var ids := SortedIds(Eligible(q, from, now));
    assert forall i :: 0 <= i < |ids| ==> ids[i] in ids;
  }

  lemma OnlyTheCut<O>(q: QState<O>, from: EventID, now: int, limit: int, id: EventID)
    ensures var batch := Batch(q, from, now, limit);
            Wanted(q, from, now, id) && !Answers(batch, id) ==>
              limit > 0 && |batch| == limit && batch[limit - 1].id < id
  {
    hide Batch, Eligible;
    var batch, ids := Batch(q, from, now, limit), SortedIds(Eligible(q, from, now));
    BatchIds(q, from, now, limit);
    EligibleIsWanted(q, from, now, id);
    if k :| 0 <= k < |ids| && ids[k] == id {
      assert k < |batch| ==> batch[k].id == id;
    }
  }

  /** A read returns wanted events and nothing else, ascending, each with its own content;
      below what it returns nothing wanted is missing; and only a read that is cut by its
      limit, and then has exactly that many, leaves anything out. */
  lemma BatchExact<O>(q: QState<O>, from: EventID, now: int, limit: int)
    ensures var batch := Batch(q, from, now, limit);
            && (forall i :: 0 <= i < |batch| ==>
                  Wanted(q, from, now, batch[i].id) && batch[i].content == q.events[batch[i].id].content)
            && (forall i, j :: 0 <= i < j < |batch| ==> batch[i].id < batch[j].id)
            && (limit > 0 ==> |batch| <= limit)
            && (forall id :: Wanted(q, from, now, id) && !Answers(batch, id) ==>
                  limit > 0 && |batch| == limit && batch[limit - 1].id < id)
  {
    hide Batch, Eligible;
    var batch, ids := Batch(q, from, now, limit), SortedIds(Eligible(q, from, now));
    BatchIds(q, from, now, limit);
    assert forall i :: 0 <= i < |ids| ==> ids[i] in ids;
    forall i | 0 <= i < |batch| ensures Wanted(q, from, now, batch[i].id) {
      EligibleIsWanted(q, from, now, ids[i]);
    }
    forall id { OnlyTheCut(q, from, now, limit, id); }
  }

  /** Which events stay: confirming takes those up to an id, forgetting the one, collecting
      those whose expiry is past; the content of what stays is as it was. */
  lemma DropsExactly(q: QState<nat>, id: EventID, now: int, e: EventID)
    ensures e in Drop(q, Gone(q, RemoveUpTo(id))).events <==> e in q.events && e > id
    ensures e in Drop(q, Gone(q, RemoveOne(id))).events <==> e in q.events && e != id
    ensures e in Drop(q, GoneExpired(q, now)).events <==>
              e in q.events && (q.events[e].content.expiresAt == 0 || now <= q.events[e].content.expiresAt)
    ensures forall gone :: e in Drop(q, gone).events ==> Drop(q, gone).events[e] == q.events[e]
  {
  }

  /** Exactly the rows whose expiry is past are deleted by the store's own collection. */
  lemma StoreKeepsExactly(rows: map<LogID, Row>, now: int, l: LogID)
    ensures l in KeepUnexpired(rows, now) <==>
              l in rows && (rows[l].content.expiresAt == 0 || now <= rows[l].content.expiresAt)
    ensures l in KeepUnexpired(rows, now) ==> KeepUnexpired(rows, now)[l] == rows[l]
  {
  }

  /** The rows to be deleted are those of dropped events that have one. */
  lemma PopsExactly<O>(q: QState<O>, gone: set<EventID>, l: int)
    ensures l in Pops(q, gone) <==> exists id :: id in gone && id in q.events && q.events[id].logID == l != 0
  {
  }

  /** The next id is one more than the larger of hint and tail, ids start at 1, and the queue
      is full from two thousand million on. */
  lemma NextExactly(hint: EventID, tail: EventID)
    requires -0x8000_0000 <= hint < MAX_INT32 && 0 <= tail <= MAX_ID
    ensures NextID(hint, tail)
            == if hint >= 2_000_000_000 || tail >= 2_000_000_000 then None
               else Some(if hint > tail then hint + 1 else tail + 1)
  {
  }

  /** A push leaves at most a hundred thousand events: all there were and the new one, or as
      many with the oldest gone. */
  lemma CapExactly<O>(q: QState<O>, id: EventID, content: Content, obj: O)
    requires ValidQueue(q) && q.tail < id <= MAX_ID && |q.events| <= 100_000
    ensures |Assign(q, id, content, obj).events| == (if |q.events| < 100_000 then |q.events| + 1 else 100_000)
    ensures forall e, f :: (e in q.events && e !in Assign(q, id, content, obj).events
                            && f in Assign(q, id, content, obj).events) ==> e < f
  {
    hide ValidQueue, Grown, Drop, GoneOldest;
    var stored := Store(q, id, content, obj);
    StoreGrown(q, id, content, obj);
    if |stored.events| > MAX_QUEUE_EVENTS {
      var count := |stored.events| - MAX_QUEUE_EVENTS;
      OverTheCap(stored);
      GoneOldestSize(stored, count);
      DroppedFirst(stored, count);
      assert Assign(q, id, content, obj) == Drop(stored, GoneOldest(stored, count));
    }
  }

  lemma DroppedFirst<O>(q: QState<O>, count: nat)
    ensures forall e, f :: (e in q.events && e !in Drop(q, GoneOldest(q, count)).events
                            && f in Drop(q, GoneOldest(q, count)).events) ==> e < f
  {
    hide GoneOldest;
    GoneOldestFirst(q, count);
  }

  // ---------- a collection from start to end ----------

  ghost predicate Lists(order: seq<QueueID>, all: set<QueueID>) {
    && (forall i, j :: 0 <= i < j < |order| ==> order[i] != order[j])
    && (forall q :: q in order <==> q in all)
  }

  /** q without the events whose expiry is past. */
  ghost predicate Cleared(q: QState<nat>, q': QState<nat>, now: int) {
    && q'.tail == q.tail
    && (forall e :: e in q'.events <==>
          e in q.events && (q.events[e].content.expiresAt == 0 || now <= q.events[e].content.expiresAt))
    && (forall e :: e in q'.events ==> q'.events[e] == q.events[e])
  }

  /** The server after the collection t has done the first n queues of the order. */
  ghost function Collected(s: Server, t: Thread, now: int, order: seq<QueueID>, n: nat): (s': Server)
    requires ValidQueues(s) && t !in s.threads && Lists(order, s.queues.Keys) && n <= |order|
    ensures ValidQueues(s') && s'.queues.Keys == s.queues.Keys && s'.rows == s.rows
    ensures t in s'.threads && s'.threads[t].Collecting? && s'.threads[t].now == now
    ensures forall q :: q in s'.threads[t].todo <==> q in order[n..]
  {
    if n == 0 then
      assert order[0..] == order;
      Apply(s, BeginGC(t, now))
    else
      var before := Collected(s, t, now, order, n - 1);
      CollectNext(before, t, order, n - 1);
      Apply(before, CollectQueue(t, order[n - 1]))
  }

  lemma CollectNext(s: Server, t: Thread, order: seq<QueueID>, n: nat)
    requires ValidQueues(s) && t in s.threads && s.threads[t].Collecting? && n < |order|
    requires Lists(order, s.queues.Keys) && forall q :: q in s.threads[t].todo <==> q in order[n..]
    ensures var s' := Apply(s, CollectQueue(t, order[n]));
            && ValidQueues(s') && s'.queues.Keys == s.queues.Keys && s'.rows == s.rows
            && t in s'.threads && s'.threads[t].Collecting? && s'.threads[t].now == s.threads[t].now
            && forall q :: q in s'.threads[t].todo <==> q in order[n + 1..]
    ensures var s', q := Apply(s, CollectQueue(t, order[n])), order[n];
            && Cleared(s.queues[q], s'.queues[q], s.threads[t].now)
            && forall o :: o in s.queues && o != q ==> s'.queues[o] == s.queues[o]
  {
    var q := order[n];
    assert q in order && order[n..] == [q] + order[n + 1..];
    assert q in s.threads[t].todo;
    DropValid(s.queues[q], GoneExpired(s.queues[q], s.threads[t].now));
    assert q !in order[n + 1..];
  }

  lemma {:induction false} CollectedSoFar(s: Server, t: Thread, now: int, order: seq<QueueID>, n: nat, i: nat)
    requires ValidQueues(s) && t !in s.threads && Lists(order, s.queues.Keys) && n <= |order| && i < |order|
    ensures var s', q := Collected(s, t, now, order, n), order[i];
            && q in s.queues && q in s'.queues
            && if i < n then Cleared(s.queues[q], s'.queues[q], now) else s'.queues[q] == s.queues[q]
  {
    hide Cleared, Apply, ValidQueue;
    assert order[i] in order;
    if n == 0 {
      BeganCollecting(s, t, now);
    } else {
      CollectedSoFar(s, t, now, order, n - 1, i);
      CollectNext(Collected(s, t, now, order, n - 1), t, order, n - 1);
    }
  }

  lemma BeganCollecting(s: Server, t: Thread, now: int)
    requires ValidQueues(s) && t !in s.threads
    ensures Apply(s, BeginGC(t, now)).queues == s.queues
  {
  }

  /** A collection that nothing interferes with leaves no expired event in any queue, takes no
      other one, and may then end. */
  lemma WholeCollection(s: Server, t: Thread, now: int, order: seq<QueueID>)
    requires ValidQueues(s) && t !in s.threads && Lists(order, s.queues.Keys)
    ensures var s' := Collected(s, t, now, order, |order|);
            && Enabled(s', EndGC(t)) && s'.queues.Keys == s.queues.Keys
            && forall q :: q in s.queues ==> Cleared(s.queues[q], s'.queues[q], now)
  {
    hide Cleared, Apply, ValidQueue;
    var s' := Collected(s, t, now, order, |order|);
    var none := order[|order|..];
    assert none == [];
    forall q | q in s.queues ensures Cleared(s.queues[q], s'.queues[q], now) {
      var i :| 0 <= i < |order| && order[i] == q;
      CollectedSoFar(s, t, now, order, |order|, i);
    }
    forall q ensures q !in s'.threads[t].todo { assert q !in none; }
    assert s'.threads[t].todo == {};
  }
}
