/** One bot's queue as internal/tqueue/tqueue.go keeps it: a mutable map of records whose
    log ids are filled in later. Each method is one section under queue.mu, proved against
    the function on values that QueueProtocol uses for the same section. */
module UpdateQueue {
  import opened Bytes
  import opened QueueSpec

  class RawEvent {
    const id: EventID
    const content: Content
    var logID: int

    constructor (id: EventID, content: Content)
      ensures this.id == id && this.content == content && logID == 0
    {
      this.id, this.content, logID := id, content, 0;
    }
  }

  function LogsOf(pops: seq<int>): set<int> { set l | l in pops }

  /** append every key, then slices.Sort */
  method SortKeys(s: set<EventID>) returns (ids: seq<EventID>)
    ensures ids == SortedIds(s)
  {
    ids := [];
    var rest := s;
    while rest != {}
      invariant rest <= s && Ascending(ids) && |ids| + |rest| == |s|
      invariant forall x :: x in ids <==> x in s - rest
      invariant forall x, y :: x in ids && y in rest ==> x < y
      decreases rest
    {
      var m := Min(rest);
      assert forall i :: 0 <= i < |ids| ==> ids[i] in ids;
      ids := ids + [m];
      rest := rest - {m};
    }
    SortedListUnique(ids, SortedIds(s), s);
  }

  /** The ids of a map in the order a loop over it meets them, which is any order. */
  method RangeOver(s: set<EventID>) returns (ids: seq<EventID>)
    ensures forall i :: 0 <= i < |ids| ==> ids[i] in s
    ensures forall x :: x in s ==> x in ids
    ensures forall i, j :: 0 <= i < j < |ids| ==> ids[i] != ids[j]
  {
    ids := SortKeys(s);
    assert forall i :: 0 <= i < |ids| ==> ids[i] in ids;
  }

  class Queue {
    var events: map<EventID, RawEvent>
    var head: EventID
    var tail: EventID

    function Abs(): QState<RawEvent>
      reads this, events.Values
    {
      QState(map id | id in events :: Event(events[id].content, events[id], events[id].logID), head, tail)
    }

    /** What the loops below need: every record is under its own id. */
    ghost predicate Indexed()
      reads this, events.Values
    {
      forall id :: id in events ==> events[id].id == id && id != 0
    }

    ghost predicate Valid()
      reads this, events.Values
    {
      Indexed() && ValidQueue(Abs())
    }

    constructor ()
      ensures Valid() && Abs() == EmptyQueue() && events == map[]
    {
      events, head, tail := map[], 0, 0;
    }

    method RecomputeHead()
      requires Indexed()
      modifies this`head
      ensures Indexed() && head == HeadOf(events.Keys)
    {
      head := 0;
      var ids := RangeOver(events.Keys);
      for i := 0 to |ids|
        invariant if i == 0 then head == 0 else head in events && forall j :: 0 <= j < i ==> head <= ids[j]
      {
        if head == 0 || ids[i] < head { head := ids[i]; }
      }
      assert events.Keys == Abs().events.Keys;
      if |ids| == 0 {
        forall x ensures x !in events.Keys { assert x in events.Keys ==> x in ids; }
        assert events.Keys == {};
      } else {
        forall x | x in events.Keys ensures head <= x { assert x in ids; }
      }
    }

    /** events is what was left of q0 after dropping gone, whose log ids are pops. */
    ghost predicate Dropping(q0: QState<RawEvent>, gone: set<EventID>, pops: seq<int>)
      reads this, events.Values
    {
      && Indexed() && tail == q0.tail
      && Abs().events == q0.events - gone
      && gone <= q0.events.Keys
      && LogsOf(pops) == Pops(q0, gone)
    }

    lemma DroppingNothing(q0: QState<RawEvent>)
      requires Indexed() && Abs() == q0
      ensures Dropping(q0, {}, [])
    {
      assert q0.events - {} == q0.events;
    }

    /** The body of every loop that removes events. */
    method Delete(id: EventID, pops: seq<int>, ghost q0: QState<RawEvent>, ghost gone: set<EventID>)
      returns (pops': seq<int>)
      requires Dropping(q0, gone, pops) && id in events
      modifies this`events
      ensures Dropping(q0, gone + {id}, pops')
      ensures events == old(events) - {id}
    {
      var re := events[id];
      assert id in Abs().events && Abs().events[id] == q0.events[id];
      pops' := if re.logID != 0 then pops + [re.logID] else pops;
      events := events - {id};
      assert Abs().events == q0.events - gone - {id} == q0.events - (gone + {id});
      PopsAdd(q0, gone, id);
      assert LogsOf(pops') == LogsOf(pops) + (if re.logID != 0 then {re.logID} else {});
    }

    /** How every one of those loops ends. */
    method FinishDropping(ghost q0: QState<RawEvent>, ghost gone: set<EventID>, ghost pops: seq<int>)
      requires Dropping(q0, gone, pops)
      modifies this`head
      ensures Dropped(q0, gone)
    {
      RecomputeHead();
      assert events.Keys == Abs().events.Keys;
      if ValidQueue(q0) { DropValid(q0, gone); }
    }

    /** The queue is q0 without gone, and valid if q0 was. */
    ghost predicate Dropped(q0: QState<RawEvent>, gone: set<EventID>)
      reads this, events.Values
    {
      Indexed() && Abs() == Drop(q0, gone) && (ValidQueue(q0) ==> Valid())
    }

    /** forgetUpToLocked: drops the events up to upto and returns their log ids. */
    method ForgetUpToLocked(upto: EventID, ghost q0: QState<RawEvent>) returns (pops: seq<int>)
      requires Indexed() && Abs() == q0
      modifies this`events, this`head
      ensures Dropped(q0, GoneUpTo(q0, upto))
      ensures LogsOf(pops) == Pops(q0, GoneUpTo(q0, upto))
    {
      pops := [];
      ghost var gone := {};
      var ids := RangeOver(events.Keys);
      for i := 0 to |ids|
        invariant Dropping(q0, gone, pops)
        invariant forall j :: 0 <= j < i ==> (ids[j] in gone <==> ids[j] <= upto)
        invariant forall j :: i <= j < |ids| ==> ids[j] !in gone
      {
        assert ids[i] in q0.events - gone;
        if ids[i] <= upto {
          pops := Delete(ids[i], pops, q0, gone);
          gone := gone + {ids[i]};
        }
      }
      SameIds(q0.events.Keys, ids, gone, GoneUpTo(q0, upto));
      FinishDropping(q0, gone, pops);
    }

    /** The part of RunGC done for one queue: pops to do and how many events went. */
    method CollectLocked(now: int, ghost q0: QState<RawEvent>) returns (pops: seq<int>, deleted: nat)
      requires Indexed() && Abs() == q0
      modifies this`events, this`head
      ensures Dropped(q0, GoneExpired(q0, now))
      ensures LogsOf(pops) == Pops(q0, GoneExpired(q0, now)) && deleted == |GoneExpired(q0, now)|
    {
      hide Unexpired, ValidQueue, Pops, LogsOf;
      DroppingNothing(q0);
      pops, deleted := [], 0;
      ghost var gone := {};
      var ids := RangeOver(events.Keys);
      for i := 0 to |ids|
        invariant Dropping(q0, gone, pops) && deleted == |gone|
        invariant forall j :: 0 <= j < i ==> (ids[j] in gone <==> !Unexpired(q0.events[ids[j]].content, now))
        invariant forall j :: i <= j < |ids| ==> ids[j] !in gone
      {
        assert ids[i] in q0.events - gone;
        if !Unexpired(events[ids[i]].content, now) {
          pops := Delete(ids[i], pops, q0, gone);
          gone := gone + {ids[i]};
          deleted := deleted + 1;
        }
      }
      SameIds(q0.events.Keys, ids, gone, GoneExpired(q0, now));
      FinishDropping(q0, gone, pops);
    }

    /** The loop of trimOldestLocked and of Clear. */
    method DeletePrefix(ids: seq<EventID>, n: nat, ghost q0: QState<RawEvent>, ghost gone: set<EventID>)
      returns (pops: seq<int>, dropped: seq<RawEvent>)
      requires Indexed() && Abs() == q0 && n <= |ids| && gone == set x | x in ids[..n]
      requires forall i :: 0 <= i < |ids| ==> ids[i] in events
      requires forall i, j :: 0 <= i < j < |ids| ==> ids[i] != ids[j]
      modifies this`events, this`head
      ensures Dropped(q0, gone)
      ensures LogsOf(pops) == Pops(q0, gone) && AreRecords(dropped, ids[..n], q0)
    {
      pops, dropped := [], [];
      ghost var done := {};
      for i := 0 to n
        invariant Dropping(q0, done, pops)
        invariant done == set x | x in ids[..i]
        invariant AreRecords(dropped, ids[..i], q0)
      {
        assert ids[..i + 1] == ids[..i] + [ids[i]];
        assert ids[i] in q0.events - done;
        assert ids[i] in Abs().events && Abs().events[ids[i]] == q0.events[ids[i]];
        dropped := dropped + [events[ids[i]]];
        pops := Delete(ids[i], pops, q0, done);
        done := done + {ids[i]};
      }
      FinishDropping(q0, gone, pops);
    }

    /** trimOldestLocked: drops the count smallest ids. */
    method TrimOldestLocked(count: nat, ghost q0: QState<RawEvent>, ghost gone: set<EventID>) returns (pops: seq<int>)
      requires Indexed() && Abs() == q0 && gone == GoneOldest(q0, count)
      modifies this`events, this`head
      ensures Dropped(q0, gone)
      ensures LogsOf(pops) == Pops(q0, gone)
    {
      var ids := SortKeys(events.Keys);
      assert events.Keys == q0.events.Keys;
      assert forall i :: 0 <= i < |ids| ==> ids[i] in ids;
      var dropped;
      pops, dropped := DeletePrefix(ids, if count > |ids| then |ids| else count, q0, gone);
    }

    /** The locked section of Clear: all but the last keepCount events go, and are returned
        oldest first. */
    method ClearLocked(keepCount: nat, ghost q0: QState<RawEvent>, ghost gone: set<EventID>)
      returns (pops: seq<int>, dropped: seq<RawEvent>)
      requires Indexed() && Abs() == q0 && gone == GoneClear(q0, keepCount)
      modifies this`events, this`head
      ensures Dropped(q0, gone)
      ensures LogsOf(pops) == Pops(q0, gone) && AreRecords(dropped, SortedIds(gone), q0)
    {
      var ids := SortKeys(events.Keys);
      assert events.Keys == q0.events.Keys;
      assert forall i :: 0 <= i < |ids| ==> ids[i] in ids;
      var keepFrom := Max(|ids| - keepCount, 0);
      assert |q0.events| == |q0.events.Keys|;
      PrefixSorted(ids, keepFrom, gone);
      pops, dropped := DeletePrefix(ids, keepFrom, q0, gone);
    }

    /** The locked section of Forget. */
    method ForgetLocked(id: EventID, ghost q0: QState<RawEvent>) returns (logID: int)
      requires Valid() && Abs() == q0
      modifies this`events, this`head
      ensures Dropped(q0, GoneOne(q0, id))
      ensures (if logID != 0 then {logID} else {}) == Pops(q0, GoneOne(q0, id))
    {
      logID := 0;
      assert q0.events.Keys == events.Keys;
      if id in events {
        logID := events[id].logID;
        ghost var pops := Delete(id, [], q0, {});
        assert {} + {id} == GoneOne(q0, id);
        FinishDropping(q0, {id}, pops);
        PopsAdd(q0, {}, id);
      } else {
        assert GoneOne(q0, id) == {};
        assert q0.events - {} == q0.events;
        assert HeadOf(q0.events.Keys - {}) == head;
      }
    }

    method ReadEvents(ids: seq<EventID>) returns (out: seq<Update>)
      requires forall i :: 0 <= i < |ids| ==> ids[i] in events
      ensures |out| == |ids| && forall j :: 0 <= j < |ids| ==> out[j] == Update(ids[j], events[ids[j]].content)
    {
      out := [];
      for i := 0 to |ids|
        invariant |out| == i && forall j :: 0 <= j < i ==> out[j] == Update(ids[j], events[ids[j]].content)
      {
        out := out + [Update(ids[i], events[ids[i]].content)];
      }
    }

    method FindEligible(fromID: EventID, now: int) returns (found: set<EventID>)
      requires Indexed()
      ensures found == Eligible(Abs(), fromID, now)
    {
      found := {};
      var ids := RangeOver(events.Keys);
      for i := 0 to |ids|
        invariant found <= events.Keys
        invariant forall j :: 0 <= j < i ==>
                    (ids[j] in found <==> ids[j] > fromID && Unexpired(events[ids[j]].content, now))
        invariant forall j :: i <= j < |ids| ==> ids[j] !in found
      {
        if ids[i] > fromID && Unexpired(events[ids[i]].content, now) { found := found + {ids[i]}; }
      }
      SameIds(events.Keys, ids, found, Eligible(Abs(), fromID, now));
    }

    /** getLocked: reads without changing anything. */
    method GetLocked(fromID: EventID, now: int, limit: int) returns (out: seq<Update>)
      requires Indexed()
      ensures out == Batch(Abs(), fromID, now, limit)
    {
      var found := FindEligible(fromID, now);
      var sorted := SortKeys(found);
      var ids := Cut(sorted, limit);
      assert forall i :: 0 <= i < |ids| ==> ids[i] in SortedIds(found);
      out := ReadEvents(ids);
      ghost var q := Abs();
      assert found == Eligible(q, fromID, now);
      assert |out| == |Batch(q, fromID, now, limit)|;
      forall j | 0 <= j < |out| ensures out[j] == Batch(q, fromID, now, limit)[j] { }
    }

    method StoreLocked(id: EventID, content: Content, ghost q0: QState<RawEvent>) returns (re: RawEvent)
      requires Valid() && Abs() == q0 && id != 0
      modifies this
      ensures Indexed() && fresh(re) && re.id == id && re.content == content
      ensures Abs() == Store(q0, id, content, re)
    {
      hide ValidQueue;
      re := new RawEvent(id, content);
      events := events[id := re];
      if head == 0 { head := id; }
      tail := id;
      assert Abs().events == Store(q0, id, content, re).events;
    }

    /** The first locked section of PushWithData. build derives the payload from the id. The
        queue stays valid except after a push with the largest int32 as its hint, which is
        stored under a negative id. */
    method AssignLocked(hint: EventID, build: EventID -> Option<Content>, ghost q0: QState<RawEvent>)
      returns (re: Option<RawEvent>, pops: seq<int>)
      requires Valid() && Abs() == q0 && -0x8000_0000 <= hint <= MAX_INT32
      modifies this
      ensures Indexed() && (Valid() <==> re.None? || hint != MAX_INT32)
      ensures re.Some? <==> NextID(hint, q0.tail).Some? && build(NextID(hint, q0.tail).value).Some?
      ensures re.None? ==> pops == [] && Abs() == q0
      ensures re.Some? ==> fresh(re.value) && re.value.id == NextID(hint, q0.tail).value
                           && build(re.value.id) == Some(re.value.content)
      ensures re.Some? ==> Abs() == Assign(q0, re.value.id, re.value.content, re.value)
      ensures re.Some? ==> LogsOf(pops) == AssignPops(q0, re.value.id, re.value.content, re.value)
    {
      re, pops := None, [];
      var next := NextID(hint, tail);
      NextIDMonotonic(hint, tail);
      if next.Some? {
        var built := build(next.value);
        if built.Some? {
          var event := StoreLocked(next.value, built.value, q0);
          re := Some(event);
          if hint != MAX_INT32 { StoreGrown(q0, next.value, built.value, event); }
          pops := EnforceCap(Abs(), GoneTrim(Abs()));
        }
      }
    }

    method EnforceCap(ghost q0: QState<RawEvent>, ghost gone: set<EventID>) returns (pops: seq<int>)
      requires Indexed() && Abs() == q0 && gone == GoneTrim(q0)
      modifies this`events, this`head
      ensures Indexed() && tail == q0.tail && (ValidQueue(q0) ==> Valid())
      ensures Abs() == if |q0.events| > MAX_QUEUE_EVENTS then Drop(q0, gone) else q0
      ensures LogsOf(pops) == Pops(q0, gone)
    {
      var n := |events|;
      assert n == |q0.events| by {
        assert events.Keys == q0.events.Keys && |events| == |events.Keys| && |q0.events| == |q0.events.Keys|;
      }
      if n > MAX_QUEUE_EVENTS {
        OverTheCap(q0);
        pops := TrimOldestLocked(n - MAX_QUEUE_EVENTS, q0, gone);
      } else {
        NothingToTrim(q0);
        pops := [];
      }
    }

    /** The second one: record the log id, or say that the row must be deleted again. */
    method RecordOrUndoLocked(re: RawEvent, logID: int, ghost q0: QState<RawEvent>) returns (undo: bool)
      requires Indexed() && Abs() == q0
      modifies re`logID
      ensures Indexed() && (ValidQueue(q0) <==> Valid())
      ensures undo == !StillThere(q0, re.id, re)
      ensures Abs() == Record(q0, re.id, re, logID)
    {
      if re.id in events && events[re.id] == re {
        re.logID := logID;
        undo := false;
        forall id | id in events && id != re.id ensures events[id] != re { }
        assert Abs().events == Record(q0, re.id, re, logID).events;
        assert Abs().events.Keys == q0.events.Keys;
      } else {
        undo := true;
      }
    }
  }

  /** The records that q has under ids, in that order. */
  ghost predicate AreRecords(records: seq<RawEvent>, ids: seq<EventID>, q: QState<RawEvent>) {
    |records| == |ids| && forall i :: 0 <= i < |ids| ==> ids[i] in q.events && q.events[ids[i]].obj == records[i]
  }

  lemma PrefixSorted(ids: seq<EventID>, n: nat, gone: set<EventID>)
    requires Ascending(ids) && n <= |ids| && gone == set x | x in ids[..n]
    ensures ids[..n] == SortedIds(gone)
  {
    AscendingSize(ids[..n]);
    assert SortedListOf(ids[..n], gone);
    SortedListUnique(ids[..n], SortedIds(gone), gone);
  }

  lemma SameIds(all: set<EventID>, ids: seq<EventID>, a: set<EventID>, b: set<EventID>)
    requires a <= all && b <= all && (forall x :: x in all ==> x in ids)
    requires forall j :: 0 <= j < |ids| ==> (ids[j] in a <==> ids[j] in b)
    ensures a == b
  {
    forall x | x in a ensures x in b { assert x in all && x in ids; }
    forall x | x in b ensures x in a { assert x in all && x in ids; }
  }

  lemma PopsAdd(q: QState<RawEvent>, gone: set<EventID>, id: EventID)
    requires id in q.events
    ensures Pops(q, gone + {id}) == Pops(q, gone) + (if q.events[id].logID != 0 then {q.events[id].logID} else {})
  {
  }
}
