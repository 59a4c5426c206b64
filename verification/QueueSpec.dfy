/** What one update queue is, as a value: internal/tqueue/eventid.go and the
    locked sections of internal/tqueue/tqueue.go. The class in UpdateQueue.dfy is proved
    against these functions, and the interleavings in QueueProtocol.dfy are made of
    them. */
module QueueSpec {
  import opened Bytes

  type EventID = int

  const MAX_ID: EventID := 2000000000
  const MAX_INT32 := 0x7fff_ffff
  const MAX_QUEUE_EVENTS := 100000

  datatype Content = Content(expiresAt: int, data: seq<byte>, extra: int, updateType: string)

  // obj is the identity of the stored record: the source compares pointers.
  datatype Event<O> = Event(content: Content, obj: O, logID: int)

  // head is the smallest live id or 0; tail is the last assigned id or 0.
  datatype QState<O> = QState(events: map<EventID, Event<O>>, head: EventID, tail: EventID)

  datatype Update = Update(id: EventID, content: Content)

  function EmptyQueue<O>(): QState<O> { QState(map[], 0, 0) }

  // ---------- event ids (eventid.go) ----------

  /** The successor id in int32 arithmetic. The test adds first, so at the largest
      int32 it wraps to a negative number, passes, and so does the result. */
  function Next(e: EventID): (r: Option<EventID>)
    requires -0x8000_0000 <= e <= MAX_INT32
  {
    var next := if e == MAX_INT32 then -0x8000_0000 else e + 1;
    if next > MAX_ID then None else Some(next)
  }

  function Max(a: int, b: int): int { if a < b then b else a }

  /** The id PushWithData gives the next event; None is ErrQueueFull. */
  function NextID(hint: EventID, tail: EventID): (r: Option<EventID>)
    requires -0x8000_0000 <= hint <= MAX_INT32
    requires 0 <= tail <= MAX_ID
  {
    var e := Max(hint, tail);
    if e == 0 then Some(1) else Next(e)
  }

  /** Every id handed out is new and in range exactly when the hint is not the
      largest int32; there the queue answers a negative id instead of an error. */
  lemma NextIDMonotonic(hint: EventID, tail: EventID)
    requires -0x8000_0000 <= hint <= MAX_INT32
    requires 0 <= tail <= MAX_ID
    ensures (NextID(hint, tail).Some? ==> hint < NextID(hint, tail).value && tail < NextID(hint, tail).value <= MAX_ID)
            <==> hint != MAX_INT32
    ensures NextID(MAX_INT32, tail) == Some(-0x8000_0000)
    ensures hint < MAX_INT32 ==> (NextID(hint, tail).None? <==> Max(hint, tail) >= MAX_ID)
  {
  }

  // ---------- sorted ids ----------

  lemma {:induction false} MinExists(s: set<EventID>)
    requires s != {}
    ensures exists m :: m in s && forall x :: x in s ==> m <= x
  {
    if forall a: EventID :: a !in s { assert false; }
    var a: EventID :| a in s;
    var t := s - {a};
    if t == {} {
      assert s == {a};
    } else {
      MinExists(t);
      var m :| m in t && forall x :: x in t ==> m <= x;
      var least := if a < m then a else m;
      forall x | x in s ensures least <= x {
        assert x == a || x in t;
      }
    }
  }

  function Min(s: set<EventID>): (m: EventID)
    requires s != {}
    ensures m in s && forall x :: x in s ==> m <= x
  {
    MinExists(s);
    var m :| m in s && forall x :: x in s ==> m <= x;
    m
  }

  function HeadOf(s: set<EventID>): EventID { if s == {} then 0 else Min(s) }

  ghost predicate Ascending(ids: seq<EventID>) { forall i, j :: 0 <= i < j < |ids| ==> ids[i] < ids[j] }

  ghost predicate SortedListOf(ids: seq<EventID>, s: set<EventID>) {
    |ids| == |s| && Ascending(ids) && forall x :: x in ids <==> x in s
  }

  lemma {:induction false} SortedListExists(s: set<EventID>)
    ensures exists ids :: SortedListOf(ids, s)
  {
    if s == {} {
      assert SortedListOf([], s);
    } else {
      var m := Min(s);
      SortedListExists(s - {m});
      var rest :| SortedListOf(rest, s - {m});
      assert forall i :: 0 <= i < |rest| ==> rest[i] in rest;
      assert SortedListOf([m] + rest, s);
    }
  }

  lemma LastOfSorted(a: seq<EventID>, s: set<EventID>)
    requires SortedListOf(a, s) && s != {}
    ensures a != [] && a[|a| - 1] in s && forall x :: x in s ==> x <= a[|a| - 1]
    ensures SortedListOf(a[..|a| - 1], s - {a[|a| - 1]})
  {
    var n := |a| - 1;
    assert a[n] in a;
    forall x | x in s ensures x <= a[n] && (x == a[n] || x in a[..n]) {
      assert x in a;
      var i :| 0 <= i < |a| && a[i] == x;
      if i < n { assert a[..n][i] == x; }
    }
    forall x | x in a[..n] ensures x in s && x != a[n] {
      var i :| 0 <= i < n && a[..n][i] == x;
      assert a[i] in a;
    }
  }

  lemma NothingSorted(a: seq<EventID>)
    requires SortedListOf(a, {})
    ensures a == []
  {
  }

  /** A sorted list is determined by what is in it. */
  lemma {:induction false} SortedListUnique(a: seq<EventID>, b: seq<EventID>, s: set<EventID>)
    requires SortedListOf(a, s) && SortedListOf(b, s)
    ensures a == b
    decreases s
  {
    hide SortedListOf, Ascending;
    if s == {} {
      NothingSorted(a);
      NothingSorted(b);
    } else {
      LastOfSorted(a, s);
      LastOfSorted(b, s);
      var m := a[|a| - 1];
      SortedListUnique(a[..|a| - 1], b[..|b| - 1], s - {m});
      assert a == a[..|a| - 1] + [m] && b == b[..|b| - 1] + [m];
    }
  }

  /** The ids of a map, collected and sorted. */
  ghost function SortedIds(s: set<EventID>): (ids: seq<EventID>)
    ensures |ids| == |s| && Ascending(ids)
    ensures forall x :: x in ids <==> x in s
  {
    SortedListExists(s);
    var ids :| SortedListOf(ids, s);
    ids
  }

  // ---------- reading ----------

  predicate Unexpired(c: Content, now: int) { c.expiresAt == 0 || c.expiresAt >= now }

  function Eligible<O>(q: QState<O>, from: EventID, now: int): set<EventID> {
    set id | id in q.events && id > from && Unexpired(q.events[id].content, now)
  }

  function Cut(ids: seq<EventID>, limit: int): seq<EventID> {
    if limit > 0 && |ids| > limit then ids[..limit] else ids
  }

  /** Up to limit unexpired events above from, in ascending order. */
  ghost function Batch<O>(q: QState<O>, from: EventID, now: int, limit: int): (r: seq<Update>) {
    var ids := Cut(SortedIds(Eligible(q, from, now)), limit);
    assert forall i :: 0 <= i < |ids| ==> ids[i] in SortedIds(Eligible(q, from, now));
    seq(|ids|, i requires 0 <= i < |ids| => Update(ids[i], q.events[ids[i]].content))
  }

  // ---------- removing ----------

  function Drop<O>(q: QState<O>, gone: set<EventID>): QState<O> {
    QState(q.events - gone, HeadOf(q.events.Keys - gone), q.tail)
  }

  /** The log ids that must be popped from storage once gone has been dropped. */
  function Pops<O>(q: QState<O>, gone: set<EventID>): set<int> {
    set id | id in gone && id in q.events && q.events[id].logID != 0 :: q.events[id].logID
  }

  function GoneUpTo<O>(q: QState<O>, upto: EventID): set<EventID> {
    set id | id in q.events && id <= upto
  }

  function GoneOne<O>(q: QState<O>, one: EventID): set<EventID> {
    set id | id in q.events && id == one
  }

  function GoneExpired<O>(q: QState<O>, now: int): set<EventID> {
    set id | id in q.events && !Unexpired(q.events[id].content, now)
  }

  ghost function GoneOldest<O>(q: QState<O>, count: nat): set<EventID> {
    var ids := SortedIds(q.events.Keys);
    var n := if count > |ids| then |ids| else count;
    set id | id in ids[..n]
  }

  ghost function GoneClear<O>(q: QState<O>, keepCount: nat): set<EventID> {
    GoneOldest(q, Max(|q.events| - keepCount, 0))
  }

  // ---------- pushing ----------

  ghost function GoneTrim<O>(q: QState<O>): set<EventID> {
    GoneOldest(q, Max(|q.events| - MAX_QUEUE_EVENTS, 0))
  }

  function Store<O>(q: QState<O>, id: EventID, content: Content, obj: O): QState<O> {
    QState(q.events[id := Event(content, obj, 0)], if q.head == 0 then id else q.head, id)
  }

  /** The locked section of PushWithData: store under id, then enforce the cap. */
  ghost function Assign<O>(q: QState<O>, id: EventID, content: Content, obj: O): QState<O> {
    var stored := Store(q, id, content, obj);
    if |stored.events| > MAX_QUEUE_EVENTS then Drop(stored, GoneTrim(stored)) else stored
  }

  ghost function AssignPops<O>(q: QState<O>, id: EventID, content: Content, obj: O): set<int> {
    var stored := Store(q, id, content, obj);
    Pops(stored, GoneTrim(stored))
  }

  /** The second locked section: keep the log id if the record is still there. */
  predicate StillThere<O(==)>(q: QState<O>, id: EventID, obj: O) { id in q.events && q.events[id].obj == obj }

  function Record<O(==)>(q: QState<O>, id: EventID, obj: O, logID: int): QState<O> {
    if StillThere(q, id, obj) then q.(events := q.events[id := q.events[id].(logID := logID)]) else q
  }

  // ---------- the queue invariant ----------

  predicate IsHead(s: set<EventID>, head: EventID) {
    if s == {} then head == 0 else head in s && forall x :: x in s ==> head <= x
  }

  predicate ValidQueue<O>(q: QState<O>) {
    && 0 <= q.tail <= MAX_ID
    && (forall id :: id in q.events ==> 0 < id <= q.tail)
    && IsHead(q.events.Keys, q.head)
  }

  lemma DropValid<O>(q: QState<O>, gone: set<EventID>)
    requires ValidQueue(q)
    ensures ValidQueue(Drop(q, gone))
  {
    assert (q.events - gone).Keys == q.events.Keys - gone;
  }

  /** The newest id is the last of the sorted ones, so a trim that keeps anything keeps it. */
  lemma OldestSparesNewest<O>(q: QState<O>, id: EventID, count: nat)
    requires id in q.events && forall e :: e in q.events ==> e <= id
    requires count < |q.events|
    ensures id !in GoneOldest(q, count)
  {
    var ids := SortedIds(q.events.Keys);
    assert |ids| == |q.events|;
    assert ids[|ids| - 1] in ids;
    assert forall k :: 0 <= k < count ==> ids[k] < ids[|ids| - 1];
  }

  lemma GoneOldestWithin<O>(q: QState<O>, count: nat)
    ensures GoneOldest(q, count) <= q.events.Keys
  {
    var ids := SortedIds(q.events.Keys);
    var n := if count > |ids| then |ids| else count;
    assert forall e :: e in ids[..n] ==> e in ids;
  }

  /** The cap takes older events only. */
  lemma TrimSparesNewest<O>(stored: QState<O>, id: EventID)
    requires id in stored.events && forall e :: e in stored.events ==> e <= id
    ensures id !in GoneTrim(stored) && GoneTrim(stored) <= stored.events.Keys
    ensures |Drop(stored, GoneTrim(stored)).events| <= MAX_QUEUE_EVENTS
  {
    var count := Max(|stored.events| - MAX_QUEUE_EVENTS, 0);
    OldestSparesNewest(stored, id, count);
    GoneOldestWithin(stored, count);
    GoneOldestSize(stored, count);
  }

  /** q plus one event under a new id, perhaps without some of the old ones. */
  ghost predicate Grown<O>(q: QState<O>, id: EventID, event: Event<O>, q': QState<O>) {
    && ValidQueue(q') && q'.tail == id
    && id in q'.events && q'.events[id] == event
    && (forall e :: e in q'.events && e != id ==> e in q.events && q'.events[e] == q.events[e])
  }

  lemma DropGrown<O>(q: QState<O>, id: EventID, event: Event<O>, q': QState<O>, gone: set<EventID>)
    requires Grown(q, id, event, q') && id !in gone
    ensures Grown(q, id, event, Drop(q', gone))
  {
    DropValid(q', gone);
  }

  lemma NothingToTrim<O>(q: QState<O>)
    requires |q.events| <= MAX_QUEUE_EVENTS
    ensures GoneTrim(q) == {} && Pops(q, GoneTrim(q)) == {}
  {
    assert SortedIds(q.events.Keys)[..0] == [];
  }

  lemma OverTheCap<O>(q: QState<O>)
    requires |q.events| > MAX_QUEUE_EVENTS
    ensures GoneTrim(q) == GoneOldest(q, |q.events| - MAX_QUEUE_EVENTS)
  {
  }

  lemma StoreGrown<O>(q: QState<O>, id: EventID, content: Content, obj: O)
    requires ValidQueue(q) && q.tail < id <= MAX_ID
    ensures Grown(q, id, Event(content, obj, 0), Store(q, id, content, obj))
    ensures |Store(q, id, content, obj).events| == |q.events| + 1
  {
    var stored := Store(q, id, content, obj);
    assert stored.events.Keys == q.events.Keys + {id};
    assert |stored.events| == |stored.events.Keys| == |q.events.Keys| + 1;
  }

  lemma AssignDropsOnlyTrimmed<O>(q: QState<O>, id: EventID, content: Content, obj: O, e: EventID)
    requires e in q.events
    ensures e in Assign(q, id, content, obj).events || e in GoneTrim(Store(q, id, content, obj))
  {
  }

  /** Pushing under a fresh id keeps the queue valid and below the cap, keeps the new
      event, and touches no old one that stays. */
  lemma AssignValid<O>(q: QState<O>, id: EventID, content: Content, obj: O)
    requires ValidQueue(q) && q.tail < id <= MAX_ID
    ensures Grown(q, id, Event(content, obj, 0), Assign(q, id, content, obj))
    ensures |Assign(q, id, content, obj).events| <= MAX_QUEUE_EVENTS
  {
    var stored := Store(q, id, content, obj);
    StoreGrown(q, id, content, obj);
    TrimSparesNewest(stored, id);
    DropGrown(q, id, Event(content, obj, 0), stored, GoneTrim(stored));
  }

  lemma GoneOldestSize<O>(q: QState<O>, count: nat)
    requires count <= |q.events|
    ensures |Drop(q, GoneOldest(q, count)).events| == |q.events| - count
  {
    var ids := SortedIds(q.events.Keys);
    AscendingSize(ids[..count]);
    var gone := GoneOldest(q, count);
    GoneOldestWithin(q, count);
    assert (q.events - gone).Keys == q.events.Keys - gone;
  }

  /** Clear keeps the newest keepCount events, or all of them if there are no more. */
  lemma ClearKeepsNewest<O>(q: QState<O>, keepCount: nat)
    ensures var kept := Drop(q, GoneClear(q, keepCount)).events;
            |kept| == (if keepCount < |q.events| then keepCount else |q.events|)
            && forall x, y :: x in q.events && x !in kept && y in kept ==> x < y
  {
    var count := Max(|q.events| - keepCount, 0);
    GoneOldestSize(q, count);
    GoneOldestFirst(q, count);
  }

  lemma GoneOldestFirst<O>(q: QState<O>, count: nat)
    ensures forall x, y :: x in GoneOldest(q, count) && y in q.events && y !in GoneOldest(q, count) ==> x < y
  {
    var ids := SortedIds(q.events.Keys);
    var n := if count > |ids| then |ids| else count;
    forall x, y | x in GoneOldest(q, count) && y in q.events && y !in GoneOldest(q, count) ensures x < y {
      var i :| 0 <= i < n && ids[..n][i] == x;
      assert ids == ids[..n] + ids[n..] && y in ids;
      var j :| 0 <= j < |ids[n..]| && ids[n..][j] == y;
    }
  }

  lemma {:induction false} AscendingSize(ids: seq<EventID>)
    requires forall i, j :: 0 <= i < j < |ids| ==> ids[i] < ids[j]
    ensures |set id | id in ids| == |ids|
  {
    if ids != [] {
      var front := ids[..|ids| - 1];
      var last := ids[|ids| - 1];
      AscendingSize(front);
      assert ids == front + [last];
      assert (set id | id in ids) == (set id | id in front) + {last};
      assert last !in front;
    }
  }
}
