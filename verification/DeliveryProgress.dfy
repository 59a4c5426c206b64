/** Whether the polling bot of Delivery gets on: when a fetch brings something, how many
    fetches bring everything, and what blocks them. */
module DeliveryProgress {
  import opened Bytes
  import opened QueueSpec
  import opened Delivery

  /** Four MiB and more with the fifty bytes every update is reckoned to take besides. */
  predicate Oversized(c: Content) { 4 * 1024 * 1024 <= 50 + |c.data| }

  lemma RawNonEmpty(events: seq<Update>, leftLen: int)
    ensures Raw(events, leftLen) == [] <==> events == [] || leftLen <= UPDATE_OVERHEAD + |events[0].content.data|
  {
  }

  /** Progress: a fetch comes back empty exactly when nothing unexpired is live above last,
      or the first such update alone exceeds the budget. */
  lemma EmptyAnswer<O>(q: QState<O>, last: EventID, now: int, limit: int)
    ensures Answer(q, last, now, limit) == [] <==>
              || Eligible(q, last, now) == {}
              || Oversized(q.events[Min(Eligible(q, last, now))].content)
  {
    EligibleAfterConfirm(q, last, now);
    var live := Eligible(q, last, now);
    var ids := SortedIds(live);
    assert forall i :: 0 <= i < |ids| ==> ids[i] in ids;
    var batch := Batch(Confirm(q, last), last, now, limit);
    RawNonEmpty(batch, MAX_JSON_BYTES);
    if live != {} {
      assert Min(live) in ids;
      assert ids[0] == Min(live);
      assert |batch| > 0 && batch[0].id == ids[0];
    } else {
      assert |ids| == 0;
    }
  }

  /** What is waiting for the bot at a time: all that is live, unexpired and above last. */
  ghost function Pending(b: Bot, now: int): seq<Update> { Batch(b.q, b.last, now, 0) }

  lemma PendingIs(b: Bot, now: int)
    ensures var ids := SortedIds(Eligible(b.q, b.last, now));
            |Pending(b, now)| == |ids| && forall i :: 0 <= i < |ids| ==>
              ids[i] in b.q.events && Pending(b, now)[i] == Update(ids[i], b.q.events[ids[i]].content)
  {
    var ids := SortedIds(Eligible(b.q, b.last, now));
    assert forall i :: 0 <= i < |ids| ==> ids[i] in ids;
  }

  lemma AnswerIsPendingPrefix(b: Bot, now: int, limit: int)
    ensures var out := Answer(b.q, b.last, now, limit);
            |out| <= |Pending(b, now)| && out == Pending(b, now)[..|out|]
  {
    hide Answer, Pending, SortedIds, Eligible;
    AnswerIsPrefix(b.q, b.last, now, limit);
    PendingIs(b, now);
    var out := Answer(b.q, b.last, now, limit);
    assert forall i :: 0 <= i < |out| ==> out[i] == Pending(b, now)[i];
  }

  /** The part of a sorted list from its n-th element on is what lies above the one before. */
  lemma RestAbove(ids: seq<EventID>, n: nat, last: EventID, x: EventID)
    requires Ascending(ids) && n <= |ids| && (n > 0 ==> last == ids[n - 1])
    ensures n > 0 ==> (x in ids[n..] <==> x in ids && x > last)
  {
    if n > 0 && x in ids && x > last {
      var i :| 0 <= i < |ids| && ids[i] == x;
      assert ids[n..][i - n] == x;
    }
  }

  /** Moving last up along the waiting ids leaves the rest of them waiting. */
  lemma RestEligible<O>(q: QState<O>, q': QState<O>, last: EventID, last': EventID, now: int, n: nat)
    requires var ids := SortedIds(Eligible(q, last, now)); n <= |ids| && last' == if n == 0 then last else ids[n - 1]
    requires forall id :: id in q'.events ==> id in q.events && q'.events[id] == q.events[id]
    requires forall id :: id in q.events && id > last ==> id in q'.events
    ensures SortedIds(Eligible(q', last', now)) == SortedIds(Eligible(q, last, now))[n..]
  {
    var ids := SortedIds(Eligible(q, last, now));
    var rest, above := ids[n..], Eligible(q', last', now);
    if n > 0 { assert ids[n - 1] in ids; }
    forall x ensures x in rest <==> x in above {
      assert x in above <==> x in Eligible(q, last, now) && x > last';
      RestAbove(ids, n, last', x);
    }
    SortedRest(ids, n, above);
  }

  lemma SortedRest(ids: seq<EventID>, n: nat, above: set<EventID>)
    requires Ascending(ids) && n <= |ids| && forall x :: x in ids[n..] <==> x in above
    ensures SortedIds(above) == ids[n..]
  {
    var rest := ids[n..];
    AscendingSize(rest);
    forall x | x in above ensures x in rest { }
    forall x | x in rest ensures x in above { }
    assert (set x | x in rest) == above;
    SortedListUnique(rest, SortedIds(above), above);
  }

  lemma PendingAfter(b: Bot, now: int, limit: int, forget: bool, arrives: bool)
    requires Inv(b)
    ensures var out := if arrives then Answer(b.q, b.last, now, limit) else [];
            |out| <= |Pending(b, now)|
            && Pending(Step(b, Ask(now, limit, forget, arrives)), now) == Pending(b, now)[|out|..]
  {
    hide Answer, Confirm, Good, Known, Pending, ValidQueue, Batch;
    ConfirmValid(b.q, Forgotten(b.last, forget));
    AnswerIsPrefix(b.q, b.last, now, limit);
    var b' := Step(b, Ask(now, limit, forget, arrives));
    var out := if arrives then Answer(b.q, b.last, now, limit) else [];
    RestEligible(b.q, b'.q, b.last, b'.last, now, |out|);
    PendingIs(b, now);
    PendingIs(b', now);
    hide Step, SortedIds, Eligible;
    assert Pending(b', now) == Pending(b, now)[|out|..];
  }

  /** A fetch, whether or not it arrives, only moves updates from waiting to delivered: all
      of them together stay the same, in the same order. */
  lemma AskConserves(b: Bot, now: int, limit: int, forget: bool, arrives: bool)
    requires Inv(b)
    ensures var b' := Step(b, Ask(now, limit, forget, arrives));
            && b'.delivered + Pending(b', now) == b.delivered + Pending(b, now)
            && b.delivered <= b'.delivered
  {
    hide Answer, Confirm, Good, Known, Pending, ValidQueue;
    PendingAfter(b, now, limit, forget, arrives);
    AnswerIsPendingPrefix(b, now, limit);
    var b' := Step(b, Ask(now, limit, forget, arrives));
    var out := if arrives then Answer(b.q, b.last, now, limit) else [];
    assert b'.delivered == b.delivered + out;
    hide Step;
    assert Pending(b, now) == out + Pending(b', now);
    Assoc(b.delivered, out, Pending(b', now));
  }

  /** It brings something exactly if something is waiting and the first of it can be sent;
      then last goes up. */
  lemma AskProgress(b: Bot, now: int, limit: int, forget: bool)
    requires Inv(b)
    ensures var b' := Step(b, Ask(now, limit, forget, true));
            && (|b'.delivered| > |b.delivered| <==> Pending(b, now) != [] && !Oversized(Pending(b, now)[0].content))
            && (|b'.delivered| > |b.delivered| ==> b'.last > b.last)
  {
    hide Answer, Confirm, Good, Known, ValidQueue, Pending;
    EmptyAnswer(b.q, b.last, now, limit);
    PendingIs(b, now);
    var ids := SortedIds(Eligible(b.q, b.last, now));
    if ids != [] {
      assert ids[0] in ids && Min(Eligible(b.q, b.last, now)) in ids;
      assert Min(Eligible(b.q, b.last, now)) == ids[0];
    }
    AnswerIsPrefix(b.q, b.last, now, limit);
    assert forall i :: 0 <= i < |ids| ==> ids[i] in ids;
  }

  /** It never gets past the first one that cannot. */
  lemma AskStops(b: Bot, now: int, limit: int, forget: bool, arrives: bool, k: nat)
    requires Inv(b) && k < |Pending(b, now)| && Oversized(Pending(b, now)[k].content)
    ensures |Step(b, Ask(now, limit, forget, arrives)).delivered| <= |b.delivered| + k
  {
    hide Answer, Confirm, Good, Known, ValidQueue, Pending, Eligible;
    PendingIs(b, now);
    var ids := SortedIds(Eligible(b.q, b.last, now));
    assert forall i :: 0 <= i < |ids| ==> ids[i] in ids;
    AnswerStopsBelow(b.q, b.last, now, limit, ids[k]);
    AnswerIsPrefix(b.q, b.last, now, limit);
  }

  /** The cut never gets past an update that is too large by itself. */
  lemma {:induction false} RawStopsAt(events: seq<Update>, leftLen: int, k: nat)
    requires k < |events| && leftLen <= MAX_JSON_BYTES && Oversized(events[k].content)
    ensures |Raw(events, leftLen)| <= k
  {
    if k > 0 {
      var left := leftLen - (UPDATE_OVERHEAD + |events[0].content.data|);
      if left > 0 { RawStopsAt(events[1..], left, k - 1); }
    }
  }

  /** Whatever is asked, the answer stays below a live unexpired update that is too large. */
  lemma AnswerStopsBelow<O>(q: QState<O>, last: EventID, now: int, limit: int, id: EventID)
    requires id in Eligible(q, last, now) && Oversized(q.events[id].content)
    ensures var out := Answer(q, last, now, limit);
            forall i :: 0 <= i < |out| ==> out[i].id in Eligible(q, last, now) && out[i].id < id
  {
    hide Eligible, Confirm;
    var ids := SortedIds(Eligible(q, last, now));
    assert forall i :: 0 <= i < |ids| ==> ids[i] in ids;
    var k :| 0 <= k < |ids| && ids[k] == id;
    var batch := Batch(Confirm(q, last), last, now, limit);
    var out := Answer(q, last, now, limit);
    hide Batch;
    BatchIsPrefix(q, last, now, limit);
    assert out <= batch;
    if k < |batch| { RawStopsAt(batch, MAX_JSON_BYTES, k); }
    assert forall i :: 0 <= i < |out| ==> out[i] == batch[i] && i < k;
  }

  ghost predicate Held(b: Bot, id: EventID) { id in b.q.events && Unexpired(b.q.events[id].content, b.clock) }

  /** id waits above last and is too large to be sent. */
  ghost predicate Stuck(b: Bot, id: EventID) {
    Held(b, id) && b.last < id && Oversized(b.q.events[id].content)
  }

  /** Nothing but id itself is live from last to id. */
  ghost predicate First(b: Bot, id: EventID) { forall e :: e in b.q.events && b.last < e ==> id <= e }

  lemma StuckAsk(b: Bot, id: EventID, now: int, limit: int, forget: bool, arrives: bool)
    requires Inv(b) && Stuck(b, id) && Held(Step(b, Ask(now, limit, forget, arrives)), id)
    ensures var b' := Step(b, Ask(now, limit, forget, arrives));
            && Stuck(b', id) && b.delivered <= b'.delivered
            && (forall i :: |b.delivered| <= i < |b'.delivered| ==> b'.delivered[i].id < id)
            && (First(b, id) ==> First(b', id) && b'.delivered == b.delivered)
  {
    hide Answer, Confirm, Good, Known, ValidQueue;
    ConfirmValid(b.q, Forgotten(b.last, forget));
    AnswerStopsBelow(b.q, b.last, now, limit, id);
    var out := if arrives then Answer(b.q, b.last, now, limit) else [];
    if out != [] { assert out[0].id in Eligible(b.q, b.last, now); }
    assert out == [] ==> b.delivered + out == b.delivered;
  }

  lemma StuckPush(b: Bot, id: EventID, hint: EventID, content: Content)
    requires Inv(b) && Stuck(b, id) && Held(Step(b, Push(hint, content)), id)
    ensures var b' := Step(b, Push(hint, content));
            Stuck(b', id) && b'.delivered == b.delivered && (First(b, id) ==> First(b', id))
  {
    hide Good, Assign, GoneTrim, Blame;
    if -0x8000_0000 <= hint < MAX_INT32 && NextID(hint, b.q.tail).Some? {
      NextIDMonotonic(hint, b.q.tail);
      AssignValid(b.q, NextID(hint, b.q.tail).value, content, 0);
    }
  }

  lemma StuckRestart(b: Bot, id: EventID, q: QState<nat>, stored: set<EventID>)
    requires Inv(b) && Stuck(b, id) && Held(Step(b, Restart(q, stored)), id)
    ensures Stuck(Step(b, Restart(q, stored)), id) && Step(b, Restart(q, stored)).delivered == b.delivered
  {
    hide Good, ValidQueue, Blame, NeverStored;
  }

  lemma StuckStep(b: Bot, id: EventID, a: Action)
    requires Inv(b) && Stuck(b, id) && Held(Step(b, a), id)
    ensures Stuck(Step(b, a), id) && b.delivered <= Step(b, a).delivered
    ensures forall i :: |b.delivered| <= i < |Step(b, a).delivered| ==> Step(b, a).delivered[i].id < id
    ensures !a.Restart? && First(b, id) ==> First(Step(b, a), id) && Step(b, a).delivered == b.delivered
  {
    hide Good, Known, ValidQueue, Assign, Answer, Confirm, RestartOk, Blame, NeverStored;
    match a
    case Push(hint, content) => StuckPush(b, id, hint, content);
    case Ask(now, limit, forget, arrives) => StuckAsk(b, id, now, limit, forget, arrives);
    case Restart(q, stored) => StuckRestart(b, id, q, stored);
    case _ =>
  }

  /** An update too large to be sent blocks every later one: as long as it stays live and
      unexpired, no run of any steps delivers it or anything above it; and if nothing live
      came before it, no run without a restart delivers anything at all. */
  lemma {:induction false} OversizedBlocks(b: Bot, acts: seq<Action>, id: EventID)
    requires Inv(b) && id in b.q.events && b.last < id && Oversized(b.q.events[id].content)
    requires forall k :: 0 <= k <= |acts| ==> Held(RunFrom(b, acts[..k]), id)
    ensures var b' := RunFrom(b, acts);
            && b.delivered <= b'.delivered && Stuck(b', id)
            && (forall i :: |b.delivered| <= i < |b'.delivered| ==> b'.delivered[i].id < id)
    ensures First(b, id) && (forall k :: 0 <= k < |acts| ==> !acts[k].Restart?) ==>
              First(RunFrom(b, acts), id) && RunFrom(b, acts).delivered == b.delivered
  {
    hide Inv, Step, First;
    assert acts[..0] == [] && acts[..|acts|] == acts;
    if acts == [] {
      assert Held(RunFrom(b, acts[..0]), id);
    } else {
      var front, a := acts[..|acts| - 1], acts[|acts| - 1];
      forall k | 0 <= k <= |front| ensures Held(RunFrom(b, front[..k]), id) {
        assert front[..k] == acts[..k];
      }
      OversizedBlocks(b, front, id);
      assert Held(RunFrom(b, acts[..|acts|]), id);
      StuckStep(RunFrom(b, front), id, a);
    }
  }

  /** Fetches at one time, of any sizes, all of which arrive. */
  ghost predicate AllAsk(acts: seq<Action>, now: int) {
    forall i :: 0 <= i < |acts| ==> acts[i].Ask? && acts[i].now == now && acts[i].arrives
  }

  ghost predicate NoneOversized(updates: seq<Update>) {
    forall i :: 0 <= i < |updates| ==> !Oversized(updates[i].content)
  }

  /** A run of fetches delivers from the front of what was waiting, at least one a time
      until it meets one that is too large. */
  lemma {:induction false} AsksDeliver(b: Bot, acts: seq<Action>, now: int)
    requires Inv(b) && AllAsk(acts, now)
    ensures var b' := RunFrom(b, acts);
            && b'.delivered + Pending(b', now) == b.delivered + Pending(b, now) && b.delivered <= b'.delivered
            && (NoneOversized(Pending(b, now)) ==> |b'.delivered| >= |b.delivered| + |acts| || Pending(b', now) == [])
            && (forall k :: 0 <= k < |Pending(b, now)| && Oversized(Pending(b, now)[k].content) ==>
                  |b'.delivered| <= |b.delivered| + k)
  {
    hide Good, Known, ValidQueue, Step, Pending, Oversized;
    if acts != [] {
      var front, a := acts[..|acts| - 1], acts[|acts| - 1];
      AsksDeliver(b, front, now);
      var mid := RunFrom(b, front);
      AskConserves(mid, now, a.limit, a.forget, true);
      AskProgress(mid, now, a.limit, a.forget);
      var n := |mid.delivered| - |b.delivered|;
      Rest(b.delivered, Pending(b, now), mid.delivered, Pending(mid, now));
      forall k | 0 <= k < |Pending(b, now)| && Oversized(Pending(b, now)[k].content)
        ensures |Step(mid, a).delivered| <= |b.delivered| + k
      {
        AskStops(mid, now, a.limit, a.forget, true, k - n);
      }
    }
  }

  lemma Rest<T>(a: seq<T>, b: seq<T>, c: seq<T>, d: seq<T>)
    requires a + b == c + d && a <= c
    ensures |c| - |a| <= |b| && d == b[|c| - |a|..]
  {
    assert |a| + |b| == |c| + |d|;
    assert forall i :: 0 <= i < |d| ==> d[i] == (c + d)[|c| + i] && (a + b)[|c| + i] == b[|c| - |a| + i];
  }

  /** As many fetches as there are updates waiting, of whatever sizes, bring all of them in
      order exactly if none is too large to be sent. */
  lemma AsManyAsWait(b: Bot, acts: seq<Action>, now: int)
    requires Inv(b) && AllAsk(acts, now) && |acts| >= |Pending(b, now)|
    ensures RunFrom(b, acts).delivered == b.delivered + Pending(b, now) <==> NoneOversized(Pending(b, now))
  {
    hide Inv, Pending, Oversized, RunFrom, AllAsk;
    AsksDeliver(b, acts, now);
    var b' := RunFrom(b, acts);
    if NoneOversized(Pending(b, now)) {
      assert Pending(b', now) == [] by {
        assert |b'.delivered| + |Pending(b', now)| == |b'.delivered + Pending(b', now)|;
      }
      assert b'.delivered + [] == b'.delivered;
    } else {
      var k :| 0 <= k < |Pending(b, now)| && Oversized(Pending(b, now)[k].content);
      assert |b'.delivered| < |b.delivered + Pending(b, now)|;
    }
  }

  // ---------- what a fetch takes away ----------

  /** A fetch that forgets takes exactly the events up to last, and their rows with them; any
      other takes nothing. */
  lemma FetchExactly<O>(q: QState<O>, last: EventID, forget: bool, e: EventID, l: int)
    requires ValidQueue(q) && last >= 0
    ensures var q' := Confirm(q, Forgotten(last, forget));
            && q'.tail == q.tail
            && (e in q'.events <==> e in q.events && (forget ==> e > last))
            && (e in q'.events ==> q'.events[e] == q.events[e])
    ensures l in Confirmed(q, Forgotten(last, forget)) <==>
              forget && exists id :: id in q.events && id <= last && q.events[id].logID == l != 0
  {
  }

  lemma AskExactly(b: Bot, now: int, limit: int, forget: bool, arrives: bool, e: EventID)
    requires Inv(b) && b.last >= 0
    ensures var q' := Step(b, Ask(now, limit, forget, arrives)).q;
            && (e in q'.events <==> e in b.q.events && (forget ==> e > b.last))
            && (e in q'.events ==> q'.events[e] == b.q.events[e])
  {
    FetchExactly(b.q, b.last, forget, e, 0);
  }

  /** And answers with as much of the batch above last, from its start, as stays below 4 MiB. */
  lemma AnswerExactly<O>(q: QState<O>, last: EventID, now: int, limit: int)
    ensures var batch, out := Batch(q, last, now, limit), Answer(q, last, now, limit);
            && out <= batch
            && (out != [] ==> Cost(out) < 4 * 1024 * 1024)
            && (|out| < |batch| ==> Cost(batch[..|out| + 1]) >= 4 * 1024 * 1024)
  {
    hide Batch;
    BatchAfterConfirm(q, last, now, limit);
    RawIsLongest(Batch(q, last, now, limit), 4 * 1024 * 1024);
  }
}
