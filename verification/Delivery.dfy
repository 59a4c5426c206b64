/** What a polling bot receives: internal/client/getupdates.go over one queue. The bot
    always passes the last id it received plus one as its offset. */
module Delivery {
  import opened Bytes
  import opened QueueSpec
  import opened UpdateQueue

  const MAX_JSON_BYTES := 0x40_0000
  const UPDATE_OVERHEAD := 50

  /** eventsToRaw: the longest prefix whose payloads stay below the budget. */
  function Raw(events: seq<Update>, leftLen: int): (out: seq<Update>)
    ensures out <= events
  {
    if events == [] then []
    else
      var left := leftLen - (UPDATE_OVERHEAD + |events[0].content.data|);
      if left <= 0 then [] else [events[0]] + Raw(events[1..], left)
  }

  function Cost(events: seq<Update>): nat {
    if events == [] then 0 else 50 + |events[0].content.data| + Cost(events[1..])
  }

  /** What is sent stays below the budget, and one update more would not. */
  lemma {:induction false} RawIsLongest(events: seq<Update>, leftLen: int)
    ensures var out := Raw(events, leftLen);
            && out == events[..|out|]
            && (out != [] ==> Cost(out) < leftLen)
            && (|out| < |events| ==> Cost(events[..|out| + 1]) >= leftLen)
  {
    if events != [] {
      var left := leftLen - (UPDATE_OVERHEAD + |events[0].content.data|);
      RawIsLongest(events[1..], left);
      var out := Raw(events, leftLen);
      assert events[..1][1..] == [];
      if left > 0 {
        assert out[1..] == Raw(events[1..], left);
        if |out| < |events| { assert events[..|out| + 1][1..] == events[1..][..|out|]; }
      }
    }
  }

  /** One round of the loop in EventsToRaw. */
  lemma RawRound(events: seq<Update>, i: nat, leftLen: int)
    requires i < |events|
    ensures var left := leftLen - (UPDATE_OVERHEAD + |events[i].content.data|);
            Raw(events[i..], leftLen) == if left <= 0 then [] else [events[i]] + Raw(events[i + 1..], left)
  {
    assert events[i..][0] == events[i] && events[i..][1..] == events[i + 1..];
  }

  lemma Joined<T>(a: seq<T>, x: T, b: seq<T>)
    ensures a + ([x] + b) == (a + [x]) + b
  {
  }

  method EventsToRaw(events: seq<Update>) returns (out: seq<Update>)
    ensures out == Raw(events, 4 * 1024 * 1024)
  {
    hide Raw;
    out := [];
    var leftLen := MAX_JSON_BYTES;
    assert events[0..] == events;
    for i := 0 to |events|
      invariant Raw(events, MAX_JSON_BYTES) == out + Raw(events[i..], leftLen)
    {
      RawRound(events, i, leftLen);
      leftLen := leftLen - (UPDATE_OVERHEAD + |events[i].content.data|);
      if leftLen <= 0 { return; }
      Joined(out, events[i], Raw(events[i + 1..], leftLen));
      out := out + [events[i]];
    }
    assert Raw(events[|events|..], leftLen) == [] by { RawOfNothing(events, leftLen); }
  }

  lemma RawOfNothing(events: seq<Update>, leftLen: int)
    ensures Raw(events[|events|..], leftLen) == []
  {
  }

  /** Confirming an offset forgets what is below it. */
  ghost function Confirm<O>(q: QState<O>, last: EventID): QState<O> {
    if last == 0 then q else Drop(q, GoneUpTo(q, last))
  }

  /** The rows the confirmation leaves to be deleted. */
  function Confirmed<O>(q: QState<O>, last: EventID): set<int> {
    if last == 0 then {} else Pops(q, GoneUpTo(q, last))
  }

  /** Up to where a fetch forgets; nothing is confirmed up to 0. */
  function Forgotten(last: EventID, forget: bool): EventID { if forget then last else 0 }

  /** What a fetch gives, whether or not it forgets what is below. */
  ghost function Answer<O>(q: QState<O>, last: EventID, now: int, limit: int): seq<Update> {
    Raw(Batch(Confirm(q, last), last, now, limit), MAX_JSON_BYTES)
  }

  method ConfirmOffset(q: Queue, last: EventID, ghost q0: QState<RawEvent>) returns (pops: seq<int>)
    requires q.Indexed() && last >= 0 && q0 == q.Abs()
    modifies q`events, q`head
    ensures q.Indexed() && q.Abs() == Confirm(q0, last) && (ValidQueue(q0) ==> q.Valid())
    ensures LogsOf(pops) == Confirmed(q0, last)
  {
    pops := [];
    if last > 0 { pops := q.ForgetUpToLocked(last, q0); }
  }

  /** Reading above last does not depend on what is at or below it. */
  lemma BatchAfterConfirm<O>(q: QState<O>, last: EventID, now: int, limit: int)
    ensures Batch(Confirm(q, last), last, now, limit) == Batch(q, last, now, limit)
  {
    EligibleAfterConfirm(q, last, now);
    var ids := Cut(SortedIds(Eligible(q, last, now)), limit);
    assert forall i :: 0 <= i < |ids| ==> ids[i] in SortedIds(Eligible(q, last, now));
  }

  /** One fetch of getUpdates above last: the first one of a call with offset last + 1
      forgets, the others and those without an offset only read. */
  method Fetch(q: Queue, last: EventID, forget: bool, now: int, limit: int, ghost q0: QState<RawEvent>)
    returns (out: seq<Update>, pops: seq<int>)
    requires q.Indexed() && last >= 0 && q0 == q.Abs()
    modifies q`events, q`head
    ensures q.Indexed() && q.Abs() == Confirm(q0, Forgotten(last, forget)) && (ValidQueue(q0) ==> q.Valid())
    ensures out == Answer(q0, last, now, limit)
    ensures LogsOf(pops) == Confirmed(q0, Forgotten(last, forget))
  {
    hide Batch, Raw, Confirmed;
    pops := ConfirmOffset(q, Forgotten(last, forget), q0);
    var events := q.GetLocked(last, now, limit);
    out := EventsToRaw(events);
    BatchAfterConfirm(q0, last, now, limit);
  }

  // ---------- a bot polling a queue ----------

  // Why an event was dropped that the bot may not have had: the cap took it, somebody
  // else removed it, or a restart did not bring it back because it was never stored.
  datatype Cause = OverCap | Removed | Unstored

  // pushed, delivered and discarded are the whole history; last is the bot's last id or 0;
  // clock is the latest time anybody has read; fellBack says that a restart has left the
  // tail below last.
  datatype Bot = Bot(
    q: QState<nat>,
    last: EventID,
    clock: int,
    pushed: map<EventID, Content>,
    delivered: seq<Update>,
    discarded: map<EventID, Cause>,
    fellBack: bool)

  // A long poll forgets only in its first fetch. arrives says whether the answer reaches
  // the bot; stored are the events whose rows a restart can read.
  datatype Action =
    | Push(hint: EventID, content: Content)
    | Ask(now: int, limit: int, forget: bool, arrives: bool)
    | Collect(now: int)
    | Discard(gone: set<EventID>)
    | Tick(now: int)
    | Restart(q: QState<nat>, stored: set<EventID>)

  ghost predicate Known<O>(q: QState<O>, pushed: map<EventID, Content>) {
    forall id :: id in q.events ==> id in pushed && q.events[id].content == pushed[id]
  }

  ghost predicate Ordered(delivered: seq<Update>) {
    forall i, j :: 0 <= i < j < |delivered| ==> delivered[i].id < delivered[j].id
  }

  ghost predicate Genuine(delivered: seq<Update>, pushed: map<EventID, Content>, last: EventID) {
    forall i :: 0 <= i < |delivered| ==>
      delivered[i].id in pushed && delivered[i].content == pushed[delivered[i].id] && delivered[i].id <= last
  }

  predicate Received(delivered: seq<Update>, id: EventID) { exists i :: 0 <= i < |delivered| && delivered[i].id == id }

  /** The event has been delivered, or is still live above the last delivered id, or has
      expired, or was discarded. */
  ghost predicate NotLost(b: Bot, id: EventID)
    requires id in b.pushed
  {
    || Received(b.delivered, id) || (id in b.q.events && id > b.last)
    || !Unexpired(b.pushed[id], b.clock) || id in b.discarded
  }

  ghost predicate NothingLost(b: Bot) { forall id :: id in b.pushed ==> NotLost(b, id) }

  /** What holds of a bot on a queue that has never fallen back. */
  ghost predicate Good(b: Bot) {
    && 0 <= b.last <= b.q.tail
    && Ordered(b.delivered) && Genuine(b.delivered, b.pushed, b.last)
    && b.last == (if b.delivered == [] then 0 else b.delivered[|b.delivered| - 1].id)
    && NothingLost(b)
  }

  ghost predicate Inv(b: Bot) {
    && ValidQueue(b.q) && Known(b.q, b.pushed)
    && (forall id :: id in b.pushed ==> 0 < id <= b.q.tail)
    && (forall id :: id in b.discarded ==> id in b.pushed)
    && (!b.fellBack ==> Good(b))
  }

  function Init(): Bot { Bot(EmptyQueue(), 0, 0, map[], [], map[], false) }

  /** Blame cause for the live ones among gone. */
  function Blame(b: Bot, gone: set<EventID>, cause: Cause): map<EventID, Cause> {
    b.discarded + map id | id in gone && id in b.q.events :: cause
  }

  function KeepUpTo<T>(history: map<EventID, T>, tail: EventID): map<EventID, T> {
    map id | id in history && id <= tail :: history[id]
  }

  function NeverStored(b: Bot, q: QState<nat>, stored: set<EventID>): set<EventID> {
    set id | id in b.q.events && id !in q.events && id !in stored
  }

  function AskedLast(b: Bot, out: seq<Update>): EventID { if out == [] then b.last else out[|out| - 1].id }

  ghost function Step(b: Bot, a: Action): Bot
    requires ValidQueue(b.q)
  {
    match a
    case Push(hint, content) =>
      if !(-0x8000_0000 <= hint < MAX_INT32) then b else
      var id := NextID(hint, b.q.tail);
      if id.None? then b
      else b.(q := Assign(b.q, id.value, content, 0), pushed := b.pushed[id.value := content],
              discarded := Blame(b, GoneTrim(QueueSpec.Store(b.q, id.value, content, 0)), OverCap))
    case Ask(now, limit, forget, arrives) =>
      var out := if arrives then Answer(b.q, b.last, now, limit) else [];
      b.(q := Confirm(b.q, Forgotten(b.last, forget)), clock := Max(b.clock, now),
         delivered := b.delivered + out, last := AskedLast(b, out))
    case Collect(now) => b.(q := Drop(b.q, GoneExpired(b.q, now)), clock := Max(b.clock, now))
    case Discard(gone) => b.(q := Drop(b.q, gone), discarded := Blame(b, gone, Removed))
    case Tick(now) => b.(clock := Max(b.clock, now))
    case Restart(q, stored) =>
      if !RestartOk(b, q, stored) then b
      else b.(q := q, pushed := KeepUpTo(b.pushed, q.tail),
              discarded := KeepUpTo(Blame(b, NeverStored(b, q, stored), Unstored), q.tail),
              fellBack := b.fellBack || q.tail < b.last)
  }

  /** What a replay after a crash can leave of a durable queue: every live unexpired event
      that was stored, perhaps some that were removed, nothing else, and a tail at the
      largest id. Ids above that tail are given out again, and their history starts anew. */
  ghost predicate RestartOk(b: Bot, q: QState<nat>, stored: set<EventID>) {
    && ValidQueue(q) && (if q.events == map[] then q.tail == 0 else q.tail in q.events)
    && Known(q, b.pushed)
    && (forall id :: id in b.q.events && id in stored && Unexpired(b.q.events[id].content, b.clock) ==> id in q.events)
  }

  // ---------- every step keeps the invariant ----------

  lemma GrowthKeepsHistory(b: Bot, id: EventID, content: Content, q': QState<nat>, gone: set<EventID>)
    requires Good(b) && b.q.tail < id && q'.tail == id && id in q'.events
    requires forall e :: e in b.pushed ==> e <= b.q.tail
    requires forall e :: e in b.q.events ==> e in q'.events || e in gone
    ensures Good(b.(q := q', pushed := b.pushed[id := content], discarded := Blame(b, gone, OverCap)))
  {
    var b' := b.(q := q', pushed := b.pushed[id := content], discarded := Blame(b, gone, OverCap));
    assert forall i :: 0 <= i < |b.delivered| ==> b.delivered[i].id in b.pushed;
    forall e | e in b'.pushed ensures NotLost(b', e) {
      if e != id { assert NotLost(b, e); }
    }
  }

  lemma GrowthKeeps(b: Bot, id: EventID, content: Content, q': QState<nat>, gone: set<EventID>)
    requires Inv(b) && b.q.tail < id && Grown(b.q, id, Event(content, 0, 0), q')
    requires forall e :: e in b.q.events ==> e in q'.events || e in gone
    ensures Inv(b.(q := q', pushed := b.pushed[id := content], discarded := Blame(b, gone, OverCap)))
  {
    hide NothingLost, Ordered, Genuine;
    if !b.fellBack {
      hide Good, ValidQueue;
      GrowthKeepsHistory(b, id, content, q', gone);
    }
  }

  lemma PushKeeps(b: Bot, hint: EventID, content: Content)
    requires Inv(b) && -0x8000_0000 <= hint < MAX_INT32 && NextID(hint, b.q.tail).Some?
    ensures Inv(Step(b, Push(hint, content)))
  {
    hide Good, Known, Grown, Assign, GoneTrim;
    var id := NextID(hint, b.q.tail).value;
    NextIDMonotonic(hint, b.q.tail);
    AssignValid(b.q, id, content, 0);
    forall e | e in b.q.events
      ensures e in Assign(b.q, id, content, 0).events || e in GoneTrim(QueueSpec.Store(b.q, id, content, 0))
    {
      AssignDropsOnlyTrimmed(b.q, id, content, 0, e);
    }
    GrowthKeeps(b, id, content, Assign(b.q, id, content, 0), GoneTrim(QueueSpec.Store(b.q, id, content, 0)));
  }

  lemma EligibleAfterConfirm<O>(q: QState<O>, last: EventID, now: int)
    ensures Eligible(Confirm(q, last), last, now) == Eligible(q, last, now)
    ensures forall id :: id in Eligible(q, last, now) ==>
              id in Confirm(q, last).events && Confirm(q, last).events[id] == q.events[id]
  {
  }

  /** A fetch answers with a prefix of the live unexpired events above last. */
  ghost predicate PrefixOfLive<O>(out: seq<Update>, ids: seq<EventID>, q: QState<O>) {
    |out| <= |ids| && forall i :: 0 <= i < |out| ==>
      ids[i] in q.events && out[i].id == ids[i] && out[i].content == q.events[ids[i]].content
  }

  lemma BatchIsPrefix<O>(q: QState<O>, last: EventID, now: int, limit: int)
    ensures PrefixOfLive(Batch(Confirm(q, last), last, now, limit), SortedIds(Eligible(q, last, now)), q)
  {
    EligibleAfterConfirm(q, last, now);
    var ids := SortedIds(Eligible(q, last, now));
    assert forall i :: 0 <= i < |ids| ==> ids[i] in ids;
  }

  lemma AnswerIsPrefix<O>(q: QState<O>, last: EventID, now: int, limit: int)
    ensures PrefixOfLive(Answer(q, last, now, limit), SortedIds(Eligible(q, last, now)), q)
  {
    hide Batch, SortedIds, Eligible;
    BatchIsPrefix(q, last, now, limit);
    assert Answer(q, last, now, limit) <= Batch(Confirm(q, last), last, now, limit);
  }

  /** New updates above everything received keep the order and the payloads. */
  lemma AppendKeepsOrder(b: Bot, out: seq<Update>, ids: seq<EventID>)
    requires Inv(b) && Good(b) && Ascending(ids) && PrefixOfLive(out, ids, b.q)
    requires forall i :: 0 <= i < |ids| ==> ids[i] > b.last
    ensures Ordered(b.delivered + out) && Genuine(b.delivered + out, b.pushed, AskedLast(b, out))
    ensures b.last <= AskedLast(b, out) <= b.q.tail
  {
    var all := b.delivered + out;
    forall i | 0 <= i < |all|
      ensures all[i].id in b.pushed && all[i].content == b.pushed[all[i].id] && all[i].id <= AskedLast(b, out)
    {
      if i >= |b.delivered| { assert all[i] == out[i - |b.delivered|]; }
    }
    forall i, j | 0 <= i < j < |all| ensures all[i].id < all[j].id {
      if i >= |b.delivered| { assert all[i] == out[i - |b.delivered|]; }
      if j >= |b.delivered| { assert all[j] == out[j - |b.delivered|]; }
    }
  }

  /** Every live unexpired event above last is delivered or stays above the new last. */
  lemma AppendLosesNothing(b: Bot, out: seq<Update>, ids: seq<EventID>, now: int, id: EventID)
    requires id in b.pushed && NotLost(b, id) && Known(b.q, b.pushed)
    requires Ascending(ids) && PrefixOfLive(out, ids, b.q)
    requires id in b.q.events && id > b.last && Unexpired(b.pushed[id], now) ==> id in ids
    ensures || Received(b.delivered + out, id) || (id in b.q.events && id > AskedLast(b, out) && id > b.last)
            || !Unexpired(b.pushed[id], Max(b.clock, now)) || id in b.discarded
  {
    if Received(b.delivered, id) {
      var i :| 0 <= i < |b.delivered| && b.delivered[i].id == id;
      assert (b.delivered + out)[i].id == id;
    } else if id in ids {
      var k :| 0 <= k < |ids| && ids[k] == id;
      if k < |out| { assert (b.delivered + out)[|b.delivered| + k].id == id; }
    }
  }

  /** Delivering a prefix of what is live, unexpired and above last. */
  lemma DeliveryKeepsHistory(b: Bot, out: seq<Update>, ids: seq<EventID>, q': QState<nat>, now: int)
    requires Inv(b) && Good(b) && q'.tail == b.q.tail
    requires Ascending(ids) && PrefixOfLive(out, ids, b.q)
    requires forall i :: 0 <= i < |ids| ==> ids[i] > b.last
    requires forall id :: id in b.q.events && id > b.last && Unexpired(b.q.events[id].content, now) ==> id in ids
    requires forall id :: id in b.q.events && id > b.last ==> id in q'.events
    ensures Good(b.(q := q', clock := Max(b.clock, now), delivered := b.delivered + out, last := AskedLast(b, out)))
  {
    AppendKeepsOrder(b, out, ids);
    var b' := b.(q := q', clock := Max(b.clock, now), delivered := b.delivered + out, last := AskedLast(b, out));
    hide Ordered, Genuine, Ascending, PrefixOfLive, Received, ValidQueue;
    forall id | id in b'.pushed ensures NotLost(b', id) {
      assert NotLost(b, id);
      AppendLosesNothing(b, out, ids, now, id);
    }
    if out == [] { assert b.delivered + out == b.delivered; }
  }

  lemma ConfirmValid<O>(q: QState<O>, last: EventID)
    requires ValidQueue(q)
    ensures ValidQueue(Confirm(q, last)) && Confirm(q, last).tail == q.tail
    ensures forall id :: id in Confirm(q, last).events ==> id in q.events && Confirm(q, last).events[id] == q.events[id]
    ensures forall id :: id in q.events && id > last ==> id in Confirm(q, last).events
    ensures last == 0 ==> Confirm(q, last) == q
  {
    if last != 0 { DropValid(q, GoneUpTo(q, last)); }
  }

  lemma AskKeeps(b: Bot, now: int, limit: int, forget: bool, arrives: bool)
    requires Inv(b)
    ensures Inv(Step(b, Ask(now, limit, forget, arrives)))
  {
    hide Answer, Confirm, Good, ValidQueue;
    var upto := Forgotten(b.last, forget);
    ConfirmValid(b.q, upto);
    if !b.fellBack {
      var ids := SortedIds(Eligible(b.q, b.last, now));
      assert forall i :: 0 <= i < |ids| ==> ids[i] in ids;
      AnswerIsPrefix(b.q, b.last, now, limit);
      var out := if arrives then Answer(b.q, b.last, now, limit) else [];
      DeliveryKeepsHistory(b, out, ids, Confirm(b.q, upto), now);
    }
  }

  lemma CollectKeeps(b: Bot, now: int)
    requires Inv(b)
    ensures Inv(Step(b, Collect(now)))
  {
    DropValid(b.q, GoneExpired(b.q, now));
    var b' := Step(b, Collect(now));
    hide Ordered, Genuine, ValidQueue, Received;
    if !b.fellBack {
      forall id | id in b'.pushed ensures NotLost(b', id) { assert NotLost(b, id); }
    }
  }

  lemma DiscardKeeps(b: Bot, gone: set<EventID>)
    requires Inv(b)
    ensures Inv(Step(b, Discard(gone)))
  {
    DropValid(b.q, gone);
    var b' := Step(b, Discard(gone));
    hide Ordered, Genuine, ValidQueue, Received;
    if !b.fellBack {
      forall id | id in b'.pushed ensures NotLost(b', id) { assert NotLost(b, id); }
    }
  }

  lemma TickKeeps(b: Bot, now: int)
    requires Inv(b)
    ensures Inv(Step(b, Tick(now)))
  {
    var b' := Step(b, Tick(now));
    hide Ordered, Genuine, ValidQueue, Received;
    if !b.fellBack {
      forall id | id in b'.pushed ensures NotLost(b', id) { assert NotLost(b, id); }
    }
  }

  lemma RestartKeeps(b: Bot, q: QState<nat>, stored: set<EventID>)
    requires Inv(b) && RestartOk(b, q, stored)
    ensures Inv(Step(b, Restart(q, stored)))
    ensures Step(b, Restart(q, stored)).fellBack <==> b.fellBack || q.tail < b.last
  {
    var b' := Step(b, Restart(q, stored));
    if !b'.fellBack {
      forall id | id in b'.pushed ensures NotLost(b', id) { assert NotLost(b, id); }
    }
  }

  /** What a restart takes out of the history, because its id will be given out again, had
      never been stored, or had expired, or had been discarded before. */
  lemma RestartForgets(b: Bot, q: QState<nat>, stored: set<EventID>, id: EventID)
    requires Inv(b) && RestartOk(b, q, stored) && b.last <= q.tail && !b.fellBack
    requires id in b.pushed && id !in Step(b, Restart(q, stored)).pushed
    ensures id > q.tail
    ensures (id in b.q.events && id !in stored) || !Unexpired(b.pushed[id], b.clock) || id in b.discarded
  {
    assert NotLost(b, id);
  }

  lemma StepKeeps(b: Bot, a: Action)
    requires Inv(b)
    ensures Inv(Step(b, a))
  {
    hide Good, Known;
    match a
    case Push(hint, content) =>
      if -0x8000_0000 <= hint < MAX_INT32 && NextID(hint, b.q.tail).Some? { PushKeeps(b, hint, content); }
    case Ask(now, limit, forget, arrives) => AskKeeps(b, now, limit, forget, arrives);
    case Collect(now) => CollectKeeps(b, now);
    case Discard(gone) => DiscardKeeps(b, gone);
    case Tick(now) => TickKeeps(b, now);
    case Restart(q, stored) => if RestartOk(b, q, stored) { RestartKeeps(b, q, stored); }
  }

  /** Nothing else discards: an event goes to the cap only if the queue is full, is removed
      only by whoever asks for it, and is missed after a restart only if it was not stored. */
  lemma WhyDiscarded(b: Bot, a: Action, id: EventID)
    requires Inv(b) && id in Step(b, a).discarded && id !in b.discarded
    ensures id in b.q.events && match a
              case Push(_, _) => |b.q.events| >= MAX_QUEUE_EVENTS && Step(b, a).discarded[id] == OverCap
              case Discard(gone) => id in gone && Step(b, a).discarded[id] == Removed
              case Restart(_, stored) => id !in stored && Step(b, a).discarded[id] == Unstored
              case _ => false
  {
    if a.Push? && -0x8000_0000 <= a.hint < MAX_INT32 && NextID(a.hint, b.q.tail).Some? {
      var next := NextID(a.hint, b.q.tail).value;
      NextIDMonotonic(a.hint, b.q.tail);
      StoreGrown(b.q, next, a.content, 0);
      if |b.q.events| < MAX_QUEUE_EVENTS { NothingToTrim(QueueSpec.Store(b.q, next, a.content, 0)); }
    }
  }

  ghost function RunFrom(b: Bot, acts: seq<Action>): (b': Bot)
    requires Inv(b)
    ensures Inv(b')
  {
    if acts == [] then b
    else
      StepKeeps(RunFrom(b, acts[..|acts| - 1]), acts[|acts| - 1]);
      Step(RunFrom(b, acts[..|acts| - 1]), acts[|acts| - 1])
  }

  ghost function Run(acts: seq<Action>): (b: Bot)
    ensures Inv(b)
  {
    RunFrom(Init(), acts)
  }

  /** The main result, over every run of pushes, cap trims, expiries, collections by any
      clock, removals by others, fetches of any size whose answers may be lost, and restarts.
      Unless a restart has left the tail below the bot's last id: what the bot has received
      is strictly increasing, so nothing comes twice; every update is one that was pushed,
      unchanged; and an event that was pushed and has not been received is, unless expired
      or discarded, still live with an id above everything received. */
  lemma ExactlyOnceInOrder(acts: seq<Action>)
    requires !Run(acts).fellBack
    ensures var d := Run(acts).delivered; forall i, j :: 0 <= i < j < |d| ==> d[i].id < d[j].id
    ensures var d, pushed := Run(acts).delivered, Run(acts).pushed;
            forall i :: 0 <= i < |d| ==> d[i].id in pushed && d[i].content == pushed[d[i].id]
    ensures forall id :: id in Run(acts).pushed ==>
              || Received(Run(acts).delivered, id) || id in Run(acts).discarded
              || 0 != Run(acts).pushed[id].expiresAt < Run(acts).clock || Waits(Run(acts), id)
  {
    hide Run;
    var b := Run(acts);
    assert Inv(b);
    forall id | id in b.pushed
      ensures Received(b.delivered, id) || id in b.discarded || 0 != b.pushed[id].expiresAt < b.clock || Waits(b, id)
    {
      assert NotLost(b, id);
    }
  }

  /** The event is live with what was pushed, above everything received. */
  ghost predicate Waits(b: Bot, id: EventID) {
    && id in b.q.events && id in b.pushed && b.q.events[id].content == b.pushed[id]
    && forall i :: 0 <= i < |b.delivered| ==> b.delivered[i].id < id
  }

  // ---------- restarts ----------

  /** Why a restart must keep the tail: the server restarts ids above the largest row that is
      left, and the bot still confirms last + 1. What is pushed first after the restart is
      live and above last after the bot's next fetch exactly if the tail did not fall below
      last; otherwise that fetch forgets it unread. */
  lemma FirstAfterRestart(q: QState<nat>, last: EventID, content: Content)
    requires ValidQueue(q) && 0 < last <= MAX_ID && NextID(0, q.tail).Some?
    ensures var id := NextID(0, q.tail).value;
            id in Confirm(Assign(q, id, content, 0), last).events && id > last <==> last <= q.tail
    ensures var id := NextID(0, q.tail).value;
            q.tail < last ==> id !in Confirm(Assign(q, id, content, 0), last).events
  {
    var id := NextID(0, q.tail).value;
    NextIDMonotonic(0, q.tail);
    AssignValid(q, id, content, 0);
  }
}
