/** The polling bot of internal/client/getupdates.go among the other threads of a server:
    its fetches are steps between the steps of QueueProtocol, and what it receives is what
    Delivery says of a bot alone with its queue. */
module BotProtocol {
  import opened Bytes
  import opened QueueSpec
  import opened QueueProtocol
  import opened QueueSafety
  import opened QueueRestart
  import Delivery

  datatype World = World(server: Server, bot: Delivery.Bot)

  // A fetch that forgets confirms and reads in one locked section, and its thread then has
  // the pops to do; one that does not only reads.
  datatype Move =
    | Serve(a: Action)
    | Ask(t: Thread, now: int, limit: int, forget: bool, arrives: bool)

  // ---------- queues without record identities and log ids ----------

  function Plain(q: QState<nat>): QState<nat> {
    QState(map id | id in q.events :: Event(q.events[id].content, 0, 0), q.head, q.tail)
  }

  function QueueOf(s: Server, queueID: QueueID): QState<nat> {
    if queueID in s.queues then s.queues[queueID] else EmptyQueue<nat>()
  }

  lemma PlainValid(q: QState<nat>)
    ensures ValidQueue(q) <==> ValidQueue(Plain(q))
  {
    assert Plain(q).events.Keys == q.events.Keys;
  }

  lemma PlainDrop(q: QState<nat>, gone: set<EventID>)
    ensures Plain(Drop(q, gone)) == Drop(Plain(q), gone)
  {
    assert Plain(q).events.Keys == q.events.Keys;
    assert Plain(Drop(q, gone)).events == Drop(Plain(q), gone).events;
  }

  lemma PlainStore(q: QState<nat>, id: EventID, c: Content, obj: nat)
    ensures Plain(Store(q, id, c, obj)) == Store(Plain(q), id, c, 0)
    ensures GoneTrim(Store(q, id, c, obj)) == GoneTrim(Store(Plain(q), id, c, 0))
    ensures |Store(q, id, c, obj).events| == |Store(Plain(q), id, c, 0).events|
  {
    var stored, plain := Store(q, id, c, obj), Store(Plain(q), id, c, 0);
    assert Plain(stored).events == plain.events;
    assert stored.events.Keys == plain.events.Keys;
    assert |stored.events| == |stored.events.Keys| && |plain.events| == |plain.events.Keys|;
  }

  lemma PlainAssign(q: QState<nat>, id: EventID, c: Content, obj: nat)
    ensures Plain(Assign(q, id, c, obj)) == Assign(Plain(q), id, c, 0)
  {
    hide Store, GoneTrim, Drop;
    PlainStore(q, id, c, obj);
    PlainDrop(Store(q, id, c, obj), GoneTrim(Store(q, id, c, obj)));
  }

  lemma PlainGone(q: QState<nat>, last: EventID, now: int)
    ensures GoneUpTo(Plain(q), last) == GoneUpTo(q, last) && GoneExpired(Plain(q), now) == GoneExpired(q, now)
  {
  }

  lemma PlainConfirm(q: QState<nat>, last: EventID)
    ensures Plain(Delivery.Confirm(q, last)) == Delivery.Confirm(Plain(q), last)
  {
    PlainGone(q, last, 0);
    PlainDrop(q, GoneUpTo(q, last));
  }

  lemma PlainBatch(q: QState<nat>, last: EventID, now: int, limit: int)
    ensures Batch(Plain(q), last, now, limit) == Batch(q, last, now, limit)
  {
    assert Eligible(Plain(q), last, now) == Eligible(q, last, now);
    var ids := Cut(SortedIds(Eligible(q, last, now)), limit);
    assert forall i :: 0 <= i < |ids| ==> ids[i] in SortedIds(Eligible(q, last, now));
  }

  /** The bot gets what the server's own queue answers. */
  lemma PlainAnswer(q: QState<nat>, last: EventID, now: int, limit: int)
    ensures Delivery.Answer(Plain(q), last, now, limit) == Delivery.Answer(q, last, now, limit)
  {
    hide Batch, Plain, Delivery.Confirm;
    PlainConfirm(q, last);
    PlainBatch(Delivery.Confirm(q, last), last, now, limit);
  }

  lemma PlainRecord(q: QState<nat>, id: EventID, obj: nat, logID: LogID)
    ensures Plain(Record(q, id, obj, logID)) == Plain(q)
  {
    assert Plain(Record(q, id, obj, logID)).events == Plain(q).events;
  }

  // ---------- moves ----------

  /** The events of a queue whose rows have been recorded. */
  function Stored(q: QState<nat>): set<EventID> { set id | id in q.events && q.events[id].logID != 0 }

  /** What a step of the server is to the bot's queue; None if the queue stays as it is. */
  ghost function Shadow(s: Server, queueID: QueueID, a: Action): Option<Delivery.Action>
    requires ValidQueues(s)
  {
    if !Enabled(s, a) then None else
    match a
    case AssignID(t, hint, built, _) =>
      if s.threads[t].queueID == queueID && built.Some? then Some(Delivery.Push(hint, built.value)) else None
    case RemoveLocked(t) =>
      if s.threads[t].queueID == queueID
      then Some(Delivery.Discard(Gone(s.queues[queueID], s.threads[t].removal))) else None
    case CollectQueue(t, q) => if q == queueID then Some(Delivery.Collect(s.threads[t].now)) else None
    case StoreGC(now) => Some(Delivery.Tick(now))
    case Crash => Some(Delivery.Restart(Plain(QueueOf(DoCrash(s), queueID)), Stored(QueueOf(s, queueID))))
    case _ => None
  }

  ghost function Shadowed(b: Delivery.Bot, a: Option<Delivery.Action>): Delivery.Bot
    requires ValidQueue(b.q)
  {
    if a.None? then b else Delivery.Step(b, a.value)
  }

  /** Confirming is beginning a removal and its locked section at once. */
  ghost function Confirming(s: Server, queueID: QueueID, t: Thread, last: EventID): Server
    requires Safe(s)
  {
    if queueID !in s.queues || last == 0 then s
    else
      StepSafe(s, BeginRemove(t, queueID, RemoveUpTo(last)));
      Apply(Apply(s, BeginRemove(t, queueID, RemoveUpTo(last))), RemoveLocked(t))
  }

  ghost function Moved(w: World, queueID: QueueID, m: Move): World
    requires Coupled(w, queueID)
  {
    match m
    case Serve(a) => World(Apply(w.server, a), Shadowed(w.bot, Shadow(w.server, queueID, a)))
    case Ask(t, now, limit, forget, arrives) =>
      if t in w.server.threads then w
      else World(Confirming(w.server, queueID, t, Delivery.Forgotten(w.bot.last, forget)),
                 Delivery.Step(w.bot, Delivery.Ask(now, limit, forget, arrives)))
  }

  // ---------- the coupling ----------

  /** Every row of the queue, and every push to it in flight, is something that was pushed. */
  ghost predicate RowsKnown(s: Server, queueID: QueueID, pushed: map<EventID, Content>) {
    forall l :: l in s.rows && s.rows[l].queueID == queueID ==>
      s.rows[l].id in pushed && pushed[s.rows[l].id] == s.rows[l].content
  }

  ghost predicate FlightsKnown(s: Server, queueID: QueueID, pushed: map<EventID, Content>) {
    forall t :: t in s.threads && InFlight(s.threads[t]) && s.threads[t].queueID == queueID ==>
      s.threads[t].id in pushed && pushed[s.threads[t].id] == s.threads[t].content
  }

  ghost predicate History(s: Server, queueID: QueueID, pushed: map<EventID, Content>) {
    RowsKnown(s, queueID, pushed) && FlightsKnown(s, queueID, pushed)
  }

  ghost predicate Coupled(w: World, queueID: QueueID) {
    && Safe(w.server) && Delivery.Inv(w.bot)
    && w.bot.q == Plain(QueueOf(w.server, queueID))
    && w.server.gcTime <= w.bot.clock
    && History(w.server, queueID, w.bot.pushed)
  }

  lemma SafeIds(s: Server)
    requires Safe(s)
    ensures Ids(s)
  {
  }

  lemma RowsStay(s: Server, queueID: QueueID, a: Action, pushed: map<EventID, Content>)
    requires Ids(s) && History(s, queueID, pushed) && !a.Crash?
    ensures RowsKnown(Apply(s, a), queueID, pushed)
  {
    hide ThreadsOk, RowsOk, ValidQueue, Gone, Drop, Assign, AssignPops;
    if a.Insert? && Enabled(s, a) { assert s.threads[a.t].queueID == queueID ==> s.threads[a.t].id in pushed; }
  }

  lemma FlightsStay(s: Server, queueID: QueueID, a: Action, pushed: map<EventID, Content>)
    requires Ids(s) && FlightsKnown(s, queueID, pushed)
    requires a.AssignID? && Enabled(s, a) ==> s.threads[a.t].queueID != queueID || a.built.None?
    ensures FlightsKnown(Apply(s, a), queueID, pushed)
  {
    hide ThreadsOk, RowsOk, ValidQueue, Gone, Drop, Assign, AssignPops, Replay;
  }

  /** A step that pushes nothing to the queue brings in no row and no push of its own. */
  lemma HistoryStays(s: Server, queueID: QueueID, a: Action, pushed: map<EventID, Content>)
    requires Ids(s) && History(s, queueID, pushed) && !a.Crash?
    requires a.AssignID? && Enabled(s, a) ==> s.threads[a.t].queueID != queueID || a.built.None?
    ensures History(Apply(s, a), queueID, pushed)
  {
    hide Apply, Ids, RowsKnown, FlightsKnown;
    IdsValidQueues(s);
    RowsStay(s, queueID, a, pushed);
    FlightsStay(s, queueID, a, pushed);
  }

  lemma IdsValidQueues(s: Server)
    requires Ids(s)
    ensures ValidQueues(s)
  {
  }

  /** It is nothing to the bot's queue either, where it casts no shadow. */
  lemma QueueStays(s: Server, queueID: QueueID, a: Action)
    requires Ids(s) && Shadow(s, queueID, a).None?
    ensures Plain(QueueOf(Apply(s, a), queueID)) == Plain(QueueOf(s, queueID))
    ensures Apply(s, a).gcTime == s.gcTime
  {
    hide ThreadsOk, RowsOk, ValidQueue, Assign, Plain, Gone;
    if Enabled(s, a) && a.RecordOrUndo? {
      var p := s.threads[a.t];
      PlainRecord(s.queues[p.queueID], p.id, p.obj, p.logID);
    }
  }

  // ---------- every move keeps the coupling ----------

  lemma NewHistory(s: Server, queueID: QueueID, pushed: map<EventID, Content>, t: Thread, p: Phase, q': QState<nat>)
    requires Ids(s) && History(s, queueID, pushed) && queueID in s.queues
    requires p.Persisting? && p.queueID == queueID && p.id > s.queues[queueID].tail
    ensures History(s.(queues := s.queues[queueID := q'], threads := s.threads[t := p]),
                    queueID, pushed[p.id := p.content])
  {
    forall u | u in s.threads && InFlight(s.threads[u]) && s.threads[u].queueID == queueID
      ensures s.threads[u].id < p.id
    {
      assert OwnRecord(s, s.threads[u]);
    }
    forall l | l in s.rows && s.rows[l].queueID == queueID ensures s.rows[l].id < p.id {
      assert RowInRange(s, s.rows[l]);
    }
  }

  lemma PushCouples(w: World, queueID: QueueID, t: Thread, hint: EventID, c: Content, obj: nat)
    requires Coupled(w, queueID) && Enabled(w.server, AssignID(t, hint, Some(c), obj))
    requires w.server.threads[t].queueID == queueID
    ensures var b := Delivery.Step(w.bot, Delivery.Push(hint, c));
            var s' := DoAssign(w.server, t, hint, Some(c), obj);
            b.q == Plain(s'.queues[queueID]) && History(s', queueID, b.pushed) && b.clock == w.bot.clock
  {
    hide Safe, Delivery.Inv, Assign, Plain, Delivery.Blame, GoneTrim, Store, ValidQueue, History;
    SafeIds(w.server);
    InRange(w.server, queueID);
    var q := w.server.queues[queueID];
    var id := NextID(hint, q.tail);
    assert w.bot.q.tail == q.tail by { TailOfPlain(q); }
    if id.Some? {
      NextIDMonotonic(hint, q.tail);
      PlainAssign(q, id.value, c, obj);
      NewHistory(w.server, queueID, w.bot.pushed, t,
                 Persisting(queueID, id.value, c, obj, AssignPops(q, id.value, c, obj)), Assign(q, id.value, c, obj));
    } else {
      HistoryStays(w.server, queueID, AssignID(t, hint, None, obj), w.bot.pushed);
    }
  }

  lemma TailOfPlain(q: QState<nat>)
    ensures Plain(q).tail == q.tail
  {
  }

  lemma InRange(s: Server, queueID: QueueID)
    requires Ids(s) && queueID in s.queues
    ensures ValidQueue(s.queues[queueID]) && 0 <= s.queues[queueID].tail <= MAX_ID
  {
  }

  lemma DropCouples(w: World, queueID: QueueID, a: Action)
    requires Coupled(w, queueID) && Enabled(w.server, a)
    requires (a.RemoveLocked? && w.server.threads[a.t].queueID == queueID) || (a.CollectQueue? && a.queueID == queueID)
    ensures Moved(w, queueID, Serve(a)).bot.q == Plain(QueueOf(Apply(w.server, a), queueID))
    ensures Apply(w.server, a).gcTime == w.server.gcTime && w.bot.clock <= Moved(w, queueID, Serve(a)).bot.clock
    ensures Moved(w, queueID, Serve(a)).bot.pushed == w.bot.pushed
  {
    hide Safe, Delivery.Inv, Drop, Plain, Delivery.Blame, ValidQueue, History, Gone, GoneExpired;
    var q, p := w.server.queues[queueID], w.server.threads[a.t];
    if a.RemoveLocked? {
      PlainDrop(q, Gone(q, p.removal));
    } else {
      PlainDrop(q, GoneExpired(q, p.now));
      PlainGone(q, 0, p.now);
    }
  }

  lemma RestartRows(s: Server, queueID: QueueID)
    requires Safe(s)
    ensures ValidQueue(QueueOf(DoCrash(s), queueID))
    ensures var q := QueueOf(DoCrash(s), queueID); if q.events == map[] then q.tail == 0 else q.tail in q.events
    ensures forall id :: id in QueueOf(DoCrash(s), queueID).events ==>
              exists l :: l in s.rows && s.rows[l] == Row(queueID, id, QueueOf(DoCrash(s), queueID).events[id].content)
    ensures forall l :: l in s.rows && s.rows[l].queueID == queueID ==>
              s.rows[l].id in QueueOf(DoCrash(s), queueID).events
  {
    hide Safe, DoCrash;
    SafeIds(s);
    CrashReplays(s);
    var q := QueueOf(DoCrash(s), queueID);
    if queueID in DoCrash(s).queues {
      assert OnlyLoaded(s.rows, s.rows.Keys, queueID, q);
      assert q.tail in q.events;
    }
    forall l | l in s.rows && s.rows[l].queueID == queueID ensures s.rows[l].id in q.events {
      assert Restored(DoCrash(s).queues, l, s.rows[l]);
    }
  }

  lemma StoredComesBack(s: Server, queueID: QueueID, id: EventID)
    requires Safe(s) && queueID in s.queues && id in Stored(s.queues[queueID])
    requires Unexpired(s.queues[queueID].events[id].content, s.gcTime)
    ensures id in QueueOf(DoCrash(s), queueID).events
  {
    hide Safe, DoCrash;
    SafeMeansRestartRestores(s);
    var e := s.queues[queueID].events[id];
    assert HeldByEvent(s, e.logID, Row(queueID, id, e.content));
    assert HeldByEvent(DoCrash(s), e.logID, Row(queueID, id, e.content));
  }

  /** What the server replays after a crash is a restart in the sense of Delivery, whatever
      pushes, removals and collections the crash has interrupted. */
  lemma CrashIsRestart(w: World, queueID: QueueID)
    requires Coupled(w, queueID)
    ensures Delivery.RestartOk(w.bot, Plain(QueueOf(DoCrash(w.server), queueID)), Stored(QueueOf(w.server, queueID)))
  {
    hide Safe, DoCrash, Delivery.Inv, ValidQueue, FlightsKnown;
    var s, q := w.server, QueueOf(DoCrash(w.server), queueID);
    RestartRows(s, queueID);
    PlainValid(q);
    assert Plain(q).events.Keys == q.events.Keys;
    assert q.events == map[] <==> Plain(q).events == map[];
    forall id | id in w.bot.q.events && id in Stored(QueueOf(s, queueID))
                && Unexpired(w.bot.q.events[id].content, w.bot.clock)
      ensures id in q.events
    {
      StoredComesBack(s, queueID, id);
    }
    forall id | id in q.events ensures id in w.bot.pushed && q.events[id].content == w.bot.pushed[id] {
      var l :| l in s.rows && s.rows[l] == Row(queueID, id, q.events[id].content);
    }
  }

  lemma CrashCouples(w: World, queueID: QueueID)
    requires Coupled(w, queueID)
    ensures var b := Moved(w, queueID, Serve(Crash)).bot;
            b.q == Plain(QueueOf(DoCrash(w.server), queueID)) && History(DoCrash(w.server), queueID, b.pushed)
            && b.clock == w.bot.clock
    ensures Moved(w, queueID, Serve(Crash)).bot.fellBack <==>
              w.bot.fellBack || QueueOf(DoCrash(w.server), queueID).tail < w.bot.last
  {
    hide Safe, Delivery.Inv, Delivery.RestartOk, Delivery.Blame, Delivery.NeverStored, Replay, ReplayOne, LoadAll;
    CrashIsRestart(w, queueID);
    RestartRows(w.server, queueID);
    var q := QueueOf(DoCrash(w.server), queueID);
    assert Plain(q).tail == q.tail;
    var b := Moved(w, queueID, Serve(Crash)).bot;
    assert b.pushed == Delivery.KeepUpTo(w.bot.pushed, q.tail);
    forall l | l in w.server.rows && w.server.rows[l].queueID == queueID
      ensures w.server.rows[l].id in b.pushed && b.pushed[w.server.rows[l].id] == w.server.rows[l].content
    {
      assert w.server.rows[l].id in q.events;
    }
  }

  lemma TickCouples(w: World, queueID: QueueID, now: int)
    requires Coupled(w, queueID)
    ensures var w' := Moved(w, queueID, Serve(StoreGC(now)));
            && w'.bot.q == Plain(QueueOf(w'.server, queueID)) && w'.server.gcTime <= w'.bot.clock
            && History(w'.server, queueID, w'.bot.pushed)
  {
    hide Safe, Delivery.Inv, History, Plain;
    SafeIds(w.server);
    HistoryStays(w.server, queueID, StoreGC(now), w.bot.pushed);
  }

  /** A step that does something to the bot's queue does there what its shadow does. */
  lemma ShadowCouples(w: World, queueID: QueueID, a: Action)
    requires Coupled(w, queueID) && Shadow(w.server, queueID, a).Some?
    ensures var w' := Moved(w, queueID, Serve(a));
            && w'.bot.q == Plain(QueueOf(w'.server, queueID)) && w'.server.gcTime <= w'.bot.clock
            && History(w'.server, queueID, w'.bot.pushed)
  {
    hide Safe, Delivery.Inv, History, Plain, Delivery.Step, Gone, Assign, AssignPops;
    SafeIds(w.server);
    match a
    case AssignID(t, hint, built, obj) => PushCouples(w, queueID, t, hint, built.value, obj);
    case StoreGC(now) => TickCouples(w, queueID, now);
    case Crash => CrashCouples(w, queueID);
    case _ =>
      DropCouples(w, queueID, a);
      HistoryStays(w.server, queueID, a, w.bot.pushed);
  }

  lemma ServeCouples(w: World, queueID: QueueID, a: Action)
    requires Coupled(w, queueID)
    ensures Coupled(Moved(w, queueID, Serve(a)), queueID)
  {
    hide Safe, Apply, Shadow, History, Plain, QueueOf, Delivery.Step;
    SafeValid(w.server);
    StepSafe(w.server, a);
    var shadow := Shadow(w.server, queueID, a);
    if shadow.None? {
      QuietCouples(w, queueID, a);
    } else {
      Delivery.StepKeeps(w.bot, shadow.value);
      ShadowCouples(w, queueID, a);
    }
  }

  lemma QuietCouples(w: World, queueID: QueueID, a: Action)
    requires Coupled(w, queueID) && Shadow(w.server, queueID, a).None?
    ensures History(Apply(w.server, a), queueID, w.bot.pushed)
    ensures w.bot.q == Plain(QueueOf(Apply(w.server, a), queueID)) && Apply(w.server, a).gcTime == w.server.gcTime
  {
    hide Safe, Delivery.Inv, Apply, History, Plain, QueueOf;
    SafeIds(w.server);
    QueueStays(w.server, queueID, a);
    HistoryStays(w.server, queueID, a, w.bot.pushed);
  }

  lemma SafeValid(s: Server)
    requires Safe(s)
    ensures ValidQueues(s)
  {
  }

  lemma ConfirmingState(s: Server, queueID: QueueID, t: Thread, last: EventID)
    requires Safe(s) && t !in s.threads && queueID in s.queues && last != 0
    ensures Safe(Confirming(s, queueID, t, last))
    ensures Confirming(s, queueID, t, last).threads
            == s.threads[t := Popping(Pops(s.queues[queueID], GoneUpTo(s.queues[queueID], last)))]
    ensures Confirming(s, queueID, t, last)
            == s.(queues := s.queues[queueID := Delivery.Confirm(s.queues[queueID], last)],
                  threads := Confirming(s, queueID, t, last).threads)
  {
    hide Safe, Drop, GoneUpTo, ValidQueue;
    SafeValid(s);
    StepSafe(s, BeginRemove(t, queueID, RemoveUpTo(last)));
    var begun := Apply(s, BeginRemove(t, queueID, RemoveUpTo(last)));
    assert begun == s.(threads := s.threads[t := Removing(queueID, RemoveUpTo(last))]);
    SafeValid(begun);
    StepSafe(begun, RemoveLocked(t));
    assert begun.threads[t := Popping(Pops(s.queues[queueID], GoneUpTo(s.queues[queueID], last)))]
        == s.threads[t := Popping(Pops(s.queues[queueID], GoneUpTo(s.queues[queueID], last)))];
  }

  lemma ConfirmingIs(s: Server, queueID: QueueID, t: Thread, last: EventID)
    requires Safe(s) && t !in s.threads
    ensures var s' := Confirming(s, queueID, t, last);
            && Safe(s') && s'.gcTime == s.gcTime && s'.rows == s.rows
            && QueueOf(s', queueID)
                  == (if queueID in s.queues then Delivery.Confirm(s.queues[queueID], last) else EmptyQueue())
            && (forall u :: u in s'.threads && InFlight(s'.threads[u]) ==>
                    u in s.threads && s'.threads[u] == s.threads[u])
  {
    hide Safe, Apply, Drop, GoneUpTo;
    if queueID in s.queues && last != 0 { ConfirmingState(s, queueID, t, last); }
  }

  lemma AskCouples(w: World, queueID: QueueID, t: Thread, now: int, limit: int, forget: bool, arrives: bool)
    requires Coupled(w, queueID)
    ensures Coupled(Moved(w, queueID, Ask(t, now, limit, forget, arrives)), queueID)
  {
    hide Safe, Delivery.Inv, Delivery.Answer, Confirming;
    if t !in w.server.threads {
      Delivery.StepKeeps(w.bot, Delivery.Ask(now, limit, forget, arrives));
      ConfirmingIs(w.server, queueID, t, Delivery.Forgotten(w.bot.last, forget));
      PlainConfirm(QueueOf(w.server, queueID), Delivery.Forgotten(w.bot.last, forget));
    }
  }

  lemma MoveCouples(w: World, queueID: QueueID, m: Move)
    requires Coupled(w, queueID)
    ensures Coupled(Moved(w, queueID, m), queueID)
  {
    hide Coupled, Moved;
    match m
    case Serve(a) => ServeCouples(w, queueID, a);
    case Ask(t, now, limit, forget, arrives) => AskCouples(w, queueID, t, now, limit, forget, arrives);
  }

  lemma StartCoupled(queueID: QueueID)
    ensures Coupled(World(Init(), Delivery.Init()), queueID)
  {
    assert Run([]) == Init();
  }

  ghost function RunFromWorld(w: World, queueID: QueueID, moves: seq<Move>): (w': World)
    requires Coupled(w, queueID)
    ensures Coupled(w', queueID)
  {
    if moves == [] then w
    else
      var before := RunFromWorld(w, queueID, moves[..|moves| - 1]);
      MoveCouples(before, queueID, moves[|moves| - 1]);
      Moved(before, queueID, moves[|moves| - 1])
  }

  /** The bot and the server after any moves. */
  ghost function RunWorld(queueID: QueueID, moves: seq<Move>): (w: World)
    ensures Coupled(w, queueID)
  {
    StartCoupled(queueID);
    RunFromWorld(World(Init(), Delivery.Init()), queueID, moves)
  }

  // ---------- what it means ----------

  /** The event is live on the server, above everything the bot has received. */
  ghost predicate Waiting(w: World, queueID: QueueID, id: EventID, c: Content) {
    && queueID in w.server.queues && id in w.server.queues[queueID].events
    && w.server.queues[queueID].events[id].content == c
    && forall i :: 0 <= i < |w.bot.delivered| ==> w.bot.delivered[i].id < id
  }

  /** The main result, over every interleaving of the bot's fetches with any number of other
      threads, failing storage, collections and crashes: unless a restart has left the tail
      below the bot's last id, the bot receives strictly increasing ids, each with the payload
      that was pushed under it, and an event it has not received is waiting on the server,
      has expired, or was discarded. */
  lemma EveryWorldRun(queueID: QueueID, moves: seq<Move>)
    requires !RunWorld(queueID, moves).bot.fellBack
    ensures var d := RunWorld(queueID, moves).bot.delivered; forall i, j :: 0 <= i < j < |d| ==> d[i].id < d[j].id
    ensures var b := RunWorld(queueID, moves).bot;
            forall i :: 0 <= i < |b.delivered| ==>
              b.delivered[i].id in b.pushed && b.delivered[i].content == b.pushed[b.delivered[i].id]
    ensures var w := RunWorld(queueID, moves);
            forall id :: id in w.bot.pushed ==>
              || Delivery.Received(w.bot.delivered, id) || Waiting(w, queueID, id, w.bot.pushed[id])
              || 0 != w.bot.pushed[id].expiresAt < w.bot.clock || id in w.bot.discarded
  {
    hide RunWorld, Safe;
    var w := RunWorld(queueID, moves);
    forall id | id in w.bot.pushed
      ensures || Delivery.Received(w.bot.delivered, id) || Waiting(w, queueID, id, w.bot.pushed[id])
              || 0 != w.bot.pushed[id].expiresAt < w.bot.clock || id in w.bot.discarded
    {
      assert Delivery.NotLost(w.bot, id);
    }
  }

  lemma CrashTail(s: Server, queueID: QueueID, last: EventID)
    requires Safe(s)
    ensures QueueOf(DoCrash(s), queueID).tail < last <==>
              last > 0 && forall l :: l in s.rows && s.rows[l].queueID == queueID ==> s.rows[l].id < last
  {
    hide Safe, DoCrash, QueueOf;
    RestartRows(s, queueID);
    var q := QueueOf(DoCrash(s), queueID);
    if q.events != map[] {
      var l :| l in s.rows && s.rows[l] == Row(queueID, q.tail, q.events[q.tail].content);
    }
    if l :| l in s.rows && s.rows[l].queueID == queueID && s.rows[l].id >= last {
      assert s.rows[l].id in q.events;
    }
  }

  lemma OnlyCrashFallsBack(w: World, queueID: QueueID, m: Move)
    requires Coupled(w, queueID) && m != Serve(Crash)
    ensures Moved(w, queueID, m).bot.fellBack == w.bot.fellBack
  {
    hide Safe, Delivery.Inv, History, Plain, QueueOf, Apply, Confirming, DoCrash, Gone;
  }

  /** Only a crash can leave the tail below the bot's last id, and it does so exactly if no
      row of the queue with that id or a larger one is left. */
  lemma FallsBackIff(w: World, queueID: QueueID, m: Move)
    requires Coupled(w, queueID)
    ensures Moved(w, queueID, m).bot.fellBack <==>
              || w.bot.fellBack
              || (m == Serve(Crash) && w.bot.last > 0
                  && forall l :: l in w.server.rows && w.server.rows[l].queueID == queueID ==>
                       w.server.rows[l].id < w.bot.last)
  {
    hide Moved, Delivery.Inv, History, Plain, QueueOf, DoCrash, Safe;
    if m == Serve(Crash) {
      CrashCouples(w, queueID);
      CrashTail(w.server, queueID, w.bot.last);
    } else {
      OnlyCrashFallsBack(w, queueID, m);
    }
  }

  /** A fetch gives the bot what the server's own queue answers. */
  lemma AskAnswers(w: World, queueID: QueueID, t: Thread, now: int, limit: int, forget: bool)
    requires Coupled(w, queueID) && t !in w.server.threads
    ensures Moved(w, queueID, Ask(t, now, limit, forget, true)).bot.delivered
            == w.bot.delivered + Delivery.Answer(QueueOf(w.server, queueID), w.bot.last, now, limit)
  {
    hide Safe, Delivery.Answer, History, Plain, QueueOf, Confirming;
    PlainAnswer(QueueOf(w.server, queueID), w.bot.last, now, limit);
  }
}
