/** A run in which the polling bot loses an update: everything it was sent is confirmed and
    deleted, the server restarts, and the next update is given an id the bot has had. */
module BotLoss {
  import opened Bytes
  import opened QueueSpec
  import opened QueueProtocol
  import opened QueueSafety
  import opened QueueRestart
  import opened BotProtocol
  import Delivery
  import DeliveryProgress

  function Serves(acts: seq<Action>): (moves: seq<Move>)
    ensures |moves| == |acts|
  {
    if acts == [] then [] else Serves(acts[..|acts| - 1]) + [Serve(acts[|acts| - 1])]
  }

  lemma SafeSound(s: Server)
    requires Safe(s)
    ensures Sound(s)
  {
    forall l | l in s.rows ensures 0 < s.rows[l].id <= MAX_ID {
      assert RowInRange(s, s.rows[l]) && ValidQueue(s.queues[s.rows[l].queueID]);
    }
    forall t | t in s.threads && InFlight(s.threads[t]) ensures 0 < s.threads[t].id <= MAX_ID {
      assert OwnRecord(s, s.threads[t]) && ValidQueue(s.queues[s.threads[t].queueID]);
    }
  }

  lemma RunSnoc(w: World, queueID: QueueID, moves: seq<Move>, m: Move)
    requires Coupled(w, queueID)
    ensures RunFromWorld(w, queueID, moves + [m]) == Moved(RunFromWorld(w, queueID, moves), queueID, m)
  {
    hide Coupled, Moved;
    assert (moves + [m])[..|moves + [m]| - 1] == moves;
  }

  lemma {:induction false} RunJoin(w: World, queueID: QueueID, a: seq<Move>, b: seq<Move>)
    requires Coupled(w, queueID)
    ensures RunFromWorld(w, queueID, a + b) == RunFromWorld(RunFromWorld(w, queueID, a), queueID, b)
  {
    hide Coupled, Moved;
    if b == [] {
      assert a + b == a;
    } else {
      RunJoin(w, queueID, a, b[..|b| - 1]);
      assert (a + b)[..|a + b| - 1] == a + b[..|b| - 1];
    }
  }

  lemma ServeOnly(w: World, queueID: QueueID, a: Action)
    requires Coupled(w, queueID)
    ensures var w' := Moved(w, queueID, Serve(a));
            && w'.server == Apply(w.server, a)
            && w'.bot.last == w.bot.last && w'.bot.delivered == w.bot.delivered && (w.bot.fellBack ==> w'.bot.fellBack)
  {
    hide Safe, Delivery.Inv, Apply, History, Plain, QueueOf, DoCrash, Gone;
    FallsBackIff(w, queueID, Serve(a));
  }

  /** The server's own steps take the server where they take it alone, and give the bot
      nothing. */
  lemma {:induction false} ServesRun(w: World, queueID: QueueID, acts: seq<Action>)
    requires Coupled(w, queueID) && Sound(w.server)
    ensures var w' := RunFromWorld(w, queueID, Serves(acts));
            && w'.server == RunFrom(w.server, acts)
            && w'.bot.last == w.bot.last && w'.bot.delivered == w.bot.delivered && (w.bot.fellBack ==> w'.bot.fellBack)
  {
    hide Coupled, Moved, Sound, Apply;
    if acts == [] {
      RunNothing(w.server);
    } else {
      ServesRun(w, queueID, acts[..|acts| - 1]);
      var front := RunFromWorld(w, queueID, Serves(acts[..|acts| - 1]));
      RunSnoc(w, queueID, Serves(acts[..|acts| - 1]), Serve(acts[|acts| - 1]));
      ServeOnly(front, queueID, acts[|acts| - 1]);
    }
  }

  // ---------- answers from a queue of one event ----------

  lemma OneAnswer(id: EventID, c: Content, logID: LogID, last: EventID, now: int)
    requires last < id && Unexpired(c, now) && !DeliveryProgress.Oversized(c)
    ensures Delivery.Answer(Alone(id, c, logID), last, now, 0) == [Update(id, c)]
  {
    var q := Alone(id, c, logID);
    assert Eligible(q, last, now) == {id};
    DeliveryProgress.EmptyAnswer(q, last, now, 0);
    Delivery.AnswerIsPrefix(q, last, now, 0);
    var ids := SortedIds({id});
    assert |ids| == 1 && ids[0] in ids;
  }

  lemma NoAnswer(id: EventID, c: Content, logID: LogID, now: int)
    ensures Delivery.Answer(Alone(id, c, logID), id, now, 0) == []
  {
    assert Eligible(Alone(id, c, logID), id, now) == {};
    DeliveryProgress.EmptyAnswer(Alone(id, c, logID), id, now, 0);
  }

  /** What a fetch with offset last + 1 does to a queue of one event with that id. */
  lemma ConfirmingOne(w: World, queueID: QueueID, id: EventID, c: Content, logID: LogID, now: int)
    requires Coupled(w, queueID) && w.server.threads == map[] && w.bot.last == id > 0 && logID != 0
    requires queueID in w.server.queues && w.server.queues[queueID] == Alone(id, c, logID)
    ensures var w' := Moved(w, queueID, Ask(0, now, 0, true, true));
            && w'.server == At(w.server, queueID, Emptied(id), Popping({logID}))
            && w'.bot.last == id && w'.bot.delivered == w.bot.delivered && (w.bot.fellBack ==> w'.bot.fellBack)
  {
    hide Safe, Sound, Delivery.Inv, Delivery.Answer, Apply, History, Plain, Alone, Emptied;
    SafeSound(w.server);
    var begun := Apply(w.server, BeginRemove(0, queueID, RemoveUpTo(id)));
    BeganRemoval(w.server, queueID, id);
    SoundStep(w.server, BeginRemove(0, queueID, RemoveUpTo(id)));
    RemovedAll(begun, queueID, id, c, logID);
    AskAnswers(w, queueID, 0, now, 0, true);
    FallsBackIff(w, queueID, Ask(0, now, 0, true, true));
    NoAnswer(id, c, logID, now);
    PlainAnswer(w.server.queues[queueID], id, now, 0);
    assert w.bot.delivered + [] == w.bot.delivered;
  }

  // ---------- the run ----------

  /** One update pushed, delivered, confirmed and deleted. */
  function EmptiedByBot(queueID: QueueID, c: Content, now: int): seq<Move> {
    (Serves(PushSteps(queueID, c)) + [Ask(0, now, 0, true, true)]) + [Ask(0, now, 0, true, true)]
    + Serves([PopRow(0, 1, true), EndPops(0)])
  }

  /** Then a restart, and the next update pushed and stored. */
  function PushedAfterRestart(queueID: QueueID, c: Content, d: Content, now: int): seq<Move> {
    (EmptiedByBot(queueID, c, now) + [Serve(Crash)]) + Serves(PushSteps(queueID, d))
  }

  lemma DeliveredOnce(queueID: QueueID, c: Content, now: int)
    requires Unexpired(c, now) && !DeliveryProgress.Oversized(c)
    ensures var w := RunWorld(queueID, Serves(PushSteps(queueID, c)) + [Ask(0, now, 0, true, true)]);
            && w.server == Server(map[queueID := Alone(1, c, 1)], map[], map[1 := Row(queueID, 1, c)], 2, {}, 0)
            && w.bot.last == 1 && w.bot.delivered == [Update(1, c)]
  {
    hide Coupled, Sound, Apply, Alone, Delivery.Answer, Shadow, Plain, PushSteps, RunFrom;
    StartCoupled(queueID);
    var start := World(Init(), Delivery.Init());
    SoundInit();
    ServesRun(start, queueID, PushSteps(queueID, c));
    PushedOnce(Init(), queueID, 0, c);
    var w := RunFromWorld(start, queueID, Serves(PushSteps(queueID, c)));
    RunSnoc(start, queueID, Serves(PushSteps(queueID, c)), Ask(0, now, 0, true, true));
    AskAnswers(w, queueID, 0, now, 0, true);
    OneAnswer(1, c, 1, 0, now);
    AskedFirst(w, queueID, now);
  }

  lemma SoundInit()
    ensures Sound(Init())
  {
  }

  /** A bot without an offset confirms nothing and moves to the last id it is given. */
  lemma AskedFirst(w: World, queueID: QueueID, now: int)
    requires Coupled(w, queueID) && w.server.threads == map[] && w.bot.last == 0 && w.bot.delivered == []
    ensures var w' := Moved(w, queueID, Ask(0, now, 0, true, true));
            && w'.server == w.server
            && w'.bot.last == (if w'.bot.delivered == [] then 0 else w'.bot.delivered[|w'.bot.delivered| - 1].id)
  {
    hide Safe, Delivery.Inv, Delivery.Answer, History, Plain, QueueOf, Apply;
  }

  lemma AllConfirmed(queueID: QueueID, c: Content, now: int)
    requires Unexpired(c, now) && !DeliveryProgress.Oversized(c)
    ensures var w := RunWorld(queueID, EmptiedByBot(queueID, c, now));
            && w.server == Server(map[queueID := Emptied(1)], map[], map[], 2, {}, 0)
            && w.bot.last == 1 && w.bot.delivered == [Update(1, c)]
  {
    hide Coupled, Sound, Safe, Apply, Alone, Emptied, Moved, RunFromWorld, PushSteps, RunFrom, ValidQueues, Serves;
    StartCoupled(queueID);
    var start := World(Init(), Delivery.Init());
    var first := Serves(PushSteps(queueID, c)) + [Ask(0, now, 0, true, true)];
    DeliveredOnce(queueID, c, now);
    var w := RunFromWorld(start, queueID, first);
    RunSnoc(start, queueID, first, Ask(0, now, 0, true, true));
    ConfirmingOne(w, queueID, 1, c, 1, now);
    var confirmed := RunFromWorld(start, queueID, first + [Ask(0, now, 0, true, true)]);
    RunJoin(start, queueID, first + [Ask(0, now, 0, true, true)], Serves([PopRow(0, 1, true), EndPops(0)]));
    CoupledSound(confirmed, queueID);
    ServesRun(confirmed, queueID, [PopRow(0, 1, true), EndPops(0)]);
    PoppedAndEnded(confirmed.server, 1);
    assert map[1 := Row(queueID, 1, c)] - {1} == map[];
  }

  lemma CoupledSound(w: World, queueID: QueueID)
    requires Coupled(w, queueID)
    ensures Safe(w.server) && Sound(w.server)
  {
    SafeSound(w.server);
  }

  lemma PoppedAndEnded(s: Server, logID: LogID)
    requires Sound(s) && s.threads == map[0 := Popping({logID})]
    ensures RunFrom(s, [PopRow(0, logID, true), EndPops(0)]) == s.(rows := s.rows - {logID}, threads := map[])
  {
    hide Sound, Apply;
    RunNothing(s);
    RunFromSnoc(s, [], PopRow(0, logID, true));
    RunFromSnoc(s, [PopRow(0, logID, true)], EndPops(0));
    assert [] + [PopRow(0, logID, true)] == [PopRow(0, logID, true)];
    assert [PopRow(0, logID, true)] + [EndPops(0)] == [PopRow(0, logID, true), EndPops(0)];
    Popped(s, logID);
    Ended(RunFrom(s, [PopRow(0, logID, true)]));
  }

  lemma NothingReplayed(s: Server)
    requires ValidQueues(s) && s.rows == map[]
    ensures Apply(s, Crash) == s.(queues := map[], threads := map[], failed := {})
  {
    assert SortedIds(s.rows.Keys) == [];
  }

  lemma NextPushed(queueID: QueueID, c: Content, d: Content, now: int)
    requires Unexpired(c, now) && !DeliveryProgress.Oversized(c)
    ensures var w := RunWorld(queueID, PushedAfterRestart(queueID, c, d, now));
            && w.server == Server(map[queueID := Alone(1, d, 2)], map[], map[2 := Row(queueID, 1, d)], 3, {}, 0)
            && w.bot.last == 1 && w.bot.delivered == [Update(1, c)] && w.bot.fellBack
  {
    hide Coupled, Sound, Safe, Apply, Alone, Emptied, Moved, RunFromWorld, PushSteps, RunFrom, Serves, EmptiedByBot;
    hide ValidQueue;
    StartCoupled(queueID);
    var start := World(Init(), Delivery.Init());
    AllConfirmed(queueID, c, now);
    var w := RunFromWorld(start, queueID, EmptiedByBot(queueID, c, now));
    RunSnoc(start, queueID, EmptiedByBot(queueID, c, now), Serve(Crash));
    CoupledSound(w, queueID);
    ServeOnly(w, queueID, Crash);
    FallsBackIff(w, queueID, Serve(Crash));
    NothingReplayed(w.server);
    var up := RunFromWorld(start, queueID, EmptiedByBot(queueID, c, now) + [Serve(Crash)]);
    CoupledSound(up, queueID);
    RunJoin(start, queueID, EmptiedByBot(queueID, c, now) + [Serve(Crash)], Serves(PushSteps(queueID, d)));
    ServesRun(up, queueID, PushSteps(queueID, d));
    PushedOnce(up.server, queueID, 0, d);
  }

  /** The update pushed after the restart is live, stored and unread until the bot's next
      fetch, which forgets it, as Delivery.FirstAfterRestart says, and brings nothing. */
  lemma LostAfterRestart(queueID: QueueID, c: Content, d: Content, now: int)
    requires Unexpired(c, now) && !DeliveryProgress.Oversized(c)
    ensures var w := RunWorld(queueID, PushedAfterRestart(queueID, c, d, now));
            && w.server.queues == map[queueID := Alone(1, d, 2)] && w.server.rows == map[2 := Row(queueID, 1, d)]
            && w.bot.delivered == [Update(1, c)]
    ensures var w := RunWorld(queueID, PushedAfterRestart(queueID, c, d, now) + [Ask(0, now, 0, true, true)]);
            && w.server.queues == map[queueID := Emptied(1)] && w.server.threads == map[0 := Popping({2})]
            && w.bot.delivered == [Update(1, c)] && w.bot.fellBack
  {
    hide Coupled, Sound, Safe, Alone, Emptied, Moved, RunFromWorld, PushedAfterRestart;
    StartCoupled(queueID);
    var start := World(Init(), Delivery.Init());
    NextPushed(queueID, c, d, now);
    var w := RunFromWorld(start, queueID, PushedAfterRestart(queueID, c, d, now));
    RunSnoc(start, queueID, PushedAfterRestart(queueID, c, d, now), Ask(0, now, 0, true, true));
    ConfirmingOne(w, queueID, 1, d, 2, now);
  }
}
