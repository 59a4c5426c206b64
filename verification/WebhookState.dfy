/** The two small machines of internal/client/webhook_handlers.go: one setWebhook at a time
    and not more than one a second, and the warnings about pending updates. Times are
    milliseconds. */
module WebhookState {
  import opened Bytes

  const SET_GAP := 1000
  const WARNING_DELAY := 30000
  const MIN_PENDING := 200

  datatype Report = Warning(now: int, pending: int) | AllClear(now: int)

  /** The fields, and beside them what has happened: which calls run, when calls were let
      in, what was reported, and when the last success or warning was. */
  datatype Hook = Hook(
    busy: bool, nextSet: int, warned: bool, nextWarning: int, clock: int,
    running: nat, accepted: seq<int>, reports: seq<Report>, marked: Option<int>)

  datatype Action = Begin(now: int) | End | Delivered(now: int) | Failed(now: int, pending: int)

  const START := Hook(false, 0, false, 0, 0, 0, [], [], None)

  function LetIn(h: Hook, now: int): Hook {
    if h.busy || now < h.nextSet then h
    else h.(busy := true, nextSet := now + SET_GAP, running := h.running + 1, accepted := h.accepted + [now])
  }

  function Finish(h: Hook): Hook
    requires h.running > 0
  {
    h.(busy := false, running := h.running - 1)
  }

  function Success(h: Hook, now: int): Hook {
    h.(nextWarning := now + WARNING_DELAY, warned := false, marked := Some(now),
       reports := if h.warned then h.reports + [AllClear(now)] else h.reports)
  }

  function Failure(h: Hook, now: int, pending: int): Hook {
    if pending < MIN_PENDING || now < h.nextWarning then h
    else h.(nextWarning := now + WARNING_DELAY, warned := true, marked := Some(now),
            reports := h.reports + [Warning(now, pending)])
  }

  /** Delivery reports take their time under the lock, so there it does not go back; a
      setWebhook call takes it before. Only a running call ends. */
  predicate Enabled(h: Hook, a: Action) {
    match a
    case Begin(_) => true
    case End => h.running > 0
    case Delivered(now) => now >= h.clock
    case Failed(now, _) => now >= h.clock
  }

  function Apply(h: Hook, a: Action): Hook
    requires Enabled(h, a)
  {
    match a
    case Begin(now) => LetIn(h, now)
    case End => Finish(h)
    case Delivered(now) => Success(h, now).(clock := now)
    case Failed(now, pending) => Failure(h, now, pending).(clock := now)
  }

  function Run(actions: seq<Action>): Hook {
    if actions == [] then START
    else
      var h, a := Run(actions[..|actions| - 1]), actions[|actions| - 1];
      if Enabled(h, a) then Apply(h, a) else h
  }

  // ---------- what every run keeps ----------

  predicate OneAtATime(h: Hook) { h.running == if h.busy then 1 else 0 }

  /** When the next call may come: a second after the last one that was let in. */
  function NextCall(h: Hook): int { if h.accepted == [] then 0 else h.accepted[|h.accepted| - 1] + 1000 }

  /** When the next warning may come: half a minute after the last success or warning. */
  function NextMark(h: Hook): int { if h.marked.None? then 0 else h.marked.value + 30_000 }

  predicate CallsSpaced(h: Hook) {
    && (forall i, j :: 0 <= i < j < |h.accepted| ==> h.accepted[j] >= h.accepted[i] + 1000)
    && h.nextSet == NextCall(h)
  }

  /** A warning comes at least thirty seconds after every earlier report. */
  predicate WarningsSpaced(h: Hook) {
    && (forall i, j :: 0 <= i < j < |h.reports| && h.reports[j].Warning? ==>
          h.reports[j].now >= h.reports[i].now + 30_000)
    && (forall i :: 0 <= i < |h.reports| ==> h.nextWarning >= h.reports[i].now + 30_000)
    && (forall i :: 0 <= i < |h.reports| && h.reports[i].Warning? ==> h.reports[i].pending >= 200)
    && h.nextWarning == NextMark(h) <= h.clock + 30_000 && h.clock >= 0
  }

  /** The all-clear answers a warning: it follows one directly, and the flag says whether
      the last report is one still unanswered. */
  predicate Answered(h: Hook) {
    && (h.warned <==> h.reports != [] && h.reports[|h.reports| - 1].Warning?)
    && (forall i :: 0 <= i < |h.reports| && h.reports[i].AllClear? ==> i > 0 && h.reports[i - 1].Warning?)
  }

  predicate Inv(h: Hook) { OneAtATime(h) && CallsSpaced(h) && WarningsSpaced(h) && Answered(h) }

  lemma LetInSafe(h: Hook, now: int)
    requires Inv(h)
    ensures Inv(LetIn(h, now))
  {
  }

  lemma SuccessSafe(h: Hook, now: int)
    requires Inv(h) && now >= h.clock
    ensures Inv(Success(h, now).(clock := now))
  {
  }

  lemma FailureSafe(h: Hook, now: int, pending: int)
    requires Inv(h) && now >= h.clock
    ensures Inv(Failure(h, now, pending).(clock := now))
  {
  }

  lemma StepSafe(h: Hook, a: Action)
    requires Inv(h) && Enabled(h, a)
    ensures Inv(Apply(h, a))
  {
    hide LetIn, Success, Failure;
    match a
    case Begin(now) => LetInSafe(h, now);
    case End =>
    case Delivered(now) => SuccessSafe(h, now);
    case Failed(now, pending) => FailureSafe(h, now, pending);
  }

  lemma {:induction false} EveryRun(actions: seq<Action>)
    ensures Inv(Run(actions))
  {
    if actions != [] {
      EveryRun(actions[..|actions| - 1]);
      var h, a := Run(actions[..|actions| - 1]), actions[|actions| - 1];
      if Enabled(h, a) { StepSafe(h, a); }
    }
  }

  /** After any run, a call is let in if and only if none is running and a second has passed
      since the last one that was; otherwise nothing changes. */
  lemma LetInIff(actions: seq<Action>, now: int)
    ensures var h := Run(actions);
            if h.running == 0 && now >= NextCall(h)
            then LetIn(h, now).accepted == h.accepted + [now] && LetIn(h, now).running == 1
            else LetIn(h, now) == h
  {
    EveryRun(actions);
  }

  /** After any run, a failure is reported if and only if 200 updates or more are pending and
      half a minute has passed since the last success or warning; a success is if and only if
      the last report is a warning. */
  lemma ReportedIff(actions: seq<Action>, now: int, pending: int)
    ensures var h := Run(actions);
            && Failure(h, now, pending).reports
               == h.reports + (if pending >= 200 && now >= NextMark(h) then [Warning(now, pending)] else [])
            && Success(h, now).reports
               == h.reports + if h.reports != [] && h.reports[|h.reports| - 1].Warning? then [AllClear(now)] else []
  {
    EveryRun(actions);
    var h := Run(actions);
    assert h.reports + [] == h.reports;
  }

  // ---------- the fields ----------

  class Client {
    var webhookSetBusy: bool
    var nextSetWebhook: int
    var wasBotUpdatesWarning: bool
    var nextBotUpdatesWarningTime: int

    constructor ()
      ensures !webhookSetBusy && nextSetWebhook == 0 && !wasBotUpdatesWarning && nextBotUpdatesWarningTime == 0
    {
      webhookSetBusy, nextSetWebhook, wasBotUpdatesWarning, nextBotUpdatesWarningTime := false, 0, false, 0;
    }

    /** The fields of a machine state. */
    predicate Shows(h: Hook)
      reads this
    {
      && webhookSetBusy == h.busy && nextSetWebhook == h.nextSet
      && wasBotUpdatesWarning == h.warned && nextBotUpdatesWarningTime == h.nextWarning
    }

    /** The head of setWebhook: false is "Too Many Requests: retry after 1". */
    method BeginSetWebhook(now: int, ghost h: Hook) returns (ok: bool)
      requires Shows(h)
      modifies this
      ensures Shows(LetIn(h, now)) && ok == (LetIn(h, now).accepted != h.accepted)
      ensures ok <==> !old(webhookSetBusy) && now >= old(nextSetWebhook)
    {
      if webhookSetBusy { return false; }
      if now < nextSetWebhook { return false; }
      webhookSetBusy := true;
      nextSetWebhook := now + SET_GAP;
      assert LetIn(h, now).accepted[|h.accepted|..] == [now];
      ok := true;
    }

    /** The deferred end of a call that was let in. */
    method EndSetWebhook(ghost h: Hook)
      requires Shows(h) && h.running > 0
      modifies this`webhookSetBusy
      ensures Shows(Finish(h))
    {
      webhookSetBusy := false;
    }

    /** handleWebhookDeliveryStatus, up to the report it sends. */
    method DeliveryStatus(success: bool, pending: int, now: int, ghost h: Hook) returns (report: Option<Report>)
      requires Shows(h)
      modifies this
      ensures var h' := if success then Success(h, now) else Failure(h, now, pending);
              Shows(h') && h'.reports == h.reports + if report.Some? then [report.value] else []
    {
      report := None;
      if success {
        nextBotUpdatesWarningTime := now + WARNING_DELAY;
        if !wasBotUpdatesWarning { return; }
        wasBotUpdatesWarning := false;
        return Some(AllClear(now));
      }
      if pending < MIN_PENDING || now < nextBotUpdatesWarningTime { return; }
      nextBotUpdatesWarningTime := now + WARNING_DELAY;
      wasBotUpdatesWarning := true;
      report := Some(Warning(now, pending));
    }
  }
}
