/** Long-poll coordination of one bot (internal/client/getupdates.go, lines 110-225, and the
    long-poll abort of setWebhook): a registered-poller slot, a one-place conflict channel
    for each poller, and cleanup in two steps. Every critical section is one step; steps of
    different calls come in any order. Times are milliseconds. */
module LongPoll {
  import opened Bytes

  type PollerID = nat

  const CONFLICT_GAP := 3000

  /** Polling: in the fetch and wait loop. Leaving: out of the loop, before its deferred
      cleanup. Cancelled: its context is cancelled, the slot not yet looked at. */
  datatype Phase = Polling | Leaving | Cancelled | Done

  /** channel holds the delay of a conflict that was sent and not yet received. */
  datatype Poller = Poller(phase: Phase, channel: Option<int>, cancelled: bool)

  /** undelayed: when conflicts that were not delayed were raised. */
  datatype State = State(
    cancel: Option<PollerID>,
    conflict: Option<PollerID>,
    pollers: map<PollerID, Poller>,
    nextConflict: int,
    undelayed: seq<int>)

  const START := State(None, None, map[], 0, [])

  datatype Action =
    | Register(p: PollerID, now: int)   // getUpdates with a timeout
    | SetWebhook(now: int)              // its abort of a long poll
    | Receive(p: PollerID)              // the poller takes the conflict
    | SeeCancel(p: PollerID)            // its context is done
    | Leave(p: PollerID)                // updates, an error, or the deadline
    | CancelOwn(p: PollerID)            // first step of the cleanup
    | Unregister(p: PollerID)           // second step, under the lock

  // ---------- steps ----------

  /** A conflict into the channel if there is room, else the poller's context is cancelled. */
  function Signal(p: Poller, after: int): Poller {
    if p.channel.None? then p.(channel := Some(after)) else p.(cancelled := true)
  }

  function After(now: int, nextConflict: int): int { if now < nextConflict then CONFLICT_GAP else 0 }

  function NextConflict(now: int, nextConflict: int): int {
    if now < nextConflict then nextConflict else now + CONFLICT_GAP
  }

  /** abortLongPollLocked */
  function Abort(s: State, now: int): State
    requires s.cancel.Some? ==> s.cancel.value in s.pollers && (s.conflict.Some? ==> s.conflict.value in s.pollers)
  {
    if s.cancel.None? then s
    else
      var after := After(now, s.nextConflict);
      var s1 := s.(nextConflict := NextConflict(now, s.nextConflict),
                   undelayed := if after == 0 then s.undelayed + [now] else s.undelayed);
      if s.conflict.Some? && s.pollers[s.conflict.value].channel.None? then
        s1.(pollers := s.pollers[s.conflict.value := s.pollers[s.conflict.value].(channel := Some(after))])
      else
        s1.(pollers := s.pollers[s.cancel.value := s.pollers[s.cancel.value].(cancelled := true)])
  }

  predicate InPhase(s: State, p: PollerID, phase: Phase) { p in s.pollers && s.pollers[p].phase == phase }

  predicate Enabled(s: State, a: Action) {
    match a
    case Register(p, now) => p !in s.pollers
    case SetWebhook(now) => true
    case Receive(p) => InPhase(s, p, Polling) && s.pollers[p].channel.Some?
    case SeeCancel(p) => InPhase(s, p, Polling) && s.pollers[p].cancelled
    case Leave(p) => InPhase(s, p, Polling)
    case CancelOwn(p) => InPhase(s, p, Leaving)
    case Unregister(p) => InPhase(s, p, Cancelled)
  }

  function Move(s: State, p: PollerID, phase: Phase): State
    requires p in s.pollers
  {
    s.(pollers := s.pollers[p := s.pollers[p].(phase := phase)])
  }

  function Apply(s: State, a: Action): State
    requires Inv(s) && Enabled(s, a)
  {
    match a
    case Register(p, now) =>
      var s1 := Abort(s, now);
      s1.(cancel := Some(p), conflict := Some(p), pollers := s1.pollers[p := Poller(Polling, None, false)])
    case SetWebhook(now) => Abort(s, now)
    case Receive(p) => s.(pollers := s.pollers[p := s.pollers[p].(phase := Leaving, channel := None)])
    case SeeCancel(p) => Move(s, p, Leaving)
    case Leave(p) => Move(s, p, Leaving)
    case CancelOwn(p) => s.(pollers := s.pollers[p := s.pollers[p].(phase := Cancelled, cancelled := true)])
    case Unregister(p) =>
      var s1 := Move(s, p, Done);
      if s.conflict == Some(p) then s1.(cancel := None, conflict := None) else s1
  }

  // ---------- invariants ----------

  /** Both slots are empty or hold the same poller, which has not finished. */
  predicate SlotsAgree(s: State) {
    s.cancel == s.conflict && (s.cancel.Some? ==>
          s.cancel.value in s.pollers && s.pollers[s.cancel.value].phase != Done)
  }

  predicate Signalled(p: Poller) { p.channel.Some? || p.cancelled }

  /** A long poll that is not in the slot has been told to end. */
  predicate OthersSignalled(s: State) {
    forall p :: p in s.pollers && s.pollers[p].phase == Polling && s.cancel != Some(p) ==> Signalled(s.pollers[p])
  }

  /** When the next conflict goes undelayed: three seconds after the last one that did. */
  function NextUndelayed(s: State): int {
    if s.undelayed == [] then 0 else s.undelayed[|s.undelayed| - 1] + 3000
  }

  /** Conflicts without delay are three seconds apart. */
  predicate Spaced(s: State) {
    && (forall i, j :: 0 <= i < j < |s.undelayed| ==> s.undelayed[j] >= s.undelayed[i] + 3000)
    && s.nextConflict == NextUndelayed(s)
  }

  predicate Inv(s: State) { SlotsAgree(s) && OthersSignalled(s) && Spaced(s) }

  lemma AbortSafe(s: State, now: int)
    requires Inv(s)
    ensures Inv(Abort(s, now))
    ensures var s' := Abort(s, now);
            && s'.cancel == s.cancel && s'.conflict == s.conflict && s'.pollers.Keys == s.pollers.Keys
            && (s.cancel.Some? ==>
                    s'.pollers[s.cancel.value] == Signal(s.pollers[s.cancel.value], After(now, s.nextConflict)))
            && (forall p :: p in s.pollers && s.cancel != Some(p) ==> s'.pollers[p] == s.pollers[p])
  {
  }

  lemma RegisterSafe(s: State, p: PollerID, now: int)
    requires Inv(s) && p !in s.pollers
    ensures Inv(Apply(s, Register(p, now)))
  {
    AbortSafe(s, now);
    hide Abort;
  }

  lemma UnregisterSafe(s: State, p: PollerID)
    requires Inv(s) && InPhase(s, p, Cancelled)
    ensures Inv(Apply(s, Unregister(p)))
  {
  }

  lemma OwnStepSafe(s: State, a: Action)
    requires Inv(s) && Enabled(s, a) && (a.Receive? || a.SeeCancel? || a.Leave? || a.CancelOwn?)
    ensures Inv(Apply(s, a))
  {
  }

  lemma StepSafe(s: State, a: Action)
    requires Inv(s) && Enabled(s, a)
    ensures Inv(Apply(s, a))
  {
    match a
    case Register(p, now) => RegisterSafe(s, p, now);
    case SetWebhook(now) => AbortSafe(s, now);
    case Unregister(p) => UnregisterSafe(s, p);
    case Receive(_) => OwnStepSafe(s, a);
    case SeeCancel(_) => OwnStepSafe(s, a);
    case Leave(_) => OwnStepSafe(s, a);
    case CancelOwn(_) => OwnStepSafe(s, a);
  }

  /** Any run from the start; steps that cannot happen are skipped. */
  function Run(actions: seq<Action>): (s: State)
    ensures Inv(s)
  {
    if actions == [] then START
    else
      var s, a := Run(actions[..|actions| - 1]), actions[|actions| - 1];
      if Enabled(s, a) then
        StepSafe(s, a);
        Apply(s, a)
      else s
  }

  // ---------- what follows ----------

  predicate Active(s: State, p: PollerID) { InPhase(s, p, Polling) && !Signalled(s.pollers[p]) }

  /** In every reachable state at most one long poll is going on undisturbed; every other
      one can end at once; and the slot is empty once all pollers have finished. */
  lemma OneLongPoll(actions: seq<Action>, p: PollerID, p': PollerID)
    ensures var s := Run(actions);
            && (Active(s, p) ==> s.cancel == Some(p) == s.conflict)
            && (Active(s, p) && Active(s, p') ==> p == p')
            && (InPhase(s, p, Polling) && s.cancel != Some(p) ==> Enabled(s, Receive(p)) || Enabled(s, SeeCancel(p)))
            && ((forall q :: q in s.pollers ==> s.pollers[q].phase == Done) ==> s.cancel == None == s.conflict)
  {
  }

  /** A new long poll is registered and undisturbed, and none is told but the one it replaces. */
  lemma NewPollStarts(s: State, p: PollerID, now: int, q: PollerID)
    requires Inv(s) && p !in s.pollers
    ensures var s' := Apply(s, Register(p, now));
            && Active(s', p) && s'.cancel == Some(p) == s'.conflict
            && (q in s.pollers ==> q in s'.pollers && s'.pollers[q].phase == s.pollers[q].phase)
            && (q in s.pollers && s.cancel != Some(q) ==> s'.pollers[q] == s.pollers[q])
  {
  }

  /** A finishing poller empties the slot only if the slot is its own: a newer poller stays
      registered, and no other poller changes. */
  lemma NewerStaysRegistered(actions: seq<Action>, p: PollerID, q: PollerID)
    requires var s := Run(actions); Enabled(s, Unregister(p)) && q != p && q in s.pollers
    ensures var s, s' := Run(actions), Apply(Run(actions), Unregister(p));
            && (s.cancel == Some(q) ==> s'.cancel == Some(q) == s'.conflict)
            && s'.pollers[q] == s.pollers[q] && s'.cancel != Some(p) && s'.conflict != Some(p)
  {
  }

  /** A registered poller stays registered until it unregisters itself or another one
      registers; setWebhook only signals it. */
  lemma RegisteredUntil(s: State, a: Action, p: PollerID)
    requires Inv(s) && Enabled(s, a) && s.cancel == Some(p)
    requires a != Unregister(p) && !a.Register?
    ensures Apply(s, a).cancel == Some(p) == Apply(s, a).conflict
    ensures a.SetWebhook? ==> Signalled(Apply(s, a).pollers[p])
  {
    if a.SetWebhook? {
      AbortSafe(s, a.now);
      hide Abort;
    }
  }

  /** Undelayed conflicts are at least three seconds apart over any run, whatever the clock. */
  lemma ConflictsSpaced(actions: seq<Action>, i: nat, j: nat)
    requires i < j < |Run(actions).undelayed|
    ensures Run(actions).undelayed[j] - Run(actions).undelayed[i] >= 3000
  {
  }

  /** After any run, aborting a registered poller that has no conflict waiting sends it one,
      without delay if and only if three seconds have passed since the last such one, and
      three seconds late otherwise; with one waiting, its context is cancelled. Without a
      registered poller nothing changes. */
  lemma AbortSends(actions: seq<Action>, now: int)
    ensures var s, s' := Run(actions), Abort(Run(actions), now);
            && (s.cancel.None? ==> s' == s)
            && (s.cancel.Some? ==>
                  var p, p' := s.pollers[s.cancel.value], s'.pollers[s.cancel.value];
                  && s'.undelayed == s.undelayed + (if now >= NextUndelayed(s) then [now] else [])
                  && (p.channel.None? ==> p' == p.(channel := Some(if now >= NextUndelayed(s) then 0 else 3000)))
                  && (p.channel.Some? ==> p' == p.(cancelled := true)))
  {
    var s := Run(actions);
    assert s.undelayed + [] == s.undelayed;
  }

  // ---------- the fields and their critical sections ----------

  class PollerHandle {
    var channel: Option<int>
    var cancelled: bool

    constructor ()
      ensures channel == None && !cancelled
    {
      channel, cancelled := None, false;
    }

    function Value(phase: Phase): Poller
      reads this
    {
      Poller(phase, channel, cancelled)
    }
  }

  /** longPollCancel, longPollConflict and nextGetUpdatesConflictTime. */
  class Coordination {
    var longPollCancel: PollerHandle?
    var longPollConflict: PollerHandle?
    var nextConflictTime: int

    constructor ()
      ensures Valid() && longPollCancel == null && nextConflictTime == 0
    {
      longPollCancel, longPollConflict, nextConflictTime := null, null, 0;
    }

    predicate Valid()
      reads this
    {
      longPollCancel == longPollConflict
    }

    method AbortLongPollLocked(now: int)
      requires Valid()
      modifies this`nextConflictTime, longPollConflict
      ensures Valid() && longPollCancel == old(longPollCancel)
      ensures longPollCancel == null ==> nextConflictTime == old(nextConflictTime)
      ensures longPollCancel != null ==>
                nextConflictTime == NextConflict(now, old(nextConflictTime))
                && longPollCancel.Value(Polling)
                    == Signal(old(longPollCancel.Value(Polling)), After(now, old(nextConflictTime)))
    {
      if longPollCancel == null { return; }
      var after := 0;
      if now < nextConflictTime {
        after := CONFLICT_GAP;
      } else {
        nextConflictTime := now + CONFLICT_GAP;
      }
      var sent := false;
      if longPollConflict != null {
        if longPollConflict.channel.None? {
          longPollConflict.channel := Some(after);
          sent := true;
        }
      }
      if !sent { longPollCancel.cancelled := true; }
    }

    /** getUpdates with a timeout: abort the poll in the slot, then take the slot. */
    method Register(now: int) returns (p: PollerHandle)
      requires Valid()
      modifies this, longPollConflict
      ensures Valid() && fresh(p) && longPollCancel == p && p.Value(Polling) == Poller(Polling, None, false)
      ensures nextConflictTime ==
              if old(longPollCancel) == null then old(nextConflictTime) else NextConflict(now, old(nextConflictTime))
      ensures old(longPollCancel) != null ==>
                old(longPollCancel).Value(Polling)
                == Signal(old(longPollCancel.Value(Polling)), After(now, old(nextConflictTime)))
    {
      if longPollCancel != null { AbortLongPollLocked(now); }
      p := new PollerHandle();
      longPollCancel, longPollConflict := p, p;
    }

    /** The locked half of the deferred cleanup. */
    method Unregister(p: PollerHandle)
      requires Valid()
      modifies this`longPollCancel, this`longPollConflict
      ensures Valid() && longPollCancel == if old(longPollCancel) == p then null else old(longPollCancel)
    {
      if longPollConflict == p { longPollCancel, longPollConflict := null, null; }
    }
  }
}
