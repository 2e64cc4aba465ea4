/**
  Starting and losing the Core (shell/app/src/core.rs): the thread that runs `start_with`, the reader
  thread, and any number of `shutdown` calls, sharing one atomic life state and the mutex on the child.

  A state holds the shared memory and every thread's position; an event is one atomic action of one
  thread. The atomics are sequentially consistent, so the runs below are all the interleavings.
 */
module CoreLife {
  datatype Life = STARTING | LOST_EARLY | RUNNING | STOPPING

  /** Where `start_with` is: waiting for `ready`, about to accept, failing, reaping the child, returned. */
  datatype Starter = Waiting | Accepting | Failing | ToReap | Reaping | ReturnedErr | ReturnedOk

  /** Where the reader thread is: reading, about to kill the child, deciding, loading the life, calling `on_lost`, returned. */
  datatype Reader = Reading | ToKill | Killing | Deciding | Loading | Calling | Returned

  /** Where one call of `shutdown` is: about to store, about to lock, waiting for the child under the lock, returned. */
  datatype Stop = ToStore | ToLock | Holding | Stopped

  datatype Holder = Nobody | TheStarter | TheReader | TheStop(i: nat)

  /** `failed`: the reader got an error from the Core. `lost`: how often `on_lost` ran. `stored`: a shutdown has stored STOPPING. */
  datatype State = State(life: Life, starter: Starter, reader: Reader, stops: seq<Stop>, holder: Holder, dropped: bool,
                         failed: bool, lost: nat, stored: bool)

  datatype Event =
    | Answer | NoAnswer | Accept | StoreFailed | LockToReap | Reap
    | ReadError | SendRefused | LockToKill | Kill | Decide | Load | CallOnLost
    | CallShutdown | StoreStopping(i: nat) | LockToStop(i: nat) | Release(i: nat) | DropCore

  const INITIAL := State(STARTING, Waiting, Reading, [], Nobody, false, false, 0, false)

  predicate Enabled(s: State, e: Event) {
    match e
    case Answer => s.starter == Waiting
    case NoAnswer => s.starter == Waiting
    case Accept => s.starter == Accepting
    case StoreFailed => s.starter == Failing
    case LockToReap => s.starter == ToReap && s.holder == Nobody
    case Reap => s.starter == Reaping
    case ReadError => s.reader == Reading
    case SendRefused => s.reader == Reading && (s.starter == ReturnedErr || s.dropped)
    case LockToKill => s.reader == ToKill && s.holder == Nobody
    case Kill => s.reader == Killing
    case Decide => s.reader == Deciding
    case Load => s.reader == Loading
    case CallOnLost => s.reader == Calling
    case CallShutdown => s.starter == ReturnedOk && !s.dropped
    case StoreStopping(i) => i < |s.stops| && s.stops[i] == ToStore
    case LockToStop(i) => i < |s.stops| && s.stops[i] == ToLock && s.holder == Nobody
    case Release(i) => i < |s.stops| && s.stops[i] == Holding
    case DropCore => s.starter == ReturnedOk && !s.dropped && forall i :: 0 <= i < |s.stops| ==> s.stops[i] == Stopped
  }

  function Apply(s: State, e: Event): State
    requires Enabled(s, e)
  {
    match e
    case Answer => s.(starter := Accepting)
    case NoAnswer => s.(starter := Failing)
    // compare_exchange(STARTING, RUNNING)
    case Accept => if s.life == STARTING then s.(life := RUNNING, starter := ReturnedOk) else s.(starter := Failing)
    case StoreFailed => s.(life := STOPPING, starter := ToReap)
    case LockToReap => s.(starter := Reaping, holder := TheStarter)
    case Reap => s.(starter := ReturnedErr, holder := Nobody)
    case ReadError => s.(reader := ToKill, failed := true)
    case SendRefused => s.(reader := Returned)
    case LockToKill => s.(reader := Killing, holder := TheReader)
    case Kill => s.(reader := Deciding, holder := Nobody)
    // compare_exchange(STARTING, LOST_EARLY)
    case Decide => if s.life == STARTING then s.(life := LOST_EARLY, reader := Returned) else s.(reader := Loading)
    case Load => s.(reader := if s.life == RUNNING then Calling else Returned)
    case CallOnLost => s.(reader := Returned, lost := s.lost + 1)
    case CallShutdown => s.(stops := s.stops + [ToStore])
    case StoreStopping(i) => s.(life := STOPPING, stops := s.stops[i := ToLock], stored := true)
    case LockToStop(i) => s.(stops := s.stops[i := Holding], holder := TheStop(i))
    case Release(i) => s.(stops := s.stops[i := Stopped], holder := Nobody)
    case DropCore => s.(dropped := true)
  }

  predicate RunEnabled(s: State, events: seq<Event>)
    decreases |events|
  {
    events == [] || (Enabled(s, events[0]) && RunEnabled(Apply(s, events[0]), events[1..]))
  }

  function Run(s: State, events: seq<Event>): State
    requires RunEnabled(s, events)
    decreases |events|
  {
    if events == [] then s else Run(Apply(s, events[0]), events[1..])
  }

  // ---------------------------------------------------------------------------------------
  // What every step keeps

  /** The life state tells how far the starter got. */
  predicate LifeOk(s: State) {
    match s.life
    case STARTING => s.starter in {Waiting, Accepting, Failing} && s.reader in {Reading, ToKill, Killing, Deciding}
    case LOST_EARLY => s.starter in {Waiting, Accepting, Failing} && s.reader == Returned && s.failed
    case RUNNING => s.starter == ReturnedOk && !s.stored
    case STOPPING => s.starter in {ToReap, Reaping, ReturnedErr} || (s.starter == ReturnedOk && s.stored)
  }

  predicate ReaderOk(s: State) {
    && (s.reader == Reading ==> !s.failed)
    && (s.reader in {ToKill, Killing, Deciding, Loading, Calling} ==> s.failed)
    && (s.reader == Loading ==> s.life in {RUNNING, STOPPING})
    && (s.reader == Calling ==> s.starter == ReturnedOk)
    && (s.reader != Returned ==> s.lost == 0)
    && s.lost <= 1
    && (s.lost == 1 ==> s.starter == ReturnedOk && s.failed)
    && (s.reader == Returned && s.failed && s.lost == 0 ==> s.starter != ReturnedOk || s.stored)
  }

  predicate StopsOk(s: State) {
    && (s.stops != [] || s.dropped || s.stored ==> s.starter == ReturnedOk)
    && (s.stored ==> s.life == STOPPING)
    && (forall i :: 0 <= i < |s.stops| && s.stops[i] != ToStore ==> s.stored)
    && (s.dropped ==> forall i :: 0 <= i < |s.stops| ==> s.stops[i] == Stopped)
  }

  predicate HolderOk(s: State) {
    && (s.holder == TheStarter <==> s.starter == Reaping)
    && (s.holder == TheReader <==> s.reader == Killing)
    && (s.holder.TheStop? ==> s.holder.i < |s.stops|)
  }

  predicate StopHolds(s: State, i: nat) { i < |s.stops| ==> (s.stops[i] == Holding <==> s.holder == TheStop(i)) }

  /** The child mutex is held by exactly the thread that is inside it. */
  predicate LockOk(s: State) { HolderOk(s) && forall i :: 0 <= i < |s.stops| ==> StopHolds(s, i) }

  predicate Inv(s: State) { LifeOk(s) && ReaderOk(s) && StopsOk(s) && LockOk(s) }

  lemma StepKeepsInv(s: State, e: Event)
    requires Inv(s) && Enabled(s, e)
    ensures Inv(Apply(s, e))
  {
    StepKeepsStops(s, e);
    StepKeepsLock(s, e);
  }

  lemma StepKeepsStops(s: State, e: Event)
    requires Inv(s) && Enabled(s, e)
    ensures StopsOk(Apply(s, e))
  {
    hide LockOk, ReaderOk;
  }

  lemma StepKeepsLock(s: State, e: Event)
    requires Inv(s) && Enabled(s, e)
    ensures LockOk(Apply(s, e))
  {
    hide StopsOk, ReaderOk, LifeOk, StopHolds;
    if e.Release? { assert StopHolds(s, e.i); }
    forall i | 0 <= i < |Apply(s, e).stops| ensures StopHolds(Apply(s, e), i) {
      if i < |s.stops| { assert StopHolds(s, i); }
      StepKeepsHolds(s, e, i);
    }
    HolderInRange(s, e);
  }

  lemma StepKeepsHolds(s: State, e: Event, i: nat)
    requires HolderOk(s) && Enabled(s, e) && (i < |s.stops| ==> StopHolds(s, i)) && (e.Release? ==> StopHolds(s, e.i))
    ensures StopHolds(Apply(s, e), i)
  {
  }

  lemma HolderInRange(s: State, e: Event)
    requires HolderOk(s) && Enabled(s, e) && (e.Release? ==> StopHolds(s, e.i))
    ensures HolderOk(Apply(s, e))
  {
  }

  lemma {:induction false} RunKeepsInv(s: State, events: seq<Event>)
    requires Inv(s) && RunEnabled(s, events)
    ensures Inv(Run(s, events))
    decreases |events|
  {
    hide Inv;
    if events != [] {
      StepKeepsInv(s, events[0]);
      RunKeepsInv(Apply(s, events[0]), events[1..]);
    }
  }

  // ---------------------------------------------------------------------------------------
  // The lost-Core callback

  /** In every interleaving the callback runs at most once, and never together with an error from `start`. */
  lemma CallbackAtMostOnce(events: seq<Event>)
    requires RunEnabled(INITIAL, events)
    ensures var s := Run(INITIAL, events);
      s.lost <= 1 && (s.starter == ReturnedErr ==> s.lost == 0) && (s.lost == 1 ==> s.starter == ReturnedOk)
  {
    RunKeepsInv(INITIAL, events);
  }

  /** STOPPING is stored and the callback neither ran nor is about to. */
  predicate Silenced(s: State) { s.life == STOPPING && s.stored && s.reader != Calling && s.lost == 0 }

  lemma {:induction false} SilencedForGood(s: State, events: seq<Event>)
    requires Inv(s) && Silenced(s) && RunEnabled(s, events)
    ensures Silenced(Run(s, events))
    decreases |events|
  {
    if events != [] {
      StepKeepsInv(s, events[0]);
      SilencedForGood(Apply(s, events[0]), events[1..]);
    }
  }

  /** Once some shutdown has stored STOPPING and the reader has not passed its load, the callback never runs. */
  lemma NoCallbackAfterShutdown(events: seq<Event>, more: seq<Event>)
    requires RunEnabled(INITIAL, events) && RunEnabled(Run(INITIAL, events), more)
    requires var s := Run(INITIAL, events);
      s.stored && s.reader in {Reading, ToKill, Killing, Deciding, Loading}
    ensures Run(Run(INITIAL, events), more).lost == 0
  {
    RunKeepsInv(INITIAL, events);
    SilencedForGood(Run(INITIAL, events), more);
  }

  /**
    If the reader got an error, nobody called shutdown, and both threads have returned, then the loss was
    reported exactly once: either by the error of `start` or by the callback, never by both or neither.
   */
  lemma ReportedExactlyOnce(events: seq<Event>)
    requires RunEnabled(INITIAL, events)
    requires var s := Run(INITIAL, events);
      s.failed && s.stops == [] && s.reader == Returned && s.starter in {ReturnedErr, ReturnedOk}
    ensures var s := Run(INITIAL, events); s.starter == ReturnedErr <==> s.lost == 0
  {
    RunKeepsInv(INITIAL, events);
    StoredNeedsShutdown(INITIAL, events);
  }

  lemma {:induction false} StoredNeedsShutdown(s: State, events: seq<Event>)
    requires RunEnabled(s, events) && (s.stored ==> s.stops != [])
    ensures Run(s, events).stored ==> Run(s, events).stops != []
    decreases |events|
  {
    if events != [] { StoredNeedsShutdown(Apply(s, events[0]), events[1..]); }
  }

  // ---------------------------------------------------------------------------------------
  // When a start succeeds

  /** The starter accepted before the reader decided that the Core was lost. */
  ghost predicate AcceptedFirst(events: seq<Event>) {
    exists j :: 0 <= j < |events| && events[j] == Accept && Decide !in events[..j]
  }

  /** The reader decided first: the Core sent `ready` and was lost before it was accepted. */
  ghost predicate LostFirst(events: seq<Event>) {
    exists j :: 0 <= j < |events| && events[j] == Accept && Decide in events[..j]
  }

  predicate FailedStart(p: Starter) { p in {Failing, ToReap, Reaping, ReturnedErr} }

  /** A start that has succeeded or failed stays so. */
  lemma {:induction false} OutcomeStays(s: State, events: seq<Event>)
    requires RunEnabled(s, events) && (s.starter == ReturnedOk || FailedStart(s.starter))
    ensures s.starter == ReturnedOk <==> Run(s, events).starter == ReturnedOk
    ensures FailedStart(s.starter) <==> FailedStart(Run(s, events).starter)
    ensures Accept !in events && NoAnswer !in events
    decreases |events|
  {
    if events != [] {
      OutcomeStays(Apply(s, events[0]), events[1..]);
      assert events == [events[0]] + events[1..];
    }
  }

  lemma AcceptAt(events: seq<Event>, j: nat)
    requires events != [] && events[0] != Accept && j < |events| && events[j] == Accept
    ensures j > 0 && events[1..][j - 1] == Accept && events[..j] == [events[0]] + events[1..][..j - 1]
  {
  }

  lemma AcceptedLater(events: seq<Event>)
    requires events != [] && events[0] != Accept
    ensures AcceptedFirst(events) <==> events[0] != Decide && AcceptedFirst(events[1..])
  {
    var tail := events[1..];
    if j :| 0 <= j < |events| && events[j] == Accept && Decide !in events[..j] {
      AcceptAt(events, j);
      assert events[..j][0] == events[0];
    }
    if j :| 0 <= j < |tail| && tail[j] == Accept && Decide !in tail[..j] { AcceptAt(events, j + 1); }
  }

  lemma LostLater(events: seq<Event>)
    requires events != [] && events[0] != Accept
    ensures LostFirst(events) <==> LostFirst(events[1..]) || (events[0] == Decide && Accept in events[1..])
  {
    var tail := events[1..];
    if j :| 0 <= j < |events| && events[j] == Accept && Decide in events[..j] { AcceptAt(events, j); }
    if j :| 0 <= j < |tail| && tail[j] == Accept && Decide in tail[..j] { AcceptAt(events, j + 1); }
    if events[0] == Decide && Accept in tail {
      var j :| 0 <= j < |tail| && tail[j] == Accept;
      assert events[..j + 1][0] == Decide && events[j + 1] == Accept;
    }
  }

  lemma AcceptNow(events: seq<Event>)
    requires events != [] && events[0] == Accept && Accept !in events[1..] && NoAnswer !in events[1..]
    ensures AcceptedFirst(events) && !LostFirst(events) && NoAnswer !in events && Accept in events
  {
    assert events == [events[0]] + events[1..] && events[..0] == [];
  }

  lemma NoAnswerNow(events: seq<Event>)
    requires events != [] && events[0] == NoAnswer && Accept !in events[1..]
    ensures !AcceptedFirst(events) && NoAnswer in events
  {
    assert events == [events[0]] + events[1..];
  }

  /** From a start that is still open, the rest of the run decides it; `lost` says that the reader has decided already. */
  lemma {:induction false} OpenStartDecided(s: State, events: seq<Event>, lost: bool)
    requires Inv(s) && RunEnabled(s, events) && s.starter in {Waiting, Accepting} && (lost <==> s.life != STARTING)
    ensures var p := Run(s, events).starter;
      && (p == ReturnedOk <==> !lost && AcceptedFirst(events))
      && (FailedStart(p) <==> NoAnswer in events || LostFirst(events) || (lost && Accept in events))
    decreases |events|
  {
    if events != [] {
      var e, t := events[0], Apply(s, events[0]);
      StepKeepsInv(s, e);
      OpenStep(s, e, lost);
      hide Inv, AcceptedFirst, LostFirst, Apply, Enabled;
      if e == Accept {
        OutcomeStays(t, events[1..]);
        AcceptNow(events);
      } else if e == NoAnswer {
        OutcomeStays(t, events[1..]);
        NoAnswerNow(events);
      } else {
        AcceptedLater(events);
        LostLater(events);
        assert events == [e] + events[1..];
        OpenStartDecided(t, events[1..], lost || e == Decide);
      }
    }
  }

  lemma OpenStep(s: State, e: Event, lost: bool)
    requires Inv(s) && Enabled(s, e) && s.starter in {Waiting, Accepting} && (lost <==> s.life != STARTING)
    ensures var t := Apply(s, e);
      if e == Accept then t.starter == if lost then Failing else ReturnedOk
      else if e == NoAnswer then t.starter == Failing
      else t.starter in {Waiting, Accepting} && (lost || e == Decide <==> t.life != STARTING)
  {
  }

  /**
    In every interleaving: `start` has succeeded exactly when it accepted before the reader decided that the Core was
    lost, and it has failed exactly when no good answer came or the Core was lost first.
   */
  lemma StartSucceedsExactly(events: seq<Event>)
    requires RunEnabled(INITIAL, events)
    ensures Run(INITIAL, events).starter == ReturnedOk <==> AcceptedFirst(events)
    ensures FailedStart(Run(INITIAL, events).starter) <==> NoAnswer in events || LostFirst(events)
  {
    OpenStartDecided(INITIAL, events, false);
  }

  // ---------------------------------------------------------------------------------------
  // The mutex never stops the threads for good

  predicate Finished(s: State) {
    s.starter in {ReturnedErr, ReturnedOk} && s.reader == Returned && forall i :: 0 <= i < |s.stops| ==> s.stops[i] == Stopped
  }

  /** Some thread that has not returned can take a step. */
  lemma NoDeadlock(events: seq<Event>)
    requires RunEnabled(INITIAL, events) && !Finished(Run(INITIAL, events))
    ensures exists e :: Enabled(Run(INITIAL, events), e) && e != CallShutdown && e != DropCore
  {
    RunKeepsInv(INITIAL, events);
    var s := Run(INITIAL, events);
    var e := Progress(s);
    assert Enabled(s, e);
  }

  /** A step that is possible: first of the thread inside the mutex, otherwise of any thread. */
  function Progress(s: State): (e: Event)
    requires Inv(s) && !Finished(s)
    ensures Enabled(s, e) && e != CallShutdown && e != DropCore
  {
    if s.holder == TheStarter then Reap
    else if s.holder == TheReader then Kill
    else if s.holder.TheStop? then assert StopHolds(s, s.holder.i); Release(s.holder.i)
    else if s.starter == Waiting then NoAnswer
    else if s.starter == Accepting then Accept
    else if s.starter == Failing then StoreFailed
    else if s.starter == ToReap then LockToReap
    else if s.reader == Reading then ReadError
    else if s.reader == ToKill then LockToKill
    else if s.reader == Deciding then Decide
    else if s.reader == Loading then Load
    else if s.reader == Calling then CallOnLost
    else
      var i := FirstRunning(s.stops);
      assert StopHolds(s, i);
      if s.stops[i] == ToStore then StoreStopping(i) else LockToStop(i)
  }

  function FirstRunning(stops: seq<Stop>): (i: nat)
    requires exists k :: 0 <= k < |stops| && stops[k] != Stopped
    ensures i < |stops| && stops[i] != Stopped
  {
    if stops[0] != Stopped then 0 else 1 + FirstRunning(stops[1..])
  }

  function StarterSteps(p: Starter): nat {
    match p
    case Waiting => 5 case Accepting => 4 case Failing => 3 case ToReap => 2 case Reaping => 1 case _ => 0
  }

  function ReaderSteps(p: Reader): nat {
    match p
    case Reading => 6 case ToKill => 5 case Killing => 4 case Deciding => 3 case Loading => 2 case Calling => 1 case Returned => 0
  }

  function StopSteps(p: Stop): nat {
    match p
    case ToStore => 3 case ToLock => 2 case Holding => 1 case Stopped => 0
  }

  function StopsSteps(stops: seq<Stop>): nat { if stops == [] then 0 else StopSteps(stops[0]) + StopsSteps(stops[1..]) }

  function StepsLeft(s: State): nat {
    StarterSteps(s.starter) + ReaderSteps(s.reader) + StopsSteps(s.stops) + if s.dropped then 0 else 1
  }

  lemma {:induction false} StopsStepsUpdate(stops: seq<Stop>, i: nat, p: Stop)
    requires i < |stops|
    ensures StopsSteps(stops[i := p]) == StopsSteps(stops) - StopSteps(stops[i]) + StopSteps(p)
  {
    if i > 0 {
      StopsStepsUpdate(stops[1..], i - 1, p);
      assert stops[i := p][1..] == stops[1..][i - 1 := p];
    } else {
      assert stops[0 := p][1..] == stops[1..];
    }
  }

  lemma {:induction false} StopsStepsSnoc(stops: seq<Stop>, p: Stop)
    ensures StopsSteps(stops + [p]) == StopsSteps(stops) + StopSteps(p)
  {
    if stops != [] {
      StopsStepsSnoc(stops[1..], p);
      assert (stops + [p])[1..] == stops[1..] + [p];
    } else {
      assert stops + [p] == [p];
    }
  }

  function Calls(events: seq<Event>): nat {
    if events == [] then 0 else (if events[0] == CallShutdown then 1 else 0) + Calls(events[1..])
  }

  lemma StepCounts(s: State, e: Event)
    requires Enabled(s, e)
    ensures if e == CallShutdown then StepsLeft(Apply(s, e)) == StepsLeft(s) + 3 else StepsLeft(Apply(s, e)) < StepsLeft(s)
  {
    hide StopsSteps;
    match e
    case CallShutdown => StopsStepsSnoc(s.stops, ToStore);
    case StoreStopping(i) => StopsStepsUpdate(s.stops, i, ToLock);
    case LockToStop(i) => StopsStepsUpdate(s.stops, i, Holding);
    case Release(i) => StopsStepsUpdate(s.stops, i, Stopped);
    case _ =>
  }

  /** No interleaving goes on for ever: twelve steps, and four more for each call of shutdown. */
  lemma {:induction false} RunsEnd(s: State, events: seq<Event>)
    requires RunEnabled(s, events)
    ensures |events| + StepsLeft(Run(s, events)) <= StepsLeft(s) + 4 * Calls(events)
    decreases |events|
  {
    if events != [] {
      StepCounts(s, events[0]);
      RunsEnd(Apply(s, events[0]), events[1..]);
    }
  }

  /**
    So a run of a start that nobody adds to ends, with every thread returned, and a lost Core reported once.
    The end of the Core's stdout is always a possible step of the reader, so a run in which the Core stays alive is
    not maximal: maximal runs follow the Core to its end.
   */
  lemma EveryMaximalRunReports(events: seq<Event>)
    requires RunEnabled(INITIAL, events)
    requires forall e :: Enabled(Run(INITIAL, events), e) ==> e == CallShutdown || e == DropCore
    ensures |events| <= 12 + 4 * Calls(events) && Finished(Run(INITIAL, events))
    ensures var s := Run(INITIAL, events); s.failed && s.stops == [] ==> (s.starter == ReturnedErr <==> s.lost == 0)
  {
    RunsEnd(INITIAL, events);
    if !Finished(Run(INITIAL, events)) { NoDeadlock(events); }
    var s := Run(INITIAL, events);
    if s.failed && s.stops == [] { ReportedExactlyOnce(events); }
  }
}
