/**
  The crash-persistent reservation of the LMS apply cycle (scripts/knu_lms_apply_lock.py): one lock file that the
  operating system releases when its holder dies, and one record on disk that survives.

  A handle is one attempt of one process, whether `Reservation` or `ReconciliationGuard`. Each step below is one
  effect: a lock, a read, a durable write, a close, or the death of the process in between.
 */
module Reservations {
  import opened Wrappers

  /** How a reservation was completed: by its owner, or by an operator with the candidate that was bound. */
  datatype Completion = ByOwner | Reconciled(candidate: string)

  /** `done` is None exactly in an active record. */
  datatype Record = Record(owner: string, scope: string, done: Option<Completion>)

  datatype Phase = Asking | Granted | Opened | Completing | Closed

  datatype Handle = Handle(guard: bool, owner: string, scope: string, phase: Phase, candidate: string)

  datatype Finished = Finished(owner: string, scope: string, kind: Completion)

  /** History: the scope of every owner ever issued, and every completion that took effect, in order. */
  datatype State = State(disk: Option<Record>, lock: Option<nat>, handles: map<nat, Handle>, issued: map<string, string>, finished: seq<Finished>)

  const INITIAL := State(None, None, map[], map[], [])

  /** A durable write that raises may or may not have taken effect; one that returns has. */
  datatype Fate = Written | RaisedBefore | RaisedAfter

  datatype Event =
    | Reserve(h: nat, scope: string)
    | Guard(h: nat, owner: string, scope: string)
    | Check(h: nat)
    | Publish(h: nat, owner: string, fate: Fate)
    | Bind(h: nat, candidate: string)
    | Complete(h: nat, fate: Fate)
    | Close(h: nat)
    | Crash(h: nat)

  function Shut(s: State, h: nat): State
    requires h in s.handles
  {
    s.(handles := s.handles[h := s.handles[h].(phase := Closed)], lock := if s.lock == Some(h) then None else s.lock)
  }

  function Locked(s: State, h: nat, handle: Handle): State {
    if s.lock.Some? then s else s.(lock := Some(h), handles := s.handles[h := handle])
  }

  predicate Active(disk: Option<Record>) { disk.Some? && disk.value.done.None? }

  /** `ensure_participant` */
  predicate Participant(disk: Option<Record>, owner: string, scope: string) {
    Active(disk) && disk.value.owner == owner && disk.value.scope == scope
  }

  predicate InPhase(s: State, h: nat, phase: Phase) { h in s.handles && s.handles[h].phase == phase }

  predicate Enabled(s: State, e: Event) {
    match e
    case Reserve(h, _) => h !in s.handles
    case Guard(h, _, _) => h !in s.handles
    case Check(h) => InPhase(s, h, Asking)
    case Publish(h, owner, _) => InPhase(s, h, Granted) && owner !in s.issued
    case Bind(h, _) => InPhase(s, h, Opened)
    case Complete(h, _) => InPhase(s, h, Completing)
    case Close(h) => InPhase(s, h, Opened)
    case Crash(h) => h in s.handles && s.handles[h].phase != Closed
  }

  function Apply(s: State, e: Event): State
    requires Enabled(s, e)
  {
    match e
    case Reserve(h, scope) => Locked(s, h, Handle(false, "", scope, Asking, ""))
    case Guard(h, owner, scope) => Locked(s, h, Handle(true, owner, scope, Asking, ""))
    case Check(h) =>
      var a := s.handles[h];
      if a.guard then
        if Participant(s.disk, a.owner, a.scope) then s.(handles := s.handles[h := a.(phase := Opened)]) else Shut(s, h)
      else if Active(s.disk) then Shut(s, h)
      else s.(handles := s.handles[h := a.(phase := Granted)])
    case Publish(h, owner, fate) =>
      var a := s.handles[h];
      var t := s.(disk := if fate.RaisedBefore? then s.disk else Some(Record(owner, a.scope, None)),
                  issued := s.issued[owner := a.scope],
                  handles := s.handles[h := a.(owner := owner, phase := Opened)]);
      if fate.Written? then t else Shut(t, h)
    case Bind(h, candidate) =>
      var a := s.handles[h];
      if Participant(s.disk, a.owner, a.scope) then s.(handles := s.handles[h := a.(phase := Completing, candidate := candidate)]) else s
    case Complete(h, fate) =>
      var a := s.handles[h];
      var t := s.(handles := s.handles[h := a.(phase := Opened)]);
      if fate.RaisedBefore? then t
      else t.(disk := Some(Record(a.owner, a.scope, Some(KindOf(a)))), finished := s.finished + [Finished(a.owner, a.scope, KindOf(a))])
    case Close(h) => Shut(s, h)
    case Crash(h) => Shut(s, h)
  }

  function KindOf(a: Handle): Completion { if a.guard then Reconciled(a.candidate) else ByOwner }

  predicate RunEnabled(s: State, events: seq<Event>)
    decreases |events|
  {
    events == [] || (Enabled(s, events[0]) && RunEnabled(Apply(s, events[0]), events[1..]))
  }

  function Run(s: State, events: seq<Event>): State
    requires RunEnabled(s, events)
    decreases |events|
  {
    if events == [] then s else Run(Apply(s, events[0]), events[1..])
  }

  // ---------------------------------------------------------------------------------------
  // What every step keeps

  predicate Live(s: State, h: nat) { h in s.handles && s.handles[h].phase != Closed }

  /** The lock is held by exactly the one live handle; and what the handle has read is still so. */
  predicate HandleOk(s: State, h: nat) {
    && (Live(s, h) <==> s.lock == Some(h))
    && (InPhase(s, h, Granted) ==> !s.handles[h].guard && !Active(s.disk))
    && (InPhase(s, h, Completing) ==> Participant(s.disk, s.handles[h].owner, s.handles[h].scope))
    && (InPhase(s, h, Opened) || InPhase(s, h, Completing) ==> s.handles[h].guard || s.handles[h].owner in s.issued)
  }

  predicate HasFinished(s: State, owner: string) { exists i :: 0 <= i < |s.finished| && s.finished[i].owner == owner }

  predicate DiskOk(s: State) {
    s.disk.Some? ==>
      && s.disk.value.owner in s.issued && s.issued[s.disk.value.owner] == s.disk.value.scope
      && (HasFinished(s, s.disk.value.owner) <==> s.disk.value.done.Some?)
  }

  predicate FinishedOk(s: State, i: nat) {
    i < |s.finished| ==> s.finished[i].owner in s.issued && s.issued[s.finished[i].owner] == s.finished[i].scope
  }

  ghost predicate Inv(s: State) {
    && (forall h :: HandleOk(s, h))
    && DiskOk(s)
    && (forall i :: 0 <= i < |s.finished| ==> FinishedOk(s, i))
    && (forall i, j :: 0 <= i < j < |s.finished| ==> s.finished[i].owner != s.finished[j].owner)
  }

  lemma StepKeepsHandle(s: State, e: Event, h: nat)
    requires HandleOk(s, h) && HandleOk(s, e.h) && Enabled(s, e)
    ensures HandleOk(Apply(s, e), h)
  {
  }

  lemma FinishedSnoc(s: State, t: State, f: Finished, owner: string)
    requires t.finished == s.finished + [f]
    ensures HasFinished(t, owner) <==> HasFinished(s, owner) || owner == f.owner
  {
    if HasFinished(s, owner) {
      var i :| 0 <= i < |s.finished| && s.finished[i].owner == owner;
      assert t.finished[i].owner == owner;
    }
    assert t.finished[|s.finished|] == f;
  }

  lemma NotIssuedNotFinished(s: State, owner: string)
    requires Inv(s) && owner !in s.issued
    ensures !HasFinished(s, owner)
  {
    forall i | 0 <= i < |s.finished| ensures s.finished[i].owner != owner { assert FinishedOk(s, i); }
  }

  lemma StepKeepsDisk(s: State, e: Event)
    requires Inv(s) && Enabled(s, e)
    ensures DiskOk(Apply(s, e))
  {
    var t := Apply(s, e);
    assert HandleOk(s, e.h);
    if e.Complete? && !e.fate.RaisedBefore? {
      FinishedSnoc(s, t, t.finished[|s.finished|], s.handles[e.h].owner);
    } else if e.Publish? {
      NotIssuedNotFinished(s, e.owner);
    }
    hide Inv;
  }

  lemma StepKeepsFinished(s: State, e: Event)
    requires Inv(s) && Enabled(s, e)
    ensures var t := Apply(s, e);
      && (forall i :: 0 <= i < |t.finished| ==> FinishedOk(t, i))
      && (forall i, j :: 0 <= i < j < |t.finished| ==> t.finished[i].owner != t.finished[j].owner)
  {
    var t := Apply(s, e);
    assert HandleOk(s, e.h);
    forall i | 0 <= i < |t.finished| ensures FinishedOk(t, i) { assert FinishedOk(s, i); }
    forall i, j | 0 <= i < j < |t.finished| ensures t.finished[i].owner != t.finished[j].owner {
      if j == |s.finished| { assert !HasFinished(s, s.handles[e.h].owner); }
    }
  }

  lemma StepKeepsInv(s: State, e: Event)
    requires Inv(s) && Enabled(s, e)
    ensures Inv(Apply(s, e))
  {
    assert HandleOk(s, e.h);
    forall h ensures HandleOk(Apply(s, e), h) { assert HandleOk(s, h); StepKeepsHandle(s, e, h); }
    StepKeepsDisk(s, e);
    StepKeepsFinished(s, e);
    hide Apply;
  }

  lemma {:induction false} RunKeepsInv(s: State, events: seq<Event>)
    requires Inv(s) && RunEnabled(s, events)
    ensures Inv(Run(s, events))
    decreases |events|
  {
    hide Inv, Apply;
    if events != [] {
      StepKeepsInv(s, events[0]);
      RunKeepsInv(Apply(s, events[0]), events[1..]);
    }
  }

  // ---------------------------------------------------------------------------------------
  // Guarantees over every run

  /** In every run at most one handle is live, and it holds the lock; a dead or closed one never does. */
  lemma OneHolder(events: seq<Event>, g: nat, h: nat)
    requires RunEnabled(INITIAL, events)
    ensures var s := Run(INITIAL, events);
      (Live(s, g) && Live(s, h) ==> g == h) && (Live(s, h) <==> s.lock == Some(h))
  {
    RunKeepsInv(INITIAL, events);
    assert HandleOk(Run(INITIAL, events), g) && HandleOk(Run(INITIAL, events), h);
  }

  /** In every run each owner completes at most once, with the scope it was issued for, and a completed record says so for ever. */
  lemma CompletesAtMostOnce(events: seq<Event>)
    requires RunEnabled(INITIAL, events)
    ensures var s := Run(INITIAL, events);
      && (forall i, j :: 0 <= i < j < |s.finished| ==> s.finished[i].owner != s.finished[j].owner)
      && (forall i :: 0 <= i < |s.finished| ==> s.finished[i].owner in s.issued && s.issued[s.finished[i].owner] == s.finished[i].scope)
      && (s.disk.Some? ==> (HasFinished(s, s.disk.value.owner) <==> s.disk.value.done.Some?))
  {
    RunKeepsInv(INITIAL, events);
    var s := Run(INITIAL, events);
    forall i | 0 <= i < |s.finished| ensures s.finished[i].owner in s.issued && s.issued[s.finished[i].owner] == s.finished[i].scope {
      assert FinishedOk(s, i);
    }
  }

  /** The one way a step may change the record: a fresh owner over no active record, or the completion of the active one. */
  predicate Replaces(s: State, t: State) {
    || (!Active(s.disk) && Active(t.disk) && t.disk.value.owner !in s.issued && t.finished == s.finished)
    || (Active(s.disk) && t.disk.Some? && t.disk.value.done.Some?
        && t.disk.value.owner == s.disk.value.owner && t.disk.value.scope == s.disk.value.scope
        && t.finished == s.finished + [Finished(s.disk.value.owner, s.disk.value.scope, t.disk.value.done.value)])
  }

  lemma StepReplaces(s: State, e: Event)
    requires Inv(s) && Enabled(s, e)
    ensures var t := Apply(s, e); if t.disk == s.disk then t.finished == s.finished else Replaces(s, t)
  {
    assert HandleOk(s, e.h);
    hide Inv, HasFinished;
  }

  /** Between two states of a run: the record that was active is still there, or it was completed. */
  lemma {:induction false} ReplacedOnlyAfterCompletion(s: State, events: seq<Event>)
    requires Inv(s) && Active(s.disk) && RunEnabled(s, events)
    ensures var t := Run(s, events);
      s.finished <= t.finished && (t.disk != s.disk ==> HasFinished(t, s.disk.value.owner))
    decreases |events|
  {
    hide Inv, Apply, HasFinished;
    if events != [] {
      var t := Apply(s, events[0]);
      StepReplaces(s, events[0]);
      StepKeepsInv(s, events[0]);
      if t.disk == s.disk {
        ReplacedOnlyAfterCompletion(t, events[1..]);
      } else {
        FinishedSnoc(s, t, t.finished[|s.finished|], s.disk.value.owner);
        FinishedOnlyGrows(t, events[1..]);
        StaysFinished(t, Run(t, events[1..]), s.disk.value.owner);
      }
    }
  }

  lemma StaysFinished(s: State, t: State, owner: string)
    requires s.finished <= t.finished && HasFinished(s, owner)
    ensures HasFinished(t, owner)
  {
    var i :| 0 <= i < |s.finished| && s.finished[i].owner == owner;
    assert t.finished[i].owner == owner;
  }

  lemma {:induction false} FinishedOnlyGrows(s: State, events: seq<Event>)
    requires Inv(s) && RunEnabled(s, events)
    ensures s.finished <= Run(s, events).finished
    decreases |events|
  {
    hide Inv;
    if events != [] {
      StepReplaces(s, events[0]);
      StepKeepsInv(s, events[0]);
      hide Apply;
      FinishedOnlyGrows(Apply(s, events[0]), events[1..]);
    }
  }

  // ---------------------------------------------------------------------------------------
  // A crashed owner

  /** A reservation of that owner that is still open. */
  predicate Owns(s: State, h: nat, owner: string) {
    (InPhase(s, h, Opened) || InPhase(s, h, Completing)) && !s.handles[h].guard && s.handles[h].owner == owner
  }

  /** The record is active and no handle that could complete it by itself is live: its owner crashed or closed. */
  ghost predicate Orphaned(s: State) {
    Active(s.disk) && forall h :: !Owns(s, h, s.disk.value.owner)
  }

  /** A completion of this owner and scope that an operator bound to a candidate. */
  predicate OperatorFinished(s: State, t: State, owner: string, scope: string) {
    exists i :: |s.finished| <= i < |t.finished| && t.finished[i].owner == owner && t.finished[i].scope == scope && t.finished[i].kind.Reconciled?
  }

  /** The death of the process that holds the lock orphans the record it leaves active. */
  lemma CrashOrphans(s: State, h: nat)
    requires Inv(s) && Enabled(s, Crash(h)) && Active(s.disk)
    ensures Inv(Apply(s, Crash(h))) && Apply(s, Crash(h)).disk == s.disk && Orphaned(Apply(s, Crash(h)))
  {
    assert HandleOk(s, h);
    StepKeepsInv(s, Crash(h));
    hide Inv;
    UnlockedIsOrphaned(Apply(s, Crash(h)));
  }

  /** So is any active record beside a free lock, however that came about: a close without completion, or a write that raised. */
  lemma UnlockedIsOrphaned(s: State)
    requires Inv(s) && Active(s.disk) && s.lock.None?
    ensures Orphaned(s)
  {
    forall h ensures !Owns(s, h, s.disk.value.owner) { assert HandleOk(s, h); }
  }

  /**
    The whole story: a process dies at any point of any run that leaves its record active. From then on, however the
    run goes on, that record stays and no owner is issued until an operator completed exactly that owner and scope.
   */
  lemma CrashBlocksUntilReconciled(before: seq<Event>, h: nat, after: seq<Event>)
    requires RunEnabled(INITIAL, before) && Enabled(Run(INITIAL, before), Crash(h)) && Active(Run(INITIAL, before).disk)
    requires RunEnabled(Apply(Run(INITIAL, before), Crash(h)), after)
    ensures var s := Apply(Run(INITIAL, before), Crash(h));
      var t := Run(s, after);
      s.disk == Run(INITIAL, before).disk
      && ((t.disk == s.disk && t.issued == s.issued) || OperatorFinished(s, t, s.disk.value.owner, s.disk.value.scope))
  {
    RunKeepsInv(INITIAL, before);
    CrashOrphans(Run(INITIAL, before), h);
    CrashedOwnerBlocks(Apply(Run(INITIAL, before), Crash(h)), after);
  }

  /** One step of an orphaned record: it stays orphaned and no owner is published, or a guard for exactly it completes it. */
  lemma OrphanStep(s: State, e: Event)
    requires Inv(s) && Orphaned(s) && Enabled(s, e)
    ensures var t := Apply(s, e);
      || (t.disk == s.disk && Orphaned(t) && t.issued == s.issued && t.finished == s.finished)
      || (e.Complete? && s.handles[e.h].guard && Participant(s.disk, s.handles[e.h].owner, s.handles[e.h].scope)
          && t.finished == s.finished + [Finished(s.disk.value.owner, s.disk.value.scope, Reconciled(s.handles[e.h].candidate))])
  {
    var t := Apply(s, e);
    assert HandleOk(s, e.h) && !Owns(s, e.h, s.disk.value.owner);
    if t.disk == s.disk {
      forall h ensures !Owns(t, h, t.disk.value.owner) { OrphanHandle(s, e, h); }
    }
    hide Inv;
  }

  lemma OrphanHandle(s: State, e: Event, h: nat)
    requires Inv(s) && Orphaned(s) && Enabled(s, e) && Apply(s, e).disk == s.disk
    ensures !Owns(Apply(s, e), h, s.disk.value.owner)
  {
    assert HandleOk(s, h) && HandleOk(s, e.h) && !Owns(s, h, s.disk.value.owner);
    hide Inv;
  }

  /**
    After a crash: however many reservations are tried, the orphaned record stays and no new owner is issued, until
    an operator's guard for exactly that owner and that scope has completed it.
   */
  lemma {:induction false} CrashedOwnerBlocks(s: State, events: seq<Event>)
    requires Inv(s) && Orphaned(s) && RunEnabled(s, events)
    ensures var t := Run(s, events);
      (t.disk == s.disk && t.issued == s.issued) || OperatorFinished(s, t, s.disk.value.owner, s.disk.value.scope)
    decreases |events|
  {
    hide Inv, Apply, Orphaned;
    if events != [] {
      var t := Apply(s, events[0]);
      OrphanStep(s, events[0]);
      StepKeepsInv(s, events[0]);
      if t.disk == s.disk && Orphaned(t) && t.issued == s.issued && t.finished == s.finished {
        CrashedOwnerBlocks(t, events[1..]);
      } else {
        FinishedOnlyGrows(t, events[1..]);
        assert Run(s, events).finished[|s.finished|] == t.finished[|s.finished|];
      }
    }
  }

  // ---------------------------------------------------------------------------------------
  // Who gets in

  lemma RunTwo(s: State, a: Event, b: Event)
    requires Enabled(s, a) && Enabled(Apply(s, a), b)
    ensures RunEnabled(s, [a, b]) && Run(s, [a, b]) == Apply(Apply(s, a), b)
  {
    assert [a, b][1..] == [b] && [b][1..] == [];
    hide Apply, Enabled;
    RunOne(Apply(s, a), b);
  }

  lemma RunOne(s: State, a: Event)
    requires Enabled(s, a)
    ensures RunEnabled(s, [a]) && Run(s, [a]) == Apply(s, a)
  {
  }

  lemma {:induction false} RunConcat(s: State, first: seq<Event>, rest: seq<Event>)
    requires RunEnabled(s, first) && RunEnabled(Run(s, first), rest)
    ensures RunEnabled(s, first + rest) && Run(s, first + rest) == Run(Run(s, first), rest)
    decreases |first|
  {
    if first == [] {
      assert first + rest == rest;
    } else {
      assert (first + rest)[1..] == first[1..] + rest;
      RunConcat(Apply(s, first[0]), first[1..], rest);
    }
  }

  /** With the lock free, a reservation is granted iff no record is active, and a guard opens iff it names the active record. */
  lemma AdmittedExactly(s: State, h: nat, owner: string, scope: string)
    requires Inv(s) && h !in s.handles
    ensures InPhase(Run2(s, Reserve(h, scope), Check(h)), h, Granted) <==> s.lock.None? && !Active(s.disk)
    ensures InPhase(Run2(s, Guard(h, owner, scope), Check(h)), h, Opened) <==> s.lock.None? && Participant(s.disk, owner, scope)
  {
    hide Inv;
  }

  /** Two events in a row, the second only if the first left it possible. */
  function Run2(s: State, a: Event, b: Event): State
    requires Enabled(s, a)
  {
    if Enabled(Apply(s, a), b) then Apply(Apply(s, a), b) else Apply(s, a)
  }

  /** The events of one reconciliation, and then of a new reservation. */
  function Reconciliation(h: nat, owner: string, scope: string, candidate: string): seq<Event> {
    [Guard(h, owner, scope), Check(h)] + [Bind(h, candidate), Complete(h, Written)]
  }

  lemma ReconciliationRuns(s: State, h: nat, candidate: string)
    requires Inv(s) && Active(s.disk) && s.lock.None? && h !in s.handles
    ensures var r := s.disk.value;
      var events := Reconciliation(h, r.owner, r.scope, candidate);
      && RunEnabled(s, events)
      && Run(s, events).finished == s.finished + [Finished(r.owner, r.scope, Reconciled(candidate))]
      && InPhase(Run(s, events), h, Opened) && Run(s, events).lock == Some(h) && !Active(Run(s, events).disk)
      && Run(s, events).handles.Keys == s.handles.Keys + {h}
  {
    hide Inv, Run, RunEnabled;
    var r := s.disk.value;
    RunTwo(s, Guard(h, r.owner, r.scope), Check(h));
    var t := Run(s, [Guard(h, r.owner, r.scope), Check(h)]);
    RunTwo(t, Bind(h, candidate), Complete(h, Written));
    RunConcat(s, [Guard(h, r.owner, r.scope), Check(h)], [Bind(h, candidate), Complete(h, Written)]);
  }

  /** A crashed owner's record can be cleared: the guard that names it completes it, and a new reservation is granted. */
  lemma GuardUnblocks(s: State, h: nat, k: nat, candidate: string, scope: string)
    requires Inv(s) && Active(s.disk) && s.lock.None? && h !in s.handles && k !in s.handles && h != k
    ensures var r := s.disk.value;
      var events := Reconciliation(h, r.owner, r.scope, candidate) + [Close(h)];
      && RunEnabled(s, events)
      && Run(s, events).finished == s.finished + [Finished(r.owner, r.scope, Reconciled(candidate))]
      && k !in Run(s, events).handles && InPhase(Run2(Run(s, events), Reserve(k, scope), Check(k)), k, Granted)
  {
    var r := s.disk.value;
    var first := Reconciliation(h, r.owner, r.scope, candidate);
    ReconciliationRuns(s, h, candidate);
    var t := Run(s, first);
    RunOne(t, Close(h));
    RunConcat(s, first, [Close(h)]);
    RunKeepsInv(s, first + [Close(h)]);
    hide Inv, Run, RunEnabled, Reconciliation;
    AdmittedExactly(Run(s, first + [Close(h)]), k, r.owner, scope);
  }

  /** What the write of the active record leaves: the record unless it failed at once, and the lock only if it returned. */
  lemma PublishesExactly(s: State, h: nat, owner: string, fate: Fate)
    requires Inv(s) && Enabled(s, Publish(h, owner, fate))
    ensures var t := Apply(s, Publish(h, owner, fate));
      && t.disk == (if fate == RaisedBefore then s.disk else Some(Record(owner, s.handles[h].scope, None)))
      && (if fate == Written then t.lock == Some(h) && Owns(t, h, owner) else t.lock == None && !Live(t, h))
      && owner in t.issued && t.issued[owner] == s.handles[h].scope && t.finished == s.finished
  {
    assert HandleOk(s, h);
  }

  /** What the completing write leaves: the completed record unless it failed at once, and the handle open either way. */
  lemma CompletesExactly(s: State, h: nat, fate: Fate)
    requires Enabled(s, Complete(h, fate))
    ensures var a, t := s.handles[h], Apply(s, Complete(h, fate));
      var done := if a.guard then Reconciled(a.candidate) else ByOwner;
      && t.disk == (if fate == RaisedBefore then s.disk else Some(Record(a.owner, a.scope, Some(done))))
      && t.finished == (if fate == RaisedBefore then s.finished else s.finished + [Finished(a.owner, a.scope, done)])
      && t.lock == s.lock && InPhase(t, h, Opened)
  {
  }

  /** The events of one undisturbed cycle of an owner. */
  function Cycle(h: nat, owner: string, scope: string): seq<Event> {
    [Reserve(h, scope), Check(h)] + [Publish(h, owner, Written), Bind(h, "")] + [Complete(h, Written), Close(h)]
  }

  /** A cycle from a free state runs through: the owner is issued and completes, and everything is free again. */
  lemma CycleCompletes(s: State, h: nat, owner: string, scope: string)
    requires Inv(s) && s.lock == None && !Active(s.disk) && h !in s.handles && owner !in s.issued
    ensures var events := Cycle(h, owner, scope);
      && RunEnabled(s, events)
      && var t := Run(s, events);
      && t.disk == Some(Record(owner, scope, Some(ByOwner))) && t.lock == None && !Live(t, h)
      && t.issued == s.issued[owner := scope] && t.finished == s.finished + [Finished(owner, scope, ByOwner)]
  {
    hide Inv, Run, RunEnabled;
    RunTwo(s, Reserve(h, scope), Check(h));
    var a := Run(s, [Reserve(h, scope), Check(h)]);
    RunTwo(a, Publish(h, owner, Written), Bind(h, ""));
    var b := Run(a, [Publish(h, owner, Written), Bind(h, "")]);
    RunTwo(b, Complete(h, Written), Close(h));
    RunConcat(s, [Reserve(h, scope), Check(h)], [Publish(h, owner, Written), Bind(h, "")]);
    RunConcat(s, [Reserve(h, scope), Check(h)] + [Publish(h, owner, Written), Bind(h, "")], [Complete(h, Written), Close(h)]);
  }

  // ---------------------------------------------------------------------------------------
  // The classes

  predicate Hex(s: string, n: nat) { |s| == n && forall i :: 0 <= i < |s| ==> '0' <= s[i] <= '9' || 'a' <= s[i] <= 'f' }

  /** Lower-case hex digits, so many of them. */
  lemma HexExactly(s: string, n: nat)
    ensures Hex(s, n) <==> |s| == n && forall c :: c in s ==> c in "0123456789abcdef"
  {
    forall c ensures ('0' <= c <= '9' || 'a' <= c <= 'f') <==> c in "0123456789abcdef" { HexDigitExactly(c); }
    if forall c :: c in s ==> c in "0123456789abcdef" {
      forall i | 0 <= i < |s| ensures '0' <= s[i] <= '9' || 'a' <= s[i] <= 'f' { assert s[i] in s; }
    }
  }

  lemma HexDigitExactly(c: char)
    ensures ('0' <= c <= '9' || 'a' <= c <= 'f') <==> c in "0123456789abcdef"
  {
    var d := "0123456789abcdef";
    assert |d| == 16;
    if '0' <= c <= '9' { assert d[c as int - '0' as int] == c; }
    if 'a' <= c <= 'f' { assert d[c as int - 'a' as int + 10] == c; }
  }

  /** The runtime directory: the record on disk and who holds `apply.lock`. */
  class Runtime {
    var record: Option<Record>
    var lock: Option<nat>
    ghost var handles: map<nat, Handle>
    ghost var issued: map<string, string>
    ghost var finished: seq<Finished>

    ghost function Model(): State
      reads this
    {
      State(record, lock, handles, issued, finished)
    }

    ghost predicate Valid()
      reads this
    {
      Inv(Model())
    }

    constructor ()
      ensures Valid() && Model() == INITIAL
    {
      record, lock, handles, issued, finished := None, None, map[], map[], [];
    }

    /** The history follows one step of the machine. */
    ghost method Follow(s: State, e: Event)
      requires Inv(s) && Enabled(s, e)
      requires record == Apply(s, e).disk && lock == Apply(s, e).lock
      modifies `handles, `issued, `finished
      ensures Model() == Apply(s, e) && Valid()
    {
      StepKeepsInv(s, e);
      hide Inv, Apply;
      handles, issued, finished := Apply(s, e).handles, Apply(s, e).issued, Apply(s, e).finished;
    }
  }

  class Reservation {
    const runtime: Runtime
    const owner: string
    const scope: string
    var fd: Option<nat>

    constructor (runtime: Runtime, fd: nat, owner: string, scope: string)
      ensures this.runtime == runtime && this.fd == Some(fd) && this.owner == owner && this.scope == scope
    {
      this.runtime, this.fd, this.owner, this.scope := runtime, Some(fd), owner, scope;
    }

    ghost predicate Valid()
      reads this, runtime
    {
      runtime.Valid() && (fd.Some? ==> InPhase(runtime.Model(), fd.value, Opened) && Mine(runtime.handles[fd.value]))
    }

    ghost predicate Mine(h: Handle) { !h.guard && h.owner == owner && h.scope == scope }

    /** `fd` and `owner` are new; `fate` is how the write of the active record ends. */
    static method Begin(runtime: Runtime, fd: nat, owner: string, scope: string, fate: Fate) returns (r: Result<Reservation, string>)
      requires runtime.Valid() && fd !in runtime.handles && owner !in runtime.issued
      modifies runtime
      ensures runtime.Valid()
      ensures var s := old(runtime.Model());
        if !Hex(scope, 64) then r == Err("scope_hash_invalid") && runtime.Model() == s
        else if s.lock.Some? then r == Err("run_busy") && runtime.Model() == s
        else if Active(s.disk) then r == Err("interrupted_reservation_blocked") && runtime.Model() == Run2(s, Reserve(fd, scope), Check(fd))
        else
          && Enabled(Run2(s, Reserve(fd, scope), Check(fd)), Publish(fd, owner, fate))
          && runtime.Model() == Apply(Run2(s, Reserve(fd, scope), Check(fd)), Publish(fd, owner, fate))
          && runtime.record == (if fate.RaisedBefore? then s.disk else Some(Record(owner, scope, None)))
          && runtime.lock == (if fate.Written? then Some(fd) else None)
          && (if fate.Written? then r.Ok? && fresh(r.value) && r.value.Valid() && r.value.runtime == runtime && r.value.fd == Some(fd)
              else r == Err("reservation_unavailable"))
    {
      hide Inv;
      if !Hex(scope, 64) { return Err("scope_hash_invalid"); }
      if runtime.lock.Some? { return Err("run_busy"); }
      ghost var s := runtime.Model();
      runtime.lock := Some(fd);
      runtime.Follow(s, Reserve(fd, scope));
      s := runtime.Model();
      if Active(runtime.record) {
        runtime.lock := None;
        runtime.Follow(s, Check(fd));
        return Err("interrupted_reservation_blocked");
      }
      runtime.Follow(s, Check(fd));
      s := runtime.Model();
      if !fate.RaisedBefore? { runtime.record := Some(Record(owner, scope, None)); }
      if !fate.Written? { runtime.lock := None; }
      runtime.Follow(s, Publish(fd, owner, fate));
      if !fate.Written? { return Err("reservation_unavailable"); }
      var reservation := new Reservation(runtime, fd, owner, scope);
      return Ok(reservation);
    }

    method Complete(fate: Fate) returns (r: Result<bool, string>)
      requires Valid()
      modifies runtime
      ensures Valid() && fd == old(fd)
      ensures var s := old(runtime.Model());
        if fd.None? then r == Err("keeper_stopped") && runtime.Model() == s
        else if !Participant(s.disk, owner, scope) then r == Err("reservation_binding_mismatch") && runtime.Model() == s
        else
          && runtime.Model() == Run2(s, Bind(fd.value, ""), Event.Complete(fd.value, fate))
          && (r.Ok? <==> fate.Written?)
          && (!fate.RaisedBefore? ==> runtime.record == Some(Record(owner, scope, Some(ByOwner))))
          && (fate.RaisedBefore? ==> runtime.record == s.disk)
    {
      hide Inv;
      if fd.None? { return Err("keeper_stopped"); }
      if !Participant(runtime.record, owner, scope) { return Err("reservation_binding_mismatch"); }
      ghost var s := runtime.Model();
      runtime.Follow(s, Bind(fd.value, ""));
      s := runtime.Model();
      if !fate.RaisedBefore? { runtime.record := Some(runtime.record.value.(done := Some(ByOwner))); }
      runtime.Follow(s, Event.Complete(fd.value, fate));
      return if fate.Written? then Ok(true) else Err("reservation_unavailable");
    }

    method Close()
      requires Valid()
      modifies this, runtime
      ensures Valid() && fd == None
      ensures runtime.Model() == if old(fd).Some? then Shut(old(runtime.Model()), old(fd).value) else old(runtime.Model())
    {
      assert fd.Some? ==> HandleOk(runtime.Model(), fd.value);
      hide Inv;
      if fd.Some? {
        ghost var s, h := runtime.Model(), fd.value;
        runtime.lock := None;
        fd := None;
        runtime.Follow(s, Event.Close(h));
      }
    }
  }

  /** The manual recovery guard for one exact interrupted owner. */
  class ReconciliationGuard {
    const runtime: Runtime
    const owner: string
    const scope: string
    var fd: Option<nat>

    constructor (runtime: Runtime, fd: nat, owner: string, scope: string)
      ensures this.runtime == runtime && this.fd == Some(fd) && this.owner == owner && this.scope == scope
    {
      this.runtime, this.fd, this.owner, this.scope := runtime, Some(fd), owner, scope;
    }

    ghost predicate Valid()
      reads this, runtime
    {
      runtime.Valid() && (fd.Some? ==> InPhase(runtime.Model(), fd.value, Opened) && Mine(runtime.handles[fd.value]))
    }

    ghost predicate Mine(h: Handle) { h.guard && h.owner == owner && h.scope == scope }

    /** An active record carries no completion keys, so that check of the source never refuses. */
    static method Begin(runtime: Runtime, fd: nat, owner: string, scope: string) returns (r: Result<ReconciliationGuard, string>)
      requires runtime.Valid() && fd !in runtime.handles
      modifies runtime
      ensures runtime.Valid()
      ensures var s := old(runtime.Model());
        if !Hex(owner, 32) then r == Err("reservation_binding_mismatch") && runtime.Model() == s
        else if !Hex(scope, 64) then r == Err("scope_hash_invalid") && runtime.Model() == s
        else if s.lock.Some? then r == Err("run_busy") && runtime.Model() == s
        else
          && runtime.Model() == Run2(s, Guard(fd, owner, scope), Check(fd))
          && (if Participant(s.disk, owner, scope)
              then r.Ok? && fresh(r.value) && r.value.Valid() && r.value.runtime == runtime && r.value.fd == Some(fd)
                   && r.value.owner == owner && r.value.scope == scope && runtime.lock == Some(fd)
              else r == Err("reservation_binding_mismatch") && runtime.lock == None)
          && runtime.record == s.disk
    {
      hide Inv;
      if !Hex(owner, 32) { return Err("reservation_binding_mismatch"); }
      if !Hex(scope, 64) { return Err("scope_hash_invalid"); }
      if runtime.lock.Some? { return Err("run_busy"); }
      ghost var s := runtime.Model();
      runtime.lock := Some(fd);
      runtime.Follow(s, Guard(fd, owner, scope));
      s := runtime.Model();
      if !Participant(runtime.record, owner, scope) {
        runtime.lock := None;
        runtime.Follow(s, Check(fd));
        return Err("reservation_binding_mismatch");
      }
      runtime.Follow(s, Check(fd));
      var guard := new ReconciliationGuard(runtime, fd, owner, scope);
      return Ok(guard);
    }

    method Complete(candidate: string, fate: Fate) returns (r: Result<bool, string>)
      requires Valid()
      modifies runtime
      ensures Valid() && fd == old(fd)
      ensures var s := old(runtime.Model());
        if fd.None? then r == Err("keeper_stopped") && runtime.Model() == s
        else if !Hex(candidate, 64) then r == Err("reconciliation_candidate_invalid") && runtime.Model() == s
        else if !Participant(s.disk, owner, scope) then r == Err("reservation_binding_mismatch") && runtime.Model() == s
        else
          && runtime.Model() == Run2(s, Bind(fd.value, candidate), Event.Complete(fd.value, fate))
          && (r.Ok? <==> fate.Written?)
          && runtime.record == (if fate.RaisedBefore? then s.disk else Some(Record(owner, scope, Some(Reconciled(candidate)))))
    {
      hide Inv;
      if fd.None? { return Err("keeper_stopped"); }
      if !Hex(candidate, 64) { return Err("reconciliation_candidate_invalid"); }
      if !Participant(runtime.record, owner, scope) { return Err("reservation_binding_mismatch"); }
      ghost var s := runtime.Model();
      runtime.Follow(s, Bind(fd.value, candidate));
      s := runtime.Model();
      if !fate.RaisedBefore? { runtime.record := Some(runtime.record.value.(done := Some(Reconciled(candidate)))); }
      runtime.Follow(s, Event.Complete(fd.value, fate));
      return if fate.Written? then Ok(true) else Err("reservation_unavailable");
    }

    method Close()
      requires Valid()
      modifies this, runtime
      ensures Valid() && fd == None
      ensures runtime.Model() == if old(fd).Some? then Shut(old(runtime.Model()), old(fd).value) else old(runtime.Model())
    {
      assert fd.Some? ==> HandleOk(runtime.Model(), fd.value);
      hide Inv;
      if fd.Some? {
        ghost var s, h := runtime.Model(), fd.value;
        runtime.lock := None;
        fd := None;
        runtime.Follow(s, Event.Close(h));
      }
    }
  }

  /** A confirmation that must go through: well formed, for the active record, with the lock free, and the candidate still current. */
  predicate Confirmable(s: State, owner: string, scope: string, candidate: string, confirmed: bool,
                        bound: (Record, string) -> string, evidence: string, again: string)
  {
    && confirmed && Hex(owner, 32) && Hex(scope, 64) && Hex(candidate, 64) && s.lock.None? && Participant(s.disk, owner, scope)
    && bound(s.disk.value, evidence) == candidate == bound(s.disk.value, again)
  }

  /**
    `reconciliation_apply` (scripts/knu_lms_sync.py): binds the record and the evidence files, read twice, to the
    candidate that the operator confirmed, and completes the record only if both readings give that candidate.
    `bound` is the hash of record and evidence; `evidence` and `again` are the files as the two readings find them.
   */
  method ReconciliationApply(runtime: Runtime, fd: nat, owner: string, scope: string, candidate: string, confirmed: bool,
                             bound: (Record, string) -> string, evidence: string, again: string, fate: Fate)
    returns (r: Result<bool, string>)
    requires runtime.Valid() && fd !in runtime.handles
    modifies runtime
    ensures runtime.Valid() && (old(runtime.lock).None? ==> runtime.lock.None?)
    ensures r.Ok? ==>
      var s := old(runtime.Model());
      && confirmed && Participant(s.disk, owner, scope)
      && bound(s.disk.value, evidence) == candidate == bound(s.disk.value, again)
      && runtime.record == Some(Record(owner, scope, Some(Reconciled(candidate))))
      && runtime.finished == s.finished + [Finished(owner, scope, Reconciled(candidate))]
    ensures r.Ok? <==> Confirmable(old(runtime.Model()), owner, scope, candidate, confirmed, bound, evidence, again) && fate.Written?
    ensures r.Err? && runtime.record != old(runtime.record) ==>
      fate.RaisedAfter? && runtime.record == Some(Record(owner, scope, Some(Reconciled(candidate))))
  {
    hide Inv;
    if !confirmed { return Err("authorization_required"); }
    if !Hex(candidate, 64) { return Err("reconciliation_candidate_invalid"); }
    var begun := ReconciliationGuard.Begin(runtime, fd, owner, scope);
    if begun.Err? { return Err(begun.error); }
    var guard := begun.value;
    if bound(runtime.record.value, evidence) != candidate || bound(runtime.record.value, again) != candidate {
      guard.Close();
      return Err("reconciliation_candidate_stale");
    }
    r := guard.Complete(candidate, fate);
    guard.Close();
  }
}
