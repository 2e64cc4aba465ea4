/**
  What each call of the gate answers, case by case and from the state before the call: every refusal of begin,
  every reason of view, every ending of confirm, and the superseded mark.
 */
module GateAnswers {
  import opened Wrappers
  import opened Gate
  import opened GateInvariant
  import opened GateRuns
  import J = CanonicalJson
  import Locators

  // ---------------------------------------------------------------------------------------
  // begin

  /** The object `{"material_id": target}` with an entity id. */
  predicate AsksForMaterial(target: string, params: J.Value) {
    params == J.Dict([J.Entry(J.Text("material_id"), J.Str(target))]) && Locators.IsEntityId(target)
  }

  /** Another nonce of the session is inside its deadline. */
  ghost predicate Waiting(g: State, session: string, now: real) {
    exists n :: PendingIn(g, n) && g.records[n].session == session && now < g.records[n].deadline
  }

  /** Each refusal of begin, exactly. */
  lemma BeginRefusesExactly(rules: Rules, g: State, e: Event)
    requires Inv(rules, g) && Enabled(g, e) && e.BeginEvent?
    ensures var out := Begin(rules, g, e.now, e.session, e.window, e.action, e.target, e.params, e.seen, e.nonce).1;
      var verify := e.action == "VERIFY_MATERIAL";
      var later := e.action in {"CONFIRM_EXAM_SCOPE", "SET_SUBMISSION_STATUS", "ADOPT_AI_ARTIFACT"};
      var asked := rules.hasSecret && verify && AsksForMaterial(e.target, e.params);
      && (out == Err(GateUnavailable) <==> !rules.hasSecret)
      && (out == Err(ActionNotAvailable) <==> rules.hasSecret && later)
      && (out == Err(BadRequest) <==> rules.hasSecret && !later && !(verify && AsksForMaterial(e.target, e.params)))
      && (out == Err(TargetUnknown) <==> asked && e.seen == None)
      && (out == Err(AlreadyDone) <==> asked && e.seen.Some? && e.seen.value.verified)
      && (out == Err(GateBusy) <==> asked && e.seen.Some? && !e.seen.value.verified && Waiting(g, e.session, e.now))
      && (out.Ok? ==> out == Ok(e.nonce))
  {
    BusyExactly(rules, g, e.now, e.session);
    hide Inv, Sweep, Busy, Cooling, Fresh, Open, Locators.IsEntityId;
  }

  // ---------------------------------------------------------------------------------------
  // view

  /** The reason why nothing is shown, exactly. `n in records` is meant after the expiry that the call begins with. */
  lemma ViewRefusesExactly(rules: Rules, g: State, now: real, n: string, window: string, alive: string -> bool)
    requires Inv(rules, g) && now >= g.clock
    ensures var s := Sweep(rules, g, now);
      var v := Look(s, n, window, alive, now);
      && (v == NoView("UNKNOWN") <==> n !in s.records)
      && (v == NoView("EXPIRED") <==> n in s.records && s.ended.Keys >= {n} && s.ended[n].status == Expired)
      && (v == NoView("USED") <==> n in s.records && n in s.ended && s.ended[n].status != Expired)
      && (v == NoView("WRONG_WINDOW") <==> PendingIn(s, n) && window != s.records[n].window)
      && (v == NoView("SESSION_GONE") <==> PendingIn(s, n) && window == s.records[n].window && !alive(s.records[n].session))
  {
    SweepKeepsInv(rules, g, now);
    var s := Sweep(rules, g, now);
    assert NonceOk(rules, s, n);
    hide Inv, Sweep;
  }

  // ---------------------------------------------------------------------------------------
  // confirm

  /** How a confirm of a pending nonce inside its deadline ends it, with the answer. */
  datatype Verdict = LeftAlone | Ends(status: Status, reason: Option<string>, superseded: bool, raised: bool)

  ghost function VerdictOf(rules: Rules, g: State, n: string, window: string, presented: Option<string>, alive: string -> bool, fate: Fate): Verdict
    requires n in g.records
  {
    var r := g.records[n];
    if window != r.window then LeftAlone
    else if !alive(r.session) then Ends(Rejected, Some("SESSION_GONE"), false, false)
    else if !rules.hasSecret || presented != Some(rules.mac(n, r.requestHash)) then Ends(Rejected, Some("BAD_MAC"), false, false)
    else if !fate.BreaksBefore? && !Unchanged(rules, g.db, r) then Ends(Rejected, Some("TARGET_CHANGED"), true, false)
    else if fate.Smooth? then Ends(Committed, None, false, false)
    else Ends(Rejected, Some("COMMIT_FAILED"), false, fate.fatal)
  }

  /** The superseded mark is that of a target that changed. */
  ghost predicate Marked(g: State) {
    forall n :: n in g.records ==> MarkedRecord(g.records[n])
  }

  predicate MarkedRecord(r: Record) { r.superseded <==> r.status == Rejected && r.reason == Some("TARGET_CHANGED") }

  lemma SweepKeepsMarked(rules: Rules, g: State, now: real)
    requires Marked(g)
    ensures Marked(Sweep(rules, g, now))
  {
  }

  lemma DecidedMarks(rules: Rules, g: State, now: real, n: string, fate: Fate)
    requires Marked(g) && PendingIn(g, n)
    ensures Marked(Decided(rules, g, now, n, fate).0)
  {
    hide Digest, Logged;
  }

  lemma StepKeepsMarked(rules: Rules, g: State, e: Event)
    requires Inv(rules, g) && Enabled(g, e) && Marked(g)
    ensures Marked(Apply(rules, g, e))
  {
    hide Inv, Sweep, Marked, Confirm, Begin, Deny;
    match e
    case BeginEvent(_, _, _, _, _, _, _, _) => BeginKeepsMarked(rules, g, e);
    case ViewEvent(now, _, _, _) => SweepKeepsMarked(rules, g, now);
    case DenyEvent(now, n) => DenyKeepsMarked(rules, g, now, n);
    case ConfirmEvent(_, _, _, _, _, _) => ConfirmKeepsMarked(rules, g, e);
    case WorldEvent(ms) => assert Marked(g.(db := g.db.(materials := ms))) by { SameRecords(g, g.(db := g.db.(materials := ms))); }
  }

  lemma SameRecords(g: State, h: State)
    requires Marked(g) && h.records == g.records
    ensures Marked(h)
  {
  }

  lemma BeginKeepsMarked(rules: Rules, g: State, e: Event)
    requires Marked(g) && e.BeginEvent?
    ensures Marked(Apply(rules, g, e))
  {
    SweepKeepsMarked(rules, g, e.now);
    hide Sweep, Digest, Summary, Busy, Cooling, Precheck;
  }

  lemma DenyKeepsMarked(rules: Rules, g: State, now: real, n: string)
    requires Marked(g)
    ensures Marked(Deny(rules, g, now, n).0)
  {
    SweepKeepsMarked(rules, g, now);
    hide Sweep;
  }

  lemma ConfirmKeepsMarked(rules: Rules, g: State, e: Event)
    requires Inv(rules, g) && Enabled(g, e) && Marked(g) && e.ConfirmEvent?
    ensures Marked(Apply(rules, g, e))
  {
    var s := Sweep(rules, g, e.now);
    SweepKeepsMarked(rules, g, e.now);
    SweepKeepsInv(rules, g, e.now);
    SweepKeepsPending(rules, g, e.now, e.nonce);
    hide Inv, Sweep, Decided, MacOk, Finish, Marked;
    if PendingIn(s, e.nonce) {
      PendingIsUnmarked(s, e.nonce);
      FinishKeepsMarked(rules, s, e.nonce, "SESSION_GONE", e.now);
      FinishKeepsMarked(rules, s, e.nonce, "BAD_MAC", e.now);
      DecidedMarks(rules, s, e.now, e.nonce, e.fate);
    }
  }

  lemma FinishKeepsMarked(rules: Rules, g: State, n: string, reason: string, now: real)
    requires Marked(g) && n in g.records && !g.records[n].superseded && reason != "TARGET_CHANGED"
    ensures Marked(Finish(rules, g, n, Rejected, Some(reason), now))
  {
  }

  /** In every run of a new process an answer is marked superseded exactly when it says TARGET_CHANGED. */
  lemma {:induction false} RunKeepsMarked(rules: Rules, g: State, events: seq<Event>)
    requires Inv(rules, g) && RunEnabled(rules, g, events) && Marked(g)
    ensures Marked(Run(rules, g, events))
    decreases |events|
  {
    hide Inv, Apply, Marked;
    if events != [] {
      StepKeepsInv(rules, g, events[0]);
      StepKeepsMarked(rules, g, events[0]);
      RunKeepsMarked(rules, Apply(rules, g, events[0]), events[1..]);
    }
  }

  lemma DecidedExactly(rules: Rules, g: State, now: real, n: string, fate: Fate)
    requires Inv(rules, g) && PendingIn(g, n) && !g.records[n].superseded
    ensures var (h, out) := Decided(rules, g, now, n, fate);
      var v := if !fate.BreaksBefore? && !Unchanged(rules, g.db, g.records[n]) then Ends(Rejected, Some("TARGET_CHANGED"), true, false)
               else if fate.Smooth? then Ends(Committed, None, false, false)
               else Ends(Rejected, Some("COMMIT_FAILED"), false, fate.fatal);
      Ended(g.records[n], h, n, v, now) && out == AnswerFor(v)
  {
    PendingHasNotEnded(rules, g, n);
    hide Inv, Digest, Logged;
  }

  /** The record and the history after that ending. */
  ghost predicate Ended(r: Record, h: State, n: string, v: Verdict, now: real)
    requires v.Ends?
  {
    && n in h.records
    && h.records[n] == r.(status := v.status, reason := v.reason, superseded := v.superseded, finished := Some(now))
    && n in h.ended && h.ended[n] == Ending(r.session, v.status, v.reason, now)
  }

  function AnswerFor(v: Verdict): Outcome {
    match v
    case LeftAlone => Answered(Answer(Rejected, Some("WRONG_WINDOW"), false))
    case Ends(status, reason, superseded, raised) => if raised then Raised else Answered(Answer(status, reason, superseded))
  }

  /** After the expiry, the branch that a confirm takes. */
  lemma ConfirmAt(rules: Rules, g: State, now: real, n: string, window: string, presented: Option<string>, alive: string -> bool, fate: Fate)
    requires PendingIn(Sweep(rules, g, now), n)
    ensures var s := Sweep(rules, g, now);
      var r := s.records[n];
      var gone, bad := Finish(rules, s, n, Rejected, Some("SESSION_GONE"), now), Finish(rules, s, n, Rejected, Some("BAD_MAC"), now);
      Confirm(rules, g, now, n, window, presented, alive, fate) ==
        if window != r.window then (s, AnswerFor(LeftAlone))
        else if !alive(r.session) then (gone, if n in gone.records then Answered(AnswerOf(gone.records[n])) else Raised)
        else if !MacOk(rules, n, r, presented) then (bad, if n in bad.records then Answered(AnswerOf(bad.records[n])) else Raised)
        else Decided(rules, s, now, n, fate)
  {
    hide Sweep, Decided, MacOk;
  }

  /** A confirm of a pending nonce inside its deadline: what it leaves in the record, and what it answers. */
  lemma ConfirmAnswersExactly(rules: Rules, g: State, now: real, n: string, window: string, presented: Option<string>,
                              alive: string -> bool, fate: Fate)
    requires Inv(rules, g) && Marked(g) && now >= g.clock && PendingIn(g, n) && now < g.records[n].deadline
    ensures var (h, out) := Confirm(rules, g, now, n, window, presented, alive, fate);
      var v := VerdictOf(rules, g, n, window, presented, alive, fate);
      && out == AnswerFor(v)
      && (if v.LeftAlone? then PendingIn(h, n) && h.records[n] == g.records[n] else Ended(g.records[n], h, n, v, now))
  {
    hide Inv, Sweep, Decided, Finish, Ended, Marked, Unchanged, Confirm, AnswerFor, AnswerOf, Grows;
    var s := Sweep(rules, g, now);
    SweepKeepsInv(rules, g, now);
    SweepKeepsPending(rules, g, now, n);
    ConfirmAt(rules, g, now, n, window, presented, alive, fate);
    FinishEnds(rules, s, n, "SESSION_GONE", now);
    FinishEnds(rules, s, n, "BAD_MAC", now);
    PendingIsUnmarked(g, n);
    DecidedExactly(rules, s, now, n, fate);
  }

  lemma PendingIsUnmarked(g: State, n: string)
    requires Marked(g) && PendingIn(g, n)
    ensures !g.records[n].superseded
  {
  }

  lemma FinishEnds(rules: Rules, g: State, n: string, reason: string, now: real)
    requires n in g.records
    ensures var k := Finish(rules, g, n, Rejected, Some(reason), now);
      var v := Ends(Rejected, Some(reason), g.records[n].superseded, false);
      Ended(g.records[n], k, n, v, now) && n in k.records && Answered(AnswerOf(k.records[n])) == AnswerFor(v)
  {
  }
}
