/**
  The guarantees of the Human-Proof gate over whole runs: any sequence of begin, view, deny and
  confirm calls, mixed with arbitrary changes of the materials by the rest of the system.
 */
module GateRuns {
  import opened Wrappers
  import opened Gate
  import opened GateInvariant
  import J = CanonicalJson
  import O = CanonicalOrder
  import Locators

  // ---------------------------------------------------------------------------------------
  // When a confirm writes

  /** The only way into the transaction: pending, inside its deadline, right window, live session, verified MAC. */
  ghost predicate MayCommit(rules: Rules, g: State, now: real, n: string, window: string, presented: Option<string>, alive: string -> bool) {
    && PendingIn(g, n) && now < g.records[n].deadline
    && g.records[n].window == window && alive(g.records[n].session) && MacOk(rules, n, g.records[n], presented)
  }

  /** The material is still there, still unverified, and still digests to the hash that was shown. */
  predicate Unchanged(rules: Rules, db: Db, r: Record) {
    && r.target in db.materials && !db.materials[r.target].verified
    && Digest(rules, r.action, r.target, db.materials[r.target]) == r.requestHash
  }

  /** The write of a commit: one row, one verified flag. */
  function WrittenDb(db: Db, n: string, r: Record): Db
    requires r.target in db.materials
  {
    Db(db.materials[r.target := db.materials[r.target].(verified := true)], db.log + [Row(n, r.action, r.target, r.requestHash)])
  }

  lemma SweepKeepsPending(rules: Rules, g: State, now: real, n: string)
    requires Inv(rules, g) && now >= g.clock
    ensures var h := Sweep(rules, g, now);
      && (PendingIn(g, n) && now < g.records[n].deadline <==> PendingIn(h, n))
      && (PendingIn(h, n) ==> h.records[n] == g.records[n])
      && (n in h.records && !PendingIn(h, n) ==> Terminal(h.records[n].status))
  {
    hide Sweep;
    SweepIsSwept(rules, g, now);
    assert SweptNonce(rules, g, Sweep(rules, g, now), now, n) && NonceOk(rules, g, n);
    SweepKeepsInv(rules, g, now);
    if n in Sweep(rules, g, now).records { NeverCommitting(rules, Sweep(rules, g, now), n); }
  }

  lemma CommitGateWrites(rules: Rules, db: Db, n: string, r: Record, fate: Fate)
    requires !Logged(db, n)
    ensures var (after, commit) := CommitGate(rules, db, n, r, fate);
      && (after == db || (r.target in db.materials && after == WrittenDb(db, n, r)))
      && (after != db <==> Unchanged(rules, db, r) && !fate.BreaksBefore?)
      && (commit == Written ==> after != db)
      && (commit.Refused? ==> after == db)
  {
    hide Digest;
    if Unchanged(rules, db, r) { assert |WrittenDb(db, n, r).log| == |db.log| + 1; }
  }

  /** A nonce that is in the log already gets no second row, whatever else holds. */
  lemma LoggedIsRefused(rules: Rules, db: Db, n: string, r: Record, fate: Fate)
    requires Logged(db, n)
    ensures var (after, commit) := CommitGate(rules, db, n, r, fate);
      after == db && commit != Written && (Unchanged(rules, db, r) && !fate.BreaksBefore? ==> commit == Failed(false))
  {
    hide Digest;
  }

  lemma DecidedDb(rules: Rules, g: State, now: real, n: string, fate: Fate)
    requires n in g.records
    ensures Decided(rules, g, now, n, fate).0.db == CommitGate(rules, g.db, n, g.records[n], fate).0
    ensures Decided(rules, g, now, n, fate).1.Answered? && Decided(rules, g, now, n, fate).1.answer.status == Committed ==>
      CommitGate(rules, g.db, n, g.records[n], fate).1 == Written
  {
    hide Digest;
  }

  /**
    A confirm changes the database exactly when the nonce may commit, the material is unchanged inside the
    transaction and the transaction is not broken off; then it writes one row and that material's flag.
    COMMITTED is answered first only after such a write.
   */
  lemma ConfirmWritesExactly(rules: Rules, g: State, now: real, n: string, window: string, presented: Option<string>,
                             alive: string -> bool, fate: Fate)
    requires Inv(rules, g) && now >= g.clock
    ensures var (h, out) := Confirm(rules, g, now, n, window, presented, alive, fate);
      && (h.db != g.db <==>
            MayCommit(rules, g, now, n, window, presented, alive) && Unchanged(rules, g.db, g.records[n]) && !fate.BreaksBefore?)
      && (h.db != g.db ==> h.db == WrittenDb(g.db, n, g.records[n]))
      && (out.Answered? && out.answer.status == Committed && h.db == g.db ==> Logged(g.db, n))
  {
    hide Inv, Sweep, Decided, CommitGate, Digest, Logged, Unchanged, MacOk, WrittenDb;
    var s := Sweep(rules, g, now);
    SweepKeepsInv(rules, g, now);
    SweepKeepsPending(rules, g, now, n);
    if PendingIn(s, n) {
      assert MayCommit(rules, g, now, n, window, presented, alive) ==>
        Confirm(rules, g, now, n, window, presented, alive, fate) == Decided(rules, s, now, n, fate);
      DecidedWrites(rules, s, now, n, fate);
    } else {
      CommittedIsLogged(rules, s, n);
    }
  }

  lemma DecidedWrites(rules: Rules, g: State, now: real, n: string, fate: Fate)
    requires Inv(rules, g) && PendingIn(g, n)
    ensures var (h, out) := Decided(rules, g, now, n, fate);
      && (h.db == g.db || (g.records[n].target in g.db.materials && h.db == WrittenDb(g.db, n, g.records[n])))
      && (h.db != g.db <==> Unchanged(rules, g.db, g.records[n]) && !fate.BreaksBefore?)
      && (out.Answered? && out.answer.status == Committed ==> h.db != g.db)
  {
    PendingHasNotEnded(rules, g, n);
    hide Inv, Decided, CommitGate, Digest, Logged, Unchanged, WrittenDb;
    CommitGateWrites(rules, g.db, n, g.records[n], fate);
    DecidedDb(rules, g, now, n, fate);
  }

  lemma CommittedIsLogged(rules: Rules, g: State, n: string)
    requires Inv(rules, g)
    ensures n in g.records && g.records[n].status == Committed ==> Logged(g.db, n)
  {
    assert NonceOk(rules, g, n);
  }

  /** Otherwise the transaction is never entered: nothing the database would do makes a difference. */
  lemma OtherwiseNotAttempted(rules: Rules, g: State, now: real, n: string, window: string, presented: Option<string>,
                              alive: string -> bool, fate: Fate, fate': Fate)
    requires Inv(rules, g) && now >= g.clock && !MayCommit(rules, g, now, n, window, presented, alive)
    ensures Confirm(rules, g, now, n, window, presented, alive, fate) == Confirm(rules, g, now, n, window, presented, alive, fate')
  {
    SweepKeepsPending(rules, g, now, n);
    hide Inv, Sweep, Decided, MacOk;
  }

  /**
    How one confirm ends a pending nonce: past its deadline it has expired at the deadline, however late that is noticed;
    before it, only a wrong window leaves it pending, and it ends now, COMMITTED iff the transaction wrote and returned.
   */
  lemma ConfirmEnds(rules: Rules, g: State, now: real, n: string, window: string, presented: Option<string>, alive: string -> bool, fate: Fate)
    requires Inv(rules, g) && now >= g.clock && PendingIn(g, n)
    ensures var (h, r) := (Confirm(rules, g, now, n, window, presented, alive, fate).0, g.records[n]);
      if now >= r.deadline then n in h.ended && h.ended[n] == Ending(r.session, Expired, None, r.deadline)
      else if window != r.window then PendingIn(h, n) && h.records[n] == r && n !in h.ended
      else n in h.ended && h.ended[n].at == now && (h.ended[n].status == Committed <==> h.db != g.db && fate.Smooth?)
             && (h.ended[n].status != Committed ==> h.ended[n].status == Rejected)
  {
    hide Inv, Sweep, Decided, Logged, MacOk, SweepOn;
    var s := Sweep(rules, g, now);
    SweepKeepsInv(rules, g, now);
    SweepKeepsPending(rules, g, now, n);
    if now >= g.records[n].deadline { SweepEndsDue(rules, g, now, n); }
    if PendingIn(s, n) {
      PendingHasNotEnded(rules, s, n);
      DecidedEnds(rules, s, now, n, fate);
      assert MayCommit(rules, g, now, n, window, presented, alive) ==>
        Confirm(rules, g, now, n, window, presented, alive, fate) == Decided(rules, s, now, n, fate);
    }
  }

  lemma SweepEndsDue(rules: Rules, g: State, now: real, n: string)
    requires Inv(rules, g) && PendingIn(g, n) && now >= g.records[n].deadline
    ensures var h := Sweep(rules, g, now);
      n in h.records && Terminal(h.records[n].status) && n in h.ended
      && h.ended[n] == Ending(g.records[n].session, Expired, None, g.records[n].deadline)
  {
    hide Sweep;
    SweepIsSwept(rules, g, now);
    assert SweptNonce(rules, g, Sweep(rules, g, now), now, n) && NonceOk(rules, g, n);
  }

  lemma DecidedEnds(rules: Rules, g: State, now: real, n: string, fate: Fate)
    requires Inv(rules, g) && PendingIn(g, n)
    ensures var h := Decided(rules, g, now, n, fate).0;
      n in h.ended && h.ended[n].at == now && (h.ended[n].status == Committed <==> h.db != g.db && fate.Smooth?)
      && (h.ended[n].status != Committed ==> h.ended[n].status == Rejected)
  {
    PendingHasNotEnded(rules, g, n);
    hide Inv, Digest, Logged;
    CommitGateWrites(rules, g.db, n, g.records[n], fate);
  }

  // ---------------------------------------------------------------------------------------
  // At most one row per nonce, over every run

  /** What one step may append to the log. */
  lemma StepAppends(rules: Rules, g: State, e: Event)
    requires Inv(rules, g) && Enabled(g, e)
    ensures var log := Apply(rules, g, e).db.log;
      log == g.db.log || (e.ConfirmEvent? && e.nonce in g.begun && |log| == |g.db.log| + 1
                          && log[..|g.db.log|] == g.db.log && log[|g.db.log|].nonce == e.nonce)
  {
    hide Inv, Sweep, Confirm, MayCommit, Unchanged, Digest;
    match e
    case BeginEvent(now, _, _, _, _, _, _, _) => SweepKeepsInv(rules, g, now);
    case ViewEvent(now, _, _, _) => SweepKeepsInv(rules, g, now);
    case DenyEvent(now, _) => SweepKeepsInv(rules, g, now);
    case WorldEvent(_) =>
    case ConfirmEvent(now, n, w, p, alive, fate) =>
      ConfirmWritesExactly(rules, g, now, n, w, p, alive, fate);
      if MayCommit(rules, g, now, n, w, p, alive) { MayCommitBegun(rules, g, now, n, w, p, alive); }
  }

  lemma MayCommitBegun(rules: Rules, g: State, now: real, n: string, window: string, presented: Option<string>, alive: string -> bool)
    requires Inv(rules, g) && MayCommit(rules, g, now, n, window, presented, alive)
    ensures n in g.begun
  {
    assert NonceOk(rules, g, n);
  }

  /** The rows appended since the start of a run are rows of nonces begun by then. */
  lemma {:induction false} RowsAreBegun(rules: Rules, g: State, events: seq<Event>, i: nat)
    requires Inv(rules, g) && RunEnabled(rules, g, events)
    ensures var log := Run(rules, g, events).db.log;
      |g.db.log| <= i < |log| ==> log[i].nonce in Run(rules, g, events).begun
    decreases |events|
  {
    hide Inv, Apply;
    if events != [] {
      var h := Apply(rules, g, events[0]);
      StepAppends(rules, g, events[0]);
      StepKeepsInv(rules, g, events[0]);
      RowsAreBegun(rules, h, events[1..], i);
      RunKeepsInv(rules, h, events[1..]);
    }
  }

  /**
    Safety of every run of a new process: the log is only appended to, no nonce has two rows (not even after its
    record was pruned), every new row is that of a nonce begun in this process, for the target and the hash it was
    begun with, and a nonce that ended COMMITTED has its row. Without a row, it ended otherwise.
   */
  lemma CommittedAtMostOnce(rules: Rules, g: State, events: seq<Event>)
    requires Sane(rules) && Initial(g) && RunEnabled(rules, g, events)
    ensures var h := Run(rules, g, events);
      && g.db.log <= h.db.log && DistinctRows(h.db.log)
      && (forall i :: |g.db.log| <= i < |h.db.log| ==> h.db.log[i].nonce in h.begun && RowOk(h, h.db.log[i]))
      && (forall n :: n in h.ended && h.ended[n].status == Committed ==> Logged(h.db, n))
  {
    InitialInv(rules, g);
    RunKeepsInv(rules, g, events);
    var h := Run(rules, g, events);
    forall i | |g.db.log| <= i < |h.db.log| ensures h.db.log[i].nonce in h.begun && RowOk(h, h.db.log[i]) {
      RowsAreBegun(rules, g, events, i);
    }
    forall n | n in h.ended && h.ended[n].status == Committed ensures Logged(h.db, n) {
      assert NonceOk(rules, h, n);
    }
  }

  // ---------------------------------------------------------------------------------------
  // Who gets in

  /** A begin is accepted exactly for a well-formed request on a known, unverified material, by an idle session outside its cooldown. */
  lemma BeginAcceptsExactly(rules: Rules, g: State, e: Event)
    requires Inv(rules, g) && Enabled(g, e) && e.BeginEvent?
    ensures Begin(rules, g, e.now, e.session, e.window, e.action, e.target, e.params, e.seen, e.nonce).1.Ok? <==>
      && rules.hasSecret && e.action == VERIFY && e.params == J.Dict(CleanParams(e.target)) && Locators.IsEntityId(e.target)
      && e.seen.Some? && !e.seen.value.verified
      && (forall n :: PendingIn(g, n) && g.records[n].session == e.session ==> e.now >= g.records[n].deadline)
      && (forall n :: RefusedIn(Sweep(rules, g, e.now), n, e.session) ==> Sweep(rules, g, e.now).ended[n].at + rules.cooldown <= e.now)
  {
    var s := Sweep(rules, g, e.now);
    SweepKeepsInv(rules, g, e.now);
    BusyExactly(rules, g, e.now, e.session);
    ClockIsNotNegative(rules, s);
    CoolingExactly(rules, s, e.session, e.now);
    hide Inv, Sweep, Busy, Cooling, Fresh, Open, RefusedIn, Locators.IsEntityId, CleanParams, KnownAction;
    assert KnownAction(VERIFY);
  }

  lemma CoolingExactly(rules: Rules, g: State, session: string, now: real)
    requires Inv(rules, g) && now >= 0.0
    ensures Cooling(g, session, now) <==> exists n :: RefusedIn(g, n, session) && now < g.ended[n].at + rules.cooldown
  {
    CooldownIsOfLatestRefusal(rules, g, session);
    hide Inv, RefusedIn;
  }

  lemma ClockIsNotNegative(rules: Rules, g: State)
    requires Inv(rules, g)
    ensures g.clock >= 0.0
  {
  }

  lemma BusyExactly(rules: Rules, g: State, now: real, session: string)
    requires Inv(rules, g) && now >= g.clock
    ensures Busy(Sweep(rules, g, now), session) <==>
      exists n :: PendingIn(g, n) && g.records[n].session == session && now < g.records[n].deadline
  {
    var s := Sweep(rules, g, now);
    hide Inv, Sweep;
    if Busy(s, session) {
      var n :| n in s.records && s.records[n].session == session && s.records[n].status == Pending;
      SweepKeepsPending(rules, g, now, n);
    }
    if n :| PendingIn(g, n) && g.records[n].session == session && now < g.records[n].deadline {
      SweepKeepsPending(rules, g, now, n);
    }
  }

  /** A view shows exactly a nonce that its window could still confirm, with what will be digested and the time left. */
  lemma ViewShowsExactly(rules: Rules, g: State, now: real, n: string, window: string, alive: string -> bool)
    requires Inv(rules, g) && now >= g.clock
    ensures var v := Look(Sweep(rules, g, now), n, window, alive, now);
      && (v.Shown? <==> PendingIn(g, n) && now < g.records[n].deadline && g.records[n].window == window && alive(g.records[n].session))
      && (v.Shown? ==>
            v == Shown(g.records[n].summary, g.records[n].target, g.records[n].requestHash, g.records[n].deadline - now) && v.expiresIn > 0.0)
  {
    SweepKeepsPending(rules, g, now, n);
    hide Inv, Sweep;
  }

  /** A deny ends a pending nonce now; past its deadline it had expired before. Nothing is ever written. */
  lemma DenyEnds(rules: Rules, g: State, now: real, n: string)
    requires Inv(rules, g) && now >= g.clock && PendingIn(g, n)
    ensures var (h, a) := Deny(rules, g, now, n);
      && h.db == g.db && n in h.ended
      && h.ended[n] == (if now < g.records[n].deadline then Ending(g.records[n].session, Denied, None, now)
                        else Ending(g.records[n].session, Expired, None, g.records[n].deadline))
      && a.status == h.ended[n].status && a.reason == None
  {
    hide Inv, Sweep;
    SweepKeepsInv(rules, g, now);
    SweepKeepsPending(rules, g, now, n);
    var s := Sweep(rules, g, now);
    if now >= g.records[n].deadline {
      SweepEndsDue(rules, g, now, n);
      assert RecordOk(rules, s, n) by { SweptRecordOk(rules, s, n); }
    }
  }

  lemma SweptRecordOk(rules: Rules, g: State, n: string)
    requires Inv(rules, g)
    ensures RecordOk(rules, g, n)
  {
    assert NonceOk(rules, g, n);
  }

  // ---------------------------------------------------------------------------------------
  // What was shown is what is written

  /** SHA-256 does not collide on these two digested texts. */
  ghost predicate NoCollision(rules: Rules, a: O.Request, b: O.Request) {
    var x, y := O.RequestText(rules.nfc, a), O.RequestText(rules.nfc, b);
    x.Some? && y.Some? && rules.sha(x.value) == rules.sha(y.value) ==> x == y
  }

  lemma EqualDigests(rules: Rules, action: string, t: Target, action': string, t': Target, target: string)
    requires O.KeepsFieldNames(rules.nfc)
    requires NoCollision(rules, RequestOf(rules, action, target, t), RequestOf(rules, action', target, t'))
    requires Digest(rules, action, target, t) == Digest(rules, action', target, t')
    ensures O.SameRequest(rules.nfc, RequestOf(rules, action, target, t), RequestOf(rules, action', target, t'))
  {
    var a, b := RequestOf(rules, action, target, t), RequestOf(rules, action', target, t');
    RequestHasText(rules, action, target, t);
    RequestHasText(rules, action', target, t');
    O.RequestTextBinds(rules.nfc, a, b);
  }

  /**
    From a begin that read the material as `seen`, through any run, to a confirm of that nonce that writes:
    the material written to has, up to NFC, the summary and the fingerprint of the one that was seen.
   */
  lemma WritesWhatWasShown(rules: Rules, g: State, e: Event, events: seq<Event>, now: real, window: string,
                           presented: Option<string>, alive: string -> bool, fate: Fate)
    requires Inv(rules, g) && Enabled(g, e) && e.BeginEvent? && O.KeepsFieldNames(rules.nfc)
    requires Begin(rules, g, e.now, e.session, e.window, e.action, e.target, e.params, e.seen, e.nonce).1.Ok?
    requires RunEnabled(rules, Apply(rules, g, e), events) && now >= Run(rules, Apply(rules, g, e), events).clock
    requires Confirm(rules, Run(rules, Apply(rules, g, e), events), now, e.nonce, window, presented, alive, fate).0.db
             != Run(rules, Apply(rules, g, e), events).db
    ensures var h := Run(rules, Apply(rules, g, e), events);
      && e.seen.Some? && e.nonce in h.records && e.target in h.db.materials && h.records[e.nonce].target == e.target
      && var (a, b) := (RequestOf(rules, VERIFY, e.target, e.seen.value),
                        RequestOf(rules, h.records[e.nonce].action, e.target, h.db.materials[e.target]));
         NoCollision(rules, a, b) ==> O.SameRequest(rules.nfc, a, b)
  {
    var g1 := Apply(rules, g, e);
    BeginOpens(rules, g, e);
    StepKeepsInv(rules, g, e);
    RunKeepsInv(rules, g1, events);
    var h := Run(rules, g1, events);
    hide Run, RunEnabled, Apply, Begin;
    ConfirmWritesExactly(rules, h, now, e.nonce, window, presented, alive, fate);
    assert NonceOk(rules, h, e.nonce);
    hide Inv, Confirm, Digest, O.SameRequest, NoCollision, O.KeepsFieldNames;
    var r := h.records[e.nonce];
    var a, b := RequestOf(rules, VERIFY, e.target, e.seen.value), RequestOf(rules, r.action, e.target, h.db.materials[e.target]);
    if NoCollision(rules, a, b) {
      EqualDigests(rules, VERIFY, e.seen.value, r.action, h.db.materials[e.target], e.target);
    }
  }

  lemma BeginOpens(rules: Rules, g: State, e: Event)
    requires e.BeginEvent?
    requires Begin(rules, g, e.now, e.session, e.window, e.action, e.target, e.params, e.seen, e.nonce).1.Ok?
    ensures e.seen.Some? && e.action == VERIFY
    ensures var h := Apply(rules, g, e);
      && e.nonce in h.begun && h.begun[e.nonce].target == e.target && h.begun[e.nonce].session == e.session
      && h.begun[e.nonce].at == e.now && h.clock == e.now
      && h.begun[e.nonce].serial == |Sweep(rules, g, e.now).begun|
      && h.begun[e.nonce].requestHash == Digest(rules, VERIFY, e.target, e.seen.value)
  {
    hide Busy, Digest, Summary, SweepOn;
  }

  // ---------------------------------------------------------------------------------------
  // PENDING, terminal answers and retention

  /** Between calls a session has at most one PENDING record, and no record is COMMITTING. */
  lemma OnePendingPerSession(rules: Rules, g: State, events: seq<Event>)
    requires Sane(rules) && Initial(g) && RunEnabled(rules, g, events)
    ensures var h := Run(rules, g, events);
      && (forall m, n :: PendingIn(h, m) && PendingIn(h, n) && h.records[m].session == h.records[n].session ==> m == n)
      && (forall n :: n in h.records ==> h.records[n].status != Committing)
  {
    InitialInv(rules, g);
    RunKeepsInv(rules, g, events);
    var h := Run(rules, g, events);
    forall m, n | PendingIn(h, m) && PendingIn(h, n) && h.records[m].session == h.records[n].session ensures m == n {
      assert PairOk(rules, h, m, n);
    }
    forall n | n in h.records ensures h.records[n].status != Committing { NeverCommitting(rules, h, n); }
  }

  /** While an ended nonce is within its retention time it keeps its record, with the state and reason it ended with. */
  lemma EndedIsKept(rules: Rules, g: State, n: string)
    requires Inv(rules, g) && n in g.ended && g.clock <= g.ended[n].at + rules.keep
    ensures n in g.records && g.records[n].status == g.ended[n].status && g.records[n].reason == g.ended[n].reason
    ensures Terminal(g.records[n].status)
  {
    assert NonceOk(rules, g, n);
  }

  lemma SweepKeepsEnding(rules: Rules, g: State, now: real, n: string)
    requires Inv(rules, g) && now >= g.clock && n in g.ended && now <= g.ended[n].at + rules.keep
    ensures var s := Sweep(rules, g, now);
      n in s.records && s.records[n].status == g.ended[n].status && s.records[n].reason == g.ended[n].reason && Terminal(s.records[n].status)
    ensures Sweep(rules, g, now).db == g.db
  {
    SweepKeepsInv(rules, g, now);
    hide Inv, Sweep;
    EndedIsKept(rules, Sweep(rules, g, now), n);
  }

  /**
    However the run goes on, an ended nonce answers with the state and reason it ended with for at least the
    retention time, whether it is denied or confirmed again (with any window and MAC), and nothing is written.
   */
  lemma EndedIsAnswered(rules: Rules, g: State, events: seq<Event>, n: string, now: real, window: string,
                        presented: Option<string>, alive: string -> bool, fate: Fate)
    requires Inv(rules, g) && n in g.ended && RunEnabled(rules, g, events)
    requires Run(rules, g, events).clock <= now <= g.ended[n].at + rules.keep
    ensures var h, e := Run(rules, g, events), g.ended[n];
      && (var (k, a) := Deny(rules, h, now, n); a.status == e.status && a.reason == e.reason && k.db == h.db)
      && (var (l, b) := Confirm(rules, h, now, n, window, presented, alive, fate);
          b.Answered? && b.answer.status == e.status && b.answer.reason == e.reason && l.db == h.db)
  {
    RunKeepsInv(rules, g, events);
    var h := Run(rules, g, events);
    hide Run, RunEnabled;
    SweepKeepsEnding(rules, h, now, n);
    hide Inv, Sweep, Grows, Decided, MacOk;
  }

  lemma SweepForgets(rules: Rules, g: State, now: real, n: string)
    requires Inv(rules, g) && now >= g.clock && n in g.ended
    ensures n in Sweep(rules, g, now).records <==> now <= g.ended[n].at + rules.keep
  {
    hide Sweep;
    SweepIsSwept(rules, g, now);
    assert SweptNonce(rules, g, Sweep(rules, g, now), now, n) && NonceOk(rules, g, n);
  }

  /** And no longer: once the retention time is over, every call forgets the nonce and answers as if it had never existed. */
  lemma EndedIsForgotten(rules: Rules, g: State, events: seq<Event>, n: string, now: real, window: string,
                         presented: Option<string>, alive: string -> bool, fate: Fate)
    requires Inv(rules, g) && n in g.ended && RunEnabled(rules, g, events)
    requires now >= Run(rules, g, events).clock && now > g.ended[n].at + rules.keep
    ensures var h := Run(rules, g, events); var s := Sweep(rules, h, now);
      && Deny(rules, h, now, n) == (s, UNKNOWN) && n !in s.records && s.db == h.db
      && Confirm(rules, h, now, n, window, presented, alive, fate) == (s, Answered(UNKNOWN))
      && Look(s, n, window, alive, now) == NoView("UNKNOWN")
  {
    RunKeepsInv(rules, g, events);
    var h := Run(rules, g, events);
    hide Run, RunEnabled;
    SweepForgets(rules, h, now, n);
    SweepKeepsInv(rules, h, now);
    hide Inv, Sweep, Grows, Decided, MacOk;
  }

  // ---------------------------------------------------------------------------------------
  // Cooldown

  /** A session has a cooldown iff it was refused, and the value is that of its latest refusal. */
  lemma CooldownIsOfLatestRefusal(rules: Rules, g: State, s: string)
    requires Inv(rules, g)
    ensures s in g.cooldown <==> exists n :: RefusedIn(g, n, s)
    ensures s in g.cooldown ==>
      && (exists n :: RefusedIn(g, n, s) && g.cooldown[s] == g.ended[n].at + rules.cooldown)
      && (forall n :: RefusedIn(g, n, s) ==> g.ended[n].at + rules.cooldown <= g.cooldown[s])
  {
    assert CooldownOk(rules, g, s);
    forall n | RefusedIn(g, n, s) ensures s in g.cooldown && g.ended[n].at + rules.cooldown <= g.cooldown[s] {
      assert NonceOk(rules, g, n);
    }
  }

  /** No session's cooldown value ever decreases, although an expiry is stamped with its deadline and may be seen late. */
  lemma CooldownNeverDecreases(rules: Rules, g: State, events: seq<Event>, more: seq<Event>, s: string)
    requires Sane(rules) && Initial(g) && RunEnabled(rules, g, events) && RunEnabled(rules, Run(rules, g, events), more)
    ensures var h, k := Run(rules, g, events), Run(rules, Run(rules, g, events), more);
      s in h.cooldown ==> s in k.cooldown && h.cooldown[s] <= k.cooldown[s]
  {
    InitialInv(rules, g);
    RunKeepsInv(rules, g, events);
    RunKeepsInv(rules, Run(rules, g, events), more);
  }

  /** An accepted begin comes after every earlier nonce of its session has ended and every refusal's cooldown is over. */
  lemma BeginOutsideCooldown(rules: Rules, g: State, e: Event, m: string)
    requires Inv(rules, g) && Enabled(g, e) && e.BeginEvent? && m in g.begun && g.begun[m].session == e.session
    requires Begin(rules, g, e.now, e.session, e.window, e.action, e.target, e.params, e.seen, e.nonce).1.Ok?
    ensures var h := Apply(rules, g, e);
      m in h.ended && h.ended[m].at <= e.now && (Refusal(h.ended[m].status) ==> h.ended[m].at + rules.cooldown <= e.now)
  {
    BeginOpens(rules, g, e);
    StepKeepsInv(rules, g, e);
    SweepKeepsInv(rules, g, e.now);
    assert BegunOk(Sweep(rules, g, e.now), m) by { assert NonceOk(rules, Sweep(rules, g, e.now), m); }
    assert PairOk(rules, Apply(rules, g, e), m, e.nonce);
    hide Inv, Begin, Apply, Sweep;
  }

  /** The spacing holds between any two nonces of one session, at the end of any run. */
  lemma NoncesAreSpaced(rules: Rules, g: State, events: seq<Event>, m: string, n: string)
    requires Sane(rules) && Initial(g) && RunEnabled(rules, g, events)
    requires var h := Run(rules, g, events);
      m in h.begun && n in h.begun && h.begun[m].session == h.begun[n].session && h.begun[m].serial < h.begun[n].serial
    ensures var h := Run(rules, g, events);
      m in h.ended && h.ended[m].at <= h.begun[n].at && (Refusal(h.ended[m].status) ==> h.ended[m].at + rules.cooldown <= h.begun[n].at)
  {
    InitialInv(rules, g);
    RunKeepsInv(rules, g, events);
    assert PairOk(rules, Run(rules, g, events), m, n);
  }
}
