/**
  The service itself: records and cooldowns in fields, changed in place under the service lock.
  Every method is proved against the transition of the same name in module Gate.

  Two notes on form. The clock reading, the new nonce and the material that `begin` reads before it
  takes the lock are parameters. The fate of the transaction is one too: it stands for the database
  failing before or after the commit takes effect.
 */
module GateService {
  import opened Wrappers
  import opened Gate
  import opened GateInvariant
  import J = CanonicalJson

  // ---------------------------------------------------------------------------------------
  // One record after another: the loop of _expire

  lemma SweepOnNothing(rules: Rules, g: State, now: real)
    ensures SweepOn(rules, g, {}, now) == g
  {
    hide Due, Stale, Aged;
    assert SweepOn(rules, g, {}, now).records == g.records;
    assert SweepOn(rules, g, {}, now).cooldown == g.cooldown;
    assert SweepOn(rules, g, {}, now).ended == g.ended;
  }

  ghost predicate OneDuePerSession(g: State, now: real) {
    forall m, n :: DueIn(g, m, now) && DueIn(g, n, now) && g.records[m].session == g.records[n].session ==> m == n
  }

  /** What the loop body does to the record of `n`. */
  ghost function Visit(rules: Rules, g: State, n: string, now: real): State
    requires n in g.records
  {
    var r := g.records[n];
    if Due(r, now) then Finish(rules, g, n, Expired, None, r.deadline)
    else if Stale(rules, r, now) then g.(records := g.records - {n})
    else g
  }

  lemma DueGrows(g: State, ns: set<string>, n: string, now: real)
    requires n in g.records
    ensures DueSessions(g, ns + {n}, now) ==
      DueSessions(g, ns, now) + if Due(g.records[n], now) then {g.records[n].session} else {}
  {
    hide Due;
  }

  /** The cooldowns after one more record. */
  ghost function OneMore(rules: Rules, g: State, cooldown: map<string, real>, n: string, now: real): map<string, real>
    requires n in g.records
  {
    if Due(g.records[n], now) then cooldown[g.records[n].session := g.records[n].deadline + rules.cooldown] else cooldown
  }

  lemma CooldownAt(rules: Rules, g: State, ns: set<string>, n: string, now: real, t: string)
    requires OneDuePerSession(g, now) && n !in ns && n in g.records
    ensures var a, b := OneMore(rules, g, SweepOn(rules, g, ns, now).cooldown, n, now), SweepOn(rules, g, ns + {n}, now).cooldown;
      (t in a <==> t in b) && (t in a ==> a[t] == b[t])
  {
    DueGrows(g, ns, n, now);
    if t in DueSessions(g, ns, now) { DueStays(g, ns, n, now, t); }
    if Due(g.records[n], now) { DueIsUnique(g, ns + {n}, n, now); DueIsNew(g, ns, n, now); }
    hide DueSessions, DueNonce, Due, OneDuePerSession;
  }

  lemma VisitCooldown(rules: Rules, g: State, ns: set<string>, n: string, now: real)
    requires OneDuePerSession(g, now) && n !in ns && n in g.records
    ensures SweepOn(rules, g, ns + {n}, now).cooldown == OneMore(rules, g, SweepOn(rules, g, ns, now).cooldown, n, now)
  {
    hide SweepOn, OneMore, OneDuePerSession;
    var a, b := OneMore(rules, g, SweepOn(rules, g, ns, now).cooldown, n, now), SweepOn(rules, g, ns + {n}, now).cooldown;
    forall t ensures (t in a <==> t in b) && (t in a ==> a[t] == b[t]) { CooldownAt(rules, g, ns, n, now, t); }
    assert a == b;
  }

  lemma DueIsUnique(g: State, ns: set<string>, n: string, now: real)
    requires OneDuePerSession(g, now) && n in ns && DueIn(g, n, now)
    ensures g.records[n].session in DueSessions(g, ns, now) && DueNonce(g, ns, now, g.records[n].session) == n
  {
    assert g.records[n].session in DueSessions(g, ns, now);
    assert DueIn(g, DueNonce(g, ns, now, g.records[n].session), now);
  }

  lemma DueIsNew(g: State, ns: set<string>, n: string, now: real)
    requires OneDuePerSession(g, now) && n !in ns && DueIn(g, n, now)
    ensures g.records[n].session !in DueSessions(g, ns, now)
  {
    if g.records[n].session in DueSessions(g, ns, now) {
      assert DueIn(g, DueNonce(g, ns, now, g.records[n].session), now);
    }
  }

  lemma DueStays(g: State, ns: set<string>, n: string, now: real, t: string)
    requires OneDuePerSession(g, now) && t in DueSessions(g, ns, now)
    ensures t in DueSessions(g, ns + {n}, now) && DueNonce(g, ns + {n}, now, t) == DueNonce(g, ns, now, t)
  {
    var m := DueNonce(g, ns, now, t);
    assert t in DueSessions(g, ns + {n}, now);
    var k := DueNonce(g, ns + {n}, now, t);
    assert DueIn(g, m, now) && DueIn(g, k, now);
  }

  lemma VisitRecords(rules: Rules, g: State, ns: set<string>, n: string, now: real)
    requires n !in ns && n in g.records
    ensures var a, b := SweepOn(rules, g, ns, now).records, SweepOn(rules, g, ns + {n}, now).records;
      n in a && a[n] == g.records[n] &&
      b == if Stale(rules, g.records[n], now) then a - {n} else a[n := Aged(g.records[n], now)]
  {
    hide Due, Stale, Aged, DueSessions;
    var a, b := SweepOn(rules, g, ns, now).records, SweepOn(rules, g, ns + {n}, now).records;
    assert b == if Stale(rules, g.records[n], now) then a - {n} else a[n := Aged(g.records[n], now)];
  }

  lemma VisitEnded(rules: Rules, g: State, ns: set<string>, n: string, now: real)
    requires n !in ns && n in g.records
    ensures SweepOn(rules, g, ns + {n}, now).ended ==
      if Due(g.records[n], now) then SweepOn(rules, g, ns, now).ended[n := Ending(g.records[n].session, Expired, None, g.records[n].deadline)]
      else SweepOn(rules, g, ns, now).ended
  {
    hide Due, Stale, Aged, DueSessions;
  }

  lemma VisitOne(rules: Rules, g: State, ns: set<string>, n: string, now: real)
    requires OneDuePerSession(g, now) && n !in ns && n in g.records
    ensures var a := SweepOn(rules, g, ns, now);
      n in a.records && a.records[n] == g.records[n] && SweepOn(rules, g, ns + {n}, now) == Visit(rules, a, n, now)
  {
    VisitCooldown(rules, g, ns, n, now);
    VisitRecords(rules, g, ns, n, now);
    VisitEnded(rules, g, ns, n, now);
    SweepOnKeeps(rules, g, ns, now);
    SweepOnKeeps(rules, g, ns + {n}, now);
    hide OneDuePerSession, SweepOn, Stale;
    VisitParts(rules, g, SweepOn(rules, g, ns, now), SweepOn(rules, g, ns + {n}, now), n, now);
  }

  lemma VisitParts(rules: Rules, g: State, a: State, b: State, n: string, now: real)
    requires n in g.records && n in a.records && a.records[n] == g.records[n]
    requires b.records == if Stale(rules, g.records[n], now) then a.records - {n} else a.records[n := Aged(g.records[n], now)]
    requires b.cooldown == OneMore(rules, g, a.cooldown, n, now)
    requires b.ended == if Due(g.records[n], now) then a.ended[n := Ending(g.records[n].session, Expired, None, g.records[n].deadline)] else a.ended
    requires b.db == a.db && b.begun == a.begun && b.clock == a.clock
    ensures b == Visit(rules, a, n, now)
  {
    assert a.records[n := a.records[n]] == a.records;
  }

  lemma SweepOnKeeps(rules: Rules, g: State, ns: set<string>, now: real)
    ensures var h := SweepOn(rules, g, ns, now); h.db == g.db && h.begun == g.begun && h.clock == g.clock
  {
  }

  lemma InvOneDue(rules: Rules, g: State, now: real)
    requires Inv(rules, g)
    ensures OneDuePerSession(g, now)
  {
    forall m, n | DueIn(g, m, now) && DueIn(g, n, now) && g.records[m].session == g.records[n].session ensures m == n {
      assert PairOk(rules, g, m, n);
    }
  }

  // ---------------------------------------------------------------------------------------

  /** The state database as the gate uses it (src/syllva/state/v2/writer.py). */
  class Database {
    var materials: map<string, Target>
    var log: seq<Row>

    constructor (materials: map<string, Target>, log: seq<Row>)
      ensures Rows() == Db(materials, log)
    {
      this.materials, this.log := materials, log;
    }

    function Rows(): Db
      reads this
    {
      Db(materials, log)
    }

    /** `commit_gate`: re-read, check, log row and verified flag, all inside one transaction. */
    method CommitGate(rules: Rules, n: string, r: Record, fate: Fate) returns (commit: Commit)
      modifies this
      ensures (Rows(), commit) == Gate.CommitGate(rules, old(Rows()), n, r, fate)
    {
      if fate.BreaksBefore? { return Failed(fate.fatal); }
      var reason := Recheck(rules, Rows(), r);
      if reason.Some? { return Refused(reason.value); }
      if exists i :: 0 <= i < |log| && log[i].nonce == n { return Failed(false); }
      log := log + [Row(n, r.action, r.target, r.requestHash)];
      materials := materials[r.target := materials[r.target].(verified := true)];
      return if fate.BreaksAfter? then Failed(fate.fatal) else Written;
    }
  }

  class GateService {
    const rules: Rules
    const db: Database
    var records: map<string, Record>
    var cooldown: map<string, real>
    ghost var begun: map<string, Opening>
    ghost var ended: map<string, Ending>
    ghost var clock: real

    ghost function Model(): State
      reads this, db
    {
      Gate.State(records, cooldown, db.Rows(), begun, ended, clock)
    }

    ghost predicate Valid()
      reads this, db
    {
      Inv(rules, Model())
    }

    constructor (rules: Rules, db: Database, ghost now: real)
      requires Sane(rules) && DistinctRows(db.log) && now >= 0.0
      ensures this.rules == rules && this.db == db && Valid() && Initial(Model()) && Model().db == db.Rows() && clock == now
    {
      this.rules, this.db, records, cooldown := rules, db, map[], map[];
      begun, ended, clock := map[], map[], now;
      new;
      InitialInv(rules, Model());
    }

    /** `_finish` */
    method FinishRecord(n: string, status: Status, reason: Option<string>, at: real)
      requires n in records
      modifies `records, `cooldown, `ended
      ensures Model() == Finish(rules, old(Model()), n, status, reason, at)
    {
      var r := records[n];
      records := records[n := r.(status := status, reason := reason, finished := Some(at))];
      if status == Rejected || status == Denied || status == Expired {
        cooldown := cooldown[r.session := at + rules.cooldown];
      }
      ended := ended[n := Ending(r.session, status, reason, at)];
    }

    /** One turn of the loop of `_expire`. */
    method ExpireOne(n: string, now: real)
      requires n in records
      modifies `records, `cooldown, `ended
      ensures Model() == Visit(rules, old(Model()), n, now)
    {
      var r := records[n];
      if r.status == Pending && now >= r.deadline {
        FinishRecord(n, Expired, None, r.deadline);
      } else if r.finished.Some? && now - r.finished.value > rules.keep {
        records := records - {n};
      }
    }

    /** The loop of `_expire`, over the records as they are at its start. */
    method ExpireEach(now: real)
      requires OneDuePerSession(Model(), now)
      modifies `records, `cooldown, `ended
      ensures Model() == SweepOn(rules, old(Model()), old(records.Keys), now)
    {
      hide SweepOn, Visit, OneDuePerSession;
      ghost var g := Model();
      ghost var done: set<string> := {};
      SweepOnNothing(rules, g, now);
      var todo := records.Keys;
      while todo != {}
        invariant done + todo == g.records.Keys && done !! todo
        invariant Model() == SweepOn(rules, g, done, now)
        decreases |todo|
      {
        var n :| n in todo;
        VisitOne(rules, g, done, n, now);
        ExpireOne(n, now);
        todo, done := todo - {n}, done + {n};
      }
      assert done == g.records.Keys;
    }

    /** `_expire` */
    method Expire(now: real)
      requires Valid() && now >= clock
      modifies `records, `cooldown, `ended, `clock
      ensures Valid() && Model() == Sweep(rules, old(Model()), now)
      ensures Grows(old(Model()), Model())
    {
      hide Inv, SweepOn, Grows, OneDuePerSession;
      SweepKeepsInv(rules, Model(), now);
      InvOneDue(rules, Model(), now);
      ExpireEach(now);
      clock := now;
    }

    method Begin(now: real, session: string, window: string, action: string, target: string, params: J.Value,
                 seen: Option<Target>, nonce: string)
      returns (out: Result<string, Code>)
      requires Valid() && now >= clock && nonce !in begun && !Logged(db.Rows(), nonce)
      modifies this
      ensures Valid() && (Model(), out) == Gate.Begin(rules, old(Model()), now, session, window, action, target, params, seen, nonce)
      ensures Grows(old(Model()), Model())
    {
      hide Inv, Sweep, Digest, Summary, Logged, Grows;
      BeginKeepsInv(rules, Model(), now, session, window, action, target, params, seen, nonce);
      var refused := Precheck(rules, action, target, params, seen);
      if refused.Some? { GrowsItself(Model()); return Err(refused.value); }
      var r := Fresh(rules, now, session, window, action, target, seen.value);
      Expire(now);
      if exists n :: n in records && records[n].session == session && records[n].status == Pending { return Err(GateBusy); }
      if now < (if session in cooldown then cooldown[session] else 0.0) { return Err(GateCooldown); }
      records := records[nonce := r];
      begun := begun[nonce := Opening(session, now, |begun|, target, r.requestHash)];
      return Ok(nonce);
    }

    lemma GrowsItself(g: State)
      ensures Grows(g, g)
    {
    }

    method View(now: real, n: string, window: string, alive: string -> bool) returns (view: Gate.View)
      requires Valid() && now >= clock
      modifies `records, `cooldown, `ended, `clock
      ensures Valid() && Model() == Sweep(rules, old(Model()), now) && Grows(old(Model()), Model())
      ensures view == Look(Model(), n, window, alive, now)
    {
      hide Inv, Sweep, Grows;
      Expire(now);
      if n !in records { return NoView("UNKNOWN"); }
      var r := records[n];
      if r.status == Expired { return NoView("EXPIRED"); }
      if r.status != Pending { return NoView("USED"); }
      if r.window != window { return NoView("WRONG_WINDOW"); }
      if !alive(r.session) { return NoView("SESSION_GONE"); }
      return Shown(r.summary, r.target, r.requestHash, if r.deadline > now then r.deadline - now else 0.0);
    }

    method Deny(now: real, n: string) returns (answer: Answer)
      requires Valid() && now >= clock
      modifies `records, `cooldown, `ended, `clock
      ensures Valid() && (Model(), answer) == Gate.Deny(rules, old(Model()), now, n)
      ensures Grows(old(Model()), Model())
    {
      hide Inv, Sweep, Finish, Grows;
      DenyKeepsInv(rules, Model(), now, n);
      Expire(now);
      if n !in records { return UNKNOWN; }
      if records[n].status == Pending { FinishRecord(n, Denied, None, now); }
      FinishKeepsRecord(rules, Gate.Sweep(rules, old(Model()), now), n, now);
      return AnswerOf(records[n]);
    }

    lemma FinishKeepsRecord(rules: Rules, g: State, n: string, now: real)
      requires n in g.records
      ensures n in Finish(rules, g, n, Denied, None, now).records
    {
    }

    method Confirm(now: real, n: string, window: string, presented: Option<string>, alive: string -> bool, fate: Fate)
      returns (out: Outcome)
      requires Valid() && now >= clock
      modifies `records, `cooldown, `ended, `clock, db
      ensures Valid() && (Model(), out) == Gate.Confirm(rules, old(Model()), now, n, window, presented, alive, fate)
      ensures Grows(old(Model()), Model())
    {
      hide Inv, Sweep, Grows, Gate.CommitGate, MacOk;
      ConfirmKeepsInv(rules, Model(), now, n, window, presented, alive, fate);
      Expire(now);
      ghost var s := Model();
      if n !in records { return Answered(UNKNOWN); }
      var r := records[n];
      if Terminal(r.status) { return Answered(AnswerOf(r)); }
      if r.window != window { return Answered(Answer(Rejected, Some("WRONG_WINDOW"), false)); }
      if !alive(r.session) {
        FinishRecord(n, Rejected, Some("SESSION_GONE"), now);
        return Answered(AnswerOf(records[n]));
      }
      if !MacOk(rules, n, r, presented) {
        FinishRecord(n, Rejected, Some("BAD_MAC"), now);
        return Answered(AnswerOf(records[n]));
      }
      records := records[n := r.(status := Committing)];
      var commit := db.CommitGate(rules, n, r, fate);
      match commit
      case Written =>
        FinishRecord(n, Committed, None, now);
        FinishFromCommitting(rules, s, db.Rows(), n, Committed, None, now);
        return Answered(AnswerOf(records[n]));
      case Refused(refusal) =>
        FinishRecord(n, Rejected, Some(refusal), now);
        FinishFromCommitting(rules, s, db.Rows(), n, Rejected, Some(refusal), now);
        records := records[n := records[n].(superseded := refusal == "TARGET_CHANGED")];
        return Answered(AnswerOf(records[n]));
      case Failed(fatal) =>
        FinishRecord(n, Rejected, Some("COMMIT_FAILED"), now);
        FinishFromCommitting(rules, s, db.Rows(), n, Rejected, Some("COMMIT_FAILED"), now);
        if fatal { return Raised; }
        return Answered(AnswerOf(records[n]));
    }

    /** Passing through COMMITTING leaves no trace. */
    lemma FinishFromCommitting(rules: Rules, g: State, db: Db, n: string, status: Status, reason: Option<string>, now: real)
      requires n in g.records
      ensures Finish(rules, g.(db := db, records := g.records[n := g.records[n].(status := Committing)]), n, status, reason, now)
        == Finish(rules, g.(db := db), n, status, reason, now)
    {
      var m := g.records;
      var r := m[n].(status := status, reason := reason, finished := Some(now));
      assert m[n := m[n].(status := Committing)][n := r] == m[n := r];
    }
  }
}
