/**
  What every call of the gate keeps. The invariant is stated nonce by nonce, pair by pair and
  session by session, so that each proof below talks about one of them at a time.
 */
module GateInvariant {
  import opened Wrappers
  import opened Gate
  import J = CanonicalJson

  ghost predicate PendingIn(g: State, n: string) { n in g.records && g.records[n].status == Pending }

  /** The nonce ended in a refusal of that session. */
  ghost predicate RefusedIn(g: State, n: string, session: string) {
    n in g.ended && g.ended[n].session == session && Refusal(g.ended[n].status)
  }

  /** A record agrees with its opening and, once finished, with its ending; none is left COMMITTING. */
  ghost predicate RecordOk(rules: Rules, g: State, n: string) {
    n in g.records ==>
      var r := g.records[n];
      && n in g.begun
      && g.begun[n].session == r.session && g.begun[n].target == r.target && g.begun[n].requestHash == r.requestHash
      && r.deadline == g.begun[n].at + rules.ttl
      && (if r.status == Pending then n !in g.ended && r.finished.None? && !Logged(g.db, n)
          else n in g.ended && r.finished == Some(g.ended[n].at) && r.status == g.ended[n].status && r.reason == g.ended[n].reason)
  }

  /** A nonce is pending or has ended. */
  ghost predicate BegunOk(g: State, n: string) {
    n in g.begun ==> g.begun[n].at <= g.clock && g.begun[n].serial < |g.begun| && (n in g.ended || PendingIn(g, n))
  }

  /** An ended nonce keeps its record for the retention time; a refusal holds its session's cooldown. */
  ghost predicate EndedOk(rules: Rules, g: State, n: string) {
    n in g.ended ==>
      var e := g.ended[n];
      && n in g.begun && e.session == g.begun[n].session && g.begun[n].at <= e.at <= g.clock && Terminal(e.status)
      && (n in g.records || g.clock - e.at > rules.keep)
      && (Refusal(e.status) ==> e.session in g.cooldown && e.at + rules.cooldown <= g.cooldown[e.session])
      && (e.status == Committed ==> Logged(g.db, n))
  }

  /** A pending nonce was begun outside its session's cooldown. */
  ghost predicate PendingOk(g: State, n: string) {
    PendingIn(g, n) && g.records[n].session in g.cooldown ==> n in g.begun && g.cooldown[g.records[n].session] <= g.begun[n].at
  }

  ghost predicate NonceOk(rules: Rules, g: State, n: string) {
    RecordOk(rules, g, n) && BegunOk(g, n) && EndedOk(rules, g, n) && PendingOk(g, n)
  }

  /**
    At most one PENDING record per session. Of two nonces of a session, the earlier had ended,
    and its cooldown had passed, when the later was begun.
   */
  ghost predicate PairOk(rules: Rules, g: State, m: string, n: string) {
    && (PendingIn(g, m) && PendingIn(g, n) && g.records[m].session == g.records[n].session ==> m == n)
    && (m in g.begun && n in g.begun && m != n ==> g.begun[m].serial != g.begun[n].serial)
    && (m in g.begun && n in g.begun && g.begun[m].session == g.begun[n].session && g.begun[m].serial < g.begun[n].serial ==>
          && m in g.ended && g.ended[m].at <= g.begun[n].at
          && (Refusal(g.ended[m].status) ==> g.ended[m].at + rules.cooldown <= g.begun[n].at))
  }

  /** A session's cooldown comes from one of its refusals. */
  ghost predicate CooldownOk(rules: Rules, g: State, s: string) {
    s in g.cooldown ==> exists n :: RefusedIn(g, n, s) && g.cooldown[s] == g.ended[n].at + rules.cooldown
  }

  /** A row of a nonce of this process: it ended COMMITTED, or COMMIT_FAILED when the commit broke after taking effect. */
  ghost predicate RowOk(g: State, row: Row) {
    row.nonce in g.begun ==>
      && row.target == g.begun[row.nonce].target && row.requestHash == g.begun[row.nonce].requestHash
      && row.nonce in g.ended
      && (g.ended[row.nonce].status == Committed
          || (g.ended[row.nonce].status == Rejected && g.ended[row.nonce].reason == Some("COMMIT_FAILED")))
  }

  ghost predicate LogOk(g: State) { DistinctRows(g.db.log) && forall i :: 0 <= i < |g.db.log| ==> RowOk(g, g.db.log[i]) }

  ghost predicate Inv(rules: Rules, g: State) {
    && Sane(rules) && g.clock >= 0.0
    && (forall n :: NonceOk(rules, g, n))
    && (forall m, n :: PairOk(rules, g, m, n))
    && (forall s :: CooldownOk(rules, g, s))
    && LogOk(g)
  }

  lemma InitialInv(rules: Rules, g: State)
    requires Sane(rules) && Initial(g)
    ensures Inv(rules, g)
  {
  }

  // ---------------------------------------------------------------------------------------
  // What never goes back

  /** History only grows, rows are only appended, and no session's cooldown decreases. */
  ghost predicate Grows(g: State, h: State) {
    && g.clock <= h.clock
    && (forall n :: n in g.begun ==> n in h.begun && h.begun[n] == g.begun[n])
    && (forall n :: n in g.ended ==> n in h.ended && h.ended[n] == g.ended[n])
    && (forall s :: s in g.cooldown ==> s in h.cooldown && g.cooldown[s] <= h.cooldown[s])
    && g.db.log <= h.db.log
  }

  lemma GrowsTransitive(f: State, g: State, h: State)
    requires Grows(f, g) && Grows(g, h)
    ensures Grows(f, h)
  {
  }

  // ---------------------------------------------------------------------------------------
  // _expire

  ghost predicate DueIn(g: State, n: string, now: real) { n in g.records && Due(g.records[n], now) }

  /** The effect of a sweep on one nonce. */
  ghost predicate SweptNonce(rules: Rules, g: State, h: State, now: real, n: string) {
    && (n in h.records <==> n in g.records && !Stale(rules, g.records[n], now))
    && (n in h.records ==> h.records[n] == Aged(g.records[n], now))
    && (n in h.ended <==> n in g.ended || DueIn(g, n, now))
    && (DueIn(g, n, now) ==>
          var s := g.records[n].session;
          && h.ended[n] == Ending(s, Expired, None, g.records[n].deadline)
          && s in h.cooldown && h.cooldown[s] == g.records[n].deadline + rules.cooldown)
    && (n in g.ended && !DueIn(g, n, now) ==> h.ended[n] == g.ended[n])
  }

  /** The effect of a sweep on one session: unchanged, or set from a record that expires. */
  ghost predicate SweptSession(rules: Rules, g: State, h: State, now: real, s: string) {
    || ((s in h.cooldown <==> s in g.cooldown) && (s in g.cooldown ==> h.cooldown[s] == g.cooldown[s]))
    || (s in h.cooldown && exists n :: DueIn(g, n, now) && g.records[n].session == s)
  }

  ghost predicate Swept(rules: Rules, g: State, h: State, now: real) {
    && h.begun == g.begun && h.db == g.db && h.clock == now
    && (forall n :: SweptNonce(rules, g, h, now, n))
    && (forall s :: SweptSession(rules, g, h, now, s))
  }

  lemma SweepIsSwept(rules: Rules, g: State, now: real)
    requires forall m, n :: PairOk(rules, g, m, n)
    ensures Swept(rules, g, Sweep(rules, g, now), now)
  {
    hide Due, Stale, Aged;
    var h := Sweep(rules, g, now);
    var ns := g.records.Keys;
    forall n ensures SweptNonce(rules, g, h, now, n) {
      if DueIn(g, n, now) {
        DueUnique(rules, g, ns, now, n);
      }
    }
    forall s ensures SweptSession(rules, g, h, now, s) {
      if s in DueSessions(g, ns, now) {
        var m := DueNonce(g, ns, now, s);
        assert DueIn(g, m, now);
      }
    }
  }

  lemma DueUnique(rules: Rules, g: State, ns: set<string>, now: real, n: string)
    requires forall m, n :: PairOk(rules, g, m, n)
    requires DueIn(g, n, now) && n in ns
    ensures g.records[n].session in DueSessions(g, ns, now) && DueNonce(g, ns, now, g.records[n].session) == n
  {
    var s := g.records[n].session;
    assert s in DueSessions(g, ns, now);
    var m := DueNonce(g, ns, now, s);
    assert PairOk(rules, g, m, n);
  }

  lemma SweptCooldownGrows(rules: Rules, g: State, h: State, now: real, s: string)
    requires Inv(rules, g) && Swept(rules, g, h, now)
    ensures s in g.cooldown ==> s in h.cooldown && g.cooldown[s] <= h.cooldown[s]
  {
    assert SweptSession(rules, g, h, now, s);
    if n :| DueIn(g, n, now) && g.records[n].session == s {
      assert SweptNonce(rules, g, h, now, n) && NonceOk(rules, g, n);
    }
  }

  lemma SweptNonceOk(rules: Rules, g: State, h: State, now: real, n: string)
    requires Inv(rules, g) && Swept(rules, g, h, now) && now >= g.clock
    ensures NonceOk(rules, h, n)
    ensures PendingIn(h, n) ==> PendingIn(g, n) && now < h.records[n].deadline
    ensures n in g.ended ==> n in h.ended && h.ended[n] == g.ended[n]
  {
    assert SweptNonce(rules, g, h, now, n) && NonceOk(rules, g, n);
    hide Inv, Swept, CooldownOk, LogOk, PairOk;
    if n in h.ended { SweptCooldownGrows(rules, g, h, now, h.ended[n].session); }
    if PendingIn(h, n) { SweptPendingOk(rules, g, h, now, n); }
  }

  lemma SweptPendingOk(rules: Rules, g: State, h: State, now: real, n: string)
    requires Inv(rules, g) && Swept(rules, g, h, now) && PendingIn(h, n)
    ensures PendingOk(h, n)
  {
    var s := h.records[n].session;
    assert SweptNonce(rules, g, h, now, n) && SweptSession(rules, g, h, now, s) && NonceOk(rules, g, n);
    if m :| DueIn(g, m, now) && g.records[m].session == s {
      assert PairOk(rules, g, m, n);
    }
  }

  lemma SweptCooldownOk(rules: Rules, g: State, h: State, now: real, s: string)
    requires Inv(rules, g) && Swept(rules, g, h, now)
    ensures CooldownOk(rules, h, s)
  {
    assert SweptSession(rules, g, h, now, s) && CooldownOk(rules, g, s);
    if n :| DueIn(g, n, now) && g.records[n].session == s {
      assert SweptNonce(rules, g, h, now, n);
      assert RefusedIn(h, n, s);
    } else if s in g.cooldown {
      var n :| RefusedIn(g, n, s) && g.cooldown[s] == g.ended[n].at + rules.cooldown;
      assert SweptNonce(rules, g, h, now, n) && NonceOk(rules, g, n);
      assert RefusedIn(h, n, s);
    }
  }

  lemma SweptPairOk(rules: Rules, g: State, h: State, now: real, m: string, n: string)
    requires Inv(rules, g) && Swept(rules, g, h, now) && now >= g.clock
    ensures PairOk(rules, h, m, n)
  {
    assert PairOk(rules, g, m, n) && SweptNonce(rules, g, h, now, m) && SweptNonce(rules, g, h, now, n) && h.begun == g.begun;
    hide Inv, Swept;
    SweptNonceOk(rules, g, h, now, m);
  }

  lemma SweptLogOk(rules: Rules, g: State, h: State, now: real)
    requires Inv(rules, g) && Swept(rules, g, h, now) && now >= g.clock
    ensures LogOk(h)
  {
    assert h.begun == g.begun && h.db == g.db;
    forall i | 0 <= i < |h.db.log| ensures RowOk(h, h.db.log[i]) {
      assert RowOk(g, g.db.log[i]);
      hide Inv, Swept;
      SweptNonceOk(rules, g, h, now, h.db.log[i].nonce);
    }
  }

  lemma SweepKeepsInv(rules: Rules, g: State, now: real)
    requires Inv(rules, g) && now >= g.clock
    ensures var h := Sweep(rules, g, now);
      Inv(rules, h) && Grows(g, h) && h.clock == now && h.db == g.db && h.begun == g.begun
    ensures forall n :: PendingIn(Sweep(rules, g, now), n) ==> PendingIn(g, n) && now < Sweep(rules, g, now).records[n].deadline
  {
    hide Sweep, NonceOk, PairOk, CooldownOk, LogOk, SweptNonce, SweptSession;
    SweepIsSwept(rules, g, now);
    var h := Sweep(rules, g, now);
    forall n ensures NonceOk(rules, h, n) { SweptNonceOk(rules, g, h, now, n); }
    forall n | PendingIn(h, n) ensures PendingIn(g, n) && now < h.records[n].deadline { SweptNonceOk(rules, g, h, now, n); }
    forall n | n in g.ended ensures n in h.ended && h.ended[n] == g.ended[n] { SweptNonceOk(rules, g, h, now, n); }
    forall m, n ensures PairOk(rules, h, m, n) { SweptPairOk(rules, g, h, now, m, n); }
    forall s ensures CooldownOk(rules, h, s) { SweptCooldownOk(rules, g, h, now, s); }
    forall s | s in g.cooldown ensures s in h.cooldown && g.cooldown[s] <= h.cooldown[s] { SweptCooldownGrows(rules, g, h, now, s); }
    SweptLogOk(rules, g, h, now);
  }

  // ---------------------------------------------------------------------------------------
  // _finish, together with what the transaction left in the log

  /** The log is as it was, or has gained the row of `n`, and then `n` ends COMMITTED or COMMIT_FAILED. */
  ghost predicate LogFits(g: State, db: Db, n: string, status: Status, reason: Option<string>)
    requires n in g.records
  {
    var row := Row(n, g.records[n].action, g.records[n].target, g.records[n].requestHash);
    if status == Committed then db.log == g.db.log + [row]
    else db.log == g.db.log || (db.log == g.db.log + [row] && status == Rejected && reason == Some("COMMIT_FAILED"))
  }

  ghost predicate Finishes(rules: Rules, g: State, db: Db, n: string, status: Status, reason: Option<string>) {
    Inv(rules, g) && PendingIn(g, n) && Terminal(status) && status != Expired && LogFits(g, db, n, status, reason)
  }

  lemma LogFitsLogged(g: State, db: Db, n: string, status: Status, reason: Option<string>, k: string)
    requires n in g.records && LogFits(g, db, n, status, reason)
    ensures k != n ==> (Logged(db, k) <==> Logged(g.db, k))
    ensures status == Committed ==> Logged(db, n)
  {
    assert Logged(g.db, k) ==> Logged(db, k) by {
      if i :| 0 <= i < |g.db.log| && g.db.log[i].nonce == k { assert db.log[i].nonce == k; }
    }
    if status == Committed { assert db.log[|g.db.log|].nonce == n; }
  }

  lemma CooldownBelowClock(rules: Rules, g: State, s: string)
    requires Inv(rules, g)
    ensures s in g.cooldown ==> g.cooldown[s] <= g.clock + rules.cooldown
  {
    assert CooldownOk(rules, g, s);
    if s in g.cooldown {
      var n :| RefusedIn(g, n, s) && g.cooldown[s] == g.ended[n].at + rules.cooldown;
      assert NonceOk(rules, g, n);
    }
  }

  lemma FinishNonceOk(rules: Rules, g: State, db: Db, n: string, status: Status, reason: Option<string>, k: string)
    requires Finishes(rules, g, db, n, status, reason)
    ensures NonceOk(rules, Finish(rules, g.(db := db), n, status, reason, g.clock), k)
  {
    assert NonceOk(rules, g, n) && NonceOk(rules, g, k) && PairOk(rules, g, n, k) && Sane(rules);
    CooldownBelowClock(rules, g, g.records[n].session);
    LogFitsLogged(g, db, n, status, reason, k);
    hide Inv, Logged, LogFits;
  }

  lemma FinishPairOk(rules: Rules, g: State, db: Db, n: string, status: Status, reason: Option<string>, j: string, k: string)
    requires Finishes(rules, g, db, n, status, reason)
    ensures PairOk(rules, Finish(rules, g.(db := db), n, status, reason, g.clock), j, k)
  {
    assert PairOk(rules, g, j, k) && NonceOk(rules, g, n);
    hide Inv, LogFits, Logged;
  }

  lemma FinishCooldownOk(rules: Rules, g: State, db: Db, n: string, status: Status, reason: Option<string>, s: string)
    requires Finishes(rules, g, db, n, status, reason)
    ensures CooldownOk(rules, Finish(rules, g.(db := db), n, status, reason, g.clock), s)
  {
    assert CooldownOk(rules, g, s) && NonceOk(rules, g, n);
    hide Inv, LogFits, Logged;
    var h := Finish(rules, g.(db := db), n, status, reason, g.clock);
    if s in h.cooldown {
      if Refusal(status) && s == g.records[n].session {
        assert RefusedIn(h, n, s);
      } else {
        var k :| RefusedIn(g, k, s) && g.cooldown[s] == g.ended[k].at + rules.cooldown;
        assert RefusedIn(h, k, s);
      }
    }
  }

  lemma FinishLogOk(rules: Rules, g: State, db: Db, n: string, status: Status, reason: Option<string>)
    requires Finishes(rules, g, db, n, status, reason)
    ensures LogOk(Finish(rules, g.(db := db), n, status, reason, g.clock))
  {
    assert NonceOk(rules, g, n) && LogOk(g);
    var h := Finish(rules, g.(db := db), n, status, reason, g.clock);
    hide Inv;
    forall i | 0 <= i < |h.db.log| ensures RowOk(h, h.db.log[i]) {
      if i < |g.db.log| { assert RowOk(g, g.db.log[i]) && g.db.log[i].nonce != n; }
    }
    forall i, j | 0 <= i < j < |h.db.log| ensures h.db.log[i].nonce != h.db.log[j].nonce {
      if j == |g.db.log| { assert g.db.log[i].nonce != n; }
    }
  }

  lemma FinishKeepsInv(rules: Rules, g: State, db: Db, n: string, status: Status, reason: Option<string>)
    requires Finishes(rules, g, db, n, status, reason)
    ensures var h := Finish(rules, g.(db := db), n, status, reason, g.clock);
      Inv(rules, h) && Grows(g, h) && h.clock == g.clock
  {
    hide NonceOk, PairOk, CooldownOk, LogOk;
    var h := Finish(rules, g.(db := db), n, status, reason, g.clock);
    forall k ensures NonceOk(rules, h, k) { FinishNonceOk(rules, g, db, n, status, reason, k); }
    forall j, k ensures PairOk(rules, h, j, k) { FinishPairOk(rules, g, db, n, status, reason, j, k); }
    forall s ensures CooldownOk(rules, h, s) { FinishCooldownOk(rules, g, db, n, status, reason, s); }
    FinishLogOk(rules, g, db, n, status, reason);
    CooldownBelowClock(rules, g, g.records[n].session);
    PendingHasNotEnded(rules, g, n);
  }

  lemma PendingHasNotEnded(rules: Rules, g: State, n: string)
    requires Inv(rules, g) && PendingIn(g, n)
    ensures n in g.begun && n !in g.ended && !Logged(g.db, n)
  {
    assert NonceOk(rules, g, n);
  }

  // ---------------------------------------------------------------------------------------
  // begin

  ghost predicate Opens(rules: Rules, g: State, n: string, r: Record) {
    && Inv(rules, g) && n !in g.begun && !Logged(g.db, n)
    && !Busy(g, r.session) && !Cooling(g, r.session, g.clock)
    && r.status == Pending && r.finished.None? && r.deadline == g.clock + rules.ttl
  }

  lemma OpenNonceOk(rules: Rules, g: State, n: string, r: Record, k: string)
    requires Opens(rules, g, n, r)
    ensures NonceOk(rules, Open(g, n, r, g.clock), k)
  {
    assert NonceOk(rules, g, k) && NonceOk(rules, g, n);
    hide Inv, Busy;
    assert |g.begun[n := Opening(r.session, g.clock, |g.begun|, r.target, r.requestHash)]| == |g.begun| + 1;
  }

  lemma OpenPairOk(rules: Rules, g: State, n: string, r: Record, j: string, k: string)
    requires Opens(rules, g, n, r)
    ensures PairOk(rules, Open(g, n, r, g.clock), j, k)
  {
    assert PairOk(rules, g, j, k) && NonceOk(rules, g, j) && NonceOk(rules, g, k) && NonceOk(rules, g, n);
    hide Inv;
    if j != n && k == n && j in g.begun && g.begun[j].session == r.session {
      assert PendingIn(g, j) ==> Busy(g, r.session);
    }
  }

  lemma OpenKeepsInv(rules: Rules, g: State, n: string, r: Record)
    requires Opens(rules, g, n, r)
    ensures var h := Open(g, n, r, g.clock); Inv(rules, h) && Grows(g, h) && h.clock == g.clock
  {
    hide NonceOk, PairOk, Busy, Logged;
    var h := Open(g, n, r, g.clock);
    forall k ensures NonceOk(rules, h, k) { OpenNonceOk(rules, g, n, r, k); }
    forall j, k ensures PairOk(rules, h, j, k) { OpenPairOk(rules, g, n, r, j, k); }
    forall s ensures CooldownOk(rules, h, s) { assert CooldownOk(rules, g, s); OpenCooldownOk(rules, g, n, r, s); }
    OpenLogOk(rules, g, n, r);
  }

  lemma OpenCooldownOk(rules: Rules, g: State, n: string, r: Record, s: string)
    requires CooldownOk(rules, g, s)
    ensures CooldownOk(rules, Open(g, n, r, g.clock), s)
  {
    if s in g.cooldown {
      var k :| RefusedIn(g, k, s) && g.cooldown[s] == g.ended[k].at + rules.cooldown;
      assert RefusedIn(Open(g, n, r, g.clock), k, s);
    }
  }

  lemma OpenLogOk(rules: Rules, g: State, n: string, r: Record)
    requires Opens(rules, g, n, r)
    ensures LogOk(Open(g, n, r, g.clock))
  {
    assert LogOk(g);
    hide Inv;
    forall i | 0 <= i < |g.db.log| ensures RowOk(Open(g, n, r, g.clock), g.db.log[i]) {
      assert RowOk(g, g.db.log[i]) && g.db.log[i].nonce != n;
    }
  }

  // ---------------------------------------------------------------------------------------
  // Whole calls

  /** Neither the superseded mark nor a change of the materials matters to the invariant. */
  lemma MarkKeepsInv(rules: Rules, g: State, n: string, mark: bool)
    requires Inv(rules, g) && n in g.records
    ensures var h := g.(records := g.records[n := g.records[n].(superseded := mark)]); Inv(rules, h) && Grows(g, h)
  {
    var h := g.(records := g.records[n := g.records[n].(superseded := mark)]);
    forall k ensures NonceOk(rules, h, k) { assert NonceOk(rules, g, k); }
    forall j, k ensures PairOk(rules, h, j, k) { assert PairOk(rules, g, j, k); }
    forall s ensures CooldownOk(rules, h, s) { assert CooldownOk(rules, g, s); SameEndings(rules, g, h, s); }
    SameLog(g, h);
  }

  lemma SameEndings(rules: Rules, g: State, h: State, s: string)
    requires CooldownOk(rules, g, s) && h.cooldown == g.cooldown && h.ended == g.ended
    ensures CooldownOk(rules, h, s)
  {
    if s in g.cooldown {
      var n :| RefusedIn(g, n, s) && g.cooldown[s] == g.ended[n].at + rules.cooldown;
      assert RefusedIn(h, n, s);
    }
  }

  lemma SameLog(g: State, h: State)
    requires LogOk(g) && h.db.log == g.db.log && h.begun == g.begun && h.ended == g.ended
    ensures LogOk(h)
  {
    forall i | 0 <= i < |h.db.log| ensures RowOk(h, h.db.log[i]) { assert RowOk(g, g.db.log[i]); }
  }

  lemma WorldKeepsInv(rules: Rules, g: State, materials: map<string, Target>)
    requires Inv(rules, g)
    ensures var h := g.(db := g.db.(materials := materials)); Inv(rules, h) && Grows(g, h)
  {
    var h := g.(db := g.db.(materials := materials));
    forall k ensures NonceOk(rules, h, k) { assert NonceOk(rules, g, k); SameRows(g.db, h.db, k); }
    forall j, k ensures PairOk(rules, h, j, k) { assert PairOk(rules, g, j, k); }
    forall s ensures CooldownOk(rules, h, s) { assert CooldownOk(rules, g, s); SameEndings(rules, g, h, s); }
    SameLog(g, h);
  }

  lemma SameRows(db: Db, db': Db, n: string)
    requires db.log == db'.log
    ensures Logged(db, n) <==> Logged(db', n)
  {
  }

  lemma DecidedKeepsInv(rules: Rules, g: State, n: string, fate: Fate)
    requires Inv(rules, g) && PendingIn(g, n)
    ensures var h := Decided(rules, g, g.clock, n, fate).0; Inv(rules, h) && Grows(g, h) && h.clock == g.clock
  {
    hide Inv, Digest, Logged, Finish;
    PendingHasNotEnded(rules, g, n);
    var (db, commit) := CommitGate(rules, g.db, n, g.records[n], fate);
    match commit
    case Written => FinishKeepsInv(rules, g, db, n, Committed, None);
    case Refused(reason) =>
      FinishKeepsInv(rules, g, db, n, Rejected, Some(reason));
      var k := Finish(rules, g.(db := db), n, Rejected, Some(reason), g.clock);
      FinishRecord(rules, g.(db := db), n, Rejected, Some(reason), g.clock);
      MarkKeepsInv(rules, k, n, reason == "TARGET_CHANGED");
      GrowsTransitive(g, k, Decided(rules, g, g.clock, n, fate).0);
    case Failed(_) => FinishKeepsInv(rules, g, db, n, Rejected, Some("COMMIT_FAILED"));
  }

  lemma FinishRecord(rules: Rules, g: State, n: string, status: Status, reason: Option<string>, at: real)
    requires n in g.records
    ensures var h := Finish(rules, g, n, status, reason, at);
      n in h.records && h.records[n].status == status && h.records[n].reason == reason && h.clock == g.clock && h.db == g.db
  {
  }

  lemma ConfirmKeepsInv(rules: Rules, g: State, now: real, n: string, window: string, presented: Option<string>, alive: string -> bool, fate: Fate)
    requires Inv(rules, g) && now >= g.clock
    ensures var h := Confirm(rules, g, now, n, window, presented, alive, fate).0; Inv(rules, h) && Grows(g, h)
  {
    hide Inv, Sweep, Finish, Decided, MacOk;
    SweepKeepsInv(rules, g, now);
    var h := Sweep(rules, g, now);
    var k := Confirm(rules, g, now, n, window, presented, alive, fate).0;
    if n in h.records && !Terminal(h.records[n].status) {
      NeverCommitting(rules, h, n);
      FinishKeepsInv(rules, h, h.db, n, Rejected, Some("SESSION_GONE"));
      FinishKeepsInv(rules, h, h.db, n, Rejected, Some("BAD_MAC"));
      DecidedKeepsInv(rules, h, n, fate);
      assert h.(db := h.db) == h;
    }
    if k != h { GrowsTransitive(g, h, k); }
  }

  lemma NeverCommitting(rules: Rules, g: State, n: string)
    requires Inv(rules, g) && n in g.records
    ensures PendingIn(g, n) || Terminal(g.records[n].status)
  {
    assert NonceOk(rules, g, n);
  }

  lemma DenyKeepsInv(rules: Rules, g: State, now: real, n: string)
    requires Inv(rules, g) && now >= g.clock
    ensures var h := Deny(rules, g, now, n).0; Inv(rules, h) && Grows(g, h)
  {
    hide Inv, Sweep, Finish;
    SweepKeepsInv(rules, g, now);
    var h := Sweep(rules, g, now);
    if PendingIn(h, n) {
      FinishKeepsInv(rules, h, h.db, n, Denied, None);
      assert h.(db := h.db) == h;
      GrowsTransitive(g, h, Deny(rules, g, now, n).0);
    }
  }

  lemma BeginKeepsInv(rules: Rules, g: State, now: real, session: string, window: string, action: string, target: string,
                      params: J.Value, seen: Option<Target>, n: string)
    requires Inv(rules, g) && now >= g.clock && n !in g.begun && !Logged(g.db, n)
    ensures var h := Begin(rules, g, now, session, window, action, target, params, seen, n).0; Inv(rules, h) && Grows(g, h)
  {
    hide Inv, Sweep, Digest, Summary, Busy, Logged;
    var h := Sweep(rules, g, now);
    SweepKeepsInv(rules, g, now);
    if Precheck(rules, action, target, params, seen).None? && !Busy(h, session) && !Cooling(h, session, now) {
      var r := Fresh(rules, now, session, window, action, target, seen.value);
      OpenKeepsInv(rules, h, n, r);
      GrowsTransitive(g, h, Open(h, n, r, now));
    }
  }

  lemma StepKeepsInv(rules: Rules, g: State, e: Event)
    requires Inv(rules, g) && Enabled(g, e)
    ensures Inv(rules, Apply(rules, g, e)) && Grows(g, Apply(rules, g, e))
  {
    hide Inv, Sweep, Begin, Deny, Confirm, Grows;
    match e
    case BeginEvent(now, s, w, a, t, p, seen, n) => BeginKeepsInv(rules, g, now, s, w, a, t, p, seen, n);
    case ViewEvent(now, _, _, _) => SweepKeepsInv(rules, g, now);
    case DenyEvent(now, n) => DenyKeepsInv(rules, g, now, n);
    case ConfirmEvent(now, n, w, p, alive, fate) => ConfirmKeepsInv(rules, g, now, n, w, p, alive, fate);
    case WorldEvent(ms) => WorldKeepsInv(rules, g, ms);
  }

  lemma {:induction false} RunKeepsInv(rules: Rules, g: State, events: seq<Event>)
    requires Inv(rules, g) && RunEnabled(rules, g, events)
    ensures Inv(rules, Run(rules, g, events)) && Grows(g, Run(rules, g, events))
    decreases |events|
  {
    hide Inv, Apply;
    if events != [] {
      var h := Apply(rules, g, events[0]);
      StepKeepsInv(rules, g, events[0]);
      RunKeepsInv(rules, h, events[1..]);
      GrowsTransitive(g, h, Run(rules, g, events));
    }
  }
}
