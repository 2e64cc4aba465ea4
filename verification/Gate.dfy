/**
  The Human-Proof gate (src/syllva/gate/service.py) as a state machine: what each call does to the
  nonce records, the per-session cooldown and the database.

  Besides the fields of the service, the state carries its history: every nonce ever issued, how
  each of them ended, and the latest clock reading. Nothing in the transitions reads the history.
 */
module Gate {
  import opened Wrappers
  import J = CanonicalJson
  import O = CanonicalOrder
  import Decimal
  import Locators

  datatype Status = Pending | Committing | Committed | Rejected | Denied | Expired

  /** The material as the database shows it. */
  datatype Target = Target(title: string, course: string, sourceHash: string, sourceVersion: nat, completeness: string, verified: bool)

  datatype Record = Record(
    session: string, window: string, action: string, target: string, requestHash: string, summary: string,
    deadline: real, status: Status, reason: Option<string>, superseded: bool, finished: Option<real>)

  /** One row of `human_gate_log`. */
  datatype Row = Row(nonce: string, action: string, target: string, requestHash: string)

  datatype Db = Db(materials: map<string, Target>, log: seq<Row>)

  datatype Opening = Opening(session: string, at: real, serial: nat, target: string, requestHash: string)

  datatype Ending = Ending(session: string, status: Status, reason: Option<string>, at: real)

  datatype State = State(
    records: map<string, Record>, cooldown: map<string, real>, db: Db,
    begun: map<string, Opening>, ended: map<string, Ending>, clock: real)

  /** Limits and the functions that the model does not look into: NFC, SHA-256, the MAC under the shell secret, label cleaning. */
  datatype Rules = Rules(
    ttl: real, cooldown: real, keep: real, hasSecret: bool,
    nfc: string -> string, sha: string -> string, mac: (string, string) -> string,
    clean: string -> string)

  predicate Sane(rules: Rules) { rules.ttl >= 0.0 && rules.cooldown >= 0.0 && rules.keep >= 0.0 }

  // ---------------------------------------------------------------------------------------
  // request_hash of a material

  function Fingerprint(t: Target): string {
    t.sourceHash + "|" + Decimal.Digits(t.sourceVersion) + "|" + t.completeness
  }

  function CleanParams(target: string): seq<J.Entry> { [J.Entry(J.Text("material_id"), J.Str(target))] }

  /** The sentence of the dialog for VERIFY_MATERIAL. */
  function Summary(rules: Rules, target: string, t: Target): string {
    "자료 " + target + " \"" + rules.clean(t.title) + "\"(" + rules.clean(t.course) + ")를 '검증됨'으로 표시합니다."
  }

  function RequestOf(rules: Rules, action: string, target: string, t: Target): O.Request {
    O.Request(action, target, CleanParams(target), Summary(rules, target, t), Fingerprint(t))
  }

  lemma RequestHasText(rules: Rules, action: string, target: string, t: Target)
    ensures O.RequestText(rules.nfc, RequestOf(rules, action, target, t)).Some?
  {
    var r := RequestOf(rules, action, target, t);
    O.CanonicalDict(rules.nfc, r.params);
    O.CanonicalDict(rules.nfc, O.RequestEntries(r));
    assert O.Accepted(rules.nfc, r.params);
    var p := O.RequestEntries(r);
    forall i | 0 <= i < |p| ensures J.NormalizeEntry(rules.nfc, p[i]).Some? {
      if i == 3 { assert p[3].value == J.Dict(r.params); }
    }
  }

  /** The digested object has the same text however its dicts are ordered. */
  lemma RequestIsSafe(rules: Rules, action: string, target: string, t: Target, w: J.Value)
    requires O.KeepsFieldNames(rules.nfc)
    requires O.SameValue(J.Dict(O.RequestEntries(RequestOf(rules, action, target, t))), w)
    ensures J.Dumps(rules.nfc, w) == O.RequestText(rules.nfc, RequestOf(rules, action, target, t))
  {
    var r := RequestOf(rules, action, target, t);
    assert O.HarmlessEverywhere(rules.nfc, J.Dict(r.params)) by {
      forall d, e | d in r.params && e in r.params ensures d == e {}
      assert O.Harmless(rules.nfc, r.params);
    }
    O.RequestSafeIff(rules.nfc, r);
    O.SameValueSameText(rules.nfc, J.Dict(O.RequestEntries(r)), w);
  }

  function Digest(rules: Rules, action: string, target: string, t: Target): string {
    RequestHasText(rules, action, target, t);
    rules.sha(O.RequestText(rules.nfc, RequestOf(rules, action, target, t)).value)
  }

  // ---------------------------------------------------------------------------------------
  // _finish and _expire

  predicate Refusal(s: Status) { s == Rejected || s == Denied || s == Expired }

  predicate Terminal(s: Status) { s == Committed || Refusal(s) }

  function Finish(rules: Rules, g: State, n: string, status: Status, reason: Option<string>, at: real): State
    requires n in g.records
  {
    var r := g.records[n];
    g.(records := g.records[n := r.(status := status, reason := reason, finished := Some(at))],
       cooldown := if Refusal(status) then g.cooldown[r.session := at + rules.cooldown] else g.cooldown,
       ended := g.ended[n := Ending(r.session, status, reason, at)])
  }

  predicate Due(r: Record, now: real) { r.status == Pending && now >= r.deadline }

  predicate Stale(rules: Rules, r: Record, now: real) {
    !Due(r, now) && r.finished.Some? && now - r.finished.value > rules.keep
  }

  function Aged(r: Record, now: real): Record {
    if Due(r, now) then r.(status := Expired, reason := None, finished := Some(r.deadline)) else r
  }

  /** The sessions of the given nonces whose record expires now. */
  function DueSessions(g: State, ns: set<string>, now: real): set<string> {
    set n | n in ns && n in g.records && Due(g.records[n], now) :: g.records[n].session
  }

  ghost function DueNonce(g: State, ns: set<string>, now: real, session: string): string
    requires session in DueSessions(g, ns, now)
  {
    var n :| n in ns && n in g.records && Due(g.records[n], now) && g.records[n].session == session; n
  }

  /** `_expire` after it has looked at the records named by `ns`. */
  ghost function SweepOn(rules: Rules, g: State, ns: set<string>, now: real): State {
    var due := DueSessions(g, ns, now);
    g.(records := map n | n in g.records && !(n in ns && Stale(rules, g.records[n], now)) ::
                    if n in ns then Aged(g.records[n], now) else g.records[n],
       cooldown := map s | s in g.cooldown.Keys + due ::
                     if s in due then g.records[DueNonce(g, ns, now, s)].deadline + rules.cooldown else g.cooldown[s],
       ended := g.ended + map n | n in g.records && n in ns && Due(g.records[n], now) ::
                            Ending(g.records[n].session, Expired, None, g.records[n].deadline))
  }

  ghost function Sweep(rules: Rules, g: State, now: real): State {
    SweepOn(rules, g, g.records.Keys, now).(clock := now)
  }

  // ---------------------------------------------------------------------------------------
  // begin

  datatype Code = GateUnavailable | BadRequest | ActionNotAvailable | TargetUnknown | AlreadyDone | GateBusy | GateCooldown

  const VERIFY := "VERIFY_MATERIAL"

  predicate KnownAction(action: string) {
    action in ["VERIFY_MATERIAL", "CONFIRM_EXAM_SCOPE", "SET_SUBMISSION_STATUS", "ADOPT_AI_ARTIFACT"]
  }

  /** The checks made before the lock is taken, in order. `seen` is the material as read at that moment. */
  function Precheck(rules: Rules, action: string, target: string, params: J.Value, seen: Option<Target>): Option<Code> {
    if !rules.hasSecret then Some(GateUnavailable)
    else if !KnownAction(action) then Some(BadRequest)
    else if action != VERIFY then Some(ActionNotAvailable)
    else if params != J.Dict(CleanParams(target)) || !Locators.IsEntityId(target) then Some(BadRequest)
    else if seen.None? then Some(TargetUnknown)
    else if seen.value.verified then Some(AlreadyDone)
    else None
  }

  predicate Busy(g: State, session: string) {
    exists n :: n in g.records && g.records[n].session == session && g.records[n].status == Pending
  }

  predicate Cooling(g: State, session: string, now: real) {
    if session in g.cooldown then now < g.cooldown[session] else now < 0.0
  }

  function Fresh(rules: Rules, now: real, session: string, window: string, action: string, target: string, t: Target): Record {
    Record(session, window, action, target, Digest(rules, action, target, t), Summary(rules, target, t),
           now + rules.ttl, Pending, None, false, None)
  }

  function Open(g: State, n: string, r: Record, now: real): State {
    g.(records := g.records[n := r], begun := g.begun[n := Opening(r.session, now, |g.begun|, r.target, r.requestHash)])
  }

  ghost function Begin(rules: Rules, g: State, now: real, session: string, window: string, action: string, target: string,
                       params: J.Value, seen: Option<Target>, nonce: string): (State, Result<string, Code>)
  {
    var refused := Precheck(rules, action, target, params, seen);
    if refused.Some? then (g, Err(refused.value))
    else
      var h := Sweep(rules, g, now);
      if Busy(h, session) then (h, Err(GateBusy))
      else if Cooling(h, session, now) then (h, Err(GateCooldown))
      else (Open(h, nonce, Fresh(rules, now, session, window, action, target, seen.value), now), Ok(nonce))
  }

  // ---------------------------------------------------------------------------------------
  // view and deny

  datatype Answer = Answer(status: Status, reason: Option<string>, superseded: bool)

  function AnswerOf(r: Record): Answer { Answer(r.status, r.reason, r.superseded) }

  datatype View = NoView(reason: string) | Shown(summary: string, target: string, requestHash: string, expiresIn: real)

  function Unusable(r: Option<Record>, window: string, alive: string -> bool): Option<string> {
    if r.None? then Some("UNKNOWN")
    else if r.value.status == Expired then Some("EXPIRED")
    else if r.value.status != Pending then Some("USED")
    else if r.value.window != window then Some("WRONG_WINDOW")
    else if !alive(r.value.session) then Some("SESSION_GONE")
    else None
  }

  function Get(g: State, n: string): Option<Record> { if n in g.records then Some(g.records[n]) else None }

  function Look(g: State, n: string, window: string, alive: string -> bool, now: real): View {
    var reason := Unusable(Get(g, n), window, alive);
    if reason.Some? then NoView(reason.value)
    else
      var r := g.records[n];
      Shown(r.summary, r.target, r.requestHash, if r.deadline > now then r.deadline - now else 0.0)
  }

  const UNKNOWN := Answer(Rejected, Some("UNKNOWN"), false)

  ghost function Deny(rules: Rules, g: State, now: real, n: string): (State, Answer) {
    var h := Sweep(rules, g, now);
    if n !in h.records then (h, UNKNOWN)
    else
      var k := if h.records[n].status == Pending then Finish(rules, h, n, Denied, None, now) else h;
      (k, AnswerOf(k.records[n]))
  }

  // ---------------------------------------------------------------------------------------
  // commit_gate and confirm

  /** How the transaction ends: normally, or by an exception before or after it takes effect. A fatal one is no `Exception`. */
  datatype Fate = Smooth | BreaksBefore(fatal: bool) | BreaksAfter(fatal: bool)

  datatype Commit = Written | Refused(reason: string) | Failed(fatal: bool)

  /** `_recheck`, on the materials as the transaction reads them. */
  function Recheck(rules: Rules, db: Db, r: Record): Option<string> {
    if r.target !in db.materials || db.materials[r.target].verified then Some("TARGET_CHANGED")
    else if Digest(rules, r.action, r.target, db.materials[r.target]) != r.requestHash then Some("TARGET_CHANGED")
    else None
  }

  predicate Logged(db: Db, n: string) { exists i :: 0 <= i < |db.log| && db.log[i].nonce == n }

  /** The log row and the verified flag, written together; `nonce_id` is UNIQUE in the log. */
  function CommitGate(rules: Rules, db: Db, n: string, r: Record, fate: Fate): (Db, Commit) {
    if fate.BreaksBefore? then (db, Failed(fate.fatal))
    else
      var reason := Recheck(rules, db, r);
      if reason.Some? then (db, Refused(reason.value))
      else if Logged(db, n) then (db, Failed(false))
      else
        (Db(db.materials[r.target := db.materials[r.target].(verified := true)], db.log + [Row(n, r.action, r.target, r.requestHash)]),
         if fate.BreaksAfter? then Failed(fate.fatal) else Written)
  }

  datatype Outcome = Answered(answer: Answer) | Raised

  function MacOk(rules: Rules, n: string, r: Record, presented: Option<string>): bool {
    rules.hasSecret && presented.Some? && rules.mac(n, r.requestHash) == presented.value
  }

  ghost function Decided(rules: Rules, g: State, now: real, n: string, fate: Fate): (State, Outcome)
    requires n in g.records
  {
    var (db, commit) := CommitGate(rules, g.db, n, g.records[n], fate);
    var h := g.(db := db);
    match commit
    case Written =>
      var k := Finish(rules, h, n, Committed, None, now);
      (k, Answered(AnswerOf(k.records[n])))
    case Refused(reason) =>
      var k := Finish(rules, h, n, Rejected, Some(reason), now);
      var l := k.(records := k.records[n := k.records[n].(superseded := reason == "TARGET_CHANGED")]);
      (l, Answered(AnswerOf(l.records[n])))
    case Failed(fatal) =>
      var k := Finish(rules, h, n, Rejected, Some("COMMIT_FAILED"), now);
      (k, if fatal then Raised else Answered(AnswerOf(k.records[n])))
  }

  ghost function Confirm(rules: Rules, g: State, now: real, n: string, window: string, presented: Option<string>,
                         alive: string -> bool, fate: Fate): (State, Outcome)
  {
    var h := Sweep(rules, g, now);
    if n !in h.records then (h, Answered(UNKNOWN))
    else
      var r := h.records[n];
      if Terminal(r.status) then (h, Answered(AnswerOf(r)))
      else if r.window != window then (h, Answered(Answer(Rejected, Some("WRONG_WINDOW"), false)))
      else if !alive(r.session) then
        var k := Finish(rules, h, n, Rejected, Some("SESSION_GONE"), now);
        (k, Answered(AnswerOf(k.records[n])))
      else if !MacOk(rules, n, r, presented) then
        var k := Finish(rules, h, n, Rejected, Some("BAD_MAC"), now);
        (k, Answered(AnswerOf(k.records[n])))
      else Decided(rules, h, now, n, fate)
  }

  // ---------------------------------------------------------------------------------------
  // Runs

  datatype Event =
    | BeginEvent(now: real, session: string, window: string, action: string, target: string, params: J.Value, seen: Option<Target>, nonce: string)
    | ViewEvent(now: real, nonce: string, window: string, alive: string -> bool)
    | DenyEvent(now: real, nonce: string)
    | ConfirmEvent(now: real, nonce: string, window: string, presented: Option<string>, alive: string -> bool, fate: Fate)
    | WorldEvent(materials: map<string, Target>)

  ghost function Apply(rules: Rules, g: State, e: Event): State {
    match e
    case BeginEvent(now, s, w, a, t, p, seen, n) => Begin(rules, g, now, s, w, a, t, p, seen, n).0
    case ViewEvent(now, _, _, _) => Sweep(rules, g, now)
    case DenyEvent(now, n) => Deny(rules, g, now, n).0
    case ConfirmEvent(now, n, w, p, alive, fate) => Confirm(rules, g, now, n, w, p, alive, fate).0
    case WorldEvent(ms) => g.(db := g.db.(materials := ms))
  }

  /** The clock does not run backwards and a new nonce has never been used. */
  ghost predicate Enabled(g: State, e: Event) {
    && (!e.WorldEvent? ==> e.now >= g.clock)
    && (e.BeginEvent? ==> e.nonce !in g.begun && !Logged(g.db, e.nonce))
  }

  ghost predicate RunEnabled(rules: Rules, g: State, events: seq<Event>)
    decreases |events|
  {
    events == [] || (Enabled(g, events[0]) && RunEnabled(rules, Apply(rules, g, events[0]), events[1..]))
  }

  ghost function Run(rules: Rules, g: State, events: seq<Event>): State
    decreases |events|
  {
    if events == [] then g else Run(rules, Apply(rules, g, events[0]), events[1..])
  }

  ghost predicate DistinctRows(log: seq<Row>) {
    forall i, j :: 0 <= i < j < |log| ==> log[i].nonce != log[j].nonce
  }

  /** A new process: no records, no cooldown, and whatever materials and log earlier processes left. */
  ghost predicate Initial(g: State) {
    g.records == map[] && g.cooldown == map[] && g.begun == map[] && g.ended == map[] && DistinctRows(g.db.log) && g.clock >= 0.0
  }
}
