/**
  The Canvas connection (src/syllva/canvas/credential.py): a profile row and course links in SQLite,
  and a token in a keychain that can be read and written by account but not enumerated.

  An operation is described by the durable states it passes through. A crash, or a database
  exception, may stop it after any of them, so what holds of each of these states holds after every crash.
 */
module CanvasCredential {
  import opened Wrappers

  /** `isSet`: token_state is SET; otherwise it is PENDING. */
  datatype Profile = Profile(pid: string, origin: string, isSet: bool)

  /** `accepted` is history: the token of the last connection that was committed as SET. */
  datatype World = World(row: Option<Profile>, links: map<string, nat>, keychain: map<string, string>, accepted: Option<string>)

  // ---------------------------------------------------------------------------------------
  // A keychain that may fail at any call, with or without effect. Reads that return are honest.

  datatype Effect = Nothing | Done | Other(value: string)

  datatype Fate = Fate(effect: Effect, raises: bool)

  const WORKS := Fate(Done, false)

  /** The fate of each keychain call of an operation, in program order: backend construction, then the calls on it. */
  type Fates = nat -> Fate

  function Put(entries: map<string, string>, pid: string, token: string, fate: Fate): map<string, string> {
    match fate.effect
    case Nothing => entries
    case Done => entries[pid := token]
    case Other(value) => entries[pid := value]
  }

  function Remove(entries: map<string, string>, pid: string, fate: Fate): map<string, string> {
    if fate.effect == Nothing then entries else entries - {pid}
  }

  function Shifted(f: Fates, k: nat): Fates { (n: nat) => f(n + k) }

  // ---------------------------------------------------------------------------------------
  // _store, _erase, _drop: the states passed through after `w`, and the result

  function After(w: World, steps: seq<World>): World { if steps == [] then w else steps[|steps| - 1] }

  function StoreSteps(w: World, pid: string, token: string, f: Fates): seq<World> {
    if f(0).raises then [] else [w.(keychain := Put(w.keychain, pid, token, f(1)))]
  }

  predicate Stored(w: World, pid: string, token: string, f: Fates) {
    var k := After(w, StoreSteps(w, pid, token, f)).keychain;
    !f(0).raises && !f(1).raises && !f(2).raises && pid in k && k[pid] == token
  }

  function EraseSteps(w: World, pid: string, f: Fates): seq<World> {
    if f(0).raises || f(1).raises || pid !in w.keychain then [] else [w.(keychain := Remove(w.keychain, pid, f(2)))]
  }

  predicate Erased(w: World, pid: string, f: Fates) {
    && !f(0).raises && !f(1).raises && (pid in w.keychain ==> !f(2).raises) && !f(3).raises
    && pid !in After(w, EraseSteps(w, pid, f)).keychain
  }

  /** One transaction deletes every course link and the profile row. */
  function Cleared(w: World, pid: string): World {
    w.(links := map[], row := if w.row.Some? && w.row.value.pid == pid then None else w.row)
  }

  function DropSteps(w: World, pid: string, f: Fates): seq<World> {
    var steps := EraseSteps(w, pid, f);
    if Erased(w, pid, f) then steps + [Cleared(After(w, steps), pid)] else steps
  }

  // ---------------------------------------------------------------------------------------
  // The operations

  datatype Code = OK | DESTINATION_NOT_ALLOWED | PROFILE_EXISTS | VERIFY_FAILED(code: string) | KEYCHAIN_WRITE_FAILED
                | KEYCHAIN_DELETE_FAILED | NONE | CLEANED | TOKEN_NOT_SET | COURSE_UNKNOWN | COURSE_ALREADY_LINKED

  /**
    `target`: the validated origin. `seen`: the origin of the profile that connect saw before it took the lock.
    `user`: the answer of the Canvas server to the token. `courses`: course_key to id in the local course table.
   */
  datatype Op =
    | Connect(target: Option<string>, seen: Option<string>, user: Result<string, string>, token: string,
              profileId: (string, string) -> string, fates: Fates)
    | Forget(fates: Fates)
    | Recover(fates: Fates)
    | LinkCourse(course: string, key: Option<string>, courses: map<string, nat>)

  function Pending(w: World, pid: string, target: string): World {
    w.(row := Some(Profile(pid, if w.row.Some? then w.row.value.origin else target, false)))
  }

  function SetDone(w: World, token: string): World {
    if w.row.Some? then w.(row := Some(w.row.value.(isSet := true)), accepted := Some(token)) else w
  }

  /** The refusals of connect, in order. */
  function ConnectRefusal(w: World, op: Op): Option<Code>
    requires op.Connect?
  {
    if op.target.None? then Some(DESTINATION_NOT_ALLOWED)
    else if op.seen.Some? && op.seen.value != op.target.value then Some(PROFILE_EXISTS)
    else if op.user.Err? then Some(VERIFY_FAILED(op.user.error))
    else if w.row.Some? && w.row.value.pid != op.profileId(op.target.value, op.user.value) then Some(PROFILE_EXISTS)
    else None
  }

  predicate CourseId(s: string) { 1 <= |s| <= 64 && forall i :: 0 <= i < |s| ==> '0' <= s[i] <= '9' }

  /** link_course: a refusal rolls the transaction back, the deleted link included. */
  function Link(w: World, course: string, key: Option<string>, courses: map<string, nat>): (World, Code) {
    if !CourseId(course) then (w, COURSE_UNKNOWN)
    else if w.row.None? then (w, TOKEN_NOT_SET)
    else
      var rest := w.links - {course};
      if key.None? then (w.(links := rest), OK)
      else if key.value !in courses then (w, COURSE_UNKNOWN)
      else if courses[key.value] in rest.Values then (w, COURSE_ALREADY_LINKED)
      else (w.(links := rest[course := courses[key.value]]), OK)
  }

  function Steps(w: World, op: Op): seq<World> {
    match op
    case Connect(target, _, user, token, profileId, f) =>
      if ConnectRefusal(w, op).Some? then []
      else
        var pid := profileId(target.value, user.value);
        var a := Pending(w, pid, target.value);
        var stores := StoreSteps(a, pid, token, f);
        var b := After(a, stores);
        [a] + stores + if Stored(a, pid, token, f) then [SetDone(b, token)] else DropSteps(b, pid, Shifted(f, 3))
    case Forget(f) =>
      if w.row.None? then []
      else
        var a := w.(row := Some(w.row.value.(isSet := false)));
        [a] + DropSteps(a, w.row.value.pid, f)
    case Recover(f) =>
      if w.row.None? || w.row.value.isSet then [] else DropSteps(w, w.row.value.pid, f)
    case LinkCourse(course, key, courses) => [Link(w, course, key, courses).0]
  }

  function Answer(w: World, op: Op): Code {
    match op
    case Connect(target, _, user, token, profileId, f) =>
      var refusal := ConnectRefusal(w, op);
      if refusal.Some? then refusal.value
      else
        var pid := profileId(target.value, user.value);
        if Stored(Pending(w, pid, target.value), pid, token, f) then OK else KEYCHAIN_WRITE_FAILED
    case Forget(f) =>
      if w.row.None? then OK
      else if Erased(w, w.row.value.pid, f) then OK else KEYCHAIN_DELETE_FAILED
    case Recover(f) =>
      if w.row.None? || w.row.value.isSet then NONE
      else if Erased(w, w.row.value.pid, f) then CLEANED else KEYCHAIN_DELETE_FAILED
    case LinkCourse(course, key, courses) => Link(w, course, key, courses).1
  }

  // ---------------------------------------------------------------------------------------
  // What holds of every durable state

  ghost predicate EntryHasRow(w: World) {
    forall id :: id in w.keychain ==> w.row.Some? && w.row.value.pid == id
  }

  predicate SetHasToken(w: World) {
    w.row.Some? && w.row.value.isSet ==>
      w.row.value.pid in w.keychain && w.accepted == Some(w.keychain[w.row.value.pid])
  }

  predicate LinksOk(w: World) {
    && (w.links != map[] ==> w.row.Some?)
    && (forall c, d :: c in w.links && d in w.links && w.links[c] == w.links[d] ==> c == d)
  }

  ghost predicate Inv(w: World) { EntryHasRow(w) && SetHasToken(w) && LinksOk(w) }

  ghost predicate AllInv(steps: seq<World>) { forall i :: 0 <= i < |steps| ==> Inv(steps[i]) }

  /** The row of `pid` is PENDING: whatever its entry is now is allowed. */
  ghost predicate PendingFor(w: World, pid: string) { Inv(w) && w.row.Some? && w.row.value.pid == pid && !w.row.value.isSet }

  lemma StoreKeepsInv(w: World, pid: string, token: string, f: Fates)
    requires PendingFor(w, pid)
    ensures AllInv(StoreSteps(w, pid, token, f)) && PendingFor(After(w, StoreSteps(w, pid, token, f)), pid)
  {
  }

  lemma EraseKeepsInv(w: World, pid: string, f: Fates)
    requires PendingFor(w, pid)
    ensures AllInv(EraseSteps(w, pid, f)) && PendingFor(After(w, EraseSteps(w, pid, f)), pid)
  {
  }

  lemma DropKeepsInv(w: World, pid: string, f: Fates)
    requires PendingFor(w, pid)
    ensures AllInv(DropSteps(w, pid, f))
  {
    EraseKeepsInv(w, pid, f);
    hide EraseSteps;
  }

  lemma LinkKeepsInv(w: World, course: string, key: Option<string>, courses: map<string, nat>)
    requires Inv(w)
    ensures Inv(Link(w, course, key, courses).0)
  {
    var rest := w.links - {course};
    assert forall e :: e in rest ==> rest[e] in rest.Values;
  }

  /** Whatever the keychain does, every state that an operation passes through satisfies the invariant. */
  lemma StepsKeepInv(w: World, op: Op)
    requires Inv(w)
    ensures AllInv(Steps(w, op))
  {
    match op
    case Connect(target, _, user, token, profileId, f) =>
      if ConnectRefusal(w, op).None? {
        var pid := profileId(target.value, user.value);
        var a := Pending(w, pid, target.value);
        StoreKeepsInv(a, pid, token, f);
        var b := After(a, StoreSteps(a, pid, token, f));
        DropKeepsInv(b, pid, Shifted(f, 3));
        hide StoreSteps, DropSteps;
      }
    case Forget(f) =>
      if w.row.Some? { DropKeepsInv(w.(row := Some(w.row.value.(isSet := false))), w.row.value.pid, f); }
    case Recover(f) =>
      if w.row.Some? && !w.row.value.isSet { DropKeepsInv(w, w.row.value.pid, f); }
    case LinkCourse(course, key, courses) => LinkKeepsInv(w, course, key, courses);
  }

  /** One durable step writes to the database or to the keychain, never to both. */
  predicate OneStore(v: World, w: World) { v.keychain == w.keychain || (v.row == w.row && v.links == w.links && v.accepted == w.accepted) }

  predicate OneStoreEach(w: World, steps: seq<World>) {
    forall i :: 0 <= i < |steps| ==> OneStore(([w] + steps)[i], steps[i])
  }

  lemma OneStoreAlone(w: World, v: World)
    ensures OneStore(w, v) ==> OneStoreEach(w, [v])
    ensures OneStoreEach(w, [])
  {
    assert ([w] + [v])[0] == w && [v][0] == v;
  }

  lemma OneStoreConcat(w: World, a: seq<World>, b: seq<World>)
    requires OneStoreEach(w, a) && OneStoreEach(After(w, a), b)
    ensures OneStoreEach(w, a + b)
  {
    hide OneStore;
    forall i | 0 <= i < |a + b| ensures OneStore(([w] + (a + b))[i], (a + b)[i]) {
      if i < |a| {
        assert ([w] + a)[i] == ([w] + (a + b))[i];
      } else {
        assert ([After(w, a)] + b)[i - |a|] == ([w] + (a + b))[i];
      }
    }
  }

  lemma EraseOneStore(w: World, pid: string, f: Fates)
    ensures OneStoreEach(w, EraseSteps(w, pid, f))
  {
    OneStoreAlone(w, w.(keychain := Remove(w.keychain, pid, f(2))));
  }

  lemma DropOneStore(w: World, pid: string, f: Fates)
    ensures OneStoreEach(w, DropSteps(w, pid, f))
  {
    var steps := EraseSteps(w, pid, f);
    var b := After(w, steps);
    EraseOneStore(w, pid, f);
    OneStoreAlone(b, Cleared(b, pid));
    OneStoreConcat(w, steps, [Cleared(b, pid)]);
  }

  lemma ConnectOneStore(w: World, pid: string, target: string, token: string, f: Fates)
    ensures var a := Pending(w, pid, target);
      var stores := StoreSteps(a, pid, token, f);
      var b := After(a, stores);
      OneStoreEach(w, [a] + stores + if Stored(a, pid, token, f) then [SetDone(b, token)] else DropSteps(b, pid, Shifted(f, 3)))
  {
    var a := Pending(w, pid, target);
    var stores := StoreSteps(a, pid, token, f);
    var b := After(a, stores);
    var rest := if Stored(a, pid, token, f) then [SetDone(b, token)] else DropSteps(b, pid, Shifted(f, 3));
    OneStoreAlone(w, a);
    OneStoreAlone(a, b);
    OneStoreAlone(b, SetDone(b, token));
    DropOneStore(b, pid, Shifted(f, 3));
    assert stores == [] || stores == [b];
    hide DropSteps, Stored, OneStoreEach, StoreSteps;
    assert OneStore(b, SetDone(b, token)) && OneStore(w, a);
    OneStoreConcat(w, [a], stores);
    assert After(w, [a] + stores) == b;
    OneStoreConcat(w, [a] + stores, rest);
  }

  /** So every point at which an operation can be interrupted between the two stores is one of its states. */
  lemma StepsWriteOneStore(w: World, op: Op)
    ensures OneStoreEach(w, Steps(w, op))
  {
    hide DropSteps, StoreSteps, Stored, OneStoreEach;
    match op
    case Connect(target, _, user, token, profileId, f) =>
      OneStoreAlone(w, w);
      if ConnectRefusal(w, op).None? { ConnectOneStore(w, profileId(target.value, user.value), target.value, token, f); }
    case Forget(f) =>
      OneStoreAlone(w, w);
      if w.row.Some? {
        var a := w.(row := Some(w.row.value.(isSet := false)));
        OneStoreAlone(w, a);
        DropOneStore(a, w.row.value.pid, f);
        OneStoreConcat(w, [a], DropSteps(a, w.row.value.pid, f));
      }
    case Recover(f) =>
      OneStoreAlone(w, w);
      if w.row.Some? { DropOneStore(w, w.row.value.pid, f); }
    case LinkCourse(course, key, courses) => OneStoreAlone(w, Link(w, course, key, courses).0);
  }

  // ---------------------------------------------------------------------------------------
  // Runs with crashes

  /** One operation, stopped after `cut` of its steps. */
  datatype Event = Event(op: Op, cut: nat)

  predicate Enabled(w: World, e: Event) { e.cut <= |Steps(w, e.op)| }

  function Next(w: World, e: Event): World
    requires Enabled(w, e)
  {
    ([w] + Steps(w, e.op))[e.cut]
  }

  predicate RunEnabled(w: World, events: seq<Event>)
    decreases |events|
  {
    events == [] || (Enabled(w, events[0]) && RunEnabled(Next(w, events[0]), events[1..]))
  }

  function Run(w: World, events: seq<Event>): World
    requires RunEnabled(w, events)
    decreases |events|
  {
    if events == [] then w else Run(Next(w, events[0]), events[1..])
  }

  const EMPTY := World(None, map[], map[], None)

  /**
    Over every run from the empty state, with a crash or a keychain failure between any two steps: a keychain entry
    always belongs to the profile row, the entry of a SET row is the token that was written and read back, and the
    course links are one-to-one and exist only beside the row.
   */
  lemma ReachableInv(events: seq<Event>)
    requires RunEnabled(EMPTY, events)
    ensures Inv(Run(EMPTY, events))
  {
    RunKeepsInv(EMPTY, events);
  }

  lemma {:induction false} RunKeepsInv(w: World, events: seq<Event>)
    requires Inv(w) && RunEnabled(w, events)
    ensures Inv(Run(w, events))
    decreases |events|
  {
    hide Inv, Steps;
    if events != [] {
      StepsKeepInv(w, events[0].op);
      RunKeepsInv(Next(w, events[0]), events[1..]);
    }
  }

  // ---------------------------------------------------------------------------------------
  // Recovery

  predicate Clean(w: World) { w.row.None? && w.keychain == map[] && w.links == map[] }

  /**
    recover, from any state a crash can leave: a SET state (or an empty one) is not touched; otherwise it reports
    CLEANED and everything is gone, or a failed deletion and the PENDING row stays, with its links, for the next start.
   */
  lemma RecoverCleans(w: World, f: Fates)
    requires Inv(w)
    ensures var h, code := After(w, Steps(w, Recover(f))), Answer(w, Recover(f));
      && (code == NONE <==> w.row.None? || w.row.value.isSet)
      && (code == NONE ==> h == w)
      && (code == CLEANED ==> Clean(h))
      && (code == KEYCHAIN_DELETE_FAILED ==> h.row == w.row && h.links == w.links)
      && code in {NONE, CLEANED, KEYCHAIN_DELETE_FAILED}
      && (w.row.None? ==> Clean(w))
  {
    if w.row.Some? && !w.row.value.isSet { DropCleans(w, w.row.value.pid, f); }
  }

  /** _drop succeeds iff the entry is gone at the end and every call worked; then nothing is left. */
  lemma DropCleans(w: World, pid: string, f: Fates)
    requires PendingFor(w, pid)
    ensures var h := After(w, DropSteps(w, pid, f));
      if Erased(w, pid, f) then Clean(h) else h.row == w.row && h.links == w.links
  {
    EraseKeepsInv(w, pid, f);
  }

  ghost predicate Working(f: Fates) { forall n :: f(n) == WORKS }

  /** With a working keychain recovery ends clean, or in the unchanged SET state, and a second one has nothing to do. */
  lemma RecoverFinishes(w: World, f: Fates, again: Fates)
    requires Inv(w) && Working(f)
    ensures var h := After(w, Steps(w, Recover(f)));
      (if w.row.Some? && w.row.value.isSet then h == w else Clean(h))
      && Answer(h, Recover(again)) == NONE && Steps(h, Recover(again)) == []
  {
    assert f(0) == WORKS && f(1) == WORKS && f(2) == WORKS && f(3) == WORKS;
    RecoverCleans(w, f);
  }

  // ---------------------------------------------------------------------------------------
  // Connecting and forgetting

  /**
    connect answers OK only with the row SET for that account and the token in its entry. Any other answer but
    KEYCHAIN_WRITE_FAILED changes nothing; that one leaves nothing at all, or the row PENDING.
   */
  lemma ConnectAnswers(w: World, op: Op)
    requires Inv(w) && op.Connect?
    ensures var h, code := After(w, Steps(w, op)), Answer(w, op);
      && (code == OK ==>
            (&& op.target.Some? && op.user.Ok? && h.row.Some? && h.row.value.isSet
             && h.row.value.pid == op.profileId(op.target.value, op.user.value)
             && h.keychain == map[h.row.value.pid := op.token] && h.links == w.links && h.accepted == Some(op.token)))
      && (code == KEYCHAIN_WRITE_FAILED ==> Clean(h) || (h.row.Some? && !h.row.value.isSet))
      && (code != OK && code != KEYCHAIN_WRITE_FAILED ==> h == w)
  {
    if ConnectRefusal(w, op).None? {
      var pid := op.profileId(op.target.value, op.user.value);
      var a := Pending(w, pid, op.target.value);
      var f := op.fates;
      StoreKeepsInv(a, pid, op.token, f);
      var b := After(a, StoreSteps(a, pid, op.token, f));
      DropCleans(b, pid, Shifted(f, 3));
      StoredEntry(a, pid, op.token, f);
      hide StoreSteps, DropSteps, Stored, Erased;
    }
  }

  lemma StoredEntry(w: World, pid: string, token: string, f: Fates)
    requires PendingFor(w, pid)
    ensures var h := After(w, StoreSteps(w, pid, token, f));
      h.row == w.row && h.links == w.links && (Stored(w, pid, token, f) ==> h.keychain == map[pid := token])
  {
    if Stored(w, pid, token, f) {
      assert Put(w.keychain, pid, token, f(1)) == map[pid := token];
    }
  }

  /** The write to the keychain worked: no call raised, and the entry is the token, written now or there before. */
  lemma StoredExactly(w: World, pid: string, token: string, f: Fates)
    ensures Stored(w, pid, token, f) <==>
      && !f(0).raises && !f(1).raises && !f(2).raises
      && match f(1).effect
         case Done => true
         case Nothing => pid in w.keychain && w.keychain[pid] == token
         case Other(value) => value == token
  {
  }

  /** The deletion worked: no call raised, and an entry that was there was deleted. */
  lemma ErasedExactly(w: World, pid: string, f: Fates)
    ensures Erased(w, pid, f) <==>
      !f(0).raises && !f(1).raises && (pid in w.keychain ==> !f(2).raises && f(2).effect != Nothing) && !f(3).raises
  {
  }

  /** connect is refused before anything is stored, each refusal exactly; otherwise the keychain decides. */
  lemma ConnectExactly(w: World, op: Op)
    requires op.Connect?
    ensures var code := Answer(w, op);
      var good := op.target.Some? && (op.seen == None || op.seen == op.target);
      var f := op.fates;
      && (code == DESTINATION_NOT_ALLOWED <==> op.target == None)
      && (code.VERIFY_FAILED? <==> good && op.user.Err?)
      && (code.VERIFY_FAILED? ==> code.code == op.user.error)
      && (good && op.user.Ok? ==>
            var pid := op.profileId(op.target.value, op.user.value);
            var same := w.row.Some? ==> w.row.value.pid == pid;
            && (code == PROFILE_EXISTS <==> !same)
            && (code == OK <==> same && Stored(w, pid, op.token, f))
            && (code == KEYCHAIN_WRITE_FAILED <==> same && !Stored(w, pid, op.token, f)))
      && (op.target.Some? && !good ==> code == PROFILE_EXISTS)
  {
  }

  /** A new account is stored under the origin that was checked; a known one keeps its origin. */
  lemma ConnectStoresOrigin(w: World, op: Op)
    requires Inv(w) && op.Connect? && Answer(w, op) == OK
    ensures var h := After(w, Steps(w, op));
      op.target.Some? && h.row.Some? && h.row.value.origin == if w.row.Some? then w.row.value.origin else op.target.value
  {
    var pid := op.profileId(op.target.value, op.user.value);
    var a := Pending(w, pid, op.target.value);
    StoreKeepsInv(a, pid, op.token, op.fates);
    StoredEntry(a, pid, op.token, op.fates);
    hide StoreSteps, DropSteps, Stored;
  }

  /** With a working keychain a good token connects; if only the write failed, nothing is left of the attempt. */
  lemma ConnectWorks(w: World, op: Op)
    requires Inv(w) && op.Connect? && op.target.Some? && (op.seen == None || op.seen == op.target) && op.user.Ok?
    requires w.row.Some? ==> w.row.value.pid == op.profileId(op.target.value, op.user.value)
    ensures Working(op.fates) ==> Answer(w, op) == OK
    ensures Answer(w, op) != OK && (forall n :: n >= 3 ==> op.fates(n) == WORKS) ==> Clean(After(w, Steps(w, op)))
  {
    var pid := op.profileId(op.target.value, op.user.value);
    var f, g := op.fates, Shifted(op.fates, 3);
    ConnectExactly(w, op);
    StoredExactly(w, pid, op.token, f);
    if Working(f) { assert f(0) == WORKS && f(1) == WORKS && f(2) == WORKS; }
    var a := Pending(w, pid, op.target.value);
    StoreKeepsInv(a, pid, op.token, f);
    StoredExactly(a, pid, op.token, f);
    var b := After(a, StoreSteps(a, pid, op.token, f));
    DropCleans(b, pid, g);
    ErasedExactly(b, pid, g);
    if forall n :: n >= 3 ==> f(n) == WORKS { assert g(0) == WORKS && g(1) == WORKS && g(2) == WORKS && g(3) == WORKS; }
    hide StoreSteps, DropSteps, Stored, Erased, Inv;
  }

  /** recover and forget, by their answers: the deletion decides. */
  lemma DroppingAnswersExactly(w: World, f: Fates)
    ensures var pending, row := w.row.Some? && !w.row.value.isSet, w.row.Some?;
      && (Answer(w, Recover(f)) == NONE <==> !pending)
      && (Answer(w, Recover(f)) == CLEANED <==> pending && Erased(w, w.row.value.pid, f))
      && (Answer(w, Forget(f)) == OK <==> row ==> Erased(w, w.row.value.pid, f))
  {
  }

  /** forget answers OK iff nothing is left; otherwise the row stays, PENDING, and says so. */
  lemma ForgetAnswers(w: World, f: Fates)
    requires Inv(w)
    ensures var h, code := After(w, Steps(w, Forget(f))), Answer(w, Forget(f));
      if code == OK then Clean(h) else code == KEYCHAIN_DELETE_FAILED && h.row.Some? && !h.row.value.isSet && h.links == w.links
  {
    if w.row.Some? {
      var a := w.(row := Some(w.row.value.(isSet := false)));
      DropCleans(a, w.row.value.pid, f);
    }
  }

  /** Only connect and forget touch a connected account: through any other run its row and token stay, so token() still finds it. */
  lemma {:induction false} ConnectionSurvives(w: World, events: seq<Event>)
    requires Inv(w) && w.row.Some? && w.row.value.isSet && RunEnabled(w, events)
    requires forall i :: 0 <= i < |events| ==> events[i].op.Recover? || events[i].op.LinkCourse?
    ensures var h := Run(w, events); h.row == w.row && h.keychain == w.keychain && h.accepted == w.accepted
    decreases |events|
  {
    if events != [] {
      StepsKeepInv(w, events[0].op);
      ConnectionSurvives(Next(w, events[0]), events[1..]);
    }
  }

  // ---------------------------------------------------------------------------------------
  // Course links

  /** The named course is known, and no other Canvas course is linked to it. */
  ghost predicate Linkable(w: World, course: string, key: string, courses: map<string, nat>) {
    key in courses && forall c :: c in w.links && w.links[c] == courses[key] ==> c == course
  }

  /** One to sixty-four digits. */
  predicate IsNumeral(s: string) { 0 < |s| < 65 && forall c :: c in s ==> c in "0123456789" }

  lemma NumeralExactly(s: string)
    ensures CourseId(s) <==> IsNumeral(s)
  {
    var d := "0123456789";
    forall c ensures c in d <==> '0' <= c <= '9' {
      if '0' <= c <= '9' { assert d[c as int - '0' as int] == c; }
    }
    if IsNumeral(s) { forall i | 0 <= i < |s| ensures '0' <= s[i] <= '9' { assert s[i] in s; } }
  }

  /**
    link_course succeeds exactly when a profile exists, the id is well formed, and the course (if one is named) is
    known and not linked to another Canvas course; it then changes that one link only. A refusal changes nothing.
   */
  lemma LinkExactly(w: World, course: string, key: Option<string>, courses: map<string, nat>)
    requires Inv(w)
    ensures var (h, code) := Link(w, course, key, courses);
      && (code == OK <==> IsNumeral(course) && w.row.Some? && (key.Some? ==> Linkable(w, course, key.value, courses)))
      && (code == TOKEN_NOT_SET <==> IsNumeral(course) && w.row == None)
      && (code == COURSE_ALREADY_LINKED <==>
            IsNumeral(course) && w.row.Some? && key.Some? && key.value in courses && !Linkable(w, course, key.value, courses))
      && (code != OK ==> h == w)
      && (code == OK ==> h.links == if key.None? then w.links - {course} else w.links[course := courses[key.value]])
      && h.row == w.row && h.keychain == w.keychain
  {
    NumeralExactly(course);
    hide CourseId, IsNumeral;
    var rest := w.links - {course};
    if key.Some? && key.value in courses {
      assert rest[course := courses[key.value]] == w.links[course := courses[key.value]];
      forall c | c in w.links && w.links[c] == courses[key.value] && c != course ensures courses[key.value] in rest.Values {
        assert c in rest && rest[c] == courses[key.value];
      }
    }
  }

  // ---------------------------------------------------------------------------------------
  // The classes

  /** The keychain: every call may raise, and a writing call may take effect or not in either case. */
  class Keychain {
    var entries: map<string, string>

    constructor ()
      ensures entries == map[]
    {
      entries := map[];
    }

    method GetPassword(pid: string, fate: Fate) returns (r: Result<Option<string>, string>)
      ensures r == if fate.raises then Err("raised") else Ok(if pid in entries then Some(entries[pid]) else None)
    {
      if fate.raises { return Err("raised"); }
      return Ok(if pid in entries then Some(entries[pid]) else None);
    }

    method SetPassword(pid: string, token: string, fate: Fate) returns (raised: bool)
      modifies this
      ensures entries == Put(old(entries), pid, token, fate) && raised == fate.raises
    {
      match fate.effect {
        case Nothing =>
        case Done => entries := entries[pid := token];
        case Other(value) => entries := entries[pid := value];
      }
      raised := fate.raises;
    }

    method DeletePassword(pid: string, fate: Fate) returns (raised: bool)
      modifies this
      ensures entries == Remove(old(entries), pid, fate) && raised == fate.raises
    {
      if fate.effect != Nothing { entries := entries - {pid}; }
      raised := fate.raises;
    }
  }

  /** `trail`: every durable state so far. The clock, names and the audit log are left out. */
  class CanvasCredentials {
    var row: Option<Profile>
    var links: map<string, nat>
    const keychain: Keychain
    ghost var accepted: Option<string>
    ghost var trail: seq<World>

    ghost function Now(): World
      reads this, keychain
    {
      World(row, links, keychain.entries, accepted)
    }

    ghost predicate Valid()
      reads this, keychain
    {
      Inv(Now()) && AllInv(trail)
    }

    constructor (keychain: Keychain)
      requires keychain.entries == map[]
      ensures this.keychain == keychain && Valid() && Now() == EMPTY && trail == []
    {
      this.keychain, row, links, accepted, trail := keychain, None, map[], None, [];
    }

    /** `_store` */
    method Store(pid: string, token: string, f: Fates) returns (ok: bool)
      modifies `trail, keychain
      ensures var steps := StoreSteps(old(Now()), pid, token, f);
        Now() == After(old(Now()), steps) && trail == old(trail) + steps && ok == Stored(old(Now()), pid, token, f)
    {
      if f(0).raises { return false; }
      var raised := keychain.SetPassword(pid, token, f(1));
      trail := trail + [Now()];
      if raised { return false; }
      var back := keychain.GetPassword(pid, f(2));
      return back.Ok? && back.value == Some(token);
    }

    /** `_erase` */
    method Erase(pid: string, f: Fates) returns (ok: bool)
      modifies `trail, keychain
      ensures var steps := EraseSteps(old(Now()), pid, f);
        Now() == After(old(Now()), steps) && trail == old(trail) + steps && ok == Erased(old(Now()), pid, f)
    {
      if f(0).raises { return false; }
      var found := keychain.GetPassword(pid, f(1));
      if found.Err? { return false; }
      if found.value.Some? {
        var raised := keychain.DeletePassword(pid, f(2));
        trail := trail + [Now()];
        if raised { return false; }
      }
      var left := keychain.GetPassword(pid, f(3));
      return left.Ok? && left.value.None?;
    }

    /** `_drop` */
    method Drop(pid: string, f: Fates) returns (ok: bool)
      modifies `row, `links, `trail, keychain
      ensures var steps := DropSteps(old(Now()), pid, f);
        Now() == After(old(Now()), steps) && trail == old(trail) + steps && ok == Erased(old(Now()), pid, f)
    {
      ok := Erase(pid, f);
      if ok {
        links := map[];
        if row.Some? && row.value.pid == pid { row := None; }
        trail := trail + [Now()];
      }
    }

    lemma StepsKeepTrail(w: World, op: Op, before: seq<World>)
      requires Inv(w) && AllInv(before)
      ensures AllInv(before + Steps(w, op)) && Inv(After(w, Steps(w, op)))
    {
      StepsKeepInv(w, op);
      hide Steps, Inv;
    }

    method Connect(target: Option<string>, seen: Option<string>, user: Result<string, string>, token: string,
                   profileId: (string, string) -> string, f: Fates)
      returns (code: Code)
      requires Valid()
      modifies `row, `links, `trail, `accepted, keychain
      ensures var op := Op.Connect(target, seen, user, token, profileId, f);
        Now() == After(old(Now()), Steps(old(Now()), op)) && trail == old(trail) + Steps(old(Now()), op) && code == Answer(old(Now()), op)
      ensures Valid()
    {
      hide Inv, StoreSteps, Stored, DropSteps;
      ghost var op := Op.Connect(target, seen, user, token, profileId, f);
      StepsKeepTrail(Now(), op, trail);
      if target.None? { return DESTINATION_NOT_ALLOWED; }
      if seen.Some? && seen.value != target.value { return PROFILE_EXISTS; }
      if user.Err? { return VERIFY_FAILED(user.error); }
      var pid := profileId(target.value, user.value);
      if row.Some? && row.value.pid != pid { return PROFILE_EXISTS; }
      row := Some(if row.Some? then row.value.(isSet := false) else Profile(pid, target.value, false));
      trail := trail + [Now()];
      var stored := Store(pid, token, f);
      if !stored {
        var _ := Drop(pid, Shifted(f, 3));
        return KEYCHAIN_WRITE_FAILED;
      }
      if row.Some? {
        row := Some(row.value.(isSet := true));
        accepted := Some(token);
      }
      trail := trail + [Now()];
      return OK;
    }

    method Forget(f: Fates) returns (code: Code)
      requires Valid()
      modifies `row, `links, `trail, keychain
      ensures var op := Op.Forget(f);
        Now() == After(old(Now()), Steps(old(Now()), op)) && trail == old(trail) + Steps(old(Now()), op) && code == Answer(old(Now()), op)
      ensures Valid()
    {
      hide Inv, DropSteps;
      StepsKeepTrail(Now(), Op.Forget(f), trail);
      if row.None? { return OK; }
      var pid := row.value.pid;
      row := Some(row.value.(isSet := false));
      trail := trail + [Now()];
      var ok := Drop(pid, f);
      return if ok then OK else KEYCHAIN_DELETE_FAILED;
    }

    method Recover(f: Fates) returns (code: Code)
      requires Valid()
      modifies `row, `links, `trail, keychain
      ensures var op := Op.Recover(f);
        Now() == After(old(Now()), Steps(old(Now()), op)) && trail == old(trail) + Steps(old(Now()), op) && code == Answer(old(Now()), op)
      ensures Valid()
    {
      hide Inv, DropSteps;
      StepsKeepTrail(Now(), Op.Recover(f), trail);
      if row.None? || row.value.isSet { return NONE; }
      var ok := Drop(row.value.pid, f);
      return if ok then CLEANED else KEYCHAIN_DELETE_FAILED;
    }

    /** One transaction: the deleted link is put back when a later check refuses. */
    method LinkCourse(course: string, key: Option<string>, courses: map<string, nat>) returns (code: Code)
      requires Valid()
      modifies `links, `trail
      ensures (Now(), code) == Link(old(Now()), course, key, courses) && Valid()
    {
      hide Inv;
      StepsKeepTrail(Now(), Op.LinkCourse(course, key, courses), trail);
      if !CourseId(course) { return COURSE_UNKNOWN; }
      if row.None? { return TOKEN_NOT_SET; }
      var before := links;
      links := links - {course};
      if key.Some? {
        if key.value !in courses { links := before; return COURSE_UNKNOWN; }
        if courses[key.value] in links.Values { links := before; return COURSE_ALREADY_LINKED; }
        links := links[course := courses[key.value]];
      }
      trail := trail + [Now()];
      return OK;
    }

    /** The stored token, for a Canvas read: always the one that was accepted last. */
    method Token(f: Fates) returns (r: Result<string, string>)
      requires Valid()
      ensures r.Ok? ==> accepted == Some(r.value)
      ensures Working(f) && row.Some? && row.value.isSet && accepted != Some("") ==> r.Ok?
      ensures r == Err("TOKEN_NOT_SET") <==> row.None? || !row.value.isSet
      ensures r == Err("KEYCHAIN_UNAVAILABLE") <==> row.Some? && row.value.isSet && f(0).raises
      ensures r == Err("KEYCHAIN_READ_FAILED") <==> row.Some? && row.value.isSet && !f(0).raises && f(1).raises
    {
      if row.None? || !row.value.isSet { return Err("TOKEN_NOT_SET"); }
      assert Working(f) ==> f(0) == WORKS && f(1) == WORKS;
      if f(0).raises { return Err("KEYCHAIN_UNAVAILABLE"); }
      var value := keychain.GetPassword(row.value.pid, f(1));
      if value.Err? { return Err("KEYCHAIN_READ_FAILED"); }
      if value.value.None? || value.value.value == "" { return Err("KEYCHAIN_CREDENTIAL_MISSING"); }
      return Ok(value.value.value);
    }
  }
}
