/**
  What the request hash of a material binds: the exact text that is digested, and from it that a confirm
  writes only to the very version of the material that the dialog showed.
 */
module GateBinding {
  import opened Wrappers
  import opened Gate
  import opened GateInvariant
  import opened GateRuns
  import J = CanonicalJson
  import O = CanonicalOrder
  import T = CanonicalText
  import Decimal
  import Locators

  // ---------------------------------------------------------------------------------------
  // The digested text

  predicate IsAscii(s: string) { forall i :: 0 <= i < |s| ==> s[i] < 128 as char }

  /** NFC leaves ASCII text alone. */
  ghost predicate KeepsAscii(nfc: string -> string) { forall s :: IsAscii(s) ==> nfc(s) == s }

  /** One member of a written object. */
  function Member(name: string, text: string): string { J.Quote(name) + ":" + text }

  /** The digested object as text, from the texts of id, summary and fingerprint. */
  function ObjectText(id: string, summary: string, stamp: string): string {
    "{" + Member("action", J.Quote("VERIFY_MATERIAL")) + "," + Member("params", "{" + Member("material_id", J.Quote(id)) + "}") + ","
    + Member("summary", J.Quote(summary)) + "," + Member("target_fingerprint", J.Quote(stamp)) + "," + Member("target_id", J.Quote(id)) + ","
    + Member("v", "1") + "}"
  }

  /** The text that is digested for a material. */
  function DigestedText(rules: Rules, target: string, t: Target): string {
    ObjectText(
      rules.nfc(target),
      rules.nfc("자료 " + target + " \"" + rules.clean(t.title) + "\"(" + rules.clean(t.course) + ")를 '검증됨'으로 표시합니다."),
      rules.nfc(t.sourceHash + "|" + Decimal.Digits(t.sourceVersion) + "|" + t.completeness))
  }

  /** The written object. */
  function ObjectTree(id: string, summary: string, stamp: string): J.Norm {
    J.NDict([
      J.Field("action", J.NStr("VERIFY_MATERIAL")), J.Field("params", J.NDict([J.Field("material_id", J.NStr(id))])),
      J.Field("summary", J.NStr(summary)), J.Field("target_fingerprint", J.NStr(stamp)),
      J.Field("target_id", J.NStr(id)), J.Field("v", J.NInt(1))])
  }

  lemma NamesAscend(fields: seq<J.Field>)
    requires |fields| == 6
    requires fields[0].key == "action" && fields[1].key == "params" && fields[2].key == "summary"
    requires fields[3].key == "target_fingerprint" && fields[4].key == "target_id" && fields[5].key == "v"
    ensures T.Ascending(fields)
  {
    var k := ["action", "params", "summary", "target_fingerprint", "target_id", "v"];
    forall i, j | 0 <= i < j < 6 ensures J.Precedes(fields[i].key, fields[j].key) {
      assert fields[i].key == k[i] && fields[j].key == k[j];
      if i == 3 && j == 4 {
        assert k[3][..7] == "target_" == k[4][..7];
        assert J.FirstDifference(k[3], k[4], 7);
      } else {
        assert J.FirstDifference(k[i], k[j], 0);
      }
    }
  }

  lemma NamesKept(nfc: string -> string)
    requires KeepsAscii(nfc)
    ensures O.KeepsFieldNames(nfc) && nfc("material_id") == "material_id" && nfc(VERIFY) == VERIFY
  {
    assert IsAscii("v") && IsAscii("action") && IsAscii("target_id") && IsAscii("params") && IsAscii("summary");
    assert IsAscii("target_fingerprint") && IsAscii("material_id") && IsAscii(VERIFY);
  }

  lemma ParamsDepicted(nfc: string -> string, target: string)
    requires KeepsAscii(nfc)
    ensures T.Depicts(nfc, J.Dict(CleanParams(target)), J.NDict([J.Field("material_id", J.NStr(nfc(target)))]))
  {
    NamesKept(nfc);
    var p, fs := CleanParams(target), [J.Field("material_id", J.NStr(nfc(target)))];
    assert T.LastFor(nfc, p, 0, "material_id") && T.Depicts(nfc, p[0].value, fs[0].value);
    assert fs[0] in fs;
  }

  lemma DistinctLast(nfc: string -> string, p: seq<J.Entry>, k: nat)
    requires k < |p| && forall i :: 0 <= i < |p| ==> p[i].key.Text?
    requires forall i, j :: 0 <= i < j < |p| ==> nfc(p[i].key.text) != nfc(p[j].key.text)
    ensures T.LastFor(nfc, p, k, nfc(p[k].key.text))
  {
  }

  /** Entries of distinct names depict themselves in any other order. */
  lemma DistinctDepicted(nfc: string -> string, p: seq<J.Entry>, fs: seq<J.Field>, at: seq<nat>, back: seq<nat>)
    requires |p| == |fs| == |at| == |back| && T.Ascending(fs)
    requires forall i :: 0 <= i < |p| ==> p[i].key.Text?
    requires forall i, j :: 0 <= i < j < |p| ==> nfc(p[i].key.text) != nfc(p[j].key.text)
    requires forall i :: 0 <= i < |p| ==> at[i] < |p| && nfc(p[at[i]].key.text) == fs[i].key && T.Depicts(nfc, p[at[i]].value, fs[i].value)
    requires forall i :: 0 <= i < |p| ==> back[i] < |p| && fs[back[i]].key == nfc(p[i].key.text)
    ensures T.Depicts(nfc, J.Dict(p), J.NDict(fs))
  {
    hide T.Ascending, T.LastFor;
    forall f | f in fs ensures exists i: nat :: T.LastFor(nfc, p, i, f.key) && i < |p| && T.Depicts(nfc, p[i].value, f.value) {
      var i :| 0 <= i < |fs| && fs[i] == f;
      DistinctLast(nfc, p, at[i]);
    }
    forall i | 0 <= i < |p| ensures nfc(p[i].key.text) in O.KeysOf(fs) { assert fs[back[i]] in fs; }
  }

  lemma TextDepicted(nfc: string -> string, s: string)
    ensures T.Depicts(nfc, J.Str(s), J.NStr(nfc(s))) && T.Depicts(nfc, J.Int(1), J.NInt(1))
  {
  }

  /** Where each member of the written object comes from among the six entries, and where each entry goes. */
  const FROM: seq<nat> := [1, 3, 4, 5, 2, 0]
  const INTO: seq<nat> := [5, 0, 4, 1, 2, 3]

  lemma TreeNames(nfc: string -> string, r: O.Request, id: string, summary: string, stamp: string)
    requires O.KeepsFieldNames(nfc)
    ensures var p, fs := O.RequestEntries(r), ObjectTree(id, summary, stamp).fields;
      && |p| == 6 && (forall i :: 0 <= i < 6 ==> p[i].key.Text?)
      && (forall i, j :: 0 <= i < j < 6 ==> nfc(p[i].key.text) != nfc(p[j].key.text))
      && (forall i :: 0 <= i < 6 ==> FROM[i] < 6 && nfc(p[FROM[i]].key.text) == fs[i].key)
      && (forall i :: 0 <= i < 6 ==> INTO[i] < 6 && fs[INTO[i]].key == nfc(p[i].key.text))
  {
    O.FieldNamesDiffer();
    var k := ["v", "action", "target_id", "params", "summary", "target_fingerprint"];
    assert forall i :: 0 <= i < 6 ==> O.RequestEntries(r)[i].key == J.Text(k[i]) && nfc(k[i]) == k[i];
  }

  lemma TreeValues(nfc: string -> string, r: O.Request)
    requires nfc(VERIFY) == VERIFY && r.action == VERIFY
    requires T.Depicts(nfc, J.Dict(r.params), J.NDict([J.Field("material_id", J.NStr(nfc(r.target)))]))
    ensures var p, fs := O.RequestEntries(r), ObjectTree(nfc(r.target), nfc(r.summary), nfc(r.fingerprint)).fields;
      forall i :: 0 <= i < 6 ==> T.Depicts(nfc, p[FROM[i]].value, fs[i].value)
  {
    hide T.Depicts;
    TextDepicted(nfc, VERIFY);
    TextDepicted(nfc, r.target);
    TextDepicted(nfc, r.summary);
    TextDepicted(nfc, r.fingerprint);
  }

  lemma TreeDepicted(nfc: string -> string, r: O.Request)
    requires KeepsAscii(nfc) && r.action == VERIFY && r.params == CleanParams(r.target)
    ensures T.Depicts(nfc, J.Dict(O.RequestEntries(r)), ObjectTree(nfc(r.target), nfc(r.summary), nfc(r.fingerprint)))
  {
    hide KeepsAscii, T.Ascending, CleanParams, T.Depicts, O.RequestEntries, O.KeepsFieldNames;
    NamesKept(nfc);
    ParamsDepicted(nfc, r.target);
    var fs := ObjectTree(nfc(r.target), nfc(r.summary), nfc(r.fingerprint)).fields;
    NamesAscend(fs);
    TreeNames(nfc, r, nfc(r.target), nfc(r.summary), nfc(r.fingerprint));
    TreeValues(nfc, r);
    DistinctDepicted(nfc, O.RequestEntries(r), fs, FROM, INTO);
  }

  lemma RequestPermitted(rules: Rules, target: string, t: Target)
    ensures T.Permitted(J.Dict(O.RequestEntries(RequestOf(rules, VERIFY, target, t))))
  {
    RequestHasText(rules, VERIFY, target, t);
    T.DumpsExactly(rules.nfc, J.Dict(O.RequestEntries(RequestOf(rules, VERIFY, target, t))), J.NNull);
  }

  lemma WriteMore(f: J.Field, fields: seq<J.Field>)
    requires fields != []
    ensures J.WriteFields([f] + fields) == Member(f.key, J.Write(f.value)) + "," + J.WriteFields(fields)
  {
    assert ([f] + fields)[1..] == fields;
  }

  lemma WriteLast(f: J.Field)
    ensures J.WriteFields([f]) == Member(f.key, J.Write(f.value)) + "}"
  {
  }

  lemma WriteSix(f: seq<J.Field>, m: seq<string>)
    requires |f| == |m| == 6 && forall i :: 0 <= i < 6 ==> m[i] == Member(f[i].key, J.Write(f[i].value))
    ensures J.Write(J.NDict(f)) == "{" + m[0] + "," + m[1] + "," + m[2] + "," + m[3] + "," + m[4] + "," + m[5] + "}"
  {
    hide Member, J.WriteFields;
    WriteLast(f[5]);
    WriteMore(f[4], [f[5]]);
    WriteMore(f[3], [f[4]] + [f[5]]);
    WriteMore(f[2], [f[3]] + ([f[4]] + [f[5]]));
    WriteMore(f[1], [f[2]] + ([f[3]] + ([f[4]] + [f[5]])));
    WriteMore(f[0], [f[1]] + ([f[2]] + ([f[3]] + ([f[4]] + [f[5]]))));
    assert f == [f[0]] + ([f[1]] + ([f[2]] + ([f[3]] + ([f[4]] + [f[5]]))));
  }

  lemma WriteOne(f: J.Field)
    ensures J.Write(J.NDict([f])) == "{" + Member(f.key, J.Write(f.value)) + "}"
  {
    hide Member, J.WriteFields;
    WriteLast(f);
  }

  lemma WriteText(s: string)
    ensures J.Write(J.NStr(s)) == J.Quote(s) && J.Write(J.NInt(1)) == "1"
  {
  }

  lemma TreeText(id: string, summary: string, stamp: string)
    ensures J.Write(ObjectTree(id, summary, stamp)) == ObjectText(id, summary, stamp)
  {
    WriteOne(J.Field("material_id", J.NStr(id)));
    WriteText(VERIFY);
    WriteText(id);
    WriteText(summary);
    WriteText(stamp);
    hide J.Write, J.Quote, Member;
    var m := [
      Member("action", J.Quote(VERIFY)), Member("params", "{" + Member("material_id", J.Quote(id)) + "}"),
      Member("summary", J.Quote(summary)), Member("target_fingerprint", J.Quote(stamp)),
      Member("target_id", J.Quote(id)), Member("v", "1")];
    WriteSix(ObjectTree(id, summary, stamp).fields, m);
  }

  /** The text that is digested for a material, character by character. */
  lemma RequestTextIs(rules: Rules, target: string, t: Target)
    requires KeepsAscii(rules.nfc)
    ensures O.RequestText(rules.nfc, RequestOf(rules, VERIFY, target, t)) == Some(DigestedText(rules, target, t))
    ensures Digest(rules, VERIFY, target, t) == rules.sha(DigestedText(rules, target, t))
  {
    var r := RequestOf(rules, VERIFY, target, t);
    var id, summary, stamp := rules.nfc(target), rules.nfc(r.summary), rules.nfc(r.fingerprint);
    TreeDepicted(rules.nfc, r);
    RequestPermitted(rules, target, t);
    T.DumpsExactly(rules.nfc, J.Dict(O.RequestEntries(r)), ObjectTree(id, summary, stamp));
    TreeText(id, summary, stamp);
    hide ObjectText, ObjectTree, T.Depicts, T.Permitted, J.Dumps, J.Write;
  }

  // ---------------------------------------------------------------------------------------
  // What the fingerprint tells apart

  /** The place of the first separator fixes what stands before it. */
  lemma SplitAtBar(a: string, x: string, b: string, y: string)
    requires '|' !in a && '|' !in b && a + "|" + x == b + "|" + y
    ensures a == b && x == y
  {
    var s, t := a + "|" + x, b + "|" + y;
    assert s[|a|] == '|' && t[|b|] == '|';
    assert (forall k :: 0 <= k < |a| ==> s[k] != '|') && (forall k :: 0 <= k < |b| ==> t[k] != '|');
    assert a == s[..|a|] && b == t[..|b|] && x == s[|a|+1..] && y == t[|b|+1..];
  }

  /** As long as a hash holds no separator, equal fingerprints mean equal hash, version and completeness. */
  lemma FingerprintExactly(t: Target, u: Target)
    requires '|' !in t.sourceHash && '|' !in u.sourceHash
    ensures Fingerprint(t) == Fingerprint(u) <==> SameVersion(t, u)
  {
    if Fingerprint(t) == Fingerprint(u) {
      var c, d := Decimal.Digits(t.sourceVersion), Decimal.Digits(u.sourceVersion);
      assert Fingerprint(t) == t.sourceHash + "|" + (c + "|" + t.completeness);
      assert Fingerprint(u) == u.sourceHash + "|" + (d + "|" + u.completeness);
      SplitAtBar(t.sourceHash, c + "|" + t.completeness, u.sourceHash, d + "|" + u.completeness);
      SplitAtBar(c, t.completeness, d, u.completeness);
      Decimal.DigitsInjective(t.sourceVersion, u.sourceVersion);
    }
  }

  predicate SameVersion(t: Target, u: Target) {
    t.sourceHash == u.sourceHash && t.sourceVersion == u.sourceVersion && t.completeness == u.completeness
  }

  /** Two states of a material whose digested texts agree. */
  ghost predicate LooksAlike(rules: Rules, target: string, t: Target, u: Target) {
    && SameVersion(t, u)
    && rules.nfc(Summary(rules, target, t)) == rules.nfc(Summary(rules, target, u))
  }

  /** A hash and a completeness as the database writes them. */
  predicate Plain(t: Target) { IsAscii(t.sourceHash) && '|' !in t.sourceHash && IsAscii(t.completeness) }

  lemma PlainFingerprint(nfc: string -> string, t: Target)
    requires KeepsAscii(nfc) && Plain(t)
    ensures nfc(Fingerprint(t)) == Fingerprint(t)
  {
    assert IsAscii(Decimal.Digits(t.sourceVersion));
    assert IsAscii(Fingerprint(t));
  }

  /** The digested texts of two states of a material agree exactly when the dialog and the version do. */
  lemma TextsAgree(rules: Rules, target: string, t: Target, u: Target)
    requires KeepsAscii(rules.nfc) && Plain(t) && Plain(u)
    ensures DigestedText(rules, target, t) == DigestedText(rules, target, u) <==> LooksAlike(rules, target, t, u)
  {
    RequestTextIs(rules, target, t);
    RequestTextIs(rules, target, u);
    NamesKept(rules.nfc);
    PlainFingerprint(rules.nfc, t);
    PlainFingerprint(rules.nfc, u);
    FingerprintExactly(t, u);
    hide DigestedText, Fingerprint, Summary, O.RequestText, KeepsAscii, O.KeepsFieldNames, Digest, SameVersion, Plain;
    O.RequestTextBinds(rules.nfc, RequestOf(rules, VERIFY, target, t), RequestOf(rules, VERIFY, target, u));
  }

  // ---------------------------------------------------------------------------------------
  // A pending record stays as it was begun

  /** The record that an accepted begin makes. */
  function Begun(rules: Rules, e: Event): Record
    requires e.BeginEvent? && e.seen.Some?
  {
    Record(e.session, e.window, "VERIFY_MATERIAL", e.target, rules.sha(DigestedText(rules, e.target, e.seen.value)),
           Summary(rules, e.target, e.seen.value), e.now + rules.ttl, Pending, None, false, None)
  }

  /** A begin that is let in. */
  ghost predicate Admits(rules: Rules, g: State, e: Event) {
    && e.BeginEvent? && Enabled(g, e)
    && Begin(rules, g, e.now, e.session, e.window, e.action, e.target, e.params, e.seen, e.nonce).1.Ok?
  }

  lemma FreshIsBegun(rules: Rules, e: Event)
    requires e.BeginEvent? && e.seen.Some? && KeepsAscii(rules.nfc)
    ensures Fresh(rules, e.now, e.session, e.window, VERIFY, e.target, e.seen.value) == Begun(rules, e)
  {
    RequestTextIs(rules, e.target, e.seen.value);
    hide Digest, Summary, DigestedText, KeepsAscii, O.RequestText;
  }

  lemma BeginRecords(rules: Rules, g: State, e: Event)
    requires Admits(rules, g, e)
    ensures e.seen.Some? && e.nonce in Apply(rules, g, e).begun
    ensures e.nonce in Apply(rules, g, e).records
      && Apply(rules, g, e).records[e.nonce] == Fresh(rules, e.now, e.session, e.window, VERIFY, e.target, e.seen.value)
  {
    hide Busy, Cooling, Digest, Summary, SweepOn, Fresh, KnownAction, Locators.IsEntityId, CleanParams, Logged;
  }

  /** A call that leaves a nonce pending leaves its record untouched. */
  lemma StepKeepsPending(rules: Rules, g: State, e: Event, n: string)
    requires Inv(rules, g) && Enabled(g, e) && n in g.begun && PendingIn(Apply(rules, g, e), n)
    ensures PendingIn(g, n) && Apply(rules, g, e).records[n] == g.records[n]
  {
    if !e.WorldEvent? { SweepKeepsPending(rules, g, e.now, n); }
    hide Inv, Sweep, Logged, Busy, Cooling, Fresh, MacOk, Decided, Precheck;
    if e.ConfirmEvent? { ConfirmKeepsPending(rules, g, e, n); }
  }

  lemma DecidedKeepsOthers(rules: Rules, g: State, now: real, n: string, fate: Fate)
    requires n in g.records
    ensures var h := Decided(rules, g, now, n, fate).0;
      n in h.records && h.records[n].status != Pending && forall m :: m in h.records && m != n ==> m in g.records && h.records[m] == g.records[m]
  {
    hide CommitGate;
  }

  lemma ConfirmKeepsPending(rules: Rules, g: State, e: Event, n: string)
    requires e.ConfirmEvent? && PendingIn(Apply(rules, g, e), n)
    ensures var s := Sweep(rules, g, e.now); n in s.records && Apply(rules, g, e).records[n] == s.records[n]
  {
    hide Sweep, Decided, MacOk;
    if e.nonce in Sweep(rules, g, e.now).records { DecidedKeepsOthers(rules, Sweep(rules, g, e.now), e.now, e.nonce, e.fate); }
  }

  lemma {:induction false} RunKeepsPending(rules: Rules, g: State, events: seq<Event>, n: string)
    requires Inv(rules, g) && RunEnabled(rules, g, events) && n in g.begun && PendingIn(Run(rules, g, events), n)
    ensures PendingIn(g, n) && Run(rules, g, events).records[n] == g.records[n]
    decreases |events|
  {
    hide Inv, Apply;
    if events != [] {
      StepKeepsInv(rules, g, events[0]);
      RunKeepsPending(rules, Apply(rules, g, events[0]), events[1..], n);
      StepKeepsPending(rules, g, events[0], n);
    }
  }

  /** After an admitted begin and any run, while the nonce is pending, its record is the one that was begun. */
  ghost predicate AsBegun(rules: Rules, e: Event, h: State)
    requires e.BeginEvent? && e.seen.Some?
  {
    Inv(rules, h) && (PendingIn(h, e.nonce) ==> h.records[e.nonce] == Begun(rules, e))
  }

  lemma PendingIsAsBegun(rules: Rules, g: State, e: Event, events: seq<Event>)
    requires Inv(rules, g) && Admits(rules, g, e) && KeepsAscii(rules.nfc) && RunEnabled(rules, Apply(rules, g, e), events)
    ensures e.BeginEvent? && e.seen.Some? && AsBegun(rules, e, Run(rules, Apply(rules, g, e), events))
  {
    StepKeepsInv(rules, g, e);
    BeginRecords(rules, g, e);
    FreshIsBegun(rules, e);
    hide Inv, Apply, Begin, Begun, Fresh, Run, RunEnabled, KeepsAscii;
    RunKeepsInv(rules, Apply(rules, g, e), events);
    var h := Run(rules, Apply(rules, g, e), events);
    if PendingIn(h, e.nonce) { RunKeepsPending(rules, Apply(rules, g, e), events, e.nonce); }
  }

  // ---------------------------------------------------------------------------------------
  // What was shown is what is written

  /** SHA-256 does not collide on these two texts. */
  predicate Apart(rules: Rules, x: string, y: string) { rules.sha(x) == rules.sha(y) ==> x == y }

  /** The assumptions about the material: its stored words are plain, and SHA-256 tells it from the one that was shown. */
  ghost predicate Distinguishable(rules: Rules, target: string, seen: Target, ms: map<string, Target>) {
    && Plain(seen)
    && (target in ms ==> Plain(ms[target]) && Apart(rules, DigestedText(rules, target, seen), DigestedText(rules, target, ms[target])))
  }

  /** The material is there, unverified, of the hash, version and completeness that were shown, under the same sentence. */
  ghost predicate StillShown(rules: Rules, target: string, seen: Target, ms: map<string, Target>) {
    target in ms && !ms[target].verified && LooksAlike(rules, target, seen, ms[target])
  }

  lemma UnchangedIsStillShown(rules: Rules, e: Event, db: Db)
    requires e.BeginEvent? && e.seen.Some? && KeepsAscii(rules.nfc) && Distinguishable(rules, e.target, e.seen.value, db.materials)
    ensures Unchanged(rules, db, Begun(rules, e)) <==> StillShown(rules, e.target, e.seen.value, db.materials)
  {
    hide Plain, LooksAlike, KeepsAscii, DigestedText;
    if e.target in db.materials {
      RequestTextIs(rules, e.target, db.materials[e.target]);
      TextsAgree(rules, e.target, e.seen.value, db.materials[e.target]);
    }
    hide Digest;
  }

  /**
    From an admitted begin through any run to a confirm, in terms of the materials alone: the confirm writes exactly
    when the nonce is pending inside its deadline, with the window that began it, a live session and the MAC of the
    begun text, and the material is still the one shown, and the transaction is not broken off. Then it writes one row
    and the material's flag.
   */
  lemma WritesExactlyTheShownVersion(rules: Rules, g: State, e: Event, events: seq<Event>, now: real, window: string,
                                     presented: Option<string>, alive: string -> bool, fate: Fate)
    requires Inv(rules, g) && Admits(rules, g, e) && KeepsAscii(rules.nfc) && RunEnabled(rules, Apply(rules, g, e), events)
    requires now >= Run(rules, Apply(rules, g, e), events).clock
    requires e.seen.Some? && Distinguishable(rules, e.target, e.seen.value, Run(rules, Apply(rules, g, e), events).db.materials)
    ensures var h := Run(rules, Apply(rules, g, e), events);
      var after := Confirm(rules, h, now, e.nonce, window, presented, alive, fate).0.db;
      var hash := rules.sha(DigestedText(rules, e.target, e.seen.value));
      && (after != h.db <==>
            && PendingIn(h, e.nonce) && now < e.now + rules.ttl && window == e.window && alive(e.session)
            && rules.hasSecret && presented == Some(rules.mac(e.nonce, hash))
            && StillShown(rules, e.target, e.seen.value, h.db.materials) && !fate.BreaksBefore?)
      && (after != h.db ==>
            && after.log == h.db.log + [Row(e.nonce, "VERIFY_MATERIAL", e.target, hash)]
            && e.target in h.db.materials
            && after.materials == h.db.materials[e.target := h.db.materials[e.target].(verified := true)])
  {
    hide Run, RunEnabled, Apply, Admits, Inv, DigestedText, KeepsAscii, Confirm, Distinguishable, StillShown, Unchanged, Summary;
    PendingIsAsBegun(rules, g, e, events);
    var h := Run(rules, Apply(rules, g, e), events);
    ConfirmWritesExactly(rules, h, now, e.nonce, window, presented, alive, fate);
    UnchangedIsStillShown(rules, e, h.db);
    StillShownIsThere(rules, e.target, e.seen.value, h.db.materials);
  }

  lemma StillShownIsThere(rules: Rules, target: string, seen: Target, ms: map<string, Target>)
    ensures StillShown(rules, target, seen, ms) ==> target in ms
  {
  }
}
