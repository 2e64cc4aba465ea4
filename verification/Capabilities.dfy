/**
  Context capabilities: allowed locator ranges bound to a source fingerprint, their textual key,
  their deduplication (src/syllva/ephemeral/models.py) and the authorization decision of
  src/syllva/ephemeral/memory.py.
*/
module Capabilities {
  import opened Wrappers
  import opened Decimal
  import opened Locators

  datatype Fingerprint = Fingerprint(version: nat, hash: string)

  /** One locator range bound to the source version that authorized it. */
  datatype Allowed = Allowed(locator: Locator, fingerprint: Fingerprint)

  predicate ValidAllowed(a: Allowed) {
    Valid(a.locator) && a.fingerprint.hash != "" && a.fingerprint.version >= 1
  }

  // ---------------------------------------------------------------------------------------
  // The textual key

  const SEPARATOR := 0x1f as char

  function Key(a: Allowed): string
    requires ValidAllowed(a)
  {
    Serialize(a.locator) + [SEPARATOR] + a.fingerprint.hash + [SEPARATOR] + Digits(a.fingerprint.version)
  }

  lemma SerializeIsClean(l: Locator)
    requires Valid(l)
    ensures SEPARATOR !in Serialize(l)
  {
    hide IsEntityId, TargetText, SubtypeText;
    EntityIsClean(l.entity);
    TargetIsClean(l);
  }

  lemma TargetIsClean(l: Locator)
    requires Valid(l)
    ensures SEPARATOR !in TargetText(l) && SEPARATOR !in SubtypeText(l.subtype)
  {
    hide Digits, FormatTimestamp, IsEntityId;
    match l
    case Page(_, a, b, _) => assert SEPARATOR !in Digits(a) && SEPARATOR !in Digits(b);
    case Time(_, a, b, _) =>
      TimestampIsClean(a);
      TimestampIsClean(b);
  }

  lemma TimestampIsClean(n: nat)
    requires n <= MAX_SECONDS
    ensures SEPARATOR !in FormatTimestamp(n)
  {
  }

  lemma EntityIsClean(s: string)
    requires IsEntityId(s)
    ensures SEPARATOR !in s
  {
    IdTextUndoesParse(s);
    var id := ParseId(s).value;
    assert SEPARATOR !in id.courseCode && SEPARATOR !in ['-', id.entityType] && SEPARATOR !in TwoDigits(id.sequence);
  }

  lemma {:induction false} SplitAtFirst(s: string, t: string, u: string, v: string, c: char)
    requires c !in s && c !in u && s + [c] + t == u + [c] + v
    ensures s == u && t == v
  {
    assert (s + [c] + t)[0] == (u + [c] + v)[0];
    assert s != [] ==> s[0] in s;
    assert u != [] ==> u[0] in u;
    assert (s + [c] + t)[1..] == (u + [c] + v)[1..];
    if s != [] {
      assert (s + [c] + t)[1..] == s[1..] + [c] + t && (u + [c] + v)[1..] == u[1..] + [c] + v;
      assert forall x :: x in s[1..] ==> x in s;
      assert forall x :: x in u[1..] ==> x in u;
      SplitAtFirst(s[1..], t, u[1..], v, c);
      assert s == [s[0]] + s[1..] && u == [u[0]] + u[1..];
    } else {
      assert ([] + [c] + t)[1..] == t && ([] + [c] + v)[1..] == v;
    }
  }

  lemma {:induction false} SplitAtLast(s: string, t: string, u: string, v: string, c: char)
    requires c !in t && c !in v && s + [c] + t == u + [c] + v
    ensures s == u && t == v
    decreases |t|
  {
    var x := s + [c] + t;
    var n := |x| - 1;
    assert t != [] ==> x[n] == t[|t|-1] && t[|t|-1] in t;
    assert v != [] ==> x[n] == v[|v|-1] && v[|v|-1] in v;
    assert t == [] ==> x[n] == c;
    assert v == [] ==> (u + [c] + v)[n] == c;
    if t != [] {
      var t', v' := t[..|t|-1], v[..|v|-1];
      assert x[..n] == s + [c] + t' && (u + [c] + v)[..n] == u + [c] + v';
      SplitAtLast(s, t', u, v', c);
      assert t == t' + [x[n]] && v == v' + [x[n]];
    } else {
      assert x[..n] == s && (u + [c] + v)[..n] == u;
    }
  }

  /**
    The key determines the entry although a source hash may itself contain the separator: the
    locator text and the version never do.
   */
  lemma KeyInjective(a: Allowed, b: Allowed)
    requires ValidAllowed(a) && ValidAllowed(b) && Key(a) == Key(b)
    ensures a == b
  {
    hide Serialize, Digits;
    var (s, u) := (Serialize(a.locator), Serialize(b.locator));
    var (t, v) := (a.fingerprint.hash + [SEPARATOR] + Digits(a.fingerprint.version),
                   b.fingerprint.hash + [SEPARATOR] + Digits(b.fingerprint.version));
    assert Key(a) == s + [SEPARATOR] + t && Key(b) == u + [SEPARATOR] + v;
    SerializeIsClean(a.locator);
    SerializeIsClean(b.locator);
    SplitAtFirst(s, t, u, v, SEPARATOR);
    SplitAtLast(a.fingerprint.hash, Digits(a.fingerprint.version), b.fingerprint.hash, Digits(b.fingerprint.version), SEPARATOR);
    SerializeInjective(a.locator, b.locator);
    DigitsInjective(a.fingerprint.version, b.fingerprint.version);
  }

  // ---------------------------------------------------------------------------------------
  // Deduplication

  ghost predicate AllValid(entries: seq<Allowed>) { forall i :: 0 <= i < |entries| ==> ValidAllowed(entries[i]) }

  ghost predicate NoRepeats<T>(xs: seq<T>) { forall i, j :: 0 <= i < j < |xs| ==> xs[i] != xs[j] }

  /** Each entry once, in the order of first occurrence. */
  function FirstOccurrences(entries: seq<Allowed>): seq<Allowed> {
    if entries == [] then []
    else
      var front, last := FirstOccurrences(entries[..|entries|-1]), entries[|entries|-1];
      if last in front then front else front + [last]
  }

  lemma {:induction false} FirstOccurrencesKeepAll(entries: seq<Allowed>)
    ensures NoRepeats(FirstOccurrences(entries))
    ensures forall a :: a in FirstOccurrences(entries) <==> a in entries
  {
    if entries != [] {
      FirstOccurrencesKeepAll(entries[..|entries|-1]);
      assert entries == entries[..|entries|-1] + [entries[|entries|-1]];
    }
  }

  /** What comes first stays first: wherever `a` precedes `b` in the result, it occurred before `b` did. */
  lemma {:induction false} FirstOccurrencesKeepOrder(entries: seq<Allowed>, k: nat, l: nat)
    requires k < l < |FirstOccurrences(entries)|
    ensures exists i :: 0 <= i < |entries| && entries[i] == FirstOccurrences(entries)[k] && FirstOccurrences(entries)[l] !in entries[..i + 1]
  {
    var n := |entries| - 1;
    var front := entries[..n];
    FirstOccurrencesKeepAll(front);
    if l < |FirstOccurrences(front)| {
      FirstOccurrencesKeepOrder(front, k, l);
      var i :| 0 <= i < |front| && front[i] == FirstOccurrences(front)[k] && FirstOccurrences(front)[l] !in front[..i + 1];
      assert entries[i] == front[i] && entries[..i + 1] == front[..i + 1];
    } else {
      assert FirstOccurrences(front)[k] in front;
      var i :| 0 <= i < |front| && front[i] == FirstOccurrences(front)[k];
      assert forall x :: x in entries[..i + 1] ==> x in front;
    }
  }

  /** The loop of `ContextCapability.__post_init__`, which compares keys, keeps first occurrences. */
  method Deduplicate(entries: seq<Allowed>) returns (normalized: seq<Allowed>)
    requires AllValid(entries)
    ensures normalized == FirstOccurrences(entries)
    ensures NoRepeats(normalized) && forall a :: a in normalized <==> a in entries
  {
    hide Key;
    normalized := [];
    var seen: set<string> := {};
    for i := 0 to |entries|
      invariant normalized == FirstOccurrences(entries[..i])
      invariant forall a :: a in normalized ==> a in entries
      invariant forall k :: k in seen <==> exists a :: a in normalized && ValidAllowed(a) && Key(a) == k
    {
      assert entries[..i+1][..i] == entries[..i];
      var canonical := Key(entries[i]);
      if canonical in seen {
        var a :| a in normalized && ValidAllowed(a) && Key(a) == canonical;
        KeyInjective(a, entries[i]);
      } else {
        normalized := normalized + [entries[i]];
        seen := seen + {canonical};
      }
    }
    assert entries[..|entries|] == entries;
    FirstOccurrencesKeepAll(entries);
  }

  // ---------------------------------------------------------------------------------------
  // Authorization

  datatype Capability = Capability(allowed: seq<Allowed>, scope: Option<string>, expiresAt: real)

  ghost predicate ValidCapability(c: Capability) { AllValid(c.allowed) && NoRepeats(c.allowed) }

  /** The locator asked for: text still to be parsed, or a parsed value. */
  datatype Asked = Spelled(text: string) | Parsed(locator: Locator)

  /** The `issued_entry` argument; `NotAnEntry` is a value of another type. */
  datatype Selector = NoSelector | NotAnEntry | Selected(entry: Allowed)

  datatype Verdict = Granted | Denied | Stale

  function Understood(asked: Asked): Option<Locator> {
    match asked case Spelled(text) => Parse(text) case Parsed(l) => Some(l)
  }

  /** `canonical_key`: the tuple that selects an issued entry. */
  function CanonicalKey(a: Allowed): (string, string, nat)
    requires ValidAllowed(a)
  {
    (Serialize(a.locator), a.fingerprint.hash, a.fingerprint.version)
  }

  /** The tuple tells entries apart exactly as the joined string of the deduplication does. */
  lemma KeysAgree(a: Allowed, b: Allowed)
    requires ValidAllowed(a) && ValidAllowed(b)
    ensures CanonicalKey(a) == CanonicalKey(b) <==> Key(a) == Key(b)
    ensures CanonicalKey(a) == CanonicalKey(b) ==> a == b
  {
    if Key(a) == Key(b) { KeyInjective(a, b); }
    if CanonicalKey(a) == CanonicalKey(b) { SerializeInjective(a.locator, b.locator); }
    hide Serialize;
  }

  /** The entries whose key is that of `entry`. */
  function ByKey(entry: Allowed, entries: seq<Allowed>): seq<Allowed>
    requires ValidAllowed(entry) && forall i :: 0 <= i < |entries| ==> ValidAllowed(entries[i])
  {
    if entries == [] then []
    else (if CanonicalKey(entries[0]) == CanonicalKey(entry) then [entries[0]] else []) + ByKey(entry, entries[1..])
  }

  /** By injectivity of the key, at most the entry itself is found, and only if it was issued. */
  lemma {:induction false} ByKeyFindsEntry(entry: Allowed, entries: seq<Allowed>)
    requires ValidAllowed(entry) && AllValid(entries) && NoRepeats(entries)
    ensures ByKey(entry, entries) == if entry in entries then [entry] else []
  {
    hide Key, CanonicalKey;
    if entries != [] {
      assert entries == [entries[0]] + entries[1..];
      ByKeyFindsEntry(entry, entries[1..]);
      if CanonicalKey(entries[0]) == CanonicalKey(entry) {
        KeysAgree(entries[0], entry);
        HeadNotInTail(entries);
      }
    }
  }

  lemma HeadNotInTail(entries: seq<Allowed>)
    requires entries != [] && NoRepeats(entries)
    ensures entries[0] !in entries[1..]
  {
  }

  /** The entries whose range contains `l`. */
  function Around(l: Locator, entries: seq<Allowed>): (r: seq<Allowed>)
    ensures forall a :: a in r <==> a in entries && IsContained(l, a.locator)
  {
    if entries == [] then []
    else
      var tail := Around(l, entries[1..]);
      assert entries == [entries[0]] + entries[1..];
      if IsContained(l, entries[0].locator) then [entries[0]] + tail else tail
  }

  predicate AllCurrent(entries: seq<Allowed>, current: Fingerprint) {
    forall i :: 0 <= i < |entries| ==> entries[i].fingerprint == current
  }

  /** The decision for a capability that exists and has not expired. */
  function Decide(c: Capability, asked: Asked, scope: Option<string>, current: Option<Fingerprint>, selector: Selector): Verdict
    requires forall i :: 0 <= i < |c.allowed| ==> ValidAllowed(c.allowed[i])
    requires selector.Selected? ==> ValidAllowed(selector.entry)
  {
    if c.scope.Some? && c.scope != scope then Denied
    else if Understood(asked).None? then Denied
    else
      var l := Understood(asked).value;
      match selector
      case NotAnEntry => Denied
      case Selected(entry) =>
        var matches := ByKey(entry, c.allowed);
        if |matches| != 1 || !IsContained(l, matches[0].locator) then Denied
        else if current.None? then Denied
        else if matches[0].fingerprint == current.value then Granted else Stale
      case NoSelector =>
        var matches := Around(l, c.allowed);
        if matches == [] then Denied
        else if current.None? then Denied
        else if AllCurrent(matches, current.value) then Granted else Stale
  }

  /** Every page or second of `l` is in the allowed range. */
  ghost predicate Inside(l: Locator, a: Allowed) { forall p :: Denotes(l, p) ==> Denotes(a.locator, p) }

  ghost predicate Applies(c: Capability, asked: Asked, scope: Option<string>) {
    && (c.scope.Some? ==> c.scope == scope)
    && Understood(asked).Some?
  }

  lemma InsideIsContained(l: Locator, entries: seq<Allowed>)
    requires Valid(l) && AllValid(entries)
    ensures forall a :: a in entries ==> (IsContained(l, a.locator) <==> Inside(l, a))
  {
    forall a | a in entries ensures IsContained(l, a.locator) <==> Inside(l, a) {
      ContainedIsInclusion(l, a.locator);
    }
  }

  lemma UnderstoodIsValid(asked: Asked)
    requires asked.Parsed? ==> Valid(asked.locator)
    ensures Understood(asked).Some? ==> Valid(Understood(asked).value)
  {
    hide Parse, Valid, IsSpelling;
    if asked.Spelled? && Parse(asked.text).Some? { SpellingOfParse(asked.text); }
  }

  /** The entry was issued and covers the request. */
  ghost predicate Covered(c: Capability, asked: Asked, scope: Option<string>, entry: Allowed) {
    Applies(c, asked, scope) && entry in c.allowed && Inside(Understood(asked).value, entry)
  }

  /** The decision about a selected entry, in terms of that entry alone. */
  lemma DecideSelected(c: Capability, asked: Asked, scope: Option<string>, current: Option<Fingerprint>, entry: Allowed)
    requires ValidCapability(c) && ValidAllowed(entry) && (asked.Parsed? ==> Valid(asked.locator))
    ensures Decide(c, asked, scope, current, Selected(entry)) ==
      if !Covered(c, asked, scope, entry) || current.None? then Denied
      else if entry.fingerprint == current.value then Granted else Stale
  {
    hide CanonicalKey, Key, Parse, IsContained, Valid, Inside, ByKey, Understood, NoRepeats, IsSpelling;
    ByKeyFindsEntry(entry, c.allowed);
    UnderstoodIsValid(asked);
    if Understood(asked).Some? { InsideIsContained(Understood(asked).value, [entry]); }
  }

  /** With a selected entry: granted exactly when that entry was issued, covers the request and is current. */
  lemma SelectedGrantedIff(c: Capability, asked: Asked, scope: Option<string>, current: Option<Fingerprint>, entry: Allowed)
    requires ValidCapability(c) && ValidAllowed(entry) && (asked.Parsed? ==> Valid(asked.locator))
    ensures Decide(c, asked, scope, current, Selected(entry)).Granted? <==>
      && Applies(c, asked, scope)
      && entry in c.allowed && Inside(Understood(asked).value, entry) && current == Some(entry.fingerprint)
  {
    hide Decide, Inside;
    DecideSelected(c, asked, scope, current, entry);
  }

  /** Some issued entry covers the request. */
  ghost predicate SomeCovered(c: Capability, asked: Asked, scope: Option<string>) { exists a :: Covered(c, asked, scope, a) }

  ghost predicate AllCoveredCurrent(c: Capability, asked: Asked, scope: Option<string>, current: Fingerprint) {
    forall a :: Covered(c, asked, scope, a) ==> a.fingerprint == current
  }

  /** The decision without a selected entry, in terms of the covering entries. */
  lemma DecideUnselected(c: Capability, asked: Asked, scope: Option<string>, current: Option<Fingerprint>)
    requires ValidCapability(c) && (asked.Parsed? ==> Valid(asked.locator))
    ensures Decide(c, asked, scope, current, NoSelector) ==
      if !SomeCovered(c, asked, scope) || current.None? then Denied
      else if AllCoveredCurrent(c, asked, scope, current.value) then Granted else Stale
  {
    UnderstoodIsValid(asked);
    hide Parse, IsContained, Inside, AllCurrent, Around, Valid, NoRepeats;
    if Applies(c, asked, scope) {
      InsideIsContained(Understood(asked).value, c.allowed);
      var matches := Around(Understood(asked).value, c.allowed);
      CoveredMatches(c, asked, scope, matches);
      if current.Some? { AllCurrentByMember(matches, current.value); }
    }
  }

  lemma CoveredMatches(c: Capability, asked: Asked, scope: Option<string>, matches: seq<Allowed>)
    requires forall a :: a in matches <==> Covered(c, asked, scope, a)
    ensures matches != [] <==> SomeCovered(c, asked, scope)
  {
    hide Covered;
    if matches != [] { assert matches[0] in matches; }
  }

  /** Without one: granted exactly when some issued range covers the request and all that do are current. */
  lemma GrantedIff(c: Capability, asked: Asked, scope: Option<string>, current: Option<Fingerprint>)
    requires ValidCapability(c) && (asked.Parsed? ==> Valid(asked.locator))
    ensures Decide(c, asked, scope, current, NoSelector).Granted? <==>
      && Applies(c, asked, scope) && current.Some?
      && (exists a :: a in c.allowed && Inside(Understood(asked).value, a))
      && (forall a :: a in c.allowed && Inside(Understood(asked).value, a) ==> a.fingerprint == current.value)
  {
    hide Decide, Inside, Applies, Understood;
    DecideUnselected(c, asked, scope, current);
    CoveredByMember(c, asked, scope);
    if current.Some? { CurrentByMember(c, asked, scope, current.value); }
  }

  lemma CoveredByMember(c: Capability, asked: Asked, scope: Option<string>)
    ensures SomeCovered(c, asked, scope) <==>
      Applies(c, asked, scope) && exists a :: a in c.allowed && Inside(Understood(asked).value, a)
  {
    hide Inside, Understood;
    if Applies(c, asked, scope) {
      if a :| a in c.allowed && Inside(Understood(asked).value, a) { assert Covered(c, asked, scope, a); }
    }
  }

  lemma CurrentByMember(c: Capability, asked: Asked, scope: Option<string>, current: Fingerprint)
    ensures Applies(c, asked, scope) ==> (AllCoveredCurrent(c, asked, scope, current) <==>
      forall a :: a in c.allowed && Inside(Understood(asked).value, a) ==> a.fingerprint == current)
  {
    hide Inside, Understood;
    if Applies(c, asked, scope) && AllCoveredCurrent(c, asked, scope, current) {
      forall a | a in c.allowed && Inside(Understood(asked).value, a) ensures a.fingerprint == current {
        assert Covered(c, asked, scope, a);
      }
    }
  }

  lemma AllCurrentByMember(entries: seq<Allowed>, current: Fingerprint)
    ensures AllCurrent(entries, current) <==> forall a :: a in entries ==> a.fingerprint == current
  {
    forall i | 0 <= i < |entries| && (forall a :: a in entries ==> a.fingerprint == current)
      ensures entries[i].fingerprint == current
    {
      assert entries[i] in entries;
    }
  }

  /** Staleness is reported exactly when the selected entry covers the request and only its fingerprint stands in the way. */
  lemma SelectedStaleIff(c: Capability, asked: Asked, scope: Option<string>, current: Option<Fingerprint>, entry: Allowed)
    requires ValidCapability(c) && ValidAllowed(entry) && (asked.Parsed? ==> Valid(asked.locator))
    ensures Decide(c, asked, scope, current, Selected(entry)).Stale? <==>
      && Applies(c, asked, scope) && current.Some?
      && entry in c.allowed && Inside(Understood(asked).value, entry) && entry.fingerprint != current.value
  {
    hide Decide, Inside;
    DecideSelected(c, asked, scope, current, entry);
  }

  /** Without one, exactly when some covering range is out of date. */
  lemma StaleIff(c: Capability, asked: Asked, scope: Option<string>, current: Option<Fingerprint>)
    requires ValidCapability(c) && (asked.Parsed? ==> Valid(asked.locator))
    ensures Decide(c, asked, scope, current, NoSelector).Stale? <==>
      && Applies(c, asked, scope) && current.Some?
      && exists a :: a in c.allowed && Inside(Understood(asked).value, a) && a.fingerprint != current.value
  {
    hide Decide, Inside, Applies, Understood;
    DecideUnselected(c, asked, scope, current);
    CoveredByMember(c, asked, scope);
    if current.Some? { CurrentByMember(c, asked, scope, current.value); }
  }

  /** A grant through a selected entry extends to every narrower request. */
  lemma SelectedGrantNarrows(c: Capability, wide: Locator, narrow: Locator, scope: Option<string>, current: Option<Fingerprint>, entry: Allowed)
    requires ValidCapability(c) && ValidAllowed(entry) && Valid(wide) && Valid(narrow) && IsContained(narrow, wide)
    requires Decide(c, Parsed(wide), scope, current, Selected(entry)).Granted?
    ensures Decide(c, Parsed(narrow), scope, current, Selected(entry)).Granted?
  {
    SelectedGrantedIff(c, Parsed(wide), scope, current, entry);
    SelectedGrantedIff(c, Parsed(narrow), scope, current, entry);
    ContainedIsInclusion(narrow, wide);
  }

  /** Without a selected entry it does so exactly when no other issued range around the narrower request is out of date. */
  lemma GrantNarrowsIff(c: Capability, wide: Locator, narrow: Locator, scope: Option<string>, current: Fingerprint)
    requires ValidCapability(c) && Valid(wide) && Valid(narrow) && IsContained(narrow, wide)
    requires Decide(c, Parsed(wide), scope, Some(current), NoSelector).Granted?
    ensures Decide(c, Parsed(narrow), scope, Some(current), NoSelector).Granted? <==>
      forall a :: a in c.allowed && Inside(narrow, a) && !Inside(wide, a) ==> a.fingerprint == current
  {
    GrantedIff(c, Parsed(wide), scope, Some(current));
    GrantedIff(c, Parsed(narrow), scope, Some(current));
    ContainedIsInclusion(narrow, wide);
  }

  /** The exception occurs: pages 1-9 are current, page 2 was also issued for an older version. */
  lemma GrantMayNotNarrow()
    ensures exists c, wide, narrow, current ::
      && ValidCapability(c) && Valid(wide) && Valid(narrow) && IsContained(narrow, wide)
      && Decide(c, Parsed(wide), None, Some(current), NoSelector).Granted?
      && Decide(c, Parsed(narrow), None, Some(current), NoSelector).Stale?
  {
    var id := EntityId("A", 'M', 1);
    ParseUndoesIdText(id);
    var e := IdText(id);
    var wide, narrow := Page(e, 1, 9, Plain), Page(e, 2, 2, Plain);
    var current, before := Fingerprint(2, "h"), Fingerprint(1, "h");
    var c := Capability([Allowed(wide, current), Allowed(narrow, before)], None, 0.0);
    assert c.allowed[0] in c.allowed && c.allowed[1] in c.allowed;
    InsideIsContained(wide, c.allowed);
    InsideIsContained(narrow, c.allowed);
    GrantedIff(c, Parsed(wide), None, Some(current));
    GrantedIff(c, Parsed(narrow), None, Some(current));
    assert Decide(c, Parsed(wide), None, Some(current), NoSelector).Granted?;
    var matches := Around(narrow, c.allowed);
    assert c.allowed[0] in matches;
    assert !Decide(c, Parsed(narrow), None, Some(current), NoSelector).Denied?;
  }
}
