/**
  The announcement memory entry by entry: which prior states are read, and what every listed entry holds, in terms
  of the raw fields, the addresses and the days.
 */
module AnnouncementMemory {
  import opened Wrappers
  import opened Snapshot
  import opened SnapshotOrder
  import opened SnapshotDocument
  import opened SnapshotAcceptance
  import opened SnapshotRefusals
  import opened Announcements
  import J = CanonicalJson

  /** The address of an announcement of the course. */
  function AnnouncementAddress(cfg: Config, id: int): string {
    cfg.origin + "/courses/" + J.IntText(cfg.courseId) + "/discussion_topics/" + J.IntText(id)
  }

  /** The object that says which announcement of which course a record is about. */
  function AnnouncementIdentity(cfg: Config, id: int): Json {
    Obj(map[Origin := Str(cfg.origin), CourseId := Int(cfg.courseId), ResourceKind := Str("announcement"), ResourceId := Int(id)])
  }

  /** The record is about announcement `id` of this course, under its address. */
  predicate About(cfg: Config, record: map<Key, Json>, id: int) {
    && id > 0 && Has(record, Id, Int(id))
    && Has(record, SourceKey, Str(AnnouncementAddress(cfg, id))) && Has(record, LmsUrl, Str(AnnouncementAddress(cfg, id)))
    && Has(record, ContextCode, Str("course_" + J.IntText(cfg.courseId))) && Has(record, SourceIdentity, AnnouncementIdentity(cfg, id))
    && Title in record && record[Title].Str?
  }

  /** A prior entry that is let in, and what it says. */
  ghost predicate Recalls(rules: Rules, cfg: Config, entry: Json, key: string, m: Memory) {
    && entry.Obj? && Has(entry.fields, SourceKey, Str(key))
    && RecordField in entry.fields && entry.fields[RecordField] == m.record && m.record.Obj? && NothingForbidden(rules, m.record)
    && About(cfg, m.record.fields, RawInt(m.record, Id)) && key == AnnouncementAddress(cfg, RawInt(m.record, Id))
    && m.lastSeen == (if LastSeen in entry.fields then entry.fields[LastSeen] else Null)
  }

  lemma PlainAddress(cfg: Config, id: int)
    ensures Url(cfg, Plain(id)) == AnnouncementAddress(cfg, id) && IdentityJson(cfg, Plain(id)) == AnnouncementIdentity(cfg, id)
    ensures ContextOf(cfg) == "course_" + J.IntText(cfg.courseId)
  {
    assert Number(id) == J.IntText(id) && Number(cfg.courseId) == J.IntText(cfg.courseId);
    hide Number, J.IntText;
  }

  lemma FitsExactly(cfg: Config, key: string, record: map<Key, Json>)
    ensures var id := RawInt(Obj(record), Id);
      Get(record, Id).Int? && Get(record, Id).i > 0 && Fits(cfg, key, record) <==> About(cfg, record, id) && key == AnnouncementAddress(cfg, id)
  {
    var id := RawInt(Obj(record), Id);
    PlainAddress(cfg, id);
    hide Url, IdentityJson, ContextOf, AnnouncementAddress;
  }

  lemma RecallsExactly(rules: Rules, cfg: Config, entry: Json, key: string, m: Memory)
    ensures ReadOne(rules, cfg, entry) == Ok((key, m)) <==> Recalls(rules, cfg, entry, key, m)
  {
    if entry.Obj? && Get(entry.fields, RecordField).Obj? {
      var record := entry.fields[RecordField];
      FitsExactly(cfg, key, record.fields);
      ForbiddenIsRejected(rules, cfg, record);
      ForbiddenExactly(rules, record);
    }
    hide Fits, About, Allowed, NothingForbidden, HasForbidden, AnnouncementAddress;
  }

  // ---------------------------------------------------------------------------------------
  // The prior state

  /** The entries are all let in, no key occurs twice, and the map holds what they say on top of what was there. */
  ghost predicate RecallsAll(rules: Rules, cfg: Config, entries: seq<Json>, so: map<string, Memory>, m: map<string, Memory>) {
    && (forall k :: k in so ==> k in m && m[k] == so[k])
    && (forall i :: 0 <= i < |entries| ==> KeyOf(entries[i]) in m && KeyOf(entries[i]) !in so
                                           && Recalls(rules, cfg, entries[i], KeyOf(entries[i]), m[KeyOf(entries[i])]))
    && (forall i, j :: 0 <= i < j < |entries| ==> KeyOf(entries[i]) != KeyOf(entries[j]))
    && (forall k :: k in m ==> k in so || exists i :: 0 <= i < |entries| && KeyOf(entries[i]) == k)
  }

  function KeyOf(entry: Json): string {
    if entry.Obj? && SourceKey in entry.fields && entry.fields[SourceKey].Str? then entry.fields[SourceKey].s else ""
  }

  lemma ReadKey(rules: Rules, cfg: Config, entry: Json)
    ensures ReadOne(rules, cfg, entry).Ok? ==> ReadOne(rules, cfg, entry).value.0 == KeyOf(entry)
  {
    hide Allowed, Fits;
  }

  lemma RecallsCons(rules: Rules, cfg: Config, entries: seq<Json>, so: map<string, Memory>, one: (string, Memory), m: map<string, Memory>)
    requires entries != [] && one.0 == KeyOf(entries[0]) && Recalls(rules, cfg, entries[0], one.0, one.1) && one.0 !in so
    ensures RecallsAll(rules, cfg, entries[1..], so[one.0 := one.1], m) ==> RecallsAll(rules, cfg, entries, so, m)
    ensures RecallsAll(rules, cfg, entries, so, m) && m[one.0] == one.1 ==> RecallsAll(rules, cfg, entries[1..], so[one.0 := one.1], m)
  {
    hide Recalls, KeyOf;
    var tail, next := entries[1..], so[one.0 := one.1];
    assert forall i :: 0 < i < |entries| ==> entries[i] == tail[i - 1];
    if RecallsAll(rules, cfg, tail, next, m) {
      forall k | k in m ensures k in so || exists i :: 0 <= i < |entries| && KeyOf(entries[i]) == k {
        if k !in next { var i :| 0 <= i < |tail| && KeyOf(tail[i]) == k; assert KeyOf(entries[i + 1]) == k; }
        if k == one.0 { assert KeyOf(entries[0]) == k; }
      }
    }
    if RecallsAll(rules, cfg, entries, so, m) && m[one.0] == one.1 {
      forall i | 0 <= i < |tail|
        ensures KeyOf(tail[i]) in m && KeyOf(tail[i]) !in next && Recalls(rules, cfg, tail[i], KeyOf(tail[i]), m[KeyOf(tail[i])])
      {
        assert tail[i] == entries[i + 1];
      }
      forall k | k in m ensures k in next || exists i :: 0 <= i < |tail| && KeyOf(tail[i]) == k {
        if k !in next { var i :| 0 <= i < |entries| && KeyOf(entries[i]) == k; assert i > 0 && KeyOf(tail[i - 1]) == k; }
      }
    }
  }

  lemma RecalledOnce(rules: Rules, cfg: Config, entry: Json, key: string, m: Memory, n: Memory)
    requires Recalls(rules, cfg, entry, key, m) && Recalls(rules, cfg, entry, key, n)
    ensures m == n
  {
    hide About, NothingForbidden;
  }

  /** Reading the prior list gives a memory exactly when the entries recall it. */
  lemma {:induction false} PriorExactly(rules: Rules, cfg: Config, entries: seq<Json>, so: map<string, Memory>, m: map<string, Memory>)
    ensures ReadPrior(rules, cfg, entries, so) == Ok(m) <==> RecallsAll(rules, cfg, entries, so, m)
    decreases |entries|
  {
    if entries == [] {
      if RecallsAll(rules, cfg, entries, so, m) { assert so == m; }
    } else {
      var one := ReadOne(rules, cfg, entries[0]);
      ReadKey(rules, cfg, entries[0]);
      hide ReadOne, Recalls, KeyOf;
      if one.Ok? {
        RecallsExactly(rules, cfg, entries[0], one.value.0, one.value.1);
        if one.value.0 !in so {
          PriorExactly(rules, cfg, entries[1..], so[one.value.0 := one.value.1], m);
          RecallsCons(rules, cfg, entries, so, one.value, m);
          if RecallsAll(rules, cfg, entries, so, m) { RecalledOnce(rules, cfg, entries[0], one.value.0, m[one.value.0], one.value.1); }
        }
      } else if RecallsAll(rules, cfg, entries, so, m) {
        RecallsExactly(rules, cfg, entries[0], KeyOf(entries[0]), m[KeyOf(entries[0])]);
      }
    }
  }

  /** The code of an entry that is refused: the first check that fails. */
  lemma EntryRefused(rules: Rules, cfg: Config, entry: Json)
    ensures var one := ReadOne(rules, cfg, entry);
      var record := if entry.Obj? then Get(entry.fields, RecordField) else Null;
      if !entry.Obj? || !Get(entry.fields, SourceKey).Str? || !record.Obj? then one == Err("invalid_prior_state")
      else if !NothingForbidden(rules, record) then one == Err("forbidden_field")
      else if NoId(record.fields) then one == Err("invalid_announcement_id")
      else one.Ok? || one == Err("invalid_prior_state")
  {
    if entry.Obj? && Get(entry.fields, RecordField).Obj? {
      var record := entry.fields[RecordField];
      ForbiddenIsRejected(rules, cfg, record);
      ForbiddenExactly(rules, record);
      IdFails(record.fields, "invalid_announcement_id");
    }
    hide Fits, Allowed, NothingForbidden, HasForbidden, NoId, PositiveInt;
  }

  /** The code of a prior list that is refused: that of its first bad entry, or of the first key that occurs again. */
  lemma {:induction false} PriorRefused(rules: Rules, cfg: Config, entries: seq<Json>, so: map<string, Memory>) returns (i: nat)
    requires ReadPrior(rules, cfg, entries, so).Err?
    ensures i < |entries| && ReadPrior(rules, cfg, entries[..i], so).Ok?
    ensures var one, code := ReadOne(rules, cfg, entries[i]), ReadPrior(rules, cfg, entries, so).error;
      if one.Err? then code == one.error
      else one.value.0 in ReadPrior(rules, cfg, entries[..i], so).value && code == "duplicate_prior_source_key"
    decreases |entries|
  {
    hide ReadOne;
    var one := ReadOne(rules, cfg, entries[0]);
    if one.Err? || one.value.0 in so {
      i := 0;
    } else {
      i := PriorRefused(rules, cfg, entries[1..], so[one.value.0 := one.value.1]);
      i := i + 1;
      assert entries[..i][1..] == entries[1..][..i - 1] && entries[..i][0] == entries[0];
    }
  }

  // ---------------------------------------------------------------------------------------
  // The listed entries

  /** In code point order of their keys. */
  ghost predicate Ascend(out: seq<Entry>) { forall i, j :: 0 <= i < j < |out| ==> J.Precedes(out[i].key, out[j].key) }

  /** The announcement of the snapshot with that address; of several the last. */
  ghost predicate ListedAs(cfg: Config, current: seq<Record>, key: string, i: nat) {
    && i < |current| && !current[i].Payload? && AnnouncementAddress(cfg, current[i].id) == key
    && forall j :: i < j < |current| ==> !current[j].Payload? && AnnouncementAddress(cfg, current[j].id) != key
  }

  lemma {:induction false} ByKeyExactly(cfg: Config, current: seq<Record>, key: string)
    requires AllOfKind(AnnouncementKind, current)
    ensures key in ByKey(cfg, current) <==> exists i: nat :: ListedAs(cfg, current, key, i)
    ensures forall i: nat :: ListedAs(cfg, current, key, i) ==> key in ByKey(cfg, current) && ByKey(cfg, current)[key] == current[i]
  {
    hide AnnouncementAddress, Url;
    if current != [] {
      var n := |current| - 1;
      var front := current[..n];
      assert OfKind(AnnouncementKind, current[n]);
      AddressOf(cfg, current[n]);
      forall r | r in front ensures OfKind(AnnouncementKind, r) {}
      ByKeyExactly(cfg, front, key);
      forall i: nat | i < n ensures !current[i].Payload? { assert OfKind(AnnouncementKind, current[i]); }
      if AnnouncementAddress(cfg, current[n].id) == key {
        assert ListedAs(cfg, current, key, n);
      } else {
        forall i: nat ensures ListedAs(cfg, current, key, i) <==> ListedAs(cfg, front, key, i) {
          if i < n { assert current[i] == front[i]; }
        }
      }
    }
  }

  lemma AddressOf(cfg: Config, r: Record)
    requires r.Announcement?
    ensures Url(cfg, r) == AnnouncementAddress(cfg, r.id)
  {
    assert Number(r.id) == J.IntText(r.id) && Number(cfg.courseId) == J.IntText(cfg.courseId);
    hide Number, J.IntText;
  }

  /** An entry of the list: of the snapshot, seen now and on this day, or carried along as it was remembered. */
  ghost predicate EntryHolds(cfg: Config, current: seq<Record>, known: map<string, Memory>, on: Json, e: Entry) {
    if exists i: nat :: ListedAs(cfg, current, e.key, i) then
      && e.seen
      && (forall i: nat :: ListedAs(cfg, current, e.key, i) ==> e.record == Obj(RecordFields(cfg, current[i])))
      && e.lastSeen == (if on != Null then on else if e.key in known then known[e.key].lastSeen else Null)
    else
      e.key in known && !e.seen && e.record == known[e.key].record && e.lastSeen == known[e.key].lastSeen
  }

  /** The list has one entry for each announcement listed now or remembered, in the order of the addresses. */
  ghost predicate Projects(cfg: Config, current: seq<Record>, known: map<string, Memory>, on: Json, out: seq<Entry>) {
    Ascend(out) && AllHold(cfg, current, known, on, out) && KeepsKnown(known, out) && KeepsCurrent(cfg, current, out)
  }

  ghost predicate AllHold(cfg: Config, current: seq<Record>, known: map<string, Memory>, on: Json, out: seq<Entry>) {
    forall i :: 0 <= i < |out| ==> EntryHolds(cfg, current, known, on, out[i])
  }

  ghost predicate KeepsKnown(known: map<string, Memory>, out: seq<Entry>) {
    forall k :: k in known ==> exists i :: 0 <= i < |out| && out[i].key == k
  }

  ghost predicate KeepsCurrent(cfg: Config, current: seq<Record>, out: seq<Entry>) {
    forall i :: 0 <= i < |current| ==> !current[i].Payload? && exists j :: 0 <= j < |out| && out[j].key == AnnouncementAddress(cfg, current[i].id)
  }

  lemma MergedHolds(cfg: Config, current: seq<Record>, known: map<string, Memory>, on: Json, k: string)
    requires AllOfKind(AnnouncementKind, current) && AnnouncementsOnly(ByKey(cfg, current))
    ensures var m := Merged(cfg, ByKey(cfg, current), known, on);
      && (k in m <==> k in known || exists i: nat :: ListedAs(cfg, current, k, i))
      && (k in m ==> m[k].key == k && EntryHolds(cfg, current, known, on, m[k]))
  {
    ByKeyExactly(cfg, current, k);
    MergedAt(cfg, ByKey(cfg, current), known, on, k);
    hide ListedAs, Merged, ByKey, RecordFields, AllOfKind;
    if i: nat :| ListedAs(cfg, current, k, i) { assert k in ByKey(cfg, current); }
  }

  lemma ListsAscend(out: seq<Entry>, m: map<string, Entry>)
    requires Lists(out, m)
    ensures Ascend(out)
  {
    hide J.Precedes, J.Less;
    forall i, j | 0 <= i < j < |out| ensures J.Precedes(out[i].key, out[j].key) { J.LessExactly(out[i].key, out[j].key); }
  }

  lemma ListedAt(out: seq<Entry>, m: map<string, Entry>, k: string)
    requires Lists(out, m) && k in m
    ensures exists j :: 0 <= j < |out| && out[j].key == k
  {
    assert m[k] in out;
  }

  lemma ListedKnown(cfg: Config, current: seq<Record>, known: map<string, Memory>, on: Json, out: seq<Entry>)
    requires AllOfKind(AnnouncementKind, current) && AnnouncementsOnly(ByKey(cfg, current))
    requires Lists(out, Merged(cfg, ByKey(cfg, current), known, on))
    ensures AllHold(cfg, current, known, on, out) && KeepsKnown(known, out)
  {
    var m := Merged(cfg, ByKey(cfg, current), known, on);
    forall i | 0 <= i < |out| ensures out[i].key in m && m[out[i].key] == out[i] { assert out[i] in out; }
    hide Merged, ByKey, EntryHolds, Lists, AllOfKind, AnnouncementsOnly, ListedAs;
    forall i | 0 <= i < |out| ensures EntryHolds(cfg, current, known, on, out[i]) { MergedHolds(cfg, current, known, on, out[i].key); }
    forall k | k in known ensures exists i :: 0 <= i < |out| && out[i].key == k {
      MergedHolds(cfg, current, known, on, k);
      ListedAt(out, m, k);
    }
  }

  lemma ListedCurrent(cfg: Config, current: seq<Record>, known: map<string, Memory>, on: Json, out: seq<Entry>)
    requires AllOfKind(AnnouncementKind, current) && AnnouncementsOnly(ByKey(cfg, current))
    requires Lists(out, Merged(cfg, ByKey(cfg, current), known, on))
    ensures KeepsCurrent(cfg, current, out)
  {
    ByKeyKind(cfg, current);
    forall i | 0 <= i < |current| ensures current[i].Announcement? && Url(cfg, current[i]) in ByKey(cfg, current) {
      assert current[i] in current && OfKind(AnnouncementKind, current[i]);
    }
    hide Merged, ByKey, Lists, AllOfKind, AnnouncementsOnly, AnnouncementAddress, Url;
    forall i | 0 <= i < |current| ensures exists j :: 0 <= j < |out| && out[j].key == AnnouncementAddress(cfg, current[i].id) {
      AddressOf(cfg, current[i]);
      MergedInNow(cfg, current, known, on, Url(cfg, current[i]));
      ListedAt(out, Merged(cfg, ByKey(cfg, current), known, on), Url(cfg, current[i]));
    }
  }

  lemma ListedProjects(cfg: Config, current: seq<Record>, known: map<string, Memory>, on: Json, out: seq<Entry>)
    requires AllOfKind(AnnouncementKind, current) && AnnouncementsOnly(ByKey(cfg, current))
    requires Lists(out, Merged(cfg, ByKey(cfg, current), known, on))
    ensures Projects(cfg, current, known, on, out)
  {
    hide Merged, ByKey, EntryHolds, AnnouncementAddress, Lists, AllOfKind, AnnouncementsOnly, Ascend, AllHold, KeepsKnown, KeepsCurrent;
    ListsAscend(out, Merged(cfg, ByKey(cfg, current), known, on));
    ListedKnown(cfg, current, known, on, out);
    ListedCurrent(cfg, current, known, on, out);
  }

  lemma MergedInNow(cfg: Config, current: seq<Record>, known: map<string, Memory>, on: Json, k: string)
    requires AllOfKind(AnnouncementKind, current) && AnnouncementsOnly(ByKey(cfg, current)) && k in ByKey(cfg, current)
    ensures var m := Merged(cfg, ByKey(cfg, current), known, on); k in m && m[k].key == k
  {
    MergedAt(cfg, ByKey(cfg, current), known, on, k);
    hide Merged, ByKey, RecordFields, AllOfKind;
  }

  /** The prior state of the first run, or a list of entries that can all be recalled. */
  ghost predicate PriorHolds(rules: Rules, cfg: Config, prior: Json, known: map<string, Memory>) {
    if prior.Null? then known == map[] else prior.Arr? && RecallsAll(rules, cfg, prior.elements, map[], known)
  }

  /** `_announcement_projection`: it succeeds exactly when the prior state can be recalled, and then lists what it should. */
  lemma ProjectsExactly(rules: Rules, cfg: Config, o: Observation, prior: Json, r: Result<seq<Entry>, Code>)
    requires AllOfKind(AnnouncementKind, o.current) && Projected(rules, cfg, o, prior, r)
    ensures r.Ok? <==> exists known :: PriorHolds(rules, cfg, prior, known)
    ensures !prior.Null? && !prior.Arr? ==> r == Err("invalid_prior_state")
    ensures forall known :: PriorHolds(rules, cfg, prior, known) ==> r.Ok? && Projects(cfg, o.current, known, o.on, r.value)
  {
    hide ReadPrior, RecallsAll, Lists, Merged, Projects, ByKey;
    if r.Ok? {
      var known := ReadPrior(rules, cfg, PriorEntries(prior).value, map[]).value;
      PriorExactly(rules, cfg, PriorEntries(prior).value, map[], known);
      NothingRecalled(rules, cfg, known);
      assert PriorHolds(rules, cfg, prior, known);
      ListedProjects(cfg, o.current, known, o.on, r.value);
    }
    forall known | PriorHolds(rules, cfg, prior, known) ensures r.Ok? && Projects(cfg, o.current, known, o.on, r.value) {
      NothingRecalled(rules, cfg, known);
      PriorExactly(rules, cfg, PriorEntries(prior).value, map[], known);
      ListedProjects(cfg, o.current, known, o.on, r.value);
    }
  }

  lemma NothingRecalled(rules: Rules, cfg: Config, known: map<string, Memory>)
    ensures RecallsAll(rules, cfg, [], map[], known) <==> known == map[]
  {
    if RecallsAll(rules, cfg, [], map[], known) { assert forall k :: k !in known; assert known == map[]; }
  }
}
