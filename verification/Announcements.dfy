/**
  The announcement memory of a projection (`_announcement_projection` in scripts/knu_lms_sync.py): Canvas only lists
  a window of recent announcements, so the ones seen before are carried along in the prior state.
 */
module Announcements {
  import opened Wrappers
  import opened Snapshot
  import opened SnapshotOrder
  import opened SnapshotDocument
  import J = CanonicalJson

  /** What is remembered of one announcement. */
  datatype Memory = Memory(record: Json, lastSeen: Json)

  datatype Entry = Entry(key: string, record: Json, lastSeen: Json, seen: bool)

  // ---------------------------------------------------------------------------------------
  // Reading the prior state

  function Plain(id: int): Record { Announcement(id, "", None, None, None) }

  /** The record is about this course and agrees with its key. */
  predicate Fits(cfg: Config, key: string, record: map<Key, Json>) {
    && Get(record, Id).Int? && key == Url(cfg, Plain(record[Id].i))
    && Get(record, SourceKey) == Str(key) && Get(record, LmsUrl) == Str(key) && Get(record, ContextCode) == Str(ContextOf(cfg))
    && Get(record, SourceIdentity) == IdentityJson(cfg, Plain(record[Id].i)) && Get(record, Title).Str?
  }

  function ReadOne(rules: Rules, cfg: Config, entry: Json): Result<(string, Memory), Code> {
    if !entry.Obj? || !Get(entry.fields, SourceKey).Str? then Err("invalid_prior_state")
    else
      var record := Get(entry.fields, RecordField);
      if !record.Obj? then Err("invalid_prior_state")
      else if !Allowed(rules, record) then Err("forbidden_field")
      else
        var _ :- PositiveInt(Get(record.fields, Id), "invalid_announcement_id");
        if !Fits(cfg, entry.fields[SourceKey].s, record.fields) then Err("invalid_prior_state")
        else Ok((entry.fields[SourceKey].s, Memory(record, Get(entry.fields, LastSeen))))
  }

  /** The rest of the prior list, on top of what was read so far. */
  function ReadPrior(rules: Rules, cfg: Config, entries: seq<Json>, so: map<string, Memory>): Result<map<string, Memory>, Code>
    decreases |entries|
  {
    if entries == [] then Ok(so)
    else
      var one :- ReadOne(rules, cfg, entries[0]);
      if one.0 in so then Err("duplicate_prior_source_key") else ReadPrior(rules, cfg, entries[1..], so[one.0 := one.1])
  }

  function PriorEntries(prior: Json): Result<seq<Json>, Code> {
    if prior.Null? then Ok([]) else if prior.Arr? then Ok(prior.elements) else Err("invalid_prior_state")
  }

  // ---------------------------------------------------------------------------------------
  // Merging

  /** The records of the snapshot by key; of two with one key the later. */
  function ByKey(cfg: Config, current: seq<Record>): map<string, Record>
    requires AllOfKind(AnnouncementKind, current)
  {
    if current == [] then map[]
    else
      var last := |current| - 1;
      assert OfKind(AnnouncementKind, current[last]);
      ByKey(cfg, current[..last])[Url(cfg, current[last]) := current[last]]
  }

  /** An announcement that the snapshot lists. */
  function CurrentEntry(cfg: Config, k: string, r: Record, prior: map<string, Memory>, observedOn: Json): Entry
    requires r.Announcement?
  {
    var before := if k in prior then prior[k].lastSeen else Null;
    Entry(k, Obj(RecordFields(cfg, r)), if observedOn != Null then observedOn else before, true)
  }

  ghost predicate AnnouncementsOnly(now: map<string, Record>) { forall k :: k in now ==> now[k].Announcement? }

  function CurrentEntries(cfg: Config, now: map<string, Record>, prior: map<string, Memory>, observedOn: Json): map<string, Entry>
    requires AnnouncementsOnly(now)
  {
    map k | k in now :: CurrentEntry(cfg, k, now[k], prior, observedOn)
  }

  /** The announcements that have left the window. */
  function OldEntries(prior: map<string, Memory>, keys: set<string>): map<string, Entry> {
    map k | k in prior && k in keys :: Entry(k, prior[k].record, prior[k].lastSeen, false)
  }

  /** `now`, and of the prior entries those of the given keys that are not in it. */
  function Carried(now: map<string, Entry>, prior: map<string, Memory>, keys: set<string>): map<string, Entry> {
    now + OldEntries(prior, keys - now.Keys)
  }

  function Merged(cfg: Config, now: map<string, Record>, prior: map<string, Memory>, observedOn: Json): map<string, Entry>
    requires AnnouncementsOnly(now)
  {
    Carried(CurrentEntries(cfg, now, prior, observedOn), prior, prior.Keys)
  }

  lemma MergedAt(cfg: Config, now: map<string, Record>, prior: map<string, Memory>, observedOn: Json, k: string)
    requires AnnouncementsOnly(now)
    ensures var m := Merged(cfg, now, prior, observedOn);
      && (k in m <==> k in now || k in prior)
      && (k in now ==> m[k] == CurrentEntry(cfg, k, now[k], prior, observedOn))
      && (k !in now && k in prior ==> m[k] == Entry(k, prior[k].record, prior[k].lastSeen, false))
  {
    hide CurrentEntry;
  }

  lemma {:induction false} ByKeyKind(cfg: Config, current: seq<Record>)
    requires AllOfKind(AnnouncementKind, current)
    ensures AnnouncementsOnly(ByKey(cfg, current))
    ensures forall k :: k in ByKey(cfg, current) ==> ByKey(cfg, current)[k] in current && Url(cfg, ByKey(cfg, current)[k]) == k
    ensures forall r :: r in current ==> !r.Payload? && Url(cfg, r) in ByKey(cfg, current)
  {
    hide Url;
    if current != [] {
      var last := |current| - 1;
      assert OfKind(AnnouncementKind, current[last]);
      ByKeyKind(cfg, current[..last]);
      assert current == current[..last] + [current[last]];
      forall r | r in current ensures !r.Payload? && Url(cfg, r) in ByKey(cfg, current) {
        assert OfKind(AnnouncementKind, r);
        assert r in current[..last] || r == current[last];
      }
    }
  }

  /** The entries of the map, in the order of their keys. */
  ghost predicate Lists(out: seq<Entry>, m: map<string, Entry>) {
    && (forall i, j :: 0 <= i < j < |out| ==> J.Less(out[i].key, out[j].key))
    && (forall e :: e in out ==> e.key in m && m[e.key] == e)
    && (forall k :: k in m ==> m[k].key == k && m[k] in out)
  }

  function InsertEntry(e: Entry, out: seq<Entry>): seq<Entry> {
    if out == [] || J.Less(e.key, out[0].key) then [e] + out else [out[0]] + InsertEntry(e, out[1..])
  }

  lemma {:induction false} InsertEntryAdds(e: Entry, out: seq<Entry>)
    ensures forall x :: x in InsertEntry(e, out) <==> x in out || x == e
  {
    if out != [] { InsertEntryAdds(e, out[1..]); }
  }

  ghost predicate KeysAscend(out: seq<Entry>) { forall i, j :: 0 <= i < j < |out| ==> J.Less(out[i].key, out[j].key) }

  lemma {:induction false} InsertEntrySorts(e: Entry, out: seq<Entry>)
    requires KeysAscend(out) && forall x :: x in out ==> x.key != e.key
    ensures KeysAscend(InsertEntry(e, out))
  {
    if out != [] {
      J.LessIsTotal(e.key, out[0].key);
      if J.Less(e.key, out[0].key) {
        forall j | 0 <= j < |out| ensures J.Less(e.key, out[j].key) {
          if j > 0 { J.LessIsTransitive(e.key, out[0].key, out[j].key); }
        }
      } else {
        InsertEntrySorts(e, out[1..]);
        InsertEntryAdds(e, out[1..]);
        var t := InsertEntry(e, out[1..]);
        forall j | 0 <= j < |t| ensures J.Less(out[0].key, t[j].key) { assert t[j] in t; }
      }
    }
  }

  /**
    `_announcement_projection`: fills one dictionary from the prior state, one from the snapshot, then merges them.
    It fails exactly as reading the prior state fails, and otherwise lists the merged entries by key.
   */
  method Project(rules: Rules, cfg: Config, current: seq<Record>, prior: Json, observedOn: Json) returns (r: Result<seq<Entry>, Code>)
    requires AllOfKind(AnnouncementKind, current)
    ensures Projected(rules, cfg, Observation(current, observedOn), prior, r)
    ensures PriorEntries(prior).Err? ==> r == Err(PriorEntries(prior).error)
    ensures PriorEntries(prior).Ok? ==>
      var known := ReadPrior(rules, cfg, PriorEntries(prior).value, map[]);
      if known.Err? then r == Err(known.error)
      else
        && r.Ok? && AnnouncementsOnly(ByKey(cfg, current))
        && Lists(r.value, Merged(cfg, ByKey(cfg, current), known.value, observedOn))
  {
    hide ReadPrior, ByKey, CurrentEntries, Carried, Lists, AnnouncementsOnly;
    if !prior.Null? && !prior.Arr? { return Err("invalid_prior_state"); }
    var known := ReadAll(rules, cfg, if prior.Null? then [] else prior.elements);
    if known.Err? { return Err(known.error); }
    ByKeyKind(cfg, current);
    var now := FillCurrent(cfg, current, known.value, observedOn);
    var result := CarryOver(now, known.value);
    MergedKeys(cfg, ByKey(cfg, current), known.value, observedOn);
    assert result == Merged(cfg, ByKey(cfg, current), known.value, observedOn);
    var out := SortedEntries(result);
    return Ok(out);
  }

  lemma MergedKeys(cfg: Config, now: map<string, Record>, prior: map<string, Memory>, observedOn: Json)
    requires AnnouncementsOnly(now)
    ensures var m := Merged(cfg, now, prior, observedOn); forall k :: k in m ==> m[k].key == k
  {
    forall k | k in Merged(cfg, now, prior, observedOn) ensures Merged(cfg, now, prior, observedOn)[k].key == k {
      MergedAt(cfg, now, prior, observedOn, k);
    }
  }

  /** The first loop: the prior entries by key. */
  method ReadAll(rules: Rules, cfg: Config, entries: seq<Json>) returns (r: Result<map<string, Memory>, Code>)
    ensures r == ReadPrior(rules, cfg, entries, map[])
  {
    hide ReadOne;
    var priorByKey: map<string, Memory> := map[];
    var i := 0;
    while i < |entries|
      invariant 0 <= i <= |entries|
      invariant ReadPrior(rules, cfg, entries, map[]) == ReadPrior(rules, cfg, entries[i..], priorByKey)
    {
      var one := ReadOne(rules, cfg, entries[i]);
      assert entries[i..][1..] == entries[i + 1..];
      if one.Err? { return Err(one.error); }
      if one.value.0 in priorByKey { return Err("duplicate_prior_source_key"); }
      priorByKey := priorByKey[one.value.0 := one.value.1];
      i := i + 1;
    }
    return Ok(priorByKey);
  }

  lemma OneMoreCurrent(cfg: Config, now: map<string, Record>, k: string, r: Record, prior: map<string, Memory>, observedOn: Json)
    requires AnnouncementsOnly(now) && r.Announcement?
    ensures AnnouncementsOnly(now[k := r])
    ensures CurrentEntries(cfg, now[k := r], prior, observedOn)
      == CurrentEntries(cfg, now, prior, observedOn)[k := CurrentEntry(cfg, k, r, prior, observedOn)]
  {
    hide CurrentEntry;
  }

  /** The second loop: every announcement of the snapshot, seen in the window. */
  method FillCurrent(cfg: Config, current: seq<Record>, prior: map<string, Memory>, observedOn: Json) returns (result: map<string, Entry>)
    requires AllOfKind(AnnouncementKind, current)
    ensures AnnouncementsOnly(ByKey(cfg, current)) && result == CurrentEntries(cfg, ByKey(cfg, current), prior, observedOn)
  {
    hide Url, RecordFields, CurrentEntries, AnnouncementsOnly;
    ByKeyKind(cfg, current[..0]);
    result := map[];
    var i := 0;
    assert result == CurrentEntries(cfg, ByKey(cfg, current[..0]), prior, observedOn) by { NoneCurrent(cfg, prior, observedOn); }
    while i < |current|
      invariant 0 <= i <= |current| && AllOfKind(AnnouncementKind, current[..i])
      invariant AnnouncementsOnly(ByKey(cfg, current[..i])) && result == CurrentEntries(cfg, ByKey(cfg, current[..i]), prior, observedOn)
    {
      assert current[..i + 1][..i] == current[..i] && OfKind(AnnouncementKind, current[i]);
      var k := Url(cfg, current[i]);
      OneMoreCurrent(cfg, ByKey(cfg, current[..i]), k, current[i], prior, observedOn);
      result := result[k := CurrentEntry(cfg, k, current[i], prior, observedOn)];
      i := i + 1;
    }
    assert current[..i] == current;
  }

  lemma NoneCurrent(cfg: Config, prior: map<string, Memory>, observedOn: Json)
    ensures AnnouncementsOnly(map[]) && CurrentEntries(cfg, map[], prior, observedOn) == map[]
  {
  }

  lemma CarryOne(now: map<string, Entry>, prior: map<string, Memory>, done: set<string>, k: string)
    requires k in prior
    ensures Carried(now, prior, done + {k}) ==
      if k in now then Carried(now, prior, done) else Carried(now, prior, done)[k := Entry(k, prior[k].record, prior[k].lastSeen, false)]
  {
    if k in now {
      assert done + {k} - now.Keys == done - now.Keys;
    } else {
      assert done + {k} - now.Keys == (done - now.Keys) + {k};
      assert OldEntries(prior, (done - now.Keys) + {k})
        == OldEntries(prior, done - now.Keys)[k := Entry(k, prior[k].record, prior[k].lastSeen, false)];
    }
  }

  lemma CarryNone(now: map<string, Entry>, prior: map<string, Memory>)
    ensures Carried(now, prior, {}) == now
  {
  }

  /** The third loop: what is only in the prior state. */
  method CarryOver(now: map<string, Entry>, prior: map<string, Memory>) returns (result: map<string, Entry>)
    ensures result == Carried(now, prior, prior.Keys)
  {
    hide Carried;
    result := now;
    CarryNone(now, prior);
    var todo, done := prior.Keys, {};
    while todo != {}
      invariant todo + done == prior.Keys && todo !! done && result == Carried(now, prior, done)
      decreases |todo|
    {
      var k :| k in todo;
      CarryOne(now, prior, done, k);
      if k !in now { result := result[k := Entry(k, prior[k].record, prior[k].lastSeen, false)]; }
      todo, done := todo - {k}, done + {k};
    }
    assert done == prior.Keys;
  }

  /** `[result[key] for key in sorted(result)]` */
  method SortedEntries(m: map<string, Entry>) returns (out: seq<Entry>)
    requires forall k :: k in m ==> m[k].key == k
    ensures Lists(out, m)
  {
    out := [];
    var rest := m.Keys;
    while rest != {}
      invariant rest <= m.Keys && KeysAscend(out)
      invariant forall e :: e in out <==> e.key in m && e.key !in rest && m[e.key] == e
      decreases |rest|
    {
      var k :| k in rest;
      InsertEntrySorts(m[k], out);
      InsertEntryAdds(m[k], out);
      out := InsertEntry(m[k], out);
      rest := rest - {k};
    }
  }

  // ---------------------------------------------------------------------------------------
  // What the next run reads back

  function EntryJson(e: Entry): Json {
    Obj(map[SourceKey := Str(e.key), RecordField := e.record, LastSeen := e.lastSeen, SeenInWindow := Bool(e.seen)])
  }

  function EntriesJson(out: seq<Entry>): seq<Json> { if out == [] then [] else [EntryJson(out[0])] + EntriesJson(out[1..]) }

  function Remembered(m: map<string, Entry>): map<string, Memory> { map k | k in m :: Memory(m[k].record, m[k].lastSeen) }

  /** A record that the prior-state checks let through. */
  ghost predicate Accepted(rules: Rules, cfg: Config, key: string, record: Json) {
    record.Obj? && Allowed(rules, record) && Get(record.fields, Id).Int? && record.fields[Id].i > 0 && Fits(cfg, key, record.fields)
  }

  lemma EntryReads(rules: Rules, cfg: Config, e: Entry)
    requires Accepted(rules, cfg, e.key, e.record)
    ensures ReadOne(rules, cfg, EntryJson(e)) == Ok((e.key, Memory(e.record, e.lastSeen)))
  {
    hide Allowed, Fits;
  }

  lemma CurrentKeys(cfg: Config, r: Record)
    requires r.Announcement?
    ensures var o, url := RecordFields(cfg, r), Url(cfg, r); Get(o, Id) == Int(r.id) && Get(o, SourceKey) == Str(url)
  {
    hide RecordFields, Url;
    FieldAt(cfg, r, Id);
    FieldAt(cfg, r, SourceKey);
  }

  lemma CurrentLink(cfg: Config, r: Record)
    requires r.Announcement?
    ensures var o := RecordFields(cfg, r); Get(o, LmsUrl) == Str(Url(cfg, r)) && Get(o, ContextCode) == Str(ContextOf(cfg))
  {
    hide RecordFields, Url, ContextOf;
    FieldAt(cfg, r, LmsUrl);
    FieldAt(cfg, r, ContextCode);
  }

  lemma CurrentLabels(cfg: Config, r: Record)
    requires r.Announcement?
    ensures var o := RecordFields(cfg, r); Get(o, SourceIdentity) == IdentityJson(cfg, r) && Get(o, Title) == Str(r.name)
  {
    hide RecordFields, IdentityJson;
    FieldAt(cfg, r, SourceIdentity);
    FieldAt(cfg, r, Title);
  }

  /** A current announcement passes the checks. */
  lemma CurrentAccepted(rules: Rules, cfg: Config, r: Record)
    requires r.Announcement? && Good(rules, cfg, r)
    ensures Accepted(rules, cfg, Url(cfg, r), Obj(RecordFields(cfg, r)))
  {
    hide Allowed, RecordFields, FieldOf, ContextOf, CourseUrl;
    RecordAllowed(rules, cfg, r);
    CurrentKeys(cfg, r);
    CurrentLink(cfg, r);
    CurrentLabels(cfg, r);
  }

  ghost predicate AllAccepted(rules: Rules, cfg: Config, m: map<string, Memory>) { forall k :: k in m ==> Accepted(rules, cfg, k, m[k].record) }

  lemma {:induction false} PriorAccepted(rules: Rules, cfg: Config, entries: seq<Json>, so: map<string, Memory>)
    requires AllAccepted(rules, cfg, so)
    ensures var r := ReadPrior(rules, cfg, entries, so); r.Ok? ==> AllAccepted(rules, cfg, r.value)
    decreases |entries|
  {
    hide Allowed, Fits;
    if entries != [] && ReadOne(rules, cfg, entries[0]).Ok? {
      var one := ReadOne(rules, cfg, entries[0]).value;
      PriorAccepted(rules, cfg, entries[1..], so[one.0 := one.1]);
    }
  }

  lemma MergedAccepted(rules: Rules, cfg: Config, current: seq<Record>, prior: map<string, Memory>, observedOn: Json)
    requires AllOfKind(AnnouncementKind, current) && AllGood(rules, cfg, current) && AllAccepted(rules, cfg, prior)
    ensures AnnouncementsOnly(ByKey(cfg, current))
    ensures AllAccepted(rules, cfg, Remembered(Merged(cfg, ByKey(cfg, current), prior, observedOn)))
  {
    ByKeyKind(cfg, current);
    hide ByKey, Url, RecordFields, Good, Accepted;
    var now := ByKey(cfg, current);
    forall k | k in now ensures Accepted(rules, cfg, k, Obj(RecordFields(cfg, now[k]))) {
      var i :| 0 <= i < |current| && current[i] == now[k];
      CurrentAccepted(rules, cfg, now[k]);
    }
  }

  lemma {:induction false} ListReads(rules: Rules, cfg: Config, out: seq<Entry>, so: map<string, Memory>)
    requires KeysAscend(out) && forall e :: e in out ==> e.key !in so && Accepted(rules, cfg, e.key, e.record)
    ensures var r := ReadPrior(rules, cfg, EntriesJson(out), so);
      && r.Ok? && (forall e :: e in out ==> e.key in r.value && r.value[e.key] == Memory(e.record, e.lastSeen))
      && (forall k :: k in so ==> k in r.value && r.value[k] == so[k])
      && (forall k :: k in r.value ==> k in so || exists e :: e in out && e.key == k)
    decreases |out|
  {
    hide Accepted, ReadOne, EntryJson;
    if out != [] {
      EntryReads(rules, cfg, out[0]);
      forall e | e in out[1..] ensures e.key != out[0].key {
        var j :| 0 < j < |out| && out[j] == e;
        J.LessIsTotal(out[0].key, out[j].key);
      }
      var next := so[out[0].key := Memory(out[0].record, out[0].lastSeen)];
      ListReads(rules, cfg, out[1..], next);
      assert EntriesJson(out)[1..] == EntriesJson(out[1..]);
      forall k | k in ReadPrior(rules, cfg, EntriesJson(out), so).value ensures k in so || exists e :: e in out && e.key == k {
        if k !in next { var e :| e in out[1..] && e.key == k; assert e in out; } else if k == out[0].key { assert out[0] in out; }
      }
    }
  }

  /** The written entries are always a valid prior state, and the next run remembers exactly what this one listed. */
  lemma OutputIsValidPrior(rules: Rules, cfg: Config, out: seq<Entry>, m: map<string, Entry>)
    requires Lists(out, m) && AllAccepted(rules, cfg, Remembered(m))
    ensures ReadPrior(rules, cfg, EntriesJson(out), map[]) == Ok(Remembered(m))
  {
    hide Accepted;
    forall e | e in out ensures Accepted(rules, cfg, e.key, e.record) { assert e.key in Remembered(m); }
    hide ReadPrior, EntriesJson, Remembered;
    ListReads(rules, cfg, out, map[]);
    ListedMemory(out, m, ReadPrior(rules, cfg, EntriesJson(out), map[]).value);
  }

  lemma ListedMemory(out: seq<Entry>, m: map<string, Entry>, r: map<string, Memory>)
    requires Lists(out, m)
    requires forall e :: e in out ==> e.key in r && r[e.key] == Memory(e.record, e.lastSeen)
    requires forall k :: k in r ==> exists e :: e in out && e.key == k
    ensures r == Remembered(m)
  {
    forall k ensures (k in r <==> k in m) && (k in m ==> r[k] == Memory(m[k].record, m[k].lastSeen)) {
      if k in m { assert m[k] in out; }
    }
  }

  /** Projecting the same snapshot again onto its own result changes nothing. */
  lemma ProjectingAgainChangesNothing(cfg: Config, now: map<string, Record>, prior: map<string, Memory>, observedOn: Json)
    requires AnnouncementsOnly(now)
    ensures Merged(cfg, now, Remembered(Merged(cfg, now, prior, observedOn)), observedOn) == Merged(cfg, now, prior, observedOn)
  {
    hide RecordFields, Merged;
    var m := Merged(cfg, now, prior, observedOn);
    var again := Merged(cfg, now, Remembered(m), observedOn);
    forall k ensures (k in again <==> k in m) && (k in m ==> again[k] == m[k]) {
      MergedAt(cfg, now, prior, observedOn, k);
      MergedAt(cfg, now, Remembered(m), observedOn, k);
    }
  }

  // ---------------------------------------------------------------------------------------
  // Run after run

  /** One run: the announcements of a validated snapshot, and the day it was observed on (or null). */
  datatype Observation = Observation(current: seq<Record>, on: Json)

  function Seen(cfg: Config, o: Observation): map<string, Record>
    requires AllOfKind(AnnouncementKind, o.current)
  {
    ByKey(cfg, o.current)
  }

  /** What is remembered after a run of observations, each projected onto the output of the one before. */
  function After(cfg: Config, history: seq<Observation>): map<string, Memory>
    requires forall i :: 0 <= i < |history| ==> AllOfKind(AnnouncementKind, history[i].current)
    decreases |history|
  {
    if history == [] then map[]
    else
      var last := history[|history| - 1];
      ByKeyKind(cfg, last.current);
      Remembered(Merged(cfg, Seen(cfg, last), After(cfg, history[..|history| - 1]), last.on))
  }

  /** No run is ever refused because of what an earlier one wrote. */
  lemma {:induction false} HistoryAccepted(rules: Rules, cfg: Config, history: seq<Observation>)
    requires forall i :: 0 <= i < |history| ==> AllOfKind(AnnouncementKind, history[i].current) && AllGood(rules, cfg, history[i].current)
    ensures AllAccepted(rules, cfg, After(cfg, history))
    decreases |history|
  {
    if history != [] {
      var last := history[|history| - 1];
      HistoryAccepted(rules, cfg, history[..|history| - 1]);
      MergedAccepted(rules, cfg, last.current, After(cfg, history[..|history| - 1]), last.on);
    }
  }

  /** What one run makes of a prior state, as Project ensures it. */
  ghost predicate Projected(rules: Rules, cfg: Config, o: Observation, prior: Json, r: Result<seq<Entry>, Code>)
    requires AllOfKind(AnnouncementKind, o.current)
  {
    if PriorEntries(prior).Err? then r == Err(PriorEntries(prior).error)
    else
      var known := ReadPrior(rules, cfg, PriorEntries(prior).value, map[]);
      if known.Err? then r == Err(known.error)
      else r.Ok? && AnnouncementsOnly(Seen(cfg, o)) && Lists(r.value, Merged(cfg, Seen(cfg, o), known.value, o.on))
  }

  /** The prior state of run `i`: nothing for the first, and otherwise what the run before it wrote. */
  function PriorOf(outs: seq<Result<seq<Entry>, Code>>, i: nat): Json
    requires i <= |outs|
  {
    if i == 0 then Null else match outs[i - 1] case Ok(out) => Arr(EntriesJson(out)) case Err(_) => Null
  }

  ghost predicate Sound(rules: Rules, cfg: Config, history: seq<Observation>) {
    forall i :: 0 <= i < |history| ==> AllOfKind(AnnouncementKind, history[i].current) && AllGood(rules, cfg, history[i].current)
  }

  /** Each run of the history projects onto what the run before it wrote. */
  ghost predicate Chained(rules: Rules, cfg: Config, history: seq<Observation>, outs: seq<Result<seq<Entry>, Code>>) {
    Sound(rules, cfg, history) && |outs| == |history|
    && forall i :: 0 <= i < |history| ==> Projected(rules, cfg, history[i], PriorOf(outs, i), outs[i])
  }

  lemma ChainedPrefix(rules: Rules, cfg: Config, history: seq<Observation>, outs: seq<Result<seq<Entry>, Code>>, n: nat)
    requires Chained(rules, cfg, history, outs) && n <= |history|
    ensures Chained(rules, cfg, history[..n], outs[..n]) && PriorOf(outs[..n], n) == PriorOf(outs, n)
  {
    hide Projected, AllOfKind, AllGood, EntriesJson;
    forall i | 0 <= i < n ensures Projected(rules, cfg, history[..n][i], PriorOf(outs[..n], i), outs[..n][i]) {
      assert PriorOf(outs[..n], i) == PriorOf(outs, i) && history[..n][i] == history[i];
    }
  }

  /** What is read back of a prior state. */
  ghost predicate ReadsBack(rules: Rules, cfg: Config, prior: Json, m: map<string, Memory>) {
    PriorEntries(prior).Ok? && ReadPrior(rules, cfg, PriorEntries(prior).value, map[]) == Ok(m)
  }

  /**
    A whole history, each run projecting onto what the run before it wrote: every run succeeds, and what the next run
    reads back is exactly the memory of all of them.
   */
  lemma {:induction false} HistoryReadsBack(rules: Rules, cfg: Config, history: seq<Observation>, outs: seq<Result<seq<Entry>, Code>>)
    requires Chained(rules, cfg, history, outs)
    ensures forall i :: 0 <= i < |outs| ==> outs[i].Ok?
    ensures forall i :: 0 <= i < |history| ==> AllOfKind(AnnouncementKind, history[i].current)
    ensures ReadsBack(rules, cfg, PriorOf(outs, |outs|), After(cfg, history))
    decreases |history|
  {
    hide Projected, Chained, ReadsBack, AllOfKind, AllGood;
    ChainedKinds(rules, cfg, history, outs);
    if history == [] {
      ReadsNothing(rules, cfg);
    } else {
      var n := |history| - 1;
      ChainedPrefix(rules, cfg, history, outs, n);
      HistoryReadsBack(rules, cfg, history[..n], outs[..n]);
      HistoryAccepted(rules, cfg, history);
      LastOutput(rules, cfg, history, outs);
      forall i | 0 <= i < |outs| ensures outs[i].Ok? { if i < n { assert outs[..n][i] == outs[i]; } }
    }
  }

  lemma ChainedKinds(rules: Rules, cfg: Config, history: seq<Observation>, outs: seq<Result<seq<Entry>, Code>>)
    requires Chained(rules, cfg, history, outs)
    ensures |outs| == |history| && Sound(rules, cfg, history)
  {
  }

  lemma ReadsNothing(rules: Rules, cfg: Config)
    ensures ReadsBack(rules, cfg, Null, map[])
  {
  }

  lemma LastOutput(rules: Rules, cfg: Config, history: seq<Observation>, outs: seq<Result<seq<Entry>, Code>>)
    requires history != [] && Chained(rules, cfg, history, outs)
    requires forall i :: 0 <= i < |history| ==> AllOfKind(AnnouncementKind, history[i].current)
    requires ReadsBack(rules, cfg, PriorOf(outs, |outs| - 1), After(cfg, history[..|history| - 1]))
    requires AllAccepted(rules, cfg, After(cfg, history))
    ensures outs[|outs| - 1].Ok? && ReadsBack(rules, cfg, PriorOf(outs, |outs|), After(cfg, history))
  {
    var n := |history| - 1;
    var last := history[n];
    assert Projected(rules, cfg, last, PriorOf(outs, n), outs[n]);
    hide Chained;
    ProjectedLists(rules, cfg, last, PriorOf(outs, n), After(cfg, history[..n]), outs[n]);
    AfterLast(cfg, history);
    hide Sound, Projected, Lists, Merged, Remembered, AllAccepted, AllOfKind, Seen, After, ReadsBack, EntriesJson;
    OutputReads(rules, cfg, Merged(cfg, Seen(cfg, last), After(cfg, history[..n]), last.on), outs[n].value);
  }

  lemma ProjectedLists(rules: Rules, cfg: Config, o: Observation, prior: Json, m: map<string, Memory>, r: Result<seq<Entry>, Code>)
    requires AllOfKind(AnnouncementKind, o.current) && Projected(rules, cfg, o, prior, r) && ReadsBack(rules, cfg, prior, m)
    ensures r.Ok? && AnnouncementsOnly(Seen(cfg, o)) && Lists(r.value, Merged(cfg, Seen(cfg, o), m, o.on))
  {
    hide Lists, Merged, AllOfKind, Seen, ReadPrior;
  }

  lemma AfterLast(cfg: Config, history: seq<Observation>)
    requires history != [] && forall i :: 0 <= i < |history| ==> AllOfKind(AnnouncementKind, history[i].current)
    ensures var last := history[|history| - 1];
      AnnouncementsOnly(Seen(cfg, last)) && After(cfg, history) == Remembered(Merged(cfg, Seen(cfg, last), After(cfg, history[..|history| - 1]), last.on))
  {
    ByKeyKind(cfg, history[|history| - 1].current);
    hide ByKey, Merged, Remembered;
  }

  lemma OutputReads(rules: Rules, cfg: Config, m: map<string, Entry>, out: seq<Entry>)
    requires Lists(out, m) && AllAccepted(rules, cfg, Remembered(m))
    ensures ReadsBack(rules, cfg, Arr(EntriesJson(out)), Remembered(m))
  {
    hide ReadPrior, Lists, Remembered, EntriesJson, AllAccepted;
    OutputIsValidPrior(rules, cfg, out, m);
  }

  lemma LastRun(cfg: Config, history: seq<Observation>, key: string)
    requires history != [] && forall j :: 0 <= j < |history| ==> AllOfKind(AnnouncementKind, history[j].current)
    ensures var last, before, m := history[|history| - 1], After(cfg, history[..|history| - 1]), After(cfg, history);
      && AnnouncementsOnly(Seen(cfg, last))
      && (key in m <==> key in Seen(cfg, last) || key in before)
      && (key in Seen(cfg, last) ==>
            m[key].record == Obj(RecordFields(cfg, Seen(cfg, last)[key])) && (last.on != Null ==> m[key].lastSeen == last.on))
      && (key !in Seen(cfg, last) && key in before ==> m[key] == before[key])
  {
    var n := |history| - 1;
    ByKeyKind(cfg, history[n].current);
    MergedAt(cfg, Seen(cfg, history[n]), After(cfg, history[..n]), history[n].on, key);
    hide ByKey, RecordFields, Merged;
  }

  /**
    Nothing is forgotten and nothing is stale: an announcement is remembered as the last snapshot that still listed it
    showed it, and as last seen on that day, however many runs have passed since it left the window.
   */
  lemma {:induction false} RemembersLatest(cfg: Config, history: seq<Observation>, i: nat, key: string)
    requires forall j :: 0 <= j < |history| ==> AllOfKind(AnnouncementKind, history[j].current)
    requires i < |history| && key in Seen(cfg, history[i])
    requires forall j :: i < j < |history| ==> key !in Seen(cfg, history[j])
    ensures Seen(cfg, history[i])[key].Announcement?
    ensures var m := After(cfg, history);
      && key in m && m[key].record == Obj(RecordFields(cfg, Seen(cfg, history[i])[key]))
      && (history[i].on != Null ==> m[key].lastSeen == history[i].on)
    decreases |history|
  {
    hide After, Seen, RecordFields, AllOfKind;
    LastRun(cfg, history, key);
    if i < |history| - 1 {
      var earlier := history[..|history| - 1];
      assert earlier[i] == history[i];
      RemembersLatest(cfg, earlier, i, key);
    }
  }

  /** And nothing is invented: what is remembered was listed by some snapshot. */
  lemma {:induction false} RemembersOnlySeen(cfg: Config, history: seq<Observation>, key: string)
    requires forall j :: 0 <= j < |history| ==> AllOfKind(AnnouncementKind, history[j].current)
    requires key in After(cfg, history)
    ensures exists i :: 0 <= i < |history| && key in Seen(cfg, history[i])
    decreases |history|
  {
    var n := |history| - 1;
    LastRun(cfg, history, key);
    hide Seen, RecordFields, AllOfKind, Merged;
    if key !in Seen(cfg, history[n]) {
      RemembersOnlySeen(cfg, history[..n], key);
      var i :| 0 <= i < n && key in Seen(cfg, history[..n][i]);
      assert history[..n][i] == history[i];
    }
  }
}
