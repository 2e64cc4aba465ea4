/**
  The error code of every refused snapshot document: which check is the first to fail, over the raw fields.
  Also the addresses and identities that the accepted records are written with.
 */
module SnapshotRefusals {
  import opened Wrappers
  import opened Snapshot
  import opened SnapshotOrder
  import opened SnapshotDocument
  import opened SnapshotAcceptance
  import J = CanonicalJson

  // ---------------------------------------------------------------------------------------
  // Fields that show nothing

  ghost predicate NoId(o: map<Key, Json>) { forall n: int :: n > 0 ==> !Has(o, Id, Int(n)) }

  ghost predicate NoLabel(rules: Rules, o: map<Key, Json>, k: Key) { forall s: string :: !HasLabel(rules, o, k, s) }

  ghost predicate NoText(rules: Rules, o: map<Key, Json>, k: Key) { forall s: Option<Option<string>> :: !ShowsText(rules, o, k, s) }

  ghost predicate NoNat(o: map<Key, Json>, k: Key) { forall n: Option<int> :: !ShowsNat(o, k, n) }

  ghost predicate NoFlag(o: map<Key, Json>, k: Key) { forall b: Option<bool> :: !ShowsFlag(o, k, b) }

  lemma IdFails(o: map<Key, Json>, code: Code)
    ensures PositiveInt(Get(o, Id), code) == Err(code) <==> NoId(o)
    ensures PositiveInt(Get(o, Id), code).Ok? <==> !NoId(o)
  {
    var v := Get(o, Id);
    if v.Int? && v.i > 0 { assert Has(o, Id, Int(v.i)); }
  }

  lemma LabelFails(rules: Rules, o: map<Key, Json>, k: Key, code: Code)
    ensures Label(rules, Get(o, k), code) == Err(code) <==> NoLabel(rules, o, k)
    ensures Label(rules, Get(o, k), code).Ok? <==> !NoLabel(rules, o, k)
  {
    var v := Label(rules, Get(o, k), code);
    if v.Ok? { assert HasLabel(rules, o, k, v.value); }
    forall s | HasLabel(rules, o, k, s) ensures v.Ok? { FieldShows(rules, o, k, code, s, 0); }
  }

  lemma TextFails(rules: Rules, o: map<Key, Json>, k: Key, code: Code)
    ensures LabelField(rules, o, k, code) == Err(code) <==> NoText(rules, o, k)
    ensures LabelField(rules, o, k, code).Ok? <==> !NoText(rules, o, k)
  {
    var v := LabelField(rules, o, k, code);
    if v.Ok? { TextShows(rules, o, k, code, v.value); }
    forall s | ShowsText(rules, o, k, s) ensures v.Ok? { TextShows(rules, o, k, code, s); }
  }

  lemma NumberFails(o: map<Key, Json>, k: Key, code: Code)
    ensures NatField(o, k, code) == Err(code) <==> NoNat(o, k)
    ensures NatField(o, k, code).Ok? <==> !NoNat(o, k)
    ensures BoolField(o, k, code) == Err(code) <==> NoFlag(o, k)
    ensures BoolField(o, k, code).Ok? <==> !NoFlag(o, k)
  {
    var n, b := NatField(o, k, code), BoolField(o, k, code);
    if n.Ok? { NumbersShow(o, k, code, n.value, None); }
    if b.Ok? { NumbersShow(o, k, code, None, b.value); }
    forall m | ShowsNat(o, k, m) ensures n.Ok? { NumbersShow(o, k, code, m, None); }
    forall c | ShowsFlag(o, k, c) ensures b.Ok? { NumbersShow(o, k, code, None, c); }
  }

  // ---------------------------------------------------------------------------------------
  // The first check that fails

  function CodeOf(r: Result<Record, Code>): Option<Code> { match r case Ok(_) => None case Err(code) => Some(code) }

  ghost predicate WrongCourse(rules: Rules, cfg: Config, o: map<Key, Json>) { !exists r :: ShowsCourse(rules, cfg, o, r) }

  lemma CourseRefused(rules: Rules, cfg: Config, j: Json)
    ensures var o := if j.Obj? then j.fields else map[];
      CodeOf(ValidateCourse(rules, cfg, j)) ==
        if !j.Obj? then Some("invalid_course_shape")
        else if NoId(o) then Some("invalid_course_id")
        else if NoLabel(rules, o, Name) then Some("invalid_course_name")
        else if NoLabel(rules, o, CourseCode) then Some("invalid_course_code")
        else if NoLabel(rules, o, Term) then Some("invalid_course_term")
        else if WrongCourse(rules, cfg, o) then Some("course_identity_mismatch")
        else None
  {
    if j.Obj? {
      var o, v := j.fields, ValidateCourse(rules, cfg, j);
      IdFails(o, "invalid_course_id");
      LabelFails(rules, o, Name, "invalid_course_name");
      LabelFails(rules, o, CourseCode, "invalid_course_code");
      LabelFails(rules, o, Term, "invalid_course_term");
      hide ShowsCourse, Label, PositiveInt, NoId, NoLabel, SameLabel;
      if v.Ok? { CourseShows(rules, cfg, j, v.value); }
      forall r | ShowsCourse(rules, cfg, o, r) ensures v.Ok? { CourseShows(rules, cfg, j, r); }
    }
  }

  lemma AssignmentRefused(rules: Rules, cfg: Config, j: Json)
    ensures var o := if j.Obj? then j.fields else map[];
      CodeOf(ValidateAssignment(rules, cfg, j)) ==
        if !j.Obj? then Some("invalid_assignment_shape")
        else if NoId(o) then Some("invalid_assignment_id")
        else if NoLabel(rules, o, Name) then Some("invalid_assignment_name")
        else if NoText(rules, o, DueAt) then Some("invalid_due_at")
        else if NoText(rules, o, LockAt) then Some("invalid_lock_at")
        else if NoText(rules, o, UnlockAt) then Some("invalid_unlock_at")
        else if NoNat(o, Position) || NoFlag(o, Published) || NoFlag(o, LockedForUser) then Some("invalid_assignment_shape")
        else None
  {
    if j.Obj? {
      var o := j.fields;
      IdFails(o, "invalid_assignment_id");
      LabelFails(rules, o, Name, "invalid_assignment_name");
      DueFails(rules, o);
      TextFails(rules, o, LockAt, "invalid_lock_at");
      TextFails(rules, o, UnlockAt, "invalid_unlock_at");
      NumberFails(o, Position, "invalid_assignment_shape");
      NumberFails(o, Published, "invalid_assignment_shape");
      NumberFails(o, LockedForUser, "invalid_assignment_shape");
      hide Label, PositiveInt, OptionalLabel, LabelField, NatField, BoolField, NoId, NoLabel, NoText, NoNat, NoFlag;
    }
  }

  /** A missing due date is like a null one. */
  lemma DueFails(rules: Rules, o: map<Key, Json>)
    ensures OptionalLabel(rules, Get(o, DueAt), "invalid_due_at") == Err("invalid_due_at") <==> NoText(rules, o, DueAt)
    ensures OptionalLabel(rules, Get(o, DueAt), "invalid_due_at").Ok? <==> !NoText(rules, o, DueAt)
  {
    TextFails(rules, o, DueAt, "invalid_due_at");
    hide NoText, Label;
  }

  lemma AnnouncementRefused(rules: Rules, cfg: Config, j: Json)
    ensures var o := if j.Obj? then j.fields else map[];
      CodeOf(ValidateAnnouncement(rules, cfg, j)) ==
        if !j.Obj? then Some("invalid_announcement_shape")
        else if NoId(o) then Some("invalid_announcement_id")
        else if NoLabel(rules, o, Title) then Some("invalid_announcement_title")
        else if NoLabel(rules, o, ContextCode) then Some("invalid_context_code")
        else if !HasLabel(rules, o, ContextCode, "course_" + J.IntText(cfg.courseId)) then Some("announcement_context_mismatch")
        else if NoText(rules, o, PostedAt) then Some("invalid_posted_at")
        else if NoText(rules, o, PublishedAt) then Some("invalid_published_at")
        else if NoText(rules, o, DelayedPostAt) then Some("invalid_delayed_post_at")
        else None
  {
    if j.Obj? {
      var o := j.fields;
      IdFails(o, "invalid_announcement_id");
      LabelFails(rules, o, Title, "invalid_announcement_title");
      LabelFails(rules, o, ContextCode, "invalid_context_code");
      FieldShows(rules, o, ContextCode, "invalid_context_code", ContextOf(cfg), 0);
      assert ContextOf(cfg) == "course_" + J.IntText(cfg.courseId);
      TextFails(rules, o, PostedAt, "invalid_posted_at");
      TextFails(rules, o, PublishedAt, "invalid_published_at");
      TextFails(rules, o, DelayedPostAt, "invalid_delayed_post_at");
      hide Label, PositiveInt, LabelField, NoId, NoLabel, NoText, HasLabel, ContextOf;
    }
  }

  ghost predicate NoContent(rules: Rules, o: map<Key, Json>) { forall c: Option<Json> :: !ShowsContent(rules, o, c) }

  lemma ContentFails(rules: Rules, o: map<Key, Json>)
    ensures ContentIdField(rules, o).Ok? <==> !NoContent(rules, o)
    ensures NoContent(rules, o) ==> ContentIdField(rules, o) == Err(if o[ContentId].Str? then "invalid_content_id" else "invalid_module_item_shape")
  {
    var v := ContentIdField(rules, o);
    if v.Ok? { ContentShows(rules, o, v.value); }
    forall c | ShowsContent(rules, o, c) ensures v.Ok? { ContentShows(rules, o, c); }
  }

  lemma ItemRefused(rules: Rules, cfg: Config, j: Json)
    ensures var o := if j.Obj? then j.fields else map[];
      CodeOf(ValidateItem(rules, cfg, j)) ==
        if !j.Obj? then Some("invalid_module_item_shape")
        else if NoId(o) then Some("invalid_module_item_id")
        else if NoLabel(rules, o, Title) then Some("invalid_module_item_title")
        else if NoText(rules, o, Type) then Some("invalid_module_item_type")
        else if NoNat(o, Position) || NoFlag(o, Published) then Some("invalid_module_item_shape")
        else if NoContent(rules, o) then Some(if Get(o, ContentId).Str? then "invalid_content_id" else "invalid_module_item_shape")
        else None
  {
    if j.Obj? {
      var o := j.fields;
      IdFails(o, "invalid_module_item_id");
      LabelFails(rules, o, Title, "invalid_module_item_title");
      TextFails(rules, o, Type, "invalid_module_item_type");
      NumberFails(o, Position, "invalid_module_item_shape");
      NumberFails(o, Published, "invalid_module_item_shape");
      ContentFails(rules, o);
      hide Label, PositiveInt, LabelField, NatField, BoolField, ContentIdField, NoId, NoLabel, NoText, NoNat, NoFlag, NoContent;
    }
  }

  /** A module: its head first, then the first item that cannot be read. */
  lemma ModuleRefused(rules: Rules, cfg: Config, j: Json)
    ensures var o := if j.Obj? then j.fields else map[];
      var week := Get(o, Position).Int? && cfg.positions.Some?;
      CodeOf(ValidateModule(rules, cfg, j)) ==
        if !j.Obj? || ItemsCount in o then Some("invalid_module_shape")
        else if !(Get(o, Position).Int? && Get(o, Position).i > 0) then Some("invalid_module_position")
        else if NoLabel(rules, o, Name) then Some("invalid_module_name")
        else if week && !(o[Position].i in cfg.positions.value && HasLabel(rules, o, Name, J.IntText(o[Position].i) + "주차")) then Some("invalid_module_name")
        else if NoId(o) then Some("invalid_module_id")
        else if !Get(o, Items).Arr? || !Has(o, ItemsComplete, Bool(true)) then Some("module_items_incomplete")
        else if !Has(o, ItemsAvailable, Bool(true)) || !Has(o, ItemsUnavailable, Bool(false)) then Some("module_items_incomplete")
        else if !Has(o, ItemsCountAvailable, Bool(true)) then Some("module_items_count_missing")
        else if !Has(o, ItemsReturnedCount, Int(|ItemsIn(j)|)) then Some("module_items_count_mismatch")
        else FirstCode(rules, cfg, ItemKind, ItemsIn(j))
  {
    if j.Obj? {
      var o := j.fields;
      LabelFails(rules, o, Name, "invalid_module_name");
      IdFails(o, "invalid_module_id");
      if Get(o, Position).Int? {
        FieldShows(rules, o, Name, "invalid_module_name", WeekName(o[Position].i), 0);
        assert WeekName(o[Position].i) == J.IntText(o[Position].i) + "주차";
      }
      FirstCodeExactly(rules, cfg, ItemKind, ItemsIn(j));
      hide Label, PositiveInt, NoId, NoLabel, HasLabel, WeekName, Collect, FirstCode, J.IntText, Sort;
    }
  }

  // ---------------------------------------------------------------------------------------
  // Lists and documents

  /** The code of the first element that is refused. */
  function FirstCode(rules: Rules, cfg: Config, kind: Kind, js: seq<Json>): Option<Code> {
    if js == [] then None
    else
      var code := CodeOf(ValidateOne(rules, cfg, kind, js[0]));
      if code.Some? then code else FirstCode(rules, cfg, kind, js[1..])
  }

  lemma {:induction false} FirstCodeExactly(rules: Rules, cfg: Config, kind: Kind, js: seq<Json>)
    ensures FirstCode(rules, cfg, kind, js) == match Collect(rules, cfg, kind, js) case Ok(_) => None case Err(code) => Some(code)
    decreases |js|
  {
    hide ValidateOne;
    if js != [] { FirstCodeExactly(rules, cfg, kind, js[1..]); }
  }

  /** The elements of a raw list. */
  function ListIn(o: map<Key, Json>, k: Key): seq<Json> { if k in o && o[k].Arr? then o[k].elements else [] }

  /** The code of the whole document: the first check that fails, in the order of the checks. */
  lemma DocumentRefused(rules: Rules, cfg: Config, raw: Json)
    ensures var o := if raw.Obj? then raw.fields else map[];
      CodeOf(Validate(rules, cfg, raw)) ==
        if !SoundConfig(rules, cfg) then Some("invalid_config")
        else if !raw.Obj? then Some("invalid_snapshot_shape")
        else if !NothingForbidden(rules, raw) then Some("forbidden_field")
        else if !Has(o, Status, Str("complete")) then Some("incomplete_snapshot")
        else if exists k :: k in o && k !in FIELDS then Some("invalid_snapshot_shape")
        else if CodeOf(ValidateCourse(rules, cfg, Get(o, CourseField))).Some? then CodeOf(ValidateCourse(rules, cfg, Get(o, CourseField)))
        else if !Get(o, Assignments).Arr? then Some("invalid_assignments_shape")
        else if !Get(o, Announcements).Arr? then Some("invalid_announcements_shape")
        else if !Get(o, Modules).Arr? then Some("invalid_module_set")
        else ListsCode(rules, cfg, o)
  {
    ConfigExactly(rules, cfg);
    ForbiddenIsRejected(rules, cfg, raw);
    ForbiddenExactly(rules, raw);
    hide ConfigOk, SoundConfig, Allowed, HasForbidden, NothingForbidden, ValidateCourse, FromLists, ListsCode;
    if raw.Obj? {
      assert raw.fields.Keys <= FIELDS <==> !exists k :: k in raw.fields && k !in FIELDS;
      if ConfigOk(rules, cfg) { ListsRefused(rules, cfg, raw.fields, Front(rules, cfg, raw)); }
    }
  }

  /** The code of the lists: the first element refused, then the first repetition. */
  ghost function ListsCode(rules: Rules, cfg: Config, o: map<Key, Json>): Option<Code> {
    var a, n, m := ListIn(o, Assignments), ListIn(o, Announcements), ListIn(o, Modules);
    if FirstCode(rules, cfg, AssignmentKind, a).Some? then FirstCode(rules, cfg, AssignmentKind, a)
    else if FirstCode(rules, cfg, AnnouncementKind, n).Some? then FirstCode(rules, cfg, AnnouncementKind, n)
    else if FirstCode(rules, cfg, ModuleKind, m).Some? then FirstCode(rules, cfg, ModuleKind, m)
    else if !Differ(a, Id) || !Differ(n, Id) then Some("duplicate_source_identity")
    else if !Differ(m, Position) then Some("duplicate_module_position")
    else if cfg.positions.Some? && (set i | 0 <= i < |m| :: RawInt(m[i], Position)) != cfg.positions.value then Some("invalid_module_set")
    else if !Differ(m, Id) || !Differ(AllItems(m), Id) then Some("duplicate_source_identity")
    else None
  }

  lemma ListsRefused(rules: Rules, cfg: Config, o: map<Key, Json>, course: Result<Record, Code>)
    requires ConfigOk(rules, cfg)
    ensures course.Ok? ==>
      CodeOf(FromLists(rules, cfg, course.value, ListIn(o, Assignments), ListIn(o, Announcements), ListIn(o, Modules))) == ListsCode(rules, cfg, o)
  {
    var a, n, m := ListIn(o, Assignments), ListIn(o, Announcements), ListIn(o, Modules);
    hide ConfigOk, ScopeOf, Collect, FirstCode, Differ, AllItems, ListErrors, Sort, ListIn, ShowsAll, Readable, AllHold, ItemsInOrder;
    FirstCodeExactly(rules, cfg, AssignmentKind, a);
    FirstCodeExactly(rules, cfg, AnnouncementKind, n);
    FirstCodeExactly(rules, cfg, ModuleKind, m);
    ListReads(rules, cfg, AssignmentKind, a);
    ListReads(rules, cfg, AnnouncementKind, n);
    ListReads(rules, cfg, ModuleKind, m);
    var ar, nr, mr := Collect(rules, cfg, AssignmentKind, a), Collect(rules, cfg, AnnouncementKind, n), Collect(rules, cfg, ModuleKind, m);
    if ar.Ok? && nr.Ok? && mr.Ok? {
      ModulesHold(rules, cfg, m);
      RepetitionCode(rules, cfg, a, n, m, ar.value, nr.value, mr.value);
    }
  }

  lemma RepetitionCode(rules: Rules, cfg: Config, a: seq<Json>, n: seq<Json>, m: seq<Json>, ar: seq<Record>, nr: seq<Record>, mr: seq<Record>)
    requires ShowsAll(rules, cfg, AssignmentKind, a, ar) && ShowsAll(rules, cfg, AnnouncementKind, n, nr)
    requires ShowsAll(rules, cfg, ModuleKind, m, mr) && AllHold(rules, cfg, m, mr)
    ensures ListErrors(cfg, ar, nr, mr) ==
      if !Differ(a, Id) || !Differ(n, Id) then Some("duplicate_source_identity")
      else if !Differ(m, Position) then Some("duplicate_module_position")
      else if cfg.positions.Some? && (set i | 0 <= i < |m| :: RawInt(m[i], Position)) != cfg.positions.value then Some("invalid_module_set")
      else if !Differ(m, Id) || !Differ(AllItems(m), Id) then Some("duplicate_source_identity")
      else None
  {
    hide Shows, AllHold, AllDifferent, Urls, Positions, ItemsOf, RawInt, AllItems, Elements, Differ;
    ShownDiffer(rules, cfg, AssignmentKind, a, ar);
    ShownDiffer(rules, cfg, AnnouncementKind, n, nr);
    ShownDiffer(rules, cfg, ModuleKind, m, mr);
    ShownPositions(rules, cfg, m, mr);
    ItemsDiffer(rules, cfg, m, mr);
    hide ShowsAll;
    var found := set i | 0 <= i < |m| :: RawInt(m[i], Position);
    forall p ensures p in Elements(Positions(mr)) <==> p in found {}
    assert Elements(Positions(mr)) == found;
  }

  // ---------------------------------------------------------------------------------------
  // Addresses and identities

  /** The part of a record's address after the course, and its kind in an identity. */
  lemma WrittenUnder(cfg: Config, r: Record)
    requires !r.Payload?
    ensures var here := cfg.origin + "/courses/" + J.IntText(cfg.courseId);
      var id := J.IntText(r.id);
      && (r.Course? ==> Url(cfg, r) == here)
      && (r.Assignment? ==> Url(cfg, r) == here + "/assignments/" + id)
      && (r.Announcement? ==> Url(cfg, r) == here + "/discussion_topics/" + id)
      && (r.Module? ==> Url(cfg, r) == here + "/modules/" + id)
      && (r.Item? ==> Url(cfg, r) == here + "/modules/items/" + id)
  {
    assert Number(r.id) == J.IntText(r.id) && Number(cfg.courseId) == J.IntText(cfg.courseId);
    hide Number, J.IntText;
  }

  /** The fields of a written record that say where it comes from. */
  lemma WrittenOrigin(cfg: Config, r: Record)
    requires !r.Payload?
    ensures var o := RecordFields(cfg, r);
      && Has(o, Id, Int(r.id)) && Has(o, LmsUrl, Str(Url(cfg, r)))
      && (if r.Item? then SourceKey !in o && SourceIdentity !in o
          else
            var kind := if r.Course? then "course" else if r.Assignment? then "assignment" else if r.Announcement? then "announcement" else "module";
            && Has(o, SourceKey, Str(Url(cfg, r)))
            && Has(o, SourceIdentity,
                   Obj(map[Origin := Str(cfg.origin), CourseId := Int(cfg.courseId), ResourceKind := Str(kind), ResourceId := Int(r.id)])))
  {
    hide RecordFields, Url;
    FieldAt(cfg, r, Id);
    FieldAt(cfg, r, LmsUrl);
    FieldAt(cfg, r, SourceKey);
    FieldAt(cfg, r, SourceIdentity);
  }

  // ---------------------------------------------------------------------------------------
  // Stored documents

  /** The code of a stored document that is refused: malformed, its payload refused, or not what its hash says. */
  lemma StoredRefused(rules: Rules, document: Json)
    requires FromDocument(rules, document).Err?
    ensures var code := FromDocument(rules, document).error;
      var o := if document.Obj? then document.fields else map[];
      var payload := if Get(o, SnapshotField).Obj? then o[SnapshotField].fields else map[];
      var shaped := Has(o, Status, Str("complete")) && Get(o, SnapshotField).Obj? && Get(o, SnapshotHash).Str? && Hex64(o[SnapshotHash].s);
      if !shaped || (forall cfg :: !States(payload, cfg)) then code == "invalid_canonical_snapshot"
      else
        forall cfg :: States(payload, cfg) ==>
          var v := Validate(rules, cfg, Obj(RawFrom(payload)));
          if v.Err? then code == v.error else code == "snapshot_hash_mismatch"
  {
    var o := if document.Obj? then document.fields else map[];
    var payload := if Get(o, SnapshotField).Obj? then o[SnapshotField].fields else map[];
    forall cfg ensures ScopeFrom(payload) == Ok(cfg) <==> States(payload, cfg) { ScopeExactly(payload, cfg); }
    ScopeCode(payload);
    hide Validate, States, ScopeFrom, RawFrom, Hex64;
    if ScopeFrom(payload).Ok? { assert States(payload, ScopeFrom(payload).value); }
  }

  lemma ScopeCode(payload: map<Key, Json>)
    ensures ScopeFrom(payload).Err? ==> ScopeFrom(payload).error == "invalid_canonical_snapshot"
  {
  }
}
