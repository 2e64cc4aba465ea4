/**
  A canonical snapshot written out as a document and read back (`_canonical_from_document` in
  scripts/knu_lms_sync.py): validating the canonical payload again yields the very same payload and hash.
 */
module SnapshotDocument {
  import opened LeastElement
  import opened Wrappers
  import opened Snapshot
  import opened SnapshotOrder

  // ---------------------------------------------------------------------------------------
  // The JSON of a canonical payload

  function LabelJson(s: Option<string>): Json { if s.None? then Null else Str(s.value) }

  function MaybeLabel(v: Option<Option<string>>): Option<Json> { if v.None? then None else Some(LabelJson(v.value)) }

  function MaybeInt(v: Option<int>): Option<Json> { if v.None? then None else Some(Int(v.value)) }

  function MaybeBool(v: Option<bool>): Option<Json> { if v.None? then None else Some(Bool(v.value)) }

  function IdentityJson(cfg: Config, r: Record): Json
    requires !r.Payload?
  {
    var kind := match r case Course(_, _, _, _) => "course" case Assignment(_, _, _, _, _, _, _, _) => "assignment"
                        case Announcement(_, _, _, _, _) => "announcement" case _ => "module";
    Obj(map[Origin := Str(cfg.origin), CourseId := Int(cfg.courseId), ResourceKind := Str(kind), ResourceId := Int(r.id)])
  }

  /** The value of one field of a written record, if it has that field. */
  function FieldOf(cfg: Config, r: Record, k: Key): Option<Json>
    requires !r.Payload?
    decreases r, 0
  {
    match k
    case Id => Some(Int(r.id))
    case LmsUrl => Some(Str(Url(cfg, r)))
    case SourceKey => if r.Item? then None else Some(Str(Url(cfg, r)))
    case SourceIdentity => if r.Item? then None else Some(IdentityJson(cfg, r))
    case Name => if r.Announcement? || r.Item? then None else Some(Str(r.name))
    case Title => if r.Announcement? || r.Item? then Some(Str(r.name)) else None
    case CourseCode => if r.Course? then Some(Str(r.code)) else None
    case Term => if r.Course? then Some(Str(r.term)) else None
    case ContextCode => if r.Announcement? then Some(Str(ContextOf(cfg))) else None
    case DueAt => if r.Assignment? then Some(LabelJson(r.dueAt)) else None
    case LockAt => if r.Assignment? then MaybeLabel(r.lockAt) else None
    case UnlockAt => if r.Assignment? then MaybeLabel(r.unlockAt) else None
    case LockedForUser => if r.Assignment? then MaybeBool(r.lockedForUser) else None
    case PostedAt => if r.Announcement? then MaybeLabel(r.postedAt) else None
    case PublishedAt => if r.Announcement? then MaybeLabel(r.publishedAt) else None
    case DelayedPostAt => if r.Announcement? then MaybeLabel(r.delayedPostAt) else None
    case Position => if r.Assignment? || r.Item? then MaybeInt(r.at) else if r.Module? then Some(Int(r.position)) else None
    case Published => if r.Assignment? || r.Item? then MaybeBool(r.published) else None
    case Type => if r.Item? then MaybeLabel(r.kind) else None
    case ContentId => if r.Item? then r.contentId else None
    case ItemsAvailable => if r.Module? then Some(Bool(true)) else None
    case ItemsUnavailable => if r.Module? then Some(Bool(false)) else None
    case ItemsCountAvailable => if r.Module? then Some(Bool(true)) else None
    case ItemsComplete => if r.Module? then Some(Bool(true)) else None
    case ItemsReturnedCount => if r.Module? then Some(Int(|r.items|)) else None
    case Items => if r.Module? then Some(Arr(RecordList(cfg, r.items))) else None
    case _ => None
  }

  const WRITTEN: set<Key> := {Id, LmsUrl, SourceKey, SourceIdentity, Name, Title, CourseCode, Term, ContextCode, DueAt, LockAt, UnlockAt,
                              LockedForUser, PostedAt, PublishedAt, DelayedPostAt, Position, Published, Type, ContentId, ItemsAvailable,
                              ItemsUnavailable, ItemsCountAvailable, ItemsComplete, ItemsReturnedCount, Items}

  function RecordFields(cfg: Config, r: Record): map<Key, Json>
    requires !r.Payload?
    decreases r, 1
  {
    map k | k in WRITTEN && FieldOf(cfg, r, k).Some? :: FieldOf(cfg, r, k).value
  }

  function RecordList(cfg: Config, rs: seq<Record>): (js: seq<Json>)
    ensures |js| == |rs|
    decreases rs, 2
  {
    if rs == [] then [] else [if rs[0].Payload? then Null else Obj(RecordFields(cfg, rs[0]))] + RecordList(cfg, rs[1..])
  }

  /** The written record has a field exactly as FieldOf says. */
  lemma FieldAt(cfg: Config, r: Record, k: Key)
    requires !r.Payload?
    ensures k in RecordFields(cfg, r) <==> FieldOf(cfg, r, k).Some?
    ensures k in RecordFields(cfg, r) ==> RecordFields(cfg, r)[k] == FieldOf(cfg, r, k).value
  {
    assert FieldOf(cfg, r, k).Some? ==> k in WRITTEN;
    hide FieldOf;
  }

  /** `sorted(module_positions)` */
  ghost function PositionList(s: set<int>): (js: seq<Json>)
    ensures forall p :: p in s <==> Int(p) in js
    ensures forall j :: j in js ==> j.Int?
    decreases |s|
  {
    if s == {} then [] else var m := Least(s); [Int(m)] + PositionList(s - {m})
  }

  ghost function ScopeFields(cfg: Config): map<Key, Json> {
    map[CourseId := Int(cfg.courseId), ExpectedName := Str(cfg.name), ExpectedCode := Str(cfg.code), ExpectedTerm := Str(cfg.term),
        WindowDays := Int(WINDOW_DAYS), Resources := Arr([Str("course"), Str("assignments"), Str("announcements"), Str("modules")])]
    + if cfg.positions.None? then map[] else map[ModulePositions := Arr(PositionList(cfg.positions.value))]
  }

  ghost function PayloadFields(p: Record): map<Key, Json>
    requires p.Payload? && !p.course.Payload?
  {
    map[Version := Int(1), Origin := Str(p.scope.origin), ScopeField := Obj(ScopeFields(p.scope)),
        CourseField := Obj(RecordFields(p.scope, p.course)), Assignments := Arr(RecordList(p.scope, p.assignments)),
        Announcements := Arr(RecordList(p.scope, p.announcements)), Modules := Arr(RecordList(p.scope, p.modules))]
  }

  /** `CanonicalSnapshot.as_dict` */
  ghost function Document(rules: Rules, p: Record): Json
    requires p.Payload? && !p.course.Payload?
  {
    Obj(map[Status := Str("complete"), SnapshotField := Obj(PayloadFields(p)), SnapshotHash := Str(rules.digest(p))])
  }

  // ---------------------------------------------------------------------------------------
  // Reading a document

  predicate Hex64(s: string) { |s| == 64 && forall i :: 0 <= i < |s| ==> '0' <= s[i] <= '9' || 'a' <= s[i] <= 'f' }

  function PositionsOf(v: Json): Result<Option<set<int>>, Code> {
    if v.Null? then Ok(None)
    else if !v.Arr? || exists j :: j in v.elements && !(j.Int? && j.i > 0) then Err("invalid_canonical_snapshot")
    else Ok(Some(set j | j in v.elements :: if j.Int? then j.i else 0))
  }

  function ScopeFrom(payload: map<Key, Json>): Result<Config, Code> {
    if !Get(payload, ScopeField).Obj? then Err("invalid_canonical_snapshot")
    else
      var scope := payload[ScopeField].fields;
      var positions :- PositionsOf(Get(scope, ModulePositions));
      if !Get(scope, CourseId).Int? || !Get(scope, ExpectedName).Str? || !Get(scope, ExpectedCode).Str? || !Get(scope, ExpectedTerm).Str?
         || !Get(payload, Origin).Str?
      then Err("invalid_canonical_snapshot")
      else Ok(Config(scope[CourseId].i, scope[ExpectedName].s, scope[ExpectedCode].s, scope[ExpectedTerm].s, payload[Origin].s, positions))
  }

  function RawFrom(payload: map<Key, Json>): map<Key, Json> {
    map[Status := Str("complete"), CourseField := Get(payload, CourseField), Assignments := Get(payload, Assignments),
        Announcements := Get(payload, Announcements), Modules := Get(payload, Modules)]
  }

  /** `_canonical_from_document` */
  function FromDocument(rules: Rules, document: Json): Result<Record, Code> {
    if !document.Obj? || Get(document.fields, Status) != Str("complete") then Err("invalid_canonical_snapshot")
    else if !Get(document.fields, SnapshotField).Obj? || !Get(document.fields, SnapshotHash).Str? || !Hex64(document.fields[SnapshotHash].s)
    then Err("invalid_canonical_snapshot")
    else
      var payload := document.fields[SnapshotField].fields;
      var cfg :- ScopeFrom(payload);
      var revalidated :- Validate(rules, cfg, Obj(RawFrom(payload)));
      if rules.digest(revalidated) != document.fields[SnapshotHash].s then Err("snapshot_hash_mismatch") else Ok(revalidated)
  }

  // ---------------------------------------------------------------------------------------
  // Canonical records

  /** Cleaning a label twice is cleaning it once, and the digest is a SHA-256 hex digest. */
  ghost predicate Lawful(rules: Rules) {
    (forall s, t :: rules.clean(s) == Some(t) ==> rules.clean(t) == Some(t)) && (forall p :: Hex64(rules.digest(p)))
  }

  predicate LabelOk(rules: Rules, s: Option<string>) { s.Some? ==> IsLabel(rules, s.value) }

  predicate TextOk(rules: Rules, s: Option<Option<string>>) { s.Some? ==> LabelOk(rules, s.value) }

  /** What validation guarantees of a record. */
  ghost predicate Good(rules: Rules, cfg: Config, r: Record)
    decreases r
  {
    !r.Payload? && r.id > 0 && IsLabel(rules, r.name) &&
    match r
    case Course(id, name, code, term) =>
      && IsLabel(rules, code) && IsLabel(rules, term) && id == cfg.courseId
      && SameLabel(rules, name, cfg.name) && SameLabel(rules, code, cfg.code) && SameLabel(rules, term, cfg.term)
    case Assignment(_, _, due, locks, unlocks, at, _, _) =>
      LabelOk(rules, due) && TextOk(rules, locks) && TextOk(rules, unlocks) && (at.Some? ==> at.value >= 0)
    case Announcement(_, _, posted, published, delayed) =>
      IsLabel(rules, ContextOf(cfg)) && TextOk(rules, posted) && TextOk(rules, published) && TextOk(rules, delayed)
    case Item(_, _, kind, at, _, content) =>
      TextOk(rules, kind) && (at.Some? ==> at.value >= 0) && (content.Some? ==> ContentOk(rules, content.value))
    case Module(_, name, position, items) =>
      && position > 0 && (cfg.positions.Some? ==> position in cfg.positions.value && name == WeekName(position))
      && Sorted(cfg, items) && AllOfKind(ItemKind, items) && forall i :: 0 <= i < |items| ==> Good(rules, cfg, items[i])
  }

  predicate ContentOk(rules: Rules, content: Json) { (content.Int? && content.i > 0) || (content.Str? && IsLabel(rules, content.s)) }

  ghost predicate AllGood(rules: Rules, cfg: Config, rs: seq<Record>) { forall i :: 0 <= i < |rs| ==> Good(rules, cfg, rs[i]) }

  lemma LabelIsLabel(rules: Rules, v: Json, code: Code)
    requires Lawful(rules)
    ensures Label(rules, v, code).Ok? ==> IsLabel(rules, Label(rules, v, code).value)
  {
  }

  lemma LabelFieldOk(rules: Rules, o: map<Key, Json>, k: Key, code: Code)
    requires Lawful(rules)
    ensures LabelField(rules, o, k, code).Ok? ==> TextOk(rules, LabelField(rules, o, k, code).value)
  {
    if k in o { LabelIsLabel(rules, o[k], code); }
  }

  /** Validation only lets good records through. */
  lemma FlatIsGood(rules: Rules, cfg: Config, kind: Kind, j: Json)
    requires Lawful(rules) && kind != ModuleKind
    ensures ValidateOne(rules, cfg, kind, j).Ok? ==> Good(rules, cfg, ValidateOne(rules, cfg, kind, j).value)
  {
    if j.Obj? {
      var o := j.fields;
      match kind
      case CourseKind =>
        LabelIsLabel(rules, Get(o, Name), "invalid_course_name");
        LabelIsLabel(rules, Get(o, CourseCode), "invalid_course_code");
        LabelIsLabel(rules, Get(o, Term), "invalid_course_term");
      case AssignmentKind =>
        LabelIsLabel(rules, Get(o, Name), "invalid_assignment_name");
        LabelIsLabel(rules, Get(o, DueAt), "invalid_due_at");
        LabelFieldOk(rules, o, LockAt, "invalid_lock_at");
        LabelFieldOk(rules, o, UnlockAt, "invalid_unlock_at");
      case AnnouncementKind =>
        LabelIsLabel(rules, Get(o, Title), "invalid_announcement_title");
        LabelIsLabel(rules, Get(o, ContextCode), "invalid_context_code");
        LabelFieldOk(rules, o, PostedAt, "invalid_posted_at");
        LabelFieldOk(rules, o, PublishedAt, "invalid_published_at");
        LabelFieldOk(rules, o, DelayedPostAt, "invalid_delayed_post_at");
      case ItemKind =>
        LabelIsLabel(rules, Get(o, Title), "invalid_module_item_title");
        LabelFieldOk(rules, o, Type, "invalid_module_item_type");
        LabelIsLabel(rules, Get(o, ContentId), "invalid_content_id");
    }
    hide Label, LabelField, IsLabel, Lawful;
  }

  lemma {:induction false} ItemsAreGood(rules: Rules, cfg: Config, kind: Kind, js: seq<Json>)
    requires Lawful(rules) && kind != ModuleKind
    ensures Collect(rules, cfg, kind, js).Ok? ==> AllGood(rules, cfg, Collect(rules, cfg, kind, js).value)
    decreases |js|
  {
    hide Lawful, Good, ValidateOne;
    if js != [] {
      FlatIsGood(rules, cfg, kind, js[0]);
      ItemsAreGood(rules, cfg, kind, js[1..]);
    }
  }

  lemma HeadIsGood(rules: Rules, cfg: Config, o: map<Key, Json>)
    requires Lawful(rules)
    ensures ModuleHead(rules, cfg, o).Ok? ==>
      var r := ModuleHead(rules, cfg, o).value;
      r.id > 0 && IsLabel(rules, r.name) && r.position > 0
      && (cfg.positions.Some? ==> r.position in cfg.positions.value && r.name == WeekName(r.position))
  {
    LabelIsLabel(rules, Get(o, Name), "invalid_module_name");
    hide Label, Lawful, WeekName, IsLabel;
  }

  lemma ModuleIsGood(rules: Rules, cfg: Config, j: Json)
    requires Lawful(rules)
    ensures ValidateModule(rules, cfg, j).Ok? ==> Good(rules, cfg, ValidateModule(rules, cfg, j).value)
  {
    if ValidateModule(rules, cfg, j).Ok? {
      hide Lawful, Collect, ModuleHead, IsLabel, Sort, Sorted, AllOfKind, AllGood, WeekName;
      var o := j.fields;
      HeadIsGood(rules, cfg, o);
      ItemsAreGood(rules, cfg, ItemKind, o[Items].elements);
      CollectKind(rules, cfg, ItemKind, o[Items].elements);
      var items := Collect(rules, cfg, ItemKind, o[Items].elements).value;
      SortSorts(cfg, items);
      SortKeeps(cfg, ItemKind, items);
      SortIsGood(rules, cfg, items);
      WithItems(rules, cfg, ModuleHead(rules, cfg, o).value, Sort(cfg, items));
    }
  }

  lemma WithItems(rules: Rules, cfg: Config, head: Record, items: seq<Record>)
    requires head.Module? && head.id > 0 && IsLabel(rules, head.name) && head.position > 0
    requires cfg.positions.Some? ==> head.position in cfg.positions.value && head.name == WeekName(head.position)
    requires Sorted(cfg, items) && AllOfKind(ItemKind, items) && AllGood(rules, cfg, items)
    ensures Good(rules, cfg, head.(items := items))
  {
    hide Sorted, AllOfKind, IsLabel, WeekName;
  }

  lemma SortIsGood(rules: Rules, cfg: Config, rs: seq<Record>)
    requires AllGood(rules, cfg, rs)
    ensures AllGood(rules, cfg, Sort(cfg, rs))
  {
    hide Good;
    SortSorts(cfg, rs);
    var s := Sort(cfg, rs);
    forall i | 0 <= i < |s| ensures Good(rules, cfg, s[i]) {
      assert s[i] in multiset(s);
      assert s[i] in multiset(rs);
    }
  }

  lemma {:induction false} CollectedAreGood(rules: Rules, cfg: Config, kind: Kind, js: seq<Json>)
    requires Lawful(rules)
    ensures Collect(rules, cfg, kind, js).Ok? ==> AllGood(rules, cfg, Collect(rules, cfg, kind, js).value)
    decreases |js|
  {
    if kind != ModuleKind {
      ItemsAreGood(rules, cfg, kind, js);
    } else if js != [] {
      hide Lawful, Good, ValidateModule;
      ModuleIsGood(rules, cfg, js[0]);
      CollectedAreGood(rules, cfg, kind, js[1..]);
    }
  }

  // ---------------------------------------------------------------------------------------
  // A good record validates to itself

  lemma {:induction false} SortOfSorted(cfg: Config, s: seq<Record>)
    requires Sorted(cfg, s)
    ensures Sort(cfg, s) == s
  {
    hide RankOf, RankLe;
    if s != [] {
      SortOfSorted(cfg, s[1..]);
      assert |s| > 1 ==> RankLe(RankOf(cfg, s[0]), RankOf(cfg, s[1]));
    }
  }

  lemma FlatValidates(rules: Rules, cfg: Config, kind: Kind, r: Record)
    requires kind != ModuleKind && OfKind(kind, r) && Good(rules, cfg, r)
    ensures ValidateOne(rules, cfg, kind, Obj(RecordFields(cfg, r))) == Ok(r)
  {
    match kind
    case CourseKind => CourseValidates(rules, cfg, r);
    case AssignmentKind => AssignmentValidates(rules, cfg, r);
    case AnnouncementKind => AnnouncementValidates(rules, cfg, r);
    case ItemKind => ItemValidates(rules, cfg, r);
  }

  lemma CourseValidates(rules: Rules, cfg: Config, r: Record)
    requires r.Course? && Good(rules, cfg, r)
    ensures ValidateCourse(rules, cfg, Obj(RecordFields(cfg, r))) == Ok(r)
  {
    hide RecordFields, SameLabel;
    FieldAt(cfg, r, Id);
    FieldAt(cfg, r, Name);
    FieldAt(cfg, r, CourseCode);
    FieldAt(cfg, r, Term);
  }

  lemma TextReads(rules: Rules, cfg: Config, r: Record, k: Key, s: Option<Option<string>>, code: Code)
    requires !r.Payload? && TextOk(rules, s) && FieldOf(cfg, r, k) == MaybeLabel(s)
    ensures LabelField(rules, RecordFields(cfg, r), k, code) == Ok(s)
  {
    hide RecordFields, FieldOf, Url, IsLabel;
    FieldAt(cfg, r, k);
  }

  lemma PositionReads(cfg: Config, r: Record, code: Code)
    requires (r.Assignment? || r.Item?) && (r.at.Some? ==> r.at.value >= 0)
    ensures NatField(RecordFields(cfg, r), Position, code) == Ok(r.at)
  {
    hide RecordFields;
    FieldAt(cfg, r, Position);
  }

  lemma FlagReads(cfg: Config, r: Record, code: Code)
    requires r.Assignment? || r.Item?
    ensures BoolField(RecordFields(cfg, r), Published, code) == Ok(r.published)
    ensures r.Assignment? ==> BoolField(RecordFields(cfg, r), LockedForUser, code) == Ok(r.lockedForUser)
  {
    hide RecordFields;
    FieldAt(cfg, r, Published);
    FieldAt(cfg, r, LockedForUser);
  }

  lemma AssignmentGets(cfg: Config, r: Record)
    requires r.Assignment?
    ensures var o := RecordFields(cfg, r); Get(o, Id) == Int(r.id) && Get(o, Name) == Str(r.name) && Get(o, DueAt) == LabelJson(r.dueAt)
  {
    hide RecordFields;
    FieldAt(cfg, r, Id);
    FieldAt(cfg, r, Name);
    FieldAt(cfg, r, DueAt);
  }

  lemma AssignmentValidates(rules: Rules, cfg: Config, r: Record)
    requires r.Assignment? && Good(rules, cfg, r)
    ensures ValidateAssignment(rules, cfg, Obj(RecordFields(cfg, r))) == Ok(r)
  {
    assert IsLabel(rules, r.name) && LabelOk(rules, r.dueAt);
    TextReads(rules, cfg, r, LockAt, r.lockAt, "invalid_lock_at");
    TextReads(rules, cfg, r, UnlockAt, r.unlockAt, "invalid_unlock_at");
    PositionReads(cfg, r, "invalid_assignment_shape");
    FlagReads(cfg, r, "invalid_assignment_shape");
    AssignmentGets(cfg, r);
    hide RecordFields, FieldOf, LabelField, NatField, BoolField, RecordList, TextOk;
    var o := RecordFields(cfg, r);
    assert Label(rules, Get(o, Name), "invalid_assignment_name") == Ok(r.name);
    assert OptionalLabel(rules, Get(o, DueAt), "invalid_due_at") == Ok(r.dueAt);
    hide Label, OptionalLabel, IsLabel;
  }

  lemma AnnouncementValidates(rules: Rules, cfg: Config, r: Record)
    requires r.Announcement? && Good(rules, cfg, r)
    ensures ValidateAnnouncement(rules, cfg, Obj(RecordFields(cfg, r))) == Ok(r)
  {
    TextReads(rules, cfg, r, PostedAt, r.postedAt, "invalid_posted_at");
    TextReads(rules, cfg, r, PublishedAt, r.publishedAt, "invalid_published_at");
    TextReads(rules, cfg, r, DelayedPostAt, r.delayedPostAt, "invalid_delayed_post_at");
    FieldAt(cfg, r, Id);
    FieldAt(cfg, r, Title);
    FieldAt(cfg, r, ContextCode);
    hide RecordFields, LabelField, ContextOf;
  }

  lemma ItemValidates(rules: Rules, cfg: Config, r: Record)
    requires r.Item? && Good(rules, cfg, r)
    ensures ValidateItem(rules, cfg, Obj(RecordFields(cfg, r))) == Ok(r)
  {
    TextReads(rules, cfg, r, Type, r.kind, "invalid_module_item_type");
    PositionReads(cfg, r, "invalid_module_item_shape");
    FlagReads(cfg, r, "invalid_module_item_shape");
    FieldAt(cfg, r, Id);
    FieldAt(cfg, r, Title);
    FieldAt(cfg, r, ContentId);
    hide RecordFields, LabelField, NatField, BoolField;
  }

  lemma RecordListTail(cfg: Config, rs: seq<Record>)
    requires rs != [] && !rs[0].Payload?
    ensures RecordList(cfg, rs)[0] == Obj(RecordFields(cfg, rs[0])) && RecordList(cfg, rs)[1..] == RecordList(cfg, rs[1..])
  {
    hide RecordFields;
  }

  lemma {:induction false} FlatListValidates(rules: Rules, cfg: Config, kind: Kind, rs: seq<Record>)
    requires kind != ModuleKind && AllOfKind(kind, rs) && AllGood(rules, cfg, rs)
    ensures Collect(rules, cfg, kind, RecordList(cfg, rs)) == Ok(rs)
    decreases |rs|
  {
    hide Good, OfKind, ValidateOne, RecordFields, RecordList;
    if rs != [] {
      assert OfKind(kind, rs[0]) && Good(rules, cfg, rs[0]);
      GoodIsNoPayload(rules, cfg, rs[0]);
      RecordListTail(cfg, rs);
      FlatValidates(rules, cfg, kind, rs[0]);
      FlatListValidates(rules, cfg, kind, rs[1..]);
      assert [rs[0]] + rs[1..] == rs;
    } else {
      EmptyList(cfg);
    }
  }

  lemma EmptyList(cfg: Config)
    ensures RecordList(cfg, []) == []
  {
  }

  lemma GoodIsNoPayload(rules: Rules, cfg: Config, r: Record)
    requires Good(rules, cfg, r)
    ensures !r.Payload?
  {
  }

  lemma ModuleNumbers(cfg: Config, r: Record)
    requires r.Module?
    ensures var o := RecordFields(cfg, r);
      ItemsCount !in o && Get(o, Position) == Int(r.position) && Get(o, Name) == Str(r.name) && Get(o, Id) == Int(r.id)
  {
    hide RecordFields, RecordList;
    FieldAt(cfg, r, ItemsCount);
    FieldAt(cfg, r, Position);
    FieldAt(cfg, r, Name);
    FieldAt(cfg, r, Id);
  }

  lemma ModuleItemFields(cfg: Config, r: Record)
    requires r.Module?
    ensures var o := RecordFields(cfg, r);
      Get(o, Items) == Arr(RecordList(cfg, r.items)) && Get(o, ItemsReturnedCount) == Int(|r.items|)
  {
    hide RecordFields, RecordList;
    FieldAt(cfg, r, Items);
    FieldAt(cfg, r, ItemsReturnedCount);
  }

  lemma ModuleFlags(cfg: Config, r: Record)
    requires r.Module?
    ensures var o := RecordFields(cfg, r); Get(o, ItemsComplete) == Bool(true) && Get(o, ItemsAvailable) == Bool(true)
  {
    hide RecordFields, RecordList;
    FieldAt(cfg, r, ItemsComplete);
    FieldAt(cfg, r, ItemsAvailable);
  }

  lemma ModuleCounts(cfg: Config, r: Record)
    requires r.Module?
    ensures var o := RecordFields(cfg, r); Get(o, ItemsUnavailable) == Bool(false) && Get(o, ItemsCountAvailable) == Bool(true)
  {
    hide RecordFields, RecordList;
    FieldAt(cfg, r, ItemsUnavailable);
    FieldAt(cfg, r, ItemsCountAvailable);
  }

  lemma HeadValidates(rules: Rules, cfg: Config, r: Record)
    requires r.Module? && Good(rules, cfg, r)
    ensures ModuleHead(rules, cfg, RecordFields(cfg, r)) == Ok(r.(items := []))
    ensures Get(RecordFields(cfg, r), Items) == Arr(RecordList(cfg, r.items))
  {
    hide RecordFields, RecordList, FieldOf, Sorted, AllOfKind, WeekName;
    ModuleNumbers(cfg, r);
    ModuleItemFields(cfg, r);
    ModuleFlags(cfg, r);
    ModuleCounts(cfg, r);
  }

  lemma ModuleItems(rules: Rules, cfg: Config, r: Record)
    requires r.Module? && Good(rules, cfg, r)
    ensures Sorted(cfg, r.items) && AllOfKind(ItemKind, r.items) && AllGood(rules, cfg, r.items)
  {
  }

  lemma ModuleValidates(rules: Rules, cfg: Config, r: Record)
    requires r.Module? && Good(rules, cfg, r)
    ensures ValidateModule(rules, cfg, Obj(RecordFields(cfg, r))) == Ok(r)
  {
    hide Good, Collect, Sort, Sorted, AllOfKind, AllGood, RecordFields, ModuleHead, RecordList;
    ModuleItems(rules, cfg, r);
    FlatListValidates(rules, cfg, ItemKind, r.items);
    SortOfSorted(cfg, r.items);
    HeadValidates(rules, cfg, r);
  }

  lemma {:induction false} ListValidates(rules: Rules, cfg: Config, kind: Kind, rs: seq<Record>)
    requires AllOfKind(kind, rs) && AllGood(rules, cfg, rs)
    ensures Collect(rules, cfg, kind, RecordList(cfg, rs)) == Ok(rs)
    decreases |rs|
  {
    hide Good, ValidateModule, RecordFields, RecordList;
    if kind != ModuleKind {
      FlatListValidates(rules, cfg, kind, rs);
    } else if rs != [] {
      assert OfKind(kind, rs[0]) && Good(rules, cfg, rs[0]);
      RecordListTail(cfg, rs);
      ModuleValidates(rules, cfg, rs[0]);
      ListValidates(rules, cfg, kind, rs[1..]);
      assert [rs[0]] + rs[1..] == rs;
    } else {
      EmptyList(cfg);
    }
  }

  // ---------------------------------------------------------------------------------------
  // Nothing that is written is forbidden

  /** A content id is a number or a text. */
  predicate PlainContent(r: Record) { r.Item? && r.contentId.Some? ==> r.contentId.value.Int? || r.contentId.value.Str? }

  lemma GoodContent(rules: Rules, cfg: Config, r: Record)
    requires Good(rules, cfg, r)
    ensures PlainContent(r)
  {
    hide IsLabel, SameLabel, Sorted, AllOfKind, ContextOf;
  }

  lemma IdentityAllowed(rules: Rules, cfg: Config, r: Record)
    requires !r.Payload?
    ensures Allowed(rules, IdentityJson(cfg, r))
  {
    hide ForbiddenName;
  }

  predicate Leaf(j: Json) { !j.Obj? && !j.Arr? }

  lemma FieldIsLeaf(cfg: Config, r: Record, k: Key)
    requires !r.Payload? && PlainContent(r) && k != Items && k != SourceIdentity
    ensures FieldOf(cfg, r, k).Some? ==> !k.Other? && Leaf(FieldOf(cfg, r, k).value)
  {
    hide Url, ContextOf, RecordList, IdentityJson;
  }

  lemma LeafAllowed(rules: Rules, j: Json)
    requires Leaf(j)
    ensures Allowed(rules, j)
  {
  }

  lemma FieldAllowed(rules: Rules, cfg: Config, r: Record, k: Key)
    requires !r.Payload? && PlainContent(r) && (r.Module? ==> Allowed(rules, Arr(RecordList(cfg, r.items))))
    ensures FieldOf(cfg, r, k).Some? ==> NameAllowed(rules, k) && Allowed(rules, FieldOf(cfg, r, k).value)
  {
    if k == Items || k == SourceIdentity {
      IdentityAllowed(rules, cfg, r);
      hide Url, ContextOf, RecordList, IdentityJson, Allowed;
    } else {
      hide FieldOf, Allowed, Leaf, PlainContent;
      FieldIsLeaf(cfg, r, k);
      if FieldOf(cfg, r, k).Some? { LeafAllowed(rules, FieldOf(cfg, r, k).value); }
    }
  }

  lemma {:induction false} RecordAllowed(rules: Rules, cfg: Config, r: Record)
    requires Good(rules, cfg, r)
    ensures !r.Payload? && Allowed(rules, Obj(RecordFields(cfg, r)))
    decreases r, 0
  {
    if r.Module? {
      ModuleItems(rules, cfg, r);
      ListAllowed(rules, cfg, r.items);
    }
    GoodIsNoPayload(rules, cfg, r);
    GoodContent(rules, cfg, r);
    var o := RecordFields(cfg, r);
    hide Good, PlainContent, RecordList, RecordFields, FieldOf, NameAllowed;
    forall k | k in o ensures NameAllowed(rules, k) && Allowed(rules, o[k]) {
      FieldAt(cfg, r, k);
      FieldAllowed(rules, cfg, r, k);
    }
  }

  lemma {:induction false} ListAllowed(rules: Rules, cfg: Config, rs: seq<Record>)
    requires AllGood(rules, cfg, rs)
    ensures Allowed(rules, Arr(RecordList(cfg, rs)))
    decreases rs, 1
  {
    hide Good, RecordFields, RecordList;
    var js := RecordList(cfg, rs);
    if rs != [] {
      RecordAllowed(rules, cfg, rs[0]);
      ListAllowed(rules, cfg, rs[1..]);
      RecordListTail(cfg, rs);
      forall i | 0 <= i < |js| ensures Allowed(rules, js[i]) {
        if i > 0 { assert js[i] == js[1..][i - 1]; }
      }
    }
  }

  // ---------------------------------------------------------------------------------------
  // Only the cleaned labels of the configuration matter

  lemma SameAddress(cfg: Config, cfg': Config, r: Record)
    requires cfg.origin == cfg'.origin && cfg.courseId == cfg'.courseId
    ensures RankOf(cfg, r) == RankOf(cfg', r) && (!r.Payload? ==> Url(cfg, r) == Url(cfg', r))
  {
  }

  lemma {:induction false} InsertRescoped(cfg: Config, cfg': Config, r: Record, s: seq<Record>)
    requires cfg.origin == cfg'.origin && cfg.courseId == cfg'.courseId
    ensures Insert(cfg, r, s) == Insert(cfg', r, s)
  {
    hide RankOf, RankLe;
    if s != [] {
      SameAddress(cfg, cfg', r);
      SameAddress(cfg, cfg', s[0]);
      InsertRescoped(cfg, cfg', r, s[1..]);
    }
  }

  lemma {:induction false} SortRescoped(cfg: Config, cfg': Config, s: seq<Record>)
    requires cfg.origin == cfg'.origin && cfg.courseId == cfg'.courseId
    ensures Sort(cfg, s) == Sort(cfg', s)
  {
    if s != [] {
      SortRescoped(cfg, cfg', s[1..]);
      InsertRescoped(cfg, cfg', s[0], Sort(cfg, s[1..]));
    }
  }

  lemma {:induction false} UrlsRescoped(cfg: Config, cfg': Config, s: seq<Record>)
    requires cfg.origin == cfg'.origin && cfg.courseId == cfg'.courseId
    ensures Urls(cfg, s) == Urls(cfg', s)
  {
    hide Url;
    if s != [] {
      SameAddress(cfg, cfg', s[0]);
      UrlsRescoped(cfg, cfg', s[1..]);
    }
  }

  ghost predicate Rescoped(cfg: Config, cfg': Config) {
    cfg.origin == cfg'.origin && cfg.courseId == cfg'.courseId && cfg.positions == cfg'.positions
  }

  lemma {:induction false} CollectRescoped(rules: Rules, cfg: Config, cfg': Config, kind: Kind, js: seq<Json>)
    requires Rescoped(cfg, cfg') && kind != CourseKind
    ensures Collect(rules, cfg, kind, js) == Collect(rules, cfg', kind, js)
    decreases if kind == ModuleKind then 1 else 0, |js|
  {
    if js != [] {
      CollectRescoped(rules, cfg, cfg', kind, js[1..]);
      if kind == ModuleKind {
        ModuleRescoped(rules, cfg, cfg', js[0]);
      } else {
        assert ValidateOne(rules, cfg, kind, js[0]) == ValidateOne(rules, cfg', kind, js[0]);
      }
      hide ValidateOne;
    }
  }

  lemma {:induction false} ModuleRescoped(rules: Rules, cfg: Config, cfg': Config, j: Json)
    requires Rescoped(cfg, cfg')
    ensures ValidateModule(rules, cfg, j) == ValidateModule(rules, cfg', j)
    decreases 1, 0
  {
    if j.Obj? && ModuleHead(rules, cfg, j.fields).Ok? {
      CollectRescoped(rules, cfg, cfg', ItemKind, j.fields[Items].elements);
      hide Collect, Sort;
      var items := Collect(rules, cfg, ItemKind, j.fields[Items].elements);
      if items.Ok? { SortRescoped(cfg, cfg', items.value); }
    }
  }

  /** ScopeOf is idempotent and validation does not notice it. */
  lemma ScopeSame(rules: Rules, cfg: Config)
    requires Lawful(rules) && ConfigOk(rules, cfg)
    ensures var s := ScopeOf(rules, cfg);
      && ConfigOk(rules, s) && ScopeOf(rules, s) == s && Rescoped(cfg, s)
      && (forall l :: SameLabel(rules, l, cfg.name) == SameLabel(rules, l, s.name)
                   && SameLabel(rules, l, cfg.code) == SameLabel(rules, l, s.code) && SameLabel(rules, l, cfg.term) == SameLabel(rules, l, s.term))
  {
    LabelIsLabel(rules, Str(cfg.name), "");
    LabelIsLabel(rules, Str(cfg.code), "");
    LabelIsLabel(rules, Str(cfg.term), "");
    CleanedLabel(rules, cfg.name);
    CleanedLabel(rules, cfg.code);
    CleanedLabel(rules, cfg.term);
    hide Label, SameLabel, Lawful;
  }

  lemma CleanedLabel(rules: Rules, expected: string)
    requires Lawful(rules) && Label(rules, Str(expected), "").Ok?
    ensures var s := Label(rules, Str(expected), "").value;
      Label(rules, Str(s), "") == Ok(s) && forall l :: SameLabel(rules, l, expected) == SameLabel(rules, l, s)
  {
  }

  lemma AssembleRescoped(rules: Rules, cfg: Config, course: Record, a: seq<Record>, n: seq<Record>, m: seq<Record>)
    requires Lawful(rules) && ConfigOk(rules, cfg)
    ensures ConfigOk(rules, ScopeOf(rules, cfg))
    ensures Assemble(rules, cfg, course, a, n, m) == Assemble(rules, ScopeOf(rules, cfg), course, a, n, m)
  {
    var s := ScopeOf(rules, cfg);
    ScopeSame(rules, cfg);
    hide ConfigOk, ScopeOf, SameLabel, Sort, Urls, Lawful, AllDifferent, Elements, ItemsOf, Positions;
    UrlsRescoped(cfg, s, a);
    UrlsRescoped(cfg, s, n);
    UrlsRescoped(cfg, s, m);
    UrlsRescoped(cfg, s, ItemsOf(m));
    SortRescoped(cfg, s, a);
    SortRescoped(cfg, s, n);
    SortRescoped(cfg, s, m);
  }

  // ---------------------------------------------------------------------------------------
  // The theorem

  /** Everything an accepted payload satisfies, under its own scope. */
  ghost predicate Canonical(rules: Rules, p: Record) {
    && p.Payload? && ConfigOk(rules, p.scope) && ScopeOf(rules, p.scope) == p.scope
    && p.course.Course? && Good(rules, p.scope, p.course)
    && AllOfKind(AssignmentKind, p.assignments) && AllGood(rules, p.scope, p.assignments) && Sorted(p.scope, p.assignments)
    && AllOfKind(AnnouncementKind, p.announcements) && AllGood(rules, p.scope, p.announcements) && Sorted(p.scope, p.announcements)
    && AllOfKind(ModuleKind, p.modules) && AllGood(rules, p.scope, p.modules) && Sorted(p.scope, p.modules)
    && ListErrors(p.scope, p.assignments, p.announcements, p.modules).None?
  }

  lemma SortedListErrors(cfg: Config, a: seq<Record>, n: seq<Record>, m: seq<Record>)
    ensures ListErrors(cfg, a, n, m).None? ==> ListErrors(cfg, Sort(cfg, a), Sort(cfg, n), Sort(cfg, m)).None?
  {
    SortKeeps(cfg, AssignmentKind, a);
    SortKeeps(cfg, AnnouncementKind, n);
    SortKeeps(cfg, ModuleKind, m);
    hide Sort, AllDifferent, Elements, Urls, Positions, ItemsOf, AllOfKind;
  }

  lemma CollectedList(rules: Rules, cfg: Config, s: Config, kind: Kind, js: seq<Json>)
    requires Lawful(rules) && Rescoped(cfg, s) && kind != CourseKind
    ensures var c := Collect(rules, cfg, kind, js);
      c.Ok? ==> AllOfKind(kind, Sort(s, c.value)) && AllGood(rules, s, Sort(s, c.value)) && Sorted(s, Sort(s, c.value))
  {
    CollectRescoped(rules, cfg, s, kind, js);
    CollectedAreGood(rules, s, kind, js);
    CollectKind(rules, s, kind, js);
    hide Collect, Sort, Good, Lawful, Sorted, AllOfKind;
    var c := Collect(rules, s, kind, js);
    if c.Ok? {
      SortKeeps(s, kind, c.value);
      SortIsGood(rules, s, c.value);
      SortSorts(s, c.value);
    }
  }

  lemma CourseCanonical(rules: Rules, cfg: Config, j: Json)
    requires Lawful(rules) && ConfigOk(rules, cfg)
    ensures var c := ValidateCourse(rules, cfg, j); c.Ok? ==> c.value.Course? && Good(rules, ScopeOf(rules, cfg), c.value)
  {
    FlatIsGood(rules, cfg, CourseKind, j);
    ScopeSame(rules, cfg);
    hide Label, Lawful, IsLabel, ConfigOk, SameLabel;
  }

  lemma FrontCourse(rules: Rules, cfg: Config, raw: Json)
    ensures Front(rules, cfg, raw).Ok? ==> ValidateCourse(rules, cfg, Get(raw.fields, CourseField)) == Front(rules, cfg, raw)
  {
    hide Allowed, ConfigOk, ValidateCourse;
  }

  lemma AcceptedIsCanonical(rules: Rules, cfg: Config, raw: Json)
    requires Lawful(rules) && Validate(rules, cfg, raw).Ok?
    ensures Canonical(rules, Validate(rules, cfg, raw).value)
  {
    var s := ScopeOf(rules, cfg);
    var course := Front(rules, cfg, raw);
    ScopeSame(rules, cfg);
    FrontCourse(rules, cfg, raw);
    CourseCanonical(rules, cfg, Get(raw.fields, CourseField));
    var a := Collect(rules, cfg, AssignmentKind, raw.fields[Assignments].elements);
    var n := Collect(rules, cfg, AnnouncementKind, raw.fields[Announcements].elements);
    var m := Collect(rules, cfg, ModuleKind, raw.fields[Modules].elements);
    CollectedList(rules, cfg, s, AssignmentKind, raw.fields[Assignments].elements);
    CollectedList(rules, cfg, s, AnnouncementKind, raw.fields[Announcements].elements);
    CollectedList(rules, cfg, s, ModuleKind, raw.fields[Modules].elements);
    AssembleRescoped(rules, cfg, course.value, a.value, n.value, m.value);
    hide Front, Collect, ConfigOk, ScopeOf, Lawful, Good, AllGood, AllOfKind, Sorted, Sort, ValidateCourse, ListErrors, SameLabel;
    SortedListErrors(s, a.value, n.value, m.value);
  }

  lemma PositionsRead(s: set<int>)
    requires forall p :: p in s ==> p > 0
    ensures PositionsOf(Arr(PositionList(s))) == Ok(Some(s))
  {
    var js := PositionList(s);
    hide PositionList;
    forall j | j in js ensures j.Int? && j.i > 0 { assert j == Int(j.i); }
    assert (set j | j in js :: if j.Int? then j.i else 0) == s by {
      forall p ensures p in (set j | j in js :: if j.Int? then j.i else 0) <==> p in s {
        if p in s { assert Int(p) in js; }
      }
    }
  }

  lemma ScopeReads(rules: Rules, p: Record)
    requires Canonical(rules, p)
    ensures ScopeFrom(PayloadFields(p)) == Ok(p.scope)
  {
    hide Good, AllGood, AllOfKind, Sorted, ListErrors, RecordList, RecordFields, PositionList, Label;
    var scope := ScopeFields(p.scope);
    if p.scope.positions.Some? {
      PositionsRead(p.scope.positions.value);
      assert Get(scope, ModulePositions) == Arr(PositionList(p.scope.positions.value));
    } else {
      assert Get(scope, ModulePositions) == Null;
    }
    assert PositionsOf(Get(scope, ModulePositions)) == Ok(p.scope.positions);
    hide PositionsOf;
  }

  lemma RawAllowed(rules: Rules, raw: map<Key, Json>)
    requires raw.Keys == {Status, CourseField, Assignments, Announcements, Modules} && raw[Status].Str?
    requires Allowed(rules, raw[CourseField]) && Allowed(rules, raw[Assignments]) && Allowed(rules, raw[Announcements]) && Allowed(rules, raw[Modules])
    ensures Allowed(rules, Obj(raw))
  {
    forall k | k in raw ensures NameAllowed(rules, k) && Allowed(rules, raw[k]) { assert k in raw.Keys; }
  }

  lemma FrontReads(rules: Rules, p: Record)
    requires Canonical(rules, p)
    ensures Front(rules, p.scope, Obj(RawFrom(PayloadFields(p)))) == Ok(p.course)
  {
    hide Good, AllGood, AllOfKind, Sorted, ListErrors, RecordList, RecordFields, ConfigOk, ScopeOf, ValidateCourse, ScopeFields, Allowed;
    RecordAllowed(rules, p.scope, p.course);
    ListAllowed(rules, p.scope, p.assignments);
    ListAllowed(rules, p.scope, p.announcements);
    ListAllowed(rules, p.scope, p.modules);
    CourseValidates(rules, p.scope, p.course);
    RawAllowed(rules, RawFrom(PayloadFields(p)));
  }

  lemma CanonicalValidates(rules: Rules, p: Record)
    requires Canonical(rules, p)
    ensures Validate(rules, p.scope, Obj(RawFrom(PayloadFields(p)))) == Ok(p)
  {
    hide Front, Collect, Sort, Good, AllGood, AllOfKind, Sorted, ListErrors, RecordList, RecordFields, ConfigOk, ScopeOf, ScopeFields;
    FrontReads(rules, p);
    ListValidates(rules, p.scope, AssignmentKind, p.assignments);
    ListValidates(rules, p.scope, AnnouncementKind, p.announcements);
    ListValidates(rules, p.scope, ModuleKind, p.modules);
    SortOfSorted(p.scope, p.assignments);
    SortOfSorted(p.scope, p.announcements);
    SortOfSorted(p.scope, p.modules);
  }

  lemma DocumentReads(rules: Rules, p: Record)
    requires p.Payload? && !p.course.Payload? && Hex64(rules.digest(p)) && ScopeFrom(PayloadFields(p)) == Ok(p.scope)
    requires Validate(rules, p.scope, Obj(RawFrom(PayloadFields(p)))) == Ok(p)
    ensures FromDocument(rules, Document(rules, p)) == Ok(p)
  {
    hide Validate, ScopeFrom, PayloadFields, RawFrom, Hex64;
  }

  /** Whatever was accepted, its written document is accepted again, with the same payload and the same hash. */
  lemma RevalidationIsIdentity(rules: Rules, cfg: Config, raw: Json)
    requires Lawful(rules) && Validate(rules, cfg, raw).Ok?
    ensures var p := Validate(rules, cfg, raw).value;
      p.Payload? && !p.course.Payload? && FromDocument(rules, Document(rules, p)) == Ok(p)
  {
    hide Validate, FromDocument, Document, ScopeFrom, PayloadFields, RawFrom, Hex64;
    AcceptedIsCanonical(rules, cfg, raw);
    var p := Validate(rules, cfg, raw).value;
    ScopeReads(rules, p);
    CanonicalValidates(rules, p);
    hide Canonical;
    DocumentReads(rules, p);
  }
}
