/**
  Validation of an LMS snapshot (scripts/knu_lms_sync.py): an arbitrary JSON document goes in, and either a fixed
  error code or one canonical payload comes out.

  A JSON object is a map. The field names that the code mentions are constructors of `Key`; any other name is
  `Other`. The normalization of labels, the case folding and the digest are parameters.
 */
module Snapshot {
  import opened Wrappers
  import Decimal
  import J = CanonicalJson

  datatype Key =
    | Status | CourseField | Assignments | Announcements | Modules
    | Id | Name | CourseCode | Term | Title | ContextCode | DueAt | LockAt | UnlockAt | Position | Published | LockedForUser
    | PostedAt | PublishedAt | DelayedPostAt | Type | ContentId
    | Items | ItemsCount | ItemsComplete | ItemsAvailable | ItemsUnavailable | ItemsCountAvailable | ItemsReturnedCount
    | SourceIdentity | SourceKey | LmsUrl | Origin | CourseId | ResourceKind | ResourceId
    | Version | ScopeField | ExpectedName | ExpectedCode | ExpectedTerm | WindowDays | Resources | ModulePositions
    | SnapshotField | SnapshotHash | RecordField | LastSeen | SeenInWindow
    | Other(text: string)

  datatype Json = Null | Bool(b: bool) | Int(i: int) | Float(r: real) | Str(s: string) | Arr(elements: seq<Json>) | Obj(fields: map<Key, Json>)

  /** `clean`: NFKC, no control character, white space collapsed; None when refused. */
  datatype Rules = Rules(clean: string -> Option<string>, fold: string -> string, digest: Record -> string)

  /** The fields of a canonical record that are not determined by its id and the configuration. An inner None is a JSON null. */
  datatype Record =
    | Course(id: int, name: string, code: string, term: string)
    | Assignment(id: int, name: string, dueAt: Option<string>, lockAt: Option<Option<string>>, unlockAt: Option<Option<string>>,
                 at: Option<int>, published: Option<bool>, lockedForUser: Option<bool>)
    | Announcement(id: int, name: string, postedAt: Option<Option<string>>, publishedAt: Option<Option<string>>,
                   delayedPostAt: Option<Option<string>>)
    | Item(id: int, name: string, kind: Option<Option<string>>, at: Option<int>, published: Option<bool>, contentId: Option<Json>)
    | Module(id: int, name: string, position: int, items: seq<Record>)
    | Payload(scope: Config, course: Record, assignments: seq<Record>, announcements: seq<Record>, modules: seq<Record>)

  /** SyncConfig: the expected course, and the module positions when the set is fixed. */
  datatype Config = Config(courseId: int, name: string, code: string, term: string, origin: string, positions: Option<set<int>>)

  const ORIGIN := "https://canvas.knu.ac.kr"
  const WINDOW_DAYS := 31

  predicate ForbiddenName(s: string) {
    s in ["body", "description", "download_url", "file_id", "grade", "html_url", "message", "submission", "submissions", "url"]
  }

  predicate NameAllowed(rules: Rules, k: Key) { k.Other? ==> !ForbiddenName(rules.fold(k.text)) }

  /** `_walk_reject_forbidden` */
  predicate Allowed(rules: Rules, j: Json)
    decreases j
  {
    match j
    case Obj(m) => forall k :: k in m ==> NameAllowed(rules, k) && Allowed(rules, m[k])
    case Arr(s) => forall i :: 0 <= i < |s| ==> Allowed(rules, s[i])
    case _ => true
  }

  // ---------------------------------------------------------------------------------------
  // Fields

  type Code = string

  /** `record.get(key)` */
  function Get(o: map<Key, Json>, k: Key): Json { if k in o then o[k] else Null }

  function PositiveInt(v: Json, code: Code): (r: Result<int, Code>)
    ensures r.Ok? <==> v.Int? && v.i > 0
    ensures r.Ok? ==> v == Int(r.value)
  {
    if v.Int? && v.i > 0 then Ok(v.i) else Err(code)
  }

  predicate IsLabel(rules: Rules, s: string) { rules.clean(s) == Some(s) && s != "" }

  function Label(rules: Rules, v: Json, code: Code): (r: Result<string, Code>)
    ensures v.Str? && IsLabel(rules, v.s) ==> r == Ok(v.s)
    ensures r.Ok? ==> v.Str? && rules.clean(v.s) == Some(r.value) && r.value != ""
  {
    if !v.Str? then Err(code)
    else
      match rules.clean(v.s)
      case None => Err(code)
      case Some(s) => if s == "" then Err(code) else Ok(s)
  }

  function OptionalLabel(rules: Rules, v: Json, code: Code): Result<Option<string>, Code> {
    if v.Null? then Ok(None) else var s :- Label(rules, v, code); Ok(Some(s))
  }

  function LabelField(rules: Rules, o: map<Key, Json>, k: Key, code: Code): Result<Option<Option<string>>, Code> {
    if k !in o then Ok(None) else var s :- OptionalLabel(rules, o[k], code); Ok(Some(s))
  }

  function NatField(o: map<Key, Json>, k: Key, code: Code): Result<Option<int>, Code> {
    if k !in o then Ok(None) else if o[k].Int? && o[k].i >= 0 then Ok(Some(o[k].i)) else Err(code)
  }

  function BoolField(o: map<Key, Json>, k: Key, code: Code): Result<Option<bool>, Code> {
    if k !in o then Ok(None) else if o[k].Bool? then Ok(Some(o[k].b)) else Err(code)
  }

  function ContentIdField(rules: Rules, o: map<Key, Json>): Result<Option<Json>, Code> {
    if ContentId !in o then Ok(None)
    else if o[ContentId].Int? then if o[ContentId].i > 0 then Ok(Some(o[ContentId])) else Err("invalid_module_item_shape")
    else if o[ContentId].Str? then var s :- Label(rules, o[ContentId], "invalid_content_id"); Ok(Some(Str(s)))
    else Err("invalid_module_item_shape")
  }

  // ---------------------------------------------------------------------------------------
  // Derived fields

  function Number(n: int): string { if n < 0 then "-" + Decimal.Digits(-n) else Decimal.Digits(n) }

  function CourseUrl(cfg: Config): string { cfg.origin + "/courses/" + Number(cfg.courseId) }

  function UrlPart(r: Record): string {
    match r
    case Assignment(_, _, _, _, _, _, _, _) => "/assignments/"
    case Announcement(_, _, _, _, _) => "/discussion_topics/"
    case Module(_, _, _, _) => "/modules/"
    case _ => "/modules/items/"
  }

  /** `source_key` and `lms_url` of a record (an item only has the latter). */
  function Url(cfg: Config, r: Record): string
    requires !r.Payload?
  {
    if r.Course? then CourseUrl(cfg) else CourseUrl(cfg) + UrlPart(r) + Number(r.id)
  }

  function ContextOf(cfg: Config): string { "course_" + Number(cfg.courseId) }

  function WeekName(position: int): string { Number(position) + "주차" }

  // ---------------------------------------------------------------------------------------
  // Sorting: by source_key, by position, or by (position, id)

  datatype Rank = Text(text: string) | Pair(first: int, second: int)

  function RankOf(cfg: Config, r: Record): Rank {
    match r
    case Item(id, _, _, at, _, _) => Pair(if at.Some? then at.value else 0, id)
    case Module(_, _, position, _) => Pair(position, 0)
    case Payload(_, _, _, _, _) => Text("")
    case _ => Text(Url(cfg, r))
  }

  predicate RankLe(a: Rank, b: Rank) {
    if a.Text? && b.Text? then a.text == b.text || J.Less(a.text, b.text)
    else if a.Pair? && b.Pair? then a.first < b.first || (a.first == b.first && a.second <= b.second)
    else a.Text?
  }

  function Insert(cfg: Config, r: Record, s: seq<Record>): seq<Record> {
    if s == [] || RankLe(RankOf(cfg, r), RankOf(cfg, s[0])) then [r] + s else [s[0]] + Insert(cfg, r, s[1..])
  }

  /** A stable sort. */
  function Sort(cfg: Config, s: seq<Record>): seq<Record> {
    if s == [] then [] else Insert(cfg, s[0], Sort(cfg, s[1..]))
  }

  // ---------------------------------------------------------------------------------------
  // Records

  datatype Kind = CourseKind | AssignmentKind | AnnouncementKind | ItemKind | ModuleKind

  function ValidateCourse(rules: Rules, cfg: Config, j: Json): Result<Record, Code> {
    if !j.Obj? then Err("invalid_course_shape")
    else
      var o := j.fields;
      var id :- PositiveInt(Get(o, Id), "invalid_course_id");
      var name :- Label(rules, Get(o, Name), "invalid_course_name");
      var code :- Label(rules, Get(o, CourseCode), "invalid_course_code");
      var term :- Label(rules, Get(o, Term), "invalid_course_term");
      if id != cfg.courseId then Err("course_identity_mismatch")
      else if !SameLabel(rules, name, cfg.name) || !SameLabel(rules, code, cfg.code) || !SameLabel(rules, term, cfg.term)
      then Err("course_identity_mismatch")
      else Ok(Course(id, name, code, term))
  }

  /** The cleaned label equals the expected one up to case folding. */
  predicate SameLabel(rules: Rules, label': string, expected: string) {
    match Label(rules, Str(expected), "invalid_expected")
    case Ok(e) => rules.fold(label') == rules.fold(e)
    case Err(_) => false
  }

  function ValidateAssignment(rules: Rules, cfg: Config, j: Json): Result<Record, Code> {
    if !j.Obj? then Err("invalid_assignment_shape")
    else
      var o := j.fields;
      var id :- PositiveInt(Get(o, Id), "invalid_assignment_id");
      var name :- Label(rules, Get(o, Name), "invalid_assignment_name");
      var due :- OptionalLabel(rules, Get(o, DueAt), "invalid_due_at");
      var locks :- LabelField(rules, o, LockAt, "invalid_lock_at");
      var unlocks :- LabelField(rules, o, UnlockAt, "invalid_unlock_at");
      var at :- NatField(o, Position, "invalid_assignment_shape");
      var published :- BoolField(o, Published, "invalid_assignment_shape");
      var locked :- BoolField(o, LockedForUser, "invalid_assignment_shape");
      Ok(Assignment(id, name, due, locks, unlocks, at, published, locked))
  }

  function ValidateAnnouncement(rules: Rules, cfg: Config, j: Json): Result<Record, Code> {
    if !j.Obj? then Err("invalid_announcement_shape")
    else
      var o := j.fields;
      var id :- PositiveInt(Get(o, Id), "invalid_announcement_id");
      var title :- Label(rules, Get(o, Title), "invalid_announcement_title");
      var context :- Label(rules, Get(o, ContextCode), "invalid_context_code");
      if context != ContextOf(cfg) then Err("announcement_context_mismatch")
      else
        var posted :- LabelField(rules, o, PostedAt, "invalid_posted_at");
        var published :- LabelField(rules, o, PublishedAt, "invalid_published_at");
        var delayed :- LabelField(rules, o, DelayedPostAt, "invalid_delayed_post_at");
        Ok(Announcement(id, title, posted, published, delayed))
  }

  function ValidateItem(rules: Rules, cfg: Config, j: Json): Result<Record, Code> {
    if !j.Obj? then Err("invalid_module_item_shape")
    else
      var o := j.fields;
      var id :- PositiveInt(Get(o, Id), "invalid_module_item_id");
      var title :- Label(rules, Get(o, Title), "invalid_module_item_title");
      var kind :- LabelField(rules, o, Type, "invalid_module_item_type");
      var at :- NatField(o, Position, "invalid_module_item_shape");
      var published :- BoolField(o, Published, "invalid_module_item_shape");
      var content :- ContentIdField(rules, o);
      Ok(Item(id, title, kind, at, published, content))
  }

  /** Everything about a module but its items. */
  function ModuleHead(rules: Rules, cfg: Config, o: map<Key, Json>): (r: Result<Record, Code>)
    ensures r.Ok? ==> r.value.Module? && r.value.items == [] && Get(o, Items).Arr?
  {
    if ItemsCount in o then Err("invalid_module_shape")
    else if !(Get(o, Position).Int? && Get(o, Position).i > 0) then Err("invalid_module_position")
    else
      var position := o[Position].i;
      var name :- Label(rules, Get(o, Name), "invalid_module_name");
      if cfg.positions.Some? && (position !in cfg.positions.value || name != WeekName(position)) then Err("invalid_module_name")
      else
        var id :- PositiveInt(Get(o, Id), "invalid_module_id");
        if !Get(o, Items).Arr? || Get(o, ItemsComplete) != Bool(true) then Err("module_items_incomplete")
        else if Get(o, ItemsAvailable) != Bool(true) || Get(o, ItemsUnavailable) != Bool(false) then Err("module_items_incomplete")
        else if Get(o, ItemsCountAvailable) != Bool(true) then Err("module_items_count_missing")
        else if Get(o, ItemsReturnedCount) != Int(|o[Items].elements|) then Err("module_items_count_mismatch")
        else Ok(Module(id, name, position, []))
  }

  function ValidateModule(rules: Rules, cfg: Config, j: Json): Result<Record, Code>
    decreases 1, 0
  {
    if !j.Obj? then Err("invalid_module_shape")
    else
      var head :- ModuleHead(rules, cfg, j.fields);
      var items :- Collect(rules, cfg, ItemKind, j.fields[Items].elements);
      Ok(head.(items := Sort(cfg, items)))
  }

  function ValidateOne(rules: Rules, cfg: Config, kind: Kind, j: Json): Result<Record, Code>
    decreases if kind == ModuleKind then 1 else 0, 1
  {
    match kind
    case CourseKind => ValidateCourse(rules, cfg, j)
    case AssignmentKind => ValidateAssignment(rules, cfg, j)
    case AnnouncementKind => ValidateAnnouncement(rules, cfg, j)
    case ItemKind => ValidateItem(rules, cfg, j)
    case ModuleKind => ValidateModule(rules, cfg, j)
  }

  /** A list comprehension of validated records: the first error wins. */
  function Collect(rules: Rules, cfg: Config, kind: Kind, js: seq<Json>): Result<seq<Record>, Code>
    decreases if kind == ModuleKind then 1 else 0, 2 + |js|
  {
    if js == [] then Ok([])
    else
      var r :- ValidateOne(rules, cfg, kind, js[0]);
      var rest :- Collect(rules, cfg, kind, js[1..]);
      Ok([r] + rest)
  }

  // ---------------------------------------------------------------------------------------
  // The snapshot

  /** What a list comprehension over the records collects. */
  function Urls(cfg: Config, rs: seq<Record>): seq<string> {
    if rs == [] then [] else [if rs[0].Payload? then "" else Url(cfg, rs[0])] + Urls(cfg, rs[1..])
  }

  function Positions(ms: seq<Record>): seq<int> {
    if ms == [] then [] else [if ms[0].Module? then ms[0].position else 0] + Positions(ms[1..])
  }

  function ItemsOf(ms: seq<Record>): seq<Record> {
    if ms == [] then [] else (if ms[0].Module? then ms[0].items else []) + ItemsOf(ms[1..])
  }

  function Elements<T(==)>(s: seq<T>): set<T> { set x | x in s }

  /** `len(set(s)) == len(s)` */
  predicate AllDifferent<T(==)>(s: seq<T>) { |Elements(s)| == |s| }

  predicate ConfigOk(rules: Rules, cfg: Config) {
    && cfg.courseId > 0 && cfg.origin == ORIGIN
    && Label(rules, Str(cfg.name), "").Ok? && Label(rules, Str(cfg.code), "").Ok? && Label(rules, Str(cfg.term), "").Ok?
    && (cfg.positions.Some? ==> cfg.positions.value != {} && forall p :: p in cfg.positions.value ==> p > 0)
  }

  /** The configuration as the payload states it: with cleaned labels. */
  function ScopeOf(rules: Rules, cfg: Config): Config
    requires ConfigOk(rules, cfg)
  {
    cfg.(name := Label(rules, Str(cfg.name), "").value, code := Label(rules, Str(cfg.code), "").value, term := Label(rules, Str(cfg.term), "").value)
  }

  /** The checks over whole lists, in order. */
  function ListErrors(cfg: Config, assignments: seq<Record>, announcements: seq<Record>, modules: seq<Record>): Option<Code> {
    if !AllDifferent(Urls(cfg, assignments)) then Some("duplicate_source_identity")
    else if !AllDifferent(Urls(cfg, announcements)) then Some("duplicate_source_identity")
    else if !AllDifferent(Positions(modules)) then Some("duplicate_module_position")
    else if cfg.positions.Some? && Elements(Positions(modules)) != cfg.positions.value then Some("invalid_module_set")
    else if !AllDifferent(Urls(cfg, modules)) then Some("duplicate_source_identity")
    else if !AllDifferent(Urls(cfg, ItemsOf(modules))) then Some("duplicate_source_identity")
    else None
  }

  /** The checks before the lists are looked into; the result is the course. */
  function Front(rules: Rules, cfg: Config, raw: Json): (r: Result<Record, Code>)
    ensures r.Ok? ==> ConfigOk(rules, cfg) && raw.Obj?
    ensures r.Ok? ==> Get(raw.fields, Assignments).Arr? && Get(raw.fields, Announcements).Arr? && Get(raw.fields, Modules).Arr?
  {
    if !ConfigOk(rules, cfg) then Err("invalid_config")
    else if !raw.Obj? then Err("invalid_snapshot_shape")
    else if !Allowed(rules, raw) then Err("forbidden_field")
    else if Get(raw.fields, Status) != Str("complete") then Err("incomplete_snapshot")
    else if !(raw.fields.Keys <= {Status, CourseField, Assignments, Announcements, Modules}) then Err("invalid_snapshot_shape")
    else
      var course :- ValidateCourse(rules, cfg, Get(raw.fields, CourseField));
      if !Get(raw.fields, Assignments).Arr? then Err("invalid_assignments_shape")
      else if !Get(raw.fields, Announcements).Arr? then Err("invalid_announcements_shape")
      else if !Get(raw.fields, Modules).Arr? then Err("invalid_module_set")
      else Ok(course)
  }

  /** The checks over the lists and the payload, everything sorted. */
  function Assemble(rules: Rules, cfg: Config, course: Record, assignments: seq<Record>, announcements: seq<Record>, modules: seq<Record>)
    : (r: Result<Record, Code>)
    requires ConfigOk(rules, cfg)
  {
    match ListErrors(cfg, assignments, announcements, modules)
    case Some(code) => Err(code)
    case None => Ok(Payload(ScopeOf(rules, cfg), course, Sort(cfg, assignments), Sort(cfg, announcements), Sort(cfg, modules)))
  }

  /** Everything after the front: the records of the three lists, checked and assembled. */
  function FromLists(rules: Rules, cfg: Config, course: Record, assignmentsRaw: seq<Json>, announcementsRaw: seq<Json>, modulesRaw: seq<Json>)
    : (r: Result<Record, Code>)
    requires ConfigOk(rules, cfg)
  {
    var assignments :- Collect(rules, cfg, AssignmentKind, assignmentsRaw);
    var announcements :- Collect(rules, cfg, AnnouncementKind, announcementsRaw);
    var modules :- Collect(rules, cfg, ModuleKind, modulesRaw);
    Assemble(rules, cfg, course, assignments, announcements, modules)
  }

  /** `validate_snapshot` */
  function Validate(rules: Rules, cfg: Config, raw: Json): Result<Record, Code> {
    var course :- Front(rules, cfg, raw);
    FromLists(rules, cfg, course, raw.fields[Assignments].elements, raw.fields[Announcements].elements, raw.fields[Modules].elements)
  }
}
