/**
  Which documents `validate_snapshot` accepts, and what it makes of them, in terms of the raw fields alone.
 */
module SnapshotAcceptance {
  import opened Wrappers
  import opened Snapshot
  import opened SnapshotOrder
  import opened SnapshotDocument
  import J = CanonicalJson
  import Decimal

  // ---------------------------------------------------------------------------------------
  // What a raw field shows

  predicate ShowsLabel(rules: Rules, v: Json, s: string) { v.Str? && rules.clean(v.s) == Some(s) && s != "" }

  predicate ShowsOptional(rules: Rules, v: Json, s: Option<string>) { if v.Null? then s == None else s.Some? && ShowsLabel(rules, v, s.value) }

  /** A label that may be missing, or be null. */
  predicate ShowsText(rules: Rules, o: map<Key, Json>, k: Key, s: Option<Option<string>>) {
    if k in o then s.Some? && ShowsOptional(rules, o[k], s.value) else s == None
  }

  predicate ShowsNat(o: map<Key, Json>, k: Key, n: Option<int>) {
    if k in o then n.Some? && o[k] == Int(n.value) && n.value >= 0 else n == None
  }

  predicate ShowsFlag(o: map<Key, Json>, k: Key, b: Option<bool>) {
    if k in o then b.Some? && o[k] == Bool(b.value) else b == None
  }

  predicate ShowsContent(rules: Rules, o: map<Key, Json>, c: Option<Json>) {
    if ContentId !in o then c == None
    else c.Some? && if o[ContentId].Int? then c.value == o[ContentId] && o[ContentId].i > 0 else c.value.Str? && ShowsLabel(rules, o[ContentId], c.value.s)
  }

  predicate Has(o: map<Key, Json>, k: Key, v: Json) { k in o && o[k] == v }

  predicate HasLabel(rules: Rules, o: map<Key, Json>, k: Key, s: string) { k in o && ShowsLabel(rules, o[k], s) }

  /** The expected label, cleaned like the others, is the same up to case folding. */
  predicate Expected(rules: Rules, s: string, expected: string) {
    rules.clean(expected).Some? && rules.clean(expected).value != "" && rules.fold(s) == rules.fold(rules.clean(expected).value)
  }

  // ---------------------------------------------------------------------------------------
  // What a raw record shows

  predicate ShowsCourse(rules: Rules, cfg: Config, o: map<Key, Json>, r: Record) {
    && r.Course? && r.id > 0 && Has(o, Id, Int(r.id)) && r.id == cfg.courseId
    && HasLabel(rules, o, Name, r.name) && HasLabel(rules, o, CourseCode, r.code) && HasLabel(rules, o, Term, r.term)
    && Expected(rules, r.name, cfg.name) && Expected(rules, r.code, cfg.code) && Expected(rules, r.term, cfg.term)
  }

  predicate ShowsAssignment(rules: Rules, o: map<Key, Json>, r: Record) {
    && r.Assignment? && r.id > 0 && Has(o, Id, Int(r.id)) && HasLabel(rules, o, Name, r.name)
    && ShowsOptional(rules, Get(o, DueAt), r.dueAt) && ShowsText(rules, o, LockAt, r.lockAt) && ShowsText(rules, o, UnlockAt, r.unlockAt)
    && ShowsNat(o, Position, r.at) && ShowsFlag(o, Published, r.published) && ShowsFlag(o, LockedForUser, r.lockedForUser)
  }

  predicate ShowsAnnouncement(rules: Rules, cfg: Config, o: map<Key, Json>, r: Record) {
    && r.Announcement? && r.id > 0 && Has(o, Id, Int(r.id)) && HasLabel(rules, o, Title, r.name)
    && HasLabel(rules, o, ContextCode, "course_" + J.IntText(cfg.courseId))
    && ShowsText(rules, o, PostedAt, r.postedAt) && ShowsText(rules, o, PublishedAt, r.publishedAt)
    && ShowsText(rules, o, DelayedPostAt, r.delayedPostAt)
  }

  predicate ShowsItem(rules: Rules, o: map<Key, Json>, r: Record) {
    && r.Item? && r.id > 0 && Has(o, Id, Int(r.id)) && HasLabel(rules, o, Title, r.name)
    && ShowsText(rules, o, Type, r.kind) && ShowsNat(o, Position, r.at) && ShowsFlag(o, Published, r.published) && ShowsContent(rules, o, r.contentId)
  }

  /** Everything about a module but its items: in a week course also the position and the name of the week. */
  predicate ShowsModule(rules: Rules, cfg: Config, o: map<Key, Json>, r: Record) {
    && r.Module? && r.id > 0 && Has(o, Id, Int(r.id)) && r.position > 0 && Has(o, Position, Int(r.position)) && HasLabel(rules, o, Name, r.name)
    && (cfg.positions.Some? ==> r.position in cfg.positions.value && r.name == J.IntText(r.position) + "주차")
    && ItemsCount !in o
    && Has(o, ItemsComplete, Bool(true)) && Has(o, ItemsAvailable, Bool(true)) && Has(o, ItemsUnavailable, Bool(false))
    && Has(o, ItemsCountAvailable, Bool(true))
    && Items in o && o[Items].Arr? && Has(o, ItemsReturnedCount, Int(|o[Items].elements|))
  }

  // ---------------------------------------------------------------------------------------
  // Reading fields is showing them

  lemma LabelShows(rules: Rules, v: Json, code: Code, s: string)
    ensures Label(rules, v, code) == Ok(s) <==> ShowsLabel(rules, v, s)
  {
  }

  lemma OptionalShows(rules: Rules, v: Json, code: Code, s: Option<string>)
    ensures OptionalLabel(rules, v, code) == Ok(s) <==> ShowsOptional(rules, v, s)
  {
  }

  lemma TextShows(rules: Rules, o: map<Key, Json>, k: Key, code: Code, s: Option<Option<string>>)
    ensures LabelField(rules, o, k, code) == Ok(s) <==> ShowsText(rules, o, k, s)
  {
    if k in o && s.Some? { OptionalShows(rules, o[k], code, s.value); }
  }

  lemma NumbersShow(o: map<Key, Json>, k: Key, code: Code, n: Option<int>, b: Option<bool>)
    ensures NatField(o, k, code) == Ok(n) <==> ShowsNat(o, k, n)
    ensures BoolField(o, k, code) == Ok(b) <==> ShowsFlag(o, k, b)
  {
  }

  lemma ContentShows(rules: Rules, o: map<Key, Json>, c: Option<Json>)
    ensures ContentIdField(rules, o) == Ok(c) <==> ShowsContent(rules, o, c)
  {
  }

  lemma FieldShows(rules: Rules, o: map<Key, Json>, k: Key, code: Code, s: string, n: int)
    ensures Label(rules, Get(o, k), code) == Ok(s) <==> HasLabel(rules, o, k, s)
    ensures PositiveInt(Get(o, k), code) == Ok(n) <==> n > 0 && Has(o, k, Int(n))
  {
  }

  lemma SameLabelExpected(rules: Rules, s: string, expected: string)
    ensures SameLabel(rules, s, expected) <==> Expected(rules, s, expected)
  {
  }

  lemma CourseShows(rules: Rules, cfg: Config, j: Json, r: Record)
    ensures ValidateCourse(rules, cfg, j) == Ok(r) <==> j.Obj? && ShowsCourse(rules, cfg, j.fields, r)
  {
    if j.Obj? {
      var o := j.fields;
      if r.Course? {
        FieldShows(rules, o, Id, "invalid_course_id", "", r.id);
        FieldShows(rules, o, Name, "invalid_course_name", r.name, 0);
        FieldShows(rules, o, CourseCode, "invalid_course_code", r.code, 0);
        FieldShows(rules, o, Term, "invalid_course_term", r.term, 0);
        SameLabelExpected(rules, r.name, cfg.name);
        SameLabelExpected(rules, r.code, cfg.code);
        SameLabelExpected(rules, r.term, cfg.term);
      }
      hide Label, PositiveInt, HasLabel, Has, Get, Expected, SameLabel;
    }
  }

  lemma AssignmentShows(rules: Rules, cfg: Config, j: Json, r: Record)
    ensures ValidateAssignment(rules, cfg, j) == Ok(r) <==> j.Obj? && ShowsAssignment(rules, j.fields, r)
  {
    if j.Obj? {
      var o := j.fields;
      if r.Assignment? {
        FieldShows(rules, o, Id, "invalid_assignment_id", "", r.id);
        FieldShows(rules, o, Name, "invalid_assignment_name", r.name, 0);
        OptionalShows(rules, Get(o, DueAt), "invalid_due_at", r.dueAt);
        TextShows(rules, o, LockAt, "invalid_lock_at", r.lockAt);
        TextShows(rules, o, UnlockAt, "invalid_unlock_at", r.unlockAt);
        NumbersShow(o, Position, "invalid_assignment_shape", r.at, None);
        NumbersShow(o, Published, "invalid_assignment_shape", None, r.published);
        NumbersShow(o, LockedForUser, "invalid_assignment_shape", None, r.lockedForUser);
      }
      hide Label, PositiveInt, HasLabel, Has, Get, OptionalLabel, LabelField, NatField, BoolField, ShowsOptional, ShowsText, ShowsNat, ShowsFlag;
    }
  }

  lemma AnnouncementShows(rules: Rules, cfg: Config, j: Json, r: Record)
    ensures ValidateAnnouncement(rules, cfg, j) == Ok(r) <==> j.Obj? && ShowsAnnouncement(rules, cfg, j.fields, r)
  {
    if j.Obj? {
      var o := j.fields;
      FieldShows(rules, o, ContextCode, "invalid_context_code", ContextOf(cfg), 0);
      assert ContextOf(cfg) == "course_" + J.IntText(cfg.courseId);
      if r.Announcement? {
        FieldShows(rules, o, Id, "invalid_announcement_id", "", r.id);
        FieldShows(rules, o, Title, "invalid_announcement_title", r.name, 0);
        TextShows(rules, o, PostedAt, "invalid_posted_at", r.postedAt);
        TextShows(rules, o, PublishedAt, "invalid_published_at", r.publishedAt);
        TextShows(rules, o, DelayedPostAt, "invalid_delayed_post_at", r.delayedPostAt);
      }
      hide Label, PositiveInt, HasLabel, Has, Get, LabelField, ShowsText, ContextOf;
    }
  }

  lemma ItemShows(rules: Rules, cfg: Config, j: Json, r: Record)
    ensures ValidateItem(rules, cfg, j) == Ok(r) <==> j.Obj? && ShowsItem(rules, j.fields, r)
  {
    if j.Obj? {
      var o := j.fields;
      if r.Item? {
        FieldShows(rules, o, Id, "invalid_module_item_id", "", r.id);
        FieldShows(rules, o, Title, "invalid_module_item_title", r.name, 0);
        TextShows(rules, o, Type, "invalid_module_item_type", r.kind);
        NumbersShow(o, Position, "invalid_module_item_shape", r.at, None);
        NumbersShow(o, Published, "invalid_module_item_shape", None, r.published);
        ContentShows(rules, o, r.contentId);
      }
      hide Label, PositiveInt, HasLabel, Has, Get, LabelField, NatField, BoolField, ContentIdField, ShowsText, ShowsNat, ShowsFlag, ShowsContent;
    }
  }

  lemma HeadShows(rules: Rules, cfg: Config, o: map<Key, Json>, r: Record)
    ensures ModuleHead(rules, cfg, o) == Ok(r) <==> r.Module? && r.items == [] && ShowsModule(rules, cfg, o, r)
  {
    if r.Module? {
      FieldShows(rules, o, Id, "invalid_module_id", "", r.id);
      FieldShows(rules, o, Name, "invalid_module_name", r.name, 0);
      assert WeekName(r.position) == J.IntText(r.position) + "주차";
    }
    hide Label, PositiveInt, HasLabel, WeekName;
  }

  // ---------------------------------------------------------------------------------------
  // Lists

  /** One element of a list shows one record; of a module, its head. */
  predicate Shows(rules: Rules, cfg: Config, kind: Kind, j: Json, r: Record) {
    j.Obj? &&
    match kind
    case CourseKind => ShowsCourse(rules, cfg, j.fields, r)
    case AssignmentKind => ShowsAssignment(rules, j.fields, r)
    case AnnouncementKind => ShowsAnnouncement(rules, cfg, j.fields, r)
    case ItemKind => ShowsItem(rules, j.fields, r)
    case ModuleKind => ShowsModule(rules, cfg, j.fields, r)
  }

  /** Records shown one by one. */
  ghost predicate ShowsAll(rules: Rules, cfg: Config, kind: Kind, js: seq<Json>, rs: seq<Record>) {
    |rs| == |js| && forall i :: 0 <= i < |js| ==> Shows(rules, cfg, kind, js[i], rs[i])
  }

  ghost predicate Shown(rules: Rules, cfg: Config, kind: Kind, j: Json) { exists r :: Shows(rules, cfg, kind, j, r) }

  /** The elements of a raw module's list of items. */
  function ItemsIn(j: Json): seq<Json> { if j.Obj? && Items in j.fields && j.fields[Items].Arr? then j.fields[Items].elements else [] }

  /** An element that becomes a record: of a module, with all its items. */
  ghost predicate Readable(rules: Rules, cfg: Config, kind: Kind, j: Json) {
    && Shown(rules, cfg, kind, j)
    && (kind == ModuleKind ==> forall i :: 0 <= i < |ItemsIn(j)| ==> Shown(rules, cfg, ItemKind, ItemsIn(j)[i]))
  }

  lemma OneShows(rules: Rules, cfg: Config, kind: Kind, j: Json, r: Record)
    requires kind != ModuleKind
    ensures ValidateOne(rules, cfg, kind, j) == Ok(r) <==> Shows(rules, cfg, kind, j, r)
  {
    hide ValidateCourse, ValidateAssignment, ValidateAnnouncement, ValidateItem, ShowsCourse, ShowsAssignment, ShowsAnnouncement, ShowsItem;
    match kind
    case CourseKind => CourseShows(rules, cfg, j, r);
    case AssignmentKind => AssignmentShows(rules, cfg, j, r);
    case AnnouncementKind => AnnouncementShows(rules, cfg, j, r);
    case ItemKind => ItemShows(rules, cfg, j, r);
  }

  lemma OneShown(rules: Rules, cfg: Config, kind: Kind, j: Json)
    requires kind != ModuleKind
    ensures ValidateOne(rules, cfg, kind, j).Ok? <==> Shown(rules, cfg, kind, j)
  {
    hide ValidateOne, Shows;
    if ValidateOne(rules, cfg, kind, j).Ok? { OneShows(rules, cfg, kind, j, ValidateOne(rules, cfg, kind, j).value); }
    if r :| Shows(rules, cfg, kind, j, r) { OneShows(rules, cfg, kind, j, r); }
  }

  lemma {:induction false} CollectExactly(rules: Rules, cfg: Config, kind: Kind, js: seq<Json>)
    ensures var c := Collect(rules, cfg, kind, js);
      && (c.Ok? <==> forall i :: 0 <= i < |js| ==> ValidateOne(rules, cfg, kind, js[i]).Ok?)
      && (c.Ok? ==> |c.value| == |js| && forall i :: 0 <= i < |js| ==> ValidateOne(rules, cfg, kind, js[i]) == Ok(c.value[i]))
    decreases |js|
  {
    hide ValidateOne;
    if js != [] {
      CollectExactly(rules, cfg, kind, js[1..]);
      assert forall i :: 0 < i < |js| ==> js[i] == js[1..][i - 1];
    }
  }

  lemma FlatListShown(rules: Rules, cfg: Config, kind: Kind, js: seq<Json>)
    requires kind != ModuleKind
    ensures var c := Collect(rules, cfg, kind, js);
      && (c.Ok? <==> forall i :: 0 <= i < |js| ==> Shown(rules, cfg, kind, js[i]))
      && (c.Ok? ==> ShowsAll(rules, cfg, kind, js, c.value))
  {
    hide ValidateOne, Shows, Shown, Collect;
    CollectExactly(rules, cfg, kind, js);
    var c := Collect(rules, cfg, kind, js);
    forall i | 0 <= i < |js| ensures ValidateOne(rules, cfg, kind, js[i]).Ok? <==> Shown(rules, cfg, kind, js[i]) {
      OneShown(rules, cfg, kind, js[i]);
    }
    if c.Ok? {
      forall i | 0 <= i < |js| ensures Shows(rules, cfg, kind, js[i], c.value[i]) { OneShows(rules, cfg, kind, js[i], c.value[i]); }
    }
  }

  // ---------------------------------------------------------------------------------------
  // Modules

  /** Items by position, then id; an item without a position comes first. */
  predicate ItemBefore(a: Record, b: Record)
    requires a.Item? && b.Item?
  {
    var p, q := if a.at.Some? then a.at.value else 0, if b.at.Some? then b.at.value else 0;
    p < q || (p == q && a.id <= b.id)
  }

  ghost predicate ItemsInOrder(items: seq<Record>) {
    && (forall i :: 0 <= i < |items| ==> items[i].Item?)
    && forall i, j :: 0 <= i < j < |items| ==> ItemBefore(items[i], items[j])
  }

  /** The list holds the records that the elements show, each once. */
  ghost predicate Holds(rules: Rules, cfg: Config, kind: Kind, js: seq<Json>, rs: seq<Record>) {
    exists shown :: ShowsAll(rules, cfg, kind, js, shown) && multiset(rs) == multiset(shown)
  }

  lemma RankIsBefore(cfg: Config, a: Record, b: Record)
    requires a.Item? && b.Item? && RankLe(RankOf(cfg, a), RankOf(cfg, b))
    ensures ItemBefore(a, b)
  {
  }

  lemma SortedItemsInOrder(cfg: Config, items: seq<Record>)
    requires AllOfKind(ItemKind, items)
    ensures ItemsInOrder(Sort(cfg, items))
  {
    hide Sort, RankOf, RankLe, ItemBefore, AllDifferent, Elements;
    SortKeeps(cfg, ItemKind, items);
    SortSorts(cfg, items);
    var s := Sort(cfg, items);
    forall i | 0 <= i < |s| ensures s[i].Item? { assert OfKind(ItemKind, s[i]); }
    forall i, j | 0 <= i < j < |s| ensures ItemBefore(s[i], s[j]) { RankIsBefore(cfg, s[i], s[j]); }
  }

  /** A module is read off its element: the head field by field, the items in order. */
  lemma ModuleReads(rules: Rules, cfg: Config, j: Json)
    ensures var v := ValidateModule(rules, cfg, j);
      && (v.Ok? <==> Readable(rules, cfg, ModuleKind, j))
      && (v.Ok? ==> Shows(rules, cfg, ModuleKind, j, v.value) && Holds(rules, cfg, ItemKind, ItemsIn(j), v.value.items) && ItemsInOrder(v.value.items))
  {
    hide ModuleHead, Collect, Sort, ShowsModule, ShowsAll, Shown, AllOfKind, ItemsInOrder;
    if j.Obj? {
      var head := ModuleHead(rules, cfg, j.fields);
      HeadIsShown(rules, cfg, j.fields);
      FlatListShown(rules, cfg, ItemKind, ItemsIn(j));
      CollectKind(rules, cfg, ItemKind, ItemsIn(j));
      ShownModule(rules, cfg, j);
      if head.Ok? {
        var items := Collect(rules, cfg, ItemKind, ItemsIn(j));
        if items.Ok? {
          SortedItemsInOrder(cfg, items.value);
          SortSorts(cfg, items.value);
          assert multiset(Sort(cfg, items.value)) == multiset(items.value);
          ItemsDoNotMatter(rules, cfg, j.fields, head.value, Sort(cfg, items.value));
        }
      }
    } else {
      NotShown(rules, cfg, ModuleKind, j);
    }
  }

  lemma NotShown(rules: Rules, cfg: Config, kind: Kind, j: Json)
    requires !j.Obj?
    ensures !Shown(rules, cfg, kind, j)
  {
  }

  lemma ShownModule(rules: Rules, cfg: Config, j: Json)
    requires j.Obj?
    ensures Shown(rules, cfg, ModuleKind, j) <==> exists r :: ShowsModule(rules, cfg, j.fields, r)
  {
    hide ShowsModule;
    if r :| ShowsModule(rules, cfg, j.fields, r) { assert Shows(rules, cfg, ModuleKind, j, r); }
  }

  lemma HeadIsShown(rules: Rules, cfg: Config, o: map<Key, Json>)
    ensures ModuleHead(rules, cfg, o).Ok? <==> exists r :: ShowsModule(rules, cfg, o, r)
    ensures ModuleHead(rules, cfg, o).Ok? ==> ModuleHead(rules, cfg, o).value.Module? && ShowsModule(rules, cfg, o, ModuleHead(rules, cfg, o).value)
  {
    hide ModuleHead, ShowsModule;
    if ModuleHead(rules, cfg, o).Ok? { HeadShows(rules, cfg, o, ModuleHead(rules, cfg, o).value); }
    if r :| ShowsModule(rules, cfg, o, r) {
      assert r.Module? by { ModuleIsShown(rules, cfg, o, r); }
      ItemsDoNotMatter(rules, cfg, o, r, []);
      HeadShows(rules, cfg, o, r.(items := []));
    }
  }

  lemma ModuleIsShown(rules: Rules, cfg: Config, o: map<Key, Json>, r: Record)
    requires ShowsModule(rules, cfg, o, r)
    ensures r.Module?
  {
  }

  lemma ItemsDoNotMatter(rules: Rules, cfg: Config, o: map<Key, Json>, r: Record, items: seq<Record>)
    requires r.Module?
    ensures ShowsModule(rules, cfg, o, r) <==> ShowsModule(rules, cfg, o, r.(items := items))
  {
    hide HasLabel;
  }

  /** Any element: it is read exactly when it is readable, and then as what it shows. */
  lemma AnyReads(rules: Rules, cfg: Config, kind: Kind, j: Json)
    ensures var v := ValidateOne(rules, cfg, kind, j);
      && (v.Ok? <==> Readable(rules, cfg, kind, j))
      && (v.Ok? ==> Shows(rules, cfg, kind, j, v.value))
  {
    hide ValidateModule, Shows, Shown, Holds, ItemsInOrder;
    if kind == ModuleKind {
      ModuleReads(rules, cfg, j);
    } else {
      hide ValidateOne;
      OneShown(rules, cfg, kind, j);
      if ValidateOne(rules, cfg, kind, j).Ok? { OneShows(rules, cfg, kind, j, ValidateOne(rules, cfg, kind, j).value); }
    }
  }

  lemma ListReads(rules: Rules, cfg: Config, kind: Kind, js: seq<Json>)
    ensures var c := Collect(rules, cfg, kind, js);
      && (c.Ok? <==> forall i :: 0 <= i < |js| ==> Readable(rules, cfg, kind, js[i]))
      && (c.Ok? ==> ShowsAll(rules, cfg, kind, js, c.value))
  {
    hide ValidateOne, Shows, Readable, Collect;
    CollectExactly(rules, cfg, kind, js);
    forall i | 0 <= i < |js|
      ensures ValidateOne(rules, cfg, kind, js[i]).Ok? <==> Readable(rules, cfg, kind, js[i])
      ensures ValidateOne(rules, cfg, kind, js[i]).Ok? ==> Shows(rules, cfg, kind, js[i], ValidateOne(rules, cfg, kind, js[i]).value)
    {
      AnyReads(rules, cfg, kind, js[i]);
    }
  }

  // ---------------------------------------------------------------------------------------
  // Nothing twice

  function RawInt(j: Json, k: Key): int { if j.Obj? && k in j.fields && j.fields[k].Int? then j.fields[k].i else 0 }

  /** No two elements have the same number in the field. */
  predicate Differ(js: seq<Json>, k: Key) { forall i, j :: 0 <= i < j < |js| ==> RawInt(js[i], k) != RawInt(js[j], k) }

  /** The items of all modules, one after another. */
  function AllItems(js: seq<Json>): seq<Json> { if js == [] then [] else ItemsIn(js[0]) + AllItems(js[1..]) }

  function Ids(rs: seq<Record>): seq<int> { if rs == [] then [] else [if rs[0].Payload? then 0 else rs[0].id] + Ids(rs[1..]) }

  function RawIds(js: seq<Json>): seq<int> { if js == [] then [] else [RawInt(js[0], Id)] + RawIds(js[1..]) }

  lemma {:induction false} IdsAt(rs: seq<Record>)
    ensures |Ids(rs)| == |rs| && forall i :: 0 <= i < |rs| ==> Ids(rs)[i] == if rs[i].Payload? then 0 else rs[i].id
  {
    if rs != [] { IdsAt(rs[1..]); }
  }

  lemma {:induction false} RawIdsAt(js: seq<Json>)
    ensures |RawIds(js)| == |js| && forall i :: 0 <= i < |js| ==> RawIds(js)[i] == RawInt(js[i], Id)
  {
    if js != [] { RawIdsAt(js[1..]); }
  }

  lemma ShownId(rules: Rules, cfg: Config, kind: Kind, j: Json, r: Record)
    requires Shows(rules, cfg, kind, j, r)
    ensures !r.Payload? && OfKind(kind, r) && r.id > 0 && r.id == RawInt(j, Id)
    ensures kind == ModuleKind ==> r.position == RawInt(j, Position)
  {
    hide HasLabel, Expected, ShowsText, ShowsOptional, ShowsNat, ShowsFlag, ShowsContent;
  }

  /** Records of one kind have one address each exactly when they have one id each. */
  lemma NumberInjective(m: int, n: int)
    requires m > 0 && n > 0 && Number(m) == Number(n)
    ensures m == n
  {
    Decimal.DigitsInjective(m, n);
  }

  lemma UrlInjective(cfg: Config, kind: Kind, a: Record, b: Record)
    requires kind != CourseKind && OfKind(kind, a) && OfKind(kind, b) && a.id > 0 && b.id > 0
    ensures Url(cfg, a) == Url(cfg, b) <==> a.id == b.id
  {
    hide Number, CourseUrl;
    var base := CourseUrl(cfg) + UrlPart(a);
    assert UrlPart(a) == UrlPart(b);
    if Url(cfg, a) == Url(cfg, b) {
      assert Number(a.id) == (base + Number(a.id))[|base|..] && Number(b.id) == (base + Number(b.id))[|base|..];
      NumberInjective(a.id, b.id);
    }
  }

  lemma {:induction false} PairsDiffer<T>(s: seq<T>)
    ensures AllDifferent(s) <==> forall i, j :: 0 <= i < j < |s| ==> s[i] != s[j]
  {
    if AllDifferent(s) {
      forall i, j | 0 <= i < j < |s| ensures s[i] != s[j] { DifferentPairs(s, i, j); }
    } else if forall i, j :: 0 <= i < j < |s| ==> s[i] != s[j] {
      DifferentSets(s);
    }
  }

  lemma {:induction false} DifferentSets<T>(s: seq<T>)
    requires forall i, j :: 0 <= i < j < |s| ==> s[i] != s[j]
    ensures AllDifferent(s)
  {
    if s == [] {
      assert Elements(s) == {};
    } else {
      HeadAndTail(s);
      DifferentSets(s[1..]);
      ElementsConcat([s[0]], s[1..]);
      assert Elements([s[0]]) == {s[0]} && s[0] !in Elements(s[1..]);
    }
  }

  predicate Positive(rs: seq<Record>) { forall i :: 0 <= i < |rs| ==> !rs[i].Payload? && rs[i].id > 0 }

  lemma SameCollisions<A, B>(s: seq<A>, t: seq<B>)
    requires |s| == |t| && forall i, j :: 0 <= i < j < |s| ==> (s[i] == s[j] <==> t[i] == t[j])
    ensures AllDifferent(s) <==> AllDifferent(t)
  {
    hide AllDifferent;
    PairsDiffer(s);
    PairsDiffer(t);
  }

  lemma {:induction false} UrlsLength(cfg: Config, rs: seq<Record>)
    ensures |Urls(cfg, rs)| == |rs|
  {
    if rs != [] { UrlsAt(cfg, rs, 0); }
  }

  lemma UrlsDiffer(cfg: Config, kind: Kind, rs: seq<Record>)
    requires kind != CourseKind && AllOfKind(kind, rs) && Positive(rs)
    ensures AllDifferent(Urls(cfg, rs)) <==> AllDifferent(Ids(rs))
  {
    hide AllDifferent, Url, Ids, Urls, OfKind;
    IdsAt(rs);
    UrlsLength(cfg, rs);
    forall i, j | 0 <= i < j < |rs| ensures Urls(cfg, rs)[i] == Urls(cfg, rs)[j] <==> Ids(rs)[i] == Ids(rs)[j] {
      UrlsAt(cfg, rs, i);
      UrlsAt(cfg, rs, j);
      assert OfKind(kind, rs[i]) && OfKind(kind, rs[j]);
      UrlInjective(cfg, kind, rs[i], rs[j]);
    }
    SameCollisions(Urls(cfg, rs), Ids(rs));
  }

  lemma ShownIds(rules: Rules, cfg: Config, kind: Kind, js: seq<Json>, rs: seq<Record>)
    requires ShowsAll(rules, cfg, kind, js, rs)
    ensures AllOfKind(kind, rs) && Positive(rs) && Ids(rs) == RawIds(js)
  {
    hide Shows, Ids, RawIds, RawInt;
    IdsAt(rs);
    RawIdsAt(js);
    forall i | 0 <= i < |js| ensures OfKind(kind, rs[i]) && !rs[i].Payload? && rs[i].id > 0 && rs[i].id == RawInt(js[i], Id) {
      ShownId(rules, cfg, kind, js[i], rs[i]);
    }
    assert Ids(rs) == RawIds(js);
  }

  /** A list of one kind: its addresses differ exactly when the raw ids do. */
  lemma ShownDiffer(rules: Rules, cfg: Config, kind: Kind, js: seq<Json>, rs: seq<Record>)
    requires kind != CourseKind && ShowsAll(rules, cfg, kind, js, rs)
    ensures AllDifferent(Urls(cfg, rs)) <==> Differ(js, Id)
  {
    hide Shows, Ids, RawIds, RawInt, AllDifferent, Urls;
    ShownIds(rules, cfg, kind, js, rs);
    UrlsDiffer(cfg, kind, rs);
    PairsDiffer(RawIds(js));
    RawIdsAt(js);
  }

  lemma ShownPositions(rules: Rules, cfg: Config, js: seq<Json>, rs: seq<Record>)
    requires ShowsAll(rules, cfg, ModuleKind, js, rs)
    ensures AllDifferent(Positions(rs)) <==> Differ(js, Position)
    ensures forall p :: p in Elements(Positions(rs)) <==> exists i :: 0 <= i < |js| && RawInt(js[i], Position) == p
  {
    hide Shows, RawInt, AllDifferent;
    PairsDiffer(Positions(rs));
    if rs != [] { UrlsAt(cfg, rs, 0); }
    forall i | 0 <= i < |js| ensures Positions(rs)[i] == RawInt(js[i], Position) {
      ShownId(rules, cfg, ModuleKind, js[i], rs[i]);
      UrlsAt(cfg, rs, i);
    }
  }

  // ---------------------------------------------------------------------------------------
  // Items over all modules

  lemma IdsConcat(a: seq<Record>, b: seq<Record>)
    ensures Ids(a + b) == Ids(a) + Ids(b)
  {
    hide Ids;
    IdsAt(a);
    IdsAt(b);
    IdsAt(a + b);
  }

  lemma {:induction false} IdsPermuted(a: seq<Record>, b: seq<Record>)
    requires multiset(a) == multiset(b)
    ensures multiset(Ids(a)) == multiset(Ids(b))
    decreases |a|
  {
    if a == [] {
      assert |multiset(b)| == 0;
    } else {
      HeadAndTail(a);
      var p, q := TakeOut(a[0], b);
      IdsPermuted(a[1..], p + q);
      IdsConcat([a[0]], a[1..]);
      IdsConcat(p, q);
      IdsConcat(p, [a[0]]);
      IdsConcat(p + [a[0]], q);
    }
  }

  lemma RawIdsConcat(a: seq<Json>, b: seq<Json>)
    ensures RawIds(a + b) == RawIds(a) + RawIds(b)
  {
    hide RawIds, RawInt;
    RawIdsAt(a);
    RawIdsAt(b);
    RawIdsAt(a + b);
  }

  /** The modules' lists hold the items of the elements. */
  ghost predicate AllHold(rules: Rules, cfg: Config, js: seq<Json>, ms: seq<Record>) {
    |ms| == |js| && forall i :: 0 <= i < |js| ==> ms[i].Module? && Holds(rules, cfg, ItemKind, ItemsIn(js[i]), ms[i].items)
  }

  lemma HeldIds(rules: Rules, cfg: Config, js: seq<Json>, rs: seq<Record>)
    requires Holds(rules, cfg, ItemKind, js, rs)
    ensures AllOfKind(ItemKind, rs) && Positive(rs) && multiset(Ids(rs)) == multiset(RawIds(js))
  {
    hide Shows, Ids, RawIds;
    var shown :| ShowsAll(rules, cfg, ItemKind, js, shown) && multiset(rs) == multiset(shown);
    ShownIds(rules, cfg, ItemKind, js, shown);
    IdsPermuted(rs, shown);
    forall i | 0 <= i < |rs| ensures OfKind(ItemKind, rs[i]) && !rs[i].Payload? && rs[i].id > 0 {
      assert rs[i] in multiset(rs);
      assert rs[i] in multiset(shown);
      var k :| 0 <= k < |shown| && shown[k] == rs[i];
    }
  }

  lemma {:induction false} AllHeldIds(rules: Rules, cfg: Config, js: seq<Json>, ms: seq<Record>)
    requires AllHold(rules, cfg, js, ms)
    ensures var items := ItemsOf(ms);
      AllOfKind(ItemKind, items) && Positive(items) && multiset(Ids(items)) == multiset(RawIds(AllItems(js)))
  {
    hide Holds, Ids, RawIds, OfKind;
    if js == [] {
      assert Ids([]) == [] && RawIds([]) == [] by { NoIds(); }
    } else {
      HeldIds(rules, cfg, ItemsIn(js[0]), ms[0].items);
      AllHeldIds(rules, cfg, js[1..], ms[1..]);
      IdsConcat(ms[0].items, ItemsOf(ms[1..]));
      RawIdsConcat(ItemsIn(js[0]), AllItems(js[1..]));
    }
  }

  lemma NoIds()
    ensures Ids([]) == [] && RawIds([]) == []
  {
  }

  lemma ItemsDiffer(rules: Rules, cfg: Config, js: seq<Json>, ms: seq<Record>)
    requires AllHold(rules, cfg, js, ms)
    ensures AllDifferent(Urls(cfg, ItemsOf(ms))) <==> Differ(AllItems(js), Id)
  {
    hide AllHold, AllDifferent, Ids, RawIds, RawInt;
    AllHeldIds(rules, cfg, js, ms);
    UrlsDiffer(cfg, ItemKind, ItemsOf(ms));
    PermutedElements(Ids(ItemsOf(ms)), RawIds(AllItems(js)));
    PairsDiffer(RawIds(AllItems(js)));
    RawIdsAt(AllItems(js));
  }

  lemma ModulesHold(rules: Rules, cfg: Config, js: seq<Json>)
    requires Collect(rules, cfg, ModuleKind, js).Ok?
    ensures AllHold(rules, cfg, js, Collect(rules, cfg, ModuleKind, js).value)
    ensures forall i :: 0 <= i < |js| ==> ItemsInOrder(Collect(rules, cfg, ModuleKind, js).value[i].items)
  {
    hide Collect, ValidateModule, Holds, ItemsInOrder;
    CollectExactly(rules, cfg, ModuleKind, js);
    CollectKind(rules, cfg, ModuleKind, js);
    var ms := Collect(rules, cfg, ModuleKind, js).value;
    forall i | 0 <= i < |js| ensures ms[i].Module? && Holds(rules, cfg, ItemKind, ItemsIn(js[i]), ms[i].items) && ItemsInOrder(ms[i].items) {
      assert OfKind(ModuleKind, ms[i]);
      ModuleReads(rules, cfg, js[i]);
    }
  }

  // ---------------------------------------------------------------------------------------
  // Acceptance

  /** A configuration that its own check lets through. */
  predicate SoundConfig(rules: Rules, cfg: Config) {
    && cfg.courseId > 0 && cfg.origin == "https://canvas.knu.ac.kr"
    && (forall l :: l in [cfg.name, cfg.code, cfg.term] ==> rules.clean(l).Some? && rules.clean(l).value != "")
    && (cfg.positions.Some? ==> cfg.positions.value != {} && forall p :: p in cfg.positions.value ==> p > 0)
  }

  /** The field is a list of elements that can all be read, no two with the same id. */
  ghost predicate ListOf(rules: Rules, cfg: Config, o: map<Key, Json>, k: Key, kind: Kind) {
    && k in o && o[k].Arr?
    && (forall i :: 0 <= i < |o[k].elements| ==> Readable(rules, cfg, kind, o[k].elements[i]))
    && Differ(o[k].elements, Id)
  }

  /** The modules have different positions, exactly the fixed ones if those are fixed, and no item occurs twice. */
  predicate ModulesFit(cfg: Config, js: seq<Json>) {
    && Differ(js, Position)
    && (cfg.positions.Some? ==>
          && (forall i :: 0 <= i < |js| ==> RawInt(js[i], Position) in cfg.positions.value)
          && (forall p :: p in cfg.positions.value ==> exists i :: 0 <= i < |js| && RawInt(js[i], Position) == p))
    && Differ(AllItems(js), Id)
  }

  const FIELDS: set<Key> := {Status, CourseField, Assignments, Announcements, Modules}

  const FORBIDDEN: set<string> := {
    "body", "description", "download_url", "file_id", "grade", "html_url", "message", "submission", "submissions", "url"}

  /** Following the path leads to an object with a field of that name. */
  predicate NameAt(j: Json, path: seq<Step>, name: string) {
    At(j, path).Some? && At(j, path).value.Obj? && Other(name) in At(j, path).value.fields
  }

  /** No object inside the document has a forbidden field, in any spelling that folds to one. */
  ghost predicate NothingForbidden(rules: Rules, j: Json) {
    forall path: seq<Step>, name :: NameAt(j, path, name) ==> rules.fold(name) !in FORBIDDEN
  }

  lemma ForbiddenExactly(rules: Rules, j: Json)
    ensures HasForbidden(rules, j) <==> !NothingForbidden(rules, j)
  {
    if HasForbidden(rules, j) {
      var path, k :| ForbiddenAt(rules, j, path, k);
      assert NameAt(j, path, k.text);
    }
    if !NothingForbidden(rules, j) {
      var path: seq<Step>, name :| NameAt(j, path, name) && rules.fold(name) in FORBIDDEN;
      assert ForbiddenAt(rules, j, path, Other(name));
    }
  }

  /** Which documents are snapshots of the configured course. */
  ghost predicate Acceptable(rules: Rules, cfg: Config, raw: Json) {
    && SoundConfig(rules, cfg)
    && raw.Obj? && NothingForbidden(rules, raw)
    && Has(raw.fields, Status, Str("complete"))
    && (forall k :: k in raw.fields ==> k in FIELDS)
    && CourseField in raw.fields && Readable(rules, cfg, CourseKind, raw.fields[CourseField])
    && ListOf(rules, cfg, raw.fields, Assignments, AssignmentKind)
    && ListOf(rules, cfg, raw.fields, Announcements, AnnouncementKind)
    && ListOf(rules, cfg, raw.fields, Modules, ModuleKind)
    && ModulesFit(cfg, raw.fields[Modules].elements)
  }

  lemma ConfigExactly(rules: Rules, cfg: Config)
    ensures ConfigOk(rules, cfg) <==> SoundConfig(rules, cfg)
    ensures ConfigOk(rules, cfg) ==>
      ScopeOf(rules, cfg) == Config(cfg.courseId, rules.clean(cfg.name).value, rules.clean(cfg.code).value, rules.clean(cfg.term).value,
                                    cfg.origin, cfg.positions)
  {
    assert forall l :: l in [cfg.name, cfg.code, cfg.term] <==> l == cfg.name || l == cfg.code || l == cfg.term;
  }

  ghost predicate FrontFits(rules: Rules, cfg: Config, raw: Json) {
    && SoundConfig(rules, cfg) && raw.Obj? && NothingForbidden(rules, raw) && Has(raw.fields, Status, Str("complete"))
    && (forall k :: k in raw.fields ==> k in FIELDS)
    && CourseField in raw.fields && Readable(rules, cfg, CourseKind, raw.fields[CourseField])
    && (forall k :: k in {Assignments, Announcements, Modules} ==> k in raw.fields && raw.fields[k].Arr?)
  }

  lemma FrontExactly(rules: Rules, cfg: Config, raw: Json)
    ensures var f := Front(rules, cfg, raw);
      && (f.Ok? <==> FrontFits(rules, cfg, raw))
      && (f.Ok? ==> Shows(rules, cfg, CourseKind, raw.fields[CourseField], f.value))
  {
    ConfigExactly(rules, cfg);
    ForbiddenIsRejected(rules, cfg, raw);
    ForbiddenExactly(rules, raw);
    hide ConfigOk, SoundConfig, Allowed, HasForbidden, NothingForbidden, ValidateCourse, Shows, Shown;
    if raw.Obj? {
      var o := raw.fields;
      AnyReads(rules, cfg, CourseKind, Get(o, CourseField));
      NotShown(rules, cfg, CourseKind, Null);
      assert o.Keys <= FIELDS <==> forall k :: k in o ==> k in FIELDS;
    }
  }

  lemma PositionsFit(js: seq<Json>, found: set<int>, fixed: set<int>)
    requires forall p :: p in found <==> exists i :: 0 <= i < |js| && RawInt(js[i], Position) == p
    ensures found == fixed <==>
      && (forall i :: 0 <= i < |js| ==> RawInt(js[i], Position) in fixed)
      && (forall p :: p in fixed ==> exists i :: 0 <= i < |js| && RawInt(js[i], Position) == p)
  {
    hide RawInt;
    if (forall i :: 0 <= i < |js| ==> RawInt(js[i], Position) in fixed)
      && (forall p :: p in fixed ==> exists i :: 0 <= i < |js| && RawInt(js[i], Position) == p) {
      forall p ensures p in found <==> p in fixed {}
      assert found == fixed;
    }
  }

  /** The list errors are exactly the repetitions and the wrong set of positions. */
  lemma ListsExactly(rules: Rules, cfg: Config, a: seq<Json>, n: seq<Json>, m: seq<Json>, ar: seq<Record>, nr: seq<Record>, mr: seq<Record>)
    requires ShowsAll(rules, cfg, AssignmentKind, a, ar) && ShowsAll(rules, cfg, AnnouncementKind, n, nr)
    requires ShowsAll(rules, cfg, ModuleKind, m, mr) && AllHold(rules, cfg, m, mr)
    ensures ListErrors(cfg, ar, nr, mr).None? <==> Differ(a, Id) && Differ(n, Id) && Differ(m, Id) && ModulesFit(cfg, m)
  {
    hide Shows, AllHold, AllDifferent, Urls, Positions, ItemsOf, RawInt, AllItems, Elements;
    ShownDiffer(rules, cfg, AssignmentKind, a, ar);
    ShownDiffer(rules, cfg, AnnouncementKind, n, nr);
    ShownDiffer(rules, cfg, ModuleKind, m, mr);
    ShownPositions(rules, cfg, m, mr);
    ItemsDiffer(rules, cfg, m, mr);
    hide Differ;
    if cfg.positions.Some? { PositionsFit(m, Elements(Positions(mr)), cfg.positions.value); }
  }

  lemma AfterFront(rules: Rules, cfg: Config, course: Record, a: seq<Json>, n: seq<Json>, m: seq<Json>)
    requires ConfigOk(rules, cfg)
    ensures FromLists(rules, cfg, course, a, n, m).Ok? <==>
      && (forall i :: 0 <= i < |a| ==> Readable(rules, cfg, AssignmentKind, a[i]))
      && (forall i :: 0 <= i < |n| ==> Readable(rules, cfg, AnnouncementKind, n[i]))
      && (forall i :: 0 <= i < |m| ==> Readable(rules, cfg, ModuleKind, m[i]))
      && Differ(a, Id) && Differ(n, Id) && Differ(m, Id) && ModulesFit(cfg, m)
  {
    hide ConfigOk, ScopeOf, Collect, Readable, ShowsAll, Differ, ModulesFit, ListErrors, Sort, AllHold, ItemsInOrder;
    ListReads(rules, cfg, AssignmentKind, a);
    ListReads(rules, cfg, AnnouncementKind, n);
    ListReads(rules, cfg, ModuleKind, m);
    var ar, nr, mr := Collect(rules, cfg, AssignmentKind, a), Collect(rules, cfg, AnnouncementKind, n), Collect(rules, cfg, ModuleKind, m);
    if ar.Ok? && nr.Ok? && mr.Ok? {
      ModulesHold(rules, cfg, m);
      ListsExactly(rules, cfg, a, n, m, ar.value, nr.value, mr.value);
    }
  }

  /** `validate_snapshot` accepts a document exactly when it is a complete snapshot of the configured course. */
  lemma AcceptsExactly(rules: Rules, cfg: Config, raw: Json)
    ensures Validate(rules, cfg, raw).Ok? <==> Acceptable(rules, cfg, raw)
  {
    hide Front, FromLists, Readable, Differ, ModulesFit, SoundConfig, NothingForbidden, Shows, ConfigOk;
    FrontExactly(rules, cfg, raw);
    if Front(rules, cfg, raw).Ok? {
      var o := raw.fields;
      AfterFront(rules, cfg, Front(rules, cfg, raw).value, o[Assignments].elements, o[Announcements].elements, o[Modules].elements);
    }
  }

  // ---------------------------------------------------------------------------------------
  // The payload of an accepted document

  /** The address by which a record is listed. */
  function Address(cfg: Config, part: string, r: Record): string
    requires !r.Payload?
  {
    cfg.origin + "/courses/" + J.IntText(cfg.courseId) + part + J.IntText(r.id)
  }

  /** By address, in code point order. */
  ghost predicate ByAddress(cfg: Config, part: string, rs: seq<Record>) {
    && (forall i :: 0 <= i < |rs| ==> !rs[i].Payload?)
    && forall i, j :: 0 <= i < j < |rs| ==> J.Precedes(Address(cfg, part, rs[i]), Address(cfg, part, rs[j]))
  }

  ghost predicate ByPosition(ms: seq<Record>) {
    && (forall i :: 0 <= i < |ms| ==> ms[i].Module?)
    && forall i, j :: 0 <= i < j < |ms| ==> ms[i].position < ms[j].position
  }

  lemma AddressIsUrl(cfg: Config, kind: Kind, r: Record)
    requires kind in {AssignmentKind, AnnouncementKind} && OfKind(kind, r)
    ensures RankOf(cfg, r) == Text(Address(cfg, if kind == AssignmentKind then "/assignments/" else "/discussion_topics/", r))
  {
    assert Number(r.id) == J.IntText(r.id) && Number(cfg.courseId) == J.IntText(cfg.courseId);
    hide Number, J.IntText;
  }

  lemma SortedByAddress(cfg: Config, kind: Kind, rs: seq<Record>)
    requires kind in {AssignmentKind, AnnouncementKind} && AllOfKind(kind, rs) && AllDifferent(Urls(cfg, rs))
    ensures ByAddress(cfg, if kind == AssignmentKind then "/assignments/" else "/discussion_topics/", Sort(cfg, rs))
  {
    hide Sort, AllDifferent, RankOf, Address, J.Precedes, Urls;
    SortKeeps(cfg, kind, rs);
    SortSorts(cfg, rs);
    var s := Sort(cfg, rs);
    UrlsGiveRanks(cfg, kind, s);
    forall i | 0 <= i < |s| ensures !s[i].Payload? { assert OfKind(kind, s[i]); }
    var part := if kind == AssignmentKind then "/assignments/" else "/discussion_topics/";
    forall i, j | 0 <= i < j < |s| ensures J.Precedes(Address(cfg, part, s[i]), Address(cfg, part, s[j])) {
      assert OfKind(kind, s[i]) && OfKind(kind, s[j]);
      AddressIsUrl(cfg, kind, s[i]);
      AddressIsUrl(cfg, kind, s[j]);
      J.LessExactly(Address(cfg, part, s[i]), Address(cfg, part, s[j]));
    }
  }

  lemma SortedByPosition(cfg: Config, ms: seq<Record>)
    requires AllOfKind(ModuleKind, ms) && AllDifferent(Positions(ms))
    ensures ByPosition(Sort(cfg, ms))
  {
    hide Sort, AllDifferent, Positions;
    SortKeeps(cfg, ModuleKind, ms);
    SortSorts(cfg, ms);
    var s := Sort(cfg, ms);
    PositionsGiveRanks(cfg, s);
    forall i | 0 <= i < |s| ensures s[i].Module? { assert OfKind(ModuleKind, s[i]); }
  }

  /** A list of the payload: the records that the raw elements show, by address. */
  ghost predicate ListsRecords(rules: Rules, cfg: Config, kind: Kind, part: string, js: seq<Json>, rs: seq<Record>) {
    Holds(rules, cfg, kind, js, rs) && ByAddress(cfg, part, rs)
  }

  /** The modules of the payload: each with its items, by position. */
  ghost predicate ListsModules(rules: Rules, cfg: Config, js: seq<Json>, ms: seq<Record>) {
    && ByPosition(ms)
    && exists shown: seq<Record> ::
      && ShowsAll(rules, cfg, ModuleKind, js, shown) && AllHold(rules, cfg, js, shown) && multiset(ms) == multiset(shown)
      && forall i :: 0 <= i < |shown| ==> ItemsInOrder(shown[i].items)
  }

  /** What an accepted document becomes: the cleaned configuration, the course, and the three lists in order. */
  lemma AcceptedShows(rules: Rules, cfg: Config, raw: Json)
    requires Validate(rules, cfg, raw).Ok?
    ensures Acceptable(rules, cfg, raw)
    ensures var p := Validate(rules, cfg, raw).value;
      var o := raw.fields;
      && p.Payload?
      && p.scope == Config(cfg.courseId, rules.clean(cfg.name).value, rules.clean(cfg.code).value, rules.clean(cfg.term).value, cfg.origin, cfg.positions)
      && Shows(rules, cfg, CourseKind, o[CourseField], p.course)
      && ListsRecords(rules, cfg, AssignmentKind, "/assignments/", o[Assignments].elements, p.assignments)
      && ListsRecords(rules, cfg, AnnouncementKind, "/discussion_topics/", o[Announcements].elements, p.announcements)
      && ListsModules(rules, cfg, o[Modules].elements, p.modules)
  {
    AcceptsExactly(rules, cfg, raw);
    FrontExactly(rules, cfg, raw);
    ConfigExactly(rules, cfg);
    hide Front, FromLists, Shows, ConfigOk, ScopeOf, ListsRecords, ListsModules, Readable, Differ, ModulesFit, NothingForbidden;
    var o := raw.fields;
    ListsShow(rules, cfg, Front(rules, cfg, raw).value, o[Assignments].elements, o[Announcements].elements, o[Modules].elements);
  }

  lemma ListsShow(rules: Rules, cfg: Config, course: Record, a: seq<Json>, n: seq<Json>, m: seq<Json>)
    requires ConfigOk(rules, cfg) && FromLists(rules, cfg, course, a, n, m).Ok?
    ensures var p := FromLists(rules, cfg, course, a, n, m).value;
      && p.Payload? && p.scope == ScopeOf(rules, cfg) && p.course == course
      && ListsRecords(rules, cfg, AssignmentKind, "/assignments/", a, p.assignments)
      && ListsRecords(rules, cfg, AnnouncementKind, "/discussion_topics/", n, p.announcements)
      && ListsModules(rules, cfg, m, p.modules)
  {
    hide ConfigOk, ScopeOf, Collect, Readable, ShowsAll, Sort, AllHold, ItemsInOrder, AllDifferent, Urls, Positions, ItemsOf, Elements, ByAddress, ByPosition;
    var ar, nr, mr := Collect(rules, cfg, AssignmentKind, a), Collect(rules, cfg, AnnouncementKind, n), Collect(rules, cfg, ModuleKind, m);
    ListShows(rules, cfg, AssignmentKind, a);
    ListShows(rules, cfg, AnnouncementKind, n);
    ListReads(rules, cfg, ModuleKind, m);
    ModulesHold(rules, cfg, m);
    CollectKind(rules, cfg, ModuleKind, m);
    SortSorts(cfg, mr.value);
    SortedByPosition(cfg, mr.value);
  }

  lemma ListShows(rules: Rules, cfg: Config, kind: Kind, js: seq<Json>)
    requires kind in {AssignmentKind, AnnouncementKind} && Collect(rules, cfg, kind, js).Ok?
    requires AllDifferent(Urls(cfg, Collect(rules, cfg, kind, js).value))
    ensures ListsRecords(rules, cfg, kind, if kind == AssignmentKind then "/assignments/" else "/discussion_topics/", js, Sort(cfg, Collect(rules, cfg, kind, js).value))
  {
    hide Collect, ShowsAll, Sort, AllDifferent, Urls, ByAddress, Readable;
    var rs := Collect(rules, cfg, kind, js).value;
    ListReads(rules, cfg, kind, js);
    CollectKind(rules, cfg, kind, js);
    SortSorts(cfg, rs);
    SortedByAddress(cfg, kind, rs);
  }

  // ---------------------------------------------------------------------------------------
  // Stored documents

  /** The configuration that a stored payload states. */
  ghost predicate States(payload: map<Key, Json>, cfg: Config) {
    && ScopeField in payload && payload[ScopeField].Obj? && Has(payload, Origin, Str(cfg.origin))
    && var scope := payload[ScopeField].fields;
    && Has(scope, CourseId, Int(cfg.courseId)) && Has(scope, ExpectedName, Str(cfg.name)) && Has(scope, ExpectedCode, Str(cfg.code))
    && Has(scope, ExpectedTerm, Str(cfg.term)) && StatesPositions(scope, cfg.positions)
  }

  ghost predicate StatesPositions(scope: map<Key, Json>, positions: Option<set<int>>) {
    if ModulePositions !in scope || scope[ModulePositions].Null? then positions == None
    else
      && positions.Some? && scope[ModulePositions].Arr?
      && (forall j :: j in scope[ModulePositions].elements ==> j.Int? && j.i > 0)
      && (forall p :: p in positions.value <==> Int(p) in scope[ModulePositions].elements)
  }

  lemma PositionsExactly(scope: map<Key, Json>, positions: Option<set<int>>)
    ensures PositionsOf(Get(scope, ModulePositions)) == Ok(positions) <==> StatesPositions(scope, positions)
  {
    var v := Get(scope, ModulePositions);
    if v.Arr? && forall j :: j in v.elements ==> j.Int? && j.i > 0 {
      var found := set j | j in v.elements :: if j.Int? then j.i else 0;
      forall p ensures p in found <==> Int(p) in v.elements {
        if p in found { var j :| j in v.elements && (if j.Int? then j.i else 0) == p; }
      }
      assert PositionsOf(v) == Ok(Some(found));
      if positions.Some? && forall p :: p in positions.value <==> Int(p) in v.elements {
        assert forall p :: p in positions.value <==> p in found;
        assert positions.value == found;
      }
    }
  }

  lemma ScopeExactly(payload: map<Key, Json>, cfg: Config)
    ensures ScopeFrom(payload) == Ok(cfg) <==> States(payload, cfg)
  {
    if Get(payload, ScopeField).Obj? { PositionsExactly(payload[ScopeField].fields, cfg.positions); }
    hide PositionsOf, StatesPositions;
  }

  /** A stored document: complete, with a hash of 64 lower-case hex digits that is the payload's own. */
  ghost predicate Stored(rules: Rules, document: Json, payload: map<Key, Json>, p: Record) {
    && document.Obj? && Has(document.fields, Status, Str("complete")) && Has(document.fields, SnapshotField, Obj(payload))
    && Has(document.fields, SnapshotHash, Str(rules.digest(p)))
    && |rules.digest(p)| == 64 && forall i :: 0 <= i < 64 ==> rules.digest(p)[i] in "0123456789abcdef"
  }

  /** A document is read back exactly when its payload validates, under the configuration it states, to the record it is the hash of. */
  lemma ReadsBackExactly(rules: Rules, document: Json, p: Record)
    ensures FromDocument(rules, document) == Ok(p) <==>
      exists payload, cfg :: Stored(rules, document, payload, p) && States(payload, cfg) && Validate(rules, cfg, Obj(RawFrom(payload))) == Ok(p)
  {
    hide Validate, States, ScopeFrom, RawFrom, Hex64;
    HexExactly(rules.digest(p));
    if FromDocument(rules, document) == Ok(p) {
      var payload := document.fields[SnapshotField].fields;
      var cfg := ScopeFrom(payload).value;
      ScopeExactly(payload, cfg);
      assert Stored(rules, document, payload, p);
    }
    if payload, cfg :| Stored(rules, document, payload, p) && States(payload, cfg) && Validate(rules, cfg, Obj(RawFrom(payload))) == Ok(p) {
      ScopeExactly(payload, cfg);
    }
  }

  lemma HexExactly(s: string)
    ensures Hex64(s) <==> |s| == 64 && forall i :: 0 <= i < 64 ==> s[i] in "0123456789abcdef"
  {
    forall i | 0 <= i < |s| ensures ('0' <= s[i] <= '9' || 'a' <= s[i] <= 'f') <==> s[i] in "0123456789abcdef" { HexDigitExactly(s[i]); }
  }

  lemma HexDigitExactly(c: char)
    ensures ('0' <= c <= '9' || 'a' <= c <= 'f') <==> c in "0123456789abcdef"
  {
    var d := "0123456789abcdef";
    assert |d| == 16;
    if '0' <= c <= '9' { assert d[c as int - '0' as int] == c; }
    if 'a' <= c <= 'f' { assert d[c as int - 'a' as int + 10] == c; }
  }
}
