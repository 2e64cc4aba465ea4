/**
  The order of lists in a snapshot does not matter: documents that differ only in the order of assignments,
  announcements, modules, or items of a module are both accepted, with the same payload, or both rejected.
 */
module SnapshotOrder {
  import opened Wrappers
  import opened Snapshot
  import J = CanonicalJson

  // ---------------------------------------------------------------------------------------
  // Permutations, by taking out one element

  lemma TakeOut<T>(x: T, s: seq<T>) returns (p: seq<T>, q: seq<T>)
    requires x in multiset(s)
    ensures s == p + [x] + q && multiset(p + q) == multiset(s) - multiset{x}
  {
    var i :| 0 <= i < |s| && s[i] == x;
    p, q := s[..i], s[i + 1..];
    assert s == p + [x] + q;
  }

  lemma HeadAndTail<T>(s: seq<T>)
    requires s != []
    ensures s == [s[0]] + s[1..] && multiset(s[1..]) == multiset(s) - multiset{s[0]} && s[0] in multiset(s)
  {
    assert s == [s[0]] + s[1..];
  }

  // ---------------------------------------------------------------------------------------
  // The order of ranks, and sorting

  lemma RankTotal(a: Rank, b: Rank)
    ensures RankLe(a, b) || RankLe(b, a)
    ensures RankLe(a, b) && RankLe(b, a) ==> a == b
  {
    if a.Text? && b.Text? { J.LessIsTotal(a.text, b.text); }
  }

  lemma RankTransitive(a: Rank, b: Rank, c: Rank)
    requires RankLe(a, b) && RankLe(b, c)
    ensures RankLe(a, c)
  {
    if a.Text? && b.Text? && c.Text? && J.Less(a.text, b.text) && J.Less(b.text, c.text) { J.LessIsTransitive(a.text, b.text, c.text); }
  }

  ghost predicate Sorted(cfg: Config, s: seq<Record>) {
    forall i, j :: 0 <= i < j < |s| ==> RankLe(RankOf(cfg, s[i]), RankOf(cfg, s[j]))
  }

  /** No two records of the list have the same rank. */
  ghost predicate RanksDiffer(cfg: Config, s: seq<Record>) {
    forall i, j :: 0 <= i < j < |s| ==> RankOf(cfg, s[i]) != RankOf(cfg, s[j])
  }

  lemma {:induction false} InsertAdds(cfg: Config, r: Record, s: seq<Record>)
    ensures multiset(Insert(cfg, r, s)) == multiset(s) + multiset{r}
  {
    hide RankOf, RankLe;
    if s != [] {
      HeadAndTail(s);
      InsertAdds(cfg, r, s[1..]);
    }
  }

  lemma SortedCons(cfg: Config, r: Record, s: seq<Record>)
    requires Sorted(cfg, s) && forall j :: 0 <= j < |s| ==> RankLe(RankOf(cfg, r), RankOf(cfg, s[j]))
    ensures Sorted(cfg, [r] + s)
  {
    hide RankOf, RankLe;
  }

  lemma {:induction false} InsertSorts(cfg: Config, r: Record, s: seq<Record>)
    requires Sorted(cfg, s)
    ensures Sorted(cfg, Insert(cfg, r, s))
  {
    hide RankOf, RankLe;
    if s != [] {
      RankTotal(RankOf(cfg, r), RankOf(cfg, s[0]));
      if RankLe(RankOf(cfg, r), RankOf(cfg, s[0])) {
        forall j | 0 <= j < |s| ensures RankLe(RankOf(cfg, r), RankOf(cfg, s[j])) {
          if j > 0 { RankTransitive(RankOf(cfg, r), RankOf(cfg, s[0]), RankOf(cfg, s[j])); }
        }
        SortedCons(cfg, r, s);
      } else {
        InsertSorts(cfg, r, s[1..]);
        var t := Insert(cfg, r, s[1..]);
        forall j | 0 <= j < |t| ensures RankLe(RankOf(cfg, s[0]), RankOf(cfg, t[j])) {
          InsertedFrom(cfg, r, s[1..], j);
        }
        SortedCons(cfg, s[0], t);
      }
    }
  }

  lemma InsertedFrom(cfg: Config, r: Record, s: seq<Record>, j: nat)
    requires j < |Insert(cfg, r, s)|
    ensures Insert(cfg, r, s)[j] == r || exists k :: 0 <= k < |s| && s[k] == Insert(cfg, r, s)[j]
  {
    var x := Insert(cfg, r, s)[j];
    InsertAdds(cfg, r, s);
    assert x in multiset(Insert(cfg, r, s));
    hide Insert;
    if x != r { assert x in multiset(s); }
  }

  lemma {:induction false} SortSorts(cfg: Config, s: seq<Record>)
    ensures Sorted(cfg, Sort(cfg, s)) && multiset(Sort(cfg, s)) == multiset(s) && |Sort(cfg, s)| == |s|
  {
    if s != [] {
      HeadAndTail(s);
      SortSorts(cfg, s[1..]);
      InsertSorts(cfg, s[0], Sort(cfg, s[1..]));
      InsertAdds(cfg, s[0], Sort(cfg, s[1..]));
    }
    assert |multiset(Sort(cfg, s))| == |Sort(cfg, s)|;
  }

  lemma SameHead(cfg: Config, a: seq<Record>, b: seq<Record>)
    requires Sorted(cfg, a) && Sorted(cfg, b) && multiset(a) == multiset(b) && RanksDiffer(cfg, a) && a != [] && b != []
    ensures a[0] == b[0]
  {
    hide RankOf, RankLe;
    HeadAndTail(a);
    HeadAndTail(b);
    var i :| 0 <= i < |a| && a[i] == b[0];
    var j :| 0 <= j < |b| && b[j] == a[0];
    RankTotal(RankOf(cfg, a[0]), RankOf(cfg, b[0]));
  }

  /** Two sorted lists of the same records, no two of equal rank, are the same list. */
  lemma {:induction false} SortedUnique(cfg: Config, a: seq<Record>, b: seq<Record>)
    requires Sorted(cfg, a) && Sorted(cfg, b) && multiset(a) == multiset(b) && RanksDiffer(cfg, a)
    ensures a == b
    decreases |a|
  {
    hide RankOf, RankLe;
    assert |a| == |multiset(a)| == |multiset(b)| == |b|;
    if a != [] {
      SameHead(cfg, a, b);
      HeadAndTail(a);
      HeadAndTail(b);
      SortedUnique(cfg, a[1..], b[1..]);
    }
  }

  lemma SortOfPermutation(cfg: Config, a: seq<Record>, b: seq<Record>)
    requires multiset(a) == multiset(b) && RanksDiffer(cfg, Sort(cfg, a))
    ensures Sort(cfg, a) == Sort(cfg, b)
  {
    SortSorts(cfg, a);
    SortSorts(cfg, b);
    SortedUnique(cfg, Sort(cfg, a), Sort(cfg, b));
  }

  // ---------------------------------------------------------------------------------------
  // len(set(s)) == len(s)

  lemma ElementsConcat<T>(a: seq<T>, b: seq<T>)
    ensures Elements(a + b) == Elements(a) + Elements(b)
  {
  }

  lemma {:induction false} ElementsBound<T>(s: seq<T>)
    ensures |Elements(s)| <= |s|
  {
    if s != [] {
      HeadAndTail(s);
      ElementsConcat([s[0]], s[1..]);
      ElementsBound(s[1..]);
      assert Elements([s[0]]) == {s[0]};
    }
  }

  lemma DifferentParts<T>(a: seq<T>, b: seq<T>)
    requires AllDifferent(a + b)
    ensures AllDifferent(a) && AllDifferent(b)
  {
    ElementsConcat(a, b);
    ElementsBound(a);
    ElementsBound(b);
  }

  lemma {:induction false} DifferentPairs<T>(s: seq<T>, i: nat, j: nat)
    requires AllDifferent(s) && i < j < |s|
    ensures s[i] != s[j]
  {
    HeadAndTail(s);
    DifferentParts([s[0]], s[1..]);
    if i == 0 {
      ElementsConcat([s[0]], s[1..]);
      ElementsBound(s[1..]);
      assert Elements([s[0]]) == {s[0]};
      assert s[1..][j - 1] in Elements(s[1..]);
    } else {
      DifferentPairs(s[1..], i - 1, j - 1);
    }
  }

  lemma PermutedElements<T>(a: seq<T>, b: seq<T>)
    requires multiset(a) == multiset(b)
    ensures Elements(a) == Elements(b) && |a| == |b| && (AllDifferent(a) <==> AllDifferent(b))
  {
    assert forall x :: x in a <==> x in multiset(a);
    assert forall x :: x in b <==> x in multiset(b);
    assert Elements(a) == Elements(b);
    assert |a| == |multiset(a)| == |multiset(b)| == |b|;
  }

  // ---------------------------------------------------------------------------------------
  // Collected lists of permuted records

  lemma {:induction false} UrlsConcat(cfg: Config, a: seq<Record>, b: seq<Record>)
    ensures Urls(cfg, a + b) == Urls(cfg, a) + Urls(cfg, b)
  {
    hide Url;
    if a == [] {
      assert a + b == b;
    } else {
      assert (a + b)[1..] == a[1..] + b && (a + b)[0] == a[0];
      UrlsConcat(cfg, a[1..], b);
      assert Urls(cfg, a) == Urls(cfg, [a[0]]) + Urls(cfg, a[1..]);
    }
  }

  lemma {:induction false} PositionsConcat(a: seq<Record>, b: seq<Record>)
    ensures Positions(a + b) == Positions(a) + Positions(b)
  {
    if a == [] {
      assert a + b == b;
    } else {
      assert (a + b)[1..] == a[1..] + b && (a + b)[0] == a[0];
      PositionsConcat(a[1..], b);
    }
  }

  lemma {:induction false} ItemsConcat(a: seq<Record>, b: seq<Record>)
    ensures ItemsOf(a + b) == ItemsOf(a) + ItemsOf(b)
  {
    if a == [] {
      assert a + b == b;
    } else {
      assert (a + b)[1..] == a[1..] + b && (a + b)[0] == a[0];
      ItemsConcat(a[1..], b);
      var x := if a[0].Module? then a[0].items else [];
      assert x + (ItemsOf(a[1..]) + ItemsOf(b)) == (x + ItemsOf(a[1..])) + ItemsOf(b);
    }
  }

  lemma {:induction false} UrlsPermuted(cfg: Config, a: seq<Record>, b: seq<Record>)
    requires multiset(a) == multiset(b)
    ensures multiset(Urls(cfg, a)) == multiset(Urls(cfg, b))
    decreases |a|
  {
    if a == [] {
      assert |multiset(b)| == 0;
    } else {
      HeadAndTail(a);
      var p, q := TakeOut(a[0], b);
      hide Urls;
      UrlsPermuted(cfg, a[1..], p + q);
      UrlsConcat(cfg, [a[0]], a[1..]);
      UrlsConcat(cfg, p, q);
      UrlsConcat(cfg, p, [a[0]]);
      UrlsConcat(cfg, p + [a[0]], q);
    }
  }

  lemma {:induction false} PositionsPermuted(a: seq<Record>, b: seq<Record>)
    requires multiset(a) == multiset(b)
    ensures multiset(Positions(a)) == multiset(Positions(b))
    decreases |a|
  {
    if a == [] {
      assert |multiset(b)| == 0;
    } else {
      HeadAndTail(a);
      var p, q := TakeOut(a[0], b);
      hide Positions;
      PositionsPermuted(a[1..], p + q);
      PositionsConcat([a[0]], a[1..]);
      PositionsConcat(p, q);
      PositionsConcat(p, [a[0]]);
      PositionsConcat(p + [a[0]], q);
    }
  }

  lemma {:induction false} ItemsPermuted(a: seq<Record>, b: seq<Record>)
    requires multiset(a) == multiset(b)
    ensures multiset(ItemsOf(a)) == multiset(ItemsOf(b))
    decreases |a|
  {
    if a == [] {
      assert |multiset(b)| == 0;
    } else {
      HeadAndTail(a);
      var p, q := TakeOut(a[0], b);
      hide ItemsOf;
      ItemsPermuted(a[1..], p + q);
      ItemsConcat([a[0]], a[1..]);
      ItemsConcat(p, q);
      ItemsConcat(p, [a[0]]);
      ItemsConcat(p + [a[0]], q);
    }
  }

  // ---------------------------------------------------------------------------------------
  // Different keys mean different ranks

  predicate OfKind(kind: Kind, r: Record) {
    match kind
    case CourseKind => r.Course?
    case AssignmentKind => r.Assignment?
    case AnnouncementKind => r.Announcement?
    case ItemKind => r.Item?
    case ModuleKind => r.Module?
  }

  predicate AllOfKind(kind: Kind, rs: seq<Record>) { forall r :: r in rs ==> OfKind(kind, r) }

  lemma {:induction false} UrlsAt(cfg: Config, rs: seq<Record>, i: nat)
    requires i < |rs|
    ensures |Urls(cfg, rs)| == |rs| == |Positions(rs)|
    ensures !rs[i].Payload? ==> Urls(cfg, rs)[i] == Url(cfg, rs[i])
    ensures rs[i].Module? ==> Positions(rs)[i] == rs[i].position
  {
    hide Url;
    if i > 0 { UrlsAt(cfg, rs[1..], i - 1); } else if |rs| > 1 { UrlsAt(cfg, rs[1..], 0); }
  }

  lemma UrlsGiveRanks(cfg: Config, kind: Kind, rs: seq<Record>)
    requires kind in {AssignmentKind, AnnouncementKind, ItemKind} && AllOfKind(kind, rs) && AllDifferent(Urls(cfg, rs))
    ensures RanksDiffer(cfg, rs)
  {
    forall i, j | 0 <= i < j < |rs| ensures RankOf(cfg, rs[i]) != RankOf(cfg, rs[j]) {
      UrlsAt(cfg, rs, i);
      UrlsAt(cfg, rs, j);
      DifferentPairs(Urls(cfg, rs), i, j);
      assert OfKind(kind, rs[i]) && OfKind(kind, rs[j]);
    }
  }

  lemma PositionsGiveRanks(cfg: Config, rs: seq<Record>)
    requires AllOfKind(ModuleKind, rs) && AllDifferent(Positions(rs))
    ensures RanksDiffer(cfg, rs)
  {
    forall i, j | 0 <= i < j < |rs| ensures RankOf(cfg, rs[i]) != RankOf(cfg, rs[j]) {
      UrlsAt(cfg, rs, i);
      UrlsAt(cfg, rs, j);
      DifferentPairs(Positions(rs), i, j);
      assert OfKind(ModuleKind, rs[i]) && OfKind(ModuleKind, rs[j]);
    }
  }

  /** The records of a kind keep it, and their keys stay different, when they are sorted. */
  lemma SortKeeps(cfg: Config, kind: Kind, rs: seq<Record>)
    ensures var s := Sort(cfg, rs);
      && (AllOfKind(kind, rs) <==> AllOfKind(kind, s))
      && (AllDifferent(Urls(cfg, s)) <==> AllDifferent(Urls(cfg, rs)))
      && (AllDifferent(Positions(s)) <==> AllDifferent(Positions(rs)))
      && Elements(Positions(s)) == Elements(Positions(rs))
      && (AllDifferent(Urls(cfg, ItemsOf(s))) <==> AllDifferent(Urls(cfg, ItemsOf(rs))))
  {
    var s := Sort(cfg, rs);
    SortSorts(cfg, rs);
    SamePermuted(cfg, kind, rs, s);
  }

  lemma SamePermuted(cfg: Config, kind: Kind, rs: seq<Record>, s: seq<Record>)
    requires multiset(rs) == multiset(s)
    ensures AllOfKind(kind, rs) <==> AllOfKind(kind, s)
    ensures AllDifferent(Urls(cfg, s)) <==> AllDifferent(Urls(cfg, rs))
    ensures AllDifferent(Positions(s)) <==> AllDifferent(Positions(rs))
    ensures Elements(Positions(s)) == Elements(Positions(rs))
    ensures AllDifferent(Urls(cfg, ItemsOf(s))) <==> AllDifferent(Urls(cfg, ItemsOf(rs)))
  {
    UrlsPermuted(cfg, rs, s);
    PositionsPermuted(rs, s);
    ItemsPermuted(rs, s);
    UrlsPermuted(cfg, ItemsOf(rs), ItemsOf(s));
    PermutedElements(Urls(cfg, rs), Urls(cfg, s));
    PermutedElements(Positions(rs), Positions(s));
    PermutedElements(Urls(cfg, ItemsOf(rs)), Urls(cfg, ItemsOf(s)));
    assert forall r :: r in rs <==> r in multiset(rs);
    assert forall r :: r in s <==> r in multiset(s);
  }

  // ---------------------------------------------------------------------------------------
  // Validating permuted lists

  lemma {:induction false} CollectKind(rules: Rules, cfg: Config, kind: Kind, js: seq<Json>)
    ensures var c := Collect(rules, cfg, kind, js); c.Ok? ==> AllOfKind(kind, c.value) && |c.value| == |js|
    decreases |js|
  {
    if js != [] {
      OneKind(rules, cfg, kind, js[0]);
      hide ValidateOne, OfKind;
      CollectKind(rules, cfg, kind, js[1..]);
    }
  }

  lemma OneKind(rules: Rules, cfg: Config, kind: Kind, j: Json)
    ensures ValidateOne(rules, cfg, kind, j).Ok? ==> OfKind(kind, ValidateOne(rules, cfg, kind, j).value)
  {
    hide Collect, Label, Sort;
  }

  lemma {:induction false} CollectConcat(rules: Rules, cfg: Config, kind: Kind, a: seq<Json>, b: seq<Json>)
    ensures var c, x, y := Collect(rules, cfg, kind, a + b), Collect(rules, cfg, kind, a), Collect(rules, cfg, kind, b);
      (c.Ok? <==> x.Ok? && y.Ok?) && (c.Ok? ==> c.value == x.value + y.value)
    decreases |a|
  {
    hide ValidateOne;
    if a == [] {
      assert a + b == b;
    } else {
      assert (a + b)[1..] == a[1..] + b;
      CollectConcat(rules, cfg, kind, a[1..], b);
    }
  }

  lemma {:induction false} CollectPermuted(rules: Rules, cfg: Config, kind: Kind, a: seq<Json>, b: seq<Json>)
    requires multiset(a) == multiset(b)
    ensures var x, y := Collect(rules, cfg, kind, a), Collect(rules, cfg, kind, b);
      (x.Ok? <==> y.Ok?) && (x.Ok? ==> multiset(x.value) == multiset(y.value))
    decreases |a|
  {
    if a == [] {
      assert |multiset(b)| == 0;
    } else {
      HeadAndTail(a);
      var p, q := TakeOut(a[0], b);
      hide Collect;
      CollectPermuted(rules, cfg, kind, a[1..], p + q);
      CollectConcat(rules, cfg, kind, [a[0]], a[1..]);
      CollectConcat(rules, cfg, kind, p, q);
      CollectConcat(rules, cfg, kind, p + [a[0]], q);
      CollectConcat(rules, cfg, kind, p, [a[0]]);
    }
  }

  // ---------------------------------------------------------------------------------------
  // Modules whose items are permuted

  /** The same module document, up to the order of its items. */
  predicate ModuleAlike(m: Json, n: Json) {
    || m == n
    || (m.Obj? && n.Obj? && Get(m.fields, Items).Arr? && Get(n.fields, Items).Arr?
        && n == Obj(m.fields[Items := n.fields[Items]])
        && multiset(m.fields[Items].elements) == multiset(n.fields[Items].elements))
  }

  /** The same module record, up to the order of equally ranked items. */
  ghost predicate Similar(cfg: Config, m: Record, n: Record) {
    && m.Module? && n.Module? && n == m.(items := n.items) && multiset(m.items) == multiset(n.items)
    && Sorted(cfg, m.items) && Sorted(cfg, n.items) && AllOfKind(ItemKind, m.items)
  }

  lemma AlikeValidated(rules: Rules, cfg: Config, m: Json, n: Json)
    requires ModuleAlike(m, n)
    ensures var x, y := ValidateModule(rules, cfg, m), ValidateModule(rules, cfg, n);
      (x.Ok? <==> y.Ok?) && (x.Ok? ==> Similar(cfg, x.value, y.value))
  {
    if m.Obj? && ModuleHead(rules, cfg, m.fields).Ok? {
      CollectKind(rules, cfg, ItemKind, m.fields[Items].elements);
      HeadAlike(rules, cfg, m, n);
      hide Collect, ModuleHead, Sort, Sorted, AllOfKind, OfKind;
      var a, b := m.fields[Items].elements, n.fields[Items].elements;
      CollectPermuted(rules, cfg, ItemKind, a, b);
      var x, y := Collect(rules, cfg, ItemKind, a), Collect(rules, cfg, ItemKind, b);
      if x.Ok? {
        SortSorts(cfg, x.value);
        SortSorts(cfg, y.value);
        SortKeeps(cfg, ItemKind, x.value);
      }
    } else if m != n {
      HeadAlike(rules, cfg, m, n);
    }
  }

  lemma HeadAlike(rules: Rules, cfg: Config, m: Json, n: Json)
    requires ModuleAlike(m, n) && m.Obj?
    ensures n.Obj? && ModuleHead(rules, cfg, m.fields) == ModuleHead(rules, cfg, n.fields)
  {
    hide Label;
    if m != n {
      var a, b := m.fields[Items].elements, n.fields[Items].elements;
      assert |a| == |multiset(a)| == |multiset(b)| == |b|;
    }
  }

  ghost predicate AllSimilar(cfg: Config, ms: seq<Record>, ns: seq<Record>) {
    |ms| == |ns| && forall i :: 0 <= i < |ms| ==> Similar(cfg, ms[i], ns[i])
  }

  lemma {:induction false} AllAlikeValidated(rules: Rules, cfg: Config, ms: seq<Json>, ns: seq<Json>)
    requires |ms| == |ns| && forall i :: 0 <= i < |ms| ==> ModuleAlike(ms[i], ns[i])
    ensures var x, y := Collect(rules, cfg, ModuleKind, ms), Collect(rules, cfg, ModuleKind, ns);
      (x.Ok? <==> y.Ok?) && (x.Ok? ==> AllSimilar(cfg, x.value, y.value))
    decreases |ms|
  {
    hide ModuleAlike, ValidateModule, Similar, Sort;
    if ms != [] {
      AlikeValidated(rules, cfg, ms[0], ns[0]);
      AllAlikeValidated(rules, cfg, ms[1..], ns[1..]);
    }
  }

  lemma {:induction false} SimilarUrls(cfg: Config, ms: seq<Record>, ns: seq<Record>)
    requires AllSimilar(cfg, ms, ns)
    ensures Urls(cfg, ms) == Urls(cfg, ns) && Positions(ms) == Positions(ns)
  {
    hide Sorted, AllOfKind, CourseUrl, Number;
    if ms != [] {
      assert Similar(cfg, ms[0], ns[0]);
      SimilarUrls(cfg, ms[1..], ns[1..]);
    }
  }

  lemma {:induction false} SimilarItems(cfg: Config, ms: seq<Record>, ns: seq<Record>)
    requires AllSimilar(cfg, ms, ns)
    ensures multiset(ItemsOf(ms)) == multiset(ItemsOf(ns))
  {
    hide Sorted, AllOfKind;
    if ms != [] {
      assert Similar(cfg, ms[0], ns[0]);
      SimilarItems(cfg, ms[1..], ns[1..]);
    }
  }

  /** When all item urls differ, similar modules are equal. */
  lemma {:induction false} SimilarEqual(cfg: Config, ms: seq<Record>, ns: seq<Record>)
    requires AllSimilar(cfg, ms, ns) && AllDifferent(Urls(cfg, ItemsOf(ms)))
    ensures ms == ns
  {
    if ms != [] {
      assert Similar(cfg, ms[0], ns[0]);
      UrlsConcat(cfg, ms[0].items, ItemsOf(ms[1..]));
      DifferentParts(Urls(cfg, ms[0].items), Urls(cfg, ItemsOf(ms[1..])));
      UrlsGiveRanks(cfg, ItemKind, ms[0].items);
      SortedUnique(cfg, ms[0].items, ns[0].items);
      SimilarEqual(cfg, ms[1..], ns[1..]);
    }
  }

  // ---------------------------------------------------------------------------------------
  // Forbidden fields

  datatype Step = Field(key: Key) | Element(i: nat)

  /** What a path leads to. */
  function At(j: Json, path: seq<Step>): Option<Json>
    decreases |path|
  {
    if path == [] then Some(j)
    else
      match path[0]
      case Field(k) => if j.Obj? && k in j.fields then At(j.fields[k], path[1..]) else None
      case Element(i) => if j.Arr? && i < |j.elements| then At(j.elements[i], path[1..]) else None
  }

  /** Some path leads to an object with a forbidden field name. */
  ghost predicate HasForbidden(rules: Rules, j: Json) { exists path: seq<Step>, k :: ForbiddenAt(rules, j, path, k) }

  predicate ForbiddenAt(rules: Rules, j: Json, path: seq<Step>, k: Key) {
    At(j, path).Some? && At(j, path).value.Obj? && k in At(j, path).value.fields && !NameAllowed(rules, k)
  }

  lemma {:induction false} AllowedEverywhere(rules: Rules, j: Json, path: seq<Step>)
    requires Allowed(rules, j) && At(j, path).Some?
    ensures Allowed(rules, At(j, path).value)
    decreases |path|
  {
    hide NameAllowed;
    if path != [] {
      match path[0]
      case Field(k) => AllowedEverywhere(rules, j.fields[k], path[1..]);
      case Element(i) => AllowedEverywhere(rules, j.elements[i], path[1..]);
    }
  }

  lemma Below(rules: Rules, j: Json, s: Step, path: seq<Step>, k: Key)
    requires At(j, [s]).Some? && ForbiddenAt(rules, At(j, [s]).value, path, k)
    ensures ForbiddenAt(rules, j, [s] + path, k)
  {
    assert ([s] + path)[1..] == path;
  }

  lemma {:induction false} ForbiddenSomewhere(rules: Rules, j: Json)
    requires !Allowed(rules, j)
    ensures HasForbidden(rules, j)
    decreases j
  {
    if j.Obj? {
      var k :| k in j.fields && !(NameAllowed(rules, k) && Allowed(rules, j.fields[k]));
      if !NameAllowed(rules, k) {
        assert ForbiddenAt(rules, j, [], k);
      } else {
        ForbiddenSomewhere(rules, j.fields[k]);
        var path, l :| ForbiddenAt(rules, j.fields[k], path, l);
        Below(rules, j, Field(k), path, l);
      }
    } else {
      var i :| 0 <= i < |j.elements| && !Allowed(rules, j.elements[i]);
      ForbiddenSomewhere(rules, j.elements[i]);
      var path, l :| ForbiddenAt(rules, j.elements[i], path, l);
      Below(rules, j, Element(i), path, l);
    }
  }

  /** The walk lets a document through exactly when no path leads to a forbidden field; a document it stops is never accepted. */
  lemma ForbiddenIsRejected(rules: Rules, cfg: Config, raw: Json)
    ensures Allowed(rules, raw) <==> !HasForbidden(rules, raw)
    ensures HasForbidden(rules, raw) ==> Validate(rules, cfg, raw).Err?
  {
    if Allowed(rules, raw) && HasForbidden(rules, raw) {
      var path, k :| ForbiddenAt(rules, raw, path, k);
      AllowedEverywhere(rules, raw, path);
    }
    if !Allowed(rules, raw) { ForbiddenSomewhere(rules, raw); }
    hide Allowed, HasForbidden, ConfigOk, ValidateCourse;
  }

  // Nor does the order of lists matter to them.

  lemma AllowedElements(rules: Rules, a: seq<Json>)
    ensures Allowed(rules, Arr(a)) <==> forall x :: x in a ==> Allowed(rules, x)
  {
    if forall x :: x in a ==> Allowed(rules, x) {
      forall i | 0 <= i < |a| ensures Allowed(rules, a[i]) { assert a[i] in a; }
    }
    if Allowed(rules, Arr(a)) {
      forall x | x in a ensures Allowed(rules, x) { var i :| 0 <= i < |a| && a[i] == x; }
    }
  }

  lemma AllowedPermuted(rules: Rules, a: seq<Json>, b: seq<Json>)
    requires multiset(a) == multiset(b)
    ensures Allowed(rules, Arr(a)) <==> Allowed(rules, Arr(b))
  {
    AllowedElements(rules, a);
    AllowedElements(rules, b);
    hide Allowed;
    assert forall x :: x in a <==> x in multiset(a);
    assert forall x :: x in b <==> x in multiset(b);
  }

  /** Two objects with the same names, and values that are allowed alike. */
  lemma AllowedFields(rules: Rules, o: map<Key, Json>, o': map<Key, Json>)
    requires o.Keys == o'.Keys && forall k :: k in o ==> (Allowed(rules, o[k]) <==> Allowed(rules, o'[k]))
    ensures Allowed(rules, Obj(o)) <==> Allowed(rules, Obj(o'))
  {
    hide NameAllowed;
    assert forall k :: k in o <==> k in o';
    assert Allowed(rules, Obj(o)) == forall k :: k in o ==> NameAllowed(rules, k) && Allowed(rules, o[k]);
    assert Allowed(rules, Obj(o')) == forall k :: k in o' ==> NameAllowed(rules, k) && Allowed(rules, o'[k]);
    hide Allowed;
  }

  lemma AllowedAlike(rules: Rules, m: Json, n: Json)
    requires ModuleAlike(m, n)
    ensures Allowed(rules, m) <==> Allowed(rules, n)
  {
    if m != n {
      AllowedPermuted(rules, m.fields[Items].elements, n.fields[Items].elements);
      hide Allowed;
      AllowedFields(rules, m.fields, n.fields);
    }
  }

  lemma AllowedAllAlike(rules: Rules, ms: seq<Json>, ns: seq<Json>)
    requires |ms| == |ns| && forall i :: 0 <= i < |ms| ==> ModuleAlike(ms[i], ns[i])
    ensures Allowed(rules, Arr(ms)) <==> Allowed(rules, Arr(ns))
  {
    hide ModuleAlike;
    forall i | 0 <= i < |ms| ensures Allowed(rules, ms[i]) <==> Allowed(rules, ns[i]) { AllowedAlike(rules, ms[i], ns[i]); }
  }

  // ---------------------------------------------------------------------------------------
  // The theorem

  /** The field is the same in both, or a list in another order. */
  predicate Permuted(raw: map<Key, Json>, raw': map<Key, Json>, k: Key) {
    || Get(raw, k) == Get(raw', k)
    || (Get(raw, k).Arr? && Get(raw', k).Arr? && multiset(raw[k].elements) == multiset(raw'[k].elements))
  }

  /** The same modules, or lists matched up by way of `between`: alike one by one, then permuted. */
  predicate ModulesReordered(raw: map<Key, Json>, raw': map<Key, Json>, between: seq<Json>) {
    || Get(raw, Modules) == Get(raw', Modules)
    || (Get(raw, Modules).Arr? && Get(raw', Modules).Arr? && Matched(raw[Modules].elements, between, raw'[Modules].elements))
  }

  predicate Matched(ms: seq<Json>, between: seq<Json>, ns: seq<Json>) {
    |between| == |ms| && (forall i :: 0 <= i < |between| ==> ModuleAlike(ms[i], between[i])) && multiset(between) == multiset(ns)
  }

  /** The documents differ only in the order of their lists. */
  predicate Reordered(raw: map<Key, Json>, raw': map<Key, Json>, between: seq<Json>) {
    && raw.Keys == raw'.Keys && (forall k :: k in raw && k !in {Assignments, Announcements, Modules} ==> raw[k] == raw'[k])
    && Permuted(raw, raw', Assignments) && Permuted(raw, raw', Announcements) && ModulesReordered(raw, raw', between)
  }

  lemma ReorderedAllowed(rules: Rules, raw: map<Key, Json>, raw': map<Key, Json>, between: seq<Json>)
    requires Reordered(raw, raw', between)
    ensures Allowed(rules, Obj(raw)) <==> Allowed(rules, Obj(raw'))
  {
    hide ModuleAlike, Allowed;
    PermutedAllowed(rules, raw, raw', Assignments);
    PermutedAllowed(rules, raw, raw', Announcements);
    if Get(raw, Modules) != Get(raw', Modules) {
      AllowedAllAlike(rules, raw[Modules].elements, between);
      AllowedPermuted(rules, between, raw'[Modules].elements);
    }
    AllowedFields(rules, raw, raw');
  }

  lemma PermutedAllowed(rules: Rules, raw: map<Key, Json>, raw': map<Key, Json>, k: Key)
    requires Permuted(raw, raw', k)
    ensures Allowed(rules, Get(raw, k)) <==> Allowed(rules, Get(raw', k))
  {
    if Get(raw, k) != Get(raw', k) { AllowedPermuted(rules, raw[k].elements, raw'[k].elements); }
    hide Allowed;
  }

  lemma PermutedSorted(cfg: Config, kind: Kind, a: seq<Record>, b: seq<Record>)
    requires multiset(a) == multiset(b) && kind in {AssignmentKind, AnnouncementKind} && AllOfKind(kind, a)
    ensures AllDifferent(Urls(cfg, a)) <==> AllDifferent(Urls(cfg, b))
    ensures AllDifferent(Urls(cfg, a)) ==> Sort(cfg, a) == Sort(cfg, b)
  {
    hide Sort, AllDifferent, Urls, AllOfKind;
    SamePermuted(cfg, kind, a, b);
    if AllDifferent(Urls(cfg, a)) {
      SortKeeps(cfg, kind, a);
      UrlsGiveRanks(cfg, kind, Sort(cfg, a));
      SortOfPermutation(cfg, a, b);
    }
  }

  lemma ModulesSorted(cfg: Config, m: seq<Record>, between: seq<Record>, n: seq<Record>)
    requires AllSimilar(cfg, m, between) && multiset(between) == multiset(n) && AllOfKind(ModuleKind, m)
    ensures AllDifferent(Urls(cfg, m)) <==> AllDifferent(Urls(cfg, n))
    ensures AllDifferent(Positions(m)) <==> AllDifferent(Positions(n))
    ensures Elements(Positions(m)) == Elements(Positions(n))
    ensures AllDifferent(Urls(cfg, ItemsOf(m))) <==> AllDifferent(Urls(cfg, ItemsOf(n)))
    ensures AllDifferent(Positions(m)) && AllDifferent(Urls(cfg, ItemsOf(m))) ==> Sort(cfg, m) == Sort(cfg, n)
  {
    hide Sort, AllSimilar, AllDifferent, Elements, Urls, Positions, ItemsOf, AllOfKind;
    SimilarUrls(cfg, m, between);
    SimilarItems(cfg, m, between);
    UrlsPermuted(cfg, ItemsOf(m), ItemsOf(between));
    PermutedElements(Urls(cfg, ItemsOf(m)), Urls(cfg, ItemsOf(between)));
    SamePermuted(cfg, ModuleKind, between, n);
    if AllDifferent(Positions(m)) && AllDifferent(Urls(cfg, ItemsOf(m))) {
      SimilarEqual(cfg, m, between);
      SortKeeps(cfg, ModuleKind, m);
      PositionsGiveRanks(cfg, Sort(cfg, m));
      SortOfPermutation(cfg, m, n);
    }
  }

  lemma AssembleAgrees(rules: Rules, cfg: Config, course: Record, a: seq<Record>, a': seq<Record>, n: seq<Record>, n': seq<Record>,
                       m: seq<Record>, between: seq<Record>, m': seq<Record>)
    requires ConfigOk(rules, cfg)
    requires multiset(a) == multiset(a') && multiset(n) == multiset(n') && AllSimilar(cfg, m, between) && multiset(between) == multiset(m')
    requires AllOfKind(AssignmentKind, a) && AllOfKind(AnnouncementKind, n) && AllOfKind(ModuleKind, m)
    ensures var p, q := Assemble(rules, cfg, course, a, n, m), Assemble(rules, cfg, course, a', n', m');
      (p.Ok? <==> q.Ok?) && (p.Ok? ==> p == q)
  {
    hide Sort, ConfigOk, AllSimilar, AllOfKind, AllDifferent, Elements, Urls, Positions, ItemsOf, ScopeOf;
    PermutedSorted(cfg, AssignmentKind, a, a');
    PermutedSorted(cfg, AnnouncementKind, n, n');
    ModulesSorted(cfg, m, between, m');
  }

  lemma FrontAgrees(rules: Rules, cfg: Config, raw: map<Key, Json>, raw': map<Key, Json>, between: seq<Json>)
    requires Reordered(raw, raw', between)
    ensures Front(rules, cfg, Obj(raw)) == Front(rules, cfg, Obj(raw'))
  {
    ReorderedAllowed(rules, raw, raw', between);
    hide Allowed, ConfigOk, ValidateCourse, Matched;
    assert Get(raw, Status) == Get(raw', Status) && Get(raw, CourseField) == Get(raw', CourseField);
  }

  /** The lists of two documents whose order does not matter. */
  lemma ListsAgree(rules: Rules, cfg: Config, course: Record, a: seq<Json>, a': seq<Json>, n: seq<Json>, n': seq<Json>,
                   m: seq<Json>, between: seq<Json>, m': seq<Json>)
    requires ConfigOk(rules, cfg) && multiset(a) == multiset(a') && multiset(n) == multiset(n') && Matched(m, between, m')
    ensures var p, q := FromLists(rules, cfg, course, a, n, m), FromLists(rules, cfg, course, a', n', m');
      (p.Ok? <==> q.Ok?) && (p.Ok? ==> p == q)
  {
    hide Collect, ConfigOk, ModuleAlike, AllSimilar, AllOfKind, Assemble;
    CollectPermuted(rules, cfg, AssignmentKind, a, a');
    CollectPermuted(rules, cfg, AnnouncementKind, n, n');
    AllAlikeValidated(rules, cfg, m, between);
    CollectPermuted(rules, cfg, ModuleKind, between, m');
    CollectKind(rules, cfg, AssignmentKind, a);
    CollectKind(rules, cfg, AnnouncementKind, n);
    CollectKind(rules, cfg, ModuleKind, m);
    var x, y, z := Collect(rules, cfg, AssignmentKind, a), Collect(rules, cfg, AnnouncementKind, n), Collect(rules, cfg, ModuleKind, m);
    if x.Ok? && y.Ok? && z.Ok? {
      AssembleAgrees(rules, cfg, course, x.value, Collect(rules, cfg, AssignmentKind, a').value, y.value,
                     Collect(rules, cfg, AnnouncementKind, n').value, z.value, Collect(rules, cfg, ModuleKind, between).value,
                     Collect(rules, cfg, ModuleKind, m').value);
    }
  }

  lemma MatchedItself(ms: seq<Json>)
    ensures Matched(ms, ms, ms)
  {
  }

  /** Reordering changes neither the verdict nor the payload, and so not the hash. */
  lemma OrderDoesNotMatter(rules: Rules, cfg: Config, raw: map<Key, Json>, raw': map<Key, Json>, between: seq<Json>)
    requires Reordered(raw, raw', between)
    ensures var p, q := Validate(rules, cfg, Obj(raw)), Validate(rules, cfg, Obj(raw'));
      (p.Ok? <==> q.Ok?) && (p.Ok? ==> p.value == q.value && rules.digest(p.value) == rules.digest(q.value))
  {
    FrontAgrees(rules, cfg, raw, raw', between);
    hide Front, FromLists, ConfigOk, Matched;
    var front := Front(rules, cfg, Obj(raw));
    if front.Ok? {
      var m, m' := raw[Modules].elements, raw'[Modules].elements;
      MatchedItself(m);
      ListsAgree(rules, cfg, front.value, raw[Assignments].elements, raw'[Assignments].elements, raw[Announcements].elements,
                 raw'[Announcements].elements, m, if m == m' then m else between, m');
    }
  }
}
