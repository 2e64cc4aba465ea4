/**
  What `canonical.dumps` depends on: exactly the canonical value, and on the insertion order of the
  dicts in a value only through keys that NFC makes equal. `request_hash` binds each of its five inputs.
*/
module CanonicalOrder {
  import opened Wrappers
  import opened CanonicalJson

  function Canonical(nfc: string -> string, v: Value): Option<Norm> {
    match Normalize(nfc, v) case Some(n) => Some(Sorted(n)) case None => None
  }

  /** Two accepted values have the same text exactly when they have the same canonical value. */
  lemma DumpsDeterminesCanonical(nfc: string -> string, v: Value, w: Value)
    ensures Dumps(nfc, v) == Dumps(nfc, w) <==> Canonical(nfc, v) == Canonical(nfc, w)
  {
    if Normalize(nfc, v).Some? && Normalize(nfc, w).Some? && Dumps(nfc, v) == Dumps(nfc, w) {
      WriteInjective(Sorted(Normalize(nfc, v).value), Sorted(Normalize(nfc, w).value));
    }
  }

  // ---------------------------------------------------------------------------------------
  // Sorting by key

  ghost predicate DistinctKeys(fields: seq<Field>) {
    forall i, j :: 0 <= i < j < |fields| ==> fields[i].key != fields[j].key
  }

  ghost predicate StrictlySorted(fields: seq<Field>) {
    forall i, j :: 0 <= i < j < |fields| ==> Less(fields[i].key, fields[j].key)
  }

  lemma {:induction false} InsertSorts(f: Field, sorted: seq<Field>)
    requires StrictlySorted(sorted) && forall g :: g in sorted ==> g.key != f.key
    ensures StrictlySorted(InsertField(f, sorted))
    ensures forall g :: g in InsertField(f, sorted) <==> g == f || g in sorted
  {
    if sorted != [] {
      LessIsTotal(f.key, sorted[0].key);
      if Less(f.key, sorted[0].key) {
        forall j | 0 < j < |sorted| ensures Less(f.key, sorted[j].key) {
          LessIsTransitive(f.key, sorted[0].key, sorted[j].key);
        }
      } else {
        var tail := sorted[1..];
        assert forall g :: g in tail ==> g in sorted;
        InsertSorts(f, tail);
        assert sorted == [sorted[0]] + tail;
        var r := InsertField(f, tail);
        forall j | 0 <= j < |r| ensures Less(sorted[0].key, r[j].key) {
          assert r[j] in r;
          if r[j] != f {
            var k :| 0 <= k < |tail| && tail[k] == r[j];
            assert sorted[k + 1] == tail[k];
          }
        }
      }
    }
  }

  lemma {:induction false} SortSorts(fields: seq<Field>)
    requires DistinctKeys(fields)
    ensures StrictlySorted(Sort(fields))
    ensures forall g :: g in Sort(fields) <==> g in fields
  {
    if fields != [] {
      assert fields == [fields[0]] + fields[1..];
      SortSorts(fields[1..]);
      InsertSorts(fields[0], Sort(fields[1..]));
    }
  }

  lemma EmptyOrMember(q: seq<Field>)
    ensures q == [] || exists f :: f in q
  {
    if q != [] { assert q[0] in q; }
  }

  lemma {:induction false} SortedIsUnique(p: seq<Field>, q: seq<Field>)
    requires StrictlySorted(p) && StrictlySorted(q)
    requires forall f :: f in p <==> f in q
    ensures p == q
  {
    if p == [] {
      EmptyOrMember(q);
    } else {
      assert p[0] in p && q != [];
      assert q[0] in q;
      var i :| 0 <= i < |p| && p[i] == q[0];
      var j :| 0 <= j < |q| && q[j] == p[0];
      LessIsTotal(p[0].key, q[0].key);
      LessIsTotal(p[0].key, p[0].key);
      assert p[0] == q[0];
      forall f ensures f in p[1..] <==> f in q[1..] {
        assert f in p <==> f == p[0] || f in p[1..];
        assert f in q <==> f == q[0] || f in q[1..];
        LessIsTotal(p[0].key, p[0].key);
      }
      SortedIsUnique(p[1..], q[1..]);
    }
  }

  // ---------------------------------------------------------------------------------------
  // What a sequence of assignments leaves behind

  /** The fields of the written dict: the last value of each key, in key order. */
  function Final(fields: seq<Field>): seq<Field> { Sort(AssignAll(fields)) }

  ghost function KeysOf(fields: seq<Field>): set<string> { set f | f in fields :: f.key }

  lemma {:induction false} AssignMembers(fields: seq<Field>, f: Field)
    requires DistinctKeys(fields)
    ensures DistinctKeys(Assign(fields, f))
    ensures forall g :: g in Assign(fields, f) <==> g == f || (g in fields && g.key != f.key)
  {
    if fields != [] {
      assert fields == [fields[0]] + fields[1..];
      if fields[0].key != f.key {
        AssignMembers(fields[1..], f);
        var tail := Assign(fields[1..], f);
        forall j | 0 <= j < |tail| ensures tail[j].key != fields[0].key {
          assert tail[j] in tail;
        }
      }
    }
  }

  lemma AssignKeys(fields: seq<Field>, f: Field)
    requires DistinctKeys(fields)
    ensures KeysOf(Assign(fields, f)) == KeysOf(fields) + {f.key}
  {
    AssignMembers(fields, f);
    hide Assign, DistinctKeys;
    assert f in Assign(fields, f);
    forall k ensures k in KeysOf(Assign(fields, f)) <==> k in KeysOf(fields) + {f.key} {
      if k in KeysOf(fields) && k != f.key {
        var g :| g in fields && g.key == k;
        assert g in Assign(fields, f);
      }
    }
  }

  lemma {:induction false} AssignAllMembers(fields: seq<Field>)
    ensures var r := AssignAll(fields);
      && DistinctKeys(r) && KeysOf(r) == KeysOf(fields)
      && (forall f :: f in r ==> f in fields)
      && (fields != [] ==> fields[|fields|-1] in r)
  {
    hide Assign, DistinctKeys, KeysOf;
    if fields != [] {
      var front, last := fields[..|fields|-1], fields[|fields|-1];
      assert fields == front + [last];
      AssignAllMembers(front);
      AssignMembers(AssignAll(front), last);
      AssignKeys(AssignAll(front), last);
      KeysOfSnoc(front, last);
    } else {
      NoFields();
    }
  }

  lemma KeysOfSnoc(fields: seq<Field>, f: Field)
    ensures KeysOf(fields + [f]) == KeysOf(fields) + {f.key}
  {
    forall k ensures k in KeysOf(fields + [f]) <==> k in KeysOf(fields) + {f.key} {
      assert f in fields + [f];
      if k in KeysOf(fields) {
        var g :| g in fields && g.key == k;
        assert g in fields + [f];
      }
    }
  }

  lemma NoFields()
    ensures DistinctKeys([])
  {
  }

  lemma FinalMembers(fields: seq<Field>)
    ensures var r := Final(fields);
      && StrictlySorted(r) && KeysOf(r) == KeysOf(fields)
      && (forall f :: f in r ==> f in fields)
      && (fields != [] ==> fields[|fields|-1] in r)
  {
    AssignAllMembers(fields);
    SortSorts(AssignAll(fields));
    assert KeysOf(Final(fields)) == KeysOf(AssignAll(fields));
  }

  /** Fields with one key carry one value. */
  ghost predicate OneValuePerKey(fields: seq<Field>) {
    forall f, g :: f in fields && g in fields && f.key == g.key ==> f == g
  }

  lemma FinalKeepsAll(fields: seq<Field>)
    requires OneValuePerKey(fields)
    ensures StrictlySorted(Final(fields)) && forall f :: f in Final(fields) <==> f in fields
  {
    FinalMembers(fields);
    forall f | f in fields ensures f in Final(fields) {
      assert f.key in KeysOf(fields);
      var g :| g in Final(fields) && g.key == f.key;
    }
  }

  lemma FinalByMembers(a: seq<Field>, b: seq<Field>)
    requires OneValuePerKey(a) && forall f :: f in a <==> f in b
    ensures Final(a) == Final(b)
  {
    FinalKeepsAll(a);
    FinalKeepsAll(b);
    SortedIsUnique(Final(a), Final(b));
  }

  lemma KeyOnce(r: seq<Field>, f: Field, g: Field)
    requires StrictlySorted(r) && f in r && g in r && f.key == g.key
    ensures f == g
  {
    var i :| 0 <= i < |r| && r[i] == f;
    var j :| 0 <= j < |r| && r[j] == g;
    LessIsTotal(f.key, f.key);
  }

  lemma DifferByKey(r: seq<Field>, s: seq<Field>, f: Field, g: Field)
    requires StrictlySorted(r) && f in r && g in s && f.key == g.key && f != g
    ensures r != s
  {
    if r == s { KeyOnce(r, f, g); }
  }

  // ---------------------------------------------------------------------------------------
  // The entries of a dict as fields of the written dict

  ghost predicate Accepted(nfc: string -> string, p: seq<Entry>) {
    forall i :: 0 <= i < |p| ==> NormalizeEntry(nfc, p[i]).Some?
  }

  /** One entry as it would be written if nothing overwrote it. */
  function Image(nfc: string -> string, e: Entry): Field
    requires NormalizeEntry(nfc, e).Some?
  {
    var f := NormalizeEntry(nfc, e).value;
    Field(f.key, Sorted(f.value))
  }

  ghost function Images(nfc: string -> string, p: seq<Entry>): (r: seq<Field>)
    requires Accepted(nfc, p)
    ensures |r| == |p| && forall i :: 0 <= i < |p| ==> r[i] == Image(nfc, p[i])
  {
    SortedFields(NormalizeEntries(nfc, p).value)
  }

  lemma {:induction false} AssignSorted(fields: seq<Field>, f: Field)
    ensures SortedFields(Assign(fields, f)) == Assign(SortedFields(fields), Field(f.key, Sorted(f.value)))
  {
    var g := Field(f.key, Sorted(f.value));
    if fields == [] {
      assert SortedFields([f]) == [g];
    } else if fields[0].key == f.key {
      assert SortedFields([f] + fields[1..]) == [g] + SortedFields(fields[1..]);
    } else {
      AssignSorted(fields[1..], f);
      var tail := Assign(fields[1..], f);
      assert SortedFields([fields[0]] + tail) == [SortedFields(fields)[0]] + SortedFields(tail);
    }
  }

  lemma {:induction false} AssignAllSorted(fields: seq<Field>)
    ensures SortedFields(AssignAll(fields)) == AssignAll(SortedFields(fields))
  {
    if fields != [] {
      var front := fields[..|fields|-1];
      AssignAllSorted(front);
      AssignSorted(AssignAll(front), fields[|fields|-1]);
      assert SortedFields(fields)[..|fields|-1] == SortedFields(front);
    }
  }

  /** The canonical dict is what the images leave behind. */
  lemma CanonicalDict(nfc: string -> string, p: seq<Entry>)
    ensures Canonical(nfc, Dict(p)) == if Accepted(nfc, p) then Some(NDict(Final(Images(nfc, p)))) else None
  {
    if Accepted(nfc, p) {
      AssignAllSorted(NormalizeEntries(nfc, p).value);
    }
  }

  /** Same text, same written dict. */
  lemma DictTexts(nfc: string -> string, p: seq<Entry>, q: seq<Entry>)
    requires Accepted(nfc, p) && Accepted(nfc, q)
    ensures Dumps(nfc, Dict(p)) == Dumps(nfc, Dict(q)) <==> Final(Images(nfc, p)) == Final(Images(nfc, q))
  {
    DumpsDeterminesCanonical(nfc, Dict(p), Dict(q));
    CanonicalDict(nfc, p);
    CanonicalDict(nfc, q);
  }

  // ---------------------------------------------------------------------------------------
  // When insertion order does not matter

  /** Keys that NFC makes equal carry the same canonical value. */
  ghost predicate Harmless(nfc: string -> string, p: seq<Entry>) {
    forall d, e :: d in p && e in p && NormalizeEntry(nfc, d).Some? && NormalizeEntry(nfc, e).Some? ==>
      Image(nfc, d).key == Image(nfc, e).key ==> Image(nfc, d) == Image(nfc, e)
  }

  lemma HarmlessImages(nfc: string -> string, p: seq<Entry>)
    requires Accepted(nfc, p)
    ensures Harmless(nfc, p) <==> OneValuePerKey(Images(nfc, p))
  {
    var r := Images(nfc, p);
    if OneValuePerKey(r) {
      forall d, e | d in p && e in p && NormalizeEntry(nfc, d).Some? && NormalizeEntry(nfc, e).Some?
        && Image(nfc, d).key == Image(nfc, e).key ensures Image(nfc, d) == Image(nfc, e)
      {
        var i :| 0 <= i < |p| && p[i] == d;
        var j :| 0 <= j < |p| && p[j] == e;
        assert r[i] in r && r[j] in r;
      }
    }
    if Harmless(nfc, p) {
      forall f, g | f in r && g in r && f.key == g.key ensures f == g {
        var i :| 0 <= i < |r| && r[i] == f;
        var j :| 0 <= j < |r| && r[j] == g;
        assert p[i] in p && p[j] in p;
      }
    }
  }

  ghost predicate Reordered(p: seq<Entry>, q: seq<Entry>) { multiset(p) == multiset(q) }

  lemma ReorderedMembers(nfc: string -> string, p: seq<Entry>, q: seq<Entry>)
    requires Reordered(p, q)
    ensures forall e :: e in p <==> e in q
    ensures Accepted(nfc, p) <==> Accepted(nfc, q)
    ensures Accepted(nfc, p) ==> forall f :: f in Images(nfc, p) <==> f in Images(nfc, q)
  {
    forall e ensures e in p <==> e in q {
      assert (e in p <==> e in multiset(p)) && (e in q <==> e in multiset(q));
    }
    if Accepted(nfc, p) { AcceptedByMembers(nfc, p, q); }
    if Accepted(nfc, q) { AcceptedByMembers(nfc, q, p); }
  }

  lemma AcceptedByMembers(nfc: string -> string, p: seq<Entry>, q: seq<Entry>)
    requires forall e :: e in q ==> e in p
    requires Accepted(nfc, p)
    ensures Accepted(nfc, q) && forall f :: f in Images(nfc, q) ==> f in Images(nfc, p)
  {
    forall i | 0 <= i < |q| ensures NormalizeEntry(nfc, q[i]).Some? && Image(nfc, q[i]) in Images(nfc, p) {
      assert q[i] in p;
      var j :| 0 <= j < |p| && p[j] == q[i];
      assert Images(nfc, p)[j] == Image(nfc, q[i]);
    }
  }

  /** Moving one entry to the end is a reordering. */
  lemma MovedLast(p: seq<Entry>, i: nat) returns (q: seq<Entry>)
    requires i < |p|
    ensures Reordered(p, q) && q != [] && q[|q|-1] == p[i]
  {
    q := p[..i] + p[i+1..] + [p[i]];
    assert p == p[..i] + [p[i]] + p[i+1..];
  }

  ghost predicate OrderIrrelevant(nfc: string -> string, p: seq<Entry>) {
    forall q :: Reordered(p, q) ==> Dumps(nfc, Dict(q)) == Dumps(nfc, Dict(p))
  }

  /** If no order matters, every entry is what the written dict holds for its key. */
  lemma WinnersAgree(nfc: string -> string, p: seq<Entry>, e: Entry)
    requires Accepted(nfc, p) && e in p && OrderIrrelevant(nfc, p)
    ensures NormalizeEntry(nfc, e).Some? && Image(nfc, e) in Final(Images(nfc, p))
  {
    var i :| 0 <= i < |p| && p[i] == e;
    var q := MovedLast(p, i);
    ReorderedMembers(nfc, p, q);
    DictTexts(nfc, q, p);
    FinalMembers(Images(nfc, q));
  }

  /**
    The text of an accepted dict is the same for every insertion order if and only if keys
    with equal NFC carry equal canonical values.
   */
  lemma OrderIrrelevantIff(nfc: string -> string, p: seq<Entry>)
    requires Accepted(nfc, p)
    ensures OrderIrrelevant(nfc, p) <==> Harmless(nfc, p)
  {
    HarmlessImages(nfc, p);
    if Harmless(nfc, p) {
      forall q | Reordered(p, q) ensures Dumps(nfc, Dict(q)) == Dumps(nfc, Dict(p)) {
        ReorderedMembers(nfc, p, q);
        FinalByMembers(Images(nfc, p), Images(nfc, q));
        DictTexts(nfc, q, p);
      }
    }
    if OrderIrrelevant(nfc, p) {
      FinalMembers(Images(nfc, p));
      forall d, e | d in p && e in p && NormalizeEntry(nfc, d).Some? && NormalizeEntry(nfc, e).Some?
        && Image(nfc, d).key == Image(nfc, e).key ensures Image(nfc, d) == Image(nfc, e)
      {
        WinnersAgree(nfc, p, d);
        WinnersAgree(nfc, p, e);
        KeyOnce(Final(Images(nfc, p)), Image(nfc, d), Image(nfc, e));
      }
    }
  }

  /** A refused entry refuses every order. */
  lemma RefusedInEveryOrder(nfc: string -> string, p: seq<Entry>, q: seq<Entry>)
    requires Reordered(p, q)
    ensures Dumps(nfc, Dict(p)).None? <==> Dumps(nfc, Dict(q)).None?
  {
    ReorderedMembers(nfc, p, q);
    CanonicalDict(nfc, p);
    CanonicalDict(nfc, q);
  }

  lemma IntEntry(nfc: string -> string, k: string, n: int)
    ensures NormalizeEntry(nfc, Entry(Text(k), Int(n))) == Some(Field(nfc(k), NInt(n)))
  {
    assert Normalize(nfc, Int(n)) == Some(NInt(n));
  }

  /**
    Any two keys that NFC makes equal, such as the composed and the decomposed spelling of one letter, give a dict
    whose text depends on the order.
   */
  lemma OrderCanMatter(nfc: string -> string, composed: string, decomposed: string)
    requires composed != decomposed && nfc(composed) == nfc(decomposed)
    ensures var d, e := Entry(Text(composed), Int(1)), Entry(Text(decomposed), Int(2));
      IsPythonDict([d, e]) && Dumps(nfc, Dict([d, e])).Some? && Dumps(nfc, Dict([d, e])) != Dumps(nfc, Dict([e, d]))
  {
    var d, e := Entry(Text(composed), Int(1)), Entry(Text(decomposed), Int(2));
    var p, q := [d, e], [e, d];
    IntEntry(nfc, composed, 1);
    IntEntry(nfc, decomposed, 2);
    DictTexts(nfc, p, q);
    CanonicalDict(nfc, p);
    FinalMembers(Images(nfc, p));
    FinalMembers(Images(nfc, q));
    DifferByKey(Final(Images(nfc, p)), Final(Images(nfc, q)), Image(nfc, e), Image(nfc, d));
  }

  // ---------------------------------------------------------------------------------------
  // The same at every depth

  ghost predicate IsPythonDict(p: seq<Entry>) {
    forall d, e :: d in p && e in p && d.key == e.key ==> d == e
  }

  function Lookup(p: seq<Entry>, k: Key): (r: Option<Value>)
    ensures r.Some? ==> Entry(k, r.value) in p
    ensures r.None? ==> forall e :: e in p ==> e.key != k
  {
    if p == [] then None else if p[0].key == k then Some(p[0].value) else Lookup(p[1..], k)
  }

  /** Equal as Python values: dicts are compared by key, without regard to order, at every level. */
  ghost predicate SameValue(v: Value, w: Value)
    decreases v
  {
    match v
    case List(xs) => w.List? && |xs| == |w.items| && forall i :: 0 <= i < |xs| ==> SameValue(xs[i], w.items[i])
    case Dict(p) =>
      && w.Dict? && IsPythonDict(p) && IsPythonDict(w.entries)
      && (forall d :: d in w.entries ==> Lookup(p, d.key).Some?)
      && (forall e :: e in p ==> Lookup(w.entries, e.key).Some? && SameValue(e.value, Lookup(w.entries, e.key).value))
    case _ => v == w
  }

  ghost predicate HarmlessEverywhere(nfc: string -> string, v: Value)
    decreases v
  {
    match v
    case List(xs) => forall i :: 0 <= i < |xs| ==> HarmlessEverywhere(nfc, xs[i])
    case Dict(p) => Harmless(nfc, p) && forall e :: e in p ==> HarmlessEverywhere(nfc, e.value)
    case _ => true
  }

  lemma EntryByValue(nfc: string -> string, d: Entry, e: Entry)
    requires d.key == e.key && Canonical(nfc, d.value) == Canonical(nfc, e.value)
    ensures NormalizeEntry(nfc, d).Some? <==> NormalizeEntry(nfc, e).Some?
    ensures NormalizeEntry(nfc, d).Some? ==> Image(nfc, d) == Image(nfc, e)
  {
  }

  lemma CanonicalItems(nfc: string -> string, xs: seq<Value>, ys: seq<Value>)
    requires |xs| == |ys| && forall i :: 0 <= i < |xs| ==> Canonical(nfc, xs[i]) == Canonical(nfc, ys[i])
    ensures Canonical(nfc, List(xs)) == Canonical(nfc, List(ys))
  {
    var a, b := NormalizeItems(nfc, xs), NormalizeItems(nfc, ys);
    if forall i :: 0 <= i < |xs| ==> Canonical(nfc, xs[i]).Some? {
      assert forall i :: 0 <= i < |xs| ==> Canonical(nfc, ys[i]).Some?;
      forall i | 0 <= i < |xs| ensures Sorted(a.value[i]) == Sorted(b.value[i]) {
        assert Canonical(nfc, xs[i]) == Canonical(nfc, ys[i]);
      }
      SortedItemsByItem(a.value, b.value);
    } else {
      var i :| 0 <= i < |xs| && Canonical(nfc, xs[i]).None?;
      assert Canonical(nfc, ys[i]).None?;
    }
  }

  lemma {:induction false} SortedItemsByItem(a: seq<Norm>, b: seq<Norm>)
    requires |a| == |b| && forall i :: 0 <= i < |a| ==> Sorted(a[i]) == Sorted(b[i])
    ensures SortedItems(a) == SortedItems(b)
  {
    if a != [] {
      SortedItemsByItem(a[1..], b[1..]);
    }
  }

  ghost predicate Matched(nfc: string -> string, p: seq<Entry>, q: seq<Entry>) {
    forall e :: e in p ==> exists d :: d in q && d.key == e.key && Canonical(nfc, d.value) == Canonical(nfc, e.value)
  }

  lemma MatchedImages(nfc: string -> string, p: seq<Entry>, q: seq<Entry>)
    requires Matched(nfc, p, q) && Accepted(nfc, q)
    ensures Accepted(nfc, p) && forall f :: f in Images(nfc, p) ==> f in Images(nfc, q)
  {
    forall i | 0 <= i < |p| ensures NormalizeEntry(nfc, p[i]).Some? && Image(nfc, p[i]) in Images(nfc, q) {
      assert p[i] in p;
      var d :| d in q && d.key == p[i].key && Canonical(nfc, d.value) == Canonical(nfc, p[i].value);
      EntryByValue(nfc, d, p[i]);
      var j :| 0 <= j < |q| && q[j] == d;
      assert Images(nfc, q)[j] == Image(nfc, d);
    }
  }

  lemma MatchedDicts(nfc: string -> string, p: seq<Entry>, q: seq<Entry>)
    requires Matched(nfc, p, q) && Matched(nfc, q, p) && Harmless(nfc, p)
    ensures Canonical(nfc, Dict(p)) == Canonical(nfc, Dict(q))
  {
    CanonicalDict(nfc, p);
    CanonicalDict(nfc, q);
    if Accepted(nfc, p) || Accepted(nfc, q) {
      if Accepted(nfc, p) { MatchedImages(nfc, q, p); } else { MatchedImages(nfc, p, q); }
      MatchedImages(nfc, p, q);
      MatchedImages(nfc, q, p);
      HarmlessImages(nfc, p);
      FinalByMembers(Images(nfc, p), Images(nfc, q));
    }
  }

  lemma LookupsMatched(nfc: string -> string, p: seq<Entry>, q: seq<Entry>)
    requires IsPythonDict(p) && IsPythonDict(q)
    requires forall d :: d in q ==> Lookup(p, d.key).Some?
    requires forall e :: e in p ==> Lookup(q, e.key).Some? && Canonical(nfc, e.value) == Canonical(nfc, Lookup(q, e.key).value)
    ensures Matched(nfc, p, q) && Matched(nfc, q, p)
  {
    hide Canonical;
    forall e | e in p ensures exists d :: d in q && d.key == e.key && Canonical(nfc, d.value) == Canonical(nfc, e.value) {
      var d := Entry(e.key, Lookup(q, e.key).value);
      assert d in q;
    }
    forall d | d in q ensures exists e :: e in p && e.key == d.key && Canonical(nfc, e.value) == Canonical(nfc, d.value) {
      var e := Entry(d.key, Lookup(p, d.key).value);
      assert e in p && Entry(d.key, Lookup(q, e.key).value) == d;
    }
  }

  lemma SameDicts(v: Value, w: Value)
    requires v.Dict? && SameValue(v, w)
    ensures w.Dict? && IsPythonDict(v.entries) && IsPythonDict(w.entries)
    ensures forall d :: d in w.entries ==> Lookup(v.entries, d.key).Some?
    ensures forall e :: e in v.entries ==> Lookup(w.entries, e.key).Some? && SameValue(e.value, Lookup(w.entries, e.key).value)
  {
  }

  lemma HarmlessEntry(nfc: string -> string, v: Value)
    requires v.Dict? && HarmlessEverywhere(nfc, v)
    ensures Harmless(nfc, v.entries) && forall e :: e in v.entries ==> HarmlessEverywhere(nfc, e.value)
  {
  }

  lemma SameLists(nfc: string -> string, v: Value, w: Value)
    requires v.List? && SameValue(v, w) && HarmlessEverywhere(nfc, v)
    ensures w.List? && |v.items| == |w.items|
    ensures forall i :: 0 <= i < |v.items| ==> SameValue(v.items[i], w.items[i]) && HarmlessEverywhere(nfc, v.items[i])
  {
  }

  lemma SameLeaves(v: Value, w: Value)
    requires !v.List? && !v.Dict? && SameValue(v, w)
    ensures v == w
  {
  }

  /** Values that differ only in dict order, at any depth, have the same text. */
  lemma {:induction false} SameValueSameText(nfc: string -> string, v: Value, w: Value)
    requires SameValue(v, w) && HarmlessEverywhere(nfc, v)
    ensures Canonical(nfc, v) == Canonical(nfc, w) && Dumps(nfc, v) == Dumps(nfc, w)
    decreases v
  {
    hide SameValue, HarmlessEverywhere, Canonical, Dumps;
    if v.List? {
      SameLists(nfc, v, w);
      forall i | 0 <= i < |v.items| ensures Canonical(nfc, v.items[i]) == Canonical(nfc, w.items[i]) {
        SameValueSameText(nfc, v.items[i], w.items[i]);
      }
      CanonicalItems(nfc, v.items, w.items);
    } else if v.Dict? {
      SameDicts(v, w);
      HarmlessEntry(nfc, v);
      forall e | e in v.entries ensures Canonical(nfc, e.value) == Canonical(nfc, Lookup(w.entries, e.key).value) {
        SameValueSameText(nfc, e.value, Lookup(w.entries, e.key).value);
      }
      LookupsMatched(nfc, v.entries, w.entries);
      MatchedDicts(nfc, v.entries, w.entries);
    } else {
      SameLeaves(v, w);
    }
    DumpsDeterminesCanonical(nfc, v, w);
  }

  // ---------------------------------------------------------------------------------------
  // Exactly when order does not matter, at every depth

  /** A value that Python can hold: every dict in it has distinct keys. */
  ghost predicate PythonValue(v: Value)
    decreases v
  {
    match v
    case List(xs) => forall i :: 0 <= i < |xs| ==> PythonValue(xs[i])
    case Dict(p) => IsPythonDict(p) && forall e :: e in p ==> PythonValue(e.value)
    case _ => true
  }

  lemma LookupMember(p: seq<Entry>, e: Entry)
    requires IsPythonDict(p) && e in p
    ensures Lookup(p, e.key) == Some(e.value)
  {
  }

  lemma {:induction false} SameAsItself(v: Value)
    requires PythonValue(v)
    ensures SameValue(v, v)
    decreases v
  {
    match v
    case List(xs) =>
      forall i | 0 <= i < |xs| ensures SameValue(xs[i], xs[i]) { SameAsItself(xs[i]); }
    case Dict(p) =>
      forall e | e in p ensures Lookup(p, e.key) == Some(e.value) && SameValue(e.value, e.value) {
        LookupMember(p, e);
        SameAsItself(e.value);
      }
    case _ =>
  }

  lemma ItemAt(nfc: string -> string, xs: seq<Value>, i: nat)
    requires i < |xs| && Canonical(nfc, List(xs)).Some?
    ensures Canonical(nfc, xs[i]).Some? && |Canonical(nfc, List(xs)).value.items| == |xs|
    ensures Canonical(nfc, List(xs)).value.items[i] == Canonical(nfc, xs[i]).value
  {
    SortedItemsAt(NormalizeItems(nfc, xs).value, i);
  }

  lemma {:induction false} SortedItemsAt(items: seq<Norm>, i: nat)
    requires i < |items|
    ensures |SortedItems(items)| == |items| && SortedItems(items)[i] == Sorted(items[i])
  {
    hide Sorted;
    if i > 0 { SortedItemsAt(items[1..], i - 1); } else if |items| > 1 { SortedItemsAt(items[1..], 0); }
  }

  /** Another order of the same value whose text is different. */
  ghost predicate TellsApart(nfc: string -> string, v: Value, w: Value) { SameValue(v, w) && Canonical(nfc, v) != Canonical(nfc, w) }

  lemma ListWitness(nfc: string -> string, xs: seq<Value>, i: nat, w: Value)
    requires PythonValue(List(xs)) && i < |xs| && Canonical(nfc, List(xs)).Some? && TellsApart(nfc, xs[i], w)
    ensures TellsApart(nfc, List(xs), List(xs[i := w]))
  {
    var ys := xs[i := w];
    forall j | 0 <= j < |xs| ensures SameValue(xs[j], ys[j]) { if j != i { SameAsItself(xs[j]); } }
    assert SameValue(List(xs), List(ys));
    ItemAt(nfc, xs, i);
    if Canonical(nfc, List(ys)).Some? { ItemAt(nfc, ys, i); }
    hide Canonical;
  }

  lemma ReorderedSame(p: seq<Entry>, q: seq<Entry>)
    requires PythonValue(Dict(p)) && forall e :: e in p <==> e in q
    ensures SameValue(Dict(p), Dict(q))
  {
    forall e | e in p ensures Lookup(q, e.key) == Some(e.value) && SameValue(e.value, e.value) {
      LookupMember(q, e);
      SameAsItself(e.value);
    }
    forall d | d in q ensures Lookup(p, d.key).Some? { LookupMember(p, d); }
  }

  function Without(p: seq<Entry>, k: Key): (r: seq<Entry>)
    ensures forall d :: d in r <==> d in p && d.key != k
  {
    if p == [] then []
    else
      var tail := Without(p[1..], k);
      assert p == [p[0]] + p[1..];
      if p[0].key == k then tail else [p[0]] + tail
  }

  /** The dict with one entry set anew, last. */
  function Reset(p: seq<Entry>, k: Key, w: Value): seq<Entry> { Without(p, k) + [Entry(k, w)] }

  lemma ResetSame(p: seq<Entry>, e: Entry, w: Value)
    requires PythonValue(Dict(p)) && e in p && SameValue(e.value, w)
    ensures SameValue(Dict(p), Dict(Reset(p, e.key, w)))
  {
    hide SameValue;
    var q := Reset(p, e.key, w);
    var last := Entry(e.key, w);
    assert forall d :: d in q <==> d in Without(p, e.key) || d == last;
    assert IsPythonDict(q);
    forall d | d in p ensures Lookup(q, d.key).Some? && SameValue(d.value, Lookup(q, d.key).value) {
      if d.key == e.key {
        assert d == e;
        LookupMember(q, last);
      } else {
        LookupMember(q, d);
        SameAsItself(d.value);
      }
    }
    forall d | d in q ensures Lookup(p, d.key).Some? { LookupMember(p, if d == last then e else d); }
    DictsSame(p, q);
  }

  lemma DictsSame(p: seq<Entry>, q: seq<Entry>)
    requires IsPythonDict(p) && IsPythonDict(q) && forall d :: d in q ==> Lookup(p, d.key).Some?
    requires forall e :: e in p ==> Lookup(q, e.key).Some? && SameValue(e.value, Lookup(q, e.key).value)
    ensures SameValue(Dict(p), Dict(q))
  {
  }

  lemma ResetDiffers(nfc: string -> string, p: seq<Entry>, e: Entry, w: Value)
    requires Accepted(nfc, p) && Harmless(nfc, p) && e in p && Canonical(nfc, e.value) != Canonical(nfc, w)
    ensures Canonical(nfc, Dict(p)) != Canonical(nfc, Dict(Reset(p, e.key, w)))
  {
    var q := Reset(p, e.key, w);
    var last := Entry(e.key, w);
    CanonicalDict(nfc, p);
    CanonicalDict(nfc, q);
    HarmlessImages(nfc, p);
    FinalKeepsAll(Images(nfc, p));
    var i :| 0 <= i < |p| && p[i] == e;
    assert Images(nfc, p)[i] == Image(nfc, e);
    if Accepted(nfc, q) {
      FinalMembers(Images(nfc, q));
      assert q[|q| - 1] == last && Images(nfc, q)[|q| - 1] == Image(nfc, last);
      assert Image(nfc, last).key == Image(nfc, e).key && Image(nfc, last) != Image(nfc, e);
      hide Final, Image, Images;
      DifferByKey(Final(Images(nfc, p)), Final(Images(nfc, q)), Image(nfc, e), Image(nfc, last));
    }
  }

  /** Where some dict has keys that NFC merges with different values, another order of that dict gives another text. */
  lemma {:induction false} OrderWitness(nfc: string -> string, v: Value) returns (w: Value)
    requires PythonValue(v) && Canonical(nfc, v).Some? && !HarmlessEverywhere(nfc, v)
    ensures TellsApart(nfc, v, w)
    decreases v
  {
    hide Canonical, TellsApart;
    if v.List? {
      var i :| 0 <= i < |v.items| && !HarmlessEverywhere(nfc, v.items[i]);
      ItemAt(nfc, v.items, i);
      var x := OrderWitness(nfc, v.items[i]);
      ListWitness(nfc, v.items, i, x);
      w := List(v.items[i := x]);
    } else {
      CanonicalDict(nfc, v.entries);
      if !Harmless(nfc, v.entries) {
        w := ReorderWitness(nfc, v.entries);
      } else {
        var e :| e in v.entries && !HarmlessEverywhere(nfc, e.value);
        EntryCanonical(nfc, v.entries, e);
        var x := OrderWitness(nfc, e.value);
        EntryWitness(nfc, v.entries, e, x);
        w := Dict(Reset(v.entries, e.key, x));
      }
    }
  }

  lemma EntryCanonical(nfc: string -> string, p: seq<Entry>, e: Entry)
    requires Accepted(nfc, p) && e in p
    ensures Canonical(nfc, e.value).Some?
  {
    var i :| 0 <= i < |p| && p[i] == e;
    assert NormalizeEntry(nfc, p[i]).Some?;
  }

  lemma EntryWitness(nfc: string -> string, p: seq<Entry>, e: Entry, w: Value)
    requires PythonValue(Dict(p)) && Accepted(nfc, p) && Harmless(nfc, p) && e in p && TellsApart(nfc, e.value, w)
    ensures TellsApart(nfc, Dict(p), Dict(Reset(p, e.key, w)))
  {
    ResetSame(p, e, w);
    ResetDiffers(nfc, p, e, w);
  }

  lemma ReorderWitness(nfc: string -> string, p: seq<Entry>) returns (w: Value)
    requires PythonValue(Dict(p)) && Accepted(nfc, p) && !Harmless(nfc, p)
    ensures TellsApart(nfc, Dict(p), w)
  {
    OrderIrrelevantIff(nfc, p);
    var q :| Reordered(p, q) && Dumps(nfc, Dict(q)) != Dumps(nfc, Dict(p));
    ReorderedMembers(nfc, p, q);
    ReorderedSame(p, q);
    DumpsDeterminesCanonical(nfc, Dict(q), Dict(p));
    w := Dict(q);
  }

  lemma CanonicalSome(nfc: string -> string, v: Value)
    ensures v.List? ==> (Canonical(nfc, v).Some? <==> forall i :: 0 <= i < |v.items| ==> Canonical(nfc, v.items[i]).Some?)
    ensures v.Dict? ==> (Canonical(nfc, v).Some? <==> forall e :: e in v.entries ==> e.key.Text? && Canonical(nfc, e.value).Some?)
  {
    if v.Dict? {
      CanonicalDict(nfc, v.entries);
      if Accepted(nfc, v.entries) {
        forall e | e in v.entries ensures e.key.Text? && Canonical(nfc, e.value).Some? {
          var i :| 0 <= i < |v.entries| && v.entries[i] == e;
          assert NormalizeEntry(nfc, v.entries[i]).Some?;
        }
      }
    }
  }

  /** Whether a value is refused does not depend on any order in it. */
  lemma {:induction false} RefusedAlike(nfc: string -> string, v: Value, w: Value)
    requires SameValue(v, w)
    ensures Canonical(nfc, v).Some? <==> Canonical(nfc, w).Some?
    decreases v
  {
    CanonicalSome(nfc, v);
    CanonicalSome(nfc, w);
    hide Canonical;
    if v.List? {
      forall i | 0 <= i < |v.items| ensures Canonical(nfc, v.items[i]).Some? <==> Canonical(nfc, w.items[i]).Some? {
        RefusedAlike(nfc, v.items[i], w.items[i]);
      }
    } else if v.Dict? {
      SameDicts(v, w);
      hide SameValue;
      forall e | e in v.entries
        ensures Canonical(nfc, e.value).Some? <==> Canonical(nfc, Lookup(w.entries, e.key).value).Some?
      {
        RefusedAlike(nfc, e.value, Lookup(w.entries, e.key).value);
      }
      forall d | d in w.entries
        ensures Entry(d.key, Lookup(v.entries, d.key).value) in v.entries && Lookup(w.entries, d.key) == Some(d.value)
      {
        LookupMember(w.entries, d);
      }
    }
  }

  /**
    The text of a Python value is the same for every order of the dicts in it, at every depth, if and only if it is
    refused (in every order) or no dict in it has two keys that NFC makes equal with different canonical values.
   */
  lemma OrderIrrelevantEverywhereIff(nfc: string -> string, v: Value)
    requires PythonValue(v)
    ensures (forall w :: SameValue(v, w) ==> Dumps(nfc, w) == Dumps(nfc, v)) <==>
      Dumps(nfc, v).None? || HarmlessEverywhere(nfc, v)
  {
    hide SameValue, HarmlessEverywhere, Canonical;
    assert Dumps(nfc, v).Some? <==> Canonical(nfc, v).Some? by { DumpsWhenCanonical(nfc, v); }
    if Dumps(nfc, v).None? || HarmlessEverywhere(nfc, v) {
      forall w | SameValue(v, w) ensures Dumps(nfc, w) == Dumps(nfc, v) {
        if HarmlessEverywhere(nfc, v) {
          SameValueSameText(nfc, v, w);
        } else {
          RefusedAlike(nfc, v, w);
          DumpsWhenCanonical(nfc, w);
        }
      }
    } else {
      var w := OrderWitness(nfc, v);
      DumpsDeterminesCanonical(nfc, w, v);
    }
  }

  lemma DumpsWhenCanonical(nfc: string -> string, v: Value)
    ensures Dumps(nfc, v).Some? <==> Canonical(nfc, v).Some?
  {
  }

  // ---------------------------------------------------------------------------------------
  // request_hash

  datatype Request = Request(action: string, target: string, params: seq<Entry>, summary: string, fingerprint: string)

  function RequestEntries(r: Request): seq<Entry> {
    [Entry(Text("v"), Int(1)), Entry(Text("action"), Str(r.action)), Entry(Text("target_id"), Str(r.target)),
     Entry(Text("params"), Dict(r.params)), Entry(Text("summary"), Str(r.summary)),
     Entry(Text("target_fingerprint"), Str(r.fingerprint))]
  }

  /** The text that `request_hash` digests; None when `params` holds something refused. */
  function RequestText(nfc: string -> string, r: Request): Option<string> { Dumps(nfc, Dict(RequestEntries(r))) }

  /** NFC leaves ASCII text alone; the model only needs it for the six field names. */
  ghost predicate KeepsFieldNames(nfc: string -> string) {
    && nfc("v") == "v" && nfc("action") == "action" && nfc("target_id") == "target_id" && nfc("params") == "params"
    && nfc("summary") == "summary" && nfc("target_fingerprint") == "target_fingerprint"
  }

  ghost predicate SameRequest(nfc: string -> string, a: Request, b: Request) {
    && nfc(a.action) == nfc(b.action) && nfc(a.target) == nfc(b.target) && nfc(a.summary) == nfc(b.summary)
    && nfc(a.fingerprint) == nfc(b.fingerprint) && Canonical(nfc, Dict(a.params)) == Canonical(nfc, Dict(b.params))
  }

  lemma FieldNamesDiffer()
    ensures var k := ["v", "action", "target_id", "params", "summary", "target_fingerprint"];
      forall i, j :: 0 <= i < j < 6 ==> k[i] != k[j]
  {
    assert "v"[0] == 'v' && "action"[0] == 'a' && "params"[0] == 'p' && "summary"[0] == 's';
    assert |"target_id"| != |"target_fingerprint"| && "target_id"[0] == 't' == "target_fingerprint"[0];
  }

  /** The six fields under their names. */
  function RequestFields(nfc: string -> string, r: Request, params: Norm): seq<Field> {
    [Field("v", NInt(1)), Field("action", NStr(nfc(r.action))), Field("target_id", NStr(nfc(r.target))),
     Field("params", params), Field("summary", NStr(nfc(r.summary))),
     Field("target_fingerprint", NStr(nfc(r.fingerprint)))]
  }

  lemma RequestImages(nfc: string -> string, r: Request)
    requires KeepsFieldNames(nfc)
    ensures Accepted(nfc, RequestEntries(r)) <==> Canonical(nfc, Dict(r.params)).Some?
    ensures Accepted(nfc, RequestEntries(r)) ==>
      Images(nfc, RequestEntries(r)) == RequestFields(nfc, r, Canonical(nfc, Dict(r.params)).value)
  {
    var p := RequestEntries(r);
    assert NormalizeEntry(nfc, p[3]).Some? <==> Canonical(nfc, Dict(r.params)).Some?;
    forall i | 0 <= i < 6 && i != 3
      ensures NormalizeEntry(nfc, p[i]).Some? && Image(nfc, p[i]) == RequestFields(nfc, r, NNull)[i]
    {
    }
    if Canonical(nfc, Dict(r.params)).Some? {
      forall i | 0 <= i < 6 ensures NormalizeEntry(nfc, p[i]).Some? {}
      assert Accepted(nfc, p);
      assert Images(nfc, p) == RequestFields(nfc, r, Canonical(nfc, Dict(r.params)).value);
    }
  }

  lemma RequestKeysOnce(nfc: string -> string, r: Request, params: Norm)
    ensures OneValuePerKey(RequestFields(nfc, r, params))
  {
    FieldNamesDiffer();
    var fs := RequestFields(nfc, r, params);
    forall f, g | f in fs && g in fs && f.key == g.key ensures f == g {
      var i :| 0 <= i < 6 && fs[i] == f;
      var j :| 0 <= j < 6 && fs[j] == g;
    }
  }

  lemma FieldsByName(nfc: string -> string, a: Request, pa: Norm, b: Request, pb: Norm)
    requires forall f :: f in RequestFields(nfc, a, pa) ==> f in RequestFields(nfc, b, pb)
    ensures RequestFields(nfc, a, pa) == RequestFields(nfc, b, pb)
  {
    FieldNamesDiffer();
    var fs, gs := RequestFields(nfc, a, pa), RequestFields(nfc, b, pb);
    forall i | 0 <= i < 6 ensures fs[i] == gs[i] {
      assert fs[i] in gs;
      var j :| 0 <= j < 6 && gs[j] == fs[i];
    }
  }

  lemma RequestFinals(nfc: string -> string, a: Request, pa: Norm, b: Request, pb: Norm)
    ensures Final(RequestFields(nfc, a, pa)) == Final(RequestFields(nfc, b, pb))
      <==> RequestFields(nfc, a, pa) == RequestFields(nfc, b, pb)
  {
    var fs, gs := RequestFields(nfc, a, pa), RequestFields(nfc, b, pb);
    RequestKeysOnce(nfc, a, pa);
    RequestKeysOnce(nfc, b, pb);
    FinalKeepsAll(fs);
    FinalKeepsAll(gs);
    if Final(fs) == Final(gs) {
      forall f | f in fs ensures f in gs { assert f in Final(fs); }
      FieldsByName(nfc, a, pa, b, pb);
    }
  }

  /** The digested text is refused exactly when `params` is. */
  lemma RequestTextDefined(nfc: string -> string, r: Request)
    requires KeepsFieldNames(nfc)
    ensures RequestText(nfc, r).Some? <==> Canonical(nfc, Dict(r.params)).Some?
    ensures RequestText(nfc, r).Some? <==> Accepted(nfc, RequestEntries(r))
  {
    RequestImages(nfc, r);
    CanonicalDict(nfc, RequestEntries(r));
  }

  /** Equal digested texts mean equal action, target, parameters, summary and fingerprint up to NFC, and conversely. */
  lemma RequestTextBinds(nfc: string -> string, a: Request, b: Request)
    requires KeepsFieldNames(nfc) && RequestText(nfc, a).Some? && RequestText(nfc, b).Some?
    ensures RequestText(nfc, a) == RequestText(nfc, b) <==> SameRequest(nfc, a, b)
  {
    RequestTextDefined(nfc, a);
    RequestTextDefined(nfc, b);
    RequestImages(nfc, a);
    RequestImages(nfc, b);
    DictTexts(nfc, RequestEntries(a), RequestEntries(b));
    var pa, pb := Canonical(nfc, Dict(a.params)).value, Canonical(nfc, Dict(b.params)).value;
    RequestFinals(nfc, a, pa, b, pb);
    FieldsAgree(nfc, a, pa, b, pb);
  }

  lemma FieldsAgree(nfc: string -> string, a: Request, pa: Norm, b: Request, pb: Norm)
    ensures RequestFields(nfc, a, pa) == RequestFields(nfc, b, pb) <==>
      nfc(a.action) == nfc(b.action) && nfc(a.target) == nfc(b.target) && pa == pb
      && nfc(a.summary) == nfc(b.summary) && nfc(a.fingerprint) == nfc(b.fingerprint)
  {
    var fs, gs := RequestFields(nfc, a, pa), RequestFields(nfc, b, pb);
    assert fs == gs ==> fs[1] == gs[1] && fs[2] == gs[2] && fs[3] == gs[3] && fs[4] == gs[4] && fs[5] == gs[5];
  }

  lemma RequestHarmless(nfc: string -> string, r: Request)
    requires KeepsFieldNames(nfc)
    ensures Harmless(nfc, RequestEntries(r))
  {
    FieldNamesDiffer();
    var p := RequestEntries(r);
    var k := ["v", "action", "target_id", "params", "summary", "target_fingerprint"];
    assert forall i :: 0 <= i < 6 ==> p[i].key == Text(k[i]) && nfc(k[i]) == k[i];
    forall d, e | d in p && e in p && NormalizeEntry(nfc, d).Some? && NormalizeEntry(nfc, e).Some?
      && Image(nfc, d).key == Image(nfc, e).key ensures Image(nfc, d) == Image(nfc, e)
    {
      var i :| 0 <= i < 6 && p[i] == d;
      var j :| 0 <= j < 6 && p[j] == e;
    }
  }

  /** The digested object is as safe as its params. */
  lemma RequestSafeIff(nfc: string -> string, r: Request)
    requires KeepsFieldNames(nfc)
    ensures HarmlessEverywhere(nfc, Dict(RequestEntries(r))) <==> HarmlessEverywhere(nfc, Dict(r.params))
  {
    RequestHarmless(nfc, r);
    hide Harmless;
    var p := RequestEntries(r);
    assert p[3] in p && p[3].value == Dict(r.params);
    forall e | e in p && e.value != Dict(r.params) ensures HarmlessEverywhere(nfc, e.value) {
      var i :| 0 <= i < 6 && p[i] == e;
    }
  }
}
