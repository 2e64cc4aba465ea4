/**
  What `canonical.dumps` writes, said without following its steps: the text of a value exists when nothing in it
  is refused, and a reader takes it for the one tree that depicts the value.
*/
module CanonicalText {
  import opened Wrappers
  import opened CanonicalJson
  import opened CanonicalOrder

  /** No float, foreign object or key that is not a string, at any depth. */
  ghost predicate Permitted(v: Value)
    decreases v
  {
    match v
    case Float => false
    case Other => false
    case List(xs) => forall i :: 0 <= i < |xs| ==> Permitted(xs[i])
    case Dict(p) => forall e :: e in p ==> e.key.Text? && Permitted(e.value)
    case _ => true
  }

  /** Member names in code point order, each once. */
  ghost predicate Ascending(fields: seq<Field>) {
    forall i, j :: 0 <= i < j < |fields| ==> Precedes(fields[i].key, fields[j].key)
  }

  /** The last entry whose key has this NFC form. */
  ghost predicate LastFor(nfc: string -> string, p: seq<Entry>, i: nat, key: string) {
    && i < |p| && p[i].key.Text? && nfc(p[i].key.text) == key
    && forall j :: i < j < |p| && p[j].key.Text? ==> nfc(p[j].key.text) != key
  }

  /** `n` shows `v`: strings in NFC, members in order, and for each member name the value of its last entry. */
  ghost predicate Depicts(nfc: string -> string, v: Value, n: Norm)
    decreases v
  {
    match v
    case Null => n == NNull
    case Bool(b) => n == NBool(b)
    case Int(i) => n == NInt(i)
    case Str(s) => n == NStr(nfc(s))
    case List(xs) => n.NList? && |n.items| == |xs| && forall i :: 0 <= i < |xs| ==> Depicts(nfc, xs[i], n.items[i])
    case Dict(p) =>
      && n.NDict? && Ascending(n.fields)
      && (forall f :: f in n.fields ==> exists i: nat :: LastFor(nfc, p, i, f.key) && Depicts(nfc, p[i].value, f.value))
      && (forall i :: 0 <= i < |p| && p[i].key.Text? ==> nfc(p[i].key.text) in KeysOf(n.fields))
    case Float => false
    case Other => false
  }

  // ---------------------------------------------------------------------------------------
  // The canonical value depicts

  lemma {:induction false} LastIsAssigned(fields: seq<Field>, i: nat)
    requires i < |fields| && forall j :: i < j < |fields| ==> fields[j].key != fields[i].key
    ensures fields[i] in AssignAll(fields)
  {
    var front, last := fields[..|fields|-1], fields[|fields|-1];
    AssignAllMembers(front);
    AssignMembers(AssignAll(front), last);
    if i < |front| {
      assert front[i] == fields[i];
      LastIsAssigned(front, i);
    }
  }

  lemma {:induction false} LastWithKey(nfc: string -> string, p: seq<Entry>, i: nat) returns (k: nat)
    requires i < |p| && forall j :: 0 <= j < |p| ==> p[j].key.Text?
    ensures LastFor(nfc, p, k, nfc(p[i].key.text))
    decreases |p| - i
  {
    if j :| i < j < |p| && nfc(p[j].key.text) == nfc(p[i].key.text) {
      k := LastWithKey(nfc, p, j);
    } else {
      k := i;
    }
  }

  lemma SortedAscends(fields: seq<Field>)
    ensures StrictlySorted(fields) <==> Ascending(fields)
  {
    hide Precedes, Less;
    forall i, j | 0 <= i < j < |fields| ensures Less(fields[i].key, fields[j].key) <==> Precedes(fields[i].key, fields[j].key) {
      LessExactly(fields[i].key, fields[j].key);
    }
  }

  lemma {:induction false} PermittedIffCanonical(nfc: string -> string, v: Value)
    ensures Canonical(nfc, v).Some? <==> Permitted(v)
    decreases v
  {
    match v
    case List(xs) => forall i | 0 <= i < |xs| { PermittedIffCanonical(nfc, xs[i]); }
    case Dict(p) =>
      forall i | 0 <= i < |p| ensures NormalizeEntry(nfc, p[i]).Some? <==> p[i].key.Text? && Permitted(p[i].value) {
        PermittedIffCanonical(nfc, p[i].value);
      }
      PermittedEntries(nfc, p);
    case _ =>
  }

  lemma PermittedEntries(nfc: string -> string, p: seq<Entry>)
    requires forall i :: 0 <= i < |p| ==> (NormalizeEntry(nfc, p[i]).Some? <==> p[i].key.Text? && Permitted(p[i].value))
    ensures Canonical(nfc, Dict(p)).Some? <==> Permitted(Dict(p))
  {
    hide Canonical, NormalizeEntry;
    CanonicalDict(nfc, p);
    if Accepted(nfc, p) {
      forall e | e in p ensures e.key.Text? && Permitted(e.value) { var i :| 0 <= i < |p| && p[i] == e; }
    } else {
      var i :| 0 <= i < |p| && NormalizeEntry(nfc, p[i]).None?;
      assert p[i] in p;
    }
  }

  lemma {:induction false} SortedItemsAt(items: seq<Norm>)
    ensures |SortedItems(items)| == |items|
    ensures forall i :: 0 <= i < |items| ==> SortedItems(items)[i] == Sorted(items[i])
  {
    if items != [] { SortedItemsAt(items[1..]); }
  }

  lemma {:induction false} CanonicalDepicts(nfc: string -> string, v: Value)
    requires Canonical(nfc, v).Some?
    ensures Depicts(nfc, v, Canonical(nfc, v).value)
    decreases v
  {
    match v
    case List(xs) =>
      SortedItemsAt(NormalizeItems(nfc, xs).value);
      forall i | 0 <= i < |xs| { CanonicalDepicts(nfc, xs[i]); }
    case Dict(p) =>
      CanonicalDict(nfc, p);
      forall i | 0 <= i < |p| { EntryDepicts(nfc, v, i); }
      DictDepicts(nfc, p, Canonical(nfc, v).value);
    case _ =>
  }

  lemma {:induction false} EntryDepicts(nfc: string -> string, v: Value, i: nat)
    requires v.Dict? && i < |v.entries| && NormalizeEntry(nfc, v.entries[i]).Some?
    ensures v.entries[i].key.Text? && Image(nfc, v.entries[i]).key == nfc(v.entries[i].key.text)
    ensures Depicts(nfc, v.entries[i].value, Image(nfc, v.entries[i]).value)
    decreases v, 0
  {
    CanonicalDepicts(nfc, v.entries[i].value);
  }

  /** What a written dict holds for a key is the image of the last entry for it. */
  lemma LastWins(nfc: string -> string, p: seq<Entry>, f: Field) returns (k: nat)
    requires Accepted(nfc, p) && f in Final(Images(nfc, p))
    requires forall i :: 0 <= i < |p| ==> p[i].key.Text? && Image(nfc, p[i]).key == nfc(p[i].key.text)
    ensures LastFor(nfc, p, k, f.key) && Image(nfc, p[k]) == f
  {
    hide Image, Accepted, NormalizeEntry, StrictlySorted;
    var fs := Images(nfc, p);
    FinalMembers(fs);
    var j :| 0 <= j < |fs| && fs[j] == f;
    k := LastWithKey(nfc, p, j);
    AssignAllMembers(fs);
    LastIsAssigned(fs, k);
    SortSorts(AssignAll(fs));
    KeyOnce(Final(fs), f, fs[k]);
  }

  /** Every entry's image, depicting its value, under its NFC key. */
  ghost predicate EntriesDepicted(nfc: string -> string, p: seq<Entry>)
    requires Accepted(nfc, p)
  {
    forall i :: 0 <= i < |p| ==> p[i].key.Text? && Image(nfc, p[i]).key == nfc(p[i].key.text) && Depicts(nfc, p[i].value, Image(nfc, p[i]).value)
  }

  lemma MembersDepicted(nfc: string -> string, p: seq<Entry>)
    requires Accepted(nfc, p) && EntriesDepicted(nfc, p)
    ensures forall f :: f in Final(Images(nfc, p)) ==> exists i: nat :: LastFor(nfc, p, i, f.key) && Depicts(nfc, p[i].value, f.value)
  {
    hide Image, Accepted, NormalizeEntry, Final, Depicts;
    forall f | f in Final(Images(nfc, p)) ensures exists i: nat :: LastFor(nfc, p, i, f.key) && Depicts(nfc, p[i].value, f.value) {
      var k := LastWins(nfc, p, f);
    }
  }

  lemma KeysDepicted(nfc: string -> string, p: seq<Entry>)
    requires Accepted(nfc, p) && EntriesDepicted(nfc, p)
    ensures forall i :: 0 <= i < |p| ==> p[i].key.Text? && nfc(p[i].key.text) in KeysOf(Final(Images(nfc, p)))
    ensures Ascending(Final(Images(nfc, p)))
  {
    hide Image, Accepted, NormalizeEntry, Final, Depicts, Ascending, StrictlySorted;
    var fs := Images(nfc, p);
    FinalMembers(fs);
    SortedAscends(Final(fs));
    forall i | 0 <= i < |p| ensures nfc(p[i].key.text) in KeysOf(Final(fs)) { assert fs[i] in fs; }
  }

  lemma DictDepicts(nfc: string -> string, p: seq<Entry>, n: Norm)
    requires Accepted(nfc, p) && n == NDict(Final(Images(nfc, p))) && EntriesDepicted(nfc, p)
    ensures Depicts(nfc, Dict(p), n)
  {
    hide EntriesDepicted, Accepted, Final, Ascending, LastFor, KeysOf;
    MembersDepicted(nfc, p);
    KeysDepicted(nfc, p);
  }

  // ---------------------------------------------------------------------------------------
  // Nothing else depicts it

  lemma LastIsOnly(nfc: string -> string, p: seq<Entry>, i: nat, j: nat, key: string)
    requires LastFor(nfc, p, i, key) && LastFor(nfc, p, j, key)
    ensures i == j
  {
  }

  /** A member of one picture is one of the other. */
  lemma SharedMember(nfc: string -> string, p: seq<Entry>, n: Norm, m: Norm, f: Field)
    requires Depicts(nfc, Dict(p), n) && Depicts(nfc, Dict(p), m) && f in n.fields
    requires forall i, a, b :: 0 <= i < |p| && Depicts(nfc, p[i].value, a) && Depicts(nfc, p[i].value, b) ==> a == b
    ensures f in m.fields
  {
    var i: nat :| LastFor(nfc, p, i, f.key) && Depicts(nfc, p[i].value, f.value);
    assert f.key in KeysOf(m.fields);
    var g :| g in m.fields && g.key == f.key;
    var j: nat :| LastFor(nfc, p, j, g.key) && Depicts(nfc, p[j].value, g.value);
    LastIsOnly(nfc, p, i, j, f.key);
  }

  lemma {:induction false} DepictedOnce(nfc: string -> string, v: Value, n: Norm, m: Norm)
    requires Depicts(nfc, v, n) && Depicts(nfc, v, m)
    ensures n == m
    decreases v
  {
    match v
    case List(xs) =>
      forall i | 0 <= i < |xs| ensures n.items[i] == m.items[i] { DepictedOnce(nfc, xs[i], n.items[i], m.items[i]); }
      assert n.items == m.items;
    case Dict(p) =>
      forall i, a, b | 0 <= i < |p| && Depicts(nfc, p[i].value, a) && Depicts(nfc, p[i].value, b) ensures a == b {
        DepictedOnce(nfc, p[i].value, a, b);
      }
      forall f ensures f in n.fields <==> f in m.fields {
        if f in n.fields { SharedMember(nfc, p, n, m, f); }
        if f in m.fields { SharedMember(nfc, p, m, n, f); }
      }
      SortedAscends(n.fields);
      SortedAscends(m.fields);
      SortedIsUnique(n.fields, m.fields);
    case _ =>
  }

  // ---------------------------------------------------------------------------------------
  // The text

  /** A value has a text unless something in it is refused, and then it is that of the only tree that depicts it. */
  lemma DumpsExactly(nfc: string -> string, v: Value, n: Norm)
    ensures Dumps(nfc, v).Some? <==> Permitted(v)
    ensures Dumps(nfc, v) == Some(Write(n)) <==> Permitted(v) && Depicts(nfc, v, n)
  {
    PermittedIffCanonical(nfc, v);
    if Permitted(v) {
      var c := Canonical(nfc, v).value;
      CanonicalDepicts(nfc, v);
      if Depicts(nfc, v, n) { DepictedOnce(nfc, v, c, n); }
      if Dumps(nfc, v) == Some(Write(n)) { WriteInjective(c, n); }
    }
  }

  /** So a reader of the text gets exactly that tree. */
  lemma TextReadsAs(nfc: string -> string, v: Value)
    requires Dumps(nfc, v).Some?
    ensures exists n :: Read(Dumps(nfc, v).value) == Some((n, [])) && Depicts(nfc, v, n)
  {
    var n := Canonical(nfc, v).value;
    CanonicalDepicts(nfc, v);
    ReadUndoesWrite(n, []);
    assert Write(n) + [] == Write(n);
  }
}
