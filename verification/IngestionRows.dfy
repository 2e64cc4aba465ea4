/**
  The rows that each ingestion leaves, exactly: which refusal or which new rows, said of the rows themselves.
 */
module IngestionRows {
  import opened Wrappers
  import opened Ingestion

  /** A source of that id that is not deleted. */
  predicate IsSource(t: Tables, sourceId: string, f: nat) { f < |t.files| && t.files[f].sourceId == sourceId && !t.files[f].deleted }

  /** The version with the highest number of the source. */
  ghost predicate IsLatest(t: Tables, f: nat, i: nat) {
    && i < |t.versions| && t.versions[i].file == f
    && forall j :: 0 <= j < |t.versions| && t.versions[j].file == f ==> t.versions[j].number <= t.versions[i].number
  }

  /** The first version with those bytes whose source is not deleted. */
  ghost predicate IsFirstHolder(t: Tables, hash: string, i: nat) {
    && Holder(t, hash, i) && forall j :: 0 <= j < i ==> !Holder(t, hash, j)
  }

  predicate Holder(t: Tables, hash: string, i: nat) {
    i < |t.versions| && t.versions[i].hash == hash && t.versions[i].file < |t.files| && !t.files[t.versions[i].file].deleted
  }

  lemma {:induction false} FindFileExactly(t: Tables, sourceId: string, n: nat)
    requires n <= |t.files|
    ensures var f := FindFile(t, sourceId, n);
      && (f.Some? ==> f.value < n && IsSource(t, sourceId, f.value))
      && (f.None? ==> forall g: nat :: g < n ==> !IsSource(t, sourceId, g))
  {
    if n > 0 { FindFileExactly(t, sourceId, n - 1); }
  }

  lemma FirstHolderExactly(t: Tables, hash: string, i: nat)
    ensures FirstWith(t, hash, |t.versions|) == Some(i) <==> IsFirstHolder(t, hash, i)
  {
    FirstWithIs(t, hash, |t.versions|);
    hide FirstWith;
    if IsFirstHolder(t, hash, i) {
      var k := FirstWith(t, hash, |t.versions|).value;
      assert Holder(t, hash, k);
    }
    if FirstWith(t, hash, |t.versions|) == Some(i) {
      forall j | 0 <= j < i ensures !Holder(t, hash, j) {}
    }
  }

  lemma SourceIsUnique(t: Tables, sourceId: string, f: nat, g: nat)
    requires Inv(t) && IsSource(t, sourceId, f) && g < |t.files| && t.files[g].sourceId == sourceId
    ensures f == g
  {
    assert FileOk(t, f);
  }

  lemma LatestIsUnique(t: Tables, f: nat, i: nat, j: nat)
    requires Inv(t) && IsLatest(t, f, i) && IsLatest(t, f, j)
    ensures i == j
  {
    assert PairOk(t, i, j) && PairOk(t, j, i);
  }

  lemma LatestExactly(t: Tables, f: nat)
    requires Inv(t) && f < |t.files|
    ensures Latest(t, f, |t.versions|).Some? && IsLatest(t, f, Latest(t, f, |t.versions|).value)
  {
    assert FileOk(t, f) && forall i, j :: PairOk(t, i, j);
    var k :| 0 <= k < |t.versions| && t.versions[k].file == f;
    hide Inv, Latest;
    LatestIsLast(t, f, |t.versions|, k);
    forall j | 0 <= j < |t.versions| && t.versions[j].file == f
      ensures t.versions[j].number <= t.versions[Latest(t, f, |t.versions|).value].number
    {
      LatestIsLast(t, f, |t.versions|, j);
    }
  }

  predicate NameFits(name: string) { |name| > 0 && forall c :: c in name ==> c != 0 as char && c != '\n' && c != '\r' }

  lemma NameExactly(name: string)
    ensures NameOk(name) <==> NameFits(name)
  {
    if NameFits(name) { forall i | 0 <= i < |name| ensures name[i] in name {} }
  }

  /** One more version of source `f`, with its blob row and its one reference. */
  predicate Adds(t: Tables, u: Tables, f: nat, number: nat, s: Stored, supersedes: Option<nat>) {
    && u.versions == t.versions + [VersionRow(f, number, "sha256:" + s.sha256, s.sha256, supersedes)]
    && u.refs == t.refs + {Ref(s.sha256, SourceVersion, |t.versions|)}
    && u.blobs == (if s.sha256 in t.blobs then t.blobs else t.blobs[s.sha256 := s.size])
  }

  /** `ingest_new`, every case. */
  lemma IngestExactly(t: Tables, s: Stored, provider: string, name: string, sourceId: string)
    requires Inv(t)
    ensures var (u, r) := NewSource(t, s, provider, name, sourceId);
      var hash := "sha256:" + s.sha256;
      var held, taken := exists i: nat :: IsFirstHolder(t, hash, i), exists f :: 0 <= f < |t.files| && t.files[f].sourceId == sourceId;
      if provider !in {"local", "canvas", "github"} then (u, r) == (t, Err(BadProvider))
      else if !NameFits(name) then (u, r) == (t, Err(BadName))
      else if held then
        forall i: nat :: IsFirstHolder(t, hash, i) ==>
          var v := t.versions[i];
          var source := t.files[v.file].sourceId;
          (u, r) == (t, Ok(Ingested(source, v.file, i, v.number, hash, s, false, Some(source))))
      else if taken then (u, r) == (t, Err(ConstraintFailed))
      else
        && u.files == t.files + [FileRow(sourceId, provider, name, false)] && Adds(t, u, |t.files|, 1, s, None)
        && r == Ok(Ingested(sourceId, |t.files|, |t.versions|, 1, hash, s, true, None))
  {
    NameExactly(name);
    IngestKeepsInv(t, s, provider, name, sourceId);
    forall i: nat ensures FirstWith(t, HashOf(s), |t.versions|) == Some(i) <==> IsFirstHolder(t, HashOf(s), i) {
      FirstHolderExactly(t, HashOf(s), i);
    }
    hide Inv, FirstWith, NameOk, NameFits, VersionFits;
    var existing := FirstWith(t, HashOf(s), |t.versions|);
    if existing.Some? { assert IsFirstHolder(t, HashOf(s), existing.value); }
  }

  /** `add_version`, every case: of the one source of that id, `i` its latest version. */
  lemma RevisionExactly(t: Tables, sourceId: string, s: Stored)
    requires Inv(t)
    ensures (forall f: nat :: !IsSource(t, sourceId, f)) ==> Revision(t, sourceId, s) == (t, Err(UnknownSource))
    ensures forall f: nat, i: nat :: IsSource(t, sourceId, f) && IsLatest(t, f, i) ==> Revised(t, sourceId, s, f, i)
    ensures forall f: nat :: IsSource(t, sourceId, f) ==> exists i: nat :: IsLatest(t, f, i)
  {
    FindFileExactly(t, sourceId, |t.files|);
    forall f: nat, i: nat | IsSource(t, sourceId, f) && IsLatest(t, f, i) ensures Revised(t, sourceId, s, f, i) {
      SourceIsUnique(t, sourceId, f, FindFile(t, sourceId, |t.files|).value);
      RevisedExactly(t, sourceId, s, f, i);
    }
    forall f: nat | IsSource(t, sourceId, f) ensures exists i: nat :: IsLatest(t, f, i) {
      LatestExactly(t, f);
      assert IsLatest(t, f, Latest(t, f, |t.versions|).value);
    }
  }

  /** What a revision of source `f`, latest version `i`, does. */
  ghost predicate Revised(t: Tables, sourceId: string, s: Stored, f: nat, i: nat)
    requires i < |t.versions|
  {
    var (u, r) := Revision(t, sourceId, s);
    var hash, last := "sha256:" + s.sha256, t.versions[i];
    if last.hash == hash then (u, r) == (t, Ok(Ingested(sourceId, f, i, last.number, hash, s, false, None)))
    else if exists k :: 0 <= k < |t.versions| && t.versions[k].file == f && t.versions[k].hash == hash then
      && u == t
      && forall k :: 0 <= k < |t.versions| && t.versions[k].file == f && t.versions[k].hash == hash ==> r == Err(EqualsVersion(t.versions[k].number))
    else
      && u.files == t.files && Adds(t, u, f, last.number + 1, s, Some(i))
      && r == Ok(Ingested(sourceId, f, |t.versions|, last.number + 1, hash, s, true, None))
  }

  lemma SameHashExactly(t: Tables, f: nat, hash: string)
    requires Inv(t)
    ensures var k := SameHash(t, f, hash, |t.versions|);
      && (k.Some? ==> k.value < |t.versions| && t.versions[k.value].file == f && t.versions[k.value].hash == hash)
      && forall j :: 0 <= j < |t.versions| && t.versions[j].file == f && t.versions[j].hash == hash ==> k == Some(j)
  {
    SameHashIs(t, f, hash, |t.versions|);
    forall j | 0 <= j < |t.versions| && t.versions[j].file == f && t.versions[j].hash == hash ensures SameHash(t, f, hash, |t.versions|) == Some(j) {
      SameHashFinds(t, f, hash, |t.versions|, j);
      var k := SameHash(t, f, hash, |t.versions|).value;
      assert PairOk(t, j, k) && PairOk(t, k, j);
    }
  }

  lemma {:induction false} SameHashIs(t: Tables, f: nat, hash: string, n: nat)
    requires n <= |t.versions|
    ensures var k := SameHash(t, f, hash, n); k.Some? ==> k.value < n && t.versions[k.value].file == f && t.versions[k.value].hash == hash
  {
    if n > 0 { SameHashIs(t, f, hash, n - 1); }
  }

  lemma RevisedExactly(t: Tables, sourceId: string, s: Stored, f: nat, i: nat)
    requires Inv(t) && FindFile(t, sourceId, |t.files|) == Some(f) && f < |t.files| && IsLatest(t, f, i)
    ensures Revised(t, sourceId, s, f, i)
  {
    LatestExactly(t, f);
    LatestIsUnique(t, f, i, Latest(t, f, |t.versions|).value);
    SameHashExactly(t, f, HashOf(s));
    RevisionKeepsInv(t, sourceId, s);
    hide Inv, FindFile, Latest, SameHash, VersionFits, IsLatest;
  }
}
