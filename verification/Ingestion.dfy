/**
  Local ingestion (src/syllva/ingestion/local.py): a file becomes a blob, a source and a first version; a revision
  becomes the next version of its source.

  Rows are never deleted, so a table is a sequence and a row's id is its index. The blob store is content-addressed:
  what `put_stream` returns stands for the bytes.
 */
module Ingestion {
  import opened Wrappers

  datatype Stored = Stored(sha256: string, size: nat)

  datatype FileRow = FileRow(sourceId: string, provider: string, name: string, deleted: bool)

  datatype VersionRow = VersionRow(file: nat, number: nat, hash: string, blob: string, supersedes: Option<nat>)

  datatype OwnerKind = SourceVersion | Derivative | AiArtifact | UserNote | UserEdit

  datatype Ref = Ref(sha256: string, kind: OwnerKind, owner: nat)

  datatype Tables = Tables(files: seq<FileRow>, versions: seq<VersionRow>, blobs: map<string, nat>, refs: set<Ref>)

  datatype Error = BadProvider | BadName | UnknownSource | EqualsVersion(number: nat) | ConstraintFailed

  datatype Ingested = Ingested(
    sourceId: string, file: nat, version: nat, number: nat, hash: string, stored: Stored, created: bool, duplicateOf: Option<string>)

  const EMPTY := Tables([], [], map[], {})

  function HashOf(s: Stored): string { "sha256:" + s.sha256 }

  predicate Provider(p: string) { p in ["local", "canvas", "github"] }

  /** `nfc`, given the name already normalized and stripped. */
  predicate NameOk(name: string) { name != "" && forall i :: 0 <= i < |name| ==> name[i] != 0 as char && name[i] != '\r' && name[i] != '\n' }

  // ---------------------------------------------------------------------------------------
  // Queries

  /** The first version, by id, of the first `n` that holds the hash and whose source is not deleted. */
  function FirstWith(t: Tables, hash: string, n: nat): Option<nat>
    requires n <= |t.versions|
  {
    if n == 0 then None
    else
      var before := FirstWith(t, hash, n - 1);
      if before.Some? then before
      else
        var v := t.versions[n - 1];
        if v.hash == hash && v.file < |t.files| && !t.files[v.file].deleted then Some(n - 1) else None
  }

  /** The source of that id that is not deleted, among the first `n`. */
  function FindFile(t: Tables, sourceId: string, n: nat): Option<nat>
    requires n <= |t.files|
  {
    if n == 0 then None
    else if t.files[n - 1].sourceId == sourceId && !t.files[n - 1].deleted then Some(n - 1)
    else FindFile(t, sourceId, n - 1)
  }

  /** The version of a source with the highest number, among the first `n`. */
  function Latest(t: Tables, file: nat, n: nat): Option<nat>
    requires n <= |t.versions|
    ensures Latest(t, file, n).Some? ==> Latest(t, file, n).value < n && t.versions[Latest(t, file, n).value].file == file
  {
    if n == 0 then None
    else
      var before := Latest(t, file, n - 1);
      var v := t.versions[n - 1];
      if v.file == file && (before.None? || t.versions[before.value].number < v.number) then Some(n - 1) else before
  }

  /** A version of the source with that hash. */
  function SameHash(t: Tables, file: nat, hash: string, n: nat): Option<nat>
    requires n <= |t.versions|
    ensures SameHash(t, file, hash, n).Some? ==> SameHash(t, file, hash, n).value < n
  {
    if n == 0 then None
    else if t.versions[n - 1].file == file && t.versions[n - 1].hash == hash then Some(n - 1)
    else SameHash(t, file, hash, n - 1)
  }

  // ---------------------------------------------------------------------------------------
  // Transactions

  function WithBlob(t: Tables, s: Stored): Tables {
    if s.sha256 in t.blobs then t else t.(blobs := t.blobs[s.sha256 := s.size])
  }

  /** UNIQUE (source_file_id, source_version) and UNIQUE (source_file_id, source_hash) */
  predicate VersionFits(t: Tables, v: VersionRow) {
    forall i :: 0 <= i < |t.versions| && t.versions[i].file == v.file ==> t.versions[i].number != v.number && t.versions[i].hash != v.hash
  }

  function WithVersion(t: Tables, v: VersionRow): Tables {
    t.(versions := t.versions + [v], refs := t.refs + {Ref(v.blob, SourceVersion, |t.versions|)})
  }

  predicate SourceIdTaken(t: Tables, sourceId: string) { exists i :: 0 <= i < |t.files| && t.files[i].sourceId == sourceId }

  /** `ingest_new`; `sourceId` is the fresh id it draws. */
  function NewSource(t: Tables, s: Stored, provider: string, name: string, sourceId: string): (Tables, Result<Ingested, Error>) {
    if !Provider(provider) then (t, Err(BadProvider))
    else if !NameOk(name) then (t, Err(BadName))
    else
      var existing := FirstWith(t, HashOf(s), |t.versions|);
      if existing.Some? then (t, Ok(Duplicate(t, s, existing.value)))
      else if SourceIdTaken(t, sourceId) then (t, Err(ConstraintFailed))
      else
        var a := WithBlob(t, s);
        var b := a.(files := a.files + [FileRow(sourceId, provider, name, false)]);
        var v := VersionRow(|t.files|, 1, HashOf(s), s.sha256, None);
        if !VersionFits(b, v) then (t, Err(ConstraintFailed))
        else (WithVersion(b, v), Ok(Ingested(sourceId, |t.files|, |t.versions|, 1, HashOf(s), s, true, None)))
  }

  function Duplicate(t: Tables, s: Stored, version: nat): Ingested {
    if version < |t.versions| && t.versions[version].file < |t.files| then
      var v := t.versions[version];
      Ingested(t.files[v.file].sourceId, v.file, version, v.number, HashOf(s), s, false, Some(t.files[v.file].sourceId))
    else Ingested("", 0, version, 0, HashOf(s), s, false, None)
  }

  /** `add_version` */
  function Revision(t: Tables, sourceId: string, s: Stored): (Tables, Result<Ingested, Error>) {
    var file := FindFile(t, sourceId, |t.files|);
    if file.None? then (t, Err(UnknownSource))
    else
      var latest := Latest(t, file.value, |t.versions|);
      if latest.None? then (t, Err(UnknownSource))
      else
        var last := t.versions[latest.value];
        if last.hash == HashOf(s) then (t, Ok(Ingested(sourceId, file.value, latest.value, last.number, HashOf(s), s, false, None)))
        else
          var earlier := SameHash(t, file.value, HashOf(s), |t.versions|);
          if earlier.Some? then (t, Err(EqualsVersion(t.versions[earlier.value].number)))
          else
            var v := VersionRow(file.value, last.number + 1, HashOf(s), s.sha256, Some(latest.value));
            if !VersionFits(t, v) then (t, Err(ConstraintFailed))
            else (WithVersion(WithBlob(t, s), v), Ok(Ingested(sourceId, file.value, |t.versions|, v.number, HashOf(s), s, true, None)))
  }

  // ---------------------------------------------------------------------------------------
  // The shape of the tables

  ghost predicate VersionOk(t: Tables, i: nat) {
    i < |t.versions| ==>
      var v := t.versions[i];
      && v.file < |t.files| && v.number >= 1 && v.hash == "sha256:" + v.blob && v.blob in t.blobs
      && Ref(v.blob, SourceVersion, i) in t.refs
      && (v.supersedes.None? <==> v.number == 1)
      && (v.supersedes.Some? ==> v.supersedes.value < i && t.versions[v.supersedes.value].file == v.file
                                 && t.versions[v.supersedes.value].number + 1 == v.number)
  }

  /** Versions of one source: later rows have higher numbers, and hashes differ. */
  ghost predicate PairOk(t: Tables, i: nat, j: nat) {
    i < j < |t.versions| && t.versions[i].file == t.versions[j].file ==>
      t.versions[i].number < t.versions[j].number && t.versions[i].hash != t.versions[j].hash
  }

  /** Every source has a version, and no two sources share an id. */
  ghost predicate FileOk(t: Tables, f: nat) {
    f < |t.files| ==>
      && (exists i :: 0 <= i < |t.versions| && t.versions[i].file == f)
      && (forall g :: 0 <= g < |t.files| && t.files[g].sourceId == t.files[f].sourceId ==> g == f)
  }

  ghost predicate RefOk(t: Tables, r: Ref) {
    r in t.refs ==> r.sha256 in t.blobs && (r.kind == SourceVersion ==> r.owner < |t.versions| && t.versions[r.owner].blob == r.sha256)
  }

  ghost predicate Inv(t: Tables) {
    && (forall i :: VersionOk(t, i)) && (forall i, j :: PairOk(t, i, j))
    && (forall f :: FileOk(t, f)) && (forall r :: RefOk(t, r))
  }

  /** Appending a version with the next number keeps the shape; `file` may be new. */
  ghost predicate Extends(t: Tables, u: Tables, v: VersionRow) {
    && Inv(t) && u.versions == t.versions + [v] && t.blobs.Keys <= u.blobs.Keys && v.blob in u.blobs
    && u.refs == t.refs + {Ref(v.blob, SourceVersion, |t.versions|)} && v.hash == "sha256:" + v.blob
    && (if v.supersedes.None? then v.number == 1 && v.file == |t.files| && (exists f :: u.files == t.files + [f] && !SourceIdTaken(t, f.sourceId))
        else u.files == t.files && v.file < |t.files| && Latest(t, v.file, |t.versions|) == v.supersedes
             && t.versions[v.supersedes.value].number + 1 == v.number && SameHash(t, v.file, v.hash, |t.versions|).None?)
  }

  lemma {:induction false} LatestIsLast(t: Tables, file: nat, n: nat, i: nat)
    requires n <= |t.versions| && i < n && t.versions[i].file == file && forall i, j :: PairOk(t, i, j)
    ensures Latest(t, file, n).Some? && i <= Latest(t, file, n).value && t.versions[i].number <= t.versions[Latest(t, file, n).value].number
  {
    if i < n - 1 {
      LatestIsLast(t, file, n - 1, i);
      assert PairOk(t, i, n - 1);
    }
    if Latest(t, file, n - 1).Some? {
      assert PairOk(t, Latest(t, file, n - 1).value, n - 1);
    }
  }

  lemma {:induction false} SameHashFinds(t: Tables, file: nat, hash: string, n: nat, i: nat)
    requires n <= |t.versions| && i < n && t.versions[i].file == file && t.versions[i].hash == hash
    ensures SameHash(t, file, hash, n).Some?
  {
    if i < n - 1 { SameHashFinds(t, file, hash, n - 1, i); }
  }

  lemma ExtendsVersion(t: Tables, u: Tables, v: VersionRow, i: nat)
    requires Extends(t, u, v)
    ensures VersionOk(u, i)
  {
    assert VersionOk(t, i) && (v.supersedes.Some? ==> VersionOk(t, v.supersedes.value));
    hide Inv, SameHash, SourceIdTaken;
  }

  lemma ExtendsPair(t: Tables, u: Tables, v: VersionRow, i: nat, j: nat)
    requires Extends(t, u, v)
    ensures PairOk(u, i, j)
  {
    assert PairOk(t, i, j) && VersionOk(t, i) && forall i, j :: PairOk(t, i, j);
    hide Inv;
    if i < j == |t.versions| && t.versions[i].file == v.file && v.supersedes.Some? {
      LatestIsLast(t, v.file, |t.versions|, i);
      if t.versions[i].hash == v.hash { SameHashFinds(t, v.file, v.hash, |t.versions|, i); }
    }
  }

  lemma ExtendsFile(t: Tables, u: Tables, v: VersionRow, f: nat)
    requires Extends(t, u, v)
    ensures FileOk(u, f)
  {
    assert FileOk(t, f);
    hide Inv, Latest, SameHash;
    if f < |t.files| {
      var i :| 0 <= i < |t.versions| && t.versions[i].file == f;
      assert u.versions[i].file == f;
    } else if f == |t.files| && f < |u.files| {
      assert u.versions[|t.versions|].file == f;
    }
  }

  lemma ExtendsRef(t: Tables, u: Tables, v: VersionRow, r: Ref)
    requires Extends(t, u, v)
    ensures RefOk(u, r)
  {
    assert RefOk(t, r);
    hide Inv, Latest, SameHash, SourceIdTaken;
  }

  lemma ExtendsKeepsInv(t: Tables, u: Tables, v: VersionRow)
    requires Extends(t, u, v)
    ensures Inv(u)
  {
    hide Extends;
    forall i ensures VersionOk(u, i) { ExtendsVersion(t, u, v, i); }
    forall i, j ensures PairOk(u, i, j) { ExtendsPair(t, u, v, i, j); }
    forall f ensures FileOk(u, f) { ExtendsFile(t, u, v, f); }
    forall r ensures RefOk(u, r) { ExtendsRef(t, u, v, r); }
  }

  /** The UNIQUE constraints on versions never stop an ingest, and what it stores keeps the shape. */
  lemma IngestKeepsInv(t: Tables, s: Stored, provider: string, name: string, sourceId: string)
    requires Inv(t)
    ensures var (u, r) := NewSource(t, s, provider, name, sourceId);
      && Inv(u) && t.versions <= u.versions && (r == Err(ConstraintFailed) ==> SourceIdTaken(t, sourceId))
  {
    if Provider(provider) && NameOk(name) && FirstWith(t, HashOf(s), |t.versions|).None? && !SourceIdTaken(t, sourceId) {
      var v := VersionRow(|t.files|, 1, HashOf(s), s.sha256, None);
      forall i | 0 <= i < |t.versions| ensures t.versions[i].file != |t.files| { assert VersionOk(t, i); }
      hide Inv;
      var b := WithBlob(t, s).(files := t.files + [FileRow(sourceId, provider, name, false)]);
      assert VersionFits(b, v);
      assert Extends(t, WithVersion(b, v), v);
      ExtendsKeepsInv(t, WithVersion(b, v), v);
    }
  }

  /** Nor do they stop a revision. */
  lemma RevisionKeepsInv(t: Tables, sourceId: string, s: Stored)
    requires Inv(t)
    ensures var (u, r) := Revision(t, sourceId, s);
      Inv(u) && t.versions <= u.versions && r != Err(ConstraintFailed)
  {
    var file := FindFile(t, sourceId, |t.files|);
    if file.Some? && Latest(t, file.value, |t.versions|).Some? {
      var latest := Latest(t, file.value, |t.versions|);
      var last := t.versions[latest.value];
      if last.hash != HashOf(s) && SameHash(t, file.value, HashOf(s), |t.versions|).None? {
        var v := VersionRow(file.value, last.number + 1, HashOf(s), s.sha256, latest);
        RevisionFits(t, v);
        FoundFile(t, sourceId, |t.files|);
        hide Inv, Latest, SameHash, FindFile, VersionFits;
        assert Extends(t, WithVersion(WithBlob(t, s), v), v);
        ExtendsKeepsInv(t, WithVersion(WithBlob(t, s), v), v);
      }
    }
  }

  lemma {:induction false} FoundFile(t: Tables, sourceId: string, n: nat)
    requires n <= |t.files|
    ensures FindFile(t, sourceId, n).Some? ==>
      FindFile(t, sourceId, n).value < n && t.files[FindFile(t, sourceId, n).value].sourceId == sourceId
      && !t.files[FindFile(t, sourceId, n).value].deleted
  {
    if n > 0 { FoundFile(t, sourceId, n - 1); }
  }

  lemma RevisionFits(t: Tables, v: VersionRow)
    requires Inv(t) && v.supersedes.Some? && Latest(t, v.file, |t.versions|) == v.supersedes
    requires v.number == t.versions[v.supersedes.value].number + 1 && SameHash(t, v.file, v.hash, |t.versions|).None?
    ensures VersionFits(t, v)
  {
    forall i | 0 <= i < |t.versions| && t.versions[i].file == v.file ensures t.versions[i].number != v.number && t.versions[i].hash != v.hash {
      LatestIsLast(t, v.file, |t.versions|, i);
      if t.versions[i].hash == v.hash { SameHashFinds(t, v.file, v.hash, |t.versions|, i); }
    }
  }

  // ---------------------------------------------------------------------------------------
  // Runs

  /** Ingests, revisions, logical deletions, and references of other owners. */
  datatype Event =
    | Ingest(stored: Stored, provider: string, name: string, sourceId: string)
    | Revise(sourceId: string, stored: Stored)
    | Delete(file: nat)
    | Refer(ref: Ref)

  function Apply(t: Tables, e: Event): Tables {
    match e
    case Ingest(s, provider, name, sourceId) => NewSource(t, s, provider, name, sourceId).0
    case Revise(sourceId, s) => Revision(t, sourceId, s).0
    case Delete(f) => if f < |t.files| then t.(files := t.files[f := t.files[f].(deleted := true)]) else t
    case Refer(r) => if r.kind != SourceVersion && r.sha256 in t.blobs then t.(refs := t.refs + {r}) else t
  }

  function Run(t: Tables, events: seq<Event>): Tables
    decreases |events|
  {
    if events == [] then t else Run(Apply(t, events[0]), events[1..])
  }

  lemma DeleteKeepsInv(t: Tables, f: nat)
    requires Inv(t) && f < |t.files|
    ensures Inv(t.(files := t.files[f := t.files[f].(deleted := true)]))
  {
    var u := t.(files := t.files[f := t.files[f].(deleted := true)]);
    forall i ensures VersionOk(u, i) { assert VersionOk(t, i); }
    forall i, j ensures PairOk(u, i, j) { assert PairOk(t, i, j); }
    forall g ensures FileOk(u, g) { assert FileOk(t, g); }
    forall r ensures RefOk(u, r) { assert RefOk(t, r); }
  }

  lemma ReferKeepsInv(t: Tables, ref: Ref)
    requires Inv(t) && ref.kind != SourceVersion && ref.sha256 in t.blobs
    ensures Inv(t.(refs := t.refs + {ref}))
  {
    var u := t.(refs := t.refs + {ref});
    forall i ensures VersionOk(u, i) { assert VersionOk(t, i); }
    forall i, j ensures PairOk(u, i, j) { assert PairOk(t, i, j); }
    forall g ensures FileOk(u, g) { assert FileOk(t, g); }
    forall r ensures RefOk(u, r) { assert RefOk(t, r); }
  }

  lemma StepKeepsInv(t: Tables, e: Event)
    requires Inv(t)
    ensures Inv(Apply(t, e)) && t.versions <= Apply(t, e).versions
  {
    hide Inv, NewSource, Revision;
    match e
    case Ingest(s, provider, name, sourceId) => IngestKeepsInv(t, s, provider, name, sourceId);
    case Revise(sourceId, s) => RevisionKeepsInv(t, sourceId, s);
    case Delete(f) => if f < |t.files| { DeleteKeepsInv(t, f); }
    case Refer(r) => if r.kind != SourceVersion && r.sha256 in t.blobs { ReferKeepsInv(t, r); }
  }

  /** Versions are only ever appended: no run changes or loses one. */
  lemma {:induction false} RunKeepsInv(t: Tables, events: seq<Event>)
    requires Inv(t)
    ensures Inv(Run(t, events)) && t.versions <= Run(t, events).versions
    decreases |events|
  {
    hide Inv, Apply;
    if events != [] {
      StepKeepsInv(t, events[0]);
      RunKeepsInv(Apply(t, events[0]), events[1..]);
    }
  }

  /** A source has a version of that number. */
  ghost predicate HasNumber(t: Tables, file: nat, k: nat) {
    exists i :: 0 <= i < |t.versions| && t.versions[i].file == file && t.versions[i].number == k
  }

  lemma {:induction false} NumbersBelow(t: Tables, i: nat, k: nat)
    requires Inv(t) && i < |t.versions| && 1 <= k <= t.versions[i].number
    ensures HasNumber(t, t.versions[i].file, k)
    decreases i
  {
    assert VersionOk(t, i);
    if k < t.versions[i].number { NumbersBelow(t, t.versions[i].supersedes.value, k); }
  }

  /** The versions of the source are numbered 1..n. */
  ghost predicate NumberedTo(t: Tables, file: nat, n: nat) { n >= 1 && forall k: nat :: HasNumber(t, file, k) <==> 1 <= k <= n }

  /**
    After any sequence of ingests, revisions and deletions: the versions of a source are numbered 1..n without gaps or
    repetitions, version k supersedes exactly version k - 1, their hashes are distinct, and every version has its blob
    row and exactly one reference of kind source_version.
   */
  lemma VersionChains(events: seq<Event>, file: nat)
    requires file < |Run(EMPTY, events).files|
    ensures var t := Run(EMPTY, events);
      && (exists n: nat :: NumberedTo(t, file, n))
      && (forall i, j :: 0 <= i < j < |t.versions| && t.versions[i].file == file == t.versions[j].file ==>
            t.versions[i].number != t.versions[j].number && t.versions[i].hash != t.versions[j].hash)
      && (forall i :: 0 <= i < |t.versions| ==> Supersedes(t, i) && ReferencedOnce(t, i))
  {
    RunKeepsInv(EMPTY, events);
    var t := Run(EMPTY, events);
    hide Run, Inv, Supersedes, ReferencedOnce, NumberedTo;
    Numbering(t, file);
    forall i, j | 0 <= i < j < |t.versions| && t.versions[i].file == file == t.versions[j].file
      ensures t.versions[i].number != t.versions[j].number && t.versions[i].hash != t.versions[j].hash
    {
      Distinct(t, i, j);
    }
    forall i | 0 <= i < |t.versions| ensures Supersedes(t, i) && ReferencedOnce(t, i) { Linked(t, i); }
  }

  lemma Distinct(t: Tables, i: nat, j: nat)
    requires Inv(t) && i < j < |t.versions| && t.versions[i].file == t.versions[j].file
    ensures t.versions[i].number < t.versions[j].number && t.versions[i].hash != t.versions[j].hash
  {
    assert PairOk(t, i, j);
  }

  lemma Linked(t: Tables, i: nat)
    requires Inv(t) && i < |t.versions|
    ensures Supersedes(t, i) && ReferencedOnce(t, i)
  {
    assert VersionOk(t, i);
    forall r | r in t.refs && r.kind == SourceVersion && r.owner == i ensures r == Ref(t.versions[i].blob, SourceVersion, i) { assert RefOk(t, r); }
  }

  lemma Numbering(t: Tables, file: nat)
    requires Inv(t) && file < |t.files|
    ensures exists n: nat :: NumberedTo(t, file, n)
  {
    assert FileOk(t, file);
    var j :| 0 <= j < |t.versions| && t.versions[j].file == file;
    LatestIsLast(t, file, |t.versions|, j);
    var last := Latest(t, file, |t.versions|).value;
    var n := t.versions[last].number;
    assert VersionOk(t, last);
    forall k: nat ensures HasNumber(t, file, k) <==> 1 <= k <= n {
      if 1 <= k <= n { NumbersBelow(t, last, k); }
      if HasNumber(t, file, k) {
        var i :| 0 <= i < |t.versions| && t.versions[i].file == file && t.versions[i].number == k;
        LatestIsLast(t, file, |t.versions|, i);
        assert VersionOk(t, i);
      }
    }
    assert NumberedTo(t, file, n);
  }

  ghost predicate Supersedes(t: Tables, i: nat)
    requires i < |t.versions|
  {
    var v := t.versions[i];
    if v.number == 1 then v.supersedes.None?
    else v.supersedes.Some? && v.supersedes.value < |t.versions| && t.versions[v.supersedes.value].file == v.file
         && t.versions[v.supersedes.value].number + 1 == v.number
  }

  ghost predicate ReferencedOnce(t: Tables, i: nat)
    requires i < |t.versions|
  {
    && t.versions[i].blob in t.blobs && Ref(t.versions[i].blob, SourceVersion, i) in t.refs
    && forall r :: r in t.refs && r.kind == SourceVersion && r.owner == i ==> r == Ref(t.versions[i].blob, SourceVersion, i)
  }

  // ---------------------------------------------------------------------------------------
  // Doing it again

  /** No step of the run deletes the source. */
  predicate Spares(events: seq<Event>, file: nat) { forall i :: 0 <= i < |events| ==> events[i] != Delete(file) }

  /** The stored bytes are held by this version, of a source that is not deleted, and by no earlier such version. */
  ghost predicate HeldBy(t: Tables, hash: string, i: nat) { FirstWith(t, hash, |t.versions|) == Some(i) }

  lemma {:induction false} FirstWithIs(t: Tables, hash: string, n: nat)
    requires n <= |t.versions|
    ensures var f := FirstWith(t, hash, n);
      f.Some? ==> f.value < n && t.versions[f.value].hash == hash && t.versions[f.value].file < |t.files|
                  && !t.files[t.versions[f.value].file].deleted
    ensures forall i :: 0 <= i < n && t.versions[i].hash == hash && t.versions[i].file < |t.files| && !t.files[t.versions[i].file].deleted ==>
      FirstWith(t, hash, n).Some? && FirstWith(t, hash, n).value <= i
  {
    if n > 0 { FirstWithIs(t, hash, n - 1); }
  }

  /** An accepted ingest leaves the bytes held, by the version it reports. */
  lemma IngestHolds(t: Tables, s: Stored, provider: string, name: string, sourceId: string)
    requires Inv(t) && NewSource(t, s, provider, name, sourceId).1.Ok?
    ensures var (u, r) := NewSource(t, s, provider, name, sourceId);
      && HeldBy(u, HashOf(s), r.value.version) && r.value.version < |u.versions|
      && u.versions[r.value.version].file == r.value.file < |u.files| && u.files[r.value.file].sourceId == r.value.sourceId
      && !u.files[r.value.file].deleted
  {
    var u := NewSource(t, s, provider, name, sourceId).0;
    FirstWithIs(t, HashOf(s), |t.versions|);
    FirstWithIs(u, HashOf(s), |u.versions|);
    if FirstWith(t, HashOf(s), |t.versions|).None? {
      assert u.versions[|t.versions|].hash == HashOf(s) && u.versions[|t.versions|].file == |t.files|;
      var m := FirstWith(u, HashOf(s), |u.versions|).value;
      assert VersionOk(t, m);
      hide Inv, FirstWith;
    }
  }

  /** Sources keep their id, and only a deletion marks one deleted, for good. */
  ghost predicate FilesKept(t: Tables, u: Tables, e: Event) {
    |t.files| <= |u.files| && forall f :: 0 <= f < |t.files| ==>
      u.files[f].sourceId == t.files[f].sourceId && (u.files[f].deleted <==> t.files[f].deleted || e == Delete(f))
  }

  lemma StepKeepsFiles(t: Tables, e: Event)
    ensures FilesKept(t, Apply(t, e), e)
  {
    hide FirstWith, FindFile, Latest, SameHash, VersionFits, SourceIdTaken;
  }

  lemma StepHolds(t: Tables, e: Event, hash: string, i: nat)
    requires Inv(t) && HeldBy(t, hash, i) && i < |t.versions| && t.versions[i].file < |t.files| && e != Delete(t.versions[i].file)
    ensures var u := Apply(t, e);
      && HeldBy(u, hash, i) && i < |u.versions| && u.versions[i] == t.versions[i] && u.versions[i].file < |u.files|
      && u.files[u.versions[i].file].sourceId == t.files[t.versions[i].file].sourceId
  {
    var u := Apply(t, e);
    StepKeepsInv(t, e);
    StepKeepsFiles(t, e);
    FirstWithIs(t, hash, |t.versions|);
    FirstWithIs(u, hash, |u.versions|);
    assert VersionOk(t, i);
    hide Apply, FirstWith;
    assert u.versions[i] == t.versions[i];
    var m := FirstWith(u, hash, |u.versions|).value;
    assert VersionOk(t, m) && u.versions[m] == t.versions[m];
  }

  lemma {:induction false} RunHolds(t: Tables, events: seq<Event>, hash: string, i: nat)
    requires Inv(t) && HeldBy(t, hash, i) && i < |t.versions| && t.versions[i].file < |t.files| && Spares(events, t.versions[i].file)
    ensures var u := Run(t, events);
      && HeldBy(u, hash, i) && i < |u.versions| && u.versions[i] == t.versions[i] && u.versions[i].file < |u.files|
      && u.files[u.versions[i].file].sourceId == t.files[t.versions[i].file].sourceId
    decreases |events|
  {
    hide Inv, HeldBy, Apply;
    if events != [] {
      StepHolds(t, events[0], hash, i);
      StepKeepsInv(t, events[0]);
      RunHolds(Apply(t, events[0]), events[1..], hash, i);
    }
  }

  /**
    Ingesting the same bytes again, after any run that does not delete their source, changes no row and reports the
    version and the source that hold them.
   */
  lemma RepeatedIngestChangesNothing(t: Tables, s: Stored, provider: string, name: string, sourceId: string, events: seq<Event>,
                                     provider': string, name': string, sourceId': string)
    requires Inv(t) && NewSource(t, s, provider, name, sourceId).1.Ok? && Provider(provider') && NameOk(name')
    requires Spares(events, NewSource(t, s, provider, name, sourceId).1.value.file)
    ensures var (u, r) := NewSource(t, s, provider, name, sourceId);
      var w := Run(u, events);
      var (x, again) := NewSource(w, s, provider', name', sourceId');
      x == w && again.Ok? && !again.value.created && again.value.version == r.value.version && again.value.duplicateOf == Some(r.value.sourceId)
  {
    var (u, r) := NewSource(t, s, provider, name, sourceId);
    IngestKeepsInv(t, s, provider, name, sourceId);
    IngestHolds(t, s, provider, name, sourceId);
    hide Inv, Run, Spares;
    RunHolds(u, events, HashOf(s), r.value.version);
  }

  lemma {:induction false} LatestAfter(t: Tables, u: Tables, v: VersionRow)
    requires u.versions == t.versions + [v]
    requires Latest(t, v.file, |t.versions|).Some? && t.versions[Latest(t, v.file, |t.versions|).value].number < v.number
    ensures Latest(u, v.file, |u.versions|) == Some(|t.versions|)
  {
    LatestPrefix(t, u, v.file, |t.versions|);
  }

  lemma {:induction false} LatestPrefix(t: Tables, u: Tables, file: nat, n: nat)
    requires n <= |t.versions| && t.versions <= u.versions
    ensures Latest(u, file, n) == Latest(t, file, n)
  {
    if n > 0 {
      LatestPrefix(t, u, file, n - 1);
      assert u.versions[n - 1] == t.versions[n - 1];
      if Latest(t, file, n - 1).Some? { assert u.versions[Latest(t, file, n - 1).value] == t.versions[Latest(t, file, n - 1).value]; }
    }
  }

  lemma {:induction false} FindFileSame(t: Tables, u: Tables, sourceId: string, n: nat)
    requires n <= |t.files| && t.files == u.files
    ensures FindFile(u, sourceId, n) == FindFile(t, sourceId, n)
  {
    if n > 0 { FindFileSame(t, u, sourceId, n - 1); }
  }

  /**
    Repeating a revision changes no row and reports the version it made; going back to the bytes of an older version
    is refused, and changes no row either.
   */
  lemma RepeatedRevisionChangesNothing(t: Tables, sourceId: string, s: Stored, older: Stored)
    requires Inv(t) && Revision(t, sourceId, s).1.Ok?
    ensures var (u, r) := Revision(t, sourceId, s);
      && (var (x, again) := Revision(u, sourceId, s);
          x == u && again.Ok? && !again.value.created && again.value.version == r.value.version && again.value.number == r.value.number)
      && (HasHash(u, r.value.file, HashOf(older)) && HashOf(older) != HashOf(s) ==>
            Revision(u, sourceId, older).0 == u && Revision(u, sourceId, older).1.Err?)
  {
    var (u, r) := Revision(t, sourceId, s);
    RevisionKeepsInv(t, sourceId, s);
    FindFileSame(t, u, sourceId, |t.files|);
    if u != t { LatestAfter(t, u, u.versions[|t.versions|]); }
    hide Inv, FindFile, Latest;
    if HasHash(u, r.value.file, HashOf(older)) {
      var i :| 0 <= i < |u.versions| && u.versions[i].file == r.value.file && u.versions[i].hash == HashOf(older);
      SameHashFinds(u, r.value.file, HashOf(older), |u.versions|, i);
    }
    hide SameHash;
  }

  predicate HasHash(t: Tables, file: nat, hash: string) {
    exists i :: 0 <= i < |t.versions| && t.versions[i].file == file && t.versions[i].hash == hash
  }

  // ---------------------------------------------------------------------------------------
  // The tables in place

  /** The v2 state as ingestion uses it; each method is one transaction. */
  class Library {
    var files: seq<FileRow>
    var versions: seq<VersionRow>
    var blobs: map<string, nat>
    var refs: set<Ref>

    function Rows(): Tables
      reads this
    {
      Tables(files, versions, blobs, refs)
    }

    ghost predicate Valid()
      reads this
    {
      Inv(Rows())
    }

    constructor ()
      ensures Rows() == EMPTY && Valid()
    {
      files, versions, blobs, refs := [], [], map[], {};
    }

    /** `_record_blob` */
    method RecordBlob(s: Stored)
      modifies `blobs
      ensures Rows() == WithBlob(old(Rows()), s)
    {
      if s.sha256 !in blobs { blobs := blobs[s.sha256 := s.size]; }
    }

    /** Insert the version row and its reference (`_ref`, which inserts nothing that is there already). */
    method InsertVersion(v: VersionRow) returns (id: nat)
      modifies `versions, `refs
      ensures Rows() == WithVersion(old(Rows()), v) && id == old(|versions|)
    {
      id := |versions|;
      versions := versions + [v];
      if Ref(v.blob, SourceVersion, id) !in refs { refs := refs + {Ref(v.blob, SourceVersion, id)}; }
    }

    method IngestNew(s: Stored, provider: string, name: string, sourceId: string) returns (r: Result<Ingested, Error>)
      requires Valid()
      modifies this
      ensures Valid() && (Rows(), r) == NewSource(old(Rows()), s, provider, name, sourceId)
    {
      hide Inv, FirstWith;
      IngestKeepsInv(Rows(), s, provider, name, sourceId);
      if !Provider(provider) { return Err(BadProvider); }
      if !NameOk(name) { return Err(BadName); }
      var existing := FirstWith(Rows(), HashOf(s), |versions|);
      if existing.Some? { return Ok(Duplicate(Rows(), s, existing.value)); }
      if SourceIdTaken(Rows(), sourceId) { return Err(ConstraintFailed); }
      RecordBlob(s);
      var file := |files|;
      files := files + [FileRow(sourceId, provider, name, false)];
      var id := InsertVersion(VersionRow(file, 1, HashOf(s), s.sha256, None));
      return Ok(Ingested(sourceId, file, id, 1, HashOf(s), s, true, None));
    }

    method AddVersion(sourceId: string, s: Stored) returns (r: Result<Ingested, Error>)
      requires Valid()
      modifies this
      ensures Valid() && (Rows(), r) == Revision(old(Rows()), sourceId, s)
    {
      hide Inv, FindFile, Latest, SameHash;
      RevisionKeepsInv(Rows(), sourceId, s);
      var file := FindFile(Rows(), sourceId, |files|);
      if file.None? { return Err(UnknownSource); }
      var latest := Latest(Rows(), file.value, |versions|);
      if latest.None? { return Err(UnknownSource); }
      var last := versions[latest.value];
      if last.hash == HashOf(s) {
        return Ok(Ingested(sourceId, file.value, latest.value, last.number, HashOf(s), s, false, None));
      }
      var earlier := SameHash(Rows(), file.value, HashOf(s), |versions|);
      if earlier.Some? { return Err(EqualsVersion(versions[earlier.value].number)); }
      RecordBlob(s);
      var id := InsertVersion(VersionRow(file.value, last.number + 1, HashOf(s), s.sha256, latest));
      return Ok(Ingested(sourceId, file.value, id, last.number + 1, HashOf(s), s, true, None));
    }
  }
}
