/**
  The in-memory store of one-shot resolution handles and context capabilities
  (src/syllva/ephemeral/memory.py). The clock reading is a parameter of every operation; the
  random token source is a sequence without repetitions.
*/
module EphemeralStore {
  import opened Wrappers
  import opened Capabilities
  import L = Locators

  datatype Candidate = Candidate(id: string, entityType: string, entityId: string, caption: string, reason: Option<string>)

  /** A caller's candidate; `Malformed` is a value that the coercion refuses. */
  datatype Given = Good(candidate: Candidate) | Malformed

  datatype Handle = Handle(id: string, expiresAt: real, candidates: seq<Candidate>)

  datatype Entity = Entity(entityType: string, entityId: string, caption: string, candidateId: string, reason: Option<string>)

  datatype Ttl = NotANumber | NotFinite | Seconds(s: real)

  /** A caller's allowlist entry; `Unbound` is a value that cannot be bound to a locator and a source version at all. */
  datatype Offer = Offer(entry: Allowed) | Unbound

  /** The coercion lets the entry through. */
  predicate Bindable(o: Offer) { o.Offer? && ValidAllowed(o.entry) }

  /** An entry is bound iff its locator is one that the constructors accept and its version and hash are there. */
  lemma BindableExactly(o: Offer)
    ensures Bindable(o) <==>
      && o.Offer? && o.entry.fingerprint.version >= 1 && o.entry.fingerprint.hash != ""
      && var l := o.entry.locator;
      && L.IsEntityId(l.entity) && l.first <= l.last
      && if l.Page? then l.first >= 1 else l.first >= 0 && l.last <= 99 * 3600 + 59 * 60 + 59
  {
  }

  datatype Error = BadTtl | BadCandidate | BadEntry | ResolutionExpired | InvalidCandidate | ContextExpired

  const MAX_TTL := 86400.0

  function BoundedTtl(ttl: Ttl): Option<real> {
    if ttl.Seconds? && ttl.s >= 0.0 then Some(if ttl.s <= MAX_TTL then ttl.s else MAX_TTL) else None
  }

  /** A finite non-negative number of seconds is taken, and cut at one day. */
  lemma TtlExactly(ttl: Ttl)
    ensures BoundedTtl(ttl).Some? <==> ttl.Seconds? && ttl.s >= 0.0
    ensures BoundedTtl(ttl).Some? ==> var s := BoundedTtl(ttl).value; s <= 86400.0 && s <= ttl.s && (s == 86400.0 || s == ttl.s)
  {
  }

  // ---------------------------------------------------------------------------------------
  // The abstract state and its history

  /** `issued` and `resolved` record every handle ever created and every choice ever consumed. */
  datatype Model = Model(
    resolutions: map<string, Handle>, contexts: map<string, Capability>, candidateIds: set<string>,
    issued: map<string, Handle>, resolved: seq<(string, string)>)

  function IdsOf(candidates: seq<Candidate>): set<string> { set i | 0 <= i < |candidates| :: candidates[i].id }

  ghost predicate DistinctIds(candidates: seq<Candidate>) {
    forall i, j :: 0 <= i < j < |candidates| ==> candidates[i].id != candidates[j].id
  }

  ghost function AllIds(resolutions: map<string, Handle>): set<string> {
    set k, c | k in resolutions && c in IdsOf(resolutions[k].candidates) :: c
  }

  ghost predicate Disjoint(resolutions: map<string, Handle>) {
    forall j, k :: j in resolutions && k in resolutions && j != k ==>
      IdsOf(resolutions[j].candidates) !! IdsOf(resolutions[k].candidates)
  }

  /** The handle is used up, and the choice was one of its candidates. */
  ghost predicate ResolvedFrom(m: Model, id: string, candidateId: string) {
    id in m.issued && id !in m.resolutions && candidateId in IdsOf(m.issued[id].candidates)
  }

  /** The index is the disjoint union of the stored handles' ids, and no handle has been resolved twice. */
  ghost predicate Inv(m: Model) {
    && m.candidateIds == AllIds(m.resolutions)
    && Disjoint(m.resolutions)
    && (forall k :: k in m.resolutions ==> k in m.issued && m.issued[k] == m.resolutions[k])
    && (forall k :: k in m.issued ==> DistinctIds(m.issued[k].candidates))
    && (forall i :: 0 <= i < |m.resolved| ==> ResolvedFrom(m, m.resolved[i].0, m.resolved[i].1))
    && (forall i, j :: 0 <= i < j < |m.resolved| ==> m.resolved[i].0 != m.resolved[j].0)
  }

  function Drop(m: Model, id: string): Model {
    if id !in m.resolutions then m
    else m.(resolutions := m.resolutions - {id}, candidateIds := m.candidateIds - IdsOf(m.resolutions[id].candidates))
  }

  predicate Live(m: Model, id: string, now: real) { id in m.resolutions && now < m.resolutions[id].expiresAt }

  function Find(candidates: seq<Candidate>, id: string): (r: Option<Candidate>)
    ensures r.Some? <==> id in IdsOf(candidates)
    ensures r.Some? ==> r.value in candidates && r.value.id == id
  {
    if candidates == [] then None
    else if candidates[0].id == id then Some(candidates[0])
    else
      assert forall i :: 0 < i < |candidates| ==> candidates[i] == candidates[1..][i-1];
      Find(candidates[1..], id)
  }

  function Consume(m: Model, id: string, candidateId: string, now: real): (Model, Result<Entity, Error>) {
    if !Live(m, id, now) then (Drop(m, id), Err(ResolutionExpired))
    else match Find(m.resolutions[id].candidates, candidateId)
      case None => (m, Err(InvalidCandidate))
      case Some(c) =>
        (Drop(m, id).(resolved := m.resolved + [(id, candidateId)]),
         Ok(Entity(c.entityType, c.entityId, c.caption, c.id, c.reason)))
  }

  ghost function Purge(m: Model, now: real): Model {
    var left := map k | k in m.resolutions && now < m.resolutions[k].expiresAt :: m.resolutions[k];
    m.(resolutions := left,
       contexts := map k | k in m.contexts && now < m.contexts[k].expiresAt :: m.contexts[k],
       candidateIds := m.candidateIds - AllIds(m.resolutions - left.Keys))
  }

  /** One call of the store. */
  datatype Event =
    | Created(handle: Handle)
    | CreateFailed
    | Looked(id: string, now: real)
    | Chose(id: string, candidateId: string, now: real)
    | Purged(now: real)
    | ContextsChanged(contexts: map<string, Capability>)

  /** A handle is created under an id never used before, with candidate ids that no stored handle has. */
  ghost predicate Enabled(m: Model, e: Event) {
    e.Created? ==>
      && e.handle.id !in m.issued
      && DistinctIds(e.handle.candidates)
      && IdsOf(e.handle.candidates) !! m.candidateIds
  }

  ghost function Apply(m: Model, e: Event): Model {
    match e
    case Created(h) =>
      m.(resolutions := m.resolutions[h.id := h], candidateIds := m.candidateIds + IdsOf(h.candidates), issued := m.issued[h.id := h])
    case CreateFailed => m
    case Looked(id, now) => if Live(m, id, now) then m else Drop(m, id)
    case Chose(id, c, now) => Consume(m, id, c, now).0
    case Purged(now) => Purge(m, now)
    case ContextsChanged(cs) => m.(contexts := cs)
  }

  // ---------------------------------------------------------------------------------------
  // Every call keeps the invariant

  lemma DropKeepsInv(m: Model, id: string)
    requires Inv(m)
    ensures Inv(Drop(m, id))
  {
    hide IdsOf;
    if id in m.resolutions {
      var left := m.resolutions - {id};
      forall c ensures c in AllIds(left) <==> c in m.candidateIds - IdsOf(m.resolutions[id].candidates) {
        if c in AllIds(left) {
          var k :| k in left && c in IdsOf(left[k].candidates);
          assert k in m.resolutions && k != id;
        }
        if c in m.candidateIds && c !in IdsOf(m.resolutions[id].candidates) {
          var k :| k in m.resolutions && c in IdsOf(m.resolutions[k].candidates);
          assert k in left;
        }
      }
    }
  }

  lemma CreateKeepsInv(m: Model, h: Handle)
    requires Inv(m) && Enabled(m, Created(h))
    ensures Inv(Apply(m, Created(h)))
  {
    hide IdsOf;
    var more := m.resolutions[h.id := h];
    forall c ensures c in AllIds(more) <==> c in m.candidateIds + IdsOf(h.candidates) {
      if c in m.candidateIds {
        var k :| k in m.resolutions && c in IdsOf(m.resolutions[k].candidates);
        assert k in more && k != h.id;
      }
      if c in IdsOf(h.candidates) { assert h.id in more; }
    }
    forall j, k | j in more && k in more && j != k
      ensures IdsOf(more[j].candidates) !! IdsOf(more[k].candidates)
    {
      if j == h.id { SharesNothing(m, h, k); }
      if k == h.id { SharesNothing(m, h, j); }
    }
  }

  lemma SharesNothing(m: Model, h: Handle, k: string)
    requires m.candidateIds == AllIds(m.resolutions) && k in m.resolutions
    requires IdsOf(h.candidates) !! m.candidateIds
    ensures IdsOf(h.candidates) !! IdsOf(m.resolutions[k].candidates)
  {
    hide IdsOf;
    assert forall c :: c in IdsOf(m.resolutions[k].candidates) ==> c in AllIds(m.resolutions);
  }

  lemma PurgeKeepsInv(m: Model, now: real)
    requires Inv(m)
    ensures Inv(Purge(m, now))
  {
    hide IdsOf;
    var left := Purge(m, now).resolutions;
    var gone := m.resolutions - left.Keys;
    forall c ensures c in AllIds(left) <==> c in m.candidateIds - AllIds(gone) {
      if c in AllIds(left) {
        var k :| k in left && c in IdsOf(left[k].candidates);
        assert k in m.resolutions && c in AllIds(m.resolutions);
        forall j | j in gone ensures c !in IdsOf(gone[j].candidates) {
          assert j in m.resolutions && j != k;
        }
      }
      if c in m.candidateIds && c !in AllIds(gone) {
        var k :| k in m.resolutions && c in IdsOf(m.resolutions[k].candidates);
        assert k in left || k in gone;
      }
    }
  }

  lemma StepKeepsInv(m: Model, e: Event)
    requires Inv(m) && Enabled(m, e)
    ensures Inv(Apply(m, e))
  {
    hide IdsOf;
    match e
    case Created(h) => CreateKeepsInv(m, h);
    case CreateFailed =>
    case Looked(id, now) => DropKeepsInv(m, id);
    case Chose(id, c, now) => DropKeepsInv(m, id);
    case Purged(now) => PurgeKeepsInv(m, now);
    case ContextsChanged(_) =>
  }

  lemma PrefixInjective(p: string, s: string, t: string)
    ensures p + s == p + t ==> s == t
  {
    if p + s == p + t {
      assert (p + s)[|p|..] == s && (p + t)[|p|..] == t;
    }
  }

  const EMPTY := Model(map[], map[], {}, map[], [])

  ghost predicate RunEnabled(m: Model, events: seq<Event>)
    decreases |events|
  {
    events == [] || (Enabled(m, events[0]) && RunEnabled(Apply(m, events[0]), events[1..]))
  }

  ghost function Run(m: Model, events: seq<Event>): Model
    decreases |events|
  {
    if events == [] then m else Run(Apply(m, events[0]), events[1..])
  }

  lemma {:induction false} RunKeepsInv(m: Model, events: seq<Event>)
    requires Inv(m) && RunEnabled(m, events)
    ensures Inv(Run(m, events))
    decreases |events|
  {
    if events != [] {
      StepKeepsInv(m, events[0]);
      RunKeepsInv(Apply(m, events[0]), events[1..]);
    }
  }

  /** From an empty store: the index is exact, and each handle has resolved at most once, to one of its own candidates. */
  lemma RunsAreSafe(events: seq<Event>)
    requires RunEnabled(EMPTY, events)
    ensures var m := Run(EMPTY, events);
      && m.candidateIds == AllIds(m.resolutions) && Disjoint(m.resolutions)
      && (forall i, j :: 0 <= i < j < |m.resolved| ==> m.resolved[i].0 != m.resolved[j].0)
      && (forall i :: 0 <= i < |m.resolved| ==> ResolvedFrom(m, m.resolved[i].0, m.resolved[i].1))
  {
    RunKeepsInv(EMPTY, events);
  }

  /** After a successful choice the handle is gone for good: every later choice on it is refused. */
  lemma {:induction false} ResolvesOnce(m: Model, id: string, c: string, events: seq<Event>, d: string, now: real)
    requires Inv(m) && RunEnabled(m, events) && (exists i :: 0 <= i < |m.resolved| && m.resolved[i] == (id, c))
    ensures Consume(Run(m, events), id, d, now).1 == Err(ResolutionExpired)
    decreases |events|
  {
    if events != [] {
      StepKeepsInv(m, events[0]);
      var i :| 0 <= i < |m.resolved| && m.resolved[i] == (id, c);
      assert Apply(m, events[0]).resolved[i] == (id, c);
      ResolvesOnce(Apply(m, events[0]), id, c, events[1..], d, now);
    }
  }

  /** An unknown candidate changes nothing, so the right one can still be chosen. */
  lemma UnknownCandidateKeepsHandle(m: Model, id: string, wrong: string, right: string, now: real)
    requires Live(m, id, now) && wrong !in IdsOf(m.resolutions[id].candidates) && right in IdsOf(m.resolutions[id].candidates)
    ensures Consume(m, id, wrong, now) == (m, Err(InvalidCandidate))
    ensures Consume(Consume(m, id, wrong, now).0, id, right, now).1.Ok?
  {
  }

  // ---------------------------------------------------------------------------------------
  // When a choice resolves

  /**
    A choice resolves exactly when its handle is stored, not yet expired, and has that candidate. It then gives that
    candidate's entity and uses the handle up; an expired handle is dropped and an unknown candidate changes nothing.
   */
  lemma ResolvesExactly(m: Model, id: string, c: string, now: real)
    requires Inv(m)
    ensures var (n, r) := Consume(m, id, c, now);
      var stored := id in m.resolutions && now < m.resolutions[id].expiresAt;
      var offered := stored && exists i :: 0 <= i < |m.resolutions[id].candidates| && m.resolutions[id].candidates[i].id == c;
      && (r.Ok? <==> offered)
      && (r == Err(InvalidCandidate) <==> stored && !offered)
      && (r == Err(ResolutionExpired) <==> !stored)
      && (stored && !offered ==> n == m)
      && (!stored ==> n.resolutions == m.resolutions - {id} && n.resolved == m.resolved)
      && (offered ==> n.resolutions == m.resolutions - {id} && n.resolved == m.resolved + [(id, c)])
      && n.contexts == m.contexts && n.issued == m.issued
  {
    hide Inv;
    if id in m.resolutions && now < m.resolutions[id].expiresAt { InIds(m.resolutions[id].candidates, c); }
    assert id !in m.resolutions ==> m.resolutions - {id} == m.resolutions;
  }

  lemma ResolvesToItsCandidate(m: Model, id: string, c: string, now: real, i: nat)
    requires Inv(m) && id in m.resolutions && now < m.resolutions[id].expiresAt
    requires i < |m.resolutions[id].candidates| && m.resolutions[id].candidates[i].id == c
    ensures var x := m.resolutions[id].candidates[i];
      Consume(m, id, c, now).1 == Ok(Entity(x.entityType, x.entityId, x.caption, c, x.reason))
  {
    var cs := m.resolutions[id].candidates;
    assert DistinctIds(cs) && c in IdsOf(cs);
    hide Inv;
    var y := Find(cs, c).value;
    var j :| 0 <= j < |cs| && cs[j] == y;
  }

  lemma InIds(candidates: seq<Candidate>, c: string)
    ensures c in IdsOf(candidates) <==> exists i :: 0 <= i < |candidates| && candidates[i].id == c
  {
  }

  lemma {:induction false} IssuedStays(m: Model, events: seq<Event>, id: string)
    requires Inv(m) && RunEnabled(m, events) && id in m.issued
    ensures id in Run(m, events).issued && Run(m, events).issued[id] == m.issued[id] && Inv(Run(m, events))
    decreases |events|
  {
    if events != [] {
      StepKeepsInv(m, events[0]);
      hide Inv;
      IssuedStays(Apply(m, events[0]), events[1..], id);
    }
  }

  /** Over every run: a handle never resolves once its lifetime is over. */
  lemma NeverResolvesAfterExpiry(m: Model, h: Handle, events: seq<Event>, c: string, now: real)
    requires Inv(m) && Enabled(m, Created(h)) && RunEnabled(Apply(m, Created(h)), events) && now >= h.expiresAt
    ensures Consume(Run(Apply(m, Created(h)), events), h.id, c, now).1 == Err(ResolutionExpired)
  {
    StepKeepsInv(m, Created(h));
    IssuedStays(Apply(m, Created(h)), events, h.id);
  }

  /** The call leaves the handle alone: it comes in time and does not choose one of its candidates. */
  predicate Spares(e: Event, h: Handle) {
    match e
    case Looked(id, now) => id == h.id ==> now < h.expiresAt
    case Chose(id, c, now) => id == h.id ==> now < h.expiresAt && c !in IdsOf(h.candidates)
    case Purged(now) => now < h.expiresAt
    case _ => true
  }

  /** And until then it does, unless an earlier choice used it up. */
  lemma {:induction false} ResolvesUntilThen(m: Model, h: Handle, events: seq<Event>, c: string, now: real)
    requires Inv(m) && h.id in m.resolutions && m.resolutions[h.id] == h && RunEnabled(m, events)
    requires (forall i :: 0 <= i < |events| ==> Spares(events[i], h)) && now < h.expiresAt && c in IdsOf(h.candidates)
    ensures Consume(Run(m, events), h.id, c, now).1.Ok?
    decreases |events|
  {
    if events != [] {
      StepKeepsInv(m, events[0]);
      StepSpares(m, h, events[0]);
      hide Inv;
      ResolvesUntilThen(Apply(m, events[0]), h, events[1..], c, now);
    }
  }

  lemma StepSpares(m: Model, h: Handle, e: Event)
    requires Inv(m) && Enabled(m, e) && h.id in m.resolutions && m.resolutions[h.id] == h && Spares(e, h)
    ensures h.id in Apply(m, e).resolutions && Apply(m, e).resolutions[h.id] == h
  {
  }

  ghost predicate AllBindable(offers: seq<Offer>) { forall i :: 0 <= i < |offers| ==> Bindable(offers[i]) }

  /** The bound entries, in order. */
  ghost function Entries(offers: seq<Offer>): seq<Allowed>
    requires AllBindable(offers)
  {
    if offers == [] then [] else Entries(offers[..|offers| - 1]) + [offers[|offers| - 1].entry]
  }

  lemma {:induction false} EntriesAt(offers: seq<Offer>)
    requires AllBindable(offers)
    ensures |Entries(offers)| == |offers| && forall i :: 0 <= i < |offers| ==> Entries(offers)[i] == offers[i].entry
  {
    if offers != [] { EntriesAt(offers[..|offers| - 1]); }
  }

  // ---------------------------------------------------------------------------------------
  // The store

  class Store {
    var resolutions: map<string, Handle>
    var contexts: map<string, Capability>
    var candidateIds: set<string>
    var drawn: nat
    const draw: nat -> string
    ghost var issued: map<string, Handle>
    ghost var resolved: seq<(string, string)>

    ghost function State(): Model
      reads this
    {
      Model(resolutions, contexts, candidateIds, issued, resolved)
    }

    ghost predicate Valid()
      reads this
    {
      Inv(State()) && TokensFresh() && ContextsValid()
    }

    /** Tokens do not repeat, and every issued handle's id was drawn. */
    ghost predicate TokensFresh()
      reads `issued, `drawn
    {
      && (forall i, j :: draw(i) == draw(j) ==> i == j)
      && (forall k :: k in issued ==> exists i :: 0 <= i < drawn && k == "res_" + draw(i))
    }

    ghost predicate ContextsValid()
      reads `contexts
    {
      forall k :: k in contexts ==> ValidCapability(contexts[k])
    }

    constructor (tokens: nat -> string)
      requires forall i, j :: tokens(i) == tokens(j) ==> i == j
      ensures Valid() && State() == EMPTY
    {
      resolutions, contexts, candidateIds, drawn := map[], map[], {}, 0;
      draw := tokens;
      issued, resolved := map[], [];
    }

    method NewId(prefix: string) returns (id: string)
      modifies this`drawn
      ensures id == prefix + draw(old(drawn)) && drawn == old(drawn) + 1
    {
      id := prefix + draw(drawn);
      drawn := drawn + 1;
    }

    /** The ids of `taken` that the token source may still produce. */
    ghost function Pending(taken: set<string>, from: nat): set<string> {
      set t | t in taken && exists i :: i >= from && "cand_" + draw(i) == t
    }

    lemma PendingShrinks(taken: set<string>, from: nat)
      requires forall i, j :: draw(i) == draw(j) ==> i == j
      requires "cand_" + draw(from) in taken
      ensures Pending(taken, from + 1) < Pending(taken, from)
    {
      var t := "cand_" + draw(from);
      forall i | i >= from + 1 ensures "cand_" + draw(i) != t {
        PrefixInjective("cand_", draw(i), draw(from));
      }
      assert t in Pending(taken, from) && t !in Pending(taken, from + 1);
    }

    /** Keeps an opaque id that nobody holds, otherwise draws one. */
    method ScopedId(given: string, taken: set<string>) returns (id: string)
      requires forall i, j :: draw(i) == draw(j) ==> i == j
      modifies this`drawn
      ensures "cand_" <= id && id !in taken && drawn >= old(drawn)
      ensures "cand_" <= given && given !in taken ==> id == given
    {
      id := given;
      if !("cand_" <= id) || id in taken {
        id := NewId("cand_");
        while id in taken
          invariant drawn > old(drawn) && id == "cand_" + draw(drawn - 1)
          decreases Pending(taken, drawn - 1)
        {
          PendingShrinks(taken, drawn - 1);
          id := NewId("cand_");
        }
      }
    }

    /** Gives every candidate an id of its own, up to the first malformed one. */
    method ReserveIds(candidates: seq<Given>) returns (scoped: Option<seq<Candidate>>, reserved: set<string>)
      requires forall i, j :: draw(i) == draw(j) ==> i == j
      modifies this`drawn
      ensures drawn >= old(drawn) && reserved !! candidateIds
      ensures scoped.None? <==> Malformed in candidates
      ensures scoped.Some? ==>
        reserved == IdsOf(scoped.value) && DistinctIds(scoped.value) && Follows(candidates, scoped.value, candidateIds)
    {
      var taken: seq<Candidate> := [];
      reserved := {};
      for i := 0 to |candidates|
        invariant drawn >= old(drawn)
        invariant reserved == IdsOf(taken) && reserved !! candidateIds && DistinctIds(taken)
        invariant Malformed !in candidates[..i]
        invariant Follows(candidates[..i], taken, candidateIds)
      {
        assert candidates[..i+1] == candidates[..i] + [candidates[i]];
        if candidates[i].Malformed? { return None, reserved; }
        var c := candidates[i].candidate;
        var id := ScopedId(c.id, candidateIds + reserved);
        reserved := reserved + {id};
        ScopedSnoc(candidates[..i], taken, candidateIds, c, id);
        taken := taken + [c.(id := id)];
      }
      assert candidates[..|candidates|] == candidates;
      scoped := Some(taken);
    }

    method CreateResolution(candidates: seq<Given>, ttl: Ttl, now: real) returns (r: Result<Handle, Error>)
      requires Valid()
      modifies this
      ensures Valid()
      ensures r.Err? <==> BoundedTtl(ttl).None? || Malformed in candidates
      ensures r.Err? ==> State() == old(State())
      ensures r.Ok? ==>
        && Enabled(old(State()), Created(r.value)) && State() == Apply(old(State()), Created(r.value))
        && resolutions == old(resolutions)[r.value.id := r.value] && candidateIds == old(candidateIds) + IdsOf(r.value.candidates)
        && r.value.expiresAt == now + BoundedTtl(ttl).value
        && Follows(candidates, r.value.candidates, old(candidateIds))
    {
      hide IdsOf, DistinctIds, Follows, Inv, Store.ContextsValid, BoundedTtl;
      var seconds := BoundedTtl(ttl);
      if seconds.None? { return Err(BadTtl); }
      var scoped, reserved := ReserveIds(candidates);
      if scoped.None? {
        candidateIds := candidateIds - reserved;
        assert candidateIds == old(candidateIds);
        DrawingKeepsValid();
        return Err(BadCandidate);
      }
      NewlyDrawn(old(drawn));
      var id := NewId("res_");
      var handle := Handle(id, now + seconds.value, scoped.value);
      candidateIds := candidateIds + reserved;
      resolutions := resolutions[id := handle];
      issued := issued[id := handle];
      CreateKeepsInv(old(State()), handle);
      assert State() == Apply(old(State()), Created(handle));
      r := Ok(handle);
    }

    twostate lemma DrawingKeepsTokens()
      requires old(TokensFresh()) && drawn >= old(drawn) && issued == old(issued)
      ensures TokensFresh()
    {
    }

    twostate lemma DrawingKeepsValid()
      requires old(Valid()) && drawn >= old(drawn) && State() == old(State())
      ensures Valid()
    {
    }

    /** A resolution id drawn now has never been issued. */
    lemma NewlyDrawn(bound: nat)
      requires (forall i, j :: draw(i) == draw(j) ==> i == j) && bound <= drawn
      requires forall k :: k in issued ==> exists i :: 0 <= i < bound && k == "res_" + draw(i)
      ensures "res_" + draw(drawn) !in issued
    {
      forall k | k in issued ensures k != "res_" + draw(drawn) {
        var i :| 0 <= i < bound && k == "res_" + draw(i);
        PrefixInjective("res_", draw(i), draw(drawn));
      }
    }

    method GetResolution(id: string, now: real) returns (r: Option<Handle>)
      requires Valid()
      modifies this
      ensures Valid() && State() == Apply(old(State()), Looked(id, now))
      ensures r.Some? <==> id in old(resolutions) && now < old(resolutions)[id].expiresAt
      ensures r.Some? ==> r.value == old(resolutions)[id] && resolutions == old(resolutions)
      ensures r.None? ==> resolutions == old(resolutions) - {id}
    {
      hide Inv, Store.TokensFresh, Store.ContextsValid;
      if id !in resolutions { return None; }
      if now >= resolutions[id].expiresAt {
        DropResolution(id);
        return None;
      }
      r := Some(resolutions[id]);
    }

    method ConsumeResolutionChoice(id: string, candidateId: string, now: real) returns (r: Result<Entity, Error>)
      requires Valid()
      modifies this
      ensures Valid() && (State(), r) == Consume(old(State()), id, candidateId, now)
    {
      hide Inv, Store.TokensFresh, Store.ContextsValid, IdsOf;
      if id !in resolutions || now >= resolutions[id].expiresAt {
        if id in resolutions { DropResolution(id); }
        return Err(ResolutionExpired);
      }
      var selected := Find(resolutions[id].candidates, candidateId);
      if selected.None? { return Err(InvalidCandidate); }
      var c := selected.value;
      DropResolution(id);
      resolved := resolved + [(id, candidateId)];
      StepKeepsInv(old(State()), Chose(id, candidateId, now));
      r := Ok(Entity(c.entityType, c.entityId, c.caption, c.id, c.reason));
    }

    method DropResolution(id: string)
      requires Valid()
      modifies this`resolutions, this`candidateIds
      ensures Valid() && State() == Drop(old(State()), id)
    {
      hide Inv, Store.TokensFresh, Store.ContextsValid, IdsOf;
      if id in resolutions {
        var handle := resolutions[id];
        resolutions := resolutions - {id};
        candidateIds := candidateIds - IdsOf(handle.candidates);
        DropKeepsInv(old(State()), id);
      }
    }

    /** Every entry is bound before anything is stored. */
    method CreateContextCapability(offers: seq<Offer>, scope: Option<string>, ttl: Ttl, now: real) returns (r: Result<string, Error>)
      requires Valid()
      modifies this
      ensures Valid()
      ensures BoundedTtl(ttl).None? ==> r == Err(BadTtl)
      ensures BoundedTtl(ttl).Some? ==> (r.Err? <==> exists i :: 0 <= i < |offers| && !Bindable(offers[i])) && (r.Err? ==> r == Err(BadEntry))
      ensures r.Err? ==> State() == old(State())
      ensures r.Ok? ==> AllBindable(offers) && State() == old(State()).(contexts :=
        old(contexts)[r.value := Capability(FirstOccurrences(Entries(offers)), scope, now + BoundedTtl(ttl).value)])
    {
      hide Inv, Store.TokensFresh, ValidAllowed;
      var seconds := BoundedTtl(ttl);
      if seconds.None? { return Err(BadTtl); }
      var entries: seq<Allowed> := [];
      for i := 0 to |offers|
        invariant AllBindable(offers[..i]) && entries == Entries(offers[..i]) && AllValid(entries)
        invariant unchanged(this)
      {
        if !Bindable(offers[i]) { return Err(BadEntry); }
        assert offers[..i + 1][..i] == offers[..i];
        entries := entries + [offers[i].entry];
      }
      assert offers[..|offers|] == offers;
      var normalized := Deduplicate(entries);
      forall i | 0 <= i < |normalized| ensures ValidAllowed(normalized[i]) { assert normalized[i] in entries; }
      var id := NewId("ctx_");
      contexts := contexts[id := Capability(normalized, scope, now + seconds.value)];
      StepKeepsInv(old(State()), ContextsChanged(contexts));
      DrawingKeepsTokens();
      r := Ok(id);
    }

    /** Grants by `Decide`; a missing or expired capability is an error and an expired one is deleted. */
    method AuthorizeLocator(id: string, asked: Asked, scope: Option<string>, current: Option<Fingerprint>, selector: Selector, now: real)
      returns (r: Result<Verdict, Error>)
      requires Valid() && (selector.Selected? ==> ValidAllowed(selector.entry))
      modifies this`contexts
      ensures Valid()
      ensures var live := old(id in contexts && now < contexts[id].expiresAt);
        && contexts == (if live then old(contexts) else old(contexts) - {id})
        && r == (if live then Ok(Decide(old(contexts)[id], asked, scope, current, selector)) else Err(ContextExpired))
    {
      hide Inv, Decide, Store.TokensFresh, ValidAllowed;
      if id !in contexts || now >= contexts[id].expiresAt {
        if id in contexts { DropContexts({id}); }
        assert contexts == old(contexts) - {id};
        return Err(ContextExpired);
      }
      r := Ok(Decide(contexts[id], asked, scope, current, selector));
    }

    method DropAll(keys: set<string>)
      requires Valid()
      modifies this`resolutions, this`candidateIds
      ensures Valid() && resolutions == old(resolutions) - keys
    {
      hide Inv, Store.TokensFresh, Store.ContextsValid, Drop;
      var todo := keys;
      while todo != {}
        invariant Valid() && todo <= keys && unchanged(`contexts, `issued, `resolved)
        invariant resolutions == old(resolutions) - (keys - todo)
        decreases |todo|
      {
        var k :| k in todo;
        DroppedResolutions(State(), k);
        DropResolution(k);
        todo := todo - {k};
      }
      assert keys - todo == keys;
    }

    method DropContexts(keys: set<string>)
      requires Valid() && keys <= contexts.Keys
      modifies this`contexts
      ensures Valid() && contexts == old(contexts) - keys
    {
      hide Inv, Store.TokensFresh;
      contexts := contexts - keys;
      StepKeepsInv(old(State()), ContextsChanged(contexts));
    }

    method PurgeExpired(now: real) returns (count: nat)
      requires Valid()
      modifies this
      ensures Valid() && State() == Purge(old(State()), now)
      ensures forall k :: k in resolutions <==> k in old(resolutions) && now < old(resolutions)[k].expiresAt
      ensures forall k :: k in contexts <==> k in old(contexts) && now < old(contexts)[k].expiresAt
      ensures count == |old(resolutions)| - |resolutions| + |old(contexts)| - |contexts|
    {
      hide Inv, Store.TokensFresh, Store.ContextsValid, AllIds;
      var expired := set k | k in resolutions && now >= resolutions[k].expiresAt;
      var stale := set k | k in contexts && now >= contexts[k].expiresAt;
      DropAll(expired);
      DropContexts(stale);
      CountDropped(old(resolutions), expired);
      CountDropped(old(contexts), stale);
      PurgeKeepsInv(old(State()), now);
      PurgeByParts(old(State()), State(), now);
      count := |expired| + |stale|;
    }
  }

  /** With the index exact before and after, the remaining handles and contexts decide the rest. */
  lemma PurgeByParts(m: Model, n: Model, now: real)
    requires Inv(n) && Inv(Purge(m, now)) && n.issued == m.issued && n.resolved == m.resolved
    requires n.resolutions == m.resolutions - (set k | k in m.resolutions && now >= m.resolutions[k].expiresAt)
    requires n.contexts == m.contexts - (set k | k in m.contexts && now >= m.contexts[k].expiresAt)
    ensures n == Purge(m, now)
  {
    hide AllIds, IdsOf;
    var after := Purge(m, now);
    assert n.resolutions == after.resolutions && n.contexts == after.contexts;
  }

  lemma DroppedResolutions(m: Model, id: string)
    ensures Drop(m, id).resolutions == m.resolutions - {id}
  {
  }

  lemma CountDropped<V>(m: map<string, V>, ks: set<string>)
    requires ks <= m.Keys
    ensures |m - ks| == |m| - |ks|
  {
    assert (m - ks).Keys == m.Keys - ks;
    assert |m.Keys| == |m| && |(m - ks).Keys| == |m - ks|;
  }

  /** The handle's candidates are the caller's in order, under prefixed ids; an id is kept when it is opaque and nobody holds it. */
  ghost predicate Follows(given: seq<Given>, scoped: seq<Candidate>, taken: set<string>) {
    && |given| == |scoped|
    && forall i :: 0 <= i < |given| ==>
      && given[i].Good? && given[i].candidate.(id := scoped[i].id) == scoped[i] && "cand_" <= scoped[i].id
      && ("cand_" <= given[i].candidate.id && given[i].candidate.id !in taken + IdsOf(scoped[..i]) ==>
            scoped[i].id == given[i].candidate.id)
  }

  lemma ScopedSnoc(given: seq<Given>, scoped: seq<Candidate>, taken: set<string>, c: Candidate, id: string)
    requires Follows(given, scoped, taken) && DistinctIds(scoped) && id !in IdsOf(scoped) && "cand_" <= id
    requires "cand_" <= c.id && c.id !in taken + IdsOf(scoped) ==> id == c.id
    ensures Follows(given + [Good(c)], scoped + [c.(id := id)], taken)
    ensures DistinctIds(scoped + [c.(id := id)]) && IdsOf(scoped + [c.(id := id)]) == IdsOf(scoped) + {id}
  {
    var longer := scoped + [c.(id := id)];
    assert longer[..|scoped|] == scoped;
    forall i | 0 <= i < |scoped| ensures longer[..i] == scoped[..i] && longer[i] == scoped[i] {}
    forall x ensures x in IdsOf(longer) <==> x in IdsOf(scoped) + {id} {
      if x in IdsOf(scoped) { var i :| 0 <= i < |scoped| && scoped[i].id == x; assert longer[i].id == x; }
      if x == id { assert longer[|scoped|].id == x; }
    }
    forall i | 0 <= i < |scoped| ensures longer[i].id != id { assert scoped[i].id in IdsOf(scoped); }
  }
}
