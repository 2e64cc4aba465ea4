/**
  The download told from its trace: which request comes first, which one a redirect asks for next, when the chain
  stops, and what it then returns; everything in terms of the answers and of the URLs taken apart.
 */
module DownloadTrace {
  import opened Wrappers
  import opened Download
  import Decimal

  // ---------------------------------------------------------------------------------------
  // URLs

  /** At most 8192 characters, none of them a blank, a control, a backslash or a hash. */
  predicate Plain(url: string) {
    |url| <= 8192 && forall c :: c in url ==> c !in {'\\', '#', 127 as char} && c as int > 32
  }

  predicate Printable(v: string) { |v| <= 256 && forall c :: c in v ==> 32 <= c as int <= 126 }

  /** No query field, or the two known ones, each at most once. */
  predicate KnownFields(fields: seq<(string, string)>) {
    && (forall f :: f in fields ==> f.0 in {"download_frd", "verifier"} && Printable(f.1))
    && (|fields| <= 1 || (|fields| == 2 && fields[0].0 != fields[1].0))
  }

  /** The URL is on the Canvas origin, the download path of this file, and asks for `target`. */
  predicate CanvasUrl(j: Job, url: string, target: Target) {
    && Plain(url)
    && var p := j.urls.parse(j.urls.join(j.origin, Target("/", ""), url));
    && p.origin == Some(j.origin) && target == Target(p.path, p.query)
    && p.path in {"/files/" + j.fileId + "/download", "/courses/" + Decimal.Digits(j.courseId) + "/files/" + j.fileId + "/download"}
    && p.fields.Some? && KnownFields(p.fields.value)
  }

  /** The URL is on an allowed storage host, port 443, and asks for `target`; an empty path is the root. */
  predicate StorageUrl(j: Job, url: string, storage: Origin, target: Target) {
    && Plain(url)
    && var p := j.urls.parse(url);
    && p.origin == Some(storage) && storage.port == 443 && storage.host in j.hosts
    && (p.path == "" || p.path[0] == '/') && target == Target(if p.path == "" then "/" else p.path, p.query)
  }

  /** The URL stays on the Canvas origin. */
  predicate OnCanvas(j: Job, url: string) { Plain(url) && j.urls.parse(j.urls.join(j.origin, Target("/", ""), url)).origin == Some(j.origin) }

  lemma PlainExactly(url: string)
    ensures CleanUrl(url) <==> Plain(url)
  {
    if Plain(url) { forall i | 0 <= i < |url| ensures url[i] in url {} }
  }

  lemma FieldsExactly(fields: seq<(string, string)>)
    ensures FieldsOk(fields) <==> KnownFields(fields)
  {
    forall i | 0 <= i < |fields| ensures ValueOk(fields[i].1) <==> Printable(fields[i].1) { PrintableExactly(fields[i].1); }
    hide ValueOk, Printable;
    if KnownFields(fields) { forall i | 0 <= i < |fields| ensures fields[i] in fields {} }
  }

  lemma PrintableExactly(v: string)
    ensures ValueOk(v) <==> Printable(v)
  {
    if Printable(v) { forall i | 0 <= i < |v| ensures v[i] in v {} }
  }

  lemma CanvasUrlExactly(j: Job, url: string, target: Target)
    ensures DownloadTarget(j, url) == Ok(target) <==> CanvasUrl(j, url, target)
  {
    PlainExactly(url);
    var p := j.urls.parse(j.urls.join(j.origin, Target("/", ""), url));
    if p.fields.Some? { FieldsExactly(p.fields.value); }
    hide CleanUrl, Plain, FieldsOk, KnownFields;
  }

  lemma StorageUrlExactly(j: Job, url: string, storage: Origin, target: Target)
    ensures ForeignTarget(j, url) == Ok((storage, target)) <==> StorageUrl(j, url, storage, target)
  {
    PlainExactly(url);
    hide CleanUrl, Plain;
  }

  // ---------------------------------------------------------------------------------------
  // Answers

  /** The answer came in time and is a redirect somewhere. */
  predicate Redirects(o: Outcome) { o.answer.Ok? && !o.tooLate && 300 <= o.answer.value.status < 400 && o.answer.value.location != "" }

  const REFUSALS: map<int, Code> := map[401 := INVALID_CREDENTIAL, 403 := PERMISSION_MISSING, 404 := NOT_FOUND, 429 := RATE_LIMITED]

  /** What the download returns on an answer that it does not follow. */
  predicate EndsOn(j: Job, o: Outcome, end: Result<seq<Byte>, Code>) {
    if o.answer.Err? then end == Err(o.answer.error)
    else if o.tooLate then end == Err(TIMEOUT)
    else
      var r := o.answer.value;
      if r.status in REFUSALS then end == Err(REFUSALS[r.status])
      else if r.status < 200 || 300 <= r.status then end == Err(PROVIDER_UNAVAILABLE)
      else if |r.body| == j.size then end == Ok(r.body) else end == Err(SIZE_MISMATCH)
  }

  // ---------------------------------------------------------------------------------------
  // Requests

  /** The request that a redirect in answer to `q` asks for: with the token to the same file on Canvas, without it to storage. */
  predicate Asks(j: Job, o: Outcome, q: Request, r: Request) {
    && Redirects(o)
    && var url := j.urls.join(q.origin, q.target, o.answer.value.location);
    if q.token.Some? && j.urls.parse(url).origin == Some(j.origin) then
      CanvasUrl(j, url, r.target) && r == Request(j.origin, r.target, Some(j.token))
    else
      && StorageUrl(j, url, r.origin, r.target) && r == Request(r.origin, r.target, None)
      && (if q.token.Some? then j.opens(r.origin) == None else r.origin == q.origin)
  }

  /** Request number `i` is within the budget, and the Canvas connection within its limit. */
  predicate Within(j: Job, count: nat, i: nat, q: Request) { i <= j.budget && (q.token.Some? ==> count + i < j.limit) }

  /** The code of a redirect that asks for nothing allowed. */
  ghost function RedirectCode(j: Job, i: nat, q: Request, o: Outcome): Code
    requires Redirects(o)
  {
    var url := j.urls.join(q.origin, q.target, o.answer.value.location);
    if q.token.Some? && j.urls.parse(url).origin == Some(j.origin) then
      if OnCanvas(j, url) then CHECK_NOT_READ_ONLY else DESTINATION_NOT_ALLOWED
    else if q.token.Some? && i >= j.budget then PROVIDER_UNAVAILABLE
    else if q.token.Some? && exists storage, target :: StorageUrl(j, url, storage, target) && j.opens(storage).Some? then
      var storage, target :| StorageUrl(j, url, storage, target) && j.opens(storage).Some?;
      j.opens(storage).value
    else DESTINATION_NOT_ALLOWED
  }

  /** The chain stops at the request: nothing more is asked for, or what is asked for is too much or too late. */
  ghost predicate Stops(j: Job, count: nat, i: nat, q: Request, end: Result<seq<Byte>, Code>) {
    && (forall r :: Asks(j, j.script(i), q, r) ==>
          if Within(j, count, i + 1, r) then j.script(i + 1).late && end == Err(TIMEOUT) else end == Err(PROVIDER_UNAVAILABLE))
    && ((forall r :: !Asks(j, j.script(i), q, r)) ==>
          if Redirects(j.script(i)) then end == Err(RedirectCode(j, i, q, j.script(i))) else EndsOn(j, j.script(i), end))
  }

  /** Every request is within its bounds and in time. */
  predicate AllWithin(j: Job, count: nat, n: nat, sent: seq<Request>) {
    forall i :: 0 <= i < |sent| ==> Within(j, count, n + i, sent[i]) && !j.script(n + i).late
  }

  /** Every request but the first is what the answer to the one before it asks for. */
  predicate AllAsked(j: Job, n: nat, sent: seq<Request>) {
    forall i :: 0 <= i < |sent| - 1 ==> Asks(j, j.script(n + i), sent[i], sent[i + 1])
  }

  lemma AllWithinCons(j: Job, count: nat, n: nat, q: Request, sent: seq<Request>)
    requires Within(j, count, n, q) && !j.script(n).late && AllWithin(j, count, n + 1, sent)
    ensures AllWithin(j, count, n, [q] + sent)
  {
    hide Within;
    var c := [q] + sent;
    forall i | 0 <= i < |c| ensures Within(j, count, n + i, c[i]) && !j.script(n + i).late {
      if i > 0 {
        assert n + 1 + (i - 1) == n + i;
        assert Within(j, count, n + 1 + (i - 1), sent[i - 1]);
      }
    }
  }

  lemma AllAskedCons(j: Job, n: nat, q: Request, sent: seq<Request>)
    requires AllAsked(j, n + 1, sent) && (sent != [] ==> Asks(j, j.script(n), q, sent[0]))
    ensures AllAsked(j, n, [q] + sent)
  {
    hide Asks;
    var c := [q] + sent;
    forall i | 0 <= i < |c| - 1 ensures Asks(j, j.script(n + i), c[i], c[i + 1]) {
      if i > 0 {
        assert n + 1 + (i - 1) == n + i;
        assert Asks(j, j.script(n + 1 + (i - 1)), sent[i - 1], sent[i]);
      }
    }
  }

  /** The whole trace from request number `n`, wanted as `q`. */
  ghost predicate Trace(j: Job, count: nat, n: nat, q: Request, c: Chain) {
    && (c.sent == [] <==> !Within(j, count, n, q) || j.script(n).late)
    && (c.sent == [] ==> c.end == Err(if Within(j, count, n, q) then TIMEOUT else PROVIDER_UNAVAILABLE))
    && (c.sent != [] ==> c.sent[0] == q)
    && AllWithin(j, count, n, c.sent) && AllAsked(j, n, c.sent)
    && (c.sent != [] ==> Stops(j, count, n + |c.sent| - 1, c.sent[|c.sent| - 1], c.end))
  }

  lemma JudgedExactly(j: Job, o: Outcome)
    ensures Judged(o).Ok? && Redirect(Judged(o).value.status) && Judged(o).value.location != "" <==> Redirects(o)
    ensures Judged(o).Ok? ==> o.answer.Ok? && Judged(o).value == o.answer.value
    ensures Judged(o).Err? ==> EndsOn(j, o, Err(Judged(o).error))
    ensures Judged(o).Ok? && !Redirect(Judged(o).value.status) ==> EndsOn(j, o, Exact(j, Judged(o).value))
    ensures Judged(o).Ok? && Redirect(Judged(o).value.status) && Judged(o).value.location == "" ==> EndsOn(j, o, Err(PROVIDER_UNAVAILABLE))
  {
  }

  lemma AskedOnce(j: Job, o: Outcome, q: Request, r: Request, s: Request)
    requires Asks(j, o, q, r) && Asks(j, o, q, s)
    ensures r == s
  {
    hide KnownFields, Plain;
  }

  /** A request that is not sent. */
  lemma TraceNotSent(j: Job, count: nat, n: nat, q: Request)
    ensures !Within(j, count, n, q) ==> Trace(j, count, n, q, Chain([], Err(PROVIDER_UNAVAILABLE)))
    ensures Within(j, count, n, q) && j.script(n).late ==> Trace(j, count, n, q, Chain([], Err(TIMEOUT)))
  {
  }

  /** A request that is sent and not followed. */
  lemma TraceStops(j: Job, count: nat, n: nat, q: Request, end: Result<seq<Byte>, Code>)
    requires Within(j, count, n, q) && !j.script(n).late && Stops(j, count, n, q, end)
    ensures Trace(j, count, n, q, Chain([q], end))
  {
    hide Asks, Stops;
  }

  lemma StopsAfter(j: Job, count: nat, n: nat, q: Request, r: Request, end: Result<seq<Byte>, Code>)
    requires Asks(j, j.script(n), q, r)
    requires if Within(j, count, n + 1, r) then j.script(n + 1).late && end == Err(TIMEOUT) else end == Err(PROVIDER_UNAVAILABLE)
    ensures Stops(j, count, n, q, end)
  {
    forall s | Asks(j, j.script(n), q, s) ensures s == r { AskedOnce(j, j.script(n), q, r, s); }
    hide Asks, EndsOn;
  }

  /** A request that is sent and followed by the one asked for. */
  lemma TraceGoesOn(j: Job, count: nat, n: nat, q: Request, r: Request, rest: Chain)
    requires Within(j, count, n, q) && !j.script(n).late && Asks(j, j.script(n), q, r) && Trace(j, count, n + 1, r, rest)
    ensures Trace(j, count, n, q, Then(q, rest))
  {
    var c := Then(q, rest);
    hide Asks, Stops, AllWithin, AllAsked;
    AllWithinCons(j, count, n, q, rest.sent);
    AllAskedCons(j, n, q, rest.sent);
    if rest.sent == [] {
      StopsAfter(j, count, n, q, r, c.end);
    } else {
      assert n + |c.sent| - 1 == n + 1 + |rest.sent| - 1 && c.sent[|c.sent| - 1] == rest.sent[|rest.sent| - 1];
    }
  }

  lemma ForeignCode(j: Job, url: string)
    ensures ForeignTarget(j, url).Err? ==> ForeignTarget(j, url).error == DESTINATION_NOT_ALLOWED
  {
  }

  /** The next hop on the storage host. */
  lemma StorageHopTaken(j: Job, storage: Origin, target: Target, n: nat, left: nat)
    requires left > 0 && !j.script(n).late
    ensures var q, c := Request(storage, target, None), StorageHops(j, storage, target, n, left);
      if Redirects(j.script(n)) then
        var f := ForeignTarget(j, j.urls.join(storage, target, j.script(n).answer.value.location));
        if f.Ok? && f.value.0 == storage then c == Then(q, StorageHops(j, storage, f.value.1, n + 1, left - 1))
        else c == Chain([q], Err(DESTINATION_NOT_ALLOWED))
      else c.sent == [q] && EndsOn(j, j.script(n), c.end)
  {
    JudgedExactly(j, j.script(n));
    ForeignCode(j, j.urls.join(storage, target, if Redirects(j.script(n)) then j.script(n).answer.value.location else ""));
    hide ForeignTarget, EndsOn, Exact, Judged;
  }

  lemma StorageRedirected(j: Job, storage: Origin, target: Target, n: nat, left: nat, count: nat)
    requires n + left == j.budget + 1 && left > 0 && !j.script(n).late && Redirects(j.script(n))
    requires var f := ForeignTarget(j, j.urls.join(storage, target, j.script(n).answer.value.location));
      f.Ok? && f.value.0 == storage ==>
        Trace(j, count, n + 1, Request(storage, f.value.1, None), StorageHops(j, storage, f.value.1, n + 1, left - 1))
    ensures Trace(j, count, n, Request(storage, target, None), StorageHops(j, storage, target, n, left))
  {
    hide ForeignTarget, Trace, Asks, EndsOn, StorageHops;
    StorageHopTaken(j, storage, target, n, left);
    var q, c := Request(storage, target, None), StorageHops(j, storage, target, n, left);
    var f := ForeignTarget(j, j.urls.join(storage, target, j.script(n).answer.value.location));
    StorageAsks(j, j.script(n), q);
    if f.Ok? && f.value.0 == storage {
      var r := Request(storage, f.value.1, None);
      assert Asks(j, j.script(n), q, r);
      TraceGoesOn(j, count, n, q, r, StorageHops(j, storage, f.value.1, n + 1, left - 1));
    } else {
      RefusedTrace(j, count, n, q);
    }
  }

  lemma StorageHopNotTaken(j: Job, storage: Origin, target: Target, n: nat, left: nat)
    ensures left == 0 ==> StorageHops(j, storage, target, n, left) == Chain([], Err(PROVIDER_UNAVAILABLE))
    ensures left > 0 && j.script(n).late ==> StorageHops(j, storage, target, n, left) == Chain([], Err(TIMEOUT))
  {
  }

  lemma {:induction false} StorageTrace(j: Job, storage: Origin, target: Target, n: nat, left: nat, count: nat)
    requires n + left == j.budget + 1
    ensures Trace(j, count, n, Request(storage, target, None), StorageHops(j, storage, target, n, left))
    decreases left
  {
    hide ForeignTarget, Trace, Asks, EndsOn, StorageHops;
    var q, c := Request(storage, target, None), StorageHops(j, storage, target, n, left);
    TraceNotSent(j, count, n, q);
    StorageHopNotTaken(j, storage, target, n, left);
    if left > 0 && !j.script(n).late {
      if Redirects(j.script(n)) {
        var f := ForeignTarget(j, j.urls.join(storage, target, j.script(n).answer.value.location));
        if f.Ok? { StorageTrace(j, storage, f.value.1, n + 1, left - 1, count); }
        StorageRedirected(j, storage, target, n, left, count);
      } else {
        StorageHopTaken(j, storage, target, n, left);
        NothingAsked(j, j.script(n), q);
        TraceStops(j, count, n, q, c.end);
      }
    }
  }

  lemma NothingAsked(j: Job, o: Outcome, q: Request)
    requires !Redirects(o)
    ensures forall r :: !Asks(j, o, q, r)
  {
  }

  /** What a redirect of the storage host asks for. */
  lemma StorageAsks(j: Job, o: Outcome, q: Request)
    requires Redirects(o) && q.token.None?
    ensures var f := ForeignTarget(j, j.urls.join(q.origin, q.target, o.answer.value.location));
      forall r :: Asks(j, o, q, r) <==> f.Ok? && f.value.0 == q.origin && r == Request(q.origin, f.value.1, None)
  {
    var url := j.urls.join(q.origin, q.target, o.answer.value.location);
    var f := ForeignTarget(j, url);
    hide ForeignTarget, StorageUrl;
    forall r ensures Asks(j, o, q, r) <==> f.Ok? && f.value.0 == q.origin && r == Request(q.origin, f.value.1, None) {
      StorageUrlExactly(j, url, r.origin, r.target);
      if f.Ok? { StorageUrlExactly(j, url, f.value.0, f.value.1); }
    }
  }

  /** What a redirect of Canvas to itself asks for, and one to somewhere else. */
  lemma CanvasAsks(j: Job, o: Outcome, q: Request)
    requires Redirects(o) && q.token == Some(j.token) && q.origin == j.origin
    ensures var url := j.urls.join(q.origin, q.target, o.answer.value.location);
      var d, f := DownloadTarget(j, url), ForeignTarget(j, url);
      if j.urls.parse(url).origin == Some(j.origin) then
        forall r :: Asks(j, o, q, r) <==> d.Ok? && r == Request(j.origin, d.value, Some(j.token))
      else
        forall r :: Asks(j, o, q, r) <==> f.Ok? && j.opens(f.value.0).None? && r == Request(f.value.0, f.value.1, None)
  {
    var url := j.urls.join(q.origin, q.target, o.answer.value.location);
    var d, f := DownloadTarget(j, url), ForeignTarget(j, url);
    hide ForeignTarget, DownloadTarget, StorageUrl, CanvasUrl;
    if j.urls.parse(url).origin == Some(j.origin) {
      forall r ensures Asks(j, o, q, r) <==> d.Ok? && r == Request(j.origin, d.value, Some(j.token)) {
        CanvasUrlExactly(j, url, r.target);
        if d.Ok? { CanvasUrlExactly(j, url, d.value); }
      }
    } else {
      forall r ensures Asks(j, o, q, r) <==> f.Ok? && j.opens(f.value.0).None? && r == Request(f.value.0, f.value.1, None) {
        StorageUrlExactly(j, url, r.origin, r.target);
        if f.Ok? { StorageUrlExactly(j, url, f.value.0, f.value.1); }
      }
    }
  }

  lemma {:induction false} CanvasTrace(j: Job, target: Target, n: nat, first: nat)
    requires n <= j.budget + 1
    ensures Trace(j, first, n, Request(j.origin, target, Some(j.token)), CanvasHops(j, target, n, n, first + n))
    decreases j.budget + 1 - n
  {
    var q := Request(j.origin, target, Some(j.token));
    if n <= j.budget && first + n < j.limit && !j.script(n).late {
      JudgedExactly(j, j.script(n));
      if Redirects(j.script(n)) {
        CanvasRedirected(j, target, n, first);
      } else {
        NothingAsked(j, j.script(n), q);
        TraceStops(j, first, n, q, CanvasHops(j, target, n, n, first + n).end);
        hide ForeignTarget, DownloadTarget, Exact, Trace, Asks, EndsOn, Storage;
      }
    }
  }

  /** The hop of a redirect, as the chain takes it. */
  lemma HopTaken(j: Job, target: Target, n: nat, first: nat)
    requires n <= j.budget && first + n < j.limit && !j.script(n).late && Redirects(j.script(n))
    ensures var q, c := Request(j.origin, target, Some(j.token)), CanvasHops(j, target, n, n, first + n);
      var url := j.urls.join(j.origin, target, j.script(n).answer.value.location);
      var d, f := DownloadTarget(j, url), ForeignTarget(j, url);
      if j.urls.parse(url).origin == Some(j.origin) then
        c == if d.Ok? then Then(q, CanvasHops(j, d.value, n + 1, n + 1, first + (n + 1))) else Chain([q], Err(d.error))
      else if n >= j.budget then c == Chain([q], Err(PROVIDER_UNAVAILABLE))
      else if f.Ok? && j.opens(f.value.0).None? then c == Then(q, StorageHops(j, f.value.0, f.value.1, n + 1, j.budget - n))
      else c == Chain([q], Err(if f.Ok? then j.opens(f.value.0).value else f.error))
  {
    JudgedExactly(j, j.script(n));
    hide ForeignTarget, DownloadTarget, Exact, Judged, StorageHops;
  }

  lemma {:induction false} CanvasRedirected(j: Job, target: Target, n: nat, first: nat)
    requires n <= j.budget && first + n < j.limit && !j.script(n).late && Redirects(j.script(n))
    ensures Trace(j, first, n, Request(j.origin, target, Some(j.token)), CanvasHops(j, target, n, n, first + n))
    decreases j.budget + 1 - n, 0
  {
    hide ForeignTarget, DownloadTarget, Trace, Asks, StorageHops, CanvasHops;
    var q, o := Request(j.origin, target, Some(j.token)), j.script(n);
    var url := j.urls.join(j.origin, target, o.answer.value.location);
    var d, f := DownloadTarget(j, url), ForeignTarget(j, url);
    HopTaken(j, target, n, first);
    CanvasAsks(j, o, q);
    if j.urls.parse(url).origin == Some(j.origin) && d.Ok? {
      CanvasTrace(j, d.value, n + 1, first);
      TraceGoesOn(j, first, n, q, Request(j.origin, d.value, Some(j.token)), CanvasHops(j, d.value, n + 1, n + 1, first + (n + 1)));
    } else if j.urls.parse(url).origin != Some(j.origin) && f.Ok? && j.opens(f.value.0).None? {
      var r := Request(f.value.0, f.value.1, None);
      if n < j.budget {
        StorageTrace(j, f.value.0, f.value.1, n + 1, j.budget - n, first);
        TraceGoesOn(j, first, n, q, r, StorageHops(j, f.value.0, f.value.1, n + 1, j.budget - n));
      } else {
        StopsAfter(j, first, n, q, r, Err(PROVIDER_UNAVAILABLE));
        TraceStops(j, first, n, q, Err(PROVIDER_UNAVAILABLE));
      }
    } else {
      RefusalCodes(j, url);
      ForeignCode(j, url);
      OpeningCode(j, url);
      RefusedTrace(j, first, n, q);
    }
  }

  /** A redirect that asks for nothing ends the chain with its code. */
  lemma RefusedTrace(j: Job, count: nat, n: nat, q: Request)
    requires Within(j, count, n, q) && !j.script(n).late && Redirects(j.script(n)) && forall r :: !Asks(j, j.script(n), q, r)
    ensures Trace(j, count, n, q, Chain([q], Err(RedirectCode(j, n, q, j.script(n)))))
  {
    hide Asks, RedirectCode;
    TraceStops(j, count, n, q, Err(RedirectCode(j, n, q, j.script(n))));
  }

  /** A storage host is allowed exactly when it can be taken off the URL, and then there is only one. */
  lemma OpeningCode(j: Job, url: string)
    ensures var f := ForeignTarget(j, url);
      forall storage, target :: StorageUrl(j, url, storage, target) <==> f == Ok((storage, target))
  {
    hide StorageUrl, ForeignTarget;
    forall storage, target ensures StorageUrl(j, url, storage, target) <==> ForeignTarget(j, url) == Ok((storage, target)) {
      StorageUrlExactly(j, url, storage, target);
    }
  }

  // ---------------------------------------------------------------------------------------
  // The whole download

  /** The token may be sent: one to 4096 visible ASCII characters. */
  predicate Sendable(token: string) { 0 < |token| <= 4096 && forall c :: c in token ==> 32 < c as int < 127 }

  lemma SendableExactly(token: string)
    ensures TokenOk(token) <==> Sendable(token)
  {
    if Sendable(token) { forall i | 0 <= i < |token| ensures token[i] in token {} }
  }

  /**
    A download is refused before its first request for a bad size, a bad token, a URL that is not this file's, or a
    closed connection, in this order; otherwise its trace starts with the request for the URL and is as described.
   */
  lemma DownloadExactly(j: Job, url: string, count: nat, closed: bool)
    ensures var c := Whole(j, url, count, closed);
      if j.size < 1 then c == Chain([], Err(SIZE_MISMATCH))
      else if !Sendable(j.token) then c == Chain([], Err(INVALID_CREDENTIAL))
      else if !exists target :: CanvasUrl(j, url, target) then c == Chain([], Err(if OnCanvas(j, url) then CHECK_NOT_READ_ONLY else DESTINATION_NOT_ALLOWED))
      else if closed then c == Chain([], Err(PROVIDER_UNAVAILABLE))
      else exists target :: CanvasUrl(j, url, target) && Trace(j, count, 0, Request(j.origin, target, Some(j.token)), c)
  {
    SendableExactly(j.token);
    var d := DownloadTarget(j, url);
    RefusalCodes(j, url);
    hide DownloadTarget, CanvasHops, Trace, CanvasUrl, TokenOk, Sendable;
    if target :| CanvasUrl(j, url, target) { CanvasUrlExactly(j, url, target); }
    if d.Ok? {
      CanvasUrlExactly(j, url, d.value);
      CanvasTrace(j, d.value, 0, count);
    }
  }

  /** A URL that is not this file's is refused as a destination if it leaves the origin, as a path or query otherwise. */
  lemma RefusalCodes(j: Job, url: string)
    ensures var d := DownloadTarget(j, url);
      d.Err? ==> d.error == if OnCanvas(j, url) then CHECK_NOT_READ_ONLY else DESTINATION_NOT_ALLOWED
  {
    PlainExactly(url);
    hide CleanUrl, Plain, FieldsOk;
  }
}
