/**
  The redirect-bounded download of one Canvas file (src/syllva/canvas/http.py), against an arbitrary server.

  What the server does is a script: the outcome of the n-th request, whatever the client asks for. URL parsing and
  joining are parameters; so is the redirect budget.
 */
module Download {
  import opened Wrappers
  import Decimal

  type Byte = b: int | 0 <= b < 256

  /** A normalized HTTPS origin. */
  datatype Origin = Origin(host: string, port: nat)

  /** Path and query of a request. */
  datatype Target = Target(path: string, query: string)

  /** A URL taken apart: its origin if that is a valid HTTPS origin, its path, and its query with its fields if well formed. */
  datatype Parsed = Parsed(origin: Option<Origin>, path: string, query: string, fields: Option<seq<(string, string)>>)

  datatype Urls = Urls(join: (Origin, Target, string) -> string, parse: string -> Parsed)

  datatype Request = Request(origin: Origin, target: Target, token: Option<string>)

  datatype Response = Response(status: int, location: string, body: seq<Byte>)

  /** The outcome of one request; `late` and `tooLate`: the deadline has passed before the request, or after the answer. */
  datatype Outcome = Outcome(late: bool, answer: Result<Response, Code>, tooLate: bool)

  datatype Code = DESTINATION_NOT_ALLOWED | CHECK_NOT_READ_ONLY | PROVIDER_UNAVAILABLE | SIZE_MISMATCH | TIMEOUT
                | INVALID_CREDENTIAL | PERMISSION_MISSING | NOT_FOUND | RATE_LIMITED

  /** One download: the Canvas origin, the file, and everything the code is given. `opens`: why the storage connection cannot be opened. */
  datatype Job = Job(urls: Urls, origin: Origin, token: string, courseId: nat, fileId: string, size: int, hosts: set<string>,
                     budget: nat, limit: nat, opens: (Origin) -> Option<Code>, script: nat -> Outcome)

  // ---------------------------------------------------------------------------------------
  // Targets

  predicate CleanUrl(url: string) {
    |url| <= 8192 && forall i :: 0 <= i < |url| ==> url[i] != '\\' && url[i] != '#' && ' ' < url[i] && url[i] != 127 as char
  }

  predicate FilePath(j: Job, path: string) {
    || path == "/files/" + j.fileId + "/download"
    || path == "/courses/" + Decimal.Digits(j.courseId) + "/files/" + j.fileId + "/download"
  }

  predicate ValueOk(v: string) { |v| <= 256 && forall i :: 0 <= i < |v| ==> ' ' <= v[i] < 127 as char }

  predicate FieldsOk(fields: seq<(string, string)>) {
    && |fields| <= 2
    && (forall i, k :: 0 <= i < k < |fields| ==> fields[i].0 != fields[k].0)
    && (forall i :: 0 <= i < |fields| ==> (fields[i].0 == "download_frd" || fields[i].0 == "verifier") && ValueOk(fields[i].1))
  }

  /** `_download_target`, on a URL already joined with the origin */
  function DownloadTarget(j: Job, url: string): Result<Target, Code> {
    if !CleanUrl(url) then Err(DESTINATION_NOT_ALLOWED)
    else
      var p := j.urls.parse(j.urls.join(j.origin, Target("/", ""), url));
      if p.origin != Some(j.origin) then Err(DESTINATION_NOT_ALLOWED)
      else if !FilePath(j, p.path) then Err(CHECK_NOT_READ_ONLY)
      else if p.fields.None? || !FieldsOk(p.fields.value) then Err(CHECK_NOT_READ_ONLY)
      else Ok(Target(p.path, p.query))
  }

  /** `_foreign_target` */
  function ForeignTarget(j: Job, url: string): Result<(Origin, Target), Code> {
    if !CleanUrl(url) then Err(DESTINATION_NOT_ALLOWED)
    else
      var p := j.urls.parse(url);
      var path := if p.path == "" then "/" else p.path;
      if p.origin.None? || p.origin.value.port != 443 || p.origin.value.host !in j.hosts || path[0] != '/' then Err(DESTINATION_NOT_ALLOWED)
      else Ok((p.origin.value, Target(path, p.query)))
  }

  predicate TokenOk(token: string) { 1 <= |token| <= 4096 && forall i :: 0 <= i < |token| ==> 33 as char <= token[i] <= 126 as char }

  // ---------------------------------------------------------------------------------------
  // One request

  predicate Redirect(status: int) { 300 <= status < 400 }

  /** What `_fetch` makes of the outcome of a request that was sent. */
  function Judged(o: Outcome): Result<Response, Code> {
    match o.answer
    case Err(code) => Err(code)
    case Ok(r) =>
      if o.tooLate then Err(TIMEOUT)
      else if Redirect(r.status) then Ok(r)
      else if r.status == 401 then Err(INVALID_CREDENTIAL)
      else if r.status == 403 then Err(PERMISSION_MISSING)
      else if r.status == 404 then Err(NOT_FOUND)
      else if r.status == 429 then Err(RATE_LIMITED)
      else if !(200 <= r.status < 300) then Err(PROVIDER_UNAVAILABLE)
      else Ok(r)
  }

  function Exact(j: Job, r: Response): Result<seq<Byte>, Code> { if |r.body| == j.size then Ok(r.body) else Err(SIZE_MISMATCH) }

  // ---------------------------------------------------------------------------------------
  // The chain of requests

  /** The requests sent from some point on, and how the download ends. */
  datatype Chain = Chain(sent: seq<Request>, end: Result<seq<Byte>, Code>)

  function Then(r: Request, rest: Chain): Chain { Chain([r] + rest.sent, rest.end) }

  /** `_foreign` from its next request on: `left` requests may be sent, and the script is at `n`. */
  function StorageHops(j: Job, storage: Origin, target: Target, n: nat, left: nat): Chain
    decreases left
  {
    if left == 0 then Chain([], Err(PROVIDER_UNAVAILABLE))
    else if j.script(n).late then Chain([], Err(TIMEOUT))
    else
      var request := Request(storage, target, None);
      match Judged(j.script(n))
      case Err(code) => Chain([request], Err(code))
      case Ok(r) =>
        if !Redirect(r.status) then Chain([request], Exact(j, r))
        else if r.location == "" then Chain([request], Err(PROVIDER_UNAVAILABLE))
        else
          match ForeignTarget(j, j.urls.join(storage, target, r.location))
          case Err(code) => Chain([request], Err(code))
          case Ok((again, next)) =>
            if again != storage then Chain([request], Err(DESTINATION_NOT_ALLOWED))
            else Then(request, StorageHops(j, storage, next, n + 1, left - 1))
  }

  function Storage(j: Job, url: string, n: nat, left: nat): Chain {
    match ForeignTarget(j, url)
    case Err(code) => Chain([], Err(code))
    case Ok((storage, target)) =>
      if j.opens(storage).Some? then Chain([], Err(j.opens(storage).value)) else StorageHops(j, storage, target, n, left)
  }

  /** `download` from hop `hop` on: the script is at `n`, and the Canvas connection has sent `count` requests in its life. */
  function CanvasHops(j: Job, target: Target, hop: nat, n: nat, count: nat): Chain
    decreases j.budget + 1 - hop
  {
    if hop > j.budget || count >= j.limit then Chain([], Err(PROVIDER_UNAVAILABLE))
    else if j.script(n).late then Chain([], Err(TIMEOUT))
    else
      var request := Request(j.origin, target, Some(j.token));
      match Judged(j.script(n))
      case Err(code) => Chain([request], Err(code))
      case Ok(r) =>
        if !Redirect(r.status) then Chain([request], Exact(j, r))
        else if r.location == "" then Chain([request], Err(PROVIDER_UNAVAILABLE))
        else
          var absolute := j.urls.join(j.origin, target, r.location);
          if j.urls.parse(absolute).origin == Some(j.origin) then
            match DownloadTarget(j, absolute)
            case Err(code) => Chain([request], Err(code))
            case Ok(next) => Then(request, CanvasHops(j, next, hop + 1, n + 1, count + 1))
          else if hop >= j.budget then Chain([request], Err(PROVIDER_UNAVAILABLE))
          else Then(request, Storage(j, absolute, n + 1, j.budget - hop))
  }

  /** `download` on a connection that has sent `count` requests before. */
  function Whole(j: Job, url: string, count: nat, closed: bool): Chain {
    if j.size < 1 then Chain([], Err(SIZE_MISMATCH))
    else if !TokenOk(j.token) then Chain([], Err(INVALID_CREDENTIAL))
    else
      match DownloadTarget(j, url)
      case Err(code) => Chain([], Err(code))
      case Ok(target) => if closed then Chain([], Err(PROVIDER_UNAVAILABLE)) else CanvasHops(j, target, 0, 0, count)
  }

  // ---------------------------------------------------------------------------------------
  // What holds against every server

  /** The target is the download path of this file, taken from a URL that passed the allowlist of origin, path and query. */
  ghost predicate Allowlisted(j: Job, target: Target) {
    FilePath(j, target.path) && exists url :: DownloadTarget(j, url) == Ok(target)
  }

  /** A request to the Canvas origin, for this file, with the token. */
  ghost predicate ToCanvas(j: Job, r: Request) {
    r.origin == j.origin && r.token == Some(j.token) && Allowlisted(j, r.target)
  }

  /** A request to the storage host: HTTPS on an allowed host, and no token. */
  predicate ToStorage(j: Job, storage: Origin, r: Request) {
    r.origin == storage && r.token == None && storage.port == 443 && storage.host in j.hosts
  }

  /** First requests to Canvas only, then requests to one storage host only. */
  ghost predicate Shape(j: Job, sent: seq<Request>, k: nat, storage: Origin) {
    k <= |sent| && (forall i :: 0 <= i < k ==> ToCanvas(j, sent[i])) && (forall i :: k <= i < |sent| ==> ToStorage(j, storage, sent[i]))
  }

  lemma {:induction false} StorageShape(j: Job, storage: Origin, target: Target, n: nat, left: nat)
    requires storage.port == 443 && storage.host in j.hosts
    ensures var c := StorageHops(j, storage, target, n, left); |c.sent| <= left && Shape(j, c.sent, 0, storage)
    decreases left
  {
    if left > 0 && Judged(j.script(n)).Ok? {
      var r := Judged(j.script(n)).value;
      var f := ForeignTarget(j, j.urls.join(storage, target, r.location));
      if f.Ok? { StorageShape(j, storage, f.value.1, n + 1, left - 1); }
    }
    hide Judged, ForeignTarget, Exact;
  }

  lemma {:induction false} CanvasShape(j: Job, target: Target, hop: nat, n: nat, count: nat) returns (k: nat, storage: Origin)
    requires Allowlisted(j, target) && hop <= j.budget + 1
    ensures var c := CanvasHops(j, target, hop, n, count); |c.sent| <= j.budget + 1 - hop && Shape(j, c.sent, k, storage)
    decreases j.budget + 1 - hop
  {
    hide FilePath, Judged, Exact, CleanUrl, FieldsOk, StorageHops;
    k, storage := |CanvasHops(j, target, hop, n, count).sent|, j.origin;
    if hop <= j.budget && count < j.limit && !j.script(n).late && Judged(j.script(n)).Ok? {
      var r := Judged(j.script(n)).value;
      if Redirect(r.status) && r.location != "" {
        var absolute := j.urls.join(j.origin, target, r.location);
        if j.urls.parse(absolute).origin == Some(j.origin) {
          var next := DownloadTarget(j, absolute);
          if next.Ok? {
            k, storage := CanvasShape(j, next.value, hop + 1, n + 1, count + 1);
            k := k + 1;
          }
        } else if hop < j.budget && ForeignTarget(j, absolute).Ok? {
          var (s, t) := ForeignTarget(j, absolute).value;
          StorageShape(j, s, t, n + 1, j.budget - hop);
          k, storage := 1, s;
        }
      }
    }
  }

  /**
    Whatever the server answers, and for any budget N: at most N + 1 requests are sent over both connections together;
    every request with the token goes to the original origin, for this file's download path; after the first one to
    another host the host never changes, is an allowed one, and never sees the token.
   */
  lemma AgainstAnyServer(j: Job, url: string, count: nat, closed: bool) returns (k: nat, storage: Origin)
    ensures var c := Whole(j, url, count, closed); |c.sent| <= j.budget + 1 && Shape(j, c.sent, k, storage)
    ensures forall r :: r in Whole(j, url, count, closed).sent && r.token.Some? ==> ToCanvas(j, r)
  {
    k, storage := 0, j.origin;
    var target := DownloadTarget(j, url);
    if j.size >= 1 && TokenOk(j.token) && target.Ok? && !closed {
      k, storage := CanvasShape(j, target.value, 0, 0, count);
    }
    hide CanvasHops, DownloadTarget, FilePath;
  }

  /** The bytes are those of the last answer. */
  ghost predicate Delivered(j: Job, n: nat, c: Chain) {
    c.end.Ok? ==>
      && |c.sent| > 0 && |c.end.value| == j.size
      && (var last := j.script(n + |c.sent| - 1);
          last.answer.Ok? && last.answer.value.body == c.end.value && 200 <= last.answer.value.status < 300 && !last.tooLate)
  }

  lemma {:induction false} StorageDelivers(j: Job, storage: Origin, target: Target, n: nat, left: nat)
    ensures Delivered(j, n, StorageHops(j, storage, target, n, left))
    decreases left
  {
    if left > 0 && Judged(j.script(n)).Ok? {
      var f := ForeignTarget(j, j.urls.join(storage, target, Judged(j.script(n)).value.location));
      if f.Ok? { StorageDelivers(j, storage, f.value.1, n + 1, left - 1); }
    }
    hide ForeignTarget;
  }

  lemma {:induction false} CanvasDelivers(j: Job, target: Target, hop: nat, n: nat, count: nat)
    ensures Delivered(j, n, CanvasHops(j, target, hop, n, count))
    decreases j.budget + 1 - hop
  {
    hide StorageHops, DownloadTarget, ForeignTarget;
    if hop <= j.budget && Judged(j.script(n)).Ok? {
      var absolute := j.urls.join(j.origin, target, Judged(j.script(n)).value.location);
      var next := DownloadTarget(j, absolute);
      if next.Ok? { CanvasDelivers(j, next.value, hop + 1, n + 1, count + 1); }
      if hop < j.budget && ForeignTarget(j, absolute).Ok? {
        var (s, t) := ForeignTarget(j, absolute).value;
        StorageDelivers(j, s, t, n + 1, j.budget - hop);
      }
    }
  }

  /** Success yields exactly the expected number of bytes: the body of the last answer, with a success status, in time. */
  lemma SuccessIsExact(j: Job, url: string, count: nat, closed: bool)
    ensures Delivered(j, 0, Whole(j, url, count, closed))
  {
    hide CanvasHops, DownloadTarget;
    var target := DownloadTarget(j, url);
    if target.Ok? { CanvasDelivers(j, target.value, 0, 0, count); }
  }

  /** The answer to request `n` is the file. */
  predicate Served(j: Job, n: nat) {
    !j.script(n).late && Judged(j.script(n)).Ok? && !Redirect(Judged(j.script(n)).value.status) && |Judged(j.script(n)).value.body| == j.size
  }

  /** The answer to request `n` is a redirect. */
  predicate RedirectedAt(j: Job, n: nat) {
    && !j.script(n).late && Judged(j.script(n)).Ok?
    && Redirect(Judged(j.script(n)).value.status) && Judged(j.script(n)).value.location != ""
  }

  /** The answer to request `n`, sent to `target`, is a redirect to that URL. */
  predicate RedirectsTo(j: Job, n: nat, target: Target, url: string) {
    RedirectedAt(j, n) && j.urls.join(j.origin, target, Judged(j.script(n)).value.location) == url
  }

  /** An honest server succeeds: with the file at once, or after one redirect to an allowed storage host (if the budget has one). */
  lemma HonestServer(j: Job, url: string, count: nat, elsewhere: string)
    requires j.size >= 1 && TokenOk(j.token) && DownloadTarget(j, url).Ok? && count < j.limit
    ensures Served(j, 0) ==>
      Whole(j, url, count, false) == Chain([Request(j.origin, DownloadTarget(j, url).value, Some(j.token))], Ok(Judged(j.script(0)).value.body))
    ensures
      var target, f := DownloadTarget(j, url).value, ForeignTarget(j, elsewhere);
      j.budget >= 1 && RedirectsTo(j, 0, target, elsewhere) && j.urls.parse(elsewhere).origin != Some(j.origin)
      && f.Ok? && j.opens(f.value.0).None? && Served(j, 1)
      ==> Whole(j, url, count, false) ==
            Chain([Request(j.origin, target, Some(j.token)), Request(f.value.0, f.value.1, None)], Ok(Judged(j.script(1)).value.body))
  {
    hide Judged, DownloadTarget, ForeignTarget;
  }

  /** The URL is another download URL of the same file. */
  predicate StaysOnFile(j: Job, url: string) { j.urls.parse(url).origin == Some(j.origin) && DownloadTarget(j, url).Ok? }

  /** The budget is used up exactly: a server that keeps redirecting to the same file gets N + 1 requests and then a refusal. */
  lemma {:induction false} EndlessRedirects(j: Job, target: Target, hop: nat, n: nat, count: nat)
    requires hop <= j.budget + 1 && count + j.budget + 1 - hop <= j.limit
    requires forall i :: RedirectedAt(j, i)
    requires forall t, i :: RedirectedAt(j, i) ==> StaysOnFile(j, j.urls.join(j.origin, t, Judged(j.script(i)).value.location))
    ensures var c := CanvasHops(j, target, hop, n, count); |c.sent| == j.budget + 1 - hop && c.end == Err(PROVIDER_UNAVAILABLE)
    decreases j.budget + 1 - hop
  {
    hide Judged, DownloadTarget;
    if hop <= j.budget {
      assert RedirectedAt(j, n);
      var r := Judged(j.script(n)).value;
      var next := DownloadTarget(j, j.urls.join(j.origin, target, r.location));
      EndlessRedirects(j, next.value, hop + 1, n + 1, count + 1);
    }
  }

  // ---------------------------------------------------------------------------------------
  // The connection

  /** Every request that leaves the process, over all connections of one download. */
  class Wire {
    var sent: seq<Request>

    constructor ()
      ensures sent == []
    {
      sent := [];
    }
  }

  class CanvasConnection {
    const origin: Origin
    const wire: Wire
    var count: nat
    var limit: nat
    var closed: bool

    constructor (origin: Origin, wire: Wire)
      ensures this.origin == origin && this.wire == wire && count == 0 && !closed
    {
      this.origin, this.wire, count, limit, closed := origin, wire, 0, 0, false;
    }

    /** `_admit` */
    predicate Admits()
      reads this
    {
      !closed && count < limit
    }

    method Close()
      modifies `closed
      ensures closed
    {
      closed := true;
    }

    /** `_fetch`: the n-th request of the download. */
    method Fetch(j: Job, n: nat, request: Request) returns (r: Result<Response, Code>)
      modifies `count, wire
      ensures if j.script(n).late then r == Err(TIMEOUT) && wire.sent == old(wire.sent) && count == old(count)
              else r == Judged(j.script(n)) && wire.sent == old(wire.sent) + [request] && count == old(count) + 1
    {
      if j.script(n).late { return Err(TIMEOUT); }
      count := count + 1;
      wire.sent := wire.sent + [request];
      var answer := j.script(n).answer;
      if answer.Err? { return Err(answer.error); }
      if j.script(n).tooLate { return Err(TIMEOUT); }
      var status := answer.value.status;
      if Redirect(status) { return answer; }
      if status == 401 { return Err(INVALID_CREDENTIAL); }
      if status == 403 { return Err(PERMISSION_MISSING); }
      if status == 404 { return Err(NOT_FOUND); }
      if status == 429 { return Err(RATE_LIMITED); }
      if !(200 <= status < 300) { return Err(PROVIDER_UNAVAILABLE); }
      return answer;
    }

    lemma Appended(before: seq<Request>, r: Request, rest: seq<Request>)
      ensures before + ([r] + rest) == (before + [r]) + rest
    {
    }

    /** `_foreign`: at most `requests` requests over a new connection, without the token. */
    method Foreign(j: Job, url: string, n: nat, requests: nat) returns (r: Result<seq<Byte>, Code>)
      requires j.origin == origin
      modifies wire
      ensures var c := Storage(j, url, n, requests); wire.sent == old(wire.sent) + c.sent && r == c.end
    {
      hide Judged, ForeignTarget, Exact, Redirect;
      var first := ForeignTarget(j, url);
      if first.Err? { return Err(first.error); }
      var (storage, target) := first.value;
      if j.opens(storage).Some? { return Err(j.opens(storage).value); }
      var other := new CanvasConnection(storage, wire);
      var i := 0;
      while i < requests
        invariant 0 <= i <= requests && !other.closed && other.count == i && fresh(other) && other.wire == wire
        invariant old(wire.sent) + StorageHops(j, storage, first.value.1, n, requests).sent
               == wire.sent + StorageHops(j, storage, target, n + i, requests - i).sent
        invariant StorageHops(j, storage, first.value.1, n, requests).end == StorageHops(j, storage, target, n + i, requests - i).end
      {
        other.limit := requests;
        if !other.Admits() { return Err(PROVIDER_UNAVAILABLE); }
        var response := other.Fetch(j, n + i, Request(storage, target, None));
        if response.Err? { other.Close(); return Err(response.error); }
        if !Redirect(response.value.status) { other.Close(); return Exact(j, response.value); }
        if response.value.location == "" { other.Close(); return Err(PROVIDER_UNAVAILABLE); }
        var next := ForeignTarget(j, j.urls.join(storage, target, response.value.location));
        if next.Err? { other.Close(); return Err(next.error); }
        if next.value.0 != storage { other.Close(); return Err(DESTINATION_NOT_ALLOWED); }
        Appended(wire.sent[..|wire.sent| - 1], Request(storage, target, None),
                 StorageHops(j, storage, next.value.1, n + i + 1, requests - i - 1).sent);
        target := next.value.1;
        i := i + 1;
      }
      other.Close();
      return Err(PROVIDER_UNAVAILABLE);
    }

    method Download(j: Job, url: string) returns (r: Result<seq<Byte>, Code>)
      requires j.origin == origin
      modifies this, wire
      ensures var c := Whole(j, url, old(count), old(closed)); wire.sent == old(wire.sent) + c.sent && r == c.end
    {
      hide Judged, DownloadTarget, Exact, Storage, TokenOk, Redirect;
      if j.size < 1 { return Err(SIZE_MISMATCH); }
      if !TokenOk(j.token) { return Err(INVALID_CREDENTIAL); }
      var first := DownloadTarget(j, url);
      if first.Err? { return Err(first.error); }
      if closed { return Err(PROVIDER_UNAVAILABLE); }
      var target := first.value;
      ghost var whole := CanvasHops(j, target, 0, 0, count);
      var hop := 0;
      while hop <= j.budget
        invariant 0 <= hop <= j.budget + 1 && !closed && count == old(count) + hop
        invariant old(wire.sent) + whole.sent == wire.sent + CanvasHops(j, target, hop, hop, count).sent
        invariant whole.end == CanvasHops(j, target, hop, hop, count).end
      {
        limit := j.limit;
        if !Admits() { return Err(PROVIDER_UNAVAILABLE); }
        var response := Fetch(j, hop, Request(origin, target, Some(j.token)));
        if response.Err? { return Err(response.error); }
        if !Redirect(response.value.status) { return Exact(j, response.value); }
        if response.value.location == "" { return Err(PROVIDER_UNAVAILABLE); }
        var absolute := j.urls.join(origin, target, response.value.location);
        if j.urls.parse(absolute).origin == Some(origin) {
          var next := DownloadTarget(j, absolute);
          if next.Err? { return Err(next.error); }
          Appended(wire.sent[..|wire.sent| - 1], Request(origin, target, Some(j.token)), CanvasHops(j, next.value, hop + 1, hop + 1, count).sent);
          target := next.value;
          hop := hop + 1;
        } else {
          if hop >= j.budget { break; }
          r := Foreign(j, absolute, hop + 1, j.budget - hop);
          return r;
        }
      }
      return Err(PROVIDER_UNAVAILABLE);
    }
  }
}
