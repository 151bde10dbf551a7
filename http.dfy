/** What the scripts use of the `requests` library: the request a script
    sends, the status and `data` member of the JSON answer, `raise_for_status`,
    the retry policy mounted on a session, and a `requests.Session` whose
    `headers`, `verify` and adapter the scripts set. The server is an input:
    a function from the position of a request in its session and the request
    to the response. */
module Http {
  import opened Wrappers

  /** A value in a JSON payload: a string, or an object of strings. */
  datatype Value = Str(s: string) | Obj(fields: map<string, string>)

  /** `resp.json()['data']`: an object or a list of objects. */
  datatype Data = Fields(fields: map<string, string>) | Items(items: seq<map<string, string>>)

  /** A response: its status code and the `data` member of its JSON body, if any. */
  datatype Response = Response(status: int, data: Option<Data>)

  datatype Method = Get | Post

  /** A request: method, URL, the `Authorization` header it carries, and its
      JSON payload or query parameters. */
  datatype Request = Request(verb: Method, url: string, authorization: Option<string>, body: map<string, Value>)

  /** One request of a session and the response it got. */
  datatype Exchange = Exchange(request: Request, response: Response)

  /** What a step raises. */
  datatype Error =
    | HttpError(status: int)
    | KeyError(key: string)
    | TypeError
    | IndexError
    | ValueError

  type Server = (nat, Request) -> Response

  /** Every response in `log` is the server's answer to its request, the
      first of them having been sent as request number `start`. */
  ghost predicate Served(server: Server, start: nat, log: seq<Exchange>) {
    forall i :: 0 <= i < |log| ==> log[i].response == server(start + i, log[i].request)
  }

  /** `raise_for_status` raises `HTTPError` for a client error (4xx) or a
      server error (5xx) status and for no other. */
  predicate RaisesForStatus(status: int) {
    400 <= status < 600
  }

  /** `resp.raise_for_status()` */
  function RaiseForStatus(r: Response): (o: Outcome<Error>)
    ensures o.Pass? <==> !(400 <= r.status < 600)
    ensures o.Fail? ==> o.error == HttpError(r.status)
  {
    if RaisesForStatus(r.status) then Fail(HttpError(r.status)) else Pass
  }

  /** `resp.json()['data']` */
  function DataOf(r: Response): (d: Result<Data, Error>)
    ensures d.Success? <==> r.data.Some?
  {
    match r.data
    case None => Failure(KeyError("data"))
    case Some(d) => Success(d)
  }

  /** `d[key]` on an object with string members; a list cannot be indexed by
      a string. */
  function Field(d: Data, key: string): (v: Result<string, Error>)
    ensures v.Success? <==> d.Fields? && key in d.fields
    ensures v.Success? ==> v.value == d.fields[key]
  {
    match d
    case Items(_) => Failure(TypeError)
    case Fields(m) => if key in m then Success(m[key]) else Failure(KeyError(key))
  }

  /** `d[key]` on a dictionary of strings. */
  function Lookup(m: map<string, string>, key: string): (v: Result<string, Error>)
    ensures v.Success? <==> key in m
    ensures v.Success? ==> v.value == m[key]
    ensures v.Failure? ==> v.error == KeyError(key)
  {
    if key in m then Success(m[key]) else Failure(KeyError(key))
  }

  /** `resp.raise_for_status()` followed by `resp.json()['data']['token']`. */
  function TokenOf(r: Response): (t: Result<string, Error>)
    ensures t.Success? <==> !RaisesForStatus(r.status) && r.data.Some? && r.data.value.Fields? && "token" in r.data.value.fields
    ensures t.Success? ==> t.value == r.data.value.fields["token"]
    ensures RaisesForStatus(r.status) ==> t == Failure(HttpError(r.status))
  {
    if RaisesForStatus(r.status) then Failure(HttpError(r.status))
    else
      var d :- DataOf(r);
      Field(d, "token")
  }

  /** `resp.raise_for_status()` followed by `resp.json()['data']`. */
  function CheckedData(r: Response): (d: Result<Data, Error>)
    ensures d.Success? <==> !RaisesForStatus(r.status) && r.data.Some?
    ensures d.Success? ==> d.value == r.data.value
    ensures RaisesForStatus(r.status) ==> d == Failure(HttpError(r.status))
  {
    if RaisesForStatus(r.status) then Failure(HttpError(r.status)) else DataOf(r)
  }

  // ---------------------------------------------------------------------------
  // Retry policy

  /** The keyword that names the retried methods: `allowed_methods` from
      urllib3 1.26.0 on, `method_whitelist` before. */
  datatype MethodsKeyword = AllowedMethods | MethodWhitelist

  /** `requests.adapters.Retry(total=..., backoff_factor=..., status_forcelist=..., <keyword>=...)` */
  datatype RetryPolicy = RetryPolicy(
    total: nat,
    backoffFactor: nat,
    statusForcelist: seq<int>,
    methods: seq<Method>,
    keyword: MethodsKeyword)

  /** A `StrictVersion` of the form `major.minor.patch`. */
  datatype Version = Version(major: nat, minor: nat, patch: nat)

  /** `StrictVersion` ordering: by major, then minor, then patch number. */
  predicate VersionLess(a: Version, b: Version) {
    || a.major < b.major
    || (a.major == b.major && a.minor < b.minor)
    || (a.major == b.major && a.minor == b.minor && a.patch < b.patch)
  }

  /** The version of urllib3 that renamed `method_whitelist`. */
  const ChangedVersion: Version := Version(1, 26, 0)

  /** The statuses the scripts retry on. */
  const RetryStatuses: seq<int> := [500, 502, 503, 504]

  /** The policy the connector-token scripts try to mount: ten tries, a
      backoff factor of one, and `POST`/`GET` retried. `acceptsAllowedMethods`
      says whether the installed urllib3 takes the `allowed_methods` keyword
      (otherwise the constructor raises `TypeError`); the fallback to the old
      keyword is taken only for an installed version below 1.26.0, and any
      other `TypeError` is raised again. */
  function ConnectorRetry(acceptsAllowedMethods: bool, installed: Version): (r: Result<RetryPolicy, Error>)
    ensures r.Success? <==> acceptsAllowedMethods || VersionLess(installed, ChangedVersion)
    ensures r.Success? ==> r.value.keyword == (if acceptsAllowedMethods then AllowedMethods else MethodWhitelist)
    ensures r.Failure? ==> r.error == TypeError
  {
    if acceptsAllowedMethods then Success(RetryPolicy(10, 1, RetryStatuses, [Post, Get], AllowedMethods))
    else if VersionLess(installed, ChangedVersion) then Success(RetryPolicy(10, 1, RetryStatuses, [Post, Get], MethodWhitelist))
    else Failure(TypeError)
  }

  /** Whichever keyword is used, the policy is the same: ten tries, backoff
      factor one, the four 5xx statuses, `POST` and `GET`. The old keyword is
      used only below 1.26.0. */
  lemma ConnectorRetrySettings(acceptsAllowedMethods: bool, installed: Version)
    requires ConnectorRetry(acceptsAllowedMethods, installed).Success?
    ensures var p := ConnectorRetry(acceptsAllowedMethods, installed).value;
      && p.total == 10 && p.backoffFactor == 1
      && p.statusForcelist == [500, 502, 503, 504] && p.methods == [Post, Get]
      && (p.keyword == MethodWhitelist ==> VersionLess(installed, Version(1, 26, 0)))
  {
  }

  // ---------------------------------------------------------------------------
  // Session

  /** A `requests.Session`: the `Authorization` header it adds to every
      request, whether it verifies TLS certificates, the retry policy mounted
      for `https://`, and every request it has sent with its response. */
  class Session {
    var authorization: Option<string>
    var verify: bool
    var retry: Option<RetryPolicy>
    var exchanges: seq<Exchange>

    /** `requests.Session()`: no header, certificates verified, no retry
        adapter, nothing sent. */
    constructor ()
      ensures authorization == None && verify && retry == None && exchanges == []
    {
      authorization := None;
      verify := true;
      retry := None;
      exchanges := [];
    }

    /** `session.post(url, json=body)` or `session.get(url, params=body)`: the
        request carries the session's current header, and the response is the
        server's answer to it. */
    method Send(m: Method, url: string, body: map<string, Value>, server: Server) returns (resp: Response)
      modifies this`exchanges
      ensures resp == server(|old(exchanges)|, Request(m, url, authorization, body))
      ensures exchanges == old(exchanges) + [Exchange(Request(m, url, authorization, body), resp)]
    {
      var request := Request(m, url, authorization, body);
      resp := server(|exchanges|, request);
      exchanges := exchanges + [Exchange(request, resp)];
    }

    /** `session.headers.update({"Authorization": token})` */
    method SetAuthorization(token: string)
      modifies this`authorization
      ensures authorization == Some(token)
    {
      authorization := Some(token);
    }
  }
}
