/** The quickstart's Anyware Manager client: an object holding the token it
    authenticates with and the header made from it. Its requests go out one
    by one without a session, each with the client's header except the
    sign-in, which replaces the token and the header with the ones it
    obtains. Listing a region's instances and picking the ones with a given
    name, adding the first of them as a machine, and looking up a user are
    modelled too. */
module AnywareManagerClient {
  import opened Wrappers
  import opened Http

  /** The default `url` of the constructor. */
  const DefaultUrl: string := "https://cas.teradici.com"

  /** A dictionary loaded from JSON, such as a deployment or an instance. */
  type Record = map<string, string>

  /** The header dictionary `{'authorization': token}`. */
  function AuthHeader(token: string): map<string, string> {
    map["authorization" := token]
  }

  /** The `Authorization` a request made with `headers=header` carries. */
  function HeaderAuthorization(header: map<string, string>): (a: Option<string>)
    ensures a.Some? <==> "authorization" in header
    ensures a.Some? ==> a.value == header["authorization"]
  {
    if "authorization" in header then Some(header["authorization"]) else None
  }

  /** `auth_token_validate` after the request: `True` for a status that does
      not raise, `False` for 401, and the `HTTPError` raised again for any
      other error status. */
  function TokenValidity(resp: Response): (v: Result<bool, Error>)
    ensures v == Success(true) <==> !RaisesForStatus(resp.status)
    ensures v == Success(false) <==> resp.status == 401
    ensures v.Failure? <==> RaisesForStatus(resp.status) && resp.status != 401
    ensures v.Failure? ==> v.error == HttpError(resp.status)
  {
    if !RaisesForStatus(resp.status) then Success(true)
    else if resp.status == 401 then Success(false)
    else Failure(HttpError(resp.status))
  }

  /** The sign-in payload; unlike the connector scripts it sends `apiKey`
      under its own name. */
  function SigninBody(key: Record): (b: Result<map<string, Value>, Error>)
    ensures b.Success? <==> "username" in key && "apiKey" in key
    ensures b.Success? ==> b.value == map["username" := Str(key["username"]), "apiKey" := Str(key["apiKey"])]
    ensures b.Failure? ==> b.error == KeyError(if "username" in key then "apiKey" else "username")
  {
    var username :- Lookup(key, "username");
    var apiKey :- Lookup(key, "apiKey");
    Success(map["username" := Str(username), "apiKey" := Str(apiKey)])
  }

  /** Iterating over `resp.json()['data']`: a list gives its members; an
      object gives its keys, so indexing them by `'instanceName'` raises
      `TypeError` unless there are none. */
  function InstancesOf(d: Data): (r: Result<seq<Record>, Error>)
    ensures d.Items? ==> r == Success(d.items)
    ensures d.Fields? ==> (r.Success? <==> d.fields == map[])
    ensures r.Failure? ==> r.error == TypeError
  {
    match d
    case Items(xs) => Success(xs)
    case Fields(m) => if m == map[] then Success([]) else Failure(TypeError)
  }

  /** Whether an instance carries the name looked for; one without an
      `instanceName` raises `KeyError`. */
  function NameMatches(instance: Record, name: string): (m: Result<bool, Error>)
    ensures m.Success? <==> "instanceName" in instance
    ensures m.Success? ==> (m.value <==> instance["instanceName"] == name)
    ensures m.Failure? ==> m.error == KeyError("instanceName")
  {
    var n :- Lookup(instance, "instanceName");
    Success(n == name)
  }

  /** `[i['instanceId'] for i in instances if i['instanceName'] == name]`:
      each instance's name is read in turn, and the id only of those that
      match. */
  function InstanceIds(instances: seq<Record>, name: string): Result<seq<string>, Error> {
    if instances == [] then Success([])
    else
      var first :- IdIfMatch(instances[0], name);
      var rest :- InstanceIds(instances[1..], name);
      Success(first + rest)
  }

  /** What one instance contributes: its id if its name matches. */
  function IdIfMatch(instance: Record, name: string): Result<seq<string>, Error> {
    var m :- NameMatches(instance, name);
    if !m then Success([])
    else
      var id :- Lookup(instance, "instanceId");
      Success([id])
  }

  /** The comprehension over one instance. */
  lemma InstanceIdsSingle(instance: Record, name: string)
    ensures InstanceIds([instance], name) ==
      if "instanceName" !in instance then Failure(KeyError("instanceName"))
      else if instance["instanceName"] != name then Success([])
      else if "instanceId" !in instance then Failure(KeyError("instanceId"))
      else Success([instance["instanceId"]])
  {
    var one := [instance];
    assert one[1..] == [] && one[0] == instance;
    var first := IdIfMatch(instance, name);
    if first.Success? {
      assert InstanceIds(one, name) == Success(first.value + []);
      assert first.value + [] == first.value;
    }
  }

  /** The comprehension over two lists run together is the first list's
      ids followed by the second's, and the first error met is the one
      raised. With `InstanceIdsSingle` this says the ids are exactly those of
      the matching instances, in input order. */
  lemma {:induction false} InstanceIdsAppend(a: seq<Record>, b: seq<Record>, name: string)
    ensures InstanceIds(a + b, name) ==
      match InstanceIds(a, name)
      case Failure(e) => Failure(e)
      case Success(x) =>
        match InstanceIds(b, name)
        case Failure(e) => Failure(e)
        case Success(y) => Success(x + y)
  {
    if a == [] {
      assert a + b == b;
      var rb := InstanceIds(b, name);
      if rb.Success? {
        assert [] + rb.value == rb.value;
      }
    } else {
      assert (a + b)[0] == a[0];
      assert (a + b)[1..] == a[1..] + b;
      InstanceIdsAppend(a[1..], b, name);
      var first, ra, rb := IdIfMatch(a[0], name), InstanceIds(a[1..], name), InstanceIds(b, name);
      if first.Success? && ra.Success? && rb.Success? {
        assert first.value + (ra.value + rb.value) == first.value + ra.value + rb.value;
      }
    }
  }

  /** An instance whose name matches and which precedes every other match. */
  ghost predicate FirstMatch(instances: seq<Record>, name: string, j: int) {
    && 0 <= j < |instances|
    && "instanceName" in instances[j] && instances[j]["instanceName"] == name
    && forall k :: 0 <= k < j ==> "instanceName" in instances[k] && instances[k]["instanceName"] != name
  }

  /** When the comprehension succeeds, its list is empty exactly when no
      instance matches, and otherwise starts with the id of the first
      instance that does. */
  lemma {:induction false} InstanceIdsFirst(instances: seq<Record>, name: string)
    requires InstanceIds(instances, name).Success?
    ensures var ids := InstanceIds(instances, name).value;
      && (ids == [] <==> forall k :: 0 <= k < |instances| ==> "instanceName" in instances[k] && instances[k]["instanceName"] != name)
      && (ids != [] ==> exists j :: FirstMatch(instances, name, j) && "instanceId" in instances[j] && ids[0] == instances[j]["instanceId"])
  {
    if instances != [] {
      var ids := InstanceIds(instances, name).value;
      var rest := instances[1..];
      InstanceIdsFirst(rest, name);
      if instances[0]["instanceName"] == name {
        assert FirstMatch(instances, name, 0);
      } else {
        assert ids == InstanceIds(rest, name).value;
        forall k | 0 <= k < |rest| ensures rest[k] == instances[k + 1] { }
        if ids != [] {
          var j :| FirstMatch(rest, name, j) && "instanceId" in rest[j] && ids[0] == rest[j]["instanceId"];
          assert FirstMatch(instances, name, j + 1);
        } else {
          forall k | 0 <= k < |instances| ensures "instanceName" in instances[k] && instances[k]["instanceName"] != name {
            if k > 0 {
              assert instances[k] == rest[k - 1];
            }
          }
        }
      }
    }
  }

  /** `resp['data'][0] if len(resp.get('data', [])) >= 1 else None`: missing
      or empty `data` gives `None`, a list its first member; indexing a
      non-empty object by `0` raises `KeyError`. */
  function FirstUser(data: Option<Data>): (u: Result<Option<Record>, Error>)
    ensures u == Success(None) <==> data.None? || data == Some(Items([])) || data == Some(Fields(map[]))
    ensures (u.Success? && u.value.Some?) <==> data.Some? && data.value.Items? && |data.value.items| >= 1
    ensures u.Success? && u.value.Some? ==> u.value.value == data.value.items[0]
    ensures u.Failure? ==> u.error == KeyError("0")
  {
    match data
    case None => Success(None)
    case Some(Items(xs)) => if |xs| >= 1 then Success(Some(xs[0])) else Success(None)
    case Some(Fields(m)) => if m == map[] then Success(None) else Failure(KeyError("0"))
  }

  /** The ids `instance_id_get` returns from the answer to `list_instances`. */
  function IdsOfListing(resp: Response, name: string): Result<seq<string>, Error> {
    var data :- CheckedData(resp);
    var instances :- InstancesOf(data);
    InstanceIds(instances, name)
  }

  function MachineBody(name: string, deploymentId: string, instanceId: string, region: string): map<string, Value> {
    map["machineName" := Str(name), "deploymentId" := Str(deploymentId), "provider" := Str("aws"),
        "instanceId" := Str(instanceId), "region" := Str(region)]
  }

  /** `AnywareManager`: the token, the service URL, the header made from the
      token, and every request sent with its response. */
  class AnywareManager {
    var authToken: string
    var url: string
    var header: map<string, string>
    var exchanges: seq<Exchange>

    /** The header is always the one made from the current token: the
        constructor makes it so and `deployment_signin` keeps it so, and every
        request made with the header therefore carries the current token. */
    predicate Valid()
      reads this
    {
      header == AuthHeader(authToken)
    }

    constructor (authToken: string, url: string)
      ensures this.authToken == authToken && this.url == url
      ensures header == map["authorization" := authToken]
      ensures Valid()
      ensures exchanges == []
    {
      this.authToken := authToken;
      this.url := url;
      header := AuthHeader(authToken);
      exchanges := [];
    }

    method Send(m: Method, path: string, authorization: Option<string>, body: map<string, Value>, server: Server)
      returns (resp: Response)
      modifies this`exchanges
      ensures resp == server(|old(exchanges)|, Request(m, url + path, authorization, body))
      ensures exchanges == old(exchanges) + [Exchange(Request(m, url + path, authorization, body), resp)]
    {
      var request := Request(m, url + path, authorization, body);
      resp := server(|exchanges|, request);
      exchanges := exchanges + [Exchange(request, resp)];
    }

    /** `auth_token_validate`: asks whether the current header is accepted. */
    method AuthTokenValidate(server: Server) returns (valid: Result<bool, Error>)
      requires Valid()
      modifies this`exchanges
      ensures var req := Request(Post, url + "/api/v1/auth/verify", Some(authToken), map[]);
        var resp := server(|old(exchanges)|, req);
        && exchanges == old(exchanges) + [Exchange(req, resp)]
        && valid == TokenValidity(resp)
    {
      var resp := Send(Post, "/api/v1/auth/verify", HeaderAuthorization(header), map[], server);
      valid := TokenValidity(resp);
    }

    /** `deployment_signin`: sent without a header; only a response that does
        not raise and holds a token changes the token and the header. */
    method DeploymentSignin(key: Record, server: Server) returns (o: Outcome<Error>)
      modifies this`exchanges, this`authToken, this`header
      ensures SigninBody(key).Failure? ==>
        && exchanges == old(exchanges) && o == Fail(SigninBody(key).error)
        && authToken == old(authToken) && header == old(header)
      ensures SigninBody(key).Success? ==>
        var req := Request(Post, url + "/api/v1/auth/signin", None, SigninBody(key).value);
        var resp := server(|old(exchanges)|, req);
        && exchanges == old(exchanges) + [Exchange(req, resp)]
        && (o.Pass? <==> TokenOf(resp).Success?)
        && (o.Pass? ==> authToken == TokenOf(resp).value && header == map["authorization" := authToken])
        && (o.Fail? ==> o.error == TokenOf(resp).error && authToken == old(authToken) && header == old(header))
      ensures old(Valid()) ==> Valid()
    {
      var body := SigninBody(key);
      if body.Failure? {
        return Fail(body.error);
      }
      var resp := Send(Post, "/api/v1/auth/signin", None, body.value, server);
      var token := TokenOf(resp);
      if token.Failure? {
        return Fail(token.error);
      }
      authToken := token.value;
      header := AuthHeader(authToken);
      o := Pass;
    }

    /** `list_instances`: the deployment's id is read before the request. */
    method ListInstances(deployment: Record, region: string, server: Server) returns (d: Result<Data, Error>)
      requires Valid()
      modifies this`exchanges
      ensures "deploymentId" !in deployment ==>
        exchanges == old(exchanges) && d == Failure(KeyError("deploymentId"))
      ensures "deploymentId" in deployment ==>
        var req := Request(Get, url + "/api/v1/machines/cloudproviders/aws/instances", Some(authToken),
                           map["deploymentId" := Str(deployment["deploymentId"]), "region" := Str(region)]);
        var resp := server(|old(exchanges)|, req);
        && exchanges == old(exchanges) + [Exchange(req, resp)]
        && d == CheckedData(resp)
    {
      var id := Lookup(deployment, "deploymentId");
      if id.Failure? {
        return Failure(id.error);
      }
      var resp := Send(Get, "/api/v1/machines/cloudproviders/aws/instances", HeaderAuthorization(header),
                       map["deploymentId" := Str(id.value), "region" := Str(region)], server);
      d := CheckedData(resp);
    }

    /** `instance_id_get`: the ids of the listed instances with the name. */
    method InstanceIdGet(deployment: Record, region: string, name: string, server: Server)
      returns (ids: Result<seq<string>, Error>)
      requires Valid()
      modifies this`exchanges
      ensures |exchanges| == |old(exchanges)| + (if "deploymentId" in deployment then 1 else 0)
      ensures exchanges[..|old(exchanges)|] == old(exchanges)
      ensures "deploymentId" !in deployment ==> ids == Failure(KeyError("deploymentId"))
      ensures "deploymentId" in deployment ==>
        var e := exchanges[|old(exchanges)|];
        && e.request == Request(Get, url + "/api/v1/machines/cloudproviders/aws/instances", Some(authToken),
                                map["deploymentId" := Str(deployment["deploymentId"]), "region" := Str(region)])
        && e.response == server(|old(exchanges)|, e.request)
        && ids == IdsOfListing(e.response, name)
    {
      var d := ListInstances(deployment, region, server);
      if d.Failure? {
        return Failure(d.error);
      }
      var instances := InstancesOf(d.value);
      if instances.Failure? {
        return Failure(instances.error);
      }
      ids := InstanceIds(instances.value, name);
    }

    /** `machine_add_existing`: the instance is the first one listed with the
        name; without one, `[0]` raises `IndexError` and nothing is added. */
    method MachineAddExisting(name: string, deployment: Record, region: string, server: Server)
      returns (machine: Result<Data, Error>, ghost ids: Result<seq<string>, Error>)
      requires Valid()
      modifies this`exchanges
      ensures |exchanges| >= |old(exchanges)| && exchanges[..|old(exchanges)|] == old(exchanges)
      ensures "deploymentId" in deployment <==> |exchanges| > |old(exchanges)|
      ensures "deploymentId" !in deployment ==> ids == Failure(KeyError("deploymentId"))
      ensures "deploymentId" in deployment ==>
        && exchanges[|old(exchanges)|].request ==
             Request(Get, url + "/api/v1/machines/cloudproviders/aws/instances", Some(authToken),
                     map["deploymentId" := Str(deployment["deploymentId"]), "region" := Str(region)])
        && ids == IdsOfListing(exchanges[|old(exchanges)|].response, name)
      ensures ids.Failure? ==> machine == Failure(ids.error) && |exchanges| <= |old(exchanges)| + 1
      ensures ids == Success([]) ==> machine == Failure(IndexError) && |exchanges| == |old(exchanges)| + 1
      ensures ids.Success? && ids.value != [] ==>
        && "deploymentId" in deployment
        && |exchanges| == |old(exchanges)| + 2
        && var e := exchanges[|old(exchanges)| + 1];
        && e.request == Request(Post, url + "/api/v1/machines", Some(authToken),
                                MachineBody(name, deployment["deploymentId"], ids.value[0], region))
        && e.response == server(|old(exchanges)| + 1, e.request)
        && machine == CheckedData(e.response)
    {
      var found := InstanceIdGet(deployment, region, name, server);
      ids := found;
      if found.Failure? {
        return Failure(found.error), ids;
      }
      if |found.value| == 0 {
        return Failure(IndexError), ids;
      }
      var resp := Send(Post, "/api/v1/machines", HeaderAuthorization(header),
                       MachineBody(name, deployment["deploymentId"], found.value[0], region), server);
      machine := CheckedData(resp);
    }

    /** `user_get`: the first user the directory lookup returns, if any. */
    method UserGet(name: string, deployment: Record, server: Server) returns (user: Result<Option<Record>, Error>)
      requires Valid()
      modifies this`exchanges
      ensures "deploymentId" !in deployment ==>
        exchanges == old(exchanges) && user == Failure(KeyError("deploymentId"))
      ensures "deploymentId" in deployment ==>
        var req := Request(Get, url + "/api/v1/machines/entitlements/adusers", Some(authToken),
                           map["deploymentId" := Str(deployment["deploymentId"]), "name" := Str(name)]);
        var resp := server(|old(exchanges)|, req);
        && exchanges == old(exchanges) + [Exchange(req, resp)]
        && user == (if RaisesForStatus(resp.status) then Failure(HttpError(resp.status)) else FirstUser(resp.data))
    {
      var id := Lookup(deployment, "deploymentId");
      if id.Failure? {
        return Failure(id.error);
      }
      var resp := Send(Get, "/api/v1/machines/entitlements/adusers", HeaderAuthorization(header),
                       map["deploymentId" := Str(id.value), "name" := Str(name)], server);
      if RaisesForStatus(resp.status) {
        return Failure(HttpError(resp.status));
      }
      user := FirstUser(resp.data);
    }
  }
}
