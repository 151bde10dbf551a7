/** The part the AWS and the GCP Anyware Manager set-up scripts share word
    for word: reading the temporary credentials, logging in, changing the
    administrator password, creating the deployment and its service-account
    key, in that order, each step ending the run when it raises. */
module AwmSetup {
  import opened Wrappers
  import opened Text
  import opened Http

  const ApiUrl: string := "https://localhost/api/v1"
  const LoginUrl: string := ApiUrl + "/auth/ad/login"
  const PasswordUrl: string := ApiUrl + "/auth/ad/adminPassword"
  const DeploymentsUrl: string := ApiUrl + "/deployments"
  const KeysUrl: string := ApiUrl + "/auth/keys"

  /** Where the five requests of the set-up go, in the order they are sent. */
  const SetupUrls: seq<string> := [LoginUrl, PasswordUrl, LoginUrl, DeploymentsUrl, KeysUrl]

  /** The session both scripts open: certificates are not verified, and
      `POST` is retried ten times on a 5xx status through the old
      `method_whitelist` keyword. */
  const SetupRetry: RetryPolicy := RetryPolicy(10, 1, RetryStatuses, [Post], MethodWhitelist)

  method OpenSession() returns (session: Session)
    ensures fresh(session)
    ensures session.authorization == None && !session.verify && session.retry == Some(SetupRetry)
    ensures session.exchanges == []
  {
    session := new Session();
    session.verify := false;
    session.retry := Some(SetupRetry);
  }

  // ---------------------------------------------------------------------------
  // Temporary credentials

  /** One `key: value` line of the credentials file, both sides stripped. */
  datatype CredsLine = CredsLine(key: string, value: string)

  /** `key, value = map(str.strip, line.split(":"))`: unpacking fails with
      `ValueError` unless the line holds exactly one `:`. */
  function ParseCredsLine(line: string): (r: Result<CredsLine, Error>)
    ensures r.Failure? ==> r.error == ValueError
  {
    var parts := Split(line, ':');
    if |parts| == 2 then Success(CredsLine(Strip(parts[0]), Strip(parts[1]))) else Failure(ValueError)
  }

  /** A line parses exactly when it holds one `:`; the key is the stripped
      text before it and the value the stripped text after it. */
  lemma ParseCredsLineSplits(line: string)
    ensures ParseCredsLine(line).Success? <==> IndexOf(line, ':').Some? && ':' !in line[IndexOf(line, ':').value + 1..]
    ensures ParseCredsLine(line).Success? ==>
      var i := IndexOf(line, ':').value;
      ParseCredsLine(line).value == CredsLine(Strip(line[..i]), Strip(line[i + 1..]))
  {
    SplitOnce(line, ':');
  }

  /** Each line of the file, parsed. */
  function ParsedLines(lines: seq<string>): (ls: seq<Result<CredsLine, Error>>)
    ensures |ls| == |lines|
    ensures forall i :: 0 <= i < |lines| ==> ls[i] == ParseCredsLine(lines[i])
  {
    seq(|lines|, i requires 0 <= i < |lines| => ParseCredsLine(lines[i]))
  }

  /** The dictionary the loop builds from the parsed lines: each line in turn
      stored under its key, stopping at the first malformed line. */
  function CredsMap(ls: seq<Result<CredsLine, Error>>): Result<map<string, string>, Error>
    decreases |ls|
  {
    if ls == [] then Success(map[])
    else
      var m :- CredsMap(ls[..|ls| - 1]);
      var l :- ls[|ls| - 1];
      Success(m[l.key := l.value])
  }

  /** `data['username'], data['password']` after the loop. */
  function TempCreds(lines: seq<string>): Result<(string, string), Error>
  {
    var m :- CredsMap(ParsedLines(lines));
    var user :- Lookup(m, "username");
    var password :- Lookup(m, "password");
    Success((user, password))
  }

  /** `get_temp_creds`: the loop over the lines of the credentials file. */
  method GetTempCreds(lines: seq<string>) returns (r: Result<(string, string), Error>)
    ensures r == TempCreds(lines)
  {
    ghost var ls := ParsedLines(lines);
    var data: map<string, string> := map[];
    var i := 0;
    while i < |lines|
      invariant 0 <= i <= |lines|
      invariant CredsMap(ls[..i]) == Success(data)
    {
      var l := ParseCredsLine(lines[i]);
      CredsMapStep(ls, i, data);
      if l.Failure? {
        CredsMapPrefixFails(ls, i + 1);
        return Failure(l.error);
      }
      data := data[l.value.key := l.value.value];
      i := i + 1;
    }
    assert ls[..i] == ls;
    var user := Lookup(data, "username");
    if user.Failure? {
      return Failure(user.error);
    }
    var password := Lookup(data, "password");
    if password.Failure? {
      return Failure(password.error);
    }
    r := Success((user.value, password.value));
  }

  /** One more line: a malformed line fails the prefix with its error, a
      well-formed one stores its value under its key. */
  lemma CredsMapStep(ls: seq<Result<CredsLine, Error>>, i: nat, data: map<string, string>)
    requires i < |ls| && CredsMap(ls[..i]) == Success(data)
    ensures CredsMap(ls[..i + 1]) ==
      if ls[i].Failure? then Failure(ls[i].error) else Success(data[ls[i].value.key := ls[i].value.value])
  {
    var prefix := ls[..i + 1];
    assert prefix[..i] == ls[..i] && prefix[i] == ls[i];
  }

  /** Once a prefix of the file fails to parse, so does the file, with the
      same error. */
  lemma {:induction false} CredsMapPrefixFails(ls: seq<Result<CredsLine, Error>>, n: nat)
    requires n <= |ls| && CredsMap(ls[..n]).Failure?
    ensures CredsMap(ls) == CredsMap(ls[..n])
    decreases |ls| - n
  {
    if n == |ls| {
      assert ls[..n] == ls;
    } else {
      assert ls[..n + 1][..n] == ls[..n];
      CredsMapPrefixFails(ls, n + 1);
    }
  }

  /** The file parses exactly when every line does, and then fails with the
      error of the first line that does not. */
  lemma {:induction false} CredsMapFails(ls: seq<Result<CredsLine, Error>>)
    ensures CredsMap(ls).Success? <==> forall i :: 0 <= i < |ls| ==> ls[i].Success?
    ensures CredsMap(ls).Failure? ==>
      exists i :: 0 <= i < |ls| && ls[i] == Failure(CredsMap(ls).error) && forall j :: 0 <= j < i ==> ls[j].Success?
    decreases |ls|
  {
    if ls != [] {
      var init := ls[..|ls| - 1];
      CredsMapFails(init);
      assert forall i :: 0 <= i < |init| ==> init[i] == ls[i];
    }
  }

  /** The dictionary holds exactly the keys of the lines, and the value kept
      for a key is the one on the last line with that key. */
  lemma {:induction false} CredsMapContents(ls: seq<Result<CredsLine, Error>>)
    requires CredsMap(ls).Success?
    ensures forall i :: 0 <= i < |ls| ==> ls[i].Success?
    ensures forall k :: k in CredsMap(ls).value <==> exists i :: 0 <= i < |ls| && ls[i].value.key == k
    ensures forall i :: 0 <= i < |ls| && (forall j :: i < j < |ls| ==> ls[j].value.key != ls[i].value.key) ==>
      CredsMap(ls).value[ls[i].value.key] == ls[i].value.value
    decreases |ls|
  {
    if ls != [] {
      var init := ls[..|ls| - 1];
      CredsMapContents(init);
      assert forall i :: 0 <= i < |init| ==> init[i] == ls[i];
      var last := ls[|ls| - 1].value;
      var m := CredsMap(init).value;
      assert CredsMap(ls).value == m[last.key := last.value];
      forall k | k in CredsMap(ls).value
        ensures exists i :: 0 <= i < |ls| && ls[i].value.key == k
      {
        if k != last.key {
          var i :| 0 <= i < |init| && init[i].value.key == k;
          assert ls[i].value.key == k;
        }
      }
    }
  }

  /** A key is in the dictionary exactly when some line of the file has it. */
  lemma CredsKey(lines: seq<string>, k: string)
    requires CredsMap(ParsedLines(lines)).Success?
    ensures forall i :: 0 <= i < |lines| ==> ParseCredsLine(lines[i]).Success?
    ensures k in CredsMap(ParsedLines(lines)).value <==>
      exists i :: 0 <= i < |lines| && ParseCredsLine(lines[i]).value.key == k
  {
    var ls := ParsedLines(lines);
    CredsMapContents(ls);
    if k in CredsMap(ls).value {
      var i :| 0 <= i < |ls| && ls[i].value.key == k;
      assert ParseCredsLine(lines[i]).value.key == k;
    }
    if exists i :: 0 <= i < |lines| && ParseCredsLine(lines[i]).value.key == k {
      var i :| 0 <= i < |lines| && ParseCredsLine(lines[i]).value.key == k;
      assert ls[i].value.key == k;
    }
  }

  /** Reading the credentials succeeds exactly when every line holds one `:`
      and some line has the key `username` and some line the key `password`;
      a malformed line raises `ValueError`, and `username` is looked up
      first. */
  lemma TempCredsSucceeds(lines: seq<string>)
    ensures TempCreds(lines).Success? <==>
      && (forall i :: 0 <= i < |lines| ==> ParseCredsLine(lines[i]).Success?)
      && (exists i :: 0 <= i < |lines| && ParseCredsLine(lines[i]).value.key == "username")
      && (exists i :: 0 <= i < |lines| && ParseCredsLine(lines[i]).value.key == "password")
    ensures CredsMap(ParsedLines(lines)).Failure? ==> TempCreds(lines) == Failure(ValueError)
    ensures CredsMap(ParsedLines(lines)).Success? && "username" !in CredsMap(ParsedLines(lines)).value ==>
      TempCreds(lines) == Failure(KeyError("username"))
  {
    var ls := ParsedLines(lines);
    CredsMapFails(ls);
    if CredsMap(ls).Success? {
      CredsKey(lines, "username");
      CredsKey(lines, "password");
    } else {
      var i :| 0 <= i < |ls| && ls[i] == Failure(CredsMap(ls).error) && forall j :: 0 <= j < i ==> ls[j].Success?;
      assert ls[i] == ParseCredsLine(lines[i]);
    }
  }

  // ---------------------------------------------------------------------------
  // The steps

  function LoginBody(username: string, password: string): map<string, Value> {
    map["username" := Str(username), "password" := Str(password)]
  }

  function PasswordBody(password: string): map<string, Value> {
    map["password" := Str(password)]
  }

  function DeploymentBody(name: string, regCode: string): map<string, Value> {
    map["deploymentName" := Str(name), "registrationCode" := Str(regCode)]
  }

  function KeyBody(deploymentId: string, name: string): map<string, Value> {
    map["deploymentId" := Str(deploymentId), "keyName" := Str(name)]
  }

  /** A `Result` seen only for whether it raised. */
  function Raised<T>(r: Result<T, Error>): (o: Outcome<Error>)
    ensures o.Pass? <==> r.Success?
    ensures o.Fail? ==> r == Failure(o.error)
  {
    if r.Success? then Pass else Fail(r.error)
  }

  /** Whether the response to the `i`-th request of the set-up lets the run go
      on: a login needs a token, the password change a status that does not
      raise, the two creations a `data` member. */
  function StepCheck(i: nat, resp: Response): (o: Outcome<Error>)
    ensures RaisesForStatus(resp.status) ==> o == Fail(HttpError(resp.status))
  {
    if i == 0 || i == 2 then Raised(TokenOf(resp))
    else if i == 1 then RaiseForStatus(resp)
    else Raised(CheckedData(resp))
  }

  /** `deployment['deploymentId']` */
  function DeploymentId(deployment: Data): Result<string, Error> {
    Field(deployment, "deploymentId")
  }

  /** `cas_mgr_login` (AWS) and `awm_login` (GCP): the request carries the
      header the session already has, and the header becomes the returned
      token only when the response does not raise and holds one. */
  method Login(session: Session, username: string, password: string, server: Server) returns (o: Outcome<Error>)
    modifies session`exchanges, session`authorization
    ensures var req := Request(Post, LoginUrl, old(session.authorization), LoginBody(username, password));
      var resp := server(|old(session.exchanges)|, req);
      && session.exchanges == old(session.exchanges) + [Exchange(req, resp)]
      && o == StepCheck(0, resp)
      && session.authorization == (if o.Pass? then Some(TokenOf(resp).value) else old(session.authorization))
  {
    var resp := session.Send(Post, LoginUrl, LoginBody(username, password), server);
    var token := TokenOf(resp);
    if token.Failure? {
      return Fail(token.error);
    }
    session.SetAuthorization(token.value);
    o := Pass;
  }

  /** `password_change` */
  method PasswordChange(session: Session, newPassword: string, server: Server) returns (o: Outcome<Error>)
    modifies session`exchanges
    ensures var req := Request(Post, PasswordUrl, session.authorization, PasswordBody(newPassword));
      var resp := server(|old(session.exchanges)|, req);
      && session.exchanges == old(session.exchanges) + [Exchange(req, resp)]
      && o == StepCheck(1, resp)
  {
    var resp := session.Send(Post, PasswordUrl, PasswordBody(newPassword), server);
    o := RaiseForStatus(resp);
  }

  /** `deployment_create`: the deployment is the `data` of the response. */
  method DeploymentCreate(session: Session, name: string, regCode: string, server: Server) returns (d: Result<Data, Error>)
    modifies session`exchanges
    ensures var req := Request(Post, DeploymentsUrl, session.authorization, DeploymentBody(name, regCode));
      var resp := server(|old(session.exchanges)|, req);
      && session.exchanges == old(session.exchanges) + [Exchange(req, resp)]
      && d == CheckedData(resp)
  {
    var resp := session.Send(Post, DeploymentsUrl, DeploymentBody(name, regCode), server);
    d := CheckedData(resp);
  }

  /** `deployment_key_create`: the payload is built before the request, so a
      deployment without an id raises and sends nothing. */
  method DeploymentKeyCreate(session: Session, deployment: Data, name: string, server: Server) returns (k: Result<Data, Error>)
    modifies session`exchanges
    ensures DeploymentId(deployment).Failure? ==>
      session.exchanges == old(session.exchanges) && k == Failure(DeploymentId(deployment).error)
    ensures DeploymentId(deployment).Success? ==>
      var req := Request(Post, KeysUrl, session.authorization, KeyBody(DeploymentId(deployment).value, name));
      var resp := server(|old(session.exchanges)|, req);
      && session.exchanges == old(session.exchanges) + [Exchange(req, resp)]
      && k == CheckedData(resp)
  {
    var id := DeploymentId(deployment);
    if id.Failure? {
      return Failure(id.error);
    }
    var resp := session.Send(Post, KeysUrl, KeyBody(id.value, name), server);
    k := CheckedData(resp);
  }

  /** Where both scripts validate a cloud service account. */
  const ValidateUrl: string := ApiUrl + "/auth/users/cloudServiceAccount/validate"

  /** What the validation of a cloud service account returns once its
      request was answered: `True` when the status does not raise; otherwise
      the `HTTPError` is caught and the answer is `False`, except that for a
      400 answer the script prints its `data`, which raises `KeyError` when
      there is none. */
  function ValidationOutcome(resp: Response): (v: Result<bool, Error>)
    ensures v == Success(true) <==> !RaisesForStatus(resp.status)
    ensures v.Failure? <==> resp.status == 400 && resp.data.None?
    ensures v.Failure? ==> v.error == KeyError("data")
  {
    if !RaisesForStatus(resp.status) then Success(true)
    else if resp.status == 400 && resp.data.None? then Failure(KeyError("data"))
    else Success(false)
  }

  // ---------------------------------------------------------------------------
  // The run

  /** The command-line arguments the run uses; the key file path only names
      where the key is written. */
  datatype SetupArgs = SetupArgs(deploymentName: string, keyName: string, password: string, regCode: string)

  /** The first phase ("Setting ... Administrator password"): a login with
      the temporary password carrying the header `auth`, then, only if it
      yielded a token, the password change carrying that token. `o` is the
      outcome of the last request sent. */
  ghost predicate PasswordPhase(auth: Option<string>, user: string, tempPassword: string, newPassword: string,
                                log: seq<Exchange>, o: Outcome<Error>) {
    && 1 <= |log| <= 2
    && log[0].request == Request(Post, LoginUrl, auth, LoginBody(user, tempPassword))
    && (|log| == 2 ==>
         && StepCheck(0, log[0].response).Pass?
         && log[1].request == Request(Post, PasswordUrl, Some(TokenOf(log[0].response).value), PasswordBody(newPassword)))
    && o == StepCheck(|log| - 1, log[|log| - 1].response)
    && (o.Pass? ==> |log| == 2)
  }

  /** The second phase ("Creating ... deployment"): a login with the new
      password, then the deployment, then a key for the id of that
      deployment, the last two carrying the token of this login; each
      request is sent only if the one before passed. */
  ghost predicate DeploymentPhase(auth: Option<string>, user: string, args: SetupArgs,
                                  log: seq<Exchange>, r: Result<(Data, Data), Error>) {
    && 1 <= |log| <= 3
    && log[0].request == Request(Post, LoginUrl, auth, LoginBody(user, args.password))
    && (|log| >= 2 ==>
         && StepCheck(2, log[0].response).Pass?
         && log[1].request == Request(Post, DeploymentsUrl, Some(TokenOf(log[0].response).value),
                                      DeploymentBody(args.deploymentName, args.regCode)))
    && (|log| == 3 ==>
         && StepCheck(3, log[1].response).Pass?
         && DeploymentId(CheckedData(log[1].response).value).Success?
         && log[2].request == Request(Post, KeysUrl, Some(TokenOf(log[0].response).value),
                                      KeyBody(DeploymentId(CheckedData(log[1].response).value).value, args.keyName)))
    && (r.Success? <==> |log| == 3 && StepCheck(4, log[2].response).Pass?)
    && (r.Success? ==> r.value == (CheckedData(log[1].response).value, CheckedData(log[2].response).value))
    && (r.Failure? && StepCheck(|log| + 1, log[|log| - 1].response).Fail? ==>
         r.error == StepCheck(|log| + 1, log[|log| - 1].response).error)
    && (r.Failure? && StepCheck(|log| + 1, log[|log| - 1].response).Pass? ==>
         |log| == 2 && DeploymentId(CheckedData(log[1].response).value) == Failure(r.error))
  }

  /** The whole run after the credentials were read: either the first phase
      failed and its error is the run's, or it passed and the second phase
      followed, its first login carrying the token of the first. */
  ghost predicate SetupLog(user: string, tempPassword: string, args: SetupArgs,
                           log: seq<Exchange>, r: Result<(Data, Data), Error>) {
    || (|log| <= 2 && r.Failure? && PasswordPhase(None, user, tempPassword, args.password, log, Fail(r.error)))
    || (&& |log| > 2
        && PasswordPhase(None, user, tempPassword, args.password, log[..2], Pass)
        && DeploymentPhase(Some(TokenOf(log[0].response).value), user, args, log[2..], r))
  }

  /** The first phase of the main block. */
  method ChangeAdminPassword(session: Session, user: string, tempPassword: string, newPassword: string, server: Server)
    returns (o: Outcome<Error>, ghost log: seq<Exchange>)
    modifies session`exchanges, session`authorization
    ensures session.exchanges == old(session.exchanges) + log
    ensures Served(server, |old(session.exchanges)|, log)
    ensures PasswordPhase(old(session.authorization), user, tempPassword, newPassword, log, o)
    ensures session.authorization ==
      if StepCheck(0, log[0].response).Pass? then Some(TokenOf(log[0].response).value) else old(session.authorization)
  {
    ghost var before := session.exchanges;
    o := Login(session, user, tempPassword, server);
    log := [session.exchanges[|before|]];
    if o.Fail? {
      return;
    }
    o := PasswordChange(session, newPassword, server);
    log := log + [session.exchanges[|before| + 1]];
  }

  /** The second phase of the main block. */
  method CreateDeployment(session: Session, user: string, args: SetupArgs, server: Server)
    returns (r: Result<(Data, Data), Error>, ghost log: seq<Exchange>)
    modifies session`exchanges, session`authorization
    ensures session.exchanges == old(session.exchanges) + log
    ensures Served(server, |old(session.exchanges)|, log)
    ensures DeploymentPhase(old(session.authorization), user, args, log, r)
    ensures session.authorization ==
      if StepCheck(2, log[0].response).Pass? then Some(TokenOf(log[0].response).value) else old(session.authorization)
  {
    ghost var before := session.exchanges;
    var o := Login(session, user, args.password, server);
    log := [session.exchanges[|before|]];
    if o.Fail? {
      return Failure(o.error), log;
    }
    var deployment := DeploymentCreate(session, args.deploymentName, args.regCode, server);
    log := log + [session.exchanges[|before| + 1]];
    if deployment.Failure? {
      return Failure(deployment.error), log;
    }
    var key := DeploymentKeyCreate(session, deployment.value, args.keyName, server);
    if DeploymentId(deployment.value).Failure? {
      return Failure(key.error), log;
    }
    log := log + [session.exchanges[|before| + 2]];
    if key.Failure? {
      return Failure(key.error), log;
    }
    r := Success((deployment.value, key.value));
  }

  /** The main block of both scripts up to writing the key: open the
      session, read the credentials, then run the two phases. The result is
      the deployment and the key the script writes to `--key_file`. */
  method Setup(credsLines: seq<string>, args: SetupArgs, server: Server)
    returns (session: Session, r: Result<(Data, Data), Error>)
    ensures fresh(session)
    ensures !session.verify && session.retry == Some(SetupRetry)
    ensures Served(server, 0, session.exchanges)
    ensures TempCreds(credsLines).Failure? ==> session.exchanges == [] && r == Failure(TempCreds(credsLines).error)
    ensures TempCreds(credsLines).Success? ==>
      SetupLog(TempCreds(credsLines).value.0, TempCreds(credsLines).value.1, args, session.exchanges, r)
  {
    session := OpenSession();
    var creds := GetTempCreds(credsLines);
    if creds.Failure? {
      return session, Failure(creds.error);
    }
    var o, log1 := ChangeAdminPassword(session, creds.value.0, creds.value.1, args.password, server);
    if o.Fail? {
      return session, Failure(o.error);
    }
    ghost var log2;
    r, log2 := CreateDeployment(session, creds.value.0, args, server);
    ComposePhases(server, creds.value.0, creds.value.1, args, log1, log2, r);
  }

  /** The two phases, one after the other, make the run. */
  lemma ComposePhases(server: Server, user: string, tempPassword: string, args: SetupArgs,
                      log1: seq<Exchange>, log2: seq<Exchange>, r: Result<(Data, Data), Error>)
    requires Served(server, 0, log1) && Served(server, |log1|, log2)
    requires PasswordPhase(None, user, tempPassword, args.password, log1, Pass)
    requires DeploymentPhase(Some(TokenOf(log1[0].response).value), user, args, log2, r)
    ensures Served(server, 0, log1 + log2)
    ensures SetupLog(user, tempPassword, args, log1 + log2, r)
  {
    var log := log1 + log2;
    assert log[..2] == log1 && log[2..] == log2;
    forall i | 0 <= i < |log|
      ensures log[i].response == server(i, log[i].request)
    {
      if i >= |log1| {
        assert log[i] == log2[i - |log1|];
      }
    }
  }

  // ---------------------------------------------------------------------------
  // What the run guarantees

  /** The requests went to the set-up URLs in order, by `POST`, and each one
      but the last passed its check. */
  ghost predicate InOrderFailFast(log: seq<Exchange>) {
    && |log| <= |SetupUrls|
    && (forall i :: 0 <= i < |log| ==> log[i].request.verb == Post && log[i].request.url == SetupUrls[i])
    && (forall i :: 0 <= i < |log| - 1 ==> StepCheck(i, log[i].response).Pass?)
  }

  /** The first login carries no header; the password change and the second
      login carry the token of the first login; the creations carry the
      token of the second. */
  ghost predicate SetupHeaders(log: seq<Exchange>) {
    && (|log| > 0 ==> log[0].request.authorization == None)
    && (|log| > 1 ==>
         TokenOf(log[0].response).Success? && log[1].request.authorization == Some(TokenOf(log[0].response).value))
    && (|log| > 2 ==> log[2].request.authorization == Some(TokenOf(log[0].response).value))
    && (|log| > 3 ==>
         TokenOf(log[2].response).Success? && log[3].request.authorization == Some(TokenOf(log[2].response).value))
    && (|log| > 4 ==> log[4].request.authorization == Some(TokenOf(log[2].response).value))
  }

  /** The run succeeds exactly when all five requests were sent and the last
      passed, and then returns the deployment and the key; a run that sent
      fewer failed. */
  ghost predicate SetupResult(log: seq<Exchange>, r: Result<(Data, Data), Error>)
    requires 0 < |log| <= 5
  {
    && (r.Success? <==> |log| == 5 && StepCheck(4, log[4].response).Pass?)
    && (r.Success? ==>
         && CheckedData(log[3].response).Success? && CheckedData(log[4].response).Success?
         && r.value == (CheckedData(log[3].response).value, CheckedData(log[4].response).value))
    && (StepCheck(|log| - 1, log[|log| - 1].response).Fail? ==> r == Failure(StepCheck(|log| - 1, log[|log| - 1].response).error))
  }

  /** The set-up runs its five steps in the fixed order, stops at the first
      one that raises and reports that step's error, and every request after
      a login carries that login's token. */
  lemma SetupInOrder(user: string, tempPassword: string, args: SetupArgs, log: seq<Exchange>, r: Result<(Data, Data), Error>)
    requires SetupLog(user, tempPassword, args, log, r)
    ensures 0 < |log| <= 5
    ensures InOrderFailFast(log)
    ensures SetupHeaders(log)
    ensures SetupResult(log, r)
  {
    if |log| > 2 {
      var p, d := log[..2], log[2..];
      assert log[0] == p[0] && log[1] == p[1];
      assert forall i :: 2 <= i < |log| ==> log[i] == d[i - 2];
    }
  }

  /** The key is requested for the deployment the run created: its payload
      names the `deploymentId` of the `data` returned by the deployment
      request. */
  lemma KeyForCreatedDeployment(user: string, tempPassword: string, args: SetupArgs, log: seq<Exchange>, r: Result<(Data, Data), Error>)
    requires SetupLog(user, tempPassword, args, log, r)
    requires |log| == 5
    ensures CheckedData(log[3].response).Success?
    ensures log[4].request.body == KeyBody(DeploymentId(CheckedData(log[3].response).value).value, args.keyName)
    ensures log[1].request.body == PasswordBody(args.password) && log[2].request.body == LoginBody(user, args.password)
  {
    var d := log[2..];
    assert d[1] == log[3] && d[2] == log[4] && d[0] == log[2];
    assert log[..2][1] == log[1];
  }
}
