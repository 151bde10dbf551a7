/** The AWS set-up script's optional block: when `--aws_key` names an INI
    file, the script looks up the IAM user of its access key, validates the
    credentials with the Anyware Manager and, if they are valid, adds them
    to the new deployment. None of its HTTP errors ends the run. */
module AwsAwmSetup {
  import opened Wrappers
  import opened Http
  import opened AwmSetup

  /** The sections of an INI file, each a dictionary of its options. */
  type IniFile = map<string, map<string, string>>

  /** The IAM call `get_access_key_last_used`: the user name for an access
      key id, or `None` when the call raises `ClientError`. */
  type Iam = string -> Option<string>

  /** `get_aws_sa_key`: the `[default]` section. */
  function AwsSaKey(config: IniFile): (key: Result<map<string, string>, Error>)
    ensures key.Success? <==> "default" in config
    ensures key.Success? ==> key.value == config["default"]
    ensures key.Failure? ==> key.error == KeyError("default")
  {
    if "default" in config then Success(config["default"]) else Failure(KeyError("default"))
  }

  /** `get_username`: the missing option raises, but a failed IAM call only
      prints a warning and gives `None`. */
  function Username(key: map<string, string>, iam: Iam): (u: Result<Option<string>, Error>)
    ensures u.Success? <==> "aws_access_key_id" in key
    ensures u.Success? ==> u.value == iam(key["aws_access_key_id"])
    ensures u.Failure? ==> u.error == KeyError("aws_access_key_id")
  {
    var id :- Lookup(key, "aws_access_key_id");
    Success(iam(id))
  }

  /** `if username`: `None` and the empty string are false. */
  predicate Truthy(username: Option<string>) {
    username.Some? && username.value != ""
  }

  /** The `credential` object both AWS requests send. */
  function AwsCredential(username: string, key: map<string, string>): (c: Result<map<string, string>, Error>)
    ensures c.Success? <==> "aws_access_key_id" in key && "aws_secret_access_key" in key
    ensures c.Success? ==> c.value == map["userName" := username, "accessKeyId" := key["aws_access_key_id"],
                                          "secretAccessKey" := key["aws_secret_access_key"]]
    ensures c.Failure? ==> c.error == KeyError(if "aws_access_key_id" in key then "aws_secret_access_key" else "aws_access_key_id")
  {
    var id :- Lookup(key, "aws_access_key_id");
    var secret :- Lookup(key, "aws_secret_access_key");
    Success(map["userName" := username, "accessKeyId" := id, "secretAccessKey" := secret])
  }

  function AwsAccountBody(credential: map<string, string>): map<string, Value> {
    map["provider" := Str("aws"), "credential" := Obj(credential)]
  }

  /** `/deployments/<id>/cloudServiceAccounts` */
  function AccountUrl(deploymentId: string): string {
    ApiUrl + "/deployments/" + deploymentId + "/cloudServiceAccounts"
  }

  /** `validate_aws_sa`: the payload is built first, so a missing option
      raises before anything is sent; an HTTP error status gives `False`. */
  method ValidateAwsSa(session: Session, username: string, key: map<string, string>, server: Server)
    returns (valid: Result<bool, Error>)
    modifies session`exchanges
    ensures AwsCredential(username, key).Failure? ==>
      session.exchanges == old(session.exchanges) && valid == Failure(AwsCredential(username, key).error)
    ensures AwsCredential(username, key).Success? ==>
      var req := Request(Post, ValidateUrl, session.authorization, AwsAccountBody(AwsCredential(username, key).value));
      var resp := server(|old(session.exchanges)|, req);
      && session.exchanges == old(session.exchanges) + [Exchange(req, resp)]
      && valid == ValidationOutcome(resp)
  {
    var credential := AwsCredential(username, key);
    if credential.Failure? {
      return Failure(credential.error);
    }
    var resp := session.Send(Post, ValidateUrl, AwsAccountBody(credential.value), server);
    valid := ValidationOutcome(resp);
  }

  /** `deployment_add_aws_account`: the URL needs the deployment's id; the
      status of the answer is only printed. */
  method DeploymentAddAwsAccount(session: Session, username: string, key: map<string, string>, deployment: Data, server: Server)
    returns (o: Outcome<Error>)
    modifies session`exchanges
    ensures AwsCredential(username, key).Failure? ==>
      session.exchanges == old(session.exchanges) && o == Fail(AwsCredential(username, key).error)
    ensures AwsCredential(username, key).Success? && DeploymentId(deployment).Failure? ==>
      session.exchanges == old(session.exchanges) && o == Fail(DeploymentId(deployment).error)
    ensures AwsCredential(username, key).Success? && DeploymentId(deployment).Success? ==>
      var req := Request(Post, AccountUrl(DeploymentId(deployment).value), session.authorization,
                         AwsAccountBody(AwsCredential(username, key).value));
      && session.exchanges == old(session.exchanges) + [Exchange(req, server(|old(session.exchanges)|, req))]
      && o == Pass
  {
    var credential := AwsCredential(username, key);
    if credential.Failure? {
      return Fail(credential.error);
    }
    var id := DeploymentId(deployment);
    if id.Failure? {
      return Fail(id.error);
    }
    var _ := session.Send(Post, AccountUrl(id.value), AwsAccountBody(credential.value), server);
    o := Pass;
  }

  /** The block under `if args.aws_key:`, run after the key was written.
      Nothing is sent without a key file, a `[default]` section with both
      options and a truthy IAM user name; the account is added only when the
      validation answered `True`. */
  method AddAwsAccount(session: Session, awsKey: Option<IniFile>, iam: Iam, deployment: Data, server: Server)
    returns (o: Outcome<Error>, ghost log: seq<Exchange>)
    modifies session`exchanges
    ensures session.exchanges == old(session.exchanges) + log
    ensures |log| <= 2
    ensures |log| >= 1 <==>
      && awsKey.Some? && AwsSaKey(awsKey.value).Success?
      && Username(AwsSaKey(awsKey.value).value, iam).Success? && Truthy(Username(AwsSaKey(awsKey.value).value, iam).value)
      && AwsCredential(Username(AwsSaKey(awsKey.value).value, iam).value.value, AwsSaKey(awsKey.value).value).Success?
    ensures |log| >= 1 ==>
      var key := AwsSaKey(awsKey.value).value;
      var credential := AwsCredential(iam(key["aws_access_key_id"]).value, key).value;
      && log[0].request == Request(Post, ValidateUrl, session.authorization, AwsAccountBody(credential))
      && log[0].response == server(|old(session.exchanges)|, log[0].request)
      && (|log| == 2 <==> ValidationOutcome(log[0].response) == Success(true) && DeploymentId(deployment).Success?)
      && (|log| == 2 ==>
           && log[1].request == Request(Post, AccountUrl(DeploymentId(deployment).value), session.authorization,
                                        AwsAccountBody(credential))
           && log[1].response == server(|old(session.exchanges)| + 1, log[1].request))
    ensures awsKey.None? ==> o == Pass
    ensures o.Fail? ==> o.error.KeyError? || o.error.TypeError?
  {
    log := [];
    if awsKey.None? {
      return Pass, log;
    }
    var key := AwsSaKey(awsKey.value);
    if key.Failure? {
      return Fail(key.error), log;
    }
    var username := Username(key.value, iam);
    if username.Failure? {
      return Fail(username.error), log;
    }
    if !Truthy(username.value) {
      return Pass, log;
    }
    ghost var start := |session.exchanges|;
    var valid := ValidateAwsSa(session, username.value.value, key.value, server);
    if AwsCredential(username.value.value, key.value).Failure? {
      return Fail(valid.error), log;
    }
    log := [session.exchanges[start]];
    if valid.Failure? {
      return Fail(valid.error), log;
    }
    if !valid.value {
      return Pass, log;
    }
    o := DeploymentAddAwsAccount(session, username.value.value, key.value, deployment, server);
    if DeploymentId(deployment).Success? {
      log := log + [session.exchanges[start + 1]];
    }
  }
}
