/** The GCP set-up script's optional block: when `--gcp_key` names a service
    account key, the script validates it with the Anyware Manager and, if it
    is valid, adds it to the new deployment. The private key is sent as the
    body of the PEM text, without its first line, its last line and the
    empty piece after the final newline. None of its HTTP errors ends the
    run. */
module GcpAwmSetup {
  import opened Wrappers
  import opened Text
  import opened Http
  import opened AwmSetup

  /** `lines[1:-2]`: empty for three lines or fewer. */
  function MiddleLines(lines: seq<string>): (m: seq<string>)
    ensures |lines| <= 3 ==> m == []
    ensures |lines| > 3 ==> |m| == |lines| - 3 && forall i :: 0 <= i < |m| ==> m[i] == lines[i + 1]
  {
    if |lines| <= 3 then [] else lines[1..|lines| - 2]
  }

  /** `''.join(key['private_key'].split('\n')[1:-2])` */
  function PrivateKeyBody(pem: string): (body: string)
    ensures '\n' !in body
  {
    var lines := MiddleLines(Split(pem, '\n'));
    ConcatAvoids(lines, '\n');
    Concat(lines)
  }

  /** For a key written as a header line, body lines and a footer line, each
      ended by a newline, the text sent is the body lines run together. */
  lemma PrivateKeyBodyOfPem(header: string, body: seq<string>, footer: string)
    requires '\n' !in header && '\n' !in footer
    requires forall i :: 0 <= i < |body| ==> '\n' !in body[i]
    ensures PrivateKeyBody(JoinWith([header] + body + [footer, ""], "\n")) == Concat(body)
  {
    var parts := [header] + body + [footer, ""];
    FramedAvoids(header, body, footer);
    var pem := JoinWith(parts, "\n");
    JoinSplit(parts, '\n');
    assert Split(pem, '\n') == parts;
    MiddleOfFramed(header, body, footer);
    assert PrivateKeyBody(pem) == Concat(MiddleLines(parts));
  }

  /** No piece of a framed key holds a newline when none of its lines does. */
  lemma FramedAvoids(header: string, body: seq<string>, footer: string)
    requires '\n' !in header && '\n' !in footer
    requires forall i :: 0 <= i < |body| ==> '\n' !in body[i]
    ensures forall i :: 0 <= i < |[header] + body + [footer, ""]| ==> '\n' !in ([header] + body + [footer, ""])[i]
  {
    var parts := [header] + body + [footer, ""];
    forall i | 0 <= i < |parts| ensures '\n' !in parts[i] {
      if 0 < i <= |body| {
        assert parts[i] == body[i - 1];
      }
    }
  }

  /** The middle of a header, body lines, a footer and the empty last piece
      is the body. */
  lemma MiddleOfFramed(header: string, body: seq<string>, footer: string)
    ensures MiddleLines([header] + body + [footer, ""]) == body
  {
    var parts := [header] + body + [footer, ""];
    assert parts[1..|parts| - 2] == body;
  }

  /** The `credential` object: client e-mail, private-key body and project,
      looked up in that order. */
  function GcpCredential(key: map<string, string>): (c: Result<map<string, string>, Error>)
    ensures c.Success? <==> "client_email" in key && "private_key" in key && "project_id" in key
    ensures c.Success? ==> c.value == map["clientEmail" := key["client_email"],
                                          "privateKey" := PrivateKeyBody(key["private_key"]),
                                          "projectId" := key["project_id"]]
    ensures c.Failure? ==> c.error.KeyError?
  {
    var email :- Lookup(key, "client_email");
    var pem :- Lookup(key, "private_key");
    var project :- Lookup(key, "project_id");
    Success(map["clientEmail" := email, "privateKey" := PrivateKeyBody(pem), "projectId" := project])
  }

  function ValidateBody(credential: map<string, string>): map<string, Value> {
    map["provider" := Str("gcp"), "credential" := Obj(credential)]
  }

  function AccountBody(deploymentId: string, credential: map<string, string>): map<string, Value> {
    map["deploymentId" := Str(deploymentId), "provider" := Str("gcp"), "credential" := Obj(credential)]
  }

  const AccountUrl: string := ApiUrl + "/auth/users/cloudServiceAccount"

  /** `validate_gcp_sa`: the payload is built first, so a missing field
      raises before anything is sent; an HTTP error status gives `False`. */
  method ValidateGcpSa(session: Session, key: map<string, string>, server: Server) returns (valid: Result<bool, Error>)
    modifies session`exchanges
    ensures GcpCredential(key).Failure? ==>
      session.exchanges == old(session.exchanges) && valid == Failure(GcpCredential(key).error)
    ensures GcpCredential(key).Success? ==>
      var req := Request(Post, ValidateUrl, session.authorization, ValidateBody(GcpCredential(key).value));
      var resp := server(|old(session.exchanges)|, req);
      && session.exchanges == old(session.exchanges) + [Exchange(req, resp)]
      && valid == ValidationOutcome(resp)
  {
    var credential := GcpCredential(key);
    if credential.Failure? {
      return Failure(credential.error);
    }
    var resp := session.Send(Post, ValidateUrl, ValidateBody(credential.value), server);
    valid := ValidationOutcome(resp);
  }

  /** `deployment_add_gcp_account`: the payload names the deployment's id;
      the status of the answer is only printed. */
  method DeploymentAddGcpAccount(session: Session, key: map<string, string>, deployment: Data, server: Server)
    returns (o: Outcome<Error>)
    modifies session`exchanges
    ensures GcpCredential(key).Failure? ==>
      session.exchanges == old(session.exchanges) && o == Fail(GcpCredential(key).error)
    ensures GcpCredential(key).Success? && DeploymentId(deployment).Failure? ==>
      session.exchanges == old(session.exchanges) && o == Fail(DeploymentId(deployment).error)
    ensures GcpCredential(key).Success? && DeploymentId(deployment).Success? ==>
      var req := Request(Post, AccountUrl, session.authorization,
                         AccountBody(DeploymentId(deployment).value, GcpCredential(key).value));
      && session.exchanges == old(session.exchanges) + [Exchange(req, server(|old(session.exchanges)|, req))]
      && o == Pass
  {
    var credential := GcpCredential(key);
    if credential.Failure? {
      return Fail(credential.error);
    }
    var id := DeploymentId(deployment);
    if id.Failure? {
      return Fail(id.error);
    }
    var _ := session.Send(Post, AccountUrl, AccountBody(id.value, credential.value), server);
    o := Pass;
  }

  /** The block under `if args.gcp_key:`, run after the key was written:
      validate, and add the account to the deployment only when the
      validation answered `True`. */
  method AddGcpAccount(session: Session, gcpKey: Option<map<string, string>>, deployment: Data, server: Server)
    returns (o: Outcome<Error>, ghost log: seq<Exchange>)
    modifies session`exchanges
    ensures session.exchanges == old(session.exchanges) + log
    ensures |log| <= 2
    ensures |log| >= 1 <==> gcpKey.Some? && GcpCredential(gcpKey.value).Success?
    ensures |log| >= 1 ==>
      var credential := GcpCredential(gcpKey.value).value;
      && log[0].request == Request(Post, ValidateUrl, session.authorization, ValidateBody(credential))
      && log[0].response == server(|old(session.exchanges)|, log[0].request)
      && (|log| == 2 <==> ValidationOutcome(log[0].response) == Success(true) && DeploymentId(deployment).Success?)
      && (|log| == 2 ==>
           && log[1].request == Request(Post, AccountUrl, session.authorization,
                                        AccountBody(DeploymentId(deployment).value, credential))
           && log[1].response == server(|old(session.exchanges)| + 1, log[1].request))
    ensures gcpKey.None? ==> o == Pass
    ensures o.Fail? ==> o.error.KeyError? || o.error.TypeError?
  {
    log := [];
    if gcpKey.None? {
      return Pass, log;
    }
    ghost var start := |session.exchanges|;
    var valid := ValidateGcpSa(session, gcpKey.value, server);
    if GcpCredential(gcpKey.value).Failure? {
      return Fail(valid.error), log;
    }
    log := [session.exchanges[start]];
    if valid.Failure? {
      return Fail(valid.error), log;
    }
    if !valid.value {
      return Pass, log;
    }
    o := DeploymentAddGcpAccount(session, gcpKey.value, deployment, server);
    if DeploymentId(deployment).Success? {
      log := log + [session.exchanges[start + 1]];
    }
  }
}
