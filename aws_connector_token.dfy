/** The AWS connector-token script: a session with the connector retry
    policy, sign-in with the deployment service-account key, and a connector
    token for a name made of the instance's availability zone, its `Name`
    tag and the time. The instance metadata, the `describe-tags` call of the
    AWS CLI and the clock are inputs. */
module AwsConnectorToken {
  import opened Wrappers
  import opened Text
  import opened Http
  import opened ConnectorToken

  /** `zone[:-1]`: the region of an availability zone, such as `us-west-2`
      for `us-west-2a`; empty for an empty zone. */
  function Region(zone: string): (r: string)
    ensures |zone| >= 1 ==> r + [zone[|zone| - 1]] == zone
    ensures zone == [] ==> r == []
  {
    if zone == [] then [] else zone[..|zone| - 1]
  }

  /** One tag of `describe-tags`, keyed by `Key`, `Value`, `ResourceId`, ... */
  type Tag = map<string, string>

  /** What `describe-tags` prints for the instance in a region: the `Tags`
      member of its JSON answer, absent (`None`) or a list. */
  type DescribeTags = string -> Option<seq<Tag>>

  /** `instance_tags.get('Tags')[0].get('Value')`: indexing a missing list
      raises `TypeError`, an empty one `IndexError`, and a first tag without
      `Value` gives `None`. */
  function InstanceName(tags: Option<seq<Tag>>): (n: Result<Option<string>, Error>)
    ensures n.Success? <==> tags.Some? && |tags.value| >= 1
    ensures n.Success? ==> n.value == (if "Value" in tags.value[0] then Some(tags.value[0]["Value"]) else None)
    ensures tags.None? ==> n == Failure(TypeError)
    ensures tags == Some([]) ==> n == Failure(IndexError)
  {
    match tags
    case None => Failure(TypeError)
    case Some(ts) =>
      if |ts| == 0 then Failure(IndexError)
      else Success(if "Value" in ts[0] then Some(ts[0]["Value"]) else None)
  }

  /** `create_connector_name`: the tags are those of the zone's region, and
      a missing `Value` is rendered as `None` in the name. */
  function AwsConnectorName(zone: string, describeTags: DescribeTags, now: DateTime): Result<string, Error> {
    var name :- InstanceName(describeTags(Region(zone)));
    Success(ConnectorName(zone, Render(name), CompactTime(now)))
  }

  /** The name exists exactly when the region's first tag exists; it is the
      zone, a dash, the first tag's `Value` (or `None`), a dash and the time,
      and the zone and the time can be read back from it. */
  lemma AwsConnectorNameForm(zone: string, describeTags: DescribeTags, now: DateTime)
    ensures var n := AwsConnectorName(zone, describeTags, now);
      var tags := describeTags(Region(zone));
      && (n.Success? <==> tags.Some? && |tags.value| >= 1)
      && (n.Failure? ==> n.error == (if tags.None? then TypeError else IndexError))
      && (n.Success? ==>
           var value := if "Value" in tags.value[0] then tags.value[0]["Value"] else "None";
           && n.value == zone + "-" + value + "-" + CompactTime(now)
           && n.value[..|zone|] == zone
           && |CompactTime(now)| == 16
           && n.value[|n.value| - |CompactTime(now)|..] == CompactTime(now))
  {
    var tags := describeTags(Region(zone));
    if tags.Some? && |tags.value| >= 1 {
      var name := InstanceName(tags).value;
      ConnectorNameParts(zone, Render(name), CompactTime(now));
      CompactTimeForm(now);
    }
  }

  /** The policy is mounted only when the `Retry` constructor succeeded. */
  ghost predicate RetryMounted(session: Session, acceptsAllowedMethods: bool, installed: Version)
    reads session
  {
    var policy := ConnectorRetry(acceptsAllowedMethods, installed);
    session.retry == (if policy.Success? then Some(policy.value) else None)
  }

  /** The script's main block. The key is the loaded key file, `zone` the
      metadata server's availability zone, `now` the UTC clock. A `TypeError`
      from the retry policy ends the run before anything is sent. */
  method Run(url: string, insecure: bool, acceptsAllowedMethods: bool, installed: Version,
             key: ServiceAccountKey, zone: string, describeTags: DescribeTags, now: DateTime, server: Server)
    returns (session: Session, t: Result<string, Error>)
    ensures fresh(session)
    ensures session.verify == !insecure
    ensures RetryMounted(session, acceptsAllowedMethods, installed)
    ensures Served(server, 0, session.exchanges)
    ensures ConnectorRetry(acceptsAllowedMethods, installed).Failure? ==>
      session.exchanges == [] && t == Failure(TypeError)
    ensures ConnectorRetry(acceptsAllowedMethods, installed).Success? ==>
      TokenLog(None, ApiUrl(url), key, AwsConnectorName(zone, describeTags, now), session.exchanges, t)
  {
    var api := ApiUrl(url);
    session := OpenSession(insecure);
    var policy := ConnectorRetry(acceptsAllowedMethods, installed);
    if policy.Failure? {
      return session, Failure(policy.error);
    }
    session.retry := Some(policy.value);
    ghost var log;
    t, log := SigninAndRequest(session, api, key, AwsConnectorName(zone, describeTags, now), server);
  }
}
