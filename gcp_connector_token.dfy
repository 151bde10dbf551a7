/** The GCP connector-token script: as the AWS one, except that the name is
    made of the last path segment of the metadata server's `zone` and the
    instance's `name`, both inputs. */
module GcpConnectorToken {
  import opened Wrappers
  import opened Text
  import opened Http
  import opened ConnectorToken

  /** `create_connector_name`: `zone` is what follows the last `/` of
      `projects/<number>/zones/<zone>`. */
  function GcpConnectorName(zoneText: string, nameText: string, now: DateTime): string {
    ConnectorName(AfterLast(zoneText, '/'), nameText, CompactTime(now))
  }

  /** The name starts with the last segment of the zone text, which holds no
      `/`; the instance name and the time follow it as in any connector name. */
  lemma GcpConnectorNameForm(zoneText: string, nameText: string, now: DateTime)
    ensures var zone := AfterLast(zoneText, '/');
      var n := GcpConnectorName(zoneText, nameText, now);
      && '/' !in zone
      && n == zone + "-" + nameText + "-" + CompactTime(now)
      && |n| == |zone| + |nameText| + 18
      && n[..|zone|] == zone
  {
    ConnectorNameParts(AfterLast(zoneText, '/'), nameText, CompactTime(now));
    CompactTimeForm(now);
  }

  /** A zone text `projects/<p>/zones/<z>` with `z` free of `/` gives `z`. */
  lemma {:induction false} ZoneOfPath(prefix: string, zone: string)
    requires '/' !in zone
    ensures AfterLast(prefix + "/" + zone, '/') == zone
  {
    var s := prefix + "/" + zone;
    if zone == [] {
      assert s[|s| - 1] == '/';
    } else {
      var z := zone[..|zone| - 1];
      assert s[..|s| - 1] == prefix + "/" + z;
      assert '/' !in z by {
        assert forall x :: x in z ==> x in zone;
      }
      ZoneOfPath(prefix, z);
      assert z + [zone[|zone| - 1]] == zone;
    }
  }

  /** The script's main block; the retry policy is the AWS script's. */
  method Run(url: string, insecure: bool, acceptsAllowedMethods: bool, installed: Version,
             key: ServiceAccountKey, zoneText: string, nameText: string, now: DateTime, server: Server)
    returns (session: Session, t: Result<string, Error>)
    ensures fresh(session)
    ensures session.verify == !insecure
    ensures var policy := ConnectorRetry(acceptsAllowedMethods, installed);
      session.retry == (if policy.Success? then Some(policy.value) else None)
    ensures Served(server, 0, session.exchanges)
    ensures ConnectorRetry(acceptsAllowedMethods, installed).Failure? ==>
      session.exchanges == [] && t == Failure(TypeError)
    ensures ConnectorRetry(acceptsAllowedMethods, installed).Success? ==>
      TokenLog(None, ApiUrl(url), key, Success(GcpConnectorName(zoneText, nameText, now)), session.exchanges, t)
  {
    var api := ApiUrl(url);
    session := OpenSession(insecure);
    var policy := ConnectorRetry(acceptsAllowedMethods, installed);
    if policy.Failure? {
      return session, Failure(policy.error);
    }
    session.retry := Some(policy.value);
    ghost var log;
    t, log := SigninAndRequest(session, api, key, Success(GcpConnectorName(zoneText, nameText, now)), server);
  }
}
