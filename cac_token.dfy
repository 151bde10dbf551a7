/** The Cloud Access Connector token script for AWS: the AWS connector
    name, the same sign-in and token request, and a session without a retry
    policy. */
module CacToken {
  import opened Wrappers
  import opened Http
  import opened ConnectorToken
  import opened AwsConnectorToken

  /** The script's main block: no retry policy is mounted, so nothing but
      the key, the answers and the name decides the outcome. */
  method Run(url: string, insecure: bool, key: ServiceAccountKey, zone: string, describeTags: DescribeTags,
             now: DateTime, server: Server)
    returns (session: Session, t: Result<string, Error>)
    ensures fresh(session)
    ensures session.verify == !insecure && session.retry == None
    ensures Served(server, 0, session.exchanges)
    ensures TokenLog(None, ApiUrl(url), key, AwsConnectorName(zone, describeTags, now), session.exchanges, t)
  {
    session := OpenSession(insecure);
    ghost var log;
    t, log := SigninAndRequest(session, ApiUrl(url), key, AwsConnectorName(zone, describeTags, now), server);
  }
}
