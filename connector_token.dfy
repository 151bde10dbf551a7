/** What the three token scripts (the AWS connector, the GCP connector and the
    AWS Cloud Access Connector) share word for word: the compact UTC time
    stamp and the `zone-name-time` connector name, signing in with the
    deployment service-account key, and requesting a connector token for the
    key's deployment with the header the sign-in stored. */
module ConnectorToken {
  import opened Wrappers
  import opened Text
  import opened Http

  // ---------------------------------------------------------------------------
  // Time stamp

  /** What `datetime.datetime.utcnow()` returns, to the second. */
  datatype DateTime = DateTime(year: nat, month: nat, day: nat, hour: nat, minute: nat, second: nat)

  /** The ranges `datetime` keeps its fields in. */
  predicate ValidDateTime(t: DateTime) {
    && 1 <= t.year <= 9999 && 1 <= t.month <= 12 && 1 <= t.day <= 31
    && t.hour < 24 && t.minute < 60 && t.second < 60
  }

  function Pow10(n: nat): (p: nat)
    ensures p >= 1
  {
    if n == 0 then 1 else 10 * Pow10(n - 1)
  }

  function DigitChar(d: nat): (c: char)
    requires d < 10
    ensures IsDigit(c)
  {
    ('0' as int + d) as char
  }

  /** `%0<width>d` for a number that has at most `width` digits. */
  function ZeroPadded(n: nat, width: nat): (r: string)
    ensures |r| == width && AllDigits(r)
  {
    if width == 0 then [] else ZeroPadded(n / 10, width - 1) + [DigitChar(n % 10)]
  }

  /** Two numbers below `10^width` have the same padded digits only if they
      are equal. */
  lemma {:induction false} ZeroPaddedInjective(a: nat, b: nat, width: nat)
    requires a < Pow10(width) && b < Pow10(width)
    requires ZeroPadded(a, width) == ZeroPadded(b, width)
    ensures a == b
  {
    if width > 0 {
      var ra, rb := ZeroPadded(a, width), ZeroPadded(b, width);
      assert ra[width - 1] == rb[width - 1];
      assert a % 10 == b % 10;
      assert ra[..width - 1] == ZeroPadded(a / 10, width - 1);
      assert rb[..width - 1] == ZeroPadded(b / 10, width - 1);
      ZeroPaddedInjective(a / 10, b / 10, width - 1);
    }
  }

  /** `isoformat(timespec='seconds')`: `YYYY-MM-DDTHH:MM:SS`. */
  function IsoFormat(t: DateTime): string {
    ZeroPadded(t.year, 4) + "-" + ZeroPadded(t.month, 2) + "-" + ZeroPadded(t.day, 2) + "T" +
    ZeroPadded(t.hour, 2) + ":" + ZeroPadded(t.minute, 2) + ":" + ZeroPadded(t.second, 2)
  }

  /** `.replace(':', '').replace('-', '')` */
  function DropSeparators(s: string): string {
    RemoveChar(RemoveChar(s, ':'), '-')
  }

  /** `.replace(':', '').replace('-', '') + 'Z'` on the ISO time. */
  function CompactTime(t: DateTime): string {
    DropSeparators(IsoFormat(t)) + "Z"
  }

  lemma DropSeparatorsAppend(a: string, b: string)
    ensures DropSeparators(a + b) == DropSeparators(a) + DropSeparators(b)
  {
    RemoveCharAppend(a, b, ':');
    RemoveCharAppend(RemoveChar(a, ':'), RemoveChar(b, ':'), '-');
  }

  /** Dropping the separators from a run of digits leaves it as it is. */
  lemma DigitsKept(s: string)
    requires AllDigits(s)
    ensures DropSeparators(s) == s
  {
    assert ':' !in s && '-' !in s;
  }

  /** Appending a separator, then a run of digits, adds only the digits. */
  lemma DropAfterSeparator(p: string, sep: char, s: string)
    requires sep == ':' || sep == '-'
    requires AllDigits(s)
    ensures DropSeparators(p + [sep] + s) == DropSeparators(p) + s
  {
    DropSeparatorsAppend(p + [sep], s);
    DropSeparatorsAppend(p, [sep]);
    DigitsKept(s);
    assert RemoveChar([sep], sep) == [];
  }

  predicate AllDigits(s: string) {
    forall i :: 0 <= i < |s| ==> IsDigit(s[i])
  }

  /** `a-b-c` (or `a:b:c`) without separators is `abc`. */
  lemma DropThree(a: string, b: string, c: string, sep: char)
    requires sep == ':' || sep == '-'
    requires AllDigits(a) && AllDigits(b) && AllDigits(c)
    ensures DropSeparators(a + [sep] + b + [sep] + c) == a + b + c
  {
    DigitsKept(a);
    DropAfterSeparator(a, sep, b);
    DropAfterSeparator(a + [sep] + b, sep, c);
  }

  /** Where the digits and letters of a stamp `date + "T" + time + "Z"` are. */
  lemma StampPositions(date: string, time: string)
    requires |date| == 8 && |time| == 6 && AllDigits(date) && AllDigits(time)
    ensures var r := date + "T" + time + "Z";
      && |r| == 16 && r[8] == 'T' && r[15] == 'Z'
      && forall i :: 0 <= i < 16 && i != 8 && i != 15 ==> IsDigit(r[i])
  {
    var r := date + "T" + time + "Z";
    forall i | 0 <= i < 16 && i != 8 && i != 15 ensures IsDigit(r[i]) {
      if i < 8 { assert r[i] == date[i]; } else { assert r[i] == time[i - 9]; }
    }
  }

  /** A stamp built from digit runs, with its separators dropped. */
  lemma StampOf(y: string, mo: string, d: string, h: string, mi: string, s: string)
    requires AllDigits(y) && AllDigits(mo) && AllDigits(d) && AllDigits(h) && AllDigits(mi) && AllDigits(s)
    ensures DropSeparators(y + "-" + mo + "-" + d + "T" + h + ":" + mi + ":" + s) == (y + mo + d) + "T" + (h + mi + s)
  {
    var date := y + "-" + mo + "-" + d;
    var time := h + ":" + mi + ":" + s;
    assert y + "-" + mo + "-" + d + "T" + h + ":" + mi + ":" + s == date + "T" + time;
    DropThree(y, mo, d, '-');
    DropThree(h, mi, s, ':');
    DropSeparatorsAppend(date + "T", time);
    DropSeparatorsAppend(date, "T");
    assert DropSeparators("T") == "T";
  }

  lemma DigitsJoin(a: string, b: string)
    requires AllDigits(a) && AllDigits(b)
    ensures AllDigits(a + b)
  {
    forall i | 0 <= i < |a + b| ensures IsDigit((a + b)[i]) {
      if i < |a| { assert (a + b)[i] == a[i]; } else { assert (a + b)[i] == b[i - |a|]; }
    }
  }

  /** The compact time is `YYYYMMDDTHHMMSSZ`: the eight digits of the date,
      `T`, the six digits of the time and `Z`. */
  lemma CompactTimeForm(t: DateTime)
    ensures CompactTime(t) ==
      ZeroPadded(t.year, 4) + ZeroPadded(t.month, 2) + ZeroPadded(t.day, 2) + "T" +
      ZeroPadded(t.hour, 2) + ZeroPadded(t.minute, 2) + ZeroPadded(t.second, 2) + "Z"
    ensures |CompactTime(t)| == 16
    ensures forall i :: 0 <= i < 16 && i != 8 && i != 15 ==> IsDigit(CompactTime(t)[i])
    ensures CompactTime(t)[8] == 'T' && CompactTime(t)[15] == 'Z'
  {
    var y, mo, d := ZeroPadded(t.year, 4), ZeroPadded(t.month, 2), ZeroPadded(t.day, 2);
    var h, mi, s := ZeroPadded(t.hour, 2), ZeroPadded(t.minute, 2), ZeroPadded(t.second, 2);
    assert IsoFormat(t) == y + "-" + mo + "-" + d + "T" + h + ":" + mi + ":" + s;
    CompactStamp(y, mo, d, h, mi, s);
  }

  /** The compact stamp of fixed-width digit runs, and where its digits are. */
  lemma CompactStamp(y: string, mo: string, d: string, h: string, mi: string, s: string)
    requires |y| == 4 && |mo| == 2 && |d| == 2 && |h| == 2 && |mi| == 2 && |s| == 2
    requires AllDigits(y) && AllDigits(mo) && AllDigits(d) && AllDigits(h) && AllDigits(mi) && AllDigits(s)
    ensures var r := DropSeparators(y + "-" + mo + "-" + d + "T" + h + ":" + mi + ":" + s) + "Z";
      && r == y + mo + d + "T" + h + mi + s + "Z"
      && |r| == 16 && r[8] == 'T' && r[15] == 'Z'
      && forall i :: 0 <= i < 16 && i != 8 && i != 15 ==> IsDigit(r[i])
  {
    StampOf(y, mo, d, h, mi, s);
    DigitsJoin(y, mo);
    DigitsJoin(y + mo, d);
    DigitsJoin(h, mi);
    DigitsJoin(h + mi, s);
    StampPositions(y + mo + d, h + mi + s);
    assert (y + mo + d) + "T" + (h + mi + s) + "Z" == y + mo + d + "T" + h + mi + s + "Z";
  }

  /** Different seconds give different time stamps, so one instance never
      names two connectors alike a second apart. */
  lemma CompactTimeInjective(t1: DateTime, t2: DateTime)
    requires ValidDateTime(t1) && ValidDateTime(t2)
    requires CompactTime(t1) == CompactTime(t2)
    ensures t1 == t2
  {
    CompactTimeForm(t1);
    CompactTimeForm(t2);
    StampParts(ZeroPadded(t1.year, 4), ZeroPadded(t1.month, 2), ZeroPadded(t1.day, 2),
               ZeroPadded(t1.hour, 2), ZeroPadded(t1.minute, 2), ZeroPadded(t1.second, 2),
               ZeroPadded(t2.year, 4), ZeroPadded(t2.month, 2), ZeroPadded(t2.day, 2),
               ZeroPadded(t2.hour, 2), ZeroPadded(t2.minute, 2), ZeroPadded(t2.second, 2));
    assert Pow10(4) == 10000 && Pow10(2) == 100;
    ZeroPaddedInjective(t1.year, t2.year, 4);
    ZeroPaddedInjective(t1.month, t2.month, 2);
    ZeroPaddedInjective(t1.day, t2.day, 2);
    ZeroPaddedInjective(t1.hour, t2.hour, 2);
    ZeroPaddedInjective(t1.minute, t2.minute, 2);
    ZeroPaddedInjective(t1.second, t2.second, 2);
  }

  /** Two stamps of fixed-width parts are equal only part by part. */
  lemma StampParts(y1: string, mo1: string, d1: string, h1: string, mi1: string, s1: string,
                   y2: string, mo2: string, d2: string, h2: string, mi2: string, s2: string)
    requires |y1| == |y2| == 4
    requires |mo1| == |mo2| == |d1| == |d2| == |h1| == |h2| == |mi1| == |mi2| == |s1| == |s2| == 2
    requires y1 + mo1 + d1 + "T" + h1 + mi1 + s1 + "Z" == y2 + mo2 + d2 + "T" + h2 + mi2 + s2 + "Z"
    ensures y1 == y2 && mo1 == mo2 && d1 == d2 && h1 == h2 && mi1 == mi2 && s1 == s2
  {
    var c1 := y1 + mo1 + d1 + "T" + h1 + mi1 + s1 + "Z";
    var c2 := y2 + mo2 + d2 + "T" + h2 + mi2 + s2 + "Z";
    assert c1[..4] == y1 && c2[..4] == y2;
    assert c1[4..6] == mo1 && c2[4..6] == mo2;
    assert c1[6..8] == d1 && c2[6..8] == d2;
    assert c1[9..11] == h1 && c2[9..11] == h2;
    assert c1[11..13] == mi1 && c2[11..13] == mi2;
    assert c1[13..15] == s1 && c2[13..15] == s2;
  }

  // ---------------------------------------------------------------------------
  // Connector name

  /** `f"{zone}-{name}-{iso_time}"` */
  function ConnectorName(zone: string, name: string, time: string): string {
    zone + "-" + name + "-" + time
  }

  /** The name starts with the zone and a dash and ends with a dash and the
      time stamp, so both can be read back whatever the instance name holds;
      the stamp is 16 characters long (`CompactTimeForm`). */
  lemma ConnectorNameParts(zone: string, name: string, time: string)
    ensures var n := ConnectorName(zone, name, time);
      && |n| == |zone| + |name| + |time| + 2
      && n[..|zone|] == zone && n[|zone|] == '-'
      && n[|n| - |time|..] == time && n[|n| - |time| - 1] == '-'
      && n[|zone| + 1..|n| - |time| - 1] == name
  {
    var n := ConnectorName(zone, name, time);
    var m := |zone| + 1 + |name|;
    assert n[m + 1..] == time;
    assert n[|zone| + 1..m] == name;
  }

  // ---------------------------------------------------------------------------
  // Signing in and requesting the token

  /** The deployment service-account key file, as loaded from JSON. */
  type ServiceAccountKey = map<string, string>

  /** The sign-in payload; the key's name is printed first, so a key without
      `keyName` raises before anything is sent. */
  function SigninBody(key: ServiceAccountKey): (b: Result<map<string, Value>, Error>)
    ensures b.Success? <==> "keyName" in key && "username" in key && "apiKey" in key
    ensures b.Success? ==> b.value == map["username" := Str(key["username"]), "password" := Str(key["apiKey"])]
    ensures b.Failure? ==> b.error.KeyError?
  {
    var _ :- Lookup(key, "keyName");
    var username :- Lookup(key, "username");
    var apiKey :- Lookup(key, "apiKey");
    Success(map["username" := Str(username), "password" := Str(apiKey)])
  }

  function TokenBody(deploymentId: string, connectorName: string): map<string, Value> {
    map["deploymentId" := Str(deploymentId), "connectorName" := Str(connectorName)]
  }

  function SigninUrl(api: string): string { api + "/auth/signin" }

  function TokenUrl(api: string): string { api + "/auth/tokens/connector" }

  /** `awm_login(key)`: the request carries the header the session already
      has; the header becomes the returned token only when the response does
      not raise and holds one. */
  method Signin(session: Session, api: string, key: ServiceAccountKey, server: Server) returns (o: Outcome<Error>)
    modifies session`exchanges, session`authorization
    ensures SigninBody(key).Failure? ==>
      && session.exchanges == old(session.exchanges) && session.authorization == old(session.authorization)
      && o == Fail(SigninBody(key).error)
    ensures SigninBody(key).Success? ==>
      var req := Request(Post, SigninUrl(api), old(session.authorization), SigninBody(key).value);
      var resp := server(|old(session.exchanges)|, req);
      && session.exchanges == old(session.exchanges) + [Exchange(req, resp)]
      && (o.Pass? <==> TokenOf(resp).Success?)
      && (o.Fail? ==> o.error == TokenOf(resp).error)
      && session.authorization == (if o.Pass? then Some(TokenOf(resp).value) else old(session.authorization))
  {
    var body := SigninBody(key);
    if body.Failure? {
      return Fail(body.error);
    }
    var resp := session.Send(Post, SigninUrl(api), body.value, server);
    var token := TokenOf(resp);
    if token.Failure? {
      return Fail(token.error);
    }
    session.SetAuthorization(token.value);
    o := Pass;
  }

  /** `get_connector_token` / `get_awc_token` / `get_cac_token`: the
      deployment id is printed first, so a key without one raises before
      anything is sent. */
  method RequestToken(session: Session, api: string, key: ServiceAccountKey, connectorName: string, server: Server)
    returns (t: Result<string, Error>)
    modifies session`exchanges
    ensures "deploymentId" !in key ==>
      session.exchanges == old(session.exchanges) && t == Failure(KeyError("deploymentId"))
    ensures "deploymentId" in key ==>
      var req := Request(Post, TokenUrl(api), session.authorization, TokenBody(key["deploymentId"], connectorName));
      var resp := server(|old(session.exchanges)|, req);
      && session.exchanges == old(session.exchanges) + [Exchange(req, resp)]
      && t == TokenOf(resp)
  {
    var id := Lookup(key, "deploymentId");
    if id.Failure? {
      return Failure(id.error);
    }
    var resp := session.Send(Post, TokenUrl(api), TokenBody(id.value, connectorName), server);
    t := TokenOf(resp);
  }

  /** The requests of a token script after its session is set up: a sign-in
      with the key, and only when it yielded a token and the connector name
      could be made, a token request for the key's deployment and that name,
      carrying the sign-in's token. The script's result is the token in the
      `data` of the second answer. */
  ghost predicate TokenLog(auth: Option<string>, api: string, key: ServiceAccountKey, name: Result<string, Error>,
                           log: seq<Exchange>, t: Result<string, Error>) {
    && |log| <= 2
    && (|log| >= 1 <==> SigninBody(key).Success?)
    && (|log| == 0 ==> t == Failure(SigninBody(key).error))
    && (|log| >= 1 ==> log[0].request == Request(Post, SigninUrl(api), auth, SigninBody(key).value))
    && (|log| == 2 <==>
         |log| >= 1 && TokenOf(log[0].response).Success? && name.Success? && "deploymentId" in key)
    && (|log| == 1 ==>
         t == Failure(if TokenOf(log[0].response).Failure? then TokenOf(log[0].response).error
                      else if name.Failure? then name.error
                      else KeyError("deploymentId")))
    && (|log| == 2 ==>
         && log[1].request == Request(Post, TokenUrl(api), Some(TokenOf(log[0].response).value),
                                      TokenBody(key["deploymentId"], name.value))
         && t == TokenOf(log[1].response))
  }

  /** Sign in, make the connector name, request the token. `name` is the
      outcome of `create_connector_name`, which only reads the instance's
      metadata and the clock, so it is computed after the sign-in as in the
      scripts and can fail only by its own error. */
  method SigninAndRequest(session: Session, api: string, key: ServiceAccountKey, name: Result<string, Error>, server: Server)
    returns (t: Result<string, Error>, ghost log: seq<Exchange>)
    modifies session`exchanges, session`authorization
    ensures session.exchanges == old(session.exchanges) + log
    ensures Served(server, |old(session.exchanges)|, log)
    ensures TokenLog(old(session.authorization), api, key, name, log, t)
  {
    ghost var before := session.exchanges;
    log := [];
    var o := Signin(session, api, key, server);
    if SigninBody(key).Failure? {
      return Failure(o.error), log;
    }
    log := [session.exchanges[|before|]];
    if o.Fail? {
      return Failure(o.error), log;
    }
    if name.Failure? {
      return Failure(name.error), log;
    }
    t := RequestToken(session, api, key, name.value, server);
    if "deploymentId" in key {
      log := log + [session.exchanges[|before| + 1]];
    }
  }

  /** A session as the token scripts open it: certificates are verified
      unless `--insecure` was given. */
  method OpenSession(insecure: bool) returns (session: Session)
    ensures fresh(session)
    ensures session.verify == !insecure
    ensures session.authorization == None && session.retry == None && session.exchanges == []
  {
    session := new Session();
    if insecure {
      session.verify := false;
    }
  }

  /** `awm_api_url = f"{args.url}/api/v1"` */
  function ApiUrl(url: string): string { url + "/api/v1" }
}
