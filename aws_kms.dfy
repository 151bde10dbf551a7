/** The AWS-specific parts of the tfvars secrets tool (`AWS_Tfvars_Encryptor`
    in tools/kms_secrets_encryption.py): reading the access keys from an AWS
    credentials file and finding the KMS key behind the `anyware_key` alias. */
module AwsKms {
  import opened Wrappers
  import opened Text

  /** The dictionary `initialize_aws_credentials` returns; a key that no line
      sets stays `None`. */
  datatype AwsCredentials = AwsCredentials(accessKeyId: Option<string>, secretAccessKey: Option<string>)

  /** What one line of the credentials file sets. The secret-key test comes
      first, so a line naming both keys sets the secret key only. */
  datatype CredentialLine = Ignored | SecretKey(value: string) | AccessKeyId(value: string)

  /** `line.rpartition("=")[2].strip()`: the text after the last `=`, stripped. */
  function ValueAfterEquals(s: string): (r: string)
    ensures '=' !in r && IsStripped(r)
  {
    var t := AfterLast(s, '=');
    StripChars(t);
    Strip(t)
  }

  function ClassifyCredential(line: string): CredentialLine {
    var s := Strip(line);
    if IsBlankOrComment(s) then Ignored
    else if Contains(s, "aws_secret_access_key") then SecretKey(ValueAfterEquals(s))
    else if Contains(s, "aws_access_key_id") then AccessKeyId(ValueAfterEquals(s))
    else Ignored
  }

  function CredentialKinds(lines: seq<string>): (ks: seq<CredentialLine>)
    ensures |ks| == |lines|
  {
    if lines == [] then [] else CredentialKinds(lines[..|lines| - 1]) + [ClassifyCredential(lines[|lines| - 1])]
  }

  lemma {:induction false} CredentialKindsAt(lines: seq<string>, i: nat)
    requires i < |lines|
    ensures CredentialKinds(lines)[i] == ClassifyCredential(lines[i])
  {
    if i < |lines| - 1 {
      CredentialKindsAt(lines[..|lines| - 1], i);
    }
  }

  /** The scan over the credentials file, one line kind at a time: each line
      that names a key overwrites the value read so far. */
  function Scan(ks: seq<CredentialLine>): AwsCredentials {
    if ks == [] then AwsCredentials(None, None)
    else
      var c := Scan(ks[..|ks| - 1]);
      match ks[|ks| - 1]
      case Ignored => c
      case SecretKey(v) => c.(secretAccessKey := Some(v))
      case AccessKeyId(v) => c.(accessKeyId := Some(v))
  }

  /** `initialize_aws_credentials` on the lines of the file. */
  method InitializeAwsCredentials(lines: seq<string>) returns (c: AwsCredentials)
    ensures c == Scan(CredentialKinds(lines))
  {
    var awsAccessKeyId: Option<string> := None;
    var awsSecretAccessKey: Option<string> := None;
    ghost var ks := CredentialKinds(lines);
    var i := 0;
    while i < |lines|
      invariant 0 <= i <= |lines|
      invariant Scan(ks[..i]) == AwsCredentials(awsAccessKeyId, awsSecretAccessKey)
    {
      assert ks[..i + 1][..i] == ks[..i];
      CredentialKindsAt(lines, i);
      var line := Strip(lines[i]);
      if line == [] || line[0] == '#' {
      } else if Contains(line, "aws_secret_access_key") {
        awsSecretAccessKey := Some(ValueAfterEquals(line));
      } else if Contains(line, "aws_access_key_id") {
        awsAccessKeyId := Some(ValueAfterEquals(line));
      }
      i := i + 1;
    }
    assert ks[..i] == ks;
    c := AwsCredentials(awsAccessKeyId, awsSecretAccessKey);
  }

  /** The secret key takes its value from the last line that names it, and
      stays `None` when no line does. */
  lemma {:induction false} LastSecretKeyWins(ks: seq<CredentialLine>)
    ensures Scan(ks).secretAccessKey.None? <==> forall i :: 0 <= i < |ks| ==> !ks[i].SecretKey?
    ensures forall j :: 0 <= j < |ks| && ks[j].SecretKey? && (forall i :: j < i < |ks| ==> !ks[i].SecretKey?) ==>
      Scan(ks).secretAccessKey == Some(ks[j].value)
  {
    if ks != [] {
      var init := ks[..|ks| - 1];
      LastSecretKeyWins(init);
      assert forall i :: 0 <= i < |init| ==> init[i] == ks[i];
    }
  }

  /** The access key id takes its value from the last line that names it (and
      not the secret key), and stays `None` when no line does. */
  lemma {:induction false} LastAccessKeyIdWins(ks: seq<CredentialLine>)
    ensures Scan(ks).accessKeyId.None? <==> forall i :: 0 <= i < |ks| ==> !ks[i].AccessKeyId?
    ensures forall j :: 0 <= j < |ks| && ks[j].AccessKeyId? && (forall i :: j < i < |ks| ==> !ks[i].AccessKeyId?) ==>
      Scan(ks).accessKeyId == Some(ks[j].value)
  {
    if ks != [] {
      var init := ks[..|ks| - 1];
      LastAccessKeyIdWins(init);
      assert forall i :: 0 <= i < |init| ==> init[i] == ks[i];
    }
  }

  /** A line naming the secret key sets it even when it also names the access
      key id. */
  lemma SecretKeyTestFirst(line: string)
    requires !IsBlankOrComment(Strip(line))
    requires Contains(Strip(line), "aws_secret_access_key") && Contains(Strip(line), "aws_access_key_id")
    ensures ClassifyCredential(line) == SecretKey(ValueAfterEquals(Strip(line)))
  {
  }

  /** An entry of `list_aliases()["Aliases"]`. */
  datatype Alias = Alias(aliasName: string, targetKeyId: string)

  /** `get_crypto_keys`: each alias name with its `alias/` prefix (anything up
      to the last `/`) removed, in the order listed. */
  function GetCryptoKeys(aliases: seq<Alias>): (names: seq<string>)
    ensures |names| == |aliases|
    ensures forall i :: 0 <= i < |aliases| ==> names[i] == AfterLast(aliases[i].aliasName, '/') && '/' !in names[i]
  {
    seq(|aliases|, i requires 0 <= i < |aliases| => AfterLast(aliases[i].aliasName, '/'))
  }

  /** The aliases whose trimmed name equals `name`, in order: the `filter` in
      `initialize_cryptokey`. It is empty exactly when `name` is not among the
      crypto key names, so taking its first element then cannot fail. */
  function Matching(aliases: seq<Alias>, name: string): (r: seq<Alias>)
    ensures forall a :: a in r <==> a in aliases && AfterLast(a.aliasName, '/') == name
  {
    if aliases == [] then []
    else
      var rest := Matching(aliases[1..], name);
      assert forall a :: a in aliases <==> a == aliases[0] || a in aliases[1..];
      if AfterLast(aliases[0].aliasName, '/') == name then [aliases[0]] + rest else rest
  }

  /** Nothing matches exactly when `name` is not among the crypto key names, so
      taking the first match after the membership test cannot fail. */
  lemma MatchingEmpty(aliases: seq<Alias>, name: string)
    ensures Matching(aliases, name) == [] <==> name !in GetCryptoKeys(aliases)
  {
    var names := GetCryptoKeys(aliases);
    var r := Matching(aliases, name);
    if r != [] {
      assert r[0] in r;
      var i :| 0 <= i < |aliases| && aliases[i] == r[0];
      assert names[i] == name;
    }
    if name in names {
      var i :| 0 <= i < |names| && names[i] == name;
      assert aliases[i] in aliases;
      assert aliases[i] in r;
    }
  }

  /** `initialize_cryptokey` as written: when the alias does not exist the key
      is created, but the id `create_crypto_key` returns is dropped, so the
      result is `None`. */
  function InitializeCryptoKeyAsWritten(aliases: seq<Alias>, name: string, createdKeyId: string): (r: Option<string>)
    ensures r.Some? <==> name in GetCryptoKeys(aliases)
  {
    if name !in GetCryptoKeys(aliases) then None
    else
      MatchingEmpty(aliases, name);
      Some(Matching(aliases, name)[0].targetKeyId)
  }

  /** The discrepancy: on a first run, with no `anyware_key` alias yet, the
      encryptor's key id is `None` rather than the key just created. */
  lemma FreshKeyIsLost(createdKeyId: string)
    ensures InitializeCryptoKeyAsWritten([Alias("alias/aws/s3", "k1")], "anyware_key", createdKeyId) == None
  {
    assert GetCryptoKeys([Alias("alias/aws/s3", "k1")]) == ["s3"];
  }

  /** `initialize_cryptokey` as intended: the id of the key just created, or the
      target of the first alias with that name. */
  function InitializeCryptoKey(aliases: seq<Alias>, name: string, createdKeyId: string): (r: string)
  {
    if name !in GetCryptoKeys(aliases) then createdKeyId
    else
      MatchingEmpty(aliases, name);
      Matching(aliases, name)[0].targetKeyId
  }

  /** The key id chosen always names a key carrying the alias: the one just
      created and aliased when none existed, where the code as written has
      none, otherwise the target of a listed alias whose trimmed name is
      `name`. It agrees with the code as written whenever the alias already
      exists. */
  lemma InitializeCryptoKeyNamesAliasedKey(aliases: seq<Alias>, name: string, createdKeyId: string)
    ensures name !in GetCryptoKeys(aliases) ==>
      InitializeCryptoKeyAsWritten(aliases, name, createdKeyId) == None
      && InitializeCryptoKey(aliases, name, createdKeyId) == createdKeyId
    ensures name in GetCryptoKeys(aliases) ==>
      exists a :: a in aliases && AfterLast(a.aliasName, '/') == name &&
        InitializeCryptoKey(aliases, name, createdKeyId) == a.targetKeyId
    ensures name in GetCryptoKeys(aliases) ==>
      InitializeCryptoKeyAsWritten(aliases, name, createdKeyId) == Some(InitializeCryptoKey(aliases, name, createdKeyId))
  {
    if name in GetCryptoKeys(aliases) {
      MatchingEmpty(aliases, name);
      var a := Matching(aliases, name)[0];
      assert a in Matching(aliases, name);
    }
  }
}
