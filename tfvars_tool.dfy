/** `main` of tools/kms_secrets_encryption.py: parse the tfvars file, pick
    the KMS provider from the credentials named in it, refuse to encrypt twice
    or to decrypt what was never encrypted, then encrypt or decrypt. */
module TfvarsTool {
  import opened Wrappers
  import opened Text
  import opened TfvarsParsing
  import opened TfvarsEncryption
  import opened AwsKms

  /** The ways the tool exits early. */
  datatype ToolError =
    | ParseFailed(cause: ParseError)
    | MissingCredentials
    | NotEncrypted
    | AlreadyEncrypted
    | EncryptFailed
    | DecryptFailed

  /** What the tool gets from KMS, the file system and the credentials file,
      which the model takes as given. */
  datatype KmsEnv = KmsEnv(
    gcpKeyPath: string,
    awsCredentialLines: seq<string>,
    awsAliases: seq<Alias>,
    awsCreatedKeyId: string,
    encrypt: string -> string,
    decrypt: string -> string,
    isFile: string -> bool)

  /** The encryptor class chosen from the data: GCP credentials first, then AWS. */
  function SelectProvider(data: map<string, string>): (r: Option<Provider>)
    ensures r.None? <==> !Truthy(data, "gcp_credentials_file") && !Truthy(data, "aws_credentials_file")
    ensures r == Some(Gcp) <==> Truthy(data, "gcp_credentials_file")
  {
    if Truthy(data, "gcp_credentials_file") then Some(Gcp)
    else if Truthy(data, "aws_credentials_file") then Some(Aws)
    else None
  }

  /** The provider that is not `p`. */
  function Other(p: Provider): Provider {
    if p == Gcp then Aws else Gcp
  }

  /** A truthy key id of either provider marks the secrets as encrypted. */
  predicate KeyIdPresent(data: map<string, string>) {
    Truthy(data, KeyIdName(Gcp)) || Truthy(data, KeyIdName(Aws))
  }

  /** The mode guard: decrypt only what is marked encrypted, encrypt only
      what is not. */
  function ModeGuard(decrypt: bool, data: map<string, string>): (r: Outcome<ToolError>)
    ensures r.Pass? <==> (decrypt <==> KeyIdPresent(data))
    ensures r.Fail? ==> r.error == if decrypt then NotEncrypted else AlreadyEncrypted
  {
    if decrypt then
      if !Truthy(data, "kms_cryptokey_id") && !Truthy(data, "customer_master_key_id") then Fail(NotEncrypted) else Pass
    else
      if Truthy(data, "kms_cryptokey_id") || Truthy(data, "customer_master_key_id") then Fail(AlreadyEncrypted) else Pass
  }

  /** For any data, exactly one of the two modes gets past the guard. */
  lemma ExactlyOneModeProceeds(data: map<string, string>)
    ensures ModeGuard(true, data).Pass? != ModeGuard(false, data).Pass?
  {
  }

  /** The checks `main` makes before touching a secret, in order: the file
      parses, credentials are named, and the mode guard passes. */
  function Precheck(lines: seq<string>, decrypt: bool): (r: Result<Provider, ToolError>)
  {
    match ReadTfvars(lines)
    case Failure(e) => Failure(ParseFailed(e))
    case Success(parsed) =>
      match SelectProvider(parsed.0)
      case None => Failure(MissingCredentials)
      case Some(p) =>
        match ModeGuard(decrypt, parsed.0)
        case Fail(e) => Failure(e)
        case Pass => Success(p)
  }

  /** The tool proceeds exactly when the file parses, names credentials and
      is marked encrypted just when decryption was asked for; otherwise it
      exits with the first check that failed. */
  lemma PrecheckSummary(lines: seq<string>, decrypt: bool)
    ensures Precheck(lines, decrypt).Success? <==>
      && ReadTfvars(lines).Success?
      && SelectProvider(ReadTfvars(lines).value.0).Some?
      && (decrypt <==> KeyIdPresent(ReadTfvars(lines).value.0))
    ensures ReadTfvars(lines).Failure? ==> Precheck(lines, decrypt) == Failure(ParseFailed(ReadTfvars(lines).error))
    ensures ReadTfvars(lines).Success? && SelectProvider(ReadTfvars(lines).value.0).None? ==>
      Precheck(lines, decrypt) == Failure(MissingCredentials)
    ensures Precheck(lines, decrypt).Success? ==> Precheck(lines, decrypt).value == SelectProvider(ReadTfvars(lines).value.0).value
  {
  }

  /** The key value an encryptor starts with: the GCP key path, or what
      `initialize_cryptokey("anyware_key")` returns on AWS: the target of the
      alias, and `None` when the key had to be created. */
  function InitialKeyValue(p: Provider, env: KmsEnv): (r: Option<string>)
    ensures p == Gcp ==> r == Some(env.gcpKeyPath)
    ensures p == Aws ==> (r.None? <==> "anyware_key" !in GetCryptoKeys(env.awsAliases))
  {
    match p
    case Gcp => Some(env.gcpKeyPath)
    case Aws => InitializeCryptoKeyAsWritten(env.awsAliases, "anyware_key", env.awsCreatedKeyId)
  }

  /** Encryption without a key id: `kms.encrypt(KeyId=None, ...)` fails the
      AWS SDK's parameter check on the first secret (a parsed file always has
      one), and `encrypt_tfvars_secrets` exits before writing the file. */
  predicate EncryptRefused(p: Provider, keyValue: Option<string>, decrypt: bool) {
    !decrypt && p == Aws && keyValue.None?
  }

  /** Decryption without a key id of the chosen provider:
      `decrypt_tfvars_secrets` takes the key value from `data.get`, so a
      missing or empty `kms_cryptokey_id` (GCP) or `customer_master_key_id`
      (AWS) names no key. The first `decrypt` call is then refused (AWS:
      `KeyId=None` or `""` fails the SDK's parameter check; GCP: the request
      names no key), and the method exits before writing the file. The
      guard lets this through when only the other provider's key id is set. */
  predicate DecryptRefused(p: Provider, data: map<string, string>, decrypt: bool) {
    decrypt && !Truthy(data, KeyIdName(p))
  }

  /** Whether `main` stops after the encryptor is made: the checks of
      `Precheck` pass, but the chosen mode has no key id to work with. */
  predicate StopsWithoutKey(lines: seq<string>, decrypt: bool, env: KmsEnv) {
    Precheck(lines, decrypt).Success?
    && (|| EncryptRefused(Precheck(lines, decrypt).value, InitialKeyValue(Precheck(lines, decrypt).value, env), decrypt)
        || DecryptRefused(Precheck(lines, decrypt).value, ReadTfvars(lines).value.0, decrypt))
  }

  /** The error of a run that stops without a key: the mode that was refused. */
  function StopError(decrypt: bool): ToolError {
    if decrypt then DecryptFailed else EncryptFailed
  }

  /** On a first run against AWS, before any `anyware_key` alias exists,
      `main` never encrypts: the key just created is not the encryptor's. */
  lemma FirstAwsEncryptionFails(lines: seq<string>, env: KmsEnv)
    requires Precheck(lines, false) == Success(Aws)
    requires "anyware_key" !in GetCryptoKeys(env.awsAliases)
    ensures StopsWithoutKey(lines, false, env)
  {
  }

  /** Decrypting stops whenever the chosen provider's own key id is missing
      or empty, even though the other provider's key id let the guard pass:
      AWS credentials with only `kms_cryptokey_id` set, say. */
  lemma DecryptNeedsOwnKeyId(lines: seq<string>, env: KmsEnv)
    requires Precheck(lines, true).Success?
    ensures StopsWithoutKey(lines, true, env) <==> !Truthy(ReadTfvars(lines).value.0, KeyIdName(Precheck(lines, true).value))
    ensures StopsWithoutKey(lines, true, env) ==> Truthy(ReadTfvars(lines).value.0, KeyIdName(Other(Precheck(lines, true).value)))
  {
  }

  /** With the corrected `InitializeCryptoKey`, that first run records the key
      just created: the key-id line written in encrypt mode reads back as
      `customer_master_key_id` naming it, so a later decryption finds it. */
  lemma CorrectedFirstRunRecordsKey(env: KmsEnv, data: map<string, string>)
    requires "anyware_key" !in GetCryptoKeys(env.awsAliases)
    requires !Truthy(data, KeyIdName(Aws)) && '"' !in env.awsCreatedKeyId
    requires !IsMarker(Assignment(KeyIdName(Aws), env.awsCreatedKeyId))
    ensures var keyValue := Some(InitializeCryptoKey(env.awsAliases, "anyware_key", env.awsCreatedKeyId));
      Classify(KeyIdLine(KeyIdName(Aws), keyValue, data)) == Entry(KeyIdName(Aws), env.awsCreatedKeyId)
  {
    InitializeCryptoKeyNamesAliasedKey(env.awsAliases, "anyware_key", env.awsCreatedKeyId);
    KeyIdLineRoundTrip(Aws, Some(env.awsCreatedKeyId), data);
  }

  /** `GCP_Tfvars_Encryptor(parser)` or `AWS_Tfvars_Encryptor(parser)`. The AWS
      one reads its credentials file first; the credentials only configure
      the KMS client. */
  method NewEncryptor(p: Provider, parser: TfvarsParser, env: KmsEnv) returns (e: TfvarsEncryptor)
    requires parser.Valid()
    ensures fresh(e) && e.Valid()
    ensures e.provider == p && e.parser == parser && e.keyValue == InitialKeyValue(p, env)
  {
    if p == Gcp {
      e := new TfvarsEncryptor(Gcp, parser, Some(env.gcpKeyPath));
    } else {
      var credentials := InitializeAwsCredentials(env.awsCredentialLines);
      var keyId := InitializeCryptoKeyAsWritten(env.awsAliases, "anyware_key", env.awsCreatedKeyId);
      e := new TfvarsEncryptor(Aws, parser, keyId);
    }
  }

  /** `main`: the lines of the new tfvars file, or the reason the tool exits. */
  method RunTool(path: string, lines: seq<string>, decrypt: bool, env: KmsEnv) returns (r: Result<seq<string>, ToolError>)
    ensures r.Failure? <==> Precheck(lines, decrypt).Failure? || StopsWithoutKey(lines, decrypt, env)
    ensures r.Failure? ==> r.error == if Precheck(lines, decrypt).Failure? then Precheck(lines, decrypt).error else StopError(decrypt)
    ensures r.Success? ==> |r.value| == |lines|
    ensures r.Success? && !decrypt ==> InitialKeyValue(Precheck(lines, decrypt).value, env).Some?
    ensures r.Success? && !decrypt ==> forall i :: 0 <= i < |lines| && Contains(Strip(lines[i]), KeyIdName(Precheck(lines, decrypt).value) + " =") ==>
      r.value[i] == Assignment(KeyIdName(Precheck(lines, decrypt).value), Render(InitialKeyValue(Precheck(lines, decrypt).value, env)))
    ensures r.Success? && decrypt ==> Truthy(ReadTfvars(lines).value.0, KeyIdName(Precheck(lines, decrypt).value))
    ensures r.Success? && decrypt ==> forall i :: 0 <= i < |lines| && Contains(Strip(lines[i]), KeyIdName(Precheck(lines, decrypt).value) + " =") ==>
      r.value[i] == "# " + Assignment(KeyIdName(Precheck(lines, decrypt).value),
        ReadTfvars(lines).value.0[KeyIdName(Precheck(lines, decrypt).value)])
  {
    var parsed := OpenTfvars(path, lines);
    if parsed.Failure? {
      return Failure(ParseFailed(parsed.error));
    }
    var parser := parsed.value;
    var provider := SelectProvider(parser.data);
    if provider.None? {
      return Failure(MissingCredentials);
    }
    var encryptor := NewEncryptor(provider.value, parser, env);
    var guard := ModeGuard(decrypt, parser.data);
    if guard.Fail? {
      return Failure(guard.error);
    }
    assert Precheck(lines, decrypt) == Success(provider.value);
    if EncryptRefused(encryptor.provider, encryptor.keyValue, decrypt) {
      return Failure(EncryptFailed);
    }
    if DecryptRefused(encryptor.provider, parser.data, decrypt) {
      return Failure(DecryptFailed);
    }
    ghost var keyId := KeyIdName(provider.value);
    ghost var keyValue := encryptor.keyValue;
    var out := RunMode(encryptor, decrypt, env);
    if !decrypt {
      assert encryptor.keyValue == keyValue;
      assert !Truthy(parser.data, keyId);
      assert KeyIdLine(keyId, keyValue, parser.data) == Assignment(keyId, Render(keyValue));
    } else {
      assert Truthy(parser.data, keyId);
      assert encryptor.keyValue == Some(parser.data[keyId]);
      assert KeyIdLine(keyId, encryptor.keyValue, parser.data) == "# " + Assignment(keyId, parser.data[keyId]);
    }
    return Success(out);
  }

  /** The last step of `main`: decrypt or encrypt the secrets and write the
      file again. Every line mentioning the key id becomes its assignment. */
  method RunMode(encryptor: TfvarsEncryptor, decrypt: bool, env: KmsEnv) returns (out: seq<string>)
    requires encryptor.Valid()
    modifies encryptor`keyValue, encryptor.parser`secrets
    ensures |out| == |encryptor.parser.lines|
    ensures decrypt ==> encryptor.keyValue == Get(encryptor.parser.data, KeyIdName(encryptor.provider))
    ensures !decrypt ==> encryptor.keyValue == old(encryptor.keyValue)
    ensures forall i :: 0 <= i < |out| && Contains(Strip(encryptor.parser.lines[i]), KeyIdName(encryptor.provider) + " =") ==>
      out[i] == KeyIdLine(KeyIdName(encryptor.provider), encryptor.keyValue, encryptor.parser.data)
  {
    var parser := encryptor.parser;
    if decrypt {
      out := encryptor.DecryptTfvarsSecrets(env.decrypt, env.isFile);
    } else {
      out := encryptor.EncryptTfvarsSecrets(env.encrypt, env.isFile);
    }
    KeyIdLinesRewritten(parser.lines, out, KeyIdName(encryptor.provider), encryptor.keyValue, parser.data, parser.secrets, parser.maxKeyLength);
  }
}
