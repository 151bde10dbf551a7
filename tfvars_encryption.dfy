/** The writing half of the tfvars secrets tool: `Tfvars_Encryptor` in
    tools/kms_secrets_encryption.py. Secrets are replaced by their encrypted or
    decrypted form, files named by a secret get a new name, and the tfvars
    file is written again line by line. KMS itself is a pair of functions. */
module TfvarsEncryption {
  import opened Wrappers
  import opened Text
  import opened TfvarsParsing

  // ---------------------------------------------------------------------------
  // File-name rules of `encrypt_file` and `decrypt_file`

  const EncryptedSuffix: string := ".encrypted"
  const DecryptedSuffix: string := ".decrypted"

  /** `f"{path}.encrypted".replace(".decrypted", "")` */
  function EncryptedPath(path: string): string {
    RemoveAll(path + EncryptedSuffix, DecryptedSuffix)
  }

  /** `f"{path}.decrypted".replace(".encrypted", "")` */
  function DecryptedPath(path: string): string {
    RemoveAll(path + DecryptedSuffix, EncryptedSuffix)
  }

  /** No occurrence of `sub` starts inside `p` when `p` does not contain it and
      the first character of `rest` occurs in `sub` only at its start. */
  lemma NoOccurrenceStartsIn(p: string, rest: string, sub: string)
    requires |sub| > 0 && rest != [] && !Contains(p, sub)
    requires forall r :: 1 <= r < |sub| ==> sub[r] != rest[0]
    ensures forall i :: 0 <= i < |p| ==> !(sub <= (p + rest)[i..])
  {
    forall i | 0 <= i < |p|
      ensures !(sub <= (p + rest)[i..])
    {
      if sub <= (p + rest)[i..] {
        if |p| - i >= |sub| {
          assert p[i..i + |sub|] == sub by {
            forall k | 0 <= k < |sub| ensures p[i..i + |sub|][k] == sub[k] {
              assert (p + rest)[i..][k] == p[i + k];
            }
          }
          ContainsAt(p, sub, i);
        } else {
          PrefixReachesRest(p, rest, sub, i);
        }
      }
    }
  }

  /** An occurrence starting in `p` but running past its end covers `rest[0]`. */
  lemma PrefixReachesRest(p: string, rest: string, sub: string, i: nat)
    requires i < |p| < i + |sub| && rest != [] && sub <= (p + rest)[i..]
    ensures sub[|p| - i] == rest[0]
  {
    assert (p + rest)[i..][|p| - i] == rest[0];
  }

  /** Every `.` of either suffix is its first character. */
  lemma SuffixDots()
    ensures forall r :: 1 <= r < |DecryptedSuffix| ==> DecryptedSuffix[r] != '.'
    ensures forall r :: 1 <= r < |EncryptedSuffix| ==> EncryptedSuffix[r] != '.'
  {
  }

  /** Neither suffix contains the other. */
  lemma SuffixesDiffer()
    ensures !Contains(EncryptedSuffix, DecryptedSuffix) && !Contains(DecryptedSuffix, EncryptedSuffix)
  {
    assert EncryptedSuffix[1] != DecryptedSuffix[1];
    SameLengthContains(EncryptedSuffix, DecryptedSuffix);
    SameLengthContains(DecryptedSuffix, EncryptedSuffix);
  }

  /** For a path with neither suffix, encrypting appends `.encrypted`. */
  lemma EncryptedPathOfPlain(p: string)
    requires !Contains(p, EncryptedSuffix) && !Contains(p, DecryptedSuffix)
    ensures EncryptedPath(p) == p + EncryptedSuffix
  {
    SuffixDots();
    SuffixesDiffer();
    NoOccurrenceStartsIn(p, EncryptedSuffix, DecryptedSuffix);
    RemoveAllKeepsPrefix(p, EncryptedSuffix, DecryptedSuffix);
  }

  /** Removing `a` from `p + a + b` leaves `p + b` when neither `p` nor `b`
      contains `a` and the first character of `a` does not recur in it. */
  lemma RemoveMiddle(p: string, a: string, b: string)
    requires |a| > 0 && !Contains(p, a) && !Contains(b, a)
    requires forall r :: 1 <= r < |a| ==> a[r] != a[0]
    ensures RemoveAll(p + a + b, a) == p + b
  {
    var tail := a + b;
    assert p + a + b == p + tail;
    NoOccurrenceStartsIn(p, tail, a);
    RemoveAllKeepsPrefix(p, tail, a);
    RemoveAllLeading(a, b);
  }

  /** Decrypting the name of an encrypted file swaps its suffix. */
  lemma DecryptedPathOfEncrypted(p: string)
    requires !Contains(p, EncryptedSuffix) && !Contains(p, DecryptedSuffix)
    ensures DecryptedPath(p + EncryptedSuffix) == p + DecryptedSuffix
  {
    SuffixDots();
    SuffixesDiffer();
    assert EncryptedSuffix[0] == '.';
    RemoveMiddle(p, EncryptedSuffix, DecryptedSuffix);
  }

  /** Encrypting the name of a decrypted file swaps its suffix back. */
  lemma EncryptedPathOfDecrypted(p: string)
    requires !Contains(p, EncryptedSuffix) && !Contains(p, DecryptedSuffix)
    ensures EncryptedPath(p + DecryptedSuffix) == p + EncryptedSuffix
  {
    SuffixDots();
    SuffixesDiffer();
    assert DecryptedSuffix[0] == '.';
    RemoveMiddle(p, DecryptedSuffix, EncryptedSuffix);
  }

  /** For a path with neither suffix, encrypt(decrypt(encrypt(p))) == encrypt(p):
      the file names of one encrypt-decrypt-encrypt cycle come back. */
  lemma FileNameRoundTrip(p: string)
    requires !Contains(p, EncryptedSuffix) && !Contains(p, DecryptedSuffix)
    ensures DecryptedPath(EncryptedPath(p)) == p + DecryptedSuffix
    ensures EncryptedPath(DecryptedPath(EncryptedPath(p))) == EncryptedPath(p)
  {
    EncryptedPathOfPlain(p);
    DecryptedPathOfEncrypted(p);
    EncryptedPathOfDecrypted(p);
  }

  // ---------------------------------------------------------------------------
  // `write_new_tfvars`

  /** The KMS provider; the source tells its two encryptor classes apart by
      their class names. */
  datatype Provider = Gcp | Aws

  /** The data key naming the KMS key: `kms_cryptokey_id` on GCP,
      `customer_master_key_id` on AWS. */
  function KeyIdName(p: Provider): (r: string)
    ensures r != [] && IsStripped(r) && r[0] != '#' && '=' !in r
  {
    match p
    case Gcp => "kms_cryptokey_id"
    case Aws => "customer_master_key_id"
  }

  /** Python truthiness of `d.get(k)` for string values: present and non-empty. */
  predicate Truthy(d: map<string, string>, k: string) {
    k in d && d[k] != ""
  }

  /** `d.get(k)` */
  function Get(d: map<string, string>, k: string): (r: Option<string>)
    ensures r.Some? <==> k in d
    ensures r.Some? ==> r.value == d[k]
  {
    if k in d then Some(d[k]) else None
  }

  /** `key = "value"` */
  function Assignment(key: string, value: string): string {
    key + " = \"" + value + "\""
  }

  /** What replaces every line mentioning `<key_id> =`: the assignment of the key
      value, commented out when the data already hold a truthy key id. */
  function KeyIdLine(keyId: string, keyValue: Option<string>, data: map<string, string>): string {
    var text := Assignment(keyId, Render(keyValue));
    if Truthy(data, keyId) then "# " + text else text
  }

  /** A secret line: the key left-justified to `width`, then ` = "value"`. */
  function SecretLine(key: string, width: nat, value: string): string {
    Assignment(LJust(key, width), value)
  }

  /** `line.split("=")[0].strip()`: the key as the writer sees it. */
  function LineKey(s: string): string {
    Strip(Split(s, '=')[0])
  }

  /** The line written for one line of the original file. */
  function RewriteLine(line: string, keyId: string, keyValue: Option<string>,
                       data: map<string, string>, secrets: map<string, string>, width: nat): string
  {
    var s := Strip(line);
    if Contains(s, keyId + " =") then KeyIdLine(keyId, keyValue, data)
    else if IsBlankOrComment(s) then s
    else if LineKey(s) in secrets then SecretLine(LineKey(s), width, secrets[LineKey(s)])
    else s
  }

  /** The writer and the reader agree on the key of an entry line: the text
      before the first `=` of the stripped line, stripped. */
  lemma WriterKeyIsReaderKey(line: string)
    requires Classify(line).Entry?
    ensures LineKey(Strip(line)) == Classify(line).key
  {
    SplitHead(Strip(line), '=');
  }

  /** The loop of `write_new_tfvars`: one written line per line read. */
  method RewriteLines(lines: seq<string>, keyId: string, keyValue: Option<string>,
                      data: map<string, string>, secrets: map<string, string>, width: nat) returns (out: seq<string>)
    ensures |out| == |lines|
    ensures forall i :: 0 <= i < |out| ==> out[i] == RewriteLine(lines[i], keyId, keyValue, data, secrets, width)
  {
    out := MapLines(lines, line => RewriteLine(line, keyId, keyValue, data, secrets, width));
  }

  /** The loop over the secrets of `encrypt_tfvars_secrets` and
      `decrypt_tfvars_secrets`: each value is replaced, one key at a time. */
  method MapValues(m: map<string, string>, f: string -> string) returns (r: map<string, string>)
    ensures r.Keys == m.Keys
    ensures forall k :: k in r ==> r[k] == f(m[k])
  {
    r := m;
    var pending := m.Keys;
    while pending != {}
      invariant pending <= m.Keys
      invariant r.Keys == m.Keys
      invariant forall k :: k in pending ==> r[k] == m[k]
      invariant forall k :: k in m && k !in pending ==> r[k] == f(m[k])
      decreases |pending|
    {
      var key :| key in pending;
      r := r[key := f(r[key])];
      pending := pending - {key};
    }
  }

  /** A secret key no longer than `width` is padded to exactly `width`
      characters, and the ` = "value"` part starts right after them. */
  lemma SecretLineLayout(key: string, width: nat, value: string)
    requires |key| <= width
    ensures var l := SecretLine(key, width, value);
      && |l| == width + |value| + 5
      && l[..|key|] == key
      && (forall i :: |key| <= i < width ==> l[i] == ' ')
      && l[width..] == " = \"" + value + "\""
  {
    var j := LJust(key, width);
    assert |j| == width;
    var l := SecretLine(key, width, value);
    assert l == j + (" = \"" + value + "\"");
    assert l[..|key|] == j[..|key|];
  }

  /** A secret line reads back as the secret it was written from, so the
      secrets survive the rewrite. */
  lemma SecretLineRoundTrip(key: string, width: nat, value: string)
    requires key != [] && IsStripped(key) && key[0] != '#' && '=' !in key
    requires '"' !in value
    requires !IsMarker(SecretLine(key, width, value))
    ensures Classify(SecretLine(key, width, value)) == Entry(key, value)
  {
    var pad := if |key| < width then Spaces(width - |key|) else [];
    assert LJust(key, width) == key + pad;
    EntryLineRoundTrip(pad, key, value);
  }

  /** The key-id line reads back as the key id with the key value when it is
      written uncommented, and as a comment otherwise. */
  lemma KeyIdLineRoundTrip(p: Provider, keyValue: Option<string>, data: map<string, string>)
    requires '"' !in Render(keyValue)
    requires !IsMarker(KeyIdLine(KeyIdName(p), keyValue, data))
    ensures Classify(KeyIdLine(KeyIdName(p), keyValue, data)) ==
      if Truthy(data, KeyIdName(p)) then Skip else Entry(KeyIdName(p), Render(keyValue))
  {
    var keyId := KeyIdName(p);
    if Truthy(data, keyId) {
      CommentedAssignmentSkipped(keyId, Render(keyValue));
    } else {
      AssignmentRoundTrip(keyId, Render(keyValue));
    }
  }

  /** A commented-out assignment is read as a comment. */
  lemma CommentedAssignmentSkipped(key: string, value: string)
    requires !IsMarker("# " + Assignment(key, value))
    ensures Classify("# " + Assignment(key, value)) == Skip
  {
    var l := "# " + Assignment(key, value);
    assert l[0] == '#' && l[|l| - 1] == '"';
    StripOfStripped(l);
  }

  /** An assignment without padding reads back as its key and value. */
  lemma AssignmentRoundTrip(key: string, value: string)
    requires key != [] && IsStripped(key) && key[0] != '#' && '=' !in key
    requires '"' !in value
    requires !IsMarker(Assignment(key, value))
    ensures Classify(Assignment(key, value)) == Entry(key, value)
  {
    assert key + [] == key;
    EntryLineRoundTrip([], key, value);
  }

  /** A line copied as its stripped text reads back as it did before. */
  lemma CopiedLineRoundTrip(line: string)
    ensures Classify(Strip(line)) == Classify(line)
  {
    StripIdempotent(line);
  }

  /** A line the writer copies (no key-id mention, blank, a comment or a key
      that is not a secret) is written as its stripped text and reads back
      exactly as the original line did. */
  lemma CopiedLineKeepsKind(line: string, keyId: string, keyValue: Option<string>,
                            data: map<string, string>, secrets: map<string, string>, width: nat)
    requires !Contains(Strip(line), keyId + " =")
    requires IsBlankOrComment(Strip(line)) || LineKey(Strip(line)) !in secrets
    ensures RewriteLine(line, keyId, keyValue, data, secrets, width) == Strip(line)
    ensures Classify(RewriteLine(line, keyId, keyValue, data, secrets, width)) == Classify(line)
  {
    CopiedLineRoundTrip(line);
  }

  /** A secret line of the original file reads back, after the rewrite, as
      the same key with the current value of the secret. */
  lemma RewrittenSecretRoundTrip(line: string, keyId: string, keyValue: Option<string>,
                                 data: map<string, string>, secrets: map<string, string>, width: nat)
    requires !Contains(Strip(line), keyId + " =")
    requires Classify(line).Entry? && Classify(line).key in secrets
    requires Classify(line).key != [] && Classify(line).key[0] != '#'
    requires '"' !in secrets[Classify(line).key]
    requires !IsMarker(SecretLine(Classify(line).key, width, secrets[Classify(line).key]))
    ensures Classify(RewriteLine(line, keyId, keyValue, data, secrets, width)) ==
      Entry(Classify(line).key, secrets[Classify(line).key])
  {
    var key := Classify(line).key;
    WriterKeyIsReaderKey(line);
    assert RewriteLine(line, keyId, keyValue, data, secrets, width) == SecretLine(key, width, secrets[key]);
    SecretLineRoundTrip(key, width, secrets[key]);
  }

  /** In a rewritten file every line mentioning `<key_id> =` is the key-id line. */
  lemma KeyIdLinesRewritten(lines: seq<string>, out: seq<string>, keyId: string, keyValue: Option<string>,
                            data: map<string, string>, secrets: map<string, string>, width: nat)
    requires |out| == |lines|
    requires forall i :: 0 <= i < |out| ==> out[i] == RewriteLine(lines[i], keyId, keyValue, data, secrets, width)
    ensures forall i :: 0 <= i < |out| && Contains(Strip(lines[i]), keyId + " =") ==>
      out[i] == KeyIdLine(keyId, keyValue, data)
  {
  }

  /** What `encrypt_tfvars_secrets` stores for a secret: the new name of the
      encrypted file when the value names a file, the ciphertext otherwise. */
  function EncryptedSecret(value: string, encrypt: string -> string, isFile: string -> bool): string {
    if isFile(value) then EncryptedPath(value) else encrypt(value)
  }

  /** What `decrypt_tfvars_secrets` stores for a secret. */
  function DecryptedSecret(value: string, decrypt: string -> string, isFile: string -> bool): string {
    if isFile(value) then DecryptedPath(value) else decrypt(value)
  }

  /** A `Tfvars_Encryptor` of either provider. `keyValue` is `crypto_key_path`
      on GCP and `customer_master_key_id` on AWS. */
  class TfvarsEncryptor {
    const provider: Provider
    const parser: TfvarsParser
    var keyValue: Option<string>

    ghost predicate Valid()
      reads this, parser
    {
      parser.Valid()
    }

    constructor (provider: Provider, parser: TfvarsParser, keyValue: Option<string>)
      requires parser.Valid()
      ensures Valid()
      ensures this.provider == provider && this.parser == parser && this.keyValue == keyValue
    {
      this.provider := provider;
      this.parser := parser;
      this.keyValue := keyValue;
    }

    /** `write_new_tfvars`: one output line per line of the file, in order. */
    method WriteNewTfvars() returns (out: seq<string>)
      ensures |out| == |parser.lines|
      ensures forall i :: 0 <= i < |out| ==>
        out[i] == RewriteLine(parser.lines[i], KeyIdName(provider), keyValue, parser.data, parser.secrets, parser.maxKeyLength)
    {
      out := RewriteLines(parser.lines, KeyIdName(provider), keyValue, parser.data, parser.secrets, parser.maxKeyLength);
    }

    /** Since `maxKeyLength` is the longest secret key, every secret key is
        padded to exactly that width. */
    lemma PaddedKeyWidth(key: string)
      requires Valid() && key in parser.secrets
      ensures |LJust(key, parser.maxKeyLength)| == parser.maxKeyLength
    {
    }

    /** Replaces every secret value `v` by `f(v)`; the keys stay the same. */
    method UpdateSecrets(f: string -> string)
      requires Valid()
      modifies parser`secrets
      ensures Valid()
      ensures parser.secrets.Keys == old(parser.secrets).Keys
      ensures forall k :: k in parser.secrets ==> parser.secrets[k] == f(old(parser.secrets)[k])
    {
      var updated := MapValues(parser.secrets, f);
      parser.secrets := updated;
    }

    /** `encrypt_tfvars_secrets`: every secret is encrypted (a file by its new
        name) and the file is written again with the new values. */
    method EncryptTfvarsSecrets(encrypt: string -> string, isFile: string -> bool) returns (out: seq<string>)
      requires Valid()
      modifies parser`secrets
      ensures Valid()
      ensures parser.secrets.Keys == old(parser.secrets).Keys
      ensures forall k :: k in parser.secrets ==> parser.secrets[k] == EncryptedSecret(old(parser.secrets)[k], encrypt, isFile)
      ensures |out| == |parser.lines|
      ensures forall i :: 0 <= i < |out| ==>
        out[i] == RewriteLine(parser.lines[i], KeyIdName(provider), keyValue, parser.data, parser.secrets, parser.maxKeyLength)
    {
      UpdateSecrets(v => EncryptedSecret(v, encrypt, isFile));
      out := WriteNewTfvars();
    }

    /** `decrypt_tfvars_secrets`: the key value is first taken from the data
        (`None` when absent), then every secret is decrypted and the file is
        written again. */
    method DecryptTfvarsSecrets(decrypt: string -> string, isFile: string -> bool) returns (out: seq<string>)
      requires Valid()
      modifies this`keyValue, parser`secrets
      ensures Valid()
      ensures keyValue == Get(parser.data, KeyIdName(provider))
      ensures parser.secrets.Keys == old(parser.secrets).Keys
      ensures forall k :: k in parser.secrets ==> parser.secrets[k] == DecryptedSecret(old(parser.secrets)[k], decrypt, isFile)
      ensures |out| == |parser.lines|
      ensures forall i :: 0 <= i < |out| ==>
        out[i] == RewriteLine(parser.lines[i], KeyIdName(provider), keyValue, parser.data, parser.secrets, parser.maxKeyLength)
    {
      var keyId := KeyIdName(provider);
      keyValue := Get(parser.data, keyId);
      UpdateSecrets(v => DecryptedSecret(v, decrypt, isFile));
      out := WriteNewTfvars();
    }
  }
}
