# Cloud deployment scripts: a Dafny model

This project models, in Dafny, the logic of the Anyware deployment helper
scripts. These are the Python tools and Terraform start-up scripts that:

- encrypt and decrypt the secrets of a `terraform.tfvars` file with a KMS key;
- validate what the interactive AWS quick-start asks for, and keep its
  service-quota ledger;
- sign in to the Anyware Manager (AWM) REST service, create a deployment and
  its service-account key, and attach a cloud service account;
- request connector tokens for AWS, GCP and CAC connectors, each named after
  its zone, instance and the time;
- drive the AWM client class of the quick-start;
- generate a CSV of users with random passwords.

Each script becomes one Dafny module. Three modules are shared:

- `Wrappers`: results and options;
- `Text`: the string methods the scripts use (`strip`, `split`, `replace`,
  `rpartition`, `ljust`, `lower`);
- `Http`: the requests, responses, `raise_for_status`, the retry policy and
  the `requests.Session` the scripts use.

Two more modules hold code that several scripts repeat word for word:

- `AwmSetup`: the temporary-credential parser and the set-up steps shared by
  both `awm-setup.py` scripts;
- `ConnectorToken`: the sign-in, token request and time stamp shared by the
  three connector-token scripts.

State that the source changes in place is modelled in place:

- `Http.Session` has fields that track the `Authorization` header,
  certificate verification and the mounted retry adapter, together with the
  list of requests sent;
- the `Tfvars_Parser`, `Tfvars_Encryptor` and `AnywareManager` objects are
  classes;
- the quota dictionary of the quick-start is a class as well (`QuotaLedger`).

Loops in the source are `while` loops proved against pure functions, and the
properties are lemmas about those functions.

The outside world is made of inputs:

- a server is a function from the position of a request in its session, and
  the request, to the response;
- KMS encryption and decryption are functions from string to string;
- a file's contents are its lines;
- the clock is a `DateTime`;
- random choices are a sequence of indices;
- the `names` package, the instance metadata and the AWS CLI's
  `describe-tags` answer are parameters.

Where the code says something more precise than a plain reading of its
design, the model follows the code:

- `raise_for_status` raises only for statuses 400 to 599. A 1xx or 3xx
  answer passes like a 2xx one, and not only 2xx answers count as success.
- The password rule's fifth category compares the text `b'` + password + `'`
  with the `repr` of the password's UTF-8 bytes. The two differ when the
  password holds a single quote, a backslash, a control character, DEL or any
  non-ASCII character, and the model states exactly this set.
- `\d` in a `str` pattern and the digits `int()` reads are the decimal digits
  of every script (the Unicode category Nd), not only `0` to `9`. The model
  carries the table of these digits and their values.
- `[0-9A-Z]` under `re.IGNORECASE` also accepts the four non-ASCII letters
  whose case mapping is an ASCII letter (`İ`, `ı`, `ſ` and the Kelvin sign).
- A line that names both AWS keys sets the secret key only, because the
  secret-key test comes first.

## Model

| member | source | states |
|---|---|---|
| TfvarsParsing.Classify | tools/kms_secrets_encryption.py:135-152 | A line is the secrets marker iff its stripped text contains the marker (checked before the comment check). It is skipped iff it is not a marker and is blank or starts with `#`. It is malformed (the unpacking raises) iff it is neither and has no `=`. An entry's key contains no `=` and is stripped, and its value holds no `"`. |
| TfvarsParsing.ClassifyStripped | tools/kms_secrets_encryption.py:137-152 | The same three if-and-only-if cases and the same entry facts, on an already stripped line. |
| TfvarsParsing.ClassifyAtFirstEquals | tools/kms_secrets_encryption.py:147-152 | A stripped entry line is split at its first `=`. The key is the stripped text before it. The value is the stripped text after it with every `"` removed. |
| TfvarsParsing.EntryLineRoundTrip | tools/kms_secrets_encryption.py:147-152 | A line `key<spaces> = "value"` reads back as the entry (key, value). This needs a stripped key without `=` that does not start with `#`, a value without `"`, and a line that is no marker. |
| TfvarsParsing.Kinds | tools/kms_secrets_encryption.py:134-135 | One line kind per line of the file. |
| TfvarsParsing.KindsAt | tools/kms_secrets_encryption.py:134-135 | The kind at position i is the kind of line i. |
| TfvarsParsing.ReadTfvarsLoop | tools/kms_secrets_encryption.py:127-167 | The reading loop (a flag and two dictionaries updated line by line) returns exactly `ReadTfvars`: the two dictionaries, or the reason it exits. |
| TfvarsParsing.FailureIsFinal | tools/kms_secrets_encryption.py:147-156 | Once a line has failed to unpack, the lines after it change nothing: the read fails with that error. |
| TfvarsParsing.MarkerIndex | tools/kms_secrets_encryption.py:137-139 | The position of the first marker line (or the length when there is none): no marker comes before it. |
| TfvarsParsing.RunFailure | tools/kms_secrets_encryption.py:147-156 | The loop succeeds iff no line is malformed. Otherwise the error names the first malformed line. |
| TfvarsParsing.RunState | tools/kms_secrets_encryption.py:130-152 | After the loop, the secrets flag is set iff a marker was seen. The data are the entries before the first marker. The secrets are the entries after it, or none without a marker. |
| TfvarsParsing.CollectSnoc | tools/kms_secrets_encryption.py:149-152 | Collecting one more line adds its entry (overwriting the key) or changes nothing. |
| TfvarsParsing.CollectKeys | tools/kms_secrets_encryption.py:149-152 | A key is in the collected dictionary iff some entry line has that key. |
| TfvarsParsing.CollectLast | tools/kms_secrets_encryption.py:149-152 | A key's value is the one on its last entry line: a later duplicate overwrites an earlier one. |
| TfvarsParsing.CollectSliceKeys | tools/kms_secrets_encryption.py:149-152 | The key-membership statement for a section of the file. |
| TfvarsParsing.CollectSliceLast | tools/kms_secrets_encryption.py:149-152 | The last-duplicate-wins statement for a section of the file. |
| TfvarsParsing.CollectTailEmpty | tools/kms_secrets_encryption.py:158 | The secrets read after a position are empty iff no entry line follows it. |
| TfvarsParsing.CollectSlice | tools/kms_secrets_encryption.py:149-152 | Both statements together for a section: membership iff some entry, and the last entry's value. |
| TfvarsParsing.FinishedState | tools/kms_secrets_encryption.py:158-167 | A successful read saw a marker. Its data are the entries above the first marker and its secrets the entries below it. |
| TfvarsParsing.ReadTfvarsFails | tools/kms_secrets_encryption.py:147-165 | Reading exits iff some line is malformed, or no entry follows the first marker (this covers a missing marker). A malformed-line error names the first malformed line. |
| TfvarsParsing.DataSection | tools/kms_secrets_encryption.py:130-152 | A key is in the data iff an entry above the first marker has it, with the value of the last such entry. |
| TfvarsParsing.SecretsSection | tools/kms_secrets_encryption.py:130-152 | A key is in the secrets iff an entry below the first marker has it, with the value of the last such entry. |
| TfvarsParsing.MaxKeyLength | tools/kms_secrets_encryption.py:107 | `max(map(len, secrets))`: the length of some key, and no key is longer. |
| TfvarsParsing.ParseFile | tools/kms_secrets_encryption.py:103-107 | The two dictionaries are those `read_tfvars` returns, and the width is the length of the longest secret key. |
| TfvarsParsing.TfvarsParser.constructor | tools/kms_secrets_encryption.py:93-107 | The parser holds the path, the dictionaries read from the file and the longest secret-key length. |
| TfvarsParsing.OpenTfvars | tools/kms_secrets_encryption.py:93-167 | Constructing a parser fails iff reading the file fails, with the same error. Otherwise it yields a fresh valid parser of those lines. |
| TfvarsEncryption.EncryptedPathOfPlain | tools/kms_secrets_encryption.py:335 | For a path with neither suffix, the encrypted file's name is the path plus `.encrypted`. |
| TfvarsEncryption.RemoveMiddle | tools/kms_secrets_encryption.py:264 | `replace(a, "")` on `p + a + b` gives `p + b` when neither `p` nor `b` contains `a`. The same rule serves line 335. |
| TfvarsEncryption.DecryptedPathOfEncrypted | tools/kms_secrets_encryption.py:264 | Decrypting `p.encrypted` names the file `p.decrypted`. |
| TfvarsEncryption.EncryptedPathOfDecrypted | tools/kms_secrets_encryption.py:335 | Encrypting `p.decrypted` names the file `p.encrypted`. |
| TfvarsEncryption.FileNameRoundTrip | tools/kms_secrets_encryption.py:264-335 | For a path with neither suffix, decrypt(encrypt(p)) = `p.decrypted`, and encrypt(decrypt(encrypt(p))) = encrypt(p). |
| TfvarsEncryption.KeyIdName | tools/kms_secrets_encryption.py:386-393 | The key-id name of each provider is a non-empty stripped text without `=` that does not start a comment. |
| TfvarsEncryption.Get | tools/kms_secrets_encryption.py:286-289 | `dict.get`: present iff the key is in the dictionary, with its value. |
| TfvarsEncryption.WriterKeyIsReaderKey | tools/kms_secrets_encryption.py:420 | The writer's key of an entry line (`split("=")[0].strip()`) is the reader's key. The reader splits at line 147. |
| TfvarsEncryption.RewriteLines | tools/kms_secrets_encryption.py:399-426 | One output line per input line, in order, each the rewrite of its input line. |
| TfvarsEncryption.MapValues | tools/kms_secrets_encryption.py:358-365 | Replacing the secrets one key at a time keeps the keys, and maps every value v to f(v). The decrypting loop at lines 293-300 is the same. |
| TfvarsEncryption.SecretLineLayout | tools/kms_secrets_encryption.py:420-424 | A secret line is the key, then spaces up to the width, then ` = "value"`. Its length is the width plus the value's length plus 5. |
| TfvarsEncryption.SecretLineRoundTrip | tools/kms_secrets_encryption.py:420-424 | A written secret line reads back as that secret. It is read back by the rules of lines 147-152. |
| TfvarsEncryption.KeyIdLineRoundTrip | tools/kms_secrets_encryption.py:406-411 | The key-id line reads back as a comment when the data already hold a truthy key id. Otherwise it reads back as the entry (key id, rendered key value). |
| TfvarsEncryption.CommentedAssignmentSkipped | tools/kms_secrets_encryption.py:410 | `# key = "value"` reads back as a comment. |
| TfvarsEncryption.AssignmentRoundTrip | tools/kms_secrets_encryption.py:408 | `key = "value"` reads back as the entry (key, value). |
| TfvarsEncryption.CopiedLineRoundTrip | tools/kms_secrets_encryption.py:403-426 | A line copied as its stripped text reads back as the same kind as the original. |
| TfvarsEncryption.CopiedLineKeepsKind | tools/kms_secrets_encryption.py:413-426 | A blank line, a comment or a non-secret line without the key-id mention is written as its stripped text, and reads back as before. |
| TfvarsEncryption.RewrittenSecretRoundTrip | tools/kms_secrets_encryption.py:419-424 | A secret line reads back, after the rewrite, as its key with the secret's current value. |
| TfvarsEncryption.KeyIdLinesRewritten | tools/kms_secrets_encryption.py:405-411 | Every line mentioning `<key_id> =`, a commented one too, becomes the key-id line. |
| TfvarsEncryption.TfvarsEncryptor.constructor | tools/kms_secrets_encryption.py:207-218 | The encryptor holds the provider, the parser and the key value. |
| TfvarsEncryption.TfvarsEncryptor.WriteNewTfvars | tools/kms_secrets_encryption.py:376-426 | One output line per line of the file, each the rewrite of that line under the provider's key id and the current secrets. |
| TfvarsEncryption.TfvarsEncryptor.PaddedKeyWidth | tools/kms_secrets_encryption.py:424 | Every secret key is padded to exactly the longest key's length. The width is the one set at line 107. |
| TfvarsEncryption.TfvarsEncryptor.UpdateSecrets | tools/kms_secrets_encryption.py:358-365 | The secrets dictionary is updated in place. The keys stay the same and each value becomes f of its old value. The decrypting loop at lines 293-300 is the same. |
| TfvarsEncryption.TfvarsEncryptor.EncryptTfvarsSecrets | tools/kms_secrets_encryption.py:348-369 | Every secret becomes the new name of its encrypted file, or its ciphertext. Then the file is rewritten with the new values. |
| TfvarsEncryption.TfvarsEncryptor.DecryptTfvarsSecrets | tools/kms_secrets_encryption.py:276-304 | The key value is first set from the data (`None` when absent). Then every secret is decrypted (a file by its new name) and the file is rewritten. |
| AwsKms.ValueAfterEquals | tools/kms_secrets_encryption.py:937-941 | `rpartition("=")[2].strip()` holds no `=` and is stripped. |
| AwsKms.CredentialKinds | tools/kms_secrets_encryption.py:928-942 | One kind per line of the credentials file. |
| AwsKms.CredentialKindsAt | tools/kms_secrets_encryption.py:928-942 | The kind at position i is that of line i. |
| AwsKms.InitializeAwsCredentials | tools/kms_secrets_encryption.py:904-949 | The loop returns the scan of the line kinds. |
| AwsKms.LastSecretKeyWins | tools/kms_secrets_encryption.py:928-949 | The secret key is `None` iff no line names it. Otherwise it is the value of the last line that does. |
| AwsKms.LastAccessKeyIdWins | tools/kms_secrets_encryption.py:928-949 | The access key id is `None` iff no line names it (and not the secret key). Otherwise it is the value of the last such line. |
| AwsKms.SecretKeyTestFirst | tools/kms_secrets_encryption.py:936-942 | A line naming both keys sets the secret key. |
| AwsKms.GetCryptoKeys | tools/kms_secrets_encryption.py:884-901 | One name per alias, in order: the alias name after its last `/`, which holds no `/`. |
| AwsKms.Matching | tools/kms_secrets_encryption.py:988 | The filter keeps exactly the aliases whose trimmed name equals the given name. |
| AwsKms.MatchingEmpty | tools/kms_secrets_encryption.py:974-991 | Nothing matches iff the name is not among the crypto key names, so `[0]` after the membership test cannot fail. |
| AwsKms.InitializeCryptoKeyAsWritten | tools/kms_secrets_encryption.py:970-995 | The code as written returns a key id iff the alias already exists. |
| AwsKms.FreshKeyIsLost | tools/kms_secrets_encryption.py:970-995 | With no `anyware_key` alias listed, the code as written returns `None`, although it has just created a key. |
| AwsKms.InitializeCryptoKeyNamesAliasedKey | tools/kms_secrets_encryption.py:970-995 | When the alias is missing, the code as written returns `None` while the corrected function returns the created key's id. Otherwise it returns the target of a listed alias with that name, which agrees with the code as written. The created key is the one `create_crypto_key` (lines 785-810) aliases. |
| TfvarsTool.SelectProvider | tools/kms_secrets_encryption.py:1015-1025 | No encryptor iff neither credentials file is truthy. GCP is chosen iff its credentials file is truthy, so GCP takes precedence. |
| TfvarsTool.ModeGuard | tools/kms_secrets_encryption.py:1028-1045 | The guard passes iff decryption was asked for exactly when a truthy key id of either provider is present. The error names which mode was refused. |
| TfvarsTool.ExactlyOneModeProceeds | tools/kms_secrets_encryption.py:1028-1045 | For any data, exactly one of the two modes gets past the guard. |
| TfvarsTool.PrecheckSummary | tools/kms_secrets_encryption.py:1011-1045 | `main` proceeds iff the file parses, credentials are named and the mode matches the key-id mark. A parse failure and missing credentials exit with their own errors. The provider is the one selected. |
| TfvarsTool.InitialKeyValue | tools/kms_secrets_encryption.py:782 | GCP holds its key path. AWS holds what `initialize_cryptokey` returns as written, `None` iff no `anyware_key` alias was listed. |
| TfvarsTool.NewEncryptor | tools/kms_secrets_encryption.py:753-782 | The encryptor of the chosen provider, holding `InitialKeyValue`: the GCP key path, or the AWS alias's target, or `None` when the AWS key had to be created. The GCP constructor is at lines 475-507. |
| TfvarsTool.FirstAwsEncryptionFails | tools/kms_secrets_encryption.py:974-976 | Encrypting on AWS before an `anyware_key` alias exists always stops, because the encryptor has no key id. |
| TfvarsTool.CorrectedFirstRunRecordsKey | tools/kms_secrets_encryption.py:974-976 | With the corrected key choice, that first run writes a key-id line that reads back as `customer_master_key_id` naming the key just created. |
| TfvarsTool.RunTool | tools/kms_secrets_encryption.py:998-1046 | `main` fails iff a pre-check fails, with its error, or the chosen mode has no key id. In encrypt mode on AWS a `None` key id makes `kms.encrypt(KeyId=None)` (lines 870-873) refuse the first secret, and `encrypt_tfvars_secrets` exits (lines 371-373) with `EncryptFailed`. In decrypt mode a missing or empty key id of the chosen provider (lines 285-289) makes the first `decrypt` call (lines 564-566, 838-841) refuse, and the run exits (lines 269-271, 306-308) with `DecryptFailed`. Otherwise it writes one line per input line. On encryption every key-id line is the uncommented assignment of the key value. A successful decryption had a truthy key id, and every key-id line becomes its commented assignment. |
| TfvarsTool.DecryptNeedsOwnKeyId | tools/kms_secrets_encryption.py:283-308 | Once the guard lets decryption through, it stops iff the chosen provider's own key id is missing or empty, and then the other provider's key id is the one that passed the guard. |
| TfvarsTool.RunMode | tools/kms_secrets_encryption.py:1028-1045 | Decrypting sets the key value from the data, and encrypting keeps it. Every key-id line is rewritten from the key value. |
| Interactive.ComposedRegCodeAccepted | quickstart/aws/interactive.py:60 | Any twelve `[0-9A-Z]` characters (case ignored), `@`, then four groups of four hexadecimal digits joined by `-`, are accepted. |
| Interactive.AcceptedRegCodeComposed | quickstart/aws/interactive.py:60 | Every accepted code is made of such parts, so the pattern accepts exactly these codes. |
| Interactive.FirstAccepted | quickstart/aws/interactive.py:214-221 | The prompt loop stops at the first accepted answer. Every earlier answer was refused, and there is none when all are refused. The loop of `reg_code_get` at lines 58-62 has the same shape. |
| Interactive.RegCodeGet | quickstart/aws/interactive.py:55-62 | The code returned is the stripped first answer that matches the pattern. There is none iff no stripped answer matches. |
| Text.DecimalValueBlocks | quickstart/aws/interactive.py:382 | A character is a decimal digit (`\d`, and a digit for `int()`) iff it lies in one of the 68 blocks of ten of the Unicode category Nd. Its value is its distance from that block's zero. |
| Text.DecimalNotSpace | quickstart/aws/interactive.py:216 | No decimal digit is white space, so `strip()` keeps a digit. |
| Text.AsciiDecimal | quickstart/aws/interactive.py:216 | Below U+0660 the decimal digits are exactly `0` to `9`, with their usual values. |
| Text.ArabicIndicOne | quickstart/aws/interactive.py:216 | U+0661 (ARABIC-INDIC DIGIT ONE) is a digit of value 1. |
| Interactive.DigitsValueOfNat | quickstart/aws/interactive.py:216 | The decimal digits of n read back as n. |
| Interactive.ParseIntToString | quickstart/aws/interactive.py:216 | `int(str(n)) == n` for every integer. |
| Interactive.LexLeTotal | quickstart/aws/interactive.py:211 | Python's string order is total. |
| Interactive.Insert | quickstart/aws/interactive.py:211 | Inserting into a sorted list keeps it sorted and adds exactly that element. |
| Interactive.SortOptions | quickstart/aws/interactive.py:211 | `options.sort()`: sorted, and a permutation of the options. |
| Interactive.SelectOption | quickstart/aws/interactive.py:215-221 | An answer selects only an option of the list. `int()` reads digits of any script. |
| Interactive.SingleDigitParses | quickstart/aws/interactive.py:216 | `int()` of a single digit of any script is that digit's value. |
| Interactive.SelectBySingleDigit | quickstart/aws/interactive.py:216-219 | A single digit of any script selects the option of its value when that is shown. `"١"` selects the first option. |
| Interactive.SelectByNumber | quickstart/aws/interactive.py:216-219 | Typing n selects `options[n-1]` iff 1 <= n <= len(options). Zero, negative and too large numbers select nothing. |
| Interactive.NumberOptionGet | quickstart/aws/interactive.py:210-221 | The options are sorted (a permutation). The choice is what the first selecting answer selects, and there is none iff no answer selects. |
| Interactive.Passed | quickstart/aws/interactive.py:382-385 | The number of pattern tests passed is at most the number of tests. |
| Interactive.CategoryCount | quickstart/aws/interactive.py:379-390 | At most five categories. The digit category is `\d`, any decimal digit of any script. |
| Interactive.ThreeCategories | quickstart/aws/interactive.py:379-390 | Lower case, a digit and a character the bytes repr escapes, with no upper case and no special character, make three categories. |
| Interactive.OtherScriptDigitCounts | quickstart/aws/interactive.py:365-395 | `"abcdefg١"` has three categories and is accepted for the user `x`. |
| Interactive.LowerThenOtherDigit | quickstart/aws/interactive.py:382-389 | Seven lower-case letters and U+0661 pass the lower-case, digit and bytes-repr tests, and not the other two. |
| Interactive.CategoriesDecide | quickstart/aws/interactive.py:365-395 | A password of seven or more characters with lower case, upper case and a decimal digit is accepted, unless it contains a username part. |
| Interactive.AdPasswordValidate | quickstart/aws/interactive.py:365-395 | The password is accepted iff no username part of three or more characters occurs in it (ignoring case), it has at least seven characters, and it has more than two categories. The categories are ASCII lower case, ASCII upper case, a decimal digit of any script, one of `@$!%*#?&`, and a character the bytes repr escapes. |
| InteractiveQuota.Scale | quickstart/aws/interactive.py:297 | Scaling the requirements keeps their services and quota codes. |
| InteractiveQuota.ScaleCovers | quickstart/aws/interactive.py:297 | A table covering one workstation's requirements covers those of any number of them. |
| InteractiveQuota.RowExceeded | quickstart/aws/interactive.py:249-257 | Some requirement of the service exceeds available minus reserved iff the row does not fit. |
| InteractiveQuota.RequirementsMet | quickstart/aws/interactive.py:239-263 | True iff every requirement is at most what is available minus what is already reserved for its quota code. |
| InteractiveQuota.AddRow | quickstart/aws/interactive.py:205-206 | Each requirement of the service is added to its code's tally, and every other code keeps its amount. |
| InteractiveQuota.AddRequirements | quickstart/aws/interactive.py:204-206 | Every requirement is added to the reserved tally, and nothing else changes. |
| InteractiveQuota.AddedNothing | quickstart/aws/interactive.py:297-301 | Reserving zero workstations leaves the tally as it is. |
| InteractiveQuota.ReserveKeepsWithin | quickstart/aws/interactive.py:201-207 | A reservation that passed the check keeps every reserved amount within what is available. |
| InteractiveQuota.AddedKeepsCovers | quickstart/aws/interactive.py:204-206 | A reservation keeps the tally's services and codes. |
| InteractiveQuota.FloorDiv | quickstart/aws/interactive.py:284-285 | `math.floor(a / b)`: q·b <= a < q·b + b for positive b, and the mirror for negative b. |
| InteractiveQuota.FloorDivBound | quickstart/aws/interactive.py:284-285 | For positive b, n <= floor(a / b) iff n·b <= a. |
| InteractiveQuota.RowCap | quickstart/aws/interactive.py:281-284 | Folding `min` over one service gives the smallest of the start and every floor of remaining quota over requirement. |
| InteractiveQuota.MaxNumberOfWs | quickstart/aws/interactive.py:272-285 | The cap is at most the subnet room and at most every floor of remaining quota over requirement. It equals the room or one of those floors. |
| InteractiveQuota.ScaledRowFits | quickstart/aws/interactive.py:284-297 | n workstations fit in a service's remaining quota iff n is at most each floor. |
| InteractiveQuota.CapCharacterised | quickstart/aws/interactive.py:272-301 | With positive requirements, n <= cap iff n <= the subnet room and n workstations' requirements fit in the remaining quota. |
| InteractiveQuota.WsAnswer | quickstart/aws/interactive.py:294 | An empty answer stands for the default number, 0. |
| InteractiveQuota.WsAnswerSingleDigit | quickstart/aws/interactive.py:294 | A single digit of any script is read as its value, so `"٣"` is 3. |
| InteractiveQuota.WithinCapAccepted | quickstart/aws/interactive.py:294-301 | The prompt accepts exactly the numbers from 0 to the cap. The reservation never turns down one of them. |
| InteractiveQuota.AddedRow | quickstart/aws/interactive.py:205-206 | The row with the requirements added code by code. |
| InteractiveQuota.AddedTable | quickstart/aws/interactive.py:204-206 | The tally with every requirement added. |
| InteractiveQuota.AddedIsTable | quickstart/aws/interactive.py:204-206 | A reservation determines the new tally: it is `AddedTable`. |
| InteractiveQuota.IsCapUnique | quickstart/aws/interactive.py:272-285 | The cap is determined by the subnet room and the remaining quota. |
| InteractiveQuota.CapAtLeast | quickstart/aws/interactive.py:272-285 | A cap is at least any other number that is within the room and every floor, and is the room or a floor. |
| InteractiveQuota.ChoosesUnique | quickstart/aws/interactive.py:265-308 | What `numberof_ws_get` returns is determined by the room, the quota, the tally and the answers. |
| InteractiveQuota.ChoosesUnderUnique | quickstart/aws/interactive.py:293-308 | Under one cap, the first accepted answer is unique. |
| InteractiveQuota.QuotaLedger.constructor | quickstart/aws/interactive.py:401-416 | Nothing is reserved for each code of the deployment's requirements, and no workstation is counted. |
| InteractiveQuota.QuotaLedger.RequirementsAreMet | quickstart/aws/interactive.py:239-263 | True iff the requirements fit in available minus the ledger's reserved tally. |
| InteractiveQuota.QuotaLedger.ServiceQuotaReserve | quickstart/aws/interactive.py:201-207 | The result is whether the requirements fit. On success all of them are added to the tally. On failure the tally is unchanged. |
| InteractiveQuota.QuotaLedger.NumberOfWsGet | quickstart/aws/interactive.py:265-308 | The result is what `Chooses` says. No room left in the subnet, or a cap of zero, returns 0 without prompting. Otherwise it is the first accepted answer under the cap: not negative and at most the cap (so the subnet is never overfilled), with its scaled requirements reserved. Nothing changes when the answers run out. |
| InteractiveQuota.QuotaLedger.WorkstationsGet | quickstart/aws/interactive.py:436-441 | Each chosen number is what `numberof_ws_get` yields for its type and answers, given the count and tally left by the types before it (`Configured`). Fewer numbers than types only when a type's answers ran out. The tally is the start tally with each choice's scaled requirements added in turn. `ws_count` grows by the sum, each number is not negative, and the count stays within the subnet. |
| AwmSetup.OpenSession | modules/aws/awm/awm-setup.py:173-183 | The session has no header and no exchanges. It does not verify certificates and mounts a retry policy: ten `POST` retries on 500, 502, 503 and 504, backoff 1. |
| AwmSetup.ParseCredsLine | modules/aws/awm/awm-setup.py:24 | A line that does not unpack into two pieces raises `ValueError`. |
| AwmSetup.ParseCredsLineSplits | modules/aws/awm/awm-setup.py:24 | A line parses iff it holds exactly one `:`. The key is the stripped text before it and the value the stripped text after it. |
| AwmSetup.ParsedLines | modules/aws/awm/awm-setup.py:23-24 | One parsed line per line of the file, in order. |
| AwmSetup.GetTempCreds | modules/aws/awm/awm-setup.py:19-27 | The loop returns what reading the dictionary the lines build gives for `username` and `password`. |
| AwmSetup.CredsMapStep | modules/aws/awm/awm-setup.py:23-25 | One more line either fails with its own error or stores its value under its key. |
| AwmSetup.CredsMapPrefixFails | modules/aws/awm/awm-setup.py:23-25 | Once a prefix fails, the whole file fails with the same error. |
| AwmSetup.CredsMapFails | modules/aws/awm/awm-setup.py:23-25 | The file parses iff every line does. Otherwise the error is that of the first malformed line. |
| AwmSetup.CredsMapContents | modules/aws/awm/awm-setup.py:23-25 | The dictionary's keys are exactly the lines' keys. A key keeps the value of the last line that has it. |
| AwmSetup.CredsKey | modules/aws/awm/awm-setup.py:23-27 | A key is in the dictionary iff some line has it. |
| AwmSetup.TempCredsSucceeds | modules/aws/awm/awm-setup.py:19-27 | Reading succeeds iff every line has one `:` and some line has `username` and some line `password`. A malformed line gives `ValueError`, and a missing `username` gives `KeyError('username')`. |
| AwmSetup.Raised | modules/aws/awm/awm-setup.py:39 | A step passes iff its result did not raise, and a failure carries the error. |
| AwmSetup.StepCheck | modules/aws/awm/awm-setup.py:39-77 | A 4xx or 5xx answer fails any step with `HTTPError` of that status. |
| AwmSetup.Login | modules/aws/awm/awm-setup.py:30-42 | One `POST` to `/auth/ad/login` with the username and password, sent with the current header. The header becomes the token only when the answer passes and holds one. |
| AwmSetup.PasswordChange | modules/aws/awm/awm-setup.py:45-51 | One `POST` to `/auth/ad/adminPassword` with the new password. It fails iff the status raises. |
| AwmSetup.DeploymentCreate | modules/aws/awm/awm-setup.py:54-65 | One `POST` to `/deployments` with the name and registration code. The deployment is the answer's `data`. |
| AwmSetup.DeploymentKeyCreate | modules/aws/awm/awm-setup.py:68-79 | A deployment without `deploymentId` raises before anything is sent. Otherwise one `POST` to `/auth/keys` for that id and key name, and the key is the answer's `data`. |
| AwmSetup.ValidationOutcome | modules/aws/awm/awm-setup.py:121-133 | `True` iff the status does not raise. An error status gives `False`, except a 400 without `data`, which raises `KeyError('data')`. |
| AwmSetup.ChangeAdminPassword | modules/aws/awm/awm-setup.py:185-188 | A login with the temporary password, then the password change only if the login gave a token. The outcome is that of the last request. |
| AwmSetup.CreateDeployment | modules/aws/awm/awm-setup.py:190-193 | A login with the new password, then the deployment, then a key for that deployment's id, each sent only if the one before passed. The last two carry this login's token. |
| AwmSetup.Setup | modules/aws/awm/awm-setup.py:172-193 | Unreadable credentials end the run before anything is sent. Otherwise the first phase runs, then the second only if the first passed. The result is the deployment and its key. |
| AwmSetup.ComposePhases | modules/aws/awm/awm-setup.py:185-193 | The two phases, one after the other, make the run's log. |
| AwmSetup.SetupInOrder | modules/aws/awm/awm-setup.py:185-193 | At most five `POST` requests, to login, adminPassword, login, deployments and keys in that order, each but the last having passed. The first login has no header, and later requests carry the token of the login before them. The run succeeds iff all five were sent and the last passed. |
| AwmSetup.KeyForCreatedDeployment | modules/aws/awm/awm-setup.py:186-193 | In a full run the key is requested for the `deploymentId` of the created deployment. The second login uses the new password. The key payload is built at lines 68-72. |
| AwsAwmSetup.AwsSaKey | modules/aws/awm/awm-setup.py:87-91 | The `[default]` section, or `KeyError('default')` when the file has none. |
| AwsAwmSetup.Username | modules/aws/awm/awm-setup.py:94-104 | A key without `aws_access_key_id` raises `KeyError`. Otherwise the IAM answer for that id, where a failed call gives `None`. |
| AwsAwmSetup.AwsCredential | modules/aws/awm/awm-setup.py:109-116 | The credential names the user, the access key id and the secret key. A missing option raises `KeyError` for the first one missing. |
| AwsAwmSetup.ValidateAwsSa | modules/aws/awm/awm-setup.py:107-133 | A missing option raises before anything is sent. Otherwise one `POST` to the validation URL with provider `aws`, and the answer decides as `ValidationOutcome` says. |
| AwsAwmSetup.DeploymentAddAwsAccount | modules/aws/awm/awm-setup.py:136-157 | A missing option or deployment id raises before anything is sent. Otherwise one `POST` to `/deployments/<id>/cloudServiceAccounts`, and an error status does not fail. |
| AwsAwmSetup.AddAwsAccount | modules/aws/awm/awm-setup.py:196-203 | Requests are sent iff there is a key file with a `[default]` section holding both options and a non-empty IAM user name. The account is added iff validation answered `True` and the deployment has an id. Errors are only `KeyError` or `TypeError`. |
| GcpAwmSetup.MiddleLines | modules/gcp/awm/awm-setup.py:98 | `lines[1:-2]`: empty for three lines or fewer, else the lines without the first and the last two. |
| GcpAwmSetup.PrivateKeyBody | modules/gcp/awm/awm-setup.py:98 | The text sent holds no newline. |
| GcpAwmSetup.PrivateKeyBodyOfPem | modules/gcp/awm/awm-setup.py:98 | For a PEM text of a header, body lines and a footer, each ending in a newline, the text sent is the body lines joined. |
| GcpAwmSetup.FramedAvoids | modules/gcp/awm/awm-setup.py:98 | No piece of such a PEM text holds a newline. |
| GcpAwmSetup.MiddleOfFramed | modules/gcp/awm/awm-setup.py:98 | The middle of the pieces of such a PEM text is its body lines. |
| GcpAwmSetup.GcpCredential | modules/gcp/awm/awm-setup.py:94-101 | The credential exists iff the key has `client_email`, `private_key` and `project_id`. It holds the e-mail, the key body and the project. |
| GcpAwmSetup.ValidateGcpSa | modules/gcp/awm/awm-setup.py:93-120 | A missing field raises before anything is sent. Otherwise one `POST` to the validation URL with provider `gcp`, and the answer decides as `ValidationOutcome` says. |
| GcpAwmSetup.DeploymentAddGcpAccount | modules/gcp/awm/awm-setup.py:123-145 | A missing field or deployment id raises before anything is sent. Otherwise one `POST` to `/auth/users/cloudServiceAccount` naming the deployment, and an error status does not fail. |
| GcpAwmSetup.AddGcpAccount | modules/gcp/awm/awm-setup.py:184-194 | A request is sent iff there is a key with all three fields. The account is added iff validation answered `True` and the deployment has an id. Errors are only `KeyError` or `TypeError`. |
| ConnectorToken.ZeroPadded | modules/aws/awc/get-connector-token.py:29-30 | A padded field of `isoformat` has exactly the field width and only digits. |
| ConnectorToken.ZeroPaddedInjective | modules/aws/awc/get-connector-token.py:29-30 | Two numbers below 10^width with the same padded digits are equal. |
| ConnectorToken.CompactTimeForm | modules/aws/awc/get-connector-token.py:29-30 | With `:` and `-` removed and `Z` added, the time is `YYYYMMDDTHHMMSSZ`: 16 characters, digits except `T` at 8 and `Z` at 15. |
| ConnectorToken.CompactStamp | modules/aws/awc/get-connector-token.py:29-30 | Removing the separators from the ISO layout of fixed-width digit runs leaves date digits, `T`, time digits and then `Z`. |
| ConnectorToken.CompactTimeInjective | modules/aws/awc/get-connector-token.py:29-30 | Two valid times with the same stamp are the same time. |
| ConnectorToken.StampParts | modules/aws/awc/get-connector-token.py:29-30 | Equal stamps of fixed-width parts are equal part by part. |
| ConnectorToken.ConnectorNameParts | modules/aws/awc/get-connector-token.py:32 | The name is the zone, a dash, the instance name, a dash and the time, and each part can be read back at its place. |
| ConnectorToken.SigninBody | modules/aws/awc/get-connector-token.py:72-78 | The payload exists iff the key has `keyName`, `username` and `apiKey`. It sends the username and, as password, the API key. |
| ConnectorToken.Signin | modules/aws/awc/get-connector-token.py:72-86 | A key without the three fields raises before anything is sent. Otherwise one `POST` to `/auth/signin`. It passes iff the answer holds a token, and only then does the header become that token. |
| ConnectorToken.RequestToken | modules/aws/awc/get-connector-token.py:89-102 | A key without `deploymentId` raises `KeyError` before anything is sent. Otherwise one `POST` to `/auth/tokens/connector` with the id and connector name, and the result is the answer's token. |
| ConnectorToken.SigninAndRequest | modules/aws/awc/get-connector-token.py:155-158 | At most two requests. The token request is sent iff the sign-in gave a token, the name could be made and the key has a deployment id, and it carries the sign-in's token. The result is the second answer's token, or the first error met. |
| ConnectorToken.OpenSession | modules/aws/awc/get-connector-token.py:129-131 | A fresh session with no header and nothing sent. It verifies certificates unless `--insecure` was given. |
| AwsConnectorToken.Region | modules/aws/awc/get-connector-token.py:28 | `zone[:-1]`: the zone without its last character, or empty for an empty zone. |
| AwsConnectorToken.InstanceName | modules/aws/awc/get-connector-token.py:57 | Absent `Tags` raises `TypeError` and an empty list `IndexError`. Otherwise the first tag's `Value`, or `None` when it has none. |
| AwsConnectorToken.AwsConnectorNameForm | modules/aws/awc/get-connector-token.py:27-34 | The name exists iff the region's tags have a first entry. It is zone, dash, first tag's value (`None` if missing), dash, 16-character stamp, and starts with the zone and ends with the stamp. |
| AwsConnectorToken.Run | modules/aws/awc/get-connector-token.py:126-158 | The session verifies unless insecure. A retry policy that raises `TypeError` ends the run with nothing sent. Otherwise the policy is mounted and the sign-in and token request go as `SigninAndRequest` says. |
| GcpConnectorToken.GcpConnectorNameForm | modules/gcp/awc-igm/get-connector-token.py:26-34 | The name is the zone's last path segment (no `/` in it), dash, instance name, dash and the 16-character stamp. |
| GcpConnectorToken.ZoneOfPath | modules/gcp/awc-igm/get-connector-token.py:31 | `rpartition('/')[2]` of `prefix/zone` is the zone when it holds no `/`. |
| GcpConnectorToken.Run | modules/gcp/awc-igm/get-connector-token.py:97-129 | As the AWS run, with a name that cannot fail. |
| CacToken.Run | modules/aws/cac/get-cac-token.py:117-127 | No retry policy is mounted. The sign-in and token request with the AWS connector name go as `SigninAndRequest` says. |
| Http.RaiseForStatus | modules/aws/awc/get-connector-token.py:83 | `raise_for_status` raises `HTTPError` for exactly the statuses 400 to 599. |
| Http.DataOf | modules/aws/awc/get-connector-token.py:85 | `resp.json()['data']` exists iff the body has a `data` member. |
| Http.Field | modules/aws/awc/get-connector-token.py:85 | Indexing `data` by a key succeeds iff it is an object with that key, and gives its value. |
| Http.Lookup | modules/aws/awc/get-connector-token.py:76-77 | Indexing a dictionary gives the value, or `KeyError` for a missing key. |
| Http.TokenOf | modules/aws/awc/get-connector-token.py:83-85 | A token is read iff the status does not raise and `data` is an object with `token`. An error status raises first. |
| Http.CheckedData | modules/aws/awm/awm-setup.py:63-65 | `data` is returned iff the status does not raise and the body has it. An error status raises first. |
| Http.ConnectorRetry | modules/aws/awc/get-connector-token.py:133-152 | The policy is made iff urllib3 accepts `allowed_methods` or is older than 1.26.0, using the old keyword only in the latter case. Otherwise `TypeError` is raised again. |
| Http.ConnectorRetrySettings | modules/aws/awc/get-connector-token.py:134-150 | Either way: ten tries, backoff 1, statuses 500, 502, 503 and 504, methods `POST` and `GET`. |
| Http.Session.constructor | modules/aws/awc/get-connector-token.py:129 | A new session has no header, verifies certificates, mounts no retry policy and has sent nothing. |
| Http.Session.Send | modules/aws/awc/get-connector-token.py:79-82 | The request carries the current header. The answer is the server's for that request at that position, and the exchange is appended. |
| Http.Session.SetAuthorization | modules/aws/awc/get-connector-token.py:86 | The header becomes the token. |
| AnywareManagerClient.HeaderAuthorization | quickstart/aws/awm.py:15-20 | A request made with the header carries its `authorization` entry, or none when the header has none. |
| AnywareManagerClient.TokenValidity | quickstart/aws/awm.py:22-28 | `True` iff the status does not raise, `False` iff it is 401. Any other error status raises its `HTTPError` again. |
| AnywareManagerClient.SigninBody | quickstart/aws/awm.py:63-66 | The payload exists iff the key has `username` and `apiKey`, and sends both under those names. Otherwise `KeyError` for the first missing. |
| AnywareManagerClient.InstancesOf | quickstart/aws/awm.py:179-180 | A list of instances is iterated as it is. An object gives its keys, so it fails with `TypeError` unless empty. |
| AnywareManagerClient.NameMatches | quickstart/aws/awm.py:180 | An instance without `instanceName` raises `KeyError`. Otherwise it matches iff its name is the one looked for. |
| AnywareManagerClient.InstanceIdsSingle | quickstart/aws/awm.py:180 | Over one instance the comprehension gives its id iff its name matches. A missing name raises, and a matching one without `instanceId` raises. |
| AnywareManagerClient.InstanceIdsAppend | quickstart/aws/awm.py:180 | Over two lists run together: the first's ids then the second's, or the first error met. |
| AnywareManagerClient.InstanceIdsFirst | quickstart/aws/awm.py:180 | On success the list is empty iff no instance matches. Otherwise its first id is that of the first matching instance. Line 77 takes that first id. |
| AnywareManagerClient.FirstUser | quickstart/aws/awm.py:133 | Missing or empty `data` gives `None`, and a non-empty list gives its first member. A non-empty object raises `KeyError(0)`. |
| AnywareManagerClient.AnywareManager.constructor | quickstart/aws/awm.py:12-15 | The client keeps the token and URL, its header is `{'authorization': token}`, and it has sent nothing. |
| AnywareManagerClient.AnywareManager.Send | quickstart/aws/awm.py:18-21 | The request goes to the client's URL plus the path. The answer is the server's, and the exchange is appended. |
| AnywareManagerClient.AnywareManager.AuthTokenValidate | quickstart/aws/awm.py:17-28 | For a client whose header matches its token, one `POST` to `/api/v1/auth/verify` carrying the current token. The result is as `TokenValidity` says. |
| AnywareManagerClient.AnywareManager.DeploymentSignin | quickstart/aws/awm.py:62-74 | A key without the two fields raises and sends nothing. Otherwise one header-less `POST` to `/api/v1/auth/signin`. It passes iff the answer holds a token, which then becomes the token and the header. A failed sign-in changes neither, and the header always matches the token. |
| AnywareManagerClient.AnywareManager.ListInstances | quickstart/aws/awm.py:165-176 | A deployment without an id raises and sends nothing. Otherwise one `GET` of the AWS instances with the deployment id and region, carrying the current token. The result is the answer's `data`. |
| AnywareManagerClient.AnywareManager.InstanceIdGet | quickstart/aws/awm.py:178-180 | At most the listing request is sent. The ids are those of the listed instances with the name, in order. |
| AnywareManagerClient.AnywareManager.MachineAddExisting | quickstart/aws/awm.py:76-93 | The listing comes first. No match raises `IndexError` and adds nothing. Otherwise one `POST` to `/api/v1/machines` with the name, deployment, first matching instance id and region, and the machine is the answer's `data`. |
| AnywareManagerClient.AnywareManager.UserGet | quickstart/aws/awm.py:121-133 | A deployment without an id raises and sends nothing. Otherwise one `GET` of the directory users with the id and name, carrying the current token. An error status raises, and otherwise the result is the first user as `FirstUser` says. |
| GenerateNames.CharRunMembers | tools/generate_names.py:14 | A run of code points holds exactly the characters of its range. |
| GenerateNames.PasswordAlphabetChars | tools/generate_names.py:11-14 | The alphabet has 93 characters, exactly the printable ASCII ones other than space and comma. |
| GenerateNames.RandomStr | tools/generate_names.py:13-15 | One character per draw, each from the alphabet, so never a comma. |
| GenerateNames.NonEmpty | tools/generate_names.py:26 | Only non-empty pieces are kept, each one of the input's. |
| GenerateNames.Words | tools/generate_names.py:26 | `split()` gives no empty word. |
| GenerateNames.WordsAvoid | tools/generate_names.py:26 | A character absent from the text is absent from its words. |
| GenerateNames.WordsOfFullName | tools/generate_names.py:26 | A full name made of two blank-free names gives those two words. |
| GenerateNames.CsvLine | tools/generate_names.py:26-29 | A line is made iff the name has at least two words. Otherwise `IndexError`. |
| GenerateNames.CsvLineFields | tools/generate_names.py:27-29 | For a comma-free name the line splits into exactly four fields: first name, last name, the lower-cased initial and last name, and the password. |
| GenerateNames.HeaderFields | tools/generate_names.py:23 | The header names the five columns. |
| GenerateNames.Iterations | tools/generate_names.py:25 | `len(range(n))`: n, or 0 for a negative n. |
| GenerateNames.GenerateCsv | tools/generate_names.py:17-30 | The header comes first, and then line k+1 is person k's line. The run ends with `IndexError` at the first name of fewer than two words, and otherwise prints all n lines. A count of zero or less prints the header only. |
| Text.TrimLeft | tools/kms_secrets_encryption.py:135 | Drops exactly the leading white space. |
| Text.TrimRight | tools/kms_secrets_encryption.py:135 | Drops exactly the trailing white space. |
| Text.Strip | tools/kms_secrets_encryption.py:135 | The result has no white space at either end. |
| Text.StripChars | tools/kms_secrets_encryption.py:135 | Stripping keeps only characters of the input. |
| Text.StripIdempotent | tools/kms_secrets_encryption.py:135-147 | Stripping twice is stripping once. |
| Text.StripAfterSpaces | tools/kms_secrets_encryption.py:135 | Leading white space before a stripped text is removed. |
| Text.Split | modules/aws/awm/awm-setup.py:24 | One more piece than occurrences of the separator, and no piece holds it. |
| Text.SplitJoin | modules/aws/awm/awm-setup.py:24 | Joining the pieces with the separator gives the text back. |
| Text.SplitOnce | modules/aws/awm/awm-setup.py:24 | Two pieces iff the separator occurs once, and they are the text before and after it. |
| Text.JoinSplit | tools/generate_names.py:29 | Splitting separator-free pieces joined by the separator gives the pieces back. |
| Text.SplitHead | tools/kms_secrets_encryption.py:420 | The first piece is the text before the first separator. |
| Text.ConcatAvoids | modules/gcp/awm/awm-setup.py:98 | Joining pieces that lack a character gives a text that lacks it. |
| Text.MapLines | tools/kms_secrets_encryption.py:403-428 | One output line per input line, each the image of its input. |
| Text.RemoveAll | tools/kms_secrets_encryption.py:264 | `replace(sub, '')` never lengthens, and leaves a text without `sub` as it is. It is used again at line 335. |
| Text.RemoveAllKeepsPrefix | tools/kms_secrets_encryption.py:264 | A prefix in which no occurrence starts is kept. It is used again at line 335. |
| Text.RemoveAllLeading | tools/kms_secrets_encryption.py:264 | A leading occurrence is removed, and the rest is kept when it has none. It is used again at line 335. |
| Text.RemoveChar | tools/kms_secrets_encryption.py:150-152 | The character is gone, nothing else is added, and a text without it is unchanged. |
| Text.RemoveCharAppend | tools/kms_secrets_encryption.py:150-152 | Removing from two texts run together removes from each. |
| Text.AfterLast | tools/kms_secrets_encryption.py:937 | `rpartition(c)[2]`: the longest suffix without `c`, preceded by `c` when shorter than the text. |
| Text.LJust | tools/kms_secrets_encryption.py:424 | The text padded with spaces to the width, or unchanged when already as wide. |
| Text.Lower | tools/generate_names.py:29 | Same length, each ASCII capital lowered and every other character kept. |

## Left out

- File system: `open`, `read` and `write`, the `os.rename` backup, `os.path.isfile`, `json.load` and `json.dump`. A file is its lines, and "is a file" is an input predicate. `token_write`, `deployment_key_write`, `load_service_account_key`, `get_gcp_sa_key` and reading the INI file of `get_aws_sa_key` are left out for this reason, and what they would load is a parameter.
- KMS and the cloud SDKs: `create_key_ring`, `create_crypto_key`, `list_aliases`, the GCP key-ring and crypto-key lookup of the GCP encryptor's constructor, and the service-quota queries. Encryption and decryption are functions from string to string. The alias list, the created key id, the GCP key path and the available quota table are inputs.
- Base64 encoding around the KMS calls is part of the opaque encrypt and decrypt functions.
- The network: every HTTP request is answered by the `Server` parameter. The instance metadata endpoints are parameters too (the AWS zone, the GCP zone and name texts), and so is the AWS CLI `describe-tags` call with its `subprocess` and JSON decoding.
- Process and environment: `argparse`, `print`, `import_or_install_module` with its `pip` call, and `input`/`getpass`. The prompt loops read a finite list of answers, and running out of answers ends them with no result.
- Retry machinery: the retry behaviour of urllib3 (backoff, repeated sends) and the `@retry(tries=5, delay=5)` decorator are library behaviour. Only the policy values and the version fallback are modelled, and every request is sent once.
- AnywareManager `deployment_create`, `deployment_key_create`, `generate_aws_role_info`, `entitlement_add`, `machines_get` and `deployment_add_aws_account`: plain one-request wrappers outside the modelled core. The two creations are modelled for the set-up scripts in `AwmSetup`.
- The clock and randomness: `datetime.utcnow` is a `DateTime` parameter, `random.choice` a sequence of alphabet positions, and `names.get_full_name` a sequence of names.
- Regular expressions: the registration-code and password patterns are restated as character predicates. The username parts that `ad_password_validate` uses as patterns are matched as plain substrings, so a part holding a regex metacharacter is not modelled as a pattern.
- Interactive.AdPasswordValidate: case-insensitive matching folds ASCII letters only, and `re.IGNORECASE` on other scripts is not modelled.
- Text.DecimalValue: the table of decimal digits is that of Unicode 15.0. Digits that later versions of Unicode add are not modelled.
- AwsKms.MatchingEmpty, InteractiveQuota.WithinCapAccepted and InteractiveQuota.QuotaLedger.NumberOfWsGet: one input answers queries that the source makes more than once. `list_aliases` is called at lines 895 and 983 of tools/kms_secrets_encryption.py, and `service_quota_get` again inside every `requirements_are_met` (quickstart/aws/interactive.py:245) after the cap was computed from the call at line 279. These members hold when both calls return the same answer. An answer that changes between the calls is not modelled, for example one in which `[0]` fails or a reservation within the cap is turned down.
- InteractiveQuota.RequirementsMet, InteractiveQuota.AddRequirements, InteractiveQuota.MaxNumberOfWs, InteractiveQuota.QuotaLedger.RequirementsAreMet, InteractiveQuota.QuotaLedger.ServiceQuotaReserve, InteractiveQuota.QuotaLedger.NumberOfWsGet and InteractiveQuota.QuotaLedger.WorkstationsGet: they require every quota code of the requirements to be in the available table and the tally (`Covers`). When AWS lists no quota with a required code, `service_quota_get` leaves it out (quickstart/aws/interactive.py:196-198), and lines 250 and 283 raise `KeyError`. The same holds for a machine requirement whose code the tally lacks. That raise is not modelled.
- TfvarsTool.RunTool: the refusals are taken as given. On AWS, `kms.encrypt(KeyId=None)` and `kms.decrypt(KeyId=None)` or `KeyId=""` fail the SDK's parameter validation. On GCP, a decrypt request whose `name` is `None` or empty names no key and is refused by the service. Which error text is printed is not modelled.
- Text.Lower: lowers ASCII capitals only. Python's full Unicode `str.lower` is not modelled.
- Floating point: quota amounts are integers, and `remaining / requirement` followed by `math.floor` is floor division of integers. InteractiveQuota.MaxNumberOfWs and the members after it require non-zero requirements, because a zero one raises `ZeroDivisionError` in the source, and that raise is not modelled.
- Interactive.NumberOptionGet: `options.sort()` sorts the caller's list in place. The model returns the sorted list instead, so the aliasing of the caller's list is not modelled.
- AnywareManagerClient.FirstUser: `resp['data'][0]` on a non-empty object raises `KeyError(0)`, written as `KeyError("0")`.
- Provider dispatch by `type(self).__name__` is a `Provider` datatype.
- The connector-token scripts' `StrictVersion` parsing is not modelled: the installed urllib3 version is a parsed `Version`, and whether its `Retry` takes `allowed_methods` is a boolean parameter.
- Http: a response is its status and the `data` member of its JSON body. Other members and non-JSON bodies are not modelled.

## Findings

| source | as written | input that shows it | evidently intended | confidence | as-written member | corrected member |
|---|---|---|---|---|---|---|
| tools/kms_secrets_encryption.py:974-976 | When no alias ends in `anyware_key`, `initialize_cryptokey` calls `create_crypto_key` but discards its result, so the method returns `None` and the encryptor keeps `customer_master_key_id = None` (line 782). A parsed file always has a secret, so `main` then always stops at `kms.encrypt(KeyId=None)` (lines 870-873) and the first encryption on AWS never succeeds | aliases `[alias/aws/s3]`, crypto-key name `anyware_key` | return the id of the key just created | not executed | AwsKms.InitializeCryptoKeyAsWritten (with AwsKms.FreshKeyIsLost and TfvarsTool.FirstAwsEncryptionFails) | AwsKms.InitializeCryptoKeyNamesAliasedKey (with TfvarsTool.CorrectedFirstRunRecordsKey) |
