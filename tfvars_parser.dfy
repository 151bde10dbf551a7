/** The reading half of the tfvars secrets tool: `Tfvars_Parser` in
    tools/kms_secrets_encryption.py. A terraform.tfvars file is a sequence of
    lines; lines above the start-of-secrets marker hold configuration data,
    lines below it hold the secrets. */
module TfvarsParsing {
  import opened Wrappers
  import opened Text

  const SecretsStartFlag: string := "# <-- Start of secrets section, do not edit this line. -->"

  /** What one line of the file contributes, in the order the reading loop
      tests it: the marker (found anywhere in the stripped line, before the
      comment test), a blank or comment line, a `key = value` entry split at
      the first `=`, or a line without `=` (the tuple unpacking raises). */
  datatype LineKind = Marker | Skip | Entry(key: string, value: string) | Malformed

  predicate IsMarker(line: string) {
    Contains(Strip(line), SecretsStartFlag)
  }

  function Classify(line: string): (k: LineKind)
    ensures k.Marker? <==> IsMarker(line)
    ensures k.Skip? <==> !IsMarker(line) && IsBlankOrComment(Strip(line))
    ensures k.Malformed? <==> !IsMarker(line) && !IsBlankOrComment(Strip(line)) && '=' !in Strip(line)
    ensures k.Entry? ==> '=' !in k.key && IsStripped(k.key) && '"' !in k.value
  {
    ClassifyStripped(Strip(line))
  }

  /** The kind of a line once its surrounding whitespace is gone. */
  function ClassifyStripped(s: string): (k: LineKind)
    ensures k.Marker? <==> Contains(s, SecretsStartFlag)
    ensures k.Skip? <==> !Contains(s, SecretsStartFlag) && IsBlankOrComment(s)
    ensures k.Malformed? <==> !Contains(s, SecretsStartFlag) && !IsBlankOrComment(s) && '=' !in s
    ensures k.Entry? ==> '=' !in k.key && IsStripped(k.key) && '"' !in k.value
  {
    if Contains(s, SecretsStartFlag) then Marker
    else if IsBlankOrComment(s) then Skip
    else match IndexOf(s, '=')
      case None => Malformed
      case Some(i) =>
        assert '=' !in s[..i];
        var key := Strip(s[..i]);
        assert forall c :: c in key ==> c in s[..i];
        Entry(key, RemoveChar(Strip(s[i + 1..]), '"'))
  }

  /** A stripped entry line whose first `=` is at `i` is split there. */
  lemma ClassifyAtFirstEquals(line: string, i: nat)
    requires IsStripped(line) && !IsMarker(line) && line != [] && line[0] != '#'
    requires i < |line| && line[i] == '=' && '=' !in line[..i]
    ensures Classify(line) == Entry(Strip(line[..i]), RemoveChar(Strip(line[i + 1..]), '"'))
  {
    StripOfStripped(line);
    assert !Contains(line, SecretsStartFlag);
    IndexOfFirst(line, '=', i);
    assert ClassifyStripped(line) == Entry(Strip(line[..i]), RemoveChar(Strip(line[i + 1..]), '"'));
  }

  /** A line `key = "value"`, as the writer aligns it, is read back as the entry
      (key, value) when the key is a stripped text without `=` that does not
      start a comment, the value has no `"`, and the line is not a marker. */
  lemma EntryLineRoundTrip(pad: string, key: string, value: string)
    requires forall i :: 0 <= i < |pad| ==> pad[i] == ' '
    requires key != [] && IsStripped(key) && key[0] != '#' && '=' !in key
    requires '"' !in value
    requires !IsMarker(key + pad + " = \"" + value + "\"")
    ensures Classify(key + pad + " = \"" + value + "\"") == Entry(key, value)
  {
    var head, q := EntryLineParts(pad, key, value);
    SplitLine(head, q, key, value);
  }

  /** The entry line read as `head = q`, with the facts `Classify` needs. */
  lemma EntryLineParts(pad: string, key: string, value: string) returns (head: string, q: string)
    requires forall i :: 0 <= i < |pad| ==> pad[i] == ' '
    requires key != [] && IsStripped(key) && key[0] != '#' && '=' !in key
    requires '"' !in value
    ensures key + pad + " = \"" + value + "\"" == head + "=" + " " + q
    ensures head != [] && q != [] && !IsSpace(head[0]) && !IsSpace(q[|q| - 1]) && head[0] != '#'
    ensures '=' !in head && Strip(head) == key && RemoveChar(Strip(" " + q), '"') == value
  {
    Reassociate(key, pad, value);
    head := HeadFacts(key, pad);
    q := QuotedFacts(value);
  }

  lemma HeadFacts(key: string, pad: string) returns (head: string)
    requires forall i :: 0 <= i < |pad| ==> pad[i] == ' '
    requires key != [] && IsStripped(key) && '=' !in key
    ensures head == key + pad + " "
    ensures head != [] && head[0] == key[0] && '=' !in head && Strip(head) == key
  {
    head := key + pad + " ";
    assert key + (pad + " ") == head;
    HeadHasNoEquals(key, pad + " ");
    StripOfStrippedPadded(key, pad + " ");
  }

  lemma QuotedFacts(value: string) returns (q: string)
    requires '"' !in value
    ensures q == "\"" + value + "\""
    ensures q != [] && q[|q| - 1] == '"' && RemoveChar(Strip(" " + q), '"') == value
  {
    q := "\"" + value + "\"";
    StripAfterSpaces(" ", q);
    RemoveQuotes(value);
  }

  lemma Reassociate(key: string, pad: string, value: string)
    ensures key + pad + " = \"" + value + "\"" == (key + pad + " ") + "=" + " " + ("\"" + value + "\"")
  {
  }

  /** A line `head = q` whose head has no `=` is split after the head. */
  lemma SplitLine(head: string, q: string, key: string, value: string)
    requires head != [] && q != [] && !IsSpace(head[0]) && !IsSpace(q[|q| - 1]) && head[0] != '#'
    requires '=' !in head && !IsMarker(head + "=" + " " + q)
    requires Strip(head) == key && RemoveChar(Strip(" " + q), '"') == value
    ensures Classify(head + "=" + " " + q) == Entry(key, value)
  {
    var line := head + "=" + " " + q;
    EntryLineShape(head, q);
    ClassifyAtFirstEquals(line, |head|);
  }

  lemma EntryLineShape(head: string, q: string)
    requires head != [] && q != []
    requires !IsSpace(head[0]) && !IsSpace(q[|q| - 1])
    ensures var line := head + "=" + " " + q;
      && IsStripped(line) && line[0] == head[0]
      && line[..|head|] == head && line[|head|] == '=' && line[|head| + 1..] == " " + q
  {
  }

  lemma HeadHasNoEquals(key: string, pad: string)
    requires '=' !in key
    requires forall i :: 0 <= i < |pad| ==> pad[i] == ' '
    ensures '=' !in key + pad
  {
  }

  lemma StripOfStrippedPadded(key: string, pad: string)
    requires key != [] && IsStripped(key)
    requires forall i :: 0 <= i < |pad| ==> pad[i] == ' '
    ensures Strip(key + pad) == key
  {
    var t := key + pad;
    assert TrimLeft(t) == t;
    TrimRightPad(key, pad);
  }

  lemma {:induction false} TrimRightPad(key: string, pad: string)
    requires key != [] && IsStripped(key)
    requires forall i :: 0 <= i < |pad| ==> pad[i] == ' '
    ensures TrimRight(key + pad) == key
  {
    if pad == [] {
      assert key + pad == key;
    } else {
      var t := key + pad;
      assert t[..|t| - 1] == key + pad[..|pad| - 1];
      TrimRightPad(key, pad[..|pad| - 1]);
    }
  }

  lemma RemoveQuotes(value: string)
    requires '"' !in value
    ensures RemoveChar("\"" + value + "\"", '"') == value
  {
    var q := "\"" + value + "\"";
    assert q[1..] == value + "\"";
    RemoveQuoteTail(value);
  }

  lemma {:induction false} RemoveQuoteTail(value: string)
    requires '"' !in value
    ensures RemoveChar(value + "\"", '"') == value
  {
    if value == [] {
      assert value + "\"" == "\"";
    } else {
      assert (value + "\"")[1..] == value[1..] + "\"";
      RemoveQuoteTail(value[1..]);
    }
  }

  /** The kind of every line, in order. */
  function Kinds(lines: seq<string>): (ks: seq<LineKind>)
    ensures |ks| == |lines|
  {
    if lines == [] then [] else Kinds(lines[..|lines| - 1]) + [Classify(lines[|lines| - 1])]
  }

  /** The kind at index `i` is that of the line at index `i`. */
  lemma {:induction false} KindsAt(lines: seq<string>, i: nat)
    requires i < |lines|
    ensures Kinds(lines)[i] == Classify(lines[i])
  {
    if i < |lines| - 1 {
      var init := lines[..|lines| - 1];
      KindsAt(init, i);
    }
  }

  /** The key an entry line stores, if it is one. */
  function KeyOf(k: LineKind): Option<string> {
    if k.Entry? then Some(k.key) else None
  }

  /** The state of the reading loop: whether the marker has been passed and the
      two dictionaries read so far. */
  datatype ParseState = ParseState(readingSecrets: bool, data: map<string, string>, secrets: map<string, string>)

  /** Why reading fails (`SystemExit`): a line without `=`, or no secret read. */
  datatype ParseError = MalformedLine(index: nat) | NoSecrets

  /** One iteration of the reading loop, on the line at `index`. A later entry
      with the same key overwrites the earlier one. */
  function Step(st: ParseState, k: LineKind, index: nat): Result<ParseState, ParseError> {
    match k
    case Marker => Success(st.(readingSecrets := true))
    case Skip => Success(st)
    case Malformed => Failure(MalformedLine(index))
    case Entry(key, v) =>
      if st.readingSecrets then Success(st.(secrets := st.secrets[key := v]))
      else Success(st.(data := st.data[key := v]))
  }

  /** The reading loop run over the line kinds from the first line to the last. */
  function Run(ks: seq<LineKind>): Result<ParseState, ParseError> {
    if ks == [] then Success(ParseState(false, map[], map[]))
    else
      var prev := Run(ks[..|ks| - 1]);
      if prev.Failure? then prev else Step(prev.value, ks[|ks| - 1], |ks| - 1)
  }

  /** The end of the reading loop: no secrets is an error. */
  function Finish(r: Result<ParseState, ParseError>): Result<(map<string, string>, map<string, string>), ParseError> {
    if r.Failure? then Failure(r.error)
    else if r.value.secrets == map[] then Failure(NoSecrets)
    else Success((r.value.data, r.value.secrets))
  }

  /** `read_tfvars`: the data and secrets dictionaries, or the reason it exits. */
  function ReadTfvars(lines: seq<string>): Result<(map<string, string>, map<string, string>), ParseError> {
    Finish(Run(Kinds(lines)))
  }

  /** `read_tfvars` as the loop the source runs. */
  method ReadTfvarsLoop(lines: seq<string>) returns (r: Result<(map<string, string>, map<string, string>), ParseError>)
    ensures r == ReadTfvars(lines)
  {
    var data: map<string, string> := map[];
    var secrets: map<string, string> := map[];
    var beginReadingSecrets := false;
    ghost var ks := Kinds(lines);
    var i := 0;
    while i < |lines|
      invariant 0 <= i <= |lines|
      invariant Run(ks[..i]) == Success(ParseState(beginReadingSecrets, data, secrets))
    {
      assert ks[..i + 1][..i] == ks[..i];
      KindsAt(lines, i);
      var line := Strip(lines[i]);
      if Contains(line, SecretsStartFlag) {
        beginReadingSecrets := true;
      } else if line == [] || line[0] == '#' {
      } else {
        var eq := IndexOf(line, '=');
        if eq.None? {
          FailureIsFinal(ks, i + 1);
          return Failure(MalformedLine(i));
        }
        var key := Strip(line[..eq.value]);
        var value := Strip(line[eq.value + 1..]);
        if beginReadingSecrets {
          secrets := secrets[key := RemoveChar(value, '"')];
        } else {
          data := data[key := RemoveChar(value, '"')];
        }
      }
      i := i + 1;
    }
    assert ks[..i] == ks;
    if secrets == map[] {
      return Failure(NoSecrets);
    }
    return Success((data, secrets));
  }

  /** Once the loop has failed, reading more lines does not change the failure. */
  lemma {:induction false} FailureIsFinal(ks: seq<LineKind>, n: nat)
    requires n <= |ks| && Run(ks[..n]).Failure?
    ensures Run(ks) == Run(ks[..n])
    decreases |ks| - n
  {
    if n < |ks| {
      assert ks[..n + 1][..n] == ks[..n];
      FailureIsFinal(ks, n + 1);
    } else {
      assert ks[..n] == ks;
    }
  }

  /** Index of the first marker line, or the number of lines when there is none. */
  function MarkerIndex(ks: seq<LineKind>): (m: nat)
    ensures m <= |ks|
    ensures m < |ks| ==> ks[m].Marker?
    ensures forall i :: 0 <= i < m ==> !ks[i].Marker?
  {
    if ks == [] then 0
    else
      var m := MarkerIndex(ks[..|ks| - 1]);
      if m < |ks| - 1 then m
      else if ks[|ks| - 1].Marker? then |ks| - 1
      else |ks|
  }

  /** The dictionary built from the entry lines, later keys winning. */
  function Collect(ks: seq<LineKind>): map<string, string> {
    if ks == [] then map[]
    else
      var m := Collect(ks[..|ks| - 1]);
      match ks[|ks| - 1]
      case Entry(k, v) => m[k := v]
      case _ => m
  }

  /** The loop fails exactly when some line is malformed, and then at the first one. */
  lemma {:induction false} RunFailure(ks: seq<LineKind>)
    ensures Run(ks).Success? <==> forall i :: 0 <= i < |ks| ==> !ks[i].Malformed?
    ensures Run(ks).Failure? ==>
      var e := Run(ks).error;
      e.MalformedLine? && e.index < |ks| && ks[e.index].Malformed? &&
      forall i :: 0 <= i < e.index ==> !ks[i].Malformed?
  {
    if ks != [] {
      var init := ks[..|ks| - 1];
      RunFailure(init);
      assert forall i :: 0 <= i < |init| ==> init[i] == ks[i];
    }
  }

  /** After the lines read so far, the data are the entries before the first
      marker and the secrets the entries after it. */
  lemma {:induction false} RunState(ks: seq<LineKind>)
    requires Run(ks).Success?
    ensures Run(ks).value.readingSecrets == (MarkerIndex(ks) < |ks|)
    ensures Run(ks).value.data == Collect(ks[..MarkerIndex(ks)])
    ensures Run(ks).value.secrets == if MarkerIndex(ks) < |ks| then Collect(ks[MarkerIndex(ks) + 1..]) else map[]
  {
    if ks != [] {
      var init := ks[..|ks| - 1];
      var st := Run(init).value;
      assert Run(ks) == Step(st, ks[|ks| - 1], |ks| - 1);
      RunState(init);
      var m := MarkerIndex(init);
      if m < |init| {
        assert MarkerIndex(ks) == m;
        assert ks[..m] == init[..m];
        CollectSnoc(ks, m + 1);
        assert ks[m + 1..|ks| - 1] == init[m + 1..];
      } else {
        assert init[..m] == init;
        assert ks[..|ks|] == ks;
      }
    }
  }

  /** Collecting a tail of the kinds: the last kind is applied last. */
  lemma CollectSnoc(ks: seq<LineKind>, lo: nat)
    requires lo < |ks|
    ensures Collect(ks[lo..]) == match ks[|ks| - 1]
      case Entry(k, v) => Collect(ks[lo..|ks| - 1])[k := v]
      case _ => Collect(ks[lo..|ks| - 1])
  {
    assert ks[lo..][..|ks[lo..]| - 1] == ks[lo..|ks| - 1];
  }

  /** A key is in the collected dictionary exactly when some entry carries it. */
  lemma {:induction false} CollectKeys(ks: seq<LineKind>, k: string)
    ensures k in Collect(ks) <==> exists i :: 0 <= i < |ks| && KeyOf(ks[i]) == Some(k)
  {
    if ks != [] {
      var init := ks[..|ks| - 1];
      CollectKeys(init, k);
      assert forall i :: 0 <= i < |init| ==> init[i] == ks[i];
      if exists i :: 0 <= i < |ks| && KeyOf(ks[i]) == Some(k) {
        var i :| 0 <= i < |ks| && KeyOf(ks[i]) == Some(k);
        if i < |init| {
          assert KeyOf(init[i]) == Some(k);
        }
      }
    }
  }

  /** The value kept for a key is that of the last entry carrying it. */
  lemma {:induction false} CollectLast(ks: seq<LineKind>, k: string, j: nat)
    requires j < |ks| && KeyOf(ks[j]) == Some(k)
    requires forall i :: j < i < |ks| ==> KeyOf(ks[i]) != Some(k)
    ensures k in Collect(ks) && Collect(ks)[k] == ks[j].value
  {
    var init := ks[..|ks| - 1];
    if j < |ks| - 1 {
      assert forall i :: 0 <= i < |init| ==> init[i] == ks[i];
      CollectLast(init, k, j);
    }
  }

  /** `CollectKeys` for a slice, seen through the indices of the whole. */
  lemma CollectSliceKeys(ks: seq<LineKind>, lo: nat, hi: nat, k: string)
    requires lo <= hi <= |ks|
    ensures k in Collect(ks[lo..hi]) <==> exists i :: lo <= i < hi && KeyOf(ks[i]) == Some(k)
  {
    var s := ks[lo..hi];
    CollectKeys(s, k);
    if k in Collect(s) {
      var i :| 0 <= i < |s| && KeyOf(s[i]) == Some(k);
      assert KeyOf(ks[lo + i]) == Some(k);
    }
    if exists i :: lo <= i < hi && KeyOf(ks[i]) == Some(k) {
      var i :| lo <= i < hi && KeyOf(ks[i]) == Some(k);
      assert KeyOf(s[i - lo]) == Some(k);
    }
  }

  /** `CollectLast` for a slice, seen through the indices of the whole. */
  lemma CollectSliceLast(ks: seq<LineKind>, lo: nat, hi: nat, k: string, j: nat)
    requires lo <= j < hi <= |ks| && KeyOf(ks[j]) == Some(k)
    requires forall i :: j < i < hi ==> KeyOf(ks[i]) != Some(k)
    ensures k in Collect(ks[lo..hi]) && Collect(ks[lo..hi])[k] == ks[j].value
  {
    var s := ks[lo..hi];
    assert forall i :: j - lo < i < |s| ==> s[i] == ks[i + lo];
    CollectLast(s, k, j - lo);
  }

  /** The entries from `lo` on build an empty dictionary exactly when there
      are none. */
  lemma CollectTailEmpty(ks: seq<LineKind>, lo: nat)
    requires lo <= |ks|
    ensures Collect(ks[lo..]) == map[] <==> !exists i :: lo <= i < |ks| && ks[i].Entry?
  {
    assert ks[lo..|ks|] == ks[lo..];
    var c := Collect(ks[lo..]);
    if c != map[] {
      var k :| k in c;
      CollectSliceKeys(ks, lo, |ks|, k);
      var i :| lo <= i < |ks| && KeyOf(ks[i]) == Some(k);
      assert ks[i].Entry?;
    }
    if exists i :: lo <= i < |ks| && ks[i].Entry? {
      var i :| lo <= i < |ks| && ks[i].Entry?;
      CollectSliceKeys(ks, lo, |ks|, ks[i].key);
    }
  }

  /** The keys and values collected from a slice, by the indices of the whole. */
  lemma CollectSlice(ks: seq<LineKind>, lo: nat, hi: nat, k: string)
    requires lo <= hi <= |ks|
    ensures k in Collect(ks[lo..hi]) <==> exists i :: lo <= i < hi && KeyOf(ks[i]) == Some(k)
    ensures forall j :: (lo <= j < hi && KeyOf(ks[j]) == Some(k) &&
                         (forall i :: j < i < hi ==> KeyOf(ks[i]) != Some(k))) ==>
      Collect(ks[lo..hi])[k] == ks[j].value
  {
    CollectSliceKeys(ks, lo, hi, k);
    forall j | lo <= j < hi && KeyOf(ks[j]) == Some(k) && (forall i :: j < i < hi ==> KeyOf(ks[i]) != Some(k))
      ensures Collect(ks[lo..hi])[k] == ks[j].value
    {
      CollectSliceLast(ks, lo, hi, k, j);
    }
  }

  /** What a successful read returns, in terms of the marker and the entries. */
  lemma FinishedState(ks: seq<LineKind>)
    requires Finish(Run(ks)).Success?
    ensures MarkerIndex(ks) < |ks|
    ensures Finish(Run(ks)).value.0 == Collect(ks[..MarkerIndex(ks)])
    ensures Finish(Run(ks)).value.1 == Collect(ks[MarkerIndex(ks) + 1..])
  {
    RunState(ks);
  }

  /** Reading fails exactly when some line other than a blank, comment or
      marker line has no `=` (the error names the first), or when no entry
      follows the first marker. `ReadTfvars(lines)` is this with `ks` the
      kinds of the lines. */
  lemma ReadTfvarsFails(ks: seq<LineKind>)
    ensures Finish(Run(ks)).Failure? <==>
      || (exists i :: 0 <= i < |ks| && ks[i].Malformed?)
      || !(exists i :: MarkerIndex(ks) < i < |ks| && ks[i].Entry?)
    ensures Finish(Run(ks)).Failure? && Finish(Run(ks)).error.MalformedLine? ==>
      var e := Finish(Run(ks)).error.index;
      e < |ks| && ks[e].Malformed? && forall i :: 0 <= i < e ==> !ks[i].Malformed?
  {
    RunFailure(ks);
    if Run(ks).Success? {
      var m := MarkerIndex(ks);
      assert Run(ks).value.secrets == if m < |ks| then Collect(ks[m + 1..]) else map[] by {
        RunState(ks);
      }
      if m < |ks| {
        CollectTailEmpty(ks, m + 1);
      }
    }
  }

  /** Lines before the first marker go to the data and only those: a key is in
      the data exactly when an entry line above the marker carries it, and its
      value is that of the last such line. */
  lemma DataSection(ks: seq<LineKind>, k: string)
    requires Finish(Run(ks)).Success?
    ensures k in Finish(Run(ks)).value.0 <==> exists i :: 0 <= i < MarkerIndex(ks) && KeyOf(ks[i]) == Some(k)
    ensures forall j :: (0 <= j < MarkerIndex(ks) && KeyOf(ks[j]) == Some(k) &&
                         (forall i :: j < i < MarkerIndex(ks) ==> KeyOf(ks[i]) != Some(k))) ==>
      Finish(Run(ks)).value.0[k] == ks[j].value
  {
    FinishedState(ks);
    var m := MarkerIndex(ks);
    assert ks[0..m] == ks[..m];
    CollectSlice(ks, 0, m, k);
  }

  /** Lines after the first marker go to the secrets and only those, the last
      line with a key giving its value; the marker line itself is in neither. */
  lemma SecretsSection(ks: seq<LineKind>, k: string)
    requires Finish(Run(ks)).Success?
    ensures MarkerIndex(ks) < |ks|
    ensures k in Finish(Run(ks)).value.1 <==> exists i :: MarkerIndex(ks) < i < |ks| && KeyOf(ks[i]) == Some(k)
    ensures forall j :: (MarkerIndex(ks) < j < |ks| && KeyOf(ks[j]) == Some(k) &&
                         (forall i :: j < i < |ks| ==> KeyOf(ks[i]) != Some(k))) ==>
      Finish(Run(ks)).value.1[k] == ks[j].value
  {
    FinishedState(ks);
    var m := MarkerIndex(ks);
    assert ks[m + 1..|ks|] == ks[m + 1..];
    CollectSlice(ks, m + 1, |ks|, k);
  }

  /** `max(map(len, keys))` over a non-empty set of keys. */
  method MaxKeyLength(keys: set<string>) returns (n: nat)
    requires keys != {}
    ensures exists k :: k in keys && |k| == n
    ensures forall k :: k in keys ==> |k| <= n
  {
    var first :| first in keys;
    n := |first|;
    var rest := keys - {first};
    var seen := {first};
    while rest != {}
      invariant rest + seen == keys
      invariant first in seen && exists k :: k in seen && |k| == n
      invariant forall k :: k in seen ==> |k| <= n
      decreases |rest|
    {
      var k :| k in rest;
      if |k| > n {
        n := |k|;
      }
      rest := rest - {k};
      seen := seen + {k};
    }
  }

  /** The file reads without error, `data` is what it holds above the
      marker, `secretKeys` are the keys read below it and `n` is the length of
      the longest of them. */
  ghost predicate ParsedAs(lines: seq<string>, data: map<string, string>, secretKeys: set<string>, n: nat) {
    && ReadTfvars(lines).Success?
    && data == ReadTfvars(lines).value.0
    && secretKeys == ReadTfvars(lines).value.1.Keys
    && (exists k :: k in secretKeys && |k| == n)
    && (forall k :: k in secretKeys ==> |k| <= n)
  }

  /** What the constructor of a parser computes: the two dictionaries and the
      length of the longest secret key. */
  method ParseFile(lines: seq<string>) returns (data: map<string, string>, secrets: map<string, string>, n: nat)
    requires ReadTfvars(lines).Success?
    ensures (data, secrets) == ReadTfvars(lines).value
    ensures ParsedAs(lines, data, secrets.Keys, n)
  {
    var r := ReadTfvarsLoop(lines);
    data, secrets := r.value.0, r.value.1;
    n := MaxKeyLength(secrets.Keys);
  }

  /** A `Tfvars_Parser`: the file it read, the two dictionaries, and the longest
      secret key, used to align the secrets when the file is written again. */
  class TfvarsParser {
    const path: string
    /** The contents of the file at `path`, the model's stand-in for reading it. */
    const lines: seq<string>
    var data: map<string, string>
    var secrets: map<string, string>
    var maxKeyLength: nat

    /** The data are what the file holds above the marker, the secrets have the
        keys read below it (their values may since have been encrypted or
        decrypted), and `maxKeyLength` is the length of the longest secret key. */
    ghost predicate Valid()
      reads this
    {
      ParsedAs(lines, data, secrets.Keys, maxKeyLength)
    }

    /** `Tfvars_Parser(tfvars_path)` on a file that reads without error. */
    constructor (path: string, lines: seq<string>)
      requires ReadTfvars(lines).Success?
      ensures Valid()
      ensures this.path == path && this.lines == lines
      ensures (data, secrets) == ReadTfvars(lines).value
    {
      var d, s, n := ParseFile(lines);
      this.path := path;
      this.lines := lines;
      data := d;
      secrets := s;
      maxKeyLength := n;
    }
  }

  /** Constructing a parser: it exits when the file cannot be read. */
  method OpenTfvars(path: string, lines: seq<string>) returns (r: Result<TfvarsParser, ParseError>)
    ensures r.Failure? <==> ReadTfvars(lines).Failure?
    ensures r.Failure? ==> r.error == ReadTfvars(lines).error
    ensures r.Success? ==> fresh(r.value) && r.value.Valid() && r.value.lines == lines && r.value.path == path
    ensures r.Success? ==> (r.value.data, r.value.secrets) == ReadTfvars(lines).value
  {
    var parsed := ReadTfvarsLoop(lines);
    if parsed.Failure? {
      return Failure(parsed.error);
    }
    var p := new TfvarsParser(path, lines);
    return Success(p);
  }
}
