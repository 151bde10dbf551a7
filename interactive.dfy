/** The validators of quickstart/aws/interactive.py: the registration-code
    format, Python's `int()` on a typed answer, the numbered option menu and
    the Active Directory password rule. The prompt loops read a finite list
    of typed answers; running out of answers is `None`. */
module Interactive {
  import opened Wrappers
  import opened Text

  predicate IsAsciiLower(c: char) {
    'a' <= c <= 'z'
  }

  predicate IsAsciiUpper(c: char) {
    'A' <= c <= 'Z'
  }

  // ---------------------------------------------------------------------------
  // `reg_code_get`

  /** `[0-9A-Z]` under `re.IGNORECASE`: digits, the 52 ASCII letters and the
      four non-ASCII letters whose case mapping is an ASCII letter. */
  predicate RegCodeChar(c: char) {
    IsDigit(c) || IsAsciiLower(c) || IsAsciiUpper(c)
    || c == 'İ' || c == 'ı' || c == 'ſ' || c == 'K'
  }

  /** `[0-9A-F]` under `re.IGNORECASE`. */
  predicate HexChar(c: char) {
    IsDigit(c) || 'a' <= c <= 'f' || 'A' <= c <= 'F'
  }

  /** What the pattern `^[0-9A-Z]{12}@([0-9A-F]{4}-){3}[0-9A-F]{4}$` demands
      at position `i`. */
  predicate RegCodeCharAt(i: nat, c: char) {
    if i < 12 then RegCodeChar(c)
    else if i == 12 then c == '@'
    else if i == 17 || i == 22 || i == 27 then c == '-'
    else HexChar(c)
  }

  /** The pattern matched against a stripped answer, position by position
      (a stripped answer has no trailing newline for `$` to skip). */
  predicate IsRegCode(s: string) {
    |s| == 32 && forall i :: 0 <= i < 32 ==> RegCodeCharAt(i, s[i])
  }

  /** The parts of a registration code: twelve account characters and four
      groups of four hexadecimal digits. */
  predicate RegCodeParts(account: string, groups: seq<string>) {
    && |account| == 12 && (forall i :: 0 <= i < 12 ==> RegCodeChar(account[i]))
    && |groups| == 4
    && (forall k :: 0 <= k < 4 ==> |groups[k]| == 4)
    && (forall k, i :: 0 <= k < 4 && 0 <= i < |groups[k]| ==> HexChar(groups[k][i]))
  }

  /** `account@g0-g1-g2-g3` */
  function ComposeRegCode(account: string, groups: seq<string>): string
    requires |groups| == 4
  {
    account + "@" + groups[0] + "-" + groups[1] + "-" + groups[2] + "-" + groups[3]
  }

  /** Every code put together from valid parts is accepted. */
  lemma ComposedRegCodeAccepted(account: string, groups: seq<string>)
    requires RegCodeParts(account, groups)
    ensures IsRegCode(ComposeRegCode(account, groups))
  {
    var s := ComposeRegCode(account, groups);
    assert |s| == 32;
    forall i | 0 <= i < 32
      ensures RegCodeCharAt(i, s[i])
    {
      if i < 12 {
        assert s[i] == account[i];
      } else if i == 12 {
        assert s[i] == '@';
      } else if i < 17 {
        assert s[i] == groups[0][i - 13];
      } else if i == 17 {
        assert s[i] == '-';
      } else if i < 22 {
        assert s[i] == groups[1][i - 18];
      } else if i == 22 {
        assert s[i] == '-';
      } else if i < 27 {
        assert s[i] == groups[2][i - 23];
      } else if i == 27 {
        assert s[i] == '-';
      } else {
        assert s[i] == groups[3][i - 28];
      }
    }
  }

  /** Every accepted code is put together from valid parts. */
  lemma AcceptedRegCodeComposed(s: string)
    requires IsRegCode(s)
    ensures RegCodeParts(s[..12], [s[13..17], s[18..22], s[23..27], s[28..32]])
    ensures s == ComposeRegCode(s[..12], [s[13..17], s[18..22], s[23..27], s[28..32]])
  {
    var groups := [s[13..17], s[18..22], s[23..27], s[28..32]];
    assert forall i :: 0 <= i < 12 ==> RegCodeCharAt(i, s[i]);
    forall k, i | 0 <= k < 4 && 0 <= i < 4
      ensures HexChar(groups[k][i])
    {
      assert groups[k][i] == s[13 + 5 * k + i];
      assert RegCodeCharAt(13 + 5 * k + i, s[13 + 5 * k + i]);
    }
    assert RegCodeCharAt(12, s[12]) && RegCodeCharAt(17, s[17]) && RegCodeCharAt(22, s[22]) && RegCodeCharAt(27, s[27]);
    assert s == ComposeRegCode(s[..12], groups);
  }

  /** The prompt loops of the script: answers are read one after another
      until one is accepted. The index of that answer, or `None` when no
      answer is accepted. */
  method FirstAccepted(answers: seq<string>, accepts: string -> bool) returns (index: Option<nat>)
    ensures index.Some? ==> index.value < |answers| && accepts(answers[index.value])
    ensures forall j :: 0 <= j < |answers| && (index.None? || j < index.value) ==> !accepts(answers[j])
  {
    var i := 0;
    while i < |answers|
      invariant i <= |answers|
      invariant forall j :: 0 <= j < i ==> !accepts(answers[j])
    {
      if accepts(answers[i]) {
        return Some(i);
      }
      i := i + 1;
    }
    return None;
  }

  /** An answer `reg_code_get` accepts. */
  predicate RegCodeAnswer(answer: string) {
    IsRegCode(Strip(answer))
  }

  /** `reg_code_get`: the first answer that is a registration code once
      stripped, returned stripped. */
  method RegCodeGet(answers: seq<string>) returns (code: Option<string>)
    ensures code.Some? ==> exists i :: (0 <= i < |answers| && code.value == Strip(answers[i])
      && IsRegCode(code.value) && forall j :: 0 <= j < i ==> !IsRegCode(Strip(answers[j])))
    ensures code.None? <==> forall j :: 0 <= j < |answers| ==> !IsRegCode(Strip(answers[j]))
  {
    var index := FirstAccepted(answers, RegCodeAnswer);
    if index.None? {
      return None;
    }
    code := Some(Strip(answers[index.value]));
  }

  // ---------------------------------------------------------------------------
  // `int()` on a stripped answer

  /** Decimal digits of any script with single underscores between them, as
      `int()` allows. */
  predicate IsDigitRun(s: string) {
    && s != [] && IsDecimal(s[0]) && IsDecimal(s[|s| - 1])
    && (forall i :: 0 <= i < |s| ==> IsDecimal(s[i]) || s[i] == '_')
    && (forall i :: 0 <= i < |s| - 1 ==> s[i] == '_' ==> s[i + 1] != '_')
  }

  /** The value of the digits of `s`, underscores skipped. */
  function DigitsValue(s: string): nat
    decreases |s|
  {
    if s == [] then 0
    else
      var last := s[|s| - 1];
      if IsDecimal(last) then 10 * DigitsValue(s[..|s| - 1]) + DecimalValue(last)
      else DigitsValue(s[..|s| - 1])
  }

  /** Python's `int(s)` for a stripped text: an optional sign and a digit run.
      Any other text raises `ValueError`, which is `None` here. */
  function ParseInt(s: string): Option<int> {
    if s != [] && (s[0] == '+' || s[0] == '-') then
      var magnitude: int := DigitsValue(s[1..]);
      if IsDigitRun(s[1..]) then Some(if s[0] == '-' then -magnitude else magnitude) else None
    else if IsDigitRun(s) then Some(DigitsValue(s))
    else None
  }

  /** The decimal digits of `n`, most significant first (`str(n)`). */
  function NatToDigits(n: nat): (r: string)
    ensures r != [] && forall i :: 0 <= i < |r| ==> IsDigit(r[i])
    decreases n
  {
    var d := ['0' + (n % 10) as char];
    if n < 10 then d else NatToDigits(n / 10) + d
  }

  /** `str(n)` for an integer. */
  function IntToString(n: int): string {
    if n < 0 then "-" + NatToDigits(-n) else NatToDigits(n)
  }

  /** The digits of `n` read back as `n`. */
  lemma {:induction false} DigitsValueOfNat(n: nat)
    ensures DigitsValue(NatToDigits(n)) == n
    decreases n
  {
    var r := NatToDigits(n);
    AsciiDecimal(r[|r| - 1]);
    if n >= 10 {
      DigitsValueOfNat(n / 10);
      assert r[..|r| - 1] == NatToDigits(n / 10);
    }
  }

  /** What `str` prints `int` reads back. */
  lemma ParseIntToString(n: int)
    ensures ParseInt(IntToString(n)) == Some(n)
  {
    var m := if n < 0 then -n else n;
    DigitsValueOfNat(m);
    var d := NatToDigits(m);
    forall i | 0 <= i < |d|
      ensures IsDecimal(d[i])
    {
      AsciiDecimal(d[i]);
    }
    assert IsDigitRun(d);
    if n < 0 {
      assert IntToString(n)[1..] == d;
    }
  }

  // ---------------------------------------------------------------------------
  // `number_option_get`

  /** Python's `<=` on `str`: code points compared from the left, a prefix first. */
  predicate LexLe(a: string, b: string)
    decreases |a|
  {
    a == [] || (b != [] && (a[0] < b[0] || (a[0] == b[0] && LexLe(a[1..], b[1..]))))
  }

  /** Any two texts are ordered one way or the other. */
  lemma {:induction false} LexLeTotal(a: string, b: string)
    ensures LexLe(a, b) || LexLe(b, a)
    decreases |a|
  {
    if a != [] && b != [] && a[0] == b[0] {
      LexLeTotal(a[1..], b[1..]);
    }
  }

  /** Each option is at most the next one. */
  predicate Sorted(s: seq<string>) {
    forall i :: 0 <= i < |s| - 1 ==> LexLe(s[i], s[i + 1])
  }

  /** `x` put into a sorted list before the first entry it does not exceed. */
  function Insert(x: string, s: seq<string>): (r: seq<string>)
    requires Sorted(s)
    ensures Sorted(r) && multiset(r) == multiset(s) + multiset{x}
    ensures |r| == |s| + 1 && (r[0] == x || (s != [] && r[0] == s[0]))
  {
    if s == [] then [x]
    else if LexLe(x, s[0]) then [x] + s
    else
      LexLeTotal(x, s[0]);
      var rest := Insert(x, s[1..]);
      assert s == [s[0]] + s[1..];
      [s[0]] + rest
  }

  /** `options.sort()`: the same options in ascending order. */
  function SortOptions(options: seq<string>): (r: seq<string>)
    ensures Sorted(r) && multiset(r) == multiset(options)
  {
    if options == [] then []
    else
      assert options == options[..|options| - 1] + [options[|options| - 1]];
      Insert(options[|options| - 1], SortOptions(options[..|options| - 1]))
  }

  /** What one answer selects from the sorted options: `options[s - 1]` for
      `1 <= s <= len(options)`; zero, negative and non-numeric answers raise
      and too large ones fall off the end of the list. */
  function SelectOption(sorted: seq<string>, answer: string): (r: Option<string>)
    ensures r.Some? ==> r.value in sorted
  {
    match ParseInt(Strip(answer))
    case None => None
    case Some(n) => if 0 < n <= |sorted| then Some(sorted[n - 1]) else None
  }

  /** Typing the number `n` selects the `n`-th option exactly when it is one of
      the numbers shown. */
  lemma SelectByNumber(sorted: seq<string>, n: int)
    ensures SelectOption(sorted, IntToString(n)) == if 1 <= n <= |sorted| then Some(sorted[n - 1]) else None
  {
    ParseIntToString(n);
    var s := IntToString(n);
    assert s[0] != ' ' && s[|s| - 1] != ' ' by {
      assert s[0] == '-' || IsDigit(s[0]);
    }
    assert !IsSpace(s[0]) && !IsSpace(s[|s| - 1]);
    StripOfStripped(s);
    assert ParseInt(Strip(s)) == Some(n);
  }

  /** A single digit of any script is read by `int()` as its value, so it
      selects the option of that number; `"\U{661}"` (ARABIC-INDIC DIGIT ONE)
      selects the first option. */
  lemma SelectBySingleDigit(sorted: seq<string>, c: char)
    requires IsDecimal(c)
    ensures SelectOption(sorted, [c]) ==
      if 1 <= DecimalValue(c) <= |sorted| then Some(sorted[DecimalValue(c) - 1]) else None
    ensures sorted != [] ==> SelectOption(sorted, "\U{661}") == Some(sorted[0])
  {
    SingleDigitParses(c);
    assert ParseInt(Strip([c])) == Some(DecimalValue(c));
    ArabicIndicOne();
    SingleDigitParses('\U{661}');
    assert "\U{661}" == ['\U{661}'];
    assert ParseInt(Strip("\U{661}")) == Some(1);
  }

  /** `int()` of one digit of any script is its value. */
  lemma SingleDigitParses(c: char)
    requires IsDecimal(c)
    ensures ParseInt(Strip([c])) == Some(DecimalValue(c))
  {
    DecimalNotSpace(c);
    StripOfStripped([c]);
    AsciiDecimal('+');
    AsciiDecimal('-');
    assert [c][..0] == [];
    assert IsDigitRun([c]);
    assert DigitsValue([c]) == DecimalValue(c);
  }

  /** `number_option_get`: the options sorted, then what the first answer
      that selects one of them selects. */
  method NumberOptionGet(options: seq<string>, answers: seq<string>) returns (sorted: seq<string>, choice: Option<string>)
    ensures Sorted(sorted) && multiset(sorted) == multiset(options)
    ensures choice.Some? ==> exists i :: (0 <= i < |answers| && choice == SelectOption(sorted, answers[i])
      && forall j :: 0 <= j < i ==> SelectOption(sorted, answers[j]).None?)
    ensures choice.None? <==> forall j :: 0 <= j < |answers| ==> SelectOption(sorted, answers[j]).None?
  {
    sorted := SortOptions(options);
    var index := FirstAccepted(answers, answer => SelectOption(sorted, answer).Some?);
    if index.None? {
      return sorted, None;
    }
    choice := SelectOption(sorted, answers[index.value]);
  }

  // ---------------------------------------------------------------------------
  // `ad_password_validate`

  /** The separators of `re.split("[—,.\-\_#\s\t]", username)`. */
  predicate IsNameSeparator(c: char) {
    c == '—' || c == ',' || c == '.' || c == '-' || c == '_' || c == '#' || IsSpace(c)
  }

  /** The parts of the user name that a password must not contain. */
  function UsernameParts(username: string): seq<string> {
    SplitWhere(username, IsNameSeparator)
  }

  /** A part of at least three characters occurs in the password, ignoring
      the case of ASCII letters. */
  predicate MentionsUsername(password: string, username: string) {
    exists i :: 0 <= i < |UsernameParts(username)| && |UsernameParts(username)[i]| >= 3
      && Contains(Lower(password), Lower(UsernameParts(username)[i]))
  }

  predicate HasLower(p: string) {
    exists i :: 0 <= i < |p| && IsAsciiLower(p[i])
  }

  predicate HasUpper(p: string) {
    exists i :: 0 <= i < |p| && IsAsciiUpper(p[i])
  }

  /** `re.search(r"\d", p)`: a decimal digit of any script. */
  predicate HasDigit(p: string) {
    exists i :: 0 <= i < |p| && IsDecimal(p[i])
  }

  predicate IsSpecial(c: char) {
    c in "@$!%*#?&"
  }

  predicate HasSpecial(p: string) {
    exists i :: 0 <= i < |p| && IsSpecial(p[i])
  }

  /** A character the `repr` of the password's UTF-8 bytes does not show as
      itself: a quote (escaped, or the quotes switch), a backslash, a control
      character, DEL, and every non-ASCII character (its bytes print as `\x..`). */
  predicate ReprEscapes(c: char) {
    c == '\'' || c == '\\' || c < ' ' || c >= '\U{7F}'
  }

  /** The "unicode" test: `f"b'{password}'" != f"{password.encode('utf-8')}"`. */
  predicate ReprDiffers(p: string) {
    exists i :: 0 <= i < |p| && ReprEscapes(p[i])
  }

  /** The four pattern tests, in the order the source runs them. */
  function PatternChecks(): seq<string -> bool> {
    [HasLower, HasUpper, HasDigit, HasSpecial]
  }

  /** How many of `checks` the password passes. */
  function Passed(checks: seq<string -> bool>, p: string): (n: nat)
    ensures n <= |checks|
  {
    if checks == [] then 0
    else Passed(checks[..|checks| - 1], p) + if checks[|checks| - 1](p) then 1 else 0
  }

  /** The number of categories a password has. */
  function CategoryCount(p: string): (n: nat)
    ensures n <= 5
  {
    Passed(PatternChecks(), p) + if ReprDiffers(p) then 1 else 0
  }

  /** The password rule: no part of the user name, at least seven characters
      and at least three categories. */
  predicate PasswordAcceptable(password: string, username: string) {
    !MentionsUsername(password, username) && |password| >= 7 && CategoryCount(password) > 2
  }

  /** Lower case, upper case and digits make three categories: a password of
      seven or more characters with all three is accepted unless it contains
      a part of the user name. */
  lemma CategoriesDecide(password: string, username: string)
    requires !MentionsUsername(password, username) && |password| >= 7
    requires HasLower(password) && HasUpper(password) && HasDigit(password)
    ensures PasswordAcceptable(password, username)
  {
    var cs := PatternChecks();
    assert cs[..3] == [HasLower, HasUpper, HasDigit];
    assert cs[..3][..2] == [HasLower, HasUpper];
    assert cs[..3][..2][..1] == [HasLower];
    assert cs[..3][..2][..1][..0] == [];
    assert Passed([HasLower], password) == 1;
    assert Passed([HasLower, HasUpper], password) == 2;
    assert Passed(cs[..3], password) == 3;
  }

  /** Lower case, a digit and an escaped character, without upper case or a
      special character, make three categories. */
  lemma ThreeCategories(p: string)
    requires HasLower(p) && !HasUpper(p) && HasDigit(p) && !HasSpecial(p) && ReprDiffers(p)
    ensures CategoryCount(p) == 3
  {
    var cs := PatternChecks();
    assert cs[..3][..2][..1][..0] == [];
    assert cs[..3][..2][..1] == [HasLower];
    assert cs[..3][..2] == [HasLower, HasUpper];
    assert cs[..3] == [HasLower, HasUpper, HasDigit];
    assert cs[..4] == cs;
    assert Passed([HasLower], p) == 1;
    assert Passed([HasLower, HasUpper], p) == 1;
    assert Passed(cs[..3], p) == 2;
  }

  /** A digit of another script counts as a digit: `"abcdefg\U{661}"` has
      lower case, a digit and a character its bytes `repr` escapes, so it is
      accepted for the user `x`. */
  lemma OtherScriptDigitCounts(p: string)
    requires p == "abcdefg\U{661}"
    ensures CategoryCount(p) == 3
    ensures PasswordAcceptable(p, "x")
  {
    LowerThenOtherDigit(p);
    ThreeCategories(p);
    assert !IsNameSeparator("x"[0]);
    SplitWhereNone("x", IsNameSeparator);
  }

  /** The categories a password of seven lower-case letters and
      ARABIC-INDIC DIGIT ONE passes. */
  lemma LowerThenOtherDigit(p: string)
    requires |p| == 8 && (forall i :: 0 <= i < 7 ==> IsAsciiLower(p[i])) && p[7] == '\U{661}'
    ensures HasLower(p) && !HasUpper(p) && HasDigit(p) && !HasSpecial(p) && ReprDiffers(p)
  {
    assert IsAsciiLower(p[0]);
    ArabicIndicOne();
    assert IsDecimal(p[7]);
    assert ReprEscapes(p[7]);
  }

  /** `ad_password_validate` */
  method AdPasswordValidate(password: string, username: string) returns (ok: bool)
    ensures ok == PasswordAcceptable(password, username)
  {
    var usernameParsed := UsernameParts(username);
    var k := 0;
    while k < |usernameParsed|
      invariant k <= |usernameParsed|
      invariant forall i :: 0 <= i < k && |usernameParsed[i]| >= 3 ==> !Contains(Lower(password), Lower(usernameParsed[i]))
    {
      var u := usernameParsed[k];
      if |u| >= 3 && Contains(Lower(password), Lower(u)) {
        return false;
      }
      k := k + 1;
    }
    if |password| < 7 {
      return false;
    }
    var count := 0;
    var checks := PatternChecks();
    var c := 0;
    while c < |checks|
      invariant c <= |checks|
      invariant count == Passed(checks[..c], password)
    {
      assert checks[..c + 1][..c] == checks[..c];
      if checks[c](password) {
        count := count + 1;
      }
      c := c + 1;
    }
    assert checks[..c] == checks;
    if ReprDiffers(password) {
      count := count + 1;
    }
    return count > 2;
  }
}
