/** The user CSV generator: a header line, then one line per generated
    person with the first name, the last name, a user name made of the first
    name's initial and the last name in lower case, and a random password of
    letters, digits and punctuation other than the comma. The names the
    `names` package draws and the characters `random.choice` picks are
    inputs: a full name per line and the alphabet positions of the password. */
module GenerateNames {
  import opened Wrappers
  import opened Text
  import opened Http

  /** The characters from `lo` on, `n` of them. */
  function CharRun(lo: char, n: nat): (r: string)
    requires lo as int + n <= 0xD800
    ensures |r| == n
  {
    seq(n, i requires 0 <= i < n => (lo as int + i) as char)
  }

  /** A run holds exactly the characters of its range. */
  lemma CharRunMembers(lo: char, n: nat)
    requires lo as int + n <= 0xD800
    ensures forall c :: c in CharRun(lo, n) <==> lo as int <= c as int < lo as int + n
  {
    var r := CharRun(lo, n);
    forall c | lo as int <= c as int < lo as int + n ensures c in r {
      assert r[c as int - lo as int] == c;
    }
  }

  /** `string.ascii_letters`: `a` to `z`, then `A` to `Z`. */
  const AsciiLetters: string := CharRun('a', 26) + CharRun('A', 26)

  /** `string.digits` */
  const AsciiDigits: string := CharRun('0', 10)

  /** `string.punctuation` without the comma: ``!"#$%&'()*+-./:;<=>?@[\]^_`{|}~``,
      the printable ASCII characters that are neither letters nor digits. */
  const PunctNoComma: string :=
    CharRun('!', 11) + CharRun('-', 3) + CharRun(':', 7) + CharRun('[', 6) + CharRun('{', 4)

  /** The alphabet passwords are drawn from. */
  const PasswordAlphabet: string := AsciiLetters + AsciiDigits + PunctNoComma

  /** The characters `randomStr` can choose from: the printable ASCII
      characters other than the space and the comma. */
  predicate IsPasswordChar(c: char) {
    '!' <= c <= '~' && c != ','
  }

  /** The alphabet is exactly the printable ASCII characters other than the
      space and the comma: 93 of them. */
  lemma PasswordAlphabetChars()
    ensures |PasswordAlphabet| == 93
    ensures forall c :: c in PasswordAlphabet <==> IsPasswordChar(c)
  {
    CharRunMembers('a', 26);
    CharRunMembers('A', 26);
    CharRunMembers('0', 10);
    CharRunMembers('!', 11);
    CharRunMembers('-', 3);
    CharRunMembers(':', 7);
    CharRunMembers('[', 6);
    CharRunMembers('{', 4);
  }

  /** The default `length` of `randomStr`. */
  const DefaultLength: nat := 12

  /** The columns the header names. */
  const HeaderColumns: seq<string> := ["firstname", "lastname", "username", "password", "isadmin"]

  /** `"firstname,lastname,username,password,isadmin"` */
  const Header: string := JoinWith(HeaderColumns, ",")

  /** `randomStr(len(picks))`: the character `random.choice` makes for
      each draw, a position in the alphabet taken modulo its length. Every
      character is one of the alphabet's, so never a comma. */
  function RandomStr(picks: seq<nat>): (r: string)
    ensures |r| == |picks|
    ensures forall i :: 0 <= i < |r| ==> IsPasswordChar(r[i])
    ensures ',' !in r
  {
    PasswordAlphabetChars();
    var r := seq(|picks|, i requires 0 <= i < |picks| => PasswordAlphabet[picks[i] % |PasswordAlphabet|]);
    assert forall i :: 0 <= i < |r| ==> r[i] in PasswordAlphabet;
    r
  }

  /** The non-empty pieces of a list, in order. */
  function NonEmpty(parts: seq<string>): (r: seq<string>)
    ensures forall i :: 0 <= i < |r| ==> r[i] != []
    ensures forall x :: x in r ==> x in parts
  {
    if parts == [] then [] else (if parts[0] == [] then [] else [parts[0]]) + NonEmpty(parts[1..])
  }

  /** `s.split()`: the runs of non-blank characters. */
  function Words(s: string): (w: seq<string>)
    ensures forall i :: 0 <= i < |w| ==> w[i] != []
  {
    NonEmpty(SplitWhere(s, IsSpace))
  }

  /** The words hold only characters of the text. */
  lemma WordsAvoid(s: string, c: char)
    requires c !in s
    ensures forall i :: 0 <= i < |Words(s)| ==> c !in Words(s)[i]
  {
    var parts := SplitWhere(s, IsSpace);
    SplitWhereAvoids(s, IsSpace, c);
    forall i | 0 <= i < |Words(s)| ensures c !in Words(s)[i] {
      assert Words(s)[i] in parts;
      var j :| 0 <= j < |parts| && parts[j] == Words(s)[i];
    }
  }

  /** A full name `First Last` gives the two names. */
  lemma WordsOfFullName(first: string, last: string)
    requires first != [] && last != []
    requires forall j :: 0 <= j < |first| ==> !IsSpace(first[j])
    requires forall j :: 0 <= j < |last| ==> !IsSpace(last[j])
    ensures Words(first + " " + last) == [first, last]
  {
    SplitWhereAfterPiece(first, ' ', last, IsSpace);
    SplitWhereNone(last, IsSpace);
    assert SplitWhere(first + " " + last, IsSpace) == [first, last];
    assert [first, last][1..] == [last] && [last][1..] == [];
    assert NonEmpty([last]) == [last];
  }

  /** One line of the loop: `name[0]` and `name[1]` raise `IndexError` for a
      name of fewer than two words. */
  function CsvLine(fullName: string, picks: seq<nat>): (line: Result<string, Error>)
    ensures line.Success? <==> |Words(fullName)| >= 2
    ensures line.Failure? ==> line.error == IndexError
  {
    var name := Words(fullName);
    if |name| < 2 then Failure(IndexError)
    else
      var username := [name[0][0]] + name[1];
      Success(name[0] + "," + name[1] + "," + Lower(username) + "," + RandomStr(picks))
  }

  /** A generated line has four comma-separated fields: the first name, the
      last name, the lower-cased initial and last name, and the password. */
  lemma CsvLineFields(fullName: string, picks: seq<nat>)
    requires ',' !in fullName
    requires CsvLine(fullName, picks).Success?
    ensures var name := Words(fullName);
      Split(CsvLine(fullName, picks).value, ',') ==
        [name[0], name[1], Lower([name[0][0]] + name[1]), RandomStr(picks)]
  {
    var name := Words(fullName);
    WordsAvoid(fullName, ',');
    var username := Lower([name[0][0]] + name[1]);
    assert ',' !in username by {
      assert ',' !in [name[0][0]] + name[1];
    }
    var fields := [name[0], name[1], username, RandomStr(picks)];
    assert JoinWith(fields, ",") == name[0] + "," + name[1] + "," + username + "," + RandomStr(picks) by {
      assert JoinWith(fields[3..], ",") == RandomStr(picks);
      assert JoinWith(fields[2..], ",") == username + "," + RandomStr(picks);
      assert JoinWith(fields[1..], ",") == name[1] + "," + username + "," + RandomStr(picks);
    }
    JoinSplit(fields, ',');
  }

  /** The header names five columns. */
  lemma HeaderFields()
    ensures Split(Header, ',') == ["firstname", "lastname", "username", "password", "isadmin"]
    ensures |Split(Header, ',')| == 5
  {
    forall i | 0 <= i < |HeaderColumns| ensures ',' !in HeaderColumns[i] {
      assert forall j :: 0 <= j < |HeaderColumns[i]| ==> 'a' <= HeaderColumns[i][j] <= 'z';
    }
    JoinSplit(HeaderColumns, ',');
  }

  /** `len(range(n))`: a negative count runs the loop no time. */
  function Iterations(n: int): (k: nat)
    ensures n >= 0 ==> k == n
    ensures n < 0 ==> k == 0
  {
    if n < 0 then 0 else n
  }

  /** `main`: prints the header, then a line per person; a name of fewer
      than two words ends the run with `IndexError` after the lines already
      printed. `argparse` reads the count with `int`, so it may be negative,
      and then only the header is printed. */
  method GenerateCsv(n: int, fullNames: seq<string>, picks: seq<seq<nat>>)
    returns (printed: seq<string>, err: Option<Error>)
    requires |fullNames| == Iterations(n) && |picks| == Iterations(n)
    requires forall i :: 0 <= i < |picks| ==> |picks[i]| == DefaultLength
    ensures 1 <= |printed| <= Iterations(n) + 1 && printed[0] == Header
    ensures forall k :: 0 <= k < |printed| - 1 ==> CsvLine(fullNames[k], picks[k]) == Success(printed[k + 1])
    ensures err.None? <==> |printed| == Iterations(n) + 1
    ensures err.Some? ==> err.value == IndexError && CsvLine(fullNames[|printed| - 1], picks[|printed| - 1]).Failure?
    ensures n <= 0 ==> printed == [Header] && err.None?
  {
    printed := [Header];
    var count := Iterations(n);
    var i := 0;
    while i < count
      invariant 0 <= i <= count
      invariant |printed| == i + 1 && printed[0] == Header
      invariant forall k :: 0 <= k < i ==> CsvLine(fullNames[k], picks[k]) == Success(printed[k + 1])
    {
      var line := CsvLine(fullNames[i], picks[i]);
      if line.Failure? {
        return printed, Some(line.error);
      }
      printed := printed + [line.value];
      i := i + 1;
    }
    err := None;
  }
}
