/** Python string operations used by the scripts, stated over `seq<char>`:
    `str.strip`, `in`, `str.split`, `str.replace(x, "")`, `str.rpartition`,
    `str.ljust`, `str.lower` and `''.join`. */
module Text {
  import opened Wrappers

  /** The characters for which Python's `str.isspace()` holds; these are what
      `str.strip()`, `str.split()` and the regular-expression class `\s` use. */
  predicate IsSpace(c: char) {
    || c == ' '
    || ('\t' <= c <= '\r')
    || ('\U{1C}' <= c <= '\U{1F}')
    || c == '\U{85}' || c == '\U{A0}' || c == '\U{1680}'
    || ('\U{2000}' <= c <= '\U{200A}')
    || c == '\U{2028}' || c == '\U{2029}' || c == '\U{202F}' || c == '\U{205F}' || c == '\U{3000}'
  }

  /** An ASCII decimal digit. */
  predicate IsDigit(c: char) {
    '0' <= c <= '9'
  }

  /** The number of blocks of the Unicode category Nd (decimal digits) in
      Unicode 15.0. */
  const DecimalBlocks: nat := 68

  /** The code point of the digit zero of block `k`, the blocks in ascending
      order. Each block holds the digits zero to nine at consecutive code
      points. */
  function DecimalZero(k: nat): int
    requires k < DecimalBlocks
  {
    match k
    case 0 => 0x30 case 1 => 0x660 case 2 => 0x6F0 case 3 => 0x7C0 case 4 => 0x966
    case 5 => 0x9E6 case 6 => 0xA66 case 7 => 0xAE6 case 8 => 0xB66 case 9 => 0xBE6
    case 10 => 0xC66 case 11 => 0xCE6 case 12 => 0xD66 case 13 => 0xDE6 case 14 => 0xE50
    case 15 => 0xED0 case 16 => 0xF20 case 17 => 0x1040 case 18 => 0x1090 case 19 => 0x17E0
    case 20 => 0x1810 case 21 => 0x1946 case 22 => 0x19D0 case 23 => 0x1A80 case 24 => 0x1A90
    case 25 => 0x1B50 case 26 => 0x1BB0 case 27 => 0x1C40 case 28 => 0x1C50 case 29 => 0xA620
    case 30 => 0xA8D0 case 31 => 0xA900 case 32 => 0xA9D0 case 33 => 0xA9F0 case 34 => 0xAA50
    case 35 => 0xABF0 case 36 => 0xFF10 case 37 => 0x104A0 case 38 => 0x10D30 case 39 => 0x11066
    case 40 => 0x110F0 case 41 => 0x11136 case 42 => 0x111D0 case 43 => 0x112F0 case 44 => 0x11450
    case 45 => 0x114D0 case 46 => 0x11650 case 47 => 0x116C0 case 48 => 0x11730 case 49 => 0x118E0
    case 50 => 0x11950 case 51 => 0x11C50 case 52 => 0x11D50 case 53 => 0x11DA0 case 54 => 0x11F50
    case 55 => 0x16A60 case 56 => 0x16AC0 case 57 => 0x16B50 case 58 => 0x1D7CE case 59 => 0x1D7D8
    case 60 => 0x1D7E2 case 61 => 0x1D7EC case 62 => 0x1D7F6 case 63 => 0x1E140 case 64 => 0x1E2F0
    case 65 => 0x1E4F0 case 66 => 0x1E950 case 67 => 0x1FBF0
    case _ => 0x1FBF0
  }

  /** The blocks follow one another without overlapping. */
  lemma DecimalBlocksAscend()
    ensures forall k :: 0 <= k < DecimalBlocks - 1 ==> DecimalZero(k) + 10 <= DecimalZero(k + 1)
  {
    LowerBlocksAscend();
    UpperBlocksAscend();
    TopBlocksAscend();
    LastBlocksAscend();
  }

  /** The first half of the blocks of `DecimalBlocksAscend`. */
  lemma LowerBlocksAscend()
    ensures forall k :: 0 <= k < 34 ==> DecimalZero(k) + 10 <= DecimalZero(k + 1)
  {
  }

  /** The blocks 34 to 50 of `DecimalBlocksAscend`. */
  lemma UpperBlocksAscend()
    ensures forall k :: 34 <= k < 51 ==> DecimalZero(k) + 10 <= DecimalZero(k + 1)
  {
  }

  /** The blocks 51 to 59 of `DecimalBlocksAscend`. */
  lemma TopBlocksAscend()
    ensures forall k :: 51 <= k < 60 ==> DecimalZero(k) + 10 <= DecimalZero(k + 1)
  {
  }

  /** The last blocks of `DecimalBlocksAscend`. */
  lemma LastBlocksAscend()
    ensures forall k :: 60 <= k < DecimalBlocks - 1 ==> DecimalZero(k) + 10 <= DecimalZero(k + 1)
  {
  }

  /** Character `c` is one of the ten digits of block `k`. */
  predicate InBlock(c: char, k: nat)
    requires k < DecimalBlocks
  {
    DecimalZero(k) <= c as int < DecimalZero(k) + 10
  }

  /** The digit value of `c` in blocks `k` onwards, or -1 when it is in none
      of them. */
  function DecimalFrom(c: char, k: nat): (v: int)
    requires k <= DecimalBlocks
    ensures -1 <= v <= 9
    decreases DecimalBlocks - k
  {
    if k == DecimalBlocks || c as int < DecimalZero(k) then -1
    else if c as int < DecimalZero(k) + 10 then c as int - DecimalZero(k)
    else DecimalFrom(c, k + 1)
  }

  /** A value the scan finds comes from a block it passed. */
  lemma {:induction false} DecimalFromSound(c: char, k: nat)
    requires k <= DecimalBlocks
    ensures DecimalFrom(c, k) >= 0 ==>
      exists j :: k <= j < DecimalBlocks && InBlock(c, j) && DecimalFrom(c, k) == c as int - DecimalZero(j)
    decreases DecimalBlocks - k
  {
    if k < DecimalBlocks && DecimalZero(k) + 10 <= c as int {
      DecimalFromSound(c, k + 1);
    }
  }

  /** Blocks further on start at least ten code points later per step. */
  lemma {:induction false} AscendFrom(i: nat, k: nat)
    requires i < k < DecimalBlocks
    ensures DecimalZero(i) + 10 <= DecimalZero(k)
    decreases k - i
  {
    DecimalBlocksAscend();
    if i + 1 < k {
      AscendFrom(i + 1, k);
    }
  }

  /** Every code point of a later block gets its value from the scan. */
  lemma {:induction false} DecimalFromComplete(c: char, k: nat, j: nat)
    requires k <= j < DecimalBlocks && InBlock(c, j)
    ensures DecimalFrom(c, k) == c as int - DecimalZero(j)
    decreases j - k
  {
    if k < j {
      AscendFrom(k, j);
      DecimalFromComplete(c, k + 1, j);
    }
  }

  /** `unicodedata.decimal(c, -1)`: the value of a decimal digit of any
      script, -1 for every other character. This is the digit set of `\d`
      in a `str` pattern and of the digits `int()` reads. */
  function DecimalValue(c: char): int {
    DecimalFrom(c, 0)
  }

  /** A character of the Unicode category Nd. */
  predicate IsDecimal(c: char) {
    DecimalValue(c) >= 0
  }

  /** A character is a decimal digit exactly when it lies in one of the
      blocks, and its value is its distance from that block's zero. */
  lemma DecimalValueBlocks(c: char)
    ensures IsDecimal(c) <==> exists k :: 0 <= k < DecimalBlocks && InBlock(c, k)
    ensures forall k :: 0 <= k < DecimalBlocks && InBlock(c, k) ==> DecimalValue(c) == c as int - DecimalZero(k)
  {
    DecimalFromSound(c, 0);
    forall k | 0 <= k < DecimalBlocks && InBlock(c, k)
      ensures DecimalValue(c) == c as int - DecimalZero(k)
    {
      DecimalFromComplete(c, 0, k);
    }
  }

  /** No decimal digit is white space. */
  lemma DecimalNotSpace(c: char)
    requires IsDecimal(c)
    ensures !IsSpace(c)
  {
    DecimalValueBlocks(c);
    var k :| 0 <= k < DecimalBlocks && InBlock(c, k);
    ZeroRanges(k);
  }

  /** Where the zeros lie between the white-space characters. */
  lemma ZeroRanges(k: nat)
    requires k < DecimalBlocks
    ensures k == 0 ==> DecimalZero(k) == 0x30
    ensures 1 <= k <= 18 ==> 0x660 <= DecimalZero(k) <= 0x1090
    ensures 19 <= k <= 28 ==> 0x17E0 <= DecimalZero(k) <= 0x1C50
    ensures 29 <= k ==> 0xA620 <= DecimalZero(k)
  {
  }

  /** ARABIC-INDIC DIGIT ONE is the digit one. */
  lemma ArabicIndicOne()
    ensures IsDecimal('\U{661}') && DecimalValue('\U{661}') == 1
  {
    assert DecimalFrom('\U{661}', 2) == -1;
  }

  /** Below the second block, the decimal digits are the ASCII ones, with
      their usual values. */
  lemma AsciiDecimal(c: char)
    requires c < '\U{660}'
    ensures DecimalValue(c) == if IsDigit(c) then c as int - '0' as int else -1
  {
  }

  /** True when `s` neither starts nor ends with white space. */
  predicate IsStripped(s: string) {
    s == [] || (!IsSpace(s[0]) && !IsSpace(s[|s| - 1]))
  }

  /** `str.lstrip()`: the longest suffix of `s` that does not start with white space. */
  function TrimLeft(s: string): (r: string)
    ensures |r| <= |s| && r == s[|s| - |r|..]
    ensures forall i :: 0 <= i < |s| - |r| ==> IsSpace(s[i])
    ensures r == [] || !IsSpace(r[0])
  {
    if s != [] && IsSpace(s[0]) then
      var r := TrimLeft(s[1..]);
      assert s[1..][|s| - 1 - |r|..] == s[|s| - |r|..];
      assert forall i :: 1 <= i < |s| - |r| ==> s[i] == s[1..][i - 1];
      r
    else s
  }

  /** `str.rstrip()`: the longest prefix of `s` that does not end with white space. */
  function TrimRight(s: string): (r: string)
    ensures |r| <= |s| && r == s[..|r|]
    ensures forall i :: |r| <= i < |s| ==> IsSpace(s[i])
    ensures r == [] || !IsSpace(r[|r| - 1])
  {
    if s != [] && IsSpace(s[|s| - 1]) then TrimRight(s[..|s| - 1]) else s
  }

  /** `str.strip()`. */
  function Strip(s: string): (r: string)
    ensures IsStripped(r)
    ensures |r| <= |s|
  {
    var t := TrimLeft(s);
    var r := TrimRight(t);
    assert r != [] ==> r[0] == t[0];
    r
  }

  /** `Strip` keeps a contiguous part of its input. */
  lemma StripChars(s: string)
    ensures forall c :: c in Strip(s) ==> c in s
  {
    var l := TrimLeft(s);
    var r := TrimRight(l);
    assert Strip(s) == r;
    forall c | c in r ensures c in s {
      var j :| 0 <= j < |r| && r[j] == c;
      assert r[j] == l[j];
      assert l[j] == s[|s| - |l| + j];
    }
  }

  /** Stripping a string that has no surrounding white space changes nothing. */
  lemma StripOfStripped(s: string)
    requires IsStripped(s)
    ensures Strip(s) == s
  {
  }

  /** Stripping is idempotent. */
  lemma StripIdempotent(s: string)
    ensures Strip(Strip(s)) == Strip(s)
  {
    StripOfStripped(Strip(s));
  }

  /** Leading white space in front of a stripped text is removed by `Strip`. */
  lemma {:induction false} StripAfterSpaces(pad: string, s: string)
    requires forall i :: 0 <= i < |pad| ==> IsSpace(pad[i])
    requires IsStripped(s) && s != []
    ensures Strip(pad + s) == s
  {
    if pad == [] {
      assert pad + s == s;
    } else {
      assert (pad + s)[1..] == pad[1..] + s;
      StripAfterSpaces(pad[1..], s);
    }
  }

  /** `not line or line[0] in ("#")` on a stripped line: blank or a comment. */
  predicate IsBlankOrComment(s: string) {
    s == [] || s[0] == '#'
  }

  /** Python's `sub in s`. */
  predicate Contains(s: string, sub: string)
    decreases |s|
  {
    sub <= s || (s != [] && Contains(s[1..], sub))
  }

  /** An occurrence at a known index means `sub in s`. */
  lemma {:induction false} ContainsAt(s: string, sub: string, i: nat)
    requires i + |sub| <= |s| && s[i..i + |sub|] == sub
    ensures Contains(s, sub)
  {
    if i == 0 {
      assert sub <= s;
    } else {
      assert s[1..][i - 1..i - 1 + |sub|] == s[i..i + |sub|];
      ContainsAt(s[1..], sub, i - 1);
    }
  }

  /** `sub in s` means there is an index where `sub` occurs. */
  lemma {:induction false} ContainsIndex(s: string, sub: string) returns (i: nat)
    requires Contains(s, sub)
    ensures i + |sub| <= |s| && s[i..i + |sub|] == sub
  {
    if sub <= s {
      i := 0;
    } else {
      var j := ContainsIndex(s[1..], sub);
      assert s[1..][j..j + |sub|] == s[j + 1..j + 1 + |sub|];
      i := j + 1;
    }
  }

  /** A text occurring in a slice of `s` occurs in `s`. */
  lemma ContainsInSlice(s: string, lo: nat, hi: nat, sub: string)
    requires lo <= hi <= |s| && Contains(s[lo..hi], sub)
    ensures Contains(s, sub)
  {
    var i := ContainsIndex(s[lo..hi], sub);
    assert |s[lo..hi]| == hi - lo;
    forall k | 0 <= k < |sub| ensures s[lo + i + k] == sub[k] {
      assert s[lo..hi][i..i + |sub|][k] == s[lo..hi][i + k];
    }
    assert s[lo + i..lo + i + |sub|] == sub;
    ContainsAt(s, sub, lo + i);
  }

  /** The first index of `c` in `s` (`str.find` for one character). */
  function IndexOf(s: string, c: char): (r: Option<nat>)
    ensures r.None? <==> c !in s
    ensures r.Some? ==> r.value < |s| && s[r.value] == c && c !in s[..r.value]
  {
    if s == [] then None
    else if s[0] == c then Some(0)
    else
      var t := IndexOf(s[1..], c);
      if t.None? then None
      else
        assert s[..t.value + 1] == [s[0]] + s[1..][..t.value];
        Some(t.value + 1)
  }

  /** The first occurrence of `c` is the one `IndexOf` finds. */
  lemma {:induction false} IndexOfFirst(s: string, c: char, i: nat)
    requires i < |s| && s[i] == c && c !in s[..i]
    ensures IndexOf(s, c) == Some(i)
  {
    if i > 0 {
      assert s[..i][0] == s[0];
      assert s[1..][..i - 1] == s[..i][1..];
      IndexOfFirst(s[1..], c, i - 1);
    }
  }

  /** Number of characters of `s` for which `p` holds. */
  function CountWhere(s: string, p: char -> bool): nat
  {
    if s == [] then 0 else (if p(s[0]) then 1 else 0) + CountWhere(s[1..], p)
  }

  /** Python's `re.split` on a one-character class, and `str.split(c)` when the
      class is a single character: the pieces between delimiters, empty ones
      included, so there is always one more piece than there are delimiters. */
  function SplitWhere(s: string, isDelim: char -> bool): (parts: seq<string>)
    ensures |parts| == CountWhere(s, isDelim) + 1
    ensures forall i, j :: 0 <= i < |parts| && 0 <= j < |parts[i]| ==> !isDelim(parts[i][j])
  {
    if s == [] then [[]]
    else
      var rest := SplitWhere(s[1..], isDelim);
      if isDelim(s[0]) then [[]] + rest
      else
        var parts := [[s[0]] + rest[0]] + rest[1..];
        assert forall i :: 1 <= i < |parts| ==> parts[i] == rest[i];
        parts
  }

  /** Text without a delimiter is one piece. */
  lemma {:induction false} SplitWhereNone(s: string, isDelim: char -> bool)
    requires forall j :: 0 <= j < |s| ==> !isDelim(s[j])
    ensures SplitWhere(s, isDelim) == [s]
  {
    if s != [] {
      SplitWhereNone(s[1..], isDelim);
      assert [s[0]] + s[1..] == s;
    }
  }

  /** Splitting text that starts with a piece and a delimiter gives that
      piece first. */
  lemma {:induction false} SplitWhereAfterPiece(p: string, d: char, t: string, isDelim: char -> bool)
    requires forall j :: 0 <= j < |p| ==> !isDelim(p[j])
    requires isDelim(d)
    ensures SplitWhere(p + [d] + t, isDelim) == [p] + SplitWhere(t, isDelim)
  {
    var s := p + [d] + t;
    if p == [] {
      assert s[1..] == t;
    } else {
      assert s[1..] == p[1..] + [d] + t;
      SplitWhereAfterPiece(p[1..], d, t, isDelim);
      assert [s[0]] + p[1..] == p;
    }
  }

  /** A character absent from the text is absent from every piece. */
  lemma {:induction false} SplitWhereAvoids(s: string, isDelim: char -> bool, c: char)
    requires c !in s
    ensures forall i :: 0 <= i < |SplitWhere(s, isDelim)| ==> c !in SplitWhere(s, isDelim)[i]
  {
    if s != [] {
      SplitWhereAvoids(s[1..], isDelim, c);
      var rest := SplitWhere(s[1..], isDelim);
      if !isDelim(s[0]) {
        var parts := SplitWhere(s, isDelim);
        assert parts[0] == [s[0]] + rest[0];
        forall i | 1 <= i < |parts| ensures parts[i] == rest[i] { }
      }
    }
  }

  /** `sep.join(parts)`. */
  function JoinWith(parts: seq<string>, sep: string): string
  {
    if parts == [] then []
    else if |parts| == 1 then parts[0]
    else parts[0] + sep + JoinWith(parts[1..], sep)
  }

  /** `s.split(c)` for a one-character separator. */
  function Split(s: string, c: char): (parts: seq<string>)
    ensures |parts| == CountWhere(s, x => x == c) + 1
    ensures forall i :: 0 <= i < |parts| ==> c !in parts[i]
  {
    SplitWhere(s, x => x == c)
  }

  /** Splitting on a character and joining the pieces with it gives the input back. */
  lemma {:induction false} SplitJoin(s: string, c: char)
    ensures JoinWith(Split(s, c), [c]) == s
  {
    if s != [] {
      var rest := Split(s[1..], c);
      SplitJoin(s[1..], c);
      if s[0] != c {
        var parts := Split(s, c);
        assert parts[0] == [s[0]] + rest[0] && parts[1..] == rest[1..];
        if |rest| == 1 {
          assert parts == [[s[0]] + rest[0]];
        } else {
          assert JoinWith(rest, [c]) == rest[0] + [c] + JoinWith(rest[1..], [c]);
        }
      }
    }
  }

  /** `s.split(c)` has exactly two pieces when `c` occurs exactly once, and
      they are the text before and the text after it. */
  lemma SplitOnce(s: string, c: char)
    ensures |Split(s, c)| == 2 <==> IndexOf(s, c).Some? && c !in s[IndexOf(s, c).value + 1..]
    ensures |Split(s, c)| == 2 ==> Split(s, c) == [s[..IndexOf(s, c).value], s[IndexOf(s, c).value + 1..]]
  {
    var parts := Split(s, c);
    SplitJoin(s, c);
    if |parts| == 1 {
      assert s == parts[0];
    } else {
      var rest := JoinWith(parts[1..], [c]);
      assert s == parts[0] + [c] + rest;
      assert s[..|parts[0]|] == parts[0];
      IndexOfFirst(s, c, |parts[0]|);
      assert s[|parts[0]| + 1..] == rest;
      if |parts| == 2 {
        assert rest == parts[1];
      } else {
        assert parts[1..][1..] == parts[2..];
        assert rest == parts[1] + [c] + JoinWith(parts[2..], [c]);
        assert rest[|parts[1]|] == c;
      }
    }
  }

  /** Text without `c` is one piece. */
  lemma {:induction false} SplitNone(s: string, c: char)
    requires c !in s
    ensures Split(s, c) == [s]
  {
    if s != [] {
      SplitNone(s[1..], c);
      assert [s[0]] + s[1..] == s;
    }
  }

  /** Splitting text that starts with a piece and a `c` gives that piece
      first. */
  lemma {:induction false} SplitAfterPiece(p: string, t: string, c: char)
    requires c !in p
    ensures Split(p + [c] + t, c) == [p] + Split(t, c)
  {
    var s := p + [c] + t;
    if p == [] {
      assert s[1..] == t;
    } else {
      assert s[1..] == p[1..] + [c] + t;
      SplitAfterPiece(p[1..], t, c);
      assert [s[0]] + p[1..] == p;
    }
  }

  /** Joining pieces that do not contain `c` with `c` and splitting on `c`
      gives the pieces back. */
  lemma {:induction false} JoinSplit(parts: seq<string>, c: char)
    requires |parts| >= 1
    requires forall i :: 0 <= i < |parts| ==> c !in parts[i]
    ensures Split(JoinWith(parts, [c]), c) == parts
  {
    if |parts| == 1 {
      SplitNone(parts[0], c);
    } else {
      JoinSplit(parts[1..], c);
      SplitAfterPiece(parts[0], JoinWith(parts[1..], [c]), c);
      assert [parts[0]] + parts[1..] == parts;
    }
  }

  /** The first piece of `s.split(c)` is the text before the first `c`. */
  lemma {:induction false} SplitHead(s: string, c: char)
    ensures Split(s, c)[0] == match IndexOf(s, c) case None => s case Some(i) => s[..i]
  {
    if s != [] && s[0] != c {
      SplitHead(s[1..], c);
      match IndexOf(s[1..], c)
      case None =>
      case Some(i) =>
        assert s[..i + 1] == [s[0]] + s[1..][..i];
    }
  }

  /** Every character of a text that occurs in `s` occurs in `s`. */
  lemma ContainsChar(s: string, sub: string, c: char)
    requires Contains(s, sub) && c in sub
    ensures c in s
  {
    var i := ContainsIndex(s, sub);
    var j :| 0 <= j < |sub| && sub[j] == c;
    assert s[i + j] == sub[j];
  }

  /** `''.join(parts)`. */
  function Concat(parts: seq<string>): (r: string)
  {
    if parts == [] then [] else parts[0] + Concat(parts[1..])
  }

  /** A character absent from every part is absent from their concatenation. */
  lemma {:induction false} ConcatAvoids(parts: seq<string>, c: char)
    requires forall i, j :: 0 <= i < |parts| && 0 <= j < |parts[i]| ==> parts[i][j] != c
    ensures c !in Concat(parts)
  {
    if parts != [] {
      ConcatAvoids(parts[1..], c);
      assert c !in parts[0];
    }
  }

  /** A loop that builds a new list of lines, one line from each line in
      order. */
  method MapLines(lines: seq<string>, f: string -> string) returns (out: seq<string>)
    ensures |out| == |lines|
    ensures forall i :: 0 <= i < |lines| ==> out[i] == f(lines[i])
  {
    out := [];
    var i := 0;
    while i < |lines|
      invariant i <= |lines|
      invariant |out| == i
      invariant forall j :: 0 <= j < i ==> out[j] == f(lines[j])
    {
      out := out + [f(lines[i])];
      i := i + 1;
    }
  }

  /** `s.replace(sub, "")`: occurrences are found from the left and do not overlap. */
  function RemoveAll(s: string, sub: string): (r: string)
    requires |sub| > 0
    ensures |r| <= |s|
    ensures !Contains(s, sub) ==> r == s
    decreases |s|
  {
    if s == [] then []
    else if sub <= s then RemoveAll(s[|sub|..], sub)
    else
      assert !Contains(s, sub) ==> !Contains(s[1..], sub);
      [s[0]] + RemoveAll(s[1..], sub)
  }

  /** When no occurrence of `sub` starts inside `p`, `replace` leaves `p` as it is
      and works on the rest alone. */
  lemma {:induction false} RemoveAllKeepsPrefix(p: string, rest: string, sub: string)
    requires |sub| > 0
    requires forall i :: 0 <= i < |p| ==> !(sub <= (p + rest)[i..])
    ensures RemoveAll(p + rest, sub) == p + RemoveAll(rest, sub)
  {
    if p == [] {
      assert p + rest == rest;
    } else {
      var s, t := p + rest, p[1..] + rest;
      assert !(sub <= s) by {
        assert s[0..] == s;
      }
      assert s[1..] == t;
      forall i | 0 <= i < |p| - 1
        ensures !(sub <= t[i..])
      {
        assert t[i..] == s[i + 1..];
      }
      RemoveAllKeepsPrefix(p[1..], rest, sub);
      assert RemoveAll(s, sub) == [s[0]] + RemoveAll(t, sub);
      assert [p[0]] + p[1..] == p;
    }
  }

  /** An occurrence at the very start is removed and the search goes on after it;
      what follows is kept when it does not contain `sub`. */
  lemma RemoveAllLeading(sub: string, rest: string)
    requires |sub| > 0 && !Contains(rest, sub)
    ensures RemoveAll(sub + rest, sub) == rest
  {
    assert sub <= sub + rest;
    assert (sub + rest)[|sub|..] == rest;
  }

  /** A text shorter than `sub` does not contain it. */
  lemma {:induction false} ShorterContainsNothing(s: string, sub: string)
    requires |s| < |sub|
    ensures !Contains(s, sub)
  {
    if s != [] {
      ShorterContainsNothing(s[1..], sub);
    }
  }

  /** Of two texts of the same length, one contains the other only when equal. */
  lemma SameLengthContains(s: string, sub: string)
    requires |s| == |sub| && s != sub
    ensures !Contains(s, sub)
  {
    if s != [] {
      ShorterContainsNothing(s[1..], sub);
    }
  }

  /** `s.replace(c, "")` for a single character. */
  function RemoveChar(s: string, c: char): (r: string)
    ensures c !in r
    ensures forall x :: x in r ==> x in s
    ensures c !in s ==> r == s
  {
    if s == [] then []
    else if s[0] == c then RemoveChar(s[1..], c)
    else [s[0]] + RemoveChar(s[1..], c)
  }

  /** How an f-string renders a value that may be `None`. */
  function Render(v: Option<string>): string {
    match v
    case None => "None"
    case Some(s) => s
  }

  /** Removing a character from two texts run together removes it from each. */
  lemma {:induction false} RemoveCharAppend(a: string, b: string, c: char)
    ensures RemoveChar(a + b, c) == RemoveChar(a, c) + RemoveChar(b, c)
  {
    if a != [] {
      assert (a + b)[1..] == a[1..] + b;
      RemoveCharAppend(a[1..], b, c);
    } else {
      assert a + b == b;
    }
  }

  /** `s.rpartition(c)[2]`: the text after the last `c`, or all of `s` when it has none. */
  function AfterLast(s: string, c: char): (r: string)
    ensures |r| <= |s| && r == s[|s| - |r|..]
    ensures c !in r
    ensures |r| < |s| ==> s[|s| - |r| - 1] == c
  {
    if s == [] then []
    else if s[|s| - 1] == c then []
    else
      var r := AfterLast(s[..|s| - 1], c);
      assert s[..|s| - 1][|s| - 1 - |r|..] + [s[|s| - 1]] == s[|s| - |r| - 1..];
      r + [s[|s| - 1]]
  }

  /** `n` spaces. */
  function Spaces(n: nat): (r: string)
    ensures |r| == n
    ensures forall i :: 0 <= i < n ==> r[i] == ' '
  {
    if n == 0 then [] else [' '] + Spaces(n - 1)
  }

  /** `s.ljust(width, ' ')`: `s` followed by enough spaces to reach `width`. */
  function LJust(s: string, width: nat): (r: string)
    ensures |r| == if |s| < width then width else |s|
    ensures r[..|s|] == s
    ensures forall i :: |s| <= i < |r| ==> r[i] == ' '
  {
    if |s| < width then s + Spaces(width - |s|) else s
  }

  /** `str.lower()` on ASCII letters. */
  function LowerChar(c: char): (r: char)
    ensures 'A' <= c <= 'Z' ==> r as int == c as int + 32
    ensures !('A' <= c <= 'Z') ==> r == c
  {
    if 'A' <= c <= 'Z' then (c as int + 32) as char else c
  }

  function Lower(s: string): (r: string)
    ensures |r| == |s|
    ensures forall i :: 0 <= i < |s| ==> r[i] == LowerChar(s[i])
  {
    if s == [] then [] else [LowerChar(s[0])] + Lower(s[1..])
  }
}
