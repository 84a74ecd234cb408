/** The pieces of Python's `str` behaviour that the engine relies on:
    `isspace`/`strip`, `split` on one separator, `join`, `rfind`, `replace`
    with an empty replacement, `int()` on base-10 text, and `str()` of an int. */
module Text {
  import opened Wrappers

  /** `c.isspace()` in Python 3: the ASCII controls tab to carriage
      return, the four separators 0x1C-0x1F and the space, then the Unicode
      white space characters beyond ASCII. */
  predicate IsSpace(c: char) {
    if c <= ' ' then c == ' ' || ('\t' <= c <= '\r') || ('\U{1C}' <= c <= '\U{1F}')
    else if c < '\U{85}' then false
    else
      c == '\U{85}' || c == '\U{A0}' || c == '\U{1680}' || ('\U{2000}' <= c <= '\U{200A}')
      || c == '\U{2028}' || c == '\U{2029}' || c == '\U{202F}' || c == '\U{205F}' || c == '\U{3000}'
  }

  /** `s.lstrip()`: drops leading whitespace only. */
  function LStrip(s: string): string {
    if |s| > 0 && IsSpace(s[0]) then LStrip(s[1..]) else s
  }

  /** `s.rstrip()`: drops trailing whitespace only. */
  function RStrip(s: string): string {
    if |s| > 0 && IsSpace(s[|s| - 1]) then RStrip(s[..|s| - 1]) else s
  }

  /** `s.strip()`: the longest infix without whitespace at either end. */
  function Strip(s: string): string {
    RStrip(LStrip(s))
  }

  lemma {:induction false} LStripFacts(s: string)
    ensures |LStrip(s)| <= |s| && LStrip(s) == s[|s| - |LStrip(s)|..]
    ensures LStrip(s) == [] || !IsSpace(LStrip(s)[0])
  {
    if |s| > 0 && IsSpace(s[0]) {
      LStripFacts(s[1..]);
    }
  }

  lemma {:induction false} RStripFacts(s: string)
    ensures |RStrip(s)| <= |s| && RStrip(s) == s[..|RStrip(s)|]
    ensures RStrip(s) == [] || !IsSpace(RStrip(s)[|RStrip(s)| - 1])
  {
    if |s| > 0 && IsSpace(s[|s| - 1]) {
      RStripFacts(s[..|s| - 1]);
    }
  }

  /** `lstrip` drops only white space. */
  lemma {:induction false} LStripDrops(s: string)
    ensures |LStrip(s)| <= |s|
    ensures forall j :: 0 <= j < |s| - |LStrip(s)| ==> IsSpace(s[j])
  {
    if |s| > 0 && IsSpace(s[0]) {
      LStripDrops(s[1..]);
      forall j | 1 <= j < |s| - |LStrip(s)| ensures IsSpace(s[j]) {
        assert s[j] == s[1..][j - 1];
      }
    }
  }

  /** `rstrip` drops only white space. */
  lemma {:induction false} RStripDrops(s: string)
    ensures |RStrip(s)| <= |s|
    ensures forall j :: |RStrip(s)| <= j < |s| ==> IsSpace(s[j])
  {
    if |s| > 0 && IsSpace(s[|s| - 1]) {
      RStripDrops(s[..|s| - 1]);
    }
  }

  /** A stripped string is the infix of `s` that starts at the first and
      ends at the last non-space character: it is empty or starts and ends
      with a non-space character, and only white space lies around it. */
  lemma StripEnds(s: string)
    ensures var r := Strip(s); r == [] || (!IsSpace(r[0]) && !IsSpace(r[|r| - 1]))
    ensures var r, i := Strip(s), |s| - |LStrip(s)|;
      && 0 <= i && i + |r| <= |s| && r == s[i..i + |r|]
      && (forall j :: 0 <= j < i ==> IsSpace(s[j]))
      && (forall j :: i + |r| <= j < |s| ==> IsSpace(s[j]))
  {
    var l := LStrip(s);
    var i := |s| - |l|;
    LStripFacts(s);
    RStripFacts(l);
    LStripDrops(s);
    RStripDrops(l);
    var r := Strip(s);
    assert r == l[..|r|];
    forall j | i + |r| <= j < |s| ensures IsSpace(s[j]) {
      assert s[j] == l[j - i];
    }
  }

  /** A string that starts and ends with a non-space character is its own strip. */
  lemma StripNoop(s: string)
    requires s == [] || (!IsSpace(s[0]) && !IsSpace(s[|s| - 1]))
    ensures Strip(s) == s
  {
  }

  /** Stripping never introduces a character. */
  lemma StripKeepsAbsent(s: string, c: char)
    requires c !in s
    ensures c !in Strip(s)
  {
    LStripFacts(s);
    RStripFacts(LStrip(s));
  }

  /** Appending one whitespace character to a stripped string strips back to it. */
  lemma StripTrailingSpace(t: string, c: char)
    requires Strip(t) == t && IsSpace(c)
    ensures Strip(t + [c]) == t
  {
    StripEnds(t);
    if t == [] {
      assert LStrip([c]) == LStrip([]);
    } else {
      assert LStrip(t + [c]) == t + [c];
      assert (t + [c])[..|t|] == t;
    }
  }

  /** `s.split(sep)`: the pieces between occurrences of `sep`, always at least one. */
  function SplitOn(s: string, sep: char): (r: seq<string>)
    ensures |r| >= 1
    ensures forall i :: 0 <= i < |r| ==> sep !in r[i]
  {
    if |s| == 0 then [""]
    else
      var rest := SplitOn(s[1..], sep);
      if s[0] == sep then [""] + rest else [[s[0]] + rest[0]] + rest[1..]
  }

  /** `sep.join(parts)`. */
  function Join(parts: seq<string>, sep: char): string {
    if |parts| == 0 then ""
    else if |parts| == 1 then parts[0]
    else parts[0] + [sep] + Join(parts[1..], sep)
  }

  lemma {:induction false} SplitWithoutSep(s: string, sep: char)
    requires sep !in s
    ensures SplitOn(s, sep) == [s]
  {
    if |s| > 0 {
      SplitWithoutSep(s[1..], sep);
      assert [s[0]] + s[1..] == s;
    }
  }

  lemma {:induction false} SplitAtSep(a: string, b: string, sep: char)
    requires sep !in a
    ensures SplitOn(a + [sep] + b, sep) == [a] + SplitOn(b, sep)
  {
    var s := a + [sep] + b;
    if a == [] {
      assert s[1..] == b;
    } else {
      assert s[1..] == a[1..] + [sep] + b;
      SplitAtSep(a[1..], b, sep);
      assert [a[0]] + a[1..] == a;
    }
  }

  /** Splitting a join gives the parts back when no part holds the separator. */
  lemma {:induction false} SplitJoin(parts: seq<string>, sep: char)
    requires |parts| > 0
    requires forall i :: 0 <= i < |parts| ==> sep !in parts[i]
    ensures SplitOn(Join(parts, sep), sep) == parts
  {
    if |parts| == 1 {
      SplitWithoutSep(parts[0], sep);
    } else {
      SplitJoin(parts[1..], sep);
      SplitAtSep(parts[0], Join(parts[1..], sep), sep);
      assert [parts[0]] + parts[1..] == parts;
    }
  }

  /** A join begins with its first part. */
  lemma JoinStartsWithFirst(parts: seq<string>, sep: char)
    requires |parts| > 0
    ensures |Join(parts, sep)| >= |parts[0]| && Join(parts, sep)[..|parts[0]|] == parts[0]
  {
  }

  /** A join ends with its last part. */
  lemma {:induction false} JoinEndsWithLast(parts: seq<string>, sep: char)
    requires |parts| > 0
    ensures var j := Join(parts, sep); var l := parts[|parts| - 1];
      |j| >= |l| && j[|j| - |l|..] == l
  {
    if |parts| > 1 {
      JoinEndsWithLast(parts[1..], sep);
    }
  }

  /** `s.rfind(c)`, None in place of -1. */
  function LastIndexOf(s: string, c: char): (r: Option<nat>)
    ensures r.None? <==> c !in s
    ensures r.Some? ==> r.value < |s|
  {
    if |s| == 0 then None
    else if s[|s| - 1] == c then Some(|s| - 1)
    else
      assert s == s[..|s| - 1] + [s[|s| - 1]];
      LastIndexOf(s[..|s| - 1], c)
  }

  /** The position found holds `c`, and `c` does not occur after it. */
  lemma {:induction false} LastIndexOfSpec(s: string, c: char)
    requires c in s
    ensures var k := LastIndexOf(s, c).value; s[k] == c && c !in s[k + 1..]
  {
    if s[|s| - 1] != c {
      var p := s[..|s| - 1];
      assert s == p + [s[|s| - 1]];
      LastIndexOfSpec(p, c);
      var k := LastIndexOf(p, c).value;
      assert s[k + 1..] == p[k + 1..] + [s[|s| - 1]];
    }
  }

  /** A position holding `c` with no `c` after it is the one found. */
  lemma {:induction false} LastIndexOfAt(s: string, c: char, k: nat)
    requires k < |s| && s[k] == c && c !in s[k + 1..]
    ensures LastIndexOf(s, c) == Some(k)
  {
    if k < |s| - 1 {
      var p := s[..|s| - 1];
      assert s[|s| - 1] == s[k + 1..][|s| - 1 - (k + 1)];
      assert p[k + 1..] == s[k + 1..|s| - 1];
      forall j | k + 1 <= j < |p| ensures p[j] != c {
        assert s[k + 1..][j - (k + 1)] == s[j];
      }
      LastIndexOfAt(p, c, k);
    }
  }

  /** `s.replace(c, '')`. */
  function RemoveAll(s: string, c: char): string {
    if |s| == 0 then ""
    else RemoveAll(s[..|s| - 1], c) + (if s[|s| - 1] == c then "" else [s[|s| - 1]])
  }

  /** Removing a character that does not occur changes nothing. */
  lemma {:induction false} RemoveAbsent(s: string, c: char)
    requires c !in s
    ensures RemoveAll(s, c) == s
  {
    if |s| > 0 {
      RemoveAbsent(s[..|s| - 1], c);
      assert s == s[..|s| - 1] + [s[|s| - 1]];
    }
  }

  predicate EndsWith(s: string, c: char) {
    |s| > 0 && s[|s| - 1] == c
  }

  predicate IsDigit(c: char) {
    '0' <= c <= '9'
  }

  function DigitValue(c: char): nat
    requires IsDigit(c)
  {
    (c as int) - ('0' as int)
  }

  function DigitChar(d: nat): (c: char)
    requires d < 10
    ensures IsDigit(c) && DigitValue(c) == d
  {
    (('0' as int) + d) as char
  }

  /** The digit part `int()` accepts in base 10 (ASCII digits only): a
      digit, or a run followed by a digit, or a run followed by `_` and a
      digit, so underscores are single and sit between digits. */
  predicate IsDigitRun(d: string) {
    |d| > 0 && IsDigit(d[|d| - 1]) &&
    var p := d[..|d| - 1];
    p == [] || IsDigitRun(p) || (|p| > 1 && p[|p| - 1] == '_' && IsDigitRun(p[..|p| - 1]))
  }

  /** The decimal value of a digit run, underscores ignored. */
  function DigitsValue(d: string): nat {
    if |d| == 0 then 0
    else if IsDigit(d[|d| - 1]) then DigitsValue(d[..|d| - 1]) * 10 + DigitValue(d[|d| - 1])
    else DigitsValue(d[..|d| - 1])
  }

  /** The white space `int()` skips around its digits: that of `isspace`
      except the four separators U+001C-U+001F, which CPython's `int()` does
      not skip although `str.strip()` does. */
  predicate IsIntSpace(c: char) {
    IsSpace(c) && !('\U{1C}' <= c <= '\U{1F}')
  }

  /** The text `int()` reads once its surrounding white space is skipped. */
  function IntTrim(s: string): string {
    if |s| > 0 && IsIntSpace(s[0]) then IntTrim(s[1..])
    else if |s| > 0 && IsIntSpace(s[|s| - 1]) then IntTrim(s[..|s| - 1])
    else s
  }

  /** The most digits `int()` and `str()` convert (the default of
      `sys.int_info.default_max_str_digits` since Python 3.11). */
  const MaxStrDigits: nat := 4300

  /** The number of digits in a text, underscores and other characters not counted. */
  function DigitCount(d: string): nat {
    if |d| == 0 then 0 else DigitCount(d[..|d| - 1]) + (if IsDigit(d[|d| - 1]) then 1 else 0)
  }

  /** `int(s)`: surrounding white space, an optional sign, then a digit run
      of at most `MaxStrDigits` digits; None where Python raises ValueError. */
  function ParseInt(s: string): Option<int> {
    ParseSigned(IntTrim(s))
  }

  /** `int()` of text without surrounding white space. */
  function ParseSigned(t: string): Option<int> {
    if |t| > 0 && (t[0] == '+' || t[0] == '-') then
      if IsDigitRun(t[1..]) && DigitCount(t[1..]) <= MaxStrDigits then
        var v: int := DigitsValue(t[1..]);
        Some(if t[0] == '-' then -v else v)
      else None
    else if IsDigitRun(t) && DigitCount(t) <= MaxStrDigits then Some(DigitsValue(t))
    else None
  }

  /** `str(n)` for a natural number: decimal digits, no leading zero. */
  function NatToString(n: nat): (r: string)
    ensures |r| > 0
    ensures forall i :: 0 <= i < |r| ==> IsDigit(r[i])
  {
    if n < 10 then [DigitChar(n)] else NatToString(n / 10) + [DigitChar(n % 10)]
  }

  /** `str(n)` for an int. */
  function IntToString(n: int): (r: string)
    ensures |r| > 0 && IsDigit(r[|r| - 1])
    ensures forall i :: 0 <= i < |r| ==> IsDigit(r[i]) || (i == 0 && r[i] == '-')
  {
    if n < 0 then "-" + NatToString(-n) else NatToString(n)
  }

  lemma {:induction false} NatToStringIsDigitRun(n: nat)
    ensures IsDigitRun(NatToString(n)) && DigitsValue(NatToString(n)) == n
  {
    var s := NatToString(n);
    if n >= 10 {
      NatToStringIsDigitRun(n / 10);
      assert s[..|s| - 1] == NatToString(n / 10);
    }
  }

  /** `str(n)` succeeds: its magnitude has at most `MaxStrDigits` digits. */
  predicate WithinStrLimit(n: int) {
    |NatToString(if n < 0 then -n else n)| <= MaxStrDigits
  }

  lemma {:induction false} DigitCountAllDigits(s: string)
    requires forall i :: 0 <= i < |s| ==> IsDigit(s[i])
    ensures DigitCount(s) == |s|
  {
    if |s| > 0 {
      DigitCountAllDigits(s[..|s| - 1]);
    }
  }

  /** `str(n)` has no surrounding whitespace. */
  lemma IntToStringStripped(n: int)
    ensures Strip(IntToString(n)) == IntToString(n)
  {
    var s := IntToString(n);
    assert IsDigit(s[0]) || s[0] == '-';
    StripNoop(s);
  }

  /** `str(n)` has no white space around it that `int()` would skip. */
  lemma IntToStringTrimmed(n: int)
    ensures IntTrim(IntToString(n)) == IntToString(n)
  {
    var s := IntToString(n);
    assert IsDigit(s[0]) || s[0] == '-';
  }

  lemma ParseSignedRoundTrip(n: int)
    requires WithinStrLimit(n)
    ensures ParseSigned(IntToString(n)) == Some(n)
  {
    var s := IntToString(n);
    if n < 0 {
      NatToStringIsDigitRun(-n);
      DigitCountAllDigits(NatToString(-n));
      assert s[1..] == NatToString(-n);
    } else {
      NatToStringIsDigitRun(n);
      DigitCountAllDigits(NatToString(n));
      assert IsDigit(s[0]);
    }
  }

  /** `int(str(n)) == n` for every `n` that `str` converts. */
  lemma ParseIntRoundTrip(n: int)
    requires WithinStrLimit(n)
    ensures ParseInt(IntToString(n)) == Some(n)
  {
    IntToStringTrimmed(n);
    ParseSignedRoundTrip(n);
  }

  /** A digit run starts with a digit. */
  lemma {:induction false} DigitRunHead(d: string)
    requires IsDigitRun(d)
    ensures IsDigit(d[0])
  {
    var p := d[..|d| - 1];
    if p != [] {
      if IsDigitRun(p) {
        DigitRunHead(p);
      } else {
        DigitRunHead(p[..|p| - 1]);
      }
    }
  }

  /** Skipping white space keeps a first character that is not white space. */
  lemma {:induction false} IntTrimKeepsHead(s: string)
    requires |s| > 0 && !IsIntSpace(s[0])
    ensures |IntTrim(s)| > 0 && IntTrim(s)[0] == s[0]
  {
    if IsIntSpace(s[|s| - 1]) {
      IntTrimKeepsHead(s[..|s| - 1]);
    }
  }

  /** A separator U+001C-U+001F before the digits makes `int()` raise,
      although `str.strip()` would have removed it. */
  lemma SeparatorRejected(c: char, s: string)
    requires '\U{1C}' <= c <= '\U{1F}'
    ensures IsSpace(c)
    ensures ParseInt([c] + s) == None
  {
    var t := [c] + s;
    IntTrimKeepsHead(t);
    var u := IntTrim(t);
    if IsDigitRun(u) {
      DigitRunHead(u);
    }
  }

  /** A digit run longer than `MaxStrDigits` digits makes `int()` raise. */
  lemma TooManyDigitsRejected(d: string)
    requires IsDigitRun(d) && DigitCount(d) > MaxStrDigits
    ensures ParseInt(d) == None
  {
    DigitRunHead(d);
    assert IsDigit(d[|d| - 1]);
  }

  /** `str(n)` holds only digits and a leading minus sign, so no other
      character occurs in it. */
  lemma NotInIntToString(n: int, ch: char)
    requires !IsDigit(ch) && ch != '-'
    ensures ch !in IntToString(n)
  {
    var y := IntToString(n);
    forall i | 0 <= i < |y| ensures y[i] != ch {
      assert IsDigit(y[i]) || y[i] == '-';
    }
  }
}
