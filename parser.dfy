/** The paste-list parser of `run_process`: each line `Title (Year)` of the
    text box becomes an item record; every other line is dropped, and the
    lines after it are still parsed. */
module PasteList {
  import opened Wrappers
  import opened Text
  import opened Media

  /** The line `<title> (<year>)` that a user types for one title. */
  function EntryLine(title: string, year: int): string {
    title + " (" + IntToString(year) + ")"
  }

  /** What happens to one raw line. `Ignored` lines fail the shape test and
      are dropped silently; `Malformed` lines pass it but their year does not
      parse, so they are dropped with a warning. */
  datatype LineVerdict = Accepted(item: Item) | Ignored | Malformed(line: string)

  /** The shape test on a stripped line: non-empty, holds `(` (it has a
      last `(`), ends with `)`. */
  predicate LooksLikeEntry(line: string) {
    line != [] && LastIndexOf(line, '(').Some? && EndsWith(line, ')')
  }

  /** `k` is the position of the last `(` in `line`, the split point of `rsplit('(', 1)`. */
  predicate IsLastOpen(line: string, k: int) {
    0 <= k < |line| && line[k] == '(' && '(' !in line[k + 1..]
  }

  function ParseLine(raw: string): LineVerdict {
    var line := Strip(raw);
    if !LooksLikeEntry(line) then Ignored
    else
      var k := LastIndexOf(line, '(').value;
      match ParseInt(RemoveAll(line[k + 1..], ')'))
      case Some(y) => Accepted(Item(Strip(line[..k]), y, false))
      case None => Malformed(line)
  }

  function Emit(v: LineVerdict): seq<Item> {
    if v.Accepted? then [v.item] else []
  }

  /** The items that a per-line verdict `f` accepts, in line order. */
  function Gather(lines: seq<string>, f: string -> LineVerdict): seq<Item> {
    if |lines| == 0 then []
    else Gather(lines[..|lines| - 1], f) + Emit(f(lines[|lines| - 1]))
  }

  /** The items of a list of lines, in line order. */
  function Parse(lines: seq<string>): seq<Item> {
    Gather(lines, ParseLine)
  }

  /** The item list built from the text box contents: the text is stripped,
      split at newlines, and each line parsed. */
  function PasteItems(text: string): seq<Item> {
    Parse(SplitOn(Strip(text), '\n'))
  }

  /** The parse loop: one pass over the lines, appending each accepted item. */
  method ParseList(lines: seq<string>) returns (items: seq<Item>)
    ensures items == Parse(lines)
  {
    items := [];
    for i := 0 to |lines|
      invariant items == Parse(lines[..i])
    {
      assert lines[..i + 1][..i] == lines[..i];
      assert Parse(lines[..i + 1]) == Parse(lines[..i]) + Emit(ParseLine(lines[i]));
      var line := Strip(lines[i]);
      if LooksLikeEntry(line) {
        var k := LastIndexOf(line, '(').value;
        var year := ParseInt(RemoveAll(line[k + 1..], ')'));
        if year.Some? {
          items := items + [Item(Strip(line[..k]), year.value, false)];
        }
      }
    }
    assert lines[..|lines|] == lines;
  }

  /** Acceptance and fields of one line: a line whose stripped form fails the
      shape test is ignored; otherwise the title is the stripped text before
      the last `(`, the year is `int()` of the text after it with every `)`
      removed, `found` is false, and a year that does not parse makes the
      line malformed. This is the per-line unfolding that callers use, with
      the split point given by any `k` that is the last `(`. */
  lemma ParseLineSpec(raw: string, k: int)
    requires IsLastOpen(Strip(raw), k) || !LooksLikeEntry(Strip(raw))
    ensures !LooksLikeEntry(Strip(raw)) ==> ParseLine(raw) == Ignored
    ensures LooksLikeEntry(Strip(raw)) ==>
      var line := Strip(raw);
      match ParseInt(RemoveAll(line[k + 1..], ')'))
      case Some(y) => ParseLine(raw) == Accepted(Item(Strip(line[..k]), y, false))
      case None => ParseLine(raw) == Malformed(line)
  {
    if LooksLikeEntry(Strip(raw)) {
      LastIndexOfAt(Strip(raw), '(', k);
    }
  }

  lemma {:induction false} GatherAppend(a: seq<string>, b: seq<string>, f: string -> LineVerdict)
    ensures Gather(a + b, f) == Gather(a, f) + Gather(b, f)
  {
    if |b| == 0 {
      assert a + b == a;
    } else {
      var b', last := b[..|b| - 1], b[|b| - 1];
      assert (a + b)[..|a + b| - 1] == a + b';
      assert (a + b)[|a + b| - 1] == last;
      calc {
        Gather(a + b, f);
        Gather(a + b', f) + Emit(f(last));
        { GatherAppend(a, b', f); }
        Gather(a, f) + Gather(b', f) + Emit(f(last));
        Gather(a, f) + (Gather(b', f) + Emit(f(last)));
      }
    }
  }

  /** Parsing is line by line: the result for a concatenation of line lists
      is the concatenation of the results, so a dropped line never disturbs
      the lines that follow it. */
  lemma ParseAppend(a: seq<string>, b: seq<string>)
    ensures Parse(a + b) == Parse(a) + Parse(b)
  {
    GatherAppend(a, b, ParseLine);
  }

  /** Dropping a line that is not accepted leaves the parse unchanged. */
  lemma SkipRejectedLine(a: seq<string>, bad: string, b: seq<string>)
    requires !ParseLine(bad).Accepted?
    ensures Parse(a + [bad] + b) == Parse(a) + Parse(b)
  {
    GatherSkip(a, bad, b, ParseLine);
  }

  lemma GatherSkip(a: seq<string>, bad: string, b: seq<string>, f: string -> LineVerdict)
    requires !f(bad).Accepted?
    ensures Gather(a + [bad] + b, f) == Gather(a, f) + Gather(b, f)
  {
    var a' := a + [bad];
    assert a'[..|a'| - 1] == a && a'[|a'| - 1] == bad;
    assert Gather(a', f) == Gather(a, f) + Emit(f(bad));
    assert Gather(a', f) == Gather(a, f);
    GatherAppend(a', b, f);
  }

  /** Every parsed item starts out pending, and there are at most as many
      items as lines. */
  lemma ParsedItemsPending(lines: seq<string>)
    ensures |Parse(lines)| <= |lines|
    ensures forall i :: 0 <= i < |Parse(lines)| ==> !Parse(lines)[i].found
  {
    GatherPending(lines, ParseLine);
  }

  lemma {:induction false} GatherPending(lines: seq<string>, f: string -> LineVerdict)
    requires forall l :: f(l).Accepted? ==> !f(l).item.found
    ensures |Gather(lines, f)| <= |lines|
    ensures forall i :: 0 <= i < |Gather(lines, f)| ==> !Gather(lines, f)[i].found
  {
    if |lines| > 0 {
      GatherPending(lines[..|lines| - 1], f);
    }
  }

  /** A well-formed line `<title> (<year>)` whose title has no surrounding
      whitespace (or is empty) and whose year is written as `str` writes it. */
  lemma EntryLineAccepted(title: string, year: int)
    requires title == [] || (!IsSpace(title[0]) && !IsSpace(title[|title| - 1]))
    requires WithinStrLimit(year)
    ensures ParseLine(EntryLine(title, year)) == Accepted(Item(title, year, false))
  {
    if title == [] {
      UntitledLineAccepted(title, year);
    } else {
      TitledLineAccepted(title, year);
    }
  }

  lemma TitledLineAccepted(title: string, year: int)
    requires title != [] && !IsSpace(title[0]) && !IsSpace(title[|title| - 1])
    requires WithinStrLimit(year)
    ensures ParseLine(EntryLine(title, year)) == Accepted(Item(title, year, false))
  {
    var raw := EntryLine(title, year);
    var y := IntToString(year);
    var k := |title| + 1;
    NotInIntToString(year, '(');
    EntryLineShape(title, y, raw);
    YearField(year);
    StripNoop(title);
    StripTrailingSpace(title, ' ');
    ParseLineSpec(raw, k);
  }

  lemma UntitledLineAccepted(title: string, year: int)
    requires title == [] && WithinStrLimit(year)
    ensures ParseLine(EntryLine(title, year)) == Accepted(Item(title, year, false))
  {
    var y := IntToString(year);
    var raw := EntryLine(title, year);
    assert raw == " (" + y + ")";
    NotInIntToString(year, '(');
    EmptyTitleShape(y, raw);
    YearField(year);
    AcceptedAt(raw, 0, title, year);
  }

  /** A line whose last `(` sits at `k`, with the title before it and the
      year after it, is accepted. */
  lemma AcceptedAt(raw: string, k: int, title: string, year: int)
    requires IsLastOpen(Strip(raw), k) && EndsWith(Strip(raw), ')')
    requires Strip(Strip(raw)[..k]) == title
    requires ParseInt(RemoveAll(Strip(raw)[k + 1..], ')')) == Some(year)
    ensures ParseLine(raw) == Accepted(Item(title, year, false))
  {
    LastIndexOfAt(Strip(raw), '(', k);
    ParseLineSpec(raw, k);
  }

  /** The layout of ` (<y>)`, the entry line of an empty title: stripping
      drops the leading space and leaves the `(` at position 0. */
  lemma EmptyTitleShape(y: string, raw: string)
    requires '(' !in y
    requires raw == " (" + y + ")"
    ensures Strip(raw) == raw[1..]
    ensures IsLastOpen(raw[1..], 0)
    ensures raw[1..][1..] == y + ")" && raw[1..][..0] == []
  {
    var line := raw[1..];
    assert line == "(" + y + ")";
    assert LStrip(line) == line;
    assert LStrip(raw) == line;
    assert line[|line| - 1] == ')';
    assert line[1..] == y + ")";
  }

  /** The layout of `<title> (<y>)` when `y` holds no parenthesis. */
  lemma EntryLineShape(title: string, y: string, raw: string)
    requires title != [] && !IsSpace(title[0])
    requires '(' !in y
    requires raw == title + " (" + y + ")"
    ensures Strip(raw) == raw
    ensures IsLastOpen(raw, |title| + 1)
    ensures raw[|title| + 2..] == y + ")" && raw[..|title| + 1] == title + " "
  {
    var k := |title| + 1;
    assert raw == (title + " ") + "(" + (y + ")");
    assert raw[0] == title[0] && raw[|raw| - 1] == ')';
    StripNoop(raw);
    assert raw[k + 1..] == y + ")";
  }

  /** The year field of an entry line reads back as the year. */
  lemma YearField(year: int)
    requires WithinStrLimit(year)
    ensures ParseInt(RemoveAll(IntToString(year) + ")", ')')) == Some(year)
  {
    var y := IntToString(year);
    NotInIntToString(year, ')');
    RemoveAbsent(y, ')');
    assert (y + ")")[..|y + ")"| - 1] == y;
    assert RemoveAll(y + ")", ')') == y;
    ParseIntRoundTrip(year);
  }

  lemma GatherThree(l1: string, l2: string, l3: string, f: string -> LineVerdict)
    ensures Gather([l1, l2, l3], f) == Emit(f(l1)) + Emit(f(l2)) + Emit(f(l3))
  {
    assert [l1, l2, l3][..2] == [l1, l2];
    assert [l1, l2][..1] == [l1];
    assert [l1][..0] == [];
    assert Gather([l1], f) == Emit(f(l1));
    assert Gather([l1, l2], f) == Gather([l1], f) + Emit(f(l2));
  }

  lemma SplitThree(l1: string, l2: string, l3: string)
    requires '\n' !in l1 && '\n' !in l2 && '\n' !in l3
    ensures SplitOn(l1 + "\n" + l2 + "\n" + l3, '\n') == [l1, l2, l3]
  {
    assert l1 + "\n" + l2 + "\n" + l3 == l1 + ['\n'] + (l2 + ['\n'] + l3);
    SplitAtSep(l1, l2 + "\n" + l3, '\n');
    SplitAtSep(l2, l3, '\n');
    SplitWithoutSep(l3, '\n');
  }

  /** A line without `(` is ignored. */
  lemma NoOpenIgnored(raw: string)
    requires '(' !in raw
    ensures ParseLine(raw) == Ignored
  {
    StripKeepsAbsent(raw, '(');
  }

  /** An entry line of a one-line title is one line. */
  lemma EntryLineOneLine(title: string, year: int)
    requires '\n' !in title
    ensures '\n' !in EntryLine(title, year)
  {
    NotInIntToString(year, '\n');
  }

  /** The text of three one-line pieces, the first starting and the last
      ending with a non-space character, strips to itself and splits back
      into the three pieces. */
  lemma PasteLayout(l1: string, l2: string, l3: string)
    requires l1 != [] && !IsSpace(l1[0]) && l3 != [] && !IsSpace(l3[|l3| - 1])
    requires '\n' !in l1 && '\n' !in l2 && '\n' !in l3
    ensures SplitOn(Strip(l1 + "\n" + l2 + "\n" + l3), '\n') == [l1, l2, l3]
  {
    var text := l1 + "\n" + l2 + "\n" + l3;
    assert text[0] == l1[0] && text[|text| - 1] == l3[|l3| - 1];
    StripNoop(text);
    SplitThree(l1, l2, l3);
  }

  /** A paste of two entry lines around a line without `(` gives exactly
      the two titles, in order, as pending items. */
  lemma MiddleLineDropped(t1: string, y1: int, bad: string, t2: string, y2: int)
    requires t1 != [] && !IsSpace(t1[0]) && !IsSpace(t1[|t1| - 1]) && '\n' !in t1
    requires t2 != [] && !IsSpace(t2[0]) && !IsSpace(t2[|t2| - 1]) && '\n' !in t2
    requires '(' !in bad && '\n' !in bad
    requires WithinStrLimit(y1) && WithinStrLimit(y2)
    ensures PasteItems(EntryLine(t1, y1) + "\n" + bad + "\n" + EntryLine(t2, y2))
         == [Item(t1, y1, false), Item(t2, y2, false)]
  {
    var l1, l3 := EntryLine(t1, y1), EntryLine(t2, y2);
    assert l1[0] == t1[0] && l3[|l3| - 1] == ')';
    EntryLineOneLine(t1, y1);
    EntryLineOneLine(t2, y2);
    calc {
      PasteItems(l1 + "\n" + bad + "\n" + l3);
      { PasteLayout(l1, bad, l3); }
      Gather([l1, bad, l3], ParseLine);
      { GatherThree(l1, bad, l3, ParseLine); }
      Emit(ParseLine(l1)) + Emit(ParseLine(bad)) + Emit(ParseLine(l3));
      { EntryLineAccepted(t1, y1); EntryLineAccepted(t2, y2); NoOpenIgnored(bad); }
      [Item(t1, y1, false)] + [] + [Item(t2, y2, false)];
    }
  }
}
