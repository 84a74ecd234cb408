/** The Trakt helpers: the `slug|id` reference that a list search row
    carries to the preview, the preview filter over a list's entries, and
    the import of the preview into the paste box as `Title (Year)` lines. */
module Trakt {
  import opened Wrappers
  import opened Text
  import opened Media
  import opened PasteList
  import opened Tree

  // ---------------------------------------------------------------- list reference

  /** How an f-string renders a value that may be None. */
  function ShowText(v: Option<string>): string {
    if v.Some? then v.value else "None"
  }

  function ShowInt(v: Option<int>): string {
    if v.Some? then IntToString(v.value) else "None"
  }

  /** The reference stored in a search row: the owner's slug and the list's
      Trakt id, joined by `|` (line 681). */
  function MakeRef(slug: Option<string>, id: Option<int>): string {
    ShowText(slug) + "|" + ShowInt(id)
  }

  /** `u, l_id = comp.split("|")`: None where the unpacking raises because
      the reference does not have exactly one `|`. */
  function SplitRef(comp: string): (r: Option<(string, string)>)
    ensures r.Some? ==> comp == r.value.0 + "|" + r.value.1
    ensures r.Some? ==> '|' !in r.value.0 && '|' !in r.value.1
  {
    var parts := SplitOn(comp, '|');
    if |parts| != 2 then None
    else
      SplitRejoin(comp, '|');
      Some((parts[0], parts[1]))
  }

  /** A split joined back with its separator gives the string back. */
  lemma {:induction false} SplitRejoin(s: string, sep: char)
    ensures Join(SplitOn(s, sep), sep) == s
  {
    if |s| > 0 {
      SplitRejoin(s[1..], sep);
      var rest := SplitOn(s[1..], sep);
      if s[0] != sep {
        if |rest| > 1 {
          assert rest == [rest[0]] + rest[1..];
          assert Join(rest, sep) == rest[0] + [sep] + Join(rest[1..], sep);
        }
        assert s == [s[0]] + s[1..];
      } else {
        assert s == [sep] + s[1..];
      }
    }
  }

  /** The reference round trip: the preview recovers the slug and the id
      text whenever the slug holds no `|`. */
  lemma RefRoundTrip(slug: Option<string>, id: Option<int>)
    requires slug.Some? ==> '|' !in slug.value
    ensures SplitRef(MakeRef(slug, id)) == Some((ShowText(slug), ShowInt(id)))
  {
    var a, b := ShowText(slug), ShowInt(id);
    if id.Some? {
      NotInIntToString(id.value, '|');
    }
    SplitAtSep(a, b, '|');
    SplitWithoutSep(b, '|');
  }

  /** Any slug holding `|` breaks the unpacking, and the preview raises: the
      reference then holds at least two `|`, and a split that succeeds
      leaves exactly one. */
  lemma RefWithBarInSlug(slug: string, id: Option<int>)
    requires '|' in slug
    ensures SplitRef(MakeRef(Some(slug), id)) == None
  {
    var comp := MakeRef(Some(slug), id);
    assert comp == slug + "|" + ShowInt(id);
    assert multiset(comp)['|'] >= 2 by {
      assert multiset(comp) == multiset(slug) + multiset("|") + multiset(ShowInt(id));
      assert multiset(slug)['|'] >= 1;
    }
    SplitRefOneBar(comp);
  }

  /** A reference that splits holds exactly one `|`. */
  lemma SplitRefOneBar(comp: string)
    ensures SplitRef(comp).Some? ==> multiset(comp)['|'] == 1
  {
    var r := SplitRef(comp);
    if r.Some? {
      var a, b := r.value.0, r.value.1;
      assert multiset(comp) == multiset(a) + multiset("|") + multiset(b);
      assert multiset(a)['|'] == 0 && multiset(b)['|'] == 0;
    }
  }

  // ---------------------------------------------------------------- preview filter

  /** The `title` and `year` of a list entry's movie or show object, each
      None when missing or null. */
  datatype Work = Work(title: Option<string>, year: Option<int>)

  /** A nested object looked up with `e.get(key, {})`: a missing key gives
      the empty dict, a null value gives None, on which `.get` raises. */
  datatype Nested = Missing | Null | Present(work: Work)

  /** One entry of the list items reply. */
  datatype TraktEntry = TraktEntry(kind: Option<string>, movie: Nested, show: Nested)

  datatype PreviewRow = PreviewRow(title: string, year: int)

  /** Python truthiness of the two fields: a non-empty title, a non-zero year. */
  predicate Truthy(w: Work) {
    w.title.Some? && w.title.value != [] && w.year.Some? && w.year.value != 0
  }

  /** What one entry contributes, None when reading it raises. */
  function EntryRows(wanted: MediaType, e: TraktEntry): Option<seq<PreviewRow>> {
    if e.kind != KindKey(wanted) then Some([])
    else
      match NestedOf(wanted, e)
      case Missing => Some([])
      case Null => None
      case Present(w) => if Truthy(w) then Some([PreviewRow(w.title.value, w.year.value)]) else Some([])
  }

  /** The preview rows of a reply, in order; None when some entry raises,
      in which case the preview shows nothing. */
  function Preview(wanted: MediaType, data: seq<TraktEntry>): Option<seq<PreviewRow>> {
    if |data| == 0 then Some([])
    else
      match Preview(wanted, data[..|data| - 1])
      case None => None
      case Some(rows) =>
        match EntryRows(wanted, data[|data| - 1])
        case None => None
        case Some(more) => Some(rows + more)
  }

  /** The loop of `load_trakt_preview` that collects the rows. */
  method PreviewLoop(wanted: MediaType, data: seq<TraktEntry>) returns (r: Option<seq<PreviewRow>>)
    ensures r == Preview(wanted, data)
  {
    var items: seq<PreviewRow> := [];
    for i := 0 to |data|
      invariant Preview(wanted, data[..i]) == Some(items)
    {
      assert data[..i + 1][..i] == data[..i];
      var e := data[i];
      var more: seq<PreviewRow> := [];
      ghost var before := items;
      if wanted == Movie && e.kind == Some("movie") {
        match e.movie
        case Null =>
          PreviewFailsAt(wanted, data, i);
          return None;
        case Missing =>
        case Present(m) =>
          if m.title.Some? && m.title.value != [] && m.year.Some? && m.year.value != 0 {
            more := [PreviewRow(m.title.value, m.year.value)];
            items := items + more;
          }
      } else if wanted == Show && e.kind == Some("show") {
        match e.show
        case Null =>
          PreviewFailsAt(wanted, data, i);
          return None;
        case Missing =>
        case Present(s) =>
          if s.title.Some? && s.title.value != [] && s.year.Some? && s.year.value != 0 {
            more := [PreviewRow(s.title.value, s.year.value)];
            items := items + more;
          }
      }
      assert EntryRows(wanted, e) == Some(more) && items == before + more;
    }
    assert data[..|data|] == data;
    return Some(items);
  }

  /** An entry that raises makes the whole preview fail. */
  lemma PreviewFailsAt(wanted: MediaType, data: seq<TraktEntry>, i: nat)
    requires i < |data| && EntryRows(wanted, data[i]).None?
    ensures Preview(wanted, data).None?
  {
    assert data[..i + 1][..i] == data[..i];
    assert Preview(wanted, data[..i + 1]).None?;
    PreviewNoneAbsorbs(wanted, data[..i + 1], data[i + 1..]);
    assert data[..i + 1] + data[i + 1..] == data;
  }

  /** A failed prefix makes the whole preview fail. */
  lemma {:induction false} PreviewNoneAbsorbs(wanted: MediaType, a: seq<TraktEntry>, b: seq<TraktEntry>)
    requires Preview(wanted, a).None?
    ensures Preview(wanted, a + b).None?
  {
    if |b| == 0 {
      assert a + b == a;
    } else {
      PreviewNoneAbsorbs(wanted, a, b[..|b| - 1]);
      assert (a + b)[..|a + b| - 1] == a + b[..|b| - 1];
    }
  }

  /** The key of the wanted type, compared with an entry's `type`. */
  function KindKey(wanted: MediaType): Option<string> {
    Some(if wanted == Movie then "movie" else "show")
  }

  /** The object an entry holds under the wanted type's key. */
  function NestedOf(wanted: MediaType, e: TraktEntry): Nested {
    if wanted == Movie then e.movie else e.show
  }

  /** An entry the filter keeps: of the wanted type, with a present object
      whose title and year are truthy. */
  predicate Kept(wanted: MediaType, e: TraktEntry) {
    e.kind == KindKey(wanted) && NestedOf(wanted, e).Present? && Truthy(NestedOf(wanted, e).work)
  }

  /** An entry on which reading raises: of the wanted type, its object null. */
  predicate Raises(wanted: MediaType, e: TraktEntry) {
    e.kind == KindKey(wanted) && NestedOf(wanted, e).Null?
  }

  /** The row a kept entry becomes. */
  function RowOf(wanted: MediaType, e: TraktEntry): PreviewRow
    requires Kept(wanted, e)
  {
    var w := NestedOf(wanted, e).work;
    PreviewRow(w.title.value, w.year.value)
  }

  /** The positions of the kept entries, in increasing order. */
  function KeptIndices(wanted: MediaType, data: seq<TraktEntry>): (r: seq<nat>)
    ensures forall k :: 0 <= k < |r| ==> r[k] < |data| && Kept(wanted, data[r[k]])
  {
    if |data| == 0 then []
    else
      var p := data[..|data| - 1];
      var ip := KeptIndices(wanted, p);
      assert forall k :: 0 <= k < |ip| ==> data[ip[k]] == p[ip[k]];
      ip + (if Kept(wanted, data[|data| - 1]) then [|data| - 1] else [])
  }

  /** Every kept entry's position is listed. */
  lemma {:induction false} KeptIndicesComplete(wanted: MediaType, data: seq<TraktEntry>)
    ensures forall i :: 0 <= i < |data| && Kept(wanted, data[i]) ==> i in KeptIndices(wanted, data)
  {
    if |data| > 0 {
      var p := data[..|data| - 1];
      KeptIndicesComplete(wanted, p);
      var r := KeptIndices(wanted, data);
      var ip := KeptIndices(wanted, p);
      assert r[..|ip|] == ip;
      forall i | 0 <= i < |data| && Kept(wanted, data[i]) ensures i in r {
        if i < |p| {
          assert data[i] == p[i];
          var k :| 0 <= k < |ip| && ip[k] == i;
          assert r[k] == i;
        } else {
          assert r[|r| - 1] == i;
        }
      }
    }
  }

  /** The listed positions increase. */
  lemma {:induction false} KeptIndicesIncrease(wanted: MediaType, data: seq<TraktEntry>)
    ensures forall k, l :: 0 <= k < l < |KeptIndices(wanted, data)| ==>
      KeptIndices(wanted, data)[k] < KeptIndices(wanted, data)[l]
  {
    if |data| > 0 {
      var p := data[..|data| - 1];
      KeptIndicesIncrease(wanted, p);
      var r := KeptIndices(wanted, data);
      var ip := KeptIndices(wanted, p);
      assert r == ip + (if Kept(wanted, data[|data| - 1]) then [|data| - 1] else []);
      forall k, l | 0 <= k < l < |r| ensures r[k] < r[l] {
        if l >= |ip| {
          assert r[l] == |p| && r[k] == ip[k] < |p|;
        } else {
          assert r[k] == ip[k] && r[l] == ip[l] && ip[k] < ip[l];
        }
      }
    }
  }

  /** The rows of the kept entries, in the order of the entries. */
  function KeptRows(wanted: MediaType, data: seq<TraktEntry>): seq<PreviewRow> {
    var idx := KeptIndices(wanted, data);
    seq(|idx|, k requires 0 <= k < |idx| => RowOf(wanted, data[idx[k]]))
  }

  /** The preview filter exactly: it fails if and only if some entry of the
      wanted type holds null, and otherwise its rows are those of the kept
      entries, one per kept entry, in order. */
  lemma {:induction false} PreviewSpec(wanted: MediaType, data: seq<TraktEntry>)
    ensures Preview(wanted, data).None? <==> exists i :: 0 <= i < |data| && Raises(wanted, data[i])
    ensures Preview(wanted, data).Some? ==> Preview(wanted, data).value == KeptRows(wanted, data)
  {
    if |data| > 0 {
      var p := data[..|data| - 1];
      var e := data[|data| - 1];
      PreviewSpec(wanted, p);
      if exists i :: 0 <= i < |data| && Raises(wanted, data[i]) {
        var i :| 0 <= i < |data| && Raises(wanted, data[i]);
        PreviewFailsAt(wanted, data, i);
      }
      if Preview(wanted, data).None? {
        if Preview(wanted, p).None? {
          var i :| 0 <= i < |p| && Raises(wanted, p[i]);
          assert data[i] == p[i];
        } else {
          assert Raises(wanted, e);
        }
      } else {
        KeptRowsStep(wanted, data);
      }
    }
  }

  /** The kept rows grow one entry at a time. */
  lemma KeptRowsStep(wanted: MediaType, data: seq<TraktEntry>)
    requires |data| > 0
    ensures var p, e := data[..|data| - 1], data[|data| - 1];
      KeptRows(wanted, data) == KeptRows(wanted, p) + (if Kept(wanted, e) then [RowOf(wanted, e)] else [])
  {
    var p, e := data[..|data| - 1], data[|data| - 1];
    var ip := KeptIndices(wanted, p);
    var more := if Kept(wanted, e) then [RowOf(wanted, e)] else [];
    assert KeptIndices(wanted, data) == ip + (if Kept(wanted, e) then [|data| - 1] else []);
    assert |KeptRows(wanted, data)| == |KeptRows(wanted, p) + more|;
    forall k | 0 <= k < |KeptRows(wanted, data)|
      ensures KeptRows(wanted, data)[k] == (KeptRows(wanted, p) + more)[k]
    {
      if k < |ip| {
        assert data[ip[k]] == p[ip[k]];
      }
    }
  }

  // ---------------------------------------------------------------- import

  /** One line of the paste box as the import writes it (line 716): the
      title and the year as the preview tree hands them back, formatted. */
  function FormatLine(row: PreviewRow): string {
    Shown(row.title) + " (" + Shown(IntToString(row.year)) + ")"
  }

  /** The year comes back as written, so a line is the entry line of the
      title as the tree shows it. */
  lemma FormatLineIsEntryLine(row: PreviewRow)
    requires WithinStrLimit(row.year)
    ensures FormatLine(row) == EntryLine(Shown(row.title), row.year)
  {
    IntCellRoundTrip(row.year);
  }

  function FormatLines(rows: seq<PreviewRow>): (r: seq<string>)
    ensures |r| == |rows|
    ensures forall i :: 0 <= i < |rows| ==> r[i] == FormatLine(rows[i])
  {
    seq(|rows|, i requires 0 <= i < |rows| => FormatLine(rows[i]))
  }

  /** The pasted text the import leaves in the box. */
  function ImportText(rows: seq<PreviewRow>): string {
    Join(FormatLines(rows), '\n')
  }

  /** The item a row becomes once pasted and parsed: its title as the tree
      shows it, its year, pending. */
  function AsItem(row: PreviewRow): Item {
    Item(Shown(row.title), row.year, false)
  }

  function AsItems(rows: seq<PreviewRow>): (r: seq<Item>)
    ensures |r| == |rows|
    ensures forall i :: 0 <= i < |rows| ==> r[i] == AsItem(rows[i])
  {
    if |rows| == 0 then [] else AsItems(rows[..|rows| - 1]) + [AsItem(rows[|rows| - 1])]
  }

  /** A row that survives the trip: its title non-empty, already stripped
      and on one line, its year one that `str` writes. */
  predicate PlainRow(row: PreviewRow) {
    row.title != [] && Strip(row.title) == row.title && '\n' !in row.title && WithinStrLimit(row.year)
  }

  /** One formatted line parses back to its row, as a pending item. */
  lemma FormatLineParses(row: PreviewRow)
    requires PlainRow(row)
    ensures ParseLine(FormatLine(row)) == Accepted(AsItem(row))
  {
    FormatLineIsEntryLine(row);
    ShownPlain(row.title);
    StripEnds(Shown(row.title));
    EntryLineAccepted(Shown(row.title), row.year);
  }

  /** Lines that are all accepted parse to their items, in order. */
  lemma {:induction false} ParseAllAccepted(rows: seq<PreviewRow>)
    requires forall i :: 0 <= i < |rows| ==> PlainRow(rows[i])
    ensures Parse(FormatLines(rows)) == AsItems(rows)
  {
    if |rows| > 0 {
      var p, last, lines := rows[..|rows| - 1], rows[|rows| - 1], FormatLines(rows);
      ParseAllAccepted(p);
      FormatLineParses(last);
      assert lines[..|rows| - 1] == FormatLines(p);
      assert lines[|rows| - 1] == FormatLine(last);
      assert Parse(lines) == Parse(FormatLines(p)) + Emit(ParseLine(FormatLine(last)));
      assert AsItems(rows) == AsItems(p) + [AsItem(last)];
    }
  }

  lemma FormatLinesOneLine(rows: seq<PreviewRow>)
    requires forall i :: 0 <= i < |rows| ==> PlainRow(rows[i])
    ensures forall i :: 0 <= i < |rows| ==> '\n' !in FormatLines(rows)[i]
  {
    forall i | 0 <= i < |rows| ensures '\n' !in FormatLines(rows)[i] {
      FormatLineIsEntryLine(rows[i]);
      ShownPlain(rows[i].title);
      EntryLineOneLine(Shown(rows[i].title), rows[i].year);
    }
  }

  /** The imported text starts with the first title and ends with `)`, so it
      is its own strip, and so is the text with the widget's newline. */
  lemma ImportTextStrips(rows: seq<PreviewRow>)
    requires |rows| > 0 && PlainRow(rows[0])
    ensures Strip(ImportText(rows) + "\n") == ImportText(rows)
  {
    var lines := FormatLines(rows);
    var text := ImportText(rows);
    var first, last := lines[0], lines[|lines| - 1];
    var t := Shown(rows[0].title);
    JoinStartsWithFirst(lines, '\n');
    JoinEndsWithLast(lines, '\n');
    FormatLineIsEntryLine(rows[0]);
    ShownPlain(rows[0].title);
    StripEnds(t);
    assert first == t + " (" + IntToString(rows[0].year) + ")";
    assert first[0] == t[0];
    assert text[0] == text[..|first|][0];
    assert last[|last| - 1] == ')';
    assert text[|text| - 1] == text[|text| - |last|..][|last| - 1];
    StripNoop(text);
    StripTrailingSpace(text, '\n');
  }

  /** Importing a preview and running the paste parser on the text box gives
      back the previewed rows, in order, as pending items, each title as the
      preview tree shows it (a title `int()` accepts comes back as `str` of
      its value), for titles that are non-empty, stripped and on one line.
      The text widget hands back the text with one extra newline, which the
      parser strips. */
  lemma ImportRoundTrip(rows: seq<PreviewRow>)
    requires |rows| > 0
    requires forall i :: 0 <= i < |rows| ==> PlainRow(rows[i])
    ensures PasteItems(ImportText(rows) + "\n") == AsItems(rows)
  {
    ImportTextStrips(rows);
    FormatLinesOneLine(rows);
    SplitJoin(FormatLines(rows), '\n');
    ParseAllAccepted(rows);
  }
  /** The create form the import fills: the collection name field, the
      pasted list box and the media type selector. */
  datatype CreateForm = CreateForm(name: string, text: string, kind: MediaType)

  /** `import_trakt_list` (lines 716-720): nothing happens without preview
      rows. Otherwise the list box is replaced by the imported lines, the name
      field by the selected list row's name as the search tree hands it back
      (when a row is selected), and the media type by the Trakt type. */
  function ImportList(rows: seq<PreviewRow>, selected: Option<string>, traktKind: MediaType,
                      form: CreateForm): CreateForm {
    if |rows| == 0 then form
    else
      CreateForm(if selected.Some? then Shown(selected.value) else form.name, ImportText(rows), traktKind)
  }

  /** What the import leaves in the form: nothing changes without rows;
      otherwise pasting the box gives the rows back as pending items, the
      media type is the Trakt type, and the name field keeps its text unless
      a list row is selected, whose name then comes back as written exactly
      when `int()` refuses it or `str` writes its value the same way (a list
      named "007" fills in "7"). */
  lemma ImportFillsForm(rows: seq<PreviewRow>, selected: Option<string>, traktKind: MediaType, form: CreateForm)
    requires forall i :: 0 <= i < |rows| ==> PlainRow(rows[i])
    ensures |rows| == 0 ==> ImportList(rows, selected, traktKind, form) == form
    ensures |rows| > 0 ==>
      var r := ImportList(rows, selected, traktKind, form);
      && PasteItems(r.text + "\n") == AsItems(rows)
      && r.kind == traktKind
      && (selected.None? ==> r.name == form.name)
      && (selected.Some? ==>
            (r.name == selected.value <==>
               ParseInt(selected.value).None? || IntToString(ParseInt(selected.value).value) == selected.value))
  {
    if |rows| > 0 {
      ImportRoundTrip(rows);
      if selected.Some? {
        ShownUnchanged(selected.value);
      }
    }
  }


  /** A title such as "+7" does not come back as written: the import pastes
      the line of "7". */
  lemma SignedTitleImported(n: nat, year: int)
    requires WithinStrLimit(n) && WithinStrLimit(year)
    ensures AsItem(PreviewRow("+" + IntToString(n), year)).title == IntToString(n)
    ensures ParseLine(FormatLine(PreviewRow("+" + IntToString(n), year))) == Accepted(Item(IntToString(n), year, false))
  {
    var row := PreviewRow("+" + IntToString(n), year);
    SignedTextRewritten(n);
    FormatLineIsEntryLine(row);
    IntToStringStripped(n);
    StripEnds(IntToString(n));
    EntryLineAccepted(IntToString(n), year);
  }
}
