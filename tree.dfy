/** Values as a ttk `Treeview` hands them back. Reading a row's cells with
    `item(...)['values']` passes every value through `int()` and keeps the
    int when that succeeds, the text otherwise; an f-string then renders the
    int with `str`. So a cell written as "+1" reads back as the int 1. */
module Tree {
  import opened Wrappers
  import opened Text

  datatype Cell = IntCell(n: int) | TextCell(s: string)

  /** The value read back from a cell whose text is `t`. */
  function ReadCell(t: string): Cell {
    match ParseInt(t)
    case Some(n) => IntCell(n)
    case None => TextCell(t)
  }

  /** How an f-string renders a cell value. */
  function CellText(c: Cell): string {
    match c
    case IntCell(n) => IntToString(n)
    case TextCell(s) => s
  }

  /** The text a value written as `t` shows once read back and formatted. */
  function Shown(t: string): string {
    CellText(ReadCell(t))
  }

  /** A text survives the trip exactly when `int()` refuses it or `str`
      writes its value back the same way. */
  lemma ShownUnchanged(t: string)
    ensures Shown(t) == t <==> ParseInt(t).None? || IntToString(ParseInt(t).value) == t
  {
  }

  /** An int written into a cell reads back as the same int. */
  lemma IntCellRoundTrip(n: int)
    requires WithinStrLimit(n)
    ensures ReadCell(IntToString(n)) == IntCell(n)
    ensures Shown(IntToString(n)) == IntToString(n)
  {
    ParseIntRoundTrip(n);
  }

  /** A text that `int()` reads with a sign comes back without it: "+1"
      reads as the int 1 and shows as "1". */
  lemma SignedTextRewritten(n: nat)
    requires WithinStrLimit(n)
    ensures ReadCell("+" + IntToString(n)) == IntCell(n)
    ensures Shown("+" + IntToString(n)) == IntToString(n) != "+" + IntToString(n)
  {
    var d := IntToString(n);
    var t := "+" + d;
    assert t[|t| - 1] == d[|d| - 1];
    assert IntTrim(t) == t;
    assert t[1..] == d;
    NatToStringIsDigitRun(n);
    DigitCountAllDigits(d);
    assert |d| + 1 == |t|;
  }

  /** A non-empty one-line text without surrounding white space still is one
      once read back and formatted. */
  lemma ShownPlain(t: string)
    requires t != [] && Strip(t) == t && '\n' !in t
    ensures Shown(t) != [] && Strip(Shown(t)) == Shown(t) && '\n' !in Shown(t)
  {
    if ParseInt(t).Some? {
      var n := ParseInt(t).value;
      IntToStringStripped(n);
      NotInIntToString(n, '\n');
    }
  }
}
