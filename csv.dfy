/**
  The row logic that the two CSV importers share (the contact list screen and
  the campaign wizard run the same text steps): split the file into non-blank
  lines, read the header names, bind each field to the first header that
  includes its key, clean each cell, and accept a data row only when it has at
  least four cells, both names, and an email or a phone.
 */
module CsvImport {
  import opened Text
  import opened Lists

  datatype Option<T> = None | Some(value: T)

  /** What the file input reports about the chosen file. */
  datatype FileInfo = FileInfo(name: string, mimeType: string, size: nat)

  /** The type test both upload handlers apply before reading the file. */
  predicate LooksLikeCsv(file: FileInfo) {
    file.mimeType == "text/csv" || EndsWith(file.name, ".csv")
  }

  const NotCsvMessage := "Please upload a CSV file"
  const HeaderRowMessage := "CSV file must contain at least a header row and one data row"
  const NoValidContactsMessage := "No valid contacts found in CSV file"

  /** The outcome of an import: the records parsed, or the error banner text. */
  datatype Outcome<T> = Parsed(rows: seq<T>) | Rejected(message: string)

  /** The four fields a data row is read into. */
  datatype Fields = Fields(firstName: string, lastName: string, email: string, phone: string)

  const EmptyFields := Fields("", "", "", "")

  /** The acceptance rule shared by the importers and the manual-entry forms:
      both names present, and an email or a phone. */
  predicate Acceptable(f: Fields) {
    f.firstName != "" && f.lastName != "" && (f.email != "" || f.phone != "")
  }

  predicate IsContentLine(line: string) {
    Trim(line) != ""
  }

  /** `text.split("\n").filter(line => line.trim())`. */
  function ContentLines(text: string): seq<string> {
    Filter(Split(text, '\n'), IsContentLine)
  }

  /** A line is kept exactly when it is a line of the file that is not all
      white space; no kept line holds a line break. */
  lemma ContentLinesSpec(text: string, line: string)
    ensures line in ContentLines(text) <==> line in Split(text, '\n') && !AllWhite(line)
    ensures line in ContentLines(text) ==> '\n' !in line
  {
    TrimEmptyIffAllWhite(line);
    FilterMember(Split(text, '\n'), IsContentLine, line);
    KeptLinesHaveNoBreak(text, line);
  }

  lemma KeptLinesHaveNoBreak(text: string, line: string)
    ensures line in ContentLines(text) ==> '\n' !in line
  {
    var pieces := Split(text, '\n');
    if line in ContentLines(text) {
      FilterMember(pieces, IsContentLine, line);
      SplitSpec(text, '\n');
      var j :| 0 <= j < |pieces| && pieces[j] == line;
    }
  }

  /** A first line that is not blank is the first content line. */
  lemma ContentLinesCons(a: string, b: string)
    requires '\n' !in a && !AllWhite(a)
    ensures ContentLines(a + "\n" + b) == [a] + ContentLines(b)
  {
    SplitAtFirst(a, '\n', b);
    TrimEmptyIffAllWhite(a);
    var pieces := [a] + Split(b, '\n');
    assert pieces[1..] == Split(b, '\n');
  }

  /** Text that starts with a visible character has a content line. */
  lemma ContentLinesNonEmpty(text: string)
    requires text != [] && !IsWhite(text[0])
    ensures |ContentLines(text)| >= 1
  {
    var first := Split(text, '\n')[0];
    assert first != [] && first[0] == text[0];
    TrimEmptyIffAllWhite(first);
    FilterMember(Split(text, '\n'), IsContentLine, first);
  }

  /** Joining lines that are not blank and hold no line break, and reading the
      content lines back, gives the same lines. */
  lemma ContentLinesOfJoin(lines: seq<string>)
    requires |lines| >= 1
    requires forall k :: 0 <= k < |lines| ==> '\n' !in lines[k] && !AllWhite(lines[k])
    ensures ContentLines(Join(lines, "\n")) == lines
  {
    SplitJoin(lines, '\n');
    forall k | 0 <= k < |lines| ensures IsContentLine(lines[k]) {
      TrimEmptyIffAllWhite(lines[k]);
    }
    FilterKeepsAll(lines, IsContentLine);
  }

  /** `line.split(",").map(h => h.trim().toLowerCase())`. */
  function HeaderNames(line: string): (headers: seq<string>)
    ensures |headers| == |Split(line, ',')|
  {
    var cells := Split(line, ',');
    seq(|cells|, k requires 0 <= k < |cells| => ToLower(Trim(cells[k])))
  }

  /** A header line of trimmed, comma-free cells yields the cells lower-cased. */
  lemma HeaderNamesOfJoin(cells: seq<string>)
    requires |cells| >= 1
    requires forall k :: 0 <= k < |cells| ==> ',' !in cells[k] && Trimmed(cells[k])
    ensures HeaderNames(Join(cells, ",")) == seq(|cells|, k requires 0 <= k < |cells| => ToLower(cells[k]))
  {
    SplitJoin(cells, ',');
    forall k | 0 <= k < |cells| ensures Trim(cells[k]) == cells[k] {
      TrimTrimmed(cells[k]);
    }
  }

  /** `v.trim().replace(/"/g, "")`. */
  function CellValue(cell: string): string {
    DeleteAll(Trim(cell), '"')
  }

  /** `line.split(",").map(v => v.trim().replace(/"/g, ""))`. */
  function CellValues(line: string): (values: seq<string>)
    ensures |values| == |Split(line, ',')|
  {
    var cells := Split(line, ',');
    seq(|cells|, k requires 0 <= k < |cells| => CellValue(cells[k]))
  }

  /** A line made of comma-free cells joined by commas is read as those
      cells, each cleaned. */
  lemma CellValuesOfJoin(cells: seq<string>)
    requires |cells| >= 1
    requires forall k :: 0 <= k < |cells| ==> ',' !in cells[k]
    ensures CellValues(Join(cells, ",")) == seq(|cells|, k requires 0 <= k < |cells| => CellValue(cells[k]))
  {
    SplitJoin(cells, ',');
  }

  /** `headers.findIndex(h => h.includes(key))`: the first header that includes
      the key, or -1. */
  function ColumnOf(headers: seq<string>, key: string): (idx: int)
    ensures -1 <= idx < |headers|
  {
    if headers == [] then -1
    else if Contains(headers[0], key) then 0
    else
      var rest := ColumnOf(headers[1..], key);
      if rest == -1 then -1 else rest + 1
  }

  /** The column found is the FIRST header that includes the key; -1 means
      that none does. */
  lemma {:induction false} ColumnOfSpec(headers: seq<string>, key: string)
    ensures ColumnOf(headers, key) >= 0 ==> Contains(headers[ColumnOf(headers, key)], key)
    ensures forall k :: 0 <= k < |headers| && (ColumnOf(headers, key) == -1 || k < ColumnOf(headers, key)) ==>
      !Contains(headers[k], key)
  {
    if headers != [] && !Contains(headers[0], key) {
      ColumnOfSpec(headers[1..], key);
      forall k | 1 <= k < |headers| ensures headers[k] == headers[1..][k - 1] { }
    }
  }

  /** `values[idx] || ""`: an index of -1 or past the end reads as "". */
  function Cell(values: seq<string>, idx: int): string {
    if 0 <= idx < |values| then values[idx] else ""
  }

  /** No cleaned cell holds a double quote. */
  lemma CellValuesUnquoted(line: string)
    ensures forall k :: 0 <= k < |CellValues(line)| ==> '"' !in CellValues(line)[k]
  {
    var cells := Split(line, ',');
    forall k | 0 <= k < |cells| ensures '"' !in CellValue(cells[k]) {
      DeleteAllSpec(Trim(cells[k]), '"');
    }
  }

  /** The record a data line is read into. */
  function RowFields(headers: seq<string>, line: string): Fields {
    var values := CellValues(line);
    Fields(Cell(values, ColumnOf(headers, "first")), Cell(values, ColumnOf(headers, "last")),
           Cell(values, ColumnOf(headers, "email")), Cell(values, ColumnOf(headers, "phone")))
  }

  /** The test a data line must pass to yield a record. */
  predicate RowAccepted(headers: seq<string>, line: string) {
    |CellValues(line)| >= 4 && Acceptable(RowFields(headers, line))
  }

  /** The row test and the row reader, as the values the generic loop takes. */
  function LineAccepted(headers: seq<string>): string -> bool {
    line => RowAccepted(headers, line)
  }

  function LineFields(headers: seq<string>): (nat, string) -> Fields {
    (k, line) => RowFields(headers, line)
  }

  /** The positions of the data lines (line 0 is the header) that yield a
      record, in file order. */
  function AcceptedLines(headers: seq<string>, lines: seq<string>): seq<nat> {
    Positions(lines, LineAccepted(headers), 1, |lines|)
  }

  /** A data line is among the accepted ones exactly when it passes the row
      test; they are listed in file order, no more of them than data lines. */
  lemma AcceptedLinesSpec(headers: seq<string>, lines: seq<string>)
    ensures forall k :: k in AcceptedLines(headers, lines) <==> 1 <= k < |lines| && RowAccepted(headers, lines[k])
    ensures forall i, j :: 0 <= i < j < |AcceptedLines(headers, lines)| ==>
      AcceptedLines(headers, lines)[i] < AcceptedLines(headers, lines)[j]
    ensures |lines| >= 1 ==> |AcceptedLines(headers, lines)| <= |lines| - 1
  {
    forall k ensures k in AcceptedLines(headers, lines) <==> 1 <= k < |lines| && RowAccepted(headers, lines[k]) {
      if k >= 0 { PositionsSpec(lines, LineAccepted(headers), 1, |lines|, k); }
    }
    PositionsOrdered(lines, LineAccepted(headers), 1, |lines|);
    if |lines| >= 1 {
      PositionsCount(lines, LineAccepted(headers), 1, |lines|);
    }
  }

  /** A header that includes some key. */
  predicate HasHeader(headers: seq<string>, key: string) {
    exists k :: 0 <= k < |headers| && Contains(headers[k], key)
  }

  /** With no header for a name, or none for either contact method, every field
      read from that column is empty and no line is accepted. */
  lemma MissingColumnAcceptsNothing(headers: seq<string>, lines: seq<string>)
    requires !HasHeader(headers, "first") || !HasHeader(headers, "last")
      || (!HasHeader(headers, "email") && !HasHeader(headers, "phone"))
    ensures AcceptedLines(headers, lines) == []
  {
    var ix := AcceptedLines(headers, lines);
    if ix != [] {
      PositionsSpec(lines, LineAccepted(headers), 1, |lines|, ix[0]);
      ColumnOfSpec(headers, "first");
      ColumnOfSpec(headers, "last");
      ColumnOfSpec(headers, "email");
      ColumnOfSpec(headers, "phone");
    }
  }
}
