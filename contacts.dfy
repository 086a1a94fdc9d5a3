/**
  The contact list screen (client/pages/Contacts.tsx): the list with its
  search and status filter, row selection, manual entry with tag splitting,
  deletion, the CSV export of the filtered list and the CSV import, which
  PREPENDS what it reads.
 */
module ContactsPage {
  import opened Text
  import opened Lists
  import opened CsvImport

  datatype Status = Active | Unsubscribed | Bounced

  /** The status as the list stores it and the export writes it. */
  function StatusName(s: Status): string {
    match s
    case Active => "active"
    case Unsubscribed => "unsubscribed"
    case Bounced => "bounced"
  }

  datatype Contact = Contact(
    id: string, firstName: string, lastName: string, email: string, phone: string,
    dateAdded: string, tags: seq<string>, status: Status)

  /** The add-contact form; tags are typed as one comma-separated string. */
  datatype ContactForm = ContactForm(firstName: string, lastName: string, email: string, phone: string, tags: string)

  const EmptyForm := ContactForm("", "", "", "", "")

  function FieldsOf(c: Contact): Fields {
    Fields(c.firstName, c.lastName, c.email, c.phone)
  }

  function FormFields(f: ContactForm): Fields {
    Fields(f.firstName, f.lastName, f.email, f.phone)
  }

  /** The three contacts the screen starts with. */
  const SeedContacts: seq<Contact> := [
    Contact("1", "John", "Doe", "john@example.com", "(555) 123-4567", "2024-01-15", ["VIP", "Repeat Customer"], Active),
    Contact("2", "Jane", "Smith", "jane@example.com", "(555) 987-6543", "2024-01-10", ["New Customer"], Active),
    Contact("3", "Bob", "Johnson", "bob@example.com", "(555) 456-7890", "2024-01-05", [], Unsubscribed)
  ]

  // ---------------------------------------------------------------------------
  // Search and status filter

  /** Names and email are compared lower-cased; the phone is compared as typed. */
  predicate MatchesSearch(c: Contact, term: string) {
    var t := ToLower(term);
    Contains(ToLower(c.firstName), t) || Contains(ToLower(c.lastName), t)
    || Contains(ToLower(c.email), t) || Contains(c.phone, term)
  }

  predicate MatchesStatus(c: Contact, filterStatus: string) {
    filterStatus == "all" || StatusName(c.status) == filterStatus
  }

  function ShownBy(term: string, filterStatus: string): Contact -> bool {
    c => MatchesSearch(c, term) && MatchesStatus(c, filterStatus)
  }

  /** `filteredContacts`. */
  function Visible(contacts: seq<Contact>, term: string, filterStatus: string): seq<Contact> {
    Filter(contacts, ShownBy(term, filterStatus))
  }

  /** A contact is listed exactly when it is in the list and matches both the
      search term and the status filter. */
  lemma VisibleMember(contacts: seq<Contact>, term: string, filterStatus: string, c: Contact)
    ensures c in Visible(contacts, term, filterStatus) <==>
      c in contacts && MatchesSearch(c, term) && MatchesStatus(c, filterStatus)
  {
    FilterMember(contacts, ShownBy(term, filterStatus), c);
  }

  /** The filter keeps the order of the list: filtering two stretches of the
      list filters each in turn. */
  lemma VisibleKeepsOrder(a: seq<Contact>, b: seq<Contact>, term: string, filterStatus: string)
    ensures Visible(a + b, term, filterStatus) == Visible(a, term, filterStatus) + Visible(b, term, filterStatus)
  {
    FilterAppend(a, b, ShownBy(term, filterStatus));
  }

  /** Filtering the filtered list again with the same inputs changes nothing. */
  lemma VisibleIdempotent(contacts: seq<Contact>, term: string, filterStatus: string)
    ensures Visible(Visible(contacts, term, filterStatus), term, filterStatus) == Visible(contacts, term, filterStatus)
  {
    FilterIdempotent(contacts, ShownBy(term, filterStatus));
  }

  /** With no search term and the "all" filter every contact is listed. */
  lemma EmptySearchShowsAll(contacts: seq<Contact>)
    ensures Visible(contacts, "", "all") == contacts
  {
    forall k | 0 <= k < |contacts| ensures ShownBy("", "all")(contacts[k]) {
      ContainsEmpty(ToLower(contacts[k].firstName));
    }
    FilterKeepsAll(contacts, ShownBy("", "all"));
  }

  /** `contacts.map(c => c.id)`. */
  function Ids(contacts: seq<Contact>): seq<string> {
    seq(|contacts|, k requires 0 <= k < |contacts| => contacts[k].id)
  }

  /** Selecting all selects exactly the ids of the listed contacts: an id is
      selected when some contact with that id matches the search and the status
      filter, and ids of contacts outside the filter are left out. */
  lemma ListedIds(contacts: seq<Contact>, term: string, filterStatus: string, x: string)
    ensures x in Ids(Visible(contacts, term, filterStatus)) <==>
      exists c :: c in contacts && MatchesSearch(c, term) && MatchesStatus(c, filterStatus) && c.id == x
  {
    var v := Visible(contacts, term, filterStatus);
    var ids := Ids(v);
    if x in ids {
      var k :| 0 <= k < |ids| && ids[k] == x;
      VisibleMember(contacts, term, filterStatus, v[k]);
    }
    if c :| c in contacts && MatchesSearch(c, term) && MatchesStatus(c, filterStatus) && c.id == x {
      VisibleMember(contacts, term, filterStatus, c);
      var k :| 0 <= k < |v| && v[k] == c;
      assert ids[k] == x;
    }
  }

  // ---------------------------------------------------------------------------
  // Selection and deletion

  function Other(id: string): string -> bool {
    x => x != id
  }

  function HasOtherId(id: string): Contact -> bool {
    (c: Contact) => c.id != id
  }

  function NotSelected(selected: seq<string>): Contact -> bool {
    (c: Contact) => c.id !in selected
  }

  /** Unticking an id removes every occurrence of it and keeps the other ids. */
  lemma UntickSpec(selected: seq<string>, id: string, x: string)
    ensures x in Filter(selected, Other(id)) <==> x in selected && x != id
  {
    FilterMember(selected, Other(id), x);
  }

  /** Deleting one contact removes every contact with that id and keeps the
      others. */
  lemma DeleteSpec(contacts: seq<Contact>, id: string, c: Contact)
    ensures c in Filter(contacts, HasOtherId(id)) <==> c in contacts && c.id != id
  {
    FilterMember(contacts, HasOtherId(id), c);
  }

  /** Deleting the selection removes exactly the contacts whose id is
      selected. */
  lemma DeleteSelectedSpec(contacts: seq<Contact>, selected: seq<string>, c: Contact)
    ensures c in Filter(contacts, NotSelected(selected)) <==> c in contacts && c.id !in selected
  {
    FilterMember(contacts, NotSelected(selected), c);
  }

  // ---------------------------------------------------------------------------
  // Tags

  /** `tags ? tags.split(",").map(t => t.trim()) : []`. */
  function SplitTags(tags: string): seq<string> {
    if tags == "" then []
    else
      var pieces := Split(tags, ',');
      seq(|pieces|, k requires 0 <= k < |pieces| => Trim(pieces[k]))
  }

  /** A non-empty tag field gives one tag per comma-separated piece: the
      piece with the white space at its two ends cut off, and so itself
      without white space at its ends. */
  lemma SplitTagsSpec(tags: string)
    ensures tags == "" ==> SplitTags(tags) == []
    ensures tags != "" ==> |SplitTags(tags)| == |Split(tags, ',')|
    ensures tags != "" ==> forall k :: 0 <= k < |SplitTags(tags)| ==>
      TagOfPiece(Split(tags, ',')[k], SplitTags(tags)[k])
    ensures forall k :: 0 <= k < |SplitTags(tags)| ==> Trimmed(SplitTags(tags)[k])
  {
    if tags != "" {
      var pieces := Split(tags, ',');
      forall k | 0 <= k < |pieces|
        ensures Trimmed(Trim(pieces[k])) && TagOfPiece(pieces[k], Trim(pieces[k]))
      {
        TrimIsTrimmed(pieces[k]);
        TrimSpec(pieces[k]);
      }
    }
  }

  /** `t` is `p` with only white space cut off at its front and its back. */
  predicate TagOfPiece(p: string, t: string) {
    exists i :: 0 <= i <= |p| - |t| && p[i..i + |t|] == t && AllWhite(p[..i]) && AllWhite(p[i + |t|..])
  }

  /** Typing a list of trimmed, comma-free tags joined by commas gives the
      list back. */
  lemma SplitTagsJoin(ts: seq<string>)
    requires |ts| >= 1 && Join(ts, ",") != ""
    requires forall k :: 0 <= k < |ts| ==> ',' !in ts[k] && Trimmed(ts[k])
    ensures SplitTags(Join(ts, ",")) == ts
  {
    SplitJoin(ts, ',');
    forall k | 0 <= k < |ts| ensures Trim(ts[k]) == ts[k] {
      TrimTrimmed(ts[k]);
    }
  }

  // ---------------------------------------------------------------------------
  // Export

  const ExportColumns: seq<string> := ["First Name", "Last Name", "Email", "Phone", "Status", "Tags", "Date Added"]

  /** The export's header line: the seven column names joined by commas. */
  const ExportHeader := Join(ExportColumns, ",")

  function Quote(s: string): string {
    "\"" + s + "\""
  }

  /** A character other than the quote that `s` avoids is not in `s` quoted. */
  lemma QuoteAvoids(s: string, ch: char)
    requires ch != '"' && ch !in s
    ensures ch !in Quote(s)
  {
  }

  /** A quoted text starts and ends with a quote, so `trim` leaves it alone. */
  lemma TrimQuote(s: string)
    ensures Trim(Quote(s)) == Quote(s)
  {
    var q := Quote(s);
    assert q[0] == '"' && q[|q| - 1] == '"';
    TrimTrimmed(q);
  }

  /** Deleting the quotes from a quoted text without quotes gives the text. */
  lemma UnquoteQuote(s: string)
    requires '"' !in s
    ensures DeleteAll(Quote(s), '"') == s
  {
    var mark: string := ['"'];
    assert Quote(s) == (mark + s) + mark;
    DeleteAllAppend(mark + s, mark, '"');
    DeleteAllAppend(mark, s, '"');
    DeleteAllAbsent(s, '"');
    assert DeleteAll(mark, '"') == [];
  }

  /** Quoting and then cleaning a cell gives the text back. */
  lemma CellValueQuote(s: string)
    requires '"' !in s
    ensures CellValue(Quote(s)) == s
  {
    TrimQuote(s);
    UnquoteQuote(s);
  }

  /** The seven cells of a contact's export line, each in double quotes, the
      tags joined by ";". */
  function QuotedFields(c: Contact): seq<string> {
    [Quote(c.firstName), Quote(c.lastName), Quote(c.email), Quote(c.phone),
     Quote(StatusName(c.status)), Quote(Join(c.tags, ";")), Quote(c.dateAdded)]
  }

  /** One export line. */
  function ExportLine(c: Contact): string {
    Join(QuotedFields(c), ",")
  }

  function ExportLines(contacts: seq<Contact>): seq<string> {
    seq(|contacts|, k requires 0 <= k < |contacts| => ExportLine(contacts[k]))
  }

  /** `exportContacts`' text for the listed contacts. */
  function ExportText(visible: seq<Contact>): string {
    Join([ExportHeader] + ExportLines(visible), "\n")
  }

  /** No text field of the contact holds `ch`. */
  predicate Avoids(c: Contact, ch: char) {
    && ch !in c.firstName && ch !in c.lastName && ch !in c.email && ch !in c.phone && ch !in c.dateAdded
    && forall k :: 0 <= k < |c.tags| ==> ch !in c.tags[k]
  }

  lemma StatusNamePlain(s: Status)
    ensures '\n' !in StatusName(s) && ',' !in StatusName(s) && '"' !in StatusName(s)
  {
  }

  /** A character the contact avoids, other than the quote and ";", is in
      none of its quoted cells. */
  lemma QuotedFieldsAvoid(c: Contact, ch: char)
    requires Avoids(c, ch) && ch != '"' && ch != ';' && ch !in StatusName(c.status)
    ensures forall k :: 0 <= k < |QuotedFields(c)| ==> ch !in QuotedFields(c)[k]
  {
    JoinAvoids(c.tags, ";", ch);
    QuoteAvoids(c.firstName, ch);
    QuoteAvoids(c.lastName, ch);
    QuoteAvoids(c.email, ch);
    QuoteAvoids(c.phone, ch);
    QuoteAvoids(StatusName(c.status), ch);
    QuoteAvoids(Join(c.tags, ";"), ch);
    QuoteAvoids(c.dateAdded, ch);
  }

  /** A character the contact avoids, other than the quote, ";" and ",",
      does not occur in its export line. */
  lemma ExportLineAvoids(c: Contact, ch: char)
    requires Avoids(c, ch) && ch != '"' && ch != ';' && ch != ','
    requires ch !in StatusName(c.status)
    ensures ch !in ExportLine(c)
  {
    QuotedFieldsAvoid(c, ch);
    JoinAvoids(QuotedFields(c), ",", ch);
  }

  /** An export line starts with a quote, so it is never blank. */
  lemma ExportLineVisible(c: Contact)
    ensures ExportLine(c) != [] && ExportLine(c)[0] == '"' && !AllWhite(ExportLine(c))
  {
    var q := QuotedFields(c);
    assert ExportLine(c) == q[0] + "," + Join(q[1..], ",");
    assert q[0][0] == '"';
  }

  lemma ExportColumnsClean()
    ensures forall k :: 0 <= k < |ExportColumns| ==>
      '\n' !in ExportColumns[k] && ',' !in ExportColumns[k] && Trimmed(ExportColumns[k])
  {
  }

  lemma ExportHeaderVisible()
    ensures '\n' !in ExportHeader && !AllWhite(ExportHeader)
  {
    ExportColumnsClean();
    JoinAvoids(ExportColumns, ",", '\n');
    JoinCons("First Name", ExportColumns[1..], ",");
    assert ExportColumns == ["First Name"] + ExportColumns[1..];
    assert !IsWhite(ExportHeader[0]);
  }

  /** The header line as the export writes it. */
  const ExportHeaderText := "First Name,Last Name,Email,Phone,Status,Tags,Date Added"

  /** The seven column names joined by commas are exactly that line. */
  lemma ExportHeaderLiteral()
    ensures ExportHeader == ExportHeaderText
  {
    ExportHeaderFront();
    ExportHeaderBack();
    HeaderTextFront();
    HeaderTextBack();
    assert ExportHeaderText == ExportHeaderText[..33] + ExportHeaderText[33..];
  }

  lemma ExportHeaderFront()
    ensures ExportHeader == "First Name,Last Name,Email,Phone," + Join(ExportColumns[4..], ",")
  {
    var rest := ExportColumns[4..];
    var tail := Join(rest, ",");
    assert ExportColumns == ["First Name", "Last Name", "Email", "Phone"] + rest;
    JoinFour("First Name", "Last Name", "Email", "Phone", rest, ",");
    var f, l, e, p := "First Name" + ",", "Last Name" + ",", "Email" + ",", "Phone" + ",";
    AppendAssoc(e, p, tail);
    AppendAssoc(l, e + p, tail);
    AppendAssoc(f, l + (e + p), tail);
    AppendAssoc(f, l, e + p);
    NameColumnsText();
    ContactColumnsText();
    FrontColumnsText();
  }

  lemma NameColumnsText()
    ensures ("First Name" + ",") + ("Last Name" + ",") == "First Name,Last Name,"
  {
  }

  lemma ContactColumnsText()
    ensures ("Email" + ",") + ("Phone" + ",") == "Email,Phone,"
  {
  }

  lemma FrontColumnsText()
    ensures "First Name,Last Name," + "Email,Phone," == "First Name,Last Name,Email,Phone,"
  {
  }

  lemma ExportHeaderBack()
    ensures Join(ExportColumns[4..], ",") == "Status,Tags,Date Added"
  {
    assert ExportColumns[4..] == ["Status"] + ["Tags", "Date Added"];
    JoinCons("Status", ["Tags", "Date Added"], ",");
    JoinPair("Tags", "Date Added", ",");
  }

  lemma HeaderTextFront()
    ensures ExportHeaderText[..33] == "First Name,Last Name,Email,Phone,"
  {
  }

  lemma HeaderTextBack()
    ensures ExportHeaderText[33..] == "Status,Tags,Date Added"
  {
  }

  /** With no line break in any field, every line of the export holds none
      and none is blank. */
  lemma ExportLinesClean(visible: seq<Contact>)
    requires forall k :: 0 <= k < |visible| ==> Avoids(visible[k], '\n')
    ensures var lines := [ExportHeader] + ExportLines(visible);
      forall k :: 0 <= k < |lines| ==> '\n' !in lines[k] && !AllWhite(lines[k])
  {
    ExportHeaderVisible();
    LinesUnderClean(ExportHeader, visible);
  }

  lemma LinesUnderClean(header: string, visible: seq<Contact>)
    requires '\n' !in header && !AllWhite(header)
    requires forall k :: 0 <= k < |visible| ==> Avoids(visible[k], '\n')
    ensures var lines := [header] + ExportLines(visible);
      forall k :: 0 <= k < |lines| ==> '\n' !in lines[k] && !AllWhite(lines[k])
  {
    var lines := [header] + ExportLines(visible);
    forall k | 0 <= k < |lines| ensures '\n' !in lines[k] && !AllWhite(lines[k]) {
      if k > 0 {
        ConsIndex(header, ExportLines(visible), k - 1);
        ExportLineClean(visible[k - 1]);
      }
    }
  }

  lemma ExportLineClean(c: Contact)
    requires Avoids(c, '\n')
    ensures '\n' !in ExportLine(c) && !AllWhite(ExportLine(c))
  {
    StatusNamePlain(c.status);
    ExportLineAvoids(c, '\n');
    ExportLineVisible(c);
  }

  /** With no line break in any field, the export has the header line and then
      one line per listed contact, in order: 1 + |visible| lines. */
  lemma ExportShape(visible: seq<Contact>)
    requires forall k :: 0 <= k < |visible| ==> Avoids(visible[k], '\n')
    ensures Split(ExportText(visible), '\n') == [ExportHeaderText] + ExportLines(visible)
    ensures |Split(ExportText(visible), '\n')| == 1 + |visible|
  {
    ExportLinesClean(visible);
    SplitJoin([ExportHeader] + ExportLines(visible), '\n');
    ExportHeaderLiteral();
  }

  /** The header names the import reads from the export's header line. */
  const ExportHeaderNames: seq<string> := ["first name", "last name", "email", "phone", "status", "tags", "date added"]

  lemma ExportColumnsLowered()
    ensures forall k :: 0 <= k < |ExportColumns| ==> ToLower(ExportColumns[k]) == ExportHeaderNames[k]
  {
    assert ToLower("First Name") == "first name";
    assert ToLower("Last Name") == "last name";
    assert ToLower("Email") == "email";
    assert ToLower("Phone") == "phone";
    assert ToLower("Status") == "status";
    assert ToLower("Tags") == "tags";
    assert ToLower("Date Added") == "date added";
  }

  lemma ExportHeaderRead()
    ensures HeaderNames(ExportHeader) == ExportHeaderNames
  {
    ExportColumnsClean();
    HeaderNamesOfJoin(ExportColumns);
    ExportColumnsLowered();
  }

  lemma FirstColumnOfExport()
    ensures ColumnOf(ExportHeaderNames, "first") == 0
  {
    assert OccursAt("first name", "first", 0);
  }

  lemma LastColumnOfExport()
    ensures ColumnOf(ExportHeaderNames, "last") == 1
  {
    MissingCharBlocks("first name", "last", 'l');
    assert OccursAt("last name", "last", 0);
  }

  lemma EmailColumnOfExport()
    ensures ColumnOf(ExportHeaderNames, "email") == 2
  {
    MissingCharBlocks("first name", "email", 'l');
    MissingCharBlocks("last name", "email", 'i');
    assert OccursAt("email", "email", 0);
  }

  lemma PhoneColumnOfExport()
    ensures ColumnOf(ExportHeaderNames, "phone") == 3
  {
    MissingCharBlocks("first name", "phone", 'p');
    MissingCharBlocks("last name", "phone", 'p');
    MissingCharBlocks("email", "phone", 'p');
    assert OccursAt("phone", "phone", 0);
  }

  /** The import finds the names, email and phone in the export's first four
      columns. */
  lemma ExportHeaderColumns()
    ensures var h := HeaderNames(ExportHeader);
      ColumnOf(h, "first") == 0 && ColumnOf(h, "last") == 1 && ColumnOf(h, "email") == 2 && ColumnOf(h, "phone") == 3
  {
    ExportHeaderRead();
    FirstColumnOfExport();
    LastColumnOfExport();
    EmailColumnOfExport();
    PhoneColumnOfExport();
  }

  /** The cells the import reads from an export line: seven of them, the first
      four being the contact's names, email and phone. */
  lemma ExportLineCells(c: Contact)
    requires Avoids(c, ',') && Avoids(c, '"')
    ensures var values := CellValues(ExportLine(c));
      |values| == 7 && values[0] == c.firstName && values[1] == c.lastName
      && values[2] == c.email && values[3] == c.phone
  {
    ExportLineValues(c);
    var q := QuotedFields(c);
    var values := CellValues(ExportLine(c));
    assert values[0] == CellValue(q[0]) && values[1] == CellValue(q[1]);
    assert values[2] == CellValue(q[2]) && values[3] == CellValue(q[3]);
    CellValueQuote(c.firstName);
    CellValueQuote(c.lastName);
    CellValueQuote(c.email);
    CellValueQuote(c.phone);
  }

  /** An export line of a contact without commas is read as its seven quoted
      cells, each cleaned. */
  lemma ExportLineValues(c: Contact)
    requires Avoids(c, ',')
    ensures CellValues(ExportLine(c)) == seq(7, k requires 0 <= k < 7 => CellValue(QuotedFields(c)[k]))
  {
    StatusNamePlain(c.status);
    QuotedFieldsAvoid(c, ',');
    CellValuesOfJoin(QuotedFields(c));
  }

  /** Under a header whose name, email and phone columns are the first four, a
      line of at least four cells is read as those four cells. */
  lemma RowFieldsLeading(headers: seq<string>, line: string)
    requires ColumnOf(headers, "first") == 0 && ColumnOf(headers, "last") == 1
    requires ColumnOf(headers, "email") == 2 && ColumnOf(headers, "phone") == 3
    requires |CellValues(line)| >= 4
    ensures var v := CellValues(line);
      RowFields(headers, line) == Fields(v[0], v[1], v[2], v[3])
  {
  }

  /** Read under such a header, an export line yields the contact's four
      fields, and is accepted exactly when the contact is acceptable. */
  lemma ExportLineRead(headers: seq<string>, c: Contact)
    requires ColumnOf(headers, "first") == 0 && ColumnOf(headers, "last") == 1
    requires ColumnOf(headers, "email") == 2 && ColumnOf(headers, "phone") == 3
    requires Avoids(c, ',') && Avoids(c, '"')
    ensures RowFields(headers, ExportLine(c)) == FieldsOf(c)
    ensures RowAccepted(headers, ExportLine(c)) <==> Acceptable(FieldsOf(c))
  {
    ExportLineCells(c);
    RowFieldsLeading(headers, ExportLine(c));
  }

  // ---------------------------------------------------------------------------
  // Import

  /** The record the import makes of an accepted data line `i`: its id is the
      clock reading followed by the line number. */
  function RowContact(headers: seq<string>, line: string, i: nat, now: string, today: string): Contact {
    var f := RowFields(headers, line);
    Contact(now + NatToString(i), f.firstName, f.lastName, f.email, f.phone, today, [], Active)
  }

  function LineContact(headers: seq<string>, now: string, today: string): (nat, string) -> Contact {
    (i: nat, line: string) => RowContact(headers, line, i, now, today)
  }

  /** The records read from data lines 1 .. n-1, in file order. */
  function ImportedPrefix(headers: seq<string>, lines: seq<string>, n: nat, now: string, today: string): seq<Contact>
    requires n <= |lines|
  {
    Collect(lines, LineAccepted(headers), LineContact(headers, now, today), 1, n)
  }

  /** What reading a file's text does, as this screen's import decides it: no
      column check, the same row rule. */
  function ContactsImport(text: string, now: string, today: string): Outcome<Contact> {
    var lines := ContentLines(text);
    if |lines| < 2 then Rejected(HeaderRowMessage)
    else
      var parsed := ImportedPrefix(HeaderNames(lines[0]), lines, |lines|, now, today);
      if |parsed| == 0 then Rejected(NoValidContactsMessage) else Parsed(parsed)
  }

  /** The records are those of the accepted lines, one each, in file order:
      each carries that line's fields, is acceptable, active, untagged, dated
      today, and has the line number after the clock reading as its id. */
  lemma ImportedRows(headers: seq<string>, lines: seq<string>, now: string, today: string)
    ensures var cs := ImportedPrefix(headers, lines, |lines|, now, today);
      var ix := AcceptedLines(headers, lines);
      |cs| == |ix|
      && forall j :: 0 <= j < |cs| ==>
        && FieldsOf(cs[j]) == RowFields(headers, lines[ix[j]]) && Acceptable(FieldsOf(cs[j]))
        && cs[j].id == now + NatToString(ix[j]) && cs[j].status == Active
        && cs[j].tags == [] && cs[j].dateAdded == today
  {
    var ix := AcceptedLines(headers, lines);
    CollectAtPositions(lines, LineAccepted(headers), LineContact(headers, now, today), 1, |lines|);
    AcceptedLinesSpec(headers, lines);
    forall j | 0 <= j < |ix| ensures RowAccepted(headers, lines[ix[j]]) {
      assert ix[j] in ix;
    }
  }

  /** An import succeeds exactly when the file has a header and a data line and
      some line is accepted; it then yields at most one record per data line. */
  lemma ContactsImportSpec(text: string, now: string, today: string)
    ensures var lines := ContentLines(text);
      ContactsImport(text, now, today).Parsed? <==>
        |lines| >= 2 && AcceptedLines(HeaderNames(lines[0]), lines) != []
    ensures ContactsImport(text, now, today).Parsed? ==>
      1 <= |ContactsImport(text, now, today).rows| <= |ContentLines(text)| - 1
    ensures |ContentLines(text)| < 2 ==> ContactsImport(text, now, today) == Rejected(HeaderRowMessage)
    ensures var lines := ContentLines(text);
      |lines| >= 2 && AcceptedLines(HeaderNames(lines[0]), lines) == [] ==>
        ContactsImport(text, now, today) == Rejected(NoValidContactsMessage)
  {
    var lines := ContentLines(text);
    if |lines| >= 2 {
      ImportedRows(HeaderNames(lines[0]), lines, now, today);
      AcceptedLinesSpec(HeaderNames(lines[0]), lines);
    }
  }

  /** Two ids made from the same clock reading and different line numbers
      differ. */
  lemma IdsDiffer(now: string, i: nat, j: nat)
    requires i != j
    ensures now + NatToString(i) != now + NatToString(j)
  {
    if now + NatToString(i) == now + NatToString(j) {
      assert NatToString(i) == (now + NatToString(i))[|now|..];
      assert NatToString(j) == (now + NatToString(j))[|now|..];
      NatToStringInjective(i, j);
    }
  }

  /** The records read from the lines carry pairwise distinct ids. */
  lemma ImportedIdsDistinct(headers: seq<string>, lines: seq<string>, now: string, today: string)
    ensures var rows := ImportedPrefix(headers, lines, |lines|, now, today);
      forall i, j :: 0 <= i < j < |rows| ==> rows[i].id != rows[j].id
  {
    var rows := ImportedPrefix(headers, lines, |lines|, now, today);
    var ix := AcceptedLines(headers, lines);
    ImportedRows(headers, lines, now, today);
    AcceptedLinesSpec(headers, lines);
    forall i, j | 0 <= i < j < |rows| ensures rows[i].id != rows[j].id {
      IdsDiffer(now, ix[i], ix[j]);
    }
  }

  /** Within one import the generated ids are pairwise distinct. */
  lemma ImportIdsDistinct(text: string, now: string, today: string)
    ensures ContactsImport(text, now, today).Parsed? ==>
      var rows := ContactsImport(text, now, today).rows;
      forall i, j :: 0 <= i < j < |rows| ==> rows[i].id != rows[j].id
  {
    var lines := ContentLines(text);
    if |lines| >= 2 {
      ImportedIdsDistinct(HeaderNames(lines[0]), lines, now, today);
    }
  }

  /** The content lines of an export whose fields hold no line break are its
      header and one line per contact. */
  lemma ExportContentLines(visible: seq<Contact>)
    requires forall k :: 0 <= k < |visible| ==> Avoids(visible[k], '\n')
    ensures ContentLines(ExportText(visible)) == [ExportHeader] + ExportLines(visible)
  {
    ExportLinesClean(visible);
    ContentLinesOfJoin([ExportHeader] + ExportLines(visible));
  }

  /** When every data line is accepted and reads as the expected fields, the
      records are those fields, one per data line, in order. */
  lemma ImportOfReadLines(headers: seq<string>, lines: seq<string>, expected: seq<Fields>, now: string, today: string)
    requires |lines| == |expected| + 1
    requires forall k :: 1 <= k < |lines| ==>
      RowAccepted(headers, lines[k]) && RowFields(headers, lines[k]) == expected[k - 1]
    ensures var rows := ImportedPrefix(headers, lines, |lines|, now, today);
      |rows| == |expected| && forall k :: 0 <= k < |rows| ==> FieldsOf(rows[k]) == expected[k]
  {
    ReadLinesAccepted(headers, lines, expected);
    AcceptedLinesRead(headers, lines, expected, now, today);
  }

  lemma ReadLinesAccepted(headers: seq<string>, lines: seq<string>, expected: seq<Fields>)
    requires |lines| == |expected| + 1
    requires forall k :: 1 <= k < |lines| ==>
      RowAccepted(headers, lines[k]) && RowFields(headers, lines[k]) == expected[k - 1]
    ensures forall k :: 1 <= k < |lines| ==> LineAccepted(headers)(lines[k])
    ensures forall k :: 1 <= k < |lines| ==> RowFields(headers, lines[k]) == expected[k - 1]
  {
    forall k | 1 <= k < |lines| ensures LineAccepted(headers)(lines[k]) {
    }
  }

  lemma AcceptedLinesRead(headers: seq<string>, lines: seq<string>, expected: seq<Fields>, now: string, today: string)
    requires |lines| == |expected| + 1
    requires forall k :: 1 <= k < |lines| ==> LineAccepted(headers)(lines[k])
    requires forall k :: 1 <= k < |lines| ==> RowFields(headers, lines[k]) == expected[k - 1]
    ensures var rows := ImportedPrefix(headers, lines, |lines|, now, today);
      |rows| == |expected| && forall k :: 0 <= k < |rows| ==> FieldsOf(rows[k]) == expected[k]
  {
    var make := LineContact(headers, now, today);
    forall k | 1 <= k < |lines| ensures FieldsOf(make(k, lines[k])) == expected[k - 1] {
      LineContactFields(headers, lines[k], k, now, today);
    }
    CollectAllExpected(lines, LineAccepted(headers), make, FieldsOf, expected, 1, |lines|);
  }

  lemma LineContactFields(headers: seq<string>, line: string, i: nat, now: string, today: string)
    ensures FieldsOf(LineContact(headers, now, today)(i, line)) == RowFields(headers, line)
  {
  }

  /** The contacts' fields, in order. */
  function FieldsList(cs: seq<Contact>): seq<Fields> {
    seq(|cs|, k requires 0 <= k < |cs| => FieldsOf(cs[k]))
  }

  /** Under column names whose name, email and phone columns are the first
      four, every data line of the export of clean, acceptable contacts is
      accepted and reads as that contact's fields. */
  lemma ExportLinesRead(header: string, headers: seq<string>, visible: seq<Contact>)
    requires ColumnOf(headers, "first") == 0 && ColumnOf(headers, "last") == 1
    requires ColumnOf(headers, "email") == 2 && ColumnOf(headers, "phone") == 3
    requires forall k :: 0 <= k < |visible| ==>
      Avoids(visible[k], ',') && Avoids(visible[k], '"') && Acceptable(FieldsOf(visible[k]))
    ensures var lines := [header] + ExportLines(visible);
      forall k :: 1 <= k < |lines| ==>
        RowAccepted(headers, lines[k]) && RowFields(headers, lines[k]) == FieldsList(visible)[k - 1]
  {
    var lines := [header] + ExportLines(visible);
    forall k | 1 <= k < |lines|
      ensures RowAccepted(headers, lines[k]) && RowFields(headers, lines[k]) == FieldsList(visible)[k - 1]
    {
      ConsIndex(header, ExportLines(visible), k - 1);
      ExportLineRead(headers, visible[k - 1]);
    }
  }

  /** Exporting acceptable contacts whose fields hold no comma, quote or line
      break, and importing the export, reads every contact back, in order, with
      the same names, email and phone. */
  lemma ExportThenImport(visible: seq<Contact>, now: string, today: string)
    requires |visible| >= 1
    requires forall k :: 0 <= k < |visible| ==>
      Avoids(visible[k], '\n') && Avoids(visible[k], ',') && Avoids(visible[k], '"') && Acceptable(FieldsOf(visible[k]))
    ensures ContactsImport(ExportText(visible), now, today).Parsed?
    ensures var rows := ContactsImport(ExportText(visible), now, today).rows;
      |rows| == |visible| && forall k :: 0 <= k < |rows| ==> FieldsOf(rows[k]) == FieldsOf(visible[k])
  {
    ExportContentLines(visible);
    ExportHeaderColumns();
    ExportLinesRead(ExportHeader, HeaderNames(ExportHeader), visible);
    ImportOfReadLines(HeaderNames(ExportHeader), [ExportHeader] + ExportLines(visible), FieldsList(visible), now, today);
  }

  // ---------------------------------------------------------------------------
  // The screen

  /** The import loop of `parseCSV`: a record for each data line with at least
      four cells that passes the acceptance rule, pushed in file order. */
  method CollectContacts(headers: seq<string>, lines: seq<string>, now: string, today: string)
    returns (parsed: seq<Contact>)
    requires |lines| >= 1
    ensures parsed == ImportedPrefix(headers, lines, |lines|, now, today)
  {
    parsed := [];
    var i := 1;
    while i < |lines|
      invariant 1 <= i <= |lines|
      invariant parsed == ImportedPrefix(headers, lines, i, now, today)
    {
      var values := CellValues(lines[i]);
      if |values| >= 4 {
        var contact := Contact(now + NatToString(i),
          Cell(values, ColumnOf(headers, "first")), Cell(values, ColumnOf(headers, "last")),
          Cell(values, ColumnOf(headers, "email")), Cell(values, ColumnOf(headers, "phone")),
          today, [], Active);
        if contact.firstName != "" && contact.lastName != "" && (contact.email != "" || contact.phone != "") {
          parsed := parsed + [contact];
        }
      }
      i := i + 1;
    }
  }

  /** The text steps of `parseCSV`'s load handler, up to the state update. */
  method ReadCsv(text: string, now: string, today: string) returns (outcome: Outcome<Contact>)
    ensures outcome == ContactsImport(text, now, today)
  {
    var lines := ContentLines(text);
    if |lines| < 2 {
      return Rejected(HeaderRowMessage);
    }
    var headers := HeaderNames(lines[0]);
    var parsed := CollectContacts(headers, lines, now, today);
    if |parsed| == 0 {
      return Rejected(NoValidContactsMessage);
    }
    return Parsed(parsed);
  }

  /** Every record read from the lines passes the acceptance rule. */
  lemma RowsAcceptable(headers: seq<string>, lines: seq<string>, now: string, today: string)
    ensures var rows := ImportedPrefix(headers, lines, |lines|, now, today);
      forall j :: 0 <= j < |rows| ==> Acceptable(FieldsOf(rows[j]))
  {
    ImportedRows(headers, lines, now, today);
  }

  /** Every record of a successful import passes the acceptance rule. */
  lemma ImportAcceptable(text: string, now: string, today: string)
    ensures ContactsImport(text, now, today).Parsed? ==>
      forall j :: 0 <= j < |ContactsImport(text, now, today).rows| ==>
        Acceptable(FieldsOf(ContactsImport(text, now, today).rows[j]))
  {
    var lines := ContentLines(text);
    if |lines| >= 2 {
      RowsAcceptable(HeaderNames(lines[0]), lines, now, today);
    }
  }

  class ContactsScreen {
    var contacts: seq<Contact>
    var selected: seq<string>
    var searchTerm: string
    var filterStatus: string
    var showAddForm: bool
    var csvFile: Option<FileInfo>
    var csvError: string
    var newContact: ContactForm

    /** Every contact passes the acceptance rule: the seed contacts do, and
        entry and import only add contacts that do. */
    ghost predicate Valid()
      reads this
    {
      forall k :: 0 <= k < |contacts| ==> Acceptable(FieldsOf(contacts[k]))
    }

    constructor ()
      ensures Valid()
      ensures contacts == SeedContacts && selected == [] && searchTerm == "" && filterStatus == "all"
      ensures !showAddForm && csvFile == None && csvError == "" && newContact == EmptyForm
    {
      contacts := SeedContacts;
      selected := [];
      searchTerm := "";
      filterStatus := "all";
      showAddForm := false;
      csvFile := None;
      csvError := "";
      newContact := EmptyForm;
    }

    /** The contacts the table shows. */
    function FilteredContacts(): seq<Contact>
      reads this
    {
      Visible(contacts, searchTerm, filterStatus)
    }

    /** The text `exportContacts` downloads: the listed contacts only. */
    function ExportContacts(): string
      reads this
    {
      ExportText(FilteredContacts())
    }

    /** The download is the header line and then one line per LISTED contact,
        in list order: contacts the search or the status filter hide are not
        exported. */
    lemma ExportCoversListed()
      requires forall k :: 0 <= k < |FilteredContacts()| ==> Avoids(FilteredContacts()[k], '\n')
      ensures var lines := Split(ExportContacts(), '\n');
        && lines[0] == ExportHeaderText && |lines| == 1 + |FilteredContacts()|
        && forall k :: 0 <= k < |FilteredContacts()| ==> lines[k + 1] == ExportLine(FilteredContacts()[k])
    {
      ExportShape(FilteredContacts());
    }

    /** `handleSelectAll`: ticking selects exactly the listed contacts' ids, in
        list order; unticking clears the selection. */
    method HandleSelectAll(checked: bool)
      modifies this`selected
      ensures checked ==> selected == Ids(FilteredContacts())
      ensures !checked ==> selected == []
    {
      if checked {
        selected := Ids(FilteredContacts());
      } else {
        selected := [];
      }
    }

    /** `handleSelectContact`: ticking appends the id (even if already there);
        unticking removes every occurrence of it. */
    method HandleSelectContact(id: string, checked: bool)
      modifies this`selected
      ensures checked ==> selected == old(selected) + [id]
      ensures !checked ==> selected == Filter(old(selected), Other(id))
    {
      if checked {
        selected := selected + [id];
      } else {
        selected := Filter(selected, Other(id));
      }
    }

    /** `addContact`: with both names and an email or a phone, one active
        contact is put FIRST, the form is cleared and hidden; otherwise nothing
        changes. */
    method AddContact(now: string, today: string)
      requires Valid()
      modifies this`contacts, this`newContact, this`showAddForm
      ensures Valid()
      ensures Acceptable(FormFields(old(newContact))) ==>
        var f := old(newContact);
        && contacts == [Contact(now, f.firstName, f.lastName, f.email, f.phone, today, SplitTags(f.tags), Active)] + old(contacts)
        && newContact == EmptyForm && !showAddForm
      ensures !Acceptable(FormFields(old(newContact))) ==>
        contacts == old(contacts) && newContact == old(newContact) && showAddForm == old(showAddForm)
    {
      if newContact.firstName == "" || newContact.lastName == ""
        || (newContact.email == "" && newContact.phone == "") {
        return;
      }
      var contact := Contact(now, newContact.firstName, newContact.lastName, newContact.email,
                             newContact.phone, today, SplitTags(newContact.tags), Active);
      contacts := [contact] + contacts;
      newContact := EmptyForm;
      showAddForm := false;
    }

    /** `deleteContact`: every contact with the id leaves the list and the id
        leaves the selection; the rest keep their order. */
    method DeleteContact(id: string)
      requires Valid()
      modifies this`contacts, this`selected
      ensures Valid()
      ensures contacts == Filter(old(contacts), HasOtherId(id))
      ensures selected == Filter(old(selected), Other(id))
    {
      var before := contacts;
      contacts := Filter(contacts, HasOtherId(id));
      forall k | 0 <= k < |contacts| ensures Acceptable(FieldsOf(contacts[k])) {
        FilterMember(before, HasOtherId(id), contacts[k]);
      }
      selected := Filter(selected, Other(id));
    }

    /** `deleteSelectedContacts`: the contacts whose id is selected leave the
        list, and the selection is cleared. */
    method DeleteSelectedContacts()
      requires Valid()
      modifies this`contacts, this`selected
      ensures Valid()
      ensures contacts == Filter(old(contacts), NotSelected(old(selected)))
      ensures selected == []
    {
      var before := contacts;
      contacts := Filter(contacts, NotSelected(selected));
      forall k | 0 <= k < |contacts| ensures Acceptable(FieldsOf(contacts[k])) {
        FilterMember(before, NotSelected(selected), contacts[k]);
      }
      selected := [];
    }

    /** The state an import of `text` leaves, from the contacts and file before it. */
    ghost predicate ImportApplied(text: string, now: string, today: string,
                                  before: seq<Contact>, fileBefore: Option<FileInfo>)
      reads this
    {
      match ContactsImport(text, now, today)
      case Rejected(message) => csvError == message && contacts == before && csvFile == fileBefore
      case Parsed(rows) => contacts == rows + before && csvError == "" && csvFile == None
    }

    /** `parseCSV`'s load handler: on success the parsed records go IN FRONT of
        the existing contacts, the error is cleared and the file forgotten; on
        failure only the error banner changes. */
    method ParseCsv(text: string, now: string, today: string)
      requires Valid()
      modifies this`contacts, this`csvError, this`csvFile
      ensures Valid()
      ensures ImportApplied(text, now, today, old(contacts), old(csvFile))
    {
      var outcome := ReadCsv(text, now, today);
      match outcome
      case Rejected(message) =>
        csvError := message;
      case Parsed(rows) =>
        ImportAcceptable(text, now, today);
        contacts := rows + contacts;
        csvError := "";
        csvFile := None;
    }

    /** `handleFileUpload`, given the chosen file (if any) and its text: a file
        that is not CSV only sets the error; otherwise the file is kept, the
        error cleared and the text imported. There is no size limit here. */
    method HandleFileUpload(file: Option<FileInfo>, text: string, now: string, today: string)
      requires Valid()
      modifies this`contacts, this`csvFile, this`csvError
      ensures Valid()
      ensures file.None? ==>
        contacts == old(contacts) && csvFile == old(csvFile) && csvError == old(csvError)
      ensures file.Some? && !LooksLikeCsv(file.value) ==>
        csvError == NotCsvMessage && contacts == old(contacts) && csvFile == old(csvFile)
      ensures file.Some? && LooksLikeCsv(file.value) ==>
        ImportApplied(text, now, today, old(contacts), file)
    {
      if file.None? {
        return;
      }
      if !LooksLikeCsv(file.value) {
        csvError := NotCsvMessage;
        return;
      }
      csvFile := file;
      csvError := "";
      ParseCsv(text, now, today);
    }
  }
}
