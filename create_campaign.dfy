/**
  The campaign wizard (client/pages/CreateCampaign.tsx): its recipient list,
  the CSV upload with the required-column check, manual entry, removal by
  position, the submit guard and the message preview.
 */
module CreateCampaign {
  import opened Text
  import opened Lists
  import opened CsvImport

  /** A wizard recipient carries exactly the four fields read from a row. */
  type Contact = Fields

  datatype Tab = Details | ContactsTab | Review

  datatype Channel = Sms | Email | Both

  datatype CampaignData = CampaignData(name: string, channel: Channel, message: string, scheduledFor: string)

  const MaxFileSize: nat := 5 * 1024 * 1024
  const TooLargeMessage := "File size must be less than 5MB"
  const MissingColumnsPrefix := "Missing required columns: "

  /** The required columns, under the names the error banner lists. */
  const RequiredFields: seq<string> := ["first name", "last name", "email", "phone"]

  /** The wizard looks for `field.replace(" ", "")` among the header names:
      only the first space is removed, so "first name" is looked for as
      "firstname". */
  predicate HasRequiredColumn(headers: seq<string>, field: string) {
    HasHeader(headers, DeleteFirst(field, ' '))
  }

  function MissingColumns(headers: seq<string>): seq<string> {
    Filter(RequiredFields, (field: string) => !HasRequiredColumn(headers, field))
  }

  /** A required field is reported missing exactly when no header name includes
      it with its first space removed; the report follows the order of the
      required fields. */
  lemma MissingColumnsSpec(headers: seq<string>, field: string)
    ensures field in MissingColumns(headers) <==> field in RequiredFields && !HasRequiredColumn(headers, field)
  {
    FilterMember(RequiredFields, (field: string) => !HasRequiredColumn(headers, field), field);
  }

  /** The records read from data lines 1 .. n-1, in file order. */
  function ImportedPrefix(headers: seq<string>, lines: seq<string>, n: nat): seq<Contact>
    requires n <= |lines|
  {
    Collect(lines, LineAccepted(headers), LineFields(headers), 1, n)
  }

  /** The records are those of the accepted lines, one each, in file order, so
      each of them passes the acceptance rule. */
  lemma ImportedRows(headers: seq<string>, lines: seq<string>)
    ensures var cs := ImportedPrefix(headers, lines, |lines|);
      var ix := AcceptedLines(headers, lines);
      |cs| == |ix|
      && forall j :: 0 <= j < |cs| ==> cs[j] == RowFields(headers, lines[ix[j]]) && Acceptable(cs[j])
  {
    var ix := AcceptedLines(headers, lines);
    CollectAtPositions(lines, LineAccepted(headers), LineFields(headers), 1, |lines|);
    AcceptedLinesSpec(headers, lines);
    forall j | 0 <= j < |ix| ensures RowAccepted(headers, lines[ix[j]]) {
      assert ix[j] in ix;
    }
  }

  /** The data-row loop of the import: a record for each line that has at least
      four cells and passes the acceptance rule, pushed in file order. */
  method CollectContacts(headers: seq<string>, lines: seq<string>) returns (parsed: seq<Contact>)
    requires |lines| >= 1
    ensures parsed == ImportedPrefix(headers, lines, |lines|)
  {
    parsed := [];
    var i := 1;
    while i < |lines|
      invariant 1 <= i <= |lines|
      invariant parsed == ImportedPrefix(headers, lines, i)
    {
      var values := CellValues(lines[i]);
      if |values| >= 4 {
        var contact := Fields(Cell(values, ColumnOf(headers, "first")), Cell(values, ColumnOf(headers, "last")),
                              Cell(values, ColumnOf(headers, "email")), Cell(values, ColumnOf(headers, "phone")));
        if Acceptable(contact) {
          parsed := parsed + [contact];
        }
      }
      i := i + 1;
    }
  }

  /** What reading a file's text does, as the wizard's import handler decides it. */
  function CampaignImport(text: string): Outcome<Contact> {
    var lines := ContentLines(text);
    if |lines| < 2 then Rejected(HeaderRowMessage)
    else
      var headers := HeaderNames(lines[0]);
      var missing := MissingColumns(headers);
      if |missing| > 0 then Rejected(MissingColumnsPrefix + Join(missing, ", "))
      else
        var parsed := ImportedPrefix(headers, lines, |lines|);
        if |parsed| == 0 then Rejected(NoValidContactsMessage) else Parsed(parsed)
  }

  /** A successful import yields at least one and at most one record per data
      line, each passing the acceptance rule; it succeeds exactly when the file
      has a header and a data line, no required column is missing and some line
      is accepted. */
  lemma CampaignImportSpec(text: string)
    ensures var lines := ContentLines(text);
      CampaignImport(text).Parsed? <==>
        |lines| >= 2 && MissingColumns(HeaderNames(lines[0])) == []
        && AcceptedLines(HeaderNames(lines[0]), lines) != []
    ensures CampaignImport(text).Parsed? ==>
      var rows := CampaignImport(text).rows;
      1 <= |rows| <= |ContentLines(text)| - 1 && forall j :: 0 <= j < |rows| ==> Acceptable(rows[j])
    ensures |ContentLines(text)| < 2 ==> CampaignImport(text) == Rejected(HeaderRowMessage)
    ensures var lines := ContentLines(text);
      |lines| >= 2 && MissingColumns(HeaderNames(lines[0])) == [] && AcceptedLines(HeaderNames(lines[0]), lines) == [] ==>
        CampaignImport(text) == Rejected(NoValidContactsMessage)
  {
    var lines := ContentLines(text);
    if |lines| >= 2 {
      ImportedRows(HeaderNames(lines[0]), lines);
      AcceptedLinesSpec(HeaderNames(lines[0]), lines);
    }
  }

  /** Every record of a successful import passes the acceptance rule. */
  lemma ImportAcceptable(text: string)
    ensures CampaignImport(text).Parsed? ==>
      forall j :: 0 <= j < |CampaignImport(text).rows| ==> Acceptable(CampaignImport(text).rows[j])
  {
    var lines := ContentLines(text);
    if |lines| >= 2 {
      ImportedRows(HeaderNames(lines[0]), lines);
    }
  }

  /** The text steps of `parseCSV`'s load handler, up to the state update. */
  method ReadCsv(text: string) returns (outcome: Outcome<Contact>)
    ensures outcome == CampaignImport(text)
  {
    var lines := ContentLines(text);
    if |lines| < 2 {
      return Rejected(HeaderRowMessage);
    }
    var headers := HeaderNames(lines[0]);
    var missing := MissingColumns(headers);
    if |missing| > 0 {
      return Rejected(MissingColumnsPrefix + Join(missing, ", "));
    }
    ImportedRows(headers, lines);
    outcome := ReadRows(headers, lines);
  }

  /** The end of the load handler: the data-row loop, then the no-valid-contacts
      check. */
  method ReadRows(headers: seq<string>, lines: seq<string>) returns (outcome: Outcome<Contact>)
    requires |lines| >= 1
    ensures AcceptedLines(headers, lines) == [] ==> outcome == Rejected(NoValidContactsMessage)
    ensures AcceptedLines(headers, lines) != [] ==> outcome == Parsed(ImportedPrefix(headers, lines, |lines|))
  {
    var parsed := CollectContacts(headers, lines);
    ImportedRows(headers, lines);
    if |parsed| == 0 {
      return Rejected(NoValidContactsMessage);
    }
    return Parsed(parsed);
  }

  /** The template the wizard offers for download: a header line and two
      sample rows. */
  const TemplateHeader := "First Name,Last Name,Email,Phone"
  const TemplateRows: seq<string> :=
    ["John,Doe,john@example.com,(555) 123-4567", "Jane,Smith,jane@example.com,(555) 987-6543"]
  const TemplateCsv := TemplateHeader + "\n" + TemplateRows[0] + "\n" + TemplateRows[1]

  /** The header names the template's header line yields. */
  const TemplateHeaders: seq<string> := ["first name", "last name", "email", "phone"]

  const TemplateColumns: seq<string> := ["First Name", "Last Name", "Email", "Phone"]

  lemma TemplateHeaderJoin()
    ensures Join(TemplateColumns, ",") == TemplateHeader
  {
    var c := TemplateColumns;
    assert c[1..][1..][1..] == ["Phone"];
    JoinPair("Email", "Phone", ",");
  }

  lemma TemplateHeaderCells()
    ensures forall k :: 0 <= k < |TemplateColumns| ==> ',' !in TemplateColumns[k] && Trimmed(TemplateColumns[k])
  {
  }

  lemma TemplateColumnsLowered()
    ensures forall k :: 0 <= k < |TemplateColumns| ==> ToLower(TemplateColumns[k]) == TemplateHeaders[k]
  {
    assert ToLower("First Name") == "first name";
    assert ToLower("Last Name") == "last name";
    assert ToLower("Email") == "email";
    assert ToLower("Phone") == "phone";
  }

  /** The template's header line yields the names lower-cased. */
  lemma TemplateHeaderNames()
    ensures HeaderNames(TemplateHeader) == TemplateHeaders
  {
    TemplateHeaderJoin();
    TemplateHeaderCells();
    HeaderNamesOfJoin(TemplateColumns);
    TemplateColumnsLowered();
  }

  /** The names the check looks for: only the first space goes. */
  lemma FirstNameKey()
    ensures DeleteFirst("first name", ' ') == "firstname"
  {
    FirstNameParts();
    DeleteFirstAt("first", ' ', "name");
  }

  lemma FirstNameParts()
    ensures "first" + [' '] + "name" == "first name" && "first" + "name" == "firstname"
  {
  }

  lemma LastNameKey()
    ensures DeleteFirst("last name", ' ') == "lastname"
  {
    LastNameParts();
    DeleteFirstAt("last", ' ', "name");
  }

  lemma LastNameParts()
    ensures "last" + [' '] + "name" == "last name" && "last" + "name" == "lastname"
  {
  }

  lemma ContactKeys()
    ensures DeleteFirst("email", ' ') == "email" && DeleteFirst("phone", ' ') == "phone"
  {
    DeleteFirstSpec("email", ' ');
    DeleteFirstSpec("phone", ' ');
  }

  /** "first name" and "last name" do not include their keys, the space being in
      the way. */
  lemma SpacedNamesLackKeys()
    ensures !Contains("first name", "firstname") && !Contains("last name", "lastname")
  {
    assert "first name" == "first" + " " + "name";
    SpaceBlocks("first", "name", "firstname");
    assert "last name" == "last" + " " + "name";
    SpaceBlocks("last", "name", "lastname");
  }

  /** The other template headers lack a character of each key. */
  lemma OtherHeadersLackKeys()
    ensures !Contains("last name", "firstname") && !Contains("email", "firstname") && !Contains("phone", "firstname")
    ensures !Contains("first name", "lastname") && !Contains("email", "lastname") && !Contains("phone", "lastname")
  {
    MissingCharBlocks("last name", "firstname", 'f');
    MissingCharBlocks("first name", "lastname", 'l');
  }

  /** The check looks for "firstname", which no template header includes. */
  lemma TemplateLacksFirstName()
    ensures !HasRequiredColumn(TemplateHeaders, "first name")
  {
    FirstNameKey();
    SpacedNamesLackKeys();
    OtherHeadersLackKeys();
  }

  /** The check looks for "lastname", which no template header includes. */
  lemma TemplateLacksLastName()
    ensures !HasRequiredColumn(TemplateHeaders, "last name")
  {
    LastNameKey();
    SpacedNamesLackKeys();
    OtherHeadersLackKeys();
  }

  lemma TemplateHasContactColumns()
    ensures HasRequiredColumn(TemplateHeaders, "email") && HasRequiredColumn(TemplateHeaders, "phone")
  {
    ContactKeys();
    assert OccursAt(TemplateHeaders[2], "email", 0) && OccursAt(TemplateHeaders[3], "phone", 0);
  }

  lemma TemplateMissingColumns()
    ensures MissingColumns(TemplateHeaders) == ["first name", "last name"]
  {
    TemplateLacksFirstName();
    TemplateLacksLastName();
    TemplateHasContactColumns();
    var keep := (field: string) => !HasRequiredColumn(TemplateHeaders, field);
    FilterOfFour("first name", "last name", "email", "phone", keep);
  }

  /** Filtering a four-element list, spelled out. */
  lemma FilterOfFour<T>(a: T, b: T, c: T, d: T, p: T -> bool)
    ensures Filter([a, b, c, d], p) ==
      (if p(a) then [a] else []) + (if p(b) then [b] else []) + (if p(c) then [c] else []) + (if p(d) then [d] else [])
  {
    var s := [a, b, c, d];
    assert s[1..] == [b, c, d] && s[1..][1..] == [c, d] && s[1..][1..][1..] == [d];
    assert Filter([d], p) == (if p(d) then [d] else []) + Filter([d][1..], p);
    assert Filter([c, d], p) == (if p(c) then [c] else []) + Filter([c, d][1..], p);
    assert Filter([b, c, d], p) == (if p(b) then [b] else []) + Filter([b, c, d][1..], p);
  }

  lemma TemplateHeaderClean()
    ensures '\n' !in TemplateHeader && !AllWhite(TemplateHeader)
  {
    assert !IsWhite(TemplateHeader[0]);
  }

  /** A file with a header and a data line is rejected with the list of missing
      required columns exactly when some required field has no header that
      includes it with its first space removed. */
  lemma ImportReportsMissing(text: string)
    requires |ContentLines(text)| >= 2
    ensures var h := HeaderNames(ContentLines(text)[0]);
      (exists f :: f in RequiredFields && !HasRequiredColumn(h, f)) <==>
        CampaignImport(text) == Rejected(MissingColumnsPrefix + Join(MissingColumns(h), ", "))
  {
    var h := HeaderNames(ContentLines(text)[0]);
    SomeFieldMissing(h);
    MissingBranch(text, h);
  }

  lemma SomeFieldMissing(h: seq<string>)
    ensures (exists f :: f in RequiredFields && !HasRequiredColumn(h, f)) <==> MissingColumns(h) != []
  {
    var missing := MissingColumns(h);
    if f :| f in RequiredFields && !HasRequiredColumn(h, f) {
      MissingColumnsSpec(h, f);
    } else if missing != [] {
      MissingColumnsSpec(h, missing[0]);
    }
  }

  lemma MissingBranch(text: string, h: seq<string>)
    requires |ContentLines(text)| >= 2 && h == HeaderNames(ContentLines(text)[0])
    ensures MissingColumns(h) != [] <==>
      CampaignImport(text) == Rejected(MissingColumnsPrefix + Join(MissingColumns(h), ", "))
  {
    if MissingColumns(h) == [] {
      EmptyReportDiffers();
    }
  }

  /** The banner for an empty list of missing columns is not the no-valid-contacts
      banner, so the two outcomes cannot be confused. */
  lemma EmptyReportDiffers()
    ensures NoValidContactsMessage != MissingColumnsPrefix + Join([], ", ")
  {
    assert NoValidContactsMessage[0] != (MissingColumnsPrefix + Join([], ", "))[0];
  }

  /** The missing columns are listed in the order of the required fields:
      first name, last name, email, phone. */
  lemma MissingColumnsInOrder(h: seq<string>)
    ensures MissingColumns(h) ==
      (if HasRequiredColumn(h, "first name") then [] else ["first name"])
      + (if HasRequiredColumn(h, "last name") then [] else ["last name"])
      + (if HasRequiredColumn(h, "email") then [] else ["email"])
      + (if HasRequiredColumn(h, "phone") then [] else ["phone"])
  {
    FilterOfFour("first name", "last name", "email", "phone", (field: string) => !HasRequiredColumn(h, field));
  }

  /** The column check looks for "firstname" and "lastname", which the
      template's "First Name" and "Last Name" headers do not include: the
      wizard rejects its own template. */
  lemma TemplateRejected()
    ensures CampaignImport(TemplateCsv) == Rejected(MissingColumnsPrefix + "first name, last name")
  {
    var rest := TemplateRows[0] + "\n" + TemplateRows[1];
    assert TemplateCsv == TemplateHeader + "\n" + rest;
    TemplateHeaderClean();
    ContentLinesCons(TemplateHeader, rest);
    assert !IsWhite(rest[0]);
    ContentLinesNonEmpty(rest);
    TemplateHeaderNames();
    TemplateMissingColumns();
    TemplateLacksFirstName();
    ImportReportsMissing(TemplateCsv);
    MissingNamesMessage();
  }

  lemma MissingNamesMessage()
    ensures Join(["first name", "last name"], ", ") == "first name, last name"
  {
    JoinPair("first name", "last name", ", ");
  }

  /** The placeholders the preview fills in, and the sample values. */
  const FirstNameTag := "{{firstName}}"
  const LastNameTag := "{{lastName}}"
  const BusinessNameTag := "{{businessName}}"
  const LinkTag := "{{link}}"
  const Tags: seq<string> := [FirstNameTag, LastNameTag, BusinessNameTag, LinkTag]
  const Samples: seq<string> := ["John", "Doe", "Your Business", "https://oneclick.reviews/r/abc123"]

  /** The review step's message preview: each placeholder replaced everywhere
      by its sample value, one placeholder after another. */
  function Preview(message: string): string {
    ReplaceAll(ReplaceAll(ReplaceAll(ReplaceAll(message,
      FirstNameTag, Samples[0]), LastNameTag, Samples[1]), BusinessNameTag, Samples[2]), LinkTag, Samples[3])
  }

  /** "{{" + a name + "}}", with no other brace of the kind. */
  predicate PlaceholderShaped(w: string) {
    && |w| >= 4 && w[0] == '{' && w[1] == '{' && w[|w| - 2] == '}' && w[|w| - 1] == '}'
    && '{' !in w[2..] && '}' !in w[..|w| - 2]
  }

  /** One placeholder never starts with a different one. */
  lemma PlaceholderNotPrefix(w: string, p: string, u: string)
    requires PlaceholderShaped(w) && PlaceholderShaped(p) && w != p
    ensures !StartsWith(w + u, p)
  {
    var s := w + u;
    if |p| <= |s| {
      if |p| < |w| {
        assert w[..|w| - 2][|p| - 2] == w[|p| - 2] != '}';
        assert s[..|p|][|p| - 2] == w[|p| - 2];
      } else if |p| == |w| {
        assert s[..|p|] == w;
      } else {
        assert p[..|p| - 2][|w| - 2] == p[|w| - 2] != '}';
        assert s[..|p|][|w| - 2] == w[|w| - 2];
      }
    }
  }

  /** A placeholder other than the pattern is copied by a replacement pass. */
  lemma ReplaceSkipsOtherPlaceholder(w: string, u: string, p: string, r: string)
    requires PlaceholderShaped(p) && PlaceholderShaped(w) && w != p
    ensures ReplaceAll(w + u, p, r) == w + ReplaceAll(u, p, r)
  {
    var s := w + u;
    PlaceholderNotPrefix(w, p, u);
    assert s[1..] == w[1..] + u;
    assert !StartsWith(s[1..], p) by {
      assert w[2..][0] == w[2];
      if |p| <= |s[1..]| { assert s[1..][..|p|][1] == w[2]; }
    }
    assert s[1..][1..] == w[2..] + u;
    ReplaceAllSkips(w[2..], u, p, r);
    assert [w[0]] + ([w[1]] + w[2..]) == w;
  }

  /** One replacement pass over plain text, a piece `w` (a placeholder or plain
      text) and the rest: the plain text is kept, `w` is replaced when it is
      the pattern and kept otherwise, and the pass goes on with the rest. */
  lemma ReplacePass(t: string, w: string, u: string, p: string, r: string)
    requires '{' !in t && PlaceholderShaped(p)
    requires PlaceholderShaped(w) || '{' !in w
    ensures ReplaceAll(t + w + u, p, r) == t + (if w == p then r else w) + ReplaceAll(u, p, r)
  {
    assert t + w + u == t + (w + u);
    ReplaceAllSkips(t, w + u, p, r);
    if '{' !in w {
      assert p[0] in p;
      ReplaceAllSkips(w, u, p, r);
    } else if w == p {
      ReplaceAllHit(u, p, r);
    } else {
      ReplaceSkipsOtherPlaceholder(w, u, p, r);
    }
  }

  /** "{{" + a brace-free name + "}}" is placeholder-shaped. */
  lemma Braced(name: string)
    requires '{' !in name && '}' !in name
    ensures PlaceholderShaped("{{" + name + "}}")
  {
    var w := "{{" + name + "}}";
    assert w[2..] == name + "}}";
    assert w[..|w| - 2] == "{{" + name;
  }

  lemma FirstNameTagShaped() ensures PlaceholderShaped(FirstNameTag) {
    assert FirstNameTag == "{{" + "firstName" + "}}";
    Braced("firstName");
  }

  lemma LastNameTagShaped() ensures PlaceholderShaped(LastNameTag) {
    assert LastNameTag == "{{" + "lastName" + "}}";
    Braced("lastName");
  }

  lemma BusinessNameTagShaped() ensures PlaceholderShaped(BusinessNameTag) {
    assert BusinessNameTag == "{{" + "businessName" + "}}";
    Braced("businessName");
  }

  lemma LinkTagShaped() ensures PlaceholderShaped(LinkTag) {
    assert LinkTag == "{{" + "link" + "}}";
    Braced("link");
  }

  /** Every placeholder is placeholder-shaped and no sample value holds a brace
      that could start one. */
  lemma TagsShaped()
    ensures forall i :: 0 <= i < 4 ==> PlaceholderShaped(Tags[i]) && '{' !in Samples[i]
  {
    FirstNameTagShaped();
    LastNameTagShaped();
    BusinessNameTagShaped();
    LinkTagShaped();
  }

  /** Text without an opening brace passes through the preview unchanged. */
  lemma PreviewKeepsPlainText(t: string)
    requires '{' !in t
    ensures Preview(t) == t
  {
    TagsShaped();
    var m := t;
    assert m + [] == m;
    ReplaceAllSkips(m, [], FirstNameTag, Samples[0]);
    ReplaceAllSkips(m, [], LastNameTag, Samples[1]);
    ReplaceAllSkips(m, [], BusinessNameTag, Samples[2]);
    ReplaceAllSkips(m, [], LinkTag, Samples[3]);
  }

  /** A placeholder after plain text becomes its sample value, the plain text
      is kept, and the preview carries on with what follows. */
  lemma PreviewFillsPlaceholder(t: string, i: nat, u: string)
    requires '{' !in t && i < 4
    ensures Preview(t + Tags[i] + u) == t + Samples[i] + Preview(u)
  {
    TagsShaped();
    NamePasses(t, i, u);
    var w := if i < 2 then Samples[i] else Tags[i];
    var v := ReplaceAll(ReplaceAll(u, FirstNameTag, Samples[0]), LastNameTag, Samples[1]);
    OtherPasses(t, i, w, v);
  }

  /** The first two passes, over the name placeholders. */
  lemma NamePasses(t: string, i: nat, u: string)
    requires '{' !in t && i < 4
    ensures ReplaceAll(ReplaceAll(t + Tags[i] + u, FirstNameTag, Samples[0]), LastNameTag, Samples[1])
      == t + (if i < 2 then Samples[i] else Tags[i]) + ReplaceAll(ReplaceAll(u, FirstNameTag, Samples[0]), LastNameTag, Samples[1])
  {
    TagsShaped();
    var w0 := Tags[i];
    ReplacePass(t, w0, u, FirstNameTag, Samples[0]);
    var w1 := if w0 == FirstNameTag then Samples[0] else w0;
    var u1 := ReplaceAll(u, FirstNameTag, Samples[0]);
    ReplacePass(t, w1, u1, LastNameTag, Samples[1]);
  }

  /** The last two passes, over the business name and the link. */
  lemma OtherPasses(t: string, i: nat, w: string, v: string)
    requires '{' !in t && i < 4 && w == (if i < 2 then Samples[i] else Tags[i])
    ensures ReplaceAll(ReplaceAll(t + w + v, BusinessNameTag, Samples[2]), LinkTag, Samples[3])
      == t + Samples[i] + ReplaceAll(ReplaceAll(v, BusinessNameTag, Samples[2]), LinkTag, Samples[3])
  {
    TagsShaped();
    ReplacePass(t, w, v, BusinessNameTag, Samples[2]);
    var w3 := if w == BusinessNameTag then Samples[2] else w;
    var v3 := ReplaceAll(v, BusinessNameTag, Samples[2]);
    ReplacePass(t, w3, v3, LinkTag, Samples[3]);
  }

  /** The wizard's state. */
  class Wizard {
    var campaign: CampaignData
    var contacts: seq<Contact>
    var csvFile: Option<FileInfo>
    var csvError: string
    var activeTab: Tab
    var manualContact: Contact

    /** Every recipient passes the acceptance rule: imports keep only accepted
        rows and manual entry is guarded by the same rule. */
    ghost predicate Valid()
      reads this
    {
      forall k :: 0 <= k < |contacts| ==> Acceptable(contacts[k])
    }

    constructor ()
      ensures Valid()
      ensures campaign == CampaignData("", Sms, "", "") && contacts == [] && csvFile == None
      ensures csvError == "" && activeTab == Details && manualContact == EmptyFields
    {
      campaign := CampaignData("", Sms, "", "");
      contacts := [];
      csvFile := None;
      csvError := "";
      activeTab := Details;
      manualContact := EmptyFields;
    }

    /** The state an import of `text` leaves, from the recipients and tab before it. */
    ghost predicate ImportApplied(text: string, before: seq<Contact>, tabBefore: Tab)
      reads this
    {
      match CampaignImport(text)
      case Rejected(message) => csvError == message && contacts == before && activeTab == tabBefore
      case Parsed(rows) => contacts == rows && csvError == "" && activeTab == ContactsTab
    }

    /** `parseCSV`'s load handler: on success the recipient list is REPLACED by
        the parsed records and the wizard moves to the contacts tab; on failure
        only the error banner changes. */
    method ParseCsv(text: string)
      requires Valid()
      modifies this`contacts, this`csvError, this`activeTab
      ensures Valid()
      ensures ImportApplied(text, old(contacts), old(activeTab))
    {
      var outcome := ReadCsv(text);
      match outcome
      case Rejected(message) =>
        csvError := message;
      case Parsed(rows) =>
        ImportAcceptable(text);
        contacts := rows;
        csvError := "";
        activeTab := ContactsTab;
    }

    /** `handleFileUpload`, given the chosen file (if any) and its text: a file
        that is not CSV or is over 5 MB only sets the error; otherwise the file
        is kept, the error cleared and the text imported. */
    method HandleFileUpload(file: Option<FileInfo>, text: string)
      requires Valid()
      modifies this`contacts, this`csvFile, this`csvError, this`activeTab
      ensures Valid()
      ensures file.None? ==>
        contacts == old(contacts) && csvFile == old(csvFile) && csvError == old(csvError) && activeTab == old(activeTab)
      ensures file.Some? && !LooksLikeCsv(file.value) ==>
        csvError == NotCsvMessage && contacts == old(contacts) && csvFile == old(csvFile) && activeTab == old(activeTab)
      ensures file.Some? && LooksLikeCsv(file.value) && file.value.size > MaxFileSize ==>
        csvError == TooLargeMessage && contacts == old(contacts) && csvFile == old(csvFile) && activeTab == old(activeTab)
      ensures file.Some? && LooksLikeCsv(file.value) && file.value.size <= MaxFileSize ==>
        csvFile == file && ImportApplied(text, old(contacts), old(activeTab))
    {
      if file.None? {
        return;
      }
      if !LooksLikeCsv(file.value) {
        csvError := NotCsvMessage;
        return;
      }
      if file.value.size > MaxFileSize {
        csvError := TooLargeMessage;
        return;
      }
      csvFile := file;
      csvError := "";
      ParseCsv(text);
    }

    /** `addManualContact`: the entered contact is appended and the form cleared
        exactly when it passes the acceptance rule; otherwise nothing changes. */
    method AddManualContact()
      requires Valid()
      modifies this`contacts, this`manualContact
      ensures Valid()
      ensures Acceptable(old(manualContact)) ==>
        contacts == old(contacts) + [old(manualContact)] && manualContact == EmptyFields
      ensures !Acceptable(old(manualContact)) ==>
        contacts == old(contacts) && manualContact == old(manualContact)
    {
      if manualContact.firstName == "" || manualContact.lastName == ""
        || (manualContact.email == "" && manualContact.phone == "") {
        return;
      }
      contacts := contacts + [manualContact];
      manualContact := EmptyFields;
    }

    /** `removeContact(index)`: exactly the recipient at `index` goes, the rest
        keep their order; an index outside the list changes nothing. */
    method RemoveContact(index: int)
      requires Valid()
      modifies this`contacts
      ensures Valid()
      ensures 0 <= index < |old(contacts)| ==> contacts == old(contacts)[..index] + old(contacts)[index + 1..]
      ensures !(0 <= index < |old(contacts)|) ==> contacts == old(contacts)
    {
      DropIndexSpec(contacts, index);
      contacts := DropIndex(contacts, index);
    }

    /** `handleSubmit`'s guard: the campaign goes ahead only with a name, a
        message and at least one recipient. */
    method HandleSubmit() returns (submitted: bool)
      ensures submitted <==> campaign.name != "" && campaign.message != "" && |contacts| > 0
    {
      if campaign.name == "" || campaign.message == "" || |contacts| == 0 {
        return false;
      }
      return true;
    }
  }
}
