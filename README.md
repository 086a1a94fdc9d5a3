# Contact lists and the campaign wizard, in Dafny

This project models the contact-handling logic of two screens of a review-request
web application. Both screens are written in TypeScript and React.

- The contact list screen (`client/pages/Contacts.tsx`):
  - the table's search and status filter;
  - row selection, "select all", and deleting one or the selected contacts;
  - adding a contact by hand, with tags typed as one comma-separated string;
  - the CSV export of the listed contacts;
  - the CSV import. It puts the contacts it reads IN FRONT of the existing ones.
- The campaign wizard (`client/pages/CreateCampaign.tsx`):
  - the recipient list;
  - the CSV upload, with a type and size check and a required-column check. A successful import REPLACES the list and moves to the contacts tab;
  - manual entry and removal by position;
  - the submit guard;
  - the review step's message preview;
  - the downloadable CSV template.

Files:

- `text.dfy` (module `Text`): the ECMAScript string operations the screens use, on `seq<char>`:
  - `trim`, `toLowerCase` (ASCII letters), `includes`, `endsWith`;
  - `split` on one character and `join`;
  - `replace(/"/g, "")`, `replace(" ", "")` (first occurrence only) and global placeholder replacement;
  - `Number.prototype.toString` for the line number in an imported id.
- `lists.dfy` (module `Lists`): `Array.prototype.filter` and the filter that drops one index. It also holds the "push each accepted row" loop written as a function, with its positions.
- `csv.dfy` (module `CsvImport`): the row logic both importers share:
  - non-blank lines;
  - header names, trimmed and lower-cased;
  - the first header that includes a key;
  - cell cleaning;
  - the acceptance rule: at least four cells, both names, and an email or a phone.
- `create_campaign.dfy` (module `CreateCampaign`): the wizard. It has the import as a function `CampaignImport`, the loop and the load handler as methods, the template and its rejection, the preview, and the class `Wizard` holding the screen's state.
- `contacts.dfy` (module `ContactsPage`): the contact list. It has the filter, selection, deletion and tags, the export text and its round trip through the import, the import with its generated ids, and the class `ContactsScreen` holding the screen's state.

Each screen's state is a class whose fields are the React state variables. Each handler is a method that states the whole new state.

Clock readings are parameters:
- `Date.now().toString()` becomes `now`;
- the `YYYY-MM-DD` date becomes `today`.

The chosen file is given as `Option<FileInfo>` (name, MIME type, size) together with its text. The asynchronous `FileReader` step is collapsed into a direct call.

## Model

| member | source | states |
|---|---|---|
| Text.TrimSpec | client/pages/Contacts.tsx:183 | `trim` returns the slice between the white space at the front and the white space at the back; the result has no white space at either end |
| Text.TrimEmptyIffAllWhite | client/pages/Contacts.tsx:183 | `line.trim()` is empty exactly when the line is all white space, so the line filter drops exactly the blank lines |
| Text.TrimTrimmed | client/pages/Contacts.tsx:194 | `trim` leaves a string with no white space at its ends unchanged |
| Text.ToLowerSpec | client/pages/Contacts.tsx:190 | each capital A-Z becomes its own small letter, read from an alphabet table, and every other character is kept; so no capital remains and lower-casing twice is lower-casing once |
| Text.SplitSpec | client/pages/Contacts.tsx:194 | no piece of `split(",")` holds a comma |
| Text.JoinSplit | client/pages/Contacts.tsx:194 | joining the pieces of a split with the same separator gives the original string back |
| Text.SplitJoin | client/pages/Contacts.tsx:153 | splitting a join of separator-free pieces gives the pieces back, the inverse of `join` |
| Text.SplitAtFirst | client/pages/Contacts.tsx:183 | `split` stops at the first separator: the piece before it, then the split of the rest |
| Text.JoinAvoids | client/pages/Contacts.tsx:151-153 | a character in no part and not in the separator is not in the join |
| Text.DeleteAllSpec | client/pages/Contacts.tsx:194 | `replace(/"/g, "")` leaves no double quote and adds no character |
| Text.DeleteAllAppend | client/pages/Contacts.tsx:194 | deleting every quote distributes over concatenation |
| Text.DeleteFirstSpec | client/pages/CreateCampaign.tsx:123 | `replace(" ", "")` removes at most one character, and only when a space occurs |
| Text.DeleteFirstAt | client/pages/CreateCampaign.tsx:123 | only the FIRST space goes; what follows it is kept as it is |
| Text.ReplaceAllSkips | client/pages/CreateCampaign.tsx:743-750 | text that cannot start an occurrence of the pattern is copied unchanged by a global replacement |
| Text.ReplaceAllHit | client/pages/CreateCampaign.tsx:743-750 | an occurrence at the front is replaced and the scan resumes right after it |
| Text.NatToStringValue | client/pages/Contacts.tsx:198 | reading the decimal digits of `i.toString()` back gives `i` |
| Text.NatToStringInjective | client/pages/Contacts.tsx:198 | distinct line numbers have distinct decimal forms |
| Lists.FilterMember | client/pages/Contacts.tsx:88 | `filter` keeps exactly the elements that satisfy the predicate |
| Lists.FilterAppend | client/pages/Contacts.tsx:88 | filtering a concatenation filters each part in turn, so order is kept |
| Lists.FilterIdempotent | client/pages/Contacts.tsx:88 | filtering twice with the same predicate is filtering once |
| Lists.PositionsSpec | client/pages/Contacts.tsx:193-212 | a data-line position is collected exactly when it is in range and its line passes |
| Lists.PositionsOrdered | client/pages/Contacts.tsx:193-212 | collected positions are strictly increasing, so each line yields at most one record |
| Lists.CollectAtPositions | client/pages/Contacts.tsx:193-212 | the loop pushes one record per passing position, in order, each made from that position's line |
| Lists.CollectAll | client/pages/Contacts.tsx:193-212 | when every line passes, the loop pushes one record per line, in order |
| Lists.DropIndexSpec | client/pages/CreateCampaign.tsx:189-191 | `filter((_, i) => i !== index)` removes exactly the element at `index` and keeps the order of the rest; an index outside the list changes nothing |
| CsvImport.ContentLinesSpec | client/pages/Contacts.tsx:183 | a line is kept exactly when it is a line of the file and not all white space; no kept line holds a line break |
| CsvImport.ContentLinesOfJoin | client/pages/Contacts.tsx:183 | joining non-blank lines without line breaks and reading the content lines back gives the same lines |
| CsvImport.HeaderNamesOfJoin | client/pages/Contacts.tsx:190 | a header line of trimmed, comma-free cells is read as those cells lower-cased |
| CsvImport.CellValuesOfJoin | client/pages/Contacts.tsx:194 | a line of comma-free cells joined by commas is read as those cells, each cleaned |
| CsvImport.CellValuesUnquoted | client/pages/Contacts.tsx:194 | no cleaned cell holds a double quote |
| CsvImport.ColumnOfSpec | client/pages/Contacts.tsx:199-202 | `findIndex` finds the FIRST header that includes the key; -1 means no header does |
| CsvImport.AcceptedLinesSpec | client/pages/Contacts.tsx:193-212 | a data line (never the header line) is accepted exactly when it has at least four cells and its fields pass the acceptance rule; accepted lines are listed in file order, at most one per data line |
| CsvImport.MissingColumnAcceptsNothing | client/pages/Contacts.tsx:199-208 | with no header for a name, or none for both email and phone, no line is accepted |
| CreateCampaign.MissingColumnsSpec | client/pages/CreateCampaign.tsx:118-124 | a required field is reported missing exactly when no header includes it with its first space removed |
| CreateCampaign.ImportedRows | client/pages/CreateCampaign.tsx:133-159 | the records are those of the accepted lines, one each, in file order, each passing the acceptance rule |
| CreateCampaign.CollectContacts | client/pages/CreateCampaign.tsx:132-159 | the loop's result is the record of each accepted line, in order |
| CreateCampaign.ReadRows | client/pages/CreateCampaign.tsx:132-165 | when no data line is accepted the outcome is the "No valid contacts found in CSV file" error; otherwise it is the records of the accepted lines |
| CreateCampaign.ReadCsv | client/pages/CreateCampaign.tsx:107-168 | the load handler's outcome is the import's outcome, including each error message |
| CreateCampaign.CampaignImportSpec | client/pages/CreateCampaign.tsx:108-168 | an import succeeds exactly when there are a header and a data line, no required column is missing and some line is accepted. On success there are 1 to (lines - 1) records, each acceptable. Fewer than two lines gives the header-row error; no accepted line gives the no-valid-contacts error |
| CreateCampaign.ImportReportsMissing | client/pages/CreateCampaign.tsx:117-129 | a file with a header and a data line is rejected with "Missing required columns: " and the missing names joined by ", " exactly when some required field has no header that includes it with its first space removed |
| CreateCampaign.MissingColumnsInOrder | client/pages/CreateCampaign.tsx:118-124 | the missing names are listed in the order of the required fields: first name, last name, email, phone, each present only when its column is missing |
| CreateCampaign.ImportAcceptable | client/pages/CreateCampaign.tsx:151-157 | every record of a successful import passes the acceptance rule |
| CreateCampaign.TemplateHeaderNames | client/pages/CreateCampaign.tsx:195 | the template's header line reads as "first name", "last name", "email", "phone" |
| CreateCampaign.TemplateMissingColumns | client/pages/CreateCampaign.tsx:118-124 | against the template's headers, the column check reports "first name" and "last name" missing |
| CreateCampaign.TemplateRejected | client/pages/CreateCampaign.tsx:195 | importing the wizard's own template is rejected with "Missing required columns: first name, last name" |
| CreateCampaign.TagsShaped | client/pages/CreateCampaign.tsx:743-750 | the four placeholders are `{{name}}`-shaped and no sample value holds an opening brace |
| CreateCampaign.ReplacePass | client/pages/CreateCampaign.tsx:743-750 | one replacement pass keeps plain text, replaces its own placeholder, copies any other placeholder and goes on with the rest |
| CreateCampaign.PreviewKeepsPlainText | client/pages/CreateCampaign.tsx:743-750 | message text without an opening brace passes through the preview unchanged |
| CreateCampaign.PreviewFillsPlaceholder | client/pages/CreateCampaign.tsx:743-750 | each placeholder after plain text becomes its sample value, the plain text is kept and the preview continues with the rest, whatever the order of the four passes |
| CreateCampaign.Wizard.constructor | client/pages/CreateCampaign.tsx:43-59 | the wizard starts with no recipients, no file, no error, on the details tab |
| CreateCampaign.Wizard.ParseCsv | client/pages/CreateCampaign.tsx:105-168 | on success the recipient list is REPLACED by the records, the error is cleared and the contacts tab shown. On failure only the error banner changes. Every recipient stays acceptable |
| CreateCampaign.Wizard.HandleFileUpload | client/pages/CreateCampaign.tsx:83-101 | no file changes nothing. A non-CSV file sets "Please upload a CSV file". A file over 5 MB sets "File size must be less than 5MB". Otherwise the file is kept and its text imported |
| CreateCampaign.Wizard.AddManualContact | client/pages/CreateCampaign.tsx:176-187 | an entry with both names and an email or a phone is APPENDED and the form cleared; any other entry changes nothing |
| CreateCampaign.Wizard.RemoveContact | client/pages/CreateCampaign.tsx:189-191 | exactly the recipient at the index is removed, the rest keep their order; an index outside the list changes nothing |
| CreateCampaign.Wizard.HandleSubmit | client/pages/CreateCampaign.tsx:205-208 | the campaign is submitted exactly when it has a name, a message and at least one recipient |
| ContactsPage.VisibleMember | client/pages/Contacts.tsx:88-98 | a contact is listed exactly when it matches the search term (names and email case-insensitively, the phone as typed) and the status filter ("all" or its status) |
| ContactsPage.VisibleKeepsOrder | client/pages/Contacts.tsx:88-98 | the listing keeps the order of the contacts |
| ContactsPage.VisibleIdempotent | client/pages/Contacts.tsx:88-98 | filtering the listed contacts again changes nothing |
| ContactsPage.EmptySearchShowsAll | client/pages/Contacts.tsx:88-98 | with an empty search and the "all" filter every contact is listed |
| ContactsPage.ListedIds | client/pages/Contacts.tsx:100-106 | the ids "select all" picks are exactly those of contacts that match the search and the status filter; ids of hidden contacts are left out |
| ContactsPage.UntickSpec | client/pages/Contacts.tsx:112 | unticking removes every occurrence of the id and keeps the other ids |
| ContactsPage.DeleteSpec | client/pages/Contacts.tsx:138 | deleting removes every contact with the id and keeps all others |
| ContactsPage.DeleteSelectedSpec | client/pages/Contacts.tsx:143 | deleting the selection removes exactly the contacts whose id is selected |
| ContactsPage.SplitTagsSpec | client/pages/Contacts.tsx:128 | an empty tag field gives no tags; otherwise one tag per comma-separated piece, each being that piece with only the white space at its two ends cut off, and so itself trimmed |
| ContactsPage.SplitTagsJoin | client/pages/Contacts.tsx:128 | typing trimmed, comma-free tags joined by commas gives the same tags back |
| ContactsPage.ExportHeaderLiteral | client/pages/Contacts.tsx:149 | the seven column names joined by commas are exactly the export's header line |
| ContactsPage.CellValueQuote | client/pages/Contacts.tsx:151 | a value written inside double quotes, as the export writes it, is read back unchanged by the import's cell cleaning |
| ContactsPage.ExportLinesClean | client/pages/Contacts.tsx:147-153 | when no field holds a line break, no export line holds one and none is blank |
| ContactsPage.ExportShape | client/pages/Contacts.tsx:147-153 | when no field holds a line break, the export is the literal header line "First Name,Last Name,Email,Phone,Status,Tags,Date Added" followed by one line per listed contact, in order: 1 + (listed) lines |
| ContactsPage.ContactsScreen.ExportCoversListed | client/pages/Contacts.tsx:147-153 | the screen's download is the header line and then one line per contact of the FILTERED list, in list order; hidden contacts are not exported |
| ContactsPage.ExportHeaderColumns | client/pages/Contacts.tsx:149 | reading the export's header, the importer finds first name, last name, email and phone in columns 0 to 3 |
| ContactsPage.ExportLineRead | client/pages/Contacts.tsx:151 | under such a header an export line of a contact without commas or quotes reads as that contact's four fields, and is accepted exactly when the contact is acceptable |
| ContactsPage.ExportContentLines | client/pages/Contacts.tsx:147-153 | the content lines of an export are its header line and one line per contact |
| ContactsPage.ExportLinesRead | client/pages/Contacts.tsx:151 | every data line of an export of clean, acceptable contacts is accepted and reads as its contact's fields |
| ContactsPage.ImportOfReadLines | client/pages/Contacts.tsx:193-212 | when every data line is accepted and reads as the expected fields, the records carry those fields, one per line, in order |
| ContactsPage.ExportThenImport | client/pages/Contacts.tsx:147-219 | importing the export of acceptable contacts without commas, quotes or line breaks succeeds and gives every contact back, in order, with the same names, email and phone |
| ContactsPage.ImportedRows | client/pages/Contacts.tsx:193-212 | one record per accepted line, in file order. Each has that line's fields, passes the acceptance rule, is active and untagged, is dated today, and has the clock reading followed by the line number as its id |
| ContactsPage.ContactsImportSpec | client/pages/Contacts.tsx:183-217 | an import succeeds exactly when there are a header and a data line and some line is accepted; there is no column check. On success there are 1 to (lines - 1) records. Fewer than two lines gives the header-row error; no accepted line gives the no-valid-contacts error |
| ContactsPage.IdsDiffer | client/pages/Contacts.tsx:198 | two ids made from the same clock reading and different line numbers differ |
| ContactsPage.ImportedIdsDistinct | client/pages/Contacts.tsx:193-212 | the records read from the lines carry pairwise distinct ids |
| ContactsPage.ImportIdsDistinct | client/pages/Contacts.tsx:198 | within one import, the generated ids are pairwise distinct |
| ContactsPage.CollectContacts | client/pages/Contacts.tsx:191-212 | the loop's result is the record of each accepted line, in order |
| ContactsPage.ReadCsv | client/pages/Contacts.tsx:182-217 | the load handler's outcome is the import's outcome, including each error message |
| ContactsPage.ImportAcceptable | client/pages/Contacts.tsx:208 | every record of a successful import passes the acceptance rule |
| ContactsPage.ContactsScreen.constructor | client/pages/Contacts.tsx:39-84 | the screen starts with the three seed contacts, no selection, no search, the "all" filter, no file and no error |
| ContactsPage.ContactsScreen.HandleSelectAll | client/pages/Contacts.tsx:100-106 | ticking selects exactly the listed contacts' ids, in list order; unticking clears the selection |
| ContactsPage.ContactsScreen.HandleSelectContact | client/pages/Contacts.tsx:108-114 | ticking appends the id, even when it is already selected; unticking removes every occurrence of it |
| ContactsPage.ContactsScreen.AddContact | client/pages/Contacts.tsx:116-135 | an acceptable entry is put FIRST as an active contact with the split tags, then the form is cleared and hidden; any other entry changes nothing. Every contact stays acceptable |
| ContactsPage.ContactsScreen.DeleteContact | client/pages/Contacts.tsx:137-140 | the contacts with the id leave the list and the id leaves the selection; the rest keep their order |
| ContactsPage.ContactsScreen.DeleteSelectedContacts | client/pages/Contacts.tsx:142-145 | the contacts whose id was selected leave the list and the selection is cleared |
| ContactsPage.ContactsScreen.ParseCsv | client/pages/Contacts.tsx:180-221 | on success the records go IN FRONT of the existing contacts, the error is cleared and the file forgotten. On failure only the error banner changes. Every contact stays acceptable |
| ContactsPage.ContactsScreen.HandleFileUpload | client/pages/Contacts.tsx:164-176 | no file changes nothing. A non-CSV file sets "Please upload a CSV file". Otherwise the file is kept, the error cleared and the text imported; there is no size limit on this screen |

## Left out

- Reading the file: the `FileReader` callback is asynchronous; the model passes the file's text alongside the file.
- The `catch` branches: they would set "Error parsing CSV file. Please check the format.". No step of the modelled logic throws on a string, so they are not modelled.
- The browser side:
  - the DOM and the reset of the file input's value;
  - the `Blob` and object-URL download of the export and the template;
  - all rendering.
- In `handleSubmit`, everything after the guard: `isLoading`, the `console.log`, the `setTimeout` and the redirect. `HandleSubmit` models only the guard and its outcome.
- The form setters and input-change handlers. They only copy typed values into state, so the forms are plain fields of the classes.
- The campaign's other settings (channel, schedule, message editing), and the other screens of the application. They are not part of this model.
- Clock readings: `Date.now()` and `new Date().toISOString().split('T')[0]` become the parameters `now` and `today`. The contact list's import reads the clock once per row; the model uses one reading per import. The distinct-id property therefore holds for one reading. Ids from different clock readings, or from a manual add in the same millisecond, can still collide.
- Text.ToLower: lower-cases only the ASCII letters A-Z. It does not model Unicode case mapping.
- Text.Split: splits on a single character, the only form the screens use.
- Text.ReplaceAll: models a global replacement with a literal pattern. It does not model regular expressions in general.
- The status filter is a free string, as in the code. A contact's status is one of the three values the code's type allows.
- CreateCampaign.PreviewKeepsPlainText and CreateCampaign.PreviewFillsPlaceholder: together they describe messages built from plain text and the four placeholders. Text holding an opening brace that does not begin one of the four placeholders is not characterised.
- ContactsPage.ExportThenImport: the round trip is stated for contacts whose fields hold no comma, double quote or line break.
  - The export does not escape those characters. Such contacts are read back split or shifted, which is the code's behaviour and is not characterised further.
  - Status, tags and date are not read back: the import sets them to active, none and today.
