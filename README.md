# Ticket manager core, modelled in Dafny

This project models the core of a small IT support ticket manager written in
C#:

- the `Ticket` record with its validating setters (Ticket.cs);
- the `TicketManager` store with its add, remove, find and count operations
  (TicketManager.cs);
- the store's comma-separated file format: `CsvEscape`, `CsvParse`, the rows
  `SaveTickets` writes and the per-line processing of `LoadTickets`;
- the `NormalizeCase` input normaliser of the console front end (Program.cs).

Modules, in dependency order:

- `Results`: `Option` and `Result`.
- `Text`: the .NET string primitives the code relies on.
  - `char.IsWhiteSpace`, as a predicate.
  - `IsNullOrWhiteSpace`, `Trim`, `ToLowerInvariant`.
  - `OrdinalIgnoreCase` equality, as an explicit case fold.
- `Csv`: the field codec.
  - `Scan` is the character-by-character meaning of `CsvParse`.
  - `CsvParse` is the index loop itself, proved equal to `Scan`.
- `TicketRecord`: the ticket's value types, its `Summary` format and the
  `Ticket` class. The setters are methods that report whether they accepted
  the value; `Create` is the four-argument constructor.
- `Lookup`: list-level rules over ids and statuses.
  - case-insensitive first match;
  - uniqueness of ids ignoring case;
  - the count of open tickets.
- `Persistence`: the file format.
  - the rows `SaveTickets` writes and the physical lines a `StreamReader`
    returns;
  - `ReadRow`, what the load loop makes of one line;
  - `LoadRows` and `Load`, the whole load as a function of the file's lines;
  - the save → load round trip, and why a line break inside a field breaks
    it.
- `Store`: the `TicketManager` class, whose `tickets` field is the C#
  `List<Ticket>` of ticket objects. Each method is proved against the
  functions of `Lookup` and `Persistence`.
- `Shell`: `NormalizeCase`.

The class invariant `TicketManager.Valid()` holds two facts:

- every stored ticket has an allowed priority and an allowed status (its id
  and description may be blank, as in a ticket made by `new Ticket()`);
- no two ids are equal ignoring case.

`AddTicket`, `RemoveTicket` and `LoadTickets` keep it.

A line break inside a field does not survive a save and a load.
- A field holding a comma, a quote or a line break is written quoted, so
  that it can be read back unchanged.
- The codec on its own does round-trip such a field (`Csv.ParseJoinEscaped`).
- `LoadTickets`, however, reads the file one physical line at a time
  (TicketManager.cs:111), so the row of such a ticket arrives as two lines.
  In the case `Persistence.BrokenDescriptionLost` proves, where no other
  column and neither half of the description holds a delimiter, both lines
  are skipped for their column count and the ticket is lost
  (`Persistence.BrokenDescriptionExample` is one such ticket).
- The model follows the code.
- The full round trip (`Persistence.SaveLoadRoundTrip`) is proved for
  tickets whose ids are unique ignoring case and that each
  - are well-formed: non-blank, trimmed id and description, allowed
    priority and status;
  - hold no line break in the id, the description or the rendered date;
  - have a date that the date parser reads back as written.

A ticket with a blank id does not survive a save and a load either.
- `AddTicket` stores such a ticket, for instance one made by `new Ticket()`,
  whose id and description are empty.
- Its row is read back, but the id setter refuses its first column, and the
  line is skipped (`Persistence.BlankIdLost`, `Persistence.DefaultTicketLost`).

## Model

| member | source | states |
|---|---|---|
| Text.Trim | Ticket.cs:23 | the trimmed string neither starts nor ends with white space and is no longer than the input; `Text.TrimSlice` places it inside the input |
| Text.TrimSlice | Ticket.cs:23 | the trim is the slice of the input after its leading white space, and everything before and after that slice is white space |
| Text.TrimIdempotent | Ticket.cs:23 | trimming twice is trimming once |
| Text.TrimEmptyIffBlank | Ticket.cs:20-23 | the trim is empty exactly when the input is null, empty or white space only |
| Text.TrimNonBlank | Ticket.cs:20-23 | a value that passes the blank check keeps a non-blank trim |
| Text.IsWhite | Ticket.cs:20 | the definition of `char.IsWhiteSpace`; it underlies `IsBlank` and `Trim` |
| Text.IsBlank | Ticket.cs:20 | the definition of `string.IsNullOrWhiteSpace`; `Text.TrimEmptyIffBlank` ties it to `Trim` |
| Text.FoldCase | Program.cs:185 | the definition of `ToLowerInvariant`, character by character; its properties are `Text.FoldCaseIdempotent` and `Text.FoldCaseAppend` |
| Text.FoldCaseIdempotent | Program.cs:185 | lower-cased text holds no upper-case letter, and lower-casing it again changes nothing |
| Text.FoldCaseAppend | Program.cs:185 | lower-casing a concatenation lower-cases each part |
| Text.EqualsIgnoreCase | TicketManager.cs:39 | the definition of `OrdinalIgnoreCase` equality as equality after folding; `Text.EqualsIgnoreCaseAt` characterises it |
| Text.EqualsIgnoreCaseAt | TicketManager.cs:39 | two strings are equal ignoring case exactly when they have the same length and agree at every position after folding |
| TicketRecord.Ticket.constructor | Ticket.cs:10-13 | a new ticket has empty id and description, priority Low, status Open, and is created now |
| TicketRecord.Ticket.SetId | Ticket.cs:15-25 | a blank value is rejected and the id is unchanged; any other value is stored trimmed |
| TicketRecord.Ticket.SetDescription | Ticket.cs:27-37 | a blank value is rejected and the description is unchanged; any other value is stored trimmed |
| TicketRecord.Ticket.SetPriority | Ticket.cs:39-50 | accepted exactly when the trimmed value is, case-sensitively, Low, Medium or High; stores the trimmed value, else leaves the priority as it was; the priority stays allowed |
| TicketRecord.Ticket.SetStatus | Ticket.cs:52-63 | accepted exactly when the trimmed value is, case-sensitively, Open, In Progress or Closed; stores the trimmed value, else leaves the status as it was; the status stays allowed |
| TicketRecord.Validate | Ticket.cs:71-77 | the definition of what the four-argument constructor does, as a value; `TicketRecord.ValidateFirstError`, `ValidateWellFormedResult` and `ValidateWellFormed` state its properties |
| TicketRecord.Ticket.Create | Ticket.cs:71-77 | construction fails with the first setter that rejects its value; otherwise the fresh ticket holds the trimmed inputs, with allowed priority and status |
| TicketRecord.ValidateFirstError | Ticket.cs:71-77 | the error is BlankId, BlankDescription, BadPriority or BadStatus exactly when that setter is the first to reject, in the order id, description, priority, status |
| TicketRecord.ValidateWellFormedResult | Ticket.cs:71-77 | an accepted construction yields non-blank trimmed id and description and an allowed priority and status |
| TicketRecord.ValidateWellFormed | Ticket.cs:71-77 | constructing from the fields of a well-formed ticket gives those fields back |
| TicketRecord.AllowedAreTrimmed | Ticket.cs:7-8 | no allowed priority or status changes when trimmed |
| TicketRecord.Ticket.CloseTicket | Ticket.cs:79-82 | the status becomes Closed whatever it was, and only the status may change |
| TicketRecord.Ticket.ReopenTicket | Ticket.cs:84-87 | the status becomes Open whatever it was, In Progress included, and only the status may change |
| TicketRecord.Ticket.GetSummary | Ticket.cs:89-92 | reading the summary back up to its first closing bracket gives the id, whenever the id holds no closing bracket |
| TicketRecord.Summary | Ticket.cs:91 | the definition of the summary text over values; `TicketRecord.SummaryShowsFields` and `SummaryIdRecovers` state its properties |
| TicketRecord.SummaryShowsFields | Ticket.cs:89-92 | the summary shows id, priority, description, status and date verbatim, each at the offset the format fixes |
| TicketRecord.SummaryIdRecovers | Ticket.cs:91 | the id can be taken back from the summary when it holds no closing bracket |
| Csv.NeedsQuotes | TicketManager.cs:158-159 | the definition of the quoting test: a comma, a quote, an LF or a CR; `Csv.Escape` states what it decides |
| Csv.Escape | TicketManager.cs:156-164 | the output equals the input exactly when the input holds no comma, quote, CR or LF; otherwise it starts and ends with a quote and is two longer than the input plus its quote count |
| Csv.DoubleQuotes | TicketManager.cs:163 | doubling quotes lengthens the text by its number of quotes |
| Csv.KeptWithoutQuotes | TicketManager.cs:163 | text without quotes is unchanged by the quote doubling |
| Csv.JoinFields | TicketManager.cs:84 | the definition of `string.Join(",", …)`; `Csv.ParseJoinEscaped` and `Csv.ScanJoined` state how parsing undoes it |
| Csv.Scan | TicketManager.cs:172-213 | the definition of what `CsvParse` reads from a scanner state, one character at a time; `Csv.FieldCount`, `ScanPlain`, `ScanQuoted`, `ScanEscaped`, `ScanJoined` and `ScanUnterminated` state its properties |
| Csv.ParseFields | TicketManager.cs:166-215 | the definition of `CsvParse` as a function; `Csv.CsvParse` is proved equal to it and `Csv.ParseJoinEscaped` inverts the writer with it |
| Csv.CsvParse | TicketManager.cs:166-215 | the index loop returns the fields the scan defines, one more than the commas outside quotes |
| Csv.FieldCount | TicketManager.cs:166-215 | a line has one field more than it has commas outside quotes |
| Csv.ScanPlain | TicketManager.cs:206-209 | characters other than comma and quote are copied into the current field outside quotes |
| Csv.ScanQuoted | TicketManager.cs:176-193 | inside quotes, a doubled-quote body followed by a closing quote is read back as the original text |
| Csv.ScanEscaped | TicketManager.cs:156-215 | an escaped field followed by a comma or the end of the line is read back as exactly that field |
| Csv.ScanJoined | TicketManager.cs:166-215 | parsing a comma-join of escaped fields appends exactly those fields to the fields already finished |
| Csv.ParseJoinEscaped | TicketManager.cs:84-90 | parsing the comma-join of the escaped fields of any non-empty field sequence returns that sequence |
| Csv.ScanUnterminated | TicketManager.cs:176-193 | inside quotes, text without quotes runs into the current field up to the end of the line |
| Csv.UnterminatedQuote | TicketManager.cs:176-213 | an unterminated quote is tolerated: the rest of the line, commas included, is one field |
| Lookup.FirstMatch | TicketManager.cs:35-44 | the result is a position whose id equals the query ignoring case, with no earlier one; there is none exactly when no id matches |
| Lookup.UniqueAppend | TicketManager.cs:18-21 | appending an id that matches none of a unique list keeps it unique |
| Lookup.UniqueRemove | TicketManager.cs:31 | removing one id from a unique list keeps it unique |
| Lookup.UniqueMatchIsFirst | TicketManager.cs:35-44 | in a unique list, the id found at a position is the first and only match of any query equal to it ignoring case |
| Lookup.IsClosed | TicketManager.cs:65 | the definition of a Closed status ignoring case; `Lookup.CountOpenExtremes` states what it means for the count |
| Lookup.CountOpen | TicketManager.cs:59-70 | the open count never exceeds the number of tickets |
| Lookup.CountOpenExtremes | TicketManager.cs:59-70 | all tickets count as open exactly when none is Closed ignoring case, and none exactly when all are |
| Lookup.CountOpenExample | TicketManager.cs:59-70 | Open, In Progress, Closed, Closed give two open tickets |
| Persistence.EntryIds | TicketManager.cs:39 | the definition of the list of stored ids; `Persistence.EntryIdsAppend` and `Store.EntryIdsRemove` state how it follows appends and removals |
| Persistence.EntryIdsAppend | TicketManager.cs:21 | the ids of two lists one after the other are the ids of the first followed by those of the second |
| Persistence.FormatRow | TicketManager.cs:84-90 | the definition of one saved row; `Persistence.RowParsesBack` and `RowIsOneLine` state its properties |
| Persistence.RowParsesBack | TicketManager.cs:84-90 | a saved row parses back into its five columns |
| Persistence.SavedRowAt | TicketManager.cs:82-93 | row i of the saved rows is the row of ticket i |
| Persistence.WriteLines | TicketManager.cs:80-92 | the definition of the text `WriteLine` calls produce; `Persistence.ReadWriteLines` states that `ReadLines` undoes it |
| Persistence.ReadLines | TicketManager.cs:111 | the definition of the lines `ReadLine` returns; `Persistence.LineLength`, `ReadLinesCons` and `ReadWriteLines` state its properties |
| Persistence.LineLength | TicketManager.cs:111 | a line ends at the first LF or CR, or at the end of the text |
| Persistence.ReadLinesCons | TicketManager.cs:111 | a line without breaks followed by LF or CR LF is read back as that one line |
| Persistence.ReadWriteLines | TicketManager.cs:111 | lines without breaks, each written with WriteLine, are read back by ReadLine one for one |
| Persistence.ReadRow | TicketManager.cs:119-140 | the definition of what the load loop makes of one non-blank line; `Persistence.ReadRowAccepts`, `ReadRowAdded`, `ReadRowDuplicate` and `ColumnCountSkipped` state its properties |
| Persistence.LoadStep | TicketManager.cs:111-148 | the definition of one pass of the load loop's body; `Persistence.LoadStepKeeps` states what it preserves |
| Persistence.LoadRows | TicketManager.cs:109-149 | the definition of the load loop over the data lines; `Persistence.LoadRowsInvariant`, `LoadRowsPrefix` and `LoadRowsReadAs` state its properties |
| Persistence.Load | TicketManager.cs:96-152 | the definition of the whole load on a file's lines; `Persistence.LoadInvariant`, `EmptyFileFails` and `SaveLoadRoundTrip` state its properties |
| Persistence.ReadRowAccepts | TicketManager.cs:119-140 | a line accepted by the load loop has five columns and a parsable date, and its ticket is well-formed with an id matching none loaded before |
| Persistence.TicketReaderSound | TicketManager.cs:119-140 | the load loop only accepts well-formed tickets with ids not yet loaded |
| Persistence.LoadStepKeeps | TicketManager.cs:111-148 | one pass of the loop counts a non-blank line exactly once, as loaded or skipped, and a blank line not at all; the loaded ids stay unique |
| Persistence.LoadRowsInvariant | TicketManager.cs:109-149 | the loaded and skipped counts match the tickets and skip messages and add up to the non-blank lines; the loaded ids are unique and every ticket is well-formed |
| Persistence.LoadInvariant | TicketManager.cs:100-151 | a file with a first line loads with loaded + skipped equal to its non-blank data lines, unique well-formed tickets, and one message per skip |
| Persistence.LoadRowsPrefix | TicketManager.cs:109-149 | tickets and skip messages from earlier lines stay ahead of those from later lines: tickets appear in file order |
| Persistence.ReadRowDuplicate | TicketManager.cs:140 | a valid line whose id equals a loaded id ignoring case is refused as a duplicate |
| Persistence.ReadRowAdded | TicketManager.cs:119-142 | a valid line with a new id is read as the ticket its columns make |
| Persistence.DuplicateSkipped | TicketManager.cs:140-147 | a duplicate line is skipped with its line number and the earlier ticket is kept: the first occurrence wins |
| Persistence.ColumnCountSkipped | TicketManager.cs:121-122 | a line with other than five columns is skipped with the count found |
| Persistence.EmptyFileFails | TicketManager.cs:100-104 | a file without a first line fails and leaves no tickets, the list having been cleared first |
| Persistence.NonBlankCount | TicketManager.cs:114 | the number of non-blank lines never exceeds the number of lines |
| Persistence.EscapeNoBreaks | TicketManager.cs:156-164 | escaping adds no line break |
| Persistence.JoinNoBreaks | TicketManager.cs:84 | joining fields without line breaks gives a line without breaks |
| Persistence.RowIsOneLine | TicketManager.cs:84-92 | the row of a ticket with an allowed priority and status, whose id, description and date hold no line break, is one non-blank physical line |
| Persistence.ReadSavedRow | TicketManager.cs:119-142 | the saved row of a cleanly saving ticket with a new id is read back as that ticket |
| Persistence.CleanRowsReadBack | TicketManager.cs:82-142 | each saved row of unique, cleanly saving tickets is read back as its ticket |
| Persistence.LoadRowsReadAs | TicketManager.cs:109-149 | rows that each read as their ticket load as exactly those tickets, in order, none skipped |
| Persistence.SavedLinesNoBreaks | TicketManager.cs:80-93 | no line saved for cleanly saving tickets holds a line break |
| Persistence.SaveLoadRoundTrip | TicketManager.cs:74-152 | saving then loading restores the same tickets in the same order, all loaded and none skipped, when the ids are unique ignoring case and every ticket is well-formed (non-blank trimmed id and description, allowed priority and status), holds no line break in its id, description or rendered date, and has a date the parser reads back as written |
| Persistence.BlankIdLost | TicketManager.cs:74-152 | a ticket with a blank id, which `AddTicket` accepts, does not survive a save and a load: its one row is skipped as line 2, refused by the id setter |
| Persistence.DefaultTicketLost | TicketManager.cs:74-152 | the ticket `new Ticket()` makes is lost that way |
| Persistence.OneRowFileLines | TicketManager.cs:74-111 | the file saved for one ticket whose row is one line reads back as the header and that row |
| Persistence.BlankIdRowRefused | TicketManager.cs:119-134 | the saved row of a ticket with a blank id is refused by the id setter |
| Persistence.OneSkippedRowLoad | TicketManager.cs:109-148 | a first line and one refused non-blank line load nothing and skip that line as line 2 with its reason |
| Persistence.SplitRowLines | TicketManager.cs:111 | a saved row holding an LF is read back as two lines |
| Persistence.BrokenFileLines | TicketManager.cs:74-111 | the file saved for a ticket whose description holds an LF reads back as the header and the two halves of its row |
| Persistence.TwoShortRowsLoad | TicketManager.cs:109-122 | two non-blank data lines with two columns and one column load nothing and are reported as lines 2 and 3 |
| Persistence.BrokenDescriptionLost | TicketManager.cs:74-152 | a ticket whose description holds an LF does not survive a save and a load: both halves of its row are skipped |
| Persistence.BrokenDescriptionExample | TicketManager.cs:74-152 | the ticket T1 with description a, LF, b is lost that way |
| Store.EntriesOf | TicketManager.cs:11 | the stored tickets as values, one per ticket object |
| Store.EntriesOfSnoc | TicketManager.cs:21 | appending a ticket appends its value |
| Store.EntriesOfRemove | TicketManager.cs:31 | removing ticket k removes value k and keeps the others in order |
| Store.AppendFound | TicketManager.cs:18-21 | an id appended to a unique list with no match stays unique and is found at the end |
| Store.RemoveFound | TicketManager.cs:24-33 | removing the first match of an id from a unique list keeps it unique and leaves no match |
| Store.AppendValid | TicketManager.cs:13-22 | appending a valid ticket with a new id keeps the list valid and makes it the first match of its id |
| Store.RemoveValid | TicketManager.cs:24-33 | removing the first match of an id keeps the list valid and leaves no match |
| Store.FirstHolder | TicketManager.cs:31 | no position before the first match of an id holds the matched ticket object |
| Store.WriteLinesSnoc | TicketManager.cs:92 | writing one more line appends it and a newline |
| Store.SavedTextLines | TicketManager.cs:74-94 | the text built row by row is the saved lines written one per line |
| Store.BuildTicket | TicketManager.cs:134-138 | the ticket is built as construction and validation say, and its creation time is the parsed date |
| Store.TicketManager.constructor | TicketManager.cs:11 | a new manager holds no tickets and is valid |
| Store.TicketManager.FindTicket | TicketManager.cs:35-44 | returns the first ticket whose id equals the query ignoring case, and null exactly when there is none; nothing changes |
| Store.TicketManager.AddTicket | TicketManager.cs:13-22 | a null ticket, or one whose id matches a stored id ignoring case, is refused and nothing changes; otherwise it is appended at the end and found there; ids stay unique |
| Store.TicketManager.RemoveTicket | TicketManager.cs:24-33 | returns true exactly when some id matches; then exactly the first match leaves, the others keep their order and no match remains; otherwise nothing changes; ids stay unique |
| Store.TicketManager.Remove | TicketManager.cs:31 | removes the first position that holds that very ticket object |
| Store.TicketManager.IndexOf | TicketManager.cs:31 | the position returned holds the ticket and no earlier one does |
| Store.TicketManager.GetOpenCount | TicketManager.cs:59-70 | the count is the number of tickets not Closed ignoring case, and at most the number of tickets |
| Store.TicketManager.SaveTickets | TicketManager.cs:74-94 | the text written is the header and one escaped row per ticket, in list order, each ended by the newline |
| Store.TicketManager.TryLoadLine | TicketManager.cs:117-143 | a line is added as a ticket exactly when the row reader accepts it; otherwise the reason is returned and the list is unchanged |
| Store.TicketManager.LoadLine | TicketManager.cs:111-148 | one pass of the load loop takes exactly the step `LoadStep` defines |
| Store.TicketManager.LoadTickets | TicketManager.cs:96-152 | the outcome and the tickets left are exactly those of `Load` on the file's lines; the list stays valid |
| Shell.NormalizeCase | Program.cs:181-195 | the definition of `NormalizeCase`; `Shell.NormalizeCaseCases`, `NormalizeCaseIdempotent`, `NormalizedPriorityAccepted` and `NormalizedStatusAccepted` state its properties |
| Shell.Spelling | Program.cs:185-192 | the definition of the chain of spelling comparisons; `Shell.SpellingCases` states what it maps to |
| Shell.SpellingCases | Program.cs:185-192 | a recognised spelling maps to an allowed priority exactly when it is a priority spelling, and to an allowed status exactly when it is a status spelling |
| Shell.NormalizeCaseCases | Program.cs:181-195 | blank input gives ""; priority spellings give an allowed priority; status spellings give an allowed status; anything else is returned trimmed, in its own case |
| Shell.NormalizePrioritySpellings | Program.cs:185-189 | low, medium or med, and high, in any case and with surrounding white space, give Low, Medium and High |
| Shell.NormalizeStatusSpellings | Program.cs:190-192 | open; in progress, in-progress or progress; and closed or close give Open, In Progress and Closed |
| Shell.NormalizeSpelled | Program.cs:183-192 | input whose trimmed lower-cased form is a spelling normalises to what that spelling stands for |
| Shell.FoldedAllowed | Program.cs:185-192 | each allowed value, lower-cased, is a spelling that stands for that value |
| Shell.NormalizeAnyCase | Program.cs:181-195 | an allowed value typed in any case, with any surrounding white space, normalises to itself |
| Shell.NormalizeAllowed | Program.cs:181-195 | an allowed value is its own normal form |
| Shell.NormalizeCaseIdempotent | Program.cs:181-195 | normalising twice is normalising once |
| Shell.NormalizedPriorityAccepted | Program.cs:181-195 | the Priority setter accepts the normalised input exactly when the input is a priority spelling |
| Shell.NormalizedStatusAccepted | Program.cs:181-195 | the Status setter accepts the normalised input exactly when the input is a status spelling |

## Left out

- The console menu, prompts and messages of Program.cs, and `DisplayAllTickets`: output only. Each skipped line's message is kept as a `(line number, reason)` pair, and the final report as the `Loaded` counts.
- File and directory handling: the file is modelled as its text, or as the lines `ReadLine` returns. This leaves out `Directory.CreateDirectory`, `StreamReader`/`StreamWriter`, UTF-8 encoding and byte order marks, and the exceptions a missing or unreadable file raises.
- The newline `WriteLine` appends is a parameter, LF or CR LF.
- The clock and date handling are parameters: `now` for `DateTime.UtcNow`, and functions for the "o" round-trip format, for `DateTime.TryParse` and for the `yyyy-MM-dd` date of the summary. The round trip assumes the parser reads back what the formatter writes.
- The reflection call that sets `DateCreated` is a direct assignment of the field.
- A .NET `null` string behaves as the empty string in every use the core makes of it, so strings are never null. A null `Ticket` is kept, as `Ticket?`.
- Case folding covers ASCII letters only; other characters fold to themselves. `ToLowerInvariant` and `OrdinalIgnoreCase` also map non-ASCII letters, and that is not modelled.
- Exceptions become results: the setters and the constructor return whether, or why, they refused. `AddTicket` returns the refusal it would have thrown.
- Aliasing: the manager stores references to ticket objects, as the C# list does. A caller that still holds a stored ticket can change its id through the setter and break the uniqueness of ids. The model's operations therefore require the invariant instead of re-checking it.
- `TicketRecord.Ticket.GetSummary`: its contract states only that the id can be read back. The full layout is stated over values by `TicketRecord.SummaryShowsFields`.
