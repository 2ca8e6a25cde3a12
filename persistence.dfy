/** The file format of the ticket store (TicketManager.cs): the rows that
    `SaveTickets` writes, the physical lines a `StreamReader` hands back, and
    what `LoadTickets` makes of each line after the header. */
module Persistence {
  import opened Text
  import opened Results
  import opened Csv
  import opened TicketRecord
  import opened Lookup

  /** The first line `SaveTickets` writes. `LoadTickets` requires a first
      line but does not look at its content. */
  const Header: string := "Id,Description,Priority,Status,DateCreated"

  /** The ids of a list of stored tickets, in order. */
  function EntryIds(es: seq<Entry>): (ids: seq<string>)
    ensures |ids| == |es|
    ensures forall i :: 0 <= i < |es| ==> ids[i] == es[i].fields.id
  {
    seq(|es|, i requires 0 <= i < |es| => es[i].fields.id)
  }

  /** The ids of two lists one after the other are the ids of the first
      followed by the ids of the second. */
  lemma EntryIdsAppend(a: seq<Entry>, b: seq<Entry>)
    ensures EntryIds(a + b) == EntryIds(a) + EntryIds(b)
  {
    var ab := a + b;
    forall i | 0 <= i < |ab|
      ensures EntryIds(ab)[i] == (EntryIds(a) + EntryIds(b))[i]
    {
      if i >= |a| {
        assert ab[i] == b[i - |a|];
      }
    }
  }

  /** Appending an entry appends its id. */
  lemma EntryIdsSnoc(es: seq<Entry>, e: Entry)
    ensures EntryIds(es + [e]) == EntryIds(es) + [e.fields.id]
  {
  }

  // ---------- Saving ----------

  /** The five columns of a ticket's row, the creation time rendered by
      `formatDate` (the "o" round-trip format in the source). */
  function RowFields(e: Entry, formatDate: Instant -> string): (cols: seq<string>)
    ensures |cols| == 5
  {
    [e.fields.id, e.fields.description, e.fields.priority, e.fields.status, formatDate(e.created)]
  }

  /** The row `SaveTickets` writes for a ticket: its escaped columns joined
      by commas. */
  function FormatRow(e: Entry, formatDate: Instant -> string): string
  {
    JoinFields(EscapeAll(RowFields(e, formatDate)))
  }

  /** A row parses back into the columns it was made of. */
  lemma RowParsesBack(e: Entry, formatDate: Instant -> string)
    ensures ParseFields(FormatRow(e, formatDate)) == RowFields(e, formatDate)
  {
    ParseJoinEscaped(RowFields(e, formatDate));
  }

  /** The data rows `SaveTickets` writes, one per ticket in list order. */
  function SavedRows(es: seq<Entry>, formatDate: Instant -> string): (rows: seq<string>)
    ensures |rows| == |es|
  {
    if es == [] then [] else SavedRows(es[..|es| - 1], formatDate) + [FormatRow(es[|es| - 1], formatDate)]
  }

  /** Row `i` is the row of ticket `i`. */
  lemma {:induction false} SavedRowAt(es: seq<Entry>, formatDate: Instant -> string, i: nat)
    requires i < |es|
    ensures SavedRows(es, formatDate)[i] == FormatRow(es[i], formatDate)
    decreases |es|
  {
    if i < |es| - 1 {
      SavedRowAt(es[..|es| - 1], formatDate, i);
    }
  }

  /** The lines `SaveTickets` writes: the header, then the rows. */
  function SaveLines(es: seq<Entry>, formatDate: Instant -> string): seq<string>
  {
    [Header] + SavedRows(es, formatDate)
  }

  // ---------- Physical lines ----------

  /** The characters at which `StreamReader.ReadLine` ends a line. */
  predicate IsBreak(c: char)
  {
    c == '\n' || c == '\r'
  }

  /** `s` holds no line break. */
  predicate NoBreaks(s: string)
  {
    forall i :: 0 <= i < |s| ==> !IsBreak(s[i])
  }

  /** The length of the first line of `s`: the position of its first break,
      or its length when it has none. */
  function LineLength(s: string): (k: nat)
    ensures k <= |s|
    ensures forall i :: 0 <= i < k ==> !IsBreak(s[i])
    ensures k < |s| ==> IsBreak(s[k])
  {
    if s == [] || IsBreak(s[0]) then 0 else 1 + LineLength(s[1..])
  }

  /** The lines `ReadLine` returns one after another until the end of the
      stream: a line ends at LF, at CR or at CR LF, and a break at the very
      end does not start another line. */
  function ReadLines(text: string): seq<string>
    decreases |text|
  {
    if text == [] then []
    else
      var k := LineLength(text);
      var skip := if k == |text| then 0
                  else if text[k] == '\r' && k + 1 < |text| && text[k + 1] == '\n' then 2
                  else 1;
      [text[..k]] + ReadLines(text[k + skip..])
  }

  /** What `StreamWriter.WriteLine` produces for each line in turn, `nl`
      being the platform's newline. */
  function WriteLines(lines: seq<string>, nl: string): string
  {
    if lines == [] then "" else lines[0] + nl + WriteLines(lines[1..], nl)
  }

  /** A line without breaks, followed by a newline, is read back as one
      line. */
  lemma ReadLinesCons(line: string, nl: string, rest: string)
    requires nl == "\n" || nl == "\r\n"
    requires NoBreaks(line)
    ensures ReadLines(line + nl + rest) == [line] + ReadLines(rest)
  {
    var text := line + nl + rest;
    var k := LineLength(text);
    assert text[|line|] == nl[0];
    assert k == |line|;
    assert text[..k] == line;
    if nl == "\r\n" {
      assert text[k + 1] == '\n';
      assert text[k + 2..] == rest;
    } else {
      assert text[k + 1..] == rest;
    }
  }

  /** Lines without breaks, written one per line, are read back as they
      were. */
  lemma {:induction false} ReadWriteLines(lines: seq<string>, nl: string)
    requires nl == "\n" || nl == "\r\n"
    requires forall i :: 0 <= i < |lines| ==> NoBreaks(lines[i])
    ensures ReadLines(WriteLines(lines, nl)) == lines
    decreases |lines|
  {
    if lines != [] {
      var rest := lines[1..];
      ReadWriteCons(lines, nl);
      forall i | 0 <= i < |rest|
        ensures NoBreaks(rest[i])
      {
        assert rest[i] == lines[i + 1];
      }
      ReadWriteLines(rest, nl);
      assert [lines[0]] + rest == lines;
    }
  }

  /** The first written line is the first line read. */
  lemma ReadWriteCons(lines: seq<string>, nl: string)
    requires nl == "\n" || nl == "\r\n"
    requires lines != [] && NoBreaks(lines[0])
    ensures ReadLines(WriteLines(lines, nl)) == [lines[0]] + ReadLines(WriteLines(lines[1..], nl))
  {
    ReadLinesCons(lines[0], nl, WriteLines(lines[1..], nl));
  }

  // ---------- Loading ----------

  /** Why a data line was skipped: the exception `LoadTickets` catches. */
  datatype SkipReason = ColumnCount(found: nat) | BadDate | Invalid(error: FieldError) | DuplicateId

  /** A skipped line and its 1-based line number in the file. */
  datatype Skip = Skip(lineNo: nat, reason: SkipReason)

  /** The variables of the load loop: the tickets added so far, the two
      counters and the skip messages printed so far. */
  datatype LoadState = LoadState(entries: seq<Entry>, loaded: nat, skipped: nat, skips: seq<Skip>)

  /** The outcome of `LoadTickets`: the "File is empty." failure, or the
      final counts and the skip messages. */
  datatype LoadResult = EmptyFile | Loaded(loaded: nat, skipped: nat, skips: seq<Skip>)

  /** What the body of the load loop makes of one non-blank line, given the
      tickets already loaded: the ticket to add, or why the line is skipped.
      The checks run in the source's order: column count, date, the ticket's
      own validation, then the duplicate-id check of `AddTicket`. */
  function ReadRow(entries: seq<Entry>, line: string, parseDate: string -> Option<Instant>)
    : Result<Entry, SkipReason>
  {
    var cols := ParseFields(line);
    if |cols| != 5 then Err(ColumnCount(|cols|))
    else match parseDate(cols[4])
      case None => Err(BadDate)
      case Some(when) =>
        match Validate(cols[0], cols[1], cols[2], cols[3])
        case Err(e) => Err(Invalid(e))
        case Ok(f) =>
          if FirstMatch(EntryIds(entries), f.id).Some? then Err(DuplicateId)
          else Ok(Entry(f, when))
  }

  /** A ticket read from a line is well-formed, its id matches none of the
      tickets already loaded, and it was made from the line's five columns,
      the fifth being its creation time. */
  lemma ReadRowAccepts(entries: seq<Entry>, line: string, parseDate: string -> Option<Instant>)
    ensures var r := ReadRow(entries, line, parseDate);
            r.Ok? ==> && WellFormed(r.value.fields)
                      && FirstMatch(EntryIds(entries), r.value.fields.id).None?
                      && var cols := ParseFields(line);
                         && |cols| == 5 && parseDate(cols[4]) == Some(r.value.created)
                         && Validate(cols[0], cols[1], cols[2], cols[3]) == Ok(r.value.fields)
  {
    var cols := ParseFields(line);
    if |cols| == 5 && Validate(cols[0], cols[1], cols[2], cols[3]).Ok? {
      ValidateWellFormedResult(cols[0], cols[1], cols[2], cols[3]);
    }
  }

  /** How a data line is read, given the tickets already loaded. */
  type RowReader = (seq<Entry>, string) -> Result<Entry, SkipReason>

  /** The reader of `LoadTickets`, with `parseDate` standing for
      `DateTime.TryParse`. */
  function TicketReader(parseDate: string -> Option<Instant>): RowReader
  {
    (entries, line) => ReadRow(entries, line, parseDate)
  }

  /** One pass of the load loop's body on line `lineNo`: a blank line is
      passed over without being counted; any other line adds a ticket or is
      skipped with its line number and reason. */
  function LoadStep(st: LoadState, line: string, lineNo: nat, read: RowReader): LoadState
  {
    if IsBlank(line) then st
    else match read(st.entries, line)
      case Ok(e) => st.(entries := st.entries + [e], loaded := st.loaded + 1)
      case Err(why) => st.(skipped := st.skipped + 1, skips := st.skips + [Skip(lineNo, why)])
  }

  /** The load loop over the data lines: `rows[j]` is line `j + 2` of the
      file, the header being line 1. */
  function LoadRows(rows: seq<string>, read: RowReader): LoadState
    decreases |rows|
  {
    if rows == [] then LoadState([], 0, 0, [])
    else LoadStep(LoadRows(rows[..|rows| - 1], read), rows[|rows| - 1], |rows| + 1, read)
  }

  /** One more data line is one more pass of the loop body. */
  lemma LoadRowsSnoc(rows: seq<string>, line: string, read: RowReader)
    ensures LoadRows(rows + [line], read) == LoadStep(LoadRows(rows, read), line, |rows| + 2, read)
  {
    var rows' := rows + [line];
    assert rows'[..|rows'| - 1] == rows && rows'[|rows'| - 1] == line;
  }

  /** One more line of the file, line `lineNo + 1` counting the header
      as line 1, takes one more load step. */
  lemma LoadRowsNext(fileLines: seq<string>, lineNo: nat, read: RowReader)
    requires 1 <= lineNo < |fileLines|
    ensures LoadRows(fileLines[1..lineNo + 1], read)
            == LoadStep(LoadRows(fileLines[1..lineNo], read), fileLines[lineNo], lineNo + 1, read)
  {
    assert fileLines[1..lineNo + 1] == fileLines[1..lineNo] + [fileLines[lineNo]];
    LoadRowsSnoc(fileLines[1..lineNo], fileLines[lineNo], read);
  }

  /** `LoadTickets` on the lines of a file: no first line is the hard
      failure, and the collection, cleared beforehand, stays empty;
      otherwise the data lines after the header are loaded. */
  function Load(fileLines: seq<string>, parseDate: string -> Option<Instant>)
    : (LoadResult, seq<Entry>)
  {
    if fileLines == [] then (EmptyFile, [])
    else
      var st := LoadRows(fileLines[1..], TicketReader(parseDate));
      (Loaded(st.loaded, st.skipped, st.skips), st.entries)
  }

  /** The number of non-blank lines. */
  function NonBlankCount(rows: seq<string>): (n: nat)
    ensures n <= |rows|
  {
    if rows == [] then 0
    else NonBlankCount(rows[..|rows| - 1]) + (if IsBlank(rows[|rows| - 1]) then 0 else 1)
  }

  /** A reader that only accepts well-formed tickets whose id matches none
      of the tickets already loaded. */
  ghost predicate SoundReader(read: RowReader)
  {
    forall entries, line :: read(entries, line).Ok? ==>
      && WellFormed(read(entries, line).value.fields)
      && FirstMatch(EntryIds(entries), read(entries, line).value.fields.id).None?
  }

  /** The reader of `LoadTickets` is sound. */
  lemma TicketReaderSound(parseDate: string -> Option<Instant>)
    ensures SoundReader(TicketReader(parseDate))
  {
    forall entries, line
      ensures var r := TicketReader(parseDate)(entries, line);
              r.Ok? ==> && WellFormed(r.value.fields)
                        && FirstMatch(EntryIds(entries), r.value.fields.id).None?
    {
      ReadRowAccepts(entries, line, parseDate);
    }
  }

  /** What the load loop keeps with a sound reader: the counters count the
      tickets added and the lines skipped, every non-blank line is one or the
      other, the loaded ids are unique ignoring case and every loaded ticket
      is well-formed. */
  lemma {:induction false} LoadRowsInvariant(rows: seq<string>, read: RowReader)
    requires SoundReader(read)
    ensures var st := LoadRows(rows, read);
            && st.loaded == |st.entries| && st.skipped == |st.skips|
            && st.loaded + st.skipped == NonBlankCount(rows)
            && UniqueIds(EntryIds(st.entries))
            && forall i :: 0 <= i < |st.entries| ==> WellFormed(st.entries[i].fields)
    decreases |rows|
  {
    if rows != [] {
      var front := rows[..|rows| - 1];
      LoadRowsInvariant(front, read);
      LoadStepKeeps(LoadRows(front, read), rows[|rows| - 1], |rows| + 1, read);
    }
  }

  /** One load step keeps the counts in step with the tickets and skips,
      counts a non-blank line once, and keeps the loaded tickets unique and
      well-formed. */
  lemma LoadStepKeeps(st: LoadState, line: string, lineNo: nat, read: RowReader)
    requires SoundReader(read)
    requires && st.loaded == |st.entries| && st.skipped == |st.skips|
             && UniqueIds(EntryIds(st.entries))
             && forall i :: 0 <= i < |st.entries| ==> WellFormed(st.entries[i].fields)
    ensures var st' := LoadStep(st, line, lineNo, read);
            && st'.loaded == |st'.entries| && st'.skipped == |st'.skips|
            && st'.loaded + st'.skipped == st.loaded + st.skipped + (if IsBlank(line) then 0 else 1)
            && UniqueIds(EntryIds(st'.entries))
            && forall i :: 0 <= i < |st'.entries| ==> WellFormed(st'.entries[i].fields)
  {
    if !IsBlank(line) {
      var r := read(st.entries, line);
      if r.Ok? {
        UniqueAppend(EntryIds(st.entries), r.value.fields.id);
        EntryIdsSnoc(st.entries, r.value);
      }
    }
  }

  /** What `LoadTickets` leaves behind: every non-blank line after the
      first is counted once, as loaded or as skipped, one message per skip;
      the loaded tickets are well-formed and their ids unique ignoring case. */
  lemma LoadInvariant(fileLines: seq<string>, parseDate: string -> Option<Instant>)
    requires fileLines != []
    ensures var (res, es) := Load(fileLines, parseDate);
            && res.Loaded?
            && res.loaded == |es| && res.skipped == |res.skips|
            && res.loaded + res.skipped == NonBlankCount(fileLines[1..])
            && UniqueIds(EntryIds(es))
            && forall i :: 0 <= i < |es| ==> WellFormed(es[i].fields)
  {
    TicketReaderSound(parseDate);
    LoadRowsInvariant(fileLines[1..], TicketReader(parseDate));
  }

  /** Lines after a prefix never displace what the prefix loaded: tickets
      loaded earlier in the file stay, in file order, ahead of those loaded
      later, and so do their skip messages. */
  lemma {:induction false} LoadRowsPrefix(rows: seq<string>, more: seq<string>, read: RowReader)
    ensures var st, st' := LoadRows(rows, read), LoadRows(rows + more, read);
            && st.entries <= st'.entries
            && st.skips <= st'.skips
    decreases |more|
  {
    if more == [] {
      assert rows + more == rows;
    } else {
      var front := more[..|more| - 1];
      LoadRowsPrefix(rows, front, read);
      assert (rows + more)[..|rows + more| - 1] == rows + front;
    }
  }

  /** A line that passes every check of its own but whose id matches,
      ignoring case, one of the tickets already loaded is refused as a
      duplicate. */
  lemma ReadRowDuplicate(entries: seq<Entry>, line: string, f: Fields,
                         parseDate: string -> Option<Instant>)
    requires var cols := ParseFields(line);
             && |cols| == 5 && parseDate(cols[4]).Some?
             && Validate(cols[0], cols[1], cols[2], cols[3]) == Ok(f)
    requires FirstMatch(EntryIds(entries), f.id).Some?
    ensures ReadRow(entries, line, parseDate) == Err(DuplicateId)
  {
  }

  /** A line that passes every check and whose id matches none of the
      tickets already loaded is read as the ticket its columns make. */
  lemma ReadRowAdded(entries: seq<Entry>, line: string, f: Fields, when: Instant,
                     parseDate: string -> Option<Instant>)
    requires var cols := ParseFields(line);
             && |cols| == 5 && parseDate(cols[4]) == Some(when)
             && Validate(cols[0], cols[1], cols[2], cols[3]) == Ok(f)
    requires FirstMatch(EntryIds(entries), f.id).None?
    ensures ReadRow(entries, line, parseDate) == Ok(Entry(f, when))
  {
  }

  /** A line whose id matches, ignoring case, a ticket already loaded is
      skipped as a duplicate and the earlier ticket is kept: the first
      occurrence wins. */
  lemma DuplicateSkipped(st: LoadState, line: string, lineNo: nat, f: Fields,
                         parseDate: string -> Option<Instant>)
    requires !IsBlank(line)
    requires var cols := ParseFields(line);
             && |cols| == 5 && parseDate(cols[4]).Some?
             && Validate(cols[0], cols[1], cols[2], cols[3]) == Ok(f)
    requires FirstMatch(EntryIds(st.entries), f.id).Some?
    ensures LoadStep(st, line, lineNo, TicketReader(parseDate))
            == st.(skipped := st.skipped + 1, skips := st.skips + [Skip(lineNo, DuplicateId)])
  {
    ReadRowDuplicate(st.entries, line, f, parseDate);
  }

  /** A line with other than five columns is skipped, with the count it
      found. */
  lemma ColumnCountSkipped(st: LoadState, line: string, lineNo: nat,
                           parseDate: string -> Option<Instant>)
    requires !IsBlank(line) && |ParseFields(line)| != 5
    ensures LoadStep(st, line, lineNo, TicketReader(parseDate))
            == st.(skipped := st.skipped + 1,
                   skips := st.skips + [Skip(lineNo, ColumnCount(|ParseFields(line)|))])
  {
  }

  /** An empty file is a hard failure and leaves no tickets. */
  lemma EmptyFileFails(parseDate: string -> Option<Instant>)
    ensures Load([], parseDate) == (EmptyFile, [])
  {
  }

  // ---------- Saving, then loading ----------

  /** Doubling quotes adds no line break. */
  lemma {:induction false} DoubleQuotesNoBreaks(s: string)
    requires NoBreaks(s)
    ensures NoBreaks(DoubleQuotes(s))
    decreases |s|
  {
    if s != [] {
      DoubleQuotesNoBreaks(s[1..]);
      var head := if s[0] == '"' then "\"\"" else [s[0]];
      assert DoubleQuotes(s) == head + DoubleQuotes(s[1..]);
    }
  }

  /** Escaping adds no line break. */
  lemma EscapeNoBreaks(s: string)
    requires NoBreaks(s)
    ensures NoBreaks(Escape(s))
  {
    if NeedsQuotes(s) {
      DoubleQuotesNoBreaks(s);
    }
  }

  /** Joining fields without line breaks gives a line without breaks. */
  lemma {:induction false} JoinNoBreaks(fields: seq<string>)
    requires forall i :: 0 <= i < |fields| ==> NoBreaks(fields[i])
    ensures NoBreaks(JoinFields(fields))
    decreases |fields|
  {
    if |fields| > 1 {
      JoinNoBreaks(fields[1..]);
    }
  }

  /** What a ticket needs for its row to come back unchanged: it is
      well-formed, its id, description and rendered date hold no line break,
      and the date parser reads back what the formatter wrote. */
  predicate SavesCleanly(e: Entry, formatDate: Instant -> string, parseDate: string -> Option<Instant>)
  {
    && WellFormed(e.fields)
    && NoBreaks(e.fields.id) && NoBreaks(e.fields.description) && NoBreaks(formatDate(e.created))
    && parseDate(formatDate(e.created)) == Some(e.created)
  }

  /** Every ticket of the list saves cleanly. */
  ghost predicate AllSaveCleanly(es: seq<Entry>, formatDate: Instant -> string,
                                 parseDate: string -> Option<Instant>)
  {
    forall i :: 0 <= i < |es| ==> SavesCleanly(es[i], formatDate, parseDate)
  }

  /** The saved row of a ticket with an allowed priority and status, whose
      id, description and rendered date hold no line break, is a single
      physical line and not a blank one. */
  lemma RowIsOneLine(e: Entry, formatDate: Instant -> string)
    requires e.fields.priority in AllowedPriorities && e.fields.status in AllowedStatuses
    requires NoBreaks(e.fields.id) && NoBreaks(e.fields.description) && NoBreaks(formatDate(e.created))
    ensures NoBreaks(FormatRow(e, formatDate)) && !IsBlank(FormatRow(e, formatDate))
  {
    var cols := RowFields(e, formatDate);
    var esc := EscapeAll(cols);
    AllowedNoBreaks(e.fields.priority);
    AllowedNoBreaks(e.fields.status);
    forall i | 0 <= i < 5
      ensures NoBreaks(esc[i])
    {
      EscapeNoBreaks(cols[i]);
    }
    JoinNoBreaks(esc);
    JoinedNotBlank(esc);
  }

  /** No allowed priority or status holds a line break. */
  lemma AllowedNoBreaks(v: string)
    requires v in AllowedPriorities || v in AllowedStatuses
    ensures NoBreaks(v)
  {
  }

  /** A join of two or more fields holds a comma, so it is never blank. */
  lemma JoinedNotBlank(fields: seq<string>)
    requires |fields| >= 2
    ensures !IsBlank(JoinFields(fields))
  {
    var row := JoinFields(fields);
    assert row == fields[0] + "," + JoinFields(fields[1..]);
    assert row[|fields[0]|] == ',';
    assert !IsWhite(row[|fields[0]|]);
  }

  /** Loading the saved row of a ticket that saves cleanly, and whose id
      matches none of the tickets already loaded, gives back that ticket. */
  lemma ReadSavedRow(prior: seq<Entry>, e: Entry, formatDate: Instant -> string,
                     parseDate: string -> Option<Instant>)
    requires SavesCleanly(e, formatDate, parseDate)
    requires FirstMatch(EntryIds(prior), e.fields.id).None?
    ensures !IsBlank(FormatRow(e, formatDate))
    ensures ReadRow(prior, FormatRow(e, formatDate), parseDate) == Ok(e)
  {
    RowIsOneLine(e, formatDate);
    RowParsesBack(e, formatDate);
    ValidateWellFormed(e.fields);
  }

  /** In a list with unique ids no id before position `k` matches the id
      at `k`. */
  lemma PrefixNoMatch(es: seq<Entry>, k: nat)
    requires k < |es| && UniqueIds(EntryIds(es))
    ensures FirstMatch(EntryIds(es[..k]), es[k].fields.id).None?
  {
    var ids := EntryIds(es);
    forall j | 0 <= j < k
      ensures !EqualsIgnoreCase(EntryIds(es[..k])[j], es[k].fields.id)
    {
      assert EntryIds(es[..k])[j] == ids[j] && es[k].fields.id == ids[k];
      assert Distinct(ids, j, k);
    }
  }

  /** Each row is a non-blank line that `read` turns into the ticket at the
      same position, given the tickets before it. */
  ghost predicate RowsReadAs(rows: seq<string>, es: seq<Entry>, read: RowReader)
  {
    && |rows| == |es|
    && forall i: nat :: i < |rows| ==> ReadsAt(rows, es, read, i)
  }

  /** Row `i` is a non-blank line that `read` turns into ticket `i`, given
      the tickets before it. */
  ghost predicate ReadsAt(rows: seq<string>, es: seq<Entry>, read: RowReader, i: nat)
    requires i < |rows| && i < |es|
  {
    !IsBlank(rows[i]) && read(es[..i], rows[i]) == Ok(es[i])
  }

  /** For tickets that save cleanly and have unique ids, the reader of
      `LoadTickets` turns every saved row back into its ticket. */
  lemma CleanRowsReadBack(es: seq<Entry>, formatDate: Instant -> string,
                          parseDate: string -> Option<Instant>)
    requires UniqueIds(EntryIds(es)) && AllSaveCleanly(es, formatDate, parseDate)
    ensures RowsReadAs(SavedRows(es, formatDate), es, TicketReader(parseDate))
  {
    var rows := SavedRows(es, formatDate);
    forall i: nat | i < |rows|
      ensures ReadsAt(rows, es, TicketReader(parseDate), i)
    {
      SavedRowAt(es, formatDate, i);
      assert SavesCleanly(es[i], formatDate, parseDate);
      PrefixNoMatch(es, i);
      ReadSavedRow(es[..i], es[i], formatDate, parseDate);
    }
  }

  /** Rows that each read as the ticket at their position load as those
      tickets, in order, all counted as loaded and none skipped. */
  lemma {:induction false} LoadRowsReadAs(rows: seq<string>, es: seq<Entry>, read: RowReader)
    requires RowsReadAs(rows, es, read)
    ensures LoadRows(rows, read) == LoadState(es, |es|, 0, [])
    decreases |rows|
  {
    if rows != [] {
      var n := |rows| - 1;
      RowsReadAsPrefix(rows, es, read);
      LoadRowsReadAs(rows[..n], es[..n], read);
      assert ReadsAt(rows, es, read, n);
      ReadStep(LoadRows(rows[..n], read), rows[n], n + 2, read, es[..n], es[n]);
      assert es[..n] + [es[n]] == es;
    }
  }

  /** Dropping the last row and the last ticket keeps rows reading as
      their tickets. */
  lemma RowsReadAsPrefix(rows: seq<string>, es: seq<Entry>, read: RowReader)
    requires RowsReadAs(rows, es, read) && rows != []
    ensures RowsReadAs(rows[..|rows| - 1], es[..|rows| - 1], read)
  {
    var n := |rows| - 1;
    forall i: nat | i < n
      ensures ReadsAt(rows[..n], es[..n], read, i)
    {
      assert ReadsAt(rows, es, read, i);
      assert rows[..n][i] == rows[i] && es[..n][i] == es[i] && es[..n][..i] == es[..i];
    }
  }

  /** A row that reads as `e` adds `e` to the state of `front` loaded with
      nothing skipped. */
  lemma ReadStep(st: LoadState, line: string, lineNo: nat, read: RowReader, front: seq<Entry>, e: Entry)
    requires st == LoadState(front, |front|, 0, [])
    requires !IsBlank(line) && read(front, line) == Ok(e)
    ensures LoadStep(st, line, lineNo, read) == LoadState(front + [e], |front| + 1, 0, [])
  {
  }

  /** The saved row of a ticket that saves cleanly holds no line break. */
  lemma SavedRowOneLine(es: seq<Entry>, formatDate: Instant -> string,
                        parseDate: string -> Option<Instant>, i: nat)
    requires i < |es| && AllSaveCleanly(es, formatDate, parseDate)
    ensures NoBreaks(SavedRows(es, formatDate)[i])
  {
    SavedRowAt(es, formatDate, i);
    assert SavesCleanly(es[i], formatDate, parseDate);
    RowIsOneLine(es[i], formatDate);
  }

  /** No line `SaveTickets` writes for such tickets holds a line break. */
  lemma SavedLinesNoBreaks(es: seq<Entry>, formatDate: Instant -> string,
                           parseDate: string -> Option<Instant>)
    requires AllSaveCleanly(es, formatDate, parseDate)
    ensures var lines := SaveLines(es, formatDate);
            forall i :: 0 <= i < |lines| ==> NoBreaks(lines[i])
  {
    var rows := SavedRows(es, formatDate);
    var lines := SaveLines(es, formatDate);
    HeaderNoBreaks();
    forall i | 0 <= i < |lines|
      ensures NoBreaks(lines[i])
    {
      if i > 0 {
        assert lines[i] == rows[i - 1];
        SavedRowOneLine(es, formatDate, parseDate, i - 1);
      }
    }
  }

  /** Save, then load: writing the lines of `SaveTickets` to a file and
      reading them back with `LoadTickets` restores the same tickets in the
      same order, counts all of them as loaded and skips none. */
  lemma SaveLoadRoundTrip(es: seq<Entry>, formatDate: Instant -> string,
                          parseDate: string -> Option<Instant>, nl: string)
    requires nl == "\n" || nl == "\r\n"
    requires UniqueIds(EntryIds(es)) && AllSaveCleanly(es, formatDate, parseDate)
    ensures Load(ReadLines(WriteLines(SaveLines(es, formatDate), nl)), parseDate)
            == (Loaded(|es|, 0, []), es)
  {
    SavedLinesNoBreaks(es, formatDate, parseDate);
    ReadWriteLines(SaveLines(es, formatDate), nl);
    CleanRowsReadBack(es, formatDate, parseDate);
    LoadRowsReadAs(SavedRows(es, formatDate), es, TicketReader(parseDate));
    assert SaveLines(es, formatDate)[1..] == SavedRows(es, formatDate);
  }

  /** The header holds no line break. */
  lemma HeaderNoBreaks()
    ensures NoBreaks(Header)
  {
  }

  /** A saved file whose one row holds an LF is read back as three lines:
      the first line and the two halves of the row. */
  lemma SplitRowLines(h: string, p: string, q: string, nl: string)
    requires nl == "\n" || nl == "\r\n"
    requires NoBreaks(h) && NoBreaks(p) && NoBreaks(q)
    ensures ReadLines(WriteLines([h, p + "\n" + q], nl)) == [h, p, q]
  {
    var x := q + nl;
    var y := p + "\n" + x;
    WriteTwoLines(h, p + "\n" + q, nl);
    assert (p + "\n" + q) + nl == y;
    ReadLinesCons(h, nl, y);
    ReadLinesCons(p, "\n", x);
    ReadOneLine(q, nl);
  }

  /** Two lines written one after the other. */
  lemma WriteTwoLines(a: string, b: string, nl: string)
    ensures WriteLines([a, b], nl) == a + nl + (b + nl)
  {
    assert [a, b][1..] == [b];
    assert [b][1..] == [];
    assert WriteLines([b], nl) == b + nl + "";
  }

  /** A line without breaks followed by a newline is read as that line. */
  lemma ReadOneLine(q: string, nl: string)
    requires nl == "\n" || nl == "\r\n"
    requires NoBreaks(q)
    ensures ReadLines(q + nl) == [q]
  {
    ReadLinesCons(q, nl, "");
    assert q + nl + "" == q + nl;
  }

  // ---------- A ticket with a blank id ----------

  /** A ticket whose id is blank, such as the empty id of `new Ticket()`
      that `AddTicket` stores without complaint, does not survive a save
      and a load: its row comes back as one line with the ticket's five
      columns, the id setter refuses the first of them, and the line is
      skipped. */
  lemma BlankIdLost(e: Entry, formatDate: Instant -> string,
                    parseDate: string -> Option<Instant>, nl: string)
    requires nl == "\n" || nl == "\r\n"
    requires IsBlank(e.fields.id)
    requires e.fields.priority in AllowedPriorities && e.fields.status in AllowedStatuses
    requires NoBreaks(e.fields.id) && NoBreaks(e.fields.description) && NoBreaks(formatDate(e.created))
    requires parseDate(formatDate(e.created)) == Some(e.created)
    ensures Load(ReadLines(WriteLines(SaveLines([e], formatDate), nl)), parseDate)
            == (Loaded(0, 1, [Skip(2, Invalid(BlankId))]), [])
  {
    RowIsOneLine(e, formatDate);
    OneRowFileLines(e, formatDate, nl);
    BlankIdRowRefused(e, formatDate, parseDate);
    OneSkippedRowLoad(Header, FormatRow(e, formatDate), parseDate, Invalid(BlankId));
  }

  /** The saved file of one ticket whose row is one line reads back as the
      header and that row. */
  lemma OneRowFileLines(e: Entry, formatDate: Instant -> string, nl: string)
    requires nl == "\n" || nl == "\r\n"
    requires NoBreaks(FormatRow(e, formatDate))
    ensures ReadLines(WriteLines(SaveLines([e], formatDate), nl)) == [Header, FormatRow(e, formatDate)]
  {
    var row := FormatRow(e, formatDate);
    assert SavedRows([e], formatDate) == [row] by {
      assert [e][..0] == [];
    }
    HeaderNoBreaks();
    ReadWriteLines([Header, row], nl);
  }

  /** The row of a ticket with a blank id is refused by the id setter. */
  lemma BlankIdRowRefused(e: Entry, formatDate: Instant -> string, parseDate: string -> Option<Instant>)
    requires IsBlank(e.fields.id)
    requires parseDate(formatDate(e.created)) == Some(e.created)
    ensures ReadRow([], FormatRow(e, formatDate), parseDate) == Err(Invalid(BlankId))
  {
    RowParsesBack(e, formatDate);
  }

  /** A file of a first line and one refused data line loads nothing and
      skips that line as line 2. */
  lemma OneSkippedRowLoad(h: string, row: string, parseDate: string -> Option<Instant>, why: SkipReason)
    requires !IsBlank(row) && ReadRow([], row, parseDate) == Err(why)
    ensures Load([h, row], parseDate) == (Loaded(0, 1, [Skip(2, why)]), [])
  {
    var read := TicketReader(parseDate);
    assert [h, row][1..] == [] + [row];
    LoadRowsSnoc([], row, read);
    assert read([], row) == Err(why);
    assert LoadRows([row], read) == LoadState([], 0, 1, [Skip(2, why)]);
  }

  /** The ticket `new Ticket()` makes (empty id and description, priority
      Low, status Open) is lost through a save and a load. */
  lemma DefaultTicketLost(e: Entry, formatDate: Instant -> string,
                          parseDate: string -> Option<Instant>, nl: string)
    requires nl == "\n" || nl == "\r\n"
    requires e.fields == Fields("", "", "Low", "Open")
    requires NoBreaks(formatDate(e.created))
    requires parseDate(formatDate(e.created)) == Some(e.created)
    ensures Load(ReadLines(WriteLines(SaveLines([e], formatDate), nl)), parseDate)
            == (Loaded(0, 1, [Skip(2, Invalid(BlankId))]), [])
  {
    BlankIdLost(e, formatDate, parseDate, nl);
  }

  // ---------- A line break inside a field ----------

  /** The ticket of the counterexample: a description `a`, LF, `b`, and no
      delimiter in any other column or in the two halves. */
  predicate BrokenEntry(e: Entry, formatDate: Instant -> string, a: string, b: string)
  {
    && e.fields.description == a + "\n" + b
    && !NeedsQuotes(e.fields.id) && !NeedsQuotes(a) && !NeedsQuotes(b)
    && !NeedsQuotes(e.fields.priority) && !NeedsQuotes(e.fields.status)
    && !NeedsQuotes(formatDate(e.created))
  }

  /** The part of that ticket's row before the LF: the id, a comma, the
      opening quote and `a`. */
  function FrontHalf(e: Entry, a: string): string
  {
    e.fields.id + ("," + ("\"" + a))
  }

  /** The part after the LF: `b`, the closing quote and the other columns. */
  function BackHalf(e: Entry, formatDate: Instant -> string, b: string): string
  {
    b + ("\"" + BackColumns(e, formatDate))
  }

  /** The columns after the description, each with its leading comma. */
  function BackColumns(e: Entry, formatDate: Instant -> string): string
  {
    "," + (e.fields.priority + ("," + (e.fields.status + ("," + formatDate(e.created)))))
  }

  /** `string.Join` of five fields. */
  lemma JoinFive(a: string, b: string, c: string, d: string, e: string)
    ensures JoinFields([a, b, c, d, e]) == a + "," + (b + "," + (c + "," + (d + "," + e)))
  {
    assert [a, b, c, d, e][1..] == [b, c, d, e];
    assert [b, c, d, e][1..] == [c, d, e];
    assert [c, d, e][1..] == [d, e];
    assert [d, e][1..] == [e];
    assert JoinFields([d, e]) == d + "," + e;
    assert JoinFields([c, d, e]) == c + "," + (d + "," + e);
    assert JoinFields([b, c, d, e]) == b + "," + (c + "," + (d + "," + e));
  }

  /** Of the escaped columns of that ticket only the description is quoted,
      its text kept as it is. */
  lemma BrokenRowColumns(e: Entry, formatDate: Instant -> string, a: string, b: string)
    requires BrokenEntry(e, formatDate, a, b)
    ensures EscapeAll(RowFields(e, formatDate))
            == [e.fields.id, "\"" + (a + "\n" + b) + "\"", e.fields.priority, e.fields.status,
                formatDate(e.created)]
  {
    KeptWithoutQuotes(a + "\n" + b);
  }

  /** The row of that ticket: the LF stands between its two halves. */
  lemma BrokenRowText(e: Entry, formatDate: Instant -> string, a: string, b: string)
    requires BrokenEntry(e, formatDate, a, b)
    ensures FormatRow(e, formatDate) == FrontHalf(e, a) + "\n" + BackHalf(e, formatDate, b)
  {
    var f := e.fields;
    BrokenRowColumns(e, formatDate, a, b);
    JoinFive(f.id, "\"" + (a + "\n" + b) + "\"", f.priority, f.status, formatDate(e.created));
    RowSplit(f.id, a, b, f.priority, f.status, formatDate(e.created));
  }

  /** Splitting the joined text of that row at its LF. */
  lemma RowSplit(id: string, a: string, b: string, pr: string, st: string, d: string)
    ensures id + "," + ("\"" + (a + "\n" + b) + "\"" + "," + (pr + "," + (st + "," + d)))
            == id + ("," + ("\"" + a)) + "\n" + (b + ("\"" + ("," + (pr + ("," + (st + ("," + d)))))))
  {
  }

  /** The first half of that row has two columns: the id and `a`. */
  lemma FirstHalfColumns(e: Entry, formatDate: Instant -> string, a: string, b: string)
    requires BrokenEntry(e, formatDate, a, b)
    ensures ParseFields(FrontHalf(e, a)) == [e.fields.id, a]
  {
    var id := e.fields.id;
    var w := "," + ("\"" + a);
    ScanPlain(id, w, Scanner([], "", false));
    assert "" + id == id;
    assert w[0] == ',' && w[1..] == "\"" + a;
    assert [] + [id] == [id];
    assert Scan(w, Scanner([], id, false)) == Scan("\"" + a, Scanner([id], "", false));
    assert ("\"" + a)[0] == '"' && ("\"" + a)[1..] == a;
    assert Scan("\"" + a, Scanner([id], "", false)) == Scan(a, Scanner([id], "", true));
    ScanUnterminated(a, Scanner([id], "", true));
    assert "" + a == a;
  }

  /** The second half opens a quote that is never closed, so it is a single
      column. */
  lemma SecondHalfColumns(e: Entry, formatDate: Instant -> string, a: string, b: string)
    requires BrokenEntry(e, formatDate, a, b)
    ensures ParseFields(BackHalf(e, formatDate, b)) == [b + BackColumns(e, formatDate)]
  {
    var tail := BackColumns(e, formatDate);
    ScanPlain(b, "\"" + tail, Scanner([], "", false));
    assert "" + b == b;
    assert ("\"" + tail)[0] == '"' && ("\"" + tail)[1..] == tail;
    assert Scan("\"" + tail, Scanner([], b, false)) == Scan(tail, Scanner([], b, true));
    assert '"' !in tail;
    ScanUnterminated(tail, Scanner([], b, true));
    assert [] + [b + tail] == [b + tail];
  }

  /** Text without LF and CR holds no line break. */
  lemma NoBreakChars(s: string)
    requires '\n' !in s && '\r' !in s
    ensures NoBreaks(s)
  {
    forall i | 0 <= i < |s|
      ensures !IsBreak(s[i])
    {
      assert s[i] in s;
    }
  }

  /** Neither half of that row holds a line break. */
  lemma HalvesNoBreaks(e: Entry, formatDate: Instant -> string, a: string, b: string)
    requires BrokenEntry(e, formatDate, a, b)
    ensures NoBreaks(FrontHalf(e, a)) && NoBreaks(BackHalf(e, formatDate, b))
  {
    NoBreakChars(FrontHalf(e, a));
    NoBreakChars(BackHalf(e, formatDate, b));
  }

  /** The file saved for that ticket is read back as three lines: the
      header and the two halves of its row. */
  lemma BrokenFileLines(e: Entry, formatDate: Instant -> string, a: string, b: string, nl: string)
    requires nl == "\n" || nl == "\r\n"
    requires BrokenEntry(e, formatDate, a, b)
    ensures ReadLines(WriteLines(SaveLines([e], formatDate), nl))
            == [Header, FrontHalf(e, a), BackHalf(e, formatDate, b)]
  {
    BrokenRowText(e, formatDate, a, b);
    assert SavedRows([e], formatDate) == [FormatRow(e, formatDate)];
    HalvesNoBreaks(e, formatDate, a, b);
    HeaderNoBreaks();
    SplitRowLines(Header, FrontHalf(e, a), BackHalf(e, formatDate, b), nl);
  }

  /** A file whose two data lines are non-blank, with two columns and one
      column, loads nothing and reports both lines by their number. */
  lemma TwoShortRowsLoad(h: string, p: string, q: string, parseDate: string -> Option<Instant>)
    requires !IsBlank(p) && !IsBlank(q)
    requires |ParseFields(p)| == 2 && |ParseFields(q)| == 1
    ensures Load([h, p, q], parseDate)
            == (Loaded(0, 2, [Skip(2, ColumnCount(2)), Skip(3, ColumnCount(1))]), [])
  {
    var read := TicketReader(parseDate);
    var st0 := LoadState([], 0, 0, []);
    ColumnCountSkipped(st0, p, 2, parseDate);
    var st1 := LoadState([], 0, 1, [Skip(2, ColumnCount(2))]);
    ColumnCountSkipped(st1, q, 3, parseDate);
    assert LoadRows([], read) == st0;
    LoadRowsSnoc([], p, read);
    assert [] + [p] == [p];
    assert LoadRows([p], read) == st1;
    LoadRowsSnoc([p], q, read);
    assert [p] + [q] == [h, p, q][1..];
    assert LoadRows([h, p, q][1..], read)
           == LoadState([], 0, 2, [Skip(2, ColumnCount(2)), Skip(3, ColumnCount(1))]);
  }

  /** A line break inside a description does not survive: the row is split
      into two physical lines and both are skipped for their column count,
      so the ticket is lost. */
  lemma BrokenDescriptionLost(e: Entry, formatDate: Instant -> string,
                              parseDate: string -> Option<Instant>, a: string, b: string, nl: string)
    requires nl == "\n" || nl == "\r\n"
    requires BrokenEntry(e, formatDate, a, b)
    ensures Load(ReadLines(WriteLines(SaveLines([e], formatDate), nl)), parseDate)
            == (Loaded(0, 2, [Skip(2, ColumnCount(2)), Skip(3, ColumnCount(1))]), [])
  {
    var p, q := FrontHalf(e, a), BackHalf(e, formatDate, b);
    BrokenFileLines(e, formatDate, a, b, nl);
    FirstHalfColumns(e, formatDate, a, b);
    SecondHalfColumns(e, formatDate, a, b);
    assert !IsBlank(p) by {
      assert p[|e.fields.id|] == ',';
      assert !IsWhite(p[|e.fields.id|]);
    }
    assert !IsBlank(q) by {
      assert q[|b|] == '"';
      assert !IsWhite(q[|b|]);
    }
    TwoShortRowsLoad(Header, p, q, parseDate);
  }

  /** The ticket T1 with description a, LF, b, priority Low and status Open
      is lost that way. */
  lemma BrokenDescriptionExample(e: Entry, formatDate: Instant -> string,
                                 parseDate: string -> Option<Instant>, nl: string)
    requires nl == "\n" || nl == "\r\n"
    requires e.fields == Fields("T1", "a\nb", "Low", "Open")
    requires !NeedsQuotes(formatDate(e.created))
    ensures Load(ReadLines(WriteLines(SaveLines([e], formatDate), nl)), parseDate)
            == (Loaded(0, 2, [Skip(2, ColumnCount(2)), Skip(3, ColumnCount(1))]), [])
  {
    assert "a\nb" == "a" + "\n" + "b";
    assert !NeedsQuotes("T1") && !NeedsQuotes("a") && !NeedsQuotes("b");
    assert !NeedsQuotes("Low") && !NeedsQuotes("Open");
    BrokenDescriptionLost(e, formatDate, parseDate, "a", "b", nl);
  }
}
