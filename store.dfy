/** The ticket store of TicketManager.cs: a list of ticket objects, looked
    up, added and removed by id ignoring case, counted, written to a file
    and loaded back from one. */
module Store {
  import opened Text
  import opened Results
  import opened Csv
  import opened TicketRecord
  import opened Lookup
  import opened Persistence

  /** The stored form of each ticket of a list, in order. */
  function EntriesOf(ts: seq<Ticket>): (es: seq<Entry>)
    reads ts
    ensures |es| == |ts|
    decreases |ts|
  {
    if ts == [] then [] else EntriesOf(ts[..|ts| - 1]) + [ts[|ts| - 1].Stored()]
  }

  /** Entry `i` is the stored form of ticket `i`. */
  lemma {:induction false} EntriesOfAt(ts: seq<Ticket>, i: nat)
    requires i < |ts|
    ensures EntriesOf(ts)[i] == ts[i].Stored()
    decreases |ts|
  {
    if i < |ts| - 1 {
      EntriesOfAt(ts[..|ts| - 1], i);
    }
  }

  /** The statuses of a list of stored tickets, in order. */
  function EntryStatuses(es: seq<Entry>): (ss: seq<string>)
    ensures |ss| == |es|
    ensures forall i :: 0 <= i < |es| ==> ss[i] == es[i].fields.status
  {
    seq(|es|, i requires 0 <= i < |es| => es[i].fields.status)
  }

  /** Why `AddTicket` refused a ticket: the two exceptions it throws. */
  datatype AddError = NullTicket | AlreadyExists

  /** Lines written one after another: one more line is that line and a
      newline at the end. */
  lemma {:induction false} WriteLinesSnoc(lines: seq<string>, line: string, nl: string)
    ensures WriteLines(lines + [line], nl) == WriteLines(lines, nl) + line + nl
    decreases |lines|
  {
    if lines == [] {
      assert [] + [line] == [line];
      assert [line][1..] == [];
    } else {
      assert (lines + [line])[1..] == lines[1..] + [line];
      WriteLinesSnoc(lines[1..], line, nl);
    }
  }

  /** The text `SaveTickets` builds, one row at a time: the header line,
      then the line of each ticket. */
  function SavedText(es: seq<Entry>, formatDate: Instant -> string, nl: string): string
  {
    if es == [] then Header + nl
    else SavedText(es[..|es| - 1], formatDate, nl) + FormatRow(es[|es| - 1], formatDate) + nl
  }

  /** The text built row by row is the saved lines written one per line. */
  lemma {:induction false} SavedTextLines(es: seq<Entry>, formatDate: Instant -> string, nl: string)
    ensures SavedText(es, formatDate, nl) == WriteLines(SaveLines(es, formatDate), nl)
    decreases |es|
  {
    if es == [] {
      assert SaveLines(es, formatDate) == [Header];
      assert WriteLines([Header], nl) == Header + nl + "";
    } else {
      var front := es[..|es| - 1];
      SavedTextLines(front, formatDate, nl);
      assert SaveLines(es, formatDate) == SaveLines(front, formatDate) + [FormatRow(es[|es| - 1], formatDate)];
      WriteLinesSnoc(SaveLines(front, formatDate), FormatRow(es[|es| - 1], formatDate), nl);
    }
  }

  /** One more ticket is one more row. */
  lemma SavedTextStep(es: seq<Entry>, i: nat, formatDate: Instant -> string, nl: string)
    requires i < |es|
    ensures SavedText(es[..i + 1], formatDate, nl) == SavedText(es[..i], formatDate, nl) + FormatRow(es[i], formatDate) + nl
  {
    assert es[..i + 1][..i] == es[..i];
  }

  /** The row saved for ticket `i` is made of that object's fields. */
  lemma RowOfTicket(ts: seq<Ticket>, i: nat, formatDate: Instant -> string)
    requires i < |ts|
    ensures FormatRow(EntriesOf(ts)[i], formatDate)
            == JoinFields(EscapeAll([ts[i].id, ts[i].description, ts[i].priority, ts[i].status,
                                     formatDate(ts[i].created)]))
  {
    EntriesOfAt(ts, i);
  }

  /** The ids of a list with entry `k` left out are its ids with id `k`
      left out. */
  lemma EntryIdsRemove(es: seq<Entry>, k: nat)
    requires k < |es|
    ensures EntryIds(es[..k] + es[k + 1..]) == EntryIds(es)[..k] + EntryIds(es)[k + 1..]
  {
  }

  /** The stored form of one more ticket is one more entry. */
  lemma EntriesOfSnoc(ts: seq<Ticket>, t: Ticket)
    ensures EntriesOf(ts + [t]) == EntriesOf(ts) + [t.Stored()]
  {
    var ts' := ts + [t];
    assert ts'[..|ts'| - 1] == ts && ts'[|ts'| - 1] == t;
  }

  /** The stored form of a list with ticket `k` left out is its stored form
      with entry `k` left out. */
  lemma EntriesOfRemove(ts: seq<Ticket>, k: nat)
    requires k < |ts|
    ensures EntriesOf(ts[..k] + ts[k + 1..]) == EntriesOf(ts)[..k] + EntriesOf(ts)[k + 1..]
  {
    var es := EntriesOf(ts);
    var left, kept := EntriesOf(ts[..k] + ts[k + 1..]), es[..k] + es[k + 1..];
    forall j | 0 <= j < |ts| - 1
      ensures left[j] == kept[j]
    {
      RemovedAt(ts, k, j);
    }
    assert |left| == |ts| - 1 == |kept|;
  }

  /** Entry `j` of a list with ticket `k` left out is entry `j` of the
      stored form with entry `k` left out. */
  lemma RemovedAt(ts: seq<Ticket>, k: nat, j: nat)
    requires k < |ts| && j < |ts| - 1
    ensures EntriesOf(ts[..k] + ts[k + 1..])[j] == (EntriesOf(ts)[..k] + EntriesOf(ts)[k + 1..])[j]
  {
    var ts' := ts[..k] + ts[k + 1..];
    var j' := if j < k then j else j + 1;
    assert ts'[j] == ts[j'];
    EntriesOfAt(ts', j);
    EntriesOfAt(ts, j');
    var es := EntriesOf(ts);
    assert (es[..k] + es[k + 1..])[j] == es[j'];
  }

  /** In a unique list with no match of `id`, an id appended at the end is
      unique and found there. */
  lemma AppendFound(ids: seq<string>, id: string)
    requires UniqueIds(ids) && FirstMatch(ids, id).None?
    ensures UniqueIds(ids + [id]) && FirstMatch(ids + [id], id) == Some(|ids|)
  {
    UniqueAppend(ids, id);
    UniqueMatchIsFirst(ids + [id], |ids|, id);
  }

  /** In a unique list whose first match of `id` is at `k`, leaving `k` out
      keeps the list unique and leaves no match of `id`. */
  lemma RemoveFound(ids: seq<string>, k: nat, id: string)
    requires UniqueIds(ids) && FirstMatch(ids, id) == Some(k)
    ensures UniqueIds(ids[..k] + ids[k + 1..]) && FirstMatch(ids[..k] + ids[k + 1..], id).None?
  {
    UniqueRemove(ids, k);
    var ids' := ids[..k] + ids[k + 1..];
    forall j | 0 <= j < |ids'|
      ensures !EqualsIgnoreCase(ids'[j], id)
    {
      if j < k {
        assert ids'[j] == ids[j] && Distinct(ids, j, k);
      } else {
        assert ids'[j] == ids[j + 1] && Distinct(ids, k, j + 1);
      }
    }
  }

  /** Every ticket of a list keeps its setters' rules and no two ids are
      equal ignoring case. */
  ghost predicate ValidList(ts: seq<Ticket>)
    reads ts
  {
    && AllValid(ts)
    && UniqueIds(EntryIds(EntriesOf(ts)))
  }

  /** Every ticket of a list keeps its setters' rules. */
  ghost predicate AllValid(ts: seq<Ticket>)
    reads ts
  {
    forall i :: 0 <= i < |ts| ==> ts[i].Valid()
  }

  lemma AllValidSnoc(ts: seq<Ticket>, t: Ticket)
    requires AllValid(ts) && t.Valid()
    ensures AllValid(ts + [t])
  {
    var ts' := ts + [t];
    forall i | 0 <= i < |ts'|
      ensures ts'[i].Valid()
    {
      if i < |ts| {
        assert ts'[i] == ts[i];
      }
    }
  }

  lemma AllValidRemove(ts: seq<Ticket>, k: nat)
    requires AllValid(ts) && k < |ts|
    ensures AllValid(ts[..k] + ts[k + 1..])
  {
    var ts' := ts[..k] + ts[k + 1..];
    forall i | 0 <= i < |ts'|
      ensures ts'[i].Valid()
    {
      if i < k {
        assert ts'[i] == ts[i];
      } else {
        assert ts'[i] == ts[i + 1];
      }
    }
  }

  /** Appending a valid ticket whose id matches none of a valid list keeps
      it valid, and the new ticket is then the first match of its id. */
  lemma AppendValid(ts: seq<Ticket>, t: Ticket)
    requires ValidList(ts) && t.Valid()
    requires FirstMatch(EntryIds(EntriesOf(ts)), t.id).None?
    ensures ValidList(ts + [t])
    ensures EntriesOf(ts + [t]) == EntriesOf(ts) + [t.Stored()]
    ensures FirstMatch(EntryIds(EntriesOf(ts + [t])), t.id) == Some(|ts|)
  {
    EntriesOfSnoc(ts, t);
    EntryIdsSnoc(EntriesOf(ts), t.Stored());
    AppendFound(EntryIds(EntriesOf(ts)), t.id);
    AllValidSnoc(ts, t);
  }

  /** Leaving out the ticket at `k`, the first match of `id` in a valid list,
      keeps the list valid and leaves no match of `id`. */
  lemma RemoveValid(ts: seq<Ticket>, k: nat, id: string)
    requires ValidList(ts)
    requires FirstMatch(EntryIds(EntriesOf(ts)), id) == Some(k)
    ensures ValidList(ts[..k] + ts[k + 1..])
    ensures EntriesOf(ts[..k] + ts[k + 1..]) == EntriesOf(ts)[..k] + EntriesOf(ts)[k + 1..]
    ensures FirstMatch(EntryIds(EntriesOf(ts[..k] + ts[k + 1..])), id).None?
  {
    EntriesOfRemove(ts, k);
    EntryIdsRemove(EntriesOf(ts), k);
    RemoveFound(EntryIds(EntriesOf(ts)), k, id);
    AllValidRemove(ts, k);
  }

  /** No position before the first match of `id` holds the ticket found
      there: a ticket held twice would match twice. */
  lemma FirstHolder(ts: seq<Ticket>, k: nat, id: string)
    requires FirstMatch(EntryIds(EntriesOf(ts)), id) == Some(k)
    ensures forall j :: 0 <= j < k ==> ts[j] != ts[k]
  {
    forall j | 0 <= j < k
      ensures ts[j] != ts[k]
    {
      EntriesOfAt(ts, j);
      EntriesOfAt(ts, k);
    }
  }

  /** `new Ticket(id, description, priority, status)` followed by setting
      `DateCreated` to `when` by reflection, as the load loop does. */
  method BuildTicket(id: string, description: string, priority: string, status: string,
                     when: Instant, now: Instant)
    returns (made: Result<Ticket, FieldError>)
    ensures made.Err? ==> Validate(id, description, priority, status) == Err(made.error)
    ensures made.Ok? ==> && fresh(made.value) && made.value.Valid()
                         && Validate(id, description, priority, status) == Ok(made.value.Snapshot())
                         && made.value.created == when
  {
    made := Ticket.Create(id, description, priority, status, now);
    if made.Ok? {
      made.value.created := when;
    }
  }

  /** The list of tickets a `TicketManager` holds. Tickets are objects: the
      manager holds references to them, as the C# `List<Ticket>` does. */
  class TicketManager {
    var tickets: seq<Ticket>

    /** What every operation keeps: each ticket keeps its setters' rules and
        no two ids are equal ignoring case. */
    ghost predicate Valid()
      reads this, tickets
    {
      ValidList(tickets)
    }

    /** The stored tickets as values, in list order. */
    function Contents(): seq<Entry>
      reads this, tickets
    {
      EntriesOf(tickets)
    }

    /** The ids of the stored tickets, in list order. */
    function Ids(): (ids: seq<string>)
      reads this, tickets
      ensures |ids| == |tickets|
    {
      EntryIds(Contents())
    }

    /** A new manager holds no tickets. */
    constructor ()
      ensures Valid() && tickets == []
    {
      tickets := [];
    }

    /** `FindTicket`: the first ticket whose id equals `id` ignoring case,
        or null when there is none. */
    method FindTicket(id: string) returns (t: Ticket?)
      ensures Contents() == old(Contents())
      ensures FirstMatch(Ids(), id).None? <==> t == null
      ensures FirstMatch(Ids(), id).Some? ==> t == tickets[FirstMatch(Ids(), id).value]
    {
      var i := 0;
      while i < |tickets|
        invariant 0 <= i <= |tickets|
        invariant forall k :: 0 <= k < i ==> !EqualsIgnoreCase(Ids()[k], id)
      {
        EntriesOfAt(tickets, i);
        if EqualsIgnoreCase(tickets[i].id, id) {
          return tickets[i];
        }
        i := i + 1;
      }
      return null;
    }

    /** `AddTicket`: a null ticket and a ticket whose id is already stored
        (ignoring case) are refused and nothing changes; any other ticket is
        appended at the end, where a lookup of its id then finds it. */
    method AddTicket(t: Ticket?) returns (r: Option<AddError>)
      requires Valid()
      requires t != null ==> t.Valid()
      modifies this`tickets
      ensures Valid()
      ensures r == Some(NullTicket) <==> t == null
      ensures r == Some(AlreadyExists) <==> t != null && FirstMatch(old(Ids()), t.id).Some?
      ensures r.None? ==> && t != null && tickets == old(tickets) + [t]
                          && FirstMatch(Ids(), t.id) == Some(|tickets| - 1)
      ensures r.Some? ==> tickets == old(tickets)
    {
      if t == null {
        return Some(NullTicket);
      }
      ghost var ts := tickets;
      var found := FindTicket(t.id);
      if found != null {
        return Some(AlreadyExists);
      }
      tickets := tickets + [t];
      AppendValid(ts, t);
      r := None;
    }

    /** `RemoveTicket`: when a ticket's id equals `id` ignoring case, the
        first such ticket leaves the list, the others keep their order, and
        no stored id equals `id` any more; otherwise nothing changes. */
    method RemoveTicket(id: string) returns (removed: bool)
      requires Valid()
      modifies this`tickets
      ensures Valid()
      ensures removed <==> FirstMatch(old(Ids()), id).Some?
      ensures removed ==> var k := FirstMatch(old(Ids()), id).value;
                          && tickets == old(tickets[..k] + tickets[k + 1..])
                          && FirstMatch(Ids(), id).None?
      ensures !removed ==> tickets == old(tickets)
    {
      ghost var ts := tickets;
      ghost var found := FirstMatch(Ids(), id);
      var t := FindTicket(id);
      if t == null {
        return false;
      }
      FirstHolder(ts, found.value, id);
      ghost var i := Remove(t);
      assert i == found.value;
      RemoveValid(ts, i, id);
      removed := true;
    }

    /** `List.Remove`: drops the first position that holds this very object,
        returned as `i`. */
    method Remove(t: Ticket) returns (ghost i: nat)
      requires t in tickets
      modifies this`tickets
      ensures i < |old(tickets)| && old(tickets)[i] == t
      ensures forall j :: 0 <= j < i ==> old(tickets)[j] != t
      ensures tickets == old(tickets)[..i] + old(tickets)[i + 1..]
    {
      var at := IndexOf(t);
      tickets := tickets[..at] + tickets[at + 1..];
      i := at;
    }

    /** The position `List.Remove` removes: the first that holds this very
        object. */
    method IndexOf(t: Ticket) returns (i: nat)
      requires t in tickets
      ensures i < |tickets| && tickets[i] == t
      ensures forall j :: 0 <= j < i ==> tickets[j] != t
    {
      i := 0;
      while tickets[i] != t
        invariant i < |tickets| && t in tickets[i..]
        invariant forall j :: 0 <= j < i ==> tickets[j] != t
        decreases |tickets| - i
      {
        assert tickets[i..] == [tickets[i]] + tickets[i + 1..];
        i := i + 1;
      }
    }

    /** `GetOpenCount`: the number of tickets whose status is not Closed
        ignoring case. */
    method GetOpenCount() returns (count: nat)
      ensures count == CountOpen(EntryStatuses(Contents())) && count <= |tickets|
    {
      ghost var ss := EntryStatuses(Contents());
      count := 0;
      var i := 0;
      while i < |tickets|
        invariant 0 <= i <= |tickets|
        invariant count == CountOpen(ss[..i])
      {
        assert ss[..i + 1][..i] == ss[..i];
        EntriesOfAt(tickets, i);
        if !EqualsIgnoreCase(tickets[i].status, "Closed") {
          count := count + 1;
        }
        i := i + 1;
      }
      assert ss[..i] == ss;
    }

    /** `SaveTickets`: the text written to the file, `formatDate` standing
        for the "o" format and `nl` for the newline `WriteLine` ends each
        line with: the header, then one row per ticket in list order. */
    method SaveTickets(formatDate: Instant -> string, nl: string) returns (text: string)
      ensures text == WriteLines(SaveLines(Contents(), formatDate), nl)
    {
      ghost var es := Contents();
      text := Header + nl;
      assert es[..0] == [];
      var i := 0;
      while i < |tickets|
        invariant 0 <= i <= |tickets|
        invariant text == SavedText(es[..i], formatDate, nl)
      {
        var t := tickets[i];
        var line := JoinFields(EscapeAll([t.id, t.description, t.priority, t.status,
                                          formatDate(t.created)]));
        RowOfTicket(tickets, i, formatDate);
        SavedTextStep(es, i, formatDate, nl);
        text := text + line + nl;
        i := i + 1;
      }
      assert es[..i] == es;
      SavedTextLines(es, formatDate, nl);
    }

    /** The `try` block of the load loop on one non-blank line: split the
        line, check its column count, parse its date, build the ticket, set
        its creation time and add it. The ticket is added exactly when
        `ReadRow` accepts the line; otherwise the reason it gives is the
        exception that escapes, and the list is as it was. */
    method TryLoadLine(line: string, parseDate: string -> Option<Instant>, now: Instant)
      returns (failure: Option<SkipReason>)
      requires Valid()
      modifies this`tickets
      ensures Valid()
      ensures var r := ReadRow(old(Contents()), line, parseDate);
              && (r.Ok? ==> && failure.None? && |tickets| == |old(tickets)| + 1
                            && tickets == old(tickets) + [tickets[|tickets| - 1]]
                            && tickets[|tickets| - 1].Stored() == r.value)
              && (r.Err? ==> failure == Some(r.error) && tickets == old(tickets))
    {
      var cols := CsvParse(line);
      if |cols| != 5 {
        return Some(ColumnCount(|cols|));
      }
      var when := parseDate(cols[4]);
      if when.None? {
        return Some(BadDate);
      }
      var made := BuildTicket(cols[0], cols[1], cols[2], cols[3], when.value, now);
      if made.Err? {
        return Some(Invalid(made.error));
      }
      var t := made.value;
      ghost var ids := Ids();
      assert ids == EntryIds(old(Contents()));
      var refused := AddTicket(t);
      if refused.Some? {
        assert refused.value.NullTicket? || refused.value.AlreadyExists?;
        assert !refused.value.NullTicket?;
        assert refused == Some(AlreadyExists);
        assert FirstMatch(ids, t.id).Some?;
        ReadRowDuplicate(old(Contents()), line, t.Snapshot(), parseDate);
        return Some(DuplicateId);
      }
      ReadRowAdded(old(Contents()), line, t.Snapshot(), when.value, parseDate);
      return None;
    }

    /** One pass of the load loop on line `lineNo`: a blank line is passed
        over; any other line goes through the `try` block, and an exception
        from it is caught, counted and reported with the line number. */
    method LoadLine(line: string, lineNo: nat, parseDate: string -> Option<Instant>, now: Instant,
                    loaded: nat, skipped: nat, skips: seq<Skip>)
      returns (loaded': nat, skipped': nat, skips': seq<Skip>)
      requires Valid()
      modifies this`tickets
      ensures Valid()
      ensures LoadState(Contents(), loaded', skipped', skips')
              == LoadStep(LoadState(old(Contents()), loaded, skipped, skips), line, lineNo,
                          TicketReader(parseDate))
    {
      loaded', skipped', skips' := loaded, skipped, skips;
      if IsBlank(line) {
        return;
      }
      ghost var before := tickets;
      var failure := TryLoadLine(line, parseDate, now);
      assert EntriesOf(before) == old(Contents());
      if failure.Some? {
        skipped', skips' := skipped + 1, skips + [Skip(lineNo, failure.value)];
      } else {
        EntriesOfSnoc(before, tickets[|tickets| - 1]);
        loaded' := loaded + 1;
      }
    }

    /** `LoadTickets`, given the lines of the file, `parseDate` standing for
        `DateTime.TryParse` and `now` for the clock: the list is cleared;
        with no first line the load fails; otherwise each line after the
        header adds a ticket or is skipped as `Load` says, so the outcome
        and the tickets left are exactly `Load`'s. */
    method LoadTickets(fileLines: seq<string>, parseDate: string -> Option<Instant>, now: Instant)
      returns (r: LoadResult)
      modifies this`tickets
      ensures Valid()
      ensures (r, Contents()) == Load(fileLines, parseDate)
    {
      tickets := [];
      if fileLines == [] {
        return EmptyFile;
      }
      var loaded: nat, skipped: nat, skips: seq<Skip> := 0, 0, [];
      var lineNo := 1;
      while lineNo < |fileLines|
        invariant 1 <= lineNo <= |fileLines|
        invariant Valid()
        invariant LoadRows(fileLines[1..lineNo], TicketReader(parseDate))
                  == LoadState(Contents(), loaded, skipped, skips)
      {
        var line := fileLines[lineNo];
        LoadRowsNext(fileLines, lineNo, TicketReader(parseDate));
        lineNo := lineNo + 1;
        loaded, skipped, skips := LoadLine(line, lineNo, parseDate, now, loaded, skipped, skips);
      }
      assert fileLines[1..lineNo] == fileLines[1..];
      r := Loaded(loaded, skipped, skips);
    }
  }
}
