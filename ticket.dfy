/** One support ticket: four validated text fields and a creation time
    (Ticket.cs). */
module TicketRecord {
  import opened Text
  import opened Results

  /** A point in time, as the tick count of a `DateTime`. The clock, the
      "o" round-trip format, `DateTime.TryParse` and the `yyyy-MM-dd` format
      are not part of this model; they reach it as values and parameters. */
  datatype Instant = Instant(ticks: int)

  /** `Ticket.AllowedPriorities`. */
  const AllowedPriorities: seq<string> := ["Low", "Medium", "High"]

  /** `Ticket.AllowedStatuses`. */
  const AllowedStatuses: seq<string> := ["Open", "In Progress", "Closed"]

  /** The setter that rejected a value, in the order the 4-argument
      constructor calls them. */
  datatype FieldError = BlankId | BlankDescription | BadPriority | BadStatus

  /** The four text fields of a ticket, as values. */
  datatype Fields = Fields(id: string, description: string, priority: string, status: string)

  /** A ticket as it is stored and written to a file: its fields and its
      creation time. */
  datatype Entry = Entry(fields: Fields, created: Instant)

  /** A ticket whose fields every setter would accept as they are: id and
      description non-blank and already trimmed, priority and status
      allowed. */
  predicate WellFormed(f: Fields)
  {
    && !IsBlank(f.id) && Trim(f.id) == f.id
    && !IsBlank(f.description) && Trim(f.description) == f.description
    && f.priority in AllowedPriorities
    && f.status in AllowedStatuses
  }

  /** The outcome of `new Ticket(id, description, priority, status)`: the
      first setter that throws, or the fields the setters store. */
  function Validate(id: string, description: string, priority: string, status: string)
    : Result<Fields, FieldError>
  {
    if IsBlank(id) then Err(BlankId)
    else if IsBlank(description) then Err(BlankDescription)
    else if Trim(priority) !in AllowedPriorities then Err(BadPriority)
    else if Trim(status) !in AllowedStatuses then Err(BadStatus)
    else Ok(Fields(Trim(id), Trim(description), Trim(priority), Trim(status)))
  }

  /** The setters run in the order id, description, priority, status, and
      the error names the first one that rejects its value. */
  lemma ValidateFirstError(id: string, description: string, priority: string, status: string)
    ensures Validate(id, description, priority, status) == Err(BlankId) <==> IsBlank(id)
    ensures Validate(id, description, priority, status) == Err(BlankDescription)
            <==> !IsBlank(id) && IsBlank(description)
    ensures Validate(id, description, priority, status) == Err(BadPriority)
            <==> !IsBlank(id) && !IsBlank(description) && Trim(priority) !in AllowedPriorities
    ensures Validate(id, description, priority, status) == Err(BadStatus)
            <==> && !IsBlank(id) && !IsBlank(description) && Trim(priority) in AllowedPriorities
                 && Trim(status) !in AllowedStatuses
  {
  }

  /** A ticket that construction accepts holds well-formed fields. */
  lemma ValidateWellFormedResult(id: string, description: string, priority: string, status: string)
    requires Validate(id, description, priority, status).Ok?
    ensures WellFormed(Validate(id, description, priority, status).value)
  {
    TrimIdempotent(id);
    TrimIdempotent(description);
    TrimNonBlank(id);
    TrimNonBlank(description);
  }

  /** Validating the fields of a well-formed ticket gives them back. */
  lemma ValidateWellFormed(f: Fields)
    requires WellFormed(f)
    ensures Validate(f.id, f.description, f.priority, f.status) == Ok(f)
  {
    AllowedAreTrimmed(f.priority);
    AllowedAreTrimmed(f.status);
  }

  /** No allowed value starts or ends with white space, so trimming keeps it. */
  lemma AllowedAreTrimmed(v: string)
    requires v in AllowedPriorities || v in AllowedStatuses
    ensures Trim(v) == v
  {
    TrimFixed(v);
  }

  /** `[Id] (Priority) - "Description" | Status: Status | Created: day`,
      where `day` is the creation date rendered as `yyyy-MM-dd`. */
  function Summary(f: Fields, day: string): string
  {
    "[" + (f.id + ("] (" + (f.priority + (") - \"" + (f.description + ("\" | Status: "
    + (f.status + (" | Created: " + day))))))))
  }

  /** `sub` occurs in `s` at position `k`. */
  predicate OccursAt(s: string, sub: string, k: nat)
  {
    k + |sub| <= |s| && s[k..k + |sub|] == sub
  }

  /** The summary shows the id, the priority, the description, the status
      and the date verbatim, each at the place the format gives it. */
  lemma SummaryShowsFields(f: Fields, day: string)
    ensures OccursAt(Summary(f, day), f.id, 1)
    ensures OccursAt(Summary(f, day), f.priority, |f.id| + 4)
    ensures OccursAt(Summary(f, day), f.description, |f.id| + |f.priority| + 9)
    ensures OccursAt(Summary(f, day), f.status, |f.id| + |f.priority| + |f.description| + 21)
    ensures OccursAt(Summary(f, day), day, |Summary(f, day)| - |day|)
  {
    SummaryShowsId(f, day);
    SummaryShowsPriority(f, day);
    SummaryShowsDescription(f, day);
    SummaryShowsStatus(f, day);
    SummaryShowsDate(f, day);
  }

  lemma SummaryShowsId(f: Fields, day: string)
    ensures OccursAt(Summary(f, day), f.id, 1)
  {
    ShapeFront("[", f.id, "] (" + (f.priority + (") - \"" + (f.description + ("\" | Status: "
               + (f.status + (" | Created: " + day)))))));
  }

  lemma SummaryShowsPriority(f: Fields, day: string)
    ensures OccursAt(Summary(f, day), f.priority, |f.id| + 4)
  {
    var r := ") - \"" + (f.description + ("\" | Status: " + (f.status + (" | Created: " + day))));
    ShapeFront("] (", f.priority, r);
    ShapeShift("[", f.id, "] (" + (f.priority + r), f.priority, 3);
  }

  lemma SummaryShowsDescription(f: Fields, day: string)
    ensures OccursAt(Summary(f, day), f.description, |f.id| + |f.priority| + 9)
  {
    var r := "\" | Status: " + (f.status + (" | Created: " + day));
    var r2 := ") - \"" + (f.description + r);
    ShapeFront(") - \"", f.description, r);
    ShapeShift("] (", f.priority, r2, f.description, 5);
    ShapeShift("[", f.id, "] (" + (f.priority + r2), f.description, |f.priority| + 8);
  }

  lemma SummaryShowsStatus(f: Fields, day: string)
    ensures OccursAt(Summary(f, day), f.status, |f.id| + |f.priority| + |f.description| + 21)
  {
    var r := " | Created: " + day;
    var r3 := "\" | Status: " + (f.status + r);
    var r2 := ") - \"" + (f.description + r3);
    ShapeFront("\" | Status: ", f.status, r);
    ShapeShift(") - \"", f.description, r3, f.status, 12);
    ShapeShift("] (", f.priority, r2, f.status, |f.description| + 17);
    ShapeShift("[", f.id, "] (" + (f.priority + r2), f.status, |f.priority| + |f.description| + 20);
  }

  lemma SummaryShowsDate(f: Fields, day: string)
    ensures OccursAt(Summary(f, day), day, |Summary(f, day)| - |day|)
  {
    var front := "[" + (f.id + ("] (" + (f.priority + (") - \"" + (f.description + ("\" | Status: "
                 + (f.status + " | Created: ")))))));
    EndShape("[", f.id, "] (", f.priority, ") - \"", f.description, "\" | Status: ", f.status,
             " | Created: ", day);
    assert Summary(f, day) == front + day;
    assert (front + day)[|front|..] == day;
  }

  /** Nine parts and a last one: the last ends the concatenation. */
  lemma EndShape(a: string, b: string, c: string, d: string, e: string, f: string, g: string,
                 h: string, i: string, j: string)
    ensures a + (b + (c + (d + (e + (f + (g + (h + (i + j))))))))
            == a + (b + (c + (d + (e + (f + (g + (h + i))))))) + j
  {
  }

  /** In `a` followed by `x` and the rest, `x` stands right after `a`. */
  lemma ShapeFront(a: string, x: string, rest: string)
    ensures OccursAt(a + (x + rest), x, |a|)
  {
    OccursFront(x, rest);
    OccursShift(a, x + rest, x, 0);
  }

  /** An occurrence in the rest moves along by `a` and `x`. */
  lemma ShapeShift(a: string, x: string, rest: string, sub: string, k: nat)
    requires OccursAt(rest, sub, k)
    ensures OccursAt(a + (x + rest), sub, |a| + |x| + k)
  {
    OccursShift(x, rest, sub, k);
    OccursShift(a, x + rest, sub, |x| + k);
  }

  /** A string occurs at the start of itself followed by anything. */
  lemma OccursFront(sub: string, y: string)
    ensures OccursAt(sub + y, sub, 0)
  {
    assert (sub + y)[..|sub|] == sub;
  }

  /** Putting text in front moves an occurrence along by its length. */
  lemma OccursShift(x: string, s: string, sub: string, k: nat)
    requires OccursAt(s, sub, k)
    ensures OccursAt(x + s, sub, |x| + k)
  {
    assert (x + s)[|x| + k..|x| + k + |sub|] == s[k..k + |sub|];
  }

  /** The id as a reader takes it back from a summary: the text between the
      opening bracket and the first closing bracket. */
  function SummaryId(s: string): Option<string>
  {
    if s == [] || s[0] != '[' then None else UpTo(s[1..], ']')
  }

  /** The prefix of `s` before the first `stop`, if there is one. */
  function UpTo(s: string, stop: char): (r: Option<string>)
    ensures r.Some? ==> |r.value| < |s| && r.value == s[..|r.value|] && s[|r.value|] == stop
                        && stop !in r.value
    ensures r.None? <==> stop !in s
  {
    if s == [] then None
    else if s[0] == stop then Some([])
    else match UpTo(s[1..], stop)
      case None => None
      case Some(p) => Some([s[0]] + p)
  }

  /** For an id without a closing bracket the summary gives the id back. */
  lemma SummaryIdRecovers(f: Fields, day: string)
    ensures ']' !in f.id ==> SummaryId(Summary(f, day)) == Some(f.id)
  {
    if ']' in f.id {
      return;
    }
    var s := Summary(f, day);
    var rest := "] (" + (f.priority + (") - \"" + (f.description + ("\" | Status: "
                + (f.status + (" | Created: " + day))))));
    assert s[1..] == f.id + rest;
    UpToPrefix(f.id, rest, ']');
  }

  lemma {:induction false} UpToPrefix(p: string, rest: string, stop: char)
    requires stop !in p && rest != [] && rest[0] == stop
    ensures UpTo(p + rest, stop) == Some(p)
    decreases |p|
  {
    if p == [] {
      assert p + rest == rest;
    } else {
      assert (p + rest)[1..] == p[1..] + rest;
      UpToPrefix(p[1..], rest, stop);
      assert [p[0]] + p[1..] == p;
    }
  }

  /** A ticket object. The validating setters of Ticket.cs become methods
      that report whether the value was accepted; a rejected value leaves
      the ticket as it was, as the thrown exception does. */
  class Ticket {
    var id: string
    var description: string
    var priority: string
    var status: string
    var created: Instant

    /** What every setter keeps: priority and status are allowed values. */
    ghost predicate Valid()
      reads this
    {
      priority in AllowedPriorities && status in AllowedStatuses
    }

    /** The four text fields as a value. */
    function Snapshot(): Fields
      reads this
    {
      Fields(id, description, priority, status)
    }

    /** The fields and the creation time as a value. */
    function Stored(): Entry
      reads this
    {
      Entry(Snapshot(), created)
    }

    /** `new Ticket()`: empty id and description, Low, Open, created now. */
    constructor (now: Instant)
      ensures Valid()
      ensures Snapshot() == Fields("", "", "Low", "Open") && created == now
    {
      id, description, priority, status := "", "", "Low", "Open";
      created := now;
    }

    /** The `Id` setter: a blank value is rejected, any other is trimmed. */
    method SetId(value: string) returns (ok: bool)
      requires Valid()
      modifies this`id
      ensures Valid()
      ensures ok <==> !IsBlank(value)
      ensures id == if ok then Trim(value) else old(id)
    {
      ok := !IsBlank(value);
      if ok {
        id := Trim(value);
      }
    }

    /** The `Description` setter: a blank value is rejected, any other is
        trimmed. */
    method SetDescription(value: string) returns (ok: bool)
      requires Valid()
      modifies this`description
      ensures Valid()
      ensures ok <==> !IsBlank(value)
      ensures description == if ok then Trim(value) else old(description)
    {
      ok := !IsBlank(value);
      if ok {
        description := Trim(value);
      }
    }

    /** The `Priority` setter: the trimmed value is accepted exactly when it
        is, case-sensitively, one of the allowed priorities. */
    method SetPriority(value: string) returns (ok: bool)
      requires Valid()
      modifies this`priority
      ensures Valid()
      ensures ok <==> Trim(value) in AllowedPriorities
      ensures priority == if ok then Trim(value) else old(priority)
    {
      var v := Trim(value);
      ok := v in AllowedPriorities;
      if ok {
        priority := v;
      }
    }

    /** The `Status` setter: the trimmed value is accepted exactly when it
        is, case-sensitively, one of the allowed statuses. */
    method SetStatus(value: string) returns (ok: bool)
      requires Valid()
      modifies this`status
      ensures Valid()
      ensures ok <==> Trim(value) in AllowedStatuses
      ensures status == if ok then Trim(value) else old(status)
    {
      var v := Trim(value);
      ok := v in AllowedStatuses;
      if ok {
        status := v;
      }
    }

    /** `new Ticket(id, description, priority, status)`: the default ticket
        passed through the four setters in order; the first rejection is
        the error. */
    static method Create(id: string, description: string, priority: string, status: string,
                         now: Instant)
      returns (r: Result<Ticket, FieldError>)
      ensures r.Err? ==> Validate(id, description, priority, status) == Err(r.error)
      ensures r.Ok? ==> && Validate(id, description, priority, status) == Ok(r.value.Snapshot())
                        && fresh(r.value) && r.value.Valid() && r.value.created == now
    {
      var t := new Ticket(now);
      var ok := t.SetId(id);
      if !ok {
        return Err(BlankId);
      }
      assert t.id == Trim(id) && t.created == now;
      ok := t.SetDescription(description);
      if !ok {
        return Err(BlankDescription);
      }
      assert t.id == Trim(id) && t.description == Trim(description) && t.created == now;
      ok := t.SetPriority(priority);
      if !ok {
        return Err(BadPriority);
      }
      assert t.Snapshot().(status := "") == Fields(Trim(id), Trim(description), Trim(priority), "");
      assert t.created == now;
      ok := t.SetStatus(status);
      if !ok {
        return Err(BadStatus);
      }
      assert t.Snapshot() == Fields(Trim(id), Trim(description), Trim(priority), Trim(status));
      r := Ok(t);
    }

    /** `CloseTicket`: the status becomes Closed whatever it was, so closing
        twice is closing once; nothing else changes. */
    method CloseTicket()
      requires Valid()
      modifies this`status
      ensures Valid() && status == "Closed"
    {
      var ok := SetStatus("Closed");
      assert ok;
    }

    /** `ReopenTicket`: the status becomes Open whatever it was, In Progress
        included; nothing else changes. */
    method ReopenTicket()
      requires Valid()
      modifies this`status
      ensures Valid() && status == "Open"
    {
      var ok := SetStatus("Open");
      assert ok;
    }

    /** `GetSummary`, given how the creation date is rendered. */
    function GetSummary(formatDay: Instant -> string): (s: string)
      reads this
      ensures SummaryId(s) == Some(id) || ']' in id
    {
      SummaryIdRecovers(Snapshot(), formatDay(created));
      Summary(Snapshot(), formatDay(created))
    }
  }
}
