/** The comma-separated row codec of the ticket store: `CsvEscape` quotes a
    field that holds a delimiter, and `CsvParse` splits one line back into
    fields, honouring quotes and doubled-quote escapes. */
module Csv {

  /** A field is quoted when it holds a comma, a quote, LF or CR. */
  predicate NeedsQuotes(s: string)
  {
    ',' in s || '"' in s || '\n' in s || '\r' in s
  }

  /** The number of quote characters in `s`. */
  function QuoteCount(s: string): nat
  {
    if s == [] then 0 else (if s[0] == '"' then 1 else 0) + QuoteCount(s[1..])
  }

  /** `s.Replace("\"", "\"\"")`: every quote doubled, all else kept. */
  function DoubleQuotes(s: string): (r: string)
    ensures |r| == |s| + QuoteCount(s)
  {
    if s == [] then []
    else (if s[0] == '"' then "\"\"" else [s[0]]) + DoubleQuotes(s[1..])
  }

  /** Text without quotes is kept as it is. */
  lemma {:induction false} KeptWithoutQuotes(s: string)
    requires '"' !in s
    ensures DoubleQuotes(s) == s
    decreases |s|
  {
    if s != [] {
      assert s[1..] == s[1..] && '"' !in s[1..] by {
        forall c | c in s[1..] ensures c in s { }
      }
      KeptWithoutQuotes(s[1..]);
      assert [s[0]] + s[1..] == s;
    }
  }

  /** `CsvEscape`: a field without delimiters is written as it is; any other
      field is wrapped in quotes with its own quotes doubled. */
  function Escape(s: string): (r: string)
    ensures r == s <==> !NeedsQuotes(s)
    ensures NeedsQuotes(s) ==> |r| == |s| + QuoteCount(s) + 2 && r[0] == '"' && r[|r| - 1] == '"'
  {
    if NeedsQuotes(s) then "\"" + DoubleQuotes(s) + "\"" else s
  }

  /** `string.Join(",", fields)`. */
  function JoinFields(fields: seq<string>): string
  {
    if |fields| == 0 then ""
    else if |fields| == 1 then fields[0]
    else fields[0] + "," + JoinFields(fields[1..])
  }

  /** `CsvEscape` applied to every field. */
  function EscapeAll(fields: seq<string>): (r: seq<string>)
    ensures |r| == |fields|
    ensures forall i :: 0 <= i < |fields| ==> r[i] == Escape(fields[i])
  {
    seq(|fields|, i requires 0 <= i < |fields| => Escape(fields[i]))
  }

  /** The state `CsvParse` carries between characters: the fields finished so
      far, the field being built (the `StringBuilder`) and whether the scan is
      inside quotes. */
  datatype Scanner = Scanner(fields: seq<string>, current: string, inQuotes: bool)

  /** What `CsvParse` returns when `rest` is what remains of the line and
      `st` the state reached so far. Inside quotes a doubled quote stands for
      one quote and consumes two characters; a lone quote closes the quotes.
      Outside quotes a comma ends the field and a quote opens quotes. At the
      end of the line the field being built is added, even inside quotes. */
  function Scan(rest: string, st: Scanner): (r: seq<string>)
    decreases |rest|
  {
    if rest == [] then st.fields + [st.current]
    else if st.inQuotes then
      if rest[0] == '"' then
        if |rest| > 1 && rest[1] == '"' then Scan(rest[2..], st.(current := st.current + ['"']))
        else Scan(rest[1..], st.(inQuotes := false))
      else Scan(rest[1..], st.(current := st.current + [rest[0]]))
    else if rest[0] == ',' then Scan(rest[1..], Scanner(st.fields + [st.current], "", false))
    else if rest[0] == '"' then Scan(rest[1..], st.(inQuotes := true))
    else Scan(rest[1..], st.(current := st.current + [rest[0]]))
  }

  /** The fields of one line, as `CsvParse` splits it. */
  function ParseFields(line: string): seq<string>
  {
    Scan(line, Scanner([], "", false))
  }

  /** `CsvParse`: the index loop over the line, skipping the second quote of
      a doubled quote. */
  method CsvParse(line: string) returns (result: seq<string>)
    ensures result == ParseFields(line)
    ensures |result| == UnquotedCommas(line, false) + 1
  {
    var fields: seq<string> := [];
    var sb: string := "";
    var inQuotes := false;
    var i := 0;
    while i < |line|
      invariant 0 <= i <= |line|
      invariant Scan(line[i..], Scanner(fields, sb, inQuotes)) == ParseFields(line)
    {
      var c := line[i];
      assert line[i..][1..] == line[i + 1..];
      if inQuotes {
        if c == '"' {
          if i + 1 < |line| && line[i + 1] == '"' {
            assert line[i..][2..] == line[i + 2..];
            sb := sb + ['"'];
            i := i + 1;
          } else {
            inQuotes := false;
          }
        } else {
          sb := sb + [c];
        }
      } else {
        if c == ',' {
          fields := fields + [sb];
          sb := "";
        } else if c == '"' {
          inQuotes := true;
        } else {
          sb := sb + [c];
        }
      }
      i := i + 1;
    }
    result := fields + [sb];
    FieldCount(line, Scanner([], "", false));
  }

  /** The commas of `s` that stand outside quotes, where every quote
      character toggles between outside and inside and `inQuotes` says where
      the scan starts. */
  function UnquotedCommas(s: string, inQuotes: bool): nat
  {
    if s == [] then 0
    else (if s[0] == ',' && !inQuotes then 1 else 0)
         + UnquotedCommas(s[1..], if s[0] == '"' then !inQuotes else inQuotes)
  }

  /** A line has one field more than it has commas outside quotes. */
  lemma {:induction false} FieldCount(rest: string, st: Scanner)
    ensures |Scan(rest, st)| == |st.fields| + UnquotedCommas(rest, st.inQuotes) + 1
    decreases |rest|
  {
    if rest == [] {
    } else if st.inQuotes {
      if rest[0] == '"' {
        if |rest| > 1 && rest[1] == '"' {
          FieldCount(rest[2..], st.(current := st.current + ['"']));
          assert rest[1..][1..] == rest[2..];
        } else {
          FieldCount(rest[1..], st.(inQuotes := false));
        }
      } else {
        FieldCount(rest[1..], st.(current := st.current + [rest[0]]));
      }
    } else if rest[0] == ',' {
      FieldCount(rest[1..], Scanner(st.fields + [st.current], "", false));
    } else if rest[0] == '"' {
      FieldCount(rest[1..], st.(inQuotes := true));
    } else {
      FieldCount(rest[1..], st.(current := st.current + [rest[0]]));
    }
  }

  /** Characters that are neither comma nor quote are copied into the
      current field outside quotes. */
  lemma {:induction false} ScanPlain(s: string, rest: string, st: Scanner)
    requires ',' !in s && '"' !in s && !st.inQuotes
    ensures Scan(s + rest, st) == Scan(rest, st.(current := st.current + s))
    decreases |s|
  {
    if s == [] {
      assert s + rest == rest;
      assert st.current + s == st.current;
    } else {
      assert (s + rest)[1..] == s[1..] + rest;
      ScanPlain(s[1..], rest, st.(current := st.current + [s[0]]));
      assert st.current + [s[0]] + s[1..] == st.current + s;
    }
  }

  /** Inside quotes the doubled-quote form of `s` followed by a closing quote
      is read back as `s`, provided the closing quote is not itself followed
      by a quote. */
  lemma {:induction false} ScanQuoted(s: string, rest: string, st: Scanner)
    requires st.inQuotes
    requires rest == [] || rest[0] != '"'
    ensures Scan(DoubleQuotes(s) + "\"" + rest, st)
            == Scan(rest, st.(current := st.current + s, inQuotes := false))
    decreases |s|
  {
    if s == [] {
      ScanQuotedEnd(rest, st);
    } else {
      var st' := st.(current := st.current + [s[0]]);
      ScanQuotedHead(s, rest, st);
      ScanQuoted(s[1..], rest, st');
      assert st'.current + s[1..] == st.current + s by {
        ConsAppend(st.current, s);
      }
    }
  }

  /** The closing quote ends the quotes. */
  lemma ScanQuotedEnd(rest: string, st: Scanner)
    requires st.inQuotes
    requires rest == [] || rest[0] != '"'
    ensures Scan(DoubleQuotes([]) + "\"" + rest, st)
            == Scan(rest, st.(current := st.current + [], inQuotes := false))
  {
    var w := DoubleQuotes([]) + "\"" + rest;
    assert w == "\"" + rest;
    assert w[1..] == rest;
    assert st.current + [] == st.current;
  }

  /** Inside quotes the first character of `s`, doubled when it is a quote,
      adds that character to the field being built. */
  lemma ScanQuotedHead(s: string, rest: string, st: Scanner)
    requires st.inQuotes && s != []
    ensures Scan(DoubleQuotes(s) + "\"" + rest, st)
            == Scan(DoubleQuotes(s[1..]) + "\"" + rest, st.(current := st.current + [s[0]]))
  {
    var w := DoubleQuotes(s) + "\"" + rest;
    var v := DoubleQuotes(s[1..]) + "\"" + rest;
    if s[0] == '"' {
      assert w == "\"\"" + v;
      assert w[0] == '"' && w[1] == '"' && w[2..] == v;
    } else {
      assert w == [s[0]] + v;
      assert w[0] == s[0] && w[1..] == v;
    }
  }

  /** Moving the first character of `s` onto `a`. */
  lemma ConsAppend<T>(a: seq<T>, s: seq<T>)
    requires s != []
    ensures a + [s[0]] + s[1..] == a + s
  {
  }

  /** An escaped field, followed by the end of the line or a comma, is read
      back as exactly the original field. */
  lemma ScanEscaped(f: string, rest: string, done: seq<string>)
    requires rest == [] || rest[0] == ','
    ensures Scan(Escape(f) + rest, Scanner(done, "", false)) == Scan(rest, Scanner(done, f, false))
  {
    var st := Scanner(done, "", false);
    if NeedsQuotes(f) {
      var body := DoubleQuotes(f) + "\"" + rest;
      var w := "\"" + body;
      assert Escape(f) + rest == w;
      assert w[0] == '"' && w[1..] == body;
      assert Scan(w, st) == Scan(body, st.(inQuotes := true));
      ScanQuoted(f, rest, st.(inQuotes := true));
      assert "" + f == f;
    } else {
      ScanPlain(f, rest, st);
      assert "" + f == f;
    }
  }

  /** Parsing the comma-join of escaped fields, after the fields `done`
      already finished, yields `done` followed by those fields. */
  lemma {:induction false} ScanJoined(fields: seq<string>, done: seq<string>)
    requires |fields| >= 1
    ensures Scan(JoinFields(EscapeAll(fields)), Scanner(done, "", false)) == done + fields
    decreases |fields|
  {
    if |fields| == 1 {
      ScanJoinedOne(fields, done);
    } else {
      ScanJoined(fields[1..], done + [fields[0]]);
      ScanJoinedStep(fields, done);
    }
  }

  /** One escaped field parses back as itself. */
  lemma ScanJoinedOne(fields: seq<string>, done: seq<string>)
    requires |fields| == 1
    ensures Scan(JoinFields(EscapeAll(fields)), Scanner(done, "", false)) == done + fields
  {
    assert JoinFields(EscapeAll(fields)) == Escape(fields[0]) + "";
    ScanEscaped(fields[0], "", done);
    assert done + [fields[0]] == done + fields;
  }

  /** The first escaped field and its comma parse as the first field, the
      rest of the join then continuing after it. */
  lemma ScanJoinedStep(fields: seq<string>, done: seq<string>)
    requires |fields| >= 2
    requires Scan(JoinFields(EscapeAll(fields[1..])), Scanner(done + [fields[0]], "", false))
             == done + [fields[0]] + fields[1..]
    ensures Scan(JoinFields(EscapeAll(fields)), Scanner(done, "", false)) == done + fields
  {
    assert done + [fields[0]] + fields[1..] == done + fields;
    var tail := JoinFields(EscapeAll(fields[1..]));
    JoinedHead(fields);
    ScanEscaped(fields[0], "," + tail, done);
    ScanComma(tail, done, fields[0]);
  }

  /** The join of two or more escaped fields is the first escaped field, a
      comma and the join of the others. */
  lemma JoinedHead(fields: seq<string>)
    requires |fields| >= 2
    ensures JoinFields(EscapeAll(fields)) == Escape(fields[0]) + ("," + JoinFields(EscapeAll(fields[1..])))
  {
    var e := EscapeAll(fields);
    assert EscapeAll(fields[1..]) == e[1..];
  }

  /** A comma outside quotes finishes the field being built. */
  lemma ScanComma(tail: string, done: seq<string>, f: string)
    ensures Scan("," + tail, Scanner(done, f, false)) == Scan(tail, Scanner(done + [f], "", false))
  {
    assert ("," + tail)[0] == ',' && ("," + tail)[1..] == tail;
  }

  /** The codec round-trips: parsing the comma-join of the escaped fields of
      any non-empty field sequence returns exactly that sequence, whatever
      commas, quotes or line breaks the fields hold. */
  lemma ParseJoinEscaped(fields: seq<string>)
    requires |fields| >= 1
    ensures ParseFields(JoinFields(EscapeAll(fields))) == fields
  {
    ScanJoined(fields, []);
  }

  /** Inside quotes, text without quotes runs to the end of the line. */
  lemma {:induction false} ScanUnterminated(s: string, st: Scanner)
    requires '"' !in s && st.inQuotes
    ensures Scan(s, st) == st.fields + [st.current + s]
    decreases |s|
  {
    if s == [] {
      assert st.current + s == st.current;
    } else {
      ScanUnterminated(s[1..], st.(current := st.current + [s[0]]));
      assert st.current + [s[0]] + s[1..] == st.current + s;
    }
  }

  /** An unterminated quote is tolerated: it is taken as closing at the end
      of the line, so the rest of the line, commas included, is one field. */
  lemma UnterminatedQuote(s: string)
    requires '"' !in s
    ensures ParseFields("\"" + s) == [s]
  {
    var w := "\"" + s;
    assert w[1..] == s;
    ScanUnterminated(s, Scanner([], "", true));
    assert "" + s == s;
  }
}
