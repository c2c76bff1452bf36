/**
 * The CSV reader of the bulk-upload page: a quote-aware splitter for one line
 * and the table builder that turns the non-blank lines of a file into
 * header-keyed row maps, recording a message for every row whose column count
 * differs from the header's.
 */
module Csv {
  import opened JsString

  /** A parsed row: trimmed header name to trimmed field. */
  type Row = map<string, string>

  datatype ParseResult = ParseResult(rows: seq<Row>, errors: seq<string>)

  // ---------------------------------------------------------------------------
  // One line
  // ---------------------------------------------------------------------------

  /**
   * The fields of the rest `s` of a line, when the scanner is in quote state
   * `inQuotes` and has collected `cur` for the current field. A `"` followed by
   * a second `"` inside quotes stands for one literal quote; any other `"`
   * toggles the quote state; a `,` outside quotes ends a field.
   */
  function Fields(s: string, inQuotes: bool, cur: string): (r: seq<string>)
    ensures |r| >= 1
    decreases |s|
  {
    if s == [] then [cur]
    else if s[0] == '"' then
      if inQuotes && |s| > 1 && s[1] == '"' then Fields(s[2..], true, cur + ['"'])
      else Fields(s[1..], !inQuotes, cur)
    else if s[0] == ',' && !inQuotes then [cur] + Fields(s[1..], false, "")
    else Fields(s[1..], inQuotes, cur + [s[0]])
  }

  /** The fields of a whole line: scanning starts outside quotes with an empty field. */
  function LineFields(line: string): seq<string>
  {
    Fields(line, false, "")
  }

  /** `parseCSVLine`: one pass over the line with a field buffer and a quote flag. */
  method ParseLine(line: string) returns (result: seq<string>)
    ensures result == LineFields(line)
    ensures |result| >= 1
  {
    result := [];
    var current := "";
    var inQuotes := false;
    var i := 0;
    while i < |line|
      invariant 0 <= i <= |line|
      invariant result + Fields(line[i..], inQuotes, current) == LineFields(line)
    {
      var c := line[i];
      assert line[i..][0] == c;
      if c == '"' {
        if inQuotes && i + 1 < |line| && line[i + 1] == '"' {
          assert line[i..][1] == line[i + 1] && line[i..][2..] == line[i + 2..];
          current := current + ['"'];
          i := i + 1;
        } else {
          assert line[i..][1..] == line[i + 1..];
          inQuotes := !inQuotes;
        }
      } else if c == ',' && !inQuotes {
        assert line[i..][1..] == line[i + 1..];
        result := result + [current];
        current := "";
      } else {
        assert line[i..][1..] == line[i + 1..];
        current := current + [c];
      }
      i := i + 1;
    }
    result := result + [current];
  }

  /** The number of commas in `s` met outside quotes, following the same quote state as `Fields`. */
  function SeparatorCount(s: string, inQuotes: bool): nat
    decreases |s|
  {
    if s == [] then 0
    else if s[0] == '"' then
      if inQuotes && |s| > 1 && s[1] == '"' then SeparatorCount(s[2..], true)
      else SeparatorCount(s[1..], !inQuotes)
    else if s[0] == ',' && !inQuotes then 1 + SeparatorCount(s[1..], false)
    else SeparatorCount(s[1..], inQuotes)
  }

  /** A line has one field more than it has separators. */
  lemma {:induction false} FieldCount(s: string, inQuotes: bool, cur: string)
    ensures |Fields(s, inQuotes, cur)| == SeparatorCount(s, inQuotes) + 1
    decreases |s|
  {
    if s == [] {
    } else if s[0] == '"' {
      if inQuotes && |s| > 1 && s[1] == '"' {
        FieldCount(s[2..], true, cur + ['"']);
      } else {
        FieldCount(s[1..], !inQuotes, cur);
      }
    } else if s[0] == ',' && !inQuotes {
      FieldCount(s[1..], false, "");
    } else {
      FieldCount(s[1..], inQuotes, cur + [s[0]]);
    }
  }

  /** A field with neither a quote nor a comma. */
  predicate IsPlain(field: string)
  {
    '"' !in field && ',' !in field
  }

  lemma {:induction false} FieldsPlain(piece: string, rest: string, cur: string)
    requires IsPlain(piece)
    ensures Fields(piece + rest, false, cur) == Fields(rest, false, cur + piece)
    decreases |piece|
  {
    if piece != [] {
      assert (piece + rest)[0] == piece[0];
      assert (piece + rest)[1..] == piece[1..] + rest;
      assert cur + piece == (cur + [piece[0]]) + piece[1..];
      FieldsPlain(piece[1..], rest, cur + [piece[0]]);
    } else {
      assert piece + rest == rest;
      assert cur + piece == cur;
    }
  }

  /** Fields free of quotes and commas survive `join(',')` followed by the scanner. */
  lemma {:induction false} PlainRoundTrip(fields: seq<string>)
    requires |fields| >= 1
    requires forall k | 0 <= k < |fields| :: IsPlain(fields[k])
    ensures LineFields(Join(fields, ",")) == fields
    decreases |fields|
  {
    if |fields| == 1 {
      FieldsPlain(fields[0], "", "");
      assert fields[0] + "" == fields[0];
      assert "" + fields[0] == fields[0];
    } else {
      var tail := Join(fields[1..], ",");
      assert Join(fields, ",") == fields[0] + ("," + tail);
      FieldsPlain(fields[0], "," + tail, "");
      assert "" + fields[0] == fields[0];
      assert ("," + tail)[0] == ',' && ("," + tail)[1..] == tail;
      PlainRoundTrip(fields[1..]);
      assert fields == [fields[0]] + fields[1..];
    }
  }

  /** Standard CSV escaping inside quotes: every `"` is written twice. */
  function Escape(v: string): (r: string)
    ensures |r| >= |v|
  {
    if v == [] then "" else (if v[0] == '"' then "\"\"" else [v[0]]) + Escape(v[1..])
  }

  /** A field written as a quoted CSV field. */
  function Quote(v: string): string
  {
    "\"" + Escape(v) + "\""
  }

  /**
   * Inside quotes the scanner reads an escaped value up to its closing quote:
   * each doubled quote yields one literal quote, commas are kept, and the closing
   * quote only leaves the quoted state.
   */
  lemma {:induction false} FieldsQuoted(v: string, rest: string, cur: string)
    requires rest == [] || rest[0] != '"'
    ensures Fields(Escape(v) + "\"" + rest, true, cur) == Fields(rest, false, cur + v)
    decreases |v|
  {
    var s := Escape(v) + "\"" + rest;
    if v == [] {
      assert s == "\"" + rest;
      assert s[1..] == rest;
      assert cur + v == cur;
    } else if v[0] == '"' {
      assert s == "\"\"" + (Escape(v[1..]) + "\"" + rest);
      assert s[2..] == Escape(v[1..]) + "\"" + rest;
      FieldsQuoted(v[1..], rest, cur + ['"']);
      assert cur + v == (cur + ['"']) + v[1..];
    } else {
      assert s == [v[0]] + (Escape(v[1..]) + "\"" + rest);
      assert s[1..] == Escape(v[1..]) + "\"" + rest;
      FieldsQuoted(v[1..], rest, cur + [v[0]]);
      assert cur + v == (cur + [v[0]]) + v[1..];
    }
  }

  /** Every field list survives quoting each field, joining with commas and scanning. */
  lemma {:induction false} QuotedRoundTrip(fields: seq<string>)
    requires |fields| >= 1
    ensures LineFields(Join(seq(|fields|, k requires 0 <= k < |fields| => Quote(fields[k])), ",")) == fields
    decreases |fields|
  {
    var quoted := seq(|fields|, k requires 0 <= k < |fields| => Quote(fields[k]));
    var v := fields[0];
    if |fields| == 1 {
      assert Join(quoted, ",") == "\"" + (Escape(v) + "\"" + "");
      FieldsQuoted(v, "", "");
      assert "" + v == v;
    } else {
      var tailQuoted := seq(|fields| - 1, k requires 0 <= k < |fields| - 1 => Quote(fields[1..][k]));
      assert quoted[1..] == tailQuoted;
      var tail := Join(tailQuoted, ",");
      assert Join(quoted, ",") == "\"" + (Escape(v) + "\"" + ("," + tail));
      FieldsQuoted(v, "," + tail, "");
      assert "" + v == v;
      assert ("," + tail)[0] == ',' && ("," + tail)[1..] == tail;
      QuotedRoundTrip(fields[1..]);
      assert fields == [fields[0]] + fields[1..];
    }
  }

  /** The number of occurrences of `c` in `s`. */
  function Occurrences(s: string, c: char): nat
  {
    if s == [] then 0 else (if s[0] == c then 1 else 0) + Occurrences(s[1..], c)
  }

  /** The number of occurrences of `c` across all the strings of `parts`. */
  function OccurrencesIn(parts: seq<string>, c: char): nat
  {
    if parts == [] then 0 else Occurrences(parts[0], c) + OccurrencesIn(parts[1..], c)
  }

  lemma {:induction false} OccurrencesAppend(a: string, b: string, c: char)
    ensures Occurrences(a + b, c) == Occurrences(a, c) + Occurrences(b, c)
    decreases |a|
  {
    if a == [] {
      assert a + b == b;
    } else {
      assert (a + b)[1..] == a[1..] + b;
      OccurrencesAppend(a[1..], b, c);
    }
  }

  /**
   * A quote reaches a field only through a doubled quote: the output holds at
   * most half as many quotes as the input (plus those already collected).
   */
  lemma {:induction false} QuotesHalved(s: string, inQuotes: bool, cur: string)
    ensures 2 * OccurrencesIn(Fields(s, inQuotes, cur), '"') <= Occurrences(s, '"') + 2 * Occurrences(cur, '"')
    decreases |s|
  {
    if s == [] {
      assert Fields(s, inQuotes, cur) == [cur];
    } else if s[0] == '"' {
      if inQuotes && |s| > 1 && s[1] == '"' {
        QuotesHalved(s[2..], true, cur + ['"']);
        OccurrencesAppend(cur, ['"'], '"');
        assert Occurrences(s, '"') == 2 + Occurrences(s[2..], '"') by {
          assert s[1..][0] == '"' && s[1..][1..] == s[2..];
        }
      } else {
        QuotesHalved(s[1..], !inQuotes, cur);
      }
    } else if s[0] == ',' && !inQuotes {
      QuotesHalved(s[1..], false, "");
      var r := Fields(s, inQuotes, cur);
      assert r == [cur] + Fields(s[1..], false, "");
      assert r[1..] == Fields(s[1..], false, "");
    } else {
      QuotesHalved(s[1..], inQuotes, cur + [s[0]]);
      OccurrencesAppend(cur, [s[0]], '"');
    }
  }

  // ---------------------------------------------------------------------------
  // The table
  // ---------------------------------------------------------------------------

  /** The lines kept by `content.split('\n').filter((line) => line.trim())`, in order. */
  function NonBlankLines(lines: seq<string>): (r: seq<string>)
    ensures |r| <= |lines|
    ensures forall k | 0 <= k < |r| :: !IsBlank(r[k])
  {
    if lines == [] then []
    else if IsBlank(lines[0]) then NonBlankLines(lines[1..])
    else [lines[0]] + NonBlankLines(lines[1..])
  }

  /** The non-blank lines of a file. */
  function ContentLines(content: string): seq<string>
  {
    NonBlankLines(Split(content, '\n'))
  }

  /** The header names, each trimmed, in order. */
  function TrimmedNames(headers: seq<string>): (names: seq<string>)
    ensures |names| == |headers|
    ensures forall k | 0 <= k < |headers| :: names[k] == Trim(headers[k])
  {
    seq(|headers|, k requires 0 <= k < |headers| => Trim(headers[k]))
  }

  /**
   * The one key a plain object literal does not store: assigning a string to
   * `__proto__` reaches the `Object.prototype` setter, which ignores it.
   */
  const ProtoKey: string := "__proto__"

  /** `row[key] = value` on a plain object, `value` being a string. */
  function SetProperty(row: Row, key: string, value: string): (r: Row)
    ensures key != ProtoKey ==> r == row[key := value]
    ensures key == ProtoKey ==> r == row
  {
    if key == ProtoKey then row else row[key := value]
  }

  /** The keys a row built from these headers stores: their trimmed names, except `__proto__`. */
  function HeaderKeys(headers: seq<string>): set<string>
  {
    set name | name in TrimmedNames(headers) && name != ProtoKey
  }

  /** The map built by setting `keys[k]` to `vals[k]` for each k in turn, a later key overwriting an earlier one. */
  function Assign(keys: seq<string>, vals: seq<string>): Row
    requires |keys| == |vals|
    decreases |keys|
  {
    if keys == [] then map[]
    else
      var n := |keys| - 1;
      SetProperty(Assign(keys[..n], vals[..n]), keys[n], vals[n])
  }

  /** Assigning one more pair of a list extends the map by that pair. */
  lemma AssignPrefix(keys: seq<string>, vals: seq<string>, i: nat)
    requires |keys| == |vals| && i < |keys|
    ensures Assign(keys[..i + 1], vals[..i + 1]) == SetProperty(Assign(keys[..i], vals[..i]), keys[i], vals[i])
  {
    assert keys[..i + 1][..i] == keys[..i];
    assert vals[..i + 1][..i] == vals[..i];
  }

  /** The keys stored are exactly the keys listed, `__proto__` excepted. */
  lemma {:induction false} AssignKeys(keys: seq<string>, vals: seq<string>)
    requires |keys| == |vals|
    ensures Assign(keys, vals).Keys == set key | key in keys && key != ProtoKey
    decreases |keys|
  {
    if keys != [] {
      var n := |keys| - 1;
      AssignKeys(keys[..n], vals[..n]);
      assert keys == keys[..n] + [keys[n]];
    }
  }

  /** A key other than `__proto__` listed at `j` and not after it is left with the value at `j`. */
  lemma {:induction false} AssignValue(keys: seq<string>, vals: seq<string>, j: nat)
    requires |keys| == |vals| && j < |keys| && keys[j] != ProtoKey
    requires forall k | j < k < |keys| :: keys[k] != keys[j]
    ensures keys[j] in Assign(keys, vals) && Assign(keys, vals)[keys[j]] == vals[j]
    decreases |keys|
  {
    var n := |keys| - 1;
    if j < n {
      var init := keys[..n];
      assert init[j] == keys[j];
      assert forall k | j < k < n :: init[k] == keys[k];
      AssignValue(init, vals[..n], j);
    }
  }

  /**
   * The row built by `headers.forEach((header, index) => row[header.trim()] = values[index].trim())`,
   * header by header, a later header overwriting an earlier one with the same trimmed name.
   */
  function RowOf(headers: seq<string>, values: seq<string>): Row
    requires |headers| == |values|
  {
    Assign(TrimmedNames(headers), TrimmedNames(values))
  }

  /** A row has exactly the trimmed header names as keys, except `__proto__`, which it never stores. */
  lemma RowOfKeys(headers: seq<string>, values: seq<string>)
    requires |headers| == |values|
    ensures RowOf(headers, values).Keys == HeaderKeys(headers)
    ensures ProtoKey !in RowOf(headers, values)
  {
    AssignKeys(TrimmedNames(headers), TrimmedNames(values));
  }

  /** The header at `j` that is the last one with its trimmed name gives its key the trimmed value at `j`. */
  lemma RowOfValue(headers: seq<string>, values: seq<string>, j: nat)
    requires |headers| == |values| && j < |headers| && Trim(headers[j]) != ProtoKey
    requires forall k | j < k < |headers| :: Trim(headers[k]) != Trim(headers[j])
    ensures Trim(headers[j]) in RowOf(headers, values)
    ensures RowOf(headers, values)[Trim(headers[j])] == Trim(values[j])
  {
    AssignValue(TrimmedNames(headers), TrimmedNames(values), j);
  }

  /** The message recorded for a data line at index `i` among the non-blank lines. */
  function MismatchMessage(i: nat): string
  {
    "Row " + NatToString(i + 1) + ": Column count mismatch"
  }

  /** What one data line contributes. `Skipped` is the `values.length === 0` case. */
  datatype LineOutcome = Accepted(row: Row) | Mismatch(message: string) | Skipped

  /** The outcome of the data line `line` at index `i` among the non-blank lines. */
  function Outcome(headers: seq<string>, line: string, i: nat): LineOutcome
  {
    var values := LineFields(line);
    if |values| == 0 then Skipped
    else if |values| != |headers| then Mismatch(MismatchMessage(i))
    else Accepted(RowOf(headers, values))
  }

  /** The rows of the accepted outcomes, in order. */
  function AcceptedRows(outcomes: seq<LineOutcome>): seq<Row>
  {
    if outcomes == [] then []
    else
      var n := |outcomes| - 1;
      AcceptedRows(outcomes[..n]) + (if outcomes[n].Accepted? then [outcomes[n].row] else [])
  }

  /** The messages of the mismatched outcomes, in order. */
  function MismatchMessages(outcomes: seq<LineOutcome>): seq<string>
  {
    if outcomes == [] then []
    else
      var n := |outcomes| - 1;
      MismatchMessages(outcomes[..n]) + (if outcomes[n].Mismatch? then [outcomes[n].message] else [])
  }

  /** The outcomes of the data lines `lines[1..]`, in order. */
  function Outcomes(headers: seq<string>, lines: seq<string>): (r: seq<LineOutcome>)
    requires |lines| >= 1
    ensures |r| == |lines| - 1
  {
    seq(|lines| - 1, k requires 0 <= k < |lines| - 1 => Outcome(headers, lines[k + 1], k + 1))
  }

  /** `parseCsv` on a file whose non-blank lines are `lines`. */
  function ParsedLines(lines: seq<string>): ParseResult
  {
    if |lines| == 0 then ParseResult([], ["CSV file is empty"])
    else
      var headers := LineFields(lines[0]);
      if |headers| == 0 then ParseResult([], ["CSV headers are missing"])
      else
        var outcomes := Outcomes(headers, lines);
        ParseResult(AcceptedRows(outcomes), MismatchMessages(outcomes))
  }

  /** One more outcome adds at most its row or its message at the end. */
  lemma OutcomesStep(outcomes: seq<LineOutcome>, i: nat)
    requires 1 <= i <= |outcomes|
    ensures AcceptedRows(outcomes[..i]) ==
      AcceptedRows(outcomes[..i - 1]) + (if outcomes[i - 1].Accepted? then [outcomes[i - 1].row] else [])
    ensures MismatchMessages(outcomes[..i]) ==
      MismatchMessages(outcomes[..i - 1]) + (if outcomes[i - 1].Mismatch? then [outcomes[i - 1].message] else [])
  {
    assert outcomes[..i][..i - 1] == outcomes[..i - 1];
  }

  /** `parseCsv` as a function of the file content (the specification of the method below). */
  function Parsed(content: string): ParseResult
  {
    ParsedLines(ContentLines(content))
  }

  /** The row map of one accepted line, filled header by header. */
  method BuildRow(headers: seq<string>, values: seq<string>) returns (row: Row)
    requires |headers| == |values|
    ensures row == RowOf(headers, values)
  {
    ghost var keys, vals := TrimmedNames(headers), TrimmedNames(values);
    row := map[];
    for index := 0 to |headers|
      invariant row == Assign(keys[..index], vals[..index])
    {
      AssignPrefix(keys, vals, index);
      row := SetProperty(row, Trim(headers[index]), Trim(values[index]));
    }
    assert keys[..|keys|] == keys && vals[..|vals|] == vals;
  }

  /** `parseCsv`: the header line, then one loop over the data lines. */
  method ParseCsv(content: string) returns (result: ParseResult)
    ensures result == Parsed(content)
  {
    var lines := ContentLines(content);
    if |lines| == 0 {
      return ParseResult([], ["CSV file is empty"]);
    }
    var headers := ParseLine(lines[0]);
    ghost var outcomes := Outcomes(headers, lines);
    var rows: seq<Row> := [];
    var errors: seq<string> := [];
    var i := 1;
    while i < |lines|
      invariant 1 <= i <= |lines|
      invariant rows == AcceptedRows(outcomes[..i - 1])
      invariant errors == MismatchMessages(outcomes[..i - 1])
    {
      var values := ParseLine(lines[i]);
      OutcomesStep(outcomes, i);
      assert outcomes[i - 1] == Outcome(headers, lines[i], i);
      if |values| != |headers| {
        errors := errors + [MismatchMessage(i)];
      } else {
        var row := BuildRow(headers, values);
        rows := rows + [row];
      }
      i := i + 1;
    }
    assert outcomes[..|lines| - 1] == outcomes;
    result := ParseResult(rows, errors);
  }
}

/** Properties of the CSV reader. */
module CsvProperties {
  import opened JsString
  import opened Csv

  lemma {:induction false} AcceptedRowsMembers(os: seq<LineOutcome>)
    ensures forall r :: r in AcceptedRows(os) <==> Accepted(r) in os
    decreases |os|
  {
    if os != [] {
      var n := |os| - 1;
      AcceptedRowsMembers(os[..n]);
      assert os == os[..n] + [os[n]];
    }
  }

  lemma {:induction false} MismatchMessagesMembers(os: seq<LineOutcome>)
    ensures forall m :: m in MismatchMessages(os) <==> Mismatch(m) in os
    decreases |os|
  {
    if os != [] {
      var n := |os| - 1;
      MismatchMessagesMembers(os[..n]);
      assert os == os[..n] + [os[n]];
    }
  }

  lemma {:induction false} PartitionCount(os: seq<LineOutcome>)
    requires Skipped !in os
    ensures |AcceptedRows(os)| + |MismatchMessages(os)| == |os|
    decreases |os|
  {
    if os != [] {
      var n := |os| - 1;
      assert os[n] in os;
      assert forall k | 0 <= k < n :: os[..n][k] == os[k];
      PartitionCount(os[..n]);
    }
  }

  /** `parseCSVLine` never returns an empty list, so no data line is skipped. */
  lemma NoLineSkipped(headers: seq<string>, lines: seq<string>)
    requires |lines| >= 1
    ensures Skipped !in Outcomes(headers, lines)
  {
    forall k | 0 <= k < |lines| - 1
      ensures Outcomes(headers, lines)[k] != Skipped
    {
      assert |LineFields(lines[k + 1])| >= 1;
    }
  }

  /** A mismatch message starts with "Row ". */
  lemma MismatchMessagePrefix(i: nat)
    ensures |MismatchMessage(i)| > 4 && MismatchMessage(i)[..4] == "Row "
  {
    var prefix := "Row ";
    assert MismatchMessage(i) == prefix + (NatToString(i + 1) + ": Column count mismatch");
  }

  /** Once a header line exists, every error is a row-numbered mismatch message. */
  lemma ErrorsNameRows(lines: seq<string>)
    requires |lines| >= 1
    ensures forall e | e in ParsedLines(lines).errors :: |e| > 4 && e[..4] == "Row "
  {
    ErrorsFromDataLines(lines);
    forall e | e in ParsedLines(lines).errors
      ensures |e| > 4 && e[..4] == "Row "
    {
      var i :| 1 <= i < |lines| && e == MismatchMessage(i);
      MismatchMessagePrefix(i);
    }
  }

  /** The header line always yields at least one header, so the "headers are missing" result never occurs. */
  lemma HeadersNeverMissing(lines: seq<string>)
    ensures "CSV headers are missing" !in ParsedLines(lines).errors
  {
    var errors := ParsedLines(lines).errors;
    var missing := "CSV headers are missing";
    assert missing[0] == 'C' && missing[4] == 'h';
    if |lines| >= 1 {
      ErrorsNameRows(lines);
      forall e | e in errors
        ensures e != missing
      {
        assert e[..4][0] == 'R';
      }
    } else {
      var empty := "CSV file is empty";
      assert errors == [empty];
      assert empty[4] == 'f';
    }
  }

  /** Every data line is accounted for exactly once: as a row or as an error. */
  lemma RowsPlusErrors(lines: seq<string>)
    requires |lines| >= 1
    ensures |ParsedLines(lines).rows| + |ParsedLines(lines).errors| == |lines| - 1
  {
    NoLineSkipped(LineFields(lines[0]), lines);
    PartitionCount(Outcomes(LineFields(lines[0]), lines));
  }

  /**
   * A data line (index `i` among the non-blank lines, the header being 0) yields
   * its row when its field count matches the header's, and otherwise the message
   * `Row {i + 1}: Column count mismatch`.
   */
  lemma DataLineContributes(lines: seq<string>, i: nat)
    requires 1 <= i < |lines|
    ensures var headers := LineFields(lines[0]);
            var values := LineFields(lines[i]);
            (|values| == |headers| ==> RowOf(headers, values) in ParsedLines(lines).rows)
            && (|values| != |headers| ==> MismatchMessage(i) in ParsedLines(lines).errors)
  {
    var headers := LineFields(lines[0]);
    var values := LineFields(lines[i]);
    var os := Outcomes(headers, lines);
    assert os[i - 1] == Outcome(headers, lines[i], i);
    assert os[i - 1] in os;
    if |values| == |headers| {
      AcceptedRowsMembers(os);
    } else {
      MismatchMessagesMembers(os);
    }
  }

  /**
   * Rows and messages keep the order of the lines: one more data line at the end of
   * the file adds its row, or its message, at the end of the result and changes
   * nothing before it.
   */
  lemma LastLineComesLast(lines: seq<string>, line: string)
    requires |lines| >= 1
    ensures var headers := LineFields(lines[0]);
            var values := LineFields(line);
            var before := ParsedLines(lines);
            (|values| == |headers| ==>
              ParsedLines(lines + [line]) == ParseResult(before.rows + [RowOf(headers, values)], before.errors))
            && (|values| != |headers| ==>
              ParsedLines(lines + [line]) == ParseResult(before.rows, before.errors + [MismatchMessage(|lines|)]))
  {
    var all := lines + [line];
    assert all[0] == lines[0];
    var headers := LineFields(lines[0]);
    var os := Outcomes(headers, all);
    assert os[..|os| - 1] == Outcomes(headers, lines);
    assert os[|os| - 1] == Outcome(headers, line, |lines|);
  }

  /** Conversely, every row comes from a data line with as many fields as the header. */
  lemma RowsFromDataLines(lines: seq<string>)
    requires |lines| >= 1
    ensures var headers := LineFields(lines[0]);
            forall r | r in ParsedLines(lines).rows ::
              exists i | 1 <= i < |lines| :: |LineFields(lines[i])| == |headers| && r == RowOf(headers, LineFields(lines[i]))
  {
    var headers := LineFields(lines[0]);
    var os := Outcomes(headers, lines);
    AcceptedRowsMembers(os);
    forall r | r in ParsedLines(lines).rows
      ensures exists i | 1 <= i < |lines| :: |LineFields(lines[i])| == |headers| && r == RowOf(headers, LineFields(lines[i]))
    {
      var k :| 0 <= k < |os| && os[k] == Accepted(r);
      assert 1 <= k + 1 < |lines|;
    }
  }

  /** And every error comes from a data line whose field count differs from the header's. */
  lemma ErrorsFromDataLines(lines: seq<string>)
    requires |lines| >= 1
    ensures var headers := LineFields(lines[0]);
            forall e | e in ParsedLines(lines).errors ::
              exists i | 1 <= i < |lines| :: |LineFields(lines[i])| != |headers| && e == MismatchMessage(i)
  {
    var headers := LineFields(lines[0]);
    var os := Outcomes(headers, lines);
    MismatchMessagesMembers(os);
    forall e | e in ParsedLines(lines).errors
      ensures exists i | 1 <= i < |lines| :: |LineFields(lines[i])| != |headers| && e == MismatchMessage(i)
    {
      var k :| 0 <= k < |os| && os[k] == Mismatch(e);
      MismatchOutcomeLine(headers, lines, k, e);
    }
  }

  lemma MismatchOutcomeLine(headers: seq<string>, lines: seq<string>, k: nat, e: string)
    requires k + 1 < |lines| && Outcomes(headers, lines)[k] == Mismatch(e)
    ensures |LineFields(lines[k + 1])| != |headers| && e == MismatchMessage(k + 1)
  {
    assert Outcomes(headers, lines)[k] == Outcome(headers, lines[k + 1], k + 1);
  }

  /** Every row has exactly the trimmed header names as its keys. */
  lemma RowsHaveHeaderKeys(lines: seq<string>)
    requires |lines| >= 1
    ensures forall r | r in ParsedLines(lines).rows :: r.Keys == HeaderKeys(LineFields(lines[0]))
  {
    var headers := LineFields(lines[0]);
    RowsFromDataLines(lines);
    forall r | r in ParsedLines(lines).rows
      ensures r.Keys == HeaderKeys(headers)
    {
      var i :| 1 <= i < |lines| && |LineFields(lines[i])| == |headers| && r == RowOf(headers, LineFields(lines[i]));
      RowOfKeys(headers, LineFields(lines[i]));
    }
  }

  /** The row number in a mismatch message names exactly one line. */
  lemma MismatchMessageNamesOneLine(i: nat, j: nat)
    requires MismatchMessage(i) == MismatchMessage(j)
    ensures i == j
  {
    SameFrame("Row ", NatToString(i + 1), NatToString(j + 1), ": Column count mismatch");
    DecimalRoundTrip(i + 1);
    DecimalRoundTrip(j + 1);
  }

  /** Two strings that read the same between the same prefix and suffix are equal. */
  lemma SameFrame(prefix: string, a: string, b: string, suffix: string)
    requires prefix + a + suffix == prefix + b + suffix
    ensures a == b
  {
    var m := prefix + a + suffix;
    assert |a| == |b|;
    assert a == m[|prefix|..|prefix| + |a|];
  }

  lemma {:induction false} NonBlankLinesEmpty(lines: seq<string>)
    ensures NonBlankLines(lines) == [] <==> forall k | 0 <= k < |lines| :: IsBlank(lines[k])
    decreases |lines|
  {
    if lines != [] {
      NonBlankLinesEmpty(lines[1..]);
      assert forall k | 1 <= k < |lines| :: lines[1..][k - 1] == lines[k];
    }
  }

  /** Joining with a white-space separator gives a blank string exactly when every part is blank. */
  lemma {:induction false} JoinBlank(parts: seq<string>, sep: string)
    requires IsBlank(sep)
    ensures IsBlank(Join(parts, sep)) <==> forall k | 0 <= k < |parts| :: IsBlank(parts[k])
    decreases |parts|
  {
    if |parts| > 1 {
      JoinBlank(parts[1..], sep);
      var tail := Join(parts[1..], sep);
      var j := Join(parts, sep);
      assert j == parts[0] + sep + tail;
      assert forall i | 0 <= i < |parts[0]| :: j[i] == parts[0][i];
      assert forall i | 0 <= i < |tail| :: j[|parts[0]| + |sep| + i] == tail[i];
      assert forall k | 1 <= k < |parts| :: parts[1..][k - 1] == parts[k];
    }
  }

  /**
   * The file is reported empty, with no rows, exactly when it holds no
   * non-white-space character.
   */
  lemma EmptyExactlyWhenBlank(content: string)
    ensures Parsed(content) == ParseResult([], ["CSV file is empty"]) <==> IsBlank(content)
  {
    BlankExactlyWhenNoLines(content);
    if |ContentLines(content)| >= 1 {
      NotReportedEmpty(ContentLines(content));
    }
  }

  lemma NotReportedEmpty(lines: seq<string>)
    requires |lines| >= 1
    ensures "CSV file is empty" !in ParsedLines(lines).errors
  {
    ErrorsNameRows(lines);
    var empty := "CSV file is empty";
    assert empty[0] == 'C';
    forall e | e in ParsedLines(lines).errors
      ensures e != empty
    {
      assert e[..4][0] == 'R';
    }
  }

  /** A file has no non-blank line exactly when it is all white space. */
  lemma BlankExactlyWhenNoLines(content: string)
    ensures IsBlank(content) <==> ContentLines(content) == []
  {
    var pieces := Split(content, '\n');
    assert IsSpace('\n');
    JoinBlank(pieces, ['\n']);
    NonBlankLinesEmpty(pieces);
  }
}
