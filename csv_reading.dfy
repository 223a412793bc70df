/** The analyzer's CSV reader (`DesktopCsvAnalyzer.CsvFile`): a quote-aware
    line parser and the file reader built on it. The status scanner carries a
    character-for-character copy of the same line parser
    (`DesktopCsvAnalyzerLineParser.parseCsvLine`); this one model stands for
    both. */
module CsvReading {
  import opened Text
  import opened CsvUtils

  /** A parsed file: the header fields and the data rows. */
  datatype CsvFile = CsvFile(header: seq<string>, rows: seq<seq<string>>)

  /** The parser's state machine, one step per character: `inQ` is the
      quoting flag, `cur` the field being built, `acc` the finished fields.
      Inside quotes `""` yields one `"`; any other `"` flips the flag and is
      dropped; a comma outside quotes ends the field. */
  function Scan(s: string, inQ: bool, cur: string, acc: seq<string>): (r: seq<string>)
    decreases |s|
    ensures |r| >= |acc| + 1 && r[..|acc|] == acc
  {
    if s == [] then acc + [cur]
    else if s[0] == '"' then
      if inQ && |s| > 1 && s[1] == '"' then Scan(s[2..], inQ, cur + ['"'], acc)
      else Scan(s[1..], !inQ, cur, acc)
    else if s[0] == ',' && !inQ then Scan(s[1..], inQ, [], acc + [cur])
    else Scan(s[1..], inQ, cur + [s[0]], acc)
  }

  /** The fields of one line. */
  function ParseLine(line: string): (r: seq<string>)
    ensures |r| >= 1
  {
    Scan(line, false, [], [])
  }

  /** `parseCsvLine`: the index loop over the line, building the current
      field in a buffer. */
  method ParseCsvLine(line: string) returns (fields: seq<string>)
    ensures fields == ParseLine(line)
  {
    var result: seq<string> := [];
    var sb: string := [];
    var inQuotes := false;
    var i := 0;
    while i < |line|
      invariant 0 <= i <= |line|
      invariant Scan(line[i..], inQuotes, sb, result) == ParseLine(line)
    {
      var c := line[i];
      if c == '"' {
        if inQuotes && i + 1 < |line| && line[i + 1] == '"' {
          sb := sb + ['"'];
          i := i + 1;
        } else {
          inQuotes := !inQuotes;
        }
      } else if c == ',' && !inQuotes {
        result := result + [sb];
        sb := [];
      } else {
        sb := sb + [c];
      }
      i := i + 1;
    }
    fields := result + [sb];
  }

  // ------------------------------------------------------------ field count

  /** The number of commas that the quoting rules leave outside quotes. */
  function UnquotedCommas(s: string, inQ: bool): nat
    decreases |s|
  {
    if s == [] then 0
    else if s[0] == '"' then
      if inQ && |s| > 1 && s[1] == '"' then UnquotedCommas(s[2..], inQ)
      else UnquotedCommas(s[1..], !inQ)
    else if s[0] == ',' && !inQ then 1 + UnquotedCommas(s[1..], inQ)
    else UnquotedCommas(s[1..], inQ)
  }

  lemma {:induction false} ScanCount(s: string, inQ: bool, cur: string, acc: seq<string>)
    decreases |s|
    ensures |Scan(s, inQ, cur, acc)| == |acc| + 1 + UnquotedCommas(s, inQ)
  {
    if s == [] {
    } else if s[0] == '"' {
      if inQ && |s| > 1 && s[1] == '"' {
        ScanCount(s[2..], inQ, cur + ['"'], acc);
      } else {
        ScanCount(s[1..], !inQ, cur, acc);
      }
    } else if s[0] == ',' && !inQ {
      ScanCount(s[1..], inQ, [], acc + [cur]);
    } else {
      ScanCount(s[1..], inQ, cur + [s[0]], acc);
    }
  }

  /** A line has one field more than it has commas outside quotes. */
  lemma FieldCount(line: string)
    ensures |ParseLine(line)| == UnquotedCommas(line, false) + 1
  {
    ScanCount(line, false, [], []);
  }

  // ------------------------------------------------------- quote-free lines

  /** A run with no double quote and no comma is copied into the buffer. */
  lemma {:induction false} ScanRun(v: string, t: string, cur: string, acc: seq<string>)
    requires '"' !in v && ',' !in v
    decreases |v|
    ensures Scan(v + t, false, cur, acc) == Scan(t, false, cur + v, acc)
  {
    if v == [] {
      assert v + t == t;
      assert cur + v == cur;
    } else {
      var s := v + t;
      assert s[0] == v[0] && v[0] in v;
      assert s[1..] == v[1..] + t;
      assert Scan(s, false, cur, acc) == Scan(s[1..], false, cur + [v[0]], acc);
      assert '"' !in v[1..] && ',' !in v[1..] by {
        assert forall c :: c in v[1..] ==> c in v;
      }
      ScanRun(v[1..], t, cur + [v[0]], acc);
      assert cur + [v[0]] + v[1..] == cur + v;
    }
  }

  lemma {:induction false} ScanNoQuotes(s: string, cur: string, acc: seq<string>)
    requires '"' !in s
    decreases |s|
    ensures Scan(s, false, cur, acc) == acc + [cur + Split(s, [','])[0]] + Split(s, [','])[1..]
  {
    IndexOfChar(s, ',');
    match IndexOf(s, [','])
    case None =>
      SplitAbsent(s, ',');
      ScanRun(s, [], cur, acc);
      assert s + [] == s;
    case Some(i) =>
      var a := s[..i];
      var b := s[i + 1..];
      assert s == a + [','] + b;
      assert '"' !in a && '"' !in b by {
        assert forall c :: c in a || c in b ==> c in s;
      }
      SplitCons(a, ',', b);
      ScanFirstField(a, b, cur, acc);
      ScanNoQuotes(b, [], acc + [cur + a]);
      FieldsAfterComma(acc + [cur + a], Split(b, [',']));
  }

  /** A quote-free, comma-free run and a comma close the current field. */
  lemma ScanFirstField(a: string, b: string, cur: string, acc: seq<string>)
    requires '"' !in a && ',' !in a
    ensures Scan(a + [','] + b, false, cur, acc) == Scan(b, false, [], acc + [cur + a])
  {
    ScanRun(a, [','] + b, cur, acc);
    assert a + ([','] + b) == a + [','] + b;
    assert ([','] + b)[1..] == b;
  }

  lemma FieldsAfterComma(acc: seq<string>, p: seq<string>)
    requires p != []
    ensures acc + [[] + p[0]] + p[1..] == acc + p
  {
    assert [] + p[0] == p[0];
    assert [p[0]] + p[1..] == p;
  }

  /** Without double quotes the parser is a plain split on commas, empty
      fields included. */
  lemma ParseWithoutQuotes(line: string)
    requires '"' !in line
    ensures ParseLine(line) == Split(line, [','])
  {
    ScanNoQuotes(line, [], []);
    var p := Split(line, [',']);
    var none: string := [];
    assert none + p[0] == p[0];
    assert [p[0]] + p[1..] == p;
  }

  // --------------------------------------------------------------- round trip

  /** The body of a quoted field, followed by its closing quote, is read
      back as the original value. */
  lemma {:induction false} ScanQuotedBody(v: string, t: string, cur: string, acc: seq<string>)
    requires t == [] || t[0] != '"'
    decreases |v|
    ensures Scan(DoubleQuotes(v) + "\"" + t, true, cur, acc) == Scan(t, false, cur + v, acc)
  {
    var s := DoubleQuotes(v) + "\"" + t;
    if v == [] {
      assert s == "\"" + t;
      assert s[1..] == t;
      assert Scan(s, true, cur, acc) == Scan(t, false, cur, acc);
      assert cur + v == cur;
    } else {
      QuotedStep(v, t, cur, acc);
      ScanQuotedBody(v[1..], t, cur + [v[0]], acc);
      assert cur + [v[0]] + v[1..] == cur + v;
    }
  }

  /** Inside quotes, the first character of the body, written out with its
      quote doubled, goes into the buffer. */
  lemma QuotedStep(v: string, t: string, cur: string, acc: seq<string>)
    requires v != []
    ensures Scan(DoubleQuotes(v) + "\"" + t, true, cur, acc)
      == Scan(DoubleQuotes(v[1..]) + "\"" + t, true, cur + [v[0]], acc)
  {
    if v[0] == '"' {
      QuotedStepQuote(v, t, cur, acc);
    } else {
      QuotedStepOther(v, t, cur, acc);
    }
  }

  /** A quote of the value was written as `""` and is read back as one. */
  lemma QuotedStepQuote(v: string, t: string, cur: string, acc: seq<string>)
    requires v != [] && v[0] == '"'
    ensures Scan(DoubleQuotes(v) + "\"" + t, true, cur, acc)
      == Scan(DoubleQuotes(v[1..]) + "\"" + t, true, cur + [v[0]], acc)
  {
    var s := DoubleQuotes(v) + "\"" + t;
    var rest := DoubleQuotes(v[1..]) + "\"" + t;
    assert s == "\"\"" + rest;
    assert |s| > 1 && s[0] == '"' && s[1] == '"' && s[2..] == rest;
  }

  /** Any other character of the value is copied as it is. */
  lemma QuotedStepOther(v: string, t: string, cur: string, acc: seq<string>)
    requires v != [] && v[0] != '"'
    ensures Scan(DoubleQuotes(v) + "\"" + t, true, cur, acc)
      == Scan(DoubleQuotes(v[1..]) + "\"" + t, true, cur + [v[0]], acc)
  {
    var s := DoubleQuotes(v) + "\"" + t;
    var rest := DoubleQuotes(v[1..]) + "\"" + t;
    assert s == [v[0]] + rest;
    assert s[0] == v[0] && s[1..] == rest;
  }

  /** One escaped field, followed by the end of the line or a comma, parses
      back to the field. */
  lemma ScanEscaped(v: string, t: string, acc: seq<string>)
    requires t == [] || t[0] == ','
    ensures Scan(Escape(v) + t, false, [], acc) == Scan(t, false, v, acc)
  {
    if NeedsQuoting(v) {
      assert Escape(v) + t == "\"" + DoubleQuotes(v) + "\"" + t;
      ScanQuoted(v, t, acc);
    } else {
      ScanRun(v, t, [], acc);
      assert [] + v == v;
    }
  }

  /** A field in quotes, followed by the end of the line or a comma, parses
      back to the field. */
  lemma ScanQuoted(v: string, t: string, acc: seq<string>)
    requires t == [] || t[0] == ','
    ensures Scan("\"" + DoubleQuotes(v) + "\"" + t, false, [], acc) == Scan(t, false, v, acc)
  {
    var s := "\"" + DoubleQuotes(v) + "\"" + t;
    assert s[0] == '"' && s[1..] == DoubleQuotes(v) + "\"" + t;
    ScanQuotedBody(v, t, [], acc);
    assert [] + v == v;
  }

  lemma {:induction false} ScanEncodedRow(fields: seq<string>, acc: seq<string>)
    requires |fields| >= 1
    decreases |fields|
    ensures Scan(EncodeRow(fields), false, [], acc) == acc + fields
  {
    if |fields| == 1 {
      EncodeSingle(fields);
      ScanEscaped(fields[0], [], acc);
    } else {
      ScanFirstOfRow(fields, acc);
      ScanEncodedRow(fields[1..], acc + [fields[0]]);
      assert acc + [fields[0]] + fields[1..] == acc + fields;
    }
  }

  /** The first field of a row of two or more is read back and the parser
      goes on after its comma. */
  lemma ScanFirstOfRow(fields: seq<string>, acc: seq<string>)
    requires |fields| >= 2
    ensures Scan(EncodeRow(fields), false, [], acc)
      == Scan(EncodeRow(fields[1..]), false, [], acc + [fields[0]])
  {
    var tail := EncodeRow(fields[1..]);
    EncodeCons(fields);
    ScanEscaped(fields[0], "," + tail, acc);
    assert ("," + tail)[0] == ',' && ("," + tail)[1..] == tail;
  }

  lemma EncodeSingle(fields: seq<string>)
    requires |fields| == 1
    ensures EncodeRow(fields) == Escape(fields[0]) + []
  {
    assert EscapeAll(fields) == [Escape(fields[0])];
  }

  lemma EncodeCons(fields: seq<string>)
    requires |fields| >= 2
    ensures EncodeRow(fields) == Escape(fields[0]) + ("," + EncodeRow(fields[1..]))
  {
    var e := EscapeAll(fields);
    assert e[1..] == EscapeAll(fields[1..]);
    assert Join(e, ",") == e[0] + "," + Join(e[1..], ",");
  }

  /** Writing a row with the CSV writers' quoting and reading it back with
      the analyzer's parser gives back exactly the row. */
  lemma ParseEncodedRow(fields: seq<string>)
    requires |fields| >= 1
    ensures ParseLine(EncodeRow(fields)) == fields
  {
    ScanEncodedRow(fields, []);
  }

  // ------------------------------------------------------------------ files

  /** The lines that are not blank, in order. */
  function NonBlankLines(lines: seq<string>): (r: seq<string>)
    ensures |r| <= |lines|
    ensures forall i :: 0 <= i < |r| ==> !IsBlank(r[i])
    ensures (forall i :: 0 <= i < |lines| ==> !IsBlank(lines[i])) ==> r == lines
  {
    if lines == [] then []
    else (if IsBlank(lines[0]) then [] else [lines[0]]) + NonBlankLines(lines[1..])
  }

  /** Reading one more line keeps the earlier non-blank lines. */
  lemma {:induction false} NonBlankLinesSnoc(lines: seq<string>, x: string)
    ensures NonBlankLines(lines + [x]) == NonBlankLines(lines) + (if IsBlank(x) then [] else [x])
  {
    if lines == [] {
      assert [] + [x] == [x];
      assert [x][1..] == [];
    } else {
      assert (lines + [x])[1..] == lines[1..] + [x];
      NonBlankLinesSnoc(lines[1..], x);
    }
  }

  /** `CsvFile.read`, over the file's lines (`readLines` is file I/O). */
  function Read(lines: seq<string>): (f: CsvFile)
    ensures lines == [] ==> f.header == [] && f.rows == []
    ensures lines != [] ==> |f.header| >= 1 && |f.rows| == |NonBlankLines(lines[1..])|
    ensures lines != [] ==> f.header == ParseLine(lines[0])
    ensures lines != [] ==> forall i :: 0 <= i < |f.rows| ==> f.rows[i] == ParseLine(NonBlankLines(lines[1..])[i])
  {
    if lines == [] then CsvFile([], [])
    else
      var data := NonBlankLines(lines[1..]);
      CsvFile(ParseLine(lines[0]), seq(|data|, i requires 0 <= i < |data| => ParseLine(data[i])))
  }

  /** The lines a CSV writer of the app produces for a header and rows. */
  function EncodeFile(header: seq<string>, rows: seq<seq<string>>): (lines: seq<string>)
    ensures |lines| == |rows| + 1
  {
    [EncodeRow(header)] + seq(|rows|, i requires 0 <= i < |rows| => EncodeRow(rows[i]))
  }

  /** A row written as a line the reader would skip: a single field whose
      line is blank (an empty or whitespace-only value). */
  predicate WrittenBlank(row: seq<string>) {
    IsBlank(EncodeRow(row))
  }

  /** A row of two or more fields, or of one non-blank field, never becomes
      a blank line. */
  lemma NotWrittenBlank(row: seq<string>)
    requires |row| >= 2 || (|row| == 1 && !IsBlank(row[0]))
    ensures !WrittenBlank(row)
  {
    var es := EscapeAll(row);
    if |row| >= 2 {
      var line := EncodeRow(row);
      assert line == es[0] + "," + Join(es[1..], ",");
      assert line[|es[0]|] == ',';
    } else {
      var v := row[0];
      assert EncodeRow(row) == Escape(v);
      if NeedsQuoting(v) {
        assert Escape(v)[0] == '"';
      } else {
        assert Escape(v) == v;
      }
    }
  }

  /** Reading back what the writers produce gives the header and rows, as
      long as no row would be written as a blank line and no field holds a
      line break (each written row is then exactly one line of the file,
      see `EncodeRowSingleLine`; a field with one spans several lines, see
      `MultiLineFieldSpansLines`). */
  lemma ReadEncodedFile(header: seq<string>, rows: seq<seq<string>>)
    requires |header| >= 1 && SingleLineFields(header)
    requires forall i :: 0 <= i < |rows| ==> |rows[i]| >= 1 && !WrittenBlank(rows[i]) && SingleLineFields(rows[i])
    ensures Read(EncodeFile(header, rows)) == CsvFile(header, rows)
  {
    var lines := EncodeFile(header, rows);
    ParseEncodedRow(header);
    assert lines[1..] == seq(|rows|, i requires 0 <= i < |rows| => EncodeRow(rows[i]));
    var data := NonBlankLines(lines[1..]);
    assert data == lines[1..];
    forall i | 0 <= i < |rows| ensures ParseLine(data[i]) == rows[i] {
      ParseEncodedRow(rows[i]);
    }
  }

  /** A single-column file loses a row with an empty value on re-reading,
      because its line is blank. */
  lemma EmptySingleFieldRowIsSkipped()
    ensures WrittenBlank([""])
    ensures Read(EncodeFile(["h"], [[""]])).rows == []
  {
    assert EncodeRow([""]) == "";
    var lines := EncodeFile(["h"], [[""]]);
    assert lines[1..] == [""];
    assert NonBlankLines([""]) == [];
  }
}
