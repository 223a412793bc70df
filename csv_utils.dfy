/** CSV field quoting used by every CSV writer of the researcher app
    (`CsvUtils.escape`), following RFC 4180 section 2, items 6 and 7: a field
    holding a comma, a double quote or a line break is enclosed in double
    quotes, and a double quote inside it is written twice. */
module CsvUtils {
  import opened Text

  /** The characters that force a value to be quoted. */
  predicate NeedsQuoting(v: string) {
    ',' in v || '"' in v || '\n' in v || '\r' in v
  }

  /** `value.replace("\"", "\"\"")`: each double quote written twice. */
  function DoubleQuotes(v: string): string {
    if v == [] then []
    else (if v[0] == '"' then "\"\"" else [v[0]]) + DoubleQuotes(v[1..])
  }

  /** Doubling adds one character per quote, and every quote of the input
      appears twice in the output. */
  lemma {:induction false} DoubleQuotesCounts(v: string)
    ensures |DoubleQuotes(v)| == |v| + CountChar(v, '"')
    ensures CountChar(DoubleQuotes(v), '"') == 2 * CountChar(v, '"')
  {
    if v != [] {
      DoubleQuotesCounts(v[1..]);
      assert v == [v[0]] + v[1..];
      var head := if v[0] == '"' then "\"\"" else [v[0]];
      assert DoubleQuotes(v) == head + DoubleQuotes(v[1..]);
      assert multiset(DoubleQuotes(v)) == multiset(head) + multiset(DoubleQuotes(v[1..]));
    }
  }

  /** Without quotes there is nothing to double. */
  lemma {:induction false} DoubleQuotesNoQuote(v: string)
    requires '"' !in v
    decreases |v|
    ensures DoubleQuotes(v) == v
  {
    if v != [] {
      assert v == [v[0]] + v[1..];
      assert v[0] in v && '"' !in v[1..];
      DoubleQuotesNoQuote(v[1..]);
    }
  }

  /** Doubling works piece by piece. */
  lemma {:induction false} DoubleQuotesAppend(a: string, b: string)
    decreases |a|
    ensures DoubleQuotes(a + b) == DoubleQuotes(a) + DoubleQuotes(b)
  {
    if a == [] {
      assert a + b == b;
    } else {
      assert (a + b)[0] == a[0] && (a + b)[1..] == a[1..] + b;
      DoubleQuotesAppend(a[1..], b);
    }
  }

  /** Doubling quotes keeps every other character's count. */
  lemma {:induction false} DoubleQuotesOtherChars(v: string, c: char)
    requires c != '"'
    ensures CountChar(DoubleQuotes(v), c) == CountChar(v, c)
  {
    if v != [] {
      DoubleQuotesOtherChars(v[1..], c);
      assert v == [v[0]] + v[1..];
      var head := if v[0] == '"' then "\"\"" else [v[0]];
      assert DoubleQuotes(v) == head + DoubleQuotes(v[1..]);
      assert multiset(DoubleQuotes(v)) == multiset(head) + multiset(DoubleQuotes(v[1..]));
    }
  }

  /** `CsvUtils.escape`. */
  function Escape(v: string): (r: string)
    ensures !NeedsQuoting(v) ==> r == v
    ensures NeedsQuoting(v) ==> |r| >= 2 && r[0] == '"' && r[|r| - 1] == '"'
    ensures NeedsQuoting(v) ==> r[1..|r| - 1] == DoubleQuotes(v)
    ensures NeedsQuoting(v) ==> |r| == |v| + 2 + CountChar(v, '"')
    ensures NeedsQuoting(v) <==> r != v
  {
    if !NeedsQuoting(v) then v
    else
      DoubleQuotesCounts(v);
      var r := "\"" + DoubleQuotes(v) + "\"";
      assert |r| != |v|;
      r
  }

  /** Escaping loses no character of the value. */
  lemma EscapeKeepsChars(v: string, c: char)
    requires c in v
    ensures c in Escape(v)
  {
    if NeedsQuoting(v) {
      assert multiset(v)[c] > 0;
      if c == '"' {
        DoubleQuotesCounts(v);
      } else {
        DoubleQuotesOtherChars(v, c);
      }
      assert multiset(DoubleQuotes(v))[c] > 0;
      var r := Escape(v);
      assert r == "\"" + DoubleQuotes(v) + "\"";
      assert c in DoubleQuotes(v);
    }
  }

  /** `fields.joinToString(",") { CsvUtils.escape(it) }`: one CSV line, as
      every writer of the app emits it. */
  function EncodeRow(fields: seq<string>): string {
    Join(EscapeAll(fields), ",")
  }

  function EscapeAll(fields: seq<string>): (r: seq<string>)
    ensures |r| == |fields|
    ensures forall i :: 0 <= i < |fields| ==> r[i] == Escape(fields[i])
  {
    seq(|fields|, i requires 0 <= i < |fields| => Escape(fields[i]))
  }

  /** Quoting never introduces a line break, so a row whose fields have none
      is written as exactly one line. */
  lemma {:induction false} EncodeRowSingleLine(fields: seq<string>)
    requires forall i :: 0 <= i < |fields| ==> '\n' !in fields[i] && '\r' !in fields[i]
    ensures '\n' !in EncodeRow(fields) && '\r' !in EncodeRow(fields)
    decreases |fields|
  {
    var es := EscapeAll(fields);
    forall i | 0 <= i < |fields|
      ensures '\n' !in es[i] && '\r' !in es[i]
    {
      var v := fields[i];
      if NeedsQuoting(v) {
        DoubleQuotesOtherChars(v, '\n');
        DoubleQuotesOtherChars(v, '\r');
        assert es[i] == "\"" + DoubleQuotes(v) + "\"";
        assert multiset(es[i])['\n'] == CountChar(v, '\n');
        assert multiset(es[i])['\r'] == CountChar(v, '\r');
      }
    }
    JoinNoChar(es, ",", '\n');
    JoinNoChar(es, ",", '\r');
  }

  /** No field holds a line break. */
  predicate SingleLineFields(fields: seq<string>) {
    forall i :: 0 <= i < |fields| ==> '\n' !in fields[i] && '\r' !in fields[i]
  }

  /** A field with a line break is written raw inside its quotes, so the
      written row itself holds that line break and spans several lines of
      the file: a line-by-line reader does not see it as one row. */
  lemma MultiLineFieldSpansLines(fields: seq<string>, i: nat, c: char)
    requires i < |fields| && c in fields[i]
    requires c == '\n' || c == '\r'
    ensures c in EncodeRow(fields)
  {
    EscapeKeepsChars(fields[i], c);
    JoinKeepsChar(EscapeAll(fields), ",", i, c);
  }

  lemma {:induction false} JoinKeepsChar(parts: seq<string>, sep: string, i: nat, c: char)
    requires i < |parts| && c in parts[i]
    ensures c in Join(parts, sep)
    decreases |parts|
  {
    if |parts| > 1 {
      var head, rest := parts[0], Join(parts[1..], sep);
      assert Join(parts, sep) == head + sep + rest;
      if i == 0 {
        var k :| 0 <= k < |head| && head[k] == c;
        assert (head + sep + rest)[k] == c;
      } else {
        JoinKeepsChar(parts[1..], sep, i - 1, c);
        var k :| 0 <= k < |rest| && rest[k] == c;
        assert (head + sep + rest)[|head| + |sep| + k] == c;
      }
    }
  }

  lemma {:induction false} JoinNoChar(parts: seq<string>, sep: string, c: char)
    requires c !in sep
    requires forall i :: 0 <= i < |parts| ==> c !in parts[i]
    ensures c !in Join(parts, sep)
    decreases |parts|
  {
    if |parts| > 1 {
      JoinNoChar(parts[1..], sep, c);
    }
  }

  /** The escape tests' comma case, for any quote-free text around the
      comma: the value is enclosed in quotes and otherwise unchanged. */
  lemma EscapeWithComma(x: string, y: string)
    requires '"' !in x && '"' !in y
    ensures Escape(x + "," + y) == "\"" + (x + "," + y) + "\""
  {
    var v := x + "," + y;
    assert v[|x|] == ',' && v[|x|] in v;
    DoubleQuotesAppend(x + ",", y);
    DoubleQuotesAppend(x, ",");
    DoubleQuotesNoQuote(x);
    DoubleQuotesNoQuote(y);
    assert DoubleQuotes(",") == ",";
  }

  /** The escape tests' quote case, for any quote-free text around the
      quote: the quote is written twice inside the enclosing quotes. */
  lemma EscapeWithQuote(x: string, y: string)
    requires '"' !in x && '"' !in y
    ensures Escape(x + "\"" + y) == "\"" + (x + "\"\"" + y) + "\""
  {
    var v := x + "\"" + y;
    assert v[|x|] == '"' && v[|x|] in v;
    DoubleQuotesAppend(x + "\"", y);
    DoubleQuotesAppend(x, "\"");
    DoubleQuotesNoQuote(x);
    DoubleQuotesNoQuote(y);
    assert DoubleQuotes("\"") == "\"\"";
  }
}
