/**
 * CSV encoding shared by the alerts, analytics and reports exports. A field that holds a
 * comma, a double quote or a line feed is written as a quoted field with every double
 * quote doubled (section 2, rules 6 and 7, of RFC 4180); any other field is written as
 * it is. Fields are separated by ',' and records by '\n'.
 *
 * Beside the writer, this module holds a reader for the same format and proves that
 * reading an exported document gives back the header line and every cell, in order.
 */
module Csv {
  import opened Wrappers
  import opened Text
  import opened Js

  /** Whether a field must be quoted: it holds ',', '"' or '\n'. */
  predicate NeedsQuotes(s: string) {
    ',' in s || '"' in s || '\n' in s
  }

  /** `s.replace(/"/g, '""')`. */
  function DoubleQuotes(s: string): (r: string)
    ensures |r| >= |s|
    decreases |s|
  {
    if |s| == 0 then ""
    else (if s[0] == '"' then "\"\"" else [s[0]]) + DoubleQuotes(s[1..])
  }

  /** The reverse of `DoubleQuotes`: every `""` pair becomes one `"`. */
  function Undouble(s: string): string
    decreases |s|
  {
    if |s| == 0 then ""
    else if |s| >= 2 && s[0] == '"' && s[1] == '"' then "\"" + Undouble(s[2..])
    else [s[0]] + Undouble(s[1..])
  }

  /** Undoubling the doubled quotes recovers the original text. */
  lemma {:induction false} UndoubleDoubleQuotes(s: string)
    ensures Undouble(DoubleQuotes(s)) == s
    decreases |s|
  {
    if |s| > 0 {
      UndoubleDoubleQuotes(s[1..]);
      var d := DoubleQuotes(s[1..]);
      if s[0] == '"' {
        assert DoubleQuotes(s) == "\"\"" + d;
        assert ("\"\"" + d)[2..] == d;
      } else {
        assert DoubleQuotes(s) == [s[0]] + d;
        assert ([s[0]] + d)[1..] == d;
      }
      assert [s[0]] + s[1..] == s;
    }
  }

  /**
   * The quoting step of `formatCSVField` on the text of a field. A quoted field starts
   * and ends with '"', and undoubling what lies between gives back the text.
   */
  function EncodeText(s: string): (r: string)
    ensures !NeedsQuotes(s) ==> r == s
    ensures NeedsQuotes(s) ==> |r| >= 2 && r[0] == '"' && r[|r| - 1] == '"'
                               && Undouble(r[1..|r| - 1]) == s
  {
    if NeedsQuotes(s) then
      var d := DoubleQuotes(s);
      UndoubleDoubleQuotes(s);
      assert ("\"" + d + "\"")[1..|d| + 1] == d;
      "\"" + d + "\""
    else s
  }

  /**
   * The text `formatCSVField` quotes, in the reports and alerts pages: "" for null and
   * undefined, `String(field)` otherwise (an array is joined with ',').
   */
  function FieldText(v: JsValue): string {
    if v.Null? || v.Undefined? then "" else ToJsString(v)
  }

  /** Each cell of a record, encoded. */
  function EncodeAll(cells: seq<string>): (r: seq<string>)
    ensures |r| == |cells|
    ensures forall k :: 0 <= k < |cells| ==> r[k] == EncodeText(cells[k])
  {
    seq(|cells|, k requires 0 <= k < |cells| => EncodeText(cells[k]))
  }

  /** One record: the encoded cells joined with ','. */
  function Row(cells: seq<string>): string {
    Join(EncodeAll(cells), ",")
  }

  /** Every record, in order. */
  function Rows(records: seq<seq<string>>): (r: seq<string>)
    ensures |r| == |records|
    ensures forall k :: 0 <= k < |records| ==> r[k] == Row(records[k])
  {
    seq(|records|, k requires 0 <= k < |records| => Row(records[k]))
  }

  /**
   * The exported text: the header names joined with ',' (not encoded), a line feed, then
   * the records joined with line feeds. (The pages put this after a `data:` URI prefix.)
   */
  function Document(headers: seq<string>, records: seq<seq<string>>): string {
    Join(headers, ",") + "\n" + Join(Rows(records), "\n")
  }

  // ---------------------------------------------------------------------------------
  // A reader for the format.

  /** What may follow a field: nothing, or the ',' or '\n' that ends it. */
  predicate AtFieldEnd(rest: string) {
    |rest| == 0 || rest[0] == ',' || rest[0] == '\n'
  }

  /** Putting a character back in front of a split string. */
  lemma PrependPiece(c: char, f: string, rest: string, tail: string)
    requires f + rest == tail
    ensures ([c] + f) + rest == [c] + tail
  {
  }

  /** Reads an unquoted field: everything up to the next ',' or '\n'. */
  function ReadPlain(s: string): (res: (string, string))
    ensures res.0 + res.1 == s
    ensures AtFieldEnd(res.1)
    decreases |s|
  {
    if AtFieldEnd(s) then ("", s)
    else
      var r := ReadPlain(s[1..]);
      PrependPiece(s[0], r.0, r.1, s[1..]);
      ([s[0]] + r.0, r.1)
  }

  /** Reads the body of a quoted field, just after its opening quote, through its closing quote. */
  function ReadQuoted(s: string): (res: Option<(string, string)>)
    ensures res.Some? ==> |res.value.1| < |s|
    decreases |s|
  {
    if |s| == 0 then None
    else if s[0] == '"' then
      if |s| >= 2 && s[1] == '"' then
        match ReadQuoted(s[2..])
        case None => None
        case Some((f, rest)) => Some(("\"" + f, rest))
      else Some(("", s[1..]))
    else
      match ReadQuoted(s[1..])
      case None => None
      case Some((f, rest)) => Some(([s[0]] + f, rest))
  }

  /** Reads one field, quoted or not. */
  function ReadField(s: string): (res: Option<(string, string)>)
    ensures res.Some? ==> |res.value.1| <= |s|
  {
    if |s| > 0 && s[0] == '"' then ReadQuoted(s[1..]) else Some(ReadPlain(s))
  }

  /** Reads the fields of one record, up to the '\n' or the end that closes it. */
  function ReadFields(s: string): (res: Option<(seq<string>, string)>)
    ensures res.Some? ==> |res.value.1| <= |s|
    decreases |s|
  {
    match ReadField(s)
    case None => None
    case Some((f, rest)) =>
      if |rest| > 0 && rest[0] == ',' then
        match ReadFields(rest[1..])
        case None => None
        case Some((fs, tail)) => Some(([f] + fs, tail))
      else Some(([f], rest))
  }

  /** Reads a whole document into its records; None when it is malformed. */
  function ReadRecords(s: string): Option<seq<seq<string>>>
    decreases |s|
  {
    match ReadFields(s)
    case None => None
    case Some((fs, rest)) =>
      if |rest| == 0 then Some([fs])
      else if rest[0] == '\n' then
        match ReadRecords(rest[1..])
        case None => None
        case Some(rs) => Some([fs] + rs)
      else None
  }

  // ---------------------------------------------------------------------------------
  // Round trip.

  lemma {:induction false} ReadPlainExact(t: string, rest: string)
    requires ',' !in t && '\n' !in t
    requires AtFieldEnd(rest)
    ensures ReadPlain(t + rest) == (t, rest)
    decreases |t|
  {
    if |t| > 0 {
      assert (t + rest)[0] == t[0];
      assert (t + rest)[1..] == t[1..] + rest;
      assert ',' !in t[1..] && '\n' !in t[1..] by {
        forall k | 0 <= k < |t[1..]| ensures t[1..][k] == t[k + 1] { }
      }
      ReadPlainExact(t[1..], rest);
      assert [t[0]] + t[1..] == t;
    } else {
      assert t + rest == rest;
    }
  }

  lemma {:induction false} ReadQuotedExact(t: string, rest: string)
    requires |rest| == 0 || rest[0] != '"'
    ensures ReadQuoted(DoubleQuotes(t) + "\"" + rest) == Some((t, rest))
    decreases |t|
  {
    var s := DoubleQuotes(t) + "\"" + rest;
    if |t| == 0 {
      assert s == "\"" + rest;
      assert s[1..] == rest;
    } else {
      var d := DoubleQuotes(t[1..]);
      ReadQuotedExact(t[1..], rest);
      if t[0] == '"' {
        assert s == "\"\"" + (d + "\"" + rest);
        assert s[2..] == d + "\"" + rest;
      } else {
        assert s == [t[0]] + (d + "\"" + rest);
        assert s[1..] == d + "\"" + rest;
      }
      assert [t[0]] + t[1..] == t;
    }
  }

  /** Reading an encoded field gives back its text and stops at the separator after it. */
  lemma ReadFieldExact(t: string, rest: string)
    requires AtFieldEnd(rest)
    ensures ReadField(EncodeText(t) + rest) == Some((t, rest))
  {
    if NeedsQuotes(t) {
      ReadQuotedFieldExact(t, rest);
    } else {
      ReadPlainFieldExact(t, rest);
    }
  }

  /** `ReadFieldExact` for a field that is written quoted. */
  lemma ReadQuotedFieldExact(t: string, rest: string)
    requires NeedsQuotes(t) && AtFieldEnd(rest)
    ensures ReadField(EncodeText(t) + rest) == Some((t, rest))
  {
    QuotedLayout(t, rest);
    ReadFieldOpeningQuote(DoubleQuotes(t) + "\"" + rest);
    ReadQuotedExact(t, rest);
  }

  /** A quoted field followed by `rest` is an opening quote, the doubled text, a closing quote and `rest`. */
  lemma QuotedLayout(t: string, rest: string)
    requires NeedsQuotes(t)
    ensures EncodeText(t) + rest == "\"" + (DoubleQuotes(t) + "\"" + rest)
  {
  }

  /** A field that opens with a quote is read as a quoted field. */
  lemma ReadFieldOpeningQuote(body: string)
    ensures ReadField("\"" + body) == ReadQuoted(body)
  {
    assert ("\"" + body)[1..] == body;
  }

  /** `ReadFieldExact` for a field that is written as it is. */
  lemma ReadPlainFieldExact(t: string, rest: string)
    requires !NeedsQuotes(t) && AtFieldEnd(rest)
    ensures ReadField(EncodeText(t) + rest) == Some((t, rest))
  {
    assert EncodeText(t) == t;
    ReadPlainExact(t, rest);
    if |t| > 0 {
      assert (t + rest)[0] == t[0];
    } else {
      assert t + rest == rest;
    }
  }

  lemma {:induction false} ReadFieldsExact(cells: seq<string>, rest: string)
    requires |cells| >= 1
    requires |rest| == 0 || rest[0] == '\n'
    ensures ReadFields(Row(cells) + rest) == Some((cells, rest))
    decreases |cells|
  {
    if |cells| == 1 {
      ReadLastField(cells, rest);
    } else {
      var tail := Row(cells[1..]) + rest;
      RowSplit(cells, rest);
      ReadFieldExact(cells[0], "," + tail);
      ReadFieldsStep(Row(cells) + rest, cells[0], tail);
      ReadFieldsExact(cells[1..], rest);
      assert [cells[0]] + cells[1..] == cells;
    }
  }

  /** A one-cell record is its encoded cell, read as one field. */
  lemma ReadLastField(cells: seq<string>, rest: string)
    requires |cells| == 1
    requires |rest| == 0 || rest[0] == '\n'
    ensures ReadFields(Row(cells) + rest) == Some((cells, rest))
  {
    assert Row(cells) == EncodeText(cells[0]);
    ReadFieldExact(cells[0], rest);
    assert cells == [cells[0]];
  }

  /** A record of several cells is its first encoded cell, a ',' and the row of the rest. */
  lemma RowSplit(cells: seq<string>, rest: string)
    requires |cells| >= 2
    ensures Row(cells) + rest == EncodeText(cells[0]) + ("," + (Row(cells[1..]) + rest))
  {
    assert EncodeAll(cells)[1..] == EncodeAll(cells[1..]);
    assert Row(cells) == EncodeText(cells[0]) + "," + Row(cells[1..]);
  }

  /** A field followed by ',' is the first of the fields read from what comes after the ','. */
  lemma ReadFieldsStep(s: string, f: string, tail: string)
    requires ReadField(s) == Some((f, "," + tail))
    ensures ReadFields(s) == match ReadFields(tail)
                             case None => None
                             case Some((fs, r)) => Some(([f] + fs, r))
  {
    assert ("," + tail)[1..] == tail;
  }

  lemma {:induction false} ReadRecordsExact(records: seq<seq<string>>)
    requires |records| >= 1
    requires forall k :: 0 <= k < |records| ==> |records[k]| >= 1
    ensures ReadRecords(Join(Rows(records), "\n")) == Some(records)
    decreases |records|
  {
    var rows := Rows(records);
    if |records| == 1 {
      assert Join(rows, "\n") == Row(records[0]) + "";
      ReadFieldsExact(records[0], "");
      assert records == [records[0]];
    } else {
      assert Rows(records)[1..] == Rows(records[1..]);
      var tail := Join(Rows(records[1..]), "\n");
      assert Join(rows, "\n") == Row(records[0]) + ("\n" + tail);
      ReadFieldsExact(records[0], "\n" + tail);
      assert ("\n" + tail)[1..] == tail;
      ReadRecordsExact(records[1..]);
      assert [records[0]] + records[1..] == records;
    }
  }

  /** A name made of letters and spaces needs no quoting. */
  lemma WordIsPlain(h: string)
    requires forall k :: 0 <= k < |h| ==> 'a' <= h[k] <= 'z' || 'A' <= h[k] <= 'Z' || h[k] == ' '
    ensures !NeedsQuotes(h)
  {
  }

  /** Header names that are written without quotes. */
  predicate PlainHeaders(headers: seq<string>) {
    |headers| >= 1 && forall k :: 0 <= k < |headers| ==> !NeedsQuotes(headers[k])
  }

  /**
   * Reading an exported document gives back the header names followed by every record's
   * cells, in order, as long as there is at least one record and every record has a cell.
   */
  lemma DocumentRoundTrip(headers: seq<string>, records: seq<seq<string>>)
    requires PlainHeaders(headers)
    requires |records| >= 1
    requires forall k :: 0 <= k < |records| ==> |records[k]| >= 1
    ensures ReadRecords(Document(headers, records)) == Some([headers] + records)
  {
    var all := [headers] + records;
    assert EncodeAll(headers) == headers;
    assert Rows(all)[1..] == Rows(records);
    assert Rows(all)[0] == Join(headers, ",");
    assert Join(Rows(all), "\n") == Document(headers, records);
    ReadRecordsExact(all);
  }

  /**
   * With no records the document is the header line and a line feed, which reads as the
   * header record followed by one record holding a single empty field.
   */
  lemma EmptyDocument(headers: seq<string>)
    requires PlainHeaders(headers)
    ensures ReadRecords(Document(headers, [])) == Some([headers, [""]])
  {
    assert EncodeAll(headers) == headers;
    assert Document(headers, []) == Row(headers) + "\n";
    ReadFieldsExact(headers, "\n");
    assert ReadFields("") == Some(([""], ""));
    assert ReadRecords("") == Some([[""]]);
    assert "\n"[1..] == "";
    assert ReadRecords(Row(headers) + "\n") == Some([headers] + [[""]]);
    assert [headers] + [[""]] == [headers, [""]];
  }
}
