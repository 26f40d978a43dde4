/** The CSV export of analyses: one header line, then one line per analysis with eight quoted
    fields. A field is written between double quotes with every inner quote doubled (section 2,
    rule 7, of RFC 4180); fields are separated by commas and lines by a single line feed. The
    CSV half of the general export service is the same code, line for line. */
module ExportCsv {
  import opened Wrappers

  /** One entry of an exported analysis's `biasTypes`: its type and, optionally, the term. */
  datatype BiasIssue = BiasIssue(kind: string, term: Option<string>)

  /** An exported analysis; every field but the original text may be missing. */
  datatype Record = Record(
    title: Option<string>,
    originalText: string,
    improvedText: Option<string>,
    fairnessScore: Option<Num>,
    biasTypes: Option<seq<BiasIssue>>,
    confidence: Option<Num>,
    processingTime: Option<string>,
    language: Option<string>)

  /** `buildCSV` takes one analysis or a list of them. */
  datatype Input = One(record: Record) | Many(records: seq<Record>)

  // Joining and splitting.

  /** `parts.join(sep)`. */
  function Join(parts: seq<string>, sep: string): string {
    if parts == [] then ""
    else if |parts| == 1 then parts[0]
    else parts[0] + sep + Join(parts[1..], sep)
  }

  /** `s.split(c)` for a one-character separator: the pieces between the separators, at least one. */
  function SplitOn(s: string, c: char): (r: seq<string>)
    ensures |r| >= 1
  {
    if s == [] then [""]
    else
      var rest := SplitOn(s[1..], c);
      if s[0] == c then [""] + rest else [[s[0]] + rest[0]] + rest[1..]
  }

  /** A piece without the separator is split off whole. */
  lemma {:induction false} SplitOnPiece(x: string, c: char, y: string)
    requires c !in x
    ensures SplitOn(x + [c] + y, c) == [x] + SplitOn(y, c)
    ensures SplitOn(x, c) == [x]
  {
    if x != [] {
      SplitOnPiece(x[1..], c, y);
      assert (x + [c] + y)[1..] == x[1..] + [c] + y;
      assert [x[0]] + x[1..] == x;
    } else {
      assert x + [c] + y == [c] + y;
      assert ([c] + y)[1..] == y;
    }
  }

  /** Splitting a join on its separator gives the parts back when no part holds the separator. */
  lemma {:induction false} SplitJoin(parts: seq<string>, c: char)
    requires parts != []
    requires forall k :: 0 <= k < |parts| ==> c !in parts[k]
    ensures SplitOn(Join(parts, [c]), c) == parts
  {
    if |parts| == 1 {
      SplitOnPiece(parts[0], c, "");
    } else {
      SplitJoin(parts[1..], c);
      SplitOnPiece(parts[0], c, Join(parts[1..], [c]));
      assert [parts[0]] + parts[1..] == parts;
    }
  }

  // Quoting a field.

  /** `replace(/"/g, '""')`. */
  function Doubled(s: string): (r: string)
    ensures |r| >= |s|
  {
    if s == [] then []
    else (if s[0] == '"' then "\"\"" else [s[0]]) + Doubled(s[1..])
  }

  /** `escaped`: the field between quotes, inner quotes doubled. */
  function Escape(s: string): (r: string)
    ensures |r| >= 2 && r[0] == '"' && r[|r| - 1] == '"'
  {
    "\"" + Doubled(s) + "\""
  }

  /** Puts a character in front of a parsed field. */
  function Prepend(c: char, r: Option<(string, string)>): (p: Option<(string, string)>)
    ensures p.Some? <==> r.Some?
    ensures p.Some? ==> p.value.0 == [c] + r.value.0 && p.value.1 == r.value.1
  {
    match r
    case None => None
    case Some((f, rest)) => Some(([c] + f, rest))
  }

  /** Reads a quoted field after its opening quote: `""` stands for one quote and a lone quote
      closes the field. Gives the field and what follows the closing quote; `None` when the
      closing quote is missing. */
  function Body(s: string): (r: Option<(string, string)>)
    ensures r.Some? ==> |r.value.1| < |s|
  {
    if s == [] then None
    else if s[0] == '"' then
      if |s| >= 2 && s[1] == '"' then Prepend('"', Body(s[2..])) else Some(([], s[1..]))
    else Prepend(s[0], Body(s[1..]))
  }

  lemma BodyClose(rest: string)
    requires rest == [] || rest[0] != '"'
    ensures Body("\"" + rest) == Some(([], rest))
  {
    assert ("\"" + rest)[1..] == rest;
  }

  lemma BodyQuote(tail: string)
    ensures Body("\"\"" + tail) == Prepend('"', Body(tail))
  {
    assert ("\"\"" + tail)[2..] == tail;
  }

  lemma BodyChar(c: char, tail: string)
    requires c != '"'
    ensures Body([c] + tail) == Prepend(c, Body(tail))
  {
    assert ([c] + tail)[1..] == tail;
  }

  /** A quoted field reads back as the original string, whatever follows it unless that starts
      with a quote. */
  lemma {:induction false} BodyDoubled(x: string, rest: string)
    requires rest == [] || rest[0] != '"'
    ensures Body(Doubled(x) + "\"" + rest) == Some((x, rest))
  {
    if x == [] {
      assert Doubled(x) + "\"" + rest == "\"" + rest;
      BodyClose(rest);
    } else {
      var c, tail := x[0], Doubled(x[1..]) + "\"" + rest;
      var front := if c == '"' then "\"\"" else [c];
      calc {
        Body(Doubled(x) + "\"" + rest);
        { assert Doubled(x) + "\"" + rest == front + tail; }
        Body(front + tail);
        { if c == '"' { BodyQuote(tail); } else { BodyChar(c, tail); } }
        Prepend(c, Body(tail));
        { BodyDoubled(x[1..], rest); }
        Prepend(c, Some((x[1..], rest)));
        { assert [c] + x[1..] == x; }
        Some((x, rest));
      }
    }
  }

  /** Reading one quoted field: strip the outer quotes, collapse `""` to `"`. */
  function Unescape(s: string): Option<string> {
    if s != [] && s[0] == '"' then
      match Body(s[1..])
      case Some((f, rest)) => if rest == [] then Some(f) else None
      case None => None
    else None
  }

  /** The quoting round trip. */
  lemma EscapeRoundTrip(s: string)
    ensures Unescape(Escape(s)) == Some(s)
  {
    BodyDoubled(s, "");
    assert Escape(s)[1..] == Doubled(s) + "\"" + "";
  }

  // Lines.

  /** The quoted fields joined by commas. */
  function Line(fields: seq<string>): string {
    Join(seq(|fields|, k requires 0 <= k < |fields| => Escape(fields[k])), ",")
  }

  /** Reads comma-separated quoted fields up to the end of the text or to a character other than
      a comma after a field; gives the fields and the rest. */
  function ParseFields(s: string): (r: Option<(seq<string>, string)>)
    ensures r.Some? ==> |r.value.0| >= 1 && |r.value.1| < |s|
    decreases |s|
  {
    if s == [] || s[0] != '"' then None
    else match Body(s[1..])
      case None => None
      case Some((f, rest)) =>
        if rest != [] && rest[0] == ',' then
          match ParseFields(rest[1..])
          case None => None
          case Some((fs, tail)) => Some(([f] + fs, tail))
        else Some(([f], rest))
  }

  lemma LineCons(fields: seq<string>)
    requires |fields| >= 2
    ensures Line(fields) == Escape(fields[0]) + "," + Line(fields[1..])
  {
    var parts := seq(|fields|, k requires 0 <= k < |fields| => Escape(fields[k]));
    assert parts[1..] == seq(|fields[1..]|, k requires 0 <= k < |fields[1..]| => Escape(fields[1..][k]));
  }

  /** A quoted field at the front reads back as the field and what follows it. */
  lemma EscapedBody(f: string, rest: string)
    requires rest == [] || rest[0] != '"'
    ensures (Escape(f) + rest)[0] == '"' && Body((Escape(f) + rest)[1..]) == Some((f, rest))
  {
    assert (Escape(f) + rest)[1..] == Doubled(f) + "\"" + rest;
    BodyDoubled(f, rest);
  }

  /** A quoted field at the front, then either a comma and more fields or the end of the line. */
  lemma ParseFront(f: string, rest: string)
    requires rest == [] || rest[0] != '"'
    ensures ParseFields(Escape(f) + rest) ==
      if rest != [] && rest[0] == ',' then
        match ParseFields(rest[1..])
        case None => None
        case Some((fs, tail)) => Some(([f] + fs, tail))
      else Some(([f], rest))
  {
    EscapedBody(f, rest);
  }

  /** A line reads back as its fields when what follows it is empty or a line break. */
  lemma {:induction false} ParseLine(fields: seq<string>, rest: string)
    requires fields != []
    requires rest == [] || rest[0] == '\n'
    ensures ParseFields(Line(fields) + rest) == Some((fields, rest))
  {
    var f := fields[0];
    if |fields| == 1 {
      assert Line(fields) == Escape(f);
      ParseFront(f, rest);
      assert fields == [f];
    } else {
      var more := Line(fields[1..]) + rest;
      calc {
        ParseFields(Line(fields) + rest);
        { LineCons(fields); assert Line(fields) + rest == Escape(f) + ("," + more); }
        ParseFields(Escape(f) + ("," + more));
        { ParseFront(f, "," + more); assert ("," + more)[1..] == more; }
        (match ParseFields(more) case None => None case Some((fs, tail)) => Some(([f] + fs, tail)));
        { ParseLine(fields[1..], rest); }
        Some(([f] + fields[1..], rest));
        { assert [f] + fields[1..] == fields; }
        Some((fields, rest));
      }
    }
  }

  // Records.

  /** `x || ''` on an optional string: missing and empty both give the empty string. */
  function OrEmpty(s: Option<string>): string {
    if s.Some? then s.value else ""
  }

  /** A number's `toString`: NaN is written `NaN`, a finite value by `render`. */
  function NumText(n: Num, render: real -> string): string {
    if n.NaN? then "NaN" else render(n.value)
  }

  /** `x ?? ''` on an optional number: only a missing number gives the empty string, so 0 is
      written. */
  function NumOrEmpty(n: Option<Num>, render: real -> string): string {
    if n.Some? then NumText(n.value, render) else ""
  }

  /** The bias field: `type:term` per entry, a missing term written as nothing, joined by `|`. */
  function BiasText(issues: Option<seq<BiasIssue>>): string {
    var xs := if issues.Some? then issues.value else [];
    Join(seq(|xs|, k requires 0 <= k < |xs| => xs[k].kind + ":" + OrEmpty(xs[k].term)), "|")
  }

  /** Splitting the bias field on `|` gives one `type:term` per entry when no type or term holds
      a `|`. */
  lemma BiasTextSplits(issues: seq<BiasIssue>)
    requires issues != []
    requires forall k :: 0 <= k < |issues| ==> '|' !in issues[k].kind && '|' !in OrEmpty(issues[k].term)
    ensures var parts := SplitOn(BiasText(Some(issues)), '|');
      |parts| == |issues| &&
      forall k :: 0 <= k < |issues| ==> parts[k] == issues[k].kind + ":" + OrEmpty(issues[k].term)
  {
    var parts := seq(|issues|, k requires 0 <= k < |issues| => issues[k].kind + ":" + OrEmpty(issues[k].term));
    SplitJoin(parts, '|');
  }

  /** The eight fields of an analysis, in header order. */
  function Fields(a: Record, render: real -> string): (r: seq<string>)
    ensures |r| == |HeaderNames|
  {
    [OrEmpty(a.title), OrEmpty(a.language), NumOrEmpty(a.fairnessScore, render), a.originalText,
     OrEmpty(a.improvedText), BiasText(a.biasTypes), NumOrEmpty(a.confidence, render), OrEmpty(a.processingTime)]
  }

  /** A score or confidence of 0 is written, unlike an empty title. */
  lemma ZeroIsWritten(a: Record, render: real -> string)
    requires a.fairnessScore == Some(Finite(0.0)) && a.title == Some("")
    ensures Fields(a, render)[2] == render(0.0) && Fields(a, render)[0] == ""
  {
  }

  /** `analysisToCSVRow`. */
  function Row(a: Record, render: real -> string): string {
    Line(Fields(a, render))
  }

  /** A row reads back as exactly the eight fields. */
  lemma RowRoundTrip(a: Record, render: real -> string)
    ensures ParseFields(Row(a, render)) == Some((Fields(a, render), ""))
  {
    ParseLine(Fields(a, render), "");
    assert Row(a, render) + "" == Row(a, render);
  }

  // The file.

  const HeaderNames: seq<string> :=
    ["title", "language", "fairnessScore", "originalText", "improvedText", "bias", "confidence", "processingTime"]

  /** The header line, `title,language,fairnessScore,originalText,improvedText,bias,confidence,processingTime`. */
  const Header: string := Join(HeaderNames, ",")

  /** The header line names the eight fields, in order. */
  lemma HeaderIsNames()
    ensures SplitOn(Header, ',') == HeaderNames
  {
    forall k | 0 <= k < |HeaderNames|
      ensures ',' !in HeaderNames[k]
    {
    }
    SplitJoin(HeaderNames, ',');
  }

  /** The analyses to write: a lone analysis is a list of one. */
  function Records(input: Input): seq<Record> {
    match input
    case One(a) => [a]
    case Many(rs) => rs
  }

  /** `buildCSV`. */
  function BuildCsv(input: Input, render: real -> string): string {
    var rs := Records(input);
    Join([Header] + seq(|rs|, k requires 0 <= k < |rs| => Row(rs[k], render)), "\n")
  }

  /** Reads the lines after the header: one line of quoted fields after each line break. */
  function ParseRows(s: string): Option<seq<seq<string>>>
    decreases |s|
  {
    match ParseFields(s)
    case None => None
    case Some((fs, rest)) =>
      if rest == [] then Some([fs])
      else if rest[0] == '\n' then
        match ParseRows(rest[1..])
        case None => None
        case Some(rows) => Some([fs] + rows)
      else None
  }

  /** Reads a whole export: the header, then the rows. */
  function ParseCsv(s: string): Option<seq<seq<string>>> {
    if s == Header then Some([])
    else if |s| > |Header| && s[..|Header| + 1] == Header + "\n" then ParseRows(s[|Header| + 1..])
    else None
  }

  /** The lines of a list of rows. */
  function Lines(rows: seq<seq<string>>): (r: seq<string>)
    ensures |r| == |rows| && forall k :: 0 <= k < |rows| ==> r[k] == Line(rows[k])
  {
    seq(|rows|, k requires 0 <= k < |rows| => Line(rows[k]))
  }

  lemma LinesCons(rows: seq<seq<string>>)
    requires |rows| >= 2
    ensures Join(Lines(rows), "\n") == Line(rows[0]) + ("\n" + Join(Lines(rows[1..]), "\n"))
  {
    assert Lines(rows)[1..] == Lines(rows[1..]);
  }

  /** A row followed by a line break and more rows. */
  lemma ParseRowsCons(fields: seq<string>, more: string)
    requires fields != []
    ensures ParseRows(Line(fields) + ("\n" + more)) ==
      match ParseRows(more)
      case None => None
      case Some(rows) => Some([fields] + rows)
  {
    ParseLine(fields, "\n" + more);
    assert ("\n" + more)[1..] == more;
  }

  lemma {:induction false} ParseRowsLines(rows: seq<seq<string>>)
    requires rows != []
    requires forall k :: 0 <= k < |rows| ==> rows[k] != []
    ensures ParseRows(Join(Lines(rows), "\n")) == Some(rows)
  {
    if |rows| == 1 {
      ParseLine(rows[0], "");
      assert Join(Lines(rows), "\n") == Line(rows[0]) + "";
      assert rows == [rows[0]];
    } else {
      var more := Join(Lines(rows[1..]), "\n");
      calc {
        ParseRows(Join(Lines(rows), "\n"));
        { LinesCons(rows); }
        ParseRows(Line(rows[0]) + ("\n" + more));
        { ParseRowsCons(rows[0], more); }
        (match ParseRows(more) case None => None case Some(rs) => Some([rows[0]] + rs));
        { ParseRowsLines(rows[1..]); }
        Some([rows[0]] + rows[1..]);
        { assert [rows[0]] + rows[1..] == rows; }
        Some(rows);
      }
    }
  }

  /** The fields of every analysis to write. */
  function AllFields(input: Input, render: real -> string): (r: seq<seq<string>>)
    ensures |r| == |Records(input)|
  {
    var rs := Records(input);
    seq(|rs|, k requires 0 <= k < |rs| => Fields(rs[k], render))
  }

  lemma JoinFront(h: string, parts: seq<string>, sep: string)
    requires parts != []
    ensures Join([h] + parts, sep) == h + (sep + Join(parts, sep))
  {
    assert ([h] + parts)[1..] == parts;
  }

  /** With analyses to write, the export is the header, a line break and their lines. */
  lemma BuildCsvLines(input: Input, render: real -> string)
    requires Records(input) != []
    ensures BuildCsv(input, render) == Header + ("\n" + Join(Lines(AllFields(input, render)), "\n"))
  {
    var rs := Records(input);
    var lines := seq(|rs|, k requires 0 <= k < |rs| => Row(rs[k], render));
    assert lines == Lines(AllFields(input, render));
    JoinFront(Header, lines, "\n");
  }

  lemma FrontAndBack(h: string, body: string)
    ensures (h + ("\n" + body))[..|h| + 1] == h + "\n"
    ensures (h + ("\n" + body))[|h| + 1..] == body
  {
  }

  lemma ParseAfterHeader(body: string)
    ensures ParseCsv(Header + ("\n" + body)) == ParseRows(body)
  {
    FrontAndBack(Header, body);
  }

  /** An export reads back as, per analysis in order, its eight fields; with no analysis it is
      the header alone. */
  lemma CsvRoundTrip(input: Input, render: real -> string)
    ensures ParseCsv(BuildCsv(input, render)) == Some(AllFields(input, render))
  {
    if Records(input) == [] {
      assert BuildCsv(input, render) == Join([Header], "\n");
    } else {
      var rows := AllFields(input, render);
      BuildCsvLines(input, render);
      ParseAfterHeader(Join(Lines(rows), "\n"));
      ParseRowsLines(rows);
    }
  }

  /** A lone analysis is written as a list of one, and an empty list as the header alone. */
  lemma BuildCsvShapes(a: Record, render: real -> string)
    ensures BuildCsv(One(a), render) == BuildCsv(Many([a]), render)
    ensures BuildCsv(Many([]), render) == Header
  {
    var none: seq<Record> := [];
    assert [Header] + seq(|none|, k requires 0 <= k < |none| => Row(none[k], render)) == [Header];
  }
}
