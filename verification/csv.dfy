/** The dashboard's CSV export of the rows it shows. Every value is enclosed
    in double quotes and each `"` inside it is doubled (rules 5 to 7 of
    section 2 of RFC 4180); lines are joined with a bare line feed rather than
    the CRLF of rule 1 of that section, and the header line is not quoted.
    A reader for that format is given too, so that the export can be shown to
    read back as the header followed by the exported rows. */
module Csv {
  import opened Wrappers
  import opened StudentSchema
  import opened RecordStore

  const Header: seq<string> := ["Name", "Email", "Phone", "Course", "Status"]

  /** The text with every `"` doubled. */
  function DoubleQuotes(s: string): string {
    if s == [] then []
    else (if s[0] == '"' then "\"\"" else [s[0]]) + DoubleQuotes(s[1..])
  }

  /** The export's `escape`: the value in double quotes, inner quotes doubled. */
  function Escape(v: string): (e: string)
    ensures |e| >= 2 && e[0] == '"' && e[|e| - 1] == '"'
  {
    "\"" + DoubleQuotes(v) + "\""
  }

  /** `parts.join(sep)`. */
  function Join(sep: string, parts: seq<string>): string {
    if |parts| == 0 then ""
    else if |parts| == 1 then parts[0]
    else parts[0] + sep + Join(sep, parts[1..])
  }

  /** A value as written: quoted and escaped, or as it is. */
  function Cell(v: string, quoted: bool): string {
    if quoted then Escape(v) else v
  }

  function Cells(vs: seq<string>, quoted: bool): seq<string> {
    if vs == [] then [] else [Cell(vs[0], quoted)] + Cells(vs[1..], quoted)
  }

  /** The five exported values of a record, in header order. */
  function RowFields(r: Record): seq<string> {
    [r.student.name, r.student.email, r.student.phone, r.student.course, r.student.status]
  }

  function Row(r: Record): string {
    Join(",", Cells(RowFields(r), true))
  }

  function RowLines(rows: seq<Record>): seq<string> {
    if rows == [] then [] else [Row(rows[0])] + RowLines(rows[1..])
  }

  /** The values of each row, in order. */
  function RowTable(rows: seq<Record>): seq<seq<string>> {
    if rows == [] then [] else [RowFields(rows[0])] + RowTable(rows[1..])
  }

  /** The export of the shown rows: nothing when there are none, otherwise
      the header line and one line per row, joined by line feeds. */
  function Export(rows: seq<Record>): (csv: Option<string>)
    ensures csv.None? <==> rows == []
  {
    if rows == [] then None
    else Some(Join("\n", [Join(",", Header)] + RowLines(rows)))
  }

  // A reader for the format.

  /** The rest of a quoted field after its opening quote: the value up to the
      first quote that is not doubled, and the text after that quote. */
  function QuotedTail(s: string): (res: Option<(string, string)>)
    ensures res.Some? ==> |res.value.1| < |s|
  {
    if s == [] then None
    else if s[0] == '"' then
      if |s| > 1 && s[1] == '"' then
        match QuotedTail(s[2..])
        case None => None
        case Some((v, rest)) => Some(("\"" + v, rest))
      else Some(([], s[1..]))
    else
      match QuotedTail(s[1..])
      case None => None
      case Some((v, rest)) => Some(([s[0]] + v, rest))
  }

  /** An unquoted field: everything up to the next comma or line feed. */
  function PlainField(s: string): (res: (string, string))
    ensures res.0 + res.1 == s
  {
    if s == [] || s[0] == ',' || s[0] == '\n' then ([], s)
    else
      var (v, rest) := PlainField(s[1..]);
      ([s[0]] + v, rest)
  }

  function Field(s: string): (res: Option<(string, string)>)
    ensures res.Some? ==> |res.value.1| <= |s|
  {
    if |s| > 0 && s[0] == '"' then QuotedTail(s[1..])
    else
      var p := PlainField(s);
      assert |p.0 + p.1| == |s|;
      Some(p)
  }

  /** One line of fields, the text after it, and whether a line feed ended it
      (rather than the end of the text). */
  datatype Line = Line(fields: seq<string>, rest: string, more: bool)

  function ParseLine(s: string): (res: Option<Line>)
    ensures res.Some? ==> |res.value.rest| <= |s|
    ensures res.Some? && res.value.more ==> |res.value.rest| < |s|
    decreases |s|
  {
    match Field(s)
    case None => None
    case Some((v, r)) =>
      if r == [] then Some(Line([v], [], false))
      else if r[0] == '\n' then Some(Line([v], r[1..], true))
      else if r[0] == ',' then
        match ParseLine(r[1..])
        case None => None
        case Some(l) => Some(Line([v] + l.fields, l.rest, l.more))
      else None
  }

  /** Reads a whole text as lines of fields. */
  function Parse(s: string): Option<seq<seq<string>>>
    decreases |s|
  {
    match ParseLine(s)
    case None => None
    case Some(l) =>
      if !l.more then Some([l.fields])
      else
        match Parse(l.rest)
        case None => None
        case Some(ls) => Some([l.fields] + ls)
  }

  /** Undoes `Escape`: drops the enclosing quotes and collapses `""` to `"`. */
  function Unescape(e: string): Option<string> {
    if |e| > 0 && e[0] == '"' then
      match QuotedTail(e[1..])
      case Some((v, rest)) => if rest == [] then Some(v) else None
      case None => None
    else None
  }

  lemma {:induction false} QuotedTailOfDoubled(v: string, t: string)
    requires t == [] || t[0] != '"'
    ensures QuotedTail(DoubleQuotes(v) + "\"" + t) == Some((v, t))
    decreases |v|
  {
    var s := DoubleQuotes(v) + "\"" + t;
    if v == [] {
      assert s == "\"" + t;
    } else {
      QuotedTailOfDoubled(v[1..], t);
      if v[0] == '"' {
        assert s[2..] == DoubleQuotes(v[1..]) + "\"" + t;
      } else {
        assert s[1..] == DoubleQuotes(v[1..]) + "\"" + t;
      }
      assert v == [v[0]] + v[1..];
    }
  }

  /** Escaping round-trips: unescaping an escaped value gives it back. */
  lemma EscapeRoundTrip(v: string)
    ensures Unescape(Escape(v)) == Some(v)
  {
    QuotedTailOfDoubled(v, []);
    assert Escape(v)[1..] == DoubleQuotes(v) + "\"" + [];
  }

  /** A value that can go unquoted: no comma, no line feed, no leading quote. */
  predicate Plain(v: string) {
    && (v == [] || v[0] != '"')
    && forall i | 0 <= i < |v| :: v[i] != ',' && v[i] != '\n'
  }

  /** What may follow a field: the end, a comma or a line feed. */
  predicate FieldEnd(t: string) {
    t == [] || t[0] == ',' || t[0] == '\n'
  }

  lemma {:induction false} PlainFieldOf(v: string, t: string)
    requires forall i | 0 <= i < |v| :: v[i] != ',' && v[i] != '\n'
    requires FieldEnd(t)
    ensures PlainField(v + t) == (v, t)
    decreases |v|
  {
    if v != [] {
      assert (v + t)[0] == v[0];
      assert (v + t)[1..] == v[1..] + t;
      PlainFieldOf(v[1..], t);
      assert v == [v[0]] + v[1..];
    } else {
      assert v + t == t;
    }
  }

  lemma FieldOf(v: string, quoted: bool, t: string)
    requires quoted || Plain(v)
    requires FieldEnd(t)
    ensures Field(Cell(v, quoted) + t) == Some((v, t))
  {
    if quoted {
      var s := Escape(v) + t;
      assert s == "\"" + (DoubleQuotes(v) + "\"" + t);
      assert s[1..] == DoubleQuotes(v) + "\"" + t;
      QuotedTailOfDoubled(v, t);
    } else {
      PlainFieldOf(v, t);
      assert v + t == [] || (v + t)[0] != '"' by {
        if v != [] {
          assert (v + t)[0] == v[0];
        } else {
          assert v + t == t;
        }
      }
    }
  }

  lemma JoinCons(sep: string, parts: seq<string>)
    requires |parts| >= 2
    ensures Join(sep, parts) == parts[0] + sep + Join(sep, parts[1..])
  {
  }

  /** A field followed by a comma reads as that field in front of the fields
      read after the comma. */
  lemma ParseLineCons(s: string, v: string, r: string)
    requires Field(s) == Some((v, "," + r))
    requires ParseLine(r).Some?
    ensures ParseLine(s) == Some(Line([v] + ParseLine(r).value.fields, ParseLine(r).value.rest, ParseLine(r).value.more))
  {
    assert ("," + r)[1..] == r;
  }

  /** Writing two or more values puts the first cell, then a comma, in front
      of the line written from the rest. */
  lemma CellsJoinCons(vs: seq<string>, quoted: bool, t: string)
    requires |vs| >= 2
    ensures Join(",", Cells(vs, quoted)) + t
         == Cell(vs[0], quoted) + ("," + (Join(",", Cells(vs[1..], quoted)) + t))
  {
    var cells := Cells(vs, quoted);
    assert cells == [Cell(vs[0], quoted)] + Cells(vs[1..], quoted);
    assert |Cells(vs[1..], quoted)| > 0;
    JoinCons(",", cells);
  }

  /** One more cell and a comma in front of a line that reads back reads
      back as one more value in front. */
  lemma LineOfCons(v: string, quoted: bool, rest: string, l: Line)
    requires quoted || Plain(v)
    requires ParseLine(rest) == Some(l)
    ensures ParseLine(Cell(v, quoted) + ("," + rest)) == Some(Line([v] + l.fields, l.rest, l.more))
  {
    FieldOf(v, quoted, "," + rest);
    ParseLineCons(Cell(v, quoted) + ("," + rest), v, rest);
  }

  /** A line written from values reads back as those values. */
  lemma {:induction false} LineOf(vs: seq<string>, quoted: bool, t: string)
    requires |vs| > 0
    requires forall i | 0 <= i < |vs| :: quoted || Plain(vs[i])
    requires t == [] || t[0] == '\n'
    ensures ParseLine(Join(",", Cells(vs, quoted)) + t)
         == Some(Line(vs, if t == [] then [] else t[1..], t != []))
    decreases |vs|
  {
    if |vs| == 1 {
      assert Cells(vs[1..], quoted) == [];
      assert Cells(vs, quoted) == [Cell(vs[0], quoted)];
      FieldOf(vs[0], quoted, t);
      assert vs == [vs[0]];
    } else {
      assert forall i | 0 <= i < |vs[1..]| :: vs[1..][i] == vs[i + 1];
      var rest := Join(",", Cells(vs[1..], quoted)) + t;
      CellsJoinCons(vs, quoted, t);
      LineOf(vs[1..], quoted, t);
      LineOfCons(vs[0], quoted, rest, Line(vs[1..], if t == [] then [] else t[1..], t != []));
      assert vs == [vs[0]] + vs[1..];
    }
  }

  /** Two or more row lines are the first, a line feed, and the rest. */
  lemma RowLinesJoinCons(rows: seq<Record>)
    requires |rows| >= 2
    ensures Join("\n", RowLines(rows)) == Row(rows[0]) + ("\n" + Join("\n", RowLines(rows[1..])))
  {
    var lines := RowLines(rows);
    var more := RowLines(rows[1..]);
    assert lines == [Row(rows[0])] + more;
    assert more == [Row(rows[1])] + RowLines(rows[2..]);
    assert lines[1..] == more;
    JoinCons("\n", lines);
  }

  /** A line ended by a line feed, in front of text that reads back, reads
      back as one more line in front. */
  lemma ParseCons(s: string, fields: seq<string>, tail: string, ls: seq<seq<string>>)
    requires ParseLine(s) == Some(Line(fields, tail, true))
    requires Parse(tail) == Some(ls)
    ensures Parse(s) == Some([fields] + ls)
  {
  }

  /** The exported row lines read back as the rows' values. */
  lemma {:induction false} RowsReadBack(rows: seq<Record>)
    requires |rows| > 0
    ensures Parse(Join("\n", RowLines(rows))) == Some(RowTable(rows))
    decreases |rows|
  {
    var fields := RowFields(rows[0]);
    var line := Join(",", Cells(fields, true));
    if |rows| == 1 {
      assert Join("\n", RowLines(rows)) == line + [] by {
        assert RowLines(rows) == [Row(rows[0])];
      }
      LineOf(fields, true, []);
      assert RowTable(rows) == [fields];
    } else {
      var s := Join("\n", RowLines(rows));
      var tail := Join("\n", RowLines(rows[1..]));
      assert s == line + ("\n" + tail) by {
        RowLinesJoinCons(rows);
      }
      assert ParseLine(s) == Some(Line(fields, tail, true)) by {
        LineOf(fields, true, "\n" + tail);
        assert ("\n" + tail)[1..] == tail;
      }
      assert Parse(tail) == Some(RowTable(rows[1..])) by {
        RowsReadBack(rows[1..]);
      }
      ParseCons(s, fields, tail, RowTable(rows[1..]));
      assert RowTable(rows) == [fields] + RowTable(rows[1..]);
    }
  }

  lemma HeaderPlain()
    ensures forall i | 0 <= i < |Header| :: Plain(Header[i])
  {
    assert Plain("Name") && Plain("Email") && Plain("Phone") && Plain("Course") && Plain("Status");
  }

  /** The export reads back as the header followed by one line of five
      values per exported row, in order. */
  lemma ExportReadsBack(rows: seq<Record>)
    ensures Export(rows).Some? ==> Parse(Export(rows).value) == Some([Header] + RowTable(rows))
  {
    if rows == [] {
      return;
    }
    var lines := [Join(",", Header)] + RowLines(rows);
    var tail := Join("\n", RowLines(rows));
    assert lines[1..] == RowLines(rows);
    assert Export(rows).value == Join(",", Header) + ("\n" + tail);
    HeaderPlain();
    assert Cells(Header, false) == Header;
    LineOf(Header, false, "\n" + tail);
    RowsReadBack(rows);
  }
}
