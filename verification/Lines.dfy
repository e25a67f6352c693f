/**
What loading makes of any table file, said line by line, and what the CSV parser of a line put together
from plain and quoted parts.
*/
module Lines {
  import opened Wrappers
  import opened Csv
  import opened TableFiles

  // ---------- Files as lines ----------

  /** Some characters and then a line feed; the last line of a file may lack that. */
  predicate IsLine(line: string, last: bool) {
    line != "" && (forall i :: 0 <= i < |line| - 1 ==> line[i] != '\n') && (last || line[|line| - 1] == '\n')
  }

  predicate AreLines(lines: seq<string>) {
    forall i :: 0 <= i < |lines| ==> IsLine(lines[i], i == |lines| - 1)
  }

  function Joined(lines: seq<string>): string {
    if lines == [] then "" else lines[0] + Joined(lines[1..])
  }

  /** Nothing in the line, or nothing before its first break. */
  predicate Blank(line: string) {
    line != "" && (line[0] == '\n' || line[0] == '\r')
  }

  lemma {:induction false} LineEnds(front: string, line: string, rest: string)
    requires IsLine(line, rest == "")
    ensures LineEnd(front + (line + rest), |front|) == |front| + |line|
    ensures LineAt(front + (line + rest), |front|) == line
  {
    var file := front + (line + rest);
    LineEndsFrom(file, |front|, line, rest);
    hide LineEnd;
    assert file[|front|..|front| + |line|] == line;
  }

  lemma {:induction false} LineEndsFrom(file: string, pos: nat, line: string, rest: string)
    requires pos <= |file| && file[pos..] == line + rest && IsLine(line, rest == "")
    ensures LineEnd(file, pos) == pos + |line|
    decreases |line|
  {
    assert file[pos] == file[pos..][0] == line[0];
    if |line| > 1 {
      assert line[0] != '\n';
      assert file[pos + 1..] == file[pos..][1..] == line[1..] + rest;
      LineEndsFrom(file, pos + 1, line[1..], rest);
    } else if line[0] != '\n' {
      assert rest == "" && |file[pos..]| == 1;
    }
  }

  /** Any file is such lines. */
  lemma {:induction false} SplitLines(file: string) returns (lines: seq<string>)
    ensures AreLines(lines) && Joined(lines) == file
  {
    if file == "" {
      lines := [];
    } else {
      var n := FirstLine(file);
      var rest := SplitLines(file[n..]);
      lines := [file[..n]] + rest;
      assert lines[1..] == rest && file == file[..n] + file[n..];
      assert rest == [] ==> file[n..] == "";
    }
  }

  lemma {:induction false} FirstLine(file: string) returns (n: nat)
    requires file != ""
    ensures 0 < n <= |file| && IsLine(file[..n], n == |file|)
  {
    if file[0] == '\n' || |file| == 1 {
      n := 1;
    } else {
      n := FirstLine(file[1..]);
      n := n + 1;
      assert file[..n][1..] == file[1..][..n - 1];
      assert forall i :: 1 <= i < n ==> file[..n][i] == file[1..][..n - 1][i - 1];
    }
  }

  // ---------- What the rows are ----------

  /** The lines that are not blank and can be parsed, as rows with the places they start at. */
  function RowsOf(lines: seq<string>, pos: nat): seq<Placed> {
    if lines == [] then []
    else
      (if Blank(lines[0]) || ParsedLine(lines[0]).Err? then [] else [Placed(ParsedLine(lines[0]).value, pos)]) +
      RowsOf(lines[1..], pos + |lines[0]|)
  }

  /** The line is blank, or has that many fields. */
  predicate LineFits(line: string, count: nat) {
    Blank(line) || (ParsedLine(line).Ok? && |ParsedLine(line).value| == count)
  }

  predicate LinesFit(lines: seq<string>, count: nat) {
    forall line <- lines :: LineFits(line, count)
  }

  lemma FitsFirst(lines: seq<string>, count: nat)
    requires lines != []
    ensures LinesFit(lines, count) <==> LineFits(lines[0], count) && LinesFit(lines[1..], count)
  {
    assert lines == [lines[0]] + lines[1..];
    hide LineFits;
  }

  /** The rows are read if every line fits; else the first line that does not is the error. */
  lemma {:induction false} RowsOfLines(front: string, lines: seq<string>, count: nat)
    requires AreLines(lines)
    ensures RowsFrom(front + Joined(lines), |front|, count).Ok? <==> LinesFit(lines, count)
    ensures LinesFit(lines, count) ==> RowsFrom(front + Joined(lines), |front|, count) == Ok(RowsOf(lines, |front|))
    decreases |lines|
  {
    hide *;
    if lines == [] {
      NoLines(front, count);
    } else {
      var line, rest := lines[0], Joined(lines[1..]);
      JoinedFirst(lines, |front|);
      Regrouped(front, line, rest);
      NoMore(lines);
      LineEnds(front, line, rest);
      RowsOfLines(front + line, lines[1..], count);
      FitsFirst(lines, count);
      FitsIs(line, count);
      RowsStep(front + (line + rest), |front|, line, count);
      var more := RowsOf(lines[1..], |front| + |line|);
      assert [] + more == more;
    }
  }

  lemma NoLines(front: string, count: nat)
    ensures LinesFit([], count) && RowsFrom(front + Joined([]), |front|, count) == Ok(RowsOf([], |front|))
  {
    assert front + "" == front;
  }

  lemma JoinedFirst(lines: seq<string>, pos: nat)
    requires lines != []
    ensures Joined(lines) == lines[0] + Joined(lines[1..])
    ensures RowsOf(lines, pos) ==
      (if Blank(lines[0]) || ParsedLine(lines[0]).Err? then [] else [Placed(ParsedLine(lines[0]).value, pos)]) +
      RowsOf(lines[1..], pos + |lines[0]|)
  {
    hide Blank, ParsedLine;
  }

  lemma FitsIs(line: string, count: nat)
    ensures LineFits(line, count) <==>
      Blank(line) || (ParsedLine(line).Ok? && |ParsedLine(line).value| == count)
  {
    hide Blank, ParsedLine;
  }

  lemma NoMore(lines: seq<string>)
    requires AreLines(lines) && lines != []
    ensures AreLines(lines[1..]) && IsLine(lines[0], Joined(lines[1..]) == "") && lines[0] != ""
  {
    if |lines| > 1 {
      assert IsLine(lines[1], |lines| == 2);
    }
  }

  lemma RowsStep(file: string, pos: nat, line: string, count: nat)
    requires pos < |file| && LineAt(file, pos) == line
    ensures var rest := RowsFrom(file, LineEnd(file, pos), count);
      RowsFrom(file, pos, count) ==
        if Blank(line) then rest
        else if ParsedLine(line).Err? then Err(MalformedLine)
        else if |ParsedLine(line).value| != count then Err(CorruptedRow)
        else if rest.Err? then rest
        else Ok([Placed(ParsedLine(line).value, pos)] + rest.value)
  {
    hide LineAt, LineEnd, ParsedLine;
  }

  /** Reading at an offset, wherever that is in the file: what the rest of its line parses to, if that is as
      wide as asked for; a negative width asks for nothing. */
  lemma {:induction false} RowAtExact(front: string, line: string, rest: string, count: int)
    requires IsLine(line, rest == "")
    ensures RowAt(front + (line + rest), |front|, count).Ok? <==>
      ParsedLine(line).Ok? && (count >= 0 ==> |ParsedLine(line).value| == count)
    ensures RowAt(front + (line + rest), |front|, count).Ok? ==>
      RowAt(front + (line + rest), |front|, count).value == ParsedLine(line).value
    ensures RowAt(front, |front|, count).Err? && RowAt(front, -1 - |rest|, count).Err?
  {
    LineEnds(front, line, rest);
    hide LineAt, LineEnd, ParsedLine;
  }

  /** The names of a header line. */
  predicate HeaderFits(line: string) {
    ParsedLine(line).Ok? && |ParsedLine(line).value| <= 32 &&
    forall name <- ParsedLine(line).value :: |name| < 64
  }

  /** What loading makes of a file, line by line: the first line is the header, every other that is not
      blank is a row, with the place it starts at; all are parsed, and must be as wide as the header. */
  lemma {:induction false} LoadedLines(lines: seq<string>)
    requires AreLines(lines)
    ensures lines == [] ==> Loaded(Joined(lines)) == Ok(TableData([], [], []))
    ensures lines != [] ==>
      (Loaded(Joined(lines)).Ok? <==>
       HeaderFits(lines[0]) && LinesFit(lines[1..], |ParsedLine(lines[0]).value|))
    ensures lines != [] && Loaded(Joined(lines)).Ok? ==>
      var table, placed := Loaded(Joined(lines)).value, RowsOf(lines[1..], |lines[0]|);
      table.columns == ParsedLine(lines[0]).value && |table.rows| == |table.offsets| == |placed| &&
      forall i :: 0 <= i < |placed| ==> placed[i] == Placed(table.rows[i], table.offsets[i])
  {
    var file := Joined(lines);
    if lines == [] {
      assert DataOf([], []) == TableData([], [], []);
    } else {
      var line, rest := lines[0], Joined(lines[1..]);
      assert file == "" + (line + rest);
      NoMore(lines);
      LineEnds("", line, rest);
      HeaderIs(file, line);
      if HeaderFits(line) {
        RowsOfLines(line, lines[1..], |ParsedLine(line).value|);
      }
      hide RowsFrom, LineEnd, LineAt, LinesFit, ParsedLine, Header, HeaderFits;
    }
  }

  lemma HeaderIs(file: string, line: string)
    requires file != "" && LineAt(file, 0) == line
    ensures Header(file).Ok? <==> HeaderFits(line)
    ensures Header(file).Ok? ==> Header(file).value == ParsedLine(line).value
  {
    hide LineAt, ParsedLine;
    if ParsedLine(line).Ok? {
      var names := ParsedLine(line).value;
      assert (forall name <- names :: |name| < 64) <==> forall i :: 0 <= i < |names| ==> |names[i]| < 64;
    }
  }

  // ---------- Lines of plain and quoted parts ----------

  datatype Part = Plain(text: string) | Quoted(text: string)

  /** Plain text without quotes, commas and breaks, or any without breaks between quotes, its own doubled. */
  function PartText(part: Part): string {
    match part
    case Plain(text) => text
    case Quoted(text) => "\"" + Escaped(text) + "\""
  }

  predicate PartFits(part: Part) {
    match part
    case Plain(text) => text != "" && !NeedsQuotes(text)
    case Quoted(text) => Clean(text)
  }

  /** Parts in a row; two quoted ones need something between them. */
  predicate PartsFit(parts: seq<Part>) {
    (forall part <- parts :: PartFits(part)) &&
    forall i :: 0 <= i < |parts| - 1 ==> parts[i].Plain? || parts[i + 1].Plain?
  }

  function PartsText(parts: seq<Part>): string {
    if parts == [] then "" else PartText(parts[0]) + PartsText(parts[1..])
  }

  function PartsValue(parts: seq<Part>): string {
    if parts == [] then "" else parts[0].text + PartsValue(parts[1..])
  }

  /** A quote opens wherever it stands, and what is quoted and what is not is put together. */
  lemma {:induction false} PartsRead(parts: seq<Part>, rest: string, current: string)
    requires PartsFit(parts) && (rest == "" || rest[0] != '"')
    ensures FieldsFrom(PartsText(parts) + rest, false, current) == FieldsFrom(rest, false, current + PartsValue(parts))
    decreases |parts|
  {
    hide *;
    if parts == [] {
      NoParts(rest, current);
    } else {
      var part, more := parts[0], PartsText(parts[1..]) + rest;
      PartsFirst(parts, rest, current);
      if part.Quoted? {
        AfterPart(parts, rest);
      }
      PartReads(part, more, current);
      PartsRead(parts[1..], rest, current + part.text);
    }
  }

  lemma NoParts(rest: string, current: string)
    ensures PartsText([]) + rest == rest && current + PartsValue([]) == current
  {
  }

  lemma PartsFirst(parts: seq<Part>, rest: string, current: string)
    requires PartsFit(parts) && parts != []
    ensures PartFits(parts[0]) && PartsFit(parts[1..])
    ensures PartsText(parts) + rest == PartText(parts[0]) + (PartsText(parts[1..]) + rest)
    ensures current + PartsValue(parts) == current + parts[0].text + PartsValue(parts[1..])
  {
    hide PartFits, PartText;
  }

  lemma {:induction false} PartReads(part: Part, more: string, current: string)
    requires PartFits(part) && (part.Quoted? && more != "" ==> more[0] != '"')
    ensures FieldsFrom(PartText(part) + more, false, current) == FieldsFrom(more, false, current + part.text)
  {
    match part {
      case Plain(text) => PlainReads(text, more, current); hide FieldsFrom;
      case Quoted(text) =>
        var inner := Escaped(text) + "\"" + more;
        var s := PartText(part) + more;
        assert s == "\"" + inner && s[0] == '"' && s[1..] == inner;
        QuotedReads(text, more, current);
        hide Clean, Escaped;
    }
  }

  lemma AfterPart(parts: seq<Part>, rest: string)
    requires PartsFit(parts) && parts != [] && (rest == "" || rest[0] != '"') && parts[0].Quoted?
    ensures var more := PartsText(parts[1..]) + rest; more != "" ==> more[0] != '"'
  {
    if |parts| > 1 {
      var next := parts[1];
      assert next in parts && next.Plain? && PartFits(next);
      assert !IsSpecial(next.text[0]);
      assert parts[1..][0] == next && PartsText(parts[1..]) == next.text + PartsText(parts[1..][1..]);
    }
  }

  function FieldsText(fields: seq<seq<Part>>): string {
    if fields == [] then ""
    else if |fields| == 1 then PartsText(fields[0])
    else PartsText(fields[0]) + ("," + FieldsText(fields[1..]))
  }

  function FieldsValue(fields: seq<seq<Part>>): seq<string> {
    seq(|fields|, i requires 0 <= i < |fields| => PartsValue(fields[i]))
  }

  lemma FieldsSplit(fields: seq<seq<Part>>, rest: string)
    requires |fields| > 1
    ensures FieldsText(fields) + rest == PartsText(fields[0]) + ("," + (FieldsText(fields[1..]) + rest))
    ensures FieldsValue(fields) == [PartsValue(fields[0])] + FieldsValue(fields[1..])
  {
    hide PartsText, PartsValue;
    assert FieldsText(fields) == PartsText(fields[0]) + ("," + FieldsText(fields[1..]));
    hide *;
    CommaMoved(PartsText(fields[0]), FieldsText(fields[1..]), rest);
  }

  lemma CommaMoved(a: string, b: string, c: string)
    ensures a + ("," + b) + c == a + ("," + (b + c))
  {
  }

  lemma CommaReads(rest: string, current: string)
    ensures FieldsFrom("," + rest, false, current) == Consed(current, FieldsFrom(rest, false, ""))
  {
    var s := "," + rest;
    assert s[0] == ',' && s[1..] == rest;
  }

  lemma BreakReads(rest: string, current: string)
    requires rest != "" ==> IsBreak(rest[0])
    ensures FieldsFrom(rest, false, current) == Ok([current])
  {
  }

  lemma FieldsOne(fields: seq<seq<Part>>)
    requires |fields| == 1
    ensures FieldsText(fields) == PartsText(fields[0]) && FieldsValue(fields) == [PartsValue(fields[0])]
  {
    hide PartsText, PartsValue;
  }

  lemma NoQuote(rest: string)
    requires rest != "" ==> IsBreak(rest[0])
    ensures rest != "" ==> rest[0] != '"'
  {
  }

  lemma ConsedOk(first: string, rest: seq<string>)
    ensures Consed(first, Ok(rest)) == Ok([first] + rest)
  {
  }

  lemma {:induction false} FieldsRead(fields: seq<seq<Part>>, rest: string)
    requires fields != [] && (forall parts <- fields :: PartsFit(parts)) && (rest != "" ==> IsBreak(rest[0]))
    ensures FieldsFrom(FieldsText(fields) + rest, false, "") == Ok(FieldsValue(fields))
  {
    hide *;
    var value := PartsValue(fields[0]);
    assert "" + value == value;
    assert PartsFit(fields[0]);
    NoQuote(rest);
    if |fields| == 1 {
      FieldsOne(fields);
      PartsRead(fields[0], rest, "");
      BreakReads(rest, value);
    } else {
      var more := FieldsText(fields[1..]) + rest;
      FieldsSplit(fields, rest);
      PartsRead(fields[0], "," + more, "");
      CommaReads(more, value);
      FieldsRead(fields[1..], rest);
      ConsedOk(value, FieldsValue(fields[1..]));
    }
  }

  /** Any line of fields put together from such parts is read as what the parts stand for, up to its first
      break. */
  lemma {:induction false} PartedLine(fields: seq<seq<Part>>, rest: string)
    requires fields != [] && (forall parts <- fields :: PartsFit(parts)) && (rest != "" ==> IsBreak(rest[0]))
    ensures ParsedLine(FieldsText(fields) + rest) == Ok(FieldsValue(fields))
  {
    FieldsRead(fields, rest);
    hide FieldsFrom, FieldsText, FieldsValue;
  }
}
