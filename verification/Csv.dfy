/**
The CSV cells and lines of src/storage.c: the writer, the parser, and when the one undoes the other
(section 2 of RFC 4180).
*/
module Csv {
  import opened Wrappers

  datatype CsvError = Malformed

  predicate IsBreak(c: char) {
    c == '\n' || c == '\r'
  }

  /** Free of line breaks: what a cell must be to survive. */
  predicate Clean(value: string) {
    forall i :: 0 <= i < |value| ==> !IsBreak(value[i])
  }

  predicate CleanRow(row: seq<string>) {
    forall i :: 0 <= i < |row| ==> Clean(row[i])
  }

  // ---------- Writing ----------

  predicate IsSpecial(c: char) {
    c == ',' || c == '"' || IsBreak(c)
  }

  predicate NeedsQuotes(value: string) {
    exists i :: 0 <= i < |value| && IsSpecial(value[i])
  }

  function EscapedChar(c: char): string {
    if c == '"' then "\"\"" else [c]
  }

  /** The value with its quotes doubled. */
  function Escaped(value: string): string {
    if value == "" then ""
    else EscapedChar(value[0]) + Escaped(value[1..])
  }

  function Cell(value: string): string {
    if NeedsQuotes(value) then "\"" + Escaped(value) + "\"" else value
  }

  function Cells(values: seq<string>): string {
    if values == [] then ""
    else if |values| == 1 then Cell(values[0])
    else Cell(values[0]) + "," + Cells(values[1..])
  }

  function Line(values: seq<string>): string {
    Cells(values) + "\n"
  }

  lemma EscapedFirst(c: char, rest: string)
    ensures Escaped([c] + rest) == EscapedChar(c) + Escaped(rest)
  {
    assert ([c] + rest)[1..] == rest;
  }

  lemma Regrouped(a: string, b: string, c: string)
    ensures a + (b + c) == a + b + c && |a + b| == |a| + |b|
  {
  }

  lemma {:induction false} EscapedJoined(a: string, b: string)
    ensures Escaped(a + b) == Escaped(a) + Escaped(b)
  {
    if a == "" {
      assert a + b == b && Escaped(a) == "";
    } else {
      hide *;
      var c, rest := a[0], a[1..];
      assert a == [c] + rest;
      Regrouped([c], rest, b);
      EscapedFirst(c, rest);
      EscapedFirst(c, rest + b);
      EscapedJoined(rest, b);
      Regrouped(EscapedChar(c), Escaped(rest), Escaped(b));
    }
  }

  /** A cell is written as it is exactly if it has no comma, quote, line feed or carriage return; else
      between quotes, with its own quotes doubled wherever they stand. */
  lemma {:induction false} CellExact(a: string, c: char, b: string)
    ensures var value := a + ([c] + b);
      if exists i :: 0 <= i < |value| && value[i] as int in {44, 34, 10, 13} then
        Cell(value) == "\"" + (Escaped(a) + ((if c as int == 34 then [c, c] else [c]) + Escaped(b))) + "\""
      else Cell(value) == value
    ensures Escaped("") == ""
  {
    var value := a + ([c] + b);
    EscapedJoined(a, [c] + b);
    EscapedJoined([c], b);
    EscapedFirst(c, "");
    assert [c] + "" == [c];
    hide Escaped;
    assert forall i :: 0 <= i < |value| ==> (IsSpecial(value[i]) <==> value[i] as int in {44, 34, 10, 13});
  }

  lemma {:induction false} EscapedSnoc(value: string, i: nat)
    requires i < |value|
    ensures Escaped(value[..i + 1]) == Escaped(value[..i]) + EscapedChar(value[i])
    decreases i
  {
    if i == 0 {
      assert value[..1][1..] == "" && value[..0] == "";
      assert Escaped(value[..1]) == EscapedChar(value[0]) + "";
    } else {
      var tail := value[1..];
      EscapedSnoc(tail, i - 1);
      assert value[..i + 1][1..] == tail[..i] && value[..i][1..] == tail[..i - 1];
    }
  }

  /** storage_write_csv_value: what is appended to the file. */
  method WriteCsvValue(fp: string, value: string) returns (fp': string)
    ensures fp' == fp + Cell(value)
  {
    var i := 0;
    var needsQuotes := false;
    while i < |value|
      invariant i <= |value| && !needsQuotes && forall j :: 0 <= j < i ==> !IsSpecial(value[j])
    {
      if value[i] == ',' || value[i] == '"' || value[i] == '\n' || value[i] == '\r' {
        needsQuotes := true;
        break;
      }
      i := i + 1;
    }
    if !needsQuotes {
      return fp + value;
    }
    fp' := fp + ['"'];
    ghost var front := fp';
    i := 0;
    while i < |value|
      invariant i <= |value| && fp' == front + Escaped(value[..i])
    {
      EscapedSnoc(value, i);
      if value[i] == '"' {
        fp' := fp' + ['"'] + ['"'];
      } else {
        fp' := fp' + [value[i]];
      }
      i := i + 1;
    }
    assert value[..|value|] == value;
    fp' := fp' + ['"'];
    assert fp' == fp + ("\"" + Escaped(value) + "\"");
  }

  lemma {:induction false} CellsSnoc(values: seq<string>, i: nat)
    requires i < |values|
    ensures Cells(values[..i + 1]) == Cells(values[..i]) + (if i > 0 then "," else "") + Cell(values[i])
    decreases i
  {
    if i == 0 {
      assert values[..1] == [values[0]] && values[..0] == [];
    } else {
      var tail := values[1..];
      CellsSnoc(tail, i - 1);
      assert values[..i + 1][1..] == tail[..i] && values[..i][1..] == tail[..i - 1];
      if i == 1 {
        assert tail[..0] == [];
      }
    }
  }

  /** storage_write_csv_row. */
  method WriteCsvRow(fp: string, values: seq<string>) returns (fp': string)
    ensures fp' == fp + Line(values)
  {
    fp' := fp;
    var i := 0;
    while i < |values|
      invariant i <= |values| && fp' == fp + Cells(values[..i])
    {
      CellsSnoc(values, i);
      hide Cells, Cell;
      if i > 0 {
        fp' := fp' + [','];
      }
      fp' := WriteCsvValue(fp', values[i]);
      i := i + 1;
    }
    assert values[..|values|] == values;
    fp' := fp' + ['\n'];
  }

  // ---------- Parsing ----------

  function Consed(first: string, rest: Result<seq<string>, CsvError>): Result<seq<string>, CsvError> {
    match rest
    case Ok(fields) => Ok([first] + fields)
    case Err(e) => Err(e)
  }

  /** The fields from here on, in quotes or not, with the part of the current field read so far. */
  function FieldsFrom(s: string, inQuotes: bool, current: string): Result<seq<string>, CsvError>
    decreases |s|
  {
    if inQuotes then
      if s == "" || IsBreak(s[0]) then Err(Malformed)
      else if s[0] == '"' then
        if |s| > 1 && s[1] == '"' then FieldsFrom(s[2..], true, current + "\"") else FieldsFrom(s[1..], false, current)
      else FieldsFrom(s[1..], true, current + [s[0]])
    else if s == "" || IsBreak(s[0]) then Ok([current])
    else if s[0] == '"' then FieldsFrom(s[1..], true, current)
    else if s[0] == ',' then Consed(current, FieldsFrom(s[1..], false, ""))
    else FieldsFrom(s[1..], false, current + [s[0]])
  }

  function ParsedLine(line: string): Result<seq<string>, CsvError> {
    FieldsFrom(line, false, "")
  }

  /** The line comes to these fields, then what remains from position i on comes to. */
  ghost predicate ReadTo(line: string, i: nat, inQuotes: bool, fields: seq<string>, current: string) {
    i <= |line| && ParsedLine(line) == Joined(fields, FieldsFrom(line[i..], inQuotes, current))
  }

  function Joined(front: seq<string>, rest: Result<seq<string>, CsvError>): Result<seq<string>, CsvError> {
    match rest
    case Ok(fields) => Ok(front + fields)
    case Err(e) => Err(e)
  }

  lemma ReadStart(line: string)
    ensures ReadTo(line, 0, false, [], "")
  {
    assert line[0..] == line;
    var whole := ParsedLine(line);
    assert whole.Ok? ==> [] + whole.value == whole.value;
  }

  lemma {:induction false} ReadQuoted(line: string, i: nat, fields: seq<string>, current: string)
    requires ReadTo(line, i, true, fields, current)
    ensures
      if i == |line| || IsBreak(line[i]) then ParsedLine(line) == Err(Malformed)
      else if line[i] == '"' then
        if i + 1 < |line| && line[i + 1] == '"' then ReadTo(line, i + 2, true, fields, current + "\"")
        else ReadTo(line, i + 1, false, fields, current)
      else ReadTo(line, i + 1, true, fields, current + [line[i]])
  {
    hide ParsedLine;
    if i < |line| {
      assert line[i..][1..] == line[i + 1..];
      assert i + 1 < |line| ==> line[i..][2..] == line[i + 2..];
    }
  }

  lemma {:induction false} ReadPlain(line: string, i: nat, fields: seq<string>, current: string)
    requires ReadTo(line, i, false, fields, current)
    ensures
      if i == |line| || IsBreak(line[i]) then ParsedLine(line) == Ok(fields + [current])
      else if line[i] == '"' then ReadTo(line, i + 1, true, fields, current)
      else if line[i] == ',' then ReadTo(line, i + 1, false, fields + [current], "")
      else ReadTo(line, i + 1, false, fields, current + [line[i]])
  {
    hide ParsedLine;
    if i < |line| {
      assert line[i..][1..] == line[i + 1..];
      if line[i] == ',' {
        var rest := FieldsFrom(line[i + 1..], false, "");
        if rest.Ok? {
          assert fields + ([current] + rest.value) == fields + [current] + rest.value;
        }
      }
    }
  }

  /** storage_parse_csv_line. A quote switches quoting wherever it stands. */
  method ParseCsvLine(line: string) returns (r: Result<seq<string>, CsvError>)
    ensures r == ParsedLine(line)
  {
    var fields: seq<string> := [];
    var current := "";
    var inQuotes := false;
    var i := 0;
    ReadStart(line);
    hide ReadTo, ParsedLine;
    while true
      invariant i <= |line| && ReadTo(line, i, inQuotes, fields, current)
      decreases |line| - i
    {
      var atEnd := i == |line| || line[i] == '\n' || line[i] == '\r';
      if inQuotes {
        ReadQuoted(line, i, fields, current);
        if i < |line| && line[i] == '"' && i + 1 < |line| && line[i + 1] == '"' {
          current := current + ['"'];
          i := i + 2;
          continue;
        }
        if i < |line| && line[i] == '"' {
          inQuotes := false;
          i := i + 1;
          continue;
        }
        if atEnd {
          return Err(Malformed);
        }
        current := current + [line[i]];
        i := i + 1;
        continue;
      }
      ReadPlain(line, i, fields, current);
      if i < |line| && line[i] == '"' {
        inQuotes := true;
        i := i + 1;
        continue;
      }
      if atEnd || line[i] == ',' {
        fields := fields + [current];
        if atEnd {
          break;
        }
        current := "";
        i := i + 1;
        continue;
      }
      current := current + [line[i]];
      i := i + 1;
    }
    return Ok(fields);
  }

  /** The parser sees nothing behind the first line break. */
  lemma {:induction false} FieldsLocal(s: string, t: string, n: nat, inQuotes: bool, current: string)
    requires n < |s| && n < |t| && s[..n + 1] == t[..n + 1] && IsBreak(s[n])
    ensures FieldsFrom(s, inQuotes, current) == FieldsFrom(t, inQuotes, current)
    decreases n
  {
    SameFront(s, t, n);
    hide Consed;
    if n > 0 && !IsBreak(s[0]) {
      FieldsLocal(s[1..], t[1..], n - 1, true, current);
      FieldsLocal(s[1..], t[1..], n - 1, false, current);
      FieldsLocal(s[1..], t[1..], n - 1, true, current + [s[0]]);
      FieldsLocal(s[1..], t[1..], n - 1, false, current + [s[0]]);
      FieldsLocal(s[1..], t[1..], n - 1, false, "");
      if n > 1 {
        FieldsLocal(s[2..], t[2..], n - 2, true, current + "\"");
      }
    }
  }

  lemma SameFront(s: string, t: string, n: nat)
    requires n < |s| && n < |t| && s[..n + 1] == t[..n + 1]
    ensures forall i :: 0 <= i <= n ==> s[i] == t[i]
    ensures n > 0 ==> s[1..][..n] == t[1..][..n] && s[1..][n - 1] == s[n]
    ensures n > 1 ==> s[2..][..n - 1] == t[2..][..n - 1] && s[2..][n - 2] == s[n]
  {
    assert forall i :: 0 <= i <= n ==> s[i] == s[..n + 1][i] && t[i] == t[..n + 1][i];
  }

  // ---------- Round trip ----------

  predicate EndsCell(rest: string) {
    rest == "" || rest[0] == ',' || rest[0] == '\n'
  }

  lemma {:induction false} PlainReads(value: string, rest: string, current: string)
    requires !NeedsQuotes(value)
    ensures FieldsFrom(value + rest, false, current) == FieldsFrom(rest, false, current + value)
  {
    if value == "" {
      assert value + rest == rest && current + value == current;
    } else {
      assert !IsSpecial(value[0]);
      var s := value + rest;
      assert s[0] == value[0] && s[1..] == value[1..] + rest;
      PlainReads(value[1..], rest, current + [value[0]]);
      assert current + [value[0]] + value[1..] == current + value;
    }
  }

  lemma {:induction false} QuotedReads(value: string, rest: string, current: string)
    requires rest == "" || rest[0] != '"'
    ensures FieldsFrom(Escaped(value) + "\"" + rest, true, current) ==
      if Clean(value) then FieldsFrom(rest, false, current + value) else Err(Malformed)
  {
    var s := Escaped(value) + "\"" + rest;
    if value == "" {
      assert s == "\"" + rest && s[1..] == rest && current + value == current;
      assert |s| > 1 ==> s[1] == rest[0];
    } else {
      var tail := Escaped(value[1..]) + "\"" + rest;
      var c := value[0];
      assert Clean(value) <==> !IsBreak(c) && Clean(value[1..]) by {
        assert value == [c] + value[1..];
      }
      assert current + [c] + value[1..] == current + value;
      QuotedReads(value[1..], rest, current + [c]);
      if c == '"' {
        assert s == "\"\"" + tail && s[0] == '"' && s[1] == '"' && s[2..] == tail;
        assert current + "\"" == current + [c];
      } else {
        assert s == [c] + tail && s[0] == c && s[1..] == tail;
      }
      hide Clean;
    }
  }

  lemma {:induction false} CellReads(value: string, rest: string)
    requires EndsCell(rest)
    ensures FieldsFrom(Cell(value) + rest, false, "") ==
      if Clean(value) then FieldsFrom(rest, false, value) else Err(Malformed)
  {
    assert "" + value == value;
    if NeedsQuotes(value) {
      QuoteOpens(value, rest);
      QuotedReads(value, rest, "");
    } else {
      PlainClean(value);
      PlainReads(value, rest, "");
    }
    hide NeedsQuotes, Clean, FieldsFrom, Escaped, EndsCell;
  }

  lemma QuoteOpens(value: string, rest: string)
    requires NeedsQuotes(value)
    ensures FieldsFrom(Cell(value) + rest, false, "") == FieldsFrom(Escaped(value) + "\"" + rest, true, "")
  {
    hide NeedsQuotes, Escaped;
    var inner, s := Escaped(value) + "\"" + rest, Cell(value) + rest;
    assert s == "\"" + inner && s[0] == '"' && s[1..] == inner;
  }

  lemma PlainClean(value: string)
    requires !NeedsQuotes(value)
    ensures Clean(value)
  {
    assert forall i :: 0 <= i < |value| ==> !IsSpecial(value[i]);
  }

  /** A written row parses to the row exactly when no cell has a line break in it; and if one has,
      the parser reports a malformed line. */
  lemma {:induction false} RowReads(values: seq<string>)
    requires values != []
    ensures ParsedLine(Line(values)) == if CleanRow(values) then Ok(values) else Err(Malformed)
  {
    CellsRead(values, "\n");
  }

  lemma {:induction false} CellsRead(values: seq<string>, rest: string)
    requires values != [] && (rest == "" || rest[0] == '\n')
    ensures FieldsFrom(Cells(values) + rest, false, "") == if CleanRow(values) then Ok(values) else Err(Malformed)
  {
    var first := values[0];
    assert CleanRow(values) <==> Clean(first) && CleanRow(values[1..]) by {
      assert values == [first] + values[1..];
    }
    if |values| == 1 {
      CellReads(first, rest);
      assert values == [first];
    } else {
      var more := "," + (Cells(values[1..]) + rest);
      assert Cells(values) + rest == Cell(first) + more;
      CellReads(first, more);
      CellsRead(values[1..], rest);
      assert more[0] == ',' && more[1..] == Cells(values[1..]) + rest;
      assert [first] + values[1..] == values;
    }
    hide CleanRow, Clean;
  }

  /** Nothing else stands in the way: only the empty list of fields, written as an empty line, reads
      back as one empty field. */
  lemma {:induction false} RoundTrip(values: seq<string>)
    ensures ParsedLine(Line(values)) == Ok(values) <==> values != [] && CleanRow(values)
  {
    if values == [] {
      assert Line(values)[0] == '\n';
    } else {
      RowReads(values);
    }
  }
}
