/**
JSON strings in src/server.c: the writer for responses, the reader for requests (section 7 of
RFC 8259), and the search for the member named sql.
*/
module Json {
  import opened Wrappers
  import opened Text

  const KEY_SIZE: nat := 64

  // ---------- Writing ----------

  function HexDigit(d: nat): char
    requires d < 16
  {
    if d < 10 then ('0' as int + d) as char else ('a' as int + d - 10) as char
  }

  /** One byte as the writer escapes it. */
  function Escape(c: char): string {
    if c == '"' || c == '\\' then ['\\', c]
    else if c == '\n' then "\\n"
    else if c == '\r' then "\\r"
    else if c == '\t' then "\\t"
    else if c < ' ' then "\\u00" + [HexDigit(c as int / 16), HexDigit(c as int % 16)]
    else [c]
  }

  function HexValue(d: char): int {
    if '0' <= d <= '9' then d as int - 48 else if 'a' <= d <= 'f' then d as int - 87 else -1
  }

  /** What is written for a character has none below a space in it, and is: the quote and the backslash
      behind a backslash, the letter for line feed, carriage return and tab, the code in four hexadecimal
      digits for the others below a space, else the character. */
  lemma EscapeMeans(c: char)
    ensures forall x <- Escape(c) :: x as int >= 32
    ensures c as int == 34 || c as int == 92 ==> Escape(c) == [92 as char, c]
    ensures c as int == 10 ==> Escape(c) == [92 as char, 'n']
    ensures c as int == 13 ==> Escape(c) == [92 as char, 'r']
    ensures c as int == 9 ==> Escape(c) == [92 as char, 't']
    ensures c as int < 32 && c as int != 10 && c as int != 13 && c as int != 9 ==>
      |Escape(c)| == 6 && Escape(c)[..4] == [92 as char, 'u', '0', '0'] &&
      HexValue(Escape(c)[4]) * 16 + HexValue(Escape(c)[5]) == c as int &&
      0 <= HexValue(Escape(c)[4]) < 16 && 0 <= HexValue(Escape(c)[5]) < 16
    ensures c as int >= 32 && c as int != 34 && c as int != 92 ==> Escape(c) == [c]
  {
  }

  function Escaped(text: string): string {
    if text == "" then "" else Escape(text[0]) + Escaped(text[1..])
  }

  function Quoted(text: string): string {
    "\"" + Escaped(text) + "\""
  }

  lemma {:induction false} EscapedSnoc(text: string, i: nat)
    requires i < |text|
    ensures Escaped(text[..i + 1]) == Escaped(text[..i]) + Escape(text[i])
    decreases i
  {
    hide Escape;
    if i == 0 {
      assert text[..1][1..] == "" && text[..0] == "";
      assert Escaped(text[..1]) == Escape(text[0]) + "";
    } else {
      var tail := text[1..];
      EscapedSnoc(tail, i - 1);
      assert text[..i + 1][1..] == tail[..i] && text[..i][1..] == tail[..i - 1];
    }
  }

  /** One round of the loop of server_buffer_append_json_string. */
  method AppendEscaped(buffer: string, c: char) returns (r: string)
    ensures r == buffer + Escape(c)
  {
    if c == '"' || c == '\\' {
      r := buffer + ['\\'] + [c];
    } else if c == '\n' {
      r := buffer + "\\n";
    } else if c == '\r' {
      r := buffer + "\\r";
    } else if c == '\t' {
      r := buffer + "\\t";
    } else if c < ' ' {
      r := buffer + ("\\u00" + [HexDigit(c as int / 16), HexDigit(c as int % 16)]);
    } else {
      r := buffer + [c];
    }
  }

  /** server_buffer_append_json_string. */
  method AppendJsonString(buffer: string, text: string) returns (r: string)
    ensures r == buffer + Quoted(text)
  {
    r := buffer + ['"'];
    ghost var front := r;
    var i := 0;
    while i < |text|
      invariant i <= |text| && r == front + Escaped(text[..i])
    {
      EscapedSnoc(text, i);
      hide Escaped, Escape;
      r := AppendEscaped(r, text[i]);
      i := i + 1;
    }
    assert text[..|text|] == text;
    r := r + ['"'];
    assert r == buffer + ("\"" + Escaped(text) + "\"");
  }

  // ---------- Reading ----------

  datatype JsonRead = Read(value: string, used: nat) | Invalid | TooLong

  /** What a backslash and the next character stand for; \u and four more of anything, a question mark. */
  function Unescape(c: char): char {
    match c
    case 'n' => '\n'
    case 'r' => '\r'
    case 't' => '\t'
    case 'u' => '?'
    case _ => c
  }

  /** The character a text starts with, escapes undone, and how long it is; none at its end or where
      an escape is cut off. The text does not start with a quote. */
  datatype Unit = Unit(c: char, used: nat)

  function FirstUnit(s: string): (r: Option<Unit>)
    ensures r.Some? ==> 0 < r.value.used <= |s|
  {
    if s == "" then None
    else if s[0] != '\\' then Some(Unit(s[0], 1))
    else if |s| < 2 then None
    else if s[1] != 'u' then Some(Unit(Unescape(s[1]), 2))
    else if |s| < 6 then None
    else Some(Unit('?', 6))
  }

  function Longer(c: char, used: nat, rest: JsonRead): JsonRead {
    match rest
    case Read(value, n) => Read([c] + value, used + n)
    case _ => rest
  }

  /** The rest of a string after n characters, for room for `size` with the terminating NUL. */
  function ReadFrom(s: string, n: nat, size: nat): (r: JsonRead)
    ensures r.Read? ==> 0 < r.used <= |s|
    decreases |s|
  {
    if s != "" && s[0] == '"' then Read("", 1)
    else
      match FirstUnit(s)
      case None => Invalid
      case Some(u) => if n + 1 >= size then TooLong else Longer(u.c, u.used, ReadFrom(s[u.used..], n + 1, size))
  }

  /** A string that has to start with a quote. */
  function ReadQuoted(s: string, size: nat): (r: JsonRead)
    ensures r.Read? ==> 0 < r.used <= |s|
  {
    if size == 0 || s == "" || s[0] != '"' then Invalid
    else
      match ReadFrom(s[1..], 0, size)
      case Read(value, used) => Read(value, used + 1)
      case other => other
  }

  /** The string from `start` on is what has been read up to p and what follows. */
  ghost predicate ReadTo(s: string, start: nat, p: nat, out: string, size: nat) {
    start <= p <= |s| &&
    ReadFrom(s[start..], 0, size) ==
      match ReadFrom(s[p..], |out|, size)
      case Read(value, used) => Read(out + value, p - start + used)
      case other => other
  }

  lemma ReadStart(s: string, start: nat, size: nat)
    requires start <= |s|
    ensures ReadTo(s, start, start, "", size)
  {
    var whole := ReadFrom(s[start..], 0, size);
    assert whole.Read? ==> "" + whole.value == whole.value;
  }

  lemma {:induction false} ReadStep(s: string, start: nat, p: nat, out: string, size: nat)
    requires ReadTo(s, start, p, out, size)
    ensures
      if p < |s| && s[p] == '"' then ReadFrom(s[start..], 0, size) == Read(out, p - start + 1)
      else
        match FirstUnit(s[p..])
        case None => ReadFrom(s[start..], 0, size) == Invalid
        case Some(u) =>
          if |out| + 1 >= size then ReadFrom(s[start..], 0, size) == TooLong
          else ReadTo(s, start, p + u.used, out + [u.c], size)
  {
    hide FirstUnit;
    if p < |s| && s[p] == '"' {
      assert out + "" == out;
    } else if FirstUnit(s[p..]).Some? {
      var u := FirstUnit(s[p..]).value;
      assert s[p..][u.used..] == s[p + u.used..];
      if |out| + 1 < size {
        var rest := ReadFrom(s[p + u.used..], |out| + 1, size);
        if rest.Read? {
          assert out + ([u.c] + rest.value) == out + [u.c] + rest.value;
        }
      }
    }
  }

  /** One character of a string, its escape undone. */
  method ReadUnit(s: string, p: nat) returns (r: Option<char>, next: nat)
    requires p < |s|
    ensures match FirstUnit(s[p..])
      case None => r == None
      case Some(u) => r == Some(u.c) && next == p + u.used
  {
    ghost var rest := s[p..];
    assert rest[0] == s[p] && (|rest| > 1 ==> rest[1] == s[p + 1]);
    var c := s[p];
    next := p + 1;
    if c == '\\' {
      if next >= |s| {
        return None, next;
      }
      c := s[next];
      next := next + 1;
      if c == 'u' {
        if |s| - next < 4 {
          return None, next;
        }
        next := next + 4;
      }
      c := Unescape(c);
    }
    return Some(c), next;
  }

  /** server_read_json_string, from a cursor on. */
  method ReadJsonString(s: string, cursor: nat, size: nat) returns (r: JsonRead)
    requires cursor <= |s|
    ensures r == ReadQuoted(s[cursor..], size)
  {
    if size == 0 || cursor >= |s| || s[cursor] != '"' {
      return Invalid;
    }
    assert s[cursor..][1..] == s[cursor + 1..];
    var p := cursor + 1;
    var out := "";
    ReadStart(s, cursor + 1, size);
    hide ReadTo, ReadFrom, FirstUnit;
    while p < |s|
      invariant cursor < p <= |s| && ReadTo(s, cursor + 1, p, out, size)
      decreases |s| - p
    {
      ReadStep(s, cursor + 1, p, out, size);
      if s[p] == '"' {
        return Read(out, p + 1 - cursor);
      }
      var c, next := ReadUnit(s, p);
      if c.None? {
        return Invalid;
      }
      if |out| + 1 >= size {
        return TooLong;
      }
      out := out + [c.value];
      p := next;
    }
    ReadStep(s, cursor + 1, p, out, size);
    NoUnit(s[p..]);
    return Invalid;
  }

  lemma NoUnit(s: string)
    ensures s == "" ==> FirstUnit(s) == None
  {
  }

  // ---------- Round trip ----------

  /** What is left of a byte after writing and reading. */
  function Sane(c: char): char {
    if c < ' ' && c != '\n' && c != '\r' && c != '\t' then '?' else c
  }

  function Sanitized(text: string): string {
    seq(|text|, i requires 0 <= i < |text| => Sane(text[i]))
  }

  /** The text of a string literal, between its quotes, with its escapes undone; none if it holds a
      quote that is not escaped or an escape that is not complete. */
  function Decoded(raw: string): Option<string>
    decreases |raw|
  {
    if raw == "" then Some("")
    else if raw[0] == '"' then None
    else
      match FirstUnit(raw)
      case None => None
      case Some(u) =>
        match Decoded(raw[u.used..])
        case None => None
        case Some(value) => Some([u.c] + value)
  }

  lemma {:induction false} UnitLocal(raw: string, rest: string)
    requires FirstUnit(raw).Some?
    ensures FirstUnit(raw + rest) == FirstUnit(raw)
  {
    var s := raw + rest;
    assert s[0] == raw[0] && (|raw| > 1 ==> s[1] == raw[1]);
  }

  /** A literal is read to its closing quote, whatever follows, if there is room for it. */
  lemma {:induction false} LiteralReads(raw: string, rest: string, n: nat, size: nat)
    requires Decoded(raw).Some?
    ensures ReadFrom(raw + ("\"" + rest), n, size) ==
      if n + |Decoded(raw).value| < size || Decoded(raw).value == "" then Read(Decoded(raw).value, |raw| + 1)
      else TooLong
    decreases |raw|
  {
    var s := raw + ("\"" + rest);
    if raw == "" {
      assert s[0] == '"';
    } else {
      assert s[0] == raw[0];
      var u := FirstUnit(raw).value;
      UnitLocal(raw, "\"" + rest);
      assert s[u.used..] == raw[u.used..] + ("\"" + rest);
      hide FirstUnit;
      LiteralReads(raw[u.used..], rest, n + 1, size);
    }
  }

  lemma {:induction false} EscapeUnit(c: char, rest: string)
    ensures Escape(c) != "" && Escape(c)[0] != '"'
    ensures FirstUnit(Escape(c) + rest) == Some(Unit(Sane(c), |Escape(c)|))
  {
    var s := Escape(c) + rest;
    assert s[0] == Escape(c)[0] && (|Escape(c)| > 1 ==> s[1] == Escape(c)[1]);
  }

  lemma {:induction false} EscapedDecodes(text: string)
    ensures Decoded(Escaped(text)) == Some(Sanitized(text))
  {
    if text == "" {
      assert Sanitized(text) == "";
    } else {
      EscapeUnit(text[0], Escaped(text[1..]));
      EscapedDecodes(text[1..]);
      var s := Escaped(text);
      assert s[0] == Escape(text[0])[0];
      assert s[|Escape(text[0])|..] == Escaped(text[1..]);
      assert Sanitized(text) == [Sane(text[0])] + Sanitized(text[1..]);
      hide Escape, FirstUnit, Sane;
    }
  }

  lemma {:induction false} QuotedReads(raw: string, rest: string, size: nat)
    requires Decoded(raw).Some? && size > 0
    ensures ReadQuoted("\"" + (raw + ("\"" + rest)), size) ==
      if |Decoded(raw).value| < size then Read(Decoded(raw).value, |raw| + 2) else TooLong
  {
    var s := "\"" + (raw + ("\"" + rest));
    assert s[0] == '"' && s[1..] == raw + ("\"" + rest);
    LiteralReads(raw, rest, 0, size);
    hide ReadFrom;
  }

  /** Reading a written string gives it back with its other control characters replaced, if there is
      room, and reports its length otherwise; so a text comes back as it was if and only if it has no
      such character and is shorter than the room. */
  lemma {:induction false} RoundTrip(text: string, rest: string, size: nat)
    requires size > 0
    ensures ReadQuoted(Quoted(text) + rest, size) ==
      if |text| < size then Read(Sanitized(text), |Quoted(text)|) else TooLong
    ensures ReadQuoted(Quoted(text) + rest, size) == Read(text, |Quoted(text)|) <==>
      |text| < size && forall i :: 0 <= i < |text| ==> Sane(text[i]) == text[i]
  {
    hide *;
    EscapedDecodes(text);
    QuotedIs(text, rest);
    QuotedReads(Escaped(text), rest, size);
    SanitizedSame(text);
  }

  lemma QuotedIs(text: string, rest: string)
    ensures Quoted(text) + rest == "\"" + (Escaped(text) + ("\"" + rest)) && |Quoted(text)| == |Escaped(text)| + 2
  {
    hide Escaped;
  }

  lemma SanitizedSame(text: string)
    ensures |Sanitized(text)| == |text|
    ensures Sanitized(text) == text <==> forall i :: 0 <= i < |text| ==> Sane(text[i]) == text[i]
  {
    hide Sane;
    assert forall i :: 0 <= i < |text| ==> Sanitized(text)[i] == Sane(text[i]);
  }

  // ---------- What a literal may hold ----------

  /** A character as it is, one behind a backslash, or \u with four more of anything. */
  datatype Glyph = Bare(c: char) | Behind(c: char) | Code(digits: string)

  predicate GlyphFits(g: Glyph) {
    match g
    case Bare(c) => c != '"' && c != '\\'
    case Behind(c) => c != 'u'
    case Code(digits) => |digits| == 4
  }

  function GlyphText(g: Glyph): string {
    match g
    case Bare(c) => [c]
    case Behind(c) => ['\\', c]
    case Code(digits) => "\\u" + digits
  }

  /** \n, \r and \t are line feed, carriage return and tab; a code is a question mark; all else stands for
      itself. */
  function GlyphMeans(g: Glyph): char {
    if g == Behind('n') then 10 as char
    else if g == Behind('r') then 13 as char
    else if g == Behind('t') then 9 as char
    else if g.Code? then '?'
    else g.c
  }

  function GlyphsText(glyphs: seq<Glyph>): string {
    if glyphs == [] then "" else GlyphText(glyphs[0]) + GlyphsText(glyphs[1..])
  }

  function GlyphsMean(glyphs: seq<Glyph>): string {
    if glyphs == [] then "" else [GlyphMeans(glyphs[0])] + GlyphsMean(glyphs[1..])
  }

  predicate GlyphsFit(glyphs: seq<Glyph>) {
    forall g <- glyphs :: GlyphFits(g)
  }

  lemma GlyphUnit(g: Glyph, rest: string)
    requires GlyphFits(g)
    ensures var s := GlyphText(g) + rest;
      s[0] != '"' && FirstUnit(s) == Some(Unit(GlyphMeans(g), |GlyphText(g)|)) && s[|GlyphText(g)|..] == rest
  {
    var s := GlyphText(g) + rest;
    assert s[0] == GlyphText(g)[0] && (|GlyphText(g)| > 1 ==> s[1] == GlyphText(g)[1]);
  }

  lemma UnitGlyph(s: string) returns (g: Glyph)
    requires s != "" && s[0] != '"' && FirstUnit(s).Some?
    ensures var used := FirstUnit(s).value.used;
      GlyphFits(g) && s == GlyphText(g) + s[used..] && |GlyphText(g)| == used
  {
    if s[0] != '\\' {
      g := Bare(s[0]);
      assert s == [s[0]] + s[1..];
    } else if s[1] != 'u' {
      g := Behind(s[1]);
      assert s == [s[0], s[1]] + s[2..];
    } else {
      g := Code(s[2..6]);
      assert s == "\\u" + s[2..6] + s[6..];
    }
  }

  /** What a string literal may hold between its quotes, and what it stands for: exactly such characters. */
  lemma {:induction false} GlyphsDecode(glyphs: seq<Glyph>)
    requires GlyphsFit(glyphs)
    ensures Decoded(GlyphsText(glyphs)) == Some(GlyphsMean(glyphs))
  {
    hide FirstUnit, GlyphText, GlyphMeans, GlyphFits;
    if glyphs != [] {
      assert GlyphFits(glyphs[0]);
      GlyphUnit(glyphs[0], GlyphsText(glyphs[1..]));
      GlyphsDecode(glyphs[1..]);
    }
  }

  lemma {:induction false} DecodedGlyphs(raw: string) returns (glyphs: seq<Glyph>)
    requires Decoded(raw).Some?
    ensures GlyphsFit(glyphs) && GlyphsText(glyphs) == raw && Decoded(raw).value == GlyphsMean(glyphs)
    decreases |raw|
  {
    hide FirstUnit, GlyphText, GlyphMeans, GlyphFits;
    glyphs := [];
    if raw != "" {
      var g := UnitGlyph(raw);
      var rest := DecodedGlyphs(raw[FirstUnit(raw).value.used..]);
      glyphs := [g] + rest;
      assert glyphs[1..] == rest;
      GlyphsDecode(glyphs);
    }
  }

  // ---------- The member named sql ----------

  /** How far the first quote is. */
  function ToQuote(s: string): (n: nat)
    ensures n <= |s| && (n < |s| ==> s[n] == '"')
  {
    if s == "" || s[0] == '"' then 0 else 1 + ToQuote(s[1..])
  }

  function SkipSpace(s: string): string {
    s[RunLength(s, IsSpace)..]
  }

  /** A string as strcmp sees it: up to the first NUL. */
  function CString(s: string): string {
    if s == "" || s[0] == '\0' then "" else [s[0]] + CString(s[1..])
  }

  /** server_extract_sql_from_json: each string before a colon is a key, values of other members
      included, should they stand before one. */
  function Extracted(s: string, size: nat): JsonRead
    decreases |s|, 0
  {
    var q := ToQuote(s);
    if q == |s| then Invalid
    else
      match ReadQuoted(s[q..], KEY_SIZE)
      case Read(key, used) => AfterKey(key, SkipSpace(s[q + used..]), size)
      case other => other
  }

  function AfterKey(key: string, s: string, size: nat): JsonRead
    decreases |s|, 1
  {
    if s == "" || s[0] != ':' then Extracted(s, size)
    else
      var v := SkipSpace(s[1..]);
      if CString(key) == "sql" then ReadQuoted(v, size) else Extracted(v, size)
  }

  lemma ToQuoteStep(s: string, k: nat)
    requires k < |s| && s[k] != '"'
    ensures ToQuote(s[k..]) == 1 + ToQuote(s[k + 1..])
  {
    assert s[k..][1..] == s[k + 1..];
  }

  lemma SpaceStep(s: string, k: nat)
    requires k < |s| && IsSpace(s[k])
    ensures SkipSpace(s[k..]) == SkipSpace(s[k + 1..])
  {
    assert s[k..][1..] == s[k + 1..];
  }

  /** server_skip_json_space. */
  method SkipJsonSpace(s: string, cursor: nat) returns (next: nat)
    requires cursor <= |s|
    ensures cursor <= next <= |s| && s[next..] == SkipSpace(s[cursor..])
  {
    next := cursor;
    while next < |s| && IsSpace(s[next])
      invariant cursor <= next <= |s| && SkipSpace(s[next..]) == SkipSpace(s[cursor..])
    {
      SpaceStep(s, next);
      hide SkipSpace;
      next := next + 1;
    }
  }

  method FindQuote(s: string, cursor: nat) returns (next: nat)
    requires cursor <= |s|
    ensures cursor <= next <= |s| && next == cursor + ToQuote(s[cursor..])
  {
    next := cursor;
    while next < |s| && s[next] != '"'
      invariant cursor <= next <= |s| && next + ToQuote(s[next..]) == cursor + ToQuote(s[cursor..])
    {
      ToQuoteStep(s, next);
      hide ToQuote;
      next := next + 1;
    }
  }

  lemma Again(s: string, a: nat, b: nat)
    requires a + b <= |s|
    ensures s[a..][b..] == s[a + b..]
  {
  }

  lemma ExtractUnfolds(s: string, size: nat)
    ensures ToQuote(s) == |s| ==> Extracted(s, size) == Invalid
    ensures ToQuote(s) < |s| ==>
      Extracted(s, size) ==
        match ReadQuoted(s[ToQuote(s)..], KEY_SIZE)
        case Read(key, used) => AfterKey(key, SkipSpace(s[ToQuote(s) + used..]), size)
        case other => other
  {
    hide ReadQuoted, SkipSpace, AfterKey;
  }

  /** The same, by positions in the body. */
  lemma {:induction false} RoundAt(body: string, cursor: nat, at: nat, size: nat)
    requires cursor <= |body| && at == cursor + ToQuote(body[cursor..])
    ensures at <= |body|
    ensures at == |body| ==> Extracted(body[cursor..], size) == Invalid
    ensures at < |body| ==>
      Extracted(body[cursor..], size) ==
        match ReadQuoted(body[at..], KEY_SIZE)
        case Read(key, used) => AfterKey(key, SkipSpace(body[at + used..]), size)
        case other => other
  {
    hide *;
    var s := body[cursor..];
    var n := ToQuote(s);
    ExtractUnfolds(s, size);
    Again(body, cursor, n);
    assert cursor + n == at;
    if n < |s| {
      var key := ReadQuoted(s[n..], KEY_SIZE);
      if key.Read? {
        var used := n + key.used;
        Again(body, cursor, used);
        assert cursor + used == at + key.used;
      }
    }
  }

  lemma AfterKeyUnfolds(key: string, s: string, size: nat)
    ensures AfterKey(key, s, size) ==
      if s == "" || s[0] != ':' then Extracted(s, size)
      else if CString(key) == "sql" then ReadQuoted(SkipSpace(s[1..]), size)
      else Extracted(SkipSpace(s[1..]), size)
  {
    hide ReadQuoted, SkipSpace, CString, Extracted;
  }

  datatype Round = Done(read: JsonRead) | GoOn(cursor: nat)

  /** The end of a round, after a key. */
  method ExtractValue(body: string, key: string, cursor: nat, size: nat) returns (r: Round)
    requires cursor <= |body|
    ensures r.Done? ==> AfterKey(key, body[cursor..], size) == r.read
    ensures r.GoOn? ==>
      cursor <= r.cursor <= |body| && AfterKey(key, body[cursor..], size) == Extracted(body[r.cursor..], size)
  {
    AfterKeyUnfolds(key, body[cursor..], size);
    hide *;
    if cursor >= |body| || body[cursor] != ':' {
      return GoOn(cursor);
    }
    Again(body, cursor, 1);
    var next := SkipJsonSpace(body, cursor + 1);
    if CString(key) == "sql" {
      var read := ReadJsonString(body, next, size);
      return Done(read);
    }
    return GoOn(next);
  }

  /** One round of the loop of server_extract_sql_from_json. */
  method ExtractRound(body: string, cursor: nat, size: nat) returns (r: Round)
    requires cursor < |body|
    ensures r.Done? ==> Extracted(body[cursor..], size) == r.read
    ensures r.GoOn? ==>
      cursor < r.cursor <= |body| && Extracted(body[cursor..], size) == Extracted(body[r.cursor..], size)
  {
    hide *;
    var at := FindQuote(body, cursor);
    RoundAt(body, cursor, at, size);
    if at >= |body| {
      return Done(Invalid);
    }
    var key := ReadJsonString(body, at, KEY_SIZE);
    if !key.Read? {
      return Done(key);
    }
    var next := SkipJsonSpace(body, at + key.used);
    r := ExtractValue(body, key.value, next, size);
  }

  /** server_extract_sql_from_json. */
  method ExtractSql(body: string, size: nat) returns (r: JsonRead)
    ensures r == if size == 0 then Invalid else Extracted(body, size)
  {
    if size == 0 {
      return Invalid;
    }
    var cursor := 0;
    assert body[0..] == body;
    NothingExtracted(body, size);
    hide Extracted;
    while cursor < |body|
      invariant cursor <= |body| && Extracted(body[cursor..], size) == Extracted(body, size)
      decreases |body| - cursor
    {
      var round := ExtractRound(body, cursor, size);
      if round.Done? {
        return round.read;
      }
      cursor := round.cursor;
    }
    return Invalid;
  }

  lemma NothingExtracted(body: string, size: nat)
    ensures Extracted(body[|body|..], size) == Invalid
  {
  }

  // ---------- Flat objects ----------

  /** A member as text: its key and value as string literals without their quotes, and white space. */
  datatype Member = Member(
    lead: string, key: string, beforeColon: string, afterColon: string, value: string, trail: string)

  predicate WellFormed(m: Member) {
    AllSpace(m.lead) && AllSpace(m.beforeColon) && AllSpace(m.afterColon) && AllSpace(m.trail) &&
    Decoded(m.key).Some? && Decoded(m.value).Some?
  }

  function Key(m: Member): string
    requires WellFormed(m)
  {
    Decoded(m.key).value
  }

  function Value(m: Member): string
    requires WellFormed(m)
  {
    Decoded(m.value).value
  }

  /** Member and what follows it. */
  function MemberText(m: Member, rest: string): string {
    m.lead + ("\"" + (m.key + ("\"" + ValueText(m, rest))))
  }

  function ValueText(m: Member, rest: string): string {
    m.beforeColon + (":" + (m.afterColon + ("\"" + (m.value + ("\"" + (m.trail + rest))))))
  }

  /** The object, with white space before it, inside it in front of its members, and after it. */
  function ObjectText(before: string, inside: string, members: seq<Member>, after: string): string {
    before + ("{" + (inside + MembersText(members, after)))
  }

  function MembersText(members: seq<Member>, after: string): string {
    if members == [] then "}" + after
    else MemberText(members[0], if |members| == 1 then "}" + after else "," + MembersText(members[1..], after))
  }

  /** Short enough for the buffer the reader keeps keys in. */
  predicate Small(m: Member)
    requires WellFormed(m)
  {
    |Key(m)| < KEY_SIZE && |Value(m)| < KEY_SIZE
  }

  predicate IsSql(m: Member)
    requires WellFormed(m)
  {
    CString(Key(m)) == "sql"
  }

  /** The search ends at this member. */
  predicate Stops(m: Member)
    requires WellFormed(m)
  {
    IsSql(m) || !Small(m)
  }

  /** What comes of the member the search ends at: a key that is too long, the value of sql, or another
      value that is too long, as the reader takes it for a key. */
  function Outcome(m: Member, size: nat): JsonRead
    requires WellFormed(m)
  {
    if |Key(m)| < KEY_SIZE && IsSql(m) && |Value(m)| < size then Read(Value(m), |m.value| + 2) else TooLong
  }

  lemma {:induction false} QuoteAfter(gap: string, s: string)
    requires (forall i :: 0 <= i < |gap| ==> gap[i] != '"') && s != "" && s[0] == '"'
    ensures ToQuote(gap + s) == |gap|
  {
    var t := gap + s;
    if gap == "" {
      assert t == s;
    } else {
      assert t[0] == gap[0] && t[1..] == gap[1..] + s;
      QuoteAfter(gap[1..], s);
    }
  }

  lemma {:induction false} SpaceSkipped(gap: string, s: string)
    requires AllSpace(gap) && s != "" && !IsSpace(s[0])
    ensures SkipSpace(gap + s) == s
  {
    var t := gap + s;
    if gap == "" {
      assert t == s;
    } else {
      assert t[0] == gap[0] && t[1..] == gap[1..] + s;
      SpaceSkipped(gap[1..], s);
      assert t[1..][RunLength(t[1..], IsSpace)..] == t[1 + RunLength(t[1..], IsSpace)..];
    }
  }

  /** Extraction by the pieces of a text: what comes before the first quote, and from it on. */
  lemma {:induction false} ExtractsFrom(s: string, gap: string, inner: string, size: nat)
    requires s == gap + inner && ToQuote(s) == |gap|
    ensures Extracted(s, size) ==
      if inner == "" then Invalid
      else
        match ReadQuoted(inner, KEY_SIZE)
        case Read(key, used) => AfterKey(key, SkipSpace(inner[used..]), size)
        case other => other
  {
    ExtractUnfolds(s, size);
    hide *;
    var n := |gap|;
    assert s[n..] == inner;
    if inner != "" && ReadQuoted(inner, KEY_SIZE).Read? {
      DropPast(gap, inner, ReadQuoted(inner, KEY_SIZE).used);
    }
  }

  lemma DropPast(gap: string, inner: string, used: nat)
    requires used <= |inner|
    ensures (gap + inner)[|gap| + used..] == inner[used..]
  {
  }

  lemma CutAt(c: char, s: string, n: nat) returns (gap: string, inner: string)
    requires n <= |s|
    ensures s == gap + inner && [c] + s == [c] + gap + inner && |gap| == n
  {
    gap, inner := s[..n], s[n..];
  }

  lemma {:induction false} PassedOver(c: char, s: string, size: nat)
    requires c != '"'
    ensures Extracted([c] + s, size) == Extracted(s, size)
  {
    var t, n := [c] + s, ToQuote(s);
    assert t[1..] == s && ToQuote(t) == 1 + n;
    hide *;
    var gap, inner := CutAt(c, s, n);
    ExtractsFrom(s, gap, inner, size);
    ExtractsFrom(t, [c] + gap, inner, size);
  }

  lemma {:induction false} GapPassed(gap: string, s: string, size: nat)
    requires AllSpace(gap)
    ensures Extracted(gap + s, size) == Extracted(s, size)
  {
    hide Extracted;
    if gap == "" {
      assert gap + s == s;
    } else {
      GapPassed(gap[1..], s, size);
      PassedOver(gap[0], gap[1..] + s, size);
      assert gap + s == [gap[0]] + (gap[1..] + s);
    }
  }

  /** A string in the text, after white space, taken for a key. */
  lemma {:induction false} StringTaken(gap: string, raw: string, rest: string, size: nat)
    requires AllSpace(gap) && Decoded(raw).Some? && |Decoded(raw).value| < KEY_SIZE
    ensures Extracted(gap + ("\"" + (raw + ("\"" + rest))), size) == AfterKey(Decoded(raw).value, SkipSpace(rest), size)
  {
    var inner := "\"" + (raw + ("\"" + rest));
    hide *;
    NoQuotes(gap);
    QuoteAfter(gap, inner);
    QuotedReads(raw, rest, KEY_SIZE);
    ExtractsFrom(gap + inner, gap, inner, size);
    PastString(raw, rest);
  }

  lemma NoQuotes(gap: string)
    requires AllSpace(gap)
    ensures forall i :: 0 <= i < |gap| ==> gap[i] != '"'
  {
  }

  lemma PastString(raw: string, rest: string)
    ensures ("\"" + (raw + ("\"" + rest)))[|raw| + 2..] == rest
  {
  }

  lemma {:induction false} MemberPassed(m: Member, rest: string, size: nat)
    requires WellFormed(m) && Small(m) && rest != "" && !IsSpace(rest[0]) && rest[0] != ':'
    requires !IsSql(m)
    ensures Extracted(MemberText(m, rest), size) == Extracted(rest, size)
  {
    ToValue(m, rest, size);
    StringTaken("", m.value, m.trail + rest, size);
    SpaceSkipped(m.trail, rest);
    AfterKeyUnfolds(Value(m), rest, size);
    var v := "\"" + (m.value + ("\"" + (m.trail + rest)));
    assert "" + v == v;
    hide Extracted, AfterKey, ReadQuoted, SkipSpace, CString, MemberText, ValueText;
  }

  lemma {:induction false} ToValue(m: Member, rest: string, size: nat)
    requires WellFormed(m) && |Key(m)| < KEY_SIZE
    ensures var v := "\"" + (m.value + ("\"" + (m.trail + rest)));
      Extracted(MemberText(m, rest), size) == if IsSql(m) then ReadQuoted(v, size) else Extracted(v, size)
  {
    var v := "\"" + (m.value + ("\"" + (m.trail + rest)));
    var colon := ":" + (m.afterColon + v);
    StringTaken(m.lead, m.key, ValueText(m, rest), size);
    SpaceSkipped(m.beforeColon, colon);
    SpaceSkipped(m.afterColon, v);
    AfterKeyUnfolds(Key(m), colon, size);
    assert colon[1..] == m.afterColon + v;
    hide Extracted, AfterKey, ReadQuoted, SkipSpace, CString;
  }

  /** The first member that ends the search. */
  function FirstStop(members: seq<Member>): (r: Option<nat>)
    requires forall m <- members :: WellFormed(m)
    ensures r.None? ==> forall m <- members :: !Stops(m)
    ensures r.Some? ==> r.value < |members| && Stops(members[r.value]) && forall m <- members[..r.value] :: !Stops(m)
  {
    if members == [] then None
    else if Stops(members[0]) then Some(0)
    else
      assert members == [members[0]] + members[1..];
      match FirstStop(members[1..])
      case None => None
      case Some(k) =>
        assert members[..k + 1] == [members[0]] + members[1..][..k];
        Some(k + 1)
  }

  /** From any flat object of string members, written with any escapes and white space, also outside the
      braces: what comes of the first member that is named sql, or has a key or value too long for the
      reader of keys; without such a member the request is refused. */
  lemma {:induction false} ObjectExtracts(
      before: string, inside: string, members: seq<Member>, after: string, size: nat)
    requires AllSpace(before) && AllSpace(inside) && AllSpace(after)
    requires size > 0 && forall m <- members :: WellFormed(m)
    ensures Extracted(ObjectText(before, inside, members, after), size) ==
      match FirstStop(members)
      case None => Invalid
      case Some(k) => Outcome(members[k], size)
  {
    hide Extracted, MembersText;
    var text := MembersText(members, after);
    GapPassed(before, "{" + (inside + text), size);
    PassedOver('{', inside + text, size);
    GapPassed(inside, text, size);
    MembersExtract(members, after, size);
  }

  /** So sql is read exactly when some member is named so, its value fits, and no key up to it and no
      value before it is too long; then it is the value of the first such member. */
  lemma {:induction false} SqlExtracted(
      before: string, inside: string, members: seq<Member>, after: string, size: nat)
    requires AllSpace(before) && AllSpace(inside) && AllSpace(after)
    requires size > 0 && forall m <- members :: WellFormed(m)
    ensures Extracted(ObjectText(before, inside, members, after), size).Read? <==>
      exists k: nat :: FitSql(members, k, size)
    ensures forall k: nat :: FitSql(members, k, size) ==>
      Extracted(ObjectText(before, inside, members, after), size) == Read(Value(members[k]), |members[k].value| + 2)
  {
    ObjectExtracts(before, inside, members, after, size);
    hide Extracted, ObjectText, WellFormed, FirstStop, FitSql;
    forall k: nat ensures FitSql(members, k, size) <==>
      FirstStop(members) == Some(k) && Outcome(members[k], size).Read?
    {
      StopFits(members, k, size);
    }
    if FirstStop(members).Some? && Outcome(members[FirstStop(members).value], size).Read? {
      assert FitSql(members, FirstStop(members).value, size);
    }
  }

  lemma {:induction false} StopFits(members: seq<Member>, k: nat, size: nat)
    requires forall m <- members :: WellFormed(m)
    ensures FitSql(members, k, size) <==> FirstStop(members) == Some(k) && Outcome(members[k], size).Read?
  {
    hide WellFormed, IsSql, Small, FirstStop;
    var stop := FirstStop(members);
    if stop.Some? {
      assert forall i :: 0 <= i < stop.value ==> members[..stop.value][i] == members[i];
    }
    if stop == Some(k) && Outcome(members[k], size).Read? {
      forall i | 0 <= i < k ensures Small(members[i]) && !IsSql(members[i]) {
        assert members[..k][i] in members[..k];
      }
    }
    if FitSql(members, k, size) {
      assert members[k] in members && Stops(members[k]);
    }
  }

  /** Member k is named sql and can be read, and nothing before it ends the search. */
  predicate FitSql(members: seq<Member>, k: nat, size: nat)
    requires forall m <- members :: WellFormed(m)
  {
    k < |members| && IsSql(members[k]) && |Key(members[k])| < KEY_SIZE && |Value(members[k])| < size &&
    forall i :: 0 <= i < k ==> Small(members[i]) && !IsSql(members[i])
  }

  lemma {:induction false} MembersExtract(members: seq<Member>, after: string, size: nat)
    requires AllSpace(after) && size > 0 && forall m <- members :: WellFormed(m)
    ensures Extracted(MembersText(members, after), size) ==
      match FirstStop(members)
      case None => Invalid
      case Some(k) => Outcome(members[k], size)
  {
    hide Extracted, Small, CString, MemberText, WellFormed, Outcome, IsSql;
    if members == [] {
      BraceExtracts(after, size);
    } else {
      var m, more := members[0], MembersText(members[1..], after);
      var rest := if |members| == 1 then "}" + after else "," + more;
      if Stops(m) {
        StopExtracts(m, rest, size);
      } else {
        MemberPassed(m, rest, size);
        if |members| == 1 {
          BraceExtracts(after, size);
          assert members[1..] == [];
        } else {
          PassedOver(',', more, size);
          MembersExtract(members[1..], after, size);
        }
      }
    }
  }

  lemma {:induction false} BraceExtracts(after: string, size: nat)
    requires AllSpace(after)
    ensures Extracted("}" + after, size) == Invalid
  {
    PassedOver('}', after, size);
    GapPassed(after, "", size);
    assert after + "" == after;
    assert ToQuote("") == 0;
    hide AllSpace;
  }

  lemma {:induction false} StopExtracts(m: Member, rest: string, size: nat)
    requires WellFormed(m) && Stops(m) && size > 0
    ensures Extracted(MemberText(m, rest), size) == Outcome(m, size)
  {
    if |Key(m)| >= KEY_SIZE {
      LongString(m.lead, m.key, ValueText(m, rest), size);
    } else {
      ToValue(m, rest, size);
      if IsSql(m) {
        QuotedReads(m.value, m.trail + rest, size);
      } else {
        var v := "\"" + (m.value + ("\"" + (m.trail + rest)));
        LongString("", m.value, m.trail + rest, size);
        assert "" + v == v;
      }
    }
    hide Extracted, ReadQuoted, CString, ValueText;
  }

  /** A string too long for the reader of keys. */
  lemma {:induction false} LongString(gap: string, raw: string, rest: string, size: nat)
    requires AllSpace(gap) && Decoded(raw).Some? && |Decoded(raw).value| >= KEY_SIZE
    ensures Extracted(gap + ("\"" + (raw + ("\"" + rest))), size) == TooLong
  {
    var inner := "\"" + (raw + ("\"" + rest));
    hide Extracted, ReadQuoted, Decoded, AfterKey, SkipSpace, ToQuote, AllSpace;
    NoQuotes(gap);
    QuoteAfter(gap, inner);
    QuotedReads(raw, rest, KEY_SIZE);
    ExtractsFrom(gap + inner, gap, inner, size);
  }
}
