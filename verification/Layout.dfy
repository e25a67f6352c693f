/**
How tokens may be written down, and that the tokenizer of src/tokenizer.c reads exactly what can be
written: any spelling, any spacing that keeps neighbours apart.
*/
module Layout {
  import opened Wrappers
  import opened Text
  import opened Tokenizer

  predicate AllWord(s: string) {
    forall i :: 0 <= i < |s| ==> IsWordChar(s[i])
  }

  /** A word that can be an identifier. */
  predicate IsName(x: string) {
    x != "" && AllWord(x) && !IsDigit(x[0])
  }

  /** The value with its quotes doubled. */
  function Doubled(value: string): string {
    if value == "" then ""
    else (if value[0] == '\'' then "''" else [value[0]]) + Doubled(value[1..])
  }

  predicate IsPunctuation(c: char) {
    c in "(),;*'!<>="
  }

  /** x is a way to write the token. */
  predicate Spells(t: Token, x: string) {
    match t.kind
    case Keyword => IsName(x) && IsKeyword(x) && t.value == Fold(x)
    case Identifier => t.value == x && (x == "*" || (IsName(x) && !IsKeyword(x) && |x| < MAX_TOKEN_VALUE))
    case IntLiteral => t.value == x && IsIntegerText(x) && |x| < MAX_TOKEN_VALUE
    case StrLiteral => x == "'" + Doubled(t.value) + "'" && |t.value| < MAX_TOKEN_VALUE
    case Operator => t.value == x && x in ["!", "<", ">", "=", "!=", "<=", ">="]
    case LParen => t.value == x == "("
    case RParen => t.value == x == ")"
    case Comma => t.value == x == ","
    case Semicolon => t.value == x == ";"
    case Unknown =>
      t.value == x && |x| == 1 && !IsSpace(x[0]) && !IsPunctuation(x[0]) && !IsWordChar(x[0])
  }

  /** The token, written x, ends where the rest begins. */
  predicate Stops(t: Token, x: string, rest: string) {
    rest != "" ==>
      match t.kind
      case Keyword => !IsWordChar(rest[0])
      case Identifier => x == "*" || !IsWordChar(rest[0])
      case IntLiteral => !IsDigit(rest[0])
      case StrLiteral => rest[0] != '\''
      case Operator => x in ["!", "<", ">"] ==> rest[0] != '='
      case Unknown => (x != "" && IsSign(x[0])) ==> !IsDigit(rest[0])
      case _ => true
  }

  lemma {:induction false} RunIs(s: string, test: char -> bool, n: nat)
    requires n <= |s| && (forall j :: 0 <= j < n ==> test(s[j])) && (n < |s| ==> !test(s[n]))
    ensures RunLength(s, test) == n
  {
    var m := RunLength(s, test);
    assert !(m < n) && !(n < m);
  }

  lemma {:induction false} DoubledReads(value: string, rest: string)
    requires rest == "" || rest[0] != '\''
    ensures ReadLiteral(Doubled(value) + "'" + rest) == Closed(value, |Doubled(value)| + 1)
  {
    var s := Doubled(value) + "'" + rest;
    if value == "" {
      assert s == "'" + rest;
      assert s[0] == '\'' && (|s| > 1 ==> s[1] == rest[0]);
    } else {
      DoubledReads(value[1..], rest);
      var tail := Doubled(value[1..]) + "'" + rest;
      assert s == (if value[0] == '\'' then "''" else [value[0]]) + tail;
      CharacterReads(s, value[0], tail);
      assert value == [value[0]] + value[1..];
      hide ReadLiteral;
    }
  }

  lemma CharacterReads(s: string, c: char, tail: string)
    requires s == (if c == '\'' then "''" else [c]) + tail
    ensures ReadLiteral(s) == After(c, if c == '\'' then 2 else 1, ReadLiteral(tail))
  {
    if c == '\'' {
      assert s[0] == '\'' && s[1] == '\'' && s[2..] == tail;
    } else {
      assert s[0] == c && s[1..] == tail;
    }
  }

  /** And back: what a literal was read from is its value with the quotes doubled. */
  lemma {:induction false} LiteralDoubled(s: string)
    requires ReadLiteral(s).Closed?
    ensures var (value, used) := (ReadLiteral(s).value, ReadLiteral(s).used);
      used <= |s| && s[..used] == Doubled(value) + "'" && (used < |s| ==> s[used] != '\'')
    decreases |s|
  {
    if s[0] != '\'' {
      LiteralDoubled(s[1..]);
      DoubledMore(s, s[0], 1, ReadLiteral(s[1..]));
    } else if |s| > 1 && s[1] == '\'' {
      LiteralDoubled(s[2..]);
      DoubledMore(s, '\'', 2, ReadLiteral(s[2..]));
    } else {
      assert s[..1] == "" + "'";
    }
    hide Doubled;
  }

  lemma DoubledMore(s: string, c: char, k: nat, rest: Literal)
    requires 1 <= k <= |s| && s[..k] == if c == '\'' then "''" else [c]
    requires rest.Closed? && rest.used <= |s| - k && s[k..][..rest.used] == Doubled(rest.value) + "'"
    ensures s[..k + rest.used] == Doubled([c] + rest.value) + "'"
  {
    assert s[..k + rest.used] == s[..k] + s[k..][..rest.used];
    assert ([c] + rest.value)[1..] == rest.value;
  }

  // ---------- One token ----------

  lemma {:induction false} NextOfName(x: string, rest: string)
    requires IsName(x) && (rest == "" || !IsWordChar(rest[0]))
    ensures Next(x + rest) ==
      if IsKeyword(x) then Short(Keyword, Fold(x), |x|) else Short(Identifier, x, |x|)
  {
    var s := x + rest;
    assert s[0] == x[0] && s[..|x|] == x;
    assert IsWordChar(x[0]) && !IsDigit(x[0]);
    RunIs(s, IsWordChar, |x|);
    hide RunLength, IsKeyword, Fold;
  }

  lemma {:induction false} NextOfNumber(x: string, rest: string)
    requires IsIntegerText(x) && (rest == "" || !IsDigit(rest[0]))
    ensures Next(x + rest) == Short(IntLiteral, x, |x|)
  {
    var s := x + rest;
    assert s[0] == x[0] && s[..|x|] == x;
    if IsDigit(x[0]) {
      assert x == Unsigned(x);
      RunIs(s, IsDigit, |x|);
    } else {
      assert IsSign(x[0]) && Unsigned(x) == x[1..];
      assert s[1..] == x[1..] + rest && IsDigit(x[1..][0]);
      RunIs(s[1..], IsDigit, |x| - 1);
    }
    hide RunLength;
  }

  lemma {:induction false} NextOfString(value: string, rest: string)
    requires rest == "" || rest[0] != '\''
    ensures Next("'" + Doubled(value) + "'" + rest) == Short(StrLiteral, value, |Doubled(value)| + 2)
  {
    var s := "'" + Doubled(value) + "'" + rest;
    assert s[0] == '\'' && s[1..] == Doubled(value) + "'" + rest;
    DoubledReads(value, rest);
    hide ReadLiteral, Doubled;
  }

  lemma SpellingStarts(t: Token, x: string)
    requires Spells(t, x)
    ensures x != "" && !IsSpace(x[0])
  {
    hide Fold, Doubled;
    if t.kind.IntLiteral? {
      assert Unsigned(x) != "" && IsDigit(Unsigned(x)[0]);
    }
  }

  /** A token in any spelling, followed by anything that does not run on from it, is read back. */
  lemma {:induction false} SpellingReads(t: Token, x: string, rest: string)
    requires Spells(t, x) && Stops(t, x, rest)
    ensures x != "" && !IsSpace(x[0]) && Next(x + rest) == Ok(Cut(t, |x|))
  {
    SpellingStarts(t, x);
    match t.kind {
      case Keyword =>
        NextOfName(x, rest);
        KeywordsShort(x);
        assert |Fold(x)| == |x|;
        hide Next, IsKeyword, Fold, IsName;
      case Identifier =>
        if x != "*" {
          NextOfName(x, rest);
          hide Next, IsKeyword, IsName;
        } else {
          assert x + rest != "" && (x + rest)[0] == '*';
        }
      case IntLiteral => NextOfNumber(x, rest); hide Next, IsIntegerText;
      case StrLiteral =>
        NextOfString(t.value, rest);
        assert x + rest == "'" + Doubled(t.value) + "'" + rest;
        hide Next, Doubled;
      case Operator => NextOfOperator(x, rest); hide Next;
      case _ => NextOfOne(t, x, rest); hide Next, Spells;
    }
  }

  lemma {:induction false} NextOfOperator(x: string, rest: string)
    requires x in ["!", "<", ">", "=", "!=", "<=", ">="]
    requires rest != "" && x in ["!", "<", ">"] ==> rest[0] != '='
    ensures Next(x + rest) == Ok(Cut(Token(Operator, x), |x|))
  {
    hide NextLong, NumberStarts;
    var s := x + rest;
    if |x| == 1 {
      assert s[0] == x[0] && x == [x[0]] && (rest != "" ==> s[1] == rest[0]);
      assert Next(s) == Short(Operator, x, 1);
    } else {
      assert s[0] == x[0] && s[1] == x[1] && x == [x[0], '='];
      assert Next(s) == Short(Operator, x, 2);
    }
  }

  lemma {:induction false} NextOfOne(t: Token, x: string, rest: string)
    requires t.kind in {LParen, RParen, Comma, Semicolon, Unknown}
    requires Spells(t, x) && Stops(t, x, rest)
    ensures Next(x + rest) == Ok(Cut(t, 1)) && !IsSpace(x[0])
  {
    var s := x + rest;
    assert s[0] == x[0] && (rest != "" ==> s[1] == rest[0]) && x == [x[0]];
    hide NextLong;
  }

  /** And back: what the tokenizer cuts off is a spelling of the token, and ends where it must. */
  lemma {:induction false} ReadIsSpelling(s: string)
    requires s != "" && !IsSpace(s[0]) && Next(s).Ok?
    ensures var cut := Next(s).value; Spells(cut.token, s[..cut.used]) && Stops(cut.token, s[..cut.used], s[cut.used..])
  {
    if s[0] == '\'' {
      StringIsSpelling(s);
    } else if NumberStarts(s) && !IsPunctuation(s[0]) {
      NumberIsSpelling(s);
    } else if IsAlpha(s[0]) || s[0] == '_' {
      NameIsSpelling(s);
    } else {
      OneIsSpelling(s);
    }
    hide Next, Spells, Stops;
  }

  lemma {:induction false} StringIsSpelling(s: string)
    requires s != "" && s[0] == '\'' && Next(s).Ok?
    ensures var cut := Next(s).value; Spells(cut.token, s[..cut.used]) && Stops(cut.token, s[..cut.used], s[cut.used..])
  {
    var t, n := Next(s).value.token, Next(s).value.used;
    LiteralDoubled(s[1..]);
    assert s[..n] == "'" + s[1..][..n - 1];
    assert s[..n] == "'" + Doubled(t.value) + "'";
    assert n < |s| ==> s[n..][0] == s[1..][n - 1];
    hide ReadLiteral, Doubled, NumberStarts;
  }

  lemma {:induction false} NumberIsSpelling(s: string)
    requires s != "" && NumberStarts(s) && !IsPunctuation(s[0]) && Next(s).Ok?
    ensures var cut := Next(s).value; Spells(cut.token, s[..cut.used]) && Stops(cut.token, s[..cut.used], s[cut.used..])
  {
    var n := NumberLength(s);
    var x := s[..n];
    assert n < |s| ==> s[n..][0] == s[n];
    NumberText(s, n);
    hide NumberLength, NumberStarts, IsIntegerText;
  }

  lemma NumberText(s: string, n: nat)
    requires NumberStarts(s) && n == NumberLength(s)
    ensures IsIntegerText(s[..n]) && (n < |s| ==> !IsDigit(s[n]))
  {
    var x := s[..n];
    if IsDigit(s[0]) {
      assert x[0] == s[0] && Unsigned(x) == x;
    } else {
      var rest, m := s[1..], n - 1;
      assert rest[0] == s[1] && m == RunLength(rest, IsDigit) > 0;
      assert x[0] == s[0] && x[1..] == rest[..m];
      assert n < |s| ==> s[n] == rest[m];
    }
  }

  lemma {:induction false} NameIsSpelling(s: string)
    requires s != "" && (IsAlpha(s[0]) || s[0] == '_') && Next(s).Ok?
    ensures var cut := Next(s).value; Spells(cut.token, s[..cut.used]) && Stops(cut.token, s[..cut.used], s[cut.used..])
  {
    var n := RunLength(s, IsWordChar);
    var x := s[..n];
    assert n > 0 && x[0] == s[0];
    assert n < |s| ==> s[n..][0] == s[n];
    assert IsName(x);
    hide RunLength, IsKeyword, Fold, IsName;
  }

  lemma {:induction false} OneIsSpelling(s: string)
    requires s != "" && !IsSpace(s[0]) && Next(s).Ok?
    requires s[0] != '\'' && !IsAlpha(s[0]) && s[0] != '_' && (NumberStarts(s) ==> IsPunctuation(s[0]))
    ensures var cut := Next(s).value; Spells(cut.token, s[..cut.used]) && Stops(cut.token, s[..cut.used], s[cut.used..])
  {
    var n := Next(s).value.used;
    assert n == 1 ==> s[..n] == [s[0]] && (|s| > 1 ==> s[n..][0] == s[1]);
    assert n == 2 ==> s[..n] == [s[0], s[1]];
    hide NextLong;
  }

  lemma {:induction false} DoubledOpen(value: string)
    ensures ReadLiteral(Doubled(value)) == Open(value)
  {
    if value != "" {
      DoubledOpen(value[1..]);
      CharacterReads(Doubled(value), value[0], Doubled(value[1..]));
      assert value == [value[0]] + value[1..];
      hide ReadLiteral;
    }
  }

  /** What is not read: a name, a number or a string of 256 characters or more, and a string without its
      closing quote. */
  lemma {:induction false} NotRead(x: string, rest: string)
    ensures IsName(x) && |x| >= 256 && (rest == "" || !IsWordChar(rest[0])) ==> Next(x + rest) == Err(LexError.TooLong)
    ensures IsIntegerText(x) && |x| >= 256 && (rest == "" || !IsDigit(rest[0])) ==>
      Next(x + rest) == Err(LexError.TooLong)
    ensures |x| >= 256 && (rest == "" || rest[0] != '\'') ==>
      Next("'" + Doubled(x) + "'" + rest) == Err(LexError.TooLong)
    ensures Next("'" + Doubled(x)) == Err(if |x| < 256 then Unterminated else LexError.TooLong)
  {
    if IsName(x) && (rest == "" || !IsWordChar(rest[0])) {
      NextOfName(x, rest);
      assert |Fold(x)| == |x|;
    }
    if IsIntegerText(x) && (rest == "" || !IsDigit(rest[0])) {
      NextOfNumber(x, rest);
    }
    if rest == "" || rest[0] != '\'' {
      NextOfString(x, rest);
    }
    DoubledOpen(x);
    NextOfOpen(x);
    hide Next, Doubled, IsName, IsIntegerText, Fold, IsKeyword;
  }

  lemma NextOfOpen(x: string)
    requires ReadLiteral(Doubled(x)) == Open(x)
    ensures Next("'" + Doubled(x)) == Err(if |x| < 256 then Unterminated else LexError.TooLong)
  {
    hide *;
    QuoteFirst(Doubled(x));
    QuoteNext("'" + Doubled(x));
  }

  lemma QuoteNext(s: string)
    requires s != "" && s[0] == '\'' && ReadLiteral(s[1..]).Open?
    ensures Next(s) == Err(if |ReadLiteral(s[1..]).value| < 256 then Unterminated else LexError.TooLong)
  {
    hide ReadLiteral, NumberStarts, IsKeyword, Fold, RunLength, NumberLength;
  }

  lemma QuoteFirst(x: string)
    ensures "'" + x != "" && ("'" + x)[0] == '\'' && ("'" + x)[1..] == x
  {
  }

  // ---------- Whole texts ----------

  /** A token as written, with the white space before it. */
  datatype Piece = Piece(gap: string, text: string)

  function Written(pieces: seq<Piece>, tail: string): string {
    if pieces == [] then tail else pieces[0].gap + (pieces[0].text + Written(pieces[1..], tail))
  }

  /** The pieces write down the tokens: white space between them, each spelt right, none running
      into the next. */
  predicate Fits(tokens: seq<Token>, pieces: seq<Piece>, tail: string) {
    |tokens| == |pieces| && AllSpace(tail) &&
    (tokens != [] ==>
      AllSpace(pieces[0].gap) && Spells(tokens[0], pieces[0].text) &&
      Stops(tokens[0], pieces[0].text, Written(pieces[1..], tail)) && Fits(tokens[1..], pieces[1..], tail))
  }

  lemma {:induction false} SpacesSkipped(gap: string, s: string)
    requires AllSpace(gap)
    ensures Tokens(gap + s) == Tokens(s)
  {
    if gap == "" {
      assert gap + s == s;
    } else {
      assert (gap + s)[0] == gap[0] && (gap + s)[1..] == gap[1..] + s;
      SpacesSkipped(gap[1..], s);
    }
  }

  lemma {:induction false} PieceReads(t: Token, piece: Piece, rest: string)
    requires AllSpace(piece.gap) && Spells(t, piece.text) && Stops(t, piece.text, rest)
    ensures Tokens(piece.gap + (piece.text + rest)) == Prefixed([t], Tokens(rest))
  {
    var x := piece.text;
    SpacesSkipped(piece.gap, x + rest);
    SpellingReads(t, x, rest);
    assert (x + rest)[|x|..] == rest && (x + rest)[0] == x[0];
    hide Spells, Stops, Next;
  }

  /** Tokens written down in any way are read back. */
  lemma {:induction false} WrittenTokenizes(tokens: seq<Token>, pieces: seq<Piece>, tail: string)
    requires Fits(tokens, pieces, tail)
    ensures Tokens(Written(pieces, tail)) == Ok(tokens)
  {
    if tokens == [] {
      SpacesSkipped(tail, "");
      assert tail + "" == tail;
    } else {
      WrittenTokenizes(tokens[1..], pieces[1..], tail);
      PieceReads(tokens[0], pieces[0], Written(pieces[1..], tail));
      hide Tokens, Spells, Stops;
      assert [tokens[0]] + tokens[1..] == tokens;
    }
  }

  /** And back: whatever the tokenizer accepts is a writing down of the tokens it finds. */
  lemma {:induction false} TokenizedIsWritten(s: string) returns (pieces: seq<Piece>, tail: string)
    requires Tokens(s).Ok?
    ensures Written(pieces, tail) == s && Fits(Tokens(s).value, pieces, tail)
    decreases |s|
  {
    hide Spells, Stops, Next;
    if s == "" {
      pieces, tail := [], "";
    } else if IsSpace(s[0]) {
      pieces, tail := TokenizedIsWritten(s[1..]);
      pieces, tail := MoreSpace(s[0], Tokens(s).value, pieces, tail);
      assert s == [s[0]] + s[1..];
      hide Fits, Written;
    } else {
      var n := Next(s).value.used;
      ReadIsSpelling(s);
      var rest;
      rest, tail := TokenizedIsWritten(s[n..]);
      pieces := [Piece("", s[..n])] + rest;
      assert pieces[1..] == rest;
      assert Tokens(s).value[1..] == Tokens(s[n..]).value;
      assert s == "" + (s[..n] + s[n..]);
    }
  }

  lemma {:induction false} MoreSpace(c: char, tokens: seq<Token>, pieces: seq<Piece>, tail: string)
    returns (pieces': seq<Piece>, tail': string)
    requires IsSpace(c) && Fits(tokens, pieces, tail)
    ensures Fits(tokens, pieces', tail') && Written(pieces', tail') == [c] + Written(pieces, tail)
  {
    hide Spells, Stops;
    pieces', tail' := pieces, tail;
    if pieces == [] {
      tail' := [c] + tail;
    } else {
      pieces' := [Piece([c] + pieces[0].gap, pieces[0].text)] + pieces[1..];
      assert pieces'[1..] == pieces[1..];
    }
  }

  // ---------- Trimming ----------

  lemma {:induction false} TrimmedIs(gap: string, core: string, tail: string)
    requires AllSpace(gap) && AllSpace(tail)
    requires core != "" && !IsSpace(core[0]) && !IsSpace(core[|core| - 1])
    ensures Trimmed(gap + core + tail) == core
  {
    var s := gap + core + tail;
    if tail == "" {
      assert s == gap + core && s[|s| - 1] == core[|core| - 1];
      assert s[|gap|] == core[0];
      RunIs(s, IsSpace, |gap|);
      assert s[|gap|..] == core;
    } else {
      var front := tail[..|tail| - 1];
      assert s[|s| - 1] == tail[|tail| - 1] && s[..|s| - 1] == gap + core + front;
      TrimmedIs(gap, core, front);
    }
  }

  lemma {:induction false} TrimmedFrom(s: string) returns (gap: string, tail: string)
    ensures AllSpace(gap) && AllSpace(tail) && s == gap + Trimmed(s) + tail
    decreases |s|
  {
    if s != "" && IsSpace(s[|s| - 1]) {
      var front := s[..|s| - 1];
      gap, tail := TrimmedFrom(front);
      tail := tail + [s[|s| - 1]];
      assert s == front + [s[|s| - 1]];
    } else {
      var n := RunLength(s, IsSpace);
      gap, tail := s[..n], "";
    }
  }

  lemma SpellingEnds(t: Token, x: string)
    requires Spells(t, x)
    ensures x != "" && !IsSpace(x[|x| - 1])
  {
    SpellingStarts(t, x);
    hide Fold, Doubled;
    if t.kind.IntLiteral? {
      var u := Unsigned(x);
      assert u[|u| - 1] == x[|x| - 1];
    }
  }

  lemma {:induction false} StopsBefore(t: Token, x: string, rest: string, more: string)
    ensures Stops(t, x, rest + more) ==> Stops(t, x, rest)
    ensures Spells(t, x) && Stops(t, x, rest) && AllSpace(more) ==> Stops(t, x, rest + more)
  {
    var all := rest + more;
    assert rest != "" ==> all != "" && all[0] == rest[0];
    assert rest == "" ==> all == more;
    hide Spells;
  }

  lemma {:induction false} WrittenTail(pieces: seq<Piece>, tail: string)
    ensures Written(pieces, tail) == Written(pieces, "") + tail
  {
    if pieces != [] {
      WrittenTail(pieces[1..], tail);
    }
  }

  /** White space at the end does not matter. */
  lemma {:induction false} FitsTail(tokens: seq<Token>, pieces: seq<Piece>, tail: string)
    requires AllSpace(tail)
    ensures Fits(tokens, pieces, tail) <==> Fits(tokens, pieces, "")
  {
    hide Spells, Stops;
    if tokens != [] && pieces != [] {
      FitsTail(tokens[1..], pieces[1..], tail);
      WrittenTail(pieces[1..], tail);
      StopsBefore(tokens[0], pieces[0].text, Written(pieces[1..], ""), tail);
    }
  }

  lemma {:induction false} WrittenEnds(tokens: seq<Token>, pieces: seq<Piece>)
    requires Fits(tokens, pieces, "") && tokens != []
    ensures var s := Written(pieces, ""); s != "" && !IsSpace(s[|s| - 1])
  {
    hide Spells, Stops;
    SpellingEnds(tokens[0], pieces[0].text);
    var rest := Written(pieces[1..], "");
    assert Written(pieces, "") == pieces[0].gap + pieces[0].text + rest;
    if tokens[1..] != [] {
      WrittenEnds(tokens[1..], pieces[1..]);
    } else {
      assert rest == "";
    }
  }

  function Regapped(pieces: seq<Piece>, gap: string): seq<Piece>
    requires pieces != []
  {
    [Piece(gap, pieces[0].text)] + pieces[1..]
  }

  lemma {:induction false} FitsGap(tokens: seq<Token>, pieces: seq<Piece>, tail: string, gap: string)
    requires Fits(tokens, pieces, tail) && tokens != [] && AllSpace(gap)
    ensures Fits(tokens, Regapped(pieces, gap), tail)
    ensures Written(Regapped(pieces, gap), tail) == gap + Written(Regapped(pieces, ""), tail)
    ensures Written(pieces, tail) == pieces[0].gap + Written(Regapped(pieces, ""), tail)
  {
    hide Spells, Stops;
    assert Regapped(pieces, gap)[1..] == pieces[1..] && Regapped(pieces, "")[1..] == pieces[1..];
    var rest := pieces[0].text + Written(pieces[1..], tail);
    assert "" + rest == rest;
  }

  lemma {:induction false} WrittenTrimmed(tokens: seq<Token>, pieces: seq<Piece>, tail: string)
    requires Fits(tokens, pieces, tail) && tokens != []
    ensures Trimmed(Written(pieces, tail)) == Written(Regapped(pieces, ""), "")
    ensures Fits(tokens, Regapped(pieces, ""), "")
  {
    hide Spells, Stops, Trimmed, IsSpace;
    FitsTail(tokens, pieces, tail);
    FitsGap(tokens, pieces, "", "");
    WrittenTail(pieces, tail);
    var core := Written(Regapped(pieces, ""), "");
    WrittenEnds(tokens, Regapped(pieces, ""));
    SpellingStarts(tokens[0], pieces[0].text);
    assert core == pieces[0].text + Written(pieces[1..], "") by {
      assert Regapped(pieces, "")[1..] == pieces[1..];
    }
    TrimmedIs(pieces[0].gap, core, tail);
  }

  /** tokenizer_tokenize reads back what is written down, and accepts nothing else: what it makes of
      a text, trimmed first, is what there is in the text. */
  lemma {:induction false} TokenizeExact(s: string)
    ensures Tokenized(s).Ok? <==> Tokens(s).Ok? && Tokens(s).value != []
    ensures Tokenized(s).Ok? ==> Tokenized(s) == Tokens(s) && Tokenized(s).value != []
  {
    hide Spells, Stops, Fits, Next;
    if Tokens(s).Ok? && Tokens(s).value != [] {
      var tokens := Tokens(s).value;
      var pieces, tail := TokenizedIsWritten(s);
      BlankIfNone(tokens, pieces, tail);
      WrittenTrimmed(tokens, pieces, tail);
      WrittenTokenizes(tokens, Regapped(pieces, ""), "");
      assert Tokens(Trimmed(s)) == Ok(tokens);
      assert Trimmed(s) != "";
    }
    if Tokenized(s).Ok? {
      TrimmedTokens(s);
    }
  }

  lemma BlankIfNone(tokens: seq<Token>, pieces: seq<Piece>, tail: string)
    requires Fits(tokens, pieces, tail)
    ensures tokens == [] <==> pieces == []
    ensures tokens == [] ==> AllSpace(Written(pieces, tail))
  {
    hide Spells, Stops;
  }

  lemma EndsOf(a: string, b: string)
    ensures a != "" ==> (a + b)[0] == a[0]
    ensures b != "" ==> (a + b)[|a + b| - 1] == b[|b| - 1]
    ensures "" + b == b && a + "" == a
  {
  }

  lemma {:induction false} TrimmedTokens(s: string)
    requires Tokenized(s).Ok?
    ensures Tokens(s) == Tokenized(s) && Tokenized(s).value != []
  {
    hide Spells, Stops, Next;
    var core, tokens := Trimmed(s), Tokenized(s).value;
    var pieces, rest := TokenizedIsWritten(core);
    var gap, tail := TrimmedFrom(s);
    TrimmedEnds(s);
    BlankIfNone(tokens, pieces, rest);
    NoTail(tokens, pieces, rest, core);
    FitsGap(tokens, pieces, "", gap);
    NoGap(tokens, pieces, core);
    FitsTail(tokens, Regapped(pieces, gap), tail);
    WrittenTail(Regapped(pieces, gap), tail);
    WrittenTokenizes(tokens, Regapped(pieces, gap), tail);
    assert s == Written(Regapped(pieces, gap), tail);
  }

  lemma {:induction false} TrimmedEnds(s: string)
    ensures var core := Trimmed(s); core != "" ==> !IsSpace(core[0]) && !IsSpace(core[|core| - 1])
    decreases |s|
  {
    if s != "" && IsSpace(s[|s| - 1]) {
      TrimmedEnds(s[..|s| - 1]);
    } else {
      var n := RunLength(s, IsSpace);
      assert n < |s| ==> s[n..][0] == s[n] && s[n..][|s| - n - 1] == s[|s| - 1];
    }
  }

  lemma {:induction false} NoTail(tokens: seq<Token>, pieces: seq<Piece>, rest: string, core: string)
    requires Fits(tokens, pieces, rest) && core == Written(pieces, rest) && core != "" && !IsSpace(core[|core| - 1])
    ensures rest == "" && Fits(tokens, pieces, "")
  {
    WrittenTail(pieces, rest);
    EndsOf(Written(pieces, ""), rest);
  }

  lemma {:induction false} NoGap(tokens: seq<Token>, pieces: seq<Piece>, core: string)
    requires Fits(tokens, pieces, "") && tokens != [] && core == Written(pieces, "") && core != "" && !IsSpace(core[0])
    ensures core == Written(Regapped(pieces, ""), "")
  {
    hide Spells, Stops;
    FitsGap(tokens, pieces, "", "");
    EndsOf(pieces[0].gap, Written(Regapped(pieces, ""), ""));
  }
}
