/**
The statement splitter of src/utils.c, which looks for the semicolon that ends a statement without
tokenizing, and its agreement with the tokenizer about what is inside quotes.
*/
module Splitter {
  import opened Wrappers
  import opened Text
  import opened Tokenizer
  import opened Layout

  function Moved(n: nat, at: Option<nat>): Option<nat> {
    match at
    case Some(t) => Some(n + t)
    case None => None
  }

  /** The first semicolon outside quotes, by the splitter's own reading of quotes. */
  function Terminator(s: string, inQuotes: bool): (r: Option<nat>)
    ensures r.Some? ==> r.value < |s| && s[r.value] == ';'
    decreases |s|
  {
    if s == "" then None
    else if s[0] == '\'' then
      if inQuotes && |s| > 1 && s[1] == '\'' then Moved(2, Terminator(s[2..], true))
      else Moved(1, Terminator(s[1..], !inQuotes))
    else if !inQuotes && s[0] == ';' then Some(0)
    else Moved(1, Terminator(s[1..], inQuotes))
  }

  lemma {:induction false} TerminatorStep(text: string, i: nat, inQuotes: bool)
    requires i < |text|
    ensures Moved(i, Terminator(text[i..], inQuotes)) ==
      if text[i] == '\'' then
        if inQuotes && i + 1 < |text| && text[i + 1] == '\'' then Moved(i + 2, Terminator(text[i + 2..], true))
        else Moved(i + 1, Terminator(text[i + 1..], !inQuotes))
      else if !inQuotes && text[i] == ';' then Some(i)
      else Moved(i + 1, Terminator(text[i + 1..], inQuotes))
  {
    assert text[i..][1..] == text[i + 1..];
    if i + 1 < |text| {
      assert text[i..][2..] == text[i + 2..];
    }
  }

  lemma TerminatorEnd(text: string, inQuotes: bool)
    ensures Moved(|text|, Terminator(text[|text|..], inQuotes)) == None
  {
  }

  /** utils_find_statement_terminator. */
  method FindStatementTerminator(text: string, start: nat) returns (r: Option<nat>)
    requires start <= |text|
    ensures r == Moved(start, Terminator(text[start..], false))
  {
    hide *;
    var inQuotes := false;
    var i := start;
    ghost var whole := Moved(start, Terminator(text[start..], false));
    while i < |text|
      invariant start <= i <= |text| && whole == Moved(i, Terminator(text[i..], inQuotes))
    {
      TerminatorStep(text, i, inQuotes);
      if text[i] == '\'' {
        if inQuotes && i + 1 < |text| && text[i + 1] == '\'' {
          i := i + 2;
          continue;
        }
        inQuotes := !inQuotes;
        i := i + 1;
        continue;
      }
      if !inQuotes && text[i] == ';' {
        return Some(i);
      }
      i := i + 1;
    }
    TerminatorEnd(text, inQuotes);
    return None;
  }

  // ---------- Agreement with the tokenizer ----------

  /** Inside a literal the splitter goes exactly as far as the tokenizer does. */
  lemma {:induction false} LiteralPassed(s: string)
    ensures
      match ReadLiteral(s)
      case Closed(_, used) => Terminator(s, true) == Moved(used, Terminator(s[used..], false))
      case Open(_) => Terminator(s, true) == None
    decreases |s|
  {
    if s != "" {
      var k := if s[0] == '\'' then 2 else 1;
      if s[0] != '\'' || (|s| > 1 && s[1] == '\'') {
        LiteralPassed(s[k..]);
        assert ReadLiteral(s) == After(s[0], k, ReadLiteral(s[k..]));
        assert Terminator(s, true) == Moved(k, Terminator(s[k..], true));
        hide ReadLiteral, Terminator;
        var rest := ReadLiteral(s[k..]);
        assert rest.Closed? ==> s[k..][rest.used..] == s[k + rest.used..];
      }
    }
  }

  predicate Plain(c: char) {
    c != '\'' && c != ';'
  }

  lemma {:induction false} PlainPassed(s: string, n: nat)
    requires n <= |s| && forall j :: 0 <= j < n ==> Plain(s[j])
    ensures Terminator(s, false) == Moved(n, Terminator(s[n..], false))
  {
    if n > 0 {
      PlainPassed(s[1..], n - 1);
      assert s[1..][n - 1..] == s[n..];
    } else {
      assert s[0..] == s;
    }
  }

  /** One token of the tokenizer, seen by the splitter. */
  lemma {:induction false} TokenPassed(s: string)
    requires s != "" && !IsSpace(s[0]) && Next(s).Ok?
    ensures var cut := Next(s).value;
      if cut.token == SEMICOLON then s[0] == ';' && cut.used == 1 && Terminator(s, false) == Some(0)
      else Terminator(s, false) == Moved(cut.used, Terminator(s[cut.used..], false))
  {
    if s[0] == '\'' {
      StringPassed(s);
      hide Next, Terminator;
    } else if s[0] != ';' {
      PlainToken(s);
      hide Next, Terminator;
      PlainPassed(s, Next(s).value.used);
    } else {
      hide NextLong;
    }
  }

  lemma {:induction false} StringPassed(s: string)
    requires s != "" && s[0] == '\'' && Next(s).Ok?
    ensures Next(s).value.token.kind == StrLiteral
    ensures Terminator(s, false) == Moved(Next(s).value.used, Terminator(s[Next(s).value.used..], false))
  {
    var n := Next(s).value.used;
    var rest := s[1..];
    LiteralPassed(rest);
    hide ReadLiteral, NumberStarts;
    assert rest[n - 1..] == s[n..];
    assert Terminator(s, false) == Moved(1, Terminator(rest, true));
    hide Terminator;
  }

  lemma {:induction false} PlainToken(s: string)
    requires s != "" && s[0] != '\'' && s[0] != ';' && Next(s).Ok?
    ensures Next(s).value.token != SEMICOLON
    ensures forall j :: 0 <= j < Next(s).value.used ==> Plain(s[j])
  {
    var n := Next(s).value.used;
    if NumberStarts(s) {
      forall j | 0 <= j < n ensures Plain(s[j]) {
        if j > 0 {
          assert IsDigit(s[0]) || s[j] == s[1..][j - 1];
        }
      }
    }
    hide ReadLiteral, IsKeyword, Fold;
  }

  /** Cutting the text at its terminator cuts its tokens right after token k, the first semicolon;
      without a terminator there is none. */
  ghost predicate SplitAt(s: string, at: Option<nat>, ts: seq<Token>, k: nat) {
    Tokens(s) == Ok(ts) && Terminator(s, false) == at &&
    match at
    case None => SEMICOLON !in ts
    case Some(t) =>
      k < |ts| && ts[k] == SEMICOLON && SEMICOLON !in ts[..k] && t < |s| &&
      Tokens(s[..t + 1]) == Ok(ts[..k + 1]) && Tokens(s[t + 1..]) == Ok(ts[k + 1..])
  }

  lemma {:induction false} SpaceSplit(s: string, at: Option<nat>, ts: seq<Token>, k: nat)
    requires s != "" && IsSpace(s[0]) && SplitAt(s[1..], at, ts, k)
    ensures SplitAt(s, Moved(1, at), ts, k)
  {
    var rest := s[1..];
    if at.Some? {
      var t := at.value;
      assert s[..t + 2][1..] == rest[..t + 1];
      assert s[t + 2..] == rest[t + 1..];
    }
    hide Next;
  }

  lemma {:induction false} SemiSplit(s: string, ts: seq<Token>)
    requires s != "" && s[0] == ';' && Tokens(s) == Ok(ts)
    ensures SplitAt(s, Some(0), ts, 0)
  {
    hide NextLong;
    var front := s[..1];
    assert front[0] == ';' && front[1..] == "";
    assert Tokens(front) == Prefixed([SEMICOLON], Tokens("")) && Tokens("") == Ok([]);
    assert Tokens(s) == Prefixed([SEMICOLON], Tokens(s[1..]));
    assert Terminator(s, false) == Some(0);
    var rest := Tokens(s[1..]).value;
    hide Tokens, Next, Terminator;
    assert ts == [SEMICOLON] + rest;
    assert ([SEMICOLON] + rest)[..1] == [SEMICOLON] + [] && ([SEMICOLON] + rest)[1..] == rest &&
      ([SEMICOLON] + rest)[..0] == [];
  }

  lemma {:induction false} Consed(token: Token, ts: seq<Token>, k: nat)
    requires k < |ts| && token != SEMICOLON && SEMICOLON !in ts[..k]
    ensures ([token] + ts)[..k + 2] == [token] + ts[..k + 1]
    ensures ([token] + ts)[k + 2..] == ts[k + 1..]
    ensures ([token] + ts)[k + 1] == ts[k]
    ensures SEMICOLON !in ([token] + ts)[..k + 1]
  {
    assert ([token] + ts)[..k + 1] == [token] + ts[..k];
  }

  lemma Cutting(s: string, n: nat, t: nat)
    requires n + t < |s|
    ensures s[..n + t + 1] == "" + (s[..n] + s[n..][..t + 1])
    ensures s[n + t + 1..] == s[n..][t + 1..]
    ensures s[n..] == s[n..][..t + 1] + s[n..][t + 1..]
  {
  }

  lemma {:induction false} TokenSplit(s: string, token: Token, n: nat, at: Option<nat>, ts: seq<Token>, k: nat)
    requires n <= |s| && SplitAt(s[n..], at, ts, k) && token != SEMICOLON
    requires Tokens(s) == Ok([token] + ts) && Terminator(s, false) == Moved(n, at)
    requires at.Some? ==>
      n + at.value < |s| && Tokens(s[..n + at.value + 1]) == Prefixed([token], Tokens(s[n..][..at.value + 1]))
    ensures SplitAt(s, Moved(n, at), [token] + ts, k + 1)
  {
    hide Tokens, Terminator;
    if at.Some? {
      Cutting(s, n, at.value);
      Consed(token, ts, k);
    }
  }

  lemma {:induction false} FrontTokens(s: string, token: Token, n: nat, t: nat)
    requires s != "" && !IsSpace(s[0]) && Next(s) == Ok(Cut(token, n)) && n + t < |s|
    ensures Tokens(s[..n + t + 1]) == Prefixed([token], Tokens(s[n..][..t + 1]))
  {
    ReadIsSpelling(s);
    hide *;
    var front, back := s[n..][..t + 1], s[n..][t + 1..];
    Cutting(s, n, t);
    StopsBefore(token, s[..n], front, back);
    var piece := Piece("", s[..n]);
    NoSpace();
    PieceReads(token, piece, front);
    assert piece.gap == "" && piece.text == s[..n];
  }

  lemma NoSpace()
    ensures AllSpace("")
  {
  }

  /** Where the tokenizer accepts a text, the splitter finds the end of its first statement. */
  lemma {:induction false} SplitterAgrees(s: string) returns (k: nat)
    requires Tokens(s).Ok?
    ensures SplitAt(s, Terminator(s, false), Tokens(s).value, k)
    decreases |s|
  {
    k := 0;
    if s == "" {
    } else if IsSpace(s[0]) {
      SpaceFacts(s);
      hide SplitAt, Next, Tokens, Terminator;
      k := SplitterAgrees(s[1..]);
      SpaceSplit(s, Terminator(s[1..], false), Tokens(s[1..]).value, k);
    } else {
      TokenFacts(s);
      hide SplitAt, Next, Terminator, Tokens;
      var cut := Next(s).value;
      if cut.token == SEMICOLON {
        SemiSplit(s, Tokens(s).value);
      } else {
        k := SplitterAgrees(s[cut.used..]);
        AgreesFurther(s, cut.token, cut.used, k);
        k := k + 1;
      }
    }
  }

  lemma {:induction false} AgreesFurther(s: string, token: Token, n: nat, k: nat)
    requires s != "" && !IsSpace(s[0]) && Next(s) == Ok(Cut(token, n)) && token != SEMICOLON && n <= |s|
    requires Tokens(s).Ok? && Tokens(s[n..]).Ok? && SplitAt(s[n..], Terminator(s[n..], false), Tokens(s[n..]).value, k)
    ensures SplitAt(s, Terminator(s, false), Tokens(s).value, k + 1)
  {
    TokenFacts(s);
    var at := Terminator(s[n..], false);
    hide *;
    if at.Some? {
      FrontTokens(s, token, n, at.value);
    }
    MovedIs(n, at);
    TokenSplit(s, token, n, at, Tokens(s[n..]).value, k);
  }

  lemma MovedIs(n: nat, at: Option<nat>)
    ensures Moved(n, at) == (match at case Some(t) => Some(n + t) case None => None)
  {
  }

  lemma SpaceFacts(s: string)
    requires s != "" && IsSpace(s[0])
    ensures Tokens(s) == Tokens(s[1..]) && Terminator(s, false) == Moved(1, Terminator(s[1..], false))
  {
    hide Next;
  }

  lemma {:induction false} TokenFacts(s: string)
    requires s != "" && !IsSpace(s[0]) && Tokens(s).Ok?
    ensures Next(s).Ok?
    ensures var cut := Next(s).value;
      Tokens(s[cut.used..]).Ok? && Tokens(s) == Ok([cut.token] + Tokens(s[cut.used..]).value) &&
      if cut.token == SEMICOLON then s[0] == ';' && Terminator(s, false) == Some(0)
      else Terminator(s, false) == Moved(cut.used, Terminator(s[cut.used..], false))
  {
    TokenPassed(s);
    hide Next, Terminator;
  }

  /** How the splitter goes on from a character that is not the terminator: how far, and in quotes or not. */
  function Stride(s: string, inQuotes: bool): (nat, bool)
    requires s != ""
  {
    if s[0] == '\'' then if inQuotes && |s| > 1 && s[1] == '\'' then (2, true) else (1, !inQuotes)
    else (1, inQuotes)
  }

  lemma Strides(s: string, inQuotes: bool)
    requires s != "" && (inQuotes || s[0] != ';')
    ensures var (n, q) := Stride(s, inQuotes); n <= |s| && Terminator(s, inQuotes) == Moved(n, Terminator(s[n..], q))
  {
  }

  lemma {:induction false} TerminatorLocal(s: string, inQuotes: bool, m: nat)
    requires m <= |s| && Terminator(s, inQuotes).Some? && Terminator(s, inQuotes).value < m
    ensures Terminator(s[..m], inQuotes) == Terminator(s, inQuotes)
    decreases |s|
  {
    var front := s[..m];
    if inQuotes || s[0] != ';' {
      Strides(s, inQuotes);
      Strides(front, inQuotes);
      hide Terminator;
      var (n, q) := Stride(s, inQuotes);
      TerminatorLocal(s[n..], q, m - n);
      assert front[n..] == s[n..][..m - n];
      assert |s| > 1 && m > 1 ==> front[1] == s[1];
      assert Stride(front, inQuotes) == (n, q);
    }
  }

  /** For every text and starting point: if what the splitter cuts off tokenizes at all, it has exactly
      one semicolon token, and that is the last. */
  lemma {:induction false} CutHasOneSemicolon(text: string, start: nat)
    requires start <= |text| && Terminator(text[start..], false).Some?
    requires Tokens(text[start..][..Terminator(text[start..], false).value + 1]).Ok?
    ensures var ts := Tokens(text[start..][..Terminator(text[start..], false).value + 1]).value;
      ts != [] && ts[|ts| - 1] == SEMICOLON && SEMICOLON !in ts[..|ts| - 1]
  {
    var s := text[start..];
    var t := Terminator(s, false).value;
    var front := s[..t + 1];
    TerminatorLocal(s, false, t + 1);
    hide *;
    var k := SplitterAgrees(front);
    assert front[..t + 1] == front;
    LastSemicolon(front, t, Tokens(front).value, k);
  }

  lemma LastSemicolon(front: string, t: nat, ts: seq<Token>, k: nat)
    requires SplitAt(front, Some(t), ts, k) && |front| == t + 1
    ensures ts != [] && ts[|ts| - 1] == SEMICOLON && SEMICOLON !in ts[..|ts| - 1]
  {
    hide Tokens, Terminator;
    assert front[..t + 1] == front;
    assert |ts[..k + 1]| == k + 1;
  }
}
