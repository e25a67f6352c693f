/**
The tokenizer of src/tokenizer.c: its readers and its main loop against a specification that cuts
one token at a time off the front of the text.
*/
module Tokenizer {
  import opened Wrappers
  import opened Text

  const MAX_TOKEN_VALUE: nat := 256

  datatype TokenType =
    | Keyword | Identifier | IntLiteral | StrLiteral | Operator
    | LParen | RParen | Comma | Semicolon | Unknown

  datatype Token = Token(kind: TokenType, value: string)

  const SEMICOLON := Token(Semicolon, ";")

  datatype LexError = EmptySql | TooLong | Unterminated

  // ---------- Runs of characters ----------

  predicate IsWordChar(c: char) {
    IsAlpha(c) || IsDigit(c) || c == '_'
  }

  lemma WordCodes(c: char)
    ensures IsWordChar(c) <==>
      48 <= c as int <= 57 || 65 <= c as int <= 90 || 97 <= c as int <= 122 || c as int == 95
  {
  }

  predicate IsKeyword(word: string) {
    Fold(word) in ["INSERT", "SELECT", "DELETE", "INTO", "FROM", "WHERE", "VALUES"]
  }

  /** Whatever its case, a word is one of the seven keywords or none; the letters alone have two cases. */
  lemma KeywordsFold(word: string)
    ensures IsKeyword(word) <==>
      SameName(word, "insert") || SameName(word, "select") || SameName(word, "delete") || SameName(word, "into") ||
      SameName(word, "from") || SameName(word, "where") || SameName(word, "values")
  {
    KeywordsUpper();
    hide Fold;
  }

  lemma KeywordsUpper()
    ensures Fold("insert") == "INSERT" && Fold("select") == "SELECT" && Fold("delete") == "DELETE"
    ensures Fold("into") == "INTO" && Fold("from") == "FROM" && Fold("where") == "WHERE" && Fold("values") == "VALUES"
  {
  }

  // ---------- String literals ----------

  /** What follows an opening quote: the value up to its closing quote and how many characters that
      took, or the value up to the end of the text. */
  datatype Literal = Closed(value: string, used: nat) | Open(value: string)

  function After(c: char, n: nat, rest: Literal): Literal {
    match rest
    case Closed(value, used) => Closed([c] + value, n + used)
    case Open(value) => Open([c] + value)
  }

  function ReadLiteral(s: string): (r: Literal)
    ensures r.Closed? ==> 0 < r.used <= |s|
    decreases |s|
  {
    if s == "" then Open("")
    else if s[0] == '\'' then
      if |s| > 1 && s[1] == '\'' then After('\'', 2, ReadLiteral(s[2..])) else Closed("", 1)
    else After(s[0], 1, ReadLiteral(s[1..]))
  }

  // ---------- One token ----------

  datatype Cut = Cut(token: Token, used: nat)

  function Short(kind: TokenType, value: string, used: nat): Result<Cut, LexError> {
    if |value| >= MAX_TOKEN_VALUE then Err(TooLong) else Ok(Cut(Token(kind, value), used))
  }

  predicate IsSign(c: char) {
    c == '-' || c == '+'
  }

  predicate NumberStarts(s: string) {
    (s != "" && IsDigit(s[0])) || (|s| > 1 && IsSign(s[0]) && IsDigit(s[1]))
  }

  function NumberLength(s: string): (n: nat)
    requires NumberStarts(s)
    ensures 0 < n <= |s|
  {
    if IsDigit(s[0]) then RunLength(s, IsDigit) else 1 + RunLength(s[1..], IsDigit)
  }

  /** The token a text starts with; the text does not start with a space. */
  function Next(s: string): (r: Result<Cut, LexError>)
    requires s != ""
    ensures r.Ok? ==> 0 < r.value.used <= |s|
  {
    var c := s[0];
    if c == '(' then Short(LParen, "(", 1)
    else if c == ')' then Short(RParen, ")", 1)
    else if c == ',' then Short(Comma, ",", 1)
    else if c == ';' then Short(Semicolon, ";", 1)
    else if c == '*' then Short(Identifier, "*", 1)
    else if c == '!' || c == '<' || c == '>' || c == '=' then
      if c != '=' && |s| > 1 && s[1] == '=' then Short(Operator, [c, '='], 2) else Short(Operator, [c], 1)
    else if c == '\'' || NumberStarts(s) || IsAlpha(c) || c == '_' then NextLong(s)
    else Short(Unknown, [c], 1)
  }

  /** A string, a number or a word. */
  function NextLong(s: string): (r: Result<Cut, LexError>)
    requires s != "" && (s[0] == '\'' || NumberStarts(s) || IsAlpha(s[0]) || s[0] == '_')
    ensures r.Ok? ==> 0 < r.value.used <= |s|
  {
    if s[0] == '\'' then
      match ReadLiteral(s[1..])
      case Closed(value, used) => Short(StrLiteral, value, 1 + used)
      case Open(value) => if |value| >= MAX_TOKEN_VALUE then Err(TooLong) else Err(Unterminated)
    else if NumberStarts(s) then Short(IntLiteral, s[..NumberLength(s)], NumberLength(s))
    else
      var n := RunLength(s, IsWordChar);
      if IsKeyword(s[..n]) then Short(Keyword, Fold(s[..n]), n)
      else Short(Identifier, s[..n], n)
  }

  // ---------- All of them ----------

  function Tokens(s: string): Result<seq<Token>, LexError>
    decreases |s|
  {
    if s == "" then Ok([])
    else if IsSpace(s[0]) then Tokens(s[1..])
    else
      match Next(s)
      case Err(e) => Err(e)
      case Ok(cut) => Prefixed([cut.token], Tokens(s[cut.used..]))
  }

  function Prefixed(front: seq<Token>, rest: Result<seq<Token>, LexError>): Result<seq<Token>, LexError> {
    match rest
    case Ok(tokens) => Ok(front + tokens)
    case Err(e) => Err(e)
  }

  /** utils_trim. */
  function Trimmed(s: string): string {
    if s != "" && IsSpace(s[|s| - 1]) then Trimmed(s[..|s| - 1])
    else s[RunLength(s, IsSpace)..]
  }

  function Tokenized(s: string): Result<seq<Token>, LexError> {
    if Trimmed(s) == "" then Err(EmptySql) else Tokens(Trimmed(s))
  }

  // ---------- The readers ----------

  /** The buffer holds what has been read since the start. */
  ghost predicate Gathered(sql: string, start: nat, next: nat, buffer: string) {
    start <= next <= |sql| && buffer == sql[start..next]
  }

  ghost function RunAt(sql: string, k: nat, test: char -> bool): nat
    requires k <= |sql|
  {
    RunLength(sql[k..], test)
  }

  lemma GatherStart(sql: string, start: nat)
    requires start <= |sql|
    ensures Gathered(sql, start, start, "")
  {
  }

  lemma GatherStep(sql: string, start: nat, next: nat, buffer: string)
    requires Gathered(sql, start, next, buffer) && next < |sql|
    ensures Gathered(sql, start, next + 1, buffer + [sql[next]])
  {
  }

  lemma RunStep(sql: string, k: nat, test: char -> bool)
    requires k < |sql| && test(sql[k])
    ensures RunAt(sql, k, test) == 1 + RunAt(sql, k + 1, test)
  {
    assert sql[k..][1..] == sql[k + 1..];
  }

  lemma RunStops(sql: string, k: nat, test: char -> bool)
    requires k <= |sql| && (k < |sql| ==> !test(sql[k]))
    ensures RunAt(sql, k, test) == 0
  {
  }

  lemma RunIsAt(sql: string, k: nat, test: char -> bool)
    requires k <= |sql|
    ensures RunAt(sql, k, test) == RunLength(sql[k..], test)
  {
    hide RunLength;
  }

  /** What has been read from the start: the characters up to `first` and the run from there on, if short. */
  ghost predicate ReadsRun(
      sql: string, start: nat, first: nat, test: char -> bool, r: Result<string, LexError>, next: nat)
    requires start <= first <= |sql|
  {
    var n := first - start + RunAt(sql, first, test);
    if n < MAX_TOKEN_VALUE then start + n <= |sql| && r == Ok(sql[start..start + n]) && next == start + n
    else r == Err(TooLong)
  }

  lemma RunDone(sql: string, start: nat, first: nat, next: nat, buffer: string, test: char -> bool)
    requires start <= first <= next <= |sql| && Gathered(sql, start, next, buffer) && |buffer| < MAX_TOKEN_VALUE
    requires RunAt(sql, first, test) == next - first
    ensures ReadsRun(sql, start, first, test, Ok(buffer), next)
  {
    hide RunAt;
  }

  lemma RunLong(sql: string, start: nat, first: nat, next: nat, test: char -> bool)
    requires start <= first <= |sql| && first - start + RunAt(sql, first, test) >= MAX_TOKEN_VALUE
    ensures ReadsRun(sql, start, first, test, Err(TooLong), next)
  {
    hide RunAt;
  }

  lemma RunRead(
      sql: string, start: nat, first: nat, test: char -> bool, r: Result<string, LexError>, next: nat)
    requires start <= first <= |sql| && ReadsRun(sql, start, first, test, r, next)
    ensures var n := first - start + RunLength(sql[first..], test);
      if n < MAX_TOKEN_VALUE then start + n <= |sql| && r == Ok(sql[start..start + n]) && next == start + n
      else r == Err(TooLong)
  {
    RunIsAt(sql, first, test);
    hide RunLength, RunAt;
  }

  lemma GatherFits(sql: string, start: nat, next: nat, buffer: string)
    requires Gathered(sql, start, next, buffer)
    ensures start <= next <= |sql| && |buffer| == next - start
  {
  }

  /** tokenizer_read_word. */
  method ReadWord(sql: string, start: nat) returns (r: Result<string, LexError>, next: nat)
    requires start <= |sql|
    ensures var n := RunLength(sql[start..], IsWordChar);
      if n < MAX_TOKEN_VALUE then r == Ok(sql[start..start + n]) && next == start + n else r == Err(TooLong)
  {
    r, next := ReadWordChars(sql, start);
    RunRead(sql, start, start, IsWordChar, r, next);
    hide *;
  }

  method ReadWordChars(sql: string, start: nat) returns (r: Result<string, LexError>, next: nat)
    requires start <= |sql|
    ensures ReadsRun(sql, start, start, IsWordChar, r, next)
  {
    assert 1 < MAX_TOKEN_VALUE;
    hide *;
    var buffer := "";
    next := start;
    GatherStart(sql, start);
    while next < |sql| && IsWordChar(sql[next])
      invariant start <= next <= |sql| && Gathered(sql, start, next, buffer)
      invariant |buffer| == next - start < MAX_TOKEN_VALUE
      invariant RunAt(sql, start, IsWordChar) == next - start + RunAt(sql, next, IsWordChar)
    {
      RunStep(sql, next, IsWordChar);
      GatherStep(sql, start, next, buffer);
      if |buffer| + 1 >= MAX_TOKEN_VALUE {
        RunLong(sql, start, start, next, IsWordChar);
        return Err(TooLong), next;
      }
      buffer := buffer + [sql[next]];
      next := next + 1;
    }
    RunStops(sql, next, IsWordChar);
    RunDone(sql, start, start, next, buffer, IsWordChar);
    return Ok(buffer), next;
  }

  /** tokenizer_read_number. */
  method ReadNumber(sql: string, start: nat) returns (r: Result<string, LexError>, next: nat)
    requires start < |sql|
    ensures
      var first := if IsSign(sql[start]) then start + 1 else start;
      var n := first - start + RunLength(sql[first..], IsDigit);
      if n < MAX_TOKEN_VALUE then r == Ok(sql[start..start + n]) && next == start + n else r == Err(TooLong)
  {
    assert 1 < MAX_TOKEN_VALUE;
    hide *;
    GatherStart(sql, start);
    if IsSign(sql[start]) {
      GatherStep(sql, start, start, "");
      GatherFits(sql, start, start + 1, "" + [sql[start]]);
      r, next := ReadDigits(sql, start, start + 1, "" + [sql[start]]);
      RunRead(sql, start, start + 1, IsDigit, r, next);
    } else {
      r, next := ReadDigits(sql, start, start, "");
      RunRead(sql, start, start, IsDigit, r, next);
    }
  }

  /** The digits of a number, behind its sign. */
  method ReadDigits(sql: string, start: nat, first: nat, front: string)
    returns (r: Result<string, LexError>, next: nat)
    requires start <= first <= |sql| && Gathered(sql, start, first, front) && |front| == first - start < MAX_TOKEN_VALUE
    ensures ReadsRun(sql, start, first, IsDigit, r, next)
  {
    hide *;
    var buffer := front;
    next := first;
    while next < |sql| && IsDigit(sql[next])
      invariant start <= first <= next <= |sql| && Gathered(sql, start, next, buffer)
      invariant |buffer| == next - start < MAX_TOKEN_VALUE
      invariant RunAt(sql, first, IsDigit) == next - first + RunAt(sql, next, IsDigit)
    {
      RunStep(sql, next, IsDigit);
      GatherStep(sql, start, next, buffer);
      if |buffer| + 1 >= MAX_TOKEN_VALUE {
        RunLong(sql, start, first, next, IsDigit);
        return Err(TooLong), next;
      }
      buffer := buffer + [sql[next]];
      next := next + 1;
    }
    RunStops(sql, next, IsDigit);
    RunDone(sql, start, first, next, buffer, IsDigit);
    return Ok(buffer), next;
  }

  lemma SignFirst(sql: string, start: nat)
    requires start < |sql| && NumberStarts(sql[start..])
    ensures NumberLength(sql[start..]) ==
      if IsSign(sql[start]) then 1 + RunLength(sql[start + 1..], IsDigit) else RunLength(sql[start..], IsDigit)
  {
    assert sql[start..][0] == sql[start] && sql[start..][1..] == sql[start + 1..];
  }

  function Extend(front: string, rest: Literal, used: nat): Literal {
    match rest
    case Closed(value, n) => Closed(front + value, used + n)
    case Open(value) => Open(front + value)
  }

  lemma {:induction false} LiteralStep(sql: string, k: nat)
    requires k < |sql|
    ensures ReadLiteral(sql[k..]) ==
      if sql[k] != '\'' then After(sql[k], 1, ReadLiteral(sql[k + 1..]))
      else if k + 1 < |sql| && sql[k + 1] == '\'' then After('\'', 2, ReadLiteral(sql[k + 2..]))
      else Closed("", 1)
  {
    assert sql[k..][1..] == sql[k + 1..];
    assert k + 1 < |sql| ==> sql[k..][2..] == sql[k + 2..];
  }

  lemma ExtendAfter(front: string, c: char, n: nat, rest: Literal, used: nat)
    ensures Extend(front, After(c, n, rest), used) == Extend(front + [c], rest, used + n)
    ensures rest.Closed? ==> |After(c, n, rest).value| > 0
  {
    assert front + ([c] + rest.value) == front + [c] + rest.value;
  }

  lemma ExtendLonger(front: string, rest: Literal, used: nat)
    ensures |Extend(front, rest, used).value| >= |front|
    ensures Extend(front, Closed("", 1), used) == Closed(front, used + 1)
    ensures Extend(front, Open(""), used) == Open(front)
    ensures Extend("", rest, 0) == rest
  {
    assert front + "" == front;
  }

  /** tokenizer_read_string, from the opening quote on. */
  method ReadString(sql: string, start: nat) returns (r: Result<string, LexError>, next: nat)
    requires start < |sql| && sql[start] == '\''
    ensures
      match ReadLiteral(sql[start + 1..])
      case Closed(value, used) =>
        if |value| < MAX_TOKEN_VALUE then r == Ok(value) && next == start + 1 + used else r == Err(TooLong)
      case Open(value) => r == Err(if |value| < MAX_TOKEN_VALUE then Unterminated else TooLong)
  {
    assert 0 < MAX_TOKEN_VALUE;
    hide *;
    var buffer := "";
    next := start + 1;
    ghost var whole := ReadLiteral(sql[start + 1..]);
    ExtendLonger("", whole, 0);
    while next < |sql|
      invariant start < next <= |sql| && |buffer| < MAX_TOKEN_VALUE
      invariant whole == Extend(buffer, ReadLiteral(sql[next..]), next - start - 1)
    {
      LiteralStep(sql, next);
      if sql[next] == '\'' {
        if next + 1 < |sql| && sql[next + 1] == '\'' {
          ghost var rest := ReadLiteral(sql[next + 2..]);
          ExtendAfter(buffer, '\'', 2, rest, next - start - 1);
          ExtendLonger(buffer + ['\''], rest, next + 1 - start);
          if |buffer| + 1 >= MAX_TOKEN_VALUE {
            return Err(TooLong), next;
          }
          buffer := buffer + ['\''];
          next := next + 2;
          continue;
        }
        ExtendLonger(buffer, Closed("", 1), next - start - 1);
        return Ok(buffer), next + 1;
      }
      ghost var rest := ReadLiteral(sql[next + 1..]);
      ExtendAfter(buffer, sql[next], 1, rest, next - start - 1);
      ExtendLonger(buffer + [sql[next]], rest, next - start);
      if |buffer| + 1 >= MAX_TOKEN_VALUE {
        return Err(TooLong), next;
      }
      buffer := buffer + [sql[next]];
      next := next + 1;
    }
    ExtendLonger(buffer, Open(""), next - start - 1);
    return Err(Unterminated), next;
  }

  // ---------- The main loop ----------

  /** The end of the text on from a position, cut into tokens after those found before. */
  lemma {:induction false} TokensStep(sql: string, i: nat, front: seq<Token>)
    requires i < |sql|
    ensures var whole := Prefixed(front, Tokens(sql[i..]));
      if IsSpace(sql[i]) then whole == Prefixed(front, Tokens(sql[i + 1..]))
      else
        match Next(sql[i..])
        case Err(e) => whole == Err(e)
        case Ok(cut) => whole == Prefixed(front + [cut.token], Tokens(sql[i + cut.used..]))
  {
    assert sql[i..][1..] == sql[i + 1..];
    if !IsSpace(sql[i]) && Next(sql[i..]).Ok? {
      var cut := Next(sql[i..]).value;
      assert sql[i..][cut.used..] == sql[i + cut.used..];
      hide Next;
      var rest := Tokens(sql[i + cut.used..]);
      if rest.Ok? {
        assert front + ([cut.token] + rest.value) == front + [cut.token] + rest.value;
      }
    }
  }

  /** One round of the loop of tokenizer_tokenize_sql that finds a token. */
  method ReadToken(sql: string, i: nat) returns (r: Result<Token, LexError>, next: nat)
    requires i < |sql|
    ensures
      match Next(sql[i..])
      case Ok(cut) => r == Ok(cut.token) && next == i + cut.used
      case Err(e) => r == Err(e)
  {
    ghost var s := sql[i..];
    assert s[0] == sql[i] && (|s| > 1 ==> s[1] == sql[i + 1]);
    hide NextLong;
    var c := sql[i];
    if c == '(' {
      return Ok(Token(LParen, "(")), i + 1;
    }
    if c == ')' {
      return Ok(Token(RParen, ")")), i + 1;
    }
    if c == ',' {
      return Ok(Token(Comma, ",")), i + 1;
    }
    if c == ';' {
      return Ok(Token(Semicolon, ";")), i + 1;
    }
    if c == '*' {
      return Ok(Token(Identifier, "*")), i + 1;
    }
    if c == '!' || c == '<' || c == '>' || c == '=' {
      if (c == '!' || c == '<' || c == '>') && i + 1 < |sql| && sql[i + 1] == '=' {
        return Ok(Token(Operator, [c, '='])), i + 2;
      }
      return Ok(Token(Operator, [c])), i + 1;
    }
    if c == '\'' || IsDigit(c) || (IsSign(c) && i + 1 < |sql| && IsDigit(sql[i + 1])) || IsAlpha(c) || c == '_' {
      r, next := ReadLong(sql, i);
      return;
    }
    return Ok(Token(Unknown, [c])), i + 1;
  }

  method ReadLong(sql: string, i: nat) returns (r: Result<Token, LexError>, next: nat)
    requires i < |sql| && (sql[i] == '\'' || NumberStarts(sql[i..]) || IsAlpha(sql[i]) || sql[i] == '_')
    ensures
      match NextLong(sql[i..])
      case Ok(cut) => r == Ok(cut.token) && next == i + cut.used
      case Err(e) => r == Err(e)
  {
    assert IsDigit(sql[i]) || (IsSign(sql[i]) && i + 1 < |sql| && IsDigit(sql[i + 1])) <==> NumberStarts(sql[i..]);
    hide NextLong, NumberStarts;
    if sql[i] == '\'' {
      r, next := ReadStringToken(sql, i);
    } else if IsDigit(sql[i]) || (IsSign(sql[i]) && i + 1 < |sql| && IsDigit(sql[i + 1])) {
      r, next := ReadNumberToken(sql, i);
    } else {
      r, next := ReadWordToken(sql, i);
    }
  }

  method ReadStringToken(sql: string, i: nat) returns (r: Result<Token, LexError>, next: nat)
    requires i < |sql| && sql[i] == '\''
    ensures
      match NextLong(sql[i..])
      case Ok(cut) => r == Ok(cut.token) && next == i + cut.used
      case Err(e) => r == Err(e)
  {
    NextIsString(sql, i);
    hide *;
    var text;
    text, next := ReadString(sql, i);
    if text.Err? {
      return Err(text.error), next;
    }
    return Ok(Token(StrLiteral, text.value)), next;
  }

  lemma NextIsString(sql: string, i: nat)
    requires i < |sql| && sql[i] == '\''
    ensures NextLong(sql[i..]) ==
      match ReadLiteral(sql[i + 1..])
      case Closed(value, used) =>
        if |value| < MAX_TOKEN_VALUE then Ok(Cut(Token(StrLiteral, value), 1 + used)) else Err(TooLong)
      case Open(value) => if |value| < MAX_TOKEN_VALUE then Err(Unterminated) else Err(TooLong)
  {
    hide ReadLiteral;
    assert sql[i..][0] == sql[i] && sql[i..][1..] == sql[i + 1..];
  }

  method ReadNumberToken(sql: string, i: nat) returns (r: Result<Token, LexError>, next: nat)
    requires i < |sql| && sql[i] != '\'' && NumberStarts(sql[i..])
    ensures
      match NextLong(sql[i..])
      case Ok(cut) => r == Ok(cut.token) && next == i + cut.used
      case Err(e) => r == Err(e)
  {
    NextIsNumber(sql, i);
    hide *;
    var text;
    text, next := ReadNumber(sql, i);
    if text.Err? {
      return Err(text.error), next;
    }
    return Ok(Token(IntLiteral, text.value)), next;
  }

  lemma NextIsNumber(sql: string, i: nat)
    requires i < |sql| && sql[i] != '\'' && NumberStarts(sql[i..])
    ensures
      var first := if IsSign(sql[i]) then i + 1 else i;
      var n := first - i + RunLength(sql[first..], IsDigit);
      i + n <= |sql| &&
      NextLong(sql[i..]) ==
        if n < MAX_TOKEN_VALUE then Ok(Cut(Token(IntLiteral, sql[i..i + n]), n)) else Err(TooLong)
  {
    SignFirst(sql, i);
    hide RunLength, NumberStarts;
    var n := NumberLength(sql[i..]);
    hide NumberLength;
    assert sql[i..][0] == sql[i] && sql[i..][..n] == sql[i..i + n];
  }

  method ReadWordToken(sql: string, i: nat) returns (r: Result<Token, LexError>, next: nat)
    requires i < |sql| && sql[i] != '\'' && !NumberStarts(sql[i..]) && (IsAlpha(sql[i]) || sql[i] == '_')
    ensures
      match NextLong(sql[i..])
      case Ok(cut) => r == Ok(cut.token) && next == i + cut.used
      case Err(e) => r == Err(e)
  {
    NextIsWord(sql, i);
    hide *;
    var text;
    text, next := ReadWord(sql, i);
    if text.Err? {
      return Err(text.error), next;
    }
    if IsKeyword(text.value) {
      return Ok(Token(Keyword, Fold(text.value))), next;
    }
    return Ok(Token(Identifier, text.value)), next;
  }

  lemma NextIsWord(sql: string, i: nat)
    requires i < |sql| && sql[i] != '\'' && !NumberStarts(sql[i..]) && (IsAlpha(sql[i]) || sql[i] == '_')
    ensures
      var n := RunLength(sql[i..], IsWordChar);
      i + n <= |sql| &&
      NextLong(sql[i..]) ==
        if n >= MAX_TOKEN_VALUE then Err(TooLong)
        else if IsKeyword(sql[i..i + n]) then Ok(Cut(Token(Keyword, Fold(sql[i..i + n])), n))
        else Ok(Cut(Token(Identifier, sql[i..i + n]), n))
  {
    var n := RunLength(sql[i..], IsWordChar);
    assert sql[i..][0] == sql[i] && sql[i..][..n] == sql[i..i + n];
    KeywordsShort(sql[i..i + n]);
    assert |Fold(sql[i..i + n])| == n;
    hide RunLength, NumberStarts, IsKeyword, Fold;
  }

  lemma KeywordsShort(word: string)
    ensures IsKeyword(word) ==> |word| < MAX_TOKEN_VALUE
  {
    assert |Fold(word)| == |word|;
  }

  /** The tokens found before position i are those the text has there. */
  ghost predicate Found(sql: string, i: nat, tokens: seq<Token>) {
    i <= |sql| && Tokens(sql) == Prefixed(tokens, Tokens(sql[i..]))
  }

  lemma FoundAtStart(sql: string)
    ensures Found(sql, 0, [])
  {
    assert sql[0..] == sql;
    var whole := Tokens(sql);
    hide Tokens;
    assert whole.Ok? ==> [] + whole.value == whole.value;
  }

  lemma FoundAtEnd(sql: string, tokens: seq<Token>)
    requires Found(sql, |sql|, tokens)
    ensures Tokens(sql) == Ok(tokens)
  {
    assert sql[|sql|..] == "";
    assert Tokens("") == Ok([]);
    hide Tokens;
    assert tokens + [] == tokens;
  }

  lemma {:induction false} FoundStep(sql: string, i: nat, tokens: seq<Token>)
    requires Found(sql, i, tokens) && i < |sql|
    ensures
      if IsSpace(sql[i]) then Found(sql, i + 1, tokens)
      else
        match Next(sql[i..])
        case Err(e) => Tokens(sql) == Err(e)
        case Ok(cut) => Found(sql, i + cut.used, tokens + [cut.token])
  {
    hide Tokens, Next;
    TokensStep(sql, i, tokens);
  }

  /** tokenizer_tokenize_sql. */
  method TokenizeSql(sql: string) returns (r: Result<seq<Token>, LexError>)
    ensures r == Tokens(sql)
  {
    var tokens: seq<Token> := [];
    var i := 0;
    FoundAtStart(sql);
    hide Found, Tokens, Next;
    while i < |sql|
      invariant i <= |sql| && Found(sql, i, tokens)
    {
      FoundStep(sql, i, tokens);
      if IsSpace(sql[i]) {
        i := i + 1;
        continue;
      }
      var token, next := ReadToken(sql, i);
      if token.Err? {
        return Err(token.error);
      }
      tokens := tokens + [token.value];
      i := next;
    }
    FoundAtEnd(sql, tokens);
    return Ok(tokens);
  }

  lemma TrimStart(text: string)
    ensures Trimmed(text[..|text|]) == Trimmed(text)
  {
    assert text[..|text|] == text;
  }

  lemma TrimStep(text: string, length: nat)
    requires 0 < length <= |text|
    ensures Trimmed(text[..length]) ==
      if IsSpace(text[length - 1]) then Trimmed(text[..length - 1])
      else text[..length][RunAt(text[..length], 0, IsSpace)..]
  {
    var kept := text[..length];
    assert kept[..length - 1] == text[..length - 1] && kept[0..] == kept;
    hide RunLength;
  }

  lemma TrimNothing(text: string)
    ensures Trimmed(text[..0]) == "" && text[..0] == ""
  {
  }

  /** utils_trim. */
  method Trim(text: string) returns (r: string)
    ensures r == Trimmed(text)
  {
    hide *;
    var length := |text|;
    TrimStart(text);
    while length > 0 && IsSpace(text[length - 1])
      invariant 0 <= length <= |text| && Trimmed(text) == Trimmed(text[..length])
    {
      TrimStep(text, length);
      length := length - 1;
    }
    if length == 0 {
      TrimNothing(text);
      return "";
    }
    TrimStep(text, length);
    r := TrimLeft(text[..length]);
  }

  method TrimLeft(kept: string) returns (r: string)
    ensures RunAt(kept, 0, IsSpace) <= |kept| && r == kept[RunAt(kept, 0, IsSpace)..]
  {
    hide *;
    var start := 0;
    while start < |kept| && IsSpace(kept[start])
      invariant start <= |kept| && RunAt(kept, 0, IsSpace) == start + RunAt(kept, start, IsSpace)
    {
      RunStep(kept, start, IsSpace);
      start := start + 1;
    }
    RunStops(kept, start, IsSpace);
    return kept[start..];
  }

  /** tokenizer_tokenize. */
  method Tokenize(sql: string) returns (r: Result<seq<Token>, LexError>)
    ensures r == Tokenized(sql)
  {
    var working := Trim(sql);
    if working == "" {
      return Err(EmptySql);
    }
    r := TokenizeSql(working);
  }
}
