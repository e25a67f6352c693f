/**
The parser of src/parser.c: its routines over the shared token index, against a specification that
takes statements off the front of the remaining tokens.
*/
module Parser {
  import opened Wrappers
  import opened Statements
  import opened Tokenizer

  datatype ParseError =
    | EmptyStatement | Unsupported
    | UnexpectedSyntax | ExpectedIdentifier | IdentifierTooLong | ExpectedLiteral | LiteralTooLong
    | ExpectedOperator | BadOperator | ExpectedParen | TooManyColumns | CountMismatch | TrailingTokens

  datatype Value = Value(text: string, kind: ValueKind)

  /** What was read and the tokens that remain. */
  datatype Step<T> = Step(item: T, rest: seq<Token>)

  type Parsed<T> = Result<Step<T>, ParseError>

  // ---------- The grammar, taken from the front ----------

  predicate StartsWith(ts: seq<Token>, t: Token) {
    ts != [] && ts[0] == t
  }

  /** One token that must be there. */
  function Expect(ts: seq<Token>, t: Token, otherwise: ParseError): Result<seq<Token>, ParseError> {
    if StartsWith(ts, t) then Ok(ts[1..]) else Err(otherwise)
  }

  function TakeName(ts: seq<Token>): Parsed<string> {
    if ts == [] || ts[0].kind != Identifier then Err(ExpectedIdentifier)
    else if |ts[0].value| >= MAX_IDENTIFIER_LEN then Err(IdentifierTooLong)
    else Ok(Step(ts[0].value, ts[1..]))
  }

  function TakeValue(ts: seq<Token>): Parsed<Value> {
    if ts == [] || (ts[0].kind != IntLiteral && ts[0].kind != StrLiteral) then Err(ExpectedLiteral)
    else if |ts[0].value| >= MAX_VALUE_LEN then Err(LiteralTooLong)
    else Ok(Step(Value(ts[0].value, if ts[0].kind == IntLiteral then IntKind else StringKind), ts[1..]))
  }

  const COMMA := Token(Comma, ",")
  const LPAREN := Token(LParen, "(")
  const RPAREN := Token(RParen, ")")

  /** Names between commas, after n earlier ones; where the tokens end, so does the list. */
  function TakeNames(ts: seq<Token>, n: nat): Parsed<seq<string>>
    decreases |ts|
  {
    if ts == [] then Ok(Step([], []))
    else if n >= MAX_COLUMNS then Err(TooManyColumns)
    else
      var first :- TakeName(ts);
      if StartsWith(first.rest, COMMA) then
        var more :- TakeNames(first.rest[1..], n + 1);
        Ok(Step([first.item] + more.item, more.rest))
      else Ok(Step([first.item], first.rest))
  }

  function TakeValues(ts: seq<Token>, n: nat): Parsed<seq<Value>>
    decreases |ts|
  {
    if ts == [] then Ok(Step([], []))
    else if n >= MAX_COLUMNS then Err(TooManyColumns)
    else
      var first :- TakeValue(ts);
      if StartsWith(first.rest, COMMA) then
        var more :- TakeValues(first.rest[1..], n + 1);
        Ok(Step([first.item] + more.item, more.rest))
      else Ok(Step([first.item], first.rest))
  }

  /** An optional semicolon, then nothing. */
  function TakeEnd(ts: seq<Token>): Result<bool, ParseError> {
    if (if StartsWith(ts, SEMICOLON) then ts[1..] else ts) == [] then Ok(true) else Err(TrailingTokens)
  }

  function KeywordToken(word: string): Token {
    Token(Keyword, word)
  }

  function InsertOf(table: string, columns: seq<string>, values: seq<Value>): InsertStatement {
    InsertStatement(table, columns, seq(|values|, i requires 0 <= i < |values| => values[i].text),
                    seq(|values|, i requires 0 <= i < |values| => values[i].kind))
  }

  function TakeInsert(ts: seq<Token>): Result<Statement, ParseError> {
    var ts :- Expect(ts, KeywordToken("INSERT"), UnexpectedSyntax);
    var ts :- Expect(ts, KeywordToken("INTO"), UnexpectedSyntax);
    var table :- TakeName(ts);
    var ts :- Expect(table.rest, LPAREN, ExpectedParen);
    var columns :- TakeNames(ts, 0);
    var ts :- Expect(columns.rest, RPAREN, ExpectedParen);
    var ts :- Expect(ts, KeywordToken("VALUES"), UnexpectedSyntax);
    var ts :- Expect(ts, LPAREN, ExpectedParen);
    var values :- TakeValues(ts, 0);
    var ts :- Expect(values.rest, RPAREN, ExpectedParen);
    if |columns.item| != |values.item| then Err(CountMismatch)
    else
      var _ :- TakeEnd(ts);
      Ok(Insert(InsertOf(table.item, columns.item, values.item)))
  }

  /** An empty list of columns stands for the star. */
  function TakeColumns(ts: seq<Token>): Parsed<seq<string>> {
    if StartsWith(ts, Token(Identifier, "*")) then Ok(Step([], ts[1..])) else TakeNames(ts, 0)
  }

  function TakeCondition(ts: seq<Token>): Parsed<WhereClause> {
    var column :- TakeName(ts);
    var ts := column.rest;
    if ts == [] || ts[0].kind != Operator then Err(ExpectedOperator)
    else if |ts[0].value| >= 4 then Err(BadOperator)
    else
      var value :- TakeValue(ts[1..]);
      Ok(Step(WhereClause(column.item, ts[0].value, value.item.text, value.item.kind), value.rest))
  }

  function TakeWhere(ts: seq<Token>): Parsed<Option<WhereClause>> {
    if StartsWith(ts, KeywordToken("WHERE")) then
      var where :- TakeCondition(ts[1..]);
      Ok(Step(Some(where.item), where.rest))
    else Ok(Step(None, ts))
  }

  function TakeSelect(ts: seq<Token>): Result<Statement, ParseError> {
    var ts :- Expect(ts, KeywordToken("SELECT"), UnexpectedSyntax);
    var columns :- TakeColumns(ts);
    var ts :- Expect(columns.rest, KeywordToken("FROM"), UnexpectedSyntax);
    var table :- TakeName(ts);
    var where :- TakeWhere(table.rest);
    var _ :- TakeEnd(where.rest);
    Ok(Select(SelectStatement(table.item, columns.item, where.item)))
  }

  function TakeDelete(ts: seq<Token>): Result<Statement, ParseError> {
    var ts :- Expect(ts, KeywordToken("DELETE"), UnexpectedSyntax);
    var ts :- Expect(ts, KeywordToken("FROM"), UnexpectedSyntax);
    var table :- TakeName(ts);
    var where :- TakeWhere(table.rest);
    var _ :- TakeEnd(where.rest);
    Ok(Delete(DeleteStatement(table.item, where.item)))
  }

  function ParsedStatement(ts: seq<Token>): Result<Statement, ParseError> {
    if ts == [] then Err(EmptyStatement)
    else if ts[0] == KeywordToken("INSERT") then TakeInsert(ts)
    else if ts[0] == KeywordToken("SELECT") then TakeSelect(ts)
    else if ts[0] == KeywordToken("DELETE") then TakeDelete(ts)
    else Err(Unsupported)
  }

  // ---------- The routines over the shared index ----------

  /** parser_is_token with a value. */
  predicate IsToken(ts: seq<Token>, i: nat, t: Token) {
    i < |ts| && ts[i] == t
  }

  /** parser_expect_identifier. */
  method ExpectIdentifier(ts: seq<Token>, i: nat) returns (r: Result<string, ParseError>, next: nat)
    requires i <= |ts|
    ensures
      match TakeName(ts[i..])
      case Ok(step) => r == Ok(step.item) && next <= |ts| && step.rest == ts[next..]
      case Err(e) => r == Err(e)
  {
    next := i;
    if i >= |ts| || ts[i].kind != Identifier {
      return Err(ExpectedIdentifier), next;
    }
    if |ts[i].value| >= MAX_IDENTIFIER_LEN {
      return Err(IdentifierTooLong), next;
    }
    return Ok(ts[i].value), i + 1;
  }

  /** parser_expect_literal. */
  method ExpectLiteral(ts: seq<Token>, i: nat) returns (r: Result<Value, ParseError>, next: nat)
    requires i <= |ts|
    ensures
      match TakeValue(ts[i..])
      case Ok(step) => r == Ok(step.item) && next <= |ts| && step.rest == ts[next..]
      case Err(e) => r == Err(e)
  {
    next := i;
    if i >= |ts| {
      return Err(ExpectedLiteral), next;
    }
    var kind := ts[i].kind;
    if kind != IntLiteral && kind != StrLiteral {
      return Err(ExpectedLiteral), next;
    }
    if |ts[i].value| >= MAX_VALUE_LEN {
      return Err(LiteralTooLong), next;
    }
    return Ok(Value(ts[i].value, if kind == IntLiteral then IntKind else StringKind)), i + 1;
  }

  function Joined<T>(front: seq<T>, rest: Parsed<seq<T>>): Parsed<seq<T>> {
    match rest
    case Ok(step) => Ok(Step(front + step.item, step.rest))
    case Err(e) => Err(e)
  }

  lemma {:induction false} NamesStep(ts: seq<Token>, i: nat, front: seq<string>)
    requires i < |ts| && |front| < MAX_COLUMNS
    ensures
      match TakeName(ts[i..])
      case Err(e) => Joined(front, TakeNames(ts[i..], |front|)) == Err(e)
      case Ok(first) =>
        first.rest == ts[i + 1..] &&
        Joined(front, TakeNames(ts[i..], |front|)) ==
        if IsToken(ts, i + 1, COMMA) then Joined(front + [first.item], TakeNames(ts[i + 2..], |front| + 1))
        else Ok(Step(front + [first.item], ts[i + 1..]))
  {
    assert ts[i..][1..] == ts[i + 1..];
    if i + 1 < |ts| {
      assert ts[i + 1..][1..] == ts[i + 2..];
    }
    if TakeName(ts[i..]).Ok? && IsToken(ts, i + 1, COMMA) {
      var more := TakeNames(ts[i + 2..], |front| + 1);
      if more.Ok? {
        assert front + ([ts[i].value] + more.value.item) == front + [ts[i].value] + more.value.item;
      }
    }
  }

  /** What the list from i on comes to, after the names found before position `next`. */
  ghost predicate NamesFound(ts: seq<Token>, i: nat, next: nat, names: seq<string>) {
    i <= next <= |ts| && TakeNames(ts[i..], 0) == Joined(names, TakeNames(ts[next..], |names|))
  }

  lemma NamesStart(ts: seq<Token>, i: nat)
    requires i <= |ts|
    ensures NamesFound(ts, i, i, [])
  {
    var whole := TakeNames(ts[i..], 0);
    hide TakeNames;
    assert whole.Ok? ==> [] + whole.value.item == whole.value.item;
  }

  lemma NamesEnd(ts: seq<Token>, i: nat, next: nat, names: seq<string>)
    requires NamesFound(ts, i, next, names)
    ensures next == |ts| ==> TakeNames(ts[i..], 0) == Ok(Step(names, ts[next..]))
    ensures next < |ts| && |names| >= MAX_COLUMNS ==> TakeNames(ts[i..], 0) == Err(TooManyColumns)
  {
    assert next == |ts| ==> TakeNames(ts[next..], |names|) == Ok(Step([], []));
    assert next < |ts| && |names| >= MAX_COLUMNS ==> TakeNames(ts[next..], |names|) == Err(TooManyColumns);
    hide TakeNames;
    assert names + [] == names;
  }

  lemma {:induction false} NamesGoOn(ts: seq<Token>, i: nat, next: nat, names: seq<string>)
    requires NamesFound(ts, i, next, names) && next < |ts| && |names| < MAX_COLUMNS
    ensures
      match TakeName(ts[next..])
      case Err(e) => TakeNames(ts[i..], 0) == Err(e)
      case Ok(first) =>
        first.rest == ts[next + 1..] &&
        if IsToken(ts, next + 1, COMMA) then NamesFound(ts, i, next + 2, names + [first.item])
        else TakeNames(ts[i..], 0) == Ok(Step(names + [first.item], ts[next + 1..]))
  {
    NamesStep(ts, next, names);
    hide TakeNames, TakeName, Joined;
  }

  /** The column loop of parser_parse_insert and parser_parse_select_columns. */
  method ParseNames(ts: seq<Token>, i: nat) returns (r: Result<seq<string>, ParseError>, next: nat)
    requires i <= |ts|
    ensures
      match TakeNames(ts[i..], 0)
      case Ok(step) => r == Ok(step.item) && next <= |ts| && step.rest == ts[next..]
      case Err(e) => r == Err(e)
  {
    var names: seq<string> := [];
    next := i;
    NamesStart(ts, i);
    hide TakeNames, TakeName, NamesFound;
    while next < |ts|
      invariant i <= next <= |ts| && NamesFound(ts, i, next, names) && |names| <= MAX_COLUMNS
      decreases |ts| - next
    {
      if |names| >= MAX_COLUMNS {
        NamesEnd(ts, i, next, names);
        return Err(TooManyColumns), next;
      }
      NamesGoOn(ts, i, next, names);
      var name;
      name, next := ExpectIdentifier(ts, next);
      if name.Err? {
        return Err(name.error), next;
      }
      names := names + [name.value];
      if IsToken(ts, next, COMMA) {
        next := next + 1;
        continue;
      }
      return Ok(names), next;
    }
    NamesEnd(ts, i, next, names);
    return Ok(names), next;
  }

  lemma {:induction false} ValuesStep(ts: seq<Token>, i: nat, front: seq<Value>)
    requires i < |ts| && |front| < MAX_COLUMNS
    ensures
      match TakeValue(ts[i..])
      case Err(e) => Joined(front, TakeValues(ts[i..], |front|)) == Err(e)
      case Ok(first) =>
        first.rest == ts[i + 1..] &&
        Joined(front, TakeValues(ts[i..], |front|)) ==
        if IsToken(ts, i + 1, COMMA) then Joined(front + [first.item], TakeValues(ts[i + 2..], |front| + 1))
        else Ok(Step(front + [first.item], ts[i + 1..]))
  {
    assert ts[i..][1..] == ts[i + 1..];
    if i + 1 < |ts| {
      assert ts[i + 1..][1..] == ts[i + 2..];
    }
    if TakeValue(ts[i..]).Ok? && IsToken(ts, i + 1, COMMA) {
      var first, more := TakeValue(ts[i..]).value.item, TakeValues(ts[i + 2..], |front| + 1);
      if more.Ok? {
        assert front + ([first] + more.value.item) == front + [first] + more.value.item;
      }
    }
  }

  /** What the list from i on comes to, after the values found before position `next`. */
  ghost predicate ValuesFound(ts: seq<Token>, i: nat, next: nat, values: seq<Value>) {
    i <= next <= |ts| && TakeValues(ts[i..], 0) == Joined(values, TakeValues(ts[next..], |values|))
  }

  lemma ValuesStart(ts: seq<Token>, i: nat)
    requires i <= |ts|
    ensures ValuesFound(ts, i, i, [])
  {
    var whole := TakeValues(ts[i..], 0);
    hide TakeValues;
    assert whole.Ok? ==> [] + whole.value.item == whole.value.item;
  }

  lemma ValuesEnd(ts: seq<Token>, i: nat, next: nat, values: seq<Value>)
    requires ValuesFound(ts, i, next, values)
    ensures next == |ts| ==> TakeValues(ts[i..], 0) == Ok(Step(values, ts[next..]))
    ensures next < |ts| && |values| >= MAX_COLUMNS ==> TakeValues(ts[i..], 0) == Err(TooManyColumns)
  {
    assert next == |ts| ==> TakeValues(ts[next..], |values|) == Ok(Step([], []));
    assert next < |ts| && |values| >= MAX_COLUMNS ==> TakeValues(ts[next..], |values|) == Err(TooManyColumns);
    hide TakeValues;
    assert values + [] == values;
  }

  lemma {:induction false} ValuesGoOn(ts: seq<Token>, i: nat, next: nat, values: seq<Value>)
    requires ValuesFound(ts, i, next, values) && next < |ts| && |values| < MAX_COLUMNS
    ensures
      match TakeValue(ts[next..])
      case Err(e) => TakeValues(ts[i..], 0) == Err(e)
      case Ok(first) =>
        first.rest == ts[next + 1..] &&
        if IsToken(ts, next + 1, COMMA) then ValuesFound(ts, i, next + 2, values + [first.item])
        else TakeValues(ts[i..], 0) == Ok(Step(values + [first.item], ts[next + 1..]))
  {
    ValuesStep(ts, next, values);
    hide TakeValues, TakeValue, Joined;
  }

  /** The value loop of parser_parse_insert. */
  method ParseValues(ts: seq<Token>, i: nat) returns (r: Result<seq<Value>, ParseError>, next: nat)
    requires i <= |ts|
    ensures
      match TakeValues(ts[i..], 0)
      case Ok(step) => r == Ok(step.item) && next <= |ts| && step.rest == ts[next..]
      case Err(e) => r == Err(e)
  {
    var values: seq<Value> := [];
    next := i;
    ValuesStart(ts, i);
    hide TakeValues, TakeValue, ValuesFound;
    while next < |ts|
      invariant i <= next <= |ts| && ValuesFound(ts, i, next, values) && |values| <= MAX_COLUMNS
      decreases |ts| - next
    {
      if |values| >= MAX_COLUMNS {
        ValuesEnd(ts, i, next, values);
        return Err(TooManyColumns), next;
      }
      ValuesGoOn(ts, i, next, values);
      var value;
      value, next := ExpectLiteral(ts, next);
      if value.Err? {
        return Err(value.error), next;
      }
      values := values + [value.value];
      if IsToken(ts, next, COMMA) {
        next := next + 1;
        continue;
      }
      return Ok(values), next;
    }
    ValuesEnd(ts, i, next, values);
    return Ok(values), next;
  }

  lemma ExpectIs(ts: seq<Token>, i: nat, t: Token, otherwise: ParseError)
    requires i <= |ts|
    ensures Expect(ts[i..], t, otherwise) == if IsToken(ts, i, t) then Ok(ts[i + 1..]) else Err(otherwise)
  {
    assert IsToken(ts, i, t) ==> ts[i..][1..] == ts[i + 1..];
  }

  /** parser_expect_keyword, and the tests for parentheses. */
  method ExpectToken(ts: seq<Token>, i: nat, t: Token, otherwise: ParseError)
    returns (r: Result<bool, ParseError>, next: nat)
    requires i <= |ts|
    ensures
      match Expect(ts[i..], t, otherwise)
      case Ok(rest) => r == Ok(true) && next <= |ts| && rest == ts[next..]
      case Err(e) => r == Err(e)
  {
    ExpectIs(ts, i, t, otherwise);
    next := i;
    if !IsToken(ts, i, t) {
      return Err(otherwise), next;
    }
    return Ok(true), i + 1;
  }

  /** parser_consume_optional_semicolon. */
  method ExpectEnd(ts: seq<Token>, i: nat) returns (r: Result<bool, ParseError>)
    requires i <= |ts|
    ensures r == TakeEnd(ts[i..])
  {
    var next := i;
    if IsToken(ts, next, SEMICOLON) {
      next := next + 1;
      assert ts[i..][1..] == ts[next..];
    }
    if next != |ts| {
      return Err(TrailingTokens);
    }
    return Ok(true);
  }

  /** parser_parse_where. */
  method ParseCondition(ts: seq<Token>, i: nat) returns (r: Result<WhereClause, ParseError>, next: nat)
    requires i <= |ts|
    ensures
      match TakeCondition(ts[i..])
      case Ok(step) => r == Ok(step.item) && next <= |ts| && step.rest == ts[next..]
      case Err(e) => r == Err(e)
  {
    hide TakeName, TakeValue;
    var column;
    column, next := ExpectIdentifier(ts, i);
    if column.Err? {
      return Err(column.error), next;
    }
    if next >= |ts| || ts[next].kind != Operator {
      return Err(ExpectedOperator), next;
    }
    var op := ts[next].value;
    if |op| >= 4 {
      return Err(BadOperator), next;
    }
    assert ts[next..][1..] == ts[next + 1..];
    next := next + 1;
    var value;
    value, next := ExpectLiteral(ts, next);
    if value.Err? {
      return Err(value.error), next;
    }
    return Ok(WhereClause(column.value, op, value.value.text, value.value.kind)), next;
  }

  method ParseWhere(ts: seq<Token>, i: nat) returns (r: Result<Option<WhereClause>, ParseError>, next: nat)
    requires i <= |ts|
    ensures
      match TakeWhere(ts[i..])
      case Ok(step) => r == Ok(step.item) && next <= |ts| && step.rest == ts[next..]
      case Err(e) => r == Err(e)
  {
    hide TakeCondition;
    next := i;
    if IsToken(ts, i, KeywordToken("WHERE")) {
      assert ts[i..][1..] == ts[i + 1..];
      var where;
      where, next := ParseCondition(ts, i + 1);
      if where.Err? {
        return Err(where.error), next;
      }
      return Ok(Some(where.value)), next;
    }
    return Ok(None), next;
  }

  /** parser_parse_select_columns. */
  method ParseColumns(ts: seq<Token>, i: nat) returns (r: Result<seq<string>, ParseError>, next: nat)
    requires i <= |ts|
    ensures
      match TakeColumns(ts[i..])
      case Ok(step) => r == Ok(step.item) && next <= |ts| && step.rest == ts[next..]
      case Err(e) => r == Err(e)
  {
    hide TakeNames;
    if IsToken(ts, i, Token(Identifier, "*")) {
      assert ts[i..][1..] == ts[i + 1..];
      return Ok([]), i + 1;
    }
    r, next := ParseNames(ts, i);
  }

  /** parser_parse_insert. */
  method ParseInsert(ts: seq<Token>) returns (r: Result<Statement, ParseError>)
    ensures r == TakeInsert(ts)
  {
    hide Expect, TakeName, TakeNames, TakeValues, TakeEnd;
    assert ts[0..] == ts;
    var ok, next := ExpectToken(ts, 0, KeywordToken("INSERT"), UnexpectedSyntax);
    if ok.Err? {
      return Err(ok.error);
    }
    ok, next := ExpectToken(ts, next, KeywordToken("INTO"), UnexpectedSyntax);
    if ok.Err? {
      return Err(ok.error);
    }
    var table;
    table, next := ExpectIdentifier(ts, next);
    if table.Err? {
      return Err(table.error);
    }
    ok, next := ExpectToken(ts, next, LPAREN, ExpectedParen);
    if ok.Err? {
      return Err(ok.error);
    }
    var columns;
    columns, next := ParseNames(ts, next);
    if columns.Err? {
      return Err(columns.error);
    }
    ok, next := ExpectToken(ts, next, RPAREN, ExpectedParen);
    if ok.Err? {
      return Err(ok.error);
    }
    ok, next := ExpectToken(ts, next, KeywordToken("VALUES"), UnexpectedSyntax);
    if ok.Err? {
      return Err(ok.error);
    }
    ok, next := ExpectToken(ts, next, LPAREN, ExpectedParen);
    if ok.Err? {
      return Err(ok.error);
    }
    var values;
    values, next := ParseValues(ts, next);
    if values.Err? {
      return Err(values.error);
    }
    ok, next := ExpectToken(ts, next, RPAREN, ExpectedParen);
    if ok.Err? {
      return Err(ok.error);
    }
    if |columns.value| != |values.value| {
      return Err(CountMismatch);
    }
    ok := ExpectEnd(ts, next);
    if ok.Err? {
      return Err(ok.error);
    }
    return Ok(Insert(InsertOf(table.value, columns.value, values.value)));
  }

  /** parser_parse_select. */
  method ParseSelect(ts: seq<Token>) returns (r: Result<Statement, ParseError>)
    ensures r == TakeSelect(ts)
  {
    hide Expect, TakeName, TakeColumns, TakeWhere, TakeEnd;
    assert ts[0..] == ts;
    var ok, next := ExpectToken(ts, 0, KeywordToken("SELECT"), UnexpectedSyntax);
    if ok.Err? {
      return Err(ok.error);
    }
    var columns;
    columns, next := ParseColumns(ts, next);
    if columns.Err? {
      return Err(columns.error);
    }
    ok, next := ExpectToken(ts, next, KeywordToken("FROM"), UnexpectedSyntax);
    if ok.Err? {
      return Err(ok.error);
    }
    var table;
    table, next := ExpectIdentifier(ts, next);
    if table.Err? {
      return Err(table.error);
    }
    var where;
    where, next := ParseWhere(ts, next);
    if where.Err? {
      return Err(where.error);
    }
    ok := ExpectEnd(ts, next);
    if ok.Err? {
      return Err(ok.error);
    }
    return Ok(Select(SelectStatement(table.value, columns.value, where.value)));
  }

  /** parser_parse_delete. */
  method ParseDelete(ts: seq<Token>) returns (r: Result<Statement, ParseError>)
    ensures r == TakeDelete(ts)
  {
    hide Expect, TakeName, TakeWhere, TakeEnd;
    assert ts[0..] == ts;
    var ok, next := ExpectToken(ts, 0, KeywordToken("DELETE"), UnexpectedSyntax);
    if ok.Err? {
      return Err(ok.error);
    }
    ok, next := ExpectToken(ts, next, KeywordToken("FROM"), UnexpectedSyntax);
    if ok.Err? {
      return Err(ok.error);
    }
    var table;
    table, next := ExpectIdentifier(ts, next);
    if table.Err? {
      return Err(table.error);
    }
    var where;
    where, next := ParseWhere(ts, next);
    if where.Err? {
      return Err(where.error);
    }
    ok := ExpectEnd(ts, next);
    if ok.Err? {
      return Err(ok.error);
    }
    return Ok(Delete(DeleteStatement(table.value, where.value)));
  }

  /** parser_parse. */
  method Parse(ts: seq<Token>) returns (r: Result<Statement, ParseError>)
    ensures r == ParsedStatement(ts)
  {
    if ts == [] {
      return Err(EmptyStatement);
    }
    if IsToken(ts, 0, KeywordToken("INSERT")) {
      r := ParseInsert(ts);
    } else if IsToken(ts, 0, KeywordToken("SELECT")) {
      r := ParseSelect(ts);
    } else if IsToken(ts, 0, KeywordToken("DELETE")) {
      r := ParseDelete(ts);
    } else {
      r := Err(Unsupported);
    }
  }
}
