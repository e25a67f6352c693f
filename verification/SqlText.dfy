/**
Statements as SQL text: what the parser of src/parser.c accepts, exactly, and that text written for
a statement is read back as that statement.
*/
module SqlText {
  import opened Wrappers
  import opened Text
  import opened Statements
  import opened Tokenizer
  import opened Layout
  import opened Parser

  // ---------- The tokens of a statement ----------

  const STAR := Token(Identifier, "*")

  function NameToken(name: string): Token {
    Token(Identifier, name)
  }

  function ValueToken(v: Value): Token {
    Token(if v.kind == IntKind then IntLiteral else StrLiteral, v.text)
  }

  function NameList(names: seq<string>): seq<Token> {
    if names == [] then []
    else if |names| == 1 then [NameToken(names[0])]
    else [NameToken(names[0]), COMMA] + NameList(names[1..])
  }

  function ValueList(values: seq<Value>): seq<Token> {
    if values == [] then []
    else if |values| == 1 then [ValueToken(values[0])]
    else [ValueToken(values[0]), COMMA] + ValueList(values[1..])
  }

  function Values(stmt: InsertStatement): seq<Value>
    requires stmt.Even()
  {
    seq(|stmt.values|, i requires 0 <= i < |stmt.values| => Value(stmt.values[i], stmt.kinds[i]))
  }

  function WhereTokens(where: Option<WhereClause>): seq<Token> {
    match where
    case None => []
    case Some(w) =>
      [KeywordToken("WHERE"), NameToken(w.column), Token(Operator, w.op), ValueToken(Value(w.value, w.kind))]
  }

  function StatementTokens(stmt: Statement): seq<Token>
    requires stmt.Insert? ==> stmt.insert.Even()
  {
    match stmt
    case Insert(s) =>
      [KeywordToken("INSERT"), KeywordToken("INTO"), NameToken(s.tableName), LPAREN] + (NameList(s.columns) +
      ([RPAREN, KeywordToken("VALUES"), LPAREN] + (ValueList(Values(s)) + [RPAREN])))
    case Select(s) =>
      [KeywordToken("SELECT")] + ((if s.columns == [] then [STAR] else NameList(s.columns)) +
      ([KeywordToken("FROM"), NameToken(s.tableName)] + WhereTokens(s.where)))
    case Delete(s) =>
      [KeywordToken("DELETE"), KeywordToken("FROM"), NameToken(s.tableName)] + WhereTokens(s.where)
  }

  // ---------- What the parser accepts ----------

  predicate NameFits(name: string) { |name| < MAX_IDENTIFIER_LEN }

  predicate NamesFit(names: seq<string>) {
    |names| <= MAX_COLUMNS && forall i :: 0 <= i < |names| ==> NameFits(names[i])
  }

  predicate ValuesFit(values: seq<Value>) {
    |values| <= MAX_COLUMNS && forall i :: 0 <= i < |values| ==> |values[i].text| < MAX_VALUE_LEN
  }

  predicate WhereFits(where: Option<WhereClause>) {
    match where
    case None => true
    case Some(w) => NameFits(w.column) && |w.op| < 4 && |w.value| < MAX_VALUE_LEN
  }

  /** Within the parser's limits. A star among other columns cannot come first. */
  predicate Fitting(stmt: Statement) {
    match stmt
    case Insert(s) =>
      s.Even() && NameFits(s.tableName) && s.columns != [] && NamesFit(s.columns) && ValuesFit(Values(s))
    case Select(s) =>
      NameFits(s.tableName) && NamesFit(s.columns) && (s.columns != [] ==> s.columns[0] != "*") && WhereFits(s.where)
    case Delete(s) => NameFits(s.tableName) && WhereFits(s.where)
  }

  lemma NameTaken(name: string, rest: seq<Token>)
    requires NameFits(name)
    ensures TakeName([NameToken(name)] + rest) == Ok(Step(name, rest))
  {
  }

  lemma NamesUnfold(ts: seq<Token>, n: nat, first: Step<string>)
    requires ts != [] && n < MAX_COLUMNS && TakeName(ts) == Ok(first)
    ensures !StartsWith(first.rest, COMMA) ==> TakeNames(ts, n) == Ok(Step([first.item], first.rest))
    ensures StartsWith(first.rest, COMMA) && TakeNames(first.rest[1..], n + 1).Err? ==>
      TakeNames(ts, n) == Err(TakeNames(first.rest[1..], n + 1).error)
    ensures StartsWith(first.rest, COMMA) && TakeNames(first.rest[1..], n + 1).Ok? ==>
      var more := TakeNames(first.rest[1..], n + 1).value;
      TakeNames(ts, n) == Ok(Step([first.item] + more.item, more.rest))
  {
    hide TakeName;
  }

  lemma Regroup(a: Token, b: Token, more: seq<Token>, rest: seq<Token>)
    ensures [a, b] + more + rest == [a] + ([b] + (more + rest))
  {
  }

  lemma CommaFirst(tail: seq<Token>)
    ensures StartsWith([COMMA] + tail, COMMA) && ([COMMA] + tail)[1..] == tail
  {
  }

  lemma NameListSplits(names: seq<string>, rest: seq<Token>)
    requires |names| > 1
    ensures NameList(names) + rest == [NameToken(names[0])] + ([COMMA] + (NameList(names[1..]) + rest))
  {
    hide NameToken;
    var more := NameList(names[1..]);
    assert NameList(names) == [NameToken(names[0]), COMMA] + more;
    hide *;
    Regroup(NameToken(names[0]), COMMA, more, rest);
  }

  lemma {:induction false} NamesTaken(names: seq<string>, rest: seq<Token>, n: nat)
    requires names != [] && n + |names| <= MAX_COLUMNS && (forall i :: 0 <= i < |names| ==> NameFits(names[i]))
    requires !StartsWith(rest, COMMA)
    ensures TakeNames(NameList(names) + rest, n) == Ok(Step(names, rest))
  {
    if |names| == 1 {
      NameTaken(names[0], rest);
      assert NameList(names) == [NameToken(names[0])];
      NamesUnfold([NameToken(names[0])] + rest, n, Step(names[0], rest));
      assert [names[0]] == names;
    } else {
      hide *;
      var tail := NameList(names[1..]) + rest;
      CommaFirst(tail);
      NamesTaken(names[1..], rest, n + 1);
      NameTaken(names[0], [COMMA] + tail);
      NameListSplits(names, rest);
      NamesUnfold([NameToken(names[0])] + ([COMMA] + tail), n, Step(names[0], [COMMA] + tail));
      assert [names[0]] + names[1..] == names;
    }
  }

  lemma NameTook(ts: seq<Token>)
    requires TakeName(ts).Ok?
    ensures var step := TakeName(ts).value; ts == [NameToken(step.item)] + step.rest && NameFits(step.item)
  {
  }

  /** What the parser saw of the first name of a list. */
  lemma NamesTook(ts: seq<Token>, n: nat) returns (first: Step<string>)
    requires ts != [] && TakeNames(ts, n).Ok?
    ensures n < MAX_COLUMNS && TakeName(ts) == Ok(first) && |first.rest| < |ts|
    ensures StartsWith(first.rest, COMMA) ==>
      first.rest == [COMMA] + first.rest[1..] && TakeNames(first.rest[1..], n + 1).Ok? &&
      (first.rest[1..] == [] ==> TakeNames(ts, n).value.rest == [])
  {
    NameTook(ts);
    first := TakeName(ts).value;
    hide TakeName, NameToken, NameFits;
  }

  lemma NameListOne(name: string)
    ensures NameList([name]) == [NameToken(name)]
  {
  }

  lemma {:induction false} TakenNames(ts: seq<Token>, n: nat)
    requires ts != [] && n <= MAX_COLUMNS && TakeNames(ts, n).Ok? && TakeNames(ts, n).value.rest != []
    ensures var step := TakeNames(ts, n).value;
      step.item != [] && n + |step.item| <= MAX_COLUMNS && ts == NameList(step.item) + step.rest &&
      (forall i :: 0 <= i < |step.item| ==> NameFits(step.item[i]))
    decreases |ts|
  {
    hide *;
    var first := NamesTook(ts, n);
    NamesUnfold(ts, n, first);
    NameTook(ts);
    if !StartsWith(first.rest, COMMA) {
      NameListOne(first.item);
    } else {
      TakenNames(first.rest[1..], n + 1);
      var more := TakeNames(first.rest[1..], n + 1).value;
      var names := [first.item] + more.item;
      NameListSplits(names, more.rest);
      assert names[1..] == more.item;
    }
  }

  lemma OneValueTaken(v: Value, rest: seq<Token>)
    requires |v.text| < MAX_VALUE_LEN
    ensures TakeValue([ValueToken(v)] + rest) == Ok(Step(v, rest))
  {
  }

  lemma ValuesUnfold(ts: seq<Token>, n: nat, first: Step<Value>)
    requires ts != [] && n < MAX_COLUMNS && TakeValue(ts) == Ok(first)
    ensures !StartsWith(first.rest, COMMA) ==> TakeValues(ts, n) == Ok(Step([first.item], first.rest))
    ensures StartsWith(first.rest, COMMA) && TakeValues(first.rest[1..], n + 1).Err? ==>
      TakeValues(ts, n) == Err(TakeValues(first.rest[1..], n + 1).error)
    ensures StartsWith(first.rest, COMMA) && TakeValues(first.rest[1..], n + 1).Ok? ==>
      var more := TakeValues(first.rest[1..], n + 1).value;
      TakeValues(ts, n) == Ok(Step([first.item] + more.item, more.rest))
  {
    hide TakeValue;
  }

  lemma ValueListSplits(values: seq<Value>, rest: seq<Token>)
    requires |values| > 1
    ensures ValueList(values) + rest == [ValueToken(values[0])] + ([COMMA] + (ValueList(values[1..]) + rest))
  {
    hide ValueToken;
    var more := ValueList(values[1..]);
    assert ValueList(values) == [ValueToken(values[0]), COMMA] + more;
    hide *;
    Regroup(ValueToken(values[0]), COMMA, more, rest);
  }

  lemma {:induction false} ValuesTaken(values: seq<Value>, rest: seq<Token>, n: nat)
    requires values != [] && n + |values| <= MAX_COLUMNS &&
      (forall i :: 0 <= i < |values| ==> |values[i].text| < MAX_VALUE_LEN)
    requires !StartsWith(rest, COMMA)
    ensures TakeValues(ValueList(values) + rest, n) == Ok(Step(values, rest))
  {
    if |values| == 1 {
      OneValueTaken(values[0], rest);
      assert ValueList(values) == [ValueToken(values[0])];
      ValuesUnfold([ValueToken(values[0])] + rest, n, Step(values[0], rest));
      assert [values[0]] == values;
    } else {
      hide *;
      var tail := ValueList(values[1..]) + rest;
      CommaFirst(tail);
      ValuesTaken(values[1..], rest, n + 1);
      OneValueTaken(values[0], [COMMA] + tail);
      ValueListSplits(values, rest);
      ValuesUnfold([ValueToken(values[0])] + ([COMMA] + tail), n, Step(values[0], [COMMA] + tail));
      assert [values[0]] + values[1..] == values;
    }
  }

  lemma ValueTaken(ts: seq<Token>)
    requires TakeValue(ts).Ok?
    ensures var step := TakeValue(ts).value;
      ts == [ValueToken(step.item)] + step.rest && |step.item.text| < MAX_VALUE_LEN
  {
  }

  lemma ValuesTook(ts: seq<Token>, n: nat) returns (first: Step<Value>)
    requires ts != [] && TakeValues(ts, n).Ok?
    ensures n < MAX_COLUMNS && TakeValue(ts) == Ok(first) && |first.rest| < |ts|
    ensures StartsWith(first.rest, COMMA) ==>
      first.rest == [COMMA] + first.rest[1..] && TakeValues(first.rest[1..], n + 1).Ok? &&
      (first.rest[1..] == [] ==> TakeValues(ts, n).value.rest == [])
  {
    ValueTaken(ts);
    first := TakeValue(ts).value;
    hide TakeValue, ValueToken;
  }

  lemma ValueListOne(v: Value)
    ensures ValueList([v]) == [ValueToken(v)]
  {
  }

  lemma {:induction false} TakenValues(ts: seq<Token>, n: nat)
    requires ts != [] && n <= MAX_COLUMNS && TakeValues(ts, n).Ok? && TakeValues(ts, n).value.rest != []
    ensures var step := TakeValues(ts, n).value;
      step.item != [] && n + |step.item| <= MAX_COLUMNS && ts == ValueList(step.item) + step.rest &&
      (forall i :: 0 <= i < |step.item| ==> |step.item[i].text| < MAX_VALUE_LEN)
    decreases |ts|
  {
    hide *;
    var first := ValuesTook(ts, n);
    ValuesUnfold(ts, n, first);
    ValueTaken(ts);
    if !StartsWith(first.rest, COMMA) {
      ValueListOne(first.item);
    } else {
      TakenValues(first.rest[1..], n + 1);
      var more := TakeValues(first.rest[1..], n + 1).value;
      var values := [first.item] + more.item;
      ValueListSplits(values, more.rest);
      assert values[1..] == more.item;
    }
  }

  predicate IsEnd(ts: seq<Token>) {
    ts == [] || ts == [SEMICOLON]
  }

  /** What follows is no WHERE that would belong to the statement. */
  predicate Ends(where: Option<WhereClause>, rest: seq<Token>) {
    where.None? ==> !StartsWith(rest, KeywordToken("WHERE"))
  }

  /** What becomes of a statement with these tokens behind it. */
  function Followed(stmt: Statement, rest: seq<Token>): Result<Statement, ParseError> {
    if IsEnd(rest) then Ok(stmt) else Err(TrailingTokens)
  }

  lemma EndTaken(ts: seq<Token>)
    ensures TakeEnd(ts) == if IsEnd(ts) then Ok(true) else Err(TrailingTokens)
  {
    assert StartsWith(ts, SEMICOLON) && ts[1..] == [] ==> ts == [SEMICOLON];
  }

  lemma {:induction false} ConditionTaken(w: WhereClause, rest: seq<Token>)
    requires WhereFits(Some(w))
    ensures TakeCondition(WhereTokens(Some(w))[1..] + rest) == Ok(Step(w, rest))
  {
    var ts := WhereTokens(Some(w))[1..] + rest;
    assert ts[0] == NameToken(w.column) && TakeName(ts) == Ok(Step(w.column, ts[1..]));
    assert ts[1..][0] == Token(Operator, w.op) && ts[1..][1..] == ts[2..];
    assert ts[2..][0] == ValueToken(Value(w.value, w.kind)) && ts[2..][1..] == rest;
    assert TakeValue(ts[2..]) == Ok(Step(Value(w.value, w.kind), rest));
  }

  lemma {:induction false} WhereTaken(where: Option<WhereClause>, rest: seq<Token>)
    requires WhereFits(where) && Ends(where, rest)
    ensures TakeWhere(WhereTokens(where) + rest) == Ok(Step(where, rest))
  {
    var ts := WhereTokens(where) + rest;
    match where {
      case Some(w) =>
        assert ts[0] == KeywordToken("WHERE") && ts[1..] == WhereTokens(where)[1..] + rest;
        ConditionTaken(w, rest);
      case None =>
        assert ts == rest;
    }
  }

  lemma {:induction false} TakenWhere(ts: seq<Token>)
    requires TakeWhere(ts).Ok?
    ensures var step := TakeWhere(ts).value; WhereFits(step.item) && ts == WhereTokens(step.item) + step.rest
  {
    if StartsWith(ts, KeywordToken("WHERE")) {
      var step := TakeWhere(ts).value;
      assert ts == [ts[0], ts[1], ts[2], ts[3]] + ts[4..];
      assert step.rest == ts[4..];
    }
  }

  // ---------- The parser is exact ----------

  lemma {:induction false} DeleteTaken(s: DeleteStatement, end: seq<Token>)
    requires Fitting(Delete(s)) && Ends(s.where, end)
    ensures ParsedStatement(StatementTokens(Delete(s)) + end) == Followed(Delete(s), end)
  {
    var rest := WhereTokens(s.where) + end;
    WhereTaken(s.where, end);
    EndTaken(end);
    hide TakeWhere, TakeEnd, WhereTokens, ParsedStatement, IsEnd, WhereFits, Ends;
    assert StatementTokens(Delete(s)) + end ==
      [KeywordToken("DELETE"), KeywordToken("FROM"), NameToken(s.tableName)] + rest;
    DeleteReads(s.tableName, rest);
  }

  lemma DeleteReads(table: string, rest: seq<Token>)
    requires NameFits(table) && TakeWhere(rest).Ok?
    ensures ParsedStatement([KeywordToken("DELETE"), KeywordToken("FROM"), NameToken(table)] + rest) ==
      match TakeEnd(TakeWhere(rest).value.rest)
      case Ok(_) => Ok(Delete(DeleteStatement(table, TakeWhere(rest).value.item)))
      case Err(e) => Err(e)
  {
    hide TakeWhere, TakeEnd;
    var ts := [KeywordToken("DELETE"), KeywordToken("FROM"), NameToken(table)] + rest;
    assert ts[1..] == [KeywordToken("FROM"), NameToken(table)] + rest;
    assert ts[1..][1..] == [NameToken(table)] + rest;
    assert ts[1..][1..][1..] == rest;
  }

  lemma {:induction false} DeleteParts(ts: seq<Token>) returns (table: string, rest: seq<Token>)
    requires TakeDelete(ts).Ok?
    ensures ts == [KeywordToken("DELETE"), KeywordToken("FROM"), NameToken(table)] + rest && NameFits(table)
    ensures TakeWhere(rest).Ok? && TakeEnd(TakeWhere(rest).value.rest).Ok?
    ensures TakeDelete(ts).value == Delete(DeleteStatement(table, TakeWhere(rest).value.item))
  {
    hide TakeWhere, TakeEnd;
    table, rest := ts[1..][1..][0].value, ts[1..][1..][1..];
    assert ts == [ts[0]] + ([ts[1..][0]] + ([ts[1..][1..][0]] + rest));
  }

  lemma {:induction false} TakenDelete(ts: seq<Token>) returns (end: seq<Token>)
    requires TakeDelete(ts).Ok?
    ensures TakeDelete(ts).value.Delete?
    ensures IsEnd(end) && Fitting(TakeDelete(ts).value) && ts == StatementTokens(TakeDelete(ts).value) + end
  {
    var table, rest := DeleteParts(ts);
    TakenWhere(rest);
    end := TakeWhere(rest).value.rest;
    EndTaken(end);
    hide TakeDelete, TakeWhere, TakeEnd, WhereTokens, WhereFits, IsEnd;
    var front := [KeywordToken("DELETE"), KeywordToken("FROM"), NameToken(table)];
    assert front + (WhereTokens(TakeWhere(rest).value.item) + end) ==
      front + WhereTokens(TakeWhere(rest).value.item) + end;
  }

  lemma {:induction false} SelectBuilds(
      ts: seq<Token>, inner: seq<Token>, columns: Step<seq<string>>, table: string, rest: seq<Token>)
    requires ts == [KeywordToken("SELECT")] + inner && TakeColumns(inner) == Ok(columns)
    requires columns.rest == [KeywordToken("FROM"), NameToken(table)] + rest && NameFits(table)
    requires TakeWhere(rest).Ok?
    ensures TakeSelect(ts) ==
      match TakeEnd(TakeWhere(rest).value.rest)
      case Ok(_) => Ok(Select(SelectStatement(table, columns.item, TakeWhere(rest).value.item)))
      case Err(e) => Err(e)
  {
    hide TakeWhere, TakeEnd, TakeColumns;
    assert ts[1..] == inner;
    assert columns.rest[1..][1..] == rest;
  }

  lemma {:induction false} ColumnsTaken(columns: seq<string>, rest: seq<Token>)
    requires NamesFit(columns) && (columns != [] ==> columns[0] != "*") && !StartsWith(rest, COMMA)
    ensures TakeColumns((if columns == [] then [STAR] else NameList(columns)) + rest) == Ok(Step(columns, rest))
  {
    if columns == [] {
      assert ([STAR] + rest)[1..] == rest;
    } else {
      assert (NameList(columns) + rest)[0] == NameToken(columns[0]);
      NamesTaken(columns, rest, 0);
    }
  }

  lemma {:induction false} SelectTaken(s: SelectStatement, end: seq<Token>)
    requires Fitting(Select(s)) && Ends(s.where, end)
    ensures ParsedStatement(StatementTokens(Select(s)) + end) == Followed(Select(s), end)
  {
    var from := [KeywordToken("FROM"), NameToken(s.tableName)];
    var list, where := if s.columns == [] then [STAR] else NameList(s.columns), WhereTokens(s.where);
    var ts := StatementTokens(Select(s)) + end;
    SelectTokensAre(s, end);
    ColumnsTaken(s.columns, from + (where + end));
    WhereTaken(s.where, end);
    EndTaken(end);
    hide StatementTokens, TakeSelect, TakeWhere, TakeEnd, WhereTokens, TakeColumns, NameList, IsEnd;
    SelectBuilds(ts, list + (from + (where + end)), Step(s.columns, from + (where + end)), s.tableName, where + end);
    assert ts[0] == KeywordToken("SELECT");
  }

  lemma SelectTokensAre(s: SelectStatement, end: seq<Token>)
    ensures StatementTokens(Select(s)) + end ==
      [KeywordToken("SELECT")] + ((if s.columns == [] then [STAR] else NameList(s.columns)) +
      ([KeywordToken("FROM"), NameToken(s.tableName)] + (WhereTokens(s.where) + end)))
  {
    hide NameList, WhereTokens;
  }

  lemma {:induction false} TakenColumns(ts: seq<Token>)
    requires TakeColumns(ts).Ok? && TakeColumns(ts).value.rest != []
    ensures var step := TakeColumns(ts).value;
      NamesFit(step.item) && (step.item != [] ==> step.item[0] != "*") &&
      ts == (if step.item == [] then [STAR] else NameList(step.item)) + step.rest
  {
    if StartsWith(ts, STAR) {
      assert ts == [STAR] + ts[1..];
    } else {
      if ts != [] {
        TakenNames(ts, 0);
      }
    }
  }

  lemma {:induction false} SelectParts(ts: seq<Token>)
    returns (columns: Step<seq<string>>, table: string, rest: seq<Token>)
    requires TakeSelect(ts).Ok?
    ensures ts != [] && TakeColumns(ts[1..]) == Ok(columns)
    ensures ts == [KeywordToken("SELECT")] + ts[1..]
    ensures columns.rest == [KeywordToken("FROM"), NameToken(table)] + rest && NameFits(table)
    ensures TakeWhere(rest).Ok? && TakeEnd(TakeWhere(rest).value.rest).Ok?
    ensures TakeSelect(ts).value == Select(SelectStatement(table, columns.item, TakeWhere(rest).value.item))
  {
    hide TakeWhere, TakeEnd, TakeColumns;
    columns := TakeColumns(ts[1..]).value;
    table, rest := columns.rest[1..][0].value, columns.rest[1..][1..];
    assert columns.rest == [columns.rest[0]] + ([columns.rest[1..][0]] + rest);
  }

  lemma AppendedFour(a: seq<Token>, b: seq<Token>, c: seq<Token>, d: seq<Token>, end: seq<Token>)
    ensures a + (b + (c + (d + end))) == a + (b + (c + d)) + end
  {
  }

  lemma {:induction false} TakenSelect(ts: seq<Token>) returns (end: seq<Token>)
    requires TakeSelect(ts).Ok?
    ensures TakeSelect(ts).value.Select?
    ensures IsEnd(end) && Fitting(TakeSelect(ts).value) && ts == StatementTokens(TakeSelect(ts).value) + end
  {
    var columns, table, rest := SelectParts(ts);
    TakenColumns(ts[1..]);
    TakenWhere(rest);
    end := TakeWhere(rest).value.rest;
    EndTaken(end);
    hide TakeSelect, TakeWhere, TakeEnd, WhereTokens, TakeColumns, NameList, WhereFits, IsEnd, NamesFit;
    var list := if columns.item == [] then [STAR] else NameList(columns.item);
    var where := WhereTokens(TakeWhere(rest).value.item);
    var head, from := [KeywordToken("SELECT")], [KeywordToken("FROM"), NameToken(table)];
    var stmt := Select(SelectStatement(table, columns.item, TakeWhere(rest).value.item));
    assert Fitting(stmt) && StatementTokens(stmt) == head + (list + (from + where));
    hide *;
    AppendedFour(head, list, from, where, end);
  }

  lemma {:induction false} InsertBuilds(ts: seq<Token>, table: string, inner: seq<Token>, columns: Step<seq<string>>,
                                        list: seq<Token>, values: Step<seq<Value>>, end: seq<Token>)
    requires ts == [KeywordToken("INSERT"), KeywordToken("INTO"), NameToken(table), LPAREN] + inner && NameFits(table)
    requires TakeNames(inner, 0) == Ok(columns) && columns.rest == [RPAREN, KeywordToken("VALUES"), LPAREN] + list
    requires TakeValues(list, 0) == Ok(values) && values.rest == [RPAREN] + end
    ensures TakeInsert(ts) ==
      if |columns.item| != |values.item| then Err(CountMismatch)
      else
        match TakeEnd(end)
        case Ok(_) => Ok(Insert(InsertOf(table, columns.item, values.item)))
        case Err(e) => Err(e)
  {
    hide TakeNames, TakeValues, TakeEnd, InsertOf;
    assert ts[1..][1..][1..][1..] == inner;
    assert columns.rest[1..][1..][1..] == list;
    assert values.rest[1..] == end;
  }

  lemma {:induction false} InsertTaken(s: InsertStatement, end: seq<Token>)
    requires Fitting(Insert(s))
    ensures ParsedStatement(StatementTokens(Insert(s)) + end) == Followed(Insert(s), end)
  {
    var head, middle := [KeywordToken("INSERT"), KeywordToken("INTO"), NameToken(s.tableName), LPAREN],
                        [RPAREN, KeywordToken("VALUES"), LPAREN];
    var names, texts, last := NameList(s.columns), ValueList(Values(s)), [RPAREN];
    var ts := StatementTokens(Insert(s)) + end;
    assert ts == head + (names + (middle + (texts + (last + end))));
    NamesTaken(s.columns, middle + (texts + (last + end)), 0);
    ValuesTaken(Values(s), last + end, 0);
    EndTaken(end);
    assert InsertOf(s.tableName, s.columns, Values(s)) == s;
    hide StatementTokens, TakeInsert, TakeNames, TakeValues, TakeEnd, NameList, ValueList, Values, InsertOf;
    InsertBuilds(ts, s.tableName, names + (middle + (texts + (last + end))),
      Step(s.columns, middle + (texts + (last + end))),
                 texts + (last + end), Step(Values(s), last + end), end);
    assert ts[0] == KeywordToken("INSERT");
  }

  lemma {:induction false} InsertParts(ts: seq<Token>)
    returns (
      table: string, inner: seq<Token>, columns: Step<seq<string>>,
      list: seq<Token>, values: Step<seq<Value>>, end: seq<Token>)
    requires TakeInsert(ts).Ok?
    ensures ts == [KeywordToken("INSERT"), KeywordToken("INTO"), NameToken(table), LPAREN] + inner && NameFits(table)
    ensures TakeNames(inner, 0) == Ok(columns) && columns.rest == [RPAREN, KeywordToken("VALUES"), LPAREN] + list
    ensures TakeValues(list, 0) == Ok(values) && values.rest == [RPAREN] + end && TakeEnd(end).Ok?
    ensures |columns.item| == |values.item| &&
      TakeInsert(ts).value == Insert(InsertOf(table, columns.item, values.item))
  {
    hide TakeNames, TakeValues, TakeEnd, InsertOf;
    table, inner := ts[1..][1..][0].value, ts[1..][1..][1..][1..];
    columns := TakeNames(inner, 0).value;
    list := columns.rest[1..][1..][1..];
    values := TakeValues(list, 0).value;
    end := values.rest[1..];
    assert ts == [ts[0]] + ([ts[1..][0]] + ([ts[1..][1..][0]] + ([ts[1..][1..][1..][0]] + inner)));
    assert columns.rest == [columns.rest[0]] + ([columns.rest[1..][0]] + ([columns.rest[1..][1..][0]] + list));
    assert values.rest == [values.rest[0]] + end;
  }

  lemma {:induction false} TakenInsert(ts: seq<Token>) returns (end: seq<Token>)
    requires TakeInsert(ts).Ok?
    ensures TakeInsert(ts).value.Insert?
    ensures IsEnd(end) && Fitting(TakeInsert(ts).value) && ts == StatementTokens(TakeInsert(ts).value) + end
  {
    var table, inner, columns, list, values, end' := InsertParts(ts);
    end := end';
    NotEmpty(inner);
    NotEmptyValues(list);
    TakenNames(inner, 0);
    TakenValues(list, 0);
    EndTaken(end);
    var s := InsertOf(table, columns.item, values.item);
    assert s.Even() && Values(s) == values.item;
    hide TakeInsert, TakeNames, TakeValues, TakeEnd, NameList, ValueList, IsEnd, InsertOf, Values;
    var head := [KeywordToken("INSERT"), KeywordToken("INTO"), NameToken(table), LPAREN];
    var middle, names, texts := [RPAREN, KeywordToken("VALUES"), LPAREN], NameList(columns.item),
      ValueList(values.item);
    assert head + (names + (middle + (texts + ([RPAREN] + end)))) ==
      head + (names + (middle + (texts + [RPAREN]))) + end;
  }

  lemma NotEmpty(ts: seq<Token>)
    ensures TakeNames(ts, 0).Ok? && TakeNames(ts, 0).value.rest != [] ==> ts != []
  {
  }

  lemma NotEmptyValues(ts: seq<Token>)
    ensures TakeValues(ts, 0).Ok? && TakeValues(ts, 0).value.rest != [] ==> ts != []
  {
  }

  /** parser_parse accepts the tokens of a statement within its limits, with or without a semicolon
      at the end, and no others; and it gives back that statement. */
  lemma {:induction false} ParserExact(ts: seq<Token>, stmt: Statement)
    ensures ParsedStatement(ts) == Ok(stmt) <==>
      Fitting(stmt) && (ts == StatementTokens(stmt) || ts == StatementTokens(stmt) + [SEMICOLON])
  {
    hide StatementTokens, Fitting, TakeInsert, TakeSelect, TakeDelete;
    if ParsedStatement(ts) == Ok(stmt) {
      var end := Accepted(ts, stmt);
      FittingEven(stmt);
      assert end == [] ==> StatementTokens(stmt) + end == StatementTokens(stmt);
    }
    hide ParsedStatement;
    if Fitting(stmt) {
      FittingEven(stmt);
      if ts == StatementTokens(stmt) || ts == StatementTokens(stmt) + [SEMICOLON] {
        var end := if ts == StatementTokens(stmt) then [] else [SEMICOLON];
        assert ts == StatementTokens(stmt) + end;
        StatementFollowed(stmt, end);
      }
    }
  }

  lemma FittingEven(stmt: Statement)
    requires Fitting(stmt)
    ensures stmt.Insert? ==> stmt.insert.Even()
  {
  }

  /** The condition of a statement, if it has one. */
  function WhereOf(stmt: Statement): Option<WhereClause> {
    match stmt
    case Insert(_) => None
    case Select(s) => s.where
    case Delete(s) => s.where
  }

  /** With anything but a semicolon behind it, a statement is refused for just that. */
  lemma {:induction false} StatementFollowed(stmt: Statement, end: seq<Token>)
    requires Fitting(stmt) && (!stmt.Insert? ==> Ends(WhereOf(stmt), end))
    ensures ParsedStatement(StatementTokens(stmt) + end) ==
      if end == [] || end == [Token(Semicolon, ";")] then Ok(stmt) else Err(TrailingTokens)
  {
    hide StatementTokens, ParsedStatement, Fitting;
    match stmt {
      case Insert(s) => InsertTaken(s, end);
      case Select(s) => SelectTaken(s, end);
      case Delete(s) => DeleteTaken(s, end);
    }
  }

  lemma {:induction false} NamesOver(names: seq<string>, rest: seq<Token>, n: nat)
    requires n <= MAX_COLUMNS < n + |names| && forall i :: 0 <= i < |names| ==> NameFits(names[i])
    ensures TakeNames(NameList(names) + rest, n) == Err(TooManyColumns)
  {
    if n < MAX_COLUMNS {
      hide *;
      var tail := NameList(names[1..]) + rest;
      CommaFirst(tail);
      NamesOver(names[1..], rest, n + 1);
      NameTaken(names[0], [COMMA] + tail);
      NameListSplits(names, rest);
      NamesUnfold([NameToken(names[0])] + ([COMMA] + tail), n, Step(names[0], [COMMA] + tail));
    } else {
      NotNone(names, rest);
      hide NameList;
    }
  }

  lemma NotNone(names: seq<string>, rest: seq<Token>)
    requires names != []
    ensures NameList(names) + rest != [] && (NameList(names) + rest)[0] == NameToken(names[0])
  {
  }

  lemma {:induction false} ValuesOver(values: seq<Value>, rest: seq<Token>, n: nat)
    requires n <= MAX_COLUMNS < n + |values| && forall i :: 0 <= i < |values| ==> |values[i].text| < MAX_VALUE_LEN
    ensures TakeValues(ValueList(values) + rest, n) == Err(TooManyColumns)
  {
    if n < MAX_COLUMNS {
      hide *;
      var tail := ValueList(values[1..]) + rest;
      CommaFirst(tail);
      ValuesOver(values[1..], rest, n + 1);
      OneValueTaken(values[0], [COMMA] + tail);
      ValueListSplits(values, rest);
      ValuesUnfold([ValueToken(values[0])] + ([COMMA] + tail), n, Step(values[0], [COMMA] + tail));
    } else {
      NoValueNone(values, rest);
      hide ValueList;
    }
  }

  lemma NoValueNone(values: seq<Value>, rest: seq<Token>)
    requires values != []
    ensures ValueList(values) + rest != []
  {
  }

  /** With more than 32 names or values a statement is refused for that, whatever comes after them. */
  lemma {:induction false} TooManyRefused(
      table: string, names: seq<string>, values: seq<Value>, rest: seq<Token>)
    requires NameFits(table) && forall i :: 0 <= i < |names| ==> NameFits(names[i])
    requires forall i :: 0 <= i < |values| ==> |values[i].text| < MAX_VALUE_LEN
    ensures |names| > 32 ==>
      ParsedStatement(InsertTokens(table, names, values, rest)) == Err(TooManyColumns)
    ensures 0 < |names| <= 32 && |values| > 32 ==>
      ParsedStatement(InsertTokens(table, names, values, rest)) == Err(TooManyColumns)
    ensures |names| > 32 && names[0] != "*" ==>
      ParsedStatement([KeywordToken("SELECT")] + (NameList(names) + rest)) == Err(TooManyColumns)
  {
    hide TakeNames, TakeValues, NameList, ValueList, StartsWith;
    var middle, texts := [RPAREN, KeywordToken("VALUES"), LPAREN], ValueList(values) + ([RPAREN] + rest);
    if |names| > 32 {
      NamesOver(names, middle + texts, 0);
      InsertStops(table, NameList(names) + (middle + texts));
      NamesOver(names, rest, 0);
      NotNone(names, rest);
      if names[0] != "*" {
        SelectStops(NameList(names) + rest);
      }
    } else if names != [] && |values| > 32 {
      NamesTaken(names, middle + texts, 0) by {
        NoComma(texts);
      }
      ValuesOver(values, [RPAREN] + rest, 0);
      InsertGoesOn(table, NameList(names) + (middle + texts), names, texts);
    }
  }

  lemma NoComma(texts: seq<Token>)
    ensures !StartsWith([RPAREN, KeywordToken("VALUES"), LPAREN] + texts, COMMA)
  {
  }

  lemma InsertStops(table: string, inner: seq<Token>)
    requires NameFits(table) && TakeNames(inner, 0).Err?
    ensures ParsedStatement([KeywordToken("INSERT"), KeywordToken("INTO"), NameToken(table), LPAREN] + inner) ==
      Err(TakeNames(inner, 0).error)
  {
    hide TakeNames;
    var ts := [KeywordToken("INSERT"), KeywordToken("INTO"), NameToken(table), LPAREN] + inner;
    assert ts[1..][1..][1..][1..] == inner;
  }

  lemma InsertGoesOn(table: string, inner: seq<Token>, names: seq<string>, list: seq<Token>)
    requires NameFits(table) && TakeValues(list, 0).Err?
    requires TakeNames(inner, 0) == Ok(Step(names, [RPAREN, KeywordToken("VALUES"), LPAREN] + list))
    ensures ParsedStatement([KeywordToken("INSERT"), KeywordToken("INTO"), NameToken(table), LPAREN] + inner) ==
      Err(TakeValues(list, 0).error)
  {
    hide TakeNames, TakeValues;
    var ts := [KeywordToken("INSERT"), KeywordToken("INTO"), NameToken(table), LPAREN] + inner;
    assert ts[1..][1..][1..][1..] == inner;
    assert TakeNames(inner, 0).value.rest[1..][1..][1..] == list;
  }

  lemma SelectStops(inner: seq<Token>)
    requires inner != [] && inner[0] != STAR && TakeNames(inner, 0).Err?
    ensures ParsedStatement([KeywordToken("SELECT")] + inner) == Err(TakeNames(inner, 0).error)
  {
    hide TakeNames;
    assert ([KeywordToken("SELECT")] + inner)[1..] == inner;
  }

  /** An INSERT within the limits, with another number of values than of names, is refused for that. */
  lemma {:induction false} CountsRefused(table: string, names: seq<string>, values: seq<Value>, rest: seq<Token>)
    requires NameFits(table) && names != [] && NamesFit(names) && values != [] && ValuesFit(values)
    requires |names| != |values|
    ensures ParsedStatement(InsertTokens(table, names, values, rest)) == Err(CountMismatch)
  {
    var middle, last := [RPAREN, KeywordToken("VALUES"), LPAREN], [RPAREN];
    var texts := ValueList(values) + (last + rest);
    NamesTaken(names, middle + texts, 0);
    ValuesTaken(values, last + rest, 0);
    hide TakeInsert, TakeNames, TakeValues, TakeEnd, NameList, ValueList, InsertOf;
    InsertBuilds(InsertTokens(table, names, values, rest), table, NameList(names) + (middle + texts),
      Step(names, middle + texts), texts, Step(values, last + rest), rest);
  }

  function InsertTokens(table: string, names: seq<string>, values: seq<Value>, rest: seq<Token>): seq<Token> {
    [KeywordToken("INSERT"), KeywordToken("INTO"), NameToken(table), LPAREN] + (NameList(names) +
    ([RPAREN, KeywordToken("VALUES"), LPAREN] + (ValueList(values) + ([RPAREN] + rest))))
  }

  lemma {:induction false} Accepted(ts: seq<Token>, stmt: Statement) returns (end: seq<Token>)
    requires ParsedStatement(ts) == Ok(stmt)
    ensures IsEnd(end) && Fitting(stmt) && ts == StatementTokens(stmt) + end
  {
    hide StatementTokens, TakeInsert, TakeSelect, TakeDelete, Fitting;
    if ts[0] == KeywordToken("INSERT") {
      end := TakenInsert(ts);
    } else if ts[0] == KeywordToken("SELECT") {
      end := TakenSelect(ts);
    } else {
      end := TakenDelete(ts);
    }
  }

  // ---------- Statements as text ----------

  predicate GoodName(name: string) {
    IsName(name) && !IsKeyword(name) && |name| < MAX_IDENTIFIER_LEN
  }

  predicate GoodValue(v: Value) {
    |v.text| < MAX_VALUE_LEN && (v.kind == IntKind ==> IsIntegerText(v.text))
  }

  predicate GoodWhere(where: Option<WhereClause>) {
    match where
    case None => true
    case Some(w) =>
      GoodName(w.column) && w.op in ["!", "<", ">", "=", "!=", "<=", ">="] && GoodValue(Value(w.value, w.kind))
  }

  /** A statement that can be written: identifiers that are not keywords, at most 32 columns, values
      that fit, numbers that are numbers. */
  predicate WellFormed(stmt: Statement) {
    match stmt
    case Insert(s) =>
      s.Even() && GoodName(s.tableName) && 1 <= |s.columns| <= MAX_COLUMNS && (forall c <- s.columns :: GoodName(c)) &&
      forall v <- Values(s) :: GoodValue(v)
    case Select(s) =>
      GoodName(s.tableName) && |s.columns| <= MAX_COLUMNS && (forall c <- s.columns :: GoodName(c)) &&
      GoodWhere(s.where)
    case Delete(s) => GoodName(s.tableName) && GoodWhere(s.where)
  }

  lemma {:induction false} WellFormedFits(stmt: Statement)
    requires WellFormed(stmt)
    ensures Fitting(stmt)
  {
    assert !GoodName("*") by {
      assert !IsWordChar("*"[0]);
    }
    hide IsKeyword, IsIntegerText, AllWord;
    match stmt {
      case Insert(s) =>
        assert forall i :: 0 <= i < |s.columns| ==> s.columns[i] in s.columns;
        assert forall i :: 0 <= i < |Values(s)| ==> Values(s)[i] in Values(s);
      case Select(s) =>
        assert forall i :: 0 <= i < |s.columns| ==> s.columns[i] in s.columns;
      case Delete(s) =>
    }
  }

  /** What compiling a text comes to: tokens, then a statement. */
  datatype SqlError = Lexical(lex: LexError) | Syntactic(parse: ParseError)

  function Compiled(sql: string): Result<Statement, SqlError> {
    match Tokenized(sql)
    case Err(e) => Err(Lexical(e))
    case Ok(tokens) =>
      match ParsedStatement(tokens)
      case Err(e) => Err(Syntactic(e))
      case Ok(stmt) => Ok(stmt)
  }

  /** Any way of writing a statement down, in any layout and with or without the semicolon, compiles
      to that statement; and what compiles to a statement is a way of writing it down. */
  lemma {:induction false} WritingCompiles(stmt: Statement, end: seq<Token>, pieces: seq<Piece>, tail: string)
    requires Fitting(stmt) && IsEnd(end) && (stmt.Insert? ==> stmt.insert.Even())
    requires Fits(StatementTokens(stmt) + end, pieces, tail)
    ensures Compiled(Written(pieces, tail)) == Ok(stmt)
  {
    var tokens := StatementTokens(stmt) + end;
    assert tokens != [];
    WrittenTokenizes(tokens, pieces, tail);
    TokenizeExact(Written(pieces, tail));
    StatementFollowed(stmt, end);
    hide StatementTokens, ParsedStatement, Tokenized, Tokens, Fits, Fitting, Written;
  }

  lemma {:induction false} CompiledIsWritten(sql: string) returns (end: seq<Token>, pieces: seq<Piece>, tail: string)
    requires Compiled(sql).Ok?
    ensures var stmt := Compiled(sql).value;
      Fitting(stmt) && (stmt.Insert? ==> stmt.insert.Even()) && IsEnd(end) &&
      Fits(StatementTokens(stmt) + end, pieces, tail) && sql == Written(pieces, tail)
  {
    hide StatementTokens, ParsedStatement, Tokenized, Tokens, Fits, Fitting, Written;
    var tokens, stmt := Tokenized(sql).value, Compiled(sql).value;
    TokenizeExact(sql);
    end := Accepted(tokens, stmt);
    FittingEven(stmt);
    pieces, tail := TokenizedIsWritten(sql);
  }

  lemma {:induction false} FitsEach(tokens: seq<Token>, pieces: seq<Piece>, tail: string, i: nat)
    requires Fits(tokens, pieces, tail) && i < |tokens|
    ensures exists x :: Spells(tokens[i], x)
  {
    hide Spells, Stops;
    if i > 0 {
      FitsEach(tokens[1..], pieces[1..], tail, i - 1);
    }
  }

  lemma {:induction false} NameListHas(names: seq<string>, i: nat)
    requires i < |names|
    ensures NameToken(names[i]) in NameList(names)
  {
    hide NameToken;
    if i > 0 {
      NameListHas(names[1..], i - 1);
    }
  }

  /** The columns of an INSERT as the parser makes it: at most 32, each a star or a word. */
  lemma {:induction false} CompiledNames(sql: string, s: InsertStatement)
    requires Compiled(sql) == Ok(Insert(s))
    ensures s.Even() && 1 <= |s.columns| <= MAX_COLUMNS
    ensures forall name <- s.columns :: name == "*" || IsName(name)
  {
    hide *;
    var end, pieces, tail := CompiledIsWritten(sql);
    var tokens := StatementTokens(Insert(s)) + end;
    FittingInsert(s);
    forall name <- s.columns ensures name == "*" || IsName(name) {
      var i :| 0 <= i < |s.columns| && s.columns[i] == name;
      NameListHas(s.columns, i);
      InsertHas(s, NameToken(name));
      assert NameToken(name) in tokens;
      var k :| 0 <= k < |tokens| && tokens[k] == NameToken(name);
      FitsEach(tokens, pieces, tail, k);
      var x :| Spells(NameToken(name), x);
      SpeltName(name, x);
    }
  }

  lemma FittingInsert(s: InsertStatement)
    requires Fitting(Insert(s))
    ensures s.Even() && 1 <= |s.columns| <= MAX_COLUMNS
  {
  }

  lemma SpeltName(name: string, x: string)
    requires Spells(NameToken(name), x)
    ensures name == "*" || IsName(name)
  {
    hide IsName;
  }

  lemma InsertHas(s: InsertStatement, t: Token)
    requires s.Even() && t in NameList(s.columns)
    ensures t in StatementTokens(Insert(s))
  {
  }

  // ---------- One canonical way ----------

  function Spelling(t: Token): string {
    if t.kind == StrLiteral then "'" + Doubled(t.value) + "'" else t.value
  }

  /** Each token after a space. */
  function Pieces(tokens: seq<Token>): seq<Piece> {
    if tokens == [] then [] else [Piece(" ", Spelling(tokens[0]))] + Pieces(tokens[1..])
  }

  function Rendered(stmt: Statement): string
    requires stmt.Insert? ==> stmt.insert.Even()
  {
    Written(Pieces(StatementTokens(stmt)), "")
  }

  predicate Spellable(t: Token) {
    Spells(t, Spelling(t))
  }

  lemma {:induction false} PiecesFit(tokens: seq<Token>)
    requires forall i :: 0 <= i < |tokens| ==> Spellable(tokens[i])
    ensures Fits(tokens, Pieces(tokens), "")
    ensures var text := Written(Pieces(tokens), ""); text == "" || text[0] == ' '
  {
    if tokens != [] {
      PiecesFit(tokens[1..]);
      assert Spellable(tokens[0]);
      assert Pieces(tokens)[1..] == Pieces(tokens[1..]);
      SpaceStops(tokens[0], Spelling(tokens[0]), Written(Pieces(tokens[1..]), ""));
      hide Spells, Stops, Spelling;
    }
  }

  lemma SpaceStops(t: Token, x: string, rest: string)
    requires rest == "" || rest[0] == ' '
    ensures Stops(t, x, rest)
  {
  }

  lemma {:induction false} NamesSpell(names: seq<string>)
    requires forall c <- names :: GoodName(c)
    ensures forall i :: 0 <= i < |NameList(names)| ==> Spellable(NameList(names)[i])
  {
    if names != [] {
      assert GoodName(names[0]) && Spellable(NameToken(names[0])) && Spellable(COMMA);
      NamesSpell(names[1..]);
    }
    hide Spellable, GoodName;
  }

  lemma {:induction false} ValuesSpell(values: seq<Value>)
    requires forall v <- values :: GoodValue(v)
    ensures forall i :: 0 <= i < |ValueList(values)| ==> Spellable(ValueList(values)[i])
  {
    if values != [] {
      assert GoodValue(values[0]) && Spellable(ValueToken(values[0])) && Spellable(COMMA);
      ValuesSpell(values[1..]);
    }
    hide Spellable, GoodValue;
  }

  lemma KeywordsSpell(word: string)
    requires word in ["INSERT", "SELECT", "DELETE", "INTO", "FROM", "WHERE", "VALUES"]
    ensures Spellable(KeywordToken(word))
  {
    assert word != "" && forall i :: 0 <= i < |word| ==> 'A' <= word[i] <= 'Z';
    CapitalsSame(word);
    hide Fold;
  }

  lemma NameSpells(name: string)
    requires GoodName(name)
    ensures Spellable(NameToken(name))
  {
  }

  lemma MarksSpell()
    ensures Spellable(LPAREN) && Spellable(RPAREN) && Spellable(COMMA) && Spellable(STAR)
  {
  }

  lemma AllKeywordsSpell()
    ensures Spellable(KeywordToken("INSERT")) && Spellable(KeywordToken("SELECT")) && Spellable(KeywordToken("DELETE"))
    ensures Spellable(KeywordToken("INTO")) && Spellable(KeywordToken("FROM")) && Spellable(KeywordToken("WHERE"))
    ensures Spellable(KeywordToken("VALUES"))
  {
    KeywordsSpell("INSERT");
    KeywordsSpell("SELECT");
    KeywordsSpell("DELETE");
    KeywordsSpell("INTO");
    KeywordsSpell("FROM");
    KeywordsSpell("WHERE");
    KeywordsSpell("VALUES");
    hide Spellable;
  }

  lemma CapitalsSame(word: string)
    requires word != "" && forall i :: 0 <= i < |word| ==> 'A' <= word[i] <= 'Z'
    ensures Fold(word) == word && IsName(word)
  {
  }

  predicate AllSpellable(tokens: seq<Token>) {
    forall i :: 0 <= i < |tokens| ==> Spellable(tokens[i])
  }

  lemma AllSpell(a: seq<Token>, b: seq<Token>)
    requires AllSpellable(a) && AllSpellable(b)
    ensures AllSpellable(a + b)
  {
  }

  lemma ConditionSpells(w: WhereClause)
    requires GoodWhere(Some(w))
    ensures Spellable(NameToken(w.column)) && Spellable(Token(Operator, w.op)) &&
      Spellable(ValueToken(Value(w.value, w.kind)))
  {
  }

  lemma {:induction false} WhereSpells(where: Option<WhereClause>)
    requires GoodWhere(where)
    ensures AllSpellable(WhereTokens(where))
  {
    hide Spellable, GoodWhere, AllSpellable;
    AllKeywordsSpell();
    if where.Some? {
      ConditionSpells(where.value);
      hide NameToken, ValueToken, KeywordToken;
    }
    EachSpells(WhereTokens(where));
  }

  lemma {:induction false} StatementSpells(stmt: Statement)
    requires WellFormed(stmt) && (stmt.Insert? ==> stmt.insert.Even())
    ensures AllSpellable(StatementTokens(stmt))
  {
    hide WellFormed, AllSpellable, StatementTokens;
    match stmt {
      case Insert(s) => InsertSpells(s);
      case Select(s) => SelectSpells(s);
      case Delete(s) => DeleteSpells(s);
    }
  }

  lemma {:induction false} DeleteSpells(s: DeleteStatement)
    requires WellFormed(Delete(s))
    ensures AllSpellable(StatementTokens(Delete(s)))
  {
    var front := [KeywordToken("DELETE"), KeywordToken("FROM"), NameToken(s.tableName)];
    assert StatementTokens(Delete(s)) == front + WhereTokens(s.where);
    assert GoodName(s.tableName) && GoodWhere(s.where);
    hide *;
    WhereSpells(s.where);
    AllKeywordsSpell();
    NameSpells(s.tableName);
    EachSpells(front);
    AllSpell(front, WhereTokens(s.where));
  }

  function InsertHead(table: string): seq<Token> {
    [KeywordToken("INSERT"), KeywordToken("INTO"), NameToken(table), LPAREN]
  }

  function InsertMiddle(): seq<Token> {
    [RPAREN, KeywordToken("VALUES"), LPAREN]
  }

  lemma InsertMarksSpell(table: string)
    requires GoodName(table)
    ensures AllSpellable(InsertHead(table)) && AllSpellable(InsertMiddle()) && AllSpellable([RPAREN])
  {
    hide Spellable, GoodName;
    AllKeywordsSpell();
    MarksSpell();
    NameSpells(table);
    hide KeywordToken, NameToken;
  }

  lemma {:induction false} InsertSpells(s: InsertStatement)
    requires s.Even() && WellFormed(Insert(s))
    ensures AllSpellable(StatementTokens(Insert(s)))
  {
    var names, texts := NameList(s.columns), ValueList(Values(s));
    assert StatementTokens(Insert(s)) == InsertHead(s.tableName) + (names + (InsertMiddle() + (texts + [RPAREN])));
    NamesSpell(s.columns);
    ValuesSpell(Values(s));
    InsertMarksSpell(s.tableName);
    hide *;
    EachSpells(names);
    EachSpells(texts);
    AllSpell(texts, [RPAREN]);
    AllSpell(InsertMiddle(), texts + [RPAREN]);
    AllSpell(names, InsertMiddle() + (texts + [RPAREN]));
    AllSpell(InsertHead(s.tableName), names + (InsertMiddle() + (texts + [RPAREN])));
  }

  lemma EachSpells(tokens: seq<Token>)
    requires forall i :: 0 <= i < |tokens| ==> Spellable(tokens[i])
    ensures AllSpellable(tokens)
  {
  }

  function SelectFrom(table: string): seq<Token> {
    [KeywordToken("FROM"), NameToken(table)]
  }

  lemma SelectMarksSpell(table: string)
    requires GoodName(table)
    ensures AllSpellable(SelectFrom(table)) && AllSpellable([KeywordToken("SELECT")]) && AllSpellable([STAR])
  {
    hide Spellable, GoodName;
    AllKeywordsSpell();
    MarksSpell();
    NameSpells(table);
    hide KeywordToken, NameToken;
  }

  lemma {:induction false} SelectSpells(s: SelectStatement)
    requires WellFormed(Select(s))
    ensures AllSpellable(StatementTokens(Select(s)))
  {
    var list := if s.columns == [] then [STAR] else NameList(s.columns);
    assert StatementTokens(Select(s)) ==
      [KeywordToken("SELECT")] + (list + (SelectFrom(s.tableName) + WhereTokens(s.where)));
    NamesSpell(s.columns);
    WhereSpells(s.where);
    SelectMarksSpell(s.tableName);
    hide *;
    EachSpells(NameList(s.columns));
    AllSpell(SelectFrom(s.tableName), WhereTokens(s.where));
    AllSpell(list, SelectFrom(s.tableName) + WhereTokens(s.where));
    AllSpell([KeywordToken("SELECT")], list + (SelectFrom(s.tableName) + WhereTokens(s.where)));
  }

  /** Rendering a well-formed statement and compiling the text gives the statement back. */
  lemma {:induction false} RenderedCompiles(stmt: Statement)
    requires WellFormed(stmt)
    ensures stmt.Insert? ==> stmt.insert.Even()
    ensures Compiled(Rendered(stmt)) == Ok(stmt)
  {
    WellFormedFits(stmt);
    FittingEven(stmt);
    StatementSpells(stmt);
    var tokens := StatementTokens(stmt);
    PiecesFit(tokens);
    hide StatementTokens, Compiled, Fits, Fitting, Written, WellFormed, Spellable;
    assert tokens + [] == tokens;
    WritingCompiles(stmt, [], Pieces(tokens), "");
  }
}
