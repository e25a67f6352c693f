/**
What the comparisons of src/utils.c and src/table_runtime.c come to: which number a literal stands
for, which of two texts comes first, and what each operator of a WHERE says about two values.
*/
module Comparing {
  import opened Wrappers
  import opened Text

  // ---------- Numbers ----------

  function Zeros(n: nat): string {
    seq(n, i => '0')
  }

  function Magnitude(v: int): nat {
    if v < 0 then -v else v
  }

  /** The text is the number in decimal, behind any sign that suits it and any number of zeros. */
  ghost predicate Denotes(s: string, v: int) {
    exists sign, zeros :: WrittenSo(s, sign, zeros, v)
  }

  predicate WrittenSo(s: string, sign: string, zeros: nat, v: int) {
    s == sign + (Zeros(zeros) + Decimal(Magnitude(v))) &&
    ((sign == "-" && v <= 0) || ((sign == "" || sign == "+") && v >= 0))
  }

  lemma {:induction false} ZeroFirst(s: string)
    requires s != "" && s[0] == '0'
    ensures DigitsValue(s) == DigitsValue(s[1..])
  {
    if |s| == 1 {
      assert s[..0] == "" && s[1..] == "";
    } else {
      var front := s[..|s| - 1];
      ZeroFirst(front);
      assert s[1..][..|s| - 2] == front[1..] && s[1..][|s| - 2] == s[|s| - 1];
    }
  }

  lemma {:induction false} ZerosFirst(n: nat, digits: string)
    ensures DigitsValue(Zeros(n) + digits) == DigitsValue(digits)
  {
    var s := Zeros(n) + digits;
    if n == 0 {
      assert s == digits;
    } else {
      assert s[0] == '0' && s[1..] == Zeros(n - 1) + digits;
      ZeroFirst(s);
      ZerosFirst(n - 1, digits);
    }
  }

  function Power(n: nat): nat {
    if n == 0 then 1 else 10 * Power(n - 1)
  }

  /** A digit counts by its place. */
  lemma {:induction false} DigitPlaces(front: string, c: char, back: string)
    ensures DigitsValue(front + [c] + back) ==
      DigitsValue(front) * Power(|back| + 1) + (c as int - 48) * Power(|back|) + DigitsValue(back)
  {
    var s := front + [c] + back;
    if back == "" {
      assert s == front + [c] && s[..|s| - 1] == front;
    } else {
      var rest := back[..|back| - 1];
      DigitPlaces(front, c, rest);
      assert s[..|s| - 1] == front + [c] + rest && s[|s| - 1] == back[|back| - 1];
      PlacesMoved(DigitsValue(front), c as int - 48, Power(|rest|), DigitsValue(rest));
    }
  }

  lemma PlacesMoved(front: int, digit: int, place: int, rest: int)
    ensures 10 * (front * (10 * place) + digit * place + rest) ==
      front * (10 * (10 * place)) + digit * (10 * place) + 10 * rest
  {
  }

  /** The number in decimal is the one string of digits of that value without zeros in front. */
  lemma {:induction false} DecimalExact(n: nat, s: string)
    ensures s == Decimal(n) <==>
      s != "" && AllDigits(s) && (s[0] != '0' || |s| == 1) && DigitsValue(s) == n
  {
    DecimalParses(n);
    DecimalFirst(n);
    if s != "" && AllDigits(s) && (s[0] != '0' || |s| == 1) {
      DigitsDecimal(s);
    }
  }

  lemma {:induction false} DecimalFirst(n: nat)
    ensures Decimal(n) != "" && (Decimal(n)[0] == '0' ==> n == 0)
  {
    if n >= 10 {
      DecimalFirst(n / 10);
    }
  }

  /** Without zeros in front, digits are the number in decimal. */
  lemma {:induction false} DigitsDecimal(s: string)
    requires s != "" && AllDigits(s) && (s[0] != '0' || |s| == 1)
    ensures DigitsValue(s) >= 0 && (|s| > 1 ==> DigitsValue(s) >= 10)
    ensures Decimal(DigitsValue(s)) == s
  {
    var front, last := s[..|s| - 1], s[|s| - 1];
    assert IsDigit(last);
    if |s| == 1 {
      assert front == "" && s == [last];
    } else {
      DigitsDecimal(front);
      DigitsPositive(front);
      assert s == front + [last];
    }
  }

  lemma {:induction false} DigitsPositive(s: string)
    requires s != "" && AllDigits(s) && s[0] != '0'
    ensures DigitsValue(s) >= 1
  {
    assert IsDigit(s[|s| - 1]);
    if |s| > 1 {
      DigitsPositive(s[..|s| - 1]);
    } else {
      assert s[..0] == "";
    }
  }

  lemma {:induction false} ZerosOff(s: string) returns (n: nat)
    requires s != "" && AllDigits(s)
    ensures DigitsValue(s) >= 0 && s == Zeros(n) + Decimal(DigitsValue(s))
  {
    if s[0] == '0' && |s| > 1 {
      assert forall i :: 0 <= i < |s| - 1 ==> s[1..][i] == s[i + 1];
      n := ZerosOff(s[1..]);
      ZeroFirst(s);
      n := n + 1;
      assert s == ['0'] + s[1..];
    } else {
      n := 0;
      DigitsDecimal(s);
    }
  }

  lemma {:induction false} ZerosDigits(n: nat, m: nat)
    ensures var s := Zeros(n) + Decimal(m); s != "" && AllDigits(s) && DigitsValue(s) == m && IsDigit(s[0])
  {
    DecimalParses(m);
    ZerosFirst(n, Decimal(m));
    var s, d := Zeros(n) + Decimal(m), Decimal(m);
    hide Decimal, DigitsValue;
    forall i | 0 <= i < |s| ensures IsDigit(s[i]) {
      assert i >= n ==> s[i] == d[i - n];
    }
  }

  /** The texts that utils_is_integer accepts are exactly those that denote a number, and it is theirs. */
  lemma {:induction false} IntegerTexts(s: string, v: int)
    ensures Denotes(s, v) <==> IsIntegerText(s) && IntValue(s) == v
  {
    if Denotes(s, v) {
      var sign, zeros :| WrittenSo(s, sign, zeros, v);
      DenotedBack(s, sign, zeros, v);
    }
    if IsIntegerText(s) && IntValue(s) == v {
      var zeros := ZerosOff(Unsigned(s));
      SignOf(s, v, zeros);
    }
    hide WrittenSo;
  }

  lemma {:induction false} DenotedBack(s: string, sign: string, zeros: nat, v: int)
    requires WrittenSo(s, sign, zeros, v)
    ensures IsIntegerText(s) && IntValue(s) == v
  {
    var digits := Zeros(zeros) + Decimal(Magnitude(v));
    ZerosDigits(zeros, Magnitude(v));
    hide Zeros, Decimal, DigitsValue, AllDigits;
    assert s == sign + digits;
    if sign == "" {
      assert s == digits;
    } else {
      assert s[0] == sign[0] && s[1..] == digits;
    }
  }

  lemma {:induction false} SignOf(s: string, v: int, zeros: nat)
    requires IsIntegerText(s) && IntValue(s) == v
    requires DigitsValue(Unsigned(s)) >= 0 && Unsigned(s) == Zeros(zeros) + Decimal(DigitsValue(Unsigned(s)))
    ensures Denotes(s, v)
  {
    var sign := if s[0] == '-' || s[0] == '+' then [s[0]] else "";
    assert s == sign + Unsigned(s);
    assert WrittenSo(s, sign, zeros, v) by {
      hide Zeros, Decimal, DigitsValue, AllDigits;
    }
  }

  /** utils_try_parse_integer accepts exactly the texts of the 64-bit numbers. */
  lemma {:induction false} ParsedNumber(s: string, v: int)
    ensures TryParse(s) == Some(v) <==> Denotes(s, v) && LLONG_MIN <= v <= LLONG_MAX
  {
    IntegerTexts(s, v);
    hide Denotes, IsIntegerText, IntValue;
  }

  // ---------- Texts ----------

  /** One is a proper beginning of the other, or has the smaller byte where they first differ. */
  ghost predicate TextBefore(a: string, b: string) {
    (|a| < |b| && b[..|a|] == a) || exists k: nat :: DiffersAt(a, b, k)
  }

  predicate DiffersAt(a: string, b: string, k: nat) {
    k < |a| && k < |b| && a[..k] == b[..k] && a[k] < b[k]
  }

  lemma {:induction false} StrCmpBefore(a: string, b: string)
    ensures StrCmp(a, b) < 0 ==> TextBefore(a, b)
    ensures StrCmp(a, b) == 0 ==> a == b
  {
    if a != "" && b != "" {
      if a[0] == b[0] {
        StrCmpBefore(a[1..], b[1..]);
        assert a == [a[0]] + a[1..] && b == [b[0]] + b[1..];
        if StrCmp(a, b) < 0 {
          BeforeConsed(a[0], a[1..], b[1..]);
        }
      } else if a[0] < b[0] {
        assert DiffersAt(a, b, 0);
      }
    }
  }

  lemma BeforeConsed(c: char, a: string, b: string)
    ensures TextBefore(a, b) ==> TextBefore([c] + a, [c] + b)
  {
    var x, y := [c] + a, [c] + b;
    if |a| < |b| && b[..|a|] == a {
      assert y[..|x|] == [c] + b[..|a|];
    } else if TextBefore(a, b) {
      var k: nat :| DiffersAt(a, b, k);
      assert x[..k + 1] == [c] + a[..k] && y[..k + 1] == [c] + b[..k];
      assert DiffersAt(x, y, k + 1);
    }
  }

  lemma {:induction false} BeforeStrCmp(a: string, b: string)
    requires TextBefore(a, b)
    ensures StrCmp(a, b) < 0
  {
    if a != "" {
      if |a| < |b| && b[..|a|] == a {
        assert a[0] == b[..|a|][0] && b[1..][..|a| - 1] == a[1..];
        BeforeStrCmp(a[1..], b[1..]);
      } else {
        var k: nat :| DiffersAt(a, b, k);
        if k > 0 {
          assert a[..k][0] == b[..k][0];
          assert a[1..][..k - 1] == a[..k][1..] && b[1..][..k - 1] == b[..k][1..];
          assert DiffersAt(a[1..], b[1..], k - 1);
          BeforeStrCmp(a[1..], b[1..]);
        }
      }
    }
  }

  /** What strcmp says of two texts. */
  lemma {:induction false} StrCmpMeans(a: string, b: string)
    ensures StrCmp(a, b) < 0 <==> TextBefore(a, b)
    ensures StrCmp(a, b) == 0 <==> a == b
    ensures StrCmp(a, b) > 0 <==> TextBefore(b, a)
  {
    StrCmpAntisymmetric(a, b);
    StrCmpBefore(a, b);
    StrCmpBefore(b, a);
    if TextBefore(a, b) {
      BeforeStrCmp(a, b);
    }
    if TextBefore(b, a) {
      BeforeStrCmp(b, a);
    }
    hide StrCmp, TextBefore;
  }

  // ---------- Operators ----------

  /** What an operator asks of two values, of which the first comes before the second, or is the same. */
  predicate Stands(op: string, before: bool, same: bool) {
    (op == "=" && same) ||
    (op == "!=" && !same) ||
    (op == "<" && before) ||
    (op == "<=" && (before || same)) ||
    (op == ">" && !before && !same) ||
    (op == ">=" && !before)
  }

  /** table_where_matches; an operator it does not know matches nothing. */
  predicate OpHolds(op: string, comparison: int) {
    match op
    case "=" => comparison == 0
    case "!=" => comparison != 0
    case ">" => comparison > 0
    case ">=" => comparison >= 0
    case "<" => comparison < 0
    case "<=" => comparison <= 0
    case _ => false
  }

  lemma OpMeans(op: string, comparison: int)
    ensures OpHolds(op, comparison) <==> Stands(op, comparison < 0, comparison == 0)
  {
  }

  /** Two integers are compared as such ... */
  ghost predicate IntegersStand(op: string, a: string, b: string) {
    exists x, y :: NumbersStand(op, a, b, x, y)
  }

  ghost predicate NumbersStand(op: string, a: string, b: string, x: int, y: int) {
    Denotes(a, x) && Denotes(b, y) && IsLong(x) && IsLong(y) && Stands(op, x < y, x == y)
  }

  predicate IsLong(v: int) {
    -0x8000_0000_0000_0000 <= v <= 0x7FFF_FFFF_FFFF_FFFF
  }

  ghost predicate IsLongText(s: string) {
    exists v :: Denotes(s, v) && IsLong(v)
  }

  /** ... all else as text. */
  ghost predicate TextsStand(op: string, a: string, b: string) {
    Stands(op, TextBefore(a, b), a == b)
  }

  /** utils_compare_values under an operator. */
  ghost predicate ValuesStand(op: string, a: string, b: string) {
    if IsLongText(a) && IsLongText(b) then IntegersStand(op, a, b) else TextsStand(op, a, b)
  }

  lemma {:induction false} ParsedOne(s: string)
    ensures TryParse(s).Some? <==> IsLongText(s)
    ensures forall v :: Denotes(s, v) && IsLong(v) ==> TryParse(s) == Some(v)
    ensures TryParse(s).Some? ==> Denotes(s, TryParse(s).value) && IsLong(TryParse(s).value)
  {
    forall v ensures TryParse(s) == Some(v) <==> Denotes(s, v) && IsLong(v) {
      ParsedNumber(s, v);
    }
    hide Denotes, TryParse;
    if TryParse(s).Some? {
      assert TryParse(s) == Some(TryParse(s).value);
    }
  }

  lemma {:induction false} IntegersMean(op: string, a: string, b: string)
    ensures CompareIntegers(a, b).Some? <==> IsLongText(a) && IsLongText(b)
    ensures CompareIntegers(a, b).Some? ==>
      var x, y := TryParse(a).value, TryParse(b).value;
      CompareIntegers(a, b).value == Sign(x - y) && (IntegersStand(op, a, b) <==> Stands(op, x < y, x == y))
  {
    ParsedOne(a);
    ParsedOne(b);
    hide Denotes, TryParse, IsLongText, Stands, IsLong;
    if CompareIntegers(a, b).Some? {
      var x, y := TryParse(a).value, TryParse(b).value;
      assert Stands(op, x < y, x == y) ==> NumbersStand(op, a, b, x, y);
    }
  }

  /** What each operator says of two integer literals, two texts and two values of any kind. */
  lemma {:induction false} OperatorsMean(op: string, a: string, b: string)
    ensures CompareIntegers(a, b).Some? <==> IsLongText(a) && IsLongText(b)
    ensures CompareIntegers(a, b).Some? ==> (OpHolds(op, CompareIntegers(a, b).value) <==> IntegersStand(op, a, b))
    ensures OpHolds(op, StrCmp(a, b)) <==> TextsStand(op, a, b)
    ensures OpHolds(op, CompareValues(a, b)) <==> ValuesStand(op, a, b)
  {
    IntegersMean(op, a, b);
    StrCmpMeans(a, b);
    OpMeans(op, StrCmp(a, b));
    OpMeans(op, CompareValues(a, b));
    hide IsLongText, IntegersStand, TextBefore, OpHolds, StrCmp, TryParse, Stands, CompareIntegers;
    if CompareIntegers(a, b).Some? {
      OpMeans(op, CompareIntegers(a, b).value);
    }
  }
}
