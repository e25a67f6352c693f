/**
The string helpers of src/utils.c. A C string is a sequence of bytes without a NUL; one char of a
Dafny string stands for one byte.
*/
module Text {
  import opened Wrappers

  const INT_MAX: int := 0x7FFF_FFFF
  const LLONG_MAX: int := 0x7FFF_FFFF_FFFF_FFFF
  const LLONG_MIN: int := -0x8000_0000_0000_0000

  // ---------- Character classes of the C locale ----------

  predicate IsDigit(c: char) { '0' <= c <= '9' }

  predicate IsAlpha(c: char) { 'a' <= c <= 'z' || 'A' <= c <= 'Z' }

  predicate IsSpace(c: char) { c == ' ' || '\t' <= c <= '\r' }

  /** The classes by their codes in ASCII. */
  lemma ClassCodes(c: char)
    ensures IsDigit(c) <==> 48 <= c as int <= 57
    ensures IsAlpha(c) <==> 65 <= c as int <= 90 || 97 <= c as int <= 122
    ensures IsSpace(c) <==> 9 <= c as int <= 13 || c as int == 32
  {
  }

  predicate AllSpace(s: string) {
    forall i :: 0 <= i < |s| ==> IsSpace(s[i])
  }

  /** How many characters at the front satisfy the test. */
  function RunLength(s: string, test: char -> bool): (n: nat)
    ensures n <= |s| && (n < |s| ==> !test(s[n]))
    ensures forall j :: 0 <= j < n ==> test(s[j])
  {
    if s == "" || !test(s[0]) then 0 else 1 + RunLength(s[1..], test)
  }

  function ToUpper(c: char): char {
    if 'a' <= c <= 'z' then (c as int - 32) as char else c
  }

  // ---------- Names ----------

  /** The name with its case folded away: what the source compares by. */
  function Fold(s: string): string {
    seq(|s|, i requires 0 <= i < |s| => ToUpper(s[i]))
  }

  predicate SameName(a: string, b: string) {
    Fold(a) == Fold(b)
  }

  /** The 26 letters differ by 32 between the cases, and no other character has two. */
  lemma LettersFold(c: char, d: char)
    ensures SameName([c], [d]) <==>
      c == d ||
      (97 <= c as int <= 122 && d as int == c as int - 32) ||
      (97 <= d as int <= 122 && c as int == d as int - 32)
  {
    assert Fold([c]) == [ToUpper(c)] && Fold([d]) == [ToUpper(d)];
  }

  /** Names are the same, case aside, letter by letter. */
  lemma {:induction false} SameLetters(a: string, b: string)
    ensures SameName(a, b) <==> |a| == |b| && forall i :: 0 <= i < |a| ==> SameName([a[i]], [b[i]])
  {
    hide ToUpper;
    assert |Fold(a)| == |a| && |Fold(b)| == |b|;
    if |a| == |b| {
      forall i | 0 <= i < |a| ensures Fold(a)[i] == Fold(b)[i] <==> SameName([a[i]], [b[i]]) {
        assert Fold([a[i]]) == [ToUpper(a[i])] && Fold([b[i]]) == [ToUpper(b[i])];
      }
      if forall i :: 0 <= i < |a| ==> SameName([a[i]], [b[i]]) {
        assert Fold(a) == Fold(b);
      }
    }
  }

  /** utils_equals_ignore_case. */
  method EqualsIgnoreCase(a: string, b: string) returns (r: bool)
    ensures r == SameName(a, b)
  {
    var i := 0;
    while i < |a| && i < |b|
      invariant 0 <= i <= |a| && i <= |b|
      invariant forall j :: 0 <= j < i ==> ToUpper(a[j]) == ToUpper(b[j])
    {
      if ToUpper(a[i]) != ToUpper(b[i]) {
        assert Fold(a)[i] != Fold(b)[i] || |a| != |b|;
        return false;
      }
      i := i + 1;
    }
    assert |a| == |b| ==> Fold(a) == Fold(b);
    assert |Fold(a)| == |a| && |Fold(b)| == |b|;
    return i == |a| && i == |b|;
  }

  /** utils_safe_strcpy into an array of `size` bytes: what ends up there, and whether all fit. */
  function Stored(size: nat, src: string): string {
    if |src| < size then src else if size == 0 then "" else src[..size - 1]
  }

  // ---------- Integers ----------

  predicate AllDigits(s: string) {
    forall i :: 0 <= i < |s| ==> IsDigit(s[i])
  }

  function Unsigned(s: string): string {
    if s != "" && (s[0] == '-' || s[0] == '+') then s[1..] else s
  }

  /** An optional sign and at least one digit. */
  predicate IsIntegerText(s: string) {
    Unsigned(s) != "" && AllDigits(Unsigned(s))
  }

  /** utils_is_integer. */
  method IsInteger(s: string) returns (r: bool)
    ensures r == IsIntegerText(s)
  {
    if s == "" {
      return false;
    }
    var i := 0;
    if s[0] == '-' || s[0] == '+' {
      if |s| == 1 {
        return false;
      }
      i := 1;
    }
    ghost var start := i;
    while i < |s|
      invariant start <= i <= |s|
      invariant forall j :: start <= j < i ==> IsDigit(s[j])
    {
      if !IsDigit(s[i]) {
        assert Unsigned(s)[i - start] == s[i];
        return false;
      }
      i := i + 1;
    }
    return true;
  }

  function DigitValue(c: char): int {
    c as int - '0' as int
  }

  function DigitsValue(s: string): int {
    if s == "" then 0 else 10 * DigitsValue(s[..|s| - 1]) + DigitValue(s[|s| - 1])
  }

  /** The mathematical value of an integer literal. */
  function IntValue(s: string): int {
    if s != "" && s[0] == '-' then -DigitsValue(s[1..]) else DigitsValue(Unsigned(s))
  }

  /** utils_try_parse_integer: the value of an integer literal that a 64-bit integer can hold. */
  function TryParse(s: string): Option<int> {
    if IsIntegerText(s) && LLONG_MIN <= IntValue(s) <= LLONG_MAX then Some(IntValue(s)) else None
  }

  /** utils_parse_integer: strtoll saturates. */
  function ParseSaturating(s: string): int {
    if IntValue(s) > LLONG_MAX then LLONG_MAX
    else if IntValue(s) < LLONG_MIN then LLONG_MIN
    else IntValue(s)
  }

  function Sign(x: int): (r: int)
    ensures -1 <= r <= 1 && (r < 0 <==> x < 0) && (r > 0 <==> x > 0)
  {
    if x < 0 then -1 else if x > 0 then 1 else 0
  }

  /** utils_compare_integer_strings. */
  function CompareIntegers(a: string, b: string): Option<int> {
    match (TryParse(a), TryParse(b))
    case (Some(x), Some(y)) => Some(Sign(x - y))
    case _ => None
  }

  /** strcmp, as a sign. */
  function StrCmp(a: string, b: string): int {
    if a == "" then (if b == "" then 0 else -1)
    else if b == "" then 1
    else if a[0] != b[0] then Sign(a[0] as int - b[0] as int)
    else StrCmp(a[1..], b[1..])
  }

  /** utils_compare_values: as numbers when both are 64-bit integers, else as strings. */
  function CompareValues(a: string, b: string): int {
    match CompareIntegers(a, b)
    case Some(c) => c
    case None => StrCmp(a, b)
  }

  // ---------- Decimal printing ----------

  function DigitChar(d: nat): char
    requires d < 10
  {
    ('0' as int + d) as char
  }

  /** The "%lld" of snprintf, for numbers that are not negative. */
  function Decimal(n: nat): string {
    if n < 10 then [DigitChar(n)] else Decimal(n / 10) + [DigitChar(n % 10)]
  }

  lemma {:induction false} DecimalParses(n: nat)
    ensures Decimal(n) != "" && AllDigits(Decimal(n)) && DigitsValue(Decimal(n)) == n
    ensures IsIntegerText(Decimal(n)) && IntValue(Decimal(n)) == n
    ensures n <= LLONG_MAX ==> TryParse(Decimal(n)) == Some(n)
  {
    if n < 10 {
      assert [DigitChar(n)][..0] == "";
    } else {
      DecimalParses(n / 10);
      var s := Decimal(n);
      assert s[..|s| - 1] == Decimal(n / 10) && s[|s| - 1] == DigitChar(n % 10);
    }
  }

  // ---------- strcmp is a total order ----------

  lemma {:induction false} StrCmpAntisymmetric(a: string, b: string)
    ensures StrCmp(a, b) == -StrCmp(b, a)
    ensures StrCmp(a, b) == 0 <==> a == b
  {
    if a != "" && b != "" && a[0] == b[0] {
      StrCmpAntisymmetric(a[1..], b[1..]);
      assert a == [a[0]] + a[1..] && b == [b[0]] + b[1..];
    }
  }

  lemma {:induction false} StrCmpTransitive(a: string, b: string, c: string)
    requires StrCmp(a, b) <= 0 && StrCmp(b, c) <= 0
    ensures StrCmp(a, c) <= 0
  {
    if a != "" && b != "" && c != "" && a[0] == b[0] == c[0] {
      StrCmpTransitive(a[1..], b[1..], c[1..]);
    }
  }
}
