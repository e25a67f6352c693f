/**
What the request reader of Http makes of the bytes of a request, said without its own functions: which
line gives the length, which number a text stands for, and what becomes of the request.
*/
module Requests {
  import opened Wrappers
  import opened Text
  import opened Comparing
  import opened Http

  // ---------- The Content-Length line ----------

  predicate StartsLine(s: string, p: nat) {
    p == 0 || (p >= 2 && p <= |s| && s[p - 2] == '\r' && s[p - 1] == '\n')
  }

  /** A line that starts at p has the name and a colon, case ignored, within the first h bytes. */
  predicate NamedAt(s: string, p: nat, h: nat)
    requires h <= |s|
  {
    p + 15 < h && StartsLine(s, p) && s[p + 14] == ':' && SameName(s[p..p + 14], "content-length")
  }

  /** The first such line. */
  predicate LengthLine(s: string, p: nat, h: nat)
    requires h <= |s|
  {
    NamedAt(s, p, h) && forall q: nat :: q < p ==> !NamedAt(s, q, h)
  }

  lemma LowerUpper(c: char, d: char)
    requires 'a' <= d <= 'z' || d == '-'
    ensures ToLower(c) == d <==> ToUpper(c) == ToUpper(d)
  {
  }

  lemma NameLetters(i: nat)
    requires i < |NAME|
    ensures |NAME| == 14 && ('a' <= NAME[i] <= 'z' || NAME[i] == '-')
  {
  }

  lemma {:induction false} NameFolds(name: string)
    requires |name| == 14
    ensures SameName(name, "content-length") <==> forall i :: 0 <= i < 14 ==> ToLower(name[i]) == NAME[i]
  {
    forall i | 0 <= i < 14 ensures ToLower(name[i]) == NAME[i] <==> Fold(name)[i] == Fold(NAME)[i] {
      NameLetters(i);
      LowerUpper(name[i], NAME[i]);
    }
    assert |Fold(name)| == |Fold(NAME)| == 14;
    hide ToLower, ToUpper;
    if forall i :: 0 <= i < 14 ==> ToLower(name[i]) == NAME[i] {
      assert Fold(name) == Fold(NAME);
    }
  }

  /** There is no line break within the name. */
  lemma {:induction false} NoBreakInName(s: string, start: nat, h: nat)
    requires h <= |s| && start + 15 < h && s[start + 14] == ':' && SameName(s[start..start + 14], "content-length")
    ensures forall i :: start <= i <= start + 14 ==> !BreakAt(s, i)
  {
    var name := s[start..start + 14];
    NameFolds(name);
    hide SameName;
    forall i | start <= i < start + 14 ensures s[i] != '\r' {
      NameLetters(i - start);
      assert ToLower(name[i - start]) == NAME[i - start] && name[i - start] == s[i];
    }
  }

  lemma {:induction false} MatchesLine(s: string, start: nat, h: nat)
    requires start + 1 < h <= |s|
    ensures NameMatches(s[start..LineStop(s, start, h)]) <==>
      start + 15 < h && s[start + 14] == ':' && SameName(s[start..start + 14], "content-length")
  {
    var e := LineStop(s, start, h);
    hide LineStop, SameName;
    if start + 15 < h && s[start + 14] == ':' && SameName(s[start..start + 14], "content-length") {
      NoBreakInName(s, start, h);
      assert e > start + 14;
    }
    if e > start + 14 {
      var line, name := s[start..e], s[start..start + 14];
      NameFolds(name);
      assert line[14] == s[start + 14] && forall i :: 0 <= i < 14 ==> line[i] == name[i];
    }
  }

  /** From one line start to the next there is none between. */
  lemma {:induction false} NextStart(s: string, start: nat, h: nat)
    requires start + 1 < h <= |s| && StartsLine(s, start)
    ensures var e := LineStop(s, start, h);
      (e + 1 < h ==> StartsLine(s, e + 2)) && forall q :: start < q < e + 2 && q < h ==> !StartsLine(s, q)
  {
    var e := LineStop(s, start, h);
    hide LineStop;
    forall q | start < q < e + 2 && q < h ensures !StartsLine(s, q) {
      if q >= start + 2 {
        assert !BreakAt(s, q - 2);
      } else if q >= 2 {
        assert q == start + 1 && s[q - 2] == s[start - 1];
      }
    }
  }

  lemma {:induction false} ValueExactFrom(s: string, start: nat, h: nat)
    requires start <= h + 1 && h <= |s| && (start < h ==> StartsLine(s, start))
    ensures match ValueFrom(s, start, h)
      case Some(v) => v >= start + 15 && NamedAt(s, v - 15, h) && forall q :: start <= q < v - 15 ==> !NamedAt(s, q, h)
      case None => forall q :: start <= q ==> !NamedAt(s, q, h)
    decreases h + 1 - start
  {
    if start + 1 < h {
      MatchesLine(s, start, h);
      NextStart(s, start, h);
      var e := LineStop(s, start, h);
      hide NameMatches, LineStop, SameName, StartsLine;
      if NameMatches(s[start..e]) {
        NameLetters(0);
        assert NamedAt(s, start, h);
      } else {
        ValueExactFrom(s, e + 2, h);
        forall q | start <= q < e + 2 ensures !NamedAt(s, q, h) {
          assert q > start ==> !StartsLine(s, q) || q >= h;
        }
      }
    }
  }

  /** Exactly where the length is read from: behind the colon of the first such line of the header. */
  lemma {:induction false} ValueExact(s: string, h: nat)
    requires h <= |s|
    ensures forall p: nat :: LengthLine(s, p, h) <==> ValueAt(s, h) == Some(p + 15)
    ensures ValueAt(s, h).None? <==> forall p: nat :: !NamedAt(s, p, h)
  {
    ValueExactFrom(s, 0, h);
    hide NamedAt, ValueFrom;
    var value := ValueAt(s, h);
    forall p: nat ensures LengthLine(s, p, h) <==> value == Some(p + 15) {
      if value.Some? {
        var first := value.value - 15;
        assert p < first ==> !NamedAt(s, p, h);
        assert first < p ==> !LengthLine(s, p, h);
      }
    }
    if value.Some? {
      assert NamedAt(s, value.value - 15, h);
    }
  }

  // ---------- The number in a text ----------

  /** Behind white space the text goes on with the number, and then with no digit. */
  ghost predicate ReadsNumber(s: string, v: int) {
    exists gap, number, rest :: NumberIs(s, gap, number, rest, v)
  }

  ghost predicate NumberIs(s: string, gap: string, number: string, rest: string, v: int) {
    s == gap + (number + rest) && AllSpace(gap) && Denotes(number, v) && (rest != "" ==> !IsDigit(rest[0]))
  }

  lemma {:induction false} RunUpTo(s: string, test: char -> bool, n: nat)
    requires n <= |s| && (forall i :: 0 <= i < n ==> test(s[i])) && (n < |s| ==> !test(s[n]))
    ensures RunLength(s, test) == n
  {
    var m := RunLength(s, test);
    assert !(m < n) && !(n < m);
  }

  lemma {:induction false} NumberBehind(number: string, rest: string, v: int)
    requires Denotes(number, v) && (rest != "" ==> !IsDigit(rest[0]))
    ensures number != "" && !IsSpace(number[0])
    ensures NumberAt(number + rest) == if IsLong(v) then Some(v) else None
  {
    IntegerTexts(number, v);
    hide Denotes;
    var s, k, digits := number + rest, SignLength(number), Unsigned(number);
    assert s[0] == number[0] && SignLength(s) == k && digits == number[k..];
    assert s[k..] == digits + rest;
    assert forall i :: 0 <= i < |digits| ==> s[k..][i] == digits[i];
    assert rest != "" ==> s[k..][|digits|] == rest[0];
    RunUpTo(s[k..], IsDigit, |digits|);
    assert s[k..][..|digits|] == digits;
    assert number[0] == '-' ==> digits == number[1..];
    hide RunLength, DigitsValue;
  }

  lemma {:induction false} NumberFound(t: string, v: int) returns (number: string, rest: string)
    requires NumberAt(t) == Some(v)
    ensures t == number + rest && Denotes(number, v) && (rest != "" ==> !IsDigit(rest[0]))
  {
    var k := SignLength(t);
    var n := RunLength(t[k..], IsDigit);
    var digits := t[k..][..n];
    number, rest := t[..k] + digits, t[k + n..];
    assert rest != "" ==> rest[0] == t[k..][n];
    assert t == number + rest;
    SignedDigits(t[..k], digits);
    assert k == 1 ==> t[..k][0] == t[0];
    hide RunLength, DigitsValue, Denotes;
    IntegerTexts(number, v);
  }

  lemma SignedDigits(sign: string, digits: string)
    requires (sign == "" || sign == "-" || sign == "+") && digits != "" && AllDigits(digits)
    ensures IsIntegerText(sign + digits)
    ensures IntValue(sign + digits) == if sign == "-" then -DigitsValue(digits) else DigitsValue(digits)
  {
    var s := sign + digits;
    if sign == "" {
      assert s == digits && IsDigit(s[0]);
    } else {
      assert s[0] == sign[0] && s[1..] == digits;
    }
  }

  /** strtol reads a number exactly if a 64-bit one is written there, and then that one. */
  lemma {:induction false} StrtolExact(s: string, v: int)
    ensures Strtol(s) == Some(v) <==> ReadsNumber(s, v) && IsLong(v)
  {
    hide Strtol, NumberIs;
    if ReadsNumber(s, v) {
      var gap, number, rest :| NumberIs(s, gap, number, rest, v);
      StrtolReads(s, gap, number, rest, v);
    }
    if Strtol(s) == Some(v) {
      StrtolFinds(s, v);
    }
  }

  lemma {:induction false} StrtolReads(s: string, gap: string, number: string, rest: string, v: int)
    requires NumberIs(s, gap, number, rest, v)
    ensures Strtol(s) == if IsLong(v) then Some(v) else None
    ensures |gap| < |s| && !IsSpace(s[|gap|])
  {
    NumberBehind(number, rest, v);
    hide Denotes, NumberAt;
    assert s[|gap|] == number[0];
    assert forall i :: 0 <= i < |gap| ==> s[i] == gap[i];
    RunUpTo(s, IsSpace, |gap|);
    assert s[|gap|..] == number + rest;
  }

  lemma {:induction false} StrtolFinds(s: string, v: int)
    requires Strtol(s) == Some(v)
    ensures ReadsNumber(s, v) && IsLong(v)
  {
    var a := RunLength(s, IsSpace);
    assert AllSpace(s[..a]);
    hide Denotes, NumberAt, RunLength;
    NumberLong(s[a..], v);
    var number, rest := NumberFound(s[a..], v);
    assert s == s[..a] + (number + rest);
    assert NumberIs(s, s[..a], number, rest, v);
  }

  lemma NumberLong(t: string, v: int)
    requires NumberAt(t) == Some(v)
    ensures IsLong(v)
  {
    hide RunLength, DigitsValue;
  }

  // ---------- What becomes of a request ----------

  /** The verdict on a request whose body is to have n bytes, from h on. */
  function VerdictFor(stream: string, room: nat, h: nat, n: int): Verdict
    requires h <= room
  {
    if n < 0 || !IsLong(n) then BadRequest
    else if h + n > room then TooLarge
    else if h + n <= |stream| then Complete(h, n)
    else BadRequest
  }

  /** The length is written in the header: its number, behind white space, and then something else. */
  ghost predicate WritesLength(stream: string, h: nat, p: nat, n: int)
    requires h <= |stream|
  {
    LengthLine(stream, p, h) && ReadsNumber(stream[p + 15..h], n)
  }

  lemma {:induction false} SettledVerdict(stream: string, cuts: seq<nat>, room: nat, h: nat)
    requires EndInRoom(stream, room) == Some(h) && Settled(stream, h)
    ensures Judged(stream, cuts, room) == VerdictAt(stream, room, h, h) && EndsHeader(stream, h)
  {
    HeaderEnds(stream, h);
    VerdictSettled(stream, room, h, FirstSeen(stream, cuts, 0, 0, room, h));
    hide VerdictAt, Settled, FirstSeen, HeaderEnd, EndsHeader;
  }

  lemma HeaderEnds(stream: string, h: nat)
    requires HeaderEnd(stream) == Some(h)
    ensures h <= |stream| && EndsHeader(stream, h)
  {
    hide EndsHeader;
  }

  /** An empty line ends at h. */
  predicate EmptyLineEnds(s: string, h: nat) {
    4 <= h <= |s| && s[h - 4..h] == "\r\n\r\n"
  }

  /** The header ends with the first empty line. */
  lemma {:induction false} HeaderEndExact(s: string, h: nat)
    ensures HeaderEnd(s) == Some(h) <==> EmptyLineEnds(s, h) && forall k: nat :: k < h ==> !EmptyLineEnds(s, k)
  {
    forall k: nat ensures EmptyLineEnds(s, k) <==> k <= |s| && EndsHeader(s, k) {
      EmptyLineIs(s, k);
    }
    hide EmptyLineEnds, EndsHeader;
  }

  lemma EmptyLineIs(s: string, k: nat)
    ensures EmptyLineEnds(s, k) <==> k <= |s| && EndsHeader(s, k)
  {
    if 4 <= k <= |s| {
      var end := s[k - 4..k];
      assert end[0] == s[k - 4] && end[1] == s[k - 3] && end[2] == s[k - 2] && end[3] == s[k - 1];
    }
  }

  /** A request whose header does not end within the room is too large, or cut short. */
  lemma {:induction false} NoEnd(stream: string, cuts: seq<nat>, room: nat)
    requires forall h: nat :: h <= room ==> !EmptyLineEnds(stream, h)
    ensures Judged(stream, cuts, room) == if |stream| >= room then TooLarge else BadRequest
  {
    if HeaderEnd(stream).Some? {
      HeaderEndExact(stream, HeaderEnd(stream).value);
    }
    hide HeaderEnd, EmptyLineEnds, VerdictAt;
  }

  /** A request without such a line in its header has no body. */
  lemma {:induction false} NoLength(stream: string, cuts: seq<nat>, room: nat, h: nat)
    requires HeaderEnd(stream) == Some(h) && h <= room
    ensures h <= |stream|
    ensures (forall p: nat :: !NamedAt(stream, p, h)) ==> Judged(stream, cuts, room) == Complete(h, 0)
  {
    HeaderEnds(stream, h);
    ValueExact(stream, h);
    hide NamedAt, ValueFrom, EndsHeader, HeaderEnd;
    if forall p: nat :: !NamedAt(stream, p, h) {
      SettledVerdict(stream, cuts, room, h);
      SameValue(stream, h);
      hide Judged;
    }
  }

  lemma SameValue(stream: string, h: nat)
    requires h <= |stream|
    ensures ValueAt(stream[..h], h) == ValueAt(stream, h)
  {
    assert stream[..h][..h] == stream[..h];
    ValueLocal(stream[..h], stream, 0, h);
    hide ValueFrom;
  }

  lemma {:induction false} LengthSettles(stream: string, h: nat, p: nat, n: int)
    requires h <= |stream| && WritesLength(stream, h, p, n)
    ensures ValueAt(stream, h) == Some(p + 15) && Settled(stream, h)
    ensures Strtol(stream[..h][p + 15..]) == if IsLong(n) then Some(n) else None
  {
    hide *;
    var value, gap, number, rest := WrittenNumber(stream, h, p, n);
    ValueExact(stream, h);
    LineWithin(stream, h, p);
    StrtolReads(value, gap, number, rest, n);
    HeaderPart(stream, p + 15, h, value);
    SettledBy(stream, h, p + 15, p + 15 + |gap|);
  }

  lemma WrittenNumber(stream: string, h: nat, p: nat, n: int)
    returns (value: string, gap: string, number: string, rest: string)
    requires h <= |stream| && WritesLength(stream, h, p, n)
    ensures LengthLine(stream, p, h) && p + 15 <= h && value == stream[p + 15..h]
    ensures NumberIs(value, gap, number, rest, n)
  {
    LineWithin(stream, h, p);
    hide LengthLine, NumberIs;
    value := stream[p + 15..h];
    gap, number, rest :| NumberIs(value, gap, number, rest, n);
  }

  lemma LineWithin(stream: string, h: nat, p: nat)
    requires h <= |stream| && LengthLine(stream, p, h)
    ensures p + 15 < h
  {
  }

  lemma HeaderPart(stream: string, v: nat, h: nat, value: string)
    requires v <= h <= |stream| && value == stream[v..h]
    ensures stream[..h][v..] == value && |value| == h - v
    ensures forall i :: 0 <= i < |value| ==> value[i] == stream[v + i]
  {
  }

  lemma SettledBy(stream: string, h: nat, v: nat, i: nat)
    requires h <= |stream| && ValueAt(stream, h) == Some(v) && v <= i < h && !IsSpace(stream[i])
    ensures Settled(stream, h)
  {
    hide ValueAt, IsSpace;
  }

  lemma VerdictByStrtol(stream: string, room: nat, h: nat, v: nat)
    requires h <= |stream| && h <= room && ValueAt(stream, h) == Some(v)
    ensures VerdictAt(stream, room, h, h) == VerdictOn(Strtol(stream[..h][v..]), |stream| - h, room - h, h)
  {
    SameValue(stream, h);
    hide ValueAt, Strtol;
  }

  /** A request with its length written in the header is complete, too large or bad by that number alone,
      however it arrives: the first Content-Length line counts, wherever it stands. */
  lemma {:induction false} LengthCounts(stream: string, cuts: seq<nat>, room: nat, h: nat, p: nat, n: int)
    requires HeaderEnd(stream) == Some(h) && h <= room
    ensures h <= |stream|
    ensures WritesLength(stream, h, p, n) ==> Judged(stream, cuts, room) == VerdictFor(stream, room, h, n)
  {
    hide *;
    EndFound(stream, room, h);
    if WritesLength(stream, h, p, n) {
      LengthSettles(stream, h, p, n);
      SettledVerdict(stream, cuts, room, h);
      VerdictByStrtol(stream, room, h, p + 15);
      VerdictsAgree(stream, room, h, n);
    }
  }

  lemma EndFound(stream: string, room: nat, h: nat)
    requires HeaderEnd(stream) == Some(h) && h <= room
    ensures h <= |stream| && EndInRoom(stream, room) == Some(h)
  {
    HeaderEnds(stream, h);
    hide EndsHeader, HeaderEnd;
  }

  lemma VerdictsAgree(stream: string, room: nat, h: nat, n: int)
    requires h <= |stream| && h <= room
    ensures VerdictOn(if IsLong(n) then Some(n) else None, |stream| - h, room - h, h) == VerdictFor(stream, room, h, n)
    ensures VerdictOn(None, |stream| - h, room - h, h) == BadRequest
  {
  }

  /** There is something behind the colon in the header, and it is no number. */
  ghost predicate WritesOther(stream: string, h: nat, p: nat)
    requires h <= |stream|
  {
    LengthLine(stream, p, h) && (exists i :: p + 15 <= i < h && !IsSpace(stream[i])) &&
    !HasNumber(stream[p + 15..h])
  }

  ghost predicate HasNumber(s: string) {
    exists n :: ReadsNumber(s, n)
  }

  lemma {:induction false} OtherSettles(stream: string, h: nat, p: nat)
    requires h <= |stream| && WritesOther(stream, h, p)
    ensures ValueAt(stream, h) == Some(p + 15) && Settled(stream, h) && Strtol(stream[..h][p + 15..]) == None
  {
    ValueExact(stream, h);
    hide LengthLine, NamedAt, ValueFrom, Strtol, ReadsNumber;
    var value := stream[p + 15..h];
    assert stream[..h][p + 15..] == value;
    if Strtol(value).Some? {
      StrtolExact(value, Strtol(value).value);
    }
  }

  /** Then the request is bad. */
  lemma {:induction false} OtherIsBad(stream: string, cuts: seq<nat>, room: nat, h: nat, p: nat)
    requires HeaderEnd(stream) == Some(h) && h <= room
    ensures h <= |stream|
    ensures WritesOther(stream, h, p) ==> Judged(stream, cuts, room) == BadRequest
  {
    hide *;
    EndFound(stream, room, h);
    if WritesOther(stream, h, p) {
      OtherSettles(stream, h, p);
      SettledVerdict(stream, cuts, room, h);
      VerdictByStrtol(stream, room, h, p + 15);
      VerdictsAgree(stream, room, h, 0);
    }
  }
}
