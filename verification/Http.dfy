/**
The incremental HTTP reader of src/server.c over a stream that recv delivers in pieces of any size
(the body length as in section 6.3 of RFC 9112), and when its verdict does not depend on the pieces.
*/
module Http {
  import opened Wrappers
  import opened Text

  // ---------- The end of the header ----------

  predicate BreakAt(s: string, i: nat) {
    i + 1 < |s| && s[i] == '\r' && s[i + 1] == '\n'
  }

  /** Two line breaks in a row end at h. */
  predicate EndsHeader(s: string, h: nat) {
    h >= 4 && BreakAt(s, h - 4) && BreakAt(s, h - 2)
  }

  /** Where the header ends, looking from k on: after the first empty line. */
  function HeaderEndFrom(s: string, k: nat): (r: Option<nat>)
    ensures r.Some? ==>
      k <= r.value <= |s| && EndsHeader(s, r.value) && forall j :: k <= j < r.value ==> !EndsHeader(s, j)
    ensures r.None? ==> forall j :: k <= j ==> !EndsHeader(s, j)
    decreases |s| - k
  {
    if k > |s| then None
    else if EndsHeader(s, k) then Some(k)
    else HeaderEndFrom(s, k + 1)
  }

  function HeaderEnd(s: string): Option<nat> {
    HeaderEndFrom(s, 0)
  }

  /** server_find_header_end. */
  method FindHeaderEnd(buffer: string) returns (r: Option<nat>)
    ensures r == HeaderEnd(buffer)
  {
    if |buffer| < 4 {
      return None;
    }
    var i := 3;
    while i < |buffer|
      invariant 3 <= i <= |buffer| && forall k :: 0 <= k <= i ==> !EndsHeader(buffer, k)
    {
      assert EndsHeader(buffer, i + 1) <==>
        buffer[i - 3] == '\r' && buffer[i - 2] == '\n' && buffer[i - 1] == '\r' && buffer[i] == '\n';
      if buffer[i - 3] == '\r' && buffer[i - 2] == '\n' && buffer[i - 1] == '\r' && buffer[i] == '\n' {
        return Some(i + 1);
      }
      i := i + 1;
    }
    return None;
  }

  /** The header ends at the same place in every part of a stream that holds its end. */
  lemma {:induction false} HeaderEndStable(stream: string, l: nat)
    requires l <= |stream|
    ensures HeaderEnd(stream[..l]) ==
      match HeaderEnd(stream)
      case None => None
      case Some(h) => if h <= l then Some(h) else None
  {
    var s := stream[..l];
    forall k: nat ensures EndsHeader(s, k) <==> k <= l && EndsHeader(stream, k) {
    }
    hide EndsHeader;
  }

  // ---------- Content-Length ----------

  function ToLower(c: char): char {
    if 'A' <= c <= 'Z' then (c as int + 32) as char else c
  }

  function SignLength(s: string): (k: nat)
    ensures k <= |s|
  {
    if s != "" && (s[0] == '-' || s[0] == '+') then 1 else 0
  }

  predicate Negative(s: string) {
    s != "" && s[0] == '-'
  }

  /** The number that digits stand for: nothing if there are none or it does not fit a 64-bit long. */
  function NumberOf(negative: bool, digits: string): Option<int> {
    var value := if negative then -DigitsValue(digits) else DigitsValue(digits);
    if digits == "" || value < LLONG_MIN || value > LLONG_MAX then None else Some(value)
  }

  /** strtol on a number without leading white space. */
  function NumberAt(s: string): Option<int> {
    var rest := s[SignLength(s)..];
    NumberOf(Negative(s), rest[..RunLength(rest, IsDigit)])
  }

  /** strtol. */
  function Strtol(s: string): Option<int> {
    NumberAt(s[RunLength(s, IsSpace)..])
  }

  const NAME: string := "content-length"

  /** server_header_name_matches, for that name. */
  predicate NameMatches(line: string) {
    |line| > |NAME| && line[|NAME|] == ':' && forall i :: 0 <= i < |NAME| ==> ToLower(line[i]) == NAME[i]
  }

  method HeaderNameMatches(line: string) returns (r: bool)
    ensures r == NameMatches(line)
  {
    if |line| <= |NAME| || line[|NAME|] != ':' {
      return false;
    }
    var i := 0;
    while i < |NAME|
      invariant i <= |NAME| && forall j :: 0 <= j < i ==> ToLower(line[j]) == NAME[j]
    {
      if ToLower(line[i]) != NAME[i] {
        return false;
      }
      i := i + 1;
    }
    return true;
  }

  /** Where the line that starts at a position ends, within the header's h bytes. */
  function LineStop(s: string, start: nat, h: nat): (e: nat)
    requires start < h <= |s|
    ensures start <= e < h && (e + 1 < h ==> BreakAt(s, e))
    ensures forall i :: start <= i < e ==> !BreakAt(s, i)
    decreases h - start
  {
    if start + 1 >= h || BreakAt(s, start) then start else LineStop(s, start + 1, h)
  }

  /** Where the value of the first Content-Length line starts, from a line start on. */
  function ValueFrom(s: string, start: nat, h: nat): (v: Option<nat>)
    requires start <= h + 1 && h <= |s|
    ensures v.Some? ==> start < v.value < h
    decreases h + 1 - start
  {
    if start + 1 >= h then None
    else
      var e := LineStop(s, start, h);
      if NameMatches(s[start..e]) then Some(start + |NAME| + 1) else ValueFrom(s, e + 2, h)
  }

  function ValueAt(s: string, h: nat): (v: Option<nat>)
    requires h <= |s|
    ensures v.Some? ==> v.value < h
  {
    ValueFrom(s, 0, h)
  }

  /** server_parse_content_length on a buffer whose header ends at h: 0 without such a line, nothing if
      its value is no number, is negative or does not fit. strtol reads on past blanks, and so past
      the line and even past the header. */
  function ContentLength(s: string, h: nat): Option<nat>
    requires h <= |s|
  {
    match ValueAt(s, h)
    case None => Some(0)
    case Some(v) =>
      match Strtol(s[v..])
      case None => None
      case Some(n) => if n < 0 then None else Some(n)
  }

  lemma {:induction false} SpacesTwice(s: string, v: nat, k: nat)
    requires v + k <= |s| && forall i :: v <= i < v + k ==> IsSpace(s[i])
    ensures Strtol(s[v + k..]) == Strtol(s[v..])
  {
    var t := s[v..];
    SpacesAfter(t, k);
    hide NumberAt, RunLength;
    var n := RunLength(t[k..], IsSpace);
    assert t[k..] == s[v + k..];
    assert t[k..][n..] == t[k + n..];
    assert RunLength(t, IsSpace) == k + n;
  }

  lemma {:induction false} SpacesAfter(t: string, k: nat)
    requires k <= |t| && forall i :: 0 <= i < k ==> IsSpace(t[i])
    ensures RunLength(t, IsSpace) == k + RunLength(t[k..], IsSpace)
  {
    if k > 0 {
      SpacesAfter(t[1..], k - 1);
      assert t[1..][k - 1..] == t[k..];
    } else {
      assert t[0..] == t;
    }
  }

  /** server_parse_content_length. */
  method ParseContentLength(buffer: string, h: nat) returns (r: Option<nat>)
    requires h <= |buffer|
    ensures r == ContentLength(buffer, h)
  {
    var start := 0;
    while start + 1 < h
      invariant start <= h + 1 && ValueFrom(buffer, start, h) == ValueAt(buffer, h)
      decreases h + 1 - start
    {
      var e := FindLineStop(buffer, start, h);
      var matches := HeaderNameMatches(buffer[start..e]);
      if matches {
        r := ParseValue(buffer, start + |NAME| + 1, e);
        return;
      }
      start := e + 2;
    }
    return Some(0);
  }

  method FindLineStop(buffer: string, start: nat, h: nat) returns (e: nat)
    requires start < h <= |buffer|
    ensures e == LineStop(buffer, start, h)
  {
    e := start;
    while e + 1 < h && !(buffer[e] == '\r' && buffer[e + 1] == '\n')
      invariant start <= e < h && LineStop(buffer, e, h) == LineStop(buffer, start, h)
    {
      e := e + 1;
    }
  }

  method ParseValue(buffer: string, v: nat, e: nat) returns (r: Option<nat>)
    requires v <= e <= |buffer|
    ensures r == match Strtol(buffer[v..])
      case None => None
      case Some(n) => if n < 0 then None else Some(n)
  {
    var value := v;
    while value < e && IsSpace(buffer[value])
      invariant v <= value <= e && forall i :: v <= i < value ==> IsSpace(buffer[i])
    {
      value := value + 1;
    }
    SpacesTwice(buffer, v, value - v);
    assert buffer[v + (value - v)..] == buffer[value..];
    hide Strtol;
    var parsed := Strtol(buffer[value..]);
    if parsed.None? || parsed.value < 0 {
      return None;
    }
    return Some(parsed.value);
  }

  // ---------- Reading a request ----------

  datatype Verdict = Complete(bodyOffset: nat, bodyLength: nat) | BadRequest | TooLarge

  /** How many bytes the i-th recv delivers: some, as many as it likes, but no more than there is room
      for and no more than the stream still has. */
  function Received(stream: string, cuts: seq<nat>, i: nat, length: nat, room: nat): (n: nat)
    requires length < |stream| && length < room
    ensures 0 < n <= |stream| - length && n <= room - length
  {
    var wish := if i < |cuts| && cuts[i] > 0 then cuts[i] else 1;
    var most := if |stream| < room then |stream| - length else room - length;
    if wish < most then wish else most
  }

  /** How many bytes are there when the first h of them first are. */
  function FirstSeen(stream: string, cuts: seq<nat>, i: nat, length: nat, room: nat, h: nat): (l: nat)
    requires length < h <= |stream| && h <= room
    ensures h <= l <= |stream| && l <= room
    decreases h - length
  {
    var length' := length + Received(stream, cuts, i, length, room);
    if length' >= h then length' else FirstSeen(stream, cuts, i + 1, length', room, h)
  }

  /** The verdict when the header, which ends at h, is found in the first l bytes. */
  function VerdictAt(stream: string, room: nat, h: nat, l: nat): Verdict
    requires h <= l <= |stream| && h <= room
  {
    match ContentLength(stream[..l], h)
    case None => BadRequest
    case Some(n) => if n > room - h then TooLarge else if |stream| >= h + n then Complete(h, n) else BadRequest
  }

  /** The end of the header, if it comes within the room the buffer has. */
  function EndInRoom(stream: string, room: nat): (h: Option<nat>)
    ensures h.Some? ==> 0 < h.value <= |stream| && h.value <= room
  {
    match HeaderEnd(stream)
    case None => None
    case Some(h) => if h <= room then Some(h) else None
  }

  /** server_read_http_request with a buffer of room + 1 bytes. */
  function Judged(stream: string, cuts: seq<nat>, room: nat): Verdict {
    match EndInRoom(stream, room)
    case None => if |stream| >= room then TooLarge else BadRequest
    case Some(h) => VerdictAt(stream, room, h, FirstSeen(stream, cuts, 0, 0, room, h))
  }

  /** Where the reading is: h is known, or not in the bytes so far; what FirstSeen will come to. */
  ghost predicate OnTrack(stream: string, cuts: seq<nat>, i: nat, length: nat, room: nat) {
    match EndInRoom(stream, room)
    case None => true
    case Some(h) =>
      length < h && FirstSeen(stream, cuts, i, length, room, h) == FirstSeen(stream, cuts, 0, 0, room, h)
  }

  /** The buffer holds the first bytes of the stream, as many as there is room for at most. */
  predicate Came(buffer: string, stream: string, room: nat) {
    |buffer| <= room && |buffer| <= |stream| && buffer == stream[..|buffer|]
  }

  lemma {:induction false} Advance(stream: string, cuts: seq<nat>, i: nat, length: nat, room: nat, buffer: string)
    requires length < |stream| && length < room && OnTrack(stream, cuts, i, length, room)
    requires Came(buffer, stream, room) && |buffer| == length + Received(stream, cuts, i, length, room)
    ensures match HeaderEnd(buffer)
      case None => OnTrack(stream, cuts, i + 1, |buffer|, room)
      case Some(h) =>
        h <= |buffer| && h <= room && Judged(stream, cuts, room) == VerdictAt(stream, room, h, |buffer|)
  {
    HeaderEndStable(stream, |buffer|);
    hide VerdictAt, HeaderEnd;
  }

  lemma OffTrack(stream: string, cuts: seq<nat>, i: nat, length: nat, room: nat)
    requires length <= |stream| && length <= room && OnTrack(stream, cuts, i, length, room)
    requires length == |stream| || length == room
    ensures Judged(stream, cuts, room) == if |stream| >= room then TooLarge else BadRequest
  {
    hide VerdictAt, HeaderEnd;
  }

  /** What is known once the header and the length of the body are. */
  ghost predicate Awaits(stream: string, cuts: seq<nat>, room: nat, length: nat, h: nat, n: nat) {
    length < h + n <= room && Judged(stream, cuts, room) == if |stream| >= h + n then Complete(h, n) else BadRequest
  }

  /** The whole body is among the first bytes if a request is complete. */
  predicate BodyCame(v: Verdict, length: nat) {
    v.Complete? ==> v.bodyOffset + v.bodyLength <= length
  }

  /** The part of server_read_http_request right after a header is found. */
  method Settle(buffer: string, ghost stream: string, ghost cuts: seq<nat>, h: nat, room: nat)
    returns (v: Option<Verdict>, contentLength: nat)
    requires Came(buffer, stream, room) && h <= |buffer|
    requires Judged(stream, cuts, room) == VerdictAt(stream, room, h, |buffer|)
    ensures v.Some? ==> v.value == Judged(stream, cuts, room) && BodyCame(v.value, |buffer|)
    ensures v.None? ==> Awaits(stream, cuts, room, |buffer|, h, contentLength)
  {
    hide Judged, ContentLength;
    contentLength := 0;
    var parsed := ParseContentLength(buffer, h);
    if parsed.None? {
      return Some(BadRequest), 0;
    }
    contentLength := parsed.value;
    if contentLength > room - h {
      return Some(TooLarge), contentLength;
    }
    if |buffer| >= h + contentLength {
      return Some(Complete(h, contentLength)), contentLength;
    }
    return None, contentLength;
  }

  /** The part of server_read_http_request where the header is known and the body is awaited. */
  method AwaitBody(
      ghost stream: string, ghost cuts: seq<nat>, room: nat, ghost before: nat, length: nat, h: nat, n: nat)
    returns (v: Option<Verdict>)
    requires before < length <= |stream| && length <= room && Awaits(stream, cuts, room, before, h, n)
    ensures v.Some? ==> v.value == Judged(stream, cuts, room) && BodyCame(v.value, length)
    ensures v.None? ==> Awaits(stream, cuts, room, length, h, n)
  {
    hide Judged;
    if length >= h + n {
      return Some(Complete(h, n));
    }
    return None;
  }

  lemma BadEnd(stream: string, cuts: seq<nat>, room: nat, h: nat, n: nat)
    requires Awaits(stream, cuts, room, |stream|, h, n)
    ensures Judged(stream, cuts, room) == BadRequest
  {
    hide Judged;
  }

  lemma NeverFull(stream: string, cuts: seq<nat>, room: nat, h: nat, n: nat)
    ensures !Awaits(stream, cuts, room, room, h, n)
  {
    hide Judged;
  }

  /** The i-th recv, into the room that is left. */
  method Receive(buffer: string, stream: string, cuts: seq<nat>, i: nat, room: nat) returns (more: string)
    requires |buffer| < |stream| && |buffer| < room && Came(buffer, stream, room)
    ensures Came(more, stream, room) && |more| == |buffer| + Received(stream, cuts, i, |buffer|, room) > |buffer|
  {
    var n := Received(stream, cuts, i, |buffer|, room);
    hide Received;
    more := buffer + stream[|buffer|..|buffer| + n];
    assert more == stream[..|more|];
  }

  /** server_read_http_request. */
  method ReadRequest(stream: string, cuts: seq<nat>, size: nat) returns (v: Verdict, length: nat)
    ensures v == if size == 0 then BadRequest else Judged(stream, cuts, size - 1)
    ensures length <= |stream| && length <= if size == 0 then 0 else size - 1
    ensures BodyCame(v, length)
  {
    hide *;
    NoBodyCame();
    length := 0;
    if size == 0 {
      return BadRequest, length;
    }
    var room: nat := size - 1;
    var i := 0;
    var buffer := "";
    var header: Option<nat> := None;
    var contentLength: nat := 0;
    AtStart(stream, cuts, room);
    while length < room
      invariant |buffer| == length <= |stream| && length <= room && Came(buffer, stream, room)
      invariant header.None? ==> OnTrack(stream, cuts, i, length, room)
      invariant header.Some? ==> Awaits(stream, cuts, room, length, header.value, contentLength)
      decreases room - length
    {
      if length == |stream| {
        if header.None? {
          OffTrack(stream, cuts, i, length, room);
        } else {
          BadEnd(stream, cuts, room, header.value, contentLength);
        }
        return BadRequest, length;
      }
      ghost var before := length;
      buffer := Receive(buffer, stream, cuts, i, room);
      length := |buffer|;
      assert length <= |stream| && length <= room by {
        CameFits(buffer, stream, room);
      }
      var verdict: Option<Verdict> := None;
      if header.None? {
        Advance(stream, cuts, i, before, room, buffer);
        header := FindHeaderEnd(buffer);
        if header.Some? {
          verdict, contentLength := Settle(buffer, stream, cuts, header.value, room);
        }
      } else {
        verdict := AwaitBody(stream, cuts, room, before, length, header.value, contentLength);
      }
      if verdict.Some? {
        return verdict.value, length;
      }
      i := i + 1;
    }
    if header.None? {
      OffTrack(stream, cuts, i, length, room);
    } else {
      NeverFull(stream, cuts, room, header.value, contentLength);
    }
    return TooLarge, length;
  }

  lemma AtStart(stream: string, cuts: seq<nat>, room: nat)
    ensures Came("", stream, room) && OnTrack(stream, cuts, 0, 0, room)
  {
    hide FirstSeen;
  }

  lemma NoBodyCame()
    ensures forall length :: BodyCame(BadRequest, length) && BodyCame(TooLarge, length)
  {
  }

  lemma CameFits(buffer: string, stream: string, room: nat)
    requires Came(buffer, stream, room)
    ensures |buffer| <= |stream| && |buffer| <= room
  {
  }

  // ---------- Fragmentation ----------

  /** The Content-Length value, if there is one, has something other than white space after it in the
      header: so it does if it is not blank, or not in the last line. */
  predicate Settled(stream: string, h: nat)
    requires h <= |stream|
  {
    match ValueAt(stream, h)
    case None => true
    case Some(v) => exists i :: v <= i < h && !IsSpace(stream[i])
  }

  lemma {:induction false} LineStopLocal(s: string, t: string, start: nat, h: nat)
    requires start < h <= |s| && h <= |t| && s[..h] == t[..h]
    ensures LineStop(s, start, h) == LineStop(t, start, h)
    decreases h - start
  {
    assert forall i :: 0 <= i < h ==> s[..h][i] == s[i] && t[..h][i] == t[i];
    if start + 1 < h && !BreakAt(s, start) {
      LineStopLocal(s, t, start + 1, h);
    }
  }

  /** Which line it is depends on the header alone. */
  lemma {:induction false} ValueLocal(s: string, t: string, start: nat, h: nat)
    requires start <= h + 1 && h <= |s| && h <= |t| && s[..h] == t[..h]
    ensures ValueFrom(s, start, h) == ValueFrom(t, start, h)
    decreases h + 1 - start
  {
    if start + 1 < h {
      LineStopLocal(s, t, start, h);
      var e := LineStop(s, start, h);
      hide NameMatches, LineStop;
      SameSlice(s, t, start, e, h);
      ValueLocal(s, t, e + 2, h);
    }
  }

  lemma SameSlice(s: string, t: string, a: nat, b: nat, h: nat)
    requires a <= b <= h <= |s| && h <= |t| && s[..h] == t[..h]
    ensures s[a..b] == t[a..b]
  {
    assert s[a..b] == s[..h][a..b] && t[a..b] == t[..h][a..b];
  }

  lemma {:induction false} DigitsLocal(a: string, b: string, more: string)
    requires b != "" && !IsDigit(b[0])
    ensures RunLength(a + b + more, IsDigit) == RunLength(a + b, IsDigit) <= |a|
    ensures (a + b + more)[..RunLength(a + b, IsDigit)] == (a + b)[..RunLength(a + b, IsDigit)]
  {
    var s, t := a + b + more, a + b;
    if a == "" {
      assert s[0] == b[0] && t[0] == b[0];
    } else if IsDigit(a[0]) {
      assert s[0] == a[0] && t[0] == a[0];
      assert s[1..] == a[1..] + b + more && t[1..] == a[1..] + b;
      DigitsLocal(a[1..], b, more);
    } else {
      assert s[0] == a[0] && t[0] == a[0];
    }
  }

  /** A number that starts in the header ends in it, before the line break at its end. */
  lemma {:induction false} NumberLocal(a: string, b: string, more: string)
    requires a != "" && b != "" && !IsDigit(b[0])
    ensures NumberAt(a + b + more) == NumberAt(a + b)
  {
    var s, t, k := a + b + more, a + b, SignLength(a);
    assert s[0] == a[0] && t[0] == a[0];
    assert s[k..] == a[k..] + b + more && t[k..] == a[k..] + b;
    DigitsLocal(a[k..], b, more);
    hide RunLength, NumberOf;
  }

  lemma {:induction false} StrtolLocal(a: string, more: string)
    requires |a| >= 2 && a[|a| - 1] == '\n' && exists i :: 0 <= i < |a| && !IsSpace(a[i])
    ensures Strtol(a + more) == Strtol(a)
  {
    var s, n := a + more, RunLength(a, IsSpace);
    SpacesOf(a, more);
    assert s[n..] == a[n..] + more;
    var text := a[n..];
    assert a[|a| - 1] == text[|text| - 1] && text[0] == a[n];
    var front, back := text[..|text| - 1], text[|text| - 1..];
    assert text == front + back && text + more == front + back + more;
    NumberLocal(front, back, more);
    hide NumberAt, RunLength;
  }

  lemma {:induction false} SpacesOf(a: string, more: string)
    requires exists i :: 0 <= i < |a| && !IsSpace(a[i])
    ensures RunLength(a + more, IsSpace) == RunLength(a, IsSpace) < |a|
  {
    var s := a + more;
    assert s[0] == a[0];
    if IsSpace(a[0]) {
      var i :| 0 <= i < |a| && !IsSpace(a[i]);
      assert a[1..][i - 1] == a[i];
      assert s[1..] == a[1..] + more;
      SpacesOf(a[1..], more);
    }
  }

  lemma {:induction false} VerdictSettled(stream: string, room: nat, h: nat, l: nat)
    requires h <= l <= |stream| && h <= room && EndsHeader(stream, h) && Settled(stream, h)
    ensures VerdictAt(stream, room, h, l) == VerdictAt(stream, room, h, h)
  {
    LengthSettled(stream, h, l);
    hide ContentLength;
  }

  lemma {:induction false} LengthSettled(stream: string, h: nat, l: nat)
    requires h <= l <= |stream| && EndsHeader(stream, h) && Settled(stream, h)
    ensures ContentLength(stream[..l], h) == ContentLength(stream[..h], h)
  {
    var v := ValueAt(stream, h);
    if v.Some? {
      ReadsSettled(stream, v.value, h, l);
    }
    hide ValueFrom, Settled, Strtol;
    var s, t := stream[..l], stream[..h];
    assert s[..h] == stream[..h] && t[..h] == stream[..h];
    ValueLocal(s, stream, 0, h);
    ValueLocal(t, stream, 0, h);
  }

  lemma {:induction false} ReadsSettled(stream: string, v: nat, h: nat, l: nat)
    requires v < h <= l <= |stream| && EndsHeader(stream, h) && exists i :: v <= i < h && !IsSpace(stream[i])
    ensures Strtol(stream[..l][v..]) == Strtol(stream[..h][v..])
  {
    var i :| v <= i < h && !IsSpace(stream[i]);
    assert stream[h - 1] == '\n';
    hide Strtol;
    Parts(stream, v, i, h, l);
    StrtolLocal(stream[v..h], stream[h..l]);
  }

  lemma Parts(stream: string, v: nat, i: nat, h: nat, l: nat)
    requires v <= i < h <= l <= |stream|
    ensures stream[..l][v..] == stream[v..h] + stream[h..l] && stream[..h][v..] == stream[v..h]
    ensures stream[v..h][i - v] == stream[i] && stream[v..h][h - v - 1] == stream[h - 1]
  {
  }

  /** The verdict, offset and length of the body included, is the same however the stream arrives, if
      the header ends beyond the buffer's room or its Content-Length value is settled in the header. */
  lemma {:induction false} FragmentsAgree(stream: string, one: seq<nat>, other: seq<nat>, room: nat)
    requires EndInRoom(stream, room).Some? ==> Settled(stream, EndInRoom(stream, room).value)
    ensures Judged(stream, one, room) == Judged(stream, other, room)
  {
    if EndInRoom(stream, room).Some? {
      var h := EndInRoom(stream, room).value;
      VerdictSettled(stream, room, h, FirstSeen(stream, one, 0, 0, room, h));
      VerdictSettled(stream, room, h, FirstSeen(stream, other, 0, 0, room, h));
    }
    hide VerdictAt, Settled, FirstSeen;
  }

  /** Any number of bytes from the end of the header on can be there when it is first found. */
  lemma Attainable(stream: string, room: nat, h: nat, l: nat)
    requires 0 < h <= l <= |stream| && l <= room
    ensures FirstSeen(stream, [l], 0, 0, room, h) == l
  {
  }

  // ---------- An unsettled length is read out of the body ----------

  /** What is read for the length when the body has come as far as l. */
  lemma {:induction false} UnsettledReads(stream: string, h: nat, l: nat)
    requires h <= l <= |stream| && !Settled(stream, h)
    ensures ContentLength(stream[..l], h) ==
      match Strtol(stream[h..l])
      case None => None
      case Some(n) => if n < 0 then None else Some(n)
  {
    assert stream[..l][..h] == stream[..h];
    ValueLocal(stream[..l], stream, 0, h);
    BlankSkipped(stream, ValueAt(stream, h).value, h, l);
    hide ValueFrom, Strtol;
  }

  lemma BlankSkipped(stream: string, v: nat, h: nat, l: nat)
    requires v <= h <= l <= |stream| && forall i :: v <= i < h ==> IsSpace(stream[i])
    ensures Strtol(stream[..l][v..]) == Strtol(stream[h..l])
  {
    hide *;
    Shifted(stream, v, h, l);
    SpacesTwice(stream[..l], v, h - v);
  }

  lemma Shifted(stream: string, v: nat, h: nat, l: nat)
    requires v <= h <= l <= |stream|
    ensures stream[..l][v + (h - v)..] == stream[h..l]
    ensures forall i :: v <= i < h ==> stream[..l][i] == stream[i]
  {
  }

  function Smaller(a: nat, b: nat): (r: nat)
    ensures r <= a && r <= b && (r == a || r == b)
  {
    if a < b then a else b
  }

  lemma {:induction false} RunPrefix(s: string, test: char -> bool, k: nat)
    requires k <= |s|
    ensures RunLength(s[..k], test) == Smaller(k, RunLength(s, test))
  {
    if k > 0 {
      assert s[..k][1..] == s[1..][..k - 1] && s[..k][0] == s[0];
      RunPrefix(s[1..], test, k - 1);
    }
  }

  /** strtol without white space on the first k bytes of a text: it sees some of the digits, or none. */
  lemma {:induction false} NumberPrefix(s: string, k: nat)
    requires k <= |s|
    ensures var rest := s[SignLength(s)..];
      NumberAt(s[..k]) ==
        if k <= SignLength(s) then None
        else NumberOf(Negative(s), rest[..Smaller(k - SignLength(s), RunLength(rest, IsDigit))])
  {
    var sign := SignLength(s);
    if k <= sign {
      assert s[..k][SignLength(s[..k])..] == "";
    } else {
      NumberCut(s, k);
      RunPrefix(s[sign..], IsDigit, k - sign);
      hide *;
      CutTwice(s[sign..], Smaller(k - sign, RunLength(s[sign..], IsDigit)), k - sign);
    }
  }

  lemma NumberCut(s: string, k: nat)
    requires SignLength(s) < k <= |s|
    ensures var rest := s[SignLength(s)..][..k - SignLength(s)];
      NumberAt(s[..k]) == NumberOf(Negative(s), rest[..RunLength(rest, IsDigit)])
  {
    var t, sign := s[..k], SignLength(s);
    assert t[0] == s[0];
    assert t[sign..] == s[sign..][..k - sign];
    hide RunLength, NumberOf;
  }

  /** The number in a text: where its digits start, its sign and its digits. */
  function NumberIn(s: string): (r: (nat, bool, string))
    ensures r.0 + |r.2| <= |s| && AllDigits(r.2)
  {
    var t := s[RunLength(s, IsSpace)..];
    var rest := t[SignLength(t)..];
    (RunLength(s, IsSpace) + SignLength(t), Negative(t), rest[..RunLength(rest, IsDigit)])
  }

  lemma StrtolCut(s: string, k: nat)
    requires k <= |s|
    ensures var a := RunLength(s, IsSpace); Strtol(s[..k]) == NumberAt(if k <= a then "" else s[a..][..k - a])
  {
    hide *;
    RunPrefix(s, IsSpace, k);
    CutAhead(s, Smaller(k, RunLength(s, IsSpace)), k);
    StrtolIs(s[..k]);
  }

  lemma StrtolIs(s: string)
    ensures Strtol(s) == NumberAt(s[RunLength(s, IsSpace)..])
  {
    hide NumberAt, RunLength;
  }

  lemma CutAhead(s: string, a: nat, k: nat)
    requires a <= k <= |s|
    ensures s[..k][a..] == s[a..][..k - a] && s[..k][k..] == ""
  {
  }

  /** strtol on the first k bytes of a text. */
  lemma {:induction false} StrtolPrefix(s: string, k: nat)
    requires k <= |s|
    ensures var (start, negative, digits) := NumberIn(s);
      Strtol(s[..k]) == if k <= start then None else NumberOf(negative, digits[..Smaller(k - start, |digits|)])
  {
    hide *;
    StrtolCut(s, k);
    var a := RunLength(s, IsSpace);
    var t := s[a..];
    var rest, sign, m := t[SignLength(t)..], SignLength(t), if k <= a then 0 else k - a;
    NothingOf(t);
    NumberPrefix(t, m);
    NumberParts(s, t, rest);
    if m > sign {
      CutTwice(rest, Smaller(m - sign, RunLength(rest, IsDigit)), RunLength(rest, IsDigit));
    }
  }

  lemma NothingOf(t: string)
    ensures t[..0] == ""
  {
  }

  lemma NumberParts(s: string, t: string, rest: string)
    requires t == s[RunLength(s, IsSpace)..] && rest == t[SignLength(t)..]
    ensures NumberIn(s) == (RunLength(s, IsSpace) + SignLength(t), Negative(t), rest[..RunLength(rest, IsDigit)])
  {
    hide RunLength, SignLength, Negative;
  }

  lemma CutTwice(t: string, i: nat, j: nat)
    requires i <= j <= |t|
    ensures t[..j][..i] == t[..i]
  {
  }

  function Ten(n: nat): nat {
    if n == 0 then 1 else 10 * Ten(n - 1)
  }

  lemma {:induction false} DigitsBound(s: string)
    requires AllDigits(s)
    ensures 0 <= DigitsValue(s) < Ten(|s|)
  {
    if s != "" {
      DigitsBound(s[..|s| - 1]);
    }
  }

  lemma {:induction false} DigitsGrow(s: string, k: nat)
    requires k <= |s| && AllDigits(s)
    ensures DigitsValue(s[..k]) <= DigitsValue(s)
    decreases |s|
  {
    var shorter := if s == "" then s else s[..|s| - 1];
    if k < |s| {
      DigitsBound(shorter);
      assert shorter[..k] == s[..k];
      DigitsGrow(shorter, k);
    } else {
      assert s[..k] == s;
    }
  }

  lemma {:induction false} FirstDigit(s: string)
    requires s != ""
    ensures DigitsValue(s[..1]) == DigitValue(s[0])
  {
    assert s[..1][..0] == "";
  }

  /** How a request is judged whose length reads as the given number. */
  function VerdictOn(read: Option<int>, have: nat, space: nat, h: nat): Verdict {
    match read
    case None => BadRequest
    case Some(n) =>
      if n < 0 then BadRequest else if n > space then TooLarge else if have >= n then Complete(h, n) else BadRequest
  }

  /** No digits, or digits of which already the first is too much for the body that is there. */
  predicate Hopeless(negative: bool, digits: string, have: nat, space: nat) {
    digits == "" ||
    if negative then digits[0] != '0' else DigitValue(digits[0]) > have && DigitsValue(digits) <= space
  }

  lemma {:induction false} FewDigits(digits: string, k: nat)
    requires AllDigits(digits) && |digits| <= 8 && k <= |digits|
    ensures 0 <= DigitsValue(digits[..k]) <= DigitsValue(digits) < 100_000_000
  {
    DigitsBound(digits);
    DigitsBound(digits[..k]);
    DigitsGrow(digits, k);
    hide DigitsValue;
    assert Ten(2) == 100 && Ten(4) == 10_000 && Ten(6) == 1_000_000 && Ten(8) == 100_000_000;
    assert |digits| < 8 ==> Ten(|digits|) <= Ten(8) by {
      TenGrows(|digits|, 8);
    }
  }

  lemma {:induction false} TenGrows(m: nat, n: nat)
    requires m <= n
    ensures Ten(m) <= Ten(n)
  {
    if m < n {
      TenGrows(m, n - 1);
    }
  }

  lemma {:induction false} HopelessFails(negative: bool, digits: string, have: nat, space: nat, h: nat, k: nat)
    requires AllDigits(digits) && |digits| <= have && 0 < k <= |digits| && Hopeless(negative, digits, have, space)
    ensures VerdictOn(NumberOf(negative, digits[..k]), have, space, h) == BadRequest
  {
    FirstDigit(digits);
    var first := digits[..k];
    DigitsBound(first);
    DigitsGrow(first, 1);
    DigitsGrow(digits, k);
    assert first[..1] == digits[..1];
    hide DigitsValue;
  }

  lemma {:induction false} HopefulPasses(negative: bool, digits: string, have: nat, space: nat, h: nat) returns (k: nat)
    requires AllDigits(digits) && |digits| <= have && !Hopeless(negative, digits, have, space)
    ensures 0 < k <= |digits| && VerdictOn(NumberOf(negative, digits[..k]), have, space, h) != BadRequest
  {
    FirstDigit(digits);
    if |digits| <= 8 {
      FewDigits(digits, 1);
    }
    hide DigitsValue;
    assert digits[..|digits|] == digits;
    k := if VerdictOn(NumberOf(negative, digits[..1]), have, space, h) != BadRequest then 1 else |digits|;
  }

  /** What of the body the buffer can hold. */
  function BodyInRoom(stream: string, room: nat, h: nat): string
    requires h <= |stream| && h <= room
  {
    stream[h..Smaller(|stream|, room)]
  }

  /** A caller can tell from the bytes: behind white space and a sign the body has no digits, or a minus
      and a number that does not start with 0, or a number that fits the room and whose first digit
      alone is more than the bytes there are. */
  predicate NeverRead(stream: string, room: nat, h: nat)
    requires h <= |stream| && h <= room
  {
    var (_, negative, digits) := NumberIn(BodyInRoom(stream, room, h));
    Hopeless(negative, digits, |stream| - h, room - h)
  }

  lemma {:induction false} UnsettledVerdict(stream: string, room: nat, h: nat, l: nat)
    requires h <= l <= |stream| && l <= room && !Settled(stream, h)
    ensures VerdictAt(stream, room, h, l) ==
      VerdictOn(Strtol(BodyInRoom(stream, room, h)[..l - h]), |stream| - h, room - h, h)
  {
    UnsettledReads(stream, h, l);
    BodyPrefix(stream, room, h, l);
    hide ContentLength, Strtol, Settled, BodyInRoom;
  }

  lemma BodyPrefix(stream: string, room: nat, h: nat, l: nat)
    requires h <= l <= |stream| && l <= room
    ensures l - h <= |BodyInRoom(stream, room, h)| && BodyInRoom(stream, room, h)[..l - h] == stream[h..l]
  {
    CutSlice(stream, h, l, Smaller(|stream|, room));
  }

  lemma CutSlice(s: string, h: nat, l: nat, m: nat)
    requires h <= l <= m <= |s|
    ensures s[h..m][..l - h] == s[h..l]
  {
  }

  lemma {:induction false} UnsettledFails(stream: string, room: nat, h: nat)
    requires h <= |stream| && h <= room && !Settled(stream, h)
    ensures VerdictAt(stream, room, h, h) == BadRequest
  {
    UnsettledVerdict(stream, room, h, h);
    hide VerdictAt, Settled;
    assert BodyInRoom(stream, room, h)[..0] == "";
  }

  lemma {:induction false} HopelessRead(body: string, have: nat, space: nat, h: nat, k: nat)
    requires k <= |body| <= have
    requires var (_, negative, digits) := NumberIn(body); Hopeless(negative, digits, have, space)
    ensures VerdictOn(Strtol(body[..k]), have, space, h) == BadRequest
  {
    StrtolPrefix(body, k);
    var (start, negative, digits) := NumberIn(body);
    hide Strtol, Hopeless, NumberIn;
    if k > start && digits != "" {
      HopelessFails(negative, digits, have, space, h, Smaller(k - start, |digits|));
    } else {
      assert digits[..0] == "";
    }
  }

  lemma {:induction false} HopefulRead(body: string, have: nat, space: nat, h: nat) returns (k: nat)
    requires |body| <= have
    requires var (_, negative, digits) := NumberIn(body); !Hopeless(negative, digits, have, space)
    ensures k <= |body| && VerdictOn(Strtol(body[..k]), have, space, h) != BadRequest
  {
    var (start, negative, digits) := NumberIn(body);
    hide Strtol, NumberOf, Hopeless, NumberIn, VerdictOn;
    k := HopefulPasses(negative, digits, have, space, h);
    StrtolPrefix(body, start + k);
    k := start + k;
  }

  ghost predicate Independent(stream: string, room: nat) {
    forall one, other :: Judged(stream, one, room) == Judged(stream, other, room)
  }

  /** Exactly then: otherwise all depends on whether some of the body has come along, to be taken for
      the value, and only if that can never help is the verdict the same for all fragmentations. */
  lemma {:induction false} IndependentExactly(stream: string, room: nat)
    ensures Independent(stream, room) <==>
      match EndInRoom(stream, room)
      case None => true
      case Some(h) => Settled(stream, h) || NeverRead(stream, room, h)
  {
    hide VerdictAt, Settled, FirstSeen, HeaderEnd, Hopeless, NumberIn, Strtol, VerdictOn;
    if EndInRoom(stream, room).None? || Settled(stream, EndInRoom(stream, room).value) {
      forall one, other ensures Judged(stream, one, room) == Judged(stream, other, room) {
        FragmentsAgree(stream, one, other, room);
      }
    } else {
      var h := EndInRoom(stream, room).value;
      if NeverRead(stream, room, h) {
        forall cuts ensures Judged(stream, cuts, room) == BadRequest {
          var l := FirstSeen(stream, cuts, 0, 0, room, h);
          UnsettledVerdict(stream, room, h, l);
          HopelessRead(BodyInRoom(stream, room, h), |stream| - h, room - h, h, l - h);
        }
      } else {
        var k := HopefulRead(BodyInRoom(stream, room, h), |stream| - h, room - h, h);
        var l := h + k;
        UnsettledVerdict(stream, room, h, l);
        UnsettledFails(stream, room, h);
        Attainable(stream, room, h, l);
        Attainable(stream, room, h, h);
        assert Judged(stream, [l], room) != Judged(stream, [h], room);
      }
    }
  }

  /** A request on which it does depend: with the header alone it is refused, with a byte of the body
      it is complete. */
  lemma {:induction false} BlankLengthDepends(room: nat)
    requires room >= 20
    ensures var stream := "Content-Length:\r\n\r\n1x";
      Judged(stream, [19], room) == BadRequest && Judged(stream, [20], room) == Complete(19, 1)
  {
    var stream := "Content-Length:\r\n\r\n1x";
    KnownHeader(stream);
    KnownValue(stream);
    KnownLength(stream);
    Attainable(stream, room, 19, 19);
    Attainable(stream, room, 19, 20);
    UnsettledFails(stream, room, 19);
    hide HeaderEnd, ContentLength, FirstSeen, Settled, ValueAt;
  }

  lemma {:induction false} KnownLength(stream: string)
    requires stream == "Content-Length:\r\n\r\n1x"
    ensures ContentLength(stream[..20], 19) == Some(1)
  {
    hide *;
    KnownValue(stream);
    UnsettledReads(stream, 19, 20);
    assert stream[19..20] == "1";
    KnownDigit();
  }

  lemma KnownDigit()
    ensures Strtol("1") == Some(1)
  {
    assert RunLength("1", IsSpace) == 0 && "1"[0..] == "1";
    assert RunLength("1"[1..], IsDigit) == 0 && RunLength("1", IsDigit) == 1;
    assert "1"[..1] == "1" && "1"[..0] == "" && DigitsValue("1") == 1;
  }

  lemma KnownHeader(stream: string)
    requires stream == "Content-Length:\r\n\r\n1x"
    ensures HeaderEnd(stream) == Some(19)
  {
    assert EndsHeader(stream, 19);
    forall k | 0 <= k < 19 ensures !EndsHeader(stream, k) {
      if k >= 4 {
        assert stream[k - 4] == '\r' ==> k == 19;
      }
    }
  }

  lemma KnownValue(stream: string)
    requires stream == "Content-Length:\r\n\r\n1x"
    ensures ValueAt(stream, 19) == Some(15) && !Settled(stream, 19)
  {
    KnownStop(stream);
    KnownName(stream[0..15]);
    KnownBlank(stream);
    hide LineStop, NameMatches;
  }

  lemma KnownStop(stream: string)
    requires stream == "Content-Length:\r\n\r\n1x"
    ensures LineStop(stream, 0, 19) == 15
  {
    hide LineStop;
    assert BreakAt(stream, 15);
    assert forall i :: 0 <= i < 15 ==> stream[i] != '\r';
    assert LineStop(stream, 0, 19) >= 15;
  }

  lemma KnownBlank(stream: string)
    requires stream == "Content-Length:\r\n\r\n1x"
    ensures forall i :: 15 <= i < 19 ==> IsSpace(stream[i])
  {
  }

  lemma KnownName(line: string)
    requires line == "Content-Length:"
    ensures NameMatches(line)
  {
    assert line[0] == 'C' && line[1] == 'o' && line[2] == 'n' && line[3] == 't' && line[4] == 'e' && line[5] == 'n' &&
      line[6] == 't' && line[7] == '-' && line[8] == 'L' && line[9] == 'e' && line[10] == 'n' && line[11] == 'g' &&
      line[12] == 't' && line[13] == 'h';
    assert NAME[0] == 'c' && NAME[1] == 'o' && NAME[2] == 'n' && NAME[3] == 't' && NAME[4] == 'e' && NAME[5] == 'n' &&
      NAME[6] == 't' && NAME[7] == '-' && NAME[8] == 'l' && NAME[9] == 'e' && NAME[10] == 'n' && NAME[11] == 'g' &&
      NAME[12] == 't' && NAME[13] == 'h';
  }
}
