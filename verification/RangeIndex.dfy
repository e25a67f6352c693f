/**
The range index of src/index.c: entries sorted by utils_compare_values, searched in halves. When its
answers are those of a plain filter, and why they need not be: integers among other text are in no
order, and a sorted column need not be in the order of the value it is compared with.
*/
module RangeIndex {
  import opened Wrappers
  import opened Text
  import opened Statements
  import opened TableFiles
  import HashIndex
  import Comparing

  datatype Entry = Entry(key: string, offset: nat)

  /** index_compare_range_entries. */
  function CompareEntries(a: Entry, b: Entry): int {
    var c := CompareValues(a.key, b.key);
    if c != 0 then c else Sign(a.offset - b.offset)
  }

  predicate Sorted(entries: seq<Entry>) {
    forall i, j :: 0 <= i < j < |entries| ==> CompareEntries(entries[i], entries[j]) <= 0
  }

  // ---------- The order ----------

  predicate IsNumber(s: string) {
    TryParse(s).Some?
  }

  predicate AllNumbers(keys: seq<string>) {
    forall i :: 0 <= i < |keys| ==> IsNumber(keys[i])
  }

  predicate NoNumbers(keys: seq<string>) {
    forall i :: 0 <= i < |keys| ==> !IsNumber(keys[i])
  }

  lemma CompareNumbers(a: string, b: string)
    requires IsNumber(a) && IsNumber(b)
    ensures CompareValues(a, b) == Sign(TryParse(a).value - TryParse(b).value)
  {
    hide TryParse;
  }

  lemma CompareStrings(a: string, b: string)
    requires !IsNumber(a) || !IsNumber(b)
    ensures CompareValues(a, b) == StrCmp(a, b)
  {
    hide TryParse;
  }

  /** Among numbers only, or with no numbers at all, comparing is a consistent order ... */
  lemma {:induction false} OrderConsistent(a: string, b: string, c: string)
    requires AllNumbers([a, b, c]) || NoNumbers([a, b, c])
    ensures (CompareValues(a, b) < 0 <==> CompareValues(b, a) > 0) &&
      (CompareValues(a, b) == 0 <==> CompareValues(b, a) == 0)
    ensures CompareValues(a, b) <= 0 && CompareValues(b, c) <= 0 ==> CompareValues(a, c) <= 0
  {
    var keys := [a, b, c];
    hide CompareValues, IsNumber;
    if AllNumbers(keys) {
      assert IsNumber(keys[0]) && IsNumber(keys[1]) && IsNumber(keys[2]);
      CompareNumbers(a, b);
      CompareNumbers(b, a);
      CompareNumbers(b, c);
      CompareNumbers(a, c);
    } else {
      assert !IsNumber(keys[0]) && !IsNumber(keys[1]) && !IsNumber(keys[2]);
      CompareStrings(a, b);
      CompareStrings(b, a);
      CompareStrings(b, c);
      CompareStrings(a, c);
      StrCmpAntisymmetric(a, b);
      if CompareValues(a, b) <= 0 && CompareValues(b, c) <= 0 {
        StrCmpTransitive(a, b, c);
      }
    }
  }

  /** ... and otherwise it need not be. */
  lemma {:induction false} NotTransitive()
    ensures CompareValues("10", "1a") < 0 && CompareValues("1a", "2") < 0 && CompareValues("2", "10") < 0
  {
    KnownNumbers();
    CompareStrings("10", "1a");
    CompareStrings("1a", "2");
    CompareNumbers("2", "10");
    assert StrCmp("10", "1a") == StrCmp("10"[1..], "1a"[1..]);
  }

  lemma KnownNumbers()
    ensures TryParse("10") == Some(10) && TryParse("2") == Some(2) && TryParse("9") == Some(9) && !IsNumber("1a")
  {
    assert "10"[..1] == "1" && "1"[..0] == "" && "2"[..0] == "" && "9"[..0] == "";
    assert DigitsValue("1") == 1 && DigitsValue("10") == 10 && DigitsValue("2") == 2 && DigitsValue("9") == 9;
    assert Unsigned("1a") == "1a" && !IsDigit("1a"[1]);
  }

  lemma {:induction false} Antisymmetric(a: Entry, b: Entry)
    ensures CompareEntries(a, b) == -CompareEntries(b, a)
    ensures CompareEntries(a, b) == 0 ==> a.offset == b.offset
    ensures CompareValues(a.key, b.key) < 0 ==> CompareEntries(b, a) > 0
  {
    if IsNumber(a.key) && IsNumber(b.key) {
      CompareNumbers(a.key, b.key);
      CompareNumbers(b.key, a.key);
    } else {
      CompareStrings(a.key, b.key);
      CompareStrings(b.key, a.key);
      StrCmpAntisymmetric(a.key, b.key);
    }
    hide CompareValues, IsNumber, StrCmp;
  }

  /** Comparing is a consistent order on these entries: qsort has to sort them. */
  predicate Consistent(entries: seq<Entry>) {
    forall a <- entries, b <- entries, c <- entries ::
      CompareEntries(a, b) <= 0 && CompareEntries(b, c) <= 0 ==> CompareEntries(a, c) <= 0
  }

  /** A column with those three values among its own cannot be sorted at all: wherever they stand,
      some two are the wrong way round. */
  lemma {:induction false} NothingSorts(entries: seq<Entry>, i: nat, j: nat, k: nat)
    requires i < |entries| && j < |entries| && k < |entries|
    requires entries[i].key == "10" && entries[j].key == "1a" && entries[k].key == "2"
    ensures !Sorted(entries)
  {
    NotTransitive();
    Antisymmetric(entries[i], entries[j]);
    Antisymmetric(entries[j], entries[k]);
    Antisymmetric(entries[k], entries[i]);
    hide CompareEntries, CompareValues;
    var (first, last) := if i < k then (i, k) else if k < j then (k, j) else (j, i);
    assert first < last && CompareEntries(entries[first], entries[last]) > 0;
  }

  // ---------- Queries ----------

  predicate RangeOp(op: string) {
    op == ">" || op == ">=" || op == "<" || op == "<="
  }

  /** The offsets of the entries that a comparison with the value lets through. */
  function Filtered(entries: seq<Entry>, op: string, value: string): seq<nat> {
    if entries == [] then [] else Passed(entries[0], op, value) + Filtered(entries[1..], op, value)
  }

  function Passed(e: Entry, op: string, value: string): seq<nat> {
    if Comparing.OpHolds(op, CompareValues(e.key, value)) then [e.offset] else []
  }

  function OffsetsOf(entries: seq<Entry>): seq<nat> {
    seq(|entries|, i requires 0 <= i < |entries| => entries[i].offset)
  }

  /** What the binary search for an operator moves right over. */
  predicate Before(op: string, e: Entry, value: string) {
    if op == "<" || op == ">=" then CompareValues(e.key, value) < 0 else CompareValues(e.key, value) <= 0
  }

  /** The entries a search moves over come before the others. */
  predicate Split(entries: seq<Entry>, op: string, value: string) {
    forall i, j :: 0 <= i < j < |entries| && Before(op, entries[j], value) ==> Before(op, entries[i], value)
  }

  /** A place a binary search can end at. */
  predicate Boundary(entries: seq<Entry>, op: string, value: string, p: nat) {
    p <= |entries| && (p > 0 ==> Before(op, entries[p - 1], value)) &&
    (p < |entries| ==> !Before(op, entries[p], value))
  }

  /** Where a binary search between two places ends. */
  function SearchEnd(entries: seq<Entry>, op: string, value: string, left: nat, right: nat): nat
    requires left <= right <= |entries|
    decreases right - left
  {
    if left == right then left
    else
      var middle := left + (right - left) / 2;
      if Before(op, entries[middle], value) then SearchEnd(entries, op, value, middle + 1, right)
      else SearchEnd(entries, op, value, left, middle)
  }

  lemma {:induction false} SearchBoundary(entries: seq<Entry>, op: string, value: string, left: nat, right: nat)
    requires left <= right <= |entries|
    requires left > 0 ==> Before(op, entries[left - 1], value)
    requires right < |entries| ==> !Before(op, entries[right], value)
    ensures Boundary(entries, op, value, SearchEnd(entries, op, value, left, right))
    decreases right - left
  {
    hide Before;
    if left < right {
      var middle := left + (right - left) / 2;
      if Before(op, entries[middle], value) {
        SearchBoundary(entries, op, value, middle + 1, right);
      } else {
        SearchBoundary(entries, op, value, left, middle);
      }
    }
  }

  /** Two operators with the same search. */
  lemma {:induction false} SearchSame(
      entries: seq<Entry>, op: string, op': string, value: string, left: nat, right: nat)
    requires left <= right <= |entries|
    requires forall e :: Before(op, e, value) <==> Before(op', e, value)
    ensures SearchEnd(entries, op, value, left, right) == SearchEnd(entries, op', value, left, right)
    decreases right - left
  {
    hide Before;
    if left < right {
      var middle := left + (right - left) / 2;
      SearchSame(entries, op, op', value, middle + 1, right);
      SearchSame(entries, op, op', value, left, middle);
    }
  }

  /** Where the search over all the entries ends. */
  function EndOf(entries: seq<Entry>, op: string, value: string): nat {
    SearchEnd(entries, op, value, 0, |entries|)
  }

  lemma SearchMoves(entries: seq<Entry>, op: string, value: string, left: nat, right: nat)
    requires left < right <= |entries|
    ensures var middle := left + (right - left) / 2;
      SearchEnd(entries, op, value, left, right) ==
        if Before(op, entries[middle], value) then SearchEnd(entries, op, value, middle + 1, right)
        else SearchEnd(entries, op, value, left, middle)
  {
    hide Before;
  }

  lemma SearchEnds(entries: seq<Entry>, op: string, value: string, left: nat)
    requires left <= |entries|
    ensures SearchEnd(entries, op, value, left, left) == left
    ensures EndOf(entries, op, value) == SearchEnd(entries, op, value, 0, |entries|)
  {
    hide Before;
  }

  lemma BeforeIs(e: Entry, value: string)
    ensures Before("<", e, value) <==> CompareValues(e.key, value) < 0
    ensures Before("<=", e, value) <==> CompareValues(e.key, value) <= 0
  {
    hide CompareValues;
  }

  /** index_lower_bound; on any entries at all it ends at a boundary. */
  method LowerBound(entries: seq<Entry>, value: string) returns (left: nat)
    ensures left == EndOf(entries, "<", value) && Boundary(entries, "<", value, left)
  {
    hide *;
    SearchBoundary(entries, "<", value, 0, |entries|);
    left := 0;
    var right := |entries|;
    SearchEnds(entries, "<", value, left);
    while left < right
      invariant left <= right <= |entries|
      invariant SearchEnd(entries, "<", value, left, right) == EndOf(entries, "<", value)
    {
      SearchMoves(entries, "<", value, left, right);
      var middle := left + (right - left) / 2;
      BeforeIs(entries[middle], value);
      if CompareValues(entries[middle].key, value) < 0 {
        left := middle + 1;
      } else {
        right := middle;
      }
    }
    SearchEnds(entries, "<", value, left);
  }

  /** index_upper_bound. */
  method UpperBound(entries: seq<Entry>, value: string) returns (left: nat)
    ensures left == EndOf(entries, "<=", value) && Boundary(entries, "<=", value, left)
  {
    hide *;
    SearchBoundary(entries, "<=", value, 0, |entries|);
    left := 0;
    var right := |entries|;
    SearchEnds(entries, "<=", value, left);
    while left < right
      invariant left <= right <= |entries|
      invariant SearchEnd(entries, "<=", value, left, right) == EndOf(entries, "<=", value)
    {
      SearchMoves(entries, "<=", value, left, right);
      var middle := left + (right - left) / 2;
      BeforeIs(entries[middle], value);
      if CompareValues(entries[middle].key, value) <= 0 {
        left := middle + 1;
      } else {
        right := middle;
      }
    }
    SearchEnds(entries, "<=", value, left);
  }

  predicate Distinct(entries: seq<Entry>) {
    forall i, j :: 0 <= i < j < |entries| ==> entries[i].offset != entries[j].offset
  }

  /** The operators that answer with what the search moved over; the others give the rest. */
  predicate TakesFront(op: string) {
    op == "<" || op == "<="
  }

  /** What a search that ends at p gives. */
  function Answer(entries: seq<Entry>, op: string, p: nat): seq<nat>
    requires p <= |entries|
  {
    OffsetsOf(if TakesFront(op) then entries[..p] else entries[p..])
  }

  lemma MatchesBefore(op: string, e: Entry, value: string)
    requires RangeOp(op)
    ensures Comparing.OpHolds(op, CompareValues(e.key, value)) <==> (Before(op, e, value) <==> TakesFront(op))
  {
    hide CompareValues;
  }

  lemma {:induction false} FilteredAll(entries: seq<Entry>, op: string, value: string)
    ensures (forall i :: 0 <= i < |entries| ==> Comparing.OpHolds(op, CompareValues(entries[i].key, value))) ==>
      Filtered(entries, op, value) == OffsetsOf(entries)
    ensures (forall i :: 0 <= i < |entries| ==> !Comparing.OpHolds(op, CompareValues(entries[i].key, value))) ==>
      Filtered(entries, op, value) == []
  {
    hide CompareValues, Comparing.OpHolds;
    if entries != [] {
      FilteredAll(entries[1..], op, value);
      assert OffsetsOf(entries) == [entries[0].offset] + OffsetsOf(entries[1..]);
    }
  }

  lemma FilteredEnds(entries: seq<Entry>, op: string, value: string)
    ensures entries == [] ==> Filtered(entries, op, value) == []
    ensures entries != [] ==>
      Filtered(entries, op, value) == Passed(entries[0], op, value) + Filtered(entries[1..], op, value)
  {
  }

  lemma Regrouped(p: seq<nat>, x: seq<nat>, y: seq<nat>)
    ensures p + (x + y) == p + x + y
  {
  }

  lemma {:induction false} FilteredSplits(a: seq<Entry>, b: seq<Entry>, op: string, value: string)
    ensures Filtered(a + b, op, value) == Filtered(a, op, value) + Filtered(b, op, value)
  {
    hide *;
    FilteredEnds(a, op, value);
    if a == [] {
      assert a + b == b;
      NothingAdded(Filtered(b, op, value));
    } else {
      var s := a + b;
      assert s[0] == a[0] && s[1..] == a[1..] + b;
      FilteredSplits(a[1..], b, op, value);
      FilteredEnds(s, op, value);
      Regrouped(Passed(a[0], op, value), Filtered(a[1..], op, value), Filtered(b, op, value));
    }
  }

  lemma {:induction false} FilteredIn(entries: seq<Entry>, op: string, value: string, x: nat)
    ensures x in Filtered(entries, op, value) <==>
      exists i ::
        0 <= i < |entries| && entries[i].offset == x && Comparing.OpHolds(op, CompareValues(entries[i].key, value))
  {
    hide CompareValues, Comparing.OpHolds;
    if entries != [] {
      FilteredIn(entries[1..], op, value, x);
      assert forall i :: 0 <= i < |entries| - 1 ==> entries[1..][i] == entries[i + 1];
    }
  }

  /** A search that ends at a boundary answers exactly the filter, on entries with distinct offsets,
      when and only when the entries are split as the search supposes. */
  lemma {:induction false} AnswerExact(entries: seq<Entry>, op: string, value: string, p: nat)
    requires RangeOp(op) && Boundary(entries, op, value, p) && Distinct(entries)
    ensures Answer(entries, op, p) == Filtered(entries, op, value) <==> Split(entries, op, value)
  {
    hide CompareValues, Comparing.OpHolds;
    if Split(entries, op, value) {
      SplitAnswers(entries, op, value, p);
    }
    if Answer(entries, op, p) == Filtered(entries, op, value) {
      AnswerSplits(entries, op, value, p);
    }
    hide *;
  }

  lemma {:induction false} SplitAnswers(entries: seq<Entry>, op: string, value: string, p: nat)
    requires RangeOp(op) && Boundary(entries, op, value, p) && Split(entries, op, value)
    ensures p <= |entries| && Answer(entries, op, p) == Filtered(entries, op, value)
  {
    hide *;
    var a, b := Halves(entries, op, value, p);
    FilteredSplits(a, b, op, value);
    NothingAdded(OffsetsOf(a));
    NothingAdded(OffsetsOf(b));
  }

  lemma NothingAdded(xs: seq<nat>)
    ensures xs + [] == xs && [] + xs == xs
  {
  }

  lemma {:induction false} Halves(entries: seq<Entry>, op: string, value: string, p: nat)
    returns (a: seq<Entry>, b: seq<Entry>)
    requires RangeOp(op) && Boundary(entries, op, value, p) && Split(entries, op, value)
    ensures p <= |entries| && entries == a + b &&
      Answer(entries, op, p) == if TakesFront(op) then OffsetsOf(a) else OffsetsOf(b)
    ensures Filtered(a, op, value) == if TakesFront(op) then OffsetsOf(a) else []
    ensures Filtered(b, op, value) == if TakesFront(op) then [] else OffsetsOf(b)
  {
    SplitSides(entries, op, value, p);
    AnswerParts(entries, op, p);
    hide *;
    a, b := entries[..p], entries[p..];
    CutInTwo(entries, p);
  }

  lemma CutInTwo(entries: seq<Entry>, p: nat)
    requires p <= |entries|
    ensures entries == entries[..p] + entries[p..]
  {
  }

  lemma AnswerParts(entries: seq<Entry>, op: string, p: nat)
    requires p <= |entries|
    ensures Answer(entries, op, p) == if TakesFront(op) then OffsetsOf(entries[..p]) else OffsetsOf(entries[p..])
  {
  }

  lemma {:induction false} SplitSides(entries: seq<Entry>, op: string, value: string, p: nat)
    requires RangeOp(op) && Boundary(entries, op, value, p) && Split(entries, op, value)
    ensures Filtered(entries[..p], op, value) == if TakesFront(op) then OffsetsOf(entries[..p]) else []
    ensures Filtered(entries[p..], op, value) == if TakesFront(op) then [] else OffsetsOf(entries[p..])
  {
    var a, b := entries[..p], entries[p..];
    forall i | 0 <= i < |a| ensures Comparing.OpHolds(op, CompareValues(a[i].key, value)) <==> TakesFront(op) {
      assert a[i] == entries[i] && (i < p - 1 ==> Before(op, entries[p - 1], value));
      MatchesBefore(op, a[i], value);
    }
    forall i | 0 <= i < |b| ensures Comparing.OpHolds(op, CompareValues(b[i].key, value)) <==> !TakesFront(op) {
      assert b[i] == entries[p + i] && (i > 0 ==> !Before(op, entries[p], value));
      MatchesBefore(op, b[i], value);
    }
    hide CompareValues, Comparing.OpHolds, Split, Before, Boundary, Filtered, OffsetsOf;
    FilteredAll(a, op, value);
    FilteredAll(b, op, value);
  }

  lemma {:induction false} AnswerSplits(entries: seq<Entry>, op: string, value: string, p: nat)
    requires RangeOp(op) && p <= |entries| && Distinct(entries)
    requires multiset(Answer(entries, op, p)) == multiset(Filtered(entries, op, value))
    ensures Split(entries, op, value)
  {
    forall i | 0 <= i < |entries| ensures Before(op, entries[i], value) <==> i < p {
      InAnswer(entries, op, p, i);
      SameMembers(Answer(entries, op, p), Filtered(entries, op, value), entries[i].offset);
      FilteredIn(entries, op, value, entries[i].offset);
      MatchesBefore(op, entries[i], value);
      hide CompareValues, Comparing.OpHolds, Before, Filtered, Answer;
    }
    hide Before, Filtered, Answer;
  }

  lemma {:induction false} InAnswer(entries: seq<Entry>, op: string, p: nat, i: nat)
    requires RangeOp(op) && p <= |entries| && i < |entries| && Distinct(entries)
    ensures entries[i].offset in Answer(entries, op, p) <==> (i < p <==> TakesFront(op))
  {
    var part := if TakesFront(op) then entries[..p] else entries[p..];
    assert forall k :: 0 <= k < |part| ==> OffsetsOf(part)[k] == part[k].offset;
    if i < p {
      assert entries[..p][i] == entries[i];
    } else {
      assert entries[p..][i - p] == entries[i];
    }
    if TakesFront(op) {
      if i < p {
        assert OffsetsOf(part)[i] == entries[i].offset;
      }
    } else if i >= p {
      assert OffsetsOf(part)[i - p] == entries[i].offset;
    }
  }

  lemma {:induction false} SearchOf(entries: seq<Entry>, op: string, value: string)
    requires RangeOp(op)
    ensures EndOf(entries, op, value) == EndOf(entries, if op == "<" || op == ">=" then "<" else "<=", value)
    ensures Boundary(entries, op, value, EndOf(entries, op, value))
  {
    var op' := if op == "<" || op == ">=" then "<" else "<=";
    assert forall e :: Before(op, e, value) <==> Before(op', e, value);
    hide Before, SearchEnd, Boundary;
    SearchSame(entries, op, op', value, 0, |entries|);
    SearchBoundary(entries, op, value, 0, |entries|);
  }

  /** index_query_range. A range query answers with what lies on one side of where the search ends. On
      entries with distinct offsets this is exact if and only if they are split about the value; an
      inequality query always is exact. */
  method QueryRange(entries: seq<Entry>, op: string, value: string) returns (r: Option<seq<nat>>)
    requires Distinct(entries)
    ensures r.Some? <==> op in ["!=", "<", "<=", ">", ">="]
    ensures op == "!=" ==> r == Some(Filtered(entries, op, value))
    ensures RangeOp(op) ==> Boundary(entries, op, value, EndOf(entries, op, value))
    ensures RangeOp(op) ==> r == Some(Answer(entries, op, EndOf(entries, op, value)))
    ensures RangeOp(op) ==> (r == Some(Filtered(entries, op, value)) <==> Split(entries, op, value))
  {
    hide Distinct, Split, Filtered, EndOf, Before, CompareValues, OffsetsOf;
    if op == "!=" {
      var offsets := FilterUnequal(entries, value);
      return Some(offsets);
    }
    var start, end := 0, |entries|;
    if op == ">" {
      start := UpperBound(entries, value);
    } else if op == ">=" {
      start := LowerBound(entries, value);
    } else if op == "<" {
      end := LowerBound(entries, value);
    } else if op == "<=" {
      end := UpperBound(entries, value);
    } else {
      return None;
    }
    SearchOf(entries, op, value);
    ghost var p := EndOf(entries, op, value);
    AnswerExact(entries, op, value, p);
    assert entries[start..end] == if TakesFront(op) then entries[..p] else entries[p..];
    var offsets := CopyOffsets(entries, start, end);
    return Some(offsets);
  }

  method CopyOffsets(entries: seq<Entry>, start: nat, end: nat) returns (offsets: seq<nat>)
    requires start <= end <= |entries|
    ensures offsets == OffsetsOf(entries[start..end])
  {
    offsets := [];
    var i := 0;
    while i < end - start
      invariant i <= end - start && |offsets| == i && forall k :: 0 <= k < i ==> offsets[k] == entries[start + k].offset
    {
      offsets := offsets + [entries[start + i].offset];
      i := i + 1;
    }
  }

  lemma {:induction false} FilteredSnoc(entries: seq<Entry>, i: nat, op: string, value: string)
    requires i < |entries|
    ensures Filtered(entries[..i + 1], op, value) ==
      Filtered(entries[..i], op, value) +
      if Comparing.OpHolds(op, CompareValues(entries[i].key, value)) then [entries[i].offset] else []
  {
    var last := [entries[i]];
    assert entries[..i + 1] == entries[..i] + last;
    FilteredSplits(entries[..i], last, op, value);
    hide CompareValues, Comparing.OpHolds;
    assert Filtered(last[1..], op, value) == [];
  }

  method FilterUnequal(entries: seq<Entry>, value: string) returns (offsets: seq<nat>)
    ensures offsets == Filtered(entries, "!=", value)
  {
    offsets := [];
    var i := 0;
    while i < |entries|
      invariant i <= |entries| && offsets == Filtered(entries[..i], "!=", value)
    {
      FilteredSnoc(entries, i, "!=", value);
      hide CompareValues, Filtered;
      if CompareValues(entries[i].key, value) != 0 {
        offsets := offsets + [entries[i].offset];
      }
      i := i + 1;
    }
    assert entries[..|entries|] == entries;
  }

  // ---------- When the entries are split ----------

  function KeysOf(entries: seq<Entry>): seq<string> {
    seq(|entries|, i requires 0 <= i < |entries| => entries[i].key)
  }

  /** Integers only, or none: the columns that the order is consistent on. */
  predicate Uniform(entries: seq<Entry>) {
    AllNumbers(KeysOf(entries)) || NoNumbers(KeysOf(entries))
  }

  /** A column the order is consistent on, and a value to look for in it. */
  predicate Comparable(entries: seq<Entry>, value: string) {
    (AllNumbers(KeysOf(entries)) && IsNumber(value)) || NoNumbers(KeysOf(entries))
  }

  lemma {:induction false} SortedSplit(entries: seq<Entry>, op: string, value: string)
    requires Sorted(entries) && Comparable(entries, value) && RangeOp(op)
    ensures Split(entries, op, value)
  {
    hide CompareValues, IsNumber;
    forall i, j | 0 <= i < j < |entries| && Before(op, entries[j], value) ensures Before(op, entries[i], value) {
      assert CompareEntries(entries[i], entries[j]) <= 0;
      assert KeysOf(entries)[i] == entries[i].key && KeysOf(entries)[j] == entries[j].key;
      BeforeDown(entries[i].key, entries[j].key, value);
    }
  }

  lemma {:induction false} BeforeDown(a: string, b: string, value: string)
    requires (IsNumber(a) && IsNumber(b) && IsNumber(value)) || (!IsNumber(a) && !IsNumber(b))
    requires CompareValues(a, b) <= 0
    ensures CompareValues(b, value) < 0 ==> CompareValues(a, value) < 0
    ensures CompareValues(b, value) <= 0 ==> CompareValues(a, value) <= 0
  {
    if IsNumber(a) {
      CompareNumbers(a, b);
      CompareNumbers(b, value);
      CompareNumbers(a, value);
    } else {
      CompareStrings(a, b);
      CompareStrings(b, value);
      CompareStrings(a, value);
      hide CompareValues, IsNumber;
      StringsDown(a, b, value);
    }
  }

  lemma {:induction false} StringsDown(a: string, b: string, value: string)
    requires StrCmp(a, b) <= 0
    ensures StrCmp(b, value) < 0 ==> StrCmp(a, value) < 0
    ensures StrCmp(b, value) <= 0 ==> StrCmp(a, value) <= 0
  {
    if StrCmp(b, value) <= 0 {
      StrCmpTransitive(a, b, value);
      if StrCmp(a, value) == 0 {
        StrCmpAntisymmetric(a, value);
        StrCmpAntisymmetric(a, b);
        StrCmpAntisymmetric(b, value);
      }
    }
  }

  /** What qsort promises: the same entries, and in order if comparing is a consistent order on them. */
  ghost predicate SortResult(before: seq<Entry>, after: seq<Entry>) {
    multiset(after) == multiset(before) && (Consistent(before) ==> Sorted(after))
  }

  lemma {:induction false} EntriesTransitive(a: Entry, b: Entry, c: Entry)
    requires Uniform([a, b, c]) && CompareEntries(a, b) <= 0 && CompareEntries(b, c) <= 0
    ensures CompareEntries(a, c) <= 0
  {
    var keys := KeysOf([a, b, c]);
    assert keys == [a.key, b.key, c.key];
    Rotated(a.key, b.key, c.key);
    OrderConsistent(a.key, b.key, c.key);
    OrderConsistent(b.key, c.key, a.key);
    OrderConsistent(c.key, a.key, b.key);
    hide CompareValues, AllNumbers, NoNumbers;
  }

  lemma Rotated(a: string, b: string, c: string)
    requires AllNumbers([a, b, c]) || NoNumbers([a, b, c])
    ensures AllNumbers([b, c, a]) || NoNumbers([b, c, a])
    ensures AllNumbers([c, a, b]) || NoNumbers([c, a, b])
  {
    hide IsNumber;
    var keys := [a, b, c];
    assert keys[0] == a && keys[1] == b && keys[2] == c;
  }

  /** A uniform column is one of the columns that have to be sorted. */
  lemma {:induction false} UniformConsistent(entries: seq<Entry>)
    requires Uniform(entries)
    ensures Consistent(entries)
  {
    hide Uniform, CompareEntries;
    forall a <- entries, b <- entries, c <- entries | CompareEntries(a, b) <= 0 && CompareEntries(b, c) <= 0
      ensures CompareEntries(a, c) <= 0
    {
      UniformPart(entries, [a, b, c]);
      EntriesTransitive(a, b, c);
    }
  }

  /** For any entries there is a result that keeps the promise. */
  lemma {:induction false} SortExists(entries: seq<Entry>) returns (sorted: seq<Entry>)
    ensures SortResult(entries, sorted)
  {
    hide CompareEntries;
    sorted := entries;
    if entries != [] && Consistent(entries) {
      var e, rest := entries[0], entries[1..];
      assert entries == [e] + rest;
      assert Consistent(rest);
      hide Consistent;
      sorted := SortExists(rest);
      forall x | x in sorted ensures x in entries {
        SameMembers(sorted, rest, x);
      }
      sorted := Inserted(entries, sorted, e);
    }
  }

  lemma {:induction false} UniformPart(entries: seq<Entry>, part: seq<Entry>)
    requires Uniform(entries) && forall e <- part :: e in entries
    ensures Uniform(part)
  {
    hide IsNumber;
    forall k | 0 <= k < |part| ensures exists i :: 0 <= i < |entries| && KeysOf(entries)[i] == KeysOf(part)[k] {
      assert part[k] in part;
      var i :| 0 <= i < |entries| && entries[i] == part[k];
      assert KeysOf(entries)[i] == KeysOf(part)[k];
    }
  }

  lemma {:induction false} Inserted(entries: seq<Entry>, sorted: seq<Entry>, e: Entry) returns (more: seq<Entry>)
    requires Consistent(entries) && Sorted(sorted) && e in entries && forall x <- sorted :: x in entries
    ensures multiset(more) == multiset{e} + multiset(sorted) && Sorted(more)
  {
    hide Consistent, CompareEntries;
    if sorted == [] {
      more := [e];
    } else {
      var first, rest := sorted[0], sorted[1..];
      assert sorted == [first] + rest;
      if CompareEntries(e, first) <= 0 {
        forall x | x in sorted ensures CompareEntries(e, x) <= 0 {
          InOrder(entries, e, first, x);
        }
        more := [e] + sorted;
      } else {
        InOrder(entries, e, first, e);
        var later := Inserted(entries, rest, e);
        hide Sorted;
        more := Fronted(first, later, rest, e);
      }
    }
  }

  lemma Fronted(first: Entry, later: seq<Entry>, rest: seq<Entry>, e: Entry) returns (more: seq<Entry>)
    requires multiset(later) == multiset{e} + multiset(rest) && Sorted(later)
    requires CompareEntries(first, e) <= 0 && forall x <- rest :: CompareEntries(first, x) <= 0
    ensures more == [first] + later && Sorted(more)
  {
    hide CompareEntries;
    forall x | x in later ensures CompareEntries(first, x) <= 0 {
      assert x in multiset(later) && (x == e || x in multiset(rest));
      assert x != e ==> x in rest;
    }
    more := [first] + later;
  }

  lemma {:induction false} InOrder(entries: seq<Entry>, a: Entry, b: Entry, c: Entry)
    requires Consistent(entries) && a in entries && b in entries && c in entries
    ensures CompareEntries(a, b) == -CompareEntries(b, a)
    ensures CompareEntries(a, b) == 0 ==> a.offset == b.offset
    ensures CompareEntries(a, b) <= 0 && CompareEntries(b, c) <= 0 ==> CompareEntries(a, c) <= 0
  {
    Antisymmetric(a, b);
    hide CompareEntries;
  }

  lemma {:induction false} FilteredPermutes(a: seq<Entry>, b: seq<Entry>, op: string, value: string)
    requires multiset(a) == multiset(b)
    ensures multiset(Filtered(a, op, value)) == multiset(Filtered(b, op, value))
    decreases |a|
  {
    hide *;
    if a == [] {
      assert |b| == |multiset(b)| == 0;
    } else {
      var e, rest := a[0], a[1..];
      assert a == [e] + rest && [] + [e] == [e] && [] + rest == rest;
      var front, back := Extract(a, b);
      WithoutOne(rest, front, back, e);
      FilteredPermutes(rest, front + back, op, value);
      FilteredOut(front, e, back, op, value);
      FilteredOut([], e, rest, op, value);
    }
  }

  lemma Extract(a: seq<Entry>, b: seq<Entry>) returns (front: seq<Entry>, back: seq<Entry>)
    requires a != [] && multiset(a) == multiset(b)
    ensures b == front + [a[0]] + back
  {
    assert a[0] in multiset(a);
    assert a[0] in b;
    var k :| 0 <= k < |b| && b[k] == a[0];
    front, back := b[..k], b[k + 1..];
  }

  lemma {:induction false} FilteredOut(front: seq<Entry>, e: Entry, back: seq<Entry>, op: string, value: string)
    ensures multiset(Filtered(front + [e] + back, op, value)) ==
      multiset(Filtered([e], op, value)) + multiset(Filtered(front + back, op, value))
  {
    FilteredSplits(front, back, op, value);
    FilteredSplits(front + [e], back, op, value);
    FilteredSplits(front, [e], op, value);
    hide Filtered;
  }

  lemma WithoutOne(rest: seq<Entry>, front: seq<Entry>, back: seq<Entry>, e: Entry)
    requires multiset([e] + rest) == multiset(front + [e] + back)
    ensures multiset(rest) == multiset(front + back)
  {
    assert multiset([e] + rest) == multiset{e} + multiset(rest);
    assert multiset(front + [e] + back) == multiset{e} + multiset(front + back);
    assert multiset(rest) == multiset([e] + rest) - multiset{e};
  }

  lemma SameMembers<T>(a: seq<T>, b: seq<T>, e: T)
    requires multiset(a) == multiset(b)
    ensures e in a <==> e in b
  {
    assert e in multiset(a) <==> e in multiset(b);
  }

  lemma {:induction false} ComparablePermutes(a: seq<Entry>, b: seq<Entry>, value: string)
    requires multiset(a) == multiset(b) && Comparable(a, value)
    ensures Comparable(b, value)
  {
    hide IsNumber;
    forall i | 0 <= i < |b| ensures exists k :: 0 <= k < |a| && KeysOf(a)[k] == KeysOf(b)[i] {
      SameMembers(a, b, b[i]);
      var k :| 0 <= k < |a| && a[k] == b[i];
      assert KeysOf(a)[k] == KeysOf(b)[i];
    }
  }

  lemma {:induction false} DistinctPermutes(a: seq<Entry>, b: seq<Entry>)
    requires multiset(a) == multiset(b) && Distinct(a)
    ensures Distinct(b)
  {
    forall i, j | 0 <= i < j < |b| ensures b[i].offset != b[j].offset {
      SameMembers(a, b, b[i]);
      SameMembers(a, b, b[j]);
      if b[i] == b[j] {
        TwiceIn(b, i, j);
        var k :| 0 <= k < |a| && a[k] == b[i];
        OnceIn(a, k);
      }
    }
  }

  lemma TwiceIn(b: seq<Entry>, i: nat, j: nat)
    requires i < j < |b| && b[i] == b[j]
    ensures multiset(b)[b[i]] >= 2
  {
    assert b == b[..j] + b[j..];
    assert b[i] in b[..j] && b[j..][0] == b[j];
  }

  lemma OnceIn(a: seq<Entry>, k: nat)
    requires k < |a| && Distinct(a)
    ensures multiset(a)[a[k]] == 1
  {
    assert a == a[..k] + [a[k]] + a[k + 1..];
    assert a[k] !in a[..k] && a[k] !in a[k + 1..];
  }

  /** For a column of numbers and a number, or a column without any numbers: whatever qsort makes of
      the entries, wherever the search of a range query ends, the answer is exactly the offsets that
      filtering the entries in table order gives, as a multiset. */
  lemma {:induction false} RangeQueryExact(
      entries: seq<Entry>, sorted: seq<Entry>, op: string, value: string, p: nat)
    requires SortResult(entries, sorted) && Comparable(entries, value) && RangeOp(op)
    requires Boundary(sorted, op, value, p)
    ensures Split(sorted, op, value) && (Distinct(entries) ==> Distinct(sorted))
    ensures multiset(Answer(sorted, op, p)) == multiset(Filtered(entries, op, value))
  {
    hide Before, Filtered, Answer, Sorted, Comparing.OpHolds, Distinct;
    UniformConsistent(entries);
    ComparablePermutes(entries, sorted, value);
    SortedSplit(sorted, op, value);
    SplitAnswers(sorted, op, value, p);
    FilteredPermutes(sorted, entries, op, value);
    if Distinct(entries) {
      DistinctPermutes(entries, sorted);
    }
  }

  // ---------- Exactly when an answer is right ----------

  /** Wherever the search ends, the answer is what filtering the entries in table order gives. */
  ghost predicate Right(entries: seq<Entry>, sorted: seq<Entry>, op: string, value: string) {
    forall p :: Boundary(sorted, op, value, p) ==>
      multiset(Answer(sorted, op, p)) == multiset(Filtered(entries, op, value))
  }

  lemma {:induction false} BoundaryExists(entries: seq<Entry>, op: string, value: string) returns (p: nat)
    ensures p <= |entries| && Boundary(entries, op, value, p)
  {
    hide Before;
    p := |entries|;
    while p > 0 && !Before(op, entries[p - 1], value)
      invariant p <= |entries| && (p < |entries| ==> !Before(op, entries[p], value))
    {
      p := p - 1;
    }
  }

  lemma {:induction false} RightIfSplit(entries: seq<Entry>, sorted: seq<Entry>, op: string, value: string)
    requires multiset(sorted) == multiset(entries) && RangeOp(op) && Distinct(entries)
    ensures Right(entries, sorted, op, value) <==> Split(sorted, op, value)
  {
    hide Split, Boundary, Answer, Filtered, RangeOp, Distinct;
    DistinctPermutes(entries, sorted);
    FilteredPermutes(sorted, entries, op, value);
    if Split(sorted, op, value) {
      forall p: nat | Boundary(sorted, op, value, p)
        ensures p <= |sorted| && multiset(Answer(sorted, op, p)) == multiset(Filtered(entries, op, value))
      {
        SplitAnswers(sorted, op, value, p);
      }
    }
    if Right(entries, sorted, op, value) {
      var p := BoundaryExists(sorted, op, value);
      AnswerSplits(sorted, op, value, p);
    }
  }

  /** The value stands to the entries as they stand to each other: what comes before an entry that is
      before the value is before the value too. */
  predicate InStep(entries: seq<Entry>, op: string, value: string) {
    forall i, j | 0 <= i < |entries| && 0 <= j < |entries| && CompareEntries(entries[i], entries[j]) <= 0 ::
      Before(op, entries[j], value) ==> Before(op, entries[i], value)
  }

  /** The entries are all before the value, or none is. */
  predicate OneSide(entries: seq<Entry>, op: string, value: string) {
    forall i, j :: 0 <= i < |entries| && 0 <= j < |entries| && Before(op, entries[j], value) ==>
      Before(op, entries[i], value)
  }

  /** A column on which comparing is a consistent order is answered rightly if and only if the value is
      in step with its entries. */
  lemma {:induction false} ConsistentExactly(entries: seq<Entry>, sorted: seq<Entry>, op: string, value: string)
    requires SortResult(entries, sorted) && Consistent(entries) && Distinct(entries) && RangeOp(op)
    ensures Right(entries, sorted, op, value) <==> InStep(entries, op, value)
  {
    RightIfSplit(entries, sorted, op, value);
    hide Right, Before, CompareEntries, Consistent, RangeOp;
    if InStep(entries, op, value) {
      forall i, j | 0 <= i < j < |sorted| && Before(op, sorted[j], value) ensures Before(op, sorted[i], value) {
        SameMembers(sorted, entries, sorted[i]);
        SameMembers(sorted, entries, sorted[j]);
      }
    }
    if Split(sorted, op, value) {
      forall i, j | 0 <= i < |entries| && 0 <= j < |entries| &&
          CompareEntries(entries[i], entries[j]) <= 0 && Before(op, entries[j], value)
        ensures Before(op, entries[i], value)
      {
        SplitInStep(entries, sorted, op, value, i, j);
      }
    }
  }

  lemma {:induction false} SplitInStep(
      entries: seq<Entry>, sorted: seq<Entry>, op: string, value: string, i: nat, j: nat)
    requires SortResult(entries, sorted) && Consistent(entries) && Distinct(entries) && Split(sorted, op, value)
    requires i < |entries| && j < |entries|
    requires CompareEntries(entries[i], entries[j]) <= 0 && Before(op, entries[j], value)
    ensures Before(op, entries[i], value)
  {
    var e, f := entries[i], entries[j];
    SameMembers(sorted, entries, e);
    SameMembers(sorted, entries, f);
    InOrder(entries, e, f, e);
    hide Before, CompareEntries, Consistent;
    var a :| 0 <= a < |sorted| && sorted[a] == e;
    var b :| 0 <= b < |sorted| && sorted[b] == f;
  }

  /** Any other column can be answered wrongly by some result of qsort, unless the value is beyond all
      its entries or before them all; then no result is wrong. */
  lemma {:induction false} InconsistentExactly(entries: seq<Entry>, op: string, value: string)
    requires !Consistent(entries) && Distinct(entries) && RangeOp(op)
    ensures (forall sorted :: SortResult(entries, sorted) ==> Right(entries, sorted, op, value)) <==>
      OneSide(entries, op, value)
  {
    hide Right, Before, Consistent, RangeOp, Distinct;
    if OneSide(entries, op, value) {
      forall sorted | SortResult(entries, sorted) ensures Right(entries, sorted, op, value) {
        RightIfSplit(entries, sorted, op, value);
        forall i, j | 0 <= i < j < |sorted| && Before(op, sorted[j], value) ensures Before(op, sorted[i], value) {
          SameMembers(sorted, entries, sorted[i]);
          SameMembers(sorted, entries, sorted[j]);
        }
      }
    } else {
      var i, j :| 0 <= i < |entries| && 0 <= j < |entries| &&
        Before(op, entries[j], value) && !Before(op, entries[i], value);
      var sorted := if i < j then entries else entries[i := entries[j]][j := entries[i]];
      assert multiset(sorted) == multiset(entries);
      RightIfSplit(entries, sorted, op, value);
      assert !Split(sorted, op, value);
    }
  }

  lemma CycleInconsistent(sorted: seq<Entry>)
    requires sorted == [Entry("10", 0), Entry("1a", 1), Entry("2", 2)]
    ensures !Consistent(sorted)
  {
    NotTransitive();
    var a, b, c := sorted[0], sorted[1], sorted[2];
    Antisymmetric(c, a);
    hide CompareValues;
    assert CompareEntries(a, b) <= 0 && CompareEntries(b, c) <= 0 && CompareEntries(a, c) > 0;
  }

  /** On three rows that are in no order qsort may leave any arrangement; of this one the search for less
      than 2 ends behind the row with 1a and so also gives the row with 10. */
  lemma {:induction false} MixedColumnFails(sorted: seq<Entry>)
    requires sorted == [Entry("10", 0), Entry("1a", 1), Entry("2", 2)]
    ensures !Consistent(sorted) && SortResult(sorted, sorted)
    ensures EndOf(sorted, "<", "2") == 2 && Boundary(sorted, "<", "2", 2)
    ensures Answer(sorted, "<", 2) == [0, 1] && Filtered(sorted, "<", "2") == [1]
  {
    hide *;
    CycleInconsistent(sorted);
    SortedItself(sorted);
    CycleBefore(sorted);
    SearchInThree(sorted);
    FilteredThree(sorted);
  }

  lemma SortedItself(entries: seq<Entry>)
    requires !Consistent(entries)
    ensures SortResult(entries, entries)
  {
    hide Consistent;
  }

  lemma CycleBefore(sorted: seq<Entry>)
    requires sorted == [Entry("10", 0), Entry("1a", 1), Entry("2", 2)]
    ensures !Before("<", sorted[0], "2") && Before("<", sorted[1], "2") && !Before("<", sorted[2], "2")
  {
    KnownNumbers();
    CompareNumbers("10", "2");
    CompareNumbers("2", "2");
    CompareStrings("1a", "2");
    hide CompareValues, IsNumber;
  }

  lemma SearchInThree(sorted: seq<Entry>)
    requires sorted == [Entry("10", 0), Entry("1a", 1), Entry("2", 2)]
    requires !Before("<", sorted[0], "2") && Before("<", sorted[1], "2") && !Before("<", sorted[2], "2")
    ensures EndOf(sorted, "<", "2") == 2 && Boundary(sorted, "<", "2", 2)
    ensures Answer(sorted, "<", 2) == [0, 1]
  {
    hide Before;
    assert SearchEnd(sorted, "<", "2", 2, 2) == 2;
    assert SearchEnd(sorted, "<", "2", 2, 3) == 2;
  }

  lemma FilteredThree(sorted: seq<Entry>)
    requires sorted == [Entry("10", 0), Entry("1a", 1), Entry("2", 2)]
    requires !Before("<", sorted[0], "2") && Before("<", sorted[1], "2") && !Before("<", sorted[2], "2")
    ensures Filtered(sorted, "<", "2") == [1]
  {
    assert Passed(sorted[0], "<", "2") == [] && Passed(sorted[1], "<", "2") == [1] && Passed(sorted[2], "<", "2") == [];
    hide CompareValues, Before, Filtered, Passed;
    FilteredEnds(sorted, "<", "2");
    FilteredEnds(sorted[1..], "<", "2");
    FilteredEnds(sorted[2..], "<", "2");
    FilteredEnds(sorted[3..], "<", "2");
  }

  /** A column of integers alone, sorted as it should be, and a value that is no integer: the search for
      less than 1a also gives the row with 9. */
  lemma {:induction false} IntegersFail(entries: seq<Entry>)
    requires entries == [Entry("9", 0), Entry("10", 1)]
    ensures AllNumbers(KeysOf(entries)) && SortResult(entries, entries) && !InStep(entries, "<", "1a")
    ensures EndOf(entries, "<", "1a") == 2 && Boundary(entries, "<", "1a", 2)
    ensures Answer(entries, "<", 2) == [0, 1] && Filtered(entries, "<", "1a") == [1]
  {
    KnownNumbers();
    CompareNumbers("9", "10");
    CompareStrings("9", "1a");
    CompareStrings("10", "1a");
    assert StrCmp("10", "1a") == StrCmp("10"[1..], "1a"[1..]);
    assert !Before("<", entries[0], "1a") && Before("<", entries[1], "1a");
    assert CompareEntries(entries[0], entries[1]) <= 0;
    hide CompareValues, IsNumber, Before, CompareEntries, Filtered;
    assert KeysOf(entries) == ["9", "10"];
    FilteredEnds(entries, "<", "1a");
    FilteredEnds(entries[1..], "<", "1a");
    FilteredEnds(entries[2..], "<", "1a");
  }

  // ---------- The entries of a table ----------

  function EntriesOf(table: TableData, column: nat): seq<Entry>
    requires HashIndex.HasColumn(table, column)
  {
    seq(|table.rows|, i requires 0 <= i < |table.rows| => Entry(HashIndex.CellAt(table, column, i), table.offsets[i]))
  }

  /** The range half of index_build, up to the call of qsort: it fails on a cell too long for an
      entry's key. */
  method FillEntries(table: TableData, column: nat) returns (r: Option<seq<Entry>>)
    requires HashIndex.HasColumn(table, column)
    ensures r.Some? <==> forall i :: 0 <= i < |table.rows| ==> |HashIndex.CellAt(table, column, i)| < MAX_VALUE_LEN
    ensures r.Some? ==> r.value == EntriesOf(table, column)
  {
    var entries: seq<Entry> := [];
    var i := 0;
    hide HashIndex.HasColumn, HashIndex.CellAt;
    while i < |table.rows|
      invariant i <= |table.rows| && entries == EntriesOf(table, column)[..i]
      invariant forall k :: 0 <= k < i ==> |HashIndex.CellAt(table, column, k)| < MAX_VALUE_LEN
    {
      var cell := HashIndex.CellAt(table, column, i);
      if |cell| >= MAX_VALUE_LEN {
        return None;
      }
      entries := entries + [Entry(cell, OffsetAt(table, column, i))];
      i := i + 1;
    }
    return Some(entries);
  }

  function OffsetAt(table: TableData, column: nat, i: nat): nat
    requires HashIndex.HasColumn(table, column) && i < |table.rows|
  {
    table.offsets[i]
  }

  /** What is supposed of qsort. */
  ghost predicate Sorts(qsort: seq<Entry> -> seq<Entry>) {
    forall entries :: SortResult(entries, qsort(entries))
  }

  /** index_build: both indexes of a column. */
  method BuildIndex(table: TableData, column: nat, qsort: seq<Entry> -> seq<Entry>)
    returns (r: Option<seq<Entry>>, equality: HashIndex.EqualityIndex)
    requires HashIndex.HasColumn(table, column) && Sorts(qsort)
    ensures r.Some? <==> forall i :: 0 <= i < |table.rows| ==> |HashIndex.CellAt(table, column, i)| < MAX_VALUE_LEN
    ensures r.Some? ==> SortResult(EntriesOf(table, column), r.value)
    ensures fresh(equality) && equality.Valid() && HashIndex.Covers(equality, table, column, |table.rows|)
  {
    hide SortResult;
    equality := HashIndex.BuildEquality(table, column, HashIndex.HashString);
    r := FillEntries(table, column);
    if r.Some? {
      r := Some(qsort(r.value));
    }
  }

  /** For any file that loads: the entries of a column have distinct offsets, and reading the file at
      the offsets a filter lets through gives rows whose cells pass, and every such row is among them. */
  lemma {:induction false} FilterLeads(file: string, column: nat, op: string, value: string, i: nat)
    requires Loaded(file).Ok? && column < |Loaded(file).value.columns| && i < |Loaded(file).value.rows|
    ensures var table := Loaded(file).value;
      HashIndex.HasColumn(table, column) && Distinct(EntriesOf(table, column)) &&
      RowAt(file, table.offsets[i], |table.columns|) == Ok(table.rows[i]) &&
      (table.offsets[i] in Filtered(EntriesOf(table, column), op, value) <==>
       Comparing.ValuesStand(op, table.rows[i][column], value))
  {
    LoadedEven(file);
    var table := Loaded(file).value;
    Comparing.OperatorsMean(op, table.rows[i][column], value);
    hide Loaded, RowAt, CompareValues, Comparing.OpHolds, Comparing.ValuesStand, Comparing.IsLongText,
      Comparing.IntegersStand, Comparing.TextsStand, StrCmp, CompareIntegers;
    var entries := EntriesOf(table, column);
    FilteredIn(entries, op, value, table.offsets[i]);
    hide Filtered;
    assert entries[i] == Entry(table.rows[i][column], table.offsets[i]);
    assert forall k :: 0 <= k < |entries| ==> entries[k].offset == table.offsets[k];
  }

  /** From the file to the answer: on a column of integers and an integer, or a column with none, a range
      query gives exactly the offsets that lead to the rows of the file that pass, each once. */
  lemma {:induction false} RangeQueryLeads(
      file: string, column: nat, sorted: seq<Entry>, op: string, value: string, p: nat)
    requires Loaded(file).Ok? && column < |Loaded(file).value.columns| && op in ["<", "<=", ">", ">="]
    requires HashIndex.HasColumn(Loaded(file).value, column)
    requires SortResult(EntriesOf(Loaded(file).value, column), sorted)
    requires Comparable(EntriesOf(Loaded(file).value, column), value)
    requires Boundary(sorted, op, value, p)
    ensures var table := Loaded(file).value;
      var answer := Answer(sorted, op, p);
      Distinct(sorted) && (forall i, j :: 0 <= i < j < |answer| ==> answer[i] != answer[j]) &&
      (forall x <- answer :: x in table.offsets) &&
      forall i :: 0 <= i < |table.rows| ==>
        RowAt(file, table.offsets[i], |table.columns|) == Ok(table.rows[i]) &&
        (table.offsets[i] in answer <==> Comparing.ValuesStand(op, table.rows[i][column], value))
  {
    var table := Loaded(file).value;
    var entries := EntriesOf(table, column);
    hide Loaded, RowAt, CompareValues, Comparing.OpHolds, Comparing.ValuesStand, Comparing.IsLongText,
      Comparing.IntegersStand, Comparing.TextsStand, StrCmp, CompareIntegers, Boundary, SortResult, Comparable;
    assert RangeOp(op);
    hide RangeOp;
    LoadedEven(file);
    RangeQueryExact(entries, sorted, op, value, p);
    var answer := Answer(sorted, op, p);
    hide Filtered;
    forall i | 0 <= i < |table.rows|
      ensures table.offsets[i] in answer <==> Comparing.ValuesStand(op, table.rows[i][column], value)
    {
      FilterLeads(file, column, op, value, i);
      SameMembers(answer, Filtered(entries, op, value), table.offsets[i]);
    }
    forall x | x in answer ensures x in table.offsets {
      SameMembers(answer, Filtered(entries, op, value), x);
      FilteredIn(entries, op, value, x);
    }
    AnswerDistinct(sorted, op, p);
  }

  lemma AnswerDistinct(sorted: seq<Entry>, op: string, p: nat)
    requires Distinct(sorted) && p <= |sorted|
    ensures forall i, j :: 0 <= i < j < |Answer(sorted, op, p)| ==> Answer(sorted, op, p)[i] != Answer(sorted, op, p)[j]
  {
  }
}
