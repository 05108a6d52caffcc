/** Changed lines as the coverage gate reports them (scripts/check_diff_coverage.py,
    format_line_ranges). */
module LineRanges {
  import opened DiffReader
  import opened Wrappers

  datatype Range = Range(first: nat, last: nat)

  predicate NoDuplicates(numbers: seq<nat>) {
    forall i, j :: 0 <= i < j < |numbers| ==> numbers[i] != numbers[j]
  }

  predicate IsSorted(numbers: seq<nat>) {
    forall i, j :: 0 <= i < j < |numbers| ==> numbers[i] <= numbers[j]
  }

  function Insert(n: nat, numbers: seq<nat>): seq<nat> {
    if numbers == [] then [n]
    else if n <= numbers[0] then [n] + numbers
    else [numbers[0]] + Insert(n, numbers[1..])
  }

  /** sorted(numbers) */
  function Sort(numbers: seq<nat>): seq<nat> {
    if numbers == [] then [] else Insert(numbers[0], Sort(numbers[1..]))
  }

  lemma {:induction false} InsertKeeps(n: nat, numbers: seq<nat>)
    ensures multiset(Insert(n, numbers)) == multiset(numbers) + multiset{n}
  {
    if numbers != [] && n > numbers[0] {
      InsertKeeps(n, numbers[1..]);
      assert numbers == [numbers[0]] + numbers[1..];
    }
  }

  lemma ConsSorted(n: nat, rest: seq<nat>)
    requires IsSorted(rest) && forall m :: m in rest ==> n <= m
    ensures IsSorted([n] + rest)
  {
    var all := [n] + rest;
    forall i, j | 0 <= i < j < |all| ensures all[i] <= all[j] {
      assert all[j] == rest[j - 1] && rest[j - 1] in rest;
      if i > 0 { assert all[i] == rest[i - 1]; }
    }
  }

  lemma {:induction false} InsertSorts(n: nat, numbers: seq<nat>)
    requires IsSorted(numbers)
    ensures IsSorted(Insert(n, numbers))
  {
    if numbers == [] {
    } else if n <= numbers[0] {
      assert forall m :: m in numbers ==> numbers[0] <= m;
      hide IsSorted;
      ConsSorted(n, numbers);
    } else {
      var rest := Insert(n, numbers[1..]);
      assert forall m :: m in numbers[1..] ==> numbers[0] <= m;
      InsertSorts(n, numbers[1..]);
      InsertKeeps(n, numbers[1..]);
      hide IsSorted;
      forall m | m in rest ensures numbers[0] <= m { assert m in multiset(rest); }
      ConsSorted(numbers[0], rest);
    }
  }

  lemma {:induction false} SortSorts(numbers: seq<nat>)
    ensures IsSorted(Sort(numbers)) && multiset(Sort(numbers)) == multiset(numbers)
  {
    if numbers != [] {
      assert numbers == [numbers[0]] + numbers[1..];
      SortSorts(numbers[1..]);
      InsertSorts(numbers[0], Sort(numbers[1..]));
      InsertKeeps(numbers[0], Sort(numbers[1..]));
    }
  }

  lemma SortKeeps(numbers: seq<nat>)
    ensures IsSorted(Sort(numbers)) && (NoDuplicates(Sort(numbers)) <==> NoDuplicates(numbers))
    ensures forall n :: n in Sort(numbers) <==> n in numbers
  {
    SortSorts(numbers);
    SameMultiplicity(numbers, Sort(numbers));
    hide Sort, NoDuplicates, IsSorted;
    forall n ensures n in Sort(numbers) <==> n in numbers {
      assert n in Sort(numbers) <==> n in multiset(Sort(numbers));
    }
  }

  predicate Holds(r: Range, n: nat) { r.first <= n <= r.last }

  predicate IsHeld(ranges: seq<Range>, n: nat) {
    exists i :: 0 <= i < |ranges| && Holds(ranges[i], n)
  }

  predicate AreProper(ranges: seq<Range>) {
    forall i :: 0 <= i < |ranges| ==> ranges[i].first <= ranges[i].last
  }

  /** Non-empty ranges in order, with a gap between any two. */
  predicate AreApart(ranges: seq<Range>) {
    AreProper(ranges) && forall i, j :: 0 <= i < j < |ranges| ==> ranges[i].last + 1 < ranges[j].first
  }

  ghost predicate Compress(numbers: seq<nat>, ranges: seq<Range>) {
    AreProper(ranges) && forall n: nat :: n in numbers <==> IsHeld(ranges, n)
  }

  /** The ranges hold exactly the numbers, and leave gaps unless a number was repeated. */
  method RangesOf(numbers: seq<nat>) returns (ranges: seq<Range>)
    ensures Compress(numbers, ranges)
    ensures AreApart(ranges) <==> NoDuplicates(numbers)
  {
    ranges := [];
    var sorted := Sort(numbers);
    SortKeeps(numbers);
    hide Sort, IsSorted;
    assert AreApart(ranges) && NoDuplicates(sorted[..0]);
    for k := 0 to |sorted|
      invariant Compress(sorted[..k], ranges) && (AreApart(ranges) <==> NoDuplicates(sorted[..k]))
      invariant if k == 0 then ranges == [] else ranges != [] && ranges[|ranges| - 1].last == sorted[k - 1]
    {
      var n := sorted[k];
      assert sorted[..k + 1] == sorted[..k] + [n];
      LastIsHighest(sorted, k, ranges);
      RepeatedOnce(sorted, k);
      hide IsHeld, AreApart, NoDuplicates, AreProper, Compress;
      if ranges != [] && n == ranges[|ranges| - 1].last + 1 {
        Lengthened(sorted[..k], ranges, n);
        ranges := ranges[|ranges| - 1 := ranges[|ranges| - 1].(last := n)];
      } else {
        Appended(sorted[..k], ranges, n);
        ranges := ranges + [Range(n, n)];
      }
    }
    assert sorted[..|sorted|] == sorted;
  }

  /** A number repeats the one before it, or none. */
  lemma RepeatedOnce(sorted: seq<nat>, k: nat)
    requires IsSorted(sorted) && k < |sorted|
    ensures NoDuplicates(sorted[..k] + [sorted[k]]) <==>
            NoDuplicates(sorted[..k]) && (k > 0 ==> sorted[k - 1] != sorted[k])
  {
    var more := sorted[..k] + [sorted[k]];
    if NoDuplicates(more) {
      forall i, j | 0 <= i < j < k ensures sorted[..k][i] != sorted[..k][j] {
        assert more[i] == sorted[i] && more[j] == sorted[j];
      }
      assert k > 0 ==> more[k - 1] != more[k];
    }
    if NoDuplicates(sorted[..k]) && (k > 0 ==> sorted[k - 1] != sorted[k]) {
      forall i, j | 0 <= i < j < |more| ensures more[i] != more[j] {
        if j == k { assert sorted[i] <= sorted[k - 1] < sorted[k]; } else { assert sorted[..k][i] != sorted[..k][j]; }
      }
    }
  }

  lemma {:induction false} OneOfEach(numbers: seq<nat>)
    ensures NoDuplicates(numbers) <==> forall n :: multiset(numbers)[n] <= 1
  {
    if numbers != [] {
      var rest := numbers[1..];
      assert numbers == [numbers[0]] + rest;
      OneOfEach(rest);
      if NoDuplicates(numbers) {
        forall i, j | 0 <= i < j < |rest| ensures rest[i] != rest[j] { assert numbers[i + 1] != numbers[j + 1]; }
        assert numbers[0] !in rest;
      }
      if forall n :: multiset(numbers)[n] <= 1 {
        assert forall n :: multiset(rest)[n] <= multiset(numbers)[n];
        assert numbers[0] !in multiset(rest);
        forall i, j | 0 <= i < j < |numbers| ensures numbers[i] != numbers[j] {
          assert numbers[j] == rest[j - 1] && rest[j - 1] in multiset(rest);
          if i > 0 { assert numbers[i] == rest[i - 1]; }
        }
      }
    }
  }

  lemma SameMultiplicity(a: seq<nat>, b: seq<nat>)
    requires multiset(a) == multiset(b)
    ensures NoDuplicates(a) <==> NoDuplicates(b)
  {
    OneOfEach(a);
    OneOfEach(b);
  }

  lemma LastIsHighest(numbers: seq<nat>, k: nat, ranges: seq<Range>)
    requires IsSorted(numbers) && k < |numbers| && Compress(numbers[..k], ranges)
    ensures forall i :: 0 <= i < |ranges| ==> ranges[i].last <= numbers[k]
  {
    forall i | 0 <= i < |ranges| ensures ranges[i].last <= numbers[k] {
      assert Holds(ranges[i], ranges[i].last) && IsHeld(ranges, ranges[i].last);
      assert ranges[i].last in numbers[..k];
    }
  }

  lemma Lengthened(numbers: seq<nat>, ranges: seq<Range>, n: nat)
    requires Compress(numbers, ranges) && ranges != [] && n == ranges[|ranges| - 1].last + 1
    ensures var longer := ranges[|ranges| - 1 := ranges[|ranges| - 1].(last := n)];
            Compress(numbers + [n], longer) && (AreApart(longer) <==> AreApart(ranges))
  {
    var k := |ranges| - 1;
    var longer := ranges[k := ranges[k].(last := n)];
    forall m: nat ensures m in numbers + [n] <==> IsHeld(longer, m) {
      if IsHeld(longer, m) {
        var i :| 0 <= i < |longer| && Holds(longer[i], m);
        assert m == n || Holds(ranges[i], m);
      }
      if IsHeld(ranges, m) {
        var i :| 0 <= i < |ranges| && Holds(ranges[i], m);
        assert Holds(longer[i], m);
      }
      assert Holds(longer[k], n);
    }
    hide IsHeld;
    assert forall i :: 0 <= i < k ==> longer[i] == ranges[i];
  }

  lemma Appended(numbers: seq<nat>, ranges: seq<Range>, n: nat)
    requires Compress(numbers, ranges) && forall i :: 0 <= i < |ranges| ==> ranges[i].last <= n
    requires ranges != [] ==> n != ranges[|ranges| - 1].last + 1
    ensures Compress(numbers + [n], ranges + [Range(n, n)])
    ensures AreApart(ranges + [Range(n, n)]) <==> AreApart(ranges) && (ranges != [] ==> n != ranges[|ranges| - 1].last)
  {
    var more := ranges + [Range(n, n)];
    forall m: nat ensures m in numbers + [n] <==> IsHeld(more, m) {
      if IsHeld(ranges, m) {
        var i :| 0 <= i < |ranges| && Holds(ranges[i], m);
        assert Holds(more[i], m);
      }
      assert Holds(more[|ranges|], n);
    }
    hide IsHeld;
    AppendedApart(ranges, n);
  }

  lemma AppendedApart(ranges: seq<Range>, n: nat)
    requires AreProper(ranges) && forall i :: 0 <= i < |ranges| ==> ranges[i].last <= n
    requires ranges != [] ==> n != ranges[|ranges| - 1].last + 1
    ensures AreApart(ranges + [Range(n, n)]) <==> AreApart(ranges) && (ranges != [] ==> n != ranges[|ranges| - 1].last)
  {
    var more, k := ranges + [Range(n, n)], |ranges|;
    assert forall i :: 0 <= i < k ==> more[i] == ranges[i];
    if AreApart(more) && k > 0 { assert more[k - 1].last + 1 < more[k].first; }
    if AreApart(ranges) && (k > 0 ==> n != ranges[k - 1].last) {
      forall i | 0 <= i < k ensures ranges[i].last + 1 < n {
        assert i < k - 1 ==> ranges[i].last + 1 < ranges[k - 1].first;
      }
    }
  }

  // ----- The ranges are the only ones -----

  lemma FirstRange(a: seq<Range>, b: seq<Range>)
    requires AreApart(a) && AreApart(b) && forall n: nat :: IsHeld(a, n) <==> IsHeld(b, n)
    ensures a != [] <==> b != []
    ensures a != [] ==> a[0] == b[0]
  {
    if a != [] { assert Holds(a[0], a[0].first) && IsHeld(a, a[0].first); }
    if b != [] { assert Holds(b[0], b[0].first) && IsHeld(b, b[0].first); }
    if a != [] {
      SameLast(a, b);
      SameLast(b, a);
    }
  }

  lemma SameLast(a: seq<Range>, b: seq<Range>)
    requires a != [] && b != [] && AreApart(a) && AreApart(b) && forall n: nat :: IsHeld(a, n) <==> IsHeld(b, n)
    requires a[0].first == b[0].first
    ensures a[0].last <= b[0].last
  {
    GapAfterFirst(b);
  }

  lemma GapAfterFirst(b: seq<Range>)
    requires b != [] && AreApart(b)
    ensures !IsHeld(b, b[0].last + 1)
  {
  }

  /** Ranges with gaps between them are determined by the numbers they hold. */
  lemma {:induction false} RangesAreUnique(a: seq<Range>, b: seq<Range>)
    requires AreApart(a) && AreApart(b) && forall n: nat :: IsHeld(a, n) <==> IsHeld(b, n)
    ensures a == b
    decreases |a|
  {
    FirstRange(a, b);
    if a != [] {
      forall n: nat ensures IsHeld(a[1..], n) <==> IsHeld(b[1..], n) {
        TailHolds(a, n);
        TailHolds(b, n);
      }
      RangesAreUnique(a[1..], b[1..]);
      assert a == [a[0]] + a[1..] && b == [b[0]] + b[1..];
    }
  }

  lemma TailHolds(a: seq<Range>, n: nat)
    requires a != [] && AreApart(a)
    ensures IsHeld(a[1..], n) <==> IsHeld(a, n) && n > a[0].last
  {
    if IsHeld(a[1..], n) {
      var i :| 0 <= i < |a[1..]| && Holds(a[1..][i], n);
      assert Holds(a[i + 1], n);
    }
    if IsHeld(a, n) && n > a[0].last {
      var i :| 0 <= i < |a| && Holds(a[i], n);
      assert Holds(a[1..][i - 1], n);
    }
  }

  // ----- The text -----

  function RangeText(r: Range): string {
    if r.first == r.last then Decimal(r.first) else Decimal(r.first) + "-" + Decimal(r.last)
  }

  /** ", ".join(...) */
  function Text(ranges: seq<Range>): string {
    if ranges == [] then "" else if |ranges| == 1 then RangeText(ranges[0])
                                 else RangeText(ranges[0]) + ", " + Text(ranges[1..])
  }

  function Tail(ranges: seq<Range>): string {
    if ranges == [] then "" else ", " + Text(ranges)
  }

  lemma TextStarts(ranges: seq<Range>)
    requires ranges != []
    ensures Text(ranges) == RangeText(ranges[0]) + Tail(ranges[1..])
  {
    if |ranges| == 1 { assert RangeText(ranges[0]) + "" == RangeText(ranges[0]); }
  }

  lemma RangeReads(r: Range, rest: string)
    requires r.first <= r.last && (rest == [] || rest[0] == ',')
    ensures var first := TakeNumber(RangeText(r) + rest);
            && first.Some? && first.value.0 == r.first
            && (r.first == r.last ==> first.value.1 == rest)
            && (r.first < r.last ==>
                  && first.value.1 != [] && first.value.1[0] == '-'
                  && TakeNumber(first.value.1[1..]) == Some((r.last, rest)))
  {
    hide Decimal, TakeNumber;
    if r.first == r.last {
      NumberReadsBack(r.first, rest);
    } else {
      var tail := ['-'] + (Decimal(r.last) + rest);
      NumberReadsBack(r.first, tail);
      NumberReadsBack(r.last, rest);
      assert RangeText(r) + rest == Decimal(r.first) + tail;
      assert tail[1..] == Decimal(r.last) + rest;
    }
  }

  lemma SameHead(r: Range, q: Range, restR: string, restQ: string)
    requires r.first <= r.last && q.first <= q.last && RangeText(r) + restR == RangeText(q) + restQ
    requires (restR == [] || restR[0] == ',') && (restQ == [] || restQ[0] == ',')
    ensures r == q && restR == restQ
  {
    RangeReads(r, restR);
    RangeReads(q, restQ);
    hide RangeText, TakeNumber;
  }

  lemma TailIs(ranges: seq<Range>)
    ensures ranges == [] ==> Tail(ranges) == []
    ensures ranges != [] ==> Tail(ranges) != [] && Tail(ranges)[0] == ',' && Tail(ranges)[2..] == Text(ranges)
  {
    hide Text;
  }

  /** The text of different ranges is different. */
  lemma {:induction false} TextIsFaithful(a: seq<Range>, b: seq<Range>)
    requires AreProper(a) && AreProper(b) && Text(a) == Text(b)
    ensures a == b
    decreases |a|
  {
    TextNotEmpty(a);
    TextNotEmpty(b);
    hide Text, RangeText, Tail;
    if a != [] {
      TextStarts(a);
      TextStarts(b);
      TailIs(a[1..]);
      TailIs(b[1..]);
      SameHead(a[0], b[0], Tail(a[1..]), Tail(b[1..]));
      if a[1..] != [] { TextIsFaithful(a[1..], b[1..]); }
      assert a == [a[0]] + a[1..] && b == [b[0]] + b[1..];
    }
  }

  lemma TextNotEmpty(ranges: seq<Range>)
    ensures ranges != [] <==> Text(ranges) != ""
  {
    if ranges != [] {
      TextStarts(ranges);
      DecimalIsNumber(ranges[0].first);
    }
  }

  /** The gate's report names the lines: two sets of lines have the same text only when
      they are the same. */
  lemma ReportNamesLines(a: seq<nat>, b: seq<nat>, ra: seq<Range>, rb: seq<Range>)
    requires Compress(a, ra) && Compress(b, rb) && Text(ra) == Text(rb)
    ensures forall n: nat :: n in a <==> n in b
  {
    TextIsFaithful(ra, rb);
  }
}
