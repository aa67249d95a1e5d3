/**
 Range normalisation and the exact-cover check of a trace projection.
 */
module SourceRanges {

  datatype Range = Range(start: int, end: int)

  datatype Result<+T> = Ok(value: T) | Err

  const MAX_SAFE: int := 0x1F_FFFF_FFFF_FFFF
  const MAX_RANGES := 256

  predicate Safe(n: int) { -MAX_SAFE <= n <= MAX_SAFE }

  predicate Before(a: Range, b: Range) {
    a.start < b.start || (a.start == b.start && a.end <= b.end)
  }

  predicate InBounds(r: Range, lower: int, upper: int) {
    Safe(r.start) && Safe(r.end) && lower <= r.start <= r.end <= upper
  }

  /** What the caller has to supply for the normal return. */
  predicate Acceptable(ranges: seq<Range>, lower: int, upper: int) {
    && Safe(upper) && lower <= upper && 0 < |ranges| <= MAX_RANGES
    && AllInBounds(ranges, lower, upper)
  }

  predicate AllInBounds(ranges: seq<Range>, lower: int, upper: int) {
    forall i | 0 <= i < |ranges| :: InBounds(ranges[i], lower, upper)
  }

  predicate Covers(ranges: seq<Range>, n: int) {
    exists i | 0 <= i < |ranges| :: ranges[i].start <= n <= ranges[i].end
  }

  predicate SameCover(a: seq<Range>, b: seq<Range>, n: int) {
    Covers(a, n) <==> Covers(b, n)
  }

  /** Non-empty ranges in ascending order, each separated from the next by a missing integer. */
  predicate Canonical(ranges: seq<Range>) {
    && (forall i | 0 <= i < |ranges| :: ranges[i].start <= ranges[i].end)
    && (forall i, j | 0 <= i < j < |ranges| :: ranges[i].end + 1 < ranges[j].start)
  }

  // ---------------------------------------------------------------- the library sort

  predicate Sorted(ranges: seq<Range>) {
    forall i, j | 0 <= i < j < |ranges| :: Before(ranges[i], ranges[j])
  }

  function Insert(r: Range, sorted: seq<Range>): (s: seq<Range>)
    ensures multiset(s) == multiset{r} + multiset(sorted)
  {
    if sorted == [] || Before(r, sorted[0]) then [r] + sorted
    else
      assert sorted == [sorted[0]] + sorted[1..];
      [sorted[0]] + Insert(r, sorted[1..])
  }

  function Sort(ranges: seq<Range>): (s: seq<Range>)
    ensures multiset(s) == multiset(ranges)
  {
    if ranges == [] then []
    else
      assert ranges == [ranges[0]] + ranges[1..];
      Insert(ranges[0], Sort(ranges[1..]))
  }

  lemma {:induction false} InsertSorted(r: Range, sorted: seq<Range>)
    requires Sorted(sorted)
    ensures Sorted(Insert(r, sorted))
  {
    if sorted != [] && !Before(r, sorted[0]) {
      var rest := Insert(r, sorted[1..]);
      InsertSorted(r, sorted[1..]);
      forall j | 0 <= j < |rest| ensures Before(sorted[0], rest[j]) {
        assert rest[j] in multiset(rest);
        assert rest[j] == r || rest[j] in multiset(sorted[1..]);
      }
    }
  }

  lemma {:induction false} SortSorted(ranges: seq<Range>)
    ensures Sorted(Sort(ranges))
  {
    if ranges != [] {
      SortSorted(ranges[1..]);
      InsertSorted(ranges[0], Sort(ranges[1..]));
    }
  }

  lemma SortMember(ranges: seq<Range>, r: Range)
    ensures r in Sort(ranges) <==> r in ranges
  {
    assert r in Sort(ranges) <==> multiset(Sort(ranges))[r] > 0;
    assert r in ranges <==> multiset(ranges)[r] > 0;
  }

  lemma SortMembers(ranges: seq<Range>)
    ensures |Sort(ranges)| == |ranges|
    ensures forall r :: r in Sort(ranges) <==> r in ranges
  {
    assert |multiset(Sort(ranges))| == |multiset(ranges)|;
    forall r ensures r in Sort(ranges) <==> r in ranges { SortMember(ranges, r); }
  }

  // ---------------------------------------------------------------- normalisation

  /** Sorted, gapped, and covering exactly the integers of the input. */
  method NormalizeRanges(ranges: seq<Range>, lower: int, upper: int) returns (r: Result<seq<Range>>)
    ensures r.Ok? <==> Acceptable(ranges, lower, upper)
    ensures r.Ok? ==> Canonical(r.value) && forall n :: SameCover(r.value, ranges, n)
    ensures r.Ok? ==> 0 < |r.value| <= |ranges| && AllInBounds(r.value, lower, upper)
    ensures r.Ok? ==> r.value == NormalForm(ranges)
  {
    if !Safe(upper) || upper < lower || ranges == [] || |ranges| > MAX_RANGES { return Err; }
    r := MergeSorted(Sort(ranges), lower, upper);
    if r.Ok? { NormalizedWhole(ranges, lower, upper); } else { SortBounds(ranges, lower, upper); }
  }

  /** The loop, on ranges in sorted order. */
  method MergeSorted(sorted: seq<Range>, lower: int, upper: int) returns (r: Result<seq<Range>>)
    ensures r.Ok? <==> AllInBounds(sorted, lower, upper)
    ensures r.Ok? ==> r.value == Merged(sorted, |sorted|)
  {
    var result: seq<Range> := [];
    var k := 0;
    while k < |sorted|
      invariant k <= |sorted| && result == Merged(sorted, k)
      invariant forall i | 0 <= i < k :: InBounds(sorted[i], lower, upper)
    {
      var range := sorted[k];
      if !Safe(range.start) || !Safe(range.end) || range.start < lower || range.end < range.start || range.end > upper {
        return Err;
      }
      var last := |result| - 1;
      if last >= 0 && (range.start <= result[last].end || range.start - result[last].end == 1) {
        result := result[last :=
                         result[last].(end := if range.end > result[last].end then range.end else result[last].end)];
      } else {
        result := result + [range];
      }
      k := k + 1;
    }
    r := Ok(result);
  }

  lemma SortBounds(ranges: seq<Range>, lower: int, upper: int)
    ensures AllInBounds(Sort(ranges), lower, upper) <==> AllInBounds(ranges, lower, upper)
  {
    SortMembers(ranges);
    var sorted := Sort(ranges);
    assert forall i | 0 <= i < |ranges| :: ranges[i] in sorted;
    assert forall i | 0 <= i < |sorted| :: sorted[i] in ranges;
  }

  predicate Normal(result: seq<Range>, lower: int, upper: int) {
    Canonical(result) && AllInBounds(result, lower, upper)
  }

  /** One round of the loop: the next range in sorted order extends the last one or starts a new one. */
  function Absorb(result: seq<Range>, range: Range): seq<Range> {
    var last := |result| - 1;
    if last >= 0 && (range.start <= result[last].end || range.start - result[last].end == 1)
    then result[last := result[last].(end := if range.end > result[last].end then range.end else result[last].end)]
    else result + [range]
  }

  lemma AbsorbKeeps(result: seq<Range>, done: seq<Range>, range: Range, lower: int, upper: int)
    requires Normal(result, lower, upper) && InBounds(range, lower, upper)
    requires forall i | 0 <= i < |result| :: result[i].start <= range.start
    requires forall n :: SameCover(result, done, n)
    ensures Normal(Absorb(result, range), lower, upper)
    ensures forall i | 0 <= i < |Absorb(result, range)| :: Absorb(result, range)[i].start <= range.start
    ensures forall n :: SameCover(Absorb(result, range), done + [range], n)
  {
    var last := |result| - 1;
    if last >= 0 && (range.start <= result[last].end || range.start - result[last].end == 1) {
      MergeCovers(result, done, range);
      assert forall i | 0 <= i < last :: Absorb(result, range)[i] == result[i];
      assert Absorb(result, range)[last].start == result[last].start;
    } else {
      AppendCovers(result, done, range);
    }
  }

  function Merged(sorted: seq<Range>, k: nat): seq<Range>
    requires k <= |sorted|
  {
    if k == 0 then [] else Absorb(Merged(sorted, k - 1), sorted[k - 1])
  }

  lemma {:induction false} MergedNormal(sorted: seq<Range>, k: nat, lower: int, upper: int)
    requires k <= |sorted| && Sorted(sorted) && AllInBounds(sorted, lower, upper)
    ensures Normal(Merged(sorted, k), lower, upper) && |Merged(sorted, k)| <= k && (k > 0 ==> |Merged(sorted, k)| > 0)
    ensures k > 0 ==> forall i | 0 <= i < |Merged(sorted, k)| :: Merged(sorted, k)[i].start <= sorted[k - 1].start
    ensures forall n :: SameCover(Merged(sorted, k), sorted[..k], n)
  {
    if k > 0 {
      MergedNormal(sorted, k - 1, lower, upper);
      assert sorted[..k] == sorted[..k - 1] + [sorted[k - 1]];
      if k > 1 { assert Before(sorted[k - 2], sorted[k - 1]); }
      AbsorbKeeps(Merged(sorted, k - 1), sorted[..k - 1], sorted[k - 1], lower, upper);
    }
  }

  function NormalForm(ranges: seq<Range>): seq<Range> {
    Merged(Sort(ranges), |Sort(ranges)|)
  }

  lemma NormalizedWhole(ranges: seq<Range>, lower: int, upper: int)
    requires AllInBounds(Sort(ranges), lower, upper)
    ensures Normal(NormalForm(ranges), lower, upper) && |NormalForm(ranges)| <= |ranges|
    ensures ranges != [] ==> NormalForm(ranges) != []
    ensures forall n :: SameCover(NormalForm(ranges), ranges, n)
    ensures AllInBounds(ranges, lower, upper)
  {
    var sorted := Sort(ranges);
    SortSorted(ranges);
    SortMembers(ranges);
    MergedNormal(sorted, |sorted|, lower, upper);
    assert sorted[..|sorted|] == sorted;
    forall n ensures SameCover(NormalForm(ranges), ranges, n) {
      assert SameCover(NormalForm(ranges), sorted, n); SortCovers(ranges, n);
    }
    SortBounds(ranges, lower, upper);
  }

  /** One normal form for every set of integers: equal covers give equal output, and normalising
      twice changes nothing. */
  lemma NormalFormIsCanonical(a: seq<Range>, b: seq<Range>, lower: int, upper: int)
    requires Acceptable(a, lower, upper) && Acceptable(b, lower, upper)
    ensures (forall n :: SameCover(a, b, n)) <==> NormalForm(a) == NormalForm(b)
    ensures NormalForm(NormalForm(a)) == NormalForm(a)
    ensures NormalForm(a) == a <==> Canonical(a)
  {
    SortBounds(a, lower, upper);
    SortBounds(b, lower, upper);
    NormalizedWhole(a, lower, upper);
    NormalizedWhole(b, lower, upper);
    var na, nb := NormalForm(a), NormalForm(b);
    if forall n :: SameCover(a, b, n) {
      forall n ensures SameCover(na, nb, n) { assert SameCover(na, a, n) && SameCover(a, b, n) && SameCover(nb, b, n); }
      CanonicalUnique(na, nb);
    }
    if na == nb {
      forall n ensures SameCover(a, b, n) { assert SameCover(na, a, n) && SameCover(nb, b, n); }
    }
    SortBounds(na, lower, upper);
    NormalizedWhole(na, lower, upper);
    CanonicalUnique(NormalForm(na), na);
    if Canonical(a) { CanonicalUnique(na, a); }
  }

  lemma SortCovers(ranges: seq<Range>, n: int)
    ensures SameCover(Sort(ranges), ranges, n)
  {
    SortMembers(ranges);
    if Covers(ranges, n) {
      var i :| 0 <= i < |ranges| && ranges[i].start <= n <= ranges[i].end;
      assert ranges[i] in ranges && ranges[i] in Sort(ranges);
    }
    if Covers(Sort(ranges), n) {
      var i :| 0 <= i < |Sort(ranges)| && Sort(ranges)[i].start <= n <= Sort(ranges)[i].end;
      assert Sort(ranges)[i] in Sort(ranges) && Sort(ranges)[i] in ranges;
    }
  }

  lemma CoversAppend(a: seq<Range>, r: Range, n: int)
    ensures Covers(a + [r], n) <==> Covers(a, n) || r.start <= n <= r.end
  {
    var all := a + [r];
    assert all[|a|] == r;
    if Covers(a, n) {
      var i :| 0 <= i < |a| && a[i].start <= n <= a[i].end;
      assert all[i] == a[i];
    }
  }

  lemma AppendCovers(result: seq<Range>, done: seq<Range>, range: Range)
    requires forall n :: SameCover(result, done, n)
    ensures forall n :: SameCover(result + [range], done + [range], n)
  {
    forall n ensures SameCover(result + [range], done + [range], n) {
      assert SameCover(result, done, n);
      CoversAppend(result, range, n);
      CoversAppend(done, range, n);
    }
  }

  /** Extending the last range by an overlapping or adjacent one adds exactly that one's integers. */
  lemma MergeCovers(result: seq<Range>, done: seq<Range>, range: Range)
    requires result != [] && var last := result[|result| - 1];
             last.start <= range.start <= last.end + 1 && range.start <= range.end
    requires forall n :: SameCover(result, done, n)
    ensures forall n :: SameCover(Absorb(result, range), done + [range], n)
  {
    var last, front := result[|result| - 1], result[..|result| - 1];
    var grown := last.(end := if range.end > last.end then range.end else last.end);
    assert result == front + [last] && Absorb(result, range) == front + [grown];
    forall n ensures SameCover(Absorb(result, range), done + [range], n) {
      assert SameCover(result, done, n);
      CoversAppend(front, last, n);
      CoversAppend(front, grown, n);
      CoversAppend(done, range, n);
    }
  }

  /** Two canonical lists that cover the same integers are equal. */
  lemma {:induction false} CanonicalUnique(a: seq<Range>, b: seq<Range>)
    requires Canonical(a) && Canonical(b) && forall n :: SameCover(a, b, n)
    ensures a == b
  {
    assert a != [] ==> SameCover(a, b, a[0].start) && Covers(a, a[0].start);
    assert b != [] ==> SameCover(a, b, b[0].start) && Covers(b, b[0].start);
    if a != [] && b != [] {
      FirstRangeSame(a, b);
      var ta, tb := a[1..], b[1..];
      assert a == [a[0]] + ta && b == [b[0]] + tb;
      forall n ensures SameCover(ta, tb, n) {
        assert SameCover(a, b, n);
      }
      CanonicalUnique(ta, tb);
    }
  }

  lemma FirstRangeSame(a: seq<Range>, b: seq<Range>)
    requires Canonical(a) && Canonical(b) && a != [] && b != [] && forall n :: SameCover(a, b, n)
    ensures a[0] == b[0]
  {
    assert Covers(a, a[0].start) && SameCover(a, b, a[0].start);
    assert Covers(b, b[0].start) && SameCover(a, b, b[0].start);
    assert a[0].start == b[0].start;
    forall n ensures SameCover(b, a, n) { assert SameCover(a, b, n); }
    EndOfFirst(a, b);
    EndOfFirst(b, a);
  }

  lemma EndOfFirst(a: seq<Range>, b: seq<Range>)
    requires Canonical(a) && Canonical(b) && a != [] && b != [] && forall n :: SameCover(a, b, n)
    requires a[0].start == b[0].start
    ensures a[0].end <= b[0].end
  {
    // The integer after the first range of b is missing from b.
    assert !Covers(b, b[0].end + 1);
    assert SameCover(a, b, b[0].end + 1);
  }

  // ---------------------------------------------------------------- the schema's canonical form check

  function MaxEnd(ranges: seq<Range>): int
    requires ranges != []
  {
    if |ranges| == 1 || ranges[0].end >= MaxEnd(ranges[1..]) then ranges[0].end else MaxEnd(ranges[1..])
  }

  lemma {:induction false} MaxEndBounds(ranges: seq<Range>)
    requires ranges != []
    ensures forall i | 0 <= i < |ranges| :: ranges[i].end <= MaxEnd(ranges)
    ensures exists i | 0 <= i < |ranges| :: ranges[i].end == MaxEnd(ranges)
  {
    if ranges[0].end == MaxEnd(ranges) { assert 0 < |ranges|; }
    if |ranges| > 1 {
      MaxEndBounds(ranges[1..]);
      assert ranges == [ranges[0]] + ranges[1..];
      var i :| 0 <= i < |ranges[1..]| && ranges[1..][i].end == MaxEnd(ranges[1..]);
      assert ranges[i + 1] == ranges[1..][i];
    }
  }

  /** What the schema says of the single ranges, before the refinement. */
  predicate WellShaped(ranges: seq<Range>, lower: int) {
    && 0 < |ranges| <= MAX_RANGES
    && forall i | 0 <= i < |ranges| ::
         Safe(ranges[i].start) && Safe(ranges[i].end) && lower <= ranges[i].start <= ranges[i].end
  }

  /** The integers that a list may cover: safe ones from the lower bound on. */
  predicate Allowed(n: int, lower: int) {
    lower <= n && -9007199254740991 <= n <= 9007199254740991
  }

  lemma EndsCovered(ranges: seq<Range>, i: nat)
    requires Canonical(ranges) && i < |ranges|
    ensures Covers(ranges, ranges[i].start) && Covers(ranges, ranges[i].end)
  {
    assert ranges[i].start <= ranges[i].end;
  }

  lemma ShapeCovers(ranges: seq<Range>, lower: int)
    requires Canonical(ranges)
    ensures WellShaped(ranges, lower) ==> forall n | Covers(ranges, n) :: Allowed(n, lower)
    ensures 0 < |ranges| <= 256 && (forall n | Covers(ranges, n) :: Allowed(n, lower)) ==> WellShaped(ranges, lower)
  {
    if forall n | Covers(ranges, n) :: Allowed(n, lower) {
      forall i | 0 <= i < |ranges|
        ensures Allowed(ranges[i].start, lower) && Allowed(ranges[i].end, lower)
      {
        EndsCovered(ranges, i);
      }
    }
  }

  /** The schema accepts a list of ranges exactly when it is canonical, not empty, not longer than 256, and covers
      safe integers from the lower bound on. */
  method CanonicalRanges(ranges: seq<Range>, lower: int) returns (ok: bool)
    ensures ok <==>
              Canonical(ranges) && 0 < |ranges| <= 256
              && forall n | Covers(ranges, n) :: Allowed(n, lower)
  {
    if Canonical(ranges) { ShapeCovers(ranges, lower); }
    if !WellShaped(ranges, lower) { return false; }
    MaxEndBounds(ranges);
    assert InBounds(ranges[0], lower, MaxEnd(ranges));
    var r := NormalizeRanges(ranges, lower, MaxEnd(ranges));
    NormalFormIsCanonical(ranges, ranges, lower, MaxEnd(ranges));
    ok := r.Ok? && r.value == ranges;
  }

  // ---------------------------------------------------------------- exact cover of a trace projection

  function Count(ranges: seq<Range>): int {
    if ranges == [] then 0 else ranges[0].end - ranges[0].start + 1 + Count(ranges[1..])
  }

  /** The selected record indexes in ascending order. */
  function Indices(ranges: seq<Range>): seq<int>
    requires forall i | 0 <= i < |ranges| :: ranges[i].start <= ranges[i].end
  {
    if ranges == [] then []
    else seq(ranges[0].end - ranges[0].start + 1, k => ranges[0].start + k) + Indices(ranges[1..])
  }

  predicate Increasing(s: seq<int>) {
    forall i, j | 0 <= i < j < |s| :: s[i] < s[j]
  }

  lemma {:induction false} IndicesEnumerate(ranges: seq<Range>)
    requires Canonical(ranges)
    ensures |Indices(ranges)| == Count(ranges) && Increasing(Indices(ranges))
    ensures forall n :: n in Indices(ranges) <==> Covers(ranges, n)
  {
    if ranges != [] {
      var first, rest := ranges[0], ranges[1..];
      var head, tail := seq(first.end - first.start + 1, k => first.start + k), Indices(rest);
      assert ranges == [first] + rest;
      IndicesEnumerate(rest);
      forall j | 0 <= j < |tail| ensures tail[j] > first.end {
        assert tail[j] in tail;
      }
      forall n ensures n in head + tail <==> Covers(ranges, n) {
        if first.start <= n <= first.end { assert head[n - first.start] == n && Covers(ranges, n); }
      }
    }
  }

  lemma {:induction false} NotBelow(a: seq<int>, b: seq<int>, i: nat)
    requires Increasing(a) && Increasing(b) && (forall x | x in a :: x in b) && |a| <= |b| && i < |a|
    ensures b[i] <= a[i]
  {
    assert a[i] in a;
    var j :| 0 <= j < |b| && b[j] == a[i];
    if i > 0 { NotBelow(a, b, i - 1); }
  }

  lemma {:induction false} NotAbove(a: seq<int>, b: seq<int>, i: nat)
    requires Increasing(a) && Increasing(b) && (forall x | x in a :: x in b) && |a| == |b| && i < |a|
    ensures a[i] <= b[i]
    decreases |a| - i
  {
    assert a[i] in a;
    var j :| 0 <= j < |b| && b[j] == a[i];
    if i + 1 < |a| { NotAbove(a, b, i + 1); }
  }

  /** As many members as the whole, in strict order: it is the whole. */
  lemma FullSelection(a: seq<int>, b: seq<int>)
    requires Increasing(a) && Increasing(b) && (forall x | x in a :: x in b) && |a| == |b|
    ensures a == b
  {
    forall i | 0 <= i < |a| ensures a[i] == b[i] { NotBelow(a, b, i); NotAbove(a, b, i); }
  }

  /** The trace part of the projection check, on the record indexes of the raw units: no issue is
      raised exactly when the units enumerate the selected records. */
  method CheckTraceUnits(units: seq<int>, ranges: seq<Range>) returns (ok: bool)
    requires Canonical(ranges)
    ensures ok <==> units == Indices(ranges)
  {
    ok := true;
    var recordIndexes: set<int> := {};
    for ordinal := 0 to |units|
      invariant recordIndexes == set i | 0 <= i < ordinal :: units[i]
      invariant ok <==> Increasing(units[..ordinal]) && forall i | 0 <= i < ordinal :: Covers(ranges, units[i])
    {
      var index := units[ordinal];
      IncreasingStep(units, ordinal);
      if index in recordIndexes || (ordinal > 0 && units[ordinal - 1] >= index) || !Covers(ranges, index) {
        ok := false;
      }
      recordIndexes := recordIndexes + {index};
    }
    assert units[..|units|] == units;
    IndicesEnumerate(ranges);
    if Count(ranges) != |units| { return false; }
    if ok { FullSelection(units, Indices(ranges)); }
  }

  lemma IncreasingStep(s: seq<int>, k: nat)
    requires k < |s|
    ensures Increasing(s[..k + 1]) <==> Increasing(s[..k]) && (k > 0 ==> s[k - 1] < s[k])
    ensures Increasing(s[..k + 1]) ==> s[k] !in set i | 0 <= i < k :: s[i]
  {
  }
}
