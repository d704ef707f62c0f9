/** Half-open entry intervals: normal form, two-pointer intersection, the compact
    selection codec (encoder and decoder). */
module EntrySelection {
  import opened Numbers

  datatype Interval = Interval(begin: u64, end: u64)

  predicate Covers(ivs: seq<Interval>, x: int) {
    exists k :: 0 <= k < |ivs| && ivs[k].begin <= x < ivs[k].end
  }

  /** Non-empty, sorted, disjoint and not even adjacent. */
  predicate NormalForm(ivs: seq<Interval>) {
    && (forall k :: 0 <= k < |ivs| ==> ivs[k].begin < ivs[k].end)
    && (forall j, k :: 0 <= j < k < |ivs| ==> ivs[j].end < ivs[k].begin)
  }

  lemma {:induction false} CoversConcat(a: seq<Interval>, b: seq<Interval>, x: int)
    ensures Covers(a + b, x) <==> Covers(a, x) || Covers(b, x)
  {
    if Covers(a, x) {
      var k :| 0 <= k < |a| && a[k].begin <= x < a[k].end;
      assert (a + b)[k] == a[k];
    }
    if Covers(b, x) {
      var k :| 0 <= k < |b| && b[k].begin <= x < b[k].end;
      assert (a + b)[|a| + k] == b[k];
    }
  }

  lemma {:induction false} SingleCover(iv: Interval, x: int)
    ensures Covers([iv], x) <==> iv.begin <= x < iv.end
  {
    assert [iv][0] == iv;
  }

  lemma {:induction false} AppendCover(ivs: seq<Interval>, iv: Interval)
    ensures forall x :: Covers(ivs + [iv], x) <==> Covers(ivs, x) || iv.begin <= x < iv.end
  {
    forall x ensures Covers(ivs + [iv], x) <==> Covers(ivs, x) || iv.begin <= x < iv.end {
      CoversConcat(ivs, [iv], x);
      SingleCover(iv, x);
    }
  }

  // ----- Normalisation -----

  predicate Before(a: Interval, b: Interval) {
    a.begin < b.begin || (a.begin == b.begin && a.end <= b.end)
  }

  predicate Sorted(ivs: seq<Interval>) {
    forall j, k :: 0 <= j < k < |ivs| ==> Before(ivs[j], ivs[k])
  }

  /** Inserting behind everything that comes before keeps the order. */
  lemma {:induction false} InsertSorted(ivs: seq<Interval>, p: nat, iv: Interval)
    requires Sorted(ivs) && p <= |ivs| && (forall j :: 0 <= j < p ==> Before(ivs[j], iv))
    requires p < |ivs| ==> !Before(ivs[p], iv)
    ensures Sorted(ivs[..p] + [iv] + ivs[p..])
    ensures multiset(ivs[..p] + [iv] + ivs[p..]) == multiset(ivs) + multiset{iv}
  {
    assert ivs == ivs[..p] + ivs[p..];
    forall j | p <= j < |ivs| ensures Before(iv, ivs[j]) {
      assert Before(iv, ivs[p]);
      assert j == p || Before(ivs[p], ivs[j]);
    }
  }

  /** Any sort of the intervals by (begin, end) will do. */
  method Sort(ivs: seq<Interval>) returns (out: seq<Interval>)
    ensures Sorted(out) && multiset(out) == multiset(ivs)
  {
    out := [];
    for n := 0 to |ivs|
      invariant Sorted(out) && multiset(out) == multiset(ivs[..n])
    {
      var p := 0;
      while p < |out| && Before(out[p], ivs[n])
        invariant 0 <= p <= |out|
        invariant forall j :: 0 <= j < p ==> Before(out[j], ivs[n])
      {
        p := p + 1;
      }
      InsertSorted(out, p, ivs[n]);
      assert ivs[..n + 1] == ivs[..n] + [ivs[n]];
      out := out[..p] + [ivs[n]] + out[p..];
    }
    assert ivs[..|ivs|] == ivs;
  }

  lemma {:induction false} SameElementsCover(a: seq<Interval>, b: seq<Interval>, x: int)
    requires multiset(a) == multiset(b) && Covers(a, x)
    ensures Covers(b, x)
  {
    var k :| 0 <= k < |a| && a[k].begin <= x < a[k].end;
    assert a[k] in multiset(a);
    assert a[k] in b;
  }

  /** Drops empty intervals, sorts, and merges what overlaps or touches. */
  method NormalizeIntervals(ivs: seq<Interval>) returns (merged: seq<Interval>)
    ensures NormalForm(merged)
    ensures forall x :: Covers(merged, x) <==> Covers(ivs, x)
  {
    var sorted := Sort(ivs);
    merged := [];
    for n := 0 to |sorted|
      invariant NormalForm(merged)
      invariant merged != [] && n < |sorted| ==> merged[|merged| - 1].begin <= sorted[n].begin
      invariant forall x :: Covers(merged, x) <==> Covers(sorted[..n], x)
    {
      var iv := sorted[n];
      ghost var before := merged;
      assert sorted[..n + 1] == sorted[..n] + [iv];
      if iv.begin < iv.end {
        if merged != [] && iv.begin <= merged[|merged| - 1].end {
          var last := merged[|merged| - 1];
          merged := merged[..|merged| - 1] + [Interval(last.begin, Max(last.end, iv.end))];
          MergeLast(before, iv);
        } else {
          merged := merged + [iv];
          AppendCover(before, iv);
        }
      }
      AppendCover(sorted[..n], iv);
      if n + 1 < |sorted| {
        assert Before(sorted[n], sorted[n + 1]);
      }
    }
    assert sorted[..|sorted|] == sorted;
    forall x ensures Covers(sorted, x) <==> Covers(ivs, x) {
      if Covers(sorted, x) { SameElementsCover(sorted, ivs, x); }
      if Covers(ivs, x) { SameElementsCover(ivs, sorted, x); }
    }
  }

  lemma {:induction false} MergeLast(merged: seq<Interval>, iv: Interval)
    requires merged != [] && iv.begin < iv.end
    requires merged[|merged| - 1].begin <= iv.begin <= merged[|merged| - 1].end
    ensures var last := merged[|merged| - 1];
      var joined := merged[..|merged| - 1] + [Interval(last.begin, Max(last.end, iv.end))];
      forall x :: Covers(joined, x) <==> Covers(merged, x) || iv.begin <= x < iv.end
  {
    var last := merged[|merged| - 1];
    var init := merged[..|merged| - 1];
    var wide := Interval(last.begin, Max(last.end, iv.end));
    assert merged == init + [last];
    AppendCover(init, wide);
    AppendCover(init, last);
  }

  /** A normal form is determined by the set it denotes. */
  lemma {:induction false} NormalFormUnique(a: seq<Interval>, b: seq<Interval>)
    requires NormalForm(a) && NormalForm(b)
    requires forall x :: Covers(a, x) <==> Covers(b, x)
    ensures a == b
    decreases |a|
  {
    if a == [] {
      if b != [] { assert Covers(b, b[0].begin); }
    } else if b == [] {
      assert Covers(a, a[0].begin);
    } else {
      FirstIntervalEqual(a, b);
      forall x ensures Covers(a[1..], x) <==> Covers(b[1..], x) {
        TailCover(a, x);
        TailCover(b, x);
      }
      NormalFormUnique(a[1..], b[1..]);
    }
  }

  lemma {:induction false} TailCover(a: seq<Interval>, x: int)
    requires NormalForm(a) && a != []
    ensures Covers(a[1..], x) <==> Covers(a, x) && !(a[0].begin <= x < a[0].end)
  {
    if Covers(a[1..], x) {
      var k :| 0 <= k < |a[1..]| && a[1..][k].begin <= x < a[1..][k].end;
      assert a[k + 1].begin <= x < a[k + 1].end;
    }
    if Covers(a, x) && !(a[0].begin <= x < a[0].end) {
      var k :| 0 <= k < |a| && a[k].begin <= x < a[k].end;
      assert a[1..][k - 1] == a[k];
    }
  }

  lemma {:induction false} FirstIntervalEqual(a: seq<Interval>, b: seq<Interval>)
    requires NormalForm(a) && NormalForm(b) && a != [] && b != []
    requires forall x :: Covers(a, x) <==> Covers(b, x)
    ensures a[0] == b[0]
  {
    assert Covers(a, a[0].begin) && Covers(b, b[0].begin);
    assert Covers(b, a[0].begin) && Covers(a, b[0].begin);
    FirstEndNotLess(a, b);
    FirstEndNotLess(b, a);
  }

  lemma {:induction false} FirstEndNotLess(a: seq<Interval>, b: seq<Interval>)
    requires NormalForm(a) && NormalForm(b) && a != [] && b != [] && a[0].begin == b[0].begin
    requires forall x :: Covers(b, x) ==> Covers(a, x)
    ensures a[0].end >= b[0].end
  {
    if a[0].end < b[0].end {
      assert Covers(b, a[0].end);
    }
  }

  // ----- Intersection -----

  /** The two-pointer sweep denotes set intersection and stays in normal form. */
  method IntersectIntervals(left: seq<Interval>, right: seq<Interval>) returns (result: seq<Interval>)
    requires NormalForm(left) && NormalForm(right)
    ensures NormalForm(result)
    ensures forall x :: Covers(result, x) <==> Covers(left, x) && Covers(right, x)
  {
    var found: seq<Interval> := [];
    var i, j := 0, 0;
    while i < |left| && j < |right|
      invariant 0 <= i <= |left| && 0 <= j <= |right|
      invariant forall x :: Covers(left, x) && Covers(right, x) <==>
                            Covers(found, x) || (Covers(left[i..], x) && Covers(right[j..], x))
      decreases |left| - i + |right| - j
    {
      var begin, end := Max(left[i].begin, right[j].begin), Min(left[i].end, right[j].end);
      ghost var before := found;
      if begin < end {
        found := found + [Interval(begin, end)];
      }
      if begin < end {
        AppendCover(before, Interval(begin, end));
      }
      forall x ensures
          Covers(before, x) || (Covers(left[i..], x) && Covers(right[j..], x)) <==>
          Covers(found, x) || (if left[i].end < right[j].end then Covers(left[i + 1..], x) && Covers(right[j..], x)
                               else Covers(left[i..], x) && Covers(right[j + 1..], x))
      {
        SweepStep(left, right, i, j, x);
      }
      if left[i].end < right[j].end {
        i := i + 1;
      } else {
        j := j + 1;
      }
    }
    forall x ensures Covers(found, x) <==> Covers(left, x) && Covers(right, x) {
    }
    result := NormalizeIntervals(found);
  }

  lemma {:induction false} SweepStep(left: seq<Interval>, right: seq<Interval>, i: nat, j: nat, x: int)
    requires NormalForm(left) && NormalForm(right) && i < |left| && j < |right|
    ensures Covers(left[i..], x) && Covers(right[j..], x) <==>
      (Max(left[i].begin, right[j].begin) <= x < Min(left[i].end, right[j].end)) ||
      (if left[i].end < right[j].end then Covers(left[i + 1..], x) && Covers(right[j..], x)
       else Covers(left[i..], x) && Covers(right[j + 1..], x))
  {
    var l, r := left[i..], right[j..];
    assert l[1..] == left[i + 1..] && r[1..] == right[j + 1..];
    assert NormalForm(l) && NormalForm(r);
    TailCover(l, x);
    TailCover(r, x);
    if left[i].begin <= x < left[i].end { assert l[0].begin <= x < l[0].end; }
    if right[j].begin <= x < right[j].end { assert r[0].begin <= x < r[0].end; }
    CoverBound(l, x);
    CoverBound(r, x);
  }

  lemma {:induction false} CoverBound(a: seq<Interval>, x: int)
    requires NormalForm(a) && a != []
    ensures Covers(a, x) ==> a[0].begin <= x
    ensures Covers(a[1..], x) ==> a[0].end < x
    ensures a[0].begin <= x < a[0].end ==> Covers(a, x)
  {
    if Covers(a[1..], x) {
      var k :| 0 <= k < |a[1..]| && a[1..][k].begin <= x < a[1..][k].end;
      assert a[1..][k] == a[k + 1];
    }
  }

  // ----- The selection codec -----

  /** The selection object of one source: each part is optional. */
  datatype Delta = Delta(base: u64, deltas: seq<u64>)
  datatype Selection = Selection(ranges: seq<Interval>, entries: seq<u64>, delta: Option<Delta>)

  datatype ParseError = EntryTooLarge | BaseTooLarge | BadDelta | DeltaTooLarge
  datatype Parsed = Ok(intervals: seq<Interval>) | Err(error: ParseError)

  /** The entry reached after the first k deltas. */
  function DeltaEntry(d: Delta, k: nat): int
    requires k <= |d.deltas|
  {
    if k == 0 then d.base else DeltaEntry(d, k - 1) + d.deltas[k - 1]
  }

  function DeltaEntries(d: Delta, k: nat): seq<int>
    requires k <= |d.deltas|
  {
    if k == 0 then [d.base] else DeltaEntries(d, k - 1) + [DeltaEntry(d, k)]
  }

  /** The first n steps are positive and stay below the limit. */
  predicate ValidSteps(d: Delta, n: nat)
    requires n <= |d.deltas|
  {
    forall k :: 0 <= k < n ==> d.deltas[k] > 0 && DeltaEntry(d, k + 1) < U64_MAX
  }

  predicate ValidDelta(d: Delta) {
    d.base < U64_MAX && ValidSteps(d, |d.deltas|)
  }

  predicate ValidSelection(s: Selection) {
    (forall k :: 0 <= k < |s.entries| ==> s.entries[k] < U64_MAX) &&
    (s.delta.Some? ==> ValidDelta(s.delta.value))
  }

  predicate Selected(s: Selection, x: int) {
    Covers(s.ranges, x) || x in s.entries ||
    (s.delta.Some? && x in DeltaEntries(s.delta.value, |s.delta.value.deltas|))
  }

  method ParseEntries(entries: seq<u64>) returns (r: Parsed)
    ensures r.Ok? <==> forall k :: 0 <= k < |entries| ==> entries[k] < U64_MAX
    ensures r.Err? ==> r.error == EntryTooLarge
    ensures r.Ok? ==> forall x :: Covers(r.intervals, x) <==> x in entries
  {
    var intervals: seq<Interval> := [];
    for n := 0 to |entries|
      invariant forall k :: 0 <= k < n ==> entries[k] < U64_MAX
      invariant forall x :: Covers(intervals, x) <==> x in entries[..n]
    {
      if entries[n] == U64_MAX {
        return Err(EntryTooLarge);
      }
      AppendCover(intervals, Interval(entries[n], entries[n] + 1));
      assert entries[..n + 1] == entries[..n] + [entries[n]];
      intervals := intervals + [Interval(entries[n], entries[n] + 1)];
    }
    assert entries[..|entries|] == entries;
    return Ok(intervals);
  }

  lemma {:induction false} BadStep(d: Delta, n: nat)
    requires n < |d.deltas| && (d.deltas[n] == 0 || DeltaEntry(d, n + 1) >= U64_MAX)
    ensures !ValidDelta(d)
  {
  }

  lemma {:induction false} GoodStep(d: Delta, n: nat)
    requires n < |d.deltas| && ValidSteps(d, n) && d.deltas[n] > 0 && DeltaEntry(d, n + 1) < U64_MAX
    ensures ValidSteps(d, n + 1)
  {
  }

  method ParseDelta(d: Delta) returns (r: Parsed)
    ensures r.Ok? <==> ValidDelta(d)
    ensures r.Ok? ==> forall x :: Covers(r.intervals, x) <==> x in DeltaEntries(d, |d.deltas|)
  {
    var value: u64 := d.base;
    if value == U64_MAX {
      return Err(BaseTooLarge);
    }
    var intervals := [Interval(value, value + 1)];
    assert intervals == [] + [Interval(value, value + 1)];
    AppendCover([], Interval(value, value + 1));
    for n := 0 to |d.deltas|
      invariant value == DeltaEntry(d, n) < U64_MAX
      invariant ValidSteps(d, n)
      invariant forall x :: Covers(intervals, x) <==> x in DeltaEntries(d, n)
    {
      var delta := d.deltas[n];
      assert DeltaEntry(d, n + 1) == value + delta;
      if delta == 0 || value > U64_MAX - delta {
        BadStep(d, n);
        return Err(BadDelta);
      }
      value := value + delta;
      if value == U64_MAX {
        BadStep(d, n);
        return Err(DeltaTooLarge);
      }
      GoodStep(d, n);
      AppendCover(intervals, Interval(value, value + 1));
      intervals := intervals + [Interval(value, value + 1)];
    }
    return Ok(intervals);
  }

  /** The decoder accepts exactly the valid selections and denotes exactly what they select. */
  method ParseSelection(s: Selection) returns (r: Parsed)
    ensures r.Ok? <==> ValidSelection(s)
    ensures r.Ok? ==> NormalForm(r.intervals) && forall x :: Covers(r.intervals, x) <==> Selected(s, x)
  {
    var all := s.ranges;
    var entries := ParseEntries(s.entries);
    if entries.Err? {
      return entries;
    }
    forall x ensures Covers(all + entries.intervals, x) <==> Covers(all, x) || Covers(entries.intervals, x) {
      CoversConcat(all, entries.intervals, x);
    }
    all := all + entries.intervals;
    if s.delta.Some? {
      var delta := ParseDelta(s.delta.value);
      if delta.Err? {
        return delta;
      }
      forall x ensures Covers(all + delta.intervals, x) <==> Covers(all, x) || Covers(delta.intervals, x) {
        CoversConcat(all, delta.intervals, x);
      }
      all := all + delta.intervals;
    }
    var merged := NormalizeIntervals(all);
    return Ok(merged);
  }

  // ----- The encoder -----

  predicate Ascending(vs: seq<u64>) {
    forall j, k :: 0 <= j < k < |vs| ==> vs[j] < vs[k]
  }

  lemma {:induction false} InsertAscending(vs: seq<u64>, p: nat, v: u64)
    requires Ascending(vs) && p <= |vs| && (forall j :: 0 <= j < p ==> vs[j] < v) && (p < |vs| ==> v < vs[p])
    ensures var more := vs[..p] + [v] + vs[p..];
      Ascending(more) && forall x :: x in more <==> x in vs || x == v
  {
    assert vs == vs[..p] + vs[p..];
    forall j | p <= j < |vs| ensures v < vs[j] {
      assert j == p || vs[p] < vs[j];
    }
  }

  /** `sorted(set(values))`. */
  method SortedSet(values: seq<u64>) returns (vs: seq<u64>)
    ensures Ascending(vs)
    ensures forall x :: x in vs <==> x in values
  {
    vs := [];
    for n := 0 to |values|
      invariant Ascending(vs)
      invariant forall x :: x in vs <==> x in values[..n]
    {
      var p := 0;
      while p < |vs| && vs[p] < values[n]
        invariant 0 <= p <= |vs|
        invariant forall j :: 0 <= j < p ==> vs[j] < values[n]
      {
        p := p + 1;
      }
      assert values[..n + 1] == values[..n] + [values[n]];
      if p == |vs| || vs[p] != values[n] {
        InsertAscending(vs, p, values[n]);
        vs := vs[..p] + [values[n]] + vs[p..];
      }
    }
    assert values[..|values|] == values;
  }

  /** Gaps between consecutive sparse entries. */
  function Gaps(sparse: seq<u64>): (gaps: seq<u64>)
    requires sparse != [] && Ascending(sparse)
    ensures |gaps| == |sparse| - 1
  {
    seq(|sparse| - 1, k requires 0 <= k < |sparse| - 1 => sparse[k + 1] - sparse[k])
  }

  lemma {:induction false} GapsRebuild(sparse: seq<u64>, k: nat)
    requires sparse != [] && Ascending(sparse) && k < |sparse|
    ensures DeltaEntry(Delta(sparse[0], Gaps(sparse)), k) == sparse[k]
  {
    if k > 0 {
      GapsRebuild(sparse, k - 1);
    }
  }

  lemma {:induction false} EntriesRebuild(sparse: seq<u64>, k: nat)
    requires sparse != [] && Ascending(sparse) && k < |sparse|
    ensures DeltaEntries(Delta(sparse[0], Gaps(sparse)), k) == sparse[..k + 1]
  {
    GapsRebuild(sparse, k);
    if k > 0 {
      EntriesRebuild(sparse, k - 1);
      assert sparse[..k + 1] == sparse[..k] + [sparse[k]];
    }
  }

  /** The end of the run of consecutive entries that starts at i. */
  method RunEnd(vs: seq<u64>, i: nat) returns (j: nat)
    requires Ascending(vs) && i < |vs|
    ensures i < j <= |vs|
    ensures forall x :: x in vs[i..j] <==> vs[i] <= x <= vs[j - 1]
  {
    j := i + 1;
    while j < |vs| && (vs[j] as int) == (vs[j - 1] as int) + 1
      invariant i < j <= |vs|
      invariant forall k :: i <= k < j ==> vs[k] == vs[i] + (k - i)
    {
      j := j + 1;
    }
    forall x ensures x in vs[i..j] <==> vs[i] <= x <= vs[j - 1] {
      if vs[i] <= x <= vs[j - 1] {
        assert vs[i..j][x - vs[i]] == x;
      }
    }
  }

  lemma {:induction false} SparseAscends(vs: seq<u64>, sparse: seq<u64>, i: nat, j: nat)
    requires Ascending(vs) && Ascending(sparse) && i <= j <= |vs|
    requires forall k :: 0 <= k < |sparse| ==> sparse[k] in vs[..i]
    ensures Ascending(sparse + vs[i..j])
    ensures forall k :: 0 <= k < |sparse + vs[i..j]| ==> (sparse + vs[i..j])[k] in vs[..j]
  {
    forall a, b | 0 <= a < |sparse| && i <= b < j ensures sparse[a] < vs[b] {
      assert sparse[a] in vs[..i];
    }
    assert vs[..j] == vs[..i] + vs[i..j];
  }

  /** Splits the sorted set into dense ranges and the entries of short runs. */
  method SplitRuns(vs: seq<u64>, minRun: int) returns (ranges: seq<Interval>, sparse: seq<u64>)
    requires Ascending(vs) && forall k :: 0 <= k < |vs| ==> vs[k] < U64_MAX
    ensures forall x :: Covers(ranges, x) || x in sparse <==> x in vs
    ensures Ascending(sparse) && forall k :: 0 <= k < |sparse| ==> sparse[k] in vs
  {
    ranges, sparse := [], [];
    var i := 0;
    while i < |vs|
      invariant 0 <= i <= |vs|
      invariant forall x :: Covers(ranges, x) || x in sparse <==> x in vs[..i]
      invariant Ascending(sparse) && forall k :: 0 <= k < |sparse| ==> sparse[k] in vs[..i]
    {
      var j := RunEnd(vs, i);
      assert vs[..j] == vs[..i] + vs[i..j];
      if j - i >= minRun {
        AppendCover(ranges, Interval(vs[i], vs[j - 1] + 1));
        ranges := ranges + [Interval(vs[i], vs[j - 1] + 1)];
      } else {
        SparseAscends(vs, sparse, i, j);
        sparse := sparse + vs[i..j];
      }
      i := j;
    }
    assert vs[..|vs|] == vs;
  }

  /** Long runs become ranges; what is left is delta-encoded. */
  method Encode(values: seq<u64>, minRun: int) returns (s: Selection)
    requires forall k :: 0 <= k < |values| ==> values[k] < U64_MAX
    ensures ValidSelection(s)
    ensures forall x :: Selected(s, x) <==> x in values
  {
    var vs := SortedSet(values);
    forall k | 0 <= k < |vs| ensures vs[k] < U64_MAX { assert vs[k] in values; }
    var ranges, sparse := SplitRuns(vs, minRun);
    s := Selection(ranges, [], None);
    if sparse != [] {
      var d := Delta(sparse[0], Gaps(sparse));
      s := Selection(ranges, [], Some(d));
      forall k | 0 <= k < |sparse|
        ensures DeltaEntry(d, k) == sparse[k] < U64_MAX
      {
        GapsRebuild(sparse, k);
        assert sparse[k] in vs;
      }
      EntriesRebuild(sparse, |sparse| - 1);
      assert sparse[..|sparse|] == sparse;
    }
  }

  /** The decoder accepts every encoded list and returns the one normal form of the input set. */
  method EncodeThenParse(values: seq<u64>, minRun: int) returns (r: Parsed)
    requires forall k :: 0 <= k < |values| ==> values[k] < U64_MAX
    ensures r.Ok? && NormalForm(r.intervals)
    ensures forall x :: Covers(r.intervals, x) <==> x in values
  {
    var s := Encode(values, minRun);
    r := ParseSelection(s);
  }
}
