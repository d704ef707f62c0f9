/** Single-file direct scan: entry hints narrow the scanned window, and workers
    claim batches of it under a mutex. */
module DirectScan {
  import opened Numbers
  import opened Expressions
  import opened Ranges

  predicate AllHold(filters: seq<Expr>, entry: u64) {
    forall k :: 0 <= k < |filters| ==> Holds(filters[k], OfNat(entry))
  }

  lemma {:induction false} AllHoldPrefix(filters: seq<Expr>, k: nat, entry: u64)
    requires k < |filters| && AllHold(filters[..k + 1], entry)
    ensures AllHold(filters[..k], entry) && Holds(filters[k], OfNat(entry))
  {
    assert filters[..k + 1][k] == filters[k];
    forall j | 0 <= j < k ensures Holds(filters[..k][j], OfNat(entry)) {
      assert filters[..k + 1][j] == filters[j];
    }
  }

  lemma {:induction false} AllHoldNext(filters: seq<Expr>, k: nat, entry: u64)
    requires k < |filters|
    ensures AllHold(filters[..k + 1], entry) <==> AllHold(filters[..k], entry) && Holds(filters[k], OfNat(entry))
  {
    assert filters[..k + 1] == filters[..k] + [filters[k]];
    if AllHold(filters[..k + 1], entry) {
      AllHoldPrefix(filters, k, entry);
    }
  }

  /** Conjunctions of integer comparisons only. */
  predicate AllPlainHints(filters: seq<Expr>) {
    forall k :: 0 <= k < |filters| ==> PlainHint(filters[k])
  }

  predicate AllPlain(filters: seq<Expr>) {
    forall k :: 0 <= k < |filters| ==> Plain(filters[k])
  }

  /** The pruning fields of the bind data. Filters on other columns appear as `Opaque`. */
  class ScanBind {
    var pruneActive: bool
    var pruneImpossible: bool
    var pruneLower: u64
    var pruneUpper: u64

    ghost predicate Keeps(entry: u64)
      reads this
    {
      !pruneImpossible && pruneLower <= entry <= pruneUpper
    }

    constructor ()
      ensures !pruneActive && forall entry: u64 :: Keeps(entry)
    {
      pruneActive, pruneImpossible, pruneLower, pruneUpper := false, false, 0, U64_MAX;
    }

    /** Narrows the bounds by the filters it understands; it never loses an entry that passes them all, and keeps
        no other when they are integer comparisons and their conjunctions. */
    method CollectHints(filters: seq<Expr>)
      modifies this
      ensures forall entry: u64 :: old(Keeps(entry)) && AllHold(filters, entry) ==> Keeps(entry)
      ensures forall entry: u64 :: Keeps(entry) ==> old(Keeps(entry))
      ensures old(pruneActive) ==> pruneActive
      ensures AllPlainHints(filters) ==>
        (filters != [] ==> pruneActive) &&
        forall entry: u64 :: Keeps(entry) <==> old(Keeps(entry)) && AllHold(filters, entry)
    {
      var combined, haveHint := UNKNOWN, false;
      for k := 0 to |filters|
        invariant pruneActive == old(pruneActive) && pruneImpossible == old(pruneImpossible)
        invariant pruneLower == old(pruneLower) && pruneUpper == old(pruneUpper)
        invariant haveHint ==> combined.known
        invariant haveHint ==> forall entry: u64 :: AllHold(filters[..k], entry) ==> Admits(combined, entry)
        invariant AllPlainHints(filters) ==> (haveHint <==> k > 0)
        invariant AllPlainHints(filters) && haveHint ==>
          forall entry: u64 :: Admits(combined, entry) ==> AllHold(filters[..k], entry)
      {
        var interval := ExtractHint(filters[k]);
        ghost var before, had := combined, haveHint;
        if interval.known {
          combined := if haveHint then HintIntersect(combined, interval) else interval;
          haveHint := true;
        }
        forall entry: u64 | haveHint && AllHold(filters[..k + 1], entry)
          ensures Admits(combined, entry)
        {
          AllHoldPrefix(filters, k, entry);
          ExtractHintSound(filters[k], entry);
          assert had ==> Admits(before, entry);
        }
        if AllPlainHints(filters) {
          ExtractHintExact(filters[k], 0);
          forall entry: u64 | Admits(combined, entry) ensures AllHold(filters[..k + 1], entry) {
            ExtractHintExact(filters[k], entry);
            AllHoldNext(filters, k, entry);
            assert had ==> Admits(before, entry);
          }
        }
      }
      assert filters[..|filters|] == filters;
      if !haveHint {
        return;
      }
      pruneActive := true;
      pruneImpossible := pruneImpossible || combined.impossible;
      if !combined.impossible {
        pruneLower := Max(pruneLower, combined.lower);
        pruneUpper := Min(pruneUpper, combined.upper);
        if pruneLower > pruneUpper {
          pruneImpossible := true;
        }
      }
    }
  }

  /** The rows [next, total) handed to the scheduler, or none when the range is impossible. */
  datatype Window = Window(next: nat, total: nat, impossible: bool)

  predicate InWindow(w: Window, entry: int) {
    !w.impossible && w.next <= entry < w.total
  }

  /** The bind data's bounds, cut to the rows of the file. */
  method StartWindow(bind: ScanBind, totalRows: u64) returns (w: Window, lower: u64, upper: u64)
    ensures forall entry: u64 :: InWindow(w, entry) <==> entry < totalRows && (bind.pruneActive ==> bind.Keeps(entry))
    ensures w.total <= totalRows && (w.impossible ==> w.next >= w.total)
    ensures forall entry: u64 :: InWindow(w, entry) ==> lower <= entry <= upper
    ensures !w.impossible ==> (lower <= w.next || w.next >= w.total) && w.total <= upper + 1
  {
    lower, upper := 0, U64_MAX;
    w := Window(0, totalRows, false);
    if bind.pruneActive {
      lower, upper := Max(lower, bind.pruneLower), Min(upper, bind.pruneUpper);
      if bind.pruneImpossible || lower > upper {
        w := Window(totalRows, totalRows, true);
      } else {
        w := Window(Min(totalRows, lower), if upper != U64_MAX then Min(totalRows, upper + 1) else totalRows, false);
      }
    }
  }

  /** One range cuts the window to what it admits. */
  function Tighten(w: Window, range: Range, totalRows: u64): (r: Window)
    requires w.total <= totalRows && (w.impossible ==> w.next >= w.total)
    ensures r.total <= totalRows && (r.impossible ==> r.next >= r.total)
    ensures forall entry: u64 :: InWindow(r, entry) <==> InWindow(w, entry) && Admits(range, entry)
  {
    if !range.known then w
    else if range.impossible then Window(totalRows, totalRows, true)
    else
      Window(Max(w.next, range.lower),
             if range.upper != U64_MAX then Min(w.total, range.upper + 1) else w.total, w.impossible)
  }

  /** Entry filters of the scan narrow the window once more, in the order DuckDB lists them. Integer comparisons
      and their conjunctions leave exactly the entries that pass. */
  method NarrowWindow(bind: ScanBind, totalRows: u64, filters: seq<Expr>) returns (w: Window)
    ensures forall entry: u64 ::
      entry < totalRows && (bind.pruneActive ==> bind.Keeps(entry)) && AllHold(filters, entry) ==> InWindow(w, entry)
    ensures AllPlain(filters) ==> forall entry: u64 :: InWindow(w, entry) ==>
      entry < totalRows && (bind.pruneActive ==> bind.Keeps(entry)) && AllHold(filters, entry)
    ensures w.total <= totalRows && (w.impossible ==> w.next >= w.total)
  {
    var lower: u64, upper: u64;
    w, lower, upper := StartWindow(bind, totalRows);
    ghost var start := w;
    var k := 0;
    var stopped := false;
    while k < |filters| && !stopped
      invariant 0 <= k <= |filters| && w.total <= totalRows
      invariant forall entry: u64 ::
        InWindow(start, entry) && AllHold(filters, entry) ==> InWindow(w, entry) && lower <= entry <= upper
      invariant !w.impossible ==> (lower <= w.next || w.next >= w.total) && w.total <= upper + 1
      invariant AllPlain(filters) ==>
        forall entry: u64 :: InWindow(w, entry) ==> InWindow(start, entry) && AllHold(filters[..k], entry)
      invariant (stopped ==> w.impossible) && (w.impossible ==> w.next >= w.total)
    {
      var range := ExtractRange(filters[k]);
      forall entry: u64 | AllHold(filters, entry) ensures Admits(range, entry) {
        ExtractRangeSound(filters[k], entry);
      }
      w := Tighten(w, range, totalRows);
      if range.known {
        if range.impossible {
          stopped := true;
        } else {
          lower := Max(lower, range.lower);
          upper := Min(upper, range.upper);
        }
      }
      if AllPlain(filters) {
        forall entry: u64 | InWindow(w, entry)
          ensures InWindow(start, entry) && AllHold(filters[..k + 1], entry)
        {
          ExtractRangeExact(filters[k], entry);
          AllHoldNext(filters, k, entry);
        }
      }
      k := k + 1;
    }
    if lower > upper {
      w := Window(totalRows, totalRows, true);
    }
    assert filters[..|filters|] == filters;
  }

  // ----- Claiming batches -----

  const DEFAULT_BATCH_SIZE: nat := 65536

  datatype Batch = Batch(start: nat, end: nat)

  function Claim(next: nat, total: nat, preferred: nat): Batch {
    if next >= total then Batch(0, 0)
    else Batch(next, next + Min(if preferred == 0 then DEFAULT_BATCH_SIZE else preferred, total - next))
  }

  function NextAfter(next: nat, total: nat, preferred: nat): nat {
    if next >= total then next else Claim(next, total, preferred).end
  }

  class RootEntryScheduler {
    var nextRow: nat
    const totalRows: nat

    constructor (nextRow: nat, totalRows: nat)
      ensures this.nextRow == nextRow && this.totalRows == totalRows
    {
      this.nextRow, this.totalRows := nextRow, totalRows;
    }

    /** One call under the mutex. */
    method ClaimWork(preferred: nat) returns (batch: Batch)
      modifies this
      ensures batch == Claim(old(nextRow), totalRows, preferred)
      ensures nextRow == NextAfter(old(nextRow), totalRows, preferred)
    {
      if nextRow >= totalRows {
        return Batch(0, 0);
      }
      var size := if preferred == 0 then DEFAULT_BATCH_SIZE else preferred;
      batch := Batch(nextRow, nextRow + Min(size, totalRows - nextRow));
      nextRow := batch.end;
    }
  }

  /** What any serialised sequence of calls returns; whichever workers make them. */
  function Claims(next: nat, total: nat, preferred: seq<nat>): (bs: seq<Batch>)
    ensures |bs| == |preferred|
    decreases |preferred|
  {
    if preferred == [] then []
    else [Claim(next, total, preferred[0])] + Claims(NextAfter(next, total, preferred[0]), total, preferred[1..])
  }

  function Owners(bs: seq<Batch>, entry: int): nat {
    if bs == [] then 0
    else (if bs[0].start <= entry < bs[0].end then 1 else 0) + Owners(bs[1..], entry)
  }

  /** No entry is claimed twice, and none outside the window is claimed at all. */
  lemma {:induction false} ClaimsDisjoint(next: nat, total: nat, preferred: seq<nat>, entry: int)
    ensures Owners(Claims(next, total, preferred), entry) <= if next <= entry < total then 1 else 0
    decreases |preferred|
  {
    if preferred != [] {
      var bs := Claims(next, total, preferred);
      assert bs[1..] == Claims(NextAfter(next, total, preferred[0]), total, preferred[1..]);
      ClaimsDisjoint(NextAfter(next, total, preferred[0]), total, preferred[1..], entry);
    }
  }

  /** Once a worker has been told that nothing is left, every entry of the window has exactly one owner. */
  lemma {:induction false} ClaimsCover(next: nat, total: nat, preferred: seq<nat>, entry: int)
    requires preferred != []
    requires Claims(next, total, preferred)[|preferred| - 1] == Batch(0, 0)
    requires next <= entry < total
    ensures Owners(Claims(next, total, preferred), entry) == 1
    decreases |preferred|
  {
    var after := NextAfter(next, total, preferred[0]);
    var bs := Claims(next, total, preferred);
    assert bs[1..] == Claims(after, total, preferred[1..]);
    if entry < after {
      ClaimsDisjoint(after, total, preferred[1..], entry);
    } else {
      assert bs[|preferred| - 1] == bs[1..][|preferred| - 2];
      ClaimsCover(after, total, preferred[1..], entry);
    }
  }

  /** Any number of calls for one window. */
  method ClaimAll(w: Window, preferred: seq<nat>) returns (batches: seq<Batch>)
    ensures batches == Claims(w.next, w.total, preferred)
  {
    var scheduler := new RootEntryScheduler(w.next, w.total);
    batches := [];
    for k := 0 to |preferred|
      invariant |batches| == k && scheduler.totalRows == w.total
      invariant batches + Claims(scheduler.nextRow, w.total, preferred[k..]) == Claims(w.next, w.total, preferred)
    {
      assert preferred[k..][0] == preferred[k] && preferred[k..][1..] == preferred[k + 1..];
      var batch := scheduler.ClaimWork(preferred[k]);
      batches := batches + [batch];
    }
  }

  /** A whole single-file scan: the optimizer's filters narrow the bind data, the scan's own filters narrow the
      window, and any number of workers claim batches of it, one call under the mutex after the other. No entry
      is claimed twice, and once a worker has been told that nothing is left, every entry that passes all
      filters has been claimed; where these are integer comparisons and their conjunctions, no other entry is. */
  method ScanFile(totalRows: u64, hints: seq<Expr>, filters: seq<Expr>, preferred: seq<nat>)
    returns (batches: seq<Batch>)
    ensures |batches| == |preferred|
    ensures forall entry :: Owners(batches, entry) <= if 0 <= entry < totalRows then 1 else 0
    ensures preferred != [] && batches[|batches| - 1] == Batch(0, 0) ==>
      forall entry: u64 :: entry < totalRows && AllHold(hints, entry) && AllHold(filters, entry) ==>
        Owners(batches, entry) == 1
    ensures AllPlainHints(hints) && AllPlain(filters) ==> forall entry: u64 :: Owners(batches, entry) > 0 ==>
      entry < totalRows && AllHold(hints, entry) && AllHold(filters, entry)
  {
    var bind := new ScanBind();
    bind.CollectHints(hints);
    var w := NarrowWindow(bind, totalRows, filters);
    assert forall entry: u64 :: entry < totalRows && AllHold(hints, entry) && AllHold(filters, entry) ==>
      InWindow(w, entry);
    batches := ClaimAll(w, preferred);
    forall entry ensures Owners(batches, entry) <= if 0 <= entry < totalRows then 1 else 0 {
      ClaimsDisjoint(w.next, w.total, preferred, entry);
    }
    if AllPlainHints(hints) && AllPlain(filters) {
      forall entry: u64 | Owners(batches, entry) > 0
        ensures entry < totalRows && AllHold(hints, entry) && AllHold(filters, entry)
      {
        ClaimsDisjoint(w.next, w.total, preferred, entry);
        assert InWindow(w, entry);
      }
    }
    if preferred != [] && batches[|batches| - 1] == Batch(0, 0) {
      forall entry: u64 | entry < totalRows && AllHold(hints, entry) && AllHold(filters, entry)
        ensures Owners(batches, entry) == 1
      {
        assert InWindow(w, entry);
        ClaimsCover(w.next, w.total, preferred, entry);
      }
    }
  }
}
