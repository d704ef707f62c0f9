/** Indexing one logical path of one file: basket ranges, the entry sweep with its
    active-basket pointer, and the basket and file statistics. */
module IndexBuilder {
  import opened Numbers
  import Expressions
  import Bloom
  import opened PathPredicates

  /** What one entry delivers: None when the object is absent, else its flattened values. */
  type Entry = Option<seq<Num>>

  // ----- Basket ranges -----

  datatype EntryRange = EntryRange(begin: nat, end: nat)

  predicate Ordered(rs: seq<EntryRange>) {
    (forall k :: 0 <= k < |rs| ==> rs[k].begin < rs[k].end) &&
    forall j, k :: 0 <= j < k < |rs| ==> rs[j].end <= rs[k].begin
  }

  predicate Holds(rs: seq<EntryRange>, entry: int) {
    exists k :: 0 <= k < |rs| && rs[k].begin <= entry < rs[k].end
  }

  /** The first entries of the physical baskets, as the branch lists them. */
  predicate BasketStarts(starts: seq<nat>) {
    starts != [] && starts[0] == 0 && forall j, k :: 0 <= j < k < |starts| ==> starts[j] <= starts[k]
  }

  lemma {:induction false} AppendRange(rs: seq<EntryRange>, r: EntryRange)
    ensures forall entry :: Holds(rs + [r], entry) <==> Holds(rs, entry) || r.begin <= entry < r.end
  {
    forall entry ensures Holds(rs + [r], entry) <==> Holds(rs, entry) || r.begin <= entry < r.end {
      if Holds(rs, entry) {
        var k :| 0 <= k < |rs| && rs[k].begin <= entry < rs[k].end;
        assert (rs + [r])[k] == rs[k];
      }
      assert (rs + [r])[|rs|] == r;
    }
  }

  /** Where basket b begins, seen from the end of the file backwards. */
  function StartOf(starts: seq<nat>, b: nat, totalEntries: nat): nat
    requires b <= |starts|
  {
    if b < |starts| then Min(starts[b], totalEntries) else totalEntries
  }

  /** Every entry of the file falls in exactly one basket range; empty baskets are dropped. */
  method BasketRanges(starts: seq<nat>, totalEntries: nat) returns (rs: seq<EntryRange>)
    requires BasketStarts(starts)
    ensures Ordered(rs)
    ensures forall entry :: Holds(rs, entry) <==> 0 <= entry < totalEntries
  {
    rs := [];
    for b := 0 to |starts|
      invariant Ordered(rs)
      invariant forall k :: 0 <= k < |rs| ==> rs[k].end <= StartOf(starts, b, totalEntries)
      invariant forall entry :: Holds(rs, entry) <==> 0 <= entry < StartOf(starts, b, totalEntries)
    {
      var begin := starts[b];
      var end := Min(if b + 1 < |starts| then starts[b + 1] else totalEntries, totalEntries);
      assert b + 1 < |starts| ==> starts[b] <= starts[b + 1];
      if begin < end {
        AppendRange(rs, EntryRange(begin, end));
        rs := rs + [EntryRange(begin, end)];
      }
    }
  }

  // ----- The accumulator of one basket -----

  datatype Accumulator = Accumulator(
    range: EntryRange, valueCount: nat, nullCount: nat, nanCount: nat, posInfCount: nat, negInfCount: nat,
    finiteCount: nat, min: Num, max: Num, bloomInput: seq<Num>)

  function Fresh(range: EntryRange): Accumulator {
    Accumulator(range, 0, 0, 0, 0, 0, 0, PosInf, NegInf, [])
  }

  function AddValue(a: Accumulator, v: Num, statistics: bool): Accumulator {
    var b := a.(valueCount := a.valueCount + 1);
    if !statistics then b
    else if v.NaN? then b.(nanCount := b.nanCount + 1)
    else if v.PosInf? then b.(posInfCount := b.posInfCount + 1)
    else if v.NegInf? then b.(negInfCount := b.negInfCount + 1)
    else b.(min := if IeeeLess(v, b.min) then v else b.min,
            max := if IeeeLess(b.max, v) then v else b.max,
            bloomInput := b.bloomInput + [v],
            finiteCount := b.finiteCount + 1)
  }

  function AddValues(a: Accumulator, vs: seq<Num>, statistics: bool): Accumulator {
    if vs == [] then a else AddValue(AddValues(a, vs[..|vs| - 1], statistics), vs[|vs| - 1], statistics)
  }

  function AddEntry(a: Accumulator, e: Entry, statistics: bool): Accumulator {
    if e.None? then a.(nullCount := a.nullCount + 1) else AddValues(a, e.value, statistics)
  }

  function AddEntries(a: Accumulator, es: seq<Entry>, statistics: bool): Accumulator {
    if es == [] then a else AddEntry(AddEntries(a, es[..|es| - 1], statistics), es[|es| - 1], statistics)
  }

  /** All values of a run of entries, in reading order. */
  function ValuesOf(es: seq<Entry>): seq<Num> {
    if es == [] then []
    else ValuesOf(es[..|es| - 1]) + if es[|es| - 1].None? then [] else es[|es| - 1].value
  }

  function Absent(es: seq<Entry>): nat {
    if es == [] then 0 else Absent(es[..|es| - 1]) + if es[|es| - 1].None? then 1 else 0
  }

  predicate Between(lo: Num, v: Num, hi: Num) {
    IsFinite(lo) && IsFinite(v) && IsFinite(hi) && Real(lo) <= Real(v) <= Real(hi)
  }

  /** What the counters of an accumulator mean for the values it has seen. */
  ghost predicate Tallies(a: Accumulator, seen: seq<Num>, absent: nat) {
    && a.valueCount == |seen| && a.nullCount == absent
    && a.nanCount == multiset(seen)[NaN]
    && a.posInfCount == multiset(seen)[PosInf]
    && a.negInfCount == multiset(seen)[NegInf]
    && a.finiteCount == |a.bloomInput|
    && (forall v :: IsFinite(v) ==> (v in a.bloomInput <==> v in seen))
    && (forall v :: v in a.bloomInput ==> IsFinite(v))
    && (if a.finiteCount == 0 then a.min == PosInf && a.max == NegInf
        else IsFinite(a.min) && IsFinite(a.max) && a.min in seen && a.max in seen)
    && (forall v :: v in seen && IsFinite(v) ==> Between(a.min, v, a.max))
  }

  lemma {:induction false} TalliesStep(a: Accumulator, seen: seq<Num>, absent: nat, v: Num)
    requires Tallies(a, seen, absent)
    ensures Tallies(AddValue(a, v, true), seen + [v], absent)
  {
    var b := AddValue(a, v, true);
    assert multiset(seen + [v]) == multiset(seen) + multiset{v};
    if IsFinite(v) {
      assert v in b.bloomInput;
      assert a.finiteCount > 0 ==> IsFinite(a.min);
    }
  }

  lemma {:induction false} AddValuesTallies(a: Accumulator, vs: seq<Num>, seen: seq<Num>, absent: nat)
    requires Tallies(a, seen, absent)
    ensures Tallies(AddValues(a, vs, true), seen + vs, absent)
  {
    if vs == [] {
      assert seen + vs == seen;
    } else {
      var init := vs[..|vs| - 1];
      AddValuesTallies(a, init, seen, absent);
      TalliesStep(AddValues(a, init, true), seen + init, absent, vs[|vs| - 1]);
      assert seen + vs == seen + init + [vs[|vs| - 1]];
    }
  }

  lemma {:induction false} AddEntriesTallies(range: EntryRange, es: seq<Entry>)
    ensures Tallies(AddEntries(Fresh(range), es, true), ValuesOf(es), Absent(es))
  {
    if es != [] {
      var init, last := es[..|es| - 1], es[|es| - 1];
      AddEntriesTallies(range, init);
      if last.Some? {
        AddValuesTallies(AddEntries(Fresh(range), init, true), last.value, ValuesOf(init), Absent(init));
      } else {
        assert ValuesOf(init) + [] == ValuesOf(init);
      }
    }
  }

  lemma {:induction false} AddValuesRange(a: Accumulator, vs: seq<Num>, statistics: bool)
    ensures AddValues(a, vs, statistics).range == a.range
    ensures AddValues(a, vs, statistics).valueCount == a.valueCount + |vs|
  {
    if vs != [] {
      AddValuesRange(a, vs[..|vs| - 1], statistics);
    }
  }

  lemma {:induction false} AddEntriesRange(a: Accumulator, es: seq<Entry>, statistics: bool)
    ensures AddEntries(a, es, statistics).range == a.range
    ensures AddEntries(a, es, statistics).valueCount == a.valueCount + |ValuesOf(es)|
  {
    if es != [] {
      AddEntriesRange(a, es[..|es| - 1], statistics);
      if es[|es| - 1].Some? {
        AddValuesRange(AddEntries(a, es[..|es| - 1], statistics), es[|es| - 1].value, statistics);
      }
    }
  }

  // ----- The sweep -----

  method Advance(ranges: seq<EntryRange>, from: nat, entry: nat) returns (active: nat)
    requires Ordered(ranges) && from <= |ranges|
    requires forall k :: 0 <= k < from ==> ranges[k].end <= entry
    ensures active <= |ranges| && (active < |ranges| ==> entry < ranges[active].end)
    ensures forall k :: 0 <= k < active ==> ranges[k].end <= entry
  {
    active := from;
    while active < |ranges| && entry >= ranges[active].end
      invariant active <= |ranges|
      invariant forall k :: 0 <= k < active ==> ranges[k].end <= entry
    {
      active := active + 1;
    }
  }

  /** One pass over the entries; the active basket only ever moves forward. Every
      basket ends up with exactly the entries of its range. */
  method Sweep(entries: seq<Entry>, ranges: seq<EntryRange>, statistics: bool) returns (baskets: seq<Accumulator>)
    requires Ordered(ranges) && forall k :: 0 <= k < |ranges| ==> ranges[k].end <= |entries|
    ensures |baskets| == |ranges|
    ensures forall k :: 0 <= k < |ranges| ==>
      baskets[k] == AddEntries(Fresh(ranges[k]), entries[ranges[k].begin..ranges[k].end], statistics)
  {
    baskets := seq(|ranges|, k requires 0 <= k < |ranges| => Fresh(ranges[k]));
    var active := 0;
    for entry := 0 to |entries|
      invariant |baskets| == |ranges| && 0 <= active <= |ranges|
      invariant forall k :: 0 <= k < active ==> ranges[k].end <= entry
      invariant forall k :: 0 <= k < |ranges| ==> baskets[k] == SweptTo(entries, ranges[k], entry, statistics)
    {
      active := Advance(ranges, active, entry);
      SweptAll(entries, ranges, active, entry, statistics);
      if active < |ranges| && ranges[active].begin <= entry < ranges[active].end {
        baskets := baskets[active := AddEntry(baskets[active], entries[entry], statistics)];
      }
    }
  }

  /** One more entry changes only the active basket, and only from its first entry on. */
  lemma {:induction false} SweptAll(entries: seq<Entry>, ranges: seq<EntryRange>, active: nat, entry: nat,
                                    statistics: bool)
    requires Ordered(ranges) && (forall k :: 0 <= k < |ranges| ==> ranges[k].end <= |entries|) && entry < |entries|
    requires active <= |ranges| && (active < |ranges| ==> entry < ranges[active].end)
    requires forall k :: 0 <= k < active ==> ranges[k].end <= entry
    ensures forall k :: 0 <= k < |ranges| ==>
      SweptTo(entries, ranges[k], entry + 1, statistics) ==
      if k == active && ranges[k].begin <= entry
      then AddEntry(SweptTo(entries, ranges[k], entry, statistics), entries[entry], statistics)
      else SweptTo(entries, ranges[k], entry, statistics)
  {
    forall k | 0 <= k < |ranges|
      ensures SweptTo(entries, ranges[k], entry + 1, statistics) ==
        if k == active && ranges[k].begin <= entry
        then AddEntry(SweptTo(entries, ranges[k], entry, statistics), entries[entry], statistics)
        else SweptTo(entries, ranges[k], entry, statistics)
    {
      SweptStep(entries, ranges[k], entry, statistics);
      if k < active {
        assert ranges[k].end <= entry;
      } else if active < k {
        assert ranges[active].end <= ranges[k].begin;
      }
    }
  }

  /** The accumulator of a range after the entries below `upTo` have gone by. */
  function SweptTo(entries: seq<Entry>, range: EntryRange, upTo: nat, statistics: bool): Accumulator
    requires range.end <= |entries| && range.begin < range.end
  {
    AddEntries(Fresh(range), entries[range.begin..Max(range.begin, Min(upTo, range.end))], statistics)
  }

  lemma {:induction false} SweptStep(entries: seq<Entry>, range: EntryRange, entry: nat, statistics: bool)
    requires range.end <= |entries| && range.begin < range.end && entry < |entries|
    ensures SweptTo(entries, range, entry + 1, statistics) ==
      if range.begin <= entry < range.end
      then AddEntry(SweptTo(entries, range, entry, statistics), entries[entry], statistics)
      else SweptTo(entries, range, entry, statistics)
  {
    if range.begin <= entry < range.end {
      var next := entries[range.begin..entry + 1];
      assert next[..|next| - 1] == entries[range.begin..entry] && next[|next| - 1] == entries[entry];
    }
  }

  // ----- Metadata rows -----

  datatype BasketMeta = BasketMeta(range: EntryRange, flatBegin: nat, stats: Stats)
  datatype FileMeta = FileMeta(totalEntries: nat, basketCount: nat, stats: Stats)

  function ZoneOf(a: Accumulator): Zone {
    if a.finiteCount > 0 && IsFinite(a.min) && IsFinite(a.max)
    then Expressions.Zone(Some(Real(a.min)), Some(Real(a.max)))
    else Expressions.Zone(None, None)
  }

  function StatsOf(a: Accumulator, bloom: seq<Bloom.Byte>): Stats {
    Stats(a.valueCount, a.nullCount, a.nanCount, a.posInfCount, a.negInfCount, ZoneOf(a), bloom)
  }

  /** The extremes are values that occur, and are absent exactly if no finite value does. */
  ghost predicate Attained(z: Zone, values: seq<Num>) {
    && (z.min.Some? <==> z.max.Some?)
    && (z.min.Some? <==> exists v :: v in values && IsFinite(v))
    && (z.min.Some? ==> exists v :: v in values && IsFinite(v) && Real(v) == z.min.value)
    && (z.max.Some? ==> exists v :: v in values && IsFinite(v) && Real(v) == z.max.value)
  }

  /** Every counter is exact. Without statistics only values and absent objects are counted. */
  ghost predicate CountsExact(s: Stats, values: seq<Num>, absent: nat, statistics: bool) {
    && s.valueCount == |values| && s.nullCount == absent
    && (statistics ==> s.nanCount == multiset(values)[NaN] && s.posInfCount == multiset(values)[PosInf] &&
                       s.negInfCount == multiset(values)[NegInf] && Attained(s.zone, values))
    && (!statistics ==> s.nanCount == s.posInfCount == s.negInfCount == 0 &&
                        s.zone == Expressions.Zone(None, None))
  }

  lemma {:induction false} TalliesCount(a: Accumulator, seen: seq<Num>, absent: nat, bloom: seq<Bloom.Byte>)
    requires Tallies(a, seen, absent)
    ensures CountsExact(StatsOf(a, bloom), seen, absent, true)
  {
    if a.finiteCount > 0 {
      assert a.min in seen && IsFinite(a.min) && a.max in seen && IsFinite(a.max);
    } else {
      forall v | v in seen ensures !IsFinite(v) {
        assert v in a.bloomInput || !IsFinite(v);
      }
    }
  }

  /** Without statistics an accumulator only counts. */
  predicate OnlyCounts(a: Accumulator, values: nat, absent: nat) {
    a.valueCount == values && a.nullCount == absent && a.nanCount == a.posInfCount == a.negInfCount == 0 &&
    a.finiteCount == 0
  }

  lemma {:induction false} AddValuesCounts(a: Accumulator, vs: seq<Num>, values: nat, absent: nat)
    requires OnlyCounts(a, values, absent)
    ensures OnlyCounts(AddValues(a, vs, false), values + |vs|, absent)
  {
    if vs != [] {
      AddValuesCounts(a, vs[..|vs| - 1], values, absent);
    }
  }

  lemma {:induction false} AddEntriesCounts(range: EntryRange, es: seq<Entry>)
    ensures OnlyCounts(AddEntries(Fresh(range), es, false), |ValuesOf(es)|, Absent(es))
  {
    if es != [] {
      var init, last := es[..|es| - 1], es[|es| - 1];
      AddEntriesCounts(range, init);
      if last.Some? {
        AddValuesCounts(AddEntries(Fresh(range), init, false), last.value, |ValuesOf(init)|, Absent(init));
      }
    }
  }

  lemma {:induction false} TalliesDescribe(h: Bloom.Hashing, a: Accumulator, seen: seq<Num>, absent: nat,
                                           bloom: seq<Bloom.Byte>)
    requires Tallies(a, seen, absent) && Bloom.Covers(h, bloom, a.bloomInput)
    ensures Describes(h, StatsOf(a, bloom), seen)
  {
    assert forall v :: v in seen <==> multiset(seen)[v] > 0;
    if a.finiteCount > 0 {
      assert a.min in seen && IsFinite(a.min);
    }
  }

  /** Extends a zone by a basket's finite extremes. */
  function WidenZone(z: Zone, b: Zone): Zone {
    if b.min.None? || b.max.None? then z
    else if z.min.None? || z.max.None? then b
    else Expressions.Zone(Some(if b.min.value < z.min.value then b.min.value else z.min.value),
                          Some(if b.max.value > z.max.value then b.max.value else z.max.value))
  }

  function AddStats(f: Stats, b: Stats): Stats {
    Stats(f.valueCount + b.valueCount, f.nullCount + b.nullCount, f.nanCount + b.nanCount,
          f.posInfCount + b.posInfCount, f.negInfCount + b.negInfCount, WidenZone(f.zone, b.zone), [])
  }

  const NO_STATS := Stats(0, 0, 0, 0, 0, Expressions.Zone(None, None), [])

  /** A file row carries no Bloom filter, so the empty payload describes it. */
  lemma {:induction false} EmptyPayloadCovers(h: Bloom.Hashing, values: seq<Num>)
    ensures Bloom.Covers(h, [], values)
  {
  }

  lemma {:induction false} AddStatsDescribes(h: Bloom.Hashing, f: Stats, fv: seq<Num>, b: Stats, bv: seq<Num>)
    requires Describes(h, f, fv) && Describes(h, b, bv)
    ensures Describes(h, AddStats(f, b), fv + bv)
  {
    EmptyPayloadCovers(h, fv + bv);
    var s := AddStats(f, b);
    forall v | v in fv + bv && IsFinite(v) ensures Expressions.Inside(v, s.zone) {
      assert v in fv || v in bv;
      assert v in fv ==> Expressions.Inside(v, f.zone);
      assert v in bv ==> Expressions.Inside(v, b.zone);
    }
    if s.zone.min.Some? || s.zone.max.Some? {
      if v :| v in fv && IsFinite(v) {
        assert v in fv + bv;
      } else {
        assert f.zone.min.None? && f.zone.max.None?;
        var v :| v in bv && IsFinite(v);
        assert v in fv + bv;
      }
    }
  }

  lemma {:induction false} WidenAttained(f: Zone, fv: seq<Num>, b: Zone, bv: seq<Num>)
    requires Attained(f, fv) && Attained(b, bv)
    ensures Attained(WidenZone(f, b), fv + bv)
  {
    var z := WidenZone(f, b);
    forall v | v in fv || v in bv ensures v in fv + bv {}
    if z.min.Some? {
      if f.min.Some? {
        var v :| v in fv && IsFinite(v) && Real(v) == f.min.value;
        var w :| w in fv && IsFinite(w) && Real(w) == f.max.value;
        assert v in fv + bv && w in fv + bv;
      }
      if b.min.Some? {
        var v :| v in bv && IsFinite(v) && Real(v) == b.min.value;
        var w :| w in bv && IsFinite(w) && Real(w) == b.max.value;
        assert v in fv + bv && w in fv + bv;
      }
    } else {
      forall v | v in fv + bv ensures !IsFinite(v) {
        assert v in fv || v in bv;
      }
    }
  }

  /** Adding a basket keeps the file's counters exact. */
  lemma {:induction false} AddStatsExact(f: Stats, fv: seq<Num>, fa: nat, b: Stats, bv: seq<Num>, ba: nat,
                                         statistics: bool)
    requires CountsExact(f, fv, fa, statistics) && CountsExact(b, bv, ba, statistics)
    ensures CountsExact(AddStats(f, b), fv + bv, fa + ba, statistics)
  {
    assert multiset(fv + bv) == multiset(fv) + multiset(bv);
    if statistics {
      WidenAttained(f.zone, fv, b.zone, bv);
    }
  }

  lemma {:induction false} ValuesConcat(a: seq<Entry>, b: seq<Entry>)
    ensures ValuesOf(a + b) == ValuesOf(a) + ValuesOf(b)
    ensures Absent(a + b) == Absent(a) + Absent(b)
  {
    if b == [] {
      assert a + b == a;
    } else {
      var n := |b| - 1;
      assert (a + b)[..|a + b| - 1] == a + b[..n] && (a + b)[|a + b| - 1] == b[n];
      ValuesConcat(a, b[..n]);
    }
  }

  /** Ordered ranges that hold every entry follow one another without a gap. */
  lemma {:induction false} RangesTile(ranges: seq<EntryRange>, total: nat, k: nat)
    requires Ordered(ranges) && (forall entry :: Holds(ranges, entry) <==> 0 <= entry < total) && k <= |ranges|
    ensures k < |ranges| ==> ranges[k].begin == if k == 0 then 0 else ranges[k - 1].end
    ensures k == |ranges| ==> total == if k == 0 then 0 else ranges[k - 1].end
  {
    var end := if k == 0 then 0 else ranges[k - 1].end;
    forall j | 0 <= j < k ensures ranges[j].end <= end {
      assert j == k - 1 || ranges[j].end <= ranges[k - 1].begin;
    }
    if k > 0 {
      assert Holds(ranges, ranges[k - 1].end - 1) by { assert ranges[k - 1].begin <= ranges[k - 1].end - 1; }
    }
    if k < |ranges| {
      assert Holds(ranges, ranges[k].begin);
      if end < ranges[k].begin {
        assert Holds(ranges, end);
        NotHeld(ranges, k, end);
      }
    } else if end < total {
      assert Holds(ranges, end);
      NotHeld(ranges, k, end);
    }
  }

  lemma {:induction false} NotHeld(ranges: seq<EntryRange>, k: nat, entry: int)
    requires Ordered(ranges) && k <= |ranges|
    requires forall j :: 0 <= j < k ==> ranges[j].end <= entry
    requires k < |ranges| ==> entry < ranges[k].begin
    ensures !Holds(ranges, entry)
  {
    forall j | 0 <= j < |ranges| ensures !(ranges[j].begin <= entry < ranges[j].end) {
      if k < j {
        assert ranges[k].end <= ranges[j].begin;
      }
    }
  }

  /** Parameters of the Bloom filters; the last two are what the sizing formulas produce for a basket. */
  datatype BloomParams = BloomParams(maxBytes: nat, streamingHashes: nat, payloadBytes: nat, hashCount: nat)

  predicate ValidParams(b: BloomParams) {
    b.maxBytes <= U32_MAX && 1 <= b.streamingHashes <= 16 &&
    1 <= b.payloadBytes <= Max(1, b.maxBytes) && 1 <= b.hashCount <= 16
  }

  /** The values of the first k basket ranges. */
  function IndexedValues(entries: seq<Entry>, ranges: seq<EntryRange>, k: nat): seq<Num>
    requires k <= |ranges| && Ordered(ranges) && forall j :: 0 <= j < |ranges| ==> ranges[j].end <= |entries|
  {
    if k == 0 then []
    else IndexedValues(entries, ranges, k - 1) + ValuesOf(entries[ranges[k - 1].begin..ranges[k - 1].end])
  }

  /** The values indexed by one basket row. */
  function SeenBy(m: BasketMeta, entries: seq<Entry>): seq<Num> {
    if m.range.begin <= m.range.end <= |entries| then ValuesOf(entries[m.range.begin..m.range.end]) else []
  }

  /** The entries of one basket row whose object is absent. */
  function AbsentIn(m: BasketMeta, entries: seq<Entry>): nat {
    if m.range.begin <= m.range.end <= |entries| then Absent(entries[m.range.begin..m.range.end]) else 0
  }

  /** Metadata of one basket tells the truth about the entries of its range. */
  ghost predicate TrueMeta(h: Bloom.Hashing, m: BasketMeta, entries: seq<Entry>, statistics: bool) {
    && m.range.begin < m.range.end <= |entries|
    && CountsExact(m.stats, SeenBy(m, entries), AbsentIn(m, entries), statistics)
    && (statistics ==> Describes(h, m.stats, SeenBy(m, entries)))
  }

  predicate Owned(metas: seq<BasketMeta>, entry: int) {
    exists k :: 0 <= k < |metas| && metas[k].range.begin <= entry < metas[k].range.end
  }

  /** The file row admits every value that some basket row holds. */
  ghost predicate FileAdmits(file: FileMeta, values: seq<Num>) {
    forall v :: v in values ==>
      (v.NaN? ==> file.stats.nanCount > 0) && (IsFinite(v) ==> Expressions.Inside(v, file.stats.zone))
  }

  /** What the rows of one path of one file promise about its entries. */
  ghost predicate TrueIndex(h: Bloom.Hashing, metas: seq<BasketMeta>, file: FileMeta, entries: seq<Entry>,
                            statistics: bool) {
    && file.totalEntries == |entries| && file.basketCount == |metas|
    && CountsExact(file.stats, ValuesOf(entries), Absent(entries), statistics)
    && (forall k :: 0 <= k < |metas| ==> TrueMeta(h, metas[k], entries, statistics))
    && (forall j, k :: 0 <= j < k < |metas| ==> metas[j].range.end <= metas[k].range.begin)
    && (forall entry :: Owned(metas, entry) <==> 0 <= entry < |entries|)
    && FlatFollows(metas)
    && (statistics ==> forall k :: 0 <= k < |metas| ==> FileAdmits(file, SeenBy(metas[k], entries)))
  }

  /** Turns one accumulator into its row. */
  method WriteRow(h: Bloom.Hashing, params: BloomParams, entries: seq<Entry>, range: EntryRange, basket: Accumulator,
                  flat: nat, statistics: bool) returns (m: BasketMeta)
    requires ValidParams(params) && range.begin < range.end <= |entries|
    requires basket == AddEntries(Fresh(range), entries[range.begin..range.end], statistics)
    ensures m.range == range && m.flatBegin == flat && TrueMeta(h, m, entries, statistics)
    ensures !statistics ==> m.stats.bloom == []
  {
    ghost var run := entries[range.begin..range.end];
    AddEntriesRange(Fresh(range), run, statistics);
    var bloom := [];
    if statistics {
      bloom := Bloom.BuildFilter(h, params.maxBytes, params.streamingHashes,
                                 params.payloadBytes, params.hashCount, basket.bloomInput);
      AddEntriesTallies(range, run);
      TalliesDescribe(h, basket, ValuesOf(run), Absent(run), bloom);
      TalliesCount(basket, ValuesOf(run), Absent(run), bloom);
    } else {
      AddEntriesCounts(range, run);
    }
    m := BasketMeta(range, flat, StatsOf(basket, bloom));
  }

  predicate FlatFollows(metas: seq<BasketMeta>) {
    forall k :: 0 <= k < |metas| - 1 ==> metas[k + 1].flatBegin == metas[k].flatBegin + metas[k].stats.valueCount
  }

  ghost predicate RowsTrue(h: Bloom.Hashing, metas: seq<BasketMeta>, ranges: seq<EntryRange>, entries: seq<Entry>,
                           statistics: bool) {
    |metas| <= |ranges| &&
    (metas != [] ==>
       var last := |metas| - 1;
       RowsTrue(h, metas[..last], ranges, entries, statistics) &&
       metas[last].range == ranges[last] && TrueMeta(h, metas[last], entries, statistics))
  }

  lemma {:induction false} RowTrueAt(h: Bloom.Hashing, metas: seq<BasketMeta>, ranges: seq<EntryRange>,
                                     entries: seq<Entry>,
                                     statistics: bool, k: nat)
    requires RowsTrue(h, metas, ranges, entries, statistics) && k < |metas|
    ensures k < |ranges| && metas[k].range == ranges[k] && TrueMeta(h, metas[k], entries, statistics)
  {
    if k < |metas| - 1 {
      RowTrueAt(h, metas[..|metas| - 1], ranges, entries, statistics, k);
    }
  }

  /** The file statistics aggregated from its basket rows. */
  function FoldStats(metas: seq<BasketMeta>): Stats {
    if metas == [] then NO_STATS else AddStats(FoldStats(metas[..|metas| - 1]), metas[|metas| - 1].stats)
  }

  /** The entries in front of the end of the k-th range. */
  function Covered(entries: seq<Entry>, ranges: seq<EntryRange>, k: nat): seq<Entry>
    requires k <= |ranges| && forall j :: 0 <= j < |ranges| ==> ranges[j].end <= |entries|
  {
    if k == 0 then [] else entries[..ranges[k - 1].end]
  }

  /** The ranges of a file tile its entries. */
  ghost predicate Tiling(ranges: seq<EntryRange>, entries: seq<Entry>) {
    Ordered(ranges) && (forall k :: 0 <= k < |ranges| ==> ranges[k].end <= |entries|) &&
    forall entry :: Holds(ranges, entry) <==> 0 <= entry < |entries|
  }

  lemma {:induction false} CoveredNext(entries: seq<Entry>, ranges: seq<EntryRange>, k: nat)
    requires Tiling(ranges, entries) && k < |ranges| && ranges[k].begin < ranges[k].end
    ensures ValuesOf(Covered(entries, ranges, k + 1)) ==
      ValuesOf(Covered(entries, ranges, k)) + ValuesOf(entries[ranges[k].begin..ranges[k].end])
    ensures Absent(Covered(entries, ranges, k + 1)) ==
      Absent(Covered(entries, ranges, k)) + Absent(entries[ranges[k].begin..ranges[k].end])
  {
    RangesTile(ranges, |entries|, k);
    var before, run := Covered(entries, ranges, k), entries[ranges[k].begin..ranges[k].end];
    assert before + run == Covered(entries, ranges, k + 1);
    ValuesConcat(before, run);
  }

  /** The folded statistics count exactly the values of the entries read so far. */
  lemma {:induction false} FoldStatsExact(h: Bloom.Hashing, metas: seq<BasketMeta>, ranges: seq<EntryRange>,
                                          entries: seq<Entry>, statistics: bool)
    requires Tiling(ranges, entries) && RowsTrue(h, metas, ranges, entries, statistics)
    ensures var run := Covered(entries, ranges, |metas|);
      CountsExact(FoldStats(metas), ValuesOf(run), Absent(run), statistics)
  {
    if metas != [] {
      var n := |metas| - 1;
      var init, last := metas[..n], metas[n];
      FoldStatsExact(h, init, ranges, entries, statistics);
      CoveredNext(entries, ranges, n);
      var before, run := Covered(entries, ranges, n), entries[last.range.begin..last.range.end];
      AddStatsExact(FoldStats(init), ValuesOf(before), Absent(before),
                    last.stats, ValuesOf(run), Absent(run), statistics);
    }
  }

  /** The statistics of the whole file count exactly the values of its entries. */
  lemma {:induction false} FileStatsExact(h: Bloom.Hashing, metas: seq<BasketMeta>, ranges: seq<EntryRange>,
                                          entries: seq<Entry>, statistics: bool)
    requires Tiling(ranges, entries) && RowsTrue(h, metas, ranges, entries, statistics) && |metas| == |ranges|
    ensures CountsExact(FoldStats(metas), ValuesOf(entries), Absent(entries), statistics)
  {
    FoldStatsExact(h, metas, ranges, entries, statistics);
    RangesTile(ranges, |entries|, |ranges|);
    assert Covered(entries, ranges, |metas|) == entries;
  }

  lemma {:induction false} FoldStatsDescribes(h: Bloom.Hashing, metas: seq<BasketMeta>, ranges: seq<EntryRange>,
                                              entries: seq<Entry>)
    requires Ordered(ranges) && forall k :: 0 <= k < |ranges| ==> ranges[k].end <= |entries|
    requires RowsTrue(h, metas, ranges, entries, true)
    ensures Describes(h, FoldStats(metas), IndexedValues(entries, ranges, |metas|))
  {
    if metas == [] {
      EmptyPayloadCovers(h, []);
    } else {
      var init, last := metas[..|metas| - 1], metas[|metas| - 1];
      assert TrueMeta(h, last, entries, true);
      FoldStatsDescribes(h, init, ranges, entries);
      AddStatsDescribes(h, FoldStats(init), IndexedValues(entries, ranges, |init|), last.stats, SeenBy(last, entries));
    }
  }

  /** Writes the basket rows in order and folds them into the file statistics. */
  method WriteRows(h: Bloom.Hashing, params: BloomParams, entries: seq<Entry>, ranges: seq<EntryRange>,
                   baskets: seq<Accumulator>, statistics: bool) returns (metas: seq<BasketMeta>, total: Stats)
    requires ValidParams(params)
    requires Ordered(ranges) && forall k :: 0 <= k < |ranges| ==> ranges[k].end <= |entries|
    requires |baskets| == |ranges|
    requires forall k :: 0 <= k < |ranges| ==>
      baskets[k] == AddEntries(Fresh(ranges[k]), entries[ranges[k].begin..ranges[k].end], statistics)
    ensures |metas| == |ranges| && RowsTrue(h, metas, ranges, entries, statistics) && FlatFollows(metas)
    ensures total == FoldStats(metas)
  {
    metas := [];
    var flat: nat := 0;
    total := NO_STATS;
    for k := 0 to |ranges|
      invariant |metas| == k && RowsTrue(h, metas, ranges, entries, statistics)
      invariant FlatFollows(metas)
      invariant k > 0 ==> flat == metas[k - 1].flatBegin + metas[k - 1].stats.valueCount
      invariant total == FoldStats(metas)
    {
      var m := WriteRow(h, params, entries, ranges[k], baskets[k], flat, statistics);
      assert (metas + [m])[..k] == metas;
      metas := metas + [m];
      flat := flat + m.stats.valueCount;
      total := AddStats(total, m.stats);
    }
  }

  /** Index rows of one path of one file. */
  method BuildPath(h: Bloom.Hashing, params: BloomParams, starts: seq<nat>, entries: seq<Entry>, statistics: bool)
    returns (metas: seq<BasketMeta>, file: FileMeta)
    requires ValidParams(params) && BasketStarts(starts)
    ensures TrueIndex(h, metas, file, entries, statistics)
  {
    var ranges := BasketRanges(starts, |entries|);
    forall k | 0 <= k < |ranges| ensures ranges[k].end <= |entries| {
      assert Holds(ranges, ranges[k].end - 1);
    }
    var baskets := Sweep(entries, ranges, statistics);
    var total;
    metas, total := WriteRows(h, params, entries, ranges, baskets, statistics);
    file := FileMeta(|entries|, |metas|, total);
    forall k | 0 <= k < |metas|
      ensures metas[k].range == ranges[k] && TrueMeta(h, metas[k], entries, statistics)
    {
      RowTrueAt(h, metas, ranges, entries, statistics, k);
    }
    OwnedByRanges(metas, ranges);
    FileStatsExact(h, metas, ranges, entries, statistics);
    if statistics {
      FoldStatsDescribes(h, metas, ranges, entries);
      FileAdmitsAll(h, file, metas, entries, ranges);
    }
  }

  lemma {:induction false} OwnedByRanges(metas: seq<BasketMeta>, ranges: seq<EntryRange>)
    requires |metas| == |ranges| && forall k :: 0 <= k < |ranges| ==> metas[k].range == ranges[k]
    ensures forall entry :: Owned(metas, entry) <==> Holds(ranges, entry)
  {
    forall entry ensures Owned(metas, entry) <==> Holds(ranges, entry) {
      if Owned(metas, entry) {
        var k :| 0 <= k < |metas| && metas[k].range.begin <= entry < metas[k].range.end;
        assert ranges[k].begin <= entry < ranges[k].end;
      }
      if Holds(ranges, entry) {
        var k :| 0 <= k < |ranges| && ranges[k].begin <= entry < ranges[k].end;
        assert metas[k].range.begin <= entry < metas[k].range.end;
      }
    }
  }

  lemma {:induction false} FileAdmitsAll(h: Bloom.Hashing, file: FileMeta, metas: seq<BasketMeta>,
                                         entries: seq<Entry>, ranges: seq<EntryRange>)
    requires Ordered(ranges) && forall j :: 0 <= j < |ranges| ==> ranges[j].end <= |entries|
    requires |metas| == |ranges| && forall k :: 0 <= k < |ranges| ==> metas[k].range == ranges[k]
    requires Describes(h, file.stats, IndexedValues(entries, ranges, |ranges|))
    ensures forall k :: 0 <= k < |metas| ==> FileAdmits(file, SeenBy(metas[k], entries))
  {
    forall k | 0 <= k < |metas| ensures FileAdmits(file, SeenBy(metas[k], entries)) {
      forall v | v in SeenBy(metas[k], entries) ensures v in IndexedValues(entries, ranges, |ranges|) {
        IndexedContains(entries, ranges, k, |ranges|, v);
      }
    }
  }

  lemma {:induction false} IndexedContains(entries: seq<Entry>, ranges: seq<EntryRange>, k: nat, n: nat, v: Num)
    requires Ordered(ranges) && forall j :: 0 <= j < |ranges| ==> ranges[j].end <= |entries|
    requires k < n <= |ranges| && v in ValuesOf(entries[ranges[k].begin..ranges[k].end])
    ensures v in IndexedValues(entries, ranges, n)
  {
    var init, last := IndexedValues(entries, ranges, n - 1), ValuesOf(entries[ranges[n - 1].begin..ranges[n - 1].end]);
    if k < n - 1 {
      IndexedContains(entries, ranges, k, n - 1, v);
      assert v in init;
    } else {
      assert v in last;
    }
    assert v in init + last;
  }

  /** The values of every entry of a run are among the run's values. */
  lemma {:induction false} EntryValuesIncluded(es: seq<Entry>, k: nat, v: Num)
    requires k < |es| && es[k].Some? && v in es[k].value
    ensures v in ValuesOf(es)
  {
    if k < |es| - 1 {
      assert es[..|es| - 1][k] == es[k];
      EntryValuesIncluded(es[..|es| - 1], k, v);
    }
  }
}
