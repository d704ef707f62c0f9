/** Auxiliary path predicates: exact event evaluation, the metadata test over
    basket statistics, and the candidate entry intervals they produce. */
module PathPredicates {
  import opened Numbers
  import Expressions
  import Bloom
  import opened EntrySelection

  type Zone = Expressions.Zone

  /** What the index keeps about the values of one basket or file. */
  datatype Stats = Stats(
    valueCount: nat, nullCount: nat, nanCount: nat, posInfCount: nat, negInfCount: nat,
    zone: Zone, bloom: seq<Bloom.Byte>)

  /** The statistics tell the truth about a sequence of values. */
  ghost predicate Describes(h: Bloom.Hashing, s: Stats, values: seq<Num>) {
    && (NaN in values <==> s.nanCount > 0)
    && (PosInf in values <==> s.posInfCount > 0)
    && (NegInf in values <==> s.negInfCount > 0)
    && (forall v :: v in values && IsFinite(v) ==> Expressions.Inside(v, s.zone))
    && (s.zone.min.Some? || s.zone.max.Some? ==> exists v :: v in values && IsFinite(v))
    && Bloom.Covers(h, s.bloom, values)
  }

  // ----- Exact evaluation -----

  datatype PredicateOp = EQ | NE | LT | LE | GT | GE | BETWEEN | IN

  /** The physical type of the path: FLOAT or DOUBLE, BOOLEAN or an integer of up to 32 bits, or an integer
      of 64 bits, whose statistics the index cannot hold. */
  datatype ValueKind = Floating | SmallInteger | WideInteger

  predicate IsInteger(v: Num) {
    IsFinite(v) && Real(v).Floor as real == Real(v)
  }

  /** Only floating data can hold anything but integers. */
  predicate OfKind(kind: ValueKind, values: seq<Num>) {
    !kind.Floating? ==> forall k :: 0 <= k < |values| ==> IsInteger(values[k])
  }

  datatype PathPredicate = PathPredicate(op: PredicateOp, values: seq<Num>, requireAll: bool, kind: ValueKind)

  predicate DoubleBackedPath(p: PathPredicate) {
    !p.kind.WideInteger?
  }

  /** What the parser guarantees: enough constants, all of them finite numbers. */
  predicate WellFormed(p: PathPredicate) {
    |p.values| >= (if p.op.BETWEEN? then 2 else 1) &&
    forall k :: 0 <= k < |p.values| ==> IsFinite(p.values[k])
  }

  /** The three-way comparison of the executor: NaN comes out equal to everything. */
  function Compare(a: Num, b: Num): int {
    if IeeeLess(a, b) then -1 else if IeeeLess(b, a) then 1 else 0
  }

  predicate ValueMatches(p: PathPredicate, v: Num)
    requires WellFormed(p)
  {
    match p.op
    case EQ => Compare(v, p.values[0]) == 0
    case NE => Compare(v, p.values[0]) != 0
    case LT => Compare(v, p.values[0]) < 0
    case LE => Compare(v, p.values[0]) <= 0
    case GT => Compare(v, p.values[0]) > 0
    case GE => Compare(v, p.values[0]) >= 0
    case BETWEEN => Compare(v, p.values[0]) >= 0 && Compare(v, p.values[1]) <= 0
    case IN => exists k :: 0 <= k < |p.values| && Compare(v, p.values[k]) == 0
  }

  predicate EventMatches(p: PathPredicate, values: seq<Num>)
    requires WellFormed(p)
  {
    values != [] &&
    if p.requireAll then forall k :: 0 <= k < |values| ==> ValueMatches(p, values[k])
    else exists k :: 0 <= k < |values| && ValueMatches(p, values[k])
  }

  /** SQL's own comparison of a value with the constants. */
  predicate Satisfies(p: PathPredicate, v: Num)
    requires WellFormed(p)
  {
    match p.op
    case EQ => Expressions.Compares(Expressions.Eq, v, p.values[0])
    case NE => Expressions.Compares(Expressions.Ne, v, p.values[0])
    case LT => Expressions.Compares(Expressions.Lt, v, p.values[0])
    case LE => Expressions.Compares(Expressions.Le, v, p.values[0])
    case GT => Expressions.Compares(Expressions.Gt, v, p.values[0])
    case GE => Expressions.Compares(Expressions.Ge, v, p.values[0])
    case BETWEEN => Expressions.Compares(Expressions.Ge, v, p.values[0]) &&
                    Expressions.Compares(Expressions.Le, v, p.values[1])
    case IN => exists k :: 0 <= k < |p.values| && Expressions.Compares(Expressions.Eq, v, p.values[k])
  }

  lemma {:induction false} SomeConstant(p: PathPredicate, v: Num)
    requires WellFormed(p) && p.op.IN? && !v.NaN?
    ensures ValueMatches(p, v) <==> Satisfies(p, v)
  {
    if k :| 0 <= k < |p.values| && Compare(v, p.values[k]) == 0 {
      assert Expressions.Compares(Expressions.Eq, v, p.values[k]);
    }
    if k :| 0 <= k < |p.values| && Expressions.Compares(Expressions.Eq, v, p.values[k]) {
      assert Compare(v, p.values[k]) == 0;
    }
  }

  /** One value matches as SQL compares it, except for NaN, which comes out equal to every constant. */
  lemma {:induction false} SingleValue(p: PathPredicate, v: Num)
    requires WellFormed(p)
    ensures EventMatches(p, [v]) <==> if v.NaN? then !RejectsNaN(p.op) else Satisfies(p, v)
  {
    assert [v][0] == v;
    if p.op.IN? {
      if v.NaN? {
        assert Compare(v, p.values[0]) == 0;
      } else {
        SomeConstant(p, v);
      }
    }
  }

  /** An event without values satisfies no predicate. Of a longer one, ALL asks both parts and ANY one of them. */
  lemma {:induction false} QuantifierSplits(p: PathPredicate, a: seq<Num>, b: seq<Num>)
    requires WellFormed(p)
    ensures !EventMatches(p, [])
    ensures a != [] && b != [] && p.requireAll ==>
      (EventMatches(p, a + b) <==> EventMatches(p, a) && EventMatches(p, b))
    ensures a != [] && b != [] && !p.requireAll ==>
      (EventMatches(p, a + b) <==> EventMatches(p, a) || EventMatches(p, b))
  {
    assert forall k :: 0 <= k < |a| ==> (a + b)[k] == a[k];
    assert forall k :: 0 <= k < |b| ==> (a + b)[|a| + k] == b[k];
    assert forall k :: |a| <= k < |a + b| ==> (a + b)[k] == b[k - |a|];
  }

  /** So the answer for an event is determined value by value. */
  lemma {:induction false} EventMatchesExactly(p: PathPredicate, event: seq<Num>)
    requires WellFormed(p)
    ensures p.requireAll ==>
      (EventMatches(p, event) <==> event != [] && forall k :: 0 <= k < |event| ==> EventMatches(p, [event[k]]))
    ensures !p.requireAll ==>
      (EventMatches(p, event) <==> exists k :: 0 <= k < |event| && EventMatches(p, [event[k]]))
    decreases |event|
  {
    if event == [] {
      QuantifierSplits(p, [], []);
    } else if |event| > 1 {
      var init, last := event[..|event| - 1], [event[|event| - 1]];
      assert event == init + last;
      QuantifierSplits(p, init, last);
      EventMatchesExactly(p, init);
    } else {
      assert event == [event[0]];
    }
  }

  // ----- The metadata test -----

  predicate HasFinite(s: Stats) {
    s.zone.min.Some? && s.zone.max.Some?
  }

  predicate EqualityPossible(h: Bloom.Hashing, s: Stats, bloom: bool, x: Num)
    requires IsFinite(x)
  {
    HasFinite(s) && s.zone.min.value <= Real(x) <= s.zone.max.value &&
    (!bloom || Bloom.MayContain(h, s.bloom, x))
  }

  /** `bloom` tells whether the query fetched the Bloom column. */
  predicate MayMatch(h: Bloom.Hashing, p: PathPredicate, s: Stats, bloom: bool)
    requires WellFormed(p)
  {
    !DoubleBackedPath(p) ||
    var c := Real(p.values[0]);
    match p.op
    case EQ => EqualityPossible(h, s, bloom, p.values[0])
    case NE => s.nanCount > 0 || s.posInfCount > 0 || s.negInfCount > 0 ||
               !HasFinite(s) || s.zone.min.value != c || s.zone.max.value != c
    case LT => s.negInfCount > 0 || (HasFinite(s) && s.zone.min.value < c)
    case LE => s.negInfCount > 0 || (HasFinite(s) && s.zone.min.value <= c)
    case GT => s.posInfCount > 0 || (HasFinite(s) && s.zone.max.value > c)
    case GE => s.posInfCount > 0 || (HasFinite(s) && s.zone.max.value >= c)
    case BETWEEN => HasFinite(s) && s.zone.max.value >= c && s.zone.min.value <= Real(p.values[1])
    case IN => exists k :: 0 <= k < |p.values| && EqualityPossible(h, s, bloom, p.values[k])
  }

  /** A basket holding a matching value other than NaN is never rejected. */
  lemma {:induction false} MetadataSound(h: Bloom.Hashing, p: PathPredicate, s: Stats, bloom: bool, values: seq<Num>,
                                         v: Num)
    requires WellFormed(p) && Describes(h, s, values)
    requires v in values && !v.NaN? && ValueMatches(p, v)
    ensures MayMatch(h, p, s, bloom)
  {
    if p.op.IN? {
      var k :| 0 <= k < |p.values| && Compare(v, p.values[k]) == 0;
      assert EqualityPossible(h, s, bloom, p.values[k]);
    }
  }

  /** What the statistics alone leave possible, NaN aside. */
  predicate Possible(s: Stats, v: Num) {
    match v
    case Fin(_) => Expressions.Inside(v, s.zone)
    case NegZero => Expressions.Inside(v, s.zone)
    case PosInf => s.posInfCount > 0
    case NegInf => s.negInfCount > 0
    case NaN => false
  }

  ghost predicate SomePossible(p: PathPredicate, s: Stats)
    requires WellFormed(p)
  {
    exists v :: Possible(s, v) && ValueMatches(p, v)
  }

  lemma {:induction false} PossibleMatch(p: PathPredicate, s: Stats, v: Num)
    requires WellFormed(p) && Possible(s, v) && ValueMatches(p, v)
    ensures SomePossible(p, s)
  {
  }

  /** Without the Bloom filter the test rejects a basket exactly if nothing that its statistics leave possible
      matches; <> is looser, and so is a BETWEEN whose bounds are reversed. */
  lemma {:induction false} MetadataExact(h: Bloom.Hashing, p: PathPredicate, s: Stats)
    requires WellFormed(p) && DoubleBackedPath(p) && !p.op.NE?
    requires p.op.BETWEEN? ==> Real(p.values[0]) <= Real(p.values[1])
    requires (s.zone.min.Some? <==> s.zone.max.Some?) && (HasFinite(s) ==> s.zone.min.value <= s.zone.max.value)
    ensures MayMatch(h, p, s, false) <==> SomePossible(p, s)
  {
    if v :| Possible(s, v) && ValueMatches(p, v) {
      PossiblePasses(h, p, s, v);
    }
    if MayMatch(h, p, s, false) {
      MatchBetween(h, p, s);
    }
  }

  lemma {:induction false} PossiblePasses(h: Bloom.Hashing, p: PathPredicate, s: Stats, v: Num)
    requires WellFormed(p) && Possible(s, v) && ValueMatches(p, v)
    ensures MayMatch(h, p, s, false)
  {
    if p.op.IN? {
      var k :| 0 <= k < |p.values| && Compare(v, p.values[k]) == 0;
      assert EqualityPossible(h, s, false, p.values[k]);
    }
  }

  lemma {:induction false} MatchBetween(h: Bloom.Hashing, p: PathPredicate, s: Stats)
    requires WellFormed(p) && DoubleBackedPath(p) && !p.op.NE? && MayMatch(h, p, s, false)
    requires p.op.BETWEEN? ==> Real(p.values[0]) <= Real(p.values[1])
    requires HasFinite(s) ==> s.zone.min.value <= s.zone.max.value
    ensures SomePossible(p, s)
  {
    match p.op
    case EQ => PossibleMatch(p, s, Fin(Real(p.values[0])));
    case LT => PossibleMatch(p, s, if s.negInfCount > 0 then NegInf else Fin(s.zone.min.value));
    case LE => PossibleMatch(p, s, if s.negInfCount > 0 then NegInf else Fin(s.zone.min.value));
    case GT => PossibleMatch(p, s, if s.posInfCount > 0 then PosInf else Fin(s.zone.max.value));
    case GE => PossibleMatch(p, s, if s.posInfCount > 0 then PosInf else Fin(s.zone.max.value));
    case BETWEEN =>
      var c := Real(p.values[0]);
      PossibleMatch(p, s, Fin(if c < s.zone.min.value then s.zone.min.value else c));
    case IN =>
      var k :| 0 <= k < |p.values| && EqualityPossible(h, s, false, p.values[k]);
      var v := Fin(Real(p.values[k]));
      assert Compare(v, p.values[k]) == 0;
      PossibleMatch(p, s, v);
  }

  /** Operators under which NaN, equal to every constant, does not match. */
  predicate RejectsNaN(op: PredicateOp) {
    op.NE? || op.LT? || op.GT?
  }

  /** The metadata test never loses a basket with a matching value. */
  ghost predicate NeverLoses(p: PathPredicate)
    requires WellFormed(p)
  {
    forall h, s, values, v, bloom ::
      OfKind(p.kind, values) && Describes(h, s, values) && v in values && ValueMatches(p, v) ==>
        MayMatch(h, p, s, bloom)
  }

  /** A basket of NaN only: the executor matches it, its statistics say nothing can. */
  lemma {:induction false} NaNBasketIsLost(h: Bloom.Hashing, p: PathPredicate)
    requires WellFormed(p) && p.kind.Floating? && !RejectsNaN(p.op)
    ensures var s := Stats(1, 0, 1, 0, 0, Expressions.Zone(None, None), []);
      OfKind(p.kind, [NaN]) && Describes(h, s, [NaN]) && ValueMatches(p, NaN) && !MayMatch(h, p, s, false)
  {
    if p.op.IN? {
      assert Compare(NaN, p.values[0]) == 0;
    }
  }

  /** The metadata test is safe for all data of a path exactly when the data cannot hold NaN or NaN cannot
      satisfy the operator. */
  lemma {:induction false} NeverLosesExactly(p: PathPredicate)
    requires WellFormed(p)
    ensures NeverLoses(p) <==> !p.kind.Floating? || RejectsNaN(p.op)
  {
    if p.kind.Floating? && !RejectsNaN(p.op) {
      var h := Bloom.Hashing(_ => 0, _ => 0);
      NaNBasketIsLost(h, p);
      var s := Stats(1, 0, 1, 0, 0, Expressions.Zone(None, None), []);
      assert NaN in [NaN];
    } else {
      forall h, s, values, v, bloom |
        OfKind(p.kind, values) && Describes(h, s, values) && v in values && ValueMatches(p, v)
        ensures MayMatch(h, p, s, bloom)
      {
        assert !v.NaN?;
        MetadataSound(h, p, s, bloom, values, v);
      }
    }
  }

  /** Some value of the event other than NaN matches. */
  predicate MatchesBeyondNaN(p: PathPredicate, event: seq<Num>)
    requires WellFormed(p)
  {
    exists k :: 0 <= k < |event| && ValueMatches(p, event[k]) && !event[k].NaN?
  }

  /** Every event that satisfies the predicate does, unless NaN alone can be what satisfies it. */
  lemma {:induction false} MatchesWithoutNaN(p: PathPredicate, event: seq<Num>)
    requires WellFormed(p) && EventMatches(p, event)
    requires RejectsNaN(p.op) || NaN !in event
    ensures MatchesBeyondNaN(p, event)
  {
    var k :| 0 <= k < |event| && ValueMatches(p, event[k]);
    assert !event[k].NaN?;
  }

  /** An entry whose event satisfies the predicate by some value other than NaN keeps the basket that holds it. */
  lemma {:induction false} EventKeepsBasket(h: Bloom.Hashing, p: PathPredicate, s: Stats, bloom: bool, values: seq<Num>,
                                            event: seq<Num>)
    requires WellFormed(p) && Describes(h, s, values)
    requires forall k :: 0 <= k < |event| ==> event[k] in values
    requires MatchesBeyondNaN(p, event)
    ensures MayMatch(h, p, s, bloom)
  {
    var k :| 0 <= k < |event| && ValueMatches(p, event[k]) && !event[k].NaN?;
    MetadataSound(h, p, s, bloom, values, event[k]);
  }

  // ----- Candidate intervals -----

  type Candidates = map<string, seq<Interval>>

  predicate InCandidates(c: Candidates, file: string, entry: int) {
    file in c && EntrySelection.Covers(c[file], entry)
  }

  predicate AllNormal(c: Candidates) {
    forall file :: file in c ==> NormalForm(c[file])
  }

  datatype BasketRow = BasketRow(file: string, entries: Interval, stats: Stats)

  predicate NeedsBloom(p: PathPredicate) {
    DoubleBackedPath(p) && (p.op.EQ? || p.op.IN?)
  }

  predicate RowAdmits(h: Bloom.Hashing, p: PathPredicate, row: BasketRow, file: string, entry: int)
    requires WellFormed(p)
  {
    row.file == file && row.entries.begin <= entry < row.entries.end && MayMatch(h, p, row.stats, NeedsBloom(p))
  }

  predicate PredicateAdmits(h: Bloom.Hashing, p: PathPredicate, rows: seq<BasketRow>, file: string, entry: int)
    requires WellFormed(p)
  {
    exists k :: 0 <= k < |rows| && RowAdmits(h, p, rows[k], file, entry)
  }

  lemma {:induction false} PredicateAdmitsStep(h: Bloom.Hashing, p: PathPredicate, rows: seq<BasketRow>, n: nat,
                                               file: string, entry: int)
    requires WellFormed(p) && n < |rows|
    ensures PredicateAdmits(h, p, rows[..n + 1], file, entry) <==>
            PredicateAdmits(h, p, rows[..n], file, entry) || RowAdmits(h, p, rows[n], file, entry)
  {
    if PredicateAdmits(h, p, rows[..n + 1], file, entry) {
      var k :| 0 <= k < n + 1 && RowAdmits(h, p, rows[..n + 1][k], file, entry);
      if k < n { assert rows[..n][k] == rows[k]; }
    }
    if PredicateAdmits(h, p, rows[..n], file, entry) {
      var k :| 0 <= k < n && RowAdmits(h, p, rows[..n][k], file, entry);
      assert rows[..n + 1][k] == rows[k];
    }
    assert rows[..n + 1][n] == rows[n];
  }

  /** Groups by file the entry ranges of the baskets that may match. */
  method CollectIntervals(h: Bloom.Hashing, p: PathPredicate, rows: seq<BasketRow>) returns (c: Candidates)
    requires WellFormed(p)
    ensures forall file, entry :: InCandidates(c, file, entry) <==> PredicateAdmits(h, p, rows, file, entry)
  {
    c := map[];
    for n := 0 to |rows|
      invariant forall file, entry :: InCandidates(c, file, entry) <==> PredicateAdmits(h, p, rows[..n], file, entry)
    {
      var row := rows[n];
      ghost var before := c;
      if MayMatch(h, p, row.stats, NeedsBloom(p)) {
        var sofar := if row.file in c then c[row.file] else [];
        AppendCover(sofar, row.entries);
        c := c[row.file := sofar + [row.entries]];
      }
      forall file, entry
        ensures InCandidates(c, file, entry) <==> PredicateAdmits(h, p, rows[..n + 1], file, entry)
      {
        PredicateAdmitsStep(h, p, rows, n, file, entry);
        assert InCandidates(before, file, entry) <==> PredicateAdmits(h, p, rows[..n], file, entry);
      }
    }
    assert rows[..|rows|] == rows;
  }

  /** Normalises every file's list, whatever order the map is walked in. */
  method NormalizeAll(c: Candidates) returns (r: Candidates)
    ensures AllNormal(r)
    ensures forall file, entry :: InCandidates(r, file, entry) <==> InCandidates(c, file, entry)
  {
    r := map[];
    var todo := c.Keys;
    while todo != {}
      invariant todo <= c.Keys && r.Keys == c.Keys - todo
      invariant AllNormal(r)
      invariant forall file :: file in r ==>
        forall entry :: EntrySelection.Covers(r[file], entry) <==> EntrySelection.Covers(c[file], entry)
    {
      var file :| file in todo;
      var normal := NormalizeIntervals(c[file]);
      r := r[file := normal];
      todo := todo - {file};
    }
  }

  /** Intersects two candidate maps file by file; files left without entries are dropped. */
  method IntersectCandidates(a: Candidates, b: Candidates) returns (r: Candidates)
    requires AllNormal(a) && AllNormal(b)
    ensures AllNormal(r)
    ensures forall file, entry ::
      InCandidates(r, file, entry) <==> InCandidates(a, file, entry) && InCandidates(b, file, entry)
  {
    r := map[];
    var todo := a.Keys;
    while todo != {}
      invariant todo <= a.Keys && r.Keys <= a.Keys - todo
      invariant AllNormal(r)
      invariant forall file, entry :: file !in todo ==>
        (InCandidates(r, file, entry) <==> InCandidates(a, file, entry) && InCandidates(b, file, entry))
    {
      var file :| file in todo;
      if file in b {
        var common := IntersectIntervals(a[file], b[file]);
        if common != [] {
          r := r[file := common];
        }
      }
      todo := todo - {file};
    }
  }

  datatype BoundPredicate = BoundPredicate(p: PathPredicate, rows: seq<BasketRow>)

  predicate AllAdmit(h: Bloom.Hashing, bound: seq<BoundPredicate>, file: string, entry: int)
    requires forall k :: 0 <= k < |bound| ==> WellFormed(bound[k].p)
  {
    forall k :: 0 <= k < |bound| ==> PredicateAdmits(h, bound[k].p, bound[k].rows, file, entry)
  }

  predicate SelectionAdmits(active: bool, selection: Candidates, file: string, entry: int) {
    active ==> InCandidates(selection, file, entry)
  }

  /** The candidates are exactly the selected entries that every predicate's metadata admits. */
  method BuildIntersection(h: Bloom.Hashing, active: bool, selection: Candidates, bound: seq<BoundPredicate>)
    returns (c: Candidates)
    requires AllNormal(selection)
    requires forall k :: 0 <= k < |bound| ==> WellFormed(bound[k].p)
    ensures AllNormal(c)
    ensures active || bound != [] ==> forall file, entry ::
      InCandidates(c, file, entry) <==>
        SelectionAdmits(active, selection, file, entry) && AllAdmit(h, bound, file, entry)
  {
    c := if active then selection else map[];
    var first := !active;
    var k := 0;
    while k < |bound|
      invariant 0 <= k <= |bound| && AllNormal(c)
      invariant first <==> !active && k == 0
      invariant !first ==> forall file, entry ::
        InCandidates(c, file, entry) <==>
          SelectionAdmits(active, selection, file, entry) && AllAdmit(h, bound[..k], file, entry)
    {
      var collected := CollectIntervals(h, bound[k].p, bound[k].rows);
      var intervals := NormalizeAll(collected);
      ghost var before := c;
      if first {
        c := intervals;
      } else {
        c := IntersectCandidates(c, intervals);
      }
      forall file, entry
        ensures InCandidates(c, file, entry) <==>
          SelectionAdmits(active, selection, file, entry) && AllAdmit(h, bound[..k + 1], file, entry)
      {
        AllAdmitStep(h, bound, k, file, entry);
      }
      if !first && c == map[] {
        forall file, entry
          ensures !(SelectionAdmits(active, selection, file, entry) && AllAdmit(h, bound, file, entry))
        {
          if AllAdmit(h, bound, file, entry) {
            AllAdmitPrefix(h, bound, k + 1, file, entry);
          }
          assert !InCandidates(c, file, entry);
        }
        return;
      }
      first := false;
      k := k + 1;
    }
    assert bound[..|bound|] == bound;
  }

  lemma {:induction false} AllAdmitStep(h: Bloom.Hashing, bound: seq<BoundPredicate>, k: nat, file: string, entry: int)
    requires forall j :: 0 <= j < |bound| ==> WellFormed(bound[j].p)
    requires k < |bound|
    ensures AllAdmit(h, bound[..k + 1], file, entry) <==>
            AllAdmit(h, bound[..k], file, entry) && PredicateAdmits(h, bound[k].p, bound[k].rows, file, entry)
  {
    assert bound[..k + 1] == bound[..k] + [bound[k]];
    if AllAdmit(h, bound[..k + 1], file, entry) {
      assert bound[..k + 1][k] == bound[k];
      forall j | 0 <= j < k ensures PredicateAdmits(h, bound[..k][j].p, bound[..k][j].rows, file, entry) {
        assert bound[..k + 1][j] == bound[..k][j];
      }
    }
  }

  lemma {:induction false} AllAdmitPrefix(h: Bloom.Hashing, bound: seq<BoundPredicate>, k: nat, file: string,
                                          entry: int)
    requires forall j :: 0 <= j < |bound| ==> WellFormed(bound[j].p)
    requires k <= |bound| && AllAdmit(h, bound, file, entry)
    ensures AllAdmit(h, bound[..k], file, entry)
  {
    forall j | 0 <= j < k ensures PredicateAdmits(h, bound[..k][j].p, bound[..k][j].rows, file, entry) {
      assert bound[..k][j] == bound[j];
    }
  }
}
