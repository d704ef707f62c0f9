/** Planning the indexed scan: the catalog condition, the Bloom test, clipping to
    candidate intervals, coalescing of physically close baskets, the early stop
    under a row limit, and the per-file task groups. */
module Planner {
  import opened Numbers
  import opened Expressions
  import opened Ranges
  import Bloom
  import EntrySelection
  import opened PathPredicates

  // ----- Tasks and catalog rows -----

  /** What identifies the ROOT context of a task. */
  datatype Key = Key(fileId: string, uri: string, tree: string, schema: string, eventBase: nat)

  datatype Task = Task(
    key: Key, begin: nat, end: nat, valueCount: nat, offset: nat, size: nat,
    basketCount: nat, fileEntries: nat, fileBaskets: nat)

  /** One joined row of the baskets and files tables. */
  datatype CatalogRow = CatalogRow(task: Task, stats: Stats, fileStats: Stats)

  // ----- Filters -----

  /** A filter on the source id; `InList` holds the non-NULL items. */
  datatype SourceExpr =
    | IsFile(id: string)
    | InList(ids: seq<string>)
    | SourceAnd(parts: seq<SourceExpr>)
    | SourceOr(parts: seq<SourceExpr>)
    | SourceOpaque(holds: string -> bool)

  predicate SourceHolds(e: SourceExpr, id: string) {
    match e
    case IsFile(x) => id == x
    case InList(xs) => id in xs
    case SourceAnd(ps) => forall k :: 0 <= k < |ps| ==> SourceHolds(ps[k], id)
    case SourceOr(ps) => exists k :: 0 <= k < |ps| && SourceHolds(ps[k], id)
    case SourceOpaque(f) => f(id)
  }

  /** The value of the SQL condition on `file_id`; None when no condition is written. */
  function SourceClause(e: SourceExpr, id: string): Option<bool>
    decreases e, 0
  {
    match e
    case IsFile(x) => Some(id == x)
    case InList(xs) => Some(id in xs)
    case SourceAnd(ps) => SourceAll(ps, id)
    case SourceOr(ps) => if ps == [] then None else SourceAny(ps, id)
    case SourceOpaque(_) => None
  }

  function SourceAll(ps: seq<SourceExpr>, id: string): Option<bool>
    decreases ps, 1
  {
    if ps == [] then None
    else
      var a, b := SourceClause(ps[0], id), SourceAll(ps[1..], id);
      if a.None? then b else if b.None? then a else Some(a.value && b.value)
  }

  function SourceAny(ps: seq<SourceExpr>, id: string): Option<bool>
    decreases ps, 1
  {
    if ps == [] then Some(false)
    else
      var a, b := SourceClause(ps[0], id), SourceAny(ps[1..], id);
      if a.None? || b.None? then None else Some(a.value || b.value)
  }

  lemma {:induction false} SourceClauseSound(e: SourceExpr, id: string)
    requires SourceHolds(e, id)
    ensures SourceClause(e, id) != Some(false)
    decreases e, 0
  {
    match e
    case IsFile(_) =>
    case InList(_) =>
    case SourceAnd(ps) => SourceAllSound(ps, id);
    case SourceOr(ps) => SourceAnySound(ps, id);
    case SourceOpaque(_) =>
  }

  lemma {:induction false} SourceAllSound(ps: seq<SourceExpr>, id: string)
    requires forall k :: 0 <= k < |ps| ==> SourceHolds(ps[k], id)
    ensures SourceAll(ps, id) != Some(false)
    decreases ps, 1
  {
    if ps != [] {
      SourceClauseSound(ps[0], id);
      SourceAllSound(ps[1..], id);
    }
  }

  lemma {:induction false} SourceAnySound(ps: seq<SourceExpr>, id: string)
    requires exists k :: 0 <= k < |ps| && SourceHolds(ps[k], id)
    ensures SourceAny(ps, id) != Some(false)
    decreases ps, 1
  {
    var k :| 0 <= k < |ps| && SourceHolds(ps[k], id);
    if k == 0 {
      SourceClauseSound(ps[0], id);
    } else {
      assert ps[1..][k - 1] == ps[k];
      SourceAnySound(ps[1..], id);
    }
  }

  /** A pushed filter. An optional one is used for pruning only; rows always pass it. */
  datatype ColumnFilter = ColumnFilter(expr: Expr, optional: bool)

  datatype ScanConfig = ScanConfig(
    value: Option<ColumnFilter>, valueTy: Ty, event: Option<ColumnFilter>, entry: Option<ColumnFilter>,
    source: Option<SourceExpr>, otherFilters: bool,
    intervalsActive: bool, candidates: Candidates,
    rowLimit: nat, coalesceGap: nat)

  predicate HasFilters(c: ScanConfig) {
    c.value.Some? || c.event.Some? || c.entry.Some? || c.source.Some? || c.otherFilters
  }

  /** The row evaluation of one filter. */
  predicate FilterPasses(f: Option<ColumnFilter>, v: Num) {
    f.None? || f.value.optional || Holds(f.value.expr, v)
  }

  /** The pushed expression itself; DuckDB applies it again above an optional filter. */
  predicate ExpressionHolds(f: Option<ColumnFilter>, v: Num) {
    f.None? || Holds(f.value.expr, v)
  }

  function FilterRange(f: Option<ColumnFilter>): Range {
    if f.None? then UNKNOWN else ExtractRange(f.value.expr)
  }

  lemma {:induction false} FilterRangeSound(f: Option<ColumnFilter>, v: u64)
    requires ExpressionHolds(f, OfNat(v))
    ensures Admits(FilterRange(f), v)
  {
    if f.Some? {
      ExtractRangeSound(f.value.expr, v);
    }
  }

  // ----- The catalog condition -----

  predicate ZoneKeeps(f: Option<ColumnFilter>, ty: Ty, s: Stats) {
    f.None? || ClauseAdmits(ZonemapClause(f.value.expr, ty), s.zone) || s.nanCount > 0
  }

  predicate EventKeeps(f: Option<ColumnFilter>, first: int, last: int) {
    f.None? || ClauseAdmits(ZonemapClause(f.value.expr, TUInt64), Zone(Some(first as real), Some(last as real)))
  }

  /** The WHERE condition on one joined row. */
  predicate RowSelected(c: ScanConfig, row: CatalogRow) {
    var t := row.task;
    var local := FilterRange(c.entry);
    && (DoubleBacked(c.valueTy) ==>
          ZoneKeeps(c.value, c.valueTy, row.fileStats) && ZoneKeeps(c.value, c.valueTy, row.stats))
    && (local.known ==> t.begin <= local.upper && t.end > local.lower)
    && EventKeeps(c.event, t.key.eventBase, t.key.eventBase + t.fileEntries - 1)
    && EventKeeps(c.event, t.key.eventBase + t.begin, t.key.eventBase + t.end - 1)
    && (c.source.Some? ==> SourceClause(c.source.value, t.key.fileId) != Some(false))
  }

  /** Constants of a pure equality filter, or None when the filter is anything else. */
  function EqualityConstants(e: Expr): Option<seq<Const>>
    decreases e, 0
  {
    match e
    case Compare(op, o, columnFirst) =>
      var c := FoldedConstant(o);
      if c.Some? && c.value.Const? && (if columnFirst then op else Reverse(op)).Eq? then Some([c.value]) else None
    case In(items) => if items == [] then None else InConstants(items)
    case Or(es) => if es == [] then None else EqualityOfAll(es)
    case Between(_, _, _, _) => None
    case And(_) => None
    case Opaque(_) => None
  }

  function EqualityOfAll(es: seq<Expr>): Option<seq<Const>>
    decreases es, 1
  {
    if es == [] then Some([])
    else
      var a, b := EqualityConstants(es[0]), EqualityOfAll(es[1..]);
      if a.None? || b.None? then None else Some(a.value + b.value)
  }

  predicate ConstantMayBeIn(h: Bloom.Hashing, bloom: seq<Bloom.Byte>, ty: Ty, c: Const) {
    UsableLiteral(c, ty).None? || Bloom.MayContain(h, bloom, c.num)
  }

  predicate BloomKeeps(h: Bloom.Hashing, e: Expr, bloom: seq<Bloom.Byte>, ty: Ty) {
    bloom == [] ||
    var cs := EqualityConstants(e);
    cs.None? || exists k :: 0 <= k < |cs.value| && ConstantMayBeIn(h, bloom, ty, cs.value[k])
  }

  predicate NeedsBloomColumn(e: Expr) {
    var cs := EqualityConstants(e);
    cs.Some? && cs.value != []
  }

  /** The probe in the planning loop; the Bloom column is fetched only for equality filters. */
  predicate RowMayContain(h: Bloom.Hashing, c: ScanConfig, row: CatalogRow) {
    c.value.None? || !DoubleBacked(c.valueTy) || !NeedsBloomColumn(c.value.value.expr) ||
    BloomKeeps(h, c.value.value.expr, row.stats.bloom, c.valueTy)
  }

  // ----- Value pruning is sound -----

  lemma {:induction false} InConstantsHit(items: seq<Operand>, v: Num) returns (k: nat)
    requires InConstants(items).Some? && EvalIn(items, v).True?
    ensures k < |InConstants(items).value| && InConstants(items).value[k].Const?
    ensures SqlEqual(v, InConstants(items).value[k].num)
  {
    var c := FoldedConstant(items[0]).value;
    if c.NullConst? {
      k := InConstantsHit(items[1..], v);
    } else if CompareTruth(Eq, v, c).True? {
      k := 0;
    } else {
      k := InConstantsHit(items[1..], v);
      assert InConstants(items).value[k + 1] == InConstants(items[1..]).value[k];
      k := k + 1;
    }
  }

  /** A value that satisfies a pure equality filter equals one of its constants. */
  lemma {:induction false} EqualityHit(e: Expr, v: Num) returns (k: nat)
    requires EqualityConstants(e).Some? && Eval(e, v).True?
    ensures k < |EqualityConstants(e).value| && EqualityConstants(e).value[k].Const?
    ensures SqlEqual(v, EqualityConstants(e).value[k].num)
    decreases e, 0
  {
    match e
    case Compare(_, _, _) => k := 0;
    case In(items) => k := InConstantsHit(items, v);
    case Or(es) =>
      assert EvalOr(es, v).True?;
      k := EqualityHitAny(es, v);
  }

  lemma {:induction false} EqualityHitAny(es: seq<Expr>, v: Num) returns (k: nat)
    requires EqualityOfAll(es).Some? && EvalOr(es, v).True?
    ensures k < |EqualityOfAll(es).value| && EqualityOfAll(es).value[k].Const?
    ensures SqlEqual(v, EqualityOfAll(es).value[k].num)
    decreases es, 1
  {
    if Eval(es[0], v).True? {
      k := EqualityHit(es[0], v);
    } else {
      var j := EqualityHitAny(es[1..], v);
      k := |EqualityConstants(es[0]).value| + j;
    }
  }

  /** The Bloom probe keeps every basket that holds a value satisfying the filter. */
  lemma {:induction false} BloomKeepsSound(h: Bloom.Hashing, e: Expr, bloom: seq<Bloom.Byte>, ty: Ty,
                                           values: seq<Num>, v: Num)
    requires Bloom.Covers(h, bloom, values) && v in values && Holds(e, v)
    ensures BloomKeeps(h, e, bloom, ty)
  {
    if EqualityConstants(e).Some? {
      var k := EqualityHit(e, v);
      var c := EqualityConstants(e).value[k];
      if UsableLiteral(c, ty).Some? {
        assert IsFinite(v) && Real(v) == Real(c.num);
      }
      assert ConstantMayBeIn(h, bloom, ty, c);
    }
  }

  /** Every probe bit of the value is the probe bit of some added hash. */
  ghost predicate LooksAdded(h: Bloom.Hashing, bloom: seq<Bloom.Byte>, hashes: seq<u64>, v: Num)
    requires IsFinite(v) && Bloom.FilterOf(h, bloom, hashes)
  {
    var count, bits := Bloom.HashCount(bloom), Bloom.BitCount(bloom);
    forall i :: 0 <= i < count ==>
      Bloom.ProbedByAny(h, hashes, count, bits, Bloom.BitIndex(h, Bloom.CanonicalHash(h, v), i, bits))
  }

  /** A pure equality filter drops a basket exactly if all its constants are usable and none looks added. */
  lemma {:induction false} BloomKeepsExactly(h: Bloom.Hashing, e: Expr, bloom: seq<Bloom.Byte>, ty: Ty,
                                             hashes: seq<u64>)
    requires Bloom.FilterOf(h, bloom, hashes) && EqualityConstants(e).Some?
    ensures BloomKeeps(h, e, bloom, ty) <==>
      exists k :: 0 <= k < |EqualityConstants(e).value| && var c := EqualityConstants(e).value[k];
        UsableLiteral(c, ty).None? || LooksAdded(h, bloom, hashes, c.num)
  {
    var cs := EqualityConstants(e).value;
    forall k | 0 <= k < |cs|
      ensures ConstantMayBeIn(h, bloom, ty, cs[k]) <==>
        UsableLiteral(cs[k], ty).None? || LooksAdded(h, bloom, hashes, cs[k].num)
    {
      if UsableLiteral(cs[k], ty).Some? {
        Bloom.MayContainExactly(h, bloom, hashes, cs[k].num);
      }
    }
  }

  /** A finite or NaN value that satisfies the filter keeps the zone that holds it. */
  lemma {:induction false} ZoneKeepsSound(f: Option<ColumnFilter>, ty: Ty, s: Stats, v: Num)
    requires ExpressionHolds(f, v) && !IsInfinite(v)
    requires v.NaN? ==> s.nanCount > 0
    requires IsFinite(v) ==> Inside(v, s.zone)
    ensures ZoneKeeps(f, ty, s)
  {
    if f.Some? && IsFinite(v) {
      ZonemapSound(f.value.expr, ty, v, s.zone);
    }
  }

  /** Zonemap pruning of a basket never loses a row for any filter. */
  ghost predicate NeverPrunes(s: Stats, ty: Ty, values: seq<Num>) {
    forall e: Expr, v :: v in values && Holds(e, v) ==> ZoneKeeps(Some(ColumnFilter(e, false)), ty, s)
  }

  /** Infinities are outside the zone: pruning is safe for every filter exactly when
      the basket has none, or has a NaN that disables the clause. */
  lemma {:induction false} NeverPrunesExactly(h: Bloom.Hashing, s: Stats, ty: Ty, values: seq<Num>)
    requires Describes(h, s, values) && DoubleBacked(ty) && (s.zone.min.Some? <==> s.zone.max.Some?)
    ensures NeverPrunes(s, ty, values) <==> (s.posInfCount == 0 && s.negInfCount == 0) || s.nanCount > 0
  {
    if (s.posInfCount == 0 && s.negInfCount == 0) || s.nanCount > 0 {
      forall e: Expr, v | v in values && Holds(e, v)
        ensures ZoneKeeps(Some(ColumnFilter(e, false)), ty, s)
      {
        if s.nanCount == 0 {
          ZoneKeepsSound(Some(ColumnFilter(e, false)), ty, s, v);
        }
      }
    } else {
      // The row filter "beyond the finite extreme" is TRUE for the infinity and FALSE for the zone.
      var up := s.posInfCount > 0;
      var bound := if s.zone.min.None? then 0.0 else if up then s.zone.max.value else s.zone.min.value;
      var e := Compare(if up then Gt else Lt, Literal(Const(ty, Fin(bound))), true);
      var v := if up then PosInf else NegInf;
      assert v in values && Holds(e, v);
      assert !ZoneKeeps(Some(ColumnFilter(e, false)), ty, s);
    }
  }

  // ----- Clipping -----

  /** The parts of a basket that fall into its file's candidate intervals. */
  function Clipped(t: Task, ivs: seq<EntrySelection.Interval>): seq<Task> {
    if ivs == [] then []
    else
      var begin, end := Max(t.begin, ivs[0].begin), Min(t.end, ivs[0].end);
      (if begin < end then [t.(begin := begin, end := end)] else []) + Clipped(t, ivs[1..])
  }

  function Pieces(h: Bloom.Hashing, c: ScanConfig, row: CatalogRow): seq<Task> {
    if !RowMayContain(h, c, row) then []
    else if !c.intervalsActive then [row.task]
    else if row.task.key.fileId !in c.candidates then []
    else Clipped(row.task, c.candidates[row.task.key.fileId])
  }

  function AllPieces(h: Bloom.Hashing, c: ScanConfig, rows: seq<CatalogRow>): seq<Task> {
    if rows == [] then [] else AllPieces(h, c, rows[..|rows| - 1]) + Pieces(h, c, rows[|rows| - 1])
  }

  /** A clipped basket keeps its counts and its bytes. */
  predicate SameBasket(piece: Task, t: Task) {
    piece.valueCount == t.valueCount && piece.basketCount == t.basketCount &&
    piece.offset == t.offset && piece.size == t.size
  }

  lemma {:induction false} ClippedCounts(t: Task, ivs: seq<EntrySelection.Interval>)
    ensures forall k :: 0 <= k < |Clipped(t, ivs)| ==> SameBasket(Clipped(t, ivs)[k], t)
  {
    if ivs != [] {
      ClippedCounts(t, ivs[1..]);
    }
  }

  /** How many tasks of a list read one entry of one file context. */
  function Readers(ts: seq<Task>, key: Key, entry: int): nat {
    if ts == [] then 0
    else Readers(ts[..|ts| - 1], key, entry) +
         if ts[|ts| - 1].key == key && ts[|ts| - 1].begin <= entry < ts[|ts| - 1].end then 1 else 0
  }

  lemma {:induction false} ReadersConcat(a: seq<Task>, b: seq<Task>, key: Key, entry: int)
    ensures Readers(a + b, key, entry) == Readers(a, key, entry) + Readers(b, key, entry)
  {
    if b == [] {
      assert a + b == a;
    } else {
      assert (a + b)[..|a + b| - 1] == a + b[..|b| - 1];
      ReadersConcat(a, b[..|b| - 1], key, entry);
    }
  }

  lemma {:induction false} ReadersOne(t: Task, key: Key, entry: int)
    ensures Readers([t], key, entry) == if t.key == key && t.begin <= entry < t.end then 1 else 0
  {
    assert [t][..0] == [];
  }

  /** Clipping to a normal form reads exactly the entries in both, each once. */
  lemma {:induction false} ClippedReaders(t: Task, ivs: seq<EntrySelection.Interval>, key: Key, entry: int)
    requires EntrySelection.NormalForm(ivs)
    ensures Readers(Clipped(t, ivs), key, entry) ==
      if t.key == key && t.begin <= entry < t.end && EntrySelection.Covers(ivs, entry) then 1 else 0
  {
    if ivs != [] {
      var begin, end := Max(t.begin, ivs[0].begin), Min(t.end, ivs[0].end);
      var head := if begin < end then [t.(begin := begin, end := end)] else [];
      assert EntrySelection.NormalForm(ivs[1..]);
      ClippedReaders(t, ivs[1..], key, entry);
      ReadersConcat(head, Clipped(t, ivs[1..]), key, entry);
      ReadersOne(t.(begin := begin, end := end), key, entry);
      EntrySelection.TailCover(ivs, entry);
      EntrySelection.CoverBound(ivs, entry);
    }
  }

  // ----- Coalescing -----

  predicate CanJoin(p: Task, c: Task, gap: nat) {
    p.key.uri == c.key.uri && p.key.tree == c.key.tree && p.key.schema == c.key.schema &&
    p.end == c.begin && c.offset >= p.offset + p.size && c.offset - (p.offset + p.size) <= gap
  }

  function Join(p: Task, c: Task): Task
    requires c.offset >= p.offset + p.size
  {
    p.(end := c.end, valueCount := p.valueCount + c.valueCount,
       size := c.offset + c.size - p.offset, basketCount := p.basketCount + 1)
  }

  /** The task that a run of joinable baskets becomes. */
  function Coalesced(parts: seq<Task>, gap: nat): Option<Task>
    requires parts != []
  {
    if |parts| == 1 then Some(parts[0])
    else
      var before, last := Coalesced(parts[..|parts| - 1], gap), parts[|parts| - 1];
      if before.Some? && CanJoin(before.value, last, gap) then Some(Join(before.value, last)) else None
  }

  function Flatten(runs: seq<seq<Task>>): seq<Task> {
    if runs == [] then [] else Flatten(runs[..|runs| - 1]) + runs[|runs| - 1]
  }

  /** A task list is a coalescing of a basket list when it merges consecutive runs of it, in order. */
  predicate Coalesces(ts: seq<Task>, runs: seq<seq<Task>>, pieces: seq<Task>, gap: nat) {
    |ts| == |runs| && Flatten(runs) == pieces &&
    forall k :: 0 <= k < |runs| ==> runs[k] != [] && Coalesced(runs[k], gap) == Some(ts[k])
  }

  function SumValues(ts: seq<Task>): nat {
    if ts == [] then 0 else SumValues(ts[..|ts| - 1]) + ts[|ts| - 1].valueCount
  }

  function SumBaskets(ts: seq<Task>): nat {
    if ts == [] then 0 else SumBaskets(ts[..|ts| - 1]) + ts[|ts| - 1].basketCount
  }

  /** One file context per uri within a snapshot. */
  predicate UriDetermines(ts: seq<Task>) {
    forall j, k :: 0 <= j < |ts| && 0 <= k < |ts| && ts[j].key.uri == ts[k].key.uri ==>
      ts[j].key.fileId == ts[k].key.fileId && ts[j].key.eventBase == ts[k].key.eventBase
  }

  /** What a coalesced run keeps: its entries, its counts, and a span that contains every basket. */
  lemma {:induction false} CoalescedRun(parts: seq<Task>, gap: nat, key: Key, entry: int)
    requires parts != [] && Coalesced(parts, gap).Some? && UriDetermines(parts)
    requires forall k :: 0 <= k < |parts| ==> parts[k].begin < parts[k].end
    ensures var t := Coalesced(parts, gap).value;
      && t.key == parts[0].key && t.begin == parts[0].begin && t.end == parts[|parts| - 1].end && t.begin < t.end
      && t.offset == parts[0].offset && t.offset + t.size == parts[|parts| - 1].offset + parts[|parts| - 1].size
      && t.key == parts[|parts| - 1].key
      && t.valueCount == SumValues(parts)
      && Readers(parts, key, entry) == if t.key == key && t.begin <= entry < t.end then 1 else 0
  {
    var n := |parts| - 1;
    if n == 0 {
      assert parts == [parts[0]] && parts[..0] == [];
      ReadersOne(parts[0], key, entry);
    } else {
      var init := parts[..n];
      forall j, k | 0 <= j < n && 0 <= k < n && init[j].key.uri == init[k].key.uri
        ensures init[j].key.fileId == init[k].key.fileId && init[j].key.eventBase == init[k].key.eventBase
      {
        assert parts[j] == init[j] && parts[k] == init[k];
      }
      CoalescedRun(init, gap, key, entry);
      assert parts[0].key.uri == parts[n].key.uri;
    }
  }

  /** Consecutive baskets of a run do not overlap and leave gaps of at most `gap` bytes. */
  lemma {:induction false} CoalescedSpan(parts: seq<Task>, gap: nat, k: nat)
    requires parts != [] && Coalesced(parts, gap).Some? && k < |parts|
    ensures var t := Coalesced(parts, gap).value;
      && t.offset <= parts[k].offset && parts[k].offset + parts[k].size <= t.offset + t.size
      && t.offset + t.size == parts[|parts| - 1].offset + parts[|parts| - 1].size
    ensures k > 0 ==> 0 <= parts[k].offset - (parts[k - 1].offset + parts[k - 1].size) <= gap
  {
    var n := |parts| - 1;
    if n > 0 {
      if k < n {
        CoalescedSpan(parts[..n], gap, k);
      } else {
        CoalescedSpan(parts[..n], gap, n - 1);
        assert parts[..n][n - 1] == parts[n - 1];
      }
    }
  }

  lemma {:induction false} CoalescedBaskets(parts: seq<Task>, gap: nat)
    requires parts != [] && Coalesced(parts, gap).Some?
    requires forall k :: 0 <= k < |parts| ==> parts[k].basketCount == 1
    ensures Coalesced(parts, gap).value.basketCount == |parts| == SumBaskets(parts)
  {
    var n := |parts| - 1;
    if n == 0 {
      assert parts[..0] == [];
    } else {
      CoalescedBaskets(parts[..n], gap);
    }
  }

  lemma {:induction false} SumValuesConcat(a: seq<Task>, b: seq<Task>)
    ensures SumValues(a + b) == SumValues(a) + SumValues(b)
    ensures SumBaskets(a + b) == SumBaskets(a) + SumBaskets(b)
  {
    if b == [] {
      assert a + b == a;
    } else {
      assert (a + b)[..|a + b| - 1] == a + b[..|b| - 1];
      SumValuesConcat(a, b[..|b| - 1]);
    }
  }

  predicate AllValid(ts: seq<Task>) {
    forall k :: 0 <= k < |ts| ==> ts[k].begin < ts[k].end && ts[k].basketCount == 1
  }

  lemma {:induction false} RunsWithin(runs: seq<seq<Task>>, pieces: seq<Task>)
    requires runs != [] && Flatten(runs) == pieces && UriDetermines(pieces) && AllValid(pieces)
    ensures var rest, last := Flatten(runs[..|runs| - 1]), runs[|runs| - 1];
      pieces == rest + last && UriDetermines(rest) && AllValid(rest) && UriDetermines(last) && AllValid(last)
  {
    var rest, last := Flatten(runs[..|runs| - 1]), runs[|runs| - 1];
    assert pieces == rest + last;
    forall k | 0 <= k < |rest| ensures rest[k] == pieces[k] {}
    forall k | 0 <= k < |last| ensures last[k] == pieces[|rest| + k] {}
  }

  /** Coalescing preserves who reads what, and conserves value and basket counts. */
  lemma {:induction false} CoalescingPreserves(ts: seq<Task>, runs: seq<seq<Task>>, pieces: seq<Task>, gap: nat,
                                               key: Key, entry: int)
    requires Coalesces(ts, runs, pieces, gap) && UriDetermines(pieces) && AllValid(pieces)
    ensures Readers(ts, key, entry) == Readers(pieces, key, entry)
    ensures SumValues(ts) == SumValues(pieces) && SumBaskets(ts) == SumBaskets(pieces)
  {
    if ts != [] {
      var n := |ts| - 1;
      var rest := Flatten(runs[..n]);
      RunsWithin(runs, pieces);
      CoalescingPreserves(ts[..n], runs[..n], rest, gap, key, entry);
      CoalescedRun(runs[n], gap, key, entry);
      CoalescedBaskets(runs[n], gap);
      ReadersConcat(rest, runs[n], key, entry);
      SumValuesConcat(rest, runs[n]);
    }
  }

  /** No task could be joined to its successor. */
  predicate Apart(ts: seq<Task>, gap: nat) {
    forall k :: 0 <= k < |ts| - 1 ==> !CanJoin(ts[k], ts[k + 1], gap)
  }

  datatype Coalescing = Coalescing(tasks: seq<Task>, runs: seq<seq<Task>>)

  /** One more basket is joined to the last task, or becomes a task of its own. */
  function Extended(c: Coalescing, t: Task, gap: nat): Coalescing
    requires |c.runs| == |c.tasks|
  {
    var n := |c.tasks| - 1;
    if c.tasks != [] && CanJoin(c.tasks[n], t, gap)
    then Coalescing(c.tasks[n := Join(c.tasks[n], t)], c.runs[n := c.runs[n] + [t]])
    else Coalescing(c.tasks + [t], c.runs + [[t]])
  }

  lemma {:induction false} Joining(ts: seq<Task>, u: Task, gap: nat)
    requires ts != [] && Apart(ts, gap)
    requires var t := ts[|ts| - 1]; u.key == t.key && u.begin == t.begin && u.offset == t.offset
    ensures Apart(ts[|ts| - 1 := u], gap)
  {
  }

  lemma {:induction false} ExtendedKeeps(c: Coalescing, pieces: seq<Task>, t: Task, gap: nat)
    requires Coalesces(c.tasks, c.runs, pieces, gap)
    ensures var next := Extended(c, t, gap);
      Coalesces(next.tasks, next.runs, pieces + [t], gap) && (Apart(c.tasks, gap) ==> Apart(next.tasks, gap))
  {
    if c.tasks != [] && CanJoin(c.tasks[|c.tasks| - 1], t, gap) {
      JoinKeeps(c, t, gap);
    } else {
      var next := Extended(c, t, gap);
      assert next.runs[..|c.runs|] == c.runs;
    }
  }

  lemma {:induction false} JoinKeeps(c: Coalescing, t: Task, gap: nat)
    requires Coalesces(c.tasks, c.runs, Flatten(c.runs), gap)
    requires c.tasks != [] && CanJoin(c.tasks[|c.tasks| - 1], t, gap)
    ensures var next := Extended(c, t, gap);
      Coalesces(next.tasks, next.runs, Flatten(c.runs) + [t], gap) && (Apart(c.tasks, gap) ==> Apart(next.tasks, gap))
  {
    var n, next := |c.tasks| - 1, Extended(c, t, gap);
    var last := c.runs[n] + [t];
    assert last[..|c.runs[n]|] == c.runs[n];
    assert Coalesced(last, gap) == Some(Join(c.tasks[n], t));
    assert next.runs[..n] == c.runs[..n];
    assert Flatten(next.runs) == Flatten(c.runs[..n]) + last;
    if Apart(c.tasks, gap) {
      Joining(c.tasks, Join(c.tasks[n], t), gap);
    }
  }

  /** The first basket of a coalesced run fixes its context, its first entry and its first byte. */
  lemma {:induction false} CoalescedStart(parts: seq<Task>, gap: nat)
    requires parts != [] && Coalesced(parts, gap).Some?
    ensures var t := Coalesced(parts, gap).value;
      t.key == parts[0].key && t.begin == parts[0].begin && t.offset == parts[0].offset
  {
    if |parts| > 1 {
      CoalescedStart(parts[..|parts| - 1], gap);
    }
  }

  /** A coalescing without its last basket, which widened the last task or became a task of its own. */
  lemma {:induction false} WithoutLast(c: Coalescing, pieces: seq<Task>, gap: nat) returns (before: Coalescing)
    requires pieces != [] && Coalesces(c.tasks, c.runs, pieces, gap) && Apart(c.tasks, gap)
    ensures Coalesces(before.tasks, before.runs, pieces[..|pieces| - 1], gap) && Apart(before.tasks, gap)
    ensures c == Extended(before, pieces[|pieces| - 1], gap)
  {
    var n := |c.tasks| - 1;
    var last := c.runs[n];
    assert pieces == Flatten(c.runs[..n]) + last;
    if |last| == 1 {
      assert pieces[..|pieces| - 1] == Flatten(c.runs[..n]) && last == [pieces[|pieces| - 1]];
      before := WithoutTask(c, gap);
    } else {
      before := WithoutBasket(c, gap);
      assert pieces[..|pieces| - 1] == Flatten(c.runs[..n]) + last[..|last| - 1];
    }
  }

  lemma {:induction false} WithoutTask(c: Coalescing, gap: nat) returns (before: Coalescing)
    requires Coalesces(c.tasks, c.runs, Flatten(c.runs), gap) && Apart(c.tasks, gap)
    requires c.runs != [] && |c.runs[|c.runs| - 1]| == 1
    ensures Coalesces(before.tasks, before.runs, Flatten(c.runs[..|c.runs| - 1]), gap) && Apart(before.tasks, gap)
    ensures c == Extended(before, c.runs[|c.runs| - 1][0], gap)
  {
    var n := |c.tasks| - 1;
    before := Coalescing(c.tasks[..n], c.runs[..n]);
    assert n > 0 ==> !CanJoin(c.tasks[n - 1], c.tasks[n], gap);
    assert c.runs[n] == [c.runs[n][0]];
    assert c.tasks == before.tasks + [c.tasks[n]] && c.runs == before.runs + [[c.runs[n][0]]];
  }

  lemma {:induction false} WithoutBasket(c: Coalescing, gap: nat) returns (before: Coalescing)
    requires Coalesces(c.tasks, c.runs, Flatten(c.runs), gap) && Apart(c.tasks, gap)
    requires c.runs != [] && |c.runs[|c.runs| - 1]| > 1
    ensures var n := |c.runs| - 1; var last := c.runs[n];
      && Coalesces(before.tasks, before.runs, Flatten(c.runs[..n]) + last[..|last| - 1], gap)
      && Apart(before.tasks, gap) && c == Extended(before, last[|last| - 1], gap)
  {
    var n := |c.tasks| - 1;
    var last := c.runs[n];
    var head, t := last[..|last| - 1], last[|last| - 1];
    var shorter := Coalesced(head, gap).value;
    CoalescedStart(last, gap);
    CoalescedStart(head, gap);
    Joining(c.tasks, shorter, gap);
    before := Coalescing(c.tasks[n := shorter], c.runs[n := head]);
    assert before.runs[..n] == c.runs[..n];
    assert last == head + [t];
    assert c.tasks == before.tasks[n := Join(shorter, t)] && c.runs == before.runs[n := head + [t]];
  }

  /** Where every joinable pair is joined there is one coalescing only. */
  lemma {:induction false} CoalescingUnique(a: Coalescing, b: Coalescing, pieces: seq<Task>, gap: nat)
    requires Coalesces(a.tasks, a.runs, pieces, gap) && Apart(a.tasks, gap)
    requires Coalesces(b.tasks, b.runs, pieces, gap) && Apart(b.tasks, gap)
    ensures a == b
    decreases |pieces|
  {
    if pieces == [] {
      NoTasks(a.runs);
      NoTasks(b.runs);
    } else {
      var x := WithoutLast(a, pieces, gap);
      var y := WithoutLast(b, pieces, gap);
      CoalescingUnique(x, y, pieces[..|pieces| - 1], gap);
    }
  }

  lemma {:induction false} NoTasks(runs: seq<seq<Task>>)
    requires forall k :: 0 <= k < |runs| ==> runs[k] != []
    ensures Flatten(runs) == [] ==> runs == []
  {
    if runs != [] {
      assert |Flatten(runs)| >= |runs[|runs| - 1]|;
    }
  }

  /** Two baskets of one tree, entry after entry, and the second starts at most `gap` bytes behind the first. */
  predicate Adjacent(a: Task, b: Task, gap: nat) {
    a.key.uri == b.key.uri && a.key.tree == b.key.tree && a.key.schema == b.key.schema &&
    a.end == b.begin && a.offset + a.size <= b.offset <= a.offset + a.size + gap
  }

  /** Whether a run goes on is decided by its last basket. */
  lemma {:induction false} DecidedByLast(parts: seq<Task>, gap: nat, b: Task)
    requires parts != [] && Coalesced(parts, gap).Some?
    ensures CanJoin(Coalesced(parts, gap).value, b, gap) <==> Adjacent(parts[|parts| - 1], b, gap)
  {
  }

  lemma {:induction false} RunAdjacent(parts: seq<Task>, gap: nat, j: nat)
    requires parts != [] && Coalesced(parts, gap).Some? && 0 < j < |parts|
    ensures Adjacent(parts[j - 1], parts[j], gap)
  {
    var n := |parts| - 1;
    if j < n {
      RunAdjacent(parts[..n], gap, j);
      assert parts[..n][j - 1] == parts[j - 1];
    } else {
      DecidedByLast(parts[..n], gap, parts[n]);
      assert parts[..n][n - 1] == parts[n - 1];
    }
  }

  /** A plan puts two successive baskets into one task exactly if they are adjacent. */
  lemma {:induction false} TasksAreAdjacentRuns(ts: seq<Task>, runs: seq<seq<Task>>, pieces: seq<Task>, gap: nat)
    requires Coalesces(ts, runs, pieces, gap) && Apart(ts, gap)
    ensures forall k, j :: 0 <= k < |runs| && 0 < j < |runs[k]| ==> Adjacent(runs[k][j - 1], runs[k][j], gap)
    ensures forall k :: 0 < k < |runs| ==> !Adjacent(runs[k - 1][|runs[k - 1]| - 1], runs[k][0], gap)
  {
    forall k, j | 0 <= k < |runs| && 0 < j < |runs[k]| ensures Adjacent(runs[k][j - 1], runs[k][j], gap) {
      RunAdjacent(runs[k], gap, j);
    }
    forall k | 0 < k < |runs| ensures !Adjacent(runs[k - 1][|runs[k - 1]| - 1], runs[k][0], gap) {
      DecidedByLast(runs[k - 1], gap, runs[k][0]);
      CoalescedStart(runs[k], gap);
      assert !CanJoin(ts[k - 1], ts[k], gap);
    }
  }

  /** A task reaches from the entries of one basket to the entries and bytes of another of the same file. */
  predicate Bounds(t: Task, first: Task, last: Task) {
    t.key == first.key == last.key && t.begin == first.begin && t.end == last.end &&
    t.offset + t.size == last.offset + last.size
  }

  /** Every task is non-empty, belongs to the context of some basket, and ends where a basket ends in the file. */
  lemma {:induction false} CoalescingBounds(ts: seq<Task>, runs: seq<seq<Task>>, pieces: seq<Task>, gap: nat, k: nat)
    requires Coalesces(ts, runs, pieces, gap) && UriDetermines(pieces) && AllValid(pieces) && k < |ts|
    ensures ts[k].begin < ts[k].end
    ensures exists i, j :: 0 <= i < |pieces| && 0 <= j < |pieces| && Bounds(ts[k], pieces[i], pieces[j])
  {
    var n := |ts| - 1;
    var rest := Flatten(runs[..n]);
    RunsWithin(runs, pieces);
    if k < n {
      CoalescingBounds(ts[..n], runs[..n], rest, gap, k);
      var i, j :| 0 <= i < |rest| && 0 <= j < |rest| && Bounds(ts[..n][k], rest[i], rest[j]);
      assert Bounds(ts[k], pieces[i], pieces[j]);
    } else {
      CoalescedRun(runs[n], gap, ts[n].key, 0);
      assert Bounds(ts[k], pieces[|rest|], pieces[|rest| + |runs[n]| - 1]);
    }
  }

  // ----- The planning loop -----

  datatype PlanError = BasketBeyondRange | CountersExceeded | TaskExceeded
  datatype Plan = Planned(tasks: seq<Task>, plannedValues: nat, plannedBaskets: nat, plannedBytes: nat, consumed: nat)
                | Failed(error: PlanError)

  /** The counters of a task fit their fields: 64 bits of values and bytes, 32 bits of baskets. */
  predicate InRange(t: Task) {
    t.valueCount <= U64_MAX && t.basketCount <= U32_MAX && t.offset + t.size <= U64_MAX
  }

  predicate AllInRange(ts: seq<Task>) {
    forall k :: 0 <= k < |ts| ==> InRange(ts[k])
  }

  /** Appends one candidate, or widens the last task by it. */
  method AddCandidate(tasks: seq<Task>, t: Task, gap: nat, ghost runs: seq<seq<Task>>, ghost pieces: seq<Task>)
    returns (ok: bool, out: seq<Task>, ghost outRuns: seq<seq<Task>>)
    requires Coalesces(tasks, runs, pieces, gap) && AllInRange(tasks) && InRange(t)
    ensures ok ==> Coalesces(out, outRuns, pieces + [t], gap) && (Apart(tasks, gap) ==> Apart(out, gap))
    ensures ok ==>
      if tasks != [] && CanJoin(tasks[|tasks| - 1], t, gap) then |out| == |tasks| else out == tasks + [t]
    ensures ok ==> AllInRange(out)
    ensures !ok ==> tasks != [] && CanJoin(tasks[|tasks| - 1], t, gap)
    ensures !ok ==> tasks[|tasks| - 1].valueCount + t.valueCount > U64_MAX || tasks[|tasks| - 1].basketCount == U32_MAX
  {
    out, outRuns := tasks, runs;
    ExtendedKeeps(Coalescing(tasks, runs), pieces, t, gap);
    if tasks != [] {
      var n := |tasks| - 1;
      var previous := tasks[n];
      if CanJoin(previous, t, gap) {
        if t.valueCount > U64_MAX - previous.valueCount || previous.basketCount == U32_MAX {
          return false, out, outRuns;
        }
        return true, tasks[n := Join(previous, t)], runs[n := runs[n] + [t]];
      }
    }
    return true, tasks + [t], runs + [[t]];
  }

  /** Adds all candidates of one basket. */
  method AddCandidates(tasks: seq<Task>, candidates: seq<Task>, gap: nat, ghost runs: seq<seq<Task>>,
                       ghost pieces: seq<Task>)
    returns (ok: bool, out: seq<Task>, ghost outRuns: seq<seq<Task>>)
    requires Coalesces(tasks, runs, pieces, gap) && AllInRange(tasks) && AllInRange(candidates)
    ensures ok ==> Coalesces(out, outRuns, pieces + candidates, gap) && (Apart(tasks, gap) ==> Apart(out, gap))
    ensures ok ==> AllInRange(out) && |tasks| <= |out| <= |tasks| + |candidates|
  {
    out, outRuns := tasks, runs;
    assert pieces + candidates[..0] == pieces;
    for k := 0 to |candidates|
      invariant Coalesces(out, outRuns, pieces + candidates[..k], gap) && (Apart(tasks, gap) ==> Apart(out, gap))
      invariant AllInRange(out) && |tasks| <= |out| <= |tasks| + k
    {
      ok, out, outRuns := AddCandidate(out, candidates[k], gap, outRuns, pieces + candidates[..k]);
      if !ok {
        return false, out, outRuns;
      }
      assert pieces + candidates[..k] + [candidates[k]] == pieces + candidates[..k + 1];
    }
    assert candidates[..|candidates|] == candidates;
    return true, out, outRuns;
  }

  /** The values of the baskets that keep at least one piece; each basket counts once. */
  function BasketValues(h: Bloom.Hashing, c: ScanConfig, rows: seq<CatalogRow>): nat {
    if rows == [] then 0
    else BasketValues(h, c, rows[..|rows| - 1]) +
         if Pieces(h, c, rows[|rows| - 1]) == [] then 0 else rows[|rows| - 1].task.valueCount
  }

  /** How many baskets keep at least one piece, and their compressed bytes. */
  function KeptBaskets(h: Bloom.Hashing, c: ScanConfig, rows: seq<CatalogRow>): nat {
    if rows == [] then 0
    else KeptBaskets(h, c, rows[..|rows| - 1]) + if Pieces(h, c, rows[|rows| - 1]) == [] then 0 else 1
  }

  function KeptBytes(h: Bloom.Hashing, c: ScanConfig, rows: seq<CatalogRow>): nat {
    if rows == [] then 0
    else KeptBytes(h, c, rows[..|rows| - 1]) +
         if Pieces(h, c, rows[|rows| - 1]) == [] then 0 else rows[|rows| - 1].task.size
  }

  /** The three counters after the rows read so far. */
  predicate Tallied(h: Bloom.Hashing, c: ScanConfig, rows: seq<CatalogRow>, values: nat, baskets: nat, bytes: nat) {
    values == BasketValues(h, c, rows) <= U64_MAX && baskets == KeptBaskets(h, c, rows) <= U64_MAX &&
    bytes == KeptBytes(h, c, rows) <= U64_MAX
  }

  lemma {:induction false} TallyNext(h: Bloom.Hashing, c: ScanConfig, rows: seq<CatalogRow>, n: nat,
                                     values: nat, baskets: nat, bytes: nat)
    requires n < |rows| && Tallied(h, c, rows[..n], values, baskets, bytes)
    ensures AllPieces(h, c, rows[..n + 1]) == AllPieces(h, c, rows[..n]) + Pieces(h, c, rows[n])
    ensures Pieces(h, c, rows[n]) == [] ==> Tallied(h, c, rows[..n + 1], values, baskets, bytes)
    ensures Pieces(h, c, rows[n]) != [] && values + rows[n].task.valueCount <= U64_MAX && baskets < U64_MAX &&
            bytes + rows[n].task.size <= U64_MAX ==>
      Tallied(h, c, rows[..n + 1], values + rows[n].task.valueCount, baskets + 1, bytes + rows[n].task.size)
  {
    assert rows[..n + 1][..n] == rows[..n];
  }

  predicate MayStopEarly(c: ScanConfig) {
    c.rowLimit != U64_MAX && !HasFilters(c) && !c.intervalsActive
  }

  /** The first n baskets end within the 64-bit byte range of their file. */
  predicate Addressable(rows: seq<CatalogRow>, n: nat)
    requires n <= |rows|
  {
    forall k :: 0 <= k < n ==> rows[k].task.offset + rows[k].task.size <= U64_MAX
  }

  /** The pieces of one basket are tasks whose counters fit. */
  lemma {:induction false} PiecesInRange(h: Bloom.Hashing, c: ScanConfig, row: CatalogRow)
    requires row.task.basketCount == 1 && row.task.valueCount <= U64_MAX && row.task.offset + row.task.size <= U64_MAX
    ensures AllInRange(Pieces(h, c, row))
  {
    if row.task.key.fileId in c.candidates {
      ClippedCounts(row.task, c.candidates[row.task.key.fileId]);
    }
  }

  /** What has been planned for the rows read so far. */
  predicate PlannedFor(h: Bloom.Hashing, c: ScanConfig, rows: seq<CatalogRow>, p: Plan, runs: seq<seq<Task>>) {
    p.Planned? && p.consumed == |rows| && Coalesces(p.tasks, runs, AllPieces(h, c, rows), c.coalesceGap) &&
    Apart(p.tasks, c.coalesceGap) && Tallied(h, c, rows, p.plannedValues, p.plannedBaskets, p.plannedBytes) &&
    AllInRange(p.tasks) && Addressable(rows, |rows|)
  }

  /** Reads one row: counts its basket if any piece of it is left, and adds the pieces. */
  method PlanRow(h: Bloom.Hashing, c: ScanConfig, rows: seq<CatalogRow>, p: Plan, ghost runs: seq<seq<Task>>)
    returns (next: Plan, ghost nextRuns: seq<seq<Task>>)
    requires p.Planned? && p.consumed < |rows| && PlannedFor(h, c, rows[..p.consumed], p, runs)
    requires rows[p.consumed].task.basketCount == 1
    ensures next.Planned? ==> next.consumed == p.consumed + 1 && PlannedFor(h, c, rows[..next.consumed], next, nextRuns)
    ensures next == Failed(BasketBeyondRange) <==> !Addressable(rows, p.consumed + 1)
  {
    nextRuns := runs;
    var n, row := p.consumed, rows[p.consumed];
    NextAddressable(rows, n);
    if row.task.size > U64_MAX - row.task.offset {
      return Failed(BasketBeyondRange), nextRuns;
    }
    var candidates := Pieces(h, c, row);
    TallyNext(h, c, rows, n, p.plannedValues, p.plannedBaskets, p.plannedBytes);
    next := p.(consumed := n + 1);
    if candidates == [] {
      assert AllPieces(h, c, rows[..n]) + [] == AllPieces(h, c, rows[..n]);
      return;
    }
    if row.task.size > U64_MAX - p.plannedBytes || row.task.valueCount > U64_MAX - p.plannedValues ||
       p.plannedBaskets == U64_MAX
    {
      return Failed(CountersExceeded), nextRuns;
    }
    PiecesInRange(h, c, row);
    var ok, tasks;
    ok, tasks, nextRuns := AddCandidates(p.tasks, candidates, c.coalesceGap, runs, AllPieces(h, c, rows[..n]));
    if !ok {
      return Failed(TaskExceeded), nextRuns;
    }
    next := Planned(tasks, p.plannedValues + row.task.valueCount, p.plannedBaskets + 1,
                    p.plannedBytes + row.task.size, n + 1);
  }

  lemma {:induction false} NextAddressable(rows: seq<CatalogRow>, n: nat)
    requires n < |rows| && Addressable(rows[..n], n)
    ensures Addressable(rows, n)
    ensures Addressable(rows[..n + 1], n + 1) <==> Addressable(rows, n + 1)
    ensures Addressable(rows, n + 1) <==> rows[n].task.offset + rows[n].task.size <= U64_MAX
  {
    assert forall k :: 0 <= k < n ==> rows[..n][k] == rows[k];
    assert forall k :: 0 <= k < n + 1 ==> rows[..n + 1][k] == rows[k];
  }

  /** The query result is read row by row, one basket each; planning stops early only when no filter
      can reject a planned value, and then the planned baskets hold enough values. Whatever it returns
      fits the counters: those of the plan as a whole and those of each task. */
  method PlanTasks(h: Bloom.Hashing, c: ScanConfig, rows: seq<CatalogRow>) returns (p: Plan, ghost runs: seq<seq<Task>>)
    requires forall k :: 0 <= k < |rows| ==> rows[k].task.basketCount == 1
    ensures p.Planned? ==> p.consumed <= |rows| && PlannedFor(h, c, rows[..p.consumed], p, runs)
    ensures p.Planned? && p.consumed < |rows| ==> MayStopEarly(c) && p.plannedValues >= c.rowLimit
    ensures p == Failed(BasketBeyondRange) ==> !Addressable(rows, |rows|)
  {
    p, runs := Planned([], 0, 0, 0, 0), [];
    for n := 0 to |rows|
      invariant p.Planned? && p.consumed == n && PlannedFor(h, c, rows[..n], p, runs)
    {
      p, runs := PlanRow(h, c, rows, p, runs);
      if p.Failed? {
        return;
      }
      if RowMayContain(h, c, rows[n]) && MayStopEarly(c) && p.plannedValues >= c.rowLimit {
        return;
      }
    }
  }

  lemma {:induction false} BasketValuesUnfiltered(h: Bloom.Hashing, c: ScanConfig, rows: seq<CatalogRow>)
    requires !HasFilters(c) && !c.intervalsActive
    ensures BasketValues(h, c, rows) == SumValues(AllPieces(h, c, rows))
  {
    if rows != [] {
      var init, last := rows[..|rows| - 1], rows[|rows| - 1];
      BasketValuesUnfiltered(h, c, init);
      SumValuesConcat(AllPieces(h, c, init), [last.task]);
      assert [last.task][..0] == [];
    }
  }

  /** Without filters or intervals the planned tasks hold at least min(row limit, all values). */
  lemma {:induction false} EarlyStopKeepsEnough(h: Bloom.Hashing, c: ScanConfig, rows: seq<CatalogRow>, consumed: nat,
                                                tasks: seq<Task>, runs: seq<seq<Task>>)
    requires !HasFilters(c) && !c.intervalsActive && consumed <= |rows|
    requires Coalesces(tasks, runs, AllPieces(h, c, rows[..consumed]), c.coalesceGap)
    requires UriDetermines(AllPieces(h, c, rows[..consumed])) && AllValid(AllPieces(h, c, rows[..consumed]))
    requires consumed < |rows| ==> BasketValues(h, c, rows[..consumed]) >= c.rowLimit
    ensures SumValues(tasks) >= Min(c.rowLimit, BasketValues(h, c, rows))
  {
    var pieces := AllPieces(h, c, rows[..consumed]);
    CoalescingPreserves(tasks, runs, pieces, c.coalesceGap, Key("", "", "", "", 0), 0);
    BasketValuesUnfiltered(h, c, rows[..consumed]);
    BasketValuesOfAll(h, c, rows, consumed);
  }

  lemma {:induction false} BasketValuesOfAll(h: Bloom.Hashing, c: ScanConfig, rows: seq<CatalogRow>, n: nat)
    requires n <= |rows|
    ensures n == |rows| ==> BasketValues(h, c, rows[..n]) == BasketValues(h, c, rows)
  {
    if n == |rows| {
      assert rows[..n] == rows;
    }
  }

  // ----- Task groups -----

  datatype Group = Group(begin: nat, end: nat, cached: bool)

  /** A maximal run of tasks of one file. */
  predicate UriRun(g: Group, ts: seq<Task>) {
    && g.begin < g.end <= |ts|
    && (forall k :: g.begin <= k < g.end ==> ts[k].key.uri == ts[g.begin].key.uri)
    && (g.end < |ts| ==> ts[g.end].key.uri != ts[g.begin].key.uri)
  }

  /** Each group is a maximal run of tasks of one file, and the groups follow each other from 0 to n. */
  predicate PartitionsTasks(groups: seq<Group>, ts: seq<Task>, upTo: nat) {
    && (groups == [] ==> upTo == 0)
    && (groups != [] ==> groups[0].begin == 0 && groups[|groups| - 1].end == upTo)
    && (forall g :: 0 <= g < |groups| ==> UriRun(groups[g], ts))
    && (forall g :: 0 <= g < |groups| - 1 ==> groups[g].end == groups[g + 1].begin)
  }

  /** The k-th task continues the file where the one before it ended. */
  predicate Continues(ts: seq<Task>, k: int) {
    0 <= k < |ts| && var t, first := ts[k], ts[0];
    t.key.fileId == first.key.fileId && t.key.schema == first.key.schema &&
    t.fileEntries == first.fileEntries && t.fileBaskets == first.fileBaskets &&
    t.begin == (if k == 0 then 0 else ts[k - 1].end) && t.begin < t.end <= first.fileEntries
  }

  /** A gap-free walk through all entries and all baskets of one file. */
  predicate CompleteScan(ts: seq<Task>) {
    ts != [] && ts[0].fileEntries > 0 && ts[0].fileBaskets > 0 &&
    (forall k :: 0 <= k < |ts| ==> Continues(ts, k)) &&
    SumBaskets(ts) == ts[0].fileBaskets && ts[|ts| - 1].end == ts[0].fileEntries
  }

  lemma {:induction false} SumBasketsPrefix(ts: seq<Task>, k: nat)
    requires k <= |ts|
    ensures SumBaskets(ts[..k]) <= SumBaskets(ts)
  {
    assert ts == ts[..k] + ts[k..];
    SumValuesConcat(ts[..k], ts[k..]);
  }

  method ScansEntireFileSequentially(tasks: seq<Task>, begin: nat, end: nat) returns (complete: bool)
    requires begin < end <= |tasks|
    ensures complete <==> CompleteScan(tasks[begin..end])
  {
    ghost var ts := tasks[begin..end];
    var first := tasks[begin];
    assert ts[0] == first;
    if first.fileEntries == 0 || first.fileBaskets == 0 {
      return false;
    }
    var next, selected := 0, 0;
    for i := begin to end
      invariant next == (if i == begin then 0 else tasks[i - 1].end)
      invariant selected == SumBaskets(ts[..i - begin]) <= first.fileBaskets
      invariant forall k :: 0 <= k < i - begin ==> Continues(ts, k)
    {
      var t := tasks[i];
      assert ts[i - begin] == t;
      assert ts[..i + 1 - begin][..i - begin] == ts[..i - begin];
      if t.key.fileId != first.key.fileId || t.key.schema != first.key.schema ||
         t.fileEntries != first.fileEntries || t.fileBaskets != first.fileBaskets || t.begin != next ||
         t.begin >= t.end || t.end > first.fileEntries || t.basketCount > first.fileBaskets - selected
      {
        SumBasketsPrefix(ts, i + 1 - begin);
        assert CompleteScan(ts) ==> Continues(ts, i - begin);
        return false;
      }
      assert Continues(ts, i - begin);
      selected := selected + t.basketCount;
      next := t.end;
    }
    assert ts[..end - begin] == ts && ts[|ts| - 1] == tasks[end - 1];
    assert selected == SumBaskets(ts);
    assert next == ts[|ts| - 1].end;
    return selected == first.fileBaskets && next == first.fileEntries;
  }

  /** A complete scan reads each entry of its file once and no entry of another file. */
  lemma {:induction false} CompleteScanReads(ts: seq<Task>, key: Key, entry: int)
    requires CompleteScan(ts) && forall k :: 0 <= k < |ts| ==> ts[k].key == ts[0].key
    ensures Readers(ts, key, entry) == if key == ts[0].key && 0 <= entry < ts[0].fileEntries then 1 else 0
  {
    WalkReads(ts, |ts|, key, entry);
    assert ts[..|ts|] == ts;
  }

  lemma {:induction false} WalkReads(ts: seq<Task>, n: nat, key: Key, entry: int)
    requires 0 < n <= |ts| && forall k :: 0 <= k < |ts| ==> Continues(ts, k)
    requires forall k :: 0 <= k < |ts| ==> ts[k].key == ts[0].key
    ensures Readers(ts[..n], key, entry) == if key == ts[0].key && 0 <= entry < ts[n - 1].end then 1 else 0
  {
    assert Continues(ts, n - 1);
    assert ts[..n][..n - 1] == ts[..n - 1] && ts[..n][n - 1] == ts[n - 1];
    if n == 1 {
      assert ts[..1] == [ts[0]];
      ReadersOne(ts[0], key, entry);
    } else {
      WalkReads(ts, n - 1, key, entry);
    }
  }

  predicate CacheRule(groups: seq<Group>, ts: seq<Task>, unrestricted: bool, explicitCache: bool) {
    forall g :: 0 <= g < |groups| ==>
      groups[g].begin <= groups[g].end <= |ts| &&
      (groups[g].cached <==> explicitCache || (unrestricted && CompleteScan(ts[groups[g].begin..groups[g].end])))
  }

  lemma {:induction false} AppendGroup(groups: seq<Group>, ts: seq<Task>, g: Group)
    requires PartitionsTasks(groups, ts, g.begin) && UriRun(g, ts)
    ensures PartitionsTasks(groups + [g], ts, g.end)
  {
  }

  /** The end of the run of tasks that share the uri of the first one. */
  method RunOfUri(ts: seq<Task>, begin: nat) returns (end: nat)
    requires begin < |ts|
    ensures begin < end <= |ts|
    ensures forall k :: begin <= k < end ==> ts[k].key.uri == ts[begin].key.uri
    ensures end < |ts| ==> ts[end].key.uri != ts[begin].key.uri
  {
    end := begin + 1;
    while end < |ts| && ts[end].key.uri == ts[begin].key.uri
      invariant begin < end <= |ts|
      invariant forall k :: begin <= k < end ==> ts[k].key.uri == ts[begin].key.uri
    {
      end := end + 1;
    }
  }

  /** `unrestricted` says that no filter, range, interval or limit applies to the scan. */
  method BuildFileTaskGroups(ts: seq<Task>, unrestricted: bool, explicitCache: bool) returns (groups: seq<Group>)
    ensures PartitionsTasks(groups, ts, |ts|)
    ensures CacheRule(groups, ts, unrestricted, explicitCache)
  {
    groups := [];
    var begin := 0;
    while begin < |ts|
      invariant 0 <= begin <= |ts|
      invariant PartitionsTasks(groups, ts, begin)
      invariant CacheRule(groups, ts, unrestricted, explicitCache)
    {
      var end := RunOfUri(ts, begin);
      var complete := ScansEntireFileSequentially(ts, begin, end);
      var g := Group(begin, end, explicitCache || (unrestricted && complete));
      AppendGroup(groups, ts, g);
      groups := groups + [g];
      begin := end;
    }
  }
}
