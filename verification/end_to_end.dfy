/** The indexed scan refines the full scan: index rows, planning, clipping and the
    interleaved workers together emit exactly the rows that reading every value of
    every entry and filtering them would. */
module EndToEnd {
  import opened Numbers
  import opened Expressions
  import opened Ranges
  import Bloom
  import EntrySelection
  import opened PathPredicates
  import IndexBuilder
  import opened Planner
  import opened Executor
  import opened TypedTransport

  // ----- The data set and its index -----

  datatype Element = Element(value: Num, indices: seq<int>)

  /** One source file: what reading each entry delivers for the value path and for the path of
      every predicate, and the index rows kept about it. */
  datatype SourceFile = SourceFile(
    key: Key,
    elements: seq<Option<seq<Element>>>,
    metas: seq<IndexBuilder.BasketMeta>, meta: IndexBuilder.FileMeta,
    placement: nat -> (nat, nat),
    paths: seq<seq<IndexBuilder.Entry>>,
    pathMetas: seq<seq<IndexBuilder.BasketMeta>>, pathFiles: seq<IndexBuilder.FileMeta>)

  function ElementValues(es: seq<Element>): seq<Num> {
    seq(|es|, k requires 0 <= k < |es| => es[k].value)
  }

  function EntryValues(e: Option<seq<Element>>): IndexBuilder.Entry {
    if e.None? then None else Some(ElementValues(e.value))
  }

  function ValueEntries(f: SourceFile): seq<IndexBuilder.Entry> {
    seq(|f.elements|, k requires 0 <= k < |f.elements| => EntryValues(f.elements[k]))
  }

  /** How the filters were split: event, entry and source filters run once per entry when they are
      plain comparisons, otherwise with the element filters. */
  datatype Partition = Partition(event: bool, entry: bool, source: bool)

  datatype Query = Query(
    c: ScanConfig, preds: seq<PathPredicate>, selectionActive: bool, selection: Candidates,
    other: Row -> bool, partition: Partition)

  /** The index rows of a file tell the truth about it. */
  ghost predicate Indexed(h: Bloom.Hashing, q: Query, f: SourceFile) {
    && f.key.eventBase + |f.elements| <= U64_MAX
    && IndexBuilder.TrueIndex(h, f.metas, f.meta, ValueEntries(f), DoubleBacked(q.c.valueTy))
    && |f.paths| == |f.pathMetas| == |f.pathFiles| == |q.preds|
    && forall p :: 0 <= p < |q.preds| ==> PathIndexed(h, q, f, p)
  }

  ghost predicate PathIndexed(h: Bloom.Hashing, q: Query, f: SourceFile, p: nat)
    requires p < |q.preds| == |f.paths| == |f.pathMetas| == |f.pathFiles|
  {
    |f.paths[p]| == |f.elements| &&
    (forall e :: 0 <= e < |f.paths[p]| && f.paths[p][e].Some? ==> OfKind(q.preds[p].kind, f.paths[p][e].value)) &&
    IndexBuilder.TrueIndex(h, f.pathMetas[p], f.pathFiles[p], f.paths[p], DoubleBackedPath(q.preds[p]))
  }

  /** One root_uri, one file id and one event base belong together. */
  ghost predicate Dataset(h: Bloom.Hashing, q: Query, files: seq<SourceFile>) {
    && (forall i :: 0 <= i < |files| ==> Indexed(h, q, files[i]))
    && (forall i, j :: 0 <= i < |files| && 0 <= j < |files| && i != j ==>
          files[i].key.fileId != files[j].key.fileId && files[i].key.uri != files[j].key.uri)
  }

  // ----- The specification: read everything, then filter -----

  function ElementRows(f: SourceFile, entry: nat, es: seq<Element>): seq<Row> {
    seq(|es|, k requires 0 <= k < |es| =>
      Row(f.key.fileId, f.key.eventBase + entry, entry, es[k].indices, es[k].value))
  }

  function EntryRows(f: SourceFile, entry: nat): seq<Row>
    requires entry < |f.elements|
  {
    if f.elements[entry].None? then [] else ElementRows(f, entry, f.elements[entry].value)
  }

  /** The pushed filters as SQL means them. */
  predicate AllExpressions(q: Query, r: Row) {
    && ExpressionHolds(q.c.value, r.value)
    && ExpressionHolds(q.c.event, OfNat(r.eventFk))
    && ExpressionHolds(q.c.entry, OfNat(r.entry))
    && (q.c.source.Some? ==> SourceHolds(q.c.source.value, r.file))
    && q.other(r)
  }

  predicate PathsMatch(q: Query, f: SourceFile, entry: nat)
    requires forall p :: 0 <= p < |q.preds| ==> WellFormed(q.preds[p])
    requires |f.paths| == |q.preds|
  {
    forall p :: 0 <= p < |q.preds| ==>
      entry < |f.paths[p]| && f.paths[p][entry].Some? && EventMatches(q.preds[p], f.paths[p][entry].value)
  }

  predicate WellFormedQuery(q: Query) {
    && (forall p :: 0 <= p < |q.preds| ==> WellFormed(q.preds[p]))
    && AllNormal(q.selection) && AllNormal(q.c.candidates)
    && q.c.rowLimit == U64_MAX
    && q.c.intervalsActive == (q.selectionActive || q.preds != [])
  }

  /** The entries that the path predicates and the entry selection keep. */
  predicate EntryQualifies(q: Query, f: SourceFile, entry: nat)
    requires WellFormedQuery(q) && |f.paths| == |q.preds|
  {
    PathsMatch(q, f, entry) && SelectionAdmits(q.selectionActive, q.selection, f.key.fileId, entry)
  }

  function FilterRows(q: Query, rows: seq<Row>): seq<Row> {
    if rows == [] then []
    else FilterRows(q, rows[..|rows| - 1]) +
         if AllExpressions(q, rows[|rows| - 1]) then [rows[|rows| - 1]] else []
  }

  /** What each entry of a file contributes to the answer. */
  function EntryScan(q: Query, f: SourceFile): nat -> seq<Row>
    requires WellFormedQuery(q) && |f.paths| == |q.preds|
  {
    (entry: nat) =>
      if entry < |f.elements| && EntryQualifies(q, f, entry) then FilterRows(q, EntryRows(f, entry)) else []
  }

  function Gather(rowsOf: nat -> seq<Row>, n: nat): seq<Row> {
    if n == 0 then [] else Gather(rowsOf, n - 1) + rowsOf(n - 1)
  }

  function FileScan(q: Query, f: SourceFile): seq<Row>
    requires WellFormedQuery(q) && |f.paths| == |q.preds|
  {
    Gather(EntryScan(q, f), |f.elements|)
  }

  /** Every row of every entry of every file that satisfies the query. */
  function FullScan(q: Query, files: seq<SourceFile>): seq<Row>
    requires WellFormedQuery(q) && forall i :: 0 <= i < |files| ==> |files[i].paths| == |q.preds|
  {
    if files == [] then []
    else FullScan(q, files[..|files| - 1]) + FileScan(q, files[|files| - 1])
  }

  lemma {:induction false} FilterCount(q: Query, rows: seq<Row>, r: Row)
    ensures multiset(FilterRows(q, rows))[r] == if AllExpressions(q, r) then multiset(rows)[r] else 0
  {
    if rows != [] {
      FilterCount(q, rows[..|rows| - 1], r);
      assert rows == rows[..|rows| - 1] + [rows[|rows| - 1]];
    }
  }

  /** The rows of an entry carry its coordinates. */
  lemma {:induction false} ForeignRows(f: SourceFile, entry: nat, r: Row)
    requires entry < |f.elements|
    requires r.file != f.key.fileId || r.entry != entry || r.eventFk != f.key.eventBase + entry
    ensures multiset(EntryRows(f, entry))[r] == 0
  {
    assert r !in EntryRows(f, entry);
  }

  lemma {:induction false} EntryScanCount(q: Query, f: SourceFile, entry: nat, r: Row)
    requires WellFormedQuery(q) && |f.paths| == |q.preds| && entry < |f.elements|
    ensures multiset(EntryScan(q, f)(entry))[r] ==
      if EntryQualifies(q, f, entry) && AllExpressions(q, r) then multiset(EntryRows(f, entry))[r] else 0
    ensures r.file != f.key.fileId || r.entry != entry ==> multiset(EntryScan(q, f)(entry))[r] == 0
  {
    FilterCount(q, EntryRows(f, entry), r);
    if r.file != f.key.fileId || r.entry != entry {
      ForeignRows(f, entry, r);
    }
  }

  lemma {:induction false} GatherNone(rowsOf: nat -> seq<Row>, n: nat, r: Row)
    requires forall entry :: 0 <= entry < n ==> multiset(rowsOf(entry))[r] == 0
    ensures multiset(Gather(rowsOf, n))[r] == 0
  {
    if n > 0 {
      GatherNone(rowsOf, n - 1, r);
    }
  }

  lemma {:induction false} GatherLast(rowsOf: nat -> seq<Row>, n: nat, r: Row)
    requires n > 0
    ensures multiset(Gather(rowsOf, n))[r] == multiset(Gather(rowsOf, n - 1))[r] + multiset(rowsOf(n - 1))[r]
  {
  }

  lemma {:induction false} GatherOne(rowsOf: nat -> seq<Row>, n: nat, only: nat, r: Row)
    requires only < n && forall entry :: 0 <= entry < n && entry != only ==> multiset(rowsOf(entry))[r] == 0
    ensures multiset(Gather(rowsOf, n))[r] == multiset(rowsOf(only))[r]
  {
    GatherLast(rowsOf, n, r);
    if only == n - 1 {
      GatherNone(rowsOf, n - 1, r);
    } else {
      GatherOne(rowsOf, n - 1, only, r);
    }
  }

  /** A row occurs in the answer for a file as often as in its own entry, if that entry and the row qualify. */
  lemma {:induction false} FileScanCount(q: Query, f: SourceFile, r: Row)
    requires WellFormedQuery(q) && |f.paths| == |q.preds|
    ensures multiset(FileScan(q, f))[r] ==
      if r.file == f.key.fileId && 0 <= r.entry < |f.elements| && EntryQualifies(q, f, r.entry) && AllExpressions(q, r)
      then multiset(EntryRows(f, r.entry))[r] else 0
  {
    var n := |f.elements|;
    forall entry | 0 <= entry < n && (r.file != f.key.fileId || r.entry != entry)
      ensures multiset(EntryScan(q, f)(entry))[r] == 0
    {
      EntryScanCount(q, f, entry, r);
    }
    if r.file == f.key.fileId && 0 <= r.entry < n {
      GatherOne(EntryScan(q, f), n, r.entry, r);
      EntryScanCount(q, f, r.entry, r);
    } else {
      GatherNone(EntryScan(q, f), n, r);
    }
  }

  lemma {:induction false} FullScanForeign(q: Query, files: seq<SourceFile>, r: Row)
    requires WellFormedQuery(q) && forall i :: 0 <= i < |files| ==> |files[i].paths| == |q.preds|
    requires forall i :: 0 <= i < |files| ==> files[i].key.fileId != r.file
    ensures multiset(FullScan(q, files))[r] == 0
  {
    if files != [] {
      FullScanForeign(q, files[..|files| - 1], r);
      FileScanCount(q, files[|files| - 1], r);
    }
  }

  lemma {:induction false} FullScanCount(q: Query, files: seq<SourceFile>, i: nat, r: Row)
    requires WellFormedQuery(q) && forall i :: 0 <= i < |files| ==> |files[i].paths| == |q.preds|
    requires i < |files| && r.file == files[i].key.fileId
    requires forall j :: 0 <= j < |files| && j != i ==> files[j].key.fileId != files[i].key.fileId
    ensures multiset(FullScan(q, files))[r] == multiset(FileScan(q, files[i]))[r]
  {
    var n := |files| - 1;
    if i == n {
      FullScanForeign(q, files[..n], r);
    } else {
      FullScanCount(q, files[..n], i, r);
      FileScanCount(q, files[n], r);
    }
  }

  // ----- The catalog query -----

  /** The joined row of basket k. */
  function RowOf(f: SourceFile, k: nat): CatalogRow
    requires k < |f.metas|
  {
    var m := f.metas[k];
    CatalogRow(
      Task(f.key, m.range.begin, m.range.end, m.stats.valueCount, f.placement(k).0, f.placement(k).1, 1,
           f.meta.totalEntries, f.meta.basketCount),
      m.stats, f.meta.stats)
  }

  function FileRows(f: SourceFile, n: nat): seq<CatalogRow>
    requires n <= |f.metas|
  {
    if n == 0 then [] else FileRows(f, n - 1) + [RowOf(f, n - 1)]
  }

  function Catalog(files: seq<SourceFile>): seq<CatalogRow> {
    if files == [] then []
    else Catalog(files[..|files| - 1]) + FileRows(files[|files| - 1], |files[|files| - 1].metas|)
  }

  function Selected(c: ScanConfig, rows: seq<CatalogRow>): seq<CatalogRow> {
    if rows == [] then []
    else Selected(c, rows[..|rows| - 1]) + if RowSelected(c, rows[|rows| - 1]) then [rows[|rows| - 1]] else []
  }

  /** The query returns the selected rows of the catalog, in any order. */
  predicate QueryResult(c: ScanConfig, files: seq<SourceFile>, rows: seq<CatalogRow>) {
    multiset(rows) == multiset(Selected(c, Catalog(files)))
  }

  // ----- Who reads an entry after the Bloom test and clipping -----

  predicate PieceReads(h: Bloom.Hashing, c: ScanConfig, row: CatalogRow, key: Key, entry: int) {
    row.task.key == key && row.task.begin <= entry < row.task.end && RowMayContain(h, c, row) &&
    (c.intervalsActive ==> InCandidates(c.candidates, key.fileId, entry))
  }

  lemma {:induction false} PiecesReaders(h: Bloom.Hashing, c: ScanConfig, row: CatalogRow, key: Key, entry: int)
    requires AllNormal(c.candidates)
    ensures Readers(Pieces(h, c, row), key, entry) == One(PieceReads(h, c, row, key, entry))
  {
    ReadersOne(row.task, key, entry);
    if row.task.key.fileId in c.candidates {
      ClippedReaders(row.task, c.candidates[row.task.key.fileId], key, entry);
    }
  }

  /** How many rows satisfy a test. */
  function Count(p: CatalogRow -> bool, rows: seq<CatalogRow>): nat {
    if rows == [] then 0 else Count(p, rows[..|rows| - 1]) + One(p(rows[|rows| - 1]))
  }

  lemma {:induction false} CountConcat(p: CatalogRow -> bool, a: seq<CatalogRow>, b: seq<CatalogRow>)
    ensures Count(p, a + b) == Count(p, a) + Count(p, b)
  {
    if b == [] {
      assert a + b == a;
    } else {
      assert (a + b)[..|a + b| - 1] == a + b[..|b| - 1];
      CountConcat(p, a, b[..|b| - 1]);
    }
  }

  lemma {:induction false} CountWithoutOne(p: CatalogRow -> bool, b: seq<CatalogRow>, j: nat)
    requires j < |b|
    ensures Count(p, b) == Count(p, b[..j] + b[j + 1..]) + One(p(b[j]))
  {
    CountConcat(p, b[..j], b[j + 1..]);
    CountConcat(p, b[..j + 1], b[j + 1..]);
    assert b == b[..j + 1] + b[j + 1..] && b[..j + 1][..j] == b[..j];
  }

  lemma {:induction false} CancelOne(x: multiset<CatalogRow>, y: multiset<CatalogRow>, row: CatalogRow)
    requires x + multiset{row} == y + multiset{row}
    ensures x == y
  {
    assert x == x + multiset{row} - multiset{row};
    assert y == y + multiset{row} - multiset{row};
  }

  lemma {:induction false} MatchLast(a: seq<CatalogRow>, b: seq<CatalogRow>) returns (j: nat)
    requires multiset(a) == multiset(b) && a != []
    ensures j < |b| && b[j] == a[|a| - 1]
    ensures multiset(b[..j] + b[j + 1..]) == multiset(a[..|a| - 1])
  {
    var last := a[|a| - 1];
    assert a == a[..|a| - 1] + [last];
    assert last in multiset(b);
    j :| 0 <= j < |b| && b[j] == last;
    assert b == b[..j] + [last] + b[j + 1..];
    assert multiset(a) == multiset(a[..|a| - 1]) + multiset{last};
    assert multiset(b) == multiset(b[..j] + b[j + 1..]) + multiset{last};
    CancelOne(multiset(b[..j] + b[j + 1..]), multiset(a[..|a| - 1]), last);
  }

  /** A count does not depend on the order of the query result. */
  lemma {:induction false} OrderIrrelevant(p: CatalogRow -> bool, a: seq<CatalogRow>, b: seq<CatalogRow>)
    requires multiset(a) == multiset(b)
    ensures Count(p, a) == Count(p, b)
    decreases |a|
  {
    if a == [] {
      assert |multiset(b)| == 0;
    } else {
      var j := MatchLast(a, b);
      CountWithoutOne(p, b, j);
      OrderIrrelevant(p, a[..|a| - 1], b[..j] + b[j + 1..]);
    }
  }

  function ReadingTest(h: Bloom.Hashing, c: ScanConfig, key: Key, entry: int): CatalogRow -> bool {
    row => PieceReads(h, c, row, key, entry)
  }

  function HitTest(h: Bloom.Hashing, c: ScanConfig, key: Key, entry: int): CatalogRow -> bool {
    row => RowSelected(c, row) && PieceReads(h, c, row, key, entry)
  }

  lemma {:induction false} PiecesRead(h: Bloom.Hashing, c: ScanConfig, rows: seq<CatalogRow>, key: Key, entry: int)
    requires AllNormal(c.candidates)
    ensures Readers(AllPieces(h, c, rows), key, entry) == Count(ReadingTest(h, c, key, entry), rows)
  {
    if rows != [] {
      var n := |rows| - 1;
      PiecesRead(h, c, rows[..n], key, entry);
      ReadersConcat(AllPieces(h, c, rows[..n]), Pieces(h, c, rows[n]), key, entry);
      PiecesReaders(h, c, rows[n], key, entry);
    }
  }

  lemma {:induction false} SelectedCount(h: Bloom.Hashing, c: ScanConfig, rows: seq<CatalogRow>, key: Key, entry: int)
    ensures Count(ReadingTest(h, c, key, entry), Selected(c, rows)) == Count(HitTest(h, c, key, entry), rows)
  {
    if rows != [] {
      var n := |rows| - 1;
      SelectedCount(h, c, rows[..n], key, entry);
      if RowSelected(c, rows[n]) {
        assert (Selected(c, rows[..n]) + [rows[n]])[..|Selected(c, rows[..n])|] == Selected(c, rows[..n]);
      } else {
        assert Selected(c, rows) == Selected(c, rows[..n]);
      }
    }
  }

  // ----- The one row of the catalog that holds an entry -----

  lemma {:induction false} NextRow(p: CatalogRow -> bool, f: SourceFile, n: nat)
    requires n < |f.metas|
    ensures Count(p, FileRows(f, n + 1)) == Count(p, FileRows(f, n)) + One(p(RowOf(f, n)))
  {
    assert FileRows(f, n + 1) == FileRows(f, n) + [RowOf(f, n)];
    assert FileRows(f, n + 1)[..|FileRows(f, n + 1)| - 1] == FileRows(f, n);
  }

  lemma {:induction false} NoRows(p: CatalogRow -> bool, f: SourceFile, n: nat)
    requires n <= |f.metas| && forall k :: 0 <= k < n ==> !p(RowOf(f, k))
    ensures Count(p, FileRows(f, n)) == 0
  {
    if n > 0 {
      NoRows(p, f, n - 1);
      NextRow(p, f, n - 1);
    }
  }

  /** Among the first n rows only one can satisfy the condition. */
  predicate OnlyAt(p: CatalogRow -> bool, f: SourceFile, n: nat, only: nat)
    requires n <= |f.metas|
  {
    forall k :: 0 <= k < n && k != only ==> !p(RowOf(f, k))
  }

  lemma {:induction false} OneRow(p: CatalogRow -> bool, f: SourceFile, n: nat, only: nat)
    requires only < n <= |f.metas| && OnlyAt(p, f, n, only)
    ensures Count(p, FileRows(f, n)) == One(p(RowOf(f, only)))
  {
    NextRow(p, f, n - 1);
    if only == n - 1 {
      NoRows(p, f, n - 1);
    } else {
      OneRow(p, f, n - 1, only);
      assert !p(RowOf(f, n - 1));
    }
  }

  ghost predicate NoRowOf(p: CatalogRow -> bool, f: SourceFile) {
    forall k :: 0 <= k < |f.metas| ==> !p(RowOf(f, k))
  }

  lemma {:induction false} NoFiles(p: CatalogRow -> bool, files: seq<SourceFile>)
    requires forall i :: 0 <= i < |files| ==> NoRowOf(p, files[i])
    ensures Count(p, Catalog(files)) == 0
  {
    if files != [] {
      var n := |files| - 1;
      CountConcat(p, Catalog(files[..n]), FileRows(files[n], |files[n].metas|));
      NoFiles(p, files[..n]);
      assert NoRowOf(p, files[n]);
      NoRows(p, files[n], |files[n].metas|);
    }
  }

  lemma {:induction false} OneFile(p: CatalogRow -> bool, files: seq<SourceFile>, only: nat)
    requires only < |files| && forall i :: 0 <= i < |files| && i != only ==> NoRowOf(p, files[i])
    ensures Count(p, Catalog(files)) == Count(p, FileRows(files[only], |files[only].metas|))
  {
    var n := |files| - 1;
    CountConcat(p, Catalog(files[..n]), FileRows(files[n], |files[n].metas|));
    if only == n {
      NoFiles(p, files[..n]);
    } else {
      OneFile(p, files[..n], only);
      assert NoRowOf(p, files[n]);
      NoRows(p, files[n], |files[n].metas|);
    }
  }

  ghost predicate DistinctKeys(files: seq<SourceFile>) {
    forall i, j :: 0 <= i < |files| && 0 <= j < |files| && i != j ==> files[i].key != files[j].key
  }

  ghost predicate DisjointBaskets(f: SourceFile) {
    forall i, j :: 0 <= i < j < |f.metas| ==> f.metas[i].range.end <= f.metas[j].range.begin
  }

  predicate OwnsEntry(f: SourceFile, k: int, entry: int) {
    0 <= k < |f.metas| && f.metas[k].range.begin <= entry < f.metas[k].range.end
  }

  lemma {:induction false} OneOwner(f: SourceFile, j: int, k: int, entry: int)
    requires DisjointBaskets(f) && OwnsEntry(f, j, entry) && OwnsEntry(f, k, entry)
    ensures j == k
  {
  }

  /** The only basket that can read an entry is the one that holds it. */
  lemma {:induction false} OthersMiss(h: Bloom.Hashing, c: ScanConfig, f: SourceFile, k: nat, key: Key, entry: int)
    requires k < |f.metas| && (f.key != key || !OwnsEntry(f, k, entry))
    ensures !HitTest(h, c, key, entry)(RowOf(f, k))
  {
  }

  lemma {:induction false} OtherFilesMiss(h: Bloom.Hashing, c: ScanConfig, f: SourceFile, key: Key, entry: int)
    requires f.key != key
    ensures NoRowOf(HitTest(h, c, key, entry), f)
  {
    forall k | 0 <= k < |f.metas| ensures !HitTest(h, c, key, entry)(RowOf(f, k)) {
      OthersMiss(h, c, f, k, key, entry);
    }
  }

  /** Whether basket k holds an entry and survives planning and clipping. */
  predicate Survives(h: Bloom.Hashing, c: ScanConfig, f: SourceFile, k: int, entry: int) {
    OwnsEntry(f, k, entry) && RowSelected(c, RowOf(f, k)) && RowMayContain(h, c, RowOf(f, k)) &&
    (c.intervalsActive ==> InCandidates(c.candidates, f.key.fileId, entry))
  }

  ghost predicate EntryPlanned(h: Bloom.Hashing, c: ScanConfig, f: SourceFile, entry: int) {
    exists k :: Survives(h, c, f, k, entry)
  }

  lemma {:induction false} OwnFileCount(h: Bloom.Hashing, c: ScanConfig, f: SourceFile, entry: int)
    requires DisjointBaskets(f)
    ensures Count(HitTest(h, c, f.key, entry), FileRows(f, |f.metas|)) == One(EntryPlanned(h, c, f, entry))
  {
    var p := HitTest(h, c, f.key, entry);
    if only :| OwnsEntry(f, only, entry) {
      forall k | 0 <= k < |f.metas| && k != only ensures !p(RowOf(f, k)) {
        if OwnsEntry(f, k, entry) {
          OneOwner(f, k, only, entry);
        }
        OthersMiss(h, c, f, k, f.key, entry);
      }
      OneRow(p, f, |f.metas|, only);
      assert p(RowOf(f, only)) <==> Survives(h, c, f, only, entry);
      if k :| Survives(h, c, f, k, entry) {
        OneOwner(f, k, only, entry);
      }
    } else {
      forall k | 0 <= k < |f.metas| ensures !p(RowOf(f, k)) {
        OthersMiss(h, c, f, k, f.key, entry);
      }
      NoRows(p, f, |f.metas|);
    }
  }

  /** Each entry of the data set is read by one piece when its basket survives, otherwise by none. */
  lemma {:induction false} EntryReaders(h: Bloom.Hashing, c: ScanConfig, files: seq<SourceFile>, rows: seq<CatalogRow>,
                                        i: nat, entry: int)
    requires AllNormal(c.candidates) && i < |files| && DistinctKeys(files) && DisjointBaskets(files[i])
    requires QueryResult(c, files, rows)
    ensures Readers(AllPieces(h, c, rows), files[i].key, entry) == One(EntryPlanned(h, c, files[i], entry))
  {
    var key := files[i].key;
    PiecesRead(h, c, rows, key, entry);
    OrderIrrelevant(ReadingTest(h, c, key, entry), rows, Selected(c, Catalog(files)));
    SelectedCount(h, c, Catalog(files), key, entry);
    forall j | 0 <= j < |files| && j != i ensures NoRowOf(HitTest(h, c, key, entry), files[j]) {
      OtherFilesMiss(h, c, files[j], key, entry);
    }
    OneFile(HitTest(h, c, key, entry), files, i);
    OwnFileCount(h, c, files[i], entry);
  }

  // ----- Pruning keeps every entry with a qualifying row -----

  /** The index rows of one predicate path, as the predicate query returns them. */
  ghost predicate Carries(rows: seq<BasketRow>, file: string, m: IndexBuilder.BasketMeta) {
    exists j :: 0 <= j < |rows| && rows[j].file == file && rows[j].stats == m.stats &&
      rows[j].entries.begin == m.range.begin && rows[j].entries.end == m.range.end
  }

  ghost predicate BoundTo(q: Query, files: seq<SourceFile>, bound: seq<BoundPredicate>) {
    |bound| == |q.preds| &&
    forall p :: 0 <= p < |q.preds| ==>
      bound[p].p == q.preds[p] &&
      forall i, k :: 0 <= i < |files| && p < |files[i].pathMetas| && 0 <= k < |files[i].pathMetas[p]| ==>
        Carries(bound[p].rows, files[i].key.fileId, files[i].pathMetas[p][k])
  }

  /** The candidates are what `BuildIntersection` leaves for the bound predicates and the selection. */
  ghost predicate CandidatesBuilt(h: Bloom.Hashing, q: Query, bound: seq<BoundPredicate>)
    requires WellFormedQuery(q) && forall p :: 0 <= p < |bound| ==> WellFormed(bound[p].p)
  {
    q.c.intervalsActive ==> forall file, entry ::
      InCandidates(q.c.candidates, file, entry) <==>
        SelectionAdmits(q.selectionActive, q.selection, file, entry) && AllAdmit(h, bound, file, entry)
  }

  /** No infinity satisfies the value filter. */
  predicate FiniteMatches(filter: Expr, es: seq<Element>) {
    forall k :: 0 <= k < |es| && Holds(filter, es[k].value) ==> !IsInfinite(es[k].value)
  }

  /** No event of a floating path satisfies the predicate by NaN alone. */
  predicate MatchesAreNumbers(p: PathPredicate, es: seq<IndexBuilder.Entry>)
    requires WellFormed(p)
  {
    p.kind.Floating? ==>
      forall e :: 0 <= e < |es| && es[e].Some? && EventMatches(p, es[e].value) ==> MatchesBeyondNaN(p, es[e].value)
  }

  /** The boundaries of exact pruning: no infinity satisfies the value filter, no event satisfies a path
      predicate by NaN alone. */
  ghost predicate WithinBoundaries(q: Query, f: SourceFile)
    requires WellFormedQuery(q)
  {
    && (q.c.value.Some? && DoubleBacked(q.c.valueTy) ==>
          forall e :: 0 <= e < |f.elements| && f.elements[e].Some? ==>
            FiniteMatches(q.c.value.value.expr, f.elements[e].value))
    && (forall p :: 0 <= p < |q.preds| && p < |f.paths| ==> MatchesAreNumbers(q.preds[p], f.paths[p]))
  }

  /** A value of an entry is among the values of the basket that holds the entry. */
  lemma {:induction false} ValueSeen(m: IndexBuilder.BasketMeta, entries: seq<IndexBuilder.Entry>, entry: int, v: Num)
    requires m.range.begin <= entry < m.range.end <= |entries| && entries[entry].Some? && v in entries[entry].value
    ensures v in IndexBuilder.SeenBy(m, entries)
  {
    var run := entries[m.range.begin..m.range.end];
    assert run[entry - m.range.begin] == entries[entry];
    IndexBuilder.EntryValuesIncluded(run, entry - m.range.begin, v);
  }

  lemma {:induction false} OwnerTrue(h: Bloom.Hashing, metas: seq<IndexBuilder.BasketMeta>, file: IndexBuilder.FileMeta,
                                     entries: seq<IndexBuilder.Entry>, statistics: bool, entry: int) returns (k: nat)
    requires IndexBuilder.TrueIndex(h, metas, file, entries, statistics) && 0 <= entry < |entries|
    ensures k < |metas| && metas[k].range.begin <= entry < metas[k].range.end <= |entries|
    ensures IndexBuilder.TrueMeta(h, metas[k], entries, statistics)
    ensures statistics ==> IndexBuilder.FileAdmits(file, IndexBuilder.SeenBy(metas[k], entries))
  {
    assert IndexBuilder.Owned(metas, entry);
    k :| 0 <= k < |metas| && metas[k].range.begin <= entry < metas[k].range.end;
  }

  /** Every basket that holds an event satisfying a predicate is admitted by it. */
  lemma {:induction false} PredicateKeepsEntry(h: Bloom.Hashing, q: Query, files: seq<SourceFile>,
                                               bound: seq<BoundPredicate>,
                                               i: nat, p: nat, entry: nat)
    requires WellFormedQuery(q) && i < |files| && p < |q.preds| && BoundTo(q, files, bound)
    requires Indexed(h, q, files[i]) && WithinBoundaries(q, files[i])
    requires PathsMatch(q, files[i], entry)
    ensures PredicateAdmits(h, bound[p].p, bound[p].rows, files[i].key.fileId, entry)
  {
    var f := files[i];
    assert PathIndexed(h, q, f, p);
    var entries, pred := f.paths[p], q.preds[p];
    var event := entries[entry].value;
    var k := OwnerTrue(h, f.pathMetas[p], f.pathFiles[p], entries, DoubleBackedPath(pred), entry);
    var m := f.pathMetas[p][k];
    if DoubleBackedPath(pred) {
      if !pred.kind.Floating? {
        assert OfKind(pred.kind, event);
        MatchesWithoutNaN(pred, event);
      }
      forall j | 0 <= j < |event| ensures event[j] in IndexBuilder.SeenBy(m, entries) {
        ValueSeen(m, entries, entry, event[j]);
      }
      EventKeepsBasket(h, pred, m.stats, NeedsBloom(pred), IndexBuilder.SeenBy(m, entries), event);
    }
    assert Carries(bound[p].rows, f.key.fileId, m);
    var j :| 0 <= j < |bound[p].rows| && bound[p].rows[j].file == f.key.fileId && bound[p].rows[j].stats == m.stats &&
      bound[p].rows[j].entries.begin == m.range.begin && bound[p].rows[j].entries.end == m.range.end;
    assert RowAdmits(h, pred, bound[p].rows[j], f.key.fileId, entry);
  }

  lemma {:induction false} QualifyingIsCandidate(h: Bloom.Hashing, q: Query, files: seq<SourceFile>,
                                                 bound: seq<BoundPredicate>, i: nat, entry: nat)
    requires WellFormedQuery(q) && i < |files| && BoundTo(q, files, bound)
    requires Indexed(h, q, files[i]) && WithinBoundaries(q, files[i])
    requires CandidatesBuilt(h, q, bound) && EntryQualifies(q, files[i], entry)
    ensures q.c.intervalsActive ==> InCandidates(q.c.candidates, files[i].key.fileId, entry)
  {
    forall p | 0 <= p < |bound|
      ensures PredicateAdmits(h, bound[p].p, bound[p].rows, files[i].key.fileId, entry)
    {
      PredicateKeepsEntry(h, q, files, bound, i, p, entry);
    }
    assert AllAdmit(h, bound, files[i].key.fileId, entry);
  }

  /** The zonemaps and the Bloom filter keep the basket of a value that satisfies the filter. */
  lemma {:induction false} ValueKeepsBasket(h: Bloom.Hashing, q: Query, f: SourceFile, k: nat, v: Num)
    requires k < |f.metas| && DoubleBacked(q.c.valueTy)
    requires IndexBuilder.TrueMeta(h, f.metas[k], ValueEntries(f), true)
    requires IndexBuilder.FileAdmits(f.meta, IndexBuilder.SeenBy(f.metas[k], ValueEntries(f)))
    requires v in IndexBuilder.SeenBy(f.metas[k], ValueEntries(f))
    requires ExpressionHolds(q.c.value, v) && (q.c.value.Some? ==> !IsInfinite(v))
    ensures ZoneKeeps(q.c.value, q.c.valueTy, f.meta.stats) && ZoneKeeps(q.c.value, q.c.valueTy, f.metas[k].stats)
    ensures RowMayContain(h, q.c, RowOf(f, k))
  {
    var seen := IndexBuilder.SeenBy(f.metas[k], ValueEntries(f));
    assert Describes(h, f.metas[k].stats, seen);
    if q.c.value.Some? {
      ZoneKeepsSound(q.c.value, q.c.valueTy, f.meta.stats, v);
      ZoneKeepsSound(q.c.value, q.c.valueTy, f.metas[k].stats, v);
      BloomKeepsSound(h, q.c.value.value.expr, f.metas[k].stats.bloom, q.c.valueTy, seen, v);
    }
  }

  lemma {:induction false} EventKeepsRange(c: ScanConfig, first: int, eventFk: int, last: int)
    requires first <= eventFk <= last && ExpressionHolds(c.event, OfNat(eventFk))
    ensures EventKeeps(c.event, first, last)
  {
    if c.event.Some? {
      ZonemapSound(c.event.value.expr, TUInt64, OfNat(eventFk), Zone(Some(first as real), Some(last as real)));
    }
  }

  lemma {:induction false} RowOfEntry(f: SourceFile, entry: nat, r: Row)
    requires entry < |f.elements| && r in EntryRows(f, entry)
    ensures r.file == f.key.fileId && r.entry == entry && r.eventFk == f.key.eventBase + entry
    ensures ValueEntries(f)[entry].Some? && r.value in ValueEntries(f)[entry].value
  {
    var es := f.elements[entry].value;
    var k :| 0 <= k < |EntryRows(f, entry)| && EntryRows(f, entry)[k] == r;
    assert ElementValues(es)[k] == r.value;
  }

  /** The row of the basket that holds a wanted entry meets the catalog condition. */
  lemma {:induction false} WantedRowSelected(q: Query, f: SourceFile, k: nat, entry: nat, r: Row)
    requires k < |f.metas| && OwnsEntry(f, k, entry) && f.meta.totalEntries == |f.elements|
    requires f.key.eventBase + |f.elements| <= U64_MAX && entry < |f.elements|
    requires r.file == f.key.fileId && r.entry == entry && r.eventFk == f.key.eventBase + entry
    requires AllExpressions(q, r)
    requires DoubleBacked(q.c.valueTy) ==>
      ZoneKeeps(q.c.value, q.c.valueTy, f.meta.stats) && ZoneKeeps(q.c.value, q.c.valueTy, f.metas[k].stats)
    ensures RowSelected(q.c, RowOf(f, k))
  {
    FilterRangeSound(q.c.entry, entry);
    EventKeepsRange(q.c, f.key.eventBase, r.eventFk, f.key.eventBase + f.meta.totalEntries - 1);
    EventKeepsRange(q.c, f.key.eventBase + f.metas[k].range.begin, r.eventFk,
                    f.key.eventBase + f.metas[k].range.end - 1);
    if q.c.source.Some? {
      SourceClauseSound(q.c.source.value, r.file);
    }
  }

  /** An entry that qualifies and has a row satisfying every pushed expression is planned. */
  lemma {:induction false} WantedIsPlanned(h: Bloom.Hashing, q: Query, files: seq<SourceFile>,
                                           bound: seq<BoundPredicate>,
                                           i: nat, entry: nat, r: Row)
    requires WellFormedQuery(q) && i < |files| && BoundTo(q, files, bound)
    requires Indexed(h, q, files[i]) && WithinBoundaries(q, files[i]) && CandidatesBuilt(h, q, bound)
    requires EntryQualifies(q, files[i], entry)
    requires entry < |files[i].elements| && r in EntryRows(files[i], entry) && AllExpressions(q, r)
    ensures EntryPlanned(h, q.c, files[i], entry)
  {
    var f := files[i];
    RowOfEntry(f, entry, r);
    QualifyingIsCandidate(h, q, files, bound, i, entry);
    var k := OwnerTrue(h, f.metas, f.meta, ValueEntries(f), DoubleBacked(q.c.valueTy), entry);
    if DoubleBacked(q.c.valueTy) {
      ValueSeen(f.metas[k], ValueEntries(f), entry, r.value);
      if q.c.value.Some? {
        FiniteValue(q, f, entry, r);
      }
      ValueKeepsBasket(h, q, f, k, r.value);
    }
    WantedRowSelected(q, f, k, entry, r);
    assert Survives(h, q.c, f, k, entry);
  }

  lemma {:induction false} FiniteValue(q: Query, f: SourceFile, entry: nat, r: Row)
    requires WellFormedQuery(q) && WithinBoundaries(q, f) && entry < |f.elements| && r in EntryRows(f, entry)
    requires q.c.value.Some? && DoubleBacked(q.c.valueTy) && Holds(q.c.value.value.expr, r.value)
    ensures !IsInfinite(r.value)
  {
    var k :| 0 <= k < |EntryRows(f, entry)| && EntryRows(f, entry)[k] == r;
    assert f.elements[entry].value[k].value == r.value;
  }

  // ----- The plan -----

  predicate RangeImpossible(r: Range) {
    r.known && r.impossible
  }

  /** What planning hands to the executor. An impossible entry or event range plans nothing. */
  ghost predicate Plans(h: Bloom.Hashing, c: ScanConfig, rows: seq<CatalogRow>, tasks: seq<Task>, clip: ClipRanges,
                        runs: seq<seq<Task>>) {
    var local, event := FilterRange(c.entry), FilterRange(c.event);
    if RangeImpossible(local) || RangeImpossible(event) then tasks == []
    else clip.local == local && clip.hasEvent == event.known &&
         (event.known ==> clip.eventLower == event.lower && clip.eventUpper == event.upper) &&
         Coalesces(tasks, runs, AllPieces(h, c, rows), c.coalesceGap) && Apart(tasks, c.coalesceGap)
  }

  method PlanScan(h: Bloom.Hashing, c: ScanConfig, rows: seq<CatalogRow>)
    returns (p: Plan, clip: ClipRanges, ghost runs: seq<seq<Task>>)
    requires forall k :: 0 <= k < |rows| ==> rows[k].task.basketCount == 1
    ensures p.Planned? && !MayStopEarly(c) ==> Plans(h, c, rows, p.tasks, clip, runs)
    ensures RangeImpossible(FilterRange(c.entry)) || RangeImpossible(FilterRange(c.event)) ==>
      p == Planned([], 0, 0, 0, 0)
    ensures p.Planned? ==> AllInRange(p.tasks)
  {
    clip := ClipRanges(false, 0, U64_MAX, FilterRange(c.entry));
    runs := [];
    if RangeImpossible(clip.local) {
      return Planned([], 0, 0, 0, 0), clip, runs;
    }
    var event := FilterRange(c.event);
    if event.known {
      if event.impossible {
        return Planned([], 0, 0, 0, 0), clip, runs;
      }
      clip := clip.(hasEvent := true, eventLower := event.lower, eventUpper := event.upper);
    }
    p, runs := PlanTasks(h, c, rows);
    assert rows[..|rows|] == rows;
  }

  /** Tasks and pieces stay within the entries of one file. */
  predicate Within(files: seq<SourceFile>, i: int, t: Task) {
    0 <= i < |files| && t.key == files[i].key && t.begin < t.end <= |files[i].elements| && t.basketCount == 1
  }

  predicate FromFile(files: seq<SourceFile>, t: Task) {
    exists i :: 0 <= i < |files| && Within(files, i, t)
  }

  lemma {:induction false} CatalogFromFiles(h: Bloom.Hashing, q: Query, files: seq<SourceFile>, n: nat, row: CatalogRow)
    requires n <= |files| && (forall i :: 0 <= i < |files| ==> Indexed(h, q, files[i])) && row in Catalog(files[..n])
    ensures FromFile(files, row.task)
  {
    assert files[..n][..n - 1] == files[..n - 1];
    if row in Catalog(files[..n - 1]) {
      CatalogFromFiles(h, q, files, n - 1, row);
    } else {
      var f := files[n - 1];
      var k := RowIndex(f, |f.metas|, row);
      assert IndexBuilder.TrueMeta(h, f.metas[k], ValueEntries(f), DoubleBacked(q.c.valueTy));
      assert Within(files, n - 1, row.task);
    }
  }

  lemma {:induction false} RowIndex(f: SourceFile, n: nat, row: CatalogRow) returns (k: nat)
    requires n <= |f.metas| && row in FileRows(f, n)
    ensures k < n && row == RowOf(f, k)
  {
    if row == RowOf(f, n - 1) {
      k := n - 1;
    } else {
      k := RowIndex(f, n - 1, row);
    }
  }

  lemma {:induction false} SelectedSubset(c: ScanConfig, rows: seq<CatalogRow>, row: CatalogRow)
    requires row in Selected(c, rows)
    ensures row in rows
  {
    if rows != [] && row in Selected(c, rows[..|rows| - 1]) {
      SelectedSubset(c, rows[..|rows| - 1], row);
    }
  }

  lemma {:induction false} ClippedWithin(files: seq<SourceFile>, i: nat, t: Task, ivs: seq<EntrySelection.Interval>,
                                         x: Task)
    requires Within(files, i, t) && x in Clipped(t, ivs)
    ensures Within(files, i, x)
  {
    if x in Clipped(t, ivs[1..]) {
      ClippedWithin(files, i, t, ivs[1..], x);
    }
  }

  lemma {:induction false} PiecesFromFiles(h: Bloom.Hashing, c: ScanConfig, files: seq<SourceFile>,
                                           rows: seq<CatalogRow>, x: Task)
    requires (forall k :: 0 <= k < |rows| ==> FromFile(files, rows[k].task)) && x in AllPieces(h, c, rows)
    ensures FromFile(files, x)
  {
    var n := |rows| - 1;
    if x in AllPieces(h, c, rows[..n]) {
      PiecesFromFiles(h, c, files, rows[..n], x);
    } else {
      assert FromFile(files, rows[n].task);
      var i :| 0 <= i < |files| && Within(files, i, rows[n].task);
      if c.intervalsActive {
        ClippedWithin(files, i, rows[n].task, c.candidates[rows[n].task.key.fileId], x);
      }
    }
  }

  /** Every piece belongs to one file of the data set. */
  lemma {:induction false} PiecesSound(h: Bloom.Hashing, q: Query, files: seq<SourceFile>, rows: seq<CatalogRow>)
    requires Dataset(h, q, files) && QueryResult(q.c, files, rows)
    ensures var pieces := AllPieces(h, q.c, rows);
      (forall k :: 0 <= k < |pieces| ==> FromFile(files, pieces[k])) && UriDetermines(pieces) && AllValid(pieces)
  {
    forall k | 0 <= k < |rows| ensures FromFile(files, rows[k].task) {
      assert rows[k] in multiset(rows);
      SelectedSubset(q.c, Catalog(files), rows[k]);
      assert files[..|files|] == files;
      CatalogFromFiles(h, q, files, |files|, rows[k]);
    }
    var pieces := AllPieces(h, q.c, rows);
    forall k | 0 <= k < |pieces| ensures FromFile(files, pieces[k]) {
      PiecesFromFiles(h, q.c, files, rows, pieces[k]);
    }
    forall j, k | 0 <= j < |pieces| && 0 <= k < |pieces| && pieces[j].key.uri == pieces[k].key.uri
      ensures pieces[j].key.fileId == pieces[k].key.fileId && pieces[j].key.eventBase == pieces[k].key.eventBase
    {
      SameUriSameFile(h, q, files, pieces[j], pieces[k]);
    }
  }

  lemma {:induction false} SameUriSameFile(h: Bloom.Hashing, q: Query, files: seq<SourceFile>, a: Task, b: Task)
    requires Dataset(h, q, files) && FromFile(files, a) && FromFile(files, b) && a.key.uri == b.key.uri
    ensures a.key == b.key
  {
    var i :| 0 <= i < |files| && Within(files, i, a);
    var j :| 0 <= j < |files| && Within(files, j, b);
    assert i == j;
  }

  /** Every planned task belongs to one file and stays within its entries. */
  predicate TaskWithin(files: seq<SourceFile>, i: int, t: Task) {
    0 <= i < |files| && t.key == files[i].key && t.begin < t.end <= |files[i].elements|
  }

  lemma {:induction false} TasksSound(h: Bloom.Hashing, q: Query, files: seq<SourceFile>, rows: seq<CatalogRow>,
                                      tasks: seq<Task>, clip: ClipRanges, runs: seq<seq<Task>>, k: nat) returns (i: nat)
    requires Dataset(h, q, files) && QueryResult(q.c, files, rows)
    requires Plans(h, q.c, rows, tasks, clip, runs) && k < |tasks|
    ensures TaskWithin(files, i, tasks[k])
  {
    var pieces := AllPieces(h, q.c, rows);
    PiecesSound(h, q, files, rows);
    CoalescingBounds(tasks, runs, pieces, q.c.coalesceGap, k);
    var first, last :| 0 <= first < |pieces| && 0 <= last < |pieces| && Bounds(tasks[k], pieces[first], pieces[last]);
    assert FromFile(files, pieces[last]);
    i :| 0 <= i < |files| && Within(files, i, pieces[last]);
  }

  /** A plan with its groups satisfies what the executor relies on. */
  lemma {:induction false} PlanIsValidScan(h: Bloom.Hashing, q: Query, files: seq<SourceFile>, rows: seq<CatalogRow>,
                                           runs: seq<seq<Task>>, s: Scan)
    requires Dataset(h, q, files) && QueryResult(q.c, files, rows)
    requires Plans(h, q.c, rows, s.tasks, s.clip, runs) && PartitionsTasks(s.groups, s.tasks, |s.tasks|)
    ensures ValidScan(s)
  {
    forall k | 0 <= k < |s.tasks|
      ensures s.tasks[k].begin < s.tasks[k].end && s.tasks[k].key.eventBase + s.tasks[k].end <= U64_MAX
    {
      var i := TasksSound(h, q, files, rows, s.tasks, s.clip, runs, k);
      assert Indexed(h, q, files[i]);
    }
  }

  // ----- The execution -----

  /** Filters evaluated once per entry, and filters evaluated per value. */
  predicate EntryFilters(q: Query, f: SourceFile, entry: nat) {
    && (q.partition.event ==> FilterPasses(q.c.event, OfNat(f.key.eventBase + entry)))
    && (q.partition.entry ==> FilterPasses(q.c.entry, OfNat(entry)))
    && (q.partition.source && q.c.source.Some? ==> SourceHolds(q.c.source.value, f.key.fileId))
  }

  predicate ElementFilters(q: Query, r: Row) {
    && FilterPasses(q.c.value, r.value)
    && (!q.partition.event ==> FilterPasses(q.c.event, OfNat(r.eventFk)))
    && (!q.partition.entry ==> FilterPasses(q.c.entry, OfNat(r.entry)))
    && (!q.partition.source && q.c.source.Some? ==> SourceHolds(q.c.source.value, r.file))
    && q.other(r)
  }

  /** All filters as the scan evaluates them; optional ones always pass. */
  predicate RowFilters(q: Query, r: Row) {
    && FilterPasses(q.c.value, r.value)
    && FilterPasses(q.c.event, OfNat(r.eventFk))
    && FilterPasses(q.c.entry, OfNat(r.entry))
    && (q.c.source.Some? ==> SourceHolds(q.c.source.value, r.file))
    && q.other(r)
  }

  ghost predicate Delivers(q: Query, f: SourceFile, s: Scan, t: Task, entry: int)
    requires WellFormedQuery(q) && |f.paths| == |q.preds|
  {
    0 <= entry < |f.elements| ==>
      s.rows(t, entry) == EntryRows(f, entry) &&
      (s.admits(t, entry) <==> EntryFilters(q, f, entry) && PathsMatch(q, f, entry))
  }

  /** The reader delivers the rows of the entry it is asked for, and the entry test is exact. */
  ghost predicate Faithful(q: Query, files: seq<SourceFile>, s: Scan)
    requires WellFormedQuery(q) && forall i :: 0 <= i < |files| ==> |files[i].paths| == |q.preds|
  {
    && (forall k, i, entry :: 0 <= k < |s.tasks| && 0 <= i < |files| && s.tasks[k].key == files[i].key ==>
          Delivers(q, files[i], s, s.tasks[k], entry))
    && forall r :: s.passes(r) <==> ElementFilters(q, r)
  }

  lemma {:induction false} PassingCount(s: Scan, rows: seq<Row>, r: Row)
    ensures Passing(s, rows, Emitted(r)) == if s.passes(r) then multiset(rows)[r] else 0
  {
    if rows != [] {
      assert rows == [rows[0]] + rows[1..];
      PassingCount(s, rows[1..], r);
    }
  }

  /** How often a row is emitted each time its entry is read. */
  ghost function Worth(q: Query, f: SourceFile, r: Row): nat
    requires WellFormedQuery(q) && |f.paths| == |q.preds|
  {
    if 0 <= r.entry < |f.elements| && RowFilters(q, r) && PathsMatch(q, f, r.entry)
    then multiset(EntryRows(f, r.entry))[r] else 0
  }

  lemma {:induction false} EntryWorth(q: Query, files: seq<SourceFile>, s: Scan, k: nat, i: nat, entry: nat, r: Row)
    requires WellFormedQuery(q) && forall i :: 0 <= i < |files| ==> |files[i].paths| == |q.preds|
    requires Faithful(q, files, s) && k < |s.tasks| && i < |files| && s.tasks[k].key == files[i].key
    requires entry < |files[i].elements|
    ensures EntryDue(s, k, entry, Emitted(r)) ==
      if r.file == files[i].key.fileId && r.entry == entry then Worth(q, files[i], r) else 0
  {
    var f := files[i];
    assert Delivers(q, f, s, s.tasks[k], entry);
    PassingCount(s, EntryRows(f, entry), r);
    if r !in EntryRows(f, entry) {
      assert multiset(EntryRows(f, entry))[r] == 0;
    } else {
      RowOfEntry(f, entry, r);
    }
  }

  predicate Wants(c: ClipRanges, key: Key, entry: int) {
    (c.hasEvent ==> c.eventLower <= key.eventBase + entry <= c.eventUpper) &&
    (c.local.known ==> c.local.lower <= entry <= c.local.upper)
  }

  lemma {:induction false} RangeWorth(q: Query, files: seq<SourceFile>, s: Scan, k: nat, i: nat, begin: nat, end: nat,
                                      r: Row)
    requires WellFormedQuery(q) && forall i :: 0 <= i < |files| ==> |files[i].paths| == |q.preds|
    requires Faithful(q, files, s) && k < |s.tasks| && i < |files| && s.tasks[k].key == files[i].key
    requires end <= |files[i].elements|
    ensures RangeDue(s, k, begin, end, Emitted(r)) ==
      (if r.file == files[i].key.fileId && begin <= r.entry < end then Worth(q, files[i], r) else 0)
    decreases end - begin
  {
    if begin < end {
      EntryWorth(q, files, s, k, i, begin, r);
      RangeWorth(q, files, s, k, i, begin + 1, end, r);
    }
  }

  /** A task owes a row when it reads the entry of the row and the clips keep it. */
  lemma {:induction false} TaskWorth(q: Query, files: seq<SourceFile>, s: Scan, k: nat, i: nat, r: Row)
    requires WellFormedQuery(q) && forall i :: 0 <= i < |files| ==> |files[i].paths| == |q.preds|
    requires Faithful(q, files, s) && k < |s.tasks| && TaskWithin(files, i, s.tasks[k])
    requires files[i].key.eventBase + |files[i].elements| <= U64_MAX
    ensures TaskDue(s, k, Emitted(r)) ==
      if r.file == files[i].key.fileId && EntryWanted(s.clip, s.tasks[k], r.entry) then Worth(q, files[i], r) else 0
  {
    ClipExact(s.clip, s.tasks[k]);
    var c := ClipAt(s, k);
    if c.kept {
      RangeWorth(q, files, s, k, i, c.begin, c.end, r);
    }
  }

  ghost predicate InSomeFile(files: seq<SourceFile>, t: Task) {
    exists i :: TaskWithin(files, i, t)
  }

  ghost predicate TasksWithin(files: seq<SourceFile>, ts: seq<Task>) {
    forall k :: 0 <= k < |ts| ==> InSomeFile(files, ts[k])
  }

  /** What one read of the row's entry owes, clips included. */
  ghost function Owed(q: Query, clip: ClipRanges, f: SourceFile, r: Row): nat
    requires WellFormedQuery(q) && |f.paths| == |q.preds|
  {
    if Wants(clip, f.key, r.entry) then Worth(q, f, r) else 0
  }

  lemma {:induction false} TaskOwes(h: Bloom.Hashing, q: Query, files: seq<SourceFile>, s: Scan, k: nat, i: nat, r: Row)
    requires WellFormedQuery(q) && Dataset(h, q, files) && Faithful(q, files, s)
    requires k < |s.tasks| && TasksWithin(files, s.tasks) && i < |files| && r.file == files[i].key.fileId
    ensures TaskDue(s, k, Emitted(r)) ==
      if s.tasks[k].key == files[i].key && s.tasks[k].begin <= r.entry < s.tasks[k].end
      then Owed(q, s.clip, files[i], r) else 0
  {
    assert InSomeFile(files, s.tasks[k]);
    var j :| TaskWithin(files, j, s.tasks[k]);
    assert Indexed(h, q, files[j]);
    TaskWorth(q, files, s, k, j, r);
    assert j != i ==> files[j].key.fileId != files[i].key.fileId;
  }

  lemma {:induction false} TasksDueLast(s: Scan, n: nat, i: Item)
    requires n > 0
    ensures TasksDue(s, 0, n, i) == TasksDue(s, 0, n - 1, i) + TaskDue(s, n - 1, i)
  {
    TasksDueSplit(s, 0, n - 1, n, i);
    assert TasksDue(s, n, n, i) == 0;
    assert TasksDue(s, n - 1, n, i) == TaskDue(s, n - 1, i) + TasksDue(s, n, n, i);
  }

  /** Task k owes an item `worth` times if it reads the entry, otherwise never. */
  ghost predicate OwesByReading(s: Scan, k: int, key: Key, entry: int, i: Item, worth: nat) {
    0 <= k < |s.tasks| &&
    TaskDue(s, k, i) == if s.tasks[k].key == key && s.tasks[k].begin <= entry < s.tasks[k].end then worth else 0
  }

  lemma {:induction false} OneMore(before: nat, more: nat, worth: nat)
    requires more <= 1
    ensures (before + more) * worth == before * worth + if more == 1 then worth else 0
  {
  }

  /** When every task owes an item only by reading an entry, all tasks together owe it once for each reader. */
  lemma {:induction false} DueByReaders(s: Scan, n: nat, key: Key, entry: int, i: Item, worth: nat)
    requires n <= |s.tasks|
    requires forall k :: 0 <= k < n ==> OwesByReading(s, k, key, entry, i, worth)
    ensures TasksDue(s, 0, n, i) == Readers(s.tasks[..n], key, entry) * worth
  {
    if n > 0 {
      DueByReaders(s, n - 1, key, entry, i, worth);
      TasksDueLast(s, n, i);
      var t := s.tasks[n - 1];
      assert s.tasks[..n][..n - 1] == s.tasks[..n - 1] && s.tasks[..n][n - 1] == t;
      assert OwesByReading(s, n - 1, key, entry, i, worth);
      OneMore(Readers(s.tasks[..n - 1], key, entry), One(t.key == key && t.begin <= entry < t.end), worth);
    }
  }

  /** All tasks together owe a row once for each of them that reads its entry. */
  lemma {:induction false} TasksWorth(h: Bloom.Hashing, q: Query, files: seq<SourceFile>, s: Scan, i: nat, r: Row)
    requires WellFormedQuery(q) && Dataset(h, q, files) && Faithful(q, files, s)
    requires TasksWithin(files, s.tasks) && i < |files| && r.file == files[i].key.fileId
    ensures TasksDue(s, 0, |s.tasks|, Emitted(r)) ==
      Readers(s.tasks, files[i].key, r.entry) * Owed(q, s.clip, files[i], r)
  {
    forall k | 0 <= k < |s.tasks|
      ensures OwesByReading(s, k, files[i].key, r.entry, Emitted(r), Owed(q, s.clip, files[i], r))
    {
      TaskOwes(h, q, files, s, k, i, r);
    }
    DueByReaders(s, |s.tasks|, files[i].key, r.entry, Emitted(r), Owed(q, s.clip, files[i], r));
    assert s.tasks[..|s.tasks|] == s.tasks;
  }

  lemma {:induction false} TasksForeign(h: Bloom.Hashing, q: Query, files: seq<SourceFile>, s: Scan, n: nat, r: Row)
    requires WellFormedQuery(q) && Dataset(h, q, files) && Faithful(q, files, s)
    requires n <= |s.tasks| && TasksWithin(files, s.tasks)
    requires forall i :: 0 <= i < |files| ==> files[i].key.fileId != r.file
    ensures TasksDue(s, 0, n, Emitted(r)) == 0
  {
    if n > 0 {
      TasksForeign(h, q, files, s, n - 1, r);
      TasksDueLast(s, n, Emitted(r));
      assert InSomeFile(files, s.tasks[n - 1]);
      var j :| TaskWithin(files, j, s.tasks[n - 1]);
      assert Indexed(h, q, files[j]);
      TaskWorth(q, files, s, n - 1, j, r);
    }
  }

  // ----- The main theorem -----

  /** Everything that relates a scan to a query over a data set. */
  ghost predicate Executes(h: Bloom.Hashing, q: Query, files: seq<SourceFile>, bound: seq<BoundPredicate>,
                           rows: seq<CatalogRow>, runs: seq<seq<Task>>, s: Scan) {
    && WellFormedQuery(q) && Dataset(h, q, files)
    && (forall i :: 0 <= i < |files| ==> WithinBoundaries(q, files[i]))
    && BoundTo(q, files, bound) && CandidatesBuilt(h, q, bound)
    && QueryResult(q.c, files, rows) && Plans(h, q.c, rows, s.tasks, s.clip, runs)
    && Faithful(q, files, s)
  }

  /** Planned tasks read an entry of the data set once when its basket survives, otherwise never. */
  lemma {:induction false} PlannedReaders(h: Bloom.Hashing, q: Query, files: seq<SourceFile>, rows: seq<CatalogRow>,
                                          runs: seq<seq<Task>>, tasks: seq<Task>, clip: ClipRanges, i: nat, entry: int)
    requires WellFormedQuery(q) && Dataset(h, q, files) && QueryResult(q.c, files, rows)
    requires Plans(h, q.c, rows, tasks, clip, runs) && i < |files|
    requires !RangeImpossible(FilterRange(q.c.entry)) && !RangeImpossible(FilterRange(q.c.event))
    ensures Readers(tasks, files[i].key, entry) == One(EntryPlanned(h, q.c, files[i], entry))
  {
    PiecesSound(h, q, files, rows);
    CoalescingPreserves(tasks, runs, AllPieces(h, q.c, rows), q.c.coalesceGap, files[i].key, entry);
    assert Indexed(h, q, files[i]);
    EntryReaders(h, q.c, files, rows, i, entry);
  }

  /** A row that satisfies the pushed expressions survives the clips of its task. */
  lemma {:induction false} WantedSurvivesClips(h: Bloom.Hashing, q: Query, rows: seq<CatalogRow>,
                                               runs: seq<seq<Task>>, s: Scan,
                                               f: SourceFile, r: Row)
    requires Plans(h, q.c, rows, s.tasks, s.clip, runs) && f.key.eventBase + |f.elements| <= U64_MAX
    requires 0 <= r.entry < |f.elements| && r.eventFk == f.key.eventBase + r.entry && AllExpressions(q, r)
    ensures !RangeImpossible(FilterRange(q.c.entry)) && !RangeImpossible(FilterRange(q.c.event))
    ensures Wants(s.clip, f.key, r.entry)
  {
    FilterRangeSound(q.c.entry, r.entry);
    FilterRangeSound(q.c.event, r.eventFk);
  }

  /** What the full scan has of a row: its occurrences in its entry, if the entry and the row qualify. */
  lemma {:induction false} FullScanShare(h: Bloom.Hashing, q: Query, files: seq<SourceFile>, i: nat, r: Row)
    requires WellFormedQuery(q) && Dataset(h, q, files) && i < |files| && r.file == files[i].key.fileId
    ensures multiset(FullScan(q, files))[r] ==
      if 0 <= r.entry < |files[i].elements| && EntryQualifies(q, files[i], r.entry) && AllExpressions(q, r)
      then multiset(EntryRows(files[i], r.entry))[r] else 0
  {
    FullScanCount(q, files, i, r);
    FileScanCount(q, files[i], r);
  }

  /** For a row of the data set that satisfies the pushed expressions: its entry is planned and kept by
      the clips, exactly when the entry qualifies as far as its events and the selection go. */
  lemma {:induction false} WantedReaders(h: Bloom.Hashing, q: Query, files: seq<SourceFile>, bound: seq<BoundPredicate>,
                                         rows: seq<CatalogRow>, runs: seq<seq<Task>>, s: Scan, i: nat, r: Row)
    requires Executes(h, q, files, bound, rows, runs, s)
    requires i < |files| && 0 <= r.entry < |files[i].elements| && r in EntryRows(files[i], r.entry)
    requires AllExpressions(q, r)
    ensures Wants(s.clip, files[i].key, r.entry)
    ensures PathsMatch(q, files[i], r.entry) ==>
      Readers(s.tasks, files[i].key, r.entry) == One(EntryQualifies(q, files[i], r.entry))
  {
    var f := files[i];
    assert Indexed(h, q, f);
    RowOfEntry(f, r.entry, r);
    WantedSurvivesClips(h, q, rows, runs, s, f, r);
    PlannedReaders(h, q, files, rows, runs, s.tasks, s.clip, i, r.entry);
    if EntryQualifies(q, f, r.entry) {
      WantedIsPlanned(h, q, files, bound, i, r.entry, r);
    } else if EntryPlanned(h, q.c, f, r.entry) {
      assert q.c.intervalsActive ==> InCandidates(q.c.candidates, f.key.fileId, r.entry);
    }
  }

  lemma {:induction false} AbsentRow(q: Query, clip: ClipRanges, f: SourceFile, r: Row)
    requires WellFormedQuery(q) && |f.paths| == |q.preds|
    requires 0 <= r.entry < |f.elements| ==> r !in EntryRows(f, r.entry)
    ensures Owed(q, clip, f, r) == 0
  {
  }

  lemma {:induction false} OwedCount(q: Query, clip: ClipRanges, f: SourceFile, r: Row)
    requires WellFormedQuery(q) && |f.paths| == |q.preds|
    requires 0 <= r.entry < |f.elements| && Wants(clip, f.key, r.entry) && AllExpressions(q, r)
    ensures Owed(q, clip, f, r) == if PathsMatch(q, f, r.entry) then multiset(EntryRows(f, r.entry))[r] else 0
  {
  }

  lemma {:induction false} ShareProduct(readers: nat, owed: nat, count: nat, paths: bool, qualifies: bool)
    requires owed == (if paths then count else 0)
    requires (paths ==> readers == One(qualifies)) && (qualifies ==> paths)
    ensures readers * owed == if qualifies then count else 0
  {
  }

  /** The conclusion of `WantedReaders`, for rows that occur. */
  predicate ReadIfWanted(q: Query, s: Scan, f: SourceFile, r: Row)
    requires WellFormedQuery(q) && |f.paths| == |q.preds|
  {
    0 <= r.entry < |f.elements| && r in EntryRows(f, r.entry) ==>
      Wants(s.clip, f.key, r.entry) &&
      (PathsMatch(q, f, r.entry) ==> Readers(s.tasks, f.key, r.entry) == One(EntryQualifies(q, f, r.entry)))
  }

  lemma {:induction false} OwedShare(q: Query, s: Scan, f: SourceFile, r: Row)
    requires WellFormedQuery(q) && |f.paths| == |q.preds| && AllExpressions(q, r) && ReadIfWanted(q, s, f, r)
    ensures Readers(s.tasks, f.key, r.entry) * Owed(q, s.clip, f, r) ==
      if 0 <= r.entry < |f.elements| && EntryQualifies(q, f, r.entry) then multiset(EntryRows(f, r.entry))[r] else 0
  {
    if 0 <= r.entry < |f.elements| && r in EntryRows(f, r.entry) {
      OwedCount(q, s.clip, f, r);
      ShareProduct(Readers(s.tasks, f.key, r.entry), Owed(q, s.clip, f, r), multiset(EntryRows(f, r.entry))[r],
                   PathsMatch(q, f, r.entry), EntryQualifies(q, f, r.entry));
    } else {
      AbsentRow(q, s.clip, f, r);
    }
  }

  /** What all tasks owe of a row that satisfies the pushed expressions is what the full scan has of it. */
  lemma {:induction false} WantedDue(h: Bloom.Hashing, q: Query, files: seq<SourceFile>, s: Scan, i: nat, r: Row)
    requires WellFormedQuery(q) && Dataset(h, q, files) && Faithful(q, files, s) && TasksWithin(files, s.tasks)
    requires i < |files| && r.file == files[i].key.fileId && AllExpressions(q, r)
    requires ReadIfWanted(q, s, files[i], r)
    ensures TasksDue(s, 0, |s.tasks|, Emitted(r)) == multiset(FullScan(q, files))[r]
  {
    FullScanShare(h, q, files, i, r);
    TasksWorth(h, q, files, s, i, r);
    OwedShare(q, s, files[i], r);
  }

  lemma {:induction false} UnwantedDue(h: Bloom.Hashing, q: Query, files: seq<SourceFile>, s: Scan, i: nat, r: Row)
    requires WellFormedQuery(q) && Dataset(h, q, files) && Faithful(q, files, s) && TasksWithin(files, s.tasks)
    requires i < |files| && r.file == files[i].key.fileId && !RowFilters(q, r)
    ensures TasksDue(s, 0, |s.tasks|, Emitted(r)) == 0
  {
    TasksWorth(h, q, files, s, i, r);
    NothingOwed(q, s.clip, files[i], r);
    NoProduct(Readers(s.tasks, files[i].key, r.entry), Owed(q, s.clip, files[i], r));
  }

  lemma {:induction false} NothingOwed(q: Query, clip: ClipRanges, f: SourceFile, r: Row)
    requires WellFormedQuery(q) && |f.paths| == |q.preds| && !RowFilters(q, r)
    ensures Owed(q, clip, f, r) == 0
  {
  }

  lemma {:induction false} NoProduct(readers: nat, owed: nat)
    requires owed == 0
    ensures readers * owed == 0
  {
  }

  lemma {:induction false} PlannedTasksWithin(h: Bloom.Hashing, q: Query, files: seq<SourceFile>, rows: seq<CatalogRow>,
                                              runs: seq<seq<Task>>, tasks: seq<Task>, clip: ClipRanges)
    requires Dataset(h, q, files) && QueryResult(q.c, files, rows) && Plans(h, q.c, rows, tasks, clip, runs)
    ensures TasksWithin(files, tasks)
  {
    forall k | 0 <= k < |tasks| ensures InSomeFile(files, tasks[k]) {
      var i := TasksSound(h, q, files, rows, tasks, clip, runs, k);
      assert TaskWithin(files, i, tasks[k]);
    }
  }

  lemma {:induction false} RowDue(h: Bloom.Hashing, q: Query, files: seq<SourceFile>, bound: seq<BoundPredicate>,
                                  rows: seq<CatalogRow>, runs: seq<seq<Task>>, s: Scan, r: Row)
    requires Executes(h, q, files, bound, rows, runs, s)
    ensures AllExpressions(q, r) ==> TasksDue(s, 0, |s.tasks|, Emitted(r)) == multiset(FullScan(q, files))[r]
    ensures !RowFilters(q, r) ==> TasksDue(s, 0, |s.tasks|, Emitted(r)) == 0
  {
    PlannedTasksWithin(h, q, files, rows, runs, s.tasks, s.clip);
    if i :| 0 <= i < |files| && files[i].key.fileId == r.file {
      if AllExpressions(q, r) {
        if 0 <= r.entry < |files[i].elements| && r in EntryRows(files[i], r.entry) {
          WantedReaders(h, q, files, bound, rows, runs, s, i, r);
        }
        WantedDue(h, q, files, s, i, r);
      } else if !RowFilters(q, r) {
        UnwantedDue(h, q, files, s, i, r);
      }
      assert AllExpressions(q, r) ==> RowFilters(q, r);
    } else {
      TasksForeign(h, q, files, s, |s.tasks|, r);
      FullScanForeign(q, files, r);
    }
  }

  /** The indexed scan against the full scan, for any filters, predicates, selection and interleaving.
      A row that satisfies the pushed expressions is emitted as often as the full scan has it; a row that
      fails an exact filter is never emitted. Only a 64-bit scan that leaves rows behind adds repetitions. */
  lemma {:induction false} IndexedScanIsFullScan(
      h: Bloom.Hashing, q: Query, files: seq<SourceFile>, bound: seq<BoundPredicate>, rows: seq<CatalogRow>,
      runs: seq<seq<Task>>, s: Scan, states: seq<State>, steps: seq<Step>, workers: nat, r: Row)
    requires Executes(h, q, files, bound, rows, runs, s)
    requires Run(s, states, steps, workers) && Finished(s, states[|steps|])
    ensures var last := states[|steps|];
      && (AllExpressions(q, r) ==>
            last.done[Emitted(r)] == multiset(FullScan(q, files))[r] + last.carried[Emitted(r)])
      && (!RowFilters(q, r) ==> last.done[Emitted(r)] == last.carried[Emitted(r)])
      && (!s.typed || LeavesNothing(s) ==> last.carried == multiset{})
  {
    FinishedRun(s, states, steps, workers, Emitted(r));
    RowDue(h, q, files, bound, rows, runs, s, r);
    if !s.typed {
      DoubleCarriesNothing(s, states, steps, workers);
    } else if LeavesNothing(s) {
      TidyRun(s, states, steps, workers);
    }
  }

  predicate NoOptionalFilter(c: ScanConfig) {
    (c.value.Some? ==> !c.value.value.optional) && (c.event.Some? ==> !c.event.value.optional) &&
    (c.entry.Some? ==> !c.entry.value.optional)
  }

  /** Without optional filters, what is due of a row is what the full scan has of it. */
  lemma {:induction false} DueIsAnswer(h: Bloom.Hashing, q: Query, files: seq<SourceFile>, bound: seq<BoundPredicate>,
                                       rows: seq<CatalogRow>, runs: seq<seq<Task>>, s: Scan, r: Row)
    requires Executes(h, q, files, bound, rows, runs, s) && NoOptionalFilter(q.c)
    ensures TasksDue(s, 0, |s.tasks|, Emitted(r)) == multiset(FullScan(q, files))[r]
  {
    RowDue(h, q, files, bound, rows, runs, s, r);
    if !AllExpressions(q, r) {
      if i :| 0 <= i < |files| && files[i].key.fileId == r.file {
        FullScanShare(h, q, files, i, r);
      } else {
        FullScanForeign(q, files, r);
      }
    }
  }

  ghost predicate Emits(answer: multiset<Row>, st: State) {
    forall r: Row :: st.done[Emitted(r)] == answer[r]
  }

  /** Every finished run emits exactly these rows, whatever the workers and their schedule. */
  ghost predicate AlwaysEmits(answer: multiset<Row>, s: Scan) {
    forall states: seq<State>, steps: seq<Step>, workers: nat ::
      Run(s, states, steps, workers) && Finished(s, states[|steps|]) ==> Emits(answer, states[|steps|])
  }

  /** What is due of every row is what the answer has of it. */
  ghost predicate DueIs(answer: multiset<Row>, s: Scan) {
    forall r: Row :: TasksDue(s, 0, |s.tasks|, Emitted(r)) == answer[r]
  }

  lemma {:induction false} DueIsFullScan(h: Bloom.Hashing, q: Query, files: seq<SourceFile>, bound: seq<BoundPredicate>,
                                         rows: seq<CatalogRow>, runs: seq<seq<Task>>, s: Scan)
    requires Executes(h, q, files, bound, rows, runs, s) && NoOptionalFilter(q.c)
    ensures DueIs(multiset(FullScan(q, files)), s)
  {
    forall r: Row ensures TasksDue(s, 0, |s.tasks|, Emitted(r)) == multiset(FullScan(q, files))[r] {
      DueIsAnswer(h, q, files, bound, rows, runs, s, r);
    }
  }

  lemma {:induction false} DoubleEmits(answer: multiset<Row>, s: Scan, states: seq<State>, steps: seq<Step>,
                                       workers: nat)
    requires DueIs(answer, s) && !s.typed && Run(s, states, steps, workers) && Finished(s, states[|steps|])
    ensures Emits(answer, states[|steps|])
  {
    DoubleCarriesNothing(s, states, steps, workers);
    forall r: Row ensures states[|steps|].done[Emitted(r)] == answer[r] {
      FinishedRun(s, states, steps, workers, Emitted(r));
    }
  }

  /** The double transport always answers exactly, without optional filters: every finished run of any workers
      emits the rows of the full scan, as a multiset. */
  lemma {:induction false} ExactAnswer(h: Bloom.Hashing, q: Query, files: seq<SourceFile>, bound: seq<BoundPredicate>,
                                       rows: seq<CatalogRow>, runs: seq<seq<Task>>, s: Scan)
    requires Executes(h, q, files, bound, rows, runs, s) && NoOptionalFilter(q.c) && !s.typed
    ensures AlwaysEmits(multiset(FullScan(q, files)), s)
  {
    DueIsFullScan(h, q, files, bound, rows, runs, s);
    DoubleAlwaysEmits(multiset(FullScan(q, files)), s);
  }

  lemma {:induction false} DoubleAlwaysEmits(answer: multiset<Row>, s: Scan)
    requires DueIs(answer, s) && !s.typed
    ensures AlwaysEmits(answer, s)
  {
    forall states: seq<State>, steps: seq<Step>, workers: nat |
      Run(s, states, steps, workers) && Finished(s, states[|steps|])
      ensures Emits(answer, states[|steps|])
    {
      DoubleEmits(answer, s, states, steps, workers);
    }
  }

  /** The claims, skips and reads of a finished run are always exact; only rows can be repeated. */
  lemma {:induction false} EmitsIsExact(answer: multiset<Row>, s: Scan, states: seq<State>, steps: seq<Step>,
                                        workers: nat)
    requires DueIs(answer, s) && Run(s, states, steps, workers) && Finished(s, states[|steps|])
    ensures Emits(answer, states[|steps|]) <==> Exact(s, states[|steps|])
  {
    var last := states[|steps|];
    forall i: Item | Emits(answer, last) ensures last.done[i] == TasksDue(s, 0, |s.tasks|, i) {
      if i.Emitted? {
        assert last.done[Emitted(i.row)] == answer[i.row];
      } else {
        FinishedClaims(s, states, steps, workers, i);
        TasksDueCount(s, 0, |s.tasks|, i);
      }
    }
    forall r: Row | Exact(s, last) ensures last.done[Emitted(r)] == answer[r] {
      assert last.done[Emitted(r)] == TasksDue(s, 0, |s.tasks|, Emitted(r));
    }
  }

  lemma {:induction false} TypedAlwaysEmits(answer: multiset<Row>, s: Scan)
    requires DueIs(answer, s) && s.typed && Readable(s) && ValidScan(s)
    ensures AlwaysEmits(answer, s) <==> LeavesNothing(s)
  {
    TypedExactly(s);
    forall states: seq<State>, steps: seq<Step>, workers: nat |
      Run(s, states, steps, workers) && Finished(s, states[|steps|])
      ensures Emits(answer, states[|steps|]) <==> Exact(s, states[|steps|])
    {
      EmitsIsExact(answer, s, states, steps, workers);
    }
  }

  /** The 64-bit transport answers exactly, for all workers and schedules, if and only if no kept task but the
      last one leaves a passing row in the buffer. */
  lemma {:induction false} TypedAnswer(h: Bloom.Hashing, q: Query, files: seq<SourceFile>, bound: seq<BoundPredicate>,
                                       rows: seq<CatalogRow>, runs: seq<seq<Task>>, s: Scan)
    requires Executes(h, q, files, bound, rows, runs, s) && NoOptionalFilter(q.c)
    requires s.typed && Readable(s) && ValidScan(s)
    ensures AlwaysEmits(multiset(FullScan(q, files)), s) <==> LeavesNothing(s)
  {
    DueIsFullScan(h, q, files, bound, rows, runs, s);
    TypedAlwaysEmits(multiset(FullScan(q, files)), s);
  }

  // ----- The count without reading -----

  /** Nothing filters: no pushed filter, no path predicate, no selection, and nothing above the scan. */
  ghost predicate Unfiltered(q: Query) {
    !HasFilters(q.c) && q.preds == [] && !q.selectionActive && forall r: Row :: q.other(r)
  }

  /** The sum that answers an unfiltered count from the rows of the files table. */
  function CatalogCount(files: seq<SourceFile>): nat {
    if files == [] then 0 else CatalogCount(files[..|files| - 1]) + files[|files| - 1].meta.stats.valueCount
  }

  lemma {:induction false} KeepsAll(q: Query, rows: seq<Row>)
    requires Unfiltered(q)
    ensures FilterRows(q, rows) == rows
  {
    if rows != [] {
      KeepsAll(q, rows[..|rows| - 1]);
    }
  }

  lemma {:induction false} GatherValues(q: Query, f: SourceFile, n: nat)
    requires Unfiltered(q) && WellFormedQuery(q) && |f.paths| == |q.preds| && n <= |f.elements|
    ensures |Gather(EntryScan(q, f), n)| == |IndexBuilder.ValuesOf(ValueEntries(f)[..n])|
  {
    if n > 0 {
      GatherValues(q, f, n - 1);
      EntryScanned(q, f, n - 1);
      assert ValueEntries(f)[..n][..n - 1] == ValueEntries(f)[..n - 1];
      assert ValueEntries(f)[..n][n - 1] == EntryValues(f.elements[n - 1]);
    }
  }

  lemma {:induction false} EntryScanned(q: Query, f: SourceFile, entry: nat)
    requires Unfiltered(q) && WellFormedQuery(q) && |f.paths| == |q.preds| && entry < |f.elements|
    ensures EntryScan(q, f)(entry) == EntryRows(f, entry)
    ensures |EntryRows(f, entry)| == if f.elements[entry].None? then 0 else |EntryValues(f.elements[entry]).value|
  {
    KeepsAll(q, EntryRows(f, entry));
  }

  /** An unfiltered count, answered from the index alone, is the number of rows of the full scan. */
  lemma {:induction false} CountFromCatalog(h: Bloom.Hashing, q: Query, files: seq<SourceFile>)
    requires Unfiltered(q) && WellFormedQuery(q) && Dataset(h, q, files)
    ensures CatalogCount(files) == |FullScan(q, files)|
  {
    if files != [] {
      var n := |files| - 1;
      var f := files[n];
      CountFromCatalog(h, q, files[..n]);
      GatherValues(q, f, |f.elements|);
      assert ValueEntries(f)[..|f.elements|] == ValueEntries(f);
    }
  }
}
