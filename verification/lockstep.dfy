/** Several columns of one relation read page by page in lockstep: the row positions
    are only joined after every full index tuple has been compared. */
module Lockstep {
  import opened Numbers
  import opened Cursor
  import opened PathReader

  const VECTOR_SIZE := 2048

  /** All tuples have the index depth of the relation. */
  predicate DepthIs(items: seq<Item>, depth: nat) {
    forall k :: 0 <= k < |items| ==> |items[k].indices| == depth
  }

  /** The index tuples of a page, laid end to end. */
  function FlatIndices(items: seq<Item>): seq<int> {
    if items == [] then [] else FlatIndices(items[..|items| - 1]) + items[|items| - 1].indices
  }

  /** What the pages are compared by: the number of values and the flat index columns. */
  predicate SameShape(a: seq<Item>, b: seq<Item>) {
    |a| == |b| && FlatIndices(a) == FlatIndices(b)
  }

  predicate SameTuples(a: seq<Item>, b: seq<Item>) {
    |a| == |b| && forall k :: 0 <= k < |a| ==> a[k].indices == b[k].indices
  }

  lemma {:induction false} FlatLengths(a: seq<Item>, b: seq<Item>, depth: nat)
    requires DepthIs(a, depth) && DepthIs(b, depth) && |a| == |b|
    ensures |FlatIndices(a)| == |FlatIndices(b)|
  {
    if a != [] {
      FlatLengths(a[..|a| - 1], b[..|b| - 1], depth);
    }
  }

  lemma {:induction false} SplitEqual(a: seq<int>, x: seq<int>, b: seq<int>, y: seq<int>)
    requires |a| == |b| && a + x == b + y
    ensures a == b && x == y
  {
    assert a == (a + x)[..|a|] && x == (a + x)[|a|..];
    assert b == (b + y)[..|a|] && y == (b + y)[|a|..];
  }

  /** With one index depth the flat comparison is exact, tuple by tuple. */
  lemma {:induction false} ShapeIsTuples(a: seq<Item>, b: seq<Item>, depth: nat)
    requires DepthIs(a, depth) && DepthIs(b, depth)
    ensures SameShape(a, b) <==> SameTuples(a, b)
  {
    if |a| == |b| && a != [] {
      var n := |a| - 1;
      ShapeIsTuples(a[..n], b[..n], depth);
      FlatLengths(a[..n], b[..n], depth);
      if SameShape(a, b) {
        SplitEqual(FlatIndices(a[..n]), a[n].indices, FlatIndices(b[..n]), b[n].indices);
        TuplesStep(a, b, n);
      }
      if SameTuples(a, b) {
        assert SameTuples(a[..n], b[..n]);
      }
    }
  }

  lemma {:induction false} TuplesStep(a: seq<Item>, b: seq<Item>, n: nat)
    requires |a| == |b| == n + 1 && SameTuples(a[..n], b[..n]) && a[n].indices == b[n].indices
    ensures SameTuples(a, b)
  {
    forall k | 0 <= k < |a| ensures a[k].indices == b[k].indices {
      if k < n {
        assert a[..n][k].indices == b[..n][k].indices;
      }
    }
  }

  datatype PageOutcome = Data | NoData | Mismatch | PageFailed
  datatype EntryOutcome = Cached | EntryDone | WholeEntryPath | EntryFailed

  predicate SameUpTo(a: seq<Item>, b: seq<Item>, k: nat) {
    k <= |a| && k <= |b| && forall j :: 0 <= j < k ==> a[j].indices == b[j].indices
  }

  /** All columns agree on the tuples of their first k rows. */
  ghost predicate Aligned(columns: seq<seq<Item>>, k: nat) {
    forall c :: 0 <= c < |columns| ==> SameUpTo(columns[c], columns[0], k)
  }

  /** A page cursor stands at a row of its column. */
  predicate StandsAt(page: SerializedPage, column: seq<Item>, row: nat) {
    page.items == column && page.next == row <= |column|
  }

  /** The state of a column whose page has been read and compared with the first column's page. */
  predicate ColumnRead(column: seq<Item>, page: SerializedPage, items: seq<Item>, first: seq<Item>, rows: nat) {
    StandsAt(page, column, rows + |first|) && items == column[rows..rows + |first|] && SameTuples(items, first) &&
    (first == [] ==> |column| == rows)
  }

  /** Nothing of what the page cursor still has to decode is broken. */
  predicate Sound(page: SerializedPage) {
    page.badAt.Some? ==> !(page.next <= page.badAt.value < |page.items|)
  }

  function ColumnPage(column: seq<Item>, row: nat): seq<Item>
    requires row <= |column|
  {
    column[row..row + Min(|column| - row, VECTOR_SIZE)]
  }

  /** The columns have the same tuples throughout, and nothing that is left of them is broken. */
  ghost predicate CanJoin(columns: seq<seq<Item>>, pages: seq<SerializedPage>) {
    |pages| == |columns| > 0 &&
    forall c :: 0 <= c < |columns| ==> SameTuples(columns[c], columns[0]) && Sound(pages[c])
  }

  ghost predicate SoundAlike(a: seq<SerializedPage>, b: seq<SerializedPage>) {
    |a| == |b| && forall c :: 0 <= c < |a| ==> (Sound(a[c]) <==> Sound(b[c]))
  }

  lemma {:induction false} PageDiffers(columns: seq<seq<Item>>, pages: seq<SerializedPage>, row: nat, c: nat)
    requires c < |columns| && row <= |columns[c]| && row <= |columns[0]|
    requires !SameTuples(ColumnPage(columns[c], row), ColumnPage(columns[0], row))
    ensures !CanJoin(columns, pages)
  {
    if SameTuples(columns[c], columns[0]) {
      assert false;
    }
  }

  lemma {:induction false} NothingLeft(columns: seq<seq<Item>>, pages: seq<SerializedPage>, row: nat)
    requires |pages| == |columns| > 0 && Aligned(columns, row)
    requires forall c :: 0 <= c < |columns| ==> StandsAt(pages[c], columns[c], row) && |columns[c]| == row
    ensures CanJoin(columns, pages)
  {
    forall c | 0 <= c < |columns| ensures SameTuples(columns[c], columns[0]) && Sound(pages[c]) {
      assert SameUpTo(columns[c], columns[0], row);
    }
  }

  /** A page cursor hands out the next rows of its column, at least one as long as there are any. */
  lemma {:induction false} ReadsNext(page: SerializedPage, column: seq<Item>, row: nat)
    requires StandsAt(page, column, row)
    ensures var r := ReadSerialized(page, VECTOR_SIZE);
      && (r.Exhausted? ==> row == |column|)
      && (r.Decoded? ==> r.items != [] && row + |r.items| <= |column|)
      && (r.Decoded? ==> r.items == column[row..row + |r.items|] && StandsAt(r.rest, column, row + |r.items|))
      && (r.Broken? ==> !Sound(page))
      && (r.Decoded? ==> r.items == ColumnPage(column, row) && (Sound(r.rest) <==> Sound(page)))
  {
  }

  lemma {:induction false} SliceDepth(column: seq<Item>, row: nat, more: nat, depth: nat)
    requires DepthIs(column, depth) && row + more <= |column|
    ensures DepthIs(column[row..row + more], depth)
  {
  }

  lemma {:induction false} AlignMore(columns: seq<seq<Item>>, pages: seq<SerializedPage>, cached: seq<seq<Item>>,
                                     first: seq<Item>, rows: nat)
    requires Aligned(columns, rows) && |pages| == |cached| == |columns| && columns != [] && cached[0] == first
    requires forall c :: 0 <= c < |columns| ==> ColumnRead(columns[c], pages[c], cached[c], first, rows)
    ensures Aligned(columns, rows + |first|)
  {
    forall c | 0 <= c < |columns| ensures SameUpTo(columns[c], columns[0], rows + |first|) {
      assert SameUpTo(columns[c], columns[0], rows);
      assert ColumnRead(columns[0], pages[0], cached[0], first, rows);
      assert ColumnRead(columns[c], pages[c], cached[c], first, rows);
      forall j | 0 <= j < rows + |first| ensures columns[c][j].indices == columns[0][j].indices {
        if rows <= j {
          assert cached[c][j - rows] == columns[c][j] && first[j - rows] == columns[0][j];
        }
      }
    }
  }

  // ----- Joined rows -----

  datatype Row = Row(indices: seq<int>, values: seq<Value>)

  function JoinedRow(columns: seq<seq<Item>>, k: nat): Row
    requires columns != [] && forall c :: 0 <= c < |columns| ==> k < |columns[c]|
  {
    Row(columns[0][k].indices, seq(|columns|, c requires 0 <= c < |columns| => columns[c][k].value))
  }

  /** The zip of the columns' first k values. */
  function Joined(columns: seq<seq<Item>>, k: nat): seq<Row>
    requires columns != [] && forall c :: 0 <= c < |columns| ==> k <= |columns[c]|
  {
    if k == 0 then [] else Joined(columns, k - 1) + [JoinedRow(columns, k - 1)]
  }

  predicate SliceOf(items: seq<Item>, column: seq<Item>, from: nat, k: nat) {
    from + k <= |column| && k <= |items| && items[..k] == column[from..from + k]
  }

  lemma {:induction false} SliceShorter(items: seq<Item>, column: seq<Item>, from: nat, k: nat)
    requires SliceOf(items, column, from, k) && k > 0
    ensures SliceOf(items, column, from, k - 1) && items[k - 1] == column[from + k - 1]
  {
    assert items[..k][k - 1] == column[from..from + k][k - 1];
    assert items[..k - 1] == items[..k][..k - 1];
    assert column[from..from + (k - 1)] == column[from..from + k][..k - 1];
  }

  /** Joining page by page is joining the columns. */
  lemma {:induction false} JoinPages(columns: seq<seq<Item>>, cached: seq<seq<Item>>, from: nat, k: nat)
    requires columns != [] && |cached| == |columns|
    requires forall c :: 0 <= c < |columns| ==> from + k <= |columns[c]| && k <= |cached[c]|
    requires forall c :: 0 <= c < |columns| ==> SliceOf(cached[c], columns[c], from, k)
    ensures Joined(columns, from + k) == Joined(columns, from) + Joined(cached, k)
  {
    if k > 0 {
      forall c | 0 <= c < |columns|
        ensures SliceOf(cached[c], columns[c], from, k - 1) && cached[c][k - 1] == columns[c][from + k - 1]
      {
        SliceShorter(cached[c], columns[c], from, k);
      }
      JoinPages(columns, cached, from, k - 1);
      assert JoinedRow(cached, k - 1) == JoinedRow(columns, from + k - 1);
    }
  }

  /** Row k of a join carries the tuple that every column has at position k. */
  lemma {:induction false} JoinedTuples(columns: seq<seq<Item>>, n: nat, c: nat, k: nat)
    requires columns != [] && Aligned(columns, n) && c < |columns| && k < n
    ensures |Joined(columns, n)| == n && Joined(columns, n)[k].indices == columns[c][k].indices
    ensures |Joined(columns, n)[k].values| == |columns| && Joined(columns, n)[k].values[c] == columns[c][k].value
  {
    assert SameUpTo(columns[c], columns[0], n);
    if k < n - 1 {
      forall d | 0 <= d < |columns| ensures SameUpTo(columns[d], columns[0], n - 1) {
        assert SameUpTo(columns[d], columns[0], n);
      }
      JoinedTuples(columns, n - 1, c, k);
    } else {
      JoinedLength(columns, n - 1);
    }
  }

  lemma {:induction false} JoinedLength(columns: seq<seq<Item>>, k: nat)
    requires columns != [] && forall c :: 0 <= c < |columns| ==> k <= |columns[c]|
    ensures |Joined(columns, k)| == k
  {
    if k > 0 {
      JoinedLength(columns, k - 1);
    }
  }

  predicate AllStarted(started: seq<Option<SerializedPage>>) {
    forall c :: 0 <= c < |started| ==> started[c].Some?
  }

  function ColumnsOf(pages: seq<SerializedPage>): seq<seq<Item>> {
    seq(|pages|, c requires 0 <= c < |pages| => pages[c].items)
  }

  /** All columns begin with serialized pages, none of which breaks, and have the same tuples throughout. */
  ghost predicate Accepted(eligible: bool, started: seq<Option<SerializedPage>>) {
    eligible && AllStarted(started) && forall c :: 0 <= c < |started| ==>
      SameTuples(started[c].value.items, started[0].value.items) && Sound(started[c].value)
  }

  /** A freshly opened page cursor of a column of the relation. */
  predicate FreshPage(page: Option<SerializedPage>, depth: nat) {
    page.Some? ==> page.value.next == 0 && DepthIs(page.value.items, depth)
  }

  /** The page-reading part of a worker's scan state. */
  class ScanState {
    const depth: nat
    const serializedMode: bool
    /** The open page cursor of every projected column. */
    var pages: seq<SerializedPage>
    var cached: seq<seq<Item>>
    var active: bool
    var emitted: bool
    var mismatch: bool
    var hasMore: bool
    /** The complete sequences of the columns of the current entry, and the rows emitted from them. */
    ghost var columns: seq<seq<Item>>
    ghost var rows: nat

    constructor (depth: nat, serializedMode: bool)
      ensures Valid() && !active && this.depth == depth && this.serializedMode == serializedMode
    {
      this.depth, this.serializedMode := depth, serializedMode;
      pages, cached, active, emitted, mismatch, hasMore := [], [], false, false, false, false;
      columns, rows := [], 0;
    }

    /** While an entry is open, all columns stand at the same row and agree on every tuple before it,
        and at least one page has been emitted. */
    ghost predicate Valid()
      reads this
    {
      active ==> Open() && emitted && rows > 0
    }

    ghost predicate Open()
      reads this
    {
      && |pages| == |columns| > 1 && !mismatch && Aligned(columns, rows)
      && (forall c :: 0 <= c < |columns| ==> StandsAt(pages[c], columns[c], rows) && DepthIs(columns[c], depth))
    }

    /** What is left of the entry can be read and joined to its end. */
    ghost predicate Joinable()
      reads this
    {
      CanJoin(columns, pages)
    }

    /** Reads the next page of one column and compares its shape with the first column's page. */
    method ReadColumn(c: nat, first: seq<Item>) returns (ok: bool, broken: bool, items: seq<Item>)
      requires c < |pages| == |columns| && StandsAt(pages[c], columns[c], rows) && DepthIs(columns[c], depth)
      requires DepthIs(first, depth)
      modifies this`pages, this`hasMore
      ensures ok ==> |pages| == |old(pages)| && (forall k :: 0 <= k < |pages| && k != c ==> pages[k] == old(pages)[k])
      ensures ok && c > 0 ==> ColumnRead(columns[c], pages[c], items, first, rows)
      ensures ok && c == 0 ==> ColumnRead(columns[c], pages[c], items, items, rows)
      ensures ok ==> DepthIs(items, depth) && (Sound(pages[c]) <==> Sound(old(pages)[c]))
      ensures broken ==> !ok && !Sound(old(pages)[c])
      ensures !broken ==> items == ColumnPage(columns[c], rows)
      ensures !ok && !broken ==> c > 0 && !SameTuples(items, first)
    {
      ReadsNext(pages[c], columns[c], rows);
      var read := ReadSerialized(pages[c], VECTOR_SIZE);
      if read.Broken? {
        return false, true, [];
      }
      items := if read.Decoded? then read.items else [];
      SliceDepth(columns[c], rows, |items|, depth);
      ShapeIsTuples(items, first, depth);
      if read.Decoded? {
        pages := pages[c := read.rest];
        hasMore := hasMore || read.rest.next < |read.rest.items|;
      }
      if c > 0 && (read.Decoded? != (first != []) || !SameShape(items, first)) {
        return false, false, items;
      }
      return true, false, items;
    }

    /** Reads the next page of every column. */
    method ReadColumns() returns (ok: bool, broken: bool, first: seq<Item>)
      requires Open()
      modifies this`pages, this`cached, this`hasMore
      ensures ok ==> |pages| == |cached| == |columns| && cached[0] == first && SoundAlike(pages, old(pages))
      ensures ok ==> forall c :: 0 <= c < |columns| ==> ColumnRead(columns[c], pages[c], cached[c], first, rows)
      ensures !ok ==> !old(Joinable())
      ensures broken ==> !ok
    {
      var n := |pages|;
      ghost var before := pages;
      first, hasMore, cached := [], false, seq(n, _ => []);
      for c := 0 to n
        invariant |pages| == |cached| == n
        invariant DepthIs(first, depth) && (c > 0 ==> cached[0] == first == ColumnPage(columns[0], rows))
        invariant forall k :: 0 <= k < c ==> ColumnRead(columns[k], pages[k], cached[k], first, rows)
        invariant forall k :: c <= k < n ==> StandsAt(pages[k], columns[k], rows)
        invariant SoundAlike(pages, before)
      {
        var items;
        ok, broken, items := ReadColumn(c, first);
        if !ok {
          if !broken {
            PageDiffers(columns, before, rows, c);
          }
          return;
        }
        if c == 0 {
          first := items;
        }
        cached := cached[c := items];
      }
      ok, broken := true, false;
    }

    /** Reads the next page of every column. A page whose shape differs from the first column's is a
        mismatch if nothing of the entry has been emitted, otherwise an error. */
    method ReadCursorPage() returns (r: PageOutcome)
      requires Open()
      modifies this`pages, this`cached, this`emitted, this`mismatch, this`hasMore, this`rows
      ensures r.Data? ==> Open() && emitted && old(rows) < rows && |cached| == |columns|
      ensures r.Data? ==> forall c :: 0 <= c < |columns| ==>
        rows <= |columns[c]| && cached[c] == columns[c][old(rows)..rows]
      ensures r.NoData? ==> Open() && forall c :: 0 <= c < |columns| ==> |columns[c]| == rows
      ensures r.Mismatch? ==> mismatch && !old(emitted) && !serializedMode
      ensures !r.Data? ==> rows == old(rows) && emitted == old(emitted)
      ensures r.Data? ==> (Joinable() <==> old(Joinable()))
      ensures !r.Data? ==> (r.NoData? <==> old(Joinable()))
    {
      var ok, broken, first := ReadColumns();
      if !ok {
        if !broken && !emitted && !serializedMode {
          mismatch := true;
          hasMore := false;
          return Mismatch;
        }
        return PageFailed;
      }
      AlignMore(columns, pages, cached, first, rows);
      rows := rows + |first|;
      if first == [] {
        NothingLeft(columns, pages, rows);
        return NoData;
      }
      emitted := true;
      return Data;
    }

    method EndEntryCursors()
      modifies this`pages, this`active, this`emitted, this`mismatch, this`hasMore
      ensures !active && !emitted && !mismatch && pages == []
    {
      pages, active, emitted, mismatch, hasMore := [], false, false, false, false;
    }

    /** Opens the page cursors of an entry; every column must start with serialized pages. */
    method StartColumns(started: seq<Option<SerializedPage>>) returns (ok: bool)
      requires !active && !mismatch && forall c :: 0 <= c < |started| ==> FreshPage(started[c], depth)
      modifies this`pages, this`columns, this`rows
      ensures ok <==> AllStarted(started)
      ensures ok ==> |pages| == |started| && (forall c :: 0 <= c < |started| ==> pages[c] == started[c].value)
      ensures ok && |started| > 1 ==> Open() && rows == 0 && columns == ColumnsOf(pages)
      ensures !ok ==> pages == []
    {
      pages := [];
      for c := 0 to |started|
        invariant |pages| == c && forall k :: 0 <= k < c ==> started[k].Some? && pages[k] == started[k].value
      {
        if started[c].None? {
          pages := [];
          return false;
        }
        pages := pages + [started[c].value];
      }
      columns, rows := ColumnsOf(pages), 0;
      forall c | 0 <= c < |columns| ensures StandsAt(pages[c], columns[c], 0) && DepthIs(columns[c], depth) {
        assert FreshPage(started[c], depth);
      }
      return true;
    }

    /** One call of the reading loop. `started` is how each column's reader began the entry. */
    method ReadAndCacheEntry(eligible: bool, started: seq<Option<SerializedPage>>) returns (r: EntryOutcome)
      requires Valid() && !mismatch && |started| > 1 && forall c :: 0 <= c < |started| ==> FreshPage(started[c], depth)
      modifies this
      ensures !r.EntryFailed? ==> Valid() && !mismatch && (active <==> r.Cached?)
      ensures old(active) ==> columns == old(columns) && !r.WholeEntryPath?
      ensures r.Cached? && !old(active) ==> AllStarted(started) && Fetched(0)
      ensures r.Cached? && old(active) ==> Fetched(old(rows))
      ensures r.EntryDone? ==> Aligned(columns, rows) && |columns| > 1 && forall c :: 0 <= c < |columns| ==>
        |columns[c]| == rows
      ensures r.EntryDone? ==> rows == if old(active) then old(rows) else 0
      ensures r.WholeEntryPath? ==> !(eligible && AllStarted(started) && serializedMode)
      ensures r.EntryFailed? && old(active) ==> rows == old(rows)
      ensures r.Cached? ==> (Joinable() <==> if old(active) then old(Joinable()) else Accepted(eligible, started))
      ensures !r.Cached? ==> (r.EntryDone? <==> if old(active) then old(Joinable()) else Accepted(eligible, started))
    {
      if active {
        var page := ReadCursorPage();
        if page.Data? {
          return Cached;
        }
        if page.PageFailed? {
          return EntryFailed;
        }
        EndEntryCursors();
        return EntryDone;
      }
      if eligible {
        var ok := StartColumns(started);
        if ok {
          emitted, active := false, true;
          var page := ReadCursorPage();
          if page.Data? {
            return Cached;
          }
          if page.PageFailed? {
            return EntryFailed;
          }
          var shapeMismatch := mismatch;
          EndEntryCursors();
          if !shapeMismatch {
            return EntryDone;
          }
        }
      }
      return WholeEntryPath;
    }

    /** The cached pages continue the columns at row `from`, which is where the last page ended. */
    ghost predicate Fetched(from: nat)
      reads this
    {
      from < rows && |cached| == |columns| > 1 &&
      forall c :: 0 <= c < |columns| ==> rows <= |columns[c]| && cached[c] == columns[c][from..rows]
    }
  }

  /** The outcome of an entry: finished with the join of the complete columns, handed to the
      whole-entry path with nothing emitted, or failed after an aligned prefix of the join. */
  ghost predicate Outcome(state: ScanState, r: EntryOutcome, out: seq<Row>)
    reads state
  {
    var columns := state.columns;
    match r
    case Cached => false
    case WholeEntryPath => out == []
    case EntryDone =>
      |columns| > 1 && (forall c :: 0 <= c < |columns| ==> |columns[c]| == |out|) &&
      Aligned(columns, |out|) && out == Joined(columns, |out|)
    case EntryFailed =>
      out == [] ||
      (|columns| > 1 && (forall c :: 0 <= c < |columns| ==> |out| <= |columns[c]|) &&
       Aligned(columns, |out|) && out == Joined(columns, |out|))
  }

  lemma {:induction false} FetchedJoins(columns: seq<seq<Item>>, cached: seq<seq<Item>>, from: nat, upTo: nat)
    requires |cached| == |columns| > 1 && from < upTo
    requires forall c :: 0 <= c < |columns| ==> upTo <= |columns[c]| && cached[c] == columns[c][from..upTo]
    ensures Joined(columns, upTo) == Joined(columns, from) + Joined(cached, upTo - from)
    ensures |Joined(columns, upTo)| == upTo
  {
    forall c | 0 <= c < |columns| ensures SliceOf(cached[c], columns[c], from, upTo - from) {
      assert columns[c][from..upTo] == columns[c][from..from + (upTo - from)];
    }
    JoinPages(columns, cached, from, upTo - from);
    JoinedLength(columns, upTo);
  }

  /** The rows emitted so far are the join of the columns up to the cached page's end. */
  ghost predicate Joining(state: ScanState, out: seq<Row>)
    reads state
  {
    state.Valid() && state.active && !state.mismatch && state.rows == |out| && out == Joined(state.columns, |out|)
  }

  /** Fetches the next page of an entry that is being read and joins it. */
  method JoinNextPage(state: ScanState, eligible: bool, started: seq<Option<SerializedPage>>, out: seq<Row>)
    returns (r: EntryOutcome, more: seq<Row>)
    requires Joining(state, out)
    requires |started| > 1 && forall c :: 0 <= c < |started| ==> FreshPage(started[c], state.depth)
    modifies state
    ensures state.columns == old(state.columns)
    ensures r.Cached? ==> Joining(state, more) && |more| > |out| && state.rows <= |state.columns[0]|
    ensures !r.Cached? ==> more == out && Outcome(state, r, more) && !r.WholeEntryPath?
    ensures r.EntryDone? ==> state.Valid() && !state.active && !state.mismatch
    ensures r.Cached? ==> (state.Joinable() <==> old(state.Joinable()))
    ensures !r.Cached? ==> (r.EntryDone? <==> old(state.Joinable()))
  {
    more := out;
    r := state.ReadAndCacheEntry(eligible, started);
    if r.Cached? {
      FetchedJoins(state.columns, state.cached, |out|, state.rows);
      more := out + Joined(state.cached, |state.cached[0]|);
    }
  }

  /** Reads one entry to its end and joins the pages row by row. */
  method ReadEntry(state: ScanState, eligible: bool, started: seq<Option<SerializedPage>>)
    returns (r: EntryOutcome, out: seq<Row>)
    requires state.Valid() && !state.active && !state.mismatch
    requires |started| > 1 && forall c :: 0 <= c < |started| ==> FreshPage(started[c], state.depth)
    modifies state
    ensures Outcome(state, r, out)
    ensures !r.EntryFailed? ==> state.Valid() && !state.active && !state.mismatch
    ensures r.WholeEntryPath? ==> !(eligible && AllStarted(started) && state.serializedMode)
    ensures r.EntryDone? <==> Accepted(eligible, started)
  {
    out := [];
    r := state.ReadAndCacheEntry(eligible, started);
    if r.Cached? {
      FetchedJoins(state.columns, state.cached, 0, state.rows);
      out := Joined(state.cached, |state.cached[0]|);
      while r.Cached?
        invariant r.Cached? ==> Joining(state, out)
        invariant !r.Cached? ==> Outcome(state, r, out) && !r.WholeEntryPath?
        invariant r.EntryDone? ==> state.Valid() && !state.active && !state.mismatch
        invariant r.Cached? ==> (state.Joinable() <==> Accepted(eligible, started))
        invariant !r.Cached? ==> (r.EntryDone? <==> Accepted(eligible, started))
        decreases r.Cached?, if r.Cached? then |state.columns[0]| - state.rows else 0
      {
        r, out := JoinNextPage(state, eligible, started, out);
      }
    }
  }
}
