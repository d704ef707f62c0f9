/** Publishing an index generation into append-only tables: parts are copied under
    immutable names, listed once, mapped to table versions, and the generation
    becomes visible by its commit receipt, which comes last. A publisher can die
    between any two steps and start again; other generations publish in between. */
module Publish {
  import opened Numbers

  type Gen = string

  datatype Table = Files | Schemas | Access | Baskets | PathSources | Snapshots | Commits

  /** One row of a snapshots part: the version of a table that a generation refers to. */
  datatype SnapRow = SnapRow(gen: Gen, table: Table, version: int)

  datatype Content =
    | Opaque(fingerprint: int)
    | Mapping(rows: seq<SnapRow>)
    | Receipt(gen: Gen, committed: bool, manifest: string, dictionary: string, time: int)

  /** The parts a generation has in its own staging directory. */
  type Staging = map<Table, Content>

  datatype Stage = Copy(table: Table) | List(table: Table) | WriteSnapshots | WriteCommit | Done

  /** The publisher that holds the lock, with the table versions it has collected. */
  datatype Publisher = Publisher(gen: Gen, manifest: string, dictionary: string, stage: Stage, results: seq<SnapRow>)

  /** Durable state: staged parts, immutable data files, and per table the generations whose data file
      it lists. The version of a table after n appends is n, and lists its first n files. */
  datatype State = State(
    staging: map<Gen, Staging>, data: map<(Gen, Table), Content>, tables: map<Table, seq<Gen>>,
    publisher: Option<Publisher>)

  function Listing(s: State, t: Table): seq<Gen> {
    if t in s.tables then s.tables[t] else []
  }

  function Staged(s: State, g: Gen, t: Table): Option<Content> {
    if g in s.staging && t in s.staging[g] then Some(s.staging[g][t]) else None
  }

  // ----- Steps -----

  datatype Step =
    | Begin(gen: Gen, manifest: string, dictionary: string)
    | Advance(now: int)
    | Crash
    | EditStaging(gen: Gen, parts: Staging)

  /** The error paths and a crash both end the publisher; only durable state stays. */
  function Stop(s: State): State {
    s.(publisher := None)
  }

  function AfterList(t: Table): Stage {
    match t
    case Files => Copy(Schemas)
    case Schemas => Copy(Access)
    case Access => Copy(Baskets)
    case Baskets => Copy(PathSources)
    case PathSources => WriteSnapshots
    case Snapshots => WriteCommit
    case Commits => Done
  }

  /** Copies a staged part to its immutable name, or checks that the file there has the same content.
      The copy goes through a pending file, so the name appears with its full content or not at all. */
  function CopyPart(s: State, p: Publisher, t: Table): State {
    var part := Staged(s, p.gen, t);
    if part.None? then
      if t.PathSources? then s.(publisher := Some(p.(stage := WriteSnapshots))) else Stop(s)
    else if (p.gen, t) in s.data then
      if s.data[(p.gen, t)] == part.value then s.(publisher := Some(p.(stage := List(t)))) else Stop(s)
    else s.(data := s.data[(p.gen, t) := part.value], publisher := Some(p.(stage := List(t))))
  }

  /** Appends the data file to the table unless it is listed already, and notes the current version. */
  function ListPart(s: State, p: Publisher, t: Table): State {
    var listing := if p.gen in Listing(s, t) then Listing(s, t) else Listing(s, t) + [p.gen];
    var row := SnapRow(p.gen, t, |listing|);
    State(s.staging, s.data, s.tables[t := listing],
          Some(p.(stage := AfterList(t),
                  results := if t.Snapshots? || t.Commits? then p.results else p.results + [row])))
  }

  /** The version a saved part gives a table; the first row wins. */
  function SavedVersion(rows: seq<SnapRow>, t: Table): Option<int> {
    if rows == [] then None
    else if rows[0].table == t then Some(rows[0].version)
    else SavedVersion(rows[1..], t)
  }

  predicate SameMapping(rows: seq<SnapRow>, results: seq<SnapRow>) {
    |rows| == |results| &&
    forall k :: 0 <= k < |results| ==> SavedVersion(rows, results[k].table) == Some(results[k].version)
  }

  function WithPart(s: State, g: Gen, t: Table, c: Content): map<Gen, Staging> {
    s.staging[g := (if g in s.staging then s.staging[g] else map[])[t := c]]
  }

  /** Writes the snapshots part once; a part from an earlier attempt must hold the same mapping. */
  function WriteSnapshotsPart(s: State, p: Publisher): State {
    var saved := Staged(s, p.gen, Snapshots);
    var next := Some(p.(stage := Copy(Snapshots)));
    if saved.None? then s.(staging := WithPart(s, p.gen, Snapshots, Mapping(p.results)), publisher := next)
    else if saved.value.Mapping? && SameMapping(saved.value.rows, p.results) then s.(publisher := next)
    else Stop(s)
  }

  function WriteCommitPart(s: State, p: Publisher, now: int): State {
    var saved := Staged(s, p.gen, Commits);
    var next := Some(p.(stage := Copy(Commits)));
    if saved.None? then
      s.(staging := WithPart(s, p.gen, Commits, Receipt(p.gen, true, p.manifest, p.dictionary, now)), publisher := next)
    else if saved.value ==
            Receipt(p.gen, true, p.manifest, p.dictionary, if saved.value.Receipt? then saved.value.time else 0)
    then s.(publisher := next)
    else Stop(s)
  }

  function Next(s: State, step: Step): State {
    match step
    case Begin(g, manifest, dictionary) =>
      // An empty generation name is refused.
      if s.publisher.Some? || g == "" then s
      else s.(publisher := Some(Publisher(g, manifest, dictionary, Copy(Files), [])))
    case Crash => Stop(s)
    case EditStaging(g, parts) =>
      // Staged parts can vanish or change while no publisher works on the generation.
      if s.publisher.Some? && s.publisher.value.gen == g then s else s.(staging := s.staging[g := parts])
    case Advance(now) =>
      if s.publisher.None? then s
      else
        var p := s.publisher.value;
        match p.stage
        case Copy(t) => CopyPart(s, p, t)
        case List(t) => ListPart(s, p, t)
        case WriteSnapshots => WriteSnapshotsPart(s, p)
        case WriteCommit => WriteCommitPart(s, p, now)
        case Done => Stop(s)
  }

  /** Whatever is done to a staging directory, the rows of its snapshots part name its own generation. */
  ghost predicate OwnRows(g: Gen, parts: Staging) {
    Snapshots in parts && parts[Snapshots].Mapping? ==>
      forall k :: 0 <= k < |parts[Snapshots].rows| ==> parts[Snapshots].rows[k].gen == g
  }

  ghost predicate Allowed(step: Step) {
    step.EditStaging? ==> OwnRows(step.gen, step.parts)
  }

  // ----- The invariant -----

  predicate NoRepeats(gens: seq<Gen>) {
    forall j, k :: 0 <= j < k < |gens| ==> gens[j] != gens[k]
  }

  /** A version of a table that exists and lists the generation's data file. */
  predicate GoodRow(s: State, g: Gen, row: SnapRow) {
    row.gen == g && 0 < row.version <= |Listing(s, row.table)| && g in Listing(s, row.table)[..row.version]
  }

  predicate DistinctTables(rows: seq<SnapRow>) {
    forall j, k :: 0 <= j < k < |rows| ==> rows[j].table != rows[k].table
  }

  predicate Maps(rows: seq<SnapRow>, t: Table) {
    exists k :: 0 <= k < |rows| && rows[k].table == t
  }

  /** One good row per table, with none of the four base tables missing. */
  ghost predicate GoodMapping(s: State, g: Gen, c: Content) {
    c.Mapping? && DistinctTables(c.rows) && (forall k :: 0 <= k < |c.rows| ==> GoodRow(s, g, c.rows[k])) &&
    Maps(c.rows, Files) && Maps(c.rows, Schemas) && Maps(c.rows, Access) && Maps(c.rows, Baskets)
  }

  /** How far the collected results reach at each stage. */
  predicate Collected(stage: Stage, rows: seq<SnapRow>) {
    var n := |rows|;
    match stage
    case Copy(t) => CollectedBefore(t, rows)
    case List(t) => CollectedBefore(t, rows)
    case WriteSnapshots => BaseRows(rows, 4) && (n == 4 || (n == 5 && rows[4].table.PathSources?))
    case WriteCommit => true
    case Done => true
  }

  predicate CollectedBefore(t: Table, rows: seq<SnapRow>) {
    match t
    case Files => |rows| == 0
    case Schemas => |rows| == 1 && BaseRows(rows, 1)
    case Access => |rows| == 2 && BaseRows(rows, 2)
    case Baskets => |rows| == 3 && BaseRows(rows, 3)
    case PathSources => |rows| == 4 && BaseRows(rows, 4)
    case Snapshots => true
    case Commits => true
  }

  predicate BaseRows(rows: seq<SnapRow>, n: nat) {
    n <= |rows| && (n > 0 ==> rows[0].table.Files?) && (n > 1 ==> rows[1].table.Schemas?) &&
    (n > 2 ==> rows[2].table.Access?) && (n > 3 ==> rows[3].table.Baskets?)
  }

  ghost predicate PublisherOk(s: State, p: Publisher) {
    && (forall k :: 0 <= k < |p.results| ==> GoodRow(s, p.gen, p.results[k]))
    && Collected(p.stage, p.results)
    && (p.stage.List? ==> (p.gen, p.stage.table) in s.data)
    && (p.stage == Copy(Snapshots) ==>
          Staged(s, p.gen, Snapshots).Some? && GoodMapping(s, p.gen, Staged(s, p.gen, Snapshots).value))
    && (p.stage == Copy(Commits) ==>
          Staged(s, p.gen, Commits).Some? && OwnReceipt(p.gen, Staged(s, p.gen, Commits).value))
    && (p.stage.WriteCommit? || p.stage == Copy(Commits) || p.stage == List(Commits) || p.stage.Done? ==>
          p.gen in Listing(s, Snapshots))
  }

  predicate OwnReceipt(g: Gen, c: Content) {
    c.Receipt? && c.gen == g && c.committed
  }

  ghost predicate TableOk(s: State, t: Table) {
    NoRepeats(Listing(s, t)) && forall g :: g in Listing(s, t) ==> (g, t) in s.data
  }

  ghost predicate PartsOk(s: State, g: Gen) {
    ((g, Snapshots) in s.data ==> GoodMapping(s, g, s.data[(g, Snapshots)])) &&
    ((g, Commits) in s.data ==> OwnReceipt(g, s.data[(g, Commits)]))
  }

  /** No table lists a file twice or lists a missing file; snapshots parts and receipts are sound; a
      generation gets its receipt after its mapping. */
  ghost predicate CatalogOk(s: State) {
    (forall t :: TableOk(s, t)) && (forall g :: PartsOk(s, g)) && CommitsBacked(s)
  }

  ghost predicate CommitsBacked(s: State) {
    forall g :: g in Listing(s, Commits) ==> g in Listing(s, Snapshots)
  }

  ghost predicate StagingOk(s: State) {
    forall g :: g in s.staging ==> OwnRows(g, s.staging[g])
  }

  ghost predicate Inv(s: State) {
    CatalogOk(s) && StagingOk(s) && (s.publisher.Some? ==> PublisherOk(s, s.publisher.value))
  }

  /** Tables only grow at the end. */
  ghost predicate Grows(s: State, n: State) {
    forall t :: Listing(s, t) <= Listing(n, t)
  }

  lemma {:induction false} GoodRowKept(s: State, n: State, g: Gen, row: SnapRow)
    requires Grows(s, n) && GoodRow(s, g, row)
    ensures GoodRow(n, g, row)
  {
    assert Listing(s, row.table) <= Listing(n, row.table);
    assert Listing(n, row.table)[..row.version] == Listing(s, row.table)[..row.version];
  }

  lemma {:induction false} GoodMappingKept(s: State, n: State, g: Gen, c: Content)
    requires Grows(s, n) && GoodMapping(s, g, c)
    ensures GoodMapping(n, g, c)
  {
    forall k | 0 <= k < |c.rows| ensures GoodRow(n, g, c.rows[k]) {
      GoodRowKept(s, n, g, c.rows[k]);
    }
  }

  // ----- A resumed mapping -----

  function TableSet(rows: seq<SnapRow>): set<Table> {
    set k | 0 <= k < |rows| :: rows[k].table
  }

  lemma {:induction false} TableSetSize(rows: seq<SnapRow>)
    ensures |TableSet(rows)| <= |rows|
    ensures |TableSet(rows)| == |rows| ==> DistinctTables(rows)
    ensures DistinctTables(rows) ==> |TableSet(rows)| == |rows|
  {
    if rows != [] {
      var n := |rows| - 1;
      var init, last := rows[..n], rows[n].table;
      TableSetSize(init);
      assert TableSet(rows) == TableSet(init) + {last};
      if |TableSet(rows)| == |rows| {
        assert last !in TableSet(init);
        forall j, k | 0 <= j < k < |rows| ensures rows[j].table != rows[k].table {
          if k < n {
            assert init[j].table != init[k].table;
          } else {
            assert init[j].table in TableSet(init);
          }
        }
      }
      if DistinctTables(rows) {
        assert DistinctTables(init);
        assert last !in TableSet(init);
      }
    }
  }

  lemma {:induction false} SavedRow(rows: seq<SnapRow>, t: Table) returns (k: nat)
    requires SavedVersion(rows, t).Some?
    ensures k < |rows| && rows[k].table == t && SavedVersion(rows, t) == Some(rows[k].version)
  {
    if rows[0].table == t {
      k := 0;
    } else {
      k := SavedRow(rows[1..], t);
      k := k + 1;
    }
  }

  /** A saved part with as many rows as there are results, agreeing on each of them, has nothing else in it. */
  lemma {:induction false} SameMappingExact(rows: seq<SnapRow>, results: seq<SnapRow>)
    requires SameMapping(rows, results) && DistinctTables(results)
    ensures DistinctTables(rows)
    ensures forall k :: 0 <= k < |rows| ==> exists j :: 0 <= j < |results| && SameRow(rows[k], results[j])
    ensures forall j :: 0 <= j < |results| ==> Maps(rows, results[j].table)
  {
    forall j | 0 <= j < |results| ensures results[j].table in TableSet(rows) && Maps(rows, results[j].table) {
      var k := SavedRow(rows, results[j].table);
      assert rows[k].table in TableSet(rows);
    }
    TableSetSize(rows);
    TableSetSize(results);
    assert TableSet(results) <= TableSet(rows);
    SubsetSize(TableSet(results), TableSet(rows));
    forall k | 0 <= k < |rows| ensures exists j :: 0 <= j < |results| && SameRow(rows[k], results[j]) {
      assert rows[k].table in TableSet(rows);
      var j :| 0 <= j < |results| && results[j].table == rows[k].table;
      var i := SavedRow(rows, results[j].table);
      assert i == k;
      assert SameRow(rows[k], results[j]);
    }
  }

  predicate SameRow(a: SnapRow, b: SnapRow) {
    a.table == b.table && a.version == b.version
  }

  lemma {:induction false} SubsetSize(a: set<Table>, b: set<Table>)
    requires a <= b
    ensures |a| <= |b| && (|a| == |b| ==> a == b)
  {
    if a != {} {
      var x :| x in a;
      SubsetSize(a - {x}, b - {x});
      assert |a| == |b| ==> a - {x} == b - {x};
    }
  }

  // ----- Every step keeps the invariant -----

  /** Steps that leave tables and data alone keep the catalog sound. */
  lemma {:induction false} CatalogKept(s: State, n: State)
    requires CatalogOk(s) && n.tables == s.tables && n.data == s.data
    ensures CatalogOk(n) && Grows(s, n)
  {
    forall t ensures TableOk(n, t) {
      assert TableOk(s, t);
    }
    forall g ensures PartsOk(n, g) {
      assert PartsOk(s, g);
      if (g, Snapshots) in n.data {
        GoodMappingKept(s, n, g, n.data[(g, Snapshots)]);
      }
    }
    assert Listing(n, Commits) == Listing(s, Commits) && Listing(n, Snapshots) == Listing(s, Snapshots);
  }

  lemma {:induction false} ResultsKept(s: State, n: State, p: Publisher)
    requires Grows(s, n) && forall k :: 0 <= k < |p.results| ==> GoodRow(s, p.gen, p.results[k])
    ensures forall k :: 0 <= k < |p.results| ==> GoodRow(n, p.gen, p.results[k])
  {
    forall k | 0 <= k < |p.results| ensures GoodRow(n, p.gen, p.results[k]) {
      GoodRowKept(s, n, p.gen, p.results[k]);
    }
  }

  /** The publisher can always be dropped. */
  lemma {:induction false} StopKeeps(s: State)
    requires Inv(s)
    ensures Inv(Stop(s))
  {
    CatalogKept(s, Stop(s));
  }

  /** A part appears under its immutable name. */
  lemma {:induction false} NewPartKeeps(s: State, n: State, g: Gen, t: Table, c: Content)
    requires CatalogOk(s) && n.tables == s.tables && n.data == s.data[(g, t) := c] && (g, t) !in s.data
    requires t.Snapshots? ==> GoodMapping(s, g, c)
    requires t.Commits? ==> OwnReceipt(g, c)
    ensures CatalogOk(n) && Grows(s, n)
  {
    forall u ensures TableOk(n, u) {
      assert TableOk(s, u);
    }
    forall h ensures PartsOk(n, h) {
      assert PartsOk(s, h);
      if (h, Snapshots) in n.data {
        GoodMappingKept(s, n, h, n.data[(h, Snapshots)]);
      }
    }
    assert Listing(n, Commits) == Listing(s, Commits) && Listing(n, Snapshots) == Listing(s, Snapshots);
  }

  lemma {:induction false} CopyCatalog(s: State, p: Publisher, t: Table)
    requires CatalogOk(s) && PublisherOk(s, p) && p.stage == Copy(t) && CopyPart(s, p, t).publisher.Some?
    ensures CatalogOk(CopyPart(s, p, t)) && Grows(s, CopyPart(s, p, t))
  {
    var n := CopyPart(s, p, t);
    if n.data == s.data {
      CatalogKept(s, n);
    } else {
      NewPartKeeps(s, n, p.gen, t, Staged(s, p.gen, t).value);
    }
  }

  lemma {:induction false} CopyPublisher(s: State, n: State, p: Publisher, t: Table)
    requires PublisherOk(s, p) && p.stage == Copy(t) && n == CopyPart(s, p, t) && n.publisher.Some? && Grows(s, n)
    ensures PublisherOk(n, n.publisher.value)
  {
    ResultsKept(s, n, p);
    assert Listing(s, Snapshots) <= Listing(n, Snapshots);
  }

  lemma {:induction false} CopyKeeps(s: State, p: Publisher, t: Table)
    requires Inv(s) && s.publisher == Some(p) && p.stage == Copy(t)
    ensures Inv(CopyPart(s, p, t))
  {
    var n := CopyPart(s, p, t);
    if n.publisher.None? {
      StopKeeps(s);
    } else {
      CopyCatalog(s, p, t);
      CopyPublisher(s, n, p, t);
    }
  }

  lemma {:induction false} AppendOnce(gens: seq<Gen>, g: Gen)
    requires NoRepeats(gens)
    ensures NoRepeats(if g in gens then gens else gens + [g])
  {
  }

  lemma {:induction false} ListGrows(s: State, p: Publisher, t: Table)
    ensures var n := ListPart(s, p, t);
      Grows(s, n) && p.gen in Listing(n, t) && |Listing(n, t)| > 0 &&
      (forall u :: u != t ==> Listing(n, u) == Listing(s, u)) &&
      (forall u, g :: g in Listing(n, u) ==> g in Listing(s, u) || (u == t && g == p.gen))
  {
  }

  lemma {:induction false} ListCatalog(s: State, p: Publisher, t: Table)
    requires CatalogOk(s) && (p.gen, t) in s.data && (t.Commits? ==> p.gen in Listing(s, Snapshots))
    ensures CatalogOk(ListPart(s, p, t))
  {
    var n := ListPart(s, p, t);
    ListGrows(s, p, t);
    forall u ensures TableOk(n, u) {
      assert TableOk(s, u);
      AppendOnce(Listing(s, u), p.gen);
    }
    forall g ensures PartsOk(n, g) {
      assert PartsOk(s, g);
      if (g, Snapshots) in n.data {
        GoodMappingKept(s, n, g, n.data[(g, Snapshots)]);
      }
    }
  }

  lemma {:induction false} NewRowGood(s: State, p: Publisher, t: Table)
    ensures var n := ListPart(s, p, t); GoodRow(n, p.gen, SnapRow(p.gen, t, |Listing(n, t)|))
  {
    var n := ListPart(s, p, t);
    ListGrows(s, p, t);
    assert Listing(n, t)[..|Listing(n, t)|] == Listing(n, t);
  }

  lemma {:induction false} CollectedNext(t: Table, rows: seq<SnapRow>, row: SnapRow)
    requires Collected(List(t), rows) && row.table == t && !t.Snapshots? && !t.Commits?
    ensures Collected(AfterList(t), rows + [row])
  {
  }

  lemma {:induction false} ListResults(s: State, p: Publisher, t: Table)
    requires PublisherOk(s, p) && p.stage == List(t)
    ensures var n := ListPart(s, p, t);
      n.publisher.Some? && forall k :: 0 <= k < |n.publisher.value.results| ==>
        GoodRow(n, p.gen, n.publisher.value.results[k])
  {
    var n := ListPart(s, p, t);
    ListGrows(s, p, t);
    ResultsKept(s, n, p);
    NewRowGood(s, p, t);
  }

  lemma {:induction false} ListPublisher(s: State, p: Publisher, t: Table)
    requires PublisherOk(s, p) && p.stage == List(t)
    ensures var n := ListPart(s, p, t); n.publisher.Some? && PublisherOk(n, n.publisher.value)
  {
    var n := ListPart(s, p, t);
    ListGrows(s, p, t);
    ListResults(s, p, t);
    if !t.Snapshots? && !t.Commits? {
      CollectedNext(t, p.results, SnapRow(p.gen, t, |Listing(n, t)|));
    }
  }

  lemma {:induction false} ListKeeps(s: State, p: Publisher, t: Table)
    requires Inv(s) && s.publisher == Some(p) && p.stage == List(t)
    ensures Inv(ListPart(s, p, t))
  {
    ListCatalog(s, p, t);
    ListPublisher(s, p, t);
  }

  lemma {:induction false} ResultsMapping(s: State, p: Publisher)
    requires PublisherOk(s, p) && p.stage.WriteSnapshots?
    ensures DistinctTables(p.results) && GoodMapping(s, p.gen, Mapping(p.results))
  {
    var rows := p.results;
    assert rows[0].table == Files && rows[1].table == Schemas && rows[2].table == Access && rows[3].table == Baskets;
  }

  /** A part kept from an earlier attempt passes the comparison only if it is a good mapping, too. */
  lemma {:induction false} SavedMapping(s: State, p: Publisher, rows: seq<SnapRow>)
    requires PublisherOk(s, p) && p.stage.WriteSnapshots? && SameMapping(rows, p.results)
    requires forall k :: 0 <= k < |rows| ==> rows[k].gen == p.gen
    ensures GoodMapping(s, p.gen, Mapping(rows))
  {
    ResultsMapping(s, p);
    SameMappingExact(rows, p.results);
    assert forall j :: 0 <= j < |p.results| ==> Maps(rows, p.results[j].table);
    forall k | 0 <= k < |rows| ensures GoodRow(s, p.gen, rows[k]) {
      var j :| 0 <= j < |p.results| && SameRow(rows[k], p.results[j]);
      assert GoodRow(s, p.gen, p.results[j]);
    }
    assert Maps(rows, p.results[0].table) && Maps(rows, p.results[1].table);
    assert Maps(rows, p.results[2].table) && Maps(rows, p.results[3].table);
  }

  lemma {:induction false} StagedMapping(s: State, n: State, p: Publisher)
    requires PublisherOk(s, p) && p.stage.WriteSnapshots? && Grows(s, n)
    requires p.gen in s.staging ==> OwnRows(p.gen, s.staging[p.gen])
    requires n == WriteSnapshotsPart(s, p) && n.publisher.Some?
    ensures Staged(n, p.gen, Snapshots).Some? && GoodMapping(n, p.gen, Staged(n, p.gen, Snapshots).value)
    ensures OwnRows(p.gen, n.staging[p.gen])
  {
    ResultsMapping(s, p);
    var c := Staged(n, p.gen, Snapshots).value;
    if Staged(s, p.gen, Snapshots).Some? {
      SavedMapping(s, p, c.rows);
    }
    GoodMappingKept(s, n, p.gen, c);
  }

  lemma {:induction false} StagedPublisher(s: State, n: State, p: Publisher)
    requires PublisherOk(s, p) && p.stage.WriteSnapshots? && Grows(s, n)
    requires n.publisher == Some(p.(stage := Copy(Snapshots)))
    requires Staged(n, p.gen, Snapshots).Some? && GoodMapping(n, p.gen, Staged(n, p.gen, Snapshots).value)
    ensures PublisherOk(n, n.publisher.value)
  {
    ResultsKept(s, n, p);
  }

  /** Only the publisher's own staging directory changes. */
  lemma {:induction false} OwnStagingChanges(s: State, n: State, g: Gen)
    requires StagingOk(s) && (forall h :: h in n.staging && h != g ==> h in s.staging && n.staging[h] == s.staging[h])
    requires g in n.staging ==> OwnRows(g, n.staging[g])
    ensures StagingOk(n)
  {
    forall h | h in n.staging ensures OwnRows(h, n.staging[h]) {
      assert h != g ==> OwnRows(h, s.staging[h]);
    }
  }

  lemma {:induction false} WriteSnapshotsMoves(s: State, p: Publisher)
    ensures var n := WriteSnapshotsPart(s, p);
      if n.publisher.None? then n == Stop(s)
      else n.publisher == Some(p.(stage := Copy(Snapshots))) && n.tables == s.tables && n.data == s.data &&
           forall h :: h in n.staging && h != p.gen ==> h in s.staging && n.staging[h] == s.staging[h]
  {
  }

  lemma {:induction false} MoveKeeps(s: State, n: State, p: Publisher)
    requires CatalogOk(s) && StagingOk(s) && n.tables == s.tables && n.data == s.data && n.publisher.Some?
    requires forall h :: h in n.staging && h != p.gen ==> h in s.staging && n.staging[h] == s.staging[h]
    requires p.gen in n.staging ==> OwnRows(p.gen, n.staging[p.gen])
    requires PublisherOk(n, n.publisher.value)
    ensures Inv(n)
  {
    CatalogKept(s, n);
    OwnStagingChanges(s, n, p.gen);
  }

  lemma {:induction false} WriteSnapshotsKeeps(s: State, p: Publisher)
    requires Inv(s) && s.publisher == Some(p) && p.stage.WriteSnapshots?
    ensures Inv(WriteSnapshotsPart(s, p))
  {
    WriteSnapshotsMoves(s, p);
    var n := WriteSnapshotsPart(s, p);
    if n.publisher.None? {
      StopKeeps(s);
    } else {
      assert p.gen in s.staging ==> OwnRows(p.gen, s.staging[p.gen]);
      CatalogKept(s, n);
      StagedMapping(s, n, p);
      StagedPublisher(s, n, p);
      MoveKeeps(s, n, p);
    }
  }

  lemma {:induction false} CommitPublisher(s: State, n: State, p: Publisher, now: int)
    requires PublisherOk(s, p) && p.stage.WriteCommit? && Grows(s, n) && n == WriteCommitPart(s, p, now) &&
      n.publisher.Some?
    ensures PublisherOk(n, n.publisher.value)
  {
    ResultsKept(s, n, p);
    assert Listing(s, Snapshots) <= Listing(n, Snapshots);
  }

  lemma {:induction false} WriteCommitKeeps(s: State, p: Publisher, now: int)
    requires Inv(s) && s.publisher == Some(p) && p.stage.WriteCommit?
    ensures Inv(WriteCommitPart(s, p, now))
  {
    var n := WriteCommitPart(s, p, now);
    if n.publisher.None? {
      StopKeeps(s);
    } else {
      CatalogKept(s, n);
      CommitPublisher(s, n, p, now);
      assert p.gen in s.staging ==> OwnRows(p.gen, s.staging[p.gen]);
      OwnStagingChanges(s, n, p.gen);
    }
  }

  lemma {:induction false} EditPublisher(s: State, n: State, p: Publisher)
    requires PublisherOk(s, p) && n.tables == s.tables && n.data == s.data
    requires forall t :: Staged(n, p.gen, t) == Staged(s, p.gen, t)
    ensures PublisherOk(n, p)
  {
    assert Grows(s, n);
    ResultsKept(s, n, p);
    if p.stage == Copy(Snapshots) {
      GoodMappingKept(s, n, p.gen, Staged(s, p.gen, Snapshots).value);
    }
  }

  lemma {:induction false} EditKeeps(s: State, g: Gen, parts: Staging)
    requires Inv(s) && OwnRows(g, parts)
    ensures Inv(Next(s, EditStaging(g, parts)))
  {
    var n := Next(s, EditStaging(g, parts));
    CatalogKept(s, n);
    if s.publisher.Some? && s.publisher.value.gen != g {
      EditPublisher(s, n, s.publisher.value);
    }
  }

  lemma {:induction false} StepKeepsInvariant(s: State, step: Step)
    requires Inv(s) && Allowed(step)
    ensures Inv(Next(s, step))
  {
    match step
    case Begin(g, m, d) => CatalogKept(s, Next(s, step));
    case Crash => StopKeeps(s);
    case EditStaging(g, parts) => EditKeeps(s, g, parts);
    case Advance(now) =>
      if s.publisher.Some? {
        var p := s.publisher.value;
        match p.stage
        case Copy(t) => CopyKeeps(s, p, t);
        case List(t) => ListKeeps(s, p, t);
        case WriteSnapshots => WriteSnapshotsKeeps(s, p);
        case WriteCommit => WriteCommitKeeps(s, p, now);
        case Done => StopKeeps(s);
      }
  }

  // ----- Runs and readers -----

  /** A catalog with no tables yet; staging directories may hold anything of their own generation. */
  ghost predicate Initial(s: State) {
    s.data == map[] && s.tables == map[] && s.publisher.None? &&
    forall g :: g in s.staging ==> OwnRows(g, s.staging[g])
  }

  ghost predicate Run(states: seq<State>, steps: seq<Step>) {
    |states| == |steps| + 1 && Initial(states[0]) &&
    forall i :: 0 <= i < |steps| ==> Allowed(steps[i]) && states[i + 1] == Next(states[i], steps[i])
  }

  lemma {:induction false} RunKeepsInvariant(states: seq<State>, steps: seq<Step>)
    requires Run(states, steps)
    ensures Inv(states[|steps|])
    decreases |steps|
  {
    if steps != [] {
      var n := |steps| - 1;
      assert Run(states[..n + 1], steps[..n]);
      RunKeepsInvariant(states[..n + 1], steps[..n]);
      StepKeepsInvariant(states[n], steps[n]);
    }
  }

  /** A generation is visible to readers once the commits table lists its receipt. */
  predicate Committed(s: State, g: Gen) {
    g in Listing(s, Commits)
  }

  /** What a reader of a committed generation can rely on. */
  ghost predicate ReadableGeneration(s: State, g: Gen) {
    g in Listing(s, Snapshots) && (g, Snapshots) in s.data && GoodMapping(s, g, s.data[(g, Snapshots)])
  }

  /** After any run: no table lists a data file twice, every listed file exists, and a committed
      generation has exactly one mapping per table, to a version that holds its data file. */
  lemma {:induction false} CommittedIsReadable(states: seq<State>, steps: seq<Step>)
    requires Run(states, steps)
    ensures var s := states[|steps|];
      (forall t :: TableOk(s, t)) && forall g :: Committed(s, g) ==> ReadableGeneration(s, g)
  {
    RunKeepsInvariant(states, steps);
    var s := states[|steps|];
    forall g | Committed(s, g) ensures ReadableGeneration(s, g) {
      CommittedParts(s, g);
    }
  }

  lemma {:induction false} CommittedParts(s: State, g: Gen)
    requires CatalogOk(s) && Committed(s, g)
    ensures ReadableGeneration(s, g)
  {
    assert TableOk(s, Snapshots) && PartsOk(s, g);
  }

  /** Data files never change and never leave a table: a committed generation stays readable as it was. */
  lemma {:induction false} CommitsAreStable(s: State, step: Step, g: Gen, t: Table)
    ensures Listing(s, t) <= Listing(Next(s, step), t)
    ensures (g, t) in s.data ==> (g, t) in Next(s, step).data && Next(s, step).data[(g, t)] == s.data[(g, t)]
  {
    if step.Advance? && s.publisher.Some? && s.publisher.value.stage.List? {
      ListGrows(s, s.publisher.value, s.publisher.value.stage.table);
    }
  }

  // ----- Resolving a generation -----

  datatype Resolved = Versions(gen: Gen, versions: map<Table, int>) | NotCommitted | BadMapping | Incomplete

  /** The rows of a generation's snapshots part. */
  function PartRows(s: State, g: Gen): seq<SnapRow> {
    if (g, Snapshots) in s.data && s.data[(g, Snapshots)].Mapping? then s.data[(g, Snapshots)].rows else []
  }

  /** The rows that the snapshots query returns: those of the generation, over all listed data files. */
  function MappingRows(s: State, listing: seq<Gen>, g: Gen): seq<SnapRow> {
    if listing == [] then []
    else MappingRows(s, listing[..|listing| - 1], g) + OfGeneration(PartRows(s, listing[|listing| - 1]), g)
  }

  function OfGeneration(rows: seq<SnapRow>, g: Gen): seq<SnapRow> {
    if rows == [] then []
    else OfGeneration(rows[..|rows| - 1], g) + if rows[|rows| - 1].gen == g then [rows[|rows| - 1]] else []
  }

  lemma {:induction false} OfOwn(rows: seq<SnapRow>, owner: Gen, g: Gen)
    requires forall k :: 0 <= k < |rows| ==> rows[k].gen == owner
    ensures OfGeneration(rows, g) == if owner == g then rows else []
  {
    if rows != [] {
      OfOwn(rows[..|rows| - 1], owner, g);
      assert rows == rows[..|rows| - 1] + [rows[|rows| - 1]];
    }
  }

  lemma {:induction false} PartOwned(s: State, g: Gen)
    requires CatalogOk(s)
    ensures forall k :: 0 <= k < |PartRows(s, g)| ==> PartRows(s, g)[k].gen == g
  {
    assert PartsOk(s, g);
  }

  lemma {:induction false} OfListed(s: State, owner: Gen, g: Gen)
    requires CatalogOk(s)
    ensures OfGeneration(PartRows(s, owner), g) == if owner == g then PartRows(s, g) else []
  {
    PartOwned(s, owner);
    OfOwn(PartRows(s, owner), owner, g);
  }

  lemma {:induction false} LastIsNew(listing: seq<Gen>, g: Gen)
    requires NoRepeats(listing) && listing != []
    ensures NoRepeats(listing[..|listing| - 1])
    ensures g in listing <==> g in listing[..|listing| - 1] || g == listing[|listing| - 1]
    ensures g in listing[..|listing| - 1] ==> g != listing[|listing| - 1]
  {
    var n := |listing| - 1;
    assert listing == listing[..n] + [listing[n]];
  }

  /** Only a generation's own snapshots part speaks about it, so its mapping is that part. */
  lemma {:induction false} MappingIsOwnPart(s: State, listing: seq<Gen>, g: Gen)
    requires CatalogOk(s) && NoRepeats(listing)
    ensures MappingRows(s, listing, g) == if g in listing then PartRows(s, g) else []
  {
    if listing != [] {
      var n := |listing| - 1;
      assert NoRepeats(listing[..n]);
      MappingIsOwnPart(s, listing[..n], g);
      OfListed(s, listing[n], g);
      LastIsNew(listing, g);
    }
  }

  ghost predicate GoodVersions(s: State, g: Gen, versions: map<Table, int>) {
    forall t :: t in versions ==> GoodRow(s, g, SnapRow(g, t, versions[t]))
  }

  /** The first k rows of a good mapping read into a map, first come first served. */
  ghost predicate ReadInto(s: State, g: Gen, rows: seq<SnapRow>, k: nat, versions: map<Table, int>) {
    k <= |rows| && versions.Keys == TableSet(rows[..k]) && GoodVersions(s, g, versions)
  }

  lemma {:induction false} NextTable(rows: seq<SnapRow>, k: nat)
    requires k < |rows|
    ensures TableSet(rows[..k + 1]) == TableSet(rows[..k]) + {rows[k].table}
    ensures DistinctTables(rows) ==> rows[k].table !in TableSet(rows[..k])
  {
    assert rows[..k + 1] == rows[..k] + [rows[k]];
    forall t | t in TableSet(rows[..k]) ensures t in TableSet(rows[..k + 1]) {
      var j :| 0 <= j < k && rows[..k][j].table == t;
      assert rows[..k + 1][j].table == t;
    }
    assert rows[..k + 1][k] == rows[k];
  }

  lemma {:induction false} NextVersion(s: State, g: Gen, row: SnapRow, versions: map<Table, int>)
    requires GoodVersions(s, g, versions) && GoodRow(s, g, row)
    ensures GoodVersions(s, g, versions[row.table := row.version])
  {
    assert row == SnapRow(g, row.table, row.version);
  }

  lemma {:induction false} ReadNext(s: State, g: Gen, rows: seq<SnapRow>, k: nat, versions: map<Table, int>)
    requires GoodMapping(s, g, Mapping(rows)) && k < |rows| && ReadInto(s, g, rows, k, versions)
    ensures rows[k].version > 0 && rows[k].table !in versions
    ensures ReadInto(s, g, rows, k + 1, versions[rows[k].table := rows[k].version])
  {
    assert GoodRow(s, g, rows[k]);
    NextTable(rows, k);
    NextVersion(s, g, rows[k], versions);
  }

  /** Reads the mapping; repeated tables and impossible versions are errors. */
  method ReadMapping(s: State, g: Gen, rows: seq<SnapRow>) returns (ok: bool, versions: map<Table, int>)
    requires GoodMapping(s, g, Mapping(rows))
    ensures ok && ReadInto(s, g, rows, |rows|, versions)
  {
    versions := map[];
    for k := 0 to |rows|
      invariant ReadInto(s, g, rows, k, versions)
    {
      ReadNext(s, g, rows, k, versions);
      if rows[k].version <= 0 || rows[k].table in versions {
        return false, versions;
      }
      versions := versions[rows[k].table := rows[k].version];
    }
    ok := true;
  }

  lemma {:induction false} CommittedMapping(s: State, g: Gen)
    requires CatalogOk(s) && Committed(s, g)
    ensures GoodMapping(s, g, Mapping(MappingRows(s, Listing(s, Snapshots), g)))
  {
    CommittedParts(s, g);
    assert TableOk(s, Snapshots);
    MappingIsOwnPart(s, Listing(s, Snapshots), g);
  }

  lemma {:induction false} MappedIsRead(rows: seq<SnapRow>, t: Table)
    requires Maps(rows, t)
    ensures t in TableSet(rows[..|rows|])
  {
    assert rows[..|rows|] == rows;
    var k :| 0 <= k < |rows| && rows[k].table == t;
  }

  lemma {:induction false} BaseTablesRead(s: State, g: Gen, rows: seq<SnapRow>, versions: map<Table, int>)
    requires GoodMapping(s, g, Mapping(rows)) && ReadInto(s, g, rows, |rows|, versions)
    ensures Files in versions && Schemas in versions && Access in versions && Baskets in versions
  {
    MappedIsRead(rows, Files);
    MappedIsRead(rows, Schemas);
    MappedIsRead(rows, Access);
    MappedIsRead(rows, Baskets);
  }

  /** When a generation was committed, as its receipt says. */
  function CommitTime(s: State, g: Gen): int {
    if (g, Commits) in s.data && s.data[(g, Commits)].Receipt? then s.data[(g, Commits)].time else 0
  }

  /** The generations that a reader may get: the pinned one, or any if none is pinned. */
  predicate Eligible(s: State, pinned: Gen, g: Gen) {
    Committed(s, g) && (pinned == "" || g == pinned)
  }

  /** One row of the commits query: a committed receipt of an eligible generation. */
  predicate CommitRow(s: State, pinned: Gen, g: Gen) {
    (g, Commits) in s.data && var c := s.data[(g, Commits)];
    c.Receipt? && c.committed && (pinned == "" || c.gen == pinned)
  }

  ghost predicate LatestOf(s: State, pinned: Gen, gens: seq<Gen>, latest: Option<Gen>) {
    match latest
    case None => forall k :: 0 <= k < |gens| ==> !Eligible(s, pinned, gens[k])
    case Some(g) =>
      Eligible(s, pinned, g) &&
      forall k :: 0 <= k < |gens| && Eligible(s, pinned, gens[k]) ==> CommitTime(s, gens[k]) <= CommitTime(s, g)
  }

  lemma {:induction false} RowIsEligible(s: State, pinned: Gen, g: Gen)
    requires CatalogOk(s) && Committed(s, g)
    ensures CommitRow(s, pinned, g) <==> Eligible(s, pinned, g)
    ensures (g, Commits) in s.data && s.data[(g, Commits)].Receipt? && s.data[(g, Commits)].gen == g
  {
    assert TableOk(s, Commits) && PartsOk(s, g);
  }

  /** The latest committed generation by commit time; ties go to whichever row comes first. */
  method LatestCommit(s: State, pinned: Gen) returns (latest: Option<Gen>)
    requires CatalogOk(s)
    ensures latest.None? ==> forall g :: !Eligible(s, pinned, g)
    ensures latest.Some? ==> Eligible(s, pinned, latest.value)
    ensures latest.Some? ==> forall g :: Eligible(s, pinned, g) ==> CommitTime(s, g) <= CommitTime(s, latest.value)
  {
    latest := None;
    var rows := Listing(s, Commits);
    for k := 0 to |rows|
      invariant LatestOf(s, pinned, rows[..k], latest)
    {
      RowIsEligible(s, pinned, rows[k]);
      assert rows[..k + 1] == rows[..k] + [rows[k]];
      if CommitRow(s, pinned, rows[k]) {
        if latest.None? || CommitTime(s, rows[k]) > CommitTime(s, latest.value) {
          latest := Some(s.data[(rows[k], Commits)].gen);
        }
      }
    }
    forall g | Eligible(s, pinned, g) ensures latest.Some? && CommitTime(s, g) <= CommitTime(s, latest.value) {
      var k :| 0 <= k < |rows| && rows[k] == g;
      assert rows[..|rows|][k] == g;
    }
  }

  /** The reader's resolution: it succeeds exactly if the pinned generation, or any without a pin, is committed;
      it answers for the latest such generation, and every version it returns lists that generation's data file. */
  method ResolveSources(s: State, pinned: Gen) returns (r: Resolved)
    requires CatalogOk(s)
    ensures r.Versions? <==> exists g :: Eligible(s, pinned, g)
    ensures !r.Versions? <==> r.NotCommitted?
    ensures r.Versions? ==> Eligible(s, pinned, r.gen)
    ensures r.Versions? ==> forall g :: Eligible(s, pinned, g) ==> CommitTime(s, g) <= CommitTime(s, r.gen)
    ensures r.Versions? ==> {Files, Schemas, Access, Baskets} <= r.versions.Keys
    ensures r.Versions? ==> forall t :: t in r.versions ==> GoodRow(s, r.gen, SnapRow(r.gen, t, r.versions[t]))
  {
    var latest := LatestCommit(s, pinned);
    if latest.None? {
      return NotCommitted;
    }
    var g := latest.value;
    CommittedMapping(s, g);
    var rows := MappingRows(s, Listing(s, Snapshots), g);
    var ok, versions := ReadMapping(s, g, rows);
    if !ok {
      return BadMapping;
    }
    BaseTablesRead(s, g, rows, versions);
    if Files !in versions || Schemas !in versions || Access !in versions || Baskets !in versions {
      return Incomplete;
    }
    return Versions(g, versions);
  }
}
