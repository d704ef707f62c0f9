/** A publication that nothing interrupts: when it commits, and with which receipt. */
module PublishRun {
  import opened Numbers
  import opened Publish

  /** What is to be published, and when its receipt is written. */
  datatype Request = Request(gen: Gen, manifest: string, dictionary: string, now: int)

  /** The publisher takes one step after another, at the given times. */
  function RunAdvance(s: State, times: seq<int>): State
    decreases |times|
  {
    if times == [] then s else RunAdvance(Next(s, Advance(times[0])), times[1..])
  }

  // ----- What a publication will collect -----

  /** The version of a table once it lists the generation's data file. */
  function VersionOf(s: State, g: Gen, t: Table): int {
    |Listing(s, t)| + if g in Listing(s, t) then 0 else 1
  }

  function RowOf(s: State, g: Gen, t: Table): SnapRow {
    SnapRow(g, t, VersionOf(s, g, t))
  }

  predicate HasPaths(s: State, g: Gen) {
    Staged(s, g, PathSources).Some?
  }

  /** The mapping of the generation: the four base tables, and the path sources if it has some. */
  function ExpectedRows(s: State, g: Gen): seq<SnapRow> {
    [RowOf(s, g, Files), RowOf(s, g, Schemas), RowOf(s, g, Access), RowOf(s, g, Baskets)] +
    if HasPaths(s, g) then [RowOf(s, g, PathSources)] else []
  }

  // ----- What a publication needs -----

  /** The part is staged, and agrees with the data file if an earlier attempt has copied one. */
  predicate PartReady(s: State, g: Gen, t: Table) {
    Staged(s, g, t).Some? && ((g, t) in s.data ==> s.data[(g, t)] == Staged(s, g, t).value)
  }

  /** A staged snapshots part holds the mapping that is collected now. */
  predicate MappingStaged(s: State, g: Gen) {
    var saved := Staged(s, g, Snapshots);
    saved.Some? && saved.value.Mapping? && SameMapping(saved.value.rows, ExpectedRows(s, g))
  }

  /** A snapshots part of an earlier attempt, staged or copied, holds the mapping that is collected now. */
  predicate MappingReady(s: State, g: Gen) {
    if Staged(s, g, Snapshots).Some? then MappingStaged(s, g) && PartReady(s, g, Snapshots)
    else (g, Snapshots) in s.data ==> s.data[(g, Snapshots)] == Mapping(ExpectedRows(s, g))
  }

  /** The receipt of the request, with the time of an earlier attempt or that of the step that writes it. */
  function ReceiptOf(s: State, r: Request): Content {
    var saved := Staged(s, r.gen, Commits);
    var time := if saved.Some? && saved.value.Receipt? then saved.value.time else r.now;
    Receipt(r.gen, true, r.manifest, r.dictionary, time)
  }

  /** A receipt of an earlier attempt, staged or copied, is for the same request. */
  predicate ReceiptReady(s: State, r: Request) {
    (Staged(s, r.gen, Commits).Some? ==> Staged(s, r.gen, Commits).value == ReceiptOf(s, r)) &&
    ((r.gen, Commits) in s.data ==> s.data[(r.gen, Commits)] == ReceiptOf(s, r))
  }

  /** The condition that decides about one part. */
  predicate Need(s: State, r: Request, t: Table) {
    match t
    case Files => PartReady(s, r.gen, t)
    case Schemas => PartReady(s, r.gen, t)
    case Access => PartReady(s, r.gen, t)
    case Baskets => PartReady(s, r.gen, t)
    case PathSources => HasPaths(s, r.gen) ==> PartReady(s, r.gen, t)
    case Snapshots => MappingReady(s, r.gen)
    case Commits => ReceiptReady(s, r)
  }

  /** Everything a publication needs. */
  ghost predicate Ready(s: State, r: Request) {
    forall t: Table :: Need(s, r, t)
  }

  // ----- The course of a publication -----

  function Rank(t: Table): nat {
    match t
    case Files => 0
    case Schemas => 1
    case Access => 2
    case Baskets => 3
    case PathSources => 4
    case Snapshots => 5
    case Commits => 6
  }

  /** How many parts have been decided on the way to a stage. */
  function Met(stage: Stage): nat {
    match stage
    case Copy(t) => Rank(t)
    case List(t) => Rank(t) + 1
    case WriteSnapshots => 5
    case WriteCommit => 6
    case Done => 7
  }

  ghost predicate MetUpTo(s: State, r: Request, n: nat) {
    forall t: Table :: Rank(t) < n ==> Need(s, r, t)
  }

  /** The rows collected when a stage is reached. */
  function Collection(s: State, g: Gen, stage: Stage): seq<SnapRow> {
    var all := ExpectedRows(s, g);
    match stage
    case Copy(t) => all[..Min(Rank(t), |all|)]
    case List(t) => all[..Min(Rank(t), |all|)]
    case WriteSnapshots => all
    case WriteCommit => all
    case Done => all
  }

  /** What is staged or copied when a stage is reached. */
  predicate StageFacts(s: State, r: Request, stage: Stage) {
    && (stage.List? ==> Staged(s, r.gen, stage.table).Some? && (r.gen, stage.table) in s.data)
    && (stage == Copy(Snapshots) ==> MappingStaged(s, r.gen))
    && (stage == Copy(Commits) || stage == List(Commits) ==> Staged(s, r.gen, Commits) == Some(ReceiptOf(s, r)))
  }

  ghost predicate AtStage(s: State, r: Request, stage: Stage, results: seq<SnapRow>) {
    MetUpTo(s, r, Met(stage)) && results == Collection(s, r.gen, stage) && StageFacts(s, r, stage)
  }

  /** A publisher of the request that has met every condition so far. */
  ghost predicate OnCourse(s: State, r: Request) {
    s.publisher.Some? && var p := s.publisher.value;
    p.gen == r.gen && p.manifest == r.manifest && p.dictionary == r.dictionary && AtStage(s, r, p.stage, p.results)
  }

  /** Nothing that the publication needs differs between two states. */
  ghost predicate SameNeeds(s: State, n: State, r: Request) {
    && (forall t: Table :: Need(n, r, t) <==> Need(s, r, t))
    && ExpectedRows(n, r.gen) == ExpectedRows(s, r.gen)
    && (HasPaths(n, r.gen) <==> HasPaths(s, r.gen))
    && ReceiptOf(n, r) == ReceiptOf(s, r)
  }

  lemma {:induction false} OneMore(s: State, n: State, r: Request, t: Table)
    requires SameNeeds(s, n, r) && MetUpTo(s, r, Rank(t)) && Need(s, r, t)
    ensures MetUpTo(n, r, Rank(t) + 1)
  {
    forall u: Table | Rank(u) < Rank(t) + 1 ensures Need(n, r, u) {
      assert Need(n, r, u) <==> Need(s, r, u);
      assert Rank(u) == Rank(t) ==> u == t;
    }
  }

  lemma {:induction false} AsMany(s: State, n: State, r: Request, k: nat)
    requires SameNeeds(s, n, r) && MetUpTo(s, r, k)
    ensures MetUpTo(n, r, k)
  {
    forall u: Table | Rank(u) < k ensures Need(n, r, u) {
      assert Need(n, r, u) <==> Need(s, r, u);
    }
  }

  // ----- Copying -----

  /** The state after a part has been copied, or found to agree with the copy. */
  function Copied(s: State, g: Gen, t: Table): map<(Gen, Table), Content>
    requires Staged(s, g, t).Some?
  {
    s.data[(g, t) := Staged(s, g, t).value]
  }

  lemma {:induction false} SameCollected(s: State, n: State, r: Request)
    requires n.staging == s.staging && n.tables == s.tables
    ensures ExpectedRows(n, r.gen) == ExpectedRows(s, r.gen) && ReceiptOf(n, r) == ReceiptOf(s, r)
    ensures forall t: Table :: Staged(n, r.gen, t) == Staged(s, r.gen, t)
  {
  }

  lemma {:induction false} NeedCopied(s: State, n: State, r: Request, t: Table, u: Table)
    requires n.staging == s.staging && n.tables == s.tables
    requires PartReady(s, r.gen, t) && n.data == Copied(s, r.gen, t) && Need(s, r, t)
    ensures Need(n, r, u) <==> Need(s, r, u)
  {
    SameCollected(s, n, r);
    assert u != t ==> ((r.gen, u) in n.data <==> (r.gen, u) in s.data);
    assert (r.gen, t) in n.data && n.data[(r.gen, t)] == Staged(s, r.gen, t).value;
  }

  lemma {:induction false} CopySame(s: State, n: State, r: Request, t: Table)
    requires n.staging == s.staging && n.tables == s.tables
    requires PartReady(s, r.gen, t) && n.data == Copied(s, r.gen, t) && Need(s, r, t)
    ensures SameNeeds(s, n, r)
  {
    SameCollected(s, n, r);
    forall u: Table ensures Need(n, r, u) <==> Need(s, r, u) {
      NeedCopied(s, n, r, t, u);
    }
  }

  lemma {:induction false} CopyReady(s: State, r: Request, t: Table)
    requires AtStage(s, r, Copy(t), Collection(s, r.gen, Copy(t))) && Staged(s, r.gen, t).Some?
    ensures PartReady(s, r.gen, t) <==> Need(s, r, t)
  {
  }

  lemma {:induction false} CopySucceeds(s: State, n: State, r: Request, t: Table, results: seq<SnapRow>)
    requires AtStage(s, r, Copy(t), results) && PartReady(s, r.gen, t)
    requires n.staging == s.staging && n.tables == s.tables && n.data == Copied(s, r.gen, t)
    ensures SameNeeds(s, n, r) && AtStage(n, r, List(t), results)
  {
    CopyReady(s, r, t);
    CopySame(s, n, r, t);
    OneMore(s, n, r, t);
  }

  /** One step of the publication: it goes on to the next stage, or ends because a need is not met. */
  ghost predicate GoesOn(s: State, n: State, r: Request) {
    if n.publisher.Some? then OnCourse(n, r) && SameNeeds(s, n, r) else !Ready(s, r)
  }

  lemma {:induction false} CopyCourse(s: State, r: Request, t: Table)
    requires OnCourse(s, r) && s.publisher.value.stage == Copy(t)
    ensures GoesOn(s, CopyPart(s, s.publisher.value, t), r)
  {
    var p, n := s.publisher.value, CopyPart(s, s.publisher.value, t);
    if Staged(s, r.gen, t).None? {
      NothingToCopy(s, r, t);
    } else if PartReady(s, r.gen, t) {
      assert n.data == Copied(s, r.gen, t);
      CopySucceeds(s, n, r, t, p.results);
    } else {
      CopyReady(s, r, t);
    }
  }

  /** Only path sources can be missing. */
  lemma {:induction false} NothingToCopy(s: State, r: Request, t: Table)
    requires OnCourse(s, r) && s.publisher.value.stage == Copy(t) && Staged(s, r.gen, t).None?
    ensures GoesOn(s, CopyPart(s, s.publisher.value, t), r)
  {
    var n := CopyPart(s, s.publisher.value, t);
    if t.PathSources? {
      SamePublication(s, n, r);
      OneMore(s, n, r, t);
    } else {
      assert !Need(s, r, t);
    }
  }

  lemma {:induction false} SamePublication(s: State, n: State, r: Request)
    requires n.staging == s.staging && n.tables == s.tables && n.data == s.data
    ensures SameNeeds(s, n, r)
  {
    SameCollected(s, n, r);
  }

  // ----- Listing -----

  lemma {:induction false} ListedVersion(s: State, n: State, g: Gen, t: Table)
    requires n.tables == s.tables[t := if g in Listing(s, t) then Listing(s, t) else Listing(s, t) + [g]]
    ensures forall u: Table :: VersionOf(n, g, u) == VersionOf(s, g, u)
  {
  }

  /** Listing a data file does not change which version the generation's mapping names. */
  lemma {:induction false} ListSame(s: State, n: State, r: Request, t: Table)
    requires n.staging == s.staging && n.data == s.data
    requires n.tables == s.tables[t := if r.gen in Listing(s, t) then Listing(s, t) else Listing(s, t) + [r.gen]]
    ensures SameNeeds(s, n, r)
  {
    ListedVersion(s, n, r.gen, t);
    assert ExpectedRows(n, r.gen) == ExpectedRows(s, r.gen);
  }

  lemma {:induction false} NextRow(s: State, g: Gen, t: Table)
    requires t.PathSources? ==> HasPaths(s, g)
    ensures Collection(s, g, AfterList(t)) ==
      Collection(s, g, List(t)) + if Rank(t) < 5 then [RowOf(s, g, t)] else []
  {
  }

  lemma {:induction false} NothingStagedAfterList(s: State, r: Request, t: Table)
    ensures StageFacts(s, r, AfterList(t)) && Met(AfterList(t)) == Rank(t) + 1
  {
  }

  lemma {:induction false} ListedRows(s: State, p: Publisher, t: Table)
    ensures var n := ListPart(s, p, t);
      && n.publisher == Some(p.(stage := AfterList(t),
                                results := p.results + if Rank(t) < 5 then [RowOf(s, p.gen, t)] else []))
      && n.staging == s.staging && n.data == s.data
      && n.tables == s.tables[t := if p.gen in Listing(s, t) then Listing(s, t) else Listing(s, t) + [p.gen]]
  {
    assert p.results + [] == p.results;
  }

  lemma {:induction false} ListCourse(s: State, r: Request, t: Table)
    requires OnCourse(s, r) && s.publisher.value.stage == List(t)
    ensures GoesOn(s, ListPart(s, s.publisher.value, t), r)
  {
    var p, n := s.publisher.value, ListPart(s, s.publisher.value, t);
    ListedRows(s, p, t);
    ListSame(s, n, r, t);
    AsMany(s, n, r, Rank(t) + 1);
    NothingStagedAfterList(n, r, t);
    NextRow(s, r.gen, t);
    assert Collection(n, r.gen, AfterList(t)) == Collection(s, r.gen, AfterList(t));
  }

  // ----- Writing the mapping and the receipt -----

  lemma {:induction false} RowFound(rows: seq<SnapRow>, k: nat)
    requires k < |rows| && forall i, j :: 0 <= i < j < |rows| ==> rows[i].table != rows[j].table
    ensures SavedVersion(rows, rows[k].table) == Some(rows[k].version)
  {
    if k > 0 {
      RowFound(rows[1..], k - 1);
    }
  }

  /** The mapping agrees with itself: it names every table once. */
  lemma {:induction false} SameAsItself(s: State, g: Gen)
    ensures SameMapping(ExpectedRows(s, g), ExpectedRows(s, g))
  {
    var rows := ExpectedRows(s, g);
    forall k | 0 <= k < |rows| ensures SavedVersion(rows, rows[k].table) == Some(rows[k].version) {
      RowFound(rows, k);
    }
  }

  /** Staging one part leaves the others, and the mapping to be collected, as they were. */
  lemma {:induction false} PartWritten(s: State, n: State, g: Gen, t: Table, c: Content)
    requires n.data == s.data && n.tables == s.tables && n.staging == WithPart(s, g, t, c)
    requires t.Snapshots? || t.Commits?
    ensures Staged(n, g, t) == Some(c)
    ensures forall u: Table :: u != t ==> Staged(n, g, u) == Staged(s, g, u)
    ensures HasPaths(n, g) <==> HasPaths(s, g)
    ensures ExpectedRows(n, g) == ExpectedRows(s, g)
  {
  }

  lemma {:induction false} SnapshotsWritten(s: State, n: State, r: Request)
    requires Staged(s, r.gen, Snapshots).None? && n.data == s.data && n.tables == s.tables
    requires n.staging == WithPart(s, r.gen, Snapshots, Mapping(ExpectedRows(s, r.gen)))
    ensures SameNeeds(s, n, r) && MappingStaged(n, r.gen)
  {
    SameAsItself(s, r.gen);
    PartWritten(s, n, r.gen, Snapshots, Mapping(ExpectedRows(s, r.gen)));
    forall t: Table ensures Need(n, r, t) <==> Need(s, r, t) {
      if t.Snapshots? {
        assert MappingStaged(n, r.gen);
      }
    }
  }

  lemma {:induction false} SnapshotsCourse(s: State, r: Request)
    requires OnCourse(s, r) && s.publisher.value.stage.WriteSnapshots?
    ensures GoesOn(s, WriteSnapshotsPart(s, s.publisher.value), r)
  {
    var p, n := s.publisher.value, WriteSnapshotsPart(s, s.publisher.value);
    if Staged(s, r.gen, Snapshots).None? {
      SnapshotsWritten(s, n, r);
      AsMany(s, n, r, 5);
    } else if MappingStaged(s, r.gen) {
      SamePublication(s, n, r);
      AsMany(s, n, r, 5);
    } else {
      assert !Need(s, r, Snapshots);
    }
  }

  lemma {:induction false} CommitWritten(s: State, n: State, r: Request)
    requires Staged(s, r.gen, Commits).None? && n.data == s.data && n.tables == s.tables
    requires n.staging == WithPart(s, r.gen, Commits, ReceiptOf(s, r))
    ensures SameNeeds(s, n, r) && Staged(n, r.gen, Commits) == Some(ReceiptOf(n, r))
  {
    PartWritten(s, n, r.gen, Commits, ReceiptOf(s, r));
    assert ReceiptOf(n, r) == ReceiptOf(s, r);
    forall t: Table ensures Need(n, r, t) <==> Need(s, r, t) {
    }
  }

  lemma {:induction false} CommitCourse(s: State, r: Request)
    requires OnCourse(s, r) && s.publisher.value.stage.WriteCommit?
    ensures GoesOn(s, WriteCommitPart(s, s.publisher.value, r.now), r)
  {
    var p, n := s.publisher.value, WriteCommitPart(s, s.publisher.value, r.now);
    if Staged(s, r.gen, Commits).None? {
      CommitWritten(s, n, r);
      AsMany(s, n, r, 6);
    } else if Staged(s, r.gen, Commits).value == ReceiptOf(s, r) {
      SamePublication(s, n, r);
      AsMany(s, n, r, 6);
    } else {
      assert !Need(s, r, Commits);
    }
  }

  // ----- Whole publications -----

  /** Steps from a stage to the one that writes the receipt; negative behind it. */
  function StepsToReceipt(stage: Stage, paths: bool): int {
    match stage
    case Copy(Files) => if paths then 13 else 12
    case List(Files) => if paths then 12 else 11
    case Copy(Schemas) => if paths then 11 else 10
    case List(Schemas) => if paths then 10 else 9
    case Copy(Access) => if paths then 9 else 8
    case List(Access) => if paths then 8 else 7
    case Copy(Baskets) => if paths then 7 else 6
    case List(Baskets) => if paths then 6 else 5
    case Copy(PathSources) => if paths then 5 else 4
    case List(PathSources) => 4
    case WriteSnapshots => 3
    case Copy(Snapshots) => 2
    case List(Snapshots) => 1
    case WriteCommit => 0
    case Copy(Commits) => -1
    case List(Commits) => -2
    case Done => -3
  }

  function StageAfter(stage: Stage, paths: bool): Stage {
    match stage
    case Copy(t) => if t.PathSources? && !paths then WriteSnapshots else List(t)
    case List(t) => AfterList(t)
    case WriteSnapshots => Copy(Snapshots)
    case WriteCommit => Copy(Commits)
    case Done => Done
  }

  lemma {:induction false} OneStepCloser(stage: Stage, paths: bool)
    requires !stage.Done? && (stage == List(PathSources) ==> paths)
    ensures StepsToReceipt(StageAfter(stage, paths), paths) == StepsToReceipt(stage, paths) - 1
  {
  }

  lemma {:induction false} MovesOn(s: State, time: int)
    requires s.publisher.Some? && !s.publisher.value.stage.Done?
    ensures var p, n := s.publisher.value, Next(s, Advance(time));
      n.publisher.Some? ==> n.publisher.value.stage == StageAfter(p.stage, HasPaths(s, p.gen))
  {
  }

  /** One step of a publication on its course. */
  lemma {:induction false} CourseStep(s: State, r: Request, time: int)
    requires OnCourse(s, r) && !s.publisher.value.stage.Done?
    requires s.publisher.value.stage.WriteCommit? ==> time == r.now
    ensures GoesOn(s, Next(s, Advance(time)), r)
  {
    var p := s.publisher.value;
    match p.stage
    case Copy(t) => CopyCourse(s, r, t);
    case List(t) => ListCourse(s, r, t);
    case WriteSnapshots => SnapshotsCourse(s, r);
    case WriteCommit => CommitCourse(s, r);
  }

  /** Only the listing of a receipt commits anything. */
  lemma {:induction false} CommitsOnlyListed(s: State, time: int, g: Gen)
    requires s.publisher.None? || (s.publisher.value.gen == g ==> s.publisher.value.stage != List(Commits))
    ensures Committed(Next(s, Advance(time)), g) <==> Committed(s, g)
  {
  }

  /** Where the listing of the receipt is reached, nothing was missing, and it commits the generation. */
  lemma {:induction false} ReceiptListed(s: State, r: Request, time: int)
    requires OnCourse(s, r) && s.publisher.value.stage == List(Commits)
    ensures Ready(s, r) && Committed(Next(s, Advance(time)), r.gen)
    ensures (r.gen, Commits) in s.data && s.data[(r.gen, Commits)] == ReceiptOf(s, r)
  {
    assert Need(s, r, Commits);
    forall t: Table ensures Need(s, r, t) {
      assert Rank(t) < 7;
    }
  }

  /** What a run of the publisher comes to: committed if and only if it was before or nothing is missing, and
      then with the receipt of the request. */
  ghost predicate Outcome(s: State, n: State, r: Request) {
    (Committed(n, r.gen) <==> Committed(s, r.gen) || Ready(s, r)) &&
    (Ready(s, r) ==> (r.gen, Commits) in n.data && n.data[(r.gen, Commits)] == ReceiptOf(s, r))
  }

  /** A publisher that is gone leaves everything as it is. */
  lemma {:induction false} NobodyAdvances(s: State, times: seq<int>)
    requires s.publisher.None?
    ensures RunAdvance(s, times) == s
    decreases |times|
  {
    if times != [] {
      NobodyAdvances(Next(s, Advance(times[0])), times[1..]);
    }
  }

  /** Behind the listing of the receipt there is nothing left to do. */
  lemma {:induction false} DoneStays(s: State, times: seq<int>)
    requires s.publisher.Some? && s.publisher.value.stage.Done?
    ensures RunAdvance(s, times).tables == s.tables && RunAdvance(s, times).data == s.data
  {
    if times != [] {
      NobodyAdvances(Next(s, Advance(times[0])), times[1..]);
    }
  }

  lemma {:induction false} SameOutcome(s: State, next: State, n: State, r: Request)
    requires SameNeeds(s, next, r) && Outcome(next, n, r)
    requires Committed(next, r.gen) <==> Committed(s, r.gen)
    ensures Outcome(s, n, r)
  {
    assert Ready(next, r) <==> Ready(s, r) by {
      assert forall t: Table :: Need(next, r, t) <==> Need(s, r, t);
    }
  }

  lemma {:induction false} CourseRuns(s: State, r: Request, times: seq<int>)
    requires OnCourse(s, r) && !s.publisher.value.stage.Done?
    requires var k := StepsToReceipt(s.publisher.value.stage, HasPaths(s, r.gen));
      |times| >= k + 3 && (0 <= k ==> times[k] == r.now)
    ensures Outcome(s, RunAdvance(s, times), r)
    decreases |times|
  {
    var stage, paths := s.publisher.value.stage, HasPaths(s, r.gen);
    var next := Next(s, Advance(times[0]));
    OneStepCloser(stage, paths);
    MovesOn(s, times[0]);
    CourseStep(s, r, times[0]);
    if stage == List(Commits) {
      LastListing(s, r, times);
    } else {
      CommitsOnlyListed(s, times[0], r.gen);
      if next.publisher.None? {
        NobodyAdvances(next, times[1..]);
      } else {
        CourseRuns(next, r, times[1..]);
        SameOutcome(s, next, RunAdvance(next, times[1..]), r);
      }
    }
  }

  lemma {:induction false} LastListing(s: State, r: Request, times: seq<int>)
    requires OnCourse(s, r) && s.publisher.value.stage == List(Commits) && times != []
    ensures Outcome(s, RunAdvance(s, times), r)
  {
    ReceiptListed(s, r, times[0]);
    DoneStays(Next(s, Advance(times[0])), times[1..]);
  }

  /** The step of an uninterrupted publication that writes the receipt. */
  function ReceiptStep(s: State, g: Gen): nat {
    if HasPaths(s, g) then 13 else 12
  }

  /** A publication of at least sixteen steps that nothing interrupts ends committed if and only if it was
      committed before or every part it needs is staged and agrees with what earlier attempts have left. The
      receipt carries its manifest, its dictionary, and the time of the step that wrote it. */
  lemma {:induction false} PublishesExactly(s: State, g: Gen, manifest: string, dictionary: string, times: seq<int>)
    requires s.publisher.None? && g != "" && |times| >= 16
    ensures var r := Request(g, manifest, dictionary, times[ReceiptStep(s, g)]);
      Outcome(s, RunAdvance(Next(s, Begin(g, manifest, dictionary)), times), r)
  {
    var r := Request(g, manifest, dictionary, times[ReceiptStep(s, g)]);
    var begun := Next(s, Begin(g, manifest, dictionary));
    SamePublication(s, begun, r);
    assert Collection(begun, g, Copy(Files)) == [];
    CourseRuns(begun, r, times);
    SameOutcome(s, begun, RunAdvance(begun, times), r);
  }

  lemma {:induction false} RunKeeps(s: State, times: seq<int>)
    requires Inv(s)
    ensures Inv(RunAdvance(s, times))
    decreases |times|
  {
    if times != [] {
      StepKeepsInvariant(s, Advance(times[0]));
      RunKeeps(Next(s, Advance(times[0])), times[1..]);
    }
  }

  /** A generation that has been published is what a reader who asks for it gets. */
  method ReadPublished(s: State, g: Gen, manifest: string, dictionary: string, times: seq<int>) returns (r: Resolved)
    requires Inv(s) && s.publisher.None? && g != "" && |times| >= 16
    requires Ready(s, Request(g, manifest, dictionary, times[ReceiptStep(s, g)]))
    ensures r.Versions? && r.gen == g && {Files, Schemas, Access, Baskets} <= r.versions.Keys
  {
    var begun := Next(s, Begin(g, manifest, dictionary));
    PublishesExactly(s, g, manifest, dictionary, times);
    StepKeepsInvariant(s, Begin(g, manifest, dictionary));
    RunKeeps(begun, times);
    assert Eligible(RunAdvance(begun, times), g, g);
    r := ResolveSources(RunAdvance(begun, times), g);
  }
}
