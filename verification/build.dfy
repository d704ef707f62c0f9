/** Building an index in durable segments: workers buffer file metadata and commit whole
    segment directories by a rename; a later run restores or quarantines the segments it
    finds, builds the rest, and compacts. The process can die between any two steps. */
module Build {
  import opened Numbers

  type Path = string

  /** A segment directory: which worker directory, and its number there. */
  datatype SegId = SegId(worker: nat, index: nat)

  datatype Table = FilesTable | BasketsTable

  datatype Worker = Worker(
    dir: nat, started: bool, segment: nat, flushing: bool, buffer: seq<Path>, staged: set<Path>,
    claimed: Option<Path>, appended: bool, failed: bool, finished: bool)

  datatype Phase =
    | Idle
    | Restoring(todo: set<SegId>, ok: set<Path>)
    | Building(next: nat, ok: set<Path>, workers: seq<Worker>)
    | Compacting

  /** `segments`, `pending`, `rejected`, `workerDirs` and `finals` are on disk; the phase is not. */
  datatype State = State(
    segments: map<SegId, seq<Path>>, pending: set<SegId>, rejected: set<SegId>, workerDirs: set<nat>,
    finals: map<Table, multiset<Path>>, phase: Phase)

  // ----- What the segments hold -----

  /** The rows of all segments together, as the compaction reads them. */
  ghost function Total(m: map<SegId, seq<Path>>): multiset<Path>
    decreases |m|
  {
    if m == map[] then multiset{}
    else
      var k :| k in m;
      multiset(m[k]) + Total(m - {k})
  }

  lemma {:induction false} RemoveShrinks(m: map<SegId, seq<Path>>, k: SegId)
    requires k in m
    ensures |m - {k}| < |m|
  {
    assert (m - {k}).Keys == m.Keys - {k};
    assert |(m - {k}).Keys| == |m - {k}| && |m.Keys| == |m|;
  }

  /** The order in which segments are read does not matter. */
  lemma {:induction false} TotalWithout(m: map<SegId, seq<Path>>, k: SegId)
    requires k in m
    ensures Total(m) == multiset(m[k]) + Total(m - {k})
    decreases |m|
  {
    var j :| j in m && Total(m) == multiset(m[j]) + Total(m - {j});
    if j != k {
      RemoveShrinks(m, j);
      RemoveShrinks(m, k);
      TotalWithout(m - {j}, k);
      TotalWithout(m - {k}, j);
      assert m - {j} - {k} == m - {k} - {j};
    }
  }

  lemma {:induction false} TotalAdd(m: map<SegId, seq<Path>>, k: SegId, paths: seq<Path>)
    requires k !in m
    ensures Total(m[k := paths]) == multiset(paths) + Total(m)
  {
    TotalWithout(m[k := paths], k);
    assert m[k := paths] - {k} == m;
  }

  lemma {:induction false} TotalHas(m: map<SegId, seq<Path>>, k: SegId, p: Path)
    requires k in m && p in m[k]
    ensures Total(m)[p] >= 1
  {
    TotalWithout(m, k);
    assert multiset(m[k])[p] >= 1;
  }

  lemma {:induction false} TotalFrom(m: map<SegId, seq<Path>>, p: Path) returns (k: SegId)
    requires Total(m)[p] > 0
    ensures k in m && p in m[k]
    decreases |m|
  {
    var j :| j in m && Total(m) == multiset(m[j]) + Total(m - {j});
    if p in m[j] {
      k := j;
    } else {
      assert multiset(m[j])[p] == 0;
      RemoveShrinks(m, j);
      k := TotalFrom(m - {j}, p);
    }
  }

  // ----- Steps -----

  datatype Step =
    | StartRun
    | RestoreSegment(id: SegId, accept: bool)
    | StartBuilding(base: nat, count: nat)
    | OpenWriter(w: nat)
    | Claim(w: nat)
    | AppendFile(w: nat)
    | BeginFlush(w: nat)
    | CommitFlush(w: nat)
    | RecordOk(w: nat)
    | RecordError(w: nat)
    | FailWorker(w: nat)
    | FinishWorker(w: nat)
    | Validate
    | Compact(table: Table)
    | Crash

  predicate NoRepeats(paths: seq<Path>) {
    forall j, k :: 0 <= j < k < |paths| ==> paths[j] != paths[k]
  }

  /** A receipt can only be accepted if it lists planned files, each once, none of them restored before.
      Other checks (checksums, sizes, times, row contents) may reject any segment. */
  predicate Acceptable(plan: seq<Path>, ok: set<Path>, files: seq<Path>) {
    files != [] && NoRepeats(files) && forall k :: 0 <= k < |files| ==> files[k] in plan && files[k] !in ok
  }

  /** One more than the largest worker directory, or 0. */
  predicate IsNextWorkerId(id: nat, dirs: set<nat>) {
    (forall d :: d in dirs ==> d < id) && (id == 0 || id - 1 in dirs)
  }

  method NextCheckpointWorkerId(dirs: set<nat>) returns (id: nat)
    ensures IsNextWorkerId(id, dirs) && id !in dirs
  {
    id := 0;
    var todo := dirs;
    while todo != {}
      invariant todo <= dirs && IsNextWorkerId(id, dirs - todo)
    {
      var d :| d in todo;
      assert dirs - (todo - {d}) == dirs - todo + {d};
      id := Max(id, d + 1);
      todo := todo - {d};
    }
    assert dirs - todo == dirs;
  }

  function FreshWorkers(base: nat, count: nat): seq<Worker> {
    seq(count, w requires 0 <= w < count => Worker(base + w, false, 0, false, [], {}, None, false, false, false))
  }

  predicate Running(s: State, w: nat) {
    s.phase.Building? && w < |s.phase.workers| && !s.phase.workers[w].failed && !s.phase.workers[w].finished
  }

  predicate Enabled(plan: seq<Path>, s: State, step: Step) {
    match step
    case StartRun => s.phase.Idle?
    case RestoreSegment(id, accept) =>
      s.phase.Restoring? && id in s.phase.todo && id in s.segments &&
      (accept ==> Acceptable(plan, s.phase.ok, s.segments[id]))
    case StartBuilding(base, count) => s.phase.Restoring? && s.phase.todo == {} && IsNextWorkerId(base, s.workerDirs)
    case OpenWriter(w) => Running(s, w) && !s.phase.workers[w].started
    case Claim(w) =>
      Running(s, w) && s.phase.workers[w].started && s.phase.workers[w].claimed.None? &&
      !s.phase.workers[w].flushing && s.phase.next < |plan|
    case AppendFile(w) =>
      Running(s, w) && s.phase.workers[w].claimed.Some? && !s.phase.workers[w].appended && !s.phase.workers[w].flushing
    case BeginFlush(w) =>
      Running(s, w) && s.phase.workers[w].started && !s.phase.workers[w].flushing && s.phase.workers[w].buffer != [] &&
      (s.phase.workers[w].claimed.None? || s.phase.workers[w].appended)
    case CommitFlush(w) => Running(s, w) && s.phase.workers[w].flushing
    case RecordOk(w) =>
      Running(s, w) && s.phase.workers[w].claimed.Some? && s.phase.workers[w].appended && !s.phase.workers[w].flushing
    case RecordError(w) => Running(s, w) && s.phase.workers[w].claimed.Some? && !s.phase.workers[w].appended
    case FailWorker(w) => Running(s, w)
    case FinishWorker(w) =>
      Running(s, w) && s.phase.workers[w].started && s.phase.workers[w].claimed.None? &&
      s.phase.next >= |plan| && s.phase.workers[w].buffer == [] && !s.phase.workers[w].flushing
    case Validate =>
      s.phase.Building? &&
      forall w :: 0 <= w < |s.phase.workers| ==> s.phase.workers[w].failed || s.phase.workers[w].finished
    case Compact(t) => s.phase.Compacting? && t !in s.finals
    case Crash => true
  }

  function NextSegment(w: Worker): SegId {
    SegId(w.dir, w.segment)
  }

  function SetWorker(s: State, w: nat, x: Worker): State
    requires s.phase.Building? && w < |s.phase.workers|
  {
    s.(phase := s.phase.(workers := s.phase.workers[w := x]))
  }

  /** A worker that dies loses its buffer; the files it had reported are errors again. Its committed
      segments stay on disk. */
  function Fail(s: State, w: nat): State
    requires s.phase.Building? && w < |s.phase.workers|
  {
    var x := s.phase.workers[w];
    var dead := x.(failed := true, buffer := [], claimed := None, appended := false, flushing := false);
    s.(phase := s.phase.(ok := s.phase.ok - x.staged, workers := s.phase.workers[w := dead]))
  }

  function WorkerStep(plan: seq<Path>, s: State, step: Step): State
    requires Enabled(plan, s, step)
    requires !step.StartRun? && !step.RestoreSegment? && !step.StartBuilding? && !step.Validate? && !step.Compact? &&
      !step.Crash?
  {
    var x := s.phase.workers[step.w];
    match step
    case OpenWriter(w) =>
      if x.dir in s.workerDirs then Fail(s, w)
      else SetWorker(s, w, x.(started := true)).(workerDirs := s.workerDirs + {x.dir})
    case Claim(w) =>
      var p := plan[s.phase.next];
      var t := s.(phase := s.phase.(next := s.phase.next + 1));
      if p in s.phase.ok then t else SetWorker(t, w, x.(claimed := Some(p), appended := false))
    case AppendFile(w) => SetWorker(s, w, x.(buffer := x.buffer + [x.claimed.value], appended := true))
    case BeginFlush(w) =>
      var id := NextSegment(x);
      if id in s.pending || id in s.segments then Fail(s, w)
      else SetWorker(s, w, x.(flushing := true)).(pending := s.pending + {id})
    case CommitFlush(w) =>
      var id := NextSegment(x);
      SetWorker(s, w, x.(flushing := false, buffer := [], segment := x.segment + 1)).(
        segments := s.segments[id := x.buffer], pending := s.pending - {id})
    case RecordOk(w) =>
      var t := SetWorker(s, w, x.(staged := x.staged + {x.claimed.value}, claimed := None, appended := false));
      t.(phase := t.phase.(ok := s.phase.ok + {x.claimed.value}))
    case RecordError(w) => SetWorker(s, w, x.(claimed := None))
    case FailWorker(w) => Fail(s, w)
    case FinishWorker(w) => SetWorker(s, w, x.(finished := true))
  }

  ghost function Next(plan: seq<Path>, s: State, step: Step): State
    requires Enabled(plan, s, step)
  {
    match step
    case StartRun => s.(phase := Restoring(s.segments.Keys, {}))
    case RestoreSegment(id, accept) =>
      if accept then
        s.(phase := Restoring(s.phase.todo - {id}, s.phase.ok + set p | p in s.segments[id]))
      else if id in s.rejected then s.(phase := Idle)
      else
        s.(segments := s.segments - {id}, rejected := s.rejected + {id}, phase := s.phase.(todo := s.phase.todo - {id}))
    case StartBuilding(base, count) => s.(phase := Building(0, s.phase.ok, FreshWorkers(base, count)))
    case Validate =>
      s.(phase := if plan != [] && forall k :: 0 <= k < |plan| ==> plan[k] in s.phase.ok then Compacting else Idle)
    case Compact(t) => Compacted(s, t)
    case Crash => s.(phase := Idle)
    case _ => WorkerStep(plan, s, step)
  }

  /** One table compacted from all segments that are not rejected. */
  ghost function Compacted(s: State, t: Table): State {
    s.(finals := s.finals[t := Total(s.segments)])
  }

  // ----- Invariant: directories -----

  /** The segment directories of a worker directory have numbers below the worker's counter. */
  ghost predicate OwnIds(s: State, x: Worker) {
    && (!x.started ==> x.dir !in s.workerDirs)
    && (x.started ==> x.dir in s.workerDirs)
    && (forall id :: (id in s.segments || id in s.rejected) && id.worker == x.dir ==> id.index < x.segment)
    && (forall id :: id in s.pending && id.worker == x.dir ==>
          id.index < x.segment || (x.flushing && id == NextSegment(x)))
    && (x.flushing ==> NextSegment(x) in s.pending)
  }

  ghost predicate IdsOk(s: State) {
    && (forall id :: id in s.segments || id in s.rejected || id in s.pending ==> id.worker in s.workerDirs)
    && (forall id :: id in s.rejected ==> id !in s.segments)
    && (s.phase.Restoring? ==> s.phase.todo <= s.segments.Keys)
  }

  ghost predicate WorkersIdsOk(s: State) {
    s.phase.Building? ==>
      (forall w :: 0 <= w < |s.phase.workers| && Running(s, w) ==> OwnIds(s, s.phase.workers[w])) &&
      (forall v, w :: 0 <= v < w < |s.phase.workers| ==> s.phase.workers[v].dir != s.phase.workers[w].dir)
  }

  /** New worker directories and segment names are always free, and a quarantine name is never taken. */
  lemma {:induction false} NoCollision(plan: seq<Path>, s: State, step: Step)
    requires IdsOk(s) && WorkersIdsOk(s) && Enabled(plan, s, step)
    ensures step.OpenWriter? ==> s.phase.workers[step.w].dir !in s.workerDirs
    ensures step.BeginFlush? ==>
      var id := NextSegment(s.phase.workers[step.w]); id !in s.pending && id !in s.segments && id !in s.rejected
    ensures step.RestoreSegment? ==> step.id !in s.rejected
  {
    if step.OpenWriter? || step.BeginFlush? {
      assert OwnIds(s, s.phase.workers[step.w]);
    }
  }

  lemma {:induction false} StepKeepsIds(plan: seq<Path>, s: State, step: Step)
    requires IdsOk(s) && WorkersIdsOk(s) && Enabled(plan, s, step)
    ensures IdsOk(Next(plan, s, step))
  {
    NoCollision(plan, s, step);
    if step.CommitFlush? {
      assert OwnIds(s, s.phase.workers[step.w]);
    }
  }

  predicate IsWorkerStep(step: Step) {
    !step.StartRun? && !step.RestoreSegment? && !step.StartBuilding? && !step.Validate? && !step.Compact? &&
      !step.Crash?
  }

  /** A step touches only the directory of the worker that takes it. */
  ghost predicate OnlyDir(s: State, n: State, d: nat) {
    && (forall id: SegId :: id.worker != d ==> (id in n.segments <==> id in s.segments))
    && (forall id: SegId :: id.worker != d ==> (id in n.rejected <==> id in s.rejected))
    && (forall id: SegId :: id.worker != d ==> (id in n.pending <==> id in s.pending))
    && (forall e: nat :: e != d ==> (e in n.workerDirs <==> e in s.workerDirs))
  }

  lemma {:induction false} OwnIdsFrame(s: State, n: State, d: nat, x: Worker)
    requires OnlyDir(s, n, d) && x.dir != d && OwnIds(s, x)
    ensures OwnIds(n, x)
  {
  }

  lemma {:induction false} ActingWorkerAlone(plan: seq<Path>, s: State, step: Step)
    requires Enabled(plan, s, step) && IsWorkerStep(step)
    ensures var n := WorkerStep(plan, s, step);
      n.phase.Building? && |n.phase.workers| == |s.phase.workers| &&
      n.phase.workers[step.w].dir == s.phase.workers[step.w].dir &&
      (forall v :: 0 <= v < |n.phase.workers| && v != step.w ==> n.phase.workers[v] == s.phase.workers[v])
  {
  }

  lemma {:induction false} ActingWorkerDir(plan: seq<Path>, s: State, step: Step)
    requires IdsOk(s) && WorkersIdsOk(s) && Enabled(plan, s, step) && IsWorkerStep(step)
    ensures OnlyDir(s, WorkerStep(plan, s, step), s.phase.workers[step.w].dir)
  {
  }

  lemma {:induction false} ActingWorkerOwn(plan: seq<Path>, s: State, step: Step)
    requires IdsOk(s) && WorkersIdsOk(s) && Enabled(plan, s, step) && IsWorkerStep(step)
    ensures var n := WorkerStep(plan, s, step);
      n.phase.Building? && |n.phase.workers| == |s.phase.workers| &&
      (Running(n, step.w) ==> OwnIds(n, n.phase.workers[step.w]))
  {
    assert OwnIds(s, s.phase.workers[step.w]);
    NoCollision(plan, s, step);
  }

  lemma {:induction false} ActingWorkerIds(plan: seq<Path>, s: State, step: Step)
    requires IdsOk(s) && WorkersIdsOk(s) && Enabled(plan, s, step) && IsWorkerStep(step)
    ensures var n := WorkerStep(plan, s, step);
      n.phase.Building? && |n.phase.workers| == |s.phase.workers| &&
      OnlyDir(s, n, s.phase.workers[step.w].dir) && n.phase.workers[step.w].dir == s.phase.workers[step.w].dir &&
      (forall v :: 0 <= v < |n.phase.workers| && v != step.w ==> n.phase.workers[v] == s.phase.workers[v])
    ensures var n := WorkerStep(plan, s, step); Running(n, step.w) ==> OwnIds(n, n.phase.workers[step.w])
  {
    ActingWorkerAlone(plan, s, step);
    ActingWorkerDir(plan, s, step);
    ActingWorkerOwn(plan, s, step);
  }

  lemma {:induction false} OtherWorkerIds(plan: seq<Path>, s: State, step: Step, v: nat)
    requires IdsOk(s) && WorkersIdsOk(s) && Enabled(plan, s, step) && IsWorkerStep(step)
    requires v < |s.phase.workers| && v != step.w && Running(s, v)
    ensures OwnIds(WorkerStep(plan, s, step), s.phase.workers[v])
  {
    ActingWorkerIds(plan, s, step);
    assert OwnIds(s, s.phase.workers[v]);
    OwnIdsFrame(s, WorkerStep(plan, s, step), s.phase.workers[step.w].dir, s.phase.workers[v]);
  }

  lemma {:induction false} StepKeepsWorkersIds(plan: seq<Path>, s: State, step: Step)
    requires IdsOk(s) && WorkersIdsOk(s) && Enabled(plan, s, step)
    ensures WorkersIdsOk(Next(plan, s, step))
  {
    if IsWorkerStep(step) {
      var n := WorkerStep(plan, s, step);
      ActingWorkerIds(plan, s, step);
      forall v | 0 <= v < |n.phase.workers| && Running(n, v) ensures OwnIds(n, n.phase.workers[v]) {
        if v != step.w {
          OtherWorkerIds(plan, s, step, v);
        }
      }
    }
  }

  // ----- Invariant: every file at most once -----

  function One(b: bool): nat {
    if b then 1 else 0
  }

  /** How often a worker holds a file that is not in a segment yet. */
  ghost function Holds(x: Worker, p: Path): nat {
    multiset(x.buffer)[p] + One(x.claimed == Some(p) && !x.appended)
  }

  ghost function AllHold(workers: seq<Worker>, p: Path): nat {
    if workers == [] then 0 else AllHold(workers[..|workers| - 1], p) + Holds(workers[|workers| - 1], p)
  }

  predicate Unclaimed(plan: seq<Path>, next: nat, ok: set<Path>, p: Path) {
    p !in ok && exists i :: next <= i < |plan| && plan[i] == p
  }

  /** How often a file is, or can still get, into the segments. */
  ghost function Reach(plan: seq<Path>, s: State, p: Path): nat {
    Total(s.segments)[p] +
    if s.phase.Building?
    then AllHold(s.phase.workers, p) + One(Unclaimed(plan, s.phase.next, s.phase.ok, p))
    else 0
  }

  /** No file is in two segments, nor on the way into a second one. */
  ghost predicate AtMostOnce(plan: seq<Path>, s: State) {
    forall p :: Reach(plan, s, p) <= 1
  }

  lemma {:induction false} ReplaceHold(workers: seq<Worker>, w: nat, x: Worker, p: Path)
    requires w < |workers|
    ensures AllHold(workers[w := x], p) + Holds(workers[w], p) == AllHold(workers, p) + Holds(x, p)
  {
    var n := |workers| - 1;
    if w == n {
      assert workers[w := x][..n] == workers[..n];
    } else {
      ReplaceHold(workers[..n], w, x, p);
      assert workers[w := x][..n] == workers[..n][w := x];
    }
  }

  lemma {:induction false} FreshHoldNothing(base: nat, count: nat, p: Path)
    ensures AllHold(FreshWorkers(base, count), p) == 0
  {
    if count > 0 {
      FreshHoldNothing(base, count - 1, p);
      assert FreshWorkers(base, count)[..count - 1] == FreshWorkers(base, count - 1);
    }
  }

  predicate ClaimedBefore(plan: seq<Path>, next: nat, p: Path) {
    exists i :: 0 <= i < next && i < |plan| && plan[i] == p
  }

  lemma {:induction false} NotClaimable(plan: seq<Path>, next: nat, ok: set<Path>, p: Path)
    requires NoRepeats(plan) && ClaimedBefore(plan, next, p)
    ensures !Unclaimed(plan, next, ok, p)
  {
  }

  /** What a worker's own record says. */
  ghost predicate WorkerOk(plan: seq<Path>, s: State, next: nat, x: Worker) {
    && (x.claimed.Some? ==> ClaimedBefore(plan, next, x.claimed.value))
    && (forall p :: p in x.staged ==> ClaimedBefore(plan, next, p))
    && (forall p :: p in x.buffer ==> p in plan)
    && (x.appended ==> x.claimed.Some? && (x.claimed.value in x.buffer || Total(s.segments)[x.claimed.value] >= 1))
    && (x.finished || x.failed ==> x.buffer == [])
  }

  /** A worker that still runs and will flush a file it has reported. */
  predicate Keeps(x: Worker, p: Path) {
    !x.failed && p in x.staged && p in x.buffer
  }

  ghost predicate Safe(s: State, workers: seq<Worker>, p: Path) {
    Total(s.segments)[p] >= 1 || exists w :: 0 <= w < |workers| && Keeps(workers[w], p)
  }

  ghost predicate OnlyPlanned(plan: seq<Path>, s: State) {
    forall p :: Total(s.segments)[p] > 0 ==> p in plan
  }

  ghost predicate BuildingOk(plan: seq<Path>, s: State) {
    s.phase.Building? ==>
      OnlyPlanned(plan, s) &&
      (forall w :: 0 <= w < |s.phase.workers| ==> WorkerOk(plan, s, s.phase.next, s.phase.workers[w])) &&
      (forall p :: p in s.phase.ok ==> Safe(s, s.phase.workers, p))
  }

  /** A file counts as restored exactly when a segment that has been accepted holds it. */
  ghost predicate RestoringOk(plan: seq<Path>, s: State) {
    s.phase.Restoring? ==>
      (forall id, p :: id in s.segments && id !in s.phase.todo && p in s.segments[id] ==> p in s.phase.ok) &&
      (forall p :: p in s.phase.ok ==> p in plan && Accepted(s, p))
  }

  ghost predicate Accepted(s: State, p: Path)
    requires s.phase.Restoring?
  {
    exists id :: id in s.segments && id !in s.phase.todo && p in s.segments[id]
  }

  /** Every planned file, once, and nothing else. */
  ghost predicate Complete(plan: seq<Path>, s: State) {
    forall p :: Total(s.segments)[p] == One(p in plan)
  }

  ghost predicate FinalsOk(plan: seq<Path>, s: State) {
    (s.phase.Compacting? ==> Complete(plan, s)) && forall t :: t in s.finals ==> s.finals[t] == multiset(plan)
  }

  ghost predicate Inv(plan: seq<Path>, s: State) {
    && IdsOk(s) && WorkersIdsOk(s) && AtMostOnce(plan, s)
    && BuildingOk(plan, s) && RestoringOk(plan, s) && FinalsOk(plan, s)
  }

  // ----- Worker steps keep it -----

  /** How the reach of a file changes when one worker changes and segments stay. */
  lemma {:induction false} ReachOfWorker(plan: seq<Path>, s: State, n: State, w: nat, p: Path)
    requires s.phase.Building? && n.phase.Building? && w < |s.phase.workers| == |n.phase.workers|
    requires n.phase.workers == s.phase.workers[w := n.phase.workers[w]]
    ensures AllHold(n.phase.workers, p) + Holds(s.phase.workers[w], p) ==
            AllHold(s.phase.workers, p) + Holds(n.phase.workers[w], p)
  {
    ReplaceHold(s.phase.workers, w, n.phase.workers[w], p);
  }

  lemma {:induction false} FailReach(plan: seq<Path>, s: State, w: nat, p: Path)
    requires NoRepeats(plan) && s.phase.Building? && w < |s.phase.workers|
    requires WorkerOk(plan, s, s.phase.next, s.phase.workers[w])
    ensures Reach(plan, Fail(s, w), p) <= Reach(plan, s, p)
  {
    ReachOfWorker(plan, s, Fail(s, w), w, p);
    if p in s.phase.workers[w].staged {
      NotClaimable(plan, s.phase.next, Fail(s, w).phase.ok, p);
    }
  }

  lemma {:induction false} ClaimReach(plan: seq<Path>, s: State, step: Step, p: Path)
    requires NoRepeats(plan) && Enabled(plan, s, step) && step.Claim?
    ensures Reach(plan, WorkerStep(plan, s, step), p) <= Reach(plan, s, p)
  {
    var n := WorkerStep(plan, s, step);
    var x := s.phase.workers[step.w];
    var q := plan[s.phase.next];
    if q in s.phase.ok {
      assert n.phase.workers == s.phase.workers;
    } else {
      ReachOfWorker(plan, s, n, step.w, p);
      if p == q {
        assert ClaimedBefore(plan, n.phase.next, p);
        NotClaimable(plan, n.phase.next, n.phase.ok, p);
      }
    }
  }

  lemma {:induction false} FlushReach(plan: seq<Path>, s: State, step: Step, p: Path)
    requires Enabled(plan, s, step) && step.CommitFlush? && NextSegment(s.phase.workers[step.w]) !in s.segments
    ensures Reach(plan, WorkerStep(plan, s, step), p) <= Reach(plan, s, p)
  {
    var n := WorkerStep(plan, s, step);
    var x := s.phase.workers[step.w];
    ReachOfWorker(plan, s, n, step.w, p);
    TotalAdd(s.segments, NextSegment(x), x.buffer);
  }

  lemma {:induction false} AppendReach(plan: seq<Path>, s: State, step: Step, p: Path)
    requires Enabled(plan, s, step) && step.AppendFile?
    ensures Reach(plan, WorkerStep(plan, s, step), p) <= Reach(plan, s, p)
  {
    var n := WorkerStep(plan, s, step);
    var x := s.phase.workers[step.w];
    ReachOfWorker(plan, s, n, step.w, p);
    assert multiset(x.buffer + [x.claimed.value]) == multiset(x.buffer) + multiset{x.claimed.value};
  }

  lemma {:induction false} RecordReach(plan: seq<Path>, s: State, step: Step, p: Path)
    requires Enabled(plan, s, step) && (step.RecordOk? || step.RecordError? || step.FinishWorker?)
    ensures Reach(plan, WorkerStep(plan, s, step), p) <= Reach(plan, s, p)
  {
    ReachOfWorker(plan, s, WorkerStep(plan, s, step), step.w, p);
  }

  lemma {:induction false} OpenReach(plan: seq<Path>, s: State, step: Step, p: Path)
    requires NoRepeats(plan) && Enabled(plan, s, step) && (step.OpenWriter? || step.BeginFlush? || step.FailWorker?)
    requires WorkerOk(plan, s, s.phase.next, s.phase.workers[step.w])
    ensures Reach(plan, WorkerStep(plan, s, step), p) <= Reach(plan, s, p)
  {
    if WorkerStep(plan, s, step) == Fail(s, step.w) {
      FailReach(plan, s, step.w, p);
    } else {
      ReachOfWorker(plan, s, WorkerStep(plan, s, step), step.w, p);
    }
  }

  /** No worker step brings a file closer to being in two segments. */
  lemma {:induction false} WorkerStepReach(plan: seq<Path>, s: State, step: Step, p: Path)
    requires NoRepeats(plan) && IdsOk(s) && WorkersIdsOk(s) && BuildingOk(plan, s)
    requires Enabled(plan, s, step) && IsWorkerStep(step)
    ensures Reach(plan, WorkerStep(plan, s, step), p) <= Reach(plan, s, p)
  {
    assert WorkerOk(plan, s, s.phase.next, s.phase.workers[step.w]);
    if step.Claim? {
      ClaimReach(plan, s, step, p);
    } else if step.AppendFile? {
      AppendReach(plan, s, step, p);
    } else if step.CommitFlush? {
      assert OwnIds(s, s.phase.workers[step.w]);
      FlushReach(plan, s, step, p);
    } else if step.RecordOk? || step.RecordError? || step.FinishWorker? {
      RecordReach(plan, s, step, p);
    } else {
      OpenReach(plan, s, step, p);
    }
  }

  /** Worker steps only add to the segments: the buffer that is being flushed. */
  lemma {:induction false} SegmentsGrow(plan: seq<Path>, s: State, step: Step)
    requires IdsOk(s) && WorkersIdsOk(s) && Enabled(plan, s, step) && IsWorkerStep(step)
    ensures Total(WorkerStep(plan, s, step).segments) ==
      Total(s.segments) + if step.CommitFlush? then multiset(s.phase.workers[step.w].buffer) else multiset{}
  {
    if step.CommitFlush? {
      var x := s.phase.workers[step.w];
      assert OwnIds(s, x);
      TotalAdd(s.segments, NextSegment(x), x.buffer);
    }
  }

  /** The segments of n hold at least what those of s hold. */
  ghost predicate Covers(s: State, n: State) {
    forall p :: Total(n.segments)[p] >= Total(s.segments)[p]
  }

  lemma {:induction false} WorkerOkFrame(plan: seq<Path>, s: State, n: State, next: nat, x: Worker)
    requires WorkerOk(plan, s, next, x) && Covers(s, n)
    ensures WorkerOk(plan, n, next, x) && WorkerOk(plan, n, next + 1, x)
  {
    if x.appended {
      assert Total(n.segments)[x.claimed.value] >= Total(s.segments)[x.claimed.value];
    }
  }

  /** A worker whose record shrinks or stays keeps a sound record. */
  lemma {:induction false} LesserWorkerOk(plan: seq<Path>, s: State, next: nat, x: Worker, y: Worker)
    requires WorkerOk(plan, s, next, x) && y.staged == x.staged && (y.claimed == x.claimed || y.claimed.None?)
    requires y.buffer == x.buffer || y.buffer == []
    requires y.appended ==> x.appended && y.claimed == x.claimed && y.buffer == x.buffer
    requires y.finished || y.failed ==> y.buffer == []
    ensures WorkerOk(plan, s, next, y)
  {
  }

  lemma {:induction false} ClaimWorkerOk(plan: seq<Path>, s: State, step: Step)
    requires Enabled(plan, s, step) && step.Claim?
    requires WorkerOk(plan, s, s.phase.next, s.phase.workers[step.w])
    ensures var n := WorkerStep(plan, s, step); WorkerOk(plan, n, n.phase.next, n.phase.workers[step.w])
  {
    var n := WorkerStep(plan, s, step);
    WorkerOkFrame(plan, s, n, s.phase.next, s.phase.workers[step.w]);
    assert ClaimedBefore(plan, n.phase.next, plan[s.phase.next]);
  }

  lemma {:induction false} AppendWorkerOk(plan: seq<Path>, s: State, step: Step)
    requires Enabled(plan, s, step) && (step.AppendFile? || step.RecordOk?)
    requires WorkerOk(plan, s, s.phase.next, s.phase.workers[step.w])
    ensures var n := WorkerStep(plan, s, step); WorkerOk(plan, n, n.phase.next, n.phase.workers[step.w])
  {
  }

  lemma {:induction false} FlushWorkerOk(plan: seq<Path>, s: State, step: Step)
    requires IdsOk(s) && WorkersIdsOk(s) && Enabled(plan, s, step) && step.CommitFlush?
    requires WorkerOk(plan, s, s.phase.next, s.phase.workers[step.w])
    ensures var n := WorkerStep(plan, s, step); WorkerOk(plan, n, n.phase.next, n.phase.workers[step.w])
  {
    var x := s.phase.workers[step.w];
    SegmentsGrow(plan, s, step);
    if x.appended && x.claimed.value in x.buffer {
      assert multiset(x.buffer)[x.claimed.value] >= 1;
    }
  }

  lemma {:induction false} SameSegmentsWorkerOk(plan: seq<Path>, s: State, n: State, next: nat, x: Worker, y: Worker)
    requires WorkerOk(plan, s, next, x) && n.segments == s.segments
    requires y.staged == x.staged && (y.claimed == x.claimed || y.claimed.None?)
    requires y.buffer == x.buffer || y.buffer == []
    requires y.appended ==> x.appended && y.claimed == x.claimed && y.buffer == x.buffer
    requires y.finished || y.failed ==> y.buffer == []
    ensures WorkerOk(plan, n, next, y)
  {
    LesserWorkerOk(plan, s, next, x, y);
  }

  lemma {:induction false} FailWorkerOk(plan: seq<Path>, s: State, w: nat)
    requires s.phase.Building? && w < |s.phase.workers| && WorkerOk(plan, s, s.phase.next, s.phase.workers[w])
    ensures var n := Fail(s, w); WorkerOk(plan, n, n.phase.next, n.phase.workers[w])
  {
    var n := Fail(s, w);
    SameSegmentsWorkerOk(plan, s, n, s.phase.next, s.phase.workers[w], n.phase.workers[w]);
  }

  lemma {:induction false} QuietWorkerOk(plan: seq<Path>, s: State, step: Step)
    requires Enabled(plan, s, step)
    requires step.OpenWriter? || step.BeginFlush? || step.RecordError? || step.FailWorker? || step.FinishWorker?
    requires WorkerOk(plan, s, s.phase.next, s.phase.workers[step.w])
    ensures var n := WorkerStep(plan, s, step); WorkerOk(plan, n, n.phase.next, n.phase.workers[step.w])
  {
    var n := WorkerStep(plan, s, step);
    if n == Fail(s, step.w) {
      FailWorkerOk(plan, s, step.w);
    } else {
      SameSegmentsWorkerOk(plan, s, n, s.phase.next, s.phase.workers[step.w], n.phase.workers[step.w]);
    }
  }

  lemma {:induction false} ActingWorkerOk(plan: seq<Path>, s: State, step: Step)
    requires IdsOk(s) && WorkersIdsOk(s) && Enabled(plan, s, step) && IsWorkerStep(step)
    requires WorkerOk(plan, s, s.phase.next, s.phase.workers[step.w])
    ensures var n := WorkerStep(plan, s, step);
      n.phase.Building? && step.w < |n.phase.workers| && WorkerOk(plan, n, n.phase.next, n.phase.workers[step.w])
  {
    if step.Claim? {
      ClaimWorkerOk(plan, s, step);
    } else if step.AppendFile? || step.RecordOk? {
      AppendWorkerOk(plan, s, step);
    } else if step.CommitFlush? {
      FlushWorkerOk(plan, s, step);
    } else {
      QuietWorkerOk(plan, s, step);
    }
  }

  /** A running worker that keeps a file goes on keeping it, or has just flushed it. */
  lemma {:induction false} ActingKeeps(plan: seq<Path>, s: State, step: Step, p: Path)
    requires Enabled(plan, s, step) && IsWorkerStep(step) && Keeps(s.phase.workers[step.w], p)
    requires p in WorkerStep(plan, s, step).phase.ok
    ensures var n := WorkerStep(plan, s, step);
      step.CommitFlush? || Keeps(n.phase.workers[step.w], p)
  {
  }

  /** A worker that keeps a file goes on keeping it, or its flush has just put it into a segment. */
  lemma {:induction false} StillKept(plan: seq<Path>, s: State, step: Step, v: nat, p: Path)
    requires IdsOk(s) && WorkersIdsOk(s) && Enabled(plan, s, step) && IsWorkerStep(step)
    requires v < |s.phase.workers| && Keeps(s.phase.workers[v], p) && p in WorkerStep(plan, s, step).phase.ok
    ensures var n := WorkerStep(plan, s, step); Safe(n, n.phase.workers, p)
  {
    var n := WorkerStep(plan, s, step);
    SegmentsGrow(plan, s, step);
    ActingWorkerIds(plan, s, step);
    if v == step.w {
      ActingKeeps(plan, s, step, p);
      assert multiset(s.phase.workers[v].buffer)[p] >= 1;
    } else {
      assert Keeps(n.phase.workers[v], p);
    }
  }

  lemma {:induction false} SafeKept(plan: seq<Path>, s: State, step: Step, p: Path)
    requires IdsOk(s) && WorkersIdsOk(s) && Enabled(plan, s, step) && IsWorkerStep(step)
    requires p in s.phase.ok && Safe(s, s.phase.workers, p)
    ensures var n := WorkerStep(plan, s, step); p in n.phase.ok ==> Safe(n, n.phase.workers, p)
  {
    if p in WorkerStep(plan, s, step).phase.ok {
      if Total(s.segments)[p] == 0 {
        var v :| 0 <= v < |s.phase.workers| && Keeps(s.phase.workers[v], p);
        StillKept(plan, s, step, v, p);
      } else {
        SegmentsGrow(plan, s, step);
      }
    }
  }

  lemma {:induction false} RecordedSafe(plan: seq<Path>, s: State, step: Step)
    requires Enabled(plan, s, step) && step.RecordOk?
    requires WorkerOk(plan, s, s.phase.next, s.phase.workers[step.w])
    ensures var n := WorkerStep(plan, s, step); Safe(n, n.phase.workers, s.phase.workers[step.w].claimed.value)
  {
    var n := WorkerStep(plan, s, step);
    var q := s.phase.workers[step.w].claimed.value;
    if q in s.phase.workers[step.w].buffer {
      assert Keeps(n.phase.workers[step.w], q);
    }
  }

  lemma {:induction false} WorkerStepPlanned(plan: seq<Path>, s: State, step: Step)
    requires IdsOk(s) && WorkersIdsOk(s) && Enabled(plan, s, step) && IsWorkerStep(step) && OnlyPlanned(plan, s)
    requires WorkerOk(plan, s, s.phase.next, s.phase.workers[step.w])
    ensures OnlyPlanned(plan, WorkerStep(plan, s, step))
  {
    SegmentsGrow(plan, s, step);
  }

  lemma {:induction false} AllWorkersOk(plan: seq<Path>, s: State, step: Step, v: nat)
    requires IdsOk(s) && WorkersIdsOk(s) && Enabled(plan, s, step) && IsWorkerStep(step) && v < |s.phase.workers|
    requires WorkerOk(plan, s, s.phase.next, s.phase.workers[step.w]) &&
      WorkerOk(plan, s, s.phase.next, s.phase.workers[v])
    ensures var n := WorkerStep(plan, s, step);
      n.phase.Building? && |n.phase.workers| == |s.phase.workers| && WorkerOk(plan, n, n.phase.next, n.phase.workers[v])
  {
    var n := WorkerStep(plan, s, step);
    ActingWorkerAlone(plan, s, step);
    if v == step.w {
      ActingWorkerOk(plan, s, step);
    } else {
      SegmentsGrow(plan, s, step);
      WorkerOkFrame(plan, s, n, s.phase.next, s.phase.workers[v]);
    }
  }

  lemma {:induction false} FilesStaySafe(plan: seq<Path>, s: State, step: Step)
    requires IdsOk(s) && WorkersIdsOk(s) && Enabled(plan, s, step) && IsWorkerStep(step)
    requires WorkerOk(plan, s, s.phase.next, s.phase.workers[step.w])
    requires forall p :: p in s.phase.ok ==> Safe(s, s.phase.workers, p)
    ensures var n := WorkerStep(plan, s, step);
      n.phase.Building? && forall p :: p in n.phase.ok ==> Safe(n, n.phase.workers, p)
  {
    var n := WorkerStep(plan, s, step);
    ActingWorkerAlone(plan, s, step);
    forall p | p in n.phase.ok ensures Safe(n, n.phase.workers, p) {
      if p in s.phase.ok {
        SafeKept(plan, s, step, p);
      } else {
        RecordedSafe(plan, s, step);
      }
    }
  }

  lemma {:induction false} WorkerStepBuilding(plan: seq<Path>, s: State, step: Step)
    requires IdsOk(s) && WorkersIdsOk(s) && Enabled(plan, s, step) && IsWorkerStep(step) && BuildingOk(plan, s)
    ensures BuildingOk(plan, WorkerStep(plan, s, step))
  {
    var n := WorkerStep(plan, s, step);
    assert WorkerOk(plan, s, s.phase.next, s.phase.workers[step.w]);
    WorkerStepPlanned(plan, s, step);
    FilesStaySafe(plan, s, step);
    ActingWorkerAlone(plan, s, step);
    forall v | 0 <= v < |n.phase.workers| ensures WorkerOk(plan, n, n.phase.next, n.phase.workers[v]) {
      AllWorkersOk(plan, s, step, v);
    }
  }

  // ----- The other steps -----

  lemma {:induction false} RestoreKeeps(plan: seq<Path>, s: State, step: Step)
    requires NoRepeats(plan) && Inv(plan, s) && Enabled(plan, s, step) && step.RestoreSegment?
    ensures AtMostOnce(plan, Next(plan, s, step)) && RestoringOk(plan, Next(plan, s, step))
  {
    var n := Next(plan, s, step);
    if !step.accept {
      TotalWithout(s.segments, step.id);
    }
    forall p ensures Reach(plan, n, p) <= 1 {
      assert Reach(plan, s, p) <= 1;
    }
    NoCollision(plan, s, step);
    forall p | p in n.phase.ok ensures p in plan && Accepted(n, p) {
      if p in s.phase.ok {
        var id :| id in s.segments && id !in s.phase.todo && p in s.segments[id];
        assert id in n.segments && id !in n.phase.todo;
      } else {
        assert step.id in n.segments && step.id !in n.phase.todo;
      }
    }
  }

  /** Once every segment has been looked at, the restored files are exactly those in segments. */
  lemma {:induction false} RestoredExactly(plan: seq<Path>, s: State, p: Path)
    requires RestoringOk(plan, s) && s.phase.Restoring? && s.phase.todo == {}
    ensures p in s.phase.ok <==> Total(s.segments)[p] > 0
    ensures Total(s.segments)[p] > 0 ==> p in plan
  {
    if Total(s.segments)[p] > 0 {
      var id := TotalFrom(s.segments, p);
    }
    if p in s.phase.ok {
      var id :| id in s.segments && id !in s.phase.todo && p in s.segments[id];
      TotalHas(s.segments, id, p);
    }
  }

  lemma {:induction false} StartBuildingKeeps(plan: seq<Path>, s: State, step: Step)
    requires Inv(plan, s) && Enabled(plan, s, step) && step.StartBuilding?
    ensures AtMostOnce(plan, Next(plan, s, step)) && BuildingOk(plan, Next(plan, s, step))
  {
    var n := Next(plan, s, step);
    forall p
      ensures Reach(plan, n, p) <= 1 && (Total(n.segments)[p] > 0 ==> p in plan)
      ensures p in n.phase.ok ==> Safe(n, n.phase.workers, p)
    {
      assert Reach(plan, s, p) <= 1;
      RestoredExactly(plan, s, p);
      FreshHoldNothing(step.base, step.count, p);
    }
  }

  /** All files reported: they are all in segments, because no worker holds anything back. */
  lemma {:induction false} ValidateKeeps(plan: seq<Path>, s: State, step: Step)
    requires Inv(plan, s) && Enabled(plan, s, step) && step.Validate?
    ensures FinalsOk(plan, Next(plan, s, step)) && AtMostOnce(plan, Next(plan, s, step))
  {
    var n := Next(plan, s, step);
    forall p ensures Reach(plan, n, p) <= 1 && (n.phase.Compacting? ==> Total(s.segments)[p] == One(p in plan)) {
      assert Reach(plan, s, p) <= 1;
      if n.phase.Compacting? && p in plan {
        assert Safe(s, s.phase.workers, p);
        forall w | 0 <= w < |s.phase.workers| ensures !Keeps(s.phase.workers[w], p) {
          assert WorkerOk(plan, s, s.phase.next, s.phase.workers[w]);
        }
      }
    }
  }

  lemma {:induction false} PlanMultiplicity(plan: seq<Path>, p: Path)
    requires NoRepeats(plan)
    ensures multiset(plan)[p] == One(p in plan)
  {
    if plan != [] {
      var n := |plan| - 1;
      PlanMultiplicity(plan[..n], p);
      assert plan == plan[..n] + [plan[n]];
    }
  }

  /** A compaction that reads complete segments writes every planned file exactly once. */
  lemma {:induction false} CompactKeeps(plan: seq<Path>, s: State, t: Table)
    requires NoRepeats(plan) && FinalsOk(plan, s) && s.phase.Compacting?
    ensures FinalsOk(plan, Compacted(s, t))
  {
    forall p ensures Total(s.segments)[p] == multiset(plan)[p] {
      PlanMultiplicity(plan, p);
    }
  }

  lemma {:induction false} SimpleReach(plan: seq<Path>, s: State, n: State)
    requires AtMostOnce(plan, s) && n.segments == s.segments && !n.phase.Building?
    ensures AtMostOnce(plan, n)
  {
    forall p ensures Reach(plan, n, p) <= 1 {
      assert Reach(plan, s, p) <= 1;
    }
  }

  lemma {:induction false} StaysBuilding(plan: seq<Path>, s: State, step: Step)
    requires Enabled(plan, s, step) && IsWorkerStep(step)
    ensures var n := Next(plan, s, step);
      n == WorkerStep(plan, s, step) && n.phase.Building? && n.finals == s.finals
  {
  }

  lemma {:induction false} WorkerStepTables(plan: seq<Path>, s: State, n: State)
    requires FinalsOk(plan, s) && n.phase.Building? && n.finals == s.finals
    ensures RestoringOk(plan, n) && FinalsOk(plan, n)
  {
  }

  lemma {:induction false} StepKeepsInvariant(plan: seq<Path>, s: State, step: Step)
    requires NoRepeats(plan) && Inv(plan, s) && Enabled(plan, s, step)
    ensures Inv(plan, Next(plan, s, step))
  {
    StepKeepsIds(plan, s, step);
    StepKeepsWorkersIds(plan, s, step);
    if IsWorkerStep(step) {
      StaysBuilding(plan, s, step);
      WorkerStepBuilding(plan, s, step);
      WorkerStepAtMostOnce(plan, s, step);
      WorkerStepTables(plan, s, Next(plan, s, step));
    } else {
      RunStepKeeps(plan, s, step);
    }
  }

  lemma {:induction false} WorkerStepAtMostOnce(plan: seq<Path>, s: State, step: Step)
    requires NoRepeats(plan) && IdsOk(s) && WorkersIdsOk(s) && BuildingOk(plan, s) && AtMostOnce(plan, s)
    requires Enabled(plan, s, step) && IsWorkerStep(step)
    ensures AtMostOnce(plan, WorkerStep(plan, s, step))
  {
    forall p ensures Reach(plan, WorkerStep(plan, s, step), p) <= 1 {
      assert Reach(plan, s, p) <= 1;
      WorkerStepReach(plan, s, step, p);
    }
  }

  lemma {:induction false} RunStepKeeps(plan: seq<Path>, s: State, step: Step)
    requires NoRepeats(plan) && Inv(plan, s) && Enabled(plan, s, step) && !IsWorkerStep(step)
    ensures var n := Next(plan, s, step);
      AtMostOnce(plan, n) && BuildingOk(plan, n) && RestoringOk(plan, n) && FinalsOk(plan, n)
  {
    var n := Next(plan, s, step);
    if step.RestoreSegment? {
      RestoreKeeps(plan, s, step);
    } else if step.StartBuilding? {
      StartBuildingKeeps(plan, s, step);
    } else if step.Validate? {
      ValidateKeeps(plan, s, step);
    } else {
      SimpleReach(plan, s, n);
      if step.Compact? {
        CompactKeeps(plan, s, step.table);
      }
    }
  }

  // ----- Runs -----

  ghost predicate Run(plan: seq<Path>, states: seq<State>, steps: seq<Step>) {
    |states| == |steps| + 1 && states[0] == State(map[], {}, {}, {}, map[], Idle) &&
    forall i :: 0 <= i < |steps| ==>
      Enabled(plan, states[i], steps[i]) && states[i + 1] == Next(plan, states[i], steps[i])
  }

  lemma {:induction false} RunKeepsInvariant(plan: seq<Path>, states: seq<State>, steps: seq<Step>)
    requires NoRepeats(plan) && Run(plan, states, steps)
    ensures Inv(plan, states[|steps|])
    decreases |steps|
  {
    if steps == [] {
      forall p ensures Reach(plan, states[0], p) <= 1 {
        assert Total(map[])[p] == 0;
      }
    } else {
      var n := |steps| - 1;
      assert Run(plan, states[..n + 1], steps[..n]);
      RunKeepsInvariant(plan, states[..n + 1], steps[..n]);
      StepKeepsInvariant(plan, states[n], steps[n]);
    }
  }

  /** Over every history of builds, crashes, quarantines and resumes: no file is ever in two segments that
      are not rejected; when compaction reads, every planned file is in exactly one and nothing else is there;
      and each compacted table holds each planned file exactly once. */
  lemma {:induction false} EveryFileOnce(plan: seq<Path>, states: seq<State>, steps: seq<Step>)
    requires NoRepeats(plan) && Run(plan, states, steps)
    ensures var s := states[|steps|];
      && (forall p :: Total(s.segments)[p] <= 1)
      && (s.phase.Compacting? ==> Total(s.segments) == multiset(plan))
      && (forall t :: t in s.finals ==> s.finals[t] == multiset(plan))
  {
    RunKeepsInvariant(plan, states, steps);
    var s := states[|steps|];
    forall p ensures Total(s.segments)[p] <= 1 && multiset(plan)[p] == One(p in plan) {
      assert Reach(plan, s, p) <= 1;
      PlanMultiplicity(plan, p);
    }
  }

  /** In every reachable state new directories, segment names and quarantine names are free. */
  lemma {:induction false} NamesAreFree(plan: seq<Path>, states: seq<State>, steps: seq<Step>, step: Step)
    requires NoRepeats(plan) && Run(plan, states, steps) && Enabled(plan, states[|steps|], step)
    ensures var s := states[|steps|];
      && (step.OpenWriter? ==> s.phase.workers[step.w].dir !in s.workerDirs)
      && (step.BeginFlush? ==>
            var id := NextSegment(s.phase.workers[step.w]); id !in s.pending && id !in s.segments && id !in s.rejected)
      && (step.RestoreSegment? ==> step.id !in s.rejected)
  {
    RunKeepsInvariant(plan, states, steps);
    NoCollision(plan, states[|steps|], step);
  }
}
