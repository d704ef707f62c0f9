/** Executing the planned tasks: workers claim file groups atomically, clip tasks to
    the global ranges, load entries into a buffer and emit the rows that pass. */
module Executor {
  import opened Numbers
  import opened Ranges
  import opened Planner

  // ----- Clipping one claimed task -----

  datatype ClipRanges = ClipRanges(hasEvent: bool, eventLower: u64, eventUpper: u64, local: Range)

  datatype Clip = Clip(kept: bool, begin: nat, end: nat, skipped: nat)

  predicate EntryWanted(c: ClipRanges, t: Task, entry: int) {
    t.begin <= entry < t.end &&
    (c.hasEvent ==> c.eventLower <= t.key.eventBase + entry <= c.eventUpper) &&
    (c.local.known ==> c.local.lower <= entry <= c.local.upper)
  }

  function EventClip(c: ClipRanges, t: Task): (r: Clip)
    requires t.begin < t.end
    ensures r.kept ==> t.begin <= r.begin < r.end <= t.end
  {
    if !c.hasEvent then Clip(true, t.begin, t.end, 0)
    else
      var first, last := t.key.eventBase + t.begin, t.key.eventBase + t.end;
      var wantedBegin := Max(first, c.eventLower);
      var wantedEnd := if c.eventUpper == U64_MAX then last else Min(last, c.eventUpper + 1);
      if wantedBegin >= wantedEnd then Clip(false, t.begin, t.begin, t.end - t.begin)
      else
        var begin, end := wantedBegin - t.key.eventBase, wantedEnd - t.key.eventBase;
        Clip(true, begin, end, (begin - t.begin) + (t.end - end))
  }

  /** The two successive clips of a claimed task; a dropped task counts all its entries as skipped. */
  function ClipTask(c: ClipRanges, t: Task): Clip
    requires t.begin < t.end
  {
    var first := EventClip(c, t);
    if !first.kept || !c.local.known then first
    else
      var begin := Max(first.begin, c.local.lower);
      var end := if c.local.upper == U64_MAX then first.end else Min(first.end, c.local.upper + 1);
      if begin >= end then Clip(false, t.begin, t.begin, first.skipped + (first.end - first.begin))
      else Clip(true, begin, end, first.skipped + (begin - first.begin) + (first.end - end))
  }

  /** The clip keeps exactly the wanted entries, and accounts for every other one. */
  lemma {:induction false} ClipExact(c: ClipRanges, t: Task)
    requires t.begin < t.end && t.key.eventBase + t.end <= U64_MAX
    ensures var r := ClipTask(c, t);
      && (forall entry :: EntryWanted(c, t, entry) <==> r.kept && r.begin <= entry < r.end)
      && r.skipped + (if r.kept then r.end - r.begin else 0) == t.end - t.begin
      && (r.kept ==> t.begin <= r.begin < r.end <= t.end)
  {
  }

  // ----- The scan -----

  datatype Row = Row(file: string, eventFk: int, entry: int, indices: seq<int>, value: Num)

  /** STANDARD_VECTOR_SIZE, the number of values asked for with every page. */
  const VECTOR_SIZE: nat := 2048

  /** How the reader serves an admitted entry: decoded at once, or through pages of the object cursor or of
      the serialized cursor. Without an object there is no row, but a decoding that was rejected is left in
      the typed buffer. */
  datatype Route = WholeEntry | ObjectPages | SerializedPages | NoObject(rejected: seq<Row>)

  /** `admits` is the exact entry test (entry filters and path predicates), `rows` what the reader
      delivers for an entry, `routes` the ways it may take to do so, `passes` the element filters.
      `typed` selects the 64-bit transport. */
  datatype Scan = Scan(
    tasks: seq<Task>, groups: seq<Group>, clip: ClipRanges, typed: bool, admits: (Task, int) -> bool,
    rows: (Task, int) -> seq<Row>, routes: (Task, int, Route) -> bool, passes: Row -> bool)

  ghost predicate ValidScan(s: Scan) {
    PartitionsTasks(s.groups, s.tasks, |s.tasks|) &&
    forall k :: 0 <= k < |s.tasks| ==>
      s.tasks[k].begin < s.tasks[k].end && s.tasks[k].key.eventBase + s.tasks[k].end <= U64_MAX
  }

  predicate RouteOpen(s: Scan, t: Task, entry: int, route: Route) {
    s.routes(t, entry, route) && (route.NoObject? ==> s.rows(t, entry) == [])
  }

  /** Everything a run has to do: claim a task, skip or read an entry, emit a row. */
  datatype Item = Claimed(task: nat) | Skipped(task: nat) | Read(task: nat, entry: int) | Emitted(row: Row)

  function One(b: bool): nat {
    if b then 1 else 0
  }

  ghost function PassingRows(s: Scan, rows: seq<Row>): multiset<Item> {
    if rows == [] then multiset{}
    else PassingRows(s, rows[1..]) + if s.passes(rows[0]) then multiset{Emitted(rows[0])} else multiset{}
  }

  /** How often an item occurs among the rows of a buffer that pass. */
  ghost function Passing(s: Scan, rows: seq<Row>, i: Item): nat {
    if rows == [] then 0 else Passing(s, rows[1..], i) + One(s.passes(rows[0]) && i == Emitted(rows[0]))
  }

  lemma {:induction false} PassingCounts(s: Scan, rows: seq<Row>, i: Item)
    ensures PassingRows(s, rows)[i] == Passing(s, rows, i)
  {
    if rows != [] {
      PassingCounts(s, rows[1..], i);
    }
  }

  /** How often an item is due in one entry, in a run of entries, in a task, in a run of tasks. */
  ghost function EntryDue(s: Scan, k: nat, entry: int, i: Item): nat {
    One(i == Read(k, entry)) +
    if k < |s.tasks| && s.admits(s.tasks[k], entry) then Passing(s, s.rows(s.tasks[k], entry), i) else 0
  }

  ghost function RangeDue(s: Scan, k: nat, begin: nat, end: nat, i: Item): nat
    decreases end - begin
  {
    if begin >= end then 0 else EntryDue(s, k, begin, i) + RangeDue(s, k, begin + 1, end, i)
  }

  /** The clip of the k-th task; tasks are never empty. */
  function ClipAt(s: Scan, k: nat): Clip {
    if k < |s.tasks| && s.tasks[k].begin < s.tasks[k].end then ClipTask(s.clip, s.tasks[k]) else Clip(false, 0, 0, 0)
  }

  ghost function TaskDue(s: Scan, k: nat, i: Item): nat {
    var c := ClipAt(s, k);
    One(i == Claimed(k)) + (if i == Skipped(k) then c.skipped else 0) +
    if c.kept then RangeDue(s, k, c.begin, c.end, i) else 0
  }

  ghost function TasksDue(s: Scan, from: nat, upTo: nat, i: Item): nat
    decreases upTo - from
  {
    if from >= upTo then 0 else TaskDue(s, from, i) + TasksDue(s, from + 1, upTo, i)
  }

  lemma {:induction false} TasksDueSplit(s: Scan, from: nat, mid: nat, upTo: nat, i: Item)
    requires from <= mid <= upTo
    ensures TasksDue(s, from, upTo, i) == TasksDue(s, from, mid, i) + TasksDue(s, mid, upTo, i)
    decreases mid - from
  {
    if from < mid {
      TasksDueSplit(s, from + 1, mid, upTo, i);
    }
  }

  // ----- Workers and steps -----

  datatype Active = Active(index: nat, cur: nat, end: nat)

  /** The open page source of the reader, with the rows it has not delivered. */
  datatype Pages = Closed | Object(rest: seq<Row>) | Serialized(rest: seq<Row>)

  function Undelivered(p: Pages): seq<Row> {
    if p.Closed? then [] else p.rest
  }

  function PageOf(p: Pages): seq<Row> {
    Undelivered(p)[..Min(VECTOR_SIZE, |Undelivered(p)|)]
  }

  /** The source after one page. A short page completes an object cursor, which learns of a full last page
      only from the empty page behind it; a serialized cursor knows its number of values. */
  function AfterPage(p: Pages): Pages {
    match p
    case Closed => Closed
    case Object(rest) => if |rest| < VECTOR_SIZE then Closed else Object(rest[VECTOR_SIZE..])
    case Serialized(rest) => if |rest| <= VECTOR_SIZE then Closed else Serialized(rest[VECTOR_SIZE..])
  }

  /** Thread-local state: the claimed group, the current task, the value buffer and the open pages. */
  datatype Worker = Worker(
    next: nat, groupEnd: nat, task: Option<Active>, buffer: seq<Row>, offset: nat, pages: Pages)

  /** The shared counters plus the history of what has been done. `carried` collects the rows of a
      stale buffer at the moment a claim makes them readable again. */
  datatype State = State(
    nextGroup: nat, skippedEntries: nat, workers: seq<Worker>,
    ghost done: multiset<Item>, ghost carried: multiset<Item>)

  datatype Step =
    | ClaimGroup(w: nat)
    | TakeTask(w: nat)
    | Load(w: nat, route: Route)
    | ReadPage(w: nat)
    | FinishTask(w: nat)
    | Emit(w: nat)

  const IDLE := Worker(0, 0, None, [], 0, Closed)

  ghost function Init(workers: nat): State {
    State(0, 0, seq(workers, _ => IDLE), multiset{}, multiset{})
  }

  predicate Drained(w: Worker) {
    w.offset >= |w.buffer|
  }

  predicate CanTake(s: Scan, w: Worker) {
    w.task.None? && w.next < w.groupEnd && w.next < |s.tasks|
  }

  /** The reader is free for the next entry of the current task. */
  predicate CanLoad(s: Scan, w: Worker, route: Route) {
    w.task.Some? && Drained(w) && w.pages.Closed? && var a := w.task.value;
    a.cur < a.end && a.index < |s.tasks| &&
    (s.admits(s.tasks[a.index], a.cur) ==> RouteOpen(s, s.tasks[a.index], a.cur, route))
  }

  predicate CanReadPage(w: Worker) {
    w.task.Some? && Drained(w) && !w.pages.Closed?
  }

  predicate CanFinish(w: Worker) {
    w.task.Some? && Drained(w) && w.pages.Closed? && w.task.value.cur >= w.task.value.end
  }

  /** When a step can be taken. */
  predicate Enabled(s: Scan, st: State, step: Step) {
    step.w < |st.workers| && var w := st.workers[step.w];
    match step
    case ClaimGroup(_) => w.task.None? && w.next >= w.groupEnd
    case TakeTask(_) => CanTake(s, w)
    case Load(_, route) => CanLoad(s, w, route)
    case ReadPage(_) => CanReadPage(w)
    case FinishTask(_) => CanFinish(w)
    case Emit(_) => w.task.Some? && !Drained(w)
  }

  /** What the stale buffer of a worker would emit again if its next claim did not clear it. */
  ghost function StaleRows(s: Scan, w: Worker): multiset<Item> {
    if s.typed then PassingRows(s, w.buffer) else multiset{}
  }

  /** A worker that has begun an admitted entry. */
  function Opened(s: Scan, w: Worker, rows: seq<Row>, route: Route): Worker {
    match route
    case WholeEntry => w.(buffer := rows, offset := 0)
    case ObjectPages => w.(buffer := [], offset := 0, pages := Object(rows))
    case SerializedPages => w.(buffer := [], offset := 0, pages := Serialized(rows))
    case NoObject(rejected) =>
      if s.typed then w.(buffer := rejected, offset := |rejected|) else w.(buffer := [], offset := 0)
  }

  /** The double transport clears its buffer on a claim, the 64-bit transport only rewinds it. */
  function TakeNext(s: Scan, w: Worker): Worker {
    var c := ClipAt(s, w.next);
    if !c.kept then w.(next := w.next + 1)
    else
      Worker(w.next + 1, w.groupEnd, Some(Active(w.next, c.begin, c.end)), if s.typed then w.buffer else [], 0, Closed)
  }

  function LoadNext(s: Scan, w: Worker, route: Route): Worker
    requires CanLoad(s, w, route)
  {
    var a := w.task.value;
    var v, t := w.(task := Some(a.(cur := a.cur + 1))), s.tasks[a.index];
    if s.admits(t, a.cur) then Opened(s, v, s.rows(t, a.cur), route) else v
  }

  function PageNext(w: Worker): Worker {
    w.(buffer := PageOf(w.pages), offset := 0, pages := AfterPage(w.pages))
  }

  /** The worker's own part of a step. */
  function WorkerNext(s: Scan, st: State, step: Step): Worker
    requires Enabled(s, st, step)
  {
    var w := st.workers[step.w];
    match step
    case ClaimGroup(_) =>
      if st.nextGroup >= |s.groups| then w
      else w.(next := s.groups[st.nextGroup].begin, groupEnd := s.groups[st.nextGroup].end)
    case TakeTask(_) => TakeNext(s, w)
    case Load(_, route) => LoadNext(s, w, route)
    case ReadPage(_) => PageNext(w)
    case FinishTask(_) => w.(task := None)
    case Emit(_) => w.(offset := w.offset + 1)
  }

  ghost function TakeItems(s: Scan, w: Worker): multiset<Item> {
    multiset{Claimed(w.next)} + multiset{}[Skipped(w.next) := ClipAt(s, w.next).skipped]
  }

  /** What a step completes. */
  ghost function StepItems(s: Scan, st: State, step: Step): multiset<Item>
    requires Enabled(s, st, step)
  {
    var w := st.workers[step.w];
    match step
    case TakeTask(_) => TakeItems(s, w)
    case Load(_, _) => multiset{Read(w.task.value.index, w.task.value.cur)}
    case Emit(_) => if s.passes(w.buffer[w.offset]) then multiset{Emitted(w.buffer[w.offset])} else multiset{}
    case ClaimGroup(_) => multiset{}
    case ReadPage(_) => multiset{}
    case FinishTask(_) => multiset{}
  }

  ghost function Carried(s: Scan, st: State, step: Step): multiset<Item>
    requires Enabled(s, st, step)
  {
    if step.TakeTask? && ClipAt(s, st.workers[step.w].next).kept
    then StaleRows(s, st.workers[step.w]) else multiset{}
  }

  ghost function Next(s: Scan, st: State, step: Step): State
    requires Enabled(s, st, step)
  {
    State(
      if step.ClaimGroup? then st.nextGroup + 1 else st.nextGroup,
      st.skippedEntries +
        (if step.TakeTask? then ClipAt(s, st.workers[step.w].next).skipped else 0),
      st.workers[step.w := WorkerNext(s, st, step)],
      st.done + StepItems(s, st, step),
      st.carried + Carried(s, st, step))
  }

  // ----- What is still to be done -----

  ghost predicate ValidWorker(s: Scan, w: Worker) {
    && w.offset <= |w.buffer| && (w.next < w.groupEnd ==> w.groupEnd <= |s.tasks|)
    && (w.task.None? ==> w.offset == |w.buffer| && w.pages.Closed?)
    && (w.task.Some? ==> w.task.value.index < |s.tasks|)
  }

  function Unread(w: Worker): seq<Row> {
    if w.offset <= |w.buffer| then w.buffer[w.offset..] else []
  }

  ghost function WorkerDue(s: Scan, w: Worker, i: Item): nat {
    TasksDue(s, w.next, w.groupEnd, i) +
    (if w.task.Some? then RangeDue(s, w.task.value.index, w.task.value.cur, w.task.value.end, i) else 0) +
    Passing(s, Unread(w), i) + Passing(s, Undelivered(w.pages), i)
  }

  ghost function AllWorkersDue(s: Scan, ws: seq<Worker>, i: Item): nat {
    if ws == [] then 0 else AllWorkersDue(s, ws[..|ws| - 1], i) + WorkerDue(s, ws[|ws| - 1], i)
  }

  function UnclaimedFrom(s: Scan, g: nat): nat {
    if g < |s.groups| then s.groups[g].begin else |s.tasks|
  }

  ghost function Due(s: Scan, st: State, i: Item): nat {
    TasksDue(s, UnclaimedFrom(s, st.nextGroup), |s.tasks|, i) + AllWorkersDue(s, st.workers, i)
  }

  ghost predicate ValidWorkers(s: Scan, ws: seq<Worker>) {
    forall k :: 0 <= k < |ws| ==> ValidWorker(s, ws[k])
  }

  /** Nothing is lost and nothing is done twice, except what `carried` records. */
  ghost predicate Conserved(s: Scan, st: State, i: Item) {
    ValidWorkers(s, st.workers) && st.done[i] + Due(s, st, i) == TasksDue(s, 0, |s.tasks|, i) + st.carried[i]
  }

  lemma {:induction false} PassingConcat(s: Scan, a: seq<Row>, b: seq<Row>, i: Item)
    ensures Passing(s, a + b, i) == Passing(s, a, i) + Passing(s, b, i)
  {
    if a == [] {
      assert a + b == b;
    } else {
      assert (a + b)[1..] == a[1..] + b;
      PassingConcat(s, a[1..], b, i);
    }
  }

  lemma {:induction false} ReplaceWorker(s: Scan, ws: seq<Worker>, k: nat, w: Worker, i: Item)
    requires k < |ws|
    ensures AllWorkersDue(s, ws[k := w], i) + WorkerDue(s, ws[k], i) == AllWorkersDue(s, ws, i) + WorkerDue(s, w, i)
  {
    var n := |ws| - 1;
    if k == n {
      assert ws[k := w][..n] == ws[..n];
    } else {
      ReplaceWorker(s, ws[..n], k, w, i);
      assert ws[k := w][..n] == ws[..n][k := w];
    }
  }

  /** The balance of one worker step: what was due is done or still due; a stale buffer adds to both sides. */
  ghost predicate Balanced(s: Scan, st: State, step: Step, i: Item)
    requires Enabled(s, st, step)
  {
    var w, v := st.workers[step.w], WorkerNext(s, st, step);
    ValidWorker(s, v) &&
    WorkerDue(s, w, i) + Carried(s, st, step)[i] == StepItems(s, st, step)[i] + WorkerDue(s, v, i)
  }

  lemma {:induction false} TakeBalance(s: Scan, w: Worker, i: Item)
    requires CanTake(s, w) && ValidWorker(s, w)
    ensures ValidWorker(s, TakeNext(s, w))
    ensures WorkerDue(s, w, i) + (if ClipAt(s, w.next).kept then StaleRows(s, w)[i] else 0) ==
            TakeItems(s, w)[i] + WorkerDue(s, TakeNext(s, w), i)
  {
    var v := TakeNext(s, w);
    assert Unread(w) == [];
    PassingCounts(s, w.buffer, i);
    assert TasksDue(s, w.next, w.groupEnd, i) == TaskDue(s, w.next, i) + TasksDue(s, w.next + 1, w.groupEnd, i);
    assert Unread(v) == if v.task.Some? then v.buffer else [];
  }

  /** Opening an admitted entry makes all its rows due, in the buffer or behind the page source. */
  lemma {:induction false} OpenedDue(s: Scan, w: Worker, rows: seq<Row>, route: Route, i: Item)
    requires route.NoObject? ==> rows == []
    requires w.pages.Closed?
    ensures var v := Opened(s, w, rows, route);
      Passing(s, Unread(v), i) + Passing(s, Undelivered(v.pages), i) == Passing(s, rows, i)
  {
    var v := Opened(s, w, rows, route);
    assert Unread(v) == if v.offset == 0 then v.buffer else [];
  }

  lemma {:induction false} LoadValid(s: Scan, w: Worker, route: Route)
    requires CanLoad(s, w, route) && ValidWorker(s, w)
    ensures ValidWorker(s, LoadNext(s, w, route))
  {
  }

  lemma {:induction false} LoadBalance(s: Scan, w: Worker, route: Route, i: Item)
    requires CanLoad(s, w, route) && ValidWorker(s, w)
    ensures WorkerDue(s, w, i) ==
      One(i == Read(w.task.value.index, w.task.value.cur)) + WorkerDue(s, LoadNext(s, w, route), i)
  {
    var a := w.task.value;
    var t, next := s.tasks[a.index], w.(task := Some(a.(cur := a.cur + 1)));
    assert Unread(w) == [] && Unread(next) == [];
    assert RangeDue(s, a.index, a.cur, a.end, i) ==
      EntryDue(s, a.index, a.cur, i) + RangeDue(s, a.index, a.cur + 1, a.end, i);
    if s.admits(t, a.cur) {
      OpenedDue(s, next, s.rows(t, a.cur), route, i);
    }
  }

  lemma {:induction false} PageBalance(s: Scan, w: Worker, i: Item)
    requires CanReadPage(w) && ValidWorker(s, w)
    ensures ValidWorker(s, PageNext(w)) && WorkerDue(s, w, i) == WorkerDue(s, PageNext(w), i)
  {
    var v := PageNext(w);
    assert Unread(w) == [] && Unread(v) == v.buffer;
    assert Undelivered(w.pages) == PageOf(w.pages) + Undelivered(AfterPage(w.pages));
    PassingConcat(s, PageOf(w.pages), Undelivered(AfterPage(w.pages)), i);
  }

  lemma {:induction false} EmitBalance(s: Scan, w: Worker, i: Item)
    requires w.task.Some? && !Drained(w) && ValidWorker(s, w)
    ensures ValidWorker(s, w.(offset := w.offset + 1))
    ensures WorkerDue(s, w, i) ==
      One(s.passes(w.buffer[w.offset]) && i == Emitted(w.buffer[w.offset])) +
      WorkerDue(s, w.(offset := w.offset + 1), i)
  {
    assert Unread(w)[1..] == Unread(w.(offset := w.offset + 1));
  }

  lemma {:induction false} FinishBalance(s: Scan, w: Worker, i: Item)
    requires CanFinish(w) && ValidWorker(s, w)
    ensures ValidWorker(s, w.(task := None)) && WorkerDue(s, w, i) == WorkerDue(s, w.(task := None), i)
  {
    assert Unread(w) == [] && Unread(w.(task := None)) == [];
  }

  lemma {:induction false} WorkerStep(s: Scan, st: State, step: Step, i: Item)
    requires Enabled(s, st, step) && !step.ClaimGroup? && ValidWorker(s, st.workers[step.w])
    ensures Balanced(s, st, step, i)
  {
    var w := st.workers[step.w];
    match step
    case TakeTask(_) => TakeBalance(s, w, i);
    case Load(_, route) =>
      LoadValid(s, w, route);
      LoadBalance(s, w, route, i);
    case ReadPage(_) => PageBalance(s, w, i);
    case FinishTask(_) => FinishBalance(s, w, i);
    case Emit(_) => EmitBalance(s, w, i);
  }

  lemma {:induction false} ClaimStep(s: Scan, st: State, step: Step, i: Item)
    requires ValidScan(s) && Enabled(s, st, step) && step.ClaimGroup? && ValidWorker(s, st.workers[step.w])
    ensures var w, v := st.workers[step.w], WorkerNext(s, st, step);
      ValidWorker(s, v) &&
      TasksDue(s, UnclaimedFrom(s, st.nextGroup), |s.tasks|, i) + WorkerDue(s, w, i) ==
      TasksDue(s, UnclaimedFrom(s, st.nextGroup + 1), |s.tasks|, i) + WorkerDue(s, v, i)
  {
    var g := st.nextGroup;
    if g < |s.groups| {
      assert g + 1 < |s.groups| ==> s.groups[g].end == s.groups[g + 1].begin;
      TasksDueSplit(s, s.groups[g].begin, s.groups[g].end, |s.tasks|, i);
    }
  }

  lemma {:induction false} HistoryGrows(s: Scan, st: State, step: Step, i: Item)
    requires Enabled(s, st, step)
    ensures Next(s, st, step).done[i] == st.done[i] + StepItems(s, st, step)[i]
    ensures Next(s, st, step).carried[i] == st.carried[i] + Carried(s, st, step)[i]
  {
  }

  lemma {:induction false} StepKeepsWorkersValid(s: Scan, st: State, step: Step, i: Item)
    requires ValidScan(s) && ValidWorkers(s, st.workers) && Enabled(s, st, step)
    ensures ValidWorkers(s, Next(s, st, step).workers)
  {
    if step.ClaimGroup? {
      ClaimStep(s, st, step, i);
    } else {
      WorkerStep(s, st, step, i);
    }
  }

  /** What one step moves from due to done. */
  lemma {:induction false} StepBalance(s: Scan, st: State, step: Step, i: Item)
    requires ValidScan(s) && ValidWorkers(s, st.workers) && Enabled(s, st, step)
    ensures Due(s, st, i) + Carried(s, st, step)[i] == Due(s, Next(s, st, step), i) + StepItems(s, st, step)[i]
  {
    ReplaceWorker(s, st.workers, step.w, WorkerNext(s, st, step), i);
    if step.ClaimGroup? {
      ClaimStep(s, st, step, i);
    } else {
      WorkerStep(s, st, step, i);
    }
  }

  lemma {:induction false} StepConserves(s: Scan, st: State, step: Step, i: Item)
    requires ValidScan(s) && Conserved(s, st, i) && Enabled(s, st, step)
    ensures Conserved(s, Next(s, st, step), i)
  {
    HistoryGrows(s, st, step, i);
    StepKeepsWorkersValid(s, st, step, i);
    StepBalance(s, st, step, i);
  }

  // ----- Runs -----

  ghost predicate Run(s: Scan, states: seq<State>, steps: seq<Step>, workers: nat) {
    ValidScan(s) && |states| == |steps| + 1 && states[0] == Init(workers) &&
    forall i :: 0 <= i < |steps| ==> Enabled(s, states[i], steps[i]) && states[i + 1] == Next(s, states[i], steps[i])
  }

  lemma {:induction false} IdleWorkersOweNothing(s: Scan, ws: seq<Worker>, i: Item)
    requires ValidWorkers(s, ws)
    requires forall k :: 0 <= k < |ws| ==> ws[k].task.None? && ws[k].next >= ws[k].groupEnd
    ensures AllWorkersDue(s, ws, i) == 0
  {
    if ws != [] {
      IdleWorkersOweNothing(s, ws[..|ws| - 1], i);
      assert Unread(ws[|ws| - 1]) == [];
    }
  }

  lemma {:induction false} StartsAtZero(s: Scan)
    requires ValidScan(s)
    ensures UnclaimedFrom(s, 0) == 0
  {
  }

  /** Conservation holds after every run, whatever the interleaving. */
  lemma {:induction false} RunConserves(s: Scan, states: seq<State>, steps: seq<Step>, workers: nat, i: Item)
    requires Run(s, states, steps, workers)
    ensures Conserved(s, states[|steps|], i)
    decreases |steps|
  {
    if steps == [] {
      StartsAtZero(s);
      IdleWorkersOweNothing(s, states[0].workers, i);
    } else {
      var n := |steps| - 1;
      assert Run(s, states[..n + 1], steps[..n], workers);
      RunConserves(s, states[..n + 1], steps[..n], workers, i);
      StepConserves(s, states[n], steps[n], i);
    }
  }

  /** All groups are claimed and every worker has nothing left. */
  ghost predicate Finished(s: Scan, st: State) {
    st.nextGroup >= |s.groups| &&
    forall k :: 0 <= k < |st.workers| ==> st.workers[k].task.None? && st.workers[k].next >= st.workers[k].groupEnd
  }

  /** A finished run has done everything exactly once, plus what stale buffers repeated. */
  lemma {:induction false} FinishedRun(s: Scan, states: seq<State>, steps: seq<Step>, workers: nat, i: Item)
    requires Run(s, states, steps, workers) && Finished(s, states[|steps|])
    ensures states[|steps|].done[i] == TasksDue(s, 0, |s.tasks|, i) + states[|steps|].carried[i]
  {
    RunConserves(s, states, steps, workers, i);
    IdleWorkersOweNothing(s, states[|steps|].workers, i);
  }

  /** The double transport never carries anything over. */
  lemma {:induction false} DoubleCarriesNothing(s: Scan, states: seq<State>, steps: seq<Step>, workers: nat)
    requires Run(s, states, steps, workers) && !s.typed
    ensures states[|steps|].carried == multiset{}
    decreases |steps|
  {
    if steps != [] {
      var n := |steps| - 1;
      assert Run(s, states[..n + 1], steps[..n], workers);
      DoubleCarriesNothing(s, states[..n + 1], steps[..n], workers);
    }
  }

  // ----- Consequences for tasks, entries and skipped counts -----

  lemma {:induction false} PassingRowsOnly(s: Scan, rows: seq<Row>, i: Item)
    requires !i.Emitted?
    ensures Passing(s, rows, i) == 0
  {
    if rows != [] {
      PassingRowsOnly(s, rows[1..], i);
    }
  }

  lemma {:induction false} RangeDueCount(s: Scan, k: nat, begin: nat, end: nat, i: Item)
    requires !i.Emitted?
    ensures RangeDue(s, k, begin, end, i) == One(i.Read? && i.task == k && begin <= i.entry < end)
    decreases end - begin
  {
    if begin < end {
      RangeDueCount(s, k, begin + 1, end, i);
      if k < |s.tasks| && s.admits(s.tasks[k], begin) {
        PassingRowsOnly(s, s.rows(s.tasks[k], begin), i);
      }
    }
  }

  /** Multiplicities of claims, skips and reads in the whole task list. */
  ghost function Expected(s: Scan, i: Item): nat
    requires !i.Emitted?
  {
    if i.task >= |s.tasks| then 0
    else
      match i
      case Claimed(_) => 1
      case Skipped(k) => ClipAt(s, k).skipped
      case Read(k, entry) => One(EntryWanted(s.clip, s.tasks[k], entry))
  }

  lemma {:induction false} TaskDueCount(s: Scan, k: nat, i: Item)
    requires ValidScan(s) && k < |s.tasks| && !i.Emitted?
    ensures TaskDue(s, k, i) == if i.task == k then Expected(s, i) else 0
  {
    ClipExact(s.clip, s.tasks[k]);
    var c := ClipAt(s, k);
    if c.kept {
      RangeDueCount(s, k, c.begin, c.end, i);
    }
  }

  lemma {:induction false} TasksDueCount(s: Scan, from: nat, upTo: nat, i: Item)
    requires ValidScan(s) && upTo <= |s.tasks| && !i.Emitted?
    ensures TasksDue(s, from, upTo, i) == (if from <= i.task < upTo then Expected(s, i) else 0)
    decreases upTo - from
  {
    if from < upTo {
      TasksDueCount(s, from + 1, upTo, i);
      TaskDueCount(s, from, i);
    }
  }

  lemma {:induction false} CarriedRowsOnly(s: Scan, states: seq<State>, steps: seq<Step>, workers: nat, i: Item)
    requires Run(s, states, steps, workers) && !i.Emitted?
    ensures states[|steps|].carried[i] == 0
    decreases |steps|
  {
    if steps != [] {
      var n := |steps| - 1;
      assert Run(s, states[..n + 1], steps[..n], workers);
      CarriedRowsOnly(s, states[..n + 1], steps[..n], workers, i);
      PassingCounts(s, states[n].workers[steps[n].w].buffer, i);
      PassingRowsOnly(s, states[n].workers[steps[n].w].buffer, i);
    }
  }

  /** In a finished run each task is claimed once, and exactly the wanted entries are read, once each. */
  lemma {:induction false} FinishedClaims(s: Scan, states: seq<State>, steps: seq<Step>, workers: nat, i: Item)
    requires Run(s, states, steps, workers) && Finished(s, states[|steps|]) && !i.Emitted?
    ensures states[|steps|].done[i] == Expected(s, i)
  {
    FinishedRun(s, states, steps, workers, i);
    TasksDueCount(s, 0, |s.tasks|, i);
    CarriedRowsOnly(s, states, steps, workers, i);
  }

  ghost function SkipsDone(done: multiset<Item>, tasks: nat): nat {
    if tasks == 0 then 0 else SkipsDone(done, tasks - 1) + done[Skipped(tasks - 1)]
  }

  lemma {:induction false} SkipsDoneStep(a: multiset<Item>, b: multiset<Item>, tasks: nat)
    ensures SkipsDone(a + b, tasks) == SkipsDone(a, tasks) + SkipsDone(b, tasks)
  {
    if tasks > 0 {
      SkipsDoneStep(a, b, tasks - 1);
    }
  }

  lemma {:induction false} SkipsOfTask(k: nat, n: nat, tasks: nat)
    ensures SkipsDone(multiset{Claimed(k)} + multiset{}[Skipped(k) := n], tasks) == if k < tasks then n else 0
  {
    if tasks > 0 {
      SkipsOfTask(k, n, tasks - 1);
    }
  }

  lemma {:induction false} SkipsOfOther(items: multiset<Item>, tasks: nat)
    requires forall k :: items[Skipped(k)] == 0
    ensures SkipsDone(items, tasks) == 0
  {
    if tasks > 0 {
      SkipsOfOther(items, tasks - 1);
    }
  }

  /** The shared counter always equals the skips recorded so far. */
  lemma {:induction false} CounterTracksSkips(s: Scan, states: seq<State>, steps: seq<Step>, workers: nat)
    requires Run(s, states, steps, workers)
    ensures states[|steps|].skippedEntries == SkipsDone(states[|steps|].done, |s.tasks|)
    decreases |steps|
  {
    if steps == [] {
      SkipsOfOther(multiset{}, |s.tasks|);
    } else {
      var n := |steps| - 1;
      assert Run(s, states[..n + 1], steps[..n], workers);
      CounterTracksSkips(s, states[..n + 1], steps[..n], workers);
      var items := StepItems(s, states[n], steps[n]);
      SkipsDoneStep(states[n].done, items, |s.tasks|);
      if steps[n].TakeTask? {
        var k := states[n].workers[steps[n].w].next;
        SkipsOfTask(k, ClipAt(s, k).skipped, |s.tasks|);
      } else {
        SkipsOfOther(items, |s.tasks|);
      }
    }
  }

  ghost function PlannedEntries(ts: seq<Task>): int {
    if ts == [] then 0 else PlannedEntries(ts[..|ts| - 1]) + (ts[|ts| - 1].end - ts[|ts| - 1].begin)
  }

  ghost function ReadsDone(done: multiset<Item>, k: nat, begin: nat, end: nat): nat
    decreases end - begin
  {
    if begin >= end then 0 else done[Read(k, begin)] + ReadsDone(done, k, begin + 1, end)
  }

  /** The entries that the first tasks have read, whatever the clips wanted. */
  ghost function EntriesRead(done: multiset<Item>, ts: seq<Task>): nat {
    if ts == [] then 0
    else EntriesRead(done, ts[..|ts| - 1]) + ReadsDone(done, |ts| - 1, ts[|ts| - 1].begin, ts[|ts| - 1].end)
  }

  lemma {:induction false} ReadsOfTask(done: multiset<Item>, k: nat, begin: nat, end: nat, first: nat, last: nat)
    requires first <= last
    requires forall e: nat :: begin <= e < end ==> done[Read(k, e)] == One(first <= e < last)
    ensures ReadsDone(done, k, begin, end) == Max(0, Min(end, last) - Max(begin, first))
    decreases end - begin
  {
    if begin < end {
      ReadsOfTask(done, k, begin + 1, end, first, last);
    }
  }

  lemma {:induction false} TaskAccounted(s: Scan, states: seq<State>, steps: seq<Step>, workers: nat, k: nat)
    requires Run(s, states, steps, workers) && Finished(s, states[|steps|]) && k < |s.tasks|
    ensures var done, t := states[|steps|].done, s.tasks[k];
      ReadsDone(done, k, t.begin, t.end) + done[Skipped(k)] == t.end - t.begin
  {
    var done, t, c := states[|steps|].done, s.tasks[k], ClipAt(s, k);
    FinishedClaims(s, states, steps, workers, Skipped(k));
    ClipExact(s.clip, t);
    forall e: nat | t.begin <= e < t.end ensures done[Read(k, e)] == One(c.kept && c.begin <= e < c.end) {
      FinishedClaims(s, states, steps, workers, Read(k, e));
    }
    ReadsOfTask(done, k, t.begin, t.end, if c.kept then c.begin else 0, if c.kept then c.end else 0);
  }

  lemma {:induction false} TasksAccounted(s: Scan, states: seq<State>, steps: seq<Step>, workers: nat, tasks: nat)
    requires Run(s, states, steps, workers) && Finished(s, states[|steps|]) && tasks <= |s.tasks|
    ensures var done := states[|steps|].done;
      EntriesRead(done, s.tasks[..tasks]) + SkipsDone(done, tasks) == PlannedEntries(s.tasks[..tasks])
  {
    if tasks > 0 {
      var k := tasks - 1;
      TasksAccounted(s, states, steps, workers, k);
      assert s.tasks[..tasks][..k] == s.tasks[..k];
      TaskAccounted(s, states, steps, workers, k);
    }
  }

  /** In a finished run the entries read plus `skipped_entries` are the planned entries. */
  lemma {:induction false} EntriesAccounted(s: Scan, states: seq<State>, steps: seq<Step>, workers: nat)
    requires Run(s, states, steps, workers) && Finished(s, states[|steps|])
    ensures EntriesRead(states[|steps|].done, s.tasks) + states[|steps|].skippedEntries == PlannedEntries(s.tasks)
  {
    CounterTracksSkips(s, states, steps, workers);
    TasksAccounted(s, states, steps, workers, |s.tasks|);
    assert s.tasks[..|s.tasks|] == s.tasks;
  }
}
