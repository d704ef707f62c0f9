/** The 64-bit transport. A claim rewinds the typed buffer without clearing it, so what the last
    admitted entry of a task left there is read again. This module says for which scans that matters. */
module TypedTransport {
  import opened Numbers
  import opened Ranges
  import opened Planner
  import opened Executor

  // ----- What an entry leaves in the buffer -----

  /** The buffer once a page source has been read to its end. */
  function LastPage(p: Pages, buffer: seq<Row>): seq<Row>
    decreases |Undelivered(p)|, !p.Closed?
  {
    if p.Closed? then buffer else LastPage(AfterPage(p), PageOf(p))
  }

  function LeftBuffer(w: Worker): seq<Row> {
    LastPage(w.pages, w.buffer)
  }

  /** The multiple of the page size at or before a position. */
  function PageStart(n: nat): (start: nat)
    ensures start <= n < start + VECTOR_SIZE
  {
    if n < VECTOR_SIZE then 0 else VECTOR_SIZE + PageStart(n - VECTOR_SIZE)
  }

  /** What an admitted entry leaves in the typed buffer: of an object cursor, the values behind the last full
      page; of a serialized cursor, the page that holds the last value. */
  function Leftover(rows: seq<Row>, route: Route): seq<Row> {
    match route
    case WholeEntry => rows
    case ObjectPages => rows[PageStart(|rows|)..]
    case SerializedPages => if rows == [] then [] else rows[PageStart(|rows| - 1)..]
    case NoObject(rejected) => rejected
  }

  lemma {:induction false} DropPage(rows: seq<Row>, at: nat)
    requires VECTOR_SIZE <= at <= |rows|
    ensures rows[VECTOR_SIZE..][at - VECTOR_SIZE..] == rows[at..]
  {
  }

  lemma {:induction false} LastObjectPage(rows: seq<Row>, buffer: seq<Row>)
    ensures LastPage(Object(rows), buffer) == Leftover(rows, ObjectPages)
    decreases |rows|
  {
    if |rows| < VECTOR_SIZE {
      assert LastPage(Object(rows), buffer) == PageOf(Object(rows)) == rows;
    } else {
      var next := rows[VECTOR_SIZE..];
      LastObjectPage(next, rows[..VECTOR_SIZE]);
      DropPage(rows, PageStart(|rows|));
    }
  }

  lemma {:induction false} LastSerializedPage(rows: seq<Row>, buffer: seq<Row>)
    ensures LastPage(Serialized(rows), buffer) == Leftover(rows, SerializedPages)
    decreases |rows|
  {
    if |rows| <= VECTOR_SIZE {
      assert LastPage(Serialized(rows), buffer) == PageOf(Serialized(rows)) == rows;
    } else {
      var next := rows[VECTOR_SIZE..];
      LastSerializedPage(next, rows[..VECTOR_SIZE]);
      DropPage(rows, PageStart(|rows| - 1));
    }
  }

  lemma {:induction false} OpenedLeaves(s: Scan, w: Worker, rows: seq<Row>, route: Route)
    requires s.typed && w.pages.Closed?
    ensures LeftBuffer(Opened(s, w, rows, route)) == Leftover(rows, route)
  {
    var v := Opened(s, w, rows, route);
    match route
    case WholeEntry =>
    case ObjectPages => LastObjectPage(rows, v.buffer);
    case SerializedPages => LastSerializedPage(rows, v.buffer);
    case NoObject(_) =>
  }

  // ----- The condition -----

  predicate NonePasses(s: Scan, rows: seq<Row>) {
    forall k :: 0 <= k < |rows| ==> !s.passes(rows[k])
  }

  lemma {:induction false} NonePassesExactly(s: Scan, rows: seq<Row>)
    ensures NonePasses(s, rows) <==> PassingRows(s, rows) == multiset{}
  {
    if rows != [] {
      NonePassesExactly(s, rows[1..]);
      assert rows == [rows[0]] + rows[1..];
      if !s.passes(rows[0]) {
        assert PassingRows(s, rows) == PassingRows(s, rows[1..]);
        assert NonePasses(s, rows[1..]) ==> NonePasses(s, rows);
        forall k | 0 <= k < |rows| - 1 && NonePasses(s, rows) ensures !s.passes(rows[1..][k]) {
          assert rows[1..][k] == rows[k + 1];
        }
      } else {
        assert Emitted(rows[0]) in PassingRows(s, rows);
      }
    }
  }

  predicate KeptAt(s: Scan, k: nat) {
    k < |s.tasks| && ClipAt(s, k).kept
  }

  ghost predicate KeptFrom(s: Scan, from: nat) {
    exists k: nat :: from <= k && KeptAt(s, k)
  }

  predicate AdmittedAt(s: Scan, k: nat, entry: int) {
    k < |s.tasks| && s.admits(s.tasks[k], entry)
  }

  ghost predicate AdmitsWithin(s: Scan, k: nat, from: nat, upTo: nat) {
    exists entry: nat :: from <= entry < upTo && AdmittedAt(s, k, entry)
  }

  /** The last entry of a kept task that the reader begins. */
  ghost predicate LastAdmitted(s: Scan, k: nat, entry: nat) {
    KeptAt(s, k) && ClipAt(s, k).begin <= entry < ClipAt(s, k).end && AdmittedAt(s, k, entry) &&
    !AdmitsWithin(s, k, entry + 1, ClipAt(s, k).end)
  }

  /** No kept task but the last one leaves a passing row in the buffer, whichever way its last admitted
      entry is read. */
  ghost predicate LeavesNothing(s: Scan) {
    forall k: nat, entry: nat, route ::
      LastAdmitted(s, k, entry) && KeptFrom(s, k + 1) && RouteOpen(s, s.tasks[k], entry, route) ==>
        NonePasses(s, Leftover(s.rows(s.tasks[k], entry), route))
  }

  /** Everything has been done exactly as often as it was due. */
  ghost predicate Exact(s: Scan, st: State) {
    forall i :: st.done[i] == TasksDue(s, 0, |s.tasks|, i)
  }

  /** Every finished run is exact, whatever the workers, their schedule and the routes of their readers. */
  ghost predicate AlwaysExact(s: Scan) {
    forall states: seq<State>, steps: seq<Step>, workers: nat ::
      Run(s, states, steps, workers) && Finished(s, states[|steps|]) ==> Exact(s, states[|steps|])
  }

  // ----- The condition suffices -----

  /** No admitted entry of the current task is still to come. */
  ghost predicate NoneAhead(s: Scan, w: Worker) {
    w.task.Some? ==> !AdmitsWithin(s, w.task.value.index, w.task.value.cur, w.task.value.end)
  }

  /** The current task is a kept one behind `next`, and its remaining entries are those of its clip. */
  ghost predicate TaskInOrder(s: Scan, w: Worker) {
    w.task.Some? ==>
      var a := w.task.value;
      a.index < w.next && KeptAt(s, a.index) &&
      ClipAt(s, a.index).begin <= a.cur <= a.end == ClipAt(s, a.index).end
  }

  ghost predicate Tidy(s: Scan, w: Worker) {
    ValidWorker(s, w) && TaskInOrder(s, w) &&
    (NoneAhead(s, w) && KeptFrom(s, w.next) ==> NonePasses(s, LeftBuffer(w)))
  }

  ghost predicate InOrder(s: Scan, st: State, w: Worker) {
    w.next <= w.groupEnd <= UnclaimedFrom(s, st.nextGroup)
  }

  ghost predicate AllTidy(s: Scan, st: State) {
    forall k :: 0 <= k < |st.workers| ==> Tidy(s, st.workers[k]) && InOrder(s, st, st.workers[k])
  }

  lemma {:induction false} ClipWithin(s: Scan, k: nat)
    requires ValidScan(s) && KeptAt(s, k)
    ensures ClipAt(s, k).begin < ClipAt(s, k).end
  {
    ClipExact(s.clip, s.tasks[k]);
  }

  /** Reading an entry: the buffer it leaves, or the one from before if it is not admitted. */
  lemma {:induction false} LoadLeaves(s: Scan, w: Worker, route: Route)
    requires s.typed && CanLoad(s, w, route)
    ensures var a := w.task.value;
      LeftBuffer(LoadNext(s, w, route)) ==
        if AdmittedAt(s, a.index, a.cur) then Leftover(s.rows(s.tasks[a.index], a.cur), route) else LeftBuffer(w)
  {
    var a := w.task.value;
    var v := w.(task := Some(a.(cur := a.cur + 1)));
    if AdmittedAt(s, a.index, a.cur) {
      OpenedLeaves(s, v, s.rows(s.tasks[a.index], a.cur), route);
    }
  }

  /** If no entry is to come behind this one, what it leaves does not pass. */
  lemma {:induction false} LastLoad(s: Scan, w: Worker, route: Route)
    requires s.typed && LeavesNothing(s) && CanLoad(s, w, route) && Tidy(s, w)
    requires NoneAhead(s, LoadNext(s, w, route)) && KeptFrom(s, w.next)
    ensures NonePasses(s, LeftBuffer(LoadNext(s, w, route)))
  {
    var a := w.task.value;
    LoadLeaves(s, w, route);
    if AdmittedAt(s, a.index, a.cur) {
      assert LastAdmitted(s, a.index, a.cur);
      KeptEarlier(s, a.index + 1, w.next);
    } else {
      assert NoneAhead(s, w);
    }
  }

  lemma {:induction false} TidyLoad(s: Scan, w: Worker, route: Route)
    requires s.typed && LeavesNothing(s) && CanLoad(s, w, route) && Tidy(s, w)
    ensures Tidy(s, LoadNext(s, w, route))
  {
    var v := LoadNext(s, w, route);
    LoadValid(s, w, route);
    if NoneAhead(s, v) && KeptFrom(s, v.next) {
      LastLoad(s, w, route);
    }
  }

  lemma {:induction false} KeptEarlier(s: Scan, from: nat, later: nat)
    requires from <= later && KeptFrom(s, later)
    ensures KeptFrom(s, from)
  {
  }

  lemma {:induction false} TidyTake(s: Scan, w: Worker)
    requires ValidScan(s) && s.typed && CanTake(s, w) && Tidy(s, w)
    ensures Tidy(s, TakeNext(s, w)) && (KeptAt(s, w.next) ==> StaleRows(s, w) == multiset{})
  {
    TakeBalance(s, w, Claimed(0));
    if KeptAt(s, w.next) {
      ClipWithin(s, w.next);
      assert KeptFrom(s, w.next);
      NonePassesExactly(s, w.buffer);
    } else if KeptFrom(s, w.next + 1) {
      KeptEarlier(s, w.next, w.next + 1);
    }
  }

  lemma {:induction false} TidyPage(s: Scan, w: Worker)
    requires CanReadPage(w) && Tidy(s, w)
    ensures Tidy(s, PageNext(w))
  {
    PageBalance(s, w, Claimed(0));
    assert LeftBuffer(PageNext(w)) == LeftBuffer(w);
  }

  lemma {:induction false} TidyEmit(s: Scan, w: Worker)
    requires w.task.Some? && !Drained(w) && Tidy(s, w)
    ensures Tidy(s, w.(offset := w.offset + 1))
  {
    EmitBalance(s, w, Claimed(0));
  }

  lemma {:induction false} TidyFinish(s: Scan, w: Worker)
    requires CanFinish(w) && Tidy(s, w)
    ensures Tidy(s, w.(task := None))
  {
    FinishBalance(s, w, Claimed(0));
    assert NoneAhead(s, w);
  }

  lemma {:induction false} TidyClaim(s: Scan, st: State, step: Step)
    requires ValidScan(s) && Enabled(s, st, step) && step.ClaimGroup?
    requires Tidy(s, st.workers[step.w]) && InOrder(s, st, st.workers[step.w])
    ensures Tidy(s, WorkerNext(s, st, step))
  {
    var w, v := st.workers[step.w], WorkerNext(s, st, step);
    ClaimStep(s, st, step, Claimed(0));
    if KeptFrom(s, v.next) {
      KeptEarlier(s, w.next, v.next);
    }
  }

  lemma {:induction false} OrderKept(s: Scan, st: State, step: Step, k: nat)
    requires ValidScan(s) && Enabled(s, st, step) && k < |st.workers|
    requires InOrder(s, st, st.workers[k])
    ensures InOrder(s, Next(s, st, step), Next(s, st, step).workers[k])
  {
    var g := st.nextGroup;
    assert g + 1 < |s.groups| ==> s.groups[g].end == s.groups[g + 1].begin;
  }

  lemma {:induction false} TidyWorker(s: Scan, st: State, step: Step)
    requires ValidScan(s) && s.typed && LeavesNothing(s) && Enabled(s, st, step)
    requires Tidy(s, st.workers[step.w]) && InOrder(s, st, st.workers[step.w])
    ensures Tidy(s, WorkerNext(s, st, step)) && Carried(s, st, step) == multiset{}
  {
    var w := st.workers[step.w];
    match step {
      case ClaimGroup(_) => TidyClaim(s, st, step);
      case TakeTask(_) => TidyTake(s, w);
      case Load(_, route) => TidyLoad(s, w, route);
      case ReadPage(_) => TidyPage(s, w);
      case FinishTask(_) => TidyFinish(s, w);
      case Emit(_) => TidyEmit(s, w);
    }
  }

  /** Every step keeps the buffers tidy and carries nothing over. */
  lemma {:induction false} TidyStep(s: Scan, st: State, step: Step)
    requires ValidScan(s) && s.typed && LeavesNothing(s) && Enabled(s, st, step) && AllTidy(s, st)
    ensures AllTidy(s, Next(s, st, step)) && Carried(s, st, step) == multiset{}
  {
    assert Tidy(s, st.workers[step.w]);
    TidyWorker(s, st, step);
    forall k | 0 <= k < |st.workers|
      ensures var n := Next(s, st, step); Tidy(s, n.workers[k]) && InOrder(s, n, n.workers[k])
    {
      OtherTidy(s, st, step, k);
      OrderKept(s, st, step, k);
    }
  }

  lemma {:induction false} OtherTidy(s: Scan, st: State, step: Step, k: nat)
    requires Enabled(s, st, step) && k < |st.workers| && Tidy(s, st.workers[k])
    requires Tidy(s, WorkerNext(s, st, step))
    ensures Tidy(s, Next(s, st, step).workers[k])
  {
    assert Next(s, st, step).workers[k] == if k == step.w then WorkerNext(s, st, step) else st.workers[k];
  }

  lemma {:induction false} TidyRun(s: Scan, states: seq<State>, steps: seq<Step>, workers: nat)
    requires s.typed && LeavesNothing(s) && Run(s, states, steps, workers)
    ensures AllTidy(s, states[|steps|]) && states[|steps|].carried == multiset{}
    decreases |steps|
  {
    if steps == [] {
      StartsAtZero(s);
    } else {
      var n := |steps| - 1;
      assert Run(s, states[..n + 1], steps[..n], workers);
      TidyRun(s, states[..n + 1], steps[..n], workers);
      TidyStep(s, states[n], steps[n]);
    }
  }

  // ----- The condition is needed -----

  type Strategy = (Task, int) -> Route

  /** The reader can serve every admitted entry; a scan that cannot fails instead of finishing. */
  ghost predicate Readable(s: Scan) {
    forall k: nat, entry: int :: AdmittedAt(s, k, entry) ==> exists route :: RouteOpen(s, s.tasks[k], entry, route)
  }

  ghost predicate Plays(s: Scan, p: Strategy) {
    forall k: nat, entry: int :: AdmittedAt(s, k, entry) ==> RouteOpen(s, s.tasks[k], entry, p(s.tasks[k], entry))
  }

  /** What a single worker does next: its tasks in order, each entry by the route of the strategy. */
  ghost function Choice(s: Scan, p: Strategy, w: Worker): Step {
    if w.task.None? then if w.next < w.groupEnd then TakeTask(0) else ClaimGroup(0)
    else if !Drained(w) then Emit(0)
    else if !w.pages.Closed? then ReadPage(0)
    else if w.task.value.cur < w.task.value.end && w.task.value.index < |s.tasks|
    then Load(0, p(s.tasks[w.task.value.index], w.task.value.cur))
    else FinishTask(0)
  }

  /** A single worker that has taken every group claimed so far. */
  ghost predicate Alone(s: Scan, st: State) {
    |st.workers| == 1 && UpToDate(s, st.workers[0], UnclaimedFrom(s, st.nextGroup))
  }

  ghost predicate UpToDate(s: Scan, w: Worker, unclaimed: nat) {
    ValidWorker(s, w) && TaskInOrder(s, w) && w.next <= w.groupEnd == unclaimed
  }

  /** Some passing row is left by the k-th task if its last admitted entry is read as the strategy says. */
  ghost predicate Leaves(s: Scan, p: Strategy, k: nat, entry: nat) {
    LastAdmitted(s, k, entry) && KeptFrom(s, k + 1) &&
    !NonePasses(s, Leftover(s.rows(s.tasks[k], entry), p(s.tasks[k], entry)))
  }

  lemma {:induction false} ChoiceEnabled(s: Scan, p: Strategy, st: State)
    requires ValidScan(s) && Plays(s, p) && Alone(s, st)
    ensures Enabled(s, st, Choice(s, p, st.workers[0]))
  {
    var a := st.workers[0].task;
    if a.Some? && AdmittedAt(s, a.value.index, a.value.cur) {
      assert RouteOpen(s, s.tasks[a.value.index], a.value.cur, p(s.tasks[a.value.index], a.value.cur));
    }
  }

  lemma {:induction false} OrderedLoad(s: Scan, w: Worker, route: Route)
    requires CanLoad(s, w, route) && TaskInOrder(s, w)
    ensures var v := LoadNext(s, w, route);
      TaskInOrder(s, v) && v.next == w.next && v.groupEnd == w.groupEnd
  {
  }

  lemma {:induction false} OrderedTake(s: Scan, w: Worker, unclaimed: nat)
    requires ValidScan(s) && CanTake(s, w) && UpToDate(s, w, unclaimed)
    ensures UpToDate(s, TakeNext(s, w), unclaimed)
  {
    TakeBalance(s, w, Claimed(0));
    if KeptAt(s, w.next) {
      ClipWithin(s, w.next);
    }
  }

  lemma {:induction false} OrderedStep(s: Scan, st: State, step: Step, unclaimed: nat)
    requires ValidScan(s) && Enabled(s, st, step) && !step.ClaimGroup? && UpToDate(s, st.workers[step.w], unclaimed)
    ensures UpToDate(s, WorkerNext(s, st, step), unclaimed)
  {
    var w := st.workers[step.w];
    match step
    case TakeTask(_) => OrderedTake(s, w, unclaimed);
    case Load(_, route) =>
      LoadValid(s, w, route);
      OrderedLoad(s, w, route);
    case ReadPage(_) => PageBalance(s, w, Claimed(0));
    case FinishTask(_) => FinishBalance(s, w, Claimed(0));
    case Emit(_) => EmitBalance(s, w, Claimed(0));
  }

  lemma {:induction false} OrderedClaim(s: Scan, st: State, step: Step)
    requires ValidScan(s) && Enabled(s, st, step) && step.ClaimGroup?
    requires UpToDate(s, st.workers[step.w], UnclaimedFrom(s, st.nextGroup))
    ensures UpToDate(s, WorkerNext(s, st, step), UnclaimedFrom(s, st.nextGroup + 1))
  {
    ClaimStep(s, st, step, Claimed(0));
    var g := st.nextGroup;
    assert g + 1 < |s.groups| ==> s.groups[g].end == s.groups[g + 1].begin;
  }

  lemma {:induction false} AloneStep(s: Scan, st: State, step: Step)
    requires ValidScan(s) && Alone(s, st) && Enabled(s, st, step)
    ensures Alone(s, Next(s, st, step))
  {
    if step.ClaimGroup? {
      OrderedClaim(s, st, step);
    } else {
      OrderedStep(s, st, step, UnclaimedFrom(s, st.nextGroup));
    }
  }

  /** A worker on its way to the repetition: it has yet to take or to finish the task, or holds its rows. */
  ghost predicate OnCourse(s: Scan, w: Worker, k: nat, entry: nat) {
    || w.next <= k
    || (w.next == k + 1 && w.task.Some? && w.task.value.index == k && w.task.value.cur <= entry)
    || (NoneAhead(s, w) && KeptFrom(s, w.next) && !NonePasses(s, LeftBuffer(w)))
  }

  lemma {:induction false} OnCourseTake(s: Scan, w: Worker, k: nat, entry: nat)
    requires s.typed && CanTake(s, w) && ValidWorker(s, w) && LastAdmitted(s, k, entry) && OnCourse(s, w, k, entry)
    ensures OnCourse(s, TakeNext(s, w), k, entry) || (KeptAt(s, w.next) && StaleRows(s, w) != multiset{})
  {
    if w.next > k {
      if KeptAt(s, w.next) {
        NonePassesExactly(s, w.buffer);
      } else {
        var j: nat :| w.next <= j && KeptAt(s, j);
        assert KeptFrom(s, w.next + 1);
      }
    }
  }

  lemma {:induction false} OnCourseLoad(s: Scan, p: Strategy, w: Worker, route: Route, k: nat, entry: nat)
    requires s.typed && CanLoad(s, w, route) && TaskInOrder(s, w)
    requires route == p(s.tasks[w.task.value.index], w.task.value.cur)
    requires Leaves(s, p, k, entry) && OnCourse(s, w, k, entry)
    ensures OnCourse(s, LoadNext(s, w, route), k, entry)
  {
    var a := w.task.value;
    LoadLeaves(s, w, route);
    OrderedLoad(s, w, route);
    if NoneAhead(s, w) {
      assert !AdmittedAt(s, a.index, a.cur);
      assert NoneAhead(s, LoadNext(s, w, route));
    }
  }

  lemma {:induction false} OnCourseOther(s: Scan, st: State, step: Step, k: nat, entry: nat)
    requires Enabled(s, st, step) && !step.TakeTask? && !step.Load? && Alone(s, st) && ValidScan(s)
    requires OnCourse(s, st.workers[0], k, entry) && LastAdmitted(s, k, entry)
    ensures OnCourse(s, WorkerNext(s, st, step), k, entry)
  {
    var w, v := st.workers[0], WorkerNext(s, st, step);
    assert LeftBuffer(v) == LeftBuffer(w);
    assert NoneAhead(s, w) ==> NoneAhead(s, v);
    if step.ClaimGroup? {
      assert v.next == w.next || UnclaimedFrom(s, st.nextGroup) == |s.tasks|;
    }
  }

  ghost predicate Repeats(s: Scan, st: State, k: nat, entry: nat)
    requires |st.workers| == 1
  {
    st.carried != multiset{} || OnCourse(s, st.workers[0], k, entry)
  }

  /** A step of the single worker does not avert the repetition. */
  lemma {:induction false} RepeatsStep(s: Scan, p: Strategy, st: State, k: nat, entry: nat)
    requires ValidScan(s) && s.typed && Plays(s, p) && Alone(s, st)
    requires Leaves(s, p, k, entry) && Repeats(s, st, k, entry)
    ensures var step := Choice(s, p, st.workers[0]);
      Enabled(s, st, step) && Repeats(s, Next(s, st, step), k, entry)
  {
    var w := st.workers[0];
    var step := Choice(s, p, w);
    ChoiceEnabled(s, p, st);
    if st.carried == multiset{} {
      if step.TakeTask? {
        OnCourseTake(s, w, k, entry);
      } else if step.Load? {
        OnCourseLoad(s, p, w, step.route, k, entry);
      } else {
        OnCourseOther(s, st, step, k, entry);
      }
    }
  }

  // What a worker still has to do, from groups down to the rows in its buffer.

  function EntriesLeft(w: Worker): nat {
    if w.task.None? then 0
    else 1 + if w.task.value.cur < w.task.value.end then w.task.value.end - w.task.value.cur else 0
  }

  function PagesLeft(p: Pages): nat {
    if p.Closed? then 0 else 1 + |p.rest|
  }

  function GroupsLeft(s: Scan, st: State): nat {
    if st.nextGroup < |s.groups| then |s.groups| - st.nextGroup else 0
  }

  function TasksLeft(w: Worker): nat {
    if w.next < w.groupEnd then w.groupEnd - w.next else 0
  }

  /** Less is left in `after` than in `before`. */
  predicate Closer(s: Scan, before: State, after: State)
    requires |before.workers| == 1 && |after.workers| == 1
  {
    var w, v := before.workers[0], after.workers[0];
    GroupsLeft(s, after) < GroupsLeft(s, before) || (GroupsLeft(s, after) == GroupsLeft(s, before) && (
      TasksLeft(v) < TasksLeft(w) || (TasksLeft(v) == TasksLeft(w) && (
        EntriesLeft(v) < EntriesLeft(w) || (EntriesLeft(v) == EntriesLeft(w) && (
          PagesLeft(v.pages) < PagesLeft(w.pages) || (PagesLeft(v.pages) == PagesLeft(w.pages) &&
          |Unread(v)| < |Unread(w)|)))))))
  }

  lemma {:induction false} LoadProgress(s: Scan, w: Worker, route: Route)
    requires CanLoad(s, w, route)
    ensures var v := LoadNext(s, w, route);
      TasksLeft(v) == TasksLeft(w) && EntriesLeft(v) < EntriesLeft(w)
  {
  }

  lemma {:induction false} PageProgress(w: Worker)
    requires CanReadPage(w)
    ensures PagesLeft(PageNext(w).pages) < PagesLeft(w.pages)
  {
  }

  lemma {:induction false} TakeProgress(s: Scan, w: Worker)
    requires CanTake(s, w)
    ensures TasksLeft(TakeNext(s, w)) < TasksLeft(w)
  {
  }

  lemma {:induction false} ChoiceProgress(s: Scan, p: Strategy, st: State)
    requires ValidScan(s) && Plays(s, p) && Alone(s, st) && !Finished(s, st)
    ensures var step := Choice(s, p, st.workers[0]);
      Enabled(s, st, step) && Closer(s, st, Next(s, st, step))
  {
    ChoiceEnabled(s, p, st);
    var w := st.workers[0];
    var step := Choice(s, p, w);
    if step.TakeTask? {
      TakeProgress(s, w);
    } else if step.Load? {
      LoadProgress(s, w, step.route);
    } else if step.ReadPage? {
      PageProgress(w);
    }
  }

  lemma {:induction false} GreedyStep(s: Scan, p: Strategy, st: State, k: nat, entry: nat)
    returns (step: Step, next: State)
    requires ValidScan(s) && s.typed && Plays(s, p) && Leaves(s, p, k, entry)
    requires Alone(s, st) && Repeats(s, st, k, entry) && !Finished(s, st)
    ensures Enabled(s, st, step) && next == Next(s, st, step)
    ensures Alone(s, next) && Repeats(s, next, k, entry) && Closer(s, st, next)
  {
    step := Choice(s, p, st.workers[0]);
    RepeatsStep(s, p, st, k, entry);
    ChoiceProgress(s, p, st);
    AloneStep(s, st, step);
    next := Next(s, st, step);
  }

  lemma {:induction false} RunExtended(s: Scan, states: seq<State>, steps: seq<Step>, step: Step, next: State)
    requires Run(s, states, steps, 1) && Enabled(s, states[|steps|], step) && next == Next(s, states[|steps|], step)
    ensures Run(s, states + [next], steps + [step], 1)
  {
    var more, all := states + [next], steps + [step];
    forall i | 0 <= i < |all| ensures Enabled(s, more[i], all[i]) && more[i + 1] == Next(s, more[i], all[i]) {
      if i < |steps| {
        assert more[i] == states[i] && more[i + 1] == states[i + 1] && all[i] == steps[i];
      } else {
        assert more[i] == states[i] && more[i + 1] == next && all[i] == step;
      }
    }
  }

  /** From any such state the single worker finishes, and the repetition happens on the way. */
  lemma {:induction false} RunOut(s: Scan, p: Strategy, states: seq<State>, steps: seq<Step>, st: State, k: nat,
                                  entry: nat)
    returns (allStates: seq<State>, allSteps: seq<Step>)
    requires s.typed && Plays(s, p) && Leaves(s, p, k, entry)
    requires Run(s, states, steps, 1) && st == states[|steps|] && Alone(s, st) && Repeats(s, st, k, entry)
    ensures Run(s, allStates, allSteps, 1) && Finished(s, allStates[|allSteps|])
    ensures allStates[|allSteps|].carried != multiset{}
    decreases GroupsLeft(s, st), TasksLeft(st.workers[0]), EntriesLeft(st.workers[0]),
              PagesLeft(st.workers[0].pages), |Unread(st.workers[0])|
  {
    if Finished(s, st) {
      return states, steps;
    }
    var step, next := GreedyStep(s, p, st, k, entry);
    RunExtended(s, states, steps, step, next);
    allStates, allSteps := RunOut(s, p, states + [next], steps + [step], next, k, entry);
  }

  /** Any strategy can be made to read one entry by a given route. */
  lemma {:induction false} StrategyWith(s: Scan, k: nat, entry: nat, route: Route) returns (p: Strategy)
    requires Readable(s) && AdmittedAt(s, k, entry) && RouteOpen(s, s.tasks[k], entry, route)
    ensures Plays(s, p) && p(s.tasks[k], entry) == route
  {
    var t := s.tasks[k];
    p := (u: Task, e: int) => if u == t && e == entry then route else SomeRoute(s, u, e);
  }

  ghost function SomeRoute(s: Scan, t: Task, entry: int): Route {
    if route :| RouteOpen(s, t, entry, route) then route else WholeEntry
  }

  /** A passing row left for a later task is emitted once more in some finished run. */
  lemma {:induction false} LeftoverRepeats(s: Scan, k: nat, entry: nat, route: Route)
    returns (states: seq<State>, steps: seq<Step>)
    requires ValidScan(s) && s.typed && Readable(s)
    requires LastAdmitted(s, k, entry) && KeptFrom(s, k + 1) && RouteOpen(s, s.tasks[k], entry, route)
    requires !NonePasses(s, Leftover(s.rows(s.tasks[k], entry), route))
    ensures Run(s, states, steps, 1) && Finished(s, states[|steps|]) && !Exact(s, states[|steps|])
  {
    var p := StrategyWith(s, k, entry, route);
    StartsAtZero(s);
    states, steps := RunOut(s, p, [Init(1)], [], Init(1), k, entry);
    var i :| i in states[|steps|].carried;
    FinishedRun(s, states, steps, 1, i);
  }

  /** The 64-bit transport emits every row exactly as often as due, for all workers and schedules, if and only
      if no kept task but the last one leaves a passing row in the buffer. */
  lemma {:induction false} TypedExactly(s: Scan)
    requires ValidScan(s) && s.typed && Readable(s)
    ensures AlwaysExact(s) <==> LeavesNothing(s)
  {
    if LeavesNothing(s) {
      forall states: seq<State>, steps: seq<Step>, workers: nat |
        Run(s, states, steps, workers) && Finished(s, states[|steps|])
        ensures Exact(s, states[|steps|])
      {
        TidyRun(s, states, steps, workers);
        forall i ensures states[|steps|].done[i] == TasksDue(s, 0, |s.tasks|, i) {
          FinishedRun(s, states, steps, workers, i);
        }
      }
    } else {
      var k: nat, entry: nat, route :|
        LastAdmitted(s, k, entry) && KeptFrom(s, k + 1) && RouteOpen(s, s.tasks[k], entry, route) &&
        !NonePasses(s, Leftover(s.rows(s.tasks[k], entry), route));
      var states, steps := LeftoverRepeats(s, k, entry, route);
    }
  }

  // ----- A scan that repeats a row -----

  // Two one-entry baskets of one file are left after the basket between them was pruned, so they are not
  // joined; each entry is one short page of the object cursor.

  const DEMO_KEY := Key("f", "u", "t", "s", 0)

  function DemoTask(entry: nat): Task {
    Task(DEMO_KEY, entry, entry + 1, 1, 10 * entry, 10, 1, 3, 3)
  }

  function DemoRow(entry: int): Row {
    Row("f", entry, entry, [], Fin(1.0))
  }

  function DemoScan(): Scan {
    Scan([DemoTask(0), DemoTask(2)], [Group(0, 2, false)], ClipRanges(false, 0, U64_MAX, UNKNOWN), true,
         (t: Task, entry: int) => true, (t: Task, entry: int) => [DemoRow(entry)],
         (t: Task, entry: int, route: Route) => route.ObjectPages?, (r: Row) => true)
  }

  /** The seventh step emits the row of the first task again. */
  const DEMO_STEPS: seq<Step> :=
    [ClaimGroup(0), TakeTask(0), Load(0, ObjectPages), ReadPage(0), Emit(0), FinishTask(0),
     TakeTask(0), Emit(0), Load(0, ObjectPages), ReadPage(0), Emit(0), FinishTask(0)]

  /** The only worker after the first k steps. */
  function DemoWorker(k: nat): Worker {
    if k == 0 then IDLE
    else if k == 1 then Worker(0, 2, None, [], 0, Closed)
    else if k == 2 then Worker(1, 2, Some(Active(0, 0, 1)), [], 0, Closed)
    else if k == 3 then Worker(1, 2, Some(Active(0, 1, 1)), [], 0, Object([DemoRow(0)]))
    else if k == 4 then Worker(1, 2, Some(Active(0, 1, 1)), [DemoRow(0)], 0, Closed)
    else if k == 5 then Worker(1, 2, Some(Active(0, 1, 1)), [DemoRow(0)], 1, Closed)
    else if k == 6 then Worker(1, 2, None, [DemoRow(0)], 1, Closed)
    else if k == 7 then Worker(2, 2, Some(Active(1, 2, 3)), [DemoRow(0)], 0, Closed)
    else if k == 8 then Worker(2, 2, Some(Active(1, 2, 3)), [DemoRow(0)], 1, Closed)
    else if k == 9 then Worker(2, 2, Some(Active(1, 3, 3)), [], 0, Object([DemoRow(2)]))
    else if k == 10 then Worker(2, 2, Some(Active(1, 3, 3)), [DemoRow(2)], 0, Closed)
    else if k == 11 then Worker(2, 2, Some(Active(1, 3, 3)), [DemoRow(2)], 1, Closed)
    else Worker(2, 2, None, [DemoRow(2)], 1, Closed)
  }

  predicate DemoAt(st: State, k: nat) {
    st.workers == [DemoWorker(k)] && st.nextGroup == if k == 0 then 0 else 1
  }

  predicate DemoMoves(st: State, k: nat)
    requires k < 12
  {
    Enabled(DemoScan(), st, DEMO_STEPS[k]) && DEMO_STEPS[k].w == 0 &&
    WorkerNext(DemoScan(), st, DEMO_STEPS[k]) == DemoWorker(k + 1)
  }

  lemma {:induction false} DemoFirstTask(st: State, k: nat)
    requires k < 6 && DemoAt(st, k)
    ensures DemoMoves(st, k)
  {
  }

  lemma {:induction false} DemoSecondTask(st: State, k: nat)
    requires 6 <= k < 12 && DemoAt(st, k)
    ensures DemoMoves(st, k)
  {
  }

  lemma {:induction false} DemoEmits(st: State, k: nat)
    requires k < 12 && DemoAt(st, k) && DemoMoves(st, k)
    ensures StepItems(DemoScan(), st, DEMO_STEPS[k])[Emitted(DemoRow(0))] == One(k == 4 || k == 7)
  {
    assert st.workers[0] == DemoWorker(k);
  }

  lemma {:induction false} DemoStep(st: State, k: nat)
    requires k < 12 && DemoAt(st, k)
    ensures DemoMoves(st, k)
    ensures var next, row := Next(DemoScan(), st, DEMO_STEPS[k]), Emitted(DemoRow(0));
      DemoAt(next, k + 1) && next.done[row] == st.done[row] + One(k == 4 || k == 7)
  {
    if k < 6 {
      DemoFirstTask(st, k);
    } else {
      DemoSecondTask(st, k);
    }
    DemoEmits(st, k);
    HistoryGrows(DemoScan(), st, DEMO_STEPS[k], Emitted(DemoRow(0)));
    assert DEMO_STEPS[k].ClaimGroup? <==> k == 0;
  }

  lemma {:induction false} DemoEntry(k: nat, entry: nat)
    requires k < 2
    ensures EntryDue(DemoScan(), k, entry, Emitted(DemoRow(0))) == One(entry == 0)
  {
    var rows := [DemoRow(entry)];
    assert rows[1..] == [];
    assert Passing(DemoScan(), rows, Emitted(DemoRow(0))) == One(entry == 0);
  }

  lemma {:induction false} DemoDue()
    ensures TasksDue(DemoScan(), 0, 2, Emitted(DemoRow(0))) == 1
  {
    var s, i := DemoScan(), Emitted(DemoRow(0));
    DemoEntry(0, 0);
    DemoEntry(1, 2);
    assert RangeDue(s, 0, 0, 1, i) == EntryDue(s, 0, 0, i);
    assert RangeDue(s, 1, 2, 3, i) == EntryDue(s, 1, 2, i);
    assert TaskDue(s, 0, i) == 1 && TaskDue(s, 1, i) == 0;
    assert TasksDue(s, 1, 2, i) == TaskDue(s, 1, i);
  }

  lemma {:induction false} DemoValid()
    ensures ValidScan(DemoScan())
  {
  }

  /** The worker after k steps, and how often they have emitted the row of the first task. */
  ghost predicate DemoReached(st: State, k: nat) {
    DemoAt(st, k) && st.done[Emitted(DemoRow(0))] == if k >= 8 then 2 else if k >= 5 then 1 else 0
  }

  ghost predicate FirstSteps(s: Scan, steps: seq<Step>, states: seq<State>, k: nat) {
    k <= |steps| && Run(s, states, steps[..k], 1) && |states| == k + 1
  }

  lemma {:induction false} DemoNext(st: State, k: nat) returns (next: State)
    requires k < 12 && DemoReached(st, k)
    ensures Enabled(DemoScan(), st, DEMO_STEPS[k]) && next == Next(DemoScan(), st, DEMO_STEPS[k])
    ensures DemoReached(next, k + 1)
  {
    DemoStep(st, k);
    next := Next(DemoScan(), st, DEMO_STEPS[k]);
  }

  lemma {:induction false} OneMore(steps: seq<Step>, k: nat)
    requires k < |steps|
    ensures steps[..k + 1] == steps[..k] + [steps[k]]
  {
  }

  lemma {:induction false} FirstStepsExtended(s: Scan, steps: seq<Step>, states: seq<State>, k: nat, next: State)
    requires k < |steps| && FirstSteps(s, steps, states, k)
    requires Enabled(s, states[k], steps[k]) && next == Next(s, states[k], steps[k])
    ensures FirstSteps(s, steps, states + [next], k + 1)
  {
    OneMore(steps, k);
    RunExtended(s, states, steps[..k], steps[k], next);
  }

  lemma {:induction false} DemoEnds(st: State)
    requires DemoAt(st, 12)
    ensures Finished(DemoScan(), st)
  {
  }

  /** A finished run of the 64-bit transport that emits a row twice although it is due once: the claim of the
      second task rewinds the buffer that still holds the last page of the first. The planner keeps the two
      tasks apart whatever the gap it allows. */
  lemma {:induction false} TypedTransportRepeats() returns (states: seq<State>)
    ensures forall gap :: !CanJoin(DemoScan().tasks[0], DemoScan().tasks[1], gap)
    ensures Run(DemoScan(), states, DEMO_STEPS, 1) && Finished(DemoScan(), states[12])
    ensures TasksDue(DemoScan(), 0, 2, Emitted(DemoRow(0))) == 1
    ensures states[12].done[Emitted(DemoRow(0))] == 2
  {
    DemoDue();
    DemoValid();
    states := [Init(1)];
    for k := 0 to 12
      invariant FirstSteps(DemoScan(), DEMO_STEPS, states, k) && DemoReached(states[k], k)
    {
      var next := DemoNext(states[k], k);
      FirstStepsExtended(DemoScan(), DEMO_STEPS, states, k, next);
      states := states + [next];
    }
    assert DEMO_STEPS[..12] == DEMO_STEPS;
    DemoEnds(states[12]);
  }
}
