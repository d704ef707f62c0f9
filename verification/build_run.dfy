/** Runs of the build without a crash, a failed worker or an unreadable file: whatever order the workers
    are scheduled in, such a run ends with both tables compacted. */
module BuildRun {
  import opened Numbers
  import opened Build

  /** Everything but the failures. A build has at least one worker. */
  predicate Smooth(step: Step) {
    !step.Crash? && !step.FailWorker? && !step.RecordError? && (step.StartBuilding? ==> step.count > 0)
  }

  predicate AllCompacted(s: State) {
    s.phase.Compacting? && FilesTable in s.finals && BasketsTable in s.finals
  }

  // ----- Nothing claimed is lost -----

  predicate ClaimedBySome(workers: seq<Worker>, p: Path) {
    exists w :: 0 <= w < |workers| && workers[w].claimed == Some(p)
  }

  /** Every file handed out is done or in the hands of a worker, and workers end only when all are handed out. */
  predicate Busy(plan: seq<Path>, next: nat, ok: set<Path>, workers: seq<Worker>) {
    && workers != [] && next <= |plan|
    && (forall w :: 0 <= w < |workers| ==> !workers[w].failed)
    && (forall w :: 0 <= w < |workers| && workers[w].finished ==> workers[w].claimed.None? && next == |plan|)
    && (forall k :: 0 <= k < next ==> plan[k] in ok || ClaimedBySome(workers, plan[k]))
  }

  ghost predicate OnTrack(plan: seq<Path>, s: State) {
    Inv(plan, s) && (s.phase.Building? ==> Busy(plan, s.phase.next, s.phase.ok, s.phase.workers))
  }

  // ----- What is left to do -----

  function Load(x: Worker): nat {
    (if x.started then 0 else 1) + (if x.finished then 0 else 1) +
    (if x.claimed.None? then 0 else if x.appended then 1 else 4) +
    (if x.flushing then 1 else if x.buffer == [] then 0 else 2)
  }

  function AllLoads(workers: seq<Worker>): nat {
    if workers == [] then 0 else AllLoads(workers[..|workers| - 1]) + Load(workers[|workers| - 1])
  }

  lemma {:induction false} ReplaceLoad(workers: seq<Worker>, w: nat, x: Worker)
    requires w < |workers|
    ensures AllLoads(workers[w := x]) + Load(workers[w]) == AllLoads(workers) + Load(x)
  {
    var n := |workers| - 1;
    if w == n {
      assert workers[w := x][..n] == workers[..n];
    } else {
      ReplaceLoad(workers[..n], w, x);
      assert workers[w := x][..n] == workers[..n][w := x];
    }
  }

  function PhasesLeft(s: State): nat {
    match s.phase
    case Idle => 3
    case Restoring(_, _) => 2
    case Building(_, _, _) => 1
    case Compacting => 0
  }

  function WorkLeft(plan: seq<Path>, s: State): nat {
    match s.phase
    case Idle => 0
    case Restoring(todo, _) => |todo|
    case Building(next, _, workers) => 5 * (if next <= |plan| then |plan| - next else 0) + AllLoads(workers)
    case Compacting => (if FilesTable in s.finals then 0 else 1) + (if BasketsTable in s.finals then 0 else 1)
  }

  ghost predicate Closer(plan: seq<Path>, s: State, n: State) {
    PhasesLeft(n) < PhasesLeft(s) || (PhasesLeft(n) == PhasesLeft(s) && WorkLeft(plan, n) < WorkLeft(plan, s))
  }

  // ----- Every smooth step gets closer -----

  lemma {:induction false} WorkerStepCloser(plan: seq<Path>, s: State, step: Step)
    requires OnTrack(plan, s) && Enabled(plan, s, step) && IsWorkerStep(step) && Smooth(step)
    ensures Closer(plan, s, WorkerStep(plan, s, step))
  {
    var n := WorkerStep(plan, s, step);
    NoCollision(plan, s, step);
    assert n.phase.workers == s.phase.workers[step.w := n.phase.workers[step.w]];
    ReplaceLoad(s.phase.workers, step.w, n.phase.workers[step.w]);
  }

  lemma {:induction false} WorkerStepBusy(plan: seq<Path>, s: State, step: Step)
    requires OnTrack(plan, s) && Enabled(plan, s, step) && IsWorkerStep(step) && Smooth(step)
    ensures var n := WorkerStep(plan, s, step);
      n.phase.Building? && Busy(plan, n.phase.next, n.phase.ok, n.phase.workers)
  {
    var n := WorkerStep(plan, s, step);
    ActingWorkerAlone(plan, s, step);
    WorkerFacts(plan, s, step);
    forall k | 0 <= k < n.phase.next ensures plan[k] in n.phase.ok || ClaimedBySome(n.phase.workers, plan[k]) {
      HandedOut(plan, s, step, k);
    }
  }

  lemma {:induction false} WorkerFacts(plan: seq<Path>, s: State, step: Step)
    requires OnTrack(plan, s) && Enabled(plan, s, step) && IsWorkerStep(step) && Smooth(step)
    ensures var n := WorkerStep(plan, s, step); var x := n.phase.workers[step.w];
      s.phase.next <= n.phase.next <= |plan| && !x.failed && (x.finished ==> x.claimed.None? && n.phase.next == |plan|)
  {
    NoCollision(plan, s, step);
  }

  /** A claim stays with its worker until the file has been reported; reports are not taken back. */
  lemma {:induction false} ClaimStays(plan: seq<Path>, s: State, step: Step, w: nat, p: Path)
    requires OnTrack(plan, s) && Enabled(plan, s, step) && IsWorkerStep(step) && Smooth(step) && w < |s.phase.workers|
    ensures var n := WorkerStep(plan, s, step);
      && s.phase.ok <= n.phase.ok
      && (s.phase.workers[w].claimed == Some(p) ==> n.phase.workers[w].claimed == Some(p) || p in n.phase.ok)
  {
    NoCollision(plan, s, step);
  }

  lemma {:induction false} HandedOut(plan: seq<Path>, s: State, step: Step, k: nat)
    requires OnTrack(plan, s) && Enabled(plan, s, step) && IsWorkerStep(step) && Smooth(step)
    requires k < WorkerStep(plan, s, step).phase.next
    ensures var n := WorkerStep(plan, s, step); plan[k] in n.phase.ok || ClaimedBySome(n.phase.workers, plan[k])
  {
    var n := WorkerStep(plan, s, step);
    ActingWorkerAlone(plan, s, step);
    if k >= s.phase.next {
      assert step.Claim? && k == s.phase.next;
      assert n.phase.workers[step.w].claimed == Some(plan[k]) || plan[k] in n.phase.ok;
    } else {
      ClaimStays(plan, s, step, step.w, plan[k]);
      if plan[k] !in s.phase.ok {
        var w :| 0 <= w < |s.phase.workers| && s.phase.workers[w].claimed == Some(plan[k]);
        ClaimStays(plan, s, step, w, plan[k]);
      }
    }
  }

  /** All workers have ended: every file has been reported. A build without files fails all the same. */
  lemma {:induction false} ValidatePasses(plan: seq<Path>, s: State)
    requires OnTrack(plan, s) && Enabled(plan, s, Validate)
    ensures Next(plan, s, Validate).phase.Compacting? <==> plan != []
  {
    assert s.phase.workers[0].finished;
    forall k | 0 <= k < |plan| ensures plan[k] in s.phase.ok {
      assert forall w :: 0 <= w < |s.phase.workers| ==> s.phase.workers[w].finished;
      assert !ClaimedBySome(s.phase.workers, plan[k]);
    }
  }

  lemma {:induction false} SmoothStep(plan: seq<Path>, s: State, step: Step)
    requires plan != [] && NoRepeats(plan) && OnTrack(plan, s) && Enabled(plan, s, step) && Smooth(step)
    ensures OnTrack(plan, Next(plan, s, step)) && Closer(plan, s, Next(plan, s, step))
  {
    StepKeepsInvariant(plan, s, step);
    if IsWorkerStep(step) {
      StaysBuilding(plan, s, step);
      WorkerStepBusy(plan, s, step);
      WorkerStepCloser(plan, s, step);
    } else {
      RunStepCloser(plan, s, step);
    }
  }

  lemma {:induction false} RunStepCloser(plan: seq<Path>, s: State, step: Step)
    requires plan != [] && OnTrack(plan, s) && Enabled(plan, s, step) && !IsWorkerStep(step) && Smooth(step)
    ensures var n := Next(plan, s, step);
      Closer(plan, s, n) && (n.phase.Building? ==> Busy(plan, n.phase.next, n.phase.ok, n.phase.workers))
  {
    var n := Next(plan, s, step);
    match step
    case StartRun =>
    case RestoreSegment(id, _) =>
      NoCollision(plan, s, step);
      assert n.phase.todo == s.phase.todo - {id};
    case StartBuilding(_, _) =>
    case Validate => ValidatePasses(plan, s);
    case Compact(t) =>
      assert t.FilesTable? || t.BasketsTable?;
      assert forall u :: u in n.finals <==> u == t || u in s.finals;
  }

  // ----- There always is a smooth step -----

  lemma {:induction false} NextIdExists(dirs: set<nat>) returns (id: nat)
    ensures IsNextWorkerId(id, dirs)
  {
    if dirs == {} {
      id := 0;
    } else {
      var d :| d in dirs;
      id := NextIdExists(dirs - {d});
      assert forall e :: e in dirs <==> e == d || e in dirs - {d};
      id := Max(id, d + 1);
    }
  }

  lemma {:induction false} WorkerHasStep(plan: seq<Path>, s: State, w: nat) returns (step: Step)
    requires OnTrack(plan, s) && Running(s, w)
    ensures Enabled(plan, s, step) && Smooth(step)
  {
    var x := s.phase.workers[w];
    step :=
      if !x.started then OpenWriter(w)
      else if x.flushing then CommitFlush(w)
      else if x.claimed.Some? then (if x.appended then RecordOk(w) else AppendFile(w))
      else if s.phase.next < |plan| then Claim(w)
      else if x.buffer != [] then BeginFlush(w)
      else FinishWorker(w);
  }

  lemma {:induction false} SmoothStepExists(plan: seq<Path>, s: State) returns (step: Step)
    requires OnTrack(plan, s) && !AllCompacted(s)
    ensures Enabled(plan, s, step) && Smooth(step)
  {
    match s.phase
    case Idle => step := StartRun;
    case Restoring(todo, _) =>
      if todo == {} {
        var base := NextIdExists(s.workerDirs);
        step := StartBuilding(base, 1);
      } else {
        var id :| id in todo;
        step := RestoreSegment(id, false);
      }
    case Building(_, _, workers) =>
      if forall w :: 0 <= w < |workers| ==> workers[w].finished {
        step := Validate;
      } else {
        var w :| 0 <= w < |workers| && !workers[w].finished;
        step := WorkerHasStep(plan, s, w);
      }
    case Compacting => step := Compact(if FilesTable in s.finals then BasketsTable else FilesTable);
  }

  // ----- Whole runs -----

  /** From its i-th state on, the run takes smooth steps of its own choice until both tables are compacted. */
  ghost predicate RunsSmoothly(plan: seq<Path>, run: nat -> State, choice: nat -> Step, i: nat) {
    forall j: nat :: i <= j && !AllCompacted(run(j)) ==>
      Enabled(plan, run(j), choice(j)) && Smooth(choice(j)) && run(j + 1) == Next(plan, run(j), choice(j))
  }

  /** Every smooth run ends, whichever worker moves when, and then each table holds each file once. */
  lemma {:induction false} SmoothRunCompletes(plan: seq<Path>, run: nat -> State, choice: nat -> Step, i: nat)
    returns (end: nat)
    requires plan != [] && NoRepeats(plan) && OnTrack(plan, run(i)) && RunsSmoothly(plan, run, choice, i)
    ensures end >= i && AllCompacted(run(end))
    ensures run(end).finals[FilesTable] == multiset(plan) && run(end).finals[BasketsTable] == multiset(plan)
    decreases PhasesLeft(run(i)), WorkLeft(plan, run(i))
  {
    if AllCompacted(run(i)) {
      end := i;
    } else {
      SmoothStep(plan, run(i), choice(i));
      end := SmoothRunCompletes(plan, run, choice, i + 1);
    }
  }

  /** Steps that carry a state on to compacted tables. */
  lemma {:induction false} CanComplete(plan: seq<Path>, states: seq<State>, steps: seq<Step>)
    returns (allStates: seq<State>, allSteps: seq<Step>)
    requires plan != [] && NoRepeats(plan) && Run(plan, states, steps) && OnTrack(plan, states[|steps|])
    ensures Run(plan, allStates, allSteps) && steps <= allSteps && AllCompacted(allStates[|allSteps|])
    ensures forall j :: |steps| <= j < |allSteps| ==> Smooth(allSteps[j])
    decreases PhasesLeft(states[|steps|]), WorkLeft(plan, states[|steps|])
  {
    var s := states[|steps|];
    if AllCompacted(s) {
      allStates, allSteps := states, steps;
    } else {
      var step := SmoothStepExists(plan, s);
      SmoothStep(plan, s, step);
      allStates, allSteps := CanComplete(plan, states + [Next(plan, s, step)], steps + [step]);
      assert allSteps[|steps|] == step;
    }
  }

  /** Whatever has happened before, one restart of the process is enough: the history can be continued by a
      run without failures that compacts every planned file, once, into each table. */
  lemma {:induction false} EveryHistoryCompletes(plan: seq<Path>, states: seq<State>, steps: seq<Step>)
    returns (allStates: seq<State>, allSteps: seq<Step>)
    requires plan != [] && NoRepeats(plan) && Run(plan, states, steps)
    ensures Run(plan, allStates, allSteps) && steps + [Crash] <= allSteps
    ensures forall j :: |steps| < j < |allSteps| ==> Smooth(allSteps[j])
    ensures var s := allStates[|allSteps|];
      AllCompacted(s) && s.finals[FilesTable] == multiset(plan) && s.finals[BasketsTable] == multiset(plan)
  {
    RunKeepsInvariant(plan, states, steps);
    var s := states[|steps|];
    StepKeepsInvariant(plan, s, Crash);
    allStates, allSteps := CanComplete(plan, states + [Next(plan, s, Crash)], steps + [Crash]);
    EveryFileOnce(plan, allStates, allSteps);
  }
}
