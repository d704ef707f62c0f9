/** The row limit: threads reserve output rows with a weak compare-exchange loop on a
    shared counter and raise a stop flag. Every atomic access is one step. */
module RowLimit {
  import opened Numbers

  /** Where a thread is inside one reservation. `Raising` still has to set the stop flag. */
  datatype Pc =
    | Idle
    | Checking(requested: nat)
    | Loading(requested: nat)
    | Looping(requested: nat, current: nat)
    | Raising(granted: nat)

  datatype Thread = Thread(pc: Pc, granted: nat)

  datatype State = State(limit: nat, emittedRows: nat, stopRequested: bool, threads: seq<Thread>)

  /** `spurious` is the freedom of a weak compare-exchange to fail although the value matches. */
  datatype Step =
    | Begin(t: nat, requested: nat)
    | CheckStop(t: nat)
    | Load(t: nat)
    | Exchange(t: nat, spurious: bool)
    | Raise(t: nat)

  predicate Enabled(s: State, step: Step) {
    step.t < |s.threads| && var pc := s.threads[step.t].pc;
    match step
    case Begin(_, _) => pc.Idle?
    case CheckStop(_) => pc.Checking?
    case Load(_) => pc.Loading?
    case Exchange(_, _) => pc.Looping?
    case Raise(_) => pc.Raising?
  }

  function Next(s: State, step: Step): State
    requires Enabled(s, step)
  {
    var th := s.threads[step.t];
    match step
    case Begin(t, n) => s.(threads := s.threads[t := th.(pc := Checking(n))])
    case CheckStop(t) =>
      if th.pc.requested == 0 || s.stopRequested then s.(threads := s.threads[t := th.(pc := Idle)])
      else s.(threads := s.threads[t := th.(pc := Loading(th.pc.requested))])
    case Load(t) => s.(threads := s.threads[t := th.(pc := Looping(th.pc.requested, s.emittedRows))])
    case Exchange(t, spurious) =>
      if th.pc.current >= s.limit then s.(threads := s.threads[t := th.(pc := Raising(0))])
      else
        var granted := Min(s.limit - th.pc.current, th.pc.requested);
        if s.emittedRows == th.pc.current && !spurious then
          var after := th.(pc := if th.pc.current + granted >= s.limit then Raising(granted) else Idle,
                           granted := th.granted + granted);
          s.(emittedRows := s.emittedRows + granted, threads := s.threads[t := after])
        else s.(threads := s.threads[t := th.(pc := Looping(th.pc.requested, s.emittedRows))])
    case Raise(t) => s.(stopRequested := true, threads := s.threads[t := th.(pc := Idle)])
  }

  function TotalGranted(ts: seq<Thread>): nat {
    if ts == [] then 0 else TotalGranted(ts[..|ts| - 1]) + ts[|ts| - 1].granted
  }

  /** Grants add up to the counter, the counter never passes the limit, and whoever sets or is about
      to set the stop flag has seen the limit reached. */
  predicate Invariant(s: State) {
    && s.emittedRows == TotalGranted(s.threads)
    && s.emittedRows <= s.limit
    && (s.stopRequested ==> s.emittedRows == s.limit)
    && forall t :: 0 <= t < |s.threads| ==>
         (s.threads[t].pc.Raising? ==> s.emittedRows == s.limit) &&
         (s.threads[t].pc.Looping? ==> s.threads[t].pc.current <= s.emittedRows)
  }

  lemma {:induction false} GrantedUpdate(ts: seq<Thread>, t: nat, th: Thread)
    requires t < |ts|
    ensures TotalGranted(ts[t := th]) + ts[t].granted == TotalGranted(ts) + th.granted
  {
    var n := |ts| - 1;
    if t == n {
      assert ts[t := th][..n] == ts[..n];
    } else {
      GrantedUpdate(ts[..n], t, th);
      assert ts[t := th][..n] == ts[..n][t := th];
    }
  }

  lemma {:induction false} StepKeepsInvariant(s: State, step: Step)
    requires Invariant(s) && Enabled(s, step)
    ensures Invariant(Next(s, step)) && Next(s, step).limit == s.limit && s.emittedRows <= Next(s, step).emittedRows
  {
    GrantedUpdate(s.threads, step.t, Next(s, step).threads[step.t]);
  }

  function Init(limit: nat, threads: nat): State {
    State(limit, 0, false, seq(threads, _ => Thread(Idle, 0)))
  }

  predicate Run(states: seq<State>, steps: seq<Step>, limit: nat, threads: nat) {
    |states| == |steps| + 1 && states[0] == Init(limit, threads) &&
    forall i :: 0 <= i < |steps| ==> Enabled(states[i], steps[i]) && states[i + 1] == Next(states[i], steps[i])
  }

  lemma {:induction false} NothingGranted(ts: seq<Thread>)
    requires forall t :: 0 <= t < |ts| ==> ts[t].granted == 0
    ensures TotalGranted(ts) == 0
  {
    if ts != [] {
      NothingGranted(ts[..|ts| - 1]);
    }
  }

  /** Over every interleaving: granted rows equal the counter and stay within the limit, and a raised
      stop flag means that the limit has been reached exactly. */
  lemma {:induction false} RunKeepsLimit(states: seq<State>, steps: seq<Step>, limit: nat, threads: nat)
    requires Run(states, steps, limit, threads)
    ensures var s := states[|steps|];
      Invariant(s) && s.limit == limit && TotalGranted(s.threads) == s.emittedRows <= limit &&
      (s.stopRequested ==> s.emittedRows == limit)
    decreases |steps|
  {
    if steps == [] {
      NothingGranted(states[0].threads);
    } else {
      var n := |steps| - 1;
      assert Run(states[..n + 1], steps[..n], limit, threads);
      RunKeepsLimit(states[..n + 1], steps[..n], limit, threads);
      StepKeepsInvariant(states[n], steps[n]);
    }
  }

  /** A reservation is refused only when nothing was asked for or the limit is already used up. */
  lemma {:induction false} RefusedOnlyAtLimit(states: seq<State>, steps: seq<Step>, limit: nat, threads: nat, i: nat)
    requires Run(states, steps, limit, threads) && i < |steps|
    requires var th := states[i].threads[steps[i].t];
      (steps[i].CheckStop? && states[i + 1].threads[steps[i].t].pc.Idle? && th.pc.requested > 0) ||
      (steps[i].Exchange? && states[i + 1].threads[steps[i].t].pc == Raising(0) && th.pc.requested > 0)
    ensures states[i].emittedRows == limit
  {
    assert Run(states[..i + 1], steps[..i], limit, threads);
    RunKeepsLimit(states[..i + 1], steps[..i], limit, threads);
  }

  // ----- How much is granted -----

  /** A reservation that is through has been given what it asked for, or all that was left of the limit. */
  lemma {:induction false} ExchangeGrants(s: State, step: Step)
    requires Invariant(s) && Enabled(s, step) && step.Exchange? && !Next(s, step).threads[step.t].pc.Looping?
    ensures var before, after, n := s.threads[step.t], Next(s, step).threads[step.t], Next(s, step);
      && after.granted - before.granted == Min(s.limit - s.emittedRows, before.pc.requested)
      && n.emittedRows - s.emittedRows == after.granted - before.granted
      && (after.granted - before.granted == before.pc.requested || n.emittedRows == s.limit)
  {
  }

  /** No other step grants anything. */
  lemma {:induction false} OtherStepsGrantNothing(s: State, step: Step, t: nat)
    requires Enabled(s, step) && t < |s.threads| && (!step.Exchange? || t != step.t)
    ensures |Next(s, step).threads| == |s.threads| && Next(s, step).threads[t].granted == s.threads[t].granted
  {
  }

  /** What a thread still asks for. */
  function Asked(pc: Pc): nat {
    match pc
    case Checking(n) => n
    case Loading(n) => n
    case Looping(n, _) => n
    case Idle => 0
    case Raising(_) => 0
  }

  function Pending(ts: seq<Thread>): nat {
    if ts == [] then 0 else Pending(ts[..|ts| - 1]) + Asked(ts[|ts| - 1].pc)
  }

  lemma {:induction false} PendingUpdate(ts: seq<Thread>, t: nat, th: Thread)
    requires t < |ts|
    ensures Pending(ts[t := th]) + Asked(ts[t].pc) == Pending(ts) + Asked(th.pc)
  {
    var n := |ts| - 1;
    if t == n {
      assert ts[t := th][..n] == ts[..n];
    } else {
      PendingUpdate(ts[..n], t, th);
      assert ts[t := th][..n] == ts[..n][t := th];
    }
  }

  /** All rows that threads have asked for. */
  function Requested(steps: seq<Step>): nat {
    if steps == [] then 0
    else
      var last := steps[|steps| - 1];
      Requested(steps[..|steps| - 1]) + if last.Begin? then last.requested else 0
  }

  /** What has been asked for is granted or pending, unless the limit is used up. */
  predicate Accounted(s: State, requested: nat) {
    s.emittedRows + Pending(s.threads) <= requested &&
    (s.emittedRows + Pending(s.threads) == requested || s.emittedRows == s.limit)
  }

  lemma {:induction false} StepAccounts(s: State, step: Step, requested: nat)
    requires Invariant(s) && Enabled(s, step) && Accounted(s, requested)
    ensures Accounted(Next(s, step), requested + if step.Begin? then step.requested else 0)
  {
    PendingUpdate(s.threads, step.t, Next(s, step).threads[step.t]);
  }

  lemma {:induction false} NothingPending(ts: seq<Thread>)
    requires forall t :: 0 <= t < |ts| ==> Asked(ts[t].pc) == 0
    ensures Pending(ts) == 0
  {
    if ts != [] {
      NothingPending(ts[..|ts| - 1]);
    }
  }

  lemma {:induction false} RunAccounts(states: seq<State>, steps: seq<Step>, limit: nat, threads: nat)
    requires Run(states, steps, limit, threads)
    ensures Accounted(states[|steps|], Requested(steps))
    decreases |steps|
  {
    if steps == [] {
      NothingPending(states[0].threads);
    } else {
      var n := |steps| - 1;
      assert Run(states[..n + 1], steps[..n], limit, threads);
      RunAccounts(states[..n + 1], steps[..n], limit, threads);
      RunKeepsLimit(states[..n + 1], steps[..n], limit, threads);
      StepAccounts(states[n], steps[n], Requested(steps[..n]));
    }
  }

  /** Once every reservation has ended, exactly min(limit, everything asked for) has been granted. */
  lemma {:induction false} AllGranted(states: seq<State>, steps: seq<Step>, limit: nat, threads: nat)
    requires Run(states, steps, limit, threads)
    requires forall t :: 0 <= t < |states[|steps|].threads| ==> Asked(states[|steps|].threads[t].pc) == 0
    ensures states[|steps|].emittedRows == Min(limit, Requested(steps))
    ensures TotalGranted(states[|steps|].threads) == Min(limit, Requested(steps))
  {
    RunAccounts(states, steps, limit, threads);
    RunKeepsLimit(states, steps, limit, threads);
    NothingPending(states[|steps|].threads);
  }
}
