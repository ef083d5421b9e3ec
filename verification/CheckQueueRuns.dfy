/** Every run of the check queue: verdicts, accounting, and progress. */
module CheckQueueRuns {
  import opened CheckQueue
  import opened CheckQueueSteps

  // --------------------------------------------------------------------- runs

  ghost predicate Legal(s: State, run: seq<Action>)
    decreases |run|
  {
    run == [] || (Enabled(s, run[0]) && IsDefined(s, run[0]) && Legal(Next(s, run[0]), run[1..]))
  }

  /** What the unsigned counters need for the step to be what it says. */
  ghost predicate IsDefined(s: State, a: Action) {
    CountsOk(s.q) && (a.Wake? ==> s.q.nIdle > 0)
  }

  /** Only enabledness: where a counter would go wrong, the rest of the run is not looked at. */
  ghost predicate Possible(s: State, run: seq<Action>)
    decreases |run|
  {
    run == [] || (Enabled(s, run[0]) && (IsDefined(s, run[0]) ==> Possible(Next(s, run[0]), run[1..])))
  }

  /** No run is pruned by what `Legal` asks of the counters: they never go wrong. */
  lemma {:induction false} PossibleIsLegal(s: State, run: seq<Action>)
    requires Inv(s) && Possible(s, run)
    ensures Legal(s, run)
    decreases |run|
  {
    hide Inv, Next, Enabled;
    if run != [] {
      StepKeepsInv(s, run[0]);
      PossibleIsLegal(Next(s, run[0]), run[1..]);
    }
  }

  function RunFrom(s: State, run: seq<Action>): State
    requires Legal(s, run)
    decreases |run|
  {
    if run == [] then s else RunFrom(Next(s, run[0]), run[1..])
  }

  lemma {:induction false} RunKeepsInv(s: State, run: seq<Action>)
    requires Inv(s) && Legal(s, run)
    ensures Inv(RunFrom(s, run))
    decreases |run|
  {
    if run != [] {
      StepKeepsInv(s, run[0]);
      RunKeepsInv(Next(s, run[0]), run[1..]);
    }
  }

  lemma {:induction false} InitIsGood(nBatchSize: nat, nThreads: nat)
    requires nThreads > 0
    ensures Inv(Init(nBatchSize, nThreads)) && Enabled(Init(nBatchSize, nThreads), Construct)
  {
    NoneAtWork(seq(nThreads, _ => Outside));
  }

  lemma {:induction false} NoneAtWork(threads: seq<Thread>)
    requires forall t :: 0 <= t < |threads| ==> threads[t].Outside?
    ensures Sum(threads, held) == Sum(threads, idle) == Sum(threads, busy) == 0 && Pending(threads) == multiset{}
  {
    if threads != [] {
      NoneAtWork(threads[1..]);
    }
  }

  /**
   For every interleaving, every `Wait` that returned gave the conjunction of the checks
   added since the one before it, and no check has run more often than it was added.
   */
  lemma {:induction false} EveryVerdictIsTheConjunction(nBatchSize: nat, nThreads: nat, run: seq<Action>)
    requires nThreads > 0 && Legal(Init(nBatchSize, nThreads), run)
    ensures var s := RunFrom(Init(nBatchSize, nThreads), run);
            && (forall i :: 0 <= i < |s.verdicts| ==>
              (s.verdicts[i].value <==> forall c :: c in s.verdicts[i].on ==> c.ok))
            && s.executed <= s.added
  {
    InitIsGood(nBatchSize, nThreads);
    RunKeepsInv(Init(nBatchSize, nThreads), run);
    var s := RunFrom(Init(nBatchSize, nThreads), run);
    forall i | 0 <= i < |s.verdicts| ensures s.verdicts[i].value <==> forall c :: c in s.verdicts[i].on ==> c.ok {
      assert AllOk(s.verdicts[i].on) <==> forall c :: c in s.verdicts[i].on ==> c.ok;
    }
  }

  /** With its verdict a controller is done: the next one can be constructed, and starts without checks. */
  lemma {:induction false} VerdictEndsControl(s: State, a: Action)
    requires Enabled(s, a) && CountsOk(s.q) && (a.Wake? ==> s.q.nIdle > 0)
    ensures |Next(s, a).verdicts| != |s.verdicts| ==> Enabled(Next(s, a), Construct) && Next(s, a).added == multiset{}
  {
    hide Settle;
  }

  /** Between controllers the queue is idle, so the assertion of the next controller holds. */
  lemma {:induction false} IdleBetweenControllers(s: State)
    requires Inv(s) && Enabled(s, Construct)
    ensures Quiescent(s.q)
  {
    NothingHeld(s.threads);
    Naturals(s.threads);
    assert AllOk(s.executed);
  }

  // ------------------------------------------------------------------ batches

  /** Queued checks do not lie about while a worker sleeps: someone is on the way to them, or at work. */
  ghost predicate Underway(s: State) {
    s.q.queue != [] && (exists t :: 0 < t < |s.threads| && s.threads[t] == Waiting(false)) ==>
      exists t :: 0 <= t < |s.threads| && (s.threads[t].Working? || s.threads[t] == Waiting(true))
  }

  ghost predicate BatchesOk(s: State) {
    forall t :: 0 <= t < |s.threads| && s.threads[t].Working? ==>
      1 <= s.threads[t].nNow && |s.threads[t].rest| <= s.threads[t].nNow &&
        (s.threads[t].nNow > 1 ==> s.threads[t].nNow <= s.q.nBatchSize)
  }

  /** Adding one check signals a sleeping worker, if there is one, and adding several leaves none asleep. */
  lemma {:induction false} AddWakes(s: State, vChecks: seq<Check>, woken: nat)
    requires Enabled(s, Add(vChecks, woken)) && CountsOk(s.q) && vChecks != []
    ensures var s' := Next(s, Add(vChecks, woken));
            && s'.q.queue == s.q.queue + vChecks
            && (|vChecks| > 1 ==> forall t :: 0 < t < |s'.threads| ==> s'.threads[t] != Waiting(false))
            && ((exists t :: 0 < t < |s.threads| && s.threads[t] == Waiting(false)) ==>
                  exists t :: 0 < t < |s.threads| && s.threads[t] == Waiting(false) && s'.threads[t] == Waiting(true))
  {
    if t :| 0 < t < |s.threads| && s.threads[t] == Waiting(false) {
      var s' := Next(s, Add(vChecks, woken));
      var u := if |vChecks| == 1 then woken else t;
      assert s.threads[u] == Waiting(false) && s'.threads[u] == Waiting(true);
    }
  }

  ghost predicate Batched(s: State, nBatchSize: nat) {
    Underway(s) && BatchesOk(s) && s.q.nBatchSize == nBatchSize
  }

  lemma {:induction false} EnterTakes(s: State, q: Shared, t: nat)
    requires t < |s.threads| && q.nTotal + q.nIdle >= 0 && q.nBatchSize == s.q.nBatchSize && BatchesOk(s)
    ensures Batched(Enter(s, q, t), s.q.nBatchSize)
  {
    var s' := Enter(s, q, t);
    if q.queue != [] {
      assert s'.threads[t].Working?;
    }
  }

  lemma {:induction false} StepKeepsBatches(s: State, a: Action)
    requires Enabled(s, a) && CountsOk(s.q) && (a.Wake? ==> s.q.nIdle > 0)
    requires Underway(s) && BatchesOk(s)
    ensures Batched(Next(s, a), s.q.nBatchSize)
  {
    hide Enter, Underway, BatchesOk, Batched, MayWake;
    match a
    case Construct => NotInside(s, s.(inControl := true));
    case Add(vChecks, woken) => AddKeepsBatches(s, vChecks, woken);
    case Start(t) => EnterTakes(s, Account(s.q, 0, true), t);
    case Wake(t) =>
      LeaveKeepsBatches(s, t);
      EnterTakes(Leave(s, t), s.q.(nIdle := s.q.nIdle - 1), t);
    case RunOne(t) => RunKeepsBatch(s, t);
    case Finish(t) =>
      var w := s.threads[t];
      var q, s' := Account(s.q, w.nNow, w.fOk), Leave(s, t);
      LeaveKeepsBatches(s, t);
      EnterTakes(if TellsMaster(q, w.nNow, t == 0) then s'.(threads := Signal(s'.threads, 0)) else s', q, t);
  }

  lemma {:induction false} NotInside(s: State, s': State)
    requires Underway(s) && BatchesOk(s) && s'.threads == s.threads && s'.q == s.q
    ensures Batched(s', s.q.nBatchSize)
  {
  }

  lemma {:induction false} LeaveKeepsBatches(s: State, t: nat)
    requires t < |s.threads| && BatchesOk(s)
    ensures var s' := Leave(s, t); BatchesOk(s') && BatchesOk(s'.(threads := Signal(s'.threads, 0)))
  {
  }

  lemma {:induction false} RunKeepsBatch(s: State, t: nat)
    requires Enabled(s, RunOne(t)) && CountsOk(s.q) && Underway(s) && BatchesOk(s)
    ensures Batched(Next(s, RunOne(t)), s.q.nBatchSize)
  {
    assert Next(s, RunOne(t)).threads[t].Working?;
  }

  lemma {:induction false} AddKeepsBatches(s: State, vChecks: seq<Check>, woken: nat)
    requires Enabled(s, Add(vChecks, woken)) && CountsOk(s.q) && Underway(s) && BatchesOk(s)
    ensures Batched(Next(s, Add(vChecks, woken)), s.q.nBatchSize)
  {
    var s' := Next(s, Add(vChecks, woken));
    if vChecks != [] {
      AddWakes(s, vChecks, woken);
      if t :| 0 < t < |s'.threads| && s'.threads[t] == Waiting(false) {
        assert s.threads[t] == Waiting(false);
      }
    } else {
      assert s'.threads == s.threads && s'.q.queue == s.q.queue;
    }
  }

  /** In every interleaving no batch is too large, and while a worker sleeps someone is on the way to what is queued. */
  lemma {:induction false} WorkIsUnderway(nBatchSize: nat, nThreads: nat, run: seq<Action>)
    requires nThreads > 0 && Legal(Init(nBatchSize, nThreads), run)
    ensures var s := RunFrom(Init(nBatchSize, nThreads), run);
            Underway(s) && BatchesOk(s) && s.q.nBatchSize == nBatchSize
  {
    RunKeepsBatches(Init(nBatchSize, nThreads), run);
  }

  lemma {:induction false} RunKeepsBatches(s: State, run: seq<Action>)
    requires Legal(s, run) && Batched(s, s.q.nBatchSize)
    ensures Batched(RunFrom(s, run), s.q.nBatchSize)
    decreases |run|
  {
    hide Next, Enabled, Underway, BatchesOk;
    if run != [] {
      StepKeepsBatches(s, run[0]);
      RunKeepsBatches(Next(s, run[0]), run[1..]);
    }
  }

  // ----------------------------------------------------------------- progress

  /** A master asleep and not signalled is always owed work by a thread that holds a batch. */
  lemma {:induction false} SleepingMasterIsOwedWork(s: State)
    requires Inv(s) && s.threads[0] == Waiting(false)
    ensures exists t :: 0 < t < |s.threads| && s.threads[t].Working?
  {
    Naturals(s.threads);
    var t :| 0 <= t < |s.threads| && held(s.threads[t]) > 0;
    assert s.threads[t].Working?;
  }

  /** What there is still to do before a `Wait` must return. */
  const burden: Thread -> int := (x: Thread) =>
    match x
    case Outside => 3
    case Waiting(signalled) => if signalled then 1 else 0
    case Working(_, rest, _) => 2 + |rest|

  function Measure(s: State): int {
    3 * |s.q.queue| + Sum(s.threads, burden)
  }

  /** A step that is neither the master's next call nor a spurious wake-up. */
  predicate IsProgress(s: State, a: Action)
    requires Enabled(s, a)
  {
    match a
    case Construct => false
    case Add(_, _) => false
    case Start(_) => true
    case Wake(t) => s.threads[t] == Waiting(true)
    case RunOne(_) => true
    case Finish(_) => true
  }

  lemma {:induction false} EnterLightens(s: State, q: Shared, t: nat)
    requires t < |s.threads| && s.threads[t].Outside? && q.nTotal >= 0 && q.nIdle >= 0
    ensures var s' := Enter(s, q, t);
            s'.threads[t] != Outside ==> Measure(s') <= 3 * |q.queue| + Sum(s.threads, burden) - 3
  {
    hide Sum;
    var s' := Enter(s, q, t);
    SumUpdate(s.threads, burden, t, s'.threads[t]);
    if q.queue != [] {
      assert |s'.q.queue| == |q.queue| - NextBatchSize(q);
    }
  }

  /** Every step of a thread brings the end of `Wait` nearer, or is that end. */
  lemma {:induction false} ProgressIsMade(s: State, a: Action)
    requires Inv(s) && Enabled(s, a) && CountsOk(s.q) && (a.Wake? ==> s.q.nIdle > 0) && IsProgress(s, a)
    ensures Measure(Next(s, a)) < Measure(s) || |Next(s, a).verdicts| == |s.verdicts| + 1
  {
    hide Sum, Settle, ThreadsOk, Accounts, Conserved, Verdicts;
    match a
    case Start(t) =>
      EnterLightens(s, Account(s.q, 0, true), t);
      WorkersStay(s, Account(s.q, 0, true), t);
    case Wake(t) =>
      SumUpdate(s.threads, burden, t, Outside);
      EnterLightens(Leave(s, t), s.q.(nIdle := s.q.nIdle - 1), t);
      WorkersStay(Leave(s, t), s.q.(nIdle := s.q.nIdle - 1), t);
    case RunOne(t) =>
      var w := s.threads[t];
      SumUpdate(s.threads, burden, t, Working(w.nNow, w.rest[1..], w.fOk && w.rest[0].ok));
    case Finish(t) => FinishLightens(s, t);
  }

  lemma {:induction false} FinishLightens(s: State, t: nat)
    requires Inv(s) && Enabled(s, Finish(t)) && CountsOk(s.q)
    ensures Measure(Next(s, Finish(t))) < Measure(s) || |Next(s, Finish(t)).verdicts| == |s.verdicts| + 1
  {
    hide Sum, Settle, Conserved, Verdicts;
    var w, out := s.threads[t], Leave(s, t);
    var q := Account(s.q, w.nNow, w.fOk);
    assert w.nNow > 0;
    var s' := if q.nTodo == 0 && t != 0 then out.(threads := Signal(out.threads, 0)) else out;
    SumUpdate(s.threads, burden, t, Outside);
    SumUpdate(out.threads, burden, 0, Waiting(true));
    assert Sum(s'.threads, burden) <= Sum(s.threads, burden) + 2;
    EnterLightens(s', q, t);
    WorkersStay(s', q, t);
  }

  /** Only the master ever leaves the loop. */
  lemma {:induction false} WorkersStay(s: State, q: Shared, t: nat)
    requires t < |s.threads| && q.nTotal >= 0 && q.nIdle >= 0 && !q.fQuit
    ensures Enter(s, q, t).threads[t].Outside? ==> |Enter(s, q, t).verdicts| == |s.verdicts| + 1
  {
  }

  /** While the master is in `Wait`, some thread can always make progress: no deadlock. */
  lemma {:induction false} ProgressIsPossible(s: State) returns (a: Action)
    requires Inv(s) && !s.threads[0].Outside?
    ensures Enabled(s, a) && IsProgress(s, a)
  {
    match s.threads[0]
    case Waiting(signalled) =>
      if signalled {
        a := Wake(0);
      } else {
        SleepingMasterIsOwedWork(s);
        var t :| 0 < t < |s.threads| && s.threads[t].Working?;
        a := if s.threads[t].rest == [] then Finish(t) else RunOne(t);
      }
    case Working(_, rest, _) => a := if rest == [] then Finish(0) else RunOne(0);
  }

  ghost predicate AllProgress(s: State, run: seq<Action>)
    requires Legal(s, run)
    decreases |run|
  {
    run == [] || (IsProgress(s, run[0]) && AllProgress(Next(s, run[0]), run[1..]))
  }

  /** A `Wait` that has not returned after so many steps does not exist. */
  lemma {:induction false} WaitReturns(s: State, run: seq<Action>)
    requires Inv(s) && Legal(s, run) && AllProgress(s, run)
    ensures |run| <= Measure(s) || |RunFrom(s, run).verdicts| > |s.verdicts|
    decreases |run|
  {
    hide Next, Enabled, IsProgress, Inv, CountsOk, Sum;
    BurdenIsNatural(s.threads);
    if run != [] {
      var s' := Next(s, run[0]);
      ProgressIsMade(s, run[0]);
      StepKeepsInv(s, run[0]);
      StepKeepsVerdicts(s, run[0]);
      VerdictsOnlyGrow(s', run[1..]);
      WaitReturns(s', run[1..]);
    }
  }

  lemma {:induction false} BurdenIsNatural(threads: seq<Thread>)
    ensures Sum(threads, burden) >= 0
  {
    SumBounds(threads, burden);
  }

  lemma {:induction false} StepKeepsVerdicts(s: State, a: Action)
    requires Enabled(s, a) && CountsOk(s.q) && (a.Wake? ==> s.q.nIdle > 0)
    ensures s.verdicts <= Next(s, a).verdicts
  {
    hide Settle;
  }

  lemma {:induction false} VerdictsOnlyGrow(s: State, run: seq<Action>)
    requires Legal(s, run)
    ensures s.verdicts <= RunFrom(s, run).verdicts
    decreases |run|
  {
    hide Next, Enabled, CountsOk;
    if run != [] {
      StepKeepsVerdicts(s, run[0]);
      VerdictsOnlyGrow(Next(s, run[0]), run[1..]);
    }
  }
}
