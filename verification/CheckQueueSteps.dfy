/**
 The steps of the check queue keep its invariant, one kind of step at a time: adding checks,
 starting and waking a thread, the three ways in which a critical section ends, running one
 check, and finishing a batch. A critical section is entered with the thread taken out of its
 place and the shared fields as they are in the middle of the section; `MidInv` is what holds
 then, and returning, going to sleep and taking a batch each lead from there back to `Inv`. The
 sums over all threads and the bag of pending checks are followed through the change of a
 single thread, so that no step needs an induction of its own.
 */
module CheckQueueSteps {
  import opened CheckQueue

  lemma {:induction false} Naturals(threads: seq<Thread>)
    ensures Sum(threads, held) >= 0 && Sum(threads, idle) >= 0 && Sum(threads, busy) >= 0
    ensures forall t :: 0 <= t < |threads| ==> held(threads[t]) <= Sum(threads, held)
    ensures forall t :: 0 <= t < |threads| ==> idle(threads[t]) <= Sum(threads, idle)
    ensures Sum(threads, held) > 0 ==> exists t :: 0 <= t < |threads| && held(threads[t]) > 0
  {
    SumBounds(threads, held);
    SumBounds(threads, idle);
    SumBounds(threads, busy);
  }

  /** The end of a critical section restores the invariant; a returning master returns the conjunction. */
  lemma {:induction false} EnterKeepsInv(s: State, q: Shared, t: nat)
    requires MidInv(s, q, t)
    ensures CountsOk(q) && Inv(Enter(s, q, t))
  {
    Naturals(s.threads);
    var o := Settle(q, t == 0).outcome;
    match o
    case Returned(_) => ReturnKeepsInv(s, q, t);
    case Slept => SleepKeepsInv(s, q, t);
    case Took(_, _) => TakeKeepsInv(s, q, t);
  }

  lemma {:induction false} ReturnKeepsInv(s: State, q: Shared, t: nat)
    requires MidInv(s, q, t) && q.queue == [] && t == 0 && q.nTodo == 0 && CountsOk(q)
    ensures Inv(Enter(s, q, t))
  {
    hide Sum, Pending;
    Naturals(s.threads);
    NothingHeld(s.threads);
    var s' := Enter(s, q, t);
    assert s'.threads == s.threads;
    assert s.added == s.executed + s.skipped;
    assert AllOk(s.executed) ==> s.skipped == multiset{};
    assert q.fAllOk <==> AllOk(s.added);
  }

  /** With nothing to do, no thread holds a batch. */
  lemma {:induction false} NothingHeld(threads: seq<Thread>)
    requires ThreadsOk(threads) && Sum(threads, held) == 0
    ensures forall t :: 0 <= t < |threads| ==> !threads[t].Working?
    ensures Pending(threads) == multiset{} && Sum(threads, busy) == 0
  {
    if threads != [] {
      Naturals(threads[1..]);
      assert !threads[0].Working?;
      forall t | 1 <= t < |threads| ensures !threads[t].Working? || threads[t].nNow > 0 {}
      assert ThreadsOk(threads[1..]);
      NothingHeld(threads[1..]);
      assert forall t :: 1 <= t < |threads| ==> threads[t] == threads[1..][t - 1];
    }
  }

  lemma {:induction false} SleepKeepsInv(s: State, q: Shared, t: nat)
    requires MidInv(s, q, t) && q.queue == [] && (t == 0 ==> q.nTodo != 0) && CountsOk(q)
    ensures Inv(Enter(s, q, t))
  {
    hide Sum, Pending;
    Naturals(s.threads);
    Reseat(s.threads, t, Waiting(false));
  }

  /** What the sums become when a thread leaves its critical section as `x`. */
  lemma {:induction false} Reseat(threads: seq<Thread>, t: nat, x: Thread)
    requires t < |threads| && threads[t].Outside?
    ensures Sum(threads[t := x], held) == Sum(threads, held) + held(x)
    ensures Sum(threads[t := x], idle) == Sum(threads, idle) + idle(x)
    ensures Sum(threads[t := x], busy) == Sum(threads, busy) + busy(x)
    ensures Pending(threads[t := x]) == Pending(threads) + PendingOf(x)
    ensures AnyFlag(threads[t := x]) == (AnyFlag(threads) || (x.Working? && !x.fOk))
  {
    SumUpdate(threads, held, t, x);
    SumUpdate(threads, idle, t, x);
    SumUpdate(threads, busy, t, x);
    PendingUpdate(threads, t, x);
    var r := threads[t := x];
    if i :| 0 <= i < |threads| && threads[i].Working? && !threads[i].fOk {
      assert r[i] == threads[i];
    }
    if x.Working? && !x.fOk {
      assert r[t] == x;
    }
  }

  lemma {:induction false} FromBackIsRest(queue: seq<Check>, n: nat)
    requires n <= |queue|
    ensures multiset(queue) == multiset(queue[..|queue| - n]) + multiset(FromBack(queue, n))
    decreases n
  {
    if n == 0 {
      assert queue[..|queue|] == queue;
    } else {
      FromBackIsRest(queue, n - 1);
      var k := |queue| - n;
      assert queue[..k + 1] == queue[..k] + [queue[k]];
      assert FromBack(queue, n) == FromBack(queue, n - 1) + [queue[k]];
    }
  }

  lemma {:induction false} TakeKeepsInv(s: State, q: Shared, t: nat)
    requires MidInv(s, q, t) && q.queue != [] && CountsOk(q)
    ensures Inv(Enter(s, q, t))
  {
    hide Sum, Pending, FromBack;
    Naturals(s.threads);
    var n := NextBatchSize(q);
    var batch := FromBack(q.queue, n);
    FromBackIsRest(q.queue, n);
    Reseat(s.threads, t, Working(n, batch, q.fAllOk));
  }

  /** Taking a thread out of the sums: its share goes, a flag it carries may go with it. */
  lemma {:induction false} Unseat(threads: seq<Thread>, t: nat)
    requires t < |threads| && ThreadsOk(threads)
    ensures ThreadsOk(threads[t := Outside])
    ensures Sum(threads, held) == Sum(threads[t := Outside], held) + held(threads[t])
    ensures Sum(threads, idle) == Sum(threads[t := Outside], idle) + idle(threads[t])
    ensures Sum(threads, busy) == Sum(threads[t := Outside], busy) + busy(threads[t])
    ensures Pending(threads) == Pending(threads[t := Outside]) + PendingOf(threads[t])
    ensures AnyFlag(threads) == (AnyFlag(threads[t := Outside]) || (threads[t].Working? && !threads[t].fOk))
  {
    var out := threads[t := Outside];
    assert out[t := threads[t]] == threads;
    Reseat(out, t, threads[t]);
  }

  /** Signals change nothing that is counted. */
  lemma {:induction false} SignalsCountNothing(threads: seq<Thread>, threads': seq<Thread>)
    requires |threads| == |threads'|
    requires forall i :: 0 <= i < |threads| ==>
      threads'[i] == threads[i] || (threads[i].Waiting? && threads'[i].Waiting?)
    ensures Sum(threads', held) == Sum(threads, held) && Sum(threads', idle) == Sum(threads, idle)
    ensures Sum(threads', busy) == Sum(threads, busy) && Pending(threads') == Pending(threads)
    ensures ThreadsOk(threads) ==> ThreadsOk(threads')
    ensures AnyFlag(threads') == AnyFlag(threads)
  {
    SumSame(threads, threads', held);
    SumSame(threads, threads', idle);
    SumSame(threads, threads', busy);
    PendingSame(threads, threads');
    if t :| 0 <= t < |threads| && threads[t].Working? && !threads[t].fOk {
      assert threads'[t] == threads[t];
    }
    if t :| 0 <= t < |threads'| && threads'[t].Working? && !threads'[t].fOk {
      assert threads'[t] == threads[t];
    }
  }

  /** No step finds the counters negative. */
  lemma {:induction false} StepIsDefined(s: State, a: Action)
    requires Inv(s) && Enabled(s, a)
    ensures CountsOk(s.q) && (a.Wake? ==> s.q.nIdle > 0)
  {
    Naturals(s.threads);
  }

  lemma {:induction false} AddKeepsInv(s: State, vChecks: seq<Check>, woken: nat)
    requires Inv(s) && Enabled(s, Add(vChecks, woken)) && CountsOk(s.q)
    ensures Inv(Next(s, Add(vChecks, woken)))
  {
    hide Sum, Pending, AnyFlag;
    var s' := Next(s, Add(vChecks, woken));
    SignalsCountNothing(s.threads, s'.threads);
    assert s'.threads[0] == s.threads[0];
    assert s'.added == multiset(s'.q.queue) + Pending(s.threads) + s.executed + s.skipped;
  }

  lemma {:induction false} StartKeepsInv(s: State, t: nat)
    requires Inv(s) && Enabled(s, Start(t)) && CountsOk(s.q)
    ensures Inv(Next(s, Start(t)))
  {
    hide Enter;
    assert MidInv(s, Account(s.q, 0, true), t);
    EnterKeepsInv(s, Account(s.q, 0, true), t);
  }

  lemma {:induction false} UnseatIdle(threads: seq<Thread>, t: nat)
    requires t < |threads| && ThreadsOk(threads) && threads[t].Waiting?
    ensures ThreadsOk(threads[t := Outside]) && AnyFlag(threads) == AnyFlag(threads[t := Outside])
    ensures Sum(threads, held) == Sum(threads[t := Outside], held)
    ensures Sum(threads, idle) == Sum(threads[t := Outside], idle) + 1
    ensures Sum(threads, busy) == Sum(threads[t := Outside], busy)
    ensures Pending(threads) == Pending(threads[t := Outside])
  {
    Unseat(threads, t);
  }

  lemma {:induction false} WakeKeepsInv(s: State, t: nat)
    requires Inv(s) && Enabled(s, Wake(t)) && CountsOk(s.q) && s.q.nIdle > 0
    ensures Inv(Next(s, Wake(t)))
  {
    hide Enter, Sum, Pending, AnyFlag, ThreadsOk, AllOk;
    UnseatIdle(s.threads, t);
    var q := s.q.(nIdle := s.q.nIdle - 1);
    assert MidInv(Leave(s, t), q, t);
    EnterKeepsInv(Leave(s, t), q, t);
  }

  /** Running or skipping one check takes it out of what is pending; running a bad one raises the flag. */
  lemma {:induction false} RunOneMoves(threads: seq<Thread>, t: nat, w: Thread, w': Thread)
    requires t < |threads| && threads[t] == w && ThreadsOk(threads)
    requires w.Working? && w.rest != [] && w' == Working(w.nNow, w.rest[1..], w.fOk && w.rest[0].ok)
    ensures ThreadsOk(threads[t := w'])
    ensures Sum(threads[t := w'], held) == Sum(threads, held) && Sum(threads[t := w'], idle) == Sum(threads, idle)
    ensures Sum(threads[t := w'], busy) == Sum(threads, busy)
    ensures Pending(threads) == Pending(threads[t := w']) + multiset{w.rest[0]}
    ensures AnyFlag(threads[t := w']) == (AnyFlag(threads) || (w.fOk && !w.rest[0].ok))
  {
    hide Sum, Pending, AnyFlag;
    assert w.rest == [w.rest[0]] + w'.rest;
    assert PendingOf(w) == PendingOf(w') + multiset{w.rest[0]};
    Unseat(threads, t);
    Reseat(threads[t := Outside], t, w');
    assert threads[t := Outside][t := w'] == threads[t := w'];
  }

  lemma {:induction false} AllOkOfMore(m: multiset<Check>, c: Check)
    ensures AllOk(m + multiset{c}) <==> AllOk(m) && c.ok
  {
    if AllOk(m + multiset{c}) {
      assert c in m + multiset{c};
      forall d | d in m ensures d.ok { assert d in m + multiset{c}; }
    }
  }

  lemma {:induction false} RunOneConserves(s: State, t: nat)
    requires Inv(s) && Enabled(s, RunOne(t)) && CountsOk(s.q)
    ensures Conserved(Next(s, RunOne(t)), s.q)
  {
    hide Sum, Pending, ThreadsOk, AllOk, Accounts, Verdicts, Quiet;
    var w := s.threads[t];
    var c, w' := w.rest[0], Working(w.nNow, w.rest[1..], w.fOk && w.rest[0].ok);
    RunOneMoves(s.threads, t, w, w');
    AllOkOfMore(s.executed, c);
    OneMoves(multiset(s.q.queue), Pending(s.threads), Pending(s.threads[t := w']), s.executed, s.skipped, c);
    assert !w.fOk ==> AnyFlag(s.threads);
  }

  lemma {:induction false} RunOneKeepsInv(s: State, t: nat)
    requires Inv(s) && Enabled(s, RunOne(t)) && CountsOk(s.q)
    ensures Inv(Next(s, RunOne(t)))
  {
    hide Sum, Pending, PendingOf, AnyFlag, ThreadsOk, AllOk, Conserved, Verdicts;
    RunOneConserves(s, t);
    NotQuiet(s.threads, t);
    var w := s.threads[t];
    RunOneMoves(s.threads, t, w, Working(w.nNow, w.rest[1..], w.fOk && w.rest[0].ok));
    SameVerdicts(s, Next(s, RunOne(t)));
  }

  lemma {:induction false} SameVerdicts(s: State, s': State)
    requires s.verdicts == s'.verdicts
    ensures Verdicts(s) == Verdicts(s')
  {
  }

  /** A thread at work means that something is still to be done. */
  lemma {:induction false} NotQuiet(threads: seq<Thread>, t: nat)
    requires t < |threads| && ThreadsOk(threads) && threads[t].Working?
    ensures Sum(threads, held) > 0
  {
    Naturals(threads);
    assert held(threads[t]) > 0;
  }

  lemma {:induction false} OneMoves(q: multiset<Check>, p: multiset<Check>, p': multiset<Check>,
                                    executed: multiset<Check>, skipped: multiset<Check>, c: Check)
    requires p == p' + multiset{c}
    ensures q + p + executed + skipped == q + p' + (executed + multiset{c}) + skipped
    ensures q + p + executed + skipped == q + p' + executed + (skipped + multiset{c})
  {
  }

  lemma {:induction false} FinishKeepsInv(s: State, t: nat)
    requires Inv(s) && Enabled(s, Finish(t)) && CountsOk(s.q)
    ensures Inv(Next(s, Finish(t)))
  {
    hide Enter, Sum, Pending, AnyFlag, ThreadsOk, AllOk, Verdicts;
    var w := s.threads[t];
    var q, out := Account(s.q, w.nNow, w.fOk), Leave(s, t);
    NotQuiet(s.threads, t);
    UnseatDone(s.threads, t);
    var threads := if q.nTodo == 0 && t != 0 then Signal(out.threads, 0) else out.threads;
    SignalsCountNothing(out.threads, threads);
    var s' := out.(threads := threads);
    SameVerdicts(s, s');
    assert MidInv(s', q, t);
    EnterKeepsInv(s', q, t);
  }

  lemma {:induction false} UnseatDone(threads: seq<Thread>, t: nat)
    requires t < |threads| && ThreadsOk(threads) && threads[t].Working? && threads[t].rest == []
    ensures threads[t].nNow > 0 && ThreadsOk(threads[t := Outside])
    ensures AnyFlag(threads) == (AnyFlag(threads[t := Outside]) || !threads[t].fOk)
    ensures Sum(threads, held) == Sum(threads[t := Outside], held) + threads[t].nNow
    ensures Sum(threads, idle) == Sum(threads[t := Outside], idle)
    ensures Sum(threads, busy) == Sum(threads[t := Outside], busy) + 1
    ensures Sum(threads[t := Outside], held) >= 0
    ensures Pending(threads) == Pending(threads[t := Outside])
  {
    Unseat(threads, t);
    Naturals(threads[t := Outside]);
  }

  /** Every step of every thread keeps the invariant. */
  lemma {:induction false} StepKeepsInv(s: State, a: Action)
    requires Inv(s) && Enabled(s, a)
    ensures CountsOk(s.q) && (a.Wake? ==> s.q.nIdle > 0) && Inv(Next(s, a))
  {
    StepIsDefined(s, a);
    match a
    case Construct =>
    case Add(vChecks, woken) => AddKeepsInv(s, vChecks, woken);
    case Start(t) => StartKeepsInv(s, t);
    case Wake(t) => WakeKeepsInv(s, t);
    case RunOne(t) => RunOneKeepsInv(s, t);
    case Finish(t) => FinishKeepsInv(s, t);
  }
}
