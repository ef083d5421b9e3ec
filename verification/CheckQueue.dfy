/** The check queue as a protocol: one master, any number of workers, one mutex. */
module CheckQueue {
  import opened Powers

  // Each critical section of `CCheckQueue::Loop` is one step, each check of a batch another, and steps of
  // different threads interleave freely. A waiting thread may be signalled or wake spuriously.

  /** A verification, and what running it returns. */
  datatype Check = Check(id: nat, ok: bool)

  // ------------------------------------------------------- the shared fields

  datatype Shared = Shared(queue: seq<Check>, nIdle: int, nTotal: int, fAllOk: bool, nTodo: int, fQuit: bool,
    nBatchSize: nat)

  /** How a critical section of `Loop` ends: returned, asleep on the condition, or with a batch to run. */
  datatype Outcome = Returned(fRet: bool) | Slept | Took(vChecks: seq<Check>, fOk: bool)

  datatype Section = Section(q: Shared, outcome: Outcome)

  /** The clean-up of the previous round, or the registration of a thread on its first. */
  function Account(q: Shared, nNow: nat, fOk: bool): Shared {
    if nNow != 0 then q.(fAllOk := q.fAllOk && fOk, nTodo := q.nTodo - nNow) else q.(nTotal := q.nTotal + 1)
  }

  /** The most checks that the limit and a fair share of the queue allow, but always one. */
  function NextBatchSize(q: Shared): (nNow: nat)
    requires q.queue != [] && q.nTotal + q.nIdle >= 0
    ensures 1 <= nNow <= |q.queue|
    ensures nNow == 1 || (nNow <= q.nBatchSize && nNow * (q.nTotal + q.nIdle + 1) <= |q.queue|)
    ensures nNow + 1 > q.nBatchSize || (nNow + 1) * (q.nTotal + q.nIdle + 1) > |q.queue|
  {
    var share := |q.queue| / (q.nTotal + q.nIdle + 1);
    ShareIsSmaller(|q.queue|, q.nTotal + q.nIdle + 1);
    ShareIs(|q.queue|, q.nTotal + q.nIdle + 1);
    var capped := if q.nBatchSize < share then q.nBatchSize else share;
    if capped < 1 then 1 else capped
  }

  lemma {:induction false} ShareIsSmaller(n: nat, d: nat)
    requires d > 0
    ensures 0 <= n / d <= n
  {
    assert n == (n / d) * d + n % d;
    MulMonotone(n / d, 1, d);
  }

  lemma {:induction false} ShareIs(n: nat, d: nat)
    requires d > 0
    ensures n / d >= 0
    ensures forall k: nat :: k <= n / d ==> k * d <= n
    ensures forall k: nat :: k > n / d ==> k * d > n
  {
    var share := n / d;
    assert n == share * d + n % d;
    forall k: nat ensures k <= share ==> k * d <= n {
      if k <= share {
        MulMonotone(d, k, share);
      }
    }
    forall k: nat ensures k > share ==> k * d > n {
      if k > share {
        MulMonotone(d, share + 1, k);
      }
    }
  }

  /** The last `n` checks of the queue, last one first. */
  function FromBack(queue: seq<Check>, n: nat): (batch: seq<Check>)
    requires n <= |queue|
    ensures |batch| == n
  {
    seq(n, i requires 0 <= i < n => queue[|queue| - 1 - i])
  }

  /** Whether that clean-up, having left `q`, notifies the master: by the worker that processed the last element. */
  predicate TellsMaster(q: Shared, nNow: nat, fMaster: bool) {
    nNow != 0 && q.nTodo == 0 && !fMaster
  }

  /** The workers that are notified of added checks. */
  datatype Notice = Nobody | One | All

  function NoticeOf(vChecks: seq<Check>): Notice {
    if |vChecks| == 1 then One else if |vChecks| > 1 then All else Nobody
  }

  /** From the top of `while (queue.empty())` to the end of the critical section. */
  function Settle(q: Shared, fMaster: bool): Section
    requires q.nTotal + q.nIdle >= 0
  {
    if q.queue == [] then
      if (fMaster || q.fQuit) && q.nTodo == 0 then
        Section(q.(nTotal := q.nTotal - 1, fAllOk := fMaster || q.fAllOk), Returned(q.fAllOk))
      else
        Section(q.(nIdle := q.nIdle + 1), Slept)
    else
      var nNow := NextBatchSize(q);
      Section(q.(queue := q.queue[..|q.queue| - nNow]), Took(FromBack(q.queue, nNow), q.fAllOk))
  }

  /** Checks are taken from the back, last one first. */
  lemma {:induction false} BatchIsTheBack(q: Shared, fMaster: bool)
    requires q.nTotal + q.nIdle >= 0 && Settle(q, fMaster).outcome.Took?
    ensures var r := Settle(q, fMaster);
            q.queue == r.q.queue + FromBack(r.outcome.vChecks, |r.outcome.vChecks|)
  {
  }

  predicate Quiescent(q: Shared) {
    q.nTotal == q.nIdle && q.nTodo == 0 && q.fAllOk
  }

  // ------------------------------------------------------------ the protocol

  datatype Thread =
    | Outside
    | Waiting(signalled: bool)
    | Working(nNow: nat, rest: seq<Check>, fOk: bool)

  datatype Verdict = Verdict(value: bool, on: multiset<Check>)

  /**
   Thread 0 is the master. `added`, `executed` and `skipped` record the checks of the
   current controller; `verdicts` what every `Wait` so far returned, and on which checks.
   */
  datatype State = State(q: Shared, threads: seq<Thread>, inControl: bool,
                         added: multiset<Check>, executed: multiset<Check>, skipped: multiset<Check>,
                           verdicts: seq<Verdict>)

  datatype Action =
    | Construct
    | Add(vChecks: seq<Check>, woken: nat)
    | Start(t: nat)
    | Wake(t: nat)
    | RunOne(t: nat)
    | Finish(t: nat)

  function Init(nBatchSize: nat, nThreads: nat): State {
    State(Shared([], 0, 0, true, 0, false, nBatchSize), seq(nThreads, _ => Outside), false,
          multiset{}, multiset{}, multiset{}, [])
  }

  /** `notify_one` wakes a worker that has not been notified yet, if one waits. */
  predicate MayWake(threads: seq<Thread>, woken: nat) {
    if exists t :: 0 < t < |threads| && threads[t] == Waiting(false)
    then 0 < woken < |threads| && threads[woken] == Waiting(false)
    else woken == 0
  }

  predicate Enabled(s: State, a: Action) {
    |s.threads| > 0 &&
    match a
    case Construct => s.threads[0].Outside? && !s.inControl
    case Add(vChecks, woken) =>
      s.threads[0].Outside? && s.inControl && (NoticeOf(vChecks) == One ==> MayWake(s.threads, woken))
    case Start(t) => t < |s.threads| && s.threads[t].Outside? && (t == 0 ==> s.inControl)
    case Wake(t) => t < |s.threads| && s.threads[t].Waiting?
    case RunOne(t) => t < |s.threads| && s.threads[t].Working? && s.threads[t].rest != []
    case Finish(t) => t < |s.threads| && s.threads[t].Working? && s.threads[t].rest == []
  }

  function Signal(threads: seq<Thread>, t: nat): seq<Thread> {
    if t < |threads| && threads[t].Waiting? then threads[t := Waiting(true)] else threads
  }

  function SignalWorkers(threads: seq<Thread>): (r: seq<Thread>)
    ensures |r| == |threads|
  {
    seq(|threads|, i requires 0 <= i < |threads| => if i > 0 && threads[i].Waiting? then Waiting(true) else threads[i])
  }

  /** Thread `t` goes through the rest of a critical section on `q`. */
  function Enter(s: State, q: Shared, t: nat): State
    requires t < |s.threads| && q.nTotal + q.nIdle >= 0
  {
    var r := Settle(q, t == 0);
    var s' := s.(q := r.q, threads := s.threads[t := After(r.outcome)]);
    if r.outcome.Returned? && t == 0 then
      s'.(inControl := false, verdicts := s.verdicts + [Verdict(r.outcome.fRet, s.added)],
          added := multiset{}, executed := multiset{}, skipped := multiset{})
    else s'
  }

  function After(o: Outcome): Thread {
    match o
    case Returned(_) => Outside
    case Slept => Waiting(false)
    case Took(vChecks, fOk) => Working(|vChecks|, vChecks, fOk)
  }

  predicate CountsOk(q: Shared) { q.nIdle >= 0 && q.nTotal >= 0 }

  function Next(s: State, a: Action): State
    requires Enabled(s, a) && CountsOk(s.q) && (a.Wake? ==> s.q.nIdle > 0)
  {
    match a
    case Construct => s.(inControl := true)
    case Add(vChecks, woken) =>
      var notice := NoticeOf(vChecks);
      var threads := if notice == One && woken > 0 then Signal(s.threads, woken)
                     else if notice == All then SignalWorkers(s.threads) else s.threads;
      s.(q := s.q.(queue := s.q.queue + vChecks, nTodo := s.q.nTodo + |vChecks|), threads := threads,
         added := s.added + multiset(vChecks))
    case Start(t) => Enter(s, Account(s.q, 0, true), t)
    case Wake(t) => Enter(Leave(s, t), s.q.(nIdle := s.q.nIdle - 1), t)
    case RunOne(t) =>
      var w := s.threads[t];
      var c := w.rest[0];
      var s' := s.(threads := s.threads[t := Working(w.nNow, w.rest[1..], w.fOk && c.ok)]);
      if w.fOk then s'.(executed := s.executed + multiset{c}) else s'.(skipped := s.skipped + multiset{c})
    case Finish(t) =>
      var w := s.threads[t];
      var q := Account(s.q, w.nNow, w.fOk);
      var s' := Leave(s, t);
      Enter(if TellsMaster(q, w.nNow, t == 0) then s'.(threads := Signal(s'.threads, 0)) else s', q, t)
  }

  /** While it is inside a critical section a thread neither waits nor holds a batch. */
  function Leave(s: State, t: nat): State
    requires t < |s.threads|
  {
    s.(threads := s.threads[t := Outside])
  }

  // --------------------------------------------------------- sums over threads

  function Sum(threads: seq<Thread>, f: Thread -> int): int {
    if threads == [] then 0 else f(threads[0]) + Sum(threads[1..], f)
  }

  lemma {:induction false} SumUpdate(threads: seq<Thread>, f: Thread -> int, t: nat, x: Thread)
    requires t < |threads|
    ensures Sum(threads[t := x], f) == Sum(threads, f) - f(threads[t]) + f(x)
  {
    if t > 0 {
      SumUpdate(threads[1..], f, t - 1, x);
      assert threads[t := x][1..] == threads[1..][t - 1 := x];
    } else {
      assert threads[t := x][1..] == threads[1..];
    }
  }

  lemma {:induction false} SumSame(threads: seq<Thread>, threads': seq<Thread>, f: Thread -> int)
    requires |threads| == |threads'| && forall i :: 0 <= i < |threads| ==> f(threads[i]) == f(threads'[i])
    ensures Sum(threads, f) == Sum(threads', f)
  {
    if threads != [] {
      SumSame(threads[1..], threads'[1..], f);
    }
  }

  /** A sum of naturals is at least each of them, and positive only if one of them is. */
  lemma {:induction false} SumBounds(threads: seq<Thread>, f: Thread -> int)
    requires forall x :: f(x) >= 0
    ensures Sum(threads, f) >= 0
    ensures forall i :: 0 <= i < |threads| ==> f(threads[i]) <= Sum(threads, f)
    ensures Sum(threads, f) > 0 ==> exists i :: 0 <= i < |threads| && f(threads[i]) > 0
  {
    if threads != [] {
      SumBounds(threads[1..], f);
      assert forall i :: 1 <= i < |threads| ==> threads[i] == threads[1..][i - 1];
    }
  }

  const held: Thread -> int := (x: Thread) => if x.Working? then x.nNow else 0
  const idle: Thread -> int := (x: Thread) => if x.Waiting? then 1 else 0
  const busy: Thread -> int := (x: Thread) => if x.Working? then 1 else 0

  /** The checks that threads hold and have not come to yet. */
  function Pending(threads: seq<Thread>): multiset<Check> {
    if threads == [] then multiset{} else PendingOf(threads[0]) + Pending(threads[1..])
  }

  function PendingOf(x: Thread): multiset<Check> {
    if x.Working? then multiset(x.rest) else multiset{}
  }

  lemma {:induction false} PendingUpdate(threads: seq<Thread>, t: nat, x: Thread)
    requires t < |threads|
    ensures Pending(threads[t := x]) + PendingOf(threads[t]) == Pending(threads) + PendingOf(x)
  {
    if t > 0 {
      PendingUpdate(threads[1..], t - 1, x);
      assert threads[t := x][1..] == threads[1..][t - 1 := x];
      var rest := Pending(threads[1..]);
      assert PendingOf(threads[0]) + (rest + PendingOf(x)) == (PendingOf(threads[0]) + rest) + PendingOf(x);
    } else {
      assert threads[t := x][1..] == threads[1..];
    }
  }

  lemma {:induction false} PendingSame(threads: seq<Thread>, threads': seq<Thread>)
    requires |threads| == |threads'| &&
      forall i :: 0 <= i < |threads| ==> PendingOf(threads[i]) == PendingOf(threads'[i])
    ensures Pending(threads) == Pending(threads')
  {
    if threads != [] {
      PendingSame(threads[1..], threads'[1..]);
    }
  }

  // -------------------------------------------------------------- the invariant

  ghost predicate AllOk(m: multiset<Check>) {
    forall c :: c in m ==> c.ok
  }

  /** The shared flag, or that of a thread at work, records a failure. */
  ghost predicate Flagged(fAllOk: bool, threads: seq<Thread>) {
    !fAllOk || AnyFlag(threads)
  }

  ghost predicate AnyFlag(threads: seq<Thread>) {
    exists t :: 0 <= t < |threads| && threads[t].Working? && !threads[t].fOk
  }

  ghost predicate ThreadsOk(threads: seq<Thread>) {
    forall t :: 0 <= t < |threads| && threads[t].Working? ==> threads[t].nNow > 0
  }

  /** The counters against what the threads do; `inside` counts a thread in its critical section. */
  ghost predicate Accounts(q: Shared, threads: seq<Thread>, inside: int) {
    && q.nTodo == |q.queue| + Sum(threads, held)
    && q.nIdle == Sum(threads, idle)
    && q.nTotal == Sum(threads, idle) + Sum(threads, busy) + inside
  }

  /** No check is lost or made up, and a failure among the executed ones is on record. */
  ghost predicate Conserved(s: State, q: Shared) {
    && s.added == multiset(q.queue) + Pending(s.threads) + s.executed + s.skipped
    && (Flagged(q.fAllOk, s.threads) <==> !AllOk(s.executed))
    && (s.skipped != multiset{} ==> !AllOk(s.executed))
  }

  ghost predicate Verdicts(s: State) {
    forall i :: 0 <= i < |s.verdicts| ==> (s.verdicts[i].value <==> AllOk(s.verdicts[i].on))
  }

  ghost predicate Quiet(s: State, q: Shared) {
    s.added == multiset{} && s.executed == multiset{} && s.skipped == multiset{} && q.queue == [] && q.nTodo == 0
  }

  ghost predicate Inv(s: State) {
    && |s.threads| > 0 && !s.q.fQuit
    && ThreadsOk(s.threads) && Accounts(s.q, s.threads, 0) && Conserved(s, s.q) && Verdicts(s)
    && (s.threads[0] == Waiting(false) ==> s.q.queue == [] && s.q.nTodo > 0)
    && (!s.inControl ==> s.threads[0].Outside? && Quiet(s, s.q))
  }

  /** The same while thread `t` is inside its critical section, with the shared fields at `q`. */
  ghost predicate MidInv(s: State, q: Shared, t: nat) {
    && t < |s.threads| && s.threads[t].Outside? && !q.fQuit
    && ThreadsOk(s.threads) && Accounts(q, s.threads, 1) && Conserved(s, q) && Verdicts(s)
    && (s.threads[0] == Waiting(false) ==> q.queue == [] && q.nTodo > 0)
    && (!s.inControl ==> t != 0 && s.threads[0].Outside? && Quiet(s, q))
  }

  // ------------------------------------------------------------------- the class

  class CCheckQueue {
    var queue: seq<Check>
    var nIdle: int
    var nTotal: int
    var fAllOk: bool
    var nTodo: int
    var fQuit: bool
    const nBatchSize: nat

    ghost function Contents(): Shared
      reads this
    {
      Shared(queue, nIdle, nTotal, fAllOk, nTodo, fQuit, nBatchSize)
    }

    constructor (nBatchSizeIn: nat)
      ensures Contents() == Init(nBatchSizeIn, 1).q
    {
      queue, nIdle, nTotal, fAllOk, nTodo, fQuit, nBatchSize := [], 0, 0, true, 0, false, nBatchSizeIn;
    }

    /** The critical section entered with the results of the last round; it ends at a wait, a batch or a return. */
    method Enter(fMaster: bool, nNow: nat, fOk: bool) returns (tellMaster: bool, outcome: Outcome)
      requires nTotal >= 0 && nIdle >= 0
      modifies this
      ensures tellMaster == TellsMaster(Account(old(Contents()), nNow, fOk), nNow, fMaster)
      ensures Section(Contents(), outcome) == Settle(Account(old(Contents()), nNow, fOk), fMaster)
    {
      tellMaster := false;
      if nNow != 0 {
        fAllOk := fAllOk && fOk;
        nTodo := nTodo - nNow;
        if nTodo == 0 && !fMaster {
          tellMaster := true;
        }
      } else {
        nTotal := nTotal + 1;
      }
      outcome := Proceed(fMaster);
    }

    /** What a thread does first when `cond.wait` gives it the mutex back. */
    method Resume(fMaster: bool) returns (outcome: Outcome)
      requires nTotal >= 0 && nIdle > 0
      modifies this
      ensures Section(Contents(), outcome) == Settle(old(Contents()).(nIdle := old(nIdle) - 1), fMaster)
    {
      nIdle := nIdle - 1;
      outcome := Proceed(fMaster);
    }

    method Proceed(fMaster: bool) returns (outcome: Outcome)
      requires nTotal >= 0 && nIdle >= 0
      modifies this
      ensures Section(Contents(), outcome) == Settle(old(Contents()), fMaster)
    {
      if queue == [] {
        if (fMaster || fQuit) && nTodo == 0 {
          nTotal := nTotal - 1;
          var fRet := fAllOk;
          if fMaster {
            fAllOk := true;
          }
          return Returned(fRet);
        }
        nIdle := nIdle + 1;
        return Slept;
      }
      ghost var q, all := Contents(), queue;
      var nNow := NextBatchSize(Shared(queue, nIdle, nTotal, fAllOk, nTodo, fQuit, nBatchSize));
      var vChecks := [];
      for i := 0 to nNow
        invariant Contents() == q.(queue := all[..|all| - i])
        invariant vChecks == FromBack(all, i)
      {
        vChecks := vChecks + [queue[|queue| - 1]];
        queue := queue[..|queue| - 1];
      }
      outcome := Took(vChecks, fAllOk);
    }

    method Add(vChecks: seq<Check>) returns (notice: Notice)
      modifies this
      ensures notice == NoticeOf(vChecks)
      ensures Contents() == old(Contents()).(queue := old(queue) + vChecks, nTodo := old(nTodo) + |vChecks|)
    {
      ghost var before := Contents();
      for i := 0 to |vChecks|
        invariant Contents() == before.(queue := before.queue + vChecks[..i])
      {
        queue := queue + [vChecks[i]];
      }
      assert vChecks[..|vChecks|] == vChecks;
      nTodo := nTodo + |vChecks|;
      notice := Nobody;
      if |vChecks| == 1 {
        notice := One;
      } else if |vChecks| > 1 {
        notice := All;
      }
    }

    /** Outside the mutex: run the batch until a check fails. */
    static method RunBatch(vChecks: seq<Check>, fOkIn: bool) returns (fOk: bool)
      ensures fOk <==> fOkIn && forall i :: 0 <= i < |vChecks| ==> vChecks[i].ok
    {
      fOk := fOkIn;
      for i := 0 to |vChecks|
        invariant fOk <==> fOkIn && forall j :: 0 <= j < i ==> vChecks[j].ok
      {
        if fOk {
          fOk := vChecks[i].ok;
        }
      }
    }

    method IsIdle() returns (idle: bool)
      ensures idle == Quiescent(Contents())
    {
      idle := nTotal == nIdle && nTodo == 0 && fAllOk;
    }
  }
}
