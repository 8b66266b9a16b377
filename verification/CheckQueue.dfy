/** The script check queue: a master and its workers share a queue of checks under one
    mutex and two condition variables. A run is a sequence of atomic steps: a critical
    section of one thread, one check carried out outside the lock, an addition of checks
    by the master, or a wake-up. A check is known by its outcome. */
module CheckQueue {

  /* ---- the fields behind the mutex ---- */

  datatype Shared = Shared(queue: seq<bool>, nIdle: nat, nTotal: nat, fAllOk: bool, nTodo: nat)

  predicate AllPass(checks: seq<bool>) { forall i :: 0 <= i < |checks| ==> checks[i] }

  // How many checks to take: a share of the queue, at least one and at most nBatchSize.
  function Share(q: Shared, nBatchSize: nat): (n: nat)
    requires q.queue != []
    ensures 1 <= n <= |q.queue|
    ensures n <= nBatchSize || n == 1
  {
    var part := |q.queue| / (q.nTotal + q.nIdle + 1);
    var capped := if nBatchSize < part then nBatchSize else part;
    if capped < 1 then 1 else capped
  }

  // It is the largest number that leaves as much for every thread that is in or idle and one
  // more, up to the batch size; or one, where that would be none.
  lemma {:induction false} ShareIsFair(q: Shared, nBatchSize: nat)
    requires q.queue != []
    ensures var n, k := Share(q, nBatchSize), q.nTotal + q.nIdle + 1;
      && (n > 1 ==> n * k <= |q.queue| && n <= nBatchSize)
      && (n < nBatchSize ==> (n + 1) * k > |q.queue|)
  {
    var n, k := Share(q, nBatchSize), q.nTotal + q.nIdle + 1;
    FairParts(|q.queue|, k, n);
  }

  lemma {:induction false} FairParts(x: nat, k: nat, n: nat)
    requires k > 0
    ensures n <= x / k ==> n * k <= x
    ensures n >= x / k ==> (n + 1) * k > x
  {
    var part := x / k;
    assert x == part * k + x % k;
    Larger(n, part, k);
    Larger(part + 1, n + 1, k);
    assert (part + 1) * k == part * k + k;
  }

  lemma {:induction false} Larger(a: nat, b: nat, k: nat)
    ensures a <= b ==> a * k <= b * k
  {
    if a <= b { assert b * k == a * k + (b - a) * k; }
  }

  // The last n checks of the queue, last first.
  function Batch(queue: seq<bool>, n: nat): seq<bool>
    requires n <= |queue|
  {
    seq(n, i requires 0 <= i < n => queue[|queue| - 1 - i])
  }

  function Reversed(s: seq<bool>): seq<bool> { if s == [] then [] else Reversed(s[1..]) + [s[0]] }

  // What is left and the batch turned round are the queue.
  lemma {:induction false} BatchIsTop(queue: seq<bool>, n: nat)
    requires n <= |queue|
    ensures queue[..|queue| - n] + Reversed(Batch(queue, n)) == queue
    decreases n
  {
    if n > 0 {
      var front := queue[..|queue| - 1];
      BatchIsTop(front, n - 1);
      assert Batch(queue, n)[1..] == Batch(front, n - 1);
      assert queue == front + [queue[|queue| - 1]] && front[..|front| - (n - 1)] == queue[..|queue| - n];
    }
  }

  lemma {:induction false} BatchPasses(queue: seq<bool>, n: nat)
    requires n <= |queue|
    ensures AllPass(queue) <==> AllPass(queue[..|queue| - n]) && AllPass(Batch(queue, n))
  {
    var b := Batch(queue, n);
    if AllPass(queue[..|queue| - n]) && AllPass(b) {
      forall i | 0 <= i < |queue| ensures queue[i] {
        if i < |queue| - n {
          assert queue[..|queue| - n][i];
        } else {
          assert b[|queue| - 1 - i];
        }
      }
    }
  }

  /* ---- threads ---- */

  // Where a thread is: outside Loop; working on a batch, with the checks still to do;
  // blocked on its condition variable; or notified and about to take the lock again.
  datatype Local = Outside | Working(rest: seq<bool>, nNow: nat, fOk: bool) | Waiting | Woken

  const MASTER := 0

  // `added` is what the master added since the last Wait returned. The rounds before it
  // are kept with the result Wait returned for each.
  datatype State = State(q: Shared, threads: seq<Local>, added: seq<bool>, rounds: seq<seq<bool>>, returned: seq<bool>)

  function Start(n: nat): State {
    State(Shared([], 0, 0, true, 0), seq(n, _ => Outside), [], [], [])
  }

  datatype Action = Add(checks: seq<bool>, wake: nat) | Section(t: nat) | RunCheck(t: nat) | Spurious(t: nat)

  /* ---- steps ---- */

  function NotifyMaster(threads: seq<Local>): seq<Local>
    requires MASTER < |threads|
  {
    if threads[MASTER].Waiting? then threads[MASTER := Woken] else threads
  }

  function NotifyAllWorkers(threads: seq<Local>): seq<Local> {
    seq(|threads|, i requires 0 <= i < |threads| => if i != MASTER && threads[i].Waiting? then Woken else threads[i])
  }

  predicate SomeWorkerWaits(threads: seq<Local>) { exists i :: 0 < i < |threads| && threads[i].Waiting? }

  // The start of a critical section: report the batch, count the thread in, or note
  // that it is no longer idle.
  function Report(q: Shared, l: Local): Shared
    requires !l.Waiting?
    requires l.Working? ==> l.nNow <= q.nTodo
    requires l.Woken? ==> 0 < q.nIdle
  {
    match l
    case Outside => q.(nTotal := q.nTotal + 1)
    case Working(_, nNow, fOk) => q.(fAllOk := q.fAllOk && fOk, nTodo := q.nTodo - nNow)
    case Woken => q.(nIdle := q.nIdle - 1)
  }

  datatype Outcome = Leave | Block | Take

  function Decide(q: Shared, isMaster: bool): Outcome {
    if q.queue == [] then (if isMaster && q.nTodo == 0 then Leave else Block) else Take
  }

  // The rest of the section: leave with the result, block, or take a batch.
  function Finish(q: Shared, isMaster: bool, nBatchSize: nat): (Shared, Local)
    requires Decide(q, isMaster) == Leave ==> 0 < q.nTotal
  {
    match Decide(q, isMaster)
    case Leave => (q.(nTotal := q.nTotal - 1, fAllOk := if isMaster then true else q.fAllOk), Outside)
    case Block => (q.(nIdle := q.nIdle + 1), Waiting)
    case Take =>
      var n := Share(q, nBatchSize);
      (q.(queue := q.queue[..|q.queue| - n]), Working(Batch(q.queue, n), n, q.fAllOk))
  }

  predicate Enabled(s: State, a: Action) {
    match a
    case Add(_, wake) =>
      && MASTER < |s.threads| && s.threads[MASTER].Outside?
      && (SomeWorkerWaits(s.threads) ==> 0 < wake < |s.threads| && s.threads[wake].Waiting?)
    case Section(t) =>
      && t < |s.threads| && MASTER < |s.threads|
      && match s.threads[t] {
           case Waiting => false
           case Working(rest, nNow, _) => rest == [] && nNow <= s.q.nTodo
           case Woken => 0 < s.q.nIdle
           case Outside => true
         }
    case RunCheck(t) => t < |s.threads| && s.threads[t].Working? && s.threads[t].rest != []
    case Spurious(t) => t < |s.threads| && s.threads[t].Waiting?
  }

  function AddStep(s: State, checks: seq<bool>, wake: nat): State
    requires Enabled(s, Add(checks, wake))
  {
    var threads :=
      if |checks| == 1 && SomeWorkerWaits(s.threads) then s.threads[wake := Woken]
      else if |checks| > 1 then NotifyAllWorkers(s.threads)
      else s.threads;
    s.(q := s.q.(queue := s.q.queue + checks, nTodo := s.q.nTodo + |checks|), threads := threads,
       added := s.added + checks)
  }

  // Threads after the report: the last worker to report wakes the master.
  function Reported(s: State, t: nat): seq<Local>
    requires Enabled(s, Section(t))
  {
    if s.threads[t].Working? && Report(s.q, s.threads[t]).nTodo == 0 && t != MASTER
    then NotifyMaster(s.threads) else s.threads
  }

  function SectionStep(s: State, t: nat, nBatchSize: nat): State
    requires Enabled(s, Section(t))
    requires Decide(Report(s.q, s.threads[t]), t == MASTER) == Leave ==> 0 < Report(s.q, s.threads[t]).nTotal
  {
    var q := Report(s.q, s.threads[t]);
    var (q', l) := Finish(q, t == MASTER, nBatchSize);
    var threads := Reported(s, t)[t := l];
    if Decide(q, t == MASTER) == Leave && t == MASTER
    then State(q', threads, [], s.rounds + [s.added], s.returned + [q.fAllOk])
    else s.(q := q', threads := threads)
  }

  function RunStep(s: State, t: nat): State
    requires Enabled(s, RunCheck(t))
  {
    var w := s.threads[t];
    s.(threads := s.threads[t := Working(w.rest[1..], w.nNow, if w.fOk then w.rest[0] else false)])
  }

  function SpuriousStep(s: State, t: nat): State
    requires Enabled(s, Spurious(t))
  {
    s.(threads := s.threads[t := Woken])
  }

  function Step(s: State, a: Action, nBatchSize: nat): State
    requires Enabled(s, a) && Inv(s)
  {
    match a
    case Add(checks, wake) => AddStep(s, checks, wake)
    case Section(t) => SectionCounts(s, t); SectionStep(s, t, nBatchSize)
    case RunCheck(t) => RunStep(s, t)
    case Spurious(t) => SpuriousStep(s, t)
  }

  /* ---- the invariant ---- */

  function Held(l: Local): nat { if l.Working? then l.nNow else 0 }
  function Idle(l: Local): nat { if l.Waiting? || l.Woken? then 1 else 0 }
  function Inside(l: Local): nat { if l.Outside? then 0 else 1 }

  function Total(f: Local -> nat, threads: seq<Local>): nat {
    if threads == [] then 0 else f(threads[0]) + Total(f, threads[1..])
  }

  predicate Clean(l: Local) { l.Working? ==> l.fOk && AllPass(l.rest) }

  // What the round will come to: no failure recorded, queued or in a batch.
  predicate Verdict(s: State) {
    && s.q.fAllOk && AllPass(s.q.queue)
    && forall i :: 0 <= i < |s.threads| ==> Clean(s.threads[i])
  }

  predicate BatchOk(l: Local) { l.Working? ==> 1 <= l.nNow && |l.rest| <= l.nNow }

  ghost predicate Inv(s: State) {
    && MASTER < |s.threads|
    && s.q.nTodo == |s.q.queue| + Total(Held, s.threads)
    && s.q.nIdle == Total(Idle, s.threads)
    && s.q.nTotal == Total(Inside, s.threads)
    && (forall i :: 0 <= i < |s.threads| ==> BatchOk(s.threads[i]))
    && (Verdict(s) <==> AllPass(s.added))
    && (s.threads[MASTER].Waiting? ==> s.q.queue == [] && s.q.nTodo > 0)
    && |s.returned| == |s.rounds|
    && (forall i :: 0 <= i < |s.rounds| ==> (s.returned[i] <==> AllPass(s.rounds[i])))
  }

  /* ---- totals over the threads ---- */

  lemma {:induction false} TotalUpdate(f: Local -> nat, threads: seq<Local>, t: nat, l: Local)
    requires t < |threads|
    ensures Total(f, threads[t := l]) == Total(f, threads) - f(threads[t]) + f(l)
    ensures f(threads[t]) <= Total(f, threads)
  {
    if t == 0 {
      assert threads[t := l][1..] == threads[1..];
    } else {
      assert threads[t := l][1..] == threads[1..][t - 1 := l];
      TotalUpdate(f, threads[1..], t - 1, l);
    }
  }

  lemma {:induction false} TotalSame(f: Local -> nat, a: seq<Local>, b: seq<Local>)
    requires |a| == |b| && forall i :: 0 <= i < |a| ==> f(a[i]) == f(b[i])
    ensures Total(f, a) == Total(f, b)
  {
    if a != [] {
      assert f(a[0]) == f(b[0]);
      assert forall i :: 0 <= i < |a| - 1 ==> a[1..][i] == a[i + 1] && b[1..][i] == b[i + 1];
      TotalSame(f, a[1..], b[1..]);
    }
  }

  lemma {:induction false} SectionCounts(s: State, t: nat)
    requires Enabled(s, Section(t)) && Inv(s)
    ensures 0 < Report(s.q, s.threads[t]).nTotal
  {
    TotalUpdate(Inside, s.threads, t, Outside);
  }

  /* ---- what each step keeps ---- */

  // The counts and batches of the threads, apart from what the round comes to.
  ghost predicate Counted(q: Shared, threads: seq<Local>) {
    && MASTER < |threads|
    && q.nTodo == |q.queue| + Total(Held, threads)
    && q.nIdle == Total(Idle, threads)
    && q.nTotal == Total(Inside, threads)
    && (forall i :: 0 <= i < |threads| ==> BatchOk(threads[i]))
  }

  predicate AllClean(threads: seq<Local>) { forall i :: 0 <= i < |threads| ==> Clean(threads[i]) }

  // All threads but one.
  predicate OthersClean(threads: seq<Local>, t: nat) { forall i :: 0 <= i < |threads| && i != t ==> Clean(threads[i]) }

  lemma {:induction false} CleanUpdate(threads: seq<Local>, t: nat, l: Local)
    requires t < |threads|
    ensures AllClean(threads[t := l]) <==> OthersClean(threads, t) && Clean(l)
  {
    var u := threads[t := l];
    if AllClean(u) {
      assert Clean(u[t]);
      forall i | 0 <= i < |threads| && i != t ensures Clean(threads[i]) { assert u[i] == threads[i]; }
    }
  }

  // Waking blocked threads changes no count and no result.
  ghost predicate Woke(a: seq<Local>, b: seq<Local>) {
    |a| == |b| && forall i :: 0 <= i < |a| ==> a[i] == b[i] || (a[i].Waiting? && b[i].Woken?)
  }

  lemma {:induction false} WokeCounts(q: Shared, a: seq<Local>, b: seq<Local>)
    requires Woke(a, b)
    ensures Counted(q, a) <==> Counted(q, b)
    ensures AllClean(a) <==> AllClean(b)
    ensures forall t: nat :: OthersClean(a, t) <==> OthersClean(b, t)
  {
    TotalSame(Held, a, b);
    TotalSame(Idle, a, b);
    TotalSame(Inside, a, b);
    assert forall i :: 0 <= i < |a| ==> (BatchOk(a[i]) <==> BatchOk(b[i])) && (Clean(a[i]) <==> Clean(b[i]));
  }

  // Moving one thread moves each count by that thread's part.
  lemma {:induction false} MoveCounts(q: Shared, threads: seq<Local>, t: nat, q': Shared, l: Local)
    requires Counted(q, threads) && t < |threads| && BatchOk(l)
    requires q'.nTodo - |q'.queue| == q.nTodo - |q.queue| - Held(threads[t]) + Held(l)
    requires q'.nIdle == q.nIdle - Idle(threads[t]) + Idle(l)
    requires q'.nTotal == q.nTotal - Inside(threads[t]) + Inside(l)
    ensures Counted(q', threads[t := l])
  {
    TotalUpdate(Held, threads, t, l);
    TotalUpdate(Idle, threads, t, l);
    TotalUpdate(Inside, threads, t, l);
  }

  lemma {:induction false} AddKeeps(s: State, checks: seq<bool>, wake: nat)
    requires Inv(s) && Enabled(s, Add(checks, wake))
    ensures Inv(AddStep(s, checks, wake))
  {
    var s' := AddStep(s, checks, wake);
    assert Woke(s.threads, s'.threads);
    assert Counted(s'.q, s.threads);
    WokeCounts(s'.q, s.threads, s'.threads);
    AppendPasses(s.q.queue, checks);
    AppendPasses(s.added, checks);
    assert Verdict(s) <==> s.q.fAllOk && AllPass(s.q.queue) && AllClean(s.threads);
    assert Verdict(s') <==> s'.q.fAllOk && AllPass(s'.q.queue) && AllClean(s'.threads);
  }

  lemma {:induction false} AppendPasses(a: seq<bool>, b: seq<bool>)
    ensures AllPass(a + b) <==> AllPass(a) && AllPass(b)
  {
    if AllPass(a + b) {
      forall i | 0 <= i < |a| ensures a[i] { assert (a + b)[i]; }
      forall i | 0 <= i < |b| ensures b[i] { assert (a + b)[|a| + i]; }
    }
  }

  lemma {:induction false} RunKeeps(s: State, t: nat)
    requires Inv(s) && Enabled(s, RunCheck(t))
    ensures Inv(RunStep(s, t))
  {
    var w := s.threads[t];
    var l := Working(w.rest[1..], w.nNow, if w.fOk then w.rest[0] else false);
    assert BatchOk(w);
    MoveCounts(s.q, s.threads, t, s.q, l);
    CleanUpdate(s.threads, t, w);
    CleanUpdate(s.threads, t, l);
    assert s.threads[t := w] == s.threads;
    AppendPasses([w.rest[0]], w.rest[1..]);
    assert w.rest == [w.rest[0]] + w.rest[1..];
    assert AllPass([w.rest[0]]) <==> w.rest[0];
    assert Clean(w) <==> Clean(l);
    assert Verdict(s) <==> s.q.fAllOk && AllPass(s.q.queue) && AllClean(s.threads);
  }

  lemma {:induction false} SpuriousKeeps(s: State, t: nat)
    requires Inv(s) && Enabled(s, Spurious(t))
    ensures Inv(SpuriousStep(s, t))
  {
    var s' := SpuriousStep(s, t);
    WokeCounts(s.q, s.threads, s'.threads);
    assert Verdict(s) <==> s.q.fAllOk && AllPass(s.q.queue) && AllClean(s.threads);
    assert Verdict(s') <==> s'.q.fAllOk && AllPass(s'.q.queue) && AllClean(s'.threads);
  }

  // A section: the report folds the thread's result into fAllOk, the rest takes from
  // the queue what the thread then holds.
  lemma {:induction false} SectionCounted(s: State, t: nat, nBatchSize: nat)
    requires Inv(s) && Enabled(s, Section(t))
    requires 0 < Report(s.q, s.threads[t]).nTotal
    ensures var s' := SectionStep(s, t, nBatchSize); Counted(s'.q, s'.threads)
  {
    var r := Reported(s, t);
    assert Woke(s.threads, r) && r[t] == s.threads[t];
    WokeCounts(s.q, s.threads, r);
    var q := Report(s.q, s.threads[t]);
    var (q', l) := Finish(q, t == MASTER, nBatchSize);
    MoveCounts(s.q, r, t, q', l);
  }

  lemma {:induction false} SectionVerdict(s: State, t: nat, nBatchSize: nat)
    requires Inv(s) && Enabled(s, Section(t)) && 0 < Report(s.q, s.threads[t]).nTotal
    requires Decide(Report(s.q, s.threads[t]), t == MASTER) != Leave
    ensures Verdict(SectionStep(s, t, nBatchSize)) <==> Verdict(s)
  {
    var s' := SectionStep(s, t, nBatchSize);
    var r := Reported(s, t);
    var q := Report(s.q, s.threads[t]);
    WokeCounts(s.q, s.threads, r);
    CleanUpdate(r, t, s'.threads[t]);
    CleanUpdate(r, t, r[t]);
    assert r[t := r[t]] == r;
    assert Verdict(s) <==> s.q.fAllOk && AllPass(s.q.queue) && OthersClean(r, t) && Clean(s.threads[t]);
    assert Verdict(s') <==> s'.q.fAllOk && AllPass(s'.q.queue) && OthersClean(r, t) && Clean(s'.threads[t]);
    if Decide(q, t == MASTER) == Take {
      BatchPasses(q.queue, Share(q, nBatchSize));
    }
  }

  // With nothing left to do, no thread holds a batch.
  lemma {:induction false} NoneHeld(threads: seq<Local>)
    requires Total(Held, threads) == 0 && forall i :: 0 <= i < |threads| ==> BatchOk(threads[i])
    ensures forall i :: 0 <= i < |threads| ==> !threads[i].Working?
  {
    forall i | 0 <= i < |threads| ensures !threads[i].Working? {
      assert BatchOk(threads[i]);
      TotalUpdate(Held, threads, i, Outside);
    }
  }

  // Wait returns whether every check of the round passed, and leaves the queue clean
  // for the next round.
  lemma {:induction false} WaitReturns(s: State, nBatchSize: nat)
    requires Inv(s) && Enabled(s, Section(MASTER)) && 0 < Report(s.q, s.threads[MASTER]).nTotal
    requires Decide(Report(s.q, s.threads[MASTER]), true) == Leave
    ensures var s' := SectionStep(s, MASTER, nBatchSize);
      && s'.returned == s.returned + [AllPass(s.added)] && s'.rounds == s.rounds + [s.added] && s'.added == []
      && s'.q.queue == [] && s'.q.nTodo == 0 && s'.q.fAllOk && Verdict(s')
      && (forall i :: 0 <= i < |s'.threads| ==> !s'.threads[i].Working?)
  {
    var s' := SectionStep(s, MASTER, nBatchSize);
    SectionCounted(s, MASTER, nBatchSize);
    NoneHeld(s'.threads);
    CleanUpdate(s.threads, MASTER, s.threads[MASTER]);
    assert s.threads[MASTER := s.threads[MASTER]] == s.threads;
    assert OthersClean(s.threads, MASTER) by {
      forall i | 0 <= i < |s.threads| && i != MASTER ensures Clean(s.threads[i]) {
        assert s'.threads[i] == s.threads[i];
      }
    }
    assert Verdict(s) <==> s.q.fAllOk && AllClean(s.threads);
  }

  lemma {:induction false} SectionKeeps(s: State, t: nat, nBatchSize: nat)
    requires Inv(s) && Enabled(s, Section(t)) && 0 < Report(s.q, s.threads[t]).nTotal
    ensures Inv(SectionStep(s, t, nBatchSize))
  {
    var s' := SectionStep(s, t, nBatchSize);
    SectionCounted(s, t, nBatchSize);
    if Decide(Report(s.q, s.threads[t]), t == MASTER) == Leave {
      WaitReturns(s, nBatchSize);
    } else {
      SectionVerdict(s, t, nBatchSize);
      MasterStaysBlocked(s, t, nBatchSize);
    }
  }

  lemma {:induction false} MasterStaysBlocked(s: State, t: nat, nBatchSize: nat)
    requires Inv(s) && Enabled(s, Section(t)) && 0 < Report(s.q, s.threads[t]).nTotal
    requires Decide(Report(s.q, s.threads[t]), t == MASTER) != Leave
    ensures var s' := SectionStep(s, t, nBatchSize); s'.threads[MASTER].Waiting? ==> s'.q.queue == [] && s'.q.nTodo > 0
  {
  }

  lemma {:induction false} StepKeeps(s: State, a: Action, nBatchSize: nat)
    requires Inv(s) && Enabled(s, a)
    ensures Inv(Step(s, a, nBatchSize))
  {
    match a
    case Add(checks, wake) => AddKeeps(s, checks, wake);
    case Section(t) => SectionCounts(s, t); SectionKeeps(s, t, nBatchSize);
    case RunCheck(t) => RunKeeps(s, t);
    case Spurious(t) => SpuriousKeeps(s, t);
  }

  /* ---- runs ---- */

  ghost predicate Leads(s: State, a: Action, s': State, nBatchSize: nat) {
    Inv(s) ==> Enabled(s, a) && s' == Step(s, a, nBatchSize)
  }

  // Every state of the run and the action that led on from it.
  ghost predicate IsRun(states: seq<State>, actions: seq<Action>, nThreads: nat, nBatchSize: nat) {
    && |states| == |actions| + 1 && states[0] == Start(nThreads)
    && forall i :: 0 <= i < |actions| ==> Leads(states[i], actions[i], states[i + 1], nBatchSize)
  }

  lemma {:induction false} StartHolds(n: nat)
    requires n > MASTER
    ensures Inv(Start(n))
  {
    var th := Start(n).threads;
    NoneCounted(Held, th);
    NoneCounted(Idle, th);
    NoneCounted(Inside, th);
  }

  lemma {:induction false} NoneCounted(f: Local -> nat, threads: seq<Local>)
    requires f(Outside) == 0 && forall i :: 0 <= i < |threads| ==> threads[i] == Outside
    ensures Total(f, threads) == 0
  {
    if threads != [] {
      assert threads[0] == Outside;
      NoneCounted(f, threads[1..]);
    }
  }

  // In every state of every run the invariant holds; so each Wait that returned said
  // whether all the checks of its round pass.
  lemma {:induction false} EveryRun(states: seq<State>, actions: seq<Action>, nThreads: nat, nBatchSize: nat, k: nat)
    requires nThreads > MASTER && IsRun(states, actions, nThreads, nBatchSize) && k < |states|
    ensures Inv(states[k])
    ensures forall i :: 0 <= i < |states[k].rounds| ==> (states[k].returned[i] <==> AllPass(states[k].rounds[i]))
  {
    if k == 0 {
      StartHolds(nThreads);
    } else {
      var j := k - 1;
      EveryRun(states, actions, nThreads, nBatchSize, j);
      assert Leads(states[j], actions[j], states[j + 1], nBatchSize);
      StepKeeps(states[j], actions[j], nBatchSize);
    }
  }

  /* ---- progress ---- */

  lemma {:induction false} SomeHeld(threads: seq<Local>) returns (t: nat)
    requires Total(Held, threads) > 0
    ensures t < |threads| && threads[t].Working?
  {
    if threads[0].Working? {
      t := 0;
    } else {
      t := SomeHeld(threads[1..]);
      t := t + 1;
    }
  }

  // A master blocked without a pending notification has a worker that holds an
  // unreported batch.
  lemma {:induction false} BlockedMasterHasWorker(s: State) returns (t: nat)
    requires Inv(s) && s.threads[MASTER].Waiting?
    ensures MASTER < t < |s.threads| && s.threads[t].Working? && 1 <= s.threads[t].nNow <= s.q.nTodo
  {
    t := SomeHeld(s.threads);
    assert BatchOk(s.threads[t]);
    TotalUpdate(Held, s.threads, t, Outside);
  }

  // While the master is in Wait some thread can go on without a spurious wake-up.
  lemma {:induction false} Progress(s: State) returns (a: Action)
    requires Inv(s) && !s.threads[MASTER].Outside?
    ensures Enabled(s, a) && (a.Section? || a.RunCheck?)
  {
    var t := MASTER;
    if s.threads[MASTER].Waiting? {
      t := BlockedMasterHasWorker(s);
    }
    ThreadsGoOn(s, t);
    a := if s.threads[t].Working? && s.threads[t].rest != [] then RunCheck(t) else Section(t);
  }

  // A thread that is not blocked can always go on: what its step asks of the counts holds.
  lemma {:induction false} ThreadsGoOn(s: State, t: nat)
    requires Inv(s) && t < |s.threads| && !s.threads[t].Waiting?
    ensures Enabled(s, if s.threads[t].Working? && s.threads[t].rest != [] then RunCheck(t) else Section(t))
  {
    TotalUpdate(Held, s.threads, t, Outside);
    TotalUpdate(Idle, s.threads, t, Outside);
  }

  function Rest(l: Local): nat { if l.Working? then |l.rest| else 0 }
  function Stirring(l: Local): nat { if l.Woken? || l.Outside? then 1 else 0 }

  // What is still to be done: checks unreported, queued and not carried out, and threads
  // about to look at the queue.
  ghost predicate Less(s': State, s: State) {
    || s'.q.nTodo < s.q.nTodo
    || (s'.q.nTodo == s.q.nTodo && |s'.q.queue| < |s.q.queue|)
    || (s'.q.nTodo == s.q.nTodo && |s'.q.queue| == |s.q.queue| && Total(Rest, s'.threads) < Total(Rest, s.threads))
    || (s'.q.nTodo == s.q.nTodo && |s'.q.queue| == |s.q.queue| && Total(Rest, s'.threads) == Total(Rest, s.threads)
        && Total(Stirring, s'.threads) < Total(Stirring, s.threads))
  }

  // Each such step brings the end of the round nearer, until Wait returns.
  lemma {:induction false} StepDecreases(s: State, a: Action, nBatchSize: nat)
    requires Inv(s) && Enabled(s, a) && (a.Section? || a.RunCheck?)
    ensures var s' := Step(s, a, nBatchSize); s'.returned == s.returned ==> Less(s', s)
  {
    var s' := Step(s, a, nBatchSize);
    match a
    case RunCheck(t) =>
      TotalUpdate(Rest, s.threads, t, s'.threads[t]);
    case Section(t) =>
      assert BatchOk(s.threads[t]);
      if Reported(s, t) == s.threads && s'.returned == s.returned {
        TotalUpdate(Rest, s.threads, t, s'.threads[t]);
        TotalUpdate(Stirring, s.threads, t, s'.threads[t]);
      }
  }

  /* ---- the critical sections as they run ---- */

  /* ---- who is woken, and who need not work ---- */

  // Several checks wake every worker that waits, a single one wakes one if any waits, and no
  // other thread is touched.
  lemma {:induction false} AddWakes(s: State, checks: seq<bool>, wake: nat)
    requires Enabled(s, Add(checks, wake))
    ensures var now := AddStep(s, checks, wake).threads;
      && |now| == |s.threads|
      && (forall i :: 0 <= i < |now| && !(0 < i && s.threads[i].Waiting?) ==> now[i] == s.threads[i])
      && (|checks| > 1 ==> forall i :: 0 < i < |now| && s.threads[i].Waiting? ==> now[i].Woken?)
      && (|checks| == 0 ==> now == s.threads)
      && (|checks| == 1 ==> forall i :: 0 < i < |now| && s.threads[i].Waiting? ==>
            0 < wake < |now| && s.threads[wake].Waiting? && now == s.threads[wake := Woken])
  {
  }

  lemma {:induction false} SpuriousWakes(s: State, t: nat)
    requires Enabled(s, Spurious(t))
    ensures var r := SpuriousStep(s, t);
      && s.threads[t].Waiting? && r.threads[t].Woken? && r == s.(threads := r.threads)
      && |r.threads| == |s.threads| && forall i :: 0 <= i < |s.threads| && i != t ==> r.threads[i] == s.threads[i]
  {
  }

  // Once a failure is recorded, checks that are taken are not carried out: the thread has failed
  // before it begins, and no check changes that.
  lemma {:induction false} FailureIdles(s: State, t: nat, nBatchSize: nat)
    requires Enabled(s, Section(t)) && 0 < Report(s.q, s.threads[t]).nTotal
    ensures var r := SectionStep(s, t, nBatchSize);
      r.threads[t].Working? ==> (r.threads[t].fOk <==> Report(s.q, s.threads[t]).fAllOk)
  {
  }

  lemma {:induction false} FailedStaysFailed(s: State, t: nat)
    requires Enabled(s, RunCheck(t))
    ensures var w, r := s.threads[t], RunStep(s, t);
      && r == s.(threads := r.threads) && |r.threads| == |s.threads|
      && (forall i :: 0 <= i < |s.threads| && i != t ==> r.threads[i] == s.threads[i])
      && r.threads[t] == Working(w.rest[1..], w.nNow, w.fOk && w.rest[0])
  {
  }

  class CheckQueue {
    var queue: seq<bool>
    var nIdle: nat
    var nTotal: nat
    var fAllOk: bool
    var nTodo: nat
    const nBatchSize: nat

    function Abs(): Shared
      reads this
    {
      Shared(queue, nIdle, nTotal, fAllOk, nTodo)
    }

    constructor (nBatchSizeIn: nat)
      ensures Abs() == Start(1).q && nBatchSize == nBatchSizeIn
    {
      queue, nIdle, nTotal, fAllOk, nTodo, nBatchSize := [], 0, 0, true, 0, nBatchSizeIn;
    }

    // The checks go to the end of the queue in order; the result says which workers to notify.
    method Add(vChecks: seq<bool>) returns (notifyOne: bool, notifyAll: bool)
      modifies this`queue, this`nTodo
      ensures Abs() == old(Abs()).(queue := old(queue) + vChecks, nTodo := old(nTodo) + |vChecks|)
      ensures notifyOne <==> |vChecks| == 1
      ensures notifyAll <==> |vChecks| > 1
    {
      var i := 0;
      while i < |vChecks|
        invariant 0 <= i <= |vChecks| && queue == old(queue) + vChecks[..i] && nTodo == old(nTodo)
      {
        queue := queue + [vChecks[i]];
        i := i + 1;
      }
      nTodo := nTodo + |vChecks|;
      notifyOne, notifyAll := |vChecks| == 1, |vChecks| > 1;
    }

    method TakeBatch(nNow: nat) returns (vChecks: seq<bool>)
      requires nNow <= |queue|
      modifies this`queue
      ensures queue == old(queue)[..|old(queue)| - nNow]
      ensures vChecks == Batch(old(queue), nNow)
    {
      vChecks := [];
      var i := 0;
      while i < nNow
        invariant 0 <= i <= nNow
        invariant queue == old(queue)[..|old(queue)| - i]
        invariant vChecks == Batch(old(queue), i)
      {
        vChecks := vChecks + [queue[|queue| - 1]];
        queue := queue[..|queue| - 1];
        i := i + 1;
      }
    }

    // One pass through the locked part of Loop, up to giving up the lock.
    method Section(l: Local, fMaster: bool) returns (l': Local, notifyMaster: bool, fRet: bool)
      requires !l.Waiting? && (l.Working? ==> l.nNow <= nTodo) && (l.Woken? ==> 0 < nIdle)
      requires 0 < Report(Abs(), l).nTotal
      modifies this
      ensures (Abs(), l') == Finish(Report(old(Abs()), l), fMaster, nBatchSize)
      ensures notifyMaster <==> l.Working? && !fMaster && Report(old(Abs()), l).nTodo == 0
      ensures fRet == Report(old(Abs()), l).fAllOk
    {
      notifyMaster := false;
      match l {
        case Working(_, nNow, fOk) =>
          fAllOk := fAllOk && fOk;
          nTodo := nTodo - nNow;
          notifyMaster := nTodo == 0 && !fMaster;
        case Outside =>
          nTotal := nTotal + 1;
        case Woken =>
          nIdle := nIdle - 1;
      }
      fRet := fAllOk;
      if queue == [] {
        if fMaster && nTodo == 0 {
          nTotal := nTotal - 1;
          if fMaster { fAllOk := true; }
          return Outside, notifyMaster, fRet;
        }
        nIdle := nIdle + 1;
        return Waiting, notifyMaster, fRet;
      }
      var nNow := Share(Abs(), nBatchSize);
      var vChecks := TakeBatch(nNow);
      l' := Working(vChecks, nNow, fAllOk);
    }
  }

  // Carrying out a batch stops calling checks at the first failure; the result is whether there
  // was none before and there is none in the batch.
  method RunBatch(vChecks: seq<bool>, fBefore: bool) returns (fOk: bool, called: nat)
    ensures fOk <==> fBefore && AllPass(vChecks)
    ensures !fBefore ==> called == 0
    ensures fOk ==> called == |vChecks|
    ensures fBefore && !fOk ==> 0 < called <= |vChecks| && AllPass(vChecks[..called - 1]) && !vChecks[called - 1]
  {
    fOk, called := fBefore, 0;
    var i := 0;
    while i < |vChecks|
      invariant 0 <= i <= |vChecks| && (fOk <==> fBefore && AllPass(vChecks[..i]))
      invariant (!fBefore ==> called == 0) && (fOk ==> called == i)
      invariant fBefore && !fOk ==> 0 < called <= i && AllPass(vChecks[..called - 1]) && !vChecks[called - 1]
    {
      AppendPasses(vChecks[..i], [vChecks[i]]);
      assert vChecks[..i + 1] == vChecks[..i] + [vChecks[i]];
      if fOk {
        fOk := vChecks[i];
        called := called + 1;
      }
      i := i + 1;
    }
    assert vChecks[..i] == vChecks;
  }
}
