/**
 The bounded worker pool behind every fan-out over tenant schemas: workers share one counter, and
 nothing runs between a worker's test of the counter and its increment.
 */
module WorkerPool {
  import opened Wrappers

  // A worker between two tasks, awaiting a task, returned, or ended by its task's rejection.
  datatype Worker = Ready | Awaiting(index: nat) | Returned | Rejected(index: nat)

  datatype Claimed = Claimed(index: nat, caller: nat)

  /** What each task does: resolves with a value, or rejects. */
  type Tasks = seq<Option<Id>>

  // `claims` records every task call, in order.
  datatype Pool = Pool(next: nat, results: seq<Option<Id>>, workers: seq<Worker>, claims: seq<Claimed>)

  function Least(a: int, b: int): int { if a <= b then a else b }

  function Fill<T>(n: nat, x: T): (s: seq<T>)
    ensures |s| == n && forall i | 0 <= i < n :: s[i] == x
  {
    if n == 0 then [] else Fill(n - 1, x) + [x]
  }

  // None is the error thrown for a concurrency below one.
  function Launch(tasks: Tasks, concurrency: int): Option<Pool> {
    if concurrency < 1 then None
    else Some(Pool(0, Fill(|tasks|, None), Fill(Least(concurrency, |tasks|), Ready), []))
  }

  datatype Step = Claim(w: nat) | Return(w: nat) | Settle(w: nat)

  ghost predicate Enabled(p: Pool, tasks: Tasks, step: Step) {
    && step.w < |p.workers|
    && match step
       case Claim(w) => p.workers[w].Ready? && p.next < |tasks|
       case Return(w) => p.workers[w].Ready? && p.next >= |tasks|
       case Settle(w) => p.workers[w].Awaiting? && p.workers[w].index < |tasks| == |p.results|
  }

  ghost function Next(p: Pool, tasks: Tasks, step: Step): Pool
    requires Enabled(p, tasks, step)
  {
    match step
    case Claim(w) =>
      p.(next := p.next + 1, workers := p.workers[w := Awaiting(p.next)], claims := p.claims + [Claimed(p.next, w)])
    case Return(w) => p.(workers := p.workers[w := Returned])
    case Settle(w) =>
      var i := p.workers[w].index;
      if tasks[i].Some? then p.(results := p.results[i := tasks[i]], workers := p.workers[w := Ready])
      else p.(workers := p.workers[w := Rejected(i)])
  }

  // ---------------------------------------------------------------- what every interleaving keeps

  ghost predicate Holds(w: Worker, i: nat) { (w.Awaiting? || w.Rejected?) && w.index == i }

  // Index k was claimed by the k-th claim, and by no other.
  ghost predicate ClaimedOnce(p: Pool) {
    && |p.claims| == p.next
    && forall k | 0 <= k < |p.claims| :: p.claims[k].index == k && p.claims[k].caller < |p.workers|
  }

  // A worker holds only what it claimed itself.
  ghost predicate HoldsOwn(p: Pool, w: Worker, name: nat) {
    w.Awaiting? || w.Rejected? ==> w.index < |p.claims| && p.claims[w.index].caller == name
  }

  // A claimed task is in its worker's hands until exactly its own value is at its own place.
  ghost predicate Accounted(p: Pool, tasks: Tasks, i: nat)
    requires i < |tasks| == |p.results|
  {
    if i >= |p.claims| then p.results[i].None? else
    && p.claims[i].caller < |p.workers|
    && var w := p.workers[p.claims[i].caller];
       if Holds(w, i) then p.results[i].None? && (w.Rejected? ==> tasks[i].None?)
       else p.results[i] == tasks[i] && tasks[i].Some?
  }

  ghost predicate Inv(p: Pool, tasks: Tasks, concurrency: int) {
    && p.next <= |tasks| == |p.results|
    && |p.workers| == Least(concurrency, |tasks|)
    && ClaimedOnce(p)
    && (forall w | 0 <= w < |p.workers| :: HoldsOwn(p, p.workers[w], w))
    && (forall i | 0 <= i < |tasks| :: Accounted(p, tasks, i))
    && (forall w | 0 <= w < |p.workers| :: p.workers[w].Returned? ==> p.next == |tasks|)
  }

  lemma LaunchEstablishesInv(tasks: Tasks, concurrency: int)
    ensures Launch(tasks, concurrency).Some? <==> concurrency >= 1
    ensures concurrency >= 1 ==> Inv(Launch(tasks, concurrency).value, tasks, concurrency)
  {
    if concurrency >= 1 {
      var p := Launch(tasks, concurrency).value;
      forall w | 0 <= w < |p.workers| ensures p.workers[w] == Ready && HoldsOwn(p, p.workers[w], w) {}
      forall i | 0 <= i < |tasks| ensures Accounted(p, tasks, i) {}
    }
  }

  lemma StepKeepsInv(p: Pool, tasks: Tasks, concurrency: int, step: Step)
    requires Inv(p, tasks, concurrency) && Enabled(p, tasks, step)
    ensures Inv(Next(p, tasks, step), tasks, concurrency)
  {
    var p' := Next(p, tasks, step);
    assert p'.workers[step.w := p.workers[step.w]] == p.workers;
    forall w | 0 <= w < |p'.workers| ensures HoldsOwn(p', p'.workers[w], w) { assert HoldsOwn(p, p.workers[w], w); }
    assert HoldsOwn(p, p.workers[step.w], step.w);
    forall i | 0 <= i < |tasks| ensures Accounted(p', tasks, i) { assert Accounted(p, tasks, i); }
  }

  // ---------------------------------------------------------------- progress

  function Effort(workers: seq<Worker>): nat {
    if workers == [] then 0 else
    Effort(workers[..|workers| - 1]) + match workers[|workers| - 1] case Ready => 1 case Awaiting(_) => 2 case _ => 0
  }

  function InFlight(workers: seq<Worker>): nat {
    if workers == [] then 0 else InFlight(workers[..|workers| - 1]) + if workers[|workers| - 1].Awaiting? then 1 else 0
  }

  lemma {:induction false} EffortOfUpdate(workers: seq<Worker>, w: nat, becomes: Worker)
    requires w < |workers|
    ensures Effort(workers[w := becomes]) == Effort(workers) - Effort([workers[w]]) + Effort([becomes])
  {
    var n := |workers| - 1;
    assert [workers[w]][..0] == [] && [becomes][..0] == [];
    if w == n {
      assert workers[w := becomes][..n] == workers[..n];
    } else {
      assert workers[w := becomes][..n] == workers[..n][w := becomes];
      EffortOfUpdate(workers[..n], w, becomes);
    }
  }

  function Measure(p: Pool, tasks: Tasks): int { 2 * (|tasks| - p.next) + Effort(p.workers) }

  lemma StepMakesProgress(p: Pool, tasks: Tasks, step: Step)
    requires Enabled(p, tasks, step)
    ensures Measure(Next(p, tasks, step), tasks) < Measure(p, tasks)
  {
    var p' := Next(p, tasks, step);
    assert [p.workers[step.w]][..0] == [] && [p'.workers[step.w]][..0] == [];
    EffortOfUpdate(p.workers, step.w, p'.workers[step.w]);
  }

  ghost predicate Reaches(p: Pool, tasks: Tasks, steps: seq<Step>, final: Pool)
    decreases |steps|
  {
    if steps == [] then final == p else Enabled(p, tasks, steps[0]) && Reaches(Next(p, tasks, steps[0]), tasks, steps[1..], final)
  }

  lemma {:induction false} InvAlongRun(p: Pool, tasks: Tasks, concurrency: int, steps: seq<Step>, final: Pool)
    requires Inv(p, tasks, concurrency) && Reaches(p, tasks, steps, final)
    ensures Inv(final, tasks, concurrency) && |steps| <= Measure(p, tasks) - Measure(final, tasks)
    decreases |steps|
  {
    if steps != [] {
      StepKeepsInv(p, tasks, concurrency, steps[0]);
      StepMakesProgress(p, tasks, steps[0]);
      InvAlongRun(Next(p, tasks, steps[0]), tasks, concurrency, steps[1..], final);
    }
  }

  lemma {:induction false} AllReady(n: nat)
    ensures Effort(Fill(n, Ready)) == n
  {
    if n > 0 {
      AllReady(n - 1);
      assert Fill(n, Ready)[..n - 1] == Fill(n - 1, Ready);
    }
  }

  lemma {:induction false} FewInFlight(workers: seq<Worker>)
    ensures InFlight(workers) <= |workers|
  {
    if workers != [] { FewInFlight(workers[..|workers| - 1]); }
  }

  // ---------------------------------------------------------------- the map as a whole

  ghost predicate Quiet(p: Pool, tasks: Tasks) { forall step :: !Enabled(p, tasks, step) }

  ghost predicate SomeRejected(p: Pool) { exists w | 0 <= w < |p.workers| :: p.workers[w].Rejected? }

  ghost predicate SomeReturned(p: Pool) { exists w | 0 <= w < |p.workers| :: p.workers[w].Returned? }

  lemma QuietWorkers(p: Pool, tasks: Tasks, concurrency: int, w: nat)
    requires Inv(p, tasks, concurrency) && Quiet(p, tasks) && w < |p.workers|
    ensures p.workers[w].Returned? || p.workers[w].Rejected?
  {
    assert HoldsOwn(p, p.workers[w], w);
    assert !Enabled(p, tasks, Claim(w)) && !Enabled(p, tasks, Return(w)) && !Enabled(p, tasks, Settle(w));
  }

  lemma LaunchMeasure(tasks: Tasks, concurrency: int)
    requires concurrency >= 1
    ensures Measure(Launch(tasks, concurrency).value, tasks) == 2 * |tasks| + Least(concurrency, |tasks|)
  {
    AllReady(Least(concurrency, |tasks|));
  }

  lemma CallsInOrder(p: Pool, tasks: Tasks, concurrency: int)
    requires Inv(p, tasks, concurrency)
    ensures |p.claims| <= |tasks| && forall k | 0 <= k < |p.claims| :: p.claims[k].index == k
    ensures InFlight(p.workers) <= Least(concurrency, |tasks|) && Measure(p, tasks) >= 0
  {
    FewInFlight(p.workers);
  }

  /**
   Every interleaving, from the launch on: it lasts at most 2n + min(concurrency, n) steps, never has
   more than min(concurrency, n) tasks in flight, and calls the tasks in index order, once each.
   */
  lemma BoundedRun(tasks: Tasks, concurrency: int, p: Pool, steps: seq<Step>, final: Pool)
    requires Launch(tasks, concurrency) == Some(p) && Reaches(p, tasks, steps, final)
    ensures |steps| <= 2 * |tasks| + Least(concurrency, |tasks|)
    ensures InFlight(final.workers) <= Least(concurrency, |tasks|)
    ensures |final.claims| <= |tasks| && forall k | 0 <= k < |final.claims| :: final.claims[k].index == k
  {
    LaunchEstablishesInv(tasks, concurrency);
    LaunchMeasure(tasks, concurrency);
    InvAlongRun(p, tasks, concurrency, steps, final);
    CallsInOrder(final, tasks, concurrency);
  }

  // A claimed task has ended: with its value in place, or by rejecting and ending its worker.
  lemma QuietTask(p: Pool, tasks: Tasks, concurrency: int, i: nat)
    requires Inv(p, tasks, concurrency) && Quiet(p, tasks) && i < p.next
    ensures p.results[i] == tasks[i] && (tasks[i].None? ==> SomeRejected(p))
  {
    assert Accounted(p, tasks, i);
    QuietWorkers(p, tasks, concurrency, p.claims[i].caller);
  }

  lemma RejectedTask(p: Pool, tasks: Tasks, concurrency: int) returns (i: nat)
    requires Inv(p, tasks, concurrency) && SomeRejected(p)
    ensures i < |tasks| && tasks[i].None?
  {
    var w :| 0 <= w < |p.workers| && p.workers[w].Rejected?;
    i := p.workers[w].index;
    assert HoldsOwn(p, p.workers[w], w);
    assert Accounted(p, tasks, i);
  }

  lemma AllClaimed(p: Pool, tasks: Tasks, concurrency: int)
    requires Inv(p, tasks, concurrency) && concurrency >= 1 && Quiet(p, tasks)
    requires SomeReturned(p) || !SomeRejected(p)
    ensures p.next == |tasks|
  {
    if tasks != [] && !SomeReturned(p) { QuietWorkers(p, tasks, concurrency, 0); }
  }

  lemma MapAtRest(p: Pool, tasks: Tasks, concurrency: int)
    requires Inv(p, tasks, concurrency) && concurrency >= 1 && Quiet(p, tasks)
    ensures SomeRejected(p) <==> exists i | 0 <= i < |tasks| :: tasks[i].None?
    ensures SomeReturned(p) || !SomeRejected(p) ==> p.next == |tasks| && p.results == tasks
  {
    if SomeRejected(p) { var i := RejectedTask(p, tasks, concurrency); }
    if SomeReturned(p) || !SomeRejected(p) {
      AllClaimed(p, tasks, concurrency);
      forall i | 0 <= i < |tasks| ensures p.results[i] == tasks[i] && (tasks[i].None? ==> SomeRejected(p)) { QuietTask(p, tasks, concurrency, i); }
    }
  }

  /**
   When nothing more can happen, the map rejects exactly when some task does, and otherwise its result
   is the tasks' values in input order, whatever the interleaving.
   */
  lemma MapRefinesTasks(tasks: Tasks, concurrency: int, p: Pool, steps: seq<Step>, final: Pool)
    requires Launch(tasks, concurrency) == Some(p) && Reaches(p, tasks, steps, final) && Quiet(final, tasks)
    ensures !SomeRejected(final) ==> final.results == tasks
    ensures SomeRejected(final) <==> exists i | 0 <= i < |tasks| :: tasks[i].None?
  {
    LaunchEstablishesInv(tasks, concurrency);
    InvAlongRun(p, tasks, concurrency, steps, final);
    MapAtRest(final, tasks, concurrency);
  }

  /**
   A rejection does not stop the others: while one worker survives, every task is still called and
   every one that resolves still leaves its value, though the caller has been given the rejection.
   */
  lemma SurvivorsFinishTheRest(tasks: Tasks, concurrency: int, p: Pool, steps: seq<Step>, final: Pool)
    requires Launch(tasks, concurrency) == Some(p) && Reaches(p, tasks, steps, final) && Quiet(final, tasks)
    requires SomeReturned(final)
    ensures |final.claims| == |tasks| && final.results == tasks
  {
    LaunchEstablishesInv(tasks, concurrency);
    InvAlongRun(p, tasks, concurrency, steps, final);
    MapAtRest(final, tasks, concurrency);
  }
}
