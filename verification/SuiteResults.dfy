/** Results and shutdown over whole runs. */
module SuiteResults {
  import opened Wrappers
  import opened Counting
  import opened Junit
  import opened TapPool
  import opened Suite
  import opened SuiteSafety
  import opened SuiteTaps

  // Results are written once

  lemma StepKeepsDone(c: Config, s: State, a: Action, j: nat)
    requires JobsMatchWorkers(s) && Enabled(c, s, a) && j < |s.jobs| && s.jobs[j].Done?
    ensures j < |Apply(c, s, a).jobs| && Apply(c, s, a).jobs[j] == s.jobs[j]
  {
  }

  /** Once a test has a result, in its position, no later action changes it. */
  lemma {:induction false} ResultsAreFinal(c: Config, s: State, actions: seq<Action>, j: nat)
    requires Inv(c, s) && IsRun(c, s, actions) && j < |s.jobs| && s.jobs[j].Done?
    ensures j < |After(c, s, actions).jobs| && After(c, s, actions).jobs[j] == s.jobs[j]
    decreases |actions|
  {
    if actions != [] {
      StepKeepsDone(c, s, actions[0], j);
      ApplyKeepsInv(c, s, actions[0]);
      ResultsAreFinal(c, Apply(c, s, actions[0]), actions[1..], j);
    }
  }

  // Every schedule ends

  predicate IsWorkerStep(a: Action) { !a.Interrupt? && !a.Exit? }

  function WorkerSteps(actions: seq<Action>): nat
  {
    if actions == [] then 0 else (if IsWorkerStep(actions[0]) then 1 else 0) + WorkerSteps(actions[1..])
  }

  lemma {:induction false} WorkerStepsAreCounted(actions: seq<Action>)
    ensures WorkerSteps(actions) == |Positions(actions, (a: Action) => !a.Interrupt? && !a.Exit?)|
  {
    if actions != [] {
      PositionsStep(actions, (a: Action) => !a.Interrupt? && !a.Exit?);
      WorkerStepsAreCounted(actions[1..]);
    }
  }

  function TodoCount(jobs: seq<JobState>): nat
  {
    if jobs == [] then 0 else (if jobs[0].Todo? then 1 else 0) + TodoCount(jobs[1..])
  }

  /** How many steps a worker can still make on its test. */
  function Weight(worker: Worker): nat
  {
    match worker
    case Idle => 0
    case Claimed(_) => 11
    case Cleared(_) => 10
    case Inside(_, pair, src, dst, leaving) =>
      var held := (if pair.Some? then 1 else 0) + (if src.Some? then 1 else 0) + (if dst.Some? then 1 else 0);
      if leaving.None? then 9 - held else 1 + held
  }

  function TotalWeight(workers: seq<Worker>): nat
  {
    if workers == [] then 0 else Weight(workers[0]) + TotalWeight(workers[1..])
  }

  function Rank(s: State): nat { 12 * TodoCount(s.jobs) + TotalWeight(s.workers) }

  lemma {:induction false} TodoCountOfUpdate(jobs: seq<JobState>, j: nat, job: JobState)
    requires j < |jobs| && !job.Todo?
    ensures TodoCount(jobs[j := job]) == TodoCount(jobs) - if jobs[j].Todo? then 1 else 0
  {
    if j == 0 {
      assert jobs[j := job][1..] == jobs[1..];
    } else {
      assert jobs[j := job][1..] == jobs[1..][j - 1 := job];
      TodoCountOfUpdate(jobs[1..], j - 1, job);
    }
  }

  lemma {:induction false} WeightOfUpdate(workers: seq<Worker>, w: nat, worker: Worker)
    requires w < |workers|
    ensures TotalWeight(workers[w := worker]) == TotalWeight(workers) - Weight(workers[w]) + Weight(worker)
  {
    if w == 0 {
      assert workers[w := worker][1..] == workers[1..];
    } else {
      assert workers[w := worker][1..] == workers[1..][w - 1 := worker];
      WeightOfUpdate(workers[1..], w - 1, worker);
    }
  }

  /** The worker that makes a step. */
  function Actor(a: Action): nat
    requires IsWorkerStep(a)
  {
    match a
    case Claim(w, _) => w
    case CheckFlag(w) => w
    case Invoke(w) => w
    case Allocate(w) => w
    case Spawn(w, _) => w
    case Complete(w) => w
    case Error(w, _) => w
    case Drop(w, _) => w
    case Report(w) => w
  }

  lemma StepChangesActor(c: Config, s: State, a: Action)
    requires Enabled(c, s, a) && IsWorkerStep(a)
    ensures Actor(a) < |s.workers| && |Apply(c, s, a).workers| == |s.workers|
    ensures Apply(c, s, a).workers == s.workers[Actor(a) := Apply(c, s, a).workers[Actor(a)]]
    ensures Weight(Apply(c, s, a).workers[Actor(a)]) < if a.Claim? then 12 else Weight(s.workers[Actor(a)])
  {
  }

  lemma StepTodoCount(c: Config, s: State, a: Action)
    requires JobsMatchWorkers(s) && Enabled(c, s, a)
    ensures TodoCount(Apply(c, s, a).jobs) == TodoCount(s.jobs) - if a.Claim? then 1 else 0
  {
    match a {
      case Claim(w, j) => TodoCountOfUpdate(s.jobs, j, Taken(w));
      case CheckFlag(w) => TodoCountOfUpdate(s.jobs, s.workers[w].job, Done(Fail("interrupted")));
      case Report(w) => TodoCountOfUpdate(s.jobs, s.workers[w].job, Done(s.workers[w].leaving.value));
      case _ =>
    }
  }

  lemma StepLowersRank(c: Config, s: State, a: Action)
    requires Inv(c, s) && Enabled(c, s, a)
    ensures Rank(Apply(c, s, a)) + (if IsWorkerStep(a) then 1 else 0) <= Rank(s)
  {
    StepTodoCount(c, s, a);
    if IsWorkerStep(a) {
      StepChangesActor(c, s, a);
      WeightOfUpdate(s.workers, Actor(a), Apply(c, s, a).workers[Actor(a)]);
    }
  }

  lemma {:induction false} RunLowersRank(c: Config, s: State, actions: seq<Action>)
    requires Inv(c, s) && IsRun(c, s, actions)
    ensures WorkerSteps(actions) + Rank(After(c, s, actions)) <= Rank(s)
    decreases |actions|
  {
    if actions != [] {
      StepLowersRank(c, s, actions[0]);
      ApplyKeepsInv(c, s, actions[0]);
      RunLowersRank(c, Apply(c, s, actions[0]), actions[1..]);
    }
  }

  lemma {:induction false} AllTodo(n: nat)
    ensures TodoCount(seq(n, k => Todo)) == n
  {
    if n > 0 {
      assert seq(n, k => Todo)[1..] == seq(n - 1, k => Todo);
      AllTodo(n - 1);
    }
  }

  lemma {:induction false} AllIdle(n: nat)
    ensures TotalWeight(seq(n, k => Idle)) == 0
  {
    if n > 0 {
      assert seq(n, k => Idle)[1..] == seq(n - 1, k => Idle);
      AllIdle(n - 1);
    }
  }

  /** No schedule makes more than twelve worker steps per test. */
  lemma SchedulesAreBounded(c: Config, actions: seq<Action>)
    requires IsRun(c, Initial(c), actions)
    ensures |Positions(actions, (a: Action) => !a.Interrupt? && !a.Exit?)| <= 12 * |c.kinds|
  {
    WorkerStepsAreCounted(actions);
    InitialInv(c);
    RunLowersRank(c, Initial(c), actions);
    AllTodo(|c.kinds|);
    AllIdle(c.threads);
  }

  /** As long as a test has no result, some worker can make a step. */
  lemma SomeWorkerCanStep(c: Config, s: State, j: nat) returns (a: Action)
    requires Inv(c, s) && c.threads > 0 && j < |s.jobs| && !s.jobs[j].Done?
    ensures IsWorkerStep(a) && Enabled(c, s, a)
  {
    var w := if s.jobs[j].Taken? then s.jobs[j].worker else 0;
    match s.workers[w] {
      case Idle => a := Claim(w, j);
      case Claimed(_) => a := CheckFlag(w);
      case Cleared(_) => a := Invoke(w);
      case Inside(_, pair, src, dst, leaving) =>
        if leaving.None? {
          a := Error(w, "interrupted");
        } else if pair.Some? || src.Some? || dst.Some? {
          a := Drop(w, false);
        } else {
          a := Report(w);
        }
    }
  }

  /** A schedule in which no worker can go on has one result for every scheduled test, in its position. */
  lemma FinishedSchedulesAreComplete(c: Config, s: State)
    requires IsReachable(c, s) && c.threads > 0
    requires forall a: Action :: !a.Interrupt? && !a.Exit? ==> !Enabled(c, s, a)
    ensures |s.jobs| == |c.kinds| && forall j :: 0 <= j < |s.jobs| ==> s.jobs[j].Done?
  {
    ReachableInv(c, s);
    forall j | 0 <= j < |s.jobs| ensures s.jobs[j].Done? {
      if !s.jobs[j].Done? {
        var a := SomeWorkerCanStep(c, s, j);
      }
    }
  }

  // Invocations

  /** The tests whose function is invoked during a run, in order. */
  ghost function Invocations(c: Config, s: State, actions: seq<Action>): seq<nat>
    requires IsRun(c, s, actions)
    decreases |actions|
  {
    if actions == [] then []
    else
      (if actions[0].Invoke? then [s.workers[actions[0].w].job] else [])
      + Invocations(c, Apply(c, s, actions[0]), actions[1..])
  }

  /** A test that was already invoked: inside its function, or with a result. */
  ghost predicate IsPastInvocation(s: State, j: nat)
  {
    && j < |s.jobs|
    && (s.jobs[j].Done?
        || (s.jobs[j].Taken? && s.jobs[j].worker < |s.workers| && s.workers[s.jobs[j].worker].Inside?))
  }

  lemma StaysPastInvocation(c: Config, s: State, a: Action, j: nat)
    requires JobsMatchWorkers(s) && Enabled(c, s, a) && IsPastInvocation(s, j)
    ensures IsPastInvocation(Apply(c, s, a), j)
    ensures a.Invoke? ==> s.workers[a.w].job != j
  {
  }

  lemma {:induction false} NotInvokedAgain(c: Config, s: State, actions: seq<Action>, j: nat)
    requires Inv(c, s) && IsRun(c, s, actions) && IsPastInvocation(s, j)
    ensures j !in Invocations(c, s, actions)
    decreases |actions|
  {
    if actions != [] {
      StaysPastInvocation(c, s, actions[0], j);
      ApplyKeepsInv(c, s, actions[0]);
      NotInvokedAgain(c, Apply(c, s, actions[0]), actions[1..], j);
    }
  }

  /** No schedule invokes a test function twice for one scheduled test. */
  lemma {:induction false} InvokedAtMostOnce(c: Config, s: State, actions: seq<Action>)
    requires Inv(c, s) && IsRun(c, s, actions)
    ensures IsDuplicateFree(Invocations(c, s, actions))
    decreases |actions|
  {
    if actions != [] {
      var a, t := actions[0], Apply(c, s, actions[0]);
      ApplyKeepsInv(c, s, a);
      InvokedAtMostOnce(c, t, actions[1..]);
      if a.Invoke? {
        var j := s.workers[a.w].job;
        assert s.workers[a.w].IsOn(j) && t.workers[a.w].IsOn(j);
        NotInvokedAgain(c, t, actions[1..], j);
      }
    }
  }

  // What uninvoked tests report

  /** A test gets past its invocation by being invoked, or by being reported as interrupted after a shutdown request. */
  lemma PastByInvocationOrShutdown(c: Config, s: State, a: Action, j: nat)
    requires JobsMatchWorkers(s) && Enabled(c, s, a) && j < |s.jobs|
    requires !IsPastInvocation(s, j) && IsPastInvocation(Apply(c, s, a), j)
    ensures || (a.Invoke? && s.workers[a.w].job == j)
            || (s.shutdown && Apply(c, s, a).jobs[j] == Done(Fail("interrupted")))
  {
  }

  /** A test that ends without having been invoked was interrupted, and only after a shutdown request. */
  lemma {:induction false} UninvokedAreInterrupted(c: Config, s: State, actions: seq<Action>, j: nat)
    requires Inv(c, s) && IsRun(c, s, actions) && j < |s.jobs| && !IsPastInvocation(s, j)
    ensures var t := After(c, s, actions);
      j < |t.jobs| && (t.jobs[j].Done? && j !in Invocations(c, s, actions) ==>
                         t.shutdown && t.jobs[j] == Done(Fail("interrupted")))
    decreases |actions|
  {
    if actions != [] {
      var a, t := actions[0], Apply(c, s, actions[0]);
      ApplyKeepsInv(c, s, a);
      if !IsPastInvocation(t, j) {
        UninvokedAreInterrupted(c, t, actions[1..], j);
      } else {
        PastByInvocationOrShutdown(c, s, a, j);
        JobsStay(c, t, actions[1..]);
        if !(a.Invoke? && s.workers[a.w].job == j) {
          ResultsAreFinal(c, t, actions[1..], j);
          ShutdownIsMonotone(c, t, actions[1..]);
        }
      }
    }
  }

  lemma {:induction false} JobsStay(c: Config, s: State, actions: seq<Action>)
    requires IsRun(c, s, actions)
    ensures |After(c, s, actions).jobs| == |s.jobs|
    decreases |actions|
  {
    if actions != [] {
      SizesStay(c, s, actions[0]);
      JobsStay(c, Apply(c, s, actions[0]), actions[1..]);
    }
  }

  // Shutdown

  lemma {:induction false} ShutdownIsMonotone(c: Config, s: State, actions: seq<Action>)
    requires IsRun(c, s, actions) && s.shutdown
    ensures After(c, s, actions).shutdown
    decreases |actions|
  {
    if actions != [] {
      ShutdownIsMonotone(c, Apply(c, s, actions[0]), actions[1..]);
    }
  }

  function ClearedCount(workers: seq<Worker>): (n: nat)
    ensures n <= |workers|
  {
    if workers == [] then 0 else (if workers[0].Cleared? then 1 else 0) + ClearedCount(workers[1..])
  }

  lemma {:induction false} ClearedOfUpdate(workers: seq<Worker>, w: nat, worker: Worker)
    requires w < |workers|
    ensures ClearedCount(workers[w := worker])
         == ClearedCount(workers) - (if workers[w].Cleared? then 1 else 0) + if worker.Cleared? then 1 else 0
  {
    if w == 0 {
      assert workers[w := worker][1..] == workers[1..];
    } else {
      assert workers[w := worker][1..] == workers[1..][w - 1 := worker];
      ClearedOfUpdate(workers[1..], w - 1, worker);
    }
  }

  ghost predicate IsCleared(s: State, j: nat)
  {
    exists w :: 0 <= w < |s.workers| && s.workers[w] == Cleared(j)
  }

  lemma ShutdownStep(c: Config, s: State, a: Action)
    requires s.shutdown && Enabled(c, s, a)
    ensures ClearedCount(Apply(c, s, a).workers) + (if a.Invoke? then 1 else 0) <= ClearedCount(s.workers)
    ensures forall j :: IsCleared(Apply(c, s, a), j) ==> IsCleared(s, j)
  {
    if IsWorkerStep(a) {
      StepChangesActor(c, s, a);
      var worker := Apply(c, s, a).workers[Actor(a)];
      NotClearedByStep(c, s, a);
      ClearedOfUpdate(s.workers, Actor(a), worker);
      forall j | IsCleared(Apply(c, s, a), j) ensures IsCleared(s, j) {
        var w :| 0 <= w < |s.workers| && Apply(c, s, a).workers[w] == Cleared(j);
        assert s.workers[w] == Cleared(j);
      }
    }
  }

  lemma NotClearedByStep(c: Config, s: State, a: Action)
    requires s.shutdown && Enabled(c, s, a) && IsWorkerStep(a) && Actor(a) < |Apply(c, s, a).workers|
    ensures !Apply(c, s, a).workers[Actor(a)].Cleared?
    ensures a.Invoke? ==> s.workers[Actor(a)].Cleared?
  {
  }

  /** After a shutdown request only tests already past the check are still invoked: at most one per worker. */
  lemma {:induction false} ShutdownBoundsInvocations(c: Config, s: State, actions: seq<Action>)
    requires IsRun(c, s, actions) && s.shutdown
    ensures |Invocations(c, s, actions)| <= ClearedCount(s.workers) <= |s.workers|
    ensures forall j :: j in Invocations(c, s, actions) ==> IsCleared(s, j)
    decreases |actions|
  {
    if actions != [] {
      var a := actions[0];
      ShutdownStep(c, s, a);
      ShutdownIsMonotone(c, s, [a]);
      ShutdownBoundsInvocations(c, Apply(c, s, a), actions[1..]);
      if a.Invoke? {
        assert s.workers[a.w] == Cleared(s.workers[a.w].job);
      }
    }
  }
}
