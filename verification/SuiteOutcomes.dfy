/** What decides the result of a test, and what the environment is free to do. */
module SuiteOutcomes {
  import opened Wrappers
  import opened Junit
  import opened TapPool
  import opened Suite
  import opened SuiteSafety
  import opened SuiteTaps

  // Causes

  /**
   * The events that end test `j`, with their outcomes: the shutdown check, the return of the body (of a tap test with
   * both machines), an error in it, an allocation that finds no pair, and a spawn that does not succeed.
   */
  ghost predicate Ends(c: Config, s: State, a: Action, j: nat, outcome: Outcome)
    requires Enabled(c, s, a)
  {
    match a
    case CheckFlag(w) => s.workers[w].job == j && s.shutdown && outcome == Fail("interrupted")
    case Complete(w) =>
      && s.workers[w].job == j && outcome == Pass
      && (IsTapTest(c, j) ==> s.workers[w].src.Some? && s.workers[w].dst.Some?)
    case Error(w, message) => s.workers[w].job == j && outcome == Fail(message)
    case Allocate(w) =>
      && s.workers[w].job == j && outcome == Fail("failed to allocate tap devices")
      && (if s.pool.Some? then s.pool.value else ValidPairs(c.jobs, c.tapExists)) == []
    case Spawn(w, how) =>
      && s.workers[w].job == j && !how.Started?
      && outcome == if s.workers[w].src.None? then Fail("failed to spawn source VM")
                    else Fail("failed to spawn destination VM")
    case _ => false
  }

  /** The test has its result, or only the drop of its locals is left. */
  ghost predicate IsDecided(s: State, j: nat, outcome: Outcome)
  {
    && j < |s.jobs|
    && (s.jobs[j] == Done(outcome)
        || (s.jobs[j].Taken? && IsLeaving(s, s.jobs[j].worker)
            && s.workers[s.jobs[j].worker].leaving == Some(outcome)))
  }

  /** Worker `w` stays on its test, and nobody else changes. */
  ghost predicate OnlyActs(s: State, t: State, w: nat)
  {
    && t.jobs == s.jobs && |t.workers| == |s.workers| && w < |s.workers|
    && !s.workers[w].Idle? && t.workers[w].IsOn(s.workers[w].job)
    && forall v :: 0 <= v < |s.workers| && v != w ==> t.workers[v] == s.workers[v]
  }

  lemma ActorDecides(s: State, t: State, w: nat, j: nat, outcome: Outcome)
    requires JobsMatchWorkers(s) && OnlyActs(s, t, w)
    ensures IsDecided(t, j, outcome)
       <==> if s.workers[w].job == j then IsLeaving(t, w) && t.workers[w].leaving == Some(outcome)
            else IsDecided(s, j, outcome)
    ensures s.workers[w].job == j ==>
              (IsDecided(s, j, outcome) <==> IsLeaving(s, w) && s.workers[w].leaving == Some(outcome))
  {
    assert s.jobs[s.workers[w].job] == Taken(w);
    if j < |s.jobs| && s.jobs[j].Taken? {
      assert s.workers[s.jobs[j].worker].IsOn(j);
    }
  }

  lemma FinishDecides(s: State, w: nat, result: Outcome, j: nat, outcome: Outcome)
    requires JobsMatchWorkers(s) && w < |s.workers| && !s.workers[w].Idle?
    ensures IsDecided(WithWorker(s.(jobs := s.jobs[s.workers[w].job := Done(result)]), w, Idle), j, outcome)
       <==> if s.workers[w].job == j then result == outcome else IsDecided(s, j, outcome)
  {
    assert s.jobs[s.workers[w].job] == Taken(w);
    if j < |s.jobs| && s.jobs[j].Taken? {
      assert s.workers[s.jobs[j].worker].IsOn(j);
    }
  }

  lemma ClaimDecidesNothing(s: State, w: nat, i: nat, j: nat, outcome: Outcome)
    requires JobsMatchWorkers(s) && w < |s.workers| && s.workers[w].Idle? && i < |s.jobs| && s.jobs[i].Todo?
    ensures IsDecided(WithWorker(s.(jobs := s.jobs[i := Taken(w)]), w, Claimed(i)), j, outcome)
       <==> IsDecided(s, j, outcome)
  {
    if j < |s.jobs| && s.jobs[j].Taken? {
      assert s.workers[s.jobs[j].worker].IsOn(j);
    }
  }

  lemma EnterOrDropActs(c: Config, s: State, a: Action)
    requires Enabled(c, s, a) && (a.Invoke? || a.Drop?)
    ensures OnlyActs(s, Apply(c, s, a), a.w)
    ensures Apply(c, s, a).workers[a.w].leaving == if a.Drop? then s.workers[a.w].leaving else None
  {
  }

  predicate IsBodyStep(a: Action) { a.Allocate? || a.Spawn? || a.Complete? || a.Error? }

  lemma BodyActs(c: Config, s: State, a: Action)
    requires Enabled(c, s, a) && IsBodyStep(a)
    ensures OnlyActs(s, Apply(c, s, a), a.w)
  {
  }

  lemma SpawnEnds(c: Config, s: State, w: nat, how: SpawnResult, j: nat, outcome: Outcome)
    requires Enabled(c, s, Spawn(w, how)) && s.workers[w].job == j
    ensures IsLeaving(AfterSpawn(s, w, how), w) && AfterSpawn(s, w, how).workers[w].leaving == Some(outcome)
       <==> Ends(c, s, Spawn(w, how), j, outcome)
  {
  }

  lemma BodyEnds(c: Config, s: State, a: Action, j: nat, outcome: Outcome)
    requires Enabled(c, s, a) && (a.Allocate? || a.Complete? || a.Error?) && s.workers[a.w].job == j
    ensures IsLeaving(Apply(c, s, a), a.w) && Apply(c, s, a).workers[a.w].leaving == Some(outcome)
       <==> Ends(c, s, a, j, outcome)
  {
  }

  lemma BodyDecides(c: Config, s: State, a: Action, j: nat, outcome: Outcome)
    requires JobsMatchWorkers(s) && Enabled(c, s, a) && IsBodyStep(a)
    ensures IsDecided(Apply(c, s, a), j, outcome) <==> IsDecided(s, j, outcome) || Ends(c, s, a, j, outcome)
  {
    BodyActs(c, s, a);
    ActorDecides(s, Apply(c, s, a), a.w, j, outcome);
    if s.workers[a.w].job == j {
      match a {
        case Spawn(w, how) => SpawnEnds(c, s, w, how, j, outcome);
        case _ => BodyEnds(c, s, a, j, outcome);
      }
    }
  }

  /** One action decides a test exactly when it is one of the events, and a decision is never changed. */
  lemma DecidedByEvents(c: Config, s: State, a: Action, j: nat, outcome: Outcome)
    requires JobsMatchWorkers(s) && Enabled(c, s, a) && j < |s.jobs|
    ensures IsDecided(Apply(c, s, a), j, outcome) <==> IsDecided(s, j, outcome) || Ends(c, s, a, j, outcome)
  {
    match a {
      case Interrupt =>
      case Exit(_) =>
      case Claim(w, i) => ClaimDecidesNothing(s, w, i, j, outcome);
      case CheckFlag(w) =>
        if s.shutdown {
          FinishDecides(s, w, Fail("interrupted"), j, outcome);
          ActorDecides(s, s, w, j, outcome);
        } else {
          ActorDecides(s, Apply(c, s, a), w, j, outcome);
        }
      case Report(w) =>
        FinishDecides(s, w, s.workers[w].leaving.value, j, outcome);
        ActorDecides(s, s, w, j, outcome);
      case Invoke(w) =>
        EnterOrDropActs(c, s, a);
        ActorDecides(s, Apply(c, s, a), w, j, outcome);
      case Drop(w, _) =>
        EnterOrDropActs(c, s, a);
        ActorDecides(s, Apply(c, s, a), w, j, outcome);
      case _ => BodyDecides(c, s, a, j, outcome);
    }
  }

  /** After the first `k` actions, the next one is an event that ends test `j`. */
  ghost predicate EndsAt(c: Config, s: State, actions: seq<Action>, k: nat, j: nat, outcome: Outcome)
  {
    && k < |actions| && IsRun(c, s, actions[..k]) && Enabled(c, After(c, s, actions[..k]), actions[k])
    && Ends(c, After(c, s, actions[..k]), actions[k], j, outcome)
  }

  lemma EndsAtStep(c: Config, s: State, actions: seq<Action>, k: nat, j: nat, outcome: Outcome)
    requires IsRun(c, s, actions) && actions != []
    ensures EndsAt(c, s, actions, 0, j, outcome) <==> Ends(c, s, actions[0], j, outcome)
    ensures EndsAt(c, s, actions, k + 1, j, outcome)
       <==> EndsAt(c, Apply(c, s, actions[0]), actions[1..], k, j, outcome)
  {
    assert actions[..0] == [];
    if k + 1 <= |actions| {
      assert actions[..k + 1][0] == actions[0] && actions[..k + 1][1..] == actions[1..][..k];
    }
  }

  /** A run decides a test exactly when it passes through one of the events. */
  lemma {:induction false} RunDecides(c: Config, s: State, actions: seq<Action>, j: nat, outcome: Outcome)
    requires Inv(c, s) && IsRun(c, s, actions) && j < |s.jobs|
    ensures IsDecided(After(c, s, actions), j, outcome)
       <==> IsDecided(s, j, outcome) || exists k :: EndsAt(c, s, actions, k, j, outcome)
    decreases |actions|
  {
    if actions != [] {
      var t := Apply(c, s, actions[0]);
      ApplyKeepsInv(c, s, actions[0]);
      DecidedByEvents(c, s, actions[0], j, outcome);
      RunDecides(c, t, actions[1..], j, outcome);
      EndsAtStep(c, s, actions, 0, j, outcome);
      if k: nat :| EndsAt(c, t, actions[1..], k, j, outcome) {
        EndsAtStep(c, s, actions, k, j, outcome);
      }
      if k: nat :| EndsAt(c, s, actions, k, j, outcome) && k > 0 {
        EndsAtStep(c, s, actions, k - 1, j, outcome);
      }
    }
  }

  /** In every schedule, a test that has a result has this one exactly when the run passed through a cause for it. */
  lemma ResultsHaveCauses(c: Config, actions: seq<Action>, j: nat, outcome: Outcome)
    requires IsRun(c, Initial(c), actions) && j < |c.kinds|
    ensures var jobs := After(c, Initial(c), actions).jobs;
      && j < |jobs|
      && (jobs[j].Done? ==>
            (jobs[j] == Done(outcome) <==> exists k :: EndsAt(c, Initial(c), actions, k, j, outcome)))
  {
    InitialInv(c);
    RunKeepsInv(c, Initial(c), actions);
    RunDecides(c, Initial(c), actions, j, outcome);
  }

  /** The flag is set exactly when a shutdown was requested on the way. */
  lemma {:induction false} ShutdownIsRequested(c: Config, s: State, actions: seq<Action>)
    requires IsRun(c, s, actions)
    ensures After(c, s, actions).shutdown <==> s.shutdown || exists k :: 0 <= k < |actions| && actions[k].Interrupt?
    decreases |actions|
  {
    if actions != [] {
      ShutdownIsRequested(c, Apply(c, s, actions[0]), actions[1..]);
      assert forall k :: 1 <= k < |actions| ==> actions[k] == actions[1..][k - 1];
      assert forall k :: 0 <= k < |actions[1..]| ==> actions[1..][k] == actions[k + 1];
    }
  }

  // The environment

  /** Nothing but the state of a test restrains the environment: signals, errors, failing spawns, ending processes. */
  lemma EnvironmentIsFree(c: Config, s: State, w: nat, message: string, how: SpawnResult, pid: Pid)
    ensures Enabled(c, s, Interrupt) && (pid in s.live ==> Enabled(c, s, Exit(pid)))
    ensures InBody(s, w) ==> Enabled(c, s, Error(w, message))
    ensures InBody(s, w) && s.workers[w].pair.Some? && s.workers[w].dst.None? ==> Enabled(c, s, Spawn(w, how))
    ensures pid in s.live ==> pid !in Apply(c, s, Exit(pid)).live
  {
  }

  /** A child is put on the first tap of its worker's pair, and the next one on the second. */
  lemma SpawnedOnPair(c: Config, s: State, w: nat, how: SpawnResult)
    requires Enabled(c, s, Spawn(w, how)) && CreatesChild(Spawn(w, how))
    ensures var t, pair := Apply(c, s, Spawn(w, how)), NewPair(s.workers[w].pair.value);
      && t.live.Keys == s.live.Keys + {s.nextPid}
      && TapName(t.live[s.nextPid].tap) == if s.workers[w].src.None? then pair.srcTap else pair.dstTap
  {
    PairIs(s.workers[w].pair.value);
    var t := Apply(c, s, Spawn(w, how));
    assert t.live.Keys == s.live.Keys + {s.nextPid};
  }

  /** An allocation takes the last free index, and the drop puts it back. */
  lemma AllocationTakesLast(c: Config, s: State, w: nat)
    requires Enabled(c, s, Allocate(w))
    ensures var free := if s.pool.Some? then s.pool.value else ValidPairs(c.jobs, c.tapExists);
      var t := Apply(c, s, Allocate(w));
      if free == [] then t.pool == Some([]) && !t.workers[w].HasPair()
      else t.workers[w].HasPair() && t.pool.Some? && t.pool.value + [t.workers[w].pair.value] == free
  {
    var free := Initialised(s.pool, c.jobs, c.tapExists);
    if free != [] {
      assert free == free[..|free| - 1] + [free[|free| - 1]];
    }
  }

  // A test that passes

  lemma Extend(c: Config, s: State, actions: seq<Action>, t: State, a: Action) returns (more: seq<Action>, u: State)
    requires IsRun(c, s, actions) && After(c, s, actions) == t && Enabled(c, t, a)
    ensures more == actions + [a] && IsRun(c, s, more) && After(c, s, more) == u == Apply(c, t, a)
  {
    RunExtends(c, s, actions, a);
    more, u := actions + [a], Apply(c, t, a);
  }

  /** Worker `w` takes test `j` and enters its function. */
  lemma EnterTest(c: Config, s: State, w: nat, j: nat) returns (actions: seq<Action>, t: State)
    requires !s.shutdown && w < |s.workers| && s.workers[w].Idle? && j < |s.jobs| && s.jobs[j].Todo?
    ensures IsRun(c, s, actions) && After(c, s, actions) == t
    ensures t == s.(jobs := s.jobs[j := Taken(w)], workers := s.workers[w := Inside(j, None, None, None, None)])
  {
    actions, t := [], s;
    actions, t := Extend(c, s, actions, t, Claim(w, j));
    actions, t := Extend(c, s, actions, t, CheckFlag(w));
    actions, t := Extend(c, s, actions, t, Invoke(w));
  }

  /** The body of a tap test: a pair, both machines, and success. */
  lemma Migrate(c: Config, s: State, begun: seq<Action>, b: State, w: nat, j: nat)
    returns (actions: seq<Action>, t: State)
    requires IsRun(c, s, begun) && After(c, s, begun) == b
    requires w < |b.workers| && b.workers[w] == Inside(j, None, None, None, None) && IsTapTest(c, j)
    requires Initialised(b.pool, c.jobs, c.tapExists) != []
    ensures IsRun(c, s, actions) && After(c, s, actions) == t
    ensures var free, p := Initialised(b.pool, c.jobs, c.tapExists), b.nextPid;
      var i := free[|free| - 1];
      && t.workers == b.workers[w := Inside(j, Some(i), Some(p), Some(p + 1), Some(Pass))] && t.jobs == b.jobs
      && t.pool == Some(free[..|free| - 1])
      && t.live == b.live[p := Qemu(SrcTap(i), Some(w))][p + 1 := Qemu(DstTap(i), Some(w))]
  {
    actions, t := Extend(c, s, begun, b, Allocate(w));
    actions, t := Extend(c, s, actions, t, Spawn(w, Started));
    actions, t := Extend(c, s, actions, t, Spawn(w, Started));
    actions, t := Extend(c, s, actions, t, Complete(w));
  }

  /** Its locals are dropped: both machines end and the pair goes back. */
  lemma DropAll(c: Config, s: State, begun: seq<Action>, b: State, w: nat, j: nat, free: seq<nat>, i: nat, p: Pid)
    returns (actions: seq<Action>, t: State)
    requires IsRun(c, s, begun) && After(c, s, begun) == b && w < |b.workers| && b.pool == Some(free)
    requires b.workers[w] == Inside(j, Some(i), Some(p), Some(p + 1), Some(Pass))
    ensures IsRun(c, s, actions) && After(c, s, actions) == t
    ensures t.workers == b.workers[w := Inside(j, None, None, None, Some(Pass))] && t.jobs == b.jobs
    ensures t.live == b.live - {p, p + 1} && t.pool == Some(free + [i])
  {
    actions, t := Extend(c, s, begun, b, Drop(w, false));
    actions, t := Extend(c, s, actions, t, Drop(w, false));
    actions, t := Extend(c, s, actions, t, Drop(w, false));
  }

  lemma BothEnd(live: map<Pid, Qemu>, p: Pid, q: Pid, a: Qemu, b: Qemu)
    requires p !in live && q !in live
    ensures live[p := a][q := b] - {p, q} == live
  {
  }

  lemma TapTestToItsEnd(c: Config, s: State, begun: seq<Action>, b: State, w: nat, j: nat)
    returns (actions: seq<Action>, t: State)
    requires IsRun(c, s, begun) && After(c, s, begun) == b && b.nextPid !in b.live && b.nextPid + 1 !in b.live
    requires w < |b.workers| && b.workers[w] == Inside(j, None, None, None, None) && IsTapTest(c, j)
    requires Initialised(b.pool, c.jobs, c.tapExists) != []
    ensures IsRun(c, s, actions) && After(c, s, actions) == t
    ensures t.workers == b.workers[w := Inside(j, None, None, None, Some(Pass))] && t.jobs == b.jobs
    ensures t.live == b.live && t.pool == Some(Initialised(b.pool, c.jobs, c.tapExists))
  {
    var free, p := Initialised(b.pool, c.jobs, c.tapExists), b.nextPid;
    var i := free[|free| - 1];
    actions, t := Migrate(c, s, begun, b, w, j);
    actions, t := DropAll(c, s, actions, t, w, j, free[..|free| - 1], i, p);
    BothEnd(b.live, p, p + 1, Qemu(SrcTap(i), Some(w)), Qemu(DstTap(i), Some(w)));
    assert free == free[..|free| - 1] + [i];
  }

  /**
   * Any scheduled test can pass: an idle worker can take it to success, provided that no shutdown was requested and
   * that a tap test finds a pair. It leaves no process behind and gives its pair back.
   */
  lemma TestCanPass(c: Config, s: State, w: nat, j: nat) returns (actions: seq<Action>)
    requires Inv(c, s) && !s.shutdown && w < |s.workers| && s.workers[w].Idle? && j < |s.jobs| && s.jobs[j].Todo?
    requires IsTapTest(c, j) ==> Initialised(s.pool, c.jobs, c.tapExists) != []
    ensures IsRun(c, s, actions)
    ensures var t := After(c, s, actions);
      && t.jobs == s.jobs[j := Done(Pass)] && t.workers == s.workers && t.live == s.live
      && t.pool == if IsTapTest(c, j) then Some(Initialised(s.pool, c.jobs, c.tapExists)) else s.pool
  {
    var t;
    actions, t := EnterTest(c, s, w, j);
    if IsTapTest(c, j) {
      actions, t := TapTestToItsEnd(c, s, actions, t, w, j);
    } else {
      actions, t := Extend(c, s, actions, t, Complete(w));
    }
    actions, t := Extend(c, s, actions, t, Report(w));
    assert t.workers == s.workers;
  }
}
