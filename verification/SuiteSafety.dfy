/** What holds in every reachable state: pool conservation, ownership of tap devices, one worker per test. */
module SuiteSafety {
  import opened Wrappers
  import opened Junit
  import opened TapPool
  import opened Suite

  ghost predicate HeldOnce(s: State)
  {
    forall v, w, i :: 0 <= v < w < |s.workers| && s.workers[v].Holds(i) ==> !s.workers[w].Holds(i)
  }

  /** Free and held indices are the valid ones, each exactly once. */
  ghost predicate PoolIsConserved(c: Config, s: State)
  {
    var valid := ValidPairs(c.jobs, c.tapExists);
    if s.pool.None? then
      forall w :: 0 <= w < |s.workers| ==> !s.workers[w].HasPair()
    else
      var free := s.pool.value;
      && IsDuplicateFree(free)
      && HeldOnce(s)
      && (forall i :: i in free ==> !IsHeld(s, i))
      && (forall i :: i in valid <==> i in free || IsHeld(s, i))
  }

  ghost predicate IsHeld(s: State, i: nat)
  {
    exists w :: 0 <= w < |s.workers| && s.workers[w].Holds(i)
  }

  /** The worker's pair and one of its two slots account for the process. */
  ghost predicate AccountsFor(worker: Worker, pid: Pid, tap: nat)
  {
    worker.HasPair()
    && ((worker.src == Some(pid) && tap == SrcTap(worker.pair.value))
        || (worker.dst == Some(pid) && tap == DstTap(worker.pair.value)))
  }

  ghost predicate OwnersAccount(s: State)
  {
    forall pid :: pid in s.live ==>
      pid < s.nextPid
      && (s.live[pid].owner.Some? ==>
            s.live[pid].owner.value < |s.workers|
            && AccountsFor(s.workers[s.live[pid].owner.value], pid, s.live[pid].tap))
  }

  /** Processes are spawned in order and only with a pair in hand. */
  ghost predicate SlotsAreOrdered(s: State)
  {
    forall w :: 0 <= w < |s.workers| && s.workers[w].Inside? ==>
      (s.workers[w].src.Some? ==> s.workers[w].pair.Some?) && (s.workers[w].dst.Some? ==> s.workers[w].src.Some?)
  }

  ghost predicate JobsMatchWorkers(s: State)
  {
    && (forall j :: 0 <= j < |s.jobs| && s.jobs[j].Taken? ==>
          s.jobs[j].worker < |s.workers| && s.workers[s.jobs[j].worker].IsOn(j))
    && (forall w :: 0 <= w < |s.workers| && !s.workers[w].Idle? ==>
          s.workers[w].job < |s.jobs| && s.jobs[s.workers[w].job] == Taken(w))
  }

  ghost predicate Inv(c: Config, s: State)
  {
    && |s.jobs| == |c.kinds| && |s.workers| == c.threads
    && JobsMatchWorkers(s) && SlotsAreOrdered(s) && OwnersAccount(s) && PoolIsConserved(c, s)
  }

  lemma InitialInv(c: Config)
    ensures Inv(c, Initial(c))
  {
  }

  // Each invariant is kept by each action

  lemma SizesStay(c: Config, s: State, a: Action)
    requires Enabled(c, s, a)
    ensures |Apply(c, s, a).jobs| == |s.jobs| && |Apply(c, s, a).workers| == |s.workers|
  {
  }

  lemma JobsStayMatched(c: Config, s: State, a: Action)
    requires JobsMatchWorkers(s) && Enabled(c, s, a)
    ensures JobsMatchWorkers(Apply(c, s, a))
  {
    match a {
      case Claim(w, j) => ClaimMatches(s, w, j);
      case CheckFlag(w) =>
        if s.shutdown {
          FinishMatches(s, w, Fail("interrupted"));
        } else {
          AssignmentsUnchanged(s, Apply(c, s, a));
        }
      case Report(w) => FinishMatches(s, w, s.workers[w].leaving.value);
      case _ =>
        OthersKeepAssignments(c, s, a);
        AssignmentsUnchanged(s, Apply(c, s, a));
    }
  }

  ghost predicate SameAssignments(s: State, t: State)
  {
    t.jobs == s.jobs && |t.workers| == |s.workers|
    && forall w :: 0 <= w < |s.workers| ==>
         s.workers[w].Idle? == t.workers[w].Idle? && (!s.workers[w].Idle? ==> t.workers[w].job == s.workers[w].job)
  }

  lemma OthersKeepAssignments(c: Config, s: State, a: Action)
    requires Enabled(c, s, a) && !a.Claim? && !a.CheckFlag? && !a.Report?
    ensures SameAssignments(s, Apply(c, s, a))
  {
  }

  lemma ClaimMatches(s: State, w: nat, j: nat)
    requires JobsMatchWorkers(s) && w < |s.workers| && s.workers[w].Idle? && j < |s.jobs| && s.jobs[j].Todo?
    ensures JobsMatchWorkers(WithWorker(s.(jobs := s.jobs[j := Taken(w)]), w, Claimed(j)))
  {
  }

  lemma FinishMatches(s: State, w: nat, outcome: Outcome)
    requires JobsMatchWorkers(s) && w < |s.workers| && !s.workers[w].Idle?
    ensures JobsMatchWorkers(WithWorker(s.(jobs := s.jobs[s.workers[w].job := Done(outcome)]), w, Idle))
  {
  }

  /** Every worker stays on its test. */
  lemma AssignmentsUnchanged(s: State, t: State)
    requires JobsMatchWorkers(s) && SameAssignments(s, t)
    ensures JobsMatchWorkers(t)
  {
    forall j | 0 <= j < |t.jobs| && t.jobs[j].Taken?
      ensures t.jobs[j].worker < |t.workers| && t.workers[t.jobs[j].worker].IsOn(j)
    {
      assert s.workers[s.jobs[j].worker].IsOn(j);
    }
  }

  lemma SlotsStayOrdered(c: Config, s: State, a: Action)
    requires SlotsAreOrdered(s) && Enabled(c, s, a)
    ensures SlotsAreOrdered(Apply(c, s, a))
  {
    match a {
      case Spawn(w, how) => SpawnKeepsOrder(s, w, how);
      case Drop(w, gaveUp) => DropKeepsOrder(s, w, gaveUp);
      case _ => OthersKeepOrder(c, s, a);
    }
  }

  lemma SpawnKeepsOrder(s: State, w: nat, how: SpawnResult)
    requires SlotsAreOrdered(s) && InBody(s, w) && s.workers[w].pair.Some?
    requires s.workers[w].src.None? || s.workers[w].dst.None?
    ensures SlotsAreOrdered(AfterSpawn(s, w, how))
  {
  }

  lemma DropKeepsOrder(s: State, w: nat, gaveUp: bool)
    requires SlotsAreOrdered(s) && IsLeaving(s, w)
    requires s.workers[w].dst.Some? || s.workers[w].src.Some? || s.workers[w].pair.Some?
    ensures SlotsAreOrdered(AfterDrop(s, w, gaveUp))
  {
  }

  lemma OthersKeepOrder(c: Config, s: State, a: Action)
    requires SlotsAreOrdered(s) && Enabled(c, s, a) && !a.Spawn? && !a.Drop?
    ensures SlotsAreOrdered(Apply(c, s, a))
  {
  }

  /** Owners account for their processes as long as pairs stay and only dropped or new processes change slots. */
  lemma OwnersStayAccountable(c: Config, s: State, a: Action)
    requires Inv(c, s) && Enabled(c, s, a)
    ensures OwnersAccount(Apply(c, s, a))
  {
    match a {
      case Spawn(w, how) => SpawnKeepsOwners(s, w, how);
      case Drop(w, gaveUp) => DropKeepsOwners(s, w, gaveUp);
      case _ =>
        OthersKeepSlots(c, s, a);
        SlotsUnchanged(s, Apply(c, s, a));
    }
  }

  ghost predicate KeepsSlots(s: State, t: State)
  {
    && |t.workers| == |s.workers| && t.nextPid == s.nextPid
    && (forall pid :: pid in t.live ==> pid in s.live && t.live[pid] == s.live[pid])
    && forall w :: 0 <= w < |s.workers| && s.workers[w].HasPair() ==>
         t.workers[w].HasPair() && t.workers[w].pair == s.workers[w].pair
         && t.workers[w].src == s.workers[w].src && t.workers[w].dst == s.workers[w].dst
  }

  lemma OthersKeepSlots(c: Config, s: State, a: Action)
    requires Enabled(c, s, a) && !a.Spawn? && !a.Drop?
    ensures KeepsSlots(s, Apply(c, s, a))
  {
  }

  lemma SlotsUnchanged(s: State, t: State)
    requires OwnersAccount(s) && KeepsSlots(s, t)
    ensures OwnersAccount(t)
  {
    forall pid | pid in t.live
      ensures pid < t.nextPid
      ensures t.live[pid].owner.Some? ==>
        t.live[pid].owner.value < |t.workers| && AccountsFor(t.workers[t.live[pid].owner.value], pid, t.live[pid].tap)
    {
      assert pid in s.live;
    }
  }

  lemma SpawnKeepsOwners(s: State, w: nat, how: SpawnResult)
    requires SlotsAreOrdered(s) && OwnersAccount(s)
    requires InBody(s, w) && s.workers[w].pair.Some? && (s.workers[w].src.None? || s.workers[w].dst.None?)
    ensures OwnersAccount(AfterSpawn(s, w, how))
  {
    var t := AfterSpawn(s, w, how);
    forall pid | pid in t.live
      ensures pid < t.nextPid
      ensures t.live[pid].owner.Some? ==>
        t.live[pid].owner.value < |t.workers| && AccountsFor(t.workers[t.live[pid].owner.value], pid, t.live[pid].tap)
    {
      if pid in s.live && s.live[pid].owner.Some? {
        assert AccountsFor(s.workers[s.live[pid].owner.value], pid, s.live[pid].tap);
      }
    }
  }

  lemma DropKeepsOwners(s: State, w: nat, gaveUp: bool)
    requires SlotsAreOrdered(s) && OwnersAccount(s) && IsLeaving(s, w)
    requires s.workers[w].dst.Some? || s.workers[w].src.Some? || s.workers[w].pair.Some?
    ensures OwnersAccount(AfterDrop(s, w, gaveUp))
  {
    var t := AfterDrop(s, w, gaveUp);
    forall pid | pid in t.live
      ensures pid < t.nextPid
      ensures t.live[pid].owner.Some? ==>
        t.live[pid].owner.value < |t.workers| && AccountsFor(t.workers[t.live[pid].owner.value], pid, t.live[pid].tap)
    {
      assert pid in s.live;
      if s.live[pid].owner.Some? {
        assert AccountsFor(s.workers[s.live[pid].owner.value], pid, s.live[pid].tap);
      }
    }
  }

  lemma PoolStaysConserved(c: Config, s: State, a: Action)
    requires Inv(c, s) && Enabled(c, s, a)
    ensures PoolIsConserved(c, Apply(c, s, a))
  {
    match a {
      case Allocate(w) => AllocateConserves(c, s, w);
      case Drop(w, gaveUp) => DropConserves(c, s, w, gaveUp);
      case Spawn(w, how) =>
        SpawnKeepsPairs(s, w, how);
        PairsUnchanged(c, s, Apply(c, s, a));
      case _ =>
        OthersKeepPairs(c, s, a);
        PairsUnchanged(c, s, Apply(c, s, a));
    }
  }

  ghost predicate SamePairs(s: State, t: State)
  {
    t.pool == s.pool && |t.workers| == |s.workers|
    && forall w :: 0 <= w < |s.workers| ==> forall i :: t.workers[w].Holds(i) <==> s.workers[w].Holds(i)
  }

  lemma SpawnKeepsPairs(s: State, w: nat, how: SpawnResult)
    requires InBody(s, w) && s.workers[w].pair.Some?
    ensures SamePairs(s, AfterSpawn(s, w, how))
  {
  }

  lemma OthersKeepPairs(c: Config, s: State, a: Action)
    requires Enabled(c, s, a) && !a.Allocate? && !a.Drop? && !a.Spawn?
    ensures SamePairs(s, Apply(c, s, a))
  {
  }

  /** Only allocation and release touch pairs; everything else keeps who holds what. */
  lemma PairsUnchanged(c: Config, s: State, t: State)
    requires PoolIsConserved(c, s) && SamePairs(s, t)
    ensures PoolIsConserved(c, t)
  {
    forall i ensures IsHeld(t, i) <==> IsHeld(s, i) {
      if IsHeld(s, i) {
        var w :| 0 <= w < |s.workers| && s.workers[w].Holds(i);
        assert t.workers[w].Holds(i);
      }
      if IsHeld(t, i) {
        var w :| 0 <= w < |t.workers| && t.workers[w].Holds(i);
        assert s.workers[w].Holds(i);
      }
    }
    forall w | 0 <= w < |t.workers| && s.pool.None? ensures !t.workers[w].HasPair() {
      if t.workers[w].HasPair() {
        assert t.workers[w].Holds(t.workers[w].pair.value);
      }
    }
  }

  /** As if the pool had been filled before: what an allocation starts from. */
  lemma FilledPoolIsConserved(c: Config, s: State)
    requires PoolIsConserved(c, s)
    ensures PoolIsConserved(c, s.(pool := Some(Initialised(s.pool, c.jobs, c.tapExists))))
  {
    var t := s.(pool := Some(Initialised(s.pool, c.jobs, c.tapExists)));
    if s.pool.None? {
      assert forall w, i :: 0 <= w < |s.workers| && s.workers[w].Holds(i) ==> s.workers[w].HasPair();
    } else {
      PairsUnchanged(c, s, t);
    }
  }

  /** Worker `w` is the only one that changes, from holding `before` to holding `after`. */
  ghost predicate OnlyChanges(s: State, t: State, w: nat, before: Option<nat>, after: Option<nat>)
  {
    && |t.workers| == |s.workers| && w < |s.workers|
    && (forall v :: 0 <= v < |s.workers| && v != w ==> t.workers[v] == s.workers[v])
    && (forall i: nat :: s.workers[w].Holds(i) <==> before == Some(i))
    && (forall i: nat :: t.workers[w].Holds(i) <==> after == Some(i))
  }

  lemma HeldAfterChange(s: State, t: State, w: nat, before: Option<nat>, after: Option<nat>, i: nat)
    requires HeldOnce(s) && OnlyChanges(s, t, w, before, after)
    ensures IsHeld(t, i) <==> after == Some(i) || (IsHeld(s, i) && before != Some(i))
  {
    if after == Some(i) {
      assert t.workers[w].Holds(i);
    } else if IsHeld(s, i) && before != Some(i) {
      var v :| 0 <= v < |s.workers| && s.workers[v].Holds(i);
      assert t.workers[v].Holds(i);
    }
    if IsHeld(t, i) {
      var v :| 0 <= v < |t.workers| && t.workers[v].Holds(i);
      if v != w {
        assert s.workers[v].Holds(i);
        assert before == Some(i) ==> s.workers[w].Holds(i);
      }
    }
  }

  /** The last free index goes to a worker that held none. */
  lemma TakingConserves(c: Config, s: State, t: State, w: nat, free: seq<nat>, taken: nat)
    requires PoolIsConserved(c, s) && s.pool == Some(free + [taken]) && t.pool == Some(free)
    requires OnlyChanges(s, t, w, None, Some(taken))
    ensures PoolIsConserved(c, t)
  {
    var all := free + [taken];
    assert all[|free|] == taken && forall k :: 0 <= k < |free| ==> all[k] == free[k];
    assert taken in all && taken !in free;
    forall i ensures IsHeld(t, i) <==> i == taken || IsHeld(s, i) {
      HeldAfterChange(s, t, w, None, Some(taken), i);
    }
    assert forall v :: 0 <= v < |s.workers| && s.workers[v].Holds(taken) ==> IsHeld(s, taken);
    assert forall i :: i in all <==> i in free || i == taken;
  }

  /** The index of a worker goes back to the pool. */
  lemma GivingConserves(c: Config, s: State, t: State, w: nat, free: seq<nat>, given: nat)
    requires PoolIsConserved(c, s) && s.pool == Some(free) && t.pool == Some(free + [given])
    requires OnlyChanges(s, t, w, Some(given), None)
    ensures PoolIsConserved(c, t)
  {
    var all := free + [given];
    assert s.workers[w].Holds(given) && IsHeld(s, given);
    forall i ensures IsHeld(t, i) <==> i != given && IsHeld(s, i) {
      HeldAfterChange(s, t, w, Some(given), None, i);
    }
    assert forall i :: i in all <==> i in free || i == given;
    assert IsDuplicateFree(all) by {
      forall j, k | 0 <= j < k < |all| ensures all[j] != all[k] {
        assert all[j] in free;
      }
    }
  }

  lemma AllocateConserves(c: Config, s: State, w: nat)
    requires PoolIsConserved(c, s) && InBody(s, w) && s.workers[w].pair.None?
    ensures PoolIsConserved(c, AfterAllocate(c, s, w))
  {
    var free := Initialised(s.pool, c.jobs, c.tapExists);
    var f := s.(pool := Some(free));
    var t := AfterAllocate(c, s, w);
    FilledPoolIsConserved(c, s);
    if free == [] {
      PairsUnchanged(c, f, t);
    } else {
      var n := |free| - 1;
      assert free == free[..n] + [free[n]];
      TakingConserves(c, f, t, w, free[..n], free[n]);
    }
  }

  lemma DropConserves(c: Config, s: State, w: nat, gaveUp: bool)
    requires PoolIsConserved(c, s) && IsLeaving(s, w)
    requires s.workers[w].dst.Some? || s.workers[w].src.Some? || s.workers[w].pair.Some?
    ensures PoolIsConserved(c, AfterDrop(s, w, gaveUp))
  {
    var t := AfterDrop(s, w, gaveUp);
    if s.workers[w].dst.Some? || s.workers[w].src.Some? {
      PairsUnchanged(c, s, t);
    } else {
      assert s.workers[w].HasPair();
      GivingConserves(c, s, t, w, s.pool.value, s.workers[w].pair.value);
    }
  }

  lemma ApplyKeepsInv(c: Config, s: State, a: Action)
    requires Inv(c, s) && Enabled(c, s, a)
    ensures Inv(c, Apply(c, s, a))
  {
    SizesStay(c, s, a);
    JobsStayMatched(c, s, a);
    SlotsStayOrdered(c, s, a);
    OwnersStayAccountable(c, s, a);
    PoolStaysConserved(c, s, a);
  }

  lemma {:induction false} RunKeepsInv(c: Config, s: State, actions: seq<Action>)
    requires Inv(c, s) && IsRun(c, s, actions)
    ensures Inv(c, After(c, s, actions))
    decreases |actions|
  {
    if actions != [] {
      ApplyKeepsInv(c, s, actions[0]);
      RunKeepsInv(c, Apply(c, s, actions[0]), actions[1..]);
    }
  }
}
