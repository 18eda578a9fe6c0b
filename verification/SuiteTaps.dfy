/** Tap devices over whole runs: who can share one, and when allocation succeeds. */
module SuiteTaps {
  import opened Wrappers
  import opened Junit
  import opened TapPool
  import opened Suite
  import opened SuiteSafety

  /** A state some interleaving of the participants leads to. */
  ghost predicate IsReachable(c: Config, s: State)
  {
    exists actions :: IsRun(c, Initial(c), actions) && After(c, Initial(c), actions) == s
  }

  lemma ReachableInv(c: Config, s: State)
    requires IsReachable(c, s)
    ensures Inv(c, s)
  {
    var actions :| IsRun(c, Initial(c), actions) && After(c, Initial(c), actions) == s;
    InitialInv(c);
    RunKeepsInv(c, Initial(c), actions);
  }

  // Sharing

  ghost predicate IsLeaked(s: State, pid: Pid) { pid in s.live && s.live[pid].owner.None? }

  ghost predicate ShareTap(s: State, a: Pid, b: Pid)
  {
    a != b && a in s.live && b in s.live && s.live[a].tap == s.live[b].tap
  }

  /** In every interleaving, two live processes on one tap include a leaked one. */
  lemma OwnedProcessesShareNoTap(c: Config, s: State, a: Pid, b: Pid)
    requires IsReachable(c, s) && ShareTap(s, a, b)
    ensures IsLeaked(s, a) || IsLeaked(s, b)
  {
    ReachableInv(c, s);
    if s.live[a].owner.Some? && s.live[b].owner.Some? {
      var v, w := s.live[a].owner.value, s.live[b].owner.value;
      assert AccountsFor(s.workers[v], a, s.live[a].tap) && AccountsFor(s.workers[w], b, s.live[b].tap);
      SameTapSameOwner(c, s, v, w, a, b, s.live[a].tap);
    }
  }

  lemma SameTapSameOwner(c: Config, s: State, v: nat, w: nat, a: Pid, b: Pid, tap: nat)
    requires Inv(c, s) && v < |s.workers| && w < |s.workers|
    requires AccountsFor(s.workers[v], a, tap) && AccountsFor(s.workers[w], b, tap)
    ensures v == w && a == b
  {
    var i := s.workers[v].pair.value;
    assert s.workers[w].pair.value == i;
    assert s.workers[v].Holds(i) && s.workers[w].Holds(i);
  }

  /** A spawn that fails once the child exists, or a drop that gives up. */
  predicate IsLeak(a: Action) { (a.Spawn? && a.how.Abandoned?) || (a.Drop? && a.gaveUp) }

  ghost predicate IsLeakFree(actions: seq<Action>)
  {
    forall k :: 0 <= k < |actions| ==> !IsLeak(actions[k])
  }

  /** A process loses its owner only by one of these two events. */
  lemma LeakedOnlyByLeaks(c: Config, s: State, a: Action, pid: Pid)
    requires Enabled(c, s, a) && !IsLeaked(s, pid) && IsLeaked(Apply(c, s, a), pid)
    ensures IsLeak(a)
  {
  }

  /** A run that leads to a leaked process contains one of them. */
  lemma {:induction false} LeaksHaveACause(c: Config, s: State, actions: seq<Action>, pid: Pid) returns (k: nat)
    requires IsRun(c, s, actions) && !IsLeaked(s, pid) && IsLeaked(After(c, s, actions), pid)
    ensures k < |actions| && IsLeak(actions[k])
    decreases |actions|
  {
    if IsLeak(actions[0]) {
      k := 0;
    } else {
      if IsLeaked(Apply(c, s, actions[0]), pid) {
        LeakedOnlyByLeaks(c, s, actions[0], pid);
      }
      k := LeaksHaveACause(c, Apply(c, s, actions[0]), actions[1..], pid);
      k := k + 1;
    }
  }

  ghost predicate AllOwned(s: State) { forall pid :: pid in s.live ==> s.live[pid].owner.Some? }

  lemma StepKeepsOwned(c: Config, s: State, a: Action)
    requires AllOwned(s) && Enabled(c, s, a) && IsLeakFree([a])
    ensures AllOwned(Apply(c, s, a))
  {
    assert [a][0] == a;
  }

  lemma {:induction false} RunKeepsOwned(c: Config, s: State, actions: seq<Action>)
    requires AllOwned(s) && IsRun(c, s, actions) && IsLeakFree(actions)
    ensures AllOwned(After(c, s, actions))
    decreases |actions|
  {
    if actions != [] {
      assert [actions[0]][0] == actions[0];
      StepKeepsOwned(c, s, actions[0]);
      RunKeepsOwned(c, Apply(c, s, actions[0]), actions[1..]);
    }
  }

  /** Without leaks, no two live processes ever use the same tap. */
  lemma LeakFreeRunsShareNoTap(c: Config, actions: seq<Action>, a: Pid, b: Pid)
    requires IsRun(c, Initial(c), actions) && IsLeakFree(actions)
    ensures !ShareTap(After(c, Initial(c), actions), a, b)
  {
    var s := After(c, Initial(c), actions);
    RunKeepsOwned(c, Initial(c), actions);
    if ShareTap(s, a, b) {
      OwnedProcessesShareNoTap(c, s, a, b);
    }
  }

  /** A spawn whose child exists, whether or not the spawn succeeds. */
  predicate CreatesChild(a: Action) { a.Spawn? && !a.how.NeverStarted? }

  /** Exactly when a child is put on a tap in use: when a leaked process is still alive there. */
  lemma SpawnSharesOnlyWithLeaked(c: Config, s: State, w: nat, how: SpawnResult)
    requires IsReachable(c, s) && Enabled(c, s, Spawn(w, how)) && CreatesChild(Spawn(w, how))
    ensures var t := Apply(c, s, Spawn(w, how));
      (exists a :: ShareTap(t, a, s.nextPid)) <==> exists a :: IsLeaked(s, a) && s.live[a].tap == NextTap(s.workers[w])
  {
    ReachableInv(c, s);
    var t := Apply(c, s, Spawn(w, how));
    forall a ensures ShareTap(t, a, s.nextPid) <==> IsLeaked(s, a) && s.live[a].tap == NextTap(s.workers[w]) {
      if a in s.live && s.live[a].owner.Some? && s.live[a].tap == NextTap(s.workers[w]) {
        var v := s.live[a].owner.value;
        assert AccountsFor(s.workers[v], a, s.live[a].tap);
        assert s.workers[v].Holds(s.workers[w].pair.value) && s.workers[w].Holds(s.workers[w].pair.value);
      }
    }
  }

  /** Two processes begin to share a tap only when one of them is created. */
  lemma SharingBeginsWithSpawn(c: Config, s: State, a: Action, x: Pid, y: Pid)
    requires IsReachable(c, s) && Enabled(c, s, a)
    requires !ShareTap(s, x, y) && ShareTap(Apply(c, s, a), x, y)
    ensures CreatesChild(a) && (x == s.nextPid || y == s.nextPid)
  {
    ReachableInv(c, s);
  }

  /** The run passes through `t` and there creates a child on the tap of a leaked process. */
  ghost predicate JoinsLeakedAt(c: Config, s: State, actions: seq<Action>, k: nat, t: State)
  {
    && k < |actions| && IsRun(c, s, actions[..k]) && After(c, s, actions[..k]) == t
    && CreatesChild(actions[k]) && Enabled(c, t, actions[k])
    && exists a :: IsLeaked(t, a) && t.live[a].tap == NextTap(t.workers[actions[k].w])
  }

  /** Whenever a run ends with two processes on one tap, it has put a child on the tap of a leaked process. */
  lemma {:induction false} SharingHasACause(c: Config, s: State, actions: seq<Action>, x: Pid, y: Pid)
    returns (k: nat, t: State)
    requires IsReachable(c, s) && IsRun(c, s, actions)
    requires !ShareTap(s, x, y) && ShareTap(After(c, s, actions), x, y)
    ensures JoinsLeakedAt(c, s, actions, k, t)
    decreases |actions|
  {
    var a, u := actions[0], Apply(c, s, actions[0]);
    if ShareTap(u, x, y) {
      SharingBeginsWithSpawn(c, s, a, x, y);
      SpawnSharesOnlyWithLeaked(c, s, a.w, a.how);
      assert ShareTap(u, if x == s.nextPid then y else x, s.nextPid);
      assert actions[..0] == [];
      k, t := 0, s;
    } else {
      ReachableStep(c, s, a);
      k, t := SharingHasACause(c, u, actions[1..], x, y);
      assert actions[..k + 1][0] == a && actions[..k + 1][1..] == actions[1..][..k];
      k := k + 1;
    }
  }

  // A run in which a tap is shared

  lemma {:induction false} RunExtends(c: Config, s: State, actions: seq<Action>, a: Action)
    requires IsRun(c, s, actions) && Enabled(c, After(c, s, actions), a)
    ensures IsRun(c, s, actions + [a])
    ensures After(c, s, actions + [a]) == Apply(c, After(c, s, actions), a)
    decreases |actions|
  {
    if actions == [] {
      assert [] + [a] == [a] && [a][1..] == [];
    } else {
      assert (actions + [a])[1..] == actions[1..] + [a];
      RunExtends(c, Apply(c, s, actions[0]), actions[1..], a);
    }
  }

  lemma ReachableStep(c: Config, s: State, a: Action)
    requires IsReachable(c, s) && Enabled(c, s, a)
    ensures IsReachable(c, Apply(c, s, a))
  {
    var actions :| IsRun(c, Initial(c), actions) && After(c, Initial(c), actions) == s;
    RunExtends(c, Initial(c), actions, a);
  }

  lemma InitialIsReachable(c: Config)
    ensures IsReachable(c, Initial(c))
  {
    assert IsRun(c, Initial(c), []) && After(c, Initial(c), []) == Initial(c);
  }

  /** Worker `w` takes test `j` and enters its function. */
  lemma BeginTest(c: Config, s: State, w: nat, j: nat) returns (t: State)
    requires IsReachable(c, s) && !s.shutdown && w < |s.workers| && s.workers[w].Idle?
    requires j < |s.jobs| && s.jobs[j].Todo?
    ensures IsReachable(c, t)
    ensures t == s.(jobs := s.jobs[j := Taken(w)], workers := s.workers[w := Inside(j, None, None, None, None)])
  {
    t := Apply(c, s, Claim(w, j));
    ReachableStep(c, s, Claim(w, j));
    var u := Apply(c, t, CheckFlag(w));
    ReachableStep(c, t, CheckFlag(w));
    t := Apply(c, u, Invoke(w));
    ReachableStep(c, u, Invoke(w));
  }

  /** Worker `w` takes tap test `j` and gets the last free pair. */
  lemma StartTest(c: Config, s: State, w: nat, j: nat, rest: seq<nat>, i: nat) returns (t: State)
    requires IsReachable(c, s) && !s.shutdown && w < |s.workers| && s.workers[w].Idle?
    requires j < |s.jobs| && s.jobs[j].Todo? && IsTapTest(c, j)
    requires Initialised(s.pool, c.jobs, c.tapExists) == rest + [i]
    ensures IsReachable(c, t) && !t.shutdown && t.pool == Some(rest) && t.live == s.live && t.nextPid == s.nextPid
    ensures t.workers == s.workers[w := Inside(j, Some(i), None, None, None)] && t.jobs == s.jobs[j := Taken(w)]
  {
    var u := BeginTest(c, s, w, j);
    t := Apply(c, u, Allocate(w));
    ReachableStep(c, u, Allocate(w));
    assert (rest + [i])[..|rest|] == rest;
  }

  /** The first test is over, its pair is back in the pool, and its source lives on without an owner. */
  ghost predicate HasLeakedFirstSource(c: Config, s: State, rest: seq<nat>, i: nat)
  {
    && IsReachable(c, s) && !s.shutdown && |s.workers| > 0 && s.workers[0].Idle? && s.nextPid == 1
    && |s.jobs| > 1 && s.jobs[1].Todo? && s.pool == Some(rest + [i])
    && s.live == map[0 := Qemu(SrcTap(i), None)]
  }

  ghost predicate HasTwoTapTests(c: Config, rest: seq<nat>, i: nat)
  {
    c.threads > 0 && IsTapTest(c, 0) && IsTapTest(c, 1) && ValidPairs(c.jobs, c.tapExists) == rest + [i]
  }

  /** The first test's spawn fails after its child exists. */
  lemma AbandonFirstSource(c: Config, rest: seq<nat>, i: nat) returns (s: State)
    requires HasTwoTapTests(c, rest, i)
    ensures HasLeakedFirstSource(c, s, rest, i)
  {
    InitialIsReachable(c);
    var t := StartTest(c, Initial(c), 0, 0, rest, i);
    s := Apply(c, t, Spawn(0, Abandoned));
    ReachableStep(c, t, Spawn(0, Abandoned));
    s := LeaveFirstTest(c, s, rest, i);
  }

  /** The first test drops its pair and reports. */
  lemma LeaveFirstTest(c: Config, s: State, rest: seq<nat>, i: nat) returns (t: State)
    requires IsReachable(c, s) && !s.shutdown && |s.workers| > 0 && s.nextPid == 1 && |s.jobs| > 1 && s.jobs[1].Todo?
    requires s.pool == Some(rest) && s.live == map[0 := Qemu(SrcTap(i), None)] && IsLeaving(s, 0)
    requires var worker := s.workers[0];
      worker.job == 0 && worker.pair == Some(i) && worker.src.None? && worker.dst.None?
    ensures HasLeakedFirstSource(c, t, rest, i)
  {
    var u := Apply(c, s, Drop(0, false));
    ReachableStep(c, s, Drop(0, false));
    t := Apply(c, u, Report(0));
    ReachableStep(c, u, Report(0));
  }

  /** The first test fails with a running source, and the drop of the source gives up. */
  lemma GiveUpOnFirstSource(c: Config, rest: seq<nat>, i: nat) returns (s: State)
    requires HasTwoTapTests(c, rest, i)
    ensures HasLeakedFirstSource(c, s, rest, i)
  {
    InitialIsReachable(c);
    var t := StartTest(c, Initial(c), 0, 0, rest, i);
    s := Apply(c, t, Spawn(0, Started));
    ReachableStep(c, t, Spawn(0, Started));
    t := Apply(c, s, Error(0, "source VM did not boot"));
    ReachableStep(c, s, Error(0, "source VM did not boot"));
    s := Apply(c, t, Drop(0, true));
    ReachableStep(c, t, Drop(0, true));
    s := LeaveFirstTest(c, s, rest, i);
  }

  /** The next test gets the same pair and puts its source on the tap of the leaked one. */
  lemma LeakedSourceIsJoined(c: Config, s: State, rest: seq<nat>, i: nat) returns (t: State)
    requires HasTwoTapTests(c, rest, i) && HasLeakedFirstSource(c, s, rest, i)
    ensures IsReachable(c, t) && ShareTap(t, 0, 1) && t.live[0].tap == SrcTap(i)
  {
    var u := StartTest(c, s, 0, 1, rest, i);
    t := Apply(c, u, Spawn(0, Started));
    ReachableStep(c, u, Spawn(0, Started));
  }

  /** A spawn that fails once its child exists can make two live processes share a tap. */
  lemma AbandonedSpawnCanShareTap(c: Config, rest: seq<nat>, i: nat) returns (s: State, a: Pid, b: Pid)
    requires HasTwoTapTests(c, rest, i)
    ensures IsReachable(c, s) && ShareTap(s, a, b) && s.live[a].tap == SrcTap(i)
  {
    s := AbandonFirstSource(c, rest, i);
    s := LeakedSourceIsJoined(c, s, rest, i);
    a, b := 0, 1;
  }

  /** So can a drop that gives up. */
  lemma GivenUpDropCanShareTap(c: Config, rest: seq<nat>, i: nat) returns (s: State, a: Pid, b: Pid)
    requires HasTwoTapTests(c, rest, i)
    ensures IsReachable(c, s) && ShareTap(s, a, b) && s.live[a].tap == SrcTap(i)
  {
    s := GiveUpOnFirstSource(c, rest, i);
    s := LeakedSourceIsJoined(c, s, rest, i);
    a, b := 0, 1;
  }

  // Pairs in use and pairs in the pool

  /** Two workers hold pairs with different taps and different guest addresses. */
  lemma HeldPairsShareNothing(c: Config, s: State, v: nat, w: nat, i: nat, j: nat)
    requires IsReachable(c, s) && v < |s.workers| && w < |s.workers| && v != w
    requires s.workers[v].Holds(i) && s.workers[w].Holds(j)
    ensures NewPair(i).guestHost != NewPair(j).guestHost && NewPair(i).guestIpCidr != NewPair(j).guestIpCidr
    ensures {NewPair(i).srcTap, NewPair(i).dstTap} !! {NewPair(j).srcTap, NewPair(j).dstTap}
  {
    ReachableInv(c, s);
    assert s.workers[v].HasPair();
    if v < w {
      assert !s.workers[w].Holds(i);
    } else {
      assert !s.workers[v].Holds(j);
    }
    PairsShareNothing(i, j);
    PairsShareNothing(j, i);
  }

  /** A free index has no live process on its taps, other than leaked ones: both were reaped before it returned. */
  lemma FreePairsAreUnused(c: Config, s: State, i: nat, pid: Pid)
    requires IsReachable(c, s) && s.pool.Some? && i in s.pool.value
    requires pid in s.live && (s.live[pid].tap == SrcTap(i) || s.live[pid].tap == DstTap(i))
    ensures IsLeaked(s, pid)
  {
    ReachableInv(c, s);
    if s.live[pid].owner.Some? {
      var w := s.live[pid].owner.value;
      AccountedPairIsHeld(s, w, pid, s.live[pid].tap, i);
    }
  }

  lemma AccountedPairIsHeld(s: State, w: nat, pid: Pid, tap: nat, i: nat)
    requires w < |s.workers| && AccountsFor(s.workers[w], pid, tap) && (tap == SrcTap(i) || tap == DstTap(i))
    ensures IsHeld(s, i)
  {
    assert s.workers[w].Holds(i);
  }

  /** Free and held indices are, each once, the valid ones, in every reachable state with a filled pool. */
  lemma PoolConservation(c: Config, s: State)
    requires IsReachable(c, s) && s.pool.Some?
    ensures IsDuplicateFree(s.pool.value) && HeldOnce(s)
    ensures forall i :: i in s.pool.value ==> !IsHeld(s, i)
    ensures forall i :: i in ValidPairs(c.jobs, c.tapExists) <==> i in s.pool.value || IsHeld(s, i)
  {
    ReachableInv(c, s);
  }

  // Allocation

  ghost function HeldIndices(workers: seq<Worker>): set<nat>
  {
    if workers == [] then {}
    else (if workers[0].HasPair() then {workers[0].pair.value} else {}) + HeldIndices(workers[1..])
  }

  lemma {:induction false} HeldIndicesAre(workers: seq<Worker>, i: nat)
    ensures i in HeldIndices(workers) <==> exists w :: 0 <= w < |workers| && workers[w].Holds(i)
  {
    if workers != [] {
      HeldIndicesAre(workers[1..], i);
      if w :| 0 <= w < |workers[1..]| && workers[1..][w].Holds(i) {
        assert workers[w + 1].Holds(i);
      }
      if w :| 0 < w < |workers| && workers[w].Holds(i) {
        assert workers[1..][w - 1].Holds(i);
      }
      assert workers[0].HasPair() ==> workers[0].Holds(workers[0].pair.value);
    }
  }

  lemma {:induction false} FewHeldIndices(workers: seq<Worker>, w: nat)
    requires w < |workers| && !workers[w].HasPair()
    ensures |HeldIndices(workers)| <= |workers| - 1
  {
    var others := HeldIndices(workers[1..]);
    if w == 0 {
      HeldAtMostAll(workers[1..]);
      assert HeldIndices(workers) == others;
    } else {
      FewHeldIndices(workers[1..], w - 1);
    }
  }

  lemma {:induction false} HeldAtMostAll(workers: seq<Worker>)
    ensures |HeldIndices(workers)| <= |workers|
  {
    if workers != [] {
      HeldAtMostAll(workers[1..]);
    }
  }

  ghost function Members(indices: seq<nat>): set<nat> { set i | i in indices }

  lemma {:induction false} MembersCount(indices: seq<nat>)
    requires IsDuplicateFree(indices)
    ensures |Members(indices)| == |indices|
  {
    if indices != [] {
      var init, last := indices[..|indices| - 1], indices[|indices| - 1];
      MembersCount(init);
      assert indices == init + [last];
      assert Members(indices) == Members(init) + {last};
    }
  }

  lemma SubsetIsSmaller(a: set<nat>, b: set<nat>)
    requires a <= b
    ensures |a| <= |b|
  {
    assert b == a + (b - a);
  }

  /** The scheduled tests that use tap devices, in order. */
  function TapTests(kinds: seq<Kind>): seq<nat>
  {
    if kinds == [] then []
    else TapTests(kinds[..|kinds| - 1]) + if kinds[|kinds| - 1].TapTest? then [|kinds| - 1] else []
  }

  lemma {:induction false} TapTestsAre(kinds: seq<Kind>)
    ensures forall j: nat :: j in TapTests(kinds) <==> j < |kinds| && kinds[j].TapTest?
    ensures IsDuplicateFree(TapTests(kinds))
  {
    if kinds != [] {
      var n := |kinds| - 1;
      TapTestsAre(kinds[..n]);
      NewIsDuplicateFree(TapTests(kinds[..n]), n);
    }
  }

  lemma NewIsDuplicateFree(indices: seq<nat>, i: nat)
    requires IsDuplicateFree(indices) && i !in indices
    ensures IsDuplicateFree(indices + [i])
  {
    forall j, k | 0 <= j < k < |indices + [i]| ensures (indices + [i])[j] != (indices + [i])[k] {
      assert indices[j] in indices;
    }
  }

  /** The tests of the workers that hold a pair. */
  ghost function HolderTests(workers: seq<Worker>): set<nat>
  {
    if workers == [] then {}
    else (if workers[0].HasPair() then {workers[0].job} else {}) + HolderTests(workers[1..])
  }

  lemma {:induction false} HolderTestsAre(workers: seq<Worker>, j: nat)
    ensures j in HolderTests(workers) <==> exists w :: 0 <= w < |workers| && workers[w].HasPair() && workers[w].job == j
  {
    if workers != [] {
      HolderTestsAre(workers[1..], j);
      if w :| 0 <= w < |workers[1..]| && workers[1..][w].HasPair() && workers[1..][w].job == j {
        assert workers[w + 1].HasPair() && workers[w + 1].job == j;
      }
      if w :| 0 < w < |workers| && workers[w].HasPair() && workers[w].job == j {
        assert workers[1..][w - 1].HasPair() && workers[1..][w - 1].job == j;
      }
      assert workers[0].HasPair() && workers[0].job == j ==> j in HolderTests(workers);
    }
  }

  ghost predicate AreOnDifferentTests(workers: seq<Worker>)
  {
    forall v, w :: 0 <= v < w < |workers| && !workers[v].Idle? && !workers[w].Idle? ==> workers[v].job != workers[w].job
  }

  lemma {:induction false} HeldAtMostHolders(workers: seq<Worker>)
    requires AreOnDifferentTests(workers)
    ensures |HeldIndices(workers)| <= |HolderTests(workers)|
  {
    if workers != [] {
      HeldAtMostHolders(workers[1..]);
      if workers[0].HasPair() {
        HolderTestsAre(workers[1..], workers[0].job);
        assert forall w :: 0 <= w < |workers[1..]| ==> workers[1..][w] == workers[w + 1];
        assert workers[0].job !in HolderTests(workers[1..]);
      }
    }
  }

  ghost predicate HoldersRunTapTests(c: Config, s: State)
  {
    forall w :: 0 <= w < |s.workers| && s.workers[w].HasPair() ==> IsTapTest(c, s.workers[w].job)
  }

  lemma StepKeepsTapTests(c: Config, s: State, a: Action)
    requires HoldersRunTapTests(c, s) && Enabled(c, s, a)
    ensures HoldersRunTapTests(c, Apply(c, s, a))
  {
  }

  lemma {:induction false} RunKeepsTapTests(c: Config, s: State, actions: seq<Action>)
    requires HoldersRunTapTests(c, s) && IsRun(c, s, actions)
    ensures HoldersRunTapTests(c, After(c, s, actions))
    decreases |actions|
  {
    if actions != [] {
      StepKeepsTapTests(c, s, actions[0]);
      RunKeepsTapTests(c, Apply(c, s, actions[0]), actions[1..]);
    }
  }

  lemma ReachableTapTests(c: Config, s: State)
    requires IsReachable(c, s)
    ensures HoldersRunTapTests(c, s)
  {
    var actions :| IsRun(c, Initial(c), actions) && After(c, Initial(c), actions) == s;
    RunKeepsTapTests(c, Initial(c), actions);
  }

  /** A worker without a pair leaves one tap test that holds none. */
  lemma FewHolders(c: Config, s: State, w: nat)
    requires Inv(c, s) && HoldersRunTapTests(c, s)
    requires w < |s.workers| && s.workers[w].Inside? && !s.workers[w].HasPair() && IsTapTest(c, s.workers[w].job)
    ensures |HeldIndices(s.workers)| <= |TapTests(c.kinds)| - 1
  {
    var all, mine := Members(TapTests(c.kinds)), s.workers[w].job;
    TapTestsAre(c.kinds);
    MembersCount(TapTests(c.kinds));
    HeldAtMostHolders(s.workers);
    forall j | j in HolderTests(s.workers) ensures j in all - {mine} {
      HolderTestsAre(s.workers, j);
    }
    SubsetIsSmaller(HolderTests(s.workers), all - {mine});
  }

  ghost predicate HasEnoughPairs(c: Config)
  {
    var valid := ValidPairs(c.jobs, c.tapExists);
    c.threads <= |valid| || |TapTests(c.kinds)| <= |valid|
  }

  /**
   * With a pair per worker or a pair per tap test, an allocation always finds a free pair, whatever taps are missing.
   */
  lemma AllocationSucceeds(c: Config, s: State, w: nat)
    requires IsReachable(c, s) && Enabled(c, s, Allocate(w)) && HasEnoughPairs(c)
    ensures Initialised(s.pool, c.jobs, c.tapExists) != []
    ensures Apply(c, s, Allocate(w)).workers[w].HasPair()
  {
    ReachableInv(c, s);
    ReachableTapTests(c, s);
    var valid, f := ValidPairs(c.jobs, c.tapExists), s.(pool := Some(Initialised(s.pool, c.jobs, c.tapExists)));
    FilledPoolIsConserved(c, s);
    if f.pool.value == [] {
      forall i | i in Members(valid) ensures i in HeldIndices(s.workers) {
        assert IsHeld(f, i);
        HeldIndicesAre(s.workers, i);
      }
      MembersCount(valid);
      SubsetIsSmaller(Members(valid), HeldIndices(s.workers));
      FewHeldIndices(s.workers, w);
      FewHolders(c, s, w);
    }
  }

  /** The first `k` workers are inside the first `k` tap tests with a pair each; the others have not begun. */
  ghost predicate HasHandedOut(c: Config, s: State, k: nat)
  {
    var valid, tests := ValidPairs(c.jobs, c.tapExists), TapTests(c.kinds);
    && IsReachable(c, s) && !s.shutdown && |s.workers| == c.threads && |s.jobs| == |c.kinds|
    && k <= |valid| && Initialised(s.pool, c.jobs, c.tapExists) == valid[..|valid| - k]
    && (forall w :: k <= w < |s.workers| ==> s.workers[w].Idle?)
    && (forall i :: k <= i < |tests| ==> tests[i] < |s.jobs| && s.jobs[tests[i]].Todo?)
  }

  lemma TapTestAt(c: Config, i: nat)
    requires i < |TapTests(c.kinds)|
    ensures IsTapTest(c, TapTests(c.kinds)[i])
  {
    TapTestsAre(c.kinds);
    assert TapTests(c.kinds)[i] in TapTests(c.kinds);
  }

  lemma {:induction false} HandOut(c: Config, k: nat) returns (s: State)
    requires k <= |ValidPairs(c.jobs, c.tapExists)| && k <= c.threads && k <= |TapTests(c.kinds)|
    ensures HasHandedOut(c, s, k)
  {
    var valid, tests := ValidPairs(c.jobs, c.tapExists), TapTests(c.kinds);
    TapTestsAre(c.kinds);
    if k == 0 {
      InitialIsReachable(c);
      s := Initial(c);
      forall i | 0 <= i < |tests| ensures tests[i] < |s.jobs| && s.jobs[tests[i]].Todo? {
        TapTestAt(c, i);
      }
      assert valid[..|valid|] == valid;
    } else {
      var t := HandOut(c, k - 1);
      var n := |valid| - k;
      assert valid[..n + 1] == valid[..n] + [valid[n]];
      TapTestAt(c, k - 1);
      s := StartTest(c, t, k - 1, tests[k - 1], valid[..n], valid[n]);
    }
  }

  /** With fewer pairs than workers and than tap tests, some schedule makes an allocation fail. */
  lemma AllocationCanFail(c: Config) returns (s: State, w: nat)
    requires !HasEnoughPairs(c)
    ensures IsReachable(c, s) && Enabled(c, s, Allocate(w))
    ensures Apply(c, s, Allocate(w)).workers[w].leaving == Some(Fail("failed to allocate tap devices"))
  {
    w := |ValidPairs(c.jobs, c.tapExists)|;
    var t := HandOut(c, w);
    TapTestAt(c, w);
    s := BeginTest(c, t, w, TapTests(c.kinds)[w]);
  }

  /** Allocation never fails exactly when there is a pair for each worker or for each tap test. */
  lemma AllocationNeverFails(c: Config)
    ensures (forall s, w: nat ::
               IsReachable(c, s) && Enabled(c, s, Allocate(w)) ==> Apply(c, s, Allocate(w)).workers[w].HasPair())
       <==> HasEnoughPairs(c)
  {
    if HasEnoughPairs(c) {
      forall s, w: nat | IsReachable(c, s) && Enabled(c, s, Allocate(w))
        ensures Apply(c, s, Allocate(w)).workers[w].HasPair()
      {
        AllocationSucceeds(c, s, w);
      }
    } else {
      var s, w := AllocationCanFail(c);
    }
  }

  /** `TEST_JOBS=0` lets rayon choose the number of workers but leaves the pool empty: every allocation fails. */
  lemma ZeroJobsNeverAllocate(c: Config, s: State, w: nat)
    requires IsReachable(c, s) && Enabled(c, s, Allocate(w)) && c.jobs == 0
    ensures Apply(c, s, Allocate(w)).workers[w].leaving == Some(Fail("failed to allocate tap devices"))
  {
    ReachableInv(c, s);
    FilledPoolIsConserved(c, s);
    var free := Initialised(s.pool, c.jobs, c.tapExists);
    if free != [] {
      HasMember(free);
    }
  }

  lemma HasMember(free: seq<nat>)
    requires free != []
    ensures exists i :: i in free
  {
    assert free[0] in free;
  }
}
