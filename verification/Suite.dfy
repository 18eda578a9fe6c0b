/**
 * The concurrent run as a state machine: workers take scheduled tests, check the shutdown flag, and run scripts
 * that allocate tap pairs and own QEMU processes. Every action is one atomic step of one participant.
 */
module Suite {
  import opened Wrappers
  import opened Junit
  import opened TapPool

  /** A tap test is the live migration of the operating system; a plain test uses no tap device. */
  datatype Kind = TapTest | PlainTest

  /** `tapExists` is what the pool sees when it is initialised. */
  datatype Config = Config(kinds: seq<Kind>, threads: nat, jobs: nat, tapExists: string -> bool)

  datatype JobState = Todo | Taken(worker: nat) | Done(outcome: Outcome)

  type Pid = nat

  /**
   * A worker between tests, past taking one, past the shutdown check, or inside the test function. There, `leaving`
   * is set once the body has returned and its locals are being dropped.
   */
  datatype Worker =
    | Idle
    | Claimed(job: nat)
    | Cleared(job: nat)
    | Inside(job: nat, pair: Option<nat>, src: Option<Pid>, dst: Option<Pid>, leaving: Option<Outcome>)
  {
    predicate Holds(i: nat) { Inside? && pair == Some(i) }

    predicate HasPair() { Inside? && pair.Some? }

    predicate IsOn(j: nat) { !Idle? && job == j }
  }

  /** A live process on a tap device; without an owner it has been leaked. */
  datatype Qemu = Qemu(tap: nat, owner: Option<nat>)

  datatype State = State(jobs: seq<JobState>, workers: seq<Worker>, pool: Option<seq<nat>>,
                         live: map<Pid, Qemu>, nextPid: Pid, shutdown: bool)

  /** A spawn can fail before the child exists, or after: then nobody owns the child. */
  datatype SpawnResult = Started | NeverStarted | Abandoned

  datatype Action =
    | Interrupt
    | Claim(w: nat, j: nat)
    | CheckFlag(w: nat)
    | Invoke(w: nat)
    | Allocate(w: nat)
    | Spawn(w: nat, how: SpawnResult)
    | Complete(w: nat)
    | Error(w: nat, message: string)
    | Drop(w: nat, gaveUp: bool)
    | Report(w: nat)
    | Exit(pid: Pid)

  function Initial(c: Config): State
  {
    State(seq(|c.kinds|, k => Todo), seq(c.threads, k => Idle), None, map[], 0, false)
  }

  // Actions

  predicate InBody(s: State, w: nat)
  {
    w < |s.workers| && s.workers[w].Inside? && s.workers[w].leaving.None?
  }

  predicate IsLeaving(s: State, w: nat)
  {
    w < |s.workers| && s.workers[w].Inside? && s.workers[w].leaving.Some?
  }

  predicate IsTapTest(c: Config, j: nat) { j < |c.kinds| && c.kinds[j].TapTest? }

  predicate Enabled(c: Config, s: State, a: Action)
  {
    match a
    case Interrupt => true
    case Claim(w, j) => w < |s.workers| && s.workers[w].Idle? && j < |s.jobs| && s.jobs[j].Todo?
    case CheckFlag(w) => w < |s.workers| && s.workers[w].Claimed? && s.workers[w].job < |s.jobs|
    case Invoke(w) => w < |s.workers| && s.workers[w].Cleared?
    case Allocate(w) => InBody(s, w) && IsTapTest(c, s.workers[w].job) && s.workers[w].pair.None?
    case Spawn(w, _) => InBody(s, w) && s.workers[w].pair.Some? && (s.workers[w].src.None? || s.workers[w].dst.None?)
    case Complete(w) =>
      InBody(s, w) && (IsTapTest(c, s.workers[w].job) ==>
                         s.workers[w].pair.Some? && s.workers[w].src.Some? && s.workers[w].dst.Some?)
    case Error(w, _) => InBody(s, w)
    case Drop(w, gaveUp) =>
      IsLeaving(s, w)
      && (if gaveUp then s.workers[w].dst.Some? || s.workers[w].src.Some?
          else s.workers[w].dst.Some? || s.workers[w].src.Some? || s.workers[w].pair.Some?)
    case Report(w) =>
      IsLeaving(s, w) && s.workers[w].dst.None? && s.workers[w].src.None? && s.workers[w].pair.None?
      && s.workers[w].job < |s.jobs|
    case Exit(pid) => pid in s.live
  }

  function WithWorker(s: State, w: nat, worker: Worker): State
    requires w < |s.workers|
  {
    s.(workers := s.workers[w := worker])
  }

  /** The body returns with an error. */
  function Leave(s: State, w: nat, outcome: Outcome): State
    requires InBody(s, w)
  {
    WithWorker(s, w, s.workers[w].(leaving := Some(outcome)))
  }

  function AfterAllocate(c: Config, s: State, w: nat): State
    requires InBody(s, w)
  {
    var free := Initialised(s.pool, c.jobs, c.tapExists);
    if free == [] then Leave(s.(pool := Some([])), w, Fail("failed to allocate tap devices"))
    else WithWorker(s.(pool := Some(free[..|free| - 1])), w, s.workers[w].(pair := Some(free[|free| - 1])))
  }

  /** The source is spawned on the first tap of the pair, then the destination on the second. */
  function NextTap(worker: Worker): nat
    requires worker.Inside? && worker.pair.Some?
  {
    if worker.src.None? then SrcTap(worker.pair.value) else DstTap(worker.pair.value)
  }

  function SpawnError(worker: Worker): string
    requires worker.Inside?
  {
    if worker.src.None? then "failed to spawn source VM" else "failed to spawn destination VM"
  }

  function AfterSpawn(s: State, w: nat, how: SpawnResult): State
    requires InBody(s, w) && s.workers[w].pair.Some?
  {
    var worker := s.workers[w];
    match how
    case Started =>
      var s' := s.(live := s.live[s.nextPid := Qemu(NextTap(worker), Some(w))], nextPid := s.nextPid + 1);
      WithWorker(s', w, if worker.src.None? then worker.(src := Some(s.nextPid)) else worker.(dst := Some(s.nextPid)))
    case NeverStarted => Leave(s, w, Fail(SpawnError(worker)))
    case Abandoned =>
      var s' := s.(live := s.live[s.nextPid := Qemu(NextTap(worker), None)], nextPid := s.nextPid + 1);
      Leave(s', w, Fail(SpawnError(worker)))
  }

  /** The drop of a process: it is reaped, or left alone when asking for its state fails. */
  function AfterTeardown(live: map<Pid, Qemu>, pid: Pid, gaveUp: bool): map<Pid, Qemu>
  {
    if gaveUp && pid in live then live[pid := live[pid].(owner := None)] else live - {pid}
  }

  /** Locals are dropped in reverse order: destination, source, tap pair. */
  function AfterDrop(s: State, w: nat, gaveUp: bool): State
    requires IsLeaving(s, w)
    requires s.workers[w].dst.Some? || s.workers[w].src.Some? || s.workers[w].pair.Some?
  {
    var worker := s.workers[w];
    if worker.dst.Some? then
      WithWorker(s.(live := AfterTeardown(s.live, worker.dst.value, gaveUp)), w, worker.(dst := None))
    else if worker.src.Some? then
      WithWorker(s.(live := AfterTeardown(s.live, worker.src.value, gaveUp)), w, worker.(src := None))
    else
      WithWorker(s.(pool := Returned(s.pool, worker.pair.value)), w, worker.(pair := None))
  }

  function Apply(c: Config, s: State, a: Action): State
    requires Enabled(c, s, a)
  {
    match a
    case Interrupt => s.(shutdown := true)
    case Claim(w, j) => WithWorker(s.(jobs := s.jobs[j := Taken(w)]), w, Claimed(j))
    case CheckFlag(w) =>
      if s.shutdown then WithWorker(s.(jobs := s.jobs[s.workers[w].job := Done(Fail("interrupted"))]), w, Idle)
      else WithWorker(s, w, Cleared(s.workers[w].job))
    case Invoke(w) => WithWorker(s, w, Inside(s.workers[w].job, None, None, None, None))
    case Allocate(w) => AfterAllocate(c, s, w)
    case Spawn(w, how) => AfterSpawn(s, w, how)
    case Complete(w) => Leave(s, w, Pass)
    case Error(w, message) => Leave(s, w, Fail(message))
    case Drop(w, gaveUp) => AfterDrop(s, w, gaveUp)
    case Report(w) => WithWorker(s.(jobs := s.jobs[s.workers[w].job := Done(s.workers[w].leaving.value)]), w, Idle)
    case Exit(pid) => s.(live := s.live - {pid})
  }

  // Runs

  ghost predicate IsRun(c: Config, s: State, actions: seq<Action>)
    decreases |actions|
  {
    actions == [] || (Enabled(c, s, actions[0]) && IsRun(c, Apply(c, s, actions[0]), actions[1..]))
  }

  ghost function After(c: Config, s: State, actions: seq<Action>): State
    requires IsRun(c, s, actions)
    decreases |actions|
  {
    if actions == [] then s else After(c, Apply(c, s, actions[0]), actions[1..])
  }
}
