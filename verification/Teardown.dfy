/** Ending a QEMU process: `quit_and_wait` and the drop of `QemuProcess`. Times are in milliseconds. */
module Teardown {

  datatype ChildState = Running | Exited | Reaped

  datatype WaitResult = Ended | Alive | WaitError

  /** A child process as `std::process::Child` handles it; kill is effective. */
  class Child {
    var state: ChildState
    /** Signals that were really sent. */
    var signals: nat

    constructor ()
      ensures state == Running && signals == 0
    {
      state, signals := Running, 0;
    }

    /** A reaped child is not signalled any more: its process number may be in use again. */
    method Kill()
      modifies this
      ensures state == if old(state) == Running then Exited else old(state)
      ensures signals == if old(state) == Reaped then old(signals) else old(signals) + 1
    {
      if state != Reaped {
        signals := signals + 1;
        state := Exited;
      }
    }

    /**
     * `exits`: the child has ended by now; `fails`: asking the system fails. A known status is answered from memory.
     */
    method TryWait(exits: bool, fails: bool) returns (r: WaitResult)
      modifies this
      ensures signals == old(signals)
      ensures r == if old(state) == Reaped then Ended
                   else if fails then WaitError
                   else if old(state) == Exited || exits then Ended
                   else Alive
      ensures state == if r == Ended then Reaped else old(state)
    {
      if state == Reaped {
        return Ended;
      }
      if fails {
        return WaitError;
      }
      if state == Running && exits {
        state := Exited;
      }
      if state == Exited {
        state := Reaped;
        return Ended;
      }
      return Alive;
    }

    /** Blocks until the child has ended; called only after an effective kill. */
    method Wait()
      requires state != Running
      modifies this
      ensures state == Reaped && signals == old(signals)
    {
      state := Reaped;
    }
  }

  /**
   * What happens around one polling loop: whether QMP `quit` is answered, and for the k-th poll whether the child has
   * ended on its own, whether `try_wait` fails, and the time since the loop began.
   */
  datatype Environment = Environment(quitAnswered: bool, ended: nat -> bool, waitFails: nat -> bool,
                                     elapsed: nat -> nat)

  /** Each sleep advances the clock by at least its length. */
  ghost predicate Advances(env: Environment, sleep: nat)
  {
    forall k: nat :: env.elapsed(k + 1) >= env.elapsed(k) + sleep
  }

  lemma {:induction false} ElapsedAtLeast(env: Environment, sleep: nat, k: nat)
    requires Advances(env, sleep)
    ensures env.elapsed(k) >= sleep * k
  {
    if k > 0 {
      ElapsedAtLeast(env, sleep, k - 1);
      assert env.elapsed(k - 1 + 1) >= env.elapsed(k - 1) + sleep;
    }
  }

  const DROP_KILL_TIMEOUT: nat := 10_000

  /** The k-th poll ends the loop: the child is known to be dead, asking fails, or time is up. */
  ghost predicate Stops(env: Environment, dead: bool, timeout: nat, k: nat)
  {
    dead || env.ended(k) || env.waitFails(k) || env.elapsed(k) > timeout
  }

  ghost predicate FirstStop(env: Environment, dead: bool, timeout: nat, k: nat)
  {
    Stops(env, dead, timeout, k) && forall j: nat :: j < k ==> !Stops(env, dead, timeout, j)
  }

  /** The k-th poll is the last, and it finds the child ended. */
  ghost predicate FindsEnded(env: Environment, before: ChildState, timeout: nat, k: nat)
  {
    && FirstStop(env, before != Running, timeout, k)
    && (before == Reaped || (!env.waitFails(k) && (before == Exited || env.ended(k))))
  }

  ghost predicate EndsInTime(env: Environment, before: ChildState, timeout: nat)
  {
    env.quitAnswered && exists k :: FindsEnded(env, before, timeout, k)
  }

  /** There is one such poll. */
  lemma StopDecides(env: Environment, before: ChildState, timeout: nat, k: nat)
    requires env.quitAnswered && FirstStop(env, before != Running, timeout, k)
    ensures EndsInTime(env, before, timeout) <==> FindsEnded(env, before, timeout, k)
  {
    if j: nat :| FindsEnded(env, before, timeout, j) {
      assert j < k ==> !Stops(env, before != Running, timeout, j);
      assert k < j ==> !Stops(env, before != Running, timeout, k);
    }
  }

  class QemuProcess {
    const child: Child
    /** The accelerator does not support a graceful shutdown. */
    const mshv: bool

    constructor (mshv: bool)
      ensures this.mshv == mshv && fresh(child) && child.state == Running && child.signals == 0
    {
      this.mshv := mshv;
      this.child := new Child();
    }

    /**
     * The drop: quit or kill, then poll until the child is reaped, time is up, or asking fails. It kills at once unless
     * quit was answered, and otherwise only a child that the last poll found alive.
     */
    method Drop(env: Environment) returns (polls: nat, gaveUp: bool)
      requires Advances(env, 100)
      modifies child
      ensures 1 <= polls <= 102
      ensures FirstStop(env, old(child.state) != Running || mshv || !env.quitAnswered, DROP_KILL_TIMEOUT, polls - 1)
      ensures gaveUp <==> old(child.state) != Reaped && env.waitFails(polls - 1)
      ensures child.state == if !gaveUp then Reaped
                             else if mshv || !env.quitAnswered then Exited
                             else old(child.state)
      ensures var atOnce := old(child.state) != Reaped && (mshv || !env.quitAnswered);
        var atLast := old(child.state) == Running && !atOnce && !env.ended(polls - 1) && !env.waitFails(polls - 1);
        child.signals == old(child.signals) + (if atOnce then 1 else 0) + (if atLast then 1 else 0)
    {
      if mshv || !env.quitAnswered {
        child.Kill();
      }
      polls, gaveUp := 0, false;
      ghost var dead := child.state != Running;
      while true
        invariant polls <= 101
        invariant dead == (old(child.state) != Running || mshv || !env.quitAnswered)
        invariant dead == (child.state != Running) && (child.state == Reaped <==> old(child.state) == Reaped)
        invariant forall j: nat :: j < polls ==> !Stops(env, dead, DROP_KILL_TIMEOUT, j)
        invariant child.state == if old(child.state) == Running && (mshv || !env.quitAnswered) then Exited
                                 else old(child.state)
        invariant child.signals == old(child.signals)
                                   + if old(child.state) != Reaped && (mshv || !env.quitAnswered) then 1 else 0
        decreases 101 - polls
      {
        var k := polls;
        polls := polls + 1;
        ElapsedAtLeast(env, 100, k);
        var r := child.TryWait(env.ended(k), env.waitFails(k));
        match r {
          case Ended => return;
          case Alive =>
            if env.elapsed(k) > DROP_KILL_TIMEOUT {
              child.Kill();
              child.Wait();
              return;
            }
          case WaitError =>
            gaveUp := true;
            return;
        }
      }
    }

    /** `quit_and_wait` up to its return, before the process value is dropped. */
    method QuitAndWait(timeout: nat, env: Environment) returns (ok: bool, polls: nat)
      requires Advances(env, 50)
      modifies child
      ensures ok <==> EndsInTime(env, old(child.state), timeout)
      ensures ok ==> child.state == Reaped && env.quitAnswered && polls > 0
      ensures child.signals == old(child.signals)
                               + if !ok && env.quitAnswered && polls > 0 && !env.waitFails(polls - 1) then 1 else 0
      ensures env.quitAnswered ==> polls > 0 && FirstStop(env, old(child.state) != Running, timeout, polls - 1)
      ensures !env.quitAnswered ==> polls == 0 && child.state == old(child.state)
      ensures env.quitAnswered && old(child.state) != Reaped && !env.waitFails(polls - 1) ==>
                child.state == Reaped && (ok <==> old(child.state) == Exited || env.ended(polls - 1))
    {
      polls := 0;
      if !env.quitAnswered {
        return false, 0;
      }
      ghost var dead := child.state != Running;
      while true
        invariant polls == 0 || env.elapsed(polls - 1) <= timeout
        invariant child.state == old(child.state) && child.signals == old(child.signals)
        invariant forall j: nat :: j < polls ==> !Stops(env, dead, timeout, j)
        decreases timeout + 1 - if polls == 0 then -1 else env.elapsed(polls - 1)
      {
        var k := polls;
        polls := polls + 1;
        assert k > 0 ==> env.elapsed(k - 1 + 1) >= env.elapsed(k - 1) + 50;
        var r := child.TryWait(env.ended(k), env.waitFails(k));
        match r {
          case Ended =>
            StopDecides(env, old(child.state), timeout, k);
            return true, polls;
          case Alive =>
            if env.elapsed(k) > timeout {
              StopDecides(env, old(child.state), timeout, k);
              child.Kill();
              child.Wait();
              return false, polls;
            }
          case WaitError =>
            StopDecides(env, old(child.state), timeout, k);
            return false, polls;
        }
      }
    }

    /** The whole call: `self` is consumed, so it is dropped on return. */
    method Quit(timeout: nat, env: Environment, dropEnv: Environment) returns (ok: bool, gaveUp: bool)
      requires Advances(env, 50) && Advances(dropEnv, 100)
      modifies child
      ensures ok <==> EndsInTime(env, old(child.state), timeout)
      ensures !gaveUp ==> child.state == Reaped
      ensures ok ==> child.state == Reaped && !gaveUp && child.signals == old(child.signals)
    {
      var polls;
      ok, polls := QuitAndWait(timeout, env);
      polls, gaveUp := Drop(dropEnv);
    }
  }

  /** The bound of 102 polls is reached by a child that never ends, with exact sleeps. */
  lemma DropBoundIsTight()
    ensures var env := Environment(true, k => false, k => false, k => 100 * k);
      Advances(env, 100) && FirstStop(env, false, DROP_KILL_TIMEOUT, 101)
  {
  }
}
