/** What every interleaving of the moves keeps. */
module Scheduler {
  import opened Common
  import opened ProcStates
  import opened SchedulerState

  lemma ProcFacts(s: State, p: nat)
    requires s.Threads() && p < |s.procs|
    ensures s.ProcOk(p)
  {
  }

  lemma ForkFacts(s: State, p: nat)
    requires s.Threads() && p < |s.procs|
    ensures s.ForkOk(p)
  {
  }

  lemma CpuFacts(s: State, c: nat)
    requires s.Threads() && c < |s.cpus|
    ensures s.CpuOk(c)
  {
  }

  lemma SchedProc(s: State, step: Step, p: nat)
    requires s.Threads() && OfScheduler(step) && SchedEnabled(s, step) && p < |s.procs|
    ensures SchedResult(s, step).ProcOk(p)
  {
    hide State.Threads, Interruptible;
    ProcFacts(s, p);
    CpuFacts(s, step.c);
  }

  lemma SchedCpu(s: State, step: Step, k: nat)
    requires s.Threads() && OfScheduler(step) && SchedEnabled(s, step) && k < |s.cpus|
    ensures SchedResult(s, step).CpuOk(k)
  {
    hide State.ForkOk, Interruptible;
    assert s.CpuOk(k) && s.CpuOk(step.c);
    var r := SchedResult(s, step);
    if !r.cpus[k].pc.Idle? && r.cpus[k].pc.p < |s.procs| {
      assert s.ProcOk(r.cpus[k].pc.p);
    }
  }

  /** A move by process `p` that changes itself and perhaps process `q`: of `q` nothing that matters to
      a CPU unless its lock is free. */
  ghost predicate Touches(s: State, r: State, p: nat, q: nat) {
    && Runs(s, p) && q < |s.procs| && r.cpus == s.cpus && |r.procs| == |s.procs|
    && (forall o | 0 <= o < |s.procs| && o != p && o != q :: r.procs[o] == s.procs[o])
    && Fits(p, r.procs[p], s.cpus) && Fits(q, r.procs[q], s.cpus)
    && var x, y := s.procs[p], r.procs[p];
    && y.cpu == x.cpu && (y.lock == x.lock || x.lock.None? || x.lock == x.cpu)
    && (q != p ==> SameThread(s.procs[q], r.procs[q]) || Aside(s.procs[q], r.procs[q]))
  }

  predicate SameThread(x: Proc, y: Proc) {
    y == x.(parent := y.parent)
  }

  predicate Aside(x: Proc, y: Proc) {
    x.lock.None? && y.lock.None? && y.cpu == x.cpu
  }

  lemma TouchCpu(s: State, r: State, p: nat, q: nat, k: nat)
    requires s.Threads() && Touches(s, r, p, q) && k < |s.cpus|
    ensures r.CpuOk(k)
  {
    hide State.ForkOk, WellPc, StateFits, Interruptible;
    assert s.CpuOk(k) && s.ProcOk(p);
    if !s.cpus[k].pc.Idle? {
      assert s.ProcOk(s.cpus[k].pc.p);
    }
  }

  lemma TouchKeeps(s: State, r: State, p: nat, q: nat)
    requires s.Threads() && Touches(s, r, p, q)
    ensures forall o | 0 <= o < |r.procs| :: r.ProcOk(o)
    ensures forall k | 0 <= k < |r.cpus| :: r.CpuOk(k)
  {
    hide State.ForkOk, Fits;
    forall o | 0 <= o < |r.procs| ensures r.ProcOk(o) {
      assert s.ProcOk(o);
    }
    forall k | 0 <= k < |r.cpus| ensures r.CpuOk(k) {
      TouchCpu(s, r, p, q, k);
    }
  }

  lemma SwitchTouches(s: State, step: Step)
    requires s.Threads() && OfSwitch(step) && SwitchEnabled(s, step) && !step.SwitchOut?
    ensures Touches(s, SwitchResult(s, step), step.p, step.p)
  {
    hide State.Threads;
    ProcFacts(s, step.p);
  }

  lemma SleepTouches(s: State, step: Step)
    requires s.Threads() && OfSleep(step) && SleepEnabled(s, step)
    ensures Touches(s, SleepResult(s, step), step.p, step.p)
  {
    hide State.Threads;
    ProcFacts(s, step.p);
  }

  lemma WakeNextTouches(s: State, step: Step)
    requires s.Threads() && OfWake(step) && WakeEnabled(s, step) && step.WakeNext?
    ensures Touches(s, WakeResult(s, step), step.p, s.procs[step.p].pc.i)
  {
    hide State.Threads;
    ProcFacts(s, step.p);
    ProcFacts(s, s.procs[step.p].pc.i);
  }

  lemma WakeTouches(s: State, step: Step)
    requires s.Threads() && OfWake(step) && WakeEnabled(s, step) && !step.WakeNext?
    ensures Touches(s, WakeResult(s, step), step.p, if step.Kill? then step.q else step.p)
  {
    hide State.Threads;
    ProcFacts(s, step.p);
    if step.Kill? {
      ProcFacts(s, step.q);
    }
  }

  lemma ForkAllocTouches(s: State, step: Step)
    requires s.Threads() && OfFork(step) && ForkEnabled(s, step) && step.ForkAlloc?
    ensures Touches(s, ForkResult(s, step), step.p, step.q)
  {
    hide State.Threads;
    var q := step.q;
    ProcFacts(s, step.p);
    ProcFacts(s, q);
  }

  lemma ForkParentTouches(s: State, step: Step)
    requires s.Threads() && OfFork(step) && ForkEnabled(s, step) && step.ForkSetParent?
    ensures Touches(s, ForkResult(s, step), step.p, s.procs[step.p].pc.q)
  {
    hide State.Threads;
    var q := s.procs[step.p].pc.q;
    ForkFacts(s, step.p);
    ProcFacts(s, step.p);
    ProcFacts(s, q);
  }

  lemma ForkStartTouches(s: State, step: Step)
    requires s.Threads() && OfFork(step) && ForkEnabled(s, step) && step.ForkStart?
    ensures Touches(s, ForkResult(s, step), step.p, s.procs[step.p].pc.q)
  {
    hide State.Threads;
    var q := s.procs[step.p].pc.q;
    ForkFacts(s, step.p);
    ProcFacts(s, step.p);
    ProcFacts(s, q);
  }

  lemma WaitNextTouches(s: State, step: Step)
    requires s.Threads() && OfWait(step) && WaitEnabled(s, step) && step.WaitNext?
    ensures Touches(s, WaitResult(s, step), step.p, s.procs[step.p].pc.i)
  {
    hide State.Threads;
    var q := s.procs[step.p].pc.i;
    ProcFacts(s, step.p);
    ProcFacts(s, q);
  }

  lemma WaitTouches(s: State, step: Step)
    requires s.Threads() && OfWait(step) && WaitEnabled(s, step) && !step.WaitNext?
    ensures Touches(s, WaitResult(s, step), step.p, step.p)
  {
    hide State.Threads;
    ProcFacts(s, step.p);
  }

  lemma ReparentTouches(s: State, step: Step)
    requires s.Threads() && OfExit(step) && ExitEnabled(s, step) && step.ReparentNext?
    requires s.procs[step.p].pc.i < |s.procs|
    ensures Touches(s, ExitResult(s, step), step.p, s.procs[step.p].pc.i)
  {
    hide State.Threads;
    var q := s.procs[step.p].pc.i;
    ProcFacts(s, step.p);
    ProcFacts(s, q);
  }

  lemma ExitTouches(s: State, step: Step)
    requires s.Threads() && OfExit(step) && ExitEnabled(s, step)
    requires step.ReparentNext? ==> s.procs[step.p].pc.i >= |s.procs|
    ensures Touches(s, ExitResult(s, step), step.p, step.p)
  {
    hide State.Threads;
    ProcFacts(s, step.p);
  }

  lemma SwitchOutProc(s: State, p: nat, o: nat)
    requires s.Threads() && SwitchEnabled(s, SwitchOut(p)) && o < |s.procs|
    ensures SwitchResult(s, SwitchOut(p)).ProcOk(o)
  {
    assert s.ProcOk(p) && s.ProcOk(o);
  }

  lemma SwitchOutCpu(s: State, p: nat, k: nat)
    requires s.Threads() && SwitchEnabled(s, SwitchOut(p)) && k < |s.cpus|
    ensures SwitchResult(s, SwitchOut(p)).CpuOk(k)
  {
    assert s.ProcOk(p) && s.CpuOk(k) && s.CpuOk(s.procs[p].cpu.value);
    if !s.cpus[k].pc.Idle? {
      assert s.ProcOk(s.cpus[k].pc.p);
    }
  }

  // Children being set up.

  ghost predicate Calm(x: Proc, y: Proc) {
    && (ChildOf(y.pc) == ChildOf(x.pc) || ChildOf(y.pc) == None)
    && (x.state == USED ==> y.state == USED)
  }

  ghost predicate AllCalm(s: State, r: State) {
    |r.procs| == |s.procs| && forall o | 0 <= o < |s.procs| :: Calm(s.procs[o], r.procs[o])
  }

  lemma CalmForks(s: State, r: State)
    requires s.Threads() && AllCalm(s, r)
    ensures forall p | 0 <= p < |r.procs| :: r.ForkOk(p)
  {
    hide State.ProcOk, State.CpuOk;
    forall p | 0 <= p < |r.procs| ensures r.ForkOk(p) {
      assert s.ForkOk(p);
      if r.Child(p).Some? {
        assert Calm(s.procs[p], r.procs[p]);
        assert Calm(s.procs[s.Child(p).value], r.procs[s.Child(p).value]);
        forall o | 0 <= o < |r.procs| && o != p ensures r.Child(o) != r.Child(p) {
          assert s.Child(o) != s.Child(p);
          assert Calm(s.procs[o], r.procs[o]);
        }
      }
    }
  }

  lemma SchedCalm(s: State, step: Step)
    requires s.Threads() && OfScheduler(step) && SchedEnabled(s, step)
    ensures AllCalm(s, SchedResult(s, step))
  {
    hide State.Threads;
  }

  lemma SwitchCalm(s: State, step: Step)
    requires s.Threads() && OfSwitch(step) && SwitchEnabled(s, step)
    ensures AllCalm(s, SwitchResult(s, step))
  {
    hide State.Threads;
    ProcFacts(s, step.p);
  }

  lemma SleepCalm(s: State, step: Step)
    requires s.Threads() && OfSleep(step) && SleepEnabled(s, step)
    ensures AllCalm(s, SleepResult(s, step))
  {
    hide State.Threads;
    ProcFacts(s, step.p);
  }

  lemma WakeCalm(s: State, step: Step)
    requires s.Threads() && OfWake(step) && WakeEnabled(s, step)
    ensures AllCalm(s, WakeResult(s, step))
  {
    hide State.Threads;
    ProcFacts(s, step.p);
  }

  lemma WaitCalm(s: State, step: Step)
    requires s.Threads() && OfWait(step) && WaitEnabled(s, step)
    ensures AllCalm(s, WaitResult(s, step))
  {
    hide State.Threads;
    ProcFacts(s, step.p);
  }

  lemma ExitCalm(s: State, step: Step)
    requires s.Threads() && OfExit(step) && ExitEnabled(s, step)
    ensures AllCalm(s, ExitResult(s, step))
  {
    hide State.Threads;
    ProcFacts(s, step.p);
  }

  lemma ForkForks(s: State, step: Step, o: nat)
    requires s.Threads() && OfFork(step) && ForkEnabled(s, step) && o < |s.procs|
    ensures ForkResult(s, step).ForkOk(o)
  {
    hide State.CpuOk;
    var r := ForkResult(s, step);
    assert s.ForkOk(o) && s.ForkOk(step.p) && s.ProcOk(step.p) && s.ProcOk(o);
    if r.Child(o).Some? {
      forall k | 0 <= k < |r.procs| && k != o ensures r.Child(k) != r.Child(o) {
        assert s.ForkOk(k) && s.ProcOk(k);
        assert o != step.p && k != step.p ==> s.Child(o) != s.Child(k);
      }
    }
  }

  // Every move keeps the order of locks and threads.

  lemma FromTouch(s: State, r: State, p: nat, q: nat)
    requires s.Threads() && Touches(s, r, p, q) && AllCalm(s, r)
    ensures r.Threads()
  {
    hide Touches, AllCalm, State.ProcOk, State.CpuOk, State.ForkOk;
    TouchKeeps(s, r, p, q);
    CalmForks(s, r);
  }

  lemma SchedThreads(s: State, step: Step)
    requires s.Threads() && OfScheduler(step) && SchedEnabled(s, step)
    ensures SchedResult(s, step).Threads()
  {
    hide State.ProcOk, State.CpuOk, State.ForkOk, AllCalm;
    var r := SchedResult(s, step);
    forall p | 0 <= p < |r.procs| ensures r.ProcOk(p) {
      SchedProc(s, step, p);
    }
    forall c | 0 <= c < |r.cpus| ensures r.CpuOk(c) {
      SchedCpu(s, step, c);
    }
    SchedCalm(s, step);
    CalmForks(s, r);
  }

  lemma SwitchThreads(s: State, step: Step)
    requires s.Threads() && OfSwitch(step) && SwitchEnabled(s, step)
    ensures SwitchResult(s, step).Threads()
  {
    hide State.ProcOk, State.CpuOk, State.ForkOk, AllCalm, Touches;
    SwitchCalm(s, step);
    var r := SwitchResult(s, step);
    if step.SwitchOut? {
      forall p | 0 <= p < |r.procs| ensures r.ProcOk(p) {
        SwitchOutProc(s, step.p, p);
      }
      forall c | 0 <= c < |r.cpus| ensures r.CpuOk(c) {
        SwitchOutCpu(s, step.p, c);
      }
      CalmForks(s, r);
    } else {
      SwitchTouches(s, step);
      FromTouch(s, r, step.p, step.p);
    }
  }

  lemma ForkThreads(s: State, step: Step)
    requires s.Threads() && OfFork(step) && ForkEnabled(s, step)
    ensures ForkResult(s, step).Threads()
  {
    hide State.ProcOk, State.CpuOk, State.ForkOk, Touches;
    var r := ForkResult(s, step);
    match step {
      case ForkAlloc(p, q) =>
        ForkAllocTouches(s, step);
        TouchKeeps(s, r, p, q);
      case ForkSetParent(p) =>
        ForkParentTouches(s, step);
        TouchKeeps(s, r, p, s.procs[p].pc.q);
      case ForkStart(p) =>
        ForkStartTouches(s, step);
        TouchKeeps(s, r, p, s.procs[p].pc.q);
    }
    forall o | 0 <= o < |r.procs| ensures r.ForkOk(o) {
      ForkForks(s, step, o);
    }
  }

  lemma ThreadsKept(s: State, step: Step)
    requires s.Threads() && Enabled(s, step)
    ensures Result(s, step).Threads()
  {
    hide State.Threads, Touches, AllCalm, SchedResult, SwitchResult, SleepResult, WakeResult, ForkResult, WaitResult;
    hide ExitResult;
    if OfScheduler(step) {
      SchedThreads(s, step);
    } else if OfSwitch(step) {
      SwitchThreads(s, step);
    } else if OfSleep(step) {
      SleepCalm(s, step);
      SleepTouches(s, step);
      FromTouch(s, Result(s, step), step.p, step.p);
    } else if OfWake(step) {
      WakeCalm(s, step);
      if step.WakeNext? {
        WakeNextTouches(s, step);
        FromTouch(s, Result(s, step), step.p, s.procs[step.p].pc.i);
      } else {
        WakeTouches(s, step);
        FromTouch(s, Result(s, step), step.p, if step.Kill? then step.q else step.p);
      }
    } else if OfFork(step) {
      ForkThreads(s, step);
    } else if OfWait(step) {
      WaitCalm(s, step);
      if step.WaitNext? {
        WaitNextTouches(s, step);
        FromTouch(s, Result(s, step), step.p, s.procs[step.p].pc.i);
      } else {
        WaitTouches(s, step);
        FromTouch(s, Result(s, step), step.p, step.p);
      }
    } else {
      ExitCalm(s, step);
      if step.ReparentNext? && s.procs[step.p].pc.i < |s.procs| {
        ReparentTouches(s, step);
        FromTouch(s, Result(s, step), step.p, s.procs[step.p].pc.i);
      } else {
        ExitTouches(s, step);
        FromTouch(s, Result(s, step), step.p, step.p);
      }
    }
  }
}
