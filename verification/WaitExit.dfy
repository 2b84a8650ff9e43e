/** `wait`, `exit` and `reparent` under `wait_lock`: no parent sleeps through the end of a child. */
module WaitExit {
  import opened Common
  import opened ProcStates
  import opened Scheduler
  import opened SchedulerState

  /** Asleep in `wait`, or past the scan and on the way there. */
  predicate Dozing(x: Proc) {
    || (x.pc.Sleeping? && x.pc.wait)
    || x.pc == Switching(Sleep(true))
    || (x.pc == Parked(Sleep(true)) && x.state == SLEEPING)
  }

  predicate HoldsWait(pc: Pc) {
    || pc.WaitScan? || (pc.Sleeping? && pc.wait && !pc.released)
    || pc.Reparent? || (pc.Waking? && !pc.after.ToNormal?) || pc.ExitLock? || pc.ExitRelease?
  }

  /** A process waiting for a child sleeps on itself. */
  predicate ChanOk(p: nat, x: Proc) {
    && (x.pc.Sleeping? && x.pc.wait ==> x.pc.on == OfProc(p))
    && (Dozing(x) && !x.pc.Sleeping? ==> x.chan == Some(OfProc(p)))
  }

  predicate ZombieOf(s: State, q: nat, p: nat) {
    q < |s.procs| && s.procs[q].parent == Some(p) && s.procs[q].state == ZOMBIE
  }

  /** What the scan of `wait` has found out so far. */
  ghost predicate ScanOk(s: State, p: nat)
    requires p < |s.procs|
  {
    var pc := s.procs[p].pc;
    && (pc.WaitScan? ==> forall q | 0 <= q < pc.i :: !ZombieOf(s, q, p))
    && (pc.Sleeping? && pc.wait && !pc.released ==> forall q: nat :: !ZombieOf(s, q, p))
  }

  /** The parent of a process about to become a zombie has been woken, as far as the loop has got. */
  ghost predicate ExitOk(s: State, p: nat)
    requires p < |s.procs|
  {
    var pc, parent := s.procs[p].pc, s.procs[p].parent;
    && (pc.Waking? && pc.after.ToExit? ==>
          pc.chan == ChanOf(parent) && (parent.Some? && parent.value < pc.i ==> Awake(s, parent.value)))
    && ((pc.ExitLock? || pc.ExitRelease?) && parent.Some? ==> Awake(s, parent.value))
  }

  predicate Awake(s: State, p: nat) {
    p < |s.procs| ==> !Dozing(s.procs[p])
  }

  /** The holder of `wait_lock` is going to wake `p`. */
  predicate Coming(s: State, p: nat) {
    && s.waitLock.Some? && s.waitLock.value < |s.procs|
    && var pc := s.procs[s.waitLock.value].pc;
    && pc.Waking? && pc.after.ToReparent? && pc.chan == Some(OfProc(p)) && pc.i <= p
  }

  /** A dozing parent of a zombie is about to be woken. */
  ghost predicate NoLost(s: State) {
    forall p: nat, q: nat | p < |s.procs| && Dozing(s.procs[p]) && ZombieOf(s, q, p) :: Coming(s, p)
  }

  ghost predicate LockOk(s: State) {
    && (s.waitLock.Some? ==> s.waitLock.value < |s.procs|)
    && forall p | 0 <= p < |s.procs| :: HoldsWait(s.procs[p].pc) <==> s.waitLock == Some(p)
  }

  ghost predicate Waits(s: State) {
    && LockOk(s) && NoLost(s)
    && (forall p | 0 <= p < |s.procs| :: ChanOk(p, s.procs[p]))
    && (forall p | 0 <= p < |s.procs| :: ScanOk(s, p) && ExitOk(s, p))
  }

  /** Whenever `wait_lock` is free, no process asleep in `wait` has a child that is a zombie. */
  lemma NoLostWakeup(s: State, p: nat, q: nat)
    requires Waits(s) && s.waitLock.None? && p < |s.procs| && q < |s.procs|
    requires s.procs[p].pc == Parked(Sleep(true)) && s.procs[p].state == SLEEPING
    requires s.procs[q].parent == Some(p)
    ensures s.procs[q].state != ZOMBIE
  {
    assert ZombieOf(s, q, p) ==> Coming(s, p);
  }

  // Moves that do not matter here.

  predicate Quiet(x: Proc, y: Proc) {
    && (y.state == ZOMBIE ==> x.state == ZOMBIE && y.parent == x.parent)
    && (HoldsWait(x.pc) ==> y.pc == x.pc && y.parent == x.parent)
    && (HoldsWait(y.pc) ==> HoldsWait(x.pc))
    && (Dozing(y) ==> Dozing(x))
  }

  /** All processes but `p` are left alone, as far as `wait` and `exit` go. */
  ghost predicate OthersQuiet(s: State, r: State, p: nat) {
    && |r.procs| == |s.procs|
    && forall o | 0 <= o < |s.procs| && o != p :: Quiet(s.procs[o], r.procs[o]) && ChanOk(o, r.procs[o])
  }

  ghost predicate AllQuiet(s: State, r: State) {
    OthersQuiet(s, r, |s.procs|) && r.waitLock == s.waitLock
  }

  lemma QuietKeeps(s: State, r: State)
    requires Waits(s) && AllQuiet(s, r)
    ensures Waits(r)
  {
    forall p | 0 <= p < |r.procs| ensures ScanOk(r, p) && ExitOk(r, p) && ChanOk(p, r.procs[p]) {
      assert ScanOk(s, p) && ExitOk(s, p);
      assert Quiet(s.procs[p], r.procs[p]);
      assert forall q: nat :: ZombieOf(r, q, p) ==> ZombieOf(s, q, p);
    }
    forall p: nat, q: nat | p < |r.procs| && Dozing(r.procs[p]) && ZombieOf(r, q, p) ensures Coming(r, p) {
      assert Quiet(s.procs[p], r.procs[p]) && Quiet(s.procs[q], r.procs[q]);
      assert ZombieOf(s, q, p);
    }
  }

  /** Nobody else takes `wait_lock`, or goes to sleep wrongly. */
  ghost predicate OthersMild(s: State, r: State, p: nat) {
    && |r.procs| == |s.procs|
    && forall o | 0 <= o < |s.procs| && o != p ::
         (HoldsWait(r.procs[o].pc) ==> HoldsWait(s.procs[o].pc)) && ChanOk(o, r.procs[o])
  }

  /** A move of the holder of `wait_lock`, or of one that takes it. */
  lemma HolderKeeps(s: State, r: State, p: nat)
    requires Waits(s) && p < |s.procs| && (s.waitLock == None || s.waitLock == Some(p))
    requires OthersMild(s, r, p) && r.waitLock == if HoldsWait(r.procs[p].pc) then Some(p) else None
    requires ScanOk(r, p) && ExitOk(r, p) && ChanOk(p, r.procs[p]) && NoLost(r)
    ensures Waits(r)
  {
    forall o | 0 <= o < |r.procs| && o != p ensures !HoldsWait(r.procs[o].pc) {
    }
  }

  /** Unless its holder is at work for `reparent`, no dozing parent has a zombie child. */
  lemma NonePending(s: State)
    requires Waits(s)
    requires s.waitLock.Some? && s.waitLock.value < |s.procs| ==>
      var pc := s.procs[s.waitLock.value].pc; !(pc.Waking? && pc.after.ToReparent? && pc.i < |s.procs|)
    ensures forall p: nat, q: nat | p < |s.procs| && Dozing(s.procs[p]) :: !ZombieOf(s, q, p)
  {
    forall p: nat, q: nat | p < |s.procs| && Dozing(s.procs[p]) ensures !ZombieOf(s, q, p) {
      assert ZombieOf(s, q, p) ==> Coming(s, p);
    }
  }

  lemma WaitFacts(s: State, p: nat)
    requires Waits(s) && p < |s.procs|
    ensures ChanOk(p, s.procs[p]) && ScanOk(s, p) && ExitOk(s, p)
    ensures HoldsWait(s.procs[p].pc) <==> s.waitLock == Some(p)
  {
  }

  ghost predicate Chans(s: State) {
    forall p | 0 <= p < |s.procs| :: ChanOk(p, s.procs[p])
  }

  lemma SchedQuiet(s: State, step: Step)
    requires s.Threads() && Chans(s) && OfScheduler(step) && SchedEnabled(s, step)
    ensures AllQuiet(s, SchedResult(s, step))
  {
    hide State.Threads;
    CpuFacts(s, step.c);
  }

  lemma SwitchQuiet(s: State, step: Step)
    requires s.Threads() && Chans(s) && OfSwitch(step) && SwitchEnabled(s, step)
    ensures AllQuiet(s, SwitchResult(s, step))
  {
    hide State.Threads;
    ProcFacts(s, step.p);
  }

  lemma SleepQuiet(s: State, step: Step)
    requires s.Threads() && Chans(s) && OfSleep(step) && SleepEnabled(s, step)
    requires step.SleepRelease? ==> !s.procs[step.p].pc.wait
    ensures AllQuiet(s, SleepResult(s, step))
  {
    hide State.Threads;
    ProcFacts(s, step.p);
    assert ChanOk(step.p, s.procs[step.p]);
  }

  lemma WakeQuiet(s: State, step: Step)
    requires s.Threads() && Chans(s) && OfWake(step) && WakeEnabled(s, step)
    requires step.WakeNext? || step.WakeDone? ==> s.procs[step.p].pc.after.ToNormal?
    ensures AllQuiet(s, WakeResult(s, step))
  {
    hide State.Threads;
    ProcFacts(s, step.p);
  }

  lemma ForkQuiet(s: State, step: Step)
    requires s.Threads() && Chans(s) && OfFork(step) && ForkEnabled(s, step)
    ensures AllQuiet(s, ForkResult(s, step))
  {
    hide State.Threads, ChanOk;
    var q := if step.ForkAlloc? then step.q else s.procs[step.p].pc.q;
    Setup(s, step, q);
    var r := ForkResult(s, step);
    forall o | 0 <= o < |s.procs| ensures Quiet(s.procs[o], r.procs[o]) && ChanOk(o, r.procs[o]) {
      assert ChanOk(o, s.procs[o]);
      QuietChan(o, s.procs[o], r.procs[o]);
    }
  }

  lemma QuietChan(o: nat, x: Proc, y: Proc)
    requires ChanOk(o, x) && (y == x || (!Dozing(y) && !y.pc.Sleeping?))
    ensures ChanOk(o, y)
  {
  }

  /** A slot that is free or being set up runs nothing. */
  lemma Setup(s: State, step: Step, q: nat)
    requires s.Threads() && OfFork(step) && ForkEnabled(s, step)
    requires q == if step.ForkAlloc? then step.q else s.procs[step.p].pc.q
    ensures q < |s.procs| && q != step.p && (s.procs[q].pc.Gone? || s.procs[q].pc == Parked(New))
    ensures s.procs[q].state == UNUSED || s.procs[q].state == USED
  {
    hide State.Threads;
    ProcFacts(s, step.p);
    ForkFacts(s, step.p);
    ProcFacts(s, q);
  }

  // Moves under `wait_lock`.

  /** `wakeup` on a process asleep in `wait` takes it out of its sleep. */
  lemma WakesParent(s: State, i: nat)
    requires s.Threads() && Waits(s) && Unlocked(s, i)
    ensures !Dozing(s.procs[i]) || (s.procs[i].chan == Some(OfProc(i)) && !Dozing(Woken(s.procs[i])))
  {
    hide State.Threads;
    ProcFacts(s, i);
    WaitFacts(s, i);
  }

  lemma WakeNextKeeps(s: State, step: Step)
    requires s.Threads() && Waits(s) && OfWake(step) && WakeEnabled(s, step)
    requires step.WakeNext? && !s.procs[step.p].pc.after.ToNormal?
    ensures Waits(WakeResult(s, step))
  {
    hide State.Threads;
    var p := step.p;
    var i := s.procs[p].pc.i;
    WaitFacts(s, p);
    if i != p {
      WakesParent(s, i);
    }
    var r := WakeResult(s, step);
    assert forall q: nat, o: nat :: ZombieOf(r, q, o) ==> ZombieOf(s, q, o);
    forall o: nat, q: nat | o < |r.procs| && Dozing(r.procs[o]) && ZombieOf(r, q, o) ensures Coming(r, o) {
      assert Dozing(s.procs[o]) && ZombieOf(s, q, o);
      assert Coming(s, o);
    }
    HolderKeeps(s, r, p);
  }

  lemma WakeDoneKeeps(s: State, step: Step)
    requires s.Threads() && Waits(s) && OfWake(step) && WakeEnabled(s, step)
    requires step.WakeDone? && !s.procs[step.p].pc.after.ToNormal?
    ensures Waits(WakeResult(s, step))
  {
    hide State.Threads;
    WaitFacts(s, step.p);
    NonePending(s);
    var r := WakeResult(s, step);
    assert forall q: nat, o: nat :: ZombieOf(r, q, o) ==> ZombieOf(s, q, o);
    HolderKeeps(s, r, step.p);
  }

  lemma SleepReleaseKeeps(s: State, step: Step)
    requires s.Threads() && Waits(s) && OfSleep(step) && SleepEnabled(s, step)
    requires step.SleepRelease? && s.procs[step.p].pc.wait
    ensures Waits(SleepResult(s, step))
  {
    hide State.Threads;
    WaitFacts(s, step.p);
    NonePending(s);
    var r := SleepResult(s, step);
    assert forall q: nat, o: nat :: ZombieOf(r, q, o) ==> ZombieOf(s, q, o);
    HolderKeeps(s, r, step.p);
  }

  lemma ScanRuns(s: State, p: nat)
    requires s.Threads() && p < |s.procs| && s.procs[p].pc.WaitScan?
    ensures s.procs[p].state == RUNNING
  {
    hide State.Threads;
    ProcFacts(s, p);
  }

  lemma WaitNextNoLost(s: State, step: Step)
    requires Waits(s) && OfWait(step) && WaitEnabled(s, step) && step.WaitNext?
    requires s.waitLock == Some(step.p) && step.p < |s.procs|
    ensures NoLost(WaitResult(s, step))
    ensures forall q: nat, o: nat :: ZombieOf(WaitResult(s, step), q, o) ==> ZombieOf(s, q, o)
  {
    NonePending(s);
    var r := WaitResult(s, step);
    assert forall q: nat, o: nat :: ZombieOf(r, q, o) ==> ZombieOf(s, q, o);
  }

  lemma WaitNextKeeps(s: State, step: Step)
    requires s.Threads() && Waits(s) && OfWait(step) && WaitEnabled(s, step) && step.WaitNext?
    ensures Waits(WaitResult(s, step))
  {
    hide State.Threads, State.ProcOk, NoLost;
    WaitFacts(s, step.p);
    ScanRuns(s, step.p);
    WaitNextNoLost(s, step);
    HolderKeeps(s, WaitResult(s, step), step.p);
  }

  lemma WaitStepKeeps(s: State, step: Step)
    requires s.Threads() && Waits(s) && OfWait(step) && WaitEnabled(s, step) && !step.WaitNext?
    ensures Waits(WaitResult(s, step))
  {
    hide State.Threads, State.ProcOk;
    WaitFacts(s, step.p);
    NonePending(s);
    var r := WaitResult(s, step);
    assert forall q: nat, o: nat :: ZombieOf(r, q, o) ==> ZombieOf(s, q, o);
    assert NoLost(r);
    HolderKeeps(s, r, step.p);
  }

  lemma ReparentKeeps(s: State, step: Step)
    requires s.Threads() && Waits(s) && OfExit(step) && ExitEnabled(s, step) && step.ReparentNext?
    ensures Waits(ExitResult(s, step))
  {
    hide State.Threads, State.ProcOk;
    var p := step.p;
    WaitFacts(s, p);
    NonePending(s);
    var r := ExitResult(s, step);
    forall o: nat, q: nat | o < |r.procs| && Dozing(r.procs[o]) && ZombieOf(r, q, o) ensures Coming(r, o) {
      assert Dozing(s.procs[o]) && !ZombieOf(s, q, o);
    }
    HolderKeeps(s, r, p);
  }

  lemma ExitMarkKeeps(s: State, step: Step)
    requires s.Threads() && Waits(s) && OfExit(step) && ExitEnabled(s, step) && step.ExitMark?
    ensures Waits(ExitResult(s, step))
  {
    hide State.Threads, State.ProcOk;
    var p := step.p;
    WaitFacts(s, p);
    NonePending(s);
    var r := ExitResult(s, step);
    forall o: nat, q: nat | o < |r.procs| && Dozing(r.procs[o]) ensures !ZombieOf(r, q, o) {
      assert Dozing(s.procs[o]) && !ZombieOf(s, q, o);
    }
    HolderKeeps(s, r, p);
  }

  lemma ExitStepKeeps(s: State, step: Step)
    requires s.Threads() && Waits(s) && OfExit(step) && ExitEnabled(s, step)
    requires step.ExitEnter? || step.ExitUnlock?
    ensures Waits(ExitResult(s, step))
  {
    hide State.Threads, State.ProcOk;
    WaitFacts(s, step.p);
    NonePending(s);
    var r := ExitResult(s, step);
    assert forall q: nat, o: nat :: ZombieOf(r, q, o) ==> ZombieOf(s, q, o);
    HolderKeeps(s, r, step.p);
  }

  /** Every move keeps what `wait` and `exit` rely on. */
  lemma WaitsKept(s: State, step: Step)
    requires s.Threads() && Waits(s) && Enabled(s, step)
    ensures Waits(Result(s, step))
  {
    hide State.Threads, AllQuiet, SchedResult, SwitchResult, SleepResult, WakeResult, ForkResult, WaitResult;
    hide ExitResult;
    assert Chans(s);
    if OfScheduler(step) {
      SchedQuiet(s, step);
      QuietKeeps(s, Result(s, step));
    } else if OfSwitch(step) {
      SwitchQuiet(s, step);
      QuietKeeps(s, Result(s, step));
    } else if OfSleep(step) {
      if step.SleepRelease? && s.procs[step.p].pc.wait {
        SleepReleaseKeeps(s, step);
      } else {
        SleepQuiet(s, step);
        QuietKeeps(s, Result(s, step));
      }
    } else if OfWake(step) {
      if step.WakeNext? && !s.procs[step.p].pc.after.ToNormal? {
        WakeNextKeeps(s, step);
      } else if step.WakeDone? && !s.procs[step.p].pc.after.ToNormal? {
        WakeDoneKeeps(s, step);
      } else {
        WakeQuiet(s, step);
        QuietKeeps(s, Result(s, step));
      }
    } else if OfFork(step) {
      ForkQuiet(s, step);
      QuietKeeps(s, Result(s, step));
    } else if step.WaitNext? {
      WaitNextKeeps(s, step);
    } else if OfWait(step) {
      WaitStepKeeps(s, step);
    } else if step.ReparentNext? {
      ReparentKeeps(s, step);
    } else if step.ExitMark? {
      ExitMarkKeeps(s, step);
    } else {
      ExitStepKeeps(s, step);
    }
  }

  // Whole runs.

  /** After boot: one process, which has not run yet, and every scheduler idle. */
  ghost predicate Initial(s: State) {
    && |s.procs| > 0 && s.waitLock.None?
    && s.procs[0] == Proc(RUNNABLE, None, None, None, Parked(New), None, true)
    && (forall p | 0 < p < |s.procs| :: s.procs[p] == NO_PROC)
    && (forall c | 0 <= c < |s.cpus| :: s.cpus[c] == Cpu(Idle, None))
  }

  lemma InitialOk(s: State)
    requires Initial(s)
    ensures s.Threads() && Waits(s)
  {
    forall p | 0 <= p < |s.procs| ensures s.ProcOk(p) && s.ForkOk(p) && ScanOk(s, p) && ExitOk(s, p) {
    }
  }

  ghost predicate Run(states: seq<State>, steps: seq<Step>) {
    && |states| == |steps| + 1 && Initial(states[0])
    && forall k | 0 <= k < |steps| :: StepAt(states, steps, k)
  }

  ghost predicate StepAt(states: seq<State>, steps: seq<Step>, k: nat)
    requires |states| == |steps| + 1 && k < |steps|
  {
    Enabled(states[k], steps[k]) && states[k + 1] == Result(states[k], steps[k])
  }

  lemma {:induction false} RunKeeps(states: seq<State>, steps: seq<Step>, k: nat)
    requires Run(states, steps) && k < |states|
    ensures states[k].Threads() && Waits(states[k])
  {
    hide State.Threads, Waits, Enabled, Result;
    if k == 0 {
      InitialOk(states[0]);
    } else {
      RunKeeps(states, steps, k - 1);
      assert StepAt(states, steps, k - 1);
      ThreadsKept(states[k - 1], steps[k - 1]);
      WaitsKept(states[k - 1], steps[k - 1]);
    }
  }

  /** In every run, no move resumes a context that was not saved since it was last resumed. */
  lemma ResumedOnce(states: seq<State>, steps: seq<Step>, k: nat)
    requires Run(states, steps) && k < |steps| && steps[k].SwitchIn?
    ensures steps[k].c < |states[k].cpus| && states[k].cpus[steps[k].c].pc.Chosen?
    ensures
      var p := states[k].cpus[steps[k].c].pc.p;
      && p < |states[k].procs| && states[k].procs[p].saved && states[k].procs[p].cpu.None?
      && p < |states[k + 1].procs| && !states[k + 1].procs[p].saved
  {
    hide State.Threads, Waits;
    RunKeeps(states, steps, k);
    assert StepAt(states, steps, k);
    ResumesSaved(states[k], steps[k].c);
  }

  /** In every run, a process asleep in `wait` has no zombie child while `wait_lock` is free. */
  lemma SleepsSafely(states: seq<State>, steps: seq<Step>, k: nat, p: nat, q: nat)
    requires Run(states, steps) && k < |states| && states[k].waitLock.None?
    requires p < |states[k].procs| && q < |states[k].procs|
    requires states[k].procs[p].pc == Parked(Sleep(true)) && states[k].procs[p].state == SLEEPING
    requires states[k].procs[q].parent == Some(p)
    ensures states[k].procs[q].state != ZOMBIE
  {
    hide State.Threads, Waits;
    RunKeeps(states, steps, k);
    NoLostWakeup(states[k], p, q);
  }

  /** A zombie whose lock is free has left its CPU for good: `wait` may free it. */
  lemma ZombieIsOff(s: State, q: nat)
    requires s.Threads() && Unlocked(s, q) && s.procs[q].state == ZOMBIE
    ensures s.procs[q].pc == Parked(Dead) && s.procs[q].cpu.None?
    ensures forall c | 0 <= c < |s.cpus| :: s.cpus[c].curr != Some(q)
  {
    assert s.ProcOk(q);
    forall c | 0 <= c < |s.cpus| ensures s.cpus[c].curr != Some(q) {
      assert s.CpuOk(c);
    }
  }

  /** The checks of `sched` never fail: it is entered with the process lock held and no other of the
      two, in a state other than running. */
  lemma SchedChecks(s: State, p: nat)
    requires s.Threads() && Waits(s) && p < |s.procs| && s.procs[p].pc.Switching?
    ensures s.procs[p].cpu.Some? && s.procs[p].lock == s.procs[p].cpu
    ensures s.waitLock != Some(p) && s.procs[p].state != RUNNING
  {
    hide State.Threads;
    ProcFacts(s, p);
    WaitFacts(s, p);
  }
}
