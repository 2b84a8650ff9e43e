/** The moves of `scheduler`, `sched`, `yield`, `sleep`, `wakeup`, `fork`, `exit`, `wait` and `kill` in
    `kernel/proc.c`, interleaved over any number of CPUs.  A critical section under one process lock is
    one move, unless it crosses a context switch or nests `wait_lock`. */
module SchedulerState {
  import opened Common
  import opened ProcStates

  datatype Chan = OfProc(p: nat) | Other(n: nat)

  /** Where `wakeup` goes on when its loop is done. */
  datatype After = ToNormal | ToReparent(i: nat) | ToExit

  /** Why a process is switched out; a yield remembers where it was interrupted. */
  datatype Kind = Yield(ret: Pc) | Sleep(wait: bool) | New | Dead

  /** Where a process is in the kernel.  `Switching` is just before `swtch`, `Parked` is switched out,
      `Resumed` just after coming back. */
  datatype Pc =
    | Gone
    | Normal
    | WaitLock
    | WaitScan(i: nat, kids: bool)
    | ForkParent(q: nat)
    | ForkRun(q: nat)
    | Waking(chan: Option<Chan>, i: nat, after: After)
    | Reparent(i: nat)
    | ExitLock
    | ExitRelease
    | YieldHeld(ret: Pc)
    | Sleeping(on: Chan, wait: bool, released: bool)
    | Switching(k: Kind)
    | Parked(k: Kind)
    | Resumed(k: Kind)

  /** Where the scheduler of a CPU is; `InProc` while a process runs there. */
  datatype SchedPc =
    | Idle
    | Got(p: nat)
    | Marked(p: nat)
    | Chosen(p: nat)
    | InProc(p: nat)
    | Back(p: nat)
    | Cleared(p: nat)

  datatype Cpu = Cpu(pc: SchedPc, curr: Option<nat>)

  /** `lock` is the CPU that holds the process lock, `cpu` the one whose registers and stack the process
      has, `saved` whether its context is one that may be resumed. */
  datatype Proc = Proc(state: PState, chan: Option<Chan>, parent: Option<nat>, lock: Option<nat>,
                       pc: Pc, cpu: Option<nat>, saved: bool)

  /** Code that a timer interrupt may stop: no lock is held. */
  predicate Interruptible(pc: Pc) {
    pc.Normal? || pc.WaitLock? || pc.ForkParent? || pc.ForkRun? || (pc.Waking? && pc.after.ToNormal?)
  }

  /** Code that holds the lock of the process that runs it. */
  predicate Own(pc: Pc) {
    pc.YieldHeld? || pc.Switching? || pc.Sleeping? || pc.Resumed? || pc.ExitRelease?
  }

  predicate WellPc(pc: Pc) {
    match pc
    case YieldHeld(ret) => Interruptible(ret)
    case Switching(k) => !k.New? && (k.Yield? ==> Interruptible(k.ret))
    case Parked(k) => k.Yield? ==> Interruptible(k.ret)
    case Resumed(k) => !k.Dead? && (k.Yield? ==> Interruptible(k.ret))
    case _ => true
  }

  /** The states a process may have where it is. */
  predicate StateFits(state: PState, pc: Pc) {
    match pc
    case Gone => state == UNUSED
    case Parked(Dead) => state == ZOMBIE
    case Parked(New) => state == USED || state == RUNNABLE || state == RUNNING
    case Parked(Yield(_)) => state == RUNNABLE || state == RUNNING
    case Parked(Sleep(_)) => state == SLEEPING || state == RUNNABLE || state == RUNNING
    case Switching(Yield(_)) => state == RUNNABLE
    case Switching(Sleep(_)) => state == SLEEPING
    case Switching(_) => state == ZOMBIE
    case ExitRelease => state == ZOMBIE
    case _ => state == RUNNING
  }

  predicate SchedHolds(pc: SchedPc, p: nat) {
    pc == Got(p) || pc == Marked(p) || pc == Chosen(p) || pc == Back(p) || pc == Cleared(p)
  }

  /** Lock, thread and state of a process agree. */
  ghost predicate Fits(p: nat, x: Proc, cpus: seq<Cpu>) {
    && WellPc(x.pc) && StateFits(x.state, x.pc)
    && (x.cpu.Some? <==> !x.pc.Gone? && !x.pc.Parked?)
    && (x.saved <==> x.pc.Parked?)
    && (x.cpu.Some? ==> x.cpu.value < |cpus| && cpus[x.cpu.value].pc == InProc(p))
    && (Own(x.pc) ==> x.lock == x.cpu)
    && (x.lock.Some? ==> x.lock.value < |cpus| && (Own(x.pc) || SchedHolds(cpus[x.lock.value].pc, p)))
    && (x.pc.Parked? && x.state == RUNNING ==>
          x.lock.Some? && (cpus[x.lock.value].pc == Marked(p) || cpus[x.lock.value].pc == Chosen(p)))
  }

  datatype State = State(procs: seq<Proc>, cpus: seq<Cpu>, waitLock: Option<nat>) {
    function With(p: nat, x: Proc): State
      requires p < |procs|
    {
      this.(procs := procs[p := x])
    }

    ghost predicate ProcOk(p: nat)
      requires p < |procs|
    {
      Fits(p, procs[p], cpus)
    }

    ghost predicate CpuOk(c: nat)
      requires c < |cpus|
    {
      match cpus[c].pc
      case Idle => cpus[c].curr == None
      case Got(p) => p < |procs| && procs[p].lock == Some(c) && cpus[c].curr == None
      case Marked(p) =>
        && p < |procs| && procs[p].lock == Some(c) && procs[p].pc.Parked?
        && procs[p].state == RUNNING && cpus[c].curr == None
      case Chosen(p) =>
        && p < |procs| && procs[p].lock == Some(c) && procs[p].pc.Parked?
        && procs[p].state == RUNNING && cpus[c].curr == Some(p)
      case InProc(p) => p < |procs| && procs[p].cpu == Some(c) && cpus[c].curr == Some(p)
      case Back(p) =>
        && p < |procs| && procs[p].lock == Some(c) && procs[p].pc.Parked?
        && procs[p].state != RUNNING && cpus[c].curr == Some(p)
      case Cleared(p) =>
        && p < |procs| && procs[p].lock == Some(c) && procs[p].pc.Parked?
        && procs[p].state != RUNNING && cpus[c].curr == None
    }

    /** A child that `fork` is still setting up is its own business. */
    ghost function Child(p: nat): Option<nat>
      requires p < |procs|
    {
      ChildOf(procs[p].pc)
    }

    ghost predicate ForkOk(p: nat)
      requires p < |procs|
    {
      Child(p).Some? ==>
        && Child(p).value < |procs| && procs[Child(p).value].state == USED
        && forall o | 0 <= o < |procs| && o != p :: Child(o) != Child(p)
    }

    ghost predicate Threads() {
      && (forall p | 0 <= p < |procs| :: ProcOk(p))
      && (forall c | 0 <= c < |cpus| :: CpuOk(c))
      && (forall p | 0 <= p < |procs| :: ForkOk(p))
    }
  }

  function ChildOf(pc: Pc): Option<nat> {
    match pc
    case ForkParent(q) => Some(q)
    case ForkRun(q) => Some(q)
    case YieldHeld(ret) => RetChild(ret)
    case Switching(Yield(ret)) => RetChild(ret)
    case Parked(Yield(ret)) => RetChild(ret)
    case Resumed(Yield(ret)) => RetChild(ret)
    case _ => None
  }

  function RetChild(ret: Pc): Option<nat> {
    match ret
    case ForkParent(q) => Some(q)
    case ForkRun(q) => Some(q)
    case _ => None
  }

  function ChanOf(p: Option<nat>): Option<Chan> {
    if p.Some? then Some(OfProc(p.value)) else None
  }

  /** The moves: of the scheduler of CPU `c`, or of process `p`. */
  datatype Step =
    | Pick(c: nat, q: nat) | Skip(c: nat) | Mark(c: nat) | SetCurr(c: nat) | SwitchIn(c: nat)
    | ClearCurr(c: nat) | Unlock(c: nat)
    | YieldLock(p: nat) | YieldMark(p: nat) | SwitchOut(p: nat) | AfterYield(p: nat)
    | SleepLock(p: nat, on: Chan) | SleepRelease(p: nat) | SleepMark(p: nat) | AfterSleep(p: nat)
    | WakeStart(p: nat, on: Chan) | WakeNext(p: nat) | WakeDone(p: nat) | Kill(p: nat, q: nat)
    | ForkAlloc(p: nat, q: nat) | ForkSetParent(p: nat) | ForkStart(p: nat)
    | WaitEnter(p: nat) | WaitAcquire(p: nat) | WaitNext(p: nat, copied: bool) | WaitEnd(p: nat, killed: bool)
    | ExitEnter(p: nat) | ReparentNext(p: nat, head: Option<nat>) | ExitMark(p: nat) | ExitUnlock(p: nat)

  predicate OfSwitch(step: Step) {
    step.YieldLock? || step.YieldMark? || step.SwitchOut? || step.AfterYield?
  }

  predicate OfSleep(step: Step) {
    step.SleepLock? || step.SleepRelease? || step.SleepMark? || step.AfterSleep?
  }

  predicate OfWake(step: Step) {
    step.WakeStart? || step.WakeNext? || step.WakeDone? || step.Kill?
  }

  predicate OfFork(step: Step) {
    step.ForkAlloc? || step.ForkSetParent? || step.ForkStart?
  }

  predicate OfWait(step: Step) {
    step.WaitEnter? || step.WaitAcquire? || step.WaitNext? || step.WaitEnd?
  }

  predicate OfExit(step: Step) {
    step.ExitEnter? || step.ReparentNext? || step.ExitMark? || step.ExitUnlock?
  }

  predicate OfScheduler(step: Step) {
    step.Pick? || step.Skip? || step.Mark? || step.SetCurr? || step.SwitchIn? || step.ClearCurr? || step.Unlock?
  }

  /** A spinlock is taken only when nobody holds it. */
  predicate Unlocked(s: State, p: nat) {
    p < |s.procs| && s.procs[p].lock.None?
  }

  predicate SchedEnabled(s: State, step: Step)
    requires OfScheduler(step)
  {
    && step.c < |s.cpus|
    && var pc := s.cpus[step.c].pc;
    match step
    case Pick(_, q) => pc.Idle? && Unlocked(s, q)
    case Skip(_) => pc.Got? && pc.p < |s.procs| && s.procs[pc.p].state != RUNNABLE
    case Mark(_) => pc.Got? && pc.p < |s.procs| && s.procs[pc.p].state == RUNNABLE
    case SetCurr(_) => pc.Marked?
    case SwitchIn(_) => pc.Chosen? && pc.p < |s.procs|
    case ClearCurr(_) => pc.Back?
    case Unlock(_) => pc.Cleared? && pc.p < |s.procs|
  }

  /** Process `p` has a CPU to run on. */
  predicate Runs(s: State, p: nat) {
    p < |s.procs| && s.procs[p].cpu.Some? && s.procs[p].cpu.value < |s.cpus|
  }

  predicate SwitchEnabled(s: State, step: Step)
    requires OfSwitch(step)
  {
    && Runs(s, step.p)
    && var x := s.procs[step.p];
    match step
    case YieldLock(p) => Interruptible(x.pc) && Unlocked(s, p)
    case YieldMark(_) => x.pc.YieldHeld?
    case SwitchOut(_) => x.pc.Switching?
    case AfterYield(_) => x.pc.Resumed? && (x.pc.k.Yield? || x.pc.k.New?)
  }

  predicate SleepEnabled(s: State, step: Step)
    requires OfSleep(step)
  {
    && Runs(s, step.p)
    && var x := s.procs[step.p];
    match step
    case SleepLock(p, _) => x.pc.Normal? && Unlocked(s, p)
    case SleepRelease(_) => x.pc.Sleeping? && !x.pc.released
    case SleepMark(_) => x.pc.Sleeping? && x.pc.released
    case AfterSleep(_) => x.pc.Resumed? && x.pc.k.Sleep?
  }

  predicate WakeEnabled(s: State, step: Step)
    requires OfWake(step)
  {
    && Runs(s, step.p)
    && var x := s.procs[step.p];
    match step
    case WakeStart(_, _) => x.pc.Normal?
    case WakeNext(p) => x.pc.Waking? && x.pc.i < |s.procs| && (x.pc.i != p ==> Unlocked(s, x.pc.i))
    case WakeDone(_) => x.pc.Waking? && x.pc.i >= |s.procs|
    case Kill(_, q) => x.pc.Normal? && Unlocked(s, q)
  }

  predicate ForkEnabled(s: State, step: Step)
    requires OfFork(step)
  {
    && Runs(s, step.p)
    && var x := s.procs[step.p];
    match step
    case ForkAlloc(_, q) => x.pc.Normal? && Unlocked(s, q) && s.procs[q].state == UNUSED
    case ForkSetParent(_) => x.pc.ForkParent? && s.waitLock.None? && x.pc.q < |s.procs|
    case ForkStart(_) => x.pc.ForkRun? && Unlocked(s, x.pc.q)
  }

  predicate WaitEnabled(s: State, step: Step)
    requires OfWait(step)
  {
    && Runs(s, step.p)
    && var x := s.procs[step.p];
    match step
    case WaitEnter(_) => x.pc.Normal? && s.waitLock.None?
    case WaitAcquire(_) => x.pc.WaitLock? && s.waitLock.None?
    case WaitNext(p, _) =>
      x.pc.WaitScan? && x.pc.i < |s.procs| && (s.procs[x.pc.i].parent == Some(p) ==> Unlocked(s, x.pc.i))
    case WaitEnd(p, killed) => x.pc.WaitScan? && x.pc.i >= |s.procs| && (x.pc.kids && !killed ==> Unlocked(s, p))
  }

  predicate ExitEnabled(s: State, step: Step)
    requires OfExit(step)
  {
    && Runs(s, step.p)
    && var x := s.procs[step.p];
    match step
    case ExitEnter(p) => x.pc.Normal? && p != 0 && s.waitLock.None?
    case ReparentNext(_, _) => x.pc.Reparent?
    case ExitMark(p) => x.pc.ExitLock? && Unlocked(s, p)
    case ExitUnlock(_) => x.pc.ExitRelease?
  }

  function SchedResult(s: State, step: Step): State
    requires OfScheduler(step) && SchedEnabled(s, step)
  {
    var c := step.c;
    var pc := s.cpus[c].pc;
    match step
    case Pick(_, q) => s.With(q, s.procs[q].(lock := Some(c))).(cpus := s.cpus[c := s.cpus[c].(pc := Got(q))])
    case Skip(_) => s.With(pc.p, s.procs[pc.p].(lock := None)).(cpus := s.cpus[c := s.cpus[c].(pc := Idle)])
    case Mark(_) => s.With(pc.p, s.procs[pc.p].(state := RUNNING)).(cpus := s.cpus[c := s.cpus[c].(pc := Marked(pc.p))])
    case SetCurr(_) => s.(cpus := s.cpus[c := Cpu(Chosen(pc.p), Some(pc.p))])
    case SwitchIn(_) =>
      var x := s.procs[pc.p];
      s.With(pc.p, x.(cpu := Some(c), saved := false, pc := if x.pc.Parked? then Resumed(x.pc.k) else x.pc))
       .(cpus := s.cpus[c := s.cpus[c].(pc := InProc(pc.p))])
    case ClearCurr(_) => s.(cpus := s.cpus[c := Cpu(Cleared(pc.p), None)])
    case Unlock(_) => s.With(pc.p, s.procs[pc.p].(lock := None)).(cpus := s.cpus[c := s.cpus[c].(pc := Idle)])
  }

  /** `SLEEPING` becomes `RUNNABLE`. */
  function Woken(x: Proc): Proc {
    if x.state == SLEEPING then x.(state := RUNNABLE) else x
  }

  function AfterPc(a: After): Pc {
    match a
    case ToNormal => Normal
    case ToReparent(i) => Reparent(i)
    case ToExit => ExitLock
  }

  const NO_PROC := Proc(UNUSED, None, None, None, Gone, None, false)

  function SwitchResult(s: State, step: Step): State
    requires OfSwitch(step) && SwitchEnabled(s, step)
  {
    var p := step.p;
    var x := s.procs[p];
    match step
    case YieldLock(_) => s.With(p, x.(lock := x.cpu, pc := YieldHeld(x.pc)))
    case YieldMark(_) => s.With(p, x.(state := RUNNABLE, pc := Switching(Yield(x.pc.ret))))
    case SwitchOut(_) =>
      s.With(p, x.(pc := Parked(x.pc.k), cpu := None, saved := true))
       .(cpus := s.cpus[x.cpu.value := s.cpus[x.cpu.value].(pc := Back(p))])
    case AfterYield(_) => s.With(p, x.(lock := None, pc := if x.pc.k.Yield? then x.pc.k.ret else Normal))
  }

  function SleepResult(s: State, step: Step): State
    requires OfSleep(step) && SleepEnabled(s, step)
  {
    var p := step.p;
    var x := s.procs[p];
    match step
    case SleepLock(_, on) => s.With(p, x.(lock := x.cpu, pc := Sleeping(on, false, false)))
    case SleepRelease(_) =>
      s.With(p, x.(pc := x.pc.(released := true))).(waitLock := if x.pc.wait then None else s.waitLock)
    case SleepMark(_) => s.With(p, x.(chan := Some(x.pc.on), state := SLEEPING, pc := Switching(Sleep(x.pc.wait))))
    case AfterSleep(_) => s.With(p, x.(chan := None, lock := None, pc := if x.pc.k.wait then WaitLock else Normal))
  }

  function WakeResult(s: State, step: Step): State
    requires OfWake(step) && WakeEnabled(s, step)
  {
    var p := step.p;
    var x := s.procs[p];
    match step
    case WakeStart(_, on) => s.With(p, x.(pc := Waking(Some(on), 0, ToNormal)))
    case WakeNext(_) =>
      var i := x.pc.i;
      var y := s.procs[i];
      var woken := if i != p && y.chan == x.pc.chan then s.With(i, Woken(y)) else s;
      woken.With(p, x.(pc := x.pc.(i := i + 1)))
    case WakeDone(_) => s.With(p, x.(pc := AfterPc(x.pc.after)))
    case Kill(_, q) => s.With(q, Woken(s.procs[q]))
  }

  function ForkResult(s: State, step: Step): State
    requires OfFork(step) && ForkEnabled(s, step)
  {
    var p := step.p;
    var x := s.procs[p];
    match step
    case ForkAlloc(_, q) =>
      s.With(q, Proc(USED, None, None, None, Parked(New), None, true)).With(p, x.(pc := ForkParent(q)))
    case ForkSetParent(_) =>
      s.With(x.pc.q, s.procs[x.pc.q].(parent := Some(p))).With(p, x.(pc := ForkRun(x.pc.q)))
    case ForkStart(_) =>
      s.With(x.pc.q, s.procs[x.pc.q].(state := RUNNABLE)).With(p, x.(pc := Normal))
  }

  function WaitResult(s: State, step: Step): State
    requires OfWait(step) && WaitEnabled(s, step)
  {
    var p := step.p;
    var x := s.procs[p];
    match step
    case WaitEnter(_) => s.With(p, x.(pc := WaitScan(0, false))).(waitLock := Some(p))
    case WaitAcquire(_) => s.With(p, x.(pc := WaitScan(0, false))).(waitLock := Some(p))
    case WaitNext(_, copied) =>
      var i := x.pc.i;
      if s.procs[i].parent != Some(p) then s.With(p, x.(pc := WaitScan(i + 1, x.pc.kids)))
      else if s.procs[i].state != ZOMBIE then s.With(p, x.(pc := WaitScan(i + 1, true)))
      else
        (if copied then s.With(i, NO_PROC) else s).With(p, x.(pc := Normal)).(waitLock := None)
    case WaitEnd(_, killed) =>
      if !x.pc.kids || killed then s.With(p, x.(pc := Normal)).(waitLock := None)
      else s.With(p, x.(lock := x.cpu, pc := Sleeping(OfProc(p), true, false)))
  }

  function ExitResult(s: State, step: Step): State
    requires OfExit(step) && ExitEnabled(s, step)
  {
    var p := step.p;
    var x := s.procs[p];
    match step
    case ExitEnter(_) => s.With(p, x.(pc := Reparent(0))).(waitLock := Some(p))
    case ReparentNext(_, head) =>
      var i := x.pc.i;
      if i >= |s.procs| then s.With(p, x.(pc := Waking(ChanOf(x.parent), 0, ToExit)))
      else if s.procs[i].parent == Some(p) then
        var r := s.With(i, s.procs[i].(parent := head));
        r.With(p, r.procs[p].(pc := Waking(ChanOf(head), 0, ToReparent(i + 1))))
      else s.With(p, x.(pc := Reparent(i + 1)))
    case ExitMark(_) => s.With(p, x.(lock := x.cpu, state := ZOMBIE, pc := ExitRelease))
    case ExitUnlock(_) => s.With(p, x.(pc := Switching(Dead))).(waitLock := None)
  }

  predicate Enabled(s: State, step: Step) {
    if OfScheduler(step) then SchedEnabled(s, step)
    else if OfSwitch(step) then SwitchEnabled(s, step)
    else if OfSleep(step) then SleepEnabled(s, step)
    else if OfWake(step) then WakeEnabled(s, step)
    else if OfFork(step) then ForkEnabled(s, step)
    else if OfWait(step) then WaitEnabled(s, step)
    else ExitEnabled(s, step)
  }

  function Result(s: State, step: Step): State
    requires Enabled(s, step)
  {
    if OfScheduler(step) then SchedResult(s, step)
    else if OfSwitch(step) then SwitchResult(s, step)
    else if OfSleep(step) then SleepResult(s, step)
    else if OfWake(step) then WakeResult(s, step)
    else if OfFork(step) then ForkResult(s, step)
    else if OfWait(step) then WaitResult(s, step)
    else ExitResult(s, step)
  }

  /** A process that runs is current on exactly one CPU, except while its scheduler has marked it
      and not yet set that CPU's current process. */
  lemma RunningOnce(s: State, p: nat)
    requires s.Threads() && p < |s.procs| && s.procs[p].state == RUNNING
    ensures exists c | 0 <= c < |s.cpus| :: s.cpus[c].curr == Some(p) || s.cpus[c].pc == Marked(p)
  {
    assert s.ProcOk(p);
    var x := s.procs[p];
    if x.pc.Parked? {
      assert s.CpuOk(x.lock.value);
    } else {
      assert s.CpuOk(x.cpu.value);
    }
  }

  /** No process is current on two CPUs. */
  lemma CurrentOnce(s: State, p: nat, c: nat, k: nat)
    requires s.Threads() && c < |s.cpus| && k < |s.cpus|
    requires s.cpus[c].curr == Some(p) && (s.cpus[k].curr == Some(p) || s.cpus[k].pc == Marked(p))
    ensures c == k
  {
    assert s.CpuOk(c) && s.CpuOk(k);
    assert s.ProcOk(p);
  }

  /** What a scheduler is about to resume is a saved context, that runs nowhere. */
  lemma ResumesSaved(s: State, c: nat)
    requires s.Threads() && c < |s.cpus| && s.cpus[c].pc.Chosen?
    ensures
      var p := s.cpus[c].pc.p;
      && p < |s.procs| && s.procs[p].saved && s.procs[p].cpu.None?
      && forall k | 0 <= k < |s.cpus| :: s.cpus[k].pc != InProc(p)
  {
    var p := s.cpus[c].pc.p;
    assert s.CpuOk(c) && s.ProcOk(p);
    forall k | 0 <= k < |s.cpus| ensures s.cpus[k].pc != InProc(p) {
      assert s.CpuOk(k);
    }
  }
}
