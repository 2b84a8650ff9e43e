/** Log space: `begin_op`, `log_write` and `end_op` of `kernel/log.c` under every interleaving
    of the processes that call them.  Each holds the log's lock, so each is one step. */
module Reservation {
  import opened Journal

  import BufferCache

  const MAXOPBLOCKS: nat := 10

  /** What one process is doing: nothing, or an operation that has logged some blocks. */
  datatype Op = Idle | Busy(logged: set<nat>)

  /** `size` is the number of log blocks on disk, from the superblock. */
  datatype State = State(size: nat, outstanding: nat, committing: bool, blocks: seq<nat>, ops: seq<Op>)

  datatype Event =
    | Begin(p: nat)
    | LogWrite(p: nat, block: nat)
    | End(p: nat)
    | Committed

  /** A step is taken, has to wait, or panics. */
  datatype Outcome = Moves(next: State) | Waits | Panics

  function Init(size: nat, processes: nat): (s: State) {
    State(size, 0, false, [], seq(processes, _ => Idle))
  }

  /** Processes bracket their calls with `begin_op` and `end_op`, and no operation logs more
      than MAXOPBLOCKS distinct blocks. */
  predicate Disciplined(s: State, e: Event) {
    match e
    case Begin(p) => p < |s.ops| && s.ops[p].Idle?
    case LogWrite(p, b) => p < |s.ops| && s.ops[p].Busy? && |s.ops[p].logged + {b}| <= MAXOPBLOCKS
    case End(p) => p < |s.ops| && s.ops[p].Busy?
    case Committed => s.committing
  }

  /** A commit needs a buffer for the blocks of the log itself, beside those of the logged
      blocks, which are pinned: with none left, `bget` panics. */
  function Step(s: State, e: Event): (o: Outcome)
    requires Disciplined(s, e)
  {
    match e
    case Begin(p) =>
      if s.committing || |s.blocks| + (s.outstanding + 1) * MAXOPBLOCKS > LOGSIZE then Waits
      else Moves(s.(outstanding := s.outstanding + 1, ops := s.ops[p := Busy({})]))
    case LogWrite(p, b) =>
      if |s.blocks| >= LOGSIZE || |s.blocks| >= s.size - 1 || s.outstanding < 1 then Panics
      else Moves(s.(blocks := if b in s.blocks then s.blocks else s.blocks + [b],
                    ops := s.ops[p := Busy(s.ops[p].logged + {b})]))
    case End(p) =>
      if s.outstanding == 0 || s.committing then Panics
      else Moves(s.(outstanding := s.outstanding - 1, committing := s.outstanding == 1,
                    ops := s.ops[p := Idle]))
    case Committed =>
      if |s.blocks| >= BufferCache.NBUF then Panics
      else Moves(s.(committing := false, blocks := []))
  }

  function BusyCount(ops: seq<Op>): (n: nat) {
    if ops == [] then 0
    else BusyCount(ops[..|ops| - 1]) + (if ops[|ops| - 1].Busy? then 1 else 0)
  }

  /** The block budget that one process may still use. */
  function OpUnused(op: Op): int {
    if op.Busy? then MAXOPBLOCKS - |op.logged| else 0
  }

  function Unused(ops: seq<Op>): (n: int) {
    if ops == [] then 0
    else Unused(ops[..|ops| - 1]) + OpUnused(ops[|ops| - 1])
  }

  lemma {:induction false} UpdateSums(ops: seq<Op>, p: nat, op: Op)
    requires p < |ops|
    ensures Unused(ops[p := op]) == Unused(ops) - OpUnused(ops[p]) + OpUnused(op)
    ensures BusyCount(ops[p := op])
         == BusyCount(ops) - (if ops[p].Busy? then 1 else 0) + (if op.Busy? then 1 else 0)
  {
    var ops' := ops[p := op];
    var n := |ops| - 1;
    if p < n {
      assert ops'[..n] == ops[..n][p := op];
      UpdateSums(ops[..n], p, op);
    } else {
      assert ops'[..n] == ops[..n];
    }
  }

  lemma {:induction false} UnusedBound(ops: seq<Op>)
    ensures Unused(ops) <= MAXOPBLOCKS * BusyCount(ops)
  {
    if ops != [] {
      UnusedBound(ops[..|ops| - 1]);
    }
  }

  lemma {:induction false} UnusedOne(ops: seq<Op>, p: nat)
    requires p < |ops|
    requires forall i | 0 <= i < |ops| :: OpUnused(ops[i]) >= 0
    ensures Unused(ops) >= OpUnused(ops[p])
    ensures ops[p].Busy? ==> BusyCount(ops) >= 1
  {
    var n := |ops| - 1;
    if p < n {
      UnusedOne(ops[..n], p);
    } else if n > 0 {
      UnusedOne(ops[..n], 0);
    }
  }

  lemma {:induction false} AllIdle(ops: seq<Op>)
    requires forall i | 0 <= i < |ops| :: ops[i].Idle?
    ensures BusyCount(ops) == 0 && Unused(ops) == 0
  {
    if ops != [] {
      AllIdle(ops[..|ops| - 1]);
    }
  }

  ghost predicate InLog(s: State, op: Op) {
    op.Busy? ==> |op.logged| <= MAXOPBLOCKS && forall b | b in op.logged :: b in s.blocks
  }

  /** The reservation invariant: the blocks logged so far and the budgets that running
      operations have left always fit in the log, and nobody is in an operation while a
      commit runs. */
  ghost predicate Inv(s: State) {
    && s.size >= LOGSIZE + 1
    && s.outstanding == BusyCount(s.ops)
    && (s.committing ==> s.outstanding == 0)
    && (forall i | 0 <= i < |s.ops| :: InLog(s, s.ops[i]))
    && |s.blocks| + Unused(s.ops) <= LOGSIZE
  }

  lemma InitInv(size: nat, processes: nat)
    requires size >= LOGSIZE + 1
    ensures Inv(Init(size, processes))
  {
    AllIdle(Init(size, processes).ops);
  }

  lemma StepKeepsInv(s: State, e: Event)
    requires Inv(s) && Disciplined(s, e) && Step(s, e).Moves?
    ensures Inv(Step(s, e).next)
  {
    var t := Step(s, e).next;
    match e
    case Begin(p) =>
      UpdateSums(s.ops, p, Busy({}));
      UnusedBound(t.ops);
    case LogWrite(p, b) =>
      UpdateSums(s.ops, p, Busy(s.ops[p].logged + {b}));
      assert InLog(s, s.ops[p]);
      LogOnce(s, p, b);
    case End(p) =>
      UpdateSums(s.ops, p, Idle);
      assert InLog(s, s.ops[p]);
    case Committed =>
      NobodyCommitting(s);
  }

  lemma LogOnce(s: State, p: nat, b: nat)
    requires p < |s.ops| && InLog(s, s.ops[p]) && s.ops[p].Busy?
    ensures b !in s.blocks ==> |s.ops[p].logged + {b}| == |s.ops[p].logged| + 1
    ensures |s.ops[p].logged + {b}| >= |s.ops[p].logged|
  {
    var logged := s.ops[p].logged;
    assert b !in logged ==> |logged + {b}| == |logged| + 1;
    assert b in logged ==> logged + {b} == logged;
  }

  /** During a commit no process is inside an operation. */
  lemma NobodyCommitting(s: State)
    requires Inv(s) && s.committing
    ensures forall i | 0 <= i < |s.ops| :: s.ops[i].Idle?
  {
    forall i | 0 <= i < |s.ops| ensures s.ops[i].Idle? {
      assert forall k | 0 <= k < |s.ops| :: InLog(s, s.ops[k]);
      UnusedOne(s.ops, i);
    }
  }

  // Runs.

  /** The state after a run of disciplined steps, none of which waits or panics. */
  ghost predicate Reaches(s: State, events: seq<Event>, t: State)
    decreases |events|
  {
    if events == [] then s == t
    else
      && Disciplined(s, events[0])
      && Step(s, events[0]).Moves?
      && Reaches(Step(s, events[0]).next, events[1..], t)
  }

  lemma {:induction false} RunKeepsInv(s: State, events: seq<Event>, t: State)
    requires Inv(s) && Reaches(s, events, t)
    ensures Inv(t)
    decreases |events|
  {
    if events != [] {
      StepKeepsInv(s, events[0]);
      RunKeepsInv(Step(s, events[0]).next, events[1..], t);
    }
  }

  /** Exactly which steps panic after any run: with the log full, the next `log_write`, which can
      only repeat a block its own operation has logged before, and the commit. */
  lemma PanicExactly(size: nat, processes: nat, events: seq<Event>, s: State, e: Event)
    requires size >= LOGSIZE + 1
    requires Reaches(Init(size, processes), events, s) && Disciplined(s, e)
    ensures |s.blocks| <= LOGSIZE
    ensures Step(s, e).Panics? <==> |s.blocks| == LOGSIZE && (e.LogWrite? || e.Committed?)
    ensures Step(s, e).Panics? && e.LogWrite? ==> |s.ops[e.p].logged| == MAXOPBLOCKS && e.block in s.ops[e.p].logged
  {
    InitInv(size, processes);
    RunKeepsInv(Init(size, processes), events, s);
    SizeConstant(Init(size, processes), events, s);
    forall k | 0 <= k < |s.ops| ensures OpUnused(s.ops[k]) >= 0 {
      assert InLog(s, s.ops[k]);
    }
    if !e.Committed? {
      UnusedOne(s.ops, e.p);
    } else {
      UnusedNonNegative(s.ops);
    }
    if e.LogWrite? {
      assert InLog(s, s.ops[e.p]);
    }
  }

  lemma {:induction false} UnusedNonNegative(ops: seq<Op>)
    requires forall i | 0 <= i < |ops| :: OpUnused(ops[i]) >= 0
    ensures Unused(ops) >= 0
  {
    if ops != [] {
      UnusedNonNegative(ops[..|ops| - 1]);
    }
  }

  lemma {:induction false} SizeConstant(s: State, events: seq<Event>, t: State)
    requires Reaches(s, events, t)
    ensures s.size == t.size && |s.ops| == |t.ops|
    decreases |events|
  {
    if events != [] {
      SizeConstant(Step(s, events[0]).next, events[1..], t);
    }
  }

  // Both panics are reachable.

  function Range(lo: nat, hi: nat): (r: set<nat>)
    requires lo <= hi
    ensures |r| == hi - lo && forall i: nat :: i in r <==> lo <= i < hi
    decreases hi
  {
    if lo == hi then {} else Range(lo, hi - 1) + {hi - 1}
  }

  /** Those of the blocks below `n` that the `p`-th operation logs, ten for each. */
  function Share(n: nat, p: nat): (r: set<nat>)
    ensures |r| <= MAXOPBLOCKS
    ensures forall i: nat :: i in r <==> 10 * p <= i < 10 * p + 10 && i < n
  {
    if n <= 10 * p then {} else Range(10 * p, if n < 10 * p + 10 then n else 10 * p + 10)
  }

  /** Three operations that have logged the blocks below `n`. */
  function Filled(n: nat): (s: State) {
    State(LOGSIZE + 1, 3, false, seq(n, i => i), [Busy(Share(n, 0)), Busy(Share(n, 1)), Busy(Share(n, 2))])
  }

  lemma ReachesMore(s: State, events: seq<Event>, t: State, e: Event)
    requires Reaches(s, events, t) && Disciplined(t, e) && Step(t, e).Moves?
    ensures Reaches(s, events + [e], Step(t, e).next)
    decreases |events|
  {
    if events == [] {
      assert (events + [e])[1..] == [];
    } else {
      ReachesMore(Step(s, events[0]).next, events[1..], t, e);
      assert (events + [e])[1..] == events[1..] + [e];
    }
  }

  lemma FillOne(n: nat)
    requires n < LOGSIZE
    ensures
      var e := LogWrite(n / 10, n);
      Disciplined(Filled(n), e) && Step(Filled(n), e) == Moves(Filled(n + 1))
  {
    hide Share;
    var s := Filled(n);
    ShareGrows(n, 0);
    ShareGrows(n, 1);
    ShareGrows(n, 2);
    assert n !in s.blocks;
    assert Filled(n + 1).blocks == s.blocks + [n];
  }

  lemma ShareGrows(n: nat, p: nat)
    ensures Share(n + 1, p) == if n / 10 == p then Share(n, p) + {n} else Share(n, p)
  {
    hide Share;
  }

  lemma BeginThree() returns (events: seq<Event>)
    ensures Reaches(Init(LOGSIZE + 1, 3), events, Filled(0))
  {
    var s0 := Init(LOGSIZE + 1, 3);
    var s1 := s0.(outstanding := 1, ops := [Busy({}), Idle, Idle]);
    var s2 := s0.(outstanding := 2, ops := [Busy({}), Busy({}), Idle]);
    events := [Begin(0)];
    assert Step(s0, Begin(0)) == Moves(s1);
    ReachesMore(s0, [], s0, Begin(0));
    assert [] + [Begin(0)] == events;
    ReachesMore(s0, events, s1, Begin(1));
    events := events + [Begin(1)];
    ReachesMore(s0, events, s2, Begin(2));
    events := events + [Begin(2)];
    assert Step(s2, Begin(2)).next == Filled(0);
  }

  lemma {:induction false} FilledReachable(n: nat) returns (events: seq<Event>)
    requires n <= LOGSIZE
    ensures Reaches(Init(LOGSIZE + 1, 3), events, Filled(n))
  {
    if n == 0 {
      events := BeginThree();
    } else {
      events := FilledReachable(n - 1);
      FillOne(n - 1);
      ReachesMore(Init(LOGSIZE + 1, 3), events, Filled(n - 1), LogWrite((n - 1) / 10, n - 1));
      events := events + [LogWrite((n - 1) / 10, n - 1)];
    }
  }

  /** Absorption does not help once the log is full: three operations log ten blocks each, and
      the first logs one of its own blocks again. No operation has exceeded its budget. */
  lemma TooBigIsReachable() returns (events: seq<Event>, s: State)
    ensures Reaches(Init(LOGSIZE + 1, 3), events, s)
    ensures Disciplined(s, LogWrite(0, 0)) && Step(s, LogWrite(0, 0)).Panics?
  {
    hide Share, Reaches;
    events := FilledReachable(LOGSIZE);
    s := Filled(LOGSIZE);
    assert Share(LOGSIZE, 0) + {0} == Share(LOGSIZE, 0);
  }

  /** Nor does it help to stay clear of that: the three operations end, and the commit of the
      full log finds no buffer. */
  lemma FullCommitIsReachable() returns (events: seq<Event>, s: State)
    ensures Reaches(Init(LOGSIZE + 1, 3), events, s)
    ensures Disciplined(s, Committed) && Step(s, Committed).Panics?
  {
    hide Share, Reaches;
    events := FilledReachable(LOGSIZE);
    s := Filled(LOGSIZE);
    for p := 0 to 3
      invariant Reaches(Init(LOGSIZE + 1, 3), events, s)
      invariant |s.ops| == 3 && forall q | p <= q < 3 :: s.ops[q].Busy?
      invariant s.outstanding == 3 - p && s.committing == (p == 3) && |s.blocks| == LOGSIZE
    {
      ReachesMore(Init(LOGSIZE + 1, 3), events, s, End(p));
      events, s := events + [End(p)], Step(s, End(p)).next;
    }
  }
}
