/** `kernel/proc.c`: creating, ending and listing processes in nested pid namespaces. */
module Namespaces {
  import opened Common
  import opened Counting
  import opened NamespaceState
  import opened ProcStates

  /** The head of the first namespace on the way up that has one. */
  ghost function FirstHead(nss: seq<Ns>, c: seq<nat>): Option<nat> {
    if c == [] || c[0] >= |nss| then None
    else if nss[c[0]].head.Some? then nss[c[0]].head
    else FirstHead(nss, c[1..])
  }

  class Table {
    var procs: seq<Proc>
    var nss: seq<Ns>
    var nextpid: nat
    ghost var tree: set<nat>

    ghost function Abs(): State
      reads this
    {
      State(procs, nss, tree, nextpid)
    }

    /** `namespaceinit` and `procinit`. */
    constructor ()
      ensures |procs| == NPROC && |nss| == NUMNS && tree == {}
      ensures forall p | 0 <= p < NPROC :: procs[p] == NO_PROC
      ensures forall n | 0 <= n < NUMNS :: nss[n] == Ns(false, None, None, 0, 1)
    {
      procs := seq(NPROC, _ => NO_PROC);
      nss := seq(NUMNS, _ => Ns(false, None, None, 0, 1));
      nextpid, tree := 1, {};
    }

    /** The initial namespace, and the first process in it. */
    method Userinit()
      requires |procs| == NPROC && |nss| == NUMNS
      requires forall p | 0 <= p < NPROC :: procs[p] == NO_PROC
      requires forall n | 0 <= n < NUMNS :: nss[n] == Ns(false, None, None, 0, 1)
      modifies this
      ensures Abs().Inv() && tree == {INIT} && nss[INIT].head == Some(0)
      ensures Abs().Live(0) && procs[0].ns == Some(INIT) && forall p | 0 < p < NPROC :: !Abs().Live(p)
      ensures Abs().In(0, INIT) && Abs().PidOk(0, INIT) && Abs().PidIn(0, INIT) == 1
    {
      hide State.Inv, State.Up, State.NewPids, State.Bumped;
      var n := Allocnamespace();
      tree := {INIT};
      ghost var s := Abs();
      Empty(s);
      assert !s.Live(0);
      var p;
      ghost var slot;
      p, slot := Allocproc(n.value, true);
      NewPidIs(s, 0, INIT, INIT);
      ghost var m := Abs();
      procs := procs[p.value := procs[p.value].(state := RUNNABLE)];
      StateKeeps(m, Abs(), 0);
      ghost var h := Abs();
      nss := nss[n.value := nss[n.value].(head := Some(p.value))];
      HeadKeeps(h, Abs(), INIT);
      RootFacts(Abs());
    }

    /** Whether `b` is `a` or a namespace above it. */
    method CompareNs(a: Option<nat>, b: nat) returns (r: bool)
      requires Abs().Tree() && (a.Some? ==> a.value in tree)
      ensures r <==> a.Some? && b in Abs().Up(a.value)
    {
      var n := a;
      ghost var k := 0;
      if a.Some? {
        ChainFacts(Abs(), a.value);
      }
      while n.Some?
        invariant a.None? ==> n.None?
        invariant a.Some? ==> 0 <= k <= |Abs().Up(a.value)|
        invariant a.Some? ==> n == if k < |Abs().Up(a.value)| then Some(Abs().Up(a.value)[k]) else None
        invariant a.Some? ==> b !in Abs().Up(a.value)[..k]
        decreases if a.Some? then |Abs().Up(a.value)| - k else 0
      {
        assert UpOk(Abs(), a.value, k);
        if n.value == b {
          return true;
        }
        n := nss[n.value].parent;
        k := k + 1;
      }
      r := false;
    }

    /** The process to adopt orphans of a namespace. */
    method GetNsHead(n: nat) returns (h: Option<nat>)
      requires Abs().Tree() && n in tree
      ensures h == FirstHead(nss, Abs().Up(n))
    {
      hide State.Tree, FirstHead;
      ChainFacts(Abs(), n);
      ghost var c := Abs().Up(n);
      ghost var k := 0;
      var curr := n;
      h := nss[n].head;
      assert c[0..] == c;
      assert UpOk(Abs(), n, 0);
      while nss[curr].depth > 0 && h.None?
        invariant 0 <= k < |c| && curr == c[k] && UpOk(Abs(), n, k) && h == nss[curr].head
        invariant FirstHead(nss, c) == FirstHead(nss, c[k..])
        decreases |c| - k
      {
        HeadStep(nss, c, k);
        k := k + 1;
        assert UpOk(Abs(), n, k);
        curr := nss[curr].parent.value;
        h := nss[curr].head;
      }
      HeadStep(nss, c, k);
    }

    /** The first slot that is not in use. */
    method FindUnused() returns (r: Option<nat>)
      requires |procs| == NPROC
      ensures r.Some? ==> r.value < NPROC && !Abs().Live(r.value) && forall p | 0 <= p < r.value :: Abs().Live(p)
      ensures r.None? ==> forall p | 0 <= p < NPROC :: Abs().Live(p)
    {
      for p := 0 to NPROC
        invariant forall q | 0 <= q < p :: Abs().Live(q)
      {
        if procs[p].state == UNUSED {
          return Some(p);
        }
      }
      r := None;
    }

    /** Pids for process `p` in namespace `n` and in every one above it. */
    method AssignPids(p: nat, n: nat)
      requires Abs().Tree() && p < |procs| && |procs[p].pids| == MAXDEPTH && n in tree
      modifies this`procs, this`nss
      ensures procs == old(procs)[p := old(procs)[p].(pids := old(Abs()).NewPids(n, old(procs)[p].pids))]
      ensures nss == old(Abs()).Bumped(old(Abs()).Up(n))
    {
      hide State.Tree, State.Up, State.Bumped, State.NewPids, State.NewPid, Partial;
      ghost var s := Abs();
      ChainFacts(s, n);
      ghost var c := s.Up(n);
      ghost var k := 0;
      var curr: Option<nat> := Some(n);
      var i: int := nss[n].depth;
      PartialNone(s, n, s.procs[p].pids);
      while i >= 0
        invariant -1 <= i && k == |c| - 1 - i && 0 <= k
        invariant i >= 0 ==> curr == Some(c[k])
        invariant procs == s.procs[p := s.procs[p].(pids := Partial(s, n, s.procs[p].pids, i))]
        invariant nss == s.Bumped(c[..k])
      {
        assert UpOk(s, n, k);
        NotBefore(s, n, k);
        BumpMore(s, c, k);
        PartialMore(s, n, s.procs[p].pids, i);
        var m := curr.value;
        procs := procs[p := procs[p].(pids := procs[p].pids[i := nss[m].next])];
        nss := nss[m := nss[m].(next := nss[m].next + 1)];
        curr := nss[m].parent;
        k := k + 1;
        i := i - 1;
      }
      assert c[..k] == c;
      PartialAll(s, n, s.procs[p].pids);
    }

    /** A process for namespace `n`; `memOk` says whether its pages could be allocated. */
    method Allocproc(n: nat, memOk: bool) returns (r: Option<nat>, ghost p: nat)
      requires Abs().Inv() && n in tree
      modifies this
      ensures Abs().Inv() && tree == old(tree)
      ensures r.None? <==> !memOk || AllLive(old(Abs()))
      ensures AllLive(old(Abs())) ==> Abs() == old(Abs())
      ensures !AllLive(old(Abs())) ==> p < NPROC && !old(Abs()).Live(p) && |old(procs)[p].pids| == MAXDEPTH
      ensures !AllLive(old(Abs())) ==> forall q | 0 <= q < p :: old(Abs()).Live(q)
      ensures !AllLive(old(Abs())) ==>
        Abs() == if memOk then old(Abs()).Alloc(p, n) else old(Abs()).Alloc(p, n).Free(p)
      ensures r.Some? ==> r.value == p
    {
      hide State.Pids, State.Tree, State.Up, State.NewPids, State.Bumped;
      ghost var s := Abs();
      var found := FindUnused();
      if found.None? {
        return None, 0;
      }
      var slot := found.value;
      p := slot;
      assert s.ProcOk(slot);
      AllocKeeps(s, slot, n);
      procs := procs[slot := procs[slot].(pid := nextpid, state := USED, ns := Some(n))];
      nextpid := nextpid + 1;
      SameNss(s, Abs(), n, s.procs[slot].pids);
      AssignPids(slot, n);
      assert Abs() == s.Alloc(slot, n);
      if !memOk {
        FreeKeeps(s.Alloc(slot, n), slot);
        Freeproc(slot);
        return None, slot;
      }
      r := Some(slot);
    }

    method Freeproc(p: nat)
      requires p < |procs|
      modifies this`procs
      ensures Abs() == old(Abs()).Free(p)
    {
      procs := procs[p := NO_PROC];
    }

    /** The first namespace that is not in use, made ready. */
    method Allocnamespace() returns (r: Option<nat>)
      requires |nss| == NUMNS
      modifies this`nss
      ensures r.None? <==> forall n | 0 <= n < NUMNS :: old(nss)[n].used
      ensures r.None? ==> nss == old(nss)
      ensures r.Some? ==> r.value < NUMNS && !old(nss)[r.value].used
      ensures r.Some? ==> forall n | 0 <= n < r.value :: old(nss)[n].used
      ensures r.Some? ==> nss == old(nss)[r.value := Ns(true, None, None, 0, 1)]
    {
      for n := 0 to NUMNS
        invariant nss == old(nss) && forall m | 0 <= m < n :: nss[m].used
      {
        if !nss[n].used {
          nss := nss[n := Ns(true, None, None, 0, 1)];
          return Some(n);
        }
      }
      r := None;
    }

    /** What `fork` and `clone` have in common: a child of `p` in namespace `n`, which is that of `p` or
        just below; `head` says whether the child is to be its head. */
    method Spawn(p: nat, n: nat, head: bool, memOk: bool, copyOk: bool) returns (r: int, ghost c: nat)
      requires Abs().Inv() && Abs().Live(p) && n in tree
      requires procs[p].ns.Some? && procs[p].ns.value in Abs().Up(n)
      modifies this
      ensures Abs().Inv() && tree == old(tree)
      ensures r == -1 <==> !memOk || !copyOk || AllLive(old(Abs()))
      ensures r == -1 ==> SameLive(old(Abs()), Abs())
      ensures r != -1 ==> Created(old(Abs()), Abs(), c, p) && procs[c].ns == Some(n)
      ensures r != -1 ==> FreshPids(old(Abs()), Abs(), c, n)
      ensures r != -1 ==> r == old(nss)[procs[p].ns.value].next
      ensures r != -1 && head ==> nss[n].head == Some(c)
    {
      hide State.Pids, State.Tree, State.Up, State.NewPids, State.Bumped;
      ghost var s := Abs();
      var mine := procs[p].ns.value;
      ghost var slot;
      var np;
      np, slot := Allocproc(n, memOk);
      c := slot;
      if np.None? {
        return -1, c;
      }
      var child := np.value;
      NewPidIs(s, child, n, mine);
      TreeFacts(s, n);
      ghost var m := Abs();
      assert FreshPids(s, m, child, n) by { FreshFacts(s, child, n); }
      if head {
        nss := nss[n := nss[n].(head := Some(child))];
      }
      ghost var h := Abs();
      HeadKeeps(m, h, n);
      if !copyOk {
        FreeKeeps(h, child);
        Freeproc(child);
        return -1, c;
      }
      r := procs[child].pids[nss[mine].depth];
      procs := procs[child := procs[child].(parent := Some(p))];
      procs := procs[child := procs[child].(state := RUNNABLE)];
      Started(h, Abs(), child, n);
    }

    /** A child of `p` in its namespace; the pid it has there, or -1. */
    method Fork(p: nat, memOk: bool, copyOk: bool) returns (r: int, ghost c: nat)
      requires Abs().Inv() && Abs().Live(p)
      modifies this
      ensures Abs().Inv() && tree == old(tree)
      ensures r == -1 <==> !memOk || !copyOk || AllLive(old(Abs()))
      ensures r == -1 ==> SameLive(old(Abs()), Abs())
      ensures r != -1 ==> Created(old(Abs()), Abs(), c, p) && procs[c].ns == procs[p].ns
      ensures r != -1 ==> ReturnsPid(old(Abs()), Abs(), c, p, r)
    {
      hide State.Pids, State.Tree, State.Up;
      ghost var s := Abs();
      assert s.ProcOk(p);
      var n := procs[p].ns.value;
      TreeFacts(s, n);
      r, c := Spawn(p, n, false, memOk, copyOk);
      if r != -1 {
        TreeFacts(Abs(), n);
        InOk(Abs(), c, n);
      }
    }

    /** A child of `p` at the head of a new namespace below that of `p`; the pid it has in the
        namespace of `p`, or -1. */
    method Clone(p: nat, memOk: bool, copyOk: bool) returns (r: int, ghost c: nat, ghost m: nat)
      requires Abs().Inv() && Abs().Live(p)
      modifies this
      ensures Abs().Inv() && old(tree) <= tree
      ensures procs[p].ns.Some? && procs[p].ns == old(procs)[p].ns && procs[p].ns.value < |old(nss)|
      ensures r == -1 <==>
        || !memOk || !copyOk || AllLive(old(Abs())) || AllUsed(old(nss))
        || old(nss)[procs[p].ns.value].depth + 1 >= MAXDEPTH
      ensures r == -1 ==> SameLive(old(Abs()), Abs())
      ensures r != -1 ==> Created(old(Abs()), Abs(), c, p) && procs[c].ns == Some(m)
      ensures r != -1 ==> ReturnsPid(old(Abs()), Abs(), c, p, r)
      ensures r != -1 ==> HungBelow(old(Abs()), Abs(), m, procs[p].ns.value) && nss[m].head == Some(c)
      ensures r != -1 ==> Abs().In(c, m) && Abs().PidOk(c, m) && Abs().PidIn(c, m) == 1
      ensures r != -1 ==> forall q | q != c :: !Abs().In(q, m)
    {
      hide State.Pids, State.Tree, State.Up;
      ghost var s := Abs();
      assert s.ProcOk(p);
      var mine := procs[p].ns.value;
      TreeFacts(s, mine);
      var ns := Allocnamespace();
      if ns.None? {
        return -1, 0, 0;
      }
      var n := ns.value;
      m := n;
      nss := nss[n := nss[n].(parent := Some(mine))];
      if nss[mine].depth + 1 >= MAXDEPTH {
        LeakKeeps(s, Abs(), n);
        return -1, 0, 0;
      }
      nss := nss[n := nss[n].(depth := nss[mine].depth + 1)];
      tree := tree + {n};
      assert Abs() == s.Hang(n, mine);
      HangKeeps(s, n, mine);
      HangUp(s, n, mine);
      ghost var h := Abs();
      SameProcs(s, h);
      r, c := Spawn(p, n, true, memOk, copyOk);
      if r != -1 {
        Cloned(h, Abs(), c, n, mine);
        StillAlone(h, Abs(), c, p, n);
      }
    }

    method Getpid(p: nat) returns (r: nat)
      requires Abs().Inv() && Abs().Live(p)
      ensures procs[p].ns.Some? && Abs().In(p, procs[p].ns.value)
      ensures Abs().PidOk(p, procs[p].ns.value) && r == Abs().PidIn(p, procs[p].ns.value)
    {
      hide State.Pids, State.Tree, State.Up;
      assert Abs().ProcOk(p);
      TreeFacts(Abs(), procs[p].ns.value);
      InOk(Abs(), p, procs[p].ns.value);
      r := procs[p].pids[nss[procs[p].ns.value].depth];
    }

    /** Children of `p` go to the heads of their namespaces. */
    method Reparent(p: nat)
      requires Abs().Inv()
      modifies this`procs
      ensures Abs().Inv() && procs == Adopted(old(Abs()), p, NPROC)
    {
      hide State.Pids, State.Tree, State.Up, Adopted, FirstHead;
      ghost var s := Abs();
      AdoptedNone(s, p);
      for q := 0 to NPROC
        invariant nss == s.nss && tree == s.tree && nextpid == s.nextpid
        invariant procs == Adopted(s, p, q)
      {
        AdoptedMore(s, p, q);
        assert s.ProcOk(q);
        SameNss(s, Abs(), if procs[q].ns.Some? then procs[q].ns.value else 0, seq<nat>(MAXDEPTH, _ => 0));
        if procs[q].parent == Some(p) {
          var h := GetNsHead(procs[q].ns.value);
          procs := procs[q := procs[q].(parent := h)];
        }
      }
      AdoptedKeeps(s, p);
    }

    /** False for the panic: the first process may not exit. */
    method Exit(p: nat) returns (ok: bool)
      requires Abs().Inv() && Abs().Live(p)
      modifies this`procs
      ensures Abs().Inv() && (ok <==> p != 0)
      ensures !ok ==> Abs() == old(Abs())
      ensures ok ==> procs == Adopted(old(Abs()), p, NPROC)[p := Adopted(old(Abs()), p, NPROC)[p].(state := ZOMBIE)]
    {
      hide State.Pids, State.Tree, Adopted;
      ghost var s := Abs();
      if p == 0 {
        return false;
      }
      Reparent(p);
      ghost var m := Abs();
      procs := procs[p := procs[p].(state := ZOMBIE)];
      StateKeeps(m, Abs(), p);
      ok := true;
    }

    /** One pass of `wait`: the global pid of a child that has exited, which is then gone; -1; or
        nothing, if it has to sleep. */
    method Wait(p: nat, copyOk: bool, killed: bool) returns (r: Option<int>, ghost c: nat)
      requires Abs().Inv() && Abs().Live(p)
      modifies this`procs
      ensures Abs().Inv()
      ensures Exited(old(Abs()), p, c) ==> r == if copyOk then Some(old(procs)[c].pid as int) else Some(-1)
      ensures forall q | 0 <= q < c :: !Exited(old(Abs()), p, q)
      ensures !Exited(old(Abs()), p, c) ==> forall q | 0 <= q < NPROC :: !Exited(old(Abs()), p, q)
      ensures !Exited(old(Abs()), p, c) ==>
        r == if killed || forall q | 0 <= q < NPROC :: old(procs)[q].parent != Some(p) then Some(-1) else None
      ensures Abs() == if Exited(old(Abs()), p, c) && copyOk then old(Abs()).Free(c) else old(Abs())
    {
      hide State.Pids, State.Tree;
      var kids := false;
      for q := 0 to NPROC
        invariant procs == old(procs)
        invariant forall o | 0 <= o < q :: !Exited(Abs(), p, o)
        invariant kids <==> exists o :: 0 <= o < q && procs[o].parent == Some(p)
      {
        if procs[q].parent == Some(p) {
          kids := true;
          if procs[q].state == ZOMBIE {
            var pid := procs[q].pid;
            if !copyOk {
              return Some(-1), q;
            }
            FreeKeeps(Abs(), q);
            Freeproc(q);
            return Some(pid), q;
          }
        }
      }
      c := 0;
      r := if !kids || killed then Some(-1) else None;
    }

    /** How many processes the namespace of the caller has, and the pids written out for them;
        `canCopy` says which entries of the caller's array can be written. */
    method PsList(caller: nat, limit: int, global: bool, canCopy: nat -> bool) returns (r: int, out: seq<nat>)
      requires Abs().Inv() && Abs().Live(caller)
      ensures procs[caller].ns.Some?
      ensures
        var all := Listed(Abs(), procs[caller].ns.value, NPROC);
        var want := if limit > |all| then |all| else if limit < 0 then 0 else limit;
        && |out| <= want
        && out == Shown(Abs(), all, procs[caller].ns.value, global)[..|out|]
        && (forall i | 0 <= i < |out| :: canCopy(i))
        && r == (if |out| == want then |all| else -1)
        && (|out| < want ==> !canCopy(|out|))
    {
      hide State.Pids, State.Tree, State.Up, Listed, Shown;
      ghost var s := Abs();
      assert s.ProcOk(caller);
      var mine := procs[caller].ns.value;
      var count := 0;
      ListedNone(s, mine);
      for p := 0 to NPROC
        invariant count == |Listed(s, mine, p)|
      {
        ListedMore(s, mine, p);
        assert s.ProcOk(p);
        if procs[p].state != UNUSED {
          var seen := CompareNs(procs[p].ns, mine);
          if seen {
            count := count + 1;
          }
        }
      }
      var most := if limit > count then count else limit;
      ghost var all := Listed(s, mine, NPROC);
      var index := 0;
      out := [];
      for p := 0 to NPROC
        invariant index == |out|
        invariant index == if most < 0 then 0 else if |Listed(s, mine, p)| < most then |Listed(s, mine, p)| else most
        invariant out == Shown(s, Listed(s, mine, p), mine, global)[..index]
        invariant forall i | 0 <= i < index :: canCopy(i)
      {
        ListedMore(s, mine, p);
        ShownMore(s, mine, p, global);
        assert s.ProcOk(p);
        if procs[p].state != UNUSED {
          var seen := CompareNs(procs[p].ns, mine);
          if seen && index < most {
            TreeFacts(s, mine);
            var pid := procs[p].pids[nss[mine].depth];
            if global {
              pid := procs[p].pid;
            }
            if !canCopy(index) {
              ListedPrefix(s, mine, p, NPROC);
              ShownPrefix(s, Listed(s, mine, p), all, mine, global);
              return -1, out;
            }
            out := out + [pid];
            index := index + 1;
          }
        }
      }
      r := count;
    }
  }

  /** Pids handed out at the levels above `i` in number. */
  ghost function Partial(s: State, n: nat, was: seq<nat>, i: int): (r: seq<nat>)
    requires |was| == MAXDEPTH
    ensures |r| == MAXDEPTH
    ensures forall d | 0 <= d < MAXDEPTH :: r[d] == if d > i then s.NewPid(n, was, d) else was[d]
  {
    seq(MAXDEPTH, d requires 0 <= d < MAXDEPTH => if d > i then s.NewPid(n, was, d) else was[d])
  }

  lemma PartialNone(s: State, n: nat, was: seq<nat>)
    requires s.Tree() && n in s.tree && |was| == MAXDEPTH
    ensures n < |s.nss| && Partial(s, n, was, s.nss[n].depth) == was
    ensures s.Bumped(s.Up(n)[..0]) == s.nss
  {
    ChainFacts(s, n);
  }

  lemma PartialMore(s: State, n: nat, was: seq<nat>, i: nat)
    requires s.Tree() && n in s.tree && |was| == MAXDEPTH && i < |s.Up(n)| && i < MAXDEPTH
    ensures s.Up(n)[|s.Up(n)| - 1 - i] < |s.nss|
    ensures Partial(s, n, was, i)[i := s.nss[s.Up(n)[|s.Up(n)| - 1 - i]].next] == Partial(s, n, was, i - 1)
  {
    ChainFacts(s, n);
    assert UpOk(s, n, |s.Up(n)| - 1 - i);
  }

  lemma PartialAll(s: State, n: nat, was: seq<nat>)
    requires |was| == MAXDEPTH
    ensures Partial(s, n, was, -1) == s.NewPids(n, was)
  {
  }

  lemma HeadStep(nss: seq<Ns>, c: seq<nat>, k: nat)
    requires k < |c| && c[k] < |nss|
    ensures nss[c[k]].head.Some? ==> FirstHead(nss, c[k..]) == nss[c[k]].head
    ensures nss[c[k]].head.None? ==> FirstHead(nss, c[k..]) == FirstHead(nss, c[k + 1..])
    ensures FirstHead(nss, c[|c|..]) == None
  {
    assert c[k..][1..] == c[k + 1..];
  }

  /** No namespace comes twice on the way up. */
  lemma NotBefore(s: State, n: nat, k: nat)
    requires s.Tree() && n in s.tree && k < |s.Up(n)|
    ensures s.Up(n)[k] !in s.Up(n)[..k]
  {
    ChainFacts(s, n);
    forall j | 0 <= j < k ensures s.Up(n)[j] != s.Up(n)[k] {
      assert UpOk(s, n, j) && UpOk(s, n, k);
    }
  }

  lemma BumpMore(s: State, c: seq<nat>, k: nat)
    requires k < |c| && c[k] < |s.nss| && c[k] !in c[..k]
    ensures
      var was := s.Bumped(c[..k]);
      was[c[k]] == s.nss[c[k]] && s.Bumped(c[..k + 1]) == was[c[k] := was[c[k]].(next := was[c[k]].next + 1)]
  {
    assert c[..k + 1] == c[..k] + [c[k]];
  }

  lemma SameTree(s: State, r: State)
    requires r.nss == s.nss && r.tree == s.tree && s.Tree()
    ensures r.Tree()
  {
    forall k | k in r.tree ensures r.NsOk(k) {
      assert s.NsOk(k);
    }
  }

  lemma RootFacts(s: State)
    requires s.Inv() && s.Live(0) && s.procs[0].ns == Some(INIT)
    ensures s.In(0, INIT) && s.PidOk(0, INIT)
  {
    TreeFacts(s, INIT);
  }

  /** No process yet. */
  lemma Empty(s: State)
    requires |s.procs| == NPROC && |s.nss| == NUMNS && s.tree == {INIT}
    requires forall p | 0 <= p < NPROC :: s.procs[p] == NO_PROC
    requires s.nss[INIT] == Ns(true, None, None, 0, 1)
    ensures s.Inv() && INIT in s.Up(INIT) && forall p :: !s.Live(p)
  {
    assert s.NsOk(INIT);
    assert s.Up(INIT)[0] == INIT;
    forall p | 0 <= p < NPROC ensures s.ProcOk(p) && !s.Live(p) {
      assert s.procs[p].state == UNUSED;
    }
  }

  /** What depends on the namespaces alone. */
  lemma SameNss(s: State, r: State, n: nat, was: seq<nat>)
    requires r.nss == s.nss && r.tree == s.tree && s.Tree() && |was| == MAXDEPTH
    ensures r.Tree() && r.Up(n) == s.Up(n) && r.Bumped(r.Up(n)) == s.Bumped(s.Up(n))
    ensures r.NewPids(n, was) == s.NewPids(n, was)
  {
    hide Chain, State.Tree;
    SameTree(s, r);
    assert r.Up(n) == s.Up(n);
    assert forall d | 0 <= d < MAXDEPTH :: r.NewPid(n, was, d) == s.NewPid(n, was, d);
  }

  ghost predicate AllLive(s: State) {
    forall p | 0 <= p < NPROC :: s.Live(p)
  }

  lemma SameProcs(s: State, r: State)
    requires r.procs == s.procs
    ensures AllLive(s) <==> AllLive(r)
  {
    assert forall p :: s.Live(p) == r.Live(p);
  }

  /** The same processes. */
  ghost predicate SameLive(s: State, r: State) {
    && |r.procs| == |s.procs|
    && forall q | 0 <= q < |s.procs| :: (r.Live(q) <==> s.Live(q)) && (s.Live(q) ==> r.procs[q] == s.procs[q])
  }

  /** One process more, `c`, a child of `p`. */
  ghost predicate Created(s: State, r: State, c: nat, p: nat) {
    && c < |s.procs| && |r.procs| == |s.procs| && !s.Live(c) && r.Live(c) && r.procs[c].parent == Some(p)
    && forall q | 0 <= q < |s.procs| && q != c :: r.procs[q] == s.procs[q]
  }

  /** The result is the pid of `c` as the namespace of `p` sees it, the next one of that namespace. */
  ghost predicate ReturnsPid(s: State, r: State, c: nat, p: nat, pid: int) {
    && p < |r.procs| && r.procs[p].ns.Some?
    && var n := r.procs[p].ns.value;
    && n < |s.nss| && r.In(c, n) && r.PidOk(c, n)
    && pid == r.PidIn(c, n) == s.nss[n].next
  }

  ghost predicate AllUsed(nss: seq<Ns>) {
    forall n | 0 <= n < |nss| :: nss[n].used
  }

  /** The new process has the next pid of every namespace it is in. */
  ghost predicate FreshPids(s: State, r: State, c: nat, n: nat) {
    && SameLinks(s, r) && c < |r.procs|
    && forall a | a in s.Up(n) :: FreshPid(s, r, c, a)
  }

  ghost predicate FreshPid(s: State, r: State, c: nat, a: nat) {
    && a < |s.nss| && c < |r.procs| && s.nss[a].depth < |r.procs[c].pids|
    && r.procs[c].pids[s.nss[a].depth] == s.nss[a].next
  }

  /** `m` is a namespace of its own, just below `n`. */
  ghost predicate HungBelow(s: State, r: State, m: nat, n: nat) {
    && m !in s.tree && m in r.tree && n in s.tree && n < |s.nss| && m < |r.nss|
    && r.nss[m].parent == Some(n) && r.nss[m].depth == s.nss[n].depth + 1
  }

  lemma FreshFacts(s: State, p: nat, n: nat)
    requires s.Inv() && p < NPROC && |s.procs[p].pids| == MAXDEPTH && n in s.tree
    ensures FreshPids(s, s.Alloc(p, n), p, n)
  {
    AllocTree(s, p, n);
    forall a | a in s.Up(n) ensures FreshPid(s, s.Alloc(p, n), p, a) {
      NewPidIs(s, p, n, a);
    }
  }

  lemma TameProcs(s: State, r: State)
    requires s.Inv() && SameLinks(s, r) && NotLess(s, r) && r.tree == s.tree && r.nextpid == s.nextpid
    requires r.procs == s.procs && forall n | n in s.tree && n < |s.nss| :: r.nss[n].used
    ensures r.Inv()
  {
    forall q | 0 <= q < |s.procs| ensures |s.procs[q].pids| == MAXDEPTH && (s.procs[q].parent.Some? ==> s.Live(q)) {
      assert s.ProcOk(q);
    }
    TameKeeps(s, r);
  }

  lemma HeadKeeps(s: State, r: State, n: nat)
    requires s.Inv() && n in s.tree && n < |s.nss| && |r.nss| == |s.nss|
    requires r == s.(nss := s.nss[n := s.nss[n].(head := r.nss[n].head)])
    ensures r.Inv() && SameLinks(s, r)
  {
    assert forall k | k in s.tree :: s.NsOk(k);
    TameProcs(s, r);
  }

  /** A namespace taken into use outside the tree disturbs nothing. */
  lemma LeakKeeps(s: State, r: State, n: nat)
    requires s.Inv() && n < |s.nss| && !s.nss[n].used && |r.nss| == |s.nss|
    requires r == s.(nss := s.nss[n := r.nss[n]])
    ensures r.Inv()
  {
    forall k | k in s.tree ensures s.NsOk(k) && k != n {
    }
    TameProcs(s, r);
  }

  lemma HangUp(s: State, m: nat, n: nat)
    requires s.Inv() && m < NUMNS && !s.nss[m].used && n in s.tree && n < NUMNS && s.nss[n].depth + 1 < MAXDEPTH
    ensures n in s.Hang(m, n).Up(m) && m in s.Hang(m, n).Up(m)
    ensures m !in s.tree
  {
    var r := s.Hang(m, n);
    assert s.NsOk(n);
    assert r.Up(m)[0] == m;
    assert Chain(r.nss, n, s.nss[n].depth)[0] == n;
    assert r.Up(m)[1] == n;
  }

  lemma Cloned(s: State, r: State, c: nat, m: nat, n: nat)
    requires s.Tree() && r.Inv() && r.tree == s.tree && m in s.tree && n in s.Up(m) && m in s.Up(m)
    requires r.Live(c) && r.procs[c].ns == Some(m) && FreshPids(s, r, c, m)
    ensures m < |s.nss| && n < |s.nss| && n < |r.nss| && m < |r.nss|
    ensures r.In(c, m) && r.PidOk(c, m) && r.PidIn(c, m) == s.nss[m].next
    ensures r.In(c, n) && r.PidOk(c, n) && r.PidIn(c, n) == s.nss[n].next
    ensures r.nss[m].parent == s.nss[m].parent && r.nss[m].depth == s.nss[m].depth
  {
    SameUp(s, r, m);
    UpUnique(s, m, n);
    assert s.NsOk(m) && s.NsOk(n);
    assert FreshPid(s, r, c, m) && FreshPid(s, r, c, n);
    assert r.In(c, m) && r.In(c, n);
  }

  /** A namespace that was empty has just the new process. */
  lemma StillAlone(s: State, r: State, c: nat, p: nat, m: nat)
    requires s.Inv() && Created(s, r, c, p) && SameLinks(s, r) && r.tree == s.tree
    requires forall q :: !s.In(q, m)
    ensures forall q | q != c :: !r.In(q, m)
  {
    hide State.Up;
    forall q: nat | q != c && r.Live(q) ensures !r.In(q, m) {
      SameIn(s, r, q, m);
    }
  }

  lemma TreeFacts(s: State, n: nat)
    requires s.Tree() && n in s.tree
    ensures n < |s.nss| == NUMNS && s.nss[n].used && s.nss[n].depth < MAXDEPTH && n in s.Up(n)
  {
    assert s.NsOk(n);
    assert s.Up(n)[0] == n;
  }

  /** A new process gets its parent and becomes runnable. */
  lemma Started(s: State, r: State, c: nat, n: nat)
    requires s.Inv() && s.Live(c) && s.procs[c].ns == Some(n) && n in s.tree
    requires r == s.(procs := r.procs) && c < NPROC == |r.procs| && r.procs == s.procs[c := r.procs[c]]
    requires r.procs[c] == s.procs[c].(parent := r.procs[c].parent, state := RUNNABLE)
    ensures r.Inv() && r.In(c, n) && n < |r.nss| && r.PidOk(c, n)
  {
    forall q | 0 <= q < |s.procs| ensures |s.procs[q].pids| == MAXDEPTH && (s.procs[q].parent.Some? ==> s.Live(q)) {
      assert s.ProcOk(q);
    }
    assert forall k | k in s.tree :: s.NsOk(k);
    TameKeeps(s, r);
    TreeFacts(r, n);
    InOk(r, c, n);
  }

  ghost predicate Exited(s: State, p: nat, c: nat) {
    c < |s.procs| && s.procs[c].parent == Some(p) && s.procs[c].state == ZOMBIE
  }

  /** The first `n` processes, if children of `p`, have the head of their namespace as parent. */
  ghost function Adopted(s: State, p: nat, n: nat): (r: seq<Proc>)
    ensures |r| == |s.procs|
    ensures forall q | 0 <= q < |r| :: r[q] == AdoptedOne(s, p, q, n)
  {
    seq(|s.procs|, q requires 0 <= q < |s.procs| => AdoptedOne(s, p, q, n))
  }

  ghost function AdoptedOne(s: State, p: nat, q: nat, n: nat): Proc
    requires q < |s.procs|
  {
    var c := s.procs[q];
    if q < n && c.parent == Some(p) && c.ns.Some? then c.(parent := FirstHead(s.nss, s.Up(c.ns.value))) else c
  }

  lemma AdoptedNone(s: State, p: nat)
    ensures Adopted(s, p, 0) == s.procs
  {
  }

  lemma AdoptedMore(s: State, p: nat, q: nat)
    requires q < |s.procs|
    ensures Adopted(s, p, q)[q] == s.procs[q]
    ensures Adopted(s, p, q + 1) == Adopted(s, p, q)[q := AdoptedOne(s, p, q, q + 1)]
  {
  }

  lemma AdoptedKeeps(s: State, p: nat)
    requires s.Inv()
    ensures s.(procs := Adopted(s, p, NPROC)).Inv()
  {
    var r := s.(procs := Adopted(s, p, NPROC));
    forall q | 0 <= q < |s.procs| ensures |s.procs[q].pids| == MAXDEPTH && (s.procs[q].parent.Some? ==> s.Live(q)) {
      assert s.ProcOk(q);
    }
    assert forall k | k in s.tree :: s.NsOk(k);
    TameKeeps(s, r);
  }

  lemma StateKeeps(s: State, r: State, p: nat)
    requires s.Inv() && s.Live(p) && |r.procs| == |s.procs| && r == s.(procs := s.procs[p := r.procs[p]])
    requires r.procs[p] == s.procs[p].(state := r.procs[p].state) && r.Live(p)
    ensures r.Inv()
  {
    forall q | 0 <= q < |s.procs| ensures |s.procs[q].pids| == MAXDEPTH && (s.procs[q].parent.Some? ==> s.Live(q)) {
      assert s.ProcOk(q);
    }
    assert forall k | k in s.tree :: s.NsOk(k);
    TameKeeps(s, r);
  }

  // Listing.

  /** Of the first `k` processes those that namespace `n` sees, in table order. */
  ghost function Listed(s: State, n: nat, k: nat): seq<nat> {
    if k == 0 then [] else Listed(s, n, k - 1) + if s.In(k - 1, n) then [k - 1] else []
  }

  /** What is written out for each. */
  ghost function Shown(s: State, ps: seq<nat>, n: nat, global: bool): (r: seq<nat>)
    ensures |r| == |ps|
    ensures forall i | 0 <= i < |ps| :: r[i] == ShownOne(s, ps[i], n, global)
  {
    seq(|ps|, i requires 0 <= i < |ps| => ShownOne(s, ps[i], n, global))
  }

  ghost function ShownOne(s: State, p: nat, n: nat, global: bool): nat {
    if p >= |s.procs| then 0
    else if global then s.procs[p].pid
    else if n < |s.nss| && s.nss[n].depth < |s.procs[p].pids| then s.PidIn(p, n)
    else 0
  }

  lemma ListedNone(s: State, n: nat)
    ensures Listed(s, n, 0) == [] && Shown(s, [], n, true) == [] == Shown(s, [], n, false)
  {
  }

  lemma ListedMore(s: State, n: nat, k: nat)
    ensures Listed(s, n, k + 1) == Listed(s, n, k) + if s.In(k, n) then [k] else []
    ensures s.In(k, n) <==> s.Live(k) && s.procs[k].ns.Some? && n in s.Up(s.procs[k].ns.value)
  {
  }

  lemma ShownMore(s: State, n: nat, k: nat, global: bool)
    ensures Shown(s, Listed(s, n, k) + [k], n, global)
            == Shown(s, Listed(s, n, k), n, global) + [ShownOne(s, k, n, global)]
  {
  }

  lemma {:induction false} ListedPrefix(s: State, n: nat, k: nat, m: nat)
    requires k <= m
    ensures Listed(s, n, k) <= Listed(s, n, m)
    decreases m
  {
    if k < m {
      ListedPrefix(s, n, k, m - 1);
    }
  }

  lemma ShownPrefix(s: State, ps: seq<nat>, qs: seq<nat>, n: nat, global: bool)
    requires ps <= qs
    ensures Shown(s, ps, n, global) <= Shown(s, qs, n, global)
  {
  }

  /** Exactly the live processes of the namespace and those below it, each once. */
  lemma {:induction false} ListedExactly(s: State, n: nat, k: nat)
    ensures Distinct(Listed(s, n, k))
    ensures forall p: nat :: p in Listed(s, n, k) <==> p < k && s.In(p, n)
  {
    if k > 0 {
      ListedExactly(s, n, k - 1);
      var ps := Listed(s, n, k - 1);
      forall i, j | 0 <= i < j < |Listed(s, n, k)| ensures Listed(s, n, k)[i] != Listed(s, n, k)[j] {
        if j == |ps| {
          assert ps[i] in ps;
        }
      }
    }
  }

  /** The pids written out are all different. */
  lemma ShownDistinct(s: State, n: nat, global: bool)
    requires s.Inv()
    ensures Distinct(Shown(s, Listed(s, n, NPROC), n, global))
  {
    hide State.Tree, State.Up, Listed, Shown;
    var ps := Listed(s, n, NPROC);
    ListedExactly(s, n, NPROC);
    forall i, j | 0 <= i < j < |ps| ensures ShownOne(s, ps[i], n, global) != ShownOne(s, ps[j], n, global) {
      assert ps[i] in ps && ps[j] in ps && ps[i] != ps[j];
      assert s.In(ps[i], n) && s.In(ps[j], n);
    }
  }

  /** A value is written out exactly if it is the pid, as the namespace sees it, of a process there. */
  lemma ShownExactly(s: State, n: nat, v: nat)
    requires s.Inv()
    ensures v in Shown(s, Listed(s, n, NPROC), n, false)
            <==> exists p :: s.In(p, n) && s.PidOk(p, n) && s.PidIn(p, n) == v
  {
    hide State.Tree, State.Up, Listed, Shown;
    var ps := Listed(s, n, NPROC);
    var out := Shown(s, ps, n, false);
    ListedExactly(s, n, NPROC);
    if v in out {
      var i :| 0 <= i < |out| && out[i] == v;
      assert ps[i] in ps;
      assert s.In(ps[i], n) && s.PidOk(ps[i], n);
    }
    if p :| s.In(p, n) && s.PidOk(p, n) && s.PidIn(p, n) == v {
      assert p in ps;
      var i :| 0 <= i < |ps| && ps[i] == p;
      assert out[i] == v;
    }
  }
}
