/** The process and namespace tables of `kernel/proc.c`. */
module NamespaceState {
  import opened Common
  import opened ProcStates

  const NPROC := 64
  const NUMNS := 64
  const MAXDEPTH := 8
  const INIT := 0

  datatype Proc = Proc(state: PState, pid: nat, parent: Option<nat>, ns: Option<nat>, pids: seq<nat>)

  /** A slot not in use. */
  const NO_PROC := Proc(UNUSED, 0, None, None, [0, 0, 0, 0, 0, 0, 0, 0])

  datatype Ns = Ns(used: bool, parent: Option<nat>, head: Option<nat>, depth: nat, next: nat)

  /** From a namespace up to the initial one, along `d` parent links. */
  function Chain(nss: seq<Ns>, n: nat, d: nat): (c: seq<nat>)
    ensures c != [] && c[0] == n
    decreases d
  {
    if d > 0 && n < |nss| && nss[n].parent.Some? then [n] + Chain(nss, nss[n].parent.value, d - 1) else [n]
  }

  /** `tree` are the namespaces hung in the tree; processes live only in those. */
  datatype State = State(procs: seq<Proc>, nss: seq<Ns>, tree: set<nat>, nextpid: nat) {
    predicate Live(p: nat) {
      p < |procs| && procs[p].state != UNUSED
    }

    /** A namespace of the tree: depth below the limit, and a parent one level up, except at the top. */
    ghost predicate NsOk(n: nat) {
      && n < |nss| && nss[n].used && nss[n].depth < MAXDEPTH && nss[n].next >= 1
      && (nss[n].depth == 0 <==> n == INIT)
      && (n == INIT ==> nss[n].parent.None?)
      && (n != INIT ==>
            && nss[n].parent.Some? && nss[n].parent.value in tree && nss[n].parent.value < |nss|
            && nss[nss[n].parent.value].depth + 1 == nss[n].depth)
    }

    ghost predicate ProcOk(p: nat)
      requires p < |procs|
    {
      && |procs[p].pids| == MAXDEPTH
      && (Live(p) ==> procs[p].ns.Some? && procs[p].ns.value in tree && procs[p].pid < nextpid)
      && (procs[p].parent.Some? ==> Live(p))
    }

    /** The namespaces from the given one up. */
    ghost function Up(n: nat): (c: seq<nat>)
      ensures c != [] && c[0] == n
    {
      Chain(nss, n, if n < |nss| then nss[n].depth else 0)
    }

    /** The process counts in namespace `n`: its own namespace is `n` or below. */
    ghost predicate In(p: nat, n: nat) {
      Live(p) && procs[p].ns.Some? && n in Up(procs[p].ns.value)
    }

    /** The pid of a process as seen from namespace `n`. */
    ghost function PidIn(p: nat, n: nat): nat
      requires p < |procs| && n < |nss| && nss[n].depth < |procs[p].pids|
    {
      procs[p].pids[nss[n].depth]
    }

    ghost predicate Tree() {
      && |nss| == NUMNS && INIT in tree
      && forall n | n in tree :: NsOk(n)
    }

    ghost predicate Procs() {
      && |procs| == NPROC
      && (forall p | 0 <= p < NPROC :: ProcOk(p))
      && (forall p, q | 0 <= p < q < NPROC && Live(p) && Live(q) :: procs[p].pid != procs[q].pid)
    }

    ghost predicate PidOk(p: nat, n: nat) {
      && p < |procs| && n < |nss| && nss[n].depth < |procs[p].pids|
      && 1 <= PidIn(p, n) < nss[n].next
    }

    /** Pids are handed out upwards, and in one namespace no two processes have the same. */
    ghost predicate Pids() {
      && (forall p, n | In(p, n) :: PidOk(p, n))
      && (forall p, q, n | In(p, n) && In(q, n) && p != q ::
            PidOk(p, n) && PidOk(q, n) && PidIn(p, n) != PidIn(q, n))
    }

    // Steps.

    /** The counters of the namespaces given go up by one. */
    ghost function Bumped(c: seq<nat>): (r: seq<Ns>)
      ensures |r| == |nss|
      ensures forall n | 0 <= n < |nss| :: r[n] == if n in c then nss[n].(next := nss[n].next + 1) else nss[n]
    {
      seq(|nss|, n requires 0 <= n < |nss| => if n in c then nss[n].(next := nss[n].next + 1) else nss[n])
    }

    /** Pids for a new process of namespace `n`: the next one of each namespace up the chain. */
    ghost function NewPids(n: nat, was: seq<nat>): (r: seq<nat>)
      requires |was| == MAXDEPTH
      ensures |r| == MAXDEPTH
      ensures forall d | 0 <= d < MAXDEPTH :: r[d] == NewPid(n, was, d)
    {
      seq(MAXDEPTH, d requires 0 <= d < MAXDEPTH => NewPid(n, was, d))
    }

    ghost function NewPid(n: nat, was: seq<nat>, d: nat): nat
      requires d < |was|
    {
      var c := Up(n);
      if d < |c| && c[|c| - 1 - d] < |nss| then nss[c[|c| - 1 - d]].next else was[d]
    }

    ghost function Alloc(p: nat, n: nat): State
      requires p < |procs| && |procs[p].pids| == MAXDEPTH
    {
      State(procs[p := Proc(USED, nextpid, procs[p].parent, Some(n), NewPids(n, procs[p].pids))],
            Bumped(Up(n)), tree, nextpid + 1)
    }

    ghost function Free(p: nat): State
      requires p < |procs|
    {
      this.(procs := procs[p := NO_PROC])
    }

    /** A new namespace below `n`. */
    ghost function Hang(m: nat, n: nat): State
      requires m < |nss| && n < |nss|
    {
      this.(nss := nss[m := Ns(true, Some(n), None, nss[n].depth + 1, 1)], tree := tree + {m})
    }

    ghost predicate Inv() {
      Tree() && Procs() && Pids()
    }
  }

  /** Walking up takes `depth` links and ends at the initial namespace, one level at a time. */
  lemma {:induction false} ChainFacts(s: State, n: nat)
    requires s.Tree() && n in s.tree
    ensures n < |s.nss| && |s.Up(n)| == s.nss[n].depth + 1 <= MAXDEPTH
    ensures s.Up(n)[s.nss[n].depth] == INIT
    ensures forall k | 0 <= k < |s.Up(n)| :: UpOk(s, n, k)
    decreases if n < |s.nss| then s.nss[n].depth else 0
  {
    assert s.NsOk(n);
    if n != INIT {
      var m := s.nss[n].parent.value;
      assert s.NsOk(m);
      ChainFacts(s, m);
      assert s.Up(n) == [n] + s.Up(m);
      forall k | 0 <= k < |s.Up(n)| ensures UpOk(s, n, k) {
        if k > 0 {
          assert UpOk(s, m, k - 1);
        }
      }
    }
  }

  ghost predicate UpOk(s: State, n: nat, k: nat)
    requires k < |s.Up(n)| && n < |s.nss|
  {
    var m := s.Up(n)[k];
    && m in s.tree && m < |s.nss| && s.nss[m].depth == s.nss[n].depth - k
    && (k + 1 < |s.Up(n)| ==> s.nss[m].parent == Some(s.Up(n)[k + 1]))
    && (k + 1 == |s.Up(n)| ==> s.nss[m].parent == None)
  }

  /** One ancestor at each depth. */
  lemma UpUnique(s: State, n: nat, a: nat)
    requires s.Tree() && n in s.tree && a in s.Up(n)
    ensures n < |s.nss| && a in s.tree && a < |s.nss| && s.nss[a].depth <= s.nss[n].depth
    ensures |s.Up(n)| == s.nss[n].depth + 1
    ensures s.Up(n)[s.nss[n].depth - s.nss[a].depth] == a
  {
    ChainFacts(s, n);
    var k :| 0 <= k < |s.Up(n)| && s.Up(n)[k] == a;
    assert UpOk(s, n, k);
  }

  /** Two live processes under one ancestor namespace at depth `d` have different pids there. */
  lemma PidsDiffer(s: State, p: nat, q: nat, d: nat)
    requires s.Inv() && s.Live(p) && s.Live(q) && p != q && s.procs[p].ns.Some? && s.procs[q].ns.Some?
    requires
      var up, uq := s.Up(s.procs[p].ns.value), s.Up(s.procs[q].ns.value);
      d < |up| && d < |uq| && up[|up| - 1 - d] == uq[|uq| - 1 - d]
    ensures d < |s.procs[p].pids| && d < |s.procs[q].pids| && s.procs[p].pids[d] != s.procs[q].pids[d]
  {
    var up := s.Up(s.procs[p].ns.value);
    var n := up[|up| - 1 - d];
    assert s.ProcOk(p) && s.ProcOk(q);
    ChainFacts(s, s.procs[p].ns.value);
    assert UpOk(s, s.procs[p].ns.value, |up| - 1 - d);
    assert s.In(p, n) && s.In(q, n);
  }

  ghost predicate SameLinks(s: State, r: State) {
    && |r.nss| == |s.nss|
    && forall m | m in s.tree && m < |s.nss| :: r.nss[m].parent == s.nss[m].parent && r.nss[m].depth == s.nss[m].depth
  }

  lemma {:induction false} SameUp(s: State, r: State, n: nat)
    requires s.Tree() && n in s.tree && SameLinks(s, r)
    ensures r.Up(n) == s.Up(n)
    decreases if n < |s.nss| then s.nss[n].depth else 0
  {
    assert s.NsOk(n);
    if n != INIT {
      var m := s.nss[n].parent.value;
      assert s.NsOk(m);
      SameUp(s, r, m);
    }
  }

  /** The counter of a namespace in the tree never falls. */
  ghost predicate NotLess(s: State, r: State) {
    forall m | m in s.tree && m < |s.nss| && m < |r.nss| :: r.nss[m].next >= s.nss[m].next
  }

  /** A process not touched keeps its place and pids. */
  lemma SameIn(s: State, r: State, p: nat, n: nat)
    requires s.Inv() && SameLinks(s, r) && s.Live(p) && p < |r.procs|
    requires r.procs[p].ns == s.procs[p].ns && r.procs[p].state != UNUSED
    ensures r.In(p, n) <==> s.In(p, n)
    ensures s.In(p, n) ==> n in s.tree
  {
    assert s.ProcOk(p);
    SameUp(s, r, s.procs[p].ns.value);
    if s.In(p, n) {
      UpUnique(s, s.procs[p].ns.value, n);
    }
  }

  /** Changes that leave links and pids alone, and no process more. */
  ghost predicate Tame(s: State, r: State) {
    && SameLinks(s, r) && NotLess(s, r) && r.tree == s.tree && r.nextpid == s.nextpid
    && |r.procs| == |s.procs|
    && (forall n | n in s.tree && n < |s.nss| :: r.nss[n].used)
    && (forall p | 0 <= p < |s.procs| ::
          && |r.procs[p].pids| == MAXDEPTH
          && (r.Live(p) ==> s.Live(p) && r.procs[p].pids == s.procs[p].pids && r.procs[p].ns == s.procs[p].ns
                            && r.procs[p].pid == s.procs[p].pid)
          && (r.procs[p].parent.Some? ==> r.Live(p)))
  }

  lemma TameTree(s: State, r: State)
    requires s.Tree() && Tame(s, r)
    ensures r.Tree()
  {
    forall n | n in r.tree ensures r.NsOk(n) {
      assert s.NsOk(n);
      if n != INIT {
        assert s.NsOk(s.nss[n].parent.value);
      }
    }
  }

  lemma TameKeeps(s: State, r: State)
    requires s.Inv() && Tame(s, r)
    ensures r.Inv()
  {
    TameTree(s, r);
    forall p | 0 <= p < NPROC ensures r.ProcOk(p) {
      assert s.ProcOk(p);
    }
    forall p, n | r.In(p, n) ensures s.In(p, n) && n in s.tree {
      SameIn(s, r, p, n);
    }
    forall p, n | r.In(p, n) ensures r.PidOk(p, n) {
      assert s.PidOk(p, n);
    }
  }

  lemma FreeKeeps(s: State, p: nat)
    requires s.Inv() && p < NPROC
    ensures s.Free(p).Inv()
  {
    forall q | 0 <= q < |s.procs| ensures |s.procs[q].pids| == MAXDEPTH && (s.procs[q].parent.Some? ==> s.Live(q)) {
      assert s.ProcOk(q);
    }
    assert forall n | n in s.tree :: s.NsOk(n);
    TameKeeps(s, s.Free(p));
  }

  /** The pid a new process gets in a namespace above it. */
  lemma NewPidIs(s: State, p: nat, n: nat, a: nat)
    requires s.Inv() && p < NPROC && |s.procs[p].pids| == MAXDEPTH && n in s.tree && a in s.Up(n)
    ensures a in s.tree && a < |s.nss| && s.nss[a].depth < MAXDEPTH
    ensures s.Alloc(p, n).procs[p].pids[s.nss[a].depth] == s.nss[a].next
    ensures s.Alloc(p, n).nss[a] == s.nss[a].(next := s.nss[a].next + 1)
  {
    hide Chain, State.Pids, State.ProcOk;
    UpUnique(s, n, a);
    assert s.NsOk(a) && s.NsOk(n);
    assert s.NewPid(n, s.procs[p].pids, s.nss[a].depth) == s.nss[a].next;
  }

  lemma AllocTree(s: State, p: nat, n: nat)
    requires s.Inv() && p < NPROC && |s.procs[p].pids| == MAXDEPTH && n in s.tree
    ensures SameLinks(s, s.Alloc(p, n)) && s.Alloc(p, n).Tree()
  {
    hide State.Up, State.Pids, State.ProcOk;
    var r := s.Alloc(p, n);
    forall m | m in r.tree ensures r.NsOk(m) {
      assert s.NsOk(m);
      if m != INIT {
        assert s.NsOk(s.nss[m].parent.value);
      }
    }
  }

  lemma AllocIn(s: State, p: nat, n: nat, q: nat, a: nat)
    requires s.Inv() && p < NPROC && |s.procs[p].pids| == MAXDEPTH && !s.Live(p) && n in s.tree
    requires s.Alloc(p, n).In(q, a)
    ensures if q == p then a in s.Up(n) else s.In(q, a) && a in s.tree
    ensures s.Alloc(p, n).PidOk(q, a)
    ensures q != p ==> s.Alloc(p, n).PidIn(q, a) < s.nss[a].next
  {
    hide State.Pids;
    var r := s.Alloc(p, n);
    AllocTree(s, p, n);
    if q == p {
      SameUp(s, r, n);
      NewPidIs(s, p, n, a);
      assert s.NsOk(a);
    } else {
      SameIn(s, r, q, a);
      assert s.PidOk(q, a) by { InOk(s, q, a); }
    }
  }

  lemma InOk(s: State, p: nat, n: nat)
    requires s.Inv() && s.In(p, n)
    ensures s.PidOk(p, n)
  {
  }

  lemma AllocDiffer(s: State, p: nat, n: nat, q: nat, o: nat, a: nat)
    requires s.Inv() && p < NPROC && |s.procs[p].pids| == MAXDEPTH && !s.Live(p) && n in s.tree
    requires s.Alloc(p, n).In(q, a) && s.Alloc(p, n).In(o, a) && q != o
    ensures s.Alloc(p, n).PidOk(q, a) && s.Alloc(p, n).PidOk(o, a)
    ensures s.Alloc(p, n).PidIn(q, a) != s.Alloc(p, n).PidIn(o, a)
  {
    hide State.Pids, State.Procs, State.Tree, State.In, State.Up;
    AllocIn(s, p, n, q, a);
    AllocIn(s, p, n, o, a);
    if q == p || o == p {
      NewPidIs(s, p, n, a);
    } else {
      OthersDiffer(s, q, o, a);
      AllocTree(s, p, n);
    }
  }

  lemma OthersDiffer(s: State, q: nat, o: nat, a: nat)
    requires s.Inv() && s.In(q, a) && s.In(o, a) && q != o
    ensures s.PidOk(q, a) && s.PidOk(o, a) && s.PidIn(q, a) != s.PidIn(o, a)
  {
  }

  lemma AllocProcs(s: State, p: nat, n: nat)
    requires s.Inv() && p < NPROC && !s.Live(p) && n in s.tree
    ensures |s.procs[p].pids| == MAXDEPTH && s.Alloc(p, n).Procs()
  {
    hide State.Pids, State.Tree, State.Up;
    assert s.ProcOk(p);
    var r := s.Alloc(p, n);
    forall q | 0 <= q < NPROC ensures r.ProcOk(q) && (q != p && r.Live(q) ==> r.procs[q].pid < s.nextpid) {
      assert s.ProcOk(q);
    }
  }

  lemma AllocKeeps(s: State, p: nat, n: nat)
    requires s.Inv() && p < NPROC && !s.Live(p) && n in s.tree
    ensures |s.procs[p].pids| == MAXDEPTH && s.Alloc(p, n).Inv()
  {
    hide State.Alloc, State.In;
    AllocProcs(s, p, n);
    AllocTree(s, p, n);
    var r := s.Alloc(p, n);
    forall q, a | r.In(q, a) ensures r.PidOk(q, a) {
      AllocIn(s, p, n, q, a);
    }
    forall q, o, a | r.In(q, a) && r.In(o, a) && q != o ensures r.PidIn(q, a) != r.PidIn(o, a) {
      AllocDiffer(s, p, n, q, o, a);
    }
  }

  lemma HangKeeps(s: State, m: nat, n: nat)
    requires s.Inv() && m < NUMNS && !s.nss[m].used && n in s.tree && s.nss[n].depth + 1 < MAXDEPTH
    ensures n < NUMNS && s.Hang(m, n).Inv() && m in s.Hang(m, n).tree
    ensures forall p :: !s.Hang(m, n).In(p, m)
  {
    assert s.NsOk(n);
    var r := s.Hang(m, n);
    forall k | k in s.tree ensures s.NsOk(k) && k != m {
    }
    forall k | k in r.tree ensures r.NsOk(k) {
      if k != m && k != INIT {
        assert s.NsOk(k) && s.NsOk(s.nss[k].parent.value);
      }
    }
    forall p, a | r.In(p, a) ensures s.In(p, a) && a in s.tree && s.PidOk(p, a) {
      assert s.ProcOk(p);
      SameIn(s, r, p, a);
    }
    forall p | 0 <= p < NPROC ensures r.ProcOk(p) {
      assert s.ProcOk(p);
    }
  }
}
