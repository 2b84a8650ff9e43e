/** The allocator of `user/umalloc.c`, after section 8.7 of The C Programming Language. */
module Umalloc {
  import opened Common
  import opened HeapState

  const HEADER := 16
  const MIN_CORE := 4096

  /** Units for a request: the payload rounded up, and a header. */
  function Units(nbytes: nat): (n: nat)
    ensures n >= 1 && (n - 1) * HEADER >= nbytes > (n - 2) * HEADER
  {
    (nbytes + HEADER - 1) / HEADER + 1
  }

  // What changes.

  /** Blocks in use before and after keep their units, and what is stored there. */
  ghost predicate Kept(s: State, r: State, u: int) {
    && u in s.own && u in r.own && r.own[u] == s.own[u]
    && (u in s.mem <==> u in r.mem)
    && (u in s.mem ==> r.mem[u] == s.mem[u])
  }

  /** The block `bp` is freed, and nothing else happens to the blocks in use. */
  ghost predicate Freed(s: State, r: State, bp: int) {
    && r.live == s.live - {bp}
    && r.own.Keys == s.own.Keys
    && (forall u | u in r.own :: r.own[u].Live? <==> s.own[u].Live? && s.own[u] != Live(bp))
    && (forall u | u in r.own :: r.own[u].Live? ==> Kept(s, r, u))
  }

  /** Free blocks are rearranged only. */
  ghost predicate Rearranged(s: State, r: State) {
    && r.live == s.live
    && r.own.Keys == s.own.Keys
    && (forall u | u in r.own :: r.own[u].Live? <==> s.own[u].Live?)
    && (forall u | u in r.own :: r.own[u].Live? ==> Kept(s, r, u))
  }

  /** The heap has `n` free units more, from `a` on. */
  ghost predicate Grown(s: State, r: State, a: int, n: nat) {
    && r.live == s.live
    && (forall u :: u in r.own <==> u in s.own || a <= u < a + n)
    && (forall u | u in r.own :: r.own[u].Live? <==> u in s.own && s.own[u].Live?)
    && (forall u | u in r.own :: r.own[u].Live? ==> Kept(s, r, u))
  }

  /** A block of `n` units at `h` was free and is in use. */
  ghost predicate Allocated(s: State, r: State, h: int, n: nat) {
    && h !in s.live
    && r.live == s.live[h := n]
    && r.own.Keys == s.own.Keys
    && (forall u | u in r.own :: r.own[u].Live? <==> s.own[u].Live? || h <= u < h + n)
    && (forall u | u in r.own && h <= u < h + n :: s.own[u].Free?)
    && (forall u | u in r.own :: s.own[u].Live? ==> Kept(s, r, u))
  }

  /** A block of `n` units at `h` is now in use, if need be from units newly obtained. */
  ghost predicate Served(s: State, r: State, h: int, n: nat, core: Option<int>) {
    && h !in s.live
    && r.live == s.live[h := n]
    && (forall u :: u in r.own <==> u in s.own || (core.Some? && core.value <= u < core.value + Core(n)))
    && (forall u | u in r.own :: r.own[u].Live? <==> (u in s.own && s.own[u].Live?) || h <= u < h + n)
    && (forall u | u in s.own && h <= u < h + n :: s.own[u].Free?)
    && (forall u | u in s.own :: s.own[u].Live? ==> Kept(s, r, u))
  }

  ghost predicate Small(s: State, k: nat, n: nat)
    requires k < |s.list|
  {
    s.list[k] in s.mem && s.mem[s.list[k]].size < n
  }

  ghost predicate NoFit(s: State, n: nat) {
    forall i | 0 <= i < |s.list| :: Small(s, i, n)
  }

  lemma InsertFrees(s: State, base: int, t: nat, bp: int)
    requires s.Inv(base, {}) && InGap(s, t, bp) && bp in s.live && bp in s.mem && s.list[t] in s.mem
    ensures Freed(s, s.Insert(t, bp), bp)
  {
    hide Give, InsertAt, Without, State.OwnOk;
    var r := s.Insert(t, bp);
    assert s.LiveOk(base, bp);
    GapFits(s, base, t, bp);
    assert s.NodeOk(t, {}) && s.FreeUnits(t);
    forall u | u in r.own
      ensures r.own[u].Live? <==> s.own[u].Live? && s.own[u] != Live(bp)
      ensures r.own[u].Live? ==> Kept(s, r, u)
    {
      OwnerOf(s, base, {}, u);
    }
  }

  lemma OwnerOf(s: State, base: int, loose: set<nat>, u: int)
    requires s.Inv(base, loose) && u in s.own
    ensures forall a | a in s.live :: a <= u < a + s.live[a] <==> s.own[u] == Live(a)
    ensures u in s.list ==> s.own[u] == Free(u)
  {
    assert s.OwnOk(u);
    forall a | a in s.live ensures a <= u < a + s.live[a] <==> s.own[u] == Live(a) {
      assert s.LiveOk(base, a);
    }
    if u in s.list {
      var k :| 0 <= k < |s.list| && s.list[k] == u;
      assert s.NodeOk(k, loose) && s.FreeUnits(k);
    }
  }

  lemma MergeRearranges(s: State, base: int, i: nat, loose: set<nat>)
    requires s.Inv(base, loose) && 0 < i && Touches(s, i)
    ensures Rearranged(s, s.Merge(i))
  {
    hide Give, InsertAt, Without, State.OwnOk;
    var r := s.Merge(i);
    assert s.FreeUnits(i + 1) && s.NodeOk(i, loose);
    forall u | u in r.own
      ensures r.own[u].Live? <==> s.own[u].Live?
      ensures r.own[u].Live? ==> Kept(s, r, u)
    {
      OwnerOf(s, base, loose, u);
    }
  }

  lemma TakeAllocates(s: State, base: int, i: nat)
    requires s.Inv(base, {}) && 0 < i < |s.list| && s.list[i] in s.mem && s.list[i - 1] in s.mem
    ensures Allocated(s, s.Take(i), s.list[i], s.mem[s.list[i]].size)
  {
    hide Give, InsertAt, Without, State.OwnOk;
    var r := s.Take(i);
    assert s.NodeOk(i, {}) && s.FreeUnits(i);
    OwnerOf(s, base, {}, s.list[i]);
    forall u | u in r.own
      ensures s.own[u].Live? ==> Kept(s, r, u)
    {
      OwnerOf(s, base, {}, u);
    }
  }

  lemma SplitAllocates(s: State, base: int, i: nat, n: nat)
    requires s.Inv(base, {}) && i < |s.list| && s.list[i] in s.mem && 0 < n < s.mem[s.list[i]].size
    ensures Allocated(s, s.Split(i, n), s.End(i) - n, n)
  {
    hide Give, InsertAt, Without, State.OwnOk;
    var r := s.Split(i, n);
    assert s.NodeOk(i, {}) && s.FreeUnits(i);
    OwnerOf(s, base, {}, s.End(i) - n);
    forall u | u in r.own
      ensures s.own[u].Live? ==> Kept(s, r, u)
    {
      OwnerOf(s, base, {}, u);
    }
  }

  /** New memory becomes free: as a block in use first, then freed. */
  lemma CoreGrows(s: State, base: int, a: int, n: nat, r: State)
    requires s.Inv(base, {}) && Above(s, base, a) && n > 0
    requires Freed(s.AddCore(a, n), r, a)
    ensures Grown(s, r, a, n)
  {
    hide Give, InsertAt, Without;
    var m := s.AddCore(a, n);
    BelowCore(s, base, a);
    forall u | u in r.own
      ensures r.own[u].Live? <==> u in s.own && s.own[u].Live?
      ensures r.own[u].Live? ==> Kept(s, r, u)
    {
      if u in s.own {
        OwnerOf(s, base, {}, u);
        assert s.OwnOk(u);
      }
      assert r.own[u].Live? ==> Kept(m, r, u);
    }
  }

  // Freeing.

  ghost predicate Touches(s: State, i: nat) {
    i + 1 < |s.list| && s.list[i] in s.mem && s.list[i + 1] in s.mem && s.End(i) == s.list[i + 1]
  }

  ghost function MergeIf(s: State, i: nat): State {
    if Touches(s, i) then s.Merge(i) else s
  }

  /** The freed block joins the list, and then its neighbours if it touches them. */
  ghost function Coalesced(s: State, t: nat, bp: int): State
    requires t < |s.list| && s.list[t] in s.mem && bp in s.mem && bp in s.live
  {
    MergeIf(MergeIf(s.Insert(t, bp), t + 1), t)
  }

  lemma Tighten(s: State, base: int, loose: set<nat>, i: nat)
    requires s.Inv(base, loose) && !Touches(s, i)
    ensures s.Inv(base, loose - {i})
  {
    hide State.FreeUnits, State.OwnOk, State.LiveOk;
    forall k | 0 <= k < |s.list| ensures s.NodeOk(k, loose - {i}) {
      assert s.NodeOk(k, loose);
      if k + 1 < |s.list| {
        assert s.NodeOk(k + 1, loose);
      }
    }
  }

  lemma MergeIfKeeps(s: State, base: int, i: nat, loose: set<nat>)
    requires s.Inv(base, loose) && i < |s.list| && forall k | k in loose :: k <= i
    ensures MergeIf(s, i).Inv(base, loose - {i})
    ensures Rearranged(s, MergeIf(s, i))
    ensures i < |MergeIf(s, i).list| && MergeIf(s, i).list[..i + 1] == s.list[..i + 1]
  {
    hide State.Units;
    if Touches(s, i) {
      assert s.NodeOk(i, loose) && s.NodeOk(i + 1, loose);
      MergeKeeps(s, base, i, loose);
      MergeRearranges(s, base, i, loose);
      assert Tighter(loose, i) == loose - {i};
    } else {
      Tighten(s, base, loose, i);
    }
  }

  lemma CoalescedKeeps(s: State, base: int, t: nat, bp: int)
    requires s.Inv(base, {}) && InGap(s, t, bp) && bp in s.live
    ensures bp in s.mem && s.list[t] in s.mem
    ensures Coalesced(s, t, bp).Inv(base, {})
    ensures Freed(s, Coalesced(s, t, bp), bp)
    ensures s.list[t] in Coalesced(s, t, bp).list
  {
    hide State.Inv, Rearranged, Freed, MergeIf;
    InsertKeeps(s, base, t, bp);
    InsertFrees(s, base, t, bp);
    var r := s.Insert(t, bp);
    assert r.list[t] == s.list[t];
    MergeIfKeeps(r, base, t + 1, {t, t + 1});
    var q := MergeIf(r, t + 1);
    assert {t, t + 1} - {t + 1} == {t};
    assert q.list[t] == q.list[..t + 2][t] == r.list[t];
    MergeIfKeeps(q, base, t, {t});
    assert {t} - {t} == {};
    FreedThen(s, r, q, bp);
    FreedThen(s, q, MergeIf(q, t), bp);
    assert MergeIf(q, t).list[t] == MergeIf(q, t).list[..t + 1][t] == q.list[t];
  }

  lemma FreedThen(s: State, r: State, q: State, bp: int)
    requires Freed(s, r, bp) && Rearranged(r, q)
    ensures Freed(s, q, bp)
  {
    forall u | u in q.own
      ensures q.own[u].Live? ==> Kept(s, q, u)
    {
      assert q.own[u].Live? ==> Kept(r, q, u) && Kept(s, r, u);
    }
  }

  /** The gap for an address above `base`. */
  lemma FindGap(s: State, base: int, bp: int) returns (t: nat)
    requires s.Chain(base, {}) && base < bp && bp !in s.list
    ensures InGap(s, t, bp)
    ensures forall k: nat | InGap(s, k, bp) :: k == t
  {
    t := 0;
    while t + 1 < |s.list| && s.list[t + 1] < bp
      invariant t < |s.list| && s.list[t] < bp
    {
      t := t + 1;
    }
    forall k: nat | InGap(s, k, bp) ensures k == t {
    }
  }

  /** Free units that follow one another are in the same block. */
  lemma NextUnit(s: State, base: int, u: int)
    requires s.Inv(base, {}) && u in s.own && u + 1 in s.own && s.own[u].Free? && s.own[u + 1].Free?
    ensures s.own[u] == s.own[u + 1]
  {
    hide State.LiveOk;
    assert s.OwnOk(u) && s.OwnOk(u + 1);
    var i :| 0 <= i < |s.list| && s.list[i] == s.own[u].a;
    var k :| 0 <= k < |s.list| && s.list[k] == s.own[u + 1].a;
    assert s.FreeUnits(i) && s.FreeUnits(k) && s.NodeOk(i, {});
  }

  lemma {:induction false} FreeRun(s: State, base: int, a: int, n: nat)
    requires s.Inv(base, {}) && n > 0
    requires forall u | a <= u < a + n :: u in s.own && s.own[u].Free?
    ensures forall u | a <= u < a + n :: s.own[u] == s.own[a]
  {
    hide State.Inv;
    if n > 1 {
      FreeRun(s, base, a, n - 1);
      NextUnit(s, base, a + n - 2);
    }
  }

  /** A stretch of free units fits into one free block. */
  lemma RunFits(s: State, base: int, a: int, n: nat)
    requires s.Inv(base, {}) && n > 0
    requires forall u | a <= u < a + n :: u in s.own && s.own[u].Free?
    ensures !NoFit(s, n)
  {
    FreeRun(s, base, a, n);
    assert s.OwnOk(a) && s.OwnOk(a + n - 1);
    assert s.own[a + n - 1] == s.own[a];
    var i :| 0 <= i < |s.list| && s.list[i] == s.own[a].a;
    assert !Small(s, i, n);
  }

  /** The position `c` steps after `f` on the circle. */
  function Around(f: nat, c: nat, n: nat): (k: nat)
    requires f < n && c <= n
    ensures k < n
  {
    if f + c < n then f + c else f + c - n
  }

  /** The `c` nodes after the `f`-th are too small. */
  ghost predicate Seen(s: State, f: nat, c: nat, n: nat)
    requires f < |s.list| && c <= |s.list|
  {
    forall i | 1 <= i <= c :: Small(s, Around(f, i, |s.list|), n)
  }

  /** The block at `h` is the end of the first node after `from` that is large enough, and `left` is the
      node before that. */
  ghost predicate FirstFit(s: State, from: int, n: nat, h: int, left: int) {
    exists f: nat, c: nat :: FirstFitAt(s, from, n, h, left, f, c)
  }

  ghost predicate FirstFitAt(s: State, from: int, n: nat, h: int, left: int, f: nat, c: nat) {
    && f < |s.list| && c < |s.list| && s.list[f] == from && Seen(s, f, c, n)
    && var k := Around(f, c + 1, |s.list|);
    && s.list[k] in s.mem && s.mem[s.list[k]].size >= n
    && h == s.End(k) - n && left == s.list[Around(f, c, |s.list|)]
  }

  lemma SeenMore(s: State, f: nat, c: nat, n: nat)
    requires f < |s.list| && c < |s.list| && Seen(s, f, c, n)
    requires Small(s, Around(f, c + 1, |s.list|), n)
    ensures Seen(s, f, c + 1, n)
  {
  }

  lemma StepAround(s: State, f: nat, c: nat, n: nat)
    requires f < |s.list| && c == 0
    ensures Around(f, 0, |s.list|) == f && s.Next(f) == s.list[Around(f, 1, |s.list|)]
    ensures Seen(s, f, 0, n)
  {
  }

  lemma Closed(f: nat, c: nat, n: nat)
    requires f < n && c < n
    ensures Around(f, c + 1, n) == f <==> c + 1 == n
  {
  }

  /** Along the circle, pointer by pointer. */
  lemma AroundNext(s: State, base: int, f: nat, c: nat)
    requires s.Inv(base, {}) && f < |s.list| && c < |s.list|
    ensures
      var k := Around(f, c, |s.list|);
      s.list[k] in s.mem && s.mem[s.list[k]].ptr == s.list[Around(f, c + 1, |s.list|)]
    ensures Around(f, c + 1, |s.list|) != 0 ==> Around(f, c, |s.list|) == Around(f, c + 1, |s.list|) - 1
  {
    NodeFacts(s, base, Around(f, c, |s.list|));
  }

  /** Back at the start, every node has been seen. */
  lemma AllSeen(s: State, f: nat, c: nat, n: nat)
    requires f < |s.list| && c < |s.list| && Seen(s, f, c + 1, n) && Around(f, c + 1, |s.list|) == f
    ensures NoFit(s, n)
  {
    forall k | 0 <= k < |s.list| ensures Small(s, k, n) {
      var i := if k > f then k - f else k - f + |s.list|;
      assert Around(f, i, |s.list|) == k;
    }
  }

  lemma Serve(s: State, m: State, r: State, h: int, n: nat, core: Option<int>)
    requires if core.None? then m == s else Grown(s, m, core.value, Core(n))
    requires Allocated(m, r, h, n)
    ensures Served(s, r, h, n, core)
  {
    forall u | u in s.own ensures s.own[u].Live? ==> Kept(s, r, u) {
      assert u in m.own && (s.own[u].Live? ==> m.own[u].Live?);
    }
  }

  /** The first call changes no unit. */
  lemma ServedSince(s: State, m: State, r: State, h: int, n: nat, core: Option<int>)
    requires Served(m, r, h, n, core)
    requires s == m || (s.own == m.own == map[] && s.live == m.live)
    ensures Served(s, r, h, n, core)
  {
  }

  class Heap {
    const base: int
    var mem: map<int, Header>
    var freep: int
    ghost var list: seq<int>
    ghost var own: map<int, Owner>
    ghost var live: map<int, nat>

    ghost function Abs(): State
      reads this
    {
      State(mem, list, own, live)
    }

    /** A null `freep` stands for a heap not used yet. */
    ghost predicate Valid()
      reads this
    {
      && base > 0
      && (freep == 0 ==> own == map[] && live == map[])
      && (freep != 0 ==> Abs().Inv(base, {}) && freep in list)
    }

    constructor (b: int)
      requires b > 0
      ensures Valid() && base == b && live == map[] && own == map[]
    {
      base, freep, mem, list, own, live := b, 0, map[], [], map[], map[];
    }

    method Free(ap: int)
      requires Valid() && ap - 1 in live
      modifies this
      ensures Valid() && freep != 0
      ensures Freed(old(Abs()), Abs(), ap - 1)
      ensures exists t: nat :: InGap(old(Abs()), t, ap - 1) && freep == old(list)[t]
    {
      hide State.Units, Freed;
      var bp, p := ap - 1, freep;
      ghost var s := Abs();
      assert bp !in list && base < bp by { LiveApart(s, base, bp); }
      ghost var t := FindGap(s, base, bp);
      ghost var j :| 0 <= j < |list| && list[j] == freep;
      assert s.NodeOk(j, {});
      while !(bp > p && bp < mem[p].ptr)
        invariant 0 <= j < |list| && list[j] == p && Abs() == s && p in mem
        decreases if j <= t then t - j else |list| - j + t
      {
        assert s.NodeOk(j, {});
        if p >= mem[p].ptr && (bp > p || bp < mem[p].ptr) {
          break;
        }
        p := mem[p].ptr;
        j := if j + 1 < |list| then j + 1 else 0;
        assert s.NodeOk(j, {});
      }
      assert s.NodeOk(j, {});
      assert InGap(s, j, bp);
      Join(p, bp, j);
    }

    /** The rest of `free`, with the place found. */
    method Join(p: int, bp: int, ghost t: nat)
      requires freep != 0 && base > 0 && Abs().Inv(base, {})
      requires bp in live && InGap(Abs(), t, bp) && list[t] == p
      modifies this
      ensures Valid() && freep == p
      ensures Freed(old(Abs()), Abs(), bp)
    {
      hide State.Inv, Freed, Coalesced;
      ghost var s := Abs();
      CoalescedKeeps(s, base, t, bp);
      JoinedMem(s, base, t, bp);
      NodeFacts(s, base, t);
      var next := mem[p].ptr;
      if bp + mem[bp].size == next {
        mem := mem[bp := Header(mem[next].ptr, mem[bp].size + mem[next].size)];
      } else {
        mem := mem[bp := Header(next, mem[bp].size)];
      }
      if p + mem[p].size == bp {
        mem := mem[p := Header(mem[bp].ptr, mem[p].size + mem[bp].size)];
      } else {
        mem := mem[p := Header(bp, mem[p].size)];
      }
      freep := p;
      ghost var r := Coalesced(s, t, bp);
      list, own, live := r.list, r.own, r.live;
      assert Abs() == r;
    }

    /** Memory from `sbrk`, if it gives any, joins the free list. */
    method Morecore(n: nat, brk: Option<int>) returns (p: int)
      requires Valid() && freep != 0 && n > 0
      requires brk.Some? ==> Above(Abs(), base, brk.value)
      modifies this
      ensures Valid() && freep != 0
      ensures p == if brk.Some? then freep else 0
      ensures brk.None? ==> Abs() == old(Abs()) && freep == old(freep)
      ensures brk.Some? ==> Grown(old(Abs()), Abs(), brk.value, Core(n)) && !NoFit(Abs(), n)
    {
      hide State.Inv, Freed, Grown;
      var nu := if n < MIN_CORE then MIN_CORE else n;
      if brk.None? {
        return 0;
      }
      var hp := brk.value;
      ghost var s := Abs();
      AddCoreKeeps(s, base, hp, nu);
      mem := mem[hp := Header(if hp in mem then mem[hp].ptr else 0, nu)];
      ghost var r := s.AddCore(hp, nu);
      own, live := r.own, r.live;
      assert Abs() == r;
      Free(hp + 1);
      CoreGrows(s, base, hp, nu, Abs());
      CoreFits(s, Abs(), base, hp, nu, n);
      p := freep;
    }

    /** The address of a block for `nbytes`, or null.  `brk` is what `sbrk` would answer. */
    method Malloc(nbytes: nat, brk: Option<int>) returns (ap: int, ghost grown: bool)
      requires Valid()
      requires brk.Some? ==> Above(Abs(), base, brk.value)
      modifies this
      ensures Valid() && freep != 0
      ensures ap == 0 <==> grown && brk.None?
      ensures grown ==> old(freep) != 0 ==> NoFit(old(Abs()), Units(nbytes))
      ensures ap == 0 ==> own == old(own) && live == old(live)
      ensures ap != 0 ==> Served(old(Abs()), Abs(), ap - 1, Units(nbytes), if grown then brk else None)
      ensures old(freep) != 0 && !grown ==> FirstFit(old(Abs()), old(freep), Units(nbytes), ap - 1, freep)
    {
      hide State.Inv, NoFit, Served, FirstFit;
      if freep == 0 {
        Start();
      }
      ghost var s := Abs();
      ap, grown := Search(Units(nbytes), brk);
      if ap != 0 {
        ServedSince(old(Abs()), s, Abs(), ap - 1, Units(nbytes), if grown then brk else None);
      }
    }

    /** The loop of `malloc`. */
    method Search(nunits: nat, brk: Option<int>) returns (ap: int, ghost grown: bool)
      requires Valid() && freep != 0 && nunits > 0
      requires brk.Some? ==> Above(Abs(), base, brk.value)
      modifies this
      ensures Valid() && freep != 0
      ensures ap == 0 <==> grown && brk.None?
      ensures grown ==> NoFit(old(Abs()), nunits)
      ensures ap == 0 ==> Abs() == old(Abs())
      ensures ap != 0 ==> Served(old(Abs()), Abs(), ap - 1, nunits, if grown then brk else None)
      ensures !grown ==> FirstFit(old(Abs()), old(freep), nunits, ap - 1, freep)
    {
      hide State.Inv, State.Next, NoFit, Grown, Allocated, Served, Around, Seen, Above, Core;
      var prevp := freep;
      grown := false;
      ghost var s := Abs();
      ghost var f: nat, c: nat :| f < |list| && list[f] == freep && c == 0;
      NodeFacts(s, base, f);
      StepAround(s, f, c, nunits);
      var p := mem[prevp].ptr;
      while true
        invariant base > 0 && freep != 0 && Abs().Inv(base, {})
        invariant f < |list| && c < |list| && list[f] == freep
        invariant prevp == list[Around(f, c, |list|)] && p == list[Around(f, c + 1, |list|)]
        invariant Seen(Abs(), f, c, nunits)
        invariant !grown ==> Abs() == s && freep == old(freep)
        invariant grown ==> brk.Some? && NoFit(s, nunits) && Grown(s, Abs(), brk.value, Core(nunits))
        invariant grown ==> !NoFit(Abs(), nunits)
        decreases !grown, |list| - c
      {
        NodeFacts(Abs(), base, Around(f, c + 1, |list|));
        if mem[p].size >= nunits {
          AroundNext(Abs(), base, f, c);
          ghost var m := Abs();
          assert !grown ==> list[f] == old(freep);
          ap := Carve(prevp, p, nunits, Around(f, c + 1, |list|));
          assert !grown ==> FirstFitAt(s, old(freep), nunits, ap - 1, freep, f, c);
          Serve(s, m, Abs(), ap - 1, nunits, if grown then brk else None);
          return;
        }
        NodeFacts(Abs(), base, f);
        SeenMore(Abs(), f, c, nunits);
        Closed(f, c, |list|);
        if p == freep {
          AllSeen(Abs(), f, c, nunits);
          assert !grown;
          p := Morecore(nunits, brk);
          grown := true;
          if p == 0 {
            return 0, true;
          }
          f, c :| 0 <= f < |list| && list[f] == freep && c == 0;
          NodeFacts(Abs(), base, f);
          StepAround(Abs(), f, c, nunits);
        } else {
          c := c + 1;
          AroundNext(Abs(), base, f, c);
        }
        prevp, p := p, mem[p].ptr;
      }
    }

    /** A block of `n` units from the `i`-th free block, which is large enough. */
    method Carve(prevp: int, p: int, n: nat, ghost i: nat) returns (ap: int)
      requires Valid() && freep != 0 && n > 0 && p in mem && mem[p].size >= n
      requires 0 < i < |list| && list[i] == p && list[i - 1] == prevp
      modifies this
      ensures Valid() && freep == prevp != 0 && ap > 0
      ensures Allocated(old(Abs()), Abs(), ap - 1, n) && ap - 1 == p + old(mem)[p].size - n
    {
      hide State.Inv, Allocated;
      ghost var s := Abs();
      ghost var r;
      NodeFacts(s, base, i);
      NodeFacts(s, base, i - 1);
      if mem[p].size == n {
        r := s.Take(i);
        TakeKeeps(s, base, i);
        TakeAllocates(s, base, i);
        mem := mem[prevp := Header(mem[p].ptr, mem[prevp].size)];
        ap := p + 1;
        assert r.list[i - 1] == prevp;
      } else {
        r := s.Split(i, n);
        SplitKeeps(s, base, i, n);
        SplitAllocates(s, base, i, n);
        mem := mem[p := Header(mem[p].ptr, mem[p].size - n)];
        var q := p + mem[p].size;
        mem := mem[q := Header(if q in mem then mem[q].ptr else 0, n)];
        ap := q + 1;
      }
      freep := prevp;
      list, own, live := r.list, r.own, r.live;
      assert Abs() == r;
    }

    /** The first call makes `base` a list of its own. */
    method Start()
      requires Valid() && freep == 0
      modifies this
      ensures Valid() && freep == base && list == [base]
      ensures own == old(own) && live == old(live)
    {
      mem, freep, list := mem[base := Header(base, 0)], base, [base];
      assert Abs().NodeOk(0, {});
    }
  }

  lemma NodeFacts(s: State, base: int, i: nat)
    requires s.Inv(base, {}) && i < |s.list|
    ensures base <= s.list[i] && s.list[i] in s.mem && s.mem[s.list[i]].ptr == s.Next(i)
    ensures i == 0 ==> s.mem[s.list[i]].size == 0
    ensures forall k | 0 <= k < |s.list| :: s.list[k] == s.list[i] ==> k == i
  {
    assert s.NodeOk(i, {});
  }

  /** How much `morecore` asks for. */
  function Core(n: nat): nat {
    if n < MIN_CORE then MIN_CORE else n
  }

  lemma CoreFits(s: State, r: State, base: int, a: int, nu: nat, n: nat)
    requires s.Inv(base, {}) && r.Inv(base, {}) && Above(s, base, a) && Grown(s, r, a, nu) && 0 < n <= nu
    ensures !NoFit(r, n)
  {
    hide State.Inv;
    forall u | a <= u < a + n ensures u in r.own && r.own[u].Free? {
    }
    RunFits(r, base, a, n);
  }

  lemma LiveApart(s: State, base: int, bp: int)
    requires s.Inv(base, {}) && bp in s.live
    ensures bp !in s.list && base < bp
  {
    assert s.LiveOk(base, bp);
    forall i | 0 <= i < |s.list| ensures s.list[i] != bp {
      Apart(s, base, {}, i, bp);
    }
  }

  /** The headers after freeing, as the two tests of `free` set them. */
  lemma JoinedMem(s: State, base: int, t: nat, bp: int)
    requires s.Inv(base, {}) && InGap(s, t, bp) && bp in s.live
    ensures bp in s.mem && s.list[t] in s.mem
    ensures
      var p := s.list[t];
      var next := s.mem[p].ptr;
      next in s.mem &&
      var b := if bp + s.mem[bp].size == next
               then Header(s.mem[next].ptr, s.mem[bp].size + s.mem[next].size) else Header(next, s.mem[bp].size);
      var q := if p + s.mem[p].size == bp
               then Header(b.ptr, s.mem[p].size + b.size) else Header(bp, s.mem[p].size);
      Coalesced(s, t, bp).mem == s.mem[bp := b][p := q]
  {
    hide Give, InsertAt, Without, State.Units;
    GapFits(s, base, t, bp);
    assert s.NodeOk(t, {});
    var r := s.Insert(t, bp);
    assert r.list[t] == s.list[t] && r.list[t + 1] == bp;
    if t + 1 < |s.list| {
      assert r.list[t + 2] == s.list[t + 1];
      assert s.NodeOk(t + 1, {});
    } else {
      assert s.NodeOk(0, {});
    }
    var m := MergeIf(r, t + 1);
    assert m.list[t] == s.list[t] && m.list[t + 1] == bp;
  }

  // The free list is determined by the free units.

  ghost predicate FreeAt(s: State, u: int) {
    u in s.own && s.own[u].Free?
  }

  ghost predicate SameFree(s: State, r: State) {
    forall u :: FreeAt(s, u) <==> FreeAt(r, u)
  }

  /** Free blocks begin exactly where a free unit follows one that is not free. */
  lemma HeadIff(s: State, base: int, a: int)
    requires s.Inv(base, {}) && a != base
    ensures a in s.list <==> FreeAt(s, a) && !FreeAt(s, a - 1)
  {
    hide State.LiveOk;
    if a in s.list {
      var i :| 0 <= i < |s.list| && s.list[i] == a;
      assert s.NodeOk(i, {}) && s.FreeUnits(i);
      assert s.own[a] == Free(a);
      if FreeAt(s, a - 1) {
        assert s.OwnOk(a - 1);
        NextUnit(s, base, a - 1);
      }
    } else if FreeAt(s, a) {
      assert s.OwnOk(a);
      var i :| 0 <= i < |s.list| && s.list[i] == s.own[a].a;
      assert s.FreeUnits(i);
      assert a - 1 in s.own && s.own[a - 1] == Free(s.list[i]);
    }
  }

  ghost predicate Increasing(xs: seq<int>) {
    forall i, j | 0 <= i < j < |xs| :: xs[i] < xs[j]
  }

  lemma {:induction false} SortedUnique(xs: seq<int>, ys: seq<int>)
    requires Increasing(xs) && Increasing(ys) && forall a :: a in xs <==> a in ys
    ensures xs == ys
  {
    if ys != [] {
      assert ys[0] in ys && ys[0] in xs;
    }
    if xs != [] {
      assert xs[0] in xs && xs[0] in ys;
      forall a ensures a in xs[1..] <==> a in ys[1..] {
        assert a in xs[1..] <==> a in xs && a != xs[0];
        assert a in ys[1..] <==> a in ys && a != ys[0];
      }
      SortedUnique(xs[1..], ys[1..]);
      assert xs == [xs[0]] + xs[1..];
      assert ys == [ys[0]] + ys[1..];
    }
  }

  lemma SameList(s: State, r: State, base: int)
    requires s.Inv(base, {}) && r.Inv(base, {}) && SameFree(s, r)
    ensures s.list == r.list
  {
    hide State.Units, FreeAt;
    forall a ensures a in s.list <==> a in r.list {
      if a == base {
        assert s.list[0] == base && r.list[0] == base;
      } else {
        HeadIff(s, base, a);
        HeadIff(r, base, a);
      }
    }
    SortedUnique(s.list, r.list);
  }

  lemma SizeAtLeast(s: State, r: State, base: int, i: nat)
    requires s.Inv(base, {}) && r.Inv(base, {}) && SameFree(s, r) && s.list == r.list && i < |s.list|
    ensures s.list[i] in s.mem && s.list[i] in r.mem
    ensures s.mem[s.list[i]].size <= r.mem[s.list[i]].size
  {
    hide State.LiveOk;
    var a := s.list[i];
    assert s.NodeOk(i, {}) && r.NodeOk(i, {}) && s.FreeUnits(i) && r.FreeUnits(i);
    if 0 < i && s.mem[a].size > r.mem[a].size {
      assert FreeAt(s, r.End(i)) && FreeAt(s, r.End(i) - 1);
      assert FreeAt(r, r.End(i)) && FreeAt(r, r.End(i) - 1);
      assert r.OwnOk(r.End(i));
      NextUnit(r, base, r.End(i) - 1);
    }
  }

  /** Two heaps with the same free units have the same free list, block for block. */
  lemma FreeListDetermined(s: State, r: State, base: int)
    requires s.Inv(base, {}) && r.Inv(base, {}) && SameFree(s, r)
    ensures s.list == r.list
    ensures forall i | 0 <= i < |s.list| ::
            s.list[i] in s.mem && s.list[i] in r.mem && s.mem[s.list[i]] == r.mem[s.list[i]]
  {
    hide State.Inv, FreeAt;
    SameList(s, r, base);
    forall i | 0 <= i < |s.list|
      ensures s.list[i] in s.mem && s.list[i] in r.mem && s.mem[s.list[i]] == r.mem[s.list[i]]
    {
      SizeAtLeast(s, r, base, i);
      SizeAtLeast(r, s, base, i);
      NodeFacts(s, base, i);
      NodeFacts(r, base, i);
    }
  }

  /** Freeing what was just allocated gives the free list back, block for block. */
  lemma FreeUndoesMalloc(s: State, m: State, r: State, base: int, h: int, n: nat)
    requires s.Inv(base, {}) && m.Inv(base, {}) && r.Inv(base, {})
    requires Served(s, m, h, n, None) && Freed(m, r, h)
    ensures r.live == s.live && r.list == s.list
    ensures forall i | 0 <= i < |s.list| ::
            s.list[i] in s.mem && s.list[i] in r.mem && s.mem[s.list[i]] == r.mem[s.list[i]]
  {
    hide State.Chain;
    forall u ensures FreeAt(s, u) <==> FreeAt(r, u) {
      if u in m.own {
        assert m.LiveOk(base, h) && m.OwnOk(u);
      }
    }
    FreeListDetermined(s, r, base);
  }
}
