/** The heap of `user/umalloc.c`: the free list and the blocks in use.  Addresses count units of
    `sizeof(Header)`. */
module HeapState {
  import opened Common

  datatype Header = Header(ptr: int, size: nat)

  /** What a unit of memory obtained from `sbrk` belongs to: the block with the given header. */
  datatype Owner = Free(a: int) | Live(a: int)

  /** The units from `a` on, `n` of them, change owner. */
  function Give(own: map<int, Owner>, a: int, n: nat, o: Owner): (r: map<int, Owner>)
    ensures forall u :: u in r <==> u in own || a <= u < a + n
    ensures forall u | u in r :: r[u] == if a <= u < a + n then o else own[u]
  {
    if n == 0 then own else Give(own, a, n - 1, o)[a + n - 1 := o]
  }

  function InsertAt(xs: seq<int>, i: nat, x: int): (r: seq<int>)
    requires i <= |xs|
    ensures |r| == |xs| + 1
    ensures r[i] == x && (forall k | 0 <= k < i :: r[k] == xs[k]) && (forall k | i < k < |r| :: r[k] == xs[k - 1])
  {
    xs[..i] + [x] + xs[i..]
  }

  /** `list` is the free list in the order of its pointers, from the static header `base` on; `own`
      says which block each unit belongs to; `live` are the allocated blocks and their sizes. */
  datatype State = State(mem: map<int, Header>, list: seq<int>, own: map<int, Owner>, live: map<int, nat>) {

    /** The address after the last unit of the `i`-th free block. */
    function End(i: nat): int
      requires i < |list| && list[i] in mem
    {
      list[i] + mem[list[i]].size
    }

    function Next(i: nat): int
      requires i < |list|
    {
      if i + 1 < |list| then list[i + 1] else list[0]
    }

    /** Pointers follow the list; the first node is empty; each later block ends before the next
        begins, and not even touches it unless `loose` allows. */
    ghost predicate NodeOk(i: nat, loose: set<nat>)
      requires i < |list|
    {
      && list[i] in mem
      && mem[list[i]].ptr == Next(i)
      && (i == 0 <==> mem[list[i]].size == 0)
      && (i + 1 < |list| ==> End(i) < list[i + 1] || (i in loose && End(i) == list[i + 1]))
    }

    ghost predicate OwnOk(u: int)
      requires u in own
    {
      match own[u]
      case Free(a) => a in list && a in mem && a <= u < a + mem[a].size
      case Live(a) => a in live && a <= u < a + live[a]
    }

    ghost predicate LiveOk(base: int, a: int)
      requires a in live
    {
      && a in mem && mem[a].size == live[a] >= 1 && base < a
      && forall u | a <= u < a + live[a] :: u in own && own[u] == Live(a)
    }

    ghost predicate FreeUnits(i: nat)
      requires i < |list|
    {
      list[i] in mem && forall u | list[i] <= u < End(i) :: u in own && own[u] == Free(list[i])
    }

    /** The list is circular, in address order with one wrap, and its blocks do not touch. */
    ghost predicate Chain(base: int, loose: set<nat>) {
      && list != [] && list[0] == base
      && (forall i | 0 <= i < |list| :: NodeOk(i, loose))
      && (forall i, j | 0 <= i < j < |list| :: list[i] < list[j])
    }

    /** Every unit obtained from `sbrk` belongs to exactly one block. */
    ghost predicate Units(base: int) {
      && (forall i | 0 <= i < |list| :: FreeUnits(i))
      && (forall u | u in own :: OwnOk(u))
      && (forall a | a in live :: LiveOk(base, a))
    }

    ghost predicate Inv(base: int, loose: set<nat>) {
      Chain(base, loose) && Units(base)
    }

    // Steps.

    /** A block that was in use joins the list after the `t`-th node. */
    function Insert(t: nat, bp: int): State
      requires t < |list| && list[t] in mem && bp in mem && bp in live
    {
      State(mem[bp := Header(Next(t), mem[bp].size)][list[t] := Header(bp, mem[list[t]].size)],
            InsertAt(list, t + 1, bp),
            Give(own, bp, live[bp], Free(bp)),
            live - {bp})
    }

    /** Two free blocks that touch become one. */
    function Merge(i: nat): State
      requires i + 1 < |list| && list[i] in mem && list[i + 1] in mem
    {
      State(mem[list[i] := Header(mem[list[i + 1]].ptr, mem[list[i]].size + mem[list[i + 1]].size)],
            Without(list, i + 1),
            Give(own, list[i + 1], mem[list[i + 1]].size, Free(list[i])),
            live)
    }

    /** The `i`-th free block is taken off the list as a whole. */
    function Take(i: nat): State
      requires 0 < i < |list| && list[i] in mem && list[i - 1] in mem
    {
      State(mem[list[i - 1] := Header(mem[list[i]].ptr, mem[list[i - 1]].size)],
            Without(list, i),
            Give(own, list[i], mem[list[i]].size, Live(list[i])),
            live[list[i] := mem[list[i]].size])
    }

    /** The last `n` units of the `i`-th free block become a block in use. */
    function Split(i: nat, n: nat): State
      requires i < |list| && list[i] in mem && n <= mem[list[i]].size
    {
      State(mem[list[i] := Header(mem[list[i]].ptr, mem[list[i]].size - n)]
               [End(i) - n := Header(if End(i) - n in mem then mem[End(i) - n].ptr else 0, n)],
            list,
            Give(own, End(i) - n, n, Live(End(i) - n)),
            live[End(i) - n := n])
    }

    /** New memory from `sbrk`, as a block in use. */
    function AddCore(a: int, n: nat): State {
      State(mem[a := Header(if a in mem then mem[a].ptr else 0, n)], list,
            Give(own, a, n, Live(a)), live[a := n])
    }
  }

  /** Blocks in use do not overlap. */
  lemma LiveDisjoint(s: State, base: int, loose: set<nat>, a: int, b: int)
    requires s.Inv(base, loose) && a in s.live && b in s.live && a != b
    ensures a + s.live[a] <= b || b + s.live[b] <= a
  {
    assert s.LiveOk(base, a) && s.LiveOk(base, b);
    assert s.own[b] == Live(b) && s.own[a] == Live(a);
  }

  /** The gap of the list in which an address lies. */
  ghost predicate InGap(s: State, t: nat, bp: int) {
    t < |s.list| && s.list[t] < bp && (t + 1 < |s.list| ==> bp < s.list[t + 1])
  }

  /** A free block and a block in use do not overlap. */
  lemma Apart(s: State, base: int, loose: set<nat>, i: nat, a: int)
    requires s.Inv(base, loose) && i < |s.list| && a in s.live
    ensures s.list[i] in s.mem && s.list[i] != a
    ensures s.End(i) <= a || a + s.live[a] <= s.list[i]
  {
    assert s.NodeOk(i, loose) && s.FreeUnits(i) && s.LiveOk(base, a);
    assert s.own[a] == Live(a);
    if 0 < i {
      assert s.own[s.list[i]] == Free(s.list[i]);
    }
  }

  /** A block in use lies between the free blocks around it. */
  lemma GapFits(s: State, base: int, t: nat, bp: int)
    requires s.Inv(base, {}) && InGap(s, t, bp) && bp in s.live
    ensures s.list[t] in s.mem && s.End(t) <= bp
    ensures t + 1 < |s.list| ==> bp + s.live[bp] <= s.list[t + 1]
    ensures bp in s.mem && s.mem[bp].size == s.live[bp] > 0 && bp !in s.list
  {
    Apart(s, base, {}, t, bp);
    assert s.LiveOk(base, bp);
    forall i | 0 <= i < |s.list| ensures s.list[i] != bp {
      Apart(s, base, {}, i, bp);
    }
    if t + 1 < |s.list| {
      Apart(s, base, {}, t + 1, bp);
    }
  }

  lemma InsertNode(s: State, base: int, t: nat, bp: int, i: nat)
    requires s.Chain(base, {}) && InGap(s, t, bp) && bp in s.live && bp in s.mem && s.list[t] in s.mem
    requires s.End(t) <= bp && bp !in s.list && s.mem[bp].size > 0 && i <= |s.list|
    requires t + 1 < |s.list| ==> bp + s.mem[bp].size <= s.list[t + 1]
    ensures s.Insert(t, bp).NodeOk(i, {t, t + 1})
  {
    hide Give, InsertAt, Without;
    var r := s.Insert(t, bp);
    assert r.list[t + 1] == bp;
    var k := if i <= t then i else if i == t + 1 then t else i - 1;
    assert s.NodeOk(k, {});
    assert i != t + 1 ==> r.list[i] == s.list[k];
    assert i != t + 1 && i != t && k + 1 < |s.list| ==> r.list[i + 1] == s.list[k + 1];
    assert t + 2 < |r.list| ==> r.list[t + 2] == s.list[t + 1];
  }

  lemma InsertChain(s: State, base: int, t: nat, bp: int)
    requires s.Chain(base, {}) && InGap(s, t, bp) && bp in s.live && bp in s.mem && s.list[t] in s.mem
    requires s.End(t) <= bp && bp !in s.list && s.mem[bp].size > 0
    requires t + 1 < |s.list| ==> bp + s.mem[bp].size <= s.list[t + 1]
    ensures s.Insert(t, bp).Chain(base, {t, t + 1})
  {
    hide Give, InsertAt, Without, State.NodeOk;
    var r, loose := s.Insert(t, bp), {t, t + 1};
    assert r.list[t + 1] == bp;
    assert forall i | 0 <= i <= t :: r.list[i] == s.list[i];
    assert forall i | t + 1 < i < |r.list| :: r.list[i] == s.list[i - 1];
    forall i | 0 <= i < |r.list| ensures r.NodeOk(i, loose) {
      InsertNode(s, base, t, bp, i);
    }
  }

  lemma InsertFree(s: State, base: int, t: nat, bp: int, i: nat)
    requires s.Inv(base, {}) && InGap(s, t, bp) && bp in s.live && bp in s.mem && s.list[t] in s.mem
    requires i <= |s.list|
    ensures s.Insert(t, bp).FreeUnits(i)
  {
    hide Give, InsertAt, Without, State.OwnOk;
    GapFits(s, base, t, bp);
    if i != t + 1 {
      var k := if i <= t then i else i - 1;
      assert s.Insert(t, bp).list[i] == s.list[k];
      Apart(s, base, {}, k, bp);
      assert s.FreeUnits(k);
    }
  }

  lemma InsertOwn(s: State, base: int, t: nat, bp: int, u: int)
    requires s.Inv(base, {}) && InGap(s, t, bp) && bp in s.live && bp in s.mem && s.list[t] in s.mem
    requires u in s.Insert(t, bp).own
    ensures s.Insert(t, bp).OwnOk(u)
  {
    hide Give, InsertAt, Without, State.NodeOk, State.FreeUnits, State.LiveOk;
    GapFits(s, base, t, bp);
    var r := s.Insert(t, bp);
    assert r.list[t + 1] == bp;
    if !(bp <= u < bp + s.live[bp]) {
      assert s.OwnOk(u);
      if s.own[u].Free? {
        var k :| 0 <= k < |s.list| && s.list[k] == s.own[u].a;
        assert r.list[if k <= t then k else k + 1] == s.list[k];
      }
    }
  }

  lemma InsertUnits(s: State, base: int, t: nat, bp: int)
    requires s.Inv(base, {}) && InGap(s, t, bp) && bp in s.live && bp in s.mem && s.list[t] in s.mem
    ensures s.Insert(t, bp).Units(base)
  {
    hide Give, InsertAt, Without, State.OwnOk, State.FreeUnits;
    var r := s.Insert(t, bp);
    forall i | 0 <= i < |r.list| ensures r.FreeUnits(i) {
      InsertFree(s, base, t, bp, i);
    }
    forall u | u in r.own ensures r.OwnOk(u) {
      InsertOwn(s, base, t, bp, u);
    }
    forall a | a in r.live ensures r.LiveOk(base, a) {
      assert s.LiveOk(base, a) && a != bp;
      LiveDisjoint(s, base, {}, a, bp);
      Apart(s, base, {}, t, a);
    }
  }


  lemma InsertKeeps(s: State, base: int, t: nat, bp: int)
    requires s.Inv(base, {}) && InGap(s, t, bp) && bp in s.live
    ensures bp in s.mem && s.list[t] in s.mem
    ensures s.Insert(t, bp).Inv(base, {t, t + 1})
  {
    GapFits(s, base, t, bp);
    InsertChain(s, base, t, bp);
    InsertUnits(s, base, t, bp);
  }

  /** After a merge, the places where blocks may still touch. */
  ghost function Tighter(loose: set<nat>, i: nat): set<nat> {
    (set k | k in loose && k < i) + if i + 1 in loose then {i} else {}
  }

  lemma MergeChain(s: State, base: int, i: nat, loose: set<nat>)
    requires s.Chain(base, loose) && 0 < i && i + 1 < |s.list| && s.list[i] in s.mem && s.list[i + 1] in s.mem
    requires s.End(i) == s.list[i + 1]
    requires forall k | k in loose :: k <= i + 1
    ensures s.Merge(i).Chain(base, Tighter(loose, i))
  {
    hide Give, InsertAt, Without;
    var r := s.Merge(i);
    var l := Tighter(loose, i);
    assert forall k | 0 <= k <= i :: r.list[k] == s.list[k];
    assert forall k | i < k < |r.list| :: r.list[k] == s.list[k + 1];
    assert s.NodeOk(i + 1, loose);
    forall k | 0 <= k < |r.list| ensures r.NodeOk(k, l) {
      assert s.NodeOk(if k <= i then k else k + 1, loose);
    }
  }

  lemma MergeOwn(s: State, base: int, i: nat, loose: set<nat>, u: int)
    requires s.Inv(base, loose) && 0 < i && i + 1 < |s.list| && s.list[i] in s.mem && s.list[i + 1] in s.mem
    requires s.End(i) == s.list[i + 1] && u in s.Merge(i).own
    ensures s.Merge(i).OwnOk(u)
  {
    hide Give, InsertAt, Without, State.NodeOk;
    var r := s.Merge(i);
    assert s.FreeUnits(i + 1);
    assert s.OwnOk(u);
    assert r.list[i] == s.list[i];
    if s.own[u].Free? {
      var k :| 0 <= k < |s.list| && s.list[k] == s.own[u].a;
      if k != i + 1 {
        assert r.list[if k <= i then k else k - 1] == s.list[k];
      }
    }
  }

  lemma MergeFree(s: State, base: int, i: nat, loose: set<nat>, k: nat)
    requires s.Inv(base, loose) && 0 < i && i + 1 < |s.list| && s.list[i] in s.mem && s.list[i + 1] in s.mem
    requires s.End(i) == s.list[i + 1] && k + 1 < |s.list|
    ensures s.Merge(i).FreeUnits(k)
  {
    hide Give, InsertAt, Without, State.OwnOk, State.LiveOk;
    var j := if k <= i then k else k + 1;
    assert s.Merge(i).list[k] == s.list[j];
    assert s.FreeUnits(i) && s.FreeUnits(i + 1) && s.FreeUnits(j);
    if j != i {
      assert s.list[j] != s.list[i] && s.list[j] != s.list[i + 1];
      assert s.Merge(i).mem[s.list[j]] == s.mem[s.list[j]];
      forall u | s.list[j] <= u < s.End(j)
        ensures u in s.Merge(i).own && s.Merge(i).own[u] == Free(s.list[j])
      {
        assert s.own[u] == Free(s.list[j]);
      }
    }
  }

  lemma MergeUnits(s: State, base: int, i: nat, loose: set<nat>)
    requires s.Inv(base, loose) && 0 < i && i + 1 < |s.list| && s.list[i] in s.mem && s.list[i + 1] in s.mem
    requires s.End(i) == s.list[i + 1]
    ensures s.Merge(i).Units(base)
  {
    hide Give, InsertAt, Without, State.OwnOk;
    var r := s.Merge(i);
    forall k | 0 <= k < |r.list| ensures r.FreeUnits(k) {
      MergeFree(s, base, i, loose, k);
    }
    forall u | u in r.own ensures r.OwnOk(u) {
      MergeOwn(s, base, i, loose, u);
    }
    forall a | a in r.live ensures r.LiveOk(base, a) {
      assert s.LiveOk(base, a);
      Apart(s, base, loose, i, a);
      Apart(s, base, loose, i + 1, a);
    }
  }


  lemma MergeKeeps(s: State, base: int, i: nat, loose: set<nat>)
    requires s.Inv(base, loose) && 0 < i && i + 1 < |s.list| && s.list[i] in s.mem && s.list[i + 1] in s.mem
    requires s.End(i) == s.list[i + 1]
    requires forall k | k in loose :: k <= i + 1
    ensures s.Merge(i).Inv(base, Tighter(loose, i))
  {
    MergeChain(s, base, i, loose);
    MergeUnits(s, base, i, loose);
  }

  lemma TakeChain(s: State, base: int, i: nat)
    requires s.Chain(base, {}) && 0 < i < |s.list| && s.list[i] in s.mem && s.list[i - 1] in s.mem
    ensures s.Take(i).Chain(base, {})
  {
    hide Give, InsertAt, Without;
    var r := s.Take(i);
    assert forall k | 0 <= k < i :: r.list[k] == s.list[k];
    assert forall k | i <= k < |r.list| :: r.list[k] == s.list[k + 1];
    assert s.NodeOk(i, {});
    forall k | 0 <= k < |r.list| ensures r.NodeOk(k, {}) {
      assert s.NodeOk(if k < i then k else k + 1, {});
    }
  }

  lemma TakeOwn(s: State, base: int, i: nat, u: int)
    requires s.Inv(base, {}) && 0 < i < |s.list| && s.list[i] in s.mem && s.list[i - 1] in s.mem
    requires u in s.Take(i).own
    ensures s.Take(i).OwnOk(u)
  {
    hide Give, InsertAt, Without, State.NodeOk, State.LiveOk;
    var r := s.Take(i);
    assert s.FreeUnits(i);
    assert s.OwnOk(u);
    if s.own[u].Free? {
      var k :| 0 <= k < |s.list| && s.list[k] == s.own[u].a;
      if k != i {
        assert r.list[if k < i then k else k - 1] == s.list[k];
      }
    } else {
      Apart(s, base, {}, i, s.own[u].a);
    }
  }

  lemma TakeLive(s: State, base: int, i: nat, a: int)
    requires s.Inv(base, {}) && 0 < i < |s.list| && s.list[i] in s.mem && s.list[i - 1] in s.mem
    requires a in s.Take(i).live
    ensures s.Take(i).LiveOk(base, a)
  {
    hide Give, InsertAt, Without, State.OwnOk;
    if a == s.list[i] {
      assert s.NodeOk(i, {});
    } else {
      assert s.LiveOk(base, a);
      Apart(s, base, {}, i, a);
      Apart(s, base, {}, i - 1, a);
    }
  }

  lemma TakeFree(s: State, base: int, i: nat, k: nat)
    requires s.Inv(base, {}) && 0 < i < |s.list| && s.list[i] in s.mem && s.list[i - 1] in s.mem
    requires k + 1 < |s.list|
    ensures s.Take(i).FreeUnits(k)
  {
    hide Give, InsertAt, Without, State.OwnOk, State.LiveOk;
    var j := if k < i then k else k + 1;
    assert s.Take(i).list[k] == s.list[j];
    assert s.FreeUnits(i) && s.FreeUnits(j);
    assert s.list[j] != s.list[i];
    assert s.Take(i).mem[s.list[j]].size == s.mem[s.list[j]].size;
    forall u | s.list[j] <= u < s.End(j)
      ensures u in s.Take(i).own && s.Take(i).own[u] == Free(s.list[j])
    {
      assert s.own[u] == Free(s.list[j]);
    }
  }

  lemma TakeUnits(s: State, base: int, i: nat)
    requires s.Inv(base, {}) && 0 < i < |s.list| && s.list[i] in s.mem && s.list[i - 1] in s.mem
    ensures s.Take(i).Units(base)
  {
    hide Give, InsertAt, Without, State.OwnOk, State.LiveOk;
    var r := s.Take(i);
    forall k | 0 <= k < |r.list| ensures r.FreeUnits(k) {
      TakeFree(s, base, i, k);
    }
    forall u | u in r.own ensures r.OwnOk(u) {
      TakeOwn(s, base, i, u);
    }
    forall a | a in r.live ensures r.LiveOk(base, a) {
      TakeLive(s, base, i, a);
    }
  }


  lemma TakeKeeps(s: State, base: int, i: nat)
    requires s.Inv(base, {}) && 0 < i < |s.list| && s.list[i] in s.mem && s.list[i - 1] in s.mem
    ensures s.Take(i).Inv(base, {})
  {
    TakeChain(s, base, i);
    TakeUnits(s, base, i);
  }

  /** An address inside a free block, after its header, heads no block. */
  lemma Inside(s: State, base: int, i: nat, u: int)
    requires s.Inv(base, {}) && i < |s.list| && s.list[i] in s.mem && s.list[i] < u < s.End(i)
    ensures u !in s.list && u !in s.live
  {
    assert s.NodeOk(i, {}) && s.FreeUnits(i);
    assert s.own[u] == Free(s.list[i]);
    forall k | 0 <= k < |s.list| ensures s.list[k] != u {
      assert s.FreeUnits(k) && s.NodeOk(k, {});
    }
    forall a | a in s.live ensures a != u {
      assert s.LiveOk(base, a);
    }
  }

  lemma SplitNode(s: State, base: int, i: nat, n: nat, k: nat)
    requires s.Inv(base, {}) && i < |s.list| && s.list[i] in s.mem && 0 < n < s.mem[s.list[i]].size
    requires k < |s.list|
    ensures s.Split(i, n).NodeOk(k, {}) && s.Split(i, n).FreeUnits(k)
  {
    hide Give, InsertAt, Without, State.OwnOk, State.LiveOk;
    Inside(s, base, i, s.End(i) - n);
    assert s.NodeOk(i, {}) && s.FreeUnits(i);
    assert s.NodeOk(k, {}) && s.FreeUnits(k);
  }

  lemma SplitLive(s: State, base: int, i: nat, n: nat, a: int)
    requires s.Inv(base, {}) && i < |s.list| && s.list[i] in s.mem && 0 < n < s.mem[s.list[i]].size
    requires a in s.Split(i, n).live
    ensures s.Split(i, n).LiveOk(base, a)
  {
    hide Give, InsertAt, Without, State.OwnOk;
    assert s.NodeOk(i, {});
    if a != s.End(i) - n {
      assert s.LiveOk(base, a);
      Apart(s, base, {}, i, a);
    }
  }

  lemma SplitOwn(s: State, base: int, i: nat, n: nat, u: int)
    requires s.Inv(base, {}) && i < |s.list| && s.list[i] in s.mem && 0 < n < s.mem[s.list[i]].size
    requires u in s.Split(i, n).own
    ensures s.Split(i, n).OwnOk(u)
  {
    hide Give, InsertAt, Without, State.NodeOk, State.LiveOk;
    Inside(s, base, i, s.End(i) - n);
    assert s.FreeUnits(i);
    assert s.OwnOk(u);
  }

  lemma SplitKeeps(s: State, base: int, i: nat, n: nat)
    requires s.Inv(base, {}) && i < |s.list| && s.list[i] in s.mem && 0 < n < s.mem[s.list[i]].size
    ensures s.Split(i, n).Inv(base, {})
  {
    hide Give, InsertAt, Without, State.NodeOk, State.FreeUnits, State.OwnOk, State.LiveOk;
    var r := s.Split(i, n);
    forall k | 0 <= k < |r.list| ensures r.NodeOk(k, {}) && r.FreeUnits(k) {
      SplitNode(s, base, i, n, k);
    }
    forall a | a in r.live ensures r.LiveOk(base, a) {
      SplitLive(s, base, i, n, a);
    }
    forall u | u in r.own ensures r.OwnOk(u) {
      SplitOwn(s, base, i, n, u);
    }
  }


  /** Memory from `sbrk` lies above everything obtained before. */
  ghost predicate Above(s: State, base: int, a: int) {
    base < a && forall u | u in s.own :: u < a
  }

  lemma BelowCore(s: State, base: int, a: int)
    requires s.Inv(base, {}) && Above(s, base, a)
    ensures forall i | 0 <= i < |s.list| :: s.list[i] < a
    ensures forall b | b in s.live :: b < a
  {
    forall i | 0 <= i < |s.list| ensures s.list[i] < a {
      assert s.NodeOk(i, {}) && s.FreeUnits(i);
      if 0 < i {
        assert s.list[i] in s.own;
      }
    }
    forall b | b in s.live ensures b < a {
      assert s.LiveOk(base, b);
      assert b in s.own;
    }
  }

  lemma AddCoreOwn(s: State, base: int, a: int, n: nat, u: int)
    requires s.Inv(base, {}) && Above(s, base, a) && n > 0 && u in s.AddCore(a, n).own
    ensures s.AddCore(a, n).OwnOk(u)
  {
    hide Give, State.NodeOk, State.FreeUnits, State.LiveOk;
    BelowCore(s, base, a);
    if u in s.own {
      assert s.OwnOk(u);
    }
  }

  lemma AddCoreFree(s: State, base: int, a: int, n: nat, k: nat)
    requires s.Inv(base, {}) && Above(s, base, a) && n > 0 && k < |s.list|
    ensures s.AddCore(a, n).FreeUnits(k)
  {
    hide Give, State.NodeOk, State.OwnOk, State.LiveOk;
    BelowCore(s, base, a);
    assert s.FreeUnits(k) && s.list[k] < a;
    forall u | s.list[k] <= u < s.End(k)
      ensures u in s.AddCore(a, n).own && s.AddCore(a, n).own[u] == Free(s.list[k])
    {
      assert s.own[u] == Free(s.list[k]);
    }
  }

  lemma AddCoreLive(s: State, base: int, a: int, n: nat, b: int)
    requires s.Inv(base, {}) && Above(s, base, a) && n > 0 && b in s.AddCore(a, n).live
    ensures s.AddCore(a, n).LiveOk(base, b)
  {
    hide Give, State.NodeOk, State.OwnOk, State.FreeUnits;
    BelowCore(s, base, a);
    if b != a {
      assert s.LiveOk(base, b) && b < a;
      forall u | b <= u < b + s.live[b]
        ensures u in s.AddCore(a, n).own && s.AddCore(a, n).own[u] == Live(b)
      {
        assert s.own[u] == Live(b);
      }
    }
  }

  lemma AddCoreUnits(s: State, base: int, a: int, n: nat)
    requires s.Inv(base, {}) && Above(s, base, a) && n > 0
    ensures s.AddCore(a, n).Units(base)
  {
    hide Give, State.NodeOk, State.OwnOk, State.FreeUnits, State.LiveOk;
    var r := s.AddCore(a, n);
    forall k | 0 <= k < |r.list| ensures r.FreeUnits(k) {
      AddCoreFree(s, base, a, n, k);
    }
    forall b | b in r.live ensures r.LiveOk(base, b) {
      AddCoreLive(s, base, a, n, b);
    }
    forall u | u in r.own ensures r.OwnOk(u) {
      AddCoreOwn(s, base, a, n, u);
    }
  }

  lemma AddCoreKeeps(s: State, base: int, a: int, n: nat)
    requires s.Inv(base, {}) && Above(s, base, a) && n > 0
    ensures s.AddCore(a, n).Inv(base, {})
  {
    hide Give, InsertAt, Without, State.Units;
    var r := s.AddCore(a, n);
    BelowCore(s, base, a);
    AddCoreUnits(s, base, a, n);
    forall k | 0 <= k < |r.list| ensures r.NodeOk(k, {}) {
      assert s.NodeOk(k, {});
    }
  }
}
