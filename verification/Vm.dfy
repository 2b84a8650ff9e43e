/** The page allocator of `kernel/kalloc.c` and the page-table operations of `kernel/vm.c`. */
module Vm {
  import opened Common
  import opened Counting
  import opened PageTable

  function ToSet<T>(xs: seq<T>): (s: set<T>) {
    set x | x in xs
  }

  /** A page filled with one byte. */
  function Filled(byte: nat): Page {
    seq(512, _ => byte * 0x0101_0101_0101_0101)
  }

  function ZeroPage(): Page {
    seq(512, _ => 0)
  }

  /** Pages the allocator manages: `lo` is `end` and `hi` is PHYSTOP. */
  datatype Range = Range(lo: nat, hi: nat) {
    predicate Has(pa: nat) {
      pa % PGSIZE == 0 && lo <= pa < hi
    }

    predicate Valid() {
      lo > 0 && hi % PGSIZE == 0
    }
  }

  /** The free list runs through the first words of the free pages. */
  ghost predicate FreeList(mem: Memory, range: Range, head: nat, free: seq<nat>) {
    && Distinct(free)
    && head == (if free == [] then 0 else free[0])
    && (forall a | range.Has(a) :: a in mem)
    && forall i | 0 <= i < |free| :: LinkOk(mem, range, free, i)
  }

  ghost predicate LinkOk(mem: Memory, range: Range, free: seq<nat>, i: nat)
    requires i < |free|
  {
    && range.Has(free[i]) && free[i] in mem
    && mem[free[i]][0] == if i + 1 < |free| then free[i + 1] else 0
  }

  lemma PopFree(mem: Memory, range: Range, free: seq<nat>, page: Page)
    requires free != [] && FreeList(mem, range, free[0], free)
    ensures free[0] in mem
    ensures FreeList(mem[free[0] := page], range, mem[free[0]][0], free[1..])
  {
    var mem' := mem[free[0] := page];
    var rest := free[1..];
    forall i | 0 <= i < |rest| ensures LinkOk(mem', range, rest, i) {
      assert LinkOk(mem, range, free, i + 1);
    }
    assert LinkOk(mem, range, free, 0);
  }

  lemma PushFree(mem: Memory, range: Range, head: nat, free: seq<nat>, pa: nat)
    requires range.Valid() && FreeList(mem, range, head, free) && range.Has(pa) && pa !in free
    ensures FreeList(mem[pa := Filled(1)[0 := head]], range, pa, [pa] + free)
  {
    var mem' := mem[pa := Filled(1)[0 := head]];
    var more := [pa] + free;
    forall i | 0 <= i < |more| ensures LinkOk(mem', range, more, i) {
      if i > 0 {
        assert LinkOk(mem, range, free, i - 1);
      }
    }
  }

  /** Memory other than the free pages may change. */
  lemma FreeListFrame(mem: Memory, mem': Memory, range: Range, head: nat, free: seq<nat>)
    requires FreeList(mem, range, head, free) && mem'.Keys == mem.Keys
    requires forall a | a in free :: a in mem' && a in mem && mem'[a] == mem[a]
    ensures FreeList(mem', range, head, free)
  {
    forall i | 0 <= i < |free| ensures LinkOk(mem', range, free, i) {
      assert LinkOk(mem, range, free, i);
    }
  }

  /** A tree whose tables are allocated pages. */
  ghost predicate Held(mem: Memory, range: Range, free: seq<nat>, sp: Space) {
    Tree(mem, sp) && forall a | a in sp.pos :: range.Has(a) && a !in free
  }

  /** Tables may have been added to the tree, out of pages that were free, and entries in its
      tables may have changed; all other memory is as it was. */
  ghost predicate Kept(mem: Memory, free: seq<nat>, sp: Space, mem': Memory, free': seq<nat>, sp': Space) {
    && mem'.Keys == mem.Keys
    && |free'| <= |free| && free' == free[|free| - |free'|..]
    && sp.pos.Keys <= sp'.pos.Keys
    && (forall p | p in sp.at :: p in sp'.at && sp'.at[p] == sp.at[p])
    && sp'.pos.Keys + ToSet(free') == sp.pos.Keys + ToSet(free)
    && (forall a | a in mem && a !in sp'.pos :: mem'[a] == mem[a])
    && (forall a | a in mem && a in free' :: mem'[a] == mem[a])
  }

  /** The same, and the map has not changed. */
  ghost predicate Grown(mem: Memory, free: seq<nat>, sp: Space, mem': Memory, free': seq<nat>, sp': Space) {
    Kept(mem, free, sp, mem', free', sp') && SameMap(mem, sp, mem', sp')
  }

  lemma GrownRefl(mem: Memory, free: seq<nat>, sp: Space)
    ensures Grown(mem, free, sp, mem, free, sp)
  {
    assert free == free[0..];
  }

  lemma KeptTrans(m0: Memory, f0: seq<nat>, s0: Space, m1: Memory, f1: seq<nat>, s1: Space,
                  m2: Memory, f2: seq<nat>, s2: Space)
    requires Kept(m0, f0, s0, m1, f1, s1) && Kept(m1, f1, s1, m2, f2, s2)
    ensures Kept(m0, f0, s0, m2, f2, s2)
  {
    assert f2 == f0[|f0| - |f2|..];
  }

  lemma GrownTrans(m0: Memory, f0: seq<nat>, s0: Space, m1: Memory, f1: seq<nat>, s1: Space,
                   m2: Memory, f2: seq<nat>, s2: Space)
    requires Grown(m0, f0, s0, m1, f1, s1) && Grown(m1, f1, s1, m2, f2, s2)
    ensures Grown(m0, f0, s0, m2, f2, s2)
  {
    KeptTrans(m0, f0, s0, m1, f1, s1, m2, f2, s2);
  }

  class Machine {
    const range: Range
    var mem: Memory
    var freelist: nat
    ghost var free: seq<nat>

    ghost predicate Valid()
      reads this
    {
      range.Valid() && FreeList(mem, range, freelist, free)
    }

    ghost predicate Holds(sp: Space)
      reads this
    {
      Held(mem, range, free, sp)
    }

    /** `kinit`: all the pages of the range are free. */
    constructor (range: Range, mem: Memory)
      requires range.Valid() && forall a | range.Has(a) :: a in mem
      ensures this.range == range && Valid()
      ensures forall a: nat :: a in free <==> range.Has(a)
      ensures range.lo <= range.hi ==> |free| == range.hi / PGSIZE - RoundUp(range.lo)
    {
      this.range, this.mem := range, mem;
      freelist, free := 0, [];
      new;
      var p := (range.lo + PGSIZE - 1) / PGSIZE * PGSIZE;
      while p + PGSIZE <= range.hi
        invariant p % PGSIZE == 0 && range.lo <= p
        invariant Valid()
        invariant forall a: nat :: a in free <==> range.Has(a) && a < p
        invariant p == (RoundUp(range.lo) + |free|) * PGSIZE
        invariant range.lo <= range.hi ==> p <= range.hi
      {
        Kfree(p);
        p := p + PGSIZE;
      }
    }

    /** Frees a page of the range; a free page must not be freed again. */
    method Kfree(pa: nat)
      requires Valid() && range.Has(pa) && pa !in free
      modifies this
      ensures Valid() && free == [pa] + old(free)
      ensures pa in old(mem) && pa in mem && mem == old(mem)[pa := mem[pa]]
    {
      PushFree(mem, range, freelist, free, pa);
      mem := mem[pa := Filled(1)];
      mem := mem[pa := mem[pa][0 := freelist]];
      assert mem == old(mem)[pa := Filled(1)[0 := freelist]];
      freelist := pa;
      free := [pa] + free;
    }

    /** A page from the free list, filled with junk, or 0. */
    method Kalloc() returns (r: nat)
      requires Valid()
      modifies this
      ensures Valid()
      ensures r == 0 <==> old(free) == []
      ensures r == 0 ==> mem == old(mem) && free == old(free)
      ensures r != 0 ==> r == old(free)[0] && free == old(free)[1..] && range.Has(r) && r !in free
                         && r in old(mem) && freelist == old(mem)[r][0] && mem == old(mem)[r := mem[r]]
    {
      r := freelist;
      assert free != [] ==> LinkOk(mem, range, free, 0);
      if r != 0 {
        PopFree(mem, range, free, Filled(5));
        freelist := mem[r][0];
        free := free[1..];
        mem := mem[r := Filled(5)];
      }
    }

    /** One turn of `walk`'s loop: the table below entry `i` of the table at `p`, made if `alloc`
        allows. */
    method Descend(pagetable: nat, i: nat, alloc: bool, ghost sp: Space, ghost p: Pos)
      returns (r: Option<nat>, ghost sp': Space)
      requires Valid() && Holds(sp) && p in sp.at && !p.Low? && pagetable == sp.at[p]
      requires i < (if p.Top? then 256 else 512)
      modifies this
      ensures Valid() && Holds(sp') && Grown(old(mem), old(free), sp, mem, free, sp')
      ensures r.Some? ==> Child(p, i) in sp'.at && r.value == sp'.at[Child(p, i)]
      ensures r.None? ==> Child(p, i) !in sp.at && sp' == sp && mem == old(mem) && free == old(free)
                          && (alloc ==> free == [])
      ensures !alloc || Child(p, i) in sp.at ==> sp' == sp && mem == old(mem) && free == old(free)
      ensures r.Some? ==> Paid(|old(free)|, sp, |free|, sp', {Child(p, i)})
    {
      hide FreeList, Grown, Distinct, Tree, EntryOk, IsValid, PTE2PA, MakePte;
      sp' := sp;
      GrownRefl(mem, free, sp);
      EntryFacts(mem, sp, p, i);
      var pte := mem[pagetable][i];
      if IsValid(pte) {
        return Some(PTE2PA(pte)), sp;
      }
      if !alloc {
        return None, sp;
      }
      var pa := Kalloc();
      if pa == 0 {
        return None, sp;
      }
      GrowTree(old(mem), range, old(freelist), old(free), sp, p, i, pa);
      mem := mem[pa := ZeroPage()];
      mem := mem[pagetable := mem[pagetable][i := MakePte(pa, 0)]];
      assert mem == old(mem)[pa := ZeroPage()][pagetable := old(mem)[pagetable][i := MakePte(pa, 0)]];
      sp' := sp.Add(Child(p, i), pa);
      r := Some(pa);
    }

    /** The place of the entry for `va`, as a table and an index in it. With `alloc`, missing
        tables are made; they stay in the tree even if a later one cannot be made. */
    method Walk(pagetable: nat, va: nat, alloc: bool, ghost sp: Space) returns (r: Option<(nat, nat)>, ghost sp': Space)
      requires Valid() && Holds(sp) && Top in sp.at && pagetable == sp.at[Top] && va < MAXVA
      modifies this
      ensures Valid() && Holds(sp') && Grown(old(mem), old(free), sp, mem, free, sp')
      ensures r.Some? ==> LowOf(va / PGSIZE) in sp'.at && r.value == (sp'.at[LowOf(va / PGSIZE)], va / PGSIZE % 512)
      ensures r.None? ==> LowOf(va / PGSIZE) !in sp'.at
      ensures !alloc ==> sp' == sp && mem == old(mem) && free == old(free)
      ensures alloc ==> (r.Some? <==> |Lacking(sp, va / PGSIZE)| <= |old(free)|)
      ensures r.Some? ==> Paid(|old(free)|, sp, |free|, sp', Path(va / PGSIZE))
    {
      hide FreeList, Grown, Distinct, Tree, Lookup, Paid, PathTo, Path, Lacking;
      PxOfPage(va);
      LowOfPage(va);
      StartPath(|free|, sp, va / PGSIZE);
      ShapeOf(mem, range, free, sp);
      GrownRefl(mem, free, sp);
      sp' := sp;
      var table := pagetable;
      var level := 2;
      ghost var p := Top;
      while level > 0
        invariant 0 <= level <= 2
        invariant p == if level == 2 then Top else if level == 1 then Mid(Px(2, va)) else Low(Px(2, va), Px(1, va))
        invariant p in sp'.at && table == sp'.at[p]
        invariant Valid() && Holds(sp') && Grown(old(mem), old(free), sp, mem, free, sp')
        invariant !alloc ==> sp' == sp && mem == old(mem) && free == old(free)
        invariant Paid(|old(free)|, sp, |free|, sp', PathTo(va / PGSIZE, level))
      {
        ghost var mem1, free1, sp1 := mem, free, sp';
        ShapeOf(mem, range, free, sp');
        var next;
        next, sp' := Descend(table, Px(level, va), alloc, sp', p);
        GrownTrans(old(mem), old(free), sp, mem1, free1, sp1, mem, free, sp');
        if next.None? {
          if alloc {
            Short(|old(free)|, sp, sp', va / PGSIZE, level, Child(p, Px(level, va)));
          }
          return None, sp';
        }
        PathNext(|old(free)|, sp, |free1|, sp1, |free|, sp', va / PGSIZE, level);
        p := Child(p, Px(level, va));
        table := next.value;
        level := level - 1;
      }
      r := Some((table, Px(0, va)));
      EndPath(|old(free)|, sp, |free|, sp', va / PGSIZE);
    }

    /** One turn of `mappages`: a mapping for the page of `va`, which must have none. */
    method MapPage(pagetable: nat, va: nat, pa: nat, perm: nat, ghost sp: Space) returns (ok: bool, ghost sp': Space)
      requires Valid() && Holds(sp) && Top in sp.at && pagetable == sp.at[Top] && va < MAXVA
      requires pa % PGSIZE == 0 && perm < 1024 && perm / 2 % 8 != 0
      requires Lookup(mem, sp, va / PGSIZE) == 0
      modifies this
      ensures Valid() && Holds(sp') && Kept(old(mem), old(free), sp, mem, free, sp')
      ensures forall v | 0 <= v < MAXVPN :: Lookup(mem, sp', v)
                == if ok && v == va / PGSIZE then MakePte(pa, perm) else Lookup(old(mem), sp, v)
      ensures ok <==> |Lacking(sp, va / PGSIZE)| <= |old(free)|
      ensures ok ==> Paid(|old(free)|, sp, |free|, sp', Path(va / PGSIZE))
    {
      hide FreeList, Distinct, Tree, Lookup, Kept, Held, Lacking, Paid, Path;
      var r;
      r, sp' := Walk(pagetable, va, true, sp);
      if r.None? {
        return false, sp';
      }
      PxOfPage(va);
      PteRoundTrip(pa, perm);
      var (table, i) := r.value;
      StoreLeaf(mem, range, freelist, free, sp', va / PGSIZE, MakePte(pa, perm));
      KeptTrans(old(mem), old(free), sp, mem, free, sp', mem[table := mem[table][i := MakePte(pa, perm)]], free, sp');
      mem := mem[table := mem[table][i := MakePte(pa, perm)]];
      ok := true;
    }

    /** Maps the pages of `va` to `va + size - 1`, which must have no mapping, to the physical pages
        from `pa` on.  It fails, with -1, if and only if fewer pages are free than tables are
        missing.  Then the first `k` pages stay mapped, all those that there were tables for. */
    method Mappages(pagetable: nat, va: nat, size: nat, pa: nat, perm: nat, ghost sp: Space)
      returns (r: int, ghost sp': Space, ghost k: nat)
      requires Valid() && Holds(sp) && Top in sp.at && pagetable == sp.at[Top]
      requires size > 0 && va + size <= MAXVA
      requires pa % PGSIZE == 0 && perm < 1024 && perm / 2 % 8 != 0
      requires forall v | va / PGSIZE <= v <= (va + size - 1) / PGSIZE :: Lookup(mem, sp, v) == 0
      modifies this
      ensures Valid() && Holds(sp') && Kept(old(mem), old(free), sp, mem, free, sp')
      ensures r == 0 || r == -1
      ensures r == 0 <==> |Missing(sp, va / PGSIZE, PagesOf(va, size))| <= |old(free)|
      ensures k <= PagesOf(va, size) && |Missing(sp, va / PGSIZE, k)| <= |old(free)|
      ensures forall j | k < j <= PagesOf(va, size) :: |Missing(sp, va / PGSIZE, j)| > |old(free)|
      ensures forall v | 0 <= v < MAXVPN :: Lookup(mem, sp', v)
                == if va / PGSIZE <= v < va / PGSIZE + k then MakePte(pa + (v - va / PGSIZE) * PGSIZE, perm)
                   else Lookup(old(mem), sp, v)
      ensures r == -1 ==> (SameMap(old(mem), sp, mem, sp') <==> |Missing(sp, va / PGSIZE, 1)| > |old(free)|)
      ensures r == 0 ==> Paid(|old(free)|, sp, |free|, sp', Needed(va / PGSIZE, PagesOf(va, size)))
    {
      hide FreeList, Distinct, Tree, Lookup, Kept, Held, MakePte, Missing, Needed, Lacking, Paid, Path, SameMap;
      GrownRefl(mem, free, sp);
      sp', k := sp, 0;
      var a := va / PGSIZE * PGSIZE;
      var last := (va + size - 1) / PGSIZE * PGSIZE;
      var p := pa;
      ghost var first, n := va / PGSIZE, PagesOf(va, size);
      PaidNothing(|free|, sp, first);
      while true
        invariant k < n && a == (first + k) * PGSIZE && a <= last && last < MAXVA && p == pa + k * PGSIZE
        invariant Valid() && Holds(sp') && Kept(old(mem), old(free), sp, mem, free, sp')
        invariant Top in sp'.at && pagetable == sp'.at[Top]
        invariant forall v | 0 <= v < MAXVPN :: Lookup(mem, sp', v)
                    == if first <= v < first + k then MakePte(pa + (v - first) * PGSIZE, perm)
                       else Lookup(old(mem), sp, v)
        invariant Paid(|old(free)|, sp, |free|, sp', Needed(first, k))
        decreases last - a
      {
        PaidSoFar(|old(free)|, sp, |free|, sp', first, k);
        ghost var mem1, free1, sp1 := mem, free, sp';
        assert a / PGSIZE == first + k;
        PxOfPage(a);
        var ok;
        ok, sp' := MapPage(pagetable, a, p, perm, sp');
        KeptTrans(old(mem), old(free), sp, mem1, free1, sp1, mem, free, sp');
        KeptTop(mem1, free1, sp1, mem, free, sp');
        if !ok {
          Beyond(sp, first, n, |old(free)|, k);
          MapChanged(old(mem), sp, mem, sp', first, k, pa, perm);
          return -1, sp', k;
        }
        PaidNext(|old(free)|, sp, |free1|, sp1, |free|, sp', first, k);
        k := k + 1;
        if a == last {
          break;
        }
        a := a + PGSIZE;
        p := p + PGSIZE;
      }
      PaidSoFar(|old(free)|, sp, |free|, sp', first, k);
      r := 0;
    }

    /** One turn of `uvmunmap`. */
    method UnmapPage(pagetable: nat, va: nat, doFree: bool, ghost sp: Space)
      requires Valid() && Holds(sp) && Top in sp.at && pagetable == sp.at[Top] && va < MAXVA
      requires Lookup(mem, sp, va / PGSIZE) != 0
      requires doFree ==> Freeable(range, free, sp, PTE2PA(Lookup(mem, sp, va / PGSIZE)))
      modifies this
      ensures Valid() && Holds(sp) && mem.Keys == old(mem).Keys
      ensures free == if doFree then [PTE2PA(Lookup(old(mem), sp, va / PGSIZE))] + old(free) else old(free)
      ensures forall v | 0 <= v < MAXVPN ::
              Lookup(mem, sp, v) == if v == va / PGSIZE then 0 else Lookup(old(mem), sp, v)
      ensures forall x | x in mem && x !in sp.pos && !(doFree && x == PTE2PA(Lookup(old(mem), sp, va / PGSIZE))) ::
                mem[x] == old(mem)[x]
    {
      hide FreeList, Distinct, Tree, Kept, Held;
      PxOfPage(va);
      var r, _ := Walk(pagetable, va, false, sp);
      var (table, i) := r.value;
      EntryFlags(mem, range, free, sp, va / PGSIZE);
      var pte := mem[table][i];
      assert IsValid(pte) && PteFlags(pte) != PTE_V;
      ghost var mem1 := mem;
      if doFree {
        Kfree(PTE2PA(pte));
        FreedOutside(mem1, mem, range, old(free), sp, PTE2PA(pte));
      }
      StoreLeaf(mem, range, freelist, free, sp, va / PGSIZE, 0);
      StoreLeafFrame(mem, sp, table, i);
      mem := mem[table := mem[table][i := 0]];
    }

    /** Removes the mappings of `npages` pages from `va` on, which must all exist, and frees the
        pages they map if `doFree`. */
    method Uvmunmap(pagetable: nat, va: nat, npages: nat, doFree: bool, ghost sp: Space)
      requires Valid() && Holds(sp) && Top in sp.at && pagetable == sp.at[Top]
      requires va % PGSIZE == 0 && va + npages * PGSIZE <= MAXVA
      requires Mapped(mem, sp, va / PGSIZE, npages)
      requires doFree ==> Backed(mem, range, free, sp, va / PGSIZE, npages)
      modifies this
      ensures Valid() && Holds(sp) && mem.Keys == old(mem).Keys
      ensures ToSet(free) == ToSet(old(free)) + (if doFree then Pages(old(mem), sp, va / PGSIZE, npages) else {})
      ensures forall v | 0 <= v < MAXVPN :: Lookup(mem, sp, v)
                == if va / PGSIZE <= v < va / PGSIZE + npages then 0 else Lookup(old(mem), sp, v)
      ensures forall x | x in mem && x !in sp.pos && !(doFree && x in Pages(old(mem), sp, va / PGSIZE, npages)) ::
                mem[x] == old(mem)[x]
    {
      hide FreeList, Distinct, Tree, Held, Lookup, Freeable, ToSet;
      var a := va;
      ghost var first, k := va / PGSIZE, 0;
      while a < va + npages * PGSIZE
        invariant k <= npages && a == va + k * PGSIZE
        invariant Valid() && Holds(sp) && mem.Keys == old(mem).Keys
        invariant ToSet(free) == ToSet(old(free)) + (if doFree then Pages(old(mem), sp, first, k) else {})
        invariant forall v | 0 <= v < MAXVPN ::
                    Lookup(mem, sp, v) == if first <= v < first + k then 0 else Lookup(old(mem), sp, v)
        invariant forall x | x in mem && x !in sp.pos && !(doFree && x in Pages(old(mem), sp, first, k)) ::
                  mem[x] == old(mem)[x]
        decreases npages - k
      {
        assert a / PGSIZE == first + k;
        PxOfPage(a);
        assert Lookup(old(mem), sp, first + k) != 0;
        if doFree {
          NextFreeable(old(mem), range, old(free), free, sp, first, npages, k);
        }
        ghost var free1 := free;
        UnmapPage(pagetable, a, doFree, sp);
        if doFree {
          ToSetCons(PTE2PA(Lookup(old(mem), sp, first + k)), free1);
        }
        k := k + 1;
        a := a + PGSIZE;
      }
    }

    /** One turn of `uvmalloc` and of `uvmcopy`: a page of its own, with the given content, for the
        virtual page of `va`. If there is no page for it or for a table, nothing but tables
        has been added. */
    method AllocPage(pagetable: nat, va: nat, content: Page, perm: nat, ghost sp: Space)
      returns (ok: bool, ghost sp': Space, ghost pa: nat)
      requires Valid() && Holds(sp) && Top in sp.at && pagetable == sp.at[Top] && va < MAXVA && va % PGSIZE == 0
      requires perm < 1024 && perm / 2 % 8 != 0 && Lookup(mem, sp, va / PGSIZE) == 0
      modifies this
      ensures Valid() && Holds(sp') && Extends(old(mem), old(free), sp, mem, sp')
      ensures ToSet(free) + sp'.pos.Keys + (if ok then {pa} else {}) == ToSet(old(free)) + sp.pos.Keys
      ensures ok ==> pa in old(free) && Freeable(range, free, sp', pa) && pa in mem && mem[pa] == content
      ensures forall v | 0 <= v < MAXVPN :: Lookup(mem, sp', v)
                == if ok && v == va / PGSIZE then MakePte(pa, perm) else Lookup(old(mem), sp, v)
      ensures ok <==> 1 + |Lacking(sp, va / PGSIZE)| <= |old(free)|
      ensures ok ==> Paid(|old(free)|, sp, |free| + 1, sp', Path(va / PGSIZE))
    {
      hide FreeList, Distinct, Tree, Held, Lookup, ToSet, Kept, Extends, Lacking, Missing, Needed, Paid, Path, SameMap;
      pa := 0;
      ExtendsRefl(mem, free, sp);
      var page := Kalloc();
      if page == 0 {
        return false, sp, 0;
      }
      pa := page;
      mem := mem[page := content];
      TookPage(old(mem), range, old(freelist), old(free), mem, freelist, sp, content);
      ghost var mem1, free1 := mem, free;
      var r;
      ghost var k;
      assert PagesOf(va, PGSIZE) == 1;
      OnePage(sp, va / PGSIZE);
      r, sp', k := Mappages(pagetable, va, PGSIZE, page, perm, sp);
      TookAndGrew(old(mem), old(free), sp, mem1, free1, mem, free, sp', range, page, content);
      if r != 0 {
        ghost var mem2, free2 := mem, free;
        Kfree(page);
        FreedOutside(mem2, mem, range, free2, sp', page);
        GaveBack(old(mem), old(free), sp, mem2, mem, free2, sp', page);
        return false, sp', 0;
      }
      PaidMore(|free1|, sp, |free|, sp', Path(va / PGSIZE), 1);
      ok := true;
    }

    /** Shrinks a process from `oldsz` to `newsz` bytes, giving its pages back. */
    method Uvmdealloc(pagetable: nat, oldsz: nat, newsz: nat, ghost sp: Space) returns (r: nat)
      requires Valid() && Holds(sp) && Top in sp.at && pagetable == sp.at[Top]
      requires RoundUp(oldsz) <= MAXVPN
      requires newsz < oldsz ==>
        && Mapped(mem, sp, RoundUp(newsz), RoundUp(oldsz) - RoundUp(newsz))
        && Backed(mem, range, free, sp, RoundUp(newsz), RoundUp(oldsz) - RoundUp(newsz))
      modifies this
      ensures Valid() && Holds(sp) && mem.Keys == old(mem).Keys
      ensures r == if newsz >= oldsz then oldsz else newsz
      ensures newsz >= oldsz ==> mem == old(mem) && free == old(free)
      ensures newsz < oldsz ==>
        var first, n := RoundUp(newsz), RoundUp(oldsz) - RoundUp(newsz);
        && ToSet(free) == ToSet(old(free)) + Pages(old(mem), sp, first, n)
        && (forall v | 0 <= v < MAXVPN ::
            Lookup(mem, sp, v) == if first <= v < first + n then 0 else Lookup(old(mem), sp, v))
        && (forall x | x in mem && x !in sp.pos && x !in Pages(old(mem), sp, first, n) :: mem[x] == old(mem)[x])
    {
      hide FreeList, Distinct, Tree, Held, Lookup, ToSet, Mapped, Backed;
      if newsz >= oldsz {
        return oldsz;
      }
      if RoundUp(newsz) * PGSIZE < RoundUp(oldsz) * PGSIZE {
        var npages := (RoundUp(oldsz) * PGSIZE - RoundUp(newsz) * PGSIZE) / PGSIZE;
        assert npages == RoundUp(oldsz) - RoundUp(newsz);
        Uvmunmap(pagetable, RoundUp(newsz) * PGSIZE, npages, true, sp);
      }
      r := newsz;
    }

    /** Grows a process from `oldsz` to `newsz` bytes with zeroed pages of its own. If memory runs
        out, the process is as it was: the pages added before are free again. */
    method Uvmalloc(pagetable: nat, oldsz: nat, newsz: nat, xperm: nat, ghost sp: Space)
      returns (r: nat, ghost ok: bool, ghost sp': Space)
      requires Valid() && Holds(sp) && Top in sp.at && pagetable == sp.at[Top]
      requires RoundUp(newsz) <= MAXVPN && xperm in {0, PTE_W, PTE_X, PTE_W + PTE_X}
      requires forall v | RoundUp(oldsz) <= v < RoundUp(newsz) :: Lookup(mem, sp, v) == 0
      modifies this
      ensures Valid() && Holds(sp') && Extends(old(mem), old(free), sp, mem, sp')
      ensures newsz >= oldsz ==>
        var first, n := RoundUp(oldsz), RoundUp(newsz) - RoundUp(oldsz);
        ok <==> n + |Missing(sp, first, n)| <= |old(free)|
      ensures r == if newsz < oldsz then oldsz else if ok then newsz else 0
      ensures newsz < oldsz ==> ok && mem == old(mem) && free == old(free) && sp' == sp
      ensures newsz >= oldsz && ok ==>
        Fresh(old(mem), old(free), sp, mem, range, free, sp', RoundUp(oldsz), RoundUp(newsz) - RoundUp(oldsz),
              seq(RoundUp(newsz) - RoundUp(oldsz), _ => Want(PTE_R + PTE_U + xperm, ZeroPage())))
      ensures !ok ==> SameMap(old(mem), sp, mem, sp') && ToSet(free) + sp'.pos.Keys == ToSet(old(free)) + sp.pos.Keys
    {
      hide FreeList, Distinct, Tree, Held, Lookup, ToSet, Mapped, Backed, Extends, Fresh, SameMap;
      hide Paid, Path, Needed, Missing, Lacking;
      sp', ok := sp, true;
      ExtendsRefl(mem, free, sp);
      if newsz < oldsz {
        return oldsz, true, sp;
      }
      ghost var first, k := RoundUp(oldsz), 0;
      ghost var want := seq(RoundUp(newsz) - RoundUp(oldsz), _ => Want(PTE_R + PTE_U + xperm, ZeroPage()));
      FreshStart(mem, range, free, sp, first, want);
      PaidNothing(|free|, sp, first);
      var a := RoundUp(oldsz) * PGSIZE;
      while a < newsz
        invariant a == (first + k) * PGSIZE
        invariant k == 0 || first + k <= RoundUp(newsz)
        invariant Valid() && Holds(sp') && Top in sp'.at && pagetable == sp'.at[Top]
        invariant Fresh(old(mem), old(free), sp, mem, range, free, sp', first, k, want)
        invariant Paid(|old(free)|, sp, |free| + k, sp', Needed(first, k))
        decreases newsz - a
      {
        ghost var mem1, free1, sp1, pa := mem, free, sp', 0;
        PageBelow(a, newsz, first + k);
        FreshFacts(old(mem), old(free), sp, mem, range, free, sp', first, k, want);
        var more;
        more, sp', pa := AllocPage(pagetable, a, ZeroPage(), PTE_R + PTE_U + xperm, sp');
        if !more {
          RanOut(|old(free)|, sp, |free1|, sp1, first, k, RoundUp(newsz) - first);
          FreshTables(old(mem), old(free), sp, mem1, range, free1, sp1, mem, free, sp', first, k, want);
          FreshFacts(old(mem), old(free), sp, mem, range, free, sp', first, k, want);
          ghost var mem2, free2 := mem, free;
          RoundUpExact(first);
          RoundUpExact(first + k);
          var _ := Uvmdealloc(pagetable, a, RoundUp(oldsz) * PGSIZE, sp');
          assert k == 0 ==> Pages(mem2, sp', first, k) == {};
          FreshUndone(old(mem), old(free), sp, mem2, range, free2, sp', mem, free, first, k, want);
          return 0, false, sp';
        }
        FreshNext(old(mem), old(free), sp, mem1, range, free1, sp1, mem, free, sp', first, k, want, pa);
        ExtendsTop(mem1, free1, sp1, mem, sp');
        PaidPage(|old(free)|, sp, |free1|, sp1, |free|, sp', first, k);
        k := k + 1;
        a := a + PGSIZE;
      }
      PageDone(oldsz, newsz, first, k);
      PaidSoFar(|old(free)|, sp, |free| + k, sp', first, k);
      FreshFacts(old(mem), old(free), sp, mem, range, free, sp', first, k, want);
      r := newsz;
    }

    /** Frees the table at `p` and all tables below it. No leaf mapping may be left: finding one
        would be a panic. */
    method Freewalk(pagetable: nat, ghost sp: Space, ghost p: Pos)
      requires Valid() && sp.Shape() && p in sp.at && pagetable == sp.at[p]
      requires Bare(mem, range, free, sp, p)
      modifies this
      ensures Valid() && mem.Keys == old(mem).Keys
      ensures ToSet(free) == ToSet(old(free)) + TablesUnder(sp, p)
      ensures forall x | x in mem && x !in TablesUnder(sp, p) :: mem[x] == old(mem)[x]
      decreases if p.Top? then 2 else if p.Mid? then 1 else 0
    {
      hide FreeList, Distinct, ToSet, Bare, TablesBefore, TablesUnder, Space.Shape, IsValid, IsLeaf, PTE2PA;
      BareSelf(mem, range, free, sp, p);
      for i := 0 to 512
        invariant Valid() && mem.Keys == old(mem).Keys
        invariant ToSet(free) == ToSet(old(free)) + TablesBefore(sp, p, i)
        invariant forall x | x in mem && x !in TablesBefore(sp, p, i) && x != pagetable :: mem[x] == old(mem)[x]
        invariant forall j | i <= j < 512 :: mem[pagetable][j] == old(mem)[pagetable][j]
      {
        var pte := mem[pagetable][i];
        BareEntry(old(mem), range, old(free), sp, p, i);
        if IsValid(pte) && !IsLeaf(pte) {
          BareChild(old(mem), range, old(free), sp, p, i, mem, free);
          Freewalk(PTE2PA(pte), sp, Child(p, i));
          SelfNotBefore(sp, p, i + 1);
          NotFreed(free, old(free), TablesBefore(sp, p, i + 1), pagetable);
          StillFreeList(mem, range, freelist, free, pagetable, i);
          mem := mem[pagetable := mem[pagetable][i := 0]];
        }
      }
      AllTables(sp, p);
      NotFreed(free, old(free), TablesBefore(sp, p, 512), pagetable);
      ghost var free1 := free;
      Kfree(pagetable);
      ToSetCons(pagetable, free1);
    }

    /** Frees the `sz` bytes of user memory, then the tables. Every page goes back, once. */
    method Uvmfree(pagetable: nat, sz: nat, ghost sp: Space)
      requires Valid() && Holds(sp) && Top in sp.at && pagetable == sp.at[Top]
      requires OnlyUser(mem, range, free, sp, RoundUp(sz))
      modifies this
      ensures Valid() && mem.Keys == old(mem).Keys
      ensures ToSet(free) == ToSet(old(free)) + Pages(old(mem), sp, 0, RoundUp(sz)) + sp.pos.Keys
      ensures forall x | x in mem && x !in sp.pos && x !in Pages(old(mem), sp, 0, RoundUp(sz)) :: mem[x] == old(mem)[x]
    {
      hide FreeList, Distinct, Lookup, ToSet, Tree;
      if sz > 0 {
        Uvmunmap(pagetable, 0, RoundUp(sz), true, sp);
      }
      EmptyIsBare(mem, range, free, sp);
      Freewalk(pagetable, sp, Top);
      AllUnderTop(sp);
    }

    /** Frees a process's page table and its user memory; the trampoline and trapframe pages are
        unmapped but not freed. */
    method ProcFreepagetable(pagetable: nat, sz: nat, ghost sp: Space)
      requires Valid() && Holds(sp) && Top in sp.at && pagetable == sp.at[Top]
      requires ProcessMap(mem, range, free, sp, RoundUp(sz))
      modifies this
      ensures Valid() && mem.Keys == old(mem).Keys
      ensures ToSet(free) == ToSet(old(free)) + Pages(old(mem), sp, 0, RoundUp(sz)) + sp.pos.Keys
      ensures forall x | x in mem && x !in sp.pos && x !in Pages(old(mem), sp, 0, RoundUp(sz)) :: mem[x] == old(mem)[x]
    {
      hide FreeList, Distinct, Lookup, ToSet, Tree;
      Uvmunmap(pagetable, TRAMPOLINE, 1, false, sp);
      Uvmunmap(pagetable, TRAPFRAME, 1, false, sp);
      ghost var mem1 := mem;
      PagesSame(old(mem), sp, mem, sp, 0, RoundUp(sz));
      SameFree(old(free), free, range, sp, old(mem), mem, RoundUp(sz));
      Uvmfree(pagetable, sz, sp);
    }

    /** An empty page table, or 0 if there is no page for it. */
    method Uvmcreate() returns (r: nat, ghost sp: Space)
      requires Valid()
      modifies this
      ensures Valid() && mem.Keys == old(mem).Keys
      ensures r == 0 <==> old(free) == []
      ensures r == 0 ==> mem == old(mem) && free == old(free)
      ensures r != 0 ==> Holds(sp) && sp == Root(r) && (forall v | 0 <= v < MAXVPN :: Lookup(mem, sp, v) == 0)
      ensures r != 0 ==> |free| == |old(free)| - 1
      ensures r != 0 ==> ToSet(free) + {r} == ToSet(old(free)) && forall x | x in mem && x != r :: mem[x] == old(mem)[x]
    {
      hide FreeList, Distinct;
      sp := Root(0);
      r := Kalloc();
      if r == 0 {
        return;
      }
      PopFree(old(mem), range, old(free), ZeroPage()) by { HeadOfFree(old(mem), range, old(freelist), old(free)); }
      mem := mem[r := ZeroPage()];
      assert mem == old(mem)[r := ZeroPage()];
      sp := Root(r);
      RootHeld(mem, range, free, r);
      ToSetCons(old(free)[0], free);
    }

    /** A page table for a process: nothing but the trampoline and the trapframe.  It takes three
        pages; if one lacks, every page taken is free again. */
    method ProcPagetable(trampoline: nat, trapframe: nat) returns (r: nat, ghost sp: Space)
      requires Valid() && trampoline % PGSIZE == 0 && trapframe % PGSIZE == 0
      modifies this
      ensures Valid() && mem.Keys == old(mem).Keys
      ensures r != 0 <==> |old(free)| >= 3
      ensures r != 0 ==> sp.at.Keys == {Top} + Path(MAXVPN - 1) && |free| == |old(free)| - 3
      ensures r == 0 ==> ToSet(free) == ToSet(old(free))
      ensures r != 0 ==> Holds(sp) && Top in sp.at && r == sp.at[Top] && ProcessMap(mem, range, free, sp, 0)
      ensures r != 0 ==> Lookup(mem, sp, MAXVPN - 1) == MakePte(trampoline, PTE_R + PTE_X)
      ensures r != 0 ==> Lookup(mem, sp, MAXVPN - 2) == MakePte(trapframe, PTE_R + PTE_W)
      ensures r != 0 ==> ToSet(free) + sp.pos.Keys == ToSet(old(free))
      ensures forall x | x in mem && x !in ToSet(old(free)) :: mem[x] == old(mem)[x]
    {
      hide FreeList, Distinct, Lookup, ToSet, Tree, MakePte, Held, Kept, SameMap;
      hide Paid, Path, Needed, Missing, Lacking;
      r, sp := Uvmcreate();
      if r == 0 {
        return;
      }
      ghost var mem0, free0, sp0 := mem, free, sp;
      PteNotZero(trampoline, PTE_R + PTE_X);
      TopOfRoot(r);
      var mapped;
      ghost var k;
      mapped, sp, k := Mappages(r, TRAMPOLINE, PGSIZE, trampoline, PTE_R + PTE_X, sp);
      KeptFacts(mem0, free0, sp0, mem, free, sp);
      if mapped < 0 {
        Uvmfree(r, 0, sp);
        return 0, sp;
      }
      ghost var free1, sp1 := free, sp;
      var ok;
      ok, sp := MapTrapframe(r, trapframe, sp);
      if !ok {
        r := 0;
      }
      TopIsThere(|free0|, sp0, |free1|, sp1);
      if ok {
        ThreePages(|free0|, r, |free1|, sp1, |free|, sp);
      }
    }

    /** The second half of `proc_pagetable`, with the trampoline mapped and nothing else. */
    method MapTrapframe(r: nat, trapframe: nat, ghost sp: Space) returns (ok: bool, ghost sp': Space)
      requires Valid() && Holds(sp) && Top in sp.at && r == sp.at[Top] && trapframe % PGSIZE == 0
      requires Lookup(mem, sp, MAXVPN - 1) != 0 && forall v | 0 <= v < MAXVPN - 1 :: Lookup(mem, sp, v) == 0
      modifies this
      ensures Valid() && mem.Keys == old(mem).Keys
      ensures ok <==> |Lacking(sp, MAXVPN - 2)| <= |old(free)|
      ensures ok ==> Paid(|old(free)|, sp, |free|, sp', Path(MAXVPN - 2))
      ensures ToSet(free) + (if ok then sp'.pos.Keys else {}) == ToSet(old(free)) + sp.pos.Keys
      ensures ok ==> Holds(sp') && Top in sp'.at && r == sp'.at[Top] && ProcessMap(mem, range, free, sp', 0)
      ensures ok ==> Lookup(mem, sp', MAXVPN - 1) == Lookup(old(mem), sp, MAXVPN - 1)
      ensures ok ==> Lookup(mem, sp', MAXVPN - 2) == MakePte(trapframe, PTE_R + PTE_W)
      ensures forall x | x in mem && x !in ToSet(old(free)) && x !in sp.pos :: mem[x] == old(mem)[x]
    {
      hide FreeList, Distinct, Lookup, ToSet, Tree, MakePte, Held, Kept, SameMap;
      hide Paid, Path, Needed, Missing, Lacking;
      PteNotZero(trapframe, PTE_R + PTE_W);
      assert TRAPFRAME / PGSIZE == MAXVPN - 2 && PagesOf(TRAPFRAME, PGSIZE) == 1;
      OnePage(sp, MAXVPN - 2);
      var mapped;
      ghost var k;
      mapped, sp', k := Mappages(r, TRAPFRAME, PGSIZE, trapframe, PTE_R + PTE_W, sp);
      KeptFacts(old(mem), old(free), sp, mem, free, sp');
      ok := mapped == 0;
      if mapped < 0 {
        Uvmunmap(r, TRAMPOLINE, 1, false, sp');
        Uvmfree(r, 0, sp');
      }
    }

    /** One turn of `uvmcopy`: a copy of the page that the original has at `va`. */
    method CopyPage(original: nat, copy: nat, va: nat, ghost spOld: Space, ghost sp: Space)
      returns (ok: bool, ghost sp': Space, ghost pa: nat)
      requires Valid() && Holds(spOld) && Top in spOld.at && original == spOld.at[Top]
      requires Holds(sp) && Top in sp.at && copy == sp.at[Top] && va < MAXVA && va % PGSIZE == 0
      requires Lookup(mem, spOld, va / PGSIZE) != 0 && PTE2PA(Lookup(mem, spOld, va / PGSIZE)) in mem
      requires Lookup(mem, sp, va / PGSIZE) == 0
      modifies this
      ensures Valid() && Holds(sp') && Extends(old(mem), old(free), sp, mem, sp')
      ensures ToSet(free) + sp'.pos.Keys + (if ok then {pa} else {}) == ToSet(old(free)) + sp.pos.Keys
      ensures ok ==> pa in old(free) && Freeable(range, free, sp', pa)
      ensures ok ==> pa in mem && mem[pa] == old(mem)[PTE2PA(Lookup(old(mem), spOld, va / PGSIZE))]
      ensures forall v | 0 <= v < MAXVPN :: Lookup(mem, sp', v)
                == if ok && v == va / PGSIZE then MakePte(pa, PteFlags(Lookup(old(mem), spOld, v)))
                   else Lookup(old(mem), sp, v)
      ensures ok <==> 1 + |Lacking(sp, va / PGSIZE)| <= |old(free)|
      ensures ok ==> Paid(|old(free)|, sp, |free| + 1, sp', Path(va / PGSIZE))
    {
      hide FreeList, Distinct, Tree, Held, Lookup, ToSet, Extends, Paid, Path, Lacking;
      var w, _ := Walk(original, va, false, spOld);
      PxOfPage(va);
      EntryFlags(mem, range, free, spOld, va / PGSIZE);
      var pte := mem[w.value.0][w.value.1];
      LeafPerm(pte);
      ok, sp', pa := AllocPage(copy, va, mem[PTE2PA(pte)], PteFlags(pte), sp);
    }

    /** Copies the first `sz` bytes of a process's memory to another page table: pages of its own
        with the same content and flags. If memory runs out, the copy is as it was, and the
        pages taken are free again. The original is unchanged. */
    method Uvmcopy(original: nat, copy: nat, sz: nat, ghost spOld: Space, ghost sp: Space)
      returns (r: int, ghost sp': Space)
      requires Valid() && Holds(spOld) && Holds(sp) && spOld.pos.Keys !! sp.pos.Keys
      requires Top in spOld.at && original == spOld.at[Top] && Top in sp.at && copy == sp.at[Top]
      requires RoundUp(sz) <= MAXVPN && Mapped(mem, spOld, 0, RoundUp(sz))
      requires forall v | 0 <= v < RoundUp(sz) :: Freeable(range, free, sp, PTE2PA(Lookup(mem, spOld, v)))
      requires forall v | 0 <= v < RoundUp(sz) :: Lookup(mem, sp, v) == 0
      modifies this
      ensures Valid() && Holds(sp') && Holds(spOld) && Extends(old(mem), old(free), sp, mem, sp')
      ensures SameMap(old(mem), spOld, mem, spOld)
      ensures r == 0 || r == -1
      ensures r == 0 <==> RoundUp(sz) + |Missing(sp, 0, RoundUp(sz))| <= |old(free)|
      ensures r == 0 ==>
        && Wanted(Originals(old(mem), spOld, RoundUp(sz)), RoundUp(sz))
        && Fresh(old(mem), old(free), sp, mem, range, free, sp', 0, RoundUp(sz),
                 Originals(old(mem), spOld, RoundUp(sz)))
      ensures r == -1 ==>
        SameMap(old(mem), sp, mem, sp') && ToSet(free) + sp'.pos.Keys == ToSet(old(free)) + sp.pos.Keys
    {
      hide FreeList, Distinct, Tree, Held, Lookup, ToSet, Mapped, Backed, Extends, Fresh, SameMap;
      hide Paid, Path, Needed, Missing, Lacking;
      sp' := sp;
      ghost var n, k := RoundUp(sz), 0;
      ghost var want := Originals(mem, spOld, n);
      OriginalsWanted(mem, spOld, n);
      FreshStart(mem, range, free, sp, 0, want);
      PaidNothing(|free|, sp, 0);
      var i := 0;
      while i < sz
        invariant i == k * PGSIZE && k <= n
        invariant Valid() && Holds(sp') && Top in sp'.at && copy == sp'.at[Top]
        invariant Fresh(old(mem), old(free), sp, mem, range, free, sp', 0, k, want)
        invariant Paid(|old(free)|, sp, |free| + k, sp', Needed(0, k))
        decreases sz - i
      {
        PageBelow(i, sz, k);
        FreshFacts(old(mem), old(free), sp, mem, range, free, sp', 0, k, want);
        FreshOther(old(mem), old(free), sp, mem, range, free, sp', 0, k, want, spOld);
        SourcePage(old(mem), old(freelist), old(free), sp, mem, range, free, sp', spOld, n, k);
        ghost var mem1, free1, sp1, page := mem, free, sp', 0;
        var more;
        more, sp', page := CopyPage(original, copy, i, spOld, sp');
        if !more {
          RanOut(|old(free)|, sp, |free1|, sp1, 0, k, n);
          FreshTables(old(mem), old(free), sp, mem1, range, free1, sp1, mem, free, sp', 0, k, want);
          FreshFacts(old(mem), old(free), sp, mem, range, free, sp', 0, k, want);
          ghost var mem2, free2 := mem, free;
          ExtendsTop(mem1, free1, sp1, mem, sp');
          assert i / PGSIZE == k;
          Uvmunmap(copy, 0, i / PGSIZE, true, sp');
          FreshUndone(old(mem), old(free), sp, mem2, range, free2, sp', mem, free, 0, k, want);
          OtherSpace(old(mem), old(free), sp, mem, range, free, sp', spOld);
          return -1, sp';
        }
        FreshNext(old(mem), old(free), sp, mem1, range, free1, sp1, mem, free, sp', 0, k, want, page);
        ExtendsTop(mem1, free1, sp1, mem, sp');
        PaidPage(|old(free)|, sp, |free1|, sp1, |free|, sp', 0, k);
        k := k + 1;
        i := i + PGSIZE;
      }
      PageDone(0, sz, 0, k);
      PaidSoFar(|old(free)|, sp, |free| + k, sp', 0, k);
      FreshFacts(old(mem), old(free), sp, mem, range, free, sp', 0, k, want);
      FreshOther(old(mem), old(free), sp, mem, range, free, sp', 0, k, want, spOld);
      r := 0;
    }
  }

  // How many pages the tables for a mapping take.

  /** The number of pages that `size` bytes from `va` on touch. */
  function PagesOf(va: nat, size: nat): (n: nat)
    requires size > 0
  {
    (va + size - 1) / PGSIZE - va / PGSIZE + 1
  }

  lemma StartPath(free: nat, sp: Space, vpn: nat)
    ensures Paid(free, sp, free, sp, PathTo(vpn, 2))
    ensures Path(vpn) == {Mid(vpn / 0x4_0000), LowOf(vpn)}
  {
  }

  lemma EndPath(free: nat, sp: Space, free': nat, sp': Space, vpn: nat)
    requires Paid(free, sp, free', sp', PathTo(vpn, 0))
    ensures Paid(free, sp, free', sp', Path(vpn)) && |Lacking(sp, vpn)| <= free
  {
    PaidFor(free, sp, free', sp', Path(vpn));
  }

  /** Where there are too few pages for one more, there are too few for more than that. */
  lemma Beyond(sp: Space, first: nat, n: nat, pages: nat, k: nat)
    requires k < n && |Missing(sp, first, k)| <= pages < |Missing(sp, first, k + 1)|
    ensures forall j | k < j <= n :: |Missing(sp, first, j)| > pages
    ensures |Missing(sp, first, 1)| > pages <==> k == 0
  {
    hide Missing;
    forall j | k < j <= n ensures |Missing(sp, first, j)| > pages {
      MissingMore(sp, first, k + 1, j);
    }
    if k > 0 {
      MissingMore(sp, first, 1, k);
    }
  }

  /** With a page mapped that was not, the map has changed. */
  lemma MapChanged(mem: Memory, sp: Space, mem': Memory, sp': Space, first: nat, k: nat, pa: nat, perm: nat)
    requires first + k < MAXVPN && pa % PGSIZE == 0 && perm < 1024 && Lookup(mem, sp, first) == 0
    requires forall v | 0 <= v < MAXVPN :: Lookup(mem', sp', v)
               == if first <= v < first + k then MakePte(pa + (v - first) * PGSIZE, perm) else Lookup(mem, sp, v)
    ensures SameMap(mem, sp, mem', sp') <==> k == 0
  {
    hide Lookup, MakePte;
    if k > 0 {
      PteNotZero(pa, perm);
      assert Lookup(mem', sp', first) == MakePte(pa + 0 * PGSIZE, perm);
    }
  }

  /** A machine of three pages, all of them tables after the first page has been looked up: mapping
      the last page of one leaf table and the first of the next fails, and leaves the former. */
  method PartialMapIsReachable(pa: nat, memory: Memory)
    returns (m: Machine, r: int, ghost mem0: Memory, ghost sp0: Space, ghost sp: Space)
    requires pa % PGSIZE == 0 && forall a | Range(PGSIZE, 4 * PGSIZE).Has(a) :: a in memory
    ensures m.Valid() && m.Holds(sp) && r == -1
    ensures Lookup(mem0, sp0, 511) == 0 && Lookup(m.mem, sp, 511) == MakePte(pa, PTE_R)
    ensures Lookup(mem0, sp0, 512) == 0 && Lookup(m.mem, sp, 512) == 0
  {
    hide FreeList, Distinct, Tree, Held, Lookup, Kept, SameMap, MakePte, ToSet;
    hide Paid, Path, Needed, Missing, Lacking;
    m := new Machine(Range(PGSIZE, 4 * PGSIZE), memory);
    var root;
    root, sp0 := m.Uvmcreate();
    ghost var free1, sp1, mem1 := m.free, sp0, m.mem;
    var w;
    w, sp0 := m.Walk(root, 0, true, sp0);
    FirstPath(root);
    GrownFacts(mem1, free1, sp1, m.mem, m.free, sp0);
    FirstIsThere(|free1|, sp1, |m.free|, sp0);
    mem0, sp := m.mem, sp0;
    ghost var k;
    r, sp, k := m.Mappages(root, 511 * PGSIZE, 2 * PGSIZE, pa, PTE_R, sp);
  }

  lemma GrownFacts(m0: Memory, f0: seq<nat>, s0: Space, m1: Memory, f1: seq<nat>, s1: Space)
    requires Grown(m0, f0, s0, m1, f1, s1)
    ensures SameMap(m0, s0, m1, s1) && forall p | p in s0.at :: p in s1.at && s1.at[p] == s0.at[p]
    ensures forall v | 0 <= v < MAXVPN :: Lookup(m1, s1, v) == Lookup(m0, s0, v)
  {
  }

  lemma FirstPath(r: nat)
    ensures |Lacking(Root(r), 0)| == 2
  {
    assert Lacking(Root(r), 0) == {Mid(0), Low(0, 0)};
  }

  /** Of two free pages, the tables for page 0 leave none; then page 511 lacks no table, and page
      512 one. */
  lemma FirstIsThere(free: nat, sp: Space, free': nat, sp': Space)
    requires Paid(free, sp, free', sp', Path(0)) && free == 2 && sp.at.Keys == {Top}
    ensures free' == 0 && |Missing(sp', 511, 1)| == 0 && |Missing(sp', 511, 2)| == 1
  {
    assert Path(0) == {Mid(0), Low(0, 0)} && Path(511) == {Mid(0), Low(0, 0)} && Path(512) == {Mid(0), Low(0, 1)};
    hide Path;
    PaidFor(free, sp, free', sp', Path(0));
    assert Path(0) - sp.at.Keys == {Mid(0), Low(0, 0)};
    OnePage(sp', 511);
    assert Lacking(sp', 511) == {};
    assert Needed(511, 2) == Needed(511, 1) + Path(512);
    assert Missing(sp', 511, 2) == {Low(0, 1)};
  }

  /** The flags and contents that a copy of the first `n` pages is to have. */
  function Originals(mem: Memory, sp: Space, n: nat): (want: seq<Want>)
    ensures |want| == n
  {
    seq(n, v requires 0 <= v < n =>
      var pte := Lookup(mem, sp, v);
      Want(PteFlags(pte), if PTE2PA(pte) in mem then mem[PTE2PA(pte)] else ZeroPage()))
  }

  lemma OriginalsWanted(mem: Memory, sp: Space, n: nat)
    ensures Wanted(Originals(mem, sp, n), n) && Wanted(Originals(mem, sp, n), 0)
  {
  }

  lemma LeafPerm(pte: nat)
    requires IsLeaf(pte)
    ensures PteFlags(pte) < 1024 && PteFlags(pte) / 2 % 8 != 0
  {
    PteBits(pte / 1024, pte % 1024);
  }

  /** What happens to one page table does not touch another one. */
  lemma OtherSpace(m0: Memory, f0: seq<nat>, s0: Space, m1: Memory, range: Range, f1: seq<nat>, s1: Space, other: Space)
    requires Held(m0, range, f0, other) && other.pos.Keys !! s0.pos.Keys
    requires Extends(m0, f0, s0, m1, s1) && ToSet(f1) <= ToSet(f0) + s0.pos.Keys
    ensures Held(m1, range, f1, other) && SameMap(m0, other, m1, other)
  {
    forall a | a in other.pos ensures a !in f1 && a !in s1.pos {
      assert a in f1 ==> a in ToSet(f1);
      assert a in f0 <==> a in ToSet(f0);
    }
    TreeFrame(m0, m1, other);
  }

  lemma FreshOther(m0: Memory, f0: seq<nat>, s0: Space, m1: Memory, range: Range, f1: seq<nat>, s1: Space,
                   first: nat, k: nat, want: seq<Want>, other: Space)
    requires Wanted(want, k) && Fresh(m0, f0, s0, m1, range, f1, s1, first, k, want)
    requires Held(m0, range, f0, other) && other.pos.Keys !! s0.pos.Keys
    ensures Held(m1, range, f1, other) && SameMap(m0, other, m1, other) && ToSet(f1) <= ToSet(f0) + s0.pos.Keys
  {
    OtherSpace(m0, f0, s0, m1, range, f1, s1, other);
  }

  /** The page to be copied next is still mapped in the original, and has its content. */
  lemma SourcePage(m0: Memory, head: nat, f0: seq<nat>, s0: Space, m1: Memory, range: Range, f1: seq<nat>, s1: Space,
                   other: Space, n: nat, k: nat)
    requires k < n <= MAXVPN && Mapped(m0, other, 0, n) && SameMap(m0, other, m1, other)
    requires Extends(m0, f0, s0, m1, s1) && FreeList(m0, range, head, f0)
    requires Freeable(range, f0, s0, PTE2PA(Lookup(m0, other, k)))
    ensures Lookup(m1, other, k) == Lookup(m0, other, k) != 0
    ensures PTE2PA(Lookup(m0, other, k)) in m0 && PTE2PA(Lookup(m0, other, k)) in m1
    ensures m1[PTE2PA(Lookup(m0, other, k))] == m0[PTE2PA(Lookup(m0, other, k))]
  {
    var pa := PTE2PA(Lookup(m0, other, k));
    assert pa in ToSet(f0) <==> pa in f0;
    assert pa !in s1.pos.Keys;
  }

  /** An empty page table lacks two tables for the trampoline, and the trapframe needs no others. */
  lemma TopOfRoot(r: nat)
    ensures TRAMPOLINE / PGSIZE == MAXVPN - 1 && PagesOf(TRAMPOLINE, PGSIZE) == 1
    ensures Needed(MAXVPN - 1, 1) == Path(MAXVPN - 1) && |Missing(Root(r), MAXVPN - 1, 1)| == 2
  {
    hide Path, Needed, Missing;
    OnePage(Root(r), MAXVPN - 1);
    RootLacks(r);
  }

  lemma RootLacks(r: nat)
    ensures |Path(MAXVPN - 1) - Root(r).at.Keys| == 2
  {
    hide Path;
    TopPath();
    assert Path(MAXVPN - 1) - Root(r).at.Keys == {Mid(255), Low(255, 511)};
  }

  lemma ThreePages(free0: nat, r: nat, free1: nat, sp1: Space, free2: nat, sp2: Space)
    requires Paid(free0, Root(r), free1, sp1, Path(MAXVPN - 1)) && Paid(free1, sp1, free2, sp2, Path(MAXVPN - 2))
    ensures sp2.at.Keys == {Top} + Path(MAXVPN - 1) && free2 == free0 - 2
  {
    hide Path, Paid, Needed, Missing;
    TopPath();
    RootLacks(r);
    PaidTwice(free0, Root(r), free1, sp1, free2, sp2, Path(MAXVPN - 1));
  }

  lemma TopPath()
    ensures Path(MAXVPN - 1) == Path(MAXVPN - 2) == {Mid(255), Low(255, 511)}
  {
  }

  lemma TopIsThere(free: nat, sp: Space, free': nat, sp': Space)
    requires Paid(free, sp, free', sp', Path(MAXVPN - 1))
    ensures Lacking(sp', MAXVPN - 2) == {}
  {
    hide Path;
    TopPath();
  }

  const TRAMPOLINE: nat := MAXVA - PGSIZE
  const TRAPFRAME: nat := TRAMPOLINE - PGSIZE

  /** Just the first `n` virtual pages are mapped, to pages of the process's own. */
  ghost predicate OnlyUser(mem: Memory, range: Range, free: seq<nat>, sp: Space, n: nat) {
    && n <= MAXVPN && Mapped(mem, sp, 0, n) && Backed(mem, range, free, sp, 0, n)
    && forall v | n <= v < MAXVPN :: Lookup(mem, sp, v) == 0
  }

  /** The same, and the trampoline and trapframe pages at the top. */
  ghost predicate ProcessMap(mem: Memory, range: Range, free: seq<nat>, sp: Space, n: nat) {
    && n <= MAXVPN - 2 && Mapped(mem, sp, 0, n) && Backed(mem, range, free, sp, 0, n)
    && Lookup(mem, sp, MAXVPN - 1) != 0 && Lookup(mem, sp, MAXVPN - 2) != 0
    && forall v | n <= v < MAXVPN - 2 :: Lookup(mem, sp, v) == 0
  }

  lemma PteNotZero(pa: nat, perm: nat)
    requires pa % PGSIZE == 0 && perm < 1024
    ensures MakePte(pa, perm) != 0
  {
    PteRoundTrip(pa, perm);
  }

  lemma KeptFacts(m0: Memory, f0: seq<nat>, s0: Space, m1: Memory, f1: seq<nat>, s1: Space)
    requires Kept(m0, f0, s0, m1, f1, s1)
    ensures m1.Keys == m0.Keys && ToSet(f1) + s1.pos.Keys == ToSet(f0) + s0.pos.Keys
    ensures forall p | p in s0.at :: p in s1.at && s1.at[p] == s0.at[p]
    ensures forall a | a in m0 && a !in s1.pos :: m1[a] == m0[a]
  {
  }

  /** The tree of an empty page table. */
  ghost function Root(pa: nat): Space {
    Space(map[Top := pa], map[pa := Top])
  }

  lemma HeadOfFree(mem: Memory, range: Range, head: nat, free: seq<nat>)
    requires FreeList(mem, range, head, free) && free != []
    ensures head == free[0]
  {
  }

  lemma RootHeld(mem: Memory, range: Range, free: seq<nat>, pa: nat)
    requires pa in mem && mem[pa] == ZeroPage() && range.Has(pa) && pa !in free
    ensures Held(mem, range, free, Root(pa))
    ensures forall v | 0 <= v < MAXVPN :: Lookup(mem, Root(pa), v) == 0
  {
    var sp := Root(pa);
    forall p, i | p in sp.at && !p.Low? && 0 <= i < 512 ensures EntryOk(mem, sp, p, i) {
    }
  }

  lemma SameFree(free: seq<nat>, free': seq<nat>, range: Range, sp: Space, mem: Memory, mem': Memory, n: nat)
    requires ToSet(free') == ToSet(free) && Backed(mem, range, free, sp, 0, n)
    requires forall v | 0 <= v < n :: Lookup(mem', sp, v) == Lookup(mem, sp, v)
    ensures Backed(mem', range, free', sp, 0, n)
  {
    forall v | 0 <= v < n ensures Freeable(range, free', sp, PTE2PA(Lookup(mem', sp, v))) {
      StillFreeable(range, free, sp, free', sp, PTE2PA(Lookup(mem, sp, v)));
    }
  }

  /** A tree that maps nothing has only empty leaf tables. */
  lemma EmptyIsBare(mem: Memory, range: Range, free: seq<nat>, sp: Space)
    requires Held(mem, range, free, sp) && forall v | 0 <= v < MAXVPN :: Lookup(mem, sp, v) == 0
    ensures sp.Shape() && Bare(mem, range, free, sp, Top)
  {
    forall q | q in sp.at ensures range.Has(sp.at[q]) && sp.at[q] in mem && sp.at[q] !in free {
      if q.Low? {
        assert LeafOk(mem, sp, q, 0);
      } else {
        assert EntryOk(mem, sp, q, 0);
      }
    }
    forall q, i | q in sp.at && q.Low? && 0 <= i < 512 ensures mem[sp.at[q]][i] == 0 {
      VpnOf(q.i2, q.i1, i);
      assert Lookup(mem, sp, q.i2 * 0x4_0000 + q.i1 * 512 + i) == 0;
    }
  }

  lemma VpnOf(i2: nat, i1: nat, i0: nat)
    requires i2 < 256 && i1 < 512 && i0 < 512
    ensures
      var v := i2 * 0x4_0000 + i1 * 512 + i0;
      v < MAXVPN && LowOf(v) == Low(i2, i1) && v % 512 == i0
  {
    var v := i2 * 0x4_0000 + i1 * 512 + i0;
    assert v == (i2 * 512 + i1) * 512 + i0;
    assert v / 512 == i2 * 512 + i1;
  }

  lemma AllUnderTop(sp: Space)
    requires sp.Shape()
    ensures TablesUnder(sp, Top) == sp.pos.Keys
  {
    forall x | x in sp.pos.Keys ensures x in TablesUnder(sp, Top) {
      assert sp.at[sp.pos[x]] == x;
    }
  }

  /** `q` is the table at `p` or one below it. */
  predicate Under(p: Pos, q: Pos) {
    p == q || p.Top? || (p.Mid? && q.Low? && q.i2 == p.i2)
  }

  function TablesUnder(sp: Space, p: Pos): set<nat> {
    set q | q in sp.at && Under(p, q) :: sp.at[q]
  }

  /** The tables below the first `i` entries of the table at `p`. */
  function TablesBefore(sp: Space, p: Pos, i: nat): set<nat> {
    set q | q in sp.at && Under(p, q) && q != p && (if p.Top? then q.i2 < i else q.i1 < i) :: sp.at[q]
  }

  /** The part of a tree from `p` down, in allocated pages, and without any leaf mapping. */
  ghost predicate Bare(mem: Memory, range: Range, free: seq<nat>, sp: Space, p: Pos) {
    && (forall q | q in sp.at && Under(p, q) :: range.Has(sp.at[q]) && sp.at[q] in mem && sp.at[q] !in free)
    && (forall q, i | q in sp.at && Under(p, q) && !q.Low? && 0 <= i < 512 :: EntryOk(mem, sp, q, i))
    && (forall q, i | q in sp.at && Under(p, q) && q.Low? && 0 <= i < 512 :: mem[sp.at[q]][i] == 0)
  }

  lemma BareSelf(mem: Memory, range: Range, free: seq<nat>, sp: Space, p: Pos)
    requires sp.Shape() && p in sp.at && Bare(mem, range, free, sp, p)
    ensures range.Has(sp.at[p]) && sp.at[p] in mem && sp.at[p] !in free
    ensures TablesBefore(sp, p, 0) == {} && !IsValid(0)
  {
    assert Under(p, p);
  }

  lemma SelfNotBefore(sp: Space, p: Pos, i: nat)
    requires sp.Shape() && p in sp.at
    ensures sp.at[p] !in TablesBefore(sp, p, i)
  {
  }

  lemma NotFreed(free: seq<nat>, before: seq<nat>, more: set<nat>, x: nat)
    requires ToSet(free) == ToSet(before) + more && x !in before && x !in more
    ensures x !in free
  {
    assert x in free ==> x in ToSet(free);
  }

  lemma StillFreeList(mem: Memory, range: Range, head: nat, free: seq<nat>, table: nat, i: nat)
    requires FreeList(mem, range, head, free) && table in mem && table !in free && i < 512
    ensures FreeList(mem[table := mem[table][i := 0]], range, head, free)
  {
    FreeInMemory(mem, range, head, free);
    FreeListFrame(mem, mem[table := mem[table][i := 0]], range, head, free);
  }

  /** A table's entry is 0, or points to the table below it. */
  lemma BareEntry(mem: Memory, range: Range, free: seq<nat>, sp: Space, p: Pos, i: nat)
    requires sp.Shape() && p in sp.at && i < 512 && Bare(mem, range, free, sp, p)
    ensures sp.at[p] in mem
    ensures
      if p.Low? || Child(p, i) !in sp.at then
        && mem[sp.at[p]][i] == 0
        && TablesBefore(sp, p, i + 1) == TablesBefore(sp, p, i)
      else
        && IsValid(mem[sp.at[p]][i]) && !IsLeaf(mem[sp.at[p]][i]) && PTE2PA(mem[sp.at[p]][i]) == sp.at[Child(p, i)]
        && TablesBefore(sp, p, i + 1) == TablesBefore(sp, p, i) + TablesUnder(sp, Child(p, i))
  {
    assert Under(p, p);
    if p.Low? {
      assert mem[sp.at[p]][i] == 0;
    } else {
      assert EntryOk(mem, sp, p, i);
      if Child(p, i) in sp.at {
        PteRoundTrip(sp.at[Child(p, i)], 0);
      }
    }
    BeforeNext(sp, p, i);
  }

  lemma BeforeNext(sp: Space, p: Pos, i: nat)
    requires sp.Shape() && p in sp.at && i < 512
    ensures TablesBefore(sp, p, i + 1)
         == TablesBefore(sp, p, i) + (if p.Low? || Child(p, i) !in sp.at then {} else TablesUnder(sp, Child(p, i)))
  {
    forall q | q in sp.at && Under(p, q) && q != p && !p.Low?
      ensures Under(Child(p, i), q) <==> (if p.Top? then q.i2 == i else q.i1 == i)
    {
    }
    forall x | x in TablesBefore(sp, p, i + 1) && x !in TablesBefore(sp, p, i)
      ensures !p.Low? && Child(p, i) in sp.at && x in TablesUnder(sp, Child(p, i))
    {
      var q := sp.pos[x];
      assert q in sp.at && sp.at[q] == x;
    }
  }

  /** The part of the tree below an entry that is still to come has not been touched. */
  lemma BareChild(mem: Memory, range: Range, free: seq<nat>, sp: Space, p: Pos, i: nat, mem': Memory, free': seq<nat>)
    requires sp.Shape() && p in sp.at && !p.Low? && i < 512 && Child(p, i) in sp.at && Bare(mem, range, free, sp, p)
    requires mem'.Keys == mem.Keys && ToSet(free') == ToSet(free) + TablesBefore(sp, p, i)
    requires forall x | x in mem && x !in TablesBefore(sp, p, i) && x != sp.at[p] :: mem'[x] == mem[x]
    ensures Bare(mem', range, free', sp, Child(p, i))
    ensures sp.at[p] !in TablesUnder(sp, Child(p, i))
  {
    var c := Child(p, i);
    forall q | q in sp.at && Under(c, q)
      ensures Under(p, q) && sp.at[q] !in TablesBefore(sp, p, i) && sp.at[q] != sp.at[p]
      ensures sp.at[q] in mem && mem'[sp.at[q]] == mem[sp.at[q]] && sp.at[q] !in free'
    {
      OnlyAt(sp, p, i, q);
      assert sp.at[q] in free' <==> sp.at[q] in ToSet(free');
    }
    forall q, j | q in sp.at && Under(c, q) && !q.Low? && 0 <= j < 512 ensures EntryOk(mem', sp, q, j) {
      assert EntryOk(mem, sp, q, j);
    }
  }

  lemma OnlyAt(sp: Space, p: Pos, i: nat, q: Pos)
    requires sp.Shape() && p in sp.at && !p.Low? && i < 512 && Child(p, i) in sp.at && q in sp.at
    requires Under(Child(p, i), q)
    ensures Under(p, q) && sp.at[q] !in TablesBefore(sp, p, i) && sp.at[q] != sp.at[p]
  {
    assert sp.pos[sp.at[q]] == q;
  }

  lemma AllTables(sp: Space, p: Pos)
    requires sp.Shape() && p in sp.at
    ensures TablesUnder(sp, p) == TablesBefore(sp, p, 512) + {sp.at[p]}
    ensures sp.at[p] !in TablesBefore(sp, p, 512)
  {
    forall x | x in TablesUnder(sp, p) && x != sp.at[p] ensures x in TablesBefore(sp, p, 512) {
      var q := sp.pos[x];
      assert q in sp.at && sp.at[q] == x && Under(p, q);
    }
    assert Under(p, p);
  }

  /** The number of the first page at or above an address: `PGROUNDUP(sz) / PGSIZE`. */
  function RoundUp(sz: nat): nat {
    (sz + PGSIZE - 1) / PGSIZE
  }

  lemma RoundUpExact(n: nat)
    ensures RoundUp(n * PGSIZE) == n
  {
  }

  lemma PageBelow(a: nat, newsz: nat, v: nat)
    requires a == v * PGSIZE && a < newsz
    ensures v < RoundUp(newsz) && a / PGSIZE == v
  {
  }

  lemma PageDone(oldsz: nat, newsz: nat, first: nat, k: nat)
    requires oldsz <= newsz && first == RoundUp(oldsz) && (first + k) * PGSIZE >= newsz
    requires k == 0 || first + k <= RoundUp(newsz)
    ensures k == RoundUp(newsz) - RoundUp(oldsz)
  {
  }

  /** What a virtual page is to be: its permissions and its content. */
  datatype Want = Want(perm: nat, page: Page)

  ghost predicate Wanted(want: seq<Want>, k: nat) {
    k <= |want| && forall i | 0 <= i < |want| :: want[i].perm < 1024
  }

  /** The first `k` virtual pages from `first` on have got pages of their own, as wanted, out of
      the free pages; no page is lost, and all else is as it was. */
  ghost predicate Fresh(mem: Memory, free: seq<nat>, sp: Space, mem': Memory, range: Range, free': seq<nat>, sp': Space,
                        first: nat, k: nat, want: seq<Want>)
    requires Wanted(want, k)
  {
    && Extends(mem, free, sp, mem', sp')
    && Backed(mem', range, free', sp', first, k)
    && (forall v | 0 <= v < MAXVPN && !(first <= v < first + k) :: Lookup(mem', sp', v) == Lookup(mem, sp, v))
    && (forall v | first <= v < first + k :: FreshPage(free, mem', sp', want, first, v))
    && ToSet(free') + sp'.pos.Keys + Pages(mem', sp', first, k) == ToSet(free) + sp.pos.Keys
  }

  ghost predicate FreshPage(free: seq<nat>, mem: Memory, sp: Space, want: seq<Want>, first: nat, v: nat)
    requires first <= v < first + |want| && want[v - first].perm < 1024
  {
    var pa, w := PTE2PA(Lookup(mem, sp, v)), want[v - first];
    Lookup(mem, sp, v) == MakePte(pa, w.perm) && Lookup(mem, sp, v) != 0 && pa in free && pa in mem && mem[pa] == w.page
  }

  lemma FreshStart(mem: Memory, range: Range, free: seq<nat>, sp: Space, first: nat, want: seq<Want>)
    requires Wanted(want, 0)
    ensures Fresh(mem, free, sp, mem, range, free, sp, first, 0, want)
  {
  }

  lemma FreshFacts(mem: Memory, free: seq<nat>, sp: Space, mem': Memory, range: Range, free': seq<nat>, sp': Space,
                   first: nat, k: nat, want: seq<Want>)
    requires Wanted(want, k) && Fresh(mem, free, sp, mem', range, free', sp', first, k, want)
    ensures Extends(mem, free, sp, mem', sp')
    ensures Mapped(mem', sp', first, k) && Backed(mem', range, free', sp', first, k)
    ensures forall v | 0 <= v < MAXVPN && !(first <= v < first + k) :: Lookup(mem', sp', v) == Lookup(mem, sp, v)
  {
    forall v | first <= v < first + k ensures Lookup(mem', sp', v) != 0 {
      assert FreshPage(free, mem', sp', want, first, v);
    }
  }

  lemma {:induction false} PagesSame(mem: Memory, sp: Space, mem': Memory, sp': Space, first: nat, n: nat)
    requires forall v | first <= v < first + n :: Lookup(mem', sp', v) == Lookup(mem, sp, v)
    ensures Pages(mem', sp', first, n) == Pages(mem, sp, first, n)
  {
    if n > 0 {
      PagesSame(mem, sp, mem', sp', first, n - 1);
    }
  }

  lemma ExtendsTrans(m0: Memory, f0: seq<nat>, s0: Space, m1: Memory, f1: seq<nat>, s1: Space, m2: Memory, s2: Space)
    requires Extends(m0, f0, s0, m1, s1) && Extends(m1, f1, s1, m2, s2)
    requires ToSet(f1) <= ToSet(f0) + s0.pos.Keys
    ensures Extends(m0, f0, s0, m2, s2)
  {
    forall x | x in f1 ensures x in f0 || x in s0.pos {
      assert x in ToSet(f1);
    }
  }

  /** Pages that are in use stay so while tables are added. */
  lemma StillFreeable(range: Range, f1: seq<nat>, s1: Space, f2: seq<nat>, s2: Space, pa: nat)
    requires Freeable(range, f1, s1, pa) && ToSet(f2) + s2.pos.Keys <= ToSet(f1) + s1.pos.Keys
    ensures Freeable(range, f2, s2, pa)
  {
    assert pa !in ToSet(f1) + s1.pos.Keys;
    assert pa !in ToSet(f2) + s2.pos.Keys;
    assert pa in f2 ==> pa in ToSet(f2);
  }

  /** What was fresh stays fresh while tables, and perhaps one further mapping, are added. */
  lemma StillFresh(m0: Memory, f0: seq<nat>, s0: Space, m1: Memory, range: Range, f1: seq<nat>, s1: Space,
                   m2: Memory, f2: seq<nat>, s2: Space, first: nat, k: nat, want: seq<Want>)
    requires Wanted(want, k) && Fresh(m0, f0, s0, m1, range, f1, s1, first, k, want)
    requires Extends(m1, f1, s1, m2, s2) && ToSet(f2) + s2.pos.Keys <= ToSet(f1) + s1.pos.Keys
    requires forall v | first <= v < first + k :: Lookup(m2, s2, v) == Lookup(m1, s1, v)
    ensures Extends(m0, f0, s0, m2, s2)
    ensures Backed(m2, range, f2, s2, first, k)
    ensures forall v | first <= v < first + k :: FreshPage(f0, m2, s2, want, first, v)
    ensures Pages(m2, s2, first, k) == Pages(m1, s1, first, k)
  {
    hide Lookup;
    ExtendsTrans(m0, f0, s0, m1, f1, s1, m2, s2);
    PagesSame(m1, s1, m2, s2, first, k);
    forall v | first <= v < first + k
      ensures FreshPage(f0, m2, s2, want, first, v) && Freeable(range, f2, s2, PTE2PA(Lookup(m2, s2, v)))
    {
      assert FreshPage(f0, m1, s1, want, first, v);
      StillFreeable(range, f1, s1, f2, s2, PTE2PA(Lookup(m1, s1, v)));
    }
  }

  lemma FreshTables(m0: Memory, f0: seq<nat>, s0: Space, m1: Memory, range: Range, f1: seq<nat>, s1: Space,
                    m2: Memory, f2: seq<nat>, s2: Space, first: nat, k: nat, want: seq<Want>)
    requires Wanted(want, k) && Fresh(m0, f0, s0, m1, range, f1, s1, first, k, want) && first + k <= MAXVPN
    requires Extends(m1, f1, s1, m2, s2) && ToSet(f2) + s2.pos.Keys == ToSet(f1) + s1.pos.Keys
    requires SameMap(m1, s1, m2, s2)
    ensures Fresh(m0, f0, s0, m2, range, f2, s2, first, k, want)
  {
    StillFresh(m0, f0, s0, m1, range, f1, s1, m2, f2, s2, first, k, want);
  }

  lemma FreshNext(m0: Memory, f0: seq<nat>, s0: Space, m1: Memory, range: Range, f1: seq<nat>, s1: Space,
                  m2: Memory, f2: seq<nat>, s2: Space, first: nat, k: nat, want: seq<Want>, pa: nat)
    requires Wanted(want, k) && Fresh(m0, f0, s0, m1, range, f1, s1, first, k, want) && first + k < MAXVPN
    requires Extends(m1, f1, s1, m2, s2) && ToSet(f2) + s2.pos.Keys + {pa} == ToSet(f1) + s1.pos.Keys
    requires k < |want| && pa in f1 && Freeable(range, f2, s2, pa) && pa in m2 && m2[pa] == want[k].page
    requires forall v | 0 <= v < MAXVPN ::
             Lookup(m2, s2, v) == if v == first + k then MakePte(pa, want[k].perm) else Lookup(m1, s1, v)
    ensures Fresh(m0, f0, s0, m2, range, f2, s2, first, k + 1, want)
  {
    hide Lookup;
    StillFresh(m0, f0, s0, m1, range, f1, s1, m2, f2, s2, first, k, want);
    PteRoundTrip(pa, want[k].perm);
    assert pa in ToSet(f1);
    assert pa in f0 && pa !in s0.pos;
    assert FreshPage(f0, m2, s2, want, first, first + k);
    forall v | first <= v < first + k ensures PTE2PA(Lookup(m2, s2, v)) != pa {
      assert Freeable(range, f1, s1, PTE2PA(Lookup(m1, s1, v)));
    }
  }

  lemma FreshUndone(m0: Memory, f0: seq<nat>, s0: Space, m1: Memory, range: Range, f1: seq<nat>, s1: Space,
                    m2: Memory, f2: seq<nat>, first: nat, k: nat, want: seq<Want>)
    requires Wanted(want, k) && Fresh(m0, f0, s0, m1, range, f1, s1, first, k, want)
    requires forall v | first <= v < first + k :: Lookup(m0, s0, v) == 0
    requires m2.Keys == m1.Keys && ToSet(f2) == ToSet(f1) + Pages(m1, s1, first, k)
    requires forall v | 0 <= v < MAXVPN :: Lookup(m2, s1, v) == if first <= v < first + k then 0 else Lookup(m1, s1, v)
    requires forall x | x in m1 && x !in s1.pos && x !in Pages(m1, s1, first, k) :: m2[x] == m1[x]
    ensures SameMap(m0, s0, m2, s1) && Extends(m0, f0, s0, m2, s1)
    ensures ToSet(f2) + s1.pos.Keys == ToSet(f0) + s0.pos.Keys
  {
    hide Lookup;
    PagesAre(m1, s1, first, k);
    forall x | x in Pages(m1, s1, first, k) ensures x in f0 {
      var v :| first <= v < first + k && PTE2PA(Lookup(m1, s1, v)) == x;
      assert FreshPage(f0, m1, s1, want, first, v);
    }
  }

  lemma ExtendsTop(mem: Memory, free: seq<nat>, sp: Space, mem': Memory, sp': Space)
    requires Extends(mem, free, sp, mem', sp')
    ensures forall p | p in sp.at :: p in sp'.at && sp'.at[p] == sp.at[p]
  {
  }

  /** Tables have been added, and nothing changed but tables and pages that were free. */
  ghost predicate Extends(mem: Memory, free: seq<nat>, sp: Space, mem': Memory, sp': Space) {
    && mem'.Keys == mem.Keys
    && sp.pos.Keys <= sp'.pos.Keys
    && (forall p | p in sp.at :: p in sp'.at && sp'.at[p] == sp.at[p])
    && sp'.pos.Keys <= sp.pos.Keys + ToSet(free)
    && (forall x | x in mem && x !in sp'.pos && x !in free :: mem'[x] == mem[x])
  }

  lemma ExtendsRefl(mem: Memory, free: seq<nat>, sp: Space)
    ensures Extends(mem, free, sp, mem, sp)
  {
  }

  /** Taking the first free page and filling it leaves the tree alone. */
  lemma TookPage(mem: Memory, range: Range, head: nat, free: seq<nat>, mem': Memory, head': nat, sp: Space,
                 content: Page)
    requires range.Valid() && free != [] && FreeList(mem, range, head, free) && Held(mem, range, free, sp)
    requires free[0] in mem && head' == mem[free[0]][0] && mem' == mem[free[0] := content]
    ensures FreeList(mem', range, head', free[1..]) && Held(mem', range, free[1..], sp)
    ensures SameMap(mem, sp, mem', sp) && Distinct(free) && free[0] !in sp.pos
  {
    PopFree(mem, range, free, content);
    TreeFrame(mem, mem', sp);
    forall a | a in sp.pos ensures a !in free[1..] {
      assert a !in free;
    }
  }

  /** A page taken before tables were added is neither free nor a table. */
  lemma TookAndGrew(mem: Memory, free: seq<nat>, sp: Space, mem1: Memory, free1: seq<nat>,
                    mem2: Memory, free2: seq<nat>, sp2: Space, range: Range, pa: nat, content: Page)
    requires free != [] && pa == free[0] && free1 == free[1..] && Distinct(free) && pa !in sp.pos && range.Has(pa)
    requires pa in mem && mem1 == mem[pa := content] && Kept(mem1, free1, sp, mem2, free2, sp2)
    ensures Freeable(range, free2, sp2, pa) && pa in mem2 && mem2[pa] == content
    ensures Extends(mem, free, sp, mem2, sp2)
    ensures ToSet(free2) + sp2.pos.Keys + {pa} == ToSet(free) + sp.pos.Keys
  {
    hide ToSet;
    TookApart(free, free1, free2, sp, sp2, pa);
    assert forall x | x in free1 :: x in free;
  }

  lemma TookApart(free: seq<nat>, free1: seq<nat>, free2: seq<nat>, sp: Space, sp2: Space, pa: nat)
    requires free != [] && pa == free[0] && free1 == free[1..] && Distinct(free) && pa !in sp.pos
    requires sp2.pos.Keys + ToSet(free2) == sp.pos.Keys + ToSet(free1)
    ensures pa !in free2 && pa !in sp2.pos && ToSet(free) == ToSet(free1) + {pa}
  {
    assert free == [pa] + free1;
    ToSetCons(pa, free1);
    assert pa !in sp.pos.Keys + ToSet(free1);
    assert pa !in sp2.pos.Keys + ToSet(free2);
    assert pa in free2 <==> pa in ToSet(free2);
  }

  lemma GaveBack(mem: Memory, free: seq<nat>, sp: Space, mem2: Memory, mem': Memory, free2: seq<nat>, sp2: Space,
                 pa: nat)
    requires Extends(mem, free, sp, mem2, sp2) && pa in free && pa in mem2 && pa in mem' && mem' == mem2[pa := mem'[pa]]
    requires ToSet(free2) + sp2.pos.Keys + {pa} == ToSet(free) + sp.pos.Keys
    ensures Extends(mem, free, sp, mem', sp2)
    ensures ToSet([pa] + free2) + sp2.pos.Keys == ToSet(free) + sp.pos.Keys
  {
    ToSetCons(pa, free2);
  }

  /** The virtual pages from `first` on are all mapped. */
  ghost predicate Mapped(mem: Memory, sp: Space, first: nat, n: nat) {
    forall v | first <= v < first + n :: Lookup(mem, sp, v) != 0
  }

  /** The physical pages that some virtual pages are mapped to. */
  function Pages(mem: Memory, sp: Space, first: nat, n: nat): (r: set<nat>) {
    if n == 0 then {} else Pages(mem, sp, first, n - 1) + {PTE2PA(Lookup(mem, sp, first + n - 1))}
  }

  /** They are mapped to as many different pages of the allocator. */
  ghost predicate Backed(mem: Memory, range: Range, free: seq<nat>, sp: Space, first: nat, n: nat) {
    && (forall v | first <= v < first + n :: Freeable(range, free, sp, PTE2PA(Lookup(mem, sp, v))))
    && (forall v, w | first <= v < w < first + n :: PTE2PA(Lookup(mem, sp, v)) != PTE2PA(Lookup(mem, sp, w)))
  }

  lemma {:induction false} PagesAre(mem: Memory, sp: Space, first: nat, n: nat)
    ensures forall x :: x in Pages(mem, sp, first, n)
              <==> exists v | first <= v < first + n :: PTE2PA(Lookup(mem, sp, v)) == x
  {
    if n > 0 {
      PagesAre(mem, sp, first, n - 1);
      assert PTE2PA(Lookup(mem, sp, first + n - 1)) in Pages(mem, sp, first, n);
    }
  }

  lemma ToSetCons<T>(x: T, xs: seq<T>)
    ensures ToSet([x] + xs) == ToSet(xs) + {x}
  {
  }

  /** The next page to be freed is not among those freed before it. */
  lemma NextFreeable(mem: Memory, range: Range, free: seq<nat>, free': seq<nat>, sp: Space, first: nat, n: nat, k: nat)
    requires Backed(mem, range, free, sp, first, n) && k < n
    requires ToSet(free') == ToSet(free) + Pages(mem, sp, first, k)
    ensures Freeable(range, free', sp, PTE2PA(Lookup(mem, sp, first + k)))
  {
    PagesAre(mem, sp, first, k);
    var pa := PTE2PA(Lookup(mem, sp, first + k));
    assert Freeable(range, free, sp, pa);
    assert pa in free' <==> pa in ToSet(free');
    assert pa in free <==> pa in ToSet(free);
  }

  /** A page of the allocator that is neither free nor a table of the tree. */
  predicate Freeable(range: Range, free: seq<nat>, sp: Space, pa: nat) {
    range.Has(pa) && pa !in free && pa !in sp.pos
  }

  lemma KeptTop(mem: Memory, free: seq<nat>, sp: Space, mem': Memory, free': seq<nat>, sp': Space)
    requires Kept(mem, free, sp, mem', free', sp')
    ensures forall p | p in sp.at :: p in sp'.at && sp'.at[p] == sp.at[p]
  {
  }

  /** A mapped page has its leaf table, and a valid leaf entry there. */
  lemma EntryFlags(mem: Memory, range: Range, free: seq<nat>, sp: Space, vpn: nat)
    requires Held(mem, range, free, sp) && Lookup(mem, sp, vpn) != 0
    ensures LowOf(vpn) in sp.at && sp.at[LowOf(vpn)] in mem && sp.at[LowOf(vpn)] in sp.pos
    ensures mem[sp.at[LowOf(vpn)]][vpn % 512] == Lookup(mem, sp, vpn)
    ensures IsValid(Lookup(mem, sp, vpn)) && IsLeaf(Lookup(mem, sp, vpn)) && PteFlags(Lookup(mem, sp, vpn)) != PTE_V
  {
    assert LeafOk(mem, sp, LowOf(vpn), vpn % 512);
    LeafFlags(Lookup(mem, sp, vpn));
  }

  lemma LeafFlags(pte: nat)
    requires IsLeaf(pte)
    ensures PteFlags(pte) != PTE_V
  {
    PteBits(pte / 1024, pte % 1024);
  }

  /** Freeing a page that is not a table leaves the tree alone. */
  lemma FreedOutside(mem: Memory, mem': Memory, range: Range, free: seq<nat>, sp: Space, pa: nat)
    requires Held(mem, range, free, sp) && pa !in sp.pos && pa in mem && pa in mem' && mem' == mem[pa := mem'[pa]]
    ensures Held(mem', range, [pa] + free, sp) && SameMap(mem, sp, mem', sp)
  {
    TreeFrame(mem, mem', sp);
  }

  lemma StoreLeafFrame(mem: Memory, sp: Space, table: nat, i: nat)
    requires table in mem && table in sp.pos && i < 512
    ensures forall x | x in mem && x !in sp.pos :: mem[table := mem[table][i := 0]][x] == mem[x]
  {
  }

  /** Writing the entry of a virtual page. */
  lemma StoreLeaf(mem: Memory, range: Range, head: nat, free: seq<nat>, sp: Space, vpn: nat, pte: nat)
    requires FreeList(mem, range, head, free) && Held(mem, range, free, sp)
    requires vpn < MAXVPN && LowOf(vpn) in sp.at
    requires pte != 0 ==> IsValid(pte) && IsLeaf(pte)
    ensures sp.at[LowOf(vpn)] in mem
    ensures
      var t := sp.at[LowOf(vpn)];
      var mem' := mem[t := mem[t][vpn % 512 := pte]];
      && FreeList(mem', range, head, free) && Held(mem', range, free, sp) && Kept(mem, free, sp, mem', free, sp)
      && forall v | 0 <= v < MAXVPN :: Lookup(mem', sp, v) == if v == vpn then pte else Lookup(mem, sp, v)
  {
    SetLeaf(mem, sp, vpn, pte);
    FreeInMemory(mem, range, head, free);
    var t := sp.at[LowOf(vpn)];
    var mem' := mem[t := mem[t][vpn % 512 := pte]];
    FreeListFrame(mem, mem', range, head, free);
    assert free == free[0..];
  }

  lemma ShapeOf(mem: Memory, range: Range, free: seq<nat>, sp: Space)
    requires Held(mem, range, free, sp)
    ensures sp.Shape()
  {
  }

  lemma FreeInMemory(mem: Memory, range: Range, head: nat, free: seq<nat>)
    requires FreeList(mem, range, head, free)
    ensures forall a | a in free :: a in mem && range.Has(a)
  {
    forall a | a in free ensures a in mem && range.Has(a) {
      var i :| 0 <= i < |free| && free[i] == a;
      assert LinkOk(mem, range, free, i);
    }
  }

  /** An entry is valid exactly if it points to a table of the tree. */
  lemma EntryFacts(mem: Memory, sp: Space, p: Pos, i: nat)
    requires Tree(mem, sp) && p in sp.at && !p.Low? && i < 512
    ensures sp.at[p] in mem
    ensures IsValid(mem[sp.at[p]][i]) <==> Child(p, i) in sp.at
    ensures Child(p, i) in sp.at ==> PTE2PA(mem[sp.at[p]][i]) == sp.at[Child(p, i)]
  {
    assert EntryOk(mem, sp, p, i);
    if Child(p, i) in sp.at {
      PteRoundTrip(sp.at[Child(p, i)], 0);
    }
  }

  /** Taking the first free page as a new table below entry `i` of the table at `p`. */
  lemma GrowTree(mem: Memory, range: Range, head: nat, free: seq<nat>, sp: Space, p: Pos, i: nat, pa: nat)
    requires range.Valid() && free != [] && FreeList(mem, range, head, free)
    requires pa == free[0] && pa in mem
    requires Held(mem, range, free, sp) && p in sp.at && !p.Low? && i < (if p.Top? then 256 else 512)
    requires Child(p, i) !in sp.at
    ensures sp.at[p] in mem && sp.at[p] != pa
    ensures
      var mem' := mem[pa := ZeroPage()][sp.at[p] := mem[sp.at[p]][i := MakePte(pa, 0)]];
      var sp' := sp.Add(Child(p, i), pa);
      && FreeList(mem', range, mem[pa][0], free[1..]) && Held(mem', range, free[1..], sp')
      && Grown(mem, free, sp, mem', free[1..], sp')
  {
    assert EntryOk(mem, sp, p, i);
    FreeInMemory(mem, range, head, free);
    var mem1 := mem[pa := ZeroPage()];
    TreeFrame(mem, mem1, sp);
    AddTable(mem1, sp, p, i, pa);
    PopFree(mem, range, free, ZeroPage());
    var mem' := mem1[sp.at[p] := mem[sp.at[p]][i := MakePte(pa, 0)]];
    assert pa !in free[1..] && forall a | a in free[1..] :: a in free;
    FreeListFrame(mem1, mem', range, mem[pa][0], free[1..]);
    AddedTable(mem, free, sp, mem', free[1..], sp.Add(Child(p, i), pa), p, i, pa);
  }

  lemma AddedTable(mem: Memory, free: seq<nat>, sp: Space, mem': Memory, free': seq<nat>, sp': Space, p: Pos, i: nat,
                   pa: nat)
    requires free != [] && pa == free[0] && free' == free[1..] && Distinct(free)
    requires p in sp.at && !p.Low? && i < 512 && Child(p, i) !in sp.at && pa !in sp.pos && sp.at[p] in sp.pos
    requires sp' == sp.Add(Child(p, i), pa) && SameMap(mem, sp, mem', sp')
    requires mem'.Keys == mem.Keys && forall a | a in mem && a != pa && a != sp.at[p] :: mem'[a] == mem[a]
    requires forall a | a in sp.pos :: a !in free
    ensures Grown(mem, free, sp, mem', free', sp')
  {
    assert sp'.pos.Keys == sp.pos.Keys + {pa};
    assert ToSet(free) == ToSet(free') + {pa} by {
      assert free == [pa] + free';
    }
  }
}
