/** Sv39 page tables (section 4.4 of the RISC-V Privileged Architecture, version 1.12) as
    `kernel/vm.c` builds them: trees of pages in physical memory, and the flat map from virtual
    pages to page-table entries that such a tree stands for. */
module PageTable {
  import opened Counting

  const PGSIZE: nat := 4096
  const PTE_V: nat := 1
  const PTE_R: nat := 2
  const PTE_W: nat := 4
  const PTE_X: nat := 8
  const PTE_U: nat := 16
  /** One beyond the highest virtual address: 2 to the 38. */
  const MAXVA: nat := 0x40_0000_0000
  /** Virtual pages below MAXVA. */
  const MAXVPN: nat := 0x400_0000

  /** The 512 words of a page. */
  type Page = p: seq<nat> | |p| == 512 witness seq(512, _ => 0)
  /** Physical memory, by page-aligned address. */
  type Memory = map<nat, Page>

  // Page-table entries.

  function PA2PTE(pa: nat): nat {
    pa / 4096 * 1024
  }

  function PTE2PA(pte: nat): nat {
    pte / 1024 * 4096
  }

  function PteFlags(pte: nat): nat {
    pte % 1024
  }

  predicate IsValid(pte: nat) {
    pte % 2 == 1
  }

  /** Some of R, W and X are set: the entry maps a page and is not a pointer to a lower table. */
  predicate IsLeaf(pte: nat) {
    pte / 2 % 8 != 0
  }

  /** `PA2PTE(pa) | perm | PTE_V`. */
  function MakePte(pa: nat, perm: nat): nat
    requires perm < 1024
  {
    PA2PTE(pa) + (if perm % 2 == 1 then perm else perm + 1)
  }

  /** An entry gives back the page and the flags it was made of. */
  lemma PteRoundTrip(pa: nat, perm: nat)
    requires pa % PGSIZE == 0 && perm < 1024
    ensures PTE2PA(MakePte(pa, perm)) == pa
    ensures IsValid(MakePte(pa, perm))
    ensures PteFlags(MakePte(pa, perm)) == if perm % 2 == 1 then perm else perm + 1
    ensures IsLeaf(MakePte(pa, perm)) <==> perm / 2 % 8 != 0
  {
    var f := if perm % 2 == 1 then perm else perm + 1;
    PteFields(pa / 4096, f);
    PteBits(pa / 4096, f);
    assert f / 2 == perm / 2;
  }

  lemma PteFields(q: nat, f: nat)
    requires f < 1024
    ensures (q * 1024 + f) / 1024 == q && (q * 1024 + f) % 1024 == f
  {
  }

  lemma PteBits(q: nat, f: nat)
    ensures (q * 1024 + f) % 2 == f % 2
    ensures (q * 1024 + f) / 2 % 8 == f / 2 % 8
  {
    Halve(q * 512, f);
    DropEights(q * 64, f / 2);
  }

  lemma Halve(h: nat, f: nat)
    ensures (2 * h + f) % 2 == f % 2 && (2 * h + f) / 2 == h + f / 2
  {
  }

  lemma DropEights(e: nat, g: nat)
    ensures (8 * e + g) % 8 == g % 8
  {
  }

  // Indices.

  /** `PX(level, va)`. */
  function Px(level: nat, va: nat): (i: nat)
    requires level <= 2
    ensures i < 512
  {
    va / (if level == 0 then 0x1000 else if level == 1 then 0x20_0000 else 0x4000_0000) % 512
  }

  /** The three indices are those of the page number, and tell virtual pages apart. */
  lemma PxOfPage(va: nat)
    requires va < MAXVA
    ensures va / PGSIZE < MAXVPN && Px(2, va) < 256
    ensures va / PGSIZE == Px(2, va) * 0x4_0000 + Px(1, va) * 512 + Px(0, va)
  {
    var n := va / 4096;
    assert va / 0x20_0000 == n / 512;
    assert va / 0x4000_0000 == n / 0x4_0000;
    assert n / 0x4_0000 == n / 512 / 512;
  }

  /** The place of a table in the tree. */
  datatype Pos = Top | Mid(i2: nat) | Low(i2: nat, i1: nat)

  function Child(p: Pos, i: nat): Pos
    requires !p.Low?
  {
    if p.Top? then Mid(i) else Low(p.i2, i)
  }

  /** The leaf table that serves a virtual page. */
  function LowOf(vpn: nat): Pos {
    Low(vpn / 0x4_0000, vpn / 512 % 512)
  }

  /** The tables on the way to a virtual page, below the root. */
  function Path(vpn: nat): (r: set<Pos>) {
    {Mid(vpn / 0x4_0000), LowOf(vpn)}
  }

  /** The tables on the way to the `n` virtual pages from `first` on. */
  function Needed(first: nat, n: nat): (r: set<Pos>) {
    if n == 0 then {} else Needed(first, n - 1) + Path(first + n - 1)
  }

  lemma LowOfPage(va: nat)
    requires va < MAXVA
    ensures LowOf(va / PGSIZE) == Low(Px(2, va), Px(1, va)) && va / PGSIZE % 512 == Px(0, va)
  {
    PxOfPage(va);
    var n := va / 4096;
    assert n / 512 == Px(2, va) * 512 + Px(1, va);
  }

  /** Two pages served by the same entry of the same leaf table are the same page. */
  lemma VpnInjective(a: nat, b: nat)
    requires LowOf(a) == LowOf(b) && a % 512 == b % 512
    ensures a == b
  {
    assert a / 0x4_0000 == a / 512 / 512;
    assert b / 0x4_0000 == b / 512 / 512;
  }

  /** A tree: where each of its tables is in memory, and which table each such page is. */
  datatype Space = Space(at: map<Pos, nat>, pos: map<nat, Pos>) {

    ghost predicate Shape() {
      && Top in at
      && (forall p | p in at :: at[p] in pos && pos[at[p]] == p && at[p] % PGSIZE == 0)
      && (forall a | a in pos :: pos[a] in at && at[pos[a]] == a)
      && (forall p | p in at :: (p.Mid? ==> p.i2 < 256) && (p.Low? ==> p.i2 < 256 && p.i1 < 512 && Mid(p.i2) in at))
    }

    function Add(p: Pos, pa: nat): Space {
      Space(at[p := pa], pos[pa := p])
    }
  }

  /** Those of the tables on the way to the `n` virtual pages from `first` on that a tree lacks. */
  function Missing(sp: Space, first: nat, n: nat): (r: set<Pos>) {
    Needed(first, n) - sp.at.Keys
  }

  /** The same for one virtual page. */
  function Lacking(sp: Space, vpn: nat): (r: set<Pos>) {
    Path(vpn) - sp.at.Keys
  }

  lemma {:induction false} MissingMore(sp: Space, first: nat, j: nat, n: nat)
    requires j <= n
    ensures Missing(sp, first, j) <= Missing(sp, first, n)
    ensures |Missing(sp, first, j)| <= |Missing(sp, first, n)|
    decreases n - j
  {
    hide Path;
    if j < n {
      MissingMore(sp, first, j + 1, n);
    }
    SubsetSize(Missing(sp, first, j), Missing(sp, first, n));
  }

  /** A tree has got just the given tables, out of as many of the free pages. */
  ghost predicate Paid(free: nat, sp: Space, free': nat, sp': Space, need: set<Pos>) {
    free' + |sp'.at| == free + |sp.at| && sp'.at.Keys == sp.at.Keys + need
  }

  lemma PaidFor(free: nat, sp: Space, free': nat, sp': Space, need: set<Pos>)
    requires Paid(free, sp, free', sp', need)
    ensures free == free' + |need - sp.at.Keys|
  {
    UnionSize(sp.at.Keys, need);
    assert |sp'.at| == |sp'.at.Keys| && |sp.at| == |sp.at.Keys|;
  }

  /** Pages taken for other ends do not count. */
  lemma PaidMore(free: nat, sp: Space, free': nat, sp': Space, need: set<Pos>, m: nat)
    requires Paid(free, sp, free', sp', need)
    ensures Paid(free + m, sp, free' + m, sp', need)
  {
  }

  lemma PaidTwice(free: nat, sp: Space, free1: nat, sp1: Space, free2: nat, sp2: Space, need: set<Pos>)
    requires Paid(free, sp, free1, sp1, need) && Paid(free1, sp1, free2, sp2, need)
    ensures sp2.at.Keys == sp.at.Keys + need && free2 == free - |need - sp.at.Keys|
  {
    PaidFor(free, sp, free1, sp1, need);
    PaidFor(free1, sp1, free2, sp2, need);
    assert need - sp1.at.Keys == {};
  }

  lemma PaidNothing(free: nat, sp: Space, first: nat)
    ensures Paid(free, sp, free, sp, Needed(first, 0))
  {
  }

  /** The tables for one page after those for the `k` pages before it. */
  lemma PaidNext(free: nat, sp: Space, free1: nat, sp1: Space, free2: nat, sp2: Space, first: nat, k: nat)
    requires Paid(free, sp, free1, sp1, Needed(first, k)) && Paid(free1, sp1, free2, sp2, Path(first + k))
    ensures Paid(free, sp, free2, sp2, Needed(first, k + 1))
  {
    hide Path;
  }

  /** The same, where every page takes one page more, for itself. */
  lemma PaidPage(free: nat, sp: Space, free1: nat, sp1: Space, free2: nat, sp2: Space, first: nat, k: nat)
    requires Paid(free, sp, free1 + k, sp1, Needed(first, k)) && Paid(free1, sp1, free2 + 1, sp2, Path(first + k))
    ensures Paid(free, sp, free2 + k + 1, sp2, Needed(first, k + 1))
  {
    hide Path, Needed;
    PaidNext(free, sp, free1 + k, sp1, free2 + k + 1, sp2, first, k);
  }

  /** What is missing for one page more, and how many free pages are left for it. */
  lemma PaidSoFar(free: nat, sp: Space, free': nat, sp': Space, first: nat, k: nat)
    requires Paid(free, sp, free', sp', Needed(first, k))
    ensures free == free' + |Missing(sp, first, k)|
    ensures |Missing(sp, first, k + 1)| == |Missing(sp, first, k)| + |Lacking(sp', first + k)|
  {
    hide Path;
    PaidFor(free, sp, free', sp', Needed(first, k));
    DifferenceSize(sp.at.Keys, Needed(first, k), Path(first + k));
  }

  /** If every page is to be backed by a page of its own as well, and there is none for the next
      one or for its tables, there were too few for all of them. */
  lemma RanOut(free: nat, sp: Space, free': nat, sp': Space, first: nat, k: nat, n: nat)
    requires Paid(free, sp, free' + k, sp', Needed(first, k)) && k < n && free' < 1 + |Lacking(sp', first + k)|
    ensures free < n + |Missing(sp, first, n)|
  {
    hide Paid, Lacking, Missing, Needed;
    PaidSoFar(free, sp, free' + k, sp', first, k);
    MissingMore(sp, first, k + 1, n);
  }

  lemma OnePage(sp: Space, vpn: nat)
    ensures Needed(vpn, 1) == Path(vpn) && Missing(sp, vpn, 1) == Lacking(sp, vpn)
  {
    hide Path;
    assert Needed(vpn, 1) == Needed(vpn, 0) + Path(vpn);
  }

  /** Those of the tables on the way to a virtual page that lie above the given level. */
  function PathTo(vpn: nat, level: nat): (r: set<Pos>) {
    if level >= 2 then {} else if level == 1 then {Mid(vpn / 0x4_0000)} else Path(vpn)
  }

  lemma PathNext(free: nat, sp: Space, free1: nat, sp1: Space, free2: nat, sp2: Space, vpn: nat, level: nat)
    requires 0 < level <= 2 && Paid(free, sp, free1, sp1, PathTo(vpn, level))
    requires Paid(free1, sp1, free2, sp2, {if level == 2 then Mid(vpn / 0x4_0000) else LowOf(vpn)})
    ensures Paid(free, sp, free2, sp2, PathTo(vpn, level - 1))
  {
    var m, l := Mid(vpn / 0x4_0000), LowOf(vpn);
    assert sp2.at.Keys == sp.at.Keys + (if level == 2 then {m} else {m, l});
  }

  lemma ShortOf(keys: set<Pos>, some: set<Pos>, all: set<Pos>, p: Pos)
    requires some <= all && p in all && p !in keys && p !in some
    ensures |some - keys| < |all - keys|
  {
    SubsetSize(some - keys + {p}, all - keys);
  }

  /** A tree that lacks a table for a page, with no free page left, had too few pages. */
  lemma Short(free: nat, sp: Space, sp': Space, vpn: nat, level: nat, p: Pos)
    requires Paid(free, sp, 0, sp', PathTo(vpn, level)) && p in Path(vpn) && p !in sp'.at
    ensures |Lacking(sp, vpn)| > free
  {
    ShortOf(sp.at.Keys, PathTo(vpn, level), Path(vpn), p);
    PaidFor(free, sp, 0, sp', PathTo(vpn, level));
  }

  /** An entry of an upper table points to the table below it, if there is one, and is 0 if not. */
  ghost predicate EntryOk(mem: Memory, sp: Space, p: Pos, i: nat)
    requires p in sp.at && !p.Low? && i < 512
  {
    && sp.at[p] in mem
    && mem[sp.at[p]][i] == if Child(p, i) in sp.at then MakePte(sp.at[Child(p, i)], 0) else 0
  }

  /** The entries of leaf tables are 0 or map a page. */
  ghost predicate LeafOk(mem: Memory, sp: Space, p: Pos, i: nat)
    requires p in sp.at && p.Low? && i < 512
  {
    && sp.at[p] in mem
    && (mem[sp.at[p]][i] != 0 ==> IsValid(mem[sp.at[p]][i]) && IsLeaf(mem[sp.at[p]][i]))
  }

  ghost predicate Tree(mem: Memory, sp: Space) {
    && sp.Shape()
    && (forall p, i | p in sp.at && !p.Low? && 0 <= i < 512 :: EntryOk(mem, sp, p, i))
    && (forall p, i | p in sp.at && p.Low? && 0 <= i < 512 :: LeafOk(mem, sp, p, i))
  }

  /** The flat map that a tree stands for: the entry for a virtual page, or 0. */
  function Lookup(mem: Memory, sp: Space, vpn: nat): nat {
    if LowOf(vpn) in sp.at && sp.at[LowOf(vpn)] in mem then mem[sp.at[LowOf(vpn)]][vpn % 512] else 0
  }

  /** The two trees stand for the same map. */
  ghost predicate SameMap(mem: Memory, sp: Space, mem': Memory, sp': Space) {
    forall v | 0 <= v < MAXVPN :: Lookup(mem', sp', v) == Lookup(mem, sp, v)
  }

  /** Memory outside the tree does not matter. */
  lemma TreeFrame(mem: Memory, mem': Memory, sp: Space)
    requires Tree(mem, sp)
    requires forall a | a in sp.pos && a in mem :: a in mem' && mem'[a] == mem[a]
    ensures Tree(mem', sp) && SameMap(mem, sp, mem', sp)
  {
    forall p, i | p in sp.at && !p.Low? && 0 <= i < 512 ensures EntryOk(mem', sp, p, i) {
      assert EntryOk(mem, sp, p, i);
    }
    forall p, i | p in sp.at && p.Low? && 0 <= i < 512 ensures LeafOk(mem', sp, p, i) {
      assert LeafOk(mem, sp, p, i);
    }
    forall v | 0 <= v < MAXVPN ensures Lookup(mem', sp, v) == Lookup(mem, sp, v) {
      if LowOf(v) in sp.at {
        assert LeafOk(mem, sp, LowOf(v), 0);
      }
    }
  }

  /** Writing one entry of a leaf table changes the map at one virtual page. */
  lemma SetLeaf(mem: Memory, sp: Space, vpn: nat, pte: nat)
    requires Tree(mem, sp) && vpn < MAXVPN && LowOf(vpn) in sp.at
    requires pte != 0 ==> IsValid(pte) && IsLeaf(pte)
    ensures sp.at[LowOf(vpn)] in mem
    ensures
      var t := sp.at[LowOf(vpn)];
      var mem' := mem[t := mem[t][vpn % 512 := pte]];
      Tree(mem', sp) && forall v | 0 <= v < MAXVPN ::
          Lookup(mem', sp, v) == if v == vpn then pte else Lookup(mem, sp, v)
  {
    var low := LowOf(vpn);
    var t := sp.at[low];
    assert LeafOk(mem, sp, low, 0);
    var mem' := mem[t := mem[t][vpn % 512 := pte]];
    forall p, i | p in sp.at && !p.Low? && 0 <= i < 512 ensures EntryOk(mem', sp, p, i) {
      assert EntryOk(mem, sp, p, i);
    }
    forall p, i | p in sp.at && p.Low? && 0 <= i < 512 ensures LeafOk(mem', sp, p, i) {
      assert LeafOk(mem, sp, p, i);
    }
    forall v | 0 <= v < MAXVPN ensures Lookup(mem', sp, v) == if v == vpn then pte else Lookup(mem, sp, v) {
      if LowOf(v) == low && v % 512 == vpn % 512 {
        VpnInjective(v, vpn);
      }
    }
  }

  /** Hanging a zeroed page into an upper table, where there was none, leaves the map as it was. */
  lemma AddTable(mem: Memory, sp: Space, p: Pos, i: nat, pa: nat)
    requires Tree(mem, sp) && p in sp.at && !p.Low? && i < (if p.Top? then 256 else 512) && Child(p, i) !in sp.at
    requires pa !in sp.pos && pa % PGSIZE == 0 && pa in mem && mem[pa] == seq(512, _ => 0)
    ensures sp.at[p] in mem
    ensures
      var mem' := mem[sp.at[p] := mem[sp.at[p]][i := MakePte(pa, 0)]];
      var sp' := sp.Add(Child(p, i), pa);
      Tree(mem', sp') && SameMap(mem, sp, mem', sp')
  {
    assert EntryOk(mem, sp, p, i);
    var c := Child(p, i);
    var mem' := mem[sp.at[p] := mem[sp.at[p]][i := MakePte(pa, 0)]];
    var sp' := sp.Add(c, pa);
    forall q, j | q in sp'.at && !q.Low? && 0 <= j < 512 ensures EntryOk(mem', sp', q, j) {
      if q == c {
        assert Child(q, j) !in sp.at;
      } else {
        assert EntryOk(mem, sp, q, j);
        assert Child(q, j) == c ==> q == p && j == i;
      }
    }
    forall q, j | q in sp'.at && q.Low? && 0 <= j < 512 ensures LeafOk(mem', sp', q, j) {
      if q != c {
        assert LeafOk(mem, sp, q, j);
      }
    }
    forall v | 0 <= v < MAXVPN ensures Lookup(mem', sp', v) == Lookup(mem, sp, v) {
      if LowOf(v) in sp.at {
        assert LeafOk(mem, sp, LowOf(v), 0);
      }
    }
  }
}
