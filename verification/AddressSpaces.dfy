/** The address spaces of all processes beside each other: `allocproc`, `fork`, `growproc` and
    `freeproc` of `kernel/proc.c` as far as they take and give back memory. */
module AddressSpaces {
  import opened Counting
  import opened PageTable
  import opened Vm

  /** What a process has of memory: its page table, its trapframe page, and `sz` bytes from 0 on.  The
      trampoline is the kernel's, and the same for all. */
  datatype User = User(sp: Space, trapframe: nat, trampoline: nat, sz: nat)

  /** The tables, the user pages and the trapframe page. */
  ghost function Footprint(mem: Memory, u: User): set<nat> {
    u.sp.pos.Keys + Pages(mem, u.sp, 0, RoundUp(u.sz)) + {u.trapframe}
  }

  /** What the process sees: flags and content of each of its pages. */
  ghost function Image(mem: Memory, u: User): (r: seq<Want>)
    ensures |r| == RoundUp(u.sz)
  {
    Originals(mem, u.sp, RoundUp(u.sz))
  }

  /** The registers saved in its trapframe. */
  ghost function Saved(mem: Memory, u: User): Page {
    if u.trapframe in mem then mem[u.trapframe] else ZeroPage()
  }

  /** The page table maps the user pages, the trapframe, the trampoline, and nothing else. */
  ghost predicate UserOk(mem: Memory, range: Range, free: seq<nat>, u: User) {
    && Held(mem, range, free, u.sp) && Top in u.sp.at
    && ProcessMap(mem, range, free, u.sp, RoundUp(u.sz))
    && Freeable(range, free, u.sp, u.trapframe) && u.trapframe !in Pages(mem, u.sp, 0, RoundUp(u.sz))
    && Lookup(mem, u.sp, MAXVPN - 2) == MakePte(u.trapframe, PTE_R + PTE_W)
    && Lookup(mem, u.sp, MAXVPN - 1) == MakePte(u.trampoline, PTE_R + PTE_X)
  }

  ghost function Part(mem: Memory, users: map<nat, User>, p: nat): set<nat> {
    if p in users then Footprint(mem, users[p]) else {}
  }

  ghost predicate Apart(mem: Memory, users: map<nat, User>, p: nat, q: nat) {
    p != q ==> Part(mem, users, p) !! Part(mem, users, q)
  }

  ghost predicate Accounted(mem: Memory, users: map<nat, User>, free: seq<nat>, rest: set<nat>, a: nat) {
    a in free || a in rest || exists p :: p in users && a in Part(mem, users, p)
  }

  /** Every page of the allocator is free, or belongs to just one process, or is one of the kernel's
      own, `rest`. */
  ghost predicate World(mem: Memory, range: Range, free: seq<nat>, users: map<nat, User>, rest: set<nat>) {
    && (forall p | p in users :: UserOk(mem, range, free, users[p]))
    && (forall p | p in users :: Part(mem, users, p) !! rest)
    && (forall p, q :: Apart(mem, users, p, q))
    && (forall a | a in free :: a !in rest)
    && (forall a | range.Has(a) :: a in mem)
    && (forall a | range.Has(a) :: Accounted(mem, users, free, rest, a))
  }

  lemma InPages(mem: Memory, sp: Space, first: nat, n: nat, v: nat)
    requires first <= v < first + n
    ensures PTE2PA(Lookup(mem, sp, v)) in Pages(mem, sp, first, n)
  {
    PagesAre(mem, sp, first, n);
  }

  /** All that a process has is in use. */
  lemma FootprintInUse(mem: Memory, range: Range, free: seq<nat>, u: User)
    requires UserOk(mem, range, free, u)
    ensures forall a | a in Footprint(mem, u) :: range.Has(a) && a !in free
  {
    hide Tree, Lookup;
    PagesAre(mem, u.sp, 0, RoundUp(u.sz));
    forall a | a in Pages(mem, u.sp, 0, RoundUp(u.sz)) ensures range.Has(a) && a !in free {
      var v :| 0 <= v < RoundUp(u.sz) && PTE2PA(Lookup(mem, u.sp, v)) == a;
      assert Freeable(range, free, u.sp, PTE2PA(Lookup(mem, u.sp, v)));
    }
  }

  /** A process is not affected by what happens outside of its footprint, or to the saved registers in
      its trapframe. */
  lemma UserKept(m0: Memory, range: Range, f0: seq<nat>, m1: Memory, f1: seq<nat>, u: User)
    requires UserOk(m0, range, f0, u)
    requires forall a | a in Footprint(m0, u) :: a !in f1 && a in m0 && a in m1
    requires forall a | a in Footprint(m0, u) && a != u.trapframe :: m1[a] == m0[a]
    ensures UserOk(m1, range, f1, u) && Footprint(m1, u) == Footprint(m0, u) && Image(m1, u) == Image(m0, u)
  {
    hide Lookup, Tree;
    var n := RoundUp(u.sz);
    assert forall a | a in u.sp.pos :: a in Footprint(m0, u);
    TreeFrame(m0, m1, u.sp);
    PagesSame(m0, u.sp, m1, u.sp, 0, n);
    forall v | 0 <= v < n
      ensures Freeable(range, f1, u.sp, PTE2PA(Lookup(m1, u.sp, v)))
      ensures Originals(m1, u.sp, n)[v] == Originals(m0, u.sp, n)[v]
    {
      InPages(m0, u.sp, 0, n, v);
      assert PTE2PA(Lookup(m0, u.sp, v)) in Footprint(m0, u);
      assert Freeable(range, f0, u.sp, PTE2PA(Lookup(m0, u.sp, v)));
    }
  }

  /** Pages have moved between a process and the free ones. */
  ghost predicate Moved(m0: Memory, f0: seq<nat>, part0: set<nat>, m1: Memory, f1: seq<nat>, part1: set<nat>) {
    && ToSet(f1) + part1 == ToSet(f0) + part0
    && m1.Keys == m0.Keys
    && forall a | a in m0 && a !in f0 && a !in part0 :: m1[a] == m0[a]
  }

  lemma WorldUser(mem: Memory, range: Range, free: seq<nat>, users: map<nat, User>, rest: set<nat>, q: nat)
    requires World(mem, range, free, users, rest) && q in users
    ensures UserOk(mem, range, free, users[q])
    ensures forall a | a in Footprint(mem, users[q]) :: range.Has(a) && a in mem && a !in free && a !in rest
  {
    hide UserOk, Footprint;
    FootprintInUse(mem, range, free, users[q]);
    assert Part(mem, users, q) == Footprint(mem, users[q]);
  }

  lemma OtherUser(m0: Memory, range: Range, f0: seq<nat>, users: map<nat, User>, rest: set<nat>,
                  m1: Memory, f1: seq<nat>, part: set<nat>, p: nat, q: nat)
    requires World(m0, range, f0, users, rest) && q in users && q != p
    requires Moved(m0, f0, Part(m0, users, p), m1, f1, part)
    ensures UserOk(m1, range, f1, users[q]) && Footprint(m1, users[q]) == Footprint(m0, users[q])
    ensures Image(m1, users[q]) == Image(m0, users[q]) && Saved(m1, users[q]) == Saved(m0, users[q])
    ensures Footprint(m0, users[q]) !! part
  {
    hide UserOk, Footprint, Image;
    WorldUser(m0, range, f0, users, rest, q);
    assert Apart(m0, users, p, q);
    forall a | a in Footprint(m0, users[q]) ensures a !in f1 && a !in part && m1[a] == m0[a] {
      assert a !in ToSet(f0) + Part(m0, users, p);
      assert a !in ToSet(f1) + part;
      assert a in f1 ==> a in ToSet(f1);
    }
    UserKept(m0, range, f0, m1, f1, users[q]);
    TrapframeFacts(m0, range, f0, users[q]);
  }

  /** Whatever an operation on process `p` does, if it only moves pages between `p` and the free ones
      and writes to no others, all pages are accounted for and the other processes see nothing. */
  lemma WorldStep(m0: Memory, range: Range, f0: seq<nat>, users0: map<nat, User>, m1: Memory, f1: seq<nat>,
                  users1: map<nat, User>, rest: set<nat>, p: nat)
    requires World(m0, range, f0, users0, rest)
    requires forall q | q != p :: (q in users0 <==> q in users1) && (q in users0 ==> users1[q] == users0[q])
    requires p in users1 ==> UserOk(m1, range, f1, users1[p])
    requires Moved(m0, f0, Part(m0, users0, p), m1, f1, Part(m1, users1, p))
    ensures World(m1, range, f1, users1, rest)
    ensures Undisturbed(m0, users0, m1, users1, p)
  {
    hide UserOk, Footprint, Image, Saved;
    var part0, part1 := Part(m0, users0, p), Part(m1, users1, p);
    forall q | q in users0 && q != p
      ensures UserOk(m1, range, f1, users0[q]) && Part(m1, users1, q) == Part(m0, users0, q)
      ensures Image(m1, users0[q]) == Image(m0, users0[q]) && Saved(m1, users0[q]) == Saved(m0, users0[q])
      ensures Part(m0, users0, q) !! part1
    {
      OtherUser(m0, range, f0, users0, rest, m1, f1, part1, p, q);
    }
    forall a | a in f1 || a in part1 ensures a in f0 || a in part0 {
      assert a in ToSet(f1) + part1;
      assert a in ToSet(f0) + part0;
    }
    if p in users0 {
      WorldUser(m0, range, f0, users0, rest, p);
    }
    forall q, r ensures Apart(m1, users1, q, r) {
      assert Apart(m0, users0, q, r);
    }
    forall a | range.Has(a) ensures Accounted(m1, users1, f1, rest, a) {
      StillAccounted(m0, f0, users0, m1, f1, users1, rest, p, a);
    }
  }

  lemma StillAccounted(m0: Memory, f0: seq<nat>, users0: map<nat, User>, m1: Memory, f1: seq<nat>,
                       users1: map<nat, User>, rest: set<nat>, p: nat, a: nat)
    requires Accounted(m0, users0, f0, rest, a)
    requires ToSet(f1) + Part(m1, users1, p) == ToSet(f0) + Part(m0, users0, p)
    requires forall q | q in users0 && q != p :: q in users1 && Part(m1, users1, q) == Part(m0, users0, q)
    ensures Accounted(m1, users1, f1, rest, a)
  {
    hide Footprint;
    if a in f0 || a in Part(m0, users0, p) {
      assert a in ToSet(f0) + Part(m0, users0, p);
      assert a in ToSet(f1) + Part(m1, users1, p);
    } else if a !in rest {
      var q :| q in users0 && a in Part(m0, users0, q);
      assert a in Part(m1, users1, q);
    }
  }

  // What the operations on page tables make of one process.

  lemma {:induction false} PagesConcat(mem: Memory, sp: Space, n: nat, k: nat)
    ensures Pages(mem, sp, 0, n + k) == Pages(mem, sp, 0, n) + Pages(mem, sp, n, k)
  {
    if k > 0 {
      PagesConcat(mem, sp, n, k - 1);
    }
  }

  /** The flags that an entry gets: those wanted, and the valid bit. */
  function WithV(w: Want): Want {
    if w.perm % 2 == 1 then w else w.(perm := w.perm + 1)
  }

  /** `u` with the tables `sp` and `k` pages more. */
  ghost predicate Longer(u: User, sp: Space, k: nat, u': User) {
    && u' == u.(sp := sp, sz := u'.sz) && RoundUp(u'.sz) == RoundUp(u.sz) + k <= MAXVPN - 2
    && Top in sp.at
  }

  /** The pages that a process has stay its own while it gets more. */
  lemma OldPage(m0: Memory, range: Range, f0: seq<nat>, u: User, m1: Memory, f1: seq<nat>, u': User,
                k: nat, want: seq<Want>, v: nat)
    requires UserOk(m0, range, f0, u) && Wanted(want, k) && v < RoundUp(u.sz)
    requires Fresh(m0, f0, u.sp, m1, range, f1, u'.sp, RoundUp(u.sz), k, want) && Longer(u, u'.sp, k, u')
    ensures Lookup(m1, u'.sp, v) == Lookup(m0, u.sp, v) != 0
    ensures Freeable(range, f1, u'.sp, PTE2PA(Lookup(m0, u.sp, v))) && PTE2PA(Lookup(m0, u.sp, v)) !in f0
    ensures Image(m1, u')[v] == Image(m0, u)[v]
  {
    hide Lookup, Tree, PTE2PA;
    var pa := PTE2PA(Lookup(m0, u.sp, v));
    assert Freeable(range, f0, u.sp, pa);
    assert pa in ToSet(f0) <==> pa in f0;
    StillFreeable(range, f0, u.sp, f1, u'.sp, pa);
  }

  lemma NewPage(m0: Memory, range: Range, f0: seq<nat>, u: User, m1: Memory, f1: seq<nat>, u': User,
                k: nat, want: seq<Want>, v: nat)
    requires Wanted(want, k) && RoundUp(u.sz) <= v < RoundUp(u.sz) + k
    requires Fresh(m0, f0, u.sp, m1, range, f1, u'.sp, RoundUp(u.sz), k, want) && Longer(u, u'.sp, k, u')
    ensures Lookup(m1, u'.sp, v) != 0 && PTE2PA(Lookup(m1, u'.sp, v)) in f0
    ensures Freeable(range, f1, u'.sp, PTE2PA(Lookup(m1, u'.sp, v)))
    ensures Image(m1, u')[v] == WithV(want[v - RoundUp(u.sz)])
  {
    hide Lookup, Tree;
    assert FreshPage(f0, m1, u'.sp, want, RoundUp(u.sz), v);
    PteRoundTrip(PTE2PA(Lookup(m1, u'.sp, v)), want[v - RoundUp(u.sz)].perm);
  }

  /** A process that has got more pages out of the free ones: they come after the others, as wanted. */
  lemma GrowImage(m0: Memory, range: Range, f0: seq<nat>, u: User, m1: Memory, f1: seq<nat>, u': User,
                  k: nat, want: seq<Want>)
    requires UserOk(m0, range, f0, u) && Wanted(want, k) && |want| == k
    requires Fresh(m0, f0, u.sp, m1, range, f1, u'.sp, RoundUp(u.sz), k, want) && Longer(u, u'.sp, k, u')
    ensures Image(m1, u') == Image(m0, u) + seq(k, i requires 0 <= i < k => WithV(want[i]))
  {
    hide UserOk, Fresh, Image, WithV;
    var n := RoundUp(u.sz);
    var all := Image(m0, u) + seq(k, i requires 0 <= i < k => WithV(want[i]));
    forall v | 0 <= v < n + k ensures Image(m1, u')[v] == all[v] {
      if v < n {
        OldPage(m0, range, f0, u, m1, f1, u', k, want, v);
      } else {
        NewPage(m0, range, f0, u, m1, f1, u', k, want, v);
      }
    }
  }

  lemma GrowBacked(m0: Memory, range: Range, f0: seq<nat>, u: User, m1: Memory, f1: seq<nat>, u': User,
                   k: nat, want: seq<Want>)
    requires UserOk(m0, range, f0, u) && Wanted(want, k)
    requires Fresh(m0, f0, u.sp, m1, range, f1, u'.sp, RoundUp(u.sz), k, want) && Longer(u, u'.sp, k, u')
    ensures Mapped(m1, u'.sp, 0, RoundUp(u'.sz)) && Backed(m1, range, f1, u'.sp, 0, RoundUp(u'.sz))
  {
    hide Lookup, Tree, PTE2PA, Image, Held, Freeable, ToSet, Pages, FreshPage, Extends;
    var n := RoundUp(u.sz);
    forall v | 0 <= v < n + k
      ensures Lookup(m1, u'.sp, v) != 0 && Freeable(range, f1, u'.sp, PTE2PA(Lookup(m1, u'.sp, v)))
      ensures PTE2PA(Lookup(m1, u'.sp, v)) in f0 <==> v >= n
      ensures v < n ==> Lookup(m1, u'.sp, v) == Lookup(m0, u.sp, v)
    {
      if v < n {
        OldPage(m0, range, f0, u, m1, f1, u', k, want, v);
      } else {
        NewPage(m0, range, f0, u, m1, f1, u', k, want, v);
      }
    }
  }

  lemma GrowPages(m0: Memory, range: Range, f0: seq<nat>, u: User, m1: Memory, f1: seq<nat>, u': User,
                  k: nat, want: seq<Want>)
    requires UserOk(m0, range, f0, u) && Wanted(want, k)
    requires Fresh(m0, f0, u.sp, m1, range, f1, u'.sp, RoundUp(u.sz), k, want) && Longer(u, u'.sp, k, u')
    ensures Pages(m1, u'.sp, 0, RoundUp(u'.sz))
         == Pages(m0, u.sp, 0, RoundUp(u.sz)) + Pages(m1, u'.sp, RoundUp(u.sz), k)
    ensures u.trapframe !in Pages(m1, u'.sp, 0, RoundUp(u'.sz))
  {
    hide Lookup, Tree, PTE2PA, Image, Held, ToSet, Pages, FreshPage, Extends, Backed;
    var n := RoundUp(u.sz);
    PagesSame(m0, u.sp, m1, u'.sp, 0, n);
    PagesConcat(m1, u'.sp, n, k);
    PagesAre(m1, u'.sp, n, k);
    forall v | n <= v < n + k ensures PTE2PA(Lookup(m1, u'.sp, v)) != u.trapframe {
      NewPage(m0, range, f0, u, m1, f1, u', k, want, v);
    }
  }

  lemma GrowUser(m0: Memory, range: Range, f0: seq<nat>, u: User, m1: Memory, f1: seq<nat>, u': User,
                 k: nat, want: seq<Want>)
    requires UserOk(m0, range, f0, u) && Wanted(want, k) && Held(m1, range, f1, u'.sp)
    requires Fresh(m0, f0, u.sp, m1, range, f1, u'.sp, RoundUp(u.sz), k, want) && Longer(u, u'.sp, k, u')
    ensures UserOk(m1, range, f1, u')
    ensures Moved(m0, f0, Footprint(m0, u), m1, f1, Footprint(m1, u'))
  {
    hide Lookup, Tree, PTE2PA, Held, Pages, Moved, Mapped, Backed, Extends, FreshPage, MakePte;
    GrowBacked(m0, range, f0, u, m1, f1, u', k, want);
    GrowPages(m0, range, f0, u, m1, f1, u', k, want);
    StillFreeable(range, f0, u.sp, f1, u'.sp, u.trapframe);
    GrowMoved(m0, range, f0, u, m1, f1, u', k, want);
  }

  lemma GrowMoved(m0: Memory, range: Range, f0: seq<nat>, u: User, m1: Memory, f1: seq<nat>, u': User,
                  k: nat, want: seq<Want>)
    requires Wanted(want, k) && u'.trapframe == u.trapframe
    requires Fresh(m0, f0, u.sp, m1, range, f1, u'.sp, RoundUp(u.sz), k, want)
    requires Pages(m1, u'.sp, 0, RoundUp(u'.sz))
          == Pages(m0, u.sp, 0, RoundUp(u.sz)) + Pages(m1, u'.sp, RoundUp(u.sz), k)
    ensures Moved(m0, f0, Footprint(m0, u), m1, f1, Footprint(m1, u'))
  {
    hide Lookup, Pages, Backed;
    var own, more := Pages(m0, u.sp, 0, RoundUp(u.sz)), Pages(m1, u'.sp, RoundUp(u.sz), k);
    assert ToSet(f1) + Footprint(m1, u') == (ToSet(f1) + u'.sp.pos.Keys + more) + (own + {u.trapframe});
    assert ToSet(f0) + Footprint(m0, u) == (ToSet(f0) + u.sp.pos.Keys) + (own + {u.trapframe});
    forall a | a in m0 && a !in f0 && a !in Footprint(m0, u) ensures m1[a] == m0[a] {
      assert a in ToSet(f0) <==> a in f0;
    }
  }

  /** A growth that failed: just tables have been added. */
  lemma FreshNone(m0: Memory, range: Range, f0: seq<nat>, sp: Space, m1: Memory, f1: seq<nat>, sp': Space, first: nat)
    requires Extends(m0, f0, sp, m1, sp') && SameMap(m0, sp, m1, sp')
    requires ToSet(f1) + sp'.pos.Keys == ToSet(f0) + sp.pos.Keys
    ensures Fresh(m0, f0, sp, m1, range, f1, sp', first, 0, [])
  {
    hide Lookup, Extends;
  }

  /** What `uvmdealloc` makes of memory: the pages from the `n`-th on are free, as they were mapped. */
  ghost predicate Shrunk(m0: Memory, f0: seq<nat>, sp: Space, m1: Memory, f1: seq<nat>, n: nat, k: nat) {
    && m1.Keys == m0.Keys && ToSet(f1) == ToSet(f0) + Pages(m0, sp, n, k)
    && (forall v | 0 <= v < MAXVPN :: Lookup(m1, sp, v) == if n <= v < n + k then 0 else Lookup(m0, sp, v))
    && (forall x | x in m0 && x !in sp.pos && x !in Pages(m0, sp, n, k) :: m1[x] == m0[x])
  }

  lemma KeptPage(m0: Memory, range: Range, f0: seq<nat>, u: User, m1: Memory, f1: seq<nat>, u': User, k: nat, v: nat)
    requires UserOk(m0, range, f0, u) && u' == u.(sz := u'.sz) && RoundUp(u'.sz) + k == RoundUp(u.sz)
    requires Shrunk(m0, f0, u.sp, m1, f1, RoundUp(u'.sz), k) && v < RoundUp(u'.sz)
    ensures Lookup(m1, u.sp, v) == Lookup(m0, u.sp, v) != 0
    ensures Freeable(range, f1, u.sp, PTE2PA(Lookup(m0, u.sp, v)))
    ensures Image(m1, u')[v] == Image(m0, u)[v]
  {
    hide Lookup, Tree, PTE2PA, Pages, MakePte;
    var pa := PTE2PA(Lookup(m0, u.sp, v));
    assert Freeable(range, f0, u.sp, pa);
    PagesAre(m0, u.sp, RoundUp(u'.sz), k);
    assert pa !in Pages(m0, u.sp, RoundUp(u'.sz), k);
    assert pa in ToSet(f0) <==> pa in f0;
    assert pa in ToSet(f1) <==> pa in f1;
  }

  lemma ShrinkPages(m0: Memory, range: Range, f0: seq<nat>, u: User, m1: Memory, f1: seq<nat>, u': User, k: nat)
    requires UserOk(m0, range, f0, u) && u' == u.(sz := u'.sz) && RoundUp(u'.sz) + k == RoundUp(u.sz)
    requires Shrunk(m0, f0, u.sp, m1, f1, RoundUp(u'.sz), k)
    ensures Pages(m0, u.sp, 0, RoundUp(u.sz)) == Pages(m1, u.sp, 0, RoundUp(u'.sz)) + Pages(m0, u.sp, RoundUp(u'.sz), k)
    ensures Image(m1, u') == Image(m0, u)[..RoundUp(u'.sz)]
  {
    hide Lookup, Tree, PTE2PA, Pages, Image, MakePte;
    var n := RoundUp(u'.sz);
    PagesSame(m0, u.sp, m1, u.sp, 0, n);
    PagesConcat(m0, u.sp, n, k);
    forall v | 0 <= v < n ensures Image(m1, u')[v] == Image(m0, u)[v] {
      KeptPage(m0, range, f0, u, m1, f1, u', k, v);
    }
  }

  /** A process that has given some of its pages back. */
  lemma ShrinkUser(m0: Memory, range: Range, f0: seq<nat>, u: User, m1: Memory, f1: seq<nat>, u': User, k: nat)
    requires UserOk(m0, range, f0, u) && u' == u.(sz := u'.sz) && RoundUp(u'.sz) + k == RoundUp(u.sz)
    requires Shrunk(m0, f0, u.sp, m1, f1, RoundUp(u'.sz), k) && Held(m1, range, f1, u.sp)
    ensures UserOk(m1, range, f1, u')
    ensures Moved(m0, f0, Footprint(m0, u), m1, f1, Footprint(m1, u'))
    ensures Image(m1, u') == Image(m0, u)[..RoundUp(u'.sz)]
  {
    hide Lookup, Tree, PTE2PA, Pages, Image, MakePte, Held;
    ShrinkPages(m0, range, f0, u, m1, f1, u', k);
    forall v | 0 <= v < RoundUp(u'.sz)
      ensures Lookup(m1, u.sp, v) == Lookup(m0, u.sp, v) != 0
      ensures Freeable(range, f1, u.sp, PTE2PA(Lookup(m1, u.sp, v)))
    {
      KeptPage(m0, range, f0, u, m1, f1, u', k, v);
    }
    assert u.trapframe in ToSet(f1) <==> u.trapframe in f1;
    assert u.trapframe in ToSet(f0) <==> u.trapframe in f0;
  }

  /** Every process but `p` has what it had, with the same content. */
  ghost predicate Undisturbed(m0: Memory, users0: map<nat, User>, m1: Memory, users1: map<nat, User>, p: nat) {
    forall q | q in users0 && q != p ::
      && q in users1 && users1[q] == users0[q]
      && Image(m1, users1[q]) == Image(m0, users0[q]) && Saved(m1, users1[q]) == Saved(m0, users0[q])
  }

  lemma UndisturbedTrans(m0: Memory, users0: map<nat, User>, m1: Memory, users1: map<nat, User>,
                         m2: Memory, users2: map<nat, User>, p: nat)
    requires Undisturbed(m0, users0, m1, users1, p) && Undisturbed(m1, users1, m2, users2, p)
    ensures Undisturbed(m0, users0, m2, users2, p)
  {
    hide Image, Saved;
  }

  /** The trapframe page is given back first, while the page table still maps it. */
  lemma FreedTrapframe(m0: Memory, range: Range, f0: seq<nat>, u: User, m1: Memory)
    requires UserOk(m0, range, f0, u) && u.trapframe in m0 && u.trapframe in m1
    requires m1 == m0[u.trapframe := m1[u.trapframe]]
    ensures Held(m1, range, [u.trapframe] + f0, u.sp)
    ensures ProcessMap(m1, range, [u.trapframe] + f0, u.sp, RoundUp(u.sz))
    ensures Pages(m1, u.sp, 0, RoundUp(u.sz)) == Pages(m0, u.sp, 0, RoundUp(u.sz))
  {
    hide Lookup, Tree, PTE2PA, MakePte, Pages, Held;
    var n := RoundUp(u.sz);
    FreedOutside(m0, m1, range, f0, u.sp, u.trapframe);
    PagesSame(m0, u.sp, m1, u.sp, 0, n);
    PagesAre(m0, u.sp, 0, n);
    forall v | 0 <= v < n ensures Freeable(range, [u.trapframe] + f0, u.sp, PTE2PA(Lookup(m1, u.sp, v))) {
      assert Freeable(range, f0, u.sp, PTE2PA(Lookup(m0, u.sp, v)));
      assert PTE2PA(Lookup(m0, u.sp, v)) in Pages(m0, u.sp, 0, n);
    }
  }

  lemma GoneUser(m0: Memory, f0: seq<nat>, u: User, m1: Memory, m2: Memory, f2: seq<nat>)
    requires u.trapframe in m0 && u.trapframe in m1 && m1 == m0[u.trapframe := m1[u.trapframe]]
    requires Pages(m1, u.sp, 0, RoundUp(u.sz)) == Pages(m0, u.sp, 0, RoundUp(u.sz))
    requires ToSet(f2) == ToSet([u.trapframe] + f0) + Pages(m1, u.sp, 0, RoundUp(u.sz)) + u.sp.pos.Keys
    requires m2.Keys == m1.Keys
    requires forall x | x in m2 && x !in u.sp.pos && x !in Pages(m1, u.sp, 0, RoundUp(u.sz)) :: m2[x] == m1[x]
    ensures Moved(m0, f0, Footprint(m0, u), m2, f2, {}) && ToSet(f2) == ToSet(f0) + Footprint(m0, u)
  {
    hide Pages, ToSet;
    ToSetCons(u.trapframe, f0);
  }

  /** A new process has its trapframe page and the tables to reach it. */
  lemma NewUser(m0: Memory, range: Range, f0: seq<nat>, m1: Memory, f1: seq<nat>, m2: Memory, f2: seq<nat>, u: User)
    requires f0 != [] && u.trapframe == f0[0] && f1 == f0[1..] && u.trapframe !in f1 && range.Has(u.trapframe)
    requires u.trapframe in m0 && u.trapframe in m1 && m1 == m0[u.trapframe := m1[u.trapframe]]
    requires u.sz == 0 && Held(m2, range, f2, u.sp) && Top in u.sp.at && ProcessMap(m2, range, f2, u.sp, 0)
    requires Lookup(m2, u.sp, MAXVPN - 2) == MakePte(u.trapframe, PTE_R + PTE_W)
    requires Lookup(m2, u.sp, MAXVPN - 1) == MakePte(u.trampoline, PTE_R + PTE_X)
    requires ToSet(f2) + u.sp.pos.Keys == ToSet(f1) && m2.Keys == m1.Keys
    requires forall x | x in m2 && x !in ToSet(f1) :: m2[x] == m1[x]
    ensures UserOk(m2, range, f2, u) && Moved(m0, f0, {}, m2, f2, Footprint(m2, u))
    ensures ToSet(f2) + Footprint(m2, u) == ToSet(f0)
  {
    hide Tree, Lookup, MakePte, Held, ProcessMap;
    assert f0 == [u.trapframe] + f1;
    ToSetCons(u.trapframe, f1);
    assert u.trapframe !in ToSet(f2) + u.sp.pos.Keys;
    assert u.trapframe in f2 ==> u.trapframe in ToSet(f2);
    assert Footprint(m2, u) == u.sp.pos.Keys + {u.trapframe};
    forall a | a in m0 && a !in f0 ensures m2[a] == m0[a] {
      assert a !in ToSet(f1) && a != u.trapframe;
    }
  }

  /** Without tables for a new process the trapframe page goes back. */
  lemma NoUser(m0: Memory, f0: seq<nat>, m1: Memory, f1: seq<nat>, m2: Memory, f2: seq<nat>, m3: Memory, tf: nat)
    requires f0 != [] && tf == f0[0] && f1 == f0[1..] && tf in m0 && tf in m1 && m1 == m0[tf := m1[tf]]
    requires ToSet(f2) == ToSet(f1) && m2.Keys == m1.Keys && forall x | x in m2 && x !in ToSet(f1) :: m2[x] == m1[x]
    requires tf in m2 && tf in m3 && m3 == m2[tf := m3[tf]]
    ensures Moved(m0, f0, {}, m3, [tf] + f2, {}) && ToSet([tf] + f2) == ToSet(f0)
  {
    assert f0 == [tf] + f1;
    ToSetCons(tf, f1);
    ToSetCons(tf, f2);
    forall a | a in m0 && a !in f0 ensures m3[a] == m0[a] {
      assert a !in ToSet(f1) && a != tf;
    }
  }

  /** A process has no more pages than there are. */
  lemma SizeBound(mem: Memory, range: Range, free: seq<nat>, u: User)
    requires UserOk(mem, range, free, u) && range.Valid()
    ensures RoundUp(u.sz) <= range.hi / PGSIZE
  {
    hide Lookup, PTE2PA, Tree, Held, MakePte, Below;
    var n := RoundUp(u.sz);
    var xs := seq(n, v requires 0 <= v < n => PTE2PA(Lookup(mem, u.sp, v)) / PGSIZE);
    forall v | 0 <= v < n ensures xs[v] in Below(range.hi / PGSIZE) {
      assert Freeable(range, free, u.sp, PTE2PA(Lookup(mem, u.sp, v)));
    }
    forall v, w | 0 <= v < w < n ensures xs[v] != xs[w] {
      assert PTE2PA(Lookup(mem, u.sp, v)) != PTE2PA(Lookup(mem, u.sp, w));
      assert Freeable(range, free, u.sp, PTE2PA(Lookup(mem, u.sp, v)));
      assert Freeable(range, free, u.sp, PTE2PA(Lookup(mem, u.sp, w)));
    }
    Pigeonhole(xs, Below(range.hi / PGSIZE));
  }

  /** A zeroed page that the process may read and write. */
  function UserPage(): Want {
    Want(PTE_V + PTE_R + PTE_W + PTE_U, ZeroPage())
  }

  /** The first `n` pages. */
  function Front(image: seq<Want>, n: nat): seq<Want> {
    if n <= |image| then image[..n] else image
  }

  /** How many pages `n` bytes more are. */
  function Added(sz: nat, n: nat): (k: nat) {
    RoundUp(sz + n) - RoundUp(sz)
  }

  /** How many pages `n` bytes more take: those, and the tables that they need. */
  function Growth(sp: Space, sz: nat, n: nat): nat {
    Added(sz, n) + |Missing(sp, RoundUp(sz), Added(sz, n))|
  }

  /** The size after `growproc`, in 64-bit arithmetic. */
  function Resized(sz: nat, n: int, r: int): nat {
    if r == 0 && sz + n >= 0 then sz + n else sz
  }

  lemma UpperPart(mem: Memory, range: Range, free: seq<nat>, u: User, first: nat, k: nat)
    requires UserOk(mem, range, free, u) && first + k == RoundUp(u.sz)
    ensures Mapped(mem, u.sp, first, k) && Backed(mem, range, free, u.sp, first, k) && RoundUp(u.sz) <= MAXVPN
  {
    hide Lookup, Held, PTE2PA, Pages;
  }

  lemma ShrunkIs(m0: Memory, f0: seq<nat>, sp: Space, m1: Memory, f1: seq<nat>, n: nat, k: nat)
    requires m1.Keys == m0.Keys
    requires (k == 0 && m1 == m0 && f1 == f0) ||
      (&& ToSet(f1) == ToSet(f0) + Pages(m0, sp, n, k)
       && (forall v | 0 <= v < MAXVPN :: Lookup(m1, sp, v) == if n <= v < n + k then 0 else Lookup(m0, sp, v))
       && (forall x | x in m1 && x !in sp.pos && x !in Pages(m0, sp, n, k) :: m1[x] == m0[x]))
    ensures Shrunk(m0, f0, sp, m1, f1, n, k)
  {
    hide Lookup, ToSet;
  }

  lemma FarBelow(sz: nat, n: nat)
    requires RoundUp(sz) <= PHYSTOP / PGSIZE && n < 0x8000_0000
    ensures RoundUp(sz + n) <= MAXVPN - 2
  {
  }

  /** The word of a trapframe that has `a0`. */
  const A0: nat := 14

  datatype Proc = Proc(trapframe: nat, pagetable: nat, sz: nat)

  const PHYSTOP: nat := 0x8800_0000

  class Processes {
    const vm: Machine
    const trampoline: nat
    /** Memory that processes do not have: kernel stacks, the kernel's page table, pipes. */
    ghost const rest: set<nat>
    var procs: map<nat, Proc>
    ghost var users: map<nat, User>

    ghost predicate Valid()
      reads this, vm
    {
      && vm.Valid() && vm.range.hi <= PHYSTOP && trampoline % PGSIZE == 0
      && Match(procs, users, trampoline) && World(vm.mem, vm.range, vm.free, users, rest)
    }

    /** At boot, when the kernel has taken what it needs and there are no processes. */
    constructor (vm: Machine, trampoline: nat)
      requires vm.Valid() && vm.range.hi <= PHYSTOP && trampoline % PGSIZE == 0
      ensures Valid() && this.vm == vm && procs == map[]
      ensures forall a: nat :: a in rest <==> vm.range.Has(a) && a !in vm.free
    {
      this.vm, this.trampoline := vm, trampoline;
      rest := set a | a in vm.mem && vm.range.Has(a) && a !in vm.free;
      procs, users := map[], map[];
    }

    /** Memory for a new process: a trapframe page and a page table without user pages, four pages
        together; or nothing, if there are not so many. */
    method Allocproc(p: nat) returns (ok: bool)
      requires Valid() && p !in procs
      modifies this, vm
      ensures Valid() && (ok <==> |old(vm.free)| >= 4)
      ensures !ok ==> procs == old(procs) && users == old(users) && ToSet(vm.free) == ToSet(old(vm.free))
      ensures ok ==> p in procs && procs == old(procs)[p := procs[p]] && procs[p].sz == 0
      ensures ok ==> p in users && users == old(users)[p := users[p]]
      ensures ok ==> users[p].sp.at.Keys == {Top} + Path(MAXVPN - 1) && |vm.free| == |old(vm.free)| - 4
      ensures ok ==> ToSet(vm.free) + Footprint(vm.mem, users[p]) == ToSet(old(vm.free))
      ensures Undisturbed(old(vm.mem), old(users), vm.mem, users, p)
    {
      hide UserOk, Footprint, Image, Saved, FreeList, ToSet, Held, ProcessMap, Moved, World, Match, Undisturbed;
      hide Lookup, MakePte, Path;
      MatchFacts(procs, users, trampoline, p);
      Same(vm.mem, users, p);
      var trapframe := vm.Kalloc();
      if trapframe == 0 {
        return false;
      }
      ghost var mem1, free1 := vm.mem, vm.free;
      var pagetable;
      ghost var sp;
      pagetable, sp := vm.ProcPagetable(trampoline, trapframe);
      if pagetable == 0 {
        ghost var mem2, free2 := vm.mem, vm.free;
        InSet(trapframe, free1, free2);
        vm.Kfree(trapframe);
        NoUser(old(vm.mem), old(vm.free), mem1, free1, mem2, free2, vm.mem, trapframe);
        WorldWithout(old(vm.mem), vm.range, old(vm.free), procs, users, vm.mem, vm.free, rest, trampoline, p);
        assert users - {p} == users && procs - {p} == procs;
        return false;
      }
      ghost var u := User(sp, trapframe, trampoline, 0);
      NewUser(old(vm.mem), vm.range, old(vm.free), mem1, free1, vm.mem, vm.free, u);
      WorldWith(old(vm.mem), vm.range, old(vm.free), procs, users, vm.mem, vm.free, rest, trampoline, p, u);
      procs, users := procs[p := Proc(trapframe, pagetable, 0)], users[p := u];
      ok := true;
    }

    /** `growproc` with a positive argument: zeroed pages of its own after those it has, or no change
        at all to what it sees. */
    method Grow(p: nat, n: nat) returns (r: int)
      requires Valid() && p in procs && 0 < n < 0x8000_0000
      modifies this, vm
      ensures Valid() && (r == 0 || r == -1) && p in users && p in old(users)
      ensures r == 0 <==> Growth(old(users)[p].sp, old(procs)[p].sz, n) <= |old(vm.free)|
      ensures procs == old(procs)[p := old(procs)[p].(sz := old(procs)[p].sz + (if r == 0 then n else 0))]
      ensures Image(vm.mem, users[p]) == old(Image(vm.mem, users[p]))
              + (if r == 0 then seq(Added(old(procs)[p].sz, n), _ => UserPage()) else [])
      ensures Undisturbed(old(vm.mem), old(users), vm.mem, users, p)
    {
      hide UserOk, Footprint, Image, Saved, FreeList, ToSet, Held, Moved, World, Match, Undisturbed;
      hide Lookup, MakePte, Path, Missing, Fresh, Extends, SameMap, Mapped, Backed, Pages;
      MatchFacts(procs, users, trampoline, p);
      ghost var u := users[p];
      WorldUser(vm.mem, vm.range, vm.free, users, rest, p);
      TrapframeFacts(vm.mem, vm.range, vm.free, u);
      SizeBound(vm.mem, vm.range, vm.free, u);
      var sz := procs[p].sz;
      FarBelow(sz, n);
      ghost var k := Added(sz, n);
      var got;
      ghost var ok, sp;
      got, ok, sp := vm.Uvmalloc(procs[p].pagetable, sz, sz + n, PTE_W, u.sp);
      ExtendsTop(old(vm.mem), old(vm.free), u.sp, vm.mem, sp);
      if got == 0 {
        ghost var v := u.(sp := sp);
        FreshNone(old(vm.mem), vm.range, old(vm.free), u.sp, vm.mem, vm.free, sp, RoundUp(sz));
        GrowUser(old(vm.mem), vm.range, old(vm.free), u, vm.mem, vm.free, v, 0, []);
        GrowImage(old(vm.mem), vm.range, old(vm.free), u, vm.mem, vm.free, v, 0, []);
        WorldWith(old(vm.mem), vm.range, old(vm.free), procs, users, vm.mem, vm.free, rest, trampoline, p, v);
        assert procs[p := ProcOf(v)] == procs;
        users := users[p := v];
        return -1;
      }
      ghost var v := u.(sp := sp, sz := sz + n);
      ghost var want := seq(k, _ => Want(PTE_R + PTE_U + PTE_W, ZeroPage()));
      GrowUser(old(vm.mem), vm.range, old(vm.free), u, vm.mem, vm.free, v, k, want);
      GrowImage(old(vm.mem), vm.range, old(vm.free), u, vm.mem, vm.free, v, k, want);
      WorldWith(old(vm.mem), vm.range, old(vm.free), procs, users, vm.mem, vm.free, rest, trampoline, p, v);
      assert seq(k, i requires 0 <= i < k => WithV(want[i])) == seq(k, _ => UserPage());
      procs, users := procs[p := procs[p].(sz := got)], users[p := v];
      r := 0;
    }

    /** `growproc` with a negative argument: the pages above the new size are given back.  Below zero,
        the size wraps around to one that is larger, and nothing happens. */
    method Shrink(p: nat, n: int)
      requires Valid() && p in procs && 0 < n <= 0x8000_0000
      modifies this, vm
      ensures Valid() && p in users && p in old(users)
      ensures procs == old(procs)[p := old(procs)[p].(sz := Resized(old(procs)[p].sz, -n, 0))]
      ensures Image(vm.mem, users[p]) == Front(old(Image(vm.mem, users[p])), RoundUp(procs[p].sz))
      ensures Undisturbed(old(vm.mem), old(users), vm.mem, users, p)
    {
      hide UserOk, Footprint, Image, Saved, FreeList, ToSet, Held, Moved, World, Match, Undisturbed;
      hide Lookup, MakePte, Mapped, Backed, Pages, Shrunk;
      MatchFacts(procs, users, trampoline, p);
      ghost var u := users[p];
      WorldUser(vm.mem, vm.range, vm.free, users, rest, p);
      TrapframeFacts(vm.mem, vm.range, vm.free, u);
      var sz := procs[p].sz;
      SizeBound(vm.mem, vm.range, vm.free, u);
      var newsz := if n <= sz then sz - n else sz - n + 0x1_0000_0000_0000_0000;
      ghost var first := if newsz < sz then RoundUp(newsz) else RoundUp(sz);
      ghost var k := RoundUp(sz) - first;
      UpperPart(vm.mem, vm.range, vm.free, u, first, k);
      var r := vm.Uvmdealloc(procs[p].pagetable, sz, newsz, u.sp);
      ghost var v := u.(sz := r);
      ShrunkIs(old(vm.mem), old(vm.free), u.sp, vm.mem, vm.free, first, k);
      ShrinkUser(old(vm.mem), vm.range, old(vm.free), u, vm.mem, vm.free, v, k);
      WorldWith(old(vm.mem), vm.range, old(vm.free), procs, users, vm.mem, vm.free, rest, trampoline, p, v);
      procs, users := procs[p := procs[p].(sz := r)], users[p := v];
    }

    /** The whole of `growproc`. */
    method Growproc(p: nat, n: int) returns (r: int)
      requires Valid() && p in procs && -0x8000_0000 <= n < 0x8000_0000
      modifies this, vm
      ensures Valid() && (r == 0 || r == -1) && p in users && p in old(users)
      ensures n <= 0 ==> r == 0
      ensures n > 0 ==> (r == 0 <==> Growth(old(users)[p].sp, old(procs)[p].sz, n) <= |old(vm.free)|)
      ensures procs == old(procs)[p := old(procs)[p].(sz := Resized(old(procs)[p].sz, n, r))]
      ensures n > 0 ==> Image(vm.mem, users[p]) == old(Image(vm.mem, users[p]))
                        + (if r == 0 then seq(Added(old(procs)[p].sz, n), _ => UserPage()) else [])
      ensures n <= 0 ==> Image(vm.mem, users[p]) == Front(old(Image(vm.mem, users[p])), RoundUp(procs[p].sz))
      ensures Undisturbed(old(vm.mem), old(users), vm.mem, users, p)
    {
      hide Image, World, Match, Undisturbed, Growth;
      MatchFacts(procs, users, trampoline, p);
      Same(vm.mem, users, p);
      r := 0;
      if n > 0 {
        r := Grow(p, n);
      } else if n < 0 {
        Shrink(p, -n);
      }
    }

    /** The new process gets pages of its own that hold what those of `p` hold, or none. */
    method CopyMemory(p: nat, np: nat) returns (ok: bool)
      requires Valid() && p in procs && np in procs && p != np && procs[np].sz == 0
      modifies this, vm
      ensures Valid() && p in old(users) && np in old(users) && np in users && users == old(users)[np := users[np]]
      ensures ok <==> Growth(old(users)[np].sp, 0, old(procs)[p].sz) <= |old(vm.free)|
      ensures procs == old(procs)[np := old(procs)[np].(sz := if ok then old(procs)[p].sz else 0)]
      ensures ok ==> Image(vm.mem, users[np]) == old(Image(vm.mem, users[p]))
      ensures ToSet(vm.free) + Footprint(vm.mem, users[np])
           == ToSet(old(vm.free)) + Footprint(old(vm.mem), old(users)[np])
      ensures Undisturbed(old(vm.mem), old(users), vm.mem, users, np)
    {
      hide UserOk, Footprint, Image, Saved, FreeList, ToSet, Held, Moved, World, Match, Undisturbed;
      hide Lookup, MakePte, Missing, Fresh, Extends, SameMap, Mapped, Backed, Pages, Originals;
      MatchFacts(procs, users, trampoline, p);
      MatchFacts(procs, users, trampoline, np);
      ghost var u, parent := users[np], users[p];
      ForkReady(vm.mem, vm.range, vm.free, users, rest, p, np);
      var sz := procs[p].sz;
      ghost var n := RoundUp(sz);
      var r;
      ghost var sp;
      r, sp := vm.Uvmcopy(procs[p].pagetable, procs[np].pagetable, sz, parent.sp, u.sp);
      ExtendsTop(old(vm.mem), old(vm.free), u.sp, vm.mem, sp);
      ok := r == 0;
      ghost var v := u.(sp := sp, sz := if ok then sz else 0);
      if ok {
        GrowUser(old(vm.mem), vm.range, old(vm.free), u, vm.mem, vm.free, v, n, Originals(old(vm.mem), parent.sp, n));
        CopiedImage(old(vm.mem), vm.range, old(vm.free), u, vm.mem, vm.free, v, parent);
        procs := procs[np := procs[np].(sz := sz)];
      } else {
        FreshNone(old(vm.mem), vm.range, old(vm.free), u.sp, vm.mem, vm.free, sp, 0);
        GrowUser(old(vm.mem), vm.range, old(vm.free), u, vm.mem, vm.free, v, 0, []);
      }
      MovedSet(old(vm.mem), old(vm.free), Footprint(old(vm.mem), u), vm.mem, vm.free, Footprint(vm.mem, v));
      WorldWith(old(vm.mem), vm.range, old(vm.free), old(procs), users, vm.mem, vm.free, rest, trampoline, np, v);
      users := users[np := v];
      assert procs == old(procs)[np := ProcOf(v)];
    }

    /** The new process gets the saved registers, but a 0 in the one that has the result. */
    method CopyTrapframe(p: nat, np: nat)
      requires Valid() && p in procs && np in procs && p != np
      modifies vm
      ensures Valid() && p in users && np in users && vm.free == old(vm.free)
      ensures Image(vm.mem, users[np]) == old(Image(vm.mem, users[np]))
      ensures Saved(vm.mem, users[np]) == old(Saved(vm.mem, users[p]))[A0 := 0]
      ensures Undisturbed(old(vm.mem), users, vm.mem, users, np)
    {
      hide UserOk, Footprint, Image, FreeList, Moved, World, Match, Undisturbed;
      MatchFacts(procs, users, trampoline, p);
      MatchFacts(procs, users, trampoline, np);
      WorldUser(vm.mem, vm.range, vm.free, users, rest, p);
      WorldUser(vm.mem, vm.range, vm.free, users, rest, np);
      TrapframeFacts(vm.mem, vm.range, vm.free, users[p]);
      TrapframeFacts(vm.mem, vm.range, vm.free, users[np]);
      vm.mem := vm.mem[procs[np].trapframe := vm.mem[procs[p].trapframe]];
      vm.mem := vm.mem[procs[np].trapframe := vm.mem[procs[np].trapframe][A0 := 0]];
      assert vm.mem == old(vm.mem)[procs[np].trapframe := vm.mem[procs[np].trapframe]];
      StoreFrame(old(vm.mem), vm.range, vm.freelist, vm.free, vm.mem, procs[np].trapframe);
      UserKept(old(vm.mem), vm.range, vm.free, vm.mem, vm.free, users[np]);
      MovedNothing(old(vm.mem), vm.free, vm.mem, Footprint(old(vm.mem), users[np]), procs[np].trapframe);
      WorldWith(old(vm.mem), vm.range, vm.free, procs, users, vm.mem, vm.free, rest, trampoline, np, users[np]);
      assert users[np := users[np]] == users && procs[np := ProcOf(users[np])] == procs;
    }

    /** `fork`, as far as memory goes: a new process with a copy of what `p` sees, or no change. */
    method Fork(p: nat, np: nat) returns (ok: bool)
      requires Valid() && p in procs && np !in procs
      modifies this, vm
      ensures Valid() && p in old(users)
      ensures ok <==> ForkPages(RoundUp(old(procs)[p].sz)) <= |old(vm.free)|
      ensures !ok ==> procs == old(procs) && users == old(users) && ToSet(vm.free) == ToSet(old(vm.free))
      ensures ok ==> np in procs && procs == old(procs)[np := procs[np]] && procs[np].sz == old(procs)[p].sz
      ensures ok ==> np in users && users == old(users)[np := users[np]]
      ensures ok ==> Image(vm.mem, users[np]) == old(Image(vm.mem, users[p]))
      ensures ok ==> Saved(vm.mem, users[np]) == old(Saved(vm.mem, users[p]))[A0 := 0]
      ensures Undisturbed(old(vm.mem), old(users), vm.mem, users, np)
    {
      hide Footprint, Image, Saved, ToSet, World, Match, Undisturbed, Path, Missing, ForkPages;
      MatchFacts(procs, users, trampoline, p);
      MatchFacts(procs, users, trampoline, np);
      ok := Allocproc(np);
      ForkNeeds(RoundUp(procs[p].sz), old(vm.free));
      if !ok {
        return;
      }
      ghost var mem1, users1 := vm.mem, users;
      UndisturbedFacts(old(vm.mem), old(users), mem1, users1, np, p);
      ForkMissing(users[np].sp, RoundUp(procs[p].sz));
      ok := CopyMemory(p, np);
      ghost var mem2, users2 := vm.mem, users;
      UndisturbedFacts(mem1, users1, mem2, users2, np, p);
      UndisturbedTrans(old(vm.mem), old(users), mem1, users1, mem2, users2, np);
      if ok {
        CopyTrapframe(p, np);
      } else {
        Freeproc(np);
        assert procs == old(procs) && users == old(users);
      }
      UndisturbedTrans(old(vm.mem), old(users), mem2, users2, vm.mem, users, np);
    }

    /** Gives back all that a process has. */
    method Freeproc(p: nat)
      requires Valid() && p in procs
      modifies this, vm
      ensures Valid() && procs == old(procs) - {p} && p in old(users) && users == old(users) - {p}
      ensures ToSet(vm.free) == ToSet(old(vm.free)) + Footprint(old(vm.mem), old(users)[p])
      ensures Undisturbed(old(vm.mem), old(users), vm.mem, users, p)
    {
      hide UserOk, Footprint, Image, FreeList, ToSet, Held, ProcessMap, Pages, Moved, World, Match, Undisturbed;
      MatchFacts(procs, users, trampoline, p);
      ghost var u := users[p];
      WorldUser(vm.mem, vm.range, vm.free, users, rest, p);
      TrapframeFacts(vm.mem, vm.range, vm.free, u);
      vm.Kfree(procs[p].trapframe);
      ghost var mem1 := vm.mem;
      FreedTrapframe(old(vm.mem), vm.range, old(vm.free), u, mem1);
      vm.ProcFreepagetable(procs[p].pagetable, procs[p].sz, u.sp);
      GoneUser(old(vm.mem), old(vm.free), u, mem1, vm.mem, vm.free);
      WorldWithout(old(vm.mem), vm.range, old(vm.free), procs, users, vm.mem, vm.free, rest, trampoline, p);
      procs, users := procs - {p}, users - {p};
    }
  }

  ghost predicate Match(procs: map<nat, Proc>, users: map<nat, User>, trampoline: nat) {
    && procs.Keys == users.Keys
    && forall p | p in users ::
         Top in users[p].sp.at && procs[p] == ProcOf(users[p]) && users[p].trampoline == trampoline
  }

  ghost function ProcOf(u: User): Proc
    requires Top in u.sp.at
  {
    Proc(u.trapframe, u.sp.at[Top], u.sz)
  }

  lemma UndisturbedFacts(m0: Memory, users0: map<nat, User>, m1: Memory, users1: map<nat, User>, p: nat, q: nat)
    requires Undisturbed(m0, users0, m1, users1, p) && q in users0 && q != p
    ensures q in users1 && users1[q] == users0[q]
    ensures Image(m1, users1[q]) == Image(m0, users0[q]) && Saved(m1, users1[q]) == Saved(m0, users0[q])
  {
  }

  lemma MovedSet(m0: Memory, f0: seq<nat>, part0: set<nat>, m1: Memory, f1: seq<nat>, part1: set<nat>)
    requires Moved(m0, f0, part0, m1, f1, part1)
    ensures ToSet(f1) + part1 == ToSet(f0) + part0
  {
  }

  lemma MovedNothing(m0: Memory, free: seq<nat>, m1: Memory, part: set<nat>, a: nat)
    requires a in part && a in m0 && a in m1 && m1 == m0[a := m1[a]]
    ensures Moved(m0, free, part, m1, free, part)
  {
  }

  lemma StoreFrame(m0: Memory, range: Range, head: nat, free: seq<nat>, m1: Memory, a: nat)
    requires FreeList(m0, range, head, free) && a in m0 && a in m1 && a !in free && m1 == m0[a := m1[a]]
    ensures FreeList(m1, range, head, free)
  {
    FreeInMemory(m0, range, head, free);
    FreeListFrame(m0, m1, range, head, free);
  }

  /** How many pages a process of `n` user pages takes: those, its trapframe and root, and tables. */
  function ForkPages(n: nat): nat {
    4 + n + |Needed(0, n) - ({Top} + Path(MAXVPN - 1))|
  }

  lemma ForkNeeds(n: nat, free: seq<nat>)
    ensures |free| < 4 ==> ForkPages(n) > |free|
  {
    hide Needed, Path;
  }

  lemma ForkMissing(sp: Space, n: nat)
    requires sp.at.Keys == {Top} + Path(MAXVPN - 1)
    ensures ForkPages(n) == 4 + n + |Missing(sp, 0, n)|
  {
    hide Needed, Path;
  }

  /** The child of a fork has no page in common with its parent, and maps none. */
  lemma ForkReady(mem: Memory, range: Range, free: seq<nat>, users: map<nat, User>, rest: set<nat>, p: nat, np: nat)
    requires World(mem, range, free, users, rest) && p in users && np in users && p != np && users[np].sz == 0
    ensures UserOk(mem, range, free, users[np]) && UserOk(mem, range, free, users[p])
    ensures Held(mem, range, free, users[p].sp) && Held(mem, range, free, users[np].sp)
    ensures users[p].sp.pos.Keys !! users[np].sp.pos.Keys && RoundUp(users[p].sz) <= MAXVPN - 2
    ensures Mapped(mem, users[p].sp, 0, RoundUp(users[p].sz))
    ensures forall v | 0 <= v < RoundUp(users[p].sz) :: Lookup(mem, users[np].sp, v) == 0
    ensures forall v | 0 <= v < RoundUp(users[p].sz) ::
              Freeable(range, free, users[np].sp, PTE2PA(Lookup(mem, users[p].sp, v)))
  {
    hide Lookup, Tree, PTE2PA, Held, MakePte, Pages;
    var n := RoundUp(users[p].sz);
    assert Apart(mem, users, p, np);
    assert UserOk(mem, range, free, users[np]) && UserOk(mem, range, free, users[p]);
    forall v | 0 <= v < n ensures Freeable(range, free, users[np].sp, PTE2PA(Lookup(mem, users[p].sp, v))) {
      InPages(mem, users[p].sp, 0, n, v);
      assert Freeable(range, free, users[p].sp, PTE2PA(Lookup(mem, users[p].sp, v)));
      assert PTE2PA(Lookup(mem, users[p].sp, v)) in Part(mem, users, p);
    }
  }

  /** The copies are what they are copies of. */
  lemma CopiedImage(m0: Memory, range: Range, f0: seq<nat>, u: User, m1: Memory, f1: seq<nat>, v: User, parent: User)
    requires UserOk(m0, range, f0, u) && UserOk(m0, range, f0, parent) && u.sz == 0 && v.sz == parent.sz
    requires Wanted(Originals(m0, parent.sp, RoundUp(v.sz)), RoundUp(v.sz)) && Longer(u, v.sp, RoundUp(v.sz), v)
    requires Fresh(m0, f0, u.sp, m1, range, f1, v.sp, 0, RoundUp(v.sz), Originals(m0, parent.sp, RoundUp(v.sz)))
    ensures Image(m1, v) == Image(m0, parent)
  {
    hide Lookup, Tree, Held, MakePte, Pages, Fresh, PTE2PA;
    var n, want := RoundUp(v.sz), Image(m0, parent);
    GrowImage(m0, range, f0, u, m1, f1, v, n, want);
    forall i | 0 <= i < n ensures WithV(want[i]) == want[i] {
      EntryFlags(m0, range, f0, parent.sp, i);
      OddFlags(Lookup(m0, parent.sp, i));
    }
    assert Image(m0, u) == [];
    assert seq(n, i requires 0 <= i < n => WithV(want[i])) == want;
  }

  lemma OddFlags(pte: nat)
    requires IsValid(pte)
    ensures PteFlags(pte) % 2 == 1
  {
  }

  lemma Same(mem: Memory, users: map<nat, User>, p: nat)
    ensures Undisturbed(mem, users, mem, users, p)
  {
  }

  lemma InSet(x: nat, xs: seq<nat>, ys: seq<nat>)
    requires x !in xs && ToSet(ys) == ToSet(xs)
    ensures x !in ys
  {
    assert x in ys ==> x in ToSet(ys);
  }

  lemma MatchFacts(procs: map<nat, Proc>, users: map<nat, User>, trampoline: nat, p: nat)
    requires Match(procs, users, trampoline)
    ensures p in procs <==> p in users
    ensures p in users ==> Top in users[p].sp.at && procs[p] == ProcOf(users[p]) && users[p].trampoline == trampoline
  {
  }

  /** The world once `p` has what `u` says. */
  lemma WorldWith(m0: Memory, range: Range, f0: seq<nat>, procs: map<nat, Proc>, users: map<nat, User>,
                  m1: Memory, f1: seq<nat>, rest: set<nat>, trampoline: nat, p: nat, u: User)
    requires World(m0, range, f0, users, rest) && Match(procs, users, trampoline)
    requires UserOk(m1, range, f1, u) && Top in u.sp.at && u.trampoline == trampoline
    requires Moved(m0, f0, Part(m0, users, p), m1, f1, Footprint(m1, u))
    ensures World(m1, range, f1, users[p := u], rest) && Match(procs[p := ProcOf(u)], users[p := u], trampoline)
    ensures Undisturbed(m0, users, m1, users[p := u], p)
  {
    hide World, UserOk, Moved, Image, Footprint;
    assert Part(m1, users[p := u], p) == Footprint(m1, u);
    WorldStep(m0, range, f0, users, m1, f1, users[p := u], rest, p);
  }

  /** The world once `p`, if it was there, has gone. */
  lemma WorldWithout(m0: Memory, range: Range, f0: seq<nat>, procs: map<nat, Proc>, users: map<nat, User>,
                     m1: Memory, f1: seq<nat>, rest: set<nat>, trampoline: nat, p: nat)
    requires World(m0, range, f0, users, rest) && Match(procs, users, trampoline)
    requires Moved(m0, f0, Part(m0, users, p), m1, f1, {})
    ensures World(m1, range, f1, users - {p}, rest) && Match(procs - {p}, users - {p}, trampoline)
    ensures Undisturbed(m0, users, m1, users - {p}, p)
  {
    hide World, UserOk, Moved, Image, Footprint;
    assert Part(m1, users - {p}, p) == {};
    WorldStep(m0, range, f0, users, m1, f1, users - {p}, rest, p);
  }

  lemma TrapframeFacts(mem: Memory, range: Range, free: seq<nat>, u: User)
    requires UserOk(mem, range, free, u)
    ensures range.Has(u.trapframe) && u.trapframe !in free && u.trapframe in Footprint(mem, u)
    ensures Held(mem, range, free, u.sp) && Top in u.sp.at && ProcessMap(mem, range, free, u.sp, RoundUp(u.sz))
  {
  }
}
