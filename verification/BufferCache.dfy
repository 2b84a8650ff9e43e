/** The buffer cache of `kernel/bio.c`, together with the disk below it. */
module BufferCache {
  import opened Blocks
  import opened Common
  import opened Counting
  import opened Journal
  import opened LruList

  const NBUF: nat := 30
  /** The one disk of the system; the driver ignores the device number. */
  const ROOTDEV: nat := 1

  datatype Buf = Buf(valid: bool, dev: nat, blockno: nat, refcnt: nat, locked: bool, data: Block) {
    predicate Caches(d: nat, b: nat) {
      dev == d && blockno == b
    }
  }

  /** Everything but the list pointers.  `handles` counts, for each buffer, the `bget` calls not
      yet undone by `brelse`; `logged` holds the blocks pinned by the running transaction with
      the content last logged for them; `stamp` is the time of a buffer's last release. */
  datatype State = State(disk: Disk, bufs: seq<Buf>, handles: seq<nat>, logged: map<nat, Block>,
                         order: seq<nat>, stamp: seq<nat>, clock: nat)
  {
    /** The block as the file system sees it: the disk, overlaid with the running transaction. */
    function Content(b: nat): Block
      requires b < |disk|
    {
      if b in logged then logged[b] else disk[b]
    }

    function Logical(): (d: Disk)
      ensures |d| == |disk|
    {
      seq(|disk|, b requires 0 <= b < |disk| => Content(b))
    }

    predicate Pins(i: nat)
      requires i < |bufs|
    {
      bufs[i].dev == ROOTDEV && bufs[i].blockno in logged
    }

    ghost predicate Sized() {
      |bufs| == |handles| == |stamp| == |order| == NBUF
    }

    /** No block has two buffers. The never used buffers, all at device 0, do not count. */
    ghost predicate Unique() {
      forall i, j | 0 <= i < j < |bufs| ::
        bufs[i].dev != 0 ==> !bufs[j].Caches(bufs[i].dev, bufs[i].blockno)
    }

    ghost predicate Counted(i: nat)
      requires Sized() && i < NBUF
    {
      && bufs[i].refcnt == handles[i] + (if Pins(i) then 1 else 0)
      && (bufs[i].locked ==> handles[i] > 0)
    }

    /** A buffer nobody holds agrees with the block it caches. */
    ghost predicate Faithful(i: nat)
      requires i < |bufs|
    {
      var b := bufs[i];
      b.valid ==>
        && b.dev == ROOTDEV && b.blockno < |disk|
        && (!b.locked ==> b.data == Content(b.blockno))
    }

    ghost predicate InCache(b: nat) {
      exists i | 0 <= i < |bufs| :: bufs[i].Caches(ROOTDEV, b) && bufs[i].valid
    }

    /** The list order is that of the releases, the latest first. */
    ghost predicate Ordered() {
      && (forall i | 0 <= i < |order| :: order[i] < |stamp| && stamp[order[i]] < clock)
      && forall i, j | 0 <= i < j < |order| && order[i] < |stamp| && order[j] < |stamp| ::
           stamp[order[j]] < stamp[order[i]]
    }

    ghost predicate Inv() {
      && Sized() && Unique() && Ordered()
      && (forall i | 0 <= i < NBUF :: Counted(i))
      && (forall i | 0 <= i < NBUF :: Faithful(i))
      && (forall b | b in logged :: b < |disk| && InCache(b))
    }

    /** A holder of the buffer, after `bread`, may use its data. */
    ghost predicate Held(i: nat) {
      && |bufs| == NBUF && i < NBUF && bufs[i].locked && bufs[i].valid
      && bufs[i].dev == ROOTDEV && bufs[i].blockno < |disk|
    }

    // The steps of bio.c on the buffers.

    function Hit(i: nat): State
      requires i < |bufs| == |handles|
    {
      this.(bufs := bufs[i := bufs[i].(refcnt := bufs[i].refcnt + 1)],
            handles := handles[i := handles[i] + 1])
    }

    function Recycle(i: nat, dev: nat, blockno: nat): State
      requires i < |bufs| == |handles|
    {
      this.(bufs := bufs[i := bufs[i].(dev := dev, blockno := blockno, valid := false, refcnt := 1)],
            handles := handles[i := handles[i] + 1])
    }

    function Lock(i: nat): State
      requires i < |bufs|
    {
      this.(bufs := bufs[i := bufs[i].(locked := true)])
    }

    function Fill(i: nat): State
      requires i < |bufs| && bufs[i].blockno < |disk|
    {
      this.(bufs := bufs[i := bufs[i].(valid := true, data := disk[bufs[i].blockno])])
    }

    function Modify(i: nat, data: Block): State
      requires i < |bufs|
    {
      this.(bufs := bufs[i := bufs[i].(data := data)])
    }

    function WriteOut(i: nat): State
      requires i < |bufs|
    {
      this.(disk := ApplyOne(disk, Write(bufs[i].blockno, bufs[i].data)))
    }

    function Release(i: nat, at: nat): State
      requires i < |bufs| && i < |handles| && i < |stamp| && at < |order|
      requires bufs[i].refcnt > 0 && handles[i] > 0
    {
      var s := this.(bufs := bufs[i := bufs[i].(refcnt := bufs[i].refcnt - 1, locked := false)],
                     handles := handles[i := handles[i] - 1]);
      if bufs[i].refcnt > 1 then s
      else s.(order := [i] + Without(order, at), stamp := stamp[i := clock], clock := clock + 1)
    }

    function Pin(i: nat): State
      requires i < |bufs|
    {
      this.(bufs := bufs[i := bufs[i].(refcnt := bufs[i].refcnt + 1)],
            logged := logged[bufs[i].blockno := bufs[i].data])
    }

    /** A block logged again keeps its pin. */
    function Relog(i: nat): State
      requires i < |bufs|
    {
      this.(logged := logged[bufs[i].blockno := bufs[i].data])
    }

    function Unpin(i: nat): State
      requires i < |bufs| && bufs[i].refcnt > 0
    {
      this.(bufs := bufs[i := bufs[i].(refcnt := bufs[i].refcnt - 1)],
            logged := logged - {bufs[i].blockno})
    }
  }

  // Each step keeps the invariant, and changes what the file system sees only as it says.

  /** Blocks stay in the cache as long as the buffers that pin them keep their identity. */
  lemma StayInCache(s: State, t: State, blocks: set<nat>)
    requires |s.bufs| == |t.bufs| && blocks <= s.logged.Keys
    requires forall b | b in s.logged :: s.InCache(b)
    requires forall k | 0 <= k < |s.bufs| && s.bufs[k].valid && s.Pins(k) ::
      t.bufs[k].valid && t.bufs[k].Caches(s.bufs[k].dev, s.bufs[k].blockno)
    ensures forall b | b in blocks :: t.InCache(b)
  {
    forall b | b in blocks ensures t.InCache(b) {
      var k :| 0 <= k < |s.bufs| && s.bufs[k].Caches(ROOTDEV, b) && s.bufs[k].valid;
      assert s.Pins(k);
    }
  }

  lemma HitKeeps(s: State, i: nat)
    requires s.Inv() && i < NBUF
    ensures s.Hit(i).Inv()
    ensures s.Hit(i).Logical() == s.Logical()
  {
    var t := s.Hit(i);
    StayInCache(s, t, t.logged.Keys);
    forall k | 0 <= k < NBUF ensures t.Counted(k) && t.Faithful(k) {
      assert s.Counted(k) && s.Faithful(k);
    }
  }

  lemma RecycleKeeps(s: State, i: nat, dev: nat, blockno: nat)
    requires s.Inv() && i < NBUF && dev != 0
    requires s.bufs[i].refcnt == 0
    requires forall k | 0 <= k < NBUF :: !s.bufs[k].Caches(dev, blockno)
    ensures s.Recycle(i, dev, blockno).Inv()
    ensures s.Recycle(i, dev, blockno).Logical() == s.Logical()
    ensures !s.bufs[i].locked
  {
    var t := s.Recycle(i, dev, blockno);
    assert s.Counted(i);
    StayInCache(s, t, t.logged.Keys);
    assert dev == ROOTDEV ==> blockno !in s.logged;
    forall k | 0 <= k < NBUF ensures t.Counted(k) && t.Faithful(k) {
      assert s.Counted(k) && s.Faithful(k);
    }
  }

  lemma LockKeeps(s: State, i: nat)
    requires s.Inv() && i < NBUF && s.handles[i] > 0
    ensures s.Lock(i).Inv()
    ensures s.Lock(i).Logical() == s.Logical()
  {
    var t := s.Lock(i);
    StayInCache(s, t, t.logged.Keys);
    forall k | 0 <= k < NBUF ensures t.Counted(k) && t.Faithful(k) {
      assert s.Counted(k) && s.Faithful(k);
    }
  }

  /** A buffer that is not valid caches no pinned block, so the disk has its content. */
  lemma InvalidNotLogged(s: State, i: nat)
    requires s.Inv() && i < NBUF && !s.bufs[i].valid && s.bufs[i].dev == ROOTDEV
    ensures s.bufs[i].blockno !in s.logged
  {
  }

  lemma FillKeeps(s: State, i: nat)
    requires s.Inv() && i < NBUF && !s.bufs[i].valid
    requires s.bufs[i].dev == ROOTDEV && s.bufs[i].blockno < |s.disk|
    ensures s.Fill(i).Inv()
    ensures s.Fill(i).Logical() == s.Logical()
    ensures s.Fill(i).bufs[i].data == s.Content(s.bufs[i].blockno)
  {
    InvalidNotLogged(s, i);
    var t := s.Fill(i);
    StayInCache(s, t, t.logged.Keys);
    forall k | 0 <= k < NBUF ensures t.Counted(k) && t.Faithful(k) {
      assert s.Counted(k) && s.Faithful(k);
    }
  }

  lemma ModifyKeeps(s: State, i: nat, data: Block)
    requires s.Inv() && s.Held(i)
    ensures s.Modify(i, data).Inv() && s.Modify(i, data).Held(i)
    ensures s.Modify(i, data).Logical() == s.Logical()
  {
    var t := s.Modify(i, data);
    StayInCache(s, t, t.logged.Keys);
    forall k | 0 <= k < NBUF ensures t.Counted(k) && t.Faithful(k) {
      assert s.Counted(k) && s.Faithful(k);
    }
  }

  lemma WriteOutKeeps(s: State, i: nat)
    requires s.Inv() && s.Held(i)
    requires s.bufs[i].blockno in s.logged ==> s.logged[s.bufs[i].blockno] == s.bufs[i].data
    ensures s.WriteOut(i).Inv()
    ensures s.WriteOut(i).Logical() == s.Logical()[s.bufs[i].blockno := s.bufs[i].data]
  {
    var t := s.WriteOut(i);
    StayInCache(s, t, t.logged.Keys);
    forall k | 0 <= k < NBUF ensures t.Counted(k) && t.Faithful(k) {
      assert s.Counted(k) && s.Faithful(k);
      assert k != i ==> !s.bufs[k].Caches(ROOTDEV, s.bufs[i].blockno);
    }
  }

  lemma ReleaseKeeps(s: State, i: nat, at: nat)
    requires s.Inv() && s.Held(i)
    requires s.bufs[i].data == s.Content(s.bufs[i].blockno)
    requires at < NBUF && s.order[at] == i
    ensures s.bufs[i].refcnt > 0 && s.handles[i] > 0
    ensures s.Release(i, at).Inv()
    ensures s.Release(i, at).Logical() == s.Logical()
  {
    hide State.Faithful;
    assert s.Counted(i);
    StayInCache(s, s.Release(i, at), s.logged.Keys);
    ReleaseCounts(s, i, at);
    ReleaseOrders(s, i, at);
  }

  lemma ReleaseCounts(s: State, i: nat, at: nat)
    requires s.Inv() && s.Held(i)
    requires s.bufs[i].data == s.Content(s.bufs[i].blockno)
    requires at < NBUF && s.bufs[i].refcnt > 0 && s.handles[i] > 0
    ensures s.Release(i, at).Sized()
    ensures forall k | 0 <= k < NBUF :: s.Release(i, at).Counted(k) && s.Release(i, at).Faithful(k)
  {
    var t := s.Release(i, at);
    forall k | 0 <= k < NBUF ensures t.Counted(k) && t.Faithful(k) {
      assert s.Counted(k) && s.Faithful(k);
    }
  }

  /** Moving the released buffer to the front keeps the list in order of release. */
  lemma ReleaseOrders(s: State, i: nat, at: nat)
    requires s.Sized() && s.Ordered() && i < NBUF && at < NBUF && s.order[at] == i
    requires s.bufs[i].refcnt > 0 && s.handles[i] > 0
    ensures s.Release(i, at).Ordered()
  {
    var t := s.Release(i, at);
    if s.bufs[i].refcnt == 1 {
      forall a | 0 < a < |t.order| ensures t.order[a] == s.order[if a <= at then a - 1 else a] {
      }
    }
  }

  lemma PinKeeps(s: State, i: nat)
    requires s.Inv() && s.Held(i) && s.bufs[i].blockno !in s.logged
    ensures s.Pin(i).Inv()
  {
    hide State.Counted, State.Faithful;
    var t := s.Pin(i);
    var blockno := s.bufs[i].blockno;
    StayInCache(s, t, s.logged.Keys);
    assert t.bufs[i].Caches(ROOTDEV, blockno) && t.bufs[i].valid;
    PinCounts(s, i);
  }

  lemma PinShows(s: State, i: nat)
    requires s.Held(i)
    ensures s.Pin(i).Logical() == s.Logical()[s.bufs[i].blockno := s.bufs[i].data]
  {
  }

  lemma PinCounts(s: State, i: nat)
    requires s.Inv() && s.Held(i) && s.bufs[i].blockno !in s.logged
    ensures forall k | 0 <= k < NBUF :: s.Pin(i).Counted(k) && s.Pin(i).Faithful(k)
  {
    var t := s.Pin(i);
    forall k | 0 <= k < NBUF ensures t.Counted(k) && t.Faithful(k) {
      assert s.Counted(k) && s.Faithful(k);
      assert k != i ==> !s.bufs[k].Caches(ROOTDEV, s.bufs[i].blockno);
    }
  }

  lemma RelogKeeps(s: State, i: nat)
    requires s.Inv() && s.Held(i) && s.bufs[i].blockno in s.logged
    ensures s.Relog(i).Inv()
    ensures s.Relog(i).Logical() == s.Logical()[s.bufs[i].blockno := s.bufs[i].data]
  {
    var t := s.Relog(i);
    StayInCache(s, t, t.logged.Keys);
    forall k | 0 <= k < NBUF ensures t.Counted(k) && t.Faithful(k) {
      assert s.Counted(k) && s.Faithful(k);
      assert k != i ==> !s.bufs[k].Caches(ROOTDEV, s.bufs[i].blockno);
    }
  }

  /** Once the logged content is on disk at its home, the pin can go. */
  lemma UnpinKeeps(s: State, i: nat)
    requires s.Inv() && s.Held(i) && s.bufs[i].blockno in s.logged
    requires s.disk[s.bufs[i].blockno] == s.logged[s.bufs[i].blockno]
    ensures s.bufs[i].refcnt > 0
    ensures s.Unpin(i).Inv() && s.Unpin(i).Held(i)
    ensures s.Unpin(i).Logical() == s.Logical()
  {
    assert s.Counted(i);
    var t := s.Unpin(i);
    StayInCache(s, t, t.logged.Keys);
    forall k | 0 <= k < NBUF ensures t.Counted(k) && t.Faithful(k) {
      assert s.Counted(k) && s.Faithful(k);
      assert k != i ==> !s.bufs[k].Caches(ROOTDEV, s.bufs[i].blockno);
    }
  }

  // Room in the cache.

  /** `bget` panics: the block is not cached and every buffer is in use. */
  ghost predicate NoRoom(s: State, dev: nat, blockno: nat) {
    forall i | 0 <= i < |s.bufs| :: s.bufs[i].refcnt > 0 && !s.bufs[i].Caches(dev, blockno)
  }

  /** Distinct buffers that pin blocks pin distinct ones. */
  lemma {:induction false} PinnedAtMost(s: State, pinned: set<nat>, blocks: set<nat>)
    requires s.Sized() && s.Unique()
    requires forall i | i in pinned :: i < NBUF && s.bufs[i].dev == ROOTDEV && s.bufs[i].blockno in blocks
    ensures |pinned| <= |blocks|
    decreases pinned
  {
    if pinned != {} {
      var i :| i in pinned;
      forall k | k in pinned - {i} ensures s.bufs[k].blockno in blocks - {s.bufs[i].blockno} {
        assert k < i || i < k;
      }
      PinnedAtMost(s, pinned - {i}, blocks - {s.bufs[i].blockno});
    }
  }

  lemma SomeUnpinned(s: State, others: set<nat>) returns (i: nat)
    requires s.Sized() && s.Unique()
    requires forall k | k in others :: k < NBUF
    requires |s.logged.Keys| < |others|
    ensures i in others && !s.Pins(i)
  {
    if forall k | k in others :: s.Pins(k) {
      PinnedAtMost(s, others, s.logged.Keys);
    }
    i :| i in others && !s.Pins(i);
  }

  /** With fewer held and pinned buffers than buffers, `bget` finds one. */
  lemma Room(s: State, held: set<nat>, dev: nat, blockno: nat)
    requires s.Inv()
    requires forall i | 0 <= i < NBUF && s.handles[i] > 0 :: i in held
    requires forall i | i in held :: i < NBUF
    requires |held| + |s.logged.Keys| < NBUF
    ensures !NoRoom(s, dev, blockno)
  {
    var others := Others(|s.bufs|, held);
    var i := SomeUnpinned(s, others);
    assert s.Counted(i);
  }

  class Cache {
    var disk: Disk
    /** All the writes the disk has received, in order. */
    ghost var trace: seq<Write>
    var bufs: seq<Buf>
    var next: seq<nat>
    var prev: seq<nat>
    ghost var order: seq<nat>
    ghost var stamp: seq<nat>
    ghost var clock: nat
    ghost var handles: seq<nat>
    ghost var logged: map<nat, Block>

    ghost function Now(): State
      reads this
    {
      State(disk, bufs, handles, logged, order, stamp, clock)
    }

    ghost predicate Valid()
      reads this
    {
      Now().Inv() && IsRing(next, prev, NBUF, order)
    }

    /** `binit`, on a machine whose disk has the given content. */
    constructor (disk: Disk)
      ensures Valid() && trace == [] && logged == map[] && this.disk == disk
      ensures forall i | 0 <= i < NBUF :: handles[i] == 0
      ensures Now().Logical() == disk
    {
      this.disk := disk;
      trace, logged := [], map[];
      bufs := seq(NBUF, _ => Buf(false, 0, 0, 0, false, ZeroBlock()));
      handles := seq(NBUF, _ => 0);
      var n: seq<nat>, p: seq<nat> := seq(NBUF + 1, _ => NBUF), seq(NBUF + 1, _ => NBUF);
      ghost var o: seq<nat> := [];
      var b := 0;
      while b < NBUF
        invariant 0 <= b <= NBUF && |o| == b
        invariant IsRing(n, p, NBUF, o)
        invariant forall i | 0 <= i < b :: o[i] == b - 1 - i
      {
        PushFrontKeepsRing(n, p, NBUF, o, b);
        n, p := n[b := n[NBUF]][NBUF := b], p[b := NBUF][n[NBUF] := b];
        o := [b] + o;
        b := b + 1;
      }
      next, prev, order := n, p, o;
      stamp := seq(NBUF, i => i);
      clock := NBUF;
    }

    /** The first loop of `bget`: from the most recently released buffer on. */
    method FindCached(dev: nat, blockno: nat) returns (r: Option<nat>)
      requires Valid()
      ensures r.None? ==> forall i | 0 <= i < NBUF :: !bufs[i].Caches(dev, blockno)
      ensures r.Some? ==> r.value < NBUF && bufs[r.value].Caches(dev, blockno)
    {
      var b := next[NBUF];
      ghost var k := 0;
      assert Linked(next, prev, NBUF, order, 0);
      while b != NBUF
        invariant 0 <= k <= NBUF && b == At(NBUF, order, k + 1)
        invariant forall i | 0 <= i < k :: !bufs[order[i]].Caches(dev, blockno)
        decreases NBUF - k
      {
        if bufs[b].dev == dev && bufs[b].blockno == blockno {
          return Some(b);
        }
        k := k + 1;
        assert Linked(next, prev, NBUF, order, k);
        b := next[b];
      }
      OrderCovers(Now(), next, prev, dev, blockno);
      return None;
    }

    /** The second loop of `bget`: the unreferenced buffer that was released longest ago. */
    method FindFree() returns (r: Option<nat>)
      requires Valid()
      ensures r.None? ==> forall i | 0 <= i < NBUF :: bufs[i].refcnt > 0
      ensures r.Some? ==> r.value < NBUF && bufs[r.value].refcnt == 0
      ensures r.Some? ==> forall i | 0 <= i < NBUF && i != r.value && bufs[i].refcnt == 0 ::
                            stamp[r.value] < stamp[i]
    {
      var b := prev[NBUF];
      ghost var k := |order|;
      assert Linked(next, prev, NBUF, order, k);
      while b != NBUF
        invariant 0 <= k <= NBUF && b == At(NBUF, order, k)
        invariant forall i | k <= i < NBUF :: bufs[order[i]].refcnt > 0
        decreases k
      {
        if bufs[b].refcnt == 0 {
          OldestFree(Now(), next, prev, k - 1);
          return Some(b);
        }
        k := k - 1;
        assert Linked(next, prev, NBUF, order, k);
        b := prev[b];
      }
      AllInUse(Now(), next, prev);
      return None;
    }

    /** The block's buffer, or the unreferenced buffer released longest ago, made to stand for
        the block; `None` is the panic "bget: no buffers".  The caller has still to wait for
        the buffer's sleep lock. */
    method Bget(dev: nat, blockno: nat) returns (r: Option<nat>)
      requires Valid() && dev != 0
      modifies this`bufs, this`handles
      ensures Valid()
      ensures r.None? <==> NoRoom(old(Now()), dev, blockno)
      ensures r.None? ==> Now() == old(Now())
      ensures r.Some? ==>
        && r.value < NBUF && bufs[r.value].Caches(dev, blockno)
        && (if old(bufs)[r.value].Caches(dev, blockno) then Now() == old(Now()).Hit(r.value)
            else
              && old(bufs)[r.value].refcnt == 0
              && (forall i | 0 <= i < NBUF && i != r.value && old(bufs)[i].refcnt == 0 ::
                    stamp[r.value] < stamp[i])
              && Now() == old(Now()).Recycle(r.value, dev, blockno))
      ensures Now().Logical() == old(Now()).Logical()
    {
      r := FindCached(dev, blockno);
      if r.Some? {
        var b := r.value;
        HitKeeps(Now(), b);
        bufs := bufs[b := bufs[b].(refcnt := bufs[b].refcnt + 1)];
        handles := handles[b := handles[b] + 1];
        return;
      }
      r := FindFree();
      if r.Some? {
        var b := r.value;
        RecycleKeeps(Now(), b, dev, blockno);
        bufs := bufs[b := bufs[b].(dev := dev, blockno := blockno, valid := false, refcnt := 1)];
        handles := handles[b := handles[b] + 1];
      }
    }

    /** `acquiresleep(&b->lock)`, once the lock is free. */
    method Acquire(b: nat)
      requires Valid() && b < NBUF && handles[b] > 0 && !bufs[b].locked
      modifies this`bufs
      ensures Valid() && Now() == old(Now()).Lock(b)
      ensures Now().Logical() == old(Now()).Logical()
    {
      LockKeeps(Now(), b);
      bufs := bufs[b := bufs[b].(locked := true)];
    }

    /** `virtio_disk_rw(b, 0); b->valid = 1`. */
    method ReadIn(b: nat)
      requires Valid() && b < NBUF && bufs[b].locked && !bufs[b].valid
      requires bufs[b].dev == ROOTDEV && bufs[b].blockno < |disk|
      modifies this`bufs
      ensures Valid() && Now() == old(Now()).Fill(b)
      ensures bufs[b].data == Now().Content(bufs[b].blockno)
      ensures Now().Logical() == old(Now()).Logical()
    {
      FillKeeps(Now(), b);
      bufs := bufs[b := bufs[b].(valid := true, data := disk[bufs[b].blockno])];
    }

    /** A locked buffer with the content of the block, provided nobody else holds it locked.
        Whatever is cached or pinned, that content is the file system's current one. */
    method Bread(dev: nat, blockno: nat) returns (r: Option<nat>)
      requires Valid() && dev == ROOTDEV && blockno < |disk|
      requires forall i | 0 <= i < NBUF && bufs[i].Caches(dev, blockno) :: !bufs[i].locked
      modifies this`bufs, this`handles
      ensures Valid()
      ensures r.None? <==> NoRoom(old(Now()), dev, blockno)
      ensures r.None? ==> Now() == old(Now())
      ensures r.Some? ==>
        && Now().Held(r.value) && bufs[r.value].blockno == blockno
        && bufs[r.value].data == old(Now()).Content(blockno)
        && !old(bufs)[r.value].locked
        && (old(bufs)[r.value].Caches(dev, blockno) || old(handles)[r.value] == 0)
        && bufs == old(bufs)[r.value := bufs[r.value]]
        && handles == old(handles)[r.value := old(handles)[r.value] + 1]
      ensures Now().Logical() == old(Now()).Logical()
    {
      r := Bget(dev, blockno);
      if r.Some? {
        var b := r.value;
        assert old(Now()).Counted(b) && Now().Counted(b) && Now().Faithful(b);
        Acquire(b);
        if !bufs[b].valid {
          ReadIn(b);
        }
      }
    }

    /** A holder changes the buffer's data. */
    method Update(b: nat, data: Block)
      requires Valid() && Now().Held(b)
      modifies this`bufs
      ensures Valid() && Now() == old(Now()).Modify(b, data) && Now().Held(b)
      ensures Now().Logical() == old(Now()).Logical()
    {
      ModifyKeeps(Now(), b, data);
      bufs := bufs[b := bufs[b].(data := data)];
    }

    method Bwrite(b: nat)
      requires Valid() && Now().Held(b)
      requires bufs[b].blockno in logged ==> logged[bufs[b].blockno] == bufs[b].data
      modifies this`disk, this`trace
      ensures Valid() && Now() == old(Now()).WriteOut(b) && Now().Held(b)
      ensures trace == old(trace) + [Write(bufs[b].blockno, bufs[b].data)]
      ensures Now().Logical() == old(Now()).Logical()[bufs[b].blockno := bufs[b].data]
    {
      WriteOutKeeps(Now(), b);
      trace := trace + [Write(bufs[b].blockno, bufs[b].data)];
      disk := disk[bufs[b].blockno := bufs[b].data];
    }

    /** The last holder to release a buffer moves it to the front of the list. The data must
        have been written or logged if it was changed. */
    method Brelse(b: nat)
      requires Valid() && Now().Held(b)
      requires bufs[b].data == Now().Content(bufs[b].blockno)
      modifies this`bufs, this`handles, this`next, this`prev, this`order, this`stamp, this`clock
      ensures Valid()
      ensures old(bufs[b].refcnt) > 0 && old(handles[b]) > 0
      ensures bufs == old(bufs)[b := old(bufs)[b].(refcnt := old(bufs)[b].refcnt - 1, locked := false)]
      ensures handles == old(handles)[b := old(handles)[b] - 1]
      ensures exists at | 0 <= at < NBUF && old(order)[at] == b :: Now() == old(Now()).Release(b, at)
      ensures Now().Logical() == old(Now()).Logical()
    {
      OrderComplete(order, |order|, b);
      ghost var at :| 0 <= at < |order| && order[at] == b;
      ReleaseKeeps(Now(), b, at);
      ghost var after := Now().Release(b, at);
      bufs := bufs[b := bufs[b].(refcnt := bufs[b].refcnt - 1, locked := false)];
      handles := handles[b := handles[b] - 1];
      if bufs[b].refcnt == 0 {
        MoveToFront(b, at);
        stamp, clock := stamp[b := clock], clock + 1;
      }
      assert Now() == after;
    }

    /** The six pointer assignments of `brelse`. */
    method MoveToFront(b: nat, ghost at: nat)
      requires IsRing(next, prev, NBUF, order) && at < |order| && order[at] == b
      modifies this`next, this`prev, this`order
      ensures IsRing(next, prev, NBUF, order)
      ensures order == [b] + Without(old(order), at)
    {
      UnlinkKeepsRing(next, prev, NBUF, order, at);
      prev := prev[next[b] := prev[b]];
      next := next[prev[b] := next[b]];
      order := Without(order, at);
      PushFrontKeepsRing(next, prev, NBUF, order, b);
      next := next[b := next[NBUF]];
      prev := prev[b := NBUF];
      prev := prev[next[NBUF] := b];
      next := next[NBUF := b];
      order := [b] + order;
    }

    method Bpin(b: nat)
      requires Valid() && Now().Held(b) && bufs[b].blockno !in logged
      modifies this`bufs, this`logged
      ensures Valid() && Now() == old(Now()).Pin(b) && Now().Held(b)
      ensures Now().Logical() == old(Now()).Logical()[bufs[b].blockno := bufs[b].data]
    {
      PinKeeps(Now(), b);
      PinShows(Now(), b);
      logged := logged[bufs[b].blockno := bufs[b].data];
      bufs := bufs[b := bufs[b].(refcnt := bufs[b].refcnt + 1)];
    }

    ghost method Absorb(b: nat)
      requires Valid() && Now().Held(b) && bufs[b].blockno in logged
      modifies this`logged
      ensures Valid() && Now() == old(Now()).Relog(b) && Now().Held(b)
      ensures Now().Logical() == old(Now()).Logical()[bufs[b].blockno := bufs[b].data]
    {
      RelogKeeps(Now(), b);
      logged := logged[bufs[b].blockno := bufs[b].data];
    }

    method Bunpin(b: nat)
      requires Valid() && Now().Held(b) && bufs[b].blockno in logged
      requires disk[bufs[b].blockno] == logged[bufs[b].blockno]
      modifies this`bufs, this`logged
      ensures Valid() && old(bufs[b].refcnt) > 0
      ensures Now() == old(Now()).Unpin(b) && Now().Held(b)
      ensures Now().Logical() == old(Now()).Logical()
    {
      UnpinKeeps(Now(), b);
      logged := logged - {bufs[b].blockno};
      bufs := bufs[b := bufs[b].(refcnt := bufs[b].refcnt - 1)];
    }
  }

  lemma OrderCovers(s: State, next: seq<nat>, prev: seq<nat>, dev: nat, blockno: nat)
    requires s.Inv() && IsRing(next, prev, NBUF, s.order)
    requires forall i | 0 <= i < NBUF :: !s.bufs[s.order[i]].Caches(dev, blockno)
    ensures forall b | 0 <= b < NBUF :: !s.bufs[b].Caches(dev, blockno)
  {
    forall b | 0 <= b < NBUF ensures !s.bufs[b].Caches(dev, blockno) {
      OrderComplete(s.order, NBUF, b);
    }
  }

  lemma AllInUse(s: State, next: seq<nat>, prev: seq<nat>)
    requires s.Inv() && IsRing(next, prev, NBUF, s.order)
    requires forall i | 0 <= i < NBUF :: s.bufs[s.order[i]].refcnt > 0
    ensures forall b | 0 <= b < NBUF :: s.bufs[b].refcnt > 0
  {
    forall b | 0 <= b < NBUF ensures s.bufs[b].refcnt > 0 {
      OrderComplete(s.order, NBUF, b);
    }
  }

  /** The last free buffer of the list is the one released longest ago. */
  lemma OldestFree(s: State, next: seq<nat>, prev: seq<nat>, k: nat)
    requires s.Inv() && IsRing(next, prev, NBUF, s.order) && k < NBUF
    requires forall i | k < i < NBUF :: s.bufs[s.order[i]].refcnt > 0
    ensures forall b | 0 <= b < NBUF && b != s.order[k] && s.bufs[b].refcnt == 0 ::
              s.stamp[s.order[k]] < s.stamp[b]
  {
    forall b | 0 <= b < NBUF && b != s.order[k] && s.bufs[b].refcnt == 0
      ensures s.stamp[s.order[k]] < s.stamp[b]
    {
      OrderComplete(s.order, NBUF, b);
    }
  }
}
