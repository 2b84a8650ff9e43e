/** The split virtqueue that the driver of `kernel/virtio_disk.c` shares with the device (sections 2.6
    and 5.2 of VIRTIO 1.1), and what the driver keeps beside it. */
module VirtqueueState {
  import opened Common
  import opened Counting

  const NUM := 8
  const WRAP := 0x1_0000
  const BSIZE := 1024
  const NO_STATUS := 0xff

  type Index = i: int | 0 <= i < WRAP
  type BufId = nat
  type Data = seq<nat>

  /** What the address of a descriptor points to. */
  datatype Addr = Null | Op(i: nat) | BufData(b: BufId) | Status(i: nat)

  datatype Desc = Desc(addr: Addr, len: nat, more: bool, write: bool, next: nat)

  const UNUSED := Desc(Null, 0, false, false, 0)

  datatype Info = Info(b: Option<BufId>, status: nat)

  datatype Req = Req(write: bool, sector: nat)

  /** Where a request is on its way: in the avail ring, with the device, in the used ring, or seen by
      the interrupt handler. */
  datatype Phase = Published | Processing | Completed | Done

  datatype Request = Request(b: BufId, blockno: nat, write: bool, d1: nat, d2: nat, phase: Phase)

  function Sector(blockno: nat): nat {
    blockno * (BSIZE / 512) % 0x1_0000_0000
  }

  function Slot(i: nat): (k: nat)
    ensures k < NUM
  {
    i % NUM
  }

  function Bump(i: Index): Index {
    (i + 1) % WRAP
  }

  ghost predicate Entry(ring: seq<nat>, first: Index, heads: seq<nat>, k: nat)
    requires |ring| == NUM && k < |heads|
  {
    ring[Slot(first + k)] == heads[k]
  }

  /** The live entries of a ring lie between two free-running 16-bit indices. */
  ghost predicate RingIs(ring: seq<nat>, first: Index, last: Index, heads: seq<nat>) {
    && |ring| == NUM
    && last == (first + |heads|) % WRAP
    && forall k | 0 <= k < |heads| :: Entry(ring, first, heads, k)
  }

  lemma SlotOfIndex(i: nat)
    ensures Slot(i % WRAP) == Slot(i)
  {
    assert i == WRAP * (i / WRAP) + i % WRAP;
    assert WRAP * (i / WRAP) == NUM * (8192 * (i / WRAP));
  }

  lemma SlotsDiffer(i: nat, j: nat)
    requires i < j < i + NUM
    ensures Slot(i) != Slot(j)
  {
  }

  /** Adding an entry overwrites no live one. */
  lemma PushRing(ring: seq<nat>, first: Index, last: Index, heads: seq<nat>, h: nat)
    requires RingIs(ring, first, last, heads) && |heads| < NUM
    ensures RingIs(ring[Slot(last) := h], first, Bump(last), heads + [h])
  {
    hide Slot;
    SlotOfIndex(first + |heads|);
    var r := ring[Slot(last) := h];
    forall k | 0 <= k < |heads + [h]| ensures Entry(r, first, heads + [h], k) {
      if k < |heads| {
        assert Entry(ring, first, heads, k);
        SlotsDiffer(first + k, first + |heads|);
      }
    }
  }

  lemma PopRing(ring: seq<nat>, first: Index, last: Index, heads: seq<nat>)
    requires RingIs(ring, first, last, heads) && heads != []
    ensures RingIs(ring, Bump(first), last, heads[1..])
    ensures ring[Slot(first)] == heads[0]
  {
    hide Slot;
    assert Entry(ring, first, heads, 0);
    forall k | 0 <= k < |heads[1..]| ensures Entry(ring, Bump(first), heads[1..], k) {
      SlotOfIndex(first + 1);
      SlotPlus(Bump(first), first + 1, k);
      assert Entry(ring, first, heads, k + 1);
    }
  }

  lemma SlotPlus(i: nat, j: nat, k: nat)
    requires Slot(i) == Slot(j)
    ensures Slot(i + k) == Slot(j + k)
  {
  }

  /** Fewer entries than indices: equal indices mean an empty ring. */
  lemma EmptyIff(ring: seq<nat>, first: Index, last: Index, heads: seq<nat>)
    requires RingIs(ring, first, last, heads) && |heads| < WRAP
    ensures first == last <==> heads == []
  {
  }

  /** Driver, device and shared memory.  `inflight` are the requests by head descriptor, `own` the head
      of the chain each descriptor is in, `pend` and `fin` the live entries of the two rings. */
  datatype State = State(
    free: seq<bool>, desc: seq<Desc>, info: seq<Info>, ops: seq<Req>,
    avail: seq<nat>, availIdx: Index, used: seq<nat>, usedIdx: Index,
    seenIdx: Index, devIdx: Index, busy: set<BufId>,
    inflight: map<nat, Request>, own: map<nat, nat>, pend: seq<nat>, fin: seq<nat>)
  {
    predicate Shape() {
      && |free| == |desc| == |info| == |ops| == |avail| == |used| == NUM
      && forall i | i in own :: 0 <= i < NUM
    }

    /** The chain of three descriptors for a request, as the device will read it. */
    ghost predicate Formatted(h: nat)
      requires Shape() && h in inflight
    {
      var q := inflight[h];
      && h < NUM && q.d1 < NUM && q.d2 < NUM && h != q.d1 && h != q.d2 && q.d1 != q.d2
      && desc[h] == Desc(Op(h), 16, true, false, q.d1)
      && desc[q.d1] == Desc(BufData(q.b), BSIZE, true, !q.write, q.d2)
      && desc[q.d2] == Desc(Status(h), 1, false, true, 0)
      && ops[h] == Req(q.write, Sector(q.blockno))
      && info[h].b == Some(q.b)
      && (q.phase.Published? || q.phase.Processing? ==> info[h].status == NO_STATUS)
      && (q.phase.Done? ==> info[h].status == 0)
    }

    ghost predicate Holds(h: nat)
      requires h in inflight
    {
      var q := inflight[h];
      h in own && q.d1 in own && q.d2 in own && own[h] == own[q.d1] == own[q.d2] == h
    }

    ghost predicate OwnOk(i: nat)
      requires i in own
    {
      own[i] in inflight && var q := inflight[own[i]]; i == own[i] || i == q.d1 || i == q.d2
    }

    /** Descriptors are free or in exactly one chain of three. */
    ghost predicate Descriptors()
      requires Shape()
    {
      && (forall i | 0 <= i < NUM :: (free[i] <==> i !in own) && (free[i] ==> desc[i] == UNUSED))
      && (forall i | i in own :: OwnOk(i))
      && (forall h | h in inflight :: Holds(h) && Formatted(h))
    }

    /** One request per buffer, which is with the driver again once the completion was seen. */
    ghost predicate Buffers() {
      && (forall h, g | h in inflight && g in inflight && inflight[h].b == inflight[g].b :: h == g)
      && (forall h | h in inflight :: inflight[h].b in busy <==> !inflight[h].phase.Done?)
      && (forall b | b in busy :: InFlight(b))
    }

    ghost predicate InFlight(b: BufId) {
      exists h :: h in inflight && inflight[h].b == b
    }

    /** The heads in a ring are the requests in that phase. */
    ghost predicate Queued(heads: seq<nat>, phase: Phase) {
      && Distinct(heads)
      && (forall k | 0 <= k < |heads| :: heads[k] in inflight && inflight[heads[k]].phase == phase)
      && (forall h | h in inflight && inflight[h].phase == phase :: h in heads)
    }

    ghost predicate Rings()
      requires Shape()
    {
      && Queued(pend, Published) && Queued(fin, Completed)
      && RingIs(avail, devIdx, availIdx, pend)
      && RingIs(used, seenIdx, usedIdx, fin)
    }

    /** `virtio_disk_rw` up to its notice to the device. */
    function Submit(i0: nat, i1: nat, i2: nat, b: BufId, blockno: nat, w: bool): State
      requires Shape() && i0 < NUM && i1 < NUM && i2 < NUM
    {
      State(free[i0 := false][i1 := false][i2 := false],
            desc[i0 := Desc(Op(i0), 16, true, false, i1)]
                [i1 := Desc(BufData(b), BSIZE, true, !w, i2)]
                [i2 := Desc(Status(i0), 1, false, true, 0)],
            info[i0 := Info(Some(b), NO_STATUS)],
            ops[i0 := Req(w, Sector(blockno))],
            avail[Slot(availIdx) := i0], Bump(availIdx), used, usedIdx, seenIdx, devIdx, busy + {b},
            inflight[i0 := Request(b, blockno, w, i1, i2, Published)],
            own[i0 := i0][i1 := i0][i2 := i0], pend + [i0], fin)
    }

    function Phased(h: nat, p: Phase): map<nat, Request>
      requires h in inflight
    {
      inflight[h := inflight[h].(phase := p)]
    }

    /** The device takes the next entry of the avail ring. */
    function Pop(): State
      requires Shape() && pend != [] && pend[0] in inflight
    {
      this.(devIdx := Bump(devIdx), inflight := Phased(pend[0], Processing), pend := pend[1..])
    }

    /** The device has done a request and enters it in the used ring. */
    function Complete(h: nat, status: nat): State
      requires Shape() && h in inflight && h < NUM
    {
      this.(info := info[h := info[h].(status := status)],
            used := used[Slot(usedIdx) := h], usedIdx := Bump(usedIdx),
            inflight := Phased(h, Completed), fin := fin + [h])
    }

    /** The interrupt handler takes the next entry of the used ring. */
    function Consume(): State
      requires Shape() && fin != [] && fin[0] in inflight
    {
      this.(seenIdx := Bump(seenIdx), busy := busy - {inflight[fin[0]].b},
            inflight := Phased(fin[0], Done), fin := fin[1..])
    }

    /** The end of `virtio_disk_rw`. */
    function Release(h: nat): State
      requires Shape() && h in inflight && h < NUM && inflight[h].d1 < NUM && inflight[h].d2 < NUM
    {
      var q := inflight[h];
      this.(free := free[h := true][q.d1 := true][q.d2 := true],
            desc := desc[h := UNUSED][q.d1 := UNUSED][q.d2 := UNUSED],
            info := info[h := info[h].(b := None)],
            inflight := inflight - {h}, own := own - {h, q.d1, q.d2})
    }

    ghost predicate Inv() {
      Shape() && Descriptors() && Buffers() && Rings()
    }
  }

  lemma ChainFacts(s: State, h: nat)
    requires s.Inv() && h in s.inflight
    ensures s.Shape() && s.Holds(h) && s.Formatted(h)
  {
  }

  lemma FreeFacts(s: State, i: nat)
    requires s.Inv() && i < NUM
    ensures s.Shape() && (s.free[i] <==> i !in s.own) && (s.free[i] ==> s.desc[i] == UNUSED)
  {
  }

  /** Heads in a ring are fewer than the descriptors, if there is another that is not among them. */
  lemma RingRoom(s: State, heads: seq<nat>, p: Phase, i: nat)
    requires s.Inv() && s.Queued(heads, p) && i < NUM && i !in heads
    ensures |heads| < NUM
  {
    hide State.Inv, Below, State.Formatted, State.Holds;
    forall k | 0 <= k < |heads| ensures heads[k] in Below(NUM) - {i} {
      DoneFacts(s, heads[k]);
      assert heads[k] in heads;
    }
    Pigeonhole(heads, Below(NUM) - {i});
  }

  lemma RingSize(s: State, heads: seq<nat>, p: Phase)
    requires s.Inv() && s.Queued(heads, p)
    ensures |heads| <= NUM
  {
    hide State.Inv, Below, State.Formatted, State.Holds;
    forall k | 0 <= k < |heads| ensures heads[k] in Below(NUM) {
      DoneFacts(s, heads[k]);
    }
    Pigeonhole(heads, Below(NUM));
  }

  // Submitting.

  ghost predicate CanSubmit(s: State, i0: nat, i1: nat, i2: nat, b: BufId) {
    && s.Inv() && i0 < NUM && i1 < NUM && i2 < NUM && i0 != i1 && i0 != i2 && i1 != i2
    && s.free[i0] && s.free[i1] && s.free[i2] && !s.InFlight(b)
  }

  /** The other requests keep their descriptors. */
  lemma SubmitOther(s: State, i0: nat, i1: nat, i2: nat, b: BufId, blockno: nat, w: bool, h: nat)
    requires CanSubmit(s, i0, i1, i2, b) && h in s.inflight
    ensures
      var r := s.Submit(i0, i1, i2, b, blockno, w);
      h != i0 && r.Shape() && r.inflight[h] == s.inflight[h] && r.Holds(h) && r.Formatted(h)
  {
    hide State.Inv, State.OwnOk, Slot, Bump, Sector;
    ChainFacts(s, h);
    FreeFacts(s, i0);
    FreeFacts(s, i1);
    FreeFacts(s, i2);
  }

  lemma SubmitNew(s: State, i0: nat, i1: nat, i2: nat, b: BufId, blockno: nat, w: bool)
    requires CanSubmit(s, i0, i1, i2, b)
    ensures
      var r := s.Submit(i0, i1, i2, b, blockno, w);
      r.Shape() && r.Holds(i0) && r.Formatted(i0)
  {
    hide State.Rings, State.Buffers, State.OwnOk, State.Descriptors, Slot, Bump, Sector;
  }

  lemma SubmitDescriptors(s: State, i0: nat, i1: nat, i2: nat, b: BufId, blockno: nat, w: bool)
    requires CanSubmit(s, i0, i1, i2, b)
    ensures s.Submit(i0, i1, i2, b, blockno, w).Shape() && s.Submit(i0, i1, i2, b, blockno, w).Descriptors()
  {
    hide State.Rings, State.Buffers, State.Holds, State.Formatted, Slot, Bump, Sector;
    var r := s.Submit(i0, i1, i2, b, blockno, w);
    SubmitNew(s, i0, i1, i2, b, blockno, w);
    forall h | h in r.inflight ensures r.Holds(h) && r.Formatted(h) {
      if h != i0 {
        SubmitOther(s, i0, i1, i2, b, blockno, w, h);
      }
    }
    forall i | i in r.own ensures r.OwnOk(i) {
      if i != i0 && i != i1 && i != i2 {
        assert s.OwnOk(i);
        SubmitOther(s, i0, i1, i2, b, blockno, w, s.own[i]);
      }
    }
  }

  lemma SubmitKeeps(s: State, i0: nat, i1: nat, i2: nat, b: BufId, blockno: nat, w: bool)
    requires CanSubmit(s, i0, i1, i2, b)
    ensures s.Submit(i0, i1, i2, b, blockno, w).Inv()
  {
    hide State.Descriptors, State.Holds, State.Formatted, RingIs, Slot, Bump, Sector;
    var r := s.Submit(i0, i1, i2, b, blockno, w);
    SubmitDescriptors(s, i0, i1, i2, b, blockno, w);
    NewHead(s, i0);
    assert i0 !in s.pend;
    RingRoom(s, s.pend, Published, i0);
    PushRing(s.avail, s.devIdx, s.availIdx, s.pend, i0);
    assert r.Queued(r.pend, Published) by { PushQueued(s, r, s.pend, Published, i0); }
    assert r.InFlight(b) by { assert r.inflight[i0].b == b; }
    forall c | c in r.busy ensures r.InFlight(c) {
      if c != b {
        var h :| h in s.inflight && s.inflight[h].b == c;
        assert r.inflight[h].b == c;
      }
    }
  }

  /** A free descriptor heads no request. */
  lemma NewHead(s: State, i: nat)
    requires s.Inv() && i < NUM && s.free[i]
    ensures i !in s.inflight
  {
    assert s.free[i] <==> i !in s.own;
  }

  lemma PushQueued(s: State, r: State, heads: seq<nat>, p: Phase, h: nat)
    requires s.Queued(heads, p) && h !in heads
    requires h in r.inflight && r.inflight[h].phase == p && r.inflight == s.inflight[h := r.inflight[h]]
    ensures r.Queued(heads + [h], p)
  {
    var more := heads + [h];
    forall i, j | 0 <= i < j < |more| ensures more[i] != more[j] {
      if j == |heads| {
        assert more[i] == heads[i] && heads[i] in heads;
      } else {
        assert heads[i] != heads[j];
      }
    }
  }

  /** The first head of a ring moves on. */
  lemma PopQueued(s: State, r: State, heads: seq<nat>, p: Phase)
    requires s.Queued(heads, p) && heads != []
    requires r.inflight.Keys == s.inflight.Keys && r.inflight == s.inflight[heads[0] := r.inflight[heads[0]]]
    requires r.inflight[heads[0]].phase != p
    ensures r.Queued(heads[1..], p)
  {
    forall h | h in r.inflight && r.inflight[h].phase == p ensures h in heads[1..] {
      assert h in heads && h != heads[0];
    }
  }

  /** A ring in which the request that moves on is not. */
  lemma SameQueued(s: State, r: State, heads: seq<nat>, p: Phase, h: nat)
    requires s.Queued(heads, p) && h in s.inflight && s.inflight[h].phase != p
    requires r.inflight.Keys == s.inflight.Keys && r.inflight == s.inflight[h := r.inflight[h]]
    requires r.inflight[h].phase != p
    ensures r.Queued(heads, p)
  {
  }

  // The device and the interrupt handler.

  /** A request moves to another phase; its descriptors and buffer stay. */
  ghost predicate Moves(s: State, r: State, h: nat, p: Phase) {
    && s.Inv() && h in s.inflight && !s.inflight[h].phase.Done?
    && r.inflight == s.Phased(h, p) && r.free == s.free && r.desc == s.desc && r.ops == s.ops && r.own == s.own
    && |r.avail| == |r.used| == |r.info| == NUM
    && (forall g | 0 <= g < NUM && g != h :: r.info[g] == s.info[g])
    && (h < NUM ==> r.info[h].b == s.info[h].b)
    && (h < NUM && (p.Published? || p.Processing?) ==> r.info[h].status == NO_STATUS)
    && (h < NUM && p.Done? ==> r.info[h].status == 0)
    && r.busy == if p.Done? then s.busy - {s.inflight[h].b} else s.busy
  }

  lemma MoveChain(s: State, r: State, h: nat, p: Phase, g: nat)
    requires Moves(s, r, h, p) && g in r.inflight
    ensures r.Shape() && r.Holds(g) && r.Formatted(g)
  {
    hide State.Inv, Sector;
    ChainFacts(s, g);
  }

  lemma MoveKeeps(s: State, r: State, h: nat, p: Phase)
    requires Moves(s, r, h, p)
    ensures r.Shape() && r.Descriptors() && r.Buffers()
  {
    hide State.Rings, State.Formatted, State.Holds;
    forall g | g in r.inflight ensures r.Holds(g) && r.Formatted(g) {
      MoveChain(s, r, h, p, g);
    }
    forall i | i in r.own ensures r.OwnOk(i) {
      assert s.OwnOk(i);
    }
    forall b | b in r.busy ensures r.InFlight(b) {
      var g :| g in s.inflight && s.inflight[g].b == b;
      assert r.inflight[g].b == b;
    }
  }

  lemma PopKeeps(s: State)
    requires s.Inv() && s.pend != []
    ensures s.pend[0] in s.inflight && s.Pop().Inv()
    ensures s.avail[Slot(s.devIdx)] == s.pend[0]
  {
    hide State.Descriptors, State.Buffers, RingIs, Slot, Bump, State.Queued;
    var h := s.pend[0];
    assert h in s.inflight && s.inflight[h].phase == Published by { HeadFacts(s, s.pend, Published); }
    var r := s.Pop();
    assert s.info[h].status == NO_STATUS && h < NUM by { ChainFacts(s, h); }
    MoveKeeps(s, r, h, Processing);
    PopRing(s.avail, s.devIdx, s.availIdx, s.pend);
    PopQueued(s, r, s.pend, Published);
    SameQueued(s, r, s.fin, Completed, h);
  }

  lemma HeadFacts(s: State, heads: seq<nat>, p: Phase)
    requires s.Queued(heads, p) && heads != []
    ensures heads[0] in s.inflight && s.inflight[heads[0]].phase == p
  {
  }

  lemma CompleteKeeps(s: State, h: nat, status: nat)
    requires s.Inv() && h in s.inflight && s.inflight[h].phase.Processing?
    ensures h < NUM && s.Complete(h, status).Inv()
  {
    hide State.Descriptors, State.Buffers, RingIs, Slot, Bump;
    ChainFacts(s, h);
    var r := s.Complete(h, status);
    MoveKeeps(s, r, h, Completed);
    assert h !in s.fin;
    RingRoom(s, s.fin, Completed, h);
    PushRing(s.used, s.seenIdx, s.usedIdx, s.fin, h);
    PushQueued(s, r, s.fin, Completed, h);
    SameQueued(s, r, s.pend, Published, h);
  }

  /** The handler clears the buffer of the request at the front, and no other. */
  lemma ConsumeKeeps(s: State)
    requires s.Inv() && s.fin != [] && s.fin[0] in s.inflight && s.fin[0] < NUM && s.info[s.fin[0]].status == 0
    ensures s.Consume().Inv()
  {
    hide State.Descriptors, State.Buffers, RingIs, Slot, Bump, State.Queued;
    var h := s.fin[0];
    HeadFacts(s, s.fin, Completed);
    var r := s.Consume();
    MoveKeeps(s, r, h, Done);
    PopRing(s.used, s.seenIdx, s.usedIdx, s.fin);
    PopQueued(s, r, s.fin, Completed);
    SameQueued(s, r, s.pend, Published, h);
  }

  // Freeing.

  lemma ReleaseOther(s: State, h: nat, g: nat)
    requires s.Inv() && h in s.inflight && h < NUM && s.inflight[h].d1 < NUM && s.inflight[h].d2 < NUM
    requires g in s.inflight && g != h
    ensures s.Release(h).Shape() && s.Release(h).Holds(g) && s.Release(h).Formatted(g)
  {
    hide State.Inv, State.OwnOk, Sector;
    ChainFacts(s, h);
    ChainFacts(s, g);
  }

  lemma ReleaseDescriptors(s: State, h: nat)
    requires s.Inv() && h in s.inflight && h < NUM && s.inflight[h].d1 < NUM && s.inflight[h].d2 < NUM
    ensures s.Release(h).Shape() && s.Release(h).Descriptors()
  {
    hide State.Rings, State.Buffers, State.Formatted, Sector;
    var r := s.Release(h);
    forall g | g in r.inflight ensures r.Holds(g) && r.Formatted(g) {
      ReleaseOther(s, h, g);
    }
    assert s.Holds(h);
    forall i | i in r.own ensures r.OwnOk(i) {
      assert s.OwnOk(i);
    }
  }

  lemma ReleaseKeeps(s: State, h: nat)
    requires s.Inv() && h in s.inflight && s.inflight[h].phase.Done?
    ensures h < NUM && s.inflight[h].d1 < NUM && s.inflight[h].d2 < NUM
    ensures s.Release(h).Inv()
  {
    hide State.Descriptors, State.Holds, State.Formatted, RingIs;
    assert h < NUM && s.inflight[h].d1 < NUM && s.inflight[h].d2 < NUM by { DoneFacts(s, h); }
    ReleaseDescriptors(s, h);
    var r := s.Release(h);
    forall c | c in r.busy ensures r.InFlight(c) {
      var g :| g in s.inflight && s.inflight[g].b == c;
      assert g != h && r.inflight[g].b == c;
    }
  }

  lemma DoneFacts(s: State, h: nat)
    requires s.Inv() && h in s.inflight
    ensures h < NUM && s.inflight[h].d1 < NUM && s.inflight[h].d2 < NUM
  {
    assert s.Formatted(h);
  }

  // The partition, and whole runs.

  ghost function Owned(s: State, heads: set<nat>): set<nat> {
    set i | i in s.own && s.own[i] in heads
  }

  lemma {:induction false} ThreeEach(s: State, heads: set<nat>)
    requires s.Inv() && heads <= s.inflight.Keys
    ensures |Owned(s, heads)| == 3 * |heads|
    decreases heads
  {
    hide State.Inv, State.Shape;
    if heads == {} {
      assert Owned(s, heads) == {};
    } else {
      var h :| h in heads;
      var q := s.inflight[h];
      ThreeEach(s, heads - {h});
      ChainFacts(s, h);
      assert Owned(s, {h}) == {h, q.d1, q.d2} by { OwnedByOne(s, h); }
      assert Owned(s, heads) == Owned(s, heads - {h}) + {h, q.d1, q.d2};
    }
  }

  lemma OwnedByOne(s: State, h: nat)
    requires s.Inv() && h in s.inflight
    ensures Owned(s, {h}) == {h, s.inflight[h].d1, s.inflight[h].d2}
  {
    hide State.Rings, State.Buffers, State.Formatted;
    assert s.Holds(h);
    forall i | i in Owned(s, {h}) ensures i in {h, s.inflight[h].d1, s.inflight[h].d2} {
      assert s.OwnOk(i);
    }
  }

  /** Every descriptor is free or in one chain; each request in flight has three. */
  lemma Partition(s: State)
    requires s.Inv()
    ensures |set i | 0 <= i < |s.free| && s.free[i]| + 3 * |s.inflight| == NUM
  {
    hide State.Rings, State.Buffers, State.Formatted, State.Holds, Below;
    var unused := set i | 0 <= i < |s.free| && s.free[i];
    ThreeEach(s, s.inflight.Keys);
    assert Owned(s, s.inflight.Keys) == s.own.Keys by {
      forall i | i in s.own ensures s.own[i] in s.inflight { assert s.OwnOk(i); }
    }
    assert unused + s.own.Keys == Below(|s.free|);
    assert unused !! s.own.Keys;
  }

  /** A move of the driver, the device or the interrupt handler. */
  datatype Step =
    | Submitting(i0: nat, i1: nat, i2: nat, b: BufId, blockno: nat, w: bool)
    | Taking
    | Performing(h: nat, status: nat)
    | Seeing
    | Releasing(h: nat)

  /** What the code, or the device by its specification, checks before the move. */
  ghost predicate Enabled(s: State, step: Step) {
    match step
    case Submitting(i0, i1, i2, b, _, _) =>
      && s.Shape() && i0 < NUM && i1 < NUM && i2 < NUM && i0 != i1 && i0 != i2 && i1 != i2
      && s.free[i0] && s.free[i1] && s.free[i2] && !s.InFlight(b)
    case Taking => s.Shape() && s.devIdx != s.availIdx
    case Performing(h, _) => s.Shape() && h in s.inflight && s.inflight[h].phase.Processing?
    case Seeing =>
      && s.Shape() && s.seenIdx != s.usedIdx
      && s.used[Slot(s.seenIdx)] < NUM && s.info[s.used[Slot(s.seenIdx)]].status == 0
    case Releasing(h) => s.Shape() && h in s.inflight && s.inflight[h].b !in s.busy
  }

  ghost predicate Next(s: State, step: Step, r: State) {
    && Enabled(s, step)
    && match step
       case Submitting(i0, i1, i2, b, blockno, w) => r == s.Submit(i0, i1, i2, b, blockno, w)
       case Taking => s.pend != [] && s.pend[0] in s.inflight && r == s.Pop()
       case Performing(h, status) => h < NUM && r == s.Complete(h, status)
       case Seeing => s.fin != [] && s.fin[0] in s.inflight && r == s.Consume()
       case Releasing(h) =>
         && h < NUM && s.inflight[h].d1 < NUM && s.inflight[h].d2 < NUM
         && r == s.Release(h)
  }

  lemma StepKeeps(s: State, step: Step, r: State)
    requires s.Inv() && Next(s, step, r)
    ensures r.Inv()
  {
    hide State.Descriptors, State.Submit, State.Pop, State.Complete, State.Consume, State.Release;
    match step
    case Submitting(i0, i1, i2, b, blockno, w) => SubmitKeeps(s, i0, i1, i2, b, blockno, w);
    case Taking => PopKeeps(s);
    case Performing(h, status) => CompleteKeeps(s, h, status);
    case Seeing =>
      PopRing(s.used, s.seenIdx, s.usedIdx, s.fin);
      ConsumeKeeps(s);
    case Releasing(h) => ReleaseKeeps(s, h);
  }

  /** A move that is enabled can be made: the rings say what the device and the handler need. */
  lemma EnabledCanStep(s: State, step: Step)
    requires s.Inv() && Enabled(s, step)
    ensures exists r :: Next(s, step, r)
  {
    hide State.Descriptors, State.Submit, State.Pop, State.Complete, State.Consume, State.Release, RingIs, State.Queued;
    match step
    case Submitting(i0, i1, i2, b, blockno, w) => assert Next(s, step, s.Submit(i0, i1, i2, b, blockno, w));
    case Taking =>
      RingSize(s, s.pend, Published);
      EmptyIff(s.avail, s.devIdx, s.availIdx, s.pend);
      HeadFacts(s, s.pend, Published);
      assert Next(s, step, s.Pop());
    case Performing(h, status) =>
      DoneFacts(s, h);
      assert Next(s, step, s.Complete(h, status));
    case Seeing =>
      RingSize(s, s.fin, Completed);
      EmptyIff(s.used, s.seenIdx, s.usedIdx, s.fin);
      HeadFacts(s, s.fin, Completed);
      assert Next(s, step, s.Consume());
    case Releasing(h) =>
      DoneFacts(s, h);
      assert Next(s, step, s.Release(h));
  }

  ghost predicate Run(states: seq<State>, steps: seq<Step>) {
    && |states| == |steps| + 1
    && states[0].Inv() && states[0].inflight == map[]
    && forall k | 0 <= k < |steps| :: StepAt(states, steps, k)
  }

  ghost predicate StepAt(states: seq<State>, steps: seq<Step>, k: nat)
    requires |states| == |steps| + 1 && k < |steps|
  {
    Next(states[k], steps[k], states[k + 1])
  }

  lemma {:induction false} RunKeeps(states: seq<State>, steps: seq<Step>, k: nat)
    requires Run(states, steps) && k < |states|
    ensures states[k].Inv()
  {
    hide State.Inv, Next;
    if k > 0 {
      RunKeeps(states, steps, k - 1);
      assert StepAt(states, steps, k - 1);
      StepKeeps(states[k - 1], steps[k - 1], states[k]);
    }
  }

  /** The move at `k` that made the interrupt handler see the request headed by `h`. */
  ghost predicate SawAt(states: seq<State>, steps: seq<Step>, h: nat, k: nat)
    requires |states| == |steps| + 1 && k < |steps|
  {
    steps[k].Seeing? && states[k].fin != [] && states[k].fin[0] == h
  }

  /** A request that is done was seen at some move since which it has stayed in flight. */
  lemma {:induction false} DoneWasSeen(states: seq<State>, steps: seq<Step>, h: nat, n: nat) returns (k: nat)
    requires Run(states, steps) && n < |states| && h in states[n].inflight && states[n].inflight[h].phase.Done?
    ensures k < n && SawAt(states, steps, h, k)
    ensures forall m | k < m <= n :: h in states[m].inflight && states[m].inflight[h] == states[n].inflight[h]
  {
    hide State.Inv;
    var s, step := states[n - 1], steps[n - 1];
    assert StepAt(states, steps, n - 1);
    if step.Seeing? && s.fin[0] == h {
      k := n - 1;
    } else {
      k := DoneWasSeen(states, steps, h, n - 1);
    }
  }

  /** No chain is freed before its completion was seen, in any run. */
  lemma FreedAfterSeen(states: seq<State>, steps: seq<Step>, n: nat) returns (k: nat)
    requires Run(states, steps) && n < |steps| && steps[n].Releasing?
    ensures k < n && SawAt(states, steps, steps[n].h, k)
    ensures steps[n].h in states[n].inflight
    ensures forall m | k < m <= n ::
      steps[n].h in states[m].inflight && states[m].inflight[steps[n].h] == states[n].inflight[steps[n].h]
  {
    assert StepAt(states, steps, n);
    RunKeeps(states, steps, n);
    k := DoneWasSeen(states, steps, steps[n].h, n);
  }
}
