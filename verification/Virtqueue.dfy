/** `kernel/virtio_disk.c`: the driver's calls and the device's moves on the queue they share. */
module Virtqueue {
  import opened Common
  import opened Counting
  import opened VirtqueueState

  ghost function FreeSet(free: seq<bool>): set<nat> {
    set i | 0 <= i < |free| && free[i]
  }

  /** Flags cleared for some descriptors. */
  ghost function Taken(free: seq<bool>, idx: seq<nat>): (r: seq<bool>)
    ensures |r| == |free|
    ensures forall i | 0 <= i < |free| :: r[i] == (free[i] && i !in idx)
  {
    seq(|free|, i requires 0 <= i < |free| => free[i] && i !in idx)
  }

  ghost function Given(free: seq<bool>, idx: seq<nat>): (r: seq<bool>)
    ensures |r| == |free|
    ensures forall i | 0 <= i < |free| :: r[i] == (free[i] || i in idx)
  {
    seq(|free|, i requires 0 <= i < |free| => free[i] || i in idx)
  }

  ghost function Cleared(desc: seq<Desc>, idx: seq<nat>): (r: seq<Desc>)
    ensures |r| == |desc|
    ensures forall i | 0 <= i < |desc| :: r[i] == if i in idx then UNUSED else desc[i]
  {
    seq(|desc|, i requires 0 <= i < |desc| => if i in idx then UNUSED else desc[i])
  }

  /** Descriptors linked one to the next. */
  ghost predicate Linked(desc: seq<Desc>, chain: seq<nat>) {
    && Distinct(chain) && chain != []
    && (forall k | 0 <= k < |chain| :: chain[k] < |desc|)
    && (forall k | 0 <= k < |chain| :: desc[chain[k]].more <==> k + 1 < |chain|)
    && (forall k | 0 <= k < |chain| - 1 :: LinkedAt(desc, chain, k))
  }

  ghost predicate LinkedAt(desc: seq<Desc>, chain: seq<nat>, k: nat)
    requires k + 1 < |chain| && chain[k] < |desc|
  {
    desc[chain[k]].next == chain[k + 1]
  }

  lemma LinkFacts(desc: seq<Desc>, chain: seq<nat>, k: nat)
    requires Linked(desc, chain) && k < |chain|
    ensures chain[k] < |desc| && chain[k] !in chain[..k]
    ensures desc[chain[k]].more <==> k + 1 < |chain|
    ensures k + 1 < |chain| ==> desc[chain[k]].next == chain[k + 1]
  {
    if k + 1 < |chain| {
      assert LinkedAt(desc, chain, k);
    }
  }

  lemma GivenMore(free: seq<bool>, desc: seq<Desc>, chain: seq<nat>, k: nat)
    requires k < |chain| && chain[k] < |free| == |desc|
    ensures Given(free, chain[..k])[chain[k] := true] == Given(free, chain[..k + 1])
    ensures Cleared(desc, chain[..k])[chain[k] := UNUSED] == Cleared(desc, chain[..k + 1])
  {
    assert chain[..k + 1] == chain[..k] + [chain[k]];
  }

  lemma GivenNone(free: seq<bool>, desc: seq<Desc>)
    ensures Given(free, []) == free && Cleared(desc, []) == desc
  {
  }

  lemma TakenMore(free: seq<bool>, idx: seq<nat>, i: nat)
    requires i < |free|
    ensures Taken(free, idx)[i := false] == Taken(free, idx + [i])
    ensures Taken(free, []) == free
  {
  }

  lemma TakenThree(free: seq<bool>, idx: seq<nat>)
    requires |idx| == 3 && idx[0] < |free| && idx[1] < |free| && idx[2] < |free|
    ensures Taken(free, idx) == free[idx[0] := false][idx[1] := false][idx[2] := false]
  {
  }

  lemma GivenThree(free: seq<bool>, desc: seq<Desc>, a: nat, b: nat, c: nat)
    requires a < |free| == |desc| && b < |free| && c < |free|
    ensures Given(free, [a, b, c]) == free[a := true][b := true][c := true]
    ensures Cleared(desc, [a, b, c]) == desc[a := UNUSED][b := UNUSED][c := UNUSED]
  {
  }

  lemma TakenBack(free: seq<bool>, idx: seq<nat>, j: nat)
    requires Distinct(idx) && j < |idx| && idx[j] < |free| && free[idx[j]]
    ensures Taken(free, idx[j..])[idx[j] := true] == Taken(free, idx[j + 1..])
    ensures !Taken(free, idx[j..])[idx[j]]
  {
    assert idx[j..] == [idx[j]] + idx[j + 1..];
    assert idx[j] in idx[j..];
  }

  lemma EnoughFree(free: seq<bool>, idx: seq<nat>)
    requires Distinct(idx) && forall k | 0 <= k < |idx| :: idx[k] < |free| && free[idx[k]]
    ensures |FreeSet(free)| >= |idx|
  {
    Pigeonhole(idx, FreeSet(free));
  }

  lemma NoneLeft(free: seq<bool>, idx: seq<nat>)
    requires FreeSet(Taken(free, idx)) == {}
    ensures |FreeSet(free)| <= |idx|
  {
    forall i | i in FreeSet(free) ensures i in idx {
      assert i in FreeSet(Taken(free, idx)) <==> i !in idx;
    }
    ElementsSize(idx);
    SubsetSize(FreeSet(free), set x | x in idx);
  }

  function Content<T>(m: map<T, Data>, k: T): Data {
    if k in m then m[k] else []
  }

  /** `n` entries of the used ring are seen. */
  ghost function Consumed(s: State, n: nat): State {
    if n == 0 then s else See(Consumed(s, n - 1))
  }

  ghost function See(s: State): State {
    if s.Shape() && s.fin != [] && s.fin[0] in s.inflight then s.Consume() else s
  }

  ghost predicate Succeeded(s: State, h: nat) {
    h < |s.info| && s.info[h].status == 0
  }

  lemma {:induction false} ConsumedKeeps(s: State, n: nat)
    requires s.Inv() && n <= |s.fin| && forall k | 0 <= k < n :: Succeeded(s, s.fin[k])
    ensures
      var r := Consumed(s, n);
      r.Inv() && r.fin == s.fin[n..] && r.info == s.info && r.inflight.Keys == s.inflight.Keys
  {
    hide State.Inv;
    if n > 0 {
      ConsumedKeeps(s, n - 1);
      var r := Consumed(s, n - 1);
      assert r.fin[0] == s.fin[n - 1];
      SeeKeeps(r);
    }
  }

  lemma SeeKeeps(s: State)
    requires s.Inv() && s.fin != [] && Succeeded(s, s.fin[0])
    ensures s.Shape() && s.fin[0] in s.inflight && See(s) == s.Consume() && See(s).Inv()
  {
    hide State.Descriptors, State.Buffers, RingIs;
    HeadFacts(s, s.fin, Completed);
    ConsumeKeeps(s);
  }

  /** Exactly the requests seen are done, and exactly their buffers are released. */
  lemma {:induction false} ConsumedExactly(s: State, n: nat)
    requires s.Inv() && n <= |s.fin| && forall k | 0 <= k < n :: Succeeded(s, s.fin[k])
    ensures Consumed(s, n).inflight.Keys == s.inflight.Keys
    ensures Consumed(s, n).busy == s.busy - set k | 0 <= k < n && s.fin[k] in s.inflight :: s.inflight[s.fin[k]].b
    ensures forall h | h in s.inflight ::
      Consumed(s, n).inflight[h] == if h in s.fin[..n] then s.inflight[h].(phase := Done) else s.inflight[h]
  {
    hide State.Inv, See, Succeeded;
    ConsumedKeeps(s, n);
    if n > 0 {
      ConsumedExactly(s, n - 1);
      var r := Consumed(s, n - 1);
      ConsumedMore(s, n - 1);
      FinFacts(s, n - 1);
      assert r.fin[0] == s.fin[n - 1];
      assert s.fin[..n] == s.fin[..n - 1] + [s.fin[n - 1]];
    }
  }

  lemma FinFacts(s: State, k: nat)
    requires s.Inv() && k < |s.fin|
    ensures s.fin[k] in s.inflight && s.fin[k] !in s.fin[..k]
  {
  }

  lemma ConsumedMore(s: State, n: nat)
    requires s.Inv() && n < |s.fin| && (forall k | 0 <= k < n :: Succeeded(s, s.fin[k])) && Succeeded(s, s.fin[n])
    ensures
      var r := Consumed(s, n);
      && r.Shape() && r.fin == s.fin[n..] && r.fin[0] in r.inflight
      && Consumed(s, n + 1) == r.Consume()
  {
    hide State.Inv, See, State.Consume;
    ConsumedKeeps(s, n);
    var r := Consumed(s, n);
    assert r.fin[0] == s.fin[n];
    assert Succeeded(r, r.fin[0]);
    SeeKeeps(r);
  }

  lemma SucceededIs(s: State, h: nat)
    requires h < |s.info|
    ensures Succeeded(s, h) <==> s.info[h].status == 0
  {
  }

  class Driver {
    var free: seq<bool>
    var desc: seq<Desc>
    var info: seq<Info>
    var ops: seq<Req>
    var avail: seq<nat>
    var availIdx: Index
    var used: seq<nat>
    var usedIdx: Index
    var seenIdx: Index
    var busy: set<BufId>
    var devIdx: Index
    var media: map<nat, Data>
    var bufs: map<BufId, Data>
    ghost var inflight: map<nat, Request>
    ghost var own: map<nat, nat>
    ghost var pend: seq<nat>
    ghost var fin: seq<nat>

    ghost function Abs(): State
      reads this
    {
      State(free, desc, info, ops, avail, availIdx, used, usedIdx, seenIdx, devIdx, busy,
            inflight, own, pend, fin)
    }

    constructor (m: map<nat, Data>, bs: map<BufId, Data>)
      ensures Abs().Inv() && inflight == map[] && busy == {}
      ensures media == m && bufs == bs
    {
      free := seq(NUM, _ => true);
      desc := seq(NUM, _ => UNUSED);
      info := seq(NUM, _ => Info(None, 0));
      ops := seq(NUM, _ => Req(false, 0));
      avail := seq<nat>(NUM, _ => 0);
      used := seq<nat>(NUM, _ => 0);
      availIdx, usedIdx, seenIdx, devIdx := 0, 0, 0, 0;
      busy, media, bufs := {}, m, bs;
      inflight, own, pend, fin := map[], map[], [], [];
    }

    /** The first free descriptor, if there is one. */
    method AllocDesc() returns (i: int)
      requires |free| == NUM
      modifies this`free
      ensures i == -1 ==> free == old(free) && FreeSet(free) == {}
      ensures i != -1 ==> 0 <= i < NUM && old(free)[i] && free == old(free)[i := false]
      ensures i != -1 ==> forall k | 0 <= k < i :: !old(free)[k]
    {
      i := 0;
      while i < NUM
        invariant 0 <= i <= NUM && free == old(free)
        invariant forall k | 0 <= k < i :: !free[k]
      {
        if free[i] {
          free := free[i := false];
          return;
        }
        i := i + 1;
      }
      i := -1;
    }

    /** False for the panics: no such descriptor, or free already. */
    method FreeDesc(i: nat) returns (ok: bool)
      requires |free| == |desc| == NUM
      modifies this`free, this`desc
      ensures ok <==> i < NUM && !old(free)[i]
      ensures ok ==> free == old(free)[i := true] && desc == old(desc)[i := UNUSED]
      ensures !ok ==> free == old(free) && desc == old(desc)
    {
      if i >= NUM {
        return false;
      }
      if free[i] {
        return false;
      }
      desc := desc[i := UNUSED];
      free := free[i := true];
      ok := true;
    }

    method FreeChain(i: nat, ghost chain: seq<nat>) returns (ok: bool)
      requires |free| == |desc| == NUM && chain != [] && Linked(desc, chain) && chain[0] == i
      requires forall k | 0 <= k < |chain| :: !free[chain[k]]
      modifies this`free, this`desc
      ensures ok && free == Given(old(free), chain) && desc == Cleared(old(desc), chain)
    {
      hide Linked, Given, Cleared;
      var j := i;
      ghost var k: nat := 0;
      GivenNone(free, desc);
      assert chain[..0] == [];
      while true
        invariant k < |chain| && j == chain[k]
        invariant |free| == |desc| == NUM
        invariant free == Given(old(free), chain[..k]) && desc == Cleared(old(desc), chain[..k])
        decreases |chain| - k
      {
        LinkFacts(old(desc), chain, k);
        var more, nxt := desc[j].more, desc[j].next;
        ok := FreeDesc(j);
        GivenMore(old(free), old(desc), chain, k);
        if more {
          j := nxt;
          k := k + 1;
        } else {
          assert chain[..k + 1] == chain;
          break;
        }
      }
    }
  
    /** Three descriptors or, if there are not as many, none. */
    method Alloc3Desc() returns (ok: bool, idx: seq<nat>)
      requires |free| == |desc| == NUM
      requires forall i | 0 <= i < NUM :: free[i] ==> desc[i] == UNUSED
      modifies this`free, this`desc
      ensures ok <==> |FreeSet(old(free))| >= 3
      ensures ok ==> |idx| == 3 && Distinct(idx) && forall k | 0 <= k < 3 :: idx[k] < NUM && old(free)[idx[k]]
      ensures free == if ok then Taken(old(free), idx) else old(free)
      ensures desc == old(desc)
    {
      hide FreeSet, Taken;
      idx := [];
      TakenMore(free, [], 0);
      for i := 0 to 3
        invariant |idx| == i && Distinct(idx) && |free| == NUM && desc == old(desc)
        invariant forall k | 0 <= k < |idx| :: idx[k] < NUM && old(free)[idx[k]]
        invariant free == Taken(old(free), idx)
      {
        var d := AllocDesc();
        if d < 0 {
          NoneLeft(old(free), idx);
          GiveBack(idx, old(free));
          return false, [];
        }
        TakenMore(old(free), idx, d);
        idx := idx + [d];
      }
      EnoughFree(old(free), idx);
      ok := true;
    }

    /** The descriptors allocated so far are freed again. */
    method GiveBack(idx: seq<nat>, ghost was: seq<bool>)
      requires |free| == |desc| == |was| == NUM && Distinct(idx) && free == Taken(was, idx)
      requires forall k | 0 <= k < |idx| :: idx[k] < NUM && was[idx[k]] && desc[idx[k]] == UNUSED
      modifies this`free, this`desc
      ensures free == was && desc == old(desc)
    {
      hide Taken;
      assert idx == idx[0..];
      for j := 0 to |idx|
        invariant |free| == NUM && desc == old(desc) && free == Taken(was, idx[j..])
      {
        TakenBack(was, idx, j);
        var ok := FreeDesc(idx[j]);
      }
      assert idx[|idx|..] == [];
      TakenMore(was, [], 0);
    }
  
    /** The first half of `virtio_disk_rw`; false if it has to sleep for descriptors. */
    method Submit(b: BufId, blockno: nat, w: bool) returns (ok: bool, h: nat, ghost idx: seq<nat>)
      requires Abs().Inv() && !Abs().InFlight(b)
      modifies this
      ensures Abs().Inv() && media == old(media) && bufs == old(bufs)
      ensures ok <==> |FreeSet(old(free))| >= 3
      ensures !ok ==> Abs() == old(Abs())
      ensures ok ==> |idx| == 3 && h == idx[0] && (forall k | 0 <= k < 3 :: idx[k] < NUM && old(free)[idx[k]])
      ensures ok ==> Abs() == old(Abs()).Submit(h, idx[1], idx[2], b, blockno, w)
    {
      hide State.Inv, State.InFlight, State.Submit, FreeSet, Taken;
      ghost var s := Abs();
      UnusedFacts(s);
      var got;
      ok, got := Alloc3Desc();
      idx := got;
      if !ok {
        return false, 0, idx;
      }
      h := got[0];
      assert CanSubmit(s, h, got[1], got[2], b);
      SubmitKeeps(s, h, got[1], got[2], b, blockno, w);
      TakenThree(s.free, got);
      Queue(h, got[1], got[2], b, blockno, w, s);
    }

    /** A request in descriptors just allocated. */
    method Queue(i0: nat, i1: nat, i2: nat, b: BufId, blockno: nat, w: bool, ghost s: State)
      requires s.Shape() && i0 < NUM && i1 < NUM && i2 < NUM
      requires Abs() == s.(free := s.free[i0 := false][i1 := false][i2 := false])
      modifies this
      ensures Abs() == s.Submit(i0, i1, i2, b, blockno, w) && media == old(media) && bufs == old(bufs)
    {
      hide Sector, Slot, Bump;
      Format(i0, i1, i2, b, blockno, w);
      busy := busy + {b};
      avail := avail[Slot(availIdx) := i0];
      availIdx := Bump(availIdx);
      ghost var r := s.Submit(i0, i1, i2, b, blockno, w);
      inflight, own, pend := r.inflight, r.own, r.pend;
    }

    /** The three descriptors of a request, and the driver's note of it. */
    method Format(i0: nat, i1: nat, i2: nat, b: BufId, blockno: nat, w: bool)
      requires |desc| == |info| == |ops| == NUM && i0 < NUM && i1 < NUM && i2 < NUM
      modifies this`desc, this`info, this`ops
      ensures ops == old(ops)[i0 := Req(w, Sector(blockno))]
      ensures info == old(info)[i0 := Info(Some(b), NO_STATUS)]
      ensures desc == old(desc)[i0 := Desc(Op(i0), 16, true, false, i1)]
                               [i1 := Desc(BufData(b), BSIZE, true, !w, i2)]
                               [i2 := Desc(Status(i0), 1, false, true, 0)]
    {
      hide Sector;
      ops := ops[i0 := Req(w, Sector(blockno))];
      desc := desc[i0 := Desc(Op(i0), 16, true, false, i1)];
      desc := desc[i1 := Desc(BufData(b), BSIZE, true, !w, i2)];
      info := info[i0 := info[i0].(status := NO_STATUS)];
      desc := desc[i2 := Desc(Status(i0), 1, false, true, 0)];
      info := info[i0 := info[i0].(b := Some(b))];
    }

    /** The device takes a request from the avail ring. */
    method Pop() returns (h: nat)
      requires Abs().Inv() && devIdx != availIdx
      modifies this
      ensures Abs().Inv() && media == old(media) && bufs == old(bufs)
      ensures old(pend) != [] && h == old(pend)[0] && h in old(inflight) && Abs() == old(Abs()).Pop()
    {
      hide State.Inv, Slot, Bump;
      ghost var s := Abs();
      UnusedFacts(s);
      EmptyWhenEqual(s);
      PopKeeps(s);
      h := avail[Slot(devIdx)];
      devIdx := Bump(devIdx);
      inflight, pend := s.Pop().inflight, s.Pop().pend;
      assert Abs() == s.Pop();
    }

    /** The device carries out a request it has taken, as the descriptors say, in any order. */
    method Perform(h: nat, status: nat)
      requires Abs().Inv() && h in inflight && inflight[h].phase.Processing?
      modifies this
      ensures Abs().Inv() && h < NUM && Abs() == old(Abs()).Complete(h, status)
      ensures status == 0 && inflight[h].write ==>
        bufs == old(bufs) && media == old(media)[Sector(inflight[h].blockno) := Content(old(bufs), inflight[h].b)]
      ensures status == 0 && !inflight[h].write ==>
        media == old(media) && bufs == old(bufs)[inflight[h].b := Content(old(media), Sector(inflight[h].blockno))]
      ensures status != 0 ==> media == old(media) && bufs == old(bufs)
    {
      hide State.Inv, Sector, Slot, Bump, Content;
      ghost var s := Abs();
      ChainFacts(s, h);
      CompleteKeeps(s, h, status);
      var at := Transfer(h, status == 0);
      Enter(h, at, status);
    }

    /** The data moves between the medium and the buffer; the address for the status is returned. */
    method Transfer(h: nat, move: bool) returns (at: nat)
      requires Abs().Shape() && h in inflight && Abs().Formatted(h)
      modifies this`media, this`bufs
      ensures at == h
      ensures move && inflight[h].write ==>
        bufs == old(bufs) && media == old(media)[Sector(inflight[h].blockno) := Content(old(bufs), inflight[h].b)]
      ensures move && !inflight[h].write ==>
        media == old(media) && bufs == old(bufs)[inflight[h].b := Content(old(media), Sector(inflight[h].blockno))]
      ensures !move ==> media == old(media) && bufs == old(bufs)
    {
      hide Sector, Content;
      var head := desc[h];
      var data := desc[head.next];
      var last := desc[data.next];
      var req := ops[head.addr.i];
      if move {
        if req.write {
          media := media[req.sector := Content(bufs, data.addr.b)];
        } else {
          bufs := bufs[data.addr.b := Content(media, req.sector)];
        }
      }
      at := last.addr.i;
    }

    /** The status, and the entry in the used ring. */
    method Enter(h: nat, at: nat, status: nat)
      requires Abs().Shape() && h in inflight && at == h < NUM
      modifies this`info, this`used, this`usedIdx, this`inflight, this`fin
      ensures Abs() == old(Abs()).Complete(h, status)
    {
      hide Slot, Bump;
      ghost var r := Abs().Complete(h, status);
      info := info[at := info[at].(status := status)];
      used := used[Slot(usedIdx) := h];
      usedIdx := Bump(usedIdx);
      inflight, fin := r.inflight, r.fin;
    }

    /** `virtio_disk_intr`; false where a request failed and it panics. */
    method Intr() returns (ok: bool, ghost n: nat)
      requires Abs().Inv()
      modifies this
      ensures Abs().Inv() && media == old(media) && bufs == old(bufs)
      ensures n <= |old(fin)| && forall k | 0 <= k < n :: Succeeded(old(Abs()), old(fin)[k])
      ensures Abs() == Consumed(old(Abs()), n)
      ensures if ok then n == |old(fin)| else n < |old(fin)| && !Succeeded(old(Abs()), old(fin)[n])
    {
      hide State.Inv, Succeeded, State.Consume, See;
      ghost var s := Abs();
      n := 0;
      ok := true;
      while seenIdx != usedIdx
        invariant ok && n <= |s.fin| && (forall k | 0 <= k < n :: Succeeded(s, s.fin[k]))
        invariant Abs() == Consumed(s, n) && media == old(media) && bufs == old(bufs)
        decreases |s.fin| - n
      {
        ConsumedKeeps(s, n);
        UnusedFacts(Abs());
        FrontFacts(Abs());
        assert fin[0] == s.fin[n];
        var more := SeeNext();
        SucceededIs(s, s.fin[n]);
        if !more {
          return false, n;
        }
        ConsumedMore(s, n);
        n := n + 1;
      }
      ConsumedKeeps(s, n);
      NothingLeft(Abs());
    }

    /** One turn of the handler's loop. */
    method SeeNext() returns (ok: bool)
      requires Abs().Shape() && fin != []
      requires used[Slot(seenIdx)] == fin[0] < NUM
      requires fin[0] in inflight && info[fin[0]].b == Some(inflight[fin[0]].b)
      modifies this`busy, this`seenIdx, this`inflight, this`fin
      ensures ok <==> old(info)[old(fin)[0]].status == 0
      ensures Abs() == if ok then old(Abs()).Consume() else old(Abs())
    {
      hide Slot, Bump;
      ghost var s := Abs();
      var id := used[Slot(seenIdx)];
      if info[id].status != 0 {
        return false;
      }
      var b := info[id].b.value;
      busy := busy - {b};
      seenIdx := Bump(seenIdx);
      inflight, fin := s.Consume().inflight, s.Consume().fin;
      ok := true;
    }

    /** The end of `virtio_disk_rw`; false if it has to sleep for the completion. */
    method Finish(b: BufId, h: nat) returns (done: bool)
      requires Abs().Inv() && h in inflight && inflight[h].b == b
      modifies this
      ensures Abs().Inv() && media == old(media) && bufs == old(bufs)
      ensures done <==> old(inflight)[h].phase.Done?
      ensures !done ==> Abs() == old(Abs())
      ensures done ==> h < NUM && inflight == old(inflight) - {h} && busy == old(busy) && !Abs().InFlight(b)
      ensures done ==> FreeSet(free) == FreeSet(old(free)) + {h, old(inflight)[h].d1, old(inflight)[h].d2}
    {
      hide State.Inv, Linked, Given, Cleared;
      ghost var s := Abs();
      BusyFacts(s, h);
      if b in busy {
        return false;
      }
      UnusedFacts(s);
      ReleaseKeeps(s, h);
      info := info[h := info[h].(b := None)];
      ghost var chain := [h, inflight[h].d1, inflight[h].d2];
      HeldFacts(s, h);
      var ok := FreeChain(h, chain);
      ghost var r := s.Release(h);
      inflight, own := r.inflight, r.own;
      GivenThree(s.free, s.desc, chain[0], chain[1], chain[2]);
      assert Abs() == r;
      done := true;
    }
  }

  lemma UnusedFacts(s: State)
    requires s.Inv()
    ensures s.Shape() && (forall i | 0 <= i < NUM :: s.free[i] ==> s.desc[i] == UNUSED)
  {
  }

  lemma EmptyWhenEqual(s: State)
    requires s.Inv()
    ensures s.devIdx == s.availIdx <==> s.pend == []
    ensures s.seenIdx == s.usedIdx <==> s.fin == []
  {
    hide State.Descriptors, State.Queued, State.Buffers;
    RingSize(s, s.pend, Published);
    RingSize(s, s.fin, Completed);
    EmptyIff(s.avail, s.devIdx, s.availIdx, s.pend);
    EmptyIff(s.used, s.seenIdx, s.usedIdx, s.fin);
  }

  /** The entry the handler looks at. */
  lemma FrontFacts(s: State)
    requires s.Inv() && s.seenIdx != s.usedIdx
    ensures s.fin != [] && |s.used| == |s.info| == NUM && s.used[Slot(s.seenIdx)] == s.fin[0] < NUM
    ensures s.fin[0] in s.inflight && s.info[s.fin[0]].b == Some(s.inflight[s.fin[0]].b)
  {
    hide State.Descriptors, State.Buffers, RingIs;
    EmptyWhenEqual(s);
    PopRing(s.used, s.seenIdx, s.usedIdx, s.fin);
    ChainFacts(s, s.fin[0]);
  }

  lemma NothingLeft(s: State)
    requires s.Inv() && s.seenIdx == s.usedIdx
    ensures s.fin == []
  {
    EmptyWhenEqual(s);
  }

  /** A buffer is released exactly when the completion was seen. */
  lemma BusyFacts(s: State, h: nat)
    requires s.Inv() && h in s.inflight
    ensures s.inflight[h].b in s.busy <==> !s.inflight[h].phase.Done?
    ensures forall g | g in s.inflight && s.inflight[g].b == s.inflight[h].b :: g == h
  {
  }

  lemma HeldFacts(s: State, h: nat)
    requires s.Inv() && h in s.inflight
    ensures h < NUM && s.inflight[h].d1 < NUM && s.inflight[h].d2 < NUM
    ensures |s.free| == NUM && !s.free[h] && !s.free[s.inflight[h].d1] && !s.free[s.inflight[h].d2]
    ensures Linked(s.desc, [h, s.inflight[h].d1, s.inflight[h].d2])
  {
    hide State.Inv;
    ChainFacts(s, h);
    var q := s.inflight[h];
    FreeFacts(s, h);
    FreeFacts(s, q.d1);
    FreeFacts(s, q.d2);
    var chain := [h, q.d1, q.d2];
    assert LinkedAt(s.desc, chain, 0) && LinkedAt(s.desc, chain, 1);
  }
}
