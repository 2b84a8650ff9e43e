/** The in-memory side of `kernel/log.c`, running on the buffer cache. */
module Log {
  import opened Blocks
  import opened BufferCache
  import opened Common
  import opened Counting
  import opened Journal
  import Reservation

  const MAXOPBLOCKS: nat := Reservation.MAXOPBLOCKS

  /** A buffer in use, and how many use it. */
  datatype Reader = Reader(buf: Buf, handles: nat)

  class Log {
    const cache: Cache
    const area: Area
    var outstanding: nat
    var committing: bool
    /** `lh.block[0..lh.n]`. */
    var blocks: seq<Uint>

    /** The log on disk has room, and lists home blocks of the disk. */
    ghost predicate Listed()
      reads this, cache
    {
      && area.Fits(cache.disk)
      && |blocks| <= LOGSIZE
      && forall i | 0 <= i < |blocks| :: blocks[i] < |cache.disk| && !area.Has(blocks[i])
    }

    /** Between commits the pinned blocks are exactly the listed ones. */
    ghost predicate Valid()
      reads this, cache
    {
      && cache.Valid() && Listed() && Distinct(blocks)
      && (forall i | 0 <= i < |blocks| :: blocks[i] in cache.logged)
      && Within(cache.logged, blocks)
    }

    /** The buffers in use are those of `readers`, processes outside of any operation that are between
        `bread` and `brelse`.  They have blocks that are neither the log's nor to be committed: for
        those they would be waited for. */
    ghost predicate Reading(readers: map<nat, Reader>)
      reads this, cache
    {
      Kept(cache.bufs, cache.handles, readers, {}) && Elsewhere(readers, area, blocks)
    }

    ghost function Contents(): (c: seq<Block>)
      reads this, cache
    {
      Fetch(blocks, cache.logged)
    }

    /** `initlog`, up to the recovery. */
    constructor (cache: Cache, area: Area)
      requires cache.Valid() && area.Fits(cache.disk) && cache.logged == map[]
      ensures this.cache == cache && this.area == area
      ensures Valid() && blocks == [] && outstanding == 0 && !committing
    {
      this.cache, this.area := cache, area;
      outstanding, committing, blocks := 0, false, [];
    }

    /** False if the caller has to sleep: a commit runs, or the operation might not fit. */
    method BeginOp() returns (admitted: bool)
      requires Valid()
      modifies this`outstanding
      ensures Valid()
      ensures admitted <==> !committing && |blocks| + (old(outstanding) + 1) * MAXOPBLOCKS <= LOGSIZE
      ensures outstanding == old(outstanding) + if admitted then 1 else 0
    {
      if committing {
        return false;
      } else if |blocks| + (outstanding + 1) * MAXOPBLOCKS > LOGSIZE {
        return false;
      }
      outstanding := outstanding + 1;
      admitted := true;
    }

    /** The last operation to end commits what all have logged.  False for a panic. */
    method EndOp(ghost readers: map<nat, Reader>) returns (ok: bool)
      requires Valid() && outstanding >= 1 && (outstanding == 1 ==> Reading(readers))
      modifies this, cache
      ensures outstanding == old(outstanding) - 1
      ensures ok <==> !old(committing) && (old(outstanding) == 1 ==> CanCommit(old(|blocks|), |readers|))
      ensures ok && outstanding > 0 ==> Valid() && blocks == old(blocks) && cache.Now() == old(cache.Now())
      ensures ok && outstanding == 0 ==>
        && Valid() && Reading(readers) && blocks == [] && !committing
        && SameHome(cache.disk, old(cache.Now().Logical()), area)
      ensures ok && outstanding == 0 ==>
        var t := Txn(old(blocks), old(Contents()));
        cache.trace == old(cache.trace)
                       + if t.blocks == [] then [] else CommitWrites(old(cache.disk)[area.start], area, t)
    {
      hide Cache.Valid, Apply, CommitWrites, State.Logical, Fetch, Kept, Elsewhere, Within;
      outstanding := outstanding - 1;
      if committing {
        return false;
      }
      if outstanding == 0 {
        committing := true;
        ok := Commit(readers);
        if ok {
          committing := false;
        }
      } else {
        ok := true;
      }
    }

    /** Records a block in the running transaction and pins its buffer; a block logged before is
        absorbed.  False is a panic: "too big a transaction" or "log_write outside of trans". */
    method LogWrite(b: nat) returns (ok: bool)
      requires Valid() && cache.Now().Held(b)
      requires !area.Has(cache.bufs[b].blockno) && cache.bufs[b].blockno < 0x1_0000_0000
      modifies this`blocks, cache`bufs, cache`logged
      ensures Valid()
      ensures ok <==> old(|blocks|) < LOGSIZE && old(|blocks|) < area.size - 1 && outstanding >= 1
      ensures !ok ==> blocks == old(blocks) && cache.Now() == old(cache.Now())
      ensures ok ==>
        var blockno := old(cache.bufs[b].blockno);
        && blocks == (if blockno in old(blocks) then old(blocks) else old(blocks) + [blockno])
        && cache.logged == old(cache.logged)[blockno := old(cache.bufs[b].data)]
        && cache.Now().Logical() == old(cache.Now().Logical())[blockno := old(cache.bufs[b].data)]
        && cache.Now().Held(b) && cache.bufs[b].data == old(cache.bufs[b].data)
    {
      if |blocks| >= LOGSIZE || |blocks| >= area.size - 1 {
        return false;
      }
      if outstanding < 1 {
        return false;
      }
      var blockno := cache.bufs[b].blockno;
      var i := 0;
      while i < |blocks|
        invariant 0 <= i <= |blocks|
        invariant blockno !in blocks[..i]
      {
        if blocks[i] == blockno {
          break;
        }
        i := i + 1;
      }
      if i == |blocks| {
        assert blocks[..i] == blocks;
        blocks := blocks + [blockno];
        cache.Bpin(b);
      } else {
        blocks := blocks[i := blockno];
        cache.Absorb(b);
      }
      ok := true;
    }

    /** Buffers `x` and `y` are held, and no others but those of the readers. */
    ghost predicate HoldsPair(readers: map<nat, Reader>, x: nat, y: nat)
      reads this, cache
    {
      && x != y && cache.Now().Held(x) && cache.Now().Held(y)
      && |cache.handles| == NBUF && cache.handles[x] == 1 && cache.handles[y] == 1
      && Kept(cache.bufs, cache.handles, readers, {x, y}) && Elsewhere(readers, area, blocks)
    }

    /** Buffer `b` is held, with the given block, and no others but those of the readers. */
    ghost predicate HoldsOne(readers: map<nat, Reader>, b: nat, blockno: nat)
      reads this, cache
    {
      && cache.Now().Held(b) && cache.bufs[b].blockno == blockno && |cache.handles| == NBUF && cache.handles[b] == 1
      && Kept(cache.bufs, cache.handles, readers, {b}) && Elsewhere(readers, area, blocks)
    }

    /** A block of the log, or nothing for the panic of `bget`. */
    method ReadLog(blockno: nat, ghost readers: map<nat, Reader>) returns (r: Option<nat>)
      requires cache.Valid() && Reading(readers) && Within(cache.logged, blocks)
      requires area.Has(blockno) && blockno < |cache.disk| && blockno !in cache.logged
      modifies cache`bufs, cache`handles
      ensures cache.Valid()
      ensures r.Some? <==> |readers| + |cache.logged.Keys| < NBUF
      ensures r.Some? ==> HoldsOne(readers, r.value, blockno)
      ensures r.Some? ==> cache.bufs[r.value].data == cache.Now().Content(blockno)
    {
      hide Cache.Valid, State.Logical, Kept, Elsewhere, Within;
      ReadersRoom(cache, readers, area, blocks, blockno);
      r := cache.Bread(ROOTDEV, blockno);
      if r.Some? {
        var b := r.value;
        NotReader(old(cache.bufs), old(cache.handles), readers, {}, area, blocks, b, blockno);
        KeptMore(old(cache.bufs), old(cache.handles), readers, {}, b, cache.bufs[b]);
        assert {} + {b} == {b};
      }
    }

    /** Both loops over the log read the block's copy in the log, then the block itself.  False
        is the panic of `bget`: every buffer is pinned, so there is none for the copy. */
    method ReadPair(copy: nat, home: nat, ghost readers: map<nat, Reader>) returns (ok: bool, l: nat, h: nat)
      requires cache.Valid() && Reading(readers) && area.Has(copy) && home in blocks
      requires copy < |cache.disk| && home < |cache.disk| && copy != home && copy !in cache.logged
      requires Within(cache.logged, blocks)
      requires home in cache.logged || |readers| + |cache.logged.Keys| + 1 < NBUF
      modifies cache`bufs, cache`handles
      ensures cache.Valid()
      ensures ok <==> |readers| + |cache.logged.Keys| < NBUF
      ensures ok ==> HoldsPair(readers, l, h)
      ensures ok ==> cache.bufs[l].blockno == copy && cache.bufs[l].data == cache.Now().Content(copy)
      ensures ok ==> cache.bufs[h].blockno == home && cache.bufs[h].data == cache.Now().Content(home)
    {
      hide Cache.Valid, State.Logical, Kept, Elsewhere, Within;
      var r := ReadLog(copy, readers);
      if r.None? {
        return false, 0, 0;
      }
      l := r.value;
      ghost var bufs1, handles1 := cache.bufs, cache.handles;
      SecondRoom(cache, readers, l, home);
      NotLocked(cache, readers, {l}, area, blocks, home);
      r := cache.Bread(ROOTDEV, home);
      h := r.value;
      assert h != l;
      NotReader(bufs1, handles1, readers, {l}, area, blocks, h, home);
      KeptMore(bufs1, handles1, readers, {l}, h, cache.bufs[h]);
      assert {l} + {h} == {l, h};
      ok := true;
    }

    method ReleasePair(x: nat, y: nat, ghost readers: map<nat, Reader>)
      requires cache.Valid() && HoldsPair(readers, x, y)
      requires cache.bufs[x].data == cache.Now().Content(cache.bufs[x].blockno)
      requires cache.bufs[y].data == cache.Now().Content(cache.bufs[y].blockno)
      modifies cache`bufs, cache`handles, cache`next, cache`prev, cache`order, cache`stamp, cache`clock
      ensures cache.Valid() && Reading(readers)
    {
      hide Cache.Valid, State.Logical, State.Release, Kept, Elsewhere, Within;
      cache.Brelse(x);
      KeptLess(old(cache.bufs), old(cache.handles), readers, {x, y}, x, cache.bufs[x]);
      ghost var bufs1, handles1 := cache.bufs, cache.handles;
      cache.Brelse(y);
      KeptLess(bufs1, handles1, readers, {x, y} - {x}, y, cache.bufs[y]);
      assert {x, y} - {x} - {y} == {};
    }

    /** One turn of `write_log`: the cached block goes to its place in the log. */
    method LogBlock(tail: nat, ghost readers: map<nat, Reader>) returns (ok: bool)
      requires cache.Valid() && Listed() && Reading(readers)
      requires tail < |blocks| && blocks[tail] in cache.logged
      requires Within(cache.logged, blocks)
      modifies cache
      ensures cache.Valid() && Listed() && cache.logged == old(cache.logged)
      ensures ok <==> |readers| + |cache.logged.Keys| < NBUF
      ensures !ok ==> cache.trace == old(cache.trace) && cache.disk == old(cache.disk)
      ensures ok ==>
        && Reading(readers)
        && cache.trace == old(cache.trace) + [Write(area.start + 1 + tail, cache.logged[blocks[tail]])]
        && cache.disk == old(cache.disk)[area.start + 1 + tail := cache.logged[blocks[tail]]]
    {
      hide Cache.Valid, State.Logical, Kept, Elsewhere, Within;
      NotLogged(cache.logged, area, blocks, area.start + 1 + tail);
      var to, from;
      ok, to, from := ReadPair(area.start + 1 + tail, blocks[tail], readers);
      if ok {
        ghost var bufs1 := cache.bufs;
        cache.Update(to, cache.bufs[from].data);
        KeptSame(bufs1, cache.handles, readers, {to, from}, to, cache.bufs[to]);
        assert {to, from} == {from, to};
        cache.Bwrite(to);
        ReleasePair(from, to, readers);
      }
    }

    /** Copies the modified blocks from the cache to the log. */
    method WriteLog(ghost readers: map<nat, Reader>) returns (ok: bool)
      requires Valid() && Reading(readers) && blocks != []
      modifies cache
      ensures Valid() && cache.logged == old(cache.logged)
      ensures ok <==> |readers| + |blocks| < NBUF
      ensures !ok ==> cache.trace == old(cache.trace) && cache.disk == old(cache.disk)
      ensures ok ==>
        && Reading(readers)
        && cache.trace == old(cache.trace) + LogWrites(area, Contents())
        && cache.disk == Apply(old(cache.disk), LogWrites(area, Contents()))
    {
      hide Cache.Valid, Apply, Distinct, Kept;
      ghost var ws := LogWrites(area, Contents());
      ApplyNone(cache.disk, ws);
      KeysCount(blocks, cache.logged);
      var tail := 0;
      while tail < |blocks|
        invariant 0 <= tail <= |blocks| && Valid() && Reading(readers)
        invariant tail > 0 ==> |readers| + |blocks| < NBUF
        invariant cache.logged == old(cache.logged)
        invariant cache.trace == old(cache.trace) + ws[..tail]
        invariant cache.disk == Apply(old(cache.disk), ws[..tail])
      {
        ok := LogBlock(tail, readers);
        if !ok {
          return false;
        }
        ApplyNext(old(cache.disk), ws, tail);
        tail := tail + 1;
      }
      assert ws[..tail] == ws;
      return true;
    }

    /** With both buffers at hand, the home block gets the content of its copy, on disk too. */
    method CopyHome(lbuf: nat, dbuf: nat, recovering: bool, ghost readers: map<nat, Reader>)
      requires cache.Valid() && HoldsPair(readers, lbuf, dbuf)
      requires if recovering then cache.bufs[dbuf].blockno !in cache.logged
               else cache.bufs[dbuf].blockno in cache.logged
                    && cache.logged[cache.bufs[dbuf].blockno] == cache.bufs[lbuf].data
      modifies cache`bufs, cache`disk, cache`trace, cache`logged
      ensures cache.Valid() && HoldsPair(readers, lbuf, dbuf) && cache.bufs[lbuf] == old(cache.bufs[lbuf])
      ensures cache.bufs[dbuf].blockno == old(cache.bufs[dbuf].blockno) < old(|cache.disk|)
      ensures cache.bufs[dbuf].data == cache.bufs[lbuf].data
      ensures cache.disk == old(cache.disk)[cache.bufs[dbuf].blockno := cache.bufs[lbuf].data]
      ensures cache.trace == old(cache.trace) + [Write(cache.bufs[dbuf].blockno, cache.bufs[lbuf].data)]
      ensures cache.logged == if recovering then old(cache.logged)
                              else old(cache.logged) - {cache.bufs[dbuf].blockno}
    {
      hide Cache.Valid, State.Logical, Kept, Elsewhere, Within;
      cache.Update(dbuf, cache.bufs[lbuf].data);
      cache.Bwrite(dbuf);
      if !recovering {
        cache.Bunpin(dbuf);
      }
      assert cache.bufs == old(cache.bufs)[dbuf := cache.bufs[dbuf]];
      KeptSame(old(cache.bufs), cache.handles, readers, {lbuf, dbuf}, dbuf, cache.bufs[dbuf]);
    }

    /** One turn of `install_trans`: the copy in the log goes to its home. */
    method InstallBlock(tail: nat, recovering: bool, ghost readers: map<nat, Reader>)
      requires cache.Valid() && Listed() && Reading(readers) && tail < |blocks|
      requires SomeFree(readers, cache.logged) && (recovering ==> readers == map[])
      requires Within(cache.logged, blocks)
      requires if recovering then cache.logged == map[]
               else blocks[tail] in cache.logged && cache.logged[blocks[tail]] == cache.disk[area.start + 1 + tail]
      modifies cache
      ensures cache.Valid() && Listed() && Reading(readers)
      ensures cache.logged == if recovering then map[] else old(cache.logged) - {blocks[tail]}
      ensures cache.trace == old(cache.trace) + [Write(blocks[tail], old(cache.disk)[area.start + 1 + tail])]
      ensures cache.disk == old(cache.disk)[blocks[tail] := old(cache.disk)[area.start + 1 + tail]]
    {
      hide Cache.Valid, State.Logical, Kept, Elsewhere, Within;
      NotLogged(cache.logged, area, blocks, area.start + 1 + tail);
      var ok, lbuf, dbuf := ReadPair(area.start + 1 + tail, blocks[tail], readers);
      CopyHome(lbuf, dbuf, recovering, readers);
      ReleasePair(lbuf, dbuf, readers);
    }

    /** The blocks whose copies are in the log. */
    ghost function Copies(): (c: seq<Block>)
      requires Listed()
      reads this, cache
      ensures |c| == |blocks|
    {
      seq(|blocks|, i requires 0 <= i < |blocks| reads this, cache requires Listed() => cache.disk[area.start + 1 + i])
    }

    /** The first `tail` blocks of `t` have been copied home, from the state with the given disk. */
    ghost predicate Installing(t: Txn, tail: nat, recovering: bool, readers: map<nat, Reader>,
                               disk: Disk, trace: seq<Write>, logged: map<nat, Block>)
      reads this, cache
    {
      && cache.Valid() && Listed() && Reading(readers)
      && blocks == t.blocks && tail <= |blocks| && IsCopied(t, disk, area)
      && Pinned(t, tail, recovering, readers, logged, cache.logged)
      && cache.trace == trace + HomeWrites(t.blocks, t.contents)[..tail]
      && cache.disk == Apply(disk, HomeWrites(t.blocks, t.contents)[..tail])
    }

    method InstallNext(tail: nat, recovering: bool, ghost readers: map<nat, Reader>,
                       ghost t: Txn, ghost disk: Disk, ghost trace: seq<Write>, ghost logged: map<nat, Block>)
      requires Installing(t, tail, recovering, readers, disk, trace, logged) && tail < |blocks|
      modifies cache
      ensures Installing(t, tail + 1, recovering, readers, disk, trace, logged)
    {
      hide Cache.Valid, Apply, HomeWrites, Log.Reading, Log.Listed, Within, Loggable, SomeFree, Pinned;
      ghost var ws := HomeWrites(t.blocks, t.contents);
      CopyUntouched(disk, area, t, tail);
      PinnedNext(t, tail, recovering, readers, logged, cache.logged);
      ApplyNext(disk, ws, tail);
      InstallBlock(tail, recovering, readers);
    }

    /** Copies the logged blocks to their home locations. */
    method InstallTrans(recovering: bool, ghost readers: map<nat, Reader>)
      requires cache.Valid() && Listed() && Reading(readers)
      requires if recovering then readers == map[] else |readers| + |blocks| < NBUF
      requires if recovering then cache.logged == map[] else Valid() && Contents() == Copies()
      modifies cache
      ensures cache.Valid() && Listed() && Reading(readers) && cache.logged == map[]
      ensures
        var ws := HomeWrites(blocks, old(Copies()));
        cache.trace == old(cache.trace) + ws && cache.disk == Apply(old(cache.disk), ws)
    {
      hide Cache.Valid, Apply, HomeWrites, Log.Reading, Within, Loggable, Distinct, Fetch, Pinned;
      ghost var t := Txn(blocks, Copies());
      ghost var ws := HomeWrites(blocks, t.contents);
      ApplyNone(cache.disk, ws);
      IsLoggable(t, cache.disk, area);
      if !recovering {
        KeysCount(blocks, cache.logged);
      }
      PinnedStart(t, recovering, readers, cache.logged);
      var tail := 0;
      while tail < |blocks|
        invariant 0 <= tail <= |blocks|
        invariant Installing(t, tail, recovering, readers, old(cache.disk), old(cache.trace), old(cache.logged))
      {
        InstallNext(tail, recovering, readers, t, old(cache.disk), old(cache.trace), old(cache.logged));
        tail := tail + 1;
      }
      assert ws[..tail] == ws;
      PinnedEnd(t, recovering, readers, old(cache.logged), cache.logged);
    }

    /** Writes the header block, with the list of blocks as it is now. */
    method WriteHead(ghost readers: map<nat, Reader>)
      requires cache.Valid() && Listed() && Reading(readers)
      requires |readers| + |cache.logged.Keys| < NBUF
      requires Within(cache.logged, blocks)
      modifies cache
      ensures cache.Valid() && Listed() && Reading(readers) && cache.logged == old(cache.logged)
      ensures
        var head := PutHead(old(cache.disk)[area.start], blocks);
        && cache.trace == old(cache.trace) + [Write(area.start, head)]
        && cache.disk == old(cache.disk)[area.start := head]
    {
      hide Cache.Valid, State.Logical, State.Release, PutHead, Kept, Elsewhere, Within;
      NotLogged(cache.logged, area, blocks, area.start);
      var r := ReadLog(area.start, readers);
      var b := r.value;
      ghost var bufs1 := cache.bufs;
      var head := EncodeHead(cache.bufs[b].data, blocks);
      cache.Update(b, head);
      KeptSame(bufs1, cache.handles, readers, {b}, b, cache.bufs[b]);
      cache.Bwrite(b);
      ReleaseHead(b, readers);
    }

    method ReleaseHead(b: nat, ghost readers: map<nat, Reader>)
      requires cache.Valid() && HoldsOne(readers, b, area.start)
      requires cache.bufs[b].data == cache.Now().Content(area.start)
      modifies cache`bufs, cache`handles, cache`next, cache`prev, cache`order, cache`stamp, cache`clock
      ensures cache.Valid() && Reading(readers)
    {
      hide Cache.Valid, State.Logical, State.Release, Kept, Elsewhere;
      cache.Brelse(b);
      KeptLess(old(cache.bufs), old(cache.handles), readers, {b}, b, cache.bufs[b]);
      assert {b} - {b} == {};
    }

    method ReadHead()
      requires cache.Valid() && Reading(map[]) && cache.logged == map[]
      requires Recoverable(cache.disk, area)
      modifies this`blocks, cache`bufs, cache`handles, cache`next, cache`prev, cache`order, cache`stamp, cache`clock
      ensures cache.Valid() && Reading(map[])
      ensures blocks == HeadBlocks(cache.disk[area.start])
    {
      hide Cache.Valid, State.Logical, State.Release, Loggable;
      ReadersRoom(cache, map[], area, blocks, area.start);
      var r := cache.Bread(ROOTDEV, area.start);
      blocks := DecodeHead(cache.bufs[r.value].data);
      cache.Brelse(r.value);
    }

    /** Commits the running transaction.  The writes are those of `CommitWrites`, in that order,
        and afterwards the disk itself holds what the file system saw.  Those who read meanwhile
        keep what they read.  False is a panic in `bget`: the transaction pins all the buffers
        that are not in use, as one that fills the log does in any case, and leaves none
        through which to write the log. */
    method Commit(ghost readers: map<nat, Reader>) returns (ok: bool)
      requires Valid() && Reading(readers)
      modifies this`blocks, cache
      ensures cache.Valid()
      ensures ok <==> CanCommit(old(|blocks|), |readers|)
      ensures !ok ==> cache.trace == old(cache.trace) && cache.disk == old(cache.disk)
      ensures ok ==>
        var t := Txn(old(blocks), old(Contents()));
        var ws := if t.blocks == [] then [] else CommitWrites(old(cache.disk)[area.start], area, t);
        && Valid() && Reading(readers) && blocks == []
        && cache.trace == old(cache.trace) + ws
        && cache.disk == Apply(old(cache.disk), ws)
      ensures ok ==> SameHome(cache.disk, old(cache.Now().Logical()), area)
    {
      hide Cache.Valid, Apply, CommitWrites, LogWrites, HomeWrites, PutHead, State.Logical, Fetch, Distinct;
      hide Kept, Elsewhere;
      ghost var t := Txn(blocks, Contents());
      ApplyNone(cache.disk, []);
      if |blocks| > 0 {
        CommitSteps(cache.disk, area, t);
        ok := LogTransaction(readers);
        if !ok {
          return;
        }
        InstallTransaction(readers);
      }
      ok := true;
      CommittedIsLogical(old(cache.Now()), area, t);
    }

    /** The first half of `commit`, up to the header write that makes it happen. */
    method LogTransaction(ghost readers: map<nat, Reader>) returns (ok: bool)
      requires Valid() && Reading(readers) && blocks != []
      modifies cache
      ensures Valid() && cache.logged == old(cache.logged)
      ensures ok <==> |readers| + |blocks| < NBUF
      ensures !ok ==> cache.trace == old(cache.trace) && cache.disk == old(cache.disk)
      ensures ok ==>
        var head := PutHead(old(cache.disk)[area.start], blocks);
        && Reading(readers) && Contents() == Copies()
        && cache.trace == old(cache.trace) + LogWrites(area, Contents()) + [Write(area.start, head)]
        && cache.disk == Apply(old(cache.disk), LogWrites(area, Contents()))[area.start := head]
    {
      hide Cache.Valid, Apply, LogWrites, PutHead, Fetch, Distinct, Kept;
      ok := WriteLog(readers);
      if ok {
        LogFilled(old(cache.disk), area, Txn(blocks, Contents()));
        KeysCount(blocks, cache.logged);
        WriteHead(readers);
      }
    }

    /** The second half: the home locations, then the cleared header. */
    method InstallTransaction(ghost readers: map<nat, Reader>)
      requires Valid() && Reading(readers) && |readers| + |blocks| < NBUF && Contents() == Copies()
      modifies this`blocks, cache
      ensures Valid() && Reading(readers) && blocks == []
      ensures
        var ws := HomeWrites(old(blocks), old(Contents()));
        var disk := Apply(old(cache.disk), ws);
        var head := PutHead(disk[area.start], []);
        && cache.trace == old(cache.trace) + ws + [Write(area.start, head)]
        && cache.disk == disk[area.start := head]
    {
      hide Cache.Valid, Apply, HomeWrites, PutHead, Fetch, Kept;
      InstallTrans(false, readers);
      blocks := [];
      WriteHead(readers);
    }

    /** Boot: installs the transaction that the log on disk describes, and clears the log. */
    method RecoverFromLog()
      requires cache.Valid() && Reading(map[]) && cache.logged == map[]
      requires Recoverable(cache.disk, area)
      modifies this`blocks, cache
      ensures Valid() && Reading(map[]) && blocks == []
      ensures cache.trace == old(cache.trace) + RecoverWrites(old(cache.disk), area)
      ensures cache.disk == Recover(old(cache.disk), area)
    {
      hide Cache.Valid, Apply, HomeWrites, PutHead;
      RecoverSteps(cache.disk, area);
      ghost var t := Pending(cache.disk, area);
      ReadHead();
      assert Copies() == t.contents;
      InstallTrans(true, map[]);
      blocks := [];
      WriteHead(map[]);
    }
  }

  /** After the log writes, the copies are in the log and the header is unchanged. */
  lemma LogFilled(disk: Disk, area: Area, t: Txn)
    requires Loggable(t, disk, area)
    ensures
      var d := Apply(disk, LogWrites(area, t.contents));
      && d[area.start] == disk[area.start]
      && forall i | 0 <= i < |t.contents| :: d[area.start + 1 + i] == t.contents[i]
  {
    var ws := LogWrites(area, t.contents);
    assert ws[..|ws|] == ws;
    LogWritesFillLog(disk, area, t.contents, |t.contents|);
  }

  /** The disk after each phase of a commit, up to the writes of the whole commit. */
  lemma CommitSteps(disk: Disk, area: Area, t: Txn)
    requires Loggable(t, disk, area)
    ensures
      var head := PutHead(disk[area.start], t.blocks);
      var d1 := Apply(disk, LogWrites(area, t.contents))[area.start := head];
      var d2 := Apply(d1, HomeWrites(t.blocks, t.contents));
      && d2[area.start] == head
      && d2[area.start := PutHead(head, [])] == Apply(disk, CommitWrites(disk[area.start], area, t))
      && CommitWrites(disk[area.start], area, t)
         == LogWrites(area, t.contents) + [Write(area.start, head)]
            + HomeWrites(t.blocks, t.contents) + [Write(area.start, PutHead(head, []))]
  {
    hide Apply, PutHead, LogWrites, HomeWrites;
    var head := PutHead(disk[area.start], t.blocks);
    var log, home := LogWrites(area, t.contents), HomeWrites(t.blocks, t.contents);
    ApplyAppend(disk, log, Write(area.start, head));
    ApplyConcat(disk, log + [Write(area.start, head)], home);
    var d1 := Apply(disk, log)[area.start := head];
    assert home[..|home|] == home;
    HomeWritesKeepLog(d1, area, t, |home|);
    ApplyAppend(disk, log + [Write(area.start, head)] + home, Write(area.start, PutHead(head, [])));
  }

  /** The disk after each phase of a recovery. */
  lemma RecoverSteps(disk: Disk, area: Area)
    requires Recoverable(disk, area)
    ensures
      var t := Pending(disk, area);
      var d := Apply(disk, HomeWrites(t.blocks, t.contents));
      var head := PutHead(disk[area.start], []);
      && d[area.start] == disk[area.start]
      && d[area.start := head] == Recover(disk, area)
      && RecoverWrites(disk, area) == HomeWrites(t.blocks, t.contents) + [Write(area.start, head)]
  {
    hide Apply, PutHead;
    var t := Pending(disk, area);
    var home := HomeWrites(t.blocks, t.contents);
    assert home[..|home|] == home;
    HomeWritesKeepLog(disk, area, t, |home|);
    ApplyAppend(disk, home, Write(area.start, PutHead(disk[area.start], [])));
  }

  /** Installing what is logged makes the disk what the file system saw. */
  lemma InstalledIsLogical(s: State, area: Area, blocks: seq<Uint>, b: nat)
    requires Distinct(blocks) && b < |s.disk|
    requires forall i | 0 <= i < |blocks| :: blocks[i] in s.logged
    requires forall k | k in s.logged :: k in blocks
    ensures Installed(s.disk, Txn(blocks, Fetch(blocks, s.logged)))[b] == s.Content(b)
  {
    var ws := HomeWrites(blocks, Fetch(blocks, s.logged));
    if b in blocks {
      var i :| 0 <= i < |blocks| && blocks[i] == b;
      LastWrite(s.disk, ws, i);
    } else {
      ApplyUntouched(s.disk, ws, b);
    }
  }

  /** If no later write is to the same place, a write is what is found there. */
  lemma {:induction false} LastWrite(disk: Disk, ws: seq<Write>, i: nat)
    requires i < |ws| && ws[i].at < |disk|
    requires forall j | i < j < |ws| :: ws[j].at != ws[i].at
    ensures Apply(disk, ws)[ws[i].at] == ws[i].data
  {
    if i < |ws| - 1 {
      LastWrite(disk, ws[..|ws| - 1], i);
    }
  }

  lemma CommittedIsLogical(s: State, area: Area, t: Txn)
    requires Loggable(t, s.disk, area) && Distinct(t.blocks)
    requires forall i | 0 <= i < |t.blocks| :: t.blocks[i] in s.logged
    requires forall k | k in s.logged :: k in t.blocks
    requires t.contents == Fetch(t.blocks, s.logged)
    ensures
      var ws := if t.blocks == [] then [] else CommitWrites(s.disk[area.start], area, t);
      SameHome(Apply(s.disk, ws), s.Logical(), area)
  {
    CommitInstalls(s.disk, area, t);
    forall b | 0 <= b < |s.disk| ensures Installed(s.disk, t)[b] == s.Logical()[b] {
      InstalledIsLogical(s, area, t.blocks, b);
    }
  }

  /** The loop of `write_head`. */
  method EncodeHead(head: Block, blocks: seq<Uint>) returns (h: Block)
    requires |blocks| <= LOGSIZE
    ensures h == PutHead(head, blocks)
  {
    h := PutWord(head, 0, |blocks|);
    for i := 0 to |blocks|
      invariant h == PutHeadBlocks(head, blocks, i)
    {
      h := PutWord(h, 1 + i, blocks[i]);
    }
  }

  /** The loop of `read_head`. */
  method DecodeHead(head: Block) returns (blocks: seq<Uint>)
    requires HeadCount(head) <= LOGSIZE
    ensures blocks == HeadBlocks(head)
  {
    blocks := [];
    for i := 0 to Word(head, 0)
      invariant |blocks| == i
      invariant forall k | 0 <= k < i :: blocks[k] == Word(head, 1 + k)
    {
      blocks := blocks + [Word(head, 1 + i)];
    }
  }

  /** What is left of the pins once the first `tail` blocks have been unpinned. */
  ghost predicate Rest(blocks: seq<Uint>, tail: nat, before: map<nat, Block>, logged: map<nat, Block>)
    requires tail <= |blocks|
  {
    && (forall b | b in logged :: b in before && logged[b] == before[b])
    && (forall b | b in logged :: b in blocks[tail..])
    && (forall i | tail <= i < |blocks| :: blocks[i] in logged)
  }

  lemma RestStart(blocks: seq<Uint>, logged: map<nat, Block>)
    requires forall i | 0 <= i < |blocks| :: blocks[i] in logged
    requires Within(logged, blocks)
    ensures Rest(blocks, 0, logged, logged)
  {
    assert blocks[0..] == blocks;
  }

  lemma RestStep(blocks: seq<Uint>, tail: nat, before: map<nat, Block>, logged: map<nat, Block>)
    requires tail < |blocks| && Distinct(blocks) && Rest(blocks, tail, before, logged)
    ensures blocks[tail] in logged && logged[blocks[tail]] == Fetch(blocks, before)[tail]
    ensures Within(logged, blocks)
    ensures Rest(blocks, tail + 1, before, logged - {blocks[tail]})
  {
  }

  /** What is pinned when the first `tail` blocks of a transaction have been installed: the others,
      with their contents; and nothing at boot. */
  ghost predicate Pinned(t: Txn, tail: nat, recovering: bool, readers: map<nat, Reader>,
                         before: map<nat, Block>, logged: map<nat, Block>)
  {
    && tail <= |t.blocks| == |t.contents|
    && if recovering then readers == map[] && logged == map[]
       else
         && Distinct(t.blocks) && Rest(t.blocks, tail, before, logged) && Fetch(t.blocks, before) == t.contents
         && SomeFree(readers, logged)
  }

  lemma PinnedStart(t: Txn, recovering: bool, readers: map<nat, Reader>, logged: map<nat, Block>)
    requires |t.blocks| == |t.contents|
    requires if recovering then readers == map[] && logged == map[]
             else
               && Distinct(t.blocks) && Within(logged, t.blocks) && Fetch(t.blocks, logged) == t.contents
               && (forall i | 0 <= i < |t.blocks| :: t.blocks[i] in logged) && SomeFree(readers, logged)
    ensures Pinned(t, 0, recovering, readers, logged, logged)
  {
    hide Rest, Distinct, Fetch, SomeFree, Within;
    if !recovering {
      RestStart(t.blocks, logged);
    }
  }

  lemma PinnedNext(t: Txn, tail: nat, recovering: bool, readers: map<nat, Reader>,
                   before: map<nat, Block>, logged: map<nat, Block>)
    requires Pinned(t, tail, recovering, readers, before, logged) && tail < |t.blocks|
    ensures Within(logged, t.blocks) && SomeFree(readers, logged)
    ensures if recovering then readers == map[] && logged == map[]
            else t.blocks[tail] in logged && logged[t.blocks[tail]] == t.contents[tail]
    ensures Pinned(t, tail + 1, recovering, readers, before, if recovering then map[] else logged - {t.blocks[tail]})
  {
    hide Rest, Distinct, Fetch;
    if !recovering {
      RestStep(t.blocks, tail, before, logged);
      StillFree(readers, logged, t.blocks[tail]);
    }
  }

  lemma PinnedEnd(t: Txn, recovering: bool, readers: map<nat, Reader>, before: map<nat, Block>, logged: map<nat, Block>)
    requires Pinned(t, |t.blocks|, recovering, readers, before, logged)
    ensures logged == map[]
  {
    hide Rest;
    if !recovering {
      RestEnd(t.blocks, before, logged);
    }
  }

  /** Some buffer is neither in use nor pinned. */
  predicate SomeFree(readers: map<nat, Reader>, logged: map<nat, Block>) {
    |readers| + |logged.Keys| < NBUF
  }

  lemma StillFree(readers: map<nat, Reader>, logged: map<nat, Block>, b: nat)
    requires SomeFree(readers, logged)
    ensures SomeFree(readers, logged - {b})
  {
    SubsetSize((logged - {b}).Keys, logged.Keys);
  }

  lemma RestEnd(blocks: seq<Uint>, before: map<nat, Block>, logged: map<nat, Block>)
    requires Rest(blocks, |blocks|, before, logged)
    ensures logged == map[]
  {
  }

  /** Installing some blocks leaves the copy of the next one in the log. */
  /** The log on disk has the contents of the transaction. */
  ghost predicate IsCopied(t: Txn, disk: Disk, area: Area) {
    && Loggable(t, disk, area) && |t.blocks| == |t.contents|
    && forall i | 0 <= i < |t.blocks| :: t.contents[i] == disk[area.start + 1 + i]
  }

  lemma IsLoggable(t: Txn, disk: Disk, area: Area)
    requires area.Fits(disk) && |t.blocks| == |t.contents| <= LOGSIZE
    requires forall i | 0 <= i < |t.blocks| :: t.blocks[i] < |disk| && !area.Has(t.blocks[i])
    ensures Loggable(t, disk, area)
  {
  }

  lemma CopyUntouched(disk: Disk, area: Area, t: Txn, tail: nat)
    requires Loggable(t, disk, area) && tail < |t.blocks|
    ensures Apply(disk, HomeWrites(t.blocks, t.contents)[..tail])[area.start + 1 + tail] == disk[area.start + 1 + tail]
    ensures HomeWrites(t.blocks, t.contents)[tail] == Write(t.blocks[tail], t.contents[tail])
    ensures t.blocks[tail] < |disk| && area.start + 1 + tail < |disk|
  {
    HomeWritesKeepLog(disk, area, t, tail);
  }

  /** The logged content of each of the blocks. */
  function Fetch(blocks: seq<Uint>, logged: map<nat, Block>): (c: seq<Block>)
    ensures |c| == |blocks|
  {
    seq(|blocks|, i requires 0 <= i < |blocks| => if blocks[i] in logged then logged[blocks[i]] else ZeroBlock())
  }

  lemma {:induction false} KeysCount(blocks: seq<Uint>, logged: map<nat, Block>)
    requires Distinct(blocks)
    requires forall i | 0 <= i < |blocks| :: blocks[i] in logged
    requires Within(logged, blocks)
    ensures |logged.Keys| == |blocks|
  {
    if blocks == [] {
      assert logged.Keys == {};
    } else {
      var last := blocks[|blocks| - 1];
      var rest := blocks[..|blocks| - 1];
      forall b | b in logged - {last} ensures b in rest {
        assert b in blocks;
      }
      KeysCount(rest, logged - {last});
      assert logged.Keys == (logged - {last}).Keys + {last};
    }
  }

  /** `commit` of `n` blocks finds the buffers it needs while `readers` others are in use. */
  predicate CanCommit(n: nat, readers: nat) {
    n == 0 || readers + n < NBUF
  }

  /** The buffers in use are those of the readers, as they were, and perhaps those of `held`. */
  ghost predicate Kept(bufs: seq<Buf>, handles: seq<nat>, readers: map<nat, Reader>, held: set<nat>) {
    && |bufs| == |handles| == NBUF
    && (forall i | i in readers ::
          i < NBUF && i !in held && Reader(bufs[i], handles[i]) == readers[i] && handles[i] > 0)
    && forall i | 0 <= i < NBUF && i !in readers && i !in held :: handles[i] == 0
  }

  ghost predicate Within(logged: map<nat, Block>, blocks: seq<Uint>) {
    forall b | b in logged :: b in blocks
  }

  lemma NotLogged(logged: map<nat, Block>, area: Area, blocks: seq<Uint>, b: nat)
    requires Within(logged, blocks) && area.Has(b) && forall i | 0 <= i < |blocks| :: !area.Has(blocks[i])
    ensures b !in logged
  {
  }

  /** The readers have blocks that are neither the log's nor to be committed. */
  ghost predicate Elsewhere(readers: map<nat, Reader>, area: Area, blocks: seq<Uint>) {
    forall i | i in readers :: !area.Has(readers[i].buf.blockno) && readers[i].buf.blockno !in blocks
  }

  lemma NotReader(bufs: seq<Buf>, handles: seq<nat>, readers: map<nat, Reader>, held: set<nat>,
                  area: Area, blocks: seq<Uint>, b: nat, blockno: nat)
    requires Kept(bufs, handles, readers, held) && Elsewhere(readers, area, blocks) && b < NBUF
    requires bufs[b].Caches(ROOTDEV, blockno) || handles[b] == 0
    requires area.Has(blockno) || blockno in blocks
    ensures b !in readers && (b !in held ==> handles[b] == 0) && |bufs| == |handles| == NBUF
  {
  }

  lemma KeptMore(bufs: seq<Buf>, handles: seq<nat>, readers: map<nat, Reader>, held: set<nat>, b: nat, buf: Buf)
    requires Kept(bufs, handles, readers, held) && b < NBUF && b !in readers
    ensures Kept(bufs[b := buf], handles[b := handles[b] + 1], readers, held + {b})
  {
  }

  lemma KeptSame(bufs: seq<Buf>, handles: seq<nat>, readers: map<nat, Reader>, held: set<nat>, b: nat, buf: Buf)
    requires Kept(bufs, handles, readers, held) && b < NBUF && b in held
    ensures Kept(bufs[b := buf], handles, readers, held)
  {
  }

  lemma KeptLess(bufs: seq<Buf>, handles: seq<nat>, readers: map<nat, Reader>, held: set<nat>, b: nat, buf: Buf)
    requires Kept(bufs, handles, readers, held) && b < NBUF && b in held && handles[b] == 1
    ensures Kept(bufs[b := buf], handles[b := handles[b] - 1], readers, held - {b})
  {
  }

  /** A block of the log can be read exactly if some buffer is not pinned or in use. */
  lemma ReadersRoom(c: Cache, readers: map<nat, Reader>, area: Area, blocks: seq<Uint>, blockno: nat)
    requires c.Valid() && Kept(c.bufs, c.handles, readers, {}) && Elsewhere(readers, area, blocks)
    requires area.Has(blockno) && blockno !in c.logged && Within(c.logged, blocks)
    ensures NoRoom(c.Now(), ROOTDEV, blockno) <==> |readers| + |c.logged.Keys| >= NBUF
    ensures forall i | 0 <= i < NBUF && c.bufs[i].Caches(ROOTDEV, blockno) :: !c.bufs[i].locked
  {
    assert |readers.Keys| == |readers|;
    if |readers.Keys| + |c.logged.Keys| < NBUF {
      Room(c.Now(), readers.Keys, ROOTDEV, blockno);
    } else {
      Crowded(c, readers, area, blocks, blockno);
    }
    NotLocked(c, readers, {}, area, blocks, blockno);
  }

  lemma Crowded(c: Cache, readers: map<nat, Reader>, area: Area, blocks: seq<Uint>, blockno: nat)
    requires c.Valid() && Kept(c.bufs, c.handles, readers, {}) && Elsewhere(readers, area, blocks)
    requires area.Has(blockno) && blockno !in c.logged && Within(c.logged, blocks)
    requires |readers.Keys| + |c.logged.Keys| >= NBUF
    ensures NoRoom(c.Now(), ROOTDEV, blockno)
  {
    var pinned := PinnedAtLeast(c.Now(), c.logged.Keys);
    assert pinned !! readers.Keys;
    forall i | 0 <= i < NBUF ensures c.bufs[i].refcnt > 0 && !c.bufs[i].Caches(ROOTDEV, blockno) {
      AllBelow(|c.bufs|, pinned + readers.Keys, i);
      assert c.Now().Counted(i);
    }
  }

  lemma NotLocked(c: Cache, readers: map<nat, Reader>, held: set<nat>, area: Area, blocks: seq<Uint>, blockno: nat)
    requires c.Valid() && Kept(c.bufs, c.handles, readers, held) && Elsewhere(readers, area, blocks)
    requires area.Has(blockno) || blockno in blocks
    requires forall l | l in held :: l < |c.bufs| && c.bufs[l].blockno != blockno
    ensures forall i | 0 <= i < NBUF && c.bufs[i].Caches(ROOTDEV, blockno) :: !c.bufs[i].locked
  {
    forall i | 0 <= i < NBUF && c.bufs[i].Caches(ROOTDEV, blockno) ensures !c.bufs[i].locked {
      assert c.Now().Counted(i);
    }
  }

  /** Each pinned block has a buffer of its own. */
  lemma {:induction false} PinnedAtLeast(s: State, blocks: set<nat>) returns (pinned: set<nat>)
    requires s.Sized() && blocks <= s.logged.Keys
    requires forall b | b in s.logged :: s.InCache(b)
    ensures |pinned| == |blocks|
    ensures forall i | i in pinned :: i < NBUF && s.Pins(i) && s.bufs[i].blockno in blocks
    decreases blocks
  {
    pinned := {};
    if blocks != {} {
      var b :| b in blocks;
      pinned := PinnedAtLeast(s, blocks - {b});
      assert s.InCache(b);
      var i :| 0 <= i < |s.bufs| && s.bufs[i].Caches(ROOTDEV, b) && s.bufs[i].valid;
      pinned := pinned + {i};
    }
  }

  /** With one buffer more in use, a pinned block can be read, and any other one if two are left. */
  lemma SecondRoom(c: Cache, readers: map<nat, Reader>, l: nat, blockno: nat)
    requires c.Valid() && Kept(c.bufs, c.handles, readers, {l}) && l < NBUF
    requires blockno in c.logged || |readers| + |c.logged.Keys| + 1 < NBUF
    ensures !NoRoom(c.Now(), ROOTDEV, blockno)
  {
    if blockno in c.logged {
      assert c.Now().InCache(blockno);
    } else {
      assert |readers.Keys| == |readers|;
      UnionSize(readers.Keys, {l});
      Room(c.Now(), readers.Keys + {l}, ROOTDEV, blockno);
    }
  }
}
