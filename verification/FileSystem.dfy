/** The block allocator and the inode content of `kernel/fs.c`, working on the blocks of the
    running transaction: `bread` gives a block's current content and `log_write` changes it. */
module FileSystem {
  import opened Blocks
  import opened Counting
  import opened FsState
  import opened FsSteps
  import opened FsTruncate
  import Reservation

  const MAXOPBLOCKS: nat := Reservation.MAXOPBLOCKS

  class FileSystem {
    const sb: Super
    var disk: seq<Block>
    /** The inodes, as they stand in memory. */
    var core: seq<Inode>
    ghost var owner: map<nat, (nat, nat)>
    ghost var pend: set<nat>
    ghost var dying: set<nat>
    /** The blocks that the current operation has logged. */
    ghost var logged: set<nat>
    /** The blocks as they were when the operation began. */
    ghost var began: seq<Block>
    /** Every `log_write` so far came while the operation had log budget left. */
    ghost var fits: bool

    constructor (s: State)
      requires s.Inv()
      ensures Now() == s && logged == {} && fits && began == disk && Valid()
    {
      sb, disk, core := s.sb, s.disk, s.core;
      owner, pend, dying := s.owner, s.pend, s.dying;
      logged, fits, began := {}, true, s.disk;
    }

    ghost function Now(): State
      reads this
    {
      State(sb, disk, core, owner, pend, dying)
    }

    ghost predicate Valid()
      reads this
    {
      Now().Inv() && Framed()
    }

    /** The operation changes no block that it has not logged, and logs no block of the log. */
    ghost predicate Framed()
      reads this`disk, this`logged, this`began
    {
      && |began| == |disk|
      && (forall b | b in logged :: sb.inodestart <= b < |disk|)
      && forall b | 0 <= b < |disk| && b !in logged :: disk[b] == began[b]
    }

    ghost predicate Live(i: nat)
      reads this
    {
      i < |core| && i !in dying
    }

    /** `begin_op`: a new operation has logged nothing. */
    ghost method StartOp()
      modifies this`logged, this`fits, this`began
      ensures logged == {} && fits && began == disk && Framed()
    {
      logged, fits, began := {}, true, disk;
    }

    /** `log_write` of a buffer with the given content. */
    method LogWrite(b: nat, data: Block)
      requires sb.inodestart <= b < |disk|
      modifies this`disk, this`logged, this`fits
      ensures disk == old(disk)[b := data]
      ensures logged == old(logged) + {b}
      ensures fits == (old(fits) && |old(logged)| < MAXOPBLOCKS)
      ensures old(Framed()) ==> Framed()
    {
      fits := fits && |logged| < MAXOPBLOCKS;
      logged := logged + {b};
      disk := disk[b := data];
    }

    /** Finds the first free block, marks it used and zeroes it; 0 if the disk is full. */
    method Balloc() returns (r: Uint)
      requires Valid()
      modifies this`disk, this`pend, this`logged, this`fits
      ensures Valid()
      ensures r == 0 ==>
        && Now() == old(Now()) && logged == old(logged) && fits == old(fits)
        && Full(Now())
      ensures r != 0 ==>
        && r < sb.size && sb.MapBlock(r) < |disk|
        && !old(Now()).Used(r) && (forall b | 0 <= b < r :: sb.MapBlock(b) < |disk| && old(Now()).Used(b))
        && Now() == old(Now()).Alloc(r)
        && logged == old(logged) + {sb.MapBlock(r), r as nat}
      ensures old(fits) && |logged| < MAXOPBLOCKS ==> fits
    {
      hide FileSystem.Framed;
      r := FindFree();
      if r != 0 {
        AllocKeeps(Now(), r);
        MapBlockRange(Now(), r);
        LogWrite(sb.MapBlock(r), PutBit(disk[sb.MapBlock(r)], r % BPB, true));
        LogWrite(r, ZeroBlock());
        pend := pend + {r};
        assert {sb.MapBlock(r), r as nat} == {sb.MapBlock(r)} + {r as nat};
        SubsetSize(old(logged), logged);
        SubsetSize(old(logged) + {sb.MapBlock(r)}, logged);
      }
    }

    /** The search of `balloc`: bitmap block by bitmap block, bit by bit. */
    method FindFree() returns (r: Uint)
      requires Valid()
      ensures r == 0 ==> Full(Now())
      ensures r != 0 ==>
        && r < sb.size && sb.MapBlock(r) < |disk| && !Now().Used(r)
        && forall b | 0 <= b < r :: sb.MapBlock(b) < |disk| && Now().Used(b)
    {
      hide State.Inv;
      ShapeOf(Now());
      var b := 0;
      ghost var q := 0;
      while b < sb.size
        invariant 0 <= q && b == q * BPB
        invariant forall c | 0 <= c < b && c < sb.size :: sb.MapBlock(c) < |disk| && Now().Used(c)
        decreases sb.size - b
      {
        SameMapBlock(q, 0);
        MapBlockRange(Now(), b);
        var bp := disk[sb.MapBlock(b)];
        var bi := 0;
        while bi < BPB && b + bi < sb.size
          invariant 0 <= bi <= BPB
          invariant forall c | 0 <= c < b + bi && c < sb.size :: sb.MapBlock(c) < |disk| && Now().Used(c)
        {
          SameMapBlock(q, bi);
          if !Bit(bp, bi) {
            ZeroIsUsed(Now());
            return b + bi;
          }
          bi := bi + 1;
        }
        b := b + BPB;
        q := q + 1;
      }
      return 0;
    }

    /** Frees a block; freeing a free block would be a panic. */
    method Bfree(b: nat)
      requires Valid() && b in pend
      modifies this`disk, this`pend, this`logged, this`fits
      ensures Valid() && sb.MapBlock(b) < |disk| && Now() == old(Now()).Free(b)
      ensures forall x | sb.datastart <= x < |disk| :: disk[x] == old(disk)[x]
      ensures forall j | 0 <= j < |core| && j !in dying :: SameFile(old(Now()), Now(), j)
      ensures SameInodeBlocks(old(Now()), Now())
    {
      FreeKeeps(Now(), b);
      MapBlockRange(Now(), b);
      var bp := disk[sb.MapBlock(b)];
      var bi := b % BPB;
      assert Bit(bp, bi);
      LogWrite(sb.MapBlock(b), PutBit(bp, bi, false));
      pend := pend - {b};
    }

    method Iupdate(i: nat)
      requires Valid() && i < |core|
      modifies this`disk, this`logged, this`fits
      ensures Valid() && sb.InodeBlock(i) < |disk| && |core[i].addrs| == NDIRECT + 1 && Now() == old(Now()).Update(i)
      ensures forall j | 0 <= j < |core| && j !in dying :: SameFile(old(Now()), Now(), j)
      ensures forall j | 0 <= j < |core| :: sb.InodeBlock(j) < |disk|
                && Now().OnDisk(j) == if j == i then core[i] else old(Now()).OnDisk(j)
      ensures logged == old(logged) + {sb.InodeBlock(i)}
      ensures fits == (old(fits) && |old(logged)| < MAXOPBLOCKS)
    {
      UpdateKeeps(Now(), i);
      InodeBlockRange(Now(), i);
      LogWrite(sb.InodeBlock(i), PutInode(disk[sb.InodeBlock(i)], i % IPB, core[i]));
    }

    /** `ip->addrs[k]`, allocated if it is not there yet; 0 if the disk is full. */
    method AddrSlot(i: nat, k: nat) returns (addr: Uint, ghost maps: set<nat>)
      requires Valid() && Live(i) && k <= NDIRECT
      modifies this`disk, this`core, this`owner, this`pend, this`logged, this`fits
      ensures Valid() && pend == old(pend) && Extends(old(Now()), Now(), i)
      ensures addr == Now().Ref(i, k)
      ensures addr == 0 ==> Full(Now())
      ensures old(Now().Ref(i, k)) != 0 || addr == 0 ==>
        Now() == old(Now()) && logged == old(logged) && fits == old(fits)
      ensures Live(i)
      ensures k != NDIRECT ==> Now().Ref(i, NDIRECT) == old(Now()).Ref(i, NDIRECT)
      ensures old(logged) <= logged <= old(logged) + maps + NonZero(addr)
      ensures |maps| <= if old(Now().Ref(i, k)) == 0 && addr != 0 then 1 else 0
      ensures old(fits) && |logged| < MAXOPBLOCKS ==> fits
    {
      hide Extends, Full, State.Inv, FileSystem.Framed;
      maps := {};
      ShapeOf(Now());
      ExtendsRefl(Now(), i);
      addr := core[i].addrs[k];
      if addr == 0 {
        addr := Balloc();
        if addr == 0 {
          return;
        }
        AllocAttach(old(Now()), i, k, addr);
        core := core[i := core[i].SetAddr(k, addr)];
        owner, pend := owner[addr := (i, k)], pend - {addr};
        maps := {sb.MapBlock(addr)};
      }
    }

    /** An entry of the indirect block, allocated if it is not there yet. */
    method IndirectEntry(i: nat, e: nat) returns (addr: Uint, ghost maps: set<nat>)
      requires Valid() && Live(i) && e < NINDIRECT && Now().Ref(i, NDIRECT) != 0
      modifies this`disk, this`owner, this`pend, this`logged, this`fits
      ensures Valid() && pend == old(pend) && Extends(old(Now()), Now(), i)
      ensures addr == Now().Ref(i, NDIRECT + 1 + e)
      ensures addr == 0 ==> Full(Now())
      ensures old(Now().Ref(i, NDIRECT + 1 + e)) != 0 || addr == 0 ==>
        Now() == old(Now()) && logged == old(logged) && fits == old(fits)
      ensures Now().Ref(i, NDIRECT) == old(Now()).Ref(i, NDIRECT)
      ensures old(logged) <= logged <= old(logged) + maps + NonZero(addr) + {Now().Ref(i, NDIRECT)}
      ensures |maps| <= if old(Now().Ref(i, NDIRECT + 1 + e)) == 0 then 1 else 0
      ensures old(fits) && |logged| < MAXOPBLOCKS ==> fits
    {
      hide Extends, Full, State.Inv, FileSystem.Framed, State.Ref;
      maps := {};
      ShapeOf(Now());
      ExtendsRefl(Now(), i);
      EntryAt(Now(), i, e);
      var a := disk[core[i].addrs[NDIRECT]];
      addr := Word(a, e);
      if addr == 0 {
        addr, maps := AddEntry(i, e);
      }
    }

    /** The entry gets a block of its own, if there is one. */
    method AddEntry(i: nat, e: nat) returns (addr: Uint, ghost maps: set<nat>)
      requires Valid() && Live(i) && e < NINDIRECT && Now().Ref(i, NDIRECT) != 0 && Now().Ref(i, NDIRECT + 1 + e) == 0
      modifies this`disk, this`owner, this`pend, this`logged, this`fits
      ensures Valid() && pend == old(pend) && Extends(old(Now()), Now(), i)
      ensures addr == Now().Ref(i, NDIRECT + 1 + e)
      ensures addr == 0 ==> Full(Now()) && Now() == old(Now()) && logged == old(logged) && fits == old(fits)
      ensures Now().Ref(i, NDIRECT) == old(Now()).Ref(i, NDIRECT)
      ensures old(logged) <= logged <= old(logged) + maps + NonZero(addr) + {Now().Ref(i, NDIRECT)} && |maps| <= 1
      ensures old(fits) && |logged| < MAXOPBLOCKS ==> fits
    {
      hide Extends, Full, State.Inv, FileSystem.Framed, State.Ref;
      maps := {};
      ShapeOf(Now());
      ExtendsRefl(Now(), i);
      EntryAt(Now(), i, e);
      var ind := core[i].addrs[NDIRECT];
      var a := disk[ind];
      addr := Balloc();
      if addr != 0 {
        AllocAttachIndirect(old(Now()), i, NDIRECT + 1 + e, addr);
        SubsetSize(logged, logged + {ind as nat});
        LogWrite(ind, PutWord(a, e, addr));
        owner, pend := owner[addr := (i, NDIRECT + 1 + e)], pend - {addr};
        maps := {sb.MapBlock(addr)};
        assert Now() == old(Now()).Alloc(addr).AttachIndirect(i, NDIRECT + 1 + e, addr);
      }
    }

    /** The block of a file's `bn`-th block of content, allocated if it is not there yet, together
        with the indirect block where that is needed; 0 if the disk is full. A block that is
        there is found without any change. `maps` are the free-map blocks logged. */
    method Bmap(i: nat, bn: nat) returns (addr: Uint, ghost maps: set<nat>)
      requires Valid() && Live(i) && bn < MAXFILE
      modifies this`disk, this`core, this`owner, this`pend, this`logged, this`fits
      ensures Valid() && Live(i) && pend == old(pend) && Extends(old(Now()), Now(), i)
      ensures addr == Now().DataRef(i, bn)
      ensures addr == 0 ==> Full(Now())
      ensures old(Now().DataRef(i, bn)) != 0 ==> Now() == old(Now()) && logged == old(logged) && fits == old(fits)
      ensures old(Now().Ref(i, NDIRECT)) != 0 ==> Now().Ref(i, NDIRECT) == old(Now().Ref(i, NDIRECT))
      ensures old(logged) <= logged <= old(logged) + maps + NonZero(addr) + NonZero(Now().Ref(i, NDIRECT))
      ensures |maps| <= (if old(Now().DataRef(i, bn)) == 0 then 1 else 0)
                        + (if old(Now().Ref(i, NDIRECT)) != Now().Ref(i, NDIRECT) then 1 else 0)
      ensures old(fits) && |logged| < MAXOPBLOCKS ==> fits
    {
      hide Extends, Full, State.Inv, FileSystem.Framed;
      if bn < NDIRECT {
        addr, maps := AddrSlot(i, bn);
        return;
      }
      var ind;
      ind, maps := AddrSlot(i, NDIRECT);
      if ind == 0 {
        return 0, {};
      }
      ghost var mid, midLogged := Now(), logged;
      ghost var more;
      addr, more := IndirectEntry(i, bn - NDIRECT);
      ExtendsTrans(old(Now()), mid, Now(), i);
      SubsetSize(midLogged, logged);
      maps := maps + more;
    }

    /** What one turn of `readi` copies out: as much as the block at `off` has of the `n` bytes. */
    method ReadPiece(i: nat, off: nat, n: nat) returns (piece: seq<Byte>)
      requires Valid() && Live(i) && 0 < n && off + n <= core[i].size
      modifies this`disk, this`core, this`owner, this`pend, this`logged, this`fits
      ensures Now() == old(Now()) && logged == old(logged) && fits == old(fits)
      ensures core[i].size <= MAXFILE * BSIZE
      ensures 0 < |piece| <= n && piece == Now().Content(i)[off..off + |piece|]
    {
      hide Extends, Full, State.Inv, FileSystem.Framed, State.Content, State.DataRef;
      ReadChunk(Now(), i, off, n);
      var addr, _ := Bmap(i, off / BSIZE);
      var at := off % BSIZE;
      var len := if n < BSIZE - at then n else BSIZE - at;
      piece := disk[addr][at..at + len];
    }

    /** Reads up to `n` bytes from `off`; `room` is how many bytes the destination can take before
        a copy-out fails. The result is the return value and the bytes copied out. Reading
        allocates and logs nothing. */
    method Readi(i: nat, off: Uint, n: Uint, room: nat) returns (r: int, out: seq<Byte>)
      requires Valid() && Live(i)
      modifies this`disk, this`core, this`owner, this`pend, this`logged, this`fits
      ensures Now() == old(Now()) && logged == old(logged) && fits == old(fits)
      ensures core[i].size <= MAXFILE * BSIZE
      ensures
        var want := ReadLength(core[i].size, off, n);
        if off > core[i].size || off + n >= 0x1_0000_0000 then r == 0 && out == []
        else if want <= room then r == want && out == Now().Content(i)[off..off + want]
        else r == -1 && |out| <= room && out == Now().Content(i)[off..off + |out|]
    {
      hide Extends, Full, State.Inv, State.Content;
      SizeBound(Now(), i);
      out := [];
      if off > core[i].size || off + n >= 0x1_0000_0000 {
        return 0, [];
      }
      var m := if off + n > core[i].size then core[i].size - off else n;
      ghost var content := Now().Content(i);
      var tot := 0;
      while tot < m
        invariant 0 <= tot <= m && tot <= room
        invariant Now() == old(Now()) && logged == old(logged) && fits == old(fits)
        invariant out == content[off..off + tot]
      {
        var piece := ReadPiece(i, off + tot, m - tot);
        if tot + |piece| > room {
          return -1, out;
        }
        out := out + piece;
        tot := tot + |piece|;
      }
      return tot, out;
    }

    /** One turn of `writei`'s loop: `n` bytes are still to be written at `off`, and `src` is what
        can be read of the source from here on. Returns how many bytes were written, or 0 if
        the disk is full or the source could not be read. */
    method WriteTurn(i: nat, off: nat, n: nat, src: seq<Byte>)
      returns (m: nat, ghost data: set<nat>, ghost maps: set<nat>)
      requires Valid() && Live(i) && 0 < n && off + n <= MAXFILE * BSIZE
      modifies this`disk, this`core, this`owner, this`pend, this`logged, this`fits
      ensures Valid() && Live(i)
      ensures m == 0 || m == TurnLength(off, n) <= |src|
      ensures m == 0 ==> Full(Now()) || |src| < TurnLength(off, n)
      ensures Wrote(old(Now()), Now(), i, off, src[..m])
      ensures old(Now().Ref(i, NDIRECT)) != 0 ==> Now().Ref(i, NDIRECT) == old(Now().Ref(i, NDIRECT))
      ensures logged <= old(logged) + data + maps + NonZero(Now().Ref(i, NDIRECT))
      ensures |data| <= 1
      ensures off / BSIZE < MAXFILE
      ensures |maps| <= (if old(Now().DataRef(i, off / BSIZE)) == 0 then 1 else 0)
                        + (if old(Now().Ref(i, NDIRECT)) != Now().Ref(i, NDIRECT) then 1 else 0)
      ensures old(fits) && |logged| < MAXOPBLOCKS ==> fits
    {
      hide Extends, Full, State.Inv, FileSystem.Framed, Wrote, State.DataRef, State.Ref;
      var addr;
      addr, maps := Bmap(i, off / BSIZE);
      data := NonZero(addr);
      ghost var mid, midLogged := Now(), logged;
      ExtendsWrote(old(Now()), mid, i, off);
      assert src[..0] == [];
      if addr == 0 {
        return 0, data, maps;
      }
      m := TurnLength(off, n);
      if m > |src| {
        return 0, data, maps;
      }
      WriteDataWrote(mid, i, off, src[..m]);
      WroteTrans(old(Now()), mid, mid.WriteData(addr, PutBytes(disk[addr], off % BSIZE, src[..m])), i,
                 off, [], off, src[..m], src[..m]);
      DataRange(mid, i, off / BSIZE);
      LogWrite(addr, PutBytes(disk[addr], off % BSIZE, src[..m]));
      SubsetSize(midLogged, logged);
      assert Now() == mid.WriteData(addr, PutBytes(mid.disk[addr], off % BSIZE, src[..m]));
      WriteDataRefs(mid, i, off / BSIZE, PutBytes(mid.disk[addr], off % BSIZE, src[..m]));
    }

    /** The loop of `writei`. The ghost result says how many turns it took and which data and
        free-map blocks it logged. */
    method WriteLoop(i: nat, src: seq<Byte>, off: nat, n: nat) returns (tot: nat, ghost tally: Tally)
      requires Valid() && Live(i) && off <= core[i].size && off + n <= MAXFILE * BSIZE
      modifies this`disk, this`core, this`owner, this`pend, this`logged, this`fits
      ensures Valid() && Live(i)
      ensures tot <= n && (!Full(Now()) ==> tot == Readable(off, n, |src|))
      ensures Progress(old(Now()), old(logged), Now(), logged, i, src, off, n, tot, tally)
      ensures old(logged) == {} && old(fits) && n <= CHUNK ==> fits
    {
      hide Extends, Full, State.Inv, FileSystem.Framed, Wrote, State.DataRef, State.Ref, Progress, Paced, TurnLength;
      hide Readable;
      tot, tally := 0, Tally(0, {}, {});
      ProgressStart(Now(), logged, i, src, off, n);
      while tot < n
        invariant 0 <= tot <= n && tot <= |src|
        invariant Valid() && Live(i)
        invariant Progress(old(Now()), old(logged), Now(), logged, i, src, off, n, tot, tally)
        invariant Paced(off, tot, n, tally.turns)
        invariant old(logged) == {} && old(fits) && n <= CHUNK ==> fits
      {
        ghost var before, beforeLogged := Now(), logged;
        var m;
        ghost var data, maps;
        m, data, maps := WriteTurn(i, off + tot, n - tot, src[tot..]);
        ProgressTurn(old(Now()), old(logged), before, beforeLogged, Now(), logged, i, src, off, n, tot, tally,
                     m, data, maps);
        tally := Tally(tally.turns + 1, tally.data + data, tally.maps + maps);
        if old(logged) == {} && n <= CHUNK {
          Budget(old(Now()), Now(), logged, i, src, off, n, tot + m, tally);
        }
        if m == 0 {
          if !Full(Now()) {
            TurnUnreadable(off, tot, n, tally.turns - 1, |src|);
          }
          break;
        }
        tot := tot + m;
      }
    }

    /** Writes `n` bytes at `off`; `src` is as much of the source as can be read. A copy that
        fails changes nothing.  Unless the disk is full, all that can be read is written, up to
        the last whole turn of the loop. */
    method Writei(i: nat, src: seq<Byte>, off: Uint, n: Uint) returns (r: int)
      requires Valid() && Live(i)
      modifies this`disk, this`core, this`owner, this`pend, this`logged, this`fits
      ensures Valid() && Live(i) && |core| == old(|core|) && pend == old(pend)
      ensures old(core[i].size) <= MAXFILE * BSIZE && core[i].size <= MAXFILE * BSIZE
      ensures WriteRejected(old(core[i].size), off, n) ==>
        r == -1 && Now() == old(Now()) && logged == old(logged) && fits == old(fits)
      ensures !WriteRejected(old(core[i].size), off, n) ==>
        && 0 <= r <= n && r <= |src|
        && (!Full(Now()) ==> r == Readable(off, n, |src|))
        && Now().Content(i) == Splice(old(Now()).Content(i), off, src[..r])
        && core[i].kind == old(core[i].kind) && core[i].links == old(core[i].links)
        && (forall j | 0 <= j < |core| && j != i && j !in dying :: SameFile(old(Now()), Now(), j))
        && (forall j | 0 <= j < |core| :: sb.InodeBlock(j) < |disk| && sb.InodeBlock(j) < old(|disk|)
              && Now().OnDisk(j) == if j == i then core[i] else old(Now()).OnDisk(j))
      ensures old(logged) == {} && old(fits) && n <= CHUNK ==> fits && |logged| <= MAXOPBLOCKS
    {
      hide Extends, Full, State.Inv, FileSystem.Framed, Wrote, State.Ref, State.DataRef, Progress, State.Content;
      hide State.OnDisk, SameFile, Splice, Readable;
      SizeBound(Now(), i);
      if off > core[i].size || off + n >= 0x1_0000_0000 {
        return -1;
      }
      if off + n > MAXFILE * BSIZE {
        return -1;
      }
      var tot;
      ghost var tally;
      tot, tally := WriteLoop(i, src, off, n);
      ghost var mid := Now();
      ProgressWrote(old(Now()), old(logged), mid, logged, i, src, off, n, tot, tally);
      if old(logged) == {} && n <= CHUNK {
        Budget(old(Now()), mid, logged, i, src, off, n, tot, tally);
      }
      ghost var size := if off + tot > core[i].size then off + tot else core[i].size;
      FinishWrite(old(Now()), mid, i, off, src[..tot], size);
      FullAfter(mid, i, size);
      EndWrite(i, off + tot);
      r := tot;
    }

    /** The end of `writei`: the file reaches to `end` at least, and the inode goes to disk. */
    method EndWrite(i: nat, end: Uint)
      requires Valid() && i < |core|
      requires Now().Resize(i, if end > core[i].size then end else core[i].size).Inv()
      modifies this`disk, this`core, this`logged, this`fits
      ensures sb.InodeBlock(i) < old(|disk|) && |old(core)[i].addrs| == NDIRECT + 1
      ensures
        var size := old(core[i].size);
        Valid() && Now() == old(Now()).Resize(i, if end > size then end else size).Update(i)
      ensures logged == old(logged) + {sb.InodeBlock(i)}
      ensures fits == (old(fits) && |old(logged)| < MAXOPBLOCKS)
    {
      hide State.Inv, FileSystem.Framed, State.OnDisk, SameFile;
      InReach(Now(), i);
      SetSizeSame(Now(), i);
      if end > core[i].size {
        core := core[i := core[i].SetSize(end)];
      }
      Iupdate(i);
    }

    /** Discards the file's content: every block the inode refers to is freed, and no other. */
    method Itrunc(i: nat)
      requires Valid() && Live(i)
      modifies this`disk, this`core, this`owner, this`pend, this`dying, this`logged, this`fits
      ensures Valid() && Live(i) && |core| == old(|core|) && pend == old(pend) && dying == old(dying)
      ensures core[i] == Inode(old(core[i].kind), old(core[i].links), 0, seq(NDIRECT + 1, _ => 0))
      ensures forall b | 0 <= b < sb.size :: sb.MapBlock(b) < |disk| && sb.MapBlock(b) < old(|disk|)
                && (Now().Used(b) <==> old(Now()).Used(b) && !(b in old(owner) && old(owner)[b].0 == i))
      ensures forall j | 0 <= j < |core| && j != i && j !in dying :: SameFile(old(Now()), Now(), j)
      ensures forall j | 0 <= j < |core| :: sb.InodeBlock(j) < |disk| && sb.InodeBlock(j) < old(|disk|)
                && Now().OnDisk(j) == if j == i then core[i] else old(Now()).OnDisk(j)
    {
      hide State.Inv, FileSystem.Framed, State.Ref, SameFile, State.OnDisk, State.Used, Freeing, Emptied;
      ghost var s := Now();
      OrphanKeeps(s, i);
      owner, pend, dying := Orphan(s, i).owner, Orphan(s, i).pend, dying + {i};
      FreeDirectBlocks(i, s);
      FreeingFacts(s, Now(), i, NDIRECT);
      if core[i].addrs[NDIRECT] != 0 {
        FreeIndirectBlocks(i, s);
      } else {
        NoIndirect(s, Now(), i);
      }
      EmptiedFacts(s, Now(), i);
      Revive(s, Now(), i);
      core := core[i := core[i].SetSize(0)];
      dying := s.dying;
      ghost var u := Now();
      Iupdate(i);
      TruncateDone(s, u, Now(), i);
    }

    /** The first loop of `itrunc`. */
    method FreeDirectBlocks(i: nat, ghost s: State)
      requires s.Inv() && i !in s.dying && Freeing(s, Now(), i, 0) && Framed()
      modifies this`disk, this`core, this`pend, this`logged, this`fits
      ensures Freeing(s, Now(), i, NDIRECT) && Framed()
    {
      hide State.Inv, FileSystem.Framed, Freeing;
      var k := 0;
      while k < NDIRECT
        invariant 0 <= k <= NDIRECT
        invariant Freeing(s, Now(), i, k) && Framed()
      {
        FreeingFacts(s, Now(), i, k);
        FreeDirect(s, Now(), i, k);
        if core[i].addrs[k] != 0 {
          Bfree(core[i].addrs[k]);
          core := core[i := core[i].SetAddr(k, 0)];
        }
        k := k + 1;
      }
    }

    /** The rest of `itrunc`'s frees: the entries of the indirect block, then that block. */
    method FreeIndirectBlocks(i: nat, ghost s: State)
      requires s.Inv() && i !in s.dying && Freeing(s, Now(), i, NDIRECT) && s.Ref(i, NDIRECT) != 0 && Framed()
      modifies this`disk, this`core, this`pend, this`logged, this`fits
      ensures Emptied(s, Now(), i) && Framed()
    {
      hide State.Inv, FileSystem.Framed, State.Ref, Freeing, Emptied;
      SkipIndirect(s, Now(), i);
      FreeingFacts(s, Now(), i, NDIRECT + 1);
      var ind := core[i].addrs[NDIRECT];
      var a := disk[ind];
      var j := 0;
      while j < NINDIRECT
        invariant 0 <= j <= NINDIRECT
        invariant Freeing(s, Now(), i, NDIRECT + 1 + j) && Framed()
      {
        FreeingFacts(s, Now(), i, NDIRECT + 1 + j);
        FreeEntry(s, Now(), i, NDIRECT + 1 + j);
        if Word(a, j) != 0 {
          Bfree(Word(a, j));
        }
        j := j + 1;
      }
      FreeingFacts(s, Now(), i, SLOTS);
      FreeIndirect(s, Now(), i);
      Bfree(ind);
      core := core[i := core[i].SetAddr(NDIRECT, 0)];
    }
  }

  /** Putting the phases of `itrunc` together. */
  lemma TruncateDone(s: State, u: State, v: State, i: nat)
    requires s.Inv() && i < |s.core| == |u.core| && u.sb == s.sb && |u.disk| == |s.disk| && u.Inv()
    requires u.dying == s.dying && v == u.Update(i) && SameInodeBlocks(s, u)
    requires forall j | 0 <= j < |s.core| && j != i && j !in s.dying :: SameFile(s, u, j)
    requires forall b | 0 <= b < s.sb.size :: s.sb.MapBlock(b) < |s.disk| &&
               (u.Used(b) <==> s.Used(b) && !(b in s.owner && s.owner[b].0 == i))
    ensures forall j | 0 <= j < |s.core| && j != i && j !in s.dying :: SameFile(s, v, j)
    ensures forall b | 0 <= b < s.sb.size :: s.sb.MapBlock(b) < |s.disk| &&
              (v.Used(b) <==> s.Used(b) && !(b in s.owner && s.owner[b].0 == i))
    ensures forall j | 0 <= j < |s.core| :: s.sb.InodeBlock(j) < |s.disk|
              && v.OnDisk(j) == if j == i then v.core[i] else s.OnDisk(j)
  {
    UpdateKeeps(u, i);
    InodeBlockRange(u, i);
    forall j | 0 <= j < |s.core| && j != i && j !in s.dying ensures SameFile(s, v, j) {
      SameFileTrans(s, u, v, j);
    }
    forall b | 0 <= b < s.sb.size ensures v.Used(b) == u.Used(b) {
      MapBlockRange(s, b);
    }
    forall j | 0 <= j < |s.core|
      ensures s.sb.InodeBlock(j) < |s.disk| && v.OnDisk(j) == if j == i then v.core[i] else s.OnDisk(j)
    {
      SameInodeBlocksOnDisk(s, u, j);
    }
  }

  /** An entry of the indirect block, as it is found there. */
  lemma EntryAt(s: State, i: nat, e: nat)
    requires s.Inv() && i < |s.core| && i !in s.dying && e < NINDIRECT && s.Ref(i, NDIRECT) != 0
    ensures |s.core[i].addrs| == NDIRECT + 1 && s.core[i].addrs[NDIRECT] == s.Ref(i, NDIRECT)
    ensures s.sb.inodestart <= s.Ref(i, NDIRECT) < |s.disk|
    ensures Word(s.disk[s.Ref(i, NDIRECT)], e) == s.Ref(i, NDIRECT + 1 + e)
  {
    ShapeOf(s);
    RefsAreUsed(s, i, NDIRECT);
  }

  predicate WriteRejected(size: nat, off: nat, n: nat) {
    off > size || off + n >= 0x1_0000_0000 || off + n > MAXFILE * BSIZE
  }

  lemma ProgressWrote(s: State, slogged: set<nat>, t: State, tlogged: set<nat>,
                      i: nat, src: seq<Byte>, off: nat, n: nat, tot: nat, tally: Tally)
    requires Progress(s, slogged, t, tlogged, i, src, off, n, tot, tally)
    ensures tot <= |src| && Wrote(s, t, i, off, src[..tot])
    ensures t.sb == s.sb && t.pend == s.pend && t.dying == s.dying && |t.core| == |s.core| && i < |s.core|
    ensures |t.disk| == |s.disk|
    ensures t.core[i].size == s.core[i].size && t.core[i].kind == s.core[i].kind && t.core[i].links == s.core[i].links
  {
  }

  lemma FullAfter(s: State, i: nat, n: Uint)
    requires s.Inv() && i < |s.core|
    ensures s.sb.InodeBlock(i) < |s.disk| && |s.core[i].addrs| == NDIRECT + 1
    ensures Full(s) ==> Full(s.Resize(i, n).Update(i))
  {
    InodeBlockRange(s, i);
    var t := s.Resize(i, n).Update(i);
    if Full(s) {
      forall b | 0 <= b < t.sb.size ensures t.sb.MapBlock(b) < |t.disk| && t.Used(b) {
        MapBlockRange(s, b);
      }
    }
  }

  lemma InReach(s: State, i: nat)
    requires s.Inv() && i < |s.core|
    ensures s.sb.InodeBlock(i) < |s.disk| && |s.core[i].addrs| == NDIRECT + 1
  {
    InodeBlockRange(s, i);
  }

  lemma SetSizeSame(s: State, i: nat)
    requires i < |s.core|
    ensures s.Resize(i, s.core[i].size) == s
  {
    assert s.core[i].SetSize(s.core[i].size) == s.core[i];
  }

  /** What the loop of `writei` has logged, apart from the indirect block. */
  datatype Tally = Tally(turns: nat, data: set<nat>, maps: set<nat>)

  /** The loop of `writei` has logged a data block for each turn; and a free-map block for each
      allocation, of which the first turn has none if it starts inside a block, because that
      block is there already. `ind` and `ind'` are the indirect block, before and after. */
  ghost predicate Tallied(slogged: set<nat>, tlogged: set<nat>, ind: nat, ind': nat, off: nat, tally: Tally) {
    && |tally.data| <= tally.turns
    && |tally.maps| <= tally.turns - (if tally.turns > 0 && off % BSIZE != 0 then 1 else 0)
                       + (if ind != ind' then 1 else 0)
    && (ind != ind' ==> ind == 0)
    && tlogged <= slogged + tally.data + tally.maps + NonZero(ind')
  }

  lemma TallyTurn(slogged: set<nat>, tlogged: set<nat>, ulogged: set<nat>, ind: nat, ind': nat, ind'': nat,
                  off: nat, tally: Tally, data: set<nat>, maps: set<nat>, allocs: nat)
    requires Tallied(slogged, tlogged, ind, ind', off, tally)
    requires ind' != 0 ==> ind'' == ind'
    requires |data| <= 1 && |maps| <= allocs + (if ind' != ind'' then 1 else 0)
    requires allocs <= if tally.turns == 0 && off % BSIZE != 0 then 0 else 1
    requires ulogged <= tlogged + data + maps + NonZero(ind'')
    ensures Tallied(slogged, ulogged, ind, ind'', off, Tally(tally.turns + 1, tally.data + data, tally.maps + maps))
  {
    UnionSize(tally.data, data);
    UnionSize(tally.maps, maps);
  }

  /** The loop of `writei` from state `s` to state `t`: the first `tot` bytes are written. */
  ghost predicate Progress(s: State, slogged: set<nat>, t: State, tlogged: set<nat>,
                           i: nat, src: seq<Byte>, off: nat, n: nat, tot: nat, tally: Tally)
  {
    && i < |s.core| && i < |t.core|
    && tot <= |src| && Wrote(s, t, i, off, src[..tot])
    && (tally.turns == 0 ==> tot == 0 && t == s)
    && TurnsBounded(off, n, tally.turns)
    && Tallied(slogged, tlogged, s.Ref(i, NDIRECT), t.Ref(i, NDIRECT), off, tally)
  }

  lemma ProgressStart(s: State, logged: set<nat>, i: nat, src: seq<Byte>, off: nat, n: nat)
    requires s.Inv() && i < |s.core| && i !in s.dying
    ensures Progress(s, logged, s, logged, i, src, off, n, 0, Tally(0, {}, {}))
    ensures Paced(off, 0, n, 0)
  {
    ExtendsRefl(s, i);
    ExtendsWrote(s, s, i, off);
    assert src[..0] == [];
  }

  lemma ProgressTurn(s: State, slogged: set<nat>, t: State, tlogged: set<nat>, u: State, ulogged: set<nat>,
                     i: nat, src: seq<Byte>, off: nat, n: nat, tot: nat, tally: Tally,
                     m: nat, data: set<nat>, maps: set<nat>)
    requires s.Inv() && i < |s.core| && i !in s.dying && off <= s.core[i].size
    requires tot < n && Progress(s, slogged, t, tlogged, i, src, off, n, tot, tally)
    requires Paced(off, tot, n, tally.turns)
    requires m <= |src| - tot && Wrote(t, u, i, off + tot, src[tot..][..m]) && i < |u.core|
    requires m == 0 || m == TurnLength(off + tot, n - tot)
    requires t.Ref(i, NDIRECT) != 0 ==> u.Ref(i, NDIRECT) == t.Ref(i, NDIRECT)
    requires |data| <= 1 && (off + tot) / BSIZE < MAXFILE
    requires |maps| <= (if t.DataRef(i, (off + tot) / BSIZE) == 0 then 1 else 0)
                       + (if t.Ref(i, NDIRECT) != u.Ref(i, NDIRECT) then 1 else 0)
    requires ulogged <= tlogged + data + maps + NonZero(u.Ref(i, NDIRECT))
    ensures Progress(s, slogged, u, ulogged, i, src, off, n, tot + m,
                     Tally(tally.turns + 1, tally.data + data, tally.maps + maps))
    ensures m > 0 ==> Paced(off, tot + m, n, tally.turns + 1)
  {
    hide State.Ref, State.DataRef, State.Inv, Wrote, Paced, TurnLength, TurnsBounded, Tallied;
    NextTurn(off, tot, n, tally.turns);
    if tally.turns == 0 && off % BSIZE != 0 {
      InsideBlock(s, i, off);
    }
    TallyTurn(slogged, tlogged, ulogged, s.Ref(i, NDIRECT), t.Ref(i, NDIRECT), u.Ref(i, NDIRECT), off, tally,
              data, maps, if t.DataRef(i, (off + tot) / BSIZE) == 0 then 1 else 0);
    WroteTrans(s, t, u, i, off, src[..tot], off + tot, src[tot..][..m], src[..tot + m]);
  }

  /** A position inside a block at or below the file's size is in a block that is there. */
  lemma InsideBlock(s: State, i: nat, off: nat)
    requires s.Inv() && i < |s.core| && i !in s.dying && off <= s.core[i].size
    requires off % BSIZE != 0 && off / BSIZE < MAXFILE
    ensures s.DataRef(i, off / BSIZE) != 0
  {
    assert s.Backed(i);
    assert off / BSIZE * BSIZE < off;
  }

  /** A chunk takes at most four turns, three if it starts at a block boundary; so it logs at
      most four data blocks, four free-map blocks and an indirect block. */
  lemma Budget(s: State, t: State, logged: set<nat>, i: nat, src: seq<Byte>, off: nat, n: nat, tot: nat, tally: Tally)
    requires Progress(s, {}, t, logged, i, src, off, n, tot, tally) && n <= CHUNK
    ensures |logged| < MAXOPBLOCKS
  {
    hide Wrote;
    SubsetSize(logged, tally.data + tally.maps + NonZero(t.Ref(i, NDIRECT)));
  }

  /** The most that `filewrite` gives to one `writei`. */
  const CHUNK: nat := ((MAXOPBLOCKS - 1 - 1 - 2) / 2) * BSIZE

  predicate TurnsBounded(off: nat, n: nat, turns: nat) {
    turns == 0 || (turns - 1) * BSIZE < n + off % BSIZE
  }

  /** Before a turn that is not the first, the write is at a block boundary. */
  predicate Paced(off: nat, tot: nat, n: nat, turns: nat) {
    && (turns == 0 ==> tot == 0)
    && (tot < n ==> turns * BSIZE <= tot + off % BSIZE)
    && (tot < n && turns > 0 ==> (off + tot) % BSIZE == 0)
  }

  lemma NextTurn(off: nat, tot: nat, n: nat, turns: nat)
    requires Paced(off, tot, n, turns) && tot < n
    ensures Paced(off, tot + TurnLength(off + tot, n - tot), n, turns + 1)
    ensures TurnsBounded(off, n, turns + 1)
  {
  }

  /** `min(n - tot, BSIZE - off % BSIZE)`. */
  function TurnLength(off: nat, n: nat): (m: nat)
    requires n > 0
    ensures 0 < m <= n && off % BSIZE + m <= BSIZE
  {
    if n < BSIZE - off % BSIZE then n else BSIZE - off % BSIZE
  }

  /** How many of `n` bytes to be written at `off` the loop of `writei` gets to if the first `have` of
      them can be read: all, or those up to the last block boundary. */
  function Readable(off: nat, n: nat, have: nat): (m: nat)
    ensures m <= n && m <= have && (m == n <==> n <= have)
  {
    if n <= have then n
    else if (off + have) / BSIZE * BSIZE <= off then 0
    else (off + have) / BSIZE * BSIZE - off
  }

  lemma TurnUnreadable(off: nat, tot: nat, n: nat, turns: nat, have: nat)
    requires Paced(off, tot, n, turns) && tot < n && tot <= have && have - tot < TurnLength(off + tot, n - tot)
    ensures tot == Readable(off, n, have)
  {
    assert (off + have) / BSIZE == (off + tot) / BSIZE;
  }

  lemma DataRange(s: State, i: nat, bn: nat)
    requires s.Inv() && i < |s.core| && i !in s.dying && bn < MAXFILE && s.DataRef(i, bn) != 0
    ensures s.sb.inodestart <= s.DataRef(i, bn) < |s.disk|
  {
    RefsAreUsed(s, i, if bn < NDIRECT then bn else bn + 1);
  }

  lemma WriteDataRefs(s: State, i: nat, bn: nat, data: Block)
    requires s.Inv() && i < |s.core| && i !in s.dying && bn < MAXFILE && s.DataRef(i, bn) != 0
    ensures s.DataRef(i, bn) < |s.disk|
    ensures s.WriteData(s.DataRef(i, bn), data).Ref(i, NDIRECT) == s.Ref(i, NDIRECT)
  {
    WriteDataKeeps(s, i, bn, data);
  }

  /** How many bytes a read of `n` bytes at `off` is to return. */
  function ReadLength(size: nat, off: nat, n: nat): nat {
    if off > size then 0 else if off + n > size then size - off else n
  }

  lemma SizeBound(s: State, i: nat)
    requires s.Inv() && i < |s.core| && i !in s.dying
    ensures s.core[i].size <= MAXFILE * BSIZE
  {
    assert s.Backed(i);
  }

  /** The part of one block that a read takes is the matching part of the content. */
  lemma ReadChunk(s: State, i: nat, off: nat, n: nat)
    requires s.Inv() && i < |s.core| && i !in s.dying
    requires 0 < n && off + n <= s.core[i].size
    ensures s.core[i].size <= MAXFILE * BSIZE && off / BSIZE < MAXFILE
    ensures 0 < s.DataRef(i, off / BSIZE) < |s.disk|
    ensures
      var at := off % BSIZE;
      var len := if n < BSIZE - at then n else BSIZE - at;
      s.disk[s.DataRef(i, off / BSIZE)][at..at + len] == s.Content(i)[off..off + len]
  {
    BackedAt(s, i, off);
    var at := off % BSIZE;
    PieceAt(s, i, off, if n < BSIZE - at then n else BSIZE - at);
  }

  /** A position below the file's size has a block. */
  lemma BackedAt(s: State, i: nat, off: nat)
    requires s.Inv() && i < |s.core| && i !in s.dying && off < s.core[i].size
    ensures s.core[i].size <= MAXFILE * BSIZE && off / BSIZE < MAXFILE
    ensures 0 < s.DataRef(i, off / BSIZE) < |s.disk|
  {
    assert s.Backed(i);
    var bn := off / BSIZE;
    assert bn * BSIZE <= off && s.DataRef(i, bn) != 0;
    RefsAreUsed(s, i, if bn < NDIRECT then bn else bn + 1);
  }

  lemma PieceAt(s: State, i: nat, off: nat, len: nat)
    requires i < |s.core| && off + len <= s.core[i].size <= MAXFILE * BSIZE
    requires off % BSIZE + len <= BSIZE && off / BSIZE < MAXFILE
    requires 0 < s.DataRef(i, off / BSIZE) < |s.disk|
    ensures s.disk[s.DataRef(i, off / BSIZE)][off % BSIZE..off % BSIZE + len] == s.Content(i)[off..off + len]
  {
    hide State.DataRef;
    var piece := s.Content(i)[off..off + len];
    forall k | 0 <= k < len ensures piece[k] == s.disk[s.DataRef(i, off / BSIZE)][off % BSIZE + k] {
      SameBlock(off, k);
    }
  }

  function NonZero(b: nat): (s: set<nat>) {
    if b == 0 then {} else {b}
  }

  /** No block is free. */
  ghost predicate Full(s: State) {
    forall b | 0 <= b < s.sb.size :: s.sb.MapBlock(b) < |s.disk| && s.Used(b)
  }

  lemma ZeroIsUsed(s: State)
    requires s.Inv()
    ensures s.sb.MapBlock(0) < |s.disk| && s.Used(0)
  {
    MapBlockRange(s, 0);
    assert s.BitOk(0);
  }
}
