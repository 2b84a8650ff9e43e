/** What each step of `kernel/fs.c` keeps: the ownership of blocks, and the files it does not
    work on. */
module FsSteps {
  import opened Blocks
  import opened Common
  import opened FsState

  /** Nothing about the file has changed: neither its inode nor any of its blocks. */
  ghost predicate SameFile(s: State, t: State, i: nat) {
    && |s.core| == |t.core| && |s.disk| == |t.disk| && i < |s.core|
    && t.core[i] == s.core[i]
    && (forall k | 0 <= k < SLOTS :: t.Ref(i, k) == s.Ref(i, k))
    && (forall k | 0 <= k < SLOTS && 0 < s.Ref(i, k) < |s.disk| :: t.disk[s.Ref(i, k)] == s.disk[s.Ref(i, k)])
  }

  lemma SameFileContent(s: State, t: State, i: nat)
    requires SameFile(s, t, i) && s.core[i].size <= MAXFILE * BSIZE
    ensures t.Content(i) == s.Content(i)
  {
    forall p | 0 <= p < s.core[i].size ensures t.RawByte(i, p) == s.RawByte(i, p) {
      assert t.DataRef(i, p / BSIZE) == s.DataRef(i, p / BSIZE);
    }
  }

  lemma SameFileTrans(s: State, t: State, u: State, i: nat)
    requires SameFile(s, t, i) && SameFile(t, u, i)
    ensures SameFile(s, u, i)
  {
  }

  /** A change to blocks that the file does not use leaves it alone. */
  lemma SameFileByBlocks(s: State, t: State, i: nat)
    requires i < |s.core| && s.core == t.core && |s.disk| == |t.disk|
    requires forall k | 0 <= k < SLOTS && 0 < s.Ref(i, k) < |s.disk| :: t.disk[s.Ref(i, k)] == s.disk[s.Ref(i, k)]
    ensures SameFile(s, t, i)
  {
    forall k | 0 <= k < SLOTS ensures t.Ref(i, k) == s.Ref(i, k) {
      assert s.Ref(i, NDIRECT) == t.Ref(i, NDIRECT);
    }
  }

  lemma MapBlockRange(s: State, b: nat)
    requires s.sb.Valid() && b < s.sb.size
    ensures s.sb.bmapstart <= s.sb.MapBlock(b) < s.sb.datastart
  {
  }

  lemma InodeBlockRange(s: State, i: nat)
    requires s.sb.Valid() && i < s.sb.ninodes
    ensures s.sb.inodestart <= s.sb.InodeBlock(i) < s.sb.bmapstart
  {
  }

  /** Setting or clearing one bit of the free map changes that bit. */
  lemma BitChange(s: State, b: nat, on: bool, c: nat)
    requires s.Shape() && b < s.sb.size && c < s.sb.size
    ensures s.sb.MapBlock(b) < |s.disk| && s.sb.MapBlock(c) < |s.disk|
    ensures
      var m := s.sb.MapBlock(b);
      Bit(s.disk[m := PutBit(s.disk[m], b % BPB, on)][s.sb.MapBlock(c)], c % BPB)
      == if b == c then on else s.Used(c)
  {
    MapBlockRange(s, b);
    MapBlockRange(s, c);
    if s.sb.MapBlock(b) == s.sb.MapBlock(c) {
      BitPut(s.disk[s.sb.MapBlock(b)], b % BPB, on, c % BPB);
      assert b == BPB * (b / BPB) + b % BPB && c == BPB * (c / BPB) + c % BPB;
    }
  }

  lemma ShapeOf(s: State)
    requires s.Inv()
    ensures s.Shape()
  {
  }

  /** References that the free map does not know of do not exist. */
  lemma RefsAreUsed(s: State, i: nat, k: nat)
    requires s.Inv() && i < |s.core| && i !in s.dying && k < SLOTS && s.Ref(i, k) != 0
    ensures s.sb.datastart <= s.Ref(i, k) < s.sb.size
    ensures s.Ref(i, k) in s.owner && s.owner[s.Ref(i, k)] == (i, k)
    ensures s.Ref(i, k) !in s.pend && s.sb.MapBlock(s.Ref(i, k)) < |s.disk| && s.Used(s.Ref(i, k))
  {
    assert s.Owned(i, k);
    var b := s.Ref(i, k);
    assert s.OwnerOk(b);
    MapBlockRange(s, b);
    assert s.BitOk(b);
  }

  lemma AllocKeeps(s: State, b: nat)
    requires s.Inv() && b < s.sb.size
    requires s.sb.MapBlock(b) < |s.disk| && !s.Used(b)
    ensures s.sb.datastart <= b && b !in s.owner && b !in s.pend
    ensures s.Alloc(b).Inv()
    ensures s.Alloc(b).disk[b] == ZeroBlock()
    ensures forall i | 0 <= i < |s.core| && i !in s.dying :: SameFile(s, s.Alloc(b), i)
  {
    MapBlockRange(s, b);
    assert s.BitOk(b);
    var t := s.Alloc(b);
    forall i | 0 <= i < |s.core| && i !in s.dying ensures SameFile(s, t, i) {
      forall k | 0 <= k < SLOTS && 0 < s.Ref(i, k) < |s.disk| ensures t.disk[s.Ref(i, k)] == s.disk[s.Ref(i, k)] {
        RefsAreUsed(s, i, k);
      }
      SameFileByBlocks(s, t, i);
    }
    AllocBits(s, b);
    SameRefsInv(s, t);
  }

  lemma AllocBits(s: State, b: nat)
    requires s.Inv() && s.sb.datastart <= b < s.sb.size
    requires s.sb.MapBlock(b) < |s.disk| && !s.Used(b)
    ensures forall c | 0 <= c < s.sb.size :: s.sb.MapBlock(c) < |s.disk| && s.Alloc(b).BitOk(c)
  {
    forall c | 0 <= c < s.sb.size ensures s.sb.MapBlock(c) < |s.disk| && s.Alloc(b).BitOk(c) {
      BitChange(s, b, true, c);
      MapBlockRange(s, b);
      MapBlockRange(s, c);
      assert s.BitOk(c);
    }
  }

  /** The invariant follows when files and owners stay and the free map is right. */
  lemma SameRefsInv(s: State, t: State)
    requires s.Inv() && t.Shape() && t.owner == s.owner && t.dying == s.dying && t.sb == s.sb
    requires forall i | 0 <= i < |s.core| && i !in s.dying :: SameFile(s, t, i)
    requires forall b | 0 <= b < t.sb.size :: t.sb.MapBlock(b) < |t.disk| && t.BitOk(b)
    requires forall b | b in t.pend :: t.sb.datastart <= b < t.sb.size && b !in t.owner
    ensures t.Inv()
  {
    forall i, k | 0 <= i < |t.core| && 0 <= k < SLOTS ensures t.Owned(i, k) {
      assert s.Owned(i, k);
    }
    forall b | b in t.owner ensures t.OwnerOk(b) {
      assert s.OwnerOk(b);
    }
    forall i | 0 <= i < |t.core| && i !in t.dying ensures t.Backed(i) {
      SameFileBacked(s, t, i);
    }
  }

  lemma SameFileBacked(s: State, t: State, i: nat)
    requires SameFile(s, t, i) && s.Backed(i)
    ensures t.Backed(i)
  {
    forall bn | 0 <= bn < MAXFILE && bn * BSIZE < t.core[i].size ensures t.DataRef(i, bn) != 0 {
      assert t.DataRef(i, bn) == s.DataRef(i, bn);
    }
  }

  /** The inode blocks, and so the inodes on disk, are as they were. */
  ghost predicate SameInodeBlocks(s: State, t: State) {
    t.sb == s.sb && |t.disk| == |s.disk| && forall x | 0 <= x < s.sb.bmapstart && x < |s.disk| :: t.disk[x] == s.disk[x]
  }

  lemma FreeKeeps(s: State, b: nat)
    requires s.Inv() && b in s.pend
    ensures s.sb.MapBlock(b) < |s.disk| && s.Used(b)
    ensures s.Free(b).Inv() && SameInodeBlocks(s, s.Free(b))
    ensures forall x | s.sb.datastart <= x < |s.disk| :: s.Free(b).disk[x] == s.disk[x]
    ensures forall i | 0 <= i < |s.core| && i !in s.dying :: SameFile(s, s.Free(b), i)
  {
    MapBlockRange(s, b);
    assert s.BitOk(b);
    var t := s.Free(b);
    forall i | 0 <= i < |s.core| && i !in s.dying ensures SameFile(s, t, i) {
      forall k | 0 <= k < SLOTS && 0 < s.Ref(i, k) < |s.disk| ensures t.disk[s.Ref(i, k)] == s.disk[s.Ref(i, k)] {
        RefsAreUsed(s, i, k);
      }
      SameFileByBlocks(s, t, i);
    }
    FreeBits(s, b);
    SameRefsInv(s, t);
  }

  lemma FreeBits(s: State, b: nat)
    requires s.Inv() && b in s.pend
    ensures s.sb.MapBlock(b) < |s.disk|
    ensures forall c | 0 <= c < s.sb.size :: s.sb.MapBlock(c) < |s.disk| && s.Free(b).BitOk(c)
  {
    MapBlockRange(s, b);
    forall c | 0 <= c < s.sb.size ensures s.sb.MapBlock(c) < |s.disk| && s.Free(b).BitOk(c) {
      BitChange(s, b, false, c);
      assert s.BitOk(c);
    }
  }

  /** One more reference, in a slot that had none, to a block that nobody owned. */
  ghost predicate OneMore(s: State, t: State, i: nat, k: nat, b: nat) {
    && i < |s.core| == |t.core| && k < SLOTS && |t.disk| == |s.disk|
    && t.sb == s.sb && t.dying == s.dying
    && t.owner == s.owner[b := (i, k)] && t.pend == s.pend - {b}
    && t.core[i].size == s.core[i].size
    && (forall j | 0 <= j < |s.core| && j != i && j !in s.dying :: SameFile(s, t, j))
    && (forall k' | 0 <= k' < SLOTS :: t.Ref(i, k') == if k' == k then b else s.Ref(i, k'))
  }

  lemma OneMoreInv(s: State, t: State, i: nat, k: nat, b: nat)
    requires s.Inv() && OneMore(s, t, i, k, b) && t.Shape()
    requires i !in s.dying && s.Ref(i, k) == 0 && b in s.pend
    requires forall c | 0 <= c < s.sb.size :: t.sb.MapBlock(c) < |t.disk| && t.Used(c) == s.Used(c)
    ensures t.Inv()
  {
    forall j, k' | 0 <= j < |t.core| && 0 <= k' < SLOTS ensures t.Owned(j, k') {
      assert s.Owned(j, k');
      assert j != i && j !in s.dying ==> SameFile(s, t, j);
    }
    forall c | c in t.owner ensures t.OwnerOk(c) {
      if c != b {
        assert s.OwnerOk(c);
        assert s.owner[c].0 != i ==> SameFile(s, t, s.owner[c].0);
      }
    }
    forall c | 0 <= c < t.sb.size ensures t.BitOk(c) {
      assert s.BitOk(c);
    }
    forall j | 0 <= j < |t.core| && j !in t.dying ensures t.Backed(j) {
      if j == i {
        OneMoreBacked(s, t, i, k, b);
      } else {
        SameFileBacked(s, t, j);
      }
    }
  }

  lemma OneMoreBacked(s: State, t: State, i: nat, k: nat, b: nat)
    requires OneMore(s, t, i, k, b) && s.Backed(i) && b != 0
    ensures t.Backed(i)
  {
    forall bn | 0 <= bn < MAXFILE && bn * BSIZE < t.core[i].size ensures t.DataRef(i, bn) != 0 {
      assert s.DataRef(i, bn) != 0;
    }
  }

  lemma AttachKeeps(s: State, i: nat, k: nat, b: Uint)
    requires s.Inv() && i < |s.core| && i !in s.dying && k <= NDIRECT && s.Ref(i, k) == 0 && b in s.pend
    requires k == NDIRECT ==> s.disk[b] == ZeroBlock()
    ensures s.Attach(i, k, b).Inv()
    ensures OneMore(s, s.Attach(i, k, b), i, k, b)
  {
    var t := s.Attach(i, k, b);
    forall j | 0 <= j < |s.core| && j != i && j !in s.dying ensures SameFile(s, t, j) {
      forall k' | 0 <= k' < SLOTS ensures t.Ref(j, k') == s.Ref(j, k') {
      }
    }
    forall k' | 0 <= k' < SLOTS ensures t.Ref(i, k') == if k' == k then b else s.Ref(i, k') {
      if k == NDIRECT && k' > NDIRECT {
        ZeroWord(k' - NDIRECT - 1);
      }
    }
    forall c | 0 <= c < s.sb.size ensures t.sb.MapBlock(c) < |t.disk| && t.Used(c) == s.Used(c) {
      MapBlockRange(s, c);
    }
    OneMoreInv(s, t, i, k, b);
  }

  lemma AttachIndirectKeeps(s: State, i: nat, k: nat, b: Uint)
    requires s.Inv() && i < |s.core| && i !in s.dying && NDIRECT < k < SLOTS
    requires s.Ref(i, NDIRECT) != 0 && s.Ref(i, k) == 0 && b in s.pend
    ensures s.core[i].addrs[NDIRECT] < |s.disk|
    ensures s.AttachIndirect(i, k, b).Inv()
    ensures OneMore(s, s.AttachIndirect(i, k, b), i, k, b)
    ensures SameInodeBlocks(s, s.AttachIndirect(i, k, b))
  {
    RefsAreUsed(s, i, NDIRECT);
    var ind := s.Ref(i, NDIRECT);
    var t := s.AttachIndirect(i, k, b);
    forall j | 0 <= j < |s.core| && j != i && j !in s.dying ensures SameFile(s, t, j) {
      forall k' | 0 <= k' < SLOTS && 0 < s.Ref(j, k') < |s.disk| ensures t.disk[s.Ref(j, k')] == s.disk[s.Ref(j, k')] {
        RefsAreUsed(s, j, k');
      }
      SameFileByBlocks(s, t, j);
    }
    forall k' | 0 <= k' < SLOTS ensures t.Ref(i, k') == if k' == k then b else s.Ref(i, k') {
      if k' > NDIRECT {
        WordPut(s.disk[ind], k - NDIRECT - 1, b, k' - NDIRECT - 1);
      }
    }
    forall c | 0 <= c < s.sb.size ensures t.sb.MapBlock(c) < |t.disk| && t.Used(c) == s.Used(c) {
      MapBlockRange(s, c);
    }
    OneMoreInv(s, t, i, k, b);
  }

  lemma WriteDataKeeps(s: State, i: nat, bn: nat, data: Block)
    requires s.Inv() && i < |s.core| && i !in s.dying && bn < MAXFILE && s.DataRef(i, bn) != 0
    ensures s.DataRef(i, bn) < |s.disk|
    ensures
      var t := s.WriteData(s.DataRef(i, bn), data);
      && t.Inv() && SameInodeBlocks(s, t)
      && (forall j | 0 <= j < |s.core| && j != i && j !in s.dying :: SameFile(s, t, j))
      && (forall k | 0 <= k < SLOTS :: t.Ref(i, k) == s.Ref(i, k))
  {
    var slot := if bn < NDIRECT then bn else bn + 1;
    RefsAreUsed(s, i, slot);
    var b := s.Ref(i, slot);
    var t := s.WriteData(b, data);
    forall j | 0 <= j < |s.core| && j != i && j !in s.dying ensures SameFile(s, t, j) {
      forall k | 0 <= k < SLOTS && 0 < s.Ref(j, k) < |s.disk| ensures t.disk[s.Ref(j, k)] == s.disk[s.Ref(j, k)] {
        RefsAreUsed(s, j, k);
      }
      SameFileByBlocks(s, t, j);
    }
    forall k | 0 <= k < SLOTS ensures t.Ref(i, k) == s.Ref(i, k) {
      if k > NDIRECT && s.Ref(i, NDIRECT) != 0 {
        RefsAreUsed(s, i, NDIRECT);
      }
    }
    SameBitsInv(s, t, i);
  }

  /** The invariant follows when references and the free map stay. */
  lemma SameBitsInv(s: State, t: State, i: nat)
    requires s.Inv() && t.Shape() && t.owner == s.owner && t.dying == s.dying && t.sb == s.sb && t.pend == s.pend
    requires i < |s.core| == |t.core| && i !in s.dying && |t.disk| == |s.disk|
    requires t.core[i].size == s.core[i].size
    requires forall j | 0 <= j < |s.core| && j != i && j !in s.dying :: SameFile(s, t, j)
    requires forall k | 0 <= k < SLOTS :: t.Ref(i, k) == s.Ref(i, k)
    requires forall x | 0 <= x < s.sb.datastart :: t.disk[x] == s.disk[x]
    ensures t.Inv()
  {
    forall j, k | 0 <= j < |t.core| && 0 <= k < SLOTS ensures t.Owned(j, k) {
      assert s.Owned(j, k);
      assert j != i && j !in s.dying ==> SameFile(s, t, j);
    }
    forall c | c in t.owner ensures t.OwnerOk(c) {
      assert s.OwnerOk(c);
      assert s.owner[c].0 != i ==> SameFile(s, t, s.owner[c].0);
    }
    forall c | 0 <= c < t.sb.size ensures t.BitOk(c) {
      MapBlockRange(s, c);
      assert s.BitOk(c);
    }
    forall j | 0 <= j < |t.core| && j !in t.dying ensures t.Backed(j) {
      if j == i {
        forall bn | 0 <= bn < MAXFILE && bn * BSIZE < t.core[i].size ensures t.DataRef(i, bn) != 0 {
          assert s.Backed(i) && s.DataRef(i, bn) != 0;
        }
      } else {
        SameFileBacked(s, t, j);
      }
    }
  }

  lemma ResizeKeeps(s: State, i: nat, n: Uint)
    requires s.Inv() && i < |s.core| && i !in s.dying && n <= MAXFILE * BSIZE
    requires forall bn | 0 <= bn < MAXFILE && bn * BSIZE < n :: s.DataRef(i, bn) != 0
    ensures s.Resize(i, n).Inv()
    ensures forall j | 0 <= j < |s.core| && j != i && j !in s.dying :: SameFile(s, s.Resize(i, n), j)
    ensures forall k | 0 <= k < SLOTS :: s.Resize(i, n).Ref(i, k) == s.Ref(i, k)
  {
    var t := s.Resize(i, n);
    forall j, k | 0 <= j < |t.core| && 0 <= k < SLOTS ensures t.Ref(j, k) == s.Ref(j, k) && t.Owned(j, k) {
      assert s.Owned(j, k);
    }
    forall c | c in t.owner ensures t.OwnerOk(c) {
      assert s.OwnerOk(c);
    }
    forall c | 0 <= c < t.sb.size ensures t.BitOk(c) {
      MapBlockRange(s, c);
      assert s.BitOk(c);
    }
    forall j | 0 <= j < |t.core| && j !in t.dying ensures t.Backed(j) {
      if j == i {
        assert forall bn | 0 <= bn < MAXFILE :: t.DataRef(i, bn) == s.DataRef(i, bn);
      } else {
        assert SameFile(s, t, j);
        SameFileBacked(s, t, j);
      }
    }
  }

  /** `iupdate` changes one inode on disk, and no file. */
  lemma UpdateKeeps(s: State, i: nat)
    requires s.Inv() && i < |s.core|
    ensures s.sb.InodeBlock(i) < |s.disk|
    ensures s.Update(i).Inv()
    ensures forall j | 0 <= j < |s.core| && j !in s.dying :: SameFile(s, s.Update(i), j)
    ensures forall j | 0 <= j < |s.core| :: s.sb.InodeBlock(j) < |s.disk|
              && s.Update(i).OnDisk(j) == if j == i then s.core[i] else s.OnDisk(j)
  {
    InodeBlockRange(s, i);
    var t := s.Update(i);
    forall j | 0 <= j < |s.core| && j !in s.dying ensures SameFile(s, t, j) {
      forall k | 0 <= k < SLOTS && 0 < s.Ref(j, k) < |s.disk| ensures t.disk[s.Ref(j, k)] == s.disk[s.Ref(j, k)] {
        RefsAreUsed(s, j, k);
      }
      SameFileByBlocks(s, t, j);
    }
    forall c | 0 <= c < t.sb.size ensures t.sb.MapBlock(c) < |t.disk| && t.BitOk(c) {
      MapBlockRange(s, c);
      assert s.BitOk(c);
    }
    SameRefsInv(s, t);
    forall j | 0 <= j < |s.core|
      ensures s.sb.InodeBlock(j) < |s.disk| && t.OnDisk(j) == if j == i then s.core[i] else s.OnDisk(j)
    {
      InodeBlockRange(s, j);
      InodeRoundTrip(s.disk[s.sb.InodeBlock(i)], i % IPB, s.core[i], j % IPB);
    }
  }

  lemma SameInodeBlocksOnDisk(s: State, t: State, j: nat)
    requires s.Shape() && SameInodeBlocks(s, t) && j < s.sb.ninodes
    ensures s.sb.InodeBlock(j) < |s.disk| && t.OnDisk(j) == s.OnDisk(j)
  {
    InodeBlockRange(s, j);
  }

  // Growing a file.

  /** The file may have new blocks, but all it had is as it was, and so are the other files and
      the inodes on disk. */
  ghost predicate Extends(s: State, t: State, i: nat) {
    && t.sb == s.sb && t.dying == s.dying && |t.core| == |s.core| && i < |s.core|
    && SameInodeBlocks(s, t)
    && t.core[i].kind == s.core[i].kind && t.core[i].links == s.core[i].links && t.core[i].size == s.core[i].size
    && (forall j | 0 <= j < |s.core| && j != i && j !in s.dying :: SameFile(s, t, j))
    && (forall bn | 0 <= bn < MAXFILE && s.DataRef(i, bn) != 0 ::
          t.DataRef(i, bn) == s.DataRef(i, bn)
          && (s.DataRef(i, bn) < |s.disk| ==> t.disk[s.DataRef(i, bn)] == s.disk[s.DataRef(i, bn)]))
  }

  lemma ExtendsRefl(s: State, i: nat)
    requires i < |s.core|
    ensures Extends(s, s, i)
  {
  }

  lemma ExtendsTrans(s: State, t: State, u: State, i: nat)
    requires Extends(s, t, i) && Extends(t, u, i)
    ensures Extends(s, u, i)
  {
    forall j | 0 <= j < |s.core| && j != i && j !in s.dying ensures SameFile(s, u, j) {
      SameFileTrans(s, t, u, j);
    }
  }

  lemma AllocExtends(s: State, b: nat, i: nat)
    requires s.Inv() && b < s.sb.size && i < |s.core| && i !in s.dying
    requires s.sb.MapBlock(b) < |s.disk| && !s.Used(b)
    ensures Extends(s, s.Alloc(b), i)
    ensures forall k | 0 <= k < SLOTS :: s.Alloc(b).Ref(i, k) == s.Ref(i, k)
  {
    AllocKeeps(s, b);
    MapBlockRange(s, b);
    var t := s.Alloc(b);
    assert SameFile(s, t, i);
    forall bn | 0 <= bn < MAXFILE && s.DataRef(i, bn) != 0
      ensures t.DataRef(i, bn) == s.DataRef(i, bn)
      ensures s.DataRef(i, bn) < |s.disk| ==> t.disk[s.DataRef(i, bn)] == s.disk[s.DataRef(i, bn)]
    {
      assert t.Ref(i, if bn < NDIRECT then bn else bn + 1) == s.Ref(i, if bn < NDIRECT then bn else bn + 1);
    }
  }

  lemma AttachExtends(s: State, i: nat, k: nat, b: Uint)
    requires s.Inv() && i < |s.core| && i !in s.dying && k <= NDIRECT && s.Ref(i, k) == 0 && b in s.pend
    requires k == NDIRECT ==> s.disk[b] == ZeroBlock()
    ensures Extends(s, s.Attach(i, k, b), i)
  {
    AttachKeeps(s, i, k, b);
  }

  lemma AttachIndirectExtends(s: State, i: nat, k: nat, b: Uint)
    requires s.Inv() && i < |s.core| && i !in s.dying && NDIRECT < k < SLOTS
    requires s.Ref(i, NDIRECT) != 0 && s.Ref(i, k) == 0 && b in s.pend
    ensures s.core[i].addrs[NDIRECT] < |s.disk|
    ensures Extends(s, s.AttachIndirect(i, k, b), i)
  {
    AttachIndirectKeeps(s, i, k, b);
    var t := s.AttachIndirect(i, k, b);
    forall bn | 0 <= bn < MAXFILE && s.DataRef(i, bn) != 0
      ensures t.DataRef(i, bn) == s.DataRef(i, bn)
      ensures s.DataRef(i, bn) < |s.disk| ==> t.disk[s.DataRef(i, bn)] == s.disk[s.DataRef(i, bn)]
    {
      RefsAreUsed(s, i, if bn < NDIRECT then bn else bn + 1);
      RefsAreUsed(s, i, NDIRECT);
    }
  }

  /** Allocating a block and entering it in the inode, taken together. */
  lemma AllocAttach(s: State, i: nat, k: nat, b: Uint)
    requires s.Inv() && i < |s.core| && i !in s.dying && k <= NDIRECT && s.Ref(i, k) == 0
    requires b < s.sb.size && s.sb.MapBlock(b) < |s.disk| && !s.Used(b)
    ensures b != 0 && |s.core[i].addrs| == NDIRECT + 1
    ensures
      var t := s.Alloc(b).Attach(i, k, b);
      t.Inv() && Extends(s, t, i) && t.Ref(i, k) == b && t.pend == s.pend
  {
    AllocKeeps(s, b);
    AllocExtends(s, b, i);
    var m := s.Alloc(b);
    AttachKeeps(m, i, k, b);
    AttachExtends(m, i, k, b);
    ExtendsTrans(s, m, m.Attach(i, k, b), i);
  }

  lemma AllocAttachIndirect(s: State, i: nat, k: nat, b: Uint)
    requires s.Inv() && i < |s.core| && i !in s.dying && NDIRECT < k < SLOTS
    requires s.Ref(i, NDIRECT) != 0 && s.Ref(i, k) == 0
    requires b < s.sb.size && s.sb.MapBlock(b) < |s.disk| && !s.Used(b)
    ensures b != 0 && |s.core[i].addrs| == NDIRECT + 1 && s.core[i].addrs[NDIRECT] < |s.disk|
    ensures s.Alloc(b).disk[s.core[i].addrs[NDIRECT]] == s.disk[s.core[i].addrs[NDIRECT]]
    ensures
      var t := s.Alloc(b).AttachIndirect(i, k, b);
      t.Inv() && Extends(s, t, i) && t.Ref(i, k) == b && t.pend == s.pend && t.Ref(i, NDIRECT) == s.Ref(i, NDIRECT)
  {
    AllocKeeps(s, b);
    AllocExtends(s, b, i);
    RefsAreUsed(s, i, NDIRECT);
    var m := s.Alloc(b);
    assert SameFile(s, m, i);
    AttachIndirectKeeps(m, i, k, b);
    AttachIndirectExtends(m, i, k, b);
    ExtendsTrans(s, m, m.AttachIndirect(i, k, b), i);
  }

  // Writing to a file.

  /** The byte at a position, if the file has a block for it, whether below its size or not. */
  function ByteAt(s: State, i: nat, p: nat): Option<Byte>
    requires i < |s.core| && p < MAXFILE * BSIZE
  {
    if s.DataRef(i, p / BSIZE) == 0 then None else Some(s.RawByte(i, p))
  }

  /** The bytes of `data` are at `off`; every other byte that was there still is; and no other
      file nor any inode on disk has changed. */
  ghost predicate Wrote(s: State, t: State, i: nat, off: nat, data: seq<Byte>) {
    && t.sb == s.sb && t.dying == s.dying && t.pend == s.pend && |t.core| == |s.core| && i < |s.core|
    && SameInodeBlocks(s, t)
    && t.core[i].kind == s.core[i].kind && t.core[i].links == s.core[i].links && t.core[i].size == s.core[i].size
    && (forall j | 0 <= j < |s.core| && j != i && j !in s.dying :: SameFile(s, t, j))
    && forall p | 0 <= p < MAXFILE * BSIZE ::
         if off <= p < off + |data| then ByteAt(t, i, p) == Some(data[p - off])
         else ByteAt(s, i, p).Some? ==> ByteAt(t, i, p) == ByteAt(s, i, p)
  }

  lemma WroteTrans(s: State, t: State, u: State, i: nat, off: nat, a: seq<Byte>, next: nat, b: seq<Byte>,
                   all: seq<Byte>)
    requires next == off + |a| && all == a + b
    requires Wrote(s, t, i, off, a) && Wrote(t, u, i, next, b)
    ensures Wrote(s, u, i, off, all)
  {
    forall j | 0 <= j < |s.core| && j != i && j !in s.dying ensures SameFile(s, u, j) {
      SameFileTrans(s, t, u, j);
    }
  }

  lemma ExtendsWrote(s: State, t: State, i: nat, off: nat)
    requires s.Inv() && i !in s.dying && Extends(s, t, i) && t.pend == s.pend
    ensures Wrote(s, t, i, off, [])
  {
    forall p | 0 <= p < MAXFILE * BSIZE && ByteAt(s, i, p).Some? ensures ByteAt(t, i, p) == ByteAt(s, i, p) {
      var bn := p / BSIZE;
      assert s.DataRef(i, bn) != 0;
      RefsAreUsed(s, i, if bn < NDIRECT then bn else bn + 1);
    }
  }

  /** Different blocks of a file's content are in different blocks of the disk. */
  lemma DataRefsDiffer(s: State, i: nat, a: nat, b: nat)
    requires s.Inv() && i < |s.core| && i !in s.dying && a < MAXFILE && b < MAXFILE && a != b
    requires s.DataRef(i, a) != 0
    ensures s.DataRef(i, a) != s.DataRef(i, b) && s.DataRef(i, a) < |s.disk|
  {
    RefsAreUsed(s, i, if a < NDIRECT then a else a + 1);
    if s.DataRef(i, b) != 0 {
      RefsAreUsed(s, i, if b < NDIRECT then b else b + 1);
    }
  }

  /** Changing part of one data block writes those bytes of the file. */
  lemma WriteDataWrote(s: State, i: nat, off: nat, data: seq<Byte>)
    requires s.Inv() && i < |s.core| && i !in s.dying && off / BSIZE < MAXFILE
    requires off % BSIZE + |data| <= BSIZE && s.DataRef(i, off / BSIZE) != 0
    ensures s.DataRef(i, off / BSIZE) < |s.disk|
    ensures
      var b := s.DataRef(i, off / BSIZE);
      var t := s.WriteData(b, PutBytes(s.disk[b], off % BSIZE, data));
      t.Inv() && Wrote(s, t, i, off, data)
  {
    var bn := off / BSIZE;
    var b := s.DataRef(i, bn);
    RefsAreUsed(s, i, if bn < NDIRECT then bn else bn + 1);
    var changed := PutBytes(s.disk[b], off % BSIZE, data);
    WriteDataKeeps(s, i, bn, changed);
    var t := s.WriteData(b, changed);
    forall p | 0 <= p < MAXFILE * BSIZE
      ensures if off <= p < off + |data| then ByteAt(t, i, p) == Some(data[p - off])
              else ByteAt(s, i, p).Some? ==> ByteAt(t, i, p) == ByteAt(s, i, p)
    {
      WriteDataByte(s, t, i, off, data, p);
    }
  }

  lemma WriteDataByte(s: State, t: State, i: nat, off: nat, data: seq<Byte>, p: nat)
    requires s.Inv() && i < |s.core| && i !in s.dying && off / BSIZE < MAXFILE && p < MAXFILE * BSIZE
    requires off % BSIZE + |data| <= BSIZE && 0 < s.DataRef(i, off / BSIZE) < |s.disk|
    requires
      var b := s.DataRef(i, off / BSIZE);
      t == s.WriteData(b, PutBytes(s.disk[b], off % BSIZE, data))
    requires forall k | 0 <= k < SLOTS :: t.Ref(i, k) == s.Ref(i, k)
    ensures if off <= p < off + |data| then ByteAt(t, i, p) == Some(data[p - off])
            else ByteAt(s, i, p).Some? ==> ByteAt(t, i, p) == ByteAt(s, i, p)
  {
    hide State.Inv, State.Ref;
    assert t.DataRef(i, p / BSIZE) == s.DataRef(i, p / BSIZE);
    if off <= p < off + |data| {
      SameBlock(off, p - off);
    } else if p / BSIZE == off / BSIZE {
      SameBlockOnly(off, |data|, p);
    } else if s.DataRef(i, p / BSIZE) != 0 {
      DataRefsDiffer(s, i, p / BSIZE, off / BSIZE);
    }
  }

  /** The new size is backed once everything up to it has been written. */
  lemma WroteBacked(s: State, t: State, i: nat, off: nat, data: seq<Byte>, n: nat)
    requires s.Inv() && i !in s.dying && Wrote(s, t, i, off, data)
    requires off <= s.core[i].size && off + |data| <= MAXFILE * BSIZE
    requires n == if off + |data| > s.core[i].size then off + |data| else s.core[i].size
    ensures n <= MAXFILE * BSIZE
    ensures forall p | 0 <= p < n :: ByteAt(t, i, p).Some?
    ensures forall bn | 0 <= bn < MAXFILE && bn * BSIZE < n :: t.DataRef(i, bn) != 0
  {
    assert s.Backed(i);
    forall p | 0 <= p < n ensures ByteAt(t, i, p).Some? {
      if p < s.core[i].size {
        assert (p / BSIZE) * BSIZE <= p;
        assert ByteAt(s, i, p).Some?;
      }
    }
    forall bn | 0 <= bn < MAXFILE && bn * BSIZE < n ensures t.DataRef(i, bn) != 0 {
      assert ByteAt(t, i, bn * BSIZE).Some?;
    }
  }

  /** `old` with `data` in place of the bytes at `off`, and longer if `data` reaches past its end. */
  function Splice(before: seq<Byte>, off: nat, data: seq<Byte>): (c: seq<Byte>)
    requires off <= |before|
  {
    before[..off] + data + (if off + |data| < |before| then before[off + |data|..] else [])
  }

  /** What was written is what the file then contains. */
  lemma WroteContent(s: State, t: State, i: nat, off: nat, data: seq<Byte>, n: Uint)
    requires s.Inv() && i !in s.dying && Wrote(s, t, i, off, data)
    requires off <= s.core[i].size && off + |data| <= MAXFILE * BSIZE
    requires n == if off + |data| > s.core[i].size then off + |data| else s.core[i].size
    ensures s.core[i].size <= MAXFILE * BSIZE && n <= MAXFILE * BSIZE
    ensures t.Resize(i, n).Content(i) == Splice(s.Content(i), off, data)
  {
    WroteBacked(s, t, i, off, data, n);
    assert s.Backed(i);
    var u := t.Resize(i, n);
    forall p | 0 <= p < n ensures u.Content(i)[p] == Splice(s.Content(i), off, data)[p] {
      assert u.DataRef(i, p / BSIZE) == t.DataRef(i, p / BSIZE);
      assert ByteAt(t, i, p) == Some(u.RawByte(i, p));
      if !(off <= p < off + |data|) {
        assert (p / BSIZE) * BSIZE <= p;
        assert ByteAt(s, i, p) == Some(s.RawByte(i, p));
      }
    }
  }

  /** The end of `writei`: the new size, then the inode to disk. */
  lemma FinishWrite(s: State, t: State, i: nat, off: nat, data: seq<Byte>, n: Uint)
    requires s.Inv() && t.Inv() && i !in s.dying && Wrote(s, t, i, off, data)
    requires off <= s.core[i].size && off + |data| <= MAXFILE * BSIZE
    requires n == if off + |data| > s.core[i].size then off + |data| else s.core[i].size
    ensures s.core[i].size <= MAXFILE * BSIZE && n <= MAXFILE * BSIZE
    ensures t.Resize(i, n).Inv() && t.sb.InodeBlock(i) < |t.disk| && |t.core[i].addrs| == NDIRECT + 1
    ensures
      var v := t.Resize(i, n).Update(i);
      && v.Inv() && v.Content(i) == Splice(s.Content(i), off, data)
      && (forall j | 0 <= j < |s.core| && j != i && j !in s.dying :: SameFile(s, v, j))
      && (forall j | 0 <= j < |s.core| :: s.sb.InodeBlock(j) < |s.disk|
            && v.OnDisk(j) == if j == i then v.core[i] else s.OnDisk(j))
  {
    WroteBacked(s, t, i, off, data, n);
    WroteContent(s, t, i, off, data, n);
    ResizeKeeps(t, i, n);
    var u := t.Resize(i, n);
    UpdateKeeps(u, i);
    var v := u.Update(i);
    SameFileContent(u, v, i);
    forall j | 0 <= j < |s.core| && j != i && j !in s.dying ensures SameFile(s, v, j) {
      SameFileTrans(s, t, u, j);
      SameFileTrans(s, u, v, j);
    }
    forall j | 0 <= j < |s.core|
      ensures s.sb.InodeBlock(j) < |s.disk| && v.OnDisk(j) == if j == i then v.core[i] else s.OnDisk(j)
    {
      SameInodeBlocksOnDisk(s, t, j);
    }
  }
}
