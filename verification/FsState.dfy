/** The on-disk file system of `kernel/fs.c` as the inode layer sees it: the blocks as they
    stand in the running transaction, and the inodes as they stand in memory. */
module FsState {
  import opened Blocks

  const NDIRECT: nat := 12
  const NINDIRECT: nat := 256
  const MAXFILE: nat := 268
  /** Inodes per block. */
  const IPB: nat := 16
  /** Places of an inode that can refer to a block: the direct ones, the indirect block, and the
      entries of the indirect block. */
  const SLOTS: nat := 269

  datatype Super = Super(size: nat, ninodes: nat, inodestart: nat, bmapstart: nat, datastart: nat) {
    /** Inode blocks, then free map, then data, as the layout comment of `fs.h` has it. */
    predicate Valid() {
      && inodestart + ninodes / IPB < bmapstart
      && bmapstart + size / BPB < datastart <= size < 0x1_0000_0000
    }

    function InodeBlock(i: nat): nat {
      i / IPB + inodestart
    }

    function MapBlock(b: nat): nat {
      b / BPB + bmapstart
    }
  }

  /** An inode's on-disk fields. `kind` and `links` stand for the four 16-bit fields before the
      size, which content operations carry along unchanged. */
  datatype Inode = Inode(kind: Uint, links: Uint, size: Uint, addrs: seq<Uint>) {
    function SetAddr(k: nat, b: Uint): Inode
      requires k < |addrs|
    {
      Inode(kind, links, size, addrs[k := b])
    }

    function SetSize(n: Uint): Inode {
      Inode(kind, links, n, addrs)
    }
  }

  /** `disk` is the blocks and `core` the inodes.  The rest is bookkeeping: `owner` says which slot
      of which inode refers to a block; `pend` are the blocks marked used that no slot owns, for
      example between the allocation of a block and its entry in an inode; `dying` are the
      inodes that are being truncated, whose blocks are all pending. */
  datatype State = State(sb: Super, disk: seq<Block>, core: seq<Inode>,
                         owner: map<nat, (nat, nat)>, pend: set<nat>, dying: set<nat>)
  {

    /** The free-map bit of a block. */
    predicate Used(b: nat)
      requires sb.MapBlock(b) < |disk|
    {
      Bit(disk[sb.MapBlock(b)], b % BPB)
    }

    /** The block that a slot of an inode refers to, or 0. */
    function Ref(i: nat, k: nat): (b: nat)
      requires i < |core| && k < SLOTS
    {
      if |core[i].addrs| != NDIRECT + 1 then 0
      else if k <= NDIRECT then core[i].addrs[k]
      else
        var ind := core[i].addrs[NDIRECT];
        if ind == 0 || ind >= |disk| then 0 else Word(disk[ind], k - NDIRECT - 1)
    }

    /** The block that holds the `bn`-th block of a file's content. */
    function DataRef(i: nat, bn: nat): (b: nat)
      requires i < |core| && bn < MAXFILE
    {
      Ref(i, if bn < NDIRECT then bn else bn + 1)
    }

    ghost predicate Shape() {
      && sb.Valid() && |disk| >= sb.size && |core| == sb.ninodes
      && forall i | 0 <= i < |core| :: |core[i].addrs| == NDIRECT + 1
    }

    /** Every reference is to a data block, and to one that this slot owns. */
    ghost predicate Owned(i: nat, k: nat)
      requires i < |core| && k < SLOTS
    {
      var b := Ref(i, k);
      b != 0 && i !in dying ==> b in owner && owner[b] == (i, k)
    }

    ghost predicate OwnerOk(b: nat)
      requires b in owner
    {
      && sb.datastart <= b < sb.size
      && owner[b].0 < |core| && owner[b].1 < SLOTS && owner[b].0 !in dying
      && Ref(owner[b].0, owner[b].1) == b
    }

    /** A block is marked used exactly if it is metadata, owned, or just allocated. */
    ghost predicate BitOk(b: nat)
      requires sb.MapBlock(b) < |disk|
    {
      Used(b) <==> b < sb.datastart || b in owner || b in pend
    }

    /** All the blocks below the file's size are there. */
    ghost predicate Backed(i: nat)
      requires i < |core|
    {
      && core[i].size <= MAXFILE * BSIZE
      && forall bn | 0 <= bn < MAXFILE && bn * BSIZE < core[i].size :: DataRef(i, bn) != 0
    }

    ghost predicate Inv() {
      && Shape()
      && (forall i, k | 0 <= i < |core| && 0 <= k < SLOTS :: Owned(i, k))
      && (forall b | b in owner :: OwnerOk(b))
      && (forall b | 0 <= b < sb.size :: BitOk(b))
      && (forall b | b in pend :: sb.datastart <= b < sb.size && b !in owner)
      && (forall i | 0 <= i < |core| && i !in dying :: Backed(i))
    }

    // File content.

    /** The byte at a position of a file, as far as there is a block for it. */
    function RawByte(i: nat, p: nat): Byte
      requires i < |core| && p < MAXFILE * BSIZE
    {
      var b := DataRef(i, p / BSIZE);
      if b == 0 || b >= |disk| then 0 else disk[b][p % BSIZE]
    }

    function Content(i: nat): (c: seq<Byte>)
      requires i < |core| && core[i].size <= MAXFILE * BSIZE
      ensures |c| == core[i].size
    {
      seq(core[i].size, p requires 0 <= p < core[i].size => RawByte(i, p))
    }

    // Inodes on disk.

    function OnDisk(i: nat): Inode
      requires sb.InodeBlock(i) < |disk|
    {
      GetInode(disk[sb.InodeBlock(i)], i % IPB)
    }

    // Steps.

    /** `balloc`: mark the block used, and zero it. */
    function Alloc(b: nat): State
      requires sb.MapBlock(b) < |disk| && b < |disk|
    {
      State(sb, disk[sb.MapBlock(b) := PutBit(disk[sb.MapBlock(b)], b % BPB, true)][b := ZeroBlock()],
            core, owner, pend + {b}, dying)
    }

    /** `bfree`. */
    function Free(b: nat): State
      requires sb.MapBlock(b) < |disk|
    {
      State(sb, disk[sb.MapBlock(b) := PutBit(disk[sb.MapBlock(b)], b % BPB, false)], core, owner, pend - {b}, dying)
    }

    /** An allocated block becomes a direct or the indirect block of an inode. */
    function Attach(i: nat, k: nat, b: Uint): State
      requires i < |core| && k < |core[i].addrs|
    {
      State(sb, disk, core[i := core[i].SetAddr(k, b)], owner[b := (i, k)], pend - {b}, dying)
    }

    /** An allocated block becomes an entry of the indirect block. */
    function AttachIndirect(i: nat, k: nat, b: Uint): State
      requires i < |core| && |core[i].addrs| == NDIRECT + 1 && NDIRECT < k < SLOTS
      requires core[i].addrs[NDIRECT] < |disk|
    {
      State(sb, disk[core[i].addrs[NDIRECT] := PutWord(disk[core[i].addrs[NDIRECT]], k - NDIRECT - 1, b)], core,
            owner[b := (i, k)], pend - {b}, dying)
    }

    /** A slot of a dying inode is cleared. */
    function Clear(i: nat, k: nat): State
      requires i < |core| && k < |core[i].addrs|
    {
      State(sb, disk, core[i := core[i].SetAddr(k, 0)], owner, pend, dying)
    }

    /** New content for a data block. */
    function WriteData(b: nat, data: Block): State
      requires b < |disk|
    {
      State(sb, disk[b := data], core, owner, pend, dying)
    }

    function Resize(i: nat, size: Uint): State
      requires i < |core|
    {
      State(sb, disk, core[i := core[i].SetSize(size)], owner, pend, dying)
    }

    /** `iupdate`. */
    function Update(i: nat): State
      requires i < |core| && sb.InodeBlock(i) < |disk| && |core[i].addrs| == NDIRECT + 1
    {
      State(sb, disk[sb.InodeBlock(i) := PutInode(disk[sb.InodeBlock(i)], i % IPB, core[i])], core, owner, pend, dying)
    }
  }

  // The layout of an inode: sixteen words.

  function GetWords(b: Block, at: nat, n: nat): (ws: seq<Uint>)
    requires at + n <= WORDS
    ensures |ws| == n && forall j | 0 <= j < n :: ws[j] == Word(b, at + j)
  {
    seq<Uint>(n, j requires 0 <= j < n => Word(b, at + j))
  }

  function GetInode(b: Block, slot: nat): Inode
    requires slot < IPB
  {
    var ws := GetWords(b, 16 * slot, 16);
    Inode(ws[0], ws[1], ws[2], ws[3..])
  }

  /** The inode's words, in order. */
  function InodeWords(ip: Inode): (ws: seq<Uint>)
    requires |ip.addrs| == NDIRECT + 1
    ensures |ws| == 16
  {
    [ip.kind, ip.links, ip.size] + ip.addrs
  }

  function PutWords(b: Block, at: nat, ws: seq<Uint>): (b': Block)
    requires at + |ws| <= WORDS
  {
    if ws == [] then b
    else PutWord(PutWords(b, at, ws[..|ws| - 1]), at + |ws| - 1, ws[|ws| - 1])
  }

  function PutInode(b: Block, slot: nat, ip: Inode): (b': Block)
    requires slot < IPB && |ip.addrs| == NDIRECT + 1
  {
    PutWords(b, 16 * slot, InodeWords(ip))
  }

  lemma {:induction false} WordsPut(b: Block, at: nat, ws: seq<Uint>, j: nat)
    requires at + |ws| <= WORDS && j < WORDS
    ensures Word(PutWords(b, at, ws), j) == if at <= j < at + |ws| then ws[j - at] else Word(b, j)
  {
    if ws != [] {
      var init := ws[..|ws| - 1];
      WordsPut(b, at, init, j);
      WordPut(PutWords(b, at, init), at + |ws| - 1, ws[|ws| - 1], j);
    }
  }

  /** An inode written to its block is read back, and its neighbours are as before. */
  lemma InodeRoundTrip(b: Block, slot: nat, ip: Inode, other: nat)
    requires slot < IPB && other < IPB && |ip.addrs| == NDIRECT + 1
    ensures GetInode(PutInode(b, slot, ip), other) == if other == slot then ip else GetInode(b, other)
  {
    var ws := InodeWords(ip);
    var b' := PutInode(b, slot, ip);
    forall j | 0 <= j < 16
      ensures GetWords(b', 16 * other, 16)[j] == if other == slot then ws[j] else Word(b, 16 * other + j)
    {
      WordsPut(b, 16 * slot, ws, 16 * other + j);
    }
    if other == slot {
      assert GetWords(b', 16 * other, 16) == ws;
      assert ws[3..] == ip.addrs;
    } else {
      assert GetWords(b', 16 * other, 16) == GetWords(b, 16 * other, 16);
    }
  }
}
