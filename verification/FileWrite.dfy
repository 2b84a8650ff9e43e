/** `filewrite` of `kernel/file.c` for files on disk: a write of any length, as a series of
    transactions each small enough for the log. */
module FileWrite {
  import opened Blocks
  import opened CrashSafety
  import opened FileSystem
  import opened FsState
  import opened FsSteps
  import opened Journal

  /** One transaction of a write: the file system before and after it, the blocks it logged, and how
      many bytes of the source were written before and after. */
  datatype Chunk = Chunk(before: State, after: State, logged: set<nat>, start: nat, end: nat)

  class File {
    const fs: FileSystem
    const ip: nat
    const writable: bool
    var off: Uint

    constructor (fs: FileSystem, ip: nat, writable: bool, off: Uint)
      ensures this.fs == fs && this.ip == ip && this.writable == writable && this.off == off
    {
      this.fs, this.ip, this.writable, this.off := fs, ip, writable, off;
    }

    ghost predicate Valid()
      reads this, fs
    {
      fs.Valid() && fs.Live(ip) && Synced(fs.Now())
    }

    /** Writes `n` bytes; `src` is as much of the source as can be read.  `done` is how many bytes
        reached the file, and `txns` are the transactions. */
    method Write(src: seq<Byte>, n: int) returns (ret: int, ghost done: nat, ghost txns: seq<Chunk>)
      requires Valid()
      modifies this, fs
      ensures Valid()
      ensures ret == if writable && n >= 0 && done == n then n else -1
      ensures done <= |src| && (done == 0 || done <= n) && off == old(off) + done
      ensures FileWritten(old(fs.Now()), fs.Now(), ip, old(off), src[..done])
      ensures Series(old(fs.Now()), fs.Now(), ip, old(off), src, txns)
      ensures writable && n >= 0 && !Full(fs.Now()) ==>
        done == if old(off) > old(fs.core[ip].size) then 0 else Reached(old(off), n, |src|)
    {
      hide FileWritten, State.Inv, Full, Synced, Operation, Series, Readable, Reached;
      SeriesStart(fs.Now(), ip, off, src);
      done, txns := 0, [];
      WrittenNothing(fs.Now(), ip, off);
      if !writable {
        return -1, 0, [];
      }
      var max := ((MAXOPBLOCKS - 1 - 1 - 2) / 2) * BSIZE;
      var i := 0;
      while i < n
        invariant 0 <= i && (n >= 0 ==> i <= n) && i <= |src| && (n < 0 ==> i == 0)
        invariant Valid() && off == old(off) + i
        invariant FileWritten(old(fs.Now()), fs.Now(), ip, old(off), src[..i])
        invariant Series(old(fs.Now()), fs.Now(), ip, old(off), src, txns)
        invariant i > 0 ==> old(off) <= old(fs.core[ip].size)
        invariant n >= 0 ==> i + Reached(old(off) + i, n - i, |src| - i) == Reached(old(off), n, |src|)
      {
        var n1 := n - i;
        if n1 > max {
          n1 := max;
        }
        ghost var before := fs.Now();
        var r := WriteChunk(src[i..], n1);
        done := if r > 0 then i + r else i;
        WrittenMore(old(fs.Now()), before, fs.Now(), ip, old(off), src, i, done);
        SeriesMore(old(fs.Now()), ip, old(off), src, txns, Chunk(before, fs.Now(), fs.logged, i, done));
        txns := txns + [Chunk(before, fs.Now(), fs.logged, i, done)];
        ChunkStart(old(fs.Now()), before, ip, old(off), src, i);
        ReachedNext(old(off) + i, n - i, |src| - i);
        if r != n1 {
          return -1, done, txns;
        }
        i := i + r;
      }
      done := i;
      if n >= 0 {
        ReachedNext(old(off) + i, n - i, |src| - i);
      }
      ret := if i == n then n else -1;
    }

    /** One transaction of `filewrite`. */
    method WriteChunk(src: seq<Byte>, n: Uint) returns (r: int)
      requires Valid() && n <= CHUNK
      modifies this, fs
      ensures Valid()
      ensures r <= n && r <= |src| && off == old(off) + (if r > 0 then r else 0)
      ensures FileWritten(old(fs.Now()), fs.Now(), ip, old(off), src[..if r > 0 then r else 0])
      ensures WriteRejected(old(fs.core[ip].size), old(off), n) ==> r == -1
      ensures !WriteRejected(old(fs.core[ip].size), old(off), n) ==>
        r >= 0 && (!Full(fs.Now()) ==> r == Readable(old(off), n, |src|))
      ensures fs.fits && |fs.logged| <= MAXOPBLOCKS
      ensures Operation(old(fs.Now()), fs.Now(), fs.logged)
    {
      hide State.Inv, Full, State.Content, State.OnDisk;
      fs.StartOp();
      r := fs.Writei(ip, src, off, n);
      WrittenOnce(old(fs.Now()), fs.Now(), ip, off, src[..if r > 0 then r else 0]);
      if r > 0 {
        off := off + r;
      }
    }
  }

  /** The transactions of a write, one after the other: each is an operation of at most ten blocks, and
      before and after it just the first bytes of the source have been written. */
  ghost predicate Series(s: State, t: State, i: nat, off: nat, src: seq<Byte>, txns: seq<Chunk>) {
    && (forall k | 0 <= k < |txns| :: InSeries(s, i, off, src, txns, k))
    && t == if txns == [] then s else txns[|txns| - 1].after
  }

  ghost predicate InSeries(s: State, i: nat, off: nat, src: seq<Byte>, txns: seq<Chunk>, k: nat)
    requires k < |txns|
  {
    var c := txns[k];
    && Operation(c.before, c.after, c.logged) && |c.logged| <= MAXOPBLOCKS
    && c.before == (if k == 0 then s else txns[k - 1].after)
    && c.start <= c.end <= |src|
    && FileWritten(s, c.before, i, off, src[..c.start]) && FileWritten(s, c.after, i, off, src[..c.end])
  }

  lemma SeriesStart(s: State, i: nat, off: nat, src: seq<Byte>)
    ensures Series(s, s, i, off, src, [])
  {
  }

  lemma SeriesMore(s: State, i: nat, off: nat, src: seq<Byte>, txns: seq<Chunk>, c: Chunk)
    requires Series(s, c.before, i, off, src, txns)
    requires Operation(c.before, c.after, c.logged) && |c.logged| <= MAXOPBLOCKS && c.start <= c.end <= |src|
    requires FileWritten(s, c.before, i, off, src[..c.start]) && FileWritten(s, c.after, i, off, src[..c.end])
    ensures Series(s, c.after, i, off, src, txns + [c])
  {
    hide Operation, FileWritten;
    var more := txns + [c];
    forall k | 0 <= k < |more| ensures InSeries(s, i, off, src, more, k) {
      if k < |txns| {
        assert InSeries(s, i, off, src, txns, k);
      }
    }
  }

  /** The first transactions of a series, as `commit` writes them to the disk. */
  ghost predicate Recorded(txns: seq<Chunk>, xs: seq<Txn>) {
    |xs| <= |txns| && forall k | 0 <= k < |xs| :: Records(xs[k], txns[k].after, txns[k].logged)
  }

  /** The disk before the `n`-th commit of a write, all those before it being done. */
  ghost function DiskBefore(d: Disk, area: Area, txns: seq<Chunk>, xs: seq<Txn>, n: nat): (r: Disk)
    requires area.start < |d| && Recorded(txns, xs) && n <= |xs|
    ensures |r| == |d|
  {
    AfterCommits(d, area, xs[..n])
  }

  /** Every commit finds on the disk what the transactions before it have made of the file system. */
  lemma {:induction false} SeriesHolds(s: State, t: State, i: nat, off: nat, src: seq<Byte>, txns: seq<Chunk>,
                                       d: Disk, area: Area, xs: seq<Txn>, n: nat)
    requires Series(s, t, i, off, src, txns) && Recorded(txns, xs) && n <= |xs| && Holds(d, area, s)
    ensures Holds(DiskBefore(d, area, txns, xs, n), area, if n == 0 then s else txns[n - 1].after)
    ensures (if n == 0 then s else txns[n - 1].after).sb == s.sb
  {
    hide Records, Operation, Apply, CommitWrites, FileWritten, Holds;
    HoldsFits(d, area, s);
    if n > 0 {
      SeriesHolds(s, t, i, off, src, txns, d, area, xs, n - 1);
      var before, c := DiskBefore(d, area, txns, xs, n - 1), txns[n - 1];
      assert InSeries(s, i, off, src, txns, n - 1) && Records(xs[n - 1], c.after, c.logged);
      CommitHolds(before, area, c.before, c.after, c.logged, xs[n - 1]);
      SameSuper(c.before, c.after, c.logged);
      assert xs[..n][..n - 1] == xs[..n - 1];
    } else {
      assert xs[..0] == [];
    }
  }

  lemma SameSuper(s: State, t: State, logged: set<nat>)
    requires Operation(s, t, logged)
    ensures t.sb == s.sb
  {
  }

  lemma HoldsFits(d: Disk, area: Area, s: State)
    requires Holds(d, area, s)
    ensures area.start < |d|
  {
  }

  /** A crash during a write, in whichever of its transactions, however far that has come and however
      often recovery is cut: after boot the file has its old content with a first part of the new
      bytes written over it, as much as the transactions whose header was written say, and every
      other file has its old content.  `d` is the disk before the write. */
  lemma WriteSurvivesCrash(s: State, t: State, i: nat, off: nat, src: seq<Byte>, txns: seq<Chunk>, n: nat,
                           d: Disk, area: Area, xs: seq<Txn>, k: nat, crashes: seq<nat>, j: nat)
    requires s.Inv() && Series(s, t, i, off, src, txns) && Holds(d, area, s)
    requires Recorded(txns, xs) && n < |xs| && j < |s.core| && j !in s.dying && i !in s.dying
    requires k <= |CommitWrites(DiskBefore(d, area, txns, xs, n)[area.start], area, xs[n])|
    ensures i < |s.core| && s.core[i].size <= MAXFILE * BSIZE && s.core[j].size <= MAXFILE * BSIZE
    ensures
      var e := DiskBefore(d, area, txns, xs, n);
      var r := Reboot(Apply(e, CommitWrites(e[area.start], area, xs[n])[..k]), area, crashes);
      var m := if k <= |xs[n].blocks| then txns[n].start else txns[n].end;
      && m <= |src| && (forall b | 0 <= b < s.sb.ninodes :: s.sb.InodeBlock(b) < |r|)
      && j < |Mounted(s.sb, r).core| && Mounted(s.sb, r).core[j].size <= MAXFILE * BSIZE
      && (m > 0 ==> off <= s.core[i].size)
      && Mounted(s.sb, r).Content(j) == if j == i && m > 0 then Splice(s.Content(i), off, src[..m]) else s.Content(j)
  {
    hide State.Inv, CommitWrites, Reboot, Apply, Operation, Records, State.Content, Mounted, DiskBefore;
    var c := txns[n];
    assert InSeries(s, i, off, src, txns, n) && (n > 0 ==> InSeries(s, i, off, src, txns, n - 1));
    SeriesHolds(s, t, i, off, src, txns, d, area, xs, n);
    var e := DiskBefore(d, area, txns, xs, n);
    WrittenFile(s, c.before, i, off, src[..c.start], j);
    WrittenFile(s, c.after, i, off, src[..c.end], j);
    SizeBound(s, j);
    FilesAfterCrash(e, area, c.before, c.after, c.logged, xs[n], k, crashes, j);
  }

  /** What a write makes of each file. */
  lemma WrittenFile(s: State, t: State, i: nat, off: nat, data: seq<Byte>, j: nat)
    requires s.Inv() && FileWritten(s, t, i, off, data) && j < |s.core| && j !in s.dying
    ensures |t.core| == |s.core| && t.dying == s.dying
    ensures s.core[j].size <= MAXFILE * BSIZE && t.core[j].size <= MAXFILE * BSIZE
    ensures t.Content(j) == if j == i && data != [] then Splice(s.Content(i), off, data) else s.Content(j)
  {
    SizeBound(s, j);
    if j != i {
      SameFileContent(s, t, j);
    }
  }

  /** From `s` to `t` the bytes of `data` have been written to the file at `off`, and no other file
      has changed. */
  ghost predicate FileWritten(s: State, t: State, i: nat, off: nat, data: seq<Byte>) {
    && t.Inv() && |t.core| == |s.core| && t.dying == s.dying && i < |s.core|
    && s.core[i].size <= MAXFILE * BSIZE && t.core[i].size <= MAXFILE * BSIZE
    && (forall j | 0 <= j < |s.core| && j != i && j !in s.dying :: SameFile(s, t, j))
    && (data != [] ==> off <= s.core[i].size)
    && t.Content(i) == if data == [] then s.Content(i) else Splice(s.Content(i), off, data)
  }

  lemma WrittenNothing(s: State, i: nat, off: nat)
    requires s.Inv() && i < |s.core| && i !in s.dying
    ensures FileWritten(s, s, i, off, [])
    ensures s.core[i].size <= MAXFILE * BSIZE
  {
    SizeBound(s, i);
  }

  lemma WrittenOnce(s: State, t: State, i: nat, off: nat, data: seq<Byte>)
    requires t.Inv() && |t.core| == |s.core| && t.dying == s.dying && i < |s.core|
    requires s.core[i].size <= MAXFILE * BSIZE && t.core[i].size <= MAXFILE * BSIZE
    requires (t == s && data == []) ||
      (&& off <= s.core[i].size && t.Content(i) == Splice(s.Content(i), off, data)
       && forall j | 0 <= j < |s.core| && j != i && j !in s.dying :: SameFile(s, t, j))
    ensures FileWritten(s, t, i, off, data)
  {
  }

  /** Two writes one after the other are one write. */
  lemma SpliceMore(c: seq<Byte>, off: nat, a: seq<Byte>, b: seq<Byte>)
    requires off <= |c|
    ensures off + |a| <= |Splice(c, off, a)|
    ensures Splice(Splice(c, off, a), off + |a|, b) == Splice(c, off, a + b)
  {
    var d := Splice(c, off, a);
    assert d[..off + |a|] == c[..off] + a;
    if off + |a| + |b| < |d| {
      assert d[off + |a| + |b|..] == c[off + |a| + |b|..];
    }
  }

  lemma WrittenMore(s: State, t: State, u: State, i: nat, off: nat, src: seq<Byte>, k: nat, k': nat)
    requires k <= k' <= |src|
    requires FileWritten(s, t, i, off, src[..k]) && FileWritten(t, u, i, off + k, src[k..][..k' - k])
    ensures FileWritten(s, u, i, off, src[..k'])
  {
    hide State.Inv, State.Content, Splice, SameFile;
    var a, b := src[..k], src[k..][..k' - k];
    assert src[..k'] == a + b;
    if a != [] && b != [] {
      SpliceMore(s.Content(i), off, a, b);
    }
    forall j | 0 <= j < |s.core| && j != i && j !in s.dying ensures SameFile(s, u, j) {
      SameFileTrans(s, t, u, j);
    }
  }

  /** Where a later chunk starts, the file has already been extended to. */
  lemma ChunkStart(s: State, t: State, i: nat, off: nat, src: seq<Byte>, k: nat)
    requires k <= |src| && FileWritten(s, t, i, off, src[..k])
    ensures off + k > t.core[i].size <==> off > s.core[i].size
    ensures off > s.core[i].size ==> k == 0
  {
    if k > 0 {
      assert |t.Content(i)| == t.core[i].size;
    } else {
      assert |t.Content(i)| == |s.Content(i)|;
    }
  }

  /** How many of `n` bytes to be written at `off`, which is not past the end of the file, are written
      on a disk with room if the first `have` of them can be read: transactions are of CHUNK
      bytes, and the first that is cut short or would make the file too long is the last. */
  function Reached(off: nat, n: nat, have: nat): (m: nat)
    ensures m <= n && m <= have
    ensures m == n <==> n <= have && (n == 0 || off + n <= MAXFILE * BSIZE)
    decreases n
  {
    var n1 := if n > CHUNK then CHUNK else n;
    var r := Readable(off, n1, have);
    if n == 0 || off + n1 > MAXFILE * BSIZE then 0
    else if r < n1 then r
    else n1 + Reached(off + n1, n - n1, have - n1)
  }

  lemma ReachedNext(off: nat, n: nat, have: nat)
    ensures
      var n1 := if n > CHUNK then CHUNK else n;
      && (WriteRejected(off, off, n1) <==> off + n1 > MAXFILE * BSIZE)
      && (n == 0 || off + n1 > MAXFILE * BSIZE ==> Reached(off, n, have) == 0)
      && (n > 0 && off + n1 <= MAXFILE * BSIZE && have < n1 ==> Reached(off, n, have) == Readable(off, n1, have) < n1)
      && (n > 0 && off + n1 <= MAXFILE * BSIZE && have >= n1 ==>
            Reached(off, n, have) == n1 + Reached(off + n1, n - n1, have - n1))
  {
    hide Readable;
  }
}
