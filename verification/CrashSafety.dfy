/** A file-system operation against a crash: from the blocks it logs to the files found after boot. */
module CrashSafety {
  import opened Blocks
  import opened FsState
  import opened FsSteps
  import opened Journal

  /** The inodes on disk are those in memory, as between operations. */
  ghost predicate Synced(s: State) {
    forall j | 0 <= j < |s.core| && j !in s.dying :: s.sb.InodeBlock(j) < |s.disk| && s.OnDisk(j) == s.core[j]
  }

  /** The log comes before the inodes, as `mkfs` lays the disk out. */
  predicate LogFirst(sb: Super, area: Area) {
    area.start + area.size <= sb.inodestart
  }

  /** The disk holds the blocks of the state, and the log is empty. */
  ghost predicate Holds(d: Disk, area: Area, s: State) {
    area.Fits(d) && LogFirst(s.sb, area) && SameHome(d, s.disk, area) && HeadCount(d[area.start]) == 0
  }

  /** The files as they are read from a disk after boot. */
  ghost function Mounted(sb: Super, d: Disk): State
    requires forall i | 0 <= i < sb.ninodes :: sb.InodeBlock(i) < |d|
  {
    var core := seq(sb.ninodes, i requires 0 <= i < sb.ninodes => GetInode(d[sb.InodeBlock(i)], i % IPB));
    State(sb, d, core, map[], {}, {})
  }

  lemma InodesInReach(s: State, d: Disk)
    requires s.Inv() && |d| == |s.disk|
    ensures forall i | 0 <= i < s.sb.ninodes :: s.sb.InodeBlock(i) < |d|
  {
    forall i | 0 <= i < s.sb.ninodes ensures s.sb.InodeBlock(i) < |d| {
      InodeBlockRange(s, i);
    }
  }

  /** A file's content depends on its inode and the blocks only. */
  lemma ContentOf(s: State, t: State, j: nat)
    requires j < |s.core| && j < |t.core| && s.core[j] == t.core[j] && s.disk == t.disk
    requires s.core[j].size <= MAXFILE * BSIZE
    ensures s.Content(j) == t.Content(j)
  {
    forall p | 0 <= p < s.core[j].size ensures s.RawByte(j, p) == t.RawByte(j, p) {
    }
  }

  /** A disk that holds a state gives its files back. */
  lemma MountedFile(s: State, d: Disk, area: Area, j: nat)
    requires s.Inv() && Synced(s) && Holds(d, area, s) && j < |s.core| && j !in s.dying
    ensures forall i | 0 <= i < s.sb.ninodes :: s.sb.InodeBlock(i) < |d|
    ensures s.core[j].size <= MAXFILE * BSIZE && j < |Mounted(s.sb, d).core|
    ensures Mounted(s.sb, d).core[j] == s.core[j]
    ensures Mounted(s.sb, d).Content(j) == s.Content(j)
  {
    hide GetInode;
    InodesInReach(s, d);
    InodeBlockRange(s, j);
    assert s.Backed(j);
    var u := s.(disk := d);
    forall k | 0 <= k < SLOTS && 0 < s.Ref(j, k) < |s.disk| ensures u.disk[s.Ref(j, k)] == s.disk[s.Ref(j, k)] {
      RefsAreUsed(s, j, k);
    }
    SameFileByBlocks(s, u, j);
    SameFileContent(s, u, j);
    ContentOf(u, Mounted(s.sb, d), j);
  }

  /** An operation from `s` to `t` that logs the given blocks. */
  ghost predicate Operation(s: State, t: State, logged: set<nat>) {
    && s.Inv() && t.Inv() && Synced(s) && Synced(t)
    && t.sb == s.sb && |t.disk| == |s.disk| && |t.core| == |s.core| && t.dying == s.dying
    && (forall b | b in logged :: s.sb.inodestart <= b < |s.disk|)
    && forall b | 0 <= b < |s.disk| && b !in logged :: t.disk[b] == s.disk[b]
  }

  /** The transaction that `commit` makes of it, in whatever order the blocks were logged. */
  ghost predicate Records(x: Txn, t: State, logged: set<nat>) {
    && |x.blocks| == |x.contents| <= LOGSIZE
    && (forall i | 0 <= i < |x.blocks| ::
        x.blocks[i] as nat in logged && x.blocks[i] < |t.disk| && x.contents[i] == t.disk[x.blocks[i]])
    && forall b | b in logged :: exists i :: 0 <= i < |x.blocks| && x.blocks[i] == b
  }

  /** Writing what is there already changes nothing. */
  lemma {:induction false} WritesNothing(d: Disk, ws: seq<Write>)
    requires forall i | 0 <= i < |ws| :: ws[i].at < |d| && ws[i].data == d[ws[i].at]
    ensures Apply(d, ws) == d
  {
    if ws != [] {
      WritesNothing(d, ws[..|ws| - 1]);
    }
  }

  lemma InstalledBlock(d: Disk, x: Txn, t: State, logged: set<nat>, b: nat)
    requires Records(x, t, logged) && |d| == |t.disk| && b < |d|
    ensures Installed(d, x)[b] == if b in logged then t.disk[b] else d[b]
  {
    var ws := HomeWrites(x.blocks, x.contents);
    if b in logged {
      var i :| 0 <= i < |x.blocks| && x.blocks[i] == b;
      assert ws[i].at == b;
      ApplyTouched(d, t.disk, ws, b);
      WritesNothing(t.disk, ws);
    } else {
      ApplyUntouched(d, ws, b);
    }
  }

  /** Installing the transaction turns the disk of the state before into that of the state after. */
  lemma InstalledIs(d: Disk, area: Area, s: State, t: State, logged: set<nat>, x: Txn)
    requires Holds(d, area, s) && Operation(s, t, logged) && Records(x, t, logged)
    ensures Loggable(x, d, area) && SameHome(Installed(d, x), t.disk, area)
  {
    hide State.Inv, Synced, Apply;
    forall b | 0 <= b < |d| && !area.Has(b) ensures Installed(d, x)[b] == t.disk[b] {
      InstalledBlock(d, x, t, logged, b);
    }
  }

  /** A commit that is not cut takes the disk from the state before the operation to the one after. */
  lemma CommitHolds(d: Disk, area: Area, s: State, t: State, logged: set<nat>, x: Txn)
    requires Holds(d, area, s) && Operation(s, t, logged) && Records(x, t, logged)
    ensures Holds(Apply(d, CommitWrites(d[area.start], area, x)), area, t)
  {
    hide State.Inv, Synced, CommitWrites, Installed, Apply, HeadCount;
    InstalledIs(d, area, s, t, logged, x);
    CommitInstalls(d, area, x);
  }

  /** The disk once the given transactions have been committed, one after the other. */
  function AfterCommits(d: Disk, area: Area, xs: seq<Txn>): (r: Disk)
    requires area.start < |d| && forall i | 0 <= i < |xs| :: |xs[i].blocks| == |xs[i].contents| <= LOGSIZE
    ensures |r| == |d|
  {
    if xs == [] then d
    else
      var before := AfterCommits(d, area, xs[..|xs| - 1]);
      Apply(before, CommitWrites(before[area.start], area, xs[|xs| - 1]))
  }

  /** Whatever write of the commit is the last to reach the disk, and however often recovery is cut, the
      disk then holds the state before the operation or the one after it, the latter exactly if the
      header was written. */
  lemma OperationIsAtomic(d: Disk, area: Area, s: State, t: State, logged: set<nat>, x: Txn, k: nat, crashes: seq<nat>)
    requires Holds(d, area, s) && Operation(s, t, logged) && Records(x, t, logged)
    requires k <= |CommitWrites(d[area.start], area, x)|
    ensures
      var r := Reboot(Apply(d, CommitWrites(d[area.start], area, x)[..k]), area, crashes);
      Holds(r, area, if k <= |x.blocks| then s else t)
  {
    hide State.Inv, Synced, CommitWrites, Reboot, Installed, Apply, HeadCount;
    InstalledIs(d, area, s, t, logged, x);
    CrashAtomicity(d, area, x, k, crashes);
  }

  /** So every file, as read after boot, has the content it had before the operation, or every one has
      the content it had after. */
  lemma FilesAfterCrash(d: Disk, area: Area, s: State, t: State, logged: set<nat>, x: Txn, k: nat, crashes: seq<nat>,
                        j: nat)
    requires Holds(d, area, s) && Operation(s, t, logged) && Records(x, t, logged)
    requires k <= |CommitWrites(d[area.start], area, x)| && j < |s.core| && j !in s.dying
    ensures
      var r := Reboot(Apply(d, CommitWrites(d[area.start], area, x)[..k]), area, crashes);
      var u := if k <= |x.blocks| then s else t;
      && (forall i | 0 <= i < s.sb.ninodes :: s.sb.InodeBlock(i) < |r|)
      && j < |Mounted(s.sb, r).core| && u.core[j].size <= MAXFILE * BSIZE
      && Mounted(s.sb, r).core[j] == u.core[j]
      && Mounted(s.sb, r).Content(j) == u.Content(j)
  {
    hide State.Inv, Synced, CommitWrites, Reboot, Apply, State.Content;
    OperationIsAtomic(d, area, s, t, logged, x, k, crashes);
    var r := Reboot(Apply(d, CommitWrites(d[area.start], area, x)[..k]), area, crashes);
    MountedFile(if k <= |x.blocks| then s else t, r, area, j);
  }
}
