/** The on-disk redo log of `kernel/log.c`: what the block writes of a commit and of a recovery
    are, and what is left after a crash that keeps only some prefix of them.  Single-block
    writes are atomic and reach the disk in the order they are issued. */
module Journal {
  import opened Blocks

  const LOGSIZE: nat := 30

  type Disk = seq<Block>

  datatype Write = Write(at: nat, data: Block)

  /** Where the superblock puts the log: a header block, then the logged blocks. */
  datatype Area = Area(start: nat, size: nat) {
    predicate Has(b: nat) {
      start <= b < start + size
    }

    predicate Fits(disk: Disk) {
      size >= LOGSIZE + 1 && start + size <= |disk|
    }
  }

  /** A transaction: the home block numbers in the order they were first logged, and the
      content each has at commit time. */
  datatype Txn = Txn(blocks: seq<Uint>, contents: seq<Block>)

  ghost predicate Loggable(t: Txn, disk: Disk, area: Area) {
    && area.Fits(disk)
    && |t.blocks| == |t.contents| <= LOGSIZE
    && forall i | 0 <= i < |t.blocks| :: t.blocks[i] < |disk| && !area.Has(t.blocks[i])
  }

  // Sequences of writes.

  function ApplyOne(disk: Disk, w: Write): (d: Disk)
    ensures |d| == |disk|
  {
    if w.at < |disk| then disk[w.at := w.data] else disk
  }

  function Apply(disk: Disk, ws: seq<Write>): (d: Disk)
    ensures |d| == |disk|
  {
    if ws == [] then disk
    else ApplyOne(Apply(disk, ws[..|ws| - 1]), ws[|ws| - 1])
  }

  ghost predicate Touches(ws: seq<Write>, b: nat) {
    exists i | 0 <= i < |ws| :: ws[i].at == b
  }

  lemma {:induction false} ApplyConcat(disk: Disk, ws: seq<Write>, more: seq<Write>)
    ensures Apply(disk, ws + more) == Apply(Apply(disk, ws), more)
  {
    var all := ws + more;
    if more == [] {
      assert all == ws;
    } else {
      assert all[..|all| - 1] == ws + more[..|more| - 1];
      ApplyConcat(disk, ws, more[..|more| - 1]);
    }
  }

  lemma ApplyAppend(disk: Disk, ws: seq<Write>, w: Write)
    ensures Apply(disk, ws + [w]) == ApplyOne(Apply(disk, ws), w)
  {
    assert (ws + [w])[..|ws + [w]| - 1] == ws;
  }

  lemma {:induction false} ApplyUntouched(disk: Disk, ws: seq<Write>, b: nat)
    requires b < |disk| && !Touches(ws, b)
    ensures Apply(disk, ws)[b] == disk[b]
  {
    if ws != [] {
      var init := ws[..|ws| - 1];
      forall i | 0 <= i < |init| ensures init[i].at != b {
        assert ws[i].at != b;
      }
      ApplyUntouched(disk, init, b);
    }
  }

  /** A block that is written ends with the same content whatever it held before. */
  lemma {:induction false} ApplyTouched(d1: Disk, d2: Disk, ws: seq<Write>, b: nat)
    requires |d1| == |d2| && b < |d1| && Touches(ws, b)
    ensures Apply(d1, ws)[b] == Apply(d2, ws)[b]
  {
    var init := ws[..|ws| - 1];
    if ws[|ws| - 1].at != b {
      var i :| 0 <= i < |ws| && ws[i].at == b;
      assert init[i].at == b;
      ApplyTouched(d1, d2, init, b);
    }
  }

  /** Repeating a sequence of writes after any prefix of it gives what the sequence gives. */
  lemma Replay(disk: Disk, ws: seq<Write>, k: nat, b: nat)
    requires k <= |ws| && b < |disk|
    ensures Apply(Apply(disk, ws[..k]), ws)[b] == Apply(disk, ws)[b]
  {
    var mid := Apply(disk, ws[..k]);
    if Touches(ws, b) {
      ApplyTouched(mid, disk, ws, b);
    } else {
      forall i | 0 <= i < k ensures ws[..k][i].at != b {
        assert ws[i].at != b;
      }
      ApplyUntouched(disk, ws[..k], b);
      ApplyUntouched(mid, ws, b);
      ApplyUntouched(disk, ws, b);
    }
  }

  // The header block.

  function HeadCount(head: Block): Uint {
    Word(head, 0)
  }

  /** The home block numbers that a header lists. */
  function HeadBlocks(head: Block): (blocks: seq<Uint>)
    requires HeadCount(head) <= LOGSIZE
    ensures |blocks| == HeadCount(head)
  {
    seq(HeadCount(head), i requires 0 <= i < HeadCount(head) => Word(head, 1 + i))
  }

  /** `write_head`'s loop after `k` iterations: the entries past `k` keep their old content. */
  function PutHeadBlocks(head: Block, blocks: seq<Uint>, k: nat): (h: Block)
    requires k <= |blocks| <= LOGSIZE
  {
    if k == 0 then PutWord(head, 0, |blocks|)
    else PutWord(PutHeadBlocks(head, blocks, k - 1), k, blocks[k - 1])
  }

  function PutHead(head: Block, blocks: seq<Uint>): (h: Block)
    requires |blocks| <= LOGSIZE
  {
    PutHeadBlocks(head, blocks, |blocks|)
  }

  lemma {:induction false} PutHeadBlocksWords(head: Block, blocks: seq<Uint>, k: nat, i: nat)
    requires k <= |blocks| <= LOGSIZE && i <= k
    ensures Word(PutHeadBlocks(head, blocks, k), i) == if i == 0 then |blocks| else blocks[i - 1]
  {
    if k == 0 {
      WordPut(head, 0, |blocks|, 0);
    } else {
      var h := PutHeadBlocks(head, blocks, k - 1);
      WordPut(h, k, blocks[k - 1], i);
      if i < k {
        PutHeadBlocksWords(head, blocks, k - 1, i);
      }
    }
  }

  /** What is written into a header block is what is read back from it. */
  lemma HeadRoundTrip(head: Block, blocks: seq<Uint>)
    requires |blocks| <= LOGSIZE
    ensures HeadCount(PutHead(head, blocks)) == |blocks|
    ensures HeadBlocks(PutHead(head, blocks)) == blocks
  {
    var h := PutHead(head, blocks);
    PutHeadBlocksWords(head, blocks, |blocks|, 0);
    forall i | 0 <= i < |blocks| ensures HeadBlocks(h)[i] == blocks[i] {
      PutHeadBlocksWords(head, blocks, |blocks|, 1 + i);
    }
  }

  // Commit and recovery as sequences of writes.

  function LogWrites(area: Area, contents: seq<Block>): (ws: seq<Write>)
    ensures |ws| == |contents|
  {
    seq(|contents|, i requires 0 <= i < |contents| => Write(area.start + 1 + i, contents[i]))
  }

  function HomeWrites(blocks: seq<Uint>, contents: seq<Block>): (ws: seq<Write>)
    requires |blocks| == |contents|
    ensures |ws| == |blocks|
  {
    seq(|blocks|, i requires 0 <= i < |blocks| => Write(blocks[i], contents[i]))
  }

  /** The writes of `commit`: the log, the header, the home locations, the cleared header. */
  function CommitWrites(head: Block, area: Area, t: Txn): (ws: seq<Write>)
    requires |t.blocks| == |t.contents| <= LOGSIZE
  {
    var committed := PutHead(head, t.blocks);
    LogWrites(area, t.contents) + [Write(area.start, committed)]
    + HomeWrites(t.blocks, t.contents) + [Write(area.start, PutHead(committed, []))]
  }

  /** The header lists loggable blocks, or is empty. */
  ghost predicate Recoverable(disk: Disk, area: Area) {
    && area.Fits(disk)
    && HeadCount(disk[area.start]) <= LOGSIZE
    && Loggable(Pending(disk, area), disk, area)
  }

  /** The transaction that the log on disk describes. */
  function Pending(disk: Disk, area: Area): (t: Txn)
    requires area.Fits(disk) && HeadCount(disk[area.start]) <= LOGSIZE
    ensures |t.blocks| == |t.contents| == HeadCount(disk[area.start])
  {
    var head := disk[area.start];
    Txn(HeadBlocks(head),
        seq(HeadCount(head), i requires 0 <= i < HeadCount(head) => disk[area.start + 1 + i]))
  }

  /** The writes of `recover_from_log`. */
  function RecoverWrites(disk: Disk, area: Area): (ws: seq<Write>)
    requires area.Fits(disk) && HeadCount(disk[area.start]) <= LOGSIZE
    ensures |ws| == HeadCount(disk[area.start]) + 1
  {
    var t := Pending(disk, area);
    HomeWrites(t.blocks, t.contents) + [Write(area.start, PutHead(disk[area.start], []))]
  }

  function Recover(disk: Disk, area: Area): (d: Disk)
    requires area.Fits(disk) && HeadCount(disk[area.start]) <= LOGSIZE
  {
    Apply(disk, RecoverWrites(disk, area))
  }

  /** The file system's blocks once the transaction has been installed. */
  function Installed(disk: Disk, t: Txn): (d: Disk)
    requires |t.blocks| == |t.contents|
  {
    Apply(disk, HomeWrites(t.blocks, t.contents))
  }

  /** The same content everywhere outside the log. */
  ghost predicate SameHome(d1: Disk, d2: Disk, area: Area) {
    |d1| == |d2| && forall b | 0 <= b < |d1| && !area.Has(b) :: d1[b] == d2[b]
  }

  /** The same content in the header and the first `n` logged blocks. */
  ghost predicate SameLog(d1: Disk, d2: Disk, area: Area, n: nat)
    requires area.Fits(d1)
  {
    |d1| == |d2| && n < area.size && forall b | area.start <= b <= area.start + n :: d1[b] == d2[b]
  }

  // Writes to the log leave home blocks alone, and the other way round.

  lemma HomeWritesKeepLog(disk: Disk, area: Area, t: Txn, k: nat)
    requires Loggable(t, disk, area) && k <= |t.blocks|
    ensures SameLog(disk, Apply(disk, HomeWrites(t.blocks, t.contents)[..k]), area, LOGSIZE)
  {
    var ws := HomeWrites(t.blocks, t.contents)[..k];
    forall b | area.start <= b <= area.start + LOGSIZE ensures Apply(disk, ws)[b] == disk[b] {
      assert forall i | 0 <= i < k :: ws[i].at == t.blocks[i];
      ApplyUntouched(disk, ws, b);
    }
  }

  lemma LogWritesKeepHome(disk: Disk, area: Area, ws: seq<Write>)
    requires forall i | 0 <= i < |ws| :: area.Has(ws[i].at)
    ensures SameHome(Apply(disk, ws), disk, area)
  {
    forall b | 0 <= b < |disk| && !area.Has(b) ensures Apply(disk, ws)[b] == disk[b] {
      ApplyUntouched(disk, ws, b);
    }
  }

  /** The log writes put the contents into the log area and leave the header alone. */
  lemma {:induction false} LogWritesFillLog(disk: Disk, area: Area, contents: seq<Block>, k: nat)
    requires area.Fits(disk) && |contents| <= LOGSIZE && k <= |contents|
    ensures
      var d := Apply(disk, LogWrites(area, contents)[..k]);
      && d[area.start] == disk[area.start]
      && forall i | 0 <= i < k :: d[area.start + 1 + i] == contents[i]
  {
    var ws := LogWrites(area, contents);
    if k > 0 {
      LogWritesFillLog(disk, area, contents, k - 1);
      assert ws[..k] == ws[..k - 1] + [ws[k - 1]];
      ApplyAppend(disk, ws[..k - 1], ws[k - 1]);
    }
  }

  lemma ApplyNone(disk: Disk, ws: seq<Write>)
    ensures ws[..0] == [] && Apply(disk, ws[..0]) == disk
  {
  }

  /** One more write of a sequence. */
  lemma ApplyNext(disk: Disk, ws: seq<Write>, k: nat)
    requires k < |ws| && ws[k].at < |disk|
    ensures ws[..k + 1] == ws[..k] + [ws[k]]
    ensures Apply(disk, ws[..k + 1]) == Apply(disk, ws[..k])[ws[k].at := ws[k].data]
  {
    assert ws[..k + 1] == ws[..k] + [ws[k]];
    ApplyAppend(disk, ws[..k], ws[k]);
  }

  // Recovery.

  /** Recovery installs the pending transaction and leaves an empty log. */
  lemma RecoverInstalls(disk: Disk, area: Area)
    requires Recoverable(disk, area)
    ensures SameHome(Recover(disk, area), Installed(disk, Pending(disk, area)), area)
    ensures Recover(disk, area)[area.start] == PutHead(disk[area.start], [])
    ensures HeadCount(Recover(disk, area)[area.start]) == 0
    ensures Recoverable(Recover(disk, area), area)
  {
    var t := Pending(disk, area);
    ApplyAppend(disk, HomeWrites(t.blocks, t.contents), Write(area.start, PutHead(disk[area.start], [])));
    HeadRoundTrip(disk[area.start], []);
  }

  /** A log with the same header and the same logged blocks describes the same transaction. */
  lemma PendingDependsOnLog(d1: Disk, d2: Disk, area: Area)
    requires Recoverable(d1, area)
    requires SameLog(d1, d2, area, LOGSIZE)
    ensures Recoverable(d2, area)
    ensures Pending(d2, area) == Pending(d1, area)
  {
    assert d2[area.start] == d1[area.start];
    var t1, t2 := Pending(d1, area), Pending(d2, area);
    assert t1.contents == t2.contents;
  }

  /** A crash during recovery loses nothing: recovering again gives the same home blocks. */
  lemma RecoverAfterCrash(disk: Disk, area: Area, k: nat)
    requires Recoverable(disk, area)
    requires k <= |RecoverWrites(disk, area)|
    ensures
      var d := Apply(disk, RecoverWrites(disk, area)[..k]);
      Recoverable(d, area) && SameHome(Recover(d, area), Recover(disk, area), area)
  {
    var t := Pending(disk, area);
    var home := HomeWrites(t.blocks, t.contents);
    var ws := RecoverWrites(disk, area);
    var d := Apply(disk, ws[..k]);
    RecoverInstalls(disk, area);
    if k <= |home| {
      assert ws[..k] == home[..k];
      HomeWritesKeepLog(disk, area, t, k);
      PendingDependsOnLog(disk, d, area);
      RecoverInstalls(d, area);
      forall b | 0 <= b < |disk| && !area.Has(b) ensures Recover(d, area)[b] == Recover(disk, area)[b] {
        Replay(disk, home, k, b);
      }
    } else {
      assert ws[..k] == ws;
      RecoverInstalls(d, area);
      assert HomeWrites(Pending(d, area).blocks, Pending(d, area).contents) == [];
    }
  }

  /** The disk after booting through a series of crashes, the `i`-th one cutting recovery after
      `crashes[i]` writes, and a last recovery that completes. */
  function Reboot(disk: Disk, area: Area, crashes: seq<nat>): (d: Disk)
    requires area.Fits(disk)
    ensures |d| == |disk|
    decreases |crashes|
  {
    if HeadCount(disk[area.start]) > LOGSIZE then disk
    else if crashes == [] then Recover(disk, area)
    else
      var ws := RecoverWrites(disk, area);
      Reboot(Apply(disk, if crashes[0] <= |ws| then ws[..crashes[0]] else ws), area, crashes[1..])
  }

  /** However often recovery is interrupted, it ends where an uninterrupted one would. */
  lemma {:induction false} RebootRecovers(disk: Disk, area: Area, crashes: seq<nat>)
    requires Recoverable(disk, area)
    ensures SameHome(Reboot(disk, area, crashes), Recover(disk, area), area)
    ensures Recoverable(Reboot(disk, area, crashes), area)
    ensures HeadCount(Reboot(disk, area, crashes)[area.start]) == 0
    decreases |crashes|
  {
    if crashes == [] {
      RecoverInstalls(disk, area);
    } else {
      var ws := RecoverWrites(disk, area);
      var k := if crashes[0] <= |ws| then crashes[0] else |ws|;
      assert ws[..|ws|] == ws;
      RecoverAfterCrash(disk, area, k);
      RebootRecovers(Apply(disk, ws[..k]), area, crashes[1..]);
    }
  }

  // Commit.

  /** Cutting `commit` after `k` writes: before the header write the home blocks and the header
      are the old ones; from then on the log, or what is already installed, has it all. */
  lemma CommitPrefix(disk: Disk, area: Area, t: Txn, k: nat)
    requires Loggable(t, disk, area) && HeadCount(disk[area.start]) == 0
    requires k <= |t.blocks|
    ensures
      var d := Apply(disk, CommitWrites(disk[area.start], area, t)[..k]);
      && Recoverable(d, area)
      && SameHome(Recover(d, area), disk, area)
  {
    var log := LogWrites(area, t.contents);
    var ws := CommitWrites(disk[area.start], area, t);
    assert ws[..k] == log[..k];
    var d := Apply(disk, log[..k]);
    LogWritesFillLog(disk, area, t.contents, k);
    LogWritesKeepHome(disk, area, log[..k]);
    RecoverInstalls(d, area);
    assert HomeWrites(Pending(d, area).blocks, Pending(d, area).contents) == [];
  }

  /** The state right after the header write: the log describes exactly the transaction. */
  lemma CommitPoint(disk: Disk, area: Area, t: Txn) returns (d: Disk)
    requires Loggable(t, disk, area)
    ensures d == Apply(disk, LogWrites(area, t.contents) + [Write(area.start, PutHead(disk[area.start], t.blocks))])
    ensures Recoverable(d, area)
    ensures d[area.start] == PutHead(disk[area.start], t.blocks)
    ensures Pending(d, area) == t
    ensures SameHome(d, disk, area)
    ensures CommitWrites(disk[area.start], area, t)
      == (LogWrites(area, t.contents) + [Write(area.start, PutHead(disk[area.start], t.blocks))])
         + RecoverWrites(d, area)
  {
    var log := LogWrites(area, t.contents);
    var head := Write(area.start, PutHead(disk[area.start], t.blocks));
    assert log[..|log|] == log;
    LogWritesFillLog(disk, area, t.contents, |t.contents|);
    ApplyAppend(disk, log, head);
    LogWritesKeepHome(disk, area, log + [head]);
    d := Apply(disk, log + [head]);
    HeadRoundTrip(disk[area.start], t.blocks);
    assert Pending(d, area).contents == t.contents;
  }

  lemma InstalledDependsOnHome(d1: Disk, d2: Disk, area: Area, t: Txn)
    requires SameHome(d1, d2, area) && |t.blocks| == |t.contents|
    ensures SameHome(Installed(d1, t), Installed(d2, t), area)
  {
    var ws := HomeWrites(t.blocks, t.contents);
    forall b | 0 <= b < |d1| && !area.Has(b) ensures Apply(d1, ws)[b] == Apply(d2, ws)[b] {
      if Touches(ws, b) {
        ApplyTouched(d1, d2, ws, b);
      } else {
        ApplyUntouched(d1, ws, b);
        ApplyUntouched(d2, ws, b);
      }
    }
  }

  lemma RecoveredIsInstalled(disk: Disk, mid: Disk, area: Area, t: Txn)
    requires Recoverable(mid, area) && Pending(mid, area) == t
    requires SameHome(mid, disk, area)
    ensures SameHome(Recover(mid, area), Installed(disk, t), area)
  {
    RecoverInstalls(mid, area);
    InstalledDependsOnHome(mid, disk, area, t);
  }

  /** After the header write, a crash leaves the disk in a state that recovery reached from the
      commit point passes through. */
  lemma CommitSuffix(disk: Disk, area: Area, t: Txn, k: nat)
    requires Loggable(t, disk, area)
    requires |t.blocks| < k <= |CommitWrites(disk[area.start], area, t)|
    ensures
      var d := Apply(disk, CommitWrites(disk[area.start], area, t)[..k]);
      && Recoverable(d, area)
      && SameHome(Recover(d, area), Installed(disk, t), area)
  {
    hide Apply, CommitWrites, RecoverWrites, LogWrites, HomeWrites, PutHead, HeadCount, Installed;
    var ws := CommitWrites(disk[area.start], area, t);
    var n := |t.blocks|;
    var mid := CommitPoint(disk, area, t);
    var rest := RecoverWrites(mid, area);
    var first := LogWrites(area, t.contents) + [Write(area.start, PutHead(disk[area.start], t.blocks))];
    var j := k - n - 1;
    assert ws[..k] == first + rest[..j];
    ApplyConcat(disk, first, rest[..j]);
    RecoveredIsInstalled(disk, mid, area, t);
    RecoverAfterCrash(mid, area, j);
  }

  /** Crash atomicity.  Whatever write of the commit is the last to reach the disk, and however
      often the recovery is itself interrupted, the file system ends with all of the
      transaction if the header write was among those that did, and with none of it if not. */
  lemma CrashAtomicity(disk: Disk, area: Area, t: Txn, k: nat, crashes: seq<nat>)
    requires Loggable(t, disk, area) && HeadCount(disk[area.start]) == 0
    requires k <= |CommitWrites(disk[area.start], area, t)|
    ensures
      var d := Reboot(Apply(disk, CommitWrites(disk[area.start], area, t)[..k]), area, crashes);
      && SameHome(d, if k <= |t.blocks| then disk else Installed(disk, t), area)
      && HeadCount(d[area.start]) == 0
  {
    if k <= |t.blocks| {
      CommitPrefix(disk, area, t, k);
    } else {
      CommitSuffix(disk, area, t, k);
    }
    RebootRecovers(Apply(disk, CommitWrites(disk[area.start], area, t)[..k]), area, crashes);
  }

  /** A commit that is not interrupted installs the transaction and empties the log. */
  lemma CommitInstalls(disk: Disk, area: Area, t: Txn)
    requires Loggable(t, disk, area)
    ensures
      var d := Apply(disk, CommitWrites(disk[area.start], area, t));
      && SameHome(d, Installed(disk, t), area)
      && HeadCount(d[area.start]) == 0
  {
    var mid := CommitPoint(disk, area, t);
    var rest := RecoverWrites(mid, area);
    var first := LogWrites(area, t.contents) + [Write(area.start, PutHead(disk[area.start], t.blocks))];
    ApplyConcat(disk, first, rest);
    RecoveredIsInstalled(disk, mid, area, t);
    RecoverInstalls(mid, area);
  }

  // Whole histories.

  /** One transaction in the life of a disk: it commits, or the machine crashes after `after`
      writes of the commit and then boots through further crashes. */
  datatype Event =
    | Commits(t: Txn)
    | Crashes(t: Txn, after: nat, reboots: seq<nat>)

  ghost predicate Possible(e: Event, disk: Disk, area: Area) {
    && Loggable(e.t, disk, area)
    && (e.Crashes? ==> e.after <= |CommitWrites(disk[area.start], area, e.t)|)
  }

  /** The header write reached the disk. */
  predicate Landed(e: Event) {
    e.Crashes? ==> e.after > |e.t.blocks|
  }

  function AfterEvent(disk: Disk, area: Area, e: Event): (d: Disk)
    requires area.Fits(disk) && |e.t.blocks| == |e.t.contents| <= LOGSIZE
    ensures |d| == |disk|
  {
    var ws := CommitWrites(disk[area.start], area, e.t);
    match e
    case Commits(_) => Apply(disk, ws)
    case Crashes(_, after, reboots) =>
      Reboot(Apply(disk, if after <= |ws| then ws[..after] else ws), area, reboots)
  }

  ghost predicate PossibleAll(events: seq<Event>, disk: Disk, area: Area) {
    area.Fits(disk) && forall i | 0 <= i < |events| :: Possible(events[i], disk, area)
  }

  function AfterAll(disk: Disk, area: Area, events: seq<Event>): (d: Disk)
    requires area.Fits(disk)
    requires forall i | 0 <= i < |events| :: |events[i].t.blocks| == |events[i].t.contents| <= LOGSIZE
    ensures |d| == |disk|
  {
    if events == [] then disk
    else AfterEvent(AfterAll(disk, area, events[..|events| - 1]), area, events[|events| - 1])
  }

  /** The disk of a machine that never crashes and installs just the given transactions. */
  function InstallAll(disk: Disk, events: seq<Event>): (d: Disk)
    requires forall i | 0 <= i < |events| :: |events[i].t.blocks| == |events[i].t.contents|
    ensures |d| == |disk|
  {
    if events == [] then disk
    else
      var before := InstallAll(disk, events[..|events| - 1]);
      var e := events[|events| - 1];
      if Landed(e) then Installed(before, e.t) else before
  }

  /** Over any history of commits and crashes, the file system holds exactly the transactions
      whose header write reached the disk, in order. */
  lemma {:induction false} HistoryIsSerial(disk: Disk, area: Area, events: seq<Event>)
    requires PossibleAll(events, disk, area) && HeadCount(disk[area.start]) == 0
    ensures SameHome(AfterAll(disk, area, events), InstallAll(disk, events), area)
    ensures HeadCount(AfterAll(disk, area, events)[area.start]) == 0
  {
    if events != [] {
      var init := events[..|events| - 1];
      var e := events[|events| - 1];
      HistoryIsSerial(disk, area, init);
      var d := AfterAll(disk, area, init);
      assert Possible(e, disk, area);
      if e.Commits? {
        CommitInstalls(d, area, e.t);
      } else {
        CrashAtomicity(d, area, e.t, e.after, e.reboots);
      }
      InstalledDependsOnHome(d, InstallAll(disk, init), area, e.t);
    }
  }
}
