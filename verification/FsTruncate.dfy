/** Truncation: what holds while `itrunc` gives the blocks of a file back one by one. */
module FsTruncate {
  import opened Blocks
  import opened FsState
  import opened FsSteps

  /** The inode gives up its blocks: they are all still marked used, but nobody owns them. */
  function Orphan(s: State, i: nat): State {
    State(s.sb, s.disk, s.core, map b | b in s.owner && s.owner[b].0 != i :: s.owner[b],
          s.pend + Left(s, i, 0), s.dying + {i})
  }

  /** The blocks of the inode that are still to be freed when the slots below `k` are done; the
      indirect block goes last. */
  function Left(s: State, i: nat, k: nat): (r: set<nat>) {
    set b | b in s.owner && s.owner[b].0 == i && (s.owner[b].1 >= k || s.owner[b].1 == NDIRECT)
  }

  ghost predicate Freeing(s: State, t: State, i: nat, k: nat) {
    && t.Inv() && t.sb == s.sb && t.dying == s.dying + {i}
    && t.owner == Orphan(s, i).owner && t.pend == s.pend + Left(s, i, k)
    && i < |s.core| == |t.core| && |s.disk| == |t.disk|
    && |s.core[i].addrs| == |t.core[i].addrs| == NDIRECT + 1
    && (forall m | 0 <= m <= NDIRECT :: t.core[i].addrs[m] == if m < k && m < NDIRECT then 0 else s.core[i].addrs[m])
    && t.core[i].kind == s.core[i].kind && t.core[i].links == s.core[i].links
    && (forall x | s.sb.datastart <= x < |s.disk| :: t.disk[x] == s.disk[x])
    && SameInodeBlocks(s, t)
    && (forall j | 0 <= j < |s.core| && j != i && j !in s.dying :: SameFile(s, t, j))
  }

  lemma FreeingFacts(s: State, t: State, i: nat, k: nat)
    requires s.Inv() && i !in s.dying && Freeing(s, t, i, k)
    ensures t.Inv() && i < |t.core| == |s.core| && |t.core[i].addrs| == NDIRECT + 1
    ensures t.core[i].addrs[NDIRECT] == s.core[i].addrs[NDIRECT] == s.Ref(i, NDIRECT)
    ensures s.Ref(i, NDIRECT) != 0 ==> s.Ref(i, NDIRECT) < |t.disk| == |s.disk|
                                       && t.disk[s.Ref(i, NDIRECT)] == s.disk[s.Ref(i, NDIRECT)]
  {
    if s.Ref(i, NDIRECT) != 0 {
      RefsAreUsed(s, i, NDIRECT);
    }
  }

  lemma OrphanKeeps(s: State, i: nat)
    requires s.Inv() && i < |s.core| && i !in s.dying
    ensures Freeing(s, Orphan(s, i), i, 0)
  {
    var t := Orphan(s, i);
    forall j, k | 0 <= j < |t.core| && 0 <= k < SLOTS ensures t.Ref(j, k) == s.Ref(j, k) && t.Owned(j, k) {
      assert s.Owned(j, k);
    }
    forall b | b in t.owner ensures t.OwnerOk(b) {
      assert s.OwnerOk(b);
    }
    forall b | 0 <= b < t.sb.size ensures t.BitOk(b) {
      MapBlockRange(s, b);
      assert s.BitOk(b);
      assert b in s.owner ==> b in t.owner || b in t.pend;
      assert b in t.pend ==> b in s.pend || b in s.owner;
    }
    forall b | b in t.pend ensures t.sb.datastart <= b < t.sb.size && b !in t.owner {
      if b in s.owner {
        assert s.OwnerOk(b);
      }
    }
    forall j | 0 <= j < |t.core| && j !in t.dying ensures t.Backed(j) {
      assert SameFile(s, t, j);
      SameFileBacked(s, t, j);
    }
  }

  /** Freeing what one slot refers to is one block less to free. */
  lemma LeftNext(s: State, i: nat, k: nat)
    requires s.Inv() && i < |s.core| && i !in s.dying && k < SLOTS && k != NDIRECT
    ensures s.Ref(i, k) == 0 ==> Left(s, i, k + 1) == Left(s, i, k)
    ensures s.Ref(i, k) != 0 ==>
      && s.Ref(i, k) in Left(s, i, k) && s.Ref(i, k) !in s.pend
      && Left(s, i, k + 1) == Left(s, i, k) - {s.Ref(i, k)}
  {
    forall b | b in Left(s, i, k) && s.owner[b].1 == k ensures b == s.Ref(i, k) && b != 0 {
      assert s.OwnerOk(b);
    }
    if s.Ref(i, k) != 0 {
      RefsAreUsed(s, i, k);
    }
  }

  lemma FreeDirect(s: State, t: State, i: nat, k: nat)
    requires s.Inv() && i !in s.dying && Freeing(s, t, i, k) && k < NDIRECT
    ensures
      var b := t.core[i].addrs[k];
      if b == 0 then Freeing(s, t, i, k + 1)
      else b in t.pend && t.sb.MapBlock(b) < |t.disk| && Freeing(s, t.Free(b).Clear(i, k), i, k + 1)
  {
    hide State.Inv, SameFile, SameInodeBlocks;
    LeftNext(s, i, k);
    var b := t.core[i].addrs[k];
    assert b == s.Ref(i, k);
    if b != 0 {
      ClearedKeeps(s, t, i, k, b);
    }
  }

  lemma FreedKeeps(s: State, t: State, i: nat, b: nat)
    requires t.Inv() && b in t.pend && i < |s.core| == |t.core| && t.dying == s.dying + {i} && t.sb == s.sb
    requires SameInodeBlocks(s, t) && forall x | s.sb.datastart <= x < |s.disk| :: t.disk[x] == s.disk[x]
    requires forall j | 0 <= j < |s.core| && j != i && j !in s.dying :: SameFile(s, t, j)
    ensures t.sb.MapBlock(b) < |t.disk|
    ensures SameInodeBlocks(s, t.Free(b)) && forall x | s.sb.datastart <= x < |s.disk| :: t.Free(b).disk[x] == s.disk[x]
    ensures forall j | 0 <= j < |s.core| && j != i && j !in s.dying :: SameFile(s, t.Free(b), j)
  {
    FreeKeeps(t, b);
    forall j | 0 <= j < |s.core| && j != i && j !in s.dying ensures SameFile(s, t.Free(b), j) {
      SameFileTrans(s, t, t.Free(b), j);
    }
  }

  /** Clearing a slot of a dying inode keeps everything else. */
  lemma ClearKeeps(t: State, i: nat, k: nat)
    requires t.Inv() && i < |t.core| && i in t.dying && k <= NDIRECT
    ensures |t.core[i].addrs| == NDIRECT + 1
    ensures t.Clear(i, k).Inv()
    ensures forall j | 0 <= j < |t.core| && j != i :: SameFile(t, t.Clear(i, k), j)
  {
    var u := t.Clear(i, k);
    forall j | 0 <= j < |t.core| && j != i ensures SameFile(t, u, j) {
      forall m | 0 <= m < SLOTS ensures u.Ref(j, m) == t.Ref(j, m) {
      }
    }
    forall b | 0 <= b < t.sb.size ensures t.sb.MapBlock(b) < |u.disk| && u.BitOk(b) {
      MapBlockRange(t, b);
      assert t.BitOk(b);
    }
    SameRefsInv(t, u);
  }

  /** The two together: the block that a slot refers to is freed, and the slot cleared. */
  lemma ClearedKeeps(s: State, t: State, i: nat, k: nat, b: nat)
    requires t.Inv() && b in t.pend && i < |s.core| == |t.core| && t.dying == s.dying + {i} && t.sb == s.sb
    requires SameInodeBlocks(s, t) && forall x | s.sb.datastart <= x < |s.disk| :: t.disk[x] == s.disk[x]
    requires forall j | 0 <= j < |s.core| && j != i && j !in s.dying :: SameFile(s, t, j)
    requires k <= NDIRECT
    ensures t.sb.MapBlock(b) < |t.disk| && |t.Free(b).core[i].addrs| == NDIRECT + 1
    ensures
      var u := t.Free(b).Clear(i, k);
      && u.Inv() && SameInodeBlocks(s, u) && (forall x | s.sb.datastart <= x < |s.disk| :: u.disk[x] == s.disk[x])
      && forall j | 0 <= j < |s.core| && j != i && j !in s.dying :: SameFile(s, u, j)
  {
    hide State.Inv, SameFile;
    FreeKeeps(t, b);
    FreedKeeps(s, t, i, b);
    ClearKeeps(t.Free(b), i, k);
    forall j | 0 <= j < |s.core| && j != i && j !in s.dying ensures SameFile(s, t.Free(b).Clear(i, k), j) {
      SameFileTrans(s, t.Free(b), t.Free(b).Clear(i, k), j);
    }
  }

  lemma FreeEntry(s: State, t: State, i: nat, k: nat)
    requires s.Inv() && i !in s.dying && Freeing(s, t, i, k) && NDIRECT < k < SLOTS
    requires s.Ref(i, NDIRECT) != 0
    ensures t.core[i].addrs[NDIRECT] < |t.disk|
    ensures
      var b := Word(t.disk[t.core[i].addrs[NDIRECT]], k - NDIRECT - 1);
      if b == 0 then Freeing(s, t, i, k + 1)
      else b in t.pend && t.sb.MapBlock(b) < |t.disk| && Freeing(s, t.Free(b), i, k + 1)
  {
    RefsAreUsed(s, i, NDIRECT);
    LeftNext(s, i, k);
    var b := Word(t.disk[t.core[i].addrs[NDIRECT]], k - NDIRECT - 1);
    assert b == s.Ref(i, k);
    if b != 0 {
      FreeKeeps(t, b);
      FreedKeeps(s, t, i, b);
    }
  }

  lemma SkipIndirect(s: State, t: State, i: nat)
    requires Freeing(s, t, i, NDIRECT)
    ensures Freeing(s, t, i, NDIRECT + 1)
  {
    assert Left(s, i, NDIRECT + 1) == Left(s, i, NDIRECT);
  }

  /** All the blocks of the inode have been freed, and its slots cleared. */
  ghost predicate Emptied(s: State, t: State, i: nat) {
    && t.Inv() && t.sb == s.sb && t.dying == s.dying + {i}
    && t.owner == Orphan(s, i).owner && t.pend == s.pend
    && i < |s.core| == |t.core| && |s.disk| == |t.disk|
    && t.core[i].addrs == seq(NDIRECT + 1, _ => 0)
    && t.core[i].kind == s.core[i].kind && t.core[i].links == s.core[i].links
    && SameInodeBlocks(s, t)
    && (forall j | 0 <= j < |s.core| && j != i && j !in s.dying :: SameFile(s, t, j))
  }

  lemma EmptiedFacts(s: State, t: State, i: nat)
    requires Emptied(s, t, i)
    ensures i < |t.core| == |s.core| && t.sb == s.sb && |t.disk| == |s.disk|
    ensures t.core[i].addrs == seq(NDIRECT + 1, _ => 0)
    ensures t.core[i].kind == s.core[i].kind && t.core[i].links == s.core[i].links
    ensures t.pend == s.pend
  {
  }

  lemma NoIndirect(s: State, t: State, i: nat)
    requires s.Inv() && i !in s.dying && Freeing(s, t, i, NDIRECT) && s.Ref(i, NDIRECT) == 0
    ensures Emptied(s, t, i)
  {
    forall b | b in s.owner && s.owner[b].0 == i ensures s.owner[b].1 < NDIRECT {
      assert s.OwnerOk(b);
    }
    assert Left(s, i, NDIRECT) == {};
    assert t.pend == s.pend;
    assert t.core[i].addrs == seq(NDIRECT + 1, _ => 0);
  }

  /** After all other slots the indirect block is left. */
  lemma OnlyIndirect(s: State, i: nat)
    requires s.Inv() && i < |s.core| && i !in s.dying && s.Ref(i, NDIRECT) != 0
    ensures Left(s, i, SLOTS) == {s.Ref(i, NDIRECT) as nat} && s.Ref(i, NDIRECT) !in s.pend
  {
    RefsAreUsed(s, i, NDIRECT);
    forall c | c in Left(s, i, SLOTS) ensures c == s.Ref(i, NDIRECT) {
      assert s.OwnerOk(c);
    }
  }

  lemma FreeIndirect(s: State, t: State, i: nat)
    requires s.Inv() && i !in s.dying && Freeing(s, t, i, SLOTS) && s.Ref(i, NDIRECT) != 0
    ensures
      var b := t.core[i].addrs[NDIRECT];
      b in t.pend && t.sb.MapBlock(b) < |t.disk| && Emptied(s, t.Free(b).Clear(i, NDIRECT), i)
  {
    hide State.Inv, SameFile, SameInodeBlocks;
    var b := t.core[i].addrs[NDIRECT];
    OnlyIndirect(s, i);
    ClearedKeeps(s, t, i, NDIRECT, b);
    var u := t.Free(b).Clear(i, NDIRECT);
    assert u.pend == s.pend;
    assert u.core[i].addrs == seq(NDIRECT + 1, _ => 0);
  }

  /** With no references left, the inode is an empty file, and the free map has lost exactly the
      blocks it had. */
  lemma Revive(s: State, t: State, i: nat)
    requires s.Inv() && i !in s.dying && Emptied(s, t, i)
    ensures
      var u := State(t.sb, t.disk, t.core[i := t.core[i].SetSize(0)], t.owner, t.pend, s.dying);
      && u.Inv() && SameInodeBlocks(s, u)
      && (forall j | 0 <= j < |s.core| && j != i && j !in s.dying :: SameFile(s, u, j))
      && (forall b | 0 <= b < s.sb.size :: s.sb.MapBlock(b) < |s.disk| &&
            (u.Used(b) <==> s.Used(b) && !(b in s.owner && s.owner[b].0 == i)))
  {
    var u := State(t.sb, t.disk, t.core[i := t.core[i].SetSize(0)], t.owner, t.pend, s.dying);
    forall j | 0 <= j < |s.core| && j != i && j !in s.dying ensures SameFile(t, u, j) && SameFile(s, u, j) {
      forall k | 0 <= k < SLOTS ensures u.Ref(j, k) == t.Ref(j, k) {
      }
      SameFileTrans(s, t, u, j);
    }
    forall k | 0 <= k < SLOTS ensures u.Ref(i, k) == 0 {
    }
    forall j, k | 0 <= j < |u.core| && 0 <= k < SLOTS ensures u.Owned(j, k) {
      assert t.Owned(j, k);
      assert j != i && j !in s.dying ==> SameFile(t, u, j);
    }
    forall b | b in u.owner ensures u.OwnerOk(b) {
      assert t.OwnerOk(b);
      assert SameFile(t, u, t.owner[b].0);
    }
    ReviveBits(s, t, u, i);
    forall j | 0 <= j < |u.core| && j !in u.dying ensures u.Backed(j) {
      if j != i {
        SameFileBacked(t, u, j);
      }
    }
  }

  lemma ReviveBits(s: State, t: State, u: State, i: nat)
    requires s.Inv() && i !in s.dying && Emptied(s, t, i)
    requires u.sb == t.sb && u.disk == t.disk && u.owner == t.owner && u.pend == t.pend
    ensures forall b | 0 <= b < s.sb.size :: s.sb.MapBlock(b) < |s.disk| && u.BitOk(b)
              && (u.Used(b) <==> s.Used(b) && !(b in s.owner && s.owner[b].0 == i))
  {
    forall b | 0 <= b < s.sb.size
      ensures s.sb.MapBlock(b) < |s.disk| && u.BitOk(b)
      ensures u.Used(b) <==> s.Used(b) && !(b in s.owner && s.owner[b].0 == i)
    {
      MapBlockRange(s, b);
      assert s.BitOk(b) && t.BitOk(b);
      if b in s.owner {
        assert s.OwnerOk(b);
      }
      assert b in s.pend ==> b !in s.owner;
    }
  }
}
