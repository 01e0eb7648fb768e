/** Truncation (kernel/fs.c): giving back all blocks of one file. */
module FsTruncate {
  import opened FsBlocks
  import opened FsContents

  /** Only file i has lost blocks: no bytes, no other inode and no other file's blocks have changed. */
  ghost predicate Pruned(fs: Fs, fs': Fs, i: int) {
    && |fs'.inodes| == |fs.inodes| && fs'.data == fs.data
    && (forall j :: 0 <= j < |fs.inodes| && j != i ==> fs'.inodes[j] == fs.inodes[j])
    && (forall b :: b in fs'.own ==> b in fs.own && fs'.own[b] == fs.own[b])
    && (forall b :: b in fs.own && fs.own[b].i != i ==> b in fs'.own)
  }

  lemma PrunedTwice(fs: Fs, fs1: Fs, fs2: Fs, i: int)
    requires Pruned(fs, fs1, i) && Pruned(fs1, fs2, i)
    ensures Pruned(fs, fs2, i)
  {
  }

  /** The state with direct block k freed and its address cleared. */
  ghost function DirectDropped(fs: Fs, i: int, k: int): Fs
    requires Shape(fs) && 0 <= i < |fs.inodes| && 0 <= k < NDIRECT
  {
    Freed(SetAddr(fs, i, k, 0).(own := fs.own - {fs.inodes[i].addrs[k]}), fs.inodes[i].addrs[k])
  }

  lemma DropDirect(fs: Fs, area: Area, i: int, k: int)
    requires Own(fs, area, {}) && 0 <= i < |fs.inodes| && 0 <= k < NDIRECT && fs.inodes[i].addrs[k] != 0
    ensures 0 <= fs.inodes[i].addrs[k] < area.hi && fs.inodes[i].addrs[k] in fs.marked
    ensures Own(DirectDropped(fs, i, k), area, {}) && Pruned(fs, DirectDropped(fs, i, k), i)
  {
    var a := fs.inodes[i].addrs[k];
    assert Addr(fs, Direct(i, k)) == a && fs.own[a] == Direct(i, k);
    DetachDirect(fs, area, {}, i, k);
    FreeKeeps(SetAddr(fs, i, k, 0).(own := fs.own - {a}), area, {} + {a}, a);
    assert {} + {a} - {a} == {};
  }

  /** With the indirect block about to go: the inode already without it, its blocks in transit. */
  ghost function IndDetached(fs: Fs, i: int): Fs
    requires Shape(fs) && 0 <= i < |fs.inodes| && fs.inodes[i].addrs[NDIRECT] != 0
  {
    var a := fs.inodes[i].addrs[NDIRECT];
    SetAddr(fs, i, NDIRECT, 0).(own := fs.own - ({a} + Entries(Words(fs.data[a]), 0)))
  }

  lemma DropInd(fs: Fs, area: Area, i: int)
    requires Own(fs, area, {}) && 0 <= i < |fs.inodes| && fs.inodes[i].addrs[NDIRECT] != 0
    ensures var a := fs.inodes[i].addrs[NDIRECT];
      && a !in Entries(Words(fs.data[a]), 0)
      && Own(IndDetached(fs, i), area, {a} + Entries(Words(fs.data[a]), 0))
      && Pruned(fs, IndDetached(fs, i), i)
      && (forall j, k :: 0 <= j < k < |Words(fs.data[a])| && Words(fs.data[a])[j] != 0 ==> Words(fs.data[a])[j] != Words(fs.data[a])[k])
  {
    var a := fs.inodes[i].addrs[NDIRECT];
    var w := Words(fs.data[a]);
    DetachInd(fs, area, i);
    EntriesDistinct(fs, area, {}, i);
    assert fs.own[a] == Ind(i) by { assert Addr(fs, Ind(i)) == a; }
    forall b | b in Entries(w, 0) ensures b in fs.own && fs.own[b].i == i {
      var k :| 0 <= k < |w| && w[k] == b;
      assert Addr(fs, Entry(i, k)) == b;
    }
  }

  lemma EntriesStep(w: seq<int>, j: int, a: int)
    requires 0 <= j < |w| && forall k :: j < k < |w| && w[j] != 0 ==> w[j] != w[k]
    ensures w[j] != 0 ==> w[j] in Entries(w, j) && (w[j] != a ==> {a} + Entries(w, j) - {w[j]} == {a} + Entries(w, j + 1))
    ensures w[j] == 0 ==> Entries(w, j) == Entries(w, j + 1)
  {
    forall b ensures b in w[j..] <==> b == w[j] || b in w[j + 1..] { assert w[j..] == [w[j]] + w[j + 1..]; }
    assert w[j] != 0 ==> w[j] !in w[j + 1..];
  }

  /** With no address left, file i owns nothing. */
  lemma NothingLeft(fs: Fs, fs': Fs, area: Area, i: int, b: int)
    requires Own(fs, area, {}) && Own(fs', area, {}) && Pruned(fs, fs', i) && 0 <= i < |fs.inodes|
    requires forall k :: 0 <= k <= NDIRECT ==> fs'.inodes[i].addrs[k] == 0
    requires area.lo <= b < area.hi
    ensures b in fs'.marked <==> b in fs.marked && b in fs.own && fs.own[b].i != i
  {
    if b in fs'.own {
      assert Addr(fs', fs'.own[b]) == b;
    }
  }

  lemma PrunedCells(fs: Fs, fs': Fs, i: int, j: int, p: int)
    requires Shape(fs) && Shape(fs') && Pruned(fs, fs', i) && j != i && InFile(fs, j, p)
    ensures CellAt(fs', j, p) == CellAt(fs, j, p)
  {
  }

  lemma PrunedSpares(fs: Fs, fs': Fs, i: int, j: int)
    requires Shape(fs) && Shape(fs') && Pruned(fs, fs', i) && j != i && 0 <= j < |fs.inodes| && SizeOk(fs, j)
    ensures SizeOk(fs', j) && Contents(fs', j) == Contents(fs, j)
  {
    forall p | 0 <= p < fs.inodes[j].size ensures CellAt(fs', j, p) == CellAt(fs, j, p) {
      PrunedCells(fs, fs', i, j, p);
    }
    hide CellAt, Contents;
    assert SizeOk(fs', j);
    forall p | 0 <= p < fs.inodes[j].size ensures Contents(fs', j)[p] == Contents(fs, j)[p] {
      assert CellAt(fs', j, p) == Val(Contents(fs', j)[p]);
    }
    assert Contents(fs', j) == Contents(fs, j);
  }

  lemma Truncated(fs: Fs, fs': Fs, area: Area, i: int)
    requires Shape(fs) && Sizes(fs) && Own(fs', area, {}) && Pruned(fs, fs', i) && 0 <= i < |fs.inodes|
    requires fs'.inodes[i].size == 0
    ensures Shape(fs') && Sizes(fs') && Contents(fs', i) == [] && SparesOthers(fs, fs', i)
  {
    hide Contents, CellAt;
    forall j | 0 <= j < |fs.inodes| && j != i ensures SizeOk(fs', j) && Contents(fs', j) == Contents(fs, j) {
      PrunedSpares(fs, fs', i, j);
    }
  }
}
