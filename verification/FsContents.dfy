/** What a file's blocks spell (kernel/fs.c): bytes by position, and files as byte sequences. */
module FsContents {
  import opened Basics
  import opened FsBlocks

  const MAXBYTES: nat := MAXFILE * BSIZE

  function SlotOf(i: int, bn: int): Role { if bn < NDIRECT then Direct(i, bn) else Entry(i, bn - NDIRECT) }

  /** The byte at a position, if a block is mapped there. */
  datatype Cell = Hole | Val(b: Byte)

  predicate InFile(fs: Fs, i: int, p: int) { 0 <= i < |fs.inodes| && 0 <= p < MAXBYTES }

  function CellAt(fs: Fs, i: int, p: int): Cell
    requires Shape(fs) && InFile(fs, i, p)
  {
    var a := Addr(fs, SlotOf(i, p / BSIZE));
    if a == 0 || !HasData(fs.data, a) then Hole else Val(fs.data[a][p % BSIZE])
  }

  /** From fs to fs', file i has the bytes s from lo on, and no other mapped byte of any file has
      changed. */
  ghost predicate Spliced(fs: Fs, fs': Fs, i: int, lo: int, s: seq<Byte>) {
    && Shape(fs) && Shape(fs') && |fs'.inodes| == |fs.inodes| && 0 <= lo && lo + |s| <= MAXBYTES
    && forall j, p {:trigger CellAt(fs', j, p)} :: InFile(fs, j, p) ==>
      if j == i && lo <= p < lo + |s| then CellAt(fs', j, p) == Val(s[p - lo])
      else CellAt(fs, j, p) != Hole ==> CellAt(fs', j, p) == CellAt(fs, j, p)
  }

  lemma SplicedTwice(fs: Fs, fs1: Fs, fs2: Fs, i: int, lo: int, s: seq<Byte>, t: seq<Byte>)
    requires Spliced(fs, fs1, i, lo, s) && Spliced(fs1, fs2, i, lo + |s|, t)
    ensures Spliced(fs, fs2, i, lo, s + t)
  {
    forall j, p | InFile(fs, j, p)
      ensures if j == i && lo <= p < lo + |s + t| then CellAt(fs2, j, p) == Val((s + t)[p - lo])
              else CellAt(fs, j, p) != Hole ==> CellAt(fs2, j, p) == CellAt(fs, j, p)
    {
      assert CellAt(fs1, j, p) == CellAt(fs1, j, p);
    }
  }

  /** A change that leaves every mapped block's address alone, and the bytes of all but indirect
      blocks. */
  lemma SplicedNothing(fs: Fs, fs': Fs, i: int, lo: int)
    requires Shape(fs) && Shape(fs') && |fs'.inodes| == |fs.inodes| && 0 <= lo <= MAXBYTES
    requires forall r :: RoleOk(fs, r) && Addr(fs, r) != 0 ==> Addr(fs', r) == Addr(fs, r)
    requires forall r :: RoleOk(fs, r) && !r.Ind? && Addr(fs, r) != 0 && Addr(fs, r) in fs.data ==>
      Addr(fs, r) in fs'.data && fs'.data[Addr(fs, r)] == fs.data[Addr(fs, r)]
    ensures Spliced(fs, fs', i, lo, [])
  {
    forall j, p | InFile(fs, j, p) && CellAt(fs, j, p) != Hole ensures CellAt(fs', j, p) == CellAt(fs, j, p) {
      var r := SlotOf(j, p / BSIZE);
      assert RoleOk(fs, r) && Addr(fs, r) != 0;
    }
  }

  // ----- writing within one block -------------------------------------------------------------------

  function Patched(d: seq<Byte>, o: int, s: seq<Byte>): (r: seq<Byte>)
    requires 0 <= o && o + |s| <= |d|
    ensures |r| == |d|
  {
    d[..o] + s + d[o + |s|..]
  }

  ghost function SetData(fs: Fs, a: int, d: seq<Byte>): Fs { fs.(data := fs.data[a := d]) }

  lemma NotIndirect(fs: Fs, area: Area, a: int)
    requires Own(fs, area, {}) && a in fs.own && !fs.own[a].Ind?
    ensures forall i :: 0 <= i < |fs.inodes| ==> fs.inodes[i].addrs[NDIRECT] != a
  {
    forall i | 0 <= i < |fs.inodes| ensures fs.inodes[i].addrs[NDIRECT] != a {
      assert Addr(fs, Ind(i)) == fs.inodes[i].addrs[NDIRECT];
    }
  }

  /** Any bytes may go into a block that is no indirect block. */
  lemma WriteKeepsOwn(fs: Fs, area: Area, a: int, d: seq<Byte>)
    requires Own(fs, area, {}) && |d| == BSIZE && a in fs.own && !fs.own[a].Ind?
    ensures Own(SetData(fs, a, d), area, {})
  {
    var fs' := SetData(fs, a, d);
    NotIndirect(fs, area, a);
    SameAddresses(fs, fs', area);
    forall c | area.lo <= c < area.hi ensures HasData(fs'.data, c) { assert HasData(fs.data, c); }
  }

  lemma OwnShape(fs: Fs, area: Area)
    requires Own(fs, area, {})
    ensures Shape(fs)
  {
  }

  /** Positions of one block, from lo on. */
  lemma SamePlace(lo: int, n: int, p: int)
    requires 0 <= lo && 0 <= p && lo % BSIZE + n <= BSIZE
    ensures lo <= p < lo + n ==> p / BSIZE == lo / BSIZE && p % BSIZE == lo % BSIZE + (p - lo)
    ensures p / BSIZE == lo / BSIZE ==> (lo % BSIZE <= p % BSIZE < lo % BSIZE + n <==> lo <= p < lo + n)
  {
    if lo <= p < lo + n {
      assert p == BSIZE * (lo / BSIZE) + (lo % BSIZE + (p - lo));
    }
  }

  lemma PatchedAt(d: seq<Byte>, o: int, s: seq<Byte>, q: int)
    requires 0 <= o && o + |s| <= |d| && 0 <= q < |d|
    ensures |Patched(d, o, s)| == |d| && Patched(d, o, s)[q] == if o <= q < o + |s| then s[q - o] else d[q]
  {
  }

  lemma CellIn(fs: Fs, i: int, p: int)
    requires Shape(fs) && InFile(fs, i, p)
    ensures RoleOk(fs, SlotOf(i, p / BSIZE))
    ensures var a := Addr(fs, SlotOf(i, p / BSIZE));
      CellAt(fs, i, p) == if a == 0 || !HasData(fs.data, a) then Hole else Val(fs.data[a][p % BSIZE])
  {
  }

  /** One cell, before and after s is written at lo. */
  lemma WrittenCell(fs: Fs, area: Area, i: int, lo: int, s: seq<Byte>, j: int, p: int)
    requires Own(fs, area, {}) && InFile(fs, i, lo) && lo % BSIZE + |s| <= BSIZE && InFile(fs, j, p)
    requires Addr(fs, SlotOf(i, lo / BSIZE)) != 0 && HasData(fs.data, Addr(fs, SlotOf(i, lo / BSIZE)))
    requires var a := Addr(fs, SlotOf(i, lo / BSIZE));
      var fs' := SetData(fs, a, Patched(fs.data[a], lo % BSIZE, s));
      Shape(fs') && forall r :: RoleOk(fs, r) ==> Addr(fs', r) == Addr(fs, r)
    ensures var a := Addr(fs, SlotOf(i, lo / BSIZE));
      var fs' := SetData(fs, a, Patched(fs.data[a], lo % BSIZE, s));
      if j == i && lo <= p < lo + |s| then CellAt(fs', j, p) == Val(s[p - lo])
      else CellAt(fs, j, p) != Hole ==> CellAt(fs', j, p) == CellAt(fs, j, p)
  {
    hide CellAt, Patched, Own, Addr, Shape;
    OwnShape(fs, area);
    var a := Addr(fs, SlotOf(i, lo / BSIZE));
    var d := fs.data[a];
    var fs' := SetData(fs, a, Patched(d, lo % BSIZE, s));
    CellIn(fs, j, p);
    CellIn(fs', j, p);
    SamePlace(lo, |s|, p);
    PatchedAt(d, lo % BSIZE, s, p % BSIZE);
    if j != i || p / BSIZE != lo / BSIZE {
      CellIn(fs, i, lo);
      AddressesDistinct(fs, area, {}, SlotOf(i, lo / BSIZE), SlotOf(j, p / BSIZE));
    }
  }

  lemma WriteSplices(fs: Fs, area: Area, i: int, lo: int, s: seq<Byte>)
    requires Own(fs, area, {}) && InFile(fs, i, lo) && lo % BSIZE + |s| <= BSIZE
    requires Addr(fs, SlotOf(i, lo / BSIZE)) != 0
    ensures var a := Addr(fs, SlotOf(i, lo / BSIZE));
      HasData(fs.data, a) && Spliced(fs, SetData(fs, a, Patched(fs.data[a], lo % BSIZE, s)), i, lo, s)
  {
    var bn := lo / BSIZE;
    var a := Addr(fs, SlotOf(i, bn));
    assert fs.own[a] == SlotOf(i, bn) && HasData(fs.data, a);
    NotIndirect(fs, area, a);
    var fs' := SetData(fs, a, Patched(fs.data[a], lo % BSIZE, s));
    SameAddresses(fs, fs', area);
    hide CellAt, Patched, Own, Addr;
    forall j, p | InFile(fs, j, p)
      ensures if j == i && lo <= p < lo + |s| then CellAt(fs', j, p) == Val(s[p - lo])
              else CellAt(fs, j, p) != Hole ==> CellAt(fs', j, p) == CellAt(fs, j, p)
    {
      WrittenCell(fs, area, i, lo, s, j, p);
    }
  }

  // ----- files as byte sequences ----------------------------------------------------------------------

  /** Every position below the size is mapped. */
  ghost predicate SizeOk(fs: Fs, i: int)
    requires Shape(fs) && 0 <= i < |fs.inodes|
  {
    && fs.inodes[i].size <= MAXBYTES
    && forall p :: 0 <= p < fs.inodes[i].size ==> CellAt(fs, i, p) != Hole
  }

  ghost predicate Sizes(fs: Fs)
    requires Shape(fs)
  {
    forall i :: 0 <= i < |fs.inodes| ==> SizeOk(fs, i)
  }

  ghost function Contents(fs: Fs, i: int): (s: seq<Byte>)
    requires Shape(fs) && 0 <= i < |fs.inodes| && SizeOk(fs, i)
    ensures |s| == fs.inodes[i].size && forall p :: 0 <= p < |s| ==> CellAt(fs, i, p) == Val(s[p])
  {
    seq(fs.inodes[i].size, p requires 0 <= p < fs.inodes[i].size => CellAt(fs, i, p).b)
  }

  /** The old bytes with s laid over them at off. */
  function Overlaid(old_: seq<Byte>, off: int, s: seq<Byte>): seq<Byte>
    requires 0 <= off <= |old_|
  {
    old_[..off] + s + if off + |s| < |old_| then old_[off + |s|..] else []
  }

  function Max(a: int, b: int): int { if a > b then a else b }

  /** The file after s was laid over it at off and n bytes of s were counted for the size. */
  function Written(old_: seq<Byte>, off: int, s: seq<Byte>, n: int): seq<Byte>
    requires 0 <= off <= |old_| && 0 <= n <= |s|
  {
    Overlaid(old_, off, s)[..Max(|old_|, off + n)]
  }

  /** If all are counted, that is the plain overlay. */
  lemma WrittenWhole(old_: seq<Byte>, off: int, s: seq<Byte>)
    requires 0 <= off <= |old_|
    ensures Written(old_, off, s, |s|) == Overlaid(old_, off, s)
  {
  }

  /** Sizes as writei() leaves them. */
  predicate Resized(fs: Fs, fs': Fs, i: int, off: int, n: int) {
    && |fs'.inodes| == |fs.inodes|
    && forall j :: 0 <= j < |fs.inodes| ==>
      fs'.inodes[j].size == if j == i && off + n > fs.inodes[j].size then off + n else fs.inodes[j].size
  }

  lemma SpliceSize(fs: Fs, fs': Fs, i: int, off: int, s: seq<Byte>, n: int, j: int)
    requires Spliced(fs, fs', i, off, s) && 0 <= j < |fs.inodes| && SizeOk(fs, j)
    requires Resized(fs, fs', i, off, n) && n <= |s| && (j == i ==> off <= fs.inodes[i].size)
    ensures SizeOk(fs', j)
  {
    hide CellAt;
    forall p | 0 <= p < fs'.inodes[j].size ensures CellAt(fs', j, p) != Hole {
      assert InFile(fs, j, p);
      assert p < fs.inodes[j].size ==> CellAt(fs, j, p) != Hole;
    }
  }

  /** Laying s over file i and counting n of its bytes for the size is writing s into the byte
      sequence and cutting it there. */
  lemma SpliceIsOverlay(fs: Fs, fs': Fs, i: int, off: int, s: seq<Byte>, n: int)
    requires Spliced(fs, fs', i, off, s) && 0 <= i < |fs.inodes| && SizeOk(fs, i) && SizeOk(fs', i)
    requires Resized(fs, fs', i, off, n) && 0 <= n <= |s| && off <= fs.inodes[i].size
    ensures Contents(fs', i) == Written(Contents(fs, i), off, s, n)
  {
    hide CellAt, Contents;
    var was, is_, want := Contents(fs, i), Contents(fs', i), Written(Contents(fs, i), off, s, n);
    assert |is_| == |want|;
    forall p | 0 <= p < |want| ensures is_[p] == want[p] {
      assert InFile(fs, i, p) && CellAt(fs', i, p) == Val(is_[p]);
      assert p < |was| ==> CellAt(fs, i, p) == Val(was[p]);
    }
  }

  /** No other file notices. */
  lemma SpliceSpares(fs: Fs, fs': Fs, i: int, off: int, s: seq<Byte>, j: int)
    requires Spliced(fs, fs', i, off, s) && 0 <= j < |fs.inodes| && j != i && SizeOk(fs, j) && SizeOk(fs', j)
    requires fs'.inodes[j].size == fs.inodes[j].size
    ensures Contents(fs', j) == Contents(fs, j)
  {
    hide CellAt, Contents;
    var was, is_ := Contents(fs, j), Contents(fs', j);
    forall p | 0 <= p < |was| ensures is_[p] == was[p] {
      assert InFile(fs, j, p) && CellAt(fs', j, p) == Val(is_[p]) && CellAt(fs, j, p) == Val(was[p]);
    }
  }

  // ----- mapping a block --------------------------------------------------------------------------------

  /** Blocks may have been added; nothing that anyone can see has changed. */
  ghost predicate Extended(fs: Fs, fs': Fs, area: Area) {
    Shape(fs) && Own(fs', area, {}) && Spliced(fs, fs', 0, 0, []) && Resized(fs, fs', 0, 0, 0)
  }

  lemma ExtendedTwice(fs: Fs, fs1: Fs, fs2: Fs, area: Area)
    requires Extended(fs, fs1, area) && Extended(fs1, fs2, area)
    ensures Extended(fs, fs2, area)
  {
    hide Own, CellAt;
    var none: seq<Byte> := [];
    SplicedTwice(fs, fs1, fs2, 0, 0, none, none);
    assert none + none == none;
  }

  lemma ExtendedSelf(fs: Fs, area: Area)
    requires Own(fs, area, {})
    ensures Extended(fs, fs, area)
  {
  }

  /** Place r, empty in fs, holds a in fs', and no other place has changed. */
  ghost predicate Mapped(fs: Fs, fs': Fs, area: Area, r: Role, a: int) {
    && Extended(fs, fs', area)
    && (forall s :: RoleOk(fs, s) ==> RoleOk(fs', s) && Addr(fs', s) == if s == r then a else Addr(fs, s))
  }

  /** A fresh block's old bytes are no file's. */
  lemma AllocSplices(fs: Fs, fs': Fs, area: Area, b: int)
    requires Own(fs, area, {}) && b !in fs.marked && 0 <= b < area.hi
    requires Shape(fs') && |fs'.inodes| == |fs.inodes|
    requires forall c :: c in fs.data && c in fs.own && !fs.own[c].Ind? ==> c in fs'.data && fs'.data[c] == fs.data[c]
    requires forall s :: RoleOk(fs, s) && Addr(fs, s) != 0 ==> Addr(fs', s) == Addr(fs, s)
    ensures Spliced(fs, fs', 0, 0, [])
  {
    SplicedNothing(fs, fs', 0, 0);
  }

  lemma MapDirect(fs: Fs, area: Area, b: int, i: int, k: int)
    requires Own(fs, area, {}) && b !in fs.marked && 0 <= b < area.hi
    requires 0 <= i < |fs.inodes| && 0 <= k < NDIRECT && fs.inodes[i].addrs[k] == 0
    ensures Mapped(fs, SetAddr(Alloc(fs, b), i, k, b).(own := fs.own[b := Direct(i, k)]), area, Direct(i, k), b)
  {
    AllocKeeps(fs, area, {}, b);
    AttachDirect(Alloc(fs, b), area, b, i, k);
    var fs' := SetAddr(Alloc(fs, b), i, k, b).(own := fs.own[b := Direct(i, k)]);
    hide Own;
    assert forall s :: RoleOk(fs, s) ==> RoleOk(Alloc(fs, b), s) && RoleOk(fs', s);
    AllocSplices(fs, fs', area, b);
  }

  lemma MapInd(fs: Fs, area: Area, b: int, i: int)
    requires Own(fs, area, {}) && b !in fs.marked && 0 <= b < area.hi
    requires 0 <= i < |fs.inodes| && fs.inodes[i].addrs[NDIRECT] == 0
    ensures Mapped(fs, SetAddr(Alloc(fs, b), i, NDIRECT, b).(own := fs.own[b := Ind(i)]), area, Ind(i), b)
  {
    AllocKeeps(fs, area, {}, b);
    AttachInd(Alloc(fs, b), area, b, i);
    var fs' := SetAddr(Alloc(fs, b), i, NDIRECT, b).(own := fs.own[b := Ind(i)]);
    hide Own;
    assert forall s :: RoleOk(fs, s) ==> RoleOk(Alloc(fs, b), s) && RoleOk(fs', s);
    AllocSplices(fs, fs', area, b);
  }

  lemma MapEntry(fs: Fs, area: Area, b: int, i: int, k: int)
    requires Own(fs, area, {}) && b !in fs.marked && 0 <= b < area.hi
    requires 0 <= i < |fs.inodes| && fs.inodes[i].addrs[NDIRECT] != 0
    requires 0 <= k < NINDIRECT && Addr(fs, Entry(i, k)) == 0
    ensures var a := fs.inodes[i].addrs[NDIRECT];
      HasData(Alloc(fs, b).data, a) && b < UINT &&
      Mapped(fs, SetEntry(Alloc(fs, b), a, k, b).(own := fs.own[b := Entry(i, k)]), area, Entry(i, k), b)
  {
    var a := fs.inodes[i].addrs[NDIRECT];
    AllocKeeps(fs, area, {}, b);
    assert Addr(Alloc(fs, b), Entry(i, k)) == 0;
    AttachEntry(Alloc(fs, b), area, b, i, k);
    assert fs.own[a] == Ind(i) by { assert Addr(fs, Ind(i)) == a; }
    assert b !in fs.own;
    var fs' := SetEntry(Alloc(fs, b), a, k, b).(own := fs.own[b := Entry(i, k)]);
    hide Own;
    assert forall s :: RoleOk(fs, s) ==> RoleOk(Alloc(fs, b), s) && RoleOk(fs', s);
    AllocSplices(fs, fs', area, b);
  }

  lemma ExtendedKeeps(fs: Fs, fs': Fs, area: Area, i: int, lo: int)
    requires Extended(fs, fs', area) && 0 <= lo <= MAXBYTES
    ensures Spliced(fs, fs', i, lo, [])
  {
    hide Own, CellAt;
  }

  /** Mapping the block at lo and writing s into it. */
  lemma ChunkSplices(fs: Fs, fs1: Fs, area: Area, i: int, lo: int, s: seq<Byte>)
    requires Extended(fs, fs1, area) && InFile(fs, i, lo) && lo % BSIZE + |s| <= BSIZE
    requires Addr(fs1, SlotOf(i, lo / BSIZE)) != 0
    ensures var a := Addr(fs1, SlotOf(i, lo / BSIZE));
      && HasData(fs1.data, a)
      && Own(SetData(fs1, a, Patched(fs1.data[a], lo % BSIZE, s)), area, {})
      && Spliced(fs, SetData(fs1, a, Patched(fs1.data[a], lo % BSIZE, s)), i, lo, s)
  {
    var a := Addr(fs1, SlotOf(i, lo / BSIZE));
    WriteSplices(fs1, area, i, lo, s);
    WriteKeepsOwn(fs1, area, a, Patched(fs1.data[a], lo % BSIZE, s));
    ExtendedKeeps(fs, fs1, area, i, lo);
    hide Own, CellAt, SetData;
    var none: seq<Byte> := [];
    SplicedTwice(fs, fs1, SetData(fs1, a, Patched(fs1.data[a], lo % BSIZE, s)), i, lo, none, s);
    assert none + s == s;
  }

  // ----- the size field ----------------------------------------------------------------------------------

  ghost function SetSize(fs: Fs, i: int, n: nat): Fs
    requires 0 <= i < |fs.inodes|
  {
    fs.(inodes := fs.inodes[i := fs.inodes[i].(size := n)])
  }

  lemma SizeKeepsOwn(fs: Fs, area: Area, i: int, n: nat)
    requires Own(fs, area, {}) && 0 <= i < |fs.inodes|
    ensures Own(SetSize(fs, i, n), area, {})
    ensures forall r :: RoleOk(fs, r) ==> RoleOk(SetSize(fs, i, n), r) && Addr(SetSize(fs, i, n), r) == Addr(fs, r)
  {
    var fs' := SetSize(fs, i, n);
    assert Shape(fs');
    forall r ensures RoleOk(fs', r) == RoleOk(fs, r) && (RoleOk(fs, r) ==> Addr(fs', r) == Addr(fs, r)) { }
  }

  lemma SizeKeepsSplice(fs: Fs, fs1: Fs, area: Area, i: int, lo: int, s: seq<Byte>, n: nat)
    requires Own(fs1, area, {}) && 0 <= i < |fs1.inodes| && Spliced(fs, fs1, i, lo, s)
    ensures Spliced(fs, SetSize(fs1, i, n), i, lo, s)
  {
    SizeKeepsOwn(fs1, area, i, n);
    var fs' := SetSize(fs1, i, n);
    forall j, p | InFile(fs1, j, p) ensures CellAt(fs', j, p) == CellAt(fs1, j, p) {
      assert RoleOk(fs1, SlotOf(j, p / BSIZE));
    }
    hide CellAt, Own;
    forall j, p | InFile(fs, j, p)
      ensures if j == i && lo <= p < lo + |s| then CellAt(fs', j, p) == Val(s[p - lo])
              else CellAt(fs, j, p) != Hole ==> CellAt(fs', j, p) == CellAt(fs, j, p)
    {
      assert InFile(fs1, j, p) && CellAt(fs1, j, p) == CellAt(fs', j, p);
    }
  }

  /** Everything writei() promises, from the splice and the new size. */
  lemma WriteDone(fs: Fs, fs1: Fs, area: Area, i: int, off: int, s: seq<Byte>, m: int, n: nat)
    requires Shape(fs) && Sizes(fs) && Own(fs1, area, {}) && 0 <= i < |fs.inodes| && off <= fs.inodes[i].size
    requires Spliced(fs, fs1, i, off, s) && Resized(fs, fs1, 0, 0, 0)
    requires 0 <= m <= |s| && n == if off + m > fs.inodes[i].size then off + m else fs.inodes[i].size
    ensures Own(SetSize(fs1, i, n), area, {}) && Shape(SetSize(fs1, i, n)) && Sizes(SetSize(fs1, i, n))
    ensures Contents(SetSize(fs1, i, n), i) == Written(Contents(fs, i), off, s, m)
    ensures SparesOthers(fs, SetSize(fs1, i, n), i)
    ensures Addr(SetSize(fs1, i, n), Ind(i)) == Addr(fs1, Ind(i))
  {
    var fs' := SetSize(fs1, i, n);
    SizeKeepsOwn(fs1, area, i, n);
    SizeKeepsSplice(fs, fs1, area, i, off, s, n);
    assert Resized(fs, fs', i, off, m);
    assert RoleOk(fs1, Ind(i));
    hide Own, CellAt, SetSize, Spliced, Resized;
    forall j | 0 <= j < |fs'.inodes| ensures SizeOk(fs', j) {
      InodeCount(fs, fs', i, off, s);
      SpliceSize(fs, fs', i, off, s, m, j);
    }
    SpliceIsOverlay(fs, fs', i, off, s, m);
    InodeCount(fs, fs', i, off, s);
    forall j | 0 <= j < |fs.inodes| && j != i ensures Contents(fs', j) == Contents(fs, j) {
      SameSize(fs, fs', i, off, m, j);
      SpliceSpares(fs, fs', i, off, s, j);
    }
  }

  ghost predicate SparesOthers(fs: Fs, fs': Fs, i: int)
    requires Shape(fs) && Shape(fs') && Sizes(fs) && Sizes(fs')
  {
    |fs'.inodes| == |fs.inodes| && forall j :: 0 <= j < |fs.inodes| && j != i ==> Contents(fs', j) == Contents(fs, j)
  }

  lemma InodeCount(fs: Fs, fs': Fs, i: int, lo: int, s: seq<Byte>)
    requires Spliced(fs, fs', i, lo, s)
    ensures Shape(fs') && |fs'.inodes| == |fs.inodes|
  {
  }

  lemma SameSize(fs: Fs, fs': Fs, i: int, off: int, n: int, j: int)
    requires Resized(fs, fs', i, off, n) && 0 <= j < |fs.inodes| && j != i
    ensures fs'.inodes[j].size == fs.inodes[j].size
  {
  }

  /** A stretch of one block is the same stretch of the file. */
  lemma BlockIsSlice(fs: Fs, area: Area, i: int, lo: int, m: int)
    requires Own(fs, area, {}) && 0 <= i < |fs.inodes| && SizeOk(fs, i)
    requires 0 <= lo && 0 < m && lo + m <= fs.inodes[i].size && lo % BSIZE + m <= BSIZE
    ensures lo / BSIZE < MAXFILE
    ensures var a := Addr(fs, SlotOf(i, lo / BSIZE));
      a != 0 && HasData(fs.data, a) &&
      fs.data[a][lo % BSIZE..lo % BSIZE + m] == Contents(fs, i)[lo..lo + m]
  {
    hide CellAt, Contents, Own, Addr;
    OwnShape(fs, area);
    assert CellAt(fs, i, lo) != Hole;
    CellIn(fs, i, lo);
    var a := Addr(fs, SlotOf(i, lo / BSIZE));
    var c := Contents(fs, i);
    var x, y := fs.data[a][lo % BSIZE..lo % BSIZE + m], c[lo..lo + m];
    forall k | 0 <= k < m ensures x[k] == y[k] {
      assert CellAt(fs, i, lo + k) == Val(c[lo + k]);
      CellIn(fs, i, lo + k);
      SamePlace(lo, m, lo + k);
    }
  }
}
