/** Block allocation, block mapping, truncation, reading and writing (kernel/fs.c, kernel/file.c). */
module FileSystem {
  import opened Basics
  import opened FsBitmap
  import opened FsBlocks
  import opened FsContents
  import opened FsJournal
  import opened FsTruncate

  const IPB: nat := 16

  ghost predicate AllMarked(marked: set<int>, n: int) { forall b :: 0 <= b < n ==> b in marked }

  /** Address 0 names no block. */
  function Named(a: int): set<int> { if a == 0 then {} else {a} }

  /** All of `now` was there before, is in `blocks`, or is a bitmap block. */
  ghost predicate Within(now: set<int>, before: set<int>, blocks: set<int>, first: int, last: int) {
    forall x :: x in now ==> x in before || x in blocks || first <= x <= last
  }

  lemma WithinSelf(s: set<int>, t: set<int>, first: int, last: int)
    ensures Within(s, s, t, first, last)
  {
  }

  lemma WithinWider(s: set<int>, s0: set<int>, t: set<int>, u: set<int>, first: int, last: int)
    requires Within(s, s0, t, first, last)
    ensures Within(s, s0, t + u, first, last)
  {
  }

  lemma WithinChain(s0: set<int>, s1: set<int>, s2: set<int>, t: set<int>, u: set<int>, first: int, last: int)
    requires Within(s1, s0, u, first, last) && Within(s2, s1, t + u, first, last)
    ensures Within(s2, s0, t + u, first, last)
  {
  }

  lemma WithinTwice(s0: set<int>, s1: set<int>, s2: set<int>, t: set<int>, ind: int, a: int, ind': int, first: int, last: int)
    requires Within(s1, s0, t + Named(ind), first, last) && Within(s2, s1, Named(a) + Named(ind'), first, last)
    requires ind != 0 ==> ind' == ind
    ensures Within(s2, s0, t + Named(a) + Named(ind'), first, last)
  {
  }

  class Volume {
    const lo: int
    const hi: int
    const bmapStart: int
    const inodeStart: int
    var bitmap: Bitmap
    var inodes: seq<Inode>
    var data: map<int, seq<Byte>>
    var logged: set<int>
    ghost var marked: set<int>
    ghost var own: map<int, Role>

    ghost function St(): Fs
      reads this
    {
      Fs(inodes, data, marked, own)
    }

    ghost predicate Live(extra: set<int>)
      reads this
    {
      Shows(bitmap, hi, marked) && Shape(St()) && Own(St(), Area(lo, hi), extra)
    }

    /** A fresh file system: every inode empty, every data block free. */
    constructor (lo0: int, hi0: int, bmapStart0: int, inodeStart0: int, bitmap0: Bitmap, ninodes: nat,
                 data0: map<int, seq<Byte>>, ghost marked0: set<int>)
      requires 0 < lo0 <= hi0 <= UINT && Shows(bitmap0, hi0, marked0)
      requires forall b :: 0 <= b < hi0 ==> (b in marked0 <==> b < lo0)
      requires forall b :: lo0 <= b < hi0 ==> HasData(data0, b)
      ensures Valid() && lo == lo0 && hi == hi0 && |inodes| == ninodes && logged == {}
      ensures forall i :: 0 <= i < ninodes ==> Contents(St(), i) == []
    {
      lo, hi, bmapStart, inodeStart := lo0, hi0, bmapStart0, inodeStart0;
      bitmap, data, logged := bitmap0, data0, {};
      inodes := seq(ninodes, _ => Inode([0, 0, 0, 0, 0, 0, 0, 0, 0, 0, 0, 0, 0], 0));
      marked, own := marked0, map[];
      new;
      hide Shows, HasData;
      assert forall r :: RoleOk(St(), r) ==> Addr(St(), r) == 0;
    }

    function BBlock(b: int): int { b / BPB + bmapStart }

    function IBlock(i: int): int { i / IPB + inodeStart }

    /** balloc(): the first unmarked block, zeroed, or 0. */
    method Balloc() returns (r: int)
      requires Live({})
      modifies `bitmap, `data, `logged, `marked
      ensures r == 0 <==> AllMarked(old(marked), hi)
      ensures r == 0 ==> unchanged(this)
      ensures r != 0 ==> lo <= r < hi && r !in old(marked) && AllMarked(old(marked), r)
      ensures r != 0 ==> Shows(bitmap, hi, marked) && St() == Alloc(old(St()), r)
      ensures r != 0 ==> logged == old(logged) + {BBlock(r), r}
    {
      var b := FirstFree();
      if b == hi { return 0; }
      Mark(b);
      return b;
    }

    /** The scan of balloc(), bitmap block by bitmap block: the first unmarked block, or hi. */
    method FirstFree() returns (r: int)
      requires Shows(bitmap, hi, marked) && 0 <= hi
      ensures 0 <= r <= hi && AllMarked(marked, r) && (r < hi ==> r !in marked)
    {
      hide Mask, Shows, SetBit, ClearBit, BitAt;
      var b := 0;
      while b < hi
        invariant 0 <= b && b % BPB == 0
        invariant forall c :: 0 <= c < b && c < hi ==> c in marked
      {
        var bi := 0;
        while bi < BPB && b + bi < hi
          invariant 0 <= bi <= BPB
          invariant forall c :: 0 <= c < b + bi && c < hi ==> c in marked
        {
          var m := Mask(bi % 8);
          BitRead(bitmap, hi, marked, b, bi);
          if bitmap[b / BPB][bi / 8] & m == 0 { return b + bi; }
          bi := bi + 1;
        }
        b := b + BPB;
      }
      return hi;
    }

    /** The found block marked in the bitmap and zeroed. */
    method Mark(b: int)
      requires Shows(bitmap, hi, marked) && 0 <= b < hi
      modifies `bitmap, `data, `logged, `marked
      ensures Shows(bitmap, hi, marked) && St() == Alloc(old(St()), b) && logged == old(logged) + {BBlock(b), b}
    {
      hide Mask, Shows, SetBit, ClearBit, BitAt;
      SetShows(bitmap, hi, marked, b);
      BitOf(bitmap, hi, marked, b);
      bitmap := SetBit(bitmap, hi, b);
      marked := marked + {b};
      data := data[b := ZeroBytes()];
      logged := logged + {BBlock(b), b};
    }

    /** bfree(): panics on a block that is not marked. */
    method Bfree(b: int) returns (ok: bool)
      requires Shows(bitmap, hi, marked) && 0 <= b < hi
      modifies `bitmap, `logged, `marked
      ensures ok == (b in old(marked))
      ensures ok ==> Shows(bitmap, hi, marked) && St() == Freed(old(St()), b) && logged == old(logged) + {BBlock(b)}
      ensures !ok ==> unchanged(this)
    {
      hide Mask, Shows, SetBit, ClearBit, BitAt;
      BitOf(bitmap, hi, marked, b);
      if !BitAt(bitmap, hi, b) { return false; }
      ClearShows(bitmap, hi, marked, b);
      bitmap := ClearBit(bitmap, hi, b);
      marked := marked - {b};
      logged := logged + {BBlock(b)};
      return true;
    }

    /** What was logged since: blocks named in `blocks`, and bitmap blocks. */
    ghost predicate Logs(before: set<int>, blocks: set<int>)
      reads `logged
    {
      Within(logged, before, blocks, bmapStart, BBlock(hi - 1))
    }

    ghost function DataArea(): Area { Area(lo, hi) }

    ghost predicate InodeOk(i: int)
      reads `inodes
    {
      0 <= i < |inodes|
    }

    method BmapDirect(i: int, k: int) returns (addr: int)
      requires Live({}) && InodeOk(i) && 0 <= k < NDIRECT
      modifies `bitmap, `inodes, `data, `logged, `marked, `own
      ensures Live({}) && InodeOk(i) && addr == Addr(St(), Direct(i, k)) && Addr(St(), Ind(i)) == Addr(old(St()), Ind(i))
      ensures Extended(old(St()), St(), DataArea()) && Logs(old(logged), Named(addr))
      ensures Journaled(old(St()), St(), i, old(logged), logged, bmapStart)
      ensures Addr(old(St()), Direct(i, k)) != 0 ==> unchanged(this)
      ensures addr == 0 ==> AllMarked(marked, hi) && unchanged(this)
    {
      ghost var fs := St();
      hide Extended, Own, Addr, Shows, Journaled, Within, Shape;
      ExtendedSelf(fs, DataArea());
      AddrOfDirect(fs, i, k);
      AreaOk(fs, DataArea());
      JournaledSelf(fs, i, logged, bmapStart);
      addr := inodes[i].addrs[k];
      WithinSelf(logged, Named(addr), bmapStart, BBlock(hi - 1));
      if addr == 0 {
        addr := Balloc();
        if addr == 0 { return; }
        DirectMapped(fs, DataArea(), addr, i, k, old(logged), bmapStart);
        inodes := inodes[i := inodes[i].(addrs := inodes[i].addrs[k := addr])];
        own := own[addr := Direct(i, k)];
      }
    }

    method BmapInd(i: int) returns (addr: int)
      requires Live({}) && InodeOk(i)
      modifies `bitmap, `inodes, `data, `logged, `marked, `own
      ensures Live({}) && InodeOk(i) && addr == Addr(St(), Ind(i))
      ensures Extended(old(St()), St(), DataArea()) && Logs(old(logged), Named(addr))
      ensures Journaled(old(St()), St(), i, old(logged), logged, bmapStart)
      ensures forall k :: 0 <= k < NINDIRECT ==> Addr(St(), Entry(i, k)) == Addr(old(St()), Entry(i, k))
      ensures Addr(old(St()), Ind(i)) != 0 ==> unchanged(this)
      ensures addr == 0 ==> AllMarked(marked, hi) && unchanged(this)
    {
      ghost var fs := St();
      hide Extended, Own, Addr, Shows, Journaled, Within, Shape;
      ExtendedSelf(fs, DataArea());
      AddrOfInd(fs, i);
      AreaOk(fs, DataArea());
      JournaledSelf(fs, i, logged, bmapStart);
      addr := inodes[i].addrs[NDIRECT];
      WithinSelf(logged, Named(addr), bmapStart, BBlock(hi - 1));
      if addr == 0 {
        addr := Balloc();
        if addr == 0 { return; }
        IndMapped(fs, DataArea(), addr, i, old(logged), bmapStart);
        inodes := inodes[i := inodes[i].(addrs := inodes[i].addrs[NDIRECT := addr])];
        own := own[addr := Ind(i)];
      }
    }

    method BmapEntry(i: int, k: int) returns (addr: int)
      requires Live({}) && InodeOk(i) && 0 <= k < NINDIRECT && Addr(St(), Ind(i)) != 0
      modifies `bitmap, `data, `logged, `marked, `own
      ensures Live({}) && InodeOk(i) && addr == Addr(St(), Entry(i, k)) && Addr(St(), Ind(i)) == Addr(old(St()), Ind(i))
      ensures Extended(old(St()), St(), DataArea()) && Logs(old(logged), Named(addr) + Named(Addr(St(), Ind(i))))
      ensures Journaled(old(St()), St(), i, old(logged), logged, bmapStart)
      ensures Addr(old(St()), Entry(i, k)) != 0 ==> unchanged(this)
      ensures addr == 0 ==> AllMarked(marked, hi) && unchanged(this)
    {
      ghost var fs := St();
      hide Extended, Own, Addr, Shows, Journaled, Within, Shape;
      ExtendedSelf(fs, DataArea());
      AddrOfInd(fs, i);
      AddrOfEntry(fs, i, k);
      AreaOk(fs, DataArea());
      JournaledSelf(fs, i, logged, bmapStart);
      var a := inodes[i].addrs[NDIRECT];
      addr := Words(data[a])[k];
      WithinSelf(logged, Named(addr) + Named(a), bmapStart, BBlock(hi - 1));
      if addr == 0 {
        addr := Balloc();
        if addr != 0 {
          EntryMapped(fs, DataArea(), addr, i, k, old(logged), bmapStart);
          data := data[a := SetWord(data[a], k, addr)];
          own := own[addr := Entry(i, k)];
          logged := logged + {a};
        }
      }
    }

    /** bmap(): the address of a file's block bn, mapped on demand; 0 when the disk is full. */
    method Bmap(i: int, bn: int) returns (addr: int)
      requires Live({}) && InodeOk(i) && 0 <= bn < MAXFILE
      modifies `bitmap, `inodes, `data, `logged, `marked, `own
      ensures Live({}) && InodeOk(i) && addr == Addr(St(), SlotOf(i, bn))
      ensures Extended(old(St()), St(), DataArea())
      ensures Journaled(old(St()), St(), i, old(logged), logged, bmapStart)
      ensures Logs(old(logged), Named(addr) + Named(Addr(St(), Ind(i))))
      ensures Addr(old(St()), Ind(i)) != 0 ==> Addr(St(), Ind(i)) == Addr(old(St()), Ind(i))
      ensures Addr(old(St()), SlotOf(i, bn)) != 0 ==> unchanged(this)
      ensures addr == 0 ==> AllMarked(marked, hi)
    {
      hide Extended, Own, Addr, Shows, Journaled, Within, Shape, AllMarked, Named;
      ghost var fs := St();
      if bn < NDIRECT {
        addr := BmapDirect(i, bn);
        WithinWider(logged, old(logged), Named(addr), Named(Addr(St(), Ind(i))), bmapStart, BBlock(hi - 1));
        return;
      }
      EntryNeedsInd(fs, i, bn - NDIRECT);
      var a := BmapInd(i);
      if a == 0 {
        EntryNeedsInd(St(), i, bn - NDIRECT);
        WithinWider(logged, old(logged), Named(0), Named(0), bmapStart, BBlock(hi - 1));
        return 0;
      }
      ghost var fs1, log1 := St(), logged;
      addr := BmapEntry(i, bn - NDIRECT);
      WithinChain(old(logged), log1, logged, Named(addr), Named(a), bmapStart, BBlock(hi - 1));
      ExtendedTwice(fs, fs1, St(), DataArea());
      JournaledTwice(fs, fs1, St(), i, old(logged), log1, logged, bmapStart);
    }

    /** One turn of writei()'s loop: as much of s as fits into the block at off.  Nothing is counted
        when the disk is full, or when the source cannot be read that far: then what could be read is
        in the block all the same, and not logged. */
    method WriteChunk(i: int, off: int, s: seq<Byte>, good: nat) returns (m: int, ghost a: int, ghost seen: int, ghost spoiled: set<int>)
      requires Live({}) && InodeOk(i) && s != [] && 0 <= off && off + |s| <= MAXBYTES
      modifies `bitmap, `inodes, `data, `logged, `marked, `own
      ensures Live({}) && InodeOk(i) && Resized(old(St()), St(), 0, 0, 0)
      ensures m == if a == 0 || good < Turn(off, |s|) then 0 else Turn(off, |s|)
      ensures seen == if a != 0 && good < Turn(off, |s|) then good else m
      ensures spoiled == if a != 0 && good < Turn(off, |s|) then {a} else {}
      ensures a == 0 ==> AllMarked(marked, hi)
      ensures Spliced(old(St()), St(), i, off, s[..seen])
      ensures Journaled(old(St()), St(), i, old(logged), logged + spoiled, bmapStart)
      ensures Logs(old(logged), Named(a) + Named(Addr(St(), Ind(i))))
      ensures Addr(old(St()), Ind(i)) != 0 ==> Addr(St(), Ind(i)) == Addr(old(St()), Ind(i))
    {
      hide Own, Addr, Shows, Journaled, AllMarked, CellAt, Patched;
      ghost var fs := St();
      var addr := Bmap(i, off / BSIZE);
      a, spoiled := addr, {};
      ghost var fs1 := St();
      if addr == 0 {
        ExtendedKeeps(fs, fs1, DataArea(), i, off);
        assert logged + {} == logged;
        return 0, 0, 0, {};
      }
      m := if |s| < BSIZE - off % BSIZE then |s| else BSIZE - off % BSIZE;
      var n := if good < m then good else m;
      ChunkSplices(fs, fs1, DataArea(), i, off, s[..n]);
      SameInd(fs1, addr, Patched(fs1.data[addr], off % BSIZE, s[..n]), i);
      JournaledPatch(fs, fs1, addr, Patched(fs1.data[addr], off % BSIZE, s[..n]), i, old(logged), logged, bmapStart);
      data := data[addr := Patched(data[addr], off % BSIZE, s[..n])];
      seen := n;
      if good < m {
        spoiled := {addr};
        return 0, a, seen, spoiled;
      }
      logged := logged + {addr};
      assert logged + {} == logged;
    }

    /** The loop of writei(): all of src, or less only when the disk is full or the source cannot be
        read. */
    method WriteLoop(i: int, off0: int, src: seq<Byte>, good: nat)
      returns (tot: int, ghost touched: set<int>, ghost seen: int, ghost spoiled: set<int>)
      requires Live({}) && InodeOk(i) && 0 <= off0 && off0 + |src| <= MAXBYTES
      modifies `bitmap, `inodes, `data, `logged, `marked, `own
      ensures Live({}) && InodeOk(i) && Resized(old(St()), St(), 0, 0, 0)
      ensures 0 <= tot <= |src| && Stopped(tot, |src|, good, seen, spoiled, AllMarked(marked, hi)) && seen <= |src|
      ensures Spliced(old(St()), St(), i, off0, src[..seen])
      ensures Journaled(old(St()), St(), i, old(logged), logged + spoiled, bmapStart)
      ensures Logs(old(logged), touched + Named(Addr(St(), Ind(i)))) && |touched| <= Spanned(off0, |src|)
    {
      hide Own, Shows, Spanned, AllMarked, Shape, Laid, Turn, Stopped, Addr, Spliced, Within, Resized, Journaled, Named, Aligned;
      ghost var fs := St();
      LaidNone(fs, i, off0, src, logged, bmapStart, BBlock(hi - 1));
      AlignedStart(off0, |src|);
      touched, tot, seen, spoiled := {}, 0, 0, {};
      var off := off0;
      while tot < |src|
        invariant Live({}) && InodeOk(i) && 0 <= tot <= |src| && off == off0 + tot && tot <= good && seen == tot && spoiled == {}
        invariant Laid(fs, St(), i, off0, src, tot, old(logged), logged, {}, touched, bmapStart, BBlock(hi - 1))
        invariant |touched| <= Spanned(off0, tot) && Aligned(off0, tot, |src|)
      {
        ghost var fs1, log1 := St(), logged;
        var m, a, got, sp := WriteChunk(i, off, src[tot..], good - tot);
        NextTurn(off0, tot, |src|);
        LaidNext(fs, fs1, St(), i, off0, src, tot, got, old(logged), log1, logged, sp, touched, a, bmapStart, BBlock(hi - 1));
        TouchedStep(touched, a);
        touched := touched + Named(a);
        if m == 0 {
          seen, spoiled := tot + got, sp;
          StoppedShort(tot, |src|, good, off, a, got, sp, AllMarked(marked, hi));
          break;
        }
        tot, off, seen := tot + m, off + m, tot + m;
      }
      SpannedGrows(off0, tot, |src|);
      StoppedDone(tot, |src|, good, seen, spoiled, AllMarked(marked, hi));
      LaidFacts(fs, St(), i, off0, src, seen, old(logged), logged, spoiled, touched, bmapStart, BBlock(hi - 1));
    }

    ghost predicate Valid()
      reads this
    {
      Live({}) && Sizes(St())
    }

    /** writei() with a source of which the first `good` bytes can be read: -1 for a bad range, else
        the number of bytes counted.  A source that fails part-way leaves what could be read in the
        file, as far as the file reaches, and that block is not logged. */
    method Writei(i: int, off0: int, src: seq<Byte>, good: nat) returns (tot: int, ghost seen: int, ghost spoiled: set<int>)
      requires Valid() && InodeOk(i) && 0 <= off0 < UINT && |src| < UINT
      modifies `bitmap, `inodes, `data, `logged, `marked, `own
      ensures Valid() && InodeOk(i) && |inodes| == |old(inodes)|
      ensures tot == -1 <==> off0 > old(inodes[i].size) || off0 + |src| > MAXBYTES
      ensures tot == -1 ==> unchanged(this)
      ensures tot != -1 ==> 0 <= tot <= |src| && Stopped(tot, |src|, good, seen, spoiled, AllMarked(marked, hi))
      ensures tot != -1 ==> Contents(St(), i) == Written(old(Contents(St(), i)), off0, src[..seen], tot)
      ensures SparesOthers(old(St()), St(), i)
      ensures tot != -1 ==> Journaled(old(St()), St(), i, old(logged), logged + spoiled, bmapStart) && IBlock(i) in logged
      ensures old(logged) == {} && hi <= BPB ==> |logged| <= Spanned(off0, |src|) + 3
    {
      hide Own, Shows, Spanned, AllMarked, Contents, Overlaid, SparesOthers, Journaled, Stopped, Written, SizeOk, Shape;
      SparesSelf(St(), i);
      SpannedGrows(off0, 0, |src|);
      seen, spoiled := 0, {};
      if off0 > inodes[i].size || Wrap32(off0 + |src|) < off0 { return -1, 0, {}; }
      if off0 + |src| > MAXFILE * BSIZE { return -1, 0, {}; }
      tot, seen, spoiled := WriteRange(i, off0, src, good);
    }

    /** writei() on a range it accepts. */
    method WriteRange(i: int, off0: int, src: seq<Byte>, good: nat) returns (tot: int, ghost seen: int, ghost spoiled: set<int>)
      requires Valid() && InodeOk(i) && 0 <= off0 <= inodes[i].size && off0 + |src| <= MAXBYTES
      modifies `bitmap, `inodes, `data, `logged, `marked, `own
      ensures Valid() && InodeOk(i) && |inodes| == |old(inodes)|
      ensures 0 <= tot <= |src| && Stopped(tot, |src|, good, seen, spoiled, AllMarked(marked, hi))
      ensures Contents(St(), i) == Written(old(Contents(St(), i)), off0, src[..seen], tot)
      ensures SparesOthers(old(St()), St(), i)
      ensures Journaled(old(St()), St(), i, old(logged), logged + spoiled, bmapStart)
      ensures IBlock(i) in logged
      ensures old(logged) == {} && hi <= BPB ==> |logged| <= Spanned(off0, |src|) + 3
    {
      ghost var fs := St();
      hide Own, Shows, Addr, Spliced, Within, Spanned, AllMarked, Shape, Resized, SizeOk, Contents, Overlaid;
      hide SparesOthers, Sizes, Journaled;
      ghost var touched;
      AreaOk(fs, DataArea());
      tot, touched, seen, spoiled := WriteLoop(i, off0, src, good);
      ghost var fs1 := St();
      ghost var end := off0 + tot;
      SizesFrom(fs, fs1, i, off0, src[..tot]);
      WriteDone(fs, fs1, DataArea(), i, off0, src[..seen], tot, if end > fs.inodes[i].size then end else fs.inodes[i].size);
      LogCount(logged, touched, Addr(fs1, Ind(i)), bmapStart, IBlock(i));
      inodes := inodes[i := inodes[i].(size := if off0 + tot > inodes[i].size then off0 + tot else inodes[i].size)];
      ghost var log1 := logged;
      logged := logged + {IBlock(i)};
      JournaledMore(fs, fs1, St(), i, old(logged), log1 + spoiled, logged + spoiled, bmapStart);
    }

    /** File i as a byte sequence. */
    ghost function File(i: int): (s: seq<Byte>)
      requires Valid() && InodeOk(i)
      reads this
      ensures |s| == inodes[i].size
    {
      Contents(St(), i)
    }

    /** One turn of readi()'s loop: what the block at off has of the n bytes wanted.  The block is
        always mapped, so the loop never stops early. */
    method ReadChunk(i: int, off: int, n: int) returns (s: seq<Byte>)
      requires Valid() && InodeOk(i) && 0 <= off && 0 < n && off + n <= inodes[i].size
      modifies `bitmap, `inodes, `data, `logged, `marked, `own
      ensures unchanged(this) && 0 < |s| <= n && s == File(i)[off..off + |s|]
    {
      hide Own, Shows, Addr, Sizes, SizeOk, Contents, Shape, Extended, Within, Logs, AllMarked, HasData, Journaled;
      ghost var fs := St();
      var m := if n < BSIZE - off % BSIZE then n else BSIZE - off % BSIZE;
      SizeAt(fs, i);
      BlockIsSlice(fs, DataArea(), i, off, m);
      var addr := Bmap(i, off / BSIZE);
      assert St() == fs;
      DataAt(fs, addr);
      s := data[addr][off % BSIZE..off % BSIZE + m];
    }

    /** The loop of readi(), into a destination of which the first `good` bytes can be written;
        `out` is what has been written there. */
    method ReadLoop(i: int, off0: int, n: int, good: nat) returns (tot: int, out: seq<Byte>)
      requires Valid() && InodeOk(i) && 0 <= off0 && 0 <= n && off0 + n <= inodes[i].size
      modifies `bitmap, `inodes, `data, `logged, `marked, `own
      ensures unchanged(this) && tot == if good < n then -1 else n
      ensures out == File(i)[off0..off0 + if good < n then good else n]
    {
      hide Valid, File;
      ghost var all := File(i);
      out, tot := [], 0;
      var off := off0;
      while tot < n
        invariant unchanged(this) && 0 <= tot <= n && tot <= good && off == off0 + tot && out == all[off0..off]
      {
        var s := ReadChunk(i, off, n - tot);
        if tot + |s| > good {
          SliceStart(all, off, off + |s|, good - tot);
          SliceJoin(all, off0, off, off0 + good);
          return -1, out + s[..good - tot];
        }
        SliceJoin(all, off0, off, off + |s|);
        out := out + s;
        tot, off := tot + |s|, off + |s|;
      }
    }

    /** readi(): the slice of the file cut at its size, without changing anything; -1 exactly when the
        destination cannot take it all, and then it has received what it can take. */
    method Readi(i: int, off0: int, n0: int, good: nat) returns (r: int, out: seq<Byte>)
      requires Valid() && InodeOk(i) && 0 <= off0 < UINT && 0 <= n0 < UINT
      modifies `bitmap, `inodes, `data, `logged, `marked, `own
      ensures unchanged(this)
      ensures r == if Readable(inodes[i].size, off0, n0) > good then -1 else Readable(inodes[i].size, off0, n0)
      ensures off0 <= inodes[i].size ==>
        out == File(i)[off0..off0 + if r == -1 then good else r]
      ensures off0 > inodes[i].size ==> out == []
    {
      out := [];
      if off0 > inodes[i].size || Wrap32(off0 + n0) < off0 { return 0, out; }
      var n := if off0 + n0 > inodes[i].size then inodes[i].size - off0 else n0;
      hide Valid, File;
      r, out := ReadLoop(i, off0, n, good);
    }

    method FreeDirect(i: int, k: int) returns (ok: bool)
      requires Live({}) && InodeOk(i) && 0 <= k < NDIRECT && inodes[i].addrs[k] != 0
      modifies `bitmap, `inodes, `logged, `marked, `own
      ensures ok && Live({}) && Pruned(old(St()), St(), i) && St().inodes == SetAddr(old(St()), i, k, 0).inodes
      ensures Journaled(old(St()), St(), i, old(logged), logged, bmapStart)
    {
      ghost var fs := St();
      hide Own, Shows, Pruned, Journaled;
      DropDirect(fs, DataArea(), i, k);
      JournaledFree(fs, inodes[i].addrs[k], i, logged, bmapStart);
      ok := Bfree(inodes[i].addrs[k]);
      ghost var fs1 := St();
      own := own - {inodes[i].addrs[k]};
      inodes := inodes[i := inodes[i].(addrs := inodes[i].addrs[k := 0])];
      assert St() == DirectDropped(fs, i, k);
      JournaledMore(fs, fs1, St(), i, old(logged), logged, logged, bmapStart);
    }

    method FreeDirects(i: int) returns (ok: bool)
      requires Live({}) && InodeOk(i)
      modifies `bitmap, `inodes, `logged, `marked, `own
      ensures ok && Live({}) && InodeOk(i) && Pruned(old(St()), St(), i)
      ensures forall k :: 0 <= k < NDIRECT ==> inodes[i].addrs[k] == 0
      ensures Journaled(old(St()), St(), i, old(logged), logged, bmapStart)
    {
      hide Own, Shows, Pruned, Journaled;
      ghost var fs := St();
      JournaledSelf(fs, i, logged, bmapStart);
      PrunedSelf(fs, i);
      ok := true;
      var k := 0;
      while k < NDIRECT
        invariant ok && Live({}) && InodeOk(i) && Pruned(fs, St(), i) && 0 <= k <= NDIRECT
        invariant forall j :: 0 <= j < k ==> inodes[i].addrs[j] == 0
        invariant Journaled(fs, St(), i, old(logged), logged, bmapStart)
      {
        if inodes[i].addrs[k] != 0 {
          ghost var fs1, log1 := St(), logged;
          var freed := FreeDirect(i, k);
          ok := ok && freed;
          PrunedTwice(fs, fs1, St(), i);
          JournaledTwice(fs, fs1, St(), i, old(logged), log1, logged, bmapStart);
        }
        k := k + 1;
      }
    }

    /** The indirect block of file i counts as dropped; `extra` are its blocks still marked. */
    ghost predicate InTransit(i: int, extra: set<int>)
      reads this
    {
      Shows(bitmap, hi, marked) && 0 <= i < |inodes| && |inodes[i].addrs| == NDIRECT + 1
      && Own(SetAddr(St(), i, NDIRECT, 0), DataArea(), extra)
    }

    method FreeInTransit(i: int, extra: set<int>, b: int) returns (ok: bool)
      requires InTransit(i, extra) && b in extra
      modifies `bitmap, `logged, `marked
      ensures ok && InTransit(i, extra - {b})
      ensures Journaled(old(St()), St(), i, old(logged), logged, bmapStart)
    {
      ghost var fs := SetAddr(St(), i, NDIRECT, 0);
      hide Own, Shows, Journaled;
      JournaledFree(St(), b, i, logged, bmapStart);
      FreeKeeps(fs, DataArea(), extra, b);
      ExtraIsData(fs, DataArea(), extra, b);
      ok := Bfree(b);
      assert SetAddr(St(), i, NDIRECT, 0) == Freed(fs, b);
    }

    method FreeIndirect(i: int) returns (ok: bool)
      requires Live({}) && InodeOk(i) && inodes[i].addrs[NDIRECT] != 0
      modifies `bitmap, `inodes, `logged, `marked, `own
      ensures ok && Live({}) && Pruned(old(St()), St(), i) && St().inodes == SetAddr(old(St()), i, NDIRECT, 0).inodes
      ensures Journaled(old(St()), St(), i, old(logged), logged, bmapStart)
    {
      hide Own, Shows, Pruned, Entries, Journaled, Words;
      ghost var fs := St();
      var a := inodes[i].addrs[NDIRECT];
      var w := Words(data[a]);
      DropInd(fs, DataArea(), i);
      JournaledSelf(fs, i, logged, bmapStart);
      own := own - ({a} + Entries(w, 0));
      JournaledMore(fs, fs, St(), i, logged, logged, logged, bmapStart);
      ok := true;
      var j := 0;
      while j < NINDIRECT
        invariant 0 <= j <= NINDIRECT && ok && InTransit(i, {a} + Entries(w, j)) && a !in Entries(w, j)
        invariant inodes == old(inodes) && data == old(data) && own == IndDetached(fs, i).own
        invariant Journaled(fs, St(), i, old(logged), logged, bmapStart)
      {
        EntriesStep(w, j, a);
        if w[j] != 0 {
          ghost var fs1, log1 := St(), logged;
          var freed := FreeInTransit(i, {a} + Entries(w, j), w[j]);
          ok := ok && freed;
          JournaledTwice(fs, fs1, St(), i, old(logged), log1, logged, bmapStart);
        }
        EntriesShrink(w, j);
        j := j + 1;
      }
      EntriesEnd(w);
      assert {a} + {} - {a} == {};
      ghost var fs1, log1 := St(), logged;
      var freed := FreeInTransit(i, {a} + Entries(w, NINDIRECT), a);
      ok := ok && freed;
      JournaledTwice(fs, fs1, St(), i, old(logged), log1, logged, bmapStart);
      ghost var fs2 := St();
      inodes := inodes[i := inodes[i].(addrs := inodes[i].addrs[NDIRECT := 0])];
      JournaledMore(fs, fs2, St(), i, old(logged), logged, logged, bmapStart);
      SameButMarks(fs, IndDetached(fs, i), St(), i);
      OwnShape(St(), DataArea());
    }

    /** itrunc(): every block of the file, within its size or beyond, goes back to the bitmap, and
        "freeing free block" does not come up. */
    method Itrunc(i: int) returns (ok: bool)
      requires Valid() && InodeOk(i)
      modifies `bitmap, `inodes, `logged, `marked, `own
      ensures ok && Valid() && InodeOk(i) && Contents(St(), i) == [] && SparesOthers(old(St()), St(), i)
      ensures forall k :: 0 <= k <= NDIRECT ==> inodes[i].addrs[k] == 0
      ensures Journaled(old(St()), St(), i, old(logged), logged, bmapStart)
      ensures IBlock(i) in logged
      ensures forall b :: lo <= b < hi ==> (b in marked <==> b in old(marked) && b in old(own) && old(own)[b].i != i)
    {
      ghost var fs := St();
      hide Own, Shows, Pruned, Sizes, Contents, SparesOthers, Journaled;
      ok := FreeDirects(i);
      ghost var fs1, log1 := St(), logged;
      if inodes[i].addrs[NDIRECT] != 0 {
        var freed := FreeIndirect(i);
        ok := ok && freed;
        PrunedTwice(fs, fs1, St(), i);
        JournaledTwice(fs, fs1, St(), i, old(logged), log1, logged, bmapStart);
      }
      ghost var fs2, log2 := St(), logged;
      inodes := inodes[i := inodes[i].(size := 0)];
      logged := logged + {IBlock(i)};
      JournaledMore(fs, fs2, St(), i, old(logged), log2, logged, bmapStart);
      SizeKeepsOwn(fs2, DataArea(), i, 0);
      PrunedSize(fs, fs2, i);
      Truncated(fs, St(), DataArea(), i);
      forall b | lo <= b < hi ensures b in marked <==> b in old(marked) && b in old(own) && old(own)[b].i != i {
        NothingLeft(fs, St(), DataArea(), i, b);
      }
    }

    /** One begin_op()/end_op() turn of filewrite(); `logged` is what this operation logs. */
    method WriteOp(i: int, off: int, s: seq<Byte>, good: nat) returns (r: int, ghost seen: int, ghost spoiled: set<int>)
      requires Valid() && InodeOk(i) && 0 <= off < UINT && 0 < |s| <= MAXCHUNK
      modifies `bitmap, `inodes, `data, `logged, `marked, `own
      ensures -1 <= r <= |s| && (r >= 0 ==> Stopped(r, |s|, good, seen, spoiled, AllMarked(marked, hi)))
      ensures (r == -1 ==> seen == 0) && 0 <= seen <= |s|
      ensures Valid() && InodeOk(i) && Wrote(old(St()), St(), i, off, s[..seen], if r > 0 then r else 0)
      ensures r == -1 ==> off > inodes[i].size || off + |s| > MAXBYTES
      ensures r >= 0 ==> off + |s| <= MAXBYTES
      ensures hi <= BPB ==> |logged| <= 7
      ensures r >= 0 ==> Journaled(old(St()), St(), i, {}, logged + spoiled, bmapStart) && IBlock(i) in logged
    {
      ghost var c := Contents(St(), i);
      hide Own, Shows, AllMarked, SizeOk, Shape, Contents, Overlaid, SparesOthers, Spanned, Journaled, Written;
      logged := {};
      r, seen, spoiled := Writei(i, off, s, good);
      FewBlocks(off, |s|);
      if r == -1 { seen := 0; }
      WrittenNone(c, off, s);
    }

    /** The FD_INODE branch of filewrite(): `n` if all bytes were written, else -1. */
    method Filewrite(i: int, off0: int, n: int, src: seq<Byte>, good: nat)
      returns (ret: int, off: int, ghost seen: int, ghost peak: int)
      requires Valid() && InodeOk(i) && 0 <= off0 < UINT && |src| == if n < 0 then 0 else n
      modifies `bitmap, `inodes, `data, `logged, `marked, `own
      ensures Valid() && InodeOk(i) && 0 <= off - off0 <= seen <= |src|
      ensures Wrote(old(St()), St(), i, off0, src[..seen], off - off0)
      ensures seen == off - off0 || (seen == good && good < |src|)
      ensures ret == if off - off0 == n then n else -1
      ensures off - off0 < |src| ==>
        AllMarked(marked, hi) || good < |src| || off > inodes[i].size || off + Chunk(|src| - (off - off0)) > MAXBYTES
      ensures hi <= BPB ==> peak <= 7 < MAXOPBLOCKS
    {
      ghost var fs := St();
      hide Own, Shows, AllMarked, Sizes, Shape, Wrote, Journaled;
      WroteNothing(fs, i, off0, src);
      peak, off, seen := 0, off0, 0;
      var k := 0;
      while k < n
        invariant Valid() && InodeOk(i) && 0 <= k <= |src| && off == off0 + k && off < UINT && seen == k && k <= good
        invariant Wrote(fs, St(), i, off0, src[..k], k)
        invariant hi <= BPB ==> peak <= 7
      {
        ghost var fs1 := St();
        var n1 := if n - k > MAXCHUNK then MAXCHUNK else n - k;
        var r, got, sp := WriteOp(i, off, src[k..k + n1], good - k);
        WroteTwice(fs, fs1, St(), i, off0, src, k, n1, got, if r > 0 then r else 0);
        peak := if |logged| > peak then |logged| else peak;
        seen := k + got;
        if r > 0 { off := off + r; }
        if r != n1 { break; }
        k := k + r;
      }
      ret := if k == n then n else -1;
    }
  }

  /** How many of n bytes fit into the block at off. */
  function Turn(off: int, n: int): int { if n < BSIZE - off % BSIZE then n else BSIZE - off % BSIZE }

  /** Why writei() stopped after tot of n bytes: it was through, or the disk was full, or the source
      could be read no further than `good`, within the next block; in that case, and only then, bytes
      were seen that are not counted, and a block was changed that is not logged. */
  ghost predicate Stopped(tot: int, n: int, good: nat, seen: int, spoiled: set<int>, full: bool) {
    && tot <= good && (tot == n ==> seen == tot && spoiled == {})
    && (tot != n ==>
      if spoiled == {} then full && seen == tot
      else |spoiled| == 1 && tot <= seen == good < n && good < tot + BSIZE)
  }

  lemma StoppedDone(tot: int, n: int, good: nat, seen: int, spoiled: set<int>, full: bool)
    requires tot == n ==> tot <= good && seen == tot && spoiled == {}
    requires tot != n ==> Stopped(tot, n, good, seen, spoiled, full)
    ensures Stopped(tot, n, good, seen, spoiled, full)
  {
  }

  lemma StoppedShort(tot: int, n: int, good: nat, off: int, a: int, got: int, spoiled: set<int>, full: bool)
    requires 0 <= tot < n && tot <= good && (a == 0 ==> full)
    requires a == 0 || good - tot < Turn(off, n - tot)
    requires got == if a != 0 && good - tot < Turn(off, n - tot) then good - tot else 0
    requires spoiled == if a != 0 && good - tot < Turn(off, n - tot) then {a} else {}
    ensures Stopped(tot, n, good, tot + got, spoiled, full)
  {
  }

  /** Between two turns of the loop a block boundary is reached. */
  predicate Aligned(off: int, tot: int, n: int) { tot == 0 || tot == n || (off + tot) % BSIZE == 0 }

  lemma AlignedStart(off: int, n: int)
    ensures Aligned(off, 0, n)
  {
  }

  lemma NextTurn(off: int, tot: int, n: int)
    requires 0 <= off && 0 <= tot < n && Aligned(off, tot, n)
    ensures var m := Turn(off + tot, n - tot);
      && 0 < m <= n - tot && Aligned(off, tot + m, n)
      && Spanned(off, tot + m) == Spanned(off, tot) + 1 <= Spanned(off, n)
  {
    var m := Turn(off + tot, n - tot);
    SpannedStep(off, tot, m);
    SpannedGrows(off, tot + m, n);
  }

  /** How far writei()'s loop has come: `seen` bytes of src are in file i, and all that changed is
      logged, or in `spoiled`; what is logged are the blocks in `touched`, the indirect block and
      bitmap blocks. */
  ghost predicate Laid(fs: Fs, fs': Fs, i: int, off: int, src: seq<Byte>, seen: int, log0: set<int>, log: set<int>,
                       spoiled: set<int>, touched: set<int>, first: int, last: int) {
    && 0 <= seen <= |src| && Resized(fs, fs', 0, 0, 0) && Spliced(fs, fs', i, off, src[..seen]) && 0 <= i < |fs.inodes|
    && Journaled(fs, fs', i, log0, log + spoiled, first)
    && Within(log, log0, touched + Named(Addr(fs', Ind(i))), first, last)
  }

  lemma LaidNone(fs: Fs, i: int, off: int, src: seq<Byte>, log: set<int>, first: int, last: int)
    requires Shape(fs) && 0 <= i < |fs.inodes| && 0 <= off <= MAXBYTES
    ensures Laid(fs, fs, i, off, src, 0, log, log, {}, {}, first, last) && Spanned(off, 0) == 0
  {
    hide Spliced, Resized, Addr;
    SplicedSelf(fs, i, off);
    JournaledSelf(fs, i, log, first);
    WithinSelf(log, {} + Named(Addr(fs, Ind(i))), first, last);
    assert log + {} == log;
  }

  lemma LaidNext(fs: Fs, fs1: Fs, fs2: Fs, i: int, off: int, src: seq<Byte>, tot: int, got: int, log0: set<int>,
                 log1: set<int>, log2: set<int>, spoiled: set<int>, touched: set<int>, a: int, first: int, last: int)
    requires Laid(fs, fs1, i, off, src, tot, log0, log1, {}, touched, first, last) && 0 <= got && tot + got <= |src|
    requires Resized(fs1, fs2, 0, 0, 0) && Spliced(fs1, fs2, i, off + tot, src[tot..][..got])
    requires Journaled(fs1, fs2, i, log1, log2 + spoiled, first)
    requires Within(log2, log1, Named(a) + Named(Addr(fs2, Ind(i))), first, last)
    requires Addr(fs1, Ind(i)) != 0 ==> Addr(fs2, Ind(i)) == Addr(fs1, Ind(i))
    ensures Laid(fs, fs2, i, off, src, tot + got, log0, log2, spoiled, touched + Named(a), first, last)
  {
    hide Addr, Spliced, Resized, Journaled, Within, Named;
    assert log1 + {} == log1;
    InodeCount(fs, fs1, i, off, src[..tot]);
    InodeCount(fs1, fs2, i, off + tot, src[tot..][..got]);
    WithinTwice(log0, log1, log2, touched, Addr(fs1, Ind(i)), a, Addr(fs2, Ind(i)), first, last);
    ResizedTwice(fs, fs1, fs2);
    JournaledTwice(fs, fs1, fs2, i, log0, log1, log2 + spoiled, first);
    SpliceNext(fs, fs1, fs2, i, off, src, tot, got);
  }

  lemma LaidFacts(fs: Fs, fs': Fs, i: int, off: int, src: seq<Byte>, seen: int, log0: set<int>, log: set<int>,
                  spoiled: set<int>, touched: set<int>, first: int, last: int)
    requires Laid(fs, fs', i, off, src, seen, log0, log, spoiled, touched, first, last)
    ensures 0 <= seen <= |src| && Resized(fs, fs', 0, 0, 0) && Spliced(fs, fs', i, off, src[..seen]) && 0 <= i < |fs'.inodes|
    ensures Shape(fs') && Journaled(fs, fs', i, log0, log + spoiled, first)
    ensures Within(log, log0, touched + Named(Addr(fs', Ind(i))), first, last)
  {
  }

  /** How many bytes readi() would read. */
  function Readable(size: int, off: int, n: int): int {
    if off > size || off + n >= UINT then 0 else if off + n > size then size - off else n
  }

  /** s is in file i at off, n of its bytes counted (behind the end nothing is written), and no other
      file has changed. */
  ghost predicate Wrote(fs: Fs, fs': Fs, i: int, off: int, s: seq<Byte>, n: int) {
    && Shape(fs) && Shape(fs') && Sizes(fs) && Sizes(fs') && 0 <= i < |fs.inodes| && 0 <= off
    && SparesOthers(fs, fs', i)
    && 0 <= n <= |s| && Contents(fs', i) == After(Contents(fs, i), off, s, n)
    && (s != [] ==> off <= |Contents(fs, i)|)
  }

  lemma WroteNothing(fs: Fs, i: int, off: int, src: seq<Byte>)
    requires Shape(fs) && Sizes(fs) && 0 <= i < |fs.inodes| && 0 <= off
    ensures Wrote(fs, fs, i, off, src[..0], 0)
  {
    WrittenNone(Contents(fs, i), off, src);
  }

  lemma WroteTwice(fs: Fs, fs1: Fs, fs2: Fs, i: int, off: int, src: seq<Byte>, k: int, n: int, m: int, r: int)
    requires 0 <= k && 0 <= r <= m <= n && k + n <= |src|
    requires Wrote(fs, fs1, i, off, src[..k], k) && Wrote(fs1, fs2, i, off + k, src[k..k + n][..m], r)
    ensures Wrote(fs, fs2, i, off, src[..k + m], k + r)
  {
    hide Shape, SizeOk, Contents, After;
    var s, t := src[..k], src[k..k + n][..m];
    assert s + t == src[..k + m];
    AfterTwice(Contents(fs, i), off, s, t, r);
    if s == [] { WrittenNone(Contents(fs, i), off, src); }
  }

  function Chunk(n: int): int { if n > MAXCHUNK then MAXCHUNK else n }

  const MAXCHUNK: nat := (MAXOPBLOCKS - 1 - 1 - 2) / 2 * BSIZE

  /** s written at off with n bytes counted, which has no effect behind the end. */
  function After(c: seq<Byte>, off: int, s: seq<Byte>, n: int): seq<Byte>
    requires 0 <= off && 0 <= n <= |s|
  {
    if off <= |c| then Written(c, off, s, n) else c
  }

  lemma WrittenNone(c: seq<Byte>, off: int, s: seq<Byte>)
    requires 0 <= off
    ensures After(c, off, s[..0], 0) == c
  {
  }

  lemma AfterTwice(c: seq<Byte>, off: int, s: seq<Byte>, t: seq<Byte>, r: int)
    requires 0 <= off && (s != [] ==> off <= |c|) && 0 <= r <= |t|
    ensures After(After(c, off, s, |s|), off + |s|, t, r) == After(c, off, s + t, |s| + r)
  {
    if off <= |c| {
      WrittenWhole(c, off, s);
      var d := Overlaid(c, off, s);
      assert |d| == Max(|c|, off + |s|);
      var x, y := Overlaid(d, off + |s|, t), Overlaid(c, off, s + t);
      assert |x| == |y| && forall p :: 0 <= p < |x| ==> x[p] == y[p];
    }
  }

  lemma FewBlocks(off: int, n: int)
    requires 0 <= off && 0 <= n <= MAXCHUNK
    ensures Spanned(off, n) <= 4
  {
  }

  lemma PrunedSize(fs: Fs, fs': Fs, i: int)
    requires Pruned(fs, fs', i) && 0 <= i < |fs'.inodes|
    ensures Pruned(fs, SetSize(fs', i, 0), i) && |fs.inodes| == |fs'.inodes|
  {
  }

  lemma SameButMarks(fs: Fs, fs1: Fs, fs2: Fs, i: int)
    requires Pruned(fs, fs1, i) && fs2.(marked := fs1.marked) == fs1
    ensures Pruned(fs, fs2, i)
  {
  }

  lemma ExtraIsData(fs: Fs, area: Area, extra: set<int>, b: int)
    requires Own(fs, area, extra) && b in extra
    ensures 0 <= b < area.hi
  {
  }

  lemma EntriesShrink(w: seq<int>, j: int)
    requires 0 <= j < |w|
    ensures Entries(w, j + 1) <= Entries(w, j)
  {
    assert w[j..] == [w[j]] + w[j + 1..];
  }

  lemma EntriesEnd(w: seq<int>)
    ensures Entries(w, |w|) == {}
  {
  }

  lemma PrunedSelf(fs: Fs, i: int)
    ensures Pruned(fs, fs, i)
  {
  }

  function Wrap32(x: int): int { x % UINT }

  lemma AreaOk(fs: Fs, area: Area)
    requires Own(fs, area, {})
    ensures 0 < area.lo <= area.hi
  {
  }

  lemma SliceJoin(s: seq<Byte>, a: int, b: int, c: int)
    requires 0 <= a <= b <= c <= |s|
    ensures s[a..b] + s[b..c] == s[a..c]
  {
  }

  lemma SliceStart(s: seq<Byte>, a: int, b: int, n: int)
    requires 0 <= a <= b <= |s| && 0 <= n <= b - a
    ensures s[a..b][..n] == s[a..a + n]
  {
  }

  lemma SizeAt(fs: Fs, i: int)
    requires Shape(fs) && Sizes(fs) && 0 <= i < |fs.inodes|
    ensures SizeOk(fs, i)
  {
  }

  lemma DataAt(fs: Fs, a: int)
    requires HasData(fs.data, a)
    ensures a in fs.data && |fs.data[a]| == BSIZE
  {
  }

  lemma SparesSelf(fs: Fs, i: int)
    requires Shape(fs) && Sizes(fs)
    ensures SparesOthers(fs, fs, i)
  {
  }

  lemma SpannedGrows(off: int, n: int, m: int)
    requires 0 <= off && 0 <= n <= m
    ensures 0 <= Spanned(off, n) <= Spanned(off, m)
  {
  }

  lemma SizesFrom(fs: Fs, fs1: Fs, i: int, lo: int, s: seq<Byte>)
    requires Resized(fs, fs1, 0, 0, 0) && 0 <= i < |fs.inodes|
    ensures |fs1.inodes| == |fs.inodes| && fs1.inodes[i].size == fs.inodes[i].size
  {
  }

  lemma LogCount(s: set<int>, t: set<int>, ind: int, bitmap: int, ino: int)
    ensures Within(s, {}, t + Named(ind), bitmap, bitmap) ==> |s + {ino}| <= |t| + 3
  {
    if Within(s, {}, t + Named(ind), bitmap, bitmap) {
      var all := t + {ind, bitmap, ino};
      forall x | x in s + {ino} ensures x in all { }
      SubsetSize(s + {ino}, all);
      SubsetSize({ind, bitmap, ino}, {ind, bitmap, ino});
    }
  }

  lemma SpliceNext(fs: Fs, fs1: Fs, fs2: Fs, i: int, lo: int, src: seq<Byte>, tot: int, m: int)
    requires 0 <= tot && 0 <= m && tot + m <= |src|
    requires Spliced(fs, fs1, i, lo, src[..tot]) && Spliced(fs1, fs2, i, lo + tot, src[tot..][..m])
    ensures Spliced(fs, fs2, i, lo, src[..tot + m])
  {
    SplicedTwice(fs, fs1, fs2, i, lo, src[..tot], src[tot..][..m]);
    assert src[..tot] + src[tot..][..m] == src[..tot + m];
  }

  ghost predicate NewlyMapped(fs: Fs, fs': Fs, area: Area, i: int, blocks: set<int>, log0: set<int>, log: set<int>, bmapStart: int) {
    && Shape(fs') && Own(fs', area, {}) && Extended(fs, fs', area) && Journaled(fs, fs', i, log0, log, bmapStart)
    && Within(log, log0, blocks, bmapStart, (area.hi - 1) / BPB + bmapStart)
  }

  lemma DirectMapped(fs: Fs, area: Area, b: int, i: int, k: int, log: set<int>, bmapStart: int)
    requires Own(fs, area, {}) && Shape(fs) && b !in fs.marked && 0 <= b < area.hi
    requires 0 <= i < |fs.inodes| && 0 <= k < NDIRECT && fs.inodes[i].addrs[k] == 0
    ensures var fs' := SetAddr(Alloc(fs, b), i, k, b).(own := fs.own[b := Direct(i, k)]);
      && NewlyMapped(fs, fs', area, i, Named(b), log, log + {b / BPB + bmapStart, b}, bmapStart)
      && Addr(fs', Direct(i, k)) == b && Addr(fs', Ind(i)) == Addr(fs, Ind(i))
  {
    MapDirect(fs, area, b, i, k);
    JournaledAlloc(fs, b, i, log, bmapStart);
    var fs1, fs' := Alloc(fs, b), SetAddr(Alloc(fs, b), i, k, b).(own := fs.own[b := Direct(i, k)]);
    hide Journaled;
    JournaledMore(fs, fs1, fs', i, log, log + {b / BPB + bmapStart, b}, log + {b / BPB + bmapStart, b}, bmapStart);
    assert RoleOk(fs, Direct(i, k)) && RoleOk(fs, Ind(i));
    hide Own, Spliced;
  }

  lemma IndMapped(fs: Fs, area: Area, b: int, i: int, log: set<int>, bmapStart: int)
    requires Own(fs, area, {}) && Shape(fs) && b !in fs.marked && 0 <= b < area.hi
    requires 0 <= i < |fs.inodes| && fs.inodes[i].addrs[NDIRECT] == 0
    ensures var fs' := SetAddr(Alloc(fs, b), i, NDIRECT, b).(own := fs.own[b := Ind(i)]);
      && NewlyMapped(fs, fs', area, i, Named(b), log, log + {b / BPB + bmapStart, b}, bmapStart)
      && Addr(fs', Ind(i)) == b && forall k :: 0 <= k < NINDIRECT ==> Addr(fs', Entry(i, k)) == Addr(fs, Entry(i, k))
  {
    MapInd(fs, area, b, i);
    JournaledAlloc(fs, b, i, log, bmapStart);
    var fs1, fs' := Alloc(fs, b), SetAddr(Alloc(fs, b), i, NDIRECT, b).(own := fs.own[b := Ind(i)]);
    hide Journaled;
    JournaledMore(fs, fs1, fs', i, log, log + {b / BPB + bmapStart, b}, log + {b / BPB + bmapStart, b}, bmapStart);
    assert RoleOk(fs, Ind(i)) && forall k :: 0 <= k < NINDIRECT ==> RoleOk(fs, Entry(i, k));
    hide Own, Spliced;
  }

  lemma EntryMapped(fs: Fs, area: Area, b: int, i: int, k: int, log: set<int>, bmapStart: int)
    requires Own(fs, area, {}) && Shape(fs) && b !in fs.marked && 0 <= b < area.hi
    requires 0 <= i < |fs.inodes| && fs.inodes[i].addrs[NDIRECT] != 0
    requires 0 <= k < NINDIRECT && Addr(fs, Entry(i, k)) == 0
    ensures var a := fs.inodes[i].addrs[NDIRECT];
      HasData(Alloc(fs, b).data, a) && b < UINT &&
      var fs' := SetEntry(Alloc(fs, b), a, k, b).(own := fs.own[b := Entry(i, k)]);
      && NewlyMapped(fs, fs', area, i, Named(b) + Named(a), log, log + {b / BPB + bmapStart, b} + {a}, bmapStart)
      && Addr(fs', Entry(i, k)) == b && Addr(fs', Ind(i)) == a
  {
    var a := fs.inodes[i].addrs[NDIRECT];
    MapEntry(fs, area, b, i, k);
    JournaledNewEntry(fs, b, a, k, i, log, bmapStart);
    var fs1 := SetEntry(Alloc(fs, b), a, k, b);
    var fs' := fs1.(own := fs.own[b := Entry(i, k)]);
    hide Journaled;
    JournaledMore(fs, fs1, fs', i, log, log + {b / BPB + bmapStart, b} + {a}, log + {b / BPB + bmapStart, b} + {a}, bmapStart);
    assert RoleOk(fs, Entry(i, k)) && RoleOk(fs, Ind(i));
    hide Own, Spliced;
  }

  lemma JournaledNewEntry(fs: Fs, b: int, a: int, k: int, i: int, log: set<int>, bmapStart: int)
    requires HasData(Alloc(fs, b).data, a) && 0 <= k < NINDIRECT && 0 <= b < UINT
    ensures Journaled(fs, SetEntry(Alloc(fs, b), a, k, b), i, log, log + {b / BPB + bmapStart, b} + {a}, bmapStart)
  {
    hide Journaled, Alloc, SetEntry;
    JournaledAlloc(fs, b, i, log, bmapStart);
    JournaledEntry(Alloc(fs, b), a, k, b, i, log + {b / BPB + bmapStart, b}, bmapStart);
    JournaledTwice(fs, Alloc(fs, b), SetEntry(Alloc(fs, b), a, k, b), i, log, log + {b / BPB + bmapStart, b},
                   log + {b / BPB + bmapStart, b} + {a}, bmapStart);
  }

  lemma JournaledPatch(fs: Fs, fs1: Fs, a: int, d: seq<Byte>, i: int, log0: set<int>, log1: set<int>, bmapStart: int)
    requires Journaled(fs, fs1, i, log0, log1, bmapStart)
    ensures Journaled(fs, SetData(fs1, a, d), i, log0, log1 + {a}, bmapStart)
  {
    hide Journaled, SetData;
    JournaledData(fs1, a, d, i, log1, bmapStart);
    JournaledTwice(fs, fs1, SetData(fs1, a, d), i, log0, log1, log1 + {a}, bmapStart);
  }

  lemma TouchedStep(t: set<int>, a: int)
    ensures |t + Named(a)| <= |t| + 1 && (a == 0 ==> t + Named(a) == t)
  {
    if a == 0 { assert t + Named(a) == t; } else if a in t { assert t + Named(a) == t; } else { assert t + Named(a) == t + {a}; }
  }

  lemma ResizedTwice(fs: Fs, fs1: Fs, fs2: Fs)
    requires Resized(fs, fs1, 0, 0, 0) && Resized(fs1, fs2, 0, 0, 0)
    ensures Resized(fs, fs2, 0, 0, 0)
  {
  }

  lemma SplicedSelf(fs: Fs, i: int, lo: int)
    requires Shape(fs) && 0 <= lo <= MAXBYTES
    ensures Spliced(fs, fs, i, lo, []) && Resized(fs, fs, 0, 0, 0) && Spanned(lo, 0) == 0
  {
  }

  /** How many blocks the positions off, ..., off + n - 1 lie in. */
  function Spanned(off: int, n: int): int { if n == 0 then 0 else (off + n - 1) / BSIZE - off / BSIZE + 1 }

  lemma SpannedStep(off: int, n: int, m: int)
    requires 0 <= off && 0 <= n && 0 < m && (n == 0 || (off + n) % BSIZE == 0) && (off + n) % BSIZE + m <= BSIZE
    ensures Spanned(off, n + m) == Spanned(off, n) + 1
  {
  }

  lemma SameInd(fs: Fs, a: int, d: seq<Byte>, i: int)
    requires Shape(fs) && 0 <= i < |fs.inodes| && |d| == BSIZE
    ensures Shape(SetData(fs, a, d)) && Addr(SetData(fs, a, d), Ind(i)) == Addr(fs, Ind(i))
  {
  }

  lemma EntryNeedsInd(fs: Fs, i: int, k: int)
    requires Shape(fs) && 0 <= i < |fs.inodes| && 0 <= k < NINDIRECT
    ensures Addr(fs, Entry(i, k)) != 0 ==> Addr(fs, Ind(i)) != 0
  {
  }

  lemma AddrOfInd(fs: Fs, i: int)
    requires Shape(fs) && 0 <= i < |fs.inodes|
    ensures Addr(fs, Ind(i)) == fs.inodes[i].addrs[NDIRECT] && |fs.inodes[i].addrs| == NDIRECT + 1
  {
  }

  lemma AddrOfEntry(fs: Fs, i: int, k: int)
    requires Shape(fs) && 0 <= i < |fs.inodes| && 0 <= k < NINDIRECT && Addr(fs, Ind(i)) != 0
    ensures HasData(fs.data, Addr(fs, Ind(i))) && Addr(fs, Entry(i, k)) == Words(fs.data[Addr(fs, Ind(i))])[k]
  {
  }

  lemma AddrOfDirect(fs: Fs, i: int, k: int)
    requires Shape(fs) && 0 <= i < |fs.inodes| && 0 <= k < NDIRECT
    ensures Addr(fs, Direct(i, k)) == fs.inodes[i].addrs[k] && |fs.inodes[i].addrs| == NDIRECT + 1
  {
  }

  lemma BitOf(bm: Bitmap, n: int, marked: set<int>, b: int)
    requires Shows(bm, n, marked) && 0 <= b < n
    ensures Fits(bm, n) && (BitAt(bm, n, b) <==> b in marked)
  {
    hide Mask;
    assert BitAt(bm, n, b) <==> b in marked;
  }

  lemma BitRead(bm: Bitmap, n: int, marked: set<int>, b: int, bi: int)
    requires Shows(bm, n, marked) && 0 <= b && b % BPB == 0 && 0 <= bi < BPB && b + bi < n
    ensures b / BPB < |bm| && bi / 8 < |bm[b / BPB]|
    ensures bm[b / BPB][bi / 8] & Mask(bi % 8) != 0 <==> b + bi in marked
  {
    hide Mask;
    assert BitAt(bm, n, b + bi) <==> b + bi in marked;
    assert (b + bi) / BPB == b / BPB && (b + bi) % BPB == bi;
  }
}
