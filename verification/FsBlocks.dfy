/** Who owns which disk block (kernel/fs.c): inodes with direct addresses and one indirect block. */
module FsBlocks {
  import opened Basics

  const BSIZE: nat := 1024
  const NDIRECT: nat := 12
  const NINDIRECT: nat := 256
  const MAXFILE: nat := 268

  type Byte = b: int | 0 <= b < 256
  datatype Inode = Inode(addrs: seq<int>, size: nat)

  /** The places an address can be stored. */
  datatype Role = Direct(i: int, k: int) | Ind(i: int) | Entry(i: int, k: int)

  /** `data` are the blocks, bytes whoever owns them; `marked` is what the bitmap says, `own` the
      place that holds each block's address. */
  datatype Fs = Fs(inodes: seq<Inode>, data: map<int, seq<Byte>>, marked: set<int>, own: map<int, Role>)

  /** Data blocks are lo <= b < hi; the blocks before hold the log, inodes and bitmap. */
  datatype Area = Area(lo: int, hi: int)

  // ----- a block read as addresses -------------------------------------------------------------------

  /** The 32-bit number at position k, lowest byte first. */
  function Word(d: seq<Byte>, k: int): int
    requires |d| == BSIZE && 0 <= k < NINDIRECT
  {
    d[4 * k] as int + 0x100 * d[4 * k + 1] as int + 0x1_0000 * d[4 * k + 2] as int + 0x100_0000 * d[4 * k + 3] as int
  }

  function SetWord(d: seq<Byte>, k: int, x: int): (r: seq<Byte>)
    requires |d| == BSIZE && 0 <= k < NINDIRECT && 0 <= x < UINT
    ensures |r| == BSIZE
  {
    d[4 * k := x % 256][4 * k + 1 := x / 256 % 256][4 * k + 2 := x / 256 / 256 % 256][4 * k + 3 := x / 256 / 256 / 256]
  }

  /** The whole block as the array of addresses that bmap() and itrunc() take it for. */
  function Words(d: seq<Byte>): (w: seq<int>)
    requires |d| == BSIZE
    ensures |w| == NINDIRECT
  {
    seq(NINDIRECT, k requires 0 <= k < NINDIRECT => Word(d, k))
  }

  lemma WordBytes(x: int)
    requires 0 <= x < UINT
    ensures x % 256 + 0x100 * (x / 256 % 256) + 0x1_0000 * (x / 256 / 256 % 256) + 0x100_0000 * (x / 256 / 256 / 256) == x
  {
    var y := x / 256;
    var z := y / 256;
    assert x == 256 * y + x % 256 && y == 256 * z + y % 256 && z == 256 * (z / 256) + z % 256;
  }

  lemma WordSet(d: seq<Byte>, k: int, x: int, j: int)
    requires |d| == BSIZE && 0 <= k < NINDIRECT && 0 <= x < UINT && 0 <= j < NINDIRECT
    ensures Word(SetWord(d, k, x), j) == if j == k then x else Word(d, j)
  {
    WordBytes(x);
  }

  /** Storing an address changes that entry and no other. */
  lemma WordsSet(d: seq<Byte>, k: int, x: int)
    requires |d| == BSIZE && 0 <= k < NINDIRECT && 0 <= x < UINT
    ensures Words(SetWord(d, k, x)) == Words(d)[k := x]
  {
    hide Word, SetWord;
    forall j | 0 <= j < NINDIRECT ensures Words(SetWord(d, k, x))[j] == Words(d)[k := x][j] {
      WordSet(d, k, x, j);
    }
  }

  lemma WordsZero(k: int)
    requires 0 <= k < NINDIRECT
    ensures Words(ZeroBytes())[k] == 0
  {
  }

  predicate RoleOk(fs: Fs, r: Role) {
    0 <= r.i < |fs.inodes| && (r.Direct? ==> 0 <= r.k < NDIRECT) && (r.Entry? ==> 0 <= r.k < NINDIRECT)
  }

  /** Every inode has its 13 addresses, and its indirect block is there. */
  predicate Shape(fs: Fs) {
    forall i :: 0 <= i < |fs.inodes| ==>
      && |fs.inodes[i].addrs| == NDIRECT + 1
      && (fs.inodes[i].addrs[NDIRECT] != 0 ==> HasData(fs.data, fs.inodes[i].addrs[NDIRECT]))
  }

  predicate HasData(data: map<int, seq<Byte>>, b: int) { b in data && |data[b]| == BSIZE }

  function Addr(fs: Fs, r: Role): int
    requires Shape(fs) && RoleOk(fs, r)
  {
    var a := fs.inodes[r.i].addrs;
    match r
    case Direct(_, k) => a[k]
    case Ind(_) => a[NDIRECT]
    case Entry(_, k) => if a[NDIRECT] == 0 then 0 else Words(fs.data[a[NDIRECT]])[k]
  }

  /** Every stored address belongs to the place that stores it. */
  ghost predicate Held(fs: Fs)
    requires Shape(fs)
  {
    forall r :: RoleOk(fs, r) && Addr(fs, r) != 0 ==> Addr(fs, r) in fs.own && fs.own[Addr(fs, r)] == r
  }

  /** Every owned block is a data block, and its owner stores its address. */
  ghost predicate Owned(fs: Fs, area: Area)
    requires Shape(fs)
  {
    forall b :: b in fs.own ==> area.lo <= b < area.hi && RoleOk(fs, fs.own[b]) && Addr(fs, fs.own[b]) == b
  }

  /** The bitmap marks the owned data blocks, those in `extra`, and everything before the data area. */
  ghost predicate Marks(fs: Fs, area: Area, extra: set<int>) {
    && (forall b :: area.lo <= b < area.hi ==> (b in fs.marked <==> b in fs.own || b in extra))
    && (forall b :: 0 <= b < area.lo ==> b in fs.marked)
    && (forall b :: b in extra ==> area.lo <= b < area.hi && b !in fs.own)
  }

  ghost predicate Stored(fs: Fs, area: Area) {
    forall b :: area.lo <= b < area.hi ==> HasData(fs.data, b)
  }

  ghost predicate Own(fs: Fs, area: Area, extra: set<int>) {
    0 < area.lo <= area.hi <= UINT && Shape(fs) && Held(fs) && Owned(fs, area) && Marks(fs, area, extra) && Stored(fs, area)
  }

  /** No two places hold the same block: what `own` is for. */
  lemma AddressesDistinct(fs: Fs, area: Area, extra: set<int>, r: Role, s: Role)
    requires Own(fs, area, extra) && RoleOk(fs, r) && RoleOk(fs, s) && Addr(fs, r) != 0 && r != s
    ensures Addr(fs, r) != Addr(fs, s) && Addr(fs, r) in fs.marked
  {
  }

  /** Without blocks in transit, the marked data blocks are exactly the stored addresses. */
  lemma MarkedExactly(fs: Fs, area: Area, b: int)
    requires Own(fs, area, {}) && area.lo <= b < area.hi
    ensures b in fs.marked <==> exists r :: RoleOk(fs, r) && Addr(fs, r) == b
  {
    if b in fs.marked { assert RoleOk(fs, fs.own[b]) && Addr(fs, fs.own[b]) == b; }
  }

  // ----- allocation and freeing ---------------------------------------------------------------------

  function ZeroBytes(): (z: seq<Byte>)
    ensures |z| == BSIZE
  {
    seq(BSIZE, _ => 0)
  }

  lemma SameAddresses(fs: Fs, fs': Fs, area: Area)
    requires Shape(fs) && Shape(fs') && Held(fs) && Owned(fs, area) && fs'.own == fs.own && fs'.inodes == fs.inodes
    requires forall i :: 0 <= i < |fs.inodes| && fs.inodes[i].addrs[NDIRECT] != 0 ==>
      fs'.data[fs.inodes[i].addrs[NDIRECT]] == fs.data[fs.inodes[i].addrs[NDIRECT]]
    ensures Held(fs') && Owned(fs', area) && forall r :: RoleOk(fs, r) ==> Addr(fs', r) == Addr(fs, r)
  {
    forall r ensures RoleOk(fs', r) == RoleOk(fs, r) && (RoleOk(fs, r) ==> Addr(fs', r) == Addr(fs, r)) { }
  }

  ghost function Alloc(fs: Fs, b: int): Fs {
    fs.(marked := fs.marked + {b}, data := fs.data[b := ZeroBytes()])
  }

  lemma AllocKeeps(fs: Fs, area: Area, extra: set<int>, b: int)
    requires Own(fs, area, extra) && b !in fs.marked && 0 <= b < area.hi
    ensures Own(Alloc(fs, b), area, extra + {b})
    ensures forall r :: RoleOk(fs, r) ==> Addr(Alloc(fs, b), r) == Addr(fs, r)
  {
    var fs' := Alloc(fs, b);
    forall i | 0 <= i < |fs.inodes| ensures fs.inodes[i].addrs[NDIRECT] != b {
      assert Addr(fs, Ind(i)) == fs.inodes[i].addrs[NDIRECT];
    }
    assert Shape(fs');
    SameAddresses(fs, fs', area);
    assert Marks(fs', area, extra + {b});
    forall c | area.lo <= c < area.hi ensures HasData(fs'.data, c) { assert HasData(fs.data, c); }
  }

  ghost function Freed(fs: Fs, b: int): Fs { fs.(marked := fs.marked - {b}) }

  lemma FreeKeeps(fs: Fs, area: Area, extra: set<int>, b: int)
    requires Own(fs, area, extra) && b in extra
    ensures Own(Freed(fs, b), area, extra - {b}) && b in fs.marked
  {
    assert forall r :: RoleOk(fs, r) ==> Addr(Freed(fs, b), r) == Addr(fs, r);
  }

  // ----- storing and dropping an address ------------------------------------------------------------

  ghost function SetAddr(fs: Fs, i: int, k: int, b: int): Fs
    requires 0 <= i < |fs.inodes| && 0 <= k < |fs.inodes[i].addrs|
  {
    var ip := fs.inodes[i];
    fs.(inodes := fs.inodes[i := ip.(addrs := ip.addrs[k := b])])
  }

  /** A fresh block as direct block k. */
  lemma AttachDirect(fs: Fs, area: Area, b: int, i: int, k: int)
    requires Own(fs, area, {b}) && 0 <= i < |fs.inodes| && 0 <= k < NDIRECT && fs.inodes[i].addrs[k] == 0
    ensures Own(SetAddr(fs, i, k, b).(own := fs.own[b := Direct(i, k)]), area, {})
    ensures forall r :: RoleOk(fs, r) ==>
      Addr(SetAddr(fs, i, k, b).(own := fs.own[b := Direct(i, k)]), r) == if r == Direct(i, k) then b else Addr(fs, r)
  {
    var fs' := SetAddr(fs, i, k, b).(own := fs.own[b := Direct(i, k)]);
    assert Shape(fs');
    forall r ensures RoleOk(fs', r) == RoleOk(fs, r)
             && (RoleOk(fs, r) ==> Addr(fs', r) == if r == Direct(i, k) then b else Addr(fs, r)) { }
  }

  /** A fresh, zeroed block as indirect block. */
  lemma AttachInd(fs: Fs, area: Area, b: int, i: int)
    requires Own(fs, area, {b}) && 0 <= i < |fs.inodes| && fs.inodes[i].addrs[NDIRECT] == 0
    requires b in fs.data && fs.data[b] == ZeroBytes()
    ensures Own(SetAddr(fs, i, NDIRECT, b).(own := fs.own[b := Ind(i)]), area, {})
    ensures forall r :: RoleOk(fs, r) ==>
      Addr(SetAddr(fs, i, NDIRECT, b).(own := fs.own[b := Ind(i)]), r) == if r == Ind(i) then b else Addr(fs, r)
  {
    hide Words, ZeroBytes;
    var fs' := SetAddr(fs, i, NDIRECT, b).(own := fs.own[b := Ind(i)]);
    assert Shape(fs');
    forall k | 0 <= k < NINDIRECT ensures Words(ZeroBytes())[k] == 0 { WordsZero(k); }
    forall r ensures RoleOk(fs', r) == RoleOk(fs, r)
             && (RoleOk(fs, r) ==> Addr(fs', r) == if r == Ind(i) then b else Addr(fs, r)) { }
  }

  ghost function SetEntry(fs: Fs, a: int, k: int, b: int): Fs
    requires HasData(fs.data, a) && 0 <= k < NINDIRECT && 0 <= b < UINT
  {
    fs.(data := fs.data[a := SetWord(fs.data[a], k, b)])
  }

  /** Writing one entry of inode i's indirect block changes that address and no other. */
  lemma EntryAddr(fs: Fs, area: Area, extra: set<int>, b: int, i: int, k: int, r: Role)
    requires Own(fs, area, extra) && 0 <= i < |fs.inodes| && fs.inodes[i].addrs[NDIRECT] != 0
    requires 0 <= k < NINDIRECT && 0 <= b < UINT && RoleOk(fs, r)
    ensures var fs' := SetEntry(fs, fs.inodes[i].addrs[NDIRECT], k, b);
      Shape(fs') && RoleOk(fs', r) && Addr(fs', r) == if r == Entry(i, k) then b else Addr(fs, r)
  {
    hide Word, SetWord, Words, Marks, Stored;
    var a := fs.inodes[i].addrs[NDIRECT];
    WordsSet(fs.data[a], k, b);
    if r.i != i { AddressesDistinct(fs, area, extra, Ind(i), Ind(r.i)); }
  }

  /** A fresh block as entry k of the indirect block. */
  lemma AttachEntry(fs: Fs, area: Area, b: int, i: int, k: int)
    requires Own(fs, area, {b}) && 0 <= i < |fs.inodes| && fs.inodes[i].addrs[NDIRECT] != 0
    requires 0 <= k < NINDIRECT && Addr(fs, Entry(i, k)) == 0
    ensures 0 <= b < UINT
    ensures var fs' := SetEntry(fs, fs.inodes[i].addrs[NDIRECT], k, b).(own := fs.own[b := Entry(i, k)]);
      && Own(fs', area, {})
      && (forall r :: RoleOk(fs, r) ==> Addr(fs', r) == if r == Entry(i, k) then b else Addr(fs, r))
  {
    hide Word, SetWord, Words;
    assert b in {b};
    var a := fs.inodes[i].addrs[NDIRECT];
    var fs1 := SetEntry(fs, a, k, b);
    var fs' := fs1.(own := fs.own[b := Entry(i, k)]);
    assert Shape(fs');
    forall r ensures RoleOk(fs', r) == RoleOk(fs, r)
             && (RoleOk(fs, r) ==> Addr(fs', r) == if r == Entry(i, k) then b else Addr(fs, r))
    {
      if RoleOk(fs, r) {
        EntryAddr(fs, area, {b}, b, i, k, r);
        assert Addr(fs', r) == Addr(fs1, r);
      }
    }
    hide SetEntry, Addr;
    assert Held(fs') && Owned(fs', area) && Marks(fs', area, {});
    StoredAfter(fs, fs', area, a);
  }

  lemma StoredAfter(fs: Fs, fs': Fs, area: Area, a: int)
    requires Stored(fs, area) && HasData(fs'.data, a) && fs'.data == fs.data[a := fs'.data[a]]
    ensures Stored(fs', area)
  {
    forall c | area.lo <= c < area.hi ensures HasData(fs'.data, c) { assert HasData(fs.data, c); }
  }

  /** Direct block k let go, still marked. */
  lemma DetachDirect(fs: Fs, area: Area, extra: set<int>, i: int, k: int)
    requires Own(fs, area, extra) && 0 <= i < |fs.inodes| && 0 <= k < NDIRECT && fs.inodes[i].addrs[k] != 0
    ensures var a := fs.inodes[i].addrs[k];
      && a !in extra
      && Own(SetAddr(fs, i, k, 0).(own := fs.own - {a}), area, extra + {a})
      && (forall r :: RoleOk(fs, r) ==>
        Addr(SetAddr(fs, i, k, 0).(own := fs.own - {a}), r) == if r == Direct(i, k) then 0 else Addr(fs, r))
  {
    var a := fs.inodes[i].addrs[k];
    assert Addr(fs, Direct(i, k)) == a;
    var fs' := SetAddr(fs, i, k, 0).(own := fs.own - {a});
    assert Shape(fs');
    forall r ensures RoleOk(fs', r) == RoleOk(fs, r)
             && (RoleOk(fs, r) ==> Addr(fs', r) == if r == Direct(i, k) then 0 else Addr(fs, r)) { }
  }

  /** The blocks named from position j on in an indirect block. */
  function Entries(w: seq<int>, j: int): set<int>
    requires 0 <= j <= |w|
  {
    set b | b in w[j..] && b != 0
  }

  /** The indirect block let go with all it names. */
  lemma DetachInd(fs: Fs, area: Area, i: int)
    requires Own(fs, area, {}) && 0 <= i < |fs.inodes| && fs.inodes[i].addrs[NDIRECT] != 0
    ensures var a := fs.inodes[i].addrs[NDIRECT];
      var gone := {a} + Entries(Words(fs.data[a]), 0);
      && a !in Entries(Words(fs.data[a]), 0)
      && Own(SetAddr(fs, i, NDIRECT, 0).(own := fs.own - gone), area, gone)
      && (forall r :: RoleOk(fs, r) && (r.Direct? || r.i != i) ==>
        Addr(SetAddr(fs, i, NDIRECT, 0).(own := fs.own - gone), r) == Addr(fs, r))
  {
    var a := fs.inodes[i].addrs[NDIRECT];
    assert Addr(fs, Ind(i)) == a;
    var w := Words(fs.data[a]);
    var gone := {a} + Entries(w, 0);
    forall b | b in Entries(w, 0) ensures b in fs.own && fs.own[b].Entry? && fs.own[b].i == i {
      var k :| 0 <= k < |w| && w[k] == b;
      assert Addr(fs, Entry(i, k)) == b;
    }
    var fs' := SetAddr(fs, i, NDIRECT, 0).(own := fs.own - gone);
    assert Shape(fs');
    forall r ensures RoleOk(fs', r) == RoleOk(fs, r)
             && (RoleOk(fs, r) ==> Addr(fs', r) == if r.i == i && !r.Direct? then 0 else Addr(fs, r)) { }
    forall b | b in fs'.own ensures Addr(fs', fs'.own[b]) == b {
      if fs.own[b].Entry? && fs.own[b].i == i { assert Addr(fs, fs.own[b]) == w[fs.own[b].k]; }
    }
  }

  /** An indirect block's entries are distinct. */
  lemma EntriesDistinct(fs: Fs, area: Area, extra: set<int>, i: int)
    requires Own(fs, area, extra) && 0 <= i < |fs.inodes| && fs.inodes[i].addrs[NDIRECT] != 0
    ensures var w := Words(fs.data[fs.inodes[i].addrs[NDIRECT]]);
      forall j, k :: 0 <= j < k < |w| && w[j] != 0 ==> w[j] != w[k]
  {
    var w := Words(fs.data[fs.inodes[i].addrs[NDIRECT]]);
    forall j, k | 0 <= j < k < |w| && w[j] != 0 ensures w[j] != w[k] {
      AddressesDistinct(fs, area, extra, Entry(i, j), Entry(i, k));
    }
  }
}
