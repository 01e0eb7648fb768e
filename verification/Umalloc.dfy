/** The K&R allocator (user/umalloc.c).  Addresses are counted in units of one header
    (16 bytes); the block at address b starts with its own header. */
module Umalloc {
  const HEADER: nat := 16
  const MINUNITS: nat := 4096

  /** What the headers in memory stand for: the static header `base`, the free list as the set
      of its members, the blocks in the program's hands, and for every unit of memory the
      block it lies in. */
  datatype Heap = Heap(base: int, free: set<int>, live: set<int>, whose: map<int, int>)

  predicate IsBlock(h: Heap, b: int) { b in h.live || (b in h.free && b != h.base) }

  /** Every block has at least its header, above base; every unit it spans is its own, and
      nothing else is anyone's.  So blocks are disjoint and together make up the memory. */
  ghost predicate Partition(size: map<int, int>, h: Heap) {
    && (forall b :: IsBlock(h, b) ==> b in size && size[b] >= 1 && b > h.base)
    && (forall b, u :: IsBlock(h, b) && b <= u < b + size[b] ==> u in h.whose && h.whose[u] == b)
    && (forall u :: u in h.whose ==> IsBlock(h, h.whose[u]) && h.whose[u] <= u < h.whose[u] + size[h.whose[u]])
  }

  /** g follows f in the ring: the next free address up, or base after the last. */
  ghost predicate Follows(free: set<int>, base: int, f: int, g: int) {
    && g in free
    && (forall x :: x in free ==> x <= f || (f < g <= x))
    && (f < g || g == base)
  }

  ghost predicate Link(ptr: map<int, int>, free: set<int>, base: int, f: int) {
    f >= base && f in ptr && Follows(free, base, f, ptr[f])
  }

  /** The list through the ptr fields is the circular list of the free set in address order. */
  ghost predicate Ring(ptr: map<int, int>, free: set<int>, base: int) {
    base in free && forall f {:trigger Link(ptr, free, base, f)} :: f in free ==> Link(ptr, free, base, f)
  }

  /** No free block touches the next: they have been merged. */
  ghost predicate Coalesced(size: map<int, int>, h: Heap) {
    forall f, g :: f in h.free && g in h.free && f != h.base && f in size ==> f + size[f] != g
  }

  ghost predicate Inv(ptr: map<int, int>, size: map<int, int>, h: Heap) {
    && Ring(ptr, h.free, h.base) && Partition(size, h) && Coalesced(size, h)
    && h.base in size && size[h.base] == 0
    && h.live !! h.free
  }

  /** Two blocks never share a unit. */
  lemma Disjoint(size: map<int, int>, h: Heap, a: int, b: int)
    requires Partition(size, h) && IsBlock(h, a) && IsBlock(h, b) && a < b
    ensures a + size[a] <= b
  {
    assert b <= b < b + size[b] && h.whose[b] == b;
  }

  ghost function Chosen<T>(s: set<T>): (x: T)
    requires s != {}
    ensures x in s
  {
    var x :| x in s; x
  }

  ghost function Total(size: map<int, int>, s: set<int>): int
    requires forall b :: b in s ==> b in size
  {
    if s == {} then 0 else var b := Chosen(s); size[b] + Total(size, s - {b})
  }

  ghost function UnitsOf(whose: map<int, int>, s: set<int>): set<int> { set u | u in whose && whose[u] in s }

  /** The n units from lo up. */
  ghost function Span(lo: int, n: nat): (r: set<int>)
    ensures forall u :: u in r <==> lo <= u < lo + n
  {
    if n == 0 then {} else Span(lo, n - 1) + {lo + n - 1}
  }

  lemma {:induction false} SpanSize(lo: int, n: nat)
    ensures |Span(lo, n)| == n
  {
    if n > 0 { SpanSize(lo, n - 1); }
  }

  lemma UnitsOfOne(size: map<int, int>, h: Heap, s: set<int>, b: int)
    requires Partition(size, h) && b in s && IsBlock(h, b)
    ensures |UnitsOf(h.whose, s)| == |UnitsOf(h.whose, s - {b})| + size[b]
  {
    var rest, own := UnitsOf(h.whose, s - {b}), Span(b, size[b]);
    forall u ensures u in UnitsOf(h.whose, s) <==> u in rest + own { }
    assert UnitsOf(h.whose, s) == rest + own && rest !! own;
    SpanSize(b, size[b]);
  }

  lemma {:induction false} BlocksAddUp(size: map<int, int>, h: Heap, s: set<int>)
    requires Partition(size, h) && forall b :: b in s ==> IsBlock(h, b)
    ensures |UnitsOf(h.whose, s)| == Total(size, s)
    decreases |s|
  {
    if s == {} {
      assert UnitsOf(h.whose, s) == {};
    } else {
      var b := Chosen(s);
      UnitsOfOne(size, h, s, b);
      BlocksAddUp(size, h, s - {b});
    }
  }

  /** Conservation: the sizes of the live and the free blocks add up to all the units obtained
      from sbrk. */
  lemma UnitsConserved(size: map<int, int>, h: Heap, blocks: set<int>, obtained: set<int>)
    requires Partition(size, h) && blocks == h.live + (h.free - {h.base}) && h.whose.Keys == obtained
    ensures forall b :: b in blocks ==> b in size
    ensures Total(size, blocks) == |obtained|
  {
    forall b ensures b in blocks <==> IsBlock(h, b) { }
    BlocksAddUp(size, h, blocks);
    forall u ensures u in UnitsOf(h.whose, blocks) <==> u in h.whose.Keys {
      if u in h.whose { assert IsBlock(h, h.whose[u]); }
    }
    assert UnitsOf(h.whose, blocks) == h.whose.Keys;
  }

  // ----- joining neighbours --------------------------------------------------------------------

  /** All units of block b handed to block a. */
  ghost function Reassign(whose: map<int, int>, b: int, a: int): map<int, int> {
    map u | u in whose :: if whose[u] == b then a else whose[u]
  }

  ghost function Drop(h: Heap, b: int): Heap { h.(free := h.free - {b}, live := h.live - {b}) }

  /** Block a swallows the block right behind it. */
  lemma MergeKeepsPartition(size: map<int, int>, h: Heap, a: int, b: int)
    requires Partition(size, h) && IsBlock(h, a) && IsBlock(h, b) && a + size[a] == b
    requires h.live !! h.free
    ensures Partition(size[a := size[a] + size[b]], Drop(h, b).(whose := Reassign(h.whose, b, a)))
  {
    var size' := size[a := size[a] + size[b]];
    var h' := Drop(h, b).(whose := Reassign(h.whose, b, a));
    forall c ensures IsBlock(h', c) <==> IsBlock(h, c) && c != b { }
    hide Partition, IsBlock, Drop;
    forall c | IsBlock(h', c) ensures c in size' && size'[c] >= 1 && c > h'.base {
      BlockFacts(size, h, c);
      BlockFacts(size, h, b);
    }
    forall c, u | IsBlock(h', c) && c <= u < c + size'[c] ensures u in h'.whose && h'.whose[u] == c {
      BlockFacts(size, h, c);
      UnitFacts(size, h, if c == a && u >= b then b else c, u);
    }
    forall u | u in h'.whose ensures IsBlock(h', h'.whose[u]) && h'.whose[u] <= u < h'.whose[u] + size'[h'.whose[u]] {
      OwnerFacts(size, h, u);
      BlockFacts(size, h, a);
      BlockFacts(size, h, b);
    }
    MakePartition(size', h');
  }

  lemma BlockFacts(size: map<int, int>, h: Heap, b: int)
    requires Partition(size, h) && IsBlock(h, b)
    ensures b in size && size[b] >= 1 && b > h.base
  {
  }

  lemma UnitFacts(size: map<int, int>, h: Heap, b: int, u: int)
    requires Partition(size, h) && IsBlock(h, b) && b in size && b <= u < b + size[b]
    ensures u in h.whose && h.whose[u] == b
  {
  }

  lemma OwnerFacts(size: map<int, int>, h: Heap, u: int)
    requires Partition(size, h) && u in h.whose
    ensures var b := h.whose[u]; IsBlock(h, b) && b in size && b <= u < b + size[b]
  {
  }

  lemma MakePartition(size: map<int, int>, h: Heap)
    requires forall b :: IsBlock(h, b) ==> b in size && size[b] >= 1 && b > h.base
    requires forall b, u :: IsBlock(h, b) && b <= u < b + size[b] ==> u in h.whose && h.whose[u] == b
    requires forall u :: u in h.whose ==> IsBlock(h, h.whose[u]) && h.whose[u] <= u < h.whose[u] + size[h.whose[u]]
    ensures Partition(size, h)
  {
  }

  // ----- putting a block on the list -------------------------------------------------------------

  /** bp belongs between p and its follower. */
  ghost predicate Slot(free: set<int>, base: int, p: int, q: int, bp: int) {
    p in free && Follows(free, base, p, q) && p < bp && (bp < q || q == base) && bp !in free
  }

  /** p is the last element of the list below bp. */
  predicate JustBelow(free: set<int>, p: int, bp: int) {
    p in free && p < bp && forall x :: x in free && x < bp ==> x <= p
  }

  lemma FollowsInsert(free: set<int>, base: int, f: int, g: int, p: int, q: int, bp: int)
    requires Slot(free, base, p, q, bp) && f in free && Follows(free, base, f, g)
    requires forall x :: x in free ==> x >= base
    ensures f != p ==> Follows(free + {bp}, base, f, g)
    ensures Follows(free + {bp}, base, p, bp)
    ensures Follows(free + {bp}, base, bp, q)
  {
  }

  lemma FollowsRemove(free: set<int>, base: int, f: int, g: int, p: int, q: int, r: int)
    requires f in free && Follows(free, base, f, g) && p in free && Follows(free, base, p, q) && Follows(free, base, q, r)
    requires q != base && forall x :: x in free ==> x >= base
    ensures f != p && f != q ==> Follows(free - {q}, base, f, g)
    ensures Follows(free - {q}, base, p, r)
  {
  }

  lemma RingInsert(ptr: map<int, int>, free: set<int>, base: int, p: int, q: int, bp: int)
    requires Ring(ptr, free, base) && Slot(free, base, p, q, bp) && p in ptr && ptr[p] == q
    ensures Ring(ptr[bp := q][p := bp], free + {bp}, base)
  {
    var ptr' := ptr[bp := q][p := bp];
    assert Link(ptr, free, base, p);
    assert forall x :: x in free ==> x >= base by {
      forall x | x in free ensures x >= base { assert Link(ptr, free, base, x); }
    }
    forall f | f in free + {bp} ensures Link(ptr', free + {bp}, base, f) {
      if f == bp {
        FollowsInsert(free, base, p, q, p, q, bp);
      } else {
        assert Link(ptr, free, base, f);
        FollowsInsert(free, base, f, ptr[f], p, q, bp);
      }
    }
  }

  /** The follower q of p taken off. */
  lemma RingRemove(ptr: map<int, int>, free: set<int>, base: int, p: int, q: int)
    requires Ring(ptr, free, base) && p in free && p in ptr && ptr[p] == q && q != base
    ensures q in free && q in ptr && Ring(ptr[p := ptr[q]], free - {q}, base)
  {
    assert Link(ptr, free, base, p);
    assert Link(ptr, free, base, q);
    assert forall x :: x in free ==> x >= base by {
      forall x | x in free ensures x >= base { assert Link(ptr, free, base, x); }
    }
    forall f | f in free - {q} ensures Link(ptr[p := ptr[q]], free - {q}, base, f) {
      assert Link(ptr, free, base, f);
      FollowsRemove(free, base, f, ptr[f], p, q, ptr[q]);
    }
  }

  lemma RingFrame(ptr: map<int, int>, ptr': map<int, int>, free: set<int>, base: int)
    requires Ring(ptr, free, base) && forall f :: f in free && f in ptr ==> f in ptr' && ptr'[f] == ptr[f]
    ensures Ring(ptr', free, base)
  {
    forall f | f in free ensures Link(ptr', free, base, f) { assert Link(ptr, free, base, f); }
  }

  /** What live blocks other than b notice of an operation: nothing. */
  ghost predicate OthersKept(size: map<int, int>, h: Heap, size': map<int, int>, h': Heap, b: int) {
    && h'.base == h.base
    && (forall c :: c in h.live && c != b ==> c in h'.live && c in size && c in size' && size'[c] == size[c])
  }

  /** b went from the program's hands to the free list, or into a free block. */
  ghost predicate Released(size: map<int, int>, h: Heap, size': map<int, int>, h': Heap, b: int) {
    && OthersKept(size, h, size', h', b) && h'.live == h.live - {b} && h'.whose.Keys == h.whose.Keys
    && b in size && b in h'.whose && h'.whose[b] in h'.free && h'.whose[b] in size' && size'[h'.whose[b]] >= size[b]
  }

  ghost predicate HalfReleased(size: map<int, int>, h: Heap, size': map<int, int>, h': Heap, b: int) {
    && OthersKept(size, h, size', h', b) && h'.live == h.live && h'.whose.Keys == h.whose.Keys
    && b in size && b in size' && size'[b] >= size[b]
  }

  lemma LiveSizes(size: map<int, int>, h: Heap)
    requires Partition(size, h)
    ensures forall c :: c in h.live ==> c in size && size[c] >= 1 && c in h.whose && h.whose[c] == c && c > h.base
  {
    forall c | c in h.live ensures c in size && size[c] >= 1 && c in h.whose && h.whose[c] == c && c > h.base {
      assert IsBlock(h, c);
    }
  }

  lemma LiveSize(ptr: map<int, int>, size: map<int, int>, h: Heap, c: int)
    requires Inv(ptr, size, h) && c in h.live
    ensures c in size && size[c] >= 1 && c > h.base && c !in h.free
  {
    LiveSizes(size, h);
  }

  // ----- the two halves of free() ------------------------------------------------------------------

  /** Between the halves: bp has its final size and forward pointer, but p does not know it yet. */
  ghost predicate Pending(ptr: map<int, int>, size: map<int, int>, h: Heap, p: int, bp: int) {
    && bp in ptr && p in ptr && Ring(ptr[p := ptr[bp]], h.free, h.base) && Slot(h.free, h.base, p, ptr[bp], bp)
    && Partition(size, h) && Coalesced(size, h)
    && h.base in size && size[h.base] == 0 && h.live !! h.free
    && bp in h.live && bp + size[bp] !in h.free
  }

  lemma KeepNext(ptr: map<int, int>, size: map<int, int>, h: Heap, p: int, q: int, bp: int)
    requires Inv(ptr, size, h) && bp in h.live && p in ptr && ptr[p] == q && Slot(h.free, h.base, p, q, bp)
    requires bp in size && bp + size[bp] != q
    ensures Pending(ptr[bp := q], size, h, p, bp) && HalfReleased(size, h, size, h, bp)
  {
    LiveSizes(size, h);
    RingFrame(ptr, ptr[bp := q][p := q], h.free, h.base);
    assert IsBlock(h, bp);
    if q != h.base { Disjoint(size, h, bp, q); }
  }

  ghost function Merged(h: Heap, a: int, b: int): Heap { Drop(h, b).(whose := Reassign(h.whose, b, a)) }

  lemma MergedOthers(size: map<int, int>, h: Heap, a: int, b: int, n: int)
    requires Partition(size, h)
    ensures Merged(h, a, b).whose.Keys == h.whose.Keys
    ensures b !in h.live ==> OthersKept(size, h, size[a := n], Merged(h, a, b), a) && Merged(h, a, b).live == h.live
    ensures a !in h.live ==> OthersKept(size, h, size[a := n], Merged(h, a, b), b)
  {
    hide Partition;
    assert Merged(h, a, b).whose.Keys == h.whose.Keys && Merged(h, a, b).live == h.live - {b};
    hide Reassign;
    forall c | c in h.live ensures c in size { LiveHasSize(size, h, c); }
    if b !in h.live { assert h.live - {b} == h.live; }
  }

  lemma LiveHasSize(size: map<int, int>, h: Heap, c: int)
    requires Partition(size, h) && c in h.live
    ensures c in size
  {
    assert IsBlock(h, c);
  }

  lemma JoinNext(ptr: map<int, int>, size: map<int, int>, h: Heap, p: int, q: int, bp: int)
    requires Inv(ptr, size, h) && bp in h.live && p in ptr && ptr[p] == q && Slot(h.free, h.base, p, q, bp)
    requires bp in size && bp + size[bp] == q
    ensures q in size && q in ptr
    ensures Pending(ptr[bp := ptr[q]], size[bp := size[bp] + size[q]], Merged(h, bp, q), p, bp)
    ensures HalfReleased(size, h, size[bp := size[bp] + size[q]], Merged(h, bp, q), bp)
  {
    assert IsBlock(h, bp) && q != h.base;
    MergeKeepsPartition(size, h, bp, q);
    MergedOthers(size, h, bp, q, size[bp] + size[q]);
    RingRemove(ptr, h.free, h.base, p, q);
    assert Link(ptr, h.free, h.base, q);
    assert Link(ptr[p := ptr[q]], h.free - {q}, h.base, p);
    RingFrame(ptr[p := ptr[q]], ptr[bp := ptr[q]][p := ptr[q]], h.free - {q}, h.base);
  }

  lemma KeepPrev(ptr: map<int, int>, size: map<int, int>, h: Heap, p: int, bp: int)
    requires Pending(ptr, size, h, p, bp) && p in size && p + size[p] != bp
    ensures Inv(ptr[p := bp], size, h.(free := h.free + {bp}, live := h.live - {bp}))
  {
    RingInsert(ptr[p := ptr[bp]], h.free, h.base, p, ptr[bp], bp);
    assert ptr[p := bp] == ptr[p := ptr[bp]][bp := ptr[bp]][p := bp];
    var h' := h.(free := h.free + {bp}, live := h.live - {bp});
    assert IsBlock(h, bp);
    assert forall b :: IsBlock(h', b) <==> IsBlock(h, b);
    forall f | f in h.free && f != h.base && f in size ensures f + size[f] != bp {
      if f < p { Disjoint(size, h, f, p); }
    }
  }

  lemma KeepPrevReleases(size: map<int, int>, h: Heap, bp: int)
    requires Partition(size, h) && bp in h.live
    ensures Released(size, h, size, h.(free := h.free + {bp}, live := h.live - {bp}), bp)
  {
    LiveSizes(size, h);
    hide Partition;
  }

  lemma JoinPrevReleases(size: map<int, int>, h: Heap, p: int, bp: int)
    requires Partition(size, h) && bp in h.live && p in h.free && p !in h.live && p in size && bp in size && size[p] >= 0
    ensures Released(size, h, size[p := size[p] + size[bp]], Merged(h, p, bp), bp)
  {
    LiveSizes(size, h);
    MergedOthers(size, h, p, bp, size[p] + size[bp]);
    hide Partition;
  }

  lemma JoinPrev(ptr: map<int, int>, size: map<int, int>, h: Heap, p: int, bp: int)
    requires Pending(ptr, size, h, p, bp) && p in size && p + size[p] == bp
    ensures bp in size && size[p] >= 0 && Inv(ptr[p := ptr[bp]], size[p := size[p] + size[bp]], Merged(h, p, bp))
  {
    assert IsBlock(h, bp) && IsBlock(h, p);
    MergeKeepsPartition(size, h, p, bp);
    assert h.free - {bp} == h.free;
  }

  lemma InMerged(h: Heap, a: int, b: int)
    requires a != b
    ensures (a in h.free ==> a in Merged(h, a, b).free) && Merged(h, a, b).base == h.base
  {
  }

  lemma SlotFacts(ptr: map<int, int>, size: map<int, int>, h: Heap, p: int, bp: int)
    requires Pending(ptr, size, h, p, bp)
    ensures p in size && bp in size && p in ptr && bp in ptr && p >= h.base && p in h.free && p != bp
    ensures Partition(size, h) && bp in h.live && p !in h.live
  {
    if p != h.base { assert IsBlock(h, p); }
    assert IsBlock(h, bp);
  }

  // ----- taking a block off the list --------------------------------------------------------------

  /** A block b of n units went from the free list to the program. */
  ghost predicate Taken(size: map<int, int>, h: Heap, size': map<int, int>, h': Heap, b: int, n: int) {
    && OthersKept(size, h, size', h', b) && h'.live == h.live + {b} && h'.whose.Keys == h.whose.Keys
    && b !in h.live && b > h.base && b in size' && size'[b] == n
  }

  lemma StillFree(ptr: map<int, int>, size: map<int, int>, h: Heap, prev: int, p: int)
    requires Inv(ptr, size, h) && prev in h.free && prev in ptr && ptr[prev] == p && p in size && size[p] >= 1
    ensures prev in h.free - {p} && p != h.base
  {
    assert Link(ptr, h.free, h.base, prev);
  }

  lemma TakeWhole(ptr: map<int, int>, size: map<int, int>, h: Heap, prev: int, p: int)
    requires Inv(ptr, size, h) && prev in h.free && prev in ptr && ptr[prev] == p && p != h.base
    ensures p in ptr && Inv(ptr[prev := ptr[p]], size, h.(free := h.free - {p}, live := h.live + {p}))
    ensures p in size && Taken(size, h, size, h.(free := h.free - {p}, live := h.live + {p}), p, size[p])
  {
    LiveSizes(size, h);
    RingRemove(ptr, h.free, h.base, prev, p);
    var h' := h.(free := h.free - {p}, live := h.live + {p});
    assert forall b :: IsBlock(h', b) <==> IsBlock(h, b);
  }

  /** The units of block p from q on handed to a new block q. */
  ghost function Cleave(whose: map<int, int>, p: int, q: int): map<int, int> {
    map u | u in whose :: if whose[u] == p && u >= q then q else whose[u]
  }

  lemma SplitFacts(size: map<int, int>, h: Heap, p: int, q: int)
    requires Partition(size, h) && p in h.free && p != h.base && p < q < p + size[p]
    ensures IsBlock(h, p) && !IsBlock(h, q) && q > h.base && q !in h.free
  {
    assert IsBlock(h, p) && h.whose[q] == p;
    if IsBlock(h, q) { Disjoint(size, h, p, q); }
  }

  lemma SplitKeepsPartition(size: map<int, int>, h: Heap, p: int, q: int)
    requires Partition(size, h) && p in h.free && p != h.base && p < q < p + size[p]
    ensures Partition(size[p := q - p][q := p + size[p] - q], h.(live := h.live + {q}, whose := Cleave(h.whose, p, q)))
  {
    SplitFacts(size, h, p, q);
    var h' := h.(live := h.live + {q}, whose := Cleave(h.whose, p, q));
    var size' := size[p := q - p][q := p + size[p] - q];
    forall b ensures IsBlock(h', b) <==> IsBlock(h, b) || b == q { }
    hide IsBlock;
  }

  ghost function Split(h: Heap, p: int, q: int): Heap { h.(live := h.live + {q}, whose := Cleave(h.whose, p, q)) }

  lemma SplitFrame(h: Heap, p: int, q: int)
    ensures Split(h, p, q).free == h.free && Split(h, p, q).base == h.base
  {
  }

  /** The program holds one more block, b, of n units. */
  ghost predicate Served(size: map<int, int>, h: Heap, size': map<int, int>, h': Heap, b: int, n: int) {
    OthersKept(size, h, size', h', b) && b !in h.live && h'.live == h.live + {b} && b in size' && size'[b] == n
  }

  lemma SplitTakes(size: map<int, int>, h: Heap, p: int, q: int, n: int)
    requires Partition(size, h) && q !in h.live && q > h.base && p in size && p !in h.live
    ensures Taken(size, h, size[p := size[p] - n][q := n], Split(h, p, q), q, n)
  {
    LiveSizes(size, h);
    hide Partition;
  }

  lemma TakeTail(ptr: map<int, int>, size: map<int, int>, h: Heap, p: int, n: int)
    requires Inv(ptr, size, h) && p in h.free && p in size && 0 < n < size[p]
    ensures var q := p + size[p] - n;
      && Inv(ptr, size[p := size[p] - n][q := n], Split(h, p, q))
      && Taken(size, h, size[p := size[p] - n][q := n], Split(h, p, q), q, n)
  {
    hide Partition, Ring, Taken, Cleave;
    var q := p + size[p] - n;
    SplitFacts(size, h, p, q);
    SplitKeepsPartition(size, h, p, q);
    SplitTakes(size, h, p, q, n);
  }

  // ----- fresh memory ----------------------------------------------------------------------------

  /** The n units from hp up become block hp. */
  ghost function Grown(h: Heap, hp: int, n: nat): Heap {
    h.(live := h.live + {hp}, whose := h.whose + map u | u in Span(hp, n) :: hp)
  }

  lemma BelowBreak(size: map<int, int>, h: Heap, b: int, brk: int)
    requires Partition(size, h) && IsBlock(h, b) && forall u :: u in h.whose ==> u < brk
    ensures b + size[b] <= brk && b < brk
  {
    assert h.whose[b + size[b] - 1] == b;
  }

  lemma GrownBlocks(h: Heap, hp: int, nu: nat)
    ensures var h' := Grown(h, hp, nu);
      && h'.base == h.base
      && (forall b :: IsBlock(h', b) <==> IsBlock(h, b) || b == hp)
      && (forall u :: u in h'.whose <==> u in h.whose || hp <= u < hp + nu)
      && (forall u :: u in h'.whose ==> h'.whose[u] == if hp <= u < hp + nu then hp else h.whose[u])
  {
    hide Span;
  }

  lemma GrowKeepsPartition(size: map<int, int>, h: Heap, hp: int, nu: nat)
    requires Partition(size, h) && nu >= 1 && hp > h.base && forall u :: u in h.whose ==> u < hp
    ensures Partition(size[hp := nu], Grown(h, hp, nu))
  {
    hide Partition, Span;
    var h' := Grown(h, hp, nu);
    var size' := size[hp := nu];
    hide IsBlock, Grown;
    GrownBlocks(h, hp, nu);
    forall b | IsBlock(h', b) ensures b in size' && size'[b] >= 1 && b > h'.base {
      if b != hp { BlockFacts(size, h, b); }
    }
    forall b, u | IsBlock(h', b) && b <= u < b + size'[b] ensures u in h'.whose && h'.whose[u] == b {
      if b != hp {
        BelowBreak(size, h, b, hp);
        UnitFacts(size, h, b, u);
      }
    }
    forall u | u in h'.whose ensures IsBlock(h', h'.whose[u]) && h'.whose[u] <= u < h'.whose[u] + size'[h'.whose[u]] {
      if !(hp <= u < hp + nu) { OwnerFacts(size, h, u); }
    }
    MakePartition(size', h');
  }

  lemma GrowKeepsInv(ptr: map<int, int>, size: map<int, int>, h: Heap, hp: int, nu: nat)
    requires Inv(ptr, size, h) && nu >= 1 && hp > h.base && forall u :: u in h.whose ==> u < hp
    ensures Inv(ptr, size[hp := nu], Grown(h, hp, nu)) && hp !in h.live
  {
    GrowKeepsPartition(size, h, hp, nu);
    assert hp !in h.live && hp !in h.free by {
      if IsBlock(h, hp) { BelowBreak(size, h, hp, hp); }
    }
    hide Partition;
  }

  /** A signed 32-bit argument, as sbrk receives it. */
  function Int32(x: nat): int {
    var w := x % 0x1_0000_0000;
    if w < 0x8000_0000 then w else w - 0x1_0000_0000
  }

  function Units(nbytes: nat): nat { (nbytes + HEADER - 1) / HEADER + 1 }

  function Core(nu: nat): nat { if nu < MINUNITS then MINUNITS else nu }

  const MAXREQUEST: nat := 0x8000_0000 - 2 * HEADER

  /** The request sbrk sees is the one meant exactly up to this many bytes; beyond, the signed
      32-bit argument is another number. */
  lemma RequestSurvives(nbytes: nat)
    requires nbytes < 0x1_0000_0000
    ensures Units(nbytes) >= 1
    ensures Int32(HEADER * Core(Units(nbytes))) == HEADER * Core(Units(nbytes)) <==> nbytes <= MAXREQUEST
  {
  }

  /** malloc(4294967295) asks the kernel for 16 bytes. */
  lemma HugeRequestAsksForOneUnit()
    ensures Int32(HEADER * Core(Units(0xFFFF_FFFF))) == HEADER
  {
  }

  /** What the search has still to pass before it wraps around. */
  function Above(free: set<int>, p: int): set<int> { set x | x in free && x > p }

  lemma AboveShrinks(free: set<int>, p: int, q: int)
    ensures q in free && p < q ==> Above(free, q) < Above(free, p)
  {
    if q in free && p < q { assert q in Above(free, p) && q !in Above(free, q); }
  }

  predicate Fits(size: map<int, int>, x: int, n: nat) { x in size && size[x] >= n }

  lemma FitsAt(size: map<int, int>, x: int, n: nat)
    ensures x in size ==> (Fits(size, x, n) <==> size[x] >= n)
  {
  }

  ghost predicate HasFit(size: map<int, int>, free: set<int>, n: nat) {
    exists x :: x in free && Fits(size, x, n)
  }

  /** x lies after start and before p on the way round. */
  ghost predicate Passed(start: int, p: int, x: int) {
    if start < p then start < x < p else x > start || x < p
  }

  lemma AllPassed(start: int)
    ensures forall x :: x == start || Passed(start, start, x)
  {
  }

  lemma PassStep(free: set<int>, base: int, start: int, p: int, q: int, x: int)
    requires start in free && p in free && p != start && Follows(free, base, p, q)
    requires x in free && x >= base && start >= base && Passed(start, q, x)
    ensures x == p || Passed(start, p, x)
  {
  }

  lemma RingNext(ptr: map<int, int>, size: map<int, int>, h: Heap, p: int)
    requires Inv(ptr, size, h) && p in h.free
    ensures p in ptr && p in size && p >= h.base && ptr[p] in h.free && Follows(h.free, h.base, p, ptr[p])
    ensures ptr[p] > p || ptr[p] == h.base
    ensures forall x :: x in h.free && Passed(p, ptr[p], x) ==> x < h.base
    ensures forall x :: x in h.free ==> x >= h.base
  {
    assert Link(ptr, h.free, h.base, p);
    forall x | x in h.free ensures x >= h.base { assert Link(ptr, h.free, h.base, x); }
    if p != h.base { assert IsBlock(h, p); }
  }

  class Allocator {
    var ptr: map<int, int>
    var size: map<int, int>
    var freep: int
    const base: int
    ghost var h: Heap
    ghost var obtained: set<int>

    ghost predicate Valid()
      reads this
    {
      && h.base == base > 0
      && (if freep == 0 then h == Heap(base, {base}, {}, map[]) && base !in size else freep in h.free && Inv(ptr, size, h))
    }

    /** The units of all blocks are exactly those sbrk has given the process. */
    ghost predicate Backed()
      reads `h, `obtained
    {
      h.whose.Keys == obtained
    }

    /** What sbrk may answer: an address above everything the process has obtained so far. */
    ghost predicate Answer(brk: int)
      reads `obtained
    {
      brk > base && forall u :: u in obtained ==> u < brk
    }

    /** An answer that lies behind every block.  While the blocks are backed every answer does;
        NextAnswerClear says when the first one does not. */
    ghost predicate Clear(brk: int)
      reads `h
    {
      AllBelow(h.whose.Keys, brk)
    }

    constructor (baseAddr: int)
      requires baseAddr > 0
      ensures Valid() && Backed() && freep == 0 && h.live == {} && obtained == {}
    {
      ptr, size, freep, base := map[], map[], 0, baseAddr;
      h, obtained := Heap(baseAddr, {baseAddr}, {}, map[]), {};
    }

    /** The search of free(): the list element that bp belongs behind. */
    method FindSlot(bp: int) returns (p: int)
      requires Valid() && bp in h.live
      ensures p in ptr && Slot(h.free, h.base, p, ptr[p], bp) && JustBelow(h.free, p, bp)
    {
      LiveSizes(size, h);
      assert IsBlock(h, bp);
      hide Partition, Coalesced;
      p := freep;
      assert Link(ptr, h.free, h.base, p);
      while !(bp > p && bp < ptr[p])
        invariant p in h.free && Link(ptr, h.free, h.base, p)
        decreases p > bp, Above(h.free, p)
      {
        if p >= ptr[p] && (bp > p || bp < ptr[p]) { break; }
        assert Link(ptr, h.free, h.base, ptr[p]);
        AboveShrinks(h.free, p, ptr[p]);
        p := ptr[p];
      }
    }

    /** First half of free(): bp takes over a free block right behind it, and points ahead. */
    method LinkNext(p: int, bp: int)
      requires freep != 0 && Valid() && bp in h.live && p in ptr && Slot(h.free, h.base, p, ptr[p], bp)
      modifies `ptr, `size, `h
      ensures Pending(ptr, size, h, p, bp) && HalfReleased(old(size), old(h), size, h, bp)
    {
      assert Inv(ptr, size, h);
      hide *;
      LiveSize(ptr, size, h, bp);
      var q := ptr[p];
      if bp + size[bp] == q {
        JoinNext(ptr, size, h, p, q, bp);
        h := Merged(h, bp, q);
        size, ptr := size[bp := size[bp] + size[q]], ptr[bp := ptr[q]];
      } else {
        KeepNext(ptr, size, h, p, q, bp);
        ptr := ptr[bp := q];
      }
    }

    /** Second half: the free block right before bp takes bp over, or points to it. */
    method LinkPrev(p: int, bp: int)
      requires Pending(ptr, size, h, p, bp)
      modifies `ptr, `size, `h
      ensures Inv(ptr, size, h) && p in h.free && p >= h.base && Released(old(size), old(h), size, h, bp)
    {
      hide *;
      SlotFacts(ptr, size, h, p, bp);
      if p + size[p] == bp {
        JoinPrev(ptr, size, h, p, bp);
        JoinPrevReleases(size, h, p, bp);
        InMerged(h, p, bp);
        h := Merged(h, p, bp);
        size, ptr := size[p := size[p] + size[bp]], ptr[p := ptr[bp]];
      } else {
        KeepPrev(ptr, size, h, p, bp);
        KeepPrevReleases(size, h, bp);
        h := h.(free := h.free + {bp}, live := h.live - {bp});
        ptr := ptr[p := bp];
      }
    }

    method Free(bp: int)
      requires Valid() && bp in h.live
      modifies `ptr, `size, `h, `freep
      ensures Valid() && freep != 0 && JustBelow(old(h.free), freep, bp)
      ensures Released(old(size), old(h), size, h, bp)
    {
      hide Inv, Pending, JustBelow;
      assert h.live != {};
      var p := FindSlot(bp);
      LinkNext(p, bp);
      LinkPrev(p, bp);
      freep := p;
    }

    /** morecore(): at least 4096 units from sbrk, whose answer is brk (0 for failure), put on
        the list through free().  A negative argument makes sbrk take memory away. */
    method Morecore(nunits: nat, brk: int) returns (ok: bool)
      requires freep != 0 && Valid() && nunits >= 1 && (brk != 0 ==> Answer(brk) && Clear(brk))
      modifies this
      ensures ok == (brk != 0)
      ensures !ok ==> unchanged(this)
      ensures ok ==> Valid() && freep != 0 && Refilled(old(size), old(h), size, h, brk, Core(nunits))
      ensures ok && old(Backed()) ==> (Backed() <==> Int32(HEADER * Core(nunits)) == HEADER * Core(nunits))
    {
      if brk == 0 { return false; }
      var nu := if nunits < MINUNITS then MINUNITS else nunits;
      hide Inv, Released, OthersKept, Span, Int32, Grown, Refilled;
      ghost var ptr0, size0, h0 := ptr, size, h;
      Sbrk(nu, brk);
      Free(brk);
      GrowThenRelease(ptr0, size0, h0, brk, nu, size, h);
      return true;
    }

    /** One lap of malloc()'s search: the first block large enough after freep, and the element
        before it; or, back at freep, none. */
    method Search(nunits: nat) returns (prevp: int, p: int, found: bool)
      requires freep != 0 && Valid() && nunits >= 1
      ensures prevp in h.free && prevp in ptr && ptr[prevp] == p && p in h.free && p in size
      ensures found == HasFit(size, h.free, nunits)
      ensures found ==> size[p] >= nunits && forall x :: x in h.free && Passed(freep, p, x) ==> !Fits(size, x, nunits)
    {
      assert Inv(ptr, size, h);
      hide Inv, Valid, Follows, Fits, Passed;
      prevp := freep;
      RingNext(ptr, size, h, freep);
      p := ptr[prevp];
      while true
        invariant prevp in h.free && prevp in ptr && p == ptr[prevp] && p in h.free
        invariant forall x :: x in h.free && Passed(freep, p, x) ==> !Fits(size, x, nunits)
        decreases p > freep, Above(h.free, p)
      {
        RingNext(ptr, size, h, p);
        FitsAt(size, p, nunits);
        if size[p] >= nunits {
          assert HasFit(size, h.free, nunits);
          return prevp, p, true;
        }
        if p == freep {
          AllPassed(freep);
          return prevp, p, false;
        }
        forall x | x in h.free && Passed(freep, ptr[p], x) ensures !Fits(size, x, nunits) {
          PassStep(h.free, h.base, freep, p, ptr[p], x);
        }
        AboveShrinks(h.free, p, ptr[p]);
        prevp, p := p, ptr[p];
      }
    }

    /** malloc() with a large enough block at hand: all of it, or its tail. */
    method Take(prevp: int, p: int, nunits: nat) returns (b: int)
      requires freep != 0 && Valid() && nunits >= 1
      requires prevp in h.free && prevp in ptr && ptr[prevp] == p && p in h.free && p in size && size[p] >= nunits
      modifies `ptr, `size, `h, `freep
      ensures Valid() && freep == prevp != 0 && Taken(old(size), old(h), size, h, b, nunits)
    {
      hide Inv, Taken, Split;
      assert prevp >= h.base by { RingNext(ptr, size, h, prevp); }
      if size[p] == nunits {
        StillFree(ptr, size, h, prevp, p);
        TakeWhole(ptr, size, h, prevp, p);
        ptr, h := ptr[prevp := ptr[p]], h.(free := h.free - {p}, live := h.live + {p});
        b := p;
      } else {
        b := p + size[p] - nunits;
        TakeTail(ptr, size, h, p, nunits);
        SplitFrame(h, p, b);
        size, h := size[p := size[p] - nunits][b := nunits], Split(h, p, b);
      }
      freep := prevp;
    }

    /** malloc(): the address behind the block's header, or 0. */
    method Malloc(nbytes: nat, brk: int) returns (r: int)
      requires Valid() && nbytes < 0x1_0000_0000 && (brk != 0 ==> Answer(brk))
      requires brk == 0 || Clear(brk) || HasFit(size, h.free, Units(nbytes))
      modifies this
      ensures Valid()
      ensures r == 0 <==> brk == 0 && !HasFit(old(size), old(h.free), Units(nbytes))
      ensures r == 0 ==> h.live == old(h.live) && h.whose == old(h.whose) && obtained == old(obtained)
      ensures r != 0 ==> Served(old(size), old(h), size, h, r - 1, Units(nbytes))
      ensures HasFit(old(size), old(h.free), Units(nbytes)) ==> h.whose.Keys == old(h.whose.Keys) && obtained == old(obtained)
      ensures r != 0 && !HasFit(old(size), old(h.free), Units(nbytes)) ==>
        h.whose.Keys == old(h.whose.Keys) + Span(brk, Core(Units(nbytes)))
      ensures old(Backed()) && r != 0 ==>
        (Backed() <==> HasFit(old(size), old(h.free), Units(nbytes)) || nbytes <= MAXREQUEST)
    {
      hide Inv, Int32, Span, Fits, Units, Served, HasFit, Core;
      var nunits := Units(nbytes);
      RequestSurvives(nbytes);
      if freep == 0 {
        Init(nunits);
        ghost var size0 := size;
        r := AllocFresh(nunits, brk);
        if r != 0 { ServedFirst(old(size), size0, old(h), size, h, r - 1, nunits); }
      } else {
        r := AllocAny(nunits, brk);
      }
    }

    /** malloc() once the list exists. */
    method AllocAny(nunits: nat, brk: int) returns (r: int)
      requires freep != 0 && Valid() && nunits >= 1 && (brk != 0 ==> Answer(brk))
      requires brk == 0 || Clear(brk) || HasFit(size, h.free, nunits)
      modifies this
      ensures Valid()
      ensures r == 0 <==> brk == 0 && !HasFit(old(size), old(h.free), nunits)
      ensures r == 0 ==> unchanged(this)
      ensures r != 0 ==> Served(old(size), old(h), size, h, r - 1, nunits)
      ensures HasFit(old(size), old(h.free), nunits) ==> h.whose.Keys == old(h.whose.Keys) && obtained == old(obtained)
      ensures r != 0 && !HasFit(old(size), old(h.free), nunits) ==>
        h.whose.Keys == old(h.whose.Keys) + Span(brk, Core(nunits))
      ensures old(Backed()) && r != 0 ==>
        (Backed() <==> HasFit(old(size), old(h.free), nunits) || Int32(HEADER * Core(nunits)) == HEADER * Core(nunits))
    {
      hide Inv, Int32, Span, Fits, Taken, Served, HasFit;
      ghost var size0, h0 := size, h;
      var prevp, p, found := Search(nunits);
      if found {
        var b := Take(prevp, p, nunits);
        TakenServes(size0, h0, size, h, b, nunits);
        return b + 1;
      }
      r := AllocFresh(nunits, brk);
    }

    /** The rest of malloc() when no free block is large enough: after morecore() the second lap
        always finds one. */
    method AllocFresh(nunits: nat, brk: int) returns (r: int)
      requires freep != 0 && Valid() && nunits >= 1 && !HasFit(size, h.free, nunits)
      requires brk != 0 ==> Answer(brk) && Clear(brk)
      modifies this
      ensures Valid() && (r == 0 <==> brk == 0)
      ensures r == 0 ==> unchanged(this)
      ensures r != 0 ==> Served(old(size), old(h), size, h, r - 1, nunits)
      ensures r != 0 ==> h.whose.Keys == old(h.whose.Keys) + Span(brk, Core(nunits))
      ensures r != 0 && old(Backed()) ==> (Backed() <==> Int32(HEADER * Core(nunits)) == HEADER * Core(nunits))
    {
      hide Inv, Int32, Span, Fits, Taken, Refilled, Served;
      ghost var size0, h0 := size, h;
      var ok := Morecore(nunits, brk);
      if !ok { return 0; }
      ghost var size1, h1 := size, h;
      RefilledFits(size0, h0, size, h, brk, Core(nunits), nunits);
      var prevp, p, found := Search(nunits);
      var b := Take(prevp, p, nunits);
      ServedAfterRefill(size0, h0, size1, h1, size, h, brk, Core(nunits), b, nunits);
      return b + 1;
    }

    method Init(n: nat)
      requires Valid() && freep == 0 && n >= 1
      modifies `ptr, `size, `freep
      ensures Valid() && freep == base && !HasFit(size, h.free, n) && !HasFit(old(size), h.free, n)
    {
      ptr, size, freep := ptr[base := base], size[base := 0], base;
      assert forall b :: !IsBlock(h, b);
    }

    /** The granted memory as one live block, with its header written. */
    method Sbrk(nu: nat, brk: int)
      requires freep != 0 && Valid() && nu >= 1 && Answer(brk) && Clear(brk)
      modifies `size, `h, `obtained
      ensures Valid() && size == old(size)[brk := nu] && h == Grown(old(h), brk, nu) && brk in h.live && brk !in old(h.live)
      ensures h.whose.Keys == old(h.whose.Keys) + Span(brk, nu)
      ensures old(Backed()) ==> (Backed() <==> Int32(HEADER * nu) == HEADER * nu)
    {
      hide Inv, Span, Int32;
      GrowKeepsInv(ptr, size, h, brk, nu);
      BackedAfter(obtained, brk, nu);
      obtained := Granted(obtained, brk, nu);
      h := Grown(h, brk, nu);
      size := size[brk := nu];
    }
  }

  /** What the process owns after sbrk(16 * nu) answered brk. */
  ghost function Granted(obtained: set<int>, brk: int, nu: nat): set<int> {
    var grant := Int32(HEADER * nu) / HEADER;
    if grant >= 0 then obtained + Span(brk, grant) else obtained - Span(brk + grant, -grant)
  }

  /** n fresh units from hp on are free, in one block; nothing else has changed hands. */
  ghost predicate Refilled(size: map<int, int>, h: Heap, size': map<int, int>, h': Heap, hp: int, n: nat) {
    && OthersKept(size, h, size', h', hp) && hp !in h.live && h'.live == h.live
    && h'.whose.Keys == h.whose.Keys + Span(hp, n)
    && hp in h'.whose && h'.whose[hp] in h'.free && h'.whose[hp] in size' && size'[h'.whose[hp]] >= n
  }

  lemma RefilledFits(size: map<int, int>, h: Heap, size': map<int, int>, h': Heap, hp: int, n: nat, m: nat)
    requires Refilled(size, h, size', h', hp, n) && m <= n
    ensures HasFit(size', h'.free, m)
  {
    assert Fits(size', h'.whose[hp], m);
  }

  lemma ServedAfterRefill(size: map<int, int>, h: Heap, size1: map<int, int>, h1: Heap, size2: map<int, int>, h2: Heap,
                          hp: int, n: nat, b: int, m: nat)
    requires Refilled(size, h, size1, h1, hp, n) && Taken(size1, h1, size2, h2, b, m)
    ensures Served(size, h, size2, h2, b, m) && h2.whose.Keys == h.whose.Keys + Span(hp, n) && h2.whose.Keys == h1.whose.Keys
    ensures b > h.base
  {
    hide Span;
  }

  lemma TakenServes(size: map<int, int>, h: Heap, size': map<int, int>, h': Heap, b: int, n: nat)
    requires Taken(size, h, size', h', b, n)
    ensures Served(size, h, size', h', b, n) && h'.whose.Keys == h.whose.Keys && b > h.base
  {
  }

  lemma ServedFirst(size: map<int, int>, size0: map<int, int>, h: Heap, size': map<int, int>, h': Heap, b: int, n: nat)
    requires h.live == {} && Served(size0, h, size', h', b, n)
    ensures Served(size, h, size', h', b, n)
  {
  }

  lemma GrowThenRelease(ptr: map<int, int>, size: map<int, int>, h: Heap, hp: int, nu: nat,
                        size': map<int, int>, h': Heap)
    requires Inv(ptr, size, h) && hp !in h.live
    requires Released(size[hp := nu], Grown(h, hp, nu), size', h', hp)
    ensures Refilled(size, h, size', h', hp, nu) && h'.whose.Keys == h.whose.Keys + Span(hp, nu)
  {
    LiveSizes(size, h);
    hide Inv, Span;
    assert h'.live == h.live + {hp} - {hp} == h.live;
  }

  /** Units claimed and units owned stay the same exactly when sbrk was asked for as many as are
      used. */
  lemma BackedAfter(obtained: set<int>, brk: int, nu: nat)
    requires nu >= 1 && forall u :: u in obtained ==> u < brk
    ensures obtained + Span(brk, nu) == Granted(obtained, brk, nu) <==> Int32(HEADER * nu) == HEADER * nu
  {
    var grant := Int32(HEADER * nu) / HEADER;
    assert grant <= nu && (grant == nu <==> Int32(HEADER * nu) == HEADER * nu);
    hide Int32;
    if grant != nu {
      assert brk + nu - 1 in Span(brk, nu) && brk + nu - 1 !in Granted(obtained, brk, nu);
    }
  }

  ghost predicate AllBelow(units: set<int>, brk: int) { forall u :: u in units ==> u < brk }

  /** Where the break, and so sbrk's next answer, is after sbrk(16 * nu) answered brk. */
  function NextBreak(brk: int, nu: nat): int { brk + Int32(HEADER * nu) / HEADER }

  /** The next answer lies clear of the block just made exactly when the argument survived. */
  lemma NextAnswerClear(brk: int, nu: nat)
    ensures NextBreak(brk, nu) >= brk + nu <==> Int32(HEADER * nu) == HEADER * nu
  {
  }

  /** So after a block of fresh memory the next answer is behind every block again if and only if
      the argument survived: exactly then the next call may need fresh memory too. */
  lemma NextClearIff(h: Heap, brk: int, nu: nat)
    requires nu >= 1 && AllBelow(h.whose.Keys, brk)
    ensures AllBelow(Grown(h, brk, nu).whose.Keys, NextBreak(brk, nu)) <==> Int32(HEADER * nu) == HEADER * nu
  {
    NextAnswerClear(brk, nu);
    hide Int32, NextBreak, Span;
    assert brk + nu - 1 in Grown(h, brk, nu).whose.Keys;
  }

  /** After malloc(4294967295) the next block of fresh memory overlaps the one just returned: both
      start with the same unit of memory in them, although both are live. */
  lemma HugeRequestOverlaps(brk: int, m: nat)
    requires m >= 1
    ensures var n, next := Core(Units(0xFFFF_FFFF)), NextBreak(brk, Core(Units(0xFFFF_FFFF)));
      next == brk + 1 && next in Span(brk, n) && next in Span(next, Core(m))
  {
    hide Span;
  }
}
