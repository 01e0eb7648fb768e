/** The buffer cache (kernel/bio.c): NBUF buffers on a doubly linked list kept in
    most-recently-used order, with reference counts. */
module BufferCache {
  import opened Basics

  datatype Data = Data(bytes: seq<int>)
  datatype Buf = Buf(dev: nat, blockno: int, valid: bool, refcnt: nat, data: Data)

  /** The cache as a value: the buffers and their order, most recently used first. */
  datatype Cache = Cache(bufs: seq<Buf>, order: seq<nat>)

  /** The order is a permutation of all NBUF buffers. */
  predicate WellFormed(c: Cache) {
    && |c.bufs| == NBUF == |c.order|
    && Distinct(c.order)
    && forall k :: 0 <= k < |c.order| ==> c.order[k] < NBUF
  }

  /** At most one buffer holds a given block.  All buffers start as device 0, block 0,
      so the property is about real devices. */
  predicate Unique(c: Cache) {
    forall i, j :: 0 <= i < j < |c.bufs| && c.bufs[i].dev != 0 && c.bufs[i].dev == c.bufs[j].dev
      ==> c.bufs[i].blockno != c.bufs[j].blockno
  }

  predicate Holds(b: Buf, dev: nat, blockno: int) { b.dev == dev && b.blockno == blockno }

  predicate CachedAt(c: Cache, i: nat, dev: nat, blockno: int) {
    i < |c.bufs| && Holds(c.bufs[i], dev, blockno)
  }

  // ----- what the operations do ---------------------------------------------------

  /** bget's choice: the buffer that already holds the block, else the least recently
      used one that nobody references, else none (the kernel panics). */
  ghost predicate Picks(c: Cache, dev: nat, blockno: int, r: Option<nat>)
    requires WellFormed(c)
  {
    match r
    case None =>
      && (forall i :: 0 <= i < NBUF ==> !Holds(c.bufs[i], dev, blockno))
      && forall i :: 0 <= i < NBUF ==> c.bufs[i].refcnt > 0
    case Some(i) =>
      && i < NBUF
      && (Holds(c.bufs[i], dev, blockno) ||
          ((forall j :: 0 <= j < NBUF ==> !Holds(c.bufs[j], dev, blockno)) && LeastRecentFree(c, i)))
  }

  ghost predicate LeastRecentFree(c: Cache, i: nat)
    requires WellFormed(c) && i < NBUF
  {
    && c.bufs[i].refcnt == 0
    && exists k :: 0 <= k < NBUF && c.order[k] == i && forall j :: k < j < NBUF ==> c.bufs[c.order[j]].refcnt > 0
  }

  /** The cache after bget has chosen buffer i. */
  function Taken(c: Cache, i: nat, dev: nat, blockno: int): Cache
    requires i < |c.bufs|
  {
    var b := c.bufs[i];
    if Holds(b, dev, blockno) then c.(bufs := c.bufs[i := b.(refcnt := b.refcnt + 1)])
    else c.(bufs := c.bufs[i := Buf(dev, blockno, false, 1, b.data)])
  }

  function MoveToFront(order: seq<nat>, i: nat): seq<nat> {
    [i] + Without(order, i)
  }

  function Without(s: seq<nat>, x: nat): seq<nat> {
    if s == [] then [] else if s[0] == x then s[1..] else [s[0]] + Without(s[1..], x)
  }

  /** brelse once the buffer's sleep lock is released. */
  function Released(c: Cache, i: nat): Cache
    requires i < |c.bufs| && c.bufs[i].refcnt > 0
  {
    var n := c.bufs[i].refcnt - 1;
    var bufs := c.bufs[i := c.bufs[i].(refcnt := n)];
    if n == 0 then Cache(bufs, MoveToFront(c.order, i)) else c.(bufs := bufs)
  }

  function Counted(c: Cache, i: nat, n: nat): Cache
    requires i < |c.bufs|
  {
    c.(bufs := c.bufs[i := c.bufs[i].(refcnt := n)])
  }

  // ----- facts about the order --------------------------------------------------------

  lemma {:induction false} WithoutAt(s: seq<nat>, k: nat)
    requires k < |s| && Distinct(s)
    ensures Without(s, s[k]) == s[..k] + s[k + 1..]
  {
    if k == 0 {
      assert s[..0] + s[1..] == s[1..];
    } else {
      var t := s[1..];
      WithoutAt(t, k - 1);
      assert s[0] != s[k] == t[k - 1];
      assert s[..k] == [s[0]] + t[..k - 1] && s[k + 1..] == t[k..];
    }
  }

  /** NBUF distinct indices below NBUF are all of them. */
  lemma {:induction false} Onto(s: seq<nat>, n: nat, x: nat)
    requires |s| == n && Distinct(s) && x < n && forall k :: 0 <= k < n ==> s[k] < n
    ensures x in s
  {
    if x !in s {
      Pigeonhole(s, n, x);
    }
  }

  lemma {:induction false} Pigeonhole(s: seq<nat>, n: nat, x: nat)
    requires Distinct(s) && x < n && x !in s && forall k :: 0 <= k < |s| ==> s[k] < n
    ensures |s| < n
    decreases n
  {
    if s != [] {
      var top := n - 1;
      if top in s {
        var k :| 0 <= k < |s| && s[k] == top;
        var t := s[..k] + s[k + 1..];
        assert forall j :: 0 <= j < |t| ==> t[j] in s;
        assert forall j :: 0 <= j < |t| ==> t[j] != top;
        if x == top { assert false; }
        Pigeonhole(t, n - 1, x);
      } else if x == top {
        if n > 1 {
          var y := s[0];
          Pigeonhole(s[1..], n - 1, y);
        }
      } else {
        Pigeonhole(s, n - 1, x);
      }
    }
  }

  lemma MoveToFrontKeeps(c: Cache, i: nat)
    requires WellFormed(c) && i < NBUF
    ensures WellFormed(c.(order := MoveToFront(c.order, i)))
  {
    Onto(c.order, NBUF, i);
    var k :| 0 <= k < NBUF && c.order[k] == i;
    WithoutAt(c.order, k);
    UnlinkMembers(c.order, k);
    assert i !in Without(c.order, i);
    InsertMembers(Without(c.order, i), i);
  }

  // ----- the code -----------------------------------------------------------------------

  const HEAD: nat := NBUF

  /** The ring as it is walked: from the head through the buffers back to the head. */
  function Ring(order: seq<nat>): seq<nat> { [HEAD] + order + [HEAD] }

  ghost predicate Members(order: seq<nat>) {
    Distinct(order) && forall k :: 0 <= k < |order| ==> order[k] < NBUF
  }

  ghost predicate Forward(next: seq<nat>, r: seq<nat>) {
    forall k :: 0 <= k < |r| - 1 ==> r[k] < |next| && next[r[k]] == r[k + 1]
  }

  ghost predicate Backward(prev: seq<nat>, r: seq<nat>) {
    forall k :: 0 < k < |r| ==> r[k] < |prev| && prev[r[k]] == r[k - 1]
  }

  /** next and prev spell out `order` in both directions. */
  ghost predicate Linked(next: seq<nat>, prev: seq<nat>, order: seq<nat>) {
    && |next| == |prev| == NBUF + 1
    && Members(order)
    && Forward(next, Ring(order))
    && Backward(prev, Ring(order))
  }

  lemma InsertMembers(order: seq<nat>, b: nat)
    requires Members(order) && b < NBUF && b !in order
    ensures Members([b] + order)
  {
    var o := [b] + order;
    assert forall k :: 0 < k < |o| ==> o[k] == order[k - 1];
  }

  lemma InsertForward(next: seq<nat>, order: seq<nat>, b: nat)
    requires |next| == NBUF + 1 && Members(order) && Forward(next, Ring(order)) && b < NBUF && b !in order
    ensures Forward(next[b := next[HEAD]][HEAD := b], Ring([b] + order))
  {
    var r, o := Ring(order), Ring([b] + order);
    var nx := next[b := next[HEAD]][HEAD := b];
    assert r[0] == HEAD && next[r[0]] == r[1];
    forall k | 0 <= k < |o| - 1 ensures o[k] < |nx| && nx[o[k]] == o[k + 1] {
      if k > 1 {
        assert o[k] == r[k - 1] && o[k + 1] == r[k] == next[r[k - 1]];
      }
    }
  }

  lemma InsertBackward(prev: seq<nat>, order: seq<nat>, b: nat, first: nat)
    requires |prev| == NBUF + 1 && Members(order) && Backward(prev, Ring(order)) && b < NBUF && b !in order
    requires first == Ring(order)[1]
    ensures Backward(prev[b := HEAD][first := b], Ring([b] + order))
  {
    var r, o := Ring(order), Ring([b] + order);
    var pv := prev[b := HEAD][first := b];
    forall k | 0 < k < |o| ensures o[k] < |pv| && pv[o[k]] == o[k - 1] {
      if k > 1 {
        assert o[k] == r[k - 1];
        if k > 2 {
          assert o[k - 1] == r[k - 2] == prev[r[k - 1]];
        }
      }
    }
  }

  lemma UnlinkMembers(order: seq<nat>, k: nat)
    requires Members(order) && k < |order|
    ensures Members(order[..k] + order[k + 1..])
  {
    var o := order[..k] + order[k + 1..];
    assert forall j :: 0 <= j < |o| ==> o[j] == order[if j < k then j else j + 1];
  }

  /** Ring position of the element that ends up at position j once position p is gone. */
  function Skip(j: int, p: int): int { if j < p then j else j + 1 }

  lemma UnlinkRing(order: seq<nat>, k: nat)
    requires k < |order|
    ensures
      var r, o := Ring(order), Ring(order[..k] + order[k + 1..]);
      |o| == |r| - 1 && forall j :: 0 <= j < |o| ==> o[j] == r[Skip(j, k + 1)]
  {
  }

  lemma UnlinkForward(next: seq<nat>, order: seq<nat>, k: nat)
    requires |next| == NBUF + 1 && Members(order) && Forward(next, Ring(order)) && k < |order|
    ensures Ring(order)[k] < |next|
    ensures Forward(next[Ring(order)[k] := Ring(order)[k + 2]], Ring(order[..k] + order[k + 1..]))
  {
    var r, o := Ring(order), Ring(order[..k] + order[k + 1..]);
    UnlinkRing(order, k);
    var nx := next[r[k] := r[k + 2]];
    forall j | 0 <= j < |o| - 1 ensures o[j] < |nx| && nx[o[j]] == o[j + 1] {
      var i := Skip(j, k + 1);
      assert o[j] == r[i] && next[r[i]] == r[i + 1] && o[j + 1] == r[Skip(j + 1, k + 1)];
    }
  }

  lemma UnlinkBackward(prev: seq<nat>, order: seq<nat>, k: nat)
    requires |prev| == NBUF + 1 && Members(order) && Backward(prev, Ring(order)) && k < |order|
    ensures Ring(order)[k + 2] < |prev|
    ensures Backward(prev[Ring(order)[k + 2] := Ring(order)[k]], Ring(order[..k] + order[k + 1..]))
  {
    var r, o := Ring(order), Ring(order[..k] + order[k + 1..]);
    UnlinkRing(order, k);
    var pv := prev[r[k + 2] := r[k]];
    forall j | 0 < j < |o| ensures o[j] < |pv| && pv[o[j]] == o[j - 1] {
      var i := Skip(j, k + 1);
      assert o[j] == r[i] && prev[r[i]] == r[i - 1] && o[j - 1] == r[Skip(j - 1, k + 1)];
    }
  }

  class Bcache {
    const buf: array<Buf>
    const next: array<nat>
    const prev: array<nat>
    ghost var order: seq<nat>

    ghost predicate Shape()
      reads this
    {
      buf.Length == NBUF && next.Length == prev.Length == NBUF + 1 && next != prev
    }

    ghost predicate Valid()
      reads this, next, prev
    {
      Shape() && Linked(next[..], prev[..], order) && |order| == NBUF
    }

    ghost function View(): (c: Cache)
      reads this, buf
    {
      Cache(buf[..], order)
    }

    /** Put buffer b, which is on no list, right behind the head. */
    method InsertFront(b: nat)
      requires Shape() && Linked(next[..], prev[..], order) && b < NBUF && b !in order
      modifies next, prev, this`order
      ensures Shape() && Linked(next[..], prev[..], order) && order == [b] + old(order)
    {
      InsertMembers(order, b);
      InsertForward(next[..], order, b);
      assert Ring(order)[0] == HEAD;
      InsertBackward(prev[..], order, b, next[HEAD]);
      next[b] := next[HEAD];
      prev[b] := HEAD;
      prev[next[HEAD]] := b;
      next[HEAD] := b;
      order := [b] + order;
      assert next[..] == old(next[..][b := next[HEAD]][HEAD := b]);
      assert prev[..] == old(prev[..][b := HEAD][next[HEAD] := b]);
    }

    /** Take buffer b out of the list. */
    method Unlink(b: nat, ghost k: nat)
      requires Shape() && Linked(next[..], prev[..], order) && k < |order| && order[k] == b
      modifies next, prev, this`order
      ensures Shape() && Linked(next[..], prev[..], order) && order == old(order[..k] + order[k + 1..])
    {
      assert Ring(order)[k + 1] == b;
      UnlinkMembers(order, k);
      UnlinkForward(next[..], order, k);
      UnlinkBackward(prev[..], order, k);
      prev[next[b]] := prev[b];
      next[prev[b]] := next[b];
      order := order[..k] + order[k + 1..];
      assert next[..] == old(next[..][prev[b] := next[b]]);
      assert prev[..] == old(prev[..][next[b] := prev[b]]);
    }

    /** binit: all buffers on the list, none referenced, all claiming device 0. */
    constructor (junk: Data)
      ensures Valid() && WellFormed(View()) && Unique(View())
      ensures forall i :: 0 <= i < NBUF ==> buf[i] == Buf(0, 0, false, 0, junk)
      ensures fresh(buf) && fresh(next) && fresh(prev)
    {
      buf := new Buf[NBUF](_ => Buf(0, 0, false, 0, junk));
      next := new nat[NBUF + 1](_ => HEAD);
      prev := new nat[NBUF + 1](_ => HEAD);
      order := [];
      new;
      var b := 0;
      while b < NBUF
        invariant 0 <= b <= NBUF && Shape() && Linked(next[..], prev[..], order) && |order| == b
        invariant forall k :: 0 <= k < b ==> order[k] < b
        invariant forall i :: 0 <= i < NBUF ==> buf[i] == Buf(0, 0, false, 0, junk)
        modifies next, prev, this`order
      {
        InsertFront(b);
        b := b + 1;
      }
    }

    /** Walk forward from the most recently used buffer. */
    method FindCached(dev: nat, blockno: int) returns (r: nat)
      requires Valid()
      ensures r <= NBUF
      ensures r < NBUF ==> Holds(buf[r], dev, blockno)
      ensures r == NBUF ==> forall i :: 0 <= i < NBUF ==> !Holds(buf[i], dev, blockno)
    {
      assert Ring(order)[0] == HEAD;
      r := next[HEAD];
      ghost var k := 0;
      while r != HEAD
        invariant 0 <= k <= NBUF && r == Ring(order)[k + 1]
        invariant forall j :: 0 <= j < k ==> !Holds(buf[order[j]], dev, blockno)
        decreases NBUF - k
      {
        if buf[r].dev == dev && buf[r].blockno == blockno { return; }
        r := next[r];
        k := k + 1;
      }
      forall i: nat | i < NBUF ensures !Holds(buf[i], dev, blockno) {
        Onto(order, NBUF, i);
      }
    }

    /** Walk backward from the least recently used buffer. */
    method FindFree() returns (r: nat)
      requires Valid()
      ensures r <= NBUF
      ensures r < NBUF ==> LeastRecentFree(View(), r)
      ensures r == NBUF ==> forall i :: 0 <= i < NBUF ==> buf[i].refcnt > 0
    {
      assert Ring(order)[NBUF + 1] == HEAD;
      r := prev[HEAD];
      ghost var k: int := NBUF - 1;
      while r != HEAD
        invariant -1 <= k < NBUF && r == Ring(order)[k + 1]
        invariant forall j :: k < j < NBUF ==> buf[order[j]].refcnt > 0
        decreases k
      {
        if buf[r].refcnt == 0 {
          assert View().order[k] == r;
          return;
        }
        r := prev[r];
        k := k - 1;
      }
      forall i: nat | i < NBUF ensures buf[i].refcnt > 0 {
        Onto(order, NBUF, i);
      }
    }

    /** bget up to the release of bcache.lock; None is the "no buffers" panic. */
    method Bget(dev: nat, blockno: int) returns (r: Option<nat>)
      requires Valid()
      modifies buf
      ensures Valid() && WellFormed(old(View())) && Picks(old(View()), dev, blockno, r)
      ensures View() == if r.Some? then Taken(old(View()), r.value, dev, blockno) else old(View())
    {
      var i := FindCached(dev, blockno);
      if i < NBUF {
        buf[i] := buf[i].(refcnt := buf[i].refcnt + 1);
        return Some(i);
      }
      i := FindFree();
      if i == NBUF { return None; }
      buf[i] := Buf(dev, blockno, false, 1, buf[i].data);
      return Some(i);
    }

    /** bread's second half: the holder fills the buffer from the disk if needed. */
    method Fill(i: nat, onDisk: Data)
      requires Valid() && i < NBUF
      modifies buf
      ensures Valid()
      ensures View() == if old(buf[i].valid) then old(View())
        else old(View()).(bufs := old(View()).bufs[i := old(buf[i]).(valid := true, data := onDisk)])
    {
      if !buf[i].valid {
        buf[i] := buf[i].(valid := true, data := onDisk);
      }
    }

    method Brelse(i: nat)
      requires Valid() && i < NBUF && buf[i].refcnt > 0
      modifies buf, next, prev, this`order
      ensures Valid() && View() == Released(old(View()), i)
    {
      buf[i] := buf[i].(refcnt := buf[i].refcnt - 1);
      if buf[i].refcnt == 0 {
        Onto(order, NBUF, i);
        ghost var k :| 0 <= k < NBUF && order[k] == i;
        WithoutAt(order, k);
        Unlink(i, k);
        InsertFront(i);
      }
    }

    method Bpin(i: nat)
      requires Valid() && i < NBUF
      modifies buf
      ensures Valid() && View() == Counted(old(View()), i, old(buf[i].refcnt) + 1)
    {
      buf[i] := buf[i].(refcnt := buf[i].refcnt + 1);
    }

    method Bunpin(i: nat)
      requires Valid() && i < NBUF && buf[i].refcnt > 0
      modifies buf
      ensures Valid() && View() == Counted(old(View()), i, old(buf[i].refcnt) - 1)
    {
      buf[i] := buf[i].(refcnt := buf[i].refcnt - 1);
    }
  }
}
