/** The code of kernel/kalloc.c and kernel/vm.c over one user page table. */
module AddressSpaces {
  import opened Basics
  import opened PageTable

  /** A page all of whose words are w: kalloc and kfree fill pages with junk. */
  function Fill(w: nat): seq<Pte> { seq(ENTRIES, _ => FromWord(w)) }

  const ALLOC_JUNK: nat := 0x0505_0505_0505_0505
  const FREE_JUNK: nat := 0x0101_0101_0101_0101

  predicate SameAt<T(==)>(m: map<nat, T>, m': map<nat, T>, p: nat) {
    (p in m <==> p in m') && (p in m ==> m[p] == m'[p])
  }

  predicate InRange(u: Vpn, lo: nat, hi: nat) { lo <= Num(u) < hi }

  ghost predicate Vacant(leaf: map<Vpn, Pte>, lo: nat, hi: nat) { forall u :: u in leaf ==> !InRange(u, lo, hi) }

  /** Every mapped user page belongs to its mapping. */
  ghost predicate UserPages(sp: Space) {
    forall v :: v in sp.leaf && IsUser(v) ==> sp.leaf[v].ppn in sp.own && sp.own[sp.leaf[v].ppn] == Leaf(v)
  }

  /** Pages that belong to someone else, and user pages mapped outside [lo, hi), keep their
      owner, and nobody writes to them. */
  ghost predicate Untouched(sp: Space, t: Memory, sp': Space, t': Memory, lo: nat, hi: nat) {
    && sp'.root == sp.root && sp'.own.Keys == sp.own.Keys
    && forall p :: p in sp.own && (sp.own[p] == Other || (sp.own[p].Leaf? && !InRange(sp.own[p].v, lo, hi))) ==>
         sp'.own[p] == sp.own[p] && SameAt(t, t', p)
  }

  // ----- how many pages the tables take --------------------------------------------------------

  /** The positions of the tables that exist. */
  datatype Shape = Shape(mid: set<nat>, low: set<(nat, nat)>)

  function ShapeOf(sp: Space): Shape { Shape(sp.mid.Keys, sp.low.Keys) }

  /** Number of page-table pages walk must allocate for page v. */
  function MissingMid(s: Shape, j: nat): nat { if j in s.mid then 0 else 1 }
  function MissingLow(s: Shape, k: (nat, nat)): nat { if k in s.low then 0 else 1 }
  function Missing(s: Shape, v: nat): nat {
    MissingMid(s, Px(v).j) + MissingLow(s, (Px(v).j, Px(v).i))
  }

  /** The tables that exist once walk has found page v. */
  function With(s: Shape, v: nat): Shape { Shape(s.mid + {Px(v).j}, s.low + {(Px(v).j, Px(v).i)}) }

  /** The same for the n pages from v on, one after the other. */
  function WithRange(s: Shape, v: nat, n: nat): Shape {
    if n == 0 then s else With(WithRange(s, v, n - 1), v + n - 1)
  }

  function TablesFor(s: Shape, v: nat, n: nat): nat {
    if n == 0 then 0 else TablesFor(s, v, n - 1) + Missing(WithRange(s, v, n - 1), v + n - 1)
  }

  /** What mapping n fresh pages from v on takes off the free list. */
  function Needed(s: Shape, v: nat, n: nat): nat { n + TablesFor(s, v, n) }

  lemma OneNew<T>(s: set<T>, s1: set<T>, x: T)
    requires s <= s1
    ensures |(s1 + {x}) - s| == |s1 - s| + if x in s1 then 0 else 1
  {
    if x in s1 { assert s1 + {x} == s1; } else { assert (s1 + {x}) - s == (s1 - s) + {x}; }
  }

  /** The count is the number of tables that were not there before, each counted once. */
  lemma {:induction false} TablesAreNew(s: Shape, v: nat, n: nat)
    ensures s.mid <= WithRange(s, v, n).mid && s.low <= WithRange(s, v, n).low
    ensures TablesFor(s, v, n) == |WithRange(s, v, n).mid - s.mid| + |WithRange(s, v, n).low - s.low|
  {
    hide Px;
    if n > 0 {
      TablesAreNew(s, v, n - 1);
      var s1, x := WithRange(s, v, n - 1), Px(v + n - 1);
      OneNew(s.mid, s1.mid, x.j);
      OneNew(s.low, s1.low, (x.j, x.i));
    } else {
      assert s.mid - s.mid == {} && s.low - s.low == {};
    }
  }

  /** And then nothing is missing for any page of the range. */
  lemma {:induction false} NothingMissing(s: Shape, v: nat, n: nat, a: nat)
    requires v <= a < v + n
    ensures Missing(WithRange(s, v, n), a) == 0
  {
    hide Px;
    if a < v + n - 1 { NothingMissing(s, v, n - 1, a); }
  }

  lemma {:induction false} TablesGrow(s: Shape, v: nat, m: nat, n: nat)
    requires m <= n
    ensures TablesFor(s, v, m) <= TablesFor(s, v, n)
    decreases n
  {
    if m < n { TablesGrow(s, v, m, n - 1); }
  }

  /** The pages among the first n that another space maps, and what copying them takes. */
  function WithCopies(s: Shape, leaf: map<Vpn, Pte>, n: nat): Shape {
    if n == 0 then s else
      var s' := WithCopies(s, leaf, n - 1);
      if Px(n - 1) in leaf then With(s', n - 1) else s'
  }

  function CopyNeeded(s: Shape, leaf: map<Vpn, Pte>, n: nat): nat {
    if n == 0 then 0 else
      CopyNeeded(s, leaf, n - 1) + if Px(n - 1) in leaf then 1 + Missing(WithCopies(s, leaf, n - 1), n - 1) else 0
  }

  lemma {:induction false} CopiesGrow(s: Shape, leaf: map<Vpn, Pte>, m: nat, n: nat)
    requires m <= n
    ensures CopyNeeded(s, leaf, m) <= CopyNeeded(s, leaf, n)
    decreases n
  {
    if m < n { CopiesGrow(s, leaf, m, n - 1); }
  }

  /** The pages below n that a tree maps. */
  ghost function PagesBelow(leaf: map<Vpn, Pte>, n: nat): set<nat> { set a: nat | a < n && Px(a) in leaf }

  /** The tables there are after the copies: those there before, and one of each level for every
      page copied. */
  lemma {:induction false} CopiesUse(s: Shape, leaf: map<Vpn, Pte>, n: nat)
    ensures WithCopies(s, leaf, n).mid == s.mid + set a | a in PagesBelow(leaf, n) :: Px(a).j
    ensures WithCopies(s, leaf, n).low == s.low + set a | a in PagesBelow(leaf, n) :: (Px(a).j, Px(a).i)
  {
    hide Px;
    if n > 0 {
      CopiesUse(s, leaf, n - 1);
      PagesStep(leaf, n);
    }
  }

  lemma PagesStep(leaf: map<Vpn, Pte>, n: nat)
    requires n > 0
    ensures n - 1 !in PagesBelow(leaf, n - 1)
    ensures PagesBelow(leaf, n) == if Px(n - 1) in leaf then PagesBelow(leaf, n - 1) + {n - 1} else PagesBelow(leaf, n - 1)
  {
    hide Px;
  }

  /** The count is one page for every page of the parent and one for every table that was not there
      before, each counted once. */
  lemma {:induction false} CopiesAreNew(s: Shape, leaf: map<Vpn, Pte>, n: nat)
    ensures s.mid <= WithCopies(s, leaf, n).mid && s.low <= WithCopies(s, leaf, n).low
    ensures CopyNeeded(s, leaf, n) ==
      |PagesBelow(leaf, n)| + |WithCopies(s, leaf, n).mid - s.mid| + |WithCopies(s, leaf, n).low - s.low|
  {
    hide Px, PagesBelow;
    if n > 0 {
      CopiesAreNew(s, leaf, n - 1);
      PagesStep(leaf, n);
      var s1, x := WithCopies(s, leaf, n - 1), Px(n - 1);
      OneNew(s.mid, s1.mid, x.j);
      OneNew(s.low, s1.low, (x.j, x.i));
    } else {
      NoPagesBelow(leaf);
      assert s.mid - s.mid == {} && s.low - s.low == {};
    }
  }

  lemma NoPagesBelow(leaf: map<Vpn, Pte>)
    ensures PagesBelow(leaf, 0) == {}
  {
  }

  // ----- the steps of walk on values -----------------------------------------------------------

  /** Level-1 table j in the first free page. */
  function MemoryWithMid(t: Memory, root: nat, j: nat, p: nat): Memory
    requires HasTable(t, root) && j < ENTRIES && p != root
  {
    var t1 := t[p := ZeroTable()];
    t1[root := t1[root][j := Pte(p, 1)]]
  }

  function SpaceWithMid(sp: Space, j: nat, p: nat): Space { Own(sp, p, Mid(j)).(mid := sp.mid[j := p]) }

  lemma GrowMid(free: seq<nat>, t: Memory, sp: Space, j: nat)
    requires Inv(free, t, sp) && free != [] && j < ENTRIES && j !in sp.mid
    ensures free[0] in sp.own && sp.own[free[0]] == Free && free[0] != sp.root
    ensures Inv(free[1..], MemoryWithMid(t, sp.root, j, free[0]), SpaceWithMid(sp, j, free[0]))
  {
    var p := free[0];
    assert p in free;
    TakePage(free, t, sp);
    var sp1 := Own(sp, p, Other);
    LinkFreshMid(t, sp1, j, p);
    OwnTwice(sp, p, Other, Mid(j));
    MidKeepsFree(free[1..], sp1, j, p);
  }

  lemma OwnTwice(sp: Space, p: nat, r: Role, r': Role)
    ensures Own(Own(sp, p, r), p, r') == Own(sp, p, r')
  {
    assert sp.own[p := r][p := r'] == sp.own[p := r'];
  }

  lemma LinkFreshMid(t: Memory, sp: Space, j: nat, p: nat)
    requires TreeOk(t, sp) && j < ENTRIES && j !in sp.mid && p in sp.own && sp.own[p] == Other
    ensures p != sp.root && TreeOk(MemoryWithMid(t, sp.root, j, p), SpaceWithMid(sp, j, p))
  {
    WriteOther(t, sp, p, ZeroTable());
    LinkMid(t[p := ZeroTable()], sp, j, p, MemoryWithMid(t, sp.root, j, p), SpaceWithMid(sp, j, p));
  }

  lemma LinkFreshLow(t: Memory, sp: Space, k: (nat, nat), p: nat)
    requires TreeOk(t, sp) && k.0 in sp.mid && k.1 < ENTRIES && k !in sp.low && p in sp.own && sp.own[p] == Other
    ensures p != sp.mid[k.0] && HasTable(t, sp.mid[k.0])
    ensures TreeOk(MemoryWithLow(t, sp.mid[k.0], k.1, p), SpaceWithLow(sp, k, p))
  {
    WriteOther(t, sp, p, ZeroTable());
    LinkLow(t[p := ZeroTable()], sp, k, p, MemoryWithLow(t, sp.mid[k.0], k.1, p), SpaceWithLow(sp, k, p));
  }

  /** Reading the entry tells whether the table exists, and where. */
  lemma ReadRoot(free: seq<nat>, t: Memory, sp: Space, j: nat)
    requires Inv(free, t, sp) && j < ENTRIES
    ensures HasTable(t, sp.root) && (V(t[sp.root][j]) <==> j in sp.mid) && sp.root in sp.own && sp.own[sp.root].Root?
    ensures j in sp.mid ==> t[sp.root][j].ppn == sp.mid[j]
  {
  }

  lemma ReadMid(free: seq<nat>, t: Memory, sp: Space, k: (nat, nat))
    requires Inv(free, t, sp) && k.0 in sp.mid && k.1 < ENTRIES
    ensures HasTable(t, sp.mid[k.0]) && (V(t[sp.mid[k.0]][k.1]) <==> k in sp.low)
    ensures sp.mid[k.0] in sp.own && sp.own[sp.mid[k.0]].Mid?
    ensures k in sp.low ==> t[sp.mid[k.0]][k.1].ppn == sp.low[k]
  {
    assert t[sp.mid[k.0]][k.1] == LowEntry(sp.low, (k.0, k.1));
  }

  /** Building on free page p and writing table page q touches nobody else's pages. */
  lemma GrowUntouched(sp: Space, t: Memory, q: nat, content: seq<Pte>, p: nat, r: Role, sp': Space)
    requires q in sp.own && (sp.own[q].Root? || sp.own[q].Mid?) && p in sp.own && sp.own[p] == Free
    requires sp'.root == sp.root && sp'.own == sp.own[p := r]
    ensures Untouched(sp, t, sp', t[p := ZeroTable()][q := content], 0, 0)
  {
  }

  lemma MidKeepsFree(free: seq<nat>, sp: Space, j: nat, p: nat)
    requires FreeOk(free, sp) && p in sp.own && sp.own[p] == Other
    ensures FreeOk(free, SpaceWithMid(sp, j, p))
  {
  }

  function MemoryWithLow(t: Memory, m: nat, i: nat, p: nat): Memory
    requires HasTable(t, m) && i < ENTRIES && p != m
  {
    var t1 := t[p := ZeroTable()];
    t1[m := t1[m][i := Pte(p, 1)]]
  }

  function SpaceWithLow(sp: Space, k: (nat, nat), p: nat): Space { Own(sp, p, Low(k)).(low := sp.low[k := p]) }

  lemma GrowLow(free: seq<nat>, t: Memory, sp: Space, k: (nat, nat))
    requires Inv(free, t, sp) && free != [] && k.0 in sp.mid && k.1 < ENTRIES && k !in sp.low
    ensures free[0] in sp.own && sp.own[free[0]] == Free && free[0] != sp.mid[k.0] && HasTable(t, sp.mid[k.0])
    ensures Inv(free[1..], MemoryWithLow(t, sp.mid[k.0], k.1, free[0]), SpaceWithLow(sp, k, free[0]))
  {
    var p := free[0];
    assert p in free;
    TakePage(free, t, sp);
    var sp1 := Own(sp, p, Other);
    LinkFreshLow(t, sp1, k, p);
    OwnTwice(sp, p, Other, Low(k));
    LowKeepsFree(free[1..], sp1, k, p);
  }

  lemma LowKeepsFree(free: seq<nat>, sp: Space, k: (nat, nat), p: nat)
    requires FreeOk(free, sp) && p in sp.own && sp.own[p] == Other
    ensures FreeOk(free, SpaceWithLow(sp, k, p))
  {
  }

  /** Untouched, except for one page in the caller's hands; its contents stay. */
  ghost predicate Held(sp: Space, t: Memory, sp': Space, t': Memory, q: nat) {
    && sp'.root == sp.root && sp'.own.Keys == sp.own.Keys
    && (forall p :: p in sp.own && p != q && (sp.own[p] == Other || sp.own[p].Leaf?) ==>
         sp'.own[p] == sp.own[p] && SameAt(t, t', p))
    && (q in sp.own && sp.own[q] == Other ==> SameAt(t, t', q))
  }

  lemma GrewHeld(sp0: Space, t0: Memory, sp: Space, t: Memory, q: nat)
    requires Untouched(sp0, t0, sp, t, 0, 0)
    ensures Held(sp0, t0, sp, t, q)
  {
  }

  /** A page that belongs to nobody's tree and is not free. */
  predicate InHand(sp: Space, p: nat) { p in sp.own && sp.own[p] == Other }

  lemma InHandOther(sp: Space, p: nat, hi: nat)
    ensures AllInHand(sp, p, hi) && p < hi ==> InHand(sp, p)
    ensures InHand(sp, p) <==> p in sp.own && sp.own[p] == Other
  {
    assert AllInHand(sp, p, hi) && p < hi ==> InHand(sp, p);
  }

  ghost predicate AllInHand(sp: Space, lo: nat, hi: nat) { forall p :: lo <= p < hi ==> InHand(sp, p) }

  lemma StillInHand(sp: Space, t: Memory, sp': Space, t': Memory, q: nat, lo: nat, hi: nat)
    requires Held(sp, t, sp', t', q) && AllInHand(sp, lo, hi) && (lo == q || hi <= lo)
    ensures AllInHand(sp', lo + 1, hi) && (hi <= lo ==> AllInHand(sp', lo, hi))
  {
    forall p | lo < p < hi ensures InHand(sp', p) { assert InHand(sp, p); }
  }

  /** How many of the n pages from v on lie below the trapframe. */
  function UserPart(v: nat, n: nat): nat {
    if v + n <= TRAPFRAME then n else if v < TRAPFRAME then TRAPFRAME - v else 0
  }

  /** Untouched, except for the owners of the pages lo <= p < hi. */
  ghost predicate Lent(sp: Space, t: Memory, sp': Space, t': Memory, lo: nat, hi: nat) {
    && sp'.root == sp.root && sp'.own.Keys == sp.own.Keys
    && forall p :: p in sp.own && (sp.own[p] == Other || sp.own[p].Leaf?) ==>
         SameAt(t, t', p) && (lo <= p < hi || sp'.own[p] == sp.own[p])
         && (sp'.own[p] == Other || sp'.own[p].Leaf?)
  }

  lemma LentRefl(sp: Space, t: Memory, lo: nat)
    ensures Lent(sp, t, sp, t, lo, lo)
  {
  }

  lemma LentGrew(sp0: Space, t0: Memory, sp1: Space, t1: Memory, sp2: Space, t2: Memory, lo: nat, hi: nat)
    requires Lent(sp0, t0, sp1, t1, lo, hi) && Untouched(sp1, t1, sp2, t2, 0, 0)
    ensures Lent(sp0, t0, sp2, t2, lo, hi)
  {
  }

  lemma LentMore(sp0: Space, t0: Memory, sp1: Space, t1: Memory, sp2: Space, t2: Memory, ppn: nat, v: nat, done: nat)
    requires Lent(sp0, t0, sp1, t1, ppn, ppn + UserPart(v, done))
    requires v + done < TRAPFRAME ==> InHand(sp1, ppn + done) && Held(sp1, t1, sp2, t2, ppn + done)
    requires v + done < TRAPFRAME ==> sp2.own[ppn + done].Leaf?
    requires v + done >= TRAPFRAME ==> Untouched(sp1, t1, sp2, t2, 0, 0)
    ensures Lent(sp0, t0, sp2, t2, ppn, ppn + UserPart(v, done + 1))
  {
  }

  lemma LowNeedsMid(free: seq<nat>, t: Memory, sp: Space, k: (nat, nat))
    requires Inv(free, t, sp)
    ensures k in sp.low ==> k.0 in sp.mid
  {
  }

  lemma LowTable(free: seq<nat>, t: Memory, sp: Space, k: (nat, nat))
    requires Inv(free, t, sp) && k in sp.low
    ensures HasTable(t, sp.low[k]) && sp.low[k] in sp.own && sp.own[sp.low[k]] == Low(k)
  {
  }

  /** Writing one entry of level-0 table l, seen from before the walk that found it. */
  lemma MappedHeld(sp0: Space, t0: Memory, sp: Space, t: Memory, l: nat, x: Vpn, pte: Pte)
    requires Untouched(sp0, t0, sp, t, 0, 0)
    requires HasTable(t, l) && l in sp.own && sp.own[l].Low? && x.h < ENTRIES
    requires IsUser(x) ==> pte.ppn in sp0.own && sp0.own[pte.ppn] == Other
    ensures Held(sp0, t0, WithLeaf(sp, x, pte), t[l := t[l][x.h := pte]], pte.ppn)
    ensures !IsUser(x) ==> Untouched(sp0, t0, WithLeaf(sp, x, pte), t[l := t[l][x.h := pte]], 0, 0)
  {
  }

  /** The mappings outside [lo, hi). */
  ghost function Outside(leaf: map<Vpn, Pte>, lo: nat, hi: nat): map<Vpn, Pte> {
    map u | u in leaf && !InRange(u, lo, hi) :: leaf[u]
  }

  ghost predicate WfKeys(leaf: map<Vpn, Pte>) { forall u :: u in leaf ==> u.i < ENTRIES && u.h < ENTRIES }

  lemma OutsideStep(leaf: map<Vpn, Pte>, lo: nat, a: nat)
    requires WfKeys(leaf) && lo <= a
    ensures Outside(leaf, lo, a) - {Px(a)} == Outside(leaf, lo, a + 1)
  {
    NumPx(a);
    forall u | u in leaf ensures Num(u) == a <==> u == Px(a) { PxNum(u); }
  }

  /** The space after uvmunmap has dropped x: its page, if a user page, is free again. */
  function Dropped(sp: Space, x: Vpn): Space
    requires x in sp.leaf
  {
    (if IsUser(x) then Own(sp, sp.leaf[x].ppn, Free) else sp).(leaf := sp.leaf - {x})
  }

  /** kfree has filled the page of user mapping x with junk. */
  function Unfilled(t: Memory, sp: Space, x: Vpn): Memory
    requires x in sp.leaf
  {
    if IsUser(x) then t[sp.leaf[x].ppn := Fill(FREE_JUNK)] else t
  }

  lemma DropLeaf(free: seq<nat>, t: Memory, sp: Space, x: Vpn)
    requires Inv(free, t, sp) && x in sp.leaf
    ensures (x.j, x.i) in sp.low && x.h < ENTRIES
    ensures var l := sp.low[(x.j, x.i)];
      HasTable(t, l) && t[l][x.h] == sp.leaf[x] && V(sp.leaf[x]) && l in sp.own && sp.own[l].Low? &&
      (IsUser(x) ==> sp.leaf[x].ppn != l) &&
      Inv(if IsUser(x) then [sp.leaf[x].ppn] + free else free, Unfilled(t, sp, x)[l := t[l][x.h := ZERO]], Dropped(sp, x))
  {
    hide Inv;
    LeafPart(free, t, sp);
    hide LeafOk, WfKeys;
    ClearLeaf(free, t, sp, x);
    LeafAt(free, t, sp, x);
    if IsUser(x) {
      var l, p := sp.low[(x.j, x.i)], sp.leaf[x].ppn;
      assert p != l;
      PutPage(free, t[l := t[l][x.h := ZERO]], WithoutLeaf(sp, x), p, Fill(FREE_JUNK));
      OwnTwice(sp, p, Other, Free);
      assert t[l := t[l][x.h := ZERO]][p := Fill(FREE_JUNK)] == Unfilled(t, sp, x)[l := t[l][x.h := ZERO]];
    }
  }

  lemma LeafAt(free: seq<nat>, t: Memory, sp: Space, x: Vpn)
    requires Inv(free, t, sp) && (x.j, x.i) in sp.low && x.h < ENTRIES
    ensures var l := sp.low[(x.j, x.i)];
      && HasTable(t, l) && t[l][x.h] == LeafEntry(sp.leaf, x) && l in sp.own && sp.own[l].Low?
      && (x in sp.leaf ==> V(sp.leaf[x])) && (V(t[l][x.h]) <==> x in sp.leaf)
  {
    assert t[sp.low[(x.j, x.i)]][x.h] == LeafEntry(sp.leaf, Vpn(x.j, x.i, x.h));
  }

  /** An address without a mapping has no page to free. */
  lemma NotMapped(free: seq<nat>, t: Memory, sp: Space, x: Vpn)
    requires Inv(free, t, sp) && ((x.j, x.i) !in sp.low || x !in sp.leaf) && x.i < ENTRIES && x.h < ENTRIES
    ensures x !in sp.leaf && sp.leaf - {x} == sp.leaf
    ensures Untouched(sp, t, sp, t, Num(x), Num(x) + 1) && Freed(sp, sp, Num(x), Num(x) + 1) && NoLoss(sp, sp)
  {
    forall p | p in sp.own && sp.own[p].Leaf? ensures Num(sp.own[p].v) != Num(x) {
      PxNum(sp.own[p].v);
      PxNum(x);
    }
  }

  lemma DroppedUntouched(t: Memory, sp: Space, x: Vpn, l: nat, content: seq<Pte>)
    requires x in sp.leaf && l in sp.own && sp.own[l].Low?
    requires UserPages(sp)
    ensures Untouched(sp, t, Dropped(sp, x), Unfilled(t, sp, x)[l := content], Num(x), Num(x) + 1)
    ensures IsUser(x) ==> sp.leaf[x].ppn in sp.own && sp.own[sp.leaf[x].ppn] == Leaf(x)
  {
    var sp' := Dropped(sp, x);
    if IsUser(x) {
      assert sp'.own.Keys == sp.own.Keys;
    }
  }

  /** Free pages stay free, and the pages of the mappings in [lo, hi) become free. */
  ghost predicate Freed(sp: Space, sp': Space, lo: nat, hi: nat) {
    forall p :: p in sp.own && (sp.own[p] == Free || (sp.own[p].Leaf? && InRange(sp.own[p].v, lo, hi))) ==>
      p in sp'.own && sp'.own[p] == Free
  }

  /** No page is dropped on the floor: whatever is nobody's now was nobody's before. */
  ghost predicate NoLoss(sp: Space, sp': Space) {
    forall p :: p in sp'.own && sp'.own[p] == Other ==> p in sp.own && sp.own[p] == Other
  }

  lemma UntouchedTrans(sp0: Space, t0: Memory, sp1: Space, t1: Memory, sp2: Space, t2: Memory,
                       lo: nat, a: nat, hi: nat)
    requires Untouched(sp0, t0, sp1, t1, lo, a) && Untouched(sp1, t1, sp2, t2, a, hi) && lo <= a <= hi
    ensures Untouched(sp0, t0, sp2, t2, lo, hi)
    ensures Freed(sp0, sp1, lo, a) && Freed(sp1, sp2, a, hi) ==> Freed(sp0, sp2, lo, hi)
  {
  }

  lemma DroppedFrees(sp: Space, x: Vpn)
    requires LeafOk(sp) && WfKeys(sp.leaf) && x in sp.leaf
    ensures Freed(sp, Dropped(sp, x), Num(x), Num(x) + 1) && NoLoss(sp, Dropped(sp, x))
  {
    forall p | p in sp.own && sp.own[p].Leaf? && Num(sp.own[p].v) == Num(x) ensures sp.own[p].v == x {
      PxNum(sp.own[p].v);
      PxNum(x);
    }
  }

  lemma LeafPart(free: seq<nat>, t: Memory, sp: Space)
    requires Inv(free, t, sp)
    ensures LeafOk(sp) && WfKeys(sp.leaf)
    ensures UserPages(sp)
  {
  }

  lemma FreeHead(free: seq<nat>, t: Memory, sp: Space)
    requires Inv(free, t, sp) && free != []
    ensures free[0] in sp.own && sp.own[free[0]] == Free
  {
    assert free[0] in free;
  }

  /** A page that was free is nobody's, so what happens to it touches nobody. */
  lemma TakenUntouched(sp0: Space, t0: Memory, p: nat, content: seq<Pte>, sp: Space, t: Memory)
    requires p in sp0.own && sp0.own[p] == Free
    requires Held(Own(sp0, p, Other), t0[p := content], sp, t, p)
    ensures Untouched(sp0, t0, sp, t, 0, 0)
    ensures p in sp.own && SameAt(t0[p := content], t, p)
  {
  }

  lemma FillTaken(free: seq<nat>, t: Memory, sp: Space, p: nat, content: seq<Pte>)
    requires Inv(free, t, sp) && p in sp.own && sp.own[p] == Other
    ensures Inv(free, t[p := content], sp)
  {
    WriteOther(t, sp, p, content);
  }

  lemma UntouchedRefl(sp: Space, t: Memory)
    ensures Untouched(sp, t, sp, t, 0, 0) && NoLoss(sp, sp)
  {
  }

  lemma GivenBack(sp0: Space, t0: Memory, p: nat, sp: Space, t: Memory, content: seq<Pte>)
    requires p in sp0.own && sp0.own[p] == Free && Untouched(sp0, t0, sp, t, 0, 0)
    ensures Untouched(sp0, t0, Own(sp, p, Free), t[p := content], 0, 0)
  {
  }

  // ----- filled ranges -------------------------------------------------------------------------

  const PTE_V: nat := 1
  const PTE_R: nat := 2
  const PTE_W: nat := 4
  const PTE_X: nat := 8
  const PTE_U: nat := 16

  function PgUp(n: nat): nat { (n + PGSIZE - 1) / PGSIZE }

  /** leaf is leaf0 plus every page of [lo, hi), each mapped with the given flags to a page
      of zeroes. */
  ghost predicate Filled(leaf0: map<Vpn, Pte>, leaf: map<Vpn, Pte>, t: Memory, lo: nat, hi: nat, flags: nat) {
    && (forall u :: u in leaf0 ==> u in leaf && leaf[u] == leaf0[u])
    && (forall n :: lo <= n < hi ==> Px(n) in leaf)
    && (forall u :: u in leaf && u !in leaf0 ==>
          InRange(u, lo, hi) && leaf[u].flags == flags && leaf[u].ppn in t && t[leaf[u].ppn] == ZeroTable())
  }

  /** The free list has the pages that growing from oldsz to newsz takes, tables included. */
  predicate Enough(free: seq<nat>, sp: Space, oldsz: nat, newsz: nat) {
    PgUp(oldsz) <= PgUp(newsz) ==> |free| >= Needed(ShapeOf(sp), PgUp(oldsz), PgUp(newsz) - PgUp(oldsz))
  }

  lemma FilledRefl(leaf: map<Vpn, Pte>, t: Memory, lo: nat, flags: nat)
    ensures Filled(leaf, leaf, t, lo, lo, flags)
  {
  }

  lemma NotFilled(leaf0: map<Vpn, Pte>, leaf: map<Vpn, Pte>, t: Memory, lo: nat, a: nat, hi: nat, flags: nat)
    requires Filled(leaf0, leaf, t, lo, a, flags) && lo <= a < hi && Vacant(leaf0, lo, hi)
    ensures Px(a) !in leaf
  {
    NumPx(a);
  }

  lemma FilledOutside(leaf0: map<Vpn, Pte>, leaf: map<Vpn, Pte>, t: Memory, lo: nat, a: nat, hi: nat, flags: nat)
    requires Filled(leaf0, leaf, t, lo, a, flags) && a <= hi && Vacant(leaf0, lo, hi)
    ensures Outside(leaf, lo, a) == leaf0
  {
  }

  lemma FilledStep(leaf0: map<Vpn, Pte>, t: Memory, sp: Space, t': Memory, sp': Space, lo: nat, a: nat, pte: Pte)
    requires Filled(leaf0, sp.leaf, t, lo, a, pte.flags) && lo <= a < TRAPFRAME && Px(a) !in sp.leaf
    requires UserPages(sp)
    requires Untouched(sp, t, sp', t', 0, 0) && sp'.leaf == sp.leaf[Px(a) := pte]
    requires pte.ppn in t' && t'[pte.ppn] == ZeroTable()
    ensures Filled(leaf0, sp'.leaf, t', lo, a + 1, pte.flags)
  {
    NumPx(a);
    forall u | u in sp.leaf && u !in leaf0 ensures SameAt(t, t', sp.leaf[u].ppn) {
      assert IsUser(u);
    }
  }

  lemma NoneInRange(sp: Space, lo: nat, hi: nat)
    requires LeafOk(sp) && Vacant(sp.leaf, lo, hi)
    ensures NoPages(sp, lo, hi)
  {
  }

  ghost predicate NoPages(sp: Space, lo: nat, hi: nat) {
    forall p :: p in sp.own && sp.own[p].Leaf? ==> !InRange(sp.own[p].v, lo, hi)
  }

  /** What a failed uvmalloc takes back was free before it began. */
  lemma UndoneUntouched(sp0: Space, t0: Memory, sp1: Space, t1: Memory, sp2: Space, t2: Memory,
                        lo: nat, a: nat, hi: nat)
    requires Untouched(sp0, t0, sp1, t1, 0, 0) && Untouched(sp1, t1, sp2, t2, lo, a)
    requires a <= hi && NoPages(sp0, lo, hi)
    ensures Untouched(sp0, t0, sp2, t2, 0, 0)
  {
  }

  lemma EmptyRange(sp: Space, t: Memory, lo: nat)
    ensures Outside(sp.leaf, lo, lo) == sp.leaf && Untouched(sp, t, sp, t, lo, lo) && Freed(sp, sp, lo, lo)
  {
  }

  lemma FilledFits(leaf0: map<Vpn, Pte>, leaf: map<Vpn, Pte>, t: Memory, lo: nat, hi: nat)
    requires Filled(leaf0, leaf, t, lo, hi, PTE_V + PTE_R + PTE_U + PTE_W) && lo <= hi
    requires forall u :: u in leaf0 && IsUser(u) ==> Num(u) < lo
    ensures forall u :: u in leaf && IsUser(u) ==> Num(u) < hi
  {
  }

  // ----- another process's tree --------------------------------------------------------------------

  /** Everything in osp's tree belongs to someone else, seen from sp. */
  ghost predicate Foreign(osp: Space, sp: Space) {
    forall p :: p in osp.own && InTree(osp.own[p]) ==> p in sp.own && sp.own[p] == Other
  }

  lemma ForeignRoot(t: Memory, osp: Space, x: Vpn)
    requires TreeOk(t, osp) && x.j < ENTRIES
    ensures HasTable(t, osp.root) && t[osp.root][x.j] == MidEntry(osp.mid, x.j)
    ensures x.j !in osp.mid ==> x !in osp.leaf
  {
  }

  lemma ForeignMid(t: Memory, osp: Space, x: Vpn)
    requires TreeOk(t, osp) && x.j in osp.mid && x.i < ENTRIES
    ensures HasTable(t, osp.mid[x.j]) && t[osp.mid[x.j]][x.i] == LowEntry(osp.low, (x.j, x.i))
    ensures (x.j, x.i) !in osp.low ==> x !in osp.leaf
  {
  }

  lemma ForeignLow(t: Memory, osp: Space, x: Vpn)
    requires TreeOk(t, osp) && (x.j, x.i) in osp.low && x.h < ENTRIES
    ensures var l := osp.low[(x.j, x.i)];
      HasTable(t, l) && t[l][x.h] == LeafEntry(osp.leaf, x) && (V(t[l][x.h]) <==> x in osp.leaf)
  {
    assert t[osp.low[(x.j, x.i)]][x.h] == LeafEntry(osp.leaf, Vpn(x.j, x.i, x.h));
  }

  lemma ForeignLeaf(t: Memory, osp: Space, sp: Space, x: Vpn)
    requires TreeOk(t, osp) && Foreign(osp, sp) && x in osp.leaf && IsUser(x)
    ensures osp.leaf[x].ppn in sp.own && V(osp.leaf[x]) && !IsTable(Pte(0, osp.leaf[x].flags))
  {
  }

  lemma ForeignKeptUnmap(osp: Space, sp: Space, t: Memory, sp': Space, t': Memory, lo: nat, hi: nat)
    requires TreeOk(t, osp) && Foreign(osp, sp) && Untouched(sp, t, sp', t', lo, hi)
    ensures TreeOk(t', osp) && Foreign(osp, sp')
  {
    hide RootOk, MidOk, LowOk, LeafOk;
    assert forall p :: p in osp.own && InTree(osp.own[p]) ==> SameAt(t, t', p);
    RootFrame(t, osp, t', osp);
    MidFrame(t, osp, t', osp);
    LowFrame(t, osp, t', osp);
  }

  lemma ForeignKept(osp: Space, sp: Space, t: Memory, sp': Space, t': Memory)
    requires TreeOk(t, osp) && Foreign(osp, sp) && Untouched(sp, t, sp', t', 0, 0)
    ensures TreeOk(t', osp) && Foreign(osp, sp')
  {
    ForeignKeptUnmap(osp, sp, t, sp', t', 0, 0);
  }

  /** Mapping x has been copied: same flags, a page of its own, same contents. */
  ghost predicate CopiedAt(leaf: map<Vpn, Pte>, leaf': map<Vpn, Pte>, t: Memory, t': Memory, oleaf: map<Vpn, Pte>, x: Vpn) {
    && x in oleaf && x in leaf' && leaf' == leaf[x := leaf'[x]]
    && leaf'[x].flags == oleaf[x].flags && leaf'[x].ppn in t' && oleaf[x].ppn in t && t'[leaf'[x].ppn] == t[oleaf[x].ppn]
  }

  /** leaf is leaf0 plus the mappings of oleaf below n, with equal contents. */
  ghost predicate Copied(leaf0: map<Vpn, Pte>, leaf: map<Vpn, Pte>, t: Memory, oleaf: map<Vpn, Pte>, n: nat) {
    && (forall u :: u in leaf0 ==> u in leaf && leaf[u] == leaf0[u])
    && (forall u :: u in leaf && u !in leaf0 ==> u in oleaf && Num(u) < n)
    && (forall u :: u in oleaf && Num(u) < n ==> u in leaf && leaf[u].flags == oleaf[u].flags)
    && (forall u :: u in oleaf && Num(u) < n ==> leaf[u].ppn in t && oleaf[u].ppn in t && t[leaf[u].ppn] == t[oleaf[u].ppn])
  }

  lemma CopiedRefl(leaf: map<Vpn, Pte>, t: Memory, oleaf: map<Vpn, Pte>)
    ensures Copied(leaf, leaf, t, oleaf, 0)
  {
  }

  lemma NotCopied(leaf0: map<Vpn, Pte>, leaf: map<Vpn, Pte>, t: Memory, oleaf: map<Vpn, Pte>, i: nat, n: nat)
    requires Copied(leaf0, leaf, t, oleaf, i) && i < n && Vacant(leaf0, 0, n)
    ensures Px(i) !in leaf
  {
    NumPx(i);
  }

  lemma CopiedOutside(leaf0: map<Vpn, Pte>, leaf: map<Vpn, Pte>, t: Memory, oleaf: map<Vpn, Pte>, i: nat, n: nat)
    requires Copied(leaf0, leaf, t, oleaf, i) && i <= n && Vacant(leaf0, 0, n)
    ensures Outside(leaf, 0, i) == leaf0
  {
  }

  /** Neither the parent's pages nor the child's earlier copies have been written to. */
  ghost predicate SameContents(leaf: map<Vpn, Pte>, t: Memory, t': Memory) {
    forall u :: u in leaf && IsUser(u) ==> SameAt(t, t', leaf[u].ppn)
  }

  lemma ContentsKept(osp: Space, t: Memory, sp: Space, t': Memory, sp': Space)
    requires TreeOk(t, osp) && Foreign(osp, sp) && Untouched(sp, t, sp', t', 0, 0)
    requires UserPages(sp)
    ensures SameContents(osp.leaf, t, t') && SameContents(sp.leaf, t, t') && WfKeys(osp.leaf)
  {
    hide RootOk, MidOk;
  }

  lemma CopiedStep(leaf0: map<Vpn, Pte>, oleaf: map<Vpn, Pte>, t: Memory, leaf: map<Vpn, Pte>, t': Memory, leaf': map<Vpn, Pte>, i: nat)
    requires Copied(leaf0, leaf, t, oleaf, i) && i < TRAPFRAME && Px(i) !in leaf && WfKeys(oleaf)
    requires SameContents(oleaf, t, t') && SameContents(leaf, t, t')
    requires if Px(i) in oleaf then CopiedAt(leaf, leaf', t, t', oleaf, Px(i)) else leaf' == leaf
    ensures Copied(leaf0, leaf', t', oleaf, i + 1)
  {
    NumPx(i);
    forall u | u in oleaf && Num(u) == i ensures u == Px(i) { PxNum(u); }
  }

  // ----- exit ----------------------------------------------------------------------------------------

  lemma NoLossTrans(sp0: Space, sp1: Space, sp2: Space)
    requires NoLoss(sp0, sp1) && NoLoss(sp1, sp2)
    ensures NoLoss(sp0, sp2)
  {
  }

  lemma UnlinkUntouched(sp: Space, t: Memory, q: nat, content: seq<Pte>, p: nat, junk: seq<Pte>, sp': Space)
    requires q in sp.own && (sp.own[q].Root? || sp.own[q].Mid?) && p in sp.own && (sp.own[p].Mid? || sp.own[p].Low?)
    requires sp'.root == sp.root && sp'.own == sp.own[p := Free]
    ensures Untouched(sp, t, sp', t[p := junk][q := content], 0, 0) && NoLoss(sp, sp')
  {
  }

  /** A freed table page is filled with junk before the entry that pointed to it is cleared. */
  lemma FreedJunk(free: seq<nat>, t: Memory, q: nat, content: seq<Pte>, sp: Space, p: nat)
    requires Inv(free, t[q := content], sp) && p in sp.own && sp.own[p] == Free && p != q
    ensures Inv(free, t[p := Fill(FREE_JUNK)][q := content], sp)
  {
    WriteOther(t[q := content], sp, p, Fill(FREE_JUNK));
    assert t[q := content][p := Fill(FREE_JUNK)] == t[p := Fill(FREE_JUNK)][q := content];
  }

  /** Entries above the leaves point to mem, so freewalk descends into each of them. */
  lemma TableEntry(free: seq<nat>, t: Memory, sp: Space, k: (nat, nat))
    requires Inv(free, t, sp) && k.0 in sp.mid && k.1 < ENTRIES
    ensures HasTable(t, sp.mid[k.0]) && (V(t[sp.mid[k.0]][k.1]) ==> IsTable(t[sp.mid[k.0]][k.1]))
  {
    assert t[sp.mid[k.0]][k.1] == LowEntry(sp.low, (k.0, k.1));
  }

  lemma RootEntry(free: seq<nat>, t: Memory, sp: Space, j: nat)
    requires Inv(free, t, sp) && j < ENTRIES
    ensures HasTable(t, sp.root) && (V(t[sp.root][j]) ==> IsTable(t[sp.root][j]))
  {
  }

  lemma NoMemoryLeft(free: seq<nat>, t: Memory, sp: Space, j: nat)
    requires Inv(free, t, sp) && forall k :: k in sp.low && k.0 == j ==> ENTRIES <= k.1
    ensures forall k :: k in sp.low ==> k.0 != j
  {
  }

  /** With the tree empty, only the root remains to be freed. */
  lemma LastPage(sp0: Space, t0: Memory, free: seq<nat>, sp: Space, t: Memory, junk: seq<Pte>)
    requires Inv(free, t, sp) && sp.leaf == map[] && forall l :: l in sp.mid ==> ENTRIES <= l
    requires Untouched(sp0, t0, sp, t, 0, 0) && NoLoss(sp0, sp)
    ensures FreeOk([sp.root] + free, Own(sp, sp.root, Free))
    ensures Untouched(sp0, t0, Own(sp, sp.root, Free), t[sp.root := junk], 0, 0)
    ensures sp.root in sp.own && sp0.own.Keys == sp.own.Keys
    ensures forall p :: p in sp0.own ==> Own(sp, sp.root, Free).own[p] == if sp0.own[p] == Other then Other else Free
  {
    assert sp.mid == map[];
    assert sp.low == map[];
    FreeTablePage(free, sp, sp.root, Own(sp, sp.root, Free));
  }

  lemma LeafBelow(free: seq<nat>, t: Memory, sp: Space)
    requires Inv(free, t, sp)
    requires forall u :: u in sp.leaf ==> !InRange(u, TRAMPOLINE, TRAMPOLINE + 1) && !InRange(u, TRAPFRAME, TRAPFRAME + 1)
    ensures forall u :: u in sp.leaf ==> IsUser(u)
  {
  }

  lemma FreshRoot(free: seq<nat>, t: Memory, own: map<nat, Role>)
    requires free != [] && FreeOk(free, Space(0, map[], map[], map[], own))
    requires forall p :: p in own ==> own[p] == Free || own[p] == Other
    ensures free[0] in own
    ensures Inv(free[1..], t[free[0] := ZeroTable()], Space(free[0], map[], map[], map[], own[free[0] := Root]))
  {
    assert free[0] in free;
    assert free == [free[0]] + free[1..];
  }

  /** leaf is leaf0 plus n consecutive pages from v mapped to consecutive physical pages. */
  ghost predicate Mapped(leaf0: map<Vpn, Pte>, leaf: map<Vpn, Pte>, v: nat, n: nat, ppn: nat, perm: nat) {
    && (forall u :: u in leaf0 ==> u in leaf && leaf[u] == leaf0[u])
    && (forall a :: v <= a < v + n ==> Px(a) in leaf && leaf[Px(a)] == Pte(ppn + a - v, WithV(perm)))
    && (forall u :: u in leaf && u !in leaf0 ==> InRange(u, v, v + n))
  }

  lemma NothingMapped(leaf: map<Vpn, Pte>, v: nat, ppn: nat, perm: nat)
    ensures Mapped(leaf, leaf, v, 0, ppn, perm)
  {
  }

  lemma MappedStep(leaf0: map<Vpn, Pte>, leaf: map<Vpn, Pte>, v: nat, n: nat, ppn: nat, perm: nat)
    requires Mapped(leaf0, leaf, v, n, ppn, perm) && Px(v + n) !in leaf
    ensures Mapped(leaf0, leaf[Px(v + n) := Pte(ppn + n, WithV(perm))], v, n + 1, ppn, perm)
  {
    NumPx(v + n);
  }

  lemma NotMappedYet(leaf0: map<Vpn, Pte>, leaf: map<Vpn, Pte>, v: nat, n: nat, ppn: nat, perm: nat)
    requires Mapped(leaf0, leaf, v, n, ppn, perm) && Px(v + n) !in leaf0
    ensures Px(v + n) !in leaf
  {
    NumPx(v + n);
  }

  /** The allocator's pages lie between the end of the kernel and the end of memory. */
  ghost predicate Managed(first: nat, last: nat, sp: Space, t: Memory) {
    forall p :: p in sp.own ==> first <= p < last && p in t
  }

  class AddressSpace {
    const root: nat
    const first: nat         // end, in pages
    const last: nat          // PHYSTOP, in pages
    var free: seq<nat>
    var mem: Memory
    var sz: nat              // p->sz, in bytes
    ghost var sp: Space

    ghost predicate Valid()
      reads this
    {
      Inv(free, mem, sp) && sp.root == root && Managed(first, last, sp, mem)
    }

    constructor (first: nat, last: nat, free: seq<nat>, mem: Memory, ghost own: map<nat, Role>)
      requires free != [] && FreeOk(free, Space(0, map[], map[], map[], own))
      requires Managed(first, last, Space(0, map[], map[], map[], own), mem)
      requires forall p :: p in own ==> own[p] == Free || own[p] == Other
      ensures Valid() && sp.leaf == map[] && sz == 0 && root == free[0]
      ensures sp.own == own[free[0] := Root] && this.free == free[1..]
    {
      root, this.first, this.last := free[0], first, last;
      this.free := free[1..];
      this.mem := mem[free[0] := Fill(ALLOC_JUNK)][free[0] := ZeroTable()];
      sz := 0;
      sp := Space(free[0], map[], map[], map[], own[free[0] := Root]);
      FreshRoot(free, mem, own);
      assert mem[free[0] := Fill(ALLOC_JUNK)][free[0] := ZeroTable()] == mem[free[0] := ZeroTable()];
    }

    /** uvmcreate: an empty page table in the first free page, or none without a free page. */
    static method UvmCreate(first: nat, last: nat, free: seq<nat>, mem: Memory, ghost own: map<nat, Role>)
      returns (r: AddressSpace?)
      requires FreeOk(free, Space(0, map[], map[], map[], own))
      requires Managed(first, last, Space(0, map[], map[], map[], own), mem)
      requires forall p :: p in own ==> own[p] == Free || own[p] == Other
      ensures r == null <==> free == []
      ensures r != null ==> fresh(r) && r.Valid() && r.sp.leaf == map[] && r.sz == 0 && r.root == free[0]
      ensures r != null ==> r.sp.own == own[free[0] := Root] && r.free == free[1..]
    {
      if free == [] { return null; }
      r := new AddressSpace(first, last, free, mem, own);
    }

    // ----- kalloc.c ----------------------------------------------------------------------

    method Kalloc() returns (r: Option<nat>)
      modifies this`free, this`mem
      ensures old(free) == [] ==> r.None? && free == [] && mem == old(mem)
      ensures old(free) != [] ==> r == Some(old(free)[0]) && free == old(free)[1..] && mem == old(mem)[old(free)[0] := Fill(ALLOC_JUNK)]
    {
      if free == [] { return None; }
      r := Some(free[0]);
      free := free[1..];
      mem := mem[r.value := Fill(ALLOC_JUNK)];
    }

    /** kfree panics on a page outside the memory it manages; addresses are whole pages here. */
    method Kfree(p: nat) returns (panic: bool)
      modifies this`free, this`mem
      ensures panic <==> !(first <= p < last)
      ensures panic ==> free == old(free) && mem == old(mem)
      ensures !panic ==> free == [p] + old(free) && mem == old(mem)[p := Fill(FREE_JUNK)]
    {
      if p < first || p >= last { return true; }
      mem := mem[p := Fill(FREE_JUNK)];
      free := [p] + free;
      panic := false;
    }

    // ----- walk -----------------------------------------------------------------------------

    /** The tree may have grown by pages that were free; nothing else has changed. */
    twostate predicate OnlyGrew()
      reads this
    {
      && Untouched(old(sp), old(mem), sp, mem, 0, 0)
      && sp.leaf == old(sp).leaf
      && old(sp).mid.Keys <= sp.mid.Keys && old(sp).low.Keys <= sp.low.Keys
    }

    twostate predicate Same()
      reads this
    {
      free == old(free) && mem == old(mem) && sp == old(sp)
    }

    /** walk at level 2. */
    method StepRoot(j: nat, alloc: bool) returns (r: Option<nat>)
      requires Valid() && j < ENTRIES
      modifies this`free, this`mem, this`sp
      ensures Valid() && OnlyGrew() && sp.low == old(sp).low
      ensures r.Some? ==> j in sp.mid && r.value == sp.mid[j]
      ensures r.None? ==> j !in sp.mid && (alloc ==> free == [])
      ensures alloc ==> (r.Some? <==> |old(free)| >= MissingMid(ShapeOf(old(sp)), j))
      ensures r.Some? ==> |free| == |old(free)| - MissingMid(ShapeOf(old(sp)), j) && sp.mid.Keys == old(sp).mid.Keys + {j}
      ensures !alloc ==> Same()
    {
      hide Inv;
      ReadRoot(free, mem, sp, j);
      var pte := mem[root][j];
      if V(pte) { return Some(pte.ppn); }
      if !alloc { return None; }
      if free != [] {
        GrowMid(free, mem, sp, j);
        GrowUntouched(sp, mem, root, mem[root][j := Pte(free[0], 1)], free[0], Mid(j), SpaceWithMid(sp, j, free[0]));
      }
      var q := Kalloc();
      if q.None? { return None; }
      var p := q.value;
      mem := mem[p := ZeroTable()];
      assert mem == old(mem)[p := ZeroTable()];
      mem := mem[root := mem[root][j := Pte(p, 1)]];
      sp := SpaceWithMid(sp, j, p);
      r := Some(p);
    }

    /** walk at level 1. */
    method StepMid(m: nat, k: (nat, nat), alloc: bool) returns (r: Option<nat>)
      requires Valid() && k.0 in sp.mid && m == sp.mid[k.0] && k.1 < ENTRIES
      modifies this`free, this`mem, this`sp
      ensures Valid() && OnlyGrew() && sp.mid == old(sp).mid
      ensures r.Some? ==> k in sp.low && r.value == sp.low[k]
      ensures r.None? ==> k !in sp.low && (alloc ==> free == [])
      ensures alloc ==> (r.Some? <==> |old(free)| >= MissingLow(ShapeOf(old(sp)), k))
      ensures r.Some? ==> |free| == |old(free)| - MissingLow(ShapeOf(old(sp)), k) && sp.low.Keys == old(sp).low.Keys + {k}
      ensures !alloc ==> Same()
    {
      hide Inv;
      ReadMid(free, mem, sp, k);
      var pte := mem[m][k.1];
      if V(pte) { return Some(pte.ppn); }
      if !alloc { return None; }
      if free != [] {
        GrowLow(free, mem, sp, k);
        GrowUntouched(sp, mem, m, mem[m][k.1 := Pte(free[0], 1)], free[0], Low(k), SpaceWithLow(sp, k, free[0]));
      }
      var q := Kalloc();
      if q.None? { return None; }
      var p := q.value;
      mem := mem[p := ZeroTable()];
      assert mem == old(mem)[p := ZeroTable()];
      mem := mem[m := mem[m][k.1 := Pte(p, 1)]];
      sp := SpaceWithLow(sp, k, p);
      r := Some(p);
    }

    /** walk: the page of the level-0 table for virtual page v (its entry is v % 512). */
    method Walk(v: nat, alloc: bool) returns (r: Option<nat>)
      requires Valid() && v < MAXPAGE
      modifies this`free, this`mem, this`sp
      ensures Valid() && OnlyGrew()
      ensures var k := (Px(v).j, Px(v).i);
        (r.Some? ==> k in sp.low && r.value == sp.low[k])
        && (r.None? ==> k !in sp.low && (alloc ==> free == []))
      ensures alloc ==> (r.Some? <==> |old(free)| >= Missing(ShapeOf(old(sp)), v))
      ensures alloc && r.Some? ==> |free| == |old(free)| - Missing(ShapeOf(old(sp)), v)
      ensures r.Some? ==> ShapeOf(sp) == With(ShapeOf(old(sp)), v)
      ensures !alloc ==> Same()
    {
      hide Inv;
      LowNeedsMid(free, mem, sp, (Px(v).j, Px(v).i));
      NumPx(v);
      var x := Px(v);
      r := StepRoot(x.j, alloc);
      if r.Some? {
        r := StepMid(r.value, (x.j, x.i), alloc);
      }
    }

    // ----- mappages, uvmunmap ---------------------------------------------------------------

    /** mappages: n consecutive virtual pages mapped to consecutive physical pages, which for the
        user part of the range are in the caller's hands.  It stops short exactly where the free
        list cannot supply a table; what was mapped until then stays. */
    method MapPages(v: nat, n: nat, ppn: nat, perm: nat) returns (done: nat)
      requires Valid() && 0 < n && v + n <= MAXPAGE && !IsTable(Pte(0, WithV(perm)))
      requires forall a :: v <= a < v + n ==> Px(a) !in sp.leaf
      requires AllInHand(sp, ppn, ppn + UserPart(v, n))
      modifies this`free, this`mem, this`sp
      ensures Valid() && done <= n && Mapped(old(sp).leaf, sp.leaf, v, done, ppn, perm)
      ensures Lent(old(sp), old(mem), sp, mem, ppn, ppn + UserPart(v, done))
      ensures TablesFor(ShapeOf(old(sp)), v, done) <= |old(free)|
      ensures done < n ==> |old(free)| < TablesFor(ShapeOf(old(sp)), v, done + 1)
      ensures done == n <==> |old(free)| >= TablesFor(ShapeOf(old(sp)), v, n)
    {
      hide Inv, Lent, Mapped, Held, Missing, With, InHand, ShapeOf, AllInHand, Untouched, Px, Num, WithV, Managed;
      LentRefl(sp, mem, ppn);
      NothingMapped(sp.leaf, v, ppn, perm);
      done := 0;
      while done < n
        invariant done <= n && Valid() && Mapped(old(sp).leaf, sp.leaf, v, done, ppn, perm)
        invariant Lent(old(sp), old(mem), sp, mem, ppn, ppn + UserPart(v, done))
        invariant AllInHand(sp, ppn + UserPart(v, done), ppn + UserPart(v, n))
        invariant |free| == |old(free)| - TablesFor(ShapeOf(old(sp)), v, done)
        invariant ShapeOf(sp) == WithRange(ShapeOf(old(sp)), v, done)
      {
        ghost var sp1, t1 := sp, mem;
        NotMappedYet(old(sp).leaf, sp.leaf, v, done, ppn, perm);
        NumPx(v + done);
        InHandOther(sp, ppn + done, ppn + UserPart(v, n));
        var ok := MapPage(v + done, ppn + done, perm);
        if !ok {
          LentGrew(old(sp), old(mem), sp1, t1, sp, mem, ppn, ppn + UserPart(v, done));
          TablesGrow(ShapeOf(old(sp)), v, done + 1, n);
          return;
        }
        LentMore(old(sp), old(mem), sp1, t1, sp, mem, ppn, v, done);
        MappedStep(old(sp).leaf, sp1.leaf, v, done, ppn, perm);
        StillInHand(sp1, t1, sp, mem, ppn + done, ppn + UserPart(v, done), ppn + UserPart(v, n));
        done := done + 1;
      }
    }

    /** *pte = ..., in level-0 table l. */
    method SetPte(l: nat, x: Vpn, pte: Pte)
      requires Valid() && (x.j, x.i) in sp.low && l == sp.low[(x.j, x.i)] && x.h < ENTRIES
      requires Num(x) < MAXPAGE && x !in sp.leaf && V(pte) && !IsTable(pte)
      requires IsUser(x) ==> pte.ppn in sp.own && sp.own[pte.ppn] == Other
      modifies this`mem, this`sp
      ensures Valid() && sp == WithLeaf(old(sp), x, pte)
      ensures l in old(mem) && x.h < |old(mem)[l]| && mem == old(mem)[l := old(mem)[l][x.h := pte]]
    {
      hide Inv;
      MapLeaf(free, mem, sp, x, pte);
      mem := mem[l := mem[l][x.h := pte]];
      sp := WithLeaf(sp, x, pte);
    }

    /** One turn of mappages' loop.  A page already mapped there is the "remap" panic. */
    method MapPage(v: nat, ppn: nat, perm: nat) returns (ok: bool)
      requires Valid() && v < MAXPAGE && Px(v) !in sp.leaf && !IsTable(Pte(ppn, WithV(perm)))
      requires IsUser(Px(v)) ==> ppn in sp.own && sp.own[ppn] == Other
      modifies this`free, this`mem, this`sp
      ensures Valid() && Held(old(sp), old(mem), sp, mem, ppn)
      ensures ok ==> sp.leaf == old(sp).leaf[Px(v) := Pte(ppn, WithV(perm))]
      ensures ok && IsUser(Px(v)) ==> sp.own[ppn] == Leaf(Px(v))
      ensures !IsUser(Px(v)) ==> Untouched(old(sp), old(mem), sp, mem, 0, 0)
      ensures ok <==> |old(free)| >= Missing(ShapeOf(old(sp)), v)
      ensures ok ==> |free| == |old(free)| - Missing(ShapeOf(old(sp)), v) && ShapeOf(sp) == With(ShapeOf(old(sp)), v)
      ensures !ok ==> free == [] && OnlyGrew() && (IsUser(Px(v)) ==> sp.own[ppn] == Other)
    {
      hide Inv;
      NumPx(v);
      var r := Walk(v, true);
      if r.None? {
        GrewHeld(old(sp), old(mem), sp, mem, ppn);
        return false;
      }
      LowTable(free, mem, sp, (Px(v).j, Px(v).i));
      MappedHeld(old(sp), old(mem), sp, mem, r.value, Px(v), Pte(ppn, WithV(perm)));
      SetPte(r.value, Px(v), Pte(ppn, WithV(perm)));
      ok := true;
    }

    /** One turn of uvmunmap's loop; user pages are freed, the top two are not. */
    method UnmapPage(v: nat)
      requires Valid() && v < MAXPAGE
      modifies this`free, this`mem, this`sp
      ensures Valid() && sp.leaf == old(sp).leaf - {Px(v)} && sp.mid == old(sp).mid && sp.low == old(sp).low
      ensures Untouched(old(sp), old(mem), sp, mem, v, v + 1) && Freed(old(sp), sp, v, v + 1)
      ensures NoLoss(old(sp), sp)
    {
      hide Inv, LeafOk, Untouched, Freed, NoLoss, UserPages, WfKeys, ShapeOf, Missing, With;
      NumPx(v);
      var x := Px(v);
      var r := Walk(v, false);
      if r.None? { NotMapped(free, mem, sp, x); return; }
      LeafAt(free, mem, sp, x);
      var pte := mem[r.value][x.h];
      if !V(pte) { NotMapped(free, mem, sp, x); return; }
      DropLeaf(free, mem, sp, x);
      LeafPart(free, mem, sp);
      DroppedFrees(sp, x);
      DroppedUntouched(mem, sp, x, r.value, mem[r.value][x.h := ZERO]);
      if v < TRAPFRAME {
        var panic := Kfree(pte.ppn);
        assert !panic;
      }
      mem := mem[r.value := mem[r.value][x.h := ZERO]];
      sp := Dropped(sp, x);
    }

    /** uvmunmap: exactly the mappings in the range are gone, and their pages are free. */
    method UvmUnmap(v: nat, n: nat)
      requires Valid() && v + n <= MAXPAGE
      modifies this`free, this`mem, this`sp
      ensures Valid() && sp.leaf == Outside(old(sp).leaf, v, v + n) && sp.mid == old(sp).mid && sp.low == old(sp).low
      ensures Untouched(old(sp), old(mem), sp, mem, v, v + n) && Freed(old(sp), sp, v, v + n)
      ensures NoLoss(old(sp), sp)
    {
      hide Inv, LeafOk;
      LeafPart(free, mem, sp);
      var a := v;
      while a < v + n
        invariant v <= a <= v + n && Valid()
        invariant sp.leaf == Outside(old(sp).leaf, v, a) && sp.mid == old(sp).mid && sp.low == old(sp).low
        invariant Untouched(old(sp), old(mem), sp, mem, v, a) && Freed(old(sp), sp, v, a)
        invariant NoLoss(old(sp), sp)
      {
        ghost var sp1, t1 := sp, mem;
        UnmapPage(a);
        OutsideStep(old(sp).leaf, v, a);
        UntouchedTrans(old(sp), old(mem), sp1, t1, sp, mem, v, a, a + 1);
        a := a + 1;
      }
    }

    // ----- handing out user memory ------------------------------------------------------------

    /** kalloc, fill, mappages, and kfree again if the mapping fails: the common body of
        uvmalloc, uvmcopy and vmfault. */
    method AllocPage(v: nat, perm: nat, content: seq<Pte>) returns (r: Option<nat>)
      requires Valid() && v < TRAPFRAME && Px(v) !in sp.leaf && !IsTable(Pte(0, WithV(perm)))
      modifies this`free, this`mem, this`sp
      ensures Valid() && Untouched(old(sp), old(mem), sp, mem, 0, 0)
      ensures r.Some? ==> sp.leaf == old(sp).leaf[Px(v) := Pte(r.value, WithV(perm))]
      ensures r.Some? ==> r.value in mem && mem[r.value] == content
      ensures r.None? ==> sp.leaf == old(sp).leaf
      ensures r.Some? <==> |old(free)| > Missing(ShapeOf(old(sp)), v)
      ensures r.Some? ==> |free| == |old(free)| - 1 - Missing(ShapeOf(old(sp)), v) && ShapeOf(sp) == With(ShapeOf(old(sp)), v)
    {
      hide Inv, Untouched, Held;
      NumPx(v);
      if free != [] { TakePage(free, mem, sp); FreeHead(free, mem, sp); }
      UntouchedRefl(sp, mem);
      var q := Kalloc();
      if q.None? { return None; }
      var p := q.value;
      sp := Own(sp, p, Other);
      mem := mem[p := content];
      assert mem == old(mem)[p := content];
      FillTaken(free, old(mem), sp, p, content);
      var ok := MapPage(v, p, perm);
      r := Some(p);
      TakenUntouched(old(sp), old(mem), p, content, sp, mem);
      if !ok {
        PutPage(free, mem, sp, p, Fill(FREE_JUNK));
        GivenBack(old(sp), old(mem), p, sp, mem, Fill(FREE_JUNK));
        var panic := Kfree(p);
        assert !panic;
        sp := Own(sp, p, Free);
        r := None;
      }
    }

    /** uvmalloc; 0 means out of memory, and then the mappings are as before. */
    method UvmAlloc(oldsz: nat, newsz: nat, xperm: nat) returns (r: nat)
      requires Valid() && PgUp(newsz) <= TRAPFRAME && xperm in {0, PTE_W, PTE_X, PTE_W + PTE_X}
      requires Vacant(sp.leaf, PgUp(oldsz), PgUp(newsz))
      modifies this`free, this`mem, this`sp
      ensures Valid() && Untouched(old(sp), old(mem), sp, mem, 0, 0)
      ensures newsz < oldsz ==> r == oldsz && sp.leaf == old(sp).leaf
      ensures newsz >= oldsz && Enough(old(free), old(sp), oldsz, newsz) ==>
        r == newsz && Filled(old(sp).leaf, sp.leaf, mem, PgUp(oldsz), PgUp(newsz), PTE_V + PTE_R + PTE_U + xperm)
      ensures newsz >= oldsz && !Enough(old(free), old(sp), oldsz, newsz) ==> r == 0 && sp.leaf == old(sp).leaf
    {
      hide Inv, Untouched, LeafOk, Filled, Missing, With, ShapeOf, Vacant, UserPages, NoPages, Outside;
      hide WfKeys, ZeroTable, Px, Freed, NoLoss, Managed;
      UntouchedRefl(sp, mem);
      LeafPart(free, mem, sp);
      NoneInRange(sp, PgUp(oldsz), PgUp(newsz));
      if newsz < oldsz { return oldsz; }
      ghost var flags := PTE_V + PTE_R + PTE_U + xperm;
      var lo := PgUp(oldsz);
      FilledRefl(sp.leaf, mem, lo, flags);
      var a := lo;
      while a < PgUp(newsz)
        invariant lo <= a <= PgUp(newsz)
        invariant Valid() && Untouched(old(sp), old(mem), sp, mem, 0, 0)
        invariant Filled(old(sp).leaf, sp.leaf, mem, lo, a, flags)
        invariant |free| == |old(free)| - Needed(ShapeOf(old(sp)), lo, a - lo)
        invariant ShapeOf(sp) == WithRange(ShapeOf(old(sp)), lo, a - lo)
      {
        ghost var sp1, t1 := sp, mem;
        LeafPart(free, mem, sp);
        NotFilled(old(sp).leaf, sp.leaf, mem, lo, a, PgUp(newsz), flags);
        var q := AllocPage(a, PTE_R + PTE_U + xperm, ZeroTable());
        UntouchedTrans(old(sp), old(mem), sp1, t1, sp, mem, 0, 0, 0);
        if q.None? {
          TablesGrow(ShapeOf(old(sp)), lo, a - lo + 1, PgUp(newsz) - lo);
          FilledOutside(old(sp).leaf, sp.leaf, t1, lo, a, PgUp(newsz), flags);
          ghost var sp2, t2 := sp, mem;
          UvmUnmap(lo, a - lo);
          UndoneUntouched(old(sp), old(mem), sp2, t2, sp, mem, lo, a, PgUp(newsz));
          return 0;
        }
        FilledStep(old(sp).leaf, t1, sp1, mem, sp, lo, a, Pte(q.value, flags));
        a := a + 1;
      }
      r := newsz;
    }

    /** uvmdealloc: exactly the pages between the rounded sizes are gone. */
    method UvmDealloc(oldsz: nat, newsz: nat) returns (r: nat)
      requires Valid() && PgUp(oldsz) <= TRAPFRAME
      modifies this`free, this`mem, this`sp
      ensures Valid() && r == (if newsz < oldsz then newsz else oldsz)
      ensures newsz >= oldsz ==> Same()
      ensures newsz < oldsz ==> sp.leaf == Outside(old(sp).leaf, PgUp(newsz), PgUp(oldsz))
      ensures newsz < oldsz ==> Untouched(old(sp), old(mem), sp, mem, PgUp(newsz), PgUp(oldsz))
      ensures newsz < oldsz ==> Freed(old(sp), sp, PgUp(newsz), PgUp(oldsz))
    {
      hide Inv;
      if newsz >= oldsz { return oldsz; }
      if PgUp(newsz) < PgUp(oldsz) {
        UvmUnmap(PgUp(newsz), PgUp(oldsz) - PgUp(newsz));
      } else {
        EmptyRange(sp, mem, PgUp(newsz));
      }
      r := newsz;
    }

    // ----- the process --------------------------------------------------------------------------

    /** User mappings lie below the rounded size. */
    ghost predicate Fits()
      reads this
    {
      PgUp(sz) <= TRAPFRAME && forall u :: u in sp.leaf && IsUser(u) ==> Num(u) < PgUp(sz)
    }

    /** growproc.  sz + n is computed in 64 bits, so shrinking below zero wraps around to a
        size uvmdealloc takes for growth, and changes nothing. */
    method GrowProc(n: int) returns (r: int)
      requires Valid() && Fits() && -0x8000_0000 <= n < 0x8000_0000
      modifies this`free, this`mem, this`sp, this`sz
      ensures Valid() && Fits()
      ensures r == 0 || r == -1
      ensures r == -1 <==> n > 0 && (old(sz) + n > TRAPFRAME * PGSIZE || !Enough(old(free), old(sp), old(sz), old(sz) + n))
      ensures r == -1 ==> sz == old(sz) && sp.leaf == old(sp).leaf
      ensures r == 0 && n > 0 ==> sz == old(sz) + n
      ensures r == 0 && n > 0 ==> Filled(old(sp).leaf, sp.leaf, mem, PgUp(old(sz)), PgUp(sz), PTE_V + PTE_R + PTE_U + PTE_W)
      ensures n <= 0 && old(sz) + n >= 0 ==> sz == old(sz) + n && sp.leaf == Outside(old(sp).leaf, PgUp(sz), PgUp(old(sz)))
      ensures old(sz) + n < 0 ==> sz == old(sz) && sp.leaf == old(sp).leaf
    {
      hide Inv, Untouched, Enough;
      if n > 0 {
        if sz + n > TRAPFRAME * PGSIZE { return -1; }
        var s := UvmAlloc(sz, sz + n, PTE_W);
        if s == 0 { return -1; }
        FilledFits(old(sp).leaf, sp.leaf, mem, PgUp(sz), PgUp(s));
        sz := s;
      } else if n < 0 {
        var target := if sz + n >= 0 then sz + n else sz + n + 0x1_0000_0000_0000_0000;
        sz := UvmDealloc(sz, target);
      } else {
        EmptyRange(sp, mem, PgUp(sz));
      }
      r := 0;
    }

    /** sys_sbrk with SBRK_LAZY: only the size changes. */
    method SbrkLazy(n: nat) returns (r: int)
      requires Valid() && Fits() && n < 0x8000_0000
      modifies this`sz
      ensures Valid() && Fits()
      ensures if old(sz) + n > TRAPFRAME * PGSIZE then r == -1 && sz == old(sz) else r == old(sz) && sz == old(sz) + n
    {
      if sz + n > TRAPFRAME * PGSIZE { return -1; }
      r := sz;
      sz := sz + n;
    }

    /** vmfault: a page below the size that has no mapping gets a zeroed one. */
    method VmFault(va: nat) returns (r: Option<nat>)
      requires Valid() && Fits()
      modifies this`free, this`mem, this`sp
      ensures Valid() && Fits() && Untouched(old(sp), old(mem), sp, mem, 0, 0)
      ensures r.Some? <==> va < sz && Px(va / PGSIZE) !in old(sp).leaf && |old(free)| > Missing(ShapeOf(old(sp)), va / PGSIZE)
      ensures r.None? ==> sp.leaf == old(sp).leaf
      ensures r.Some? ==> sp.leaf == old(sp).leaf[Px(va / PGSIZE) := Pte(r.value, PTE_V + PTE_R + PTE_W + PTE_U)]
      ensures r.Some? ==> r.value in mem && mem[r.value] == ZeroTable()
    {
      hide Inv, Untouched;
      UntouchedRefl(sp, mem);
      if va >= sz { return None; }
      var v := va / PGSIZE;
      NumPx(v);
      var mapped := IsMapped(v);
      if mapped { return None; }
      r := AllocPage(v, PTE_R + PTE_W + PTE_U, ZeroTable());
    }

    method IsMapped(v: nat) returns (b: bool)
      requires Valid() && v < MAXPAGE
      modifies this`free, this`mem, this`sp
      ensures Valid() && Same() && b == (Px(v) in sp.leaf)
    {
      hide Inv;
      NumPx(v);
      var l := Walk(v, false);
      if l.None? { NotMapped(free, mem, sp, Px(v)); return false; }
      LeafAt(free, mem, sp, Px(v));
      b := V(mem[l.value][Px(v).h]);
    }

    // ----- fork --------------------------------------------------------------------------------

    /** walk(old, v, 0) in another process's tree, and the test of the entry found. */
    method ReadForeign(oroot: nat, ghost osp: Space, v: nat) returns (r: Option<Pte>)
      requires TreeOk(mem, osp) && osp.root == oroot && v < MAXPAGE
      ensures r == if Px(v) in osp.leaf then Some(osp.leaf[Px(v)]) else None
    {
      hide TreeOk;
      NumPx(v);
      var x := Px(v);
      ForeignRoot(mem, osp, x);
      var e := mem[oroot][x.j];
      if !V(e) { return None; }
      ForeignMid(mem, osp, x);
      e := mem[e.ppn][x.i];
      if !V(e) { return None; }
      ForeignLow(mem, osp, x);
      e := mem[e.ppn][x.h];
      if !V(e) { return None; }
      r := Some(e);
    }

    /** One turn of uvmcopy's loop. */
    method CopyPage(oroot: nat, ghost osp: Space, v: nat) returns (ok: bool)
      requires Valid() && v < TRAPFRAME && Px(v) !in sp.leaf
      requires TreeOk(mem, osp) && osp.root == oroot && Foreign(osp, sp)
      modifies this`free, this`mem, this`sp
      ensures Valid() && Untouched(old(sp), old(mem), sp, mem, 0, 0)
      ensures !ok || Px(v) !in osp.leaf ==> sp.leaf == old(sp).leaf
      ensures ok && Px(v) in osp.leaf ==> CopiedAt(old(sp).leaf, sp.leaf, old(mem), mem, osp.leaf, Px(v))
      ensures Px(v) in osp.leaf ==> (ok <==> |old(free)| > Missing(ShapeOf(old(sp)), v))
      ensures Px(v) in osp.leaf && ok ==>
        |free| == |old(free)| - 1 - Missing(ShapeOf(old(sp)), v) && ShapeOf(sp) == With(ShapeOf(old(sp)), v)
      ensures Px(v) !in osp.leaf ==> ok && free == old(free) && ShapeOf(sp) == ShapeOf(old(sp))
    {
      hide Inv, Untouched, TreeOk;
      UntouchedRefl(sp, mem);
      var e := ReadForeign(oroot, osp, v);
      if e.None? { return true; }
      NumPx(v);
      ForeignLeaf(mem, osp, sp, Px(v));
      var q := AllocPage(v, e.value.flags, mem[e.value.ppn]);
      ok := q.Some?;
    }

    /** uvmcopy: on success the child has exactly the parent's mappings below n, with the same
        flags and contents in pages of its own; on failure its mappings are as before. */
    method UvmCopy(oroot: nat, ghost osp: Space, n: nat) returns (ok: bool)
      requires Valid() && n <= TRAPFRAME && Vacant(sp.leaf, 0, n)
      requires TreeOk(mem, osp) && osp.root == oroot && Foreign(osp, sp)
      modifies this`free, this`mem, this`sp
      ensures Valid() && Untouched(old(sp), old(mem), sp, mem, 0, 0)
      ensures TreeOk(mem, osp) && Foreign(osp, sp)
      ensures ok <==> |old(free)| >= CopyNeeded(ShapeOf(old(sp)), osp.leaf, n)
      ensures ok ==> Copied(old(sp).leaf, sp.leaf, mem, osp.leaf, n)
      ensures !ok ==> sp.leaf == old(sp).leaf
    {
      hide Inv, Untouched, TreeOk, LeafOk, Copied, Foreign, SameContents, Missing, With, ShapeOf, Vacant;
      hide UserPages, NoPages, Outside, WfKeys, CopiedAt;
      UntouchedRefl(sp, mem);
      LeafPart(free, mem, sp);
      NoneInRange(sp, 0, n);
      CopiedRefl(sp.leaf, mem, osp.leaf);
      var i := 0;
      while i < n
        invariant 0 <= i <= n && Valid() && TreeOk(mem, osp) && Foreign(osp, sp)
        invariant Untouched(old(sp), old(mem), sp, mem, 0, 0)
        invariant Copied(old(sp).leaf, sp.leaf, mem, osp.leaf, i)
        invariant |free| == |old(free)| - CopyNeeded(ShapeOf(old(sp)), osp.leaf, i)
        invariant ShapeOf(sp) == WithCopies(ShapeOf(old(sp)), osp.leaf, i)
      {
        ghost var sp1, t1 := sp, mem;
        LeafPart(free, mem, sp);
        NotCopied(old(sp).leaf, sp.leaf, mem, osp.leaf, i, n);
        ok := CopyPage(oroot, osp, i);
        UntouchedTrans(old(sp), old(mem), sp1, t1, sp, mem, 0, 0, 0);
        ForeignKept(osp, sp1, t1, sp, mem);
        if !ok {
          CopiesGrow(ShapeOf(old(sp)), osp.leaf, i + 1, n);
          CopiedOutside(old(sp).leaf, sp.leaf, t1, osp.leaf, i, n);
          ghost var sp2, t2 := sp, mem;
          UvmUnmap(0, i);
          UndoneUntouched(old(sp), old(mem), sp2, t2, sp, mem, 0, i, n);
          ForeignKeptUnmap(osp, sp2, t2, sp, mem, 0, i);
          return;
        }
        ContentsKept(osp, t1, sp1, mem, sp);
        CopiedStep(old(sp).leaf, osp.leaf, t1, sp1.leaf, mem, sp.leaf, i);
        i := i + 1;
      }
      ok := true;
    }

    // ----- exit ----------------------------------------------------------------------------------

    /** freewalk on a level-0 table, then the clearing of the entry that pointed to it. */
    method FreeLowTable(m: nat, p: nat, k: (nat, nat)) returns (panic: bool)
      requires Valid() && sp.leaf == map[] && k in sp.low && k.0 in sp.mid && p == sp.low[k] && m == sp.mid[k.0] && k.1 < ENTRIES
      modifies this`free, this`mem, this`sp
      ensures !panic && Valid() && sp.leaf == map[] && sp.mid == old(sp).mid && sp.low == old(sp).low - {k}
      ensures Untouched(old(sp), old(mem), sp, mem, 0, 0) && NoLoss(old(sp), sp)
    {
      hide Inv, Untouched, NoLoss;
      panic := false;
      LowTable(free, mem, sp, k);
      ReadMid(free, mem, sp, k);
      var h := 0;
      while h < ENTRIES
        invariant 0 <= h <= ENTRIES && !panic
        modifies {}
      {
        LeafAt(free, mem, sp, Vpn(k.0, k.1, h));
        if V(mem[p][h]) { panic := true; }
        h := h + 1;
      }
      ghost var t', sp' := mem[m := mem[m][k.1 := ZERO]], Own(sp, p, Free).(low := sp.low - {k});
      UnlinkLow(free, mem, sp, k, t', sp');
      FreedJunk([p] + free, mem, m, mem[m][k.1 := ZERO], sp', p);
      UnlinkUntouched(sp, mem, m, mem[m][k.1 := ZERO], p, Fill(FREE_JUNK), sp');
      var outside := Kfree(p);
      panic := panic || outside;
      mem := mem[m := mem[m][k.1 := ZERO]];
      sp := sp';
    }

    /** freewalk on a level-1 table, then the clearing of the root's entry. */
    method FreeMidTable(m: nat, j: nat) returns (panic: bool)
      requires Valid() && sp.leaf == map[] && j in sp.mid && m == sp.mid[j] && j < ENTRIES
      modifies this`free, this`mem, this`sp
      ensures !panic && Valid() && sp.leaf == map[] && sp.mid == old(sp).mid - {j}
      ensures Untouched(old(sp), old(mem), sp, mem, 0, 0) && NoLoss(old(sp), sp)
    {
      hide Inv, Untouched, NoLoss;
      panic := false;
      UntouchedRefl(sp, mem);
      var i := 0;
      while i < ENTRIES
        invariant 0 <= i <= ENTRIES && !panic && Valid() && sp.leaf == map[] && sp.mid == old(sp).mid
        invariant Untouched(old(sp), old(mem), sp, mem, 0, 0) && NoLoss(old(sp), sp)
        invariant forall k :: k in sp.low && k.0 == j ==> i <= k.1
      {
        ghost var sp1, t1 := sp, mem;
        ReadMid(free, mem, sp, (j, i));
        TableEntry(free, mem, sp, (j, i));
        var pte := mem[m][i];
        if IsTable(pte) {
          panic := FreeLowTable(m, pte.ppn, (j, i));
          UntouchedTrans(old(sp), old(mem), sp1, t1, sp, mem, 0, 0, 0);
          NoLossTrans(old(sp), sp1, sp);
        } else if V(pte) {
          panic := true;
        }
        i := i + 1;
      }
      NoMemoryLeft(free, mem, sp, j);
      ReadRoot(free, mem, sp, j);
      ghost var sp1, t1 := sp, mem;
      ghost var t', sp' := mem[root := mem[root][j := ZERO]], Own(sp, m, Free).(mid := sp.mid - {j});
      UnlinkMid(free, mem, sp, j, t', sp');
      ReadMid(free, mem, sp, (j, 0));
      FreedJunk([m] + free, mem, root, mem[root][j := ZERO], sp', m);
      UnlinkUntouched(sp, mem, root, mem[root][j := ZERO], m, Fill(FREE_JUNK), sp');
      var outside := Kfree(m);
      panic := panic || outside;
      mem := mem[root := mem[root][j := ZERO]];
      sp := sp';
      UntouchedTrans(old(sp), old(mem), sp1, t1, sp, mem, 0, 0, 0);
      NoLossTrans(old(sp), sp1, sp);
    }

    /** freewalk on the root: the whole tree is back on the free list. */
    method FreeWalk() returns (panic: bool)
      requires Valid() && sp.leaf == map[]
      modifies this`free, this`mem, this`sp
      ensures !panic && FreeOk(free, sp)
      ensures Untouched(old(sp), old(mem), sp, mem, 0, 0)
      ensures sp.own.Keys == old(sp).own.Keys
      ensures forall p :: p in old(sp).own ==> sp.own[p] == if old(sp).own[p] == Other then Other else Free
    {
      hide Inv, Untouched, NoLoss;
      panic := false;
      UntouchedRefl(sp, mem);
      var j := 0;
      while j < ENTRIES
        invariant 0 <= j <= ENTRIES && !panic && Valid() && sp.leaf == map[]
        invariant Untouched(old(sp), old(mem), sp, mem, 0, 0) && NoLoss(old(sp), sp)
        invariant forall l :: l in sp.mid ==> j <= l
      {
        ghost var sp1, t1 := sp, mem;
        ReadRoot(free, mem, sp, j);
        RootEntry(free, mem, sp, j);
        var pte := mem[root][j];
        if IsTable(pte) {
          panic := FreeMidTable(pte.ppn, j);
          UntouchedTrans(old(sp), old(mem), sp1, t1, sp, mem, 0, 0, 0);
          NoLossTrans(old(sp), sp1, sp);
        } else if V(pte) {
          panic := true;
        }
        j := j + 1;
      }
      LastPage(old(sp), old(mem), free, sp, mem, Fill(FREE_JUNK));
      var outside := Kfree(root);
      panic := panic || outside;
      sp := Own(sp, root, Free);
    }

    /** proc_freepagetable: nothing the process owned is lost, and nothing of anyone else's is
        freed; the "leaf" panic of freewalk cannot happen. */
    method FreeProc() returns (panic: bool)
      requires Valid() && Fits()
      modifies this`free, this`mem, this`sp
      ensures !panic && FreeOk(free, sp)
      ensures sp.own.Keys == old(sp).own.Keys
      ensures forall p :: p in old(sp).own ==> sp.own[p] == if old(sp).own[p] == Other then Other else Free
    {
      hide Inv;
      UvmUnmap(TRAMPOLINE, 1);
      UvmUnmap(TRAPFRAME, 1);
      LeafBelow(free, mem, sp);
      if sz > 0 {
        UvmUnmap(0, PgUp(sz));
      }
      assert sp.leaf == map[];
      panic := FreeWalk();
    }
  }
}
