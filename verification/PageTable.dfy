/** User page tables (kernel/vm.c) built from pages of the free list (kernel/kalloc.c).

    Addresses are counted in pages: virtual page v stands for va = 4096 * v.  The Sv39
    walk (section 4.4 of the RISC-V Privileged Architecture specification, version 1.12)
    uses the indices v / 512 / 512, v / 512 % 512 and v % 512; table 512*j + i of level 0
    hangs off entry i of table j of level 1. */
module PageTable {
  import opened Basics

  const ENTRIES: nat := 512
  const PGSIZE: nat := 4096

  /** MAXVA is 2^38, so there are 2^26 pages; the top two hold trampoline and trapframe. */
  const MAXPAGE: nat := 0x400_0000
  const TRAMPOLINE: nat := MAXPAGE - 1
  const TRAPFRAME: nat := MAXPAGE - 2

  // ----- page-table entries -------------------------------------------------------------

  /** ppn is the physical page, flags the low ten bits: V=1, R=2, W=4, X=8, U=16. */
  datatype Pte = Pte(ppn: nat, flags: nat)

  const ZERO := Pte(0, 0)

  predicate V(p: Pte) { p.flags % 2 == 1 }
  predicate IsTable(p: Pte) { V(p) && p.flags / 2 % 8 == 0 }

  /** perm | PTE_V */
  function WithV(flags: nat): nat { if flags % 2 == 1 then flags else flags + 1 }

  /** PA2PTE, PTE2PA and PTE_FLAGS as integer arithmetic on the 64-bit word. */
  function ToWord(p: Pte): nat { p.ppn * 1024 + p.flags }
  function FromWord(w: nat): Pte { Pte(w / 1024, w % 1024) }

  lemma WordRoundTrip(p: Pte)
    requires p.flags < 1024
    ensures FromWord(ToWord(p)) == p
  {
  }

  // ----- who owns a physical page ---------------------------------------------------------

  /** The three indices of a virtual page. */
  datatype Vpn = Vpn(j: nat, i: nat, h: nat)

  /** PX(2, va), PX(1, va), PX(0, va) */
  function Px(v: nat): Vpn { Vpn(v / ENTRIES / ENTRIES, v / ENTRIES % ENTRIES, v % ENTRIES) }

  function Num(v: Vpn): nat { v.j * (ENTRIES * ENTRIES) + v.i * ENTRIES + v.h }

  lemma PxNum(v: Vpn)
    requires v.i < ENTRIES && v.h < ENTRIES
    ensures Px(Num(v)) == v
  {
    assert Num(v) / ENTRIES == v.j * ENTRIES + v.i;
  }

  lemma NumPx(n: nat)
    ensures Num(Px(n)) == n && Px(n).i < ENTRIES && Px(n).h < ENTRIES
    ensures n < MAXPAGE ==> Px(n).j < ENTRIES
  {
  }

  /** Leaf(k) is the page user page k is mapped to; Other covers everything outside this
      address space: other processes, trapframes, kernel stacks, pages in transit. */
  datatype Role = Free | Root | Mid(j: nat) | Low(k: (nat, nat)) | Leaf(v: Vpn) | Other

  /** The address space: the tree as maps from table position to page, the mappings, and
      the owner of every page the allocator manages. */
  datatype Space = Space(
    root: nat, mid: map<nat, nat>, low: map<(nat, nat), nat>, leaf: map<Vpn, Pte>, own: map<nat, Role>)

  /** Physical memory: a page is 512 words, each read as FromWord reads it, whether it is a page
      table or not. */
  type Memory = map<nat, seq<Pte>>

  function MidEntry(m: map<nat, nat>, j: nat): Pte { if j in m then Pte(m[j], 1) else ZERO }
  function LowEntry(m: map<(nat, nat), nat>, k: (nat, nat)): Pte { if k in m then Pte(m[k], 1) else ZERO }
  function LeafEntry(m: map<Vpn, Pte>, v: Vpn): Pte { if v in m then m[v] else ZERO }

  predicate HasTable(t: Memory, p: nat) { p in t && |t[p]| == ENTRIES }

  /** User pages lie below the trapframe. */
  predicate IsUser(v: Vpn) { Num(v) < TRAPFRAME }

  /** The free list holds exactly the free pages, once each. */
  ghost predicate FreeOk(free: seq<nat>, sp: Space) {
    && Distinct(free)
    && (forall p :: p in free ==> p in sp.own && sp.own[p] == Free)
    && forall p :: p in sp.own && sp.own[p] == Free ==> p in free
  }

  ghost predicate RootOk(t: Memory, sp: Space) {
    && sp.root in sp.own && sp.own[sp.root] == Root
    && HasTable(t, sp.root)
    && (forall p :: p in sp.own && sp.own[p] == Root ==> p == sp.root)
    && forall i :: 0 <= i < ENTRIES ==> t[sp.root][i] == MidEntry(sp.mid, i)
  }

  /** Table j of level 1 is in the page the root points to, and that page has no other use. */
  ghost predicate MidPages(t: Memory, sp: Space) {
    && (forall j :: j in sp.mid ==> j < ENTRIES && sp.mid[j] in sp.own && sp.own[sp.mid[j]] == Mid(j) && HasTable(t, sp.mid[j]))
    && (forall p :: p in sp.own && sp.own[p].Mid? ==> sp.own[p].j in sp.mid && sp.mid[sp.own[p].j] == p)
  }

  ghost predicate MidOk(t: Memory, sp: Space) {
    MidPages(t, sp) && forall j, i: nat :: j in sp.mid && i < ENTRIES ==> t[sp.mid[j]][i] == LowEntry(sp.low, (j, i))
  }

  ghost predicate LowPages(t: Memory, sp: Space) {
    && (forall k :: k in sp.low ==>
          k.0 in sp.mid && k.1 < ENTRIES && sp.low[k] in sp.own && sp.own[sp.low[k]] == Low(k) && HasTable(t, sp.low[k]))
    && (forall p :: p in sp.own && sp.own[p].Low? ==> sp.own[p].k in sp.low && sp.low[sp.own[p].k] == p)
  }

  ghost predicate LowOk(t: Memory, sp: Space) {
    LowPages(t, sp) && forall k, h: nat :: k in sp.low && h < ENTRIES ==> t[sp.low[k]][h] == LeafEntry(sp.leaf, Vpn(k.0, k.1, h))
  }

  /** Each user page is owned through its own mapping. */
  ghost predicate LeafOk(sp: Space) {
    && (forall v :: v in sp.leaf ==> (v.j, v.i) in sp.low && v.h < ENTRIES && Num(v) < MAXPAGE && V(sp.leaf[v]) && !IsTable(sp.leaf[v]))
    && (forall v :: v in sp.leaf && IsUser(v) ==> sp.leaf[v].ppn in sp.own && sp.own[sp.leaf[v].ppn] == Leaf(v))
    && (forall p :: p in sp.own && sp.own[p].Leaf? ==>
          sp.own[p].v in sp.leaf && IsUser(sp.own[p].v) && sp.leaf[sp.own[p].v].ppn == p)
  }

  ghost predicate TreeOk(t: Memory, sp: Space) {
    RootOk(t, sp) && MidOk(t, sp) && LowOk(t, sp) && LeafOk(sp)
  }

  ghost predicate Inv(free: seq<nat>, t: Memory, sp: Space) { FreeOk(free, sp) && TreeOk(t, sp) }

  function Own(sp: Space, p: nat, r: Role): Space { sp.(own := sp.own[p := r]) }

  function ZeroTable(): seq<Pte> { seq(ENTRIES, _ => ZERO) }

  // ----- steps on the tree --------------------------------------------------------------------

  predicate InTree(r: Role) { r.Root? || r.Mid? || r.Low? || r.Leaf? }

  /** A page moving between roles outside the tree leaves the tree alone. */
  lemma TreeFrame(t: Memory, sp: Space, p: nat, r: Role)
    requires TreeOk(t, sp) && p in sp.own && !InTree(sp.own[p]) && !InTree(r)
    ensures TreeOk(t, Own(sp, p, r))
  {
    var sp' := Own(sp, p, r);
    KeptRole(t, sp, p, r, {KRoot});
    KeptRole(t, sp, p, r, {KMid});
    KeptRole(t, sp, p, r, {KLow});
    KeptRole(t, sp, p, r, {KLeaf});
    RootFrame(t, sp, t, sp');
    MidFrame(t, sp, t, sp');
    LowFrame(t, sp, t, sp');
    LeafFrame(t, sp, t, sp');
  }

  /** kalloc: the first free page leaves the list. */
  lemma TakePage(free: seq<nat>, t: Memory, sp: Space)
    requires Inv(free, t, sp) && free != []
    ensures free[0] in sp.own && Inv(free[1..], t, Own(sp, free[0], Other))
  {
    assert free[0] in free;
    TreeFrame(t, sp, free[0], Other);
    assert free == [free[0]] + free[1..];
  }

  /** kfree: a page in nobody's tree is overwritten and joins the list. */
  lemma PutPage(free: seq<nat>, t: Memory, sp: Space, p: nat, content: seq<Pte>)
    requires Inv(free, t, sp) && p in sp.own && sp.own[p] == Other
    ensures Inv([p] + free, t[p := content], Own(sp, p, Free))
  {
    WriteOther(t, sp, p, content);
    TreeFrame(t[p := content], sp, p, Free);
    assert p !in free;
  }

  datatype Kind = KRoot | KMid | KLow | KLeaf | KNone

  function KindOf(r: Role): Kind {
    match r
    case Root => KRoot
    case Mid(_) => KMid
    case Low(_) => KLow
    case Leaf(_) => KLeaf
    case _ => KNone
  }

  /** Pages of these kinds keep their role and table, and no page joins or leaves the kinds. */
  ghost predicate Kept(t: Memory, sp: Space, t': Memory, sp': Space, kinds: set<Kind>) {
    && (forall p :: p in sp.own && KindOf(sp.own[p]) in kinds ==> p in sp'.own && sp'.own[p] == sp.own[p])
    && (forall p :: p in sp'.own && KindOf(sp'.own[p]) in kinds ==> p in sp.own && sp'.own[p] == sp.own[p])
    && (forall p :: p in sp.own && KindOf(sp.own[p]) in kinds && p in t ==> p in t' && t'[p] == t[p])
  }

  /** Writing the table in page q and changing the role of page p concerns only their kinds. */
  lemma KeptElsewhere(t: Memory, sp: Space, q: nat, content: seq<Pte>, p: nat, r: Role, t': Memory, sp': Space, kinds: set<Kind>)
    requires q in sp.own && p in sp.own && t' == t[q := content] && sp'.own == sp.own[p := r]
    requires KindOf(sp.own[q]) !in kinds && KindOf(sp.own[p]) !in kinds && KindOf(r) !in kinds
    ensures Kept(t, sp, t', sp', kinds)
  {
  }

  lemma KeptRole(t: Memory, sp: Space, p: nat, r: Role, kinds: set<Kind>)
    requires p in sp.own && KindOf(sp.own[p]) !in kinds && KindOf(r) !in kinds
    ensures Kept(t, sp, t, Own(sp, p, r), kinds)
  {
  }

  lemma RootFrame(t: Memory, sp: Space, t': Memory, sp': Space)
    requires RootOk(t, sp) && Kept(t, sp, t', sp', {KRoot}) && sp'.root == sp.root && sp'.mid == sp.mid
    ensures RootOk(t', sp')
  {
  }

  lemma MidFrame(t: Memory, sp: Space, t': Memory, sp': Space)
    requires MidOk(t, sp) && Kept(t, sp, t', sp', {KMid}) && sp'.mid == sp.mid && sp'.low == sp.low
    ensures MidOk(t', sp')
  {
  }

  lemma LowFrame(t: Memory, sp: Space, t': Memory, sp': Space)
    requires LowOk(t, sp) && Kept(t, sp, t', sp', {KLow})
    requires (forall k :: k in sp.low && k.0 in sp.mid ==> k.0 in sp'.mid) && sp'.low == sp.low && sp'.leaf == sp.leaf
    ensures LowOk(t', sp')
  {
  }

  lemma LeafFrame(t: Memory, sp: Space, t': Memory, sp': Space)
    requires LeafOk(sp) && Kept(t, sp, t', sp', {KLeaf}) && sp.low.Keys <= sp'.low.Keys && sp'.leaf == sp.leaf
    ensures LeafOk(sp')
  {
  }

  /** Filling a page outside the tree, such as one just taken from the free list. */
  lemma WriteOther(t: Memory, sp: Space, p: nat, content: seq<Pte>)
    requires TreeOk(t, sp) && p in sp.own && !InTree(sp.own[p])
    ensures TreeOk(t[p := content], sp)
  {
    var t' := t[p := content];
    RootFrame(t, sp, t', sp);
    MidFrame(t, sp, t', sp);
    LowFrame(t, sp, t', sp);
  }

  predicate Blank(t: Memory, p: nat) { HasTable(t, p) && forall i :: 0 <= i < ENTRIES ==> t[p][i] == ZERO }

  /** walk links a missing level-1 table into the root. */
  lemma LinkMid(t: Memory, sp: Space, j: nat, p: nat, t': Memory, sp': Space)
    requires TreeOk(t, sp) && j < ENTRIES && j !in sp.mid && p in sp.own && sp.own[p] == Other && Blank(t, p)
    requires t' == t[sp.root := t[sp.root][j := Pte(p, 1)]]
    requires sp' == Own(sp, p, Mid(j)).(mid := sp.mid[j := p])
    ensures TreeOk(t', sp')
  {
    KeptElsewhere(t, sp, sp.root, t[sp.root][j := Pte(p, 1)], p, Mid(j), t', sp', {KLow});
    KeptElsewhere(t, sp, sp.root, t[sp.root][j := Pte(p, 1)], p, Mid(j), t', sp', {KLeaf});
    LinkMidRoot(t, sp, j, p, t', sp');
    LinkMidMid(t, sp, j, p, t', sp');
    LowFrame(t, sp, t', sp');
    LeafFrame(t, sp, t', sp');
  }

  lemma LinkMidRoot(t: Memory, sp: Space, j: nat, p: nat, t': Memory, sp': Space)
    requires RootOk(t, sp) && j < ENTRIES && j !in sp.mid && p in sp.own && sp.own[p] == Other
    requires t' == t[sp.root := t[sp.root][j := Pte(p, 1)]]
    requires sp' == Own(sp, p, Mid(j)).(mid := sp.mid[j := p])
    ensures RootOk(t', sp')
  {
  }

  lemma LinkMidMid(t: Memory, sp: Space, j: nat, p: nat, t': Memory, sp': Space)
    requires MidOk(t, sp) && LowOk(t, sp) && RootOk(t, sp)
    requires j < ENTRIES && j !in sp.mid && p in sp.own && sp.own[p] == Other && Blank(t, p)
    requires t' == t[sp.root := t[sp.root][j := Pte(p, 1)]]
    requires sp' == Own(sp, p, Mid(j)).(mid := sp.mid[j := p])
    ensures MidOk(t', sp')
  {
    LinkMidPages(t, sp, j, p, t', sp');
    forall k, i: nat | k in sp'.mid && i < ENTRIES ensures t'[sp'.mid[k]][i] == LowEntry(sp.low, (k, i)) {
      assert sp'.mid[k] != sp.root;
      if k == j { assert (j, i) !in sp.low; } else { assert t[sp.mid[k]][i] == LowEntry(sp.low, (k, i)); }
    }
  }

  lemma LinkMidPages(t: Memory, sp: Space, j: nat, p: nat, t': Memory, sp': Space)
    requires MidPages(t, sp) && RootOk(t, sp)
    requires j < ENTRIES && j !in sp.mid && p in sp.own && sp.own[p] == Other && HasTable(t, p)
    requires t' == t[sp.root := t[sp.root][j := Pte(p, 1)]]
    requires sp' == Own(sp, p, Mid(j)).(mid := sp.mid[j := p])
    ensures MidPages(t', sp')
  {
  }

  /** walk links a missing level-0 table into its level-1 table. */
  lemma LinkLow(t: Memory, sp: Space, k: (nat, nat), p: nat, t': Memory, sp': Space)
    requires TreeOk(t, sp) && k !in sp.low && k.0 in sp.mid && k.1 < ENTRIES && p in sp.own && sp.own[p] == Other && Blank(t, p)
    requires t' == t[sp.mid[k.0] := t[sp.mid[k.0]][k.1 := Pte(p, 1)]]
    requires sp' == Own(sp, p, Low(k)).(low := sp.low[k := p])
    ensures TreeOk(t', sp')
  {
    KeptElsewhere(t, sp, sp.mid[k.0], t[sp.mid[k.0]][k.1 := Pte(p, 1)], p, Low(k), t', sp', {KRoot});
    KeptElsewhere(t, sp, sp.mid[k.0], t[sp.mid[k.0]][k.1 := Pte(p, 1)], p, Low(k), t', sp', {KLeaf});
    RootFrame(t, sp, t', sp');
    LinkLowMid(t, sp, k, p, t', sp');
    LinkLowLow(t, sp, k, p, t', sp');
    LeafFrame(t, sp, t', sp');
  }

  lemma LinkLowMid(t: Memory, sp: Space, k: (nat, nat), p: nat, t': Memory, sp': Space)
    requires MidOk(t, sp) && k.0 in sp.mid && k.1 < ENTRIES && p in sp.own && sp.own[p] == Other
    requires t' == t[sp.mid[k.0] := t[sp.mid[k.0]][k.1 := Pte(p, 1)]]
    requires sp' == Own(sp, p, Low(k)).(low := sp.low[k := p])
    ensures MidOk(t', sp')
  {
    forall j, i: nat | j in sp.mid && i < ENTRIES ensures t'[sp.mid[j]][i] == LowEntry(sp'.low, (j, i)) {
      assert t[sp.mid[j]][i] == LowEntry(sp.low, (j, i));
      assert j != k.0 ==> sp.mid[j] != sp.mid[k.0];
    }
  }

  lemma LinkLowLow(t: Memory, sp: Space, k: (nat, nat), p: nat, t': Memory, sp': Space)
    requires MidOk(t, sp) && LowOk(t, sp) && LeafOk(sp)
    requires k !in sp.low && k.0 in sp.mid && k.1 < ENTRIES && p in sp.own && sp.own[p] == Other && Blank(t, p)
    requires t' == t[sp.mid[k.0] := t[sp.mid[k.0]][k.1 := Pte(p, 1)]]
    requires sp' == Own(sp, p, Low(k)).(low := sp.low[k := p])
    ensures LowOk(t', sp')
  {
    LinkLowPages(t, sp, k, p, t', sp');
    forall l, h: nat | l in sp'.low && h < ENTRIES ensures t'[sp'.low[l]][h] == LeafEntry(sp.leaf, Vpn(l.0, l.1, h)) {
      assert sp'.low[l] != sp.mid[k.0];
      if l == k { assert Vpn(k.0, k.1, h) !in sp.leaf; } else { assert t[sp.low[l]][h] == LeafEntry(sp.leaf, Vpn(l.0, l.1, h)); }
    }
  }

  lemma LinkLowPages(t: Memory, sp: Space, k: (nat, nat), p: nat, t': Memory, sp': Space)
    requires MidPages(t, sp) && LowPages(t, sp)
    requires k !in sp.low && k.0 in sp.mid && k.1 < ENTRIES && p in sp.own && sp.own[p] == Other && HasTable(t, p)
    requires t' == t[sp.mid[k.0] := t[sp.mid[k.0]][k.1 := Pte(p, 1)]]
    requires sp' == Own(sp, p, Low(k)).(low := sp.low[k := p])
    ensures LowPages(t', sp')
  {
  }

  /** One leaf entry written: mapped or cleared. */
  lemma SetLeaf(t: Memory, sp: Space, v: Vpn, sp': Space)
    requires RootOk(t, sp) && MidOk(t, sp) && LowOk(t, sp) && (v.j, v.i) in sp.low && v.h < ENTRIES
    requires sp'.root == sp.root && sp'.mid == sp.mid && sp'.low == sp.low
    requires Kept(t, sp, t, sp', {KRoot, KMid, KLow})
    requires forall u :: u != v ==> LeafEntry(sp'.leaf, u) == LeafEntry(sp.leaf, u)
    ensures var l := sp.low[(v.j, v.i)];
      var t' := t[l := t[l][v.h := LeafEntry(sp'.leaf, v)]];
      RootOk(t', sp') && MidOk(t', sp') && LowOk(t', sp')
  {
    var l := sp.low[(v.j, v.i)];
    var t' := t[l := t[l][v.h := LeafEntry(sp'.leaf, v)]];
    KeptWrite(t, sp, l, t[l][v.h := LeafEntry(sp'.leaf, v)], t', sp', {KRoot});
    KeptWrite(t, sp, l, t[l][v.h := LeafEntry(sp'.leaf, v)], t', sp', {KMid});
    RootFrame(t, sp, t', sp');
    MidFrame(t, sp, t', sp');
    SetLeafLow(t, sp, v, t', sp');
  }

  lemma KeptWrite(t: Memory, sp: Space, q: nat, content: seq<Pte>, t': Memory, sp': Space, kinds: set<Kind>)
    requires Kept(t, sp, t, sp', {KRoot, KMid, KLow}) && kinds <= {KRoot, KMid, KLow}
    requires q in sp.own && KindOf(sp.own[q]) !in kinds && t' == t[q := content]
    ensures Kept(t, sp, t', sp', kinds)
  {
  }

  lemma SetLeafLow(t: Memory, sp: Space, v: Vpn, t': Memory, sp': Space)
    requires LowOk(t, sp) && (v.j, v.i) in sp.low && v.h < ENTRIES
    requires sp'.mid == sp.mid && sp'.low == sp.low && Kept(t, sp, t, sp', {KRoot, KMid, KLow})
    requires forall u :: u != v ==> LeafEntry(sp'.leaf, u) == LeafEntry(sp.leaf, u)
    requires t' == t[sp.low[(v.j, v.i)] := t[sp.low[(v.j, v.i)]][v.h := LeafEntry(sp'.leaf, v)]]
    ensures LowOk(t', sp')
  {
    var kv := (v.j, v.i);
    forall k, h: nat | k in sp.low && h < ENTRIES ensures t'[sp.low[k]][h] == LeafEntry(sp'.leaf, Vpn(k.0, k.1, h)) {
      assert t[sp.low[k]][h] == LeafEntry(sp.leaf, Vpn(k.0, k.1, h));
      assert k != kv ==> sp.low[k] != sp.low[kv];
    }
  }

  /** The space after page ppn has been mapped at v; pages above the user range belong to
      someone else and keep their owner. */
  function WithLeaf(sp: Space, v: Vpn, pte: Pte): Space {
    (if IsUser(v) then Own(sp, pte.ppn, Leaf(v)) else sp).(leaf := sp.leaf[v := pte])
  }

  function WithoutLeaf(sp: Space, v: Vpn): Space
    requires v in sp.leaf
  {
    (if IsUser(v) then Own(sp, sp.leaf[v].ppn, Other) else sp).(leaf := sp.leaf - {v})
  }

  /** What SetLeaf needs to know about the space after a mapping has changed. */
  ghost predicate OnlyLeafChanged(free: seq<nat>, t: Memory, sp: Space, sp': Space, v: Vpn, pte: Pte) {
    && sp'.root == sp.root && sp'.mid == sp.mid && sp'.low == sp.low
    && FreeOk(free, sp') && Kept(t, sp, t, sp', {KRoot, KMid, KLow})
    && LeafEntry(sp'.leaf, v) == pte
    && forall u :: u != v ==> LeafEntry(sp'.leaf, u) == LeafEntry(sp.leaf, u)
  }

  lemma MapLeafFrame(free: seq<nat>, t: Memory, sp: Space, v: Vpn, pte: Pte)
    requires FreeOk(free, sp) && (IsUser(v) ==> pte.ppn in sp.own && sp.own[pte.ppn] == Other)
    ensures OnlyLeafChanged(free, t, sp, WithLeaf(sp, v, pte), v, pte)
  {
  }

  lemma ClearLeafFrame(free: seq<nat>, t: Memory, sp: Space, v: Vpn)
    requires FreeOk(free, sp) && LeafOk(sp) && v in sp.leaf
    ensures OnlyLeafChanged(free, t, sp, WithoutLeaf(sp, v), v, ZERO)
  {
  }

  lemma ChangeLeaf(free: seq<nat>, t: Memory, sp: Space, v: Vpn, sp': Space, pte: Pte)
    requires RootOk(t, sp) && MidOk(t, sp) && LowOk(t, sp) && (v.j, v.i) in sp.low && v.h < ENTRIES
    requires OnlyLeafChanged(free, t, sp, sp', v, pte) && LeafOk(sp')
    ensures var l := sp.low[(v.j, v.i)];
      HasTable(t, l) && Inv(free, t[l := t[l][v.h := pte]], sp')
  {
    SetLeaf(t, sp, v, sp');
  }

  lemma MapLeaf(free: seq<nat>, t: Memory, sp: Space, v: Vpn, pte: Pte)
    requires Inv(free, t, sp) && (v.j, v.i) in sp.low && v.h < ENTRIES && Num(v) < MAXPAGE && v !in sp.leaf && V(pte) && !IsTable(pte)
    requires IsUser(v) ==> pte.ppn in sp.own && sp.own[pte.ppn] == Other
    ensures var l := sp.low[(v.j, v.i)];
      HasTable(t, l) && Inv(free, t[l := t[l][v.h := pte]], WithLeaf(sp, v, pte))
  {
    MapLeafFrame(free, t, sp, v, pte);
    MapLeafRoles(sp, v, pte);
    ChangeLeaf(free, t, sp, v, WithLeaf(sp, v, pte), pte);
  }

  lemma MapLeafRoles(sp: Space, v: Vpn, pte: Pte)
    requires LeafOk(sp) && (v.j, v.i) in sp.low && v.h < ENTRIES && Num(v) < MAXPAGE && v !in sp.leaf && V(pte) && !IsTable(pte)
    requires IsUser(v) ==> pte.ppn in sp.own && sp.own[pte.ppn] == Other
    ensures LeafOk(WithLeaf(sp, v, pte))
  {
  }

  lemma ClearLeaf(free: seq<nat>, t: Memory, sp: Space, v: Vpn)
    requires Inv(free, t, sp) && v in sp.leaf
    ensures (v.j, v.i) in sp.low && v.h < ENTRIES
    ensures var l := sp.low[(v.j, v.i)];
      HasTable(t, l) && Inv(free, t[l := t[l][v.h := ZERO]], WithoutLeaf(sp, v))
  {
    ClearLeafFrame(free, t, sp, v);
    ClearLeafRoles(sp, v);
    ChangeLeaf(free, t, sp, v, WithoutLeaf(sp, v), ZERO);
  }

  lemma ClearLeafRoles(sp: Space, v: Vpn)
    requires LeafOk(sp) && v in sp.leaf
    ensures LeafOk(WithoutLeaf(sp, v))
  {
  }

  // ----- taking an empty tree apart --------------------------------------------------------------

  lemma FreeTablePage(free: seq<nat>, sp: Space, p: nat, sp': Space)
    requires FreeOk(free, sp) && p in sp.own && sp.own[p] != Free && sp'.own == sp.own[p := Free]
    ensures FreeOk([p] + free, sp')
  {
    assert p !in free;
  }

  /** freewalk returns a level-0 table to the free list and clears the entry above it. */
  lemma UnlinkLow(free: seq<nat>, t: Memory, sp: Space, k: (nat, nat), t': Memory, sp': Space)
    requires Inv(free, t, sp) && sp.leaf == map[] && k in sp.low && k.0 in sp.mid && k.1 < ENTRIES && HasTable(t, sp.mid[k.0])
    requires t' == t[sp.mid[k.0] := t[sp.mid[k.0]][k.1 := ZERO]]
    requires sp' == Own(sp, sp.low[k], Free).(low := sp.low - {k})
    ensures Inv([sp.low[k]] + free, t', sp')
  {
    hide RootOk, MidOk, LowOk, LeafOk, FreeOk;
    UnlinkLowRoles(t, sp, k);
    FreeTablePage(free, sp, sp.low[k], sp');
    KeptElsewhere(t, sp, sp.mid[k.0], t[sp.mid[k.0]][k.1 := ZERO], sp.low[k], Free, t', sp', {KRoot});
    RootFrame(t, sp, t', sp');
    UnlinkLowMid(t, sp, k, t', sp');
    UnlinkLowLow(t, sp, k, t', sp');
    NoLeaves(sp, sp');
  }

  lemma UnlinkLowRoles(t: Memory, sp: Space, k: (nat, nat))
    requires MidOk(t, sp) && LowOk(t, sp) && k in sp.low
    ensures sp.low[k] in sp.own && sp.own[sp.low[k]] == Low(k) && sp.mid[k.0] in sp.own && sp.own[sp.mid[k.0]] == Mid(k.0)
  {
  }

  lemma NoLeaves(sp: Space, sp': Space)
    requires LeafOk(sp) && sp.leaf == map[] && sp'.leaf == map[]
    requires forall p :: p in sp'.own && sp'.own[p].Leaf? ==> p in sp.own && sp.own[p].Leaf?
    ensures LeafOk(sp')
  {
  }

  lemma UnlinkLowMid(t: Memory, sp: Space, k: (nat, nat), t': Memory, sp': Space)
    requires MidOk(t, sp) && LowOk(t, sp) && k in sp.low && HasTable(t, sp.mid[k.0])
    requires t' == t[sp.mid[k.0] := t[sp.mid[k.0]][k.1 := ZERO]]
    requires sp' == Own(sp, sp.low[k], Free).(low := sp.low - {k})
    ensures MidOk(t', sp')
  {
    forall j, i: nat | j in sp.mid && i < ENTRIES ensures t'[sp.mid[j]][i] == LowEntry(sp'.low, (j, i)) {
      assert t[sp.mid[j]][i] == LowEntry(sp.low, (j, i));
      assert j != k.0 ==> sp.mid[j] != sp.mid[k.0];
    }
  }

  lemma UnlinkLowLow(t: Memory, sp: Space, k: (nat, nat), t': Memory, sp': Space)
    requires MidOk(t, sp) && LowOk(t, sp) && k in sp.low && HasTable(t, sp.mid[k.0])
    requires t' == t[sp.mid[k.0] := t[sp.mid[k.0]][k.1 := ZERO]]
    requires sp' == Own(sp, sp.low[k], Free).(low := sp.low - {k})
    ensures LowOk(t', sp')
  {
    UnlinkLowPages(t, sp, k, t', sp');
    forall l, h: nat | l in sp'.low && h < ENTRIES ensures t'[sp'.low[l]][h] == LeafEntry(sp.leaf, Vpn(l.0, l.1, h)) {
      assert sp.low[l] != sp.mid[k.0];
      assert t[sp.low[l]][h] == LeafEntry(sp.leaf, Vpn(l.0, l.1, h));
    }
  }

  lemma UnlinkLowPages(t: Memory, sp: Space, k: (nat, nat), t': Memory, sp': Space)
    requires MidPages(t, sp) && LowPages(t, sp) && k in sp.low && HasTable(t, sp.mid[k.0])
    requires t' == t[sp.mid[k.0] := t[sp.mid[k.0]][k.1 := ZERO]]
    requires sp' == Own(sp, sp.low[k], Free).(low := sp.low - {k})
    ensures LowPages(t', sp')
  {
  }

  /** The same for a level-1 table none of whose entries is left. */
  lemma UnlinkMid(free: seq<nat>, t: Memory, sp: Space, j: nat, t': Memory, sp': Space)
    requires Inv(free, t, sp) && sp.leaf == map[] && j in sp.mid && j < ENTRIES && HasTable(t, sp.root)
    requires forall k :: k in sp.low ==> k.0 != j
    requires t' == t[sp.root := t[sp.root][j := ZERO]]
    requires sp' == Own(sp, sp.mid[j], Free).(mid := sp.mid - {j})
    ensures Inv([sp.mid[j]] + free, t', sp')
  {
    hide RootOk, MidOk, LowOk, LeafOk, FreeOk;
    UnlinkMidRoles(t, sp, j);
    FreeTablePage(free, sp, sp.mid[j], sp');
    UnlinkMidRoot(t, sp, j, t', sp');
    UnlinkMidMid(t, sp, j, t', sp');
    KeptElsewhere(t, sp, sp.root, t[sp.root][j := ZERO], sp.mid[j], Free, t', sp', {KLow});
    LowFrame(t, sp, t', sp');
    NoLeaves(sp, sp');
  }

  lemma UnlinkMidRoles(t: Memory, sp: Space, j: nat)
    requires RootOk(t, sp) && MidOk(t, sp) && j in sp.mid
    ensures sp.mid[j] in sp.own && sp.own[sp.mid[j]] == Mid(j) && sp.root in sp.own && sp.own[sp.root] == Root
  {
  }

  lemma UnlinkMidRoot(t: Memory, sp: Space, j: nat, t': Memory, sp': Space)
    requires RootOk(t, sp) && j < ENTRIES && j in sp.mid && sp.mid[j] in sp.own && sp.own[sp.mid[j]] == Mid(j)
    requires t' == t[sp.root := t[sp.root][j := ZERO]]
    requires sp' == Own(sp, sp.mid[j], Free).(mid := sp.mid - {j})
    ensures RootOk(t', sp')
  {
  }

  lemma UnlinkMidMid(t: Memory, sp: Space, j: nat, t': Memory, sp': Space)
    requires RootOk(t, sp) && MidOk(t, sp) && j < ENTRIES && j in sp.mid
    requires t' == t[sp.root := t[sp.root][j := ZERO]]
    requires sp' == Own(sp, sp.mid[j], Free).(mid := sp.mid - {j})
    ensures MidOk(t', sp')
  {
    forall l, i: nat | l in sp'.mid && i < ENTRIES ensures t'[sp'.mid[l]][i] == LowEntry(sp.low, (l, i)) {
      assert sp.mid[l] != sp.root;
      assert t[sp.mid[l]][i] == LowEntry(sp.low, (l, i));
    }
  }
}
