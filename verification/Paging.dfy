/**
 The kernel's page-table code over physical memory: the frame allocator with its
 reference counts, the walk that allocates missing tables, and the loops that map and
 unmap ranges of pages.
 */
module Paging {
  import opened Collections
  import opened PageTableEntry
  import opened RadixTree

  const PGSIZE: nat := 4096
  const MAXVA: nat := 0x40_0000_0000
  /** The highest page the walk accepts: its test is `va > MAXVA`. */
  const MAXVPN: nat := MAXVA / PGSIZE

  function PageRoundUp(a: nat): (r: nat)
    ensures r % PGSIZE == 0 && a <= r < a + PGSIZE
  {
    (a + PGSIZE - 1) / PGSIZE * PGSIZE
  }

  function PageRoundDown(a: nat): (r: nat)
    ensures r % PGSIZE == 0 && r <= a < r + PGSIZE
  {
    a / PGSIZE * PGSIZE
  }

  /** The first address of page `v`. */
  function PageStart(v: nat): (va: nat)
    ensures va / PGSIZE == v && (va > MAXVA <==> v > MAXVPN)
  {
    v * PGSIZE
  }

  predicate NoDup(s: seq<nat>) {
    forall i, j :: 0 <= i < j < |s| ==> s[i] != s[j]
  }

  /**
   Physical memory as a value: page-table pages, data pages, the allocator's free list
   and its reference counts.
   */
  datatype Mem = Mem(t: Forest, pages: map<nat, seq<nat>>, free: seq<nat>, count: map<nat, nat>)
  {
    /** A frame is on the duplicate-free free list exactly when its count is zero. */
    predicate Counted() {
      && NoDup(free)
      && (forall f :: f in free ==> f in count && count[f] == 0)
      && (forall f :: f in count && count[f] == 0 ==> f in free)
    }

    /** Page-table pages, data pages and free frames are three different things. */
    predicate Apart() {
      && (forall f :: f in t.tables ==> f !in free && f !in pages && (f in count ==> count[f] == 1))
      && (forall f :: f in pages ==> f !in free && f in count)
    }

    predicate Ok() {
      t.Unshared() && Counted() && Apart()
    }
  }

  /** The entry the kernel's walk of page `v` ends at: a superpage leaf, else the last level. */
  function Look(t: Forest, r: nat, v: nat): Pte
    requires t.Unshared() && t.Root(r)
  {
    if IsLeafPte(EntryAt(t, r, v, 1)) then EntryAt(t, r, v, 1) else EntryAt(t, r, v, 0)
  }

  /** The walk of page `v` ends at a superpage. */
  predicate Huge(t: Forest, r: nat, v: nat)
    requires t.Unshared() && t.Root(r)
  {
    IsLeafPte(EntryAt(t, r, v, 1))
  }

  lemma AddTableLook(t: Forest, f: nat, i: nat, n: nat, r: nat, v: nat)
    requires t.Unshared() && f in t.tables && i < ENTRIES && t.level[f] > 0
    requires !t.tables[f][i].v && n !in t.tables && AddTable(t, f, i, n).Unshared() && t.Root(r)
    ensures AddTable(t, f, i, n).Root(r)
    ensures Look(AddTable(t, f, i, n), r, v) == Look(t, r, v)
    ensures Huge(AddTable(t, f, i, n), r, v) == Huge(t, r, v)
  {
    AddTableNode(t, f, i, n, r, v, 0);
    AddTableNode(t, f, i, n, r, v, 1);
  }

  lemma SetPageLook(t: Forest, r0: nat, v0: nat, e: Pte, r: nat, v: nat)
    requires t.Unshared() && t.Root(r0) && Node(t, r0, v0, 0).Some? && v0 < VPNS && v < VPNS
    requires Settable(t, Node(t, r0, v0, 0).value, Index(v0, 0), e)
    requires SetSlot(t, Node(t, r0, v0, 0).value, Index(v0, 0), e).Unshared() && t.Root(r)
    ensures var t' := SetSlot(t, Node(t, r0, v0, 0).value, Index(v0, 0), e);
            && t'.Root(r) && Huge(t', r, v) == Huge(t, r, v)
            && Look(t', r, v) == if r == r0 && v == v0 then e else Look(t, r, v)
  {
    var f := Node(t, r0, v0, 0).value;
    SetSlotEntry(t, f, Index(v0, 0), e, r, v, 0);
    SetSlotEntry(t, f, Index(v0, 0), e, r, v, 1);
    if Node(t, r, v, 0) == Some(f) {
      NodeUnique(t, r, v, r0, v0, 0);
      IndexesDecide(v, v0);
    }
    NodeUp(t, r0, v0);
  }

  /** A walk that reached the last level met no superpage. */
  lemma NodeUp(t: Forest, r: nat, v: nat)
    requires t.Unshared() && t.Root(r) && Node(t, r, v, 0).Some?
    ensures IsPointer(EntryAt(t, r, v, 1))
  {
  }

  // ----- growing by empty tables only -----

  /** Every translation is what it was, in the kernel's reading and in the hardware's. */
  ghost predicate SameMaps(a: Forest, b: Forest) {
    && a.Unshared() && b.Unshared()
    && (forall r :: a.Root(r) ==> b.Root(r))
    && (forall r, v :: a.Root(r) && 0 <= v < VPNS ==>
          Look(b, r, v) == Look(a, r, v) && Walk(b, r, v) == Walk(a, r, v) && Huge(b, r, v) == Huge(a, r, v))
  }

  /** Some frames have left the free list to become tables; nothing else moved. */
  ghost predicate Kept(a: Mem, b: Mem) {
    && b.Ok()
    && b.pages == a.pages
    && |b.free| <= |a.free| && b.free == a.free[|a.free| - |b.free|..]
    && (forall f :: f in b.t.tables <==> f in a.t.tables || (f in a.free && f !in b.free))
    && b.count.Keys == a.count.Keys
    && (forall f :: f in a.count && a.count[f] > 0 ==> b.count[f] == a.count[f])
  }

  /** `b` is `a` after some frames left the free list to become empty tables. */
  ghost predicate Grew(a: Mem, b: Mem) {
    Kept(a, b) && SameMaps(a.t, b.t)
  }

  lemma GrewTrans(a: Mem, b: Mem, c: Mem)
    requires a.Ok() && Grew(a, b) && Grew(b, c)
    ensures Grew(a, c)
  {
    forall r | a.t.Root(r)
      ensures c.t.Root(r)
    {
      assert b.t.Root(r);
    }
  }

  lemma GrewParts(a: Mem, b: Mem)
    requires Grew(a, b)
    ensures Kept(a, b) && SameMaps(a.t, b.t) && b.Ok() && b.t.Unshared()
  {
  }

  lemma GrewRefl(a: Mem)
    requires a.Ok()
    ensures Grew(a, a)
  {
  }

  function NewTable(m: Mem, f: nat, i: nat): Mem
    requires m.t.Sized() && f in m.t.tables && i < ENTRIES && m.t.level[f] > 0 && m.free != []
  {
    m.(t := AddTable(m.t, f, i, m.free[0]), count := m.count[m.free[0] := 1], free := m.free[1..])
  }

  lemma AddTableSame(t: Forest, f: nat, i: nat, n: nat)
    requires t.Unshared() && f in t.tables && i < ENTRIES && t.level[f] > 0
    requires !t.tables[f][i].v && n !in t.tables
    ensures SameMaps(t, AddTable(t, f, i, n))
  {
    AddTableUnshared(t, f, i, n);
    var t' := AddTable(t, f, i, n);
    forall r, v | t.Root(r) && 0 <= v < VPNS
      ensures t'.Root(r) && Look(t', r, v) == Look(t, r, v) && Walk(t', r, v) == Walk(t, r, v)
      ensures Huge(t', r, v) == Huge(t, r, v)
    {
      AddTableLook(t, f, i, n, r, v);
      AddTableWalk(t, f, i, n, r, v);
    }
    forall r | t.Root(r) ensures t'.Root(r) {
      AddTableLook(t, f, i, n, r, 0);
    }
  }

  lemma NewTableGrew(m: Mem, f: nat, i: nat)
    requires m.Ok() && f in m.t.tables && i < ENTRIES && m.t.level[f] > 0 && m.free != []
    requires !m.t.tables[f][i].v
    ensures Grew(m, NewTable(m, f, i)) && NewTable(m, f, i).t.Unshared()
  {
    hide Kept, SameMaps, Mem.Counted;
    assert m.free[0] in m.free;
    AddTableSame(m.t, f, i, m.free[0]);
    AddTableUnshared(m.t, f, i, m.free[0]);
    NewTableKept(m, f, i);
  }

  lemma NewTableKept(m: Mem, f: nat, i: nat)
    requires m.Ok() && m.t.Sized() && f in m.t.tables && i < ENTRIES && m.t.level[f] > 0 && m.free != []
    requires NewTable(m, f, i).t.Unshared()
    ensures Kept(m, NewTable(m, f, i))
  {
    hide Forest.Unshared, AddTable;
    var n := m.free[0];
    assert n in m.free;
    assert forall x :: x in m.free[1..] <==> x in m.free && x != n;
    AddTableKeys(m.t, f, i, n);
  }

  lemma AddTableKeys(t: Forest, f: nat, i: nat, n: nat)
    requires t.Sized() && f in t.tables && i < ENTRIES && t.level[f] > 0
    ensures AddTable(t, f, i, n).tables.Keys == t.tables.Keys + {n}
  {
  }

  lemma KeptTrans(a: Mem, b: Mem, c: Mem)
    requires a.Ok() && Kept(a, b) && Kept(b, c)
    ensures Kept(a, c)
  {
  }

  // ----- a new address space -----

  ghost predicate NoPages(t: Forest, r: nat) {
    && t.Unshared() && t.Root(r)
    && forall v :: 0 <= v < VPNS ==> !Look(t, r, v).v && Walk(t, r, v) == None && !Huge(t, r, v)
  }

  lemma AddRootSame(t: Forest, n: nat)
    requires t.Unshared() && n !in t.tables
    ensures SameMaps(t, AddRoot(t, n)) && NoPages(AddRoot(t, n), n)
  {
    AddRootUnshared(t, n);
    var t' := AddRoot(t, n);
    forall r, v | (r == n || t.Root(r)) && 0 <= v < VPNS
      ensures t'.Root(r) && (r == n ==> !Look(t', r, v).v && Walk(t', r, v) == None && !Huge(t', r, v))
      ensures r != n ==> Look(t', r, v) == Look(t, r, v) && Walk(t', r, v) == Walk(t, r, v)
                         && Huge(t', r, v) == Huge(t, r, v)
    {
      AddRootWalk(t, n, r, v);
    }
  }

  function NewRoot(m: Mem): Mem
    requires m.free != []
  {
    m.(t := AddRoot(m.t, m.free[0]), count := m.count[m.free[0] := 1], free := m.free[1..])
  }

  lemma NewRootGrew(m: Mem)
    requires m.Ok() && m.free != []
    ensures Grew(m, NewRoot(m)) && NoPages(NewRoot(m).t, m.free[0]) && m.free[0] !in m.t.tables
  {
    hide SameMaps, NoPages;
    var n := m.free[0];
    assert n in m.free;
    AddRootSame(m.t, n);
    NewRootKept(m);
  }

  lemma NewRootKept(m: Mem)
    requires m.Ok() && m.free != [] && NewRoot(m).t.Unshared()
    ensures Kept(m, NewRoot(m))
  {
    hide Forest.Unshared, AddRoot;
    var n := m.free[0];
    assert n in m.free;
    assert forall x :: x in m.free[1..] <==> x in m.free && x != n;
    AddRootKeys(m.t, n);
  }

  lemma AddRootKeys(t: Forest, n: nat)
    ensures AddRoot(t, n).tables.Keys == t.tables.Keys + {n}
  {
  }

  // ----- ranges of pages -----

  /** What a last-level entry means to the hardware. */
  function PageLeaf(e: Pte): Option<Leaf> {
    if !e.perm.r && e.perm.w then None else LeafAt(e, 0, 0)
  }

  /** The entry a page of a mapped range gets. */
  function RangePte(v0: nat, ppn0: nat, perm: Perm, v: nat): Pte
    requires v0 <= v
  {
    Pte(true, perm, ppn0 + v - v0)
  }

  /** `b` maps pages `v0 .. v0+n` of `root` to frames `ppn0 ..`; all else is as in `a`. */
  ghost predicate MapsRange(a: Forest, b: Forest, root: nat, v0: nat, n: nat, ppn0: nat, perm: Perm) {
    && a.Unshared() && b.Unshared()
    && (forall r :: a.Root(r) ==> b.Root(r))
    && (forall r, v :: a.Root(r) && 0 <= v < VPNS ==>
          if r == root && v0 <= v < v0 + n
          then Look(b, r, v) == RangePte(v0, ppn0, perm, v) && Walk(b, r, v) == PageLeaf(RangePte(v0, ppn0, perm, v))
          else Look(b, r, v) == Look(a, r, v) && Walk(b, r, v) == Walk(a, r, v))
    && (forall r, v :: a.Root(r) && 0 <= v < VPNS ==> Huge(b, r, v) == Huge(a, r, v))
  }

  lemma MapsNone(t: Forest, root: nat, v0: nat, ppn0: nat, perm: Perm)
    requires t.Unshared()
    ensures MapsRange(t, t, root, v0, 0, ppn0, perm)
  {
  }

  /** `d` is `c` with the entry of one page of `root` replaced by `e`. */
  ghost predicate PageSet(c: Forest, d: Forest, root: nat, v0: nat, e: Pte) {
    && c.Unshared() && d.Unshared()
    && (forall r :: c.Root(r) ==> d.Root(r))
    && (forall r, v :: c.Root(r) && 0 <= v < VPNS ==>
          if r == root && v == v0 then Look(d, r, v) == e && Walk(d, r, v) == PageLeaf(e)
          else Look(d, r, v) == Look(c, r, v) && Walk(d, r, v) == Walk(c, r, v))
    && (forall r, v :: c.Root(r) && 0 <= v < VPNS ==> Huge(d, r, v) == Huge(c, r, v))
  }

  /** `b` has nothing at pages `v0 .. v0+n` of `root`; every other page of every root is as in `a`. */
  ghost predicate UnmapsRange(a: Forest, b: Forest, root: nat, v0: nat, n: nat) {
    && a.Unshared() && b.Unshared()
    && (forall r :: a.Root(r) <==> b.Root(r))
    && (forall r, v :: a.Root(r) && 0 <= v < VPNS ==>
          if r == root && v0 <= v < v0 + n then !Look(b, r, v).v && Walk(b, r, v) == None
          else Look(b, r, v) == Look(a, r, v) && Walk(b, r, v) == Walk(a, r, v))
    && (forall r, v :: a.Root(r) && 0 <= v < VPNS ==> Huge(b, r, v) == Huge(a, r, v))
  }

  lemma UnmapsNone(t: Forest, root: nat, v0: nat)
    requires t.Unshared()
    ensures UnmapsRange(t, t, root, v0, 0)
  {
  }

  lemma UnmapsOneMore(a: Forest, b: Forest, c: Forest, root: nat, v0: nat, n: nat)
    requires UnmapsRange(a, b, root, v0, n) && UnmapsRange(b, c, root, v0 + n, 1)
    ensures UnmapsRange(a, c, root, v0, n + 1)
  {
    hide Forest.Unshared, Look, Walk, Huge, Forest.Root;
  }

  /** Clearing a page's slot unmaps that page. */
  lemma ClearPage(c: Forest, root: nat, v: nat, f: nat, i: nat)
    requires c.Sized() && f in c.tables && i < ENTRIES && PageSet(c, SetSlot(c, f, i, ZERO), root, v, ZERO)
    ensures UnmapsRange(c, SetSlot(c, f, i, ZERO), root, v, 1)
  {
    hide Forest.Unshared, Look, Walk, Huge;
  }

  /** Writing a last-level slot that holds a page or nothing sets that page and no other. */
  lemma SetPage(c: Forest, root: nat, v: nat, f: nat, i: nat, e: Pte)
    requires c.Unshared() && c.Root(root) && v < VPNS && EndsAt(c, root, v, f, i)
    requires !IsPointer(e) && !Huge(c, root, v)
    ensures Settable(c, f, i, e) && PageSet(c, SetSlot(c, f, i, e), root, v, e)
  {
    assert Node(c, root, v, 0) == Some(f) && i == Index(v, 0);
    assert c.SlotOk(f, i);
    SetSlotUnshared(c, f, i, e);
    var d := SetSlot(c, f, i, e);
    forall r, w | c.Root(r) && 0 <= w < VPNS
      ensures d.Root(r)
      ensures Look(d, r, w) == (if r == root && w == v then e else Look(c, r, w))
      ensures Walk(d, r, w) == (if r == root && w == v then PageLeaf(e) else Walk(c, r, w))
      ensures Huge(d, r, w) == Huge(c, r, w)
    {
      SetPageLook(c, root, v, e, r, w);
      SetPageWalk(c, root, v, e, r, w);
    }
  }

  lemma VacantSlot(c: Forest, root: nat, v: nat, f: nat, i: nat)
    requires c.Unshared() && c.Root(root) && EndsAt(c, root, v, f, i) && !Look(c, root, v).v
    ensures !Huge(c, root, v)
  {
  }

  /** One more page: a walk that only grew tables, then a write to that page's slot. */
  lemma MapsOneMore(a: Forest, b: Forest, c: Forest, d: Forest, root: nat, v0: nat, n: nat, ppn0: nat, perm: Perm)
    requires MapsRange(a, b, root, v0, n, ppn0, perm) && SameMaps(b, c)
    requires a.Root(root) && v0 + n < VPNS && PageSet(c, d, root, v0 + n, Pte(true, perm, ppn0 + n))
    ensures MapsRange(a, d, root, v0, n + 1, ppn0, perm)
  {
    hide Forest.Unshared, Look, Walk, Huge;
    forall r | a.Root(r) ensures c.Root(r) && d.Root(r) {
      assert b.Root(r);
    }
  }

  lemma MapOnePage(a: Forest, b: Forest, c: Forest, root: nat, v0: nat, n: nat, ppn0: nat, perm: Perm, f: nat, i: nat)
    requires MapsRange(a, b, root, v0, n, ppn0, perm) && SameMaps(b, c) && LeafPerm(perm)
    requires a.Root(root) && c.Root(root) && c.Unshared() && v0 + n < VPNS && EndsAt(c, root, v0 + n, f, i)
    requires !Look(c, root, v0 + n).v
    ensures Settable(c, f, i, Pte(true, perm, ppn0 + n))
    ensures MapsRange(a, SetSlot(c, f, i, Pte(true, perm, ppn0 + n)), root, v0, n + 1, ppn0, perm)
  {
    hide Forest.Unshared, MapsRange, SameMaps, EndsAt, Settable, Look, PageSet;
    EndsAtLook(c, root, v0 + n, f, i);
    SlotFacts(c, f, i);
    VacantSlot(c, root, v0 + n, f, i);
    SetPage(c, root, v0 + n, f, i, Pte(true, perm, ppn0 + n));
    MapsOneMore(a, b, c, SetSlot(c, f, i, Pte(true, perm, ppn0 + n)), root, v0, n, ppn0, perm);
  }

  /** Page by page: the entry, and the frame and permissions the hardware finds. */
  ghost predicate Translates(t: Forest, root: nat, v0: nat, n: nat, ppn0: nat, perm: Perm)
    requires t.Unshared() && t.Root(root)
  {
    forall v: nat :: v0 <= v < v0 + n ==>
      && Look(t, root, v) == Pte(true, perm, ppn0 + v - v0)
      && Walk(t, root, v) == if LegalLeaf(perm) then Some(Leaf(ppn0 + v - v0, perm)) else None
  }

  lemma MapsTranslate(a: Forest, b: Forest, root: nat, v0: nat, n: nat, ppn0: nat, perm: Perm)
    requires MapsRange(a, b, root, v0, n, ppn0, perm) && a.Root(root) && LeafPerm(perm) && (n > 0 ==> v0 + n <= VPNS)
    ensures b.Unshared() && b.Root(root) && Translates(b, root, v0, n, ppn0, perm)
  {
    hide Forest.Unshared, Look, Walk, Huge;
  }

  // ----- ranges mapped with superpages -----

  /** Page `v` lies in an aligned block of 512 pages that fits between `v0` and `last`. */
  predicate InSuper(v0: nat, last: nat, v: nat) {
    v0 <= v - v % 512 && v - v % 512 + 512 <= last
  }

  /** `v` starts an aligned block of 512 pages that ends by `last`. */
  predicate WholeStep(v: nat, last: nat) {
    v % 512 == 0 && v + 512 <= last
  }

  /** What the hardware makes of page `v`: a misaligned superpage faults. */
  function HugeLeaf(v0: nat, last: nat, ppn0: nat, perm: Perm, v: nat): Option<Leaf>
    requires v0 <= v
  {
    if InSuper(v0, last, v) && ppn0 % 512 != v0 % 512 then None else PageLeaf(RangePte(v0, ppn0, perm, v))
  }

  /** `b` maps the first `n` pages of `v0 .. last` as `map_with_huge` does; all else is as in `a`. */
  ghost predicate WalksRange(a: Forest, b: Forest, root: nat, v0: nat, n: nat, last: nat, ppn0: nat, perm: Perm) {
    && a.Unshared() && b.Unshared()
    && (forall r :: a.Root(r) ==> b.Root(r))
    && (forall r, v :: a.Root(r) && 0 <= v < VPNS ==>
          Walk(b, r, v) == if r == root && v0 <= v < v0 + n then HugeLeaf(v0, last, ppn0, perm, v) else Walk(a, r, v))
  }

  lemma WalksRoot(a: Forest, b: Forest, root: nat, v0: nat, n: nat, last: nat, ppn0: nat, perm: Perm)
    requires WalksRange(a, b, root, v0, n, last, ppn0, perm) && a.Root(root)
    ensures b.Unshared() && b.Root(root)
  {
  }

  /** What the hardware finds page by page: a whole 2 MiB step at a misaligned frame faults. */
  ghost predicate WalksTo(t: Forest, root: nat, v0: nat, n: nat, last: nat, ppn0: nat, perm: Perm)
    requires t.Unshared() && t.Root(root)
  {
    forall v: nat :: v0 <= v < v0 + n ==>
      Walk(t, root, v) == if LegalLeaf(perm) && (v0 % 512 == ppn0 % 512 || !InSuper(v0, last, v))
                          then Some(Leaf(ppn0 + v - v0, perm)) else None
  }

  lemma WalksWhere(a: Forest, b: Forest, root: nat, v0: nat, n: nat, last: nat, ppn0: nat, perm: Perm)
    requires WalksRange(a, b, root, v0, n, last, ppn0, perm) && a.Root(root) && LeafPerm(perm)
    requires n > 0 ==> v0 + n <= VPNS
    ensures b.Unshared() && b.Root(root) && WalksTo(b, root, v0, n, last, ppn0, perm)
  {
    hide Forest.Unshared, Walk, InSuper;
  }

  /** Growing by empty tables keeps what was kept and walked. */
  lemma GrewWalks(a: Mem, b: Mem, c: Mem, root: nat, v0: nat, n: nat, last: nat, ppn0: nat, perm: Perm)
    requires a.Ok() && Kept(a, b) && WalksRange(a.t, b.t, root, v0, n, last, ppn0, perm) && Grew(b, c)
    ensures c.Ok() && Kept(a, c) && WalksRange(a.t, c.t, root, v0, n, last, ppn0, perm)
  {
    hide *;
    GrewParts(b, c);
    KeptTrans(a, b, c);
    WalksSame(a.t, b.t, c.t, root, v0, n, last, ppn0, perm);
  }

  lemma WalksNone(t: Forest, root: nat, v0: nat, last: nat, ppn0: nat, perm: Perm)
    requires t.Unshared()
    ensures WalksRange(t, t, root, v0, 0, last, ppn0, perm)
  {
  }

  lemma WalksSame(a: Forest, b: Forest, c: Forest, root: nat, v0: nat, n: nat, last: nat, ppn0: nat, perm: Perm)
    requires WalksRange(a, b, root, v0, n, last, ppn0, perm) && SameMaps(b, c)
    ensures WalksRange(a, c, root, v0, n, last, ppn0, perm)
  {
    forall r | a.Root(r) ensures c.Root(r) {
      assert b.Root(r);
    }
  }

  lemma WalksOneMore(a: Forest, b: Forest, c: Forest, d: Forest, root: nat, v0: nat, n: nat, last: nat, ppn0: nat,
                     perm: Perm)
    requires WalksRange(a, b, root, v0, n, last, ppn0, perm) && SameMaps(b, c)
    requires a.Root(root) && v0 + n < VPNS && !InSuper(v0, last, v0 + n)
    requires PageSet(c, d, root, v0 + n, Pte(true, perm, ppn0 + n))
    ensures WalksRange(a, d, root, v0, n + 1, last, ppn0, perm)
  {
    hide Forest.Unshared, Look, Walk, Huge;
    forall r | a.Root(r) ensures c.Root(r) && d.Root(r) {
      assert b.Root(r);
    }
  }

  /** One more superpage. */
  lemma WalksHugeMore(a: Forest, b: Forest, c: Forest, root: nat, v0: nat, n: nat, last: nat, ppn0: nat, perm: Perm,
                      f: nat)
    requires WalksRange(a, b, root, v0, n, last, ppn0, perm) && SameMaps(b, c)
    requires a.Root(root) && c.Root(root) && v0 + n < VPNS && LeafPerm(perm)
    requires WholeStep(v0 + n, last)
    requires Node(c, root, v0 + n, 1) == Some(f) && !EntryAt(c, root, v0 + n, 1).v
    ensures Settable(c, f, Index(v0 + n, 1), Pte(true, perm, ppn0 + n))
    ensures WalksRange(a, SetSlot(c, f, Index(v0 + n, 1), Pte(true, perm, ppn0 + n)), root, v0, n + 512, last, ppn0,
                       perm)
  {
    hide Walk, HugeLeaf, LegalLeaf, Index, Look, Huge;
    var v := v0 + n;
    var e := Pte(true, perm, ppn0 + n);
    SetSlotUnshared(c, f, Index(v, 1), e);
    var d := SetSlot(c, f, Index(v, 1), e);
    forall r | a.Root(r) ensures d.Root(r) {
      assert b.Root(r) && c.Root(r);
    }
    forall r, w | a.Root(r) && 0 <= w < VPNS
      ensures Walk(d, r, w)
              == if r == root && v0 <= w < v0 + n + 512 then HugeLeaf(v0, last, ppn0, perm, w) else Walk(a, r, w)
    {
      assert b.Root(r) && c.Root(r);
      SetHugeWalk(c, root, v, e, r, w);
      HugeOffset(v, w);
      if v <= w < v + 512 {
        SuperLeaf(v0, n, last, ppn0, perm, w);
      }
    }
  }

  /** The entry `map_with_huge` would write for page `v` is valid: the middle one of a whole step, else the last. */
  ghost predicate Taken(t: Forest, root: nat, v: nat, last: nat)
    requires t.Unshared() && t.Root(root)
  {
    if WholeStep(v, last) then EntryAt(t, root, v, 1).v else Look(t, root, v).v
  }

  /** What a superpage entry gives each of its pages. */
  lemma SuperLeaf(v0: nat, n: nat, last: nat, ppn0: nat, perm: Perm, w: nat)
    requires (v0 + n) % 512 == 0 && v0 + n + 512 <= last && v0 + n <= w < v0 + n + 512
    ensures HugeLeaf(v0, last, ppn0, perm, w)
         == if LegalLeaf(perm) && (ppn0 + n) % 512 == 0 then Some(Leaf(ppn0 + n + w % 512, perm)) else None
  {
    HugeOffset(v0 + n, w);
    SameOffset(v0, ppn0, n);
  }

  lemma HugeOffset(v: nat, w: nat)
    requires v % 512 == 0
    ensures w / 512 == v / 512 <==> v <= w < v + 512
    ensures v <= w < v + 512 ==> w % 512 == w - v
  {
  }

  lemma SameOffset(v: nat, p: nat, k: nat)
    requires (v + k) % 512 == 0
    ensures (p + k) % 512 == 0 <==> v % 512 == p % 512
  {
  }

  /** The range holds a whole aligned block of 512 pages. */
  predicate HasSuper(v0: nat, n: nat) {
    (v0 + 511) / 512 * 512 + 512 <= v0 + n
  }

  lemma HasSuperIff(v0: nat, n: nat, last: nat)
    requires last == v0 + n
    ensures HasSuper(v0, n) ==> InSuper(v0, last, (v0 + 511) / 512 * 512)
    ensures forall v: nat :: InSuper(v0, last, v) ==> HasSuper(v0, n)
  {
    forall v: nat | InSuper(v0, last, v) ensures HasSuper(v0, n) {
      assert v - v % 512 == v / 512 * 512;
    }
  }

  /**
   Superpages are transparent exactly when they may be: of the same memory and the same
   arguments, the table `map_with_huge` leaves translates every address as the table
   `map` leaves, if and only if the range has no room for a superpage or physical and
   virtual addresses agree modulo the superpage size.
   */
  lemma HugeTransparent(t: Forest, small: Forest, huge: Forest, root: nat, v0: nat, n: nat, ppn0: nat, perm: Perm)
    requires MapsRange(t, small, root, v0, n, ppn0, perm) && WalksRange(t, huge, root, v0, n, v0 + n, ppn0, perm)
    requires t.Root(root) && v0 + n <= VPNS && (perm.r || (perm.x && !perm.w))
    ensures forall r :: t.Root(r) ==> small.Root(r) && huge.Root(r)
    ensures (forall r, v :: t.Root(r) && 0 <= v < VPNS ==> Walk(small, r, v) == Walk(huge, r, v))
            <==> (ppn0 % 512 == v0 % 512 || !HasSuper(v0, n))
  {
    HasSuperIff(v0, n, v0 + n);
    if ppn0 % 512 != v0 % 512 && HasSuper(v0, n) {
      var v := (v0 + 511) / 512 * 512;
      assert Walk(huge, root, v) == None;
      assert Walk(small, root, v) == PageLeaf(RangePte(v0, ppn0, perm, v));
    }
  }

  // ----- the walk in place -----

  /** What `translate` returns: nothing, a slot, or a panic for want of memory. */
  datatype Lookup = Missing | Found(f: nat, i: nat) | OutOfMemory

  /** Slot `i` of `f` is where the kernel's walk of `v` ends. */
  predicate EndsAt(t: Forest, r: nat, v: nat, f: nat, i: nat)
    requires t.Unshared() && t.Root(r)
  {
    || (Node(t, r, v, 0) == Some(f) && i == Index(v, 0))
    || (Node(t, r, v, 1) == Some(f) && i == Index(v, 1) && IsLeafPte(t.tables[f][i]))
  }

  lemma EndsAtLook(t: Forest, r: nat, v: nat, f: nat, i: nat)
    requires t.Unshared() && t.Root(r) && EndsAt(t, r, v, f, i)
    ensures f in t.tables && i < ENTRIES == |t.tables[f]| && t.tables[f][i] == Look(t, r, v)
  {
    if Node(t, r, v, 0) == Some(f) && i == Index(v, 0) {
      NodeUp(t, r, v);
    }
  }

  /** How `map` ends: `true`, `false`, or one of its panics. */
  datatype MapResult = Mapped | Refused | Remap | NoMemory

  /** Pages that [va, va+size) touches. */
  function RangePages(va: nat, size: nat): nat {
    (va + size + PGSIZE - 1) / PGSIZE - va / PGSIZE
  }

  /** None of pages `v0 .. v0+n` has a valid entry. */
  ghost predicate Vacant(t: Forest, root: nat, v0: nat, n: nat) {
    t.Unshared() && t.Root(root) && (n > 0 ==> v0 + n <= VPNS)
    && forall v: nat :: v0 <= v < v0 + n ==> !Look(t, root, v).v
  }

  lemma VacantNone(t: Forest, root: nat, v0: nat)
    requires t.Unshared() && t.Root(root)
    ensures Vacant(t, root, v0, 0)
  {
  }

  lemma VacantOne(t: Forest, root: nat, v0: nat, n: nat)
    requires Vacant(t, root, v0, n) && v0 + n < VPNS && !Look(t, root, v0 + n).v
    ensures Vacant(t, root, v0, n + 1)
  {
  }

  lemma KeptRefl(a: Mem)
    requires a.Ok()
    ensures Kept(a, a)
  {
  }

  lemma KeptOk(a: Mem, b: Mem)
    requires Kept(a, b)
    ensures b.Ok()
  {
  }

  lemma MapsSame(a: Forest, b: Forest, c: Forest, root: nat, v0: nat, n: nat, ppn0: nat, perm: Perm)
    requires MapsRange(a, b, root, v0, n, ppn0, perm) && SameMaps(b, c)
    ensures MapsRange(a, c, root, v0, n, ppn0, perm)
  {
    forall r | a.Root(r) ensures c.Root(r) {
      assert b.Root(r);
    }
  }

  lemma MapsBeyond(a: Forest, b: Forest, root: nat, v0: nat, n: nat, ppn0: nat, perm: Perm)
    requires MapsRange(a, b, root, v0, n, ppn0, perm) && a.Root(root)
    ensures b.Unshared() && b.Root(root)
    ensures v0 + n < VPNS ==> Look(b, root, v0 + n) == Look(a, root, v0 + n)
  {
  }

  lemma SameRoot(a: Forest, b: Forest, root: nat)
    requires SameMaps(a, b) && a.Root(root)
    ensures b.Unshared() && b.Root(root)
  {
  }

  lemma SetSlotKept(m: Mem, f: nat, i: nat, e: Pte)
    requires m.Ok() && Settable(m.t, f, i, e)
    ensures Kept(m, m.(t := SetSlot(m.t, f, i, e)))
  {
    SetSlotUnshared(m.t, f, i, e);
  }

  /** Memory with the head of the free list turned into a data page. */
  function Allocated(m: Mem, data: seq<nat>): Mem
    requires m.free != []
  {
    m.(pages := m.pages[m.free[0] := data], free := m.free[1..], count := m.count[m.free[0] := 1])
  }

  /** Memory with one reference to data frame `f` dropped. */
  function Deallocated(m: Mem, f: nat): Mem
    requires f in m.count && m.count[f] > 0
  {
    if m.count[f] == 1 then m.(pages := m.pages - {f}, free := [f] + m.free, count := m.count[f := 0])
    else m.(count := m.count[f := m.count[f] - 1])
  }

  class Memory {
    var tables: map<nat, seq<Pte>>
    var pages: map<nat, seq<nat>>
    var free: seq<nat>
    var count: map<nat, nat>
    ghost var level: map<nat, nat>
    ghost var parent: map<nat, (nat, nat)>

    ghost function M(): Mem
      reads this
    {
      Mem(Forest(tables, level, parent), pages, free, count)
    }

    /** The allocator's `init`: every frame from `lo` to `hi` on the free list, the last one first. */
    constructor (lo: nat, hi: nat)
      requires lo <= hi
      ensures M().Ok() && tables == map[] && pages == map[]
      ensures |free| == hi - lo && forall i :: 0 <= i < |free| ==> free[i] == hi - 1 - i
      ensures forall f :: f in count <==> lo <= f < hi
    {
      tables, pages, level, parent := map[], map[], map[], map[];
      free, count := [], map[];
      new;
      for f := lo to hi
        invariant tables == map[] && pages == map[]
        invariant |free| == f - lo && forall i :: 0 <= i < |free| ==> free[i] == f - 1 - i
        invariant forall g :: g in count <==> lo <= g < f
        invariant forall g :: g in count ==> count[g] == 0
      {
        free := [f] + free;
        count := count[f := 0];
      }
      forall f | f in count ensures f in free {
        assert free[hi - 1 - f] == f;
      }
    }

    /** Take the head of the free list and count it once; it becomes a data page. */
    method AllocPage(data: seq<nat>) returns (ok: bool, f: nat)
      requires M().Ok()
      modifies `free, `count, `pages
      ensures ok <==> old(free) != []
      ensures ok ==> f == old(free)[0] && M() == Allocated(old(M()), data) && M().Ok()
      ensures !ok ==> M() == old(M())
    {
      if free == [] {
        return false, 0;
      }
      f := free[0];
      assert f in free;
      count := count[f := 1];
      free := free[1..];
      pages := pages[f := data];
      ok := true;
      assert forall g :: g in free <==> g in old(free) && g != f;
    }

    /** Drop one reference; at zero the frame goes to the head of the free list. */
    method Dealloc(f: nat)
      requires M().Ok() && f in pages && f in count && count[f] > 0
      modifies `free, `count, `pages
      ensures M() == Deallocated(old(M()), f) && M().Ok()
    {
      hide Forest.Unshared;
      count := count[f := count[f] - 1];
      if count[f] == 0 {
        free := [f] + free;
        pages := pages - {f};
        assert forall g :: g in free <==> g in old(free) || g == f;
      }
    }

    /** One more reference to a data page. */
    method AddCount(f: nat)
      requires M().Ok() && f in pages && f in count && count[f] > 0
      modifies `count
      ensures M() == old(M()).(count := old(count)[f := old(count)[f] + 1])
      ensures M().Ok()
    {
      count := count[f := count[f] + 1];
    }

    /** Hang a zeroed table from a fresh frame into the invalid slot a walk has reached. */
    method HangTable(root: nat, v: nat, l: nat, pgt: nat) returns (n: nat)
      requires M().Ok() && M().t.Root(root) && 0 < l <= 2 && free != []
      requires Node(M().t, root, v, l) == Some(pgt) && !EntryAt(M().t, root, v, l).v
      modifies this
      ensures Grew(old(M()), M()) && M().t.Root(root) && Node(M().t, root, v, l - 1) == Some(n)
      ensures free == old(free)[1..]
    {
      hide Mem.Counted, Mem.Apart, SameMaps, Grew, ZeroTable, Forest.Unshared;
      ghost var m := M();
      SlotFacts(m.t, pgt, Index(v, l));
      NewTableGrew(m, pgt, Index(v, l));
      NewTableNode(m, root, v, l);
      n := free[0];
      free, count := free[1..], count[n := 1];
      tables := tables[pgt := tables[pgt][Index(v, l) := Pte(true, NOPERM, n)]][n := ZeroTable(ENTRIES)];
      level, parent := level[n := level[pgt] - 1], parent[n := (pgt, Index(v, l))];
      assert M() == NewTable(m, pgt, Index(v, l));
    }

    /** A page table with nothing in it; `ok` is false where the source fails for want of a frame. */
    method Unew() returns (ok: bool, root: nat)
      requires M().Ok()
      modifies this
      ensures ok <==> old(free) != []
      ensures !ok ==> M() == old(M())
      ensures ok ==> Grew(old(M()), M()) && free == old(free)[1..] && root !in old(tables)
      ensures ok ==> NoPages(M().t, root)
    {
      hide Mem.Counted, Mem.Apart, SameMaps, Grew, NoPages, ZeroTable, Forest.Unshared;
      ghost var m := M();
      if free == [] {
        return false, 0;
      }
      NewRootGrew(m);
      root := free[0];
      free, count := free[1..], count[root := 1];
      tables, level := tables[root := ZeroTable(ENTRIES)], level[root := 2];
      assert M() == NewRoot(m);
      ok := true;
    }

    /** Find the entry for an address; with `alloc`, hang in tables that are missing. */
    method Translate(root: nat, va: nat, alloc: bool) returns (res: Lookup)
      requires M().Ok() && M().t.Root(root)
      modifies this
      ensures Grew(old(M()), M())
      ensures !alloc ==> M() == old(M())
      ensures va > MAXVA ==> res == Missing && M() == old(M())
      ensures res == Missing && va <= MAXVA ==> !alloc && !Look(M().t, root, va / PGSIZE).v
      ensures res == OutOfMemory ==> alloc && free == [] && |old(free)| <= 1
      ensures |free| >= |old(free)| - 2
      ensures res.Found? ==> M().t.Root(root) && va <= MAXVA && EndsAt(M().t, root, va / PGSIZE, res.f, res.i)
    {
      hide Mem.Counted, Mem.Apart, Forest.Unshared, SameMaps;
      GrewRefl(M());
      if va > MAXVA {
        return Missing;
      }
      var v := va / PGSIZE;
      var pgt := root;
      var l := 2;
      while l > 0
        invariant 0 <= l <= 2
        invariant Grew(old(M()), M()) && M().t.Root(root)
        invariant !alloc ==> M() == old(M())
        invariant |free| >= |old(free)| - (2 - l)
        invariant Node(M().t, root, v, l) == Some(pgt)
      {
        SlotFacts(M().t, pgt, Index(v, l));
        var pte := tables[pgt][Index(v, l)];
        if pte.v {
          if LeafPerm(pte.perm) {
            return Found(pgt, Index(v, l));
          }
          pgt := pte.ppn;
        } else {
          if !alloc {
            NoLook(M().t, root, v, l);
            return Missing;
          }
          if free == [] {
            return OutOfMemory;
          }
          ghost var m := M();
          pgt := HangTable(root, v, l, pgt);
          GrewTrans(old(M()), m, M());
        }
        l := l - 1;
      }
      res := Found(pgt, Index(v, 0));
    }

    /** Store one entry. */
    method SetPte(f: nat, i: nat, e: Pte)
      requires M().Ok() && Settable(M().t, f, i, e)
      modifies `tables
      ensures M() == old(M()).(t := SetSlot(old(M()).t, f, i, e))
      ensures Kept(old(M()), M())
    {
      hide Mem.Counted;
      SetSlotKept(M(), f, i, e);
      tables := tables[f := tables[f][i := e]];
    }

    /** `translate` of the first address of page `v`, with `alloc`. */
    method LastSlot(root: nat, v: nat) returns (res: Lookup)
      requires M().Ok() && M().t.Root(root)
      modifies this
      ensures Kept(old(M()), M()) && SameMaps(old(M()).t, M().t) && M().Ok() && M().t.Root(root)
      ensures res == Missing <==> v > MAXVPN
      ensures res == Missing ==> M() == old(M())
      ensures res == OutOfMemory ==> free == [] && |old(free)| <= 1
      ensures |free| >= |old(free)| - 2
      ensures res.Found? ==> v < VPNS && M().t.Unshared() && EndsAt(M().t, root, v, res.f, res.i)
    {
      hide PageStart, Grew, Forest.Unshared, Mem.Counted, Mem.Apart, EndsAt, Kept, SameMaps, Look;
      ghost var m := M();
      res := Translate(root, PageStart(v), true);
      GrewParts(m, M());
      SameRoot(m.t, M().t, root);
    }

    /** One round of the `map` loop for page `v0 + n`. */
    method MapPage(root: nat, v0: nat, n: nat, ppn0: nat, perm: Perm, ghost a: Mem) returns (res: MapResult)
      requires M().Ok() && a.Ok() && a.t.Root(root) && M().t.Root(root) && LeafPerm(perm)
      requires Kept(a, M()) && MapsRange(a.t, M().t, root, v0, n, ppn0, perm)
      modifies this
      ensures Kept(a, M()) && M().t.Root(root)
      ensures MapsRange(a.t, M().t, root, v0, if res == Mapped then n + 1 else n, ppn0, perm)
      ensures v0 + n > MAXVPN <==> res == Refused
      ensures res == Refused ==> M() == old(M())
      ensures res == Remap ==> v0 + n < VPNS && Look(a.t, root, v0 + n).v
      ensures res == Mapped ==> v0 + n < VPNS && !Look(a.t, root, v0 + n).v
      ensures res == NoMemory ==> free == [] && |old(free)| <= 1
      ensures |free| >= |old(free)| - 2
    {
      hide Mem.Counted, Mem.Apart, Forest.Unshared, EndsAt, Settable, Kept, SameMaps, MapsRange, Look;
      ghost var m := M();
      var slot := LastSlot(root, v0 + n);
      KeptTrans(a, m, M());
      MapsSame(a.t, m.t, M().t, root, v0, n, ppn0, perm);
      match slot
      case Missing =>
        res := Refused;
      case OutOfMemory =>
        res := NoMemory;
      case Found(f, i) =>
        EndsAtLook(M().t, root, v0 + n, f, i);
        MapsBeyond(a.t, M().t, root, v0, n, ppn0, perm);
        if tables[f][i].v {
          res := Remap;
        } else {
          ghost var c := M();
          MapOnePage(a.t, m.t, c.t, root, v0, n, ppn0, perm, f, i);
          SetPte(f, i, Pte(true, perm, ppn0 + n));
          KeptTrans(a, c, M());
          MapsBeyond(a.t, M().t, root, v0, n + 1, ppn0, perm);
          res := Mapped;
        }
    }

    /**
     Map the pages of [va, va+size) to consecutive frames.  On success the range, and
     nothing else in any address space, translates to it.  Otherwise the pages before
     the one that stopped it are mapped: `Refused` past MAXVA, `Remap` and `NoMemory`
     where the source panics.
     */
    method Map(root: nat, va: nat, pa: nat, size: nat, perm: Perm) returns (res: MapResult, ghost n: nat)
      requires M().Ok() && M().t.Root(root) && LeafPerm(perm)
      modifies this
      ensures Kept(old(M()), M()) && M().t.Root(root)
      ensures MapsRange(old(M()).t, M().t, root, va / PGSIZE, n, pa / PGSIZE, perm)
      ensures Translates(M().t, root, va / PGSIZE, n, pa / PGSIZE, perm)
      ensures n <= RangePages(va, size)
      ensures n == RangePages(va, size) <==> res == Mapped
      ensures n > 0 ==> va / PGSIZE + n - 1 <= MAXVPN
      ensures res == Refused ==> va / PGSIZE + n > MAXVPN && (n == 0 ==> M() == old(M()))
      ensures res == Remap ==> va / PGSIZE + n <= MAXVPN && Look(old(M()).t, root, va / PGSIZE + n).v
      ensures Vacant(old(M()).t, root, va / PGSIZE, n)
      ensures res == NoMemory ==> free == [] && |old(free)| < 2 * RangePages(va, size)
      ensures |free| >= |old(free)| - 2 * RangePages(va, size)
    {
      hide Mem.Counted, Mem.Apart, Forest.Unshared, Kept, MapsRange, Look, Vacant, Translates;
      ghost var a := M();
      var cur := va / PGSIZE;
      var last := (va + size + PGSIZE - 1) / PGSIZE;
      ghost var v0 := cur;
      n := 0;
      KeptRefl(a);
      MapsNone(a.t, root, v0, pa / PGSIZE, perm);
      VacantNone(a.t, root, v0);
      while cur != last
        invariant v0 <= cur <= last && n == cur - v0
        invariant M().Ok() && M().t.Root(root)
        invariant Kept(a, M()) && MapsRange(a.t, M().t, root, v0, n, pa / PGSIZE, perm)
        invariant Vacant(a.t, root, v0, n)
        invariant n == 0 ==> M() == a
        invariant n > 0 ==> v0 + n - 1 <= MAXVPN
        invariant |free| >= |a.free| - 2 * n
      {
        res := MapPage(root, va / PGSIZE, cur - va / PGSIZE, pa / PGSIZE, perm, a);
        KeptOk(a, M());
        if res != Mapped {
          MapsTranslate(a.t, M().t, root, v0, n, pa / PGSIZE, perm);
          return;
        }
        VacantOne(a.t, root, v0, n);
        cur := cur + 1;
        n := n + 1;
      }
      MapsTranslate(a.t, M().t, root, v0, n, pa / PGSIZE, perm);
      res := Mapped;
    }

    /** Find the level-1 entry for an address; with `alloc`, hang in its table if missing. */
    method TranslateHuge(root: nat, va: nat, alloc: bool) returns (res: Lookup)
      requires M().Ok() && M().t.Root(root)
      modifies this
      ensures Grew(old(M()), M()) && M().t.Root(root)
      ensures !alloc || va > MAXVA ==> M() == old(M())
      ensures res == Missing <==> va > MAXVA || (!alloc && old(Node(M().t, root, va / PGSIZE, 1)) == None)
      ensures res == OutOfMemory ==> alloc && free == old(free) == []
      ensures |free| >= |old(free)| - 1
      ensures res.Found? ==> Node(M().t, root, va / PGSIZE, 1) == Some(res.f) && res.i == Index(va / PGSIZE, 1)
    {
      hide Mem.Counted, Mem.Apart, Forest.Unshared, SameMaps;
      GrewRefl(M());
      if va > MAXVA {
        return Missing;
      }
      var v := va / PGSIZE;
      SlotFacts(M().t, root, Index(v, 2));
      var pte := tables[root][Index(v, 2)];
      var pgt := pte.ppn;
      if pte.v {
        assert Node(M().t, root, v, 1) == Some(pgt);
      } else {
        assert Node(M().t, root, v, 1) == None;
        if !alloc {
          return Missing;
        }
        if free == [] {
          return OutOfMemory;
        }
        pgt := HangTable(root, v, 2, root);
      }
      res := Found(pgt, Index(v, 1));
    }

    /** `translate_huge` of the first address of page `v`, with `alloc`. */
    method MiddleSlot(root: nat, v: nat) returns (res: Lookup)
      requires M().Ok() && M().t.Root(root)
      modifies this
      ensures Grew(old(M()), M()) && M().t.Root(root)
      ensures res == Missing <==> v > MAXVPN
      ensures res == OutOfMemory ==> free == old(free) == []
      ensures |free| >= |old(free)| - 1
      ensures res.Found? ==> v < VPNS && M().t.Unshared() && Node(M().t, root, v, 1) == Some(res.f)
      ensures res.Found? ==> res.i == Index(v, 1)
    {
      hide PageStart, Grew, Forest.Unshared, Mem.Counted, Mem.Apart, Index;
      ghost var m := M();
      res := TranslateHuge(root, PageStart(v), true);
      GrewParts(m, M());
    }

    /** The middle entry for page `v0 + n`; hanging in its table changes no translation. */
    method MiddleEntry(root: nat, v0: nat, n: nat, ghost last: nat, ghost ppn0: nat, ghost perm: Perm, ghost a: Mem)
      returns (res: Lookup)
      requires M().Ok() && a.Ok() && a.t.Root(root) && M().t.Root(root)
      requires Kept(a, M()) && WalksRange(a.t, M().t, root, v0, n, last, ppn0, perm)
      modifies this
      ensures M().Ok() && Kept(a, M()) && M().t.Root(root)
      ensures WalksRange(a.t, M().t, root, v0, n, last, ppn0, perm)
      ensures res == Missing <==> v0 + n > MAXVPN
      ensures res == OutOfMemory ==> free == old(free) == []
      ensures |free| >= |old(free)| - 1
      ensures res.Found? ==> v0 + n < VPNS && M().t.Unshared() && Node(M().t, root, v0 + n, 1) == Some(res.f)
      ensures res.Found? ==> res.i == Index(v0 + n, 1)
    {
      hide *;
      ghost var m := M();
      res := MiddleSlot(root, v0 + n);
      GrewWalks(a, m, M(), root, v0, n, last, ppn0, perm);
    }

    /** Write the middle entry of page `v0 + n`, unless it is valid. */
    method SetMiddle(root: nat, v0: nat, n: nat, ghost last: nat, ppn0: nat, perm: Perm, f: nat, i: nat, ghost a: Mem)
      returns (res: MapResult)
      requires M().Ok() && a.Ok() && a.t.Root(root) && M().t.Root(root) && LeafPerm(perm) && WholeStep(v0 + n, last)
      requires Kept(a, M()) && WalksRange(a.t, M().t, root, v0, n, last, ppn0, perm)
      requires Node(M().t, root, v0 + n, 1) == Some(f) && i == Index(v0 + n, 1) && v0 + n < VPNS
      modifies `tables
      ensures res == Mapped || res == Remap
      ensures Kept(a, M()) && M().t.Root(root)
      ensures WalksRange(a.t, M().t, root, v0, if res == Mapped then n + 512 else n, last, ppn0, perm)
      ensures res == Remap ==> EntryAt(M().t, root, v0 + n, 1).v
    {
      hide Mem.Counted, Mem.Apart, Forest.Unshared, Settable, WalksRange, Walk, SameMaps, WholeStep, Index, Kept;
      ghost var c := M();
      SlotFacts(c.t, f, i);
      if tables[f][i].v {
        return Remap;
      }
      GrewRefl(c);
      GrewParts(c, c);
      WalksHugeMore(a.t, c.t, c.t, root, v0, n, last, ppn0, perm, f);
      SetPte(f, i, Pte(true, perm, ppn0 + n));
      KeptTrans(a, c, M());
      WalksRoot(a.t, M().t, root, v0, n + 512, last, ppn0, perm);
      res := Mapped;
    }

    /** One round of the `map_with_huge` loop: a superpage. */
    method MapSuperpage(root: nat, v0: nat, n: nat, ghost last: nat, ppn0: nat, perm: Perm, ghost a: Mem)
      returns (res: MapResult)
      requires M().Ok() && a.Ok() && a.t.Root(root) && M().t.Root(root) && LeafPerm(perm)
      requires Kept(a, M()) && WalksRange(a.t, M().t, root, v0, n, last, ppn0, perm)
      requires WholeStep(v0 + n, last)
      modifies this
      ensures Kept(a, M()) && M().t.Root(root)
      ensures WalksRange(a.t, M().t, root, v0, if res == Mapped then n + 512 else n, last, ppn0, perm)
      ensures v0 + n > MAXVPN <==> res == Refused
      ensures res == NoMemory ==> free == old(free) == []
      ensures |free| >= |old(free)| - 1
      ensures res == Remap ==> EntryAt(M().t, root, v0 + n, 1).v
    {
      hide *;
      var slot := MiddleEntry(root, v0, n, last, ppn0, perm, a);
      match slot
      case Missing =>
        res := Refused;
      case OutOfMemory =>
        res := NoMemory;
      case Found(f, i) =>
        res := SetMiddle(root, v0, n, last, ppn0, perm, f, i, a);
    }

    /** One round of the `map_with_huge` loop: a small page. */
    method MapSmallPage(root: nat, v0: nat, n: nat, ghost last: nat, ppn0: nat, perm: Perm, ghost a: Mem)
      returns (res: MapResult)
      requires M().Ok() && a.Ok() && a.t.Root(root) && M().t.Root(root) && LeafPerm(perm)
      requires Kept(a, M()) && WalksRange(a.t, M().t, root, v0, n, last, ppn0, perm)
      requires !InSuper(v0, last, v0 + n)
      modifies this
      ensures Kept(a, M()) && M().t.Root(root)
      ensures WalksRange(a.t, M().t, root, v0, if res == Mapped then n + 1 else n, last, ppn0, perm)
      ensures v0 + n > MAXVPN <==> res == Refused
      ensures res == NoMemory ==> free == [] && |old(free)| <= 1
      ensures |free| >= |old(free)| - 2
      ensures res == Remap ==> Look(M().t, root, v0 + n).v
    {
      hide Mem.Counted, Mem.Apart, Forest.Unshared, EndsAt, Settable, Kept, WalksRange, Walk, SameMaps, PageSet,
           InSuper;
      ghost var m := M();
      var slot := LastSlot(root, v0 + n);
      KeptTrans(a, m, M());
      WalksSame(a.t, m.t, M().t, root, v0, n, last, ppn0, perm);
      match slot
      case Missing =>
        res := Refused;
      case OutOfMemory =>
        res := NoMemory;
      case Found(f, i) =>
        EndsAtLook(M().t, root, v0 + n, f, i);
        if tables[f][i].v {
          res := Remap;
        } else {
          ghost var c := M();
          VacantSlot(c.t, root, v0 + n, f, i);
          SetPage(c.t, root, v0 + n, f, i, Pte(true, perm, ppn0 + n));
          SetPte(f, i, Pte(true, perm, ppn0 + n));
          WalksOneMore(a.t, m.t, c.t, M().t, root, v0, n, last, ppn0, perm);
          KeptTrans(a, c, M());
          WalksRoot(a.t, M().t, root, v0, n + 1, last, ppn0, perm);
          res := Mapped;
        }
    }

    /** Map a range with superpages where they fit, whatever the physical address. */
    method MapWithHuge(root: nat, va: nat, pa: nat, size: nat, perm: Perm) returns (res: MapResult, ghost n: nat)
      requires M().Ok() && M().t.Root(root) && LeafPerm(perm)
      modifies this
      ensures Kept(old(M()), M()) && M().t.Root(root)
      ensures WalksRange(old(M()).t, M().t, root, va / PGSIZE, n, va / PGSIZE + RangePages(va, size), pa / PGSIZE, perm)
      ensures WalksTo(M().t, root, va / PGSIZE, n, va / PGSIZE + RangePages(va, size), pa / PGSIZE, perm)
      ensures n <= RangePages(va, size)
      ensures n == RangePages(va, size) <==> res == Mapped
      ensures res == Refused ==> va / PGSIZE + n > MAXVPN
      ensures res == NoMemory ==> free == [] && |old(free)| < 2 * RangePages(va, size)
      ensures |free| >= |old(free)| - 2 * RangePages(va, size)
      ensures res == Remap ==> va / PGSIZE + n <= MAXVPN
                               && Taken(M().t, root, va / PGSIZE + n, va / PGSIZE + RangePages(va, size))
    {
      hide Mem.Counted, Mem.Apart, Forest.Unshared, Kept, WalksRange, Look, Walk, WholeStep, InStep, InSuper, EntryAt,
           WalksTo;
      ghost var a := M();
      var v0, ppn0 := va / PGSIZE, pa / PGSIZE;
      var cur := v0;
      var last := (va + size + PGSIZE - 1) / PGSIZE;
      n := 0;
      KeptRefl(a);
      WalksNone(a.t, root, v0, last, ppn0, perm);
      FirstStep(v0, last);
      while cur != last
        invariant v0 <= cur <= last && n == cur - v0 && InStep(v0, last, cur)
        invariant M().Ok() && M().t.Root(root)
        invariant Kept(a, M()) && WalksRange(a.t, M().t, root, v0, n, last, ppn0, perm)
        invariant |free| >= |a.free| - 2 * n && (n > 0 ==> v0 + n <= VPNS)
      {
        if WholeStep(cur, last) {
          NextStep(v0, last, cur);
          res := MapSuperpage(root, v0, cur - v0, last, ppn0, perm, a);
          KeptOk(a, M());
          if res != Mapped {
            WalksWhere(a.t, M().t, root, v0, n, last, ppn0, perm);
            return;
          }
          cur := cur + 512;
          n := n + 512;
          continue;
        }
        NextPage(v0, last, cur);
        res := MapSmallPage(root, v0, cur - v0, last, ppn0, perm, a);
        KeptOk(a, M());
        if res != Mapped {
          WalksWhere(a.t, M().t, root, v0, n, last, ppn0, perm);
          return;
        }
        cur := cur + 1;
        n := n + 1;
      }
      WalksWhere(a.t, M().t, root, v0, n, last, ppn0, perm);
      res := Mapped;
    }
  }

  lemma SlotFacts(t: Forest, f: nat, i: nat)
    requires t.Unshared() && f in t.tables && i < ENTRIES
    ensures t.Sized() && |t.tables[f]| == ENTRIES && t.SlotOk(f, i)
  {
  }

  lemma NoLook(t: Forest, r: nat, v: nat, l: nat)
    requires t.Unshared() && t.Root(r) && 0 < l <= 2 && !EntryAt(t, r, v, l).v
    ensures !Look(t, r, v).v
  {
    assert Node(t, r, v, l - 1).None?;
    assert Node(t, r, v, 0).None?;
  }

  lemma NewTableNode(m: Mem, r: nat, v: nat, l: nat)
    requires m.Ok() && m.t.Root(r) && 0 < l <= 2 && Node(m.t, r, v, l).Some? && m.free != []
    requires !EntryAt(m.t, r, v, l).v
    requires NewTable(m, Node(m.t, r, v, l).value, Index(v, l)).t.Unshared()
    ensures var t' := NewTable(m, Node(m.t, r, v, l).value, Index(v, l)).t;
            t'.Root(r) && Node(t', r, v, l - 1) == Some(m.free[0])
  {
    var f := Node(m.t, r, v, l).value;
    assert m.free[0] in m.free;
    AddTableNode(m.t, f, Index(v, l), m.free[0], r, v, l);
  }

  /** Within an aligned block, the loop is past the point where it could have taken the block whole. */
  predicate InStep(v0: nat, last: nat, cur: nat) {
    cur % 512 != 0 ==> !InSuper(v0, last, cur)
  }

  lemma FirstStep(v0: nat, last: nat)
    ensures InStep(v0, last, v0)
  {
  }

  lemma NextStep(v0: nat, last: nat, cur: nat)
    requires WholeStep(cur, last)
    ensures InStep(v0, last, cur + 512) && cur + 512 <= last && (cur <= MAXVPN ==> cur + 512 <= VPNS)
  {
  }

  lemma NextPage(v0: nat, last: nat, cur: nat)
    requires v0 <= cur && InStep(v0, last, cur) && !WholeStep(cur, last)
    ensures !InSuper(v0, last, cur) && InStep(v0, last, cur + 1)
  {
    if (cur + 1) % 512 != 0 {
      assert (cur + 1) % 512 == cur % 512 + 1;
    }
  }
}
