/**
 Three-level page tables as an unshared forest in physical memory, and the flat map
 from virtual page numbers to leaves that they represent.
 */
module RadixTree {
  import opened Collections
  import opened PageTableEntry

  const ENTRIES: nat := 512
  /** Virtual page numbers have 27 bits. */
  const VPNS: nat := 0x800_0000

  /** The index a virtual page number has at level `l`. */
  function Index(vpn: nat, l: nat): (i: nat)
    requires l <= 2
    ensures i < ENTRIES
  {
    if l == 2 then vpn / 0x40000 % 512 else if l == 1 then vpn / 512 % 512 else vpn % 512
  }

  /** The three indices are the digits of the page number, the top one first. */
  lemma IndexDigits(vpn: nat)
    requires vpn < VPNS
    ensures vpn == Index(vpn, 2) * 0x40000 + Index(vpn, 1) * 512 + Index(vpn, 0)
  {
  }

  const NOPERM := Perm(false, false, false, false, false, false, false, false, false)
  const ZERO := Pte(false, NOPERM, 0)

  function ZeroTable(n: nat): (t: seq<Pte>)
    ensures |t| == n && forall i :: 0 <= i < n ==> t[i] == ZERO
  {
    if n == 0 then [] else [ZERO] + ZeroTable(n - 1)
  }

  /** The kernel's test for a leaf: any of R, W, X. */
  predicate LeafPerm(p: Perm) {
    p.r || p.w || p.x
  }

  predicate IsPointer(e: Pte) {
    e.v && !LeafPerm(e.perm)
  }

  predicate IsLeafPte(e: Pte) {
    e.v && LeafPerm(e.perm)
  }

  /**
   All page-table pages of all address spaces, by frame.  `level` and `parent` are the
   specification's: every table below a root has one slot that points to it.
   */
  datatype Forest = Forest(tables: map<nat, seq<Pte>>, level: map<nat, nat>, parent: map<nat, (nat, nat)>)
  {
    predicate Sized() {
      && tables.Keys <= level.Keys
      && forall f :: f in tables ==> |tables[f]| == ENTRIES && level[f] <= 2
    }

    /** Slot `i` of table `f`, if it points, points to a table one level down that knows it. */
    predicate SlotOk(f: nat, i: nat)
      requires Sized() && f in tables && i < ENTRIES
    {
      var e := tables[f][i];
      && (IsPointer(e) ==> level[f] > 0 && e.ppn in tables && level[e.ppn] == level[f] - 1
                           && e.ppn in parent && parent[e.ppn] == (f, i))
      && (IsLeafPte(e) ==> level[f] < 2)
    }

    /** No table is shared: each is pointed to from at most one slot, its parent slot. */
    predicate Unshared() {
      Sized() && forall f, i :: f in tables && 0 <= i < ENTRIES ==> SlotOk(f, i)
    }

    predicate Root(r: nat) {
      r in tables && r in level && level[r] == 2
    }
  }

  /** The table the walk of `vpn` from `r` visits at level `l`, if it gets there. */
  function Node(t: Forest, r: nat, vpn: nat, l: nat): (o: Option<nat>)
    requires t.Unshared() && t.Root(r) && l <= 2
    ensures o.Some? ==> o.value in t.tables && t.level[o.value] == l
    decreases 2 - l
  {
    if l == 2 then Some(r)
    else
      match Node(t, r, vpn, l + 1)
      case None => None
      case Some(f) =>
        assert t.SlotOk(f, Index(vpn, l + 1));
        var e := t.tables[f][Index(vpn, l + 1)];
        if IsPointer(e) then Some(e.ppn) else None
  }

  datatype Leaf = Leaf(ppn: nat, perm: Perm)

  /** Permissions the hardware accepts on a leaf: it can be read, or executed without being written. */
  predicate LegalLeaf(perm: Perm) {
    perm.r || (perm.x && !perm.w)
  }

  /** What a leaf entry found at level `l` maps `vpn` to; a superpage must be aligned. */
  function LeafAt(e: Pte, vpn: nat, l: nat): Option<Leaf>
    requires l <= 2
  {
    if !e.v || (!e.perm.r && !e.perm.x) then None
    else if l == 0 then Some(Leaf(e.ppn, e.perm))
    else if l == 1 && e.ppn % 512 == 0 then Some(Leaf(e.ppn + vpn % 512, e.perm))
    else None
  }

  /** The entry the walk reads at level `l`. */
  function EntryAt(t: Forest, r: nat, vpn: nat, l: nat): Pte
    requires t.Unshared() && t.Root(r) && l <= 2
  {
    match Node(t, r, vpn, l)
    case None => ZERO
    case Some(f) => t.tables[f][Index(vpn, l)]
  }

  /**
   The translation of section 4.3.2 of the RISC-V Privileged Architecture over Sv39
   tables without gigapages: descend while entries point, fault on invalid entries, on
   W without R, on misaligned superpages and on pointers at the last level.
   */
  function Walk(t: Forest, r: nat, vpn: nat): Option<Leaf>
    requires t.Unshared() && t.Root(r)
  {
    var e1 := EntryAt(t, r, vpn, 1);
    if IsPointer(e1) then
      var e0 := EntryAt(t, r, vpn, 0);
      if !e0.perm.r && e0.perm.w then None else LeafAt(e0, vpn, 0)
    else if !e1.perm.r && e1.perm.w then None
    else LeafAt(e1, vpn, 1)
  }

  // ----- distinct walks end in distinct slots -----

  /** Two walks that meet at level `l` started at the same root and agree above it. */
  lemma NodeUnique(t: Forest, r: nat, v: nat, r': nat, v': nat, l: nat)
    requires t.Unshared() && t.Root(r) && t.Root(r') && l <= 2
    requires Node(t, r, v, l).Some? && Node(t, r, v, l) == Node(t, r', v', l)
    ensures r == r'
    ensures l <= 1 ==> Index(v, 2) == Index(v', 2)
    ensures l == 0 ==> Index(v, 1) == Index(v', 1)
    decreases 2 - l
  {
    if l < 2 {
      var f, f' := Node(t, r, v, l + 1).value, Node(t, r', v', l + 1).value;
      assert t.SlotOk(f, Index(v, l + 1));
      assert t.SlotOk(f', Index(v', l + 1));
      NodeUnique(t, r, v, r', v', l + 1);
    }
  }

  lemma SuperIndex(v: nat)
    requires v < VPNS
    ensures v / 512 == Index(v, 2) * 512 + Index(v, 1)
    ensures v == v / 512 * 512 + Index(v, 0)
  {
    assert v / 0x40000 == v / 512 / 512;
  }

  lemma IndexesDecide(v: nat, v': nat)
    requires v < VPNS && v' < VPNS
    requires Index(v, 2) == Index(v', 2) && Index(v, 1) == Index(v', 1)
    ensures v / 512 == v' / 512
    ensures Index(v, 0) == Index(v', 0) ==> v == v'
  {
    hide Index;
    SuperIndex(v);
    SuperIndex(v');
  }

  lemma SuperDecides(v: nat, v': nat)
    requires v < VPNS && v' < VPNS && v / 512 == v' / 512
    ensures Index(v, 2) == Index(v', 2) && Index(v, 1) == Index(v', 1)
  {
    hide Index;
    SuperIndex(v);
    SuperIndex(v');
  }

  // ----- adding an empty table -----

  /** A fresh zeroed table `n` hung into the invalid slot `i` of `f`. */
  function AddTable(t: Forest, f: nat, i: nat, n: nat): Forest
    requires t.Sized() && f in t.tables && i < ENTRIES && t.level[f] > 0
  {
    t.(tables := t.tables[f := t.tables[f][i := Pte(true, NOPERM, n)]][n := ZeroTable(ENTRIES)],
       level := t.level[n := t.level[f] - 1],
       parent := t.parent[n := (f, i)])
  }

  lemma AddTableUnshared(t: Forest, f: nat, i: nat, n: nat)
    requires t.Unshared() && f in t.tables && i < ENTRIES && t.level[f] > 0
    requires !t.tables[f][i].v && n !in t.tables
    ensures AddTable(t, f, i, n).Unshared()
  {
    var t' := AddTable(t, f, i, n);
    forall g, j | g in t'.tables && 0 <= j < ENTRIES ensures t'.SlotOk(g, j) {
      if g in t.tables {
        assert t.SlotOk(g, j);
      }
    }
  }

  /** Every node of the old forest is where it was; the only new one is `n`. */
  lemma AddTableNode(t: Forest, f: nat, i: nat, n: nat, r: nat, v: nat, l: nat)
    requires t.Unshared() && f in t.tables && i < ENTRIES && t.level[f] > 0 && l <= 2
    requires !t.tables[f][i].v && n !in t.tables && AddTable(t, f, i, n).Unshared() && t.Root(r)
    ensures AddTable(t, f, i, n).Root(r)
    ensures var o := Node(AddTable(t, f, i, n), r, v, l);
            o == Node(t, r, v, l) || (Node(t, r, v, l).None? && o == Some(n))
    decreases 2 - l
  {
    if l < 2 {
      AddTableNode(t, f, i, n, r, v, l + 1);
    }
  }

  /** New empty tables change no translation. */
  lemma AddTableWalk(t: Forest, f: nat, i: nat, n: nat, r: nat, v: nat)
    requires t.Unshared() && f in t.tables && i < ENTRIES && t.level[f] > 0
    requires !t.tables[f][i].v && n !in t.tables && AddTable(t, f, i, n).Unshared() && t.Root(r)
    ensures AddTable(t, f, i, n).Root(r)
    ensures Walk(AddTable(t, f, i, n), r, v) == Walk(t, r, v)
  {
    AddTableNode(t, f, i, n, r, v, 0);
    AddTableNode(t, f, i, n, r, v, 1);
  }

  // ----- a new root -----

  /** A fresh zeroed table `n` as the root of a new tree. */
  function AddRoot(t: Forest, n: nat): Forest {
    t.(tables := t.tables[n := ZeroTable(ENTRIES)], level := t.level[n := 2])
  }

  lemma AddRootUnshared(t: Forest, n: nat)
    requires t.Unshared() && n !in t.tables
    ensures AddRoot(t, n).Unshared() && AddRoot(t, n).Root(n)
  {
    var t' := AddRoot(t, n);
    forall g, j | g in t'.tables && 0 <= j < ENTRIES ensures t'.SlotOk(g, j) {
      if g != n {
        assert t.SlotOk(g, j);
      }
    }
  }

  /** The new tree has nothing below its root, and the others are as they were. */
  lemma AddRootNode(t: Forest, n: nat, r: nat, v: nat, l: nat)
    requires t.Unshared() && n !in t.tables && AddRoot(t, n).Unshared() && (r == n || t.Root(r)) && l <= 2
    ensures AddRoot(t, n).Root(r)
    ensures Node(AddRoot(t, n), r, v, l) == if r != n then Node(t, r, v, l) else if l == 2 then Some(n) else None
    decreases 2 - l
  {
    if l < 2 {
      AddRootNode(t, n, r, v, l + 1);
    }
  }

  lemma AddRootWalk(t: Forest, n: nat, r: nat, v: nat)
    requires t.Unshared() && n !in t.tables && AddRoot(t, n).Unshared() && (r == n || t.Root(r))
    ensures AddRoot(t, n).Root(r)
    ensures Walk(AddRoot(t, n), r, v) == if r != n then Walk(t, r, v) else None
    ensures forall l :: 0 <= l <= 1 ==> EntryAt(AddRoot(t, n), r, v, l) == if r != n then EntryAt(t, r, v, l) else ZERO
  {
    AddRootNode(t, n, r, v, 0);
    AddRootNode(t, n, r, v, 1);
  }

  // ----- writing a slot that holds no pointer -----

  function SetSlot(t: Forest, f: nat, i: nat, e: Pte): Forest
    requires t.Sized() && f in t.tables && i < ENTRIES
  {
    t.(tables := t.tables[f := t.tables[f][i := e]])
  }

  predicate Settable(t: Forest, f: nat, i: nat, e: Pte) {
    && t.Unshared() && f in t.tables && i < ENTRIES && t.level[f] < 2
    && !IsPointer(t.tables[f][i]) && !IsPointer(e)
  }

  lemma SetSlotUnshared(t: Forest, f: nat, i: nat, e: Pte)
    requires Settable(t, f, i, e)
    ensures SetSlot(t, f, i, e).Unshared()
  {
    var t' := SetSlot(t, f, i, e);
    forall g, j | g in t'.tables && 0 <= j < ENTRIES ensures t'.SlotOk(g, j) {
      assert t.SlotOk(g, j);
    }
  }

  lemma SetSlotNode(t: Forest, f: nat, i: nat, e: Pte, r: nat, v: nat, l: nat)
    requires Settable(t, f, i, e) && SetSlot(t, f, i, e).Unshared() && t.Root(r) && l <= 2
    ensures SetSlot(t, f, i, e).Root(r)
    ensures Node(SetSlot(t, f, i, e), r, v, l) == Node(t, r, v, l)
    decreases 2 - l
  {
    if l < 2 {
      SetSlotNode(t, f, i, e, r, v, l + 1);
    }
  }

  lemma SetSlotEntry(t: Forest, f: nat, i: nat, e: Pte, r: nat, v: nat, l: nat)
    requires Settable(t, f, i, e) && SetSlot(t, f, i, e).Unshared() && t.Root(r) && l <= 2
    ensures SetSlot(t, f, i, e).Root(r)
    ensures EntryAt(SetSlot(t, f, i, e), r, v, l)
         == if Node(t, r, v, l) == Some(f) && Index(v, l) == i then e else EntryAt(t, r, v, l)
  {
    SetSlotNode(t, f, i, e, r, v, l);
  }

  /** Writing the last-level slot of one page changes the translation of that page only. */
  lemma SetPageWalk(t: Forest, r0: nat, v0: nat, e: Pte, r: nat, v: nat)
    requires t.Unshared() && t.Root(r0) && Node(t, r0, v0, 0).Some? && v0 < VPNS && v < VPNS
    requires Settable(t, Node(t, r0, v0, 0).value, Index(v0, 0), e)
    requires SetSlot(t, Node(t, r0, v0, 0).value, Index(v0, 0), e).Unshared() && t.Root(r)
    ensures var t' := SetSlot(t, Node(t, r0, v0, 0).value, Index(v0, 0), e);
            && t'.Root(r)
            && Walk(t', r, v) == if r == r0 && v == v0
                                 then (if e.v && LegalLeaf(e.perm) then Some(Leaf(e.ppn, e.perm)) else None)
                                 else Walk(t, r, v)
  {
    hide Index, Forest.Unshared;
    var f := Node(t, r0, v0, 0).value;
    SetSlotEntry(t, f, Index(v0, 0), e, r, v, 0);
    SetSlotEntry(t, f, Index(v0, 0), e, r, v, 1);
    if Node(t, r, v, 0) == Some(f) {
      NodeUnique(t, r, v, r0, v0, 0);
      IndexesDecide(v, v0);
    }
  }

  /** Writing a level-1 slot that held nothing maps one whole superpage and nothing else. */
  lemma SetHugeWalk(t: Forest, r0: nat, v0: nat, e: Pte, r: nat, v: nat)
    requires t.Unshared() && t.Root(r0) && Node(t, r0, v0, 1).Some? && v0 < VPNS && v < VPNS
    requires Settable(t, Node(t, r0, v0, 1).value, Index(v0, 1), e)
    requires SetSlot(t, Node(t, r0, v0, 1).value, Index(v0, 1), e).Unshared() && t.Root(r)
    ensures var t' := SetSlot(t, Node(t, r0, v0, 1).value, Index(v0, 1), e);
            && t'.Root(r)
            && Walk(t', r, v) == if r == r0 && v / 512 == v0 / 512
                                 then (if e.v && LegalLeaf(e.perm) && e.ppn % 512 == 0
                                       then Some(Leaf(e.ppn + v % 512, e.perm)) else None)
                                 else Walk(t, r, v)
  {
    hide Index, Forest.Unshared;
    var f := Node(t, r0, v0, 1).value;
    SetSlotEntry(t, f, Index(v0, 1), e, r, v, 0);
    SetSlotEntry(t, f, Index(v0, 1), e, r, v, 1);
    if r == r0 && v / 512 == v0 / 512 {
      SuperDecides(v, v0);
    }
    if Node(t, r, v, 1) == Some(f) && Index(v, 1) == Index(v0, 1) {
      NodeUnique(t, r, v, r0, v0, 1);
      IndexesDecide(v, v0);
    }
  }
}
