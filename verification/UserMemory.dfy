/**
 User address spaces over the page tables: unmapping, copy-on-write fork, the store
 fault path.  Each operation is shown to be a run of the copy-on-write machine, so the
 theorems about all runs speak about this code.
 */
module UserMemory {
  import opened PageTableEntry
  import opened RadixTree
  import opened Paging
  import C = CowFork

  /**
   The address spaces considered, and the page their data pages lie below: the trap
   frame's for a process, one past the last page for a table that has none.
   */
  datatype Users = Users(roots: set<nat>, top: nat)

  /** The spaces are roots of small-page trees. */
  ghost predicate Spaces(t: Forest, users: Users) {
    && t.Unshared() && users.top <= MAXVPN + 1
    && (forall r :: r in users.roots ==> t.Root(r))
    && (forall r, v :: r in users.roots && 0 <= v < VPNS ==> !Huge(t, r, v))
  }

  /** All user leaves at once. */
  ghost function Leaves(t: Forest, users: Users): map<C.Key, Pte>
    requires Spaces(t, users)
  {
    map r, v | r in users.roots && 0 <= v < users.top && Look(t, r, v).v :: (r, v) := Look(t, r, v)
  }

  ghost function VmOf(m: Mem, users: Users): C.Vm
    requires Spaces(m.t, users)
  {
    C.Vm(Leaves(m.t, users), m.pages, m.free, m.count)
  }

  lemma SetLeaf(a: Forest, b: Forest, users: Users, r: nat, v: nat, e: Pte)
    requires Spaces(a, users) && PageSet(a, b, r, v, e) && r in users.roots && v < users.top
    ensures Spaces(b, users)
    ensures Leaves(b, users) == if e.v then Leaves(a, users)[(r, v) := e] else Leaves(a, users) - {(r, v)}
  {
    hide Look, Huge, Walk, Forest.Unshared;
  }

  /** Every user leaf can be read or executed; none is write-only. */
  predicate Readable(leaf: map<C.Key, Pte>) {
    forall k :: k in leaf ==> leaf[k].perm.r || leaf[k].perm.x
  }

  /** The machine's invariant for the address spaces in `users`. */
  ghost predicate Good(m: Mem, users: Users) {
    m.Ok() && Spaces(m.t, users) && C.Inv(VmOf(m, users)) && Readable(VmOf(m, users).leaf)
  }

  lemma TakenCount(a: Mem, b: Mem, f: nat)
    requires a.Ok() && Kept(a, b) && f in a.count
    ensures b.count[f] == if f in a.free[..|a.free| - |b.free|] then 1 else a.count[f]
  {
    hide Forest.Unshared;
    var n := |a.free| - |b.free|;
    if f in a.free[..n] {
      var i :| 0 <= i < n && a.free[i] == f;
      assert f !in b.free;
      assert f in b.t.tables;
    } else if a.count[f] == 0 {
      assert f in a.free;
      assert f in b.free;
    }
  }

  // ----- from boot to address spaces -----

  /** With the allocator just initialised there are no address spaces, and all is in order. */
  lemma BootGood(m: Mem, top: nat)
    requires m.Ok() && m.t.tables == map[] && m.pages == map[] && top <= MAXVPN + 1
    ensures Good(m, Users({}, top)) && VmOf(m, Users({}, top)).leaf == map[]
  {
    hide Forest.Unshared;
    assert VmOf(m, Users({}, top)).leaf == map[];
  }

  function With(users: Users, root: nat): Users {
    users.(roots := users.roots + {root})
  }

  lemma NewSpaceLeaves(a: Forest, b: Forest, users: Users, root: nat)
    requires Spaces(a, users) && SameMaps(a, b) && NoPages(b, root)
    ensures Spaces(b, With(users, root)) && Leaves(b, With(users, root)) == Leaves(a, users)
  {
    hide Look, Huge, Walk, Forest.Unshared;
  }

  /** A new address space: one frame taken, no page in it, and every other page as it was. */
  method NewSpace(m: Memory, ghost users: Users) returns (ok: bool, root: nat)
    requires Good(m.M(), users)
    modifies m
    ensures ok <==> old(m.free) != []
    ensures !ok ==> m.M() == old(m.M())
    ensures ok ==> root !in users.roots && Good(m.M(), With(users, root)) && NoPages(m.M().t, root)
    ensures ok ==> C.Reaches(old(VmOf(m.M(), users)), C.Takes(1), VmOf(m.M(), With(users, root)))
    ensures ok ==> Leaves(m.M().t, With(users, root)) == old(Leaves(m.M().t, users))
  {
    hide Forest.Unshared, C.Inv, C.Reaches, C.Takes, SameMaps, NoPages, Look, Huge, Leaves, Readable;
    ghost var a := m.M();
    ok, root := m.Unew();
    if ok {
      NewSpaceLeaves(a.t, m.M().t, users, root);
      TookOne(a, m.M(), users, root);
    }
  }

  lemma TookOne(a: Mem, b: Mem, users: Users, root: nat)
    requires Good(a, users) && Kept(a, b) && a.free != [] && b.free == a.free[1..] && Spaces(b.t, With(users, root))
    requires Leaves(b.t, With(users, root)) == Leaves(a.t, users)
    ensures C.Reaches(VmOf(a, users), C.Takes(1), VmOf(b, With(users, root))) && C.Inv(VmOf(b, With(users, root)))
  {
    hide Forest.Unshared, C.Inv, C.Reaches, Leaves;
    forall f | f in a.count ensures b.count[f] == if f in a.free[..1] then 1 else a.count[f] {
      TakenCount(a, b, f);
    }
    C.TakesReach(VmOf(a, users), VmOf(b, With(users, root)), 1);
    C.CowRefinesCopy(VmOf(a, users), C.Takes(1), VmOf(b, With(users, root)));
  }

  /** How the loops end; `Panicked` where the source panics. */
  datatype Outcome = Done | Panicked | Failed

  // ----- uunmap -----

  function UnmapSteps(root: nat, v0: nat, n: nat): (s: seq<C.Step>)
    ensures |s| == n
  {
    if n == 0 then [] else UnmapSteps(root, v0, n - 1) + [C.Unmap((root, v0 + n - 1))]
  }

  /** Memory after one round of `uunmap`: the frame freed, the entry cleared. */
  ghost function Unmapped(a: Mem, root: nat, v: nat, f: nat, i: nat): Mem
    requires a.t.Unshared() && a.t.Root(root) && EndsAt(a.t, root, v, f, i)
    requires Look(a.t, root, v).ppn in a.count && a.count[Look(a.t, root, v).ppn] > 0
  {
    EndsAtLook(a.t, root, v, f, i);
    Deallocated(a, Look(a.t, root, v).ppn).(t := SetSlot(a.t, f, i, ZERO))
  }

  lemma LeafFacts(a: Mem, users: Users, root: nat, v: nat)
    requires Good(a, users) && root in users.roots && v < users.top && Look(a.t, root, v).v
    ensures (root, v) in VmOf(a, users).leaf && VmOf(a, users).leaf[(root, v)] == Look(a.t, root, v)
    ensures Look(a.t, root, v).ppn in a.pages && Look(a.t, root, v).ppn in a.count
    ensures a.count[Look(a.t, root, v).ppn] > 0
    ensures |a.pages[Look(a.t, root, v).ppn]| == PGSIZE
  {
    hide Forest.Unshared, C.CountsOk, C.WritesOk, C.FreeListOk, Look, Huge;
  }

  lemma UnmappedRun(a: Mem, users: Users, root: nat, v: nat, f: nat, i: nat)
    requires Good(a, users) && root in users.roots && v < users.top && Look(a.t, root, v).v
    requires EndsAt(a.t, root, v, f, i)
    requires Look(a.t, root, v).ppn in a.count && a.count[Look(a.t, root, v).ppn] > 0
    ensures Settable(a.t, f, i, ZERO)
    ensures var b := Unmapped(a, root, v, f, i);
            && Spaces(b.t, users) && VmOf(b, users) == C.Dropped(VmOf(a, users), (root, v))
            && UnmapsRange(a.t, b.t, root, v, 1)
    ensures C.Inv(C.Dropped(VmOf(a, users), (root, v))) && Readable(C.Dropped(VmOf(a, users), (root, v)).leaf)
    ensures C.Reaches(VmOf(a, users), [C.Unmap((root, v))], C.Dropped(VmOf(a, users), (root, v)))
  {
    hide Forest.Unshared, C.Inv, Look, Huge, C.Reaches, Leaves, SetSlot, PageSet, Settable, EndsAt, UnmapsRange;
    LeafFacts(a, users, root, v);
    EndsAtLook(a.t, root, v, f, i);
    SlotFacts(a.t, f, i);
    SetPage(a.t, root, v, f, i, ZERO);
    ClearPage(a.t, root, v, f, i);
    SetLeaf(a.t, SetSlot(a.t, f, i, ZERO), users, root, v, ZERO);
    C.StepRefines(VmOf(a, users), C.Unmap((root, v)));
    C.ReachesOne(VmOf(a, users), C.Unmap((root, v)));
  }

  /** One round of `uunmap`: free the frame, clear the entry. */
  method UnmapPage(m: Memory, root: nat, v: nat, ghost users: Users) returns (res: Outcome)
    requires Good(m.M(), users) && root in users.roots && v < users.top
    modifies m
    ensures res == Done <==> old(Look(m.M().t, root, v).v)
    ensures res != Done ==> res == Panicked && m.M() == old(m.M())
    ensures res == Done ==> Good(m.M(), users)
    ensures res == Done ==> C.Reaches(old(VmOf(m.M(), users)), [C.Unmap((root, v))], VmOf(m.M(), users))
    ensures res == Done ==> UnmapsRange(old(m.M()).t, m.M().t, root, v, 1) && |m.free| >= |old(m.free)|
  {
    hide Forest.Unshared, C.Inv, C.Reaches, C.Dropped, Look, Huge, Settable, EndsAt, Leaves, SetSlot, UnmapsRange;
    ghost var a := m.M();
    var slot := m.Translate(root, PageStart(v), false);
    match slot
    case Found(f, i) =>
      EndsAtLook(a.t, root, v, f, i);
      var pte := m.tables[f][i];
      if !pte.v {
        return Panicked;
      }
      LeafFacts(a, users, root, v);
      UnmappedRun(a, users, root, v, f, i);
      m.Dealloc(pte.ppn);
      m.SetPte(f, i, ZERO);
      assert m.M() == Unmapped(a, root, v, f, i);
      res := Done;
    case _ =>
      res := Panicked;
  }

  /** Unmap and free a range of pages, up to the first page that is not mapped. */
  method Uunmap(m: Memory, root: nat, va: nat, npages: nat, ghost users: Users) returns (res: Outcome, ghost n: nat)
    requires Good(m.M(), users) && root in users.roots && va / PGSIZE + npages <= users.top
    modifies m
    ensures Good(m.M(), users)
    ensures C.Reaches(old(VmOf(m.M(), users)), UnmapSteps(root, va / PGSIZE, n), VmOf(m.M(), users))
    ensures UnmapsRange(old(m.M()).t, m.M().t, root, va / PGSIZE, n) && |m.free| >= |old(m.free)|
    ensures res == Done ==> n == npages
    ensures res != Done ==> res == Panicked
    ensures res != Done ==> (va % PGSIZE != 0 || (n < npages && !Look(m.M().t, root, va / PGSIZE + n).v))
  {
    hide Forest.Unshared, C.Inv, C.Reaches, Look, Huge, Leaves, Readable, UnmapsRange;
    n := 0;
    ghost var a := m.M();
    ghost var vm := VmOf(a, users);
    UnmapsNone(a.t, root, va / PGSIZE);
    if va % PGSIZE != 0 {
      NoSteps(vm);
      return Panicked, 0;
    }
    var i := 0;
    NoSteps(vm);
    while i < npages
      invariant 0 <= i <= npages && n == i
      invariant Good(m.M(), users)
      invariant C.Reaches(vm, UnmapSteps(root, va / PGSIZE, i), VmOf(m.M(), users))
      invariant UnmapsRange(a.t, m.M().t, root, va / PGSIZE, i) && |m.free| >= |a.free|
    {
      ghost var t := m.M().t;
      ghost var mid := VmOf(m.M(), users);
      res := UnmapPage(m, root, va / PGSIZE + i, users);
      if res != Done {
        return;
      }
      C.ReachesConcat(vm, UnmapSteps(root, va / PGSIZE, i), mid, [C.Unmap((root, va / PGSIZE + i))],
                      VmOf(m.M(), users));
      UnmapsOneMore(a.t, t, m.M().t, root, va / PGSIZE, i);
      i := i + 1;
      n := n + 1;
    }
    res := Done;
  }

  lemma NoSteps(vm: C.Vm)
    ensures C.Reaches(vm, [], vm) && C.Visible([]) == []
  {
  }

  /** What a run of unmaps leaves: exactly the pages outside the range. */
  lemma {:induction false} UnmapRange(vm: C.Vm, root: nat, v0: nat, n: nat, end: C.Vm)
    requires C.Inv(vm) && C.Reaches(vm, UnmapSteps(root, v0, n), end)
    ensures forall k :: k in end.leaf <==> k in vm.leaf && !(k.0 == root && v0 <= k.1 < v0 + n)
    ensures forall k :: k in end.leaf ==> end.leaf[k] == vm.leaf[k]
    decreases n
  {
    hide C.Inv, C.Reaches;
    if n == 0 {
      StayPut(vm, end);
    } else {
      var k := (root, v0 + n - 1);
      var mid := LastStep(vm, UnmapSteps(root, v0, n - 1), C.Unmap(k), end);
      UnmapRange(vm, root, v0, n - 1, mid);
    }
  }

  lemma StayPut(vm: C.Vm, end: C.Vm)
    requires C.Reaches(vm, [], end)
    ensures end == vm
  {
  }

  /** The state before the last step of a run. */
  lemma {:induction false} LastStep(vm: C.Vm, steps: seq<C.Step>, s: C.Step, end: C.Vm) returns (mid: C.Vm)
    requires C.Inv(vm) && C.Reaches(vm, steps + [s], end)
    ensures C.Reaches(vm, steps, mid) && C.Inv(mid) && C.Enabled(mid, s) && end == C.Next(mid, s)
    decreases |steps|
  {
    if steps == [] {
      assert ([] + [s])[1..] == [];
      mid := vm;
    } else {
      assert (steps + [s])[1..] == steps[1..] + [s];
      C.StepRefines(vm, steps[0]);
      mid := LastStep(C.Next(vm, steps[0]), steps[1..], s, end);
    }
  }

  // ----- fork: sharing a page -----

  lemma SetLeafRange(a: Forest, b: Forest, users: Users, r: nat, v: nat, ppn: nat, perm: Perm)
    requires Spaces(a, users) && MapsRange(a, b, r, v, 1, ppn, perm) && r in users.roots && v < users.top
    ensures Spaces(b, users) && Leaves(b, users) == Leaves(a, users)[(r, v) := Pte(true, perm, ppn)]
  {
    hide Look, Huge, Walk, Forest.Unshared, PageLeaf;
    assert RangePte(v, ppn, perm, v) == Pte(true, perm, ppn);
    forall w | 0 <= w < users.top && w != v ensures Look(b, r, w) == Look(a, r, w) {
    }
  }

  /** Memory with `n` frames taken off the free list and counted once. */
  function TookFrames(vm: C.Vm, n: nat): C.Vm
    requires n <= |vm.free|
  {
    vm.(free := vm.free[n..], count := map f | f in vm.count :: if f in vm.free[..n] then 1 else vm.count[f])
  }

  function CowPte(e: Pte): Pte {
    e.(perm := C.CowPerm(e.perm))
  }

  lemma MarkedFacts(a: Mem, users: Users, parent: nat, v: nat, f: nat, i: nat)
    requires Good(a, users) && parent in users.roots && v < users.top && Look(a.t, parent, v).v
    requires EndsAt(a.t, parent, v, f, i)
    ensures Settable(a.t, f, i, CowPte(Look(a.t, parent, v))) && LeafPerm(CowPte(Look(a.t, parent, v)).perm)
    ensures PageSet(a.t, SetSlot(a.t, f, i, CowPte(Look(a.t, parent, v))), parent, v, CowPte(Look(a.t, parent, v)))
  {
    hide Forest.Unshared, C.Inv, Look, Huge, Leaves, SetSlot, Settable, EndsAt, Walk, PageSet;
    LeafFacts(a, users, parent, v);
    EndsAtLook(a.t, parent, v, f, i);
    SetPage(a.t, parent, v, f, i, CowPte(Look(a.t, parent, v)));
  }

  lemma SetLook(a: Forest, b: Forest, root: nat, v: nat, e: Pte)
    requires PageSet(a, b, root, v, e) && a.Root(root) && v < VPNS
    ensures b.Unshared() && b.Root(root) && Look(b, root, v) == e
  {
  }

  lemma CowPteFields(e: Pte)
    ensures CowOf(e, CowPte(e))
  {
  }

  lemma NotFree(a: Mem, f: nat)
    requires a.Ok() && f in a.count && a.count[f] > 0
    ensures f !in a.free
  {
    hide Forest.Unshared;
  }

  lemma MarkedCount(a: Mem, b: Mem, c: Mem, ppn: nat, n: nat)
    requires a.Ok() && b.Ok() && Kept(b, c) && ppn in a.count && a.count[ppn] > 0
    requires b.free == a.free && b.count == a.count[ppn := a.count[ppn] + 1] && n == |a.free| - |c.free|
    ensures var took := map f | f in a.count :: if f in a.free[..n] then 1 else a.count[f];
            ppn in took && c.count == took[ppn := took[ppn] + 1]
  {
    hide Forest.Unshared, Mem.Ok;
    KeptCount(b, c, n);
    NotFree(a, ppn);
    var took := map f | f in a.count :: if f in a.free[..n] then 1 else a.count[f];
    assert ppn !in a.free[..n];
    assert c.count == took[ppn := took[ppn] + 1];
  }

  /** Marking one page and mapping it elsewhere, behind `n` table frames, is a `Share` step. */
  lemma ShareRun(vm: C.Vm, w: C.Vm, n: nat, k: C.Key, to: C.Key)
    requires C.Inv(vm) && k in vm.leaf && to !in vm.leaf && n <= |vm.free|
    requires w.pages == vm.pages && w.free == vm.free[n..]
    requires w.leaf == vm.leaf[k := CowPte(vm.leaf[k])][to := Pte(true, C.CowPerm(vm.leaf[k].perm), vm.leaf[k].ppn)]
    requires var took := TookFrames(vm, n).count;
             vm.leaf[k].ppn in took && w.count == took[vm.leaf[k].ppn := took[vm.leaf[k].ppn] + 1]
    ensures C.Inv(w) && C.Reaches(vm, C.Takes(n) + [C.Share(k, to)], w)
  {
    hide C.Reaches, C.Inv;
    var mid := TookFrames(vm, n);
    C.TakesReach(vm, mid, n);
    C.CowRefinesCopy(vm, C.Takes(n), mid);
    var s := C.Share(k, to);
    assert w == C.Next(mid, s);
    C.StepRefines(mid, s);
    C.ReachesOne(mid, s);
    C.ReachesConcat(vm, C.Takes(n), mid, [s], w);
  }

  /** The parent's half of a round of `ucopy_nocopy`: mark the page, raise its count. */
  method MarkPage(m: Memory, parent: nat, v: nat, ghost users: Users) returns (res: Outcome, pte: Pte)
    requires Good(m.M(), users) && parent in users.roots && v < users.top
    modifies m
    ensures res == Done <==> old(Look(m.M().t, parent, v).v)
    ensures res == Done || (res == Panicked && m.M() == old(m.M()))
    ensures res == Done ==> m.M().Ok() && pte == old(Look(m.M().t, parent, v)) && LeafPerm(CowPte(pte).perm)
    ensures res == Done ==> PageSet(old(m.M()).t, m.M().t, parent, v, CowPte(pte))
    ensures res == Done ==> m.M().t.Root(parent) && CowOf(old(Look(m.M().t, parent, v)), Look(m.M().t, parent, v))
    ensures res == Done ==> m.pages == old(m.pages) && m.free == old(m.free)
    ensures res == Done ==> pte.ppn in old(m.count) && old(m.count)[pte.ppn] > 0
                            && m.count == old(m.count)[pte.ppn := old(m.count)[pte.ppn] + 1]
  {
    hide Forest.Unshared, C.Inv, Look, Huge, Leaves, SetSlot, Settable, EndsAt, PageSet, Walk, Kept, CowPte, LeafPerm,
         Mem.Apart, Mem.Counted, Readable, SameMaps;
    pte := ZERO;
    ghost var a := m.M();
    var slot := m.Translate(parent, PageStart(v), false);
    match slot
    case Found(f, i) =>
      EndsAtLook(a.t, parent, v, f, i);
      pte := m.tables[f][i];
      if !pte.v {
        return Panicked, pte;
      }
      LeafFacts(a, users, parent, v);
      MarkedFacts(a, users, parent, v, f, i);
      m.SetPte(f, i, CowPte(pte));
      SetLook(a.t, m.M().t, parent, v, CowPte(pte));
      CowPteFields(pte);
      KeptOk(a, m.M());
      m.AddCount(pte.ppn);
      res := Done;
    case _ =>
      res := Panicked;
  }

  /** `map` of one whole frame. */
  method MapFrame(m: Memory, root: nat, v: nat, f: nat, perm: Perm) returns (r: MapResult)
    requires m.M().Ok() && m.M().t.Root(root) && LeafPerm(perm)
    modifies m
    ensures Kept(old(m.M()), m.M()) && m.M().t.Root(root)
    ensures r == Mapped ==> v <= MAXVPN && !Look(old(m.M()).t, root, v).v
    ensures r == Mapped ==> MapsRange(old(m.M()).t, m.M().t, root, v, 1, f, perm)
    ensures r == Refused ==> v > MAXVPN && m.M() == old(m.M())
    ensures r == Remap ==> v <= MAXVPN && Look(old(m.M()).t, root, v).v
    ensures r == NoMemory ==> m.free == [] && |old(m.free)| <= 1
    ensures |m.free| >= |old(m.free)| - 2
  {
    hide Forest.Unshared, Look, MapsRange, Vacant, Mem.Ok, Kept, LeafPerm;
    ghost var a := m.M();
    OnePage(v);
    OnePage(f);
    ghost var n;
    r, n := m.Map(root, v * PGSIZE, f * PGSIZE, PGSIZE, perm);
    if r == Mapped {
      VacantPage(a.t, root, v, n);
    }
  }

  /** Page `v` of the parent cannot go to the child: there is none, or the child has one there. */
  ghost predicate Stuck(t: Forest, parent: nat, child: nat, v: nat)
    requires t.Unshared() && t.Root(parent) && t.Root(child)
  {
    !Look(t, parent, v).v || Look(t, child, v).v
  }

  ghost predicate StuckWithin(t: Forest, parent: nat, child: nat, v0: nat, n: nat)
    requires t.Unshared() && t.Root(parent) && t.Root(child)
  {
    exists v: nat :: v0 <= v < v0 + n && Stuck(t, parent, child, v)
  }

  lemma StuckHere(t: Forest, parent: nat, child: nat, v0: nat, n: nat, v: nat)
    requires t.Unshared() && t.Root(parent) && t.Root(child) && v0 <= v < v0 + n && Stuck(t, parent, child, v)
    ensures StuckWithin(t, parent, child, v0, n)
  {
  }

  lemma StuckNowhere(t: Forest, parent: nat, child: nat, v0: nat, n: nat)
    requires t.Unshared() && t.Root(parent) && t.Root(child)
    requires forall v: nat :: v0 <= v < v0 + n ==> !Stuck(t, parent, child, v)
    ensures !StuckWithin(t, parent, child, v0, n)
  {
  }

  /** Page `v` went from parent to child: both entries are the parent's, copy-on-write; all others stay. */
  ghost predicate SharedEntry(was: map<C.Key, Pte>, now: map<C.Key, Pte>, parent: nat, child: nat, v: nat) {
    && (parent, v) in was && (parent, v) in now && (child, v) in now && (child, v) !in was
    && CowOf(was[(parent, v)], now[(parent, v)]) && CowOf(was[(parent, v)], now[(child, v)])
    && forall k :: k in was && k != (parent, v) ==> k in now && now[k] == was[k]
  }

  /** So did pages `v0 .. v`. */
  ghost predicate SharedPages(was: map<C.Key, Pte>, now: map<C.Key, Pte>, parent: nat, child: nat, v0: nat, v: nat) {
    && (forall w: nat :: v0 <= w < v ==> (parent, w) in was && (parent, w) in now && (child, w) in now)
    && (forall w: nat :: v0 <= w < v ==>
          CowOf(was[(parent, w)], now[(parent, w)]) && CowOf(was[(parent, w)], now[(child, w)]))
    && (forall k :: k in was && !(k.0 == parent && v0 <= k.1 < v) ==> k in now && now[k] == was[k])
  }

  lemma SharedMore(was: map<C.Key, Pte>, mid: map<C.Key, Pte>, now: map<C.Key, Pte>,
                   parent: nat, child: nat, v0: nat, v: nat)
    requires SharedPages(was, mid, parent, child, v0, v) && SharedEntry(mid, now, parent, child, v) && v0 <= v
    requires Handed(was, mid, child, v0, v) && parent != child
    ensures SharedPages(was, now, parent, child, v0, v + 1)
  {
    hide CowOf;
    assert (parent, v) in was;
    assert mid[(parent, v)] == was[(parent, v)];
  }

  lemma SharedNone(leaf: map<C.Key, Pte>, parent: nat, child: nat, v0: nat)
    ensures SharedPages(leaf, leaf, parent, child, v0, v0)
  {
  }

  /** One round of `ucopy_nocopy`: mark the parent's page copy-on-write and map it in the child. */
  method SharePage(m: Memory, parent: nat, child: nat, v: nat, ghost users: Users) returns (res: Outcome, ghost k: nat)
    requires Good(m.M(), users) && parent in users.roots && child in users.roots && parent != child && v < users.top
    modifies m
    ensures res == Done || res == Panicked
    ensures res == Panicked ==> Stuck(old(m.M()).t, parent, child, v) || (m.free == [] && |old(m.free)| <= 1)
    ensures res == Done ==> !Stuck(old(m.M()).t, parent, child, v) && |m.free| >= |old(m.free)| - 2
    ensures res == Done ==> Good(m.M(), users)
    ensures res == Done ==> C.Reaches(old(VmOf(m.M(), users)), C.Takes(k) + [C.Share((parent, v), (child, v))],
                                      VmOf(m.M(), users))
    ensures res == Done ==> Leaves(m.M().t, users).Keys == old(Leaves(m.M().t, users).Keys) + {(child, v)}
    ensures res == Done ==> SharedEntry(old(Leaves(m.M().t, users)), Leaves(m.M().t, users), parent, child, v)
  {
    hide Forest.Unshared, C.Inv, C.Reaches, Look, Huge, Leaves, PageSet, MapsRange, Walk, Mem.Apart, Mem.Counted,
         Vacant, SharedEntry, CowPte, CowOf, Readable, LeafPerm;
    k := 0;
    ghost var a := m.M();
    var pte;
    res, pte := MarkPage(m, parent, v, users);
    if res != Done {
      return;
    }
    ghost var b := m.M();
    LeafFacts(a, users, parent, v);
    SetLeaf(a.t, b.t, users, parent, v, CowPte(pte));
    OtherPage(a.t, b.t, parent, child, v, CowPte(pte));
    var r := MapFrame(m, child, v, pte.ppn, CowPte(pte).perm);
    if r != Mapped {
      return Panicked, 0;
    }
    k := |a.free| - |m.M().free|;
    SharedMem(a, b, m.M(), users, parent, child, v, pte, k);
  }

  lemma SharedMem(a: Mem, b: Mem, c: Mem, users: Users, parent: nat, child: nat, v: nat, pte: Pte, k: nat)
    requires Good(a, users) && parent in users.roots && child in users.roots && parent != child && v < users.top
    requires pte == Look(a.t, parent, v) && pte.v && pte.ppn in a.count && a.count[pte.ppn] > 0
    requires b.Ok() && PageSet(a.t, b.t, parent, v, CowPte(pte)) && Spaces(b.t, users)
    requires b.pages == a.pages && b.free == a.free && b.count == a.count[pte.ppn := a.count[pte.ppn] + 1]
    requires b.t.Root(child) && !Look(b.t, child, v).v
    requires Kept(b, c) && MapsRange(b.t, c.t, child, v, 1, pte.ppn, CowPte(pte).perm) && k == |a.free| - |c.free|
    ensures Good(c, users)
    ensures C.Reaches(VmOf(a, users), C.Takes(k) + [C.Share((parent, v), (child, v))], VmOf(c, users))
    ensures Leaves(c.t, users).Keys == Leaves(a.t, users).Keys + {(child, v)}
    ensures SharedEntry(Leaves(a.t, users), Leaves(c.t, users), parent, child, v)
  {
    hide Forest.Unshared, C.Inv, C.Reaches, Look, Huge, Leaves, PageSet, MapsRange, Walk, Mem.Apart, Mem.Counted;
    CowPteFields(pte);
    LeafFacts(a, users, parent, v);
    SetLeaf(a.t, b.t, users, parent, v, CowPte(pte));
    SetLeafRange(b.t, c.t, users, child, v, pte.ppn, CowPte(pte).perm);
    ChildVacant(a.t, b.t, users, parent, child, v, CowPte(pte));
    MarkedCount(a, b, c, pte.ppn, k);
    ShareRun(VmOf(a, users), VmOf(c, users), k, (parent, v), (child, v));
  }

  lemma OnePage(v: nat)
    ensures RangePages(v * PGSIZE, PGSIZE) == 1 && v * PGSIZE / PGSIZE == v
  {
  }

  lemma VacantPage(t: Forest, root: nat, v: nat, n: nat)
    requires Vacant(t, root, v, n) && n > 0
    ensures t.Unshared() && t.Root(root) && !Look(t, root, v).v
  {
  }

  lemma OtherPage(a: Forest, b: Forest, parent: nat, child: nat, v: nat, e: Pte)
    requires PageSet(a, b, parent, v, e) && child != parent && a.Root(child) && v < VPNS
    ensures b.Root(child) && Look(b, child, v) == Look(a, child, v)
  {
  }

  lemma ChildVacant(a: Forest, b: Forest, users: Users, parent: nat, child: nat, v: nat, e: Pte)
    requires Spaces(a, users) && PageSet(a, b, parent, v, e) && child in users.roots && child != parent && v < users.top
    requires b.Root(child) && !Look(b, child, v).v
    ensures (child, v) !in Leaves(a, users)
  {
  }

  function ShareSteps(parent: nat, child: nat, v0: nat, n: nat): (s: seq<C.Step>)
    ensures |s| == n
  {
    if n == 0 then [] else ShareSteps(parent, child, v0, n - 1) + [C.Share((parent, v0 + n - 1), (child, v0 + n - 1))]
  }

  /** One more page of a loop: its run, and what of it shows. */
  lemma OneMore(vm: C.Vm, steps: seq<C.Step>, mid: C.Vm, k: nat, s: C.Step, end: C.Vm)
    requires C.Reaches(vm, steps, mid) && C.Reaches(mid, C.Takes(k) + [s], end) && !s.TakeFrame?
    ensures C.Reaches(vm, steps + (C.Takes(k) + [s]), end)
    ensures C.Visible(steps + (C.Takes(k) + [s])) == C.Visible(steps) + [s]
  {
    hide C.Reaches;
    C.ReachesConcat(vm, steps, mid, C.Takes(k) + [s], end);
    C.VisibleConcat(steps, C.Takes(k) + [s]);
    C.VisibleConcat(C.Takes(k), [s]);
    C.TakesInvisible(k);
    assert [s][1..] == [];
  }

  /** The child has got the pages `v0 .. v`; no other page has come or gone. */
  ghost predicate Handed(was: map<C.Key, Pte>, now: map<C.Key, Pte>, child: nat, v0: nat, v: nat) {
    forall k: C.Key :: k in now <==> k in was || (k.0 == child && v0 <= k.1 < v)
  }

  lemma HandedOne(was: map<C.Key, Pte>, mid: map<C.Key, Pte>, now: map<C.Key, Pte>, child: nat, v0: nat, v: nat)
    requires Handed(was, mid, child, v0, v) && now.Keys == mid.Keys + {(child, v)} && v0 <= v
    ensures Handed(was, now, child, v0, v + 1)
  {
    forall k: C.Key ensures k in now <==> k in was || (k.0 == child && v0 <= k.1 < v + 1) {
      assert k in now <==> k in mid || k == (child, v);
    }
  }

  /** Pages not handed over yet are as they were at the start. */
  lemma StillStuck(a: Mem, b: Mem, users: Users, parent: nat, child: nat, v0: nat, v: nat, w: nat)
    requires Spaces(a.t, users) && Spaces(b.t, users) && parent in users.roots && child in users.roots
    requires parent != child
    requires Handed(Leaves(a.t, users), Leaves(b.t, users), child, v0, v) && v <= w < users.top
    ensures Stuck(b.t, parent, child, w) <==> Stuck(a.t, parent, child, w)
  {
    hide Forest.Unshared, Look, Huge, Leaves;
    LeafIff(a, users, parent, w);
    LeafIff(a, users, child, w);
    LeafIff(b, users, parent, w);
    LeafIff(b, users, child, w);
  }

  /** The page at which a fork loop over `size` bytes from page `v0` ends, one way or the other. */
  ghost function LoopEnd(t: Forest, parent: nat, v0: nat, size: nat, top: nat): (e: nat)
    requires t.Unshared() && t.Root(parent) && (size % PGSIZE != 0 ==> HasGap(t, parent, v0, top))
    requires size % PGSIZE == 0 ==> v0 + size / PGSIZE <= top
    ensures v0 <= e <= top && (size % PGSIZE == 0 ==> e == v0 + size / PGSIZE)
    ensures size % PGSIZE != 0 ==> e < top && !Look(t, parent, e).v
  {
    if size % PGSIZE == 0 then v0 + size / PGSIZE
    else
      var e :| v0 <= e < top && !Look(t, parent, e).v;
      e
  }

  /** The parent has an unmapped page between `v0` and `top`. */
  ghost predicate HasGap(t: Forest, parent: nat, v0: nat, top: nat)
    requires t.Unshared() && t.Root(parent)
  {
    exists v: nat :: v0 <= v < top && !Look(t, parent, v).v
  }

  /**
   Fork's sharing loop.  It ends at `va + size` or never, so for a size that is no
   multiple of the page size it runs past the last page and panics, at the first page that
   is not mapped if not before.  Otherwise it is one `Share` per page, behind frames for
   the child's tables, and with two frames a page it panics only if it meets a page the
   parent does not have or the child already has.
   */
  method UcopyNocopy(m: Memory, parent: nat, child: nat, va: nat, size: nat, ghost users: Users)
    returns (res: Outcome, ghost steps: seq<C.Step>)
    requires Good(m.M(), users) && parent in users.roots && child in users.roots && parent != child && va % PGSIZE == 0
    requires size % PGSIZE == 0 ==> va / PGSIZE + size / PGSIZE <= users.top
    requires size % PGSIZE != 0 ==> HasGap(m.M().t, parent, va / PGSIZE, users.top)
    modifies m
    ensures res == Done || res == Panicked
    ensures size % PGSIZE != 0 ==> res == Panicked
    ensures res == Done ==> Good(m.M(), users) && C.Reaches(old(VmOf(m.M(), users)), steps, VmOf(m.M(), users))
    ensures res == Done ==> C.Visible(steps) == ShareSteps(parent, child, va / PGSIZE, size / PGSIZE)
    ensures res == Done ==>
              && Handed(old(Leaves(m.M().t, users)), Leaves(m.M().t, users), child, va / PGSIZE,
                        va / PGSIZE + size / PGSIZE)
              && SharedPages(old(Leaves(m.M().t, users)), Leaves(m.M().t, users), parent, child, va / PGSIZE,
                             va / PGSIZE + size / PGSIZE)
    ensures res == Done ==> !StuckWithin(old(m.M()).t, parent, child, va / PGSIZE, size / PGSIZE)
    ensures size % PGSIZE == 0 && res == Panicked ==>
              StuckWithin(old(m.M()).t, parent, child, va / PGSIZE, size / PGSIZE) || m.free == []
    ensures |old(m.free)| >= 2 * (size / PGSIZE) ==>
              (res == Done <==>
               size % PGSIZE == 0 && !StuckWithin(old(m.M()).t, parent, child, va / PGSIZE, size / PGSIZE))
  {
    hide Forest.Unshared, C.Inv, C.Reaches, Look, Huge, Leaves, Mem.Ok, C.Visible, Readable, Stuck, Handed, HasGap,
         LoopEnd, StuckWithin, SharedPages, SharedEntry, Sharing;
    ghost var a := m.M();
    ghost var v0 := va / PGSIZE;
    ghost var end := LoopEnd(a.t, parent, v0, size, users.top);
    steps := [];
    SharingNone(a, users, parent, child, v0);
    var off := 0;
    var v := va / PGSIZE;
    while off != size
      invariant off % PGSIZE == 0 && v == v0 + off / PGSIZE && v <= end && Good(m.M(), users)
      invariant Sharing(a, m.M(), users, parent, child, v0, v, steps)
      decreases end - v
    {
      MoreToDo(off, size, end - v0);
      ghost var was := m.M();
      ghost var k;
      if v == end {
        EndStuck(a, parent, child, end);
      }
      SharingStuck(a, was, users, parent, child, v0, v, steps);
      res, k := SharePage(m, parent, child, v, users);
      if res != Done {
        if Stuck(a.t, parent, child, v) && v < v0 + size / PGSIZE {
          StuckHere(a.t, parent, child, v0, size / PGSIZE, v);
        }
        return;
      }
      SharingMore(a, was, m.M(), users, parent, child, v0, v, steps, k);
      steps := steps + (C.Takes(k) + [C.Share((parent, v), (child, v))]);
      off := off + PGSIZE;
      v := v + 1;
    }
    SharingDone(a, m.M(), users, parent, child, v0, v, steps);
    res := Done;
  }

  /** Where the sharing loop stands at page `v`. */
  ghost predicate Sharing(a: Mem, b: Mem, users: Users, parent: nat, child: nat, v0: nat, v: nat, steps: seq<C.Step>) {
    && Good(a, users) && Good(b, users) && parent in users.roots && child in users.roots && parent != child && v0 <= v
    && C.Reaches(VmOf(a, users), steps, VmOf(b, users)) && C.Visible(steps) == ShareSteps(parent, child, v0, v - v0)
    && Handed(Leaves(a.t, users), Leaves(b.t, users), child, v0, v)
    && SharedPages(Leaves(a.t, users), Leaves(b.t, users), parent, child, v0, v)
    && (forall w: nat :: v0 <= w < v ==> !Stuck(a.t, parent, child, w)) && |b.free| >= |a.free| - 2 * (v - v0)
  }

  lemma SharingNone(a: Mem, users: Users, parent: nat, child: nat, v0: nat)
    requires Good(a, users) && parent in users.roots && child in users.roots && parent != child
    ensures Sharing(a, a, users, parent, child, v0, v0, [])
  {
    hide Forest.Unshared, C.Inv, Look, Huge, Leaves, Mem.Ok, Readable, Handed, SharedPages, C.Reaches;
    NoSteps(VmOf(a, users));
    HandedNone(Leaves(a.t, users), child, v0);
    SharedNone(Leaves(a.t, users), parent, child, v0);
  }

  lemma SharingStuck(a: Mem, b: Mem, users: Users, parent: nat, child: nat, v0: nat, v: nat, steps: seq<C.Step>)
    requires Sharing(a, b, users, parent, child, v0, v, steps)
    ensures a.t.Unshared() && a.t.Root(parent) && a.t.Root(child)
    ensures b.t.Unshared() && b.t.Root(parent) && b.t.Root(child)
    ensures v < users.top ==> (Stuck(b.t, parent, child, v) <==> Stuck(a.t, parent, child, v))
    ensures |b.free| >= |a.free| - 2 * (v - v0)
  {
    hide Forest.Unshared, C.Inv, Look, Huge, Leaves, Readable, Handed, SharedPages, C.Reaches, Stuck;
    if v < users.top {
      StillStuck(a, b, users, parent, child, v0, v, v);
    }
  }

  lemma SharingMore(a: Mem, was: Mem, b: Mem, users: Users, parent: nat, child: nat, v0: nat, v: nat,
                    steps: seq<C.Step>, k: nat)
    requires Sharing(a, was, users, parent, child, v0, v, steps) && v < users.top && Good(b, users)
    requires C.Reaches(VmOf(was, users), C.Takes(k) + [C.Share((parent, v), (child, v))], VmOf(b, users))
    requires Leaves(b.t, users).Keys == Leaves(was.t, users).Keys + {(child, v)}
    requires SharedEntry(Leaves(was.t, users), Leaves(b.t, users), parent, child, v)
    requires !Stuck(was.t, parent, child, v) && |b.free| >= |was.free| - 2
    ensures Sharing(a, b, users, parent, child, v0, v + 1, steps + (C.Takes(k) + [C.Share((parent, v), (child, v))]))
  {
    hide Forest.Unshared, C.Inv, Look, Huge, Leaves, Mem.Ok, Readable, Handed, SharedPages, SharedEntry, C.Reaches,
         Stuck, C.Visible, C.Takes;
    SharingStuck(a, was, users, parent, child, v0, v, steps);
    OneMore(VmOf(a, users), steps, VmOf(was, users), k, C.Share((parent, v), (child, v)), VmOf(b, users));
    SharedMore(Leaves(a.t, users), Leaves(was.t, users), Leaves(b.t, users), parent, child, v0, v);
    HandedOne(Leaves(a.t, users), Leaves(was.t, users), Leaves(b.t, users), child, v0, v);
  }

  lemma SharingDone(a: Mem, b: Mem, users: Users, parent: nat, child: nat, v0: nat, v: nat, steps: seq<C.Step>)
    requires Sharing(a, b, users, parent, child, v0, v, steps)
    ensures C.Reaches(VmOf(a, users), steps, VmOf(b, users))
    ensures C.Visible(steps) == ShareSteps(parent, child, v0, v - v0)
    ensures Handed(Leaves(a.t, users), Leaves(b.t, users), child, v0, v)
    ensures SharedPages(Leaves(a.t, users), Leaves(b.t, users), parent, child, v0, v)
    ensures !StuckWithin(a.t, parent, child, v0, v - v0)
  {
    hide Forest.Unshared, C.Inv, Look, Huge, Leaves, Readable, Handed, SharedPages, C.Reaches, Stuck, C.Visible;
    StuckNowhere(a.t, parent, child, v0, v - v0);
  }

  lemma HandedNone(leaf: map<C.Key, Pte>, child: nat, v0: nat)
    ensures Handed(leaf, leaf, child, v0, v0)
  {
  }

  lemma EndStuck(a: Mem, parent: nat, child: nat, v: nat)
    requires a.t.Unshared() && a.t.Root(parent) && a.t.Root(child) && !Look(a.t, parent, v).v
    ensures Stuck(a.t, parent, child, v)
  {
  }

  /** Where a loop that stops at `size` only has not stopped, there is a page left or no stopping. */
  lemma MoreToDo(off: nat, size: nat, pages: nat)
    requires off % PGSIZE == 0 && off != size && off / PGSIZE <= pages
    requires (size % PGSIZE == 0 ==> pages == size / PGSIZE)
    ensures off / PGSIZE == pages ==> size % PGSIZE != 0
    ensures (off + PGSIZE) / PGSIZE == off / PGSIZE + 1 && (off + PGSIZE) % PGSIZE == 0
  {
  }

  lemma LeafIff(m: Mem, users: Users, r: nat, v: nat)
    requires Spaces(m.t, users) && r in users.roots && v < users.top
    ensures (r, v) in Leaves(m.t, users) <==> Look(m.t, r, v).v
  {
  }

  // ----- fresh pages: ualloc and the eager ucopy -----

  /** A fresh frame mapped at `k` and then `n` table frames taken, as one run. */
  lemma FreshRun(vm: C.Vm, w: C.Vm, n: nat, s: C.Step, k: C.Key, perm: Perm, data: seq<nat>)
    requires C.Inv(vm) && C.Enabled(vm, s) && vm.free != []
    requires C.Next(vm, s) == C.Fresh(vm, k, perm, data) && !s.TakeFrame?
    requires n <= |C.Fresh(vm, k, perm, data).free| && w == TookFrames(C.Fresh(vm, k, perm, data), n)
    ensures C.Inv(w) && C.Reaches(vm, [s] + C.Takes(n), w)
    ensures C.Visible([s] + C.Takes(n)) == [s]
  {
    hide C.Reaches, C.Inv, C.Fresh, C.ZeroPage, C.Next, C.Enabled, C.SpecNext, C.Contents;
    C.StepRefines(vm, s);
    C.ReachesOne(vm, s);
    var mid := C.Next(vm, s);
    C.TakesReach(mid, w, n);
    C.CowRefinesCopy(mid, C.Takes(n), w);
    C.ReachesConcat(vm, [s], mid, C.Takes(n), w);
    C.VisibleConcat([s], C.Takes(n));
    C.TakesInvisible(n);
    assert [s][1..] == [];
  }

  /** Page `v` of `root` was vacant and now holds `data` in a fresh frame, behind `n` table frames. */
  ghost predicate GotPage(a: Mem, b: Mem, users: Users, root: nat, v: nat, perm: Perm, data: seq<nat>, n: nat) {
    && Spaces(a.t, users) && b.Ok() && Spaces(b.t, users) && Readable(Leaves(b.t, users))
    && a.free != [] && (root, v) !in Leaves(a.t, users) && n <= |a.free| - 1
    && VmOf(b, users) == TookFrames(C.Fresh(VmOf(a, users), (root, v), perm, data), n)
  }

  /** Allocate a frame holding `data` and map it at page `v`; a refusal gives the frame back. */
  method NewPage(m: Memory, root: nat, v: nat, data: seq<nat>, perm: Perm, ghost users: Users)
    returns (res: Outcome, ghost n: nat)
    requires Good(m.M(), users) && root in users.roots && |data| == PGSIZE && (perm.r || perm.x)
    requires v < users.top || v > MAXVPN || Look(m.M().t, root, v).v
    modifies m
    ensures res == Panicked ==> (m.free == [] && |old(m.free)| <= 2) || (v <= MAXVPN && old(Look(m.M().t, root, v).v))
    ensures res == Done ==> !old(Look(m.M().t, root, v).v) && |m.free| >= |old(m.free)| - 3
    ensures res == Failed ==> v > MAXVPN && m.M() == old(m.M())
    ensures res == Done ==> v < users.top && GotPage(old(m.M()), m.M(), users, root, v, perm, data, n)
    ensures res == Done ==> old(m.free) != [] && MapsRange(old(m.M()).t, m.M().t, root, v, 1, old(m.free)[0], perm)
  {
    hide Forest.Unshared, C.Inv, Look, Huge, Leaves, MapsRange, Walk, Mem.Apart, Mem.Counted, Vacant, Allocated,
         Deallocated, GotPage;
    n := 0;
    ghost var a := m.M();
    var ok, f := m.AllocPage(data);
    if !ok {
      return Panicked, 0;
    }
    ghost var b := m.M();
    AllocFacts(a, users, data);
    var r := MapFrame(m, root, v, f, perm);
    match r
    case Refused =>
      m.Dealloc(f);
      res := Failed;
    case Mapped =>
      n := |b.free| - |m.M().free|;
      GotPageMem(a, m.M(), users, root, v, perm, data, n);
      res := Done;
    case _ =>
      res := Panicked;
  }

  lemma AllocFacts(a: Mem, users: Users, data: seq<nat>)
    requires a.Ok() && a.free != []
    ensures var b := Allocated(a, data);
            && b.t == a.t && |b.free| == |a.free| - 1
            && a.free[0] in b.pages && a.free[0] in b.count && b.count[a.free[0]] == 1
            && Deallocated(b, a.free[0]) == a
  {
    assert a.free[0] in a.free;
    assert [a.free[0]] + a.free[1..] == a.free;
  }

  lemma GotPageMem(a: Mem, c: Mem, users: Users, root: nat, v: nat, perm: Perm, data: seq<nat>, n: nat)
    requires Good(a, users) && root in users.roots && a.free != [] && (perm.r || perm.x)
    requires v < users.top || v > MAXVPN || Look(a.t, root, v).v
    requires !Look(a.t, root, v).v && Allocated(a, data).Ok() && Kept(Allocated(a, data), c)
    requires MapsRange(a.t, c.t, root, v, 1, a.free[0], perm) && v <= MAXVPN
    requires n == |a.free| - 1 - |c.free|
    ensures v < users.top && GotPage(a, c, users, root, v, perm, data, n)
  {
    hide Forest.Unshared, C.Inv, Look, Huge, Leaves, MapsRange, Walk, Mem.Apart, Mem.Counted;
    LeafIff(a, users, root, v);
    SetLeafRange(a.t, c.t, users, root, v, a.free[0], perm);
    KeptCount(Allocated(a, data), c, n);
  }

  lemma KeptCount(b: Mem, c: Mem, n: nat)
    requires b.Ok() && Kept(b, c) && n == |b.free| - |c.free|
    ensures c.count == map f | f in b.count :: if f in b.free[..n] then 1 else b.count[f]
  {
    hide Forest.Unshared;
    forall g | g in b.count ensures c.count[g] == if g in b.free[..n] then 1 else b.count[g] {
      TakenCount(b, c, g);
    }
  }
}
