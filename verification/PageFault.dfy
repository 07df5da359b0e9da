/**
 The copy-on-write fault, `uload_page`, and the eager copy, `ucopy`, on the page tables
 themselves: each is the corresponding step of the copy-on-write machine.
 */
module PageFault {
  import opened PageTableEntry
  import opened RadixTree
  import opened Paging
  import opened UserMemory
  import C = CowFork
  import A = AddressSpace

  function Writable(e: Pte): Pte {
    e.(perm := e.perm.(w := true))
  }

  /** Writing one page's entry, readable as before, changes one leaf. */
  lemma LeafSet(a: Mem, users: Users, root: nat, v: nat, f: nat, i: nat, e: Pte)
    requires Good(a, users) && root in users.roots && v < users.top && EndsAt(a.t, root, v, f, i)
    requires e.v && (e.perm.r || e.perm.x)
    ensures Settable(a.t, f, i, e) && Spaces(SetSlot(a.t, f, i, e), users)
    ensures Leaves(SetSlot(a.t, f, i, e), users) == Leaves(a.t, users)[(root, v) := e]
  {
    hide Forest.Unshared, C.Inv, Look, Huge, Leaves, SetSlot, Settable, EndsAt, Walk, PageSet;
    EndsAtLook(a.t, root, v, f, i);
    SlotFacts(a.t, f, i);
    SetPage(a.t, root, v, f, i, e);
    SetLeaf(a.t, SetSlot(a.t, f, i, e), users, root, v, e);
  }

  lemma LoadRun(vm: C.Vm, k: C.Key)
    requires C.Inv(vm) && k in vm.leaf && vm.leaf[k].ppn in vm.count && C.CanLoad(vm, k) && Readable(vm.leaf)
    ensures C.Inv(C.Loaded(vm, k)) && Readable(C.Loaded(vm, k).leaf)
    ensures C.Reaches(vm, [C.Load(k)], C.Loaded(vm, k))
  {
    hide C.Inv, C.Reaches, C.Loaded, C.SpecNext, C.Contents;
    if vm.count[vm.leaf[k].ppn] == 1 {
      OwnedLoad(vm, k);
    } else {
      CopiedOut(vm, k);
    }
    C.StepRefines(vm, C.Load(k));
    C.ReachesOne(vm, C.Load(k));
  }

  /** A sharer's copy, in the order of the source: new frame, new entry, old frame dropped. */
  lemma CopiedOut(vm: C.Vm, k: C.Key)
    requires C.Inv(vm) && k in vm.leaf && vm.count[vm.leaf[k].ppn] != 1 && vm.free != []
    ensures var f, g := vm.leaf[k].ppn, vm.free[0];
            && f in vm.pages && f in vm.count && f != g
            && C.Loaded(vm, k) == C.Vm(vm.leaf[k := Pte(true, Writable(vm.leaf[k]).perm, g)],
                                       vm.pages[g := vm.pages[f]],
                                       vm.free[1..], vm.count[g := 1][f := vm.count[f] - 1])
  {
    hide C.CountsOk, C.WritesOk;
    assert vm.free[0] in vm.free;
  }

  /** The frame is counted once. */
  predicate SoleOwner(m: Mem, f: nat) {
    f in m.count && m.count[f] == 1
  }

  /** Page `v` alone has another entry: writable, with its other flags, in its own frame or a fresh one. */
  ghost predicate MadeWritable(a: Mem, b: Mem, users: Users, root: nat, v: nat) {
    && Spaces(a.t, users) && Spaces(b.t, users)
    && var was, now := Leaves(a.t, users), Leaves(b.t, users);
    && now.Keys == was.Keys && (root, v) in was && (forall k :: k in was && k != (root, v) ==> now[k] == was[k])
    && (if SoleOwner(a, was[(root, v)].ppn) then WritableOf(was[(root, v)], now[(root, v)], was[(root, v)].ppn)
        else a.free != [] && WritableOf(was[(root, v)], now[(root, v)], a.free[0]))
  }

  /**
   The fault path.  It never looks at the faulting access: any mapped page becomes
   writable, copied first when its frame is shared.
   */
  method UloadPage(m: Memory, root: nat, va: nat, ghost users: Users) returns (res: Outcome)
    requires Good(m.M(), users) && root in users.roots && (va / PGSIZE < users.top || va > MAXVA)
    modifies m
    ensures res == Failed ==> va > MAXVA || !old(Look(m.M().t, root, va / PGSIZE).v)
    ensures res == Panicked ==> va <= MAXVA && (!old(Look(m.M().t, root, va / PGSIZE).v) || m.free == [])
    ensures res != Done ==> m.M() == old(m.M())
    ensures res == Done ==> va <= MAXVA && old(Look(m.M().t, root, va / PGSIZE).v) && Good(m.M(), users)
    ensures va <= MAXVA && old(Look(m.M().t, root, va / PGSIZE).v) ==>
              (res == Done <==> old(SoleOwner(m.M(), Look(m.M().t, root, va / PGSIZE).ppn)) || old(m.free) != [])
    ensures res == Done ==> MadeWritable(old(m.M()), m.M(), users, root, va / PGSIZE)
    ensures res == Done ==> C.Reaches(old(VmOf(m.M(), users)), [C.Load((root, va / PGSIZE))], VmOf(m.M(), users))
  {
    hide Forest.Unshared, C.Inv, C.Reaches, C.Loaded, Look, Huge, Settable, EndsAt, Leaves, SetSlot, Mem.Apart,
         Mem.Counted, Readable, MadeWritable;
    ghost var a := m.M();
    var v := va / PGSIZE;
    var slot := m.Translate(root, va, false);
    match slot
    case Found(f, i) =>
      EndsAtLook(a.t, root, v, f, i);
      var pte := m.tables[f][i];
      if !pte.v {
        return Panicked;
      }
      res := LoadPage(m, root, v, f, i, pte, users);
    case _ =>
      res := Failed;
  }

  /** What `uload_page` does once it holds a valid entry. */
  method LoadPage(m: Memory, root: nat, v: nat, f: nat, i: nat, pte: Pte, ghost users: Users) returns (res: Outcome)
    requires Good(m.M(), users) && root in users.roots && v < users.top && EndsAt(m.M().t, root, v, f, i)
    requires pte == Look(m.M().t, root, v) && pte.v
    modifies m
    ensures res == Panicked ==> m.M() == old(m.M()) && m.free == []
    ensures res != Panicked ==> res == Done && Good(m.M(), users)
    ensures res == Done <==> old(SoleOwner(m.M(), pte.ppn)) || old(m.free) != []
    ensures res == Done ==> MadeWritable(old(m.M()), m.M(), users, root, v)
    ensures res == Done ==> C.Reaches(old(VmOf(m.M(), users)), [C.Load((root, v))], VmOf(m.M(), users))
  {
    hide Forest.Unshared, C.Inv, C.Reaches, C.Loaded, Look, Huge, Settable, EndsAt, Leaves, SetSlot, Mem.Apart,
         Mem.Counted, MadeWritable;
    ghost var a := m.M();
    ghost var vm := VmOf(a, users);
    LeafFacts(a, users, root, v);
    if m.count[pte.ppn] == 1 {
      LeafSet(a, users, root, v, f, i, Writable(pte));
      m.SetPte(f, i, Writable(pte));
      OwnedLoad(vm, (root, v));
      KeptOk(a, m.M());
      LoadRun(vm, (root, v));
      WritableHere(a, m.M(), users, root, v, pte.ppn);
      return Done;
    }
    var ok, g := m.AllocPage(m.pages[pte.ppn]);
    if !ok {
      return Panicked;
    }
    var own := Writable(pte).(ppn := g);
    LeafSet(a, users, root, v, f, i, own);
    ghost var b := m.M();
    m.SetPte(f, i, own);
    KeptOk(b, m.M());
    CopiedOut(vm, (root, v));
    m.Dealloc(pte.ppn);
    LoadRun(vm, (root, v));
    assert VmOf(m.M(), users) == C.Loaded(vm, (root, v));
    WritableHere(a, m.M(), users, root, v, g);
    res := Done;
  }

  lemma WritableHere(a: Mem, b: Mem, users: Users, root: nat, v: nat, f: nat)
    requires Good(a, users) && Spaces(b.t, users) && (root, v) in Leaves(a.t, users)
    requires var e := Leaves(a.t, users)[(root, v)];
             && Leaves(b.t, users) == Leaves(a.t, users)[(root, v) := Writable(e).(ppn := f)]
             && if SoleOwner(a, e.ppn) then f == e.ppn else a.free != [] && f == a.free[0]
    ensures MadeWritable(a, b, users, root, v)
  {
    hide Forest.Unshared, C.Inv, Look, Huge, Leaves, Mem.Ok, Readable;
  }

  lemma OwnedLoad(vm: C.Vm, k: C.Key)
    requires C.Inv(vm) && k in vm.leaf && vm.count[vm.leaf[k].ppn] == 1
    ensures C.Loaded(vm, k) == vm.(leaf := vm.leaf[k := Writable(vm.leaf[k])])
  {
  }

  // ----- ucopy: fork's copy of the stack -----

  function CopySteps(parent: nat, child: nat, v0: nat, n: nat): (s: seq<C.Step>)
    ensures |s| == n
  {
    if n == 0 then [] else CopySteps(parent, child, v0, n - 1) + [C.Copy((parent, v0 + n - 1), (child, v0 + n - 1))]
  }

  /** The child has got page `v` with the parent's flags, in a frame of its own; all other entries stay. */
  ghost predicate CopiedEntry(was: map<C.Key, Pte>, now: map<C.Key, Pte>, parent: nat, child: nat, v: nat) {
    && (parent, v) in was && (child, v) !in was && (child, v) in now
    && now[(child, v)].v && now[(child, v)].perm == was[(parent, v)].perm
    && (forall k :: k in was ==> k in now && now[k] == was[k] && was[k].ppn != now[(child, v)].ppn)
  }

  /** So it has pages `v0 .. v`. */
  ghost predicate CopiedPages(was: map<C.Key, Pte>, now: map<C.Key, Pte>, parent: nat, child: nat, v0: nat, v: nat) {
    && (forall k :: k in was ==> k in now && now[k] == was[k])
    && (forall w: nat :: v0 <= w < v ==>
          && (parent, w) in was && (child, w) in now
          && now[(child, w)].v && now[(child, w)].perm == was[(parent, w)].perm)
    && (forall w: nat, k :: v0 <= w < v && k in was && (child, w) in now ==> was[k].ppn != now[(child, w)].ppn)
  }

  lemma CopiedMore(was: map<C.Key, Pte>, mid: map<C.Key, Pte>, now: map<C.Key, Pte>,
                   parent: nat, child: nat, v0: nat, v: nat)
    requires CopiedPages(was, mid, parent, child, v0, v) && CopiedEntry(mid, now, parent, child, v) && v0 <= v
    requires Handed(was, mid, child, v0, v) && parent != child
    ensures CopiedPages(was, now, parent, child, v0, v + 1)
  {
    assert (parent, v) in was;
  }

  lemma CopiedNone(leaf: map<C.Key, Pte>, parent: nat, child: nat, v0: nat)
    ensures CopiedPages(leaf, leaf, parent, child, v0, v0)
  {
  }

  lemma CopyRun(a: Mem, b: Mem, users: Users, parent: nat, child: nat, v: nat, n: nat)
    requires Good(a, users) && parent in users.roots && v < users.top && Look(a.t, parent, v).v
    requires Look(a.t, parent, v).ppn in a.pages
    requires GotPage(a, b, users, child, v, Look(a.t, parent, v).perm, a.pages[Look(a.t, parent, v).ppn], n)
    ensures Good(b, users)
    ensures C.Reaches(VmOf(a, users), [C.Copy((parent, v), (child, v))] + C.Takes(n), VmOf(b, users))
    ensures C.Visible([C.Copy((parent, v), (child, v))] + C.Takes(n)) == [C.Copy((parent, v), (child, v))]
    ensures Leaves(b.t, users).Keys == Leaves(a.t, users).Keys + {(child, v)}
    ensures CopiedEntry(Leaves(a.t, users), Leaves(b.t, users), parent, child, v)
  {
    hide Forest.Unshared, C.Inv, C.Reaches, C.Visible, Look, Huge, Leaves, Mem.Apart, Mem.Counted;
    LeafFacts(a, users, parent, v);
    var vm := VmOf(a, users);
    FreshRun(vm, VmOf(b, users), n, C.Copy((parent, v), (child, v)), (child, v), Look(a.t, parent, v).perm,
             a.pages[Look(a.t, parent, v).ppn]);
    FreshEntry(vm, (child, v), Look(a.t, parent, v).perm);
  }

  lemma FreshEntry(vm: C.Vm, k: C.Key, perm: Perm)
    requires C.Inv(vm) && vm.free != [] && k !in vm.leaf
    ensures forall j :: j in vm.leaf ==> vm.leaf[j].ppn != vm.free[0]
  {
    hide C.CountsOk, C.WritesOk;
    C.FreshFrame(vm);
  }

  lemma ReadableLeaf(a: Mem, users: Users, root: nat, v: nat)
    requires Good(a, users) && root in users.roots && v < users.top && Look(a.t, root, v).v
    ensures Look(a.t, root, v).perm.r || Look(a.t, root, v).perm.x
  {
    hide Forest.Unshared, C.Inv, Look, Huge;
    assert (root, v) in VmOf(a, users).leaf;
  }

  /** One round of `ucopy`: a fresh frame for the child with the parent's bytes and flags. */
  method CopyPage(m: Memory, parent: nat, child: nat, v: nat, ghost users: Users) returns (res: Outcome, ghost n: nat)
    requires Good(m.M(), users) && parent in users.roots && child in users.roots && parent != child && v < users.top
    modifies m
    ensures res == Done || res == Panicked
    ensures res == Panicked ==> Stuck(old(m.M()).t, parent, child, v) || (m.free == [] && |old(m.free)| <= 2)
    ensures res == Done ==> !Stuck(old(m.M()).t, parent, child, v) && |m.free| >= |old(m.free)| - 3
    ensures res == Done ==> Good(m.M(), users)
    ensures res == Done ==>
              C.Reaches(old(VmOf(m.M(), users)), [C.Copy((parent, v), (child, v))] + C.Takes(n), VmOf(m.M(), users))
    ensures res == Done ==>
              C.Visible([C.Copy((parent, v), (child, v))] + C.Takes(n)) == [C.Copy((parent, v), (child, v))]
    ensures res == Done ==> Leaves(m.M().t, users).Keys == old(Leaves(m.M().t, users).Keys) + {(child, v)}
    ensures res == Done ==> CopiedEntry(old(Leaves(m.M().t, users)), Leaves(m.M().t, users), parent, child, v)
  {
    hide Forest.Unshared, C.Inv, C.Reaches, C.Visible, Look, Huge, EndsAt, Leaves, Mem.Apart, Mem.Counted, Readable,
         GotPage, MapsRange, CopiedEntry;
    n := 0;
    ghost var a := m.M();
    var slot := m.Translate(parent, PageStart(v), false);
    match slot
    case Found(f, i) =>
      EndsAtLook(a.t, parent, v, f, i);
      var pte := m.tables[f][i];
      if !pte.v {
        return Panicked, 0;
      }
      LeafFacts(a, users, parent, v);
      ReadableLeaf(a, users, parent, v);
      res, n := NewPage(m, child, v, m.pages[pte.ppn], pte.perm, users);
      if res == Done {
        CopyRun(a, m.M(), users, parent, child, v, n);
      } else {
        res := Panicked;
      }
    case _ =>
      res := Panicked;
  }

  lemma OneMoreCopy(vm: C.Vm, steps: seq<C.Step>, mid: C.Vm, k: nat, s: C.Step, end: C.Vm)
    requires C.Reaches(vm, steps, mid) && C.Reaches(mid, [s] + C.Takes(k), end) && C.Visible([s] + C.Takes(k)) == [s]
    ensures C.Reaches(vm, steps + ([s] + C.Takes(k)), end)
    ensures C.Visible(steps + ([s] + C.Takes(k))) == C.Visible(steps) + [s]
  {
    hide C.Reaches;
    C.ReachesConcat(vm, steps, mid, [s] + C.Takes(k), end);
    C.VisibleConcat(steps, [s] + C.Takes(k));
  }

  /**
   The eager loop.  Like the sharing loop it ends at `va + size` or never.  When it ends it is
   one `Copy` per page, and with three frames a page it panics only if it meets a page the
   parent does not have or the child already has.
   */
  method Ucopy(m: Memory, parent: nat, child: nat, va: nat, size: nat, ghost users: Users)
    returns (res: Outcome, ghost steps: seq<C.Step>)
    requires Good(m.M(), users) && parent in users.roots && child in users.roots && parent != child && va % PGSIZE == 0
    requires size % PGSIZE == 0 ==> va / PGSIZE + size / PGSIZE <= users.top
    requires size % PGSIZE != 0 ==> HasGap(m.M().t, parent, va / PGSIZE, users.top)
    modifies m
    ensures res == Done || res == Panicked
    ensures size % PGSIZE != 0 ==> res == Panicked
    ensures res == Done ==> Good(m.M(), users) && C.Reaches(old(VmOf(m.M(), users)), steps, VmOf(m.M(), users))
    ensures res == Done ==> C.Visible(steps) == CopySteps(parent, child, va / PGSIZE, size / PGSIZE)
    ensures res == Done ==>
              && Handed(old(Leaves(m.M().t, users)), Leaves(m.M().t, users), child, va / PGSIZE,
                        va / PGSIZE + size / PGSIZE)
              && CopiedPages(old(Leaves(m.M().t, users)), Leaves(m.M().t, users), parent, child, va / PGSIZE,
                             va / PGSIZE + size / PGSIZE)
    ensures res == Done ==> !StuckWithin(old(m.M()).t, parent, child, va / PGSIZE, size / PGSIZE)
    ensures size % PGSIZE == 0 && res == Panicked ==>
              StuckWithin(old(m.M()).t, parent, child, va / PGSIZE, size / PGSIZE) || m.free == []
    ensures |old(m.free)| >= 3 * (size / PGSIZE) ==>
              (res == Done <==>
               size % PGSIZE == 0 && !StuckWithin(old(m.M()).t, parent, child, va / PGSIZE, size / PGSIZE))
  {
    hide Forest.Unshared, C.Inv, C.Reaches, Look, Huge, Leaves, Mem.Ok, C.Visible, Readable, Stuck, Handed, HasGap,
         LoopEnd, StuckWithin, CopiedPages, CopiedEntry, Copying;
    ghost var a := m.M();
    ghost var v0 := va / PGSIZE;
    ghost var end := LoopEnd(a.t, parent, v0, size, users.top);
    steps := [];
    CopyingNone(a, users, parent, child, v0);
    var off := 0;
    var v := va / PGSIZE;
    while off != size
      invariant off % PGSIZE == 0 && v == v0 + off / PGSIZE && v <= end && Good(m.M(), users)
      invariant Copying(a, m.M(), users, parent, child, v0, v, steps)
      decreases end - v
    {
      MoreToDo(off, size, end - v0);
      ghost var was := m.M();
      ghost var k;
      if v == end {
        EndStuck(a, parent, child, end);
      }
      CopyingStuck(a, was, users, parent, child, v0, v, steps);
      res, k := CopyPage(m, parent, child, v, users);
      if res != Done {
        if Stuck(a.t, parent, child, v) && v < v0 + size / PGSIZE {
          StuckHere(a.t, parent, child, v0, size / PGSIZE, v);
        }
        return;
      }
      CopyingMore(a, was, m.M(), users, parent, child, v0, v, steps, k);
      steps := steps + ([C.Copy((parent, v), (child, v))] + C.Takes(k));
      off := off + PGSIZE;
      v := v + 1;
    }
    CopyingDone(a, m.M(), users, parent, child, v0, v, steps);
    res := Done;
  }

  /** Where the copying loop stands at page `v`. */
  ghost predicate Copying(a: Mem, b: Mem, users: Users, parent: nat, child: nat, v0: nat, v: nat, steps: seq<C.Step>) {
    && Good(a, users) && Good(b, users) && parent in users.roots && child in users.roots && parent != child && v0 <= v
    && C.Reaches(VmOf(a, users), steps, VmOf(b, users)) && C.Visible(steps) == CopySteps(parent, child, v0, v - v0)
    && Handed(Leaves(a.t, users), Leaves(b.t, users), child, v0, v)
    && CopiedPages(Leaves(a.t, users), Leaves(b.t, users), parent, child, v0, v)
    && (forall w: nat :: v0 <= w < v ==> !Stuck(a.t, parent, child, w)) && |b.free| >= |a.free| - 3 * (v - v0)
  }

  lemma CopyingNone(a: Mem, users: Users, parent: nat, child: nat, v0: nat)
    requires Good(a, users) && parent in users.roots && child in users.roots && parent != child
    ensures Copying(a, a, users, parent, child, v0, v0, [])
  {
    hide Forest.Unshared, C.Inv, Look, Huge, Leaves, Mem.Ok, Readable, Handed, CopiedPages, C.Reaches;
    NoSteps(VmOf(a, users));
    HandedNone(Leaves(a.t, users), child, v0);
    CopiedNone(Leaves(a.t, users), parent, child, v0);
  }

  lemma CopyingStuck(a: Mem, b: Mem, users: Users, parent: nat, child: nat, v0: nat, v: nat, steps: seq<C.Step>)
    requires Copying(a, b, users, parent, child, v0, v, steps)
    ensures a.t.Unshared() && a.t.Root(parent) && a.t.Root(child)
    ensures b.t.Unshared() && b.t.Root(parent) && b.t.Root(child)
    ensures v < users.top ==> (Stuck(b.t, parent, child, v) <==> Stuck(a.t, parent, child, v))
    ensures |b.free| >= |a.free| - 3 * (v - v0)
  {
    hide Forest.Unshared, C.Inv, Look, Huge, Leaves, Readable, Handed, CopiedPages, C.Reaches, Stuck;
    if v < users.top {
      StillStuck(a, b, users, parent, child, v0, v, v);
    }
  }

  lemma CopyingMore(a: Mem, was: Mem, b: Mem, users: Users, parent: nat, child: nat, v0: nat, v: nat,
                    steps: seq<C.Step>, k: nat)
    requires Copying(a, was, users, parent, child, v0, v, steps) && v < users.top && Good(b, users)
    requires C.Reaches(VmOf(was, users), [C.Copy((parent, v), (child, v))] + C.Takes(k), VmOf(b, users))
    requires C.Visible([C.Copy((parent, v), (child, v))] + C.Takes(k)) == [C.Copy((parent, v), (child, v))]
    requires Leaves(b.t, users).Keys == Leaves(was.t, users).Keys + {(child, v)}
    requires CopiedEntry(Leaves(was.t, users), Leaves(b.t, users), parent, child, v)
    requires !Stuck(was.t, parent, child, v) && |b.free| >= |was.free| - 3
    ensures Copying(a, b, users, parent, child, v0, v + 1, steps + ([C.Copy((parent, v), (child, v))] + C.Takes(k)))
  {
    hide Forest.Unshared, C.Inv, Look, Huge, Leaves, Mem.Ok, Readable, Handed, CopiedPages, CopiedEntry, C.Reaches,
         Stuck, C.Visible, C.Takes;
    CopyingStuck(a, was, users, parent, child, v0, v, steps);
    OneMoreCopy(VmOf(a, users), steps, VmOf(was, users), k, C.Copy((parent, v), (child, v)), VmOf(b, users));
    CopiedMore(Leaves(a.t, users), Leaves(was.t, users), Leaves(b.t, users), parent, child, v0, v);
    HandedOne(Leaves(a.t, users), Leaves(was.t, users), Leaves(b.t, users), child, v0, v);
  }

  lemma CopyingDone(a: Mem, b: Mem, users: Users, parent: nat, child: nat, v0: nat, v: nat, steps: seq<C.Step>)
    requires Copying(a, b, users, parent, child, v0, v, steps)
    ensures C.Reaches(VmOf(a, users), steps, VmOf(b, users))
    ensures C.Visible(steps) == CopySteps(parent, child, v0, v - v0)
    ensures Handed(Leaves(a.t, users), Leaves(b.t, users), child, v0, v)
    ensures CopiedPages(Leaves(a.t, users), Leaves(b.t, users), parent, child, v0, v)
    ensures !StuckWithin(a.t, parent, child, v0, v - v0)
  {
    hide Forest.Unshared, C.Inv, Look, Huge, Leaves, Readable, Handed, CopiedPages, C.Reaches, Stuck, C.Visible;
    StuckNowhere(a.t, parent, child, v0, v - v0);
  }

  /** The contents a child has after either loop: the parent's, page for page. */
  lemma {:induction false} CopiedContents(c: C.Spec, parent: nat, child: nat, v0: nat, n: nat, v: nat)
    requires parent != child && v0 <= v < v0 + n
    requires forall w :: v0 <= w < v0 + n ==> (parent, w) in c
    ensures var d := C.SpecRun(c, CopySteps(parent, child, v0, n));
            var e := C.SpecRun(c, ShareSteps(parent, child, v0, n));
            && d == e && (child, v) in d && (parent, v) in d && d[(child, v)] == c[(parent, v)] == d[(parent, v)]
    decreases n
  {
    CopyShareSame(c, parent, child, v0, n);
    ParentKept(c, parent, child, v0, n, v);
    A.SpecSnoc(c, CopySteps(parent, child, v0, n - 1), C.Copy((parent, v0 + n - 1), (child, v0 + n - 1)));
    ParentKept(c, parent, child, v0, n - 1, v0 + n - 1);
    if v < v0 + n - 1 {
      CopiedContents(c, parent, child, v0, n - 1, v);
    }
  }

  lemma {:induction false} CopyShareSame(c: C.Spec, parent: nat, child: nat, v0: nat, n: nat)
    ensures C.SpecRun(c, CopySteps(parent, child, v0, n)) == C.SpecRun(c, ShareSteps(parent, child, v0, n))
  {
    if n > 0 {
      CopyShareSame(c, parent, child, v0, n - 1);
      A.SpecSnoc(c, CopySteps(parent, child, v0, n - 1), C.Copy((parent, v0 + n - 1), (child, v0 + n - 1)));
      A.SpecSnoc(c, ShareSteps(parent, child, v0, n - 1), C.Share((parent, v0 + n - 1), (child, v0 + n - 1)));
    }
  }

  lemma {:induction false} ParentKept(c: C.Spec, parent: nat, child: nat, v0: nat, n: nat, v: nat)
    requires parent != child && (parent, v) in c
    ensures var d := C.SpecRun(c, CopySteps(parent, child, v0, n));
            (parent, v) in d && d[(parent, v)] == c[(parent, v)]
  {
    if n > 0 {
      ParentKept(c, parent, child, v0, n - 1, v);
      A.SpecSnoc(c, CopySteps(parent, child, v0, n - 1), C.Copy((parent, v0 + n - 1), (child, v0 + n - 1)));
    }
  }

  /** Fork by sharing and fork by copying leave every page of every process the same. */
  lemma ForkIsCopy(vm: C.Vm, lazy: seq<C.Step>, a: C.Vm, eager: seq<C.Step>, b: C.Vm, parent: nat, child: nat, v0: nat,
                   n: nat)
    requires C.Inv(vm) && C.Reaches(vm, lazy, a) && C.Reaches(vm, eager, b)
    requires C.Visible(lazy) == ShareSteps(parent, child, v0, n) && C.Visible(eager) == CopySteps(parent, child, v0, n)
    ensures C.Contents(a) == C.Contents(b)
  {
    hide C.Inv, C.Reaches, C.Contents;
    C.CowRefinesCopy(vm, lazy, a);
    C.CowRefinesCopy(vm, eager, b);
    C.VisibleSpec(C.Contents(vm), lazy);
    C.VisibleSpec(C.Contents(vm), eager);
    CopyShareSame(C.Contents(vm), parent, child, v0, n);
  }
}
