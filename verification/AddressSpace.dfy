/**
 The size of a process: growing and shrinking its heap, page by page, and what the
 mapped pages are after every sequence of such calls.
 */
module AddressSpace {
  import opened PageTableEntry
  import opened RadixTree
  import opened Paging
  import opened UserMemory
  import C = CowFork

  /** The permissions of heap pages: W, R, X and U. */
  const UPERM := Perm(true, true, true, true, false, false, false, false, false)

  function AllocSteps(root: nat, v0: nat, n: nat): (s: seq<C.Step>)
    ensures |s| == n
  {
    if n == 0 then [] else AllocSteps(root, v0, n - 1) + [C.Alloc((root, v0 + n - 1), UPERM)]
  }

  /** `now` is `was` with exactly the pages `v0 .. v0+n` of `root` added. */
  ghost predicate Added(was: map<C.Key, Pte>, now: map<C.Key, Pte>, root: nat, v0: nat, n: nat) {
    && (forall k :: k in was ==> k in now && now[k] == was[k])
    && (forall k :: k in now ==> k in was || (k.0 == root && v0 <= k.1 < v0 + n))
    && (forall v :: v0 <= v < v0 + n ==> (root, v) in now && (root, v) !in was && HeapEntry(now[(root, v)]))
  }

  /** A heap page: the user may read, write and execute it, and it is not shared. */
  predicate HeapEntry(e: Pte) {
    e.v && e.perm.r && e.perm.w && e.perm.x && e.perm.u && !e.perm.cow
  }

  /** `now` is `was` with exactly the pages `v0 .. v0+n` of `root` removed. */
  ghost predicate Removed(was: map<C.Key, Pte>, now: map<C.Key, Pte>, root: nat, v0: nat, n: nat) {
    && (forall k :: k in now <==> k in was && !(k.0 == root && v0 <= k.1 < v0 + n))
    && (forall k :: k in now ==> now[k] == was[k])
  }

  lemma AddedRemoved(was: map<C.Key, Pte>, mid: map<C.Key, Pte>, now: map<C.Key, Pte>, root: nat, v0: nat, n: nat)
    requires Added(was, mid, root, v0, n) && Removed(mid, now, root, v0, n)
    ensures now == was
  {
  }

  // ----- what such runs do to contents -----

  lemma {:induction false} SpecConcat(c: C.Spec, a: seq<C.Step>, b: seq<C.Step>)
    ensures C.SpecRun(c, a + b) == C.SpecRun(C.SpecRun(c, a), b)
    decreases |a|
  {
    if a == [] {
      assert a + b == b;
    } else {
      assert (a + b)[1..] == a[1..] + b;
      SpecConcat(C.SpecNext(c, a[0]), a[1..], b);
    }
  }

  lemma SpecSnoc(c: C.Spec, a: seq<C.Step>, s: C.Step)
    ensures C.SpecRun(c, a + [s]) == C.SpecNext(C.SpecRun(c, a), s)
  {
    SpecConcat(c, a, [s]);
    assert [s][1..] == [];
  }

  /** Allocations leave every other page's contents alone, and so do unmaps. */
  lemma {:induction false} AllocContents(c: C.Spec, root: nat, v0: nat, n: nat, k: C.Key)
    requires !(k.0 == root && v0 <= k.1 < v0 + n)
    ensures var d := C.SpecRun(c, AllocSteps(root, v0, n));
            (k in d <==> k in c) && (k in c ==> d[k] == c[k])
    decreases n
  {
    if n > 0 {
      AllocContents(c, root, v0, n - 1, k);
      SpecSnoc(c, AllocSteps(root, v0, n - 1), C.Alloc((root, v0 + n - 1), UPERM));
    }
  }

  lemma {:induction false} UnmapContents(c: C.Spec, root: nat, v0: nat, n: nat, k: C.Key)
    ensures var d := C.SpecRun(c, UnmapSteps(root, v0, n));
            && (k in d <==> k in c && !(k.0 == root && v0 <= k.1 < v0 + n))
            && (k in d ==> d[k] == c[k])
    decreases n
  {
    if n > 0 {
      UnmapContents(c, root, v0, n - 1, k);
      SpecSnoc(c, UnmapSteps(root, v0, n - 1), C.Unmap((root, v0 + n - 1)));
    }
  }

  /** With the leaves and the contents, the data frames are the same too. */
  lemma PagesDetermined(a: C.Vm, b: C.Vm)
    requires C.Inv(a) && C.Inv(b) && a.leaf == b.leaf && C.Contents(a) == C.Contents(b)
    ensures a.pages == b.pages
  {
    PagesWithin(a, b);
    PagesWithin(b, a);
    forall f | f in a.pages ensures a.pages[f] == b.pages[f] {
      var k :| k in C.Sharers(a.leaf, f);
      assert C.Contents(a)[k] == a.pages[f] && C.Contents(b)[k] == b.pages[f];
    }
  }

  lemma PagesWithin(a: C.Vm, b: C.Vm)
    requires C.Inv(a) && C.Inv(b) && a.leaf == b.leaf
    ensures forall f :: f in a.pages ==> f in b.pages && exists k :: k in C.Sharers(a.leaf, f)
  {
    forall f | f in a.pages ensures f in b.pages && exists k :: k in C.Sharers(a.leaf, f) {
      assert |C.Sharers(a.leaf, f)| > 0;
      var k :| k in C.Sharers(a.leaf, f);
      assert k in b.leaf;
    }
  }

  lemma ContentsUndone(c: C.Spec, root: nat, v0: nat, n: nat)
    requires forall k :: k in c ==> !(k.0 == root && v0 <= k.1 < v0 + n)
    ensures C.SpecRun(C.SpecRun(c, AllocSteps(root, v0, n)), UnmapSteps(root, v0, n)) == c
  {
    var d := C.SpecRun(c, AllocSteps(root, v0, n));
    var e := C.SpecRun(d, UnmapSteps(root, v0, n));
    forall k: C.Key ensures (k in e <==> k in c) && (k in c ==> e[k] == c[k]) {
      UnmapContents(d, root, v0, n, k);
      if !(k.0 == root && v0 <= k.1 < v0 + n) {
        AllocContents(c, root, v0, n, k);
      }
    }
  }

  /** Allocating a range and unmapping it again restores leaves and data frames alike. */
  lemma Undone(vm: C.Vm, steps: seq<C.Step>, mid: C.Vm, end: C.Vm, root: nat, v0: nat, n: nat)
    requires C.Inv(vm) && C.Reaches(vm, steps, mid) && C.Visible(steps) == AllocSteps(root, v0, n)
    requires C.Reaches(mid, UnmapSteps(root, v0, n), end)
    requires Added(vm.leaf, mid.leaf, root, v0, n)
    ensures end.leaf == vm.leaf && end.pages == vm.pages
  {
    hide C.Reaches, C.Inv;
    C.CowRefinesCopy(vm, steps, mid);
    C.VisibleSpec(C.Contents(vm), steps);
    C.CowRefinesCopy(mid, UnmapSteps(root, v0, n), end);
    UnmapRange(mid, root, v0, n, end);
    AddedRemoved(vm.leaf, mid.leaf, end.leaf, root, v0, n);
    AddedAbsent(vm, mid.leaf, root, v0, n);
    ContentsUndone(C.Contents(vm), root, v0, n);
    PagesDetermined(end, vm);
  }

  lemma AddedAbsent(vm: C.Vm, now: map<C.Key, Pte>, root: nat, v0: nat, n: nat)
    requires Added(vm.leaf, now, root, v0, n)
    ensures forall k :: k in C.Contents(vm) ==> !(k.0 == root && v0 <= k.1 < v0 + n)
  {
    forall k | k in C.Contents(vm) ensures !(k.0 == root && v0 <= k.1 < v0 + n) {
      assert k == (k.0, k.1);
    }
  }

  // ----- ualloc -----

  datatype Sized = Size(n: nat) | NoRoom | Panic

  /** Pages between two sizes, each rounded up. */
  function PagesOf(size: nat): nat {
    (size + PGSIZE - 1) / PGSIZE
  }

  /** Pages a size needs more than another. */
  function PagesMore(size: nat, to: nat): nat {
    if PagesOf(to) > PagesOf(size) then PagesOf(to) - PagesOf(size) else 0
  }

  /** One round of `ualloc`. */
  method AllocOne(m: Memory, root: nat, v: nat, ghost users: Users) returns (res: Outcome, ghost n: nat)
    requires Good(m.M(), users) && root in users.roots
    requires v < users.top || v > MAXVPN || Look(m.M().t, root, v).v
    modifies m
    ensures res == Panicked ==> (m.free == [] && |old(m.free)| <= 2) || (v <= MAXVPN && old(Look(m.M().t, root, v).v))
    ensures res == Failed ==> v > MAXVPN && m.M() == old(m.M())
    ensures res == Done ==> v < users.top && Good(m.M(), users) && |m.free| >= |old(m.free)| - 3
    ensures res == Done ==> old(m.free) != [] && MapsRange(old(m.M()).t, m.M().t, root, v, 1, old(m.free)[0], UPERM)
    ensures res == Done ==> Added(old(Leaves(m.M().t, users)), Leaves(m.M().t, users), root, v, 1)
    ensures res == Done ==> C.Reaches(old(VmOf(m.M(), users)), [C.Alloc((root, v), UPERM)] + C.Takes(n),
                                      VmOf(m.M(), users))
    ensures res == Done ==> C.Visible([C.Alloc((root, v), UPERM)] + C.Takes(n)) == [C.Alloc((root, v), UPERM)]
  {
    hide Forest.Unshared, C.Inv, Look, Huge, Leaves, C.Reaches, C.Visible, MapsRange, Added;
    ghost var a := m.M();
    res, n := NewPage(m, root, v, C.ZeroPage(PGSIZE), UPERM, users);
    if res == Done {
      JustAdded(Leaves(a.t, users), Leaves(m.M().t, users), root, v, old(m.free)[0]);
      FreshRun(VmOf(a, users), VmOf(m.M(), users), n, C.Alloc((root, v), UPERM), (root, v), UPERM, C.ZeroPage(PGSIZE));
    }
  }

  lemma JustAdded(was: map<C.Key, Pte>, now: map<C.Key, Pte>, root: nat, v: nat, f: nat)
    requires (root, v) !in was && now == was[(root, v) := Pte(true, UPERM, f)]
    ensures Added(was, now, root, v, 1)
  {
    forall k | k in now && k !in was ensures k.0 == root && k.1 == v {
      assert k == (root, v);
    }
  }

  lemma AddedOne(was: map<C.Key, Pte>, mid: map<C.Key, Pte>, now: map<C.Key, Pte>, root: nat, v0: nat, n: nat)
    requires Added(was, mid, root, v0, n) && Added(mid, now, root, v0 + n, 1)
    ensures Added(was, now, root, v0, n + 1)
  {
  }

  /** The page the user's pages lie below is mapped, unless it is past the last one. */
  ghost predicate TopKept(t: Forest, users: Users, root: nat) {
    t.Unshared() && t.Root(root) && (users.top <= MAXVPN ==> Look(t, root, users.top).v)
  }

  lemma TopUntouched(a: Forest, b: Forest, users: Users, root: nat, v0: nat, n: nat)
    requires UnmapsRange(a, b, root, v0, n) && v0 + n <= users.top
    ensures TopKept(a, users, root) ==> TopKept(b, users, root)
  {
    hide Forest.Unshared, Look, Huge, Walk;
  }

  /** Shrink: unmap and free the pages above the new size. */
  method Udealloc(m: Memory, root: nat, oldSize: nat, newSize: nat, ghost users: Users) returns (res: Sized)
    requires Good(m.M(), users) && root in users.roots && PagesOf(oldSize) <= users.top
    requires forall v :: PagesOf(newSize) <= v < PagesOf(oldSize) ==> (root, v) in Leaves(m.M().t, users)
    modifies m
    ensures Good(m.M(), users) && res == Size(if newSize >= oldSize then oldSize else newSize)
    ensures |m.free| >= |old(m.free)|
    ensures newSize >= oldSize ==> m.M() == old(m.M())
    ensures newSize < oldSize ==>
              C.Reaches(old(VmOf(m.M(), users)),
                        UnmapSteps(root, PagesOf(newSize), PagesOf(oldSize) - PagesOf(newSize)), VmOf(m.M(), users))
    ensures newSize < oldSize ==>
              Removed(old(Leaves(m.M().t, users)), Leaves(m.M().t, users), root, PagesOf(newSize),
                      PagesOf(oldSize) - PagesOf(newSize))
    ensures newSize < oldSize ==>
              UnmapsRange(old(m.M()).t, m.M().t, root, PagesOf(newSize), PagesOf(oldSize) - PagesOf(newSize))
    ensures old(TopKept(m.M().t, users, root)) ==> TopKept(m.M().t, users, root)
  {
    hide Forest.Unshared, C.Inv, Look, Huge, Leaves, C.Reaches, Removed, Readable, Mem.Ok, UnmapsRange, TopKept;
    if newSize >= oldSize {
      return Size(oldSize);
    }
    ghost var a := m.M();
    ghost var n := 0;
    var lo, hi := PageRoundUp(newSize), PageRoundUp(oldSize);
    RoundUpPages(newSize);
    RoundUpPages(oldSize);
    NoSteps(VmOf(a, users));
    UnmapsNone(a.t, root, PagesOf(newSize));
    if lo < hi {
      var r;
      r, n := Uunmap(m, root, lo, (hi - lo) / PGSIZE, users);
      UnmapRange(VmOf(a, users), root, PagesOf(newSize), n, VmOf(m.M(), users));
      if r != Done {
        LeafIff(m.M(), users, root, PagesOf(newSize) + n);
        assert false;
      }
    }
    UnmapRange(VmOf(a, users), root, PagesOf(newSize), n, VmOf(m.M(), users));
    RemovedIs(Leaves(a.t, users), Leaves(m.M().t, users), root, PagesOf(newSize), n);
    TopUntouched(a.t, m.M().t, users, root, PagesOf(newSize), n);
    res := Size(newSize);
  }

  lemma RoundUpPages(size: nat)
    ensures PageRoundUp(size) == PagesOf(size) * PGSIZE && PageRoundUp(size) / PGSIZE == PagesOf(size)
    ensures PageRoundUp(size) % PGSIZE == 0
  {
  }

  lemma RemovedIs(was: map<C.Key, Pte>, now: map<C.Key, Pte>, root: nat, v0: nat, n: nat)
    requires forall k :: k in now <==> k in was && !(k.0 == root && v0 <= k.1 < v0 + n)
    requires forall k :: k in now ==> now[k] == was[k]
    ensures Removed(was, now, root, v0, n)
  {
  }

  /** A run whose steps, bookkeeping of table frames aside, allocate the pages `v0 .. v0+n`. */
  ghost predicate AllocRun(vm: C.Vm, steps: seq<C.Step>, end: C.Vm, root: nat, v0: nat, n: nat) {
    C.Reaches(vm, steps, end) && C.Visible(steps) == AllocSteps(root, v0, n)
  }

  /** One more page of `ualloc`: its run, and what of it shows. */
  lemma OneMorePage(vm: C.Vm, steps: seq<C.Step>, mid: C.Vm, k: nat, root: nat, v0: nat, n: nat, end: C.Vm)
    requires AllocRun(vm, steps, mid, root, v0, n)
    requires C.Reaches(mid, [C.Alloc((root, v0 + n), UPERM)] + C.Takes(k), end)
    requires C.Visible([C.Alloc((root, v0 + n), UPERM)] + C.Takes(k)) == [C.Alloc((root, v0 + n), UPERM)]
    ensures AllocRun(vm, steps + ([C.Alloc((root, v0 + n), UPERM)] + C.Takes(k)), end, root, v0, n + 1)
  {
    hide C.Reaches;
    C.ReachesConcat(vm, steps, mid, [C.Alloc((root, v0 + n), UPERM)] + C.Takes(k), end);
    C.VisibleConcat(steps, [C.Alloc((root, v0 + n), UPERM)] + C.Takes(k));
  }

  lemma NoPages(vm: C.Vm, root: nat, v0: nat)
    ensures Added(vm.leaf, vm.leaf, root, v0, 0) && AllocRun(vm, [], vm, root, v0, 0)
  {
  }

  lemma TopStays(a: Mem, b: Mem, users: Users, root: nat, v: nat, ppn: nat)
    requires Spaces(a.t, users) && root in users.roots && v < users.top && MapsRange(a.t, b.t, root, v, 1, ppn, UPERM)
    requires TopKept(a.t, users, root)
    ensures TopKept(b.t, users, root)
  {
  }

  /** Give back the pages a failing `ualloc` had mapped. */
  method Rollback(m: Memory, root: nat, cur: nat, base: nat, ghost steps: seq<C.Step>, ghost a: Mem, ghost users: Users)
    returns (res: Sized)
    requires Good(m.M(), users) && Good(a, users) && root in users.roots
    requires cur % PGSIZE == 0 && base % PGSIZE == 0 && base <= cur && cur / PGSIZE <= users.top
    requires AllocRun(VmOf(a, users), steps, VmOf(m.M(), users), root, base / PGSIZE, (cur - base) / PGSIZE)
    requires Added(Leaves(a.t, users), Leaves(m.M().t, users), root, base / PGSIZE, (cur - base) / PGSIZE)
    modifies m
    ensures res == NoRoom && Good(m.M(), users)
    ensures Leaves(m.M().t, users) == Leaves(a.t, users) && m.pages == a.pages
    ensures old(TopKept(m.M().t, users, root)) ==> TopKept(m.M().t, users, root)
  {
    hide Forest.Unshared, C.Inv, Look, Huge, Leaves, C.Reaches, C.Visible, Removed, Readable, Mem.Ok, UnmapsRange,
         TopKept;
    ghost var mid := VmOf(m.M(), users);
    AlignedPages(cur);
    AlignedPages(base);
    NoSteps(mid);
    var r := Udealloc(m, root, cur, base, users);
    Undone(VmOf(a, users), steps, mid, VmOf(m.M(), users), root, base / PGSIZE, (cur - base) / PGSIZE);
    res := NoRoom;
  }

  lemma AlignedPages(x: nat)
    requires x % PGSIZE == 0
    ensures PagesOf(x) == x / PGSIZE
  {
  }

  /** Some page from `lo` up, below `hi` and within the address space, is mapped. */
  ghost predicate SomeMapped(t: Forest, root: nat, lo: nat, hi: nat)
    requires t.Unshared() && t.Root(root)
  {
    exists v: nat :: lo <= v < hi && v <= MAXVPN && Look(t, root, v).v
  }

  /** A page in the way of `ualloc` was there from the start. */
  lemma WasInTheWay(a: Mem, b: Mem, users: Users, root: nat, v0: nat, v: nat, hi: nat)
    requires Spaces(a.t, users) && Spaces(b.t, users) && root in users.roots && TopKept(a.t, users, root)
    requires v0 <= v < hi && Added(Leaves(a.t, users), Leaves(b.t, users), root, v0, v - v0)
    requires v <= users.top && v <= MAXVPN && Look(b.t, root, v).v
    ensures SomeMapped(a.t, root, v0, hi)
  {
    hide Forest.Unshared, Look, Huge, Leaves;
    if v < users.top {
      LeafIff(a, users, root, v);
      LeafIff(b, users, root, v);
    }
    assert Look(a.t, root, v).v;
  }

  /** Where `ualloc` got through, nothing was in its way. */
  lemma NoneInTheWay(a: Mem, b: Mem, users: Users, root: nat, v0: nat, v: nat)
    requires Spaces(a.t, users) && Spaces(b.t, users) && root in users.roots && v0 <= v <= users.top
    requires Added(Leaves(a.t, users), Leaves(b.t, users), root, v0, v - v0)
    ensures !SomeMapped(a.t, root, v0, v)
  {
    hide Forest.Unshared, Look, Huge, Leaves;
    forall w: nat | v0 <= w < v ensures !Look(a.t, root, w).v {
      LeafIff(a, users, root, w);
      assert (root, w) !in Leaves(a.t, users);
    }
  }

  /**
   Grow from `oldSize` to `newSize`.  On success the pages between the two sizes, and no
   others, are new, zeroed and owned once.  On refusal, past the last address, every page
   and every data frame is as it was; only frames for tables are gone.  It panics when a page
   is in the way, and otherwise only for want of frames.
   */
  method Ualloc(m: Memory, root: nat, oldSize: nat, newSize: nat, ghost users: Users)
    returns (res: Sized, ghost steps: seq<C.Step>)
    requires Good(m.M(), users) && root in users.roots && PagesOf(oldSize) <= users.top && TopKept(m.M().t, users, root)
    modifies m
    ensures newSize < oldSize ==> res == Size(oldSize) && m.M() == old(m.M())
    ensures res.Size? && newSize >= oldSize ==> res == Size(newSize) && Good(m.M(), users)
    ensures res.Size? ==> |m.free| >= |old(m.free)| - 3 * PagesMore(oldSize, newSize)
    ensures res.Size? && newSize >= oldSize ==>
              Added(old(Leaves(m.M().t, users)), Leaves(m.M().t, users), root, PagesOf(oldSize),
                    PagesOf(newSize) - PagesOf(oldSize))
    ensures res.Size? && newSize >= oldSize ==>
              AllocRun(old(VmOf(m.M(), users)), steps, VmOf(m.M(), users), root, PagesOf(oldSize),
                       PagesOf(newSize) - PagesOf(oldSize))
    ensures res == NoRoom ==> PagesOf(newSize) > MAXVPN + 1 && Good(m.M(), users)
    ensures res == NoRoom ==> Leaves(m.M().t, users) == old(Leaves(m.M().t, users)) && m.pages == old(m.pages)
    ensures res != Panic ==> TopKept(m.M().t, users, root)
    ensures SomeMapped(old(m.M()).t, root, PagesOf(oldSize), PagesOf(newSize)) ==> res == Panic
    ensures res == Panic ==>
              SomeMapped(old(m.M()).t, root, PagesOf(oldSize), PagesOf(newSize))
              || (m.free == [] && |old(m.free)| < 3 * PagesMore(oldSize, newSize))
  {
    hide Forest.Unshared, C.Inv, Look, Huge, Leaves, C.Reaches, C.Visible, C.Takes, Added, Removed, Readable, Mem.Ok,
         MapsRange, TopKept, SomeMapped, AllocRun, UnmapsRange;
    steps := [];
    if newSize < oldSize {
      NoPagesBetween(m.M().t, root, oldSize, newSize);
      return Size(oldSize), [];
    }
    ghost var a := m.M();
    ghost var v0 := PagesOf(oldSize);
    NoPages(VmOf(a, users), root, v0);
    RoundUpPages(oldSize);
    var base := PageRoundUp(oldSize);
    var cur := base;
    while cur < newSize
      invariant cur % PGSIZE == 0 && base <= cur && v0 <= cur / PGSIZE <= PagesOf(newSize)
      invariant Good(m.M(), users) && cur / PGSIZE <= users.top && TopKept(m.M().t, users, root)
      invariant Added(Leaves(a.t, users), Leaves(m.M().t, users), root, v0, cur / PGSIZE - v0)
      invariant AllocRun(VmOf(a, users), steps, VmOf(m.M(), users), root, v0, cur / PGSIZE - v0)
      invariant |m.free| >= |a.free| - 3 * (cur / PGSIZE - v0)
      decreases newSize + PGSIZE - cur
    {
      ghost var mid := m.M();
      ghost var k;
      var r;
      NextIsNeeded(cur, newSize);
      AtTop(mid.t, users, root, cur / PGSIZE);
      r, k := AllocOne(m, root, cur / PGSIZE, users);
      if r == Panicked {
        if cur / PGSIZE <= MAXVPN && Look(mid.t, root, cur / PGSIZE).v {
          WasInTheWay(a, mid, users, root, v0, cur / PGSIZE, PagesOf(newSize));
        }
        return Panic, steps;
      }
      if r == Failed {
        NoneInTheWay(a, mid, users, root, v0, cur / PGSIZE);
        PastTheEnd(a.t, root, v0, cur / PGSIZE, PagesOf(newSize));
        res := Rollback(m, root, cur, base, steps, a, users);
        return;
      }
      TopStays(mid, m.M(), users, root, cur / PGSIZE, mid.free[0]);
      AddedOne(Leaves(a.t, users), Leaves(mid.t, users), Leaves(m.M().t, users), root, v0, cur / PGSIZE - v0);
      OneMorePage(VmOf(a, users), steps, VmOf(mid, users), k, root, v0, cur / PGSIZE - v0, VmOf(m.M(), users));
      steps := steps + ([C.Alloc((root, cur / PGSIZE), UPERM)] + C.Takes(k));
      cur := cur + PGSIZE;
    }
    NoneInTheWay(a, m.M(), users, root, v0, cur / PGSIZE);
    res := Size(newSize);
  }

  lemma NoPagesBetween(t: Forest, root: nat, oldSize: nat, newSize: nat)
    requires newSize < oldSize && t.Unshared() && t.Root(root)
    ensures !SomeMapped(t, root, PagesOf(oldSize), PagesOf(newSize))
  {
  }

  lemma NextIsNeeded(cur: nat, newSize: nat)
    requires cur % PGSIZE == 0 && cur < newSize
    ensures cur / PGSIZE < PagesOf(newSize) && (cur + PGSIZE) / PGSIZE == cur / PGSIZE + 1
    ensures (cur + PGSIZE) % PGSIZE == 0
  {
  }

  lemma AtTop(t: Forest, users: Users, root: nat, v: nat)
    requires TopKept(t, users, root) && v <= users.top
    ensures v < users.top || v > MAXVPN || Look(t, root, v).v
  {
  }

  lemma PastTheEnd(t: Forest, root: nat, v0: nat, v: nat, hi: nat)
    requires t.Unshared() && t.Root(root) && !SomeMapped(t, root, v0, v) && v > MAXVPN
    ensures !SomeMapped(t, root, v0, hi)
  {
  }

  // ----- sbrk: the size of a process -----

  /** The pages a process has below its stack are exactly those its size covers. */
  ghost predicate HeapIs(leaf: map<C.Key, Pte>, root: nat, size: nat, limit: nat) {
    PagesOf(size) <= limit && forall v :: v < limit ==> ((root, v) in leaf <==> v < PagesOf(size))
  }

  /** Only pages of `root` below `limit` may differ. */
  ghost predicate OnlyHeap(was: map<C.Key, Pte>, now: map<C.Key, Pte>, root: nat, limit: nat) {
    forall k: C.Key :: !(k.0 == root && k.1 < limit) ==> (k in now <==> k in was) && (k in was ==> now[k] == was[k])
  }

  lemma HeapGrown(was: map<C.Key, Pte>, now: map<C.Key, Pte>, root: nat, size: nat, newSize: nat, limit: nat)
    requires HeapIs(was, root, size, limit) && size <= newSize && (root, limit) in was
    requires Added(was, now, root, PagesOf(size), PagesOf(newSize) - PagesOf(size))
    ensures HeapIs(now, root, newSize, limit) && OnlyHeap(was, now, root, limit)
  {
    assert PagesOf(newSize) <= limit by {
      var d := PagesOf(newSize) - PagesOf(size);
      assert forall v :: PagesOf(size) <= v < PagesOf(size) + d ==> (root, v) !in was;
    }
    forall v | v < limit ensures (root, v) in now <==> v < PagesOf(newSize) {
      assert (root, v) in was <==> v < PagesOf(size);
    }
  }

  lemma HeapShrunk(was: map<C.Key, Pte>, now: map<C.Key, Pte>, root: nat, size: nat, newSize: nat, limit: nat)
    requires HeapIs(was, root, size, limit) && newSize <= size
    requires Removed(was, now, root, PagesOf(newSize), PagesOf(size) - PagesOf(newSize))
    ensures HeapIs(now, root, newSize, limit) && OnlyHeap(was, now, root, limit)
  {
  }

  lemma HeapKept(leaf: map<C.Key, Pte>, root: nat, limit: nat)
    ensures OnlyHeap(leaf, leaf, root, limit)
  {
  }

  /** A process: its pages below `limit` are those its size covers, and `limit` is a page of its stack. */
  ghost predicate Process(m: Mem, users: Users, root: nat, size: nat, limit: nat) {
    && Good(m, users) && root in users.roots && limit < users.top && TopKept(m.t, users, root)
    && HeapIs(Leaves(m.t, users), root, size, limit) && (root, limit) in Leaves(m.t, users)
  }

  /** In a process, the page in the way of growing to `to` is the one at `limit`. */
  lemma HeapInTheWay(m: Mem, users: Users, root: nat, size: nat, limit: nat, to: nat)
    requires Process(m, users, root, size, limit)
    ensures SomeMapped(m.t, root, PagesOf(size), PagesOf(to)) <==> PagesOf(to) > limit
  {
    hide Forest.Unshared, C.Inv, Look, Huge, Leaves, Readable, Mem.Ok, TopKept;
    LeafIff(m, users, root, limit);
    if SomeMapped(m.t, root, PagesOf(size), PagesOf(to)) {
      var v: nat :| PagesOf(size) <= v < PagesOf(to) && v <= MAXVPN && Look(m.t, root, v).v;
      if v < limit {
        LeafIff(m, users, root, v);
      }
    }
  }

  /** `ualloc` for a process: it grows, or panics at its stack or for want of frames. */
  method GrowTo(m: Memory, root: nat, size: nat, limit: nat, to: nat, ghost users: Users)
    returns (res: Outcome, newSize: nat)
    requires Process(m.M(), users, root, size, limit)
    modifies m
    ensures res == Done || res == Panicked
    ensures to > size && PagesOf(to) > limit ==> res == Panicked
    ensures res == Panicked ==>
              to > size && (PagesOf(to) > limit || (m.free == [] && |old(m.free)| < 3 * PagesMore(size, to)))
    ensures res == Done ==> |m.free| >= |old(m.free)| - 3 * PagesMore(size, newSize)
    ensures res == Done ==> newSize == (if to < size then size else to) && Process(m.M(), users, root, newSize, limit)
    ensures res == Done ==> OnlyHeap(old(Leaves(m.M().t, users)), Leaves(m.M().t, users), root, limit)
  {
    hide Forest.Unshared, C.Inv, Look, Huge, Leaves, C.Reaches, C.Visible, Added, Removed, Readable, Mem.Ok, OnlyHeap,
         AllocRun, SomeMapped, TopKept, UnmapsRange;
    ghost var was := Leaves(m.M().t, users);
    HeapKept(was, root, limit);
    HeapInTheWay(m.M(), users, root, size, limit, to);
    var r, steps := Ualloc(m, root, size, to, users);
    match r
    case Size(n) =>
      newSize := n;
      if to >= size {
        HeapGrown(was, Leaves(m.M().t, users), root, size, to, limit);
        StackStays(was, Leaves(m.M().t, users), root, limit);
      }
      res := Done;
    case NoRoom =>
      res, newSize := Failed, size;
    case Panic =>
      res, newSize := Panicked, size;
  }

  lemma StackStays(was: map<C.Key, Pte>, now: map<C.Key, Pte>, root: nat, limit: nat)
    requires OnlyHeap(was, now, root, limit) && (root, limit) in was
    ensures (root, limit) in now
  {
  }

  /** `udealloc` for a process. */
  method ShrinkTo(m: Memory, root: nat, size: nat, limit: nat, to: nat, ghost users: Users) returns (newSize: nat)
    requires Process(m.M(), users, root, size, limit)
    modifies m
    ensures newSize == (if to < size then to else size) && Process(m.M(), users, root, newSize, limit)
    ensures |m.free| >= |old(m.free)|
    ensures OnlyHeap(old(Leaves(m.M().t, users)), Leaves(m.M().t, users), root, limit)
  {
    hide Forest.Unshared, C.Inv, Look, Huge, Leaves, C.Reaches, C.Visible, Added, Removed, Readable, Mem.Ok, OnlyHeap,
         AllocRun, SomeMapped, TopKept, UnmapsRange;
    ghost var was := Leaves(m.M().t, users);
    HeapKept(was, root, limit);
    var r := Udealloc(m, root, size, to, users);
    newSize := r.n;
    if to < size {
      HeapShrunk(was, Leaves(m.M().t, users), root, size, to, limit);
      StackStays(was, Leaves(m.M().t, users), root, limit);
    }
  }

  /** What may be asked about a process's size; `grow_proc` takes an `isize`. */
  datatype Request = Grow(count: int) | Alloc(to: nat) | Dealloc(to: nat)
  {
    predicate Ok() {
      Grow? ==> -0x8000_0000_0000_0000 <= count < 0x8000_0000_0000_0000
    }
  }

  /** The size asked for, where there is room for it. */
  function NextSize(size: nat, q: Request): nat {
    match q
    case Grow(count) => if size + count >= 0 then size + count else size
    case Alloc(to) => if to < size then size else to
    case Dealloc(to) => if to < size then to else size
  }

  lemma SizeBound(m: Mem, users: Users, root: nat, size: nat, limit: nat)
    requires Process(m, users, root, size, limit)
    ensures size < 0x8000_0000_0000_0000 && PagesOf(size) <= limit && Spaces(m.t, users)
  {
  }

  /**
   `grow_proc`.  A size that would go below zero wraps around as a `usize`, so the call
   leaves the process alone and still succeeds.
   */
  method GrowProc(m: Memory, root: nat, size: nat, limit: nat, count: int, ghost users: Users)
    returns (res: Outcome, newSize: nat)
    requires Process(m.M(), users, root, size, limit) && Grow(count).Ok()
    modifies m
    ensures res == Done || res == Panicked
    ensures count > 0 && PagesOf(size + count) > limit ==> res == Panicked
    ensures res == Panicked ==>
              && count > 0
              && (PagesOf(size + count) > limit || (m.free == [] && |old(m.free)| < 3 * PagesMore(size, size + count)))
    ensures res == Done ==> |m.free| >= |old(m.free)| - 3 * PagesMore(size, newSize)
    ensures res == Done ==> newSize == NextSize(size, Grow(count)) && Process(m.M(), users, root, newSize, limit)
    ensures res == Done ==> OnlyHeap(old(Leaves(m.M().t, users)), Leaves(m.M().t, users), root, limit)
  {
    hide Process, OnlyHeap, Leaves, PagesOf, Spaces;
    SizeBound(m.M(), users, root, size, limit);
    HeapKept(Leaves(m.M().t, users), root, limit);
    newSize := size;
    res := Done;
    if count < 0 {
      newSize := ShrinkTo(m, root, size, limit, (size + count) % 0x1_0000_0000_0000_0000, users);
    } else if count > 0 {
      res, newSize := GrowTo(m, root, size, limit, size + count, users);
    }
  }

  /** One request. */
  method Resize(m: Memory, root: nat, size: nat, limit: nat, q: Request, ghost users: Users)
    returns (res: Outcome, newSize: nat)
    requires Process(m.M(), users, root, size, limit) && q.Ok()
    modifies m
    ensures res == Done || res == Panicked
    ensures PagesOf(NextSize(size, q)) > limit ==> res == Panicked
    ensures res == Panicked ==>
              || PagesOf(NextSize(size, q)) > limit
              || (m.free == [] && |old(m.free)| < 3 * PagesMore(size, NextSize(size, q)))
    ensures res == Done ==> |m.free| >= |old(m.free)| - 3 * PagesMore(size, newSize)
    ensures res == Done ==> newSize == NextSize(size, q) && Process(m.M(), users, root, newSize, limit)
    ensures res == Done ==> OnlyHeap(old(Leaves(m.M().t, users)), Leaves(m.M().t, users), root, limit)
  {
    hide OnlyHeap, Leaves, PagesOf, Spaces, HeapIs, Good, TopKept;
    SizeBound(m.M(), users, root, size, limit);
    match q
    case Grow(count) =>
      res, newSize := GrowProc(m, root, size, limit, count, users);
      if res == Done {
        SizeBound(m.M(), users, root, newSize, limit);
      }
    case Alloc(to) =>
      res, newSize := GrowTo(m, root, size, limit, to, users);
    case Dealloc(to) =>
      newSize := ShrinkTo(m, root, size, limit, to, users);
      SizeBound(m.M(), users, root, newSize, limit);
      res := Done;
  }

  function SizeAfter(size: nat, qs: seq<Request>): nat {
    if qs == [] then size else NextSize(SizeAfter(size, qs[..|qs| - 1]), qs[|qs| - 1])
  }

  /** Pages added by all requests together, whatever others give back. */
  function Growth(size: nat, qs: seq<Request>): nat {
    if qs == [] then 0
    else
      var first := qs[..|qs| - 1];
      Growth(size, first) + PagesMore(SizeAfter(size, first), SizeAfter(size, qs))
  }

  lemma {:induction false} GrowthPrefix(size: nat, qs: seq<Request>, n: nat)
    requires n <= |qs|
    ensures Growth(size, qs[..n]) <= Growth(size, qs)
    decreases |qs|
  {
    if n == |qs| {
      assert qs[..n] == qs;
    } else {
      var first := qs[..|qs| - 1];
      GrowthPrefix(size, first, n);
      assert first[..n] == qs[..n];
    }
  }

  /** Request `i` asks for more pages than there are below `limit`. */
  predicate TooBig(size: nat, qs: seq<Request>, i: nat, limit: nat)
    requires i < |qs|
  {
    PagesOf(SizeAfter(size, qs[..i + 1])) > limit
  }

  /**
   Any sequence of `grow_proc`, `ualloc` and `udealloc`: after it the heap is exactly the pages
   the last size covers and no other page of any process has changed; a panic means that the
   size asked for reaches the stack, or that three frames a page were not there.
   */
  method ResizeAll(m: Memory, root: nat, size: nat, limit: nat, qs: seq<Request>, ghost users: Users)
    returns (res: Outcome, newSize: nat, ghost n: nat)
    requires Process(m.M(), users, root, size, limit) && forall i :: 0 <= i < |qs| ==> qs[i].Ok()
    modifies m
    ensures res == Done || res == Panicked
    ensures res == Done ==> n == |qs| && newSize == SizeAfter(size, qs) && Process(m.M(), users, root, newSize, limit)
    ensures res == Done ==> OnlyHeap(old(Leaves(m.M().t, users)), Leaves(m.M().t, users), root, limit)
    ensures res == Panicked ==>
              && n < |qs|
              && (TooBig(size, qs, n, limit) || (m.free == [] && |old(m.free)| < 3 * Growth(size, qs[..n + 1])))
    ensures (exists i :: 0 <= i < |qs| && TooBig(size, qs, i, limit)) ==> res == Panicked
    ensures |old(m.free)| >= 3 * Growth(size, qs) ==>
              (res == Done <==> forall i :: 0 <= i < |qs| ==> !TooBig(size, qs, i, limit))
  {
    hide Process, OnlyHeap, Leaves, PagesOf, Spaces;
    SizeBound(m.M(), users, root, size, limit);
    ghost var was := Leaves(m.M().t, users);
    HeapKept(was, root, limit);
    ghost var frames := m.free;
    newSize := size;
    n := 0;
    var i := 0;
    while i < |qs|
      invariant 0 <= i <= |qs| && n == i && newSize == SizeAfter(size, qs[..i])
      invariant Process(m.M(), users, root, newSize, limit) && Spaces(m.M().t, users)
      invariant OnlyHeap(was, Leaves(m.M().t, users), root, limit)
      invariant forall j :: 0 <= j < i ==> !TooBig(size, qs, j, limit)
      invariant |m.free| >= |frames| - 3 * Growth(size, qs[..i])
    {
      assert qs[..i + 1][..i] == qs[..i];
      GrowthPrefix(size, qs, i + 1);
      ghost var mid := Leaves(m.M().t, users);
      res, newSize := Resize(m, root, newSize, limit, qs[i], users);
      if res == Panicked {
        return;
      }
      SizeBound(m.M(), users, root, newSize, limit);
      OnlyHeapTrans(was, mid, Leaves(m.M().t, users), root, limit);
      i := i + 1;
      n := n + 1;
    }
    assert qs[..|qs|] == qs;
    res := Done;
  }

  lemma OnlyHeapTrans(a: map<C.Key, Pte>, b: map<C.Key, Pte>, c: map<C.Key, Pte>, root: nat, limit: nat)
    requires OnlyHeap(a, b, root, limit) && OnlyHeap(b, c, root, limit)
    ensures OnlyHeap(a, c, root, limit)
  {
  }
}
