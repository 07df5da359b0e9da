/**
 Copy-on-write fork refines eager copying.  The state is every address space's user
 pages at once, as a flat map from (address space, page) to leaf entries, with the data
 frames and the allocator's reference counts behind it.
 */
module CowFork {
  import opened Collections
  import opened PageTableEntry
  import opened Paging

  /** An address space, by the frame of its root table, and a page in it. */
  type Key = (nat, nat)

  datatype Vm = Vm(leaf: map<Key, Pte>, pages: map<nat, seq<nat>>, free: seq<nat>, count: map<nat, nat>)

  /** The places a frame is mapped at. */
  function Sharers(leaf: map<Key, Pte>, f: nat): set<Key> {
    set k | k in leaf && leaf[k].ppn == f
  }

  function ZeroPage(n: nat): (z: seq<nat>)
    ensures |z| == n && forall i :: 0 <= i < n ==> z[i] == 0
  {
    if n == 0 then [] else [0] + ZeroPage(n - 1)
  }

  /** The page with one byte replaced. */
  function Put(p: seq<nat>, off: nat, b: nat): (q: seq<nat>)
    requires off < |p|
    ensures |q| == |p| && q[off] == b && forall i :: 0 <= i < |p| && i != off ==> q[i] == p[i]
  {
    p[off := b]
  }

  /** A frame is on the duplicate-free free list exactly when its count is zero. */
  predicate FreeListOk(vm: Vm) {
    && NoDup(vm.free)
    && (forall f :: f in vm.free ==> f in vm.count && vm.count[f] == 0)
    && (forall f :: f in vm.count && vm.count[f] == 0 ==> f in vm.free)
  }

  /** Leaves map data frames, and data frames are whole pages that are mapped somewhere. */
  predicate LeavesOk(vm: Vm) {
    && (forall k :: k in vm.leaf ==> vm.leaf[k].v && vm.leaf[k].ppn in vm.pages)
    && (forall f :: f in vm.pages ==> f in vm.count && vm.count[f] > 0 && |vm.pages[f]| == PGSIZE)
  }

  /** A data frame's count is the number of leaves that map it. */
  predicate CountsOk(vm: Vm) {
    forall f :: f in vm.pages ==> f in vm.count && vm.count[f] == |Sharers(vm.leaf, f)|
  }

  /** A frame with more than one leaf is writable through none of them. */
  predicate WritesOk(vm: Vm) {
    forall k :: k in vm.leaf && vm.leaf[k].perm.w ==> vm.leaf[k].ppn in vm.count && vm.count[vm.leaf[k].ppn] == 1
  }

  predicate Inv(vm: Vm) {
    FreeListOk(vm) && LeavesOk(vm) && CountsOk(vm) && WritesOk(vm)
  }

  // ----- the steps of the kernel, one page at a time -----

  datatype Step =
    | Alloc(k: Key, perm: Perm)                 // ualloc: a zeroed page
    | Share(k: Key, to: Key)                    // ucopy_nocopy: fork shares the page
    | Copy(k: Key, to: Key)                     // ucopy: fork copies the page
    | Store(k: Key, off: nat, b: nat)           // a user store, through the fault path if need be
    | Load(k: Key)                              // uload_page: the fault path alone
    | Unmap(k: Key)                             // uunmap with free
    | TakeFrame                                 // a frame for a page table or other kernel use
    | GiveFrame(f: nat)                         // such a frame given back

  /** The fault path needs a fresh frame only for a page that is still shared. */
  predicate CanLoad(vm: Vm, k: Key)
    requires k in vm.leaf
  {
    (vm.leaf[k].ppn in vm.count && vm.count[vm.leaf[k].ppn] == 1) || vm.free != []
  }

  predicate Enabled(vm: Vm, s: Step) {
    match s
    case Alloc(k, perm) => k !in vm.leaf && vm.free != []
    case Share(k, to) => k in vm.leaf && to !in vm.leaf
    case Copy(k, to) => k in vm.leaf && to !in vm.leaf && vm.free != []
    case Store(k, off, b) =>
      k in vm.leaf && vm.leaf[k].perm.u && off < PGSIZE && (vm.leaf[k].perm.w || CanLoad(vm, k))
    case Load(k) => k in vm.leaf && CanLoad(vm, k)
    case Unmap(k) => k in vm.leaf
    case TakeFrame => vm.free != []
    case GiveFrame(f) => f in vm.count && vm.count[f] == 1 && f !in vm.pages
  }

  /** A fresh frame from the allocator, filled with `data` and mapped at `k`. */
  function Fresh(vm: Vm, k: Key, perm: Perm, data: seq<nat>): Vm
    requires vm.free != []
  {
    var f := vm.free[0];
    Vm(vm.leaf[k := Pte(true, perm, f)], vm.pages[f := data], vm.free[1..], vm.count[f := 1])
  }

  /** One leaf fewer on frame `f`: its count drops, and at zero it returns to the list. */
  function Dropped(vm: Vm, k: Key): Vm
    requires k in vm.leaf && vm.leaf[k].ppn in vm.count && vm.count[vm.leaf[k].ppn] > 0
  {
    var f := vm.leaf[k].ppn;
    if vm.count[f] == 1 then
      Vm(vm.leaf - {k}, vm.pages - {f}, [f] + vm.free, vm.count[f := 0])
    else
      Vm(vm.leaf - {k}, vm.pages, vm.free, vm.count[f := vm.count[f] - 1])
  }

  /** `to_cow_page`: no longer writable, marked copy-on-write. */
  function CowPerm(p: Perm): Perm {
    p.(w := false, cow := true)
  }

  function Shared(vm: Vm, k: Key, to: Key): Vm
    requires k in vm.leaf && vm.leaf[k].ppn in vm.count
  {
    var e := vm.leaf[k];
    vm.(leaf := vm.leaf[k := e.(perm := CowPerm(e.perm))][to := Pte(true, CowPerm(e.perm), e.ppn)],
        count := vm.count[e.ppn := vm.count[e.ppn] + 1])
  }

  /** `uload_page`: the sole owner just gets the page writable; a sharer gets a copy of its own. */
  function Loaded(vm: Vm, k: Key): Vm
    requires Inv(vm) && k in vm.leaf && CanLoad(vm, k)
  {
    var e := vm.leaf[k];
    if vm.count[e.ppn] == 1 then vm.(leaf := vm.leaf[k := e.(perm := e.perm.(w := true))])
    else Fresh(Dropped(vm, k), k, e.perm.(w := true), vm.pages[e.ppn])
  }

  /** The store proper, through a writable leaf. */
  function Stored(vm: Vm, k: Key, off: nat, b: nat): Vm
    requires k in vm.leaf && vm.leaf[k].ppn in vm.pages && off < |vm.pages[vm.leaf[k].ppn]|
  {
    var f := vm.leaf[k].ppn;
    vm.(pages := vm.pages[f := Put(vm.pages[f], off, b)])
  }

  // ----- the reference: contents per page, fork copies -----

  type Spec = map<Key, seq<nat>>

  function Contents(vm: Vm): Spec {
    map k | k in vm.leaf && vm.leaf[k].ppn in vm.pages :: vm.pages[vm.leaf[k].ppn]
  }

  function SpecNext(c: Spec, s: Step): Spec {
    match s
    case Alloc(k, perm) => c[k := ZeroPage(PGSIZE)]
    case Share(k, to) => if k in c then c[to := c[k]] else c
    case Copy(k, to) => if k in c then c[to := c[k]] else c
    case Store(k, off, b) => if k in c && off < |c[k]| then c[k := Put(c[k], off, b)] else c
    case Unmap(k) => c - {k}
    case _ => c
  }

  // ----- what each piece keeps -----

  lemma SharersAdd(leaf: map<Key, Pte>, k: Key, e: Pte, f: nat)
    requires k !in leaf
    ensures Sharers(leaf[k := e], f) == if e.ppn == f then Sharers(leaf, f) + {k} else Sharers(leaf, f)
    ensures k !in Sharers(leaf, f)
  {
  }

  lemma SharersDrop(leaf: map<Key, Pte>, k: Key, f: nat)
    requires k in leaf
    ensures Sharers(leaf - {k}, f) == if leaf[k].ppn == f then Sharers(leaf, f) - {k} else Sharers(leaf, f)
  {
  }

  lemma SharersSame(leaf: map<Key, Pte>, k: Key, e: Pte, f: nat)
    requires k in leaf && e.ppn == leaf[k].ppn
    ensures Sharers(leaf[k := e], f) == Sharers(leaf, f)
  {
  }

  lemma SoleSharer(vm: Vm, k: Key)
    requires Inv(vm) && k in vm.leaf && vm.count[vm.leaf[k].ppn] == 1
    ensures forall j :: j in vm.leaf && vm.leaf[j].ppn == vm.leaf[k].ppn ==> j == k
  {
    var f := vm.leaf[k].ppn;
    forall j | j in vm.leaf && vm.leaf[j].ppn == f ensures j == k {
      if j != k {
        assert {j, k} <= Sharers(vm.leaf, f);
        SubsetSize({j, k}, Sharers(vm.leaf, f));
        assert false;
      }
    }
  }

  lemma FreshFrame(vm: Vm)
    requires Inv(vm) && vm.free != []
    ensures vm.free[0] in vm.count && vm.count[vm.free[0]] == 0 && vm.free[0] !in vm.pages
    ensures Sharers(vm.leaf, vm.free[0]) == {}
    ensures forall f :: f in vm.free[1..] <==> f in vm.free && f != vm.free[0]
  {
    assert vm.free[0] in vm.free;
  }

  lemma FreshCounts(vm: Vm, k: Key, perm: Perm, data: seq<nat>)
    requires Inv(vm) && k !in vm.leaf && vm.free != []
    ensures CountsOk(Fresh(vm, k, perm, data))
  {
    FreshFrame(vm);
    var r := Fresh(vm, k, perm, data);
    forall g | g in r.pages ensures g in r.count && r.count[g] == |Sharers(r.leaf, g)| {
      SharersAdd(vm.leaf, k, Pte(true, perm, vm.free[0]), g);
    }
  }

  lemma FreshInv(vm: Vm, k: Key, perm: Perm, data: seq<nat>)
    requires Inv(vm) && k !in vm.leaf && vm.free != [] && |data| == PGSIZE
    ensures Inv(Fresh(vm, k, perm, data))
  {
    hide CountsOk, Sharers, FreeListOk;
    FreshFrame(vm);
    FreshCounts(vm, k, perm, data);
    FreshList(vm, k, perm, data);
  }

  lemma FreshList(vm: Vm, k: Key, perm: Perm, data: seq<nat>)
    requires Inv(vm) && vm.free != []
    ensures FreeListOk(Fresh(vm, k, perm, data))
  {
    hide CountsOk, WritesOk, LeavesOk, Sharers;
    FreshFrame(vm);
  }

  lemma FreshContents(vm: Vm, k: Key, perm: Perm, data: seq<nat>)
    requires Inv(vm) && k !in vm.leaf && vm.free != []
    ensures Contents(Fresh(vm, k, perm, data)) == Contents(vm)[k := data]
  {
    hide CountsOk, WritesOk, FreeListOk;
    FreshFrame(vm);
  }

  lemma DroppedCounts(vm: Vm, k: Key)
    requires Inv(vm) && k in vm.leaf
    ensures CountsOk(Dropped(vm, k))
  {
    var r := Dropped(vm, k);
    forall g | g in r.pages ensures g in r.count && r.count[g] == |Sharers(r.leaf, g)| {
      SharersDrop(vm.leaf, k, g);
    }
  }

  lemma DroppedInv(vm: Vm, k: Key)
    requires Inv(vm) && k in vm.leaf
    ensures Inv(Dropped(vm, k))
  {
    hide CountsOk, Sharers;
    DroppedCounts(vm, k);
    if vm.count[vm.leaf[k].ppn] == 1 {
      SoleSharer(vm, k);
    }
  }

  lemma DroppedContents(vm: Vm, k: Key)
    requires Inv(vm) && k in vm.leaf
    ensures Contents(Dropped(vm, k)) == Contents(vm) - {k}
  {
    hide CountsOk, WritesOk, FreeListOk;
    if vm.count[vm.leaf[k].ppn] == 1 {
      SoleSharer(vm, k);
    }
  }

  lemma SharedCounts(vm: Vm, k: Key, to: Key)
    requires Inv(vm) && k in vm.leaf && to !in vm.leaf
    ensures CountsOk(Shared(vm, k, to))
  {
    hide WritesOk, FreeListOk;
    var e := vm.leaf[k];
    var l1 := vm.leaf[k := e.(perm := CowPerm(e.perm))];
    var r := Shared(vm, k, to);
    forall g | g in r.pages ensures g in r.count && r.count[g] == |Sharers(r.leaf, g)| {
      SharersSame(vm.leaf, k, e.(perm := CowPerm(e.perm)), g);
      SharersAdd(l1, to, Pte(true, CowPerm(e.perm), e.ppn), g);
    }
  }

  lemma SharedWrites(vm: Vm, k: Key, to: Key)
    requires Inv(vm) && k in vm.leaf && to !in vm.leaf
    ensures WritesOk(Shared(vm, k, to))
  {
    hide FreeListOk, CountsOk, Sharers;
    var r := Shared(vm, k, to);
    forall j | j in r.leaf && r.leaf[j].perm.w ensures r.leaf[j].ppn in r.count && r.count[r.leaf[j].ppn] == 1 {
      assert j in vm.leaf && j != k && vm.leaf[j].perm.w;
      SoleSharer(vm, j);
    }
  }

  lemma SharedInv(vm: Vm, k: Key, to: Key)
    requires Inv(vm) && k in vm.leaf && to !in vm.leaf
    ensures Inv(Shared(vm, k, to))
  {
    hide CountsOk, WritesOk;
    SharedCounts(vm, k, to);
    SharedWrites(vm, k, to);
  }

  lemma SharedContents(vm: Vm, k: Key, to: Key)
    requires Inv(vm) && k in vm.leaf && to !in vm.leaf
    ensures k in Contents(vm) && Contents(Shared(vm, k, to)) == Contents(vm)[to := Contents(vm)[k]]
  {
    hide CountsOk, WritesOk, FreeListOk;
  }

  lemma LoadedInv(vm: Vm, k: Key)
    requires Inv(vm) && k in vm.leaf && CanLoad(vm, k)
    ensures Inv(Loaded(vm, k)) && Contents(Loaded(vm, k)) == Contents(vm)
    ensures k in Loaded(vm, k).leaf && Loaded(vm, k).leaf[k].perm == vm.leaf[k].perm.(w := true)
    ensures Loaded(vm, k).leaf.Keys == vm.leaf.Keys
  {
    var e := vm.leaf[k];
    if vm.count[e.ppn] == 1 {
      OwnedInv(vm, k);
    } else {
      hide CountsOk, WritesOk, FreeListOk, Contents;
      DroppedInv(vm, k);
      DroppedContents(vm, k);
      FreshInv(Dropped(vm, k), k, e.perm.(w := true), vm.pages[e.ppn]);
      FreshContents(Dropped(vm, k), k, e.perm.(w := true), vm.pages[e.ppn]);
      PutBack(vm, k);
    }
  }

  lemma PutBack(vm: Vm, k: Key)
    requires Inv(vm) && k in vm.leaf
    ensures (Contents(vm) - {k})[k := vm.pages[vm.leaf[k].ppn]] == Contents(vm)
  {
  }

  lemma OwnedInv(vm: Vm, k: Key)
    requires Inv(vm) && k in vm.leaf && vm.count[vm.leaf[k].ppn] == 1
    ensures var e := vm.leaf[k];
            var r := vm.(leaf := vm.leaf[k := e.(perm := e.perm.(w := true))]);
            Inv(r) && Contents(r) == Contents(vm)
  {
    var e := vm.leaf[k];
    forall g | g in vm.pages
      ensures Sharers(vm.leaf[k := e.(perm := e.perm.(w := true))], g) == Sharers(vm.leaf, g)
    {
      SharersSame(vm.leaf, k, e.(perm := e.perm.(w := true)), g);
    }
  }

  /** A store through a writable leaf changes that page of that address space only. */
  lemma StoredInv(vm: Vm, k: Key, off: nat, b: nat)
    requires Inv(vm) && k in vm.leaf && vm.leaf[k].perm.w && off < PGSIZE
    ensures Inv(Stored(vm, k, off, b))
    ensures k in Contents(vm) && |Contents(vm)[k]| == PGSIZE
    ensures Contents(Stored(vm, k, off, b)) == Contents(vm)[k := Put(Contents(vm)[k], off, b)]
  {
    SoleSharer(vm, k);
  }

  // ----- whole runs -----

  function Next(vm: Vm, s: Step): Vm
    requires Inv(vm) && Enabled(vm, s)
  {
    match s
    case Alloc(k, perm) => Fresh(vm, k, perm, ZeroPage(PGSIZE))
    case Share(k, to) => Shared(vm, k, to)
    case Copy(k, to) => Fresh(vm, to, vm.leaf[k].perm, vm.pages[vm.leaf[k].ppn])
    case Store(k, off, b) =>
      if vm.leaf[k].perm.w then Stored(vm, k, off, b)
      else
        LoadedInv(vm, k);
        Stored(Loaded(vm, k), k, off, b)
    case Load(k) => Loaded(vm, k)
    case Unmap(k) => Dropped(vm, k)
    case TakeFrame => vm.(free := vm.free[1..], count := vm.count[vm.free[0] := 1])
    case GiveFrame(f) => vm.(free := [f] + vm.free, count := vm.count[f := 0])
  }

  lemma StepRefines(vm: Vm, s: Step)
    requires Inv(vm) && Enabled(vm, s)
    ensures Inv(Next(vm, s))
    ensures Contents(Next(vm, s)) == SpecNext(Contents(vm), s)
  {
    hide CountsOk, WritesOk, FreeListOk;
    match s
    case Alloc(k, perm) =>
      FreshInv(vm, k, perm, ZeroPage(PGSIZE));
      FreshContents(vm, k, perm, ZeroPage(PGSIZE));
    case Share(k, to) =>
      SharedInv(vm, k, to);
      SharedContents(vm, k, to);
    case Copy(k, to) =>
      FreshInv(vm, to, vm.leaf[k].perm, vm.pages[vm.leaf[k].ppn]);
      FreshContents(vm, to, vm.leaf[k].perm, vm.pages[vm.leaf[k].ppn]);
    case Store(k, off, b) =>
      if !vm.leaf[k].perm.w {
        LoadedInv(vm, k);
        StoredInv(Loaded(vm, k), k, off, b);
      } else {
        StoredInv(vm, k, off, b);
      }
    case Load(k) => LoadedInv(vm, k);
    case Unmap(k) =>
      DroppedInv(vm, k);
      DroppedContents(vm, k);
    case TakeFrame => TakenInv(vm);
    case GiveFrame(f) => GivenInv(vm, f);
  }

  lemma TakenInv(vm: Vm)
    requires Inv(vm) && vm.free != []
    ensures Inv(vm.(free := vm.free[1..], count := vm.count[vm.free[0] := 1]))
  {
    hide Sharers;
    FreshFrame(vm);
  }

  lemma GivenInv(vm: Vm, f: nat)
    requires Inv(vm) && f in vm.count && vm.count[f] == 1 && f !in vm.pages
    ensures Inv(vm.(free := [f] + vm.free, count := vm.count[f := 0]))
  {
    hide Sharers;
  }

  ghost predicate Reaches(vm: Vm, steps: seq<Step>, end: Vm)
    decreases |steps|
  {
    if steps == [] then end == vm
    else Inv(vm) && Enabled(vm, steps[0]) && Reaches(Next(vm, steps[0]), steps[1..], end)
  }

  function SpecRun(c: Spec, steps: seq<Step>): Spec
    decreases |steps|
  {
    if steps == [] then c else SpecRun(SpecNext(c, steps[0]), steps[1..])
  }

  /**
   Copy-on-write refines eager copy: after any run of allocations, forks, stores and
   unmaps, every page of every address space holds the bytes it would hold had fork
   copied every page; counts equal the leaves that map a frame, shared frames are
   writable through no leaf, and the free list holds exactly the uncounted frames.
   */
  lemma {:induction false} CowRefinesCopy(vm: Vm, steps: seq<Step>, end: Vm)
    requires Inv(vm) && Reaches(vm, steps, end)
    ensures Inv(end)
    ensures Contents(end) == SpecRun(Contents(vm), steps)
    decreases |steps|
  {
    if steps != [] {
      StepRefines(vm, steps[0]);
      CowRefinesCopy(Next(vm, steps[0]), steps[1..], end);
    }
  }

  // ----- flags over whole runs -----

  type Flags = map<Key, Perm>

  /** The reference for flags: given at allocation, inherited at fork, and nothing else. */
  function FlagsNext(c: Flags, s: Step): Flags {
    match s
    case Alloc(k, perm) => c[k := perm]
    case Share(k, to) => if k in c then c[to := c[k]] else c
    case Copy(k, to) => if k in c then c[to := c[k]] else c
    case Unmap(k) => c - {k}
    case _ => c
  }

  function FlagsRun(c: Flags, steps: seq<Step>): Flags
    decreases |steps|
  {
    if steps == [] then c else FlagsRun(FlagsNext(c, steps[0]), steps[1..])
  }

  /** The same but for W and the copy-on-write mark. */
  predicate SameAccess(p: Perm, q: Perm) {
    q.r == p.r && q.x == p.x && q.u == p.u && q.g == p.g && q.a == p.a && q.d == p.d && q.rs2 == p.rs2
  }

  /** The entry has those flags; W is missing only where the page is marked. */
  predicate HasAccess(e: Pte, p: Perm) {
    SameAccess(p, e.perm) && (p.w && !e.perm.w ==> e.perm.cow)
  }

  predicate FlagsOk(vm: Vm, c: Flags) {
    vm.leaf.Keys == c.Keys && forall k :: k in c ==> HasAccess(vm.leaf[k], c[k])
  }

  /** What a fork or a fault makes of an entry keeps its access. */
  lemma AccessStays(e: Pte, p: Perm, f: nat)
    requires HasAccess(e, p)
    ensures HasAccess(e.(perm := CowPerm(e.perm)), p) && HasAccess(Pte(true, CowPerm(e.perm), f), p)
    ensures HasAccess(Pte(true, e.perm, f), p) && HasAccess(Pte(true, e.perm.(w := true), f), p)
    ensures HasAccess(e.(perm := e.perm.(w := true)), p)
  {
  }

  lemma AccessGiven(p: Perm, f: nat)
    ensures HasAccess(Pte(true, p, f), p)
  {
  }

  lemma LoadFlags(vm: Vm, c: Flags, k: Key)
    requires Inv(vm) && k in vm.leaf && CanLoad(vm, k) && FlagsOk(vm, c)
    ensures FlagsOk(Loaded(vm, k), c)
  {
    hide CountsOk, WritesOk, FreeListOk, HasAccess;
    var e := vm.leaf[k];
    if vm.count[e.ppn] == 1 {
      AccessStays(e, c[k], 0);
    } else {
      AccessStays(e, c[k], Dropped(vm, k).free[0]);
    }
  }

  lemma FlagsStep(vm: Vm, c: Flags, s: Step)
    requires Inv(vm) && Enabled(vm, s) && FlagsOk(vm, c)
    ensures FlagsOk(Next(vm, s), FlagsNext(c, s))
  {
    hide CountsOk, WritesOk, FreeListOk, HasAccess, Loaded, CanLoad, CowPerm;
    match s
    case Alloc(k, perm) => AccessGiven(perm, vm.free[0]);
    case Share(k, to) => AccessStays(vm.leaf[k], c[k], vm.leaf[k].ppn);
    case Copy(k, to) => AccessStays(vm.leaf[k], c[k], vm.free[0]);
    case Store(k, off, b) =>
      if !vm.leaf[k].perm.w {
        LoadFlags(vm, c, k);
      }
    case Load(k) => LoadFlags(vm, c, k);
    case _ =>
  }

  /**
   However pages are shared, faulted and copied, each keeps the access it was mapped with or
   inherited: forking and faulting take no right away but writing, and mark where they do.
   */
  lemma {:induction false} AccessKept(vm: Vm, steps: seq<Step>, end: Vm, c: Flags)
    requires Inv(vm) && Reaches(vm, steps, end) && FlagsOk(vm, c)
    ensures FlagsOk(end, FlagsRun(c, steps))
    decreases |steps|
  {
    hide Inv, Enabled, Next, FlagsOk;
    if steps != [] {
      StepRefines(vm, steps[0]);
      FlagsStep(vm, c, steps[0]);
      AccessKept(Next(vm, steps[0]), steps[1..], end, FlagsNext(c, steps[0]));
    }
  }

  /** The step maps, unmaps or writes page `k`. */
  predicate Touches(s: Step, k: Key) {
    match s
    case Alloc(j, perm) => j == k
    case Share(j, to) => to == k
    case Copy(j, to) => to == k
    case Store(j, off, b) => j == k
    case Unmap(j) => j == k
    case _ => false
  }

  lemma {:induction false} SpecIsolated(c: Spec, steps: seq<Step>, k: Key)
    requires forall i :: 0 <= i < |steps| ==> !Touches(steps[i], k)
    ensures k in SpecRun(c, steps) <==> k in c
    ensures k in c ==> SpecRun(c, steps)[k] == c[k]
    decreases |steps|
  {
    if steps != [] {
      assert !Touches(steps[0], k);
      SpecIsolated(SpecNext(c, steps[0]), steps[1..], k);
    }
  }

  /** A page changes only by steps on that page of that space, whoever shares its frame. */
  lemma Isolated(vm: Vm, steps: seq<Step>, end: Vm, k: Key)
    requires Inv(vm) && Reaches(vm, steps, end) && forall i :: 0 <= i < |steps| ==> !Touches(steps[i], k)
    ensures k in Contents(end) <==> k in Contents(vm)
    ensures k in Contents(vm) ==> Contents(end)[k] == Contents(vm)[k]
  {
    hide Inv, Reaches, Contents, Touches;
    CowRefinesCopy(vm, steps, end);
    SpecIsolated(Contents(vm), steps, k);
  }

  /** Before any process: every frame is free. */
  ghost predicate Boot(vm: Vm) {
    && vm.leaf == map[] && vm.pages == map[] && NoDup(vm.free)
    && (forall f :: f in vm.count <==> f in vm.free) && (forall f :: f in vm.count ==> vm.count[f] == 0)
  }

  /** The counts in every state the machine reaches from boot. */
  lemma Accounting(vm: Vm, steps: seq<Step>, end: Vm)
    requires Boot(vm) && Reaches(vm, steps, end)
    ensures forall f :: f in end.pages ==> f in end.count && end.count[f] == |Sharers(end.leaf, f)|
    ensures forall k :: k in end.leaf && end.leaf[k].perm.w ==>
                          end.leaf[k].ppn in end.count && end.count[end.leaf[k].ppn] == 1
    ensures NoDup(end.free) && forall f :: f in end.count ==> (f in end.free <==> end.count[f] == 0)
  {
    CowRefinesCopy(vm, steps, end);
  }

  // ----- no frame is lost -----

  /** Frames the steps take for the kernel's own use, less those given back. */
  function Net(steps: seq<Step>): int {
    if steps == [] then 0
    else (if steps[0].TakeFrame? then 1 else if steps[0].GiveFrame? then -1 else 0) + Net(steps[1..])
  }

  /** Free frames and data frames together. */
  function Frames(vm: Vm): nat {
    |vm.free| + |vm.pages|
  }

  lemma FreshFrames(vm: Vm, k: Key, perm: Perm, data: seq<nat>)
    requires vm.free != [] && vm.free[0] !in vm.pages
    ensures Frames(Fresh(vm, k, perm, data)) == Frames(vm)
  {
  }

  lemma DroppedFrames(vm: Vm, k: Key)
    requires k in vm.leaf && vm.leaf[k].ppn in vm.count && vm.count[vm.leaf[k].ppn] > 0 && vm.leaf[k].ppn in vm.pages
    ensures Frames(Dropped(vm, k)) == Frames(vm)
  {
    var f := vm.leaf[k].ppn;
    assert vm.pages == (vm.pages - {f})[f := vm.pages[f]];
  }

  lemma LoadedFrames(vm: Vm, k: Key)
    requires Inv(vm) && k in vm.leaf && CanLoad(vm, k)
    ensures Frames(Loaded(vm, k)) == Frames(vm)
  {
    hide CountsOk, WritesOk;
    var e := vm.leaf[k];
    if vm.count[e.ppn] != 1 {
      assert vm.free[0] in vm.free;
      FreshFrames(Dropped(vm, k), k, e.perm.(w := true), vm.pages[e.ppn]);
    }
  }

  lemma FramesStep(vm: Vm, s: Step)
    requires Inv(vm) && Enabled(vm, s)
    ensures Frames(Next(vm, s)) == Frames(vm) - Net([s])
  {
    hide CountsOk, WritesOk, Fresh, Dropped, Loaded;
    assert Net([s][1..]) == 0;
    assert vm.free != [] ==> vm.free[0] in vm.free;
    match s
    case Alloc(k, perm) => FreshFrames(vm, k, perm, ZeroPage(PGSIZE));
    case Copy(k, to) => FreshFrames(vm, to, vm.leaf[k].perm, vm.pages[vm.leaf[k].ppn]);
    case Store(k, off, b) =>
      if !vm.leaf[k].perm.w {
        LoadedInv(vm, k);
        LoadedFrames(vm, k);
      }
    case Load(k) => LoadedFrames(vm, k);
    case Unmap(k) => DroppedFrames(vm, k);
    case _ =>
  }

  /**
   Conservation: in every run, frames leave the free list and the data pages only for the kernel's
   own use, and come back only from it; sharing, copying, faulting and unmapping lose none.
   */
  lemma {:induction false} Conserved(vm: Vm, steps: seq<Step>, end: Vm)
    requires Inv(vm) && Reaches(vm, steps, end)
    ensures |end.free| + |end.pages| + Net(steps) == |vm.free| + |vm.pages|
    decreases |steps|
  {
    hide Inv, Enabled, Next;
    if steps != [] {
      StepRefines(vm, steps[0]);
      FramesStep(vm, steps[0]);
      assert [steps[0]][1..] == [];
      Conserved(Next(vm, steps[0]), steps[1..], end);
    }
  }

  // ----- composing runs -----

  lemma {:induction false} ReachesConcat(vm: Vm, a: seq<Step>, mid: Vm, b: seq<Step>, end: Vm)
    requires Reaches(vm, a, mid) && Reaches(mid, b, end)
    ensures Reaches(vm, a + b, end)
    decreases |a|
  {
    hide Inv, Enabled;
    if a == [] {
      assert a + b == b;
    } else {
      assert (a + b)[1..] == a[1..] + b;
      ReachesConcat(Next(vm, a[0]), a[1..], mid, b, end);
    }
  }

  lemma ReachesOne(vm: Vm, s: Step)
    requires Inv(vm) && Enabled(vm, s)
    ensures Reaches(vm, [s], Next(vm, s))
  {
    assert [s][1..] == [];
  }

  /** The steps of a run that user programs could notice. */
  function Visible(steps: seq<Step>): seq<Step> {
    if steps == [] then [] else (if steps[0].TakeFrame? then [] else [steps[0]]) + Visible(steps[1..])
  }

  lemma {:induction false} VisibleConcat(a: seq<Step>, b: seq<Step>)
    ensures Visible(a + b) == Visible(a) + Visible(b)
    decreases |a|
  {
    if a == [] {
      assert a + b == b;
    } else {
      assert (a + b)[1..] == a[1..] + b;
      VisibleConcat(a[1..], b);
    }
  }

  lemma {:induction false} VisibleSpec(c: Spec, steps: seq<Step>)
    ensures SpecRun(c, Visible(steps)) == SpecRun(c, steps)
    decreases |steps|
  {
    if steps != [] {
      VisibleSpec(SpecNext(c, steps[0]), steps[1..]);
      if steps[0].TakeFrame? {
        assert Visible(steps) == Visible(steps[1..]);
      } else {
        assert Visible(steps)[0] == steps[0] && Visible(steps)[1..] == Visible(steps[1..]);
      }
    }
  }

  function Takes(n: nat): (s: seq<Step>)
    ensures |s| == n
  {
    if n == 0 then [] else [TakeFrame] + Takes(n - 1)
  }

  lemma {:induction false} TakesInvisible(n: nat)
    ensures Visible(Takes(n)) == []
  {
    if n > 0 {
      assert Takes(n)[1..] == Takes(n - 1);
      TakesInvisible(n - 1);
    }
  }

  /** Frames that left the head of the free list and are counted once were taken one by one. */
  lemma {:induction false} TakesReach(a: Vm, b: Vm, n: nat)
    requires Inv(a) && n <= |a.free| && b.free == a.free[n..] && b.leaf == a.leaf && b.pages == a.pages
    requires b.count.Keys == a.count.Keys
    requires forall f :: f in a.count ==> b.count[f] == if f in a.free[..n] then 1 else a.count[f]
    ensures Reaches(a, Takes(n), b)
    decreases n
  {
    hide Inv;
    if n == 0 {
      assert a.free[0..] == a.free;
      assert b.count == a.count;
    } else {
      StepRefines(a, TakeFrame);
      TakenOne(a, b, n);
      TakesReach(Next(a, TakeFrame), b, n - 1);
      assert Takes(n)[1..] == Takes(n - 1);
    }
  }

  lemma TakenOne(a: Vm, b: Vm, n: nat)
    requires Inv(a) && 0 < n <= |a.free| && b.free == a.free[n..] && b.count.Keys == a.count.Keys
    requires forall f :: f in a.count ==> b.count[f] == if f in a.free[..n] then 1 else a.count[f]
    ensures var m := Next(a, TakeFrame);
            && n - 1 <= |m.free| && b.free == m.free[n - 1..] && b.count.Keys == m.count.Keys
            && forall f :: f in m.count ==> b.count[f] == if f in m.free[..n - 1] then 1 else m.count[f]
  {
    hide LeavesOk, CountsOk, WritesOk;
    FreshFrame(a);
    var m := Next(a, TakeFrame);
    assert a.free[..n] == [a.free[0]] + m.free[..n - 1];
    assert m.free[n - 1..] == a.free[n..];
  }
}
