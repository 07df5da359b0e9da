/**
 The kernel's copies to and from user memory, page by page through the page table.
 */
module UserCopy {
  import opened PageTableEntry
  import opened RadixTree
  import opened Paging
  import U = UserMemory
  import C = CowFork
  import opened Collections

  /** The pages `pgt_translate` accepts: mapped and open to the user. */
  predicate Mapped(t: Forest, root: nat, v: nat)
    requires t.Unshared() && t.Root(root)
  {
    v <= MAXVPN && Look(t, root, v).v && Look(t, root, v).perm.u
  }

  /** Every such page has a whole data frame behind it. */
  ghost predicate Backed(m: Mem, root: nat) {
    && m.Ok() && m.t.Root(root)
    && forall v :: 0 <= v && Mapped(m.t, root, v) ==>
         Look(m.t, root, v).ppn in m.pages && |m.pages[Look(m.t, root, v).ppn]| == PGSIZE
  }

  ghost predicate MappedAt(m: Mem, root: nat, a: nat)
    requires Backed(m, root)
  {
    Mapped(m.t, root, a / PGSIZE)
  }

  /** The byte a user sees at address `a`. */
  ghost function Byte(m: Mem, root: nat, a: nat): nat
    requires Backed(m, root) && MappedAt(m, root, a)
  {
    m.pages[Look(m.t, root, a / PGSIZE).ppn][a % PGSIZE]
  }

  method PgtTranslate(m: Memory, root: nat, v: nat) returns (ok: bool, f: nat)
    requires m.M().Ok() && m.M().t.Root(root)
    modifies m
    ensures m.M() == old(m.M())
    ensures ok <==> Mapped(m.M().t, root, v)
    ensures ok ==> f == Look(m.M().t, root, v).ppn
  {
    hide Forest.Unshared, Look, Huge, EndsAt, Mem.Apart, Mem.Counted;
    ok, f := false, 0;
    var slot := m.Translate(root, v * PGSIZE, false);
    if slot.Found? {
      EndsAtLook(m.M().t, root, v, slot.f, slot.i);
      var pte := m.tables[slot.f][slot.i];
      ok, f := pte.v && pte.perm.u, pte.ppn;
    }
  }

  // ----- copy_out -----

  /** `n` bytes from `a` on touch these pages; the first is looked up even for none. */
  function LastPage(a: nat, n: nat): nat {
    if n == 0 then a / PGSIZE else (a + n - 1) / PGSIZE
  }

  ghost predicate AllMapped(t: Forest, root: nat, v0: nat, v1: nat)
    requires t.Unshared() && t.Root(root)
  {
    forall v :: v0 <= v <= v1 ==> Mapped(t, root, v)
  }

  ghost predicate DistinctFrames(t: Forest, root: nat, v0: nat, v1: nat)
    requires t.Unshared() && t.Root(root) && AllMapped(t, root, v0, v1)
  {
    forall v, w :: v0 <= v <= v1 && v0 <= w <= v1 && Look(t, root, v).ppn == Look(t, root, w).ppn ==> v == w
  }

  /** Byte `o` of page `v` lies in the `n` bytes from `a`. */
  predicate Inside(a: nat, n: nat, v: nat, o: nat) {
    a <= v * PGSIZE + o < a + n
  }

  /** Exactly the bytes at the translations of `a .. a+|data|` changed, and they hold `data`. */
  ghost predicate Written(t: Forest, was: map<nat, seq<nat>>, now: map<nat, seq<nat>>, root: nat, a: nat,
                          data: seq<nat>)
    requires t.Unshared() && t.Root(root)
  {
    && now.Keys == was.Keys && (forall f :: f in was ==> |now[f]| == |was[f]|)
    && (forall v, o :: 0 <= v && 0 <= o < PGSIZE && Inside(a, |data|, v, o) ==>
          && Mapped(t, root, v) && Look(t, root, v).ppn in now && o < |now[Look(t, root, v).ppn]|
          && now[Look(t, root, v).ppn][o] == data[v * PGSIZE + o - a])
    && (forall f, o :: f in was && 0 <= o < |was[f]| && now[f][o] != was[f][o] ==> Target(t, root, a, |data|, f, o))
  }

  /** Byte `o` of frame `f` is the translation of an address in the range. */
  ghost predicate Target(t: Forest, root: nat, a: nat, n: nat, f: nat, o: nat)
    requires t.Unshared() && t.Root(root)
  {
    exists v :: 0 <= v && Mapped(t, root, v) && Look(t, root, v).ppn == f && Inside(a, n, v, o)
  }

  lemma TargetMore(t: Forest, root: nat, a: nat, n: nat, k: nat, f: nat, o: nat)
    requires t.Unshared() && t.Root(root) && Target(t, root, a, n, f, o) && n <= k
    ensures Target(t, root, a, k, f, o)
  {
    hide Forest.Unshared, Look;
    var v :| 0 <= v && Mapped(t, root, v) && Look(t, root, v).ppn == f && Inside(a, n, v, o);
    assert Inside(a, k, v, o);
  }

  lemma SamePage(v: nat, o: nat, w: nat, p: nat)
    requires o < PGSIZE && p < PGSIZE && w * PGSIZE <= v * PGSIZE + o < (w + 1) * PGSIZE
    ensures v == w
  {
  }

  /** One more chunk, inside page `w` from offset `p`. */
  lemma Chunk(m: Mem, was: map<nat, seq<nat>>, mid: map<nat, seq<nat>>, root: nat, a: nat, data: seq<nat>, d: nat,
              k: nat, w: nat, p: nat, last: nat)
    requires m.Ok() && m.t.Root(root) && d <= k <= |data| && Written(m.t, was, mid, root, a, data[..d])
    requires a + d == w * PGSIZE + p && p + (k - d) <= PGSIZE && p < PGSIZE
    requires a / PGSIZE <= w <= last && AllMapped(m.t, root, a / PGSIZE, last)
    requires DistinctFrames(m.t, root, a / PGSIZE, last)
    requires Look(m.t, root, w).ppn in mid && |mid[Look(m.t, root, w).ppn]| == PGSIZE
    ensures var f := Look(m.t, root, w).ppn;
            Written(m.t, was, mid[f := Splice(mid[f], p, data[d..k])], root, a, data[..k])
  {
    hide Forest.Unshared, Look, Mem.Apart, Mem.Counted;
    var t := m.t;
    var f := Look(t, root, w).ppn;
    var now := mid[f := Splice(mid[f], p, data[d..k])];
    forall v, o | 0 <= v && 0 <= o < PGSIZE && Inside(a, k, v, o)
      ensures Mapped(t, root, v) && Look(t, root, v).ppn in now && o < |now[Look(t, root, v).ppn]|
      ensures now[Look(t, root, v).ppn][o] == data[v * PGSIZE + o - a]
    {
      ChunkIn(m, was, mid, root, a, data, d, k, w, p, last, v, o);
    }
    forall g, o | g in was && 0 <= o < |was[g]| && now[g][o] != was[g][o] ensures Target(t, root, a, k, g, o) {
      if mid[g][o] != was[g][o] {
        TargetMore(t, root, a, d, k, g, o);
      } else {
        assert g == f && p <= o < p + (k - d);
        assert Inside(a, k, w, o) && Mapped(t, root, w);
      }
    }
  }

  lemma ChunkIn(m: Mem, was: map<nat, seq<nat>>, mid: map<nat, seq<nat>>, root: nat, a: nat, data: seq<nat>, d: nat,
                k: nat, w: nat, p: nat, last: nat, v: nat, o: nat)
    requires m.Ok() && m.t.Root(root) && d <= k <= |data| && Written(m.t, was, mid, root, a, data[..d])
    requires a + d == w * PGSIZE + p && p + (k - d) <= PGSIZE && p < PGSIZE
    requires a / PGSIZE <= w <= last && AllMapped(m.t, root, a / PGSIZE, last)
    requires DistinctFrames(m.t, root, a / PGSIZE, last)
    requires Look(m.t, root, w).ppn in mid && |mid[Look(m.t, root, w).ppn]| == PGSIZE
    requires o < PGSIZE && Inside(a, k, v, o)
    ensures var f, g := Look(m.t, root, w).ppn, Look(m.t, root, v).ppn;
            var now := mid[f := Splice(mid[f], p, data[d..k])];
            Mapped(m.t, root, v) && g in now && o < |now[g]| && now[g][o] == data[v * PGSIZE + o - a]
  {
    hide Forest.Unshared, Look, Mem.Apart, Mem.Counted, Mapped;
    if v * PGSIZE + o < a + d {
      assert Inside(a, |data[..d]|, v, o);
      assert mid[Look(m.t, root, v).ppn][o] == data[..d][v * PGSIZE + o - a];
      assert v <= w && a / PGSIZE <= v;
      if v == w {
        assert o < p;
      } else {
        assert Look(m.t, root, v).ppn != Look(m.t, root, w).ppn;
      }
    } else {
      SamePage(v, o, w, p);
    }
  }

  lemma NothingWritten(t: Forest, pages: map<nat, seq<nat>>, root: nat, a: nat, data: seq<nat>)
    requires t.Unshared() && t.Root(root)
    ensures Written(t, pages, pages, root, a, data[..0])
  {
  }

  lemma BackedStays(m: Mem, root: nat, f: nat, p: seq<nat>)
    requires Backed(m, root) && f in m.pages && |p| == |m.pages[f]|
    ensures Backed(m.(pages := m.pages[f := p]), root)
  {
    hide Forest.Unshared, Look;
  }

  /** The pages a copy still needs, after `d` of `n` bytes. */
  lemma NextPage(a: nat, n: nat, d: nat, v: nat)
    requires 0 < d < n && a + d == v * PGSIZE
    ensures a / PGSIZE < v <= LastPage(a, n)
  {
  }

  /**
   Copy `data` to user address `dst`; `ok` is false where the source panics on a page
   that is not mapped for the user.
   */
  method CopyOut(m: Memory, root: nat, dst: nat, data: seq<nat>) returns (ok: bool)
    requires Backed(m.M(), root)
    modifies m
    ensures ok <==> AllMapped(old(m.M()).t, root, dst / PGSIZE, LastPage(dst, |data|))
    ensures m.M().t == old(m.M()).t && m.free == old(m.free) && m.count == old(m.count)
    ensures ok && DistinctFrames(old(m.M()).t, root, dst / PGSIZE, LastPage(dst, |data|)) ==>
              Written(old(m.M()).t, old(m.pages), m.pages, root, dst, data)
  {
    hide Forest.Unshared, Look, Mem.Apart, Mem.Counted, Mapped, Written, DistinctFrames;
    ghost var a := m.M();
    ghost var last := LastPage(dst, |data|);
    var v, p, d := dst / PGSIZE, dst % PGSIZE, 0;
    NothingWritten(a.t, a.pages, root, dst, data);
    while true
      invariant 0 <= d <= |data| && (d == |data| ==> d == 0)
      invariant 0 <= p < PGSIZE && dst + d == v * PGSIZE + p && dst / PGSIZE <= v <= last
      invariant d > 0 ==> p == 0
      invariant m.M() == a.(pages := m.pages) && Backed(m.M(), root)
      invariant forall w :: dst / PGSIZE <= w < v ==> Mapped(a.t, root, w)
      invariant AllMapped(a.t, root, dst / PGSIZE, last) && DistinctFrames(a.t, root, dst / PGSIZE, last) ==>
                  Written(a.t, a.pages, m.pages, root, dst, data[..d])
      decreases |data| - d
    {
      var f;
      ok, f := PgtTranslate(m, root, v);
      if !ok {
        return;
      }
      var count := if PGSIZE - p > |data| - d then |data| - d else PGSIZE - p;
      if AllMapped(a.t, root, dst / PGSIZE, last) && DistinctFrames(a.t, root, dst / PGSIZE, last) {
        Chunk(m.M(), a.pages, m.pages, root, dst, data, d, d + count, v, p, last);
      }
      BackedStays(m.M(), root, f, Splice(m.pages[f], p, data[d..d + count]));
      m.pages := m.pages[f := Splice(m.pages[f], p, data[d..d + count])];
      d := d + count;
      if d == |data| {
        assert data[..d] == data;
        return;
      }
      v, p := v + 1, 0;
      NextPage(dst, |data|, d, v);
    }
  }

  // ----- copy_in -----

  /** The first `n` bytes from user address `a` are mapped and equal those of `buf`. */
  ghost predicate Holds(m: Mem, root: nat, a: nat, buf: seq<nat>, n: nat)
    requires Backed(m, root) && n <= |buf|
  {
    forall i :: 0 <= i < n ==> Seen(m, root, a, i, buf[i])
  }

  /** The byte `i` past `a` is mapped and is `b`. */
  ghost predicate Seen(m: Mem, root: nat, a: nat, i: nat, b: nat)
    requires Backed(m, root)
  {
    MappedAt(m, root, a + i) && b == Byte(m, root, a + i)
  }

  /** Addresses `a+d .. a+k` lie in page `v` from offset `p` on. */
  lemma InPage(a: nat, d: nat, v: nat, p: nat, i: nat)
    requires a + d == v * PGSIZE + p && d <= i < d + PGSIZE - p && p < PGSIZE
    ensures (a + i) / PGSIZE == v && (a + i) % PGSIZE == p + i - d
  {
  }

  /** One more chunk read: `now` is `was` with `c` bytes of page `v` put at `d`. */
  lemma ChunkRead(m: Mem, root: nat, a: nat, was: seq<nat>, now: seq<nat>, d: nat, k: nat, v: nat, p: nat)
    requires Backed(m, root) && d <= k <= |was| == |now| && Holds(m, root, a, was, d)
    requires a + d == v * PGSIZE + p && p + (k - d) <= PGSIZE && p < PGSIZE && Mapped(m.t, root, v)
    requires forall i :: 0 <= i < |now| ==>
               now[i] == if d <= i < k then m.pages[Look(m.t, root, v).ppn][p + i - d] else was[i]
    ensures Holds(m, root, a, now, k)
  {
    hide Forest.Unshared, Look, Mem.Apart, Mem.Counted, Mapped;
    forall i | 0 <= i < k ensures Seen(m, root, a, i, now[i]) {
      if i >= d {
        InPage(a, d, v, p, i);
      }
    }
  }

  /** A chunk of a page into the buffer. */
  method CopyChunk(buf: array<nat>, d: nat, page: seq<nat>, p: nat, count: nat)
    requires d + count <= buf.Length && p + count <= |page|
    modifies buf
    ensures forall i :: 0 <= i < buf.Length ==> buf[i] == if d <= i < d + count then page[p + i - d] else old(buf[i])
  {
    for j := 0 to count
      invariant forall i :: 0 <= i < buf.Length ==> buf[i] == if d <= i < d + j then page[p + i - d] else old(buf[i])
    {
      buf[d + j] := page[p + j];
    }
  }

  method CopyIn(m: Memory, root: nat, buf: array<nat>, src: nat) returns (ok: bool)
    requires Backed(m.M(), root)
    modifies m, buf
    ensures m.M() == old(m.M())
    ensures ok <==> AllMapped(m.M().t, root, src / PGSIZE, LastPage(src, buf.Length))
    ensures ok ==> Holds(m.M(), root, src, buf[..], buf.Length)
  {
    hide Forest.Unshared, Look, Mem.Apart, Mem.Counted, Mapped, Holds;
    ghost var last := LastPage(src, buf.Length);
    var v, p, d := src / PGSIZE, src % PGSIZE, 0;
    NothingRead(m.M(), root, src, buf[..]);
    while true
      invariant 0 <= d <= buf.Length && (d == buf.Length ==> d == 0)
      invariant 0 <= p < PGSIZE && src + d == v * PGSIZE + p && src / PGSIZE <= v <= last
      invariant d > 0 ==> p == 0
      invariant m.M() == old(m.M())
      invariant forall w :: src / PGSIZE <= w < v ==> Mapped(m.M().t, root, w)
      invariant Holds(m.M(), root, src, buf[..], d)
      decreases buf.Length - d
    {
      var f;
      ok, f := PgtTranslate(m, root, v);
      if !ok {
        return;
      }
      var count := if PGSIZE - p > buf.Length - d then buf.Length - d else PGSIZE - p;
      ghost var was := buf[..];
      CopyChunk(buf, d, m.pages[f], p, count);
      ChunkRead(m.M(), root, src, was, buf[..], d, d + count, v, p);
      d := d + count;
      if d == buf.Length {
        return;
      }
      v, p := v + 1, 0;
      NextPage(src, buf.Length, d, v);
    }
  }

  lemma NothingRead(m: Mem, root: nat, a: nat, buf: seq<nat>)
    requires Backed(m, root)
    ensures Holds(m, root, a, buf, 0)
  {
  }

  /** What was copied out is what is copied in. */
  lemma RoundTrip(a: Mem, b: Mem, root: nat, addr: nat, data: seq<nat>, back: seq<nat>)
    requires Backed(a, root) && Backed(b, root) && a.t == b.t && |back| == |data|
    requires Written(a.t, a.pages, b.pages, root, addr, data) && Holds(b, root, addr, back, |back|)
    ensures back == data
  {
    hide Forest.Unshared, Look, Mem.Apart, Mem.Counted, Mapped;
    forall i | 0 <= i < |data| ensures back[i] == data[i] {
      assert Inside(addr, |data|, (addr + i) / PGSIZE, (addr + i) % PGSIZE);
      assert Seen(b, root, addr, i, back[i]);
    }
  }

  /**
   Copied-out bytes are seen by one process only, if each page touched has its frame to
   itself: `copy_out` does not take the copy-on-write path.
   */
  lemma Isolated(a: Mem, b: Mem, users: U.Users, root: nat, addr: nat, data: seq<nat>, k: C.Key)
    requires U.Good(a, users) && Backed(a, root) && root in users.roots && LastPage(addr, |data|) < users.top
    requires AllMapped(a.t, root, addr / PGSIZE, LastPage(addr, |data|))
    requires Written(a.t, a.pages, b.pages, root, addr, data)
    requires forall v :: addr / PGSIZE <= v <= LastPage(addr, |data|) ==>
               Look(a.t, root, v).ppn in a.count && a.count[Look(a.t, root, v).ppn] == 1
    requires k in U.Leaves(a.t, users) && !(k.0 == root && addr / PGSIZE <= k.1 <= LastPage(addr, |data|))
    ensures var f := U.Leaves(a.t, users)[k].ppn;
            f in a.pages && f in b.pages && b.pages[f] == a.pages[f]
  {
    hide Forest.Unshared, Look, Huge, Mem.Apart, Mem.Counted, C.WritesOk, C.FreeListOk, C.CountsOk;
    var f := U.Leaves(a.t, users)[k].ppn;
    forall o | 0 <= o < |a.pages[f]| ensures b.pages[f][o] == a.pages[f][o] {
      if b.pages[f][o] != a.pages[f][o] {
        var v :| 0 <= v && Mapped(a.t, root, v) && Look(a.t, root, v).ppn == f && Inside(addr, |data|, v, o);
        InRange(addr, |data|, v, o);
        SoleUser(a, users, root, v, k);
        assert false;
      }
    }
  }

  lemma InRange(a: nat, n: nat, v: nat, o: nat)
    requires o < PGSIZE && Inside(a, n, v, o)
    ensures a / PGSIZE <= v <= LastPage(a, n)
  {
  }

  /** A frame counted once has one leaf. */
  lemma SoleUser(a: Mem, users: U.Users, root: nat, v: nat, k: C.Key)
    requires U.Good(a, users) && root in users.roots && v < users.top && Look(a.t, root, v).v
    requires Look(a.t, root, v).ppn in a.count && a.count[Look(a.t, root, v).ppn] == 1
    requires k in U.Leaves(a.t, users) && U.Leaves(a.t, users)[k].ppn == Look(a.t, root, v).ppn
    ensures k == (root, v)
  {
    hide Forest.Unshared, Look, Mem.Apart, Mem.Counted, C.WritesOk, C.FreeListOk;
    U.LeafFacts(a, users, root, v);
    var vm := U.VmOf(a, users);
    var f := Look(a.t, root, v).ppn;
    assert k in C.Sharers(vm.leaf, f) && (root, v) in C.Sharers(vm.leaf, f);
    if k != (root, v) {
      SubsetSize({k, (root, v)}, C.Sharers(vm.leaf, f));
    }
  }

  /** Another leaf than page `v` of `root` has the same frame exactly when the frame is counted more than once. */
  lemma OtherUser(a: Mem, users: U.Users, root: nat, v: nat)
    requires U.Good(a, users) && root in users.roots && v < users.top && Look(a.t, root, v).v
    ensures Look(a.t, root, v).ppn in a.count
    ensures a.count[Look(a.t, root, v).ppn] > 1 <==>
            exists k :: k in U.Leaves(a.t, users) && k != (root, v) && SameFrame(a, users, k, root, v)
  {
    hide Forest.Unshared, Look, Mem.Apart, Mem.Counted, C.WritesOk, C.FreeListOk, U.Leaves;
    U.LeafFacts(a, users, root, v);
    var vm := U.VmOf(a, users);
    var f := Look(a.t, root, v).ppn;
    var all := C.Sharers(vm.leaf, f);
    assert (root, v) in all;
    if k :| k in U.Leaves(a.t, users) && k != (root, v) && SameFrame(a, users, k, root, v) {
      SubsetSize({k, (root, v)}, all);
    }
    if a.count[f] > 1 {
      assert |all - {(root, v)}| > 0;
      var k :| k in all - {(root, v)};
      assert SameFrame(a, users, k, root, v);
    }
  }

  ghost predicate SameFrame(a: Mem, users: U.Users, k: C.Key, root: nat, v: nat)
    requires U.Spaces(a.t, users) && k in U.Leaves(a.t, users) && a.t.Root(root)
  {
    U.Leaves(a.t, users)[k].ppn == Look(a.t, root, v).ppn
  }

  predicate Changed(a: Mem, b: Mem, f: nat) {
    f in a.pages && f in b.pages && b.pages[f] != a.pages[f]
  }

  /** Some page outside the range, of any process, has other contents. */
  ghost predicate ShowsElsewhere(a: Mem, b: Mem, users: U.Users, root: nat, addr: nat, n: nat)
    requires U.Spaces(a.t, users)
  {
    exists k :: k in U.Leaves(a.t, users) && !(k.0 == root && addr / PGSIZE <= k.1 <= LastPage(addr, n))
                && Changed(a, b, U.Leaves(a.t, users)[k].ppn)
  }

  /** A page of the range is changed and its frame counted more than once. */
  ghost predicate SharedPage(a: Mem, b: Mem, root: nat, v: nat)
    requires a.t.Unshared() && a.t.Root(root)
  {
    var f := Look(a.t, root, v).ppn;
    Changed(a, b, f) && f in a.count && a.count[f] > 1
  }

  /** Copied-out bytes show elsewhere exactly when they change a page whose frame is shared. */
  lemma IsolatedIff(a: Mem, b: Mem, users: U.Users, root: nat, addr: nat, data: seq<nat>)
    requires U.Good(a, users) && Backed(a, root) && root in users.roots && LastPage(addr, |data|) < users.top
    requires AllMapped(a.t, root, addr / PGSIZE, LastPage(addr, |data|))
    requires DistinctFrames(a.t, root, addr / PGSIZE, LastPage(addr, |data|))
    requires Written(a.t, a.pages, b.pages, root, addr, data)
    ensures ShowsElsewhere(a, b, users, root, addr, |data|) <==>
            exists v: nat :: addr / PGSIZE <= v <= LastPage(addr, |data|) && SharedPage(a, b, root, v)
  {
    hide Forest.Unshared, Look, Huge, Mem.Apart, Mem.Counted, C.Inv, U.Leaves, DistinctFrames;
    if k :| k in U.Leaves(a.t, users) && !(k.0 == root && addr / PGSIZE <= k.1 <= LastPage(addr, |data|))
            && Changed(a, b, U.Leaves(a.t, users)[k].ppn) {
      var v := ChangedPage(a, b, root, addr, data, U.Leaves(a.t, users)[k].ppn);
      assert Mapped(a.t, root, v);
      assert SameFrame(a, users, k, root, v) && k != (root, v);
      OtherUser(a, users, root, v);
      assert SharedPage(a, b, root, v);
    }
    if v: nat :| addr / PGSIZE <= v <= LastPage(addr, |data|) && SharedPage(a, b, root, v) {
      assert Mapped(a.t, root, v);
      OtherUser(a, users, root, v);
      var k :| k in U.Leaves(a.t, users) && k != (root, v) && SameFrame(a, users, k, root, v);
      NotInRange(a, users, root, addr / PGSIZE, LastPage(addr, |data|), v, k);
    }
  }

  /** The page of the range that a changed frame is behind. */
  lemma ChangedPage(a: Mem, b: Mem, root: nat, addr: nat, data: seq<nat>, f: nat) returns (v: nat)
    requires Backed(a, root) && Written(a.t, a.pages, b.pages, root, addr, data) && Changed(a, b, f)
    ensures addr / PGSIZE <= v <= LastPage(addr, |data|) && Mapped(a.t, root, v) && Look(a.t, root, v).ppn == f
  {
    hide Forest.Unshared, Look, Huge, Mem.Apart, Mem.Counted;
    var o :| 0 <= o < |a.pages[f]| && b.pages[f][o] != a.pages[f][o];
    v :| 0 <= v && Mapped(a.t, root, v) && Look(a.t, root, v).ppn == f && Inside(addr, |data|, v, o);
    InRange(addr, |data|, v, o);
  }

  lemma NotInRange(a: Mem, users: U.Users, root: nat, v0: nat, v1: nat, v: nat, k: C.Key)
    requires U.Spaces(a.t, users) && root in users.roots && k in U.Leaves(a.t, users)
    requires AllMapped(a.t, root, v0, v1) && DistinctFrames(a.t, root, v0, v1) && v0 <= v <= v1
    requires k != (root, v) && SameFrame(a, users, k, root, v)
    ensures !(k.0 == root && v0 <= k.1 <= v1)
  {
    hide Forest.Unshared, Look, Huge;
  }

  // ----- copy_in_str -----

  /** No NUL among the first `n` bytes, all of them mapped. */
  ghost predicate Plain(m: Mem, root: nat, a: nat, n: nat)
    requires Backed(m, root)
  {
    forall i :: 0 <= i < n ==> Char(m, root, a, i)
  }

  ghost predicate Char(m: Mem, root: nat, a: nat, i: nat)
    requires Backed(m, root)
  {
    MappedAt(m, root, a + i) && Byte(m, root, a + i) != 0
  }

  /** The string at `a` has length `z`. */
  ghost predicate EndsAfter(m: Mem, root: nat, a: nat, z: nat)
    requires Backed(m, root)
  {
    Plain(m, root, a, z) && MappedAt(m, root, a + z) && Byte(m, root, a + z) == 0
  }

  /** When `copy_in_str` into `n` bytes succeeds: the NUL fits, or the room ends with a page. */
  ghost predicate Fits(m: Mem, root: nat, a: nat, n: nat)
    requires Backed(m, root)
  {
    (exists z :: 0 <= z < n && EndsAfter(m, root, a, z)) || FullPages(m, root, a, n)
  }

  ghost predicate FullPages(m: Mem, root: nat, a: nat, n: nat)
    requires Backed(m, root)
  {
    n > 0 && (a + n) % PGSIZE == 0 && Plain(m, root, a, n)
  }

  method FindZero(s: seq<nat>) returns (k: nat)
    ensures k <= |s| && (forall i :: 0 <= i < k ==> s[i] != 0) && (k < |s| ==> s[k] == 0)
  {
    k := 0;
    while k < |s| && s[k] != 0
      invariant k <= |s| && forall i :: 0 <= i < k ==> s[i] != 0
    {
      k := k + 1;
    }
  }

  lemma EndIsNul(m: Mem, root: nat, a: nat)
    requires Backed(m, root)
    ensures forall z :: 0 <= z && EndsAfter(m, root, a, z) ==> !Char(m, root, a, z)
  {
  }

  lemma NotMappedNoFit(m: Mem, root: nat, a: nat, n: nat, d: nat)
    requires Backed(m, root) && Plain(m, root, a, d) && !MappedAt(m, root, a + d) && (d < n || n == 0)
    ensures !Fits(m, root, a, n)
  {
    hide Forest.Unshared, Look, Mem.Apart, Mem.Counted, Mapped;
    EndIsNul(m, root, a);
    assert !Char(m, root, a, d);
    forall z | 0 <= z < n ensures !EndsAfter(m, root, a, z) {
      if z < d {
        assert Char(m, root, a, z);
      }
    }
  }

  /** The bytes of one page's tail, seen from the string's start. */
  lemma PlainMore(m: Mem, root: nat, a: nat, d: nat, v: nat, p: nat, k: nat)
    requires Backed(m, root) && Plain(m, root, a, d) && Mapped(m.t, root, v)
    requires a + d == v * PGSIZE + p && p < PGSIZE && p + k <= PGSIZE
    requires forall i :: p <= i < p + k ==> m.pages[Look(m.t, root, v).ppn][i] != 0
    ensures Plain(m, root, a, d + k)
    ensures p + k < PGSIZE && m.pages[Look(m.t, root, v).ppn][p + k] == 0 ==> EndsAfter(m, root, a, d + k)
  {
    hide Forest.Unshared, Look, Mem.Apart, Mem.Counted, Mapped;
    forall i | d <= i < d + k ensures Char(m, root, a, i) {
      InPage(a, d, v, p, i);
    }
    if p + k < PGSIZE {
      InPage(a, d, v, p, d + k);
    }
  }

  /** The NUL lies past the room, or the room ends inside a page: no fit. */
  lemma TooLong(m: Mem, root: nat, a: nat, n: nat, k: nat)
    requires Backed(m, root) && Plain(m, root, a, k) && n <= k && (n == 0 || (a + n) % PGSIZE != 0)
    ensures !Fits(m, root, a, n)
  {
    hide Forest.Unshared, Look, Mem.Apart, Mem.Counted, Mapped;
    EndIsNul(m, root, a);
    forall z | 0 <= z < n ensures !EndsAfter(m, root, a, z) {
      assert Char(m, root, a, z);
    }
  }

  /** What a successful call leaves: the string with its NUL and nothing more, or a full buffer. */
  ghost predicate Copied(m: Mem, root: nat, a: nat, was: seq<nat>, now: seq<nat>)
    requires Backed(m, root)
  {
    && |was| == |now|
    && (FullPages(m, root, a, |now|) ==> Holds(m, root, a, now, |now|))
    && (forall z :: 0 <= z < |now| && EndsAfter(m, root, a, z) ==>
          Holds(m, root, a, now, z + 1) && forall i :: z < i < |now| ==> now[i] == was[i])
  }

  lemma CopiedThrough(m: Mem, root: nat, a: nat, was: seq<nat>, now: seq<nat>, z: nat)
    requires Backed(m, root) && |was| == |now| && z < |now| && EndsAfter(m, root, a, z) && Holds(m, root, a, now, z + 1)
    requires forall i :: z < i < |now| ==> now[i] == was[i]
    ensures Copied(m, root, a, was, now) && Fits(m, root, a, |now|)
  {
    hide Forest.Unshared, Look, Mem.Apart, Mem.Counted, Mapped, Holds;
    assert !Char(m, root, a, z);
    forall y | 0 <= y && EndsAfter(m, root, a, y) ensures y == z {
      assert !Char(m, root, a, y);
    }
  }

  lemma CopiedFull(m: Mem, root: nat, a: nat, was: seq<nat>, now: seq<nat>)
    requires Backed(m, root) && |was| == |now| && FullPages(m, root, a, |now|) && Holds(m, root, a, now, |now|)
    ensures Copied(m, root, a, was, now) && Fits(m, root, a, |now|)
  {
    hide Forest.Unshared, Look, Mem.Apart, Mem.Counted, Mapped, Holds;
    EndIsNul(m, root, a);
    forall z | 0 <= z < |now| ensures !EndsAfter(m, root, a, z) {
      assert Char(m, root, a, z);
    }
  }

  lemma PlainNone(m: Mem, root: nat, a: nat)
    requires Backed(m, root)
    ensures Plain(m, root, a, 0)
  {
  }

  datatype Part = TooBig | Ended | WholePage

  /** One page of a string: to its NUL, to the end of the page, or not at all. */
  method StrPage(m: Memory, root: nat, buf: array<nat>, src: nat, d: nat, v: nat, p: nat, f: nat, ghost was: seq<nat>)
    returns (part: Part)
    requires Backed(m.M(), root) && Mapped(m.M().t, root, v) && f == Look(m.M().t, root, v).ppn
    requires d <= buf.Length == |was| && (d == buf.Length ==> d == 0) && p < PGSIZE && src + d == v * PGSIZE + p
    requires Plain(m.M(), root, src, d) && Holds(m.M(), root, src, buf[..], d)
    requires forall i :: d <= i < buf.Length ==> buf[i] == was[i]
    modifies buf
    ensures part == TooBig ==> !Fits(m.M(), root, src, buf.Length)
    ensures part == Ended ==> Fits(m.M(), root, src, buf.Length) && Copied(m.M(), root, src, was, buf[..])
    ensures part == WholePage ==> d + PGSIZE - p <= buf.Length && Plain(m.M(), root, src, d + PGSIZE - p)
    ensures part == WholePage ==> Holds(m.M(), root, src, buf[..], d + PGSIZE - p)
    ensures part == WholePage ==> forall i :: d + PGSIZE - p <= i < buf.Length ==> buf[i] == was[i]
  {
    hide Forest.Unshared, Look, Mem.Apart, Mem.Counted, Mapped, Holds, Plain, Fits, Copied, EndsAfter, Byte, MappedAt;
    var k := FindZero(m.pages[f][p..]);
    PlainMore(m.M(), root, src, d, v, p, k);
    var count := if p + k < PGSIZE then k + 1 else k;
    if d + count > buf.Length {
      TooLong(m.M(), root, src, buf.Length, d + k);
      return TooBig;
    }
    ghost var mid := buf[..];
    CopyChunk(buf, d, m.pages[f], p, count);
    ChunkRead(m.M(), root, src, mid, buf[..], d, d + count, v, p);
    if p + k < PGSIZE {
      CopiedThrough(m.M(), root, src, was, buf[..], d + k);
      return Ended;
    }
    part := WholePage;
  }

  /**
   Copy a string in.  It copies up to and with the NUL, or fills the buffer when the
   buffer's last byte is the last of a page; in every other case it panics.
   */
  method CopyInStr(m: Memory, root: nat, buf: array<nat>, src: nat) returns (ok: bool)
    requires Backed(m.M(), root)
    modifies m, buf
    ensures m.M() == old(m.M())
    ensures ok <==> Fits(m.M(), root, src, buf.Length)
    ensures ok ==> Copied(m.M(), root, src, old(buf[..]), buf[..])
  {
    hide Forest.Unshared, Look, Mem.Apart, Mem.Counted, Mapped, Holds, Plain, Fits, Copied, EndsAfter, Byte;
    var n := buf.Length;
    var v, p, d := src / PGSIZE, src % PGSIZE, 0;
    NothingRead(m.M(), root, src, buf[..]);
    PlainNone(m.M(), root, src);
    while true
      invariant 0 <= d <= n && (d == n ==> d == 0)
      invariant 0 <= p < PGSIZE && src + d == v * PGSIZE + p
      invariant d > 0 ==> p == 0
      invariant m.M() == old(m.M())
      invariant Plain(m.M(), root, src, d) && Holds(m.M(), root, src, buf[..], d)
      invariant forall i :: d <= i < n ==> buf[i] == old(buf[i])
      decreases n - d
    {
      var f;
      ok, f := PgtTranslate(m, root, v);
      if !ok {
        NotMappedNoFit(m.M(), root, src, n, d);
        return;
      }
      var part := StrPage(m, root, buf, src, d, v, p, f, old(buf[..]));
      if part != WholePage {
        return part == Ended;
      }
      d, v, p := d + PGSIZE - p, v + 1, 0;
      if d == n {
        CopiedFull(m.M(), root, src, old(buf[..]), buf[..]);
        return true;
      }
    }
  }
}
