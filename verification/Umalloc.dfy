/**
 The user-space allocator of section 8.7 of The C Programming Language, 2nd ed.: a
 circular, address-ordered, coalesced free list threaded through the block headers.
 Addresses are integers in units of one header.
 */
module Umalloc {
  import opened Collections

  // ----- the free list as a cycle in address order -----

  predicate Sorted(fl: seq<int>) {
    forall i, j :: 0 <= i < j < |fl| ==> fl[i] < fl[j]
  }

  predicate Link(ptr: map<int, int>, fl: seq<int>, i: nat) {
    i < |fl| && fl[i] in ptr && ptr[fl[i]] == fl[Wrap(i + 1, |fl|)]
  }

  /** `fl` lists one cycle of `ptr`, in address order from `base`. */
  predicate Ring(ptr: map<int, int>, fl: seq<int>, base: int) {
    && |fl| > 0 && fl[0] == base
    && Sorted(fl)
    && forall i :: 0 <= i < |fl| ==> Link(ptr, fl, i)
  }

  function Insert(fl: seq<int>, m: nat, bp: int): seq<int>
    requires m < |fl|
  {
    fl[..m + 1] + [bp] + fl[m + 1..]
  }

  function Remove(fl: seq<int>, k: nat): seq<int>
    requires k < |fl|
  {
    fl[..k] + fl[k + 1..]
  }

  /** `bp` belongs right behind entry `m`. */
  predicate Between(fl: seq<int>, m: nat, bp: int) {
    m < |fl| && fl[m] < bp && (m + 1 < |fl| ==> bp < fl[m + 1])
  }

  lemma InsertSorted(fl: seq<int>, m: nat, bp: int)
    requires Sorted(fl) && Between(fl, m, bp)
    ensures Sorted(Insert(fl, m, bp))
  {
  }

  lemma RingInsert(ptr: map<int, int>, fl: seq<int>, base: int, m: nat, bp: int)
    requires Ring(ptr, fl, base) && Between(fl, m, bp) && Link(ptr, fl, m)
    ensures Ring(ptr[bp := ptr[fl[m]]][fl[m] := bp], Insert(fl, m, bp), base)
  {
    InsertSorted(fl, m, bp);
    var r := Insert(fl, m, bp);
    var ptr' := ptr[bp := ptr[fl[m]]][fl[m] := bp];
    forall i | 0 <= i < |r| ensures Link(ptr', r, i) {
      if i < m {
        assert Link(ptr, fl, i);
        assert r[i] == fl[i] && r[i + 1] == fl[i + 1];
      } else if i > m + 1 {
        assert Link(ptr, fl, i - 1);
        assert r[i] == fl[i - 1] && (i + 1 < |r| ==> r[i + 1] == fl[i]);
        assert fl[m] < r[i] && bp < r[i];
      }
    }
  }

  lemma RingRemove(ptr: map<int, int>, fl: seq<int>, base: int, k: nat)
    requires Ring(ptr, fl, base) && 0 < k < |fl|
    requires Link(ptr, fl, k)
    ensures Ring(ptr[fl[k - 1] := ptr[fl[k]]], Remove(fl, k), base)
  {
    RemoveSorted(fl, k);
    var r := Remove(fl, k);
    var ptr' := ptr[fl[k - 1] := ptr[fl[k]]];
    forall i | 0 <= i < |r| ensures Link(ptr', r, i) {
      if i < k - 1 {
        assert Link(ptr, fl, i);
        assert r[i] == fl[i] && r[i + 1] == fl[i + 1];
      } else if i > k - 1 {
        assert Link(ptr, fl, i + 1);
        assert r[i] == fl[i + 1];
        assert fl[k - 1] < fl[i + 1];
      } else {
        assert r[i] == fl[k - 1] && r[0] == fl[0];
        assert k + 1 < |fl| ==> r[i + 1] == fl[k + 1];
      }
    }
  }

  lemma RemoveSorted(fl: seq<int>, k: nat)
    requires Sorted(fl) && k < |fl|
    ensures Sorted(Remove(fl, k))
  {
  }

  // ----- blocks -----

  datatype Blk = Blk(n: nat, free: bool)

  /** Blocks never overlap, and two free blocks never even touch. */
  predicate Laid(blocks: map<int, Blk>) {
    && (forall a, b :: a in blocks && b in blocks && a < b ==> a + blocks[a].n <= b)
    && (forall a, b :: a in blocks && b in blocks && a < b && blocks[a].free && blocks[b].free ==>
          a + blocks[a].n < b)
  }

  /** All units of the blocks together. */
  ghost function Units(blocks: map<int, Blk>): nat
    decreases |blocks|
  {
    if blocks == map[] then 0
    else
      NonEmpty(blocks);
      var a :| a in blocks;
      blocks[a].n + Units(blocks - {a})
  }

  lemma NonEmpty(blocks: map<int, Blk>)
    ensures blocks == map[] || exists a :: a in blocks
  {
    if !exists a :: a in blocks {
      assert blocks == map[];
    }
  }

  lemma {:induction false} UnitsRemove(blocks: map<int, Blk>, a: int)
    requires a in blocks
    ensures Units(blocks) == blocks[a].n + Units(blocks - {a})
    decreases |blocks|
  {
    var b :| b in blocks && Units(blocks) == blocks[b].n + Units(blocks - {b});
    if b != a {
      UnitsRemove(blocks - {b}, a);
      UnitsRemove(blocks - {a}, b);
      assert blocks - {b} - {a} == blocks - {a} - {b};
    }
  }

  lemma UnitsSet(blocks: map<int, Blk>, a: int, b: Blk)
    ensures Units(blocks[a := b]) == b.n + Units(blocks - {a})
  {
    UnitsRemove(blocks[a := b], a);
    assert blocks[a := b] - {a} == blocks - {a};
  }

  // ----- what freeing and coalescing do to the blocks -----

  /** `p` is the nearest free block below `bp`; `q` the nearest above, or `base` if there is none. */
  predicate Neighbours(blocks: map<int, Blk>, base: int, p: int, bp: int, q: int) {
    && bp in blocks && !blocks[bp].free
    && p in blocks && blocks[p].free && base <= p < bp
    && q in blocks && blocks[q].free && (q == base || bp < q)
    && (forall c :: c in blocks && blocks[c].free ==> c <= p || (q != base && q <= c))
  }

  /** Coalesce with the block above if it touches, else just mark free. */
  function JoinUp(blocks: map<int, Blk>, bp: int, q: int): map<int, Blk>
    requires bp in blocks && q in blocks
  {
    if bp + blocks[bp].n == q then (blocks - {q})[bp := Blk(blocks[bp].n + blocks[q].n, true)]
    else blocks[bp := Blk(blocks[bp].n, true)]
  }

  /** Coalesce with the block below if it touches. */
  function JoinDown(blocks: map<int, Blk>, p: int, bp: int): map<int, Blk>
    requires bp in blocks && p in blocks
  {
    if p + blocks[p].n == bp then (blocks - {bp})[p := Blk(blocks[p].n + blocks[bp].n, true)]
    else blocks
  }

  /** Laid out, except that the free blocks `p` and `bp` may touch. */
  predicate LaidBut(blocks: map<int, Blk>, p: int, bp: int) {
    && p in blocks && bp in blocks && blocks[p].free && blocks[bp].free && p < bp
    && (forall c :: c in blocks && blocks[c].free ==> c <= p || bp <= c)
    && (forall a, b :: a in blocks && b in blocks && a < b ==> a + blocks[a].n <= b)
    && (forall a, b :: a in blocks && b in blocks && a < b && blocks[a].free && blocks[b].free ==>
          a + blocks[a].n < b || (a == p && b == bp))
  }

  lemma JoinUpUnits(blocks: map<int, Blk>, bp: int, q: int)
    requires bp in blocks && q in blocks && bp != q
    ensures Units(JoinUp(blocks, bp, q)) == Units(blocks)
  {
    UnitsRemove(blocks, bp);
    if bp + blocks[bp].n == q {
      UnitsRemove(blocks - {bp}, q);
      UnitsSet(blocks - {q}, bp, Blk(blocks[bp].n + blocks[q].n, true));
      assert blocks - {q} - {bp} == blocks - {bp} - {q};
    } else {
      UnitsSet(blocks, bp, Blk(blocks[bp].n, true));
    }
  }

  /** A block of the joined map that lies above another one lies behind its end. */
  lemma JoinUpPair(blocks: map<int, Blk>, base: int, p: int, bp: int, q: int, a: int, b: int)
    requires Laid(blocks) && Neighbours(blocks, base, p, bp, q)
    requires var r := JoinUp(blocks, bp, q); a in r && b in r && a < b
    ensures var r := JoinUp(blocks, bp, q);
            && a + r[a].n <= b
            && (r[a].free && r[b].free ==> a + r[a].n < b || (a == p && b == bp))
  {
    var r := JoinUp(blocks, bp, q);
    assert a in blocks && b in blocks && a + blocks[a].n <= b;
    if a == bp && bp + blocks[bp].n == q {
      assert b != q && q + blocks[q].n <= b;
    }
  }

  lemma JoinUpLaid(blocks: map<int, Blk>, base: int, p: int, bp: int, q: int)
    requires Laid(blocks) && Neighbours(blocks, base, p, bp, q)
    ensures LaidBut(JoinUp(blocks, bp, q), p, bp)
  {
    var r := JoinUp(blocks, bp, q);
    forall a, b | a in r && b in r && a < b
      ensures a + r[a].n <= b
      ensures r[a].free && r[b].free ==> a + r[a].n < b || (a == p && b == bp)
    {
      JoinUpPair(blocks, base, p, bp, q, a, b);
    }
  }

  lemma JoinDownLaid(blocks: map<int, Blk>, p: int, bp: int)
    requires LaidBut(blocks, p, bp)
    ensures Laid(JoinDown(blocks, p, bp))
    ensures Units(JoinDown(blocks, p, bp)) == Units(blocks)
  {
    hide Units;
    JoinDownUnits(blocks, p, bp);
  }

  lemma JoinDownUnits(blocks: map<int, Blk>, p: int, bp: int)
    requires p in blocks && bp in blocks && p != bp
    ensures Units(JoinDown(blocks, p, bp)) == Units(blocks)
  {
    if p + blocks[p].n == bp {
      UnitsRemove(blocks, bp);
      UnitsRemove(blocks - {bp}, p);
      UnitsSet(blocks - {bp}, p, Blk(blocks[p].n + blocks[bp].n, true));
    }
  }

  /** Carve `n` units off the upper end of the free block `p`. */
  function Split(blocks: map<int, Blk>, p: int, n: nat): map<int, Blk>
    requires p in blocks && n < blocks[p].n
  {
    blocks[p := Blk(blocks[p].n - n, true)][p + blocks[p].n - n := Blk(n, false)]
  }

  lemma SplitFresh(blocks: map<int, Blk>, p: int, n: nat)
    requires Laid(blocks) && p in blocks && 0 < n < blocks[p].n
    ensures p + blocks[p].n - n !in blocks
  {
  }

  lemma SplitUnits(blocks: map<int, Blk>, p: int, n: nat)
    requires p in blocks && n < blocks[p].n && p + blocks[p].n - n !in blocks
    ensures Units(Split(blocks, p, n)) == Units(blocks)
  {
    var x := p + blocks[p].n - n;
    UnitsRemove(blocks, p);
    UnitsSet(blocks, p, Blk(blocks[p].n - n, true));
    var b1 := blocks[p := Blk(blocks[p].n - n, true)];
    UnitsSet(b1, x, Blk(n, false));
    assert b1 - {x} == b1;
  }

  lemma SplitPair(blocks: map<int, Blk>, p: int, n: nat, a: int, b: int)
    requires Laid(blocks) && p in blocks && blocks[p].free && 0 < n < blocks[p].n
    requires p + blocks[p].n - n !in blocks
    requires var r := Split(blocks, p, n); a in r && b in r && a < b
    ensures var r := Split(blocks, p, n);
            a + r[a].n <= b && (r[a].free && r[b].free ==> a + r[a].n < b)
  {
    var x := p + blocks[p].n - n;
    assert a == x || a in blocks;
    assert b == x || b in blocks;
    if a == x {
      assert b != p && b in blocks && p + blocks[p].n <= b;
    } else if b == x {
      assert a <= p;
    }
  }

  lemma SplitLaid(blocks: map<int, Blk>, p: int, n: nat)
    requires Laid(blocks) && p in blocks && blocks[p].free && 0 < n < blocks[p].n
    requires p + blocks[p].n - n !in blocks
    ensures Laid(Split(blocks, p, n))
  {
    var r := Split(blocks, p, n);
    forall a, b | a in r && b in r && a < b
      ensures a + r[a].n <= b && (r[a].free && r[b].free ==> a + r[a].n < b)
    {
      SplitPair(blocks, p, n, a, b);
    }
  }

  function Taken(blocks: map<int, Blk>, p: int): map<int, Blk>
    requires p in blocks
  {
    blocks[p := Blk(blocks[p].n, false)]
  }

  lemma TakenUnits(blocks: map<int, Blk>, p: int)
    requires p in blocks
    ensures Units(Taken(blocks, p)) == Units(blocks)
  {
    UnitsRemove(blocks, p);
    UnitsSet(blocks, p, Blk(blocks[p].n, false));
  }

  lemma TakenLaid(blocks: map<int, Blk>, p: int)
    requires Laid(blocks) && p in blocks
    ensures Laid(Taken(blocks, p))
  {
    var r := Taken(blocks, p);
    forall a, b | a in r && b in r && a < b
      ensures a + r[a].n <= b && (r[a].free && r[b].free ==> a + r[a].n < b)
    {
      assert a in blocks && b in blocks;
    }
  }

  function LiveOf(blocks: map<int, Blk>): map<int, nat> {
    map a | a in blocks && !blocks[a].free :: blocks[a].n
  }

  lemma LiveJoinUp(blocks: map<int, Blk>, bp: int, q: int)
    requires bp in blocks && q in blocks && blocks[q].free && bp != q
    ensures LiveOf(JoinUp(blocks, bp, q)) == LiveOf(blocks) - {bp}
  {
  }

  lemma LiveJoinDown(blocks: map<int, Blk>, p: int, bp: int)
    requires p in blocks && bp in blocks && blocks[p].free && blocks[bp].free && p != bp
    ensures LiveOf(JoinDown(blocks, p, bp)) == LiveOf(blocks)
  {
  }

  lemma LiveTaken(blocks: map<int, Blk>, p: int)
    requires p in blocks
    ensures LiveOf(Taken(blocks, p)) == LiveOf(blocks)[p := blocks[p].n]
  {
  }

  lemma LiveSplit(blocks: map<int, Blk>, p: int, n: nat)
    requires p in blocks && blocks[p].free && n < blocks[p].n && p + blocks[p].n - n !in blocks
    ensures LiveOf(Split(blocks, p, n)) == LiveOf(blocks)[p + blocks[p].n - n := n]
  {
  }

  lemma LiveAdd(blocks: map<int, Blk>, a: int, n: nat)
    requires a !in blocks
    ensures LiveOf(blocks[a := Blk(n, false)]) == LiveOf(blocks)[a := n]
  {
  }

  // ----- the whole allocator as a value -----

  /**
   `ptr` and `size` are the header fields in memory; `fl` is the free list from `base`
   up; `blocks` are all blocks, free and handed out; `arena` holds every unit ever
   obtained from the system.
   */
  datatype Heap = Heap(base: int, ptr: map<int, int>, size: map<int, nat>,
                       fl: seq<int>, blocks: map<int, Blk>, arena: set<int>)
  {
    /** The list holds exactly the free blocks. */
    predicate Listed() {
      && (forall i :: 0 <= i < |fl| ==> fl[i] in blocks && blocks[fl[i]].free)
      && (forall a :: a in blocks && blocks[a].free ==> a in fl)
    }

    /** Headers hold the sizes; `base` is the one empty block and lies below all others. */
    predicate Headed() {
      && base in blocks && blocks[base] == Blk(0, true)
      && (forall a :: a in blocks ==> a in size && size[a] == blocks[a].n)
      && (forall a :: a in blocks && a != base ==> base < a && blocks[a].n > 0)
    }

    /** Every unit of the arena is in exactly one block. */
    ghost predicate Covered() {
      && (forall a, u :: a in blocks && a <= u < a + blocks[a].n ==> u in arena)
      && Units(blocks) == |arena|
    }

    ghost predicate Ok() {
      Ring(ptr, fl, base) && Listed() && Headed() && Laid(blocks) && Covered()
    }

    /** The blocks handed out and not yet freed. */
    function Live(): map<int, nat> {
      LiveOf(blocks)
    }
  }

  // ----- what callers hold -----

  /** Unit `x` lies in a block handed out, behind its header. */
  predicate Inside(live: map<int, nat>, x: int) {
    exists b :: b in live && b < x < b + live[b]
  }

  predicate SameAt(was: Heap, now: Heap, x: int) {
    && (x in now.ptr <==> x in was.ptr) && (x in was.ptr ==> now.ptr[x] == was.ptr[x])
    && (x in now.size <==> x in was.size) && (x in was.size ==> now.size[x] == was.size[x])
  }

  /** Nothing is written inside the blocks `live`. */
  ghost predicate Untouched(was: Heap, now: Heap, live: map<int, nat>) {
    forall x :: Inside(live, x) ==> SameAt(was, now, x)
  }

  /** Headers, and units of free blocks, are outside the blocks handed out. */
  lemma Outside(h: Heap, c: int, x: int)
    requires Laid(h.blocks) && c in h.blocks && (x == c || (h.blocks[c].free && c <= x < c + h.blocks[c].n))
    ensures !Inside(h.Live(), x)
  {
  }

  lemma UntouchedTrans(a: Heap, b: Heap, c: Heap, live: map<int, nat>)
    requires Untouched(a, b, live) && Untouched(b, c, live)
    ensures Untouched(a, c, live)
  {
    forall x | Inside(live, x) ensures SameAt(a, c, x) {
      assert SameAt(a, b, x) && SameAt(b, c, x);
    }
  }

  lemma UntouchedRefl(h: Heap, live: map<int, nat>)
    ensures Untouched(h, h, live)
  {
  }

  lemma FreedUntouched(h: Heap, m: nat, bp: int)
    requires Spot(h, m, bp) && OkBut(Up(h, m, bp), m)
    requires Up(h, m, bp).fl[m] == h.fl[m] && Up(h, m, bp).fl[m + 1] == bp
    ensures Untouched(h, Down(Up(h, m, bp), m), h.Live() - {bp})
  {
    hide LaidBut, Heap.Covered, Heap.Headed, JoinUp, JoinDown, Insert, Remove, Ring, Inside, Laid;
    var r := Down(Up(h, m, bp), m);
    forall x | Inside(h.Live() - {bp}, x) ensures SameAt(h, r, x) {
      InsideMore(h.Live(), bp, x);
      Outside(h, bp, bp);
      Outside(h, h.fl[m], h.fl[m]);
    }
  }

  lemma InsideMore(live: map<int, nat>, bp: int, x: int)
    requires Inside(live - {bp}, x)
    ensures Inside(live, x)
  {
  }

  lemma GrownUntouched(h: Heap, hp: int, n: nat)
    requires Grown(h, hp, n).Ok() && hp !in h.blocks && Grown(h, hp, n).Live() == h.Live()[hp := n]
    ensures Untouched(h, Grown(h, hp, n), h.Live())
  {
    hide Laid, Heap.Covered, Ring, Heap.Live, Heap.Headed, Heap.Listed;
    var g := Grown(h, hp, n);
    Outside(g, hp, hp);
    NotLive(h, hp, n);
    forall x | Inside(h.Live(), x) ensures SameAt(h, g, x) {
      InsideWider(h.Live(), hp, n, x);
    }
  }

  lemma InsideWider(live: map<int, nat>, hp: int, n: nat, x: int)
    requires Inside(live, x) && hp !in live
    ensures Inside(live[hp := n], x)
  {
    var b :| b in live && b < x < b + live[b];
    assert b in live[hp := n];
  }

  lemma TookWholeUntouched(h: Heap, k: nat)
    requires h.Ok() && 0 < k < |h.fl| && h.fl[k] in h.ptr && h.fl[k] in h.blocks
    ensures Untouched(h, TookWhole(h, k), h.Live())
  {
    hide Laid, Heap.Covered, Ring, Heap.Live, Inside, Remove;
    Outside(h, h.fl[k - 1], h.fl[k - 1]);
  }

  lemma TookPartUntouched(h: Heap, k: nat, n: nat)
    requires h.Ok() && 0 < k < |h.fl| && h.fl[k] in h.blocks && h.fl[k] in h.size
    requires 0 < n < h.size[h.fl[k]] == h.blocks[h.fl[k]].n
    ensures Untouched(h, TookPart(h, k, n), h.Live())
  {
    hide Laid, Heap.Covered, Ring, Heap.Live, Inside, Split;
    var p := h.fl[k];
    Outside(h, p, p);
    Outside(h, p, p + h.size[p] - n);
  }

  // ----- free -----

  /** Live block `bp` belongs behind entry `m`, whose successor is the next block up or `base`. */
  ghost predicate Spot(h: Heap, m: nat, bp: int) {
    && h.Ok() && Between(h.fl, m, bp) && Link(h.ptr, h.fl, m)
    && h.ptr[h.fl[m]] in h.ptr
    && Neighbours(h.blocks, h.base, h.fl[m], bp, h.ptr[h.fl[m]])
    && (h.ptr[h.fl[m]] != h.base ==> m + 1 < |h.fl| && h.ptr[h.fl[m]] == h.fl[m + 1])
  }

  lemma SpotFound(h: Heap, m: nat, bp: int)
    requires h.Ok() && bp in h.blocks && !h.blocks[bp].free && Between(h.fl, m, bp)
    ensures Spot(h, m, bp)
  {
    assert Link(h.ptr, h.fl, m);
    assert Link(h.ptr, h.fl, Wrap(m + 1, |h.fl|));
    forall c | c in h.blocks && h.blocks[c].free
      ensures c <= h.fl[m] || (h.ptr[h.fl[m]] != h.base && h.ptr[h.fl[m]] <= c)
    {
      var i :| 0 <= i < |h.fl| && h.fl[i] == c;
    }
  }

  /** There is exactly one such entry. */
  lemma FindBetween(h: Heap, bp: int) returns (m: nat)
    requires h.Ok() && bp in h.blocks && !h.blocks[bp].free
    ensures Between(h.fl, m, bp)
  {
    m := 0;
    while m + 1 < |h.fl| && h.fl[m + 1] < bp
      invariant m < |h.fl| && h.fl[m] < bp
    {
      m := m + 1;
    }
    if m + 1 < |h.fl| {
      assert h.fl[m + 1] in h.blocks && h.blocks[h.fl[m + 1]].free;
    }
  }

  /** `bp` linked in behind entry `m` and joined with the block above if they touch. */
  ghost function Up(h: Heap, m: nat, bp: int): Heap
    requires Spot(h, m, bp)
  {
    var p, q := h.fl[m], h.ptr[h.fl[m]];
    if bp + h.size[bp] == q then
      h.(ptr := h.ptr[bp := h.ptr[q]][p := bp],
         size := h.size[bp := h.size[bp] + h.size[q]],
         fl := Insert(Remove(h.fl, m + 1), m, bp),
         blocks := JoinUp(h.blocks, bp, q))
    else
      h.(ptr := h.ptr[bp := q][p := bp],
         fl := Insert(h.fl, m, bp),
         blocks := JoinUp(h.blocks, bp, q))
  }

  /** Entries `m` and `m + 1` joined if they touch. */
  ghost function Down(h: Heap, m: nat): Heap
    requires OkBut(h, m)
  {
    var p, bp := h.fl[m], h.fl[m + 1];
    assert Link(h.ptr, h.fl, m + 1);
    if p + h.size[p] == bp then
      h.(ptr := h.ptr[p := h.ptr[bp]],
         size := h.size[p := h.size[p] + h.size[bp]],
         fl := Remove(h.fl, m + 1),
         blocks := JoinDown(h.blocks, p, bp))
    else h
  }

  lemma UpRing(h: Heap, m: nat, bp: int)
    requires Spot(h, m, bp)
    ensures Ring(Up(h, m, bp).ptr, Up(h, m, bp).fl, h.base)
    ensures Up(h, m, bp).fl[m] == h.fl[m] && m + 1 < |Up(h, m, bp).fl| && Up(h, m, bp).fl[m + 1] == bp
  {
    hide Laid, Heap.Covered, Heap.Listed, JoinUp;
    var p, q := h.fl[m], h.ptr[h.fl[m]];
    if bp + h.size[bp] == q {
      assert Link(h.ptr, h.fl, m + 1);
      RingRemove(h.ptr, h.fl, h.base, m + 1);
      var ptr1, l1 := h.ptr[p := h.ptr[q]], Remove(h.fl, m + 1);
      assert l1[m] == p && Link(ptr1, l1, m);
      assert m + 1 < |l1| ==> l1[m + 1] == h.fl[m + 2];
      RingInsert(ptr1, l1, h.base, m, bp);
      assert ptr1[bp := ptr1[p]][p := bp] == h.ptr[bp := h.ptr[q]][p := bp];
    } else {
      RingInsert(h.ptr, h.fl, h.base, m, bp);
    }
  }

  lemma InsertElements(fl: seq<int>, m: nat, bp: int)
    requires m < |fl|
    ensures forall x :: x in Insert(fl, m, bp) <==> x == bp || x in fl
  {
    assert fl == fl[..m + 1] + fl[m + 1..];
  }

  lemma RemoveElements(fl: seq<int>, k: nat)
    requires k < |fl| && Sorted(fl)
    ensures |Remove(fl, k)| == |fl| - 1 && forall x :: x in Remove(fl, k) <==> x != fl[k] && x in fl
  {
    var r := Remove(fl, k);
    forall x | x != fl[k] && x in fl ensures x in r {
      var i :| 0 <= i < |fl| && fl[i] == x;
      assert i < k ==> r[i] == x;
      assert i > k ==> r[i - 1] == x;
    }
    forall x | x in r ensures x != fl[k] && x in fl {
      var i :| 0 <= i < |r| && r[i] == x;
      assert x == fl[if i < k then i else i + 1];
    }
  }

  lemma UpElements(h: Heap, m: nat, bp: int)
    requires Spot(h, m, bp)
    ensures var q := h.ptr[h.fl[m]];
            forall x :: x in Up(h, m, bp).fl <==> x == bp || (x in h.fl && (bp + h.size[bp] == q ==> x != q))
  {
    hide Ring, Laid, Heap.Covered, Heap.Listed, Insert, Remove;
    SpotSorted(h, m, bp);
    if bp + h.size[bp] == h.ptr[h.fl[m]] {
      RemoveElements(h.fl, m + 1);
      InsertElements(Remove(h.fl, m + 1), m, bp);
    } else {
      InsertElements(h.fl, m, bp);
    }
  }

  lemma UpListed(h: Heap, m: nat, bp: int)
    requires Spot(h, m, bp)
    ensures Up(h, m, bp).Listed()
  {
    hide Ring, Laid, Heap.Covered, Insert, Remove;
    UpElements(h, m, bp);
    ListedIff(h);
    ListedIff(Up(h, m, bp));
  }

  lemma ListedIff(h: Heap)
    ensures h.Listed() <==> forall x :: x in h.fl <==> x in h.blocks && h.blocks[x].free
  {
    if forall x :: x in h.fl <==> x in h.blocks && h.blocks[x].free {
      forall i | 0 <= i < |h.fl| ensures h.fl[i] in h.blocks && h.blocks[h.fl[i]].free {
        assert h.fl[i] in h.fl;
      }
    }
  }

  lemma SpotSorted(h: Heap, m: nat, bp: int)
    requires Spot(h, m, bp)
    ensures Sorted(h.fl)
  {
  }

  lemma UpHeaded(h: Heap, m: nat, bp: int)
    requires Spot(h, m, bp)
    ensures Up(h, m, bp).Headed() && Up(h, m, bp).Covered()
  {
    hide Ring, Heap.Listed;
    var q := h.ptr[h.fl[m]];
    JoinUpUnits(h.blocks, bp, q);
  }

  /** `Ok`, except that entries `m` and `m + 1` may touch. */
  ghost predicate OkBut(h: Heap, m: nat) {
    && m + 1 < |h.fl|
    && Ring(h.ptr, h.fl, h.base) && h.Listed() && h.Headed() && h.Covered()
    && LaidBut(h.blocks, h.fl[m], h.fl[m + 1])
  }

  lemma UpOk(h: Heap, m: nat, bp: int)
    requires Spot(h, m, bp)
    ensures OkBut(Up(h, m, bp), m)
    ensures Up(h, m, bp).fl[m] == h.fl[m] && Up(h, m, bp).fl[m + 1] == bp
  {
    UpRing(h, m, bp);
    UpListed(h, m, bp);
    UpHeaded(h, m, bp);
    JoinUpLaid(h.blocks, h.base, h.fl[m], bp, h.ptr[h.fl[m]]);
  }

  lemma DownOk(h: Heap, m: nat)
    requires OkBut(h, m)
    ensures Down(h, m).Ok()
  {
    var p, bp := h.fl[m], h.fl[m + 1];
    JoinDownLaid(h.blocks, p, bp);
    if p + h.size[p] == bp {
      assert Link(h.ptr, h.fl, m + 1);
      RingRemove(h.ptr, h.fl, h.base, m + 1);
      DownListed(h, m);
    }
  }

  lemma DownListed(h: Heap, m: nat)
    requires OkBut(h, m)
    ensures Down(h, m).Listed() && Down(h, m).Headed()
  {
    hide Ring, Heap.Covered, Remove, Heap.Listed, LaidBut;
    SortedBut(h, m);
    RemoveElements(h.fl, m + 1);
    ListedIff(h);
    ListedIff(Down(h, m));
  }

  lemma SortedBut(h: Heap, m: nat)
    requires OkBut(h, m)
    ensures Sorted(h.fl)
  {
  }

  lemma FreedLive(h: Heap, m: nat, bp: int)
    requires Spot(h, m, bp) && OkBut(Up(h, m, bp), m)
    requires Up(h, m, bp).fl[m] == h.fl[m] && Up(h, m, bp).fl[m + 1] == bp
    ensures Down(Up(h, m, bp), m).Live() == h.Live() - {bp}
  {
    hide Ring, Laid, Heap.Covered, Heap.Listed, LiveOf, JoinDown;
    LiveJoinUp(h.blocks, bp, h.ptr[h.fl[m]]);
    LiveJoinDown(Up(h, m, bp).blocks, h.fl[m], bp);
    if h.fl[m] + Up(h, m, bp).size[h.fl[m]] != bp {
      NoJoinDown(Up(h, m, bp).blocks, h.fl[m], bp);
    }
  }

  lemma NoJoinDown(blocks: map<int, Blk>, p: int, bp: int)
    requires p in blocks && bp in blocks && p + blocks[p].n != bp
    ensures JoinDown(blocks, p, bp) == blocks
  {
  }

  // ----- malloc: taking from the list, and growing the arena -----

  /** Entry `k` leaves the list whole. */
  function TookWhole(h: Heap, k: nat): Heap
    requires 0 < k < |h.fl| && h.fl[k] in h.ptr && h.fl[k] in h.blocks
  {
    h.(ptr := h.ptr[h.fl[k - 1] := h.ptr[h.fl[k]]],
       fl := Remove(h.fl, k),
       blocks := Taken(h.blocks, h.fl[k]))
  }

  lemma TookWholeListed(h: Heap, k: nat)
    requires h.Ok() && 0 < k < |h.fl| && h.fl[k] in h.ptr
    ensures TookWhole(h, k).Listed()
  {
    hide Laid, Heap.Covered;
    RemoveElements(h.fl, k);
    var r := TookWhole(h, k);
    forall i | 0 <= i < |r.fl| ensures r.fl[i] in r.blocks && r.blocks[r.fl[i]].free {
      assert r.fl[i] in r.fl;
    }
  }

  lemma TookWholeHeaded(h: Heap, k: nat)
    requires h.Ok() && 0 < k < |h.fl| && h.fl[k] in h.ptr
    ensures TookWhole(h, k).Headed() && TookWhole(h, k).Covered()
  {
    hide Laid;
    TakenUnits(h.blocks, h.fl[k]);
  }

  lemma TookWholeOk(h: Heap, k: nat)
    requires h.Ok() && 0 < k < |h.fl| && Link(h.ptr, h.fl, k)
    ensures TookWhole(h, k).Ok()
    ensures TookWhole(h, k).Live() == h.Live()[h.fl[k] := h.size[h.fl[k]]]
  {
    hide Laid, Heap.Covered, LiveOf;
    RingRemove(h.ptr, h.fl, h.base, k);
    TookWholeListed(h, k);
    TookWholeHeaded(h, k);
    TakenLaid(h.blocks, h.fl[k]);
    LiveTaken(h.blocks, h.fl[k]);
  }

  /** Entry `k` keeps its lower part; the upper `n` units become a live block. */
  function TookPart(h: Heap, k: nat, n: nat): Heap
    requires k < |h.fl| && h.fl[k] in h.blocks && h.fl[k] in h.size
    requires n < h.size[h.fl[k]] == h.blocks[h.fl[k]].n
  {
    var p := h.fl[k];
    h.(size := h.size[p := h.size[p] - n][p + h.size[p] - n := n],
       blocks := Split(h.blocks, p, n))
  }

  lemma TookPartListed(h: Heap, k: nat, n: nat)
    requires h.Ok() && 0 < k < |h.fl| && 0 < n < h.size[h.fl[k]]
    requires h.fl[k] + h.size[h.fl[k]] - n !in h.blocks
    ensures TookPart(h, k, n).Listed() && TookPart(h, k, n).Headed()
  {
    hide Laid, Heap.Covered;
  }

  lemma TookPartCovered(h: Heap, k: nat, n: nat)
    requires h.Ok() && 0 < k < |h.fl| && 0 < n < h.size[h.fl[k]]
    requires h.fl[k] + h.size[h.fl[k]] - n !in h.blocks
    ensures TookPart(h, k, n).Covered()
  {
    hide Laid, Ring;
    SplitUnits(h.blocks, h.fl[k], n);
    var r := TookPart(h, k, n);
    forall a, u | a in r.blocks && a <= u < a + r.blocks[a].n ensures u in r.arena {
      var c := if a in h.blocks && a != h.fl[k] then a else h.fl[k];
      assert c in h.blocks && c <= u < c + h.blocks[c].n;
    }
  }

  lemma TookPartOk(h: Heap, k: nat, n: nat)
    requires h.Ok() && 0 < k < |h.fl| && 0 < n < h.size[h.fl[k]]
    ensures TookPart(h, k, n).Ok()
    ensures h.fl[k] + h.size[h.fl[k]] - n !in h.blocks
    ensures TookPart(h, k, n).Live() == h.Live()[h.fl[k] + h.size[h.fl[k]] - n := n]
  {
    hide Laid, Heap.Covered, LiveOf, Split;
    var p := h.fl[k];
    SplitFresh(h.blocks, p, n);
    TookPartListed(h, k, n);
    TookPartCovered(h, k, n);
    SplitLaid(h.blocks, p, n);
    LiveSplit(h.blocks, p, n);
  }

  function Span(a: int, n: nat): (s: set<int>)
    ensures |s| == n && forall u :: u in s <==> a <= u < a + n
  {
    if n == 0 then {} else Span(a, n - 1) + {a + n - 1}
  }

  /** A fresh region from the system enters the arena as one live block. */
  function Grown(h: Heap, hp: int, n: nat): Heap {
    h.(size := h.size[hp := n], blocks := h.blocks[hp := Blk(n, false)], arena := h.arena + Span(hp, n))
  }

  predicate FreshRegion(h: Heap, hp: int, n: nat) {
    h.base < hp && n > 0 && Span(hp, n) !! h.arena
  }

  lemma GrownLaid(h: Heap, hp: int, n: nat)
    requires h.Ok() && FreshRegion(h, hp, n)
    ensures hp !in h.blocks && Laid(Grown(h, hp, n).blocks)
  {
    hide Ring, Heap.Listed, Heap.Covered, Heap.Headed, FreshRegion;
    forall a | a in h.blocks ensures ApartFrom(h.blocks, a, hp, n) {
      GrownApart(h, hp, n, a);
    }
  }

  predicate ApartFrom(blocks: map<int, Blk>, a: int, hp: int, n: nat)
    requires a in blocks
  {
    a != hp && (a < hp ==> a + blocks[a].n <= hp) && (hp < a ==> hp + n <= a)
  }

  lemma GrownApart(h: Heap, hp: int, n: nat, a: int)
    requires h.Ok() && FreshRegion(h, hp, n) && a in h.blocks
    ensures ApartFrom(h.blocks, a, hp, n)
  {
    hide Ring, Laid, Heap.Listed;
    assert a != h.base ==> a in h.arena;
    assert a < hp && a + h.blocks[a].n > hp ==> hp in h.arena;
    assert hp in Span(hp, n);
    assert hp <= a < hp + n ==> a in Span(hp, n);
  }

  lemma GrownCovered(h: Heap, hp: int, n: nat)
    requires h.Ok() && FreshRegion(h, hp, n) && hp !in h.blocks
    ensures Grown(h, hp, n).Covered()
  {
    hide Laid, Ring, Heap.Listed, Heap.Headed;
    UnitsSet(h.blocks, hp, Blk(n, false));
    assert h.blocks - {hp} == h.blocks;
  }

  lemma GrownOk(h: Heap, hp: int, n: nat)
    requires h.Ok() && FreshRegion(h, hp, n)
    ensures Grown(h, hp, n).Ok() && hp !in h.blocks
    ensures Grown(h, hp, n).Live() == h.Live()[hp := n]
  {
    hide Laid, Ring, Heap.Covered, LiveOf;
    GrownLaid(h, hp, n);
    GrownCovered(h, hp, n);
    LiveAdd(h.blocks, hp, n);
  }

  // ----- the allocator in place -----

  /** Bytes per header; a request is rounded up to units and pays one for the header. */
  const HEADER: nat := 16

  function UnitsFor(nbytes: nat): (n: nat)
    ensures n > 0 && (n - 1) * HEADER >= nbytes > (n - 2) * HEADER
  {
    (nbytes + HEADER - 1) / HEADER + 1
  }

  /** How far ahead on a cycle of `n` entry `m` is from entry `k`. */
  function Ahead(k: nat, m: nat, n: nat): nat
    requires k < n && m < n
  {
    if k <= m then m - k else m + n - k
  }

  class Allocator {
    const base: int
    /** The null pointer before the first request. */
    var freep: Option<int>
    var ptr: map<int, int>
    var size: map<int, nat>
    ghost var fl: seq<int>
    ghost var blocks: map<int, Blk>
    ghost var arena: set<int>

    ghost function H(): Heap
      reads this
    {
      Heap(base, ptr, size, fl, blocks, arena)
    }

    ghost predicate Valid()
      reads this
    {
      match freep
      case None => ptr == map[] && size == map[] && fl == [base] && blocks == map[base := Blk(0, true)] && arena == {}
      case Some(f) => H().Ok() && f in fl
    }

    constructor (base: int)
      ensures Valid() && this.base == base && freep == None && H().Live() == map[]
    {
      this.base := base;
      freep, ptr, size, fl, blocks, arena := None, map[], map[], [base], map[base := Blk(0, true)], {};
    }

    /** The search of `free`: it always ends, at the entry the block belongs behind. */
    method FindSpot(bp: int) returns (p: int, ghost m: nat)
      requires Valid() && freep.Some? && bp in blocks && !blocks[bp].free
      ensures Spot(H(), m, bp) && p == fl[m] && bp in size
      ensures p in ptr && (p < bp < ptr[p] || (ptr[p] <= p && (p < bp || bp < ptr[p])))
    {
      m := FindBetween(H(), bp);
      SpotFound(H(), m, bp);
      p := freep.value;
      ghost var k :| 0 <= k < |fl| && fl[k] == p;
      assert Link(ptr, fl, k);
      while !(bp > p && bp < ptr[p])
        invariant 0 <= k < |fl| && fl[k] == p && Link(ptr, fl, k)
        decreases Ahead(k, m, |fl|)
      {
        if p >= ptr[p] && (bp > p || bp < ptr[p]) {
          break;
        }
        assert k != m;
        k := Wrap(k + 1, |fl|);
        p := ptr[p];
        assert Link(ptr, fl, k);
      }
      assert k == m;
    }

    /** The pointer surgery of `free`: join upwards, then downwards. */
    method Splice(bp: int, p: int, ghost m: nat)
      requires Spot(H(), m, bp) && p == fl[m]
      requires OkBut(Up(H(), m, bp), m) && Up(H(), m, bp).fl[m] == p && Up(H(), m, bp).fl[m + 1] == bp
      modifies `ptr, `size
      ensures ptr == Down(Up(old(H()), m, bp), m).ptr
      ensures size == Down(Up(old(H()), m, bp), m).size
    {
      hide Ring, Laid, LaidBut, Heap.Covered, Heap.Listed, JoinUp, JoinDown, Insert, Remove;
      if bp + size[bp] == ptr[p] {
        size := size[bp := size[bp] + size[ptr[p]]];
        ptr := ptr[bp := ptr[ptr[p]]];
      } else {
        ptr := ptr[bp := ptr[p]];
      }
      if p + size[p] == bp {
        size := size[p := size[p] + size[bp]];
        ptr := ptr[p := ptr[bp]];
      } else {
        ptr := ptr[p := bp];
      }
    }

    /** Return a block.  Nothing else that is live changes. */
    method Free(ap: int)
      requires Valid() && freep.Some? && ap - 1 in blocks && !blocks[ap - 1].free
      modifies this
      ensures Valid() && freep.Some? && arena == old(arena)
      ensures H().Live() == old(H().Live()) - {ap - 1}
      ensures ap - 1 in old(size) && HasRoom(H(), old(size)[ap - 1])
      ensures Untouched(old(H()), H(), H().Live())
    {
      hide Heap.Ok, HasRoom, Spot, OkBut, Heap.Live, Up, Down, Untouched;
      var bp := ap - 1;
      var p;
      ghost var m;
      p, m := FindSpot(bp);
      FreedOk(H(), m, bp);
      FreedUntouched(H(), m, bp);
      ghost var h2 := Down(Up(H(), m, bp), m);
      Splice(bp, p, m);
      fl, blocks := h2.fl, h2.blocks;
      freep := Some(p);
      assert H() == h2;
    }

    /** Ask the system for a region and free it into the list; `region` is what `sbrk` gives. */
    method Morecore(nu: nat, region: Option<int>) returns (ok: bool)
      requires Valid() && freep.Some? && nu > 0
      requires region.Some? ==> FreshRegion(H(), region.value, Max(nu, 4096))
      modifies this
      ensures Valid() && freep.Some? && H().Live() == old(H().Live())
      ensures ok <==> region.Some?
      ensures ok ==> arena == old(arena) + Span(region.value, Max(nu, 4096)) && HasRoom(H(), nu)
      ensures !ok ==> H() == old(H()) && freep == old(freep)
      ensures Untouched(old(H()), H(), H().Live())
    {
      hide Heap.Ok, Heap.Live, Untouched;
      var n := if nu < 4096 then 4096 else nu;
      UntouchedRefl(H(), H().Live());
      if region.None? {
        return false;
      }
      var hp := region.value;
      ghost var h := H();
      GrownOk(h, hp, n);
      size := size[hp := n];
      blocks, arena := blocks[hp := Blk(n, false)], arena + Span(hp, n);
      assert H() == Grown(h, hp, n);
      NotLive(h, hp, n);
      GrownUntouched(h, hp, n);
      Free(hp + 1);
      UntouchedTrans(h, Grown(h, hp, n), H(), h.Live());
      ok := true;
    }

    method TakeWhole(prevp: int, p: int, ghost k: nat)
      requires H().Ok() && 0 < k < |fl| && p == fl[k] && prevp == fl[k - 1]
      modifies this
      ensures Valid() && freep.Some? && arena == old(arena)
      ensures p in old(size) && H().Live() == old(H().Live())[p := old(size)[p]]
      ensures Untouched(old(H()), H(), old(H().Live()))
    {
      hide Laid, Heap.Covered, Heap.Live, Untouched;
      ghost var h := H();
      assert Link(ptr, fl, k);
      TookWholeOk(h, k);
      TookWholeUntouched(h, k);
      ptr := ptr[prevp := ptr[p]];
      fl, blocks := Remove(fl, k), Taken(blocks, p);
      assert H() == TookWhole(h, k);
      assert fl[k - 1] == prevp;
      freep := Some(prevp);
    }

    method TakePart(prevp: int, p: int, nunits: nat, ghost k: nat) returns (bp: int)
      requires H().Ok() && 0 < k < |fl| && p == fl[k] && prevp == fl[k - 1] && 0 < nunits < size[p]
      modifies this
      ensures Valid() && freep.Some? && arena == old(arena)
      ensures bp !in old(blocks) && H().Live() == old(H().Live())[bp := nunits]
      ensures Untouched(old(H()), H(), old(H().Live()))
    {
      hide Laid, Heap.Covered, Heap.Live, Untouched;
      ghost var h := H();
      TookPartOk(h, k, nunits);
      TookPartUntouched(h, k, nunits);
      blocks := Split(blocks, p, nunits);
      size := size[p := size[p] - nunits];
      bp := p + size[p];
      size := size[bp := nunits];
      assert H() == TookPart(h, k, nunits);
      freep := Some(prevp);
    }

    /** Take `nunits` from entry `k`, whose predecessor is `prevp`. */
    method Take(prevp: int, p: int, nunits: nat, ghost k: nat) returns (bp: int)
      requires H().Ok() && 0 < k < |fl| && p == fl[k] && prevp == fl[k - 1] && 0 < nunits <= size[p]
      modifies this
      ensures Valid() && freep.Some? && arena == old(arena)
      ensures bp !in old(H().Live()) && H().Live() == old(H().Live())[bp := nunits]
      ensures Untouched(old(H()), H(), old(H().Live()))
    {
      hide Laid, Heap.Covered, Heap.Live, Ring, Untouched;
      ghost var h := H();
      FreeNotLive(h, k);
      if size[p] == nunits {
        TakeWhole(prevp, p, k);
        bp := p;
      } else {
        bp := TakePart(prevp, p, nunits, k);
        NotLive(h, bp, nunits);
      }
    }

    /** The first request sets up an empty list. */
    method Init()
      requires Valid()
      modifies this
      ensures Valid() && freep.Some? && H().Live() == old(H().Live()) && arena == old(arena) && blocks == old(blocks)
      ensures Untouched(old(H()), H(), H().Live())
      ensures (forall n: nat :: n > 0 && HasRoom(old(H()), n) ==> HasRoom(H(), n))
    {
      if freep.None? {
        ptr := ptr[base := base];
        size := size[base := 0];
        freep := Some(base);
        UnitsSet(map[], base, Blk(0, true));
        assert map[][base := Blk(0, true)] == blocks;
        assert Link(ptr, fl, 0);
      }
    }

    /**
     Allocate.  The block returned was not live, is `UnitsFor(nbytes)` units long, and
     everything live before stays live and untouched; together with `Valid` it overlaps
     nothing.  The search ends, also after the list has grown; it fails only when the
     system refuses and no free block is large enough.
     */
    method Malloc(nbytes: nat, region: Option<int>) returns (r: Option<int>)
      requires Valid()
      requires region.Some? ==> FreshRegion(H(), region.value, Max(UnitsFor(nbytes), 4096))
      modifies this
      ensures Valid()
      ensures r.Some? ==> r.value - 1 !in old(H().Live())
                          && H().Live() == old(H().Live())[r.value - 1 := UnitsFor(nbytes)]
      ensures r.None? ==> region.None? && H().Live() == old(H().Live()) && !HasRoom(H(), UnitsFor(nbytes))
      ensures arena == old(arena)
              || (region.Some? && arena == old(arena) + Span(region.value, Max(UnitsFor(nbytes), 4096))
                  && !HasRoom(old(H()), UnitsFor(nbytes)))
      ensures Untouched(old(H()), H(), old(H().Live()))
    {
      hide Heap.Ok, Heap.Live, HasRoom, Ahead, Max, Scanned, UnitsFor, Span, Untouched;
      var nunits := UnitsFor(nbytes);
      Init();
      var prevp := freep.value;
      ghost var f := ListIndex(fl, prevp);
      NextEntry(H(), f);
      var p := ptr[prevp];
      ghost var k := Wrap(f + 1, |fl|);
      ghost var grown := false;
      ScannedNone(H(), f, nunits);
      while true
        invariant H().Ok() && 0 <= f < |fl| && 0 <= k < |fl| && freep == Some(fl[f])
        invariant Scanned(H(), f, k, nunits)
        invariant p == fl[k] && prevp == fl[if k == 0 then |fl| - 1 else k - 1]
        invariant H().Live() == old(H().Live())
        invariant !grown ==> arena == old(arena) && (HasRoom(old(H()), nunits) ==> HasRoom(H(), nunits))
        invariant Untouched(old(H()), H(), old(H().Live()))
        invariant grown ==> !HasRoom(old(H()), nunits)
        invariant grown ==> region.Some? && arena == old(arena) + Span(region.value, Max(nunits, 4096))
        invariant grown ==> HasRoom(H(), nunits)
        decreases !grown, Ahead(k, f, |fl|)
      {
        NextEntry(H(), k);
        if size[p] >= nunits {
          BaseTooSmall(H(), k, nunits);
          ghost var was := H();
          var bp := Take(prevp, p, nunits, k);
          UntouchedTrans(old(H()), was, H(), old(H().Live()));
          return Some(bp + 1);
        }
        if p == freep.value {
          SameEntry(H(), k, f);
          ScannedAll(H(), f, nunits);
          ghost var was := H();
          var ok := Morecore(nunits, region);
          UntouchedTrans(old(H()), was, H(), old(H().Live()));
          if !ok {
            return None;
          }
          grown := true;
          p := freep.value;
          f := ListIndex(fl, p);
          k := f;
          ScannedNone(H(), f, nunits);
        } else {
          ScannedOne(H(), f, k, nunits);
        }
        NextEntry(H(), k);
        prevp := p;
        p := ptr[p];
        k := Wrap(k + 1, |fl|);
      }
    }
  }

  function Max(a: nat, b: nat): nat {
    if a < b then b else a
  }

  ghost function ListIndex(fl: seq<int>, p: int): (k: nat)
    requires p in fl
    ensures k < |fl| && fl[k] == p
  {
    var k :| 0 <= k < |fl| && fl[k] == p;
    k
  }

  lemma NextEntry(h: Heap, k: nat)
    requires h.Ok() && k < |h.fl|
    ensures h.fl[k] in h.ptr && h.ptr[h.fl[k]] == h.fl[Wrap(k + 1, |h.fl|)] && h.fl[k] in h.size
  {
    assert Link(h.ptr, h.fl, k);
  }

  lemma BaseTooSmall(h: Heap, k: nat, n: nat)
    requires h.Ok() && k < |h.fl| && 0 < n && h.fl[k] in h.size && h.size[h.fl[k]] >= n
    ensures k > 0
  {
  }

  lemma SameEntry(h: Heap, k: nat, f: nat)
    requires h.Ok() && k < |h.fl| && f < |h.fl| && h.fl[k] == h.fl[f]
    ensures k == f
  {
  }

  /** The entries from the one behind `f` up to `k` are all too small. */
  predicate Scanned(h: Heap, f: nat, k: nat, n: nat) {
    && f < |h.fl| && k < |h.fl|
    && forall i :: 0 <= i < |h.fl| && h.fl[i] in h.size
                   && Ahead(Wrap(f + 1, |h.fl|), i, |h.fl|) < Ahead(Wrap(f + 1, |h.fl|), k, |h.fl|)
                   ==> h.size[h.fl[i]] < n
  }

  lemma ScannedNone(h: Heap, f: nat, n: nat)
    requires f < |h.fl|
    ensures Scanned(h, f, Wrap(f + 1, |h.fl|), n)
  {
  }

  /** One step along the cycle: one more entry scanned, one fewer ahead. */
  lemma ScannedOne(h: Heap, f: nat, k: nat, n: nat)
    requires Scanned(h, f, k, n) && k != f && h.fl[k] in h.size && h.size[h.fl[k]] < n
    ensures Scanned(h, f, Wrap(k + 1, |h.fl|), n)
    ensures Ahead(Wrap(k + 1, |h.fl|), f, |h.fl|) < Ahead(k, f, |h.fl|)
  {
    var m := |h.fl|;
    var s := Wrap(f + 1, m);
    forall i | 0 <= i < m && h.fl[i] in h.size && Ahead(s, i, m) < Ahead(s, Wrap(k + 1, m), m)
      ensures h.size[h.fl[i]] < n
    {
      assert i == k || Ahead(s, i, m) < Ahead(s, k, m);
    }
  }

  /** A full turn over entries that are all too small leaves no room anywhere. */
  lemma ScannedAll(h: Heap, f: nat, n: nat)
    requires Scanned(h, f, f, n) && h.fl[f] in h.size && h.size[h.fl[f]] < n
    ensures !HasRoom(h, n)
  {
    forall i | 0 <= i < |h.fl| && h.fl[i] in h.size ensures h.size[h.fl[i]] < n {
      assert i != f ==> Ahead(Wrap(f + 1, |h.fl|), i, |h.fl|) < Ahead(Wrap(f + 1, |h.fl|), f, |h.fl|);
    }
  }

  lemma FreeNotLive(h: Heap, k: nat)
    requires h.Ok() && k < |h.fl|
    ensures h.fl[k] !in h.Live()
  {
  }

  lemma NotLive(h: Heap, a: int, n: nat)
    requires a !in h.blocks
    ensures a !in h.Live() && h.Live()[a := n] - {a} == h.Live()
  {
  }

  /** Some block on the list has at least `n` units. */
  predicate HasRoom(h: Heap, n: nat) {
    exists i :: 0 <= i < |h.fl| && h.fl[i] in h.size && h.size[h.fl[i]] >= n
  }

  /** The freed units are on the list, in their own block or joined to another. */
  lemma FreedRoom(h: Heap, m: nat, bp: int)
    requires Spot(h, m, bp) && OkBut(Up(h, m, bp), m)
    requires Up(h, m, bp).fl[m] == h.fl[m] && Up(h, m, bp).fl[m + 1] == bp
    ensures HasRoom(Down(Up(h, m, bp), m), h.size[bp])
  {
    hide Laid, LaidBut, Heap.Covered, Heap.Listed, JoinUp, JoinDown;
    var u := Up(h, m, bp);
    var r := Down(u, m);
    if h.fl[m] + u.size[h.fl[m]] == bp {
      assert r.fl[m] == h.fl[m];
    } else {
      assert r.fl[m + 1] == bp;
    }
  }

  lemma FreedOk(h: Heap, m: nat, bp: int)
    requires Spot(h, m, bp)
    ensures OkBut(Up(h, m, bp), m) && Up(h, m, bp).fl[m] == h.fl[m] && Up(h, m, bp).fl[m + 1] == bp
    ensures var r := Down(Up(h, m, bp), m);
            && r.Ok() && r.Live() == h.Live() - {bp}
            && r.base == h.base && r.arena == h.arena && h.fl[m] in r.fl
            && HasRoom(r, h.size[bp])
  {
    hide Laid, LaidBut, Heap.Covered, Heap.Listed, Heap.Headed, Neighbours, JoinUp, JoinDown, Heap.Live;
    UpOk(h, m, bp);
    var u := Up(h, m, bp);
    DownOk(u, m);
    FreedLive(h, m, bp);
    FreedRoom(h, m, bp);
    assert Down(u, m).fl[m] == h.fl[m];
  }
}
