/**
 The LRU order of the buffer cache: a circular doubly linked list threaded through
 an array of buffer control records, with `tail` just before `head`.
 */
module Lru {
  import opened Collections

  datatype BufCtrl = BufCtrl(dev: nat, blockno: nat, prev: nat, next: nat, refcnt: nat, index: nat)

  /** `order` lists every slot once, from most to least recently released. */
  predicate IsOrder(order: seq<nat>, n: nat) {
    && |order| == n
    && (forall i :: 0 <= i < n ==> order[i] < n)
    && (forall i, j :: 0 <= i < j < n ==> order[i] != order[j])
  }

  /** Slot number `i` of the order and the one after it point at each other. */
  predicate Linked(c: seq<BufCtrl>, order: seq<nat>, i: nat)
    requires IsOrder(order, |c|) && i < |c|
  {
    var j := Wrap(i + 1, |c|);
    c[order[i]].next == order[j] && c[order[j]].prev == order[i]
  }

  /** The links are one cycle through all slots in `order`, with tail before head. */
  ghost predicate Ring(c: seq<BufCtrl>, head: nat, tail: nat, order: seq<nat>) {
    && |c| > 0
    && IsOrder(order, |c|)
    && head == order[0] && tail == order[|c| - 1]
    && (forall i :: 0 <= i < |c| ==> Linked(c, order, i))
    && (forall i :: 0 <= i < |c| ==> c[i].index == i)
  }

  /** Among unreferenced slots, the one released later comes first. */
  ghost predicate Recency(c: seq<BufCtrl>, order: seq<nat>, stamp: seq<int>, clock: int) {
    && |stamp| == |c| && IsOrder(order, |c|)
    && (forall i :: 0 <= i < |c| ==> stamp[i] < clock)
    && (forall i, j :: 0 <= i < j < |c| && c[order[i]].refcnt == 0 && c[order[j]].refcnt == 0
          ==> stamp[order[i]] > stamp[order[j]])
  }

  // ----- counting: an order reaches every slot -----

  function Below(n: nat): (s: set<nat>)
    ensures |s| == n && forall x: nat :: x in s <==> x < n
  {
    if n == 0 then {} else Below(n - 1) + {n - 1}
  }

  function Range(order: seq<nat>): (s: set<nat>)
    ensures forall x: nat :: x in s <==> x in order
  {
    set x | x in order
  }

  lemma {:induction false} RangeSize(order: seq<nat>)
    requires forall i, j :: 0 <= i < j < |order| ==> order[i] != order[j]
    ensures |Range(order)| == |order|
    decreases |order|
  {
    if order != [] {
      var init := order[..|order| - 1];
      RangeSize(init);
      assert Range(order) == Range(init) + {order[|order| - 1]};
    }
  }

  lemma SubsetSameSize(a: set<nat>, b: set<nat>)
    requires a <= b && |a| == |b|
    ensures a == b
  {
    if x :| x in b && x !in a {
      SubsetSize(a, b - {x});
    }
  }

  lemma OrderCovers(order: seq<nat>, n: nat, s: nat) returns (k: nat)
    requires IsOrder(order, n) && s < n
    ensures k < n && order[k] == s
  {
    RangeSize(order);
    SubsetSameSize(Range(order), Below(n));
    assert s in order;
    k :| 0 <= k < n && order[k] == s;
  }

  // ----- moving a slot to the front -----

  function MoveToFront(order: seq<nat>, k: nat): seq<nat>
    requires k < |order|
  {
    [order[k]] + order[..k] + order[k + 1..]
  }

  lemma MoveToFrontIsOrder(order: seq<nat>, n: nat, k: nat)
    requires IsOrder(order, n) && k < n
    ensures IsOrder(MoveToFront(order, k), n)
    ensures MoveToFront(order, k)[0] == order[k]
    ensures forall i :: 0 < i <= k ==> MoveToFront(order, k)[i] == order[i - 1]
    ensures forall i :: k < i < n ==> MoveToFront(order, k)[i] == order[i]
  {
  }

  /** The control records after unlinking `x` and linking it in before `head`. */
  function Relinked(c: seq<BufCtrl>, head: nat, tail: nat, x: nat): (r: seq<BufCtrl>)
    requires x < |c| && c[x].prev < |c| && c[x].next < |c| && head < |c| && tail < |c|
    ensures |r| == |c|
  {
    var t := if tail == x then c[x].prev else tail;
    var c1 := c[c[x].prev := c[c[x].prev].(next := c[x].next)];
    var c2 := c1[c[x].next := c1[c[x].next].(prev := c[x].prev)];
    var c3 := c2[x := c2[x].(prev := t, next := head)];
    var c4 := c3[head := c3[head].(prev := x)];
    c4[t := c4[t].(next := x)]
  }

  /** What relinking `x` does to the record of slot `s`. */
  predicate RelinkedAt(c: seq<BufCtrl>, r: seq<BufCtrl>, head: nat, tail: nat, x: nat, s: nat)
    requires |r| == |c| && x < |c| && s < |c|
  {
    var t := if tail == x then c[x].prev else tail;
    && r[s].dev == c[s].dev && r[s].blockno == c[s].blockno
    && r[s].refcnt == c[s].refcnt && r[s].index == c[s].index
    && r[s].next == (if s == t then x else if s == x then head
                     else if s == c[x].prev then c[x].next else c[s].next)
    && r[s].prev == (if s == head then x else if s == x then t
                     else if s == c[x].next then c[x].prev else c[s].prev)
  }

  lemma RelinkedFields(c: seq<BufCtrl>, r: seq<BufCtrl>, head: nat, tail: nat, x: nat)
    requires x < |c| && c[x].prev < |c| && c[x].next < |c| && head < |c| && tail < |c|
    requires head != x && (tail == x ==> c[x].prev != x)
    requires r == Relinked(c, head, tail, x)
    ensures |r| == |c| && forall s: nat :: s < |c| ==> RelinkedAt(c, r, head, tail, x, s)
  {
  }

  lemma RelinkedLinks(c: seq<BufCtrl>, r: seq<BufCtrl>, head: nat, tail: nat, order: seq<nat>, k: nat, i: nat)
    requires Ring(c, head, tail, order) && 0 < k < |c| == |r| && i < |c|
    requires IsOrder(MoveToFront(order, k), |c|)
    requires RelinkedAt(c, r, head, tail, order[k], MoveToFront(order, k)[i])
    requires RelinkedAt(c, r, head, tail, order[k], MoveToFront(order, k)[Wrap(i + 1, |c|)])
    ensures Linked(r, MoveToFront(order, k), i)
  {
    hide MoveToFront;
    MoveToFrontIsOrder(order, |c|, k);
    assert Linked(c, order, k) && Linked(c, order, k - 1);
    if i == 0 {
    } else if i < k {
      assert Linked(c, order, i - 1);
    } else if i == k {
    } else {
      assert Linked(c, order, i);
    }
  }

  /** Relinking a slot other than the head is a move to the front of the order. */
  lemma MovedRing(c: seq<BufCtrl>, r: seq<BufCtrl>, head: nat, tail: nat, order: seq<nat>, k: nat)
    requires Ring(c, head, tail, order) && 0 < k < |c| == |r|
    requires forall s: nat :: s < |c| ==> RelinkedAt(c, r, head, tail, order[k], s)
    ensures Ring(r, order[k], if tail == order[k] then order[k - 1] else tail, MoveToFront(order, k))
  {
    hide MoveToFront, Linked;
    MoveToFrontIsOrder(order, |c|, k);
    var o := MoveToFront(order, k);
    forall i | 0 <= i < |c| ensures Linked(r, o, i) {
      assert RelinkedAt(c, r, head, tail, order[k], o[i]);
      assert RelinkedAt(c, r, head, tail, order[k], o[Wrap(i + 1, |c|)]);
      RelinkedLinks(c, r, head, tail, order, k, i);
    }
    forall i | 0 <= i < |c| ensures r[i].index == i {
      assert RelinkedAt(c, r, head, tail, order[k], i);
    }
    Neighbours(c, head, tail, order, k);
  }

  /** The neighbours of a slot that is not the head. */
  lemma Neighbours(c: seq<BufCtrl>, head: nat, tail: nat, order: seq<nat>, k: nat)
    requires Ring(c, head, tail, order) && 0 < k < |c|
    ensures order[k] != head
    ensures c[order[k]].prev == order[k - 1] && c[order[k]].next == order[Wrap(k + 1, |c|)]
  {
    assert Linked(c, order, k) && Linked(c, order, k - 1);
  }

  predicate SameBlocks(c: seq<BufCtrl>, r: seq<BufCtrl>) {
    && |r| == |c|
    && forall s :: 0 <= s < |c| ==>
         r[s].dev == c[s].dev && r[s].blockno == c[s].blockno && r[s].refcnt == c[s].refcnt
  }

  function Dropped(c: seq<BufCtrl>, s: nat): (r: seq<BufCtrl>)
    requires s < |c| && c[s].refcnt > 0
  {
    c[s := c[s].(refcnt := c[s].refcnt - 1)]
  }

  /** The slots from place `p` of the order on are all referenced. */
  predicate ReferencedFrom(c: seq<BufCtrl>, order: seq<nat>, p: nat)
    requires IsOrder(order, |c|)
  {
    forall i :: p <= i < |c| ==> c[order[i]].refcnt != 0
  }

  lemma LeastRecent(c: seq<BufCtrl>, order: seq<nat>, stamp: seq<int>, clock: int, p: nat)
    requires Recency(c, order, stamp, clock) && p < |c| && ReferencedFrom(c, order, p + 1) && c[order[p]].refcnt == 0
    ensures |stamp| == |c|
    ensures forall s :: 0 <= s < |c| && s != order[p] && c[s].refcnt == 0 ==> stamp[order[p]] < stamp[s]
  {
    forall s | 0 <= s < |c| && s != order[p] && c[s].refcnt == 0 ensures stamp[order[p]] < stamp[s] {
      var k := OrderCovers(order, |c|, s);
    }
  }

  lemma NoneFree(c: seq<BufCtrl>, order: seq<nat>)
    requires IsOrder(order, |c|) && ReferencedFrom(c, order, 0)
    ensures forall s :: 0 <= s < |c| ==> c[s].refcnt != 0
  {
    forall s | 0 <= s < |c| ensures c[s].refcnt != 0 {
      var k := OrderCovers(order, |c|, s);
    }
  }

  /** Backwards from place `p`: the place before, or the tail from the head. */
  lemma StepBack(c: seq<BufCtrl>, head: nat, tail: nat, order: seq<nat>, p: nat)
    requires Ring(c, head, tail, order) && p < |c|
    ensures c[order[p]].prev == if p == 0 then tail else order[p - 1]
    ensures p > 0 ==> order[p - 1] != tail
  {
    assert Linked(c, order, if p == 0 then |c| - 1 else p - 1);
  }

  lemma HeadIsFirst(c: seq<BufCtrl>, head: nat, tail: nat, order: seq<nat>, k: nat)
    requires Ring(c, head, tail, order) && k < |c| && order[k] == head
    ensures k == 0 && MoveToFront(order, 0) == order
  {
    assert MoveToFront(order, 0) == order;
  }

  // ----- the list in place -----

  class BufLru {
    const inner: array<BufCtrl>
    var head: nat
    var tail: nat
    ghost var order: seq<nat>
    /** When each slot was last released to zero, on a clock that never repeats. */
    ghost var stamp: seq<int>
    ghost var clock: int

    ghost predicate Valid()
      reads this, inner
    {
      && Ring(inner[..], head, tail, order)
      && Recency(inner[..], order, stamp, clock)
    }

    constructor (n: nat)
      requires n > 0
      ensures Valid() && fresh(inner) && inner.Length == n
      ensures forall i :: 0 <= i < n ==> inner[i].dev == 0 && inner[i].blockno == 0 && inner[i].refcnt == 0
    {
      inner := new BufCtrl[n](i => BufCtrl(0, 0, if i == 0 then 0 else i - 1, i + 1, 0, i));
      head := 0;
      tail := n - 1;
      order := seq(n, i => i);
      stamp := seq(n, i => -i);
      clock := 1;
      new;
      inner[0] := inner[0].(prev := n - 1);
      inner[n - 1] := inner[n - 1].(next := 0);
      forall i | 0 <= i < n ensures Linked(inner[..], order, i) {
      }
    }

    /** Scan from the head; take a reference on the slot that holds the block. */
    method FindCached(dev: nat, blockno: nat) returns (found: bool, idx: nat)
      requires Valid()
      modifies inner
      ensures Valid()
      ensures found <==>
              exists s :: 0 <= s < inner.Length && old(inner[s].dev) == dev && old(inner[s].blockno) == blockno
      ensures found ==> idx < inner.Length && old(inner[idx].dev) == dev && old(inner[idx].blockno) == blockno
      ensures found ==> inner[..] == old(inner[..])[idx := old(inner[idx]).(refcnt := old(inner[idx].refcnt) + 1)]
      ensures !found ==> inner[..] == old(inner[..])
    {
      hide Recency;
      var b := head;
      ghost var p := 0;
      while true
        invariant 0 <= p < inner.Length && b == order[p]
        invariant forall i :: 0 <= i < p ==> inner[order[i]].dev != dev || inner[order[i]].blockno != blockno
        invariant inner[..] == old(inner[..])
        decreases inner.Length - p
      {
        if inner[b].dev == dev && inner[b].blockno == blockno {
          ReferenceKeepsValid(inner[..], head, tail, order, stamp, clock, b, dev, blockno);
          inner[b] := inner[b].(refcnt := inner[b].refcnt + 1);
          assert inner[..] == old(inner[..])[b := old(inner[b]).(refcnt := old(inner[b].refcnt) + 1)];
          return true, inner[b].index;
        }
        assert Linked(inner[..], order, p);
        b := inner[b].next;
        if b == head {
          forall s | 0 <= s < inner.Length
            ensures inner[s].dev != dev || inner[s].blockno != blockno
          {
            var k := OrderCovers(order, inner.Length, s);
          }
          return false, 0;
        }
        p := p + 1;
      }
    }

    /** Scan from the tail; rename and take the unreferenced slot released longest ago. */
    method Recycle(dev: nat, blockno: nat) returns (found: bool, idx: nat)
      requires Valid()
      modifies inner
      ensures Valid()
      ensures found <==> exists s :: 0 <= s < inner.Length && old(inner[s].refcnt) == 0
      ensures found ==> idx < inner.Length && old(inner[idx].refcnt) == 0
      ensures found ==> forall s :: 0 <= s < inner.Length && s != idx && old(inner[s].refcnt) == 0
                                ==> stamp[idx] < stamp[s]
      ensures found ==>
                inner[..] == old(inner[..])[idx := old(inner[idx]).(refcnt := 1, dev := dev, blockno := blockno)]
      ensures !found ==> inner[..] == old(inner[..])
    {
      hide Recency, Linked;
      ghost var c := inner[..];
      var b := tail;
      ghost var p := inner.Length - 1;
      while true
        invariant 0 <= p < inner.Length && b == order[p]
        invariant inner[..] == c && ReferencedFrom(c, order, p + 1)
        decreases p
      {
        if inner[b].refcnt == 0 {
          LeastRecent(c, order, stamp, clock, p);
          ReferenceKeepsValid(inner[..], head, tail, order, stamp, clock, b, dev, blockno);
          inner[b] := inner[b].(refcnt := inner[b].refcnt + 1, dev := dev, blockno := blockno);
          assert inner[..] == old(inner[..])[b := old(inner[b]).(refcnt := 1, dev := dev, blockno := blockno)];
          return true, inner[b].index;
        }
        StepBack(c, head, tail, order, p);
        b := inner[b].prev;
        if b == tail {
          NoneFree(c, order);
          return false, 0;
        }
        p := p - 1;
      }
    }

    /** The increment `pin` makes through the handle's pointer to the count. */
    method IncRef(index: nat)
      requires Valid() && index < inner.Length
      modifies inner
      ensures Valid()
      ensures inner[..] == old(inner[..])[index := old(inner[index]).(refcnt := old(inner[index].refcnt) + 1)]
    {
      ReferenceKeepsValid(inner[..], head, tail, order, stamp, clock, index, inner[index].dev, inner[index].blockno);
      inner[index] := inner[index].(refcnt := inner[index].refcnt + 1);
      assert inner[..] == old(inner[..])[index := old(inner[index]).(refcnt := old(inner[index].refcnt) + 1)];
    }

    /** The decrement `unpin` makes; `ok` is false where the source panics. */
    method DecRef(index: nat) returns (ok: bool)
      requires Valid() && index < inner.Length
      modifies inner
      ensures Valid()
      ensures ok <==> old(inner[index].refcnt) > 1
      ensures inner[..] == if ok then Dropped(old(inner[..]), index) else old(inner[..])
    {
      if inner[index].refcnt <= 1 {
        return false;
      }
      DropKeepsRing(inner[..], head, tail, order, index);
      DropKeepsRecency(inner[..], order, stamp, clock, index);
      inner[index] := inner[index].(refcnt := inner[index].refcnt - 1);
      assert inner[..] == Dropped(old(inner[..]), index);
      ok := true;
    }

    /** Unlink a slot and link it in again before the head. */
    method Relink(index: nat)
      requires index < inner.Length && head < inner.Length && tail < inner.Length
      requires inner[index].prev < inner.Length && inner[index].next < inner.Length
      modifies inner, `head, `tail
      ensures inner[..] == Relinked(old(inner[..]), old(head), old(tail), index)
      ensures head == index && tail == if old(tail) == index then old(inner[index].prev) else old(tail)
    {
      ghost var c := inner[..];
      if tail == index {
        tail := inner[index].prev;
      }
      var prev := inner[index].prev;
      var next := inner[index].next;
      inner[prev] := inner[prev].(next := next);
      inner[next] := inner[next].(prev := prev);
      inner[index] := inner[index].(prev := tail);
      inner[index] := inner[index].(next := head);
      inner[head] := inner[head].(prev := index);
      inner[tail] := inner[tail].(next := index);
      head := index;
    }

    /** Relinking keeps the ring: the slot has moved to the front of the order. */
    method MoveToHead(index: nat, ghost k: nat)
      requires Ring(inner[..], head, tail, order) && 0 < k < inner.Length && index == order[k]
      requires inner[index].prev == order[k - 1] && inner[index].next == order[Wrap(k + 1, inner.Length)]
      modifies inner, `head, `tail, `order
      ensures Ring(inner[..], head, tail, order)
      ensures head == index && order == MoveToFront(old(order), k)
      ensures SameBlocks(old(inner[..]), inner[..])
    {
      ghost var c := inner[..];
      Relink(index);
      RelinkedFields(c, inner[..], old(head), old(tail), index);
      MovedRing(c, inner[..], old(head), old(tail), order, k);
      order := MoveToFront(order, k);
      forall s | 0 <= s < inner.Length
        ensures inner[s].dev == c[s].dev && inner[s].blockno == c[s].blockno && inner[s].refcnt == c[s].refcnt
      {
        assert RelinkedAt(c, inner[..], old(head), old(tail), index, s);
      }
    }

    /** Drop a reference; a slot released to zero moves to the head. */
    method MoveIfNoRef(index: nat)
      requires Valid() && index < inner.Length && inner[index].refcnt > 0
      modifies this, inner
      ensures Valid()
      ensures SameBlocks(Dropped(old(inner[..]), index), inner[..])
      ensures old(inner[index].refcnt) == 1 ==> head == index && clock == old(clock) + 1
                                                && stamp == old(stamp)[index := old(clock)]
      ensures old(inner[index].refcnt) > 1 ==> order == old(order) && stamp == old(stamp) && clock == old(clock)
    {
      hide Recency, Linked, MoveToFront;
      ghost var k := OrderCovers(order, inner.Length, index);
      ghost var c0 := inner[..];
      ghost var c := Dropped(c0, index);
      DropKeepsRing(c0, head, tail, order, index);
      inner[index] := inner[index].(refcnt := inner[index].refcnt - 1);
      assert inner[..] == c;
      if inner[index].refcnt == 0 {
        ReleasedRecency(c0, c, order, stamp, clock, k);
        if index != head {
          Neighbours(c, head, tail, order, k);
          MoveToHead(index, k);
        } else {
          HeadIsFirst(c, head, tail, order, k);
        }
        stamp := stamp[index := clock];
        clock := clock + 1;
        SameRecency(c, inner[..], order, stamp, clock);
      } else {
        DropKeepsRecency(c0, order, stamp, clock, index);
      }
    }
  }

  lemma SameRecency(c: seq<BufCtrl>, r: seq<BufCtrl>, order: seq<nat>, stamp: seq<int>, clock: int)
    requires Recency(c, order, stamp, clock) && SameBlocks(c, r)
    ensures Recency(r, order, stamp, clock)
  {
  }

  lemma DropKeepsRecency(c: seq<BufCtrl>, order: seq<nat>, stamp: seq<int>, clock: int, s: nat)
    requires Recency(c, order, stamp, clock) && s < |c| && c[s].refcnt > 1
    ensures Recency(Dropped(c, s), order, stamp, clock)
  {
  }

  lemma DropKeepsRing(c: seq<BufCtrl>, head: nat, tail: nat, order: seq<nat>, s: nat)
    requires Ring(c, head, tail, order) && s < |c| && c[s].refcnt > 0
    ensures Ring(Dropped(c, s), head, tail, order)
  {
    var r := Dropped(c, s);
    forall i | 0 <= i < |c| ensures Linked(r, order, i) {
      assert Linked(c, order, i);
    }
  }

  /** Stamping the slot just released and moving it to the front keeps the recency order. */
  lemma ReleasedRecency(c: seq<BufCtrl>, r: seq<BufCtrl>, order: seq<nat>, stamp: seq<int>, clock: int, k: nat)
    requires Recency(c, order, stamp, clock) && k < |c| == |r|
    requires forall s :: 0 <= s < |c| && s != order[k] ==> r[s].refcnt == c[s].refcnt
    ensures |stamp| == |c| && order[k] < |c| && Recency(r, MoveToFront(order, k), stamp[order[k] := clock], clock + 1)
  {
    MoveToFrontIsOrder(order, |c|, k);
  }

  /** Taking a reference or renaming a slot disturbs neither the ring nor the recency order. */
  lemma ReferenceKeepsValid(c: seq<BufCtrl>, head: nat, tail: nat, order: seq<nat>, stamp: seq<int>, clock: int,
                            s: nat, dev: nat, blockno: nat)
    requires Ring(c, head, tail, order) && Recency(c, order, stamp, clock) && s < |c|
    ensures var r := c[s := c[s].(refcnt := c[s].refcnt + 1, dev := dev, blockno := blockno)];
            Ring(r, head, tail, order) && Recency(r, order, stamp, clock)
  {
    var r := c[s := c[s].(refcnt := c[s].refcnt + 1, dev := dev, blockno := blockno)];
    forall i | 0 <= i < |c| ensures Linked(r, order, i) {
      assert Linked(c, order, i);
    }
  }
}
