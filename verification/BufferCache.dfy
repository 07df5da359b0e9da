/**
 The buffer cache over one disk.  `pending` is the specification's overlay: block
 contents the cache holds that the disk does not.  What a reader sees is the disk
 overlaid with it, whatever is cached or recycled.
 */
module BufferCache {
  import opened LogFormat
  import opened Lru

  datatype BufInner = BufInner(valid: bool, data: Block)

  /** Contents of a block as any reader must see it. */
  function Current(disk: Disk, pending: map<nat, Block>, b: nat): Block {
    if b in pending then pending[b] else At(disk, b)
  }

  /** The cache as a value: real fields first, then the specification's. */
  datatype Snap = Snap(ctrl: seq<BufCtrl>, bufs: seq<BufInner>, dev: nat, disk: Disk,
                       live: seq<nat>, logged: set<nat>, pending: map<nat, Block>, slot: map<nat, nat>)
  {
    predicate Used(s: nat)
      requires s < |ctrl|
    {
      ctrl[s].dev == dev
    }

    /** Every slot is free or holds one block of this disk, and `slot` finds it. */
    predicate Indexed() {
      && dev != 0
      && |bufs| == |ctrl| == |live|
      && (forall s :: 0 <= s < |ctrl| ==>
            if Used(s) then ctrl[s].blockno in slot && slot[ctrl[s].blockno] == s
            else ctrl[s].dev == 0 && !bufs[s].valid && ctrl[s].refcnt == 0)
      && (forall b :: b in slot ==> slot[b] < |ctrl| && Used(slot[b]) && ctrl[slot[b]].blockno == b)
    }

    function Pin(s: nat): nat
      requires s < |ctrl|
    {
      if Used(s) && ctrl[s].blockno in logged then 1 else 0
    }

    /** A slot's count is its live handles plus one if its block is in the open transaction. */
    predicate Counted()
      requires Indexed()
    {
      && (forall s :: 0 <= s < |ctrl| ==> ctrl[s].refcnt == live[s] + Pin(s))
      && (forall b :: b in logged ==> b in slot)
    }

    /** Valid buffers hold current contents, and contents not on disk are held and referenced. */
    predicate Fresh()
      requires Indexed()
    {
      && (forall s :: 0 <= s < |ctrl| && bufs[s].valid ==> bufs[s].data == Current(disk, pending, ctrl[s].blockno))
      && (forall b :: b in pending ==> b in slot && bufs[slot[b]].valid && ctrl[slot[b]].refcnt > 0)
    }

    predicate Coherent() {
      Indexed() && Counted() && Fresh()
    }
  }

  // ----- what each operation keeps -----

  predicate AllReferenced(ctrl: seq<BufCtrl>) {
    forall s :: 0 <= s < |ctrl| ==> ctrl[s].refcnt > 0
  }

  lemma NotCached(c: Snap, b: nat)
    requires c.Coherent()
    requires forall s :: 0 <= s < |c.ctrl| ==> c.ctrl[s].dev != c.dev || c.ctrl[s].blockno != b
    ensures b !in c.slot
  {
  }

  lemma ValidIsCurrent(c: Snap, s: nat)
    requires c.Coherent() && s < |c.ctrl| && c.bufs[s].valid
    ensures c.bufs[s].data == Current(c.disk, c.pending, c.ctrl[s].blockno)
  {
  }

  lemma LiveIsReferenced(c: Snap, s: nat)
    requires c.Coherent() && s < |c.ctrl| && c.live[s] > 0
    ensures c.ctrl[s].refcnt > 0 && c.Used(s)
  {
  }

  lemma HitCoherent(c: Snap, s: nat)
    requires c.Coherent() && s < |c.ctrl| && c.Used(s)
    ensures c.(ctrl := c.ctrl[s := c.ctrl[s].(refcnt := c.ctrl[s].refcnt + 1)],
               live := c.live[s := c.live[s] + 1]).Coherent()
  {
  }

  /** The slot map after slot `s` is renamed to block `b`. */
  function Renamed(c: Snap, s: nat, b: nat): map<nat, nat>
    requires s < |c.ctrl|
  {
    (if c.Used(s) then c.slot - {c.ctrl[s].blockno} else c.slot)[b := s]
  }

  function Recycled(c: Snap, s: nat, b: nat): Snap
    requires s < |c.ctrl| == |c.bufs| == |c.live|
  {
    c.(ctrl := c.ctrl[s := c.ctrl[s].(refcnt := 1, dev := c.dev, blockno := b)],
       bufs := c.bufs[s := c.bufs[s].(valid := false)],
       live := c.live[s := 1],
       slot := Renamed(c, s, b))
  }

  /** Recycling an unreferenced slot loses nothing: its block is neither pinned nor pending. */
  lemma RecycleCoherent(c: Snap, s: nat, b: nat)
    requires c.Coherent() && s < |c.ctrl| && c.ctrl[s].refcnt == 0 && b !in c.slot
    ensures |c.ctrl| == |c.bufs| == |c.live| && Recycled(c, s, b).Coherent() && c.live[s] == 0
  {
    hide Snap.Fresh, Snap.Counted;
    Unclaimed(c, s);
    RecycledIndexed(c, s, b);
    RecycledCounted(c, s, b);
    RecycledFresh(c, s, b);
  }

  lemma Unclaimed(c: Snap, s: nat)
    requires c.Coherent() && s < |c.ctrl| && c.ctrl[s].refcnt == 0
    ensures c.live[s] == 0 && (c.Used(s) ==> c.ctrl[s].blockno !in c.logged && c.ctrl[s].blockno !in c.pending)
  {
    assert c.ctrl[s].refcnt == c.live[s] + c.Pin(s);
  }

  lemma RecycledIndexed(c: Snap, s: nat, b: nat)
    requires c.Indexed() && s < |c.ctrl| && b !in c.slot
    ensures Recycled(c, s, b).Indexed()
  {
  }

  lemma RecycledCounted(c: Snap, s: nat, b: nat)
    requires c.Indexed() && c.Counted() && s < |c.ctrl| && b !in c.slot && c.live[s] == 0
    requires (c.Used(s) ==> c.ctrl[s].blockno !in c.logged) && Recycled(c, s, b).Indexed()
    ensures Recycled(c, s, b).Counted()
  {
  }

  lemma RecycledFresh(c: Snap, s: nat, b: nat)
    requires c.Indexed() && c.Fresh() && s < |c.ctrl| && b !in c.slot
    requires (c.Used(s) ==> c.ctrl[s].blockno !in c.pending) && Recycled(c, s, b).Indexed()
    ensures Recycled(c, s, b).Fresh()
  {
  }

  lemma FillCoherent(c: Snap, s: nat)
    requires c.Coherent() && s < |c.ctrl| && c.Used(s) && !c.bufs[s].valid
    ensures At(c.disk, c.ctrl[s].blockno) == Current(c.disk, c.pending, c.ctrl[s].blockno)
    ensures c.(bufs := c.bufs[s := BufInner(true, At(c.disk, c.ctrl[s].blockno))]).Coherent()
  {
  }

  lemma SetCoherent(c: Snap, s: nat, d: Block)
    requires c.Coherent() && s < |c.ctrl| && c.live[s] > 0 && c.bufs[s].valid
    ensures c.(bufs := c.bufs[s := BufInner(true, d)], pending := c.pending[c.ctrl[s].blockno := d]).Coherent()
  {
  }

  lemma WriteCoherent(c: Snap, s: nat)
    requires c.Coherent() && s < |c.ctrl| && c.Used(s) && c.bufs[s].valid
    ensures var b := c.ctrl[s].blockno;
            c.(disk := c.disk[b := c.bufs[s].data], pending := c.pending - {b}).Coherent()
  {
  }

  lemma PinCoherent(c: Snap, s: nat)
    requires c.Coherent() && s < |c.ctrl| && c.Used(s) && c.ctrl[s].blockno !in c.logged
    ensures c.(ctrl := c.ctrl[s := c.ctrl[s].(refcnt := c.ctrl[s].refcnt + 1)],
               logged := c.logged + {c.ctrl[s].blockno}).Coherent()
  {
  }

  /** With a live handle on a logged block the count is at least two, so `unpin` never panics. */
  lemma UnpinCoherent(c: Snap, s: nat)
    requires c.Coherent() && s < |c.ctrl| && c.live[s] > 0 && c.Used(s) && c.ctrl[s].blockno in c.logged
    ensures c.ctrl[s].refcnt > 1
    ensures c.(ctrl := Dropped(c.ctrl, s), logged := c.logged - {c.ctrl[s].blockno}).Coherent()
  {
  }

  lemma ReleaseCoherent(c: Snap, s: nat, r: seq<BufCtrl>)
    requires c.Coherent() && s < |c.ctrl| && c.live[s] > 0 && c.ctrl[s].refcnt > 0
    requires c.ctrl[s].blockno in c.pending ==> c.ctrl[s].blockno in c.logged || c.live[s] > 1
    requires SameBlocks(Dropped(c.ctrl, s), r)
    ensures c.(ctrl := r, live := c.live[s := c.live[s] - 1]).Coherent()
  {
  }

  // ----- the cache in place -----

  class BCache {
    const dev: nat
    const lru: BufLru
    const bufs: array<BufInner>
    /** The disk, one atomic block read or write at a time. */
    var disk: Disk
    /** Live `Buf` handles on each slot. */
    ghost var live: seq<nat>
    /** Blocks of the open transaction; each is pinned once. */
    ghost var logged: set<nat>
    ghost var pending: map<nat, Block>
    ghost var slot: map<nat, nat>
    /** Every block write so far. */
    ghost var trace: seq<Write>

    ghost function Repr(): set<object>
      reads this
    {
      {this, lru, lru.inner, bufs}
    }

    ghost function Snapshot(): Snap
      reads this, lru, lru.inner, bufs
    {
      Snap(lru.inner[..], bufs[..], dev, disk, live, logged, pending, slot)
    }

    ghost predicate Valid()
      reads this, lru, lru.inner, bufs
    {
      && lru.Valid()
      && lru.inner.Length == bufs.Length == |live| && dev != 0
      && Snapshot().Coherent()
    }

    /** What a reader of block `b` must see. */
    ghost function Sees(b: nat): Block
      reads this
    {
      Current(disk, pending, b)
    }

    /** Slot `idx` is referenced by a live handle on block `b` and holds its contents. */
    ghost predicate Handle(idx: nat, b: nat)
      reads this, lru, lru.inner, bufs
    {
      && idx < lru.inner.Length == bufs.Length == |live| && live[idx] > 0
      && lru.inner[idx].dev == dev && lru.inner[idx].blockno == b
      && bufs[idx].valid && bufs[idx].data == Sees(b)
    }

    constructor (n: nat, dev: nat, disk: Disk)
      requires n > 0 && dev != 0
      ensures Valid() && fresh(Repr()) && this.dev == dev && this.disk == disk && bufs.Length == n
      ensures live == seq(n, _ => 0) && logged == {} && pending == map[] && trace == []
    {
      var l := new BufLru(n);
      lru := l;
      bufs := new BufInner[n](_ => BufInner(false, Zeroes(BWORDS)));
      this.dev, this.disk := dev, disk;
      live, logged, pending, slot, trace := seq(n, _ => 0), {}, map[], map[], [];
    }

    method Hit(b: nat) returns (ok: bool, idx: nat)
      requires Valid()
      modifies this, lru.inner
      ensures Valid()
      ensures disk == old(disk) && logged == old(logged) && pending == old(pending) && trace == old(trace)
      ensures !ok ==> b !in slot && slot == old(slot) && live == old(live) && lru.inner[..] == old(lru.inner[..])
      ensures ok ==> idx < bufs.Length == |old(live)| && live == old(live)[idx := old(live)[idx] + 1]
      ensures ok ==> lru.inner[idx].dev == dev && lru.inner[idx].blockno == b && lru.inner[idx].refcnt > 0
      ensures forall j: nat, n: nat {:trigger Handle(j, n)} :: old(Handle(j, n)) ==> Handle(j, n)
    {
      hide Ring, Recency, Snap.Coherent;
      ghost var c := Snapshot();
      ok, idx := lru.FindCached(dev, b);
      if ok {
        HitCoherent(c, idx);
        live := live[idx := live[idx] + 1];
        assert Snapshot() == c.(ctrl := c.ctrl[idx := c.ctrl[idx].(refcnt := c.ctrl[idx].refcnt + 1)],
               live := c.live[idx := c.live[idx] + 1]);
      } else {
        NotCached(c, b);
      }
    }

    method Miss(b: nat) returns (ok: bool, idx: nat)
      requires Valid() && b !in slot
      modifies this, lru.inner, bufs
      ensures Valid()
      ensures disk == old(disk) && logged == old(logged) && pending == old(pending) && trace == old(trace)
      ensures !ok ==> live == old(live) && AllReferenced(lru.inner[..]) && lru.inner[..] == old(lru.inner[..])
      ensures ok ==> idx < bufs.Length == |old(live)| && live == old(live)[idx := old(live)[idx] + 1]
      ensures ok ==> lru.inner[idx].dev == dev && lru.inner[idx].blockno == b && lru.inner[idx].refcnt > 0
      ensures forall j: nat, n: nat {:trigger Handle(j, n)} :: old(Handle(j, n)) ==> Handle(j, n)
    {
      hide Ring, Recency, Snap.Coherent;
      ghost var c := Snapshot();
      ok, idx := lru.Recycle(dev, b);
      if ok {
        RecycleCoherent(c, idx, b);
        bufs[idx] := bufs[idx].(valid := false);
        slot := Renamed(c, idx, b);
        live := live[idx := live[idx] + 1];
        assert Snapshot() == Recycled(c, idx, b);
      }
    }

    /** Find the block's slot or recycle one.  `ok` is false where the source panics. */
    method Get(b: nat) returns (ok: bool, idx: nat)
      requires Valid()
      modifies this, lru.inner, bufs
      ensures Valid()
      ensures disk == old(disk) && logged == old(logged) && pending == old(pending) && trace == old(trace)
      ensures !ok ==> live == old(live) && old(b !in slot) && AllReferenced(lru.inner[..])
                      && lru.inner[..] == old(lru.inner[..])
      ensures ok ==> idx < bufs.Length == |old(live)| && live == old(live)[idx := old(live)[idx] + 1]
      ensures ok ==> lru.inner[idx].dev == dev && lru.inner[idx].blockno == b && lru.inner[idx].refcnt > 0
      ensures forall j: nat, n: nat {:trigger Handle(j, n)} :: old(Handle(j, n)) ==> Handle(j, n)
    {
      hide Ring, Recency, Snap.Coherent;
      ok, idx := Hit(b);
      if !ok {
        ok, idx := Miss(b);
      }
    }

    /** A handle on the block; an invalid buffer is filled from the disk. */
    method Read(b: nat) returns (ok: bool, idx: nat)
      requires Valid()
      modifies this, lru.inner, bufs
      ensures Valid()
      ensures disk == old(disk) && logged == old(logged) && pending == old(pending) && trace == old(trace)
      ensures !ok ==> live == old(live) && old(b !in slot) && AllReferenced(lru.inner[..])
                      && lru.inner[..] == old(lru.inner[..])
      ensures ok ==> idx < |old(live)| && live == old(live)[idx := old(live)[idx] + 1]
      ensures ok ==> Handle(idx, b)
      ensures forall j: nat, n: nat {:trigger Handle(j, n)} :: old(Handle(j, n)) ==> Handle(j, n)
    {
      hide Ring, Recency, Snap.Coherent;
      ok, idx := Get(b);
      if ok {
        if !bufs[idx].valid {
          Fill(idx);
        } else {
          ValidIsCurrent(Snapshot(), idx);
        }
      }
    }

    method Fill(idx: nat)
      requires Valid() && idx < bufs.Length && live[idx] > 0 && lru.inner[idx].dev == dev && !bufs[idx].valid
      modifies bufs
      ensures Valid()
      ensures Handle(idx, lru.inner[idx].blockno)
      ensures forall j: nat, n: nat {:trigger Handle(j, n)} :: old(Handle(j, n)) ==> Handle(j, n)
    {
      hide Ring, Recency, Snap.Coherent;
      ghost var c := Snapshot();
      FillCoherent(c, idx);
      bufs[idx] := BufInner(true, At(disk, lru.inner[idx].blockno));
      assert Snapshot() == c.(bufs := c.bufs[idx := BufInner(true, At(c.disk, lru.inner[idx].blockno))]);
    }

    /** Overwrite the data of a held buffer. */
    method SetData(idx: nat, d: Block)
      requires Valid() && idx < bufs.Length && Handle(idx, lru.inner[idx].blockno)
      modifies this, bufs
      ensures Valid()
      ensures disk == old(disk) && live == old(live) && logged == old(logged) && trace == old(trace)
      ensures pending == old(pending)[lru.inner[idx].blockno := d]
      ensures bufs[..] == old(bufs[..])[idx := BufInner(true, d)]
      ensures Handle(idx, lru.inner[idx].blockno)
    {
      hide Ring, Recency;
      ghost var c := Snapshot();
      SetCoherent(c, idx, d);
      bufs[idx] := BufInner(true, d);
      pending := pending[lru.inner[idx].blockno := d];
      assert Snapshot() == c.(bufs := c.bufs[idx := BufInner(true, d)], pending := c.pending[c.ctrl[idx].blockno := d]);
    }

    /** Write a held buffer to its block: one atomic disk write. */
    method Write(idx: nat)
      requires Valid() && idx < bufs.Length && Handle(idx, lru.inner[idx].blockno)
      modifies this
      ensures Valid()
      ensures live == old(live) && logged == old(logged)
      ensures var b := lru.inner[idx].blockno;
              && disk == old(disk)[b := bufs[idx].data]
              && trace == old(trace) + [LogFormat.Write(b, bufs[idx].data)]
              && pending == old(pending) - {b}
      ensures Handle(idx, lru.inner[idx].blockno)
    {
      hide Ring, Recency;
      ghost var c := Snapshot();
      WriteCoherent(c, idx);
      var b := lru.inner[idx].blockno;
      disk := disk[b := bufs[idx].data];
      pending := pending - {b};
      trace := trace + [LogFormat.Write(b, bufs[idx].data)];
      assert Snapshot() == c.(disk := c.disk[b := c.bufs[idx].data], pending := c.pending - {b});
    }

    /** Pin the block of a held buffer into the open transaction. */
    method Pin(idx: nat)
      requires Valid() && idx < bufs.Length && Handle(idx, lru.inner[idx].blockno)
      requires lru.inner[idx].blockno !in logged
      modifies this, lru.inner
      ensures Valid()
      ensures disk == old(disk) && live == old(live) && pending == old(pending) && trace == old(trace)
      ensures idx < lru.inner.Length
      ensures lru.inner[..] == old(lru.inner[..])[idx := old(lru.inner[idx]).(refcnt := old(lru.inner[idx].refcnt) + 1)]
      ensures logged == old(logged) + {lru.inner[idx].blockno}
      ensures Handle(idx, lru.inner[idx].blockno)
    {
      hide Ring, Recency;
      ghost var c := Snapshot();
      PinCoherent(c, idx);
      lru.IncRef(idx);
      logged := logged + {lru.inner[idx].blockno};
      assert Snapshot() == c.(ctrl := c.ctrl[idx := c.ctrl[idx].(refcnt := c.ctrl[idx].refcnt + 1)],
                              logged := c.logged + {c.ctrl[idx].blockno});
    }

    /** Unpin a held block of the open transaction; this never panics. */
    method Unpin(idx: nat)
      requires Valid() && idx < bufs.Length && Handle(idx, lru.inner[idx].blockno)
      requires lru.inner[idx].blockno in logged
      modifies this, lru.inner
      ensures Valid()
      ensures disk == old(disk) && live == old(live) && pending == old(pending) && trace == old(trace)
      ensures idx < lru.inner.Length && old(lru.inner[idx].refcnt) > 1
      ensures lru.inner[..] == Dropped(old(lru.inner[..]), idx)
      ensures logged == old(logged) - {lru.inner[idx].blockno}
      ensures Handle(idx, lru.inner[idx].blockno)
    {
      hide Ring, Recency;
      ghost var c := Snapshot();
      UnpinCoherent(c, idx);
      var ok := lru.DecRef(idx);
      assert ok;
      logged := logged - {lru.inner[idx].blockno};
      assert Snapshot() == c.(ctrl := Dropped(c.ctrl, idx), logged := c.logged - {c.ctrl[idx].blockno});
    }

    /** Drop a handle.  A changed block must be on disk, in the transaction, or still held. */
    method Release(idx: nat)
      requires Valid() && idx < bufs.Length && live[idx] > 0
      requires lru.inner[idx].blockno in pending ==> lru.inner[idx].blockno in logged || live[idx] > 1
      modifies this, lru, lru.inner
      ensures Valid()
      ensures disk == old(disk) && logged == old(logged) && pending == old(pending) && trace == old(trace)
      ensures idx < |old(live)| && live == old(live)[idx := old(live)[idx] - 1]
      ensures SameBlocks(Dropped(old(lru.inner[..]), idx), lru.inner[..])
      ensures forall j: nat, n: nat {:trigger Handle(j, n)} :: j != idx && old(Handle(j, n)) ==> Handle(j, n)
    {
      hide Ring, Recency, Snap.Coherent;
      ghost var c := Snapshot();
      LiveIsReferenced(c, idx);
      lru.MoveIfNoRef(idx);
      ReleaseCoherent(c, idx, lru.inner[..]);
      live := live[idx := live[idx] - 1];
      assert Snapshot() == c.(ctrl := lru.inner[..], live := c.live[idx := c.live[idx] - 1]);
    }

    /** Copy a held buffer over another, write that one out, unpin it if asked, and drop both. */
    method CopyAndWrite(src: nat, dst: nat, unpin: bool)
      requires Valid() && src < bufs.Length && dst < bufs.Length
      requires Handle(src, lru.inner[src].blockno) && Handle(dst, lru.inner[dst].blockno)
      requires lru.inner[src].blockno != lru.inner[dst].blockno
      requires lru.inner[src].blockno in pending ==> lru.inner[src].blockno in logged
      requires unpin ==> lru.inner[dst].blockno in logged
      modifies this, lru, lru.inner, bufs
      ensures Valid()
      ensures var w := LogFormat.Write(old(lru.inner[dst].blockno), old(bufs[src].data));
              && disk == old(disk)[w.bno := w.data] && trace == old(trace) + [w]
              && pending == old(pending) - {w.bno}
              && logged == (if unpin then old(logged) - {w.bno} else old(logged))
      ensures live == old(live)[src := old(live[src]) - 1][dst := old(live[dst]) - 1]
    {
      hide Ring, Recency, Snap.Coherent;
      SetData(dst, bufs[src].data);
      Write(dst);
      if unpin {
        Unpin(dst);
      }
      ReleaseBoth(src, dst);
    }

    method ReleaseBoth(src: nat, dst: nat)
      requires Valid() && src < bufs.Length && dst < bufs.Length && src != dst
      requires Handle(src, lru.inner[src].blockno) && Handle(dst, lru.inner[dst].blockno)
      requires lru.inner[src].blockno in pending ==> lru.inner[src].blockno in logged
      requires lru.inner[dst].blockno in pending ==> lru.inner[dst].blockno in logged
      modifies this, lru, lru.inner
      ensures Valid()
      ensures disk == old(disk) && trace == old(trace) && pending == old(pending) && logged == old(logged)
      ensures live == old(live)[src := old(live[src]) - 1][dst := old(live[dst]) - 1]
    {
      hide Ring, Recency, Snap.Coherent;
      Release(src);
      Release(dst);
    }

    /** Overwrite one block through the cache: read it, change it, write it out, drop it. */
    method Rewrite(b: nat, f: Block -> Block) returns (ok: bool)
      requires Valid() && b !in pending
      modifies this, lru, lru.inner, bufs
      ensures ok ==> Valid()
      ensures ok ==> var w := LogFormat.Write(b, f(At(old(disk), b)));
                     disk == old(disk)[b := w.data] && trace == old(trace) + [w]
      ensures ok ==> pending == old(pending) && logged == old(logged) && live == old(live)
      ensures !ok ==> AllReferenced(lru.inner[..]) && lru.inner[..] == old(lru.inner[..])
    {
      hide Ring, Recency, Snap.Coherent;
      var idx;
      ok, idx := Read(b);
      if ok {
        SetData(idx, f(bufs[idx].data));
        Write(idx);
        Release(idx);
      }
    }
  }
}
