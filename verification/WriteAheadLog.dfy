/**
 The write-ahead log running over the buffer cache.  Every block write goes through
 the cache, and the cache's trace of block writes is tied to the writes that the
 crash theory reasons about.
 */
module WriteAheadLog {
  import opened LogFormat
  import opened LogRuns
  import opened BufferCache
  import opened LogAdmission
  import Lru
  import Collections

  function Names(h: LogHeader): seq<nat>
    requires h.len <= |h.blocknos|
  {
    h.blocknos[..h.len]
  }

  function NameSet(ns: seq<nat>): (s: set<nat>)
    ensures forall n: nat :: n in s <==> n in ns
  {
    set n | n in ns
  }

  predicate DistinctNames(ns: seq<nat>) {
    forall i, j :: 0 <= i < j < |ns| ==> ns[i] != ns[j]
  }

  /** The slots with a live handle. */
  function Busy(live: seq<nat>): set<nat> {
    set s | 0 <= s < |live| && live[s] > 0
  }

  ghost function BusyBelow(live: seq<nat>, k: nat): set<nat>
    requires k <= |live|
  {
    set s | 0 <= s < k && live[s] > 0
  }

  /** The blocks in the first `k` slots that no handle is on. */
  ghost function IdleNames(c: Snap, k: nat): set<nat>
    requires k <= |c.ctrl| == |c.live|
  {
    set s | 0 <= s < k && c.live[s] == 0 :: c.ctrl[s].blockno
  }

  lemma {:induction false} ReferencedBelow(c: Snap, k: nat)
    requires c.Coherent() && AllReferenced(c.ctrl) && k <= |c.ctrl| == |c.live|
    ensures IdleNames(c, k) <= c.logged && k <= |IdleNames(c, k)| + |BusyBelow(c.live, k)|
  {
    hide Snap.Coherent, AllReferenced;
    if k > 0 {
      var s := k - 1;
      ReferencedBelow(c, s);
      if c.live[s] > 0 {
        assert BusyBelow(c.live, k) == BusyBelow(c.live, s) + {s};
        assert IdleNames(c, k) == IdleNames(c, s);
      } else {
        assert BusyBelow(c.live, k) == BusyBelow(c.live, s);
        assert IdleNames(c, k) == IdleNames(c, s) + {c.ctrl[s].blockno};
        IdleIsLogged(c, s);
        forall i | 0 <= i < s ensures c.ctrl[i].blockno != c.ctrl[s].blockno {
          OneSlotEach(c, i, s);
        }
      }
    }
  }

  lemma IdleIsLogged(c: Snap, s: nat)
    requires c.Coherent() && AllReferenced(c.ctrl) && s < |c.ctrl| == |c.live| && c.live[s] == 0
    ensures c.ctrl[s].blockno in c.logged
  {
    assert c.ctrl[s].refcnt == c.live[s] + c.Pin(s);
  }

  lemma OneSlotEach(c: Snap, i: nat, j: nat)
    requires c.Coherent() && AllReferenced(c.ctrl) && i < j < |c.ctrl|
    ensures c.ctrl[i].blockno != c.ctrl[j].blockno
  {
    assert c.slot[c.ctrl[i].blockno] == i && c.slot[c.ctrl[j].blockno] == j;
  }

  /** Fewer blocks logged or held than there are slots leave a slot to recycle. */
  lemma RoomToRecycle(c: Snap)
    requires c.Coherent() && AllReferenced(c.ctrl)
    ensures |c.ctrl| <= |c.logged| + |Busy(c.live)|
  {
    hide Snap.Coherent, AllReferenced;
    SameLengths(c);
    ReferencedBelow(c, |c.ctrl|);
    assert BusyBelow(c.live, |c.live|) == Busy(c.live);
    Collections.SubsetSize(IdleNames(c, |c.ctrl|), c.logged);
  }

  lemma SameLengths(c: Snap)
    requires c.Coherent()
    ensures |c.ctrl| == |c.live|
  {
  }

  /** The group a commit writes: the open transaction's blocks as readers see them. */
  function PendingGroup(disk: Disk, pending: map<nat, Block>, ns: seq<nat>): (g: Group)
    ensures |g| == |ns|
    ensures forall i :: 0 <= i < |ns| ==> g[i] == Write(ns[i], Current(disk, pending, ns[i]))
  {
    seq(|ns|, i requires 0 <= i < |ns| => Write(ns[i], Current(disk, pending, ns[i])))
  }

  class Log {
    const cache: BCache
    const start: nat
    const size: nat
    var outstanding: nat
    var commiting: bool
    var lh: LogHeader

    /** The header lists the open transaction: distinct home blocks, each pinned once. */
    ghost predicate Valid()
      reads this, cache, cache.lru, cache.lru.inner, cache.bufs
    {
      && cache.Valid()
      && HeaderOk(lh)
      && DistinctNames(Names(lh))
      && cache.logged == NameSet(Names(lh))
      && (forall i :: 0 <= i < lh.len ==> Home(start, lh.blocknos[i]))
    }

    constructor (cache: BCache, start: nat, size: nat)
      ensures this.cache == cache && this.start == start && this.size == size
      ensures outstanding == 0 && !commiting && lh == LogHeader(0, Zeroes(LOGSIZE - 1))
    {
      this.cache, this.start, this.size := cache, start, size;
      outstanding, commiting, lh := 0, false, LogHeader(0, Zeroes(LOGSIZE - 1));
    }

    /** Two handles at once; with slots to spare this cannot fail. */
    method ReadBoth(first: nat, second: nat) returns (ok: bool, a: nat, b: nat)
      requires cache.Valid() && first != second
      modifies cache, cache.lru.inner, cache.bufs
      ensures ok ==> cache.Valid()
      ensures ok ==> cache.Handle(a, first) && cache.Handle(b, second) && a != b
      ensures ok ==> a < |old(cache.live)| && b < |old(cache.live)|
                     && cache.live == old(cache.live)[a := old(cache.live)[a] + 1][b := old(cache.live)[b] + 1]
      ensures ok ==> cache.disk == old(cache.disk) && cache.logged == old(cache.logged)
                     && cache.pending == old(cache.pending) && cache.trace == old(cache.trace)
      ensures var more := if second in old(cache.logged) then 0 else 1;
              |Busy(old(cache.live))| + |old(cache.logged)| + more < cache.bufs.Length ==> ok
      ensures !ok ==> AllReferenced(cache.lru.inner[..])
    {
      hide Lru.Ring, Lru.Recency, Snap.Coherent, Busy, AllReferenced;
      b := 0;
      FirstRoom(cache.Snapshot());
      ok, a := cache.Read(first);
      if !ok { return; }
      SecondRoom(cache.Snapshot(), old(cache.live), a, second);
      ok, b := cache.Read(second);
      if !ok { return; }
      assert cache.Handle(a, first);
    }

    /** The copy of one transaction block into its log block. */
    method LogOne(i: nat) returns (ok: bool)
      requires cache.Valid() && HeaderOk(lh) && 1 <= i <= lh.len
      requires lh.blocknos[i - 1] in cache.logged && cache.pending.Keys <= cache.logged
      requires start + i !in cache.logged
      modifies cache, cache.lru, cache.lru.inner, cache.bufs
      ensures ok ==> cache.Valid()
      ensures ok ==> var w := Write(start + i, old(cache.Sees(lh.blocknos[i - 1])));
                     cache.disk == old(cache.disk)[w.bno := w.data] && cache.trace == old(cache.trace) + [w]
      ensures ok ==> cache.live == old(cache.live) && cache.logged == old(cache.logged)
      ensures ok ==> cache.pending == old(cache.pending)
      ensures |Busy(old(cache.live))| + |old(cache.logged)| < cache.bufs.Length ==> ok
      ensures !ok ==> AllReferenced(cache.lru.inner[..])
    {
      hide BCache.Valid;
      var logBuf, cacheBuf;
      ok, logBuf, cacheBuf := ReadBoth(start + i, lh.blocknos[i - 1]);
      if ok {
        cache.CopyAndWrite(cacheBuf, logBuf, false);
      }
    }

    /** Copy the whole transaction into the log blocks. */
    method WriteLog() returns (ok: bool)
      requires cache.Valid() && HeaderOk(lh)
      requires DistinctNames(Names(lh)) && forall i :: 0 <= i < lh.len ==> Home(start, lh.blocknos[i])
      requires cache.pending.Keys <= cache.logged == NameSet(Names(lh))
      modifies cache, cache.lru, cache.lru.inner, cache.bufs
      ensures ok ==> cache.Valid()
      ensures ok ==> var ws := LogWrites(start, PendingGroup(old(cache.disk), old(cache.pending), Names(lh)));
                     cache.disk == Apply(old(cache.disk), ws) && cache.trace == old(cache.trace) + ws
      ensures ok ==> cache.live == old(cache.live) && cache.logged == old(cache.logged)
      ensures ok ==> cache.pending == old(cache.pending)
      ensures |Busy(old(cache.live))| + lh.len < cache.bufs.Length ==> ok
      ensures !ok ==> AllReferenced(cache.lru.inner[..])
    {
      hide BCache.Valid, Logging, DistinctNames, Home, LogWrites, PendingGroup, Apply;
      ghost var d0, t0, p, l := cache.disk, cache.trace, cache.pending, cache.logged;
      ok := true;
      var i := 1;
      NameSetSize(Names(lh));
      LogStart(start, lh, d0, p, t0);
      while i <= lh.len
        invariant 1 <= i <= lh.len + 1 && cache.Valid()
        invariant Logging(start, lh, i, d0, p, t0, cache.disk, cache.trace)
        invariant cache.live == old(cache.live) && cache.logged == l && cache.pending == p
      {
        ghost var d, t := cache.disk, cache.trace;
        LogReady(start, lh, i, d0, p, t0, d, t);
        ok := LogOne(i);
        if !ok {
          return;
        }
        LogMore(start, lh, i, d0, p, t0, d, t);
        i := i + 1;
      }
      LogDone(start, lh, d0, p, t0, cache.disk, cache.trace);
    }

    /** Install one block from the log over its home block. */
    method InstallOne(i: nat, recovering: bool) returns (ok: bool)
      requires cache.Valid() && HeaderOk(lh) && 1 <= i <= lh.len
      requires start + i !in cache.pending && start + i != lh.blocknos[i - 1]
      requires !recovering ==> lh.blocknos[i - 1] in cache.logged
      modifies cache, cache.lru, cache.lru.inner, cache.bufs
      ensures ok ==> cache.Valid()
      ensures ok ==> var w := Write(lh.blocknos[i - 1], At(old(cache.disk), start + i));
                     && cache.disk == old(cache.disk)[w.bno := w.data] && cache.trace == old(cache.trace) + [w]
                     && cache.pending == old(cache.pending) - {w.bno}
                     && cache.logged == (if recovering then old(cache.logged) else old(cache.logged) - {w.bno})
      ensures ok ==> cache.live == old(cache.live)
      ensures |Busy(old(cache.live))| + |old(cache.logged)| + 1 < cache.bufs.Length ==> ok
      ensures !ok ==> AllReferenced(cache.lru.inner[..])
    {
      hide BCache.Valid;
      var logBuf, diskBuf;
      ok, logBuf, diskBuf := ReadBoth(start + i, lh.blocknos[i - 1]);
      if ok {
        cache.CopyAndWrite(logBuf, diskBuf, !recovering);
      }
    }

    method InstallRound(i: nat, recovering: bool, ghost d0: Disk, ghost t0: seq<Write>) returns (ok: bool)
      requires cache.Valid() && HeaderOk(lh) && DistinctNames(Names(lh)) && AllHome(start, lh) && 1 <= i <= lh.len
      requires Installing(start, lh, i, recovering, d0, t0, cache.disk, cache.trace, cache.pending, cache.logged)
      modifies cache, cache.lru, cache.lru.inner, cache.bufs
      ensures ok ==> cache.Valid() && cache.live == old(cache.live)
      ensures ok ==> Installing(start, lh, i + 1, recovering, d0, t0, cache.disk, cache.trace, cache.pending,
                                cache.logged)
      ensures |Busy(old(cache.live))| + (if recovering then 0 else lh.len) + 1 < cache.bufs.Length ==> ok
      ensures !ok ==> AllReferenced(cache.lru.inner[..])
    {
      hide BCache.Valid, Installing, DistinctNames, AllHome;
      ghost var d, t, p, l := cache.disk, cache.trace, cache.pending, cache.logged;
      InstallReady(start, lh, i, recovering, d0, t0, d, t, p, l);
      ok := InstallOne(i, recovering);
      if ok {
        InstallMore(start, lh, i, recovering, d0, t0, d, t, p, l);
      }
    }

    /** Install every logged block; a commit also unpins them. */
    method InstallTrans(recovering: bool) returns (ok: bool)
      requires cache.Valid() && HeaderOk(lh)
      requires DistinctNames(Names(lh)) && forall i :: 0 <= i < lh.len ==> Home(start, lh.blocknos[i])
      requires cache.pending.Keys <= NameSet(Names(lh))
      requires cache.logged == if recovering then {} else NameSet(Names(lh))
      modifies cache, cache.lru, cache.lru.inner, cache.bufs
      ensures ok ==> cache.Valid()
      ensures ok ==> var g := Logged(start, old(cache.disk), lh);
                     cache.disk == Apply(old(cache.disk), g) && cache.trace == old(cache.trace) + g
      ensures ok ==> cache.live == old(cache.live) && cache.logged == {} && cache.pending == map[]
      ensures |Busy(old(cache.live))| + (if recovering then 0 else lh.len) + 1 < cache.bufs.Length ==> ok
      ensures !ok ==> AllReferenced(cache.lru.inner[..])
    {
      hide BCache.Valid, Apply, Logged, DistinctNames, Home, Installing;
      ok := true;
      var i := 1;
      InstallStart(start, lh, recovering, cache.disk, cache.trace, cache.pending, cache.logged);
      while i <= lh.len
        invariant 1 <= i <= lh.len + 1 && cache.Valid() && cache.live == old(cache.live)
        invariant Installing(start, lh, i, recovering, old(cache.disk), old(cache.trace), cache.disk, cache.trace,
                             cache.pending, cache.logged)
      {
        ok := InstallRound(i, recovering, old(cache.disk), old(cache.trace));
        if !ok {
          return;
        }
        i := i + 1;
      }
      InstallDone(start, lh, recovering, old(cache.disk), old(cache.trace), cache.disk, cache.trace, cache.pending,
                  cache.logged);
    }

    /** Write the in-memory header over the header block: the commit point. */
    method WriteHead() returns (ok: bool)
      requires cache.Valid() && HeaderOk(lh) && start !in cache.pending
      modifies cache, cache.lru, cache.lru.inner, cache.bufs
      ensures ok ==> cache.Valid()
      ensures ok ==> var w := HeadWrite(start, old(cache.disk), lh);
                     cache.disk == old(cache.disk)[start := w.data] && cache.trace == old(cache.trace) + [w]
      ensures ok ==> cache.pending == old(cache.pending) && cache.logged == old(cache.logged)
      ensures ok ==> cache.live == old(cache.live)
      ensures |Busy(old(cache.live))| + |old(cache.logged)| < cache.bufs.Length ==> ok
      ensures !ok ==> AllReferenced(cache.lru.inner[..])
    {
      hide Snap.Coherent, Lru.Ring, Lru.Recency;
      FirstRoom(cache.Snapshot());
      var h := lh;
      ok := cache.Rewrite(start, b => PutHeader(b, h));
    }

    /** Forget the transaction, in memory and on disk. */
    method EmptyHead() returns (ok: bool)
      requires cache.Valid() && start !in cache.pending
      modifies `lh, cache, cache.lru, cache.lru.inner, cache.bufs
      ensures lh == old(lh).(len := 0)
      ensures ok ==> cache.Valid()
      ensures ok ==> var w := Write(start, Emptied(At(old(cache.disk), start)));
                     cache.disk == old(cache.disk)[start := w.data] && cache.trace == old(cache.trace) + [w]
      ensures ok ==> cache.pending == old(cache.pending) && cache.logged == old(cache.logged)
      ensures ok ==> cache.live == old(cache.live)
      ensures |Busy(old(cache.live))| + |old(cache.logged)| < cache.bufs.Length ==> ok
      ensures !ok ==> AllReferenced(cache.lru.inner[..])
    {
      hide Snap.Coherent, Lru.Ring, Lru.Recency;
      FirstRoom(cache.Snapshot());
      lh := lh.(len := 0);
      ok := cache.Rewrite(start, Emptied);
    }

    /** Install the group in the log, then empty the log: the tail of a commit and all of a recovery. */
    method InstallAndEmpty(recovering: bool) returns (ok: bool)
      requires cache.Valid() && HeaderOk(lh)
      requires DistinctNames(Names(lh)) && forall i :: 0 <= i < lh.len ==> Home(start, lh.blocknos[i])
      requires cache.pending.Keys <= NameSet(Names(lh))
      requires cache.logged == if recovering then {} else NameSet(Names(lh))
      modifies `lh, cache, cache.lru, cache.lru.inner, cache.bufs
      ensures ok ==> cache.Valid() && lh == old(lh).(len := 0)
      ensures ok ==> var ws := Logged(start, old(cache.disk),
                                      old(lh)) + [Write(start, Emptied(At(old(cache.disk), start)))];
                     cache.disk == Apply(old(cache.disk), ws) && cache.trace == old(cache.trace) + ws
      ensures ok ==> cache.live == old(cache.live) && cache.logged == {} && cache.pending == map[]
      ensures |Busy(old(cache.live))| + (if recovering then 0 else old(lh).len) + 1 < cache.bufs.Length ==> ok
      ensures !ok ==> AllReferenced(cache.lru.inner[..])
    {
      hide BCache.Valid, Apply, Logged, Emptied, Home, DistinctNames, NameSet;
      ghost var d := cache.disk;
      ghost var g := Logged(start, d, lh);
      LogBlockNotNamed(lh, start, 0, 0);
      InstallKeepsLogBlock(d, start, lh, lh.len, start);
      assert g[..lh.len] == g;
      ok := InstallTrans(recovering);
      if ok {
        ok := EmptyHead();
        ApplySnoc(d, g, Write(start, Emptied(At(d, start))));
      }
    }

    /** Replay a committed group left in the log, as the kernel does at boot. */
    method Recover() returns (ok: bool)
      requires cache.Valid() && cache.logged == {} && cache.pending == map[]
      requires LogOk(start, cache.disk)
      modifies `lh, cache, cache.lru, cache.lru.inner, cache.bufs
      ensures ok ==> Valid() && lh.len == 0
      ensures ok ==> cache.disk == Recovered(start, old(cache.disk))
                     && cache.trace == old(cache.trace) + RecoverWrites(start, old(cache.disk))
      ensures ok ==> cache.pending == map[] && cache.logged == {} && cache.live == old(cache.live)
      ensures |Busy(old(cache.live))| + 1 < cache.bufs.Length ==> ok
      ensures !ok ==> AllReferenced(cache.lru.inner[..])
    {
      hide BCache.Valid, GetHeader, Logged;
      ok := ReadHead();
      assert NameSet([]) == {};
      if ok && lh.len > 0 {
        ReplayableNames(start, cache.disk);
        ok := InstallAndEmpty(true);
      }
    }

    method ReadHead() returns (ok: bool)
      requires cache.Valid() && cache.logged == {} && cache.pending == map[]
      modifies `lh, cache, cache.lru, cache.lru.inner, cache.bufs
      ensures ok ==> cache.Valid() && lh == GetHeader(At(old(cache.disk), start))
      ensures ok ==> cache.disk == old(cache.disk) && cache.trace == old(cache.trace)
      ensures ok ==> cache.pending == map[] && cache.logged == {} && cache.live == old(cache.live)
      ensures |Busy(old(cache.live))| < cache.bufs.Length ==> ok
      ensures !ok ==> AllReferenced(cache.lru.inner[..])
    {
      hide Snap.Coherent, Lru.Ring, Lru.Recency;
      FirstRoom(cache.Snapshot());
      var buf;
      ok, buf := cache.Read(start);
      if ok {
        lh := GetHeader(cache.bufs[buf].data);
        cache.Release(buf);
      }
    }

    /** What `end_op` hands to the commit: the group of the open transaction. */
    ghost function Open(): Group
      requires HeaderOk(lh)
      reads this, cache
    {
      PendingGroup(cache.disk, cache.pending, Names(lh))
    }

    /** Copy the transaction into the log and write the header. */
    method WriteToHead() returns (ok: bool)
      requires Valid() && cache.pending.Keys <= cache.logged
      modifies cache, cache.lru, cache.lru.inner, cache.bufs
      ensures ok ==> cache.Valid() && cache.logged == old(cache.logged) && cache.pending == old(cache.pending)
      ensures ok ==> cache.live == old(cache.live)
      ensures ok ==> var ws := LogWrites(start, old(Open())) + [HeadWrite(start, old(cache.disk), lh)];
                     cache.disk == Apply(old(cache.disk), ws) && cache.trace == old(cache.trace) + ws
      ensures |Busy(old(cache.live))| + lh.len < cache.bufs.Length ==> ok
      ensures !ok ==> AllReferenced(cache.lru.inner[..])
    {
      hide BCache.Valid, Apply, PutHeader, Home, DistinctNames, NameSet, LogWrites, PendingGroup;
      ghost var d := cache.disk;
      ghost var ws := LogWrites(start, Open());
      NameSetSize(Names(lh));
      LogBlockNotNamed(lh, start, 0, 0);
      assert Names(lh)[0..] == Names(lh);
      ApplyUntouched(d, ws, start);
      ok := WriteLog();
      if ok {
        ok := WriteHead();
        ApplySnoc(d, ws, HeadWrite(start, d, lh));
      }
    }

    method CommitSteps() returns (ok: bool)
      requires Valid() && cache.pending.Keys <= cache.logged && lh.len > 0
      modifies `lh, cache, cache.lru, cache.lru.inner, cache.bufs
      ensures ok ==> cache.Valid() && cache.logged == {} && cache.pending == map[] && cache.live == old(cache.live)
      ensures ok ==> lh == old(lh).(len := 0)
      ensures ok ==> Names(old(lh)) == Bnos(old(Open()))
                     && var ws := CommitWrites(start, old(cache.disk), old(lh), old(Open()));
                     cache.disk == Apply(old(cache.disk), ws) && cache.trace == old(cache.trace) + ws
      ensures |Busy(old(cache.live))| + old(lh.len) + 1 < cache.bufs.Length ==> ok
      ensures !ok ==> AllReferenced(cache.lru.inner[..])
    {
      hide BCache.Valid, Apply, LogWrites, Logged, HeadWrite, PendingGroup, NameSet, CommitWrites, GroupOk, Emptied,
           DistinctNames, Busy, AllReferenced, Home;
      ghost var d, g, h := cache.disk, Open(), lh;
      OpenGroupOk(start, d, cache.pending, lh);
      ok := WriteToHead();
      if ok {
        CommitTail(start, d, h, g);
        ok := InstallAndEmpty(false);
      }
    }

    /**
     The group commit.  Its block writes are those of one `Commit` event of the crash
     theory, so every crash point is covered there; run to its end it leaves an empty
     log, nothing pinned or pending, and readers seeing what they saw before.
     */
    method Commit() returns (ok: bool)
      requires Valid() && cache.pending.Keys <= cache.logged
      requires LogOk(start, cache.disk) && Clean(start, cache.disk)
      modifies `lh, cache, cache.lru, cache.lru.inner, cache.bufs
      ensures !old(commiting) ==> !ok
      ensures ok ==> Valid() && lh.len == 0 && cache.logged == {} && cache.pending == map[]
      ensures ok ==> cache.live == old(cache.live)
      ensures ok ==> GroupOk(start, old(Open()))
                     && var ws := CommitWrites(start, old(cache.disk), HeaderOf(old(Open()), old(lh.blocknos)),
                                               old(Open()));
                     cache.disk == Apply(old(cache.disk), ws) && cache.trace == old(cache.trace) + ws
      ensures ok ==> LogOk(start, cache.disk) && Clean(start, cache.disk)
      ensures ok ==> forall n: nat :: Home(start, n) ==> cache.Sees(n) == old(cache.Sees(n))
      ensures old(commiting) && |Busy(old(cache.live))| + old(lh.len) + 1 < cache.bufs.Length ==> ok
      ensures !ok ==> !old(commiting) || AllReferenced(cache.lru.inner[..])
    {
      hide BCache.Valid, Apply, CommitWrites, PendingGroup, HeaderOf, LogOk, Clean, GroupOk, SameHome, Current;
      if !commiting {
        return false;
      }
      ghost var d, g, p, stale := cache.disk, Open(), cache.pending, lh.blocknos;
      OpenGroupOk(start, d, p, lh);
      CommitComplete(start, d, g, stale);
      SeesCommitted(start, d, p, lh);
      NoneIsOpen(lh);
      ok := true;
      if lh.len > 0 {
        ok := CommitSteps();
      } else {
        ApplyNone(d, []);
      }
    }

    /** One pass of the `begin_op` loop; a caller refused here sleeps and tries again. */
    method TryBegin() returns (admitted: bool)
      modifies `outstanding
      ensures admitted <==> Admits(commiting, lh.len, old(outstanding))
      ensures outstanding == old(outstanding) + if admitted then 1 else 0
    {
      if commiting || 1 + lh.len + (outstanding + 1) * MAXOPBLOCKS > LOGSIZE {
        return false;
      }
      outstanding := outstanding + 1;
      admitted := true;
    }

    method InTransaction(b: nat) returns (found: bool)
      requires HeaderOk(lh)
      ensures found <==> b in NameSet(Names(lh))
    {
      var i := 0;
      while i < lh.len
        invariant 0 <= i <= lh.len
        invariant forall j :: 0 <= j < i ==> lh.blocknos[j] != b
      {
        if lh.blocknos[i] == b {
          assert Names(lh)[i] == b;
          return true;
        }
        i := i + 1;
      }
      found := false;
    }

    /**
     Add a held, changed block to the transaction and drop the handle.  `ok` is false
     exactly where the source panics.  A block already there is absorbed: no second pin.
     */
    method LogWrite(idx: nat, ghost b: nat) returns (ok: bool)
      requires Valid() && idx < cache.bufs.Length && cache.Handle(idx, b) && Home(start, b)
      modifies `lh, cache, cache.lru, cache.lru.inner
      ensures ok <==> !NoSlot(old(lh.len), size) && outstanding >= 1
                      && (b in old(cache.logged) || !NoSpace(old(lh.len), size))
      ensures ok ==> Valid() && cache.logged == old(cache.logged) + {b}
      ensures ok ==> lh == if b in old(cache.logged) then old(lh)
                           else LogHeader(old(lh.len) + 1, old(lh.blocknos)[old(lh.len) := b])
      ensures ok ==> cache.pending == old(cache.pending) && cache.disk == old(cache.disk)
      ensures ok ==> cache.trace == old(cache.trace)
      ensures ok ==> idx < |old(cache.live)| && cache.live == old(cache.live)[idx := old(cache.live)[idx] - 1]
    {
      hide BCache.Valid, NameSet, DistinctNames;
      if lh.len + 1 >= LOGSIZE || lh.len + 1 >= size {
        return false;
      }
      if outstanding < 1 {
        return false;
      }
      var found := InTransaction(cache.lru.inner[idx].blockno);
      ok := true;
      if !found {
        if lh.len + 2 >= LOGSIZE || lh.len + 2 >= size {
          return false;
        }
        cache.Pin(idx);
        NamesAppend(lh, b);
        lh := LogHeader(lh.len + 1, lh.blocknos[lh.len := cache.lru.inner[idx].blockno]);
      }
      cache.Release(idx);
    }

    /** Leave an operation; the last one out commits.  `ok` is false where the source panics. */
    method EndOp() returns (ok: bool)
      requires Valid() && outstanding > 0
      requires outstanding == 1 ==> cache.pending.Keys <= cache.logged
      requires LogOk(start, cache.disk) && Clean(start, cache.disk)
      modifies this, cache, cache.lru, cache.lru.inner, cache.bufs
      ensures old(commiting) ==> !ok
      ensures !old(commiting) && old(outstanding) > 1 ==> ok
      ensures !old(commiting) && |Busy(old(cache.live))| + old(lh.len) + 1 < cache.bufs.Length ==> ok
      ensures !ok ==> old(commiting) || (old(outstanding) == 1 && AllReferenced(cache.lru.inner[..]))
      ensures ok ==> Valid() && outstanding == old(outstanding) - 1 && !commiting && cache.live == old(cache.live)
      ensures ok ==> forall n: nat :: Home(start, n) ==> cache.Sees(n) == old(cache.Sees(n))
      ensures ok ==> LogOk(start, cache.disk) && Clean(start, cache.disk)
      ensures ok && old(outstanding) > 1 ==>
                && cache.disk == old(cache.disk) && cache.trace == old(cache.trace) && lh == old(lh)
                && cache.pending == old(cache.pending) && cache.logged == old(cache.logged)
      ensures ok && old(outstanding) == 1 ==>
                GroupOk(start, old(Open())) && lh.len == 0 && cache.pending == map[] && cache.logged == {}
                && var ws := CommitWrites(start, old(cache.disk), HeaderOf(old(Open()), old(lh.blocknos)), old(Open()));
                cache.disk == Apply(old(cache.disk), ws) && cache.trace == old(cache.trace) + ws
    {
      hide BCache.Valid, NameSet, DistinctNames, LogOk, Clean, GroupOk, PendingGroup, CommitWrites, HeaderOf;
      outstanding := outstanding - 1;
      if commiting {
        return false;
      }
      ok := true;
      if outstanding == 0 {
        commiting := true;
        ok := Commit();
        commiting := false;
      }
    }
  }

  lemma ApplyNone(d: Disk, ws: seq<Write>)
    ensures ws[..0] == [] && Apply(d, ws[..0]) == d
  {
  }

  lemma ApplyTake(d: Disk, ws: seq<Write>, k: nat)
    requires k < |ws|
    ensures ws[..k + 1] == ws[..k] + [ws[k]]
    ensures Apply(d, ws[..k + 1]) == Apply(d, ws[..k])[ws[k].bno := ws[k].data]
  {
    ApplySnoc(d, ws[..k], ws[k]);
    assert ws[..k + 1] == ws[..k] + [ws[k]];
  }

  lemma NameSetSize(ns: seq<nat>)
    requires DistinctNames(ns)
    ensures |NameSet(ns)| == |ns|
  {
    Lru.RangeSize(ns);
    assert NameSet(ns) == Lru.Range(ns);
  }

  lemma LogWritesKeepHome(d: Disk, start: nat, g: Group, k: nat, n: nat)
    requires k <= |g| <= LOGSIZE - 1 && Home(start, n)
    ensures At(Apply(d, LogWrites(start, g)[..k]), n) == At(d, n)
  {
    ApplyUntouched(d, LogWrites(start, g)[..k], n);
  }

  /** Home writes of an install do not reach a log block. */
  lemma InstallKeepsLogBlock(d: Disk, start: nat, h: LogHeader, k: nat, n: nat)
    requires HeaderOk(h) && k <= h.len && !Home(start, n)
    requires forall i :: 0 <= i < h.len ==> Home(start, h.blocknos[i])
    ensures At(Apply(d, Logged(start, d, h)[..k]), n) == At(d, n)
  {
    ApplyUntouched(d, Logged(start, d, h)[..k], n);
  }

  lemma ReplayableNames(start: nat, d: Disk)
    requires LogOk(start, d)
    ensures var h := GetHeader(At(d, start));
            DistinctNames(Names(h)) && forall i :: 0 <= i < h.len ==> Home(start, h.blocknos[i])
  {
    var h := GetHeader(At(d, start));
    var g := InLog(start, d);
    assert forall i :: 0 <= i < h.len ==> g[i].bno == h.blocknos[i];
  }

  /** What the tail of a commit adds to the writes up to the header. */
  lemma CommitTail(start: nat, d: Disk, h: LogHeader, g: Group)
    requires HeaderOk(h) && h.len > 0 && Names(h) == Bnos(g) && GroupOk(start, g) && HeaderOf(g, h.blocknos) == h
    ensures var pre := LogWrites(start, g) + [HeadWrite(start, d, h)];
            var tail := Logged(start, Apply(d, pre), h) + [Write(start, Emptied(At(Apply(d, pre), start)))];
            && CommitWrites(start, d, h, g) == pre + tail
            && Apply(d, CommitWrites(start, d, h, g)) == Apply(Apply(d, pre), tail)
  {
    AfterHead(start, d, g, h.blocknos);
    HeadLanded(start, d, g, h.blocknos);
    var pre := ToHead(start, d, g, h.blocknos);
    assert Logged(start, Apply(d, pre), h) == g;
    ApplyConcat(d, pre, g + [Write(start, Emptied(At(Apply(d, pre), start)))]);
  }

  lemma SeesCommitted(start: nat, d: Disk, p: map<nat, Block>, h: LogHeader)
    requires HeaderOk(h) && DistinctNames(Names(h)) && p.Keys <= NameSet(Names(h))
    requires forall i :: 0 <= i < h.len ==> Home(start, h.blocknos[i])
    requires LogOk(start, d) && Clean(start, d)
    requires var g := PendingGroup(d, p, Names(h)); GroupOk(start, g) && HeaderOf(g, h.blocknos) == h
    ensures var g := PendingGroup(d, p, Names(h));
            forall n: nat :: Home(start, n) ==>
              Current(Apply(d, CommitWrites(start, d, h, g)), map[], n) == Current(d, p, n)
  {
    var g := PendingGroup(d, p, Names(h));
    CommitComplete(start, d, g, h.blocknos);
    SeesInstalled(start, d, p, Names(h));
  }

  // ----- the loops, as values -----

  predicate AllHome(start: nat, h: LogHeader)
    requires HeaderOk(h)
  {
    forall i :: 0 <= i < h.len ==> Home(start, h.blocknos[i])
  }

  /** `write_log` before round `i`, from disk `d0` and trace `t0`. */
  ghost predicate Logging(start: nat, h: LogHeader, i: nat, d0: Disk, p: map<nat, Block>, t0: seq<Write>, d: Disk,
                          t: seq<Write>)
    requires HeaderOk(h)
  {
    && 1 <= i <= h.len + 1
    && var ws := LogWrites(start, PendingGroup(d0, p, Names(h)));
       d == Apply(d0, ws[..i - 1]) && t == t0 + ws[..i - 1]
  }

  lemma LogStart(start: nat, h: LogHeader, d0: Disk, p: map<nat, Block>, t0: seq<Write>)
    requires HeaderOk(h)
    ensures Logging(start, h, 1, d0, p, t0, d0, t0)
  {
    var ws := LogWrites(start, PendingGroup(d0, p, Names(h)));
    ApplyNone(d0, ws);
    assert t0 + ws[..0] == t0;
  }

  lemma LogReady(start: nat, h: LogHeader, i: nat, d0: Disk, p: map<nat, Block>, t0: seq<Write>, d: Disk, t: seq<Write>)
    requires HeaderOk(h) && AllHome(start, h) && i <= h.len && Logging(start, h, i, d0, p, t0, d, t)
    ensures start + i !in NameSet(Names(h)) && h.blocknos[i - 1] in NameSet(Names(h))
    ensures Current(d, p, h.blocknos[i - 1]) == Current(d0, p, h.blocknos[i - 1])
  {
    hide LogWrites, Apply, PendingGroup;
    LogBlockNotNamed(h, start, 0, i);
    assert Names(h)[0..] == Names(h) && Names(h)[i - 1] == h.blocknos[i - 1];
    LogWritesKeepHome(d0, start, PendingGroup(d0, p, Names(h)), i - 1, h.blocknos[i - 1]);
  }

  lemma LogMore(start: nat, h: LogHeader, i: nat, d0: Disk, p: map<nat, Block>, t0: seq<Write>, d: Disk, t: seq<Write>)
    requires HeaderOk(h) && AllHome(start, h) && i <= h.len && Logging(start, h, i, d0, p, t0, d, t)
    ensures var w := Write(start + i, Current(d, p, h.blocknos[i - 1]));
            Logging(start, h, i + 1, d0, p, t0, d[w.bno := w.data], t + [w])
  {
    hide Apply;
    LogReady(start, h, i, d0, p, t0, d, t);
    ApplyTake(d0, LogWrites(start, PendingGroup(d0, p, Names(h))), i - 1);
  }

  lemma LogDone(start: nat, h: LogHeader, d0: Disk, p: map<nat, Block>, t0: seq<Write>, d: Disk, t: seq<Write>)
    requires HeaderOk(h) && Logging(start, h, h.len + 1, d0, p, t0, d, t)
    ensures var ws := LogWrites(start, PendingGroup(d0, p, Names(h)));
            d == Apply(d0, ws) && t == t0 + ws
  {
    var ws := LogWrites(start, PendingGroup(d0, p, Names(h)));
    assert ws[..h.len] == ws;
  }

  /** `install_trans` before round `i`, from disk `d0` and trace `t0`. */
  ghost predicate Installing(start: nat, h: LogHeader, i: nat, recovering: bool, d0: Disk, t0: seq<Write>,
                             d: Disk, t: seq<Write>, p: map<nat, Block>, l: set<nat>)
    requires HeaderOk(h)
  {
    && 1 <= i <= h.len + 1
    && d == Apply(d0, Logged(start, d0, h)[..i - 1]) && t == t0 + Logged(start, d0, h)[..i - 1]
    && p.Keys <= NameSet(Names(h)[i - 1..])
    && l == if recovering then {} else NameSet(Names(h)[i - 1..])
  }

  lemma InstallStart(start: nat, h: LogHeader, recovering: bool, d0: Disk, t0: seq<Write>, p: map<nat, Block>,
                     l: set<nat>)
    requires HeaderOk(h) && p.Keys <= NameSet(Names(h)) && l == if recovering then {} else NameSet(Names(h))
    ensures Installing(start, h, 1, recovering, d0, t0, d0, t0, p, l)
  {
    ApplyNone(d0, Logged(start, d0, h));
    assert Names(h)[0..] == Names(h) && t0 + Logged(start, d0, h)[..0] == t0;
  }

  lemma InstallReady(start: nat, h: LogHeader, i: nat, recovering: bool, d0: Disk, t0: seq<Write>,
                     d: Disk, t: seq<Write>, p: map<nat, Block>, l: set<nat>)
    requires HeaderOk(h) && DistinctNames(Names(h)) && AllHome(start, h) && i <= h.len
    requires Installing(start, h, i, recovering, d0, t0, d, t, p, l)
    ensures start + i !in p && start + i != h.blocknos[i - 1] && (!recovering ==> h.blocknos[i - 1] in l)
    ensures |l| <= (if recovering then 0 else h.len)
    ensures At(d, start + i) == At(d0, start + i)
  {
    hide Apply, Logged, NameSet, DistinctNames;
    LogBlockNotNamed(h, start, i - 1, i);
    InstallKeepsLogBlock(d0, start, h, i - 1, start + i);
    NamesStep(Names(h), i - 1);
    NameSetSize(Names(h)[i - 1..]);
  }

  lemma InstallMore(start: nat, h: LogHeader, i: nat, recovering: bool, d0: Disk, t0: seq<Write>,
                    d: Disk, t: seq<Write>, p: map<nat, Block>, l: set<nat>)
    requires HeaderOk(h) && DistinctNames(Names(h)) && AllHome(start, h) && i <= h.len
    requires Installing(start, h, i, recovering, d0, t0, d, t, p, l)
    ensures var w := Write(h.blocknos[i - 1], At(d, start + i));
            Installing(start, h, i + 1, recovering, d0, t0, d[w.bno := w.data], t + [w], p - {w.bno},
                       if recovering then l else l - {w.bno})
  {
    hide Apply, NameSet;
    InstallReady(start, h, i, recovering, d0, t0, d, t, p, l);
    NamesStep(Names(h), i - 1);
    ApplyTake(d0, Logged(start, d0, h), i - 1);
    assert Logged(start, d0, h)[i - 1] == Write(h.blocknos[i - 1], At(d0, start + i));
  }

  lemma InstallDone(start: nat, h: LogHeader, recovering: bool, d0: Disk, t0: seq<Write>,
                    d: Disk, t: seq<Write>, p: map<nat, Block>, l: set<nat>)
    requires HeaderOk(h) && Installing(start, h, h.len + 1, recovering, d0, t0, d, t, p, l)
    ensures d == Apply(d0, Logged(start, d0, h)) && t == t0 + Logged(start, d0, h) && p == map[] && l == {}
  {
    assert Logged(start, d0, h)[..h.len] == Logged(start, d0, h);
    assert Names(h)[h.len..] == [];
    assert p == map[];
  }

  lemma NoneIsOpen(h: LogHeader)
    requires HeaderOk(h)
    ensures NameSet(Names(h.(len := 0))) == {} && DistinctNames(Names(h.(len := 0)))
    ensures h.len == 0 ==> NameSet(Names(h)) == {}
  {
  }

  lemma OpenGroupOk(start: nat, d: Disk, p: map<nat, Block>, h: LogHeader)
    requires HeaderOk(h) && DistinctNames(Names(h))
    requires forall i :: 0 <= i < h.len ==> Home(start, h.blocknos[i])
    ensures var g := PendingGroup(d, p, Names(h));
            GroupOk(start, g) && Bnos(g) == Names(h) && HeaderOf(g, h.blocknos) == h
  {
    var g := PendingGroup(d, p, Names(h));
    assert Bnos(g) == Names(h);
    assert h.blocknos == h.blocknos[..h.len] + h.blocknos[h.len..];
  }

  /** Installing the open group on disk shows readers what the cache showed them. */
  lemma SeesInstalled(start: nat, d: Disk, p: map<nat, Block>, ns: seq<nat>)
    requires DistinctNames(ns) && p.Keys <= NameSet(ns)
    ensures forall n: nat :: At(Apply(d, PendingGroup(d, p, ns)), n) == Current(d, p, n)
  {
    var g := PendingGroup(d, p, ns);
    forall n: nat ensures At(Apply(d, g), n) == Current(d, p, n) {
      if k :| 0 <= k < |ns| && ns[k] == n {
        ApplyLast(d, g, k);
      } else {
        ApplyUntouched(d, g, n);
      }
    }
  }

  lemma NamesAppend(h: LogHeader, b: nat)
    requires HeaderOk(h) && h.len < LOGSIZE - 1 && b !in NameSet(Names(h)) && DistinctNames(Names(h))
    ensures var r := LogHeader(h.len + 1, h.blocknos[h.len := b]);
            && Names(r) == Names(h) + [b]
            && DistinctNames(Names(r)) && NameSet(Names(r)) == NameSet(Names(h)) + {b}
  {
  }

  lemma LogBlockNotNamed(h: LogHeader, start: nat, k: nat, i: nat)
    requires HeaderOk(h) && k <= h.len && i < LOGSIZE
    requires forall i :: 0 <= i < h.len ==> Home(start, h.blocknos[i])
    ensures !Home(start, start + i)
    ensures start + i !in NameSet(Names(h)[k..])
    ensures forall j :: 0 <= j < h.len ==> h.blocknos[j] != start + i
  {
  }

  lemma NamesStep(ns: seq<nat>, k: nat)
    requires DistinctNames(ns) && k < |ns|
    ensures DistinctNames(ns[k..]) && ns[k] in NameSet(ns[k..])
    ensures NameSet(ns[k..]) - {ns[k]} == NameSet(ns[k + 1..])
  {
    assert ns[k..] == [ns[k]] + ns[k + 1..];
  }

  lemma FirstRoom(c: Snap)
    requires c.Coherent()
    ensures |Busy(c.live)| + |c.logged| < |c.ctrl| ==> !AllReferenced(c.ctrl)
  {
    if AllReferenced(c.ctrl) {
      RoomToRecycle(c);
    }
  }

  lemma SecondRoom(c: Snap, was: seq<nat>, a: nat, second: nat)
    requires c.Coherent() && a < |was| && c.live == was[a := was[a] + 1]
    ensures second in c.logged ==> second in c.slot
    ensures |Busy(was)| + |c.logged| + 1 < |c.ctrl| ==> !AllReferenced(c.ctrl)
  {
    assert Busy(c.live) == Busy(was) + {a};
    if AllReferenced(c.ctrl) {
      RoomToRecycle(c);
    }
  }
}
