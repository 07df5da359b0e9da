/**
 The log in use: any sequence of operations on the class is a run of the crash theory, and
 what readers see is what the operations wrote.
 */
module LogSessions {
  import opened LogFormat
  import opened LogRuns
  import opened BufferCache
  import A = LogAdmission
  import opened WriteAheadLog

  /** What file-system code does: enter an operation, change a block in it, leave it. */
  datatype Op = Begin | Put(b: nat, data: Block) | End

  /** `Refused`: `begin_op` would sleep here. */
  datatype Ending = Finished | Refused | Panicked

  /** What block `n` holds after the operations, having held `was`. */
  function Latest(ops: seq<Op>, n: nat, was: Block): Block {
    if ops == [] then was
    else
      var last := ops[|ops| - 1];
      if last.Put? && last.b == n then last.data else Latest(ops[..|ops| - 1], n, was)
  }

  predicate AllHomeOps(start: nat, ops: seq<Op>) {
    forall i :: 0 <= i < |ops| && ops[i].Put? ==> Home(start, ops[i].b)
  }

  /** Up and running: nothing is changed outside the open transaction, and none is open without an operation. */
  ghost predicate Ready(log: Log)
    reads log, log.cache, log.cache.lru, log.cache.lru.inner, log.cache.bufs
  {
    && log.Valid() && !log.commiting && LogOk(log.start, log.cache.disk) && Clean(log.start, log.cache.disk)
    && log.cache.pending.Keys <= log.cache.logged && (log.outstanding == 0 ==> log.cache.pending == map[])
    && log.lh.len <= LOGSIZE - 2
  }

  /** The open transaction: how many operations are in it, and which blocks. */
  datatype Tx = Tx(open: nat, blocks: set<nat>)

  function TxNext(t: Tx, op: Op): Tx {
    match op
    case Begin => t.(open := t.open + 1)
    case Put(b, _) => t.(blocks := t.blocks + {b})
    case End => if t.open <= 1 then Tx(0, {}) else t.(open := t.open - 1)
  }

  /** How an operation ends, buffers aside. */
  function EndingOf(t: Tx, size: nat, op: Op): Ending {
    match op
    case Begin => if A.Admits(false, |t.blocks|, t.open) then Finished else Refused
    case Put(b, _) =>
      if t.open == 0 || A.NoSlot(|t.blocks|, size) || (b !in t.blocks && A.NoSpace(|t.blocks|, size)) then Panicked
      else Finished
    case End => if t.open == 0 then Panicked else Finished
  }

  /** How a sequence ends, and after how many operations. */
  function Outcome(t: Tx, size: nat, ops: seq<Op>): (r: (Ending, nat))
    ensures r.1 <= |ops|
    decreases |ops|
  {
    if ops == [] then (Finished, 0)
    else if EndingOf(t, size, ops[0]) != Finished then (EndingOf(t, size, ops[0]), 0)
    else
      var r := Outcome(TxNext(t, ops[0]), size, ops[1..]);
      (r.0, r.1 + 1)
  }

  ghost function TxOf(log: Log): Tx
    reads log, log.cache
  {
    Tx(log.outstanding, log.cache.logged)
  }

  /** Slots for a full log besides those held: with none held, the kernel's thirty. */
  ghost predicate Roomy(log: Log)
    reads log.cache
  {
    |Busy(log.cache.live)| + LOGSIZE <= log.cache.bufs.Length
  }

  lemma LogSize(log: Log)
    requires Ready(log)
    ensures |log.cache.logged| == log.lh.len <= LOGSIZE - 2
  {
    hide BCache.Valid, LogOk, Clean, DistinctNames, NameSet;
    NameSetSize(Names(log.lh));
  }

  lemma RoomForOne(log: Log)
    requires Ready(log) && Roomy(log)
    ensures !AllReferenced(log.cache.lru.inner[..])
  {
    hide LogOk, Clean, Busy, AllReferenced, Snap.Coherent;
    LogSize(log);
    FirstRoom(log.cache.Snapshot());
  }

  lemma EndsSooner(t: Tx, size: nat, ops: seq<Op>, i: nat)
    requires i < |ops|
    ensures var e := EndingOf(t, size, ops[i]);
            Outcome(t, size, ops[i..])
            == if e != Finished then (e, 0)
               else
                 var r := Outcome(TxNext(t, ops[i]), size, ops[i + 1..]);
                 (r.0, r.1 + 1)
  {
    assert ops[i..][0] == ops[i] && ops[i..][1..] == ops[i + 1..];
  }

  /** Change one block inside an operation. */
  method PutBlock(log: Log, b: nat, data: Block) returns (ok: bool)
    requires Ready(log) && Home(log.start, b)
    modifies log, log.cache, log.cache.lru, log.cache.lru.inner, log.cache.bufs
    ensures ok ==> Ready(log) && log.outstanding == old(log.outstanding) > 0
    ensures ok ==> log.cache.disk == old(log.cache.disk) && log.cache.trace == old(log.cache.trace)
    ensures ok ==> log.cache.pending == old(log.cache.pending)[b := data] && log.cache.live == old(log.cache.live)
    ensures ok ==> log.cache.logged == old(log.cache.logged) + {b}
    ensures ok ==> EndingOf(old(TxOf(log)), log.size, Put(b, data)) == Finished
    ensures !ok ==>
              || EndingOf(old(TxOf(log)), log.size, Put(b, data)) == Panicked
              || (!old(Roomy(log)) && AllReferenced(log.cache.lru.inner[..]))
  {
    hide BCache.Valid, LogOk, Clean, DistinctNames, NameSet, Roomy, AllReferenced;
    LogSize(log);
    if Roomy(log) {
      RoomForOne(log);
    }
    var idx;
    ok, idx := log.cache.Read(b);
    if ok {
      log.cache.SetData(idx, data);
      ok := log.LogWrite(idx, b);
    }
  }

  method DoOp(log: Log, op: Op, ghost s: State) returns (e: Ending, ghost evs: seq<Event>, ghost t: State)
    requires Ready(log) && (op.Put? ==> Home(log.start, op.b)) && s.up && s.disk == log.cache.disk
    modifies log, log.cache, log.cache.lru, log.cache.lru.inner, log.cache.bufs
    ensures e != Panicked ==> Ready(log) && t.up && t.disk == log.cache.disk
    ensures e != Panicked ==> old(log.cache.trace) <= log.cache.trace
    ensures e != Panicked ==> Traces(log.start, s, evs, t, log.cache.trace[|old(log.cache.trace)|..])
    ensures e != Panicked ==> log.cache.live == old(log.cache.live)
    ensures e == EndingOf(old(TxOf(log)), log.size, op)
            || (e == Panicked && !old(Roomy(log)) && AllReferenced(log.cache.lru.inner[..]))
    ensures e == Finished ==> TxOf(log) == TxNext(old(TxOf(log)), op)
    ensures e == Finished ==>
              forall n: nat :: Home(log.start, n) ==> log.cache.Sees(n) == Latest([op], n, old(log.cache.Sees(n)))
    ensures e == Refused ==>
              op.Begin? && forall n: nat :: Home(log.start, n) ==> log.cache.Sees(n) == old(log.cache.Sees(n))
  {
    hide BCache.Valid, LogOk, Clean, GroupOk, Traces, CommitWrites, HeaderOf, Apply, PendingGroup, DistinctNames,
         NameSet, AllReferenced, Busy;
    LogSize(log);
    evs, t := [], s;
    NoEvents(log.start, s, log.cache.trace);
    e := Finished;
    match op
    case Begin =>
      var admitted := log.TryBegin();
      e := if admitted then Finished else Refused;
    case Put(b, data) =>
      var ok := PutBlock(log, b, data);
      e := if ok then Finished else Panicked;
    case End =>
      if log.outstanding == 0 {
        return Panicked, evs, t;
      }
      ghost var was := log.cache.trace;
      ghost var g, stale, last := log.Open(), log.lh.blocknos, log.outstanding == 1;
      var ok := log.EndOp();
      if !ok {
        return Panicked, evs, t;
      }
      if last {
        evs := [Commit(g, stale)];
        t := Next(log.start, s, evs[0]);
        TracesOne(log.start, s, evs[0]);
        assert log.cache.trace[|was|..] == Writes(log.start, s, evs[0]);
      }
  }

  lemma NoEvents(start: nat, s: State, trace: seq<Write>)
    ensures Traces(start, s, [], s, trace[|trace|..])
  {
  }

  lemma LatestMore(ops: seq<Op>, i: nat, n: nat, was: Block)
    requires i < |ops|
    ensures Latest(ops[..i + 1], n, was) == Latest([ops[i]], n, Latest(ops[..i], n, was))
  {
    assert ops[..i + 1][..i] == ops[..i];
    assert [ops[i]][..0] == [];
  }

  /**
   Any operations, up to one that waits or panics: the block writes made are those of a run of
   commits, home blocks read as last written, and with no operation open so they are on disk.
   */
  method Serve(log: Log, ops: seq<Op>, ghost s0: State)
    returns (e: Ending, n: nat, ghost evs: seq<Event>, ghost s: State)
    requires Ready(log) && AllHomeOps(log.start, ops) && s0.up && s0.disk == log.cache.disk
    modifies log, log.cache, log.cache.lru, log.cache.lru.inner, log.cache.bufs
    ensures n <= |ops| && (e == Finished <==> n == |ops|) && (e == Refused ==> ops[n].Begin?)
    ensures (e, n) == Outcome(old(TxOf(log)), log.size, ops)
            || (e == Panicked && !old(Roomy(log)) && AllReferenced(log.cache.lru.inner[..]))
    ensures e != Panicked ==> Ready(log) && s.up && s.disk == log.cache.disk
    ensures e != Panicked ==> old(log.cache.trace) <= log.cache.trace
    ensures e != Panicked ==> Traces(log.start, s0, evs, s, log.cache.trace[|old(log.cache.trace)|..])
    ensures e != Panicked ==>
              forall b: nat :: Home(log.start, b) ==>
                                 log.cache.Sees(b) == Latest(ops[..n], b, old(log.cache.Sees(b)))
    ensures e != Panicked && log.outstanding == 0 ==>
              forall b: nat :: Home(log.start, b) ==>
                                 At(log.cache.disk, b) == Latest(ops[..n], b, old(log.cache.Sees(b)))
  {
    hide Ready, Traces, Latest, BCache.Sees, EndingOf, TxNext, TxOf, Outcome, AllReferenced, Busy;
    assert ops[0..] == ops;
    evs, s := [], s0;
    n := 0;
    NoEvents(log.start, s0, log.cache.trace);
    SeesNow(log);
    ghost var was := log.cache.trace;
    LatestNone(log, ops);
    while n < |ops|
      invariant 0 <= n <= |ops| && Ready(log) && s.up && s.disk == log.cache.disk
      invariant log.cache.live == old(log.cache.live)
      invariant var r := Outcome(TxOf(log), log.size, ops[n..]);
                Outcome(old(TxOf(log)), log.size, ops) == (r.0, r.1 + n)
      invariant was <= log.cache.trace && Traces(log.start, s0, evs, s, log.cache.trace[|was|..])
      invariant forall b: nat :: Home(log.start, b) ==>
                                   log.cache.Sees(b) == Latest(ops[..n], b, old(log.cache.Sees(b)))
    {
      ghost var mid, more, t := log.cache.trace, [], s;
      EndsSooner(TxOf(log), log.size, ops, n);
      e, more, t := DoOp(log, ops[n], s);
      if e == Panicked {
        return;
      }
      TracesConcat(log.start, s0, evs, s, mid[|was|..], more, t, log.cache.trace[|mid|..]);
      assert mid[|was|..] + log.cache.trace[|mid|..] == log.cache.trace[|was|..];
      evs, s := evs + more, t;
      if e == Refused {
        SeesNow(log);
        return;
      }
      forall b: nat | Home(log.start, b)
        ensures log.cache.Sees(b) == Latest(ops[..n + 1], b, old(log.cache.Sees(b)))
      {
        LatestMore(ops, n, b, old(log.cache.Sees(b)));
      }
      n := n + 1;
    }
    SeesNow(log);
    NoOps(TxOf(log), log.size, ops);
    e := Finished;
  }

  lemma NoOps(t: Tx, size: nat, ops: seq<Op>)
    ensures Outcome(t, size, ops[|ops|..]) == (Finished, 0)
  {
  }

  lemma LatestNone(log: Log, ops: seq<Op>)
    ensures forall b: nat :: log.cache.Sees(b) == Latest(ops[..0], b, log.cache.Sees(b))
  {
  }

  /** With no operation open, readers see the disk. */
  lemma SeesNow(log: Log)
    requires Ready(log)
    ensures log.outstanding == 0 ==> forall b: nat :: log.cache.Sees(b) == At(log.cache.disk, b)
  {
  }

  /** Boot: recover, then serve.  The two together are one run from the disk as it was found. */
  method Boot(log: Log, ops: seq<Op>, ghost landed: seq<Group>)
    returns (e: Ending, n: nat, ghost evs: seq<Event>, ghost s: State)
    requires log.cache.Valid() && log.cache.logged == {} && log.cache.pending == map[]
    requires log.outstanding == 0 && !log.commiting && LogOk(log.start, log.cache.disk) && AllHomeOps(log.start, ops)
    modifies log, log.cache, log.cache.lru, log.cache.lru.inner, log.cache.bufs
    ensures n <= |ops|
    ensures (e, n) == Outcome(Tx(0, {}), log.size, ops)
            || (e == Panicked && !old(Roomy(log)) && AllReferenced(log.cache.lru.inner[..]))
    ensures e != Panicked ==> Ready(log) && s.up && s.disk == log.cache.disk
    ensures e != Panicked ==> old(log.cache.trace) <= log.cache.trace
    ensures e != Panicked ==>
              Traces(log.start, State(old(log.cache.disk), false, landed), evs, s,
                     log.cache.trace[|old(log.cache.trace)|..])
    ensures e != Panicked ==>
              forall b: nat :: Home(log.start, b) ==>
                                 log.cache.Sees(b)
                                 == Latest(ops[..n], b, At(Recovered(log.start, old(log.cache.disk)), b))
  {
    hide BCache.Valid, LogOk, Clean, Traces, Latest, Recovered, RecoverWrites, DistinctNames, NameSet;
    ghost var d, was := log.cache.disk, log.cache.trace;
    ghost var s0 := State(d, false, landed);
    var ok := log.Recover();
    if !ok {
      return Panicked, 0, [], s0;
    }
    RecoveredIsInstall(log.start, d);
    TracesOne(log.start, s0, Recovery);
    ghost var mid, up := log.cache.trace, Next(log.start, s0, Recovery);
    assert mid[|was|..] == Writes(log.start, s0, Recovery);
    e, n, evs, s := Serve(log, ops, up);
    if e != Panicked {
      TracesConcat(log.start, s0, [Recovery], up, mid[|was|..], evs, s, log.cache.trace[|mid|..]);
      assert mid[|was|..] + log.cache.trace[|mid|..] == log.cache.trace[|was|..];
      evs := [Recovery] + evs;
    }
  }
}
