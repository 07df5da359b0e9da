/**
 Admission to the log: which operations may start, who sleeps, and when the log can
 run out of space, over every run of any number of processes.
 */
module LogAdmission {
  import opened LogFormat

  // ----- the tests of the source -----

  /** `begin_op` lets an operation in. */
  predicate Admits(commiting: bool, len: nat, outstanding: nat) {
    !commiting && 1 + len + (outstanding + 1) * MAXOPBLOCKS <= LOGSIZE
  }

  /** The first space panic of `write`, taken for any block. */
  predicate NoSlot(len: nat, size: nat) {
    len + 1 >= LOGSIZE || len + 1 >= size
  }

  /** The second space panic of `write`, taken for a block not yet in the transaction. */
  predicate NoSpace(len: nat, size: nat) {
    len + 2 >= LOGSIZE || len + 2 >= size
  }

  // ----- the protocol -----

  /**
   `ops` maps each process inside an operation to the blocks it may still log; the
   source's `outstanding` is its size.  `sleepers` sleep on the log's channel.
   */
  datatype State = State(ops: map<nat, nat>, commiting: bool, len: nat, sleepers: set<nat>)

  datatype Event =
    | Begin(p: nat)
    | Sleep(p: nat)
    | LogNew(p: nat)
    | Absorb(p: nat)
    | End(p: nat)
    | CommitDone

  predicate Enabled(s: State, e: Event) {
    match e
    case Begin(p) => p !in s.ops && p !in s.sleepers && Admits(s.commiting, s.len, |s.ops|)
    case Sleep(p) => p !in s.ops && p !in s.sleepers && !Admits(s.commiting, s.len, |s.ops|)
    case LogNew(p) => p in s.ops && s.ops[p] > 0 && !NoSlot(s.len, LOGSIZE) && !NoSpace(s.len, LOGSIZE)
    case Absorb(p) => p in s.ops && !NoSlot(s.len, LOGSIZE)
    case End(p) => p in s.ops && !s.commiting
    case CommitDone => s.commiting
  }

  function Next(s: State, e: Event): State
    requires Enabled(s, e)
  {
    match e
    case Begin(p) => s.(ops := s.ops[p := MAXOPBLOCKS])
    case Sleep(p) => s.(sleepers := s.sleepers + {p})
    case LogNew(p) => s.(ops := s.ops[p := s.ops[p] - 1], len := s.len + 1)
    case Absorb(p) => s
    case End(p) =>
      var ops := s.ops - {p};
      if ops == map[] then s.(ops := ops, commiting := true)
      else s.(ops := ops, sleepers := {})
    case CommitDone => s.(commiting := false, len := 0, sleepers := {})
  }

  const INIT := State(map[], false, 0, {})

  ghost predicate Reaches(s0: State, es: seq<Event>, s: State)
    decreases |es|
  {
    if es == [] then s == s0
    else Enabled(s0, es[0]) && Reaches(Next(s0, es[0]), es[1..], s)
  }

  // ----- budgets -----

  ghost function Sum(m: map<nat, nat>): nat
    decreases |m|
  {
    if m == map[] then 0
    else
      var p :| p in m;
      m[p] + Sum(m - {p})
  }

  /** The sum may be taken in any order. */
  lemma {:induction false} SumRemove(m: map<nat, nat>, p: nat)
    requires p in m
    ensures Sum(m) == m[p] + Sum(m - {p})
    decreases |m|
  {
    var q :| q in m && Sum(m) == m[q] + Sum(m - {q});
    if q != p {
      SumRemove(m - {q}, p);
      SumRemove(m - {p}, q);
      assert m - {q} - {p} == m - {p} - {q};
    }
  }

  lemma SumNone()
    ensures Sum(map[]) == 0
  {
  }

  lemma SumSet(m: map<nat, nat>, p: nat, v: nat)
    ensures Sum(m[p := v]) == v + Sum(m - {p})
  {
    SumRemove(m[p := v], p);
    assert m[p := v] - {p} == m - {p};
  }

  // ----- what every reachable state keeps -----

  ghost predicate Inv(s: State) {
    && (s.commiting ==> s.ops == map[])
    && s.len + Sum(s.ops) <= LOGSIZE - 1
    && s.len <= LOGSIZE - 2
    && (forall p :: p in s.ops ==> s.ops[p] <= MAXOPBLOCKS)
    && (s.sleepers != {} ==> !Admits(s.commiting, s.len, |s.ops|))
  }

  lemma {:induction false} SumBound(m: map<nat, nat>)
    requires forall p :: p in m ==> m[p] <= MAXOPBLOCKS
    ensures Sum(m) <= |m| * MAXOPBLOCKS
    decreases |m|
  {
    if m != map[] {
      var q :| q in m && Sum(m) == m[q] + Sum(m - {q});
      SumBound(m - {q});
      assert |m - {q}| == |m| - 1;
    }
  }

  lemma BeginStep(s: State, p: nat)
    requires Inv(s) && Enabled(s, Begin(p))
    ensures Inv(Next(s, Begin(p)))
  {
    hide Sum;
    SumSet(s.ops, p, MAXOPBLOCKS);
    assert s.ops - {p} == s.ops;
    SumBound(s.ops);
  }

  lemma LogStep(s: State, p: nat)
    requires Inv(s) && Enabled(s, LogNew(p))
    ensures Inv(Next(s, LogNew(p)))
  {
    hide Sum;
    SumSet(s.ops, p, s.ops[p] - 1);
    SumRemove(s.ops, p);
    var ops := s.ops[p := s.ops[p] - 1];
    assert ops.Keys == s.ops.Keys;
    assert |ops| == |ops.Keys| && |s.ops| == |s.ops.Keys|;
  }

  lemma EndStep(s: State, p: nat)
    requires Inv(s) && Enabled(s, End(p))
    ensures Inv(Next(s, End(p)))
  {
    hide Sum;
    SumRemove(s.ops, p);
    assert p in s.ops && s.ops != map[];
  }

  lemma InvStep(s: State, e: Event)
    requires Inv(s) && Enabled(s, e)
    ensures Inv(Next(s, e))
  {
    match e
    case Begin(p) => BeginStep(s, p);
    case LogNew(p) => LogStep(s, p);
    case End(p) => EndStep(s, p);
    case _ =>
  }

  lemma {:induction false} InvReaches(s0: State, es: seq<Event>, s: State)
    requires Inv(s0) && Reaches(s0, es, s)
    ensures Inv(s)
    decreases |es|
  {
    if es != [] {
      InvStep(s0, es[0]);
      InvReaches(Next(s0, es[0]), es[1..], s);
    }
  }

  // ----- the same, read off the events alone -----

  function Last(es: seq<Event>): Event
    requires es != []
  {
    es[|es| - 1]
  }

  function Init(es: seq<Event>): seq<Event>
    requires es != []
  {
    es[..|es| - 1]
  }

  /** Who has begun an operation and not ended it. */
  function Opened(es: seq<Event>): set<nat> {
    if es == [] then {}
    else if Last(es).Begin? then Opened(Init(es)) + {Last(es).p}
    else if Last(es).End? then Opened(Init(es)) - {Last(es).p}
    else Opened(Init(es))
  }

  /** The last operation out starts a commit, which runs until it is done. */
  predicate Committing(es: seq<Event>) {
    if es == [] then false
    else if Last(es).CommitDone? then false
    else if Last(es).End? then Opened(es) == {} || Committing(Init(es))
    else Committing(Init(es))
  }

  /** Blocks logged since the last commit was done. */
  function Count(es: seq<Event>): nat {
    if es == [] || Last(es).CommitDone? then 0
    else if Last(es).LogNew? then Count(Init(es)) + 1
    else Count(Init(es))
  }

  /** Blocks logged by `p` since it began. */
  function Spent(es: seq<Event>, p: nat): nat {
    if es == [] || Last(es) == Begin(p) then 0
    else if Last(es) == LogNew(p) then Spent(Init(es), p) + 1
    else Spent(Init(es), p)
  }

  /** Who went to sleep and has not been woken: by an operation ended that was not the last, or a commit done. */
  function Asleep(es: seq<Event>): set<nat> {
    if es == [] || Last(es).CommitDone? then {}
    else if Last(es).Sleep? then Asleep(Init(es)) + {Last(es).p}
    else if Last(es).End? && Opened(es) != {} then {}
    else Asleep(Init(es))
  }

  predicate Reads(es: seq<Event>, s: State) {
    && s.ops.Keys == Opened(es) && s.commiting == Committing(es) && s.len == Count(es) && s.sleepers == Asleep(es)
    && forall p :: p in s.ops ==> s.ops[p] + Spent(es, p) == MAXOPBLOCKS
  }

  /** One event more. */
  lemma OneMore(es: seq<Event>, e: Event)
    ensures Opened(es + [e])
         == if e.Begin? then Opened(es) + {e.p} else if e.End? then Opened(es) - {e.p} else Opened(es)
    ensures Count(es + [e]) == if e.CommitDone? then 0 else if e.LogNew? then Count(es) + 1 else Count(es)
    ensures Committing(es + [e])
       <==> !e.CommitDone? && (Committing(es) || (e.End? && Opened(es + [e]) == {}))
    ensures Asleep(es + [e])
         == if e.CommitDone? || (e.End? && Opened(es + [e]) != {}) then {}
            else if e.Sleep? then Asleep(es) + {e.p} else Asleep(es)
  {
    assert Init(es + [e]) == es && Last(es + [e]) == e;
  }

  lemma SpentMore(es: seq<Event>, e: Event, p: nat)
    ensures Spent(es + [e], p) == if e == Begin(p) then 0 else if e == LogNew(p) then Spent(es, p) + 1 else Spent(es, p)
  {
    assert Init(es + [e]) == es && Last(es + [e]) == e;
  }

  lemma OpsStep(es: seq<Event>, s: State, e: Event)
    requires Enabled(s, e) && s.ops.Keys == Opened(es)
    ensures Next(s, e).ops.Keys == Opened(es + [e]) && (Next(s, e).ops == map[] <==> Opened(es + [e]) == {})
  {
    hide Opened, Count, Committing, Asleep;
    var t := Next(s, e);
    OneMore(es, e);
    if e.End? {
      assert t.ops.Keys == s.ops.Keys - {e.p};
    }
    assert t.ops == map[] <==> t.ops.Keys == {};
  }

  lemma BudgetStep(es: seq<Event>, s: State, e: Event, p: nat)
    requires Enabled(s, e) && p in Next(s, e).ops && (p in s.ops ==> s.ops[p] + Spent(es, p) == MAXOPBLOCKS)
    ensures Next(s, e).ops[p] + Spent(es + [e], p) == MAXOPBLOCKS
  {
    hide Spent;
    SpentMore(es, e, p);
  }

  lemma ReadsStep(es: seq<Event>, s: State, e: Event)
    requires Inv(s) && Enabled(s, e) && Reads(es, s)
    ensures Reads(es + [e], Next(s, e))
  {
    hide Opened, Count, Committing, Asleep, Spent, Inv;
    OneMore(es, e);
    OpsStep(es, s, e);
    forall p | p in Next(s, e).ops ensures Next(s, e).ops[p] + Spent(es + [e], p) == MAXOPBLOCKS {
      BudgetStep(es, s, e, p);
    }
    if e.End? {
      assert Next(s, e).ops == s.ops - {e.p};
    }
  }

  lemma {:induction false} LastEvent(s0: State, es: seq<Event>, s: State) returns (mid: State)
    requires Inv(s0) && Reaches(s0, es, s) && es != []
    ensures Reaches(s0, Init(es), mid) && Inv(mid) && Enabled(mid, Last(es)) && s == Next(mid, Last(es))
    decreases |es|
  {
    hide Inv, Enabled, Next;
    if |es| == 1 {
      mid := s0;
    } else {
      InvStep(s0, es[0]);
      mid := LastEvent(Next(s0, es[0]), es[1..], s);
      assert Init(es)[1..] == Init(es[1..]);
    }
  }

  lemma {:induction false} AllReads(es: seq<Event>, s: State)
    requires Reaches(INIT, es, s) && Inv(INIT)
    ensures Reads(es, s)
    decreases |es|
  {
    hide Inv, Enabled, Next, Reaches, Reads;
    if es == [] {
      ReadsInit(s);
    } else {
      var mid := LastEvent(INIT, es, s);
      AllReads(Init(es), mid);
      ReadsStep(Init(es), mid, Last(es));
      assert Init(es) + [Last(es)] == es;
    }
  }

  lemma ReadsInit(s: State)
    requires Reaches(INIT, [], s)
    ensures Reads([], s)
  {
  }

  /**
   In every run: a commit excludes operations; the log and the budgets still unspent fit in
   LOGSIZE-1; whoever sleeps on the log would still be refused; the first space panic of
   `write` is out of reach; and a write within its budget meets the second one exactly when
   the log holds LOGSIZE-2 blocks.
   */
  lemma Admission(es: seq<Event>, s: State)
    requires Reaches(INIT, es, s)
    ensures Reads(es, s)
    ensures Committing(es) ==> Opened(es) == {}
    ensures s.len + Sum(s.ops) <= LOGSIZE - 1
    ensures Asleep(es) != {} ==> !Admits(Committing(es), Count(es), |Opened(es)|)
    ensures !NoSlot(Count(es), LOGSIZE)
    ensures forall p :: p in Opened(es) && Spent(es, p) < MAXOPBLOCKS ==>
                          (Enabled(s, LogNew(p)) <==> Count(es) != LOGSIZE - 2)
  {
    hide Reaches, Opened, Count, Committing, Asleep, Spent, Sum;
    SumNone();
    InvReaches(INIT, es, s);
    AllReads(es, s);
    assert |s.ops.Keys| == |s.ops|;
    forall p | p in s.ops && s.ops[p] > 0 ensures Enabled(s, LogNew(p)) <==> s.len != LOGSIZE - 2 {
      SumRemove(s.ops, p);
    }
  }

  /**
   Which calls can be answered how, from the events so far alone: an operation begins exactly when ten
   blocks for it and for each one open fit in 29 with those logged, and sleeps otherwise; one that is open can always
   absorb and end, and can log a new block while it has spent fewer than ten and 28 are not reached.
   */
  lemma Possible(es: seq<Event>, s: State, p: nat)
    requires Reaches(INIT, es, s)
    ensures Enabled(s, Begin(p)) <==>
            p !in Opened(es) && p !in Asleep(es) && !Committing(es) && Count(es) + 10 * (|Opened(es)| + 1) < 30
    ensures Enabled(s, Sleep(p)) <==>
            p !in Opened(es) && p !in Asleep(es) && (Committing(es) || Count(es) + 10 * (|Opened(es)| + 1) >= 30)
    ensures Enabled(s, LogNew(p)) <==> p in Opened(es) && Spent(es, p) < 10 && Count(es) < 28
    ensures Enabled(s, Absorb(p)) <==> p in Opened(es)
    ensures Enabled(s, End(p)) <==> p in Opened(es)
    ensures Enabled(s, CommitDone) <==> Committing(es)
  {
    hide Reaches, Opened, Count, Committing, Asleep, Spent, Sum;
    Admission(es, s);
    assert |s.ops.Keys| == |s.ops|;
  }

  // ----- the panic is reachable -----

  function Times(e: Event, n: nat): (es: seq<Event>)
    ensures |es| == n
  {
    if n == 0 then [] else [e] + Times(e, n - 1)
  }

  lemma {:induction false} ReachesConcat(s0: State, a: seq<Event>, s1: State, b: seq<Event>, s: State)
    requires Reaches(s0, a, s1) && Reaches(s1, b, s)
    ensures Reaches(s0, a + b, s)
    decreases |a|
  {
    hide Enabled, Next;
    if a == [] {
      assert a + b == b;
    } else {
      assert (a + b)[1..] == a[1..] + b;
      ReachesConcat(Next(s0, a[0]), a[1..], s1, b, s);
    }
  }

  lemma {:induction false} LogTimes(s: State, p: nat, n: nat)
    requires p in s.ops && n <= s.ops[p] && s.len + n <= LOGSIZE - 2
    ensures Reaches(s, Times(LogNew(p), n), s.(ops := s.ops[p := s.ops[p] - n], len := s.len + n))
    decreases n
  {
    if n == 0 {
      assert s.ops[p := s.ops[p]] == s.ops;
    } else {
      var t := Next(s, LogNew(p));
      LogTimes(t, p, n - 1);
      assert t.ops[p := t.ops[p] - (n - 1)] == s.ops[p := s.ops[p] - n];
      assert Times(LogNew(p), n)[1..] == Times(LogNew(p), n - 1);
    }
  }

  lemma One(s: State, e: Event)
    requires Enabled(s, e)
    ensures Reaches(s, [e], Next(s, e))
  {
    assert [e][1..] == [];
  }

  /**
   Three operations that each stay within MAXOPBLOCKS reach the space panic: the
   first logs nine blocks and ends, a third is admitted, and the log fills to 28.
   */
  lemma SpacePanicReachable()
    ensures exists es, s :: Reaches(INIT, es, s) && 3 in s.ops && s.ops[3] > 0
                            && NoSpace(s.len, LOGSIZE) && !NoSlot(s.len, LOGSIZE)
  {
    hide Reaches;
    var s1 := State(map[1 := 10], false, 0, {});
    One(INIT, Begin(1));
    assert Next(INIT, Begin(1)) == s1;
    var s2 := State(map[1 := 10, 2 := 10], false, 0, {});
    One(s1, Begin(2));
    assert Next(s1, Begin(2)) == s2;
    ReachesConcat(INIT, [Begin(1)], s1, [Begin(2)], s2);
    var e2 := [Begin(1)] + [Begin(2)];
    var s3 := State(map[1 := 1, 2 := 10], false, 9, {});
    LogTimes(s2, 1, 9);
    assert s2.ops[1 := 1] == s3.ops;
    ReachesConcat(INIT, e2, s2, Times(LogNew(1), 9), s3);
    var e3 := e2 + Times(LogNew(1), 9);
    var s4 := State(map[2 := 10], false, 9, {});
    One(s3, End(1));
    assert s3.ops - {1} == s4.ops;
    assert 2 in s4.ops;
    ReachesConcat(INIT, e3, s3, [End(1)], s4);
    var e4 := e3 + [End(1)];
    var s5 := State(map[2 := 10, 3 := 10], false, 9, {});
    One(s4, Begin(3));
    ReachesConcat(INIT, e4, s4, [Begin(3)], s5);
    FillUp(e4 + [Begin(3)], s5);
  }

  lemma FillUp(es: seq<Event>, s: State)
    requires Reaches(INIT, es, s) && s == State(map[2 := 10, 3 := 10], false, 9, {})
    ensures exists es', s' :: Reaches(INIT, es', s') && 3 in s'.ops && s'.ops[3] > 0
                              && NoSpace(s'.len, LOGSIZE) && !NoSlot(s'.len, LOGSIZE)
  {
    hide Reaches;
    var s6 := State(map[2 := 0, 3 := 10], false, 19, {});
    LogTimes(s, 2, 10);
    assert s.ops[2 := 0] == s6.ops;
    ReachesConcat(INIT, es, s, Times(LogNew(2), 10), s6);
    var s7 := State(map[2 := 0, 3 := 1], false, 28, {});
    LogTimes(s6, 3, 9);
    assert s6.ops[3 := 1] == s7.ops;
    ReachesConcat(INIT, es + Times(LogNew(2), 10), s6, Times(LogNew(3), 9), s7);
  }
}
