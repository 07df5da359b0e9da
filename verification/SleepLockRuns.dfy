/** The sleep lock over whole runs: every interleaving, any number of processes and CPUs. */
module SleepLockRuns {
  import opened Collections
  import opened SleepLock
  import opened SleepLockSteps

  /** Boot: the lock is free, every CPU is in its scheduler, processes are unused or ready. */
  predicate Init(s: State) {
    && s.inner == None && !s.locked && s.holders == {}
    && (forall c :: 0 <= c < |s.cpus| ==> s.cpus[c] == Scan)
    && (forall p :: 0 <= p < |s.procs| ==>
          s.procs[p] == Proc(Unused, NoChan, None, Idle, true, None, false)
          || s.procs[p] == Proc(Runnable, NoChan, None, Idle, true, None, false))
  }

  predicate Run(s: State, ts: seq<Step>, end: State)
    decreases |ts|
  {
    if ts == [] then end == s else Enabled(s, ts[0]) && Run(Next(s, ts[0]), ts[1..], end)
  }

  // ----- who has the lock, from the calls and returns of a run -----

  /** The processes inside `lock`, inside `unlock`, and in possession: back from `lock` and not yet past clearing it. */
  datatype Calls = Calls(locking: set<nat>, unlocking: set<nat>, owners: set<nat>)

  /** The process that takes the step. */
  function Caller(s: State, t: Step): set<nat> {
    if t.c < |s.cpus| && s.cpus[t.c].Runs? then {s.cpus[t.c].p} else {}
  }

  predicate IsBack(u: State, p: nat) {
    p < |u.procs| && u.procs[p].pc == Idle
  }

  /** Still to clear the lock. */
  predicate BeforeClear(u: State, p: nat) {
    p < |u.procs| && (u.procs[p].pc == UnlockSpin || u.procs[p].pc == UnlockClear)
  }

  /** One step from `s` to `u`: calls begin, and end when their process is back. */
  function Tracked(k: Calls, s: State, t: Step, u: State): Calls {
    var locking := k.locking + if t.CallLock? then Caller(s, t) else {};
    var unlocking := k.unlocking + if t.CallUnlock? then Caller(s, t) else {};
    var got := set p | p in locking && IsBack(u, p);
    var cleared := set p | p in unlocking && !BeforeClear(u, p);
    var gone := set p | p in unlocking && IsBack(u, p);
    Calls(locking - got, unlocking - gone, k.owners + got - cleared)
  }

  function CallsAfter(k: Calls, s: State, ts: seq<Step>): Calls
    requires CanRun(s, ts)
    decreases |ts|
  {
    if ts == [] then k else CallsAfter(Tracked(k, s, ts[0], Next(s, ts[0])), Next(s, ts[0]), ts[1..])
  }

  predicate CanRun(s: State, ts: seq<Step>)
    decreases |ts|
  {
    ts == [] || (Enabled(s, ts[0]) && CanRun(Next(s, ts[0]), ts[1..]))
  }

  lemma {:induction false} RunCan(s: State, ts: seq<Step>, end: State)
    requires Run(s, ts, end)
    ensures CanRun(s, ts)
    decreases |ts|
  {
    hide Next, Enabled;
    if ts != [] {
      RunCan(Next(s, ts[0]), ts[1..], end);
    }
  }

  predicate InLock(pc: Pc) {
    pc == LockSpin || pc == LockTest || pc == SleepMeta || pc == SleepDrop || pc == SleepSet
  }

  predicate InUnlock(pc: Pc) {
    pc == UnlockSpin || pc == UnlockClear || pc.Wake?
  }

  /** The calls under way are where the program counters say, and `holders` are those in possession. */
  ghost predicate CallsOk(k: Calls, s: State) {
    && (forall p :: p in k.locking <==> 0 <= p < |s.procs| && InLock(s.procs[p].pc))
    && (forall p :: p in k.unlocking <==> 0 <= p < |s.procs| && InUnlock(s.procs[p].pc))
    && k.owners == s.holders
  }

  /** What a step does to one process, as far as its calls go. */
  predicate Moves(s: State, t: Step, u: State, p: nat)
    requires p < |s.procs| && p < |u.procs|
  {
    var a, b := s.procs[p].pc, u.procs[p].pc;
    if t.CallLock? && p in Caller(s, t) then a == Idle && b == LockSpin && (p in u.holders <==> p in s.holders)
    else if t.CallUnlock? && p in Caller(s, t) then a == Idle && b == UnlockSpin && p in s.holders && p in u.holders
    else
      && (InLock(a) ==> (InLock(b) && (p in u.holders <==> p in s.holders)) || (b == Idle && p in u.holders))
      && (a == Idle ==> b == Idle && (p in u.holders <==> p in s.holders))
      && (a == UnlockSpin || a == UnlockClear ==>
            && p in s.holders && InUnlock(b)
            && (b == UnlockSpin || b == UnlockClear ==> p in u.holders) && (b.Wake? ==> p !in u.holders))
      && (a.Wake? ==> (b.Wake? || b == Idle) && p !in u.holders)
  }

  lemma MovesLocking(s: State, t: Step, p: nat)
    requires Inv(s) && Enabled(s, t) && p < |s.procs|
    requires !Scheduling(t) && !SwitchingOut(t) && !OnAnother(t) && !t.WakeOne?
    ensures |Next(s, t).procs| == |s.procs| && Moves(s, t, Next(s, t), p)
  {
    hide InnerOk, WakeOk;
    Actor(s, t);
    assert Placed(s, p) && PcOk(s, p);
  }

  lemma MovesWaking(s: State, t: Step, p: nat)
    requires Inv(s) && Enabled(s, t) && p < |s.procs| && t.WakeOne?
    ensures |Next(s, t).procs| == |s.procs| && Moves(s, t, Next(s, t), p)
  {
    hide InnerOk, WakeOk;
    Actor(s, t);
    assert Placed(s, p) && PcOk(s, p);
  }

  lemma MovesSwitch(s: State, t: Step, p: nat)
    requires Inv(s) && Enabled(s, t) && p < |s.procs| && SwitchingOut(t)
    ensures |Next(s, t).procs| == |s.procs| && Moves(s, t, Next(s, t), p)
  {
    hide InnerOk, WakeOk;
    Actor(s, t);
    assert Placed(s, p) && PcOk(s, p);
  }

  lemma MovesOther(s: State, t: Step, p: nat)
    requires Inv(s) && Enabled(s, t) && p < |s.procs| && (Scheduling(t) || OnAnother(t))
    ensures |Next(s, t).procs| == |s.procs| && Moves(s, t, Next(s, t), p)
  {
    hide InnerOk, WakeOk;
    if !t.Claim? && !t.Rouse? {
      Actor(s, t);
    }
    assert Placed(s, p) && PcOk(s, p);
  }

  lemma CallsAt(k: Calls, s: State, t: Step, u: State, p: nat)
    requires p < |s.procs| == |u.procs| && CallsOk(k, s) && Moves(s, t, u, p)
    ensures var l := Tracked(k, s, t, u);
            && (p in l.locking <==> InLock(u.procs[p].pc)) && (p in l.unlocking <==> InUnlock(u.procs[p].pc))
            && (p in l.owners <==> p in u.holders)
  {
  }

  lemma CallsStep(k: Calls, s: State, t: Step)
    requires Inv(s) && Enabled(s, t) && CallsOk(k, s)
    ensures CallsOk(Tracked(k, s, t, Next(s, t)), Next(s, t))
  {
    hide Inv, Enabled, Next, Moves;
    var u := Next(s, t);
    var l := Tracked(k, s, t, u);
    SameSize(s, t);
    forall p: nat | p < |s.procs|
      ensures (p in l.locking <==> InLock(u.procs[p].pc)) && (p in l.unlocking <==> InUnlock(u.procs[p].pc))
      ensures p in l.owners <==> p in u.holders
    {
      if Scheduling(t) || OnAnother(t) {
        MovesOther(s, t, p);
      } else if SwitchingOut(t) {
        MovesSwitch(s, t, p);
      } else if t.WakeOne? {
        MovesWaking(s, t, p);
      } else {
        MovesLocking(s, t, p);
      }
      CallsAt(k, s, t, u, p);
    }
    InvStep(s, t);
    KnownProcs(k, s, t, u);
    assert l.owners == u.holders;
  }

  lemma KnownProcs(k: Calls, s: State, t: Step, u: State)
    requires Inv(s) && Inv(u) && CallsOk(k, s) && |u.procs| == |s.procs| && Enabled(s, t)
    ensures forall p: nat :: p in Tracked(k, s, t, u).locking || p in Tracked(k, s, t, u).unlocking ==> p < |s.procs|
    ensures forall p: nat :: p in Tracked(k, s, t, u).owners || p in u.holders ==> p < |s.procs|
  {
    hide PlacesOk, InnerOk, WakeOk;
  }

  lemma {:induction false} CallsRun(k: Calls, s: State, ts: seq<Step>, end: State)
    requires Inv(s) && CallsOk(k, s) && Run(s, ts, end)
    ensures CanRun(s, ts) && CallsOk(CallsAfter(k, s, ts), end)
    decreases |ts|
  {
    hide Inv, Next, Enabled, CallsOk, Tracked;
    RunCan(s, ts, end);
    if ts != [] {
      InvStep(s, ts[0]);
      CallsStep(k, s, ts[0]);
      CallsRun(Tracked(k, s, ts[0], Next(s, ts[0])), Next(s, ts[0]), ts[1..], end);
    }
  }

  /** One owner at most, and `locked` set exactly while there is one. */
  predicate MutualExclusion(s: State, owners: set<nat>) {
    (forall p, q :: p in owners && q in owners ==> p == q) && (s.locked <==> owners != {})
  }

  /** With the inner spinlock free and the lock not taken, nobody sleeps inside `lock`. */
  predicate NoMissedWakeup(s: State) {
    s.inner == None && !s.locked ==>
      forall q :: 0 <= q < |s.procs| ==> !(s.procs[q].state == Sleeping && InLock(s.procs[q].pc))
  }

  /** The scheduler of CPU `c` has taken process `p`. */
  predicate Has(s: State, c: nat, p: nat) {
    c < |s.cpus| && s.cpus[c] != Scan && s.cpus[c].p == p
  }

  ghost predicate ClaimedOnce(s: State) {
    forall c, d, p :: Has(s, c, p) && Has(s, d, p) ==> c == d
  }

  /**
   The spinlocks CPU `c` holds are known from where it is.  So acquiring never finds the
   lock held by the same CPU, releasing always does, and a process switches away with its
   own meta spinlock and no other: none of the checks in the spinlock and in `sched` panics.
   */
  predicate LocksKnown(s: State, c: nat)
    requires c < |s.cpus|
  {
    && (forall q :: 0 <= q < |s.procs| && s.procs[q].meta == Some(c) ==>
          s.cpus[c] == Back(q) || (s.cpus[c] == Runs(q) && KeepsMeta(s.procs[q])))
    && (s.cpus[c].Back? ==> s.cpus[c].p < |s.procs| && s.procs[s.cpus[c].p].meta == Some(c))
    && (s.cpus[c].Runs? ==> s.cpus[c].p < |s.procs| && s.procs[s.cpus[c].p].state == Running
                            && (KeepsMeta(s.procs[s.cpus[c].p]) ==> s.procs[s.cpus[c].p].meta == Some(c)))
    && (s.inner == Some(c) <==> InCode(s, c) && Inside(s.procs[s.cpus[c].p].pc))
  }

  /** Switched in but not yet past the release, or on its way to sleep. */
  predicate KeepsMeta(r: Proc) {
    r.parked || r.pc == SleepDrop || r.pc == SleepSet
  }

  lemma InvSafe(s: State)
    requires Inv(s)
    ensures MutualExclusion(s, s.holders) && NoMissedWakeup(s) && ClaimedOnce(s)
    ensures forall c :: 0 <= c < |s.cpus| ==> LocksKnown(s, c)
  {
    forall q | 0 <= q < |s.procs| && s.procs[q].state == Sleeping && InLock(s.procs[q].pc) ensures Waiting(s.procs[q]) {
      assert Placed(s, q);
    }
    forall c, d, p | Has(s, c, p) && Has(s, d, p) ensures c == d {
      assert CpuOk(s, c) && CpuOk(s, d);
    }
    forall c | 0 <= c < |s.cpus| ensures LocksKnown(s, c) {
      LocksOf(s, c);
    }
  }

  lemma LocksOf(s: State, c: nat)
    requires Inv(s) && c < |s.cpus|
    ensures LocksKnown(s, c)
  {
    assert CpuOk(s, c);
    forall q | 0 <= q < |s.procs| && s.procs[q].meta == Some(c)
      ensures s.cpus[c] == Back(q) || (s.cpus[c] == Runs(q) && KeepsMeta(s.procs[q]))
    {
      assert Placed(s, q);
    }
    if s.cpus[c] != Scan {
      assert Placed(s, s.cpus[c].p);
    }
  }

  lemma {:induction false} RunInv(s: State, ts: seq<Step>, end: State)
    requires Inv(s) && Run(s, ts, end)
    ensures Inv(end)
    decreases |ts|
  {
    hide Inv, Next, Enabled;
    if ts != [] {
      InvStep(s, ts[0]);
      RunInv(Next(s, ts[0]), ts[1..], end);
    }
  }

  /** No call is under way at boot. */
  lemma InitCalls(s: State)
    requires Init(s)
    ensures CallsOk(Calls({}, {}, {}), s)
  {
  }

  /**
   Every interleaving, any number of processes and CPUs.  The owners are read off the run: who
   came back from `lock` and has not since cleared it in `unlock`.
   */
  lemma SleepLockSafe(s: State, ts: seq<Step>, end: State)
    requires Init(s) && Run(s, ts, end)
    ensures CanRun(s, ts) && MutualExclusion(end, CallsAfter(Calls({}, {}, {}), s, ts).owners)
    ensures NoMissedWakeup(end) && ClaimedOnce(end)
    ensures forall c :: 0 <= c < |end.cpus| ==> LocksKnown(end, c)
  {
    hide Next, Enabled, Run, MutualExclusion, NoMissedWakeup, ClaimedOnce, LocksKnown, CallsAfter, CanRun;
    RunInv(s, ts, end);
    InvSafe(end);
    InitCalls(s);
    CallsRun(Calls({}, {}, {}), s, ts, end);
  }
}
