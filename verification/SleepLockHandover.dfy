/**
 The sleep lock at work: from any quiet state, a process that finds the lock taken sleeps, and the
 owner's `unlock` and the scheduler bring it back with the lock in its possession.
 */
module SleepLockHandover {
  import opened Collections
  import opened SleepLock
  import opened SleepLockSteps
  import opened SleepLockRuns

  /** No spinlock is held. */
  predicate Quiet(s: State) {
    s.inner == None && forall r :: 0 <= r < |s.procs| ==> s.procs[r].meta == None
  }

  /** CPU `c` runs process `p`, in code outside `lock` and `unlock`. */
  predicate Outside(s: State, c: nat, p: nat) {
    c < |s.cpus| && s.cpus[c] == Runs(p) && p < |s.procs| && !s.procs[p].parked && s.procs[p].pc == Idle
  }

  lemma {:induction false} RunMore(s: State, ts: seq<Step>, mid: State, t: Step)
    requires Run(s, ts, mid) && Enabled(mid, t)
    ensures Run(s, ts + [t], Next(mid, t))
    decreases |ts|
  {
    hide Enabled, Next;
    if ts == [] {
      assert [t][1..] == [];
    } else {
      assert (ts + [t])[1..] == ts[1..] + [t];
      RunMore(Next(s, ts[0]), ts[1..], mid, t);
    }
  }

  lemma Follow(s: State, ts: seq<Step>, mid: State, t: Step) returns (more: seq<Step>, end: State)
    requires Run(s, ts, mid) && Enabled(mid, t)
    ensures Run(s, more, end) && end == Next(mid, t)
  {
    RunMore(s, ts, mid, t);
    more, end := ts + [t], Next(mid, t);
  }

  /** As far as finding the lock taken. */
  lemma FindsTaken(s: State, d: nat, q: nat) returns (ts: seq<Step>, end: State)
    requires Quiet(s) && Outside(s, d, q) && s.locked
    ensures Run(s, ts, end) && end == SetProc(s, q, s.procs[q].(pc := SleepMeta)).(inner := Some(d))
  {
    hide Run;
    ts, end := Nothing(s);
    ts, end := Follow(s, ts, end, CallLock(d));
    ts, end := Follow(s, ts, end, TakeInner(d));
    ts, end := Follow(s, ts, end, Test(d));
  }

  lemma Nothing(s: State) returns (ts: seq<Step>, end: State)
    ensures Run(s, ts, end) && end == s
  {
    ts, end := [], s;
  }

  /** The process asleep on the lock, and its CPU back in the scheduler. */
  function Slept(s: State, d: nat, q: nat): State
    requires d < |s.cpus| && q < |s.procs|
  {
    var r := s.procs[q].(state := Sleeping, chan := ThisLock, meta := None, pc := LockSpin, parked := true, on := None);
    SetCpu(SetProc(s, q, r), d, Scan).(inner := None)
  }

  lemma FallsAsleep(s: State, ts: seq<Step>, mid: State, d: nat, q: nat) returns (more: seq<Step>, end: State)
    requires Run(s, ts, mid) && d < |mid.cpus| && mid.cpus[d] == Runs(q) && q < |mid.procs| && !mid.procs[q].parked
    requires mid.procs[q].pc == SleepMeta && mid.procs[q].meta == None
    ensures Run(s, more, end) && end == Slept(mid, d, q)
  {
    hide Run;
    more, end := Follow(s, ts, mid, TakeMeta(d));
    more, end := Follow(s, more, end, DropInner(d));
    more, end := Follow(s, more, end, GoToSleep(d));
    more, end := Follow(s, more, end, Return(d));
  }

  /** `unlock` up to the first look for sleepers. */
  lemma Clears(s: State, ts: seq<Step>, mid: State, c: nat, p: nat) returns (more: seq<Step>, end: State)
    requires Run(s, ts, mid) && Outside(mid, c, p) && mid.inner == None && p in mid.holders
    ensures Run(s, more, end)
    ensures end == SetProc(mid, p, mid.procs[p].(pc := Wake(0)))
                     .(inner := Some(c), locked := false, holders := mid.holders - {p})
  {
    hide Run;
    more, end := Follow(s, ts, mid, CallUnlock(c));
    more, end := Follow(s, more, end, TakeInner(c));
    more, end := Follow(s, more, end, Clear(c));
  }

  /** The processes from `k` on after `wake_up`: whoever sleeps on the lock can run. */
  predicate Awake(was: seq<Proc>, now: seq<Proc>, p: nat, k: nat) {
    && |now| == |was|
    && forall r :: 0 <= r < |was| && r != p ==>
         now[r] == if r >= k && was[r].state == Sleeping && was[r].chan == ThisLock
                   then was[r].(state := Runnable) else was[r]
  }

  /** The whole of `wake_up`, from process `k` on. */
  lemma {:induction false} WakesAll(s: State, ts: seq<Step>, mid: State, c: nat, p: nat, k: nat)
    returns (more: seq<Step>, end: State)
    requires Run(s, ts, mid) && InCode(mid, c) && mid.cpus[c].p == p && mid.procs[p].pc == Wake(k) && k <= |mid.procs|
    requires forall r :: 0 <= r < |mid.procs| ==> mid.procs[r].meta == None
    ensures Run(s, more, end) && end == mid.(procs := end.procs) && Awake(mid.procs, end.procs, p, k)
    ensures end.procs[p] == mid.procs[p].(pc := Wake(|mid.procs|))
    decreases |mid.procs| - k
  {
    hide Run;
    if k == |mid.procs| {
      more, end := ts, mid;
    } else {
      more, end := Follow(s, ts, mid, WakeOne(c));
      var next := end;
      WokeOne(mid, next, c, p, k);
      more, end := WakesAll(s, more, next, c, p, k + 1);
      AwakeMore(mid.procs, next.procs, end.procs, p, k);
    }
  }

  lemma WokeOne(s: State, u: State, c: nat, p: nat, k: nat)
    requires InCode(s, c) && s.cpus[c].p == p && s.procs[p].pc == Wake(k) && k < |s.procs|
    requires Enabled(s, WakeOne(c)) && u == Next(s, WakeOne(c))
    requires forall r :: 0 <= r < |s.procs| ==> s.procs[r].meta == None
    ensures u == s.(procs := u.procs) && |u.procs| == |s.procs| && u.procs[p] == s.procs[p].(pc := Wake(k + 1))
    ensures forall r :: 0 <= r < |s.procs| && r != p && r != k ==> u.procs[r] == s.procs[r]
    ensures k != p ==> u.procs[k] == if s.procs[k].state == Sleeping && s.procs[k].chan == ThisLock
                                     then s.procs[k].(state := Runnable) else s.procs[k]
    ensures forall r :: 0 <= r < |s.procs| ==> u.procs[r].meta == None
  {
  }

  lemma AwakeMore(a: seq<Proc>, b: seq<Proc>, c: seq<Proc>, p: nat, k: nat)
    requires |b| == |a| && k < |a| && Awake(b, c, p, k + 1)
    requires forall r :: 0 <= r < |a| && r != p && r != k ==> b[r] == a[r]
    requires k != p ==> b[k] == if a[k].state == Sleeping && a[k].chan == ThisLock
                                then a[k].(state := Runnable) else a[k]
    ensures Awake(a, c, p, k)
  {
  }

  /** Finding the lock free is to have it. */
  lemma Uncontended(s: State, d: nat, q: nat) returns (ts: seq<Step>, end: State)
    requires Quiet(s) && Outside(s, d, q) && !s.locked
    ensures Run(s, ts, end) && Outside(end, d, q) && end.locked && end.holders == s.holders + {q} && Quiet(end)
  {
    hide Run;
    ts, end := Nothing(s);
    ts, end := Follow(s, ts, end, CallLock(d));
    ts, end := Follow(s, ts, end, TakeInner(d));
    ts, end := Follow(s, ts, end, Test(d));
  }

  /**
   The hand-over: with `p` in possession on one CPU and `q` asking for the lock on another, there
   is a run in which `q` sleeps, `p` unlocks, and `q` comes back from `lock` as the one owner.
   */
  lemma HandOver(k: Calls, s: State, c: nat, p: nat, d: nat, q: nat) returns (ts: seq<Step>, end: State)
    requires Inv(s) && CallsOk(k, s) && Quiet(s) && Outside(s, c, p) && Outside(s, d, q) && k.owners == {p} && p != q
    ensures Run(s, ts, end) && CanRun(s, ts) && CallsAfter(k, s, ts).owners == {q}
    ensures end.locked && Outside(end, c, p) && Outside(end, d, q)
  {
    hide Run, CanRun, CallsAfter, Inv;
    OwnerLocks(k, s);
    ts, end := FindsTaken(s, d, q);
    ts, end := FallsAsleep(s, ts, end, d, q);
    ts, end := Clears(s, ts, end, c, p);
    ts, end := Wakes(s, ts, end, c, p, q);
    ts, end := Brought(s, ts, end, c, p, d, q);
    CallsRun(k, s, ts, end);
  }

  /** The rest of `unlock`: the sleeper can run, and the lock is free. */
  lemma Wakes(s: State, ts: seq<Step>, mid: State, c: nat, p: nat, q: nat) returns (more: seq<Step>, end: State)
    requires Run(s, ts, mid) && InCode(mid, c) && mid.cpus[c].p == p && mid.procs[p].pc == Wake(0)
    requires q < |mid.procs| && q != p && mid.procs[q].state == Sleeping && mid.procs[q].chan == ThisLock
    requires forall r :: 0 <= r < |mid.procs| ==> mid.procs[r].meta == None
    ensures Run(s, more, end) && end == mid.(procs := end.procs, inner := None) && |end.procs| == |mid.procs|
    ensures end.procs[p] == mid.procs[p].(pc := Idle) && end.procs[q] == mid.procs[q].(state := Runnable)
  {
    hide Run, Awake;
    more, end := WakesAll(s, ts, mid, c, p, 0);
    AwakeAt(mid.procs, end.procs, p, q);
    more, end := Follow(s, more, end, WakeDone(c));
  }

  lemma OwnerLocks(k: Calls, s: State)
    requires Inv(s) && CallsOk(k, s) && k.owners != {}
    ensures s.locked && s.holders == k.owners
  {
  }

  lemma AwakeAt(was: seq<Proc>, now: seq<Proc>, p: nat, q: nat)
    requires Awake(was, now, p, 0) && q < |was| && q != p && was[q].state == Sleeping && was[q].chan == ThisLock
    ensures |now| == |was| && now[q] == was[q].(state := Runnable)
  {
  }

  /** A process that can run inside `lock` and is in no CPU's hands. */
  predicate Ready(s: State, d: nat, q: nat) {
    && d < |s.cpus| && s.cpus[d] == Scan && q < |s.procs| && s.inner == None
    && s.procs[q].state == Runnable && s.procs[q].meta == None && s.procs[q].pc == LockSpin && s.procs[q].parked
  }

  /** The scheduler brings such a process back, as far as its second look at the lock. */
  lemma Dispatched(s: State, ts: seq<Step>, mid: State, d: nat, q: nat) returns (more: seq<Step>, end: State)
    requires Run(s, ts, mid) && Ready(mid, d, q)
    ensures Run(s, more, end) && InCode(end, d)
    ensures end == SetCpu(SetProc(mid, q, Proc(Running, NoChan, None, LockTest, false, Some(d), mid.procs[q].newborn)),
                          d, Runs(q)).(inner := Some(d))
  {
    hide Run;
    more, end := Follow(s, ts, mid, Claim(d, q));
    more, end := Follow(s, more, end, Dispatch(d));
    more, end := Follow(s, more, end, Resume(d));
    more, end := Follow(s, more, end, TakeInner(d));
  }

  /** With the lock free, the second look gets it. */
  lemma Brought(s: State, ts: seq<Step>, mid: State, c: nat, p: nat, d: nat, q: nat)
    returns (more: seq<Step>, end: State)
    requires Run(s, ts, mid) && Outside(mid, c, p) && p != q && c != d && mid.holders == {}
    requires Ready(mid, d, q) && !mid.locked
    ensures Run(s, more, end) && Outside(end, c, p) && Outside(end, d, q) && end.locked && end.holders == {q}
  {
    hide Run;
    more, end := Dispatched(s, ts, mid, d, q);
    more, end := Follow(s, more, end, Test(d));
  }

  /**
   A wake-up that was not meant for the lock (a kill, say) costs a waiter nothing: while the lock is
   taken there is a run from the stray wake-up back to the very same state.
   */
  lemma StrayWakeup(s: State, b: nat, d: nat, q: nat) returns (ts: seq<Step>, end: State)
    requires Quiet(s) && s.locked && NoSpinlock(s, b) && d < |s.cpus| && s.cpus[d] == Scan && q < |s.procs|
    requires s.procs[q] == Proc(Sleeping, ThisLock, None, LockSpin, true, None, s.procs[q].newborn)
    ensures Run(s, ts, end) && |ts| > 0 && ts[0] == Rouse(b, q) && end == s
  {
    hide Run;
    var first := Next(s, Rouse(b, q));
    assert Ready(first, d, q);
    ts, end := Nothing(first);
    ts, end := Dispatched(first, ts, end, d, q);
    ts, end := Follow(first, ts, end, Test(d));
    ts, end := FallsAsleep(first, ts, end, d, q);
    SameState(s, end, d, q);
    RunFirst(s, Rouse(b, q), ts, end);
    ts := [Rouse(b, q)] + ts;
  }

  lemma SameState(s: State, end: State, d: nat, q: nat)
    requires d < |s.cpus| && s.cpus[d] == Scan && q < |s.procs|
    requires end.(procs := s.procs, cpus := s.cpus) == s && |end.procs| == |s.procs| && |end.cpus| == |s.cpus|
    requires end.procs == s.procs[q := s.procs[q]] && end.cpus == s.cpus[d := s.cpus[d]]
    ensures end == s
  {
    assert end.procs == s.procs && end.cpus == s.cpus;
  }

  lemma RunFirst(s: State, t: Step, ts: seq<Step>, end: State)
    requires Enabled(s, t) && Run(Next(s, t), ts, end)
    ensures Run(s, [t] + ts, end)
  {
    hide Enabled, Next;
    assert ([t] + ts)[1..] == ts;
  }

  // ----- leaving and coming back -----

  /** CPU `d` runs process `q`, which has no channel and can be interrupted. */
  predicate Interruptible(s: State, d: nat, q: nat) {
    && d < |s.cpus| && s.cpus[d] == Runs(q) && q < |s.procs|
    && var r := s.procs[q];
       && r == Proc(Running, NoChan, None, r.pc, false, Some(d), r.newborn)
       && (r.pc == Idle || r.pc == LockSpin || r.pc == UnlockSpin)
  }

  /** The state with process `q` off its CPU, able to run. */
  function OffCpu(s: State, d: nat, q: nat): State
    requires Interruptible(s, d, q)
  {
    var r := s.procs[q];
    SetCpu(SetProc(s, q, r.(state := Runnable, parked := true, on := None)), d, Scan)
  }

  /** The scheduler restores what switching away saved. */
  lemma ComesBack(s: State, ts: seq<Step>, was: State, mid: State, d: nat, q: nat)
    returns (more: seq<Step>, end: State)
    requires Interruptible(was, d, q) && Run(s, ts, mid)
    requires mid == OffCpu(was, d, q) || mid == ElsewhereOff(was, d, q)
    ensures Run(s, more, end) && end == was
  {
    hide Run;
    more, end := Follow(s, ts, mid, Claim(d, q));
    more, end := Follow(s, more, end, Dispatch(d));
    more, end := Follow(s, more, end, Resume(d));
    assert end.procs == was.procs && end.cpus == was.cpus;
  }

  /** The same after a sleep on another channel, which waking up does not clear. */
  function ElsewhereOff(s: State, d: nat, q: nat): State
    requires Interruptible(s, d, q)
  {
    var r := s.procs[q];
    SetCpu(SetProc(s, q, r.(state := Runnable, chan := Elsewhere, parked := true, on := None)), d, Scan)
  }

  /** A process that a timer takes off its CPU can come back to the very same state. */
  lemma Preempted(s: State, d: nat, q: nat) returns (ts: seq<Step>, end: State)
    requires Interruptible(s, d, q)
    ensures Run(s, ts, end) && |ts| > 0 && ts[0] == Yield(d) && end == s
  {
    hide Run;
    var first := Next(s, Yield(d));
    ts, end := Nothing(first);
    ts, end := Follow(first, ts, end, Return(d));
    assert end == OffCpu(s, d, q);
    ts, end := ComesBack(first, ts, s, end, d, q);
    RunFirst(s, Yield(d), ts, end);
    ts := [Yield(d)] + ts;
  }

  /** So can one that sleeps on another channel, once it is woken. */
  lemma SleptElsewhere(s: State, d: nat, q: nat) returns (ts: seq<Step>, end: State)
    requires Interruptible(s, d, q) && s.procs[q].pc == Idle
    ensures Run(s, ts, end) && |ts| > 0 && ts[0] == SleepElsewhere(d) && end == s
  {
    hide Run;
    var first := Next(s, SleepElsewhere(d));
    ts, end := Nothing(first);
    ts, end := Follow(first, ts, end, Return(d));
    ts, end := Follow(first, ts, end, Rouse(d, q));
    assert end == ElsewhereOff(s, d, q);
    ts, end := ComesBack(first, ts, s, end, d, q);
    RunFirst(s, SleepElsewhere(d), ts, end);
    ts := [SleepElsewhere(d)] + ts;
  }

  /** A process slot no one uses. */
  const VACANT := Proc(Unused, NoChan, None, Idle, true, None, false)

  /** From `fork` to the first instruction on CPU `d`. */
  lemma Born(s: State, c: nat, d: nat, q: nat) returns (ts: seq<Step>, end: State)
    requires At(s, c, Idle) && d < |s.cpus| && s.cpus[d] == Scan && q < |s.procs| && s.procs[q] == VACANT
    ensures Run(s, ts, end) && Outside(end, d, q)
    ensures end == SetCpu(SetProc(s, q, Proc(Running, NoChan, None, Idle, false, Some(d), false)), d, Runs(q))
  {
    hide Run;
    ts, end := Nothing(s);
    ts, end := Follow(s, ts, end, Create(c, q));
    ts, end := Follow(s, ts, end, Start(c, q));
    ts, end := Follow(s, ts, end, Claim(d, q));
    ts, end := Follow(s, ts, end, Dispatch(d));
    ts, end := Follow(s, ts, end, Resume(d));
  }

  /** A process made, run, ended and reaped leaves everything as it was. */
  lemma Lifecycle(s: State, c: nat, d: nat, q: nat) returns (ts: seq<Step>, mid: State, more: seq<Step>, end: State)
    requires At(s, c, Idle) && d < |s.cpus| && s.cpus[d] == Scan && q < |s.procs| && s.procs[q] == VACANT
    requires q !in s.holders
    ensures Run(s, ts, mid) && Outside(mid, d, q) && Run(mid, more, end) && end == s
  {
    hide Run;
    ts, mid := Born(s, c, d, q);
    more, end := Nothing(mid);
    more, end := Follow(mid, more, end, Exit(d));
    more, end := Follow(mid, more, end, Return(d));
    more, end := Follow(mid, more, end, Reap(c, q));
    assert end.procs == s.procs && end.cpus == s.cpus;
  }
}
