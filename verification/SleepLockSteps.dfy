/** What every step of the sleep lock and the scheduler keeps. */
module SleepLockSteps {
  import opened Collections
  import opened SleepLock

  /** Places where the inner spinlock is held. */
  predicate Inside(pc: Pc) {
    pc == LockTest || pc == SleepMeta || pc == SleepDrop || pc == UnlockClear || pc.Wake?
  }

  /** Where the scheduler has the process, and who holds its meta spinlock. */
  predicate Placed(s: State, p: nat)
    requires p < |s.procs|
  {
    var r := s.procs[p];
    && (r.on == None ==> r.parked && r.meta == None && r.state != Running && (r.state == Allocated <==> r.newborn))
    && (r.on.Some? ==> r.on.value < |s.cpus| && !r.newborn && PlacedOn(r, s.cpus[r.on.value], r.on.value, p))
    && (r.parked ==> r.pc == Idle || r.pc == LockSpin || r.pc == UnlockSpin)
    && (r.state == Sleeping || r.state == Runnable || r.state == Zombie || r.state == Unused ==> r.parked)
    && (r.state == Sleeping && r.pc == LockSpin ==> r.chan == ThisLock)
    && (r.pc == UnlockSpin || r.pc == UnlockClear ==> p in s.holders)
    && (r.state == Unused || r.state == Zombie || r.newborn ==> p !in s.holders && r.pc == Idle)
  }

  predicate PlacedOn(r: Proc, u: Cpu, c: nat, p: nat) {
    && u != Scan && u.p == p
    && (u.Claimed? ==> r.parked && r.meta == None && r.state == Allocated)
    && (u.Back? ==> r.parked && r.meta == Some(c) && (r.state == Runnable || r.state == Sleeping || r.state == Zombie))
    && (u.Runs? ==> r.state == Running)
    && (u.Runs? ==> r.meta == if r.parked || r.pc == SleepDrop || r.pc == SleepSet then Some(c) else None)
  }

  predicate CpuOk(s: State, c: nat)
    requires c < |s.cpus|
  {
    s.cpus[c] != Scan ==> s.cpus[c].p < |s.procs| && s.procs[s.cpus[c].p].on == Some(c)
  }

  /** The inner spinlock is held exactly by the CPU whose process is inside. */
  predicate InnerOk(s: State) {
    && (forall p :: 0 <= p < |s.procs| && Inside(s.procs[p].pc) ==> s.inner.Some? && s.procs[p].on == s.inner)
    && (s.inner.Some? ==> InCode(s, s.inner.value) && Inside(s.procs[s.cpus[s.inner.value].p].pc))
  }

  /** `locked` is the one holder's. */
  predicate HoldersOk(s: State) {
    && (s.locked <==> s.holders != {})
    && (forall p, q :: p in s.holders && q in s.holders ==> p == q)
    && (forall p :: p in s.holders ==> p < |s.procs|)
    && (forall p :: 0 <= p < |s.procs| ==> PcOk(s, p))
  }

  /** Asleep on this lock, or past the point where it can still see the lock free. */
  predicate Waiting(r: Proc) {
    (r.state == Sleeping && r.pc == LockSpin) || r.pc == SleepSet
  }

  /** A process inside `wake_up` that has not come to `q` yet. */
  predicate Waking(s: State, q: nat) {
    && s.inner.Some? && s.inner.value < |s.cpus| && s.cpus[s.inner.value].Runs? && s.cpus[s.inner.value].p < |s.procs|
    && var w := s.procs[s.cpus[s.inner.value].p].pc;
       w.Wake? && w.k <= q
  }

  predicate WakeOk(s: State) {
    forall q :: 0 <= q < |s.procs| && Waiting(s.procs[q]) ==> s.locked || Waking(s, q)
  }

  predicate PlacesOk(s: State) {
    && (forall p :: 0 <= p < |s.procs| ==> Placed(s, p))
    && (forall c :: 0 <= c < |s.cpus| ==> CpuOk(s, c))
  }

  predicate Inv(s: State) {
    PlacesOk(s) && InnerOk(s) && HoldersOk(s) && WakeOk(s)
  }

  // ----- one step -----

  /** At most one process is inside the inner spinlock. */
  lemma OneInside(s: State)
    requires PlacesOk(s) && InnerOk(s)
    ensures forall p, q :: 0 <= p < |s.procs| && 0 <= q < |s.procs| ==>
                             Inside(s.procs[p].pc) && Inside(s.procs[q].pc) ==> p == q
  {
    forall p, q | 0 <= p < |s.procs| && 0 <= q < |s.procs| && Inside(s.procs[p].pc) && Inside(s.procs[q].pc)
      ensures p == q
    {
      assert Placed(s, p) && Placed(s, q);
    }
  }

  /** The process a step's CPU runs, and the one it may touch besides. */
  lemma Actor(s: State, t: Step)
    requires Inv(s) && Enabled(s, t) && !t.Claim? && !t.Rouse?
    ensures var p := s.cpus[t.c].p;
            p < |s.procs| && s.procs[p].on == Some(t.c) && PlacedOn(s.procs[p], s.cpus[t.c], t.c, p)
  {
    assert CpuOk(s, t.c);
    assert Placed(s, s.cpus[t.c].p);
  }

  predicate Scheduling(t: Step) {
    t.Claim? || t.Dispatch? || t.Return? || t.Resume?
  }

  predicate SwitchingOut(t: Step) {
    t.GoToSleep? || t.Yield? || t.SleepElsewhere? || t.Exit?
  }

  predicate OnAnother(t: Step) {
    t.Rouse? || t.Create? || t.Start? || t.Reap?
  }

  lemma PlacedScheduling(s: State, t: Step, p: nat)
    requires Inv(s) && Enabled(s, t) && p < |s.procs| && Scheduling(t)
    ensures Placed(Next(s, t), p)
  {
    assert Placed(s, p);
    if !t.Claim? && !t.Rouse? {
      Actor(s, t);
    }
  }

  lemma PlacedSwitch(s: State, t: Step, p: nat)
    requires Inv(s) && Enabled(s, t) && p < |s.procs| && SwitchingOut(t)
    ensures Placed(Next(s, t), p)
  {
    assert Placed(s, p);
    Actor(s, t);
  }

  lemma PlacedAnother(s: State, t: Step, p: nat)
    requires Inv(s) && Enabled(s, t) && p < |s.procs| && OnAnother(t)
    ensures Placed(Next(s, t), p)
  {
    assert Placed(s, p);
    if !t.Rouse? {
      Actor(s, t);
    }
  }

  lemma PlacedWaking(s: State, t: Step, p: nat)
    requires Inv(s) && Enabled(s, t) && p < |s.procs| && t.WakeOne?
    ensures Placed(Next(s, t), p)
  {
    hide WakeOk, HoldersOk, InnerOk;
    assert Placed(s, p);
    Actor(s, t);
  }

  lemma PlacedLocking(s: State, t: Step, p: nat)
    requires Inv(s) && Enabled(s, t) && p < |s.procs| && !Scheduling(t) && !SwitchingOut(t) && !OnAnother(t)
    requires !t.WakeOne?
    ensures Placed(Next(s, t), p)
  {
    assert Placed(s, p);
    Actor(s, t);
  }

  /** Only claiming and returning change which CPU has which process. */
  lemma CpuSame(s: State, t: Step, c: nat, p: nat)
    requires Inv(s) && Enabled(s, t) && c < |s.cpus| && p < |s.procs| && !t.Claim? && !t.Return?
    ensures Next(s, t).procs[p].on == s.procs[p].on
    ensures Next(s, t).cpus[c] == Scan <==> s.cpus[c] == Scan
    ensures s.cpus[c] != Scan ==> Next(s, t).cpus[c].p == s.cpus[c].p
  {
    hide Placed, PlacedOn, InnerOk, HoldersOk, WakeOk;
    if !t.Rouse? {
      CpuActs(s, t);
    }
  }

  lemma CpuActs(s: State, t: Step)
    requires Inv(s) && Enabled(s, t) && !t.Claim? && !t.Rouse?
    ensures t.c < |s.cpus| && s.cpus[t.c] != Scan && s.cpus[t.c].p < |s.procs|
  {
    assert CpuOk(s, t.c);
  }

  lemma CpuStep(s: State, t: Step, c: nat)
    requires Inv(s) && Enabled(s, t) && c < |s.cpus|
    ensures CpuOk(Next(s, t), c)
  {
    hide InnerOk, HoldersOk, WakeOk;
    assert CpuOk(s, c);
    if t.Claim? {
      assert Placed(s, t.q);
    } else if t.Return? {
      CpuActs(s, t);
      assert CpuOk(s, t.c);
    } else {
      SameSize(s, t);
      if s.cpus[c] != Scan {
        CpuSame(s, t, c, s.cpus[c].p);
      } else if !t.Rouse? {
        CpuActs(s, t);
        CpuSame(s, t, c, s.cpus[t.c].p);
      }
    }
  }

  lemma PlacesStep(s: State, t: Step)
    requires Inv(s) && Enabled(s, t)
    ensures PlacesOk(Next(s, t))
  {
    hide Inv, Placed, CpuOk, Next, Enabled;
    var u := Next(s, t);
    SameSize(s, t);
    forall p | 0 <= p < |u.procs| ensures Placed(u, p) {
      if Scheduling(t) {
        PlacedScheduling(s, t, p);
      } else if SwitchingOut(t) {
        PlacedSwitch(s, t, p);
      } else if OnAnother(t) {
        PlacedAnother(s, t, p);
      } else if t.WakeOne? {
        PlacedWaking(s, t, p);
      } else {
        PlacedLocking(s, t, p);
      }
    }
    forall c | 0 <= c < |u.cpus| ensures CpuOk(u, c) {
      CpuStep(s, t, c);
    }
  }

  lemma SameSize(s: State, t: Step)
    requires Enabled(s, t)
    ensures |Next(s, t).procs| == |s.procs| && |Next(s, t).cpus| == |s.cpus|
  {
  }

  /** The steps that move a process into or out of the inner spinlock. */
  predicate Entering(t: Step) {
    t.TakeInner? || t.Test? || t.DropInner? || t.WakeDone?
  }

  lemma InnerProcs(s: State, t: Step, p: nat)
    requires Inv(s) && Enabled(s, t) && p < |s.procs|
    ensures var u := Next(s, t);
            Inside(u.procs[p].pc) ==> u.inner.Some? && u.procs[p].on == u.inner
  {
    OneInside(s);
    assert Placed(s, p);
    if t.Claim? {
    } else if Entering(t) {
      Actor(s, t);
    } else {
      InnerSame(s, t, p);
    }
  }

  lemma InnerSame(s: State, t: Step, p: nat)
    requires Inv(s) && Enabled(s, t) && p < |s.procs| && !t.Claim? && !Entering(t)
    ensures var u := Next(s, t);
            u.inner == s.inner && (Inside(u.procs[p].pc) ==> Inside(s.procs[p].pc) && u.procs[p].on == s.procs[p].on)
  {
    hide HoldersOk, WakeOk, InnerOk;
    if !t.Rouse? {
      Actor(s, t);
    }
    assert Placed(s, p);
  }

  lemma InnerHeld(s: State, t: Step)
    requires Inv(s) && Enabled(s, t) && Next(s, t).inner.Some?
    ensures var u := Next(s, t);
            InCode(u, u.inner.value) && Inside(u.procs[u.cpus[u.inner.value].p].pc)
  {
    if !t.Claim? && !t.Rouse? {
      Actor(s, t);
    }
    if s.inner.Some? {
      assert Placed(s, s.cpus[s.inner.value].p);
    }
  }

  lemma HoldersSet(s: State, t: Step)
    requires Inv(s) && Enabled(s, t)
    ensures var u := Next(s, t);
            && (u.locked <==> u.holders != {}) && (forall p, q :: p in u.holders && q in u.holders ==> p == q)
            && (forall p :: p in u.holders ==> p < |u.procs|)
  {
    hide Inside, WakeOk, InnerOk;
    if t.Clear? {
      assert Placed(s, s.cpus[t.c].p);
      assert s.holders == {s.cpus[t.c].p};
    } else if !t.Test? {
      HoldersSame(s, t);
    }
  }

  /** Only testing and clearing touch the lock. */
  lemma HoldersSame(s: State, t: Step)
    requires Enabled(s, t) && !t.Clear? && !t.Test?
    ensures Next(s, t).locked == s.locked && Next(s, t).holders == s.holders && |Next(s, t).procs| == |s.procs|
  {
  }

  /** Who is on the way to sleep saw `locked` set; who is waking others cleared it. */
  predicate PcOk(s: State, p: nat)
    requires p < |s.procs|
  {
    && (s.procs[p].pc == SleepMeta || s.procs[p].pc == SleepDrop ==> s.locked)
    && (s.procs[p].pc.Wake? ==> !s.locked && s.procs[p].pc.k <= |s.procs|)
  }

  lemma PcStep(s: State, t: Step, p: nat)
    requires Inv(s) && Enabled(s, t) && p < |s.procs| && PcOk(s, p)
    ensures p < |Next(s, t).procs| && PcOk(Next(s, t), p)
  {
    SameSize(s, t);
    if t.Test? || t.Clear? {
      OneInside(s);
      Actor(s, t);
    } else {
      PcKept(s, t, p);
    }
  }

  lemma PcKept(s: State, t: Step, p: nat)
    requires Inv(s) && Enabled(s, t) && p < |s.procs| && PcOk(s, p) && !t.Test? && !t.Clear?
    ensures PcOk(Next(s, t), p)
  {
    hide Placed, InnerOk, HoldersOk, WakeOk, CpuOk;
  }

  lemma HoldersStep(s: State, t: Step)
    requires Inv(s) && Enabled(s, t)
    ensures HoldersOk(Next(s, t))
  {
    hide Next, Enabled, PlacesOk, InnerOk, WakeOk;
    HoldersSet(s, t);
    SameSize(s, t);
    forall p | 0 <= p < |s.procs| ensures PcOk(Next(s, t), p) {
      PcStep(s, t, p);
    }
  }

  /** A process starts to wait only while `locked` is set. */
  lemma StartsWaiting(s: State, t: Step, q: nat)
    requires Inv(s) && Enabled(s, t) && q < |s.procs| && Waiting(Next(s, t).procs[q])
    ensures Waiting(s.procs[q]) || Next(s, t).locked
  {
    hide InnerOk, WakeOk;
    assert Placed(s, q) && PcOk(s, q);
    if !t.Claim? && !t.Rouse? {
      CpuActs(s, t);
    }
  }

  /** The process in `wake_up` is undisturbed by every other CPU. */
  lemma WakerStays(s: State, t: Step, q: nat)
    requires Inv(s) && Enabled(s, t) && q < |s.procs| && Waking(s, q) && t.c != s.inner.value
    ensures Waking(Next(s, t), q)
  {
    OneInside(s);
    assert Placed(s, s.cpus[s.inner.value].p);
    if !t.Claim? && !t.Rouse? {
      Actor(s, t);
    }
  }

  /** The process in `wake_up` passes a waiting process only by waking it. */
  lemma WakerMoves(s: State, t: Step, q: nat)
    requires Inv(s) && Enabled(s, t) && q < |s.procs| && Waking(s, q) && t.c == s.inner.value
    requires Waiting(s.procs[q]) && Waiting(Next(s, t).procs[q])
    ensures Waking(Next(s, t), q)
  {
    hide HoldersOk, WakeOk, InnerOk, Next;
    assert Placed(s, q);
    assert Placed(s, s.cpus[t.c].p);
    WakerSteps(s, t, q);
    WakerPasses(s, t, q);
  }

  /** The process in `wake_up` takes no other step. */
  lemma WakerSteps(s: State, t: Step, q: nat)
    requires Inv(s) && Enabled(s, t) && q < |s.procs| && Waking(s, q) && t.c == s.inner.value
    ensures t.WakeOne? && s.procs[s.cpus[t.c].p].pc.k <= q
  {
    hide HoldersOk, WakeOk;
    assert Placed(s, s.cpus[t.c].p);
  }

  lemma WakerPasses(s: State, t: Step, q: nat)
    requires Inv(s) && Enabled(s, t) && q < |s.procs| && t.WakeOne? && Waking(s, q) && t.c == s.inner.value
    requires Placed(s, q) && Placed(s, s.cpus[t.c].p) && Waiting(s.procs[q]) && Waiting(Next(s, t).procs[q])
    ensures Waking(Next(s, t), q)
  {
    hide HoldersOk, WakeOk, InnerOk, PlacesOk;
  }

  lemma Unlocks(s: State, t: Step)
    requires Inv(s) && Enabled(s, t) && s.locked && !Next(s, t).locked
    ensures forall q :: 0 <= q < |s.procs| ==> Waking(Next(s, t), q)
  {
    assert t.Clear?;
    assert Placed(s, s.cpus[t.c].p);
  }

  lemma WakeStep(s: State, t: Step, q: nat)
    requires Inv(s) && Enabled(s, t) && q < |s.procs| && Waiting(Next(s, t).procs[q])
    ensures Next(s, t).locked || Waking(Next(s, t), q)
  {
    hide Next, Enabled, Waiting;
    StartsWaiting(s, t, q);
    if !Next(s, t).locked {
      if s.locked {
        Unlocks(s, t);
      } else if s.inner == Some(t.c) {
        WakerMoves(s, t, q);
      } else {
        WakerStays(s, t, q);
      }
    }
  }

  lemma InvStep(s: State, t: Step)
    requires Inv(s) && Enabled(s, t)
    ensures Inv(Next(s, t))
  {
    hide Next, Enabled, Placed, CpuOk, HoldersOk, Waking, Waiting, Inside, InCode;
    var u := Next(s, t);
    SameSize(s, t);
    PlacesStep(s, t);
    HoldersStep(s, t);
    forall p | 0 <= p < |u.procs| && Inside(u.procs[p].pc) ensures u.inner.Some? && u.procs[p].on == u.inner {
      InnerProcs(s, t, p);
    }
    if u.inner.Some? {
      InnerHeld(s, t);
    }
    forall q | 0 <= q < |u.procs| && Waiting(u.procs[q]) ensures u.locked || Waking(u, q) {
      WakeStep(s, t, q);
    }
  }
}
