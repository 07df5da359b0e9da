/**
 The sleep lock, sleeping and waking, and the scheduler, as a transition system over any
 number of processes and CPUs.  A step is one statement that touches shared state.  A
 critical section of a process's own spinlock that touches nothing else is one step; the
 spinlock itself is a variable where it is held across other statements, as it is from
 `sleep` into the scheduler and back out of it.
 */
module SleepLock {
  import opened Collections

  datatype RunState = Unused | Sleeping | Runnable | Running | Zombie | Allocated

  /** What a process sleeps on: nothing, this lock, or some other channel. */
  datatype Chan = NoChan | ThisLock | Elsewhere

  /** Where a process is in `lock`, `sleep` and `unlock`. */
  datatype Pc =
    | Idle                // outside, or in other code with no spinlock held
    | LockSpin            // lock: acquiring the inner spinlock
    | LockTest            // lock: testing `locked`
    | SleepMeta           // sleep: acquiring its own meta spinlock
    | SleepDrop           // sleep: releasing the inner spinlock
    | SleepSet            // sleep: setting channel and state, then switching away
    | UnlockSpin          // unlock: acquiring the inner spinlock
    | UnlockClear         // unlock: clearing `locked`
    | Wake(k: nat)        // unlock: in `wake_up`, at process `k`

  /**
   `meta` is the CPU holding the meta spinlock.  `parked` is set from switching away until
   the process has run again and released its meta spinlock.  `on`, an auxiliary, is the
   CPU whose scheduler has taken the process; `newborn` marks one that fork is still making.
   */
  datatype Proc = Proc(state: RunState, chan: Chan, meta: Option<nat>, pc: Pc, parked: bool, on: Option<nat>,
                       newborn: bool)

  datatype Cpu = Scan | Claimed(p: nat) | Runs(p: nat) | Back(p: nat)

  /** `holders`: the processes that returned from `lock` and have not yet cleared it. */
  datatype State = State(procs: seq<Proc>, cpus: seq<Cpu>, inner: Option<nat>, locked: bool, holders: set<nat>)

  datatype Step =
    | Claim(c: nat, q: nat)        // seek_runnable: Runnable to Allocated
    | Dispatch(c: nat)             // scheduler: take the meta spinlock, set Running, switch
    | Return(c: nat)               // scheduler: after the switch back, release the meta spinlock
    | Resume(c: nat)               // after sched: clear the channel, release the meta spinlock
    | CallLock(c: nat) | TakeInner(c: nat) | Test(c: nat)
    | TakeMeta(c: nat) | DropInner(c: nat) | GoToSleep(c: nat)
    | CallUnlock(c: nat) | Clear(c: nat) | WakeOne(c: nat) | WakeDone(c: nat)
    | Yield(c: nat)                // timer interrupt or yielding
    | SleepElsewhere(c: nat)       // sleep on any other channel
    | Exit(c: nat)
    | Rouse(c: nat, q: nat)        // kill, or a wake_up of another channel, also from an interrupt
    | Create(c: nat, q: nat) | Start(c: nat, q: nat) | Reap(c: nat, q: nat)

  /** CPU `c` runs process `p`, past the release of its meta spinlock, at `pc`. */
  predicate At(s: State, c: nat, pc: Pc) {
    InCode(s, c) && s.procs[s.cpus[c].p].pc == pc
  }

  predicate InCode(s: State, c: nat) {
    c < |s.cpus| && s.cpus[c].Runs? && s.cpus[c].p < |s.procs| && !s.procs[s.cpus[c].p].parked
  }

  predicate MetaFree(s: State, q: nat) {
    q < |s.procs| && s.procs[q].meta == None
  }

  /** CPU `c` holds no spinlock, so an interrupt may come: in its scheduler's search, or in a process. */
  predicate NoSpinlock(s: State, c: nat) {
    && c < |s.cpus|
    && (s.cpus[c].Scan? || s.cpus[c].Claimed? || At(s, c, Idle) || At(s, c, LockSpin) || At(s, c, UnlockSpin))
  }

  predicate Enabled(s: State, t: Step) {
    match t
    case Claim(c, q) => c < |s.cpus| && s.cpus[c] == Scan && MetaFree(s, q) && s.procs[q].state == Runnable
    case Dispatch(c) => c < |s.cpus| && s.cpus[c].Claimed? && MetaFree(s, s.cpus[c].p)
    case Return(c) => c < |s.cpus| && s.cpus[c].Back? && s.cpus[c].p < |s.procs|
    case Resume(c) => c < |s.cpus| && s.cpus[c].Runs? && s.cpus[c].p < |s.procs| && s.procs[s.cpus[c].p].parked
    case CallLock(c) => At(s, c, Idle)
    case TakeInner(c) => (At(s, c, LockSpin) || At(s, c, UnlockSpin)) && s.inner == None
    case Test(c) => At(s, c, LockTest)
    case TakeMeta(c) => At(s, c, SleepMeta) && MetaFree(s, s.cpus[c].p)
    case DropInner(c) => At(s, c, SleepDrop)
    case GoToSleep(c) => At(s, c, SleepSet)
    case CallUnlock(c) => At(s, c, Idle) && s.cpus[c].p in s.holders
    case Clear(c) => At(s, c, UnlockClear)
    case WakeOne(c) =>
      InCode(s, c) && s.procs[s.cpus[c].p].pc.Wake? && s.procs[s.cpus[c].p].pc.k < |s.procs|
      && (s.procs[s.cpus[c].p].pc.k == s.cpus[c].p || MetaFree(s, s.procs[s.cpus[c].p].pc.k))
    case WakeDone(c) => At(s, c, Wake(|s.procs|))
    case Yield(c) => (At(s, c, Idle) || At(s, c, LockSpin) || At(s, c, UnlockSpin)) && MetaFree(s, s.cpus[c].p)
    case SleepElsewhere(c) => At(s, c, Idle) && MetaFree(s, s.cpus[c].p)
    case Exit(c) => At(s, c, Idle) && MetaFree(s, s.cpus[c].p) && s.cpus[c].p !in s.holders
    case Rouse(c, q) => NoSpinlock(s, c) && MetaFree(s, q) && s.procs[q].state == Sleeping
    case Create(c, q) => At(s, c, Idle) && MetaFree(s, q) && s.procs[q].state == Unused
    case Start(c, q) => At(s, c, Idle) && MetaFree(s, q) && s.procs[q].newborn
    case Reap(c, q) => At(s, c, Idle) && MetaFree(s, q) && s.procs[q].state == Zombie
  }

  function SetProc(s: State, p: nat, r: Proc): State
    requires p < |s.procs|
  {
    s.(procs := s.procs[p := r])
  }

  function SetCpu(s: State, c: nat, u: Cpu): State
    requires c < |s.cpus|
  {
    s.(cpus := s.cpus[c := u])
  }

  /** Switch away, holding the meta spinlock, with the given new state. */
  function SwitchOut(s: State, c: nat, st: RunState, ch: Chan, pc: Pc): State
    requires InCode(s, c)
  {
    var p := s.cpus[c].p;
    SetCpu(SetProc(s, p, s.procs[p].(state := st, chan := ch, meta := Some(c), pc := pc, parked := true)), c, Back(p))
  }

  function Next(s: State, t: Step): State
    requires Enabled(s, t)
  {
    var p := if t.c < |s.cpus| && !s.cpus[t.c].Scan? then s.cpus[t.c].p else 0;
    match t
    case Claim(c, q) => SetCpu(SetProc(s, q, s.procs[q].(state := Allocated, on := Some(c))), c, Claimed(q))
    case Dispatch(c) => SetCpu(SetProc(s, p, s.procs[p].(state := Running, meta := Some(c))), c, Runs(p))
    case Return(c) => SetCpu(SetProc(s, p, s.procs[p].(meta := None, on := None)), c, Scan)
    case Resume(c) => SetProc(s, p, s.procs[p].(chan := NoChan, meta := None, parked := false))
    case CallLock(c) => SetProc(s, p, s.procs[p].(pc := LockSpin))
    case TakeInner(c) =>
      SetProc(s, p, s.procs[p].(pc := if s.procs[p].pc == LockSpin then LockTest else UnlockClear)).(inner := Some(c))
    case Test(c) =>
      if s.locked then SetProc(s, p, s.procs[p].(pc := SleepMeta))
      else SetProc(s, p, s.procs[p].(pc := Idle)).(inner := None, locked := true, holders := s.holders + {p})
    case TakeMeta(c) => SetProc(s, p, s.procs[p].(pc := SleepDrop, meta := Some(c)))
    case DropInner(c) => SetProc(s, p, s.procs[p].(pc := SleepSet)).(inner := None)
    case GoToSleep(c) => SwitchOut(s, c, Sleeping, ThisLock, LockSpin)
    case CallUnlock(c) => SetProc(s, p, s.procs[p].(pc := UnlockSpin))
    case Clear(c) => SetProc(s, p, s.procs[p].(pc := Wake(0))).(locked := false, holders := s.holders - {p})
    case WakeOne(c) =>
      var k := s.procs[p].pc.k;
      SetProc(Roused(s, p, k), p, s.procs[p].(pc := Wake(k + 1)))
    case WakeDone(c) => SetProc(s, p, s.procs[p].(pc := Idle)).(inner := None)
    case Yield(c) => SwitchOut(s, c, Runnable, s.procs[p].chan, s.procs[p].pc)
    case SleepElsewhere(c) => SwitchOut(s, c, Sleeping, Elsewhere, Idle)
    case Exit(c) => SwitchOut(s, c, Zombie, NoChan, Idle)
    case Rouse(c, q) => SetProc(s, q, s.procs[q].(state := Runnable))
    case Create(c, q) =>
      SetProc(s, q, s.procs[q].(state := Allocated, chan := NoChan, pc := Idle, parked := true, newborn := true))
    case Start(c, q) => SetProc(s, q, s.procs[q].(state := Runnable, newborn := false))
    case Reap(c, q) => SetProc(s, q, s.procs[q].(state := Unused))
  }

  /** `wake_up` at process `k`, skipping the caller. */
  function Roused(s: State, p: nat, k: nat): State
    requires p < |s.procs| && k < |s.procs|
  {
    if k != p && s.procs[k].state == Sleeping && s.procs[k].chan == ThisLock
    then SetProc(s, k, s.procs[k].(state := Runnable))
    else s
  }
}
