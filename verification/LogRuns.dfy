/**
 Crash atomicity of the write-ahead log over whole runs: group commits, crashes
 between any two block writes of a commit, and recoveries that may crash too.
 */
module LogRuns {
  import opened LogFormat

  /** One group commit: home blocks and their new contents. */
  type Group = seq<Write>

  /** The log area is the header block and the LOGSIZE-1 blocks behind it. */
  predicate Home(start: nat, n: nat) {
    n < start || n >= start + LOGSIZE
  }

  /** Home blocks are those that neither the header nor the copy of any block of a group can be written to. */
  lemma HomeIff(start: nat, n: nat, g: Group)
    requires |g| == LOGSIZE - 1
    ensures Home(start, n) <==> n != start && n !in Bnos(LogWrites(start, g))
  {
    var ws := LogWrites(start, g);
    if !Home(start, n) && n != start {
      assert Bnos(ws)[n - start - 1] == n;
    }
  }

  predicate Distinct(g: Group) {
    forall i, j :: 0 <= i < j < |g| ==> g[i].bno != g[j].bno
  }

  /** What `Log::write` lets into a transaction: distinct home blocks that fit. */
  predicate GroupOk(start: nat, g: Group) {
    && |g| <= LOGSIZE - 1
    && Distinct(g)
    && forall i :: 0 <= i < |g| ==> Home(start, g[i].bno)
  }

  /** The in-memory header of a group; `stale` is what later entries still hold. */
  function HeaderOf(g: Group, stale: seq<nat>): (h: LogHeader)
    requires |g| <= LOGSIZE - 1 && |stale| == LOGSIZE - 1
    ensures HeaderOk(h) && h.len == |g| && h.blocknos[..h.len] == Bnos(g)
  {
    LogHeader(|g|, Bnos(g) + stale[|g|..])
  }

  ghost predicate SameHome(start: nat, d: Disk, e: Disk) {
    forall n: nat :: Home(start, n) ==> At(d, n) == At(e, n)
  }

  /** The reference: groups applied one after another with no log and no crash. */
  function InstallAll(d: Disk, gs: seq<Group>): Disk {
    if gs == [] then d else Apply(InstallAll(d, gs[..|gs| - 1]), gs[|gs| - 1])
  }

  /** A header that recovery can replay, and the group it names. */
  predicate LogOk(start: nat, d: Disk) {
    HeaderOk(GetHeader(At(d, start))) && GroupOk(start, InLog(start, d))
  }

  function InLog(start: nat, d: Disk): Group
    requires HeaderOk(GetHeader(At(d, start)))
  {
    Logged(start, d, GetHeader(At(d, start)))
  }

  predicate Clean(start: nat, d: Disk) {
    GetHeader(At(d, start)).len == 0
  }

  function Recovered(start: nat, d: Disk): Disk
    requires LogOk(start, d)
  {
    Apply(d, RecoverWrites(start, d))
  }

  // ----- one group: what an install does to home blocks and to the log area -----

  lemma InstallHome(start: nat, d: Disk, e: Disk, g: Group)
    requires GroupOk(start, g) && SameHome(start, d, e)
    ensures SameHome(start, Apply(d, g), Apply(e, g))
  {
    forall n: nat | Home(start, n) ensures At(Apply(d, g), n) == At(Apply(e, g), n) {
      if k :| 0 <= k < |g| && g[k].bno == n {
        ApplyLast(d, g, k);
        ApplyLast(e, g, k);
      } else {
        ApplyUntouched(d, g, n);
        ApplyUntouched(e, g, n);
      }
    }
  }

  /** Writes confined to home blocks leave the log area alone. */
  lemma HomeWritesKeepLog(start: nat, d: Disk, ws: seq<Write>)
    requires forall i :: 0 <= i < |ws| ==> Home(start, ws[i].bno)
    ensures forall n: nat :: !Home(start, n) ==> At(Apply(d, ws), n) == At(d, n)
  {
    forall n: nat | !Home(start, n) ensures At(Apply(d, ws), n) == At(d, n) {
      ApplyUntouched(d, ws, n);
    }
  }

  /** Installing a group over any prefix of itself gives the same home blocks. */
  lemma ReinstallOverPrefix(start: nat, d: Disk, g: Group, k: nat)
    requires GroupOk(start, g) && k <= |g|
    ensures SameHome(start, Apply(Apply(d, g[..k]), g), Apply(d, g))
  {
    var e := Apply(d, g[..k]);
    forall n: nat | Home(start, n) ensures At(Apply(e, g), n) == At(Apply(d, g), n) {
      if j :| 0 <= j < |g| && g[j].bno == n {
        ApplyLast(e, g, j);
        ApplyLast(d, g, j);
      } else {
        ApplyUntouched(e, g, n);
        ApplyUntouched(d, g, n);
        ApplyUntouched(d, g[..k], n);
      }
    }
  }

  /** A complete recovery installs the group in the log and leaves an empty log. */
  lemma RecoveredIsInstall(start: nat, d: Disk)
    requires LogOk(start, d)
    ensures SameHome(start, Recovered(start, d), Apply(d, InLog(start, d)))
    ensures LogOk(start, Recovered(start, d)) && Clean(start, Recovered(start, d))
  {
    var g := InLog(start, d);
    if g == [] {
      assert RecoverWrites(start, d) == [];
    } else {
      ApplySnoc(d, g, Write(start, Emptied(At(d, start))));
    }
  }

  lemma CleanRecovers(start: nat, d: Disk)
    requires LogOk(start, d) && Clean(start, d)
    ensures Recovered(start, d) == d
  {
    assert RecoverWrites(start, d) == [];
  }

  // ----- crashes inside a recovery -----

  /** While home blocks are being installed, the log still holds the whole group. */
  lemma InstallKeepsLog(start: nat, d: Disk, k: nat)
    requires LogOk(start, d) && k <= |InLog(start, d)|
    ensures var e := Apply(d, InLog(start, d)[..k]);
            LogOk(start, e) && InLog(start, e) == InLog(start, d)
  {
    var g := InLog(start, d);
    HomeWritesKeepLog(start, d, g[..k]);
    assert Logged(start, Apply(d, g[..k]), GetHeader(At(d, start))) == g;
  }

  /** A recovery cut off after any `k` writes leaves what a complete one would. */
  lemma RecoveryCrash(start: nat, d: Disk, k: nat)
    requires LogOk(start, d) && k <= |RecoverWrites(start, d)|
    ensures var e := Apply(d, RecoverWrites(start, d)[..k]);
            LogOk(start, e) && SameHome(start, Recovered(start, e), Recovered(start, d))
  {
    var ws := RecoverWrites(start, d);
    var g := InLog(start, d);
    RecoveredIsInstall(start, d);
    if k == |ws| {
      assert ws[..k] == ws;
      CleanRecovers(start, Apply(d, ws));
    } else {
      assert ws[..k] == g[..k];
      InstallKeepsLog(start, d, k);
      RecoveredIsInstall(start, Apply(d, g[..k]));
      ReinstallOverPrefix(start, d, g, k);
    }
  }

  // ----- crashes inside a commit -----

  /** Before the header write lands, the log still recovers to the old home blocks. */
  lemma CrashBeforeHead(start: nat, d: Disk, g: Group, k: nat)
    requires LogOk(start, d) && Clean(start, d) && |g| <= LOGSIZE - 1 && k <= |g|
    ensures var e := Apply(d, LogWrites(start, g)[..k]);
            LogOk(start, e) && Clean(start, e) && SameHome(start, e, d)
  {
    var ws := LogWrites(start, g)[..k];
    forall n: nat | Home(start, n) || n == start
      ensures At(Apply(d, ws), n) == At(d, n)
    {
      ApplyUntouched(d, ws, n);
    }
  }

  function ToHead(start: nat, d: Disk, g: Group, stale: seq<nat>): seq<Write>
    requires |g| <= LOGSIZE - 1 && |stale| == LOGSIZE - 1
  {
    LogWrites(start, g) + [HeadWrite(start, d, HeaderOf(g, stale))]
  }

  /** The disk right after the header write: the header is on disk ... */
  lemma HeadLanded(start: nat, d: Disk, g: Group, stale: seq<nat>)
    requires |g| <= LOGSIZE - 1 && |stale| == LOGSIZE - 1
    ensures At(Apply(d, ToHead(start, d, g, stale)), start) == HeadWrite(start, d, HeaderOf(g, stale)).data
    ensures SameHome(start, Apply(d, ToHead(start, d, g, stale)), d)
  {
    hide Apply, HeaderOf;
    var ws := ToHead(start, d, g, stale);
    ApplyLast(d, ws, |g|);
    forall n: nat | Home(start, n) ensures At(Apply(d, ws), n) == At(d, n) {
      ApplyUntouched(d, ws, n);
    }
  }

  lemma CopyLanded(start: nat, d: Disk, g: Group, stale: seq<nat>, i: nat)
    requires |g| <= LOGSIZE - 1 && |stale| == LOGSIZE - 1 && i < |g|
    ensures At(Apply(d, ToHead(start, d, g, stale)), start + 1 + i) == g[i].data
  {
    hide Apply, PutHeader, HeaderOf, LogWrites;
    var ws := ToHead(start, d, g, stale);
    assert ws[i] == Write(start + 1 + i, g[i].data);
    forall j | i < j < |ws| ensures ws[j].bno != ws[i].bno {
      assert j < |g| ==> ws[j] == LogWrites(start, g)[j];
    }
    ApplyLast(d, ws, i);
  }

  /** ... and the whole group sits in the log. */
  lemma AfterHead(start: nat, d: Disk, g: Group, stale: seq<nat>)
    requires GroupOk(start, g) && |stale| == LOGSIZE - 1
    ensures LogOk(start, Apply(d, ToHead(start, d, g, stale)))
    ensures InLog(start, Apply(d, ToHead(start, d, g, stale))) == g
  {
    var h := HeaderOf(g, stale);
    var e := Apply(d, ToHead(start, d, g, stale));
    HeadLanded(start, d, g, stale);
    assert GetHeader(At(e, start)) == h;
    forall i | 0 <= i < |g| ensures Logged(start, e, h)[i] == g[i] {
      CopyLanded(start, d, g, stale, i);
      assert h.blocknos[i] == h.blocknos[..h.len][i];
    }
    assert Logged(start, e, h) == g;
  }

  /** The writes behind the header write are exactly a recovery of that disk. */
  lemma CommitTailIsRecovery(start: nat, d: Disk, g: Group, stale: seq<nat>)
    requires GroupOk(start, g) && |g| > 0 && |stale| == LOGSIZE - 1
    ensures var m := Apply(d, ToHead(start, d, g, stale));
            LogOk(start, m) && InLog(start, m) == g && SameHome(start, m, d)
            && CommitWrites(start, d, HeaderOf(g, stale), g)
               == ToHead(start, d, g, stale) + RecoverWrites(start, m)
  {
    AfterHead(start, d, g, stale);
    HeadLanded(start, d, g, stale);
    var h := HeaderOf(g, stale);
    var m := Apply(d, ToHead(start, d, g, stale));
    assert RecoverWrites(start, m) == g + [Write(start, Emptied(At(m, start)))];
  }

  /**
   One commit is atomic: cut off after any `k` of its writes, recovery leaves the
   group's effect exactly when the header write, number |g|, has landed.
   */
  lemma CommitAtomic(start: nat, d: Disk, g: Group, stale: seq<nat>, k: nat)
    requires LogOk(start, d) && Clean(start, d) && GroupOk(start, g) && |stale| == LOGSIZE - 1
    requires k <= |CommitWrites(start, d, HeaderOf(g, stale), g)|
    ensures var e := Apply(d, CommitWrites(start, d, HeaderOf(g, stale), g)[..k]);
            && LogOk(start, e)
            && SameHome(start, Recovered(start, e), if k > |g| then Apply(d, g) else d)
  {
    var ws := CommitWrites(start, d, HeaderOf(g, stale), g);
    if k <= |g| {
      assert ws[..k] == LogWrites(start, g)[..k];
      CrashBeforeHead(start, d, g, k);
      CleanRecovers(start, Apply(d, ws[..k]));
    } else {
      CommitTailIsRecovery(start, d, g, stale);
      var pre := ToHead(start, d, g, stale);
      var m := Apply(d, pre);
      var j := k - |pre|;
      assert ws[..k] == pre + RecoverWrites(start, m)[..j];
      ApplyConcat(d, pre, RecoverWrites(start, m)[..j]);
      RecoveryCrash(start, m, j);
      RecoveredIsInstall(start, m);
      InstallHome(start, m, d, g);
    }
  }

  /** A commit that runs to its end leaves a clean log and the group installed. */
  lemma CommitComplete(start: nat, d: Disk, g: Group, stale: seq<nat>)
    requires LogOk(start, d) && Clean(start, d) && GroupOk(start, g) && |stale| == LOGSIZE - 1
    ensures var e := Apply(d, CommitWrites(start, d, HeaderOf(g, stale), g));
            LogOk(start, e) && Clean(start, e) && SameHome(start, e, Apply(d, g))
  {
    if g != [] {
      CommitTailIsRecovery(start, d, g, stale);
      var m := Apply(d, ToHead(start, d, g, stale));
      ApplyConcat(d, ToHead(start, d, g, stale), RecoverWrites(start, m));
      RecoveredIsInstall(start, m);
      InstallHome(start, m, d, g);
    }
  }

  // ----- whole runs -----

  /**
   What can happen to the disk: a commit completes; power fails after `k` writes of
   a commit; power fails after `k` writes of a recovery; a recovery completes.
   */
  datatype Event =
    | Commit(g: Group, stale: seq<nat>)
    | CrashInCommit(g: Group, stale: seq<nat>, k: nat)
    | CrashInRecovery(k: nat)
    | Recovery

  /** `up`: recovered and running.  `landed`: the groups whose commit point was passed. */
  datatype State = State(disk: Disk, up: bool, landed: seq<Group>)

  predicate Enabled(start: nat, s: State, ev: Event)
    requires LogOk(start, s.disk)
  {
    match ev
    case Commit(g, stale) => s.up && GroupOk(start, g) && |stale| == LOGSIZE - 1
    case CrashInCommit(g, stale, k) =>
      && s.up && GroupOk(start, g) && |stale| == LOGSIZE - 1
      && k <= |CommitWrites(start, s.disk, HeaderOf(g, stale), g)|
    case CrashInRecovery(k) => !s.up && k <= |RecoverWrites(start, s.disk)|
    case Recovery => !s.up
  }

  function Next(start: nat, s: State, ev: Event): State
    requires LogOk(start, s.disk) && Enabled(start, s, ev)
  {
    match ev
    case Commit(g, stale) =>
      State(Apply(s.disk, CommitWrites(start, s.disk, HeaderOf(g, stale), g)), true, s.landed + [g])
    case CrashInCommit(g, stale, k) =>
      State(Apply(s.disk, CommitWrites(start, s.disk, HeaderOf(g, stale), g)[..k]), false,
            if k > |g| then s.landed + [g] else s.landed)
    case CrashInRecovery(k) =>
      s.(disk := Apply(s.disk, RecoverWrites(start, s.disk)[..k]))
    case Recovery => State(Recovered(start, s.disk), true, s.landed)
  }

  /** `s` is reached from `s0` by the events in order, each enabled when it happens. */
  ghost predicate Reaches(start: nat, s0: State, evs: seq<Event>, s: State)
    decreases |evs|
  {
    if evs == [] then s == s0
    else LogOk(start, s0.disk) && Enabled(start, s0, evs[0])
         && Reaches(start, Next(start, s0, evs[0]), evs[1..], s)
  }

  /** What every reachable state keeps, relative to the home blocks `d0` at the start. */
  ghost predicate Inv(start: nat, d0: Disk, s: State) {
    && LogOk(start, s.disk)
    && (s.up ==> Clean(start, s.disk))
    && (forall i :: 0 <= i < |s.landed| ==> GroupOk(start, s.landed[i]))
    && SameHome(start, Recovered(start, s.disk), InstallAll(d0, s.landed))
  }

  lemma InvCommit(start: nat, d0: Disk, s: State, g: Group, stale: seq<nat>)
    requires Inv(start, d0, s) && Enabled(start, s, Commit(g, stale))
    ensures Inv(start, d0, Next(start, s, Commit(g, stale)))
  {
    var t := Next(start, s, Commit(g, stale));
    CommitComplete(start, s.disk, g, stale);
    CleanRecovers(start, s.disk);
    CleanRecovers(start, t.disk);
    InstallHome(start, s.disk, InstallAll(d0, s.landed), g);
    assert t.landed[..|t.landed| - 1] == s.landed;
  }

  lemma InvCrashInCommit(start: nat, d0: Disk, s: State, g: Group, stale: seq<nat>, k: nat)
    requires Inv(start, d0, s) && Enabled(start, s, CrashInCommit(g, stale, k))
    ensures Inv(start, d0, Next(start, s, CrashInCommit(g, stale, k)))
  {
    var t := Next(start, s, CrashInCommit(g, stale, k));
    CommitAtomic(start, s.disk, g, stale, k);
    CleanRecovers(start, s.disk);
    InstallHome(start, s.disk, InstallAll(d0, s.landed), g);
    assert k > |g| ==> t.landed[..|t.landed| - 1] == s.landed;
  }

  lemma InvStep(start: nat, d0: Disk, s: State, ev: Event)
    requires Inv(start, d0, s) && Enabled(start, s, ev)
    ensures Inv(start, d0, Next(start, s, ev))
  {
    match ev
    case Commit(g, stale) => InvCommit(start, d0, s, g, stale);
    case CrashInCommit(g, stale, k) => InvCrashInCommit(start, d0, s, g, stale, k);
    case CrashInRecovery(k) => RecoveryCrash(start, s.disk, k);
    case Recovery =>
      RecoveredIsInstall(start, s.disk);
      CleanRecovers(start, Recovered(start, s.disk));
  }

  lemma {:induction false} InvReaches(start: nat, d0: Disk, s0: State, evs: seq<Event>, s: State)
    requires Inv(start, d0, s0) && Reaches(start, s0, evs, s)
    ensures Inv(start, d0, s)
    decreases |evs|
  {
    if evs != [] {
      InvStep(start, d0, s0, evs[0]);
      InvReaches(start, d0, Next(start, s0, evs[0]), evs[1..], s);
    }
  }

  /**
   Crash atomicity over whole runs.  Boot a disk with an empty log and let any events
   happen: whenever the system is up, its home blocks are those of the groups whose
   header write landed, applied in order with no log and no crash.
   */
  lemma CrashAtomicity(start: nat, d0: Disk, evs: seq<Event>, s: State)
    requires LogOk(start, d0) && Clean(start, d0)
    requires Reaches(start, State(d0, true, []), evs, s)
    ensures forall i :: 0 <= i < |s.landed| ==> GroupOk(start, s.landed[i])
    ensures s.up ==> Clean(start, s.disk) && SameHome(start, s.disk, InstallAll(d0, s.landed))
    ensures LogOk(start, s.disk)
    ensures SameHome(start, Recovered(start, s.disk), InstallAll(d0, s.landed))
  {
    var s0 := State(d0, true, []);
    CleanRecovers(start, d0);
    assert Inv(start, d0, s0);
    InvReaches(start, d0, s0, evs, s);
    if s.up {
      CleanRecovers(start, s.disk);
    }
  }

  // ----- runs and the block writes they make -----

  /** The block writes of one event. */
  function Writes(start: nat, s: State, ev: Event): seq<Write>
    requires LogOk(start, s.disk) && Enabled(start, s, ev)
  {
    match ev
    case Commit(g, stale) => CommitWrites(start, s.disk, HeaderOf(g, stale), g)
    case CrashInCommit(g, stale, k) => CommitWrites(start, s.disk, HeaderOf(g, stale), g)[..k]
    case CrashInRecovery(k) => RecoverWrites(start, s.disk)[..k]
    case Recovery => RecoverWrites(start, s.disk)
  }

  /** A run, with all its block writes in order. */
  ghost predicate Traces(start: nat, s0: State, evs: seq<Event>, s: State, ws: seq<Write>)
    decreases |evs|
  {
    if evs == [] then s == s0 && ws == []
    else
      && LogOk(start, s0.disk) && Enabled(start, s0, evs[0]) && Writes(start, s0, evs[0]) <= ws
      && Traces(start, Next(start, s0, evs[0]), evs[1..], s, ws[|Writes(start, s0, evs[0])|..])
  }

  lemma {:induction false} TracesReaches(start: nat, s0: State, evs: seq<Event>, s: State, ws: seq<Write>)
    requires Traces(start, s0, evs, s, ws)
    ensures Reaches(start, s0, evs, s) && s0.landed <= s.landed
    decreases |evs|
  {
    if evs != [] {
      var w := Writes(start, s0, evs[0]);
      TracesReaches(start, Next(start, s0, evs[0]), evs[1..], s, ws[|w|..]);
    }
  }

  lemma {:induction false} TracesConcat(start: nat, s0: State, e1: seq<Event>, s1: State, w1: seq<Write>,
                                        e2: seq<Event>, s2: State, w2: seq<Write>)
    requires Traces(start, s0, e1, s1, w1) && Traces(start, s1, e2, s2, w2)
    ensures Traces(start, s0, e1 + e2, s2, w1 + w2)
    decreases |e1|
  {
    hide LogOk, Enabled, Next, Writes;
    if e1 == [] {
      assert e1 + e2 == e2 && w1 + w2 == w2;
    } else {
      var w := Writes(start, s0, e1[0]);
      TracesConcat(start, Next(start, s0, e1[0]), e1[1..], s1, w1[|w|..], e2, s2, w2);
      assert (e1 + e2)[1..] == e1[1..] + e2;
      assert (w1 + w2)[|w|..] == w1[|w|..] + w2;
    }
  }

  lemma TracesOne(start: nat, s: State, ev: Event)
    requires LogOk(start, s.disk) && Enabled(start, s, ev)
    ensures Traces(start, s, [ev], Next(start, s, ev), Writes(start, s, ev))
  {
    assert [ev][1..] == [];
  }

  /** Power fails after `k` writes of an event: again an event. */
  function Cut(ev: Event, k: nat): Event {
    match ev
    case Commit(g, stale) => CrashInCommit(g, stale, k)
    case CrashInCommit(g, stale, _) => CrashInCommit(g, stale, k)
    case _ => CrashInRecovery(k)
  }

  lemma CutEvent(start: nat, s: State, ev: Event, k: nat)
    requires LogOk(start, s.disk) && Enabled(start, s, ev) && k <= |Writes(start, s, ev)|
    ensures Enabled(start, s, Cut(ev, k))
    ensures Next(start, s, Cut(ev, k)).disk == Apply(s.disk, Writes(start, s, ev)[..k])
    ensures Next(start, s, Cut(ev, k)).landed <= Next(start, s, ev).landed
  {
    hide Apply, CommitWrites, RecoverWrites, GroupOk;
    match ev
    case CrashInCommit(g, stale, n) =>
      var ws := CommitWrites(start, s.disk, HeaderOf(g, stale), g);
      assert ws[..n][..k] == ws[..k];
    case CrashInRecovery(n) =>
      assert RecoverWrites(start, s.disk)[..n][..k] == RecoverWrites(start, s.disk)[..k];
    case _ =>
  }

  /** Cut a run off after any number of its block writes: the disk is that of another run. */
  lemma {:induction false} CutRun(start: nat, s0: State, evs: seq<Event>, s: State, ws: seq<Write>, k: nat)
    returns (cut: seq<Event>, t: State)
    requires Traces(start, s0, evs, s, ws) && k <= |ws|
    ensures Reaches(start, s0, cut, t) && t.disk == Apply(s0.disk, ws[..k]) && t.landed <= s.landed
    decreases |evs|
  {
    hide LogOk, Apply, Enabled, Next, Writes;
    TracesReaches(start, s0, evs, s, ws);
    if evs == [] {
      ApplyNothing(s0.disk, ws);
      return [], s0;
    }
    var w := Writes(start, s0, evs[0]);
    var mid := Next(start, s0, evs[0]);
    TracesReaches(start, mid, evs[1..], s, ws[|w|..]);
    if k <= |w| {
      var ev := Cut(evs[0], k);
      CutEvent(start, s0, evs[0], k);
      assert w[..k] == ws[..k] && [ev][1..] == [];
      return [ev], Next(start, s0, ev);
    }
    var rest;
    rest, t := CutRun(start, mid, evs[1..], s, ws[|w|..], k - |w|);
    NextDisk(start, s0, evs[0]);
    ApplyConcat(s0.disk, w, ws[|w|..][..k - |w|]);
    assert w + ws[|w|..][..k - |w|] == ws[..k];
    cut := [evs[0]] + rest;
    assert cut[1..] == rest;
  }

  lemma ApplyNothing(d: Disk, ws: seq<Write>)
    ensures Apply(d, ws[..0]) == d
  {
  }

  lemma NextDisk(start: nat, s: State, ev: Event)
    requires LogOk(start, s.disk) && Enabled(start, s, ev)
    ensures Next(start, s, ev).disk == Apply(s.disk, Writes(start, s, ev))
  {
    hide LogOk, Apply, CommitWrites, RecoverWrites, GroupOk;
  }

  /**
   Wherever the power fails in a run, recovery leaves the first few of its groups, whole and in
   order, over the home blocks `d0` that the run's own start stands for.
   */
  lemma PowerFails(start: nat, d0: Disk, s0: State, evs: seq<Event>, s: State, ws: seq<Write>, k: nat)
    returns (j: nat)
    requires Inv(start, d0, s0) && Traces(start, s0, evs, s, ws) && k <= |ws|
    ensures j <= |s.landed| && LogOk(start, Apply(s0.disk, ws[..k]))
    ensures SameHome(start, Recovered(start, Apply(s0.disk, ws[..k])), InstallAll(d0, s.landed[..j]))
  {
    hide LogOk, Apply, Traces, Reaches, InstallAll, SameHome, Recovered;
    var cut, t := CutRun(start, s0, evs, s, ws, k);
    InvReaches(start, d0, s0, cut, t);
    j := |t.landed|;
    assert s.landed[..j] == t.landed;
  }
}
