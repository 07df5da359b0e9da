/**
 The pipe's ring, statement by statement.  The two ends of a pipe are clones with a mutex
 each, so a reader's and a writer's statements interleave freely.
 */
module PipeRing {

  const PIPESIZE := 512

  /** Where the writer is in `write` or `close`. */
  datatype WPc =
    | WFree                // no call running
    | WTest                // at the loop head: done, killed, full, or room
    | WCopy                // copying one byte in from the user
    | WStore(ch: nat)      // about to store it
    | WBump(ch: nat)       // about to count it
    | WFull                // found it full, about to wake the reader
    | WNap                 // has woken the reader, about to sleep
    | WAsleep              // asleep on a full pipe
    | WWake                // about to wake the reader, then return
    | WShut                // has closed its end, about to wake the reader

  /** Where the reader is in `read` or `close`. */
  datatype RPc =
    | RFree
    | RTest                // testing for an empty pipe
    | RDrowsy              // found it empty, about to sleep
    | RAsleep
    | RLoop                // at the copy loop's head
    | RLoad                // about to load a byte
    | ROut(ch: nat)        // about to copy it out
    | RBump(ch: nat)       // copied out, about to count it
    | RWake                // about to wake the writer, then return
    | RShut                // has closed its end, about to wake the writer

  /**
   `written` and `delivered` are the bytes counted in and out so far.  `late` records that a byte
   came, or the writer closed, after the reader's last test for empty and before its sleep;
   `freed` that a byte left after the writer's last test for full and before its sleep.
   */
  datatype State = State(
    data: seq<nat>, nread: nat, nwrite: nat, readopen: bool, writeopen: bool,
    w: WPc, r: RPc, wkilled: bool, rkilled: bool,
    written: seq<nat>, delivered: seq<nat>, late: bool, freed: bool)

  datatype Step =
    | StartWrite | LeaveWrite | DieWriting | FindFull | FindRoom | CopyIn(ch: nat) | Store | CountIn
    | RouseReader | SleepFull | WakeReader | CloseWriter | ShutWriter | KillWriter
    | StartRead | FindEmpty | DieReading | SleepEmpty | FindSome | Stop | GoOn | Load | CopyOut | CountOut
    | WakeWriter | CloseReader | ShutReader | KillReader

  function Woken(r: RPc): RPc {
    if r == RAsleep then RTest else r
  }

  function WokenWriter(w: WPc): WPc {
    if w == WAsleep then WTest else w
  }

  /** There is something for the reader: a byte, or the end of the stream. */
  predicate Ready(s: State) {
    s.nread != s.nwrite || !s.writeopen
  }

  predicate Full(s: State) {
    s.nwrite == s.nread + PIPESIZE
  }

  predicate Enabled(s: State, t: Step) {
    match t
    case StartWrite => s.w == WFree && s.writeopen
    case LeaveWrite => s.w == WTest
    case DieWriting => s.w == WTest && !s.readopen && s.wkilled
    case FindFull => s.w == WTest && !(!s.readopen && s.wkilled) && Full(s)
    case FindRoom => s.w == WTest && !(!s.readopen && s.wkilled) && !Full(s)
    case CopyIn(ch) => s.w == WCopy
    case Store => s.w.WStore?
    case CountIn => s.w.WBump?
    case RouseReader => s.w == WFull
    case SleepFull => s.w == WNap
    case WakeReader => s.w == WWake
    case CloseWriter => s.w == WFree && s.writeopen
    case ShutWriter => s.w == WShut
    case KillWriter => true
    case StartRead => s.r == RFree && s.readopen
    case FindEmpty => s.r == RTest && !Ready(s) && !s.rkilled
    case DieReading => s.r == RTest && !Ready(s) && s.rkilled
    case FindSome => s.r == RTest && Ready(s)
    case SleepEmpty => s.r == RDrowsy
    case Stop => s.r == RLoop
    case GoOn => s.r == RLoop && s.nread != s.nwrite
    case Load => s.r == RLoad
    case CopyOut => s.r.ROut?
    case CountOut => s.r.RBump?
    case WakeWriter => s.r == RWake
    case CloseReader => s.r == RFree && s.readopen
    case ShutReader => s.r == RShut
    case KillReader => true
  }

  function Next(s: State, t: Step): State
    requires Enabled(s, t) && |s.data| == PIPESIZE
  {
    match t
    case StartWrite => s.(w := WTest)
    case LeaveWrite => s.(w := WWake)
    case DieWriting => s.(w := WFree)
    case FindFull => s.(w := WFull, freed := false)
    case FindRoom => s.(w := WCopy)
    case CopyIn(ch) => s.(w := WStore(ch))
    case Store => s.(w := WBump(s.w.ch), data := s.data[s.nwrite % PIPESIZE := s.w.ch])
    case CountIn => s.(w := WTest, nwrite := s.nwrite + 1, written := s.written + [s.w.ch],
                       late := s.late || s.r == RDrowsy)
    case RouseReader => s.(w := WNap, r := Woken(s.r))
    case SleepFull => s.(w := WAsleep)
    case WakeReader => s.(w := WFree, r := Woken(s.r))
    case CloseWriter => s.(w := WShut, writeopen := false, late := s.late || s.r == RDrowsy)
    case ShutWriter => s.(w := WFree, r := Woken(s.r))
    case KillWriter => s.(wkilled := true, w := WokenWriter(s.w))
    case StartRead => s.(r := RTest)
    case FindEmpty => s.(r := RDrowsy, late := false)
    case DieReading => s.(r := RFree)
    case FindSome => s.(r := RLoop)
    case SleepEmpty => s.(r := RAsleep)
    case Stop => s.(r := RWake)
    case GoOn => s.(r := RLoad)
    case Load => s.(r := ROut(s.data[s.nread % PIPESIZE]))
    case CopyOut => s.(r := RBump(s.r.ch))
    case CountOut =>
      s.(r := RLoop, nread := s.nread + 1, delivered := s.delivered + [s.r.ch],
         freed := s.freed || s.w == WFull || s.w == WNap)
    case WakeWriter => s.(r := RFree, w := WokenWriter(s.w))
    case CloseReader => s.(r := RShut, readopen := false)
    case ShutReader => s.(r := RFree, w := WokenWriter(s.w))
    case KillReader => s.(rkilled := true, r := Woken(s.r))
  }

  // ----- what every statement keeps -----

  predicate Counts(s: State) {
    && |s.data| == PIPESIZE && s.nread <= s.nwrite <= s.nread + PIPESIZE
    && |s.written| == s.nwrite && s.delivered == s.written[..s.nread]
  }

  /** The bytes in flight are in their slots. */
  predicate Stored(s: State)
    requires Counts(s)
  {
    forall k :: s.nread <= k < s.nwrite ==> s.data[k % PIPESIZE] == s.written[k]
  }

  predicate Writer(s: State)
    requires Counts(s)
  {
    && (s.w == WCopy || s.w.WStore? || s.w.WBump? ==> s.nwrite < s.nread + PIPESIZE)
    && (s.w.WBump? ==> s.data[s.nwrite % PIPESIZE] == s.w.ch)
  }

  predicate Reader(s: State)
    requires Counts(s)
  {
    && (s.r == RLoad || s.r.ROut? || s.r.RBump? ==> s.nread < s.nwrite)
    && (s.r.ROut? ==> s.r.ch == s.written[s.nread])
    && (s.r.RBump? ==> s.r.ch == s.written[s.nread])
  }

  /** An end that has been closed is in no call. */
  predicate Closed(s: State) {
    && (!s.writeopen ==> s.w == WFree || s.w == WShut)
    && (!s.readopen ==> s.r == RFree || s.r == RShut)
  }

  predicate Inv(s: State) {
    Counts(s) && Stored(s) && Writer(s) && Reader(s) && Closed(s)
  }

  /** Fewer than a ring apart, no two counts share a slot. */
  lemma Slots(a: nat, b: nat)
    requires a < b < a + PIPESIZE
    ensures a % PIPESIZE != b % PIPESIZE
  {
  }

  lemma InvStep(s: State, t: Step)
    requires Inv(s) && Enabled(s, t)
    ensures Inv(Next(s, t))
  {
    if t.Store? {
      StoreStored(s);
    } else if t.CountIn? || t.CountOut? {
      CountsStep(s, t);
    } else {
      QuietStep(s, t);
    }
  }

  lemma StoreStored(s: State)
    requires Inv(s) && Enabled(s, Store)
    ensures Inv(Next(s, Store))
  {
    var u := Next(s, Store);
    forall k | s.nread <= k < s.nwrite ensures u.data[k % PIPESIZE] == s.written[k] {
      Slots(k, s.nwrite);
    }
  }

  lemma CountsStep(s: State, t: Step)
    requires Inv(s) && Enabled(s, t) && (t.CountIn? || t.CountOut?)
    ensures Inv(Next(s, t))
  {
  }

  /** The other statements leave the ring and the counts alone. */
  lemma QuietStep(s: State, t: Step)
    requires Inv(s) && Enabled(s, t) && !t.Store? && !t.CountIn? && !t.CountOut?
    ensures Inv(Next(s, t))
  {
    hide Stored, Writer, Reader, Closed, Next, Enabled;
    QuietRing(s, t);
    StoredSame(s, Next(s, t));
    QuietWriter(s, t);
    QuietReader(s, t);
    QuietClosed(s, t);
  }

  predicate SameRing(s: State, u: State) {
    && u.data == s.data && u.nread == s.nread && u.nwrite == s.nwrite
    && u.written == s.written && u.delivered == s.delivered
  }

  predicate ByReader(t: Step) {
    || t.StartRead? || t.FindEmpty? || t.DieReading? || t.SleepEmpty? || t.FindSome? || t.Stop? || t.GoOn?
    || t.Load? || t.CopyOut? || t.CountOut? || t.WakeWriter? || t.CloseReader? || t.ShutReader? || t.KillReader?
  }

  lemma QuietRing(s: State, t: Step)
    requires Enabled(s, t) && |s.data| == PIPESIZE && !t.Store? && !t.CountIn? && !t.CountOut?
    ensures SameRing(s, Next(s, t))
  {
    hide Next, Enabled, SameRing;
    if ByReader(t) {
      ReaderRing(s, t);
    } else {
      WriterRing(s, t);
    }
  }

  lemma ReaderRing(s: State, t: Step)
    requires Enabled(s, t) && |s.data| == PIPESIZE && ByReader(t) && !t.CountOut?
    ensures SameRing(s, Next(s, t))
  {
  }

  lemma WriterRing(s: State, t: Step)
    requires Enabled(s, t) && |s.data| == PIPESIZE && !ByReader(t) && !t.Store? && !t.CountIn?
    ensures SameRing(s, Next(s, t))
  {
  }

  lemma QuietClosed(s: State, t: Step)
    requires Closed(s) && Enabled(s, t) && |s.data| == PIPESIZE && !t.Store? && !t.CountIn? && !t.CountOut?
    ensures Closed(Next(s, t))
  {
    hide *;
    if OfWriter(t) {
      WriterClosed(s, t);
    } else {
      ReaderClosed(s, t);
    }
  }

  /** The statements of `write`, of the writer's `close`, and its killing. */
  predicate OfWriter(t: Step) {
    match t
    case StartWrite | LeaveWrite | DieWriting | FindFull | FindRoom | CopyIn(_) | Store | CountIn => true
    case RouseReader | SleepFull | WakeReader | CloseWriter | ShutWriter | KillWriter => true
    case _ => false
  }

  lemma WriterClosed(s: State, t: Step)
    requires Closed(s) && Enabled(s, t) && |s.data| == PIPESIZE && OfWriter(t)
    ensures Closed(Next(s, t))
  {
    hide Ready, Full;
  }

  lemma ReaderClosed(s: State, t: Step)
    requires Closed(s) && Enabled(s, t) && |s.data| == PIPESIZE && !OfWriter(t)
    ensures Closed(Next(s, t))
  {
    hide Ready, Full;
  }

  lemma QuietWriter(s: State, t: Step)
    requires Inv(s) && Enabled(s, t) && !t.Store? && !t.CountIn? && !t.CountOut? && Counts(Next(s, t))
    ensures Writer(Next(s, t))
  {
    hide Stored, Reader, Closed;
  }

  lemma QuietReader(s: State, t: Step)
    requires Inv(s) && Enabled(s, t) && !t.Store? && !t.CountIn? && !t.CountOut? && Counts(Next(s, t))
    ensures Reader(Next(s, t))
  {
    hide Stored, Writer, Closed;
    if t.Load? {
      LoadNext(s);
    }
  }

  lemma StoredSame(s: State, u: State)
    requires Counts(s) && Stored(s) && SameRing(s, u)
    ensures Counts(u) && Stored(u)
  {
  }

  lemma LoadNext(s: State)
    requires Inv(s) && s.r == RLoad
    ensures s.data[s.nread % PIPESIZE] == s.written[s.nread]
  {
  }

  predicate Init(s: State) {
    && |s.data| == PIPESIZE && s.nread == 0 && s.nwrite == 0 && s.readopen && s.writeopen
    && s.w == WFree && s.r == RFree
    && s.written == [] && s.delivered == [] && !s.wkilled && !s.rkilled
  }

  predicate Run(s: State, ts: seq<Step>, end: State)
    decreases |ts|
  {
    if ts == [] then end == s
    else |s.data| == PIPESIZE && Enabled(s, ts[0]) && Run(Next(s, ts[0]), ts[1..], end)
  }

  lemma {:induction false} RunInv(s: State, ts: seq<Step>, end: State)
    requires Inv(s) && Run(s, ts, end)
    ensures Inv(end)
    decreases |ts|
  {
    if ts != [] {
      InvStep(s, ts[0]);
      RunInv(Next(s, ts[0]), ts[1..], end);
    }
  }

  // ----- what went in and what came out, from the steps of a run -----

  /** The bytes the writer's calls copied in from the user. */
  function Supplied(ts: seq<Step>): seq<nat> {
    if ts == [] then [] else (if ts[0].CopyIn? then [ts[0].ch] else []) + Supplied(ts[1..])
  }

  /** The bytes the reader's calls copied out to the user. */
  function Received(s: State, ts: seq<Step>): seq<nat>
    requires CanRun(s, ts)
    decreases |ts|
  {
    if ts == [] then []
    else (if ts[0].CopyOut? then [s.r.ch] else []) + Received(Next(s, ts[0]), ts[1..])
  }

  predicate CanRun(s: State, ts: seq<Step>)
    decreases |ts|
  {
    ts == [] || (|s.data| == PIPESIZE && Enabled(s, ts[0]) && CanRun(Next(s, ts[0]), ts[1..]))
  }

  /** A byte copied in and not counted yet. */
  function InHand(w: WPc): seq<nat> {
    match w
    case WStore(ch) => [ch]
    case WBump(ch) => [ch]
    case _ => []
  }

  /** A byte copied out and not counted yet. */
  function OutHand(r: RPc): seq<nat> {
    if r.RBump? then [r.ch] else []
  }

  /** What the writer's calls have taken in, up to this state. */
  function TakenIn(s: State): seq<nat> {
    s.written + InHand(s.w)
  }

  /** What the reader's calls have given out. */
  function GivenOut(s: State): seq<nat> {
    s.delivered + OutHand(s.r)
  }

  lemma TakenStep(s: State, t: Step)
    requires Enabled(s, t) && |s.data| == PIPESIZE
    ensures TakenIn(Next(s, t)) == TakenIn(s) + if t.CopyIn? then [t.ch] else []
  {
    hide InHand;
    HandStep(s, t);
    if t.CountIn? {
      assert s.written + [s.w.ch] + [] == s.written + [s.w.ch];
    }
  }

  lemma HandStep(s: State, t: Step)
    requires Enabled(s, t) && |s.data| == PIPESIZE
    ensures var u := Next(s, t);
            if t.CopyIn? then u.written == s.written && InHand(s.w) == [] && InHand(u.w) == [t.ch]
            else if t.CountIn? then
              s.w.WBump? && u.written == s.written + [s.w.ch] && InHand(s.w) == [s.w.ch] && InHand(u.w) == []
            else u.written == s.written && InHand(u.w) == InHand(s.w)
  {
  }

  lemma GivenStep(s: State, t: Step)
    requires Enabled(s, t) && |s.data| == PIPESIZE
    ensures GivenOut(Next(s, t)) == GivenOut(s) + if t.CopyOut? then [s.r.ch] else []
  {
    hide OutHand;
    OutHandStep(s, t);
    if t.CountOut? {
      assert s.delivered + [s.r.ch] + [] == s.delivered + [s.r.ch];
    }
  }

  lemma OutHandStep(s: State, t: Step)
    requires Enabled(s, t) && |s.data| == PIPESIZE
    ensures var u := Next(s, t);
            if t.CopyOut? then
              s.r.ROut? && u.delivered == s.delivered && OutHand(s.r) == [] && OutHand(u.r) == [s.r.ch]
            else if t.CountOut? then
              s.r.RBump? && u.delivered == s.delivered + [s.r.ch] && OutHand(s.r) == [s.r.ch] && OutHand(u.r) == []
            else u.delivered == s.delivered && OutHand(u.r) == OutHand(s.r)
  {
  }

  lemma {:induction false} AllSupplied(s: State, ts: seq<Step>, end: State)
    requires Run(s, ts, end)
    ensures CanRun(s, ts)
    ensures TakenIn(end) == TakenIn(s) + Supplied(ts) && GivenOut(end) == GivenOut(s) + Received(s, ts)
    decreases |ts|
  {
    hide Enabled, Next, TakenIn, GivenOut;
    if ts != [] {
      TakenStep(s, ts[0]);
      GivenStep(s, ts[0]);
      AllSupplied(Next(s, ts[0]), ts[1..], end);
    }
  }

  /**
   Every interleaving: the counts stay in range, and the bytes the reader gets are the first of
   those the writer gave, in order; none is lost but those still in the pipe or in hand.
   */
  lemma Fifo(s: State, ts: seq<Step>, end: State)
    requires Init(s) && Run(s, ts, end)
    ensures end.nread <= end.nwrite <= end.nread + PIPESIZE
    ensures CanRun(s, ts) && Received(s, ts) <= Supplied(ts)
    ensures end.nwrite <= |Supplied(ts)| <= end.nwrite + 1 && end.nread <= |Received(s, ts)| <= end.nread + 1
    ensures end.written == Supplied(ts)[..end.nwrite] && end.delivered == Supplied(ts)[..end.nread]
  {
    hide Run, CanRun, Supplied, Received;
    RunInv(s, ts, end);
    AllSupplied(s, ts, end);
    NoneInHand(s);
    assert TakenIn(end) == Supplied(ts) && GivenOut(end) == Received(s, ts);
    HandsInOrder(end);
  }

  lemma NoneInHand(s: State)
    requires Init(s)
    ensures Inv(s) && TakenIn(s) == [] && GivenOut(s) == []
  {
  }

  /** The byte in the reader's hand is the next one the writer counted. */
  lemma HandsInOrder(s: State)
    requires Inv(s)
    ensures GivenOut(s) <= s.written && s.written == TakenIn(s)[..s.nwrite] && s.delivered == TakenIn(s)[..s.nread]
    ensures s.nwrite <= |TakenIn(s)| <= s.nwrite + 1 && s.nread <= |GivenOut(s)| <= s.nread + 1
  {
    hide Stored, Writer, Closed;
    if s.r.RBump? {
      assert s.written[..s.nread] + [s.written[s.nread]] == s.written[..s.nread + 1];
    }
  }

  // ----- sleeping and waking -----

  /** The writer is in no call that will still wake the reader. */
  predicate WriterGone(s: State) {
    s.w == WFree || s.w == WNap || s.w == WAsleep
  }

  /** The reader is in no call that will still wake the writer. */
  predicate ReaderGone(s: State) {
    s.r == RFree || s.r == RTest || s.r == RDrowsy || s.r == RAsleep
  }

  /** A reader sleeps, or is about to, although it need not: exactly after the writer was too quick. */
  predicate ReaderSleeps(s: State) {
    && (s.r == RDrowsy ==> (Ready(s) <==> s.late))
    && (s.r == RAsleep ==> (s.late ==> Ready(s)) && (Ready(s) && WriterGone(s) ==> s.late))
  }

  predicate WriterSleeps(s: State) {
    && (s.w == WFull || s.w == WNap ==> (!Full(s) <==> s.freed))
    && (s.w == WAsleep ==> (s.freed ==> !Full(s)) && (!Full(s) && ReaderGone(s) ==> s.freed))
  }

  lemma ReaderSleepsStep(s: State, t: Step)
    requires Inv(s) && ReaderSleeps(s) && Enabled(s, t)
    ensures ReaderSleeps(Next(s, t))
  {
    hide Stored, Writer;
  }

  lemma WriterSleepsStep(s: State, t: Step)
    requires Inv(s) && WriterSleeps(s) && Enabled(s, t)
    ensures WriterSleeps(Next(s, t))
  {
    hide Stored, Writer;
  }

  lemma {:induction false} RunSleeps(s: State, ts: seq<Step>, end: State)
    requires Inv(s) && ReaderSleeps(s) && WriterSleeps(s) && Run(s, ts, end)
    ensures ReaderSleeps(end) && WriterSleeps(end)
    decreases |ts|
  {
    hide Inv, ReaderSleeps, WriterSleeps;
    if ts != [] {
      InvStep(s, ts[0]);
      ReaderSleepsStep(s, ts[0]);
      WriterSleepsStep(s, ts[0]);
      RunSleeps(Next(s, ts[0]), ts[1..], end);
    }
  }

  /**
   A reader asleep, with no writer on its way to wake it, sleeps although there is something
   for it exactly when that came between its last test for empty and its sleep.
   */
  lemma ReaderMissesIff(s: State, ts: seq<Step>, end: State)
    requires Init(s) && Run(s, ts, end) && end.r == RAsleep && WriterGone(end)
    ensures Ready(end) <==> end.late
  {
    RunSleeps(s, ts, end);
  }

  /**
   Likewise a writer asleep: there is room for it exactly when a byte left between its test for
   full and its sleep.
   */
  lemma WriterMissesIff(s: State, ts: seq<Step>, end: State)
    requires Init(s) && Run(s, ts, end) && end.w == WAsleep && ReaderGone(end)
    ensures !Full(end) <==> end.freed
  {
    RunSleeps(s, ts, end);
  }

  lemma {:induction false} RunMore(s: State, ts: seq<Step>, mid: State, t: Step)
    requires Run(s, ts, mid) && |mid.data| == PIPESIZE && Enabled(mid, t)
    ensures Run(s, ts + [t], Next(mid, t))
    decreases |ts|
  {
    if ts == [] {
      assert [t][1..] == [];
    } else {
      assert (ts + [t])[1..] == ts[1..] + [t];
      RunMore(Next(s, ts[0]), ts[1..], mid, t);
    }
  }

  lemma Follow(s: State, ts: seq<Step>, mid: State, t: Step) returns (more: seq<Step>, end: State)
    requires Run(s, ts, mid) && |mid.data| == PIPESIZE && Enabled(mid, t)
    ensures Run(s, more, end) && more == ts + [t] && end == Next(mid, t)
  {
    RunMore(s, ts, mid, t);
    more, end := ts + [t], Next(mid, t);
  }

  /** One byte written, from the loop's head to its head. */
  lemma OneByte(s: State, ts: seq<Step>, mid: State) returns (more: seq<Step>, end: State)
    requires Run(s, ts, mid) && |mid.data| == PIPESIZE && mid.w == WTest && mid.readopen && !Full(mid)
    ensures Run(s, more, end) && |end.data| == PIPESIZE && end.w == WTest && end.nwrite == mid.nwrite + 1
    ensures end == mid.(data := end.data, nwrite := end.nwrite, written := end.written,
                        late := mid.late || mid.r == RDrowsy)
  {
    hide Run;
    more, end := Follow(s, ts, mid, FindRoom);
    more, end := Follow(s, more, end, CopyIn(7));
    more, end := Follow(s, more, end, Store);
    more, end := Follow(s, more, end, CountIn);
  }

  /** A writer that comes and goes between the reader's test and its sleep is missed. */
  lemma MissedWakeup(s: State) returns (ts: seq<Step>, end: State)
    requires Init(s)
    ensures Run(s, ts, end) && end.r == RAsleep && end.w == WFree && end.nread < end.nwrite
  {
    hide Run;
    ts, end := Began(s);
    ts, end := Follow(s, ts, end, StartWrite);
    ts, end := OneByte(s, ts, end);
    ts, end := Follow(s, ts, end, LeaveWrite);
    ts, end := Follow(s, ts, end, WakeReader);
    ts, end := Follow(s, ts, end, SleepEmpty);
  }

  lemma Began(s: State) returns (ts: seq<Step>, end: State)
    requires Init(s)
    ensures Run(s, ts, end) && end == s.(r := RDrowsy, late := false)
  {
    ts, end := Follow(s, [], s, StartRead);
    ts, end := Follow(s, ts, end, FindEmpty);
  }

  /** A run that has written `n` bytes, none of them read yet. */
  lemma {:induction false} Filled(s: State, n: nat, drowsy: bool) returns (ts: seq<Step>, end: State)
    requires Init(s) && n <= PIPESIZE
    ensures Run(s, ts, end) && |end.data| == PIPESIZE && end.w == WTest && end.readopen && end.nwrite == n
    ensures end.nread == 0
    ensures end.r == if drowsy then RDrowsy else RFree
    decreases n
  {
    hide Run;
    if n == 0 {
      if drowsy {
        ts, end := Began(s);
      } else {
        ts, end := Still(s);
      }
      ts, end := Follow(s, ts, end, StartWrite);
    } else {
      ts, end := Filled(s, n - 1, drowsy);
      ts, end := OneByte(s, ts, end);
    }
  }

  lemma Still(s: State) returns (ts: seq<Step>, end: State)
    ensures Run(s, ts, end) && ts == [] && end == s
  {
    ts, end := [], s;
  }

  /** The reader up to loading a byte. */
  lemma StartedRead(s: State, ts: seq<Step>, mid: State) returns (more: seq<Step>, end: State)
    requires Run(s, ts, mid) && |mid.data| == PIPESIZE && mid.r == RFree && mid.readopen && mid.nread != mid.nwrite
    ensures Run(s, more, end) && end == mid.(r := RLoad)
  {
    hide Run;
    more, end := Follow(s, ts, mid, StartRead);
    more, end := Follow(s, more, end, FindSome);
    more, end := Follow(s, more, end, GoOn);
  }

  /** A call that reads one byte, up to its wakeup. */
  lemma OneRead(s: State, ts: seq<Step>, mid: State) returns (more: seq<Step>, end: State)
    requires Run(s, ts, mid) && |mid.data| == PIPESIZE && mid.r == RFree && mid.readopen && mid.nread != mid.nwrite
    ensures Run(s, more, end) && |end.data| == PIPESIZE && end.r == RWake && end.w == mid.w
    ensures end.nread == mid.nread + 1 && end.nwrite == mid.nwrite
  {
    hide Run;
    more, end := StartedRead(s, ts, mid);
    more, end := Follow(s, more, end, Load);
    more, end := Follow(s, more, end, CopyOut);
    more, end := Follow(s, more, end, CountOut);
    more, end := Follow(s, more, end, Stop);
  }

  /** A reader that drains the pipe between the writer's test and its sleep is missed. */
  lemma MissedRoom(s: State) returns (ts: seq<Step>, end: State)
    requires Init(s)
    ensures Run(s, ts, end) && end.w == WAsleep && end.r == RFree && !Full(end)
  {
    hide Run;
    ts, end := Filled(s, PIPESIZE, false);
    ts, end := Follow(s, ts, end, FindFull);
    ts, end := Follow(s, ts, end, RouseReader);
    ts, end := OneRead(s, ts, end);
    ts, end := Follow(s, ts, end, WakeWriter);
    ts, end := Follow(s, ts, end, SleepFull);
  }

  /** Both ends can miss each other: a full pipe with reader and writer asleep. */
  lemma Deadlock(s: State) returns (ts: seq<Step>, end: State)
    requires Init(s)
    ensures Run(s, ts, end) && end.w == WAsleep && end.r == RAsleep && Full(end)
  {
    hide Run;
    ts, end := Filled(s, PIPESIZE, true);
    ts, end := Follow(s, ts, end, FindFull);
    ts, end := Follow(s, ts, end, RouseReader);
    ts, end := Follow(s, ts, end, SleepEmpty);
    ts, end := Follow(s, ts, end, SleepFull);
  }

  /** Killing gets a reader out of its sleep and, by its own steps alone, out of `read`. */
  lemma KilledReader(s: State) returns (ts: seq<Step>, end: State)
    requires |s.data| == PIPESIZE && s.r == RAsleep
    ensures Run(s, ts, end) && ts != [] && ts[0] == KillReader && |ts| <= 4 && end.r == RFree && end.rkilled
    ensures end.delivered == s.delivered && (Ready(s) || end.w == s.w)
  {
    hide Run;
    ts, end := Still(s);
    ts, end := Follow(s, ts, end, KillReader);
    if Ready(s) {
      ts, end := ReadsNone(s, ts, end);
    } else {
      ts, end := Follow(s, ts, end, DieReading);
    }
  }

  /** A read that finds something and returns without taking any of it. */
  lemma ReadsNone(s: State, ts: seq<Step>, mid: State) returns (more: seq<Step>, end: State)
    requires Run(s, ts, mid) && |mid.data| == PIPESIZE && mid.r == RTest && Ready(mid)
    ensures Run(s, more, end) && more == ts + [FindSome, Stop, WakeWriter]
    ensures end == mid.(r := RFree, w := WokenWriter(mid.w))
  {
    hide Run;
    more, end := Follow(s, ts, mid, FindSome);
    more, end := Follow(s, more, end, Stop);
    more, end := Follow(s, more, end, WakeWriter);
  }

  /**
   Killing stops a writer asleep on a full pipe exactly when the read end is closed.  With the read
   end open it finds the pipe full and sleeps again, killed or not.
   */
  lemma KilledWriter(s: State) returns (ts: seq<Step>, end: State)
    requires |s.data| == PIPESIZE && s.w == WAsleep && Full(s)
    ensures Enabled(Next(s, KillWriter), DieWriting) <==> !s.readopen
    ensures Run(s, ts, end) && ts != [] && ts[0] == KillWriter && end.wkilled && Full(end)
    ensures end.w == if s.readopen then WAsleep else WFree
  {
    hide Run;
    ts, end := Still(s);
    ts, end := Follow(s, ts, end, KillWriter);
    if s.readopen {
      ts, end := Follow(s, ts, end, FindFull);
      ts, end := Follow(s, ts, end, RouseReader);
      ts, end := Follow(s, ts, end, SleepFull);
    } else {
      ts, end := Follow(s, ts, end, DieWriting);
    }
  }

  // ----- closing -----

  predicate SameFlags(s: State, u: State) {
    u.writeopen == s.writeopen && u.readopen == s.readopen && u.wkilled == s.wkilled && u.rkilled == s.rkilled
  }

  lemma WriterFlags(s: State, t: Step)
    requires |s.data| == PIPESIZE && Enabled(s, t) && OfWriter(t) && t != CloseWriter && t != KillWriter
    ensures SameFlags(s, Next(s, t))
  {
    hide Enabled, Woken, WokenWriter;
  }

  lemma ReaderFlags(s: State, t: Step)
    requires |s.data| == PIPESIZE && Enabled(s, t) && !OfWriter(t) && t != CloseReader && t != KillReader
    ensures SameFlags(s, Next(s, t))
  {
    hide Enabled, Woken, WokenWriter;
  }

  lemma FlagsStep(s: State, t: Step)
    requires |s.data| == PIPESIZE && Enabled(s, t)
    ensures Next(s, t).writeopen == (s.writeopen && t != CloseWriter)
    ensures Next(s, t).readopen == (s.readopen && t != CloseReader)
    ensures Next(s, t).wkilled == (s.wkilled || t == KillWriter)
    ensures Next(s, t).rkilled == (s.rkilled || t == KillReader)
  {
    hide OfWriter;
    match t
    case CloseWriter =>
    case CloseReader =>
    case KillWriter =>
    case KillReader =>
    case _ => OtherFlags(s, t);
  }

  lemma OtherFlags(s: State, t: Step)
    requires |s.data| == PIPESIZE && Enabled(s, t)
    requires t != CloseWriter && t != KillWriter && t != CloseReader && t != KillReader
    ensures SameFlags(s, Next(s, t))
  {
    hide *;
    if OfWriter(t) {
      WriterFlags(s, t);
    } else {
      ReaderFlags(s, t);
    }
  }

  /** In every run an end is open exactly until it is closed, and killed exactly once it has been. */
  lemma {:induction false} ClosedIff(s: State, ts: seq<Step>, end: State)
    requires Run(s, ts, end)
    ensures end.writeopen <==> s.writeopen && CloseWriter !in ts
    ensures end.readopen <==> s.readopen && CloseReader !in ts
    ensures end.wkilled <==> s.wkilled || KillWriter in ts
    ensures end.rkilled <==> s.rkilled || KillReader in ts
    decreases |ts|
  {
    hide Enabled, Next;
    if ts != [] {
      FlagsStep(s, ts[0]);
      ClosedIff(Next(s, ts[0]), ts[1..], end);
    }
  }

  /** Closing the write end wakes a reader asleep, and it can leave `read` at the end of the stream. */
  lemma WriterCloses(s: State) returns (ts: seq<Step>, end: State)
    requires |s.data| == PIPESIZE && s.w == WFree && s.writeopen && s.r == RAsleep
    ensures Run(s, ts, end) && CloseWriter in ts && KillReader !in ts && end.r == RFree && end.w == WFree
    ensures end.delivered == s.delivered
  {
    hide Run;
    ts, end := Still(s);
    ts, end := Follow(s, ts, end, CloseWriter);
    ts, end := Follow(s, ts, end, ShutWriter);
    ts, end := ReadsNone(s, ts, end);
  }

  /** Closing the read end wakes a writer asleep, which finds itself killed or the pipe still full. */
  lemma ReaderCloses(s: State) returns (ts: seq<Step>, end: State)
    requires |s.data| == PIPESIZE && s.r == RFree && s.readopen && s.w == WAsleep && Full(s)
    ensures Run(s, ts, end) && CloseReader in ts && KillWriter !in ts && end.r == RFree
    ensures end.w == if s.wkilled then WFree else WAsleep
  {
    hide Run;
    ts, end := Still(s);
    ts, end := Follow(s, ts, end, CloseReader);
    ts, end := Follow(s, ts, end, ShutReader);
    if s.wkilled {
      ts, end := Follow(s, ts, end, DieWriting);
    } else {
      ts, end := Follow(s, ts, end, FindFull);
      ts, end := Follow(s, ts, end, RouseReader);
      ts, end := Follow(s, ts, end, SleepFull);
    }
  }
}
