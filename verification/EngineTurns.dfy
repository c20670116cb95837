/** What a turn of the delivery loop does: which attempts it starts, how long it then waits, and when
    it returns. */
module EngineTurns {
  import opened Bytes
  import opened Queues
  import opened Engine
  import opened EngineDelivery
  import opened EngineSessions
  import EngineWakeup

  // ---- one target ----

  predicate InBackOff(s: State, l: Line) {
    l.clock.retryAt.Some? && s.now < l.clock.retryAt.value
  }

  /** The target is idle, something is pending for it, and its next try is not put off. */
  predicate Due(cfg: Config, s: State, i: nat)
    requires i < |s.lines| == |Targets(cfg)|
  {
    s.lines[i].worker.Idle? && Pending(s.queue, Targets(cfg)[i]) != [] && !InBackOff(s, s.lines[i])
  }

  /** The line of a target that has just been given the first packet pending for it. */
  function Started(cfg: Config, s: State, i: nat): Line
    requires i < |s.lines| == |Targets(cfg)| && Pending(s.queue, Targets(cfg)[i]) != []
  {
    s.lines[i].(worker := Running(Pending(s.queue, Targets(cfg)[i])[0]), started := s.now)
  }

  lemma FirstOrNone(q: Queue, t: Target)
    ensures FirstFor(q, t) == |q| <==> Pending(q, t) == []
    ensures FirstFor(q, t) < |q| ==> q[FirstFor(q, t)].id == Pending(q, t)[0]
  {
    var k := FirstFor(q, t);
    if k == |q| {
      NonePending(q, t);
    } else {
      FirstPending(q, t, k);
    }
  }

  /** Looking at a target starts an attempt exactly when it is due and the loop not stopping: with the
      first packet pending for it, from now. Nothing else changes but the loop's own counts: the
      attempts that are on, and the earliest time at which a target that is put off may be tried. */
  lemma ScanExactly(cfg: Config, s: State)
    requires LoopEnabled(cfg, s, ScanTarget)
    ensures var i, r := s.pc.next, NextLoop(cfg, s, ScanTarget);
            && r.lines == (if !s.pc.stopping && Due(cfg, s, i) then s.lines[i := Started(cfg, s, i)] else s.lines)
            && r == s.(lines := r.lines, pc := r.pc)
            && r.pc == Scan(s.pc.stopping, i + 1,
                            if !s.pc.stopping && s.lines[i].worker.Idle? && InBackOff(s, s.lines[i])
                               && (s.pc.timer.None? || s.lines[i].clock.retryAt.value < s.pc.timer.value)
                            then s.lines[i].clock.retryAt else s.pc.timer,
                            s.pc.active + if r.lines[i].worker.Idle? then 0 else 1)
  {
    hide Targets, Pending, FirstFor;
    FirstOrNone(s.queue, Targets(cfg)[s.pc.next]);
  }

  // ---- a whole turn that nothing interrupts ----

  /** The rest of a turn, from looking at the next target on. */
  function Scanned(cfg: Config, s: State): State
    requires s.pc.Scan? && s.pc.next <= |s.lines| == |Targets(cfg)|
    decreases |s.lines| - s.pc.next
  {
    if s.pc.next == |s.lines| then NextLoop(cfg, s, ScanEnd)
    else
      ScanExactly(cfg, s);
      Scanned(cfg, NextLoop(cfg, s, ScanTarget))
  }

  function Turn(cfg: Config, s: State): State
    requires s.pc.Top? && |s.lines| == |Targets(cfg)|
  {
    Scanned(cfg, NextLoop(cfg, NextLoop(cfg, s, Sample), CompactQueue))
  }

  /** Of the targets from the n-th on. */
  predicate PutOff(s: State, n: nat, i: nat)
    requires i < |s.lines|
  {
    n <= i && s.lines[i].worker.Idle? && InBackOff(s, s.lines[i])
  }

  /** timer is the least of before and the times until which those targets are put off. */
  predicate Soonest(s: State, n: nat, before: Option<nat>, timer: Option<nat>) {
    && (timer.None? ==> before.None?)
    && (before.Some? ==> timer.Some? && timer.value <= before.value)
    && (forall i :: 0 <= i < |s.lines| && PutOff(s, n, i) ==> timer.Some? && timer.value <= s.lines[i].clock.retryAt.value)
    && (timer.Some? ==> timer == before || exists i :: 0 <= i < |s.lines| && PutOff(s, n, i) && s.lines[i].clock.retryAt == timer)
  }

  predicate AllIdle(lines: seq<Line>, n: nat) {
    forall i :: n <= i < |lines| ==> lines[i].worker.Idle?
  }

  /** What the lines are once the targets from the n-th on have been looked at. */
  predicate LinesAfter(cfg: Config, s: State, n: nat, stopping: bool, lines: seq<Line>)
    requires |s.lines| == |Targets(cfg)|
  {
    && |lines| == |s.lines|
    && forall i :: 0 <= i < |lines| ==>
         lines[i] == if n <= i && !stopping && Due(cfg, s, i) then Started(cfg, s, i) else s.lines[i]
  }

  lemma {:induction false} ScannedExactly(cfg: Config, s: State)
    requires s.pc.Scan? && s.pc.next <= |s.lines| == |Targets(cfg)|
    ensures var r, n := Scanned(cfg, s), s.pc.next;
            && LinesAfter(cfg, s, n, s.pc.stopping, r.lines) && r == s.(lines := r.lines, pc := r.pc)
            && (r.pc == Pc.Returned <==> s.pc.stopping && s.pc.active == 0 && AllIdle(s.lines, n))
            && (r.pc != Pc.Returned ==>
                  && r.pc.Parked? && r.pc.stopping == s.pc.stopping
                  && (s.pc.stopping ==> r.pc.timer == s.pc.timer)
                  && (!s.pc.stopping ==> Soonest(s, n, s.pc.timer, r.pc.timer)))
    decreases |s.lines| - s.pc.next
  {
    hide Targets, Pending, NextLoop, Due, Started, InBackOff, PutOff, LinesAfter, Soonest;
    if s.pc.next < |s.lines| {
      var next := NextLoop(cfg, s, ScanTarget);
      ScanExactly(cfg, s);
      ScannedExactly(cfg, next);
      LinesFrom(cfg, s, next, Scanned(cfg, next).lines);
      if !s.pc.stopping {
        SoonestFrom(cfg, s, next, Scanned(cfg, next).pc);
      }
    } else {
      LastLook(cfg, s);
      NothingLeft(cfg, s, s.pc.timer);
    }
  }

  lemma NothingLeft(cfg: Config, s: State, timer: Option<nat>)
    requires |s.lines| == |Targets(cfg)|
    ensures LinesAfter(cfg, s, |s.lines|, s.cancelled, s.lines) && LinesAfter(cfg, s, |s.lines|, !s.cancelled, s.lines)
    ensures Soonest(s, |s.lines|, timer, timer)
  {
    hide Targets;
  }

  lemma LinesFrom(cfg: Config, s: State, next: State, lines: seq<Line>)
    requires LoopEnabled(cfg, s, ScanTarget) && next == NextLoop(cfg, s, ScanTarget)
    requires |next.lines| == |s.lines| && LinesAfter(cfg, next, s.pc.next + 1, s.pc.stopping, lines)
    ensures LinesAfter(cfg, s, s.pc.next, s.pc.stopping, lines)
    ensures AllIdle(s.lines, s.pc.next) && s.pc.stopping ==> AllIdle(next.lines, s.pc.next)
  {
    hide Targets, Pending, NextLoop;
    ScanExactly(cfg, s);
  }

  lemma SoonestFrom(cfg: Config, s: State, next: State, pc: Pc)
    requires LoopEnabled(cfg, s, ScanTarget) && next == NextLoop(cfg, s, ScanTarget) && next.pc.Scan? && !s.pc.stopping
    requires pc.Parked? && Soonest(next, s.pc.next + 1, next.pc.timer, pc.timer)
    ensures Soonest(s, s.pc.next, s.pc.timer, pc.timer)
  {
    hide Targets, Pending, NextLoop;
    ScanExactly(cfg, s);
    var n := s.pc.next;
    forall i | 0 <= i < |s.lines| && PutOff(s, n, i)
      ensures pc.timer.Some? && pc.timer.value <= s.lines[i].clock.retryAt.value
    {
      if i > n {
        assert PutOff(next, n + 1, i);
      }
    }
    if pc.timer.Some? && pc.timer != next.pc.timer {
      var i :| 0 <= i < |next.lines| && PutOff(next, n + 1, i) && next.lines[i].clock.retryAt == pc.timer;
      assert PutOff(s, n, i);
    } else if next.pc.timer != s.pc.timer {
      assert PutOff(s, n, n);
    }
  }

  lemma LastLook(cfg: Config, s: State)
    requires LoopEnabled(cfg, s, ScanEnd)
    ensures NextLoop(cfg, s, ScanEnd)
            == s.(pc := if s.pc.stopping && s.pc.active == 0 then Pc.Returned else Parked(s.pc.stopping, s.pc.timer))
  {
  }

  lemma SameDue(cfg: Config, s: State, r: State, i: nat)
    requires i < |s.lines| == |r.lines| == |Targets(cfg)| && r.lines[i] == s.lines[i] && r.now == s.now
    requires Pending(r.queue, Targets(cfg)[i]) == Pending(s.queue, Targets(cfg)[i])
    ensures Due(cfg, r, i) == Due(cfg, s, i) && (Due(cfg, s, i) ==> Started(cfg, r, i) == Started(cfg, s, i))
  {
  }

  /** A turn without interruption. Unless the server stops, every target that is due gets an attempt
      at the first packet pending for it, all at once as it were, and no other target; then the loop
      waits, with a timer exactly if some idle target is put off, for the soonest of these. When the
      server stops no attempt is started, and the loop returns exactly when none is left, and else
      waits without a timer. */
  lemma TurnExactly(cfg: Config, s: State)
    requires s.pc.Top? && |s.lines| == |Targets(cfg)|
    ensures var r := Turn(cfg, s);
            && r == s.(queue := Compacted(s.queue), past := s.past.(done := s.past.done + Delivered(s.queue)),
                       lines := r.lines, pc := r.pc)
            && LinesAfter(cfg, s, 0, s.cancelled, r.lines)
            && (r.pc == Pc.Returned <==> s.cancelled && AllIdle(s.lines, 0))
            && (s.cancelled && r.pc != Pc.Returned ==> r.pc == Parked(true, None))
            && (!s.cancelled ==> r.pc.Parked? && !r.pc.stopping && Soonest(s, 0, None, r.pc.timer))
  {
    hide Targets, Pending, Compacted, Delivered, Scanned, Started;
    var c := NextLoop(cfg, NextLoop(cfg, s, Sample), CompactQueue);
    ScannedExactly(cfg, c);
    forall i | 0 <= i < |s.lines|
      ensures Due(cfg, c, i) == Due(cfg, s, i) && (Due(cfg, s, i) ==> Started(cfg, c, i) == Started(cfg, s, i))
      ensures InBackOff(c, c.lines[i]) == InBackOff(s, s.lines[i])
    {
      CompactedPending(s.queue, Targets(cfg)[i]);
      SameDue(cfg, s, c, i);
    }
    SameSoonest(s, c, Scanned(cfg, c).pc);
  }

  lemma SameSoonest(s: State, c: State, pc: Pc)
    requires c.lines == s.lines && c.now == s.now
    ensures pc.Parked? && Soonest(c, 0, None, pc.timer) ==> Soonest(s, 0, None, pc.timer)
  {
    if pc.Parked? && Soonest(c, 0, None, pc.timer) {
      forall i | 0 <= i < |s.lines| && PutOff(s, 0, i)
        ensures pc.timer.Some? && pc.timer.value <= s.lines[i].clock.retryAt.value
      {
        assert PutOff(c, 0, i);
      }
      if pc.timer.Some? {
        var i :| 0 <= i < |c.lines| && PutOff(c, 0, i) && c.lines[i].clock.retryAt == pc.timer;
        assert PutOff(s, 0, i);
      }
    }
  }

  // ---- turns among everything else ----

  /** The loop is past the i-th target in this turn. */
  predicate Past(s: State, i: nat) {
    (s.pc.Scan? && i < s.pc.next) || s.pc.Parked?
  }

  lemma ClientApart(cfg: Config, s: State, e: ClientEvent)
    requires ClientEnabled(cfg, s, e)
    ensures NextClient(cfg, s, e).pc == s.pc && NextClient(cfg, s, e).lines == s.lines
  {
    hide Targets, RelayAnswer, EgtsOf, AddPending, Received, OpenIn, IdentityKnown;
  }

  lemma ServerPc(s: State, e: ServerEvent)
    requires ServerEnabled(s, e)
    ensures NextServer(s, e).pc == s.pc
  {
    hide Snapshot, Ids;
  }

  lemma ResultPc(cfg: Config, s: State, e: ResultEvent)
    requires ResultEnabled(cfg, s, e)
    ensures !NextResult(cfg, s, e).pc.Scan? && !NextResult(cfg, s, e).pc.Parked?
  {
    hide Targets, Snapshot, Ids, Cleared, Unload;
  }

  lemma StepPast(cfg: Config, s: State, e: Event, i: nat)
    requires Enabled(cfg, s, e) && |s.lines| == |Targets(cfg)| && i < |s.lines| && Past(Next(cfg, s, e), i)
    ensures s.pc.Scan? || s.pc.Parked?
    ensures Next(cfg, s, e).pc.stopping == s.pc.stopping
    ensures Past(s, i) || (s.pc.Scan? && s.pc.next == i && e == Loop(ScanTarget))
  {
    hide Targets, NextClient, ClientEnabled, ScanOne, NextServer, NextResult, ResultEnabled, Compacted, Delivered;
    match e
    case Client(c) => ClientApart(cfg, s, c);
    case Server(v) => ServerPc(s, v);
    case Result(r) => ResultPc(cfg, s, r);
    case Loop(l) =>
      if l.ScanTarget? {
        ScanExactly(cfg, s);
      }
    case Start(_) =>
  }

  /** In the turn that goes on, or waits, at n, the loop looked at the i-th target at k. */
  lemma {:induction false} LookedAt(cfg: Config, trace: seq<State>, n: nat, i: nat) returns (k: nat)
    requires ValidConfig(cfg) && Run(cfg, trace) && n < |trace| && i < |Targets(cfg)| && Past(trace[n], i)
    ensures k < n && LoopEnabled(cfg, trace[k], ScanTarget) && trace[k].pc.next == i
    ensures trace[k + 1] == NextLoop(cfg, trace[k], ScanTarget) && trace[k].pc.stopping == trace[n].pc.stopping
    ensures forall j :: k < j <= n ==> Past(trace[j], i)
    decreases n
  {
    hide Targets, NextLoop, LoopEnabled, Run, Past, ValidConfig;
    if n == 0 {
      StartsAtTop(cfg, trace, i);
      assert false;
    }
    StepLooks(cfg, trace, n - 1, i);
    if Past(trace[n - 1], i) {
      k := LookedAt(cfg, trace, n - 1, i);
    } else {
      k := n - 1;
    }
  }

  lemma StepLooks(cfg: Config, trace: seq<State>, n: nat, i: nat)
    requires ValidConfig(cfg) && Run(cfg, trace) && n + 1 < |trace| && i < |Targets(cfg)| && Past(trace[n + 1], i)
    ensures trace[n].pc.Scan? || trace[n].pc.Parked?
    ensures trace[n + 1].pc.Scan? || trace[n + 1].pc.Parked?
    ensures trace[n].pc.stopping == trace[n + 1].pc.stopping
    ensures Past(trace[n], i)
            || (LoopEnabled(cfg, trace[n], ScanTarget) && trace[n].pc.next == i && trace[n + 1] == NextLoop(cfg, trace[n], ScanTarget))
  {
    hide Targets, NextLoop, Inv, Enabled, Next, Run, LoopEnabled, ValidConfig;
    RunKept(cfg, trace, n);
    LinesThere(cfg, trace[n]);
    var e := StepOf(cfg, trace, n);
    StepPast(cfg, trace[n], e, i);
    if !Past(trace[n], i) {
      ScanStep(cfg, trace[n], e);
    }
  }

  lemma StartsAtTop(cfg: Config, trace: seq<State>, i: nat)
    requires Run(cfg, trace)
    ensures trace != [] && !Past(trace[0], i)
  {
  }

  lemma StepOf(cfg: Config, trace: seq<State>, n: nat) returns (e: Event)
    requires Run(cfg, trace) && n + 1 < |trace|
    ensures Enabled(cfg, trace[n], e) && trace[n + 1] == Next(cfg, trace[n], e)
  {
    hide Enabled, Next;
    assert StepAt(cfg, trace, n);
    e :| Enabled(cfg, trace[n], e) && trace[n + 1] == Next(cfg, trace[n], e);
  }

  lemma LinesThere(cfg: Config, s: State)
    requires Inv(cfg, s)
    ensures |s.lines| == |Targets(cfg)|
  {
    hide Targets, Counted, Ordered, Tracked, FrontInFlight, Conserved, DumpComplete, DoneOnce, DumpedStays;
  }

  lemma ScanStep(cfg: Config, s: State, e: Event)
    requires Enabled(cfg, s, e) && e == Loop(ScanTarget)
    ensures LoopEnabled(cfg, s, ScanTarget) && Next(cfg, s, e) == NextLoop(cfg, s, ScanTarget)
  {
  }

  /** Whatever else happens in between: in the turn in which the loop waits without stopping, it has
      looked at each target, and if that was due then, started the attempt at once. So a target that
      is passed over with packets pending was put off until later than the loop's look at it. */
  lemma NoDueTargetSkipped(cfg: Config, trace: seq<State>, n: nat, i: nat) returns (k: nat)
    requires ValidConfig(cfg) && Run(cfg, trace) && n < |trace| && i < |Targets(cfg)|
    requires trace[n].pc.Parked? && !trace[n].pc.stopping
    ensures k < n && |trace[k].lines| == |trace[k + 1].lines| == |Targets(cfg)|
    ensures trace[k].pc.Scan? && trace[k].pc.next == i && forall j :: k < j <= n ==> Past(trace[j], i)
    ensures Due(cfg, trace[k], i) ==> trace[k + 1].lines[i] == Started(cfg, trace[k], i)
    ensures !Due(cfg, trace[k], i) ==> trace[k + 1].lines[i] == trace[k].lines[i]
    ensures trace[k + 1].lines[i].worker.Idle? && Pending(trace[k].queue, Targets(cfg)[i]) != [] ==>
              trace[k].lines[i].clock.retryAt.Some? && trace[k].now < trace[k].lines[i].clock.retryAt.value
  {
    hide Targets, NextLoop, Run, Pending;
    k := LookedAt(cfg, trace, n, i);
    ScanExactly(cfg, trace[k]);
  }

  /** No step but such a look starts an attempt. */
  lemma OnlyDueIsStarted(cfg: Config, s: State, r: State, i: nat)
    requires CanStep(cfg, s, r) && i < |s.lines| == |Targets(cfg)| && i < |r.lines|
    requires !s.lines[i].worker.Running? && r.lines[i].worker.Running?
    ensures s.pc.Scan? && s.pc.next == i && !s.pc.stopping && Due(cfg, s, i) && r.lines == s.lines[i := Started(cfg, s, i)]
  {
    hide Targets, Due, Started, NextClient, NextLoop, NextResult, NextServer, NextStart, ClientEnabled, LoopEnabled, ResultEnabled,
         ServerEnabled;
    var e :| Enabled(cfg, s, e) && r == Next(cfg, s, e);
    match e
    case Client(c) => ClientApart(cfg, s, c);
    case Loop(l) => LoopStarts(cfg, s, l, i);
    case Result(v) => ResultStarts(cfg, s, v, i);
    case Server(v) => ServerStarts(s, v, i);
    case Start(v) => NewLines(cfg, s, v, i);
  }

  predicate Trying(lines: seq<Line>, i: nat) {
    i < |lines| && lines[i].worker.Running?
  }

  lemma LoopStarts(cfg: Config, s: State, e: LoopEvent, i: nat)
    requires LoopEnabled(cfg, s, e) && |s.lines| == |Targets(cfg)|
    requires !Trying(s.lines, i) && Trying(NextLoop(cfg, s, e).lines, i)
    ensures i < |s.lines| && s.pc.Scan? && s.pc.next == i && !s.pc.stopping && Due(cfg, s, i)
    ensures NextLoop(cfg, s, e).lines == s.lines[i := Started(cfg, s, i)]
  {
    hide Targets, Due, Started, ScanOne, Compacted, Delivered;
    if e.ScanTarget? {
      ScanExactly(cfg, s);
    }
  }

  lemma ResultStarts(cfg: Config, s: State, e: ResultEvent, i: nat)
    requires ResultEnabled(cfg, s, e) && !Trying(s.lines, i)
    ensures !Trying(NextResult(cfg, s, e).lines, i)
  {
    hide Targets, Snapshot, Ids, Cleared, Unload, SessionOf;
  }

  lemma ServerStarts(s: State, e: ServerEvent, i: nat)
    requires ServerEnabled(s, e) && !Trying(s.lines, i)
    ensures !Trying(NextServer(s, e).lines, i)
  {
    hide Snapshot, Ids;
  }

  lemma NewLines(cfg: Config, s: State, e: StartEvent, i: nat)
    ensures !Trying(NextStart(cfg, s, e).lines, i)
  {
    hide Targets, Load;
  }

  // ---- when the loop can go on ----

  /** A step of the loop itself. */
  predicate Own(e: Event) {
    e.Loop? || e.Result?
  }

  /** The loop can go on exactly unless it has returned or is blocked; in particular whatever it
      waits for lets it go on, and a result in hand can be dealt with. */
  lemma GoesOnUnlessBlocked(cfg: Config, trace: seq<State>, n: nat)
    requires ValidConfig(cfg) && Run(cfg, trace) && n < |trace|
    ensures (exists e :: Own(e) && Enabled(cfg, trace[n], e)) <==> trace[n].pc != Pc.Returned && !EngineWakeup.Blocked(trace[n])
  {
    hide Targets, Run, SessionInv;
    RunKept(cfg, trace, n);
    RunSessions(cfg, trace, n);
    var s := trace[n];
    if s.pc.Handle? {
      SettleEnabled(cfg, s);
    }
    hide Counted, Ordered, Tracked, FrontInFlight, Conserved, DumpComplete, DoneOnce, DumpedStays;
    var e :=
      match s.pc
      case Top => Loop(Sample)
      case Compact(_) => Loop(CompactQueue)
      case Scan(_, next, _, _) => if next < |s.lines| then Loop(ScanTarget) else Loop(ScanEnd)
      case Parked(_, _) => WaitsFor(s)
      case Handle(_, _, _) => Result(Settle)
      case Save(_) => Result(TakeSnapshot)
      case Write(_, _) => Result(StoreDump(Saved))
      case Close(_) => Result(CloseFinished(true))
      case Returned => Loop(Sample);
    if s.pc != Pc.Returned && !EngineWakeup.Blocked(s) {
      assert Own(e) && Enabled(cfg, s, e);
    }
  }

  /** What ends the wait. */
  ghost function WaitsFor(s: State): Event
    requires s.pc.Parked?
  {
    if s.wake then Loop(Wake)
    else if !s.pc.stopping && s.cancelled then Loop(WakeCancelled)
    else if s.pc.timer.Some? && s.now >= s.pc.timer.value then Loop(WakeTimer)
    else if exists i: nat :: i < |s.lines| && s.lines[i].worker.Returned? then
      var i: nat :| i < |s.lines| && s.lines[i].worker.Returned?;
      Loop(Receive(i))
    else Loop(Wake)
  }
}
