/** The stall clock inside the engine: over every run, the attempts of a target that have failed
    since its last success are a run of failing attempts as StallClock has them. */
module EngineClock {
  import opened Bytes
  import opened Queues
  import opened Engine
  import opened EngineDelivery
  import opened StallClock

  /** The clock of a target is what its failures make it; a stall stops the server; and an attempt
      in hand was started no sooner than allowed. */
  predicate Paced(cfg: Config, s: State, i: nat)
    requires i < |s.lines|
  {
    var l := s.lines[i];
    && l.started <= s.now && (s.pc.Handle? && s.pc.index == i ==> l.worker.Idle?)
    && PacedClock(cfg.dumpAfter, l, s.cancelled)
    && (Carried(s, i).Some? && l.clock.retryAt.Some? ==> l.started >= l.clock.retryAt.value)
  }

  predicate PacedClock(dumpAfter: nat, l: Line, cancelled: bool) {
    if l.failures == [] then l.clock == RESET
    else
      && FailingRun(l.failures, dumpAfter)
      && var v := VerdictAfter(l.failures, dumpAfter);
         v.clock == l.clock && (v.stalled ==> cancelled)
  }

  predicate Clocks(cfg: Config, s: State) {
    forall i :: 0 <= i < |s.lines| ==> Paced(cfg, s, i)
  }

  lemma StepClocks(cfg: Config, s: State, e: Event)
    requires Clocks(cfg, s) && Enabled(cfg, s, e)
    ensures Clocks(cfg, Next(cfg, s, e))
  {
    hide Targets, Compacted, Snapshot, Ids, Cleared, Unload, Admission, Needs, Delivered, NextClient, NextLoop,
         NextResult, NextServer, NextStart, Paced;
    match e
    case Client(c) => ClientClocks(cfg, s, c);
    case Loop(l) => LoopClocks(cfg, s, l);
    case Result(r) => ResultClocks(cfg, s, r);
    case Server(v) => ServerClocks(cfg, s, v);
    case Start(v) => StartClocks(cfg, s, v);
  }

  /** Time may pass, the server be stopped and results be left behind. */
  lemma SameClocks(cfg: Config, s: State, r: State)
    requires Clocks(cfg, s) && r.lines == s.lines && r.now >= s.now && (s.cancelled ==> r.cancelled)
    requires r.pc == s.pc || !r.pc.Handle?
    ensures Clocks(cfg, r)
  {
    hide PacedClock;
    forall i | 0 <= i < |r.lines|
      ensures Paced(cfg, r, i)
    {
      assert Paced(cfg, s, i);
      StoppedClock(cfg.dumpAfter, s.lines[i], s.cancelled, r.cancelled);
    }
  }

  lemma StoppedClock(dumpAfter: nat, l: Line, was: bool, cancelled: bool)
    requires PacedClock(dumpAfter, l, was) && (was ==> cancelled)
    ensures PacedClock(dumpAfter, l, cancelled)
  {
  }

  lemma ClientClocks(cfg: Config, s: State, e: ClientEvent)
    requires Clocks(cfg, s) && ClientEnabled(cfg, s, e)
    ensures Clocks(cfg, NextClient(cfg, s, e))
  {
    hide Admission, Needs, Paced;
    SameClocks(cfg, s, NextClient(cfg, s, e));
  }

  lemma LoopClocks(cfg: Config, s: State, e: LoopEvent)
    requires Clocks(cfg, s) && LoopEnabled(cfg, s, e)
    ensures Clocks(cfg, NextLoop(cfg, s, e))
  {
    hide Targets, Compacted, Delivered, FirstFor, Paced, ScanOne;
    match e
    case ScanTarget => ScanClocks(cfg, s);
    case Receive(i) => ReceiveClocks(cfg, s, i);
    case _ => SameClocks(cfg, s, NextLoop(cfg, s, e));
  }

  lemma ScanClocks(cfg: Config, s: State)
    requires Clocks(cfg, s) && LoopEnabled(cfg, s, ScanTarget)
    ensures Clocks(cfg, ScanOne(cfg, s))
  {
    hide Targets, FirstFor, PacedClock;
    var r := ScanOne(cfg, s);
    forall i | 0 <= i < |r.lines|
      ensures Paced(cfg, r, i)
    {
      assert Paced(cfg, s, i);
      assert PacedClock(cfg.dumpAfter, s.lines[i], s.cancelled);
      SameFailures(cfg.dumpAfter, s.lines[i], r.lines[i], s.cancelled);
    }
  }

  lemma SameFailures(dumpAfter: nat, l: Line, m: Line, cancelled: bool)
    requires PacedClock(dumpAfter, l, cancelled) && m.failures == l.failures && m.clock == l.clock
    ensures PacedClock(dumpAfter, m, cancelled)
  {
  }

  lemma ReceiveClocks(cfg: Config, s: State, k: nat)
    requires Clocks(cfg, s) && LoopEnabled(cfg, s, Receive(k))
    ensures Clocks(cfg, NextLoop(cfg, s, Receive(k)))
  {
    hide PacedClock;
    var r := NextLoop(cfg, s, Receive(k));
    forall i | 0 <= i < |r.lines|
      ensures Paced(cfg, r, i)
    {
      assert Paced(cfg, s, i);
      SameFailures(cfg.dumpAfter, s.lines[i], r.lines[i], s.cancelled);
    }
  }

  lemma ResultClocks(cfg: Config, s: State, e: ResultEvent)
    requires Clocks(cfg, s) && ResultEnabled(cfg, s, e)
    ensures Clocks(cfg, NextResult(cfg, s, e))
  {
    hide Targets, Snapshot, Ids, Confirm, Failed, Paced;
    match e
    case Settle =>
      if s.pc.ok {
        ConfirmClocks(cfg, s);
      } else {
        FailedClocks(cfg, s);
      }
    case _ => SameClocks(cfg, s, NextResult(cfg, s, e));
  }

  lemma ConfirmClocks(cfg: Config, s: State)
    requires Clocks(cfg, s) && ResultEnabled(cfg, s, Settle) && s.pc.ok
    ensures Clocks(cfg, Confirm(cfg, s))
  {
    hide Targets, Cleared, Unload, SessionOf, FailingRun, VerdictAfter;
    var r := Confirm(cfg, s);
    forall i | 0 <= i < |r.lines|
      ensures Paced(cfg, r, i)
    {
      assert Paced(cfg, s, i);
    }
  }

  /** One more failure. */
  lemma MoreFailures(dumpAfter: nat, l: Line, now: nat)
    requires PacedClock(dumpAfter, l, false) && l.started <= now
    requires l.clock.retryAt.Some? ==> l.started >= l.clock.retryAt.value
    ensures var run := l.failures + [Attempt(l.started, now)];
            FailingRun(run, dumpAfter) && VerdictAfter(run, dumpAfter) == AfterFailure(l.clock, l.started, now, dumpAfter)
  {
    var run := l.failures + [Attempt(l.started, now)];
    var n := |run| - 1;
    assert run[..n] == l.failures;
    if n > 0 {
      Retries(l.failures, dumpAfter);
    }
  }

  lemma Retries(run: seq<Attempt>, dumpAfter: nat)
    requires run != [] && !VerdictAfter(run, dumpAfter).stalled
    ensures VerdictAfter(run, dumpAfter).clock.retryAt.Some?
  {
  }

  lemma FailedClocks(cfg: Config, s: State)
    requires Clocks(cfg, s) && s.pc.Handle? && s.pc.index < |s.lines|
    ensures Clocks(cfg, Failed(cfg, s))
  {
    hide AfterFailure, FailingRun, VerdictAfter, PacedClock;
    var r := Failed(cfg, s);
    forall i | 0 <= i < |r.lines|
      ensures Paced(cfg, r, i)
    {
      assert Paced(cfg, s, i);
      if !s.cancelled && i == s.pc.index {
        MoreFailures(cfg.dumpAfter, s.lines[i], s.now);
        FailedClock(cfg.dumpAfter, s.lines[i], s.now, r.lines[i], r.cancelled);
      } else {
        StoppedClock(cfg.dumpAfter, s.lines[i], s.cancelled, r.cancelled);
      }
    }
  }

  lemma FailedClock(dumpAfter: nat, l: Line, now: nat, m: Line, cancelled: bool)
    requires var run := l.failures + [Attempt(l.started, now)];
             && FailingRun(run, dumpAfter) && m.failures == run
             && VerdictAfter(run, dumpAfter) == Verdict(m.clock, cancelled)
    ensures PacedClock(dumpAfter, m, cancelled)
  {
  }

  lemma ServerClocks(cfg: Config, s: State, e: ServerEvent)
    requires Clocks(cfg, s) && ServerEnabled(s, e)
    ensures Clocks(cfg, NextServer(s, e))
  {
    hide Snapshot, Ids, Paced, Store;
    match e
    case Attempted(i, ok) => AttemptedClocks(cfg, s, i, ok);
    case FinalDump(result) =>
      StoreSame(s, Snapshot(s.queue), result);
      SameClocks(cfg, s, NextServer(s, e));
    case _ => SameClocks(cfg, s, NextServer(s, e));
  }

  lemma StoreSame(s: State, snapshot: Queue, result: SaveResult)
    ensures var r := Store(s, snapshot, result); r.lines == s.lines && r.now == s.now && r.pc == s.pc && r.cancelled == s.cancelled
  {
  }

  lemma AttemptedClocks(cfg: Config, s: State, k: nat, ok: bool)
    requires Clocks(cfg, s) && ServerEnabled(s, Attempted(k, ok))
    ensures Clocks(cfg, NextServer(s, Attempted(k, ok)))
  {
    hide PacedClock;
    var r := NextServer(s, Attempted(k, ok));
    forall i | 0 <= i < |r.lines|
      ensures Paced(cfg, r, i)
    {
      assert Paced(cfg, s, i);
      SameFailures(cfg.dumpAfter, s.lines[i], r.lines[i], s.cancelled);
    }
  }

  lemma StartClocks(cfg: Config, s: State, e: StartEvent)
    ensures Clocks(cfg, NextStart(cfg, s, e))
  {
    hide Targets;
  }

  lemma {:induction false} RunClocks(cfg: Config, trace: seq<State>, n: nat)
    requires Run(cfg, trace) && n < |trace|
    ensures Clocks(cfg, trace[n])
  {
    hide Next, Enabled, Targets, Paced;
    if n == 0 {
      var now: nat :| trace[0] == Init(cfg, now);
      InitClocks(cfg, now);
    } else {
      RunClocks(cfg, trace, n - 1);
      assert StepAt(cfg, trace, n - 1);
      var e :| Enabled(cfg, trace[n - 1], e) && trace[n] == Next(cfg, trace[n - 1], e);
      StepClocks(cfg, trace[n - 1], e);
    }
  }

  lemma InitClocks(cfg: Config, now: nat)
    ensures Clocks(cfg, Init(cfg, now))
  {
    hide Targets;
  }

  /** In every run the failures of a target since its last success are at most dumpAfter + 1, and
      spread in time; they are counted from the start of the first; the server has stopped if the
      last of them ended at the deadline of that one or later; and otherwise the next try is put a
      second after that end, or to the deadline if that comes sooner. */
  lemma FailuresInTime(cfg: Config, trace: seq<State>, n: nat, i: nat)
    requires ValidConfig(cfg) && Run(cfg, trace) && n < |trace| && i < |trace[n].lines|
    ensures var l := trace[n].lines[i];
            if l.failures == [] then l.clock == RESET
            else
              && FailingRun(l.failures, cfg.dumpAfter) && |l.failures| <= cfg.dumpAfter + 1
              && l.clock.failedSince == Some(l.failures[0].started)
              && var deadline := Deadline(l.failures, cfg.dumpAfter); var last := l.failures[|l.failures| - 1];
                 && (last.started >= l.failures[0].started + (|l.failures| - 1) * 1_000_000_000 || last.started >= deadline)
                 && (last.ended >= deadline ==> trace[n].cancelled)
                 && (last.ended < deadline ==> l.clock.retryAt == Some(Sooner(last.ended + 1_000_000_000, deadline)))
  {
    hide Run, Targets, FailingRun, VerdictAfter;
    RunClocks(cfg, trace, n);
    assert Paced(cfg, trace[n], i);
    var run := trace[n].lines[i].failures;
    if run != [] {
      StallsAtDeadline(run, cfg.dumpAfter);
      RetriesSpread(run, cfg.dumpAfter);
      StallsInTime(run, cfg.dumpAfter);
    }
  }

  /** In every run, a failure that is dealt with stops the server exactly when it ends at or after the
      deadline of the first one since the target's last success. */
  lemma StallOnlyAtDeadline(cfg: Config, trace: seq<State>, n: nat)
    requires ValidConfig(cfg) && Run(cfg, trace) && n < |trace|
    requires var s := trace[n]; s.pc.Handle? && s.pc.index < |s.lines| && !s.cancelled
    ensures var s := trace[n]; var l := s.lines[s.pc.index];
            var run := l.failures + [Attempt(l.started, s.now)];
            && Failed(cfg, s).lines[s.pc.index].failures == run
            && |run| <= cfg.dumpAfter + 1
            && (Failed(cfg, s).cancelled <==> s.now >= run[0].started + cfg.dumpAfter * 1_000_000_000)
            && (|run| == cfg.dumpAfter + 1 ==> Failed(cfg, s).cancelled)
  {
    hide Run, Targets, FailingRun, VerdictAfter, AfterFailure;
    RunClocks(cfg, trace, n);
    var s := trace[n];
    assert Paced(cfg, s, s.pc.index);
    var l := s.lines[s.pc.index];
    var run := l.failures + [Attempt(l.started, s.now)];
    MoreFailures(cfg.dumpAfter, l, s.now);
    StallsAtDeadline(run, cfg.dumpAfter);
    StallsInTime(run, cfg.dumpAfter);
  }
}
