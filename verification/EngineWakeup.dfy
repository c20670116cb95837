/** No lost wakeup: the delivery loop never waits on while there is work it could start. */
module EngineWakeup {
  import opened Bytes
  import opened Queues
  import opened Engine
  import opened EngineDelivery
  import Packets
  import Relaying

  /** The loop need not look at an idle target before the timer. */
  predicate Quiet(q: Queue, t: Target, l: Line, timer: Option<nat>) {
    Pending(q, t) == [] || (l.clock.retryAt.Some? && timer.Some? && timer.value <= l.clock.retryAt.value)
  }

  predicate Looked(cfg: Config, s: State, n: nat, timer: Option<nat>)
    requires n <= |s.lines| == |Targets(cfg)|
  {
    forall j :: 0 <= j < n && s.lines[j].worker.Idle? ==> s.wake || Quiet(s.queue, Targets(cfg)[j], s.lines[j], timer)
  }

  predicate Tidy(s: State) {
    s.wake || forall k :: 0 <= k < |s.queue| ==> s.queue[k].pending != {}
  }

  /** Some of the first n targets has an attempt in progress or a result to collect. */
  predicate Busy(s: State, n: nat)
    requires n <= |s.lines|
  {
    exists j :: 0 <= j < n && !s.lines[j].worker.Idle?
  }

  /** What has been looked at since the last turn has not been missed. */
  predicate Watched(cfg: Config, s: State) {
    && |s.lines| == |Targets(cfg)|
    && (s.pc.Scan? && s.pc.active > 0 ==> s.pc.next <= |s.lines| && Busy(s, s.pc.next))
    && (s.pc.Parked? && s.pc.stopping ==> Busy(s, |s.lines|))
    && (s.pc.Scan? ==> s.pc.next <= |s.lines| && Tidy(s) && (!s.pc.stopping ==> Looked(cfg, s, s.pc.next, s.pc.timer)))
    && (s.pc.Parked? ==> Tidy(s) && (!s.pc.stopping ==> Looked(cfg, s, |s.lines|, s.pc.timer)))
  }

  lemma ScanBusy(cfg: Config, s: State)
    requires Watched(cfg, s) && LoopEnabled(cfg, s, ScanTarget) && ScanOne(cfg, s).pc.active > 0
    ensures Busy(ScanOne(cfg, s), ScanOne(cfg, s).pc.next)
  {
    hide Targets, Pending, FirstFor, Looked, Tidy, Earlier;
    var r := ScanOne(cfg, s);
    if s.pc.active > 0 {
      var j :| 0 <= j < s.pc.next && !s.lines[j].worker.Idle?;
      assert r.lines[j] == s.lines[j];
    } else {
      assert !r.lines[s.pc.next].worker.Idle?;
    }
  }

  lemma ScanWatched(cfg: Config, s: State)
    requires Watched(cfg, s) && LoopEnabled(cfg, s, ScanTarget)
    ensures Watched(cfg, ScanOne(cfg, s))
  {
    hide Targets, Pending, FirstFor, Busy, Looked, Earlier;
    if ScanOne(cfg, s).pc.active > 0 {
      ScanBusy(cfg, s);
    }
    if !s.pc.stopping {
      ScanLooked(cfg, s);
    }
  }

  lemma ScanLooked(cfg: Config, s: State)
    requires |s.lines| == |Targets(cfg)| && LoopEnabled(cfg, s, ScanTarget) && !s.pc.stopping
    requires Looked(cfg, s, s.pc.next, s.pc.timer)
    ensures |ScanOne(cfg, s).lines| == |s.lines| && ScanOne(cfg, s).pc.Scan? && ScanOne(cfg, s).pc.next <= |s.lines|
    ensures Looked(cfg, ScanOne(cfg, s), ScanOne(cfg, s).pc.next, ScanOne(cfg, s).pc.timer)
  {
    hide Targets, Pending, FirstFor;
    var i := s.pc.next;
    var t := Targets(cfg)[i];
    if FirstFor(s.queue, t) == |s.queue| {
      NonePending(s.queue, t);
    }
    var r := ScanOne(cfg, s);
    forall j | 0 <= j < r.pc.next && r.lines[j].worker.Idle?
      ensures r.wake || Quiet(r.queue, Targets(cfg)[j], r.lines[j], r.pc.timer)
    {
      if j < i {
        assert s.wake || Quiet(s.queue, Targets(cfg)[j], s.lines[j], s.pc.timer);
      }
    }
  }

  lemma CompactTidies(q: Queue)
    ensures forall k :: 0 <= k < |Compacted(q)| ==> Compacted(q)[k].pending != {}
  {
    hide Compacted;
    forall k | 0 <= k < |Compacted(q)|
      ensures Compacted(q)[k].pending != {}
    {
      CompactedMembers(q, Compacted(q)[k]);
    }
  }

  lemma LoopWatched(cfg: Config, s: State, e: LoopEvent)
    requires Watched(cfg, s) && LoopEnabled(cfg, s, e)
    ensures Watched(cfg, NextLoop(cfg, s, e))
  {
    hide Targets, Pending, Compacted, ScanOne, Delivered, Quiet;
    if e.ScanTarget? {
      ScanWatched(cfg, s);
    } else if e.CompactQueue? {
      CompactTidies(s.queue);
    }
  }

  lemma ClientWatched(cfg: Config, s: State, e: ClientEvent)
    requires Watched(cfg, s) && ClientEnabled(cfg, s, e)
    ensures Watched(cfg, NextClient(cfg, s, e))
  {
    hide Targets, Pending, Admission, Needs, Accept, Looked, Busy, Tidy;
    if e.Enqueue? {
      EnqueueWatched(cfg, s, e.record, e.from);
    } else {
      SameWatched(cfg, s, NextClient(cfg, s, e));
    }
  }

  lemma SameWatched(cfg: Config, s: State, r: State)
    requires Watched(cfg, s) && r.queue == s.queue && r.lines == s.lines && r.pc == s.pc && r.wake == s.wake
    ensures Watched(cfg, r)
  {
    hide Targets, Pending;
  }

  /** A packet coming in wakes the loop. */
  lemma EnqueueWatched(cfg: Config, s: State, record: Record, from: Option<Relay>)
    requires Watched(cfg, s) && ClientEnabled(cfg, s, Enqueue(record, from))
    ensures Watched(cfg, NextClient(cfg, s, Enqueue(record, from)))
  {
    hide Targets, Pending, Needs, Packets.ReadPacket, Relaying.ShouldRelay, IdentityKnown;
    var r := NextClient(cfg, s, Enqueue(record, from));
    if Admission(cfg, s.accepting, |s.queue|, record, from.Some?).Accepts? {
      assert r.wake && r.lines == s.lines && r.pc == s.pc;
    } else {
      assert r == s;
    }
  }

  lemma ServerWatched(cfg: Config, s: State, e: ServerEvent)
    requires Inv(cfg, s) && Watched(cfg, s) && ServerEnabled(s, e)
    ensures Watched(cfg, NextServer(s, e))
  {
    hide Targets, Pending, Snapshot, Ids, Conserved, Tracked, DumpedStays, DoneOnce, FrontInFlight;
    var r := NextServer(s, e);
    if s.pc.Scan? && s.pc.active > 0 {
      StillBusy(s, r, s.pc.next);
    }
    if s.pc.Parked? && s.pc.stopping {
      StillBusy(s, r, |s.lines|);
    }
  }

  lemma StillBusy(s: State, r: State, n: nat)
    requires n <= |s.lines| == |r.lines| && Busy(s, n)
    requires forall j :: 0 <= j < |s.lines| ==> (s.lines[j].worker.Idle? <==> r.lines[j].worker.Idle?)
    ensures Busy(r, n)
  {
    var j :| 0 <= j < n && !s.lines[j].worker.Idle?;
    assert !r.lines[j].worker.Idle?;
  }

  lemma StepWatched(cfg: Config, s: State, e: Event)
    requires Inv(cfg, s) && Watched(cfg, s) && Enabled(cfg, s, e)
    ensures Watched(cfg, Next(cfg, s, e))
  {
    hide Inv, Watched, NextClient, NextLoop, NextServer;
    match e
    case Client(c) => ClientWatched(cfg, s, c);
    case Loop(l) => LoopWatched(cfg, s, l);
    case Result(r) => ResultWatched(cfg, s, r);
    case Server(v) => ServerWatched(cfg, s, v);
    case Start(v) => StartWatched(cfg, s, v);
  }

  lemma ResultWatched(cfg: Config, s: State, e: ResultEvent)
    requires Watched(cfg, s) && ResultEnabled(cfg, s, e)
    ensures Watched(cfg, NextResult(cfg, s, e))
  {
    hide Targets, Snapshot, Ids, Cleared, Unload;
  }

  lemma StartWatched(cfg: Config, s: State, e: StartEvent)
    ensures Watched(cfg, NextStart(cfg, s, e))
  {
    hide Targets;
  }

  lemma {:induction false} RunWatched(cfg: Config, trace: seq<State>, n: nat)
    requires ValidConfig(cfg) && Run(cfg, trace) && n < |trace|
    ensures Watched(cfg, trace[n])
  {
    hide Inv, Next, Enabled, Targets;
    if n == 0 {
      var now: nat :| trace[0] == Init(cfg, now);
    } else {
      RunWatched(cfg, trace, n - 1);
      RunKept(cfg, trace, n - 1);
      assert StepAt(cfg, trace, n - 1);
      var e :| Enabled(cfg, trace[n - 1], e) && trace[n] == Next(cfg, trace[n - 1], e);
      StepWatched(cfg, trace[n - 1], e);
    }
  }

  /** Nothing the select waits for is there: no wakeup, no result, no cancellation, no expired timer. */
  predicate Blocked(s: State) {
    && s.pc.Parked? && !s.wake && (s.pc.stopping || !s.cancelled)
    && (forall i :: 0 <= i < |s.lines| ==> !s.lines[i].worker.Returned?)
    && (s.pc.timer.Some? ==> s.now < s.pc.timer.value)
  }

  /** The loop is blocked, not stopping, only when no fully delivered packet is left and every idle
      target has nothing pending or is in back-off; and then the timer runs out no later than the
      back-off of any target with pending packets. */
  lemma NoLostWakeup(cfg: Config, trace: seq<State>, n: nat)
    requires ValidConfig(cfg) && Run(cfg, trace) && n < |trace|
    requires Blocked(trace[n]) && !trace[n].pc.stopping
    ensures |trace[n].lines| == |Targets(cfg)|
    ensures forall k :: 0 <= k < |trace[n].queue| ==> trace[n].queue[k].pending != {}
    ensures forall i :: 0 <= i < |Targets(cfg)| && trace[n].lines[i].worker.Idle? && Pending(trace[n].queue, Targets(cfg)[i]) != [] ==>
              && trace[n].lines[i].clock.retryAt.Some? && trace[n].now < trace[n].lines[i].clock.retryAt.value
              && trace[n].pc.timer.Some? && trace[n].pc.timer.value <= trace[n].lines[i].clock.retryAt.value
  {
    hide Targets, Pending, Run;
    RunWatched(cfg, trace, n);
    var s := trace[n];
    forall i | 0 <= i < |Targets(cfg)| && s.lines[i].worker.Idle? && Pending(s.queue, Targets(cfg)[i]) != []
      ensures s.lines[i].clock.retryAt.Some? && s.pc.timer.Some? && s.pc.timer.value <= s.lines[i].clock.retryAt.value
    {
      assert Quiet(s.queue, Targets(cfg)[i], s.lines[i], s.pc.timer);
    }
  }

  /** While stopping it waits only for an attempt that is still in progress. */
  lemma StoppingWaitsForWork(cfg: Config, trace: seq<State>, n: nat)
    requires ValidConfig(cfg) && Run(cfg, trace) && n < |trace|
    requires Blocked(trace[n]) && trace[n].pc.stopping
    ensures exists i :: 0 <= i < |trace[n].lines| && trace[n].lines[i].worker.Running?
  {
    hide Targets, Run;
    RunWatched(cfg, trace, n);
  }
}
