/** Confirmations come from attempts that succeeded (gateway/server/queue.go:200-284). */
module EngineOutcomes {
  import opened Bytes
  import opened Queues
  import opened Engine
  import opened EngineDelivery
  import EngineTurns

  /** Dealing with a result: a success takes the packet, the first one, off what is pending for the
      target and counts it as confirmed by it; a failure does neither. */
  lemma SettlesExactly(cfg: Config, s: State)
    requires Inv(cfg, s) && ResultEnabled(cfg, s, Settle)
    ensures var r, t, id := NextResult(cfg, s, Settle), Targets(cfg)[s.pc.index], s.pc.id;
            && (s.pc.ok ==>
                  && ConfirmedBy(r, t) == ConfirmedBy(s, t) + [id] && Pending(s.queue, t) == [id] + Pending(r.queue, t)
                  && forall u :: u != t ==> ConfirmedBy(r, u) == ConfirmedBy(s, u) && Pending(r.queue, u) == Pending(s.queue, u))
            && (!s.pc.ok ==> r.queue == s.queue && r.past == s.past)
  {
    hide Inv, Targets, Pending, SessionOf, Unload, Cleared, Ascending;
    if s.pc.ok {
      var t, id := Targets(cfg)[s.pc.index], s.pc.id;
      FirstInHand(cfg, s);
      ClearedFirst(s.queue, id, t);
      forall u | u != t
        ensures Pending(Cleared(s.queue, id, t), u) == Pending(s.queue, u)
      {
        NothingCleared(s.queue, id, t, u);
      }
    }
  }

  lemma FirstInHand(cfg: Config, s: State)
    requires Inv(cfg, s) && s.pc.Handle?
    ensures |s.lines| == |Targets(cfg)| && s.pc.index < |s.lines|
    ensures Ascending(s.queue) && Front(s.queue, Targets(cfg)[s.pc.index], s.pc.id)
  {
    hide Counted, Tracked, Conserved, DumpComplete, DoneOnce, DumpedStays, Targets, Pending, Front;
    assert Carried(s, s.pc.index) == Some(s.pc.id);
  }

  // ---- where a success comes from ----

  /** The target has a success in hand. */
  predicate Succeeded(s: State, i: nat, id: nat) {
    s.pc == Handle(i, id, true) || (i < |s.lines| && s.lines[i].worker == Worker.Returned(id, true))
  }

  /** In this step an attempt of the target at the packet ends well. */
  predicate EndsWell(s: State, r: State, i: nat, id: nat) {
    && i < |s.lines| && s.lines[i].worker == Running(id)
    && r == s.(lines := s.lines[i := s.lines[i].(worker := Worker.Returned(id, true))])
  }

  lemma StepSucceeds(cfg: Config, s: State, e: Event, i: nat, id: nat)
    requires Enabled(cfg, s, e) && Succeeded(Next(cfg, s, e), i, id)
    ensures Succeeded(s, i, id) || EndsWell(s, Next(cfg, s, e), i, id)
  {
    hide Targets, NextClient, ClientEnabled, NextLoop, LoopEnabled, NextResult, ResultEnabled, NextStart;
    match e
    case Client(c) => EngineTurns.ClientApart(cfg, s, c);
    case Server(_) => hide Snapshot, Ids;
    case Result(r) => ResultSucceeds(cfg, s, r, i, id);
    case Loop(l) => LoopSucceeds(cfg, s, l, i, id);
    case Start(v) => NewIdle(cfg, s, v, i, id);
  }

  lemma LoopSucceeds(cfg: Config, s: State, e: LoopEvent, i: nat, id: nat)
    requires LoopEnabled(cfg, s, e) && Succeeded(NextLoop(cfg, s, e), i, id)
    ensures Succeeded(s, i, id)
  {
    hide Targets, ScanOne, Compacted, Delivered;
    if e.ScanTarget? {
      EngineTurns.ScanExactly(cfg, s);
    }
  }

  lemma ResultSucceeds(cfg: Config, s: State, e: ResultEvent, i: nat, id: nat)
    requires ResultEnabled(cfg, s, e) && Succeeded(NextResult(cfg, s, e), i, id)
    ensures Succeeded(s, i, id)
  {
    hide Targets, Snapshot, Ids, Cleared, Unload, SessionOf;
  }

  lemma NewIdle(cfg: Config, s: State, e: StartEvent, i: nat, id: nat)
    ensures !Succeeded(NextStart(cfg, s, e), i, id)
  {
    hide Targets, Load;
  }

  lemma {:induction false} SuccessEarned(cfg: Config, trace: seq<State>, n: nat, i: nat, id: nat) returns (k: nat)
    requires Run(cfg, trace) && n < |trace| && Succeeded(trace[n], i, id)
    ensures k < n && EndsWell(trace[k], trace[k + 1], i, id)
    decreases n
  {
    hide Targets, Enabled, Next, Run;
    if n == 0 {
      NoneSucceeded(cfg, trace, i, id);
      assert false;
    }
    var e := EngineTurns.StepOf(cfg, trace, n - 1);
    StepSucceeds(cfg, trace[n - 1], e, i, id);
    if Succeeded(trace[n - 1], i, id) {
      k := SuccessEarned(cfg, trace, n - 1, i, id);
    } else {
      k := n - 1;
    }
  }

  lemma NoneSucceeded(cfg: Config, trace: seq<State>, i: nat, id: nat)
    requires Run(cfg, trace)
    ensures trace != [] && !Succeeded(trace[0], i, id)
  {
    hide Targets;
  }

  lemma StepConfirms(cfg: Config, s: State, e: Event, t: Target, id: nat)
    requires Inv(cfg, s) && Enabled(cfg, s, e) && id in ConfirmedBy(Next(cfg, s, e), t) && id !in ConfirmedBy(s, t)
    ensures s.pc.Handle? && s.pc == Handle(s.pc.index, id, true) && s.pc.index < |Targets(cfg)| && Targets(cfg)[s.pc.index] == t
  {
    hide Inv, Targets, NextClient, ClientEnabled, NextLoop, LoopEnabled, Snapshot, Ids, NextServer, ServerEnabled, Cleared, Unload, SessionOf;
    match e
    case Client(c) => ClientConfirms(cfg, s, c);
    case Loop(l) => LoopConfirms(cfg, s, l);
    case Result(_) =>
    case Server(v) => ServerConfirms(s, v);
    case Start(_) =>
  }

  lemma ClientConfirms(cfg: Config, s: State, e: ClientEvent)
    requires ClientEnabled(cfg, s, e)
    ensures NextClient(cfg, s, e).past.confirmed == s.past.confirmed
  {
    hide Targets, RelayAnswer, EgtsOf, AddPending, Received, OpenIn, IdentityKnown;
  }

  lemma LoopConfirms(cfg: Config, s: State, e: LoopEvent)
    requires LoopEnabled(cfg, s, e)
    ensures NextLoop(cfg, s, e).past.confirmed == s.past.confirmed
  {
    hide Targets, FirstFor, Compacted, Delivered;
  }

  lemma ServerConfirms(s: State, e: ServerEvent)
    requires ServerEnabled(s, e)
    ensures NextServer(s, e).past.confirmed == s.past.confirmed
  {
    hide Snapshot, Ids;
  }

  /** In every run, a target has confirmed only packets at which an attempt of it has ended well. */
  lemma {:induction false} ConfirmedWasDelivered(cfg: Config, trace: seq<State>, n: nat, t: Target, id: nat) returns (k: nat, i: nat)
    requires ValidConfig(cfg) && Run(cfg, trace) && n < |trace| && id in ConfirmedBy(trace[n], t)
    ensures k < n && i < |Targets(cfg)| && Targets(cfg)[i] == t && EndsWell(trace[k], trace[k + 1], i, id)
    decreases n
  {
    hide Inv, Targets, Enabled, Next, Run;
    if n == 0 {
      NoneConfirmed(cfg, trace, t);
      assert false;
    }
    if id in ConfirmedBy(trace[n - 1], t) {
      k, i := ConfirmedWasDelivered(cfg, trace, n - 1, t, id);
    } else {
      RunKept(cfg, trace, n - 1);
      var e := EngineTurns.StepOf(cfg, trace, n - 1);
      StepConfirms(cfg, trace[n - 1], e, t, id);
      i := trace[n - 1].pc.index;
      k := SuccessEarned(cfg, trace, n - 1, i, id);
    }
  }

  lemma NoneConfirmed(cfg: Config, trace: seq<State>, t: Target)
    requires Run(cfg, trace)
    ensures trace != [] && ConfirmedBy(trace[0], t) == []
  {
    hide Targets;
  }
}
