/** A connection that waits for its packet to be delivered does not wait in vain: the packet is
    queued, or its done channel is closed (gateway/server/connection.go:128-134). */
module GatewayWaits {
  import opened Bytes
  import Q = Queues
  import E = Engine
  import C = Connection
  import opened Gateway

  predicate QueuedOrDone(e: E.State, id: nat) {
    id in E.Ids(e.queue) || id in e.past.done
  }

  lemma {:induction false} CompactedOrDelivered(q: Q.Queue, id: nat)
    requires id in E.Ids(q)
    ensures id in E.Ids(Q.Compacted(q)) || id in Q.Delivered(q)
  {
    var k :| 0 <= k < |q| && q[k].id == id;
    var n := |q| - 1;
    var c := Q.Compacted(q[..n]);
    assert Q.Compacted(q) == c + (if q[n].pending == {} then [] else [q[n]]);
    if k < n {
      assert q[..n][k].id == id;
      CompactedOrDelivered(q[..n], id);
      if id in E.Ids(c) {
        var j :| 0 <= j < |c| && c[j].id == id;
        assert Q.Compacted(q)[j] == c[j];
      }
    } else if q[n].pending != {} {
      assert Q.Compacted(q)[|c|].id == id;
    } else {
      assert Q.Delivered(q)[|Q.Delivered(q[..n])|] == id;
    }
  }

  lemma SameIds(q: Q.Queue, r: Q.Queue)
    requires |q| <= |r| && forall k :: 0 <= k < |q| ==> q[k].id == r[k].id
    ensures E.Ids(q) <= E.Ids(r)
  {
    forall id | id in E.Ids(q)
      ensures id in E.Ids(r)
    {
      var k :| 0 <= k < |q| && q[k].id == id;
      assert r[k].id == id;
    }
  }

  /** Only the end of the process takes a packet out of the queue without signalling it as done. */
  lemma StepKeepsQueued(cfg: Q.Config, s: E.State, e: E.Event, id: nat)
    requires E.Enabled(cfg, s, e) && !e.Start? && QueuedOrDone(s, id)
    ensures QueuedOrDone(E.Next(cfg, s, e), id)
  {
    hide Q.Targets, E.NextClient, E.ClientEnabled, E.NextLoop, E.LoopEnabled, E.NextResult, E.ResultEnabled, E.NextServer,
         E.ServerEnabled, E.Ids;
    match e
    case Client(c) => ClientKeeps(cfg, s, c);
    case Loop(l) => LoopKeeps(cfg, s, l, id);
    case Result(r) => ResultKeeps(cfg, s, r);
    case Server(v) => ServerKeeps(s, v);
  }

  lemma ClientKeeps(cfg: Q.Config, s: E.State, e: E.ClientEvent)
    requires E.ClientEnabled(cfg, s, e)
    ensures E.Ids(s.queue) <= E.Ids(E.NextClient(cfg, s, e).queue) && E.NextClient(cfg, s, e).past.done == s.past.done
  {
    hide Q.Targets, E.RelayAnswer, Q.EgtsOf, E.AddPending, Q.Received, E.OpenIn, Q.IdentityKnown, E.Ids;
    SameIds(s.queue, E.NextClient(cfg, s, e).queue);
  }

  lemma LoopKeeps(cfg: Q.Config, s: E.State, e: E.LoopEvent, id: nat)
    requires E.LoopEnabled(cfg, s, e) && QueuedOrDone(s, id)
    ensures QueuedOrDone(E.NextLoop(cfg, s, e), id)
  {
    hide Q.Targets, E.FirstFor, Q.Compacted, Q.Delivered, E.Ids;
    if e.CompactQueue? && id in E.Ids(s.queue) {
      CompactedOrDelivered(s.queue, id);
    }
  }

  lemma ResultKeeps(cfg: Q.Config, s: E.State, e: E.ResultEvent)
    requires E.ResultEnabled(cfg, s, e)
    ensures E.Ids(s.queue) <= E.Ids(E.NextResult(cfg, s, e).queue) && E.NextResult(cfg, s, e).past.done == s.past.done
  {
    hide Q.Targets, Q.Snapshot, E.Unload, E.SessionOf, E.Ids;
    SameIds(s.queue, E.NextResult(cfg, s, e).queue);
  }

  lemma ServerKeeps(s: E.State, e: E.ServerEvent)
    requires E.ServerEnabled(s, e)
    ensures E.NextServer(s, e).queue == s.queue && E.NextServer(s, e).past.done == s.past.done
  {
    hide Q.Snapshot, E.Ids;
  }

  // ---- all connections ----

  predicate AllWait(s: State) {
    forall k :: 0 <= k < |s.conns| && s.conns[k].phase.Waiting? && s.conns[k].phase.id.Some? ==>
      QueuedOrDone(s.engine, s.conns[k].phase.id.value)
  }

  /** Nothing the engine holds goes, and no connection waits for anything new but perhaps the k-th. */
  lemma OthersWait(s: State, r: State, k: nat)
    requires AllWait(s) && forall id :: QueuedOrDone(s.engine, id) ==> QueuedOrDone(r.engine, id)
    requires forall j :: 0 <= j < |r.conns| && j != k && r.conns[j].phase.Waiting? ==> j < |s.conns| && r.conns[j] == s.conns[j]
    requires k < |r.conns| && r.conns[k].phase.Waiting? && r.conns[k].phase.id.Some? ==>
               QueuedOrDone(r.engine, r.conns[k].phase.id.value)
    ensures AllWait(r)
  {
    hide QueuedOrDone;
  }

  lemma ClientWaits(cfg: Q.Config, s: E.State, e: E.ClientEvent)
    requires E.ClientEnabled(cfg, s, e)
    ensures forall id :: QueuedOrDone(s, id) ==> QueuedOrDone(E.NextClient(cfg, s, e), id)
  {
    hide E.NextClient, E.ClientEnabled, E.Ids;
    ClientKeeps(cfg, s, e);
  }

  lemma NewIsQueued(cfg: Q.Config, s: E.State, e: E.ClientEvent)
    requires e.Enqueue? && E.ClientEnabled(cfg, s, e)
    requires AnswerOf(E.Admission(cfg, s.accepting, |s.queue|, e.record, e.from.Some?)).Taken?
    ensures QueuedOrDone(E.NextClient(cfg, s, e), |s.past.log|)
  {
    hide E.Admission, E.AddPending, Q.EgtsOf;
    var q := E.NextClient(cfg, s, e).queue;
    assert q[|s.queue|].id == |s.past.log|;
  }

  lemma ArriveWaits(setup: Setup, s: State, k: nat, raw: seq<byte>, receivedAt: int)
    requires AllWait(s) && Enabled(setup, s, Arrive(k, raw, receivedAt))
    ensures AllWait(NextArrive(setup, s, k, raw, receivedAt))
  {
    hide OfferFor, E.Admission, E.ClientEnabled, E.NextClient, QueuedOrDone;
    var c, r := s.conns[k], NextArrive(setup, s, k, raw, receivedAt);
    OfferedWhatever(setup.conns, c, C.Input(raw, C.Refused, false, false, false));
    match OfferFor(setup.conns, c, raw)
    case None =>
    case Some(o) =>
      var e := Enqueues(c, o, receivedAt);
      ClientWaits(setup.queues, s.engine, e);
      if AnswerOf(E.Admission(setup.queues, s.engine.accepting, |s.engine.queue|, e.record, e.from.Some?)).Taken? {
        NewIsQueued(setup.queues, s.engine, e);
      }
      OthersWait(s, r, k);
  }

  lemma StepWaits(setup: Setup, s: State, e: Event)
    requires Enabled(setup, s, e) && AllWait(s)
    ensures AllWait(Next(setup, s, e))
  {
    hide QueuedOrDone, Rest, OfferFor, E.ClientEnabled, E.NextClient, E.Next, E.Enabled, NextArrive, AllWait;
    var r := Next(setup, s, e);
    match e
    case Inside(inner) =>
      if inner.Start? {
        NoneWait(r);
      } else {
        forall id | QueuedOrDone(s.engine, id)
          ensures QueuedOrDone(r.engine, id)
        {
          StepKeepsQueued(setup.queues, s.engine, inner, id);
        }
        StillWait(s, r);
      }
    case Connect(_, x) =>
      if Relays(setup) {
        ClientWaits(setup.queues, s.engine, E.OpenSession(x));
      }
      OthersWait(s, r, |s.conns|);
    case Arrive(k, raw, receivedAt) => ArriveWaits(setup, s, k, raw, receivedAt);
    case Reply(k, _, _) => OthersWait(s, r, k);
    case GiveUp(k) => OthersWait(s, r, k);
    case Hangup(k) =>
      if s.conns[k].session.Some? {
        ClientWaits(setup.queues, s.engine, E.EndSession(s.conns[k].session.value));
      }
      OthersWait(s, r, k);
  }

  lemma StillWait(s: State, r: State)
    requires AllWait(s) && r.conns == s.conns && forall id :: QueuedOrDone(s.engine, id) ==> QueuedOrDone(r.engine, id)
    ensures AllWait(r)
  {
    hide QueuedOrDone;
  }

  lemma NoneWait(s: State)
    requires s.conns == []
    ensures AllWait(s)
  {
  }

  /** In every run, the packet that a connection waits for is still queued for some destination or
      about to be signalled, or its done channel is closed. */
  lemma {:induction false} WaitsForQueued(setup: Setup, trace: seq<State>, n: nat)
    requires Run(setup, trace) && n < |trace|
    ensures AllWait(trace[n])
    decreases n
  {
    hide Enabled, Next, AllWait, Init;
    if n == 0 {
      var now: nat :| trace[0] == Init(setup, now);
      NoneAtFirst(setup, now);
    } else {
      WaitsForQueued(setup, trace, n - 1);
      assert StepAt(setup, trace, n - 1);
      var e :| Enabled(setup, trace[n - 1], e) && trace[n] == Next(setup, trace[n - 1], e);
      StepWaits(setup, trace[n - 1], e);
    }
  }

  lemma NoneAtFirst(setup: Setup, now: nat)
    ensures AllWait(Init(setup, now))
  {
  }
}
