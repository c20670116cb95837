/** What holds in every state of every run of the engine. */
module EngineTheorems {
  import opened Bytes
  import opened Queues
  import opened Engine
  import opened EngineDelivery
  import opened EngineSessions

  lemma {:induction false} NeedingIncreases(log: seq<Entry>, t: Target)
    ensures Increasing(Needing(log, t)) && forall i :: 0 <= i < |Needing(log, t)| ==> Needing(log, t)[i] < |log|
    ensures forall id :: 0 <= id < |log| && t in log[id].needs ==> id in Needing(log, t)
  {
    if log != [] {
      var n := |log| - 1;
      NeedingIncreases(log[..n], t);
      forall id | 0 <= id < |log| && t in log[id].needs
        ensures id in Needing(log, t)
      {
        if id < n {
          assert log[..n][id] == log[id];
        } else {
          assert Needing(log, t)[|Needing(log[..n], t)|] == n;
        }
      }
    }
  }

  /** First in, first out: as long as every start followed a successful final dump, the accepted
      packets that need a destination are, in order, those it has confirmed and those pending. */
  lemma Fifo(cfg: Config, trace: seq<State>, n: nat, t: Target)
    requires ValidConfig(cfg) && Run(cfg, trace) && n < |trace| && trace[n].past.clean
    ensures Needing(trace[n].past.log, t) == ConfirmedBy(trace[n], t) + Pending(trace[n].queue, t)
    ensures Increasing(ConfirmedBy(trace[n], t))
  {
    hide Run;
    RunKept(cfg, trace, n);
    var s := trace[n];
    assert ConservedFor(s, t);
    NeedingIncreases(s.past.log, t);
    var c, p := ConfirmedBy(s, t), Pending(s.queue, t);
    forall i, j | 0 <= i < j < |c|
      ensures c[i] < c[j]
    {
      assert (c + p)[i] == c[i] && (c + p)[j] == c[j];
    }
  }

  /** What a target has in hand is the first packet pending for it; the queue keeps to its capacity. */
  lemma InHandIsFirst(cfg: Config, trace: seq<State>, n: nat, i: nat)
    requires ValidConfig(cfg) && Run(cfg, trace) && n < |trace| && i < |Targets(cfg)|
    ensures |trace[n].queue| <= cfg.capacity && |trace[n].lines| == |Targets(cfg)|
    ensures Carried(trace[n], i).Some? ==>
              Pending(trace[n].queue, Targets(cfg)[i]) != []
              && Pending(trace[n].queue, Targets(cfg)[i])[0] == Carried(trace[n], i).value
  {
    hide Run, Targets, Pending;
    RunKept(cfg, trace, n);
  }

  lemma NothingLostIn(cfg: Config, s: State, id: nat, t: Target)
    requires Inv(cfg, s) && s.past.clean && id < |s.past.log| && t in s.past.log[id].needs
    ensures id in ConfirmedBy(s, t) || Holds(s.queue, id, t)
    ensures s.phase == Down(true) ==> id in ConfirmedBy(s, t) || Holds(StoredItems(s), id, t)
  {
    hide Pending, Needing;
    assert ConservedFor(s, t);
    NeedingIncreases(s.past.log, t);
    PendingHolds(s.queue, t, id);
    PendingHolds(StoredItems(s), t, id);
  }

  /** No accepted packet is lost: each of its destinations has confirmed it or it is queued for that
      one; and when the server has gone down well, it is in the dump. */
  lemma NothingLost(cfg: Config, trace: seq<State>, n: nat, id: nat, t: Target)
    requires ValidConfig(cfg) && Run(cfg, trace) && n < |trace| && trace[n].past.clean
    requires id < |trace[n].past.log| && t in trace[n].past.log[id].needs
    ensures id in ConfirmedBy(trace[n], t) || Holds(trace[n].queue, id, t)
    ensures trace[n].phase == Down(true) ==> id in ConfirmedBy(trace[n], t) || Holds(StoredItems(trace[n]), id, t)
  {
    hide Run, Inv;
    RunKept(cfg, trace, n);
    NothingLostIn(cfg, trace[n], id, t);
  }

  /** A packet is signalled as done once, and only when all its destinations have confirmed it. */
  lemma DoneMeansDelivered(cfg: Config, trace: seq<State>, n: nat)
    requires ValidConfig(cfg) && Run(cfg, trace) && n < |trace|
    ensures forall i, j :: 0 <= i < j < |trace[n].past.done| ==> trace[n].past.done[i] != trace[n].past.done[j]
    ensures forall i :: 0 <= i < |trace[n].past.done| ==> Everywhere(trace[n], trace[n].past.done[i])
  {
    hide Run, Everywhere;
    RunKept(cfg, trace, n);
  }

  /** Even a crash, or a stop whose dump failed, does not lose a packet that was ever in the dump. */
  lemma DumpedNeverLost(cfg: Config, trace: seq<State>, n: nat, id: nat, t: Target)
    requires ValidConfig(cfg) && Run(cfg, trace) && n < |trace|
    requires id in trace[n].past.dumped
    ensures id < |trace[n].past.log|
    ensures t in trace[n].past.log[id].needs ==>
              id in ConfirmedBy(trace[n], t) || (Holds(trace[n].queue, id, t) && Holds(StoredItems(trace[n]), id, t))
  {
    hide Run, Holds;
    RunKept(cfg, trace, n);
    var s := trace[n];
    assert Safe(s, s.queue, id) && Safe(s, StoredItems(s), id);
  }

  /** A session counts its pending deliveries, is registered exactly while it is open or has some,
      and a result in hand finds its session. */
  lemma SessionsCount(cfg: Config, trace: seq<State>, n: nat, x: string)
    requires ValidConfig(cfg) && Run(cfg, trace) && n < |trace| && !trace[n].phase.Down?
    ensures var s := trace[n];
            && (x in s.sessions.relays <==> (x in s.sessions.used && x !in s.sessions.ended) || Load(s.queue, x) > 0)
            && (x in s.sessions.relays ==> s.sessions.relays[x].pending == Load(s.queue, x))
    ensures trace[n].pc.Handle? ==> ResultEnabled(cfg, trace[n], Settle)
  {
    hide Run, Load, Inv;
    RunSessions(cfg, trace, n);
    RunKept(cfg, trace, n);
    assert Accounted(trace[n], x);
    if trace[n].pc.Handle? {
      SettleEnabled(cfg, trace[n]);
    }
  }

  /** Writers are closed at most once; before the final shutdown never while a delivery through
      them is queued, let alone in hand; and by then each was closed. */
  lemma WritersClosedOnce(cfg: Config, trace: seq<State>, n: nat, x: string)
    requires ValidConfig(cfg) && Run(cfg, trace) && n < |trace|
    ensures !trace[n].phase.Down? ==> trace[n].sessions.writersClosed[x] <= 1
    ensures !trace[n].phase.Down? && x in trace[n].sessions.writersClosed ==>
              forall k :: 0 <= k < |trace[n].queue| && trace[n].queue[k].relay.Some? && trace[n].queue[k].relay.value.session == x ==>
                EgtsOf(trace[n].queue[k].pending) == {}
    ensures trace[n].phase.Down? && x in trace[n].sessions.own ==> trace[n].sessions.writersClosed[x] == 1
  {
    hide Run, Load;
    RunSessions(cfg, trace, n);
    var s := trace[n];
    if !s.phase.Down? {
      assert Accounted(s, x);
      forall k | 0 <= k < |s.queue| && ItemLoad(s.queue[k], x) > 0
        ensures x in s.sessions.relays
      {
        LoadWitness(s.queue, k, x);
      }
    }
  }

  /** The delivery of an EGTS target in hand goes through writers that are still open. */
  lemma InHandWritersOpen(cfg: Config, trace: seq<State>, n: nat, i: nat)
    requires ValidConfig(cfg) && Run(cfg, trace) && n < |trace| && !trace[n].phase.Down?
    requires i < |trace[n].lines| && i < |Targets(cfg)| && Targets(cfg)[i].Egts? && Carried(trace[n], i).Some?
    ensures SessionOf(trace[n].queue, Carried(trace[n], i).value).Some?
    ensures SessionOf(trace[n].queue, Carried(trace[n], i).value).value !in trace[n].sessions.writersClosed
  {
    hide Run, Load, Targets, Pending, SessionOf;
    RunSessions(cfg, trace, n);
    RunKept(cfg, trace, n);
    var s := trace[n];
    var id := Carried(s, i).value;
    CountedDelivery(s, id, Targets(cfg)[i]);
    assert Accounted(s, SessionOf(s.queue, id).value);
  }
}
