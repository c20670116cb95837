/** What a crash can make the gateway deliver again: nothing confirmed before the confirmation that
    is being saved (gateway/server/queue.go:285-293). */
module EngineRedelivery {
  import opened Bytes
  import opened Queues
  import opened Engine
  import opened EngineDelivery
  import opened EngineTheorems

  /** All that p waits for, q waits for. */
  predicate Held(p: Queue, q: Queue) {
    forall k, t :: 0 <= k < |p| && t in p[k].pending ==> p[k].id in Pending(q, t)
  }

  /** Between a confirmation and its save the dump may be behind, and once a save has failed. */
  predicate Behind(s: State) {
    s.cancelled || !s.phase.Serving? || s.pc.Save? || s.pc.Write?
  }

  predicate NotBehind(s: State) {
    && (!Behind(s) ==> Held(StoredItems(s), s.queue))
    && (s.pc.Write? ==> Held(s.pc.snapshot, s.queue))
  }

  lemma SnapshotHeld(q: Queue)
    ensures Held(Snapshot(q), q)
  {
    forall k, t | 0 <= k < |Snapshot(q)| && t in Snapshot(q)[k].pending
      ensures Snapshot(q)[k].id in Pending(q, t)
    {
      hide Pending;
      SnapshotMembers(q, k);
      var j :| 0 <= j < |q| && Snapshot(q)[k] == Kept(q[j]);
      PendingHolds(q, t, q[j].id);
      assert Holds(q, q[j].id, t);
    }
  }

  lemma {:induction false} SnapshotMembers(q: Queue, k: nat)
    requires k < |Snapshot(q)|
    ensures exists j :: 0 <= j < |q| && Snapshot(q)[k] == Kept(q[j])
  {
    var n := |q| - 1;
    if k < |Snapshot(q[..n])| {
      SnapshotMembers(q[..n], k);
      var j :| 0 <= j < n && Snapshot(q[..n])[k] == Kept(q[..n][j]);
      assert Snapshot(q)[k] == Kept(q[j]);
    } else {
      assert Snapshot(q)[k] == Kept(q[n]);
    }
  }

  lemma HeldMore(p: Queue, q: Queue, r: Queue)
    requires Held(p, q) && forall t, id :: id in Pending(q, t) ==> id in Pending(r, t)
    ensures Held(p, r)
  {
    hide Pending;
  }

  lemma ClientNotBehind(cfg: Config, s: State, e: ClientEvent)
    requires ClientEnabled(cfg, s, e) && NotBehind(s)
    ensures NotBehind(NextClient(cfg, s, e))
  {
    hide Pending, Held, Targets, RelayAnswer, EgtsOf, AddPending, Received, IdentityKnown;
    var r := NextClient(cfg, s, e);
    if e.Enqueue? && r.queue != s.queue {
      var x := r.queue[|s.queue|];
      forall t, id | id in Pending(s.queue, t)
        ensures id in Pending(r.queue, t)
      {
        Push(s.queue, x, t, "");
      }
      if s.pc.Write? {
        HeldMore(s.pc.snapshot, s.queue, r.queue);
      }
      if !Behind(s) {
        HeldMore(StoredItems(s), s.queue, r.queue);
      }
    }
  }

  lemma LoopNotBehind(cfg: Config, s: State, e: LoopEvent)
    requires LoopEnabled(cfg, s, e) && NotBehind(s)
    ensures NotBehind(NextLoop(cfg, s, e))
  {
    hide Pending, Held, Targets, Compacted, Delivered, FirstFor;
    if e.CompactQueue? && !Behind(s) {
      forall t, id | id in Pending(s.queue, t)
        ensures id in Pending(Compacted(s.queue), t)
      {
        CompactedPending(s.queue, t);
      }
      HeldMore(StoredItems(s), s.queue, Compacted(s.queue));
    }
  }

  lemma ResultNotBehind(cfg: Config, s: State, e: ResultEvent)
    requires Inv(cfg, s) && ResultEnabled(cfg, s, e) && NotBehind(s)
    ensures NotBehind(NextResult(cfg, s, e))
  {
    hide Counted, Ordered, Tracked, FrontInFlight, Conserved, DumpComplete, DoneOnce, DumpedStays;
    hide Pending, Held, Targets, Snapshot, Cleared, Unload, SessionOf, Ids;
    SnapshotHeld(s.queue);
    NothingHeld(s.queue);
  }

  lemma NothingHeld(q: Queue)
    ensures Held([], q)
  {
  }

  lemma SameHeld(q: Queue)
    ensures Held(q, q)
  {
    forall k, t | 0 <= k < |q| && t in q[k].pending
      ensures q[k].id in Pending(q, t)
    {
      assert Holds(q, q[k].id, t);
      PendingHolds(q, t, q[k].id);
    }
  }

  lemma StepNotBehind(cfg: Config, s: State, e: Event)
    requires Inv(cfg, s) && Enabled(cfg, s, e) && NotBehind(s)
    ensures NotBehind(Next(cfg, s, e))
  {
    hide Inv, Held, ClientEnabled, NextClient, LoopEnabled, NextLoop, ResultEnabled, NextResult, Snapshot, Ids, Targets;
    match e
    case Client(c) => ClientNotBehind(cfg, s, c);
    case Loop(l) => LoopNotBehind(cfg, s, l);
    case Result(r) => ResultNotBehind(cfg, s, r);
    case Server(_) =>
    case Start(_) => SameHeld(StoredItems(s));
  }

  lemma {:induction false} RunNotBehind(cfg: Config, trace: seq<State>, n: nat)
    requires ValidConfig(cfg) && Run(cfg, trace) && n < |trace|
    ensures NotBehind(trace[n])
  {
    hide Inv, Enabled, Next, NotBehind, Targets;
    if n == 0 {
      var now: nat :| trace[0] == Init(cfg, now);
      StartsLevel(cfg, now);
    } else {
      RunNotBehind(cfg, trace, n - 1);
      RunKept(cfg, trace, n - 1);
      assert StepAt(cfg, trace, n - 1);
      var e :| Enabled(cfg, trace[n - 1], e) && trace[n] == Next(cfg, trace[n - 1], e);
      StepNotBehind(cfg, trace[n - 1], e);
    }
  }

  lemma StartsLevel(cfg: Config, now: nat)
    ensures NotBehind(Init(cfg, now))
  {
    hide Targets;
  }

  /** While the server serves and the loop is not saving, all that a crash would bring back is still
      queued: nothing is delivered again that was confirmed, in a process that began well. */
  lemma CrashRedelivers(cfg: Config, trace: seq<State>, n: nat, id: nat, t: Target)
    requires ValidConfig(cfg) && Run(cfg, trace) && n < |trace| && !Behind(trace[n])
    requires Holds(NextStart(cfg, trace[n], Crash).queue, id, t)
    ensures Holds(trace[n].queue, id, t) && (trace[n].past.clean ==> id !in ConfirmedBy(trace[n], t))
  {
    hide Run, Pending, Inv, Targets, Load, Needing;
    RunNotBehind(cfg, trace, n);
    var s := trace[n];
    var k :| 0 <= k < |StoredItems(s)| && StoredItems(s)[k].id == id && t in StoredItems(s)[k].pending;
    PendingHolds(s.queue, t, id);
    if s.past.clean {
      Fifo(cfg, trace, n, t);
      NeedingIncreases(s.past.log, t);
      NotBoth(Needing(s.past.log, t), ConfirmedBy(s, t), Pending(s.queue, t), id);
    }
  }

  lemma NotBoth(all: seq<nat>, a: seq<nat>, b: seq<nat>, id: nat)
    requires all == a + b && Increasing(all) && id in b
    ensures id !in a
  {
    var j :| 0 <= j < |b| && b[j] == id;
    forall i | 0 <= i < |a|
      ensures a[i] < id
    {
      assert all[i] == a[i] && all[|a| + j] == id;
    }
  }
}
