/** Every dump the engine stores is one that the next start can restore. */
module EngineDump {
  import opened Bytes
  import opened Queues
  import opened Engine
  import opened EngineDelivery
  import opened EngineSessions
  import Packets
  import Relaying
  import Dump

  predicate AllSaveable(cfg: Config, q: Queue) {
    forall k :: 0 <= k < |q| ==> Dump.Saveable(cfg, q[k])
  }

  predicate Named(s: State) {
    forall x :: x in s.sessions.used ==> SessionName(x)
  }

  predicate DumpInv(cfg: Config, s: State) {
    && Named(s) && AllSaveable(cfg, s.queue) && AllSaveable(cfg, StoredItems(s))
    && (s.pc.Write? ==> AllSaveable(cfg, s.pc.snapshot))
  }

  lemma CompactSaveable(cfg: Config, q: Queue)
    requires AllSaveable(cfg, q)
    ensures AllSaveable(cfg, Compacted(q)) && AllSaveable(cfg, Snapshot(q))
  {
    hide Compacted, Snapshot, Targets, Packets.ReadPacket, Relaying.ShouldRelay;
    forall k | 0 <= k < |Compacted(q)|
      ensures Dump.Saveable(cfg, Compacted(q)[k])
    {
      CompactedMembers(q, Compacted(q)[k]);
    }
    forall k | 0 <= k < |Snapshot(q)|
      ensures Dump.Saveable(cfg, Snapshot(q)[k])
    {
      SnapshotMembers(q, Snapshot(q)[k]);
    }
  }

  lemma ClearedSaveable(cfg: Config, q: Queue, id: nat, t: Target)
    requires AllSaveable(cfg, q)
    ensures AllSaveable(cfg, Cleared(q, id, t))
  {
    hide Targets, Packets.ReadPacket, Relaying.ShouldRelay;
    forall k | 0 <= k < |q|
      ensures Dump.Saveable(cfg, Cleared(q, id, t)[k])
    {
      assert Dump.Saveable(cfg, q[k]);
      assert EgtsOf(Cleared(q, id, t)[k].pending) <= EgtsOf(q[k].pending);
    }
  }

  /** enqueue gives EGTS destinations only to packets that are to be relayed, and none that is not
      enabled. */
  lemma NewSaveable(cfg: Config, s: State, record: Record, from: Option<Relay>)
    requires ClientEnabled(cfg, s, Enqueue(record, from)) && Named(s)
    requires Admission(cfg, s.accepting, |s.queue|, record, from.Some?).Accepts?
    ensures var needs := Admission(cfg, s.accepting, |s.queue|, record, from.Some?).needs;
            Dump.Saveable(cfg, Item(|s.past.log|, record, needs, if EgtsOf(needs) != {} then from else None))
  {
    hide Targets, Packets.ReadPacket, Relaying.ShouldRelay, IdentityKnown;
  }

  lemma EnqueueDump(cfg: Config, s: State, record: Record, from: Option<Relay>)
    requires DumpInv(cfg, s) && ClientEnabled(cfg, s, Enqueue(record, from))
    ensures DumpInv(cfg, NextClient(cfg, s, Enqueue(record, from)))
  {
    hide Targets, Packets.ReadPacket, Relaying.ShouldRelay, IdentityKnown, Needs, EgtsOf, Dump.Saveable;
    if Admission(cfg, s.accepting, |s.queue|, record, from.Some?).Accepts? {
      NewSaveable(cfg, s, record, from);
    }
  }

  lemma ClientDump(cfg: Config, s: State, e: ClientEvent)
    requires DumpInv(cfg, s) && ClientEnabled(cfg, s, e)
    ensures DumpInv(cfg, NextClient(cfg, s, e))
  {
    hide Packets.ReadPacket, IdentityKnown, AllSaveable;
    if e.Enqueue? {
      EnqueueDump(cfg, s, e.record, e.from);
    }
  }

  lemma LoopDump(cfg: Config, s: State, e: LoopEvent)
    requires DumpInv(cfg, s) && LoopEnabled(cfg, s, e)
    ensures DumpInv(cfg, NextLoop(cfg, s, e))
  {
    hide Targets, AllSaveable, Compacted, Delivered, FirstFor, DumpInv, Earlier;
    if e.CompactQueue? {
      CompactDump(cfg, s);
    } else {
      SameDump(cfg, s, NextLoop(cfg, s, e));
    }
  }

  lemma CompactDump(cfg: Config, s: State)
    requires DumpInv(cfg, s) && s.pc.Compact?
    ensures DumpInv(cfg, NextLoop(cfg, s, CompactQueue))
  {
    hide AllSaveable, Compacted, Delivered;
    CompactSaveable(cfg, s.queue);
  }

  lemma SameDump(cfg: Config, s: State, r: State)
    requires DumpInv(cfg, s) && r.queue == s.queue && r.stored == s.stored && r.sessions == s.sessions && !r.pc.Write?
    ensures DumpInv(cfg, r)
  {
    hide AllSaveable;
  }

  lemma ResultDump(cfg: Config, s: State, e: ResultEvent)
    requires DumpInv(cfg, s) && ResultEnabled(cfg, s, e)
    ensures DumpInv(cfg, NextResult(cfg, s, e))
  {
    hide Targets, AllSaveable, Snapshot, Ids, Cleared, Unload, SessionOf;
    if e.Settle? {
      if s.pc.ok {
        ClearedSaveable(cfg, s.queue, s.pc.id, Targets(cfg)[s.pc.index]);
      }
    } else {
      CompactSaveable(cfg, s.queue);
    }
  }

  lemma StepDump(cfg: Config, s: State, e: Event)
    requires DumpInv(cfg, s) && Enabled(cfg, s, e)
    ensures DumpInv(cfg, Next(cfg, s, e))
  {
    hide NextClient, NextLoop, NextResult, AllSaveable, Snapshot, Ids, Load, SessionsOf, Targets, DumpInv;
    match e
    case Client(c) => ClientDump(cfg, s, c);
    case Loop(l) => LoopDump(cfg, s, l);
    case Result(r) => ResultDump(cfg, s, r);
    case Server(v) => ServerDump(cfg, s, v);
    case Start(v) => StartDump(cfg, s, v);
  }

  lemma ServerDump(cfg: Config, s: State, e: ServerEvent)
    requires DumpInv(cfg, s) && ServerEnabled(s, e)
    ensures DumpInv(cfg, NextServer(s, e))
  {
    hide AllSaveable, Snapshot, Ids, Targets;
    CompactSaveable(cfg, s.queue);
  }

  lemma StartDump(cfg: Config, s: State, e: StartEvent)
    requires DumpInv(cfg, s)
    ensures DumpInv(cfg, NextStart(cfg, s, e))
  {
    hide AllSaveable, Load, SessionsOf, Targets;
  }

  lemma {:induction false} RunDump(cfg: Config, trace: seq<State>, n: nat)
    requires Run(cfg, trace) && n < |trace|
    ensures DumpInv(cfg, trace[n])
  {
    hide Next, Enabled, Targets, AllSaveable;
    if n == 0 {
      var now: nat :| trace[0] == Init(cfg, now);
      NothingToSave(cfg);
    } else {
      RunDump(cfg, trace, n - 1);
      assert StepAt(cfg, trace, n - 1);
      var e :| Enabled(cfg, trace[n - 1], e) && trace[n] == Next(cfg, trace[n - 1], e);
      StepDump(cfg, trace[n - 1], e);
    }
  }

  lemma NothingToSave(cfg: Config)
    ensures AllSaveable(cfg, [])
  {
  }

  /** Whatever the queue is, what saveDump writes of it can be restored; and what is restored is
      what the engine's next start has: the same packets with the same pending destinations, in
      order, and the same sessions with the same counts. */
  lemma DumpRestores(cfg: Config, trace: seq<State>, n: nat)
    requires ValidConfig(cfg) && Run(cfg, trace) && n < |trace|
    ensures var q := Snapshot(trace[n].queue);
            var next := Fresh(cfg, trace[n].(stored := Some(q)));
            Dump.Restore(cfg, Dump.Save(cfg, trace[n].queue))
            == Ok(Dump.Restored(Dump.AllAnonymous(next.queue), next.sessions.relays))
  {
    hide Run, Dump.Restore, Dump.Save, Snapshot, Load, SessionsOf, Targets;
    RunDump(cfg, trace, n);
    RunKept(cfg, trace, n);
    Dump.RoundTrip(cfg, trace[n].queue);
    var q := Snapshot(trace[n].queue);
    var next := Fresh(cfg, trace[n].(stored := Some(q)));
    assert next.queue == q;
    assert next.sessions.relays == map x | x in SessionsOf(q) :: Session(Load(q, x), true);
  }
}
