/** What every step of the engine keeps: order, what is in flight, conservation, the done channels
    and the dump. */
module EngineDelivery {
  import opened Bytes
  import opened Queues
  import opened Engine
  import Packets
  import Relaying

  // ---- the invariants ----

  predicate Shape(cfg: Config, s: State) {
    && |s.lines| == |Targets(cfg)|
    && |s.queue| <= cfg.capacity && |StoredItems(s)| <= cfg.capacity
    && (s.pc.Write? ==> |s.pc.snapshot| <= cfg.capacity)
    && (s.pc.Scan? ==> s.pc.next <= |s.lines|)
    && (s.pc.Handle? ==> s.pc.index < |s.lines| && s.lines[s.pc.index].worker.Idle?)
    && (s.hasDump <==> s.stored.Some?)
    && (s.phase.Dumped? || s.phase.Down? ==> s.pc.Returned?)
    && (s.pc.Write? ==> s.hasDump)
  }

  /** The delivery loop counts every attempt it passes, and stops only when none is left. */
  predicate Counted(s: State) {
    && (s.pc.Scan? ==> s.pc.next <= |s.lines| && (s.pc.active == 0 ==> forall j :: 0 <= j < s.pc.next ==> s.lines[j].worker.Idle?))
    && (s.pc.Returned? ==> forall j :: 0 <= j < |s.lines| ==> s.lines[j].worker.Idle?)
  }

  predicate InOrder(s: State, q: Queue) {
    Ascending(q) && Below(q, |s.past.log|)
  }

  predicate Ordered(s: State) {
    && InOrder(s, s.queue) && InOrder(s, StoredItems(s))
    && (s.pc.Write? ==> InOrder(s, s.pc.snapshot))
  }

  /** A queued packet is the accepted one, and waits for just the destinations that have not
      confirmed it. */
  predicate TrackedItem(s: State, x: Item) {
    && x.id < |s.past.log| && x.record == s.past.log[x.id].record
    && (EgtsOf(x.pending) != {} ==> x.relay == s.past.log[x.id].relay)
    && x.pending <= s.past.log[x.id].needs
    && forall t :: t in s.past.log[x.id].needs && t !in x.pending ==> x.id in ConfirmedBy(s, t)
  }

  predicate TrackedQueue(s: State, q: Queue) {
    forall k :: 0 <= k < |q| ==> TrackedItem(s, q[k])
  }

  predicate Tracked(s: State) {
    && TrackedQueue(s, s.queue) && TrackedQueue(s, StoredItems(s))
    && (s.pc.Write? ==> TrackedQueue(s, s.pc.snapshot))
  }

  /** The packet a target has in hand, from dispatch until its result is dealt with. */
  function Carried(s: State, i: nat): Option<nat>
    requires i < |s.lines|
  {
    match s.lines[i].worker
    case Running(id) => Some(id)
    case Returned(id, _) => Some(id)
    case Idle => if s.pc.Handle? && s.pc.index == i then Some(s.pc.id) else None
  }

  predicate Front(q: Queue, t: Target, id: nat) {
    Pending(q, t) != [] && Pending(q, t)[0] == id
  }

  /** The packet in hand is the first one pending for that target. */
  predicate FrontInFlight(cfg: Config, s: State) {
    && |s.lines| == |Targets(cfg)|
    && forall i :: 0 <= i < |s.lines| && Carried(s, i).Some? ==> Front(s.queue, Targets(cfg)[i], Carried(s, i).value)
  }

  /** The accepted packets that need a target, in the order of acceptance. */
  function Needing(log: seq<Entry>, t: Target): seq<nat> {
    if log == [] then [] else Needing(log[..|log| - 1], t) + (if t in log[|log| - 1].needs then [|log| - 1] else [])
  }

  predicate ConservedFor(s: State, t: Target) {
    Needing(s.past.log, t) == ConfirmedBy(s, t) + Pending(s.queue, t)
  }

  ghost predicate Conserved(s: State) {
    s.past.clean ==> forall t :: ConservedFor(s, t)
  }

  /** After a successful final dump nothing pending is missing from it. */
  ghost predicate DumpComplete(s: State) {
    (s.phase.Dumped? || s.phase.Down?) && s.phase.ok ==> forall t :: Pending(StoredItems(s), t) == Pending(s.queue, t)
  }

  predicate Everywhere(s: State, id: nat) {
    id < |s.past.log| && forall t :: t in s.past.log[id].needs ==> id in ConfirmedBy(s, t)
  }

  predicate DoneOnce(s: State) {
    && (forall i, j :: 0 <= i < j < |s.past.done| ==> s.past.done[i] != s.past.done[j])
    && (forall i :: 0 <= i < |s.past.done| ==> Everywhere(s, s.past.done[i]))
    && (forall i, k :: 0 <= i < |s.past.done| && 0 <= k < |s.queue| ==> s.past.done[i] != s.queue[k].id)
  }

  /** A packet is confirmed by each of its destinations or held for it. */
  predicate Safe(s: State, q: Queue, id: nat) {
    id < |s.past.log| && forall t :: t in s.past.log[id].needs ==> id in ConfirmedBy(s, t) || Holds(q, id, t)
  }

  predicate SafeIn(s: State, q: Queue) {
    forall id :: id in s.past.dumped ==> Safe(s, q, id)
  }

  predicate SafeItems(s: State, q: Queue, p: Queue) {
    forall k :: 0 <= k < |q| ==> Safe(s, p, q[k].id)
  }

  /** Once written to the dump, a packet stays both in the queue and in the dump until confirmed. */
  predicate DumpedStays(s: State) {
    && SafeIn(s, s.queue) && SafeIn(s, StoredItems(s))
    && (s.pc.Write? ==> SafeIn(s, s.pc.snapshot) && SafeItems(s, s.pc.snapshot, s.queue))
  }

  ghost predicate Inv(cfg: Config, s: State) {
    && Shape(cfg, s) && Counted(s) && Ordered(s) && Tracked(s) && FrontInFlight(cfg, s)
    && Conserved(s) && DumpComplete(s) && DoneOnce(s) && DumpedStays(s)
  }

  // ---- targets are distinct ----

  lemma {:induction false} EnabledIdFrom(ds: seq<Destination>, id: string)
    requires id in EnabledIds(ds)
    ensures exists k :: 0 <= k < |ds| && ds[k].enabled && ds[k].id == id
  {
    var n := |ds| - 1;
    if ds[n].enabled && ds[n].id == id {
    } else {
      EnabledIdFrom(ds[..n], id);
      var k :| 0 <= k < n && ds[..n][k].enabled && ds[..n][k].id == id;
      assert ds[k].enabled && ds[k].id == id;
    }
  }

  lemma {:induction false} EnabledIdsDistinct(ds: seq<Destination>)
    requires DistinctIds(ds)
    ensures forall i, j :: 0 <= i < j < |EnabledIds(ds)| ==> EnabledIds(ds)[i] != EnabledIds(ds)[j]
  {
    if ds != [] {
      var n := |ds| - 1;
      EnabledIdsDistinct(ds[..n]);
      if ds[n].id in EnabledIds(ds[..n]) {
        EnabledIdFrom(ds[..n], ds[n].id);
      }
    }
  }

  lemma TargetsDistinct(cfg: Config)
    requires ValidConfig(cfg)
    ensures forall i, j :: 0 <= i < j < |Targets(cfg)| ==> Targets(cfg)[i] != Targets(cfg)[j]
  {
    EnabledIdsDistinct(cfg.egts);
    EnabledIdsDistinct(cfg.rabbitmq);
    EnabledIdsDistinct(cfg.valkey);
  }

  // ---- each step keeps them ----

  /** What the invariants are about. */
  predicate SameBut(s: State, r: State) {
    r.queue == s.queue && r.stored == s.stored && r.hasDump == s.hasDump && r.past == s.past
  }

  lemma ContentsKept(s: State, r: State)
    requires SameBut(s, r)
    requires Ordered(s) && Tracked(s) && Conserved(s) && DoneOnce(s) && DumpedStays(s)
    requires r.pc.Write? ==> s.pc.Write? && s.pc.snapshot == r.pc.snapshot
    ensures Ordered(r) && Tracked(r) && Conserved(r) && DoneOnce(r) && DumpedStays(r)
  {
    assert forall t :: ConfirmedBy(r, t) == ConfirmedBy(s, t);
    assert forall t :: ConservedFor(s, t) == ConservedFor(r, t);
    TrackedSame(s, r, s.queue);
    TrackedSame(s, r, StoredItems(s));
    SafeSame(s, r, s.queue);
    SafeSame(s, r, StoredItems(s));
    if r.pc.Write? {
      TrackedSame(s, r, s.pc.snapshot);
      SafeSame(s, r, s.pc.snapshot);
      SafeItemsSame(s, r, s.pc.snapshot, s.queue);
    }
    assert forall id :: Everywhere(s, id) == Everywhere(r, id);
  }

  lemma TrackedSame(s: State, r: State, q: Queue)
    requires r.past == s.past && TrackedQueue(s, q)
    ensures TrackedQueue(r, q)
  {
    assert forall k :: 0 <= k < |q| ==> TrackedItem(s, q[k]) == TrackedItem(r, q[k]);
  }

  lemma SafeSame(s: State, r: State, q: Queue)
    requires r.past == s.past && SafeIn(s, q)
    ensures SafeIn(r, q)
  {
    assert forall id :: Safe(s, q, id) == Safe(r, q, id);
  }

  lemma SafeItemsSame(s: State, r: State, q: Queue, p: Queue)
    requires r.past.log == s.past.log && r.past.confirmed == s.past.confirmed && SafeItems(s, q, p)
    ensures SafeItems(r, q, p)
  {
    assert forall id :: Safe(s, p, id) == Safe(r, p, id);
  }

  // ---- steps of the loop that leave the contents alone ----

  lemma LoopKept(cfg: Config, s: State, r: State)
    requires Inv(cfg, s) && SameBut(s, r)
    requires r.pc.Write? ==> s.pc.Write? && s.pc.snapshot == r.pc.snapshot
    requires Shape(cfg, r) && Counted(r) && FrontInFlight(cfg, r) && DumpComplete(r)
    ensures Inv(cfg, r)
  {
    ContentsKept(s, r);
  }

  lemma SameLines(cfg: Config, s: State, r: State)
    requires FrontInFlight(cfg, s) && r.queue == s.queue && r.lines == s.lines
    requires (!s.pc.Handle? && !r.pc.Handle?) || r.pc == s.pc
    ensures FrontInFlight(cfg, r)
  {
    assert forall i :: 0 <= i < |s.lines| ==> Carried(r, i) == Carried(s, i);
  }

  lemma CountedSame(s: State, r: State)
    requires Counted(s) && r.lines == s.lines && r.pc == s.pc
    ensures Counted(r)
  {
  }

  lemma OutsideKept(cfg: Config, s: State, e: ServerEvent)
    requires Inv(cfg, s) && ServerEnabled(s, e) && !e.FinalDump? && !e.Attempted?
    ensures Inv(cfg, NextServer(s, e))
  {
    hide Ordered, Tracked, Conserved, DoneOnce, DumpedStays, FrontInFlight, Targets, Counted, Store;
    var r := NextServer(s, e);
    CountedSame(s, r);
    SameLines(cfg, s, r);
    LoopKept(cfg, s, r);
  }

  lemma SessionStepKept(cfg: Config, s: State, e: ClientEvent)
    requires Inv(cfg, s) && ClientEnabled(cfg, s, e) && !e.Enqueue?
    ensures Inv(cfg, NextClient(cfg, s, e))
  {
    hide Ordered, Tracked, Conserved, DoneOnce, DumpedStays, FrontInFlight, Targets, Counted, Accept, Admission;
    var r := NextClient(cfg, s, e);
    CountedSame(s, r);
    SameLines(cfg, s, r);
    LoopKept(cfg, s, r);
  }

  lemma TurnKept(cfg: Config, s: State, e: LoopEvent)
    requires Inv(cfg, s) && LoopEnabled(cfg, s, e) && !e.CompactQueue? && !e.ScanTarget? && !e.Receive?
    ensures Inv(cfg, NextLoop(cfg, s, e))
  {
    hide Ordered, Tracked, Conserved, DoneOnce, DumpedStays, FrontInFlight, Targets, ScanOne;
    var r := NextLoop(cfg, s, e);
    SameLines(cfg, s, r);
    LoopKept(cfg, s, r);
  }

  lemma ScanFront(cfg: Config, s: State)
    requires FrontInFlight(cfg, s) && LoopEnabled(cfg, s, ScanTarget)
    ensures FrontInFlight(cfg, ScanOne(cfg, s))
  {
    hide Targets, FirstFor, Pending, Earlier;
    var r := ScanOne(cfg, s);
    var k := FirstFor(s.queue, Targets(cfg)[s.pc.next]);
    if k < |s.queue| {
      FirstPending(s.queue, Targets(cfg)[s.pc.next], k);
    }
    forall i | 0 <= i < |r.lines| && Carried(r, i).Some?
      ensures Front(r.queue, Targets(cfg)[i], Carried(r, i).value)
    {
      if i != s.pc.next || r.lines[i] == s.lines[i] {
        assert Carried(r, i) == Carried(s, i);
      }
    }
  }

  lemma ScanCounted(cfg: Config, s: State)
    requires Shape(cfg, s) && Counted(s) && LoopEnabled(cfg, s, ScanTarget)
    ensures Counted(ScanOne(cfg, s)) && Shape(cfg, ScanOne(cfg, s)) && SameBut(s, ScanOne(cfg, s))
  {
    hide Targets, FirstFor, Earlier;
  }

  lemma ScanKept(cfg: Config, s: State)
    requires Inv(cfg, s) && LoopEnabled(cfg, s, ScanTarget)
    ensures Inv(cfg, NextLoop(cfg, s, ScanTarget))
  {
    hide Ordered, Tracked, Conserved, DoneOnce, DumpedStays, Targets, FirstFor, Counted, FrontInFlight, Earlier;
    ScanFront(cfg, s);
    ScanCounted(cfg, s);
    LoopKept(cfg, s, ScanOne(cfg, s));
  }

  lemma ReceiveKept(cfg: Config, s: State, i: nat)
    requires Inv(cfg, s) && LoopEnabled(cfg, s, Receive(i))
    ensures Inv(cfg, NextLoop(cfg, s, Receive(i)))
  {
    hide Ordered, Tracked, Conserved, DoneOnce, DumpedStays, Targets;
    var r := NextLoop(cfg, s, Receive(i));
    assert forall j :: 0 <= j < |s.lines| ==> Carried(r, j) == Carried(s, j);
    LoopKept(cfg, s, r);
  }

  lemma AttemptedKept(cfg: Config, s: State, i: nat, ok: bool)
    requires Inv(cfg, s) && ServerEnabled(s, Attempted(i, ok))
    ensures Inv(cfg, NextServer(s, Attempted(i, ok)))
  {
    hide Ordered, Tracked, Conserved, DoneOnce, DumpedStays, Targets;
    var r := NextServer(s, Attempted(i, ok));
    assert forall j :: 0 <= j < |s.lines| ==> Carried(r, j) == Carried(s, j);
    LoopKept(cfg, s, r);
  }

  lemma FailedKept(cfg: Config, s: State)
    requires Inv(cfg, s) && s.pc.Handle?
    ensures Inv(cfg, Failed(cfg, s))
  {
    hide Ordered, Tracked, Conserved, DoneOnce, DumpedStays, Targets;
    var r := Failed(cfg, s);
    assert forall j :: 0 <= j < |s.lines| && Carried(r, j).Some? ==> Carried(r, j) == Carried(s, j);
    LoopKept(cfg, s, r);
  }

  // ---- steps that change the contents ----

  lemma CompactKept(cfg: Config, s: State)
    requires Inv(cfg, s) && s.pc.Compact?
    ensures Inv(cfg, NextLoop(cfg, s, CompactQueue))
  {
    hide Compacted, Delivered, Targets, Pending, Needing;
    var r := NextLoop(cfg, s, CompactQueue);
    CompactedAscending(s.queue, |s.past.log|);
    forall t
      ensures Pending(r.queue, t) == Pending(s.queue, t)
    {
      CompactedPending(s.queue, t);
    }
    assert forall t :: ConfirmedBy(r, t) == ConfirmedBy(s, t);
    assert Ordered(r);
    assert forall i :: 0 <= i < |s.lines| ==> Carried(r, i) == Carried(s, i);
    assert FrontInFlight(cfg, r);
    assert forall t :: ConservedFor(s, t) == ConservedFor(r, t);
    CompactTracked(s, r);
    CompactDone(s, r);
    CompactSafe(s, r);
  }

  lemma CompactTracked(s: State, r: State)
    requires Tracked(s) && r.past.log == s.past.log && r.past.confirmed == s.past.confirmed && r.stored == s.stored
    requires r.queue == Compacted(s.queue) && !r.pc.Write?
    ensures Tracked(r)
  {
    hide Compacted;
    assert forall x :: TrackedItem(r, x) == TrackedItem(s, x);
    forall k | 0 <= k < |r.queue|
      ensures TrackedItem(r, r.queue[k])
    {
      CompactedMembers(s.queue, r.queue[k]);
      var j :| 0 <= j < |s.queue| && s.queue[j] == r.queue[k];
    }
  }

  lemma CompactDone(s: State, r: State)
    requires DoneOnce(s) && Tracked(s) && Ordered(s)
    requires r.past == s.past.(done := s.past.done + Delivered(s.queue)) && r.queue == Compacted(s.queue)
    ensures DoneOnce(r)
  {
    hide Compacted, Delivered;
    var d := Delivered(s.queue);
    DeliveredAscending(s.queue, |s.past.log|);
    forall i | 0 <= i < |d|
      ensures exists k :: 0 <= k < |s.queue| && s.queue[k].id == d[i] && s.queue[k].pending == {}
      ensures Everywhere(r, d[i])
    {
      DeliveredMembers(s.queue, d[i]);
      var y :| y in s.queue && y.pending == {} && y.id == d[i];
      var k :| 0 <= k < |s.queue| && s.queue[k] == y;
      assert TrackedItem(s, s.queue[k]);
    }
    forall k | 0 <= k < |r.queue|
      ensures exists j :: 0 <= j < |s.queue| && s.queue[j] == r.queue[k] && s.queue[j].pending != {}
    {
      CompactedMembers(s.queue, r.queue[k]);
      var j :| 0 <= j < |s.queue| && s.queue[j] == r.queue[k];
    }
    forall i | 0 <= i < |s.past.done|
      ensures Everywhere(r, s.past.done[i])
    {
      assert Everywhere(s, s.past.done[i]);
    }
  }

  lemma CompactSafe(s: State, r: State)
    requires DumpedStays(s) && !r.pc.Write? && r.queue == Compacted(s.queue) && r.stored == s.stored
    requires r.past.log == s.past.log && r.past.confirmed == s.past.confirmed && r.past.dumped == s.past.dumped
    ensures DumpedStays(r)
  {
    hide Compacted;
    forall id | id in s.past.dumped
      ensures Safe(r, r.queue, id) && Safe(r, StoredItems(r), id)
    {
      assert Safe(s, s.queue, id) && Safe(s, StoredItems(s), id);
      forall t | t in s.past.log[id].needs && Holds(s.queue, id, t)
        ensures Holds(r.queue, id, t)
      {
        CompactedHolds(s.queue, id, t);
      }
    }
  }

  lemma CompactedHolds(q: Queue, id: nat, t: Target)
    requires Holds(q, id, t)
    ensures Holds(Compacted(q), id, t)
  {
    hide Compacted;
    PendingHolds(q, t, id);
    CompactedPending(q, t);
    PendingHolds(Compacted(q), t, id);
  }

  // ---- a packet comes in ----

  /** How the history and the queue grow together. */
  predicate Grown(s: State, r: State, x: Item, needs: set<Target>) {
    && r.queue == s.queue + [x] && x.id == |s.past.log| && x.pending == needs
    && r.past == s.past.(log := r.past.log) && |r.past.log| == |s.past.log| + 1 && r.past.log[..|s.past.log|] == s.past.log
    && r.past.log[|s.past.log|] == Entry(x.record, needs, x.relay)
    && r.stored == s.stored && r.hasDump == s.hasDump && r.pc == s.pc && r.lines == s.lines && r.phase == s.phase
  }

  lemma NeedingGrows(s: State, r: State, x: Item, needs: set<Target>, t: Target)
    requires Grown(s, r, x, needs) && ConservedFor(s, t)
    ensures ConservedFor(r, t)
  {
    Push(s.queue, x, t, "");
    assert Needing(r.past.log, t) == Needing(s.past.log, t) + (if t in needs then [x.id] else []);
    assert ConfirmedBy(r, t) == ConfirmedBy(s, t);
  }

  lemma GrownTracked(s: State, r: State, x: Item, needs: set<Target>, q: Queue)
    requires Grown(s, r, x, needs) && TrackedQueue(s, q) && InOrder(s, q)
    ensures TrackedQueue(r, q) && InOrder(r, q)
  {
    forall k | 0 <= k < |q|
      ensures TrackedItem(r, q[k])
    {
      assert TrackedItem(s, q[k]);
      assert r.past.log[q[k].id] == s.past.log[q[k].id];
    }
  }

  lemma GrownSafe(s: State, r: State, x: Item, needs: set<Target>, q: Queue)
    requires Grown(s, r, x, needs) && SafeIn(s, q)
    ensures SafeIn(r, q)
  {
    forall id | id in s.past.dumped
      ensures Safe(r, q, id)
    {
      assert Safe(s, q, id);
      assert r.past.log[id] == s.past.log[id];
    }
  }

  lemma HoldsMore(q: Queue, x: Item, id: nat, t: Target)
    requires Holds(q, id, t)
    ensures Holds(q + [x], id, t)
  {
    var k :| 0 <= k < |q| && q[k].id == id && t in q[k].pending;
    assert (q + [x])[k] == q[k];
  }

  lemma SafeMore(s: State, q: Queue, x: Item)
    requires SafeIn(s, q)
    ensures SafeIn(s, q + [x])
  {
    forall id | id in s.past.dumped
      ensures Safe(s, q + [x], id)
    {
      assert Safe(s, q, id);
      forall t | t in s.past.log[id].needs && Holds(q, id, t)
        ensures Holds(q + [x], id, t)
      {
        HoldsMore(q, x, id, t);
      }
    }
  }

  lemma GrownItems(s: State, r: State, x: Item, needs: set<Target>, q: Queue)
    requires Grown(s, r, x, needs) && SafeItems(s, q, s.queue)
    ensures SafeItems(r, q, r.queue)
  {
    forall k | 0 <= k < |q|
      ensures Safe(r, r.queue, q[k].id)
    {
      assert Safe(s, s.queue, q[k].id);
      assert r.past.log[q[k].id] == s.past.log[q[k].id];
      forall t | t in s.past.log[q[k].id].needs && Holds(s.queue, q[k].id, t)
        ensures Holds(r.queue, q[k].id, t)
      {
        HoldsMore(s.queue, x, q[k].id, t);
      }
    }
  }

  lemma GrownKept(s: State, r: State, x: Item, needs: set<Target>)
    requires Grown(s, r, x, needs)
    requires Ordered(s) && Tracked(s) && Conserved(s) && DoneOnce(s) && DumpedStays(s)
    ensures Ordered(r) && Tracked(r) && Conserved(r) && DoneOnce(r) && DumpedStays(r)
  {
    hide Pending, Needing, Holds;
    GrownTracked(s, r, x, needs, s.queue);
    GrownTracked(s, r, x, needs, StoredItems(s));
    GrownSafe(s, r, x, needs, s.queue);
    GrownSafe(s, r, x, needs, StoredItems(s));
    SafeMore(r, s.queue, x);
    if s.pc.Write? {
      GrownTracked(s, r, x, needs, s.pc.snapshot);
      GrownSafe(s, r, x, needs, s.pc.snapshot);
      GrownItems(s, r, x, needs, s.pc.snapshot);
    }
    assert TrackedItem(r, x);
    if s.past.clean {
      forall t
        ensures ConservedFor(r, t)
      {
        NeedingGrows(s, r, x, needs, t);
      }
    }
    GrownDone(s, r, x, needs);
  }

  lemma GrownDone(s: State, r: State, x: Item, needs: set<Target>)
    requires Grown(s, r, x, needs) && DoneOnce(s)
    ensures DoneOnce(r)
  {
    forall i | 0 <= i < |s.past.done|
      ensures Everywhere(r, s.past.done[i]) && s.past.done[i] < x.id
    {
      assert Everywhere(s, s.past.done[i]);
      assert r.past.log[s.past.done[i]] == s.past.log[s.past.done[i]];
    }
  }

  lemma GrownFront(cfg: Config, s: State, r: State, x: Item, needs: set<Target>)
    requires Grown(s, r, x, needs) && FrontInFlight(cfg, s)
    ensures FrontInFlight(cfg, r)
  {
    hide Targets, Pending;
    forall i | 0 <= i < |r.lines| && Carried(r, i).Some?
      ensures Front(r.queue, Targets(cfg)[i], Carried(r, i).value)
    {
      assert Carried(r, i) == Carried(s, i);
      Push(s.queue, x, Targets(cfg)[i], "");
    }
  }

  lemma EnqueueKept(cfg: Config, s: State, record: Record, from: Option<Relay>)
    requires Inv(cfg, s) && ClientEnabled(cfg, s, Enqueue(record, from))
    ensures Inv(cfg, NextClient(cfg, s, Enqueue(record, from)))
  {
    hide Packets.ReadPacket, IdentityKnown, Relaying.ShouldRelay;
    hide Targets, Needs, EgtsOf, Ordered, Tracked, Conserved, DoneOnce, DumpedStays, FrontInFlight, Counted;
    var answer := Admission(cfg, s.accepting, |s.queue|, record, from.Some?);
    if answer.Accepts? {
      var r := NextClient(cfg, s, Enqueue(record, from));
      var x := r.queue[|s.queue|];
      assert Grown(s, r, x, answer.needs);
      GrownKept(s, r, x, answer.needs);
      GrownFront(cfg, s, r, x, answer.needs);
      CountedSame(s, r);
    }
  }

  // ---- a delivery is confirmed ----

  predicate Confirms(s: State, r: State, id: nat, t: Target) {
    && r.queue == Cleared(s.queue, id, t)
    && r.past == s.past.(confirmed := s.past.confirmed[t := ConfirmedBy(s, t) + [id]])
    && r.stored == s.stored && r.hasDump == s.hasDump && r.phase == s.phase
  }

  lemma ConfirmedGrows(s: State, r: State, id: nat, t: Target, u: Target)
    requires Confirms(s, r, id, t)
    ensures ConfirmedBy(r, u) == if u == t then ConfirmedBy(s, u) + [id] else ConfirmedBy(s, u)
  {
  }

  lemma ConfirmConserves(s: State, r: State, id: nat, t: Target, u: Target)
    requires Confirms(s, r, id, t) && Front(s.queue, t, id) && Ascending(s.queue) && ConservedFor(s, u)
    ensures ConservedFor(r, u)
  {
    hide Cleared;
    ConfirmedGrows(s, r, id, t, u);
    if u == t {
      ClearedFirst(s.queue, id, t);
      assert Pending(s.queue, t) == [id] + Pending(r.queue, t);
      assert ConfirmedBy(s, t) + ([id] + Pending(r.queue, t)) == ConfirmedBy(s, t) + [id] + Pending(r.queue, t);
    } else {
      NothingCleared(s.queue, id, t, u);
    }
  }

  lemma ConfirmTracks(s: State, r: State, id: nat, t: Target, x: Item)
    requires Confirms(s, r, id, t) && TrackedItem(s, x)
    ensures TrackedItem(r, x) && TrackedItem(r, WithoutTarget(x, id, t))
  {
    forall u
      ensures forall i :: i in ConfirmedBy(s, u) ==> i in ConfirmedBy(r, u)
      ensures u == t ==> id in ConfirmedBy(r, u)
    {
      ConfirmedGrows(s, r, id, t, u);
    }
  }

  lemma ConfirmSafe(s: State, r: State, id: nat, t: Target, q: Queue)
    requires Confirms(s, r, id, t) && SafeIn(s, q)
    ensures SafeIn(r, q) && SafeIn(r, Cleared(q, id, t))
  {
    forall u
      ensures forall i :: i in ConfirmedBy(s, u) ==> i in ConfirmedBy(r, u)
      ensures u == t ==> id in ConfirmedBy(r, u)
    {
      ConfirmedGrows(s, r, id, t, u);
    }
    forall i | i in s.past.dumped
      ensures Safe(r, q, i) && Safe(r, Cleared(q, id, t), i)
    {
      assert Safe(s, q, i);
      forall u | u in s.past.log[i].needs && Holds(q, i, u) && (i != id || u != t)
        ensures Holds(Cleared(q, id, t), i, u)
      {
        var k :| 0 <= k < |q| && q[k].id == i && u in q[k].pending;
        assert Cleared(q, id, t)[k].id == i && u in Cleared(q, id, t)[k].pending;
      }
    }
  }

  lemma ConfirmDone(s: State, r: State, id: nat, t: Target)
    requires Confirms(s, r, id, t) && DoneOnce(s)
    ensures DoneOnce(r)
  {
    forall u
      ensures forall i :: i in ConfirmedBy(s, u) ==> i in ConfirmedBy(r, u)
    {
      ConfirmedGrows(s, r, id, t, u);
    }
    forall i | 0 <= i < |s.past.done|
      ensures Everywhere(r, s.past.done[i])
    {
      assert Everywhere(s, s.past.done[i]);
    }
  }

  lemma ConfirmOrdered(s: State, r: State, id: nat, t: Target)
    requires Confirms(s, r, id, t) && Ordered(s) && !r.pc.Write?
    ensures Ordered(r)
  {
  }

  lemma ContentsConfirmed(s: State, r: State, id: nat, t: Target)
    requires Confirms(s, r, id, t) && Front(s.queue, t, id) && !r.pc.Write?
    requires Ordered(s) && Tracked(s) && Conserved(s) && DoneOnce(s) && DumpedStays(s)
    ensures Ordered(r) && Tracked(r) && Conserved(r) && DoneOnce(r) && DumpedStays(r)
  {
    hide Pending, ConservedFor, SafeIn, TrackedItem;
    ConfirmOrdered(s, r, id, t);
    ConfirmDone(s, r, id, t);
    ConfirmSafe(s, r, id, t, s.queue);
    ConfirmSafe(s, r, id, t, StoredItems(s));
    forall x | TrackedItem(s, x)
      ensures TrackedItem(r, x) && TrackedItem(r, WithoutTarget(x, id, t))
    {
      ConfirmTracks(s, r, id, t, x);
    }
    if s.past.clean {
      forall u
        ensures ConservedFor(r, u)
      {
        ConfirmConserves(s, r, id, t, u);
      }
    }
  }

  lemma ConfirmFront(cfg: Config, s: State, r: State)
    requires ValidConfig(cfg) && Shape(cfg, s) && FrontInFlight(cfg, s) && s.pc.Handle? && r.pc.Save?
    requires Confirms(s, r, s.pc.id, Targets(cfg)[s.pc.index])
    requires |r.lines| == |s.lines| && forall j :: 0 <= j < |s.lines| ==> r.lines[j].worker == s.lines[j].worker
    ensures FrontInFlight(cfg, r)
  {
    hide Targets, Cleared, Pending, ConfirmedBy;
    TargetsDistinct(cfg);
    var i := s.pc.index;
    forall j | 0 <= j < |r.lines| && Carried(r, j).Some?
      ensures Front(r.queue, Targets(cfg)[j], Carried(r, j).value)
    {
      assert j != i && Carried(r, j) == Carried(s, j);
      assert Targets(cfg)[i] != Targets(cfg)[j];
      NothingCleared(s.queue, s.pc.id, Targets(cfg)[i], Targets(cfg)[j]);
    }
  }

  lemma ConfirmKept(cfg: Config, s: State)
    requires ValidConfig(cfg) && Inv(cfg, s) && ResultEnabled(cfg, s, Settle) && s.pc.ok
    ensures Inv(cfg, Confirm(cfg, s))
  {
    hide Targets, Ordered, Tracked, Conserved, DoneOnce, DumpedStays, ConfirmedBy;
    var r := Confirm(cfg, s);
    var t := Targets(cfg)[s.pc.index];
    assert Carried(s, s.pc.index) == Some(s.pc.id);
    ContentsConfirmed(s, r, s.pc.id, t);
    ConfirmFront(cfg, s, r);
  }

  // ---- the dump ----

  lemma SnapshotTracked(s: State)
    requires TrackedQueue(s, s.queue)
    ensures TrackedQueue(s, Snapshot(s.queue))
  {
    hide Snapshot;
    forall k | 0 <= k < |Snapshot(s.queue)|
      ensures TrackedItem(s, Snapshot(s.queue)[k])
    {
      SnapshotMembers(s.queue, Snapshot(s.queue)[k]);
      var y :| y in s.queue && y.pending != {} && Snapshot(s.queue)[k] == Kept(y);
      var j :| 0 <= j < |s.queue| && s.queue[j] == y;
      assert TrackedItem(s, s.queue[j]);
    }
  }

  lemma SnapshotSafe(s: State)
    requires SafeIn(s, s.queue)
    ensures SafeIn(s, Snapshot(s.queue))
  {
    hide Snapshot;
    forall id | id in s.past.dumped
      ensures Safe(s, Snapshot(s.queue), id)
    {
      assert Safe(s, s.queue, id);
      forall t | t in s.past.log[id].needs && Holds(s.queue, id, t)
        ensures Holds(Snapshot(s.queue), id, t)
      {
        PendingHolds(s.queue, t, id);
        SnapshotPending(s.queue, t);
        PendingHolds(Snapshot(s.queue), t, id);
      }
    }
  }

  lemma SnapshotItems(s: State)
    requires TrackedQueue(s, s.queue)
    ensures SafeItems(s, Snapshot(s.queue), s.queue)
  {
    hide Snapshot;
    forall k | 0 <= k < |Snapshot(s.queue)|
      ensures Safe(s, s.queue, Snapshot(s.queue)[k].id)
    {
      SnapshotMembers(s.queue, Snapshot(s.queue)[k]);
      var y :| y in s.queue && y.pending != {} && Snapshot(s.queue)[k] == Kept(y);
      var j :| 0 <= j < |s.queue| && s.queue[j] == y;
      TrackedIsSafe(s, s.queue, j);
    }
  }

  lemma SnapshotKept(cfg: Config, s: State)
    requires Inv(cfg, s) && s.pc.Save?
    ensures Inv(cfg, NextResult(cfg, s, TakeSnapshot))
  {
    hide Targets, Snapshot, Conserved, TrackedQueue, SafeIn, FrontInFlight;
    var r := NextResult(cfg, s, TakeSnapshot);
    SameLines(cfg, s, r);
    SnapshotTracked(s);
    SnapshotSafe(s);
    SnapshotAscending(s.queue, |s.past.log|);
    TrackedSame(s, r, s.queue);
    TrackedSame(s, r, StoredItems(s));
    TrackedSame(s, r, Snapshot(s.queue));
    SafeSame(s, r, s.queue);
    SafeSame(s, r, StoredItems(s));
    SafeSame(s, r, Snapshot(s.queue));
    SnapshotItems(s);
    SafeItemsSame(s, r, Snapshot(s.queue), s.queue);
    ConservedSame(s, r);
    DoneSame(s, r);
  }

  lemma ConservedSame(s: State, r: State)
    requires Conserved(s) && r.queue == s.queue && r.past.log == s.past.log && r.past.confirmed == s.past.confirmed && r.past.clean == s.past.clean
    ensures Conserved(r)
  {
    assert forall t :: ConfirmedBy(r, t) == ConfirmedBy(s, t);
    assert forall t :: ConservedFor(s, t) == ConservedFor(r, t);
  }

  lemma DoneSame(s: State, r: State)
    requires DoneOnce(s) && r.queue == s.queue
    requires r.past.log == s.past.log && r.past.confirmed == s.past.confirmed && r.past.done == s.past.done
    ensures DoneOnce(r)
  {
    assert forall id :: Everywhere(s, id) == Everywhere(r, id);
  }

  /** A dump that holds every packet dumped before and tracks its own replaces the stored one. */
  lemma DumpReplaced(s: State, r: State, q: Queue)
    requires Tracked(s) && DumpedStays(s) && Ordered(s)
    requires TrackedQueue(s, q) && SafeIn(s, q) && InOrder(s, q)
    requires SafeItems(s, q, s.queue)
    requires r.stored == Some(q) && r.queue == s.queue && r.past == s.past.(dumped := s.past.dumped + Ids(q)) && !r.pc.Write?
    ensures Tracked(r) && DumpedStays(r) && Ordered(r)
  {
    hide Holds;
    assert forall x :: TrackedItem(s, x) == TrackedItem(r, x);
    assert forall p, id :: Safe(s, p, id) == Safe(r, p, id);
    forall id | id in Ids(q)
      ensures Safe(r, q, id)
    {
      var k :| 0 <= k < |q| && q[k].id == id;
      TrackedIsSafe(s, q, k);
    }
  }

  lemma TrackedIsSafe(s: State, q: Queue, k: nat)
    requires k < |q| && TrackedItem(s, q[k])
    ensures Safe(s, q, q[k].id)
  {
    forall t | t in s.past.log[q[k].id].needs && t in q[k].pending
      ensures Holds(q, q[k].id, t)
    {
    }
  }

  lemma StoreKept(cfg: Config, s: State, result: SaveResult)
    requires Inv(cfg, s) && s.pc.Write?
    ensures Inv(cfg, NextResult(cfg, s, StoreDump(result)))
  {
    hide Targets, Conserved, Tracked, DumpedStays, Ordered, FrontInFlight, DoneOnce, Ids;
    var r := NextResult(cfg, s, StoreDump(result));
    SameLines(cfg, s, r);
    if result.FailedBefore? {
      LoopKept(cfg, s, r);
    } else {
      WriteParts(cfg, s);
      DumpReplaced(s, r, s.pc.snapshot);
      ConservedSame(s, r);
      DoneSame(s, r);
    }
  }

  lemma WriteParts(cfg: Config, s: State)
    requires Inv(cfg, s) && s.pc.Write?
    ensures TrackedQueue(s, s.pc.snapshot) && SafeIn(s, s.pc.snapshot) && InOrder(s, s.pc.snapshot)
    ensures SafeItems(s, s.pc.snapshot, s.queue)
  {
  }

  lemma FinalDumpKept(cfg: Config, s: State, result: SaveResult)
    requires Inv(cfg, s) && ServerEnabled(s, FinalDump(result))
    ensures Inv(cfg, NextServer(s, FinalDump(result)))
  {
    hide Targets, Conserved, Tracked, DumpedStays, Ordered, FrontInFlight, DoneOnce, Ids, Snapshot;
    var r := NextServer(s, FinalDump(result));
    SameLines(cfg, s, r);
    if (s.queue != [] || s.hasDump) && !result.FailedBefore? {
      SnapshotParts(cfg, s);
      DumpReplaced(s, r, Snapshot(s.queue));
      ConservedSame(s, r);
      DoneSame(s, r);
      forall t
        ensures Pending(StoredItems(r), t) == Pending(r.queue, t)
      {
        SnapshotPending(s.queue, t);
      }
    } else {
      LoopKept(cfg, s, r);
    }
  }

  lemma SnapshotParts(cfg: Config, s: State)
    requires Inv(cfg, s)
    ensures var q := Snapshot(s.queue);
            TrackedQueue(s, q) && SafeIn(s, q) && InOrder(s, q) && SafeItems(s, q, s.queue)
  {
    hide Snapshot;
    SnapshotTracked(s);
    SnapshotSafe(s);
    SnapshotItems(s);
    SnapshotAscending(s.queue, |s.past.log|);
  }

  lemma StartKept(cfg: Config, s: State, e: StartEvent)
    requires Inv(cfg, s) && StartEnabled(s, e)
    ensures Inv(cfg, NextStart(cfg, s, e))
  {
    hide Targets, FrontInFlight, SessionsOf, Load, Pending, Needing;
    var r := NextStart(cfg, s, e);
    assert forall t :: ConfirmedBy(r, t) == ConfirmedBy(s, t);
    StartTracked(s, r);
    StartFront(cfg, r);
    if r.past.clean {
      forall t
        ensures ConservedFor(r, t)
      {
        assert ConservedFor(s, t);
      }
    }
  }

  lemma StartTracked(s: State, r: State)
    requires Tracked(s) && DumpedStays(s)
    requires r.queue == StoredItems(s) && r.stored == s.stored && !r.pc.Write?
    requires r.past.log == s.past.log && r.past.confirmed == s.past.confirmed && r.past.dumped == s.past.dumped
    ensures Tracked(r) && DumpedStays(r)
  {
    assert forall x :: TrackedItem(s, x) == TrackedItem(r, x);
    assert forall p, id :: Safe(s, p, id) == Safe(r, p, id);
  }

  lemma StartFront(cfg: Config, r: State)
    requires r.lines == FreshLines(cfg) && r.pc == Top
    ensures FrontInFlight(cfg, r)
  {
    hide Targets;
  }

  // ---- every step, every run ----

  lemma StepKept(cfg: Config, s: State, e: Event)
    requires ValidConfig(cfg) && Inv(cfg, s) && Enabled(cfg, s, e)
    ensures Inv(cfg, Next(cfg, s, e))
  {
    hide Inv, NextClient, NextLoop, NextResult, NextServer, NextStart;
    match e
    case Client(c) =>
      if c.Enqueue? {
        EnqueueKept(cfg, s, c.record, c.from);
      } else {
        SessionStepKept(cfg, s, c);
      }
    case Loop(l) =>
      if l.CompactQueue? {
        CompactKept(cfg, s);
      } else if l.ScanTarget? {
        ScanKept(cfg, s);
      } else if l.Receive? {
        ReceiveKept(cfg, s, l.line);
      } else {
        TurnKept(cfg, s, l);
      }
    case Result(r) => ResultKept(cfg, s, r);
    case Server(v) =>
      if v.FinalDump? {
        FinalDumpKept(cfg, s, v.result);
      } else if v.Attempted? {
        AttemptedKept(cfg, s, v.line, v.ok);
      } else {
        OutsideKept(cfg, s, v);
      }
    case Start(v) => StartKept(cfg, s, v);
  }

  lemma ResultKept(cfg: Config, s: State, e: ResultEvent)
    requires ValidConfig(cfg) && Inv(cfg, s) && ResultEnabled(cfg, s, e)
    ensures Inv(cfg, NextResult(cfg, s, e))
  {
    hide Inv, Confirm, Failed;
    match e
    case Settle =>
      if s.pc.ok {
        ConfirmKept(cfg, s);
      } else {
        FailedKept(cfg, s);
      }
    case TakeSnapshot => SnapshotKept(cfg, s);
    case StoreDump(result) => StoreKept(cfg, s, result);
    case CloseFinished(ok) => CloseKept(cfg, s, ok);
  }

  lemma CloseKept(cfg: Config, s: State, ok: bool)
    requires Inv(cfg, s) && s.pc.Close?
    ensures Inv(cfg, NextResult(cfg, s, CloseFinished(ok)))
  {
    hide Ordered, Tracked, Conserved, DoneOnce, DumpedStays, FrontInFlight, Targets;
    var r := NextResult(cfg, s, CloseFinished(ok));
    SameLines(cfg, s, r);
    LoopKept(cfg, s, r);
  }

  lemma StartsWell(cfg: Config, now: nat)
    ensures Inv(cfg, Init(cfg, now))
  {
    hide Targets;
    var s := Init(cfg, now);
    StartFront(cfg, s);
    assert forall t :: ConservedFor(s, t);
  }

  lemma {:induction false} RunKept(cfg: Config, trace: seq<State>, n: nat)
    requires ValidConfig(cfg) && Run(cfg, trace) && n < |trace|
    ensures Inv(cfg, trace[n])
  {
    hide Inv, Next, Enabled;
    if n == 0 {
      var now: nat :| trace[0] == Init(cfg, now);
      StartsWell(cfg, now);
    } else {
      RunKept(cfg, trace, n - 1);
      assert StepAt(cfg, trace, n - 1);
      var e :| Enabled(cfg, trace[n - 1], e) && trace[n] == Next(cfg, trace[n - 1], e);
      StepKept(cfg, trace[n - 1], e);
    }
  }
}
