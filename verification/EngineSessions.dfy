/** Reference counting of relay sessions: what every step of the engine keeps. */
module EngineSessions {
  import opened Bytes
  import opened Queues
  import opened Engine
  import opened EngineDelivery
  import Packets
  import Relaying

  /** The session the delivery loop is about to close. */
  function Finishing(pc: Pc): Option<string> {
    match pc
    case Save(f) => f
    case Write(_, f) => f
    case Close(x) => Some(x)
    case _ => None
  }

  predicate ItemRelay(x: Item, used: set<string>) {
    && (EgtsOf(x.pending) != {} ==> x.relay.Some?)
    && (x.relay.Some? ==> x.relay.value.session in used)
  }

  predicate Relayed(q: Queue, used: set<string>) {
    forall k :: 0 <= k < |q| ==> ItemRelay(q[k], used)
  }

  /** In a dump only packets with pending EGTS destinations name a session. */
  predicate KeptRelays(q: Queue) {
    forall k :: 0 <= k < |q| ==> (q[k].relay.Some? <==> EgtsOf(q[k].pending) != {})
  }

  /** A registered session counts its queued deliveries; an ended one stays only for those. */
  predicate Counts(q: Queue, ss: Sessions, x: string) {
    x in ss.relays ==>
      && ss.relays[x].pending == Load(q, x)
      && (ss.relays[x].closed <==> x in ss.ended)
      && (x in ss.ended ==> Load(q, x) > 0)
      && x in ss.own
  }

  predicate Registered(q: Queue, ss: Sessions, x: string) {
    (x in ss.used && x !in ss.ended) || Load(q, x) > 0 ==> x in ss.relays
  }

  /** A session of this process is registered, or being closed by one party, or closed once. */
  predicate ClosedOnce(ss: Sessions, finishing: Option<string>, x: string) {
    && (x in ss.relays || x in ss.closing || finishing == Some(x) || x in ss.writersClosed ==> x in ss.own)
    && (x in ss.relays ==> x !in ss.closing && finishing != Some(x) && x !in ss.writersClosed)
    && (x in ss.closing ==> finishing != Some(x) && x !in ss.writersClosed)
    && (finishing == Some(x) ==> x !in ss.writersClosed)
    && ss.writersClosed[x] <= 1
    && (x in ss.own ==> x in ss.relays || x in ss.closing || finishing == Some(x) || x in ss.writersClosed)
  }

  predicate Accounted(s: State, x: string) {
    Counts(s.queue, s.sessions, x) && Registered(s.queue, s.sessions, x) && ClosedOnce(s.sessions, Finishing(s.pc), x)
  }

  ghost predicate Counting(s: State) {
    && s.sessions.ended <= s.sessions.used && s.sessions.own <= s.sessions.used
    && s.sessions.closing <= s.sessions.ended
    && (Finishing(s.pc).Some? ==> Finishing(s.pc).value in s.sessions.ended)
    && forall x :: Accounted(s, x)
  }

  predicate RelaysTracked(s: State) {
    && Relayed(s.queue, s.sessions.used) && Relayed(StoredItems(s), s.sessions.used) && KeptRelays(StoredItems(s))
    && (s.pc.Write? ==> Relayed(s.pc.snapshot, s.sessions.used) && KeptRelays(s.pc.snapshot))
  }

  /** Once all is closed: every session this process had was closed just once. */
  predicate AllClosed(s: State) {
    forall x :: x in s.sessions.own ==> s.sessions.writersClosed[x] == 1
  }

  ghost predicate SessionInv(s: State) {
    && RelaysTracked(s)
    && (s.phase.Drained? || s.phase.Dumped? ==> s.sessions.closing == {} && s.sessions.used == s.sessions.ended)
    && (if s.phase.Down? then AllClosed(s) && s.sessions.ended == s.sessions.used else Counting(s))
  }

  // ---- frames ----

  lemma SessionsSame(s: State, r: State)
    requires SessionInv(s) && r.queue == s.queue && r.sessions == s.sessions && r.stored == s.stored && r.phase == s.phase
    requires Finishing(r.pc) == Finishing(s.pc)
    requires r.pc.Write? ==> s.pc.Write? && r.pc.snapshot == s.pc.snapshot
    ensures SessionInv(r)
  {
    if !s.phase.Down? {
      forall x
        ensures Accounted(r, x)
      {
        assert Accounted(s, x);
      }
    }
  }

  // ---- the delivery loop ----

  lemma LoopSessions(cfg: Config, s: State, e: LoopEvent)
    requires SessionInv(s) && LoopEnabled(cfg, s, e)
    ensures SessionInv(NextLoop(cfg, s, e))
  {
    hide Compacted, Targets, FirstFor, Earlier, SessionInv, Delivered;
    if e.CompactQueue? {
      CompactSessions(cfg, s);
    } else {
      SessionsSame(s, NextLoop(cfg, s, e));
    }
  }

  lemma CompactSessions(cfg: Config, s: State)
    requires SessionInv(s) && s.pc.Compact?
    ensures SessionInv(NextLoop(cfg, s, CompactQueue))
  {
    hide Compacted, Load, Delivered;
    var r := NextLoop(cfg, s, CompactQueue);
    forall x
      ensures Accounted(s, x) ==> Accounted(r, x)
    {
      CompactedLoad(s.queue, x);
    }
    forall k | 0 <= k < |r.queue|
      ensures ItemRelay(r.queue[k], s.sessions.used)
    {
      CompactedMembers(s.queue, r.queue[k]);
      var j :| 0 <= j < |s.queue| && s.queue[j] == r.queue[k];
    }
  }

  // ---- connections ----

  lemma OpenSessions(cfg: Config, s: State, x: string)
    requires SessionInv(s) && ClientEnabled(cfg, s, OpenSession(x))
    ensures SessionInv(NextClient(cfg, s, OpenSession(x)))
  {
    hide Load;
    var r := NextClient(cfg, s, OpenSession(x));
    forall y
      ensures Accounted(r, y)
    {
      assert Accounted(s, y);
    }
    assert x !in s.sessions.relays by {
      assert Accounted(s, x);
    }
    NoLoad(s, x);
  }

  /** A session not used so far has nothing queued. */
  lemma NoLoad(s: State, x: string)
    requires Relayed(s.queue, s.sessions.used) && x !in s.sessions.used
    ensures Load(s.queue, x) == 0
  {
    hide Load;
    forall k | 0 <= k < |s.queue|
      ensures ItemLoad(s.queue[k], x) == 0
    {
      assert ItemRelay(s.queue[k], s.sessions.used);
    }
    LoadNeedsItem(s.queue, x);
  }

  lemma EndSessions(cfg: Config, s: State, x: string)
    requires SessionInv(s) && ClientEnabled(cfg, s, EndSession(x))
    ensures SessionInv(NextClient(cfg, s, EndSession(x)))
  {
    hide Load;
    var r := NextClient(cfg, s, EndSession(x));
    forall y
      ensures Accounted(r, y)
    {
      EndOne(cfg, s, x, y);
    }
    RelaysAfter(s, r);
  }

  lemma EndOne(cfg: Config, s: State, x: string, y: string)
    requires ClientEnabled(cfg, s, EndSession(x)) && s.sessions.closing <= s.sessions.ended
    requires Finishing(s.pc).Some? ==> Finishing(s.pc).value in s.sessions.ended
    requires Accounted(s, y) && Accounted(s, x)
    ensures Accounted(NextClient(cfg, s, EndSession(x)), y)
  {
    hide Load;
  }

  lemma RelaysAfter(s: State, r: State)
    requires RelaysTracked(s) && r.queue == s.queue && r.stored == s.stored && r.pc == s.pc && r.sessions.used == s.sessions.used
    ensures RelaysTracked(r)
  {
  }

  lemma CloseSessions(cfg: Config, s: State, x: string)
    requires SessionInv(s) && ClientEnabled(cfg, s, CloseEnded(x))
    ensures SessionInv(NextClient(cfg, s, CloseEnded(x)))
  {
    hide Load;
    var r := NextClient(cfg, s, CloseEnded(x));
    assert Accounted(s, x);
    forall y
      ensures Accounted(r, y)
    {
      assert Accounted(s, y);
    }
  }

  lemma EnqueueSessions(cfg: Config, s: State, record: Record, from: Option<Relay>)
    requires SessionInv(s) && ClientEnabled(cfg, s, Enqueue(record, from))
    ensures SessionInv(NextClient(cfg, s, Enqueue(record, from)))
  {
    hide Load, Packets.ReadPacket, IdentityKnown, Relaying.ShouldRelay, Received;
    var r := NextClient(cfg, s, Enqueue(record, from));
    if r != s {
      var x := r.queue[|s.queue|];
      assert r.queue == s.queue + [x];
      assert ItemRelay(x, s.sessions.used);
      forall y
        ensures Accounted(r, y)
      {
        assert Accounted(s, y);
        Push(s.queue, x, Stdout, y);
      }
    }
  }

  // ---- results ----

  /** A packet waiting for an EGTS destination is counted by a registered session. */
  lemma CountedDelivery(s: State, id: nat, t: Target)
    requires RelaysTracked(s) && Counting(s) && Ascending(s.queue) && t.Egts? && Front(s.queue, t, id)
    ensures SessionOf(s.queue, id).Some? && SessionOf(s.queue, id).value in s.sessions.relays
    ensures exists k :: 0 <= k < |s.queue| && s.queue[k].id == id && t in s.queue[k].pending
                        && s.queue[k].relay.Some? && s.queue[k].relay.value.session == SessionOf(s.queue, id).value
  {
    hide Load, Pending, SessionOf;
    PendingHolds(s.queue, t, id);
    var k :| 0 <= k < |s.queue| && s.queue[k].id == id && t in s.queue[k].pending;
    assert t in EgtsOf(s.queue[k].pending);
    assert ItemRelay(s.queue[k], s.sessions.used);
    SessionFound(s.queue, k);
    var x := s.queue[k].relay.value.session;
    LoadWitness(s.queue, k, x);
    assert Accounted(s, x);
  }

  lemma {:induction false} SessionFound(q: Queue, k: nat)
    requires Ascending(q) && k < |q| && q[k].relay.Some?
    ensures SessionOf(q, q[k].id) == Some(q[k].relay.value.session)
  {
    if k > 0 {
      assert q[0].id < q[k].id;
      SessionFound(q[1..], k - 1);
    }
  }

  /** So a result in hand can always be dealt with. */
  lemma SettleEnabled(cfg: Config, s: State)
    requires Inv(cfg, s) && SessionInv(s) && s.pc.Handle?
    ensures ResultEnabled(cfg, s, Settle)
  {
    hide SessionOf, Pending;
    assert Carried(s, s.pc.index) == Some(s.pc.id);
    if s.pc.ok && Targets(cfg)[s.pc.index].Egts? {
      CountedDelivery(s, s.pc.id, Targets(cfg)[s.pc.index]);
    }
  }

  lemma UnloadOne(s: State, r: State, k: nat, t: Target, y: string)
    requires Ascending(s.queue) && k < |s.queue| && t in s.queue[k].pending && t.Egts? && s.queue[k].relay.Some?
    requires var x := s.queue[k].relay.value.session;
             x in s.sessions.relays && x !in s.sessions.closing && r.queue == Cleared(s.queue, s.queue[k].id, t)
             && r.sessions == s.sessions.(relays := Unload(s.sessions.relays, x).0) && r.pc == Save(Unload(s.sessions.relays, x).1)
    requires Finishing(s.pc).None?
    requires Accounted(s, y) && Accounted(s, s.queue[k].relay.value.session)
    ensures Accounted(r, y)
  {
    hide Load;
    var x := s.queue[k].relay.value.session;
    ClearedLoad(s.queue, k, t, y);
    ClearedLoad(s.queue, k, t, x);
  }

  lemma ClearedRelays(s: State, r: State, id: nat, t: Target)
    requires RelaysTracked(s) && r.queue == Cleared(s.queue, id, t) && r.stored == s.stored && r.sessions.used == s.sessions.used && !r.pc.Write?
    ensures RelaysTracked(r)
  {
    forall k | 0 <= k < |r.queue|
      ensures ItemRelay(r.queue[k], s.sessions.used)
    {
      assert ItemRelay(s.queue[k], s.sessions.used);
      assert EgtsOf(r.queue[k].pending) <= EgtsOf(s.queue[k].pending);
    }
  }

  lemma ConfirmSessions(cfg: Config, s: State)
    requires Inv(cfg, s) && SessionInv(s) && ResultEnabled(cfg, s, Settle) && s.pc.ok
    ensures SessionInv(Confirm(cfg, s))
  {
    hide Targets, Load, Pending, SessionOf, Accounted, Unload, Conserved, Tracked, DumpedStays, DoneOnce, RelaysTracked, Cleared;
    var r := Confirm(cfg, s);
    var t := Targets(cfg)[s.pc.index];
    assert Carried(s, s.pc.index) == Some(s.pc.id);
    ClearedRelays(s, r, s.pc.id, t);
    if t.Egts? {
      ConfirmEgts(cfg, s);
    } else {
      ConfirmOther(s, r, s.pc.id, t);
    }
  }

  lemma ConfirmEgts(cfg: Config, s: State)
    requires RelaysTracked(s) && Counting(s) && Ascending(s.queue)
    requires ResultEnabled(cfg, s, Settle) && s.pc.ok && Targets(cfg)[s.pc.index].Egts?
    requires Front(s.queue, Targets(cfg)[s.pc.index], s.pc.id)
    ensures Counting(Confirm(cfg, s))
  {
    hide Targets, Load, Pending, SessionOf, Cleared;
    var r := Confirm(cfg, s);
    var t := Targets(cfg)[s.pc.index];
    CountedDelivery(s, s.pc.id, t);
    var x := SessionOf(s.queue, s.pc.id).value;
    var k :| 0 <= k < |s.queue| && s.queue[k].id == s.pc.id && t in s.queue[k].pending
             && s.queue[k].relay.Some? && s.queue[k].relay.value.session == x;
    assert Accounted(s, x);
    forall y
      ensures Accounted(r, y)
    {
      assert Accounted(s, y);
      UnloadOne(s, r, k, t, y);
    }
  }

  lemma ConfirmOther(s: State, r: State, id: nat, t: Target)
    requires Counting(s) && Ascending(s.queue) && !t.Egts? && Front(s.queue, t, id)
    requires r.queue == Cleared(s.queue, id, t) && r.sessions == s.sessions && Finishing(r.pc) == Finishing(s.pc)
    ensures Counting(r)
  {
    hide Load, Pending;
    PendingHolds(s.queue, t, id);
    var k :| 0 <= k < |s.queue| && s.queue[k].id == id && t in s.queue[k].pending;
    forall y
      ensures Accounted(r, y)
    {
      assert Accounted(s, y);
      ClearedLoad(s.queue, k, t, y);
    }
  }

  // ---- the dump ----

  lemma SnapshotRelays(s: State)
    requires Relayed(s.queue, s.sessions.used)
    ensures Relayed(Snapshot(s.queue), s.sessions.used) && KeptRelays(Snapshot(s.queue))
  {
    hide Snapshot;
    forall k | 0 <= k < |Snapshot(s.queue)|
      ensures ItemRelay(Snapshot(s.queue)[k], s.sessions.used)
      ensures Snapshot(s.queue)[k].relay.Some? <==> EgtsOf(Snapshot(s.queue)[k].pending) != {}
    {
      SnapshotMembers(s.queue, Snapshot(s.queue)[k]);
      var y :| y in s.queue && y.pending != {} && Snapshot(s.queue)[k] == Kept(y);
      var j :| 0 <= j < |s.queue| && s.queue[j] == y;
      assert ItemRelay(s.queue[j], s.sessions.used);
    }
  }

  /** Steps that change only the dump and where the loop stands. */
  lemma DumpSessions(s: State, r: State)
    requires SessionInv(s) && r.queue == s.queue && r.sessions == s.sessions && Finishing(r.pc) == Finishing(s.pc)
    requires r.phase == s.phase || (s.phase.Drained? && r.phase.Dumped?)
    requires RelaysTracked(r)
    ensures SessionInv(r)
  {
    if !s.phase.Down? {
      forall x
        ensures Accounted(r, x)
      {
        assert Accounted(s, x);
      }
    }
  }

  lemma ResultSessions(cfg: Config, s: State, e: ResultEvent)
    requires Inv(cfg, s) && SessionInv(s) && ResultEnabled(cfg, s, e)
    ensures SessionInv(NextResult(cfg, s, e))
  {
    hide Confirm, Targets, SessionInv, Inv, Snapshot, Ids;
    match e
    case Settle =>
      if s.pc.ok {
        ConfirmSessions(cfg, s);
      } else {
        SessionsSame(s, NextResult(cfg, s, e));
      }
    case TakeSnapshot =>
      RelaysOf(s);
      SnapshotRelays(s);
      DumpSessions(s, NextResult(cfg, s, e));
    case StoreDump(result) =>
      RelaysOf(s);
      DumpSessions(s, NextResult(cfg, s, e));
    case CloseFinished(ok) => FinishSessions(cfg, s, ok);
  }

  lemma RelaysOf(s: State)
    requires SessionInv(s)
    ensures RelaysTracked(s)
  {
  }

  lemma FinishSessions(cfg: Config, s: State, ok: bool)
    requires Inv(cfg, s) && SessionInv(s) && s.pc.Close?
    ensures SessionInv(NextResult(cfg, s, CloseFinished(ok)))
  {
    hide Load, Conserved, Tracked, DumpedStays, DoneOnce, FrontInFlight;
    var r := NextResult(cfg, s, CloseFinished(ok));
    assert Accounted(s, s.pc.session);
    forall y
      ensures Accounted(r, y)
    {
      assert Accounted(s, y);
    }
  }

  // ---- the server ----

  lemma ServerSessions(cfg: Config, s: State, e: ServerEvent)
    requires Inv(cfg, s) && SessionInv(s) && ServerEnabled(s, e)
    ensures SessionInv(NextServer(s, e))
  {
    hide SessionInv, Snapshot, Conserved, Tracked, DumpedStays, DoneOnce, FrontInFlight, Ids;
    if e.FinalDump? {
      RelaysOf(s);
      SnapshotRelays(s);
      DumpSessions(s, NextServer(s, e));
    } else if e.Shutdown? {
      ShutdownSessions(cfg, s);
    } else if e.Drain? {
      DrainSessions(s);
    } else {
      SessionsSame(s, NextServer(s, e));
    }
  }

  lemma DrainSessions(s: State)
    requires SessionInv(s) && ServerEnabled(s, Drain)
    ensures SessionInv(NextServer(s, Drain))
  {
    hide Load;
    forall x
      ensures Accounted(NextServer(s, Drain), x)
    {
      assert Accounted(s, x);
    }
  }

  lemma ShutdownSessions(cfg: Config, s: State)
    requires Inv(cfg, s) && SessionInv(s) && s.phase.Dumped?
    ensures SessionInv(NextServer(s, Shutdown))
  {
    hide Load, Conserved, Tracked, DumpedStays, DoneOnce, FrontInFlight, Ordered, Counted, DumpComplete, Relayed, KeptRelays, Counts,
         Registered;
    var r := NextServer(s, Shutdown);
    forall x | x in s.sessions.own
      ensures r.sessions.writersClosed[x] == 1
    {
      assert Accounted(s, x);
      assert multiset(s.sessions.relays.Keys)[x] == if x in s.sessions.relays then 1 else 0;
    }
  }

  lemma StartSessions(cfg: Config, s: State, e: StartEvent)
    requires SessionInv(s) && StartEnabled(s, e)
    ensures SessionInv(NextStart(cfg, s, e))
  {
    hide Load, Targets;
    var r := NextStart(cfg, s, e);
    var q := StoredItems(s);
    forall x
      ensures Accounted(r, x)
    {
      if x in SessionsOf(q) {
        var k :| 0 <= k < |q| && q[k].relay.Some? && q[k].relay.value.session == x;
        LoadWitness(q, k, x);
      } else {
        forall k | 0 <= k < |q|
          ensures ItemLoad(q[k], x) == 0
        {
        }
        LoadNeedsItem(q, x);
      }
    }
  }

  // ---- every step, every run ----

  lemma StepSessions(cfg: Config, s: State, e: Event)
    requires Inv(cfg, s) && SessionInv(s) && Enabled(cfg, s, e)
    ensures SessionInv(Next(cfg, s, e))
  {
    hide Inv, SessionInv, NextClient, NextLoop, NextResult, NextServer, NextStart;
    match e
    case Client(c) =>
      match c {
        case OpenSession(x) => OpenSessions(cfg, s, x);
        case Enqueue(record, from) => EnqueueSessions(cfg, s, record, from);
        case EndSession(x) => EndSessions(cfg, s, x);
        case CloseEnded(x) => CloseSessions(cfg, s, x);
      }
    case Loop(l) => LoopSessions(cfg, s, l);
    case Result(r) => ResultSessions(cfg, s, r);
    case Server(v) => ServerSessions(cfg, s, v);
    case Start(v) => StartSessions(cfg, s, v);
  }

  lemma {:induction false} RunSessions(cfg: Config, trace: seq<State>, n: nat)
    requires ValidConfig(cfg) && Run(cfg, trace) && n < |trace|
    ensures SessionInv(trace[n])
  {
    hide Inv, SessionInv, Next, Enabled;
    if n == 0 {
      var now: nat :| trace[0] == Init(cfg, now);
      SessionsStartWell(cfg, now);
    } else {
      RunSessions(cfg, trace, n - 1);
      RunKept(cfg, trace, n - 1);
      assert StepAt(cfg, trace, n - 1);
      var e :| Enabled(cfg, trace[n - 1], e) && trace[n] == Next(cfg, trace[n - 1], e);
      StepSessions(cfg, trace[n - 1], e);
    }
  }

  lemma SessionsStartWell(cfg: Config, now: nat)
    ensures SessionInv(Init(cfg, now))
  {
    hide Targets;
    assert forall x :: Accounted(Init(cfg, now), x);
  }
}
