/** What holds in every run of the whole gateway: an answer that says OK is kept. */
module GatewayRuns {
  import opened Bytes
  import opened Packets
  import Q = Queues
  import E = Engine
  import opened EngineDelivery
  import opened EngineSessions
  import opened EngineTheorems
  import opened EngineGrowth
  import C = Connection
  import R = ConnectionRuns
  import Rules = ConnectionRules
  import opened Admissions
  import opened Gateway

  // ---- the invariant ----

  /** The accepted packet of that number is the one of these octets. */
  predicate Logged(e: E.State, id: nat, raw: seq<byte>) {
    id < |e.past.log| && e.past.log[id].record.raw == raw && Q.Received(e.past.log[id].record)
  }

  /** The service records of the packet of these octets. */
  function ServicesOf(raw: seq<byte>): Frame {
    match ReadPacket(raw)
    case Rejected(_, _, _) => []
    case Accepted(p) => if p.sfrd.AppData? then p.sfrd.services else []
  }

  /** A packet that gives nothing but identities, from a terminal not authorized yet. */
  predicate Introduces(authorized: bool, raw: seq<byte>) {
    !authorized && Rules.OnlyIdentifies(ServicesOf(raw))
  }

  predicate Offers(setup: Setup, c: Conn, raw: seq<byte>) {
    OfferFor(setup.conns, c, raw).Some?
  }

  /** A connection that goes on: the server serves, its session is open, and what it waits for was
      taken in as what it says. */
  predicate Sound(setup: Setup, e: E.State, c: Conn) {
    && (!c.phase.Gone? ==>
          && e.phase.Serving? && (c.session.Some? <==> Relays(setup)) && Q.IdentityKnown(c.state.identity)
          && (c.session.Some? ==> c.session.value in e.sessions.used && c.session.value !in e.sessions.ended))
    && (c.phase.Waiting? ==>
          && (c.phase.answer.Taken? <==> c.phase.id.Some?)
          && (c.phase.id.Some? ==> Offers(setup, c, c.phase.raw) && Logged(e, c.phase.id.value, c.phase.raw)))
  }

  /** No two connections share a session. */
  predicate Apart(conns: seq<Conn>) {
    forall i, j :: 0 <= i < j < |conns| && !conns[i].phase.Gone? && !conns[j].phase.Gone? && conns[i].session.Some? ==>
      conns[i].session != conns[j].session
  }

  /** What an answer promises. */
  predicate Kept(setup: Setup, e: E.State, a: Answered) {
    a.code == PC_OK ==>
      if Introduces(a.authorized, a.raw) then a.id.None?
      else a.id.Some? && Logged(e, a.id.value, a.raw) && (setup.conns.delivered ==> Everywhere(e, a.id.value))
  }

  predicate Connections(setup: Setup, s: State) {
    && (forall k :: 0 <= k < |s.conns| ==> Sound(setup, s.engine, s.conns[k]))
    && Apart(s.conns)
  }

  predicate Promises(setup: Setup, s: State) {
    forall i :: 0 <= i < |s.answered| ==> Kept(setup, s.engine, s.answered[i])
  }

  ghost predicate GatewayInv(setup: Setup, s: State) {
    Inv(setup.queues, s.engine) && SessionInv(s.engine) && Connections(setup, s) && Promises(setup, s)
  }

  // ---- what growth leaves true ----

  lemma LoggedStays(s: E.State, r: E.State, id: nat, raw: seq<byte>)
    requires Grows(s, r) && Logged(s, id, raw)
    ensures Logged(r, id, raw)
  {
    hide Q.Received;
    assert r.past.log[id] == s.past.log[id];
  }

  lemma KeptStays(setup: Setup, s: E.State, r: E.State, a: Answered)
    requires Grows(s, r) && Kept(setup, s, a)
    ensures Kept(setup, r, a)
  {
    hide Logged, Introduces;
    if a.code == PC_OK && !Introduces(a.authorized, a.raw) {
      LoggedStays(s, r, a.id.value, a.raw);
      if setup.conns.delivered {
        assert r.past.log[a.id.value] == s.past.log[a.id.value];
      }
    }
  }

  lemma PromisesStay(setup: Setup, s: State, r: State)
    requires Grows(s.engine, r.engine) && Promises(setup, s) && r.answered == s.answered
    ensures Promises(setup, r)
  {
    hide Kept, Grows;
    forall i | 0 <= i < |r.answered|
      ensures Kept(setup, r.engine, r.answered[i])
    {
      KeptStays(setup, s.engine, r.engine, s.answered[i]);
    }
  }

  lemma SoundStays(setup: Setup, s: E.State, r: E.State, c: Conn)
    requires Grows(s, r) && Sound(setup, s, c)
    requires !c.phase.Gone? ==> r.phase.Serving?
    requires !c.phase.Gone? && c.session.Some? ==> c.session.value in r.sessions.used && c.session.value !in r.sessions.ended
    ensures Sound(setup, r, c)
  {
    hide Logged, Grows;
    if c.phase.Waiting? && c.phase.id.Some? {
      LoggedStays(s, r, c.phase.id.value, c.phase.raw);
    }
  }

  lemma InsideKept(setup: Setup, s: State, inner: E.Event)
    requires Q.ValidConfig(setup.queues) && GatewayInv(setup, s) && Enabled(setup, s, Inside(inner))
    ensures GatewayInv(setup, Next(setup, s, Inside(inner)))
  {
    hide Inv, SessionInv, E.Next, E.Enabled, Grows, Sound, Promises, Apart;
    var r := Next(setup, s, Inside(inner));
    StepKept(setup.queues, s.engine, inner);
    StepSessions(setup.queues, s.engine, inner);
    StepGrows(setup.queues, s.engine, inner);
    PromisesStay(setup, s, r);
    if inner.Start? {
      NoConnections(setup, r);
    } else {
      InsideServes(setup.queues, s.engine, inner);
      ConnectionsStay(setup, s, r, inner == E.Server(E.Drain));
    }
  }

  lemma NoConnections(setup: Setup, r: State)
    requires r.conns == []
    ensures Connections(setup, r)
  {
  }

  lemma ConnectionsStay(setup: Setup, s: State, r: State, drained: bool)
    requires Connections(setup, s) && r.conns == s.conns && Grows(s.engine, r.engine)
    requires r.engine.sessions.used == s.engine.sessions.used && r.engine.sessions.ended == s.engine.sessions.ended
    requires s.engine.phase.Serving? && !drained ==> r.engine.phase.Serving?
    requires drained ==> forall k :: 0 <= k < |s.conns| ==> s.conns[k].phase.Gone?
    ensures Connections(setup, r)
  {
    hide Grows, Apart, Logged;
    forall k | 0 <= k < |r.conns|
      ensures Sound(setup, r.engine, r.conns[k])
    {
      assert Sound(setup, s.engine, s.conns[k]);
      SoundStays(setup, s.engine, r.engine, s.conns[k]);
    }
  }

  // ---- connections come and go ----

  lemma ClientKept(setup: Setup, s: E.State, e: E.ClientEvent)
    requires Q.ValidConfig(setup.queues) && Inv(setup.queues, s) && SessionInv(s) && E.ClientEnabled(setup.queues, s, e)
    ensures var r := E.NextClient(setup.queues, s, e);
            Inv(setup.queues, r) && SessionInv(r) && Grows(s, r) && r.phase == s.phase
  {
    hide Inv, SessionInv, E.ClientEnabled, Grows;
    assert E.Next(setup.queues, s, E.Client(e)) == E.NextClient(setup.queues, s, e);
    StepKept(setup.queues, s, E.Client(e));
    StepSessions(setup.queues, s, E.Client(e));
    StepGrows(setup.queues, s, E.Client(e));
    PhaseStays(setup.queues, s, e);
  }

  lemma Others(setup: Setup, s: State, r: State, k: nat)
    requires Connections(setup, s) && k < |s.conns| == |r.conns| && r.conns == s.conns[k := r.conns[k]] && Grows(s.engine, r.engine)
    requires s.engine.phase == r.engine.phase
    requires r.conns[k].session == s.conns[k].session && (s.conns[k].phase.Gone? ==> r.conns[k].phase.Gone?)
    requires s.engine.sessions.used <= r.engine.sessions.used
    requires forall j :: 0 <= j < |s.conns| && j != k && !s.conns[j].phase.Gone? && s.conns[j].session.Some? ==>
               s.conns[j].session.value !in r.engine.sessions.ended
    requires Sound(setup, r.engine, r.conns[k])
    ensures Connections(setup, r)
  {
    hide Grows, Logged;
    forall j | 0 <= j < |r.conns|
      ensures Sound(setup, r.engine, r.conns[j])
    {
      if j != k {
        assert Sound(setup, s.engine, s.conns[j]);
        SoundStays(setup, s.engine, r.engine, s.conns[j]);
      }
    }
  }

  lemma SameEngine(e: E.State)
    ensures Grows(e, e)
  {
  }

  lemma ConnectKept(setup: Setup, s: State, address: string, x: string)
    requires Q.ValidConfig(setup.queues) && GatewayInv(setup, s) && Enabled(setup, s, Connect(address, x))
    ensures GatewayInv(setup, Next(setup, s, Connect(address, x)))
  {
    hide Inv, SessionInv, Grows, Promises, Logged;
    var r := Next(setup, s, Connect(address, x));
    if Relays(setup) {
      ClientKept(setup, s.engine, E.OpenSession(x));
    } else {
      SameEngine(s.engine);
    }
    PromisesStay(setup, s, r);
    FreshSession(setup, s.engine, x);
    var c := r.conns[|s.conns|];
    assert Sound(setup, r.engine, c);
    hide Sound, Relays, E.ClientEnabled, E.NextClient, Gateway.Next, Enabled;
    OneMore(setup, s, r.engine, c);
    assert r.conns == s.conns + [c];
  }

  lemma OneMore(setup: Setup, s: State, e: E.State, c: Conn)
    requires Connections(setup, s) && Sound(setup, e, c) && Grows(s.engine, e) && (s.engine.phase.Serving? ==> e.phase.Serving?)
    requires s.engine.sessions.used <= e.sessions.used && e.sessions.ended == s.engine.sessions.ended
    requires c.session.Some? ==> c.session.value !in s.engine.sessions.used
    ensures forall j :: 0 <= j < |s.conns + [c]| ==> Sound(setup, e, (s.conns + [c])[j])
    ensures Apart(s.conns + [c])
  {
    hide Grows, Logged, Q.IdentityKnown;
    var conns := s.conns + [c];
    forall j | 0 <= j < |conns|
      ensures Sound(setup, e, conns[j])
    {
      if j < |s.conns| {
        assert Sound(setup, s.engine, s.conns[j]);
        SoundStays(setup, s.engine, e, s.conns[j]);
      }
    }
    forall i, j | 0 <= i < j < |conns| && !conns[i].phase.Gone? && !conns[j].phase.Gone? && conns[i].session.Some?
      ensures conns[i].session != conns[j].session
    {
      assert Sound(setup, s.engine, s.conns[i]);
    }
  }

  lemma FreshSession(setup: Setup, e: E.State, x: string)
    requires SessionInv(e) && e.phase.Serving?
    ensures x !in e.sessions.used ==> x !in e.sessions.ended
  {
  }

  lemma HangupKept(setup: Setup, s: State, k: nat)
    requires Q.ValidConfig(setup.queues) && GatewayInv(setup, s) && Enabled(setup, s, Hangup(k))
    ensures GatewayInv(setup, Next(setup, s, Hangup(k)))
  {
    hide Inv, SessionInv, Grows, Promises, Logged;
    var r := Next(setup, s, Hangup(k));
    var c := s.conns[k];
    if c.session.Some? {
      ClientKept(setup, s.engine, E.EndSession(c.session.value));
    } else {
      SameEngine(s.engine);
    }
    PromisesStay(setup, s, r);
    assert Sound(setup, s.engine, c);
    forall j | 0 <= j < |s.conns| && j != k && !s.conns[j].phase.Gone? && s.conns[j].session.Some?
      ensures s.conns[j].session.value !in r.engine.sessions.ended
    {
      assert Sound(setup, s.engine, s.conns[j]);
    }
    Others(setup, s, r, k);
  }

  // ---- a frame comes in ----

  lemma AcceptLogs(cfg: Q.Config, s: E.State, e: E.ClientEvent)
    requires e.Enqueue? && E.ClientEnabled(cfg, s, e)
    requires AnswerOf(E.Admission(cfg, s.accepting, |s.queue|, e.record, e.from.Some?)).Taken?
    ensures Logged(E.NextClient(cfg, s, e), |s.past.log|, e.record.raw)
  {
    hide E.Admission, Q.EgtsOf, E.AddPending, E.OpenIn, Q.IdentityKnown, Q.Received;
  }

  lemma ArriveEngine(setup: Setup, s: State, k: nat, raw: seq<byte>, receivedAt: int)
    requires Q.ValidConfig(setup.queues) && Inv(setup.queues, s.engine) && SessionInv(s.engine)
    requires Enabled(setup, s, Arrive(k, raw, receivedAt))
    ensures var r := NextArrive(setup, s, k, raw, receivedAt);
            && Inv(setup.queues, r.engine) && SessionInv(r.engine) && Grows(s.engine, r.engine)
            && r.engine.phase == s.engine.phase
            && r.engine.sessions.used == s.engine.sessions.used && r.engine.sessions.ended == s.engine.sessions.ended
  {
    hide Inv, SessionInv, Grows, OfferFor, E.Admission, E.ClientEnabled, E.NextClient;
    var c := s.conns[k];
    match OfferFor(setup.conns, c, raw)
    case None => SameEngine(s.engine);
    case Some(o) =>
      ClientKept(setup, s.engine, Enqueues(c, o, receivedAt));
      PhaseStays(setup.queues, s.engine, Enqueues(c, o, receivedAt));
  }

  lemma ArriveWaits(setup: Setup, s: State, k: nat, raw: seq<byte>, receivedAt: int)
    requires Enabled(setup, s, Arrive(k, raw, receivedAt))
    ensures var r := NextArrive(setup, s, k, raw, receivedAt); var p := r.conns[k].phase;
            && r.conns == s.conns[k := s.conns[k].(phase := p)] && r.answered == s.answered
            && p.Waiting? && p.raw == raw && (p.answer.Taken? <==> p.id.Some?)
            && (p.id.Some? ==> Offers(setup, s.conns[k], raw) && Logged(r.engine, p.id.value, raw))
  {
    hide Logged, OfferFor, E.Admission, E.ClientEnabled, E.NextClient;
    var c := s.conns[k];
    OfferedWhatever(setup.conns, c, C.Input(raw, C.Refused, false, false, false));
    match OfferFor(setup.conns, c, raw)
    case None =>
    case Some(o) =>
      var e := Enqueues(c, o, receivedAt);
      if AnswerOf(E.Admission(setup.queues, s.engine.accepting, |s.engine.queue|, e.record, e.from.Some?)).Taken? {
        AcceptLogs(setup.queues, s.engine, e);
      }
  }

  lemma ArriveKept(setup: Setup, s: State, k: nat, raw: seq<byte>, receivedAt: int)
    requires Q.ValidConfig(setup.queues) && GatewayInv(setup, s) && Enabled(setup, s, Arrive(k, raw, receivedAt))
    ensures GatewayInv(setup, Next(setup, s, Arrive(k, raw, receivedAt)))
  {
    hide Inv, SessionInv, Grows, Promises, Logged, OfferFor, NextArrive, Q.IdentityKnown, Relays, Sound, Apart;
    ArriveEngine(setup, s, k, raw, receivedAt);
    ArriveWaits(setup, s, k, raw, receivedAt);
    var r := NextArrive(setup, s, k, raw, receivedAt);
    PromisesStay(setup, s, r);
    WaitsSound(setup, s.engine, r.engine, s.conns[k], r.conns[k].phase);
    OpenStays(setup, s, k);
    Others(setup, s, r, k);
  }

  lemma WaitsSound(setup: Setup, s: E.State, r: E.State, c: Conn, p: Phase)
    requires Sound(setup, s, c) && c.phase.Reading? && p.Waiting? && (p.answer.Taken? <==> p.id.Some?)
    requires p.id.Some? ==> Offers(setup, c, p.raw) && Logged(r, p.id.value, p.raw)
    requires r.phase == s.phase && r.sessions.used == s.sessions.used && r.sessions.ended == s.sessions.ended
    ensures Sound(setup, r, c.(phase := p))
  {
    hide Logged, Q.IdentityKnown, Relays;
  }

  // ---- it is answered ----

  /** An answer that says OK is to a packet that the queue took, and that is done where that is asked
      for; or to one that only introduces its terminal, and that was not put to the queue. */
  lemma OkWasTaken(setup: Setup, c: Conn, doneFirst: bool, wroteAnswer: bool, wroteAuth: bool)
    requires c.phase.Waiting?
    ensures var o := Rest(setup.conns, c, doneFirst, wroteAnswer, wroteAuth);
            && (o.sent != [] && o.code == PC_OK && !Introduces(c.state.authorized, c.phase.raw) ==>
                  c.phase.answer.Taken? && (setup.conns.delivered ==> doneFirst))
            && (Introduces(c.state.authorized, c.phase.raw) ==> !Offers(setup, c, c.phase.raw))
            && (Q.IdentityKnown(c.state.identity) ==> Q.IdentityKnown(o.next.identity))
  {
    hide ReadPacket, C.Respond, C.ReadLogin, C.Handle, Q.IdentityKnown;
    var input := C.Input(c.phase.raw, c.phase.answer, doneFirst, wroteAnswer, wroteAuth);
    if Q.IdentityKnown(c.state.identity) {
      R.IdentityStaysKnown(setup.conns, c.state, c.session.Some?, input);
    }
    match ReadPacket(input.raw)
    case Rejected(code, pt, pid) => RejectedCode(setup.conns, c.state, c.session.Some?, input);
    case Accepted(p) =>
      DataIsThere(input.raw, p);
      OfferedWhatever(setup.conns, c, input);
      if p.pt == PT_APPDATA {
        R.OkMeansQueued(setup.conns, c.state, c.session.Some?, input, p);
        Rules.DecidedByContent(setup.conns, c.state, c.session.Some?, input, p);
        hide Rules.OnlyIdentifies, Rules.Denied, OfferFor;
      } else {
        NotData(setup.conns, c.state, c.session.Some?, input, p);
      }
  }

  lemma RejectedCode(cfg: C.Config, s: C.State, onSession: bool, input: C.Input)
    requires ReadPacket(input.raw).Rejected?
    ensures C.Handle(cfg, s, onSession, input).code != PC_OK
  {
    hide C.Respond, ReadPacket;
    RejectedSays(input.raw);
  }

  lemma NotData(cfg: C.Config, s: C.State, onSession: bool, input: C.Input, p: Packet)
    requires ReadPacket(input.raw) == Accepted(p) && p.pt != PT_APPDATA
    ensures C.Handle(cfg, s, onSession, input).sent == []
  {
    hide ReadPacket;
  }

  lemma ReplyKept(setup: Setup, s: State, k: nat, wroteAnswer: bool, wroteAuth: bool)
    requires Q.ValidConfig(setup.queues) && GatewayInv(setup, s) && Enabled(setup, s, Reply(k, wroteAnswer, wroteAuth))
    ensures GatewayInv(setup, Next(setup, s, Reply(k, wroteAnswer, wroteAuth)))
  {
    hide SessionInv, Grows, Logged, Rest, Q.IdentityKnown, Everywhere, Shape, Counted, Ordered, Tracked, FrontInFlight, Conserved,
         DumpComplete, DumpedStays;
    var r := Next(setup, s, Reply(k, wroteAnswer, wroteAuth));
    var c := s.conns[k];
    OkWasTaken(setup, c, true, wroteAnswer, wroteAuth);
    SameEngine(s.engine);
    assert Sound(setup, s.engine, c);
    if setup.conns.delivered && c.phase.id.Some? {
      var i :| 0 <= i < |s.engine.past.done| && s.engine.past.done[i] == c.phase.id.value;
      assert Everywhere(s.engine, s.engine.past.done[i]);
    }
    hide Inv;
    forall i | 0 <= i < |r.answered|
      ensures Kept(setup, r.engine, r.answered[i])
    {
      if i < |s.answered| {
        assert Kept(setup, s.engine, s.answered[i]);
      }
    }
    OpenStays(setup, s, k);
    Others(setup, s, r, k);
  }

  lemma OpenStays(setup: Setup, s: State, k: nat)
    requires Connections(setup, s)
    ensures forall j :: 0 <= j < |s.conns| && j != k && !s.conns[j].phase.Gone? && s.conns[j].session.Some? ==>
              s.conns[j].session.value !in s.engine.sessions.ended
  {
    forall j | 0 <= j < |s.conns| && j != k && !s.conns[j].phase.Gone? && s.conns[j].session.Some?
      ensures s.conns[j].session.value !in s.engine.sessions.ended
    {
      assert Sound(setup, s.engine, s.conns[j]);
    }
  }

  lemma GiveUpKept(setup: Setup, s: State, k: nat)
    requires GatewayInv(setup, s) && Enabled(setup, s, GiveUp(k))
    ensures GatewayInv(setup, Next(setup, s, GiveUp(k)))
  {
    hide Inv, SessionInv, Grows, Logged, Rest, Promises, Q.IdentityKnown;
    var r := Next(setup, s, GiveUp(k));
    OkWasTaken(setup, s.conns[k], false, false, false);
    SameEngine(s.engine);
    PromisesStay(setup, s, r);
    assert Sound(setup, s.engine, s.conns[k]);
    OpenStays(setup, s, k);
    Others(setup, s, r, k);
  }

  // ---- every step, every run ----

  lemma GatewayKept(setup: Setup, s: State, e: Event)
    requires Q.ValidConfig(setup.queues) && GatewayInv(setup, s) && Enabled(setup, s, e)
    ensures GatewayInv(setup, Next(setup, s, e))
  {
    hide GatewayInv, Enabled, Next;
    match e
    case Inside(inner) => InsideKept(setup, s, inner);
    case Connect(address, x) => ConnectKept(setup, s, address, x);
    case Arrive(k, raw, receivedAt) => ArriveKept(setup, s, k, raw, receivedAt);
    case Reply(k, wroteAnswer, wroteAuth) => ReplyKept(setup, s, k, wroteAnswer, wroteAuth);
    case GiveUp(k) => GiveUpKept(setup, s, k);
    case Hangup(k) => HangupKept(setup, s, k);
  }

  lemma {:induction false} RunKept(setup: Setup, trace: seq<State>, n: nat)
    requires Q.ValidConfig(setup.queues) && Run(setup, trace) && n < |trace|
    ensures GatewayInv(setup, trace[n])
  {
    hide GatewayInv, Enabled, Next;
    if n == 0 {
      var now: nat :| trace[0] == Init(setup, now);
      StartsSound(setup, now);
    } else {
      RunKept(setup, trace, n - 1);
      assert StepAt(setup, trace, n - 1);
      var e :| Enabled(setup, trace[n - 1], e) && trace[n] == Next(setup, trace[n - 1], e);
      GatewayKept(setup, trace[n - 1], e);
    }
  }

  /** Seen from the engine, the gateway takes its steps and no others, so that whatever holds in every
      run of the engine holds here. */
  lemma RefinesEngine(setup: Setup, s: State, r: State)
    requires CanStep(setup, s, r)
    ensures r.engine == s.engine || E.CanStep(setup.queues, s.engine, r.engine)
  {
    hide OfferFor, Rest, E.ClientEnabled, E.NextClient, E.LoopEnabled, E.NextLoop, E.ResultEnabled, E.NextResult, E.ServerEnabled,
         E.NextServer, E.NextStart;
    var e :| Enabled(setup, s, e) && r == Next(setup, s, e);
    var f :=
      match e
      case Inside(inner) => inner
      case Connect(_, x) => E.Client(E.OpenSession(x))
      case Arrive(k, raw, receivedAt) =>
        var o := OfferFor(setup.conns, s.conns[k], raw);
        if o.Some? then E.Client(Enqueues(s.conns[k], o.value, receivedAt)) else E.Client(E.CloseEnded(""))
      case Hangup(k) =>
        if s.conns[k].session.Some? then E.Client(E.EndSession(s.conns[k].session.value)) else E.Client(E.CloseEnded(""))
      case _ => E.Client(E.CloseEnded(""));
    if r.engine != s.engine {
      assert E.Enabled(setup.queues, s.engine, f) && r.engine == E.Next(setup.queues, s.engine, f);
    }
  }

  lemma StartsSound(setup: Setup, now: nat)
    ensures GatewayInv(setup, Init(setup, now))
  {
    hide Inv, SessionInv;
    StartsWell(setup.queues, now);
    SessionsStartWell(setup.queues, now);
  }

  /** The machine is never in the way of a connection: it can take in any frame when it reads, and
      end whenever it is not waiting. */
  lemma NeverStuck(setup: Setup, trace: seq<State>, n: nat, k: nat, raw: seq<byte>, receivedAt: int)
    requires Q.ValidConfig(setup.queues) && Run(setup, trace) && n < |trace| && k < |trace[n].conns|
    ensures trace[n].conns[k].phase.Reading? ==> Enabled(setup, trace[n], Arrive(k, raw, receivedAt))
    ensures trace[n].conns[k].phase.Reading? || trace[n].conns[k].phase.Ending? ==> Enabled(setup, trace[n], Hangup(k))
  {
    hide Run, Inv, OfferFor, ReadPacket, Promises, Q.IdentityKnown;
    RunKept(setup, trace, n);
    var s := trace[n];
    var c := s.conns[k];
    assert Sound(setup, s.engine, c);
    OfferedWhatever(setup.conns, c, C.Input(raw, C.Refused, false, false, false));
    if !c.phase.Gone? && c.session.Some? {
      assert Accounted(s.engine, c.session.value);
    }
    OfferKnown(setup.conns, c, raw);
  }

  lemma OfferKnown(cfg: C.Config, c: Conn, raw: seq<byte>)
    ensures var o := OfferFor(cfg, c, raw);
            Q.IdentityKnown(c.state.identity) && o.Some? ==> Q.IdentityKnown(o.value.identity)
  {
    hide C.Handle, Q.IdentityKnown;
    if Q.IdentityKnown(c.state.identity) {
      R.IdentityStaysKnown(cfg, c.state, c.session.Some?, C.Input(raw, C.Refused, false, false, false));
    }
  }

  // ---- the promises ----

  lemma {:induction false} RunProperLog(setup: Setup, trace: seq<State>, n: nat)
    requires Run(setup, trace) && n < |trace|
    ensures ProperLog(setup.queues, trace[n].engine)
    decreases n
  {
    hide CanStep, Init, Proper, E.Next, E.Enabled;
    if n == 0 {
      EmptyLog(setup, trace);
    } else {
      RunProperLog(setup, trace, n - 1);
      assert StepAt(setup, trace, n - 1);
      var s, r := trace[n - 1], trace[n];
      RefinesEngine(setup, s, r);
      if r.engine != s.engine {
        var e :| E.Enabled(setup.queues, s.engine, e) && r.engine == E.Next(setup.queues, s.engine, e);
        StepProper(setup.queues, s.engine, e);
      }
    }
  }

  lemma EmptyLog(setup: Setup, trace: seq<State>)
    requires Run(setup, trace)
    ensures trace[0].engine.past.log == []
  {
  }

  /** The logged packet is the one of its octets, and for the destinations that want it. */
  lemma LoggedWanted(setup: Setup, trace: seq<State>, n: nat, id: nat, raw: seq<byte>, t: Q.Target)
    requires Run(setup, trace) && n < |trace| && Logged(trace[n].engine, id, raw)
    ensures t in trace[n].engine.past.log[id].needs <==> Wanted(setup.queues, ServicesOf(raw), t)
  {
    hide Run, Wanted, ReadPacket;
    RunProperLog(setup, trace, n);
    assert Proper(setup.queues, trace[n].engine.past.log[id]);
  }

  /** An answer that took a packet in: OK, and not just to ask for credentials. */
  predicate TookIn(a: Answered) {
    a.code == PC_OK && !Introduces(a.authorized, a.raw)
  }

  /** In every run, each packet that was answered OK has been accepted as one with its octets; and
      where acknowledgements are for delivered packets, every destination that wants it has confirmed
      it. Only packets that give nothing but identities, from a terminal not authorized yet, are
      answered OK without being accepted, and these never are. */
  lemma OkIsKept(setup: Setup, trace: seq<State>, n: nat, i: nat)
    requires Q.ValidConfig(setup.queues) && Run(setup, trace) && n < |trace|
    requires i < |trace[n].answered| && trace[n].answered[i].code == PC_OK
    ensures var a, e := trace[n].answered[i], trace[n].engine;
            && (a.id.None? <==> Introduces(a.authorized, a.raw))
            && (a.id.Some? ==>
                  && Logged(e, a.id.value, a.raw)
                  && (setup.conns.delivered ==>
                        && Everywhere(e, a.id.value)
                        && forall t :: Wanted(setup.queues, ServicesOf(a.raw), t) ==> a.id.value in E.ConfirmedBy(e, t)))
  {
    hide Run, Logged, Inv, SessionInv, Connections, Wanted, ServicesOf, Introduces;
    RunKept(setup, trace, n);
    var a, e := trace[n].answered[i], trace[n].engine;
    assert Kept(setup, e, a);
    if a.id.Some? && setup.conns.delivered {
      forall t | Wanted(setup.queues, ServicesOf(a.raw), t)
        ensures a.id.value in E.ConfirmedBy(e, t)
      {
        LoggedWanted(setup, trace, n, a.id.value, a.raw, t);
      }
    }
  }

  /** The confirmations are there before the answer: the engine is the same before the answer goes
      out as after. */
  lemma DeliveredBeforeAnswer(setup: Setup, trace: seq<State>, n: nat)
    requires Q.ValidConfig(setup.queues) && Run(setup, trace) && n + 1 < |trace| && setup.conns.delivered
    requires |trace[n + 1].answered| > |trace[n].answered| && TookIn(trace[n + 1].answered[|trace[n].answered|])
    ensures var a := trace[n + 1].answered[|trace[n].answered|]; a.id.Some? && Everywhere(trace[n].engine, a.id.value)
  {
    hide Run, Everywhere, Logged, Inv, SessionInv, Connections;
    OkIsKept(setup, trace, n + 1, |trace[n].answered|);
    assert trace[n + 1].engine == trace[n].engine by {
      AnswersOnly(setup, trace, n);
    }
  }

  lemma AnswersOnly(setup: Setup, trace: seq<State>, n: nat)
    requires Run(setup, trace) && n + 1 < |trace| && |trace[n + 1].answered| > |trace[n].answered|
    ensures trace[n + 1].engine == trace[n].engine
  {
    hide Rest, OfferFor, E.NextClient, E.Next, E.Enabled, E.ClientEnabled;
    assert StepAt(setup, trace, n);
  }

  /** A packet answered OK is not lost: every destination that wants it has confirmed it or has it
      queued, as it came in; and when the server has gone down well it is in the dump, unless
      confirmed. */
  lemma OkIsNotLost(setup: Setup, trace: seq<State>, n: nat, i: nat, t: Q.Target)
    requires Q.ValidConfig(setup.queues) && Run(setup, trace) && n < |trace| && trace[n].engine.past.clean
    requires i < |trace[n].answered| && TookIn(trace[n].answered[i])
    ensures var a, e := trace[n].answered[i], trace[n].engine;
            && a.id.Some? && a.id.value < |e.past.log|
            && (Wanted(setup.queues, ServicesOf(a.raw), t) ==>
                  && (a.id.value in E.ConfirmedBy(e, t) || HeldAs(e.queue, a.id.value, t, a.raw))
                  && (e.phase == E.Down(true) ==>
                        a.id.value in E.ConfirmedBy(e, t) || HeldAs(E.StoredItems(e), a.id.value, t, a.raw)))
  {
    hide Run, Everywhere, SessionInv, Connections, Q.Holds, Q.Received, Shape, Counted, Ordered, FrontInFlight, Conserved,
         DumpComplete, DumpedStays, DoneOnce, TrackedItem;
    RunKept(setup, trace, n);
    OkIsKept(setup, trace, n, i);
    var a, e := trace[n].answered[i], trace[n].engine;
    LoggedWanted(setup, trace, n, a.id.value, a.raw, t);
    if t in e.past.log[a.id.value].needs {
      NothingLostIn(setup.queues, e, a.id.value, t);
      HeldAsLogged(e, e.queue, a.id.value, t);
      HeldAsLogged(e, E.StoredItems(e), a.id.value, t);
    }
  }

  /** The packet of that number is queued for the destination, with these octets. */
  predicate HeldAs(q: Q.Queue, id: nat, t: Q.Target, raw: seq<byte>) {
    exists k :: 0 <= k < |q| && q[k].id == id && t in q[k].pending && q[k].record.raw == raw
  }

  lemma HeldAsLogged(e: E.State, q: Q.Queue, id: nat, t: Q.Target)
    requires TrackedQueue(e, q) && id < |e.past.log|
    ensures Q.Holds(q, id, t) ==> HeldAs(q, id, t, e.past.log[id].record.raw)
  {
    if Q.Holds(q, id, t) {
      var k :| 0 <= k < |q| && q[k].id == id && t in q[k].pending;
      assert TrackedItem(e, q[k]);
    }
  }
}
