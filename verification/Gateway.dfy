/** The whole gateway: connections as handleConnection runs them (gateway/server/connection.go) over
    the store-and-forward engine, whose admission answers them and whose done channels they wait
    for. */
module Gateway {
  import opened Bytes
  import opened Packets
  import Q = Queues
  import E = Engine
  import opened EngineDelivery
  import opened EngineSessions
  import C = Connection
  import R = ConnectionRuns

  datatype Setup = Setup(queues: Q.Config, conns: C.Config)

  /** Where a connection stands: about to read; with the answer of the queue to a packet, taken in as
      the packet of that number; ended; and its session ended. */
  datatype Phase = Reading | Waiting(raw: seq<byte>, answer: C.QueueAnswer, id: Option<nat>) | Ending | Gone

  datatype Conn = Conn(address: string, session: Option<string>, state: C.State, phase: Phase)

  /** An answer that went out: to which frame, with which code, whether the terminal was authorized
      before, and as what the frame had been queued. */
  datatype Answered = Answered(raw: seq<byte>, code: byte, authorized: bool, id: Option<nat>)

  /** The connections of this process, and every answer ever sent. */
  datatype State = State(engine: E.State, conns: seq<Conn>, answered: seq<Answered>)

  datatype Event =
    | Inside(inner: E.Event)
    | Connect(address: string, session: string)
    | Arrive(k: nat, raw: seq<byte>, receivedAt: int)
    | Reply(k: nat, wroteAnswer: bool, wroteAuth: bool)
    | GiveUp(k: nat)
    | Hangup(k: nat)

  predicate Relays(setup: Setup) {
    Q.EnabledIds(setup.queues.egts) != []
  }

  // ---- a frame and the queue ----

  /** What a frame makes the connection put to the queue; it does not depend on the answer. */
  function OfferFor(cfg: C.Config, c: Conn, raw: seq<byte>): Option<C.Offer> {
    C.Handle(cfg, c.state, c.session.Some?, C.Input(raw, C.Refused, false, false, false)).offered
  }

  lemma OfferedWhatever(cfg: C.Config, c: Conn, input: C.Input)
    ensures C.Handle(cfg, c.state, c.session.Some?, input).offered == OfferFor(cfg, c, input.raw)
    ensures var o := OfferFor(cfg, c, input.raw);
            o.Some? ==> o.value.raw == input.raw && ReadPacket(input.raw) == Accepted(o.value.packet)
                        && o.value.packet.pt == PT_APPDATA && o.value.packet.sfrd.AppData?
  {
    hide ReadPacket, C.Respond, C.ReadLogin, C.After, C.FirstCode, C.AsksCredentials;
    match ReadPacket(input.raw)
    case Rejected(_, _, _) =>
    case Accepted(p) => DataIsThere(input.raw, p);
  }

  function RecordOf(c: Conn, o: C.Offer, receivedAt: int): Q.Record {
    Q.Record(receivedAt, Q.Source(c.address, o.terminal), o.raw, o.packet)
  }

  function RelayOf(c: Conn, o: C.Offer): Option<Q.Relay> {
    if c.session.Some? then Some(Q.Relay(c.session.value, o.identity)) else None
  }

  function Enqueues(c: Conn, o: C.Offer, receivedAt: int): E.ClientEvent {
    E.Enqueue(RecordOf(c, o, receivedAt), RelayOf(c, o))
  }

  /** What enqueue returns to the connection: the item, ErrRelayCredentials or another error. */
  function AnswerOf(a: E.Answer): C.QueueAnswer {
    match a
    case Accepts(_) => C.Taken
    case BadCredentials => C.CredentialsRefused
    case _ => C.Refused
  }

  /** The rest of the turn, once the queue has answered and, where that is asked for, the packet is
      done or the server stops. */
  function Rest(cfg: C.Config, c: Conn, doneFirst: bool, wroteAnswer: bool, wroteAuth: bool): C.Turn
    requires c.phase.Waiting?
  {
    C.Handle(cfg, c.state, c.session.Some?, C.Input(c.phase.raw, c.phase.answer, doneFirst, wroteAnswer, wroteAuth))
  }

  function AfterTurn(c: Conn, o: C.Turn): Conn {
    if o.ends then c.(phase := Ending) else c.(state := o.next, phase := Reading)
  }

  // ---- the machine ----

  predicate Enabled(setup: Setup, s: State, e: Event) {
    match e
    case Inside(inner) =>
      && E.Enabled(setup.queues, s.engine, inner)
      && (inner.Client? ==> inner.client.CloseEnded?)
      && (inner == E.Server(E.Drain) ==> forall k :: 0 <= k < |s.conns| ==> s.conns[k].phase.Gone?)
    case Connect(_, x) =>
      s.engine.phase.Serving? && (Relays(setup) ==> E.ClientEnabled(setup.queues, s.engine, E.OpenSession(x)))
    case Arrive(k, raw, receivedAt) =>
      && k < |s.conns| && s.conns[k].phase.Reading?
      && var o := OfferFor(setup.conns, s.conns[k], raw);
         o.Some? ==> E.ClientEnabled(setup.queues, s.engine, Enqueues(s.conns[k], o.value, receivedAt))
    case Reply(k, _, _) =>
      && k < |s.conns| && s.conns[k].phase.Waiting?
      && (setup.conns.delivered && s.conns[k].phase.id.Some? ==> s.conns[k].phase.id.value in s.engine.past.done)
    case GiveUp(k) =>
      && k < |s.conns| && s.conns[k].phase.Waiting? && setup.conns.delivered && s.conns[k].phase.id.Some?
      && s.engine.cancelled
    case Hangup(k) =>
      && k < |s.conns| && (s.conns[k].phase.Reading? || s.conns[k].phase.Ending?)
      && (s.conns[k].session.Some? ==> E.ClientEnabled(setup.queues, s.engine, E.EndSession(s.conns[k].session.value)))
  }

  function NextArrive(setup: Setup, s: State, k: nat, raw: seq<byte>, receivedAt: int): State
    requires Enabled(setup, s, Arrive(k, raw, receivedAt))
  {
    var c := s.conns[k];
    match OfferFor(setup.conns, c, raw)
    case None => s.(conns := s.conns[k := c.(phase := Waiting(raw, C.Refused, None))])
    case Some(o) =>
      var e := Enqueues(c, o, receivedAt);
      var answer := AnswerOf(E.Admission(setup.queues, s.engine.accepting, |s.engine.queue|, e.record, e.from.Some?));
      s.(engine := E.NextClient(setup.queues, s.engine, e),
         conns := s.conns[k := c.(phase := Waiting(raw, answer, if answer.Taken? then Some(|s.engine.past.log|) else None))])
  }

  function Next(setup: Setup, s: State, e: Event): State
    requires Enabled(setup, s, e)
  {
    match e
    case Inside(inner) => s.(engine := E.Next(setup.queues, s.engine, inner), conns := if inner.Start? then [] else s.conns)
    case Connect(address, x) =>
      var c := Conn(address, if Relays(setup) then Some(x) else None, C.Start(setup.conns), Reading);
      s.(engine := if Relays(setup) then E.NextClient(setup.queues, s.engine, E.OpenSession(x)) else s.engine, conns := s.conns + [c])
    case Arrive(k, raw, receivedAt) => NextArrive(setup, s, k, raw, receivedAt)
    case Reply(k, wroteAnswer, wroteAuth) =>
      var c := s.conns[k];
      var o := Rest(setup.conns, c, true, wroteAnswer, wroteAuth);
      s.(conns := s.conns[k := AfterTurn(c, o)],
         answered := if o.sent == [] then s.answered
                     else s.answered + [Answered(c.phase.raw, o.code, c.state.authorized, c.phase.id)])
    case GiveUp(k) => s.(conns := s.conns[k := AfterTurn(s.conns[k], Rest(setup.conns, s.conns[k], false, false, false))])
    case Hangup(k) =>
      var c := s.conns[k];
      s.(engine := if c.session.Some? then E.NextClient(setup.queues, s.engine, E.EndSession(c.session.value)) else s.engine,
         conns := s.conns[k := c.(phase := Gone)])
  }

  function Init(setup: Setup, now: nat): State {
    State(E.Init(setup.queues, now), [], [])
  }

  ghost predicate CanStep(setup: Setup, s: State, r: State) {
    exists e :: Enabled(setup, s, e) && r == Next(setup, s, e)
  }

  ghost predicate Run(setup: Setup, trace: seq<State>) {
    && trace != []
    && (exists now: nat :: trace[0] == Init(setup, now))
    && forall i :: 0 <= i < |trace| - 1 ==> StepAt(setup, trace, i)
  }

  ghost predicate StepAt(setup: Setup, trace: seq<State>, i: nat)
    requires i + 1 < |trace|
  {
    CanStep(setup, trace[i], trace[i + 1])
  }
}
