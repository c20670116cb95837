/** The gateway's store-and-forward engine as a state machine: connections that enqueue, the
    delivery loop of gateway/server/queue.go, its workers, the dump, the shutdown of
    gateway/server/server.go and the next start. Each section under the server's lock and each
    wait of the delivery loop is one step; what the outside world decides (the clock, the result
    of an attempt, of a save, when a connection ends) comes with the step. */
module Engine {
  import opened Bytes
  import opened Queues
  import Relaying
  import opened StallClock
  import Packets

  /** An attempt of a target: none, in progress, or with its result waiting in the channel. */
  datatype Worker = Idle | Running(id: nat) | Returned(id: nat, ok: bool)

  /** deliveryTarget, and its attempts that have failed since it last confirmed a packet. */
  datatype Line = Line(worker: Worker, started: nat, clock: Clock, failures: seq<Attempt>)

  /** relaySession: its pending deliveries, and whether its connection has ended. */
  datatype Session = Session(pending: int, closed: bool)

  /** Where the delivery loop stands. */
  datatype Pc =
    | Top
    | Compact(stopping: bool)
    | Scan(stopping: bool, next: nat, timer: Option<nat>, active: nat)
    | Parked(stopping: bool, timer: Option<nat>)
    | Handle(index: nat, id: nat, ok: bool)
    | Save(finished: Option<string>)
    | Write(snapshot: Queue, finished: Option<string>)
    | Close(session: string)
    | Returned

  /** Serving; every connection gone; the final dump done (or not); every writer closed. */
  datatype Phase = Serving | Drained | Dumped(ok: bool) | Down(ok: bool)

  /** saveDump fails before or after it has replaced the dump. */
  datatype SaveResult = Saved | FailedBefore | FailedAfter

  /** What was accepted: the packet, and the destinations it needs. */
  datatype Entry = Entry(record: Record, needs: set<Target>, relay: Option<Relay>)

  /** The registry of relay sessions, the sessions whose connection has ended, those such a
      connection has still to close, every session so far, those this process has prepared writers
      for, and the sessions whose writers it closed. */
  datatype Sessions = Sessions(relays: map<string, Session>, ended: set<string>, closing: set<string>, used: set<string>,
                               own: set<string>, writersClosed: multiset<string>)

  /** Packets accepted, confirmations per target, done channels this process closed, packets ever
      written to the dump, and whether every start so far followed a successful final dump. */
  datatype History = History(log: seq<Entry>, confirmed: map<Target, seq<nat>>, done: seq<nat>, dumped: set<nat>, clean: bool)

  datatype State = State(
    accepting: bool, queue: Queue, wake: bool, hasDump: bool, stored: Option<Queue>,
    cancelled: bool, pc: Pc, lines: seq<Line>, now: nat, phase: Phase,
    sessions: Sessions, past: History)

  /** What a connection does. */
  datatype ClientEvent =
    | OpenSession(session: string)
    | Enqueue(record: Record, from: Option<Relay>)
    | EndSession(session: string)
    | CloseEnded(session: string)

  /** Where the delivery loop turns, waits and looks for work. */
  datatype LoopEvent =
    | Sample
    | CompactQueue
    | ScanTarget
    | ScanEnd
    | Wake
    | WakeCancelled
    | WakeTimer
    | Receive(line: nat)

  /** What it does with a result. */
  datatype ResultEvent =
    | Settle
    | TakeSnapshot
    | StoreDump(result: SaveResult)
    | CloseFinished(ok: bool)

  /** The clock, the workers and the life of the server. */
  datatype ServerEvent =
    | Tick(elapsed: nat)
    | Attempted(line: nat, ok: bool)
    | Cancel
    | StopAccepting
    | Drain
    | FinalDump(result: SaveResult)
    | Shutdown

  datatype StartEvent = Restart | Crash

  datatype Event =
    | Client(client: ClientEvent)
    | Loop(loop: LoopEvent)
    | Result(settle: ResultEvent)
    | Server(server: ServerEvent)
    | Start(start: StartEvent)

  // ---- pieces of the steps ----

  const FRESH := Line(Idle, 0, RESET, [])

  function FreshLines(cfg: Config): (ls: seq<Line>)
    ensures |ls| == |Targets(cfg)| && forall i :: 0 <= i < |ls| ==> ls[i] == FRESH
  {
    seq(|Targets(cfg)|, _ => FRESH)
  }

  function ConfirmedBy(s: State, t: Target): seq<nat> {
    if t in s.past.confirmed then s.past.confirmed[t] else []
  }

  /** What enqueue makes of a packet. */
  datatype Answer = Stopped | Full | BadCredentials | Unrelayable | NoSession | Accepts(needs: set<Target>)

  /** The part about relaying: asked only when some EGTS destination is enabled. */
  function RelayAnswer(cfg: Config, record: Record, onSession: bool): Answer
    requires record.packet.pt == Packets.PT_APPDATA && record.packet.sfrd.AppData?
  {
    if EnabledIds(cfg.egts) == [] then Accepts(Needs(cfg, false))
    else
      match Relaying.ShouldRelay(record.packet)
      case CredentialsInData => BadCredentials
      case NotData => Unrelayable
      case Forward(yes) =>
        if yes && !onSession then NoSession else Accepts(Needs(cfg, yes))
  }

  function Admission(cfg: Config, accepting: bool, queued: nat, record: Record, onSession: bool): Answer
    requires record.packet.pt == Packets.PT_APPDATA && record.packet.sfrd.AppData?
  {
    if !accepting then Stopped
    else if queued >= cfg.capacity then Full
    else RelayAnswer(cfg, record, onSession)
  }

  function AddPending(relays: map<string, Session>, session: string, n: int): map<string, Session>
    requires session in relays
  {
    relays[session := relays[session].(pending := relays[session].pending + n)]
  }

  function Accept(s: State, record: Record, from: Option<Relay>, needs: set<Target>): State
    requires EgtsOf(needs) != {} ==> from.Some? && from.value.session in s.sessions.relays
  {
    var relay := if EgtsOf(needs) != {} then from else None;
    s.(queue := s.queue + [Item(|s.past.log|, record, needs, relay)],
       past := s.past.(log := s.past.log + [Entry(record, needs, relay)]),
       sessions := if relay.None? then s.sessions
                   else s.sessions.(relays := AddPending(s.sessions.relays, relay.value.session, |EgtsOf(needs)|)),
       wake := true)
  }

  /** The first queued packet pending for a target; |q| when there is none. */
  function FirstFor(q: Queue, t: Target): (k: nat)
    ensures k <= |q|
    ensures k < |q| ==> t in q[k].pending
    ensures forall i :: 0 <= i < k ==> t !in q[i].pending
  {
    if q == [] then 0
    else if t in q[0].pending then 0
    else 1 + FirstFor(q[1..], t)
  }

  function Earlier(a: Option<nat>, b: nat): Option<nat> {
    if a.Some? && a.value <= b then a else Some(b)
  }

  function ScanOne(cfg: Config, s: State): State
    requires |s.lines| == |Targets(cfg)| && s.pc.Scan? && s.pc.next < |s.lines|
  {
    var i, l := s.pc.next, s.lines[s.pc.next];
    var t := Targets(cfg)[i];
    if !l.worker.Idle? then s.(pc := s.pc.(next := i + 1, active := s.pc.active + 1))
    else if s.pc.stopping then s.(pc := s.pc.(next := i + 1))
    else if l.clock.retryAt.Some? && s.now < l.clock.retryAt.value then
      s.(pc := s.pc.(next := i + 1, timer := Earlier(s.pc.timer, l.clock.retryAt.value)))
    else
      var k := FirstFor(s.queue, t);
      if k == |s.queue| then s.(pc := s.pc.(next := i + 1))
      else s.(pc := s.pc.(next := i + 1, active := s.pc.active + 1),
              lines := s.lines[i := l.(worker := Running(s.queue[k].id), started := s.now)])
  }

  /** A failed attempt: stalled at the deadline, another try in a second before it; of no account
      once the server is stopping. */
  function Failed(cfg: Config, s: State): State
    requires s.pc.Handle? && s.pc.index < |s.lines|
  {
    var l := s.lines[s.pc.index];
    var v := AfterFailure(l.clock, l.started, s.now, cfg.dumpAfter);
    if s.cancelled then s.(pc := Top)
    else s.(pc := Top, cancelled := v.stalled,
            lines := s.lines[s.pc.index := l.(clock := v.clock, failures := l.failures + [Attempt(l.started, s.now)])])
  }

  /** The session of a queued packet. */
  function SessionOf(q: Queue, id: nat): Option<string> {
    if q == [] then None
    else if q[0].id == id then (if q[0].relay.Some? then Some(q[0].relay.value.session) else None)
    else SessionOf(q[1..], id)
  }

  /** A confirmed EGTS delivery comes off its session, which is finished when its connection has
      ended and nothing is left. */
  function Unload(relays: map<string, Session>, session: string): (r: (map<string, Session>, Option<string>))
    requires session in relays
  {
    var left := AddPending(relays, session, -1);
    if left[session].pending == 0 && left[session].closed then (left - {session}, Some(session)) else (left, None)
  }

  function Confirm(cfg: Config, s: State): State
    requires s.pc.Handle? && s.pc.index < |s.lines| == |Targets(cfg)|
    requires Targets(cfg)[s.pc.index].Egts? ==> SessionOf(s.queue, s.pc.id).Some? && SessionOf(s.queue, s.pc.id).value in s.sessions.relays
  {
    var i := s.pc.index;
    var t := Targets(cfg)[i];
    var (left, finished) :=
      if t.Egts? then Unload(s.sessions.relays, SessionOf(s.queue, s.pc.id).value) else (s.sessions.relays, None);
    s.(lines := s.lines[i := s.lines[i].(clock := RESET, failures := [])],
       queue := Cleared(s.queue, s.pc.id, t),
       past := s.past.(confirmed := s.past.confirmed[t := ConfirmedBy(s, t) + [s.pc.id]]),
       sessions := s.sessions.(relays := left),
       pc := Save(finished))
  }

  function AfterSave(finished: Option<string>): Pc {
    if finished.Some? then Close(finished.value) else Top
  }

  function Ids(q: Queue): set<nat> {
    set i | 0 <= i < |q| :: q[i].id
  }

  /** What the dump and hasDump are after saving, and whether it worked. */
  function Store(s: State, snapshot: Queue, result: SaveResult): State {
    if result.FailedBefore? then s
    else s.(stored := Some(snapshot), hasDump := true, past := s.past.(dumped := s.past.dumped + Ids(snapshot)))
  }

  function StoredItems(s: State): Queue {
    if s.stored.Some? then s.stored.value else []
  }

  function SessionsOf(q: Queue): set<string> {
    set i | 0 <= i < |q| && q[i].relay.Some? :: q[i].relay.value.session
  }

  /** A new process: the queue and its sessions come from the dump. */
  function Fresh(cfg: Config, s: State): State {
    var q := StoredItems(s);
    var relays := map x | x in SessionsOf(q) :: Session(Load(q, x), true);
    State(true, q, false, s.stored.Some?, s.stored, false, Top, FreshLines(cfg), s.now, Serving,
          Sessions(relays, s.sessions.used, {}, s.sessions.used, relays.Keys, multiset{}), s.past.(done := []))
  }

  // ---- the machine ----

  predicate ClientEnabled(cfg: Config, s: State, e: ClientEvent) {
    && s.phase.Serving?
    && match e
       case OpenSession(x) => x !in s.sessions.used && SessionName(x) && EnabledIds(cfg.egts) != []
       case Enqueue(record, from) =>
         && Received(record)
         && (from.Some? ==> OpenIn(s.sessions, from.value.session) && IdentityKnown(from.value.identity))
       case EndSession(x) => OpenIn(s.sessions, x)
       case CloseEnded(x) => x in s.sessions.closing
  }

  /** A session whose connection goes on. */
  predicate OpenIn(ss: Sessions, x: string) {
    x in ss.used && x !in ss.ended && x in ss.relays
  }

  function NextClient(cfg: Config, s: State, e: ClientEvent): State
    requires ClientEnabled(cfg, s, e)
  {
    match e
    case OpenSession(x) =>
      s.(sessions := s.sessions.(relays := s.sessions.relays[x := Session(0, false)], used := s.sessions.used + {x},
                                     own := s.sessions.own + {x}))
    case Enqueue(record, from) =>
      (match Admission(cfg, s.accepting, |s.queue|, record, from.Some?)
       case Accepts(needs) => Accept(s, record, from, needs)
       case _ => s)
    case EndSession(x) =>
      var ss := s.sessions.(ended := s.sessions.ended + {x});
      if ss.relays[x].pending == 0 then s.(sessions := ss.(relays := ss.relays - {x}, closing := ss.closing + {x}))
      else s.(sessions := ss.(relays := ss.relays[x := ss.relays[x].(closed := true)]))
    case CloseEnded(x) =>
      s.(sessions := s.sessions.(closing := s.sessions.closing - {x}, writersClosed := s.sessions.writersClosed + multiset{x}))
  }

  predicate LoopEnabled(cfg: Config, s: State, e: LoopEvent) {
    match e
    case Sample => s.pc.Top?
    case CompactQueue => s.pc.Compact?
    case ScanTarget => s.pc.Scan? && s.pc.next < |s.lines| == |Targets(cfg)|
    case ScanEnd => s.pc.Scan? && s.pc.next == |s.lines|
    case Wake => s.pc.Parked? && s.wake
    case WakeCancelled => s.pc.Parked? && !s.pc.stopping && s.cancelled
    case WakeTimer => s.pc.Parked? && s.pc.timer.Some? && s.now >= s.pc.timer.value
    case Receive(i) => s.pc.Parked? && i < |s.lines| && s.lines[i].worker.Returned?
  }

  function NextLoop(cfg: Config, s: State, e: LoopEvent): State
    requires LoopEnabled(cfg, s, e)
  {
    match e
    case Sample => s.(pc := Compact(s.cancelled))
    case CompactQueue =>
      s.(queue := Compacted(s.queue), past := s.past.(done := s.past.done + Delivered(s.queue)), pc := Scan(s.pc.stopping, 0, None, 0))
    case ScanTarget => ScanOne(cfg, s)
    case ScanEnd =>
      s.(pc := if s.pc.stopping && s.pc.active == 0 then Pc.Returned else Parked(s.pc.stopping, s.pc.timer))
    case Wake => s.(wake := false, pc := Top)
    case WakeCancelled => s.(pc := Top)
    case WakeTimer => s.(pc := Top)
    case Receive(i) =>
      s.(pc := Handle(i, s.lines[i].worker.id, s.lines[i].worker.ok), lines := s.lines[i := s.lines[i].(worker := Idle)])
  }

  predicate ResultEnabled(cfg: Config, s: State, e: ResultEvent) {
    match e
    case Settle =>
      && s.pc.Handle? && s.pc.index < |s.lines| == |Targets(cfg)|
      && (s.pc.ok && Targets(cfg)[s.pc.index].Egts? ==>
            SessionOf(s.queue, s.pc.id).Some? && SessionOf(s.queue, s.pc.id).value in s.sessions.relays)
    case TakeSnapshot => s.pc.Save?
    case StoreDump(_) => s.pc.Write?
    case CloseFinished(_) => s.pc.Close?
  }

  function NextResult(cfg: Config, s: State, e: ResultEvent): State
    requires ResultEnabled(cfg, s, e)
  {
    match e
    case Settle => if s.pc.ok then Confirm(cfg, s) else Failed(cfg, s)
    case TakeSnapshot => s.(pc := if s.hasDump then Write(Snapshot(s.queue), s.pc.finished) else AfterSave(s.pc.finished))
    case StoreDump(result) =>
      Store(s, s.pc.snapshot, result).(pc := AfterSave(s.pc.finished), cancelled := s.cancelled || !result.Saved?)
    case CloseFinished(ok) =>
      s.(pc := Top, cancelled := s.cancelled || !ok,
         sessions := s.sessions.(writersClosed := s.sessions.writersClosed + multiset{s.pc.session}))
  }

  predicate ServerEnabled(s: State, e: ServerEvent) {
    match e
    case Tick(_) => true
    case Attempted(i, _) => i < |s.lines| && s.lines[i].worker.Running?
    case Cancel => s.phase.Serving?
    case StopAccepting => s.phase.Serving?
    case Drain => s.phase.Serving? && !s.accepting && s.cancelled && s.sessions.closing == {} && s.sessions.used == s.sessions.ended
    case FinalDump(_) => s.phase.Drained? && s.pc.Returned?
    case Shutdown => s.phase.Dumped?
  }

  function NextServer(s: State, e: ServerEvent): State
    requires ServerEnabled(s, e)
  {
    match e
    case Tick(elapsed) => s.(now := s.now + elapsed)
    case Attempted(i, ok) => s.(lines := s.lines[i := s.lines[i].(worker := Worker.Returned(s.lines[i].worker.id, ok))])
    case Cancel => s.(cancelled := true)
    case StopAccepting => s.(accepting := false)
    case Drain => s.(phase := Drained)
    case FinalDump(result) =>
      if s.queue != [] || s.hasDump then Store(s, Snapshot(s.queue), result).(phase := Dumped(result.Saved?))
      else s.(phase := Dumped(true))
    case Shutdown =>
      s.(phase := Down(s.phase.ok),
         sessions := s.sessions.(writersClosed := s.sessions.writersClosed + multiset(s.sessions.relays.Keys)))
  }

  predicate StartEnabled(s: State, e: StartEvent) {
    e.Restart? ==> s.phase.Down? && s.phase.ok
  }

  function NextStart(cfg: Config, s: State, e: StartEvent): State {
    if e.Restart? then Fresh(cfg, s) else var r := Fresh(cfg, s); r.(past := r.past.(clean := false))
  }

  predicate Enabled(cfg: Config, s: State, e: Event) {
    match e
    case Client(c) => ClientEnabled(cfg, s, c)
    case Loop(l) => LoopEnabled(cfg, s, l)
    case Result(r) => ResultEnabled(cfg, s, r)
    case Server(v) => ServerEnabled(s, v)
    case Start(v) => StartEnabled(s, v)
  }

  function Next(cfg: Config, s: State, e: Event): State
    requires Enabled(cfg, s, e)
  {
    match e
    case Client(c) => NextClient(cfg, s, c)
    case Loop(l) => NextLoop(cfg, s, l)
    case Result(r) => NextResult(cfg, s, r)
    case Server(v) => NextServer(s, v)
    case Start(v) => NextStart(cfg, s, v)
  }

  /** The first start, with nothing dumped. */
  function Init(cfg: Config, now: nat): State {
    State(true, [], false, false, None, false, Top, FreshLines(cfg), now, Serving,
          Sessions(map[], {}, {}, {}, {}, multiset{}), History([], map[], [], {}, true))
  }

  // ---- runs ----

  ghost predicate CanStep(cfg: Config, s: State, r: State) {
    exists e :: Enabled(cfg, s, e) && r == Next(cfg, s, e)
  }

  /** Every step of the run is one the machine can take, from a first start. */
  ghost predicate Run(cfg: Config, trace: seq<State>) {
    && trace != []
    && (exists now: nat :: trace[0] == Init(cfg, now))
    && forall i :: 0 <= i < |trace| - 1 ==> StepAt(cfg, trace, i)
  }

  ghost predicate StepAt(cfg: Config, trace: seq<State>, i: nat)
    requires i + 1 < |trace|
  {
    CanStep(cfg, trace[i], trace[i + 1])
  }
}
