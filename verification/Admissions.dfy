/** Which packets are taken in, and for which destinations: by configuration and packet alone
    (gateway/server/queue.go:46-101, gateway/server/relay.go:82-106). */
module Admissions {
  import opened Bytes
  import S = Subrecords
  import opened Packets
  import opened Queues
  import opened Engine
  import opened EngineDelivery
  import EngineTheorems
  import EngineTurns
  import Relaying

  /** A destination of that identifier is enabled. */
  predicate EnabledIn(ds: seq<Destination>, id: string) {
    exists d :: d in ds && d.enabled && d.id == id
  }

  predicate AnyEnabled(ds: seq<Destination>) {
    exists d :: d in ds && d.enabled
  }

  /** The packet has no service record, or one outside authorization that is empty or holds something
      other than confirmations. */
  predicate ForRelay(ss: Frame) {
    ss == [] ||
    exists s :: s in ss && !(s.sst == SERVICE_AUTH && s.rst == SERVICE_AUTH)
                && (s.rd == [] || exists r :: r in s.rd && r.srt != S.RECORD_RESPONSE)
  }

  predicate WithCredentials(ss: Frame) {
    exists s :: s in ss && exists r :: r in s.rd && r.srt == S.AUTH_INFO
  }

  /** The destination is enabled, and the packet one for it. */
  predicate Wanted(cfg: Config, ss: Frame, t: Target) {
    match t
    case Stdout => cfg.stdout
    case File => cfg.file
    case Egts(id) => EnabledIn(cfg.egts, id) && ForRelay(ss)
    case RabbitMQ(id) => EnabledIn(cfg.rabbitmq, id)
    case Valkey(id) => EnabledIn(cfg.valkey, id)
  }

  /** The outcome, in the order of the checks. */
  ghost predicate Judged(cfg: Config, accepting: bool, queued: nat, ss: Frame, onSession: bool, a: Answer) {
    var relayed := AnyEnabled(cfg.egts) && ForRelay(ss);
    && (a == Stopped <==> !accepting)
    && (a == Full <==> accepting && queued >= cfg.capacity)
    && (a == BadCredentials <==> accepting && queued < cfg.capacity && relayed && WithCredentials(ss))
    && (a == NoSession <==> accepting && queued < cfg.capacity && relayed && !WithCredentials(ss) && !onSession)
    && (a.Accepts? <==> accepting && queued < cfg.capacity && (relayed ==> !WithCredentials(ss) && onSession))
    && (a.Accepts? ==> forall t :: t in a.needs <==> Wanted(cfg, ss, t))
  }

  lemma {:induction false} EnabledExactly(ds: seq<Destination>, id: string)
    ensures id in EnabledIds(ds) <==> EnabledIn(ds, id)
  {
    if ds != [] {
      var n := |ds| - 1;
      EnabledExactly(ds[..n], id);
      assert ds == ds[..n] + [ds[n]];
    }
  }

  lemma SomeEnabled(ds: seq<Destination>)
    ensures EnabledIds(ds) != [] <==> AnyEnabled(ds)
  {
    if EnabledIds(ds) != [] {
      EnabledExactly(ds, EnabledIds(ds)[0]);
    }
    if AnyEnabled(ds) {
      var d :| d in ds && d.enabled;
      EnabledExactly(ds, d.id);
    }
  }

  lemma RelayExactly(ss: Frame)
    ensures Relaying.HasRelayData(ss) <==> ForRelay(ss)
    ensures Relaying.HasCredentials(ss) <==> WithCredentials(ss)
  {
    forall i | 0 <= i < |ss|
      ensures Relaying.CarriesData(ss[i])
              <==> !(ss[i].sst == SERVICE_AUTH && ss[i].rst == SERVICE_AUTH)
                   && (ss[i].rd == [] || exists r :: r in ss[i].rd && r.srt != S.RECORD_RESPONSE)
      ensures Relaying.CarriesCredentials(ss[i]) <==> exists r :: r in ss[i].rd && r.srt == S.AUTH_INFO
    {
    }
  }

  lemma NeedsExactly(cfg: Config, ss: Frame, t: Target)
    ensures t in Needs(cfg, ForRelay(ss)) <==> Wanted(cfg, ss, t)
    ensures !AnyEnabled(cfg.egts) ==> (t in Needs(cfg, false) <==> Wanted(cfg, ss, t))
  {
    match t
    case Stdout =>
    case File =>
    case Egts(id) => EnabledExactly(cfg.egts, id);
    case RabbitMQ(id) => EnabledExactly(cfg.rabbitmq, id);
    case Valkey(id) => EnabledExactly(cfg.valkey, id);
  }

  lemma AdmissionExactly(cfg: Config, accepting: bool, queued: nat, record: Record, onSession: bool)
    requires record.packet.pt == PT_APPDATA && record.packet.sfrd.AppData?
    ensures Judged(cfg, accepting, queued, record.packet.sfrd.services, onSession, Admission(cfg, accepting, queued, record, onSession))
  {
    hide Needs, EnabledIds, Relaying.HasRelayData, Relaying.HasCredentials, ForRelay, WithCredentials, AnyEnabled, Wanted;
    var ss := record.packet.sfrd.services;
    SomeEnabled(cfg.egts);
    RelayExactly(ss);
    forall t
      ensures t in Needs(cfg, ForRelay(ss)) <==> Wanted(cfg, ss, t)
      ensures !AnyEnabled(cfg.egts) ==> (t in Needs(cfg, false) <==> Wanted(cfg, ss, t))
    {
      NeedsExactly(cfg, ss, t);
    }
  }

  // ---- what was accepted ----

  /** An entry is a packet received, for just the destinations that want it. */
  ghost predicate Proper(cfg: Config, x: Entry) {
    Received(x.record) && forall t :: t in x.needs <==> Wanted(cfg, x.record.packet.sfrd.services, t)
  }

  ghost predicate ProperLog(cfg: Config, s: State) {
    forall id :: 0 <= id < |s.past.log| ==> Proper(cfg, s.past.log[id])
  }

  lemma ClientProper(cfg: Config, s: State, e: ClientEvent)
    requires ClientEnabled(cfg, s, e) && ProperLog(cfg, s)
    ensures ProperLog(cfg, NextClient(cfg, s, e))
  {
    hide Targets, Admission, EgtsOf, AddPending, OpenIn, IdentityKnown, Wanted, Received;
    if e.Enqueue? {
      RecordIsData(e.record);
      AdmissionExactly(cfg, s.accepting, |s.queue|, e.record, e.from.Some?);
    }
  }

  lemma RecordIsData(record: Record)
    ensures Received(record) ==> record.packet.pt == PT_APPDATA && record.packet.sfrd.AppData?
  {
  }

  lemma StepProper(cfg: Config, s: State, e: Event)
    requires Enabled(cfg, s, e) && ProperLog(cfg, s)
    ensures ProperLog(cfg, Next(cfg, s, e))
  {
    hide Proper, NextClient, ClientEnabled, NextLoop, LoopEnabled, NextResult, ResultEnabled, NextServer, ServerEnabled, NextStart;
    match e
    case Client(c) => ClientProper(cfg, s, c);
    case Loop(l) => LoopLog(cfg, s, l);
    case Result(r) => ResultLog(cfg, s, r);
    case Server(v) => ServerLog(s, v);
    case Start(v) => StartLog(cfg, s, v);
  }

  lemma LoopLog(cfg: Config, s: State, e: LoopEvent)
    requires LoopEnabled(cfg, s, e)
    ensures NextLoop(cfg, s, e).past.log == s.past.log
  {
    hide Targets, Compacted, Delivered, ScanOne, EngineTurns.Due, EngineTurns.Started, EngineTurns.InBackOff;
    if e.ScanTarget? {
      EngineTurns.ScanExactly(cfg, s);
    }
  }

  lemma ResultLog(cfg: Config, s: State, e: ResultEvent)
    requires ResultEnabled(cfg, s, e)
    ensures NextResult(cfg, s, e).past.log == s.past.log
  {
    hide Targets, Snapshot, Ids, Cleared, Unload, SessionOf;
  }

  lemma ServerLog(s: State, e: ServerEvent)
    requires ServerEnabled(s, e)
    ensures NextServer(s, e).past.log == s.past.log
  {
    hide Snapshot, Ids;
  }

  lemma StartLog(cfg: Config, s: State, e: StartEvent)
    ensures NextStart(cfg, s, e).past.log == s.past.log
  {
    hide Targets, Load;
  }

  lemma {:induction false} RunProper(cfg: Config, trace: seq<State>, n: nat)
    requires Run(cfg, trace) && n < |trace|
    ensures ProperLog(cfg, trace[n])
    decreases n
  {
    hide Enabled, Next, Run, Proper;
    if n == 0 {
      NothingLogged(cfg, trace);
    } else {
      RunProper(cfg, trace, n - 1);
      var e := EngineTurns.StepOf(cfg, trace, n - 1);
      StepProper(cfg, trace[n - 1], e);
    }
  }

  lemma NothingLogged(cfg: Config, trace: seq<State>)
    requires Run(cfg, trace)
    ensures trace != [] && trace[0].past.log == []
  {
    hide Targets;
  }

  /** In every run: what is in the log was received, and is for stdout, file, RabbitMQ and Valkey
      exactly when they are enabled, and for an EGTS destination exactly when that is enabled and the
      packet holds something to relay. While every start was a clean one, each destination that wants
      it has confirmed it or has it queued; and after a good stop it is confirmed or in the dump. */
  lemma WantedIsKept(cfg: Config, trace: seq<State>, n: nat, id: nat, t: Target)
    requires ValidConfig(cfg) && Run(cfg, trace) && n < |trace| && id < |trace[n].past.log|
    ensures var s := trace[n]; var x := s.past.log[id];
            && Received(x.record) && (t in x.needs <==> Wanted(cfg, x.record.packet.sfrd.services, t))
            && (s.past.clean && Wanted(cfg, x.record.packet.sfrd.services, t) ==>
                  && (id in ConfirmedBy(s, t) || Holds(s.queue, id, t))
                  && (s.phase == Down(true) ==> id in ConfirmedBy(s, t) || Holds(StoredItems(s), id, t)))
  {
    hide Run, Holds, Wanted, Received;
    RunProper(cfg, trace, n);
    assert Proper(cfg, trace[n].past.log[id]);
    if trace[n].past.clean && t in trace[n].past.log[id].needs {
      EngineTheorems.NothingLost(cfg, trace, n, id, t);
    }
  }
}
