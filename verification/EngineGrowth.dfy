/** What never shrinks: the packets accepted, the confirmations had, and the open sessions while the
    engine works for itself. */
module EngineGrowth {
  import opened Bytes
  import opened Queues
  import opened Engine

  ghost predicate Grows(s: State, r: State) {
    && s.past.log <= r.past.log
    && forall t, id :: id in ConfirmedBy(s, t) ==> id in ConfirmedBy(r, t)
  }

  lemma SamePast(s: State, r: State)
    requires r.past.log == s.past.log && r.past.confirmed == s.past.confirmed
    ensures Grows(s, r)
  {
    assert forall t :: ConfirmedBy(s, t) == ConfirmedBy(r, t);
  }

  lemma MoreLogged(s: State, r: State)
    requires s.past.log <= r.past.log && r.past.confirmed == s.past.confirmed
    ensures Grows(s, r)
  {
    assert forall t :: ConfirmedBy(s, t) == ConfirmedBy(r, t);
  }

  lemma EnqueueServes(cfg: Config, s: State, record: Record, from: Option<Relay>)
    requires ClientEnabled(cfg, s, Enqueue(record, from))
    ensures var r := NextClient(cfg, s, Enqueue(record, from));
            && s.past.log <= r.past.log && r.past.confirmed == s.past.confirmed && r.phase == s.phase
            && r.sessions.used == s.sessions.used && r.sessions.ended == s.sessions.ended
  {
    hide Admission, AddPending, EgtsOf, Received, IdentityKnown;
  }

  lemma SessionServes(cfg: Config, s: State, e: ClientEvent)
    requires ClientEnabled(cfg, s, e) && !e.Enqueue?
    ensures var r := NextClient(cfg, s, e); r.past == s.past && r.phase == s.phase
    ensures e.CloseEnded? ==> var r := NextClient(cfg, s, e); r.sessions.used == s.sessions.used && r.sessions.ended == s.sessions.ended
  {
    hide Admission, Accept;
  }

  lemma ClientGrows(cfg: Config, s: State, e: ClientEvent)
    requires ClientEnabled(cfg, s, e)
    ensures Grows(s, NextClient(cfg, s, e))
  {
    hide ClientEnabled, NextClient, Grows;
    if e.Enqueue? {
      EnqueueServes(cfg, s, e.record, e.from);
    } else {
      SessionServes(cfg, s, e);
    }
    MoreLogged(s, NextClient(cfg, s, e));
  }

  lemma ResultGrows(cfg: Config, s: State, e: ResultEvent)
    requires ResultEnabled(cfg, s, e)
    ensures Grows(s, NextResult(cfg, s, e))
  {
    hide Targets, Cleared, Unload, SessionOf, Ids, Snapshot;
    var r := NextResult(cfg, s, e);
    if e.Settle? && s.pc.ok {
      forall t, id | id in ConfirmedBy(s, t)
        ensures id in ConfirmedBy(r, t)
      {
      }
    } else {
      SamePast(s, r);
    }
  }

  lemma LoopGrows(cfg: Config, s: State, e: LoopEvent)
    requires LoopEnabled(cfg, s, e)
    ensures Grows(s, NextLoop(cfg, s, e))
  {
    hide Targets, Compacted, Delivered, FirstFor, Earlier;
    SamePast(s, NextLoop(cfg, s, e));
  }

  lemma ServerGrows(s: State, e: ServerEvent)
    requires ServerEnabled(s, e)
    ensures Grows(s, NextServer(s, e))
  {
    hide Ids, Snapshot;
    SamePast(s, NextServer(s, e));
  }

  lemma StartGrows(cfg: Config, s: State, e: StartEvent)
    ensures Grows(s, NextStart(cfg, s, e))
  {
    hide Targets, FreshLines, SessionsOf;
    SamePast(s, NextStart(cfg, s, e));
  }

  lemma StepGrows(cfg: Config, s: State, e: Event)
    requires Enabled(cfg, s, e)
    ensures Grows(s, Next(cfg, s, e))
  {
    hide Grows, ClientEnabled, LoopEnabled, ResultEnabled, ServerEnabled, NextClient, NextLoop, NextResult, NextServer, NextStart;
    match e
    case Client(c) => ClientGrows(cfg, s, c);
    case Loop(l) => LoopGrows(cfg, s, l);
    case Result(r) => ResultGrows(cfg, s, r);
    case Server(v) => ServerGrows(s, v);
    case Start(v) => StartGrows(cfg, s, v);
  }

  lemma LoopServes(cfg: Config, s: State, e: LoopEvent)
    requires LoopEnabled(cfg, s, e)
    ensures var r := NextLoop(cfg, s, e); r.sessions == s.sessions && r.phase == s.phase
  {
    hide Targets, Compacted, Delivered, FirstFor, Earlier;
  }

  lemma ResultServes(cfg: Config, s: State, e: ResultEvent)
    requires ResultEnabled(cfg, s, e)
    ensures var r := NextResult(cfg, s, e);
            r.sessions.used == s.sessions.used && r.sessions.ended == s.sessions.ended && r.phase == s.phase
  {
    hide Targets, Ids, Snapshot, Cleared, SessionOf, Unload;
  }

  /** Steps inside the engine leave open sessions open, and end the serving only by a drain. */
  lemma InsideServes(cfg: Config, s: State, e: Event)
    requires Enabled(cfg, s, e) && !e.Start? && (e.Client? ==> e.client.CloseEnded?)
    ensures var r := Next(cfg, s, e); r.sessions.used == s.sessions.used && r.sessions.ended == s.sessions.ended
    ensures s.phase.Serving? && e != Server(Drain) ==> Next(cfg, s, e).phase.Serving?
  {
    hide NextClient, NextLoop, NextResult, NextServer, ClientEnabled, LoopEnabled, ResultEnabled, ServerEnabled;
    match e
    case Client(c) => SessionServes(cfg, s, c);
    case Loop(l) => LoopServes(cfg, s, l);
    case Result(r) => ResultServes(cfg, s, r);
    case Server(v) => ServerServes(s, v);
  }

  lemma ServerServes(s: State, e: ServerEvent)
    requires ServerEnabled(s, e)
    ensures var r := NextServer(s, e);
            && r.sessions.used == s.sessions.used && r.sessions.ended == s.sessions.ended
            && (s.phase.Serving? && !e.Drain? ==> r.phase.Serving?)
  {
    hide Ids, Snapshot;
  }

  lemma PhaseStays(cfg: Config, s: State, e: ClientEvent)
    requires ClientEnabled(cfg, s, e)
    ensures NextClient(cfg, s, e).phase == s.phase
    ensures e.Enqueue? ==> var r := NextClient(cfg, s, e); r.sessions.used == s.sessions.used && r.sessions.ended == s.sessions.ended
  {
    hide ClientEnabled, NextClient;
    if e.Enqueue? {
      EnqueueServes(cfg, s, e.record, e.from);
    } else {
      SessionServes(cfg, s, e);
    }
  }
}
