/** Which dumps are restored, whoever wrote them, and as what (gateway/server/dump.go:37-199). */
module DumpExact {
  import opened Bytes
  import opened Queues
  import opened Packets
  import opened Dump
  import opened Admissions
  import SortedIds
  import Relaying
  import SrTermIdentity

  /** The record names the destination; one from before EGTS destinations had names means the one
      that is enabled. */
  predicate Names(cfg: Config, r: SavedRecord, t: Target) {
    match t
    case Stdout => r.stdout
    case File => r.file
    case Egts(x) => if r.egts then EnabledIn(cfg.egts, x) else x in r.egtsIds
    case RabbitMQ(x) => x in r.rabbitIds
    case Valkey(x) => x in r.valkeyIds
  }

  predicate Available(cfg: Config, t: Target) {
    match t
    case Stdout => cfg.stdout
    case File => cfg.file
    case Egts(x) => EnabledIn(cfg.egts, x)
    case RabbitMQ(x) => EnabledIn(cfg.rabbitmq, x)
    case Valkey(x) => EnabledIn(cfg.valkey, x)
  }

  predicate NoneTwice(ids: seq<string>) {
    forall i, j :: 0 <= i < j < |ids| ==> ids[i] != ids[j]
  }

  ghost predicate JustOne(ds: seq<Destination>) {
    exists x :: EnabledIn(ds, x) && forall y :: EnabledIn(ds, y) ==> y == x
  }

  /** Nothing that its version did not know. */
  ghost predicate OfVersion(cfg: Config, version: int, r: SavedRecord) {
    && (r.egts ==> version == 2 && JustOne(cfg.egts)) && (r.egtsIds != [] ==> version >= 3)
    && (r.rabbitIds != [] ==> version >= 4) && (r.valkeyIds != [] ==> version >= 5)
  }

  /** Something to relay, on a session that can be, from a terminal known or not yet. */
  predicate RelayableRecord(r: SavedRecord) {
    && r.sessionId.Some? && |r.sessionId.value| == 32 && (forall c :: c in r.sessionId.value ==> HexDigit(c))
    && (r.identity != [] ==> SrTermIdentity.Decode(r.identity).Ok?)
    && match ReadPacket(r.raw)
       case Rejected(_, _, _) => false
       case Accepted(p) => p.sfrd.AppData? && ForRelay(p.sfrd.services) && !WithCredentials(p.sfrd.services)
  }

  ghost predicate Good(cfg: Config, version: int, r: SavedRecord) {
    && OfVersion(cfg, version, r) && ReadPacket(r.raw).Accepted?
    && NoneTwice(r.egtsIds) && NoneTwice(r.rabbitIds) && NoneTwice(r.valkeyIds)
    && (exists t :: Names(cfg, r, t)) && (forall t :: Names(cfg, r, t) ==> Available(cfg, t))
    && ((exists x :: Names(cfg, r, Egts(x))) ==> RelayableRecord(r))
  }

  /** The packet as it is queued again. */
  ghost predicate RestoredAs(cfg: Config, r: SavedRecord, x: Item) {
    && x.record.receivedAt == r.receivedAt && x.record.source == r.source && x.record.raw == r.raw
    && ReadPacket(r.raw) == Accepted(x.record.packet)
    && (forall t :: t in x.pending <==> Names(cfg, r, t))
    && (x.relay.Some? <==> exists y :: Names(cfg, r, Egts(y)))
    && (x.relay.Some? ==> r.sessionId == Some(x.relay.value.session) && r.identity == x.relay.value.identity)
  }

  // ---- the pieces ----

  lemma AvailableIds(ids: seq<string>, ds: seq<Destination>)
    ensures IdsAvailable(ids, EnabledIds(ds)) <==> NoneTwice(ids) && forall x :: x in ids ==> EnabledIn(ds, x)
  {
    forall x
      ensures x in EnabledIds(ds) <==> EnabledIn(ds, x)
    {
      EnabledExactly(ds, x);
    }
    hide EnabledIds, EnabledIn;
    assert forall i :: 0 <= i < |ids| ==> ids[i] in ids;
  }

  lemma OneEnabled(ds: seq<Destination>)
    ensures |SortedIds.Elements(EnabledIds(ds))| == 1 <==> JustOne(ds)
    ensures JustOne(ds) ==> EnabledIds(ds) != [] && forall y :: EnabledIn(ds, y) <==> y == EnabledIds(ds)[0]
  {
    var e := SortedIds.Elements(EnabledIds(ds));
    forall x
      ensures x in e <==> EnabledIn(ds, x)
    {
      EnabledExactly(ds, x);
    }
    hide EnabledIn;
    if |e| == 1 {
      var x :| x in e;
      assert |e - {x}| == 0;
      assert forall y :: y in e ==> y == x || y in e - {x};
      assert EnabledIn(ds, x) && forall y :: EnabledIn(ds, y) ==> y == x;
    }
    if JustOne(ds) {
      var x :| EnabledIn(ds, x) && forall y :: EnabledIn(ds, y) ==> y == x;
      assert e == {x};
      assert EnabledIds(ds)[0] in e;
    }
  }

  /** The EGTS destinations of a record, by name. */
  lemma EgtsNamed(cfg: Config, r: SavedRecord)
    requires r.egts ==> JustOne(cfg.egts)
    ensures forall x :: x in EgtsIdsIn(cfg, r) <==> Names(cfg, r, Egts(x))
    ensures r.egts ==> IdsAvailable(EgtsIdsIn(cfg, r), EnabledIds(cfg.egts))
    ensures EgtsIdsIn(cfg, r) != [] <==> exists x :: Names(cfg, r, Egts(x))
  {
    OneEnabled(cfg.egts);
    hide JustOne, EnabledIn;
    var ids := EgtsIdsIn(cfg, r);
    if ids != [] {
      assert ids[0] in ids;
    }
  }

  lemma RestorableExactly(cfg: Config, version: int, r: SavedRecord)
    ensures Restorable(cfg, version, r)
            <==> && OfVersion(cfg, version, r) && NoneTwice(r.egtsIds) && NoneTwice(r.rabbitIds) && NoneTwice(r.valkeyIds)
                 && (exists t :: Names(cfg, r, t)) && (forall t :: Names(cfg, r, t) ==> Available(cfg, t))
  {
    OneEnabled(cfg.egts);
    if r.egts ==> JustOne(cfg.egts) {
      AvailableIds(r.egtsIds, cfg.egts);
      AvailableIds(r.rabbitIds, cfg.rabbitmq);
      AvailableIds(r.valkeyIds, cfg.valkey);
      EgtsNamed(cfg, r);
      SomeNamed(cfg, r);
      AllAvailable(cfg, r);
      hide EnabledIds, EnabledIn, JustOne, IdsAvailable, NoneTwice, Available;
      if r.egts {
        assert r.egtsIds == [] ==> NoneTwice(r.egtsIds) by {
          Nobody(r.egtsIds);
        }
      }
    }
  }

  lemma Nobody(ids: seq<string>)
    ensures ids == [] ==> NoneTwice(ids)
  {
  }

  lemma AllAvailable(cfg: Config, r: SavedRecord)
    ensures (forall t :: Names(cfg, r, t) ==> Available(cfg, t))
            <==> && (r.stdout ==> cfg.stdout) && (r.file ==> cfg.file)
                 && (forall x :: Names(cfg, r, Egts(x)) ==> EnabledIn(cfg.egts, x))
                 && (forall x :: x in r.rabbitIds ==> EnabledIn(cfg.rabbitmq, x))
                 && (forall x :: x in r.valkeyIds ==> EnabledIn(cfg.valkey, x))
  {
    hide EnabledIn;
    if forall t :: Names(cfg, r, t) ==> Available(cfg, t) {
      assert Names(cfg, r, Stdout) ==> Available(cfg, Stdout);
      assert Names(cfg, r, File) ==> Available(cfg, File);
      forall x | Names(cfg, r, Egts(x))
        ensures EnabledIn(cfg.egts, x)
      {
        assert Available(cfg, Egts(x));
      }
      forall x | x in r.rabbitIds
        ensures EnabledIn(cfg.rabbitmq, x)
      {
        assert Names(cfg, r, RabbitMQ(x)) && Available(cfg, RabbitMQ(x));
      }
      forall x | x in r.valkeyIds
        ensures EnabledIn(cfg.valkey, x)
      {
        assert Names(cfg, r, Valkey(x)) && Available(cfg, Valkey(x));
      }
    }
  }

  lemma SomeNamed(cfg: Config, r: SavedRecord)
    ensures (exists t :: Names(cfg, r, t))
            <==> r.stdout || r.file || (exists x :: Names(cfg, r, Egts(x))) || r.rabbitIds != [] || r.valkeyIds != []
  {
    if r.stdout {
      assert Names(cfg, r, Stdout);
    }
    if r.file {
      assert Names(cfg, r, File);
    }
    if r.rabbitIds != [] {
      assert Names(cfg, r, RabbitMQ(r.rabbitIds[0]));
    }
    if r.valkeyIds != [] {
      assert Names(cfg, r, Valkey(r.valkeyIds[0]));
    }
    if t :| Names(cfg, r, t) {
      match t
      case Egts(x) => assert Names(cfg, r, Egts(x));
      case _ =>
    }
  }

  lemma RelaySoundExactly(r: SavedRecord, p: Packet)
    requires ReadPacket(r.raw) == Accepted(p)
    ensures (p.pt == PT_APPDATA ==> p.sfrd.AppData?) && (RelaySound(r, p) <==> RelayableRecord(r))
    ensures RelayableRecord(r) ==> r.sessionId.Some?
  {
    DataIsThere(r.raw, p);
    if p.sfrd.AppData? {
      RelayExactly(p.sfrd.services);
    }
    hide ReadPacket, SrTermIdentity.Decode, ForRelay, WithCredentials, Relaying.HasRelayData, Relaying.HasCredentials;
    if r.sessionId.Some? {
      var c := r.sessionId.value;
      assert (forall i :: 0 <= i < |c| ==> HexDigit(c[i])) <==> forall x :: x in c ==> HexDigit(x);
    }
  }

  lemma TargetsOf(cfg: Config, r: SavedRecord, ids: seq<string>, t: Target)
    requires forall x :: x in ids <==> Names(cfg, r, Egts(x))
    ensures t in TargetSet(r.stdout, r.file, SortedIds.Elements(ids), SortedIds.Elements(r.rabbitIds), SortedIds.Elements(r.valkeyIds))
            <==> Names(cfg, r, t)
  {
    hide TargetSet;
    InTargetSet(t, r.stdout, r.file, SortedIds.Elements(ids), SortedIds.Elements(r.rabbitIds), SortedIds.Elements(r.valkeyIds));
  }

  lemma OneExactly(cfg: Config, version: int, r: SavedRecord)
    ensures RestoreOne(cfg, version, r).Ok? <==> Good(cfg, version, r)
    ensures RestoreOne(cfg, version, r).Ok? ==> RestoredAs(cfg, r, RestoreOne(cfg, version, r).value)
  {
    hide ReadPacket, Restorable, TargetSet, Names, Available, RelaySound, RelayableRecord, NoneTwice, EgtsIdsIn;
    RestorableExactly(cfg, version, r);
    if OfVersion(cfg, version, r) {
      EgtsNamed(cfg, r);
      var ids := EgtsIdsIn(cfg, r);
      forall t
        ensures t in TargetSet(r.stdout, r.file, SortedIds.Elements(ids), SortedIds.Elements(r.rabbitIds), SortedIds.Elements(r.valkeyIds))
                <==> Names(cfg, r, t)
      {
        TargetsOf(cfg, r, ids, t);
      }
      hide OfVersion;
      match ReadPacket(r.raw)
      case Rejected(_, _, _) =>
      case Accepted(p) => RelaySoundExactly(r, p);
    }
  }

  // ---- the whole dump ----

  ghost predicate AllGood(cfg: Config, version: int, rs: seq<SavedRecord>) {
    |rs| <= cfg.capacity && forall i :: 0 <= i < |rs| ==> Good(cfg, version, rs[i])
  }

  ghost predicate AllRestored(cfg: Config, rs: seq<SavedRecord>, q: Queue) {
    |q| == |rs| && forall i :: 0 <= i < |rs| ==> RestoredAs(cfg, rs[i], q[i])
  }

  lemma {:induction false} AllExactly(cfg: Config, version: int, rs: seq<SavedRecord>)
    ensures RestoreAll(cfg, version, rs).Ok? <==> AllGood(cfg, version, rs)
    ensures RestoreAll(cfg, version, rs).Ok? ==> AllRestored(cfg, rs, RestoreAll(cfg, version, rs).value)
    decreases |rs|
  {
    hide RestoreOne, Good, RestoredAs;
    if rs != [] {
      var n := |rs| - 1;
      AllExactly(cfg, version, rs[..n]);
      OneExactly(cfg, version, rs[n]);
    }
  }

  /** A dump is restored exactly when its version is known, its records are no more than the queue
      holds, and each is good: it names destinations that are enabled, each once and of a kind its
      version knew, at least one; its packet reads; and with an EGTS destination it is one to relay, on
      a session that can be, from a terminal known or not yet. Each packet is then queued in its place
      with just those destinations. */
  lemma RestoresExactly(cfg: Config, file: DumpFile)
    ensures Restore(cfg, file).Ok? <==> 1 <= file.version <= 5 && AllGood(cfg, file.version, file.records)
    ensures Restore(cfg, file).Ok? ==> AllRestored(cfg, file.records, Restore(cfg, file).value.queue)
  {
    hide RestoreAll, AllGood, AllRestored, SessionTable;
    AllExactly(cfg, file.version, file.records);
  }

  /** A dump is written under the oldest version that knows every kind of destination enabled. */
  lemma VersionExactly(cfg: Config)
    ensures Version(cfg) == 5 <==> Admissions.AnyEnabled(cfg.valkey)
    ensures Version(cfg) == 4 <==> Admissions.AnyEnabled(cfg.rabbitmq) && !Admissions.AnyEnabled(cfg.valkey)
    ensures Version(cfg) == 3 <==> Admissions.AnyEnabled(cfg.egts) && !Admissions.AnyEnabled(cfg.rabbitmq) && !Admissions.AnyEnabled(cfg.valkey)
    ensures Version(cfg) == 1 <==> !Admissions.AnyEnabled(cfg.egts) && !Admissions.AnyEnabled(cfg.rabbitmq) && !Admissions.AnyEnabled(cfg.valkey)
  {
    hide EnabledIds, Admissions.AnyEnabled;
    SomeEnabled(cfg.egts);
    SomeEnabled(cfg.rabbitmq);
    SomeEnabled(cfg.valkey);
  }
}
