/** The dump of the queue: saveDump and restoreDump (gateway/server/dump.go). The file is its
    version and its records; how they are written as JSON lines is left to the JSON library. */
module Dump {
  import opened Bytes
  import opened Queues
  import opened SortedIds
  import Relaying
  import Packets
  import SrTermIdentity
  import Engine

  datatype SavedRecord = SavedRecord(
    receivedAt: int, source: Source, raw: seq<byte>, stdout: bool, file: bool,
    egts: bool, egtsIds: seq<string>, rabbitIds: seq<string>, valkeyIds: seq<string>,
    sessionId: Option<string>, identity: seq<byte>)

  datatype DumpFile = DumpFile(version: int, records: seq<SavedRecord>)

  datatype Restored = Restored(queue: Queue, relays: map<string, Engine.Session>)

  // ---- saving ----

  function EgtsIds(ts: set<Target>): set<string> {
    set t | t in ts && t.Egts? :: t.id
  }

  function RabbitIds(ts: set<Target>): set<string> {
    set t | t in ts && t.RabbitMQ? :: t.id
  }

  function ValkeyIds(ts: set<Target>): set<string> {
    set t | t in ts && t.Valkey? :: t.id
  }

  lemma {:induction false} Listable(ids: set<string>)
    ensures exists s :: Sorted(s) && Elements(s) == ids
  {
    if ids == {} {
      assert Sorted([]) && Elements([]) == ids;
    } else {
      var x :| x in ids;
      Listable(ids - {x});
      var s :| Sorted(s) && Elements(s) == ids - {x};
      assert x !in Elements(s);
      assert Elements(Insert(s, x)) == Elements(s) + {x} == ids;
    }
  }

  ghost function Listed(ids: set<string>): (s: seq<string>)
    ensures Sorted(s) && Elements(s) == ids
  {
    Listable(ids);
    var s :| Sorted(s) && Elements(s) == ids;
    s
  }

  /** The record of a packet; the session is named only with pending EGTS destinations. */
  ghost function SaveOne(x: Item): SavedRecord {
    var relay := if EgtsOf(x.pending) != {} then x.relay else None;
    SavedRecord(x.record.receivedAt, x.record.source, x.record.raw, Stdout in x.pending, File in x.pending,
                false, Listed(EgtsIds(x.pending)), Listed(RabbitIds(x.pending)), Listed(ValkeyIds(x.pending)),
                if relay.Some? then Some(relay.value.session) else None, if relay.Some? then relay.value.identity else [])
  }

  ghost function SaveAll(q: Queue): seq<SavedRecord> {
    if q == [] then []
    else SaveAll(q[..|q| - 1]) + (if q[|q| - 1].pending == {} then [] else [SaveOne(q[|q| - 1])])
  }

  /** The oldest version that knows every kind of destination enabled. */
  function Version(cfg: Config): int {
    if EnabledIds(cfg.valkey) != [] then 5
    else if EnabledIds(cfg.rabbitmq) != [] then 4
    else if EnabledIds(cfg.egts) != [] then 3
    else 1
  }

  ghost function Save(cfg: Config, q: Queue): DumpFile {
    DumpFile(Version(cfg), SaveAll(q))
  }

  method AnyEnabled(ds: seq<Destination>) returns (any: bool)
    ensures any <==> EnabledIds(ds) != []
  {
    any := false;
    for n := 0 to |ds|
      invariant any <==> EnabledIds(ds[..n]) != []
    {
      assert ds[..n + 1][..n] == ds[..n];
      if ds[n].enabled {
        any := true;
      }
    }
    assert ds[..|ds|] == ds;
  }

  method SaveRecord(x: Item) returns (r: SavedRecord)
    ensures r == SaveOne(x)
  {
    var egts, rabbits, valkeys := EgtsIds(x.pending), RabbitIds(x.pending), ValkeyIds(x.pending);
    var egtsList := List(egts);
    var rabbitList := List(rabbits);
    var valkeyList := List(valkeys);
    SortedIsUnique(egtsList, Listed(egts));
    SortedIsUnique(rabbitList, Listed(rabbits));
    SortedIsUnique(valkeyList, Listed(valkeys));
    r := SavedRecord(x.record.receivedAt, x.record.source, x.record.raw, Stdout in x.pending, File in x.pending,
                     false, egtsList, rabbitList, valkeyList, None, []);
    if EgtsOf(x.pending) != {} && x.relay.Some? {
      r := r.(sessionId := Some(x.relay.value.session), identity := x.relay.value.identity);
    }
  }

  method SaveDump(cfg: Config, q: Queue) returns (file: DumpFile)
    ensures file == Save(cfg, q)
  {
    var records: seq<SavedRecord> := [];
    for n := 0 to |q|
      invariant records == SaveAll(q[..n])
    {
      assert q[..n + 1][..n] == q[..n];
      if q[n].pending != {} {
        var saved := SaveRecord(q[n]);
        records := records + [saved];
      }
    }
    assert q[..|q|] == q;
    var version := 1;
    var any := AnyEnabled(cfg.egts);
    if any {
      version := 3;
    }
    any := AnyEnabled(cfg.rabbitmq);
    if any {
      version := 4;
    }
    any := AnyEnabled(cfg.valkey);
    if any {
      version := 5;
    }
    file := DumpFile(version, records);
  }

  // ---- restoring ----

  predicate IdsAvailable(ids: seq<string>, enabled: seq<string>) {
    && (forall i :: 0 <= i < |ids| ==> ids[i] in enabled)
    && forall i, j :: 0 <= i < j < |ids| ==> ids[i] != ids[j]
  }

  function NewRecord(receivedAt: int, source: Source, raw: seq<byte>): Result<Record> {
    match Packets.ReadPacket(raw)
    case Accepted(p) => Ok(Record(receivedAt, source, raw, p))
    case Rejected(_, _, _) => Err
  }

  predicate RelaySound(r: SavedRecord, p: Packets.Packet)
    requires p.pt == Packets.PT_APPDATA ==> p.sfrd.AppData?
  {
    && r.sessionId.Some? && SessionName(r.sessionId.value)
    && IdentityKnown(r.identity)
    && Relaying.ShouldRelay(p) == Relaying.Forward(true)
  }

  /** A dump from before EGTS destinations had names leaves its one destination to be found. */
  function EgtsIdsIn(cfg: Config, r: SavedRecord): seq<string> {
    if r.egts && EnabledIds(cfg.egts) != [] then [EnabledIds(cfg.egts)[0]] else r.egtsIds
  }

  predicate Restorable(cfg: Config, version: int, r: SavedRecord) {
    && (version < 3 ==> r.egtsIds == [])
    && (r.egts ==> version == 2 && |Elements(EnabledIds(cfg.egts))| == 1)
    && var ids := EgtsIdsIn(cfg, r);
       && (r.stdout || r.file || ids != [] || r.rabbitIds != [] || r.valkeyIds != [])
       && (r.stdout ==> cfg.stdout) && (r.file ==> cfg.file)
       && IdsAvailable(ids, EnabledIds(cfg.egts))
       && (version < 4 ==> r.rabbitIds == []) && IdsAvailable(r.rabbitIds, EnabledIds(cfg.rabbitmq))
       && (version < 5 ==> r.valkeyIds == []) && IdsAvailable(r.valkeyIds, EnabledIds(cfg.valkey))
  }

  /** The packet of a record; it is given its identifier by its place. */
  function RestoreOne(cfg: Config, version: int, r: SavedRecord): Result<Item> {
    if !Restorable(cfg, version, r) then Err
    else
      var record :- NewRecord(r.receivedAt, r.source, r.raw);
      var ids := EgtsIdsIn(cfg, r);
      var pending := TargetSet(r.stdout, r.file, Elements(ids), Elements(r.rabbitIds), Elements(r.valkeyIds));
      if ids == [] then Ok(Item(0, record, pending, None))
      else
        Packets.DataIsThere(r.raw, record.packet);
        if !RelaySound(r, record.packet) then Err
        else Ok(Item(0, record, pending, Some(Relay(r.sessionId.value, r.identity))))
  }

  function RestoreAll(cfg: Config, version: int, rs: seq<SavedRecord>): Result<Queue> {
    if rs == [] then Ok([])
    else
      var q :- RestoreAll(cfg, version, rs[..|rs| - 1]);
      if |q| >= cfg.capacity then Err
      else
        var x :- RestoreOne(cfg, version, rs[|rs| - 1]);
        Ok(q + [x])
  }

  /** The first packet of a session registers it, ended; each adds its pending deliveries. */
  function AddSession(relays: map<string, Engine.Session>, x: Item): map<string, Engine.Session> {
    if x.relay.None? then relays
    else
      var id := x.relay.value.session;
      var before := if id in relays then relays[id].pending else 0;
      relays[id := Engine.Session(before + |EgtsOf(x.pending)|, true)]
  }

  function SessionTable(q: Queue): map<string, Engine.Session> {
    if q == [] then map[] else AddSession(SessionTable(q[..|q| - 1]), q[|q| - 1])
  }

  function Restore(cfg: Config, file: DumpFile): Result<Restored> {
    if file.version < 1 || file.version > 5 then Err
    else
      var q :- RestoreAll(cfg, file.version, file.records);
      Ok(Restored(q, SessionTable(q)))
  }

  /** dump.go:107-119 and its likes for the other kinds. */
  method CheckIds(ids: seq<string>, enabled: seq<string>) returns (ok: bool, seen: set<string>)
    ensures ok <==> IdsAvailable(ids, enabled)
    ensures ok ==> seen == Elements(ids)
  {
    seen := {};
    for n := 0 to |ids|
      invariant IdsAvailable(ids[..n], enabled) && seen == Elements(ids[..n])
    {
      var id := ids[n];
      if id !in enabled || id in seen {
        assert !IdsAvailable(ids, enabled) by {
          if id in enabled {
            assert id in ids[..n];
          }
        }
        return false, {};
      }
      seen := seen + {id};
    }
    assert ids[..|ids|] == ids;
    ok := true;
  }

  /** dump.go:84-188 for one record. */
  method RestoreRecord(cfg: Config, version: int, saved: SavedRecord) returns (r: Result<Item>)
    ensures r == RestoreOne(cfg, version, saved)
  {
    hide Packets.ReadPacket, SrTermIdentity.Decode;
    var enabled, rabbits, valkeys := EnabledIds(cfg.egts), EnabledIds(cfg.rabbitmq), EnabledIds(cfg.valkey);
    if version < 3 && |saved.egtsIds| > 0 {
      return Err;
    }
    var ids := saved.egtsIds;
    if saved.egts {
      if version != 2 || |Elements(enabled)| != 1 {
        return Err;
      }
      ids := [enabled[0]];
    }
    if (!saved.stdout && !saved.file && |ids| == 0 && |saved.rabbitIds| == 0 && |saved.valkeyIds| == 0)
       || (saved.stdout && !cfg.stdout) || (saved.file && !cfg.file)
    {
      return Err;
    }
    var ok, relayIds := CheckIds(ids, enabled);
    if !ok {
      return Err;
    }
    if version < 4 && |saved.rabbitIds| > 0 {
      return Err;
    }
    var okRabbit, rabbitIds := CheckIds(saved.rabbitIds, rabbits);
    if !okRabbit {
      return Err;
    }
    if version < 5 && |saved.valkeyIds| > 0 {
      return Err;
    }
    var okValkey, valkeyIds := CheckIds(saved.valkeyIds, valkeys);
    if !okValkey {
      return Err;
    }
    var record :- NewRecord(saved.receivedAt, saved.source, saved.raw);
    var pending := TargetSet(saved.stdout, saved.file, relayIds, rabbitIds, valkeyIds);
    if |ids| == 0 {
      return Ok(Item(0, record, pending, None));
    }
    Packets.DataIsThere(saved.raw, record.packet);
    if saved.sessionId.None? || |saved.sessionId.value| != 32 {
      return Err;
    }
    if exists i :: 0 <= i < |saved.sessionId.value| && !HexDigit(saved.sessionId.value[i]) {
      return Err;
    }
    if saved.identity != [] && SrTermIdentity.Decode(saved.identity).Err? {
      return Err;
    }
    var forward := Relaying.Decide(record.packet);
    if forward != Relaying.Forward(true) {
      return Err;
    }
    return Ok(Item(0, record, pending, Some(Relay(saved.sessionId.value, saved.identity))));
  }

  lemma NoRecords(cfg: Config, version: int, rs: seq<SavedRecord>)
    ensures RestoreAll(cfg, version, rs[..0]) == Ok([]) && SessionTable([]) == map[]
  {
  }

  lemma NextRecord(cfg: Config, version: int, rs: seq<SavedRecord>, n: nat)
    requires n < |rs| && RestoreAll(cfg, version, rs[..n]).Ok?
    ensures var q := RestoreAll(cfg, version, rs[..n]).value;
            RestoreAll(cfg, version, rs[..n + 1])
            == if |q| >= cfg.capacity || RestoreOne(cfg, version, rs[n]).Err? then Err
               else Ok(q + [RestoreOne(cfg, version, rs[n]).value])
  {
    hide RestoreOne;
    assert rs[..n + 1][..n] == rs[..n];
  }

  lemma NextSession(q: Queue, x: Item)
    ensures SessionTable(q + [x]) == AddSession(SessionTable(q), x)
  {
    hide AddSession;
    assert (q + [x])[..|q|] == q;
  }

  method RestoreDump(cfg: Config, file: DumpFile) returns (r: Result<Restored>)
    ensures r == Restore(cfg, file)
  {
    hide RestoreOne, RestoreAll, SessionTable;
    NoRecords(cfg, file.version, file.records);
    if file.version != 1 && file.version != 2 && file.version != 3 && file.version != 4 && file.version != 5 {
      return Err;
    }
    var pending: Queue := [];
    var relays: map<string, Engine.Session> := map[];
    for n := 0 to |file.records|
      invariant RestoreAll(cfg, file.version, file.records[..n]) == Ok(pending)
      invariant relays == SessionTable(pending)
    {
      NextRecord(cfg, file.version, file.records, n);
      if |pending| >= cfg.capacity {
        Refused(cfg, file.version, file.records, n + 1);
        return Err;
      }
      var restored := RestoreRecord(cfg, file.version, file.records[n]);
      if restored.Err? {
        Refused(cfg, file.version, file.records, n + 1);
        return Err;
      }
      var item := restored.value;
      if item.relay.Some? {
        var id := item.relay.value.session;
        if id !in relays {
          relays := relays[id := Engine.Session(0, true)];
        }
        relays := relays[id := Engine.Session(relays[id].pending + |EgtsOf(item.pending)|, true)];
      }
      NextSession(pending, item);
      pending := pending + [item];
    }
    assert file.records[..|file.records|] == file.records;
    r := Ok(Restored(pending, relays));
  }

  lemma {:induction false} Refused(cfg: Config, version: int, rs: seq<SavedRecord>, n: nat)
    requires n <= |rs| && RestoreAll(cfg, version, rs[..n]).Err?
    ensures RestoreAll(cfg, version, rs).Err?
    decreases |rs|
  {
    if n == |rs| {
      assert rs[..n] == rs;
    } else {
      assert rs[..|rs| - 1][..n] == rs[..n];
      Refused(cfg, version, rs[..|rs| - 1], n);
    }
  }

  // ---- what was saved comes back ----

  /** What every queued packet is like: taken from the wire, its destinations enabled, and with
      EGTS ones only when it is to be relayed, on a session and with an identity it can have. */
  predicate Saveable(cfg: Config, x: Item) {
    && Packets.ReadPacket(x.record.raw) == Packets.Accepted(x.record.packet)
    && (forall t :: t in x.pending ==> t in Targets(cfg))
    && (EgtsOf(x.pending) != {} ==>
          && x.relay.Some? && SessionName(x.relay.value.session)
          && IdentityKnown(x.relay.value.identity)
          && x.record.packet.pt == Packets.PT_APPDATA && x.record.packet.sfrd.AppData?
          && Relaying.ShouldRelay(x.record.packet) == Relaying.Forward(true))
  }

  /** A restored packet is told by its place, not by the identifier of the one saved. */
  function Anonymous(x: Item): Item {
    x.(id := 0)
  }

  function AllAnonymous(q: Queue): (r: Queue)
    ensures |r| == |q| && forall i :: 0 <= i < |q| ==> r[i] == Anonymous(q[i])
  {
    seq(|q|, i requires 0 <= i < |q| => Anonymous(q[i]))
  }

  lemma IdsGone(ts: set<Target>)
    ensures EgtsIds(ts) == {} <==> EgtsOf(ts) == {}
    ensures RabbitIds(ts) == {} <==> forall t :: t in ts ==> !t.RabbitMQ?
    ensures ValkeyIds(ts) == {} <==> forall t :: t in ts ==> !t.Valkey?
  {
    if EgtsOf(ts) != {} {
      var t :| t in EgtsOf(ts);
      assert t.id in EgtsIds(ts);
    }
    if EgtsIds(ts) != {} {
      var x :| x in EgtsIds(ts);
      var t :| t in ts && t.Egts? && t.id == x;
      assert t in EgtsOf(ts);
    }
    if x :| x in ts && x.RabbitMQ? {
      assert x.id in RabbitIds(ts);
    }
    if x :| x in ts && x.Valkey? {
      assert x.id in ValkeyIds(ts);
    }
  }

  lemma IdsRebuild(ts: set<Target>)
    ensures TargetSet(Stdout in ts, File in ts, EgtsIds(ts), RabbitIds(ts), ValkeyIds(ts)) == ts
  {
    hide TargetSet;
    forall t
      ensures t in TargetSet(Stdout in ts, File in ts, EgtsIds(ts), RabbitIds(ts), ValkeyIds(ts)) <==> t in ts
    {
      InTargetSet(t, Stdout in ts, File in ts, EgtsIds(ts), RabbitIds(ts), ValkeyIds(ts));
    }
  }

  lemma ListedAvailable(ids: set<string>, enabled: seq<string>)
    requires forall x :: x in ids ==> x in enabled
    ensures IdsAvailable(Listed(ids), enabled)
  {
    var s := Listed(ids);
    forall i | 0 <= i < |s|
      ensures s[i] in enabled
    {
      assert s[i] in Elements(s);
    }
    forall i, j | 0 <= i < j < |s|
      ensures s[i] != s[j]
    {
      LessTotal(s[i], s[j]);
    }
  }

  lemma OwnTargets(cfg: Config, ts: set<Target>)
    requires forall t :: t in ts ==> t in Targets(cfg)
    ensures forall x :: x in EgtsIds(ts) ==> x in EnabledIds(cfg.egts)
    ensures forall x :: x in RabbitIds(ts) ==> x in EnabledIds(cfg.rabbitmq)
    ensures forall x :: x in ValkeyIds(ts) ==> x in EnabledIds(cfg.valkey)
    ensures (Stdout in ts ==> cfg.stdout) && (File in ts ==> cfg.file)
  {
    forall t | t in ts
      ensures TargetListed(cfg, t)
    {
      TargetIsListed(cfg, t);
    }
  }

  /** Saving a packet still pending and restoring it under the same configuration gives it back. */
  lemma OneComesBack(cfg: Config, x: Item)
    requires Saveable(cfg, x) && x.pending != {}
    ensures RestoreOne(cfg, Version(cfg), SaveOne(x)) == Ok(Anonymous(Kept(x)))
  {
    hide Packets.ReadPacket, TargetSet, EnabledIds, Targets, SrTermIdentity.Decode, Relaying.ShouldRelay, IdsAvailable;
    var ts := x.pending;
    OwnTargets(cfg, ts);
    IdsGone(ts);
    IdsRebuild(ts);
    ListedAvailable(EgtsIds(ts), EnabledIds(cfg.egts));
    ListedAvailable(RabbitIds(ts), EnabledIds(cfg.rabbitmq));
    ListedAvailable(ValkeyIds(ts), EnabledIds(cfg.valkey));
    ListedGone(EgtsIds(ts), EnabledIds(cfg.egts));
    ListedGone(RabbitIds(ts), EnabledIds(cfg.rabbitmq));
    ListedGone(ValkeyIds(ts), EnabledIds(cfg.valkey));
    SomethingPending(ts);
  }

  lemma ListedGone(ids: set<string>, enabled: seq<string>)
    requires forall x :: x in ids ==> x in enabled
    ensures Listed(ids) == [] <==> ids == {}
    ensures enabled == [] ==> ids == {}
  {
    NoElements(Listed(ids));
  }

  lemma SomethingPending(ts: set<Target>)
    requires ts != {}
    ensures Stdout in ts || File in ts || EgtsIds(ts) != {} || RabbitIds(ts) != {} || ValkeyIds(ts) != {}
  {
    var t :| t in ts;
    if t.Egts? {
      assert t.id in EgtsIds(ts);
    } else if t.RabbitMQ? {
      assert t.id in RabbitIds(ts);
    } else if t.Valkey? {
      assert t.id in ValkeyIds(ts);
    }
  }

  lemma SaveSnoc(q: Queue, x: Item)
    ensures SaveAll(q + [x]) == SaveAll(q) + (if x.pending == {} then [] else [SaveOne(x)])
  {
    hide SaveOne;
    assert (q + [x])[..|q|] == q;
  }

  /** The queue comes back whole from records that follow one another. */
  ghost predicate ComesBack(cfg: Config, q: Queue) {
    |Snapshot(q)| <= cfg.capacity ==> RestoreAll(cfg, Version(cfg), SaveAll(q)) == Ok(AllAnonymous(Snapshot(q)))
  }

  lemma NothingComesBack(cfg: Config)
    ensures ComesBack(cfg, [])
  {
    assert AllAnonymous([]) == [];
  }

  lemma OneMoreComesBack(cfg: Config, q: Queue, x: Item)
    requires ComesBack(cfg, q) && Saveable(cfg, x)
    ensures ComesBack(cfg, q + [x])
  {
    hide SaveAll, Snapshot, RestoreAll, RestoreOne, SaveOne, Version, Pending, Load, Compacted, Kept, Saveable;
    Push(q, x, Stdout, "");
    SaveSnoc(q, x);
    if x.pending == {} {
      assert SaveAll(q + [x]) == SaveAll(q) && Snapshot(q + [x]) == Snapshot(q);
    } else if |Snapshot(q)| < cfg.capacity {
      OneComesBack(cfg, x);
      OneMore(cfg, SaveAll(q), Snapshot(q), SaveOne(x), Kept(x));
    }
  }

  lemma {:induction false} AllComeBack(cfg: Config, q: Queue)
    requires forall k :: 0 <= k < |q| ==> Saveable(cfg, q[k])
    ensures ComesBack(cfg, q)
  {
    hide ComesBack, Saveable;
    if q == [] {
      NothingComesBack(cfg);
    } else {
      var n := |q| - 1;
      AllComeBack(cfg, q[..n]);
      OneMoreComesBack(cfg, q[..n], q[n]);
      assert q == q[..n] + [q[n]];
    }
  }

  lemma OneMore(cfg: Config, rs: seq<SavedRecord>, q: Queue, r: SavedRecord, x: Item)
    requires RestoreAll(cfg, Version(cfg), rs) == Ok(AllAnonymous(q)) && |q| < cfg.capacity
    requires RestoreOne(cfg, Version(cfg), r) == Ok(Anonymous(x))
    ensures RestoreAll(cfg, Version(cfg), rs + [r]) == Ok(AllAnonymous(q + [x]))
  {
    hide RestoreAll, RestoreOne, Version;
    var more := rs + [r];
    assert more[..|rs|] == rs && more[..|rs| + 1] == more;
    NextRecord(cfg, Version(cfg), more, |rs|);
    assert AllAnonymous(q + [x]) == AllAnonymous(q) + [Anonymous(x)];
  }

  /** The registry restored has each session of the queue, ended, with its number of deliveries. */
  lemma {:induction false} SessionsComeBack(q: Queue)
    ensures SessionTable(AllAnonymous(q)) == map x | x in Engine.SessionsOf(q) :: Engine.Session(Load(q, x), true)
  {
    if q == [] {
      assert AllAnonymous([]) == [];
    } else {
      var n := |q| - 1;
      assert AllAnonymous(q) == AllAnonymous(q[..n]) + [Anonymous(q[n])];
      NextSession(AllAnonymous(q[..n]), Anonymous(q[n]));
      SessionsComeBack(q[..n]);
      MoreSessions(q, n);
    }
  }

  lemma MoreSessions(q: Queue, n: nat)
    requires n == |q| - 1
    requires SessionTable(AllAnonymous(q[..n])) == map x | x in Engine.SessionsOf(q[..n]) :: Engine.Session(Load(q[..n], x), true)
    ensures AddSession(SessionTable(AllAnonymous(q[..n])), Anonymous(q[n]))
            == map x | x in Engine.SessionsOf(q) :: Engine.Session(Load(q, x), true)
  {
    hide SessionTable, Load;
    var before := SessionTable(AllAnonymous(q[..n]));
    var after := AddSession(before, Anonymous(q[n]));
    assert q == q[..n] + [q[n]];
    forall x
      ensures x in after <==> x in Engine.SessionsOf(q)
      ensures x in after ==> after[x] == Engine.Session(Load(q, x), true)
    {
      SessionAdded(q, n, x);
      Push(q[..n], q[n], Stdout, x);
      if x !in Engine.SessionsOf(q[..n]) {
        NoLoadThere(q[..n], x);
      }
    }
  }

  lemma SessionAdded(q: Queue, n: nat, x: string)
    requires n == |q| - 1
    ensures x in Engine.SessionsOf(q) <==>
              x in Engine.SessionsOf(q[..n]) || (q[n].relay.Some? && q[n].relay.value.session == x)
  {
    if x in Engine.SessionsOf(q[..n]) {
      var i :| 0 <= i < n && q[..n][i].relay.Some? && q[..n][i].relay.value.session == x;
      assert q[i].relay.Some? && q[i].relay.value.session == x;
    }
    if x in Engine.SessionsOf(q) {
      var i :| 0 <= i < |q| && q[i].relay.Some? && q[i].relay.value.session == x;
      if i < n {
        assert q[..n][i].relay.Some?;
      }
    }
  }

  lemma NoLoadThere(q: Queue, x: string)
    requires x !in Engine.SessionsOf(q)
    ensures Load(q, x) == 0
  {
    hide Load;
    forall k | 0 <= k < |q|
      ensures ItemLoad(q[k], x) == 0
    {
    }
    LoadNeedsItem(q, x);
  }

  /** The dump round trip: restoring what was saved under the same configuration succeeds, and gives
      the packets still pending in their order, each with the same record, pending destinations,
      session and identity, and every session with its count of pending deliveries. */
  lemma RoundTrip(cfg: Config, q: Queue)
    requires (forall k :: 0 <= k < |q| ==> Saveable(cfg, q[k])) && |q| <= cfg.capacity
    ensures Restore(cfg, Save(cfg, q)) ==
              Ok(Restored(AllAnonymous(Snapshot(q)),
                          map x | x in Engine.SessionsOf(Snapshot(q)) :: Engine.Session(Load(Snapshot(q), x), true)))
  {
    hide SaveAll, Snapshot, RestoreAll, RestoreOne, Saveable, SessionTable, Load;
    AllComeBack(cfg, q);
    SnapshotShorter(q);
    SessionsComeBack(Snapshot(q));
  }

  lemma SnapshotShorter(q: Queue)
    ensures |Snapshot(q)| <= |q|
  {
  }
}
