/** Destinations, queued packets and what the delivery loop computes from the queue
    (gateway/server/queue.go, gateway/destination/record.go). */
module Queues {
  import opened Bytes
  import opened Packets
  import Relaying
  import SrTermIdentity

  // ---- destinations ----

  datatype Target = Stdout | File | Egts(id: string) | RabbitMQ(id: string) | Valkey(id: string)

  datatype Destination = Destination(id: string, enabled: bool)

  /** The settings the queue reads. Times are in nanoseconds but for dumpAfter, in seconds. */
  datatype Config = Config(stdout: bool, file: bool, egts: seq<Destination>, rabbitmq: seq<Destination>, valkey: seq<Destination>,
                           capacity: nat, dumpAfter: nat)

  function EnabledIds(ds: seq<Destination>): (ids: seq<string>) {
    if ds == [] then []
    else EnabledIds(ds[..|ds| - 1]) + (if ds[|ds| - 1].enabled then [ds[|ds| - 1].id] else [])
  }

  predicate DistinctIds(ds: seq<Destination>) {
    forall i, j :: 0 <= i < j < |ds| ==> ds[i].id != ds[j].id
  }

  /** What configuration.Validate checks of the destinations. */
  predicate ValidConfig(cfg: Config) {
    && DistinctIds(cfg.egts) && DistinctIds(cfg.rabbitmq) && DistinctIds(cfg.valkey)
    && cfg.capacity > 0 && cfg.dumpAfter > 0
  }

  function EgtsTargets(ids: seq<string>): (ts: seq<Target>)
    ensures |ts| == |ids| && forall i :: 0 <= i < |ts| ==> ts[i] == Egts(ids[i])
  {
    seq(|ids|, i requires 0 <= i < |ids| => Egts(ids[i]))
  }

  function RabbitTargets(ids: seq<string>): (ts: seq<Target>)
    ensures |ts| == |ids| && forall i :: 0 <= i < |ts| ==> ts[i] == RabbitMQ(ids[i])
  {
    seq(|ids|, i requires 0 <= i < |ids| => RabbitMQ(ids[i]))
  }

  function ValkeyTargets(ids: seq<string>): (ts: seq<Target>)
    ensures |ts| == |ids| && forall i :: 0 <= i < |ts| ==> ts[i] == Valkey(ids[i])
  {
    seq(|ids|, i requires 0 <= i < |ids| => Valkey(ids[i]))
  }

  /** The targets in the order the delivery loop serves them. */
  function Targets(cfg: Config): seq<Target> {
    (if cfg.stdout then [Stdout] else []) + (if cfg.file then [File] else [])
    + EgtsTargets(EnabledIds(cfg.egts)) + RabbitTargets(EnabledIds(cfg.rabbitmq)) + ValkeyTargets(EnabledIds(cfg.valkey))
  }

  /** The destinations a new packet needs; EGTS ones only when it is to be relayed. */
  function Needs(cfg: Config, forward: bool): set<Target> {
    set t | t in Targets(cfg) && (t.Egts? ==> forward)
  }

  /** Destinations, kind by kind. */
  function TargetSet(stdout: bool, file: bool, egts: set<string>, rabbitmq: set<string>, valkey: set<string>): set<Target> {
    (if stdout then {Stdout} else {}) + (if file then {File} else {})
    + (set x | x in egts :: Egts(x)) + (set x | x in rabbitmq :: RabbitMQ(x)) + (set x | x in valkey :: Valkey(x))
  }

  lemma InTargetSet(t: Target, stdout: bool, file: bool, egts: set<string>, rabbitmq: set<string>, valkey: set<string>)
    ensures t in TargetSet(stdout, file, egts, rabbitmq, valkey) <==>
              match t
              case Stdout => stdout
              case File => file
              case Egts(x) => x in egts
              case RabbitMQ(x) => x in rabbitmq
              case Valkey(x) => x in valkey
  {
  }

  function EgtsOf(ts: set<Target>): set<Target> {
    set t | t in ts && t.Egts?
  }

  // ---- packets in the queue ----

  predicate HexDigit(c: char) {
    '0' <= c <= '9' || 'a' <= c <= 'f' || 'A' <= c <= 'F'
  }

  /** Sixteen octets in hexadecimal. */
  predicate SessionName(s: string) {
    |s| == 32 && forall i :: 0 <= i < |s| ==> HexDigit(s[i])
  }

  /** No identity yet, or one that a terminal sent. */
  predicate IdentityKnown(identity: seq<byte>) {
    identity != [] ==> SrTermIdentity.Decode(identity).Ok?
  }

  datatype Source = Source(address: string, terminal: Option<uint32>)

  datatype Record = Record(receivedAt: int, source: Source, raw: seq<byte>, packet: Packet)

  /** What a connection hands to the queue: an accepted packet with its octets. */
  predicate Received(record: Record) {
    && record.packet.pt == PT_APPDATA && record.packet.sfrd.AppData?
    && ReadPacket(record.raw) == Accepted(record.packet)
  }

  /** The relay session a packet came on and the identity its terminal last gave. */
  datatype Relay = Relay(session: string, identity: seq<byte>)

  /** pendingPacket. The identifier is the place of the packet among all accepted ones. */
  datatype Item = Item(id: nat, record: Record, pending: set<Target>, relay: Option<Relay>)

  type Queue = seq<Item>

  predicate Ascending(q: Queue) {
    forall i, j :: 0 <= i < j < |q| ==> q[i].id < q[j].id
  }

  /** The packets still pending for a target, in queue order. */
  function Pending(q: Queue, t: Target): (ids: seq<nat>) {
    if q == [] then [] else Pending(q[..|q| - 1], t) + (if t in q[|q| - 1].pending then [q[|q| - 1].id] else [])
  }

  predicate Holds(q: Queue, id: nat, t: Target) {
    exists k :: 0 <= k < |q| && q[k].id == id && t in q[k].pending
  }

  /** The compaction: fully delivered packets leave. */
  function Compacted(q: Queue): (r: Queue)
    ensures |r| <= |q|
  {
    if q == [] then [] else Compacted(q[..|q| - 1]) + (if q[|q| - 1].pending == {} then [] else [q[|q| - 1]])
  }

  /** The packets the compaction signals as done. */
  function Delivered(q: Queue): seq<nat> {
    if q == [] then [] else Delivered(q[..|q| - 1]) + (if q[|q| - 1].pending == {} then [q[|q| - 1].id] else [])
  }

  function WithoutTarget(x: Item, id: nat, t: Target): Item {
    if x.id == id then x.(pending := x.pending - {t}) else x
  }

  /** A confirmed target is taken off one packet. */
  function Cleared(q: Queue, id: nat, t: Target): (r: Queue)
    ensures |r| == |q| && forall i :: 0 <= i < |q| ==> r[i] == WithoutTarget(q[i], id, t)
  {
    seq(|q|, i requires 0 <= i < |q| => WithoutTarget(q[i], id, t))
  }

  /** A record of the dump: the session is written only with pending EGTS destinations. */
  function Kept(x: Item): Item {
    if EgtsOf(x.pending) == {} then x.(relay := None) else x
  }

  function Snapshot(q: Queue): (r: Queue)
    ensures |r| <= |q|
  {
    if q == [] then [] else Snapshot(q[..|q| - 1]) + (if q[|q| - 1].pending == {} then [] else [Kept(q[|q| - 1])])
  }

  /** Pending EGTS deliveries of one session. */
  function Load(q: Queue, session: string): nat {
    if q == [] then 0 else Load(q[..|q| - 1], session) + ItemLoad(q[|q| - 1], session)
  }

  function ItemLoad(x: Item, session: string): nat {
    if x.relay.Some? && x.relay.value.session == session then |EgtsOf(x.pending)| else 0
  }

  // ---- lemmas ----

  /** How each of them grows with the queue. */
  lemma Push(q: Queue, x: Item, t: Target, session: string)
    ensures Pending(q + [x], t) == Pending(q, t) + (if t in x.pending then [x.id] else [])
    ensures Load(q + [x], session) == Load(q, session) + ItemLoad(x, session)
    ensures Compacted(q + [x]) == Compacted(q) + (if x.pending == {} then [] else [x])
    ensures Snapshot(q + [x]) == Snapshot(q) + (if x.pending == {} then [] else [Kept(x)])
  {
    hide ItemLoad, Kept;
    assert (q + [x])[..|q + [x]| - 1] == q;
  }

  lemma EmptyLoad(x: Item, session: string)
    requires x.pending == {}
    ensures ItemLoad(x, session) == 0
  {
    assert EgtsOf(x.pending) == {};
  }

  lemma KeptLoad(x: Item, session: string)
    ensures ItemLoad(Kept(x), session) == ItemLoad(x, session)
  {
  }

  lemma Same<T>(a: seq<T>)
    ensures a + [] == a
  {
  }

  lemma {:induction false} PendingHolds(q: Queue, t: Target, id: nat)
    ensures id in Pending(q, t) <==> Holds(q, id, t)
  {
    if q != [] {
      var n := |q| - 1;
      PendingHolds(q[..n], t, id);
      if Holds(q[..n], id, t) {
        var k :| 0 <= k < n && q[..n][k].id == id && t in q[..n][k].pending;
        assert q[k].id == id;
      }
      if Holds(q, id, t) {
        var k :| 0 <= k < |q| && q[k].id == id && t in q[k].pending;
        if k < n {
          assert q[..n][k].id == id;
        }
      }
    }
  }

  /** The search of the delivery loop finds the first pending packet. */
  lemma {:induction false} FirstPending(q: Queue, t: Target, k: nat)
    requires k < |q| && t in q[k].pending
    requires forall i :: 0 <= i < k ==> t !in q[i].pending
    ensures Pending(q, t) != [] && Pending(q, t)[0] == q[k].id
  {
    var n := |q| - 1;
    if k < n {
      FirstPending(q[..n], t, k);
    } else {
      NonePending(q[..n], t);
    }
  }

  lemma {:induction false} NonePending(q: Queue, t: Target)
    requires forall i :: 0 <= i < |q| ==> t !in q[i].pending
    ensures Pending(q, t) == []
  {
    if q != [] {
      NonePending(q[..|q| - 1], t);
    }
  }

  lemma {:induction false} CompactedPending(q: Queue, t: Target)
    ensures Pending(Compacted(q), t) == Pending(q, t)
  {
    if q != [] {
      hide Pending, Load, Compacted, Snapshot, ItemLoad;
      var n := |q| - 1;
      assert q == q[..n] + [q[n]];
      CompactedPending(q[..n], t);
      Push(q[..n], q[n], t, "");
      Push(Compacted(q[..n]), q[n], t, "");
      Same(Pending(q[..n], t));
      Same(Compacted(q[..n]));
    }
  }

  lemma {:induction false} SnapshotPending(q: Queue, t: Target)
    ensures Pending(Snapshot(q), t) == Pending(q, t)
  {
    if q != [] {
      hide Pending, Load, Compacted, Snapshot, ItemLoad;
      var n := |q| - 1;
      assert q == q[..n] + [q[n]];
      SnapshotPending(q[..n], t);
      Push(q[..n], q[n], t, "");
      Push(Snapshot(q[..n]), Kept(q[n]), t, "");
      Same(Pending(q[..n], t));
      Same(Snapshot(q[..n]));
    }
  }

  /** Where the elements of a compacted queue come from, and that none is lost. */
  lemma {:induction false} CompactedMembers(q: Queue, x: Item)
    ensures x in Compacted(q) <==> x in q && x.pending != {}
  {
    if q != [] {
      var n := |q| - 1;
      CompactedMembers(q[..n], x);
      assert q == q[..n] + [q[n]];
    }
  }

  lemma {:induction false} SnapshotMembers(q: Queue, x: Item)
    ensures x in Snapshot(q) <==> exists y :: y in q && y.pending != {} && x == Kept(y)
  {
    if q != [] {
      var n := |q| - 1;
      SnapshotMembers(q[..n], x);
      assert q == q[..n] + [q[n]];
    }
  }

  lemma {:induction false} DeliveredMembers(q: Queue, id: nat)
    ensures id in Delivered(q) <==> exists y :: y in q && y.pending == {} && y.id == id
  {
    if q != [] {
      var n := |q| - 1;
      DeliveredMembers(q[..n], id);
      assert q == q[..n] + [q[n]];
    }
  }

  predicate Below(q: Queue, bound: nat) {
    forall i :: 0 <= i < |q| ==> q[i].id < bound
  }

  lemma {:induction false} CompactedAscending(q: Queue, bound: nat)
    requires Ascending(q) && Below(q, bound)
    ensures Ascending(Compacted(q)) && Below(Compacted(q), bound)
  {
    if q != [] {
      var n := |q| - 1;
      CompactedAscending(q[..n], q[n].id);
    }
  }

  lemma {:induction false} SnapshotAscending(q: Queue, bound: nat)
    requires Ascending(q) && Below(q, bound)
    ensures Ascending(Snapshot(q)) && Below(Snapshot(q), bound)
  {
    if q != [] {
      var n := |q| - 1;
      SnapshotAscending(q[..n], q[n].id);
    }
  }

  predicate Increasing(ids: seq<nat>) {
    forall i, j :: 0 <= i < j < |ids| ==> ids[i] < ids[j]
  }

  lemma {:induction false} DeliveredAscending(q: Queue, bound: nat)
    requires Ascending(q) && Below(q, bound)
    ensures Increasing(Delivered(q)) && forall i :: 0 <= i < |Delivered(q)| ==> Delivered(q)[i] < bound
  {
    if q != [] {
      var n := |q| - 1;
      DeliveredAscending(q[..n], q[n].id);
    }
  }

  /** Taking a target off its first packet removes that packet from the target's line. */
  lemma {:induction false} ClearedFirst(q: Queue, id: nat, t: Target)
    requires Ascending(q) && Pending(q, t) != [] && Pending(q, t)[0] == id
    ensures Pending(Cleared(q, id, t), t) == Pending(q, t)[1..]
  {
    var n := |q| - 1;
    var c := Cleared(q, id, t);
    assert c[..n] == Cleared(q[..n], id, t);
    if Pending(q[..n], t) == [] {
      assert q[n].id == id;
      NothingCleared(q[..n], id, t, t);
    } else {
      ClearedFirst(q[..n], id, t);
      PendingHolds(q[..n], t, id);
      assert q[n].id != id;
    }
  }

  /** Other packets keep their targets. */
  lemma {:induction false} NothingCleared(q: Queue, id: nat, t: Target, u: Target)
    requires t != u || forall i :: 0 <= i < |q| ==> q[i].id != id
    ensures Pending(Cleared(q, id, t), u) == Pending(q, u)
  {
    if q != [] {
      var n := |q| - 1;
      assert Cleared(q, id, t)[..n] == Cleared(q[..n], id, t);
      NothingCleared(q[..n], id, t, u);
    }
  }

  // ---- session loads ----

  lemma {:induction false} CompactedLoad(q: Queue, session: string)
    ensures Load(Compacted(q), session) == Load(q, session)
  {
    if q != [] {
      hide Pending, Load, Compacted, Snapshot, ItemLoad;
      var n := |q| - 1;
      assert q == q[..n] + [q[n]];
      CompactedLoad(q[..n], session);
      Push(q[..n], q[n], Stdout, session);
      Push(Compacted(q[..n]), q[n], Stdout, session);
      Same(Compacted(q[..n]));
      if q[n].pending == {} {
        EmptyLoad(q[n], session);
      }
    }
  }

  lemma {:induction false} SnapshotLoad(q: Queue, session: string)
    ensures Load(Snapshot(q), session) == Load(q, session)
  {
    if q != [] {
      hide Pending, Load, Compacted, Snapshot, ItemLoad;
      var n := |q| - 1;
      assert q == q[..n] + [q[n]];
      SnapshotLoad(q[..n], session);
      Push(q[..n], q[n], Stdout, session);
      Push(Snapshot(q[..n]), Kept(q[n]), Stdout, session);
      Same(Snapshot(q[..n]));
      if q[n].pending == {} {
        EmptyLoad(q[n], session);
      }
      KeptLoad(q[n], session);
    }
  }

  /** The load a confirmation takes off. */
  function Relief(x: Item, t: Target, session: string): nat {
    if t.Egts? && x.relay.Some? && x.relay.value.session == session then 1 else 0
  }

  lemma ItemRelief(x: Item, t: Target, session: string)
    requires t in x.pending
    ensures ItemLoad(x, session) == ItemLoad(x.(pending := x.pending - {t}), session) + Relief(x, t, session)
  {
    var less := x.pending - {t};
    if t.Egts? {
      assert EgtsOf(x.pending) == EgtsOf(less) + {t};
    } else {
      assert EgtsOf(x.pending) == EgtsOf(less);
    }
  }

  lemma {:induction false} ClearedLoad(q: Queue, k: nat, t: Target, session: string)
    requires Ascending(q) && k < |q| && t in q[k].pending
    ensures Load(q, session) == Load(Cleared(q, q[k].id, t), session) + Relief(q[k], t, session)
  {
    var n := |q| - 1;
    assert Cleared(q, q[k].id, t)[..n] == Cleared(q[..n], q[k].id, t);
    if k == n {
      UntouchedLoad(q[..n], q[k].id, t, session);
      ItemRelief(q[n], t, session);
    } else {
      ClearedLoad(q[..n], k, t, session);
      assert q[..n][k] == q[k] && q[n].id != q[k].id;
    }
  }

  lemma {:induction false} UntouchedLoad(q: Queue, id: nat, t: Target, session: string)
    requires forall i :: 0 <= i < |q| ==> q[i].id != id
    ensures Load(Cleared(q, id, t), session) == Load(q, session)
  {
    assert Cleared(q, id, t) == q;
  }

  lemma {:induction false} LoadWitness(q: Queue, k: nat, session: string)
    requires k < |q| && ItemLoad(q[k], session) > 0
    ensures Load(q, session) > 0
  {
    if k < |q| - 1 {
      LoadWitness(q[..|q| - 1], k, session);
    }
  }

  lemma {:induction false} LoadNeedsItem(q: Queue, session: string)
    requires forall k :: 0 <= k < |q| ==> ItemLoad(q[k], session) == 0
    ensures Load(q, session) == 0
  {
    if q != [] {
      LoadNeedsItem(q[..|q| - 1], session);
    }
  }

  // ---- what the targets are ----

  predicate TargetListed(cfg: Config, t: Target) {
    t in Targets(cfg) <==>
      match t
      case Stdout => cfg.stdout
      case File => cfg.file
      case Egts(x) => x in EnabledIds(cfg.egts)
      case RabbitMQ(x) => x in EnabledIds(cfg.rabbitmq)
      case Valkey(x) => x in EnabledIds(cfg.valkey)
  }

  lemma TargetIsListed(cfg: Config, t: Target)
    ensures TargetListed(cfg, t)
  {
    hide EnabledIds;
    var e, r, v := EnabledIds(cfg.egts), EnabledIds(cfg.rabbitmq), EnabledIds(cfg.valkey);
    match t
    case Egts(x) =>
      if x in e {
        var i :| 0 <= i < |e| && e[i] == x;
        assert EgtsTargets(e)[i] == t;
      }
    case RabbitMQ(x) =>
      if x in r {
        var i :| 0 <= i < |r| && r[i] == x;
        assert RabbitTargets(r)[i] == t;
      }
    case Valkey(x) =>
      if x in v {
        var i :| 0 <= i < |v| && v[i] == x;
        assert ValkeyTargets(v)[i] == t;
      }
    case _ =>
  }
}
