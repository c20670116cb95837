/** The queue and the session registry as gateway/server/queue.go and relay.go keep them: packets
    and sessions updated in place, and a slice compacted over its own array. */
module QueueClass {
  import opened Bytes
  import opened Queues
  import opened Engine
  import opened SessionCounts
  import Admissions
  import Relaying
  import Packets

  class RelaySession {
    const id: string
    var pending: int
    var closed: bool

    constructor (id: string)
      ensures this.id == id && pending == 0 && !closed
    {
      this.id, pending, closed := id, 0, false;
    }
  }

  /** What is still to be delivered of one packet; done is its channel, closed at most once. */
  class PendingPacket {
    ghost const id: nat
    const record: Record
    const session: Option<RelaySession>
    const identity: seq<byte>
    var stdout: bool
    var file: bool
    var egts: set<string>
    var rabbitmq: set<string>
    var valkey: set<string>
    var done: bool

    constructor (ghost id: nat, record: Record, stdout: bool, file: bool, egts: set<string>, rabbitmq: set<string>, valkey: set<string>,
                 session: Option<RelaySession>, identity: seq<byte>)
      ensures this.id == id && this.record == record && this.session == session && this.identity == identity && !done
      ensures this.stdout == stdout && this.file == file && this.egts == egts && this.rabbitmq == rabbitmq && this.valkey == valkey
    {
      this.id, this.record, this.session, this.identity, done := id, record, session, identity, false;
      this.stdout, this.file, this.egts, this.rabbitmq, this.valkey := stdout, file, egts, rabbitmq, valkey;
    }

    predicate Delivered()
      reads this`stdout, this`file, this`egts, this`rabbitmq, this`valkey
    {
      !stdout && !file && |egts| == 0 && |rabbitmq| == 0 && |valkey| == 0
    }

    function Waiting(): set<Target>
      reads this`stdout, this`file, this`egts, this`rabbitmq, this`valkey
    {
      TargetSet(stdout, file, egts, rabbitmq, valkey)
    }

    ghost function View(): Item
      reads this`stdout, this`file, this`egts, this`rabbitmq, this`valkey
    {
      Item(id, record, Waiting(), RelayOf(session, identity))
    }

    lemma DeliveredWhenNothingWaits()
      ensures Delivered() <==> Waiting() == {}
    {
      if !Delivered() {
        if egts != {} {
          var x :| x in egts;
          assert Egts(x) in Waiting();
        } else if rabbitmq != {} {
          var x :| x in rabbitmq;
          assert RabbitMQ(x) in Waiting();
        } else if valkey != {} {
          var x :| x in valkey;
          assert Valkey(x) in Waiting();
        } else if stdout {
          assert Stdout in Waiting();
        } else {
          assert File in Waiting();
        }
      }
    }

    /** Signals the packet when nothing waits for it any more. */
    method SignalDelivered() returns (delivered: bool)
      requires !done
      modifies this`done
      ensures delivered == done == (Waiting() == {})
    {
      DeliveredWhenNothingWaits();
      delivered := Delivered();
      if delivered {
        done := true;
      }
    }

    /** Is a target still waiting for this packet? */
    method Wants(t: Target) returns (yes: bool)
      ensures yes <==> t in Waiting()
    {
      match t
      case Stdout => yes := stdout;
      case File => yes := file;
      case Egts(x) => yes := x in egts;
      case RabbitMQ(x) => yes := x in rabbitmq;
      case Valkey(x) => yes := x in valkey;
    }

    method Clear(t: Target)
      modifies this`stdout, this`file, this`egts, this`rabbitmq, this`valkey
      ensures Waiting() == old(Waiting()) - {t}
    {
      hide TargetSet;
      ClearedSet(stdout, file, egts, rabbitmq, valkey, t);
      match t
      case Stdout => stdout := false;
      case File => file := false;
      case Egts(x) => egts := egts - {x};
      case RabbitMQ(x) => rabbitmq := rabbitmq - {x};
      case Valkey(x) => valkey := valkey - {x};
    }
  }

  lemma ClearedSet(stdout: bool, file: bool, egts: set<string>, rabbitmq: set<string>, valkey: set<string>, t: Target)
    ensures TargetSet(stdout, file, egts, rabbitmq, valkey) - {t}
            == TargetSet(stdout && t != Stdout, file && t != File, if t.Egts? then egts - {t.id} else egts,
                         if t.RabbitMQ? then rabbitmq - {t.id} else rabbitmq, if t.Valkey? then valkey - {t.id} else valkey)
  {
    hide TargetSet;
    var less := TargetSet(stdout && t != Stdout, file && t != File, if t.Egts? then egts - {t.id} else egts,
                          if t.RabbitMQ? then rabbitmq - {t.id} else rabbitmq, if t.Valkey? then valkey - {t.id} else valkey);
    forall u
      ensures u in less <==> u in TargetSet(stdout, file, egts, rabbitmq, valkey) - {t}
    {
      InTargetSet(u, stdout, file, egts, rabbitmq, valkey);
      InTargetSet(u, stdout && t != Stdout, file && t != File, if t.Egts? then egts - {t.id} else egts,
                  if t.RabbitMQ? then rabbitmq - {t.id} else rabbitmq, if t.Valkey? then valkey - {t.id} else valkey);
    }
  }

  // ---- slices of packets ----

  type Slice = seq<PendingPacket>

  ghost function Views(ps: Slice): (q: Queue)
    reads ps`stdout, ps`file, ps`egts, ps`rabbitmq, ps`valkey
    ensures |q| == |ps| && forall i :: 0 <= i < |ps| ==> q[i] == ps[i].View()
  {
    if ps == [] then [] else Views(ps[..|ps| - 1]) + [ps[|ps| - 1].View()]
  }

  /** The packets the compaction keeps. */
  function Picked<T>(s: seq<T>, keep: seq<bool>): (r: seq<T>)
    requires |s| == |keep|
    ensures |r| <= |s|
  {
    if s == [] then []
    else Picked(s[..|s| - 1], keep[..|keep| - 1]) + (if keep[|keep| - 1] then [s[|s| - 1]] else [])
  }

  lemma MorePicked<T>(s: seq<T>, keep: seq<bool>, n: nat)
    requires n < |s| == |keep|
    ensures Picked(s[..n + 1], keep[..n + 1]) == Picked(s[..n], keep[..n]) + (if keep[n] then [s[n]] else [])
  {
    assert keep[..n + 1][..n] == keep[..n] && s[..n + 1][..n] == s[..n];
  }

  lemma NonePicked<T>(s: seq<T>, keep: seq<bool>)
    ensures Picked(s[..0], keep[..0]) == []
  {
  }

  /** Squeezing the packets and compacting their values is the same; order and identity stay. */
  lemma {:induction false} PickedIsCompacted(was: Slice, q: Queue, keep: seq<bool>)
    requires |keep| == |q| == |was| && forall i :: 0 <= i < |q| ==> (keep[i] <==> q[i].pending != {})
    requires forall i :: 0 <= i < |q| ==> was[i].View() == q[i]
    ensures Views(Picked(was, keep)) == Compacted(q)
  {
    if q != [] {
      hide Picked, Compacted, Pending, Load, Snapshot, PendingPacket.Waiting, PendingPacket.View;
      var n := |q| - 1;
      assert keep[..n + 1] == keep && was[..n + 1] == was && q == q[..n] + [q[n]];
      MorePicked(was, keep, n);
      Push(q[..n], q[n], Stdout, "");
      PickedIsCompacted(was[..n], q[..n], keep[..n]);
      var less := Picked(was[..n], keep[..n]);
      assert (less + [was[n]])[..|less|] == less;
    }
  }

  lemma ViewsWait(ps: Slice)
    ensures forall i :: 0 <= i < |ps| ==> Views(ps)[i] == ps[i].View() && Views(ps)[i].pending == ps[i].Waiting()
  {
  }

  /** The rising identifiers of a slice keep its packets apart. */
  ghost predicate Rising(ps: Slice) {
    forall i, j :: 0 <= i < j < |ps| ==> ps[i].id < ps[j].id
  }

  ghost predicate From(was: Slice, keep: seq<bool>, p: PendingPacket) {
    |was| == |keep| && exists i :: 0 <= i < |was| && keep[i] && was[i] == p
  }

  lemma {:induction false} PickedFrom(was: Slice, keep: seq<bool>, p: PendingPacket)
    requires |keep| == |was| && p in Picked(was, keep)
    ensures From(was, keep, p)
  {
    hide Picked;
    if was == [] {
      NonePicked(was, keep);
    } else {
      var n := |was| - 1;
      assert keep[..n + 1] == keep && was[..n + 1] == was;
      MorePicked(was, keep, n);
      if p in Picked(was[..n], keep[..n]) {
        PickedFrom(was[..n], keep[..n], p);
        var i :| 0 <= i < n && keep[..n][i] && was[..n][i] == p;
        assert keep[i] && was[i] == p;
      } else {
        assert keep[n] && was[n] == p;
      }
    }
  }

  lemma {:induction false} PickedRises(was: Slice, keep: seq<bool>)
    requires |keep| == |was| && Rising(was)
    ensures Rising(Picked(was, keep))
  {
    if was != [] {
      hide Picked;
      var n := |was| - 1;
      assert keep[..n + 1] == keep && was[..n + 1] == was;
      MorePicked(was, keep, n);
      PickedRises(was[..n], keep[..n]);
      var less := Picked(was[..n], keep[..n]);
      forall k | 0 <= k < |less|
        ensures less[k].id < was[n].id
      {
        PickedFrom(was[..n], keep[..n], less[k]);
      }
    }
  }

  /** What the compaction leaves: the same packets in order, none of them delivered everywhere. */
  ghost predicate Left(was: Slice, keep: seq<bool>, ps: Slice) {
    Rising(ps) && forall k :: 0 <= k < |ps| ==> From(was, keep, ps[k])
  }

  lemma RisingDistinct(ps: Slice)
    requires Rising(ps)
    ensures forall i, j :: 0 <= i < j < |ps| ==> ps[i] != ps[j]
  {
  }

  lemma LeftUnsignalled(was: Slice, keep: seq<bool>, left: Slice, bound: nat)
    requires Left(was, keep, left) && |keep| == |was|
    requires forall i :: 0 <= i < |was| ==> was[i].done == !keep[i] && was[i].id < bound
    ensures Rising(left) && forall k :: 0 <= k < |left| ==> !left[k].done && left[k].id < bound
  {
    forall k | 0 <= k < |left|
      ensures !left[k].done && left[k].id < bound
    {
      assert From(was, keep, left[k]);
    }
  }

  lemma LeftAmong(was: Slice, keep: seq<bool>, left: Slice)
    requires Left(was, keep, left) && |keep| == |was|
    ensures forall k :: 0 <= k < |left| ==> left[k] in was
  {
    forall k | 0 <= k < |left|
      ensures left[k] in was
    {
      assert From(was, keep, left[k]);
    }
  }

  lemma PickedLeft(was: Slice, keep: seq<bool>)
    requires |keep| == |was| && Rising(was)
    ensures Left(was, keep, Picked(was, keep))
  {
    hide Picked;
    PickedRises(was, keep);
    var ps: Slice := Picked(was, keep);
    forall k | 0 <= k < |ps|
      ensures From(was, keep, ps[k])
    {
      PickedFrom(was, keep, ps[k]);
    }
  }

  ghost function SessionView(x: RelaySession): Session
    reads x
  {
    Session(x.pending, x.closed)
  }

  /** server: the queue in its array, and the registry; used are the names of all sessions so far. */
  class Server {
    const cfg: Config
    var accepting: bool
    var queue: array<PendingPacket?>
    var len: nat
    var wake: bool
    var relays: map<string, RelaySession>
    ghost var packets: Slice
    ghost var accepted: nat
    ghost var used: set<string>

    ghost predicate Sliced()
      reads this`queue, this`len, this`packets, this`accepted, queue, packets`done
    {
      && |packets| == len <= queue.Length
      && (forall i :: 0 <= i < len ==> queue[i] == packets[i] && !packets[i].done && packets[i].id < accepted)
      && Rising(packets)
    }

    /** Sessions are registered under their names; a packet refers to the registered session of its
        session's name, if there is one. */
    ghost predicate Linked()
      reads this`relays, this`packets
    {
      && (forall x :: x in relays ==> relays[x].id == x)
      && forall i :: 0 <= i < |packets| && packets[i].session.Some? && packets[i].session.value.id in relays ==>
           relays[packets[i].session.value.id] == packets[i].session.value
    }

    ghost predicate Valid()
      reads this, queue, packets, relays.Values
    {
      Sliced() && Linked() && Counted(Contents(), Registry(), used)
    }

    constructor (cfg: Config)
      ensures Valid() && this.cfg == cfg && !accepting && !wake
      ensures Contents() == [] && Registry() == map[]
    {
      this.cfg, accepting, wake, len, relays := cfg, false, false, 0, map[];
      queue := new PendingPacket?[0];
      packets, accepted, used := [], 0, {};
      new;
      NothingCounted();
    }

    /** serve takes packets from its start to its stop (server.go:124-126, 147-149). */
    method SetAccepting(on: bool)
      requires Valid()
      modifies this`accepting
      ensures Valid() && accepting == on && Contents() == old(Contents()) && Registry() == old(Registry())
    {
      hide Views, Counted, Rising;
      accepting := on;
    }

    ghost predicate Has(session: RelaySession)
      reads this`relays
    {
      session.id in relays && relays[session.id] == session
    }

    /** newRelaySession: a session under a new random name. */
    method OpenSession(id: string) returns (session: RelaySession)
      requires Valid() && id !in used
      modifies this`relays, this`used
      ensures Valid() && fresh(session) && session.id == id && Has(session) && !session.closed
      ensures Registry() == old(Registry())[id := Session(0, false)] && used == old(used) + {id}
    {
      hide Views, Counted;
      ghost var q := Contents();
      session := new RelaySession(id);
      UsedIds(id);
      OpenCounted(q, Registry(), used, id);
      ghost var reg := Registry();
      relays := relays[id := session];
      used := used + {id};
      assert Contents() == q;
      assert Registry() == reg[id := Session(0, false)];
    }

    lemma UsedIds(id: string)
      requires Valid() && id !in used
      ensures id !in relays
      ensures forall i :: 0 <= i < |packets| && packets[i].session.Some? ==> packets[i].session.value.id != id
    {
      forall i | 0 <= i < |packets| && packets[i].session.Some?
        ensures packets[i].session.value.id != id
      {
        assert ItemCounted(Contents()[i], Registry(), used);
      }
      assert id in relays ==> id in Registry();
    }

    ghost function Contents(): Queue
      reads this`packets, packets`stdout, packets`file, packets`egts, packets`rabbitmq, packets`valkey
    {
      Views(packets)
    }

    ghost function Registry(): map<string, Session>
      reads this`relays, relays.Values
    {
      map x | x in relays :: SessionView(relays[x])
    }

    /** Fully delivered packets are signalled, the others squeezed to the front of the slice. */
    method Squeeze(ghost was: Slice, ghost keep: seq<bool>) returns (kept: nat)
      requires |keep| == |was| == len <= queue.Length
      requires forall i :: 0 <= i < len ==> queue[i] == was[i]
      requires forall i, j :: 0 <= i < j < len ==> was[i] != was[j]
      requires forall i :: 0 <= i < len ==> !was[i].done && keep[i] == (was[i].Waiting() != {})
      modifies queue, was`done
      ensures kept == |Picked(was, keep)| && forall k :: 0 <= k < kept ==> queue[k] == Picked(was, keep)[k]
      ensures forall i :: 0 <= i < len ==> was[i].done == !keep[i]
    {
      hide PendingPacket.Waiting, PendingPacket.Delivered, Picked;
      ghost var out: Slice := Picked(was[..0], keep[..0]);
      NonePicked(was, keep);
      kept := 0;
      for next := 0 to len
        invariant out == Picked(was[..next], keep[..next]) && kept == |out| <= next
        invariant forall i :: next <= i < len ==> queue[i] == was[i]
        invariant forall k :: 0 <= k < kept ==> queue[k] == out[k]
        invariant forall i :: 0 <= i < len ==> was[i].done == (i < next && !keep[i])
      {
        var item := queue[next];
        MorePicked(was, keep, next);
        var delivered := item.SignalDelivered();
        if !delivered {
          queue[kept] := item;
          kept := kept + 1;
          out := out + [was[next]];
        }
      }
      assert was[..len] == was && keep[..len] == keep;
    }

    /** The places the compaction freed. */
    method ClearTail(kept: nat)
      requires kept <= len <= queue.Length
      modifies queue
      ensures forall k :: 0 <= k < kept ==> queue[k] == old(queue[k])
      ensures forall k :: kept <= k < len ==> queue[k] == null
    {
      for i := kept to len
        invariant forall k :: 0 <= k < kept ==> queue[k] == old(queue[k])
        invariant forall k :: kept <= k < i ==> queue[k] == null
      {
        queue[i] := null;
      }
    }

    /** queue.go:136-149 on the slice. */
    method CompactSlice()
      requires Sliced()
      modifies this`len, this`packets, queue, packets`done
      ensures Sliced() && Contents() == Compacted(old(Contents()))
      ensures forall k :: 0 <= k < |packets| ==> packets[k] in old(packets)
      ensures forall i :: len <= i < old(len) ==> queue[i] == null
      ensures forall i :: 0 <= i < old(len) ==> old(packets)[i].done == (old(Contents())[i].pending == {})
    {
      hide PendingPacket.Waiting, PendingPacket.Delivered, Picked, Compacted, PendingPacket.View, Views, Left, Rising, From, RelayOf,
           TargetSet;
      ghost var was, q := packets, Contents();
      ghost var keep := seq(|q|, i requires 0 <= i < |q| => q[i].pending != {});
      ghost var left := Picked(was, keep);
      ViewsWait(was);
      RisingDistinct(was);
      PickedLeft(was, keep);
      var kept := Squeeze(was, keep);
      ClearTail(kept);
      LeftUnsignalled(was, keep, left, accepted);
      LeftAmong(was, keep, left);
      len := kept;
      packets := left;
      assert forall i :: 0 <= i < |was| ==> was[i].View() == q[i];
      PickedIsCompacted(was, q, keep);
    }

    /** queue.go:136-149: the queue becomes its packets not yet delivered everywhere, the others are
        signalled, and the freed end of the slice points to nothing. */
    method Compact()
      requires Valid()
      modifies this`len, this`packets, queue, packets`done
      ensures Valid() && Contents() == Compacted(old(Contents())) && Registry() == old(Registry())
      ensures forall i :: len <= i < old(len) ==> queue[i] == null
      ensures forall i :: 0 <= i < old(len) ==> old(packets)[i].done == (old(Contents())[i].pending == {})
    {
      hide PendingPacket.Waiting, PendingPacket.Delivered, Compacted, PendingPacket.View, Views, Rising, Counted;
      CompactCounted(Contents(), Registry(), used);
      CompactSlice();
    }

    /** queue.go:167-175: the first packet a target still has to get. */
    method FindFor(t: Target) returns (item: PendingPacket?)
      requires Valid()
      ensures var k := FirstFor(Contents(), t);
              if k == len then item == null else item == packets[k]
    {
      hide PendingPacket.Waiting, PendingPacket.Delivered, Views, FirstFor, Linked, Counted, Rising;
      ViewsWait(packets);
      item := null;
      for n := 0 to len
        invariant forall i :: 0 <= i < n ==> t !in Contents()[i].pending
      {
        var candidate := queue[n];
        var wants := candidate.Wants(t);
        if wants {
          return candidate;
        }
      }
    }

    // ---- confirmations and sessions ----

    /** A session loses one pending delivery; when it has ended and that was its last, it leaves the
        registry. */
    method Release(session: RelaySession) returns (finished: Option<RelaySession>)
      requires Linked() && Has(session)
      modifies this`relays, session`pending
      ensures Linked() && (finished.Some? ==> finished.value == session)
      ensures Unload(old(Registry()), session.id) == (Registry(), if finished.Some? then Some(session.id) else None)
    {
      ghost var was := Registry();
      finished := None;
      session.pending := session.pending - 1;
      assert Registry() == AddPending(was, session.id, -1);
      if session.pending == 0 && session.closed {
        relays := relays - {session.id};
        finished := Some(session);
        assert Registry() == AddPending(was, session.id, -1) - {session.id};
      }
    }

    method ClearPacket(p: PendingPacket, t: Target)
      requires Sliced() && p in packets
      modifies p`stdout, p`file, p`egts, p`rabbitmq, p`valkey
      ensures Sliced() && Contents() == Cleared(old(Contents()), p.id, t)
    {
      hide PendingPacket.Waiting, PendingPacket.Delivered, Views;
      p.Clear(t);
    }

    /** Where a packet stands in the queue, and what its session is. */
    lemma Standing(p: PendingPacket, t: Target) returns (k: nat)
      requires Valid() && p in packets && t in p.Waiting()
      ensures k < |packets| && packets[k] == p && Contents()[k] == p.View() && t in Contents()[k].pending && Ascending(Contents())
      ensures t.Egts? ==> p.session.Some? && Has(p.session.value) && p.session.value in relays.Values
    {
      hide PendingPacket.Waiting;
      k :| 0 <= k < |packets| && packets[k] == p;
      assert ItemCounted(Contents()[k], Registry(), used);
      assert t.Egts? ==> t in EgtsOf(p.Waiting());
    }

    /** queue.go:264-284: the target comes off the packet, an EGTS one off its session too; whose
        writers are to be closed when it has ended and this was its last. */
    method Confirm(p: PendingPacket, t: Target) returns (finished: Option<RelaySession>)
      requires Valid() && p in packets && t in p.Waiting()
      modifies this`relays, p`stdout, p`file, p`egts, p`rabbitmq, p`valkey, relays.Values`pending
      ensures Valid() && packets == old(packets) && used == old(used)
      ensures Contents() == Cleared(old(Contents()), p.id, t)
      ensures !t.Egts? ==> finished.None? && Registry() == old(Registry())
      ensures t.Egts? ==> p.session.Some? && p.session.value.id in old(relays)
                          && Unload(old(Registry()), p.session.value.id)
                             == (Registry(), if finished.Some? then Some(p.session.value.id) else None)
    {
      hide Cleared, PendingPacket.Delivered, PendingPacket.Waiting, Unload, Counted, Views, Ascending, Linked, Sliced, Has;
      finished := None;
      ghost var k := Standing(p, t);
      ghost var q, reg := Contents(), Registry();
      if t.Egts? {
        ClearEgtsCounted(q, reg, used, k, t);
      } else {
        ClearOtherCounted(q, reg, used, k, t);
      }
      ClearPacket(p, t);
      if t.Egts? {
        finished := Release(p.session.value);
      }
    }

    /** endRelaySession: the session is marked ended, and leaves the registry unless deliveries are
        pending; finished says that its connection must close the writers. */
    method EndSession(session: RelaySession) returns (finished: bool)
      requires Valid() && Has(session)
      modifies this`relays, session`closed
      ensures Valid() && session.closed && packets == old(packets) && used == old(used) && Contents() == old(Contents())
      ensures finished == (old(Registry())[session.id].pending == 0)
      ensures Registry() == Ended(old(Registry()), session.id)
    {
      hide Counted, Views;
      ghost var q, reg := Contents(), Registry();
      EndCounted(q, reg, used, session.id);
      session.closed := true;
      finished := session.pending == 0;
      if finished {
        relays := relays - {session.id};
      }
      assert Contents() == q;
      assert Registry() == Ended(reg, session.id);
    }

    // ---- a packet comes in ----

    /** queue.go:56-75: the EGTS destinations of a packet, or why it cannot be taken. */
    method RelayTargets(record: Record, onSession: bool) returns (refusal: Option<Answer>, egts: set<string>)
      requires record.packet.pt == Packets.PT_APPDATA && record.packet.sfrd.AppData?
      ensures RelayAnswer(cfg, record, onSession) ==
                match refusal
                case Some(a) => a
                case None => Accepts(Needs(cfg, egts != {}))
      ensures refusal.Some? ==> !refusal.value.Accepts?
      ensures refusal.None? ==> egts == {} || (onSession && egts == IdSet(EnabledIds(cfg.egts)))
    {
      hide Needs, Relaying.HasRelayData, Relaying.HasCredentials;
      egts := {};
      for n := 0 to |cfg.egts|
        invariant egts == IdSet(EnabledIds(cfg.egts[..n]))
        invariant egts != {} ==> EnabledIds(cfg.egts) != [] && onSession && Relaying.ShouldRelay(record.packet) == Relaying.Forward(true)
      {
        MoreIds(cfg.egts, n);
        if cfg.egts[n].enabled {
          SomeEnabled(cfg.egts, n);
          var verdict := Relaying.Decide(record.packet);
          match verdict {
            case NotData => return Some(Unrelayable), {};
            case CredentialsInData => return Some(BadCredentials), {};
            case Forward(yes) =>
              if !yes {
                return None, {};
              }
          }
          if !onSession {
            return Some(NoSession), {};
          }
          egts := egts + {cfg.egts[n].id};
        }
      }
      assert cfg.egts[..|cfg.egts|] == cfg.egts;
      assert EnabledIds(cfg.egts) != [] ==> EnabledIds(cfg.egts)[0] in egts;
      refusal := None;
    }

    /** append(s.queue, item). */
    method Append(item: PendingPacket)
      requires Sliced() && !item.done && item.id == accepted
      modifies this`queue, this`len, this`packets, this`accepted, queue
      ensures Sliced() && packets == old(packets) + [item] && accepted == old(accepted) + 1
    {
      if len == queue.Length {
        var bigger := new PendingPacket?[2 * len + 1];
        forall i | 0 <= i < len {
          bigger[i] := queue[i];
        }
        queue := bigger;
      }
      queue[len] := item;
      len := len + 1;
      packets := packets + [item];
      accepted := accepted + 1;
    }

    /** queue.go:55-94: a packet with its destinations. */
    method NewPacket(ghost id: nat, record: Record, session: Option<RelaySession>, identity: seq<byte>, egts: set<string>)
      returns (item: PendingPacket)
      requires egts == {} || egts == IdSet(EnabledIds(cfg.egts))
      ensures fresh(item) && !item.done && item.id == id && item.record == record && item.session == session && item.identity == identity
      ensures item.Waiting() == Needs(cfg, egts != {})
      ensures |EgtsOf(item.Waiting())| == |egts| && (EgtsOf(item.Waiting()) == {} <==> egts == {})
    {
      hide TargetSet, Needs;
      var rabbitmq := CollectIds(cfg.rabbitmq);
      var valkey := CollectIds(cfg.valkey);
      item := new PendingPacket(id, record, cfg.stdout, cfg.file, egts, rabbitmq, valkey, session, identity);
      NeedsByKind(cfg, egts != {});
      EgtsPart(cfg.stdout, cfg.file, egts, rabbitmq, valkey);
    }

    method Charge(session: RelaySession, n: nat)
      requires Linked() && Has(session)
      modifies session`pending
      ensures Registry() == AddPending(old(Registry()), session.id, n)
    {
      session.pending := session.pending + n;
    }

    /** What enqueue does with a packet it takes. */
    method Admit(record: Record, session: Option<RelaySession>, identity: seq<byte>, egts: set<string>) returns (item: PendingPacket)
      requires Valid() && (session.Some? ==> Has(session.value))
      requires egts == {} || (session.Some? && egts == IdSet(EnabledIds(cfg.egts)))
      modifies this`queue, this`len, this`wake, this`packets, this`accepted, queue, relays.Values`pending
      ensures Valid() && relays == old(relays) && used == old(used)
      ensures fresh(item) && !item.done && packets == old(packets) + [item] && wake
      ensures var needs := Needs(cfg, egts != {});
              && item.View() == Item(old(accepted), record, needs, RelayOf(if EgtsOf(needs) == {} then None else session, identity))
              && (EgtsOf(needs) != {} ==> session.Some?)
              && Contents() == old(Contents()) + [item.View()]
              && ItemCounted(item.View(), old(Registry()), used) && Registry() == Charged(old(Registry()), item.View())
    {
      hide PendingPacket.Waiting, PendingPacket.Delivered, Needs, Views, EgtsOf, AddPending, Counted, Linked, Sliced;
      ghost var q, reg := Contents(), Registry();
      RegisteredUsed(session);
      item := NewPacket(accepted, record, if egts != {} then session else None, identity, egts);
      PushCounted(q, reg, used, item.View());
      NoneIsNone(item.Waiting());
      Take(item, session, |egts|);
      wake := true;
    }

    /** The session is charged and the packet appended. */
    method Take(item: PendingPacket, session: Option<RelaySession>, n: nat)
      requires Sliced() && Linked() && !item.done && item.id == accepted
      requires item.session == if n > 0 then session else None
      requires n > 0 ==> session.Some? && Has(session.value)
      modifies this`queue, this`len, this`packets, this`accepted, queue, relays.Values`pending
      ensures Sliced() && Linked() && packets == old(packets) + [item]
      ensures Contents() == old(Contents()) + [item.View()]
      ensures n > 0 ==> session.value.id in old(Registry()) && Registry() == AddPending(old(Registry()), session.value.id, n)
      ensures n == 0 ==> Registry() == old(Registry())
    {
      hide PendingPacket.Waiting, PendingPacket.Delivered, PendingPacket.View, Views, EgtsOf, AddPending, Sliced, Rising, RelayOf;
      if n > 0 {
        Charge(session.value, n);
      }
      MoreViews(packets, item);
      Append(item);
    }

    lemma RegisteredUsed(session: Option<RelaySession>)
      requires Valid() && (session.Some? ==> Has(session.value))
      ensures session.Some? ==> session.value.id in used && session.value.id in Registry()
    {
      assert session.Some? ==> session.value.id in Registry();
    }

    /** enqueue: the packet gets the destinations that want it, its session is charged for the EGTS
        ones, and the delivery loop is woken; or nothing changes and the answer says why. */
    method Enqueue(record: Record, session: Option<RelaySession>, identity: seq<byte>) returns (answer: Answer, item: PendingPacket?)
      requires Valid() && (session.Some? ==> Has(session.value))
      requires record.packet.pt == Packets.PT_APPDATA && record.packet.sfrd.AppData?
      modifies this`queue, this`len, this`wake, this`packets, this`accepted, queue, relays.Values`pending
      ensures Valid() && relays == old(relays) && used == old(used)
      ensures answer == Admission(cfg, accepting, old(len), record, session.Some?)
      ensures Admissions.Judged(cfg, accepting, old(len), record.packet.sfrd.services, session.Some?, answer)
      ensures !answer.Accepts? ==>
                packets == old(packets) && wake == old(wake) && accepted == old(accepted)
                && Contents() == old(Contents()) && Registry() == old(Registry())
      ensures answer.Accepts? ==>
                && item != null && fresh(item) && !item.done && packets == old(packets) + [item] && wake
                && item.View() == Item(old(accepted), record, answer.needs,
                                       RelayOf(if EgtsOf(answer.needs) == {} then None else session, identity))
                && Contents() == old(Contents()) + [item.View()]
                && ItemCounted(item.View(), old(Registry()), used) && Registry() == Charged(old(Registry()), item.View())
    {
      hide RelayAnswer, PendingPacket.Waiting, PendingPacket.Delivered, PendingPacket.View, Needs, Views, EgtsOf, AddPending, Counted,
           Charged, ItemCounted, Admissions.Judged;
      item := null;
      Admissions.AdmissionExactly(cfg, accepting, len, record, session.Some?);
      if !accepting {
        return Stopped, null;
      }
      if len >= cfg.capacity {
        return Full, null;
      }
      var refusal, egts := RelayTargets(record, session.Some?);
      if refusal.Some? {
        return refusal.value, null;
      }
      item := Admit(record, session, identity, egts);
      answer := Accepts(Needs(cfg, egts != {}));
    }

    /** The identifiers of the enabled destinations of a kind. */
    method CollectIds(ds: seq<Destination>) returns (ids: set<string>)
      ensures ids == IdSet(EnabledIds(ds))
    {
      ids := {};
      for n := 0 to |ds|
        invariant ids == IdSet(EnabledIds(ds[..n]))
      {
        MoreIds(ds, n);
        if ds[n].enabled {
          ids := ids + {ds[n].id};
        }
      }
      assert ds[..|ds|] == ds;
    }
  }

  function RelayOf(session: Option<RelaySession>, identity: seq<byte>): Option<Relay> {
    if session.Some? then Some(Relay(session.value.id, identity)) else None
  }

  lemma MoreViews(ps: Slice, p: PendingPacket)
    ensures Views(ps + [p]) == Views(ps) + [p.View()]
  {
    assert (ps + [p])[..|ps|] == ps;
  }

  function IdSet(ids: seq<string>): set<string> {
    set x | x in ids
  }

  lemma MoreIds(ds: seq<Destination>, n: nat)
    requires n < |ds|
    ensures IdSet(EnabledIds(ds[..n + 1])) == IdSet(EnabledIds(ds[..n])) + (if ds[n].enabled then {ds[n].id} else {})
  {
    assert ds[..n + 1][..n] == ds[..n];
  }

  lemma {:induction false} SomeEnabled(ds: seq<Destination>, n: nat)
    requires n < |ds| && ds[n].enabled
    ensures EnabledIds(ds) != []
  {
    if n < |ds| - 1 {
      SomeEnabled(ds[..|ds| - 1], n);
    }
  }

  /** The destinations of a new packet, kind by kind. */
  lemma NeedsByKind(cfg: Config, forward: bool)
    ensures Needs(cfg, forward)
            == TargetSet(cfg.stdout, cfg.file, if forward then IdSet(EnabledIds(cfg.egts)) else {},
                         IdSet(EnabledIds(cfg.rabbitmq)), IdSet(EnabledIds(cfg.valkey)))
  {
    hide EnabledIds, Targets, TargetSet;
    var e := if forward then IdSet(EnabledIds(cfg.egts)) else {};
    forall t
      ensures t in Needs(cfg, forward) <==> t in TargetSet(cfg.stdout, cfg.file, e, IdSet(EnabledIds(cfg.rabbitmq)), IdSet(EnabledIds(cfg.valkey)))
    {
      TargetIsListed(cfg, t);
      InTargetSet(t, cfg.stdout, cfg.file, e, IdSet(EnabledIds(cfg.rabbitmq)), IdSet(EnabledIds(cfg.valkey)));
    }
  }

  lemma {:induction false} CardinalityOfEgts(ids: set<string>)
    ensures |set x | x in ids :: Egts(x)| == |ids|
  {
    if ids != {} {
      var x :| x in ids;
      CardinalityOfEgts(ids - {x});
      assert (set y | y in ids :: Egts(y)) == (set y | y in ids - {x} :: Egts(y)) + {Egts(x)};
    }
  }

  /** The EGTS part of a packet's destinations, and its size. */
  lemma EgtsPart(stdout: bool, file: bool, egts: set<string>, rabbitmq: set<string>, valkey: set<string>)
    ensures EgtsOf(TargetSet(stdout, file, egts, rabbitmq, valkey)) == (set x | x in egts :: Egts(x))
    ensures |EgtsOf(TargetSet(stdout, file, egts, rabbitmq, valkey))| == |egts|
    ensures EgtsOf(TargetSet(stdout, file, egts, rabbitmq, valkey)) == {} <==> egts == {}
  {
    hide TargetSet;
    CardinalityOfEgts(egts);
    forall t
      ensures t in EgtsOf(TargetSet(stdout, file, egts, rabbitmq, valkey)) <==> t in (set x | x in egts :: Egts(x))
    {
      InTargetSet(t, stdout, file, egts, rabbitmq, valkey);
    }
    if egts != {} {
      var x :| x in egts;
      assert Egts(x) in (set y | y in egts :: Egts(y));
    }
  }
}
