/** The registry of relay sessions against the queue, on values: each registered session counts its
    queued deliveries (gateway/server/relay.go, queue.go). */
module SessionCounts {
  import opened Bytes
  import opened Queues
  import opened Engine

  /** A packet's session is one there was, and registered while deliveries through it are pending. */
  predicate ItemCounted(x: Item, reg: map<string, Session>, used: set<string>) {
    && (x.relay.Some? ==> x.relay.value.session in used)
    && (EgtsOf(x.pending) != {} ==> x.relay.Some? && x.relay.value.session in reg)
  }

  /** A registered session counts its queued deliveries, and an ended one has some. */
  predicate SessionCounted(q: Queue, reg: map<string, Session>, x: string)
    requires x in reg
  {
    reg[x].pending == Load(q, x) && (reg[x].closed ==> Load(q, x) > 0)
  }

  predicate Counted(q: Queue, reg: map<string, Session>, used: set<string>) {
    && reg.Keys <= used
    && (forall k :: 0 <= k < |q| ==> ItemCounted(q[k], reg, used))
    && (forall x :: x in reg ==> SessionCounted(q, reg, x))
  }

  lemma NothingCounted()
    ensures Counted([], map[], {})
  {
  }

  /** A new session has nothing queued. */
  lemma OpenCounted(q: Queue, reg: map<string, Session>, used: set<string>, x: string)
    requires Counted(q, reg, used) && x !in used
    ensures Counted(q, reg[x := Session(0, false)], used + {x})
  {
    var more := reg[x := Session(0, false)];
    forall k | 0 <= k < |q|
      ensures ItemCounted(q[k], more, used + {x}) && ItemLoad(q[k], x) == 0
    {
      assert ItemCounted(q[k], reg, used);
    }
    LoadNeedsItem(q, x);
    forall y | y in more
      ensures SessionCounted(q, more, y)
    {
      if y != x {
        assert SessionCounted(q, reg, y);
      }
    }
  }

  lemma CompactCounted(q: Queue, reg: map<string, Session>, used: set<string>)
    requires Counted(q, reg, used)
    ensures Counted(Compacted(q), reg, used)
  {
    hide Compacted, Load;
    forall k | 0 <= k < |Compacted(q)|
      ensures ItemCounted(Compacted(q)[k], reg, used)
    {
      CompactedMembers(q, Compacted(q)[k]);
      var j :| 0 <= j < |q| && q[j] == Compacted(q)[k];
      assert ItemCounted(q[j], reg, used);
    }
    forall x | x in reg
      ensures SessionCounted(Compacted(q), reg, x)
    {
      CompactedLoad(q, x);
      assert SessionCounted(q, reg, x);
    }
  }

  /** What the registry is after a packet with these destinations comes in on a session. */
  function Charged(reg: map<string, Session>, item: Item): map<string, Session>
    requires EgtsOf(item.pending) != {} ==> item.relay.Some? && item.relay.value.session in reg
  {
    if EgtsOf(item.pending) == {} then reg else AddPending(reg, item.relay.value.session, |EgtsOf(item.pending)|)
  }

  lemma PushCounted(q: Queue, reg: map<string, Session>, used: set<string>, item: Item)
    requires Counted(q, reg, used) && ItemCounted(item, reg, used)
    ensures Counted(q + [item], Charged(reg, item), used)
  {
    hide Load, EgtsOf;
    var more := Charged(reg, item);
    assert more.Keys == reg.Keys;
    forall k | 0 <= k < |q + [item]|
      ensures ItemCounted((q + [item])[k], more, used)
    {
      if k < |q| {
        assert ItemCounted(q[k], reg, used);
      }
    }
    forall x | x in more
      ensures SessionCounted(q + [item], more, x)
    {
      Push(q, item, Stdout, x);
      NoneIsNone(item.pending);
      assert SessionCounted(q, reg, x);
    }
  }

  lemma NoneIsNone(pending: set<Target>)
    ensures |EgtsOf(pending)| == 0 <==> EgtsOf(pending) == {}
  {
  }

  /** A delivery other than to an EGTS destination does not count. */
  lemma ClearOtherCounted(q: Queue, reg: map<string, Session>, used: set<string>, k: nat, t: Target)
    requires Counted(q, reg, used) && Ascending(q) && k < |q| && t in q[k].pending && !t.Egts?
    ensures Counted(Cleared(q, q[k].id, t), reg, used)
  {
    hide Load;
    var r := Cleared(q, q[k].id, t);
    forall i | 0 <= i < |r|
      ensures ItemCounted(r[i], reg, used)
    {
      assert ItemCounted(q[i], reg, used);
      LessEgts(q[i].pending, t);
    }
    forall x | x in reg
      ensures SessionCounted(r, reg, x)
    {
      ClearedLoad(q, k, t, x);
      assert SessionCounted(q, reg, x);
    }
  }

  lemma LessEgts(pending: set<Target>, t: Target)
    ensures EgtsOf(pending - {t}) <= EgtsOf(pending)
  {
  }

  /** A confirmed EGTS delivery comes off its session; the session goes when that was its last and
      its connection has ended. */
  lemma ClearEgtsCounted(q: Queue, reg: map<string, Session>, used: set<string>, k: nat, t: Target)
    requires Counted(q, reg, used) && Ascending(q) && k < |q| && t in q[k].pending && t.Egts?
    ensures q[k].relay.Some? && q[k].relay.value.session in reg
    ensures Counted(Cleared(q, q[k].id, t), Unload(reg, q[k].relay.value.session).0, used)
  {
    hide Load;
    assert ItemCounted(q[k], reg, used);
    assert t in EgtsOf(q[k].pending);
    var x := q[k].relay.value.session;
    var r, less := Cleared(q, q[k].id, t), Unload(reg, x).0;
    forall y | y in less
      ensures SessionCounted(r, less, y)
    {
      ClearedLoad(q, k, t, y);
      assert SessionCounted(q, reg, y);
    }
    ClearedLoad(q, k, t, x);
    assert SessionCounted(q, reg, x);
    forall i | 0 <= i < |r|
      ensures ItemCounted(r[i], less, used)
    {
      assert ItemCounted(q[i], reg, used);
      LessEgts(q[i].pending, t);
      if EgtsOf(r[i].pending) != {} && r[i].relay.value.session == x {
        NoneIsNone(r[i].pending);
        LoadWitness(r, i, x);
      }
    }
  }

  /** What the registry is after the connection of a session has ended. */
  function Ended(reg: map<string, Session>, x: string): map<string, Session>
    requires x in reg
  {
    if reg[x].pending == 0 then reg - {x} else reg[x := Session(reg[x].pending, true)]
  }

  lemma EndCounted(q: Queue, reg: map<string, Session>, used: set<string>, x: string)
    requires Counted(q, reg, used) && x in reg
    ensures Counted(q, Ended(reg, x), used)
  {
    hide Load;
    var less := Ended(reg, x);
    assert SessionCounted(q, reg, x);
    forall k | 0 <= k < |q|
      ensures ItemCounted(q[k], less, used)
    {
      assert ItemCounted(q[k], reg, used);
      if EgtsOf(q[k].pending) != {} && q[k].relay.value.session == x {
        NoneIsNone(q[k].pending);
        LoadWitness(q, k, x);
      }
    }
    forall y | y in less
      ensures SessionCounted(q, less, y)
    {
      assert SessionCounted(q, reg, y);
    }
  }
}
