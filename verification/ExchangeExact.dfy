/** When exactly an exchange succeeds, in terms of what the destination has said. */
module ExchangeExact {
  import opened Bytes
  import S = Subrecords
  import opened Services
  import opened Packets
  import opened Answers
  import opened Relaying
  import opened Exchange

  // ---- what has been said ----

  predicate Confirmed(atoms: seq<Atom>, k: Key) {
    exists i :: 0 <= i < |atoms| && atoms[i] == Confirm(k, PC_OK)
  }

  /** The last word on the packet as a whole. */
  function LastTransport(atoms: seq<Atom>): Option<byte> {
    if atoms == [] then None
    else if atoms[|atoms| - 1].Transport? then Some(atoms[|atoms| - 1].result)
    else LastTransport(atoms[..|atoms| - 1])
  }

  /** The last verdict on authorization; asking for credentials counts as an answer. */
  function LastAuth(atoms: seq<Atom>): Option<bool> {
    if atoms == [] then None
    else
      var a := atoms[|atoms| - 1];
      if a.AuthResult? && a.paired then Some(a.rcd == PC_OK)
      else if a.AuthAsk? && a.paired then Some(true)
      else LastAuth(atoms[..|atoms| - 1])
  }

  predicate Asked(atoms: seq<Atom>) {
    exists i :: 0 <= i < |atoms| && atoms[i] == AuthAsk(true)
  }

  /** Words that end the exchange; a record already confirmed cannot be rejected any more. */
  predicate Rejecting(outstanding: set<Key>, expectAuth: bool, before: seq<Atom>, a: Atom) {
    match a
    case Transport(result) => !Positive(result)
    case Confirm(key, status) => !Positive(status) && key in outstanding && !Confirmed(before, key)
    case AuthResult(rcd, paired) => expectAuth && paired && !Positive(rcd)
    case AuthAsk(paired) => !(expectAuth && paired)
    case Unexpected => true
  }

  predicate Accepting(outstanding: set<Key>, expectAuth: bool, atoms: seq<Atom>) {
    forall i :: 0 <= i < |atoms| ==> !Rejecting(outstanding, expectAuth, atoms[..i], atoms[i])
  }

  /** All that was waited for has come. */
  predicate Complete(outstanding: set<Key>, expectAuth: bool, atoms: seq<Atom>) {
    && LastTransport(atoms) == Some(PC_OK)
    && (forall k :: k in outstanding ==> Confirmed(atoms, k))
    && (expectAuth ==> LastAuth(atoms) == Some(true))
  }

  function Standing(outstanding: set<Key>, expectAuth: bool, atoms: seq<Atom>): Progress {
    Progress(LastTransport(atoms) == Some(PC_OK), !expectAuth || LastAuth(atoms) == Some(true), expectAuth && Asked(atoms),
             set k | k in outstanding && !Confirmed(atoms, k))
  }

  lemma ConfirmedMore(atoms: seq<Atom>, a: Atom, k: Key)
    ensures Confirmed(atoms + [a], k) <==> Confirmed(atoms, k) || a == Confirm(k, PC_OK)
    ensures Asked(atoms + [a]) <==> Asked(atoms) || a == AuthAsk(true)
    ensures LastTransport(atoms + [a]) == if a.Transport? then Some(a.result) else LastTransport(atoms)
    ensures LastAuth(atoms + [a]) == if a.AuthResult? && a.paired then Some(a.rcd == PC_OK)
                                     else if a.AuthAsk? && a.paired then Some(true) else LastAuth(atoms)
  {
    var more := atoms + [a];
    assert more[..|atoms|] == atoms && more[|atoms|] == a;
    assert forall i :: 0 <= i < |atoms| ==> more[i] == atoms[i];
  }

  lemma AcceptingMore(outstanding: set<Key>, expectAuth: bool, atoms: seq<Atom>, a: Atom)
    ensures Accepting(outstanding, expectAuth, atoms + [a]) <==>
              Accepting(outstanding, expectAuth, atoms) && !Rejecting(outstanding, expectAuth, atoms, a)
  {
    var more := atoms + [a];
    assert more[..|atoms|] == atoms && more[|atoms|] == a;
    assert forall i :: 0 <= i < |atoms| ==> more[i] == atoms[i] && more[..i] == atoms[..i];
  }

  lemma StandingMore(outstanding: set<Key>, expectAuth: bool, atoms: seq<Atom>, a: Atom)
    ensures Absorb(expectAuth, Standing(outstanding, expectAuth, atoms), a)
            == if Rejecting(outstanding, expectAuth, atoms, a) then Err else Ok(Standing(outstanding, expectAuth, atoms + [a]))
  {
    hide LastTransport, LastAuth, Asked, Confirmed;
    forall k
      ensures Confirmed(atoms + [a], k) <==> Confirmed(atoms, k) || a == Confirm(k, PC_OK)
    {
      ConfirmedMore(atoms, a, k);
    }
    ConfirmedMore(atoms, a, Key(0, 0, 0));
    var was, now := Standing(outstanding, expectAuth, atoms).pending, Standing(outstanding, expectAuth, atoms + [a]).pending;
    assert now == if a.Confirm? && a.status == PC_OK then was - {a.key} else was;
    assert a.Confirm? && a.key !in was ==> was - {a.key} == was;
  }

  /** The loop's variables say just what has been said. */
  lemma {:induction false} AbsorbMeans(outstanding: set<Key>, expectAuth: bool, atoms: seq<Atom>)
    ensures AbsorbAll(expectAuth, Progress(false, !expectAuth, false, outstanding), atoms)
            == if Accepting(outstanding, expectAuth, atoms) then Ok(Standing(outstanding, expectAuth, atoms)) else Err
    decreases |atoms|
  {
    if atoms == [] {
      assert (set k | k in outstanding && !Confirmed(atoms, k)) == outstanding;
      return;
    }
    hide AbsorbAll, Absorb, Accepting, Standing, Rejecting;
    var n := |atoms| - 1;
    AbsorbMeans(outstanding, expectAuth, atoms[..n]);
    AbsorbOne(expectAuth, Progress(false, !expectAuth, false, outstanding), atoms[..n], atoms[n]);
    AcceptingMore(outstanding, expectAuth, atoms[..n], atoms[n]);
    StandingMore(outstanding, expectAuth, atoms[..n], atoms[n]);
    assert atoms[..n] + [atoms[n]] == atoms;
  }

  // ---- frames ----

  /** What a frame says; one that cannot be read, or not be confirmed in turn, ends the exchange. */
  function RawAtoms(pid: uint16, raw: seq<byte>): seq<Atom> {
    match ReadPacket(raw)
    case Rejected(_, _, _) => [Unexpected]
    case Accepted(p) =>
      DataIsThere(raw, p);
      PacketAtoms(pid, p) + (if Repliable(p) then [] else [Unexpected])
  }

  function AllAtoms(pid: uint16, frames: seq<seq<byte>>): seq<Atom> {
    if frames == [] then [] else RawAtoms(pid, frames[0]) + AllAtoms(pid, frames[1..])
  }

  lemma ReceiveAbsorbs(pid: uint16, expectAuth: bool, st: Progress, raw: seq<byte>)
    ensures Receive(pid, expectAuth, st, raw) == AbsorbAll(expectAuth, st, RawAtoms(pid, raw))
  {
    hide ReadPacket, AbsorbAll, PacketAtoms, Repliable;
    match ReadPacket(raw)
    case Rejected(_, _, _) =>
      AbsorbOne(expectAuth, st, [], Unexpected);
      assert [] + [Unexpected] == [Unexpected];
      EmptyAbsorbed(expectAuth, st);
    case Accepted(p) =>
      DataIsThere(raw, p);
      var atoms := PacketAtoms(pid, p);
      assert atoms + [] == atoms;
      AbsorbOne(expectAuth, st, atoms, Unexpected);
  }

  lemma EmptyAbsorbed(expectAuth: bool, st: Progress)
    ensures AbsorbAll(expectAuth, st, []) == Ok(st)
  {
  }

  /** The exchange stops with the first n frames: they are taken in, and only then is all done. */
  predicate StopsAfter(pid: uint16, expectAuth: bool, st: Progress, frames: seq<seq<byte>>, n: nat)
    requires n <= |frames|
  {
    && AbsorbAll(expectAuth, st, AllAtoms(pid, frames[..n])).Ok?
    && Done(AbsorbAll(expectAuth, st, AllAtoms(pid, frames[..n])).value)
    && forall m :: 0 <= m < n ==> !DoneAfter(pid, expectAuth, st, frames[..m])
  }

  predicate DoneAfter(pid: uint16, expectAuth: bool, st: Progress, frames: seq<seq<byte>>) {
    var r := AbsorbAll(expectAuth, st, AllAtoms(pid, frames));
    r.Ok? && Done(r.value)
  }

  lemma DoneAfterFirst(pid: uint16, expectAuth: bool, st: Progress, frames: seq<seq<byte>>, m: nat)
    requires 0 < m <= |frames|
    ensures AbsorbAll(expectAuth, st, AllAtoms(pid, frames[..m])) ==
              match Receive(pid, expectAuth, st, frames[0])
              case Err => Err
              case Ok(next) => AbsorbAll(expectAuth, next, AllAtoms(pid, frames[1..][..m - 1]))
  {
    hide AbsorbAll, Receive, RawAtoms;
    ReceiveAbsorbs(pid, expectAuth, st, frames[0]);
    assert frames[..m][0] == frames[0] && frames[..m][1..] == frames[1..][..m - 1];
    AbsorbInTwo(expectAuth, st, RawAtoms(pid, frames[0]), AllAtoms(pid, frames[..m][1..]));
  }

  lemma {:induction false} AwaitStops(pid: uint16, expectAuth: bool, st: Progress, frames: seq<seq<byte>>, n: nat)
    requires n <= |frames|
    ensures (var r := Await(pid, expectAuth, st, frames); r.Success? && r.consumed == n)
            <==> StopsAfter(pid, expectAuth, st, frames, n)
    ensures StopsAfter(pid, expectAuth, st, frames, n) ==>
              Await(pid, expectAuth, st, frames).required == AbsorbAll(expectAuth, st, AllAtoms(pid, frames[..n])).value.required
    decreases |frames|
  {
    hide AbsorbAll, Receive, RepliesOf;
    EmptyAbsorbed(expectAuth, st);
    assert frames[..0] == [];
    if Done(st) {
      if n > 0 {
        assert DoneAfter(pid, expectAuth, st, frames[..0]);
      }
    } else if n > 0 {
      DoneAfterFirst(pid, expectAuth, st, frames, n);
      var r := Receive(pid, expectAuth, st, frames[0]);
      if r.Ok? {
        AwaitStops(pid, expectAuth, r.value, frames[1..], n - 1);
        LaterStops(pid, expectAuth, st, frames, r.value, n);
      }
    }
  }

  lemma LaterStops(pid: uint16, expectAuth: bool, st: Progress, frames: seq<seq<byte>>, next: Progress, n: nat)
    requires 0 < n <= |frames| && !Done(st) && Receive(pid, expectAuth, st, frames[0]) == Ok(next)
    ensures StopsAfter(pid, expectAuth, st, frames, n) <==> StopsAfter(pid, expectAuth, next, frames[1..], n - 1)
  {
    hide AbsorbAll, Receive, AllAtoms;
    forall m | 0 < m <= n
      ensures DoneAfter(pid, expectAuth, st, frames[..m]) == DoneAfter(pid, expectAuth, next, frames[1..][..m - 1])
      ensures AbsorbAll(expectAuth, st, AllAtoms(pid, frames[..m])) == AbsorbAll(expectAuth, next, AllAtoms(pid, frames[1..][..m - 1]))
    {
      DoneAfterFirst(pid, expectAuth, st, frames, m);
    }
    assert !DoneAfter(pid, expectAuth, st, frames[..0]) by {
      assert frames[..0] == [];
      NoFrames(pid);
      EmptyAbsorbed(expectAuth, st);
    }
    if StopsAfter(pid, expectAuth, st, frames, n) {
      forall m | 0 <= m < n - 1
        ensures !DoneAfter(pid, expectAuth, next, frames[1..][..m])
      {
        assert !DoneAfter(pid, expectAuth, st, frames[..m + 1]);
      }
    }
    if StopsAfter(pid, expectAuth, next, frames[1..], n - 1) {
      forall m | 0 < m < n
        ensures !DoneAfter(pid, expectAuth, st, frames[..m])
      {
        assert !DoneAfter(pid, expectAuth, next, frames[1..][..m - 1]);
      }
    }
  }

  lemma NoFrames(pid: uint16)
    ensures AllAtoms(pid, []) == []
  {
  }

  /** The exchange of a packet succeeds, having read n frames, exactly when these hold no word that
      rejects, after them the last word on the packet is OK, each of its data records is confirmed
      and the last verdict on authorization is positive if one was expected, and this was so after
      no fewer frames. It reports credentials as required exactly when they were asked for. */
  lemma SuccessIsExact(pid: uint16, ss: Frame, expectAuth: bool, frames: seq<seq<byte>>, n: nat)
    requires n <= |frames|
    ensures (var r := Run(pid, ss, expectAuth, frames); r.Success? && r.consumed == n) <==>
              && Accepting(Outstanding(ss), expectAuth, AllAtoms(pid, frames[..n]))
              && Complete(Outstanding(ss), expectAuth, AllAtoms(pid, frames[..n]))
              && forall m :: 0 <= m < n ==> !Complete(Outstanding(ss), expectAuth, AllAtoms(pid, frames[..m]))
    ensures var r := Run(pid, ss, expectAuth, frames);
            r.Success? && r.consumed == n ==> (r.required <==> expectAuth && Asked(AllAtoms(pid, frames[..n])))
  {
    hide Await, AbsorbAll, Accepting, AllAtoms, Confirmed, LastAuth, LastTransport, Asked, Outstanding;
    var out := Outstanding(ss);
    AwaitStops(pid, expectAuth, Begin(ss, expectAuth), frames, n);
    forall m | 0 <= m <= n
      ensures DoneAfter(pid, expectAuth, Begin(ss, expectAuth), frames[..m])
              <==> Accepting(out, expectAuth, AllAtoms(pid, frames[..m])) && Complete(out, expectAuth, AllAtoms(pid, frames[..m]))
      ensures Accepting(out, expectAuth, AllAtoms(pid, frames[..n])) ==> Accepting(out, expectAuth, AllAtoms(pid, frames[..m]))
    {
      AbsorbMeans(out, expectAuth, AllAtoms(pid, frames[..m]));
      StandingDone(out, expectAuth, AllAtoms(pid, frames[..m]));
      PrefixAccepts(out, expectAuth, pid, frames, m, n);
    }
    AbsorbMeans(out, expectAuth, AllAtoms(pid, frames[..n]));
  }

  lemma StandingDone(outstanding: set<Key>, expectAuth: bool, atoms: seq<Atom>)
    ensures Done(Standing(outstanding, expectAuth, atoms)) <==> Complete(outstanding, expectAuth, atoms)
  {
    hide Confirmed, LastAuth, LastTransport, Asked;
    var left := Standing(outstanding, expectAuth, atoms).pending;
    if left == {} {
      forall k | k in outstanding
        ensures Confirmed(atoms, k)
      {
        assert k !in left;
      }
    }
  }

  lemma {:induction false} AtomsOfPrefix(pid: uint16, frames: seq<seq<byte>>, m: nat)
    requires m <= |frames|
    ensures AllAtoms(pid, frames[..m]) <= AllAtoms(pid, frames)
    decreases m
  {
    hide RawAtoms;
    if m > 0 {
      assert frames[..m][0] == frames[0] && frames[..m][1..] == frames[1..][..m - 1];
      AtomsOfPrefix(pid, frames[1..], m - 1);
    }
  }

  lemma PrefixAccepts(outstanding: set<Key>, expectAuth: bool, pid: uint16, frames: seq<seq<byte>>, m: nat, n: nat)
    requires m <= n <= |frames|
    ensures Accepting(outstanding, expectAuth, AllAtoms(pid, frames[..n])) ==>
              Accepting(outstanding, expectAuth, AllAtoms(pid, frames[..m]))
  {
    hide AllAtoms;
    assert frames[..n][..m] == frames[..m];
    AtomsOfPrefix(pid, frames[..n], m);
    var a, b := AllAtoms(pid, frames[..m]), AllAtoms(pid, frames[..n]);
    assert forall i :: 0 <= i < |a| ==> a[i] == b[i] && a[..i] == b[..i];
  }
}
