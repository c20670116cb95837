/** Splitting and reordering: when the outcome of an exchange depends on how the destination spreads
    its words over packets, and when not. */
module ExchangeOrder {
  import opened Bytes
  import Crc
  import opened Flags
  import Records
  import opened Services
  import opened Packets
  import opened Answers
  import opened Exchange
  import opened ExchangeExact
  import opened Agreement
  import opened AnswerLimits
  import C = Connection

  // ---- the verdicts among the words ----

  /** The words about the packet as a whole and about authorization, in order. */
  function Verdicts(atoms: seq<Atom>): seq<Atom> {
    if atoms == [] then []
    else
      var a := atoms[|atoms| - 1];
      Verdicts(atoms[..|atoms| - 1])
      + (if a.Transport? || (a.AuthResult? && a.paired) || (a.AuthAsk? && a.paired) then [a] else [])
  }

  lemma {:induction false} LastVerdicts(atoms: seq<Atom>)
    ensures LastTransport(atoms) == LastTransport(Verdicts(atoms)) && LastAuth(atoms) == LastAuth(Verdicts(atoms))
    ensures Asked(atoms) <==> Asked(Verdicts(atoms))
    decreases |atoms|
  {
    if atoms == [] {
      return;
    }
    hide LastTransport, LastAuth, Asked, Confirmed;
    var n := |atoms| - 1;
    LastVerdicts(atoms[..n]);
    ConfirmedMore(atoms[..n], atoms[n], Key(0, 0, 0));
    ConfirmedMore(Verdicts(atoms[..n]), atoms[n], Key(0, 0, 0));
    assert atoms[..n] + [atoms[n]] == atoms;
    assert Verdicts(atoms[..n]) + [] == Verdicts(atoms[..n]);
  }

  lemma {:induction false} VerdictsConcat(a: seq<Atom>, b: seq<Atom>)
    ensures Verdicts(a + b) == Verdicts(a) + Verdicts(b)
    decreases |b|
  {
    if b == [] {
      assert a + b == a;
      assert Verdicts(a) + [] == Verdicts(a);
    } else {
      var n := |b| - 1;
      VerdictsConcat(a, b[..n]);
      assert (a + b)[..|a + b| - 1] == a + b[..n];
    }
  }

  /** The confirmations among the words, whatever their order and number. */
  function Confirmations(atoms: seq<Atom>): set<Atom> {
    set a | a in atoms && a.Confirm?
  }

  /** The last words are such that nothing but confirmations can be missing. */
  predicate Ready(expectAuth: bool, verdicts: seq<Atom>) {
    LastTransport(verdicts) == Some(PC_OK) && (expectAuth ==> LastAuth(verdicts) == Some(true))
  }

  /** Once the verdicts were all good, they are so in the end: nothing is taken back to in progress
      for good after that. */
  predicate Settled(expectAuth: bool, verdicts: seq<Atom>) {
    forall i :: 0 <= i <= |verdicts| && Ready(expectAuth, verdicts[..i]) ==> Ready(expectAuth, verdicts)
  }

  /** No word that could reject, wherever it stands. */
  predicate Peaceful(outstanding: set<Key>, expectAuth: bool, atoms: seq<Atom>) {
    forall i :: 0 <= i < |atoms| ==> !Rejecting(outstanding, expectAuth, [], atoms[i])
  }

  lemma PeacefulAccepts(outstanding: set<Key>, expectAuth: bool, atoms: seq<Atom>)
    requires Peaceful(outstanding, expectAuth, atoms)
    ensures Accepting(outstanding, expectAuth, atoms)
  {
    forall i | 0 <= i < |atoms|
      ensures !Rejecting(outstanding, expectAuth, atoms[..i], atoms[i])
    {
      assert !Rejecting(outstanding, expectAuth, [], atoms[i]);
    }
  }

  lemma CompleteWhenReady(outstanding: set<Key>, expectAuth: bool, atoms: seq<Atom>)
    ensures Complete(outstanding, expectAuth, atoms)
            <==> Ready(expectAuth, Verdicts(atoms)) && forall k :: k in outstanding ==> Confirm(k, PC_OK) in Confirmations(atoms)
  {
    hide LastTransport, LastAuth;
    LastVerdicts(atoms);
    forall k
      ensures Confirmed(atoms, k) <==> Confirm(k, PC_OK) in Confirmations(atoms)
    {
      assert Confirmed(atoms, k) <==> Confirm(k, PC_OK) in atoms;
    }
  }

  // ---- what each packet says ----

  function Flat(script: seq<seq<Atom>>): seq<Atom> {
    if script == [] then [] else script[0] + Flat(script[1..])
  }

  /** Some of the packets, from the first on, say all that was waited for and nothing that rejects. */
  predicate Succeeds(outstanding: set<Key>, expectAuth: bool, script: seq<seq<Atom>>) {
    exists n :: 0 <= n <= |script| && Suffices(outstanding, expectAuth, script[..n])
  }

  predicate Suffices(outstanding: set<Key>, expectAuth: bool, script: seq<seq<Atom>>) {
    Accepting(outstanding, expectAuth, Flat(script)) && Complete(outstanding, expectAuth, Flat(script))
  }

  function Script(pid: uint16, frames: seq<seq<byte>>): (script: seq<seq<Atom>>)
    ensures |script| == |frames| && forall i :: 0 <= i < |frames| ==> script[i] == RawAtoms(pid, frames[i])
  {
    seq(|frames|, i requires 0 <= i < |frames| => RawAtoms(pid, frames[i]))
  }

  lemma {:induction false} FlatScript(pid: uint16, frames: seq<seq<byte>>)
    ensures Flat(Script(pid, frames)) == AllAtoms(pid, frames)
    decreases |frames|
  {
    hide RawAtoms;
    if frames != [] {
      FlatScript(pid, frames[1..]);
      assert Script(pid, frames)[1..] == Script(pid, frames[1..]);
    }
  }

  lemma FlatPart(pid: uint16, frames: seq<seq<byte>>, n: nat)
    requires n <= |frames|
    ensures Flat(Script(pid, frames)[..n]) == AllAtoms(pid, frames[..n])
  {
    hide RawAtoms, Flat, AllAtoms;
    FlatScript(pid, frames[..n]);
    assert Script(pid, frames)[..n] == Script(pid, frames[..n]);
  }

  lemma {:induction false} ConsumedWithin(pid: uint16, expectAuth: bool, st: Progress, frames: seq<seq<byte>>)
    ensures var r := Await(pid, expectAuth, st, frames); r.Success? ==> r.consumed <= |frames|
    decreases |frames|
  {
    hide Receive, RepliesOf, Done;
    if frames != [] {
      var r := Receive(pid, expectAuth, st, frames[0]);
      if r.Ok? {
        ConsumedWithin(pid, expectAuth, r.value, frames[1..]);
      }
    }
  }

  /** Of the prefixes that suffice, the shortest is where the exchange stops. */
  lemma {:induction false} FirstSuffices(pid: uint16, ss: Frame, expectAuth: bool, frames: seq<seq<byte>>, n: nat)
    requires n <= |frames| && Suffices(Outstanding(ss), expectAuth, Script(pid, frames)[..n])
    ensures Run(pid, ss, expectAuth, frames).Success?
    decreases n
  {
    hide Run, Outstanding, AllAtoms, Script, Complete, Accepting, Flat;
    var out := Outstanding(ss);
    FlatPart(pid, frames, n);
    if m :| 0 <= m < n && Complete(out, expectAuth, AllAtoms(pid, frames[..m])) {
      PrefixAccepts(out, expectAuth, pid, frames, m, n);
      FlatPart(pid, frames, m);
      FirstSuffices(pid, ss, expectAuth, frames, m);
    } else {
      SuccessIsExact(pid, ss, expectAuth, frames, n);
    }
  }

  /** The exchange succeeds exactly when what the packets say succeeds. */
  lemma RunSucceeds(pid: uint16, ss: Frame, expectAuth: bool, frames: seq<seq<byte>>)
    ensures Run(pid, ss, expectAuth, frames).Success? <==> Succeeds(Outstanding(ss), expectAuth, Script(pid, frames))
  {
    hide Outstanding, AllAtoms, Script, Complete, Accepting, Flat, Await;
    var r := Run(pid, ss, expectAuth, frames);
    if r.Success? {
      ConsumedWithin(pid, expectAuth, Begin(ss, expectAuth), frames);
      SuccessIsExact(pid, ss, expectAuth, frames, r.consumed);
      FlatPart(pid, frames, r.consumed);
      assert Suffices(Outstanding(ss), expectAuth, Script(pid, frames)[..r.consumed]);
    }
    if n :| 0 <= n <= |frames| && Suffices(Outstanding(ss), expectAuth, Script(pid, frames)[..n]) {
      FirstSuffices(pid, ss, expectAuth, frames, n);
    }
  }

  // ---- settled verdicts: the order of the rest does not matter ----

  lemma {:induction false} FlatSplit(script: seq<seq<Atom>>, n: nat)
    requires n <= |script|
    ensures Flat(script) == Flat(script[..n]) + Flat(script[n..])
    decreases n
  {
    if n == 0 {
      assert script[0..] == script && script[..0] == [];
    } else {
      FlatSplit(script[1..], n - 1);
      assert script[..n][1..] == script[1..][..n - 1] && script[1..][n - 1..] == script[n..];
      assert script[0] + (Flat(script[1..][..n - 1]) + Flat(script[n..])) == script[0] + Flat(script[1..][..n - 1]) + Flat(script[n..]);
    }
  }

  /** With settled verdicts the exchange succeeds exactly when all its words together complete it. */
  lemma SettledSuccess(outstanding: set<Key>, expectAuth: bool, script: seq<seq<Atom>>)
    requires Peaceful(outstanding, expectAuth, Flat(script)) && Settled(expectAuth, Verdicts(Flat(script)))
    ensures Succeeds(outstanding, expectAuth, script) <==> Complete(outstanding, expectAuth, Flat(script))
  {
    hide LastTransport, LastAuth, Flat, Complete, Accepting, Verdicts;
    var all := Flat(script);
    CompleteWhenReady(outstanding, expectAuth, all);
    assert script[..|script|] == script;
    if Complete(outstanding, expectAuth, all) {
      PeacefulAccepts(outstanding, expectAuth, all);
      assert Suffices(outstanding, expectAuth, script[..|script|]);
    }
    if n :| 0 <= n <= |script| && Suffices(outstanding, expectAuth, script[..n]) {
      var part, rest := Flat(script[..n]), Flat(script[n..]);
      FlatSplit(script, n);
      VerdictsConcat(part, rest);
      CompleteWhenReady(outstanding, expectAuth, part);
      assert Verdicts(all)[..|Verdicts(part)|] == Verdicts(part);
    }
  }

  /** Two lists of packets with the same verdicts, in order, and the same confirmations, in any order,
      in any packets and any number of times, both end the exchange of a packet alike, if nothing in
      them rejects and their verdicts are settled. */
  lemma OrderDoesNotMatter(pid: uint16, ss: Frame, expectAuth: bool, a: seq<seq<byte>>, b: seq<seq<byte>>)
    requires Peaceful(Outstanding(ss), expectAuth, AllAtoms(pid, a)) && Peaceful(Outstanding(ss), expectAuth, AllAtoms(pid, b))
    requires Verdicts(AllAtoms(pid, a)) == Verdicts(AllAtoms(pid, b))
    requires Confirmations(AllAtoms(pid, a)) == Confirmations(AllAtoms(pid, b))
    requires Settled(expectAuth, Verdicts(AllAtoms(pid, a)))
    ensures Run(pid, ss, expectAuth, a).Success? <==> Run(pid, ss, expectAuth, b).Success?
  {
    hide Run, AllAtoms, Flat, Verdicts, Peaceful, Outstanding, Settled, Complete, Confirmations, Ready, Succeeds;
    var out := Outstanding(ss);
    FlatScript(pid, a);
    FlatScript(pid, b);
    RunSucceeds(pid, ss, expectAuth, a);
    RunSucceeds(pid, ss, expectAuth, b);
    SettledSuccess(out, expectAuth, Script(pid, a));
    SettledSuccess(out, expectAuth, Script(pid, b));
    CompleteWhenReady(out, expectAuth, AllAtoms(pid, a));
    CompleteWhenReady(out, expectAuth, AllAtoms(pid, b));
  }

  // ---- one word at a time ----

  function Singles(atoms: seq<Atom>): (script: seq<seq<Atom>>)
    ensures |script| == |atoms|
  {
    if atoms == [] then [] else [[atoms[0]]] + Singles(atoms[1..])
  }

  lemma {:induction false} FlatSingles(atoms: seq<Atom>, i: nat)
    requires i <= |atoms|
    ensures Flat(Singles(atoms)[..i]) == atoms[..i]
    decreases i
  {
    if i > 0 {
      FlatSingles(atoms[1..], i - 1);
      assert Singles(atoms)[..i][1..] == Singles(atoms[1..])[..i - 1];
      assert [atoms[0]] + atoms[1..][..i - 1] == atoms[..i];
    }
  }

  lemma {:induction false} NoVerdicts(atoms: seq<Atom>)
    requires forall i :: 0 <= i < |atoms| ==> atoms[i].Confirm?
    ensures Verdicts(atoms) == []
    decreases |atoms|
  {
    if atoms != [] {
      NoVerdicts(atoms[..|atoms| - 1]);
    }
  }

  lemma {:induction false} VerdictsPart(verdicts: seq<Atom>, i: nat)
    requires Verdicts(verdicts) == verdicts && i <= |verdicts|
    ensures Verdicts(verdicts[..i]) == verdicts[..i]
    decreases |verdicts|
  {
    if i == |verdicts| {
      assert verdicts[..i] == verdicts;
    } else {
      var n := |verdicts| - 1;
      VerdictsShorter(verdicts[..n]);
      assert Verdicts(verdicts)[..n] == verdicts[..n];
      VerdictsPart(verdicts[..n], i);
      assert verdicts[..n][..i] == verdicts[..i];
    }
  }

  lemma {:induction false} VerdictsShorter(atoms: seq<Atom>)
    ensures |Verdicts(atoms)| <= |atoms|
    decreases |atoms|
  {
    if atoms != [] {
      VerdictsShorter(atoms[..|atoms| - 1]);
    }
  }

  // ---- a split that fails ----

  /** The confirmations of a packet in a data packet of their own, not in the response. */
  function Separate(p: Packet, rn: uint16, id: uint16): Packet
    requires p.sfrd.AppData? && 7 * |Groups(p.sfrd.services)| + 6 * DataCount(p.sfrd.services) <= 65519
  {
    var g := Groups(p.sfrd.services);
    Packet(1, 0, "00", "0", "00", "0", "00", 11, 0, 7 * |g| + 6 * DataCount(p.sfrd.services), id, PT_APPDATA, 0, 0, 0, 0,
           AppData(AnswerRecords(g, rn)), 0, PC_OK)
  }

  lemma {:induction false} NothingToConfirm(ss: Frame)
    requires forall i :: 0 <= i < |ss| ==> !HasData(ss[i])
    ensures Groups(ss) == [] && DataCount(ss) == 0
    decreases |ss|
  {
    if ss != [] {
      NothingToConfirm(ss[..|ss| - 1]);
    }
  }

  lemma ConfirmationsOnly(g: seq<Group>, rn: nat)
    ensures Services.Unplaced(AnswerRecords(g, rn))
    ensures Groups(AnswerRecords(g, rn)) == [] && DataCount(AnswerRecords(g, rn)) == 0
  {
    hide Groups, DataCount;
    var ss := AnswerRecords(g, rn);
    forall i | 0 <= i < |ss|
      ensures !HasData(ss[i]) && Records.Unplaced(ss[i].rd)
    {
      assert ss[i].rd == Answers.Confirmations(g[i].crns);
    }
    NothingToConfirm(ss);
  }

  lemma SeparateEncodes(p: Packet, rn: uint16, id: uint16)
    requires p.sfrd.AppData? && 7 * |Groups(p.sfrd.services)| + 6 * DataCount(p.sfrd.services) <= 65519
    ensures Packets.Canonical(Separate(p, rn, id)) && Packets.Encode(Separate(p, rn, id)).Ok?
  {
    hide Groups, DataCount, AnswerRecord, AnswerRecords, Crc.Crc8, Crc.Crc16, Services.Concat, Services.Canonical, ParseBits, Fits16,
         NonEmpty, EncodedHeader;
    var g := Groups(p.sfrd.services);
    AnswerPartitions(p.sfrd.services);
    C.GroupsNonEmpty(p.sfrd.services);
    CountsAgree(p.sfrd.services);
    AnswerLength(g, rn);
    SmallGroups(g);
    PlainFlags();
  }

  lemma SmallGroups(g: seq<Group>)
    requires 6 * Total(g) <= 65535
    ensures Fits16(g)
  {
    forall i | 0 <= i < |g|
      ensures 6 * |g[i].crns| <= 65535
    {
      GroupBelowTotal(g, i);
    }
  }

  lemma SeparateAtoms(p: Packet, rn: uint16, id: uint16)
    requires p.sfrd.AppData? && 7 * |Groups(p.sfrd.services)| + 6 * DataCount(p.sfrd.services) <= 65519
    ensures Packets.Encode(Separate(p, rn, id)).Ok?
    ensures RawAtoms(p.pid, Packets.Encode(Separate(p, rn, id)).value)
            == FrameAtoms(AnswerRecords(Groups(p.sfrd.services), rn))
  {
    hide ReadPacket, Packets.Encode, Sealed, FrameAtoms, AnswerRecord, Groups, DataCount, Packets.Canonical, Services.Unplaced;
    var q := Separate(p, rn, id);
    var records := AnswerRecords(Groups(p.sfrd.services), rn);
    SeparateEncodes(p, rn, id);
    Packets.DecodeEncode(q);
    ConfirmationsOnly(Groups(p.sfrd.services), rn);
    SealedSame(q);
    AnswerSize(id, records, 0, id);
    assert FrameAtoms(records) + [] == FrameAtoms(records);
  }

  /** The guarantee that the order does not matter is not to be had: for any request with data whose
      answer fits a packet, the response that confirms it, followed by one that says in progress,
      lets the exchange succeed; the same confirmations sent after these two responses do not. */
  lemma SplittingFails(s: C.State, p: Packet, rn: uint16, id: uint16)
    requires p.pt == PT_APPDATA && p.sfrd.AppData? && Outstanding(p.sfrd.services) != {}
    requires 7 * |Groups(p.sfrd.services)| + 6 * DataCount(p.sfrd.services) <= 65519
    requires rn == C.Next16(s.rn)
    ensures var answer := Packets.Encode(C.Reply(s, PC_OK, p.pid, p.sfrd.services));
            var bare := Packets.Encode(C.Reply(s, PC_OK, p.pid, []));
            var progress := Packets.Encode(C.Reply(s, PC_IN_PROGRESS, p.pid, p.sfrd.services));
            var apart := Packets.Encode(Separate(p, rn, id));
            && answer.Ok? && bare.Ok? && progress.Ok? && apart.Ok?
            && var joined, split := [answer.value, progress.value], [bare.value, progress.value, apart.value];
               && Verdicts(AllAtoms(p.pid, joined)) == Verdicts(AllAtoms(p.pid, split))
               && Confirmations(AllAtoms(p.pid, joined)) == Confirmations(AllAtoms(p.pid, split))
               && Run(p.pid, p.sfrd.services, false, joined).Success?
               && Run(p.pid, p.sfrd.services, false, split).Failure?
  {
    hide ReadPacket, Packets.Encode, Run, RawAtoms, FrameAtoms, Groups, DataCount, AnswerRecord, AllAtoms, Outstanding, Verdicts,
         Confirmations, C.Reply, Packets.Canonical;
    var ss := p.sfrd.services;
    var records := FrameAtoms(AnswerRecords(Groups(ss), rn));
    AnswersFit(s, p);
    ReplyAtoms(s, p);
    RefusalAtoms(s, PC_IN_PROGRESS, p);
    BareAtoms(s, p);
    SeparateAtoms(p, rn, id);
    var answer, bare, progress, apart := Packets.Encode(C.Reply(s, PC_OK, p.pid, ss)).value, Packets.Encode(C.Reply(s, PC_OK, p.pid, [])).value,
      Packets.Encode(C.Reply(s, PC_IN_PROGRESS, p.pid, ss)).value, Packets.Encode(Separate(p, rn, id)).value;
    ResponseSuffices(s, p, [progress]);
    assert [answer] + [progress] == [answer, progress];
    AnswerConfirmsAll(ss, rn);
    SameWords(p.pid, answer, bare, progress, apart, records);
    SplitFails(p.pid, ss, bare, progress, apart, records);
  }

  lemma AnswersFit(s: C.State, p: Packet)
    requires p.sfrd.AppData? && 7 * |Groups(p.sfrd.services)| + 6 * DataCount(p.sfrd.services) <= 65519
    ensures Packets.Encode(C.Reply(s, PC_OK, p.pid, p.sfrd.services)).Ok? && Packets.Encode(C.Reply(s, PC_OK, p.pid, [])).Ok?
    ensures Packets.Encode(C.Reply(s, PC_IN_PROGRESS, p.pid, p.sfrd.services)).Ok?
  {
    hide Packets.Encode, Groups, DataCount, Packets.Canonical;
    AnswerSize(p.pid, p.sfrd.services, C.Next16(s.rn), C.Next16(s.pid));
    NothingToConfirm([]);
    AnswerSize(p.pid, [], C.Next16(s.rn), C.Next16(s.pid));
    RefusalEncodes(PC_IN_PROGRESS, p.pid, p.sfrd.services, C.Next16(s.rn), C.Next16(s.pid));
  }

  lemma BareAtoms(s: C.State, p: Packet)
    requires p.pt == PT_APPDATA && p.sfrd.AppData? && Packets.Encode(C.Reply(s, PC_OK, p.pid, [])).Ok?
    ensures RawAtoms(p.pid, Packets.Encode(C.Reply(s, PC_OK, p.pid, [])).value) == [Transport(PC_OK)]
  {
    hide RawAtoms, Packets.Encode, C.Reply, Groups, DataCount;
    var q := p.(sfrd := AppData([]));
    ReplyAtoms(s, q);
    NothingToConfirm([]);
    assert AnswerRecords([], C.Next16(s.rn)) == [];
    assert FrameAtoms([]) == [] && [Transport(PC_OK)] + [] == [Transport(PC_OK)];
  }

  lemma SameWords(pid: uint16, answer: seq<byte>, bare: seq<byte>, progress: seq<byte>, apart: seq<byte>, records: seq<Atom>)
    requires RawAtoms(pid, answer) == [Transport(PC_OK)] + records && RawAtoms(pid, bare) == [Transport(PC_OK)]
    requires RawAtoms(pid, progress) == [Transport(PC_IN_PROGRESS)] && RawAtoms(pid, apart) == records && AllConfirm(records)
    ensures var a, b := AllAtoms(pid, [answer, progress]), AllAtoms(pid, [bare, progress, apart]);
            && Verdicts(a) == Verdicts(b) && Confirmations(a) == Confirmations(b)
  {
    hide RawAtoms, Verdicts;
    var t, i := [Transport(PC_OK)], [Transport(PC_IN_PROGRESS)];
    ThreeFrames(pid, bare, progress, apart);
    TwoFrames(pid, answer, progress, []);
    assert ([answer, progress] + [])[..2] == [answer, progress];
    NoVerdicts(records);
    VerdictsConcat(t, records);
    VerdictsConcat(t + records, i);
    VerdictsConcat(t, i);
    VerdictsConcat(t + i, records);
    assert Verdicts(t) + [] + Verdicts(i) == Verdicts(t) + Verdicts(i) + [];
    assert forall a :: a in t + records + i <==> a in t + i + records;
  }

  lemma ThreeFrames(pid: uint16, f: seq<byte>, g: seq<byte>, h: seq<byte>)
    ensures AllAtoms(pid, [f, g, h]) == RawAtoms(pid, f) + RawAtoms(pid, g) + RawAtoms(pid, h)
    ensures AllAtoms(pid, [f, g, h][..0]) == [] && AllAtoms(pid, [f, g, h][..1]) == RawAtoms(pid, f)
    ensures AllAtoms(pid, [f, g, h][..2]) == RawAtoms(pid, f) + RawAtoms(pid, g)
  {
    hide RawAtoms;
    TwoFrames(pid, f, g, [h]);
    assert [f, g] + [h] == [f, g, h];
    assert [f, g, h][1..] == [g, h] && [g, h][1..] == [h] && [h][1..] == [];
    var a, b, c := RawAtoms(pid, f), RawAtoms(pid, g), RawAtoms(pid, h);
    assert AllAtoms(pid, [h]) == c + [] == c;
    assert AllAtoms(pid, [g, h]) == b + c;
    assert a + (b + c) == a + b + c;
  }

  lemma SplitFails(pid: uint16, ss: Frame, bare: seq<byte>, progress: seq<byte>, apart: seq<byte>, records: seq<Atom>)
    requires Outstanding(ss) != {} && AllConfirm(records)
    requires RawAtoms(pid, bare) == [Transport(PC_OK)] && RawAtoms(pid, progress) == [Transport(PC_IN_PROGRESS)]
    requires RawAtoms(pid, apart) == records
    ensures Run(pid, ss, false, [bare, progress, apart]).Failure?
  {
    hide RawAtoms, Run, AllAtoms, Outstanding, LastTransport, Accepting;
    var frames := [bare, progress, apart];
    var r := Run(pid, ss, false, frames);
    ConsumedWithinRun(pid, ss, false, frames);
    ThreeFrames(pid, bare, progress, apart);
    if r.Success? {
      SuccessIsExact(pid, ss, false, frames, r.consumed);
      assert frames[..3] == frames;
      var t, i := [Transport(PC_OK)], [Transport(PC_IN_PROGRESS)];
      var k :| k in Outstanding(ss);
      assert !Confirmed(t, k);
      LastStays(t + i, records);
      LastIs(t, PC_IN_PROGRESS);
      NothingSaid();
      assert false;
    }
  }

  lemma ConsumedWithinRun(pid: uint16, ss: Frame, expectAuth: bool, frames: seq<seq<byte>>)
    ensures var r := Run(pid, ss, expectAuth, frames); r.Success? ==> r.consumed <= |frames|
  {
    hide Await;
    ConsumedWithin(pid, expectAuth, Begin(ss, expectAuth), frames);
  }

  lemma LastIs(atoms: seq<Atom>, code: byte)
    ensures LastTransport(atoms + [Transport(code)]) == Some(code)
  {
  }

  lemma {:induction false} LastStays(atoms: seq<Atom>, records: seq<Atom>)
    requires AllConfirm(records)
    ensures LastTransport(atoms + records) == LastTransport(atoms)
    decreases |records|
  {
    if records == [] {
      assert atoms + [] == atoms;
    } else {
      var n := |records| - 1;
      LastStays(atoms, records[..n]);
      assert (atoms + records)[..|atoms + records| - 1] == atoms + records[..n];
    }
  }
}
