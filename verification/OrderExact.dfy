/** The exact condition under which splitting and reordering a destination's words over its packets
    does not change whether an exchange succeeds. */
module OrderExact {
  import opened Bytes
  import S = Subrecords
  import opened Services
  import opened Packets
  import Answers
  import opened Agreement
  import opened Exchange
  import opened ExchangeExact
  import opened ExchangeOrder
  import opened Sayings
  import RelayWriter

  // ---- the question ----

  /** Packets that say these verdicts, in this order, and these confirmations, and nothing that rejects. */
  predicate Says(pid: uint16, ss: Frame, expectAuth: bool, frames: seq<seq<byte>>, verdicts: seq<Atom>, confirmations: set<Atom>) {
    var all := AllAtoms(pid, frames);
    Peaceful(Outstanding(ss), expectAuth, all) && Verdicts(all) == verdicts && Confirmations(all) == confirmations
  }

  /** However they are put into packets, the exchange ends the same. */
  ghost predicate Alike(pid: uint16, ss: Frame, expectAuth: bool, verdicts: seq<Atom>, confirmations: set<Atom>) {
    forall a, b :: Says(pid, ss, expectAuth, a, verdicts, confirmations) && Says(pid, ss, expectAuth, b, verdicts, confirmations) ==>
      (Run(pid, ss, expectAuth, a).Success? <==> Run(pid, ss, expectAuth, b).Success?)
  }

  /** Verdicts and confirmations none of which rejects. */
  predicate Meant(outstanding: set<Key>, expectAuth: bool, verdicts: seq<Atom>, confirmations: set<Atom>) {
    && Verdicts(verdicts) == verdicts && Peaceful(outstanding, expectAuth, verdicts)
    && forall a :: a in confirmations ==> a.Confirm? && !Rejecting(outstanding, expectAuth, [], a)
  }

  /** A record that is not confirmed at all. */
  predicate Missing(outstanding: set<Key>, confirmations: set<Atom>) {
    exists k :: k in outstanding && Confirm(k, PC_OK) !in confirmations
  }

  /** All verdicts are good after the first i. */
  predicate ReadyAt(expectAuth: bool, verdicts: seq<Atom>, i: nat)
    requires i <= |verdicts|
  {
    Ready(expectAuth, verdicts[..i])
  }

  /** From p to q the verdicts are good in between, but at neither end. */
  predicate Gap(expectAuth: bool, verdicts: seq<Atom>, p: nat, q: nat)
    requires p < q <= |verdicts|
  {
    && !ReadyAt(expectAuth, verdicts, p) && !ReadyAt(expectAuth, verdicts, q)
    && forall i :: p < i < q ==> ReadyAt(expectAuth, verdicts, i)
  }

  /** The packets can be cut so that the verdicts are good after none of them: they are not good in
      the end, and each stretch where they are fits into one packet with what ends it. */
  predicate Avoidable(expectAuth: bool, verdicts: seq<Atom>) {
    && !Ready(expectAuth, verdicts)
    && forall p, q :: 0 <= p < q <= |verdicts| && Gap(expectAuth, verdicts, p, q) ==> Sayable(verdicts[p..q])
  }

  // ---- when it does not matter ----

  lemma MissingFails(pid: uint16, ss: Frame, expectAuth: bool, frames: seq<seq<byte>>)
    requires Missing(Outstanding(ss), Confirmations(AllAtoms(pid, frames)))
    ensures !Run(pid, ss, expectAuth, frames).Success?
  {
    hide Run, Outstanding, AllAtoms, LastTransport, LastAuth, Accepting, Flat;
    var out := Outstanding(ss);
    var k :| k in out && Confirm(k, PC_OK) !in Confirmations(AllAtoms(pid, frames));
    RunSucceeds(pid, ss, expectAuth, frames);
    var script := Script(pid, frames);
    if n :| 0 <= n <= |script| && Suffices(out, expectAuth, script[..n]) {
      FlatSplit(script, n);
      FlatScript(pid, frames);
      assert false;
    }
  }

  /** Where the n-th packet ends among the verdicts. */
  function EndOf(script: seq<seq<Atom>>, n: nat): nat
    requires n <= |script|
  {
    |Verdicts(Flat(script[..n]))|
  }

  lemma EndsAt(script: seq<seq<Atom>>, n: nat)
    requires n <= |script|
    ensures EndOf(script, n) <= |Verdicts(Flat(script))|
    ensures Verdicts(Flat(script))[..EndOf(script, n)] == Verdicts(Flat(script[..n]))
    ensures n < |script| ==> EndOf(script, n) <= EndOf(script, n + 1)
                             && Verdicts(Flat(script[..n + 1])) == Verdicts(Flat(script[..n])) + Verdicts(script[n])
  {
    hide Flat, Verdicts;
    FlatSplit(script, n);
    VerdictsConcat(Flat(script[..n]), Flat(script[n..]));
    if n < |script| {
      FlatSplit(script[..n + 1], n);
      assert script[..n + 1][..n] == script[..n] && script[..n + 1][n..] == [script[n]];
      FlatOne(script[n]);
      VerdictsConcat(Flat(script[..n]), script[n]);
    }
  }

  lemma FlatOne(words: seq<Atom>)
    ensures Flat([words]) == words && Flat([]) == []
  {
    assert [words][1..] == [];
    assert words + [] == words;
  }

  /** The packet that reaches past p. */
  lemma {:induction false} Passing(script: seq<seq<Atom>>, p: nat, m: nat) returns (n: nat)
    requires m <= |script| && p < EndOf(script, m)
    ensures n < m && EndOf(script, n) <= p < EndOf(script, n + 1)
    decreases m
  {
    hide Flat, Verdicts;
    if m == 0 {
      FlatOne([]);
      assert script[..0] == [];
      assert Verdicts([]) == [] by {
        NoneSaid();
      }
      assert false;
    }
    if EndOf(script, m - 1) <= p {
      n := m - 1;
    } else {
      n := Passing(script, p, m - 1);
    }
  }

  /** When the verdicts are good after no packet, it was avoidable. */
  lemma CutsAvoid(expectAuth: bool, script: seq<seq<Atom>>)
    requires forall n :: 0 <= n <= |script| ==> !Ready(expectAuth, Verdicts(Flat(script[..n])))
    requires forall n :: 0 <= n < |script| ==> Sayable(Verdicts(script[n]))
    ensures Avoidable(expectAuth, Verdicts(Flat(script)))
  {
    hide Flat, Verdicts, Ready, Sayable;
    var verdicts := Verdicts(Flat(script));
    assert script[..|script|] == script;
    forall p, q | 0 <= p < q <= |verdicts| && Gap(expectAuth, verdicts, p, q)
      ensures Sayable(verdicts[p..q])
    {
      assert EndOf(script, |script|) == |verdicts|;
      var n := Passing(script, p, |script|);
      EndsAt(script, n);
      EndsAt(script, n + 1);
      var c, d := EndOf(script, n), EndOf(script, n + 1);
      assert !ReadyAt(expectAuth, verdicts, d);
      assert d >= q;
      var said := Verdicts(script[n]);
      assert verdicts[..d] == verdicts[..c] + said;
      PartSayable(said, p - c, q - c);
      assert said[p - c..q - c] == verdicts[p..q];
    }
  }

  /** With nothing outstanding, verdicts that are unavoidably good at some packet's end let the
      exchange succeed. */
  lemma UnavoidableSucceeds(pid: uint16, ss: Frame, expectAuth: bool, frames: seq<seq<byte>>)
    requires Outstanding(ss) == {} && Peaceful({}, expectAuth, AllAtoms(pid, frames))
    requires !Avoidable(expectAuth, Verdicts(AllAtoms(pid, frames)))
    ensures Run(pid, ss, expectAuth, frames).Success?
  {
    hide Run, Outstanding, AllAtoms, Accepting, Complete, Flat, Verdicts, Peaceful, RawAtoms, Ready, Avoidable, Sayable;
    var script := Script(pid, frames);
    RunSucceeds(pid, ss, expectAuth, frames);
    FlatScript(pid, frames);
    if !Succeeds({}, expectAuth, script) {
      forall n | 0 <= n <= |script|
        ensures !Ready(expectAuth, Verdicts(Flat(script[..n])))
      {
        PrefixPeaceful({}, expectAuth, script, n);
        PeacefulAccepts({}, expectAuth, Flat(script[..n]));
        CompleteWhenReady({}, expectAuth, Flat(script[..n]));
        assert !Suffices({}, expectAuth, script[..n]);
      }
      forall n | 0 <= n < |script|
        ensures Sayable(Verdicts(script[n]))
      {
        FramesSayable(pid, frames[n]);
      }
      CutsAvoid(expectAuth, script);
      assert false;
    }
  }

  lemma PrefixPeaceful(outstanding: set<Key>, expectAuth: bool, script: seq<seq<Atom>>, n: nat)
    requires n <= |script| && Peaceful(outstanding, expectAuth, Flat(script))
    ensures Peaceful(outstanding, expectAuth, Flat(script[..n]))
  {
    hide Flat, Rejecting;
    FlatSplit(script, n);
    assert forall i :: 0 <= i < |Flat(script[..n])| ==> Flat(script)[i] == Flat(script[..n])[i];
  }

  // ---- when it does ----

  predicate Speakable(words: seq<Atom>) {
    (words != [] && Sayable(words)) || (|words| == 1 && words[0].Confirm?)
  }

  function FrameSaying(pid: uint16, words: seq<Atom>): seq<byte>
    requires Speakable(words)
  {
    if words[0].Confirm? then
      ConfirmingSays(pid, words[0]);
      Packets.Encode(PacketConfirming(words[0])).value
    else
      PacketSays(pid, words);
      Packets.Encode(PacketSaying(pid, words)).value
  }

  function FramesSaying(pid: uint16, script: seq<seq<Atom>>): (frames: seq<seq<byte>>)
    requires forall i :: 0 <= i < |script| ==> Speakable(script[i])
    ensures |frames| == |script|
  {
    seq(|script|, i requires 0 <= i < |script| => FrameSaying(pid, script[i]))
  }

  /** There are packets that say just that. */
  lemma FramesSay(pid: uint16, script: seq<seq<Atom>>)
    requires forall i :: 0 <= i < |script| ==> Speakable(script[i])
    ensures Script(pid, FramesSaying(pid, script)) == script
  {
    hide RawAtoms, Packets.Encode, PacketSaying, PacketConfirming;
    var frames := FramesSaying(pid, script);
    forall i | 0 <= i < |script|
      ensures Script(pid, frames)[i] == script[i]
    {
      var words := script[i];
      if words[0].Confirm? {
        ConfirmingSays(pid, words[0]);
        assert |words| == 1 || OnAuth(words[0]);
        assert words == [words[0]];
      } else {
        PacketSays(pid, words);
      }
    }
  }

  ghost function Listed(atoms: set<Atom>): (list: seq<Atom>)
    ensures forall a :: a in list <==> a in atoms
  {
    if atoms == {} then []
    else
      var a :| a in atoms;
      Listed(atoms - {a}) + [a]
  }

  /** The next place from q on where the verdicts are not all good. */
  function NextIdle(expectAuth: bool, verdicts: seq<Atom>, q: nat): (r: nat)
    requires q <= |verdicts| && !Ready(expectAuth, verdicts)
    ensures q <= r <= |verdicts| && !ReadyAt(expectAuth, verdicts, r)
    ensures forall i :: q <= i < r ==> ReadyAt(expectAuth, verdicts, i)
    decreases |verdicts| - q
  {
    assert verdicts[..|verdicts|] == verdicts;
    if !ReadyAt(expectAuth, verdicts, q) then q else NextIdle(expectAuth, verdicts, q + 1)
  }

  /** The verdicts from p on, cut wherever they are not all good. */
  function Cut(expectAuth: bool, verdicts: seq<Atom>, p: nat): seq<seq<Atom>>
    requires p <= |verdicts| && !Ready(expectAuth, verdicts)
    decreases |verdicts| - p
  {
    if p == |verdicts| then []
    else
      var q := NextIdle(expectAuth, verdicts, p + 1);
      [verdicts[p..q]] + Cut(expectAuth, verdicts, q)
  }

  lemma {:induction false} CutSpeakable(expectAuth: bool, verdicts: seq<Atom>, p: nat)
    requires p <= |verdicts| && Avoidable(expectAuth, verdicts) && !ReadyAt(expectAuth, verdicts, p)
    ensures forall i :: 0 <= i < |Cut(expectAuth, verdicts, p)| ==> Speakable(Cut(expectAuth, verdicts, p)[i])
    decreases |verdicts| - p
  {
    hide Ready, Sayable;
    if p < |verdicts| {
      var q := NextIdle(expectAuth, verdicts, p + 1);
      assert Gap(expectAuth, verdicts, p, q);
      CutSpeakable(expectAuth, verdicts, q);
    }
  }

  /** Every cut ends where the verdicts are not all good. */
  lemma {:induction false} CutEnds(expectAuth: bool, verdicts: seq<Atom>, p: nat, n: nat) returns (q: nat)
    requires p <= |verdicts| && !Ready(expectAuth, verdicts) && !ReadyAt(expectAuth, verdicts, p)
    requires n <= |Cut(expectAuth, verdicts, p)|
    ensures p <= q <= |verdicts| && !ReadyAt(expectAuth, verdicts, q)
    ensures Flat(Cut(expectAuth, verdicts, p)[..n]) == verdicts[p..q]
    ensures n == |Cut(expectAuth, verdicts, p)| ==> q == |verdicts|
    decreases n
  {
    hide Ready;
    var cuts := Cut(expectAuth, verdicts, p);
    if n == 0 {
      q := p;
      assert cuts[..0] == [];
    } else {
      var r := NextIdle(expectAuth, verdicts, p + 1);
      q := CutEnds(expectAuth, verdicts, r, n - 1);
      assert cuts[..n][0] == verdicts[p..r] && cuts[..n][1..] == Cut(expectAuth, verdicts, r)[..n - 1];
      assert verdicts[p..r] + verdicts[r..q] == verdicts[p..q];
    }
  }

  lemma FlatConcat(a: seq<seq<Atom>>, b: seq<seq<Atom>>)
    ensures Flat(a + b) == Flat(a) + Flat(b)
  {
    FlatSplit(a + b, |a|);
    assert (a + b)[..|a|] == a && (a + b)[|a|..] == b;
  }

  /** A verdict is no confirmation, and a packet can say it. */
  lemma {:induction false} VerdictWords(verdicts: seq<Atom>)
    requires Verdicts(verdicts) == verdicts
    ensures forall i :: 0 <= i < |verdicts| ==> verdicts[i].Transport? || OnAuth(verdicts[i])
    decreases |verdicts|
  {
    if verdicts != [] {
      var n := |verdicts| - 1;
      VerdictsShorter(verdicts[..n]);
      assert Verdicts(verdicts)[..n] == verdicts[..n];
      VerdictWords(verdicts[..n]);
      assert forall i :: 0 <= i < n ==> verdicts[i] == verdicts[..n][i];
    }
  }

  lemma {:induction false} SinglesAre(atoms: seq<Atom>)
    ensures forall i :: 0 <= i < |atoms| ==> Singles(atoms)[i] == [atoms[i]]
    decreases |atoms|
  {
    if atoms != [] {
      SinglesAre(atoms[1..]);
    }
  }

  /** Verdicts and confirmations in packets of their own. */
  lemma SinglesSpeakable(atoms: seq<Atom>)
    requires forall i :: 0 <= i < |atoms| ==> atoms[i].Transport? || OnAuth(atoms[i]) || atoms[i].Confirm?
    ensures forall i :: 0 <= i < |atoms| ==> Speakable(Singles(atoms)[i])
  {
    SinglesAre(atoms);
    hide Singles;
    forall i | 0 <= i < |atoms|
      ensures Speakable([atoms[i]])
    {
    }
  }

  /** The confirmations first, and then each verdict in its own packet. */
  ghost function Early(verdicts: seq<Atom>, confirmations: set<Atom>): seq<seq<Atom>> {
    Singles(Listed(confirmations)) + Singles(verdicts)
  }

  /** The verdicts first, each in its own packet or, when nothing is outstanding, cut where they are
      not all good; and then the confirmations. */
  ghost function Late(outstanding: set<Key>, expectAuth: bool, verdicts: seq<Atom>, confirmations: set<Atom>): seq<seq<Atom>>
    requires outstanding == {} ==> !Ready(expectAuth, verdicts)
  {
    (if outstanding == {} then Cut(expectAuth, verdicts, 0) else Singles(verdicts)) + Singles(Listed(confirmations))
  }

  lemma FlatWhole(atoms: seq<Atom>)
    ensures Flat(Singles(atoms)) == atoms
  {
    FlatSingles(atoms, |atoms|);
    assert Singles(atoms)[..|atoms|] == Singles(atoms) && atoms[..|atoms|] == atoms;
  }

  /** Confirmations before or after some verdicts. */
  lemma Mixed(outstanding: set<Key>, expectAuth: bool, verdicts: seq<Atom>, confirmations: set<Atom>)
    requires Meant(outstanding, expectAuth, verdicts, confirmations)
    ensures var c := Listed(confirmations);
            && Verdicts(c + verdicts) == Verdicts(verdicts + c) == verdicts
            && Confirmations(c + verdicts) == Confirmations(verdicts + c) == confirmations
            && Peaceful(outstanding, expectAuth, c + verdicts) && Peaceful(outstanding, expectAuth, verdicts + c)
  {
    hide Verdicts, Rejecting;
    var c := Listed(confirmations);
    NoVerdicts(c);
    VerdictsConcat(c, verdicts);
    VerdictsConcat(verdicts, c);
    assert [] + verdicts == verdicts && verdicts + [] == verdicts;
    VerdictWords(verdicts);
    forall a
      ensures a in Confirmations(c + verdicts) <==> a in confirmations
      ensures a in Confirmations(verdicts + c) <==> a in confirmations
    {
      assert a in c + verdicts <==> a in c || a in verdicts;
      assert a in verdicts + c <==> a in c || a in verdicts;
    }
    forall a | a in c || a in verdicts
      ensures !Rejecting(outstanding, expectAuth, [], a)
    {
      if a in verdicts {
        var i :| 0 <= i < |verdicts| && verdicts[i] == a;
      }
    }
    assert forall i :: 0 <= i < |c + verdicts| ==> (c + verdicts)[i] in c || (c + verdicts)[i] in verdicts;
    assert forall i :: 0 <= i < |verdicts + c| ==> (verdicts + c)[i] in c || (verdicts + c)[i] in verdicts;
  }

  lemma EarlySucceeds(outstanding: set<Key>, expectAuth: bool, verdicts: seq<Atom>, confirmations: set<Atom>, i: nat)
    requires Meant(outstanding, expectAuth, verdicts, confirmations) && !Missing(outstanding, confirmations)
    requires i <= |verdicts| && ReadyAt(expectAuth, verdicts, i)
    ensures Succeeds(outstanding, expectAuth, Early(verdicts, confirmations))
  {
    hide Ready, Verdicts, Accepting, Complete, Flat, Singles, Rejecting;
    var c := Listed(confirmations);
    var early := Early(verdicts, confirmations);
    var n := |c| + i;
    var part := c + verdicts[..i];
    assert early[..n] == Singles(c) + Singles(verdicts)[..i];
    FlatConcat(Singles(c), Singles(verdicts)[..i]);
    FlatWhole(c);
    FlatSingles(verdicts, i);
    assert Flat(early[..n]) == part;
    NoVerdicts(c);
    VerdictsConcat(c, verdicts[..i]);
    VerdictsPart(verdicts, i);
    assert [] + verdicts[..i] == verdicts[..i];
    Mixed(outstanding, expectAuth, verdicts, confirmations);
    assert forall j :: 0 <= j < |part| ==> part[j] == (c + verdicts)[j];
    PeacefulAccepts(outstanding, expectAuth, part);
    forall k | k in outstanding
      ensures Confirm(k, PC_OK) in Confirmations(part)
    {
      assert Confirm(k, PC_OK) in c;
    }
    CompleteWhenReady(outstanding, expectAuth, part);
    assert Suffices(outstanding, expectAuth, early[..n]);
  }

  /** While only verdicts have been said, something is wanting. */
  lemma VerdictsWanting(outstanding: set<Key>, expectAuth: bool, verdicts: seq<Atom>, confirmations: set<Atom>, n: nat)
    requires Meant(outstanding, expectAuth, verdicts, confirmations) && !Ready(expectAuth, verdicts)
    requires var first := if outstanding == {} then Cut(expectAuth, verdicts, 0) else Singles(verdicts); n <= |first|
    ensures var first := if outstanding == {} then Cut(expectAuth, verdicts, 0) else Singles(verdicts);
            !Complete(outstanding, expectAuth, Flat(first[..n]))
  {
    hide Ready, Verdicts, Complete, Flat, Singles, Cut, Rejecting;
    NoneReady(expectAuth, verdicts);
    var q := n;
    if outstanding == {} {
      q := CutEnds(expectAuth, verdicts, 0, n);
      assert verdicts[0..q] == verdicts[..q];
    } else {
      FlatSingles(verdicts, n);
    }
    var part := verdicts[..q];
    VerdictsPart(verdicts, q);
    CompleteWhenReady(outstanding, expectAuth, part);
    if outstanding != {} {
      var k :| k in outstanding;
      VerdictWords(verdicts);
      assert Confirm(k, PC_OK) !in part;
    }
  }

  lemma NoneReady(expectAuth: bool, verdicts: seq<Atom>)
    ensures !ReadyAt(expectAuth, verdicts, 0)
  {
    assert verdicts[..0] == [];
    NothingSaid();
  }

  lemma LateFails(outstanding: set<Key>, expectAuth: bool, verdicts: seq<Atom>, confirmations: set<Atom>)
    requires Meant(outstanding, expectAuth, verdicts, confirmations) && !Ready(expectAuth, verdicts)
    ensures !Succeeds(outstanding, expectAuth, Late(outstanding, expectAuth, verdicts, confirmations))
  {
    hide Ready, Verdicts, Complete, Accepting, Flat, Singles, Cut, Rejecting;
    var c := Listed(confirmations);
    var first := if outstanding == {} then Cut(expectAuth, verdicts, 0) else Singles(verdicts);
    var late := Late(outstanding, expectAuth, verdicts, confirmations);
    forall n | 0 <= n <= |late|
      ensures !Suffices(outstanding, expectAuth, late[..n])
    {
      if n <= |first| {
        assert late[..n] == first[..n];
        VerdictsWanting(outstanding, expectAuth, verdicts, confirmations, n);
      } else {
        var m := n - |first|;
        assert late[..n] == first + Singles(c)[..m];
        FlatConcat(first, Singles(c)[..m]);
        FlatSingles(c, m);
        FirstSays(outstanding, expectAuth, verdicts);
        NoVerdicts(c[..m]);
        VerdictsConcat(verdicts, c[..m]);
        assert verdicts + [] == verdicts;
        CompleteWhenReady(outstanding, expectAuth, verdicts + c[..m]);
      }
    }
  }

  lemma FirstSays(outstanding: set<Key>, expectAuth: bool, verdicts: seq<Atom>)
    requires !Ready(expectAuth, verdicts)
    ensures Flat(if outstanding == {} then Cut(expectAuth, verdicts, 0) else Singles(verdicts)) == verdicts
  {
    hide Ready, Flat, Singles, Cut;
    NoneReady(expectAuth, verdicts);
    if outstanding == {} {
      var cuts := Cut(expectAuth, verdicts, 0);
      var q := CutEnds(expectAuth, verdicts, 0, |cuts|);
      assert cuts[..|cuts|] == cuts && verdicts[0..q] == verdicts;
    } else {
      FlatWhole(verdicts);
    }
  }

  /** The packets of a script that says them. */
  lemma ScriptSays(pid: uint16, ss: Frame, expectAuth: bool, script: seq<seq<Atom>>, verdicts: seq<Atom>, confirmations: set<Atom>)
    requires forall i :: 0 <= i < |script| ==> Speakable(script[i])
    requires Peaceful(Outstanding(ss), expectAuth, Flat(script)) && Verdicts(Flat(script)) == verdicts
    requires Confirmations(Flat(script)) == confirmations
    ensures var frames := FramesSaying(pid, script);
            && Says(pid, ss, expectAuth, frames, verdicts, confirmations) && Script(pid, frames) == script
            && (Run(pid, ss, expectAuth, frames).Success? <==> Succeeds(Outstanding(ss), expectAuth, script))
  {
    hide Outstanding, AllAtoms, Run, Peaceful, Verdicts, Confirmations, Succeeds, Flat, FramesSaying, Speakable;
    var frames := FramesSaying(pid, script);
    FramesSay(pid, script);
    FlatScript(pid, frames);
    RunSucceeds(pid, ss, expectAuth, frames);
  }

  /** Two ways to put the same words into packets, of which one lets the exchange succeed and the
      other does not. */
  lemma OrderMatters(pid: uint16, ss: Frame, expectAuth: bool, verdicts: seq<Atom>, confirmations: set<Atom>)
    returns (a: seq<seq<byte>>, b: seq<seq<byte>>)
    requires Meant(Outstanding(ss), expectAuth, verdicts, confirmations) && !Missing(Outstanding(ss), confirmations)
    requires !Settled(expectAuth, verdicts) && (Outstanding(ss) == {} ==> Avoidable(expectAuth, verdicts))
    ensures Says(pid, ss, expectAuth, a, verdicts, confirmations) && Says(pid, ss, expectAuth, b, verdicts, confirmations)
    ensures Script(pid, a) == Early(verdicts, confirmations)
    ensures Script(pid, b) == Late(Outstanding(ss), expectAuth, verdicts, confirmations)
    ensures Run(pid, ss, expectAuth, a).Success? && Run(pid, ss, expectAuth, b).Failure?
  {
    hide Outstanding, Run, Ready, Meant, Missing, Says, Avoidable, Speakable, Flat, Peaceful, Verdicts, Confirmations, Succeeds;
    var out := Outstanding(ss);
    var i :| 0 <= i <= |verdicts| && Ready(expectAuth, verdicts[..i]) && !Ready(expectAuth, verdicts);
    assert ReadyAt(expectAuth, verdicts, i);
    var early, late := Early(verdicts, confirmations), Late(out, expectAuth, verdicts, confirmations);
    Mixed(out, expectAuth, verdicts, confirmations);
    EarlySays(verdicts, confirmations);
    LateSays(out, expectAuth, verdicts, confirmations);
    BothSpeakable(out, expectAuth, verdicts, confirmations);
    ScriptSays(pid, ss, expectAuth, early, verdicts, confirmations);
    ScriptSays(pid, ss, expectAuth, late, verdicts, confirmations);
    EarlySucceeds(out, expectAuth, verdicts, confirmations, i);
    LateFails(out, expectAuth, verdicts, confirmations);
    a, b := FramesSaying(pid, early), FramesSaying(pid, late);
  }

  lemma EarlySays(verdicts: seq<Atom>, confirmations: set<Atom>)
    ensures Flat(Early(verdicts, confirmations)) == Listed(confirmations) + verdicts
  {
    hide Flat, Singles;
    FlatConcat(Singles(Listed(confirmations)), Singles(verdicts));
    FlatWhole(Listed(confirmations));
    FlatWhole(verdicts);
  }

  lemma LateSays(outstanding: set<Key>, expectAuth: bool, verdicts: seq<Atom>, confirmations: set<Atom>)
    requires !Ready(expectAuth, verdicts)
    ensures Flat(Late(outstanding, expectAuth, verdicts, confirmations)) == verdicts + Listed(confirmations)
  {
    hide Flat, Singles, Cut, Ready;
    FlatConcat(if outstanding == {} then Cut(expectAuth, verdicts, 0) else Singles(verdicts), Singles(Listed(confirmations)));
    FirstSays(outstanding, expectAuth, verdicts);
    FlatWhole(Listed(confirmations));
  }

  lemma BothSpeakable(outstanding: set<Key>, expectAuth: bool, verdicts: seq<Atom>, confirmations: set<Atom>)
    requires Meant(outstanding, expectAuth, verdicts, confirmations) && !Ready(expectAuth, verdicts)
    requires outstanding == {} ==> Avoidable(expectAuth, verdicts)
    ensures forall i :: 0 <= i < |Early(verdicts, confirmations)| ==> Speakable(Early(verdicts, confirmations)[i])
    ensures var late := Late(outstanding, expectAuth, verdicts, confirmations);
            forall i :: 0 <= i < |late| ==> Speakable(late[i])
  {
    hide Ready, Avoidable, Speakable, Singles, Cut, Verdicts, Rejecting, Sayable;
    var c := Listed(confirmations);
    VerdictWords(verdicts);
    SinglesSpeakable(verdicts);
    SinglesSpeakable(c);
    NoneReady(expectAuth, verdicts);
    if outstanding == {} {
      CutSpeakable(expectAuth, verdicts, 0);
    }
  }

  /** The exact condition. Verdicts and confirmations, none of which rejects, can be split over
      packets and the confirmations put in any order and repeated without changing whether the
      exchange succeeds, exactly when a record is not confirmed at all, or good verdicts are not
      taken back for good, or nothing is outstanding and they are unavoidably good after some packet. */
  lemma OrderExactly(pid: uint16, ss: Frame, expectAuth: bool, verdicts: seq<Atom>, confirmations: set<Atom>)
    requires Meant(Outstanding(ss), expectAuth, verdicts, confirmations)
    ensures Alike(pid, ss, expectAuth, verdicts, confirmations)
            <==> || Missing(Outstanding(ss), confirmations)
                 || Settled(expectAuth, verdicts)
                 || (Outstanding(ss) == {} && !Avoidable(expectAuth, verdicts))
  {
    hide Outstanding, Run, Meant, Missing, Settled, Avoidable, Says;
    if !Missing(Outstanding(ss), confirmations) && !Settled(expectAuth, verdicts)
       && (Outstanding(ss) == {} ==> Avoidable(expectAuth, verdicts)) {
      var a, b := OrderMatters(pid, ss, expectAuth, verdicts, confirmations);
    } else {
      forall a, b | Says(pid, ss, expectAuth, a, verdicts, confirmations) && Says(pid, ss, expectAuth, b, verdicts, confirmations)
        ensures Run(pid, ss, expectAuth, a).Success? <==> Run(pid, ss, expectAuth, b).Success?
      {
        SameOutcome(pid, ss, expectAuth, a, b, verdicts, confirmations);
      }
    }
  }

  lemma SameOutcome(pid: uint16, ss: Frame, expectAuth: bool, a: seq<seq<byte>>, b: seq<seq<byte>>, verdicts: seq<Atom>,
                    confirmations: set<Atom>)
    requires Says(pid, ss, expectAuth, a, verdicts, confirmations) && Says(pid, ss, expectAuth, b, verdicts, confirmations)
    requires || Missing(Outstanding(ss), confirmations) || Settled(expectAuth, verdicts)
             || (Outstanding(ss) == {} && !Avoidable(expectAuth, verdicts))
    ensures Run(pid, ss, expectAuth, a).Success? <==> Run(pid, ss, expectAuth, b).Success?
  {
    hide Outstanding, Run, Missing, Settled, Avoidable, AllAtoms, Peaceful, Verdicts, Confirmations;
    if Missing(Outstanding(ss), confirmations) {
      MissingFails(pid, ss, expectAuth, a);
      MissingFails(pid, ss, expectAuth, b);
    } else if Settled(expectAuth, verdicts) {
      OrderDoesNotMatter(pid, ss, expectAuth, a, b);
    } else {
      UnavoidableSucceeds(pid, ss, expectAuth, a);
      UnavoidableSucceeds(pid, ss, expectAuth, b);
    }
  }

  // ---- what it comes to ----

  function AllConfirmed(outstanding: set<Key>): set<Atom> {
    set k | k in outstanding :: Confirm(k, PC_OK)
  }

  /** With records outstanding, good verdicts that are taken back for good let an exchange succeed when
      the confirmations come first, and fail when they come last, each word in a packet of its own. */
  lemma UnsettledOrderMatters(pid: uint16, ss: Frame, expectAuth: bool, verdicts: seq<Atom>)
    returns (a: seq<seq<byte>>, b: seq<seq<byte>>)
    requires Outstanding(ss) != {} && Verdicts(verdicts) == verdicts && Peaceful(Outstanding(ss), expectAuth, verdicts)
    requires !Settled(expectAuth, verdicts)
    ensures var c := AllConfirmed(Outstanding(ss));
            && Says(pid, ss, expectAuth, a, verdicts, c) && Says(pid, ss, expectAuth, b, verdicts, c)
            && Script(pid, a) == Singles(Listed(c)) + Singles(verdicts) && Script(pid, b) == Singles(verdicts) + Singles(Listed(c))
    ensures Run(pid, ss, expectAuth, a).Success? && Run(pid, ss, expectAuth, b).Failure?
  {
    hide Outstanding, Run, Says, Settled, Verdicts, Peaceful, Singles;
    a, b := OrderMatters(pid, ss, expectAuth, verdicts, AllConfirmed(Outstanding(ss)));
  }

  /** Verdicts of which none is about authorization are unavoidable once good. */
  lemma TransportUnavoidable(verdicts: seq<Atom>, i: nat)
    requires i <= |verdicts| && ReadyAt(false, verdicts, i)
    ensures !Avoidable(false, verdicts)
  {
    hide LastTransport, Sayable;
    if !Ready(false, verdicts) {
      var q := NextIdle(false, verdicts, i);
      NoneReady(false, verdicts);
      var p := LastIdle(verdicts, i);
      assert Gap(false, verdicts, p, q);
      var last := verdicts[q - 1];
      assert ReadyAt(false, verdicts, q - 1);
      assert verdicts[..q] == verdicts[..q - 1] + [last];
      ConfirmedMore(verdicts[..q - 1], last, Key(0, 0, 0));
      assert last.Transport?;
      assert verdicts[p..q][q - 1 - p] == last;
      TransportFirst(verdicts[p..q], q - 1 - p);
    }
  }

  lemma TransportFirst(words: seq<Atom>, i: nat)
    requires 0 < i < |words| && words[i].Transport?
    ensures !Sayable(words)
  {
    assert words[1..][i - 1] == words[i];
  }

  /** The last place before i where the verdicts are not good. */
  lemma {:induction false} LastIdle(verdicts: seq<Atom>, i: nat) returns (p: nat)
    requires i <= |verdicts| && ReadyAt(false, verdicts, i)
    ensures p < i && !ReadyAt(false, verdicts, p) && forall j :: p < j <= i ==> ReadyAt(false, verdicts, j)
    decreases i
  {
    hide Ready;
    NoneReady(false, verdicts);
    if !ReadyAt(false, verdicts, i - 1) {
      p := i - 1;
    } else {
      p := LastIdle(verdicts, i - 1);
    }
  }

  /** With nothing outstanding and no verdict on authorization awaited, an exchange in which nothing
      rejects succeeds exactly when the packet is once said to be OK, wherever that stands. */
  lemma NothingAwaited(pid: uint16, ss: Frame, frames: seq<seq<byte>>)
    requires Outstanding(ss) == {} && Peaceful({}, false, AllAtoms(pid, frames))
    ensures Run(pid, ss, false, frames).Success? <==> Transport(PC_OK) in AllAtoms(pid, frames)
  {
    hide Run, Outstanding, AllAtoms, Peaceful, Avoidable, Accepting, Flat, Verdicts, LastTransport, LastAuth;
    var all := AllAtoms(pid, frames);
    RunSucceeds(pid, ss, false, frames);
    FlatScript(pid, frames);
    var script := Script(pid, frames);
    if n :| 0 <= n <= |script| && Suffices({}, false, script[..n]) {
      FlatSplit(script, n);
      LastIsThere(Flat(script[..n]));
    }
    if Transport(PC_OK) in all {
      OnceGood(all);
      var i :| 0 <= i <= |Verdicts(all)| && ReadyAt(false, Verdicts(all), i);
      TransportUnavoidable(Verdicts(all), i);
      UnavoidableSucceeds(pid, ss, false, frames);
    }
  }

  lemma {:induction false} LastIsThere(atoms: seq<Atom>)
    ensures LastTransport(atoms).Some? ==> Transport(LastTransport(atoms).value) in atoms
    decreases |atoms|
  {
    if atoms != [] {
      LastIsThere(atoms[..|atoms| - 1]);
    }
  }

  /** After an OK the verdicts are good. */
  lemma {:induction false} OnceGood(atoms: seq<Atom>)
    requires Transport(PC_OK) in atoms
    ensures exists i :: 0 <= i <= |Verdicts(atoms)| && ReadyAt(false, Verdicts(atoms), i)
    decreases |atoms|
  {
    hide LastTransport, LastAuth;
    var n := |atoms| - 1;
    var before, all := Verdicts(atoms[..n]), Verdicts(atoms);
    if atoms[n] == Transport(PC_OK) {
      assert all == before + [atoms[n]];
      ConfirmedMore(before, atoms[n], Key(0, 0, 0));
      assert all[..|all|] == all;
      assert ReadyAt(false, all, |all|);
    } else {
      OnceGood(atoms[..n]);
      var i :| 0 <= i <= |before| && ReadyAt(false, before, i);
      assert all[..i] == before[..i];
      assert ReadyAt(false, all, i);
    }
  }

  /** For exchanges that await a verdict on authorization only with records outstanding, the condition
      is that a record is not confirmed at all, nothing is outstanding, or the verdicts are settled. */
  lemma OrderExactlyWithData(pid: uint16, ss: Frame, expectAuth: bool, verdicts: seq<Atom>, confirmations: set<Atom>)
    requires Meant(Outstanding(ss), expectAuth, verdicts, confirmations) && (expectAuth ==> Outstanding(ss) != {})
    ensures Alike(pid, ss, expectAuth, verdicts, confirmations)
            <==> Missing(Outstanding(ss), confirmations) || Outstanding(ss) == {} || Settled(expectAuth, verdicts)
  {
    hide Outstanding, Alike, Meant, Missing, Avoidable, Ready;
    OrderExactly(pid, ss, expectAuth, verdicts, confirmations);
    if Outstanding(ss) == {} && !Settled(expectAuth, verdicts) {
      var i :| 0 <= i <= |verdicts| && Ready(expectAuth, verdicts[..i]) && !Ready(expectAuth, verdicts);
      assert ReadyAt(false, verdicts, i);
      TransportUnavoidable(verdicts, i);
    }
  }

  /** The exchanges of the relay are such. */
  lemma AwaitedWithData(ss: Frame, data: S.Subrecord, pid: uint16)
    ensures ExpectsAuth(ss) ==> Outstanding(ss) != {}
    ensures data.Identity? || data.Credentials? ==> Outstanding(RelayWriter.LoginRequest(data, pid).sfrd.services) != {}
  {
    if i :| 0 <= i < |ss| && GivesIdentity(ss[i]) {
      var k :| 0 <= k < |ss[i].rd| && ss[i].rd[k].srt == S.TERM_IDENTITY;
      assert Answers.HasData(ss[i]);
      assert Key(ss[i].rn, ss[i].rst, ss[i].sst) in Outstanding(ss);
    }
    var s := RelayWriter.LoginRequest(data, pid).sfrd.services[0];
    if data.Identity? || data.Credentials? {
      assert s.rd[0].srt != S.RECORD_RESPONSE;
      assert Answers.HasData(s);
      assert Key(s.rn, s.rst, s.sst) in Outstanding([s]);
    }
  }

  /** Where a verdict is awaited and nothing outstanding, settled verdicts are not needed: here the
      packet that takes the OK back cannot but be another one, and the exchange always succeeds. */
  lemma AwaitedAlone(pid: uint16, ss: Frame)
    requires Outstanding(ss) == {}
    ensures var verdicts := [Transport(PC_OK), AuthAsk(true), Transport(PC_IN_PROGRESS)];
            && Meant({}, true, verdicts, {}) && !Settled(true, verdicts)
            && Alike(pid, ss, true, verdicts, {})
  {
    hide Outstanding, Alike;
    var v := [Transport(PC_OK), AuthAsk(true), Transport(PC_IN_PROGRESS)];
    assert v[..0] == [] && v[..1] == [v[0]] && v[..2] == [v[0], v[1]] && v[..3] == v;
    assert [v[0], v[1]][..1] == [v[0]] && [v[0]][..0] == [];
    assert Verdicts([v[0]]) == [v[0]];
    assert Verdicts([v[0], v[1]]) == [v[0], v[1]];
    assert Verdicts(v) == v;
    NothingSaid();
    assert [] + [v[0]] == [v[0]] && [v[0]] + [v[1]] == [v[0], v[1]] && [v[0], v[1]] + [v[2]] == v;
    ConfirmedMore([], v[0], Key(0, 0, 0));
    ConfirmedMore([v[0]], v[1], Key(0, 0, 0));
    ConfirmedMore([v[0], v[1]], v[2], Key(0, 0, 0));
    assert LastAuth([]) == None;
    hide LastTransport, LastAuth;
    assert !ReadyAt(true, v, 1) && ReadyAt(true, v, 2) && !ReadyAt(true, v, 3);
    assert Gap(true, v, 1, 3);
    TransportFirst(v[1..3], 1);
    OrderExactly(pid, ss, true, v, {});
  }
}
