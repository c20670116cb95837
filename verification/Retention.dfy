/** Which archives a rotating file keeps: cleanup (gateway/configuration/rotation.go:315-355). */
module Retention {
  import opened Bytes

  type Record = seq<byte>

  const DAY: int := 24 * 3600 * 1_000_000_000

  datatype Conf = Conf(maxFile: int, maxBackups: int, maxAgeDays: int, maxTotal: int)

  /** RotationConf.Validate. */
  predicate ValidConf(c: Conf) {
    c.maxFile >= 1 && c.maxBackups >= 0 && 0 <= c.maxAgeDays <= 106751 && c.maxTotal >= c.maxFile
  }

  function SizeOf(rs: seq<Record>): nat {
    if rs == [] then 0 else SizeOf(rs[..|rs| - 1]) + |rs[|rs| - 1]|
  }

  /** A link to an inode under an archive name, which carries its time. */
  datatype Archive = Archive(time: int, ino: nat)

  type Data = map<nat, seq<Record>>

  predicate Stored(archives: seq<Archive>, data: Data) {
    forall i :: 0 <= i < |archives| ==> archives[i].ino in data
  }

  /** Archives as archives() lists them, the newest first. */
  predicate NewestFirst(archives: seq<Archive>) {
    forall i, j :: 0 <= i < j < |archives| ==> archives[i].time > archives[j].time
  }

  predicate Expired(c: Conf, a: Archive, now: int) {
    c.maxAgeDays > 0 && a.time < now - c.maxAgeDays * DAY
  }

  /** What the cleanup leaves of a list of archives: links to the open file go, and from the first
      archive that is one too many, too large or too old all others go. */
  function Sweep(c: Conf, archives: seq<Archive>, data: Data, open: nat, now: int, kept: int, remaining: int, removeOlder: bool): seq<Archive>
    requires Stored(archives, data)
    decreases |archives|
  {
    if archives == [] then []
    else
      var a, rest := archives[0], archives[1..];
      var unfinished := a.ino == open;
      var over := !unfinished && (kept >= c.maxBackups || SizeOf(data[a.ino]) > remaining || Expired(c, a, now));
      if unfinished || removeOlder || over then Sweep(c, rest, data, open, now, kept, remaining, removeOlder || over)
      else [a] + Sweep(c, rest, data, open, now, kept + 1, remaining - SizeOf(data[a.ino]), false)
  }

  /** The same when only so many files can be removed: at the first that cannot, the rest stays. */
  function SweepUntil(c: Conf, archives: seq<Archive>, data: Data, open: nat, now: int, kept: int, remaining: int, removeOlder: bool,
                      removals: nat): seq<Archive>
    requires Stored(archives, data)
    decreases |archives|
  {
    if archives == [] then []
    else
      var a, rest := archives[0], archives[1..];
      var unfinished := a.ino == open;
      var over := !unfinished && (kept >= c.maxBackups || SizeOf(data[a.ino]) > remaining || Expired(c, a, now));
      if unfinished || removeOlder || over then
        if removals == 0 then archives
        else SweepUntil(c, rest, data, open, now, kept, remaining, removeOlder || over, removals - 1)
      else [a] + SweepUntil(c, rest, data, open, now, kept + 1, remaining - SizeOf(data[a.ino]), false, removals)
  }

  /** The loop of the cleanup, in which the given number of removals succeed. It fails exactly when
      more are due. */
  method SweepLoop(c: Conf, archives: seq<Archive>, data: Data, open: nat, now: int, total: int, removals: nat)
    returns (left: seq<Archive>, ok: bool)
    requires Stored(archives, data)
    ensures ok == (|archives| - |Sweep(c, archives, data, open, now, 0, total, false)| <= removals)
    ensures ok ==> left == Sweep(c, archives, data, open, now, 0, total, false)
    ensures !ok ==> left == SweepUntil(c, archives, data, open, now, 0, total, false, removals)
  {
    hide SizeOf, Sweep, SweepUntil;
    left := [];
    var kept, remaining, removeOlder := 0, total, false;
    assert archives[0..] == archives;
    for n := 0 to |archives|
      invariant |left| <= n && n - |left| <= removals
      invariant Sweep(c, archives, data, open, now, 0, total, false)
                == left + Sweep(c, archives[n..], data, open, now, kept, remaining, removeOlder)
      invariant SweepUntil(c, archives, data, open, now, 0, total, false, removals)
                == left + SweepUntil(c, archives[n..], data, open, now, kept, remaining, removeOlder, removals - (n - |left|))
    {
      var archive := archives[n];
      assert archives[n..][0] == archive && archives[n..][1..] == archives[n + 1..];
      ghost var was, removed := removeOlder, n - |left|;
      var unfinished := archive.ino == open;
      var expired := c.maxAgeDays > 0 && archive.time < now - c.maxAgeDays * DAY;
      if !unfinished && (kept >= c.maxBackups || SizeOf(data[archive.ino]) > remaining || expired) {
        removeOlder := true;
      }
      if unfinished || removeOlder {
        SweepDrops(c, archives[n..], data, open, now, kept, remaining, was, removals - removed);
        if n - |left| == removals {
          SweepShrinks(c, archives[n + 1..], data, open, now, kept, remaining, removeOlder);
          left := left + archives[n..];
          return left, false;
        }
      } else {
        SweepTakes(c, archives[n..], data, open, now, kept, remaining, removals - removed);
        left := left + [archive];
        kept := kept + 1;
        remaining := remaining - SizeOf(data[archive.ino]);
      }
    }
    SweepNothing(c, archives[|archives|..], data, open, now, kept, remaining, removeOlder, removals - (|archives| - |left|));
    assert left + [] == left;
    ok := true;
  }

  lemma SweepDrops(c: Conf, archives: seq<Archive>, data: Data, open: nat, now: int, kept: int, remaining: int, removeOlder: bool,
                   removals: nat)
    requires Stored(archives, data) && archives != []
    ensures var a := archives[0];
            var over := a.ino != open && (kept >= c.maxBackups || SizeOf(data[a.ino]) > remaining || Expired(c, a, now));
            a.ino == open || removeOlder || over ==>
              && Sweep(c, archives, data, open, now, kept, remaining, removeOlder)
                 == Sweep(c, archives[1..], data, open, now, kept, remaining, removeOlder || over)
              && SweepUntil(c, archives, data, open, now, kept, remaining, removeOlder, removals)
                 == if removals == 0 then archives
                    else SweepUntil(c, archives[1..], data, open, now, kept, remaining, removeOlder || over, removals - 1)
  {
  }

  lemma SweepTakes(c: Conf, archives: seq<Archive>, data: Data, open: nat, now: int, kept: int, remaining: int, removals: nat)
    requires Stored(archives, data) && archives != [] && archives[0].ino != open
    requires !(kept >= c.maxBackups || SizeOf(data[archives[0].ino]) > remaining || Expired(c, archives[0], now))
    ensures var a, rest := archives[0], archives[1..];
            var less := remaining - SizeOf(data[a.ino]);
            && Sweep(c, archives, data, open, now, kept, remaining, false)
               == [a] + Sweep(c, rest, data, open, now, kept + 1, less, false)
            && SweepUntil(c, archives, data, open, now, kept, remaining, false, removals)
               == [a] + SweepUntil(c, rest, data, open, now, kept + 1, less, false, removals)
  {
  }

  lemma SweepNothing(c: Conf, archives: seq<Archive>, data: Data, open: nat, now: int, kept: int, remaining: int, removeOlder: bool,
                     removals: nat)
    requires archives == []
    ensures Sweep(c, archives, data, open, now, kept, remaining, removeOlder) == []
    ensures SweepUntil(c, archives, data, open, now, kept, remaining, removeOlder, removals) == []
  {
  }

  lemma {:induction false} SweepShrinks(c: Conf, archives: seq<Archive>, data: Data, open: nat, now: int, kept: int, remaining: int,
                                        removeOlder: bool)
    requires Stored(archives, data)
    ensures |Sweep(c, archives, data, open, now, kept, remaining, removeOlder)| <= |archives|
    decreases |archives|
  {
    if archives != [] {
      var a, rest := archives[0], archives[1..];
      var over := a.ino != open && (kept >= c.maxBackups || SizeOf(data[a.ino]) > remaining || Expired(c, a, now));
      if a.ino == open || removeOlder || over {
        SweepShrinks(c, rest, data, open, now, kept, remaining, removeOlder || over);
      } else {
        SweepShrinks(c, rest, data, open, now, kept + 1, remaining - SizeOf(data[a.ino]), false);
      }
    }
  }

  // ---- a sweep that stops ----

  /** How many of the newest archives are names of the open file. */
  function Leading(archives: seq<Archive>, open: nat): (k: nat)
    ensures k <= |archives| && forall i :: 0 <= i < k ==> archives[i].ino == open
  {
    if archives == [] || archives[0].ino != open then 0 else 1 + Leading(archives[1..], open)
  }

  lemma LeadingStep(archives: seq<Archive>, open: nat)
    ensures Leading(archives, open) > 0 ==>
              archives[0].ino == open && Leading(archives[1..], open) == Leading(archives, open) - 1
  {
  }

  /** No older archive is. */
  predicate Tidy(archives: seq<Archive>, open: nat) {
    forall i :: Leading(archives, open) <= i < |archives| ==> archives[i].ino != open
  }

  lemma {:induction false} StopsAmongLinks(c: Conf, archives: seq<Archive>, data: Data, open: nat, now: int, kept: int, remaining: int,
                                           removals: nat)
    requires Stored(archives, data) && removals < Leading(archives, open)
    ensures SweepUntil(c, archives, data, open, now, kept, remaining, false, removals) == archives[removals..]
    decreases removals
  {
    hide SizeOf;
    if removals > 0 {
      StopsAmongLinks(c, archives[1..], data, open, now, kept, remaining, removals - 1);
    }
  }

  lemma {:induction false} PassesLinks(c: Conf, archives: seq<Archive>, data: Data, open: nat, now: int, kept: int, remaining: int,
                                       removals: nat)
    requires Stored(archives, data) && Leading(archives, open) <= removals
    ensures var k := Leading(archives, open);
            && Stored(archives[k..], data)
            && Sweep(c, archives, data, open, now, kept, remaining, false)
               == Sweep(c, archives[k..], data, open, now, kept, remaining, false)
            && SweepUntil(c, archives, data, open, now, kept, remaining, false, removals)
               == SweepUntil(c, archives[k..], data, open, now, kept, remaining, false, removals - k)
    decreases |archives|
  {
    LeadingStep(archives, open);
    hide SizeOf, Sweep, SweepUntil, Leading;
    var k := Leading(archives, open);
    if k == 0 {
      assert archives[0..] == archives;
    } else {
      SweepDrops(c, archives, data, open, now, kept, remaining, false, removals);
      PassesLinks(c, archives[1..], data, open, now, kept, remaining, removals - 1);
      assert archives[1..][k - 1..] == archives[k..];
    }
  }

  lemma {:induction false} StopsAmongOld(c: Conf, archives: seq<Archive>, data: Data, open: nat, now: int, kept: int, remaining: int,
                                         removals: nat)
    requires Stored(archives, data) && removals <= |archives|
    ensures SweepUntil(c, archives, data, open, now, kept, remaining, true, removals) == archives[removals..]
    decreases removals
  {
    hide SizeOf;
    if removals > 0 {
      StopsAmongOld(c, archives[1..], data, open, now, kept, remaining, removals - 1);
    }
  }

  /** Among archives that are not the open file, a sweep that stops leaves the ones to be kept and,
      after the removed ones, all that are older. */
  lemma {:induction false} StopsAfter(c: Conf, archives: seq<Archive>, data: Data, open: nat, now: int, kept: int, remaining: int, removals: nat)
    requires Stored(archives, data) && forall i :: 0 <= i < |archives| ==> archives[i].ino != open
    requires removals <= |archives| - |Sweep(c, archives, data, open, now, kept, remaining, false)|
    ensures var left := Sweep(c, archives, data, open, now, kept, remaining, false);
            && left <= archives
            && SweepUntil(c, archives, data, open, now, kept, remaining, false, removals) == left + archives[|left| + removals..]
    decreases |archives|
  {
    hide SizeOf, Sweep, SweepUntil, Expired;
    if archives == [] {
      SweepNothing(c, archives, data, open, now, kept, remaining, false, removals);
    } else {
      var a, rest := archives[0], archives[1..];
      assert forall i :: 0 <= i < |rest| ==> rest[i] == archives[i + 1];
      if kept >= c.maxBackups || SizeOf(data[a.ino]) > remaining || Expired(c, a, now) {
        SweepDrops(c, archives, data, open, now, kept, remaining, false, removals);
        SweptAll(c, rest, data, open, now, kept, remaining);
        if removals > 0 {
          StopsAmongOld(c, rest, data, open, now, kept, remaining, removals - 1);
        }
      } else {
        var less := remaining - SizeOf(data[a.ino]);
        SweepTakes(c, archives, data, open, now, kept, remaining, removals);
        StopsAfter(c, rest, data, open, now, kept + 1, less, removals);
        Onto(a, rest, Sweep(c, rest, data, open, now, kept + 1, less, false), removals);
      }
    }
  }

  lemma Onto(a: Archive, rest: seq<Archive>, left: seq<Archive>, n: nat)
    requires left <= rest && |left| + n <= |rest|
    ensures [a] + left <= [a] + rest
    ensures [a] + (left + rest[|left| + n..]) == ([a] + left) + ([a] + rest)[|[a] + left| + n..]
  {
  }

  // ---- the longest prefix within the limits ----

  /** The archives that are not just another name of the open file. */
  function Finished(archives: seq<Archive>, open: nat): (r: seq<Archive>)
    ensures |r| <= |archives| && forall i :: 0 <= i < |r| ==> r[i] in archives && r[i].ino != open
  {
    if archives == [] then []
    else (if archives[0].ino == open then [] else [archives[0]]) + Finished(archives[1..], open)
  }

  /** The same when only so many of them can be removed. */
  function FinishedUntil(archives: seq<Archive>, open: nat, removals: nat): seq<Archive> {
    if archives == [] then []
    else if archives[0].ino == open then
      if removals == 0 then archives else FinishedUntil(archives[1..], open, removals - 1)
    else [archives[0]] + FinishedUntil(archives[1..], open, removals)
  }

  /** The loop of open (rotation.go:198-208). */
  method RemoveLinks(archives: seq<Archive>, open: nat, removals: nat) returns (left: seq<Archive>, ok: bool)
    ensures ok == (|archives| - |Finished(archives, open)| <= removals)
    ensures left == if ok then Finished(archives, open) else FinishedUntil(archives, open, removals)
  {
    hide Finished, FinishedUntil;
    left := [];
    assert archives[0..] == archives;
    for n := 0 to |archives|
      invariant |left| <= n && n - |left| <= removals
      invariant Finished(archives, open) == left + Finished(archives[n..], open)
      invariant FinishedUntil(archives, open, removals) == left + FinishedUntil(archives[n..], open, removals - (n - |left|))
    {
      FinishedStep(archives, n, open, removals - (n - |left|));
      if archives[n].ino != open {
        Regroup(left, archives[n], Finished(archives[n + 1..], open));
        Regroup(left, archives[n], FinishedUntil(archives[n + 1..], open, removals - (n - |left|)));
        left := left + [archives[n]];
        continue;
      }
      assert [] + Finished(archives[n + 1..], open) == Finished(archives[n + 1..], open);
      if n - |left| == removals {
        left := left + archives[n..];
        return left, false;
      }
    }
    FinishedNothing(archives[|archives|..], open, removals - (|archives| - |left|));
    assert left + [] == left;
    ok := true;
  }

  lemma Regroup(left: seq<Archive>, a: Archive, rest: seq<Archive>)
    ensures left + ([a] + rest) == left + [a] + rest
  {
  }

  lemma FinishedNothing(archives: seq<Archive>, open: nat, removals: nat)
    requires archives == []
    ensures Finished(archives, open) == [] && FinishedUntil(archives, open, removals) == []
  {
  }

  lemma FinishedStep(archives: seq<Archive>, n: nat, open: nat, removals: nat)
    requires n < |archives|
    ensures var a, rest := archives[n], archives[n + 1..];
            && Finished(archives[n..], open) == (if a.ino == open then [] else [a]) + Finished(rest, open)
            && FinishedUntil(archives[n..], open, removals)
               == if a.ino != open then [a] + FinishedUntil(rest, open, removals)
                  else if removals == 0 then archives[n..]
                  else FinishedUntil(rest, open, removals - 1)
  {
    assert archives[n..][1..] == archives[n + 1..];
  }

  function Total(archives: seq<Archive>, data: Data): nat
    requires Stored(archives, data)
  {
    if archives == [] then 0 else SizeOf(data[archives[0].ino]) + Total(archives[1..], data)
  }

  predicate Within(c: Conf, archives: seq<Archive>, data: Data, now: int, kept: int, remaining: int)
    requires Stored(archives, data)
  {
    && kept + |archives| <= c.maxBackups
    && Total(archives, data) <= remaining
    && (c.maxAgeDays <= 0 || forall i :: 0 <= i < |archives| ==> now - archives[i].time <= c.maxAgeDays * 86_400_000_000_000)
  }

  lemma {:induction false} SweptAll(c: Conf, archives: seq<Archive>, data: Data, open: nat, now: int, kept: int, remaining: int)
    requires Stored(archives, data)
    ensures Sweep(c, archives, data, open, now, kept, remaining, true) == []
    decreases |archives|
  {
    if archives != [] {
      SweptAll(c, archives[1..], data, open, now, kept, remaining);
    }
  }

  lemma {:induction false} FinishedStored(archives: seq<Archive>, data: Data, open: nat, n: nat)
    requires Stored(archives, data) && n <= |Finished(archives, open)|
    ensures Stored(Finished(archives, open), data) && Stored(Finished(archives, open)[..n], data)
  {
  }

  /** left is the longest start of f within the limits. */
  predicate Longest(c: Conf, left: seq<Archive>, f: seq<Archive>, data: Data, now: int, kept: int, remaining: int)
    requires Stored(f, data)
  {
    && left <= f && Within(c, left, data, now, kept, remaining)
    && forall n :: |left| < n <= |f| ==> !Within(c, f[..n], data, now, kept, remaining)
  }

  lemma NoneFits(c: Conf, f: seq<Archive>, data: Data, now: int, kept: int, remaining: int)
    requires Stored(f, data) && f != [] && kept <= c.maxBackups && remaining >= 0
    requires kept >= c.maxBackups || SizeOf(data[f[0].ino]) > remaining || Expired(c, f[0], now)
    ensures Longest(c, [], f, data, now, kept, remaining)
  {
    hide SizeOf;
    forall n | 0 < n <= |f|
      ensures !Within(c, f[..n], data, now, kept, remaining)
    {
      assert f[..n][0] == f[0];
    }
  }

  lemma OneFits(c: Conf, left: seq<Archive>, f: seq<Archive>, data: Data, now: int, kept: int, remaining: int)
    requires Stored(f, data) && f != []
    requires kept < c.maxBackups && SizeOf(data[f[0].ino]) <= remaining && !Expired(c, f[0], now)
    requires Longest(c, left, f[1..], data, now, kept + 1, remaining - SizeOf(data[f[0].ino]))
    ensures Longest(c, [f[0]] + left, f, data, now, kept, remaining)
  {
    hide SizeOf;
    var more := [f[0]] + left;
    assert more[1..] == left && more <= f;
    WithinMore(c, more, data, now, kept, remaining);
    forall n | |more| < n <= |f|
      ensures !Within(c, f[..n], data, now, kept, remaining)
    {
      assert f[..n][1..] == f[1..][..n - 1] && f[..n][0] == f[0];
      WithinMore(c, f[..n], data, now, kept, remaining);
    }
  }

  lemma WithinMore(c: Conf, archives: seq<Archive>, data: Data, now: int, kept: int, remaining: int)
    requires Stored(archives, data) && archives != [] && !Expired(c, archives[0], now)
    ensures Within(c, archives, data, now, kept, remaining)
            <==> Within(c, archives[1..], data, now, kept + 1, remaining - SizeOf(data[archives[0].ino]))
  {
    hide SizeOf;
    assert forall i :: 0 <= i < |archives| - 1 ==> archives[1..][i] == archives[i + 1];
    assert forall i :: 1 <= i < |archives| ==> archives[i] == archives[1..][i - 1];
  }

  /** The cleanup keeps the longest newest-first run of archives within the limits on number, size
      and age; a limit broken once stays broken for every longer run. */
  lemma {:induction false} SweepKeepsLongest(c: Conf, archives: seq<Archive>, data: Data, open: nat, now: int, kept: int, remaining: int)
    requires Stored(archives, data) && kept <= c.maxBackups && remaining >= 0
    ensures Stored(Finished(archives, open), data)
    ensures Longest(c, Sweep(c, archives, data, open, now, kept, remaining, false), Finished(archives, open), data, now, kept, remaining)
    decreases |archives|
  {
    hide SizeOf, Longest;
    var f := Finished(archives, open);
    FinishedStored(archives, data, open, |f|);
    if archives == [] {
      NothingThere(c, data, now, kept, remaining);
    } else {
      var a, rest := archives[0], archives[1..];
      if a.ino == open {
        SweepKeepsLongest(c, rest, data, open, now, kept, remaining);
        assert f == Finished(rest, open);
      } else if kept >= c.maxBackups || SizeOf(data[a.ino]) > remaining || Expired(c, a, now) {
        SweptAll(c, rest, data, open, now, kept, remaining);
        NoneFits(c, f, data, now, kept, remaining);
      } else {
        SweepKeepsLongest(c, rest, data, open, now, kept + 1, remaining - SizeOf(data[a.ino]));
        assert f == [a] + Finished(rest, open) && f[1..] == Finished(rest, open);
        OneFits(c, Sweep(c, rest, data, open, now, kept + 1, remaining - SizeOf(data[a.ino]), false), f, data, now, kept, remaining);
      }
    }
  }

  lemma NothingThere(c: Conf, data: Data, now: int, kept: int, remaining: int)
    requires kept <= c.maxBackups && remaining >= 0
    ensures Longest(c, [], [], data, now, kept, remaining)
  {
  }

  // ---- a sweep that stops, exactly ----

  lemma {:induction false} FinishedTidy(archives: seq<Archive>, open: nat)
    requires Tidy(archives, open)
    ensures Finished(archives, open) == archives[Leading(archives, open)..]
    decreases |archives|
  {
    if archives != [] {
      var rest := archives[1..];
      TidyRest(archives, open);
      FinishedTidy(rest, open);
      if archives[0].ino == open {
        assert rest[Leading(rest, open)..] == archives[Leading(archives, open)..];
      } else {
        NoLinks(rest, open);
        assert archives == [archives[0]] + rest && rest[0..] == rest;
      }
    }
  }

  lemma NoLinks(archives: seq<Archive>, open: nat)
    requires forall i :: 0 <= i < |archives| ==> archives[i].ino != open
    ensures Leading(archives, open) == 0 && Tidy(archives, open)
  {
  }

  lemma TidyRest(archives: seq<Archive>, open: nat)
    requires archives != [] && Tidy(archives, open)
    ensures Tidy(archives[1..], open)
    ensures archives[0].ino != open ==> forall i :: 0 <= i < |archives| - 1 ==> archives[1..][i].ino != open
  {
    LeadingStep(archives, open);
    assert forall i :: 0 <= i < |archives| - 1 ==> archives[1..][i] == archives[i + 1];
    if archives[0].ino != open {
      assert Leading(archives, open) == 0;
      NoLinks(archives[1..], open);
    }
  }

  lemma {:induction false} TidyDrop(archives: seq<Archive>, open: nat, n: nat)
    requires Tidy(archives, open) && n <= Leading(archives, open)
    ensures Tidy(archives[n..], open) && Leading(archives[n..], open) == Leading(archives, open) - n
    decreases n
  {
    if n == 0 {
      assert archives[0..] == archives;
    } else {
      LeadingStep(archives, open);
      TidyRest(archives, open);
      TidyDrop(archives[1..], open, n - 1);
      assert archives[1..][n - 1..] == archives[n..];
    }
  }

  /** When a removal fails while only names of the open file have been removed, nothing is lost.
      When it fails later, the archives that are left are no longer the newest ones: those that
      were removed lie between them. */
  lemma StoppedSweep(c: Conf, archives: seq<Archive>, data: Data, open: nat, now: int, remaining: int, removals: nat)
    requires Stored(archives, data) && Tidy(archives, open) && NewestFirst(archives)
    requires removals < |archives| - |Sweep(c, archives, data, open, now, 0, remaining, false)|
    ensures var u := SweepUntil(c, archives, data, open, now, 0, remaining, false, removals);
            && Tidy(u, open)
            && (removals <= Leading(archives, open) ==> u == archives[removals..])
            && (Finished(u, open) <= Finished(archives, open) <==> removals <= Leading(archives, open))
  {
    hide SizeOf, Sweep, SweepUntil, Leading, Finished, Tidy, NewestFirst;
    if removals < Leading(archives, open) {
      StopsAmongLinks(c, archives, data, open, now, 0, remaining, removals);
      LinksLeft(archives, open, removals);
    } else {
      PassesLinks(c, archives, data, open, now, 0, remaining, removals);
      FinishedTidy(archives, open);
      StoppedLate(c, archives, data, open, now, remaining, removals);
    }
  }

  lemma LinksLeft(archives: seq<Archive>, open: nat, n: nat)
    requires Tidy(archives, open) && n <= Leading(archives, open)
    ensures Tidy(archives[n..], open) && Finished(archives[n..], open) == Finished(archives, open)
  {
    hide Leading, Finished, Tidy;
    FinishedTidy(archives, open);
    TidyDrop(archives, open, n);
    FinishedTidy(archives[n..], open);
    assert archives[n..][Leading(archives, open) - n..] == archives[Leading(archives, open)..];
  }

  lemma StoppedLate(c: Conf, archives: seq<Archive>, data: Data, open: nat, now: int, remaining: int, removals: nat)
    requires Tidy(archives, open) && NewestFirst(archives) && Leading(archives, open) <= removals
    requires var rest := archives[Leading(archives, open)..];
             && Stored(rest, data)
             && removals < |archives| - |Sweep(c, rest, data, open, now, 0, remaining, false)|
    ensures var k := Leading(archives, open);
            var u := SweepUntil(c, archives[k..], data, open, now, 0, remaining, false, removals - k);
            && Tidy(u, open)
            && (removals == k ==> u == archives[k..])
            && (Finished(u, open) <= archives[k..] <==> removals == k)
  {
    var k := Leading(archives, open);
    var rest := archives[k..];
    assert forall i :: 0 <= i < |rest| ==> rest[i] == archives[k + i];
    assert forall i :: 0 <= i < |rest| ==> rest[i].ino != open;
    assert NewestFirst(rest);
    hide SizeOf, Sweep, SweepUntil, Leading, Finished, Tidy, NewestFirst;
    var left := Sweep(c, rest, data, open, now, 0, remaining, false);
    var u := SweepUntil(c, rest, data, open, now, 0, remaining, false, removals - k);
    StopsAfter(c, rest, data, open, now, 0, remaining, removals - k);
    StoppedOld(rest, left, removals - k, u, open);
    if removals == k {
      assert left + rest[|left|..] == rest;
    }
  }

  lemma StoppedOld(rest: seq<Archive>, left: seq<Archive>, n: nat, u: seq<Archive>, open: nat)
    requires NewestFirst(rest) && left <= rest && |left| + n < |rest| && u == left + rest[|left| + n..]
    requires forall i :: 0 <= i < |rest| ==> rest[i].ino != open
    ensures Tidy(u, open) && Finished(u, open) == u && (u <= rest <==> n == 0)
  {
    NoLinks(u, open);
    FinishedTidy(u, open);
    assert u[0..] == u;
    assert u[|left|] == rest[|left| + n];
    if n > 0 {
      assert rest[|left|].time > rest[|left| + n].time;
    } else {
      assert u == rest;
    }
  }

  /** The gap lasts: an archive that is too large takes all older ones with it, but when the removal
      of the one after it fails, a later cleanup keeps these, if they are within the limits then. */
  lemma GapIsKept(c: Conf, a: Archive, rest: seq<Archive>, data: Data, open: nat, now: int, remaining: int, later: int, room: int)
    requires Stored([a] + rest, data) && Stored(rest, data) && a.ino in data
    requires forall i :: 0 <= i < |rest| ==> rest[i].ino != open
    requires rest != [] && a.ino != open && SizeOf(data[a.ino]) > remaining
    requires Within(c, rest, data, later, 0, room)
    ensures Sweep(c, [a] + rest, data, open, now, 0, remaining, false) == []
    ensures SweepUntil(c, [a] + rest, data, open, now, 0, remaining, false, 1) == rest
    ensures Sweep(c, rest, data, open, later, 0, room, false) == rest
  {
    hide SizeOf, Sweep, SweepUntil, Finished, Total;
    var archives := [a] + rest;
    assert archives[1..] == rest && rest[0..] == rest;
    SweepDrops(c, archives, data, open, now, 0, remaining, false, 1);
    SweptAll(c, rest, data, open, now, 0, remaining);
    StopsAmongOld(c, rest, data, open, now, 0, remaining, 0);
    SweepKeepsLongest(c, rest, data, open, later, 0, room);
    NoLinks(rest, open);
    FinishedTidy(rest, open);
    assert rest[..|rest|] == rest;
  }

  // ---- what is left is in its old order ----

  predicate Thin(left: seq<Archive>, archives: seq<Archive>) {
    || left == []
    || (archives != [] && ((left[0] == archives[0] && Thin(left[1..], archives[1..])) || Thin(left, archives[1..])))
  }

  lemma {:induction false} SameThin(archives: seq<Archive>)
    ensures Thin(archives, archives)
  {
    if archives != [] {
      SameThin(archives[1..]);
    }
  }

  lemma {:induction false} SweptThin(c: Conf, archives: seq<Archive>, data: Data, open: nat, now: int, kept: int, remaining: int,
                                     removeOlder: bool, removals: nat)
    requires Stored(archives, data)
    ensures Thin(Sweep(c, archives, data, open, now, kept, remaining, removeOlder), archives)
    ensures Thin(SweepUntil(c, archives, data, open, now, kept, remaining, removeOlder, removals), archives)
    decreases |archives|
  {
    hide SizeOf, Expired;
    if archives != [] {
      var a, rest := archives[0], archives[1..];
      var over := a.ino != open && (kept >= c.maxBackups || SizeOf(data[a.ino]) > remaining || Expired(c, a, now));
      if a.ino == open || removeOlder || over {
        SweptThin(c, rest, data, open, now, kept, remaining, removeOlder || over, if removals > 0 then removals - 1 else 0);
        if removals == 0 {
          SameThin(archives);
        }
      } else {
        SweptThin(c, rest, data, open, now, kept + 1, remaining - SizeOf(data[a.ino]), false, removals);
      }
    }
  }

  lemma Joined(a: Archive, rest: seq<Archive>)
    ensures ([a] + rest)[1..] == rest && [] + rest == rest
  {
  }

  lemma {:induction false} FinishedThin(archives: seq<Archive>, open: nat, removals: nat)
    ensures Thin(Finished(archives, open), archives) && Thin(FinishedUntil(archives, open, removals), archives)
    decreases |archives|
  {
    if archives != [] {
      var fewer := if archives[0].ino == open && removals > 0 then removals - 1 else removals;
      FinishedThin(archives[1..], open, fewer);
      Joined(archives[0], Finished(archives[1..], open));
      Joined(archives[0], FinishedUntil(archives[1..], open, fewer));
      if removals == 0 {
        SameThin(archives);
      }
    }
  }

  lemma {:induction false} ThinAmong(left: seq<Archive>, archives: seq<Archive>)
    requires Thin(left, archives)
    ensures forall i :: 0 <= i < |left| ==> left[i] in archives
    ensures NewestFirst(archives) ==> NewestFirst(left)
    decreases |archives|
  {
    if left != [] {
      var rest := archives[1..];
      assert forall i :: 0 <= i < |rest| ==> rest[i] == archives[i + 1];
      if Thin(left, rest) {
        ThinAmong(left, rest);
      } else {
        ThinAmong(left[1..], rest);
        forall j | 1 <= j < |left|
          ensures left[j] in archives && (NewestFirst(archives) ==> left[0].time > left[j].time)
        {
          assert left[j] == left[1..][j - 1];
          var k :| 0 <= k < |rest| && rest[k] == left[j];
          assert archives[k + 1] == left[j];
        }
        assert forall i, j :: 1 <= i < j < |left| ==> left[i] == left[1..][i - 1] && left[j] == left[1..][j - 1];
      }
    }
  }
}
