/** What happens to the rotating packet file (gateway/configuration/rotation.go): its calls, the death
    of the process and new starts, and what holds over every run of them. */
module FileRuns {
  import opened Bytes
  import opened Retention
  import opened Rotation

  /** Where opening, rotating and cleaning can fail: before they change anything, after the step
      named, or when so many removals have succeeded. */
  datatype OpenResult = Opens | OpenFails | OpenFailsCreated | OpenFailsRemoving(removals: nat)
  datatype RotateResult = RotateFails | RemoveFails(undone: bool) | CloseFails | Rotates(open: OpenResult)
  datatype CleanResult = Cleans | CleanFails | RemovalFails(removals: nat)

  datatype Weather = Weather(now: int, open: OpenResult, rotate: RotateResult, clean: CleanResult, written: bool)

  /** A removal that would fail does no harm when it is not needed. */
  predicate Opened(result: OpenResult, d: Disk) {
    result.Opens? || (result.OpenFailsRemoving? && Links(Create(d)) <= result.removals)
  }

  /** The cleanup ends in a removal that fails. */
  predicate Stops(c: Conf, d: Disk, now: int, pending: int, result: CleanResult)
    requires Sound(d) && d.active.Some?
  {
    result.RemovalFails? && result.removals < Doomed(c, d, now, pending)
  }

  /** It does so when it has already removed more than names of the active file. */
  predicate LeavesGap(c: Conf, d: Disk, now: int, pending: int, result: CleanResult)
    requires Sound(d) && d.active.Some?
  {
    && Stops(c, d, now, pending, result) && Leading(d.archives, d.active.value) < result.removals
    && SizeOf(d.data[d.active.value]) + pending <= c.maxTotal
  }

  // ---- the stream ----

  /** A new active file goes to the end of the history. */
  function WithActive(d: Disk, history: seq<seq<Record>>): seq<seq<Record>> {
    if d.active.Some? then history else history + [[]]
  }

  lemma CreateConsistent(d: Disk, history: seq<seq<Record>>)
    requires Consistent(d, history)
    ensures Consistent(Create(d), WithActive(d, history)) && Create(d).active.Some?
    ensures Flatten(WithActive(d, history)) == Flatten(history) && Flatten(Files(Create(d))) == Flatten(Files(d))
    ensures Unbroken(d, history) ==> Unbroken(Create(d), WithActive(d, history))
    ensures Unfinished(Create(d)) ==> Unfinished(d)
  {
    CreatedHistory(d, history);
    CreatedUnfinished(d);
    hide Flatten, Part, Suffix, Unfinished, Archived;
    CreateKeeps(d);
    assert Flatten(history) + [] == Flatten(history) && Flatten(Files(d)) + [] == Flatten(Files(d));
    assert Files(d) + [] == Files(d);
    hide Files, Stored, NewestFirst;
    FlattenSnoc(history, []);
    FlattenSnoc(Files(d), []);
    if d.active.None? && Unbroken(d, history) {
      SuffixAppend(Files(d), history, [[]]);
    }
  }

  lemma CreatedHistory(d: Disk, history: seq<seq<Record>>)
    requires Consistent(d, history)
    ensures Consistent(Create(d), WithActive(d, history))
  {
    hide Flatten, Part, Suffix;
    CreateKeeps(d);
    if d.active.None? {
      ArchivedSame(d.archives, d.data, Create(d).data, None, Create(d).active);
    }
  }

  lemma CreatedUnfinished(d: Disk)
    requires Sound(d)
    ensures Unfinished(Create(d)) ==> Unfinished(d)
  {
  }

  lemma RecoverConsistent(d: Disk, history: seq<seq<Record>>, removals: nat)
    requires Consistent(d, history) && d.active.Some?
    ensures Consistent(Recover(d), history) && Consistent(RecoverUntil(d, removals), history)
    ensures Files(Recover(d)) == Files(RecoverUntil(d, removals)) == Files(d)
    ensures !Unfinished(Recover(d)) && (Unfinished(RecoverUntil(d, removals)) ==> Unfinished(d))
  {
    hide Part, Archived, Finished, FinishedUntil, Unfinished;
    RecoverKeeps(d, removals);
    ArchivedFinished(d.archives, d.data, d.active.value, removals);
  }

  lemma LinkConsistent(d: Disk, now: int, history: seq<seq<Record>>)
    requires Consistent(d, history) && d.active.Some?
    ensures Consistent(Link(d, now), history) && Files(Link(d, now)) == Files(d)
  {
    hide Part;
    LinkKeeps(d, now);
    assert Link(d, now).archives[1..] == d.archives;
    var a := Archived(d.archives, d.data, d.active);
    assert a + [] == a;
  }

  lemma UnlinkConsistent(d: Disk, now: int, history: seq<seq<Record>>)
    requires Consistent(d, history) && d.active.Some? && TidyDisk(d)
    ensures var gone := Unlink(Link(d, now));
            && Consistent(gone, history + Copies(d)) && Files(gone) == Files(d) + Copies(d)
            && (Unbroken(d, history) ==> Unbroken(gone, history + Copies(d)))
    ensures Flatten(history + Copies(d)) == Flatten(history) + Flatten(Copies(d))
    ensures Flatten(Files(d) + Copies(d)) == Flatten(Files(d)) + Flatten(Copies(d))
  {
    hide Flatten, Part, Suffix, Copies, Archived, TidyDisk;
    UnlinkRepeats(d, now);
    FlattenConcat(history, Copies(d));
    FlattenConcat(Files(d), Copies(d));
    var gone := Unlink(Link(d, now));
    assert Archived(gone.archives, gone.data, gone.active) + [] == Archived(gone.archives, gone.data, gone.active);
    var a, front, c := Archived(d.archives, d.data, d.active), history[..|history| - 1], [d.data[d.active.value]];
    PartAppend(a, front, c + Copies(d));
    assert a + (c + Copies(d)) == a + c + Copies(d) == a + c + Copies(d) + [];
    assert front + (c + Copies(d)) == history + Copies(d);
    if Unbroken(d, history) {
      SuffixAppend(Files(d), history, Copies(d));
    }
  }

  lemma CleanConsistent(c: Conf, d: Disk, now: int, pending: int, r: Disk, history: seq<seq<Record>>)
    requires ValidConf(c) && Consistent(d, history) && d.active.Some? && Clean(c, d, now, pending) == Ok(r)
    ensures Consistent(r, history) && !Unfinished(r) && (Unbroken(d, history) ==> Unbroken(r, history))
  {
    hide Clean, Part, Suffix, Archived, Unfinished, Files;
    CleanKeeps(c, d, now, pending);
    CleanSame(c, d, now, pending);
    PartTrans(Archived(r.archives, r.data, r.active), Archived(d.archives, d.data, d.active), history[..|history| - 1]);
    if Unbroken(d, history) {
      SuffixTrans(Files(r), Files(d), history);
    }
  }

  lemma CleanSame(c: Conf, d: Disk, now: int, pending: int)
    requires Sound(d) && d.active.Some? && Clean(c, d, now, pending).Ok?
    ensures Clean(c, d, now, pending).value.active == d.active && Clean(c, d, now, pending).value.data == d.data
  {
  }

  lemma CleanUntilConsistent(c: Conf, d: Disk, now: int, pending: int, removals: nat, history: seq<seq<Record>>)
    requires Consistent(d, history) && d.active.Some? && TidyDisk(d) && removals < Doomed(c, d, now, pending)
    ensures var r := CleanUntil(c, d, now, pending, removals);
            && Consistent(r, history) && TidyDisk(r) && (Unfinished(r) ==> Unfinished(d))
            && (removals <= Leading(d.archives, d.active.value) && Unbroken(d, history) ==> Unbroken(r, history))
  {
    hide Part, Suffix, Archived, Files, TidyDisk, Leading, Finished, Doomed, SweepUntil, SizeOf;
    CleanUntilKeeps(c, d, now, pending, removals);
    var r := CleanUntil(c, d, now, pending, removals);
    var remaining := c.maxTotal - pending - SizeOf(d.data[d.active.value]);
    SweptThin(c, d.archives, d.data, d.active.value, now, 0, remaining, false, removals);
    ThinAmong(r.archives, d.archives);
    PartTrans(Archived(r.archives, r.data, r.active), Archived(d.archives, d.data, d.active), history[..|history| - 1]);
  }

  lemma AppendKeeps(d: Disk, record: Record)
    requires Sound(d) && d.active.Some?
    ensures Sound(Append(d, record)) && (Unfinished(Append(d, record)) <==> Unfinished(d))
  {
  }

  lemma AppendConsistent(d: Disk, record: Record, history: seq<seq<Record>>)
    requires Consistent(d, history) && d.active.Some?
    ensures var n := |history| - 1; var more := history[..n] + [history[n] + [record]];
            && Consistent(Append(d, record), more) && Flatten(more) == Flatten(history) + [record]
            && (Unbroken(d, history) ==> Unbroken(Append(d, record), more))
    ensures Unfinished(Append(d, record)) <==> Unfinished(d)
  {
    hide Flatten, Part, Suffix;
    var n := |history| - 1;
    var r := Append(d, record);
    var f := Files(d);
    ArchivedSame(d.archives, d.data, r.data, d.active, d.active);
    FlattenAppend(history[..n], history[n], record);
    assert history[..n] + [history[n]] == history;
    assert (history[..n] + [history[n] + [record]])[..n] == history[..n];
    if Unbroken(d, history) {
      SuffixLast(f, history, f[|f| - 1] + [record]);
      assert f[..|f| - 1] + [f[|f| - 1] + [record]] == Files(r);
    }
  }

  /** A tidy directory without unfinished archives has nothing to repeat. */
  lemma NoCopies(d: Disk)
    requires Sound(d) && d.active.Some? && TidyDisk(d)
    ensures !Unfinished(d) ==> Flatten(Copies(d)) == []
  {
    TidyUnfinished(d);
    RepeatNothing(d.data[d.active.value], Leading(d.archives, d.active.value));
  }

  // ---- what happens to the file ----

  /** Where things stand: the directory, the file that the writer has open, whether there is no writer
      or a closed one, and all files there ever were. */
  datatype Moment = Moment(disk: Disk, file: Option<nat>, closed: bool, history: seq<seq<Record>>)

  /** The open file is the active one, and only the newest archives are names of it. */
  predicate Fits(s: Moment) {
    Consistent(s.disk, s.history) && (s.file.Some? ==> s.disk.active == s.file && TidyDisk(s.disk))
  }

  /** A call of Write or Close; the death of the process, in a rotation or at rest, or in a cleanup
      after so many removals; the start of a new writer. Dying while the file is opened or after a
      record is written leaves what a call that fails there, or that call, leaves. */
  datatype Event =
    | Writes(record: Record, w: Weather, ok: bool)
    | Closes(clean: CleanResult)
    | Dies(now: int, left: Disk)
    | DiesCleaning(now: int, pending: nat, removals: nat)
    | Starts(w: Weather, closeClean: CleanResult)

  predicate NoWriter(s: Moment) {
    s.file.None? && s.closed
  }

  /** The directory as the process may leave it that dies in a rotation, if one is possible. */
  predicate Leaves(s: Moment, now: int, left: Disk)
    requires Fits(s)
  {
    if s.file.Some? then CrashPoint(s.disk, now, left)
    else left == s.disk || (OpenKeeps(s.disk); CrashPoint(Open(s.disk), now, left))
  }

  predicate Possible(c: Conf, s: Moment, t: Moment, e: Event)
    requires Fits(s)
  {
    match e
    case Writes(_, _, _) => true
    case Closes(_) => t.closed
    case Dies(now, left) => NoWriter(t) && t.disk == left && Leaves(s, now, left)
    case DiesCleaning(now, pending, removals) =>
      && NoWriter(t) && s.file.Some? && SizeOf(s.disk.data[s.file.value]) + pending <= c.maxTotal
      && removals < Doomed(c, s.disk, now, pending)
      && t.disk == CleanUntil(c, s.disk, now, pending, removals)
    case Starts(_, _) => NoWriter(s)
  }

  /** The active name is taken from the file found open. */
  predicate Retires(c: Conf, s: Moment, e: Event)
    requires Fits(s)
  {
    && s.file.Some?
    && match e
       case Writes(record, w, _) =>
         && !s.closed && 0 < |record| <= c.maxFile && SizeOf(s.disk.data[s.file.value]) > c.maxFile - |record|
         && (w.rotate.CloseFails? || w.rotate.Rotates?)
       case Dies(_, left) => left.active != s.file
       case _ => false
  }

  /** The records repeated by that. */
  function Repeated(c: Conf, s: Moment, e: Event): seq<Record>
    requires Fits(s)
  {
    if Retires(c, s, e) then Flatten(Copies(s.disk)) else []
  }

  function Added(e: Event): seq<Record> {
    if e.Writes? && e.ok && e.record != [] then [e.record] else []
  }

  /** A removal of an archive fails in a cleanup, or the process dies between two. */
  predicate Breaks(e: Event) {
    match e
    case Writes(_, w, _) => w.clean.RemovalFails?
    case Closes(clean) => clean.RemovalFails?
    case Dies(_, _) => false
    case DiesCleaning(_, _, _) => true
    case Starts(w, closeClean) => w.clean.RemovalFails? || closeClean.RemovalFails?
  }

  /** An archive left behind is still there to be repeated. */
  predicate Stuck(s: Moment) {
    s.file.Some? && Unfinished(s.disk)
  }

  /** Neither the active name nor the new archive could be removed. */
  predicate Strands(e: Event) {
    e.Writes? && e.w.rotate == RemoveFails(false)
  }

  /** What one event does to all that was ever written, and to what is still there of it. */
  predicate Happened(c: Conf, s: Moment, t: Moment, e: Event) {
    && Fits(s) && Fits(t) && Possible(c, s, t, e)
    && Flatten(t.history) == Flatten(s.history) + Repeated(c, s, e) + Added(e)
    && (Unbroken(s.disk, s.history) && !Breaks(e) ==> Unbroken(t.disk, t.history))
    && (Stuck(t) ==> Stuck(s) || Strands(e))
  }

  // ---- the death of the process ----

  lemma DeathHistory(d: Disk, now: int, left: Disk, history: seq<seq<Record>>) returns (more: seq<seq<Record>>)
    requires Consistent(d, history) && d.active.Some? && TidyDisk(d) && CrashPoint(d, now, left)
    ensures Consistent(left, more) && (Unbroken(d, history) ==> Unbroken(left, more))
    ensures Flatten(more) == Flatten(history) + (if left.active != d.active then Flatten(Copies(d)) else [])
  {
    hide Flatten, Part, Suffix, Archived, TidyDisk, Copies, Create, Unfinished, Files;
    assert Flatten(history) + [] == Flatten(history);
    LinkConsistent(d, now, history);
    if left == d || left == Link(d, now) {
      return history;
    }
    UnlinkConsistent(d, now, history);
    var gone := Unlink(Link(d, now));
    more := history + Copies(d);
    if left == gone {
      return;
    }
    CreateConsistent(gone, more);
    Created(gone);
    more := WithActive(gone, more);
    RecoverConsistent(Create(gone), more, 0);
  }

  /** Dying at any point of a rotation, or of the rotation after an opening, is such an event. */
  lemma DeathHappens(c: Conf, s: Moment, now: int, left: Disk) returns (t: Moment)
    requires Fits(s) && Leaves(s, now, left)
    ensures Happened(c, s, t, Dies(now, left))
  {
    hide Flatten, Part, Suffix, Archived, TidyDisk, Copies, Create, Unfinished, Files, Recover;
    assert Flatten(s.history) + [] == Flatten(s.history);
    if s.file.None? && left == s.disk {
      t := Moment(left, None, true, s.history);
    } else if s.file.None? {
      CreateConsistent(s.disk, s.history);
      RecoverConsistent(Create(s.disk), WithActive(s.disk, s.history), 0);
      OpenKeeps(s.disk);
      FinishedIsTidy(Open(s.disk));
      NoCopies(Open(s.disk));
      var more := DeathHistory(Open(s.disk), now, left, WithActive(s.disk, s.history));
      t := Moment(left, None, true, more);
    } else {
      var more := DeathHistory(s.disk, now, left, s.history);
      t := Moment(left, None, true, more);
    }
  }

  /** So is dying in a cleanup after some of its removals. */
  lemma CleaningDeathHappens(c: Conf, s: Moment, now: int, pending: nat, removals: nat) returns (t: Moment)
    requires Fits(s) && s.file.Some? && SizeOf(s.disk.data[s.file.value]) + pending <= c.maxTotal
    requires removals < Doomed(c, s.disk, now, pending)
    ensures Happened(c, s, t, DiesCleaning(now, pending, removals))
  {
    hide Flatten, Part, Suffix, Archived, TidyDisk, Unfinished, Files, CleanUntil, Doomed, SizeOf;
    assert Flatten(s.history) + [] == Flatten(s.history);
    CleanUntilConsistent(c, s.disk, now, pending, removals, s.history);
    t := Moment(CleanUntil(c, s.disk, now, pending, removals), None, true, s.history);
  }

  // ---- runs ----

  /** Events, each on what the one before left. */
  predicate Run(c: Conf, ss: seq<Moment>, es: seq<Event>) {
    && |ss| == |es| + 1 && Fits(ss[0])
    && forall i :: 0 <= i < |es| ==> Happened(c, ss[i], ss[i + 1], es[i])
  }

  /** The records whose writes succeeded. */
  function Accepted(es: seq<Event>): seq<Record> {
    if es == [] then [] else Accepted(es[..|es| - 1]) + Added(es[|es| - 1])
  }

  /** The active name is taken from a file with records that has an unfinished archive. */
  predicate Doubles(c: Conf, s: Moment, e: Event)
    requires Fits(s)
  {
    Retires(c, s, e) && Unfinished(s.disk) && s.disk.data[s.file.value] != []
  }

  /** Just then records are repeated. */
  lemma RepeatedExactly(c: Conf, s: Moment, e: Event)
    requires Fits(s)
    ensures Repeated(c, s, e) != [] <==> Doubles(c, s, e)
  {
    if Retires(c, s, e) {
      hide Retires, Unfinished;
      TidyUnfinished(s.disk);
      RepeatNothing(s.disk.data[s.file.value], Leading(s.disk.archives, s.file.value));
    }
  }

  /** None of the first n events repeated anything. */
  predicate Undoubled(c: Conf, ss: seq<Moment>, es: seq<Event>, n: nat)
    requires Run(c, ss, es) && n <= |es|
  {
    forall i :: 0 <= i < n ==> Fits(ss[i]) && !Doubles(c, ss[i], es[i])
  }

  /** None of the first n events cut a cleanup short. */
  predicate Unbreaking(es: seq<Event>, n: nat)
    requires n <= |es|
  {
    forall i :: 0 <= i < n ==> !Breaks(es[i])
  }

  lemma NextEvent(c: Conf, ss: seq<Moment>, es: seq<Event>, n: nat)
    requires Run(c, ss, es) && n < |es|
    ensures |ss| == |es| + 1 && Happened(c, ss[n], ss[n + 1], es[n]) && Fits(ss[n])
    ensures Undoubled(c, ss, es, n + 1) <==> Undoubled(c, ss, es, n) && !Doubles(c, ss[n], es[n])
    ensures Unbreaking(es, n + 1) <==> Unbreaking(es, n) && !Breaks(es[n])
    ensures Accepted(es[..n + 1]) == Accepted(es[..n]) + Added(es[n])
  {
    assert Happened(c, ss[n], ss[n + 1], es[n]);
    hide Run, Doubles, Breaks, Happened, Fits, Added;
    assert es[..n + 1][..n] == es[..n];
  }

  lemma OneMore(a: seq<Record>, before: seq<Record>, x: seq<Record>, more: seq<Record>, added: seq<Record>, exact: bool)
    requires |x| >= |a| + |before| && (x == a + before <==> exact) && (|x| == |a| + |before| <==> exact)
    ensures var y, now := x + more + added, exact && more == [];
            && |y| >= |a| + |before + added|
            && (y == a + (before + added) <==> now) && (|y| == |a| + |before + added| <==> now)
  {
    assert a + (before + added) == a + before + [] + added;
  }

  /** The accounts of a run: all records that were ever written, and the files still there. */
  lemma {:induction false} AccountsOfRun(c: Conf, ss: seq<Moment>, es: seq<Event>, n: nat)
    requires Run(c, ss, es) && n <= |es|
    ensures Fits(ss[n])
    ensures var before, after, more := Flatten(ss[0].history), Flatten(ss[n].history), Accepted(es[..n]);
            && |after| >= |before| + |more|
            && (after == before + more <==> Undoubled(c, ss, es, n))
            && (|after| == |before| + |more| <==> Undoubled(c, ss, es, n))
    ensures Unbroken(ss[0].disk, ss[0].history) && Unbreaking(es, n) ==> Unbroken(ss[n].disk, ss[n].history)
    decreases n
  {
    if n == 0 {
      assert Flatten(ss[0].history) + Accepted(es[..0]) == Flatten(ss[0].history);
    } else {
      hide Doubles, Repeated, Fits, Unbroken, Possible, Stuck, Strands, Breaks, Unbreaking, Flatten, Run, Undoubled, Added,
           Accepted;
      var m := n - 1;
      NextEvent(c, ss, es, m);
      AccountsOfRun(c, ss, es, m);
      RepeatedExactly(c, ss[m], es[m]);
      OneMore(Flatten(ss[0].history), Accepted(es[..m]), Flatten(ss[m].history), Repeated(c, ss[m], es[m]), Added(es[m]),
              Undoubled(c, ss, es, m));
    }
  }

  lemma SuffixFlatten(a: seq<seq<Record>>, b: seq<seq<Record>>)
    requires Suffix(a, b)
    ensures Suffix(Flatten(a), Flatten(b))
  {
    hide Flatten;
    var older := b[..|b| - |a|];
    FlattenConcat(older, a);
    assert older + a == b;
    assert (Flatten(older) + Flatten(a))[|Flatten(older)|..] == Flatten(a);
  }

  /** Over any run of calls, whatever fails in them, of deaths of the process in rotations, openings
      and cleanups, and of new starts: what was ever written is what was there and then every
      accepted record once and in order, exactly when no file with an unfinished archive was retired
      in it. The directory holds whole files of that, in their order; and while no cleanup was cut
      short, just the newest of them, so that its records are the newest there were. */
  lemma FilesOfRun(c: Conf, ss: seq<Moment>, es: seq<Event>)
    requires Run(c, ss, es)
    ensures var s, t, n := ss[0], ss[|es|], |es|;
            && (Flatten(t.history) == Flatten(s.history) + Accepted(es) <==> Undoubled(c, ss, es, n))
            && Consistent(t.disk, t.history)
            && (Unbroken(s.disk, s.history) && Unbreaking(es, n) ==>
                  && Suffix(Files(t.disk), t.history)
                  && (Undoubled(c, ss, es, n) ==> Suffix(Flatten(Files(t.disk)), Flatten(s.history) + Accepted(es))))
  {
    AccountsOfRun(c, ss, es, |es|);
    assert es[..|es|] == es;
    hide Suffix, Files, Undoubled, Unbreaking, Accepted, Flatten, Run;
    var t := ss[|es|];
    if Unbroken(t.disk, t.history) {
      SuffixFlatten(Files(t.disk), t.history);
    }
  }

  /** In particular when some name could always be kept from going in: then nothing repeats. */
  lemma NoDoubleFailure(c: Conf, ss: seq<Moment>, es: seq<Event>)
    requires Run(c, ss, es) && !Stuck(ss[0]) && forall i :: 0 <= i < |es| ==> !Strands(es[i])
    ensures Undoubled(c, ss, es, |es|) && Flatten(ss[|es|].history) == Flatten(ss[0].history) + Accepted(es)
  {
    FilesOfRun(c, ss, es);
    NeverStuck(c, ss, es, |es|);
  }

  lemma {:induction false} NeverStuck(c: Conf, ss: seq<Moment>, es: seq<Event>, n: nat)
    requires Run(c, ss, es) && n <= |es| && !Stuck(ss[0]) && forall i :: 0 <= i < |es| ==> !Strands(es[i])
    ensures !Stuck(ss[n]) && Undoubled(c, ss, es, n)
    decreases n
  {
    if n > 0 {
      NextEvent(c, ss, es, n - 1);
      NeverStuck(c, ss, es, n - 1);
      hide Run, Accepted, Undoubled, Flatten;
      assert !Doubles(c, ss[n - 1], es[n - 1]);
    }
  }
}
