/** The writer of the rotating packet file (gateway/configuration/rotation.go). */
module PacketFile {
  import opened Bytes
  import opened FileRuns
  import opened Retention
  import opened Rotation

  lemma {:induction false} TotalSame(archives: seq<Archive>, data: Data, more: Data)
    requires Stored(archives, data) && Stored(archives, more)
    requires forall i :: 0 <= i < |archives| ==> data[archives[i].ino] == more[archives[i].ino]
    ensures Total(archives, data) == Total(archives, more)
  {
    if archives != [] {
      TotalSame(archives[1..], data, more);
    }
  }

  /** The limits a successful write leaves the directory in. */
  predicate WithinLimits(c: Conf, d: Disk, now: int)
    requires Sound(d)
  {
    && d.active.Some?
    && SizeOf(d.data[d.active.value]) <= c.maxFile
    && |d.archives| <= c.maxBackups
    && Total(d.archives, d.data) + SizeOf(d.data[d.active.value]) <= c.maxTotal
    && (c.maxAgeDays <= 0 || forall i :: 0 <= i < |d.archives| ==> now - d.archives[i].time <= c.maxAgeDays * 86_400_000_000_000)
  }

  // ---- what a write does to the directory ----

  /** The record fits into the active file. */
  predicate HasRoom(c: Conf, d: Disk, length: nat)
    requires Sound(d) && d.active.Some?
  {
    SizeOf(d.data[d.active.value]) + length <= c.maxFile
  }

  /** The directory once a file is open. */
  function Found(d: Disk, open: bool): (r: Disk)
    requires Sound(d) && (open ==> d.active.Some?)
    ensures Sound(r) && r.active.Some?
  {
    OpenKeeps(d);
    if open then d else Open(d)
  }

  /** The directory once the open file has room: it is rotated exactly when it has none. */
  function Ready(c: Conf, d: Disk, open: bool, now: int, length: nat): (r: Disk)
    requires Sound(d) && (open ==> d.active.Some?)
    ensures Sound(r) && r.active.Some?
  {
    var o := Found(d, open);
    RotatedSound(o, now);
    if HasRoom(c, o, length) then o else Open(Unlink(Link(o, now)))
  }

  lemma RotatedSound(d: Disk, now: int)
    requires Sound(d) && d.active.Some?
    ensures Sound(Unlink(Link(d, now))) && Sound(Open(Unlink(Link(d, now)))) && Open(Unlink(Link(d, now))).active.Some?
  {
    UnlinkExact(d, now);
    OpenKeeps(Unlink(Link(d, now)));
  }

  /** The new file can be opened; removals that fail are not needed for a new one. */
  predicate Rotated(result: RotateResult) {
    result.Rotates? && (result.open.Opens? || result.open.OpenFailsRemoving?)
  }

  /** There is an open file with room. */
  predicate MakesRoom(c: Conf, d: Disk, open: bool, w: Weather, length: nat)
    requires Sound(d) && (open ==> d.active.Some?)
  {
    (open || Opened(w.open, d)) && (HasRoom(c, Found(d, open), length) || Rotated(w.rotate))
  }

  /** What a call of Write comes to. */
  predicate Wrote(c: Conf, s: Moment, record: Record, w: Weather, ok: bool, disk: Disk, file: Option<nat>)
    requires Fits(s)
  {
    if s.closed || record == [] || |record| > c.maxFile then ok == (!s.closed && record == []) && disk == s.disk && file == s.file
    else
      var n, d := |record|, Ready(c, s.disk, s.file.Some?, w.now, |record|);
      // It succeeds exactly when each step that it needs does.
      && ok == (MakesRoom(c, s.disk, s.file.Some?, w, n) && !w.clean.CleanFails? && !Stops(c, d, w.now, n, w.clean) && w.written)
      // Then the record is in the open file, and the archives are what the cleanup leaves.
      && (ok ==> Clean(c, d, w.now, n).Ok? && file == d.active && disk == Append(Clean(c, d, w.now, n).value, record))
      // An open file with room stays the file, whether or not the call succeeds; one without is retired.
      && (s.file.Some? && HasRoom(c, s.disk, n) ==>
            && file == s.file && disk.active == s.disk.active
            && disk.data == if ok then s.disk.data[file.value := s.disk.data[file.value] + [record]] else s.disk.data)
      && (s.file.Some? && !HasRoom(c, s.disk, n) && ok ==>
            file.Some? && file != s.file && file.value in disk.data && disk.data[file.value] == [record])
  }

  lemma RotatedFresh(d: Disk, now: int)
    requires Sound(d) && d.active.Some?
    ensures var r := Open(Unlink(Link(d, now)));
            r.active == Some(d.next) && r.active != d.active && r.data == d.data[d.next := []]
  {
  }

  lemma WroteWell(c: Conf, s: Moment, record: Record, w: Weather, cleaned: Disk)
    requires ValidConf(c) && Fits(s) && !s.closed && 0 < |record| <= c.maxFile && MakesRoom(c, s.disk, s.file.Some?, w, |record|)
    requires !w.clean.CleanFails? && !Stops(c, Ready(c, s.disk, s.file.Some?, w.now, |record|), w.now, |record|, w.clean) && w.written
    requires Clean(c, Ready(c, s.disk, s.file.Some?, w.now, |record|), w.now, |record|) == Ok(cleaned)
    ensures cleaned.active.Some? && cleaned.active.value in cleaned.data
    ensures Wrote(c, s, record, w, true, Append(cleaned, record), cleaned.active)
  {
    hide Stops, Links, Opened, Sweep, SizeOf, Part, Archived, TidyDisk, NewestFirst, Stored;
    var d := Ready(c, s.disk, s.file.Some?, w.now, |record|);
    CleanSame(c, d, w.now, |record|);
    if s.file.Some? && !HasRoom(c, s.disk, |record|) {
      RotatedFresh(s.disk, w.now);
    }
    hide Clean, Open;
  }

  class RotatingFile {
    const conf: Conf
    var disk: Disk
    var file: Option<nat>
    var closed: bool
    var failed: bool
    ghost var history: seq<seq<Record>>

    ghost predicate Valid()
      reads this
    {
      && ValidConf(conf) && Consistent(disk, history)
      && (file.Some? ==> disk.active == file && TidyDisk(disk))
    }

    constructor (conf: Conf, disk: Disk, ghost history: seq<seq<Record>>)
      requires ValidConf(conf) && Consistent(disk, history)
      ensures Valid() && this.conf == conf && this.disk == disk && this.history == history
      ensures file.None? && !closed && !failed
    {
      this.conf, this.disk, this.history, file, closed, failed := conf, disk, history, None, false, false;
    }

    /** rotation.go:180-219. */
    method OpenFile(result: OpenResult) returns (ok: bool)
      requires Valid() && file.None?
      modifies this`disk, this`file, this`history
      ensures Valid() && ok == Opened(result, old(disk)) && (file.Some? <==> ok)
      ensures Flatten(history) == old(Flatten(history)) && Flatten(Files(disk)) == old(Flatten(Files(disk)))
      ensures ok ==> disk == Open(old(disk)) && !Unfinished(disk)
      ensures old(disk).active.Some? ==> history == old(history)
      ensures disk == old(disk) || (disk.active == Create(old(disk)).active && disk.data == Create(old(disk)).data)
      ensures Unfinished(disk) ==> old(Unfinished(disk))
      ensures old(Unbroken(disk, history)) ==> Unbroken(disk, history)
    {
      hide Flatten, Unfinished, Files, Sound, Create, Part, Archived, Finished, FinishedUntil, TidyDisk, Suffix;
      if result.OpenFails? {
        return false;
      }
      CreateConsistent(disk, history);
      history := WithActive(disk, history);
      disk := Create(disk);
      if result.OpenFailsCreated? {
        return false;
      }
      ghost var created := disk;
      var removals := if result.OpenFailsRemoving? then result.removals else |disk.archives|;
      RecoverConsistent(disk, history, removals);
      var left: seq<Archive>;
      left, ok := RemoveLinks(disk.archives, disk.active.value, removals);
      disk := disk.(archives := left);
      if ok {
        file := disk.active;
        FinishedIsTidy(disk);
      }
    }

    /** rotation.go:221-279. A rotation only moves files, and repeats the active one once for each
        unfinished archive that it finds; no record else changes place or number. */
    method Rotate(now: int, result: RotateResult) returns (ok: bool)
      requires Valid() && file.Some?
      modifies this`disk, this`file, this`history
      ensures Valid() && (ok ==> file.Some?)
      ensures var more := if result.CloseFails? || result.Rotates? then Flatten(Copies(old(disk))) else [];
              && Flatten(history) == old(Flatten(history)) + more
              && Flatten(Files(disk)) == old(Flatten(Files(disk))) + more
      ensures ok ==> !Unfinished(disk) && disk.data[file.value] == []
      ensures Unfinished(disk)
              <==> result == RemoveFails(false) || (old(Unfinished(disk)) && (result.RotateFails? || result.RemoveFails?))
      ensures ok == Rotated(result)
      ensures ok ==> disk == Open(Unlink(Link(old(disk), now))) && file == disk.active
      ensures !ok ==> if result.RotateFails? || result.RemoveFails? then disk.data == old(disk).data && file == old(file) else file.None?
      ensures file.None? && disk.active.Some? ==> disk.data[disk.active.value] == []
      ensures old(Unbroken(disk, history)) ==> Unbroken(disk, history)
    {
      hide Flatten, Files, Suffix, Part, Archived, Copies, TidyDisk, Unfinished;
      assert Flatten(history) + [] == Flatten(history) && Flatten(Files(disk)) + [] == Flatten(Files(disk));
      if result.RotateFails? {
        return false;
      }
      var timestamp := now;
      if |disk.archives| > 0 && timestamp <= disk.archives[0].time {
        timestamp := disk.archives[0].time + 1;
      }
      LinkConsistent(disk, now, history);
      LinkTidy(disk, now);
      UnlinkConsistent(disk, now, history);
      ghost var was := disk;
      disk := disk.(archives := [Archive(timestamp, disk.active.value)] + disk.archives);
      if result.RemoveFails? {
        if result.undone {
          disk := disk.(archives := disk.archives[1..]);
          assert disk == was;
        }
        return false;
      }
      history := history + Copies(was);
      disk := Unlink(disk);
      file := None;
      NothingOpen(disk);
      if result.CloseFails? {
        return false;
      }
      ok := OpenFile(result.open);
    }

    /** rotation.go:315-355. It fails for the total size exactly when the open file and what is about
        to be written have no room. Otherwise whole files are taken off the old end; but when a
        removal fails after others, those others are missing between newer and older files. */
    method Cleanup(now: int, pending: int, result: CleanResult) returns (ok: bool, exceeded: bool)
      requires Valid() && file.Some? && pending >= 0
      modifies this`disk
      ensures Valid() && disk.active == old(disk).active && disk.data == old(disk).data
      ensures exceeded == (!result.CleanFails? && SizeOf(old(disk).data[file.value]) + pending > conf.maxTotal)
      ensures ok == !(result.CleanFails? || exceeded || Stops(conf, old(disk), now, pending, result))
      ensures ok ==> Clean(conf, old(disk), now, pending) == Ok(disk) && !Unfinished(disk)
      ensures !ok ==> disk == if !exceeded && Stops(conf, old(disk), now, pending, result)
                              then CleanUntil(conf, old(disk), now, pending, result.removals) else old(disk)
      ensures Unfinished(disk) ==> old(Unfinished(disk))
      ensures Finished(disk.archives, file.value) <= Finished(old(disk).archives, file.value)
              <==> !LeavesGap(conf, old(disk), now, pending, result)
      ensures old(Unbroken(disk, history)) && !LeavesGap(conf, old(disk), now, pending, result) ==> Unbroken(disk, history)
    {
      hide Files, SizeOf, Suffix, Part, Archived, TidyDisk, Unfinished, Sweep, SweepUntil, Finished, Leading;
      if result.CleanFails? {
        return false, false;
      }
      var remaining := conf.maxTotal - pending - SizeOf(disk.data[file.value]);
      if remaining < 0 {
        return false, true;
      }
      ghost var was := disk;
      var removals := if result.RemovalFails? then result.removals else |disk.archives|;
      var left: seq<Archive>;
      left, ok := SweepLoop(conf, disk.archives, disk.data, file.value, now, remaining, removals);
      disk := disk.(archives := left);
      if ok {
        CleanConsistent(conf, was, now, pending, disk, history);
        FinishedIsTidy(disk);
        SweptPrefix(conf, was, now, remaining);
      } else {
        CleanUntilConsistent(conf, was, now, pending, removals, history);
        CleanUntilKeeps(conf, was, now, pending, removals);
      }
      exceeded := false;
    }

    /** Where things stand now. */
    ghost function Shot(): Moment
      reads this
    {
      Moment(disk, file, closed, history)
    }

    /** rotation.go:118-137: the file is opened if it is not, and rotated if the record does not fit. */
    method MakeRoom(record: Record, w: Weather) returns (ok: bool)
      requires Valid() && ActiveSized(conf, disk) && !closed && 0 < |record| <= conf.maxFile
      modifies this`disk, this`file, this`history
      ensures Valid() && ActiveSized(conf, disk)
      ensures ok == MakesRoom(conf, old(disk), old(file).Some?, w, |record|)
      ensures ok ==> file.Some? && file == disk.active && disk == Ready(conf, old(disk), old(file).Some?, w.now, |record|)
      ensures ok ==> SizeOf(disk.data[file.value]) + |record| <= conf.maxFile
      ensures old(file).Some? && HasRoom(conf, old(disk), |record|) ==> disk == old(disk) && file == old(file)
      ensures Flatten(history) == old(Flatten(history)) + old(Repeated(conf, Shot(), Writes(record, w, false)))
      ensures Stuck(Shot()) ==> w.rotate == RemoveFails(false) || old(Stuck(Shot()))
      ensures old(Unbroken(disk, history)) ==> Unbroken(disk, history)
    {
      hide Flatten, Files, SizeOf, Unfinished, Suffix, Part, Archived, TidyDisk, Copies, Finished, Stored, NewestFirst,
           Open, Create, Links, Leading;
      assert Flatten(history) + [] == Flatten(history);
      if file.None? {
        OpenSized(conf, disk);
        ok := OpenFile(w.open);
        if !ok {
          return;
        }
      }
      ok := true;
      if SizeOf(disk.data[file.value]) > conf.maxFile - |record| {
        NoCopies(disk);
        ok := Rotate(w.now, w.rotate);
        EmptySize();
      }
    }

    /** rotation.go:103-152. A successful write leaves the record in the open file, which is the same
        as before exactly if it had room, and a new one if not, and of the archives what the cleanup
        leaves; all within the limits. It fails exactly when it is asked too late or too much, or a step
        that it needs fails; then it adds nothing. Either way it repeats the records of the open file
        when it completes a rotation and finds unfinished archives. Room for the record is never missing. */
    method Write(record: Record, w: Weather) returns (n: int, ok: bool, exceeded: bool)
      requires Valid() && ActiveSized(conf, disk)
      modifies this`disk, this`file, this`failed, this`history
      ensures Valid() && ActiveSized(conf, disk) && !exceeded
      ensures Happened(conf, old(Shot()), Shot(), Writes(record, w, ok))
      ensures n == if ok then |record| else 0
      ensures Wrote(conf, old(Shot()), record, w, ok, disk, file)
      ensures ok && record != [] ==> file.Some? && WithinLimits(conf, disk, w.now) && !Unfinished(disk)
    {
      hide Flatten, Files, SizeOf, Unfinished, Suffix, Total, Expired, WithinLimits, Clean, Part, Archived, TidyDisk, Copies,
           CleanUntil, Finished, Doomed, Stored, NewestFirst, Open, Create, Links, Leading;
      n, ok, exceeded := 0, false, false;
      ghost var s := Shot();
      assert Flatten(s.history) + [] == Flatten(s.history) && Flatten(s.history) + [] + [] == Flatten(s.history);
      if closed {
        return;
      }
      if |record| == 0 {
        return 0, true, false;
      }
      if |record| > conf.maxFile {
        failed := true;
        return;
      }
      var going := MakeRoom(record, w);
      ghost var more := Repeated(conf, s, Writes(record, w, false));
      assert more == Repeated(conf, s, Writes(record, w, true));
      hide Repeated, Retires;
      assert Flatten(s.history) + more + [] == Flatten(s.history) + more;
      if !going {
        failed := true;
        return;
      }
      ghost var before := disk;
      going, exceeded := Cleanup(w.now, |record|, w.clean);
      if !going || !w.written {
        failed := true;
        return;
      }
      CleanWithin(conf, before, disk, w.now, record);
      WroteWell(conf, s, record, w, disk);
      hide Wrote;
      AppendConsistent(disk, record, history);
      history := history[..|history| - 1] + [history[|history| - 1] + [record]];
      disk := Append(disk, record);
      FinishedIsTidy(disk);
      return |record|, true, false;
    }

    /** rotation.go:154-178. It reports that the total size is exceeded exactly when the open file
        alone does; so never after a successful preparation. */
    method Close(now: int, clean: CleanResult, closes: bool) returns (error: bool, exceeded: bool)
      requires Valid()
      modifies this`disk, this`file, this`closed, this`failed
      ensures Valid() && closed && error == failed && Happened(conf, old(Shot()), Shot(), Closes(clean))
      ensures old(closed) ==> error == old(failed)
      ensures exceeded <==> !old(closed) && old(file).Some? && !clean.CleanFails? && SizeOf(old(disk).data[old(file).value]) > conf.maxTotal
      ensures ActiveSized(conf, old(disk)) ==> !exceeded
      ensures !old(closed) ==> file.None?
      ensures !old(closed) && old(file).Some? ==>
                error == (old(failed) || clean.CleanFails? || exceeded || Stops(conf, old(disk), now, 0, clean) || !closes)
    {
      hide Files, Suffix, Part, Archived, Clean, SizeOf, CleanUntil, Doomed;
      exceeded := false;
      if closed {
        return failed, false;
      }
      closed := true;
      if file.None? {
        return failed, false;
      }
      var ok: bool;
      ok, exceeded := Cleanup(now, 0, clean);
      file := None;
      if !ok || !closes {
        failed := true;
      }
      error := failed;
    }

    /** rotation.go:46-85, from an empty writer. When it succeeds the directory is within its limits;
        the total size can be reported as exceeded only by the Close of a preparation that failed to
        rotate an active file found larger than all files together may be. */
    method Prepare(w: Weather, closeClean: CleanResult, closes: bool) returns (ok: bool, exceeded: bool)
      requires Valid() && file.None? && !closed && !failed
      modifies this`disk, this`file, this`closed, this`failed, this`history
      ensures Valid() && Happened(conf, old(Shot().(closed := true)), Shot(), Starts(w, closeClean))
      ensures ok ==> file.Some? && !closed && !failed && file == disk.active
      ensures ok == (MakesRoom(conf, old(disk), false, w, 0) && !w.clean.CleanFails?
                     && !Stops(conf, Ready(conf, old(disk), false, w.now, 0), w.now, 0, w.clean))
      ensures ok ==> Clean(conf, Ready(conf, old(disk), false, w.now, 0), w.now, 0) == Ok(disk)
      ensures ok ==> WithinLimits(conf, disk, w.now) && !Unfinished(disk) && ActiveSized(conf, disk)
      ensures exceeded <==> Opened(w.open, old(disk)) && !closeClean.CleanFails? && (w.rotate.RotateFails? || w.rotate.RemoveFails?)
                            && old(disk).active.Some? && SizeOf(old(disk).data[old(disk).active.value]) > conf.maxTotal
    {
      hide Flatten, Files, Unfinished, Suffix, Part, Archived, Clean, Total, Expired, WithinLimits, Copies, CleanUntil, Finished, Doomed, TidyDisk,
           Create, Open, Links, Leading, SizeOf, Sound, Sweep, NewestFirst, Stored, Repeated, Possible;
      ghost var s := Shot().(closed := true);
      StartRepeatsNothing(conf, s, w, closeClean);
      OpenContents(disk);
      exceeded := false;
      ok := OpenFile(w.open);
      if ok && SizeOf(disk.data[file.value]) > conf.maxFile {
        NoCopies(disk);
        assert Flatten(history) + [] == Flatten(history);
        ok := Rotate(w.now, w.rotate);
        EmptySize();
      }
      if ok {
        ghost var before := disk;
        ok, exceeded := Cleanup(w.now, 0, w.clean);
        if ok {
          CleanWithinAlone(conf, before, disk, w.now);
        }
      }
      if !ok {
        failed := true;
        var error: bool;
        error, exceeded := Close(w.now, closeClean, closes);
      }
    }
  }

  lemma StartRepeatsNothing(c: Conf, s: Moment, w: Weather, closeClean: CleanResult)
    requires Fits(s) && NoWriter(s)
    ensures Repeated(c, s, Starts(w, closeClean)) == [] && forall t :: Possible(c, s, t, Starts(w, closeClean))
    ensures forall x: seq<Record> :: x + [] + [] == x
  {
  }

  lemma NothingOpen(d: Disk)
    requires Sound(d) && d.active.None?
    ensures !Unfinished(d) && TidyDisk(d) && Links(Create(d)) == 0
  {
    NoLinks(d.archives, d.next);
    FinishedTidy(d.archives, d.next);
  }

  lemma SweptPrefix(c: Conf, d: Disk, now: int, remaining: int)
    requires ValidConf(c) && Sound(d) && d.active.Some? && remaining >= 0
    ensures var left := Sweep(c, d.archives, d.data, d.active.value, now, 0, remaining, false);
            Finished(left, d.active.value) == left && left <= Finished(d.archives, d.active.value)
  {
    hide SizeOf, Sweep, Finished, Within, Total;
    SweepKeepsLongest(c, d.archives, d.data, d.active.value, now, 0, remaining);
    var left, f := Sweep(c, d.archives, d.data, d.active.value, now, 0, remaining, false), Finished(d.archives, d.active.value);
    assert forall i :: 0 <= i < |left| ==> left[i] == f[i];
    NoLinks(left, d.active.value);
    FinishedTidy(left, d.active.value);
    assert left[0..] == left;
  }

  lemma OpenContents(d: Disk)
    requires Sound(d)
    ensures Sound(Open(d)) && Open(d).active.Some?
    ensures d.active.Some? ==> Open(d).active == d.active && Open(d).data == d.data
    ensures d.active.None? ==> Open(d).data[Open(d).active.value] == []
  {
    OpenKeeps(d);
  }

  lemma CleanWithinAlone(c: Conf, before: Disk, d: Disk, now: int)
    requires ValidConf(c) && Sound(before) && before.active.Some? && Sound(d) && d.active.Some?
    requires Clean(c, before, now, 0) == Ok(d) && SizeOf(before.data[before.active.value]) <= c.maxFile
    ensures WithinLimits(c, d, now)
  {
    hide SizeOf, Total, Files, Suffix, Sweep, Finished;
    CleanedWithin(c, before, d, now, 0);
  }

  /** The active file is no larger than a file may be. */
  predicate ActiveSized(c: Conf, d: Disk)
    requires Sound(d)
  {
    d.active.Some? ==> SizeOf(d.data[d.active.value]) <= c.maxFile
  }

  lemma EmptySize()
    ensures SizeOf([]) == 0
  {
  }

  lemma OpenSized(c: Conf, d: Disk)
    requires Sound(d) && ActiveSized(c, d) && ValidConf(c)
    ensures Sound(Create(d)) && ActiveSized(c, Create(d)) && Sound(Open(d)) && ActiveSized(c, Open(d))
  {
    CreateKeeps(d);
    OpenKeeps(d);
  }

  /** After a cleanup that left room for a record, writing it keeps all limits. */
  lemma CleanWithin(c: Conf, before: Disk, d: Disk, now: int, record: Record)
    requires ValidConf(c) && Sound(before) && before.active.Some? && Sound(d) && d.active.Some?
    requires Clean(c, before, now, |record|) == Ok(d) && SizeOf(before.data[before.active.value]) + |record| <= c.maxFile
    ensures Sound(Append(d, record)) && WithinLimits(c, Append(d, record), now) && ActiveSized(c, Append(d, record))
  {
    hide SizeOf, Total, Files, Suffix, Sweep, Finished, Part, Archived, Clean, Unfinished, NewestFirst, Stored;
    CleanedWithin(c, before, d, now, |record|);
    CleanKeeps(c, before, now, |record|);
    AppendKeeps(d, record);
    assert forall i :: 0 <= i < |d.archives| ==> d.archives[i].ino != d.active.value by {
      NoneUnfinished(d);
    }
    AppendedWithin(c, d, now, |record|, record);
  }

  lemma NoneUnfinished(d: Disk)
    requires d.active.Some? && !Unfinished(d)
    ensures forall i :: 0 <= i < |d.archives| ==> d.archives[i].ino != d.active.value
  {
  }

  lemma AppendedWithin(c: Conf, d: Disk, now: int, pending: nat, record: Record)
    requires ValidConf(c) && Sound(d) && d.active.Some? && pending == |record| && Sound(Append(d, record))
    requires Within(c, d.archives, d.data, now, 0, c.maxTotal - pending - SizeOf(d.data[d.active.value]))
    requires forall i :: 0 <= i < |d.archives| ==> d.archives[i].ino != d.active.value
    requires SizeOf(d.data[d.active.value]) + pending <= c.maxFile
    ensures WithinLimits(c, Append(d, record), now) && ActiveSized(c, Append(d, record))
  {
    hide SizeOf, Total;
    AppendSize(d, record);
    TotalSame(d.archives, d.data, Append(d, record).data);
  }

  lemma AppendSize(d: Disk, record: Record)
    requires d.active.Some? && d.active.value in d.data
    ensures SizeOf(Append(d, record).data[d.active.value]) == SizeOf(d.data[d.active.value]) + |record|
  {
    var was := d.data[d.active.value];
    assert (was + [record])[..|was|] == was;
  }

  lemma CleanedWithin(c: Conf, before: Disk, d: Disk, now: int, pending: nat)
    requires ValidConf(c) && Sound(before) && before.active.Some? && Clean(c, before, now, pending) == Ok(d)
    ensures d.active == before.active && d.data == before.data && Stored(d.archives, d.data)
    ensures Within(c, d.archives, d.data, now, 0, c.maxTotal - pending - SizeOf(before.data[before.active.value]))
  {
    hide SizeOf, Total, Sweep, Finished;
    var open := before.active.value;
    SweepKeepsLongest(c, before.archives, before.data, open, now, 0, c.maxTotal - pending - SizeOf(before.data[open]));
  }
}
