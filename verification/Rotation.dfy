/** The rotating packet file over an abstract directory: names, the inodes they link to and the
    records in each (gateway/configuration/rotation.go). */
module Rotation {
  import opened Bytes
  import opened Retention

  /** The active name and the archives, newest first; what each inode holds; and a number above
      those of all inodes. */
  datatype Disk = Disk(active: Option<nat>, archives: seq<Archive>, data: Data, next: nat)

  // ---- what the directory holds ----

  /** The contents of the archives, oldest first; further names of the active file do not count. */
  function Archived(archives: seq<Archive>, data: Data, active: Option<nat>): seq<seq<Record>>
    requires Stored(archives, data)
  {
    if archives == [] then []
    else Archived(archives[1..], data, active) + (if active == Some(archives[0].ino) then [] else [data[archives[0].ino]])
  }

  predicate Sound(d: Disk) {
    && Stored(d.archives, d.data) && NewestFirst(d.archives)
    && (forall i :: 0 <= i < |d.archives| ==> d.archives[i].ino < d.next)
    && (d.active.Some? ==> d.active.value < d.next && d.active.value in d.data)
  }

  /** The files of the directory, oldest first, the active one last. */
  function Files(d: Disk): seq<seq<Record>>
    requires Sound(d)
  {
    Archived(d.archives, d.data, d.active) + (if d.active.Some? then [d.data[d.active.value]] else [])
  }

  /** An interrupted rotation left the active file under an archive name too. */
  predicate Unfinished(d: Disk) {
    exists i :: 0 <= i < |d.archives| && d.active == Some(d.archives[i].ino)
  }

  function Flatten(files: seq<seq<Record>>): seq<Record> {
    if files == [] then [] else Flatten(files[..|files| - 1]) + files[|files| - 1]
  }

  predicate Suffix<T(==)>(a: seq<T>, b: seq<T>) {
    |a| <= |b| && b[|b| - |a|..] == a
  }

  /** a is b with some elements left out. */
  predicate Part<T(==)>(a: seq<T>, b: seq<T>) {
    || a == []
    || (b != [] && ((a[|a| - 1] == b[|b| - 1] && Part(a[..|a| - 1], b[..|b| - 1])) || Part(a, b[..|b| - 1])))
  }

  /** What is there are whole files of all there ever were, in their order; the active file is the last. */
  predicate Consistent(d: Disk, history: seq<seq<Record>>) {
    && Sound(d)
    && if d.active.Some? then
         && history != [] && history[|history| - 1] == d.data[d.active.value]
         && Part(Archived(d.archives, d.data, d.active), history[..|history| - 1])
       else Part(Archived(d.archives, d.data, d.active), history)
  }

  /** Nothing is missing between what is there and the newest file. */
  predicate Unbroken(d: Disk, history: seq<seq<Record>>)
    requires Sound(d)
  {
    Suffix(Files(d), history)
  }

  // ---- the steps of a rotation ----

  function ArchiveTime(d: Disk, now: int): int {
    if d.archives != [] && now <= d.archives[0].time then d.archives[0].time + 1 else now
  }

  /** The earliest that is not before now and later than every archive there is. */
  lemma ArchiveTimeEarliest(d: Disk, now: int, t: int)
    requires Sound(d)
    ensures t >= ArchiveTime(d, now) <==> t >= now && forall i :: 0 <= i < |d.archives| ==> t > d.archives[i].time
  {
    if d.archives != [] {
      assert t >= ArchiveTime(d, now) ==> t > d.archives[0].time;
    }
  }

  /** os.Link of the active file under an archive name. */
  function Link(d: Disk, now: int): Disk
    requires d.active.Some?
  {
    d.(archives := [Archive(ArchiveTime(d, now), d.active.value)] + d.archives)
  }

  /** os.Remove of the active name. */
  function Unlink(d: Disk): Disk {
    d.(active := None)
  }

  /** os.OpenFile with O_CREATE. */
  function Create(d: Disk): Disk {
    if d.active.Some? then d else d.(active := Some(d.next), data := d.data[d.next := []], next := d.next + 1)
  }

  /** The removal in open of archives that are the active file, as far as the removals succeed. */
  function RecoverUntil(d: Disk, removals: nat): Disk {
    if d.active.Some? then d.(archives := FinishedUntil(d.archives, d.active.value, removals)) else d
  }

  /** The same when all do. */
  function Recover(d: Disk): Disk {
    if d.active.Some? then d.(archives := Finished(d.archives, d.active.value)) else d
  }

  function Open(d: Disk): Disk {
    Recover(Create(d))
  }

  function Append(d: Disk, record: Record): Disk
    requires d.active.Some? && d.active.value in d.data
  {
    d.(data := d.data[d.active.value := d.data[d.active.value] + [record]])
  }

  /** How many archives are the active file. */
  function Links(d: Disk): nat {
    if d.active.Some? then |d.archives| - |Finished(d.archives, d.active.value)| else 0
  }

  /** How many archives a cleanup removes. */
  function Doomed(c: Conf, d: Disk, now: int, pending: int): int
    requires Sound(d) && d.active.Some?
  {
    var remaining := c.maxTotal - pending - SizeOf(d.data[d.active.value]);
    |d.archives| - |Sweep(c, d.archives, d.data, d.active.value, now, 0, remaining, false)|
  }

  function CleanUntil(c: Conf, d: Disk, now: int, pending: int, removals: nat): Disk
    requires Sound(d) && d.active.Some?
  {
    var remaining := c.maxTotal - pending - SizeOf(d.data[d.active.value]);
    d.(archives := SweepUntil(c, d.archives, d.data, d.active.value, now, 0, remaining, false, removals))
  }

  function Clean(c: Conf, d: Disk, now: int, pending: int): Result<Disk>
    requires Sound(d) && d.active.Some?
  {
    var remaining := c.maxTotal - pending - SizeOf(d.data[d.active.value]);
    if remaining < 0 then Err
    else Ok(d.(archives := Sweep(c, d.archives, d.data, d.active.value, now, 0, remaining, false)))
  }

  // ---- what they do to the contents ----

  lemma {:induction false} ArchivedSame(archives: seq<Archive>, data: Data, more: Data, active: Option<nat>, other: Option<nat>)
    requires Stored(archives, data) && Stored(archives, more)
    requires forall i :: 0 <= i < |archives| ==>
               (active == Some(archives[i].ino) <==> other == Some(archives[i].ino))
               && (active != Some(archives[i].ino) ==> data[archives[i].ino] == more[archives[i].ino])
    ensures Archived(archives, data, active) == Archived(archives, more, other)
    decreases |archives|
  {
    if archives != [] {
      assert forall i :: 0 <= i < |archives| - 1 ==> archives[1..][i] == archives[i + 1];
      ArchivedSame(archives[1..], data, more, active, other);
    }
  }

  lemma LinkKeeps(d: Disk, now: int)
    requires Sound(d) && d.active.Some?
    ensures Sound(Link(d, now)) && Files(Link(d, now)) == Files(d)
  {
    var r := Link(d, now);
    assert r.archives[1..] == d.archives;
    assert forall i :: 1 <= i < |r.archives| ==> r.archives[i] == d.archives[i - 1];
    assert Archived(d.archives, d.data, d.active) + [] == Archived(d.archives, d.data, d.active);
  }

  lemma {:induction false} ArchivedCount(archives: seq<Archive>, data: Data, active: Option<nat>)
    requires Stored(archives, data)
    ensures |Archived(archives, data, active)| <= |archives|
    ensures |Archived(archives, data, active)| == |archives| <==> forall i :: 0 <= i < |archives| ==> active != Some(archives[i].ino)
    decreases |archives|
  {
    if archives != [] {
      assert forall i :: 0 <= i < |archives| - 1 ==> archives[1..][i] == archives[i + 1];
      assert forall i :: 1 <= i < |archives| ==> archives[i] == archives[1..][i - 1];
      ArchivedCount(archives[1..], data, active);
    }
  }

  /** A rotation that removes the active name after linking it keeps the contents just as they were,
      no record lost or doubled, exactly when no earlier unfinished archive was there. */
  lemma UnlinkExact(d: Disk, now: int)
    requires Sound(d) && d.active.Some?
    ensures Sound(Unlink(Link(d, now)))
    ensures Files(Unlink(Link(d, now))) == Files(d) <==> !Unfinished(d)
  {
    var r := Unlink(Link(d, now));
    LinkKeeps(d, now);
    assert r.archives[1..] == d.archives;
    assert Files(r) == Archived(d.archives, d.data, None) + [d.data[d.active.value]] + [];
    ArchivedCount(d.archives, d.data, d.active);
    ArchivedCount(d.archives, d.data, None);
    if !Unfinished(d) {
      ArchivedSame(d.archives, d.data, d.data, d.active, None);
    }
  }

  lemma {:induction false} ArchivedThin(left: seq<Archive>, archives: seq<Archive>, data: Data, active: Option<nat>)
    requires Thin(left, archives) && Stored(archives, data)
    ensures Stored(left, data) && Part(Archived(left, data, active), Archived(archives, data, active))
    decreases |archives|
  {
    ThinAmong(left, archives);
    if left != [] {
      var rest := archives[1..];
      var b := Archived(rest, data, active);
      var x := if active == Some(archives[0].ino) then [] else [data[archives[0].ino]];
      if Thin(left, rest) {
        ArchivedThin(left, rest, data, active);
        PartMore(Archived(left, data, active), b, x);
      } else {
        ArchivedThin(left[1..], rest, data, active);
        PartAppend(Archived(left[1..], data, active), b, x);
      }
    }
  }

  /** Removing archives keeps the order of the others. */
  lemma ThinSound(d: Disk, left: seq<Archive>)
    requires Sound(d) && Thin(left, d.archives)
    ensures Sound(d.(archives := left))
    ensures Part(Archived(left, d.data, d.active), Archived(d.archives, d.data, d.active))
  {
    ArchivedThin(left, d.archives, d.data, d.active);
    ThinAmong(left, d.archives);
    forall i | 0 <= i < |left|
      ensures left[i].ino < d.next
    {
      assert left[i] in d.archives;
    }
  }

  lemma {:induction false} ArchivedLinked(archives: seq<Archive>, data: Data, open: nat)
    requires Stored(archives, data)
    ensures Stored(Finished(archives, open), data)
    ensures Archived(Finished(archives, open), data, Some(open)) == Archived(archives, data, Some(open))
    decreases |archives|
  {
    FinishedThin(archives, open, 0);
    ThinStored(Finished(archives, open), archives, data);
    if archives != [] {
      hide Thin;
      var rest := archives[1..];
      ArchivedLinked(rest, data, open);
      Joined(archives[0], Finished(rest, open));
      assert Archived(rest, data, Some(open)) + [] == Archived(rest, data, Some(open));
    }
  }

  lemma {:induction false} ArchivedUntil(archives: seq<Archive>, data: Data, open: nat, removals: nat)
    requires Stored(archives, data)
    ensures Stored(FinishedUntil(archives, open, removals), data)
    ensures Archived(FinishedUntil(archives, open, removals), data, Some(open)) == Archived(archives, data, Some(open))
    decreases |archives|
  {
    FinishedThin(archives, open, removals);
    ThinStored(FinishedUntil(archives, open, removals), archives, data);
    if archives != [] {
      hide Thin;
      var a, rest := archives[0], archives[1..];
      var fewer := if a.ino == open && removals > 0 then removals - 1 else removals;
      ArchivedUntil(rest, data, open, fewer);
      Joined(a, FinishedUntil(rest, open, fewer));
      assert Archived(rest, data, Some(open)) + [] == Archived(rest, data, Some(open));
    }
  }

  lemma ArchivedFinished(archives: seq<Archive>, data: Data, open: nat, removals: nat)
    requires Stored(archives, data)
    ensures Stored(Finished(archives, open), data) && Stored(FinishedUntil(archives, open, removals), data)
    ensures Archived(Finished(archives, open), data, Some(open)) == Archived(archives, data, Some(open))
    ensures Archived(FinishedUntil(archives, open, removals), data, Some(open)) == Archived(archives, data, Some(open))
  {
    hide Archived, Finished, FinishedUntil, Stored;
    ArchivedLinked(archives, data, open);
    ArchivedUntil(archives, data, open, removals);
  }

  lemma ThinStored(left: seq<Archive>, archives: seq<Archive>, data: Data)
    requires Thin(left, archives) && Stored(archives, data)
    ensures Stored(left, data)
  {
    ThinAmong(left, archives);
  }

  /** Removing names of the active file, all or some, changes no content. */
  lemma RecoverKeeps(d: Disk, removals: nat)
    requires Sound(d)
    ensures Sound(Recover(d)) && Files(Recover(d)) == Files(d) && (d.active.Some? ==> !Unfinished(Recover(d)))
    ensures Sound(RecoverUntil(d, removals)) && Files(RecoverUntil(d, removals)) == Files(d)
    ensures Unfinished(RecoverUntil(d, removals)) ==> Unfinished(d)
  {
    if d.active.Some? {
      var open := d.active.value;
      FinishedThin(d.archives, open, removals);
      ThinSound(d, Finished(d.archives, open));
      ThinSound(d, FinishedUntil(d.archives, open, removals));
      ArchivedFinished(d.archives, d.data, open, removals);
      ThinAmong(FinishedUntil(d.archives, open, removals), d.archives);
    }
  }

  lemma CreateKeeps(d: Disk)
    requires Sound(d)
    ensures Sound(Create(d)) && Files(Create(d)) == Files(d) + (if d.active.Some? then [] else [[]])
  {
    if d.active.Some? {
      assert Files(d) + [] == Files(d);
    } else {
      var r := Create(d);
      ArchivedSame(d.archives, d.data, r.data, None, r.active);
      assert Archived(d.archives, d.data, None) + [] == Archived(d.archives, d.data, None);
    }
  }

  /** Opening the directory creates the active file if it is missing, and undoes an unfinished
      rotation without touching the contents. */
  lemma OpenKeeps(d: Disk)
    requires Sound(d)
    ensures Sound(Open(d)) && Files(Open(d)) == Files(d) + (if d.active.Some? then [] else [[]])
    ensures Open(d).active.Some? && !Unfinished(Open(d))
  {
    CreateKeeps(d);
    RecoverKeeps(Create(d), 0);
  }

  lemma FlattenSnoc(files: seq<seq<Record>>, f: seq<Record>)
    ensures Flatten(files + [f]) == Flatten(files) + f
  {
    assert (files + [f])[..|files|] == files;
  }

  lemma FlattenAppend(front: seq<seq<Record>>, last: seq<Record>, record: Record)
    ensures Flatten(front + [last + [record]]) == Flatten(front + [last]) + [record]
  {
    hide Flatten;
    FlattenSnoc(front, last);
    FlattenSnoc(front, last + [record]);
    Reassociate(Flatten(front), last, [record]);
  }

  lemma Reassociate(a: seq<Record>, b: seq<Record>, c: seq<Record>)
    ensures a + (b + c) == a + b + c
  {
  }

  // ---- a rotation, whatever was left before ----

  function Repeat(f: seq<Record>, k: nat): (r: seq<seq<Record>>)
    ensures |r| == k
  {
    if k == 0 then [] else Repeat(f, k - 1) + [f]
  }

  lemma {:induction false} RepeatFront(f: seq<Record>, k: nat)
    ensures [f] + Repeat(f, k) == Repeat(f, k) + [f]
  {
    if k > 0 {
      RepeatFront(f, k - 1);
      assert [f] + (Repeat(f, k - 1) + [f]) == [f] + Repeat(f, k - 1) + [f];
    }
  }

  lemma {:induction false} FlattenConcat(a: seq<seq<Record>>, b: seq<seq<Record>>)
    ensures Flatten(a + b) == Flatten(a) + Flatten(b)
    decreases |b|
  {
    if b == [] {
      assert a + b == a && Flatten(a) + [] == Flatten(a);
    } else {
      var front, last := b[..|b| - 1], b[|b| - 1];
      FlattenConcat(a, front);
      assert (a + b)[..|a + b| - 1] == a + front;
      Reassociate(Flatten(a), Flatten(front), last);
    }
  }

  /** Nothing is repeated exactly when there is nothing to repeat. */
  lemma {:induction false} RepeatNothing(f: seq<Record>, k: nat)
    ensures Flatten(Repeat(f, k)) == [] <==> k == 0 || f == []
  {
    if k > 0 {
      RepeatNothing(f, k - 1);
      FlattenSnoc(Repeat(f, k - 1), f);
    }
  }

  /** Once the active name is gone, its unfinished archives count as files. */
  lemma {:induction false} ArchivedGone(archives: seq<Archive>, data: Data, open: nat)
    requires Stored(archives, data) && Tidy(archives, open)
    ensures Leading(archives, open) > 0 ==> open in data
    ensures var k := Leading(archives, open);
            k > 0 ==> Archived(archives, data, None) == Archived(archives, data, Some(open)) + Repeat(data[open], k)
    ensures Leading(archives, open) == 0 ==> Archived(archives, data, None) == Archived(archives, data, Some(open))
    decreases |archives|
  {
    LeadingStep(archives, open);
    if Leading(archives, open) == 0 {
      ArchivedSame(archives, data, data, None, Some(open));
    } else {
      var rest := archives[1..];
      var k := Leading(rest, open);
      TidyRest(archives, open);
      ArchivedGone(rest, data, open);
      var a := Archived(rest, data, Some(open));
      assert a + [] == a;
      assert Repeat(data[open], k + 1) == Repeat(data[open], k) + [data[open]];
      assert a + (Repeat(data[open], k) + [data[open]]) == a + Repeat(data[open], k) + [data[open]];
    }
  }

  predicate TidyDisk(d: Disk) {
    d.active.Some? ==> Tidy(d.archives, d.active.value)
  }

  /** The copies that a complete rotation leaves of the active file, one for each unfinished archive. */
  function Copies(d: Disk): seq<seq<Record>>
    requires Sound(d) && d.active.Some?
  {
    Repeat(d.data[d.active.value], Leading(d.archives, d.active.value))
  }

  /** A rotation that removes the active name after linking it keeps all files, and repeats the
      active one once for each unfinished archive that it found. */
  lemma UnlinkRepeats(d: Disk, now: int)
    requires Sound(d) && d.active.Some? && TidyDisk(d)
    ensures Sound(Unlink(Link(d, now))) && Files(Unlink(Link(d, now))) == Files(d) + Copies(d)
  {
    var r := Unlink(Link(d, now));
    LinkKeeps(d, now);
    var open := d.active.value;
    var c, a := d.data[open], Archived(d.archives, d.data, d.active);
    assert r.archives[1..] == d.archives;
    ArchivedGone(d.archives, d.data, open);
    var n := Copies(d);
    if n == [] {
      assert a + n == a && a + [c] + n == a + [c] && a + [c] + [] == a + [c];
    } else {
      RepeatFront(c, Leading(d.archives, open));
      assert a + n + [c] + [] == a + (n + [c]);
      assert a + ([c] + n) == a + [c] + n;
    }
  }

  lemma LinkTidy(d: Disk, now: int)
    requires d.active.Some? && TidyDisk(d)
    ensures TidyDisk(Link(d, now)) && Unfinished(Link(d, now))
  {
    var r := Link(d, now);
    assert r.archives[0].ino == r.active.value;
    assert r.archives[1..] == d.archives;
    assert forall i :: 1 <= i < |r.archives| ==> r.archives[i] == d.archives[i - 1];
  }

  /** Of a tidy directory, unfinished archives are the newest ones. */
  lemma TidyUnfinished(d: Disk)
    requires d.active.Some? && TidyDisk(d)
    ensures Unfinished(d) <==> Leading(d.archives, d.active.value) > 0
  {
    if Leading(d.archives, d.active.value) > 0 {
      assert d.archives[0].ino == d.active.value;
    }
  }

  lemma FinishedIsTidy(d: Disk)
    requires !Unfinished(d)
    ensures TidyDisk(d)
  {
    if d.active.Some? {
      NoLinks(d.archives, d.active.value);
    }
  }

  /** Where a process rotating the file can die. */
  predicate CrashPoint(d: Disk, now: int, crashed: Disk)
    requires d.active.Some?
  {
    || crashed == d
    || crashed == Link(d, now)
    || crashed == Unlink(Link(d, now))
    || crashed == Create(Unlink(Link(d, now)))
    || crashed == Open(Unlink(Link(d, now)))
  }

  /** Crash safety: whatever point of a rotation the process dies at, opening the directory again
      finds every record it held, in order; and once, unless the active name was gone already and
      earlier rotations had left unfinished archives of it. */
  lemma CrashSafe(d: Disk, now: int, crashed: Disk)
    requires Sound(d) && d.active.Some? && TidyDisk(d) && CrashPoint(d, now, crashed)
    ensures Sound(crashed) && Sound(Open(crashed)) && !Unfinished(Open(crashed))
    ensures Flatten(Files(Open(crashed)))
            == Flatten(Files(d)) + (if crashed.active == d.active then [] else Flatten(Copies(d)))
    ensures Flatten(Files(Open(crashed))) == Flatten(Files(d))
            <==> crashed.active == d.active || !Unfinished(d) || d.data[d.active.value] == []
  {
    TidyUnfinished(d);
    RepeatNothing(d.data[d.active.value], Leading(d.archives, d.active.value));
    hide Unfinished, Flatten, Files, Open, Create, TidyDisk, Leading;
    LinkKeeps(d, now);
    OpenKeeps(d);
    OpenKeeps(Link(d, now));
    assert Files(d) + [] == Files(d) && Flatten(Files(d)) + [] == Flatten(Files(d));
    Gone(d, now);
    if crashed.active == d.active {
      return;
    }
    var more := Flatten(Copies(d));
    assert Flatten(Files(Open(crashed))) == Flatten(Files(d)) + more;
    assert |Flatten(Files(d)) + more| == |Flatten(Files(d))| + |more|;
  }

  lemma Gone(d: Disk, now: int)
    requires Sound(d) && d.active.Some? && TidyDisk(d)
    ensures var gone := Unlink(Link(d, now)); var more := Flatten(Files(d)) + Flatten(Copies(d));
            && Reopens(gone, more) && Reopens(Create(gone), more) && Reopens(Open(gone), more)
            && gone.active != d.active && Create(gone).active != d.active && Open(gone).active != d.active
  {
    hide Unfinished, Flatten, Files, Open, Create, TidyDisk, Leading;
    var gone := Unlink(Link(d, now));
    UnlinkRepeats(d, now);
    FlattenConcat(Files(d), Copies(d));
    Created(gone);
    CreateKeeps(gone);
    OpenKeeps(gone);
    ReopensSame(gone);
    ReopensSame(Create(gone));
    ReopensSame(Open(gone));
    FlattenSnoc(Files(gone), []);
    assert Flatten(Files(gone)) + [] == Flatten(Files(gone));
  }

  predicate Reopens(d: Disk, records: seq<Record>) {
    Sound(d) && Sound(Open(d)) && !Unfinished(Open(d)) && Flatten(Files(Open(d))) == records
  }

  lemma ReopensSame(d: Disk)
    requires Sound(d)
    ensures Reopens(d, Flatten(Files(d)))
  {
    hide Unfinished, Flatten, Files, Open;
    OpenKeeps(d);
    FlattenSnoc(Files(d), []);
    assert Files(d) + [] == Files(d) && Flatten(Files(d)) + [] == Flatten(Files(d));
  }

  lemma Created(d: Disk)
    requires Sound(d) && d.active.None?
    ensures Create(d).active == Open(d).active == Some(d.next)
  {
  }

  /** With an unfinished archive already there, the next rotation that completes holds the same
      records twice. */
  lemma DoubledByRetry(record: Record)
    requires record != []
    ensures var d := Disk(Some(0), [], map[0 := [record]], 1);
            var twice := Open(Unlink(Link(Link(d, 1), 2)));
            Sound(d) && Sound(twice) && Flatten(Files(d)) == [record] && Flatten(Files(twice)) == [record, record]
  {
    var d := Disk(Some(0), [], map[0 := [record]], 1);
    var a, b := Link(d, 1), Link(Link(d, 1), 2);
    LinkKeeps(d, 1);
    UnlinkExact(a, 2);
    OpenKeeps(Unlink(b));
    assert b.archives == [Archive(2, 0), Archive(1, 0)];
    assert b.archives[1..] == [Archive(1, 0)] && b.archives[1..][1..] == [];
    assert Archived(b.archives[1..], b.data, None) == [] + [[record]];
    assert Files(Unlink(b)) == [[record], [record]];
    assert Files(d) == [[record]];
    FlattenSnoc([], [record]);
    FlattenSnoc([[record]], [record]);
    FlattenSnoc([[record], [record]], []);
    assert [[record], [record]] == [[record]] + [[record]];
    assert [] + [[record]] == [[record]];
    assert Flatten([]) == [];
  }

  // ---- the cleanup ----

  lemma {:induction false} ArchivedPrefix(archives: seq<Archive>, left: seq<Archive>, data: Data, active: Option<nat>)
    requires Stored(archives, data) && left <= archives
    ensures Stored(left, data) && Suffix(Archived(left, data, active), Archived(archives, data, active))
    decreases |archives|
  {
    var b := Archived(archives, data, active);
    if left == [] {
      assert b[|b|..] == [];
    } else {
      ArchivedPrefix(archives[1..], left[1..], data, active);
    }
  }

  /** A cleanup that succeeds only takes whole files off the old end. */
  lemma CleanKeeps(c: Conf, d: Disk, now: int, pending: int)
    requires Sound(d) && d.active.Some? && ValidConf(c) && Clean(c, d, now, pending).Ok?
    ensures var r := Clean(c, d, now, pending).value;
            && Sound(r) && r.active == d.active && r.data == d.data && !Unfinished(r) && Suffix(Files(r), Files(d))
            && Part(Archived(r.archives, r.data, r.active), Archived(d.archives, d.data, d.active))
  {
    hide SizeOf, Sweep, Thin, Part, Suffix, Archived, Stored, NewestFirst, Within, Files, Unfinished;
    var remaining := c.maxTotal - pending - SizeOf(d.data[d.active.value]);
    var open := d.active.value;
    SweepKeepsLongest(c, d.archives, d.data, open, now, 0, remaining);
    SweptThin(c, d.archives, d.data, open, now, 0, remaining, false, 0);
    PrefixKept(d, Sweep(c, d.archives, d.data, open, now, 0, remaining, false));
  }

  /** It leaves the newest archives that are not just names of the open file, as many as the limits
      allow: one more would be too many, too large together with the open file and what is about to be
      written, or too old. */
  lemma CleanKeepsLongest(c: Conf, d: Disk, now: int, pending: int, n: nat)
    requires Sound(d) && d.active.Some? && ValidConf(c) && Clean(c, d, now, pending).Ok?
    ensures var left, f := Clean(c, d, now, pending).value.archives, Finished(d.archives, d.active.value);
            left <= f && (n <= |f| ==> (n <= |left| <==> Allowed(c, d, f[..n], now, pending)))
  {
    hide SizeOf, Sweep, Total, Finished;
    var open := d.active.value;
    var f := Finished(d.archives, open);
    FinishedStored(d.archives, d.data, open, |f|);
    var left := Clean(c, d, now, pending).value.archives;
    SweepKeepsLongest(c, d.archives, d.data, open, now, 0, c.maxTotal - pending - SizeOf(d.data[open]));
    if n <= |left| {
      assert f[..n] == left[..n];
      TotalShorter(left, d.data, n);
    }
  }

  predicate Allowed(c: Conf, d: Disk, archives: seq<Archive>, now: int, pending: int)
    requires Sound(d) && d.active.Some?
  {
    && Stored(archives, d.data)
    && |archives| <= c.maxBackups && Total(archives, d.data) + SizeOf(d.data[d.active.value]) + pending <= c.maxTotal
    && (c.maxAgeDays <= 0 || forall a :: a in archives ==> now - a.time <= c.maxAgeDays * 86_400_000_000_000)
  }

  lemma {:induction false} TotalShorter(archives: seq<Archive>, data: Data, n: nat)
    requires Stored(archives, data) && n <= |archives|
    ensures Stored(archives[..n], data) && Total(archives[..n], data) <= Total(archives, data)
    decreases n
  {
    if n > 0 {
      TotalShorter(archives[1..], data, n - 1);
      assert archives[..n][1..] == archives[1..][..n - 1];
    }
  }

  lemma PrefixKept(d: Disk, left: seq<Archive>)
    requires Sound(d) && d.active.Some? && Thin(left, d.archives) && left <= Finished(d.archives, d.active.value)
    ensures var r := d.(archives := left);
            && Sound(r) && !Unfinished(r) && Suffix(Files(r), Files(d))
            && Part(Archived(r.archives, r.data, r.active), Archived(d.archives, d.data, d.active))
  {
    hide Thin, Part, Finished, Suffix, Archived, Stored, NewestFirst;
    var open := d.active.value;
    ThinSound(d, left);
    ArchivedFinished(d.archives, d.data, open, 0);
    ArchivedPrefix(Finished(d.archives, open), left, d.data, d.active);
    PrefixFinished(d, left);
    SuffixAppend(Archived(left, d.data, d.active), Archived(d.archives, d.data, d.active), [d.data[open]]);
  }

  lemma PrefixFinished(d: Disk, left: seq<Archive>)
    requires d.active.Some? && left <= Finished(d.archives, d.active.value)
    ensures !Unfinished(d.(archives := left))
  {
    hide Finished;
    var f := Finished(d.archives, d.active.value);
    assert forall i :: 0 <= i < |left| ==> left[i] == f[i];
  }

  /** A cleanup that fails after some removals keeps the order of what is left, and loses nothing
      while it has removed only names of the active file. */
  lemma CleanUntilKeeps(c: Conf, d: Disk, now: int, pending: int, removals: nat)
    requires Sound(d) && d.active.Some? && TidyDisk(d) && removals < Doomed(c, d, now, pending)
    ensures var r := CleanUntil(c, d, now, pending, removals);
            && Sound(r) && TidyDisk(r) && Part(Archived(r.archives, r.data, r.active), Archived(d.archives, d.data, d.active))
            && (removals <= Leading(d.archives, d.active.value) ==> Files(r) == Files(d))
            && (Finished(r.archives, d.active.value) <= Finished(d.archives, d.active.value)
                <==> removals <= Leading(d.archives, d.active.value))
  {
    hide SizeOf, Sweep, SweepUntil, Finished;
    var remaining := c.maxTotal - pending - SizeOf(d.data[d.active.value]);
    SweptThin(c, d.archives, d.data, d.active.value, now, 0, remaining, false, removals);
    ThinSound(d, CleanUntil(c, d, now, pending, removals).archives);
    StoppedSweep(c, d.archives, d.data, d.active.value, now, remaining, removals);
    if removals <= Leading(d.archives, d.active.value) {
      LinksGone(d, removals);
    }
  }

  lemma {:induction false} LinksGone(d: Disk, n: nat)
    requires Sound(d) && d.active.Some? && n <= Leading(d.archives, d.active.value)
    requires Stored(d.archives[n..], d.data)
    ensures Archived(d.archives[n..], d.data, d.active) == Archived(d.archives, d.data, d.active)
  {
    if n == 0 {
      assert d.archives[0..] == d.archives;
    } else {
      assert d.archives[n - 1].ino == d.active.value;
      assert d.archives[n - 1..][1..] == d.archives[n..] && d.archives[n - 1..][0] == d.archives[n - 1];
      LinksGone(d, n - 1);
      var a := Archived(d.archives[n..], d.data, d.active);
      assert a + [] == a;
    }
  }

  // ---- sequences and their parts ----

  lemma SuffixAppend<T>(a: seq<T>, b: seq<T>, x: seq<T>)
    requires Suffix(a, b)
    ensures Suffix(a + x, b + x)
  {
    assert (b + x)[|b| - |a|..] == b[|b| - |a|..] + x;
  }

  lemma SuffixTrans<T>(a: seq<T>, b: seq<T>, c: seq<T>)
    requires Suffix(a, b) && Suffix(b, c)
    ensures Suffix(a, c)
  {
    assert c[|c| - |a|..] == c[|c| - |b|..][|b| - |a|..];
  }

  lemma SuffixLast<T>(a: seq<T>, b: seq<T>, x: T)
    requires Suffix(a, b) && a != []
    ensures b != [] && b[|b| - 1] == a[|a| - 1] && Suffix(a[..|a| - 1] + [x], b[..|b| - 1] + [x])
  {
    var cut := |b| - |a|;
    assert b[cut..][|a| - 1] == b[|b| - 1];
    assert (b[..|b| - 1] + [x])[cut..] == b[cut..][..|a| - 1] + [x];
  }

  lemma {:induction false} PartSame<T>(a: seq<T>)
    ensures Part(a, a)
  {
    if a != [] {
      PartSame(a[..|a| - 1]);
    }
  }

  lemma {:induction false} PartMore<T>(a: seq<T>, b: seq<T>, x: seq<T>)
    requires Part(a, b)
    ensures Part(a, b + x)
    decreases |x|
  {
    if x == [] {
      assert b + x == b;
    } else {
      PartMore(a, b, x[..|x| - 1]);
      assert (b + x)[..|b + x| - 1] == b + x[..|x| - 1];
    }
  }

  lemma {:induction false} PartAppend<T>(a: seq<T>, b: seq<T>, x: seq<T>)
    requires Part(a, b)
    ensures Part(a + x, b + x)
    decreases |x|
  {
    if x == [] {
      assert a + x == a && b + x == b;
    } else {
      PartAppend(a, b, x[..|x| - 1]);
      assert (a + x)[..|a + x| - 1] == a + x[..|x| - 1] && (b + x)[..|b + x| - 1] == b + x[..|x| - 1];
    }
  }

  lemma {:induction false} PartTrans<T>(a: seq<T>, b: seq<T>, c: seq<T>)
    requires Part(a, b) && Part(b, c)
    ensures Part(a, c)
    decreases |b| + |c|
  {
    if a != [] {
      var p, q, r := a[..|a| - 1], b[..|b| - 1], c[..|c| - 1];
      if Part(b, r) {
        PartTrans(a, b, r);
      } else if Part(a, q) {
        PartMore(q, r, []);
        assert r + [] == r;
        PartTrans(a, q, r);
      } else {
        PartTrans(p, q, r);
      }
    }
  }
}
