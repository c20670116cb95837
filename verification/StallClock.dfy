/** When failing attempts of a destination become a stall (gateway/server/queue.go:161-188, 240-263). */
module StallClock {
  import opened Bytes

  const SECOND: nat := 1_000_000_000

  /** Since when the target has been failing, and when it may be tried again. */
  datatype Clock = Clock(failedSince: Option<nat>, retryAt: Option<nat>)

  const RESET := Clock(None, None)

  /** The time an attempt is given; an attempt given none or less ends at once. */
  function Budget(c: Clock, stdout: bool, started: nat, dumpAfter: nat): int {
    var remaining := dumpAfter * SECOND - (if c.failedSince.Some? then started - c.failedSince.value else 0);
    if stdout && remaining > SECOND then SECOND else remaining
  }

  /** A failure leaves the clock set, and either another attempt to make or a stall. */
  datatype Verdict = Verdict(clock: Clock, stalled: bool)

  function AfterFailure(c: Clock, started: nat, now: nat, dumpAfter: nat): Verdict {
    var since := if c.failedSince.Some? then c.failedSince.value else started;
    var deadline := since + dumpAfter * SECOND;
    if now >= deadline then Verdict(c.(failedSince := Some(since)), true)
    else
      var retryAt := if deadline < now + SECOND then deadline else now + SECOND;
      Verdict(Clock(Some(since), Some(retryAt)), false)
  }

  // ---- runs of failing attempts ----

  datatype Attempt = Attempt(started: nat, ended: nat)

  /** The verdict on the last of some failed attempts, the first coming after a success. */
  function VerdictAfter(run: seq<Attempt>, dumpAfter: nat): Verdict
    requires run != []
    decreases |run|
  {
    var n := |run| - 1;
    var before := if n == 0 then RESET else VerdictAfter(run[..n], dumpAfter).clock;
    AfterFailure(before, run[n].started, run[n].ended, dumpAfter)
  }

  predicate InBudget(c: Clock, stdout: bool, a: Attempt, dumpAfter: nat) {
    var budget := Budget(c, stdout, a.started, dumpAfter);
    a.started <= a.ended && (if budget > 0 then a.ended <= a.started + budget else a.ended == a.started)
  }

  /** Attempts one after the other, each started no sooner than allowed, none but perhaps the last a
      stall. */
  predicate FailingRun(run: seq<Attempt>, dumpAfter: nat)
    decreases |run|
  {
    run != [] &&
    var n := |run| - 1;
    && run[n].started <= run[n].ended
    && (n > 0 ==>
          && FailingRun(run[..n], dumpAfter)
          && var v := VerdictAfter(run[..n], dumpAfter);
             !v.stalled && v.clock.retryAt.Some? && run[n].started >= v.clock.retryAt.value)
  }

  /** Each attempt ends in the time it is given. */
  predicate Budgeted(run: seq<Attempt>, stdout: bool, dumpAfter: nat) {
    forall k :: 0 <= k < |run| ==> InBudget(ClockBefore(run, k, dumpAfter), stdout, run[k], dumpAfter)
  }

  function ClockBefore(run: seq<Attempt>, k: nat, dumpAfter: nat): Clock
    requires k <= |run|
  {
    if k == 0 then RESET else VerdictAfter(run[..k], dumpAfter).clock
  }

  /** Each attempt starts the moment it is allowed to. */
  predicate Prompt(run: seq<Attempt>, dumpAfter: nat) {
    forall k :: 1 <= k < |run| ==> VerdictAfter(run[..k], dumpAfter).clock.retryAt == Some(run[k].started)
  }

  function Deadline(run: seq<Attempt>, dumpAfter: nat): nat
    requires run != []
  {
    run[0].started + dumpAfter * 1_000_000_000
  }

  function Sooner(a: nat, b: nat): nat {
    if a <= b then a else b
  }

  /** The clock runs from the start of the first failed attempt; a stall is declared just when an
      attempt ends at its deadline or later; and else the next try is put a second after the end of
      the last, or to the deadline if that comes sooner. */
  lemma {:induction false} StallsAtDeadline(run: seq<Attempt>, dumpAfter: nat)
    requires FailingRun(run, dumpAfter) && dumpAfter > 0
    ensures var v := VerdictAfter(run, dumpAfter);
            && v.clock.failedSince == Some(run[0].started)
            && (v.stalled <==> run[|run| - 1].ended >= Deadline(run, dumpAfter))
            && (!v.stalled ==> v.clock.retryAt == Some(Sooner(run[|run| - 1].ended + 1_000_000_000, Deadline(run, dumpAfter))))
    decreases |run|
  {
    var n := |run| - 1;
    if n > 0 {
      StallsAtDeadline(run[..n], dumpAfter);
    }
  }

  /** The k-th retry starts k seconds after the first attempt, unless at the deadline or later. */
  lemma {:induction false} RetriesSpread(run: seq<Attempt>, dumpAfter: nat)
    requires FailingRun(run, dumpAfter) && dumpAfter > 0
    ensures var last := run[|run| - 1];
            last.started >= run[0].started + (|run| - 1) * 1_000_000_000 || last.started >= Deadline(run, dumpAfter)
    decreases |run|
  {
    var n := |run| - 1;
    if n > 0 {
      RetriesSpread(run[..n], dumpAfter);
      StallsAtDeadline(run[..n], dumpAfter);
    }
  }

  /** However long the attempts take, the last of dumpAfter + 1 failing ones is a stall, so there
      are never more; a target that fails on is declared stalled. */
  lemma StallsInTime(run: seq<Attempt>, dumpAfter: nat)
    requires FailingRun(run, dumpAfter) && dumpAfter > 0
    ensures |run| <= dumpAfter + 1
    ensures |run| == dumpAfter + 1 ==> VerdictAfter(run, dumpAfter).stalled
  {
    if |run| > dumpAfter + 1 {
      Prefix(run, dumpAfter, dumpAfter + 1);
      StallsInTime(run[..dumpAfter + 1], dumpAfter);
      Continues(run, dumpAfter, dumpAfter + 1);
      assert false;
    }
    if |run| == dumpAfter + 1 {
      RetriesSpread(run, dumpAfter);
      StallsAtDeadline(run, dumpAfter);
      Ended(run, dumpAfter);
    }
  }

  lemma Ended(run: seq<Attempt>, dumpAfter: nat)
    requires FailingRun(run, dumpAfter)
    ensures run[|run| - 1].ended >= run[|run| - 1].started
  {
  }

  lemma {:induction false} Prefix(run: seq<Attempt>, dumpAfter: nat, k: nat)
    requires FailingRun(run, dumpAfter) && 0 < k <= |run|
    ensures FailingRun(run[..k], dumpAfter)
    decreases |run|
  {
    if k == |run| {
      assert run[..k] == run;
    } else {
      Prefix(run[..|run| - 1], dumpAfter, k);
      assert run[..|run| - 1][..k] == run[..k];
    }
  }

  lemma Continues(run: seq<Attempt>, dumpAfter: nat, k: nat)
    requires FailingRun(run, dumpAfter) && 0 < k < |run|
    ensures !VerdictAfter(run[..k], dumpAfter).stalled
  {
    Prefix(run, dumpAfter, k + 1);
    assert run[..k + 1][..k] == run[..k];
  }

  /** When every attempt starts as soon as it may, none ends past the deadline, so the stall comes
      exactly at the deadline. */
  lemma {:induction false} PromptStallIsExact(run: seq<Attempt>, stdout: bool, dumpAfter: nat)
    requires FailingRun(run, dumpAfter) && Budgeted(run, stdout, dumpAfter) && Prompt(run, dumpAfter) && dumpAfter > 0
    ensures run[|run| - 1].ended <= Deadline(run, dumpAfter)
    ensures VerdictAfter(run, dumpAfter).stalled <==> run[|run| - 1].ended == Deadline(run, dumpAfter)
  {
    var n := |run| - 1;
    StallsAtDeadline(run, dumpAfter);
    assert InBudget(ClockBefore(run, n, dumpAfter), stdout, run[n], dumpAfter);
    if n > 0 {
      StallsAtDeadline(run[..n], dumpAfter);
      assert VerdictAfter(run[..n], dumpAfter).clock.retryAt == Some(run[n].started);
    }
  }
}
