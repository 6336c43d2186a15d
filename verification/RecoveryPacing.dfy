/** The recovery scheduler on its own: when it may ask for a snapshot, and when it gives up. */
module RecoveryPacing {
  import opened Common
  import opened Mirrors

  /** Failures in a row at the end of the record. */
  ghost function Streak(log: seq<Recovery>): nat {
    if log == [] then 0
    else match log[|log| - 1]
      case Requested(_) => Streak(log[..|log| - 1])
      case Settled(_, Failed) => 1 + Streak(log[..|log| - 1])
      case _ => 0
  }

  /** A request is waiting for its settlement. */
  ghost predicate Waiting(log: seq<Recovery>) {
    log != [] && log[|log| - 1].Requested?
  }

  ghost predicate EndsInFailure(log: seq<Recovery>) {
    log != [] && log[|log| - 1].Settled? && log[|log| - 1].verdict == Failed
  }

  /** When the record was last extended by a request or a settlement. */
  ghost function LastAt(log: seq<Recovery>): Option<int> {
    if log == [] then None
    else match log[|log| - 1]
      case Requested(at) => Some(at)
      case Settled(at, _) => Some(at)
      case _ => LastAt(log[..|log| - 1])
  }

  /** When anything was last recorded with its time. */
  ghost function Latest(log: seq<Recovery>): Option<int> {
    if log == [] then None
    else if log[|log| - 1].Reported? then Latest(log[..|log| - 1])
    else Some(log[|log| - 1].at)
  }

  /** Milliseconds from the last settlement or request to the next request, by the failures in a row before it. */
  function WaitAfter(failures: nat): int {
    match failures
    case 0 => 750
    case 1 => 1_000
    case 2 => 2_000
    case _ => 4_000
  }

  /** No earlier than the scheduler may act after this record. */
  ghost predicate Due(log: seq<Recovery>, at: int) {
    && (LastAt(log).Some? ==> at >= LastAt(log).value + WaitAfter(Streak(log)))
    && (Latest(log).Some? ==> at >= Latest(log).value)
  }

  /** What may follow a record. */
  ghost predicate Fits(log: seq<Recovery>, next: Recovery) {
    match next
    case Requested(at) => !Waiting(log) && Streak(log) < RECOVERY_MAX_ATTEMPTS && Due(log, at)
    case Settled(at, _) => Waiting(log) && at >= log[|log| - 1].at
    case Skipped(at) => !Waiting(log) && Streak(log) < RECOVERY_MAX_ATTEMPTS && Due(log, at)
    case Reported => Streak(log) == RECOVERY_MAX_ATTEMPTS
  }

  ghost predicate Paced(log: seq<Recovery>) {
    log != [] ==> Paced(log[..|log| - 1]) && Fits(log[..|log| - 1], log[|log| - 1])
  }

  /** The scheduler with its timer as it may be while it comes due. */
  ghost predicate Steady(s: Scheduler, clock: int) {
    var log := s.recoveries;
    && Paced(log) && Streak(log) < RECOVERY_MAX_ATTEMPTS
    && s.lastRecoveryAt <= clock
    && (LastAt(log).Some? ==> LastAt(log).value == s.lastRecoveryAt)
    && (Latest(log).Some? ==> Latest(log).value <= clock)
    && (s.inFlight <==> Waiting(log))
    && !(s.inFlight && s.timer.Some?)
    && (s.disposed ==> s.timer.None?)
    && (s.timer.Some? ==> s.timer.value == s.lastRecoveryAt + WaitAfter(Streak(log)))
    && (!s.disposed ==> s.failedAttempts == Streak(log))
    && (s.inFlight || s.timer.Some? || log != [] ==> s.canResnapshot)
  }

  /** The scheduler between calls: after a failure its timer is set. */
  ghost predicate Scheduled(s: Scheduler, clock: int) {
    && Steady(s, clock)
    && (!s.disposed && !s.inFlight && Streak(s.recoveries) > 0 ==> s.timer.Some?)
  }

  /** An attempt is under way or scheduled. */
  ghost predicate Recovering(s: Scheduler) {
    s.inFlight || s.timer.Some?
  }

  /** The last thing the scheduler did was to report that it gave up. */
  ghost predicate GaveUp(s: Scheduler) {
    s.recoveries != [] && s.recoveries[|s.recoveries| - 1].Reported?
  }

  /** No gap is left to itself. */
  ghost predicate GapHandled(s: Scheduler, gap: bool) {
    gap && s.canResnapshot && !s.disposed ==> Recovering(s) || GaveUp(s)
  }

  ghost predicate SameRole(a: Scheduler, b: Scheduler) {
    a.disposed == b.disposed && a.canResnapshot == b.canResnapshot
  }

  lemma PacedAppend(log: seq<Recovery>, next: Recovery)
    requires Paced(log) && Fits(log, next)
    ensures Paced(log + [next])
    ensures Streak(log + [next]) ==
      match next case Requested(_) => Streak(log) case Settled(_, Failed) => 1 + Streak(log) case _ => 0
    ensures LastAt(log + [next]) ==
      match next case Requested(at) => Some(at) case Settled(at, _) => Some(at) case _ => LastAt(log)
    ensures Latest(log + [next]) == if next.Reported? then Latest(log) else Some(next.at)
  {
    assert (log + [next])[..|log|] == log;
  }

  lemma StartKeeps(s: Scheduler, gap: bool, clock: int, now: int)
    requires Steady(s, clock) && clock <= now
    requires s.timer.None? && !s.inFlight
    requires now >= s.lastRecoveryAt + WaitAfter(Streak(s.recoveries))
    ensures var after := StartRecovery(s, gap, now);
      && Scheduled(after, now) && SameRole(after, s)
      && (gap && s.canResnapshot && !s.disposed ==> Recovering(after))
  {
    if s.canResnapshot && !s.disposed {
      PacedAppend(s.recoveries, if gap then Requested(now) else Skipped(now));
    }
  }

  lemma RequestKeeps(s: Scheduler, gap: bool, clock: int, now: int)
    requires Scheduled(s, clock) && clock <= now && !s.disposed
    ensures var after := RequestRecovery(s, gap, now);
      && Scheduled(after, now) && SameRole(after, s)
      && (gap && s.canResnapshot ==> Recovering(after))
      && (s.inFlight || s.timer.Some? ==> after == s)
      && (gap && s.canResnapshot && !Recovering(s) ==>
            if now >= s.lastRecoveryAt + 750 then after.inFlight else after.timer == Some(s.lastRecoveryAt + 750))
  {
    if s.canResnapshot && !s.inFlight && s.timer.None? && now >= s.lastRecoveryAt + RECOVERY_COOLDOWN_MS {
      StartKeeps(s, gap, clock, now);
    }
  }

  lemma SettledKeeps(s: Scheduler, gap: bool, answered: bool, clock: int, now: int)
    requires Scheduled(s, clock) && clock <= now && s.inFlight
    ensures var after := AttemptSettled(s, gap, answered, now);
      && Scheduled(after, now) && SameRole(after, s) && GapHandled(after, gap) && !after.inFlight
  {
    var verdict := if s.disposed then Ignored else if !gap then Closed else if answered then NewerGap else Failed;
    var settled := Settled(now, verdict);
    PacedAppend(s.recoveries, settled);
    if verdict == Failed && s.failedAttempts + 1 == RECOVERY_MAX_ATTEMPTS {
      PacedAppend(s.recoveries + [settled], Reported);
    }
  }

  // ── What a paced record says ──────────────────────────────────────────────

  /** Where the record ends with a failure, the next attempt is due exactly one, two or four seconds after it. */
  lemma FailureSetsTimer(s: Scheduler, clock: int)
    requires Scheduled(s, clock) && !s.disposed && EndsInFailure(s.recoveries)
    ensures var at := s.recoveries[|s.recoveries| - 1].at; var failures := Streak(s.recoveries);
      && 1 <= failures <= 3
      && s.timer == Some(at + if failures == 1 then 1_000 else if failures == 2 then 2_000 else 4_000)
  {
  }

  /** Every request comes at least the cooldown after everything settled before it. */
  lemma {:induction false} RequestsAreSpaced(log: seq<Recovery>, i: nat, j: nat)
    requires Paced(log) && i < j < |log|
    requires log[i].Settled? && log[j].Requested?
    ensures log[j].at >= log[i].at + RECOVERY_COOLDOWN_MS
  {
    var before := log[..|log| - 1];
    if j == |log| - 1 {
      LastAtIsLatest(before, i);
    } else {
      RequestsAreSpaced(before, i, j);
    }
  }

  /** A later entry never carries an earlier time. */
  lemma {:induction false} TimesAscend(log: seq<Recovery>, i: nat, j: nat)
    requires Paced(log) && i <= j < |log| && !log[i].Reported? && !log[j].Reported?
    ensures log[i].at <= log[j].at
  {
    if i < j {
      var before := log[..|log| - 1];
      if j < |log| - 1 {
        TimesAscend(before, i, j);
      } else {
        LatestIsLatest(before, i);
        if log[j].Settled? { assert Latest(before) == Some(before[|before| - 1].at); }
      }
    }
  }

  lemma {:induction false} LatestIsLatest(log: seq<Recovery>, i: nat)
    requires Paced(log) && i < |log| && !log[i].Reported?
    ensures Latest(log).Some? && Latest(log).value >= log[i].at
  {
    if i < |log| - 1 {
      LatestIsLatest(log[..|log| - 1], i);
      if log[|log| - 1].Settled? { assert Latest(log[..|log| - 1]) == Some(log[|log| - 2].at); }
    }
  }

  /**
   The first three failures in a row are followed by a wait of one, two and four seconds: no request, and no attempt
   found unnecessary, comes sooner after them.
   */
  lemma {:induction false} FailuresBackOff(log: seq<Recovery>, i: nat, j: nat)
    requires Paced(log) && i < j < |log| && (log[j].Requested? || log[j].Skipped?)
    requires EndsInFailure(log[..i + 1])
    ensures var failures := Streak(log[..i + 1]);
      1 <= failures <= 4 && (failures < 4 ==> log[j].at >= log[i].at + WaitAfter(failures))
  {
    PacedPrefix(log, i + 1);
    PacedPrefix(log, i + 2);
    PacedStreak(log[..i + 1]);
    var upTo, next := log[..i + 1], log[..i + 2];
    assert next[..|next| - 1] == upTo && upTo[|upTo| - 1] == log[i] && next[|next| - 1] == log[i + 1];
    assert Fits(upTo, log[i + 1]);
    if Streak(upTo) < 4 { TimesAscend(log, i + 1, j); }
  }

  lemma {:induction false} PacedPrefix(log: seq<Recovery>, n: nat)
    requires Paced(log) && n <= |log|
    ensures Paced(log[..n])
  {
    if n < |log| {
      PacedPrefix(log[..|log| - 1], n);
      assert log[..|log| - 1][..n] == log[..n];
    } else {
      assert log[..n] == log;
    }
  }

  lemma {:induction false} LastAtIsLatest(log: seq<Recovery>, i: nat)
    requires Paced(log) && i < |log| && (log[i].Settled? || log[i].Requested?)
    ensures LastAt(log).Some? && LastAt(log).value >= log[i].at
  {
    if i < |log| - 1 {
      LastAtIsLatest(log[..|log| - 1], i);
    }
  }

  /** Never two requests at once: between two of them the first one settles. */
  lemma {:induction false} RequestsSettle(log: seq<Recovery>, i: nat)
    requires Paced(log) && i < |log| - 1 && log[i].Requested?
    ensures log[i + 1].Settled?
  {
    if i < |log| - 2 {
      RequestsSettle(log[..|log| - 1], i);
    }
  }

  /** A report comes exactly after the fourth failure in a row, and a fifth never comes without one. */
  lemma {:induction false} ReportsAfterFourFailures(log: seq<Recovery>, i: nat)
    requires Paced(log) && i < |log|
    ensures log[i].Reported? <==> Streak(log[..i]) == RECOVERY_MAX_ATTEMPTS
    ensures Streak(log[..i]) <= RECOVERY_MAX_ATTEMPTS
  {
    if i < |log| - 1 {
      ReportsAfterFourFailures(log[..|log| - 1], i);
      assert log[..|log| - 1][..i] == log[..i];
    } else {
      PacedStreak(log);
    }
  }

  lemma {:induction false} PacedStreak(log: seq<Recovery>)
    requires Paced(log)
    ensures Streak(log) <= RECOVERY_MAX_ATTEMPTS
    ensures Waiting(log) ==> Streak(log) < RECOVERY_MAX_ATTEMPTS
    ensures log != [] ==> (log[|log| - 1].Reported? <==> Streak(log[..|log| - 1]) == RECOVERY_MAX_ATTEMPTS)
  {
    if log != [] {
      PacedStreak(log[..|log| - 1]);
    }
  }

  // ── The whole record ──────────────────────────────────────────────────────

  ghost predicate SpacedOut(log: seq<Recovery>) {
    forall p, q :: 0 <= p < q < |log| && log[p].Settled? && log[q].Requested? ==> log[q].at >= log[p].at + RECOVERY_COOLDOWN_MS
  }

  /** After a failure that was not reported no request comes before its wait is over. */
  ghost predicate BacksOff(log: seq<Recovery>) {
    forall p, q :: 0 <= p < q < |log| && EndsInFailure(log[..p + 1]) && Streak(log[..p + 1]) < 4 && log[q].Requested? ==>
      log[q].at >= log[p].at + WaitAfter(Streak(log[..p + 1]))
  }

  ghost predicate ReportsFourFailures(log: seq<Recovery>) {
    forall p :: 0 <= p < |log| ==> (log[p].Reported? <==> Streak(log[..p]) == 4)
  }

  lemma PacedRecord(log: seq<Recovery>)
    requires Paced(log)
    ensures SpacedOut(log) && BacksOff(log) && ReportsFourFailures(log)
  {
    forall p, q | 0 <= p < q < |log| && log[p].Settled? && log[q].Requested?
      ensures log[q].at >= log[p].at + RECOVERY_COOLDOWN_MS
    {
      RequestsAreSpaced(log, p, q);
    }
    forall p, q | 0 <= p < q < |log| && EndsInFailure(log[..p + 1]) && Streak(log[..p + 1]) < 4 && log[q].Requested?
      ensures log[q].at >= log[p].at + WaitAfter(Streak(log[..p + 1]))
    {
      FailuresBackOff(log, p, q);
    }
    forall p | 0 <= p < |log|
      ensures log[p].Reported? <==> Streak(log[..p]) == 4
    {
      ReportsAfterFourFailures(log, p);
    }
  }
}
