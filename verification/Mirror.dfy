/**
 The window's replica of the core's state (`ui/src/ipc/revisionedMirror.ts`).

 `Mirror` is the abstract state of a mirror, the replicated copy beside its recovery scheduler, and
 the ghost functions are what each entry point makes of it; class `RevisionedMirror` is the
 imperative form, proved against those functions. `store` is what the `hydrate` and `apply`
 callbacks have built, `writes` counts their calls, and `recoveries` records what the scheduler did.
 */
module Mirrors {
  import opened Common

  const RECOVERY_COOLDOWN_MS: int := 750
  const RECOVERY_TIMEOUT_MS: int := 15_000
  const RECOVERY_RETRY_BASE_MS: int := 1_000
  const RECOVERY_RETRY_MAX_MS: int := 15_000
  const RECOVERY_MAX_ATTEMPTS: nat := 4
  const MAX_PENDING_EVENTS: nat := 4_096

  datatype Message<S, U> = Event(revision: nat, update: U) | Snapshot(revision: nat, state: S)

  /** How an attempt ended: no gap left, a newer gap behind a good reply, a failure, or after disposal. */
  datatype Verdict = Closed | NewerGap | Failed | Ignored

  datatype Recovery =
    | Requested(at: int)
    | Settled(at: int, verdict: Verdict)
    | Skipped(at: int)
    | Reported

  /** The copy of the core's state, and the events waiting for the ones before them. */
  datatype Copy<S, U> = Copy(
    revision: Option<nat>,
    pending: map<nat, U>,
    lostThrough: Option<nat>,
    store: S,
    writes: nat)

  datatype Scheduler = Scheduler(
    canResnapshot: bool,
    disposed: bool,
    inFlight: bool,
    timer: Option<int>,
    lastRecoveryAt: int,
    failedAttempts: nat,
    recoveries: seq<Recovery>)

  datatype Mirror<S, U> = Mirror(copy: Copy<S, U>, scheduler: Scheduler)

  function Initial<S, U>(canResnapshot: bool, store: S): Mirror<S, U> {
    Mirror(Copy(None, map[], None, store, 0), Scheduler(canResnapshot, false, false, None, 0, 0, []))
  }

  function Pow2(n: nat): nat {
    if n == 0 then 1 else 2 * Pow2(n - 1)
  }

  /** The wait after `failures` failed snapshots in a row: never under the cooldown, never over the cap. */
  function RecoveryRetryDelay(failures: nat): (delay: int)
    ensures RECOVERY_COOLDOWN_MS <= delay <= RECOVERY_RETRY_MAX_MS
  {
    var exponent := if failures >= 1 then failures - 1 else 0;
    var backoff := RECOVERY_RETRY_BASE_MS * Pow2(exponent);
    var capped := if backoff < RECOVERY_RETRY_MAX_MS then backoff else RECOVERY_RETRY_MAX_MS;
    if RECOVERY_COOLDOWN_MS < capped then capped else RECOVERY_COOLDOWN_MS
  }

  /** The first failure waits a second, and every further one twice as long as the one before, up to the cap. */
  lemma {:induction false} RetryDelayDoubles(failures: nat)
    ensures RecoveryRetryDelay(0) == RecoveryRetryDelay(1) == RECOVERY_RETRY_BASE_MS == 1_000
    ensures var doubled := 2 * RecoveryRetryDelay(failures);
      failures >= 1 ==>
        RecoveryRetryDelay(failures + 1) == (if doubled < RECOVERY_RETRY_MAX_MS then doubled else RECOVERY_RETRY_MAX_MS)
  {
    assert Pow2(0) == 1;
    if failures >= 1 {
      PowPositive(failures - 1);
      assert Pow2(failures) == 2 * Pow2(failures - 1);
    }
  }

  lemma {:induction false} PowPositive(n: nat)
    ensures Pow2(n) >= 1
  {
    if n > 0 { PowPositive(n - 1); }
  }

  // ── The copy ──────────────────────────────────────────────────────────────

  ghost predicate HasGap<S, U>(c: Copy<S, U>) {
    && c.revision.Some?
    && (|| (c.lostThrough.Some? && c.lostThrough.value > c.revision.value)
        || exists r :: r in c.pending && r > c.revision.value + 1)
  }

  /** Hold an event; past the ceiling, let all of them go and remember only the newest. */
  ghost function Hold<S, U>(c: Copy<S, U>, revision: nat, update: U): Copy<S, U> {
    var held := c.pending[revision := update];
    if |held| <= MAX_PENDING_EVENTS then c.(pending := held)
    else
      var newest := Newest(held.Keys);
      c.(pending := map[],
         lostThrough := if c.lostThrough.Some? && c.lostThrough.value >= newest then c.lostThrough else Some(newest))
  }

  ghost function Advanced<S, U>(ap: (S, U) -> S, c: Copy<S, U>, update: U): Copy<S, U>
    requires c.revision.Some?
  {
    c.(store := ap(c.store, update), writes := c.writes + 1, revision := Some(c.revision.value + 1))
  }

  ghost function ApplyNext<S, U>(ap: (S, U) -> S, c: Copy<S, U>): (after: Copy<S, U>)
    requires c.revision.Some? && c.revision.value + 1 in c.pending
    ensures |after.pending| < |c.pending|
  {
    var next := c.revision.value + 1;
    var rest := c.pending - {next};
    assert rest.Keys == c.pending.Keys - {next};
    assert |rest.Keys| == |c.pending.Keys| - 1;
    Advanced(ap, c, c.pending[next]).(pending := rest)
  }

  /** Apply the held events that follow the mirror's revision without a break. */
  ghost function Drained<S, U>(ap: (S, U) -> S, c: Copy<S, U>): (after: Copy<S, U>)
    requires c.revision.Some?
    ensures after.revision.Some?
    decreases |c.pending|
  {
    if c.revision.value + 1 in c.pending then Drained(ap, ApplyNext(ap, c)) else c
  }

  lemma DrainedStep<S, U>(ap: (S, U) -> S, c: Copy<S, U>)
    requires c.revision.Some?
    ensures c.revision.value + 1 in c.pending ==> Drained(ap, c) == Drained(ap, ApplyNext(ap, c))
    ensures c.revision.value + 1 !in c.pending ==> Drained(ap, c) == c
  {
  }

  /** The snapshot itself: the held events it contains are dropped. */
  ghost function Hydrated<S, U>(c: Copy<S, U>, revision: nat, state: S): Copy<S, U> {
    Copy(Some(revision),
         map r | r in c.pending && r > revision :: c.pending[r],
         if c.lostThrough.Some? && c.lostThrough.value <= revision then None else c.lostThrough,
         state,
         c.writes + 1)
  }

  // ── The recovery scheduler ────────────────────────────────────────────────

  ghost function StartRecovery(s: Scheduler, gap: bool, now: int): Scheduler {
    if !s.canResnapshot || s.inFlight || s.disposed then s
    else if !gap then s.(failedAttempts := 0, recoveries := s.recoveries + [Skipped(now)])
    else s.(inFlight := true, lastRecoveryAt := now, recoveries := s.recoveries + [Requested(now)])
  }

  ghost function ScheduleRecovery(s: Scheduler, gap: bool, delay: int, now: int): Scheduler {
    if delay <= 0 then StartRecovery(s, gap, now) else s.(timer := Some(now + delay))
  }

  ghost function RequestRecovery(s: Scheduler, gap: bool, now: int): Scheduler {
    if !s.canResnapshot || s.inFlight || s.timer.Some? then s
    else ScheduleRecovery(s, gap, RECOVERY_COOLDOWN_MS - (now - s.lastRecoveryAt), now)
  }

  /** An attempt has settled, answered or not, and left a gap or not. */
  ghost function AttemptSettled(s: Scheduler, gap: bool, answered: bool, now: int): Scheduler {
    var idle := s.(inFlight := false, lastRecoveryAt := now);
    var log := s.recoveries;
    if s.disposed then idle.(recoveries := log + [Settled(now, Ignored)])
    else if !gap then idle.(failedAttempts := 0, recoveries := log + [Settled(now, Closed)])
    else if answered then
      ScheduleRecovery(idle.(failedAttempts := 0, recoveries := log + [Settled(now, NewerGap)]), gap, RECOVERY_COOLDOWN_MS, now)
    else if s.failedAttempts + 1 >= RECOVERY_MAX_ATTEMPTS then
      idle.(failedAttempts := 0, recoveries := log + [Settled(now, Failed)] + [Reported])
    else
      ScheduleRecovery(idle.(failedAttempts := s.failedAttempts + 1, recoveries := log + [Settled(now, Failed)]),
                       gap, RecoveryRetryDelay(s.failedAttempts + 1), now)
  }

  // ── The entry points ──────────────────────────────────────────────────────

  ghost function Checked<S, U>(c: Copy<S, U>, s: Scheduler, now: int): Mirror<S, U> {
    Mirror(c, if HasGap(c) then RequestRecovery(s, true, now) else s)
  }

  ghost function Replaced<S, U>(ap: (S, U) -> S, m: Mirror<S, U>, revision: nat, state: S, now: int): Mirror<S, U> {
    if m.scheduler.disposed then m
    else if m.copy.revision.Some? && revision < m.copy.revision.value then Checked(m.copy, m.scheduler, now)
    else Checked(Drained(ap, Hydrated(m.copy, revision, state)), m.scheduler, now)
  }

  ghost function Received<S, U>(ap: (S, U) -> S, m: Mirror<S, U>, message: Message<S, U>, now: int): Mirror<S, U> {
    if m.scheduler.disposed then m
    else match message
      case Snapshot(revision, state) => Replaced(ap, m, revision, state, now)
      case Event(revision, update) =>
        if m.copy.revision.None? then m.(copy := Hold(m.copy, revision, update))
        else if revision <= m.copy.revision.value then m
        else if revision != m.copy.revision.value + 1 then
          var held := Hold(m.copy, revision, update);
          Mirror(held, RequestRecovery(m.scheduler, HasGap(held), now))
        else Checked(Drained(ap, Advanced(ap, m.copy, update)), m.scheduler, now)
  }

  /** The end of an attempt, with the snapshot that answered it, or none if it failed or ran out of time. */
  ghost function AttemptEnded<S, U>(ap: (S, U) -> S, m: Mirror<S, U>, reply: Option<(nat, S)>, now: int): Mirror<S, U> {
    var landed := if reply.Some? then Replaced(ap, m, reply.value.0, reply.value.1, now) else m;
    landed.(scheduler := AttemptSettled(landed.scheduler, HasGap(landed.copy), reply.Some?, now))
  }

  ghost function TimerFired<S, U>(m: Mirror<S, U>, now: int): Mirror<S, U> {
    m.(scheduler := StartRecovery(m.scheduler.(timer := None), HasGap(m.copy), now))
  }

  ghost function Disposed<S, U>(m: Mirror<S, U>): Mirror<S, U> {
    m.(scheduler := m.scheduler.(disposed := true, timer := None))
  }

  // ── The class ─────────────────────────────────────────────────────────────

  class RevisionedMirror<S, U> {
    const applyUpdate: (S, U) -> S
    const canResnapshot: bool
    var revision: Option<nat>
    var pending: map<nat, U>
    var lostThrough: Option<nat>
    var recoveryInFlight: bool
    var recoveryTimer: Option<int>
    var lastRecoveryAt: int
    var failedAttempts: nat
    var disposed: bool
    var store: S
    ghost var writes: nat
    ghost var recoveries: seq<Recovery>

    ghost function CopyView(): Copy<S, U>
      reads this
    {
      Copy(revision, pending, lostThrough, store, writes)
    }

    ghost function SchedulerView(): Scheduler
      reads this
    {
      Scheduler(canResnapshot, disposed, recoveryInFlight, recoveryTimer, lastRecoveryAt, failedAttempts, recoveries)
    }

    ghost function View(): Mirror<S, U>
      reads this
    {
      Mirror(CopyView(), SchedulerView())
    }

    constructor (applyUpdate: (S, U) -> S, canResnapshot: bool, store: S)
      ensures this.applyUpdate == applyUpdate
      ensures View() == Initial(canResnapshot, store)
    {
      this.applyUpdate, this.canResnapshot, this.store := applyUpdate, canResnapshot, store;
      revision, pending, lostThrough := None, map[], None;
      recoveryInFlight, recoveryTimer, lastRecoveryAt, failedAttempts := false, None, 0, 0;
      disposed := false;
      writes, recoveries := 0, [];
    }

    method Receive(message: Message<S, U>, now: int)
      modifies this
      ensures View() == Received(applyUpdate, old(View()), message, now)
    {
      if disposed { return; }
      if message.Snapshot? {
        Replace(message.revision, message.state, now);
        return;
      }
      if revision.None? {
        HoldEvent(message.revision, message.update);
        return;
      }
      if message.revision <= revision.value { return; }
      if message.revision != revision.value + 1 {
        HoldEvent(message.revision, message.update);
        Request(now);
        return;
      }
      ApplyInOrder(message.update);
      Drain(now);
    }

    /** Apply the event that follows the mirror's revision. */
    method ApplyInOrder(update: U)
      requires revision.Some?
      modifies `revision, `store, `writes
      ensures CopyView() == Advanced(applyUpdate, old(CopyView()), update)
    {
      store := applyUpdate(store, update);
      writes := writes + 1;
      revision := Some(revision.value + 1);
    }

    method Replace(snapshotRevision: nat, state: S, now: int)
      modifies this
      ensures View() == Replaced(applyUpdate, old(View()), snapshotRevision, state, now)
    {
      if disposed { return; }
      if revision.Some? && snapshotRevision < revision.value {
        var gap := HasRevisionGap();
        if gap { Request(now); }
        return;
      }
      store := state;
      writes := writes + 1;
      revision := Some(snapshotRevision);
      if lostThrough.Some? && lostThrough.value <= snapshotRevision { lostThrough := None; }
      pending := KeepNewer(pending, snapshotRevision);
      assert CopyView() == Hydrated(old(CopyView()), snapshotRevision, state);
      Drain(now);
    }

    method Dispose()
      modifies this
      ensures View() == Disposed(old(View()))
    {
      disposed := true;
      recoveryTimer := None;
    }

    /** Drop every held event that a snapshot at `revision` contains. */
    static method KeepNewer(held: map<nat, U>, revision: nat) returns (kept: map<nat, U>)
      ensures kept == map r | r in held && r > revision :: held[r]
    {
      kept := held;
      var keys := held.Keys;
      while keys != {}
        invariant keys <= held.Keys
        invariant forall r :: r in kept <==> r in held && (r in keys || r > revision)
        invariant forall r :: r in kept ==> kept[r] == held[r]
        decreases |keys|
      {
        var r :| r in keys;
        keys := keys - {r};
        if r <= revision { kept := kept - {r}; }
      }
    }

    /** The newest of the revisions being let go and the newest let go before. */
    static method NewestLost(held: set<nat>, before: Option<nat>) returns (lost: Option<nat>)
      requires held != {}
      ensures lost == if before.Some? && before.value >= Newest(held) then before else Some(Newest(held))
    {
      lost := before;
      var keys := held;
      while keys != {}
        invariant keys <= held
        invariant lost == before || (lost.Some? && lost.value in held)
        invariant forall r :: r in held && r !in keys ==> lost.Some? && r <= lost.value
        invariant before.Some? ==> lost.Some? && before.value <= lost.value
        decreases |keys|
      {
        var revision :| revision in keys;
        if lost.None? || revision > lost.value { lost := Some(revision); }
        keys := keys - {revision};
      }
    }

    method HoldEvent(eventRevision: nat, update: U)
      modifies `pending, `lostThrough
      ensures CopyView() == Hold(old(CopyView()), eventRevision, update)
    {
      pending := pending[eventRevision := update];
      if |pending| <= MAX_PENDING_EVENTS { return; }
      assert eventRevision in pending.Keys;
      lostThrough := NewestLost(pending.Keys, lostThrough);
      pending := map[];
    }

    /** Apply the run of held events that follows the mirror's revision. */
    method ApplyHeld()
      requires revision.Some?
      modifies `revision, `pending, `store, `writes
      ensures CopyView() == Drained(applyUpdate, old(CopyView()))
    {
      var ap := applyUpdate;
      ghost var c := CopyView();
      ghost var drained := Drained(ap, c);
      var current := revision.value;
      while current + 1 in pending
        invariant c == CopyView().(revision := Some(current))
        invariant Drained(ap, c) == drained
        decreases |c.pending|
      {
        DrainedStep(ap, c);
        c := ApplyNext(ap, c);
        ApplyOne(current + 1);
        current := current + 1;
      }
      DrainedStep(ap, c);
      revision := Some(current);
    }

    method ApplyOne(next: nat)
      requires 1 <= next && next in pending
      modifies `pending, `store, `writes
      ensures CopyView().(revision := Some(next)) == ApplyNext(applyUpdate, old(CopyView()).(revision := Some(next - 1)))
      ensures revision == old(revision)
    {
      var update := pending[next];
      pending := pending - {next};
      store := applyUpdate(store, update);
      writes := writes + 1;
    }

    method Drain(now: int)
      requires revision.Some?
      modifies this
      ensures View() == Checked(Drained(applyUpdate, old(CopyView())), old(SchedulerView()), now)
    {
      ApplyHeld();
      var gap := HasRevisionGap();
      if gap { Request(now); }
    }

    method HasRevisionGap() returns (gap: bool)
      ensures gap <==> HasGap(CopyView())
    {
      if revision.None? { return false; }
      if lostThrough.Some? && lostThrough.value > revision.value { return true; }
      var keys := pending.Keys;
      while keys != {}
        invariant keys <= pending.Keys
        invariant forall r :: r in pending && r !in keys ==> r <= revision.value + 1
        decreases |keys|
      {
        var r :| r in keys;
        if r > revision.value + 1 { return true; }
        keys := keys - {r};
      }
      return false;
    }

    method Request(now: int)
      modifies `recoveryInFlight, `recoveryTimer, `lastRecoveryAt, `failedAttempts, `recoveries
      ensures SchedulerView() == RequestRecovery(old(SchedulerView()), HasGap(CopyView()), now)
    {
      if !canResnapshot { return; }
      if recoveryInFlight || recoveryTimer.Some? { return; }
      var since := now - lastRecoveryAt;
      Schedule(RECOVERY_COOLDOWN_MS - since, now);
    }

    method Schedule(delay: int, now: int)
      modifies `recoveryInFlight, `recoveryTimer, `lastRecoveryAt, `failedAttempts, `recoveries
      ensures SchedulerView() == ScheduleRecovery(old(SchedulerView()), HasGap(CopyView()), delay, now)
    {
      if delay <= 0 {
        Start(now);
        return;
      }
      recoveryTimer := Some(now + delay);
    }

    /** The scheduled attempt comes due. */
    method Fire(now: int)
      modifies this
      ensures View() == TimerFired(old(View()), now)
    {
      recoveryTimer := None;
      Start(now);
    }

    /** An attempt up to the point where it waits for its snapshot. */
    method Start(now: int)
      modifies `recoveryInFlight, `recoveryTimer, `lastRecoveryAt, `failedAttempts, `recoveries
      ensures SchedulerView() == StartRecovery(old(SchedulerView()), HasGap(CopyView()), now)
    {
      if !canResnapshot || recoveryInFlight || disposed { return; }
      var gap := HasRevisionGap();
      if !gap {
        failedAttempts := 0;
        recoveries := recoveries + [Skipped(now)];
        return;
      }
      recoveryInFlight := true;
      lastRecoveryAt := now;
      recoveries := recoveries + [Requested(now)];
    }

    /** The rest of an attempt, once its snapshot, its error or its deadline has arrived. */
    method End(reply: Option<(nat, S)>, now: int)
      requires recoveryInFlight
      modifies this
      ensures View() == AttemptEnded(applyUpdate, old(View()), reply, now)
    {
      if reply.Some? { Replace(reply.value.0, reply.value.1, now); }
      recoveryInFlight := false;
      lastRecoveryAt := now;
      ghost var log := recoveries;
      if disposed {
        recoveries := log + [Settled(now, Ignored)];
        return;
      }
      var gap := HasRevisionGap();
      if !gap {
        failedAttempts := 0;
        recoveries := log + [Settled(now, Closed)];
        return;
      }
      if reply.Some? {
        failedAttempts := 0;
        recoveries := log + [Settled(now, NewerGap)];
        Schedule(RECOVERY_COOLDOWN_MS, now);
        return;
      }
      failedAttempts := failedAttempts + 1;
      recoveries := log + [Settled(now, Failed)];
      if failedAttempts >= RECOVERY_MAX_ATTEMPTS {
        failedAttempts := 0;
        recoveries := log + [Settled(now, Failed)] + [Reported];
        return;
      }
      Schedule(RecoveryRetryDelay(failedAttempts), now);
    }
  }
}
