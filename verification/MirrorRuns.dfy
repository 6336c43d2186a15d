/**
 What every step of the window's mirror keeps: its store is the core's state at its revision, and
 no event is forgotten silently.
 */
module MirrorRuns {
  import opened Common
  import opened Mirrors
  import opened RecoveryPacing

  /** What the core went through: state `r` is the state at revision `r`, and update `r - 1` leads to it. */
  datatype History<S, U> = History(states: seq<S>, updates: seq<Option<U>>)

  /** Applying a published update to the state before it gives the state after it. */
  ghost predicate Consistent<S, U>(ap: (S, U) -> S, h: History<S, U>) {
    && |h.states| == |h.updates| + 1
    && forall k :: 0 <= k < |h.updates| && h.updates[k].Some? ==> ap(h.states[k], h.updates[k].value) == h.states[k + 1]
  }

  ghost predicate Published<S, U>(h: History<S, U>, revision: nat, update: U) {
    1 <= revision <= |h.updates| && h.updates[revision - 1] == Some(update)
  }

  ghost predicate WasState<S, U>(h: History<S, U>, revision: nat, state: S) {
    revision < |h.states| && h.states[revision] == state
  }

  ghost predicate ValidMessage<S, U>(h: History<S, U>, message: Message<S, U>) {
    match message
    case Event(revision, update) => Published(h, revision, update)
    case Snapshot(revision, state) => WasState(h, revision, state)
  }

  /** The store is the core's state at the mirror's revision, and what is held was published. */
  ghost predicate Faithful<S, U>(h: History<S, U>, c: Copy<S, U>) {
    && (c.revision.Some? ==> WasState(h, c.revision.value, c.store))
    && forall r :: r in c.pending ==> Published(h, r, c.pending[r])
  }

  /** Between calls: a bounded buffer, and nothing in it that could be applied already. */
  ghost predicate AtRest<S, U>(c: Copy<S, U>) {
    && |c.pending| <= MAX_PENDING_EVENTS
    && (c.revision.Some? ==> forall r :: r in c.pending ==> r >= c.revision.value + 2)
  }

  /** A received revision is in the store, held, or remembered as lost. */
  ghost predicate Accounted<S, U>(c: Copy<S, U>, r: nat) {
    || (c.revision.Some? && r <= c.revision.value)
    || r in c.pending
    || (c.lostThrough.Some? && r <= c.lostThrough.value)
  }

  ghost predicate Accounts<S, U>(c: Copy<S, U>, received: set<nat>) {
    && (forall r :: r in received ==> Accounted(c, r))
    && c.pending.Keys <= received
    && (c.lostThrough.Some? ==> c.lostThrough.value in received)
  }

  // ── Draining ──────────────────────────────────────────────────────────────

  /** `d` is `c` after the run of held events that follows its revision has been taken out. */
  ghost predicate RunTaken<S, U>(c: Copy<S, U>, d: Copy<S, U>)
    requires c.revision.Some? && d.revision.Some?
  {
    && c.revision.value <= d.revision.value
    && d.revision.value + 1 !in c.pending
    && (forall r :: c.revision.value < r <= d.revision.value ==> r in c.pending)
    && (forall r :: r in d.pending <==> r in c.pending && !(c.revision.value < r <= d.revision.value))
    && (forall r :: r in d.pending ==> d.pending[r] == c.pending[r])
    && d.lostThrough == c.lostThrough
  }

  lemma RunTakenStep<S, U>(c: Copy<S, U>, next: Copy<S, U>, d: Copy<S, U>)
    requires c.revision.Some? && c.revision.value + 1 in c.pending
    requires next.revision == Some(c.revision.value + 1) && next.lostThrough == c.lostThrough
    requires next.pending == c.pending - {c.revision.value + 1}
    requires d.revision.Some? && RunTaken(next, d)
    ensures RunTaken(c, d)
  {
    assert forall r: nat :: r in next.pending <==> r in c.pending && r != next.revision.value;
    assert d.revision.value + 1 !in next.pending;
  }

  lemma {:induction false} DrainedRun<S, U>(ap: (S, U) -> S, c: Copy<S, U>)
    requires c.revision.Some?
    ensures RunTaken(c, Drained(ap, c))
    decreases |c.pending|
  {
    DrainedStep(ap, c);
    if c.revision.value + 1 in c.pending {
      var next := ApplyNext(ap, c);
      DrainedRun(ap, next);
      RunTakenStep(c, next, Drained(ap, next));
    }
  }

  /** A drain applies every event it takes once. */
  lemma {:induction false} DrainAppliesOnce<S, U>(ap: (S, U) -> S, c: Copy<S, U>)
    requires c.revision.Some?
    ensures var d := Drained(ap, c); d.writes - c.writes == d.revision.value - c.revision.value == |c.pending| - |d.pending|
    decreases |c.pending|
  {
    DrainedStep(ap, c);
    if c.revision.value + 1 in c.pending {
      var next := c.revision.value + 1;
      assert (c.pending - {next}).Keys == c.pending.Keys - {next};
      assert |(c.pending - {next}).Keys| == |c.pending.Keys| - 1;
      DrainAppliesOnce(ap, ApplyNext(ap, c));
    }
  }

  lemma {:induction false} DrainedFaithful<S, U>(ap: (S, U) -> S, h: History<S, U>, c: Copy<S, U>)
    requires Consistent(ap, h) && Faithful(h, c) && c.revision.Some?
    ensures Faithful(h, Drained(ap, c))
    decreases |c.pending|
  {
    DrainedStep(ap, c);
    if c.revision.value + 1 in c.pending {
      var next := c.revision.value + 1;
      assert Published(h, next, c.pending[next]);
      assert ap(h.states[next - 1], c.pending[next]) == h.states[next];
      DrainedFaithful(ap, h, ApplyNext(ap, c));
    }
  }

  lemma SmallerBuffer<S, U>(c: Copy<S, U>, d: Copy<S, U>)
    requires d.pending.Keys <= c.pending.Keys
    ensures |d.pending| <= |c.pending|
  {
    SubsetSize(d.pending.Keys, c.pending.Keys);
    assert |d.pending.Keys| == |d.pending| && |c.pending.Keys| == |c.pending|;
  }

  lemma RunTakenRests<S, U>(c: Copy<S, U>, d: Copy<S, U>, received: set<nat>)
    requires c.revision.Some? && |c.pending| <= MAX_PENDING_EVENTS && Accounts(c, received)
    requires forall r :: r in c.pending ==> r > c.revision.value
    requires d.revision.Some? && RunTaken(c, d)
    ensures AtRest(d) && Accounts(d, received)
  {
    assert d.pending.Keys <= c.pending.Keys;
    SmallerBuffer(c, d);
    forall k | k in received
      ensures Accounted(d, k)
    {
      assert Accounted(c, k);
    }
  }

  /** A drain brings a copy to rest whose held events are all above its revision. */
  lemma DrainRests<S, U>(ap: (S, U) -> S, c: Copy<S, U>, received: set<nat>)
    requires c.revision.Some? && |c.pending| <= MAX_PENDING_EVENTS && Accounts(c, received)
    requires forall r :: r in c.pending ==> r > c.revision.value
    ensures AtRest(Drained(ap, c)) && Accounts(Drained(ap, c), received)
  {
    DrainedRun(ap, c);
    RunTakenRests(c, Drained(ap, c), received);
  }

  // ── Delivery ──────────────────────────────────────────────────────────────

  /** What the replicated part keeps from call to call. */
  ghost predicate Intact<S, U>(h: History<S, U>, c: Copy<S, U>, received: set<nat>) {
    Faithful(h, c) && AtRest(c) && Accounts(c, received)
  }

  lemma HydratedKeeps<S, U>(ap: (S, U) -> S, h: History<S, U>, c: Copy<S, U>, r: nat, state: S, received: set<nat>)
    requires Consistent(ap, h) && WasState(h, r, state) && Intact(h, c, received)
    requires c.revision.Some? ==> c.revision.value <= r
    ensures Intact(h, Drained(ap, Hydrated(c, r, state)), received)
    ensures var d := Drained(ap, Hydrated(c, r, state));
      && d.revision.value >= r && d.writes == c.writes + 1 + (d.revision.value - r)
      && d.lostThrough == (if c.lostThrough.Some? && c.lostThrough.value > r then c.lostThrough else None)
  {
    DrainAppliesOnce(ap, Hydrated(c, r, state));
    DrainedRun(ap, Hydrated(c, r, state));
    var hydrated := Hydrated(c, r, state);
    SmallerBuffer(c, hydrated);
    forall k | k in received
      ensures Accounted(hydrated, k)
    {
      assert Accounted(c, k);
    }
    DrainedFaithful(ap, h, hydrated);
    DrainRests(ap, hydrated, received);
  }

  /** A snapshot is taken exactly when it is not older than the mirror, its own revision included, and the mirror in use. */
  lemma SnapshotTakenIff<S, U>(ap: (S, U) -> S, m: Mirror<S, U>, r: nat, state: S, now: int)
    ensures var after := Replaced(ap, m, r, state, now).copy;
      var taken := !m.scheduler.disposed && (m.copy.revision.None? || m.copy.revision.value <= r);
      && (after.writes > m.copy.writes <==> taken)
      && (taken ==> after == Drained(ap, Hydrated(m.copy, r, state)))
      && (!taken ==> after == m.copy)
  {
    DrainAppliesOnce(ap, Hydrated(m.copy, r, state));
    DrainedRun(ap, Hydrated(m.copy, r, state));
  }

  lemma ReplacedKeeps<S, U>(ap: (S, U) -> S, h: History<S, U>, m: Mirror<S, U>, r: nat, state: S, received: set<nat>, now: int)
    requires Consistent(ap, h) && WasState(h, r, state) && Intact(h, m.copy, received)
    ensures Intact(h, Replaced(ap, m, r, state, now).copy, received)
  {
    if !m.scheduler.disposed && (m.copy.revision.None? || r >= m.copy.revision.value) {
      HydratedKeeps(ap, h, m.copy, r, state, received);
    }
  }

  lemma HoldAccounts<S, U>(c: Copy<S, U>, r: nat, update: U, received: set<nat>)
    requires Accounts(c, received)
    ensures Accounts(Hold(c, r, update), received + {r})
  {
    var held := c.pending[r := update];
    var after := Hold(c, r, update);
    assert held.Keys == c.pending.Keys + {r};
    forall k | k in received + {r}
      ensures Accounted(after, k)
    {
      if k != r { assert Accounted(c, k); }
      if k in held { assert k in held.Keys; }
    }
  }

  lemma HoldAtRest<S, U>(c: Copy<S, U>, r: nat, update: U)
    requires AtRest(c) && (c.revision.Some? ==> r >= c.revision.value + 2)
    ensures AtRest(Hold(c, r, update))
  {
  }

  lemma HoldRests<S, U>(h: History<S, U>, c: Copy<S, U>, r: nat, update: U)
    requires Published(h, r, update) && Faithful(h, c) && AtRest(c)
    requires c.revision.Some? ==> r >= c.revision.value + 2
    ensures Faithful(h, Hold(c, r, update)) && AtRest(Hold(c, r, update))
    ensures c.revision.Some? ==> HasGap(Hold(c, r, update))
  {
    var held := c.pending[r := update];
    assert r in held.Keys;
  }

  /** Up to 4096 events are held as they come; one more, and all are let go and the newest ever let go is remembered. */
  lemma HoldLetsGoIff<S, U>(c: Copy<S, U>, r: nat, update: U)
    ensures var after := Hold(c, r, update); var held := c.pending.Keys + {r};
      && (|held| <= 4_096 ==> after.pending == c.pending[r := update] && after.lostThrough == c.lostThrough)
      && (|held| > 4_096 ==>
            && after.pending == map[] && after.lostThrough.Some?
            && (after.lostThrough == c.lostThrough || after.lostThrough.value in held)
            && (c.lostThrough.Some? ==> c.lostThrough.value <= after.lostThrough.value)
            && forall k :: k in held ==> k <= after.lostThrough.value)
      && after.revision == c.revision && after.store == c.store && after.writes == c.writes
  {
    assert c.pending[r := update].Keys == c.pending.Keys + {r};
  }

  lemma HoldKeeps<S, U>(h: History<S, U>, c: Copy<S, U>, r: nat, update: U, received: set<nat>)
    requires Published(h, r, update) && Intact(h, c, received)
    requires c.revision.Some? ==> r >= c.revision.value + 2
    ensures Intact(h, Hold(c, r, update), received + {r})
    ensures c.revision.Some? ==> HasGap(Hold(c, r, update))
  {
    HoldAccounts(c, r, update, received);
    HoldRests(h, c, r, update);
  }

  lemma NextKeeps<S, U>(ap: (S, U) -> S, h: History<S, U>, c: Copy<S, U>, update: U, received: set<nat>)
    requires c.revision.Some? && Consistent(ap, h) && Intact(h, c, received)
    requires Published(h, c.revision.value + 1, update)
    ensures Intact(h, Drained(ap, Advanced(ap, c, update)), received + {c.revision.value + 1})
  {
    var r := c.revision.value + 1;
    var next := Advanced(ap, c, update);
    assert ap(h.states[r - 1], update) == h.states[r];
    forall k | k in received + {r}
      ensures Accounted(next, k)
    {
      if k != r { assert Accounted(c, k); }
    }
    DrainedFaithful(ap, h, next);
    DrainRests(ap, next, received + {r});
  }

  lemma ReceivedKeeps<S, U>(ap: (S, U) -> S, h: History<S, U>, m: Mirror<S, U>, message: Message<S, U>, received: set<nat>, now: int)
    requires Consistent(ap, h) && ValidMessage(h, message) && Intact(h, m.copy, received)
    requires !m.scheduler.disposed
    ensures Intact(h, Received(ap, m, message, now).copy, if message.Event? then received + {message.revision} else received)
  {
    match message
    case Snapshot(r, state) => ReplacedKeeps(ap, h, m, r, state, received, now);
    case Event(r, update) =>
      var c := m.copy;
      if c.revision.None? || r > c.revision.value + 1 {
        HoldKeeps(h, c, r, update, received);
      } else if r == c.revision.value + 1 {
        NextKeeps(ap, h, c, update, received);
      }
  }

  /** A gap is seen exactly when a revision above the mirror's own has been received. */
  lemma GapIffNewerReceived<S, U>(h: History<S, U>, c: Copy<S, U>, received: set<nat>)
    requires Intact(h, c, received) && c.revision.Some?
    ensures HasGap(c) <==> exists r :: r in received && r > c.revision.value
  {
    if r :| r in received && r > c.revision.value {
      assert Accounted(c, r);
    }
    if r :| r in c.pending && r > c.revision.value + 1 {
      assert r in c.pending.Keys;
    }
  }

  // ── Steps ─────────────────────────────────────────────────────────────────

  datatype Step<S, U> =
    | Deliver(message: Message<S, U>, now: int)
    | Pulled(revision: nat, state: S, now: int)
    | Ended(reply: Option<(nat, S)>, now: int)
    | Fired(now: int)
    | Dispose(now: int)

  ghost predicate Enabled<S, U>(m: Mirror<S, U>, step: Step<S, U>) {
    match step
    case Deliver(_, _) => true
    case Pulled(_, _, _) => true
    case Ended(_, _) => m.scheduler.inFlight
    case Fired(now) => m.scheduler.timer.Some? && m.scheduler.timer.value <= now
    case Dispose(_) => true
  }

  ghost function Do<S, U>(ap: (S, U) -> S, m: Mirror<S, U>, step: Step<S, U>): Mirror<S, U> {
    match step
    case Deliver(message, now) => Received(ap, m, message, now)
    case Pulled(r, state, now) => Replaced(ap, m, r, state, now)
    case Ended(reply, now) => AttemptEnded(ap, m, reply, now)
    case Fired(now) => TimerFired(m, now)
    case Dispose(_) => Disposed(m)
  }

  /** Everything the step brings comes from the core. */
  ghost predicate Genuine<S, U>(h: History<S, U>, step: Step<S, U>) {
    match step
    case Deliver(message, _) => ValidMessage(h, message)
    case Pulled(r, state, _) => WasState(h, r, state)
    case Ended(reply, _) => reply.Some? ==> WasState(h, reply.value.0, reply.value.1)
    case Fired(_) => true
    case Dispose(_) => true
  }

  /** The event revisions a mirror still in use has taken in. */
  ghost function TakenIn<S, U>(m: Mirror<S, U>, step: Step<S, U>, received: set<nat>): set<nat> {
    if step.Deliver? && step.message.Event? && !m.scheduler.disposed then received + {step.message.revision} else received
  }

  lemma StepKeepsCopy<S, U>(ap: (S, U) -> S, h: History<S, U>, m: Mirror<S, U>, step: Step<S, U>, received: set<nat>)
    requires Consistent(ap, h) && Genuine(h, step) && Intact(h, m.copy, received)
    ensures Intact(h, Do(ap, m, step).copy, TakenIn(m, step, received))
  {
    match step
    case Deliver(message, now) =>
      if !m.scheduler.disposed { ReceivedKeeps(ap, h, m, message, received, now); }
    case Pulled(r, state, now) => ReplacedKeeps(ap, h, m, r, state, received, now);
    case Ended(reply, now) =>
      if reply.Some? { ReplacedKeeps(ap, h, m, reply.value.0, reply.value.1, received, now); }
    case Fired(_) =>
    case Dispose(_) =>
  }

  // ── Scheduling ────────────────────────────────────────────────────────────

  ghost predicate Sound<S, U>(m: Mirror<S, U>, clock: int) {
    Scheduled(m.scheduler, clock) && GapHandled(m.scheduler, HasGap(m.copy))
  }

  /** A message is stale when the mirror already has everything it says. */
  ghost predicate Stale<S, U>(m: Mirror<S, U>, message: Message<S, U>) {
    message.Event? && m.copy.revision.Some? && message.revision <= m.copy.revision.value
  }

  lemma CheckedSound<S, U>(c: Copy<S, U>, s: Scheduler, clock: int, now: int)
    requires Scheduled(s, clock) && clock <= now && !s.disposed
    ensures var m := Checked(c, s, now); Sound(m, now) && (HasGap(c) && s.canResnapshot ==> Recovering(m.scheduler))
    ensures s.inFlight ==> Checked(c, s, now).scheduler == s
    ensures SameRole(Checked(c, s, now).scheduler, s)
  {
    if HasGap(c) { RequestKeeps(s, true, clock, now); }
  }

  lemma ReplacedSound<S, U>(ap: (S, U) -> S, m: Mirror<S, U>, r: nat, state: S, clock: int, now: int)
    requires Sound(m, clock) && clock <= now
    ensures var after := Replaced(ap, m, r, state, now);
      && Sound(after, now)
      && (HasGap(after.copy) && m.scheduler.canResnapshot && !m.scheduler.disposed ==> Recovering(after.scheduler))
      && (m.scheduler.inFlight ==> after.scheduler == m.scheduler)
      && SameRole(after.scheduler, m.scheduler)
  {
    if !m.scheduler.disposed {
      var c := if m.copy.revision.Some? && r < m.copy.revision.value then m.copy else Drained(ap, Hydrated(m.copy, r, state));
      CheckedSound(c, m.scheduler, clock, now);
    }
  }

  /** Fresh traffic that leaves a gap leaves an attempt too, whatever was reported before it. */
  lemma ReceivedSound<S, U>(ap: (S, U) -> S, m: Mirror<S, U>, message: Message<S, U>, clock: int, now: int)
    requires Sound(m, clock) && clock <= now
    ensures var after := Received(ap, m, message, now);
      && Sound(after, now)
      && (HasGap(after.copy) && m.scheduler.canResnapshot && !m.scheduler.disposed && !Stale(m, message) ==>
            Recovering(after.scheduler))
      && SameRole(after.scheduler, m.scheduler)
  {
    if !m.scheduler.disposed {
      match message
      case Snapshot(r, state) => ReplacedSound(ap, m, r, state, clock, now);
      case Event(r, update) =>
        if m.copy.revision.Some? {
          if r == m.copy.revision.value + 1 {
            CheckedSound(Drained(ap, Advanced(ap, m.copy, update)), m.scheduler, clock, now);
          } else if r > m.copy.revision.value + 1 {
            RequestKeeps(m.scheduler, HasGap(Hold(m.copy, r, update)), clock, now);
          }
        }
    }
  }

  lemma StepSound<S, U>(ap: (S, U) -> S, m: Mirror<S, U>, step: Step<S, U>, clock: int)
    requires Sound(m, clock) && clock <= step.now && Enabled(m, step)
    ensures Sound(Do(ap, m, step), step.now)
  {
    match step
    case Deliver(message, now) => ReceivedSound(ap, m, message, clock, now);
    case Pulled(r, state, now) => ReplacedSound(ap, m, r, state, clock, now);
    case Ended(reply, now) =>
      if reply.Some? { ReplacedSound(ap, m, reply.value.0, reply.value.1, clock, now); }
      var landed := if reply.Some? then Replaced(ap, m, reply.value.0, reply.value.1, now) else m;
      SettledKeeps(m.scheduler, HasGap(landed.copy), reply.Some?, clock, now);
    case Fired(now) => StartKeeps(m.scheduler.(timer := None), HasGap(m.copy), clock, now);
    case Dispose(_) =>
  }

  /** What the end of an attempt is recorded as, by what is left of the gap and whether it was answered. */
  ghost function VerdictOf(disposed: bool, gap: bool, answered: bool): Verdict {
    if disposed then Ignored else if gap then (if answered then NewerGap else Failed) else Closed
  }

  /**
   An attempt that ends is over and recorded; a timer that fires is cleared and starts an attempt where there is still a
   gap; a mirror thrown away schedules nothing.
   */
  lemma StepSettles<S, U>(ap: (S, U) -> S, m: Mirror<S, U>, step: Step<S, U>, clock: int)
    requires Sound(m, clock) && clock <= step.now && Enabled(m, step)
    ensures var after := Do(ap, m, step); var before := m.scheduler; var s := after.scheduler;
      match step
      case Ended(reply, now) =>
        && !s.inFlight && |s.recoveries| > |before.recoveries| && s.recoveries[..|before.recoveries|] == before.recoveries
        && s.recoveries[|before.recoveries|] == Settled(now, VerdictOf(before.disposed, HasGap(after.copy), reply.Some?))
      case Fired(now) =>
        && s.timer.None? && after.copy == m.copy && s.inFlight == HasGap(m.copy)
        && s.recoveries == before.recoveries + [if HasGap(m.copy) then Requested(now) else Skipped(now)]
      case Dispose(_) => s.disposed && s.timer.None? && after.copy == m.copy && s.recoveries == before.recoveries
      case _ => true
  {
    if step.Ended? && step.reply.Some? {
      ReplacedSound(ap, m, step.reply.value.0, step.reply.value.1, clock, step.now);
    }
  }

  /** A mirror never goes back, and one thrown away neither hydrates nor applies anything again. */
  lemma StepAdvances<S, U>(ap: (S, U) -> S, m: Mirror<S, U>, step: Step<S, U>)
    ensures var after := Do(ap, m, step);
      && (m.copy.revision.Some? ==> after.copy.revision.Some? && m.copy.revision.value <= after.copy.revision.value)
      && (m.scheduler.disposed ==> after.scheduler.disposed && after.copy == m.copy)
  {
    match step
    case Deliver(Event(_, update), _) =>
      if m.copy.revision.Some? { DrainedRun(ap, Advanced(ap, m.copy, update)); }
    case Deliver(Snapshot(r, state), _) => DrainedRun(ap, Hydrated(m.copy, r, state));
    case Pulled(r, state, _) => DrainedRun(ap, Hydrated(m.copy, r, state));
    case Ended(reply, _) =>
      if reply.Some? { DrainedRun(ap, Hydrated(m.copy, reply.value.0, reply.value.1)); }
    case Fired(_) =>
    case Dispose(_) =>
  }

  /** The record only grows, and while it does not, an attempt under way or scheduled stays so unless the mirror is disposed. */
  ghost predicate StillRecovering(before: Scheduler, after: Scheduler) {
    && before.recoveries <= after.recoveries
    && (after.recoveries == before.recoveries && Recovering(before) && !after.disposed ==> Recovering(after))
    && after.canResnapshot == before.canResnapshot
  }

  lemma StillRecoveringOn(a: Scheduler, b: Scheduler, c: Scheduler)
    requires StillRecovering(a, b) && StillRecovering(b, c) && (b.disposed ==> c.disposed)
    ensures StillRecovering(a, c)
  {
  }

  lemma StepStillRecovering<S, U>(ap: (S, U) -> S, m: Mirror<S, U>, step: Step<S, U>)
    requires Enabled(m, step) && (step.Fired? ==> m.scheduler.canResnapshot && !m.scheduler.inFlight)
    ensures StillRecovering(m.scheduler, Do(ap, m, step).scheduler)
  {
    match step
    case Deliver(message, now) => ReceivedStillRecovering(ap, m, message, now);
    case Pulled(r, state, now) => ReplacedStillRecovering(ap, m, r, state, now);
    case Ended(reply, now) =>
      var landed := if reply.Some? then Replaced(ap, m, reply.value.0, reply.value.1, now) else m;
      if reply.Some? { ReplacedStillRecovering(ap, m, reply.value.0, reply.value.1, now); }
      SettledGrows(landed.scheduler, HasGap(landed.copy), reply.Some?, now);
    case Fired(now) =>
    case Dispose(_) =>
  }

  lemma RequestStillRecovering(s: Scheduler, gap: bool, now: int)
    ensures StillRecovering(s, RequestRecovery(s, gap, now))
  {
  }

  lemma SettledGrows(s: Scheduler, gap: bool, answered: bool, now: int)
    ensures var after := AttemptSettled(s, gap, answered, now);
      s.recoveries < after.recoveries && after.canResnapshot == s.canResnapshot
  {
  }

  lemma ReplacedStillRecovering<S, U>(ap: (S, U) -> S, m: Mirror<S, U>, r: nat, state: S, now: int)
    ensures StillRecovering(m.scheduler, Replaced(ap, m, r, state, now).scheduler)
  {
    RequestStillRecovering(m.scheduler, true, now);
  }

  lemma ReceivedStillRecovering<S, U>(ap: (S, U) -> S, m: Mirror<S, U>, message: Message<S, U>, now: int)
    ensures StillRecovering(m.scheduler, Received(ap, m, message, now).scheduler)
  {
    match message
    case Snapshot(r, state) => ReplacedStillRecovering(ap, m, r, state, now);
    case Event(r, update) =>
      RequestStillRecovering(m.scheduler, true, now);
      if m.copy.revision.Some? { RequestStillRecovering(m.scheduler, HasGap(Hold(m.copy, r, update)), now); }
  }
}
