/**
 The whole path of a state change, from the core's reducer through the forwarder
 (`src-tauri/src/startup.rs`) and its lossy channel to the window's mirror, as a state machine
 whose actions interleave freely.
 */
module Protocol {
  import opened Common
  import opened Updates
  import opened Mirrors
  import opened RecoveryPacing
  import opened MirrorRuns

  type Note = Message<AppState, FrontendUpdate>
  type Past = History<AppState, FrontendUpdate>
  type Window = Mirror<AppState, FrontendUpdate>

  /** An event as the core publishes it: numbered, with the replacement captured for it if it has one. */
  datatype VersionedEvent = VersionedEvent(revision: nat, event: AppEvent, update: Option<FrontendUpdate>)

  /** The forwarder's receiver, which remembers having fallen behind, the channel to the window, and whether it has ended. */
  datatype Stream = Stream(queue: seq<VersionedEvent>, lagged: bool, channel: seq<Note>, ended: bool)

  /** A snapshot the window asked for, on its way: for the first load, or for a recovery attempt. */
  datatype Pull = Pull(attempt: Option<nat>, revision: nat, state: AppState)

  datatype System = System(
    past: Past,
    events: seq<Option<AppEvent>>,
    inTransit: Option<VersionedEvent>,
    stream: Stream,
    pulls: seq<Pull>,
    window: Window,
    received: set<nat>,
    unsent: set<nat>,
    clock: int)

  datatype Action =
    | Emit(event: AppEvent)
    | Broadcast
    | Poison(state: AppState)
    | Overflow
    | Forward(delivered: bool, installing: bool)
    | Lose(index: nat)
    | Hear(now: int)
    | Ask(attempt: Option<nat>)
    | Answer(index: nat, now: int)
    | Refuse(now: int)
    | Fire(now: int)
    | ThrowAway(now: int)

  // ── The forwarder ─────────────────────────────────────────────────────────

  /** Events after which the popup queue is brought up to date. */
  predicate TouchesPopups(event: AppEvent) {
    event.NotificationEvent? || event.SettingsEvent? || event.AuthEvent?
  }

  /** Only a client update's event can start an installation. */
  predicate MayInstall(event: AppEvent) {
    event.SliceEvent? && event.slice == ClientUpdate
  }

  /**
   One turn of the receive loop, with the core's state at the time, whether the window took the message, and whether this
   event, or the state after a lag, starts installing an update, which ends the client and the loop with it.
   */
  function ForwardTurn(s: Stream, revision: nat, state: AppState, delivered: bool, installing: bool): Stream
    requires s.lagged || s.queue != []
  {
    if s.lagged then
      Stream([], false, if delivered && !installing then s.channel + [Snapshot(revision, state)] else s.channel, s.ended || installing)
    else
      var carried := Carried(s.queue[0].update, s.queue[0].event);
      Stream(s.queue[1..], false,
             if carried.Some? && delivered && !installing
               then s.channel + [Event(s.queue[0].revision, carried.value)] else s.channel,
             s.ended || installing)
  }

  class Forwarder {
    var queue: seq<VersionedEvent>
    var lagged: bool
    var channel: seq<Note>
    var ended: bool

    ghost function View(): Stream
      reads this
    {
      Stream(queue, lagged, channel, ended)
    }

    constructor ()
      ensures View() == Stream([], false, [], false)
    {
      queue, lagged, channel, ended := [], false, [], false;
    }

    /**
     Receive once: forward the event, skip it, or resubscribe and send the whole state after a lag; or end, where an
     update is being installed. `refreshed` says whether the popup queue was brought up to date.
     */
    method Turn(revision: nat, state: AppState, delivered: bool, installing: bool) returns (refreshed: bool)
      requires (lagged || queue != []) && !ended
      requires installing && !lagged ==> MayInstall(queue[0].event)
      modifies this
      ensures View() == ForwardTurn(old(View()), revision, state, delivered, installing)
      ensures refreshed <==> if old(lagged) then !installing else
        (var event := old(queue)[0].event; event.NotificationEvent? || event.SettingsEvent? || event.AuthEvent?)
      ensures ended == installing && !lagged && queue == if old(lagged) then [] else old(queue)[1..]
      ensures !delivered || installing ==> channel == old(channel)
      ensures delivered && !installing && old(lagged) ==> channel == old(channel) + [Snapshot(revision, state)]
      ensures delivered && !installing && !old(lagged) ==>
        (var first := old(queue)[0]; var carried := Carried(first.update, first.event);
          channel == old(channel) + if carried.Some? then [Event(first.revision, carried.value)] else [])
    {
      if lagged {
        queue, lagged := [], false;
        if installing {
          ended := true;
          return false;
        }
        if delivered { channel := channel + [Snapshot(revision, state)]; }
        return true;
      }
      var event := queue[0];
      queue := queue[1..];
      refreshed := TouchesPopups(event.event);
      if installing {
        ended := true;
        return;
      }
      var update := event.update;
      if update.None? { update := FromDelta(event.event); }
      if update.None? { return; }
      if delivered { channel := channel + [Event(event.revision, update.value)]; }
    }
  }

  // ── The actions ───────────────────────────────────────────────────────────

  ghost function Ap(replica: Replica): (AppState, FrontendUpdate) -> AppState {
    (state, update) => ApplyUpdate(replica, state, update)
  }

  ghost function Start(initial: AppState, blank: AppState, canResnapshot: bool): System {
    System(History([initial], []), [], None, Stream([], false, [], false), [], Initial(canResnapshot, blank), {}, {}, 0)
  }

  ghost function Current(sys: System): nat
    requires |sys.past.states| > 0
  {
    |sys.past.states| - 1
  }

  ghost function UpTo(n: nat): (revisions: set<nat>)
    ensures forall r: nat :: r in revisions <==> 1 <= r <= n
  {
    if n == 0 then {} else UpTo(n - 1) + {n}
  }

  /** The revisions a message brings. */
  ghost function Brings(note: Note): set<nat> {
    match note
    case Event(r, _) => {r}
    case Snapshot(r, _) => UpTo(r)
  }

  /** The attempt a mirror is waiting on is its latest request. */
  ghost function RequestsIn(log: seq<Recovery>): nat {
    if log == [] then 0
    else RequestsIn(log[..|log| - 1]) + if log[|log| - 1].Requested? then 1 else 0
  }

  ghost predicate Able(sys: System, action: Action) {
    match action
    case Emit(_) => sys.inTransit.None?
    case Broadcast => sys.inTransit.Some?
    case Poison(_) => true
    case Overflow => sys.stream.queue != []
    case Forward(_, installing) =>
      && !sys.stream.ended && (sys.stream.lagged || sys.stream.queue != [])
      && (installing && !sys.stream.lagged ==> MayInstall(sys.stream.queue[0].event))
    case Lose(i) => i < |sys.stream.channel|
    case Hear(now) => sys.stream.channel != [] && sys.clock <= now
    case Ask(attempt) => attempt.Some? ==> attempt.value <= RequestsIn(sys.window.scheduler.recoveries)
    case Answer(i, now) => i < |sys.pulls| && sys.clock <= now
    case Refuse(now) => sys.window.scheduler.inFlight && sys.clock <= now
    case Fire(now) => sys.clock <= now && Enabled(sys.window, Fired(now))
    case ThrowAway(now) => sys.clock <= now
  }

  ghost function Stepped(replica: Replica, sys: System, step: Step<AppState, FrontendUpdate>): System {
    sys.(window := Do(Ap(replica), sys.window, step),
         received := TakenIn(sys.window, step, sys.received),
         clock := step.now)
  }

  /** What an arriving pull does: a late reply, to an attempt that is over, does nothing. */
  ghost function AnswerStep(window: Window, pull: Pull, now: int): Option<Step<AppState, FrontendUpdate>> {
    match pull.attempt
    case None => Some(Pulled(pull.revision, pull.state, now))
    case Some(attempt) =>
      if window.scheduler.inFlight && attempt == RequestsIn(window.scheduler.recoveries)
      then Some(Ended(Some((pull.revision, pull.state)), now))
      else None
  }

  ghost function Act(rules: Rules, replica: Replica, sys: System, action: Action): System
    requires |sys.past.states| > 0 && Able(sys, action)
  {
    var revision, state := Current(sys), sys.past.states[Current(sys)];
    match action
    case Emit(event) =>
      var after := Reduced(rules, state, event);
      var captured := Capture(after, event);
      sys.(past := History(sys.past.states + [after], sys.past.updates + [Carried(captured, event)]),
           events := sys.events + [Some(event)],
           inTransit := Some(VersionedEvent(revision + 1, event, captured)))
    case Broadcast =>
      sys.(inTransit := None, stream := sys.stream.(queue := sys.stream.queue + [sys.inTransit.value]))
    case Poison(damaged) =>
      sys.(past := History(sys.past.states + [damaged], sys.past.updates + [None]),
           events := sys.events + [None],
           unsent := sys.unsent + {revision + 1})
    case Overflow => sys.(stream := sys.stream.(queue := sys.stream.queue[1..], lagged := true))
    case Forward(delivered, installing) =>
      sys.(stream := ForwardTurn(sys.stream, revision, state, delivered, installing),
           unsent := if delivered && !installing then sys.unsent
                     else sys.unsent + if sys.stream.lagged then UpTo(revision) else {sys.stream.queue[0].revision})
    case Lose(i) =>
      sys.(stream := sys.stream.(channel := sys.stream.channel[..i] + sys.stream.channel[i + 1..]),
           unsent := sys.unsent + Brings(sys.stream.channel[i]))
    case Hear(now) =>
      Stepped(replica, sys, Deliver(sys.stream.channel[0], now)).(stream := sys.stream.(channel := sys.stream.channel[1..]))
    case Ask(attempt) => sys.(pulls := sys.pulls + [Pull(attempt, revision, state)])
    case Answer(i, now) =>
      var step := AnswerStep(sys.window, sys.pulls[i], now);
      var rest := sys.(pulls := sys.pulls[..i] + sys.pulls[i + 1..], clock := now);
      if step.Some? then Stepped(replica, rest, step.value) else rest
    case Refuse(now) => Stepped(replica, sys, Ended(None, now))
    case Fire(now) => Stepped(replica, sys, Fired(now))
    case ThrowAway(now) => Stepped(replica, sys, Dispose(now))
  }

  // ── What every reachable system keeps ─────────────────────────────────────

  ghost predicate ValidQueued(past: Past, v: VersionedEvent) {
    var carried := Carried(v.update, v.event);
    carried.Some? && Published(past, v.revision, carried.value)
  }

  ghost predicate ValidStream(past: Past, stream: Stream) {
    && (forall i :: 0 <= i < |stream.queue| ==> ValidQueued(past, stream.queue[i]))
    && (forall i :: 0 <= i < |stream.channel| ==> ValidMessage(past, stream.channel[i]))
  }

  ghost predicate ValidPulls(past: Past, pulls: seq<Pull>) {
    forall i :: 0 <= i < |pulls| ==> WasState(past, pulls[i].revision, pulls[i].state)
  }

  ghost predicate Queued(stream: Stream, r: nat) {
    exists i :: 0 <= i < |stream.queue| && stream.queue[i].revision == r
  }

  ghost predicate OnItsWay(stream: Stream, r: nat) {
    exists i :: 0 <= i < |stream.channel| && r in Brings(stream.channel[i])
  }

  /** Every revision is somewhere: taken in, still coming, covered by a snapshot still due, or known to be unsent. */
  ghost predicate Somewhere(sys: System, r: nat) {
    || r in sys.unsent
    || (sys.inTransit.Some? && sys.inTransit.value.revision == r)
    || sys.stream.lagged
    || Queued(sys.stream, r)
    || OnItsWay(sys.stream, r)
    || Accounted(sys.window.copy, r)
  }

  ghost predicate Recorded(rules: Rules, sys: System) {
    && |sys.past.states| == |sys.past.updates| + 1 && |sys.events| == |sys.past.updates|
    && forall k :: 0 <= k < |sys.events| && sys.events[k].Some? ==>
         sys.past.states[k + 1] == Reduced(rules, sys.past.states[k], sys.events[k].value)
  }

  ghost predicate Safe(rules: Rules, replica: Replica, sys: System) {
    && Consistent(Ap(replica), sys.past)
    && Recorded(rules, sys)
    && (sys.inTransit.Some? ==> ValidQueued(sys.past, sys.inTransit.value))
    && ValidStream(sys.past, sys.stream) && ValidPulls(sys.past, sys.pulls)
    && Intact(sys.past, sys.window.copy, sys.received)
    && Sound(sys.window, sys.clock)
    && (!sys.window.scheduler.disposed ==> forall r | 1 <= r <= Current(sys) :: Somewhere(sys, r))
  }

  /** A longer history keeps every fact about a shorter one. */
  lemma HistoryGrows(past: Past, state: AppState, update: Option<FrontendUpdate>, stream: Stream, pulls: seq<Pull>,
                     copy: Copy<AppState, FrontendUpdate>, received: set<nat>)
    requires |past.states| == |past.updates| + 1
    requires ValidStream(past, stream) && ValidPulls(past, pulls) && Intact(past, copy, received)
    ensures var longer := History(past.states + [state], past.updates + [update]);
      ValidStream(longer, stream) && ValidPulls(longer, pulls) && Intact(longer, copy, received)
      && forall v :: ValidQueued(past, v) ==> ValidQueued(longer, v)
  {
    var longer := History(past.states + [state], past.updates + [update]);
    forall r: nat, u | Published(past, r, u)
      ensures Published(longer, r, u)
    {
    }
    forall i | 0 <= i < |stream.queue|
      ensures ValidQueued(longer, stream.queue[i])
    {
      assert ValidQueued(past, stream.queue[i]);
    }
    forall i | 0 <= i < |stream.channel|
      ensures ValidMessage(longer, stream.channel[i])
    {
      assert ValidMessage(past, stream.channel[i]);
    }
  }

  /** What has been accounted for stays accounted for, and a message accounts for everything it brings. */
  lemma StepAccounts(ap: (AppState, FrontendUpdate) -> AppState, past: Past, m: Window,
                     step: Step<AppState, FrontendUpdate>, received: set<nat>, r: nat)
    requires Consistent(ap, past) && Genuine(past, step) && Intact(past, m.copy, received)
    ensures Accounted(m.copy, r) ==> Accounted(Do(ap, m, step).copy, r)
    ensures step.Deliver? && !m.scheduler.disposed && r in Brings(step.message) ==> Accounted(Do(ap, m, step).copy, r)
  {
    // Taking `r` for received where it is accounted for makes this the mirror's own accounting.
    var known := if Accounted(m.copy, r) then received + {r} else received;
    StepKeepsCopy(ap, past, m, step, known);
    if step.Deliver? && step.message.Snapshot? {
      DrainedRun(ap, Hydrated(m.copy, step.message.revision, step.message.state));
    }
  }

  lemma EmitSafe(rules: Rules, replica: Replica, sys: System, event: AppEvent)
    requires Agrees(replica, rules) && Safe(rules, replica, sys) && sys.inTransit.None?
    ensures Safe(rules, replica, Act(rules, replica, sys, Emit(event)))
  {
    var state := sys.past.states[Current(sys)];
    var after := Reduced(rules, state, event);
    var carried := Carried(Capture(after, event), event);
    UpdateCommutes(rules, replica, state, event);
    HistoryGrows(sys.past, after, carried, sys.stream, sys.pulls, sys.window.copy, sys.received);
    var next := Act(rules, replica, sys, Emit(event));
    assert ValidQueued(next.past, next.inTransit.value);
    if !sys.window.scheduler.disposed {
      forall r | 1 <= r <= Current(next)
        ensures Somewhere(next, r)
      {
        if r < Current(next) { assert Somewhere(sys, r); }
      }
    }
  }

  /** The event reaches the receiver after the state guard is gone: by then a snapshot may already contain it. */
  lemma BroadcastSafe(rules: Rules, replica: Replica, sys: System)
    requires Safe(rules, replica, sys) && sys.inTransit.Some?
    ensures Safe(rules, replica, Act(rules, replica, sys, Broadcast))
  {
    var next := Act(rules, replica, sys, Broadcast);
    var last := |sys.stream.queue|;
    assert next.stream.queue[last] == sys.inTransit.value;
    if !sys.window.scheduler.disposed {
      forall r | 1 <= r <= Current(next)
        ensures Somewhere(next, r)
      {
        assert Somewhere(sys, r);
        if sys.inTransit.value.revision == r {
          assert next.stream.queue[last].revision == r;
        } else if Queued(sys.stream, r) {
          var i :| 0 <= i < |sys.stream.queue| && sys.stream.queue[i].revision == r;
          assert next.stream.queue[i].revision == r;
        }
      }
    }
  }

  lemma PoisonSafe(rules: Rules, replica: Replica, sys: System, damaged: AppState)
    requires Safe(rules, replica, sys)
    ensures Safe(rules, replica, Act(rules, replica, sys, Poison(damaged)))
  {
    HistoryGrows(sys.past, damaged, None, sys.stream, sys.pulls, sys.window.copy, sys.received);
    var next := Act(rules, replica, sys, Poison(damaged));
    if !sys.window.scheduler.disposed {
      forall r | 1 <= r <= Current(next)
        ensures Somewhere(next, r)
      {
        if r < Current(next) { assert Somewhere(sys, r); }
      }
    }
  }

  lemma OverflowSafe(rules: Rules, replica: Replica, sys: System)
    requires Safe(rules, replica, sys) && sys.stream.queue != []
    ensures Safe(rules, replica, Act(rules, replica, sys, Overflow))
  {
  }

  lemma ForwardSafe(rules: Rules, replica: Replica, sys: System, delivered: bool, installing: bool)
    requires Safe(rules, replica, sys) && Able(sys, Forward(delivered, installing))
    ensures Safe(rules, replica, Act(rules, replica, sys, Forward(delivered, installing)))
  {
    var next := Act(rules, replica, sys, Forward(delivered, installing));
    if !sys.stream.lagged {
      assert ValidQueued(sys.past, sys.stream.queue[0]);
    }
    if !sys.window.scheduler.disposed {
      forall r | 1 <= r <= Current(next)
        ensures Somewhere(next, r)
      {
        ForwardKeepsTrack(rules, replica, sys, delivered, installing, r);
      }
    }
  }

  lemma ForwardKeepsTrack(rules: Rules, replica: Replica, sys: System, delivered: bool, installing: bool, r: nat)
    requires |sys.past.states| > 0 && Able(sys, Forward(delivered, installing))
    requires 1 <= r <= Current(sys) && Somewhere(sys, r)
    requires !sys.stream.lagged ==> ValidQueued(sys.past, sys.stream.queue[0])
    ensures Somewhere(Act(rules, replica, sys, Forward(delivered, installing)), r)
  {
    var next := Act(rules, replica, sys, Forward(delivered, installing));
    var sent := |sys.stream.channel|;
    if sys.stream.lagged {
      if delivered && !installing { assert r in Brings(next.stream.channel[sent]); }
    } else if sys.stream.queue[0].revision == r {
      if delivered && !installing { assert r in Brings(next.stream.channel[sent]); }
    } else if Queued(sys.stream, r) {
      var i :| 0 <= i < |sys.stream.queue| && sys.stream.queue[i].revision == r;
      assert next.stream.queue[i - 1].revision == r;
    } else if OnItsWay(sys.stream, r) {
      var i :| 0 <= i < |sys.stream.channel| && r in Brings(sys.stream.channel[i]);
      assert next.stream.channel[i] == sys.stream.channel[i];
    }
  }

  lemma LoseSafe(rules: Rules, replica: Replica, sys: System, index: nat)
    requires Safe(rules, replica, sys) && index < |sys.stream.channel|
    ensures Safe(rules, replica, Act(rules, replica, sys, Lose(index)))
  {
    var next := Act(rules, replica, sys, Lose(index));
    if !sys.window.scheduler.disposed {
      forall r | 1 <= r <= Current(next)
        ensures Somewhere(next, r)
      {
        assert Somewhere(sys, r);
        if OnItsWay(sys.stream, r) { LoseKeepsTrack(sys.stream, index, r); }
      }
    }
  }

  lemma LoseKeepsTrack(stream: Stream, index: nat, r: nat)
    requires index < |stream.channel| && OnItsWay(stream, r)
    ensures r in Brings(stream.channel[index])
         || OnItsWay(stream.(channel := stream.channel[..index] + stream.channel[index + 1..]), r)
  {
    var rest := stream.channel[..index] + stream.channel[index + 1..];
    var i :| 0 <= i < |stream.channel| && r in Brings(stream.channel[i]);
    if i != index { assert rest[if i < index then i else i - 1] == stream.channel[i]; }
  }

  /** A step of the window that consumes no message. */
  lemma SteppedSafe(rules: Rules, replica: Replica, sys: System, step: Step<AppState, FrontendUpdate>)
    requires Safe(rules, replica, sys) && !step.Deliver?
    requires Genuine(sys.past, step) && Enabled(sys.window, step) && sys.clock <= step.now
    ensures Safe(rules, replica, Stepped(replica, sys, step))
  {
    var next := Stepped(replica, sys, step);
    StepKeepsCopy(Ap(replica), sys.past, sys.window, step, sys.received);
    StepSound(Ap(replica), sys.window, step, sys.clock);
    StepAdvances(Ap(replica), sys.window, step);
    if !next.window.scheduler.disposed {
      forall r | 1 <= r <= Current(next)
        ensures Somewhere(next, r)
      {
        assert Somewhere(sys, r);
        StepAccounts(Ap(replica), sys.past, sys.window, step, sys.received, r);
      }
    }
  }

  lemma HearSafe(rules: Rules, replica: Replica, sys: System, now: int)
    requires Safe(rules, replica, sys) && Able(sys, Hear(now))
    ensures Safe(rules, replica, Act(rules, replica, sys, Hear(now)))
  {
    var next := Act(rules, replica, sys, Hear(now));
    var note := sys.stream.channel[0];
    assert ValidMessage(sys.past, note);
    StepKeepsCopy(Ap(replica), sys.past, sys.window, Deliver(note, now), sys.received);
    StepSound(Ap(replica), sys.window, Deliver(note, now), sys.clock);
    StepAdvances(Ap(replica), sys.window, Deliver(note, now));
    if !next.window.scheduler.disposed {
      forall r | 1 <= r <= Current(next)
        ensures Somewhere(next, r)
      {
        assert Somewhere(sys, r);
        StepAccounts(Ap(replica), sys.past, sys.window, Deliver(note, now), sys.received, r);
        if OnItsWay(sys.stream, r) && r !in Brings(note) {
          var i :| 0 <= i < |sys.stream.channel| && r in Brings(sys.stream.channel[i]);
          assert next.stream.channel[i - 1] == sys.stream.channel[i];
        }
      }
    }
  }

  lemma AnswerSafe(rules: Rules, replica: Replica, sys: System, index: nat, now: int)
    requires Safe(rules, replica, sys) && Able(sys, Answer(index, now))
    ensures Safe(rules, replica, Act(rules, replica, sys, Answer(index, now)))
  {
    var pull := sys.pulls[index];
    assert WasState(sys.past, pull.revision, pull.state);
    var rest := sys.(pulls := sys.pulls[..index] + sys.pulls[index + 1..], clock := now);
    if !sys.window.scheduler.disposed {
      forall r | 1 <= r <= Current(sys)
        ensures Somewhere(rest, r)
      {
        assert Somewhere(sys, r);
      }
    }
    assert Safe(rules, replica, rest);
    var step := AnswerStep(sys.window, pull, now);
    if step.Some? { SteppedSafe(rules, replica, rest, step.value); }
  }

  lemma ActSafe(rules: Rules, replica: Replica, sys: System, action: Action)
    requires Agrees(replica, rules) && Safe(rules, replica, sys) && Able(sys, action)
    ensures Safe(rules, replica, Act(rules, replica, sys, action))
  {
    match action
    case Emit(event) => EmitSafe(rules, replica, sys, event);
    case Broadcast => BroadcastSafe(rules, replica, sys);
    case Poison(damaged) => PoisonSafe(rules, replica, sys, damaged);
    case Overflow => OverflowSafe(rules, replica, sys);
    case Forward(delivered, installing) => ForwardSafe(rules, replica, sys, delivered, installing);
    case Lose(index) => LoseSafe(rules, replica, sys, index);
    case Hear(now) => HearSafe(rules, replica, sys, now);
    case Ask(attempt) =>
      assert forall r :: Somewhere(sys, r) ==> Somewhere(Act(rules, replica, sys, Ask(attempt)), r);
    case Answer(index, now) => AnswerSafe(rules, replica, sys, index, now);
    case Refuse(now) => SteppedSafe(rules, replica, sys, Ended(None, now));
    case Fire(now) => SteppedSafe(rules, replica, sys, Fired(now));
    case ThrowAway(now) => SteppedSafe(rules, replica, sys, Dispose(now));
  }

  // ── Runs ──────────────────────────────────────────────────────────────────

  /** `trace` is a run: each system is what its action makes of the one before. */
  ghost predicate IsRun(rules: Rules, replica: Replica, trace: seq<System>, actions: seq<Action>) {
    && |trace| == |actions| + 1
    && forall i :: 0 <= i < |actions| ==>
         && |trace[i].past.states| > 0 && Able(trace[i], actions[i])
         && trace[i + 1] == Act(rules, replica, trace[i], actions[i])
  }

  lemma {:induction false} RunsAreSafe(rules: Rules, replica: Replica, initial: AppState, blank: AppState, can: bool,
                                       trace: seq<System>, actions: seq<Action>, i: nat)
    requires Agrees(replica, rules)
    requires IsRun(rules, replica, trace, actions) && trace[0] == Start(initial, blank, can)
    requires i < |trace|
    ensures Safe(rules, replica, trace[i])
  {
    if i > 0 {
      RunsAreSafe(rules, replica, initial, blank, can, trace, actions, i - 1);
      ActSafe(rules, replica, trace[i - 1], actions[i - 1]);
    }
  }

  /** The events up to a revision, where none of it was damage. */
  ghost function Values(events: seq<Option<AppEvent>>): seq<AppEvent>
    requires forall k :: 0 <= k < |events| ==> events[k].Some?
  {
    seq(|events|, k requires 0 <= k < |events| => events[k].value)
  }

  lemma {:induction false} StateIsFold(rules: Rules, sys: System, r: nat)
    requires Recorded(rules, sys) && r < |sys.past.states|
    requires forall k :: 0 <= k < r ==> sys.events[k].Some?
    ensures sys.past.states[r] == ReducedRun(rules, sys.past.states[0], Values(sys.events[..r]))
  {
    if r > 0 {
      StateIsFold(rules, sys, r - 1);
      var values := Values(sys.events[..r]);
      assert values[..r - 1] == Values(sys.events[..r - 1]);
    }
  }

  lemma {:induction false} StartIsKept(rules: Rules, replica: Replica, trace: seq<System>, actions: seq<Action>, i: nat)
    requires IsRun(rules, replica, trace, actions) && |trace[0].past.states| > 0 && i < |trace|
    ensures |trace[i].past.states| > 0 && trace[i].past.states[0] == trace[0].past.states[0]
  {
    if i > 0 { StartIsKept(rules, replica, trace, actions, i - 1); }
  }

  /**
   End-to-end safety. In every run, however events, losses, lags, snapshots, late replies, timeouts
   and disposal interleave, a window at revision `r` shows the core's state at revision `r`, which is
   the fold of the first `r` events where none of them was damage to the core's own state.
   */
  lemma {:induction false} WindowShowsCoreState(rules: Rules, replica: Replica, initial: AppState, blank: AppState, can: bool,
                                                trace: seq<System>, actions: seq<Action>, i: nat)
    requires Agrees(replica, rules)
    requires IsRun(rules, replica, trace, actions) && trace[0] == Start(initial, blank, can)
    requires i < |trace| && trace[i].window.copy.revision.Some?
    ensures var sys := trace[i]; var r := sys.window.copy.revision.value;
      && r < |sys.past.states| && sys.window.copy.store == sys.past.states[r]
      && r <= |sys.events|
      && ((forall k :: 0 <= k < r ==> sys.events[k].Some?) ==>
            sys.window.copy.store == ReducedRun(rules, initial, Values(sys.events[..r])))
  {
    RunsAreSafe(rules, replica, initial, blank, can, trace, actions, i);
    StartIsKept(rules, replica, trace, actions, i);
    var sys := trace[i];
    var r := sys.window.copy.revision.value;
    if forall k :: 0 <= k < r ==> sys.events[k].Some? {
      StateIsFold(rules, sys, r);
    }
  }

  /** Never back to an older revision, and nothing at all once thrown away. */
  ghost predicate Advances(before: Window, after: Window) {
    && (before.copy.revision.Some? ==> after.copy.revision.Some? && before.copy.revision.value <= after.copy.revision.value)
    && (before.scheduler.disposed ==> after.scheduler.disposed && after.copy == before.copy)
  }

  lemma ActAdvances(rules: Rules, replica: Replica, sys: System, action: Action)
    requires |sys.past.states| > 0 && Able(sys, action)
    ensures Advances(sys.window, Act(rules, replica, sys, action).window)
  {
    match action
    case Hear(now) => StepAdvances(Ap(replica), sys.window, Deliver(sys.stream.channel[0], now));
    case Answer(index, now) =>
      var step := AnswerStep(sys.window, sys.pulls[index], now);
      if step.Some? { StepAdvances(Ap(replica), sys.window, step.value); }
    case Refuse(now) => StepAdvances(Ap(replica), sys.window, Ended(None, now));
    case Fire(now) => StepAdvances(Ap(replica), sys.window, Fired(now));
    case ThrowAway(now) => StepAdvances(Ap(replica), sys.window, Dispose(now));
    case _ =>
  }

  lemma RunStepAdvances(rules: Rules, replica: Replica, trace: seq<System>, actions: seq<Action>, j: nat)
    requires IsRun(rules, replica, trace, actions) && j < |actions|
    ensures Advances(trace[j].window, trace[j + 1].window)
  {
    ActAdvances(rules, replica, trace[j], actions[j]);
  }

  lemma {:induction false} WindowsAdvance(windows: seq<Window>, i: nat, j: nat)
    requires i <= j < |windows|
    requires forall k :: 0 <= k < |windows| - 1 ==> Advances(windows[k], windows[k + 1])
    ensures Advances(windows[i], windows[j])
  {
    if i < j {
      WindowsAdvance(windows, i, j - 1);
      assert Advances(windows[j - 1], windows[j - 1 + 1]);
    }
  }

  /** In every run the window never goes back to an older revision, and one thrown away never changes again. */
  lemma {:induction false} WindowNeverGoesBack(rules: Rules, replica: Replica, trace: seq<System>, actions: seq<Action>, i: nat, j: nat)
    requires IsRun(rules, replica, trace, actions) && i <= j < |trace|
    ensures Advances(trace[i].window, trace[j].window)
  {
    var windows := seq(|trace|, k requires 0 <= k < |trace| => trace[k].window);
    forall k | 0 <= k < |windows| - 1
      ensures Advances(windows[k], windows[k + 1])
    {
      RunStepAdvances(rules, replica, trace, actions, k);
    }
    WindowsAdvance(windows, i, j);
  }

  /** Nothing is queued, owed or on its way to the window. */
  ghost predicate Quiet(sys: System) {
    sys.inTransit.None? && sys.stream.queue == [] && !sys.stream.lagged && sys.stream.channel == []
  }

  /**
   No silent loss, end to end. When everything sent has arrived and the newest revision was not
   itself lost on the way, the window is exactly at the core's state or it knows that it is not;
   and if it knows, it is recovering or has reported that it gave up.
   */
  lemma {:induction false} QuietWindowIsCurrentOrKnows(rules: Rules, replica: Replica, initial: AppState, blank: AppState, can: bool,
                                                       trace: seq<System>, actions: seq<Action>, i: nat)
    requires Agrees(replica, rules)
    requires IsRun(rules, replica, trace, actions) && trace[0] == Start(initial, blank, can) && i < |trace|
    requires |trace[i].past.states| > 0
    requires Quiet(trace[i]) && Current(trace[i]) !in trace[i].unsent
    requires !trace[i].window.scheduler.disposed && trace[i].window.copy.revision.Some?
    ensures var sys := trace[i]; var copy := sys.window.copy;
      && (HasGap(copy) <==> copy.revision.value != Current(sys))
      && (!HasGap(copy) ==> copy.store == sys.past.states[Current(sys)])
      && (HasGap(copy) && sys.window.scheduler.canResnapshot ==> Recovering(sys.window.scheduler) || GaveUp(sys.window.scheduler))
  {
    RunsAreSafe(rules, replica, initial, blank, can, trace, actions, i);
    var sys := trace[i];
    var copy := sys.window.copy;
    var current := Current(sys);
    GapIffNewerReceived(sys.past, copy, sys.received);
    if current > 0 { assert Somewhere(sys, current); }
    if copy.revision.value < current {
      assert Accounted(copy, current);
    } else {
      RunsReceivePast(rules, replica, initial, blank, can, trace, actions, i);
    }
  }

  /** A recovery answered with the core's present state closes every gap and leaves the window at that state. */
  lemma AnsweredRecoveryIsCurrent(rules: Rules, replica: Replica, sys: System, index: nat, now: int)
    requires Safe(rules, replica, sys) && ReceivedInPast(sys) && Able(sys, Answer(index, now))
    requires !sys.window.scheduler.disposed && sys.pulls[index].revision == Current(sys)
    requires AnswerStep(sys.window, sys.pulls[index], now).Some?
    ensures var copy := Act(rules, replica, sys, Answer(index, now)).window.copy;
      copy.revision == Some(Current(sys)) && copy.store == sys.past.states[Current(sys)] && !HasGap(copy)
  {
    var pull := sys.pulls[index];
    assert WasState(sys.past, pull.revision, pull.state);
    var step := AnswerStep(sys.window, pull, now).value;
    StepKeepsCopy(Ap(replica), sys.past, sys.window, step, sys.received);
    DrainedRun(Ap(replica), Hydrated(sys.window.copy, pull.revision, pull.state));
    GapIffNewerReceived(sys.past, Do(Ap(replica), sys.window, step).copy, sys.received);
  }

  /**
   Recovery is paced in every run: an attempt and a timer never coexist, every request comes at
   least the cooldown after whatever settled before it and one, two or four seconds after the first,
   second or third failure in a row, which is exactly when its timer is due, and giving up is reported
   exactly after each fourth failure in a row, so there are never more than that without a report.
   */
  lemma {:induction false} RecoveriesArePaced(rules: Rules, replica: Replica, initial: AppState, blank: AppState, can: bool,
                                              trace: seq<System>, actions: seq<Action>, i: nat)
    requires Agrees(replica, rules)
    requires IsRun(rules, replica, trace, actions) && trace[0] == Start(initial, blank, can) && i < |trace|
    ensures var s := trace[i].window.scheduler; var log := s.recoveries;
      && !(s.inFlight && s.timer.Some?)
      && SpacedOut(log) && BacksOff(log) && ReportsFourFailures(log) && Streak(log) < 4
      && (EndsInFailure(log) && !s.disposed ==> s.timer == Some(log[|log| - 1].at + WaitAfter(Streak(log))))
    ensures [WaitAfter(1), WaitAfter(2), WaitAfter(3)] == [1_000, 2_000, 4_000]
  {
    RunsAreSafe(rules, replica, initial, blank, can, trace, actions, i);
    var s := trace[i].window.scheduler;
    PacedRecord(s.recoveries);
    if EndsInFailure(s.recoveries) && !s.disposed { FailureSetsTimer(s, trace[i].clock); }
  }

  /** Nothing newer than the core's own revision is ever received. */
  ghost predicate ReceivedInPast(sys: System) {
    |sys.past.states| > 0 && forall r :: r in sys.received ==> r <= Current(sys)
  }

  lemma ActReceivesPast(rules: Rules, replica: Replica, sys: System, action: Action)
    requires ReceivedInPast(sys) && Able(sys, action) && Safe(rules, replica, sys)
    ensures ReceivedInPast(Act(rules, replica, sys, action))
  {
    if action.Hear? { assert ValidMessage(sys.past, sys.stream.channel[0]); }
  }

  lemma {:induction false} RunsReceivePast(rules: Rules, replica: Replica, initial: AppState, blank: AppState, can: bool,
                                           trace: seq<System>, actions: seq<Action>, i: nat)
    requires Agrees(replica, rules)
    requires IsRun(rules, replica, trace, actions) && trace[0] == Start(initial, blank, can) && i < |trace|
    ensures ReceivedInPast(trace[i])
  {
    if i > 0 {
      RunsReceivePast(rules, replica, initial, blank, can, trace, actions, i - 1);
      RunsAreSafe(rules, replica, initial, blank, can, trace, actions, i - 1);
      ActReceivesPast(rules, replica, trace[i - 1], actions[i - 1]);
    }
  }

  lemma ActStillRecovering(rules: Rules, replica: Replica, sys: System, action: Action)
    requires Safe(rules, replica, sys) && Able(sys, action)
    ensures StillRecovering(sys.window.scheduler, Act(rules, replica, sys, action).window.scheduler)
  {
    match action
    case Hear(now) => StepStillRecovering(Ap(replica), sys.window, Deliver(sys.stream.channel[0], now));
    case Answer(index, now) =>
      var step := AnswerStep(sys.window, sys.pulls[index], now);
      if step.Some? { StepStillRecovering(Ap(replica), sys.window, step.value); }
    case Refuse(now) => StepStillRecovering(Ap(replica), sys.window, Ended(None, now));
    case Fire(now) => StepStillRecovering(Ap(replica), sys.window, Fired(now));
    case ThrowAway(now) => StepStillRecovering(Ap(replica), sys.window, Dispose(now));
    case _ =>
  }

  lemma {:induction false} RunStepStillRecovering(rules: Rules, replica: Replica, initial: AppState, blank: AppState, can: bool,
                                                  trace: seq<System>, actions: seq<Action>, j: nat)
    requires Agrees(replica, rules)
    requires IsRun(rules, replica, trace, actions) && trace[0] == Start(initial, blank, can) && j < |actions|
    ensures StillRecovering(trace[j].window.scheduler, trace[j + 1].window.scheduler)
    ensures trace[j].window.scheduler.disposed ==> trace[j + 1].window.scheduler.disposed
  {
    RunsAreSafe(rules, replica, initial, blank, can, trace, actions, j);
    ActStillRecovering(rules, replica, trace[j], actions[j]);
    RunStepAdvances(rules, replica, trace, actions, j);
  }

  lemma {:induction false} SchedulersStillRecovering(schedulers: seq<Scheduler>, i: nat, j: nat)
    requires i <= j < |schedulers|
    requires forall k :: 0 <= k < |schedulers| - 1 ==>
      StillRecovering(schedulers[k], schedulers[k + 1]) && (schedulers[k].disposed ==> schedulers[k + 1].disposed)
    ensures StillRecovering(schedulers[i], schedulers[j]) && (schedulers[i].disposed ==> schedulers[j].disposed)
    decreases j - i
  {
    if i < j {
      SchedulersStillRecovering(schedulers, i, j - 1);
      assert StillRecovering(schedulers[j - 1], schedulers[j - 1 + 1]);
      StillRecoveringOn(schedulers[i], schedulers[j - 1], schedulers[j]);
    }
  }

  /** From one point of a run to a later one the record has grown, or the attempt is still there. */
  lemma {:induction false} RunStillRecovering(rules: Rules, replica: Replica, initial: AppState, blank: AppState, can: bool,
                                              trace: seq<System>, actions: seq<Action>, i: nat, j: nat)
    requires Agrees(replica, rules)
    requires IsRun(rules, replica, trace, actions) && trace[0] == Start(initial, blank, can) && i <= j < |trace|
    ensures StillRecovering(trace[i].window.scheduler, trace[j].window.scheduler)
  {
    var schedulers := seq(|trace|, k requires 0 <= k < |trace| => trace[k].window.scheduler);
    forall k | 0 <= k < |schedulers| - 1
      ensures StillRecovering(schedulers[k], schedulers[k + 1]) && (schedulers[k].disposed ==> schedulers[k + 1].disposed)
    {
      RunStepStillRecovering(rules, replica, initial, blank, can, trace, actions, k);
    }
    SchedulersStillRecovering(schedulers, i, j);
  }

  /** The `i`-th action brings the window news, a message it does not have or a first snapshot, and leaves it with a gap. */
  ghost predicate LeavesGap(trace: seq<System>, actions: seq<Action>, i: nat)
    requires |trace| == |actions| + 1
  {
    && i < |actions| && HasGap(trace[i + 1].window.copy)
    && match actions[i]
       case Hear(_) => trace[i].stream.channel != [] && !Stale(trace[i].window, trace[i].stream.channel[0])
       case Answer(index, _) => index < |trace[i].pulls| && trace[i].pulls[index].attempt.None?
       case _ => false
  }

  /**
   In every run: from any news that leaves a gap on, for as long as the window is in use and has a gap, an attempt
   is under way or scheduled, or its failure has been reported since.
   */
  lemma {:induction false} GapIsRecoveredOrReported(rules: Rules, replica: Replica, initial: AppState, blank: AppState, can: bool,
                                                    trace: seq<System>, actions: seq<Action>, news: nat, j: nat)
    requires Agrees(replica, rules)
    requires IsRun(rules, replica, trace, actions) && trace[0] == Start(initial, blank, can)
    requires LeavesGap(trace, actions, news) && news < j < |trace|
    requires var s := trace[j].window.scheduler; s.canResnapshot && !s.disposed && HasGap(trace[j].window.copy)
    ensures var s := trace[j].window.scheduler; var log := trace[news + 1].window.scheduler.recoveries;
      Recovering(s) || (log < s.recoveries && GaveUp(s))
  {
    RunsAreSafe(rules, replica, initial, blank, can, trace, actions, news);
    RunsAreSafe(rules, replica, initial, blank, can, trace, actions, j);
    RunStillRecovering(rules, replica, initial, blank, can, trace, actions, news + 1, j);
    RunStillRecovering(rules, replica, initial, blank, can, trace, actions, news, j);
    WindowNeverGoesBack(rules, replica, trace, actions, news + 1, j);
    WindowNeverGoesBack(rules, replica, trace, actions, news, j);
    var before := trace[news];
    if actions[news].Hear? {
      ReceivedSound(Ap(replica), before.window, before.stream.channel[0], before.clock, actions[news].now);
      assert trace[news + 1].window == Received(Ap(replica), before.window, before.stream.channel[0], actions[news].now);
    } else {
      var pull := before.pulls[actions[news].index];
      ReplacedSound(Ap(replica), before.window, pull.revision, pull.state, before.clock, actions[news].now);
      assert trace[news + 1].window == Replaced(Ap(replica), before.window, pull.revision, pull.state, actions[news].now);
    }
  }
}
