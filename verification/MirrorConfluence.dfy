/** Where the window's mirror ends does not depend on the order or the repetition of what it was sent. */
module MirrorConfluence {
  import opened Common
  import opened Mirrors
  import opened MirrorRuns

  /** Messages in the order they arrive, each with the time it does. */
  type Deliveries<S, U> = seq<(Message<S, U>, int)>

  ghost function AfterAll<S, U>(ap: (S, U) -> S, m: Mirror<S, U>, ds: Deliveries<S, U>): Mirror<S, U> {
    if ds == [] then m
    else Received(ap, AfterAll(ap, m, ds[..|ds| - 1]), ds[|ds| - 1].0, ds[|ds| - 1].1)
  }

  ghost function EventsIn<S, U>(ds: Deliveries<S, U>): set<nat> {
    set i | 0 <= i < |ds| && ds[i].0.Event? :: ds[i].0.revision
  }

  ghost function SnapshotsIn<S, U>(ds: Deliveries<S, U>): set<nat> {
    set i | 0 <= i < |ds| && ds[i].0.Snapshot? :: ds[i].0.revision
  }

  /** An overflow let go of an event that is still to come. */
  ghost predicate Lost<S, U>(c: Copy<S, U>) {
    c.lostThrough.Some? && (c.revision.Some? ==> c.lostThrough.value > c.revision.value)
  }

  /**
   The one place a set of messages leads to: from the newest snapshot along the events that follow
   it without a break, with every later event held.
   */
  ghost predicate Settles<S, U>(c: Copy<S, U>, events: set<nat>, snapshots: set<nat>) {
    if snapshots == {} then c.revision.None? && c.pending.Keys == events
    else
      && c.revision.Some?
      && Newest(snapshots) <= c.revision.value
      && (forall r :: Newest(snapshots) < r <= c.revision.value ==> r in events)
      && c.revision.value + 1 !in events
      && (forall r :: r in c.pending <==> r in events && r > c.revision.value)
  }

  // ── What every delivery keeps, overflow included ──────────────────────────

  /** The revision was reached from the newest snapshot along events that were sent. */
  ghost predicate Reached<S, U>(c: Copy<S, U>, events: set<nat>, snapshots: set<nat>) {
    if snapshots == {} then c.revision.None?
    else
      && c.revision.Some? && Newest(snapshots) <= c.revision.value
      && forall r :: Newest(snapshots) < r <= c.revision.value ==> r in events
  }

  ghost predicate Tracks<S, U>(c: Copy<S, U>, events: set<nat>, snapshots: set<nat>) {
    AtRest(c) && Accounts(c, events) && Reached(c, events, snapshots)
  }

  /** Whatever has been received, a copy that lost nothing still to come is where its messages lead. */
  lemma TracksSettles<S, U>(c: Copy<S, U>, events: set<nat>, snapshots: set<nat>)
    requires Tracks(c, events, snapshots) && !Lost(c)
    ensures Settles(c, events, snapshots)
  {
    forall r | r in events
      ensures Accounted(c, r)
    {
    }
    assert forall r :: r in c.pending <==> r in c.pending.Keys;
    if c.revision.Some? {
      var next := c.revision.value + 1;
      assert next in events ==> Accounted(c, next);
    }
  }

  lemma TakenReaches<S, U>(c: Copy<S, U>, d: Copy<S, U>, events: set<nat>, snapshots: set<nat>)
    requires c.revision.Some? && d.revision.Some? && RunTaken(c, d) && c.pending.Keys <= events
    requires snapshots != {} && Reached(c, events, snapshots)
    ensures Reached(d, events, snapshots)
  {
    forall r | Newest(snapshots) < r <= d.revision.value
      ensures r in events
    {
      if r > c.revision.value { assert r in c.pending.Keys; }
    }
  }

  lemma DrainTracks<S, U>(ap: (S, U) -> S, c: Copy<S, U>, events: set<nat>, snapshots: set<nat>)
    requires c.revision.Some? && |c.pending| <= MAX_PENDING_EVENTS && Accounts(c, events) && Reached(c, events, snapshots)
    requires forall r :: r in c.pending ==> r > c.revision.value
    ensures Tracks(Drained(ap, c), events, snapshots)
  {
    DrainedRun(ap, c);
    DrainRests(ap, c, events);
    TakenReaches(c, Drained(ap, c), events, snapshots);
  }

  lemma NextAccounts<S, U>(c: Copy<S, U>, next: Copy<S, U>, events: set<nat>)
    requires c.revision.Some? && Accounts(c, events)
    requires next.revision == Some(c.revision.value + 1) && next.pending == c.pending && next.lostThrough == c.lostThrough
    ensures Accounts(next, events + {c.revision.value + 1})
  {
    forall k | k in events + {c.revision.value + 1}
      ensures Accounted(next, k)
    {
      if k in events { assert Accounted(c, k); }
    }
  }

  lemma NextReaches<S, U>(c: Copy<S, U>, next: Copy<S, U>, events: set<nat>, snapshots: set<nat>)
    requires c.revision.Some? && Reached(c, events, snapshots) && next.revision == Some(c.revision.value + 1)
    ensures Reached(next, events + {c.revision.value + 1}, snapshots)
  {
  }

  lemma NextTracks<S, U>(ap: (S, U) -> S, c: Copy<S, U>, update: U, events: set<nat>, snapshots: set<nat>)
    requires c.revision.Some? && Tracks(c, events, snapshots)
    ensures Tracks(Drained(ap, Advanced(ap, c, update)), events + {c.revision.value + 1}, snapshots)
  {
    var next := Advanced(ap, c, update);
    NextAccounts(c, next, events);
    NextReaches(c, next, events, snapshots);
    DrainTracks(ap, next, events + {c.revision.value + 1}, snapshots);
  }

  lemma EventTracks<S, U>(ap: (S, U) -> S, m: Mirror<S, U>, r: nat, update: U, now: int, events: set<nat>, snapshots: set<nat>)
    requires Tracks(m.copy, events, snapshots) && !m.scheduler.disposed
    ensures Tracks(Received(ap, m, Event(r, update), now).copy, events + {r}, snapshots)
  {
    var c := m.copy;
    if c.revision.None? || r > c.revision.value + 1 {
      HoldAtRest(c, r, update);
      HoldAccounts(c, r, update, events);
    } else if r == c.revision.value + 1 {
      NextTracks(ap, c, update, events, snapshots);
    } else {
      forall k | k in events + {r}
        ensures Accounted(c, k)
      {
        if k != r { assert Accounted(c, k); }
      }
    }
  }

  lemma NewestGrows(snapshots: set<nat>, r: nat)
    ensures Newest(snapshots + {r}) == if snapshots == {} || r > Newest(snapshots) then r else Newest(snapshots)
  {
    assert r in snapshots + {r};
    if snapshots != {} { assert Newest(snapshots) in snapshots + {r}; }
  }

  lemma SnapshotTracks<S, U>(ap: (S, U) -> S, m: Mirror<S, U>, r: nat, state: S, now: int, events: set<nat>, snapshots: set<nat>)
    requires Tracks(m.copy, events, snapshots) && !m.scheduler.disposed
    ensures Tracks(Received(ap, m, Snapshot(r, state), now).copy, events, snapshots + {r})
  {
    var c := m.copy;
    NewestGrows(snapshots, r);
    if c.revision.None? || r >= c.revision.value { HydratedTracks(ap, c, r, state, events, snapshots + {r}); }
  }

  lemma HydratedTracks<S, U>(ap: (S, U) -> S, c: Copy<S, U>, r: nat, state: S, events: set<nat>, snapshots: set<nat>)
    requires AtRest(c) && Accounts(c, events) && (c.revision.Some? ==> c.revision.value <= r)
    requires snapshots != {} && Newest(snapshots) == r
    ensures Tracks(Drained(ap, Hydrated(c, r, state)), events, snapshots)
  {
    var hydrated := Hydrated(c, r, state);
    SmallerBuffer(c, hydrated);
    forall k | k in events
      ensures Accounted(hydrated, k)
    {
      assert Accounted(c, k);
    }
    DrainTracks(ap, hydrated, events, snapshots);
  }

  ghost function EventOf<S, U>(message: Message<S, U>): set<nat> {
    if message.Event? then {message.revision} else {}
  }

  ghost function SnapshotOf<S, U>(message: Message<S, U>): set<nat> {
    if message.Snapshot? then {message.revision} else {}
  }

  lemma MessageTracks<S, U>(ap: (S, U) -> S, m: Mirror<S, U>, message: Message<S, U>, now: int, events: set<nat>, snapshots: set<nat>)
    requires Tracks(m.copy, events, snapshots) && !m.scheduler.disposed
    ensures Tracks(Received(ap, m, message, now).copy, events + EventOf(message), snapshots + SnapshotOf(message))
  {
    match message
    case Event(r, update) =>
      EventTracks(ap, m, r, update, now, events, snapshots);
      assert snapshots + {} == snapshots;
    case Snapshot(r, state) =>
      SnapshotTracks(ap, m, r, state, now, events, snapshots);
      assert events + {} == events;
  }

  /** No message disposes of a mirror. */
  lemma StaysInUse<S, U>(ap: (S, U) -> S, m: Mirror<S, U>, message: Message<S, U>, now: int)
    requires !m.scheduler.disposed
    ensures !Received(ap, m, message, now).scheduler.disposed
  {
  }

  lemma {:induction false} DeliveriesTrack<S, U>(ap: (S, U) -> S, m: Mirror<S, U>, ds: Deliveries<S, U>)
    requires Tracks(m.copy, {}, {}) && !m.scheduler.disposed
    ensures !AfterAll(ap, m, ds).scheduler.disposed
    ensures Tracks(AfterAll(ap, m, ds).copy, EventsIn(ds), SnapshotsIn(ds))
    decreases |ds|
  {
    if ds == [] {
      assert EventsIn(ds) == {} && SnapshotsIn(ds) == {};
    } else {
      var before, message, now := ds[..|ds| - 1], ds[|ds| - 1].0, ds[|ds| - 1].1;
      LastDelivery(ds);
      DeliveriesTrack(ap, m, before);
      var m' := AfterAll(ap, m, before);
      MessageTracks(ap, m', message, now, EventsIn(before), SnapshotsIn(before));
      StaysInUse(ap, m', message, now);
    }
  }

  /** Any deliveries at all lead to the one place their set determines, or the mirror knows of a loss still to come. */
  lemma DeliveriesSettle<S, U>(ap: (S, U) -> S, can: bool, store: S, ds: Deliveries<S, U>)
    ensures var c := AfterAll(ap, Initial(can, store), ds).copy;
      Lost(c) || Settles(c, EventsIn(ds), SnapshotsIn(ds))
  {
    var m: Mirror<S, U> := Initial(can, store);
    DeliveriesTrack(ap, m, ds);
    var c := AfterAll(ap, m, ds).copy;
    if !Lost(c) { TracksSettles(c, EventsIn(ds), SnapshotsIn(ds)); }
  }

  lemma LastDelivery<S, U>(ds: Deliveries<S, U>)
    requires ds != []
    ensures EventsIn(ds) == EventsIn(ds[..|ds| - 1]) + EventOf(ds[|ds| - 1].0)
    ensures SnapshotsIn(ds) == SnapshotsIn(ds[..|ds| - 1]) + SnapshotOf(ds[|ds| - 1].0)
  {
    var before := ds[..|ds| - 1];
    assert forall i :: 0 <= i < |before| ==> before[i] == ds[i];
    forall r | r in EventsIn(ds)
      ensures r in EventsIn(before) + EventOf(ds[|ds| - 1].0)
    {
      var i :| 0 <= i < |ds| && ds[i].0.Event? && ds[i].0.revision == r;
      if i < |before| { assert before[i].0.Event? && before[i].0.revision == r; }
    }
    forall r | r in SnapshotsIn(ds)
      ensures r in SnapshotsIn(before) + SnapshotOf(ds[|ds| - 1].0)
    {
      var i :| 0 <= i < |ds| && ds[i].0.Snapshot? && ds[i].0.revision == r;
      if i < |before| { assert before[i].0.Snapshot? && before[i].0.revision == r; }
    }
  }

  /** A set of messages leads to one place only. */
  lemma SettlesOnce<S, U>(h: History<S, U>, c: Copy<S, U>, d: Copy<S, U>, events: set<nat>, snapshots: set<nat>)
    requires Settles(c, events, snapshots) && Settles(d, events, snapshots)
    requires Faithful(h, c) && Faithful(h, d)
    ensures c.revision == d.revision && c.pending == d.pending
    ensures c.revision.Some? ==> c.store == d.store
  {
    if c.revision.Some? {
      var afterC, afterD := c.revision.value + 1, d.revision.value + 1;
      assert afterC !in events && afterD !in events;
      assert afterC <= d.revision.value ==> afterC in events;
      assert afterD <= c.revision.value ==> afterD in events;
    } else {
      assert c.pending.Keys == d.pending.Keys;
    }
    forall r | r in c.pending
      ensures r in d.pending && c.pending[r] == d.pending[r]
    {
      assert r in c.pending.Keys && r in d.pending.Keys;
      assert Published(h, r, c.pending[r]) && Published(h, r, d.pending[r]);
    }
    forall r | r in d.pending
      ensures r in c.pending
    {
      assert r in d.pending.Keys && r in c.pending.Keys;
    }
  }

  ghost predicate AllValid<S, U>(h: History<S, U>, ds: Deliveries<S, U>) {
    forall i :: 0 <= i < |ds| ==> ValidMessage(h, ds[i].0)
  }

  lemma {:induction false} DeliveriesFaithful<S, U>(ap: (S, U) -> S, h: History<S, U>, m: Mirror<S, U>, ds: Deliveries<S, U>, received: set<nat>)
    requires Consistent(ap, h) && AllValid(h, ds) && Intact(h, m.copy, received) && !m.scheduler.disposed
    ensures Intact(h, AfterAll(ap, m, ds).copy, received + EventsIn(ds))
    ensures !AfterAll(ap, m, ds).scheduler.disposed
    decreases |ds|
  {
    if ds == [] {
      assert received + EventsIn(ds) == received;
    } else {
      var before, message, now := ds[..|ds| - 1], ds[|ds| - 1].0, ds[|ds| - 1].1;
      DeliveriesFaithful(ap, h, m, before, received);
      LastDelivery(ds);
      var m' := AfterAll(ap, m, before);
      ReceivedKeeps(ap, h, m', message, received + EventsIn(before), now);
      StaysInUse(ap, m', message, now);
      assert received + EventsIn(ds) == received + EventsIn(before) + EventOf(message);
      assert message.Snapshot? ==> received + EventsIn(ds) == received + EventsIn(before);
    }
  }

  /**
   Confluence: two mirrors sent the same messages, in any order, at any times and any number of
   times each, end at the same revision with the same state and the same events held back, as long as neither ends
   with a loss still to come.
   */
  lemma {:induction false} OrderDoesNotMatter<S, U>(ap: (S, U) -> S, h: History<S, U>, can: bool, s1: S, s2: S,
                                 ds: Deliveries<S, U>, es: Deliveries<S, U>)
    requires Consistent(ap, h) && AllValid(h, ds) && AllValid(h, es)
    requires EventsIn(ds) == EventsIn(es) && SnapshotsIn(ds) == SnapshotsIn(es)
    requires !Lost(AfterAll(ap, Initial(can, s1), ds).copy) && !Lost(AfterAll(ap, Initial(can, s2), es).copy)
    ensures var c, d := AfterAll(ap, Initial(can, s1), ds).copy, AfterAll(ap, Initial(can, s2), es).copy;
      c.revision == d.revision && c.pending == d.pending && (c.revision.Some? ==> c.store == d.store)
  {
    var m1: Mirror<S, U>, m2: Mirror<S, U> := Initial(can, s1), Initial(can, s2);
    DeliveriesSettle(ap, can, s1, ds);
    DeliveriesSettle(ap, can, s2, es);
    DeliveriesFaithful(ap, h, m1, ds, {});
    DeliveriesFaithful(ap, h, m2, es, {});
    SettlesOnce(h, AfterAll(ap, m1, ds).copy, AfterAll(ap, m2, es).copy, EventsIn(ds), SnapshotsIn(ds));
  }

  /** The mirror is exactly where `n` events and a snapshot lead. */
  ghost predicate Arrived<S, U>(h: History<S, U>, c: Copy<S, U>, n: nat)
    requires n < |h.states|
  {
    c.revision == Some(n) && c.store == h.states[n] && c.pending == map[]
  }

  /**
   Every event from 1 to `n` and at least one snapshot no newer than `n`, in any order and over any overflow, bring the
   mirror to the core's state at `n` exactly when it ends without a gap: what it misses, it knows.
   */
  lemma {:induction false} CompleteDeliveryArrives<S, U>(ap: (S, U) -> S, h: History<S, U>, can: bool, store: S,
                                                        ds: Deliveries<S, U>, n: nat)
    requires Consistent(ap, h) && AllValid(h, ds) && n < |h.states|
    requires forall r: nat :: r in EventsIn(ds) <==> 1 <= r <= n
    requires SnapshotsIn(ds) != {} && forall r :: r in SnapshotsIn(ds) ==> r <= n
    ensures var c := AfterAll(ap, Initial(can, store), ds).copy;
      (Arrived(h, c, n) <==> !HasGap(c)) && (HasGap(c) <==> Lost(c))
  {
    var m: Mirror<S, U> := Initial(can, store);
    DeliveriesTrack(ap, m, ds);
    DeliveriesFaithful(ap, h, m, ds, {});
    var c := AfterAll(ap, m, ds).copy;
    if Lost(c) {
      LossIsGap(c, EventsIn(ds), SnapshotsIn(ds), n);
    } else {
      TracksSettles(c, EventsIn(ds), SnapshotsIn(ds));
      SettledIsComplete(c, EventsIn(ds), SnapshotsIn(ds), n);
    }
  }

  lemma LossIsGap<S, U>(c: Copy<S, U>, events: set<nat>, snapshots: set<nat>, n: nat)
    requires Tracks(c, events, snapshots) && Lost(c) && snapshots != {}
    requires forall r: nat :: r in events ==> r <= n
    ensures HasGap(c) && c.revision != Some(n)
  {
  }

  lemma SettledIsComplete<S, U>(c: Copy<S, U>, events: set<nat>, snapshots: set<nat>, n: nat)
    requires Settles(c, events, snapshots) && !Lost(c) && snapshots != {} && Newest(snapshots) <= n
    requires forall r: nat :: r in events <==> 1 <= r <= n
    ensures c.revision == Some(n) && c.pending == map[] && !HasGap(c)
  {
    var p := c.revision.value;
    assert p > n ==> p in events;
    assert p + 1 !in events;
    assert c.pending.Keys == {};
  }

  // ── When nothing is lost ──────────────────────────────────────────────────

  /** The end of the unbroken run of events from a revision. */
  ghost function RunEnd(events: set<nat>, from: nat): (end: nat)
    ensures from <= end && end + 1 !in events && forall r :: from < r <= end ==> r in events
    decreases |events|
  {
    if from + 1 in events then
      var rest := events - {from + 1};
      var end := RunEnd(rest, from + 1);
      RunExtends(events, rest, from, end);
      end
    else from
  }

  lemma RunExtends(events: set<nat>, rest: set<nat>, from: nat, end: nat)
    requires from + 1 in events && rest == events - {from + 1} && from + 1 <= end && end + 1 !in rest
    requires forall r :: from + 1 < r <= end ==> r in rest
    ensures end + 1 !in events && forall r :: from < r <= end ==> r in events
  {
    forall r | from < r <= end
      ensures r in events
    {
      if r > from + 1 { assert r in rest; }
    }
  }

  /** The events a set of messages leaves waiting, past the place it leads to. */
  ghost function HeldBack(events: set<nat>, snapshots: set<nat>): set<nat> {
    if snapshots == {} then events
    else
      var end := RunEnd(events, Newest(snapshots));
      set r | r in events && r > end
  }

  /** What has been delivered leaves no more events waiting than the mirror holds. */
  ghost predicate FitsBuffer<S, U>(ds: Deliveries<S, U>) {
    |HeldBack(EventsIn(ds), SnapshotsIn(ds))| <= 4_096
  }

  lemma SettledHoldsBack<S, U>(c: Copy<S, U>, events: set<nat>, snapshots: set<nat>)
    requires Settles(c, events, snapshots)
    ensures c.pending.Keys == HeldBack(events, snapshots) && |c.pending| == |HeldBack(events, snapshots)|
  {
    if snapshots != {} {
      var end, p := RunEnd(events, Newest(snapshots)), c.revision.value;
      var afterP, afterEnd := p + 1, end + 1;
      assert afterP !in events && afterEnd !in events;
      assert afterP <= end ==> afterP in events;
      assert afterEnd <= p ==> afterEnd in events;
    }
    assert |c.pending.Keys| == |c.pending|;
  }

  /** A message that leaves no more than fits waiting loses nothing. */
  lemma FittingKeeps<S, U>(ap: (S, U) -> S, m: Mirror<S, U>, message: Message<S, U>, now: int, events: set<nat>, snapshots: set<nat>)
    requires Tracks(m.copy, events, snapshots) && !Lost(m.copy) && !m.scheduler.disposed
    requires |HeldBack(events + EventOf(message), snapshots + SnapshotOf(message))| <= MAX_PENDING_EVENTS
    ensures !Lost(Received(ap, m, message, now).copy)
    ensures m.copy.lostThrough.None? ==> Received(ap, m, message, now).copy.lostThrough.None?
  {
    var c := m.copy;
    TracksSettles(c, events, snapshots);
    if message.Event? {
      var r, update := message.revision, message.update;
      assert snapshots + {} == snapshots;
      if c.revision.None? || r > c.revision.value + 1 {
        HoldFits(c, r, update, events, snapshots);
      } else if r == c.revision.value + 1 {
        DrainedRun(ap, Advanced(ap, c, update));
      }
    } else if c.revision.None? || message.revision >= c.revision.value {
      DrainedRun(ap, Hydrated(c, message.revision, message.state));
    }
  }

  lemma HoldFits<S, U>(c: Copy<S, U>, r: nat, update: U, events: set<nat>, snapshots: set<nat>)
    requires Settles(c, events, snapshots) && |HeldBack(events + {r}, snapshots)| <= MAX_PENDING_EVENTS
    requires c.revision.Some? ==> r > c.revision.value + 1
    ensures Hold(c, r, update).lostThrough == c.lostThrough
  {
    var held := c.(pending := c.pending[r := update]);
    assert held.pending.Keys == c.pending.Keys + {r};
    assert Settles(held, events + {r}, snapshots);
    SettledHoldsBack(held, events + {r}, snapshots);
  }

  /** The `i`-th delivery was a snapshot at least as new as every event before it, or nothing came before. */
  ghost predicate CatchesUp<S, U>(ds: Deliveries<S, U>, i: nat) {
    i <= |ds| && (i > 0 ==> ds[i - 1].0.Snapshot? && forall r :: r in EventsIn(ds[..i]) ==> r <= ds[i - 1].0.revision)
  }

  lemma SnapshotRecovers<S, U>(ap: (S, U) -> S, m: Mirror<S, U>, r: nat, state: S, now: int, events: set<nat>, snapshots: set<nat>)
    requires Tracks(m.copy, events, snapshots) && !m.scheduler.disposed && forall k :: k in events ==> k <= r
    ensures !Lost(Received(ap, m, Snapshot(r, state), now).copy)
  {
    var c := m.copy;
    if c.revision.None? || r >= c.revision.value { DrainedRun(ap, Hydrated(c, r, state)); }
  }

  /**
   Nothing is lost where, from the start or from any snapshot at least as new as everything before it, no point of the
   delivery leaves more events waiting than fit: whatever overflowed before that snapshot, and however many are sent.
   */
  lemma {:induction false} NothingLostAfter<S, U>(ap: (S, U) -> S, can: bool, store: S, ds: Deliveries<S, U>, i: nat)
    requires CatchesUp(ds, i) && forall j :: i <= j <= |ds| ==> FitsBuffer(ds[..j])
    ensures var c := AfterAll(ap, Initial(can, store), ds).copy; !Lost(c) && (i == 0 ==> c.lostThrough.None?)
    decreases |ds|
  {
    if ds != [] {
      var m: Mirror<S, U> := Initial(can, store);
      var n := |ds| - 1;
      var before, message, now := ds[..n], ds[n].0, ds[n].1;
      var m' := AfterAll(ap, m, before);
      LastDelivery(ds);
      DeliveriesTrack(ap, m, before);
      assert ds[..n + 1] == ds;
      if i == n + 1 {
        SnapshotRecovers(ap, m', message.revision, message.state, now, EventsIn(before), SnapshotsIn(before));
      } else {
        PrefixesFit(ds, i);
        NothingLostAfter(ap, can, store, before, i);
        assert FitsBuffer(ds[..n + 1]);
        FittingKeeps(ap, m', message, now, EventsIn(before), SnapshotsIn(before));
      }
    }
  }

  lemma PrefixesFit<S, U>(ds: Deliveries<S, U>, i: nat)
    requires ds != [] && i < |ds| && CatchesUp(ds, i) && forall j :: i <= j <= |ds| ==> FitsBuffer(ds[..j])
    ensures var before := ds[..|ds| - 1]; CatchesUp(before, i) && forall j :: i <= j <= |before| ==> FitsBuffer(before[..j])
  {
    var before := ds[..|ds| - 1];
    assert before[..i] == ds[..i];
    forall j | i <= j <= |before|
      ensures FitsBuffer(before[..j])
    {
      assert before[..j] == ds[..j];
    }
  }

  /** And from the start that is exactly when nothing is lost on the way. */
  lemma NothingLostIff<S, U>(ap: (S, U) -> S, can: bool, store: S, ds: Deliveries<S, U>)
    ensures (forall j :: 0 <= j <= |ds| ==> FitsBuffer(ds[..j])) <==>
            (forall j :: 0 <= j <= |ds| ==> AfterAll(ap, Initial(can, store), ds[..j]).copy.lostThrough.None?)
  {
    var m: Mirror<S, U> := Initial(can, store);
    if forall j :: 0 <= j <= |ds| ==> FitsBuffer(ds[..j]) {
      forall j | 0 <= j <= |ds|
        ensures AfterAll(ap, m, ds[..j]).copy.lostThrough.None?
      {
        assert forall k :: 0 <= k <= j ==> ds[..j][..k] == ds[..k];
        NothingLostAfter(ap, can, store, ds[..j], 0);
      }
    }
    forall j | 0 <= j <= |ds| && AfterAll(ap, m, ds[..j]).copy.lostThrough.None?
      ensures FitsBuffer(ds[..j])
    {
      DeliveriesTrack(ap, m, ds[..j]);
      var c := AfterAll(ap, m, ds[..j]).copy;
      TracksSettles(c, EventsIn(ds[..j]), SnapshotsIn(ds[..j]));
      SettledHoldsBack(c, EventsIn(ds[..j]), SnapshotsIn(ds[..j]));
    }
  }
}
