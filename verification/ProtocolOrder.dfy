/** The order in which the core's events reach the window: ascending, each at most once. */
module ProtocolOrder {
  import opened Common
  import opened Updates
  import opened Mirrors
  import opened MirrorRuns
  import opened Protocol

  ghost predicate Ascending(revisions: seq<nat>) {
    forall i, j :: 0 <= i < j < |revisions| ==> revisions[i] < revisions[j]
  }

  ghost predicate Within(revisions: seq<nat>, low: nat, high: nat) {
    forall i :: 0 <= i < |revisions| ==> low < revisions[i] <= high
  }

  /** The revisions of the events in the channel. */
  ghost function Sent(channel: seq<Note>): seq<nat> {
    if channel == [] then []
    else if channel[0].Event? then [channel[0].revision] + Sent(channel[1..]) else Sent(channel[1..])
  }

  ghost function Waiting(queue: seq<VersionedEvent>): seq<nat> {
    seq(|queue|, i requires 0 <= i < |queue| => queue[i].revision)
  }

  /** The events not in the channel yet, the next to be forwarded first. */
  ghost function Unsent(queue: seq<VersionedEvent>, inTransit: Option<VersionedEvent>): seq<nat> {
    Waiting(queue) + if inTransit.Some? then [inTransit.value.revision] else []
  }

  /** The events on their way to the window, the next to arrive first. */
  ghost function Line(stream: Stream, inTransit: Option<VersionedEvent>): seq<nat> {
    Sent(stream.channel) + Unsent(stream.queue, inTransit)
  }

  /** They ascend, above `r` and up to the core's revision. */
  ghost predicate InOrder(sys: System, r: nat) {
    && |sys.past.states| > 0
    && Orderly(Line(sys.stream, sys.inTransit), r, Current(sys))
  }

  lemma {:induction false} SentConcat(a: seq<Note>, b: seq<Note>)
    ensures Sent(a + b) == Sent(a) + Sent(b)
  {
    if a == [] {
      assert a + b == b;
    } else {
      SentConcat(a[1..], b);
      assert (a + b)[1..] == a[1..] + b;
    }
  }

  ghost predicate Orderly(line: seq<nat>, low: nat, high: nat) {
    Ascending(line) && Within(line, low, high)
  }

  /** Leaving some out keeps the order. */
  lemma WithoutMiddle(line: seq<nat>, a: seq<nat>, middle: seq<nat>, b: seq<nat>, low: nat, high: nat)
    requires Orderly(line, low, high) && line == a + (middle + b)
    ensures Orderly(a + b, low, high)
  {
    var rest := a + b;
    assert forall i :: 0 <= i < |rest| ==> rest[i] == line[if i < |a| then i else i + |middle|];
  }

  lemma Appended(line: seq<nat>, low: nat, high: nat, next: nat)
    requires Ascending(line) && Within(line, low, high) && low <= high < next
    ensures Ascending(line + [next]) && Within(line + [next], low, next)
  {
  }

  lemma UnsentStep(queue: seq<VersionedEvent>, inTransit: Option<VersionedEvent>)
    requires queue != []
    ensures Unsent(queue, inTransit) == [queue[0].revision] + Unsent(queue[1..], inTransit)
  {
    assert Waiting(queue) == [queue[0].revision] + Waiting(queue[1..]);
    Regrouped([queue[0].revision], Waiting(queue[1..]), if inTransit.Some? then [inTransit.value.revision] else []);
  }

  /** A lag leaves out all that waited in the queue. */
  lemma LagLine(stream: Stream, inTransit: Option<VersionedEvent>, revision: nat, state: AppState, delivered: bool, installing: bool,
                low: nat, high: nat)
    requires stream.lagged && Orderly(Line(stream, inTransit), low, high)
    ensures Orderly(Line(ForwardTurn(stream, revision, state, delivered, installing), inTransit), low, high)
  {
    var after := ForwardTurn(stream, revision, state, delivered, installing);
    SentConcat(stream.channel, [Snapshot(revision, state)]);
    assert Sent([Snapshot(revision, state)]) == [];
    assert Sent(after.channel) == Sent(stream.channel);
    var transit := if inTransit.Some? then [inTransit.value.revision] else [];
    assert Unsent(after.queue, inTransit) == transit;
    WithoutMiddle(Line(stream, inTransit), Sent(stream.channel), Waiting(stream.queue), transit, low, high);
  }

  /** A turn moves the first waiting event into the channel, or leaves it out. */
  lemma TurnLine(stream: Stream, inTransit: Option<VersionedEvent>, revision: nat, state: AppState, delivered: bool, installing: bool,
                 low: nat, high: nat)
    requires !stream.lagged && stream.queue != [] && Orderly(Line(stream, inTransit), low, high)
    ensures Orderly(Line(ForwardTurn(stream, revision, state, delivered, installing), inTransit), low, high)
  {
    var after := ForwardTurn(stream, revision, state, delivered, installing);
    var sent, first, others := Sent(stream.channel), [stream.queue[0].revision], Unsent(after.queue, inTransit);
    UnsentStep(stream.queue, inTransit);
    if after.channel == stream.channel {
      WithoutMiddle(Line(stream, inTransit), sent, first, others, low, high);
    } else {
      var message := after.channel[|stream.channel|];
      SentConcat(stream.channel, [message]);
      assert [message][1..] == [];
      assert Sent([message]) == first;
      Regrouped(sent, first, others);
    }
  }

  /** Losing a message leaves at most one event out. */
  lemma LoseLine(stream: Stream, inTransit: Option<VersionedEvent>, index: nat, low: nat, high: nat)
    requires index < |stream.channel| && Orderly(Line(stream, inTransit), low, high)
    ensures Orderly(Line(stream.(channel := stream.channel[..index] + stream.channel[index + 1..]), inTransit), low, high)
  {
    var a, lost, b := stream.channel[..index], [stream.channel[index]], stream.channel[index + 1..];
    var unsent := Unsent(stream.queue, inTransit);
    assert stream.channel == a + (lost + b);
    SentConcat(a, lost + b);
    SentConcat(lost, b);
    SentConcat(a, b);
    Regrouped4(Sent(a), Sent(lost), Sent(b), unsent);
    WithoutMiddle(Line(stream, inTransit), Sent(a), Sent(lost), Sent(b) + unsent, low, high);
    Regrouped(Sent(a), Sent(b), unsent);
  }

  lemma Regrouped4(a: seq<nat>, b: seq<nat>, c: seq<nat>, d: seq<nat>)
    ensures (a + (b + c)) + d == a + (b + (c + d))
  {
  }

  /** The message heard is the first of the line, where it is an event. */
  lemma HearLine(stream: Stream, inTransit: Option<VersionedEvent>, low: nat, high: nat)
    requires stream.channel != [] && Orderly(Line(stream, inTransit), low, high)
    ensures var after := Line(stream.(channel := stream.channel[1..]), inTransit); var note := stream.channel[0];
      && Ascending(after) && Within(after, low, high)
      && (note.Event? ==> Within(after, note.revision, high) && note.revision <= high)
  {
    var first, after := stream.channel[..1], Line(stream.(channel := stream.channel[1..]), inTransit);
    assert stream.channel == first + stream.channel[1..] && first[1..] == [];
    SentConcat(first, stream.channel[1..]);
    assert Line(stream, inTransit) == Sent(first) + after;
    if stream.channel[0].Event? {
      assert Sent(first) == [stream.channel[0].revision];
      FirstOff(stream.channel[0].revision, after, low, high);
    } else {
      assert [] + after == after;
    }
  }

  lemma FirstOff(first: nat, rest: seq<nat>, low: nat, high: nat)
    requires Ascending([first] + rest) && Within([first] + rest, low, high)
    ensures Ascending(rest) && Within(rest, low, high) && Within(rest, first, high) && low < first <= high
  {
    var all := [first] + rest;
    assert all[0] == first;
    assert forall i :: 0 <= i < |rest| ==> rest[i] == all[i + 1];
  }

  ghost predicate SameLine(before: System, after: System) {
    && |before.past.states| > 0 && |after.past.states| >= |before.past.states|
    && Line(after.stream, after.inTransit) == Line(before.stream, before.inTransit)
  }

  /** What the actions do to the line that are not the stream's own: an emitted event joins it, and the others leave it alone. */
  lemma ActLine(rules: Rules, replica: Replica, sys: System, action: Action)
    requires |sys.past.states| > 0 && Able(sys, action)
    ensures var after := Act(rules, replica, sys, action);
      match action
      case Emit(_) => Line(after.stream, after.inTransit) == Line(sys.stream, sys.inTransit) + [Current(after)] && Current(after) == Current(sys) + 1
      case Overflow => after == sys.(stream := sys.stream.(queue := sys.stream.queue[1..], lagged := true))
      case Forward(delivered, installing) =>
        && after.stream == ForwardTurn(sys.stream, Current(sys), sys.past.states[Current(sys)], delivered, installing)
        && after.inTransit == sys.inTransit && after.past == sys.past
      case Lose(i) =>
        && after.stream == sys.stream.(channel := sys.stream.channel[..i] + sys.stream.channel[i + 1..])
        && after.inTransit == sys.inTransit && after.past == sys.past
      case Hear(_) =>
        && after.stream == sys.stream.(channel := sys.stream.channel[1..])
        && after.inTransit == sys.inTransit && after.past == sys.past
      case _ => SameLine(sys, after)
  {
  }

  lemma OverflowLine(stream: Stream, inTransit: Option<VersionedEvent>, low: nat, high: nat)
    requires stream.queue != [] && Orderly(Line(stream, inTransit), low, high)
    ensures Orderly(Line(stream.(queue := stream.queue[1..], lagged := true), inTransit), low, high)
  {
    UnsentStep(stream.queue, inTransit);
    WithoutMiddle(Line(stream, inTransit), Sent(stream.channel), [stream.queue[0].revision], Unsent(stream.queue[1..], inTransit), low, high);
  }

  lemma ActInOrder(rules: Rules, replica: Replica, sys: System, action: Action, r: nat)
    requires InOrder(sys, r) && r <= Current(sys) && Able(sys, action)
    ensures var after := Act(rules, replica, sys, action);
      && InOrder(after, r) && r <= Current(after)
      && (action.Hear? && sys.stream.channel[0].Event? ==>
            sys.stream.channel[0].revision <= Current(after) && InOrder(after, sys.stream.channel[0].revision))
  {
    ActLine(rules, replica, sys, action);
    match action
    case Emit(_) => Appended(Line(sys.stream, sys.inTransit), r, Current(sys), Current(sys) + 1);
    case Overflow => OverflowLine(sys.stream, sys.inTransit, r, Current(sys));
    case Forward(delivered, installing) =>
      var state := sys.past.states[Current(sys)];
      if sys.stream.lagged {
        LagLine(sys.stream, sys.inTransit, Current(sys), state, delivered, installing, r, Current(sys));
      } else {
        TurnLine(sys.stream, sys.inTransit, Current(sys), state, delivered, installing, r, Current(sys));
      }
    case Lose(i) => LoseLine(sys.stream, sys.inTransit, i, r, Current(sys));
    case Hear(_) => HearLine(sys.stream, sys.inTransit, r, Current(sys));
    case _ =>
  }

  lemma {:induction false} StaysInOrder(rules: Rules, replica: Replica, trace: seq<System>, actions: seq<Action>, i: nat, j: nat, r: nat)
    requires IsRun(rules, replica, trace, actions) && i <= j < |trace| && InOrder(trace[i], r) && r <= Current(trace[i])
    ensures InOrder(trace[j], r) && r <= Current(trace[j])
    decreases j - i
  {
    if i < j {
      StaysInOrder(rules, replica, trace, actions, i, j - 1, r);
      ActInOrder(rules, replica, trace[j - 1], actions[j - 1], r);
    }
  }

  /** The action lets the window hear this event. */
  ghost predicate Hears(sys: System, action: Action, revision: nat) {
    action.Hear? && sys.stream.channel != [] && sys.stream.channel[0].Event? && sys.stream.channel[0].revision == revision
  }

  /** In every run the window hears the core's events in their order, and none of them twice. */
  lemma EventsComeInOrder(rules: Rules, replica: Replica, initial: AppState, blank: AppState, can: bool,
                          trace: seq<System>, actions: seq<Action>, i: nat, j: nat, first: nat, second: nat)
    requires IsRun(rules, replica, trace, actions) && trace[0] == Start(initial, blank, can) && i < j < |actions|
    requires Hears(trace[i], actions[i], first) && Hears(trace[j], actions[j], second)
    ensures 0 < first < second <= Current(trace[j])
  {
    StaysInOrder(rules, replica, trace, actions, 0, i, 0);
    ActInOrder(rules, replica, trace[i], actions[i], 0);
    StaysInOrder(rules, replica, trace, actions, i + 1, j, first);
    HeardIsFirst(trace[i], first, 0);
    HeardIsFirst(trace[j], second, first);
  }

  lemma HeardIsFirst(sys: System, revision: nat, r: nat)
    requires InOrder(sys, r) && sys.stream.channel != [] && sys.stream.channel[0].Event? && sys.stream.channel[0].revision == revision
    ensures r < revision <= Current(sys)
  {
    assert Line(sys.stream, sys.inTransit)[0] == revision;
  }
}
