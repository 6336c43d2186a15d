/** What becomes of a click on a desktop popup, from the card to the page that opens what was clicked. */
module PopupClicks {
  import opened Common
  import opened Filters
  import opened PopupQueues
  import opened Popups
  import opened PopupRuns

  // ── One interaction ───────────────────────────────────────────────────────

  /** The waiting clicks of whoever is signed in, in their order. */
  ghost function Own(s: Queue, core: Core): seq<Click> {
    Filter(s.clicks, (c: Click) => core.owner == Some(c.owner))
  }

  /** The card was visible before the queue was brought up to date, and still is. */
  ghost predicate Seen(s: Queue, core: Core, id: string) {
    HasId(Visible(s.cards), id) && HasId(Visible(Reconciled(s, core).cards), id)
  }

  /**
   A click on a live card that was seen, by somebody signed in, whose entry is in the history and does not focus the
   game, joins the end of that player's clicks, takes its card away and opens the client; with 53 clicks waiting it is
   refused and changes nothing else.
   */
  lemma LiveClickIsQueuedIff(s: Queue, core: Core, id: string, at: nat, focused: bool, marked: bool)
    requires Seen(s, core, id) && !IsPreview(id) && core.owner.Some?
    requires at < |core.items| && FirstWith(core.items, at, id) && !core.items[at].focusesGame
    ensures var (after, outcome) := Interacted(s, core, id, Activate, focused, marked); var item := core.items[at];
      && (outcome == Done(Some(true)) <==> |Own(s, core)| < 53)
      && (outcome == Refused <==> |Own(s, core)| >= 53)
      && after.clicks == Own(s, core) + (if |Own(s, core)| < 53 then [Click(item, core.owner.value)] else [])
      && (outcome.Done? ==> after.cards == Removed(Reconciled(s, core).cards, id) && !HasId(after.cards, id))
      && (outcome.Refused? ==> after.cards == Reconciled(s, core).cards)
      && after.revision == Reconciled(s, core).revision + (if outcome.Done? then 1 else 0)
  {
    FindsFirst(core.items, at, id);
    RemovedWithout(Reconciled(s, core).cards, id);
    IdSetHasIds(Removed(Reconciled(s, core).cards, id), id);
  }

  lemma IdSetHasIds(q: Cards, id: string)
    ensures HasId(q, id) ==> id in IdSet(q)
  {
    if HasId(q, id) { assert q[Index(q, id)].card.id in IdSet(q); }
  }

  /** A click that focuses the game leaves by the core's answer, and is never queued. */
  lemma FocusClickIff(s: Queue, core: Core, id: string, at: nat, focused: bool, marked: bool)
    requires Seen(s, core, id) && !IsPreview(id) && core.owner.Some?
    requires at < |core.items| && FirstWith(core.items, at, id) && core.items[at].focusesGame
    ensures var (after, outcome) := Interacted(s, core, id, Activate, focused, marked);
      && outcome == (if focused && marked then Done(Some(false)) else Refused)
      && after.clicks == Own(s, core)
      && after.cards == (if focused && marked then Removed(Reconciled(s, core).cards, id) else Reconciled(s, core).cards)
      && after.revision == Reconciled(s, core).revision + (if focused && marked then 1 else 0)
  {
    FindsFirst(core.items, at, id);
  }

  /** Every other interaction: which are carried out, which are refused, which do nothing; none of them queues a click. */
  lemma OtherInteractions(s: Queue, core: Core, id: string, interaction: Interaction, focused: bool, marked: bool)
    requires interaction.Activate? ==>
      !Seen(s, core, id) || IsPreview(id) || core.owner.None? || forall i :: 0 <= i < |core.items| ==> core.items[i].id != id
    ensures var (after, outcome) := Interacted(s, core, id, interaction, focused, marked);
      var current := Reconciled(s, core).cards;
      var waits := HasId(current, id) && !HasId(Visible(current), id);
      && (interaction.Unknown? ==> after == s && outcome == Refused)
      && (!interaction.Unknown? ==> after.clicks == Own(s, core))
      && (outcome == Done(None) <==> !interaction.Unknown? && !Seen(s, core, id) && !(interaction.Expire? && waits))
      && (outcome == Refused <==> interaction.Unknown? || (interaction.DismissCard? && Seen(s, core, id) && !IsPreview(id) && !marked))
      && outcome != Done(Some(true))
      && (!interaction.Unknown? ==>
            && after.cards == (if outcome == Done(Some(false)) then Removed(current, id) else current)
            && after.revision == Reconciled(s, core).revision + if outcome == Done(Some(false)) then 1 else 0)
  {
  }

  // ── On its way to the page ────────────────────────────────────────────────

  /** The step neither signs anybody else in nor acknowledges the click. */
  ghost predicate LeavesWaiting(step: Step, click: Click) {
    step.Painted? || (step.core.owner == Some(click.owner) && !(step.Acknowledge? && step.acknowledged == Some(click.item.id)))
  }

  ghost predicate Acknowledges(step: Step, click: Click) {
    step.Acknowledge? && step.acknowledged == Some(click.item.id)
  }

  /** One of the steps from `i` up to `j` acknowledges the click. */
  ghost predicate AcknowledgedIn(steps: seq<Step>, i: nat, j: nat, click: Click)
    requires i <= j <= |steps|
  {
    exists k :: i <= k < j && Acknowledges(steps[k], click)
  }

  ghost predicate AllAcknowledged(steps: seq<Step>, i: nat, j: nat, clicks: seq<Click>)
    requires i <= j <= |steps|
  {
    forall c :: c in clicks ==> AcknowledgedIn(steps, i, j, c)
  }

  lemma FilteredAround(ahead: seq<Click>, click: Click, rest: seq<Click>, keep: Click -> bool)
    requires keep(click)
    ensures Filter(ahead + [click] + rest, keep) == Filter(ahead, keep) + [click] + Filter(rest, keep)
    ensures forall c :: c in Filter(ahead, keep) <==> c in ahead && keep(c)
  {
    FilterConcat(ahead + [click], rest, keep);
    FilterConcat(ahead, [click], keep);
    FilterOrder(ahead, keep);
  }

  /** A step that leaves the click waiting puts nothing ahead of it, and takes away what it acknowledges. */
  lemma StepKeepsPlace(p: Popup, step: Step, ahead: seq<Click>, click: Click, rest: seq<Click>)
    returns (ahead': seq<Click>, rest': seq<Click>)
    requires p.queue.clicks == ahead + [click] + rest && LeavesWaiting(step, click)
    ensures Do(p, step).queue.clicks == ahead' + [click] + rest'
    ensures forall c :: c in ahead' ==> c in ahead && !Acknowledges(step, c)
  {
    if step.Painted? { return ahead, rest; }
    var own := (c: Click) => step.core.owner == Some(c.owner);
    match step
    case Acknowledge(core, Some(id)) =>
      var other := (c: Click) => c.item.id != id;
      FilteredAround(ahead, click, rest, other);
      FilteredAround(Filter(ahead, other), click, Filter(rest, other), own);
      return Filter(Filter(ahead, other), own), Filter(Filter(rest, other), own);
    case Interact(core, id, interaction, focused, marked) =>
      if interaction.Unknown? { return ahead, rest; }
      FilteredAround(ahead, click, rest, own);
      var after := Do(p, step).queue.clicks;
      var kept := Filter(p.queue.clicks, own);
      assert after == kept || (|after| == |kept| + 1 && after[..|kept|] == kept);
      ahead' := Filter(ahead, own);
      rest' := after[|ahead'| + 1..];
      assert after[..|ahead'| + 1] == kept[..|ahead'| + 1] == ahead' + [click];
    case _ =>
      FilteredAround(ahead, click, rest, own);
      return Filter(ahead, own), Filter(rest, own);
  }

  lemma {:induction false} RunKeepsPlace(trace: seq<Popup>, steps: seq<Step>, i: nat, j: nat, ahead: seq<Click>, click: Click,
                                         rest: seq<Click>) returns (ahead': seq<Click>, rest': seq<Click>)
    requires IsRun(trace, steps) && i <= j < |trace| && trace[i].queue.clicks == ahead + [click] + rest
    requires forall k :: i <= k < j ==> LeavesWaiting(steps[k], click)
    ensures trace[j].queue.clicks == ahead' + [click] + rest'
    ensures forall c :: c in ahead' ==> c in ahead && !AcknowledgedIn(steps, i, j, c)
    decreases j - i
  {
    if i == j { return ahead, rest; }
    var a, r := RunKeepsPlace(trace, steps, i, j - 1, ahead, click, rest);
    ahead', rest' := StepKeepsPlace(trace[j - 1], steps[j - 1], a, click, r);
  }

  /** What the page is given when it asks for the next click: the front one, once the acknowledged one has gone. */
  ghost function Returned(p: Popup, step: Step): Option<Item>
    requires step.Acknowledge?
  {
    var clicks := Acknowledged(p.queue, step.core, step.acknowledged).clicks;
    if clicks == [] then None else Some(clicks[0].item)
  }

  /**
   In every run: a click that was accepted is given to the page as soon as those ahead of it have been acknowledged, as
   long as the same player stays signed in.
   */
  lemma AcceptedClickIsReturned(trace: seq<Popup>, steps: seq<Step>, accepted: nat, asked: nat, click: Click)
    requires IsRun(trace, steps) && accepted < asked < |steps|
    requires steps[accepted].Interact? && trace[accepted + 1].queue.clicks != []
    requires Interacted(trace[accepted].queue, steps[accepted].core, steps[accepted].id, steps[accepted].interaction,
                        steps[accepted].focused, steps[accepted].marked).1 == Done(Some(true))
    requires var clicks := trace[accepted + 1].queue.clicks;
      && click == clicks[|clicks| - 1]
      && AllAcknowledged(steps, accepted + 1, asked + 1, clicks[..|clicks| - 1])
    requires steps[asked].Acknowledge? && forall k :: accepted < k <= asked ==> LeavesWaiting(steps[k], click)
    ensures click == Click(click.item, steps[accepted].core.owner.value) && click.item.id == steps[accepted].id
    ensures Returned(trace[asked], steps[asked]) == Some(click.item)
  {
    var clicks := trace[accepted + 1].queue.clicks;
    var ahead := clicks[..|clicks| - 1];
    assert clicks == ahead + [click] + [];
    var ahead', rest' := RunKeepsPlace(trace, steps, accepted + 1, asked + 1, ahead, click, []);
    FirstIsIn(ahead');
    assert trace[asked + 1] == Do(trace[asked], steps[asked]);
  }
}
