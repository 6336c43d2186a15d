/** What every run of the popup queue keeps, and what a confirmed display proves. */
module PopupRuns {
  import opened Common
  import opened Filters
  import opened PopupQueues
  import opened Popups

  /** The queue beside what the page has confirmed: the newest batch shown, and the newest drawn. */
  datatype Popup = Popup(queue: Queue, shown: nat, painted: nat)

  datatype Step =
    | Admit(core: Core, cards: seq<Card>, preview: bool, hold: bool, caption: string)
    | Reconcile(core: Core)
    | Interact(core: Core, id: string, interaction: Interaction, focused: bool, marked: bool)
    | Acknowledge(core: Core, acknowledged: Option<string>)
    | Display(core: Core, requested: seq<string>)
    | Size(core: Core, revision: nat)
    | Painted(revision: nat)

  ghost predicate ContainsAny(cards: Cards, ids: seq<string>) {
    exists i :: 0 <= i < |cards| && cards[i].card.id in ids
  }

  /** An attempt at displaying: prune, then number the batch if any of its cards is still there. */
  ghost function Displayed(s: Queue, core: Core, requested: seq<string>): Queue {
    var current := Reconciled(s, core);
    if ContainsAny(current.cards, requested) then current.(revision := current.revision + 1) else current
  }

  /** The page reports the size of a batch; it counts only for the batch that is still the newest. */
  ghost predicate Confirms(s: Queue, core: Core, revision: nat) {
    var current := Reconciled(s, core);
    current.revision == s.revision == revision && current.cards != []
  }

  ghost function Do(p: Popup, step: Step): Popup {
    match step
    case Admit(core, cards, preview, hold, caption) => p.(queue := Admitted(p.queue, core, cards, preview, hold, caption).0)
    case Reconcile(core) => p.(queue := Reconciled(p.queue, core))
    case Interact(core, id, interaction, focused, marked) =>
      p.(queue := Interacted(p.queue, core, id, interaction, focused, marked).0)
    case Acknowledge(core, id) => p.(queue := Acknowledged(p.queue, core, id))
    case Display(core, requested) => p.(queue := Displayed(p.queue, core, requested))
    case Size(core, revision) =>
      Popup(Reconciled(p.queue, core),
            if Confirms(p.queue, core, revision) && revision > p.shown then revision else p.shown,
            p.painted)
    case Painted(revision) => p.(painted := if revision > p.painted then revision else p.painted)
  }

  /** The ids of live notifications never look like a preview's, and only previews are admitted as previews. */
  ghost predicate Fair(step: Step) {
    match step
    case Admit(core, cards, preview, hold, _) =>
      && LiveIds(core)
      && (preview ==> forall i :: 0 <= i < |cards| ==> IsPreview(cards[i].id))
      && (!preview ==> !hold)
    case Reconcile(core) => LiveIds(core)
    case Interact(core, _, _, _, _) => LiveIds(core)
    case Acknowledge(core, _) => LiveIds(core)
    case Display(core, _) => LiveIds(core)
    case Size(core, _) => LiveIds(core)
    case Painted(_) => true
  }

  ghost predicate LiveIds(core: Core) {
    forall i :: 0 <= i < |core.items| ==> !IsPreview(core.items[i].id)
  }

  ghost predicate ClicksApart(clicks: seq<Click>, cards: Cards) {
    && (forall i, j :: 0 <= i < j < |clicks| ==> clicks[i].item.id != clicks[j].item.id)
    && (forall i :: 0 <= i < |clicks| ==> clicks[i].item.id !in IdSet(cards) && !IsPreview(clicks[i].item.id))
  }

  ghost predicate Sound(s: Queue) {
    && Distinct(s.cards) && |s.cards| <= 53 && HeldArePreviews(s.cards)
    && |s.clicks| <= 53 && ClicksApart(s.clicks, s.cards)
  }

  // ── Steps keep it ─────────────────────────────────────────────────────────

  lemma FewerCardsSound(s: Queue, keep: Entry -> bool, t: Queue)
    requires Sound(s) && t.cards == Filter(s.cards, keep) && t.clicks == s.clicks
    ensures Sound(t)
  {
    FilterKeeps(s.cards, keep);
  }

  lemma FewerClicksSound(s: Queue, keep: Click -> bool)
    requires Sound(s)
    ensures Sound(s.(clicks := Filter(s.clicks, keep)))
  {
    FilterOrder(s.clicks, keep);
    var kept, places := Filter(s.clicks, keep), Places(s.clicks, keep);
    forall i, j | 0 <= i < j < |kept|
      ensures kept[i].item.id != kept[j].item.id
    {
      assert places[i] < places[j];
    }
    forall i | 0 <= i < |kept|
      ensures kept[i].item.id !in IdSet(s.cards) && !IsPreview(kept[i].item.id)
    {
      assert kept[i] == s.clicks[places[i]];
    }
  }

  lemma ReconciledSound(s: Queue, core: Core)
    requires Sound(s)
    ensures Sound(Reconciled(s, core))
  {
    var own := OwnClicks(s, core);
    FewerClicksSound(s, (c: Click) => core.owner == Some(c.owner));
    FewerCardsSound(own, Stays(EligibleIds(core)), Reconciled(s, core));
  }

  /** Cards taken in beside clicks none of them shares an id with. */
  lemma EnqueuedSound(s: Queue, cards: seq<Card>, hold: bool)
    requires Sound(s) && !Overfull(s.cards, cards)
    requires forall i :: 0 <= i < |cards| ==> !Clicked(s.clicks, cards[i].id)
    ensures Sound(s.(cards := Enqueued(s.cards, cards, hold)))
  {
    EnqueuedKeeps(s.cards, cards, hold);
  }

  lemma PrioritizedSound(s: Queue, immediate: seq<string>)
    requires Sound(s)
    ensures Sound(s.(cards := Prioritized(s.cards, immediate)))
  {
    PrioritizedKeeps(s.cards, immediate);
  }

  /** No card that is admitted has a click waiting. */
  lemma AdmissibleUnclicked(s: Queue, core: Core, cards: seq<Card>, preview: bool)
    requires Sound(s) && (preview ==> forall i :: 0 <= i < |cards| ==> IsPreview(cards[i].id))
    ensures var wanted := Admissible(s, core, cards, preview);
      forall i :: 0 <= i < |wanted| ==> !Clicked(OwnClicks(s, core).clicks, wanted[i].id)
  {
    var wanted := Admissible(s, core, cards, preview);
    var own := OwnClicks(s, core);
    FewerClicksSound(s, (c: Click) => core.owner == Some(c.owner));
    if !preview {
      var keep := (c: Card) => c.id in EligibleIds(core) && !Clicked(own.clicks, c.id);
      FilterOrder(cards, keep);
      forall i | 0 <= i < |wanted|
        ensures !Clicked(own.clicks, wanted[i].id)
      {
        assert wanted[i] in wanted && keep(wanted[i]);
      }
    }
  }

  lemma AdmittedSound(s: Queue, core: Core, cards: seq<Card>, preview: bool, hold: bool, caption: string)
    requires Sound(s) && (preview ==> forall i :: 0 <= i < |cards| ==> IsPreview(cards[i].id))
    ensures Sound(Admitted(s, core, cards, preview, hold, caption).0)
  {
    var wanted := Admissible(s, core, cards, preview);
    FewerClicksSound(s, (c: Click) => core.owner == Some(c.owner));
    ReconciledSound(s, core);
    AdmissibleUnclicked(s, core, cards, preview);
    var current := Reconciled(s, core);
    if wanted != [] && !Overfull(current.cards, wanted) {
      EnqueuedSound(current, wanted, hold);
      PrioritizedSound(current.(cards := Enqueued(current.cards, wanted, hold)), ImmediateIds(core));
    }
  }

  lemma RemovedWithout(q: Cards, id: string)
    ensures id !in IdSet(Removed(q, id))
  {
    var keep := (e: Entry) => e.card.id != id;
    FilterOrder(q, keep);
    var kept := Filter(q, keep);
    forall i | 0 <= i < |kept|
      ensures kept[i].card.id != id
    {
      assert kept[i] in kept && keep(kept[i]);
    }
  }

  lemma ClickedSound(s: Queue, id: string, click: Click)
    requires Sound(s) && HasId(s.cards, id) && click.item.id == id && !IsPreview(id) && |s.clicks| < MAX_CARDS
    ensures Sound(s.(cards := Removed(s.cards, id), clicks := s.clicks + [click]))
  {
    var keep := (e: Entry) => e.card.id != id;
    FilterKeeps(s.cards, keep);
    RemovedWithout(s.cards, id);
    assert s.cards[Index(s.cards, id)].card.id in IdSet(s.cards);
    var clicks := s.clicks + [click];
    forall i | 0 <= i < |clicks|
      ensures clicks[i].item.id !in IdSet(Removed(s.cards, id)) && !IsPreview(clicks[i].item.id)
    {
      if i < |s.clicks| { assert clicks[i] == s.clicks[i]; }
    }
  }

  lemma InteractedSound(s: Queue, core: Core, id: string, interaction: Interaction, focused: bool, marked: bool)
    requires Sound(s)
    ensures Sound(Interacted(s, core, id, interaction, focused, marked).0)
  {
    var s1 := Reconciled(s, core);
    ReconciledSound(s, core);
    if !interaction.Unknown? && Applies(s, core, id, interaction) {
      FewerCardsSound(s1, (e: Entry) => e.card.id != id, s1.(cards := Removed(s1.cards, id), revision := s1.revision + 1));
      var click := Activation(core, id, interaction);
      if click.Some? && |s1.clicks| < MAX_CARDS {
        VisibleIsThere(s1.cards, id);
        ClickedSound(s1, id, click.value);
      }
    }
  }

  lemma VisibleIsThere(q: Cards, id: string)
    ensures HasId(Visible(q), id) ==> HasId(q, id)
  {
    if HasId(Visible(q), id) {
      assert q[Index(Visible(q), id)].card.id == id;
    }
  }

  /** Every step keeps the queue sound, never takes the batch number back, and never lets a confirmation run ahead of it. */
  lemma StepKeeps(p: Popup, step: Step)
    requires Sound(p.queue) && p.shown <= p.queue.revision && Fair(step)
    ensures var after := Do(p, step);
      && Sound(after.queue) && after.shown <= after.queue.revision
      && p.queue.revision <= after.queue.revision && p.shown <= after.shown
  {
    match step
    case Admit(core, cards, preview, hold, caption) => AdmittedSound(p.queue, core, cards, preview, hold, caption);
    case Reconcile(core) => ReconciledSound(p.queue, core);
    case Interact(core, id, interaction, focused, marked) => InteractedSound(p.queue, core, id, interaction, focused, marked);
    case Acknowledge(core, id) =>
      var s := if id.Some? then p.queue.(clicks := Filter(p.queue.clicks, (c: Click) => c.item.id != id.value)) else p.queue;
      if id.Some? { FewerClicksSound(p.queue, (c: Click) => c.item.id != id.value); }
      FewerClicksSound(s, (c: Click) => core.owner == Some(c.owner));
    case Display(core, _) => ReconciledSound(p.queue, core);
    case Size(core, _) => ReconciledSound(p.queue, core);
    case Painted(_) =>
  }

  // ── Runs ──────────────────────────────────────────────────────────────────

  const EMPTY: Popup := Popup(Queue([], [], 0, 0, 0, ""), 0, 0)

  ghost predicate IsRun(trace: seq<Popup>, steps: seq<Step>) {
    && |trace| == |steps| + 1
    && forall i :: 0 <= i < |steps| ==> Fair(steps[i]) && trace[i + 1] == Do(trace[i], steps[i])
  }

  /**
   In every run: card ids are distinct, there are at most 53 cards, only previews are held, at most 53
   clicks wait, each for another entry and none for a card still queued, and the page has never
   confirmed a batch that was not sent.
   */
  lemma {:induction false} RunsAreSound(trace: seq<Popup>, steps: seq<Step>, i: nat)
    requires IsRun(trace, steps) && trace[0] == EMPTY && i < |trace|
    ensures Sound(trace[i].queue) && trace[i].shown <= trace[i].queue.revision
  {
    if i > 0 {
      RunsAreSound(trace, steps, i - 1);
      StepKeeps(trace[i - 1], steps[i - 1]);
    }
  }

  /** A click leaves only by being acknowledged or when somebody else is signed in. */
  lemma ClickLeavesOnlyHandled(p: Popup, step: Step, click: Click)
    requires click in p.queue.clicks && click !in Do(p, step).queue.clicks
    ensures !step.Painted? && (step.core.owner != Some(click.owner) || (step.Acknowledge? && step.acknowledged == Some(click.item.id)))
  {
    match step
    case Painted(_) =>
    case Acknowledge(core, id) =>
      var s := if id.Some? then p.queue.(clicks := Filter(p.queue.clicks, (c: Click) => c.item.id != id.value)) else p.queue;
      if id.Some? { FilterOrder(p.queue.clicks, (c: Click) => c.item.id != id.value); }
      FilterOrder(s.clicks, (c: Click) => core.owner == Some(c.owner));
    case _ => FilterOrder(p.queue.clicks, (c: Click) => step.core.owner == Some(c.owner));
  }

  /** Both confirmations have reached a batch. */
  ghost predicate OnScreen(p: Popup, revision: nat) {
    p.shown >= revision && p.painted >= revision
  }

  /**
   Freshness. If an attempt at displaying numbered a batch, and that batch counts as on screen at some
   later point, then the page confirmed the size of a batch at least that new after the attempt: no
   earlier confirmation, from a page since replaced, can stand in for it.
   */
  lemma {:induction false} OnScreenWasConfirmed(trace: seq<Popup>, steps: seq<Step>, attempt: nat, later: nat, batch: nat)
    requires IsRun(trace, steps) && trace[0] == EMPTY && attempt < later < |trace|
    requires steps[attempt].Display? && ContainsAny(Reconciled(trace[attempt].queue, steps[attempt].core).cards, steps[attempt].requested)
    requires batch == trace[attempt + 1].queue.revision && OnScreen(trace[later], batch)
    ensures exists i :: attempt < i < later && Confirmed(trace, steps, i, batch)
  {
    RunsAreSound(trace, steps, attempt);
    ShownGrew(trace, steps, attempt + 1, later, batch);
  }

  /** The step confirms the size of a batch at least as new as `batch`, the newest there is, with a card to show. */
  ghost predicate Confirming(before: Popup, step: Step, after: Popup, batch: nat) {
    && step.Size? && step.revision >= batch
    && before.queue.revision == step.revision == after.queue.revision && after.queue.cards != []
  }

  ghost predicate Confirmed(trace: seq<Popup>, steps: seq<Step>, i: nat, batch: nat) {
    i < |steps| && i + 1 < |trace| && Confirming(trace[i], steps[i], trace[i + 1], batch)
  }

  /** At step `i` the page reported having drawn a batch at least as new as `batch`. */
  ghost predicate Drew(steps: seq<Step>, i: nat, batch: nat) {
    i < |steps| && steps[i].Painted? && steps[i].revision >= batch
  }

  lemma ShownStep(p: Popup, step: Step, batch: nat)
    ensures Do(p, step).shown >= batch <==> p.shown >= batch || Confirming(p, step, Do(p, step), batch)
  {
  }

  lemma PaintedStep(p: Popup, step: Step, batch: nat)
    ensures Do(p, step).painted >= batch <==> p.painted >= batch || (step.Painted? && step.revision >= batch)
  {
  }

  /** What is so exactly since something happened is so now exactly if it has happened. */
  lemma {:induction false} SoSince(holds: seq<bool>, happens: seq<bool>, n: nat)
    requires |holds| == |happens| + 1 && n < |holds| && !holds[0]
    requires forall i :: 0 <= i < |happens| ==> (holds[i + 1] <==> holds[i] || happens[i])
    ensures holds[n] <==> exists i :: 0 <= i < n && happens[i]
  {
    if n > 0 {
      SoSince(holds, happens, n - 1);
      assert holds[n - 1 + 1] <==> holds[n - 1] || happens[n - 1];
    }
  }

  /** A batch counts as on screen exactly from the time the page has confirmed its size, or a newer one's, and has drawn it. */
  lemma OnScreenIff(trace: seq<Popup>, steps: seq<Step>, later: nat, batch: nat)
    requires IsRun(trace, steps) && trace[0] == EMPTY && later < |trace| && batch > 0
    ensures OnScreen(trace[later], batch) <==>
      (exists i :: 0 <= i < later && Confirmed(trace, steps, i, batch)) && exists i :: 0 <= i < later && Drew(steps, i, batch)
  {
    ShownIff(trace, steps, later, batch);
    PaintedIff(trace, steps, later, batch);
  }

  lemma ShownIff(trace: seq<Popup>, steps: seq<Step>, later: nat, batch: nat)
    requires IsRun(trace, steps) && trace[0] == EMPTY && later < |trace| && batch > 0
    ensures trace[later].shown >= batch <==> exists i :: 0 <= i < later && Confirmed(trace, steps, i, batch)
  {
    var holds := seq(|trace|, i requires 0 <= i < |trace| => trace[i].shown >= batch);
    var happens := seq(|steps|, i requires 0 <= i < |steps| => Confirmed(trace, steps, i, batch));
    forall i | 0 <= i < |steps|
      ensures holds[i + 1] <==> holds[i] || happens[i]
    {
      ShownStep(trace[i], steps[i], batch);
    }
    SoSince(holds, happens, later);
    assert forall i :: 0 <= i < |steps| ==> happens[i] == Confirmed(trace, steps, i, batch);
  }

  lemma PaintedIff(trace: seq<Popup>, steps: seq<Step>, later: nat, batch: nat)
    requires IsRun(trace, steps) && trace[0] == EMPTY && later < |trace| && batch > 0
    ensures trace[later].painted >= batch <==> exists i :: 0 <= i < later && Drew(steps, i, batch)
  {
    var holds := seq(|trace|, i requires 0 <= i < |trace| => trace[i].painted >= batch);
    var happens := seq(|steps|, i requires 0 <= i < |steps| => Drew(steps, i, batch));
    forall i | 0 <= i < |steps|
      ensures holds[i + 1] <==> holds[i] || happens[i]
    {
      PaintedStep(trace[i], steps[i], batch);
    }
    SoSince(holds, happens, later);
    assert forall i :: 0 <= i < |steps| ==> happens[i] == Drew(steps, i, batch);
  }

  /** An attempt at displaying numbers a new batch exactly when one of the cards it is for is still queued. */
  lemma DisplayNumbersIff(p: Popup, core: Core, requested: seq<string>)
    ensures var after := Do(p, Display(core, requested)).queue; var current := Reconciled(p.queue, core);
      && after.cards == current.cards && after.clicks == current.clicks
      && after.revision == current.revision + (if exists e :: e in current.cards && e.card.id in requested then 1 else 0)
  {
    var current := Reconciled(p.queue, core);
    if e :| e in current.cards && e.card.id in requested {
      var i :| 0 <= i < |current.cards| && current.cards[i] == e;
    }
  }

  lemma {:induction false} ShownGrew(trace: seq<Popup>, steps: seq<Step>, from: nat, later: nat, batch: nat)
    requires IsRun(trace, steps) && from <= later < |trace|
    requires trace[from].shown < batch <= trace[later].shown
    ensures exists i :: from <= i < later && Confirmed(trace, steps, i, batch)
    decreases later - from
  {
    if trace[later - 1].shown >= batch {
      ShownGrew(trace, steps, from, later - 1, batch);
    } else {
      assert trace[later] == Do(trace[later - 1], steps[later - 1]);
      assert Confirmed(trace, steps, later - 1, batch);
    }
  }
}
