/**
 The popup queue's operations under the core's state (`src-tauri/src/notification_popup.rs`): what is
 admitted, refreshed, clicked and acknowledged, and what the page has confirmed it showed.
 */
module Popups {
  import opened Common
  import opened Filters
  import opened PopupQueues

  datatype Kind = MatchFound | GameFull | PartyInvite | OtherKind(name: string)

  datatype Owner = Owner(offline: bool, player: Option<int>)

  datatype Item = Item(id: string, kind: Kind, read: bool, focusesGame: bool, content: string)

  datatype Preferences = Preferences(
    enabled: bool, desktop: bool, popupStyle: bool, allKinds: bool,
    delivery: map<Kind, Option<bool>>, duration: nat)

  /** What the queue reads of the core's state. `raises` holds the kinds announced by default. */
  datatype Core = Core(owner: Option<Owner>, items: seq<Item>, preferences: Preferences, raises: set<Kind>, theme: int)

  datatype Click = Click(item: Item, owner: Owner)

  datatype Interaction = Activate | DismissCard | Expire | Unknown

  /** The queue as one value: the list of cards, the accepted clicks, and the batch the page is sent. */
  datatype Queue = Queue(
    cards: Cards,
    clicks: seq<Click>,
    revision: nat,
    duration: nat,
    theme: int,
    dismissLabel: string)

  datatype Outcome<+T> = Done(value: T) | Refused

  // ── Reading the core ──────────────────────────────────────────────────────

  predicate WantsPopup(p: Preferences, raises: set<Kind>, kind: Kind) {
    if kind in p.delivery && p.delivery[kind].Some? then p.delivery[kind].value
    else p.allKinds || kind in raises
  }

  function ItemIds(items: seq<Item>): seq<string> {
    seq(|items|, i requires 0 <= i < |items| => items[i].id)
  }

  function EligibleIds(core: Core): seq<string> {
    var p := core.preferences;
    if !p.enabled || !p.desktop || !p.popupStyle then []
    else ItemIds(Filter(core.items, (item: Item) => !item.read && WantsPopup(p, core.raises, item.kind)))
  }

  function ImmediateIds(core: Core): seq<string> {
    ItemIds(Filter(core.items, (item: Item) => item.kind == MatchFound || item.kind == GameFull || item.kind == PartyInvite))
  }

  predicate Clicked(clicks: seq<Click>, id: string) {
    exists i :: 0 <= i < |clicks| && clicks[i].item.id == id
  }

  /** Entry `i` is the first of the history with this id. */
  ghost predicate FirstWith(items: seq<Item>, i: nat, id: string)
    requires i < |items|
  {
    items[i].id == id && forall k :: 0 <= k < i ==> items[k].id != id
  }

  /** The first entry of the history with this id. */
  function FindItem(items: seq<Item>, id: string): (found: Option<Item>)
    ensures found.Some? ==> found.value in items && found.value.id == id
    ensures found.None? ==> forall i :: 0 <= i < |items| ==> items[i].id != id
  {
    if items == [] then None
    else if items[0].id == id then Some(items[0])
    else FindItem(items[1..], id)
  }

  lemma {:induction false} FindsFirst(items: seq<Item>, i: nat, id: string)
    requires i < |items| && FirstWith(items, i, id)
    ensures FindItem(items, id) == Some(items[i])
  {
    if i > 0 {
      assert FirstWith(items[1..], i - 1, id);
      FindsFirst(items[1..], i - 1, id);
    }
  }

  // ── What each operation does ──────────────────────────────────────────────

  function VisibleIds(q: Cards): seq<string> {
    var v := Visible(q);
    seq(|v|, i requires 0 <= i < |v| => v[i].card.id)
  }

  function Stays(eligible: seq<string>): Entry -> bool {
    (e: Entry) => IsPreview(e.card.id) || e.card.id in eligible
  }

  ghost function OwnClicks(s: Queue, core: Core): Queue {
    s.(clicks := Filter(s.clicks, (c: Click) => core.owner == Some(c.owner)))
  }

  ghost predicate RefreshChanges(s: Queue, eligible: seq<string>, duration: nat) {
    VisibleIds(s.cards) != VisibleIds(Filter(s.cards, Stays(eligible))) || s.duration != duration
  }

  /** Cards that are no longer wanted go, and the page gets a new revision if it would see a difference. */
  ghost function Refreshed(s: Queue, eligible: seq<string>, duration: nat): Queue {
    s.(cards := Filter(s.cards, Stays(eligible)), duration := duration,
       revision := if RefreshChanges(s, eligible, duration) then s.revision + 1 else s.revision)
  }

  ghost function Reconciled(s: Queue, core: Core): Queue {
    Refreshed(OwnClicks(s, core), EligibleIds(core), core.preferences.duration)
  }

  ghost function Admissible(s: Queue, core: Core, cards: seq<Card>, preview: bool): seq<Card> {
    if preview then cards
    else Filter(cards, (c: Card) => c.id in EligibleIds(core) && !Clicked(OwnClicks(s, core).clicks, c.id))
  }

  ghost function Admitted(s: Queue, core: Core, cards: seq<Card>, preview: bool, hold: bool, caption: string): (Queue, Outcome<bool>) {
    var wanted := Admissible(s, core, cards, preview);
    if wanted == [] then (OwnClicks(s, core), Done(false))
    else
      var current := Reconciled(s, core);
      if Overfull(current.cards, wanted) then (current, Refused)
      else
        var enqueued := Enqueued(current.cards, wanted, hold);
        (current.(cards := if preview then enqueued else Prioritized(enqueued, ImmediateIds(core)),
                theme := core.theme, dismissLabel := caption), Done(true))
  }

  ghost function Acknowledged(s: Queue, core: Core, id: Option<string>): Queue {
    OwnClicks(if id.Some? then s.(clicks := Filter(s.clicks, (c: Click) => c.item.id != id.value)) else s, core)
  }

  /** What clicking a card would queue: its entry in the history, for whoever is signed in. */
  function Activation(core: Core, id: string, interaction: Interaction): Option<Click> {
    if IsPreview(id) || !interaction.Activate? || core.owner.None? then None
    else
      var item := FindItem(core.items, id);
      if item.None? then None else Some(Click(item.value, core.owner.value))
  }

  /** Whether the interaction is with a card the user could see, or an expiry of one that still waits. */
  ghost predicate Applies(s: Queue, core: Core, id: string, interaction: Interaction) {
    var cards := Reconciled(s, core).cards;
    || (HasId(Visible(s.cards), id) && HasId(Visible(cards), id))
    || (interaction.Expire? && HasId(cards, id) && !HasId(Visible(cards), id))
  }

  /** `focused` and `marked` say whether the core focused the game and took the mark-as-read command. */
  ghost function Interacted(s: Queue, core: Core, id: string, interaction: Interaction, focused: bool, marked: bool)
    : (Queue, Outcome<Option<bool>>)
  {
    if interaction.Unknown? then (s, Refused)
    else if !Applies(s, core, id, interaction) then (Reconciled(s, core), Done(None))
    else
      var s1 := Reconciled(s, core);
      var click := Activation(core, id, interaction);
      var gone := s1.(cards := Removed(s1.cards, id), revision := s1.revision + 1);
      if click.Some? && click.value.item.focusesGame then
        if focused && marked then (gone, Done(Some(false))) else (s1, Refused)
      else if click.Some? then
        if |s1.clicks| >= MAX_CARDS then (s1, Refused)
        else (gone.(clicks := s1.clicks + [click.value]), Done(Some(true)))
      else if interaction.DismissCard? && !IsPreview(id) && !marked then (s1, Refused)
      else (gone, Done(Some(false)))
  }

  // ── The queue ─────────────────────────────────────────────────────────────

  class PopupQueue {
    var visible: seq<Card>
    var heldIds: seq<string>
    var pending: seq<Entry>
    var activations: seq<Click>
    var revision: nat
    var duration: nat
    var theme: int
    var dismissLabel: string

    ghost predicate Valid()
      reads this
    {
      Rests(visible, heldIds, pending)
    }

    ghost function Cards(): Cards
      reads this
    {
      Abs(visible, heldIds, pending)
    }

    ghost function View(): Queue
      reads this
    {
      Queue(Cards(), activations, revision, duration, theme, dismissLabel)
    }

    constructor ()
      ensures Valid() && View() == Queue([], [], 0, 0, 0, "")
    {
      visible, heldIds, pending, activations := [], [], [], [];
      revision, duration, theme, dismissLabel := 0, 0, 0, "";
    }

    /** Fill the visible places from the front of the waiting cards. */
    method Promote()
      requires Loose(visible, heldIds, pending)
      modifies `visible, `heldIds, `pending
      ensures Valid() && Cards() == old(Cards())
    {
      while |visible| < VISIBLE_CARDS && pending != []
        invariant Loose(visible, heldIds, pending) && Cards() == old(Cards())
        decreases |pending|
      {
        PromoteStep(visible, heldIds, pending);
        var next := pending[0];
        pending := pending[1..];
        if next.held { heldIds := heldIds + [next.card.id]; }
        visible := visible + [next.card];
      }
      HeldIdsTrimmed(visible, heldIds, pending);
      var shown := visible;
      heldIds := Retain(heldIds, (id: string) => IsVisible(shown, id));
    }

    method RetainCards(keep: Entry -> bool, keepCard: Card -> bool)
      requires Valid()
      requires forall i :: 0 <= i < |visible| ==> (keepCard(visible[i]) <==> keep(Entry(visible[i], visible[i].id in heldIds)))
      modifies `visible, `heldIds, `pending
      ensures Valid() && Cards() == Filter(old(Cards()), keep)
    {
      KeptParts(visible, heldIds, pending, keep, keepCard);
      visible := Retain(visible, keepCard);
      pending := Retain(pending, keep);
      Promote();
    }

    method Remove(id: string)
      requires Valid()
      modifies `visible, `heldIds, `pending
      ensures Valid() && Cards() == Removed(old(Cards()), id)
    {
      RetainCards((e: Entry) => e.card.id != id, (c: Card) => c.id != id);
    }

    method VisibleCardIds() returns (ids: seq<string>)
      requires Valid()
      ensures ids == VisibleIds(Cards())
    {
      RestShowsFirst(visible, heldIds, pending);
      var shown := visible;
      ids := seq(|shown|, i requires 0 <= i < |shown| => shown[i].id);
    }

    /** Drop what is no longer wanted; whether the page was sent a new revision. */
    method Refresh(eligible: seq<string>, newDuration: nat) returns (changed: bool)
      requires Valid()
      modifies this
      ensures Valid() && View() == Refreshed(old(View()), eligible, newDuration)
      ensures changed <==> RefreshChanges(old(View()), eligible, newDuration)
    {
      var before := VisibleCardIds();
      RetainCards(Stays(eligible), (c: Card) => IsPreview(c.id) || c.id in eligible);
      var after := VisibleCardIds();
      changed := before != after || duration != newDuration;
      duration := newDuration;
      if changed { revision := revision + 1; }
    }

    method RetainActivations(core: Core)
      modifies `activations
      ensures View() == OwnClicks(old(View()), core)
    {
      activations := Retain(activations, (c: Click) => core.owner == Some(c.owner));
    }

    method Reconcile(core: Core) returns (changed: bool)
      requires Valid()
      modifies this
      ensures Valid() && View() == Reconciled(old(View()), core)
    {
      RetainActivations(core);
      changed := Refresh(EligibleIds(core), core.preferences.duration);
    }

    /** The front click, after the acknowledged one has gone. */
    method NextActivation(core: Core, acknowledged: Option<string>) returns (item: Option<Item>)
      requires Valid()
      modifies `activations
      ensures Valid() && View() == Acknowledged(old(View()), core, acknowledged)
      ensures item == if activations == [] then None else Some(activations[0].item)
    {
      if acknowledged.Some? {
        var id := acknowledged.value;
        activations := Retain(activations, (c: Click) => c.item.id != id);
      }
      RetainActivations(core);
      item := if activations == [] then None else Some(activations[0].item);
    }

    method FindVisible(id: string) returns (at: Option<nat>)
      ensures at.Some? ==> at.value < |visible| && visible[at.value].id == id
      ensures at.None? ==> !IsVisible(visible, id)
    {
      var i := 0;
      while i < |visible|
        invariant i <= |visible| && forall k :: 0 <= k < i ==> visible[k].id != id
      {
        if visible[i].id == id { return Some(i); }
        i := i + 1;
      }
      at := None;
    }

    method FindPending(id: string) returns (at: Option<nat>)
      ensures at.Some? ==> at.value < |pending| && pending[at.value].card.id == id
      ensures at.None? ==> !HasId(pending, id)
    {
      var i := 0;
      while i < |pending|
        invariant i <= |pending| && forall k :: 0 <= k < i ==> pending[k].card.id != id
      {
        if pending[i].card.id == id { return Some(i); }
        i := i + 1;
      }
      at := None;
    }

    /** Replace a card where it stands, or append it to the waiting ones. */
    method PutCard(card: Card, held: bool)
      requires Loose(visible, heldIds, pending) && HeldVisible(visible, heldIds)
      modifies `visible, `heldIds, `pending
      ensures Loose(visible, heldIds, pending) && HeldVisible(visible, heldIds)
      ensures Cards() == Put(old(Cards()), Entry(card, held))
    {
      var at := FindVisible(card.id);
      if at.Some? {
        PutVisible(visible, heldIds, pending, at.value, card, held);
        var kept := Retain(heldIds, (other: string) => other != card.id);
        heldIds := kept + if held then [card.id] else [];
        visible := visible[at.value := card];
        return;
      }
      at := FindPending(card.id);
      if at.Some? {
        PutPending(visible, heldIds, pending, at.value, card, held);
        pending := pending[at.value := Entry(card, held)];
      } else {
        PutNew(visible, heldIds, pending, card, held);
        pending := pending + [Entry(card, held)];
      }
    }

    /** How many of the cards are new: counted once for each id. */
    method CountNew(cards: seq<Card>) returns (additional: nat)
      requires Valid()
      ensures additional == |NewIds(Cards(), cards)|
    {
      additional := 0;
      var i := 0;
      assert NewIds(Cards(), cards[..0]) == {};
      while i < |cards|
        invariant i <= |cards| && additional == |NewIds(Cards(), cards[..i])|
      {
        HasIdInParts(visible, heldIds, pending, cards[i].id);
        NewIdsNext(Cards(), cards, i);
        var shown := FindVisible(cards[i].id);
        var waiting := FindPending(cards[i].id);
        if shown.None? && waiting.None? && !(exists k :: 0 <= k < i && cards[k].id == cards[i].id) {
          additional := additional + 1;
        }
        i := i + 1;
      }
      assert cards[..i] == cards;
    }

    /** Drop every held preview, visible or waiting. */
    method DropHeld()
      requires Valid()
      modifies `visible, `heldIds, `pending
      ensures Loose(visible, heldIds, pending) && HeldVisible(visible, heldIds)
      ensures Cards() == Filter(old(Cards()), (e: Entry) => !e.held)
    {
      var held := heldIds;
      KeptParts(visible, heldIds, pending, (e: Entry) => !e.held, (c: Card) => c.id !in held);
      FilterOrder(visible, (c: Card) => c.id !in held);
      visible := Retain(visible, (c: Card) => c.id !in held);
      pending := Retain(pending, (e: Entry) => !e.held);
      forall i | 0 <= i < |visible|
        ensures visible[i].id !in heldIds
      {
        assert visible[i] in visible;
      }
      UnheldVisible(visible, heldIds, pending);
      heldIds := [];
    }

    method Enqueue(cards: seq<Card>, hold: bool) returns (accepted: bool)
      requires Valid()
      modifies `visible, `heldIds, `pending
      ensures Valid() && accepted == !Overfull(old(Cards()), cards)
      ensures Cards() == if accepted then Enqueued(old(Cards()), cards, hold) else old(Cards())
    {
      var additional := CountNew(cards);
      AbsSplits(visible, heldIds, pending);
      if |visible| + |pending| + additional > MAX_CARDS { return false; }
      if AnyLive(cards) { DropHeld(); }
      ghost var start := Cards();
      var i := 0;
      while i < |cards|
        invariant i <= |cards|
        invariant Loose(visible, heldIds, pending) && HeldVisible(visible, heldIds)
        invariant Cards() == PutAll(start, cards[..i], hold)
      {
        assert cards[..i + 1][..i] == cards[..i];
        PutCard(cards[i], hold && IsPreview(cards[i].id));
        i := i + 1;
      }
      assert cards[..i] == cards;
      Promote();
      return true;
    }

    method Prioritize(immediate: seq<string>)
      requires Valid() && NoneHeld(Cards())
      modifies `visible, `heldIds, `pending
      ensures Valid() && Cards() == Prioritized(old(Cards()), immediate)
    {
      var i := 0;
      while i < |immediate|
        invariant i <= |immediate| && Valid() && NoneHeld(Cards())
        invariant Cards() == Prioritized(old(Cards()), immediate[..i])
      {
        assert immediate[..i + 1][..i] == immediate[..i];
        PrioritizeOne(immediate[i]);
        i := i + 1;
      }
      assert immediate[..i] == immediate;
    }

    method PrioritizeOne(id: string)
      requires Valid() && NoneHeld(Cards())
      modifies `visible, `heldIds, `pending
      ensures Valid() && NoneHeld(Cards()) && Cards() == MovedToFront(old(Cards()), id)
    {
      NoHeldIds(visible, heldIds, pending);
      MovedKeeps(Cards(), id);
      var at := FindPending(id);
      if at.None? {
        NotWaiting(visible, heldIds, pending, id);
        return;
      }
      FrontStep(visible, pending, at.value);
      var next := pending[at.value];
      pending := pending[..at.value] + pending[at.value + 1..];
      if |visible| == VISIBLE_CARDS {
        assert [Entry(visible[2], false)] + pending ==
          [Entry(visible[2], false)] + old(pending)[..at.value] + old(pending)[at.value + 1..];
        pending := [Entry(visible[2], false)] + pending;
        visible := visible[..2];
      }
      visible := [next.card] + visible;
    }

    /** Admit cards under the core's present state: filter, prune, enqueue, and bring the urgent ones forward. */
    method Admit(core: Core, requested: seq<Card>, preview: bool, hold: bool, caption: string) returns (outcome: Outcome<bool>)
      requires Valid()
      requires !preview ==> !hold && forall i :: 0 <= i < |core.items| ==> !IsPreview(core.items[i].id)
      modifies this
      ensures Valid() && (View(), outcome) == Admitted(old(View()), core, requested, preview, hold, caption)
    {
      RetainActivations(core);
      var eligible := EligibleIds(core);
      var cards := requested;
      if !preview {
        var clicks := activations;
        cards := Retain(cards, (c: Card) => c.id in EligibleIds(core) && !Clicked(clicks, c.id));
      }
      if cards == [] { return Done(false); }
      var _ := Refresh(eligible, core.preferences.duration);
      ghost var current := Cards();
      var accepted := Enqueue(cards, hold);
      if !accepted { return Refused; }
      if !preview {
        AdmittedAreLive(old(View()), core, requested);
        LiveLeavesNoneHeld(current, cards);
        Prioritize(ImmediateIds(core));
      }
      theme := core.theme;
      dismissLabel := caption;
      return Done(true);
    }

    /** Check live preferences and history first; whether the interaction is then with a card it may touch. */
    method Touch(core: Core, id: string, interaction: Interaction) returns (applies: bool)
      requires Valid()
      modifies this
      ensures Valid() && View() == Reconciled(old(View()), core)
      ensures applies <==> Applies(old(View()), core, id, interaction)
    {
      VisibleInFirst(visible, heldIds, pending, id);
      var wasVisible := IsVisible(visible, id);
      var _ := Reconcile(core);
      VisibleInFirst(visible, heldIds, pending, id);
      HasIdInParts(visible, heldIds, pending, id);
      WaitingIsNotVisible(visible, heldIds, pending, id);
      var waiting := FindPending(id);
      applies := (wasVisible && IsVisible(visible, id)) || (interaction.Expire? && waiting.Some?);
    }

    method Interact(core: Core, id: string, interaction: Interaction, focused: bool, marked: bool) returns (outcome: Outcome<Option<bool>>)
      requires Valid()
      modifies this
      ensures Valid() && (View(), outcome) == Interacted(old(View()), core, id, interaction, focused, marked)
    {
      if interaction.Unknown? { return Refused; }
      var applies := Touch(core, id, interaction);
      if !applies { return Done(None); }
      var activation := Activation(core, id, interaction);
      var openMain := false;
      if activation.Some? && activation.value.item.focusesGame {
        if !focused || !marked { return Refused; }
      } else if activation.Some? {
        if |activations| >= MAX_CARDS { return Refused; }
        activations := activations + [activation.value];
        openMain := true;
      } else if interaction.DismissCard? && !IsPreview(id) {
        if !marked { return Refused; }
      }
      Remove(id);
      revision := revision + 1;
      return Done(Some(openMain));
    }
  }

  // ── Facts the methods use ─────────────────────────────────────────────────

  lemma NewIdsNext(q: Cards, cards: seq<Card>, i: nat)
    requires i < |cards|
    ensures var id := cards[i].id; var earlier := exists k :: 0 <= k < i && cards[k].id == id;
      |NewIds(q, cards[..i + 1])| == |NewIds(q, cards[..i])| + if !HasId(q, id) && !earlier then 1 else 0
  {
    var id := cards[i].id;
    var before, after := NewIds(q, cards[..i]), NewIds(q, cards[..i + 1]);
    assert forall k :: 0 <= k < i ==> cards[..i][k] == cards[..i + 1][k] == cards[k];
    assert cards[..i + 1][i] == cards[i];
    if HasId(q, id) {
      assert after == before;
    } else {
      assert after == before + {id};
      if k :| 0 <= k < i && cards[k].id == id { assert cards[..i][k].id == id; }
    }
  }

  lemma UnheldVisible(visible: seq<Card>, heldIds: seq<string>, pending: Cards)
    requires Loose(visible, heldIds, pending) && forall i :: 0 <= i < |visible| ==> visible[i].id !in heldIds
    ensures Abs(visible, [], pending) == Abs(visible, heldIds, pending) && Loose(visible, [], pending)
  {
    assert Shown(visible, []) == Shown(visible, heldIds);
  }

  lemma NoHeldIds(visible: seq<Card>, heldIds: seq<string>, pending: Cards)
    requires Rests(visible, heldIds, pending) && NoneHeld(Abs(visible, heldIds, pending))
    ensures heldIds == []
  {
    var q := Abs(visible, heldIds, pending);
    AbsSplits(visible, heldIds, pending);
    forall i | 0 <= i < |visible|
      ensures visible[i].id !in heldIds
    {
      assert q[i] == Entry(visible[i], visible[i].id in heldIds);
    }
    assert forall id :: id in heldIds ==> IsVisible(visible, id);
    FirstIsIn(heldIds);
  }

  lemma FirstIsIn<T>(s: seq<T>)
    ensures s == [] || s[0] in s
  {
  }

  lemma VisibleInFirst(visible: seq<Card>, heldIds: seq<string>, pending: Cards, id: string)
    requires Rests(visible, heldIds, pending)
    ensures HasId(Visible(Abs(visible, heldIds, pending)), id) <==> IsVisible(visible, id)
  {
    RestShowsFirst(visible, heldIds, pending);
    HasIdInParts(visible, heldIds, [], id);
    assert Abs(visible, heldIds, []) == Shown(visible, heldIds);
  }

  lemma WaitingIsNotVisible(visible: seq<Card>, heldIds: seq<string>, pending: Cards, id: string)
    requires Rests(visible, heldIds, pending)
    ensures HasId(pending, id) ==> !IsVisible(visible, id)
  {
    AbsSplits(visible, heldIds, pending);
    if HasId(pending, id) {
      var i := Index(pending, id);
      assert Abs(visible, heldIds, pending)[|visible| + i].card.id == id;
    }
  }

  lemma EligibleAreItems(core: Core, id: string)
    requires id in EligibleIds(core)
    ensures exists i :: 0 <= i < |core.items| && core.items[i].id == id
  {
    var p := core.preferences;
    var keep := (item: Item) => !item.read && WantsPopup(p, core.raises, item.kind);
    FilterOrder(core.items, keep);
    var kept := Filter(core.items, keep);
    var i :| 0 <= i < |kept| && kept[i].id == id;
    assert kept[i] in core.items;
  }

  lemma AdmittedAreLive(s: Queue, core: Core, cards: seq<Card>)
    requires forall i :: 0 <= i < |core.items| ==> !IsPreview(core.items[i].id)
    ensures forall c :: c in Admissible(s, core, cards, false) ==> !IsPreview(c.id)
  {
    FilterOrder(cards, (c: Card) => c.id in EligibleIds(core) && !Clicked(OwnClicks(s, core).clicks, c.id));
    forall c | c in Admissible(s, core, cards, false)
      ensures !IsPreview(c.id)
    {
      EligibleAreItems(core, c.id);
    }
  }

  /** A live card in the batch leaves nothing held. */
  lemma LiveLeavesNoneHeld(q: Cards, cards: seq<Card>)
    requires Distinct(q) && !Overfull(q, cards) && cards != []
    requires forall c :: c in cards ==> !IsPreview(c.id)
    ensures NoneHeld(Enqueued(q, cards, false))
  {
    assert !IsPreview(cards[0].id);
    var keep := (e: Entry) => !e.held;
    FilterKeeps(q, keep);
    FilterOrder(q, keep);
    var start := Filter(q, keep);
    forall i | 0 <= i < |start|
      ensures !start[i].held
    {
      assert start[i] in start && keep(start[i]);
    }
    PutAllKeeps(start, cards, false);
  }
}
