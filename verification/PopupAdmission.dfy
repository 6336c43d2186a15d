/** Which cards an admission lets in, what it refuses, and what the queue holds afterwards. */
module PopupAdmission {
  import opened Common
  import opened Filters
  import opened PopupQueues
  import opened Popups
  import opened PopupRuns

  // ── Reading the core ──────────────────────────────────────────────────────

  /** The player's choice for the kind, or where there is none every kind or those announced by default. */
  ghost predicate Wanted(p: Preferences, raises: set<Kind>, kind: Kind) {
    && (kind in p.delivery && p.delivery[kind].Some? ==> p.delivery[kind] == Some(true))
    && (kind !in p.delivery || p.delivery[kind].None? ==> p.allKinds || kind in raises)
  }

  lemma ItemIdsOf(items: seq<Item>, id: string)
    ensures id in ItemIds(items) <==> exists item :: item in items && item.id == id
  {
    if item :| item in items && item.id == id {
      var i :| 0 <= i < |items| && items[i] == item;
      assert ItemIds(items)[i] == id;
    }
  }

  /** A notification gets a popup exactly when popups are on, it is unread, and its kind is wanted. */
  lemma EligibleIff(core: Core, id: string)
    ensures id in EligibleIds(core) <==>
      && core.preferences.enabled && core.preferences.desktop && core.preferences.popupStyle
      && exists item :: item in core.items && item.id == id && !item.read && Wanted(core.preferences, core.raises, item.kind)
  {
    var p := core.preferences;
    var keep := (item: Item) => !item.read && WantsPopup(p, core.raises, item.kind);
    FilterOrder(core.items, keep);
    ItemIdsOf(Filter(core.items, keep), id);
    assert forall item :: item in core.items ==> (keep(item) <==> !item.read && Wanted(p, core.raises, item.kind));
  }

  /** The urgent ids are those of found matches, full games and party invitations. */
  lemma ImmediateIff(core: Core, id: string)
    ensures id in ImmediateIds(core) <==>
      exists item :: item in core.items && item.id == id && item.kind in {MatchFound, GameFull, PartyInvite}
  {
    var keep := (item: Item) => item.kind == MatchFound || item.kind == GameFull || item.kind == PartyInvite;
    FilterOrder(core.items, keep);
    ItemIdsOf(Filter(core.items, keep), id);
    assert forall item :: item in core.items ==> (keep(item) <==> item.kind in {MatchFound, GameFull, PartyInvite});
  }

  /** A letter, a digit, a dash or a colon, by its byte. */
  predicate PreviewByte(c: char) {
    var b := c as int;
    48 <= b <= 57 || 65 <= b <= 90 || 97 <= b <= 122 || b == 45 || b == 58
  }

  /** What may follow the colon in a preview's id. */
  ghost predicate Suffix(rest: string) {
    1 <= |rest| <= 96 && forall i :: 0 <= i < |rest| ==> PreviewByte(rest[i])
  }

  /** The ids kept apart for previews: the bare word, or the word, a colon and up to 96 letters, digits, dashes and colons. */
  lemma PreviewIff(id: string)
    ensures IsPreview(id) <==> id == "preview" || exists rest :: id == "preview:" + rest && Suffix(rest)
  {
    if IsPreview(id) && id != "preview" {
      var rest := id[8..];
      assert id == "preview:" + rest;
      assert forall i :: 0 <= i < |rest| ==> rest[i] == id[8 + i];
      assert Suffix(rest);
    }
    if rest :| id == "preview:" + rest && Suffix(rest) {
      forall i | 8 <= i < |id|
        ensures IsPreviewChar(id[i])
      {
        assert id[i] == rest[i - 8];
      }
    }
  }

  // ── Bringing the queue up to date ─────────────────────────────────────────

  /** The player has a click on this notification waiting. */
  ghost predicate ClickWaits(s: Queue, core: Core, id: string) {
    exists click :: click in s.clicks && core.owner == Some(click.owner) && click.item.id == id
  }

  lemma ClickedIff(s: Queue, core: Core, id: string)
    ensures Clicked(OwnClicks(s, core).clicks, id) <==> ClickWaits(s, core, id)
  {
    var keep := (c: Click) => core.owner == Some(c.owner);
    var own := OwnClicks(s, core).clicks;
    FilterOrder(s.clicks, keep);
    if Clicked(own, id) {
      var i :| 0 <= i < |own| && own[i].item.id == id;
      assert own[i] in own;
    }
    if click :| click in s.clicks && core.owner == Some(click.owner) && click.item.id == id {
      assert click in own;
    }
  }

  /** The page is sent a new batch exactly when it would see a difference: other cards on the screen, or another duration. */
  lemma ReconciledShowsIff(s: Queue, core: Core)
    ensures var after := Reconciled(s, core);
      && (forall e :: e in after.cards <==> e in s.cards && (IsPreview(e.card.id) || e.card.id in EligibleIds(core)))
      && after.duration == core.preferences.duration
      && (after.revision == s.revision <==> VisibleIds(s.cards) == VisibleIds(after.cards) && s.duration == core.preferences.duration)
      && after.revision <= s.revision + 1
  {
    FilterOrder(s.cards, Stays(EligibleIds(core)));
  }

  // ── Taking cards in ───────────────────────────────────────────────────────

  ghost function Ids(q: Cards): seq<string> {
    seq(|q|, i requires 0 <= i < |q| => q[i].card.id)
  }

  /** The last of the cards with an id. */
  ghost predicate LastWith(cards: seq<Card>, i: nat)
    requires i < |cards|
  {
    forall k :: i < k < |cards| ==> cards[k].id != cards[i].id
  }

  ghost predicate Among(cards: seq<Card>, id: string) {
    exists k :: 0 <= k < |cards| && cards[k].id == id
  }

  /** The cards in the queue keep their places and ids; those not in the batch are as they were. */
  ghost predicate KeepsPlaces(q: Cards, cards: seq<Card>, after: Cards) {
    && |q| <= |after|
    && forall i :: 0 <= i < |q| ==> after[i].card.id == q[i].card.id && (!Among(cards, q[i].card.id) ==> after[i] == q[i])
  }

  /** Every card of the batch is there as it came last, held if it is a preview to be held. */
  ghost predicate BringsCards(cards: seq<Card>, hold: bool, after: Cards) {
    forall i :: 0 <= i < |cards| && LastWith(cards, i) ==> Entry(cards[i], hold && IsPreview(cards[i].id)) in after
  }

  lemma AmongNext(cards: seq<Card>, id: string)
    requires cards != []
    ensures Among(cards, id) <==> Among(cards[..|cards| - 1], id) || cards[|cards| - 1].id == id
  {
    var before := cards[..|cards| - 1];
    if Among(before, id) {
      var k :| 0 <= k < |before| && before[k].id == id;
      assert cards[k].id == id;
    }
    if k :| 0 <= k < |cards| && cards[k].id == id && k < |before| {
      assert before[k].id == id;
    }
    if cards[|cards| - 1].id == id { assert Among(cards, id); }
  }

  lemma {:induction false} PutAllPlaces(q: Cards, cards: seq<Card>, hold: bool)
    requires Distinct(q)
    ensures KeepsPlaces(q, cards, PutAll(q, cards, hold))
  {
    if cards != [] {
      var before, card := cards[..|cards| - 1], cards[|cards| - 1];
      PutAllPlaces(q, before, hold);
      PutAllKeeps(q, before, hold);
      forall i | 0 <= i < |q|
        ensures var after := PutAll(q, cards, hold);
          after[i].card.id == q[i].card.id && (!Among(cards, q[i].card.id) ==> after[i] == q[i])
      {
        AmongNext(cards, q[i].card.id);
        if q[i].card.id == card.id { IndexIsUnique(PutAll(q, before, hold), card.id, i); }
      }
    }
  }

  lemma PutBrings(q: Cards, e: Entry)
    ensures e in Put(q, e)
    ensures forall other :: other in q && other.card.id != e.card.id ==> other in Put(q, e)
  {
    var after := Put(q, e);
    var at := if HasId(q, e.card.id) then Index(q, e.card.id) else |q|;
    assert after[at] == e;
    forall other | other in q && other.card.id != e.card.id
      ensures other in after
    {
      var i :| 0 <= i < |q| && q[i] == other;
      assert after[i] == other;
    }
  }

  lemma {:induction false} PutAllBrings(q: Cards, cards: seq<Card>, hold: bool)
    ensures BringsCards(cards, hold, PutAll(q, cards, hold))
  {
    if cards != [] {
      var before, card := cards[..|cards| - 1], cards[|cards| - 1];
      PutAllBrings(q, before, hold);
      PutBrings(PutAll(q, before, hold), Entry(card, hold && IsPreview(card.id)));
      forall i | 0 <= i < |cards| && LastWith(cards, i)
        ensures Entry(cards[i], hold && IsPreview(cards[i].id)) in PutAll(q, cards, hold)
      {
        if i < |before| {
          assert before[i] == cards[i];
          assert LastWith(before, i);
          assert cards[i].id != cards[|before|].id;
        }
      }
    }
  }

  /** Cards join the end in the order they first came: what one batch begins, a longer one continues. */
  lemma {:induction false} PutAllExtends(q: Cards, cards: seq<Card>, n: nat, hold: bool)
    requires Distinct(q) && n <= |cards|
    ensures Ids(PutAll(q, cards[..n], hold)) <= Ids(PutAll(q, cards, hold))
    decreases |cards|
  {
    if n == |cards| {
      assert cards[..n] == cards;
    } else {
      var before, card := cards[..|cards| - 1], cards[|cards| - 1];
      PutAllExtends(q, before, n, hold);
      assert before[..n] == cards[..n];
      assert Ids(PutAll(q, before, hold)) <= Ids(PutAll(q, cards, hold));
    }
  }

  /**
   What enqueueing leaves: the cards that were there in their places, without the held previews where the batch has a
   live card, and every card of the batch as it came last, the new ones at the end in the order they first came.
   */
  lemma EnqueuedBrings(q: Cards, cards: seq<Card>, hold: bool)
    requires Distinct(q)
    ensures var start := if exists c :: c in cards && !IsPreview(c.id) then Filter(q, (e: Entry) => !e.held) else q;
      var after := Enqueued(q, cards, hold);
      && KeepsPlaces(start, cards, after) && BringsCards(cards, hold, after)
      && forall n :: 0 <= n <= |cards| ==> Ids(PutAll(start, cards[..n], hold)) <= Ids(after)
  {
    assert AnyLive(cards) <==> exists c :: c in cards && !IsPreview(c.id) by {
      if c :| c in cards && !IsPreview(c.id) {
        var i :| 0 <= i < |cards| && cards[i] == c;
      }
      if i :| 0 <= i < |cards| && !IsPreview(cards[i].id) { assert cards[i] in cards; }
    }
    FilterKeeps(q, (e: Entry) => !e.held);
    var start := if AnyLive(cards) then Filter(q, (e: Entry) => !e.held) else q;
    PutAllPlaces(start, cards, hold);
    PutAllBrings(start, cards, hold);
    forall n | 0 <= n <= |cards|
      ensures Ids(PutAll(start, cards[..n], hold)) <= Ids(PutAll(start, cards, hold))
    {
      PutAllExtends(start, cards, n, hold);
    }
  }

  // ── The admission ─────────────────────────────────────────────────────────

  /** A live card is let in exactly when its notification gets a popup and the player has not clicked it already. */
  lemma AdmissibleIff(s: Queue, core: Core, cards: seq<Card>, preview: bool)
    ensures forall c :: c in Admissible(s, core, cards, preview) <==>
      c in cards && (preview || (c.id in EligibleIds(core) && !ClickWaits(s, core, c.id)))
  {
    if !preview {
      var keep := (c: Card) => c.id in EligibleIds(core) && !Clicked(OwnClicks(s, core).clicks, c.id);
      FilterOrder(cards, keep);
      forall c: Card
        ensures keep(c) <==> c.id in EligibleIds(core) && !ClickWaits(s, core, c.id)
      {
        ClickedIff(s, core, c.id);
      }
    }
  }

  /**
   What an admission answers: nothing to show where it lets no card in, a refusal where the cards would be more than 53,
   and otherwise every card it let in is queued, with theme and caption for the page.
   */
  lemma AdmittedIff(s: Queue, core: Core, cards: seq<Card>, preview: bool, hold: bool, caption: string)
    requires Sound(s)
    ensures var (after, outcome) := Admitted(s, core, cards, preview, hold, caption);
      var wanted := Admissible(s, core, cards, preview); var current := Reconciled(s, core);
      && (outcome == Done(false) <==> forall c :: c in cards ==> !preview && (c.id !in EligibleIds(core) || ClickWaits(s, core, c.id)))
      && (outcome == Refused <==> wanted != [] && |current.cards| + |NewIds(current.cards, wanted)| > 53)
      && (outcome == Done(false) ==> after == OwnClicks(s, core)) && (outcome == Refused ==> after == current)
      && (outcome == Done(true) ==>
            && after.theme == core.theme && after.dismissLabel == caption && after.clicks == OwnClicks(s, core).clicks
            && multiset(after.cards) == multiset(Enqueued(current.cards, wanted, hold))
            && forall c :: c in wanted ==> HasId(after.cards, c.id))
  {
    var wanted := Admissible(s, core, cards, preview);
    var current := Reconciled(s, core);
    AdmissibleIff(s, core, cards, preview);
    FirstIsIn(wanted);
    ReconciledSound(s, core);
    if wanted != [] && !Overfull(current.cards, wanted) {
      EnqueuedKeeps(current.cards, wanted, hold);
      PrioritizedKeeps(Enqueued(current.cards, wanted, hold), ImmediateIds(core));
      QueuedAfterwards(current.cards, wanted, hold);
      forall c | c in wanted
        ensures HasId(Admitted(s, core, cards, preview, hold, caption).0.cards, c.id)
      {
        SameIds(Enqueued(current.cards, wanted, hold), Admitted(s, core, cards, preview, hold, caption).0.cards, c.id);
      }
    }
  }

  lemma SameIds(a: Cards, b: Cards, id: string)
    requires multiset(a) == multiset(b) && HasId(a, id)
    ensures HasId(b, id)
  {
    assert a[Index(a, id)] in multiset(b);
    var i :| 0 <= i < |b| && b[i] == a[Index(a, id)];
  }

  lemma QueuedAfterwards(q: Cards, cards: seq<Card>, hold: bool)
    requires Distinct(q)
    ensures forall c :: c in cards ==> HasId(Enqueued(q, cards, hold), c.id)
  {
    var start := if AnyLive(cards) then Filter(q, (e: Entry) => !e.held) else q;
    FilterKeeps(q, (e: Entry) => !e.held);
    PutAllKeeps(start, cards, hold);
    forall c | c in cards
      ensures HasId(Enqueued(q, cards, hold), c.id)
    {
      var i :| 0 <= i < |cards| && cards[i] == c;
      assert cards[i].id in IdSet(Enqueued(q, cards, hold));
    }
  }
}
