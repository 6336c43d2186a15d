/**
 The desktop popup's queue (`src-tauri/src/notification_popup.rs`).

 The queue keeps up to three visible cards, the ids of the previews held among them, and the cards
 that wait. All of it stands for one list, and every operation is proved against what it does to
 that list.
 */
module PopupQueues {
  import opened Common
  import opened Filters

  const VISIBLE_CARDS: nat := 3
  const MAX_CARDS: nat := 53

  datatype Card = Card(id: string, content: string)

  /** A card in the queue, and whether it is an inspection preview that is held. */
  datatype Entry = Entry(card: Card, held: bool)

  type Cards = seq<Entry>

  predicate IsPreviewChar(c: char) {
    'a' <= c <= 'z' || 'A' <= c <= 'Z' || '0' <= c <= '9' || c == '-' || c == ':'
  }

  predicate IsPreview(id: string) {
    || id == "preview"
    || (&& "preview:" <= id
        && 1 <= |id| - 8 <= 96
        && forall i :: 8 <= i < |id| ==> IsPreviewChar(id[i]))
  }

  // ── The list ──────────────────────────────────────────────────────────────

  predicate HasId(q: Cards, id: string) {
    exists i :: 0 <= i < |q| && q[i].card.id == id
  }

  ghost predicate Distinct(q: Cards) {
    forall i, j :: 0 <= i < j < |q| ==> q[i].card.id != q[j].card.id
  }

  ghost function IdSet(q: Cards): set<string> {
    set i | 0 <= i < |q| :: q[i].card.id
  }

  ghost function Index(q: Cards, id: string): (i: nat)
    requires HasId(q, id)
    ensures i < |q| && q[i].card.id == id
  {
    var i :| 0 <= i < |q| && q[i].card.id == id;
    i
  }

  /** Replace the card with the same id where it stands, or append. */
  ghost function Put(q: Cards, e: Entry): Cards {
    if HasId(q, e.card.id) then q[Index(q, e.card.id) := e] else q + [e]
  }

  ghost function PutAll(q: Cards, cards: seq<Card>, hold: bool): Cards {
    if cards == [] then q
    else
      var card := cards[|cards| - 1];
      Put(PutAll(q, cards[..|cards| - 1], hold), Entry(card, hold && IsPreview(card.id)))
  }

  predicate AnyLive(cards: seq<Card>) {
    exists i :: 0 <= i < |cards| && !IsPreview(cards[i].id)
  }

  /** The ids among `cards` that are not in the queue yet. */
  ghost function NewIds(q: Cards, cards: seq<Card>): set<string> {
    set i | 0 <= i < |cards| && !HasId(q, cards[i].id) :: cards[i].id
  }

  ghost predicate Overfull(q: Cards, cards: seq<Card>) {
    |q| + |NewIds(q, cards)| > MAX_CARDS
  }

  /** Held previews make way for the first live card. */
  ghost function Enqueued(q: Cards, cards: seq<Card>, hold: bool): Cards {
    PutAll(if AnyLive(cards) then Filter(q, (e: Entry) => !e.held) else q, cards, hold)
  }

  ghost function Removed(q: Cards, id: string): Cards {
    Filter(q, (e: Entry) => e.card.id != id)
  }

  /** A waiting card goes to the front; a card already visible, or not there, changes nothing. */
  ghost function MovedToFront(q: Cards, id: string): Cards {
    if HasId(q, id) && Index(q, id) >= VISIBLE_CARDS
    then ToFront(q, Index(q, id))
    else q
  }

  function ToFront(q: Cards, i: nat): Cards
    requires i < |q|
  {
    [q[i]] + q[..i] + q[i + 1..]
  }

  ghost function Prioritized(q: Cards, immediate: seq<string>): Cards {
    if immediate == [] then q
    else MovedToFront(Prioritized(q, immediate[..|immediate| - 1]), immediate[|immediate| - 1])
  }

  function Visible(q: Cards): Cards {
    if |q| <= VISIBLE_CARDS then q else q[..VISIBLE_CARDS]
  }

  ghost predicate NoneHeld(q: Cards) {
    forall i :: 0 <= i < |q| ==> !q[i].held
  }

  ghost predicate HeldArePreviews(q: Cards) {
    forall i :: 0 <= i < |q| && q[i].held ==> IsPreview(q[i].card.id)
  }

  // ── Facts about the list ──────────────────────────────────────────────────

  lemma IndexIsUnique(q: Cards, id: string, i: nat)
    requires Distinct(q) && i < |q| && q[i].card.id == id
    ensures HasId(q, id) && Index(q, id) == i
  {
  }

  lemma {:induction false} DistinctCount(q: Cards)
    requires Distinct(q)
    ensures |IdSet(q)| == |q|
  {
    if q == [] {
      assert IdSet(q) == {};
    } else {
      var before, last := q[..|q| - 1], q[|q| - 1].card.id;
      DistinctCount(before);
      assert IdSet(q) == IdSet(before) + {last};
      assert last !in IdSet(before);
    }
  }

  lemma PutKeeps(q: Cards, e: Entry)
    requires Distinct(q)
    ensures Distinct(Put(q, e)) && IdSet(Put(q, e)) == IdSet(q) + {e.card.id}
    ensures HeldArePreviews(q) && (e.held ==> IsPreview(e.card.id)) ==> HeldArePreviews(Put(q, e))
    ensures NoneHeld(q) && !e.held ==> NoneHeld(Put(q, e))
  {
    var after := Put(q, e);
    var at := if HasId(q, e.card.id) then Index(q, e.card.id) else |q|;
    assert after[at] == e;
    assert forall i :: 0 <= i < |q| && i != at ==> after[i] == q[i];
    forall id | id in IdSet(q) + {e.card.id}
      ensures id in IdSet(after)
    {
      if id == e.card.id {
        assert after[at].card.id == id;
      } else {
        var i :| 0 <= i < |q| && q[i].card.id == id;
        assert after[i].card.id == id;
      }
    }
  }

  lemma {:induction false} PutAllKeeps(q: Cards, cards: seq<Card>, hold: bool)
    requires Distinct(q)
    ensures Distinct(PutAll(q, cards, hold))
    ensures IdSet(PutAll(q, cards, hold)) == IdSet(q) + (set i | 0 <= i < |cards| :: cards[i].id)
    ensures HeldArePreviews(q) ==> HeldArePreviews(PutAll(q, cards, hold))
    ensures NoneHeld(q) && !hold ==> NoneHeld(PutAll(q, cards, hold))
  {
    if cards != [] {
      var before, card := cards[..|cards| - 1], cards[|cards| - 1];
      PutAllKeeps(q, before, hold);
      PutKeeps(PutAll(q, before, hold), Entry(card, hold && IsPreview(card.id)));
      assert (set i | 0 <= i < |cards| :: cards[i].id) == (set i | 0 <= i < |before| :: before[i].id) + {card.id};
    }
  }

  lemma FilterKeeps(q: Cards, keep: Entry -> bool)
    requires Distinct(q)
    ensures var kept := Filter(q, keep);
      && Distinct(kept) && IdSet(kept) <= IdSet(q) && |kept| <= |q|
      && (HeldArePreviews(q) ==> HeldArePreviews(kept)) && (NoneHeld(q) ==> NoneHeld(kept))
    decreases |q|
  {
    FilterOrder(q, keep);
    var kept := Filter(q, keep);
    forall id | id in IdSet(kept)
      ensures id in IdSet(q)
    {
      var i :| 0 <= i < |kept| && kept[i].card.id == id;
      assert kept[i] in q;
    }
  }

  /** Enqueueing keeps the ids distinct and the queue within its limit, where it does not refuse. */
  lemma EnqueuedKeeps(q: Cards, cards: seq<Card>, hold: bool)
    requires Distinct(q) && !Overfull(q, cards) && HeldArePreviews(q)
    ensures var after := Enqueued(q, cards, hold);
      && Distinct(after) && |after| <= MAX_CARDS && HeldArePreviews(after)
      && IdSet(after) <= IdSet(q) + (set i | 0 <= i < |cards| :: cards[i].id)
      && (AnyLive(cards) && !hold ==> NoneHeld(after))
  {
    var keep := (e: Entry) => !e.held;
    var start := if AnyLive(cards) then Filter(q, keep) else q;
    FilterKeeps(q, keep);
    FilterOrder(q, keep);
    var unheld := Filter(q, keep);
    forall i | 0 <= i < |unheld|
      ensures !unheld[i].held
    {
      assert unheld[i] in unheld && keep(unheld[i]);
    }
    PutAllKeeps(start, cards, hold);
    EnqueuedFits(q, Enqueued(q, cards, hold), cards);
  }

  lemma EnqueuedFits(q: Cards, after: Cards, cards: seq<Card>)
    requires Distinct(q) && Distinct(after) && !Overfull(q, cards)
    requires IdSet(after) <= IdSet(q) + (set i | 0 <= i < |cards| :: cards[i].id)
    ensures |after| <= MAX_CARDS
  {
    DistinctCount(q);
    DistinctCount(after);
    forall id | id in IdSet(after)
      ensures id in IdSet(q) + NewIds(q, cards)
    {
      if HasId(q, id) { assert q[Index(q, id)].card.id == id; }
    }
    SubsetSize(IdSet(after), IdSet(q) + NewIds(q, cards));
  }

  /** Moving a card to the front loses none and gains none. */
  lemma MovedKeeps(q: Cards, id: string)
    requires Distinct(q)
    ensures var after := MovedToFront(q, id);
      && Distinct(after) && IdSet(after) == IdSet(q) && |after| == |q| && multiset(after) == multiset(q)
      && (HeldArePreviews(q) ==> HeldArePreviews(after)) && (NoneHeld(q) ==> NoneHeld(after))
  {
    if HasId(q, id) && Index(q, id) >= VISIBLE_CARDS {
      MoveKeeps(q, Index(q, id));
    }
  }

  lemma MovePlaces(q: Cards, i: nat)
    requires i < |q|
    ensures var after := ToFront(q, i);
      |after| == |q| && (forall k :: 0 <= k < |q| ==> after[k] == if k == 0 then q[i] else if k <= i then q[k - 1] else q[k])
  {
  }

  lemma MoveLosesNone(q: Cards, i: nat)
    requires i < |q|
    ensures multiset(ToFront(q, i)) == multiset(q)
  {
    assert q == q[..i] + [q[i]] + q[i + 1..];
  }

  lemma MoveIds(q: Cards, i: nat)
    requires i < |q|
    ensures IdSet(ToFront(q, i)) == IdSet(q)
  {
    var after := ToFront(q, i);
    MovePlaces(q, i);
    forall k | 0 <= k < |q|
      ensures q[k].card.id in IdSet(after)
    {
      var to := if k < i then k + 1 else if k == i then 0 else k;
      assert after[to] == q[k];
    }
    forall k | 0 <= k < |q|
      ensures after[k].card.id in IdSet(q)
    {
      var from := if k == 0 then i else if k <= i then k - 1 else k;
      assert after[k] == q[from];
    }
  }

  lemma MoveKeeps(q: Cards, i: nat)
    requires i < |q| && Distinct(q)
    ensures var after := ToFront(q, i);
      && Distinct(after) && IdSet(after) == IdSet(q) && |after| == |q| && multiset(after) == multiset(q)
      && (HeldArePreviews(q) ==> HeldArePreviews(after)) && (NoneHeld(q) ==> NoneHeld(after))
  {
    MovePlaces(q, i);
    MoveLosesNone(q, i);
    MoveIds(q, i);
  }

  /** Prioritizing is a sequence of moves to the front that loses no card. */
  lemma {:induction false} PrioritizedKeeps(q: Cards, immediate: seq<string>)
    requires Distinct(q)
    ensures var after := Prioritized(q, immediate);
      && Distinct(after) && IdSet(after) == IdSet(q) && |after| == |q| && multiset(after) == multiset(q)
      && (HeldArePreviews(q) ==> HeldArePreviews(after)) && (NoneHeld(q) ==> NoneHeld(after))
  {
    if immediate != [] {
      PrioritizedKeeps(q, immediate[..|immediate| - 1]);
      MovedKeeps(Prioritized(q, immediate[..|immediate| - 1]), immediate[|immediate| - 1]);
    }
  }

  /** The last id asked for is visible afterwards: in front where it waited, and otherwise where the ones before left it. */
  lemma LastImmediateIsVisible(q: Cards, immediate: seq<string>)
    requires Distinct(q) && immediate != [] && HasId(q, immediate[|immediate| - 1])
    ensures var id := immediate[|immediate| - 1]; var before := Prioritized(q, immediate[..|immediate| - 1]);
      && HasId(Visible(Prioritized(q, immediate)), id)
      && HasId(before, id) && HasId(Prioritized(q, immediate), id)
      && Index(Prioritized(q, immediate), id) == if Index(before, id) >= VISIBLE_CARDS then 0 else Index(before, id)
  {
    var id := immediate[|immediate| - 1];
    var before := Prioritized(q, immediate[..|immediate| - 1]);
    PrioritizedKeeps(q, immediate[..|immediate| - 1]);
    assert q[Index(q, id)].card.id in IdSet(before);
    var i :| 0 <= i < |before| && before[i].card.id == id;
    IndexIsUnique(before, id, i);
    var place := if i >= VISIBLE_CARDS then 0 else i;
    MovedKeeps(before, id);
    IndexIsUnique(Prioritized(q, immediate), id, place);
    assert Visible(Prioritized(q, immediate))[place].card.id == id;
  }

  /** An earlier one need not be: a later move can push it off the last visible place. */
  lemma EarlierImmediateCanWait()
    ensures var a, b, c, d := Entry(Card("a", ""), false), Entry(Card("b", ""), false), Entry(Card("c", ""), false), Entry(Card("d", ""), false);
      var q := [a, b, c, d];
      Distinct(q) && Prioritized(q, ["c", "d"]) == [d, a, b, c] && !HasId(Visible(Prioritized(q, ["c", "d"])), "c")
  {
    var a, b, c, d := Entry(Card("a", ""), false), Entry(Card("b", ""), false), Entry(Card("c", ""), false), Entry(Card("d", ""), false);
    var q := [a, b, c, d];
    IndexIsUnique(q, "c", 2);
    IndexIsUnique(q, "d", 3);
    assert ["c"][..0] == [] && ["c", "d"][..1] == ["c"];
    assert Prioritized(q, ["c"]) == q;
    assert Prioritized(q, ["c", "d"]) == MovedToFront(q, "d") == [d, a, b, c];
  }

  // ── How the queue stands for the list ─────────────────────────────────────

  ghost function Shown(visible: seq<Card>, heldIds: seq<string>): Cards {
    seq(|visible|, i requires 0 <= i < |visible| => Entry(visible[i], visible[i].id in heldIds))
  }

  ghost function Abs(visible: seq<Card>, heldIds: seq<string>, pending: Cards): Cards {
    Shown(visible, heldIds) + pending
  }

  predicate IsVisible(visible: seq<Card>, id: string) {
    exists i :: 0 <= i < |visible| && visible[i].id == id
  }

  /** Only an id that is no waiting card's may be held, and no more than three cards are visible. */
  ghost predicate Loose(visible: seq<Card>, heldIds: seq<string>, pending: Cards) {
    && |visible| <= VISIBLE_CARDS
    && Distinct(Abs(visible, heldIds, pending))
    && forall i :: 0 <= i < |pending| ==> pending[i].card.id !in heldIds
  }

  /** Between operations: the visible cards are the first of the list, and only visible cards are held. */
  ghost predicate Rests(visible: seq<Card>, heldIds: seq<string>, pending: Cards) {
    && Loose(visible, heldIds, pending)
    && (|visible| < VISIBLE_CARDS ==> pending == [])
    && forall id :: id in heldIds ==> IsVisible(visible, id)
  }

  lemma AbsSplits(visible: seq<Card>, heldIds: seq<string>, pending: Cards)
    ensures var q := Abs(visible, heldIds, pending);
      && |q| == |visible| + |pending|
      && (forall i :: 0 <= i < |visible| ==> q[i] == Entry(visible[i], visible[i].id in heldIds))
      && (forall i :: 0 <= i < |pending| ==> q[|visible| + i] == pending[i])
  {
  }

  /** Promotion changes nothing about the list. */
  lemma PromoteStep(visible: seq<Card>, heldIds: seq<string>, pending: Cards)
    requires Loose(visible, heldIds, pending) && pending != [] && |visible| < VISIBLE_CARDS
    ensures var heldIds' := if pending[0].held then heldIds + [pending[0].card.id] else heldIds;
      && Abs(visible + [pending[0].card], heldIds', pending[1..]) == Abs(visible, heldIds, pending)
      && Loose(visible + [pending[0].card], heldIds', pending[1..])
  {
    var heldIds' := if pending[0].held then heldIds + [pending[0].card.id] else heldIds;
    var q := Abs(visible, heldIds, pending);
    assert q[|visible|] == pending[0];
    forall i | 0 <= i < |visible|
      ensures visible[i].id in heldIds' <==> visible[i].id in heldIds
    {
      assert q[i].card == visible[i];
    }
    assert Shown(visible + [pending[0].card], heldIds') == Shown(visible, heldIds) + [pending[0]];
    assert Shown(visible, heldIds) + [pending[0]] + pending[1..] == q;
    forall i | 1 <= i < |pending|
      ensures pending[i].card.id !in heldIds'
    {
      assert q[|visible| + i] == pending[i];
    }
  }

  /** Dropping the held ids that are not visible changes nothing about the list. */
  lemma HeldIdsTrimmed(visible: seq<Card>, heldIds: seq<string>, pending: Cards)
    requires Loose(visible, heldIds, pending)
    ensures var trimmed := Filter(heldIds, (id: string) => IsVisible(visible, id));
      && Abs(visible, trimmed, pending) == Abs(visible, heldIds, pending)
      && Loose(visible, trimmed, pending)
      && forall id :: id in trimmed ==> IsVisible(visible, id)
  {
    var keep := (id: string) => IsVisible(visible, id);
    FilterOrder(heldIds, keep);
    forall i | 0 <= i < |visible|
      ensures visible[i].id in Filter(heldIds, keep) <==> visible[i].id in heldIds
    {
      assert IsVisible(visible, visible[i].id);
    }
    assert Shown(visible, Filter(heldIds, keep)) == Shown(visible, heldIds);
  }

  /** Keeping some cards of both parts keeps those of the list. */
  lemma KeptParts(visible: seq<Card>, heldIds: seq<string>, pending: Cards, keep: Entry -> bool, keepCard: Card -> bool)
    requires Loose(visible, heldIds, pending)
    requires forall i :: 0 <= i < |visible| ==> (keepCard(visible[i]) <==> keep(Entry(visible[i], visible[i].id in heldIds)))
    ensures var v, p := Filter(visible, keepCard), Filter(pending, keep);
      Abs(v, heldIds, p) == Filter(Abs(visible, heldIds, pending), keep) && Loose(v, heldIds, p)
  {
    FilterConcat(Shown(visible, heldIds), pending, keep);
    KeptVisible(visible, heldIds, keep, keepCard);
    FilterOrder(visible, keepCard);
    FilterOrder(pending, keep);
    FilterKeeps(Abs(visible, heldIds, pending), keep);
    var v, p := Filter(visible, keepCard), Filter(pending, keep);
    forall i | 0 <= i < |p|
      ensures p[i].card.id !in heldIds
    {
      assert p[i] in pending;
    }
  }

  lemma {:induction false} KeptVisible(visible: seq<Card>, heldIds: seq<string>, keep: Entry -> bool, keepCard: Card -> bool)
    requires forall i :: 0 <= i < |visible| ==> (keepCard(visible[i]) <==> keep(Entry(visible[i], visible[i].id in heldIds)))
    ensures Filter(Shown(visible, heldIds), keep) == Shown(Filter(visible, keepCard), heldIds)
  {
    if visible != [] {
      var rest := visible[1..];
      KeptVisible(rest, heldIds, keep, keepCard);
      assert Shown(visible, heldIds)[1..] == Shown(rest, heldIds);
    }
  }

  /** Only visible cards are held. */
  ghost predicate HeldVisible(visible: seq<Card>, heldIds: seq<string>) {
    forall id :: id in heldIds ==> IsVisible(visible, id)
  }

  /** The held ids once a visible card has been replaced. */
  function Reheld(heldIds: seq<string>, id: string, held: bool): seq<string> {
    Filter(heldIds, (other: string) => other != id) + if held then [id] else []
  }

  lemma PutShown(visible: seq<Card>, heldIds: seq<string>, i: nat, card: Card, held: bool)
    requires i < |visible| && visible[i].id == card.id
    requires forall k :: 0 <= k < |visible| && k != i ==> visible[k].id != card.id
    ensures Shown(visible[i := card], Reheld(heldIds, card.id, held)) == Shown(visible, heldIds)[i := Entry(card, held)]
  {
    FilterOrder(heldIds, (other: string) => other != card.id);
    var a := Shown(visible[i := card], Reheld(heldIds, card.id, held));
    var b := Shown(visible, heldIds)[i := Entry(card, held)];
    forall k | 0 <= k < |visible|
      ensures a[k] == b[k]
    {
    }
  }

  lemma NoneReheld(heldIds: seq<string>, id: string, held: bool, pending: Cards)
    requires forall i :: 0 <= i < |pending| ==> pending[i].card.id !in heldIds && pending[i].card.id != id
    ensures forall i :: 0 <= i < |pending| ==> pending[i].card.id !in Reheld(heldIds, id, held)
  {
    FilterOrder(heldIds, (other: string) => other != id);
  }

  /** No other card of the queue has the id of its `i`-th visible one. */
  lemma OthersDiffer(visible: seq<Card>, heldIds: seq<string>, pending: Cards, i: nat)
    requires Distinct(Abs(visible, heldIds, pending)) && i < |visible|
    ensures forall k :: 0 <= k < |visible| && k != i ==> visible[k].id != visible[i].id
    ensures forall k :: 0 <= k < |pending| ==> pending[k].card.id != visible[i].id
  {
    var q := Abs(visible, heldIds, pending);
    AbsSplits(visible, heldIds, pending);
    forall k | 0 <= k < |visible| && k != i ensures visible[k].id != visible[i].id {
      assert q[k].card.id != q[i].card.id;
    }
    forall k | 0 <= k < |pending| ensures pending[k].card.id != visible[i].id {
      assert q[|visible| + k].card.id != q[i].card.id;
    }
  }

  lemma PutVisible(visible: seq<Card>, heldIds: seq<string>, pending: Cards, i: nat, card: Card, held: bool)
    requires Loose(visible, heldIds, pending) && HeldVisible(visible, heldIds)
    requires i < |visible| && visible[i].id == card.id
    ensures var heldIds' := Reheld(heldIds, card.id, held);
      && Abs(visible[i := card], heldIds', pending) == Put(Abs(visible, heldIds, pending), Entry(card, held))
      && Loose(visible[i := card], heldIds', pending) && HeldVisible(visible[i := card], heldIds')
  {
    var q := Abs(visible, heldIds, pending);
    OthersDiffer(visible, heldIds, pending, i);
    PutShown(visible, heldIds, i, card, held);
    NoneReheld(heldIds, card.id, held, pending);
    ReheldVisible(visible, heldIds, i, card, held);
    AbsSplits(visible, heldIds, pending);
    IndexIsUnique(q, card.id, i);
    UpdateLeft(Shown(visible, heldIds), pending, i, Entry(card, held));
    PutKeeps(q, Entry(card, held));
  }

  lemma UpdateLeft(left: Cards, right: Cards, i: nat, e: Entry)
    requires i < |left|
    ensures left[i := e] + right == (left + right)[i := e]
  {
  }

  lemma ReheldVisible(visible: seq<Card>, heldIds: seq<string>, i: nat, card: Card, held: bool)
    requires HeldVisible(visible, heldIds) && i < |visible| && visible[i].id == card.id
    ensures HeldVisible(visible[i := card], Reheld(heldIds, card.id, held))
  {
    FilterOrder(heldIds, (other: string) => other != card.id);
    forall id | id in Reheld(heldIds, card.id, held)
      ensures IsVisible(visible[i := card], id)
    {
      if id == card.id {
        assert visible[i := card][i].id == id;
      } else {
        var k :| 0 <= k < |visible| && visible[k].id == id;
        assert visible[i := card][k].id == id;
      }
    }
  }

  lemma PutPending(visible: seq<Card>, heldIds: seq<string>, pending: Cards, i: nat, card: Card, held: bool)
    requires Loose(visible, heldIds, pending) && i < |pending| && pending[i].card.id == card.id
    ensures Abs(visible, heldIds, pending[i := Entry(card, held)]) == Put(Abs(visible, heldIds, pending), Entry(card, held))
    ensures Loose(visible, heldIds, pending[i := Entry(card, held)])
  {
    var q := Abs(visible, heldIds, pending);
    AbsSplits(visible, heldIds, pending);
    IndexIsUnique(q, card.id, |visible| + i);
    assert Abs(visible, heldIds, pending[i := Entry(card, held)]) == q[|visible| + i := Entry(card, held)];
    PutKeeps(q, Entry(card, held));
  }

  lemma PutNew(visible: seq<Card>, heldIds: seq<string>, pending: Cards, card: Card, held: bool)
    requires Loose(visible, heldIds, pending) && HeldVisible(visible, heldIds)
    requires !IsVisible(visible, card.id) && !HasId(pending, card.id)
    ensures Abs(visible, heldIds, pending + [Entry(card, held)]) == Put(Abs(visible, heldIds, pending), Entry(card, held))
    ensures Loose(visible, heldIds, pending + [Entry(card, held)])
  {
    var q := Abs(visible, heldIds, pending);
    HasIdInParts(visible, heldIds, pending, card.id);
    assert Abs(visible, heldIds, pending + [Entry(card, held)]) == q + [Entry(card, held)];
    PutKeeps(q, Entry(card, held));
  }

  lemma HasIdInParts(visible: seq<Card>, heldIds: seq<string>, pending: Cards, id: string)
    ensures HasId(Abs(visible, heldIds, pending), id) <==> IsVisible(visible, id) || HasId(pending, id)
  {
    var q := Abs(visible, heldIds, pending);
    AbsSplits(visible, heldIds, pending);
    if HasId(q, id) {
      var i := Index(q, id);
      if i >= |visible| { assert pending[i - |visible|].card.id == id; }
    }
    if IsVisible(visible, id) {
      var i :| 0 <= i < |visible| && visible[i].id == id;
      assert q[i].card.id == id;
    }
    if HasId(pending, id) {
      var i := Index(pending, id);
      assert q[|visible| + i].card.id == id;
    }
  }

  /** A waiting card trades places with the last visible one and goes to the front. */
  lemma FrontStep(visible: seq<Card>, pending: Cards, i: nat)
    requires Rests(visible, [], pending) && i < |pending| && NoneHeld(Abs(visible, [], pending))
    ensures |visible| == VISIBLE_CARDS
    ensures var v := [pending[i].card] + visible[..2];
      var p := [Entry(visible[2], false)] + pending[..i] + pending[i + 1..];
      && Abs(v, [], p) == MovedToFront(Abs(visible, [], pending), pending[i].card.id)
      && Rests(v, [], p)
  {
    var q := Abs(visible, [], pending);
    AbsSplits(visible, [], pending);
    assert q[|visible| + i] == pending[i];
    IndexIsUnique(q, pending[i].card.id, |visible| + i);
    var v := [pending[i].card] + visible[..2];
    var p := [Entry(visible[2], false)] + pending[..i] + pending[i + 1..];
    FrontSeq(Shown(visible, []), pending, i);
    assert Shown(v, []) == [pending[i]] + Shown(visible, [])[..2];
    MoveKeeps(q, |visible| + i);
  }

  lemma FrontSeq(shown: Cards, pending: Cards, i: nat)
    requires |shown| == VISIBLE_CARDS && i < |pending|
    ensures [pending[i]] + shown[..2] + ([shown[2]] + pending[..i] + pending[i + 1..]) == ToFront(shown + pending, VISIBLE_CARDS + i)
  {
    assert (shown + pending)[..VISIBLE_CARDS + i] == shown + pending[..i];
    assert (shown + pending)[VISIBLE_CARDS + i + 1..] == pending[i + 1..];
    assert shown == shown[..2] + [shown[2]];
  }

  lemma NotWaiting(visible: seq<Card>, heldIds: seq<string>, pending: Cards, id: string)
    requires Rests(visible, heldIds, pending) && !HasId(pending, id)
    ensures MovedToFront(Abs(visible, heldIds, pending), id) == Abs(visible, heldIds, pending)
  {
    var q := Abs(visible, heldIds, pending);
    AbsSplits(visible, heldIds, pending);
    forall i | |visible| <= i < |q|
      ensures q[i].card.id != id
    {
      assert q[i] == pending[i - |visible|];
    }
  }

  /** The list's first cards are the visible ones. */
  lemma RestShowsFirst(visible: seq<Card>, heldIds: seq<string>, pending: Cards)
    requires Rests(visible, heldIds, pending)
    ensures Visible(Abs(visible, heldIds, pending)) == Shown(visible, heldIds)
  {
    AbsSplits(visible, heldIds, pending);
  }
}
