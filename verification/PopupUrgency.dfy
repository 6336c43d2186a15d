/**
 Exactly which urgent cards the popup shows (`prioritize` in `src-tauri/src/notification_popup.rs`): every move to the
 front pushes the visible cards one place back, whatever they are.
 */
module PopupUrgency {
  import opened Common
  import opened Filters
  import opened PopupQueues
  import opened Popups
  import opened PopupRuns

  /** The id's card waits, so its turn moves it to the front. */
  ghost predicate Waits(q: Cards, id: string) {
    HasId(q, id) && Index(q, id) >= VISIBLE_CARDS
  }

  /** How many of the ids waited when their turn came. */
  ghost function Moves(q: Cards, immediate: seq<string>): nat {
    if immediate == [] then 0
    else
      var before := immediate[..|immediate| - 1];
      Moves(q, before) + if Waits(Prioritized(q, before), immediate[|immediate| - 1]) then 1 else 0
  }

  /** How many of the ids after the `k`-th waited when their turn came. */
  ghost function LaterMoves(q: Cards, immediate: seq<string>, k: nat): int
    requires k < |immediate|
  {
    Moves(q, immediate) - Moves(q, immediate[..k + 1])
  }

  /** A card is pushed `moves` places back, or off the visible places. */
  ghost predicate Pushed(from: nat, to: nat, moves: int) {
    if from + moves < VISIBLE_CARDS then to == from + moves else to >= VISIBLE_CARDS
  }

  lemma VisibleIsEarly(q: Cards, id: string)
    requires Distinct(q) && HasId(q, id)
    ensures HasId(Visible(q), id) <==> Index(q, id) < VISIBLE_CARDS
  {
    if HasId(Visible(q), id) {
      IndexIsUnique(q, id, Index(Visible(q), id));
    }
    assert Index(q, id) < VISIBLE_CARDS ==> Visible(q)[Index(q, id)].card.id == id;
  }

  /** What somebody else's turn does to a card. */
  lemma OthersTurn(q: Cards, other: string, id: string)
    requires Distinct(q) && HasId(q, id) && other != id
    ensures var after := MovedToFront(q, other);
      HasId(after, id) && Pushed(Index(q, id), Index(after, id), if Waits(q, other) then 1 else 0)
  {
    var p := Index(q, id);
    MovedKeeps(q, other);
    var after := MovedToFront(q, other);
    if Waits(q, other) {
      MovePlaces(q, Index(q, other));
      IndexIsUnique(after, id, if p < Index(q, other) then p + 1 else p);
    } else {
      IndexIsUnique(after, id, p);
    }
  }

  /** A card's own turn leaves it visible. */
  lemma OwnTurn(q: Cards, id: string)
    requires Distinct(q) && HasId(q, id)
    ensures var after := MovedToFront(q, id);
      HasId(after, id) && Index(after, id) == if Waits(q, id) then 0 else Index(q, id)
  {
    var p := Index(q, id);
    MovedKeeps(q, id);
    var after := MovedToFront(q, id);
    if Waits(q, id) { MovePlaces(q, p); }
    IndexIsUnique(after, id, if Waits(q, id) then 0 else p);
  }

  lemma StillThere(q: Cards, immediate: seq<string>, id: string)
    requires Distinct(q)
    ensures HasId(Prioritized(q, immediate), id) <==> HasId(q, id)
  {
    PrioritizedKeeps(q, immediate);
    var after := Prioritized(q, immediate);
    if HasId(q, id) { assert q[Index(q, id)].card.id in IdSet(after); }
    if HasId(after, id) { assert after[Index(after, id)].card.id in IdSet(q); }
  }

  /** Where a card ends whose turn does not come again after the first `k` of the ids. */
  lemma {:induction false} PlaceAfter(q: Cards, immediate: seq<string>, k: nat, id: string)
    requires Distinct(q) && HasId(q, id) && k <= |immediate| && id !in immediate[k..]
    ensures Moves(q, immediate[..k]) <= Moves(q, immediate)
    ensures HasId(Prioritized(q, immediate[..k]), id) && HasId(Prioritized(q, immediate), id)
    ensures Pushed(Index(Prioritized(q, immediate[..k]), id), Index(Prioritized(q, immediate), id),
                   Moves(q, immediate) - Moves(q, immediate[..k]))
    decreases |immediate|
  {
    StillThere(q, immediate[..k], id);
    StillThere(q, immediate, id);
    var n := |immediate| - 1;
    if k == |immediate| {
      assert immediate[..k] == immediate;
    } else {
      var before := immediate[..n];
      assert immediate[k..][n - k] == immediate[n] && before[k..] == immediate[k..][..n - k];
      assert before[..k] == immediate[..k];
      PlaceAfter(q, before, k, id);
      PrioritizedKeeps(q, before);
      OthersTurn(Prioritized(q, before), immediate[n], id);
    }
  }

  /**
   An urgent card is visible in the end exactly when its place after its own turn leaves room for all the later ids that
   had to be moved. `k` is the last turn of its id.
   */
  lemma UrgentVisibleIff(q: Cards, immediate: seq<string>, k: nat)
    requires Distinct(q) && k < |immediate| && HasId(q, immediate[k]) && immediate[k] !in immediate[k + 1..]
    ensures HasId(Prioritized(q, immediate[..k + 1]), immediate[k]) && LaterMoves(q, immediate, k) >= 0
    ensures HasId(Visible(Prioritized(q, immediate)), immediate[k]) <==>
      Index(Prioritized(q, immediate[..k + 1]), immediate[k]) + LaterMoves(q, immediate, k) < VISIBLE_CARDS
  {
    PlaceAfter(q, immediate, k + 1, immediate[k]);
    PrioritizedKeeps(q, immediate);
    VisibleIsEarly(Prioritized(q, immediate), immediate[k]);
  }

  // ── The condition on the queue and the urgent ids alone ───────────────────

  ghost predicate AllDistinct(ids: seq<string>) {
    forall i, j :: 0 <= i < j < |ids| ==> ids[i] != ids[j]
  }

  /**
   How many of the ids have to be moved, read off the queue as it is: those that wait, and those the ones before them
   push off their visible place.
   */
  ghost function Pushes(q: Cards, immediate: seq<string>): nat
    decreases |immediate|, 0
  {
    if immediate == [] then 0
    else
      var before := immediate[..|immediate| - 1];
      Pushes(q, before) + if MustMove(q, immediate, |immediate| - 1) then 1 else 0
  }

  /** The `k`-th id is queued, and waits by the time its turn comes. */
  ghost predicate MustMove(q: Cards, immediate: seq<string>, k: nat)
    requires k < |immediate|
    decreases k, 1
  {
    HasId(q, immediate[k]) && Index(q, immediate[k]) + Pushes(q, immediate[..k]) >= VISIBLE_CARDS
  }

  lemma {:induction false} PushesAreMoves(q: Cards, immediate: seq<string>)
    requires Distinct(q) && AllDistinct(immediate)
    ensures Moves(q, immediate) == Pushes(q, immediate)
    decreases |immediate|
  {
    if immediate != [] {
      var n := |immediate| - 1;
      var before, last := immediate[..n], immediate[n];
      PushesAreMoves(q, before);
      StillThere(q, before, last);
      if HasId(q, last) {
        assert last !in before[0..];
        PlaceAfter(q, before, 0, last);
        assert before[..0] == [];
      }
    }
  }

  lemma {:induction false} PushesGrow(q: Cards, immediate: seq<string>, k: nat)
    requires k <= |immediate|
    ensures Pushes(q, immediate[..k]) <= Pushes(q, immediate)
    ensures k < |immediate| ==>
      Pushes(q, immediate[..k + 1]) == Pushes(q, immediate[..k]) + if MustMove(q, immediate, k) then 1 else 0
    decreases |immediate|
  {
    if k == |immediate| {
      assert immediate[..k] == immediate;
    } else {
      var n := |immediate| - 1;
      assert immediate[..n][..k] == immediate[..k] == immediate[..k + 1][..k];
      PushesGrow(q, immediate[..n], k);
    }
  }

  /** The place of an urgent card after its own turn. */
  lemma PlaceAfterTurn(q: Cards, immediate: seq<string>, k: nat)
    requires Distinct(q) && AllDistinct(immediate) && k < |immediate| && HasId(q, immediate[k])
    ensures HasId(Prioritized(q, immediate[..k + 1]), immediate[k])
    ensures Index(Prioritized(q, immediate[..k + 1]), immediate[k]) ==
      if MustMove(q, immediate, k) then 0 else Index(q, immediate[k]) + Pushes(q, immediate[..k])
  {
    var before, id := immediate[..k], immediate[k];
    assert immediate[..k + 1][..k] == before;
    assert id !in before[0..] && before[..0] == [];
    PlaceAfter(q, before, 0, id);
    PushesAreMoves(q, before);
    PrioritizedKeeps(q, before);
    OwnTurn(Prioritized(q, before), id);
  }

  /** The same condition, before anything is moved. */
  lemma UrgentVisibleFromStart(q: Cards, immediate: seq<string>, k: nat)
    requires Distinct(q) && AllDistinct(immediate) && k < |immediate| && HasId(q, immediate[k])
    ensures HasId(Visible(Prioritized(q, immediate)), immediate[k]) <==>
      if MustMove(q, immediate, k) then Pushes(q, immediate) - Pushes(q, immediate[..k]) <= VISIBLE_CARDS
      else Index(q, immediate[k]) + Pushes(q, immediate) < VISIBLE_CARDS
  {
    UrgentVisibleIff(q, immediate, k);
    PlaceAfterTurn(q, immediate, k);
    PushesAreMoves(q, immediate);
    PushesAreMoves(q, immediate[..k + 1]);
    PushesGrow(q, immediate, k);
  }

  ghost predicate AllShown(q: Cards, immediate: seq<string>) {
    forall k :: 0 <= k < |immediate| && HasId(q, immediate[k]) ==> HasId(Visible(Prioritized(q, immediate)), immediate[k])
  }

  /**
   Every urgent card in the queue is shown exactly when no more than three of them have to be moved, and none that need
   not be moved stands where those moves push it off.
   */
  lemma AllUrgentVisibleIff(q: Cards, immediate: seq<string>)
    requires Distinct(q) && AllDistinct(immediate)
    ensures AllShown(q, immediate) <==>
      && Pushes(q, immediate) <= VISIBLE_CARDS
      && forall k :: 0 <= k < |immediate| && HasId(q, immediate[k]) && !MustMove(q, immediate, k) ==>
           Index(q, immediate[k]) + Pushes(q, immediate) < VISIBLE_CARDS
  {
    forall k | 0 <= k < |immediate| && HasId(q, immediate[k])
      ensures HasId(Visible(Prioritized(q, immediate)), immediate[k]) <==>
        if MustMove(q, immediate, k) then Pushes(q, immediate) - Pushes(q, immediate[..k]) <= VISIBLE_CARDS
        else Index(q, immediate[k]) + Pushes(q, immediate) < VISIBLE_CARDS
    {
      UrgentVisibleFromStart(q, immediate, k);
    }
    if Pushes(q, immediate) > 0 { var first := FirstMove(q, immediate); }
  }

  lemma {:induction false} FirstMove(q: Cards, immediate: seq<string>) returns (k: nat)
    requires Pushes(q, immediate) > 0
    ensures k < |immediate| && MustMove(q, immediate, k) && Pushes(q, immediate[..k]) == 0
    decreases |immediate|
  {
    var n := |immediate| - 1;
    if Pushes(q, immediate[..n]) == 0 {
      k := n;
    } else {
      k := FirstMove(q, immediate[..n]);
      assert immediate[..n][..k] == immediate[..k];
    }
  }

  // ── Through an admission ──────────────────────────────────────────────────

  /**
   What an admission shows: every urgent card queued afterwards, exactly under the condition on the enqueued list. Ids in
   the history are distinct.
   */
  lemma AdmissionShowsUrgentIff(s: Queue, core: Core, cards: seq<Card>, hold: bool, caption: string)
    requires Sound(s) && AllDistinct(ImmediateIds(core))
    requires Admitted(s, core, cards, false, hold, caption).1 == Done(true)
    ensures var immediate := ImmediateIds(core);
      var q := Enqueued(Reconciled(s, core).cards, Admissible(s, core, cards, false), hold);
      && Admitted(s, core, cards, false, hold, caption).0.cards == Prioritized(q, immediate)
      && (AllShown(q, immediate) <==>
            && Pushes(q, immediate) <= VISIBLE_CARDS
            && forall k :: 0 <= k < |immediate| && HasId(q, immediate[k]) && !MustMove(q, immediate, k) ==>
                 Index(q, immediate[k]) + Pushes(q, immediate) < VISIBLE_CARDS)
  {
    ReconciledSound(s, core);
    EnqueuedKeeps(Reconciled(s, core).cards, Admissible(s, core, cards, false), hold);
    AllUrgentVisibleIff(Enqueued(Reconciled(s, core).cards, Admissible(s, core, cards, false), hold), ImmediateIds(core));
  }

  const FOUND: Kind := MatchFound
  const OTHER: Kind := OtherKind("friend")
  const HISTORY: seq<Item> := [
    Item("c", FOUND, false, true, ""), Item("d", FOUND, false, true, ""),
    Item("a", OTHER, false, false, ""), Item("b", OTHER, false, false, "")]
  const BUSY: Core := Core(None, HISTORY, Preferences(true, true, true, true, map[], 5), {}, 0)
  const FOUR: seq<Card> := [Card("a", ""), Card("b", ""), Card("c", ""), Card("d", "")]

  lemma {:induction false} FilterAll<T>(s: seq<T>, keep: T -> bool)
    requires forall x :: x in s ==> keep(x)
    ensures Filter(s, keep) == s
  {
    if s != [] {
      assert s[0] in s && forall x :: x in s[1..] ==> x in s;
      FilterAll(s[1..], keep);
    }
  }

  lemma EligibleHere()
    ensures EligibleIds(BUSY) == ["c", "d", "a", "b"]
  {
    var p := BUSY.preferences;
    FilterAll(HISTORY, (item: Item) => !item.read && WantsPopup(p, BUSY.raises, item.kind));
  }

  lemma ImmediateHere()
    ensures ImmediateIds(BUSY) == ["c", "d"]
  {
    var keep := (item: Item) => item.kind == MatchFound || item.kind == GameFull || item.kind == PartyInvite;
    var last, rest := HISTORY[3..], HISTORY[2..];
    assert last[1..] == [] && rest[1..] == last && HISTORY[1..][1..] == rest;
    assert Filter(last, keep) == [];
    assert Filter(rest, keep) == [];
    assert Filter(HISTORY[1..], keep) == [HISTORY[1]];
  }

  lemma EnqueuedHere()
    ensures !Overfull([], FOUR)
    ensures Enqueued([], FOUR, false) == [Entry(FOUR[0], false), Entry(FOUR[1], false), Entry(FOUR[2], false), Entry(FOUR[3], false)]
  {
    assert NewIds([], FOUR) <= {"a", "b", "c", "d"};
    SubsetSize(NewIds([], FOUR), {"a", "b", "c", "d"});
    assert FOUR[..3][..2][..1][..0] == [] && FOUR[..3][..2] == FOUR[..2] && FOUR[..2][..1] == FOUR[..1];
    assert PutAll([], FOUR[..1], false) == [Entry(FOUR[0], false)];
    assert PutAll([], FOUR[..2], false) == [Entry(FOUR[0], false), Entry(FOUR[1], false)];
    assert PutAll([], FOUR[..3], false) == [Entry(FOUR[0], false), Entry(FOUR[1], false), Entry(FOUR[2], false)];
  }

  /** Two matches found, admitted to an empty queue behind two other notices: the first is queued and not shown. */
  lemma FoundMatchCanWait()
    ensures var (after, outcome) := Admitted(EMPTY.queue, BUSY, FOUR, false, false, "");
      && outcome == Done(true) && "c" in ImmediateIds(BUSY)
      && HasId(after.cards, "c") && !HasId(Visible(after.cards), "c")
  {
    EligibleHere();
    ImmediateHere();
    EnqueuedHere();
    var own := OwnClicks(EMPTY.queue, BUSY);
    FilterAll(FOUR, (c: Card) => c.id in EligibleIds(BUSY) && !Clicked(own.clicks, c.id));
    assert Reconciled(EMPTY.queue, BUSY).cards == [];
    EarlierImmediateCanWait();
    var after := Prioritized(Enqueued([], FOUR, false), ["c", "d"]);
    assert after[3].card.id == "c";
  }
}
