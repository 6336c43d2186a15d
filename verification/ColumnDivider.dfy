/** What dragging one divider does to a fitted list (`ui/src/shared/tableColumns.ts`). */
module ColumnDividers {
  import opened RealSums
  import opened ColumnFits

  /** A divider trades width between its neighbours: the specification of `WithBoundaryTraded`. */
  function Traded(widths: Widths, boundary: int, delta: real, floorOf: int -> real): (traded: Widths)
    ensures |traded| == |widths|
  {
    var left, right := boundary - 1, boundary;
    if left < 0 || right >= |widths| then widths
    else
      var leftFrom, rightFrom := From(widths[left], floorOf(left)), From(widths[right], floorOf(right));
      var moved := Moved(Give(leftFrom, floorOf(left)), Give(rightFrom, floorOf(right)), delta);
      widths[left := leftFrom + moved][right := rightFrom - moved]
  }

  /** Where a neighbour starts from: its width, or its floor where that is wider. */
  function From(width: real, floor: real): real { Max(width, Up(floor)) }

  /** How much a neighbour can give up. */
  function Give(from: real, floor: real): real { Max(0.0, Down(from - floor)) }

  function Moved(back: real, forward: real, delta: real): real { Max(-back, Min(forward, Round(delta))) }

  // ── Where a divider goes ──────────────────────────────────────────────────

  ghost predicate Whole(x: real) { x == Down(x) }

  /** The drag in whole pixels: `whole` is nearest to `delta`, and above it at a half. */
  ghost predicate NearestWhole(whole: real, delta: real) {
    Whole(whole) && whole - 0.5 <= delta < whole + 0.5
  }

  ghost predicate NoFarther(a: real, b: real, target: real) {
    Max(a - target, target - a) <= Max(b - target, target - b)
  }

  /** A move of the divider that leaves both neighbours at or above their floors. */
  ghost predicate Affordable(leftFrom: real, rightFrom: real, leftFloor: real, rightFloor: real, move: real) {
    Whole(move) && leftFrom + move >= leftFloor && rightFrom - move >= rightFloor
  }

  /** A dragged divider takes from the right what it gives to the left: of the moves both can afford, the nearest to the drag. */
  ghost predicate Dragged(widths: Widths, boundary: nat, drag: real, floorOf: int -> real, next: Widths)
    requires 1 <= boundary < |widths|
  {
    var l, r := boundary - 1, boundary;
    var leftFrom, rightFrom := Max(widths[l], Up(floorOf(l))), Max(widths[r], Up(floorOf(r)));
    && |next| == |widths|
    && (forall k :: 0 <= k < |widths| && k != l && k != r ==> next[k] == widths[k])
    && next[l] - leftFrom == rightFrom - next[r]
    && Affordable(leftFrom, rightFrom, floorOf(l), floorOf(r), next[l] - leftFrom)
    && forall move :: Affordable(leftFrom, rightFrom, floorOf(l), floorOf(r), move) ==> NoFarther(next[l] - leftFrom, move, drag)
  }

  lemma RoundIsNearest(delta: real)
    ensures NearestWhole(Round(delta), delta)
  {
  }

  lemma WholeIsApart(a: real, b: real)
    requires Whole(a) && Whole(b) && a < b
    ensures a + 1.0 <= b
  {
    assert a.Floor as real < b.Floor as real;
    assert a.Floor + 1 <= b.Floor;
  }

  /** A neighbour can give up a whole number of pixels exactly up to `Give`. */
  lemma GiveIsExact(from: real, floor: real, move: real)
    requires Whole(move) && from >= floor
    ensures move <= Give(from, floor) <==> from - move >= floor
    ensures Whole(Give(from, floor)) && Give(from, floor) >= 0.0
  {
    DownIsBelow(from - floor);
    DownKeepsWhole(0.0, from - floor);
    if from - move >= floor { DownKeepsWhole(move, from - floor); }
  }

  lemma NegativeIsWhole(x: real)
    requires Whole(x)
    ensures Whole(-x)
  {
    assert (-x).Floor == -(x.Floor);
  }

  lemma AffordableIff(leftFrom: real, rightFrom: real, leftFloor: real, rightFloor: real, move: real)
    requires Whole(move) && leftFrom >= leftFloor && rightFrom >= rightFloor
    ensures Affordable(leftFrom, rightFrom, leftFloor, rightFloor, move) <==>
      -Give(leftFrom, leftFloor) <= move <= Give(rightFrom, rightFloor)
  {
    NegativeIsWhole(move);
    GiveIsExact(leftFrom, leftFloor, -move);
    GiveIsExact(rightFrom, rightFloor, move);
  }

  /**
   Where a drag leaves the divider: the widths lifted to their rounded-up floors trade the whole number of pixels
   nearest to the drag that both can afford. Where both can afford the whole drag, that is the drag.
   */
  lemma DividerFollowsDrag(widths: Widths, boundary: nat, delta: real, drag: real, floorOf: int -> real)
    requires 1 <= boundary < |widths| && NearestWhole(drag, delta)
    ensures var next := Traded(widths, boundary, delta, floorOf); var l, r := boundary - 1, boundary;
      var leftFrom, rightFrom := Max(widths[l], Up(floorOf(l))), Max(widths[r], Up(floorOf(r)));
      && Dragged(widths, boundary, drag, floorOf, next)
      && (Affordable(leftFrom, rightFrom, floorOf(l), floorOf(r), drag) ==> next[l] == leftFrom + drag && next[r] == rightFrom - drag)
  {
    var next := Traded(widths, boundary, delta, floorOf);
    var l, r := boundary - 1, boundary;
    var leftFrom, rightFrom := From(widths[l], floorOf(l)), From(widths[r], floorOf(r));
    var back, forward := Give(leftFrom, floorOf(l)), Give(rightFrom, floorOf(r));
    UpIsAbove(floorOf(l));
    UpIsAbove(floorOf(r));
    NearestIsUnique(Round(delta), drag, delta);
    GiveIsExact(leftFrom, floorOf(l), 0.0);
    GiveIsExact(rightFrom, floorOf(r), 0.0);
    NegativeIsWhole(back);
    AffordableIff(leftFrom, rightFrom, floorOf(l), floorOf(r), Moved(back, forward, delta));
    forall move | Affordable(leftFrom, rightFrom, floorOf(l), floorOf(r), move)
      ensures NoFarther(next[l] - leftFrom, move, drag)
    {
      AffordableIff(leftFrom, rightFrom, floorOf(l), floorOf(r), move);
    }
    if Affordable(leftFrom, rightFrom, floorOf(l), floorOf(r), drag) {
      AffordableIff(leftFrom, rightFrom, floorOf(l), floorOf(r), drag);
    }
  }

  lemma NearestIsUnique(a: real, b: real, delta: real)
    requires a == Round(delta) && NearestWhole(b, delta)
    ensures a == b
  {
    RoundIsNearest(delta);
    if a < b { WholeIsApart(a, b); } else if b < a { WholeIsApart(b, a); }
  }

  /** Only one list of widths is where the drag leaves the divider. */
  lemma DraggedIsUnique(widths: Widths, boundary: nat, drag: real, floorOf: int -> real, a: Widths, b: Widths)
    requires 1 <= boundary < |widths| && Whole(drag)
    requires Dragged(widths, boundary, drag, floorOf, a) && Dragged(widths, boundary, drag, floorOf, b)
    ensures a == b
  {
    var l, r := boundary - 1, boundary;
    var leftFrom, rightFrom := Max(widths[l], Up(floorOf(l))), Max(widths[r], Up(floorOf(r)));
    var m, n := a[l] - leftFrom, b[l] - leftFrom;
    assert NoFarther(m, n, drag) && NoFarther(n, m, drag);
    // Two moves equally far from the drag have it between them, and then both neighbours can afford it.
    if m != n { BetweenIsAffordable(leftFrom, rightFrom, floorOf(l), floorOf(r), Min(m, n), drag, Max(m, n)); }
  }

  lemma BetweenIsAffordable(leftFrom: real, rightFrom: real, leftFloor: real, rightFloor: real, a: real, move: real, b: real)
    requires Affordable(leftFrom, rightFrom, leftFloor, rightFloor, a) && Affordable(leftFrom, rightFrom, leftFloor, rightFloor, b)
    requires a <= move <= b && Whole(move)
    ensures Affordable(leftFrom, rightFrom, leftFloor, rightFloor, move)
  {
  }

  /** Dragging further to the right never leaves the left column narrower or the right one wider. */
  lemma DividerIsMonotone(widths: Widths, boundary: nat, less: real, more: real, floorOf: int -> real)
    requires 1 <= boundary < |widths| && less <= more
    ensures var a, b := Traded(widths, boundary, less, floorOf), Traded(widths, boundary, more, floorOf);
      a[boundary - 1] <= b[boundary - 1] && a[boundary] >= b[boundary]
  {
    assert (less + 0.5).Floor <= (more + 0.5).Floor;
  }

  method WithBoundaryTraded(widths: Widths, boundary: int, delta: real, floorOf: int -> real) returns (next: Widths)
    ensures next == Traded(widths, boundary, delta, floorOf)
  {
    var left := boundary - 1;
    var right := boundary;
    if left < 0 || right >= |widths| { return widths; }
    var leftFrom := Max(widths[left], Up(floorOf(left)));
    var rightFrom := Max(widths[right], Up(floorOf(right)));
    var forward := Max(0.0, Down(rightFrom - floorOf(right)));
    var back := Max(0.0, Down(leftFrom - floorOf(left)));
    var moved := Max(-back, Min(forward, Round(delta)));
    next := widths;
    next := next[left := leftFrom + moved];
    next := next[right := rightFrom - moved];
  }

  /** The floors a drag uses: a floor is in drawn pixels, and a drag trades stored ones. */
  function StoredFloor(floors: Widths, scale: real): int -> real
    requires scale != 0.0
  {
    i => if i < 0 then 0.0 else Quotient(FloorAt(floors, i), scale)
  }

  /** The neighbour is not moved by being lifted to its floor. */
  ghost predicate Holds(width: real, stored: real) {
    width >= Up(stored) || stored == Up(stored)
  }

  // ── One neighbour ─────────────────────────────────────────────────────────

  lemma UpIsAbove(x: real)
    ensures x <= Up(x) < x + 1.0
  {
    DownIsBelow(-x);
  }

  /** A neighbour starts no lower than it is drawn, and exactly there if and only if it holds. */
  lemma LiftedLevel(floor: real, width: real, scale: real, stored: real)
    requires scale > 0.0 && Times(stored, scale) == floor
    ensures Times(From(width, stored), scale) >= Level(floor, width, scale)
    ensures Times(From(width, stored), scale) == Level(floor, width, scale) <==> Holds(width, stored)
  {
    var from, up := From(width, stored), Up(stored);
    UpIsAbove(stored);
    TimesKeepsOrder(stored, from, scale);
    TimesKeepsOrder(width, from, scale);
    if width < up {
      TimesKeepsStrictOrder(width, up, scale);
      if stored < up { TimesKeepsStrictOrder(stored, up, scale); }
    }
  }

  /** After any trade both neighbours are still at or above their stored floor. */
  lemma TradedStaysAbove(left: real, right: real, leftFloor: real, rightFloor: real, delta: real)
    requires left >= leftFloor && right >= rightFloor
    ensures var moved := Moved(Give(left, leftFloor), Give(right, rightFloor), delta);
      left + moved >= leftFloor && right - moved >= rightFloor
  {
    DownIsBelow(left - leftFloor);
    DownIsBelow(right - rightFloor);
    DownKeepsWhole(0.0, left - leftFloor);
    DownKeepsWhole(0.0, right - rightFloor);
  }

  lemma AboveStoredFloor(floor: real, width: real, scale: real, stored: real)
    requires scale > 0.0 && Times(stored, scale) == floor && width >= stored
    ensures Level(floor, width, scale) == Times(width, scale) && !Under(floor, width, scale)
  {
    TimesKeepsOrder(stored, width, scale);
    assert width * scale >= floor;
  }

  // ── The sums ──────────────────────────────────────────────────────────────

  lemma LevelsUpdate(widths: Widths, floors: Widths, scale: real, i: nat, width: real)
    requires i < |widths|
    ensures Levels(widths[i := width], floors, scale) == Levels(widths, floors, scale)[i := Level(FloorAt(floors, i), width, scale)]
  {
    var a, b := Levels(widths[i := width], floors, scale), Levels(widths, floors, scale);
    forall k | 0 <= k < |widths|
      ensures a[k] == b[i := Level(FloorAt(floors, i), width, scale)][k]
    {
      assert a[k] == Level(FloorAt(floors, k), widths[i := width][k], scale);
    }
  }

  /** What a change of two columns does to the sum of the levels. */
  lemma TwoLevels(widths: Widths, floors: Widths, scale: real, l: nat, r: nat, x: real, y: real)
    requires l < r < |widths|
    ensures Sum(Levels(widths[l := x][r := y], floors, scale)) == Sum(Levels(widths, floors, scale))
      - Level(FloorAt(floors, l), widths[l], scale) - Level(FloorAt(floors, r), widths[r], scale)
      + Level(FloorAt(floors, l), x, scale) + Level(FloorAt(floors, r), y, scale)
  {
    var levels := Levels(widths, floors, scale);
    LevelsUpdate(widths, floors, scale, l, x);
    LevelsUpdate(widths[l := x], floors, scale, r, y);
    SumUpdate(levels, l, Level(FloorAt(floors, l), x, scale));
    SumUpdate(levels[l := Level(FloorAt(floors, l), x, scale)], r, Level(FloorAt(floors, r), y, scale));
  }

  /** The stored floors of the divider's neighbours, and where a trade leaves them. */
  lemma TradeFacts(widths: Widths, floors: Widths, scale: real, boundary: nat, delta: real)
    requires scale > 0.0 && 1 <= boundary < |widths|
    ensures var l, r := boundary - 1, boundary; var q := StoredFloor(floors, scale);
      var traded := Traded(widths, boundary, delta, q);
      && Times(q(l), scale) == FloorAt(floors, l) && Times(q(r), scale) == FloorAt(floors, r)
      && traded[l] >= q(l) && traded[r] >= q(r)
      && traded[l] + traded[r] == From(widths[l], q(l)) + From(widths[r], q(r))
      && traded == widths[l := traded[l]][r := traded[r]]
  {
    var l, r := boundary - 1, boundary;
    var q := StoredFloor(floors, scale);
    QuotientTimes(FloorAt(floors, l), scale);
    QuotientTimes(FloorAt(floors, r), scale);
    UpIsAbove(q(l));
    UpIsAbove(q(r));
    TradedStaysAbove(From(widths[l], q(l)), From(widths[r], q(r)), q(l), q(r), delta);
  }

  /** How far a trade is from keeping the space filled at the same scale: by what lifting adds. */
  lemma TradedLevels(widths: Widths, floors: Widths, scale: real, boundary: nat, delta: real)
    requires scale > 0.0 && 1 <= boundary < |widths|
    ensures var l, r := boundary - 1, boundary; var q := StoredFloor(floors, scale);
      var before := Sum(Levels(widths, floors, scale));
      var after := Sum(Levels(Traded(widths, boundary, delta, q), floors, scale));
      && after >= before
      && (after == before <==> Holds(widths[l], q(l)) && Holds(widths[r], q(r)))
  {
    var l, r := boundary - 1, boundary;
    var q := StoredFloor(floors, scale);
    var traded := Traded(widths, boundary, delta, q);
    TradeFacts(widths, floors, scale, boundary, delta);
    TwoLevels(widths, floors, scale, l, r, traded[l], traded[r]);
    AboveStoredFloor(FloorAt(floors, l), traded[l], scale, q(l));
    AboveStoredFloor(FloorAt(floors, r), traded[r], scale, q(r));
    LiftedLevel(FloorAt(floors, l), widths[l], scale, q(l));
    LiftedLevel(FloorAt(floors, r), widths[r], scale, q(r));
    SumTimes(traded[l], traded[r], From(widths[l], q(l)), From(widths[r], q(r)), scale);
  }

  lemma SumTimes(a: real, b: real, c: real, d: real, scale: real)
    requires a + b == c + d
    ensures Times(a, scale) + Times(b, scale) == Times(c, scale) + Times(d, scale)
  {
    assert a * scale + b * scale == (a + b) * scale;
    assert c * scale + d * scale == (c + d) * scale;
  }

  // ── What a divider moves ──────────────────────────────────────────────────

  /** Every column but the divider's two neighbours is drawn as it was. */
  ghost predicate OthersUnmoved(before: ColumnFit, after: ColumnFit, boundary: nat) {
    && |before.drawn| == |after.drawn|
    && forall k :: 0 <= k < |before.drawn| && k != boundary - 1 && k != boundary ==> after.drawn[k] == before.drawn[k]
  }

  lemma TradedNonNegative(widths: Widths, floors: Widths, scale: real, boundary: nat, delta: real)
    requires NonNegative(widths) && scale > 0.0 && 1 <= boundary < |widths|
    ensures NonNegative(Traded(widths, boundary, delta, StoredFloor(floors, scale)))
  {
    var l, r := boundary - 1, boundary;
    TradeFacts(widths, floors, scale, boundary, delta);
    StoredPositive(StoredFloor(floors, scale)(l), scale);
    StoredPositive(StoredFloor(floors, scale)(r), scale);
  }

  lemma StoredPositive(stored: real, scale: real)
    requires scale > 0.0 && Times(stored, scale) > 0.0
    ensures stored > 0.0
  {
    LessByProduct(0.0, stored, scale);
  }

  /** Drawn in proportion before a trade, drawn in proportion after it. */
  lemma StaysProportional(widths: Widths, floors: Widths, space: real, scale: real, boundary: nat, delta: real)
    requires NonNegative(widths) && Proportional(widths, floors, space) && 0.0 < scale < 1.0 && Solves(widths, floors, space, scale)
    requires 1 <= boundary < |widths|
    ensures Proportional(Traded(widths, boundary, delta, StoredFloor(floors, scale)), floors, space)
  {
    var l, r := boundary - 1, boundary;
    var q := StoredFloor(floors, scale);
    var traded := Traded(widths, boundary, delta, q);
    TradeFacts(widths, floors, scale, boundary, delta);
    TradedLevels(widths, floors, scale, boundary, delta);
    TradedNonNegative(widths, floors, scale, boundary, delta);
    assert Floors(traded, floors) == Floors(widths, floors);
    // At the old scale the left neighbour is free, so the levels still grow from there to the natural widths.
    AboveStoredFloor(FloorAt(floors, l), traded[l], scale, q(l));
    LevelsGrow(traded, floors, scale, 1.0);
    NaturalAtOne(traded, floors);
  }

  /**
   Drawn in proportion, a trade keeps the scale exactly when lifting its two neighbours to their
   stored floors moves neither; and then every other column stays where it is.
   */
  lemma TradeKeepsScaleIffHolds(widths: Widths, floors: Widths, space: real, boundary: nat, delta: real, before: ColumnFit, after: ColumnFit)
    requires NonNegative(widths) && Proportional(widths, floors, space) && IsFit(widths, floors, space, before)
    requires 1 <= boundary < |widths|
    requires IsFit(Traded(widths, boundary, delta, StoredFloor(floors, before.scale)), floors, space, after)
    ensures var q := StoredFloor(floors, before.scale);
      after.scale == before.scale <==> Holds(widths[boundary - 1], q(boundary - 1)) && Holds(widths[boundary], q(boundary))
    ensures after.scale == before.scale ==> OthersUnmoved(before, after, boundary)
  {
    var q := StoredFloor(floors, before.scale);
    var traded := Traded(widths, boundary, delta, q);
    StaysProportional(widths, floors, space, before.scale, boundary, delta);
    TradedLevels(widths, floors, before.scale, boundary, delta);
    TradedNonNegative(widths, floors, before.scale, boundary, delta);
    if Solves(traded, floors, space, before.scale) {
      ScaleIsUnique(traded, floors, space, before.scale, after.scale);
    }
    if after.scale == before.scale { SameScaleUnmoved(widths, floors, before, traded, after, boundary); }
  }

  lemma SameScaleUnmoved(widths: Widths, floors: Widths, before: ColumnFit, traded: Widths, after: ColumnFit, boundary: nat)
    requires |traded| == |widths|
    requires forall k :: 0 <= k < |widths| && k != boundary - 1 && k != boundary ==> traded[k] == widths[k]
    requires before.drawn == Rounded(widths, floors, before.scale) && after.drawn == Rounded(traded, floors, before.scale)
    ensures OthersUnmoved(before, after, boundary)
  {
    forall k | 0 <= k < |widths| && k != boundary - 1 && k != boundary
      ensures after.drawn[k] == before.drawn[k]
    {
      assert before.drawn[k] == RoundedLevel(FloorAt(floors, k), widths[k], before.scale);
      assert after.drawn[k] == RoundedLevel(FloorAt(floors, k), traded[k], before.scale);
    }
  }

  lemma FitScalePositive(widths: Widths, floors: Widths, space: real, fit: ColumnFit)
    requires IsFit(widths, floors, space, fit)
    ensures 0.0 < fit.scale <= 1.0
  {
    if space > 0.0 && Sum(Floors(widths, floors)) >= space {
      OverflowScalePositive(widths, floors, |widths|);
    }
  }

  lemma {:induction false} OverflowScalePositive(widths: Widths, floors: Widths, n: nat)
    requires n <= |widths|
    ensures 0.0 < OverflowScale(widths, floors, n)
  {
    if n > 0 {
      OverflowScalePositive(widths, floors, n - 1);
      QuotientTimes(FloorAt(floors, n - 1), Max(widths[n - 1], 1.0));
    }
  }

  /**
   Moving one divider moves nothing else: with both neighbours at or above their stored floors, any
   drag keeps their stored widths' sum, and fitting again into the same space keeps the scale, the
   overflow and every other column.
   */
  lemma DividerMovesNothingElse(widths: Widths, floors: Widths, space: real, boundary: nat, delta: real, before: ColumnFit, after: ColumnFit)
    requires NonNegative(widths) && IsFit(widths, floors, space, before) && 1 <= boundary < |widths|
    requires before.scale > 0.0
    requires var q := StoredFloor(floors, before.scale); widths[boundary - 1] >= Up(q(boundary - 1)) && widths[boundary] >= Up(q(boundary))
    requires IsFit(Traded(widths, boundary, delta, StoredFloor(floors, before.scale)), floors, space, after)
    ensures var traded := Traded(widths, boundary, delta, StoredFloor(floors, before.scale));
      traded[boundary - 1] + traded[boundary] == widths[boundary - 1] + widths[boundary]
    ensures after.scale == before.scale && after.overflow == before.overflow && OthersUnmoved(before, after, boundary)
  {
    var q := StoredFloor(floors, before.scale);
    var traded := Traded(widths, boundary, delta, q);
    TradeFacts(widths, floors, before.scale, boundary, delta);
    assert Floors(traded, floors) == Floors(widths, floors);
    if Proportional(widths, floors, space) {
      StaysProportional(widths, floors, space, before.scale, boundary, delta);
      TradeKeepsScaleIffHolds(widths, floors, space, boundary, delta, before, after);
    } else if space > 0.0 && Sum(Floors(widths, floors)) >= space {
      OverflowTradesNothing(widths, floors, space, boundary, delta, before);
    } else {
      NaturalAtOne(widths, floors);
      NaturalAtOne(traded, floors);
      TradedLevels(widths, floors, 1.0, boundary, delta);
    }
  }

  /** In an overflowing list the neighbours are at their floors exactly, and there is nothing to trade. */
  lemma OverflowTradesNothing(widths: Widths, floors: Widths, space: real, boundary: nat, delta: real, before: ColumnFit)
    requires IsFit(widths, floors, space, before) && 1 <= boundary < |widths|
    requires space > 0.0 && Sum(Floors(widths, floors)) >= space && before.scale > 0.0
    requires var q := StoredFloor(floors, before.scale); widths[boundary - 1] >= Up(q(boundary - 1)) && widths[boundary] >= Up(q(boundary))
    ensures Traded(widths, boundary, delta, StoredFloor(floors, before.scale)) == widths
  {
    var l, r := boundary - 1, boundary;
    var q := StoredFloor(floors, before.scale);
    AtStoredFloor(FloorAt(floors, l), widths[l], before.scale);
    AtStoredFloor(FloorAt(floors, r), widths[r], before.scale);
    UpIsAbove(q(l));
    UpIsAbove(q(r));
    NothingToGive(widths, boundary, delta, q);
  }

  lemma NothingToGive(widths: Widths, boundary: nat, delta: real, floorOf: int -> real)
    requires 1 <= boundary < |widths|
    requires forall i :: boundary - 1 <= i <= boundary ==> widths[i] == floorOf(i) == Up(floorOf(i))
    ensures Traded(widths, boundary, delta, floorOf) == widths
  {
  }

  lemma AtStoredFloor(floor: real, width: real, scale: real)
    requires scale > 0.0 && scale <= floor / Max(width, 1.0)
    ensures width <= Quotient(floor, scale)
  {
    var wide := Max(width, 1.0);
    QuotientTimes(floor, wide);
    QuotientTimes(floor, scale);
    StoredBound(floor, wide, scale, floor / wide, floor / scale);
  }

  lemma StoredBound(floor: real, wide: real, scale: real, share: real, stored: real)
    requires wide > 0.0 && scale > 0.0 && share * wide == floor && stored * scale == floor && scale <= share
    ensures wide <= stored
  {
    TimesKeepsOrder(scale, share, wide);
    AtMostByProduct(wide, stored, scale);
  }

  /** The stored widths keep their sum exactly when neither neighbour has to be lifted. */
  lemma TradeKeepsSumIffAbove(widths: Widths, boundary: nat, delta: real, floorOf: int -> real)
    requires 1 <= boundary < |widths|
    ensures Sum(Traded(widths, boundary, delta, floorOf)) == Sum(widths)
       <==> widths[boundary - 1] >= Up(floorOf(boundary - 1)) && widths[boundary] >= Up(floorOf(boundary))
  {
    var l, r := boundary - 1, boundary;
    var traded := Traded(widths, boundary, delta, floorOf);
    SumUpdate(widths, l, traded[l]);
    SumUpdate(widths[l := traded[l]], r, traded[r]);
    assert traded == widths[l := traded[l]][r := traded[r]];
  }

  /**
   The whole property as one condition: a drag keeps the stored sum, the scale, the overflow and every other drawn column
   if and only if both neighbours are at or above their stored floors, rounded up.
   */
  lemma DividerMovesNothingElseIff(widths: Widths, floors: Widths, space: real, boundary: nat, delta: real, before: ColumnFit, after: ColumnFit)
    requires NonNegative(widths) && IsFit(widths, floors, space, before) && 1 <= boundary < |widths|
    requires before.scale > 0.0
    requires IsFit(Traded(widths, boundary, delta, StoredFloor(floors, before.scale)), floors, space, after)
    ensures var q := StoredFloor(floors, before.scale); var traded := Traded(widths, boundary, delta, q);
      (&& Sum(traded) == Sum(widths) && after.scale == before.scale && after.overflow == before.overflow
       && OthersUnmoved(before, after, boundary))
      <==> widths[boundary - 1] >= Up(q(boundary - 1)) && widths[boundary] >= Up(q(boundary))
  {
    var q := StoredFloor(floors, before.scale);
    TradeKeepsSumIffAbove(widths, boundary, delta, q);
    if widths[boundary - 1] >= Up(q(boundary - 1)) && widths[boundary] >= Up(q(boundary)) {
      DividerMovesNothingElse(widths, floors, space, boundary, delta, before, after);
    }
  }

  // ── When the screen is unchanged ──────────────────────────────────────────

  /** The widths a drag starts from. */
  function Lifted(widths: Widths, boundary: nat, floorOf: int -> real): Widths
    requires 1 <= boundary < |widths|
  {
    var l, r := boundary - 1, boundary;
    widths[l := From(widths[l], floorOf(l))][r := From(widths[r], floorOf(r))]
  }

  /** A trade takes the room the lifted widths take, however far it is dragged. */
  lemma TradedTakesLifted(widths: Widths, floors: Widths, scale: real, boundary: nat, delta: real)
    requires scale > 0.0 && 1 <= boundary < |widths|
    ensures var q := StoredFloor(floors, scale);
      Sum(Levels(Traded(widths, boundary, delta, q), floors, scale)) == Sum(Levels(Lifted(widths, boundary, q), floors, scale))
  {
    var l, r := boundary - 1, boundary;
    var q := StoredFloor(floors, scale);
    var traded, lifted := Traded(widths, boundary, delta, q), Lifted(widths, boundary, q);
    TradeFacts(widths, floors, scale, boundary, delta);
    UpIsAbove(q(l));
    UpIsAbove(q(r));
    TwoLevels(widths, floors, scale, l, r, traded[l], traded[r]);
    TwoLevels(widths, floors, scale, l, r, lifted[l], lifted[r]);
    AboveStoredFloor(FloorAt(floors, l), traded[l], scale, q(l));
    AboveStoredFloor(FloorAt(floors, r), traded[r], scale, q(r));
    AboveStoredFloor(FloorAt(floors, l), lifted[l], scale, q(l));
    AboveStoredFloor(FloorAt(floors, r), lifted[r], scale, q(r));
    SumTimes(traded[l], traded[r], lifted[l], lifted[r], scale);
  }

  /** There is room for every column as dragged. */
  ghost predicate Roomy(widths: Widths, floors: Widths, space: real) {
    space > 0.0 && Sum(Floors(widths, floors)) < space && Sum(Natural(widths, floors)) <= space
  }

  /**
   Where every column had its room, the scale stays 1 if and only if the lifted columns still fit; and the other columns
   stay where they are if and only if that is so or none of them is drawn above its floor.
   */
  lemma RoomyTradeIff(widths: Widths, floors: Widths, space: real, boundary: nat, delta: real, before: ColumnFit, after: ColumnFit)
    requires NonNegative(widths) && Roomy(widths, floors, space) && IsFit(widths, floors, space, before)
    requires 1 <= boundary < |widths|
    requires IsFit(Traded(widths, boundary, delta, StoredFloor(floors, 1.0)), floors, space, after)
    ensures var fits := Sum(Natural(Lifted(widths, boundary, StoredFloor(floors, 1.0)), floors)) <= space;
      && before.scale == 1.0 && (after.scale == 1.0 <==> fits)
      && (OthersUnmoved(before, after, boundary) <==> fits || forall k :: IsOther(widths, boundary, k) ==> widths[k] <= FloorAt(floors, k))
  {
    var q := StoredFloor(floors, 1.0);
    var traded, lifted := Traded(widths, boundary, delta, q), Lifted(widths, boundary, q);
    TradeFacts(widths, floors, 1.0, boundary, delta);
    TradedTakesLifted(widths, floors, 1.0, boundary, delta);
    NaturalAtOne(traded, floors);
    NaturalAtOne(lifted, floors);
    assert Floors(traded, floors) == Floors(widths, floors);
    forall k | IsOther(widths, boundary, k)
      ensures before.drawn[k] == Max(FloorAt(floors, k), widths[k]) && traded[k] == widths[k]
      ensures Sum(Natural(traded, floors)) <= space ==> after.drawn[k] == before.drawn[k]
      ensures Sum(Natural(traded, floors)) > space ==> (after.drawn[k] == before.drawn[k] <==> widths[k] <= FloorAt(floors, k))
    {
      if Sum(Natural(traded, floors)) > space {
        assert after.drawn[k] == RoundedLevel(FloorAt(floors, k), widths[k], after.scale);
        BelowNatural(FloorAt(floors, k), widths[k], after.scale);
      }
    }
  }

  /** A column of the list that the divider does not touch. */
  ghost predicate IsOther(widths: Widths, boundary: nat, k: int) {
    0 <= k < |widths| && k != boundary - 1 && k != boundary
  }

  lemma BelowNatural(floor: real, width: real, scale: real)
    requires floor > 0.0 && width >= 0.0 && 0.0 < scale < 1.0
    ensures RoundedLevel(floor, width, scale) == Max(floor, width) <==> width <= floor
  {
    DownIsBelow(width * scale);
    TimesKeepsOrder(scale, 1.0, width);
    if width > floor { TimesKeepsStrictOrder(scale, 1.0, width); }
  }

  /** Where the list overflows, every column is at its floor before and after, whatever is dragged. */
  lemma OverflowScreenUnmoved(widths: Widths, floors: Widths, space: real, boundary: nat, delta: real, before: ColumnFit, after: ColumnFit)
    requires IsFit(widths, floors, space, before) && before.overflow && before.scale > 0.0
    requires IsFit(Traded(widths, boundary, delta, StoredFloor(floors, before.scale)), floors, space, after)
    ensures after.overflow && after.drawn == before.drawn && after.total == before.total
  {
    assert Floors(Traded(widths, boundary, delta, StoredFloor(floors, before.scale)), floors) == Floors(widths, floors);
  }

  /** In proportion, a trade never raises the scale: what lifting adds comes from everybody else. */
  lemma TradeNeverRaisesScale(widths: Widths, floors: Widths, space: real, boundary: nat, delta: real, before: ColumnFit, after: ColumnFit)
    requires NonNegative(widths) && Proportional(widths, floors, space) && IsFit(widths, floors, space, before)
    requires 1 <= boundary < |widths|
    requires IsFit(Traded(widths, boundary, delta, StoredFloor(floors, before.scale)), floors, space, after)
    ensures var traded := Traded(widths, boundary, delta, StoredFloor(floors, before.scale));
      NonNegative(traded) && Proportional(traded, floors, space) && 0.0 < after.scale <= before.scale
  {
    var traded := Traded(widths, boundary, delta, StoredFloor(floors, before.scale));
    StaysProportional(widths, floors, space, before.scale, boundary, delta);
    TradedLevels(widths, floors, before.scale, boundary, delta);
    TradedNonNegative(widths, floors, before.scale, boundary, delta);
    SpendsIff(traded, floors, space, after.scale, before.scale);
    if after.scale > before.scale {
      SomeColumnFree(traded, floors, space, after.scale);
      if Sum(Levels(traded, floors, before.scale)) == space { ScaleIsUnique(traded, floors, space, before.scale, after.scale); }
    }
  }

  /** A scale spends no more than the space exactly up to the one that fills it. */
  lemma SpendsIff(widths: Widths, floors: Widths, space: real, scale: real, other: real)
    requires NonNegative(widths) && Sum(Floors(widths, floors)) < space && Solves(widths, floors, space, scale)
    ensures Sum(Levels(widths, floors, other)) <= space <==> other <= scale
  {
    SomeColumnFree(widths, floors, space, scale);
    if other <= scale { LevelsGrow(widths, floors, other, scale); } else { LevelsGrow(widths, floors, scale, other); }
  }

  /** Every other column above its floor could still be drawn as wide as it was: the scale at which it is leaves room. */
  ghost predicate OthersAfford(widths: Widths, floors: Widths, space: real, boundary: nat, before: ColumnFit, traded: Widths)
    requires |before.drawn| == |widths|
  {
    forall k :: IsOther(widths, boundary, k) && before.drawn[k] > FloorAt(floors, k) ==>
      widths[k] > 0.0 && Sum(Levels(traded, floors, Quotient(before.drawn[k], widths[k]))) <= space
  }

  /**
   In proportion, the other columns stay where they are on the screen, rounding included, if and only if the traded widths
   leave each of them the scale it needs for the width it is drawn at.
   */
  lemma ScreenUnmovedIff(widths: Widths, floors: Widths, space: real, boundary: nat, delta: real, before: ColumnFit, after: ColumnFit)
    requires NonNegative(widths) && Proportional(widths, floors, space) && IsFit(widths, floors, space, before)
    requires 1 <= boundary < |widths|
    requires IsFit(Traded(widths, boundary, delta, StoredFloor(floors, before.scale)), floors, space, after)
    ensures |before.drawn| == |widths|
    ensures OthersUnmoved(before, after, boundary) <==>
      OthersAfford(widths, floors, space, boundary, before, Traded(widths, boundary, delta, StoredFloor(floors, before.scale)))
  {
    var traded := Traded(widths, boundary, delta, StoredFloor(floors, before.scale));
    TradeNeverRaisesScale(widths, floors, space, boundary, delta, before, after);
    forall k | IsOther(widths, boundary, k)
      ensures after.drawn[k] == before.drawn[k] <==> before.drawn[k] > FloorAt(floors, k) ==>
        widths[k] > 0.0 && Sum(Levels(traded, floors, Quotient(before.drawn[k], widths[k]))) <= space
    {
      assert traded[k] == widths[k];
      assert before.drawn[k] == RoundedLevel(FloorAt(floors, k), widths[k], before.scale);
      assert after.drawn[k] == RoundedLevel(FloorAt(floors, k), widths[k], after.scale);
      KeptIff(FloorAt(floors, k), widths[k], after.scale, before.scale);
      if before.drawn[k] > FloorAt(floors, k) {
        SpendsIff(traded, floors, space, after.scale, Quotient(before.drawn[k], widths[k]));
      }
    }
  }

  /** A column keeps its drawn width at a lower scale exactly down to the scale that width needs. */
  lemma KeptIff(floor: real, width: real, scale: real, from: real)
    requires floor > 0.0 && width >= 0.0 && 0.0 < scale <= from
    ensures var drawn := RoundedLevel(floor, width, from);
      && (drawn > floor ==> width > 0.0)
      && (drawn <= floor ==> RoundedLevel(floor, width, scale) == drawn)
      && (drawn > floor ==> (RoundedLevel(floor, width, scale) == drawn <==> Quotient(drawn, width) <= scale))
  {
    KeptFacts(floor, width, scale, from, width * scale, width * from);
  }

  lemma KeptFacts(floor: real, width: real, scale: real, from: real, share: real, was: real)
    requires floor > 0.0 && width >= 0.0 && 0.0 < scale <= from && share == width * scale && was == width * from
    ensures Down(was) > floor ==> width > 0.0 && (Max(floor, Down(share)) == Down(was) <==> Quotient(Down(was), width) <= scale)
    ensures Down(was) <= floor ==> Down(share) <= floor
  {
    TimesKeepsOrder(scale, from, width);
    RoundedKeptIff(floor, share, was);
    DownIsBelow(was);
    if Down(was) > floor {
      WidthIsPositive(width, from, was);
      NeededScale(Down(was), width, scale, Down(was) / width);
    }
  }

  lemma WidthIsPositive(width: real, scale: real, share: real)
    requires scale > 0.0 && share == width * scale && share > 0.0
    ensures width > 0.0
  {
    LessByProduct(0.0, width, scale);
  }

  lemma RoundedKeptIff(floor: real, x: real, y: real)
    requires x <= y
    ensures Down(y) <= floor ==> Down(x) <= floor
    ensures Down(y) > floor ==> (Max(floor, Down(x)) == Down(y) <==> x >= Down(y))
  {
    DownGrows(x, y);
    DownIsBelow(x);
    if x >= Down(y) { DownGrows(Down(y), x); }
  }

  lemma NeededScale(drawn: real, width: real, scale: real, needed: real)
    requires width > 0.0 && needed == drawn / width
    ensures needed <= scale <==> width * scale >= drawn
  {
    QuotientTimes(drawn, width);
    if needed <= scale { TimesKeepsOrder(needed, scale, width); } else { TimesKeepsStrictOrder(scale, needed, width); }
  }

  lemma DownGrows(x: real, y: real)
    requires x <= y
    ensures Down(x) <= Down(y) && Down(Down(x)) == Down(x)
  {
    DownIsBelow(x);
    DownKeepsWhole(Down(x), y);
  }

  // ── What a lift alone changes ─────────────────────────────────────────────

  /** A divider that is not moved leaves the lifted widths. */
  lemma NoDragOnlyLifts(widths: Widths, boundary: nat, floorOf: int -> real)
    requires 1 <= boundary < |widths|
    ensures Traded(widths, boundary, 0.0, floorOf) == Lifted(widths, boundary, floorOf)
  {
    assert Round(0.0) == 0.0;
  }

  /**
   In proportion, a column is drawn `drawn` wide: the scale it needs for that leaves room, and the scale that would draw it
   wider does not.
   */
  ghost predicate DrawsAs(widths: Widths, floors: Widths, space: real, k: nat, drawn: real)
    requires k < |widths|
  {
    && (drawn > FloorAt(floors, k) ==>
          widths[k] > 0.0 && drawn == Down(drawn) && Sum(Levels(widths, floors, Quotient(drawn, widths[k]))) <= space)
    && (widths[k] > 0.0 ==> Sum(Levels(widths, floors, Quotient(Down(drawn) + 1.0, widths[k]))) > space)
  }

  /** What a fit in proportion draws, without solving for its scale. */
  lemma FitDrawsIff(widths: Widths, floors: Widths, space: real, fit: ColumnFit, drawn: Widths)
    requires NonNegative(widths) && Proportional(widths, floors, space) && IsFit(widths, floors, space, fit)
    requires |drawn| == |widths| && forall k :: 0 <= k < |drawn| ==> drawn[k] >= FloorAt(floors, k)
    ensures fit.drawn == drawn <==> forall k :: 0 <= k < |widths| ==> DrawsAs(widths, floors, space, k, drawn[k])
  {
    forall k | 0 <= k < |widths|
      ensures fit.drawn[k] == drawn[k] <==> DrawsAs(widths, floors, space, k, drawn[k])
    {
      assert fit.drawn[k] == RoundedLevel(FloorAt(floors, k), widths[k], fit.scale);
      ColumnDrawsIff(widths, floors, space, fit.scale, k, drawn[k]);
    }
  }

  lemma ColumnDrawsIff(widths: Widths, floors: Widths, space: real, scale: real, k: nat, drawn: real)
    requires NonNegative(widths) && Proportional(widths, floors, space) && Solves(widths, floors, space, scale) && scale > 0.0
    requires k < |widths| && drawn >= FloorAt(floors, k)
    ensures RoundedLevel(FloorAt(floors, k), widths[k], scale) == drawn <==> DrawsAs(widths, floors, space, k, drawn)
  {
    if widths[k] > 0.0 {
      WideDrawsIff(widths, floors, space, scale, k, drawn, widths[k] * scale);
    } else {
      EmptyDrawsFloor(FloorAt(floors, k), widths[k], scale);
    }
  }

  lemma WideDrawsIff(widths: Widths, floors: Widths, space: real, scale: real, k: nat, drawn: real, share: real)
    requires NonNegative(widths) && Proportional(widths, floors, space) && Solves(widths, floors, space, scale)
    requires k < |widths| && drawn >= FloorAt(floors, k) && widths[k] > 0.0 && share == widths[k] * scale
    ensures Max(FloorAt(floors, k), Down(share)) == drawn <==> DrawsAs(widths, floors, space, k, drawn)
  {
    RoundsTo(FloorAt(floors, k), share, drawn);
    LeavesRoomIff(widths, floors, space, scale, widths[k], drawn, share);
    LeavesRoomIff(widths, floors, space, scale, widths[k], Down(drawn) + 1.0, share);
  }

  lemma EmptyDrawsFloor(floor: real, width: real, scale: real)
    requires width == 0.0 && floor > 0.0
    ensures RoundedLevel(floor, width, scale) == floor
  {
    NothingShared(width, scale);
  }

  /** The scale a width needs leaves room exactly when the column's share reaches that width. */
  lemma LeavesRoomIff(widths: Widths, floors: Widths, space: real, scale: real, width: real, drawn: real, share: real)
    requires NonNegative(widths) && Sum(Floors(widths, floors)) < space && Solves(widths, floors, space, scale)
    requires width > 0.0 && share == width * scale
    ensures Sum(Levels(widths, floors, Quotient(drawn, width))) <= space <==> share >= drawn
  {
    NeededScale(drawn, width, scale, drawn / width);
    SpendsIff(widths, floors, space, scale, drawn / width);
  }

  lemma NothingShared(width: real, scale: real)
    requires width == 0.0
    ensures width * scale == 0.0
  {
  }

  lemma RoundsTo(floor: real, share: real, drawn: real)
    requires drawn >= floor > 0.0
    ensures Max(floor, Down(share)) == drawn <==>
      (drawn > floor ==> drawn == Down(drawn) && share >= drawn) && share < Down(drawn) + 1.0
  {
    DownAtMostIff(share, drawn);
    DownIsWhole(share);
    DownIsWhole(drawn);
    DownIsBelow(share);
    if drawn == Down(drawn) && share >= drawn { DownKeepsWhole(drawn, share); }
  }

  lemma DownIsWhole(x: real)
    ensures Down(Down(x)) == Down(x)
  {
  }

  lemma DownAtMostIff(x: real, y: real)
    ensures Down(x) <= y <==> x < Down(y) + 1.0
  {
    DownIsBelow(x);
    DownIsBelow(y);
    DownIsWhole(x);
    DownIsWhole(y);
    if Down(x) <= y { DownKeepsWhole(Down(x), y); }
    if x < Down(y) + 1.0 { FloorsBelow(x, y.Floor); }
  }

  lemma FloorsBelow(x: real, n: int)
    requires x < (n + 1) as real
    ensures x.Floor <= n
  {
  }

  /** The columns the lift widens are drawn as they were where they had their room exactly when lifting moves neither. */
  lemma NaturalKeptIff(widths: Widths, floors: Widths, boundary: nat)
    requires 1 <= boundary < |widths|
    ensures var q := StoredFloor(floors, 1.0);
      Natural(Lifted(widths, boundary, q), floors) == Natural(widths, floors) <==>
        Holds(widths[boundary - 1], q(boundary - 1)) && Holds(widths[boundary], q(boundary))
  {
    var l, r := boundary - 1, boundary;
    var q := StoredFloor(floors, 1.0);
    var lifted := Lifted(widths, boundary, q);
    UpIsAbove(q(l));
    UpIsAbove(q(r));
    assert q(l) == FloorAt(floors, l) && q(r) == FloorAt(floors, r);
    var a, b := Natural(lifted, floors), Natural(widths, floors);
    assert forall k :: 0 <= k < |widths| && k != l && k != r ==> a[k] == b[k];
    assert a[l] == b[l] <==> Holds(widths[l], q(l));
    assert a[r] == b[r] <==> Holds(widths[r], q(r));
  }

  /**
   Lifting the divider's neighbours leaves the whole screen as it was: always where the list overflows; where the lifted
   columns have their room, or nothing is measured yet, when lifting moves neither; and otherwise when every column, lifted
   or not, is still drawn as wide as it was.
   */
  ghost predicate LiftUnseen(widths: Widths, floors: Widths, space: real, boundary: nat, before: ColumnFit)
    requires 1 <= boundary < |widths| && before.scale > 0.0 && |before.drawn| == |widths|
  {
    var q := StoredFloor(floors, before.scale);
    var lifted := Lifted(widths, boundary, q);
    if space > 0.0 && Sum(Floors(widths, floors)) >= space then true
    else if space <= 0.0 || Sum(Natural(lifted, floors)) <= space then
      Holds(widths[boundary - 1], q(boundary - 1)) && Holds(widths[boundary], q(boundary))
    else forall k :: 0 <= k < |widths| ==> DrawsAs(lifted, floors, space, k, before.drawn[k])
  }

  /** The exact condition, for every list: a divider that was not moved changes nothing on the screen if and only if so. */
  lemma LiftChangesNothingIff(widths: Widths, floors: Widths, space: real, boundary: nat, before: ColumnFit, after: ColumnFit)
    requires NonNegative(widths) && IsFit(widths, floors, space, before) && 1 <= boundary < |widths| && before.scale > 0.0
    requires IsFit(Traded(widths, boundary, 0.0, StoredFloor(floors, before.scale)), floors, space, after)
    ensures |before.drawn| == |widths|
    ensures after.drawn == before.drawn <==> LiftUnseen(widths, floors, space, boundary, before)
  {
    var q := StoredFloor(floors, before.scale);
    var lifted := Lifted(widths, boundary, q);
    NoDragOnlyLifts(widths, boundary, q);
    DrawnTotals(widths, floors, space, before);
    assert Floors(lifted, floors) == Floors(widths, floors);
    if space > 0.0 && Sum(Floors(widths, floors)) >= space {
    } else if space <= 0.0 || Sum(Natural(lifted, floors)) <= space {
      FittingLift(widths, floors, space, boundary, before);
      NaturalKeptIff(widths, floors, boundary);
    } else {
      LiftedNonNegative(widths, floors, before.scale, boundary);
      FitDrawsIff(lifted, floors, space, after, before.drawn);
    }
  }

  lemma LiftedNonNegative(widths: Widths, floors: Widths, scale: real, boundary: nat)
    requires NonNegative(widths) && 1 <= boundary < |widths| && scale > 0.0
    ensures var lifted := Lifted(widths, boundary, StoredFloor(floors, scale));
      NonNegative(lifted) && forall k :: 0 <= k < |widths| ==> lifted[k] >= widths[k]
  {
  }

  /** Where the lifted columns have their room, every column had it before. */
  lemma FittingLift(widths: Widths, floors: Widths, space: real, boundary: nat, before: ColumnFit)
    requires NonNegative(widths) && IsFit(widths, floors, space, before) && 1 <= boundary < |widths| && before.scale > 0.0
    requires space > 0.0 ==> Sum(Floors(widths, floors)) < space
    requires space > 0.0 ==> Sum(Natural(Lifted(widths, boundary, StoredFloor(floors, before.scale)), floors)) <= space
    ensures before.scale == 1.0 && before.drawn == Natural(widths, floors)
  {
    var lifted := Lifted(widths, boundary, StoredFloor(floors, before.scale));
    LiftedNonNegative(widths, floors, before.scale, boundary);
    SumAtMost(Natural(widths, floors), Natural(lifted, floors));
  }

  const TWO: Widths := [9.0, 250.0]
  const TWO_FLOORS: Widths := [9.0, 1.0]
  const TWO_LIFTED: Widths := [23.0, 250.0]
  const TWO_BEFORE: ColumnFit := ColumnFit([9.0, 100.0], 0.4, 109.0, false)
  const TWO_AFTER: ColumnFit := ColumnFit([9.0, 99.0], 109.0 / 273.0, 108.0, false)

  /** Two columns and one divider that is not moved: with no other column to move, the right one still loses a pixel. */
  lemma LiftMovesItsNeighbour()
    ensures IsFit(TWO, TWO_FLOORS, 109.0, TWO_BEFORE)
    ensures IsFit(Traded(TWO, 1, 0.0, StoredFloor(TWO_FLOORS, TWO_BEFORE.scale)), TWO_FLOORS, 109.0, TWO_AFTER)
    ensures TWO_AFTER.drawn != TWO_BEFORE.drawn && !LiftUnseen(TWO, TWO_FLOORS, 109.0, 1, TWO_BEFORE)
  {
    TwoBefore();
    TwoAfter();
    NoDragOnlyLifts(TWO, 1, StoredFloor(TWO_FLOORS, 0.4));
    LiftHere();
    assert TWO_BEFORE.drawn[1] == 100.0 && TWO_AFTER.drawn[1] == 99.0;
    LiftChangesNothingIff(TWO, TWO_FLOORS, 109.0, 1, TWO_BEFORE, TWO_AFTER);
  }

  lemma TwoBefore()
    ensures IsFit(TWO, TWO_FLOORS, 109.0, TWO_BEFORE)
  {
    assert Floors(TWO, TWO_FLOORS) == TWO_FLOORS && Natural(TWO, TWO_FLOORS) == TWO;
    SumOfTwo(9.0, 1.0);
    SumOfTwo(9.0, 250.0);
    SumOfTwo(9.0, 100.0);
    assert Levels(TWO, TWO_FLOORS, 0.4) == [9.0, 100.0];
    assert Rounded(TWO, TWO_FLOORS, 0.4) == [9.0, 100.0];
  }

  lemma TwoAfter()
    ensures IsFit(TWO_LIFTED, TWO_FLOORS, 109.0, TWO_AFTER)
  {
    var s := 109.0 / 273.0;
    assert Floors(TWO_LIFTED, TWO_FLOORS) == TWO_FLOORS && Natural(TWO_LIFTED, TWO_FLOORS) == TWO_LIFTED;
    SumOfTwo(9.0, 1.0);
    SumOfTwo(9.0, 99.0);
    SumOfTwo(23.0, 250.0);
    SumOfTwo(23.0 * s, 250.0 * s);
    assert Levels(TWO_LIFTED, TWO_FLOORS, s) == [23.0 * s, 250.0 * s];
    assert Down(23.0 * s) == 9.0 && Down(250.0 * s) == 99.0;
    assert Rounded(TWO_LIFTED, TWO_FLOORS, s) == [9.0, 99.0];
  }

  lemma LiftHere()
    ensures Lifted(TWO, 1, StoredFloor(TWO_FLOORS, 0.4)) == TWO_LIFTED
  {
    var q := StoredFloor(TWO_FLOORS, 0.4);
    assert FloorAt(TWO_FLOORS, 0) == 9.0 && FloorAt(TWO_FLOORS, 1) == 1.0;
    assert q(0) == 22.5 && q(1) == 2.5;
    assert Up(22.5) == 23.0 && Up(2.5) == 3.0;
  }

  lemma SumOfTwo(a: real, b: real)
    ensures Sum([a, b]) == a + b
  {
    assert [a][..0] == [] && Sum([a]) == a;
    assert [a, b][..1] == [a];
  }

  const EXAMPLE_FLOORS: Widths := [9.0, 1.0, 1.0]
  const EXAMPLE_BEFORE: ColumnFit := ColumnFit([9.0, 40.0, 60.0], 0.4, 109.0, false)
  const EXAMPLE_AFTER: ColumnFit := ColumnFit([9.0, 39.0, 59.0], 109.0 / 273.0, 107.0, false)

  lemma ExampleBefore()
    ensures IsFit([9.0, 100.0, 150.0], EXAMPLE_FLOORS, 109.0, EXAMPLE_BEFORE)
  {
    var widths := [9.0, 100.0, 150.0];
    assert Floors(widths, EXAMPLE_FLOORS) == EXAMPLE_FLOORS && Natural(widths, EXAMPLE_FLOORS) == widths;
    SumOfThree(9.0, 1.0, 1.0);
    SumOfThree(9.0, 100.0, 150.0);
    SumOfThree(9.0, 40.0, 60.0);
    assert Levels(widths, EXAMPLE_FLOORS, 0.4) == [9.0, 40.0, 60.0];
    assert Rounded(widths, EXAMPLE_FLOORS, 0.4) == [9.0, 40.0, 60.0];
  }

  lemma ExampleAfter()
    ensures IsFit([23.0, 100.0, 150.0], EXAMPLE_FLOORS, 109.0, EXAMPLE_AFTER)
  {
    var traded := [23.0, 100.0, 150.0];
    var s := 109.0 / 273.0;
    assert Floors(traded, EXAMPLE_FLOORS) == EXAMPLE_FLOORS && Natural(traded, EXAMPLE_FLOORS) == traded;
    SumOfThree(9.0, 1.0, 1.0);
    SumOfThree(23.0, 100.0, 150.0);
    SumOfThree(9.0, 39.0, 59.0);
    SumOfThree(23.0 * s, 100.0 * s, 150.0 * s);
    assert Levels(traded, EXAMPLE_FLOORS, s) == [23.0 * s, 100.0 * s, 150.0 * s];
    assert Down(23.0 * s) == 9.0 && Down(100.0 * s) == 39.0 && Down(150.0 * s) == 59.0;
    assert Rounded(traded, EXAMPLE_FLOORS, s) == [9.0, 39.0, 59.0];
  }

  lemma ExampleTrade()
    ensures Traded([9.0, 100.0, 150.0], 1, 0.0, StoredFloor(EXAMPLE_FLOORS, 0.4)) == [23.0, 100.0, 150.0]
  {
    var q := StoredFloor(EXAMPLE_FLOORS, 0.4);
    assert FloorAt(EXAMPLE_FLOORS, 0) == 9.0 && FloorAt(EXAMPLE_FLOORS, 1) == 1.0;
    assert q(0) == 22.5 && q(1) == 2.5;
    ExampleMove();
    UnmovedTrade(9.0, 100.0, 150.0, q, 23.0, 100.0);
  }

  lemma UnmovedTrade(first: real, second: real, third: real, q: int -> real, left: real, right: real)
    requires From(first, q(0)) == left && From(second, q(1)) == right
    requires Moved(Give(left, q(0)), Give(right, q(1)), 0.0) == 0.0
    ensures Traded([first, second, third], 1, 0.0, q) == [left, right, third]
  {
  }

  lemma ExampleMove()
    ensures From(9.0, 22.5) == 23.0 && From(100.0, 2.5) == 100.0
    ensures Moved(Give(23.0, 22.5), Give(100.0, 2.5), 0.0) == 0.0
  {
    assert Up(22.5) == 23.0 && Up(2.5) == 3.0;
    assert Down(0.5) == 0.0 && Down(97.5) == 97.0;
  }

  /**
   The lift is not free: a column under a stored floor that is no whole number starts wider than it
   is drawn, and a divider that was not moved at all takes a pixel from a column it does not touch.
   `LiftChangesNothingIff` says exactly when a lift changes anything at all on the screen.
   */
  lemma LiftMovesAnotherColumn()
    ensures var widths := [9.0, 100.0, 150.0];
      && IsFit(widths, EXAMPLE_FLOORS, 109.0, EXAMPLE_BEFORE)
      && IsFit(Traded(widths, 1, 0.0, StoredFloor(EXAMPLE_FLOORS, EXAMPLE_BEFORE.scale)), EXAMPLE_FLOORS, 109.0, EXAMPLE_AFTER)
      && !OthersUnmoved(EXAMPLE_BEFORE, EXAMPLE_AFTER, 1)
  {
    ExampleBefore();
    ExampleTrade();
    ExampleAfter();
    assert EXAMPLE_BEFORE.drawn[2] == 60.0 && EXAMPLE_AFTER.drawn[2] == 59.0;
  }

  lemma SumOfThree(a: real, b: real, c: real)
    ensures Sum([a, b, c]) == a + b + c
  {
    assert [a][..0] == [] && Sum([a]) == a;
    assert [a, b][..1] == [a] && Sum([a, b]) == a + b;
    assert [a, b, c][..2] == [a, b];
  }
}
