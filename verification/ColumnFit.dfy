/**
 Column fitting (`ui/src/shared/tableColumns.ts`): how a list shares the width it has, and what a
 divider drag does to it. Widths are exact reals; rounding is where the source rounds.
 */
module ColumnFits {
  import opened Common
  import opened RealSums

  const MIN_COLUMN: real := 1.0
  const MAX_COLUMN_GROWTH: real := 2.5

  type Widths = seq<real>

  datatype ColumnFit = ColumnFit(drawn: Widths, scale: real, total: real, overflow: bool)

  function Down(x: real): real { x.Floor as real }
  function Up(x: real): real { -Down(-x) }
  function Round(x: real): real { Down(x + 0.5) }

  ghost predicate NonNegative(widths: Widths) {
    forall i :: 0 <= i < |widths| ==> widths[i] >= 0.0
  }

  // ── Widths before fitting ─────────────────────────────────────────────────

  /** A saved width is usable where there is one and it is positive. */
  function Resolved(saved: Option<real>, fallback: real): real {
    if saved.Some? && saved.value > 0.0 then Max(MIN_COLUMN, Round(saved.value)) else fallback
  }

  /** Short and long stored arrays alike are read against the designed widths. */
  function ResolveColumnWidths(stored: Widths, defaults: Widths): (widths: Widths)
    requires NonNegative(defaults)
    ensures |widths| == |defaults| && NonNegative(widths)
    ensures forall i :: 0 <= i < |widths| && i < |stored| && 0.0 < stored[i] < 0.5 ==> widths[i] == MIN_COLUMN
    ensures forall i :: 0 <= i < |widths| && i < |stored| && stored[i] >= 0.5 ==>
      widths[i] >= MIN_COLUMN &&
      widths[i] == Down(widths[i]) && -0.5 < widths[i] - stored[i] <= 0.5
    ensures forall i :: 0 <= i < |widths| && (i >= |stored| || stored[i] <= 0.0) ==> widths[i] == defaults[i]
  {
    seq(|defaults|, i requires 0 <= i < |defaults| =>
      Resolved(if i < |stored| then Some(stored[i]) else None, defaults[i]))
  }

  /** The flexible column held to a multiple of its designed width. */
  function WithFlexibleBounded(widths: Widths, flexible: nat, defaults: Widths): (bounded: Widths)
    requires NonNegative(widths)
    ensures |bounded| == |widths| && NonNegative(bounded)
    ensures forall i :: 0 <= i < |widths| && i != flexible ==> bounded[i] == widths[i]
    ensures forall i :: 0 <= i < |widths| ==> bounded[i] <= widths[i]
    ensures var bound := FlexibleBound(flexible, defaults);
      flexible < |widths| && bound > 0.0 ==>
        bounded[flexible] <= bound && (bounded[flexible] == widths[flexible] || bounded[flexible] == bound)
    ensures FlexibleBound(flexible, defaults) <= 0.0 ==> bounded == widths
  {
    var bound := FlexibleBound(flexible, defaults);
    seq(|widths|, i requires 0 <= i < |widths| => if i == flexible && bound > 0.0 then Min(widths[i], bound) else widths[i])
  }

  /** A multiple of the designed width, in whole pixels; nothing where there is no such design. */
  function FlexibleBound(flexible: nat, defaults: Widths): real {
    Round((if flexible < |defaults| then defaults[flexible] else 0.0) * MAX_COLUMN_GROWTH)
  }

  /** The bound is two and a half times the designed width, to the nearest pixel, and nothing where there is no design. */
  lemma FlexibleBoundIsNearest(flexible: nat, defaults: Widths)
    ensures var bound := FlexibleBound(flexible, defaults);
      && bound == Down(bound)
      && (flexible < |defaults| ==> 2.0 * bound - 1.0 <= 5.0 * defaults[flexible] < 2.0 * bound + 1.0)
      && (flexible >= |defaults| ==> bound == 0.0)
  {
    assert 0.5.Floor == 0;
  }

  // ── What a fit is ─────────────────────────────────────────────────────────

  function FloorAt(floors: Widths, i: nat): (floor: real)
    ensures floor >= MIN_COLUMN
  {
    Max(MIN_COLUMN, if i < |floors| then floors[i] else MIN_COLUMN)
  }

  function Floors(widths: Widths, floors: Widths): Widths {
    seq(|widths|, i requires 0 <= i < |widths| => FloorAt(floors, i))
  }

  function Natural(widths: Widths, floors: Widths): Widths {
    seq(|widths|, i requires 0 <= i < |widths| => Max(FloorAt(floors, i), widths[i]))
  }

  /** A column's share would take it below its floor. */
  predicate Under(floor: real, width: real, scale: real) {
    width * scale < floor
  }

  /** A column at its share of its width, or at its floor where that is wider. */
  function Level(floor: real, width: real, scale: real): real {
    Max(floor, width * scale)
  }

  function RoundedLevel(floor: real, width: real, scale: real): real {
    Max(floor, Down(width * scale))
  }

  ghost function Levels(widths: Widths, floors: Widths, scale: real): Widths {
    seq(|widths|, i requires 0 <= i < |widths| => Level(FloorAt(floors, i), widths[i], scale))
  }

  ghost function Rounded(widths: Widths, floors: Widths, scale: real): Widths {
    seq(|widths|, i requires 0 <= i < |widths| => RoundedLevel(FloorAt(floors, i), widths[i], scale))
  }

  /** The equation the scale answers to. */
  ghost predicate Solves(widths: Widths, floors: Widths, space: real, scale: real) {
    Sum(Levels(widths, floors, scale)) == space
  }

  /** The largest scale up to 1 at which every column is at its floor. */
  function OverflowScale(widths: Widths, floors: Widths, n: nat): (scale: real)
    requires n <= |widths|
    ensures scale <= 1.0
    ensures forall i :: 0 <= i < n ==> scale <= FloorAt(floors, i) / Max(widths[i], 1.0)
    ensures scale == 1.0 || exists i :: 0 <= i < n && scale == FloorAt(floors, i) / Max(widths[i], 1.0)
  {
    if n == 0 then 1.0
    else Min(OverflowScale(widths, floors, n - 1), FloorAt(floors, n - 1) / Max(widths[n - 1], 1.0))
  }

  /** Neither every column at its floor nor every column at its width fills the space. */
  ghost predicate Proportional(widths: Widths, floors: Widths, space: real) {
    space > 0.0 && Sum(Floors(widths, floors)) < space < Sum(Natural(widths, floors))
  }

  ghost predicate IsFit(widths: Widths, floors: Widths, space: real, fit: ColumnFit) {
    var natural, lowest := Natural(widths, floors), Floors(widths, floors);
    if space <= 0.0 then fit == ColumnFit(natural, 1.0, Sum(natural), false)
    else if Sum(lowest) >= space then
      fit == ColumnFit(lowest, OverflowScale(widths, floors, |widths|), Sum(lowest), true)
    else if Sum(natural) <= space then fit == ColumnFit(natural, 1.0, Sum(natural), false)
    else
      && 0.0 < fit.scale < 1.0 && Solves(widths, floors, space, fit.scale)
      && fit.drawn == Rounded(widths, floors, fit.scale) && fit.total == Sum(fit.drawn) && !fit.overflow
  }

  // ── The equation has one answer ───────────────────────────────────────────

  lemma LevelGrows(floor: real, width: real, s: real, t: real)
    requires width >= 0.0 && s <= t
    ensures Level(floor, width, s) <= Level(floor, width, t)
  {
    TimesKeepsOrder(s, t, width);
    MaxKeepsOrder(floor, width * s, width * t);
  }

  lemma FreeLevelGrows(floor: real, width: real, s: real, t: real)
    requires width >= 0.0 && s < t && floor > 0.0 && !Under(floor, width, s)
    ensures Level(floor, width, s) < Level(floor, width, t)
  {
    assert width != 0.0;
    TimesKeepsStrictOrder(s, t, width);
    MaxKeepsOrder(floor, width * s, width * t);
  }

  lemma MaxKeepsOrder(floor: real, a: real, b: real)
    requires a <= b
    ensures Max(floor, a) <= Max(floor, b)
    ensures a < b && floor <= a ==> Max(floor, a) < Max(floor, b)
  {
  }

  lemma LevelsGrow(widths: Widths, floors: Widths, s: real, t: real)
    requires NonNegative(widths) && s <= t
    ensures Sum(Levels(widths, floors, s)) <= Sum(Levels(widths, floors, t))
    ensures s < t && (exists i :: 0 <= i < |widths| && !Under(FloorAt(floors, i), widths[i], s)) ==>
      Sum(Levels(widths, floors, s)) < Sum(Levels(widths, floors, t))
  {
    var a, b := Levels(widths, floors, s), Levels(widths, floors, t);
    forall i | 0 <= i < |widths|
      ensures a[i] <= b[i]
    {
      LevelGrows(FloorAt(floors, i), widths[i], s, t);
    }
    SumAtMost(a, b);
    if s < t && exists i :: 0 <= i < |widths| && !Under(FloorAt(floors, i), widths[i], s) {
      var i :| 0 <= i < |widths| && !Under(FloorAt(floors, i), widths[i], s);
      FreeLevelGrows(FloorAt(floors, i), widths[i], s, t);
      SumBelow(a, b, i);
    }
  }

  lemma LevelsAtFloor(widths: Widths, floors: Widths, s: real)
    requires forall i :: 0 <= i < |widths| ==> Under(FloorAt(floors, i), widths[i], s)
    ensures Levels(widths, floors, s) == Floors(widths, floors)
  {
    var levels, lowest := Levels(widths, floors, s), Floors(widths, floors);
    forall i | 0 <= i < |widths|
      ensures levels[i] == lowest[i]
    {
      assert levels[i] == Level(FloorAt(floors, i), widths[i], s);
    }
  }

  /** Where the floors leave room, some column is above its floor at any scale that fills the space. */
  lemma SomeColumnFree(widths: Widths, floors: Widths, space: real, s: real)
    requires Solves(widths, floors, space, s) && Sum(Floors(widths, floors)) < space
    ensures exists i :: 0 <= i < |widths| && !Under(FloorAt(floors, i), widths[i], s)
  {
    if forall i :: 0 <= i < |widths| ==> Under(FloorAt(floors, i), widths[i], s) {
      LevelsAtFloor(widths, floors, s);
    }
  }

  /** The scale is the only one that fills the space. */
  lemma ScaleIsUnique(widths: Widths, floors: Widths, space: real, s: real, t: real)
    requires NonNegative(widths) && Sum(Floors(widths, floors)) < space
    requires Solves(widths, floors, space, s) && Solves(widths, floors, space, t)
    ensures s == t
  {
    SomeColumnFree(widths, floors, space, s);
    SomeColumnFree(widths, floors, space, t);
    if s < t { LevelsGrow(widths, floors, s, t); }
    if t < s { LevelsGrow(widths, floors, t, s); }
  }

  lemma FitIsUnique(widths: Widths, floors: Widths, space: real, fit: ColumnFit, other: ColumnFit)
    requires NonNegative(widths)
    requires IsFit(widths, floors, space, fit) && IsFit(widths, floors, space, other)
    ensures fit == other
  {
    if Proportional(widths, floors, space) {
      ScaleIsUnique(widths, floors, space, fit.scale, other.scale);
    }
  }

  // ── The loop ──────────────────────────────────────────────────────────────

  function Share(held: bool, floor: real, width: real, scale: real): real {
    if held then floor else width * scale
  }

  /** What a round of the loop draws: held columns at their floor, the others at their share. */
  ghost function Mixed(widths: Widths, floors: Widths, held: seq<bool>, scale: real): Widths
    requires |held| == |widths|
  {
    seq(|widths|, i requires 0 <= i < |widths| => Share(held[i], FloorAt(floors, i), widths[i], scale))
  }

  ghost function FixedPart(widths: Widths, floors: Widths, held: seq<bool>): Widths
    requires |held| == |widths|
  {
    seq(|widths|, i requires 0 <= i < |widths| => if held[i] then FloorAt(floors, i) else 0.0)
  }

  ghost function FreePart(widths: Widths, held: seq<bool>): Widths
    requires |held| == |widths|
  {
    seq(|widths|, i requires 0 <= i < |widths| => if held[i] then 0.0 else widths[i])
  }

  lemma MixedSum(widths: Widths, floors: Widths, held: seq<bool>, scale: real)
    requires |held| == |widths|
    ensures Sum(Mixed(widths, floors, held, scale)) == Sum(FixedPart(widths, floors, held)) + Sum(FreePart(widths, held)) * scale
  {
    var mixed, fixed, free := Mixed(widths, floors, held, scale), FixedPart(widths, floors, held), FreePart(widths, held);
    forall i | 0 <= i < |widths|
      ensures mixed[i] == fixed[i] + free[i] * scale
    {
      assert mixed[i] == Share(held[i], FloorAt(floors, i), widths[i], scale);
      assert 0.0 * scale == 0.0;
    }
    SumCombines(mixed, fixed, free, scale);
  }

  /** The columns a round holds: those held before, and those their share would take below their floor. */
  ghost predicate HeldBelow(widths: Widths, floors: Widths, held: seq<bool>, scale: real, after: seq<bool>) {
    && |held| == |after| == |widths|
    && forall i :: 0 <= i < |widths| ==> (after[i] <==> held[i] || Under(FloorAt(floors, i), widths[i], scale))
  }

  /** The room the held columns leave is positive, so a scale computed from it is too. */
  lemma RoomLeft(widths: Widths, floors: Widths, held: seq<bool>, space: real)
    requires |held| == |widths| && Sum(Floors(widths, floors)) < space
    ensures Sum(FixedPart(widths, floors, held)) < space
  {
    SumAtMost(FixedPart(widths, floors, held), Floors(widths, floors));
  }

  /** After a round that held something: a free column is left, and the space is overspent at the old scale. */
  lemma RoundLeavesFree(widths: Widths, floors: Widths, held: seq<bool>, after: seq<bool>, space: real, scale: real)
    requires NonNegative(widths) && Sum(Floors(widths, floors)) < space && scale > 0.0
    requires HeldBelow(widths, floors, held, scale, after) && after != held
    requires Sum(Mixed(widths, floors, held, scale)) == space
    ensures Sum(Mixed(widths, floors, after, scale)) > space
    ensures Sum(FreePart(widths, after)) > 0.0
  {
    var before, now := Mixed(widths, floors, held, scale), Mixed(widths, floors, after, scale);
    forall i | 0 <= i < |widths|
      ensures before[i] <= now[i] && (after[i] != held[i] ==> before[i] < now[i])
    {
      assert before[i] == Share(held[i], FloorAt(floors, i), widths[i], scale);
      assert now[i] == Share(after[i], FloorAt(floors, i), widths[i], scale);
    }
    var changed :| 0 <= changed < |widths| && after[changed] != held[changed];
    SumBelow(before, now, changed);
    AllHeld(widths, floors, after, scale);
    var free :| 0 <= free < |widths| && !after[free];
    assert !Under(FloorAt(floors, free), widths[free], scale);
    assert widths[free] > 0.0;
    SumPositive(FreePart(widths, after), free);
  }

  lemma AllHeld(widths: Widths, floors: Widths, held: seq<bool>, scale: real)
    requires |held| == |widths|
    ensures (forall i :: 0 <= i < |widths| ==> held[i]) ==> Mixed(widths, floors, held, scale) == Floors(widths, floors)
  {
  }

  /** So the next scale is smaller. */
  lemma ScaleFalls(widths: Widths, floors: Widths, held: seq<bool>, space: real, scale: real, next: real)
    requires |held| == |widths| && Sum(FreePart(widths, held)) > 0.0
    requires Sum(Mixed(widths, floors, held, scale)) > space
    requires Sum(Mixed(widths, floors, held, next)) == space
    ensures next < scale
  {
    MixedSum(widths, floors, held, scale);
    MixedSum(widths, floors, held, next);
    FallsByProduct(Sum(FixedPart(widths, floors, held)), Sum(FreePart(widths, held)), space, scale, next);
  }

  lemma FallsByProduct(fixed: real, free: real, space: real, scale: real, next: real)
    requires free > 0.0 && fixed + free * scale > space && fixed + free * next == space
    ensures next < scale
  {
    LessByProduct(next, scale, free);
  }

  /** Where the natural widths do not fit, some column is wider than its floor. */
  lemma SomeWidth(widths: Widths, floors: Widths, space: real)
    requires NonNegative(widths) && Proportional(widths, floors, space)
    ensures Sum(widths) > 0.0
  {
    NaturalAtFloor(widths, floors);
    var i :| 0 <= i < |widths| && widths[i] > FloorAt(floors, i);
    SumPositive(widths, i);
  }

  lemma NaturalAtFloor(widths: Widths, floors: Widths)
    ensures (forall i :: 0 <= i < |widths| ==> widths[i] <= FloorAt(floors, i)) ==> Natural(widths, floors) == Floors(widths, floors)
  {
  }

  /** When a round holds nothing new, its scale is the answer. */
  lemma StableScaleSolves(widths: Widths, floors: Widths, held: seq<bool>, space: real, scale: real)
    requires NonNegative(widths) && Proportional(widths, floors, space) && |held| == |widths|
    requires forall i :: 0 <= i < |widths| ==> (held[i] <==> Under(FloorAt(floors, i), widths[i], scale))
    requires Sum(Mixed(widths, floors, held, scale)) == space
    ensures Solves(widths, floors, space, scale) && scale < 1.0
  {
    var mixed, levels := Mixed(widths, floors, held, scale), Levels(widths, floors, scale);
    forall i | 0 <= i < |widths|
      ensures mixed[i] == levels[i]
    {
      assert mixed[i] == Share(held[i], FloorAt(floors, i), widths[i], scale);
      assert levels[i] == Level(FloorAt(floors, i), widths[i], scale);
    }
    assert mixed == levels;
    NaturalAtOne(widths, floors);
    if scale >= 1.0 { LevelsGrow(widths, floors, 1.0, scale); }
  }

  lemma NaturalAtOne(widths: Widths, floors: Widths)
    ensures Levels(widths, floors, 1.0) == Natural(widths, floors)
  {
    var levels, natural := Levels(widths, floors, 1.0), Natural(widths, floors);
    forall i | 0 <= i < |widths|
      ensures levels[i] == natural[i]
    {
      assert levels[i] == Level(FloorAt(floors, i), widths[i], 1.0);
    }
  }

  /** The first loop of a round. */
  method Shares(widths: Widths, floors: Widths, held: seq<bool>) returns (fixed: real, free: real)
    requires |held| == |widths|
    ensures fixed == Sum(FixedPart(widths, floors, held)) && free == Sum(FreePart(widths, held))
  {
    fixed, free := 0.0, 0.0;
    var i := 0;
    while i < |widths|
      invariant i <= |widths|
      invariant fixed == Sum(FixedPart(widths, floors, held)[..i]) && free == Sum(FreePart(widths, held)[..i])
    {
      SumNext(FixedPart(widths, floors, held), i);
      SumNext(FreePart(widths, held), i);
      if held[i] { fixed := fixed + FloorAt(floors, i); } else { free := free + widths[i]; }
      i := i + 1;
    }
    assert FixedPart(widths, floors, held)[..i] == FixedPart(widths, floors, held);
    assert FreePart(widths, held)[..i] == FreePart(widths, held);
  }

  /** The second loop of a round. */
  method HoldBelow(widths: Widths, floors: Widths, held: seq<bool>, scale: real) returns (after: seq<bool>, changed: bool)
    requires |held| == |widths|
    ensures HeldBelow(widths, floors, held, scale, after)
    ensures changed <==> after != held
    ensures changed ==> Unheld(after) < Unheld(held)
  {
    after, changed := held, false;
    var i := 0;
    while i < |widths|
      invariant i <= |widths| && |after| == |widths|
      invariant forall k :: 0 <= k < i ==> (after[k] <==> held[k] || Under(FloorAt(floors, k), widths[k], scale))
      invariant forall k :: i <= k < |widths| ==> after[k] == held[k]
      invariant changed <==> after != held
      invariant Unheld(after) <= Unheld(held) && (changed ==> Unheld(after) < Unheld(held))
    {
      if !after[i] && widths[i] * scale < FloorAt(floors, i) {
        HoldingOne(after, i);
        after := after[i := true];
        changed := true;
      }
      i := i + 1;
    }
  }

  ghost function Unheld(held: seq<bool>): nat {
    if held == [] then 0 else Unheld(held[..|held| - 1]) + if held[|held| - 1] then 0 else 1
  }

  lemma {:induction false} HoldingOne(held: seq<bool>, i: nat)
    requires i < |held| && !held[i]
    ensures Unheld(held[i := true]) == Unheld(held) - 1
  {
    var before, last := held[..|held| - 1], |held| - 1;
    if i < last {
      HoldingOne(before, i);
      assert held[i := true][..last] == before[i := true];
    } else {
      assert held[i := true][..last] == before;
    }
  }

  /**
   The columns fitted into `space`. `scales` is the scale of each round of the loop, which falls
   from round to round.
   */
  method FitColumns(widths: Widths, floors: Widths, space: real) returns (fit: ColumnFit, ghost scales: seq<real>)
    requires NonNegative(widths)
    ensures IsFit(widths, floors, space, fit)
    ensures Proportional(widths, floors, space) ==> scales != [] && scales[|scales| - 1] == fit.scale
    ensures forall i :: 0 <= i < |scales| - 1 ==> scales[i + 1] < scales[i]
  {
    scales := [];
    var natural := Natural(widths, floors);
    var naturalTotal := SumOf(natural);
    if space <= 0.0 { return ColumnFit(natural, 1.0, naturalTotal, false), []; }
    var floorDrawn := Floors(widths, floors);
    var floorTotal := SumOf(floorDrawn);
    if floorTotal >= space {
      return ColumnFit(floorDrawn, OverflowScale(widths, floors, |widths|), floorTotal, true), [];
    }
    if naturalTotal <= space { return ColumnFit(natural, 1.0, naturalTotal, false), []; }
    var held, scale;
    held, scale, scales := HoldAndRescale(widths, floors, space);
    StableScaleSolves(widths, floors, held, space, scale);
    var drawn := Drawn(widths, floors, held, scale);
    var total := SumOf(drawn);
    fit := ColumnFit(drawn, scale, total, false);
  }

  /** The loop: hold the columns that fall under their floor and rescale the others, until none falls any more. */
  method HoldAndRescale(widths: Widths, floors: Widths, space: real) returns (held: seq<bool>, scale: real, ghost scales: seq<real>)
    requires NonNegative(widths) && Proportional(widths, floors, space)
    ensures Stable(widths, floors, space, held, scale)
    ensures scales != [] && scales[|scales| - 1] == scale
    ensures forall i :: 0 <= i < |scales| - 1 ==> scales[i + 1] < scales[i]
  {
    held, scale, scales := seq(|widths|, _ => false), 1.0, [];
    SomeWidth(widths, floors, space);
    assert FreePart(widths, held) == widths;
    var changed := true;
    while changed
      invariant |held| == |widths|
      invariant scales == [] ==> Unstarted(widths, held) && changed
      invariant scales != [] ==> scales[|scales| - 1] == scale
      invariant scales != [] && changed ==> Overspent(widths, floors, space, held, scale)
      invariant !changed ==> scales != [] && Stable(widths, floors, space, held, scale)
      invariant forall i :: 0 <= i < |scales| - 1 ==> scales[i + 1] < scales[i]
      decreases Unheld(held), changed
    {
      held, scale, changed := FitRound(widths, floors, space, held, scale, scales == []);
      scales := scales + [scale];
    }
  }

  /** Before the first round: nothing held, and something to share. */
  ghost predicate Unstarted(widths: Widths, held: seq<bool>) {
    |held| == |widths| && Sum(FreePart(widths, held)) > 0.0 && forall i :: 0 <= i < |widths| ==> !held[i]
  }

  /** Between rounds: what is held stays under its floor, a free column is left, and the last scale spends too much. */
  ghost predicate Overspent(widths: Widths, floors: Widths, space: real, held: seq<bool>, scale: real) {
    && |held| == |widths| && Sum(FreePart(widths, held)) > 0.0
    && Sum(Mixed(widths, floors, held, scale)) > space
    && forall i :: 0 <= i < |widths| && held[i] ==> Under(FloorAt(floors, i), widths[i], scale)
  }

  /** After the last round: exactly the columns under their floor are held, and the space is spent. */
  ghost predicate Stable(widths: Widths, floors: Widths, space: real, held: seq<bool>, scale: real) {
    && |held| == |widths| && scale > 0.0
    && Sum(Mixed(widths, floors, held, scale)) == space
    && forall i :: 0 <= i < |widths| ==> (held[i] <==> Under(FloorAt(floors, i), widths[i], scale))
  }

  /** One round of the loop. The division is never by zero: a free column of positive width is always left. */
  method FitRound(widths: Widths, floors: Widths, space: real, held: seq<bool>, scale: real, ghost first: bool)
    returns (after: seq<bool>, next: real, changed: bool)
    requires NonNegative(widths) && Proportional(widths, floors, space)
    requires if first then Unstarted(widths, held) else Overspent(widths, floors, space, held, scale)
    ensures !first ==> next < scale
    ensures if changed then Overspent(widths, floors, space, after, next) else Stable(widths, floors, space, after, next)
    ensures changed ==> Unheld(after) < Unheld(held)
    ensures !changed ==> after == held
  {
    var fixed, free := Shares(widths, floors, held);
    next := (space - fixed) / free;
    NextScale(widths, floors, held, space, next);
    if !first {
      ScaleFalls(widths, floors, held, space, scale, next);
      HeldStaysBelow(widths, floors, held, scale, next);
    }
    after, changed := HoldBelow(widths, floors, held, next);
    if changed { RoundLeavesFree(widths, floors, held, after, space, next); }
  }

  lemma NextScale(widths: Widths, floors: Widths, held: seq<bool>, space: real, next: real)
    requires |held| == |widths| && Sum(Floors(widths, floors)) < space && Sum(FreePart(widths, held)) > 0.0
    requires next == (space - Sum(FixedPart(widths, floors, held))) / Sum(FreePart(widths, held))
    ensures next > 0.0 && Sum(Mixed(widths, floors, held, next)) == space
  {
    RoomLeft(widths, floors, held, space);
    QuotientTimes(space - Sum(FixedPart(widths, floors, held)), Sum(FreePart(widths, held)));
    MixedSum(widths, floors, held, next);
  }

  lemma HeldStaysBelow(widths: Widths, floors: Widths, held: seq<bool>, scale: real, next: real)
    requires NonNegative(widths) && |held| == |widths| && next <= scale
    requires forall i :: 0 <= i < |widths| && held[i] ==> Under(FloorAt(floors, i), widths[i], scale)
    ensures forall i :: 0 <= i < |widths| && held[i] ==> Under(FloorAt(floors, i), widths[i], next)
  {
    forall i | 0 <= i < |widths| && held[i]
      ensures Under(FloorAt(floors, i), widths[i], next)
    {
      TimesKeepsOrder(next, scale, widths[i]);
      assert Under(FloorAt(floors, i), widths[i], scale);
    }
  }

  function DrawnColumn(held: bool, floor: real, width: real, scale: real): (drawn: real)
    requires held <==> Under(floor, width, scale)
    ensures drawn == RoundedLevel(floor, width, scale)
  {
    if held then floor else Max(floor, Down(width * scale))
  }

  function Drawn(widths: Widths, floors: Widths, held: seq<bool>, scale: real): (drawn: Widths)
    requires |held| == |widths|
    requires forall i :: 0 <= i < |widths| ==> (held[i] <==> Under(FloorAt(floors, i), widths[i], scale))
    ensures drawn == Rounded(widths, floors, scale)
  {
    seq(|widths|, i requires 0 <= i < |widths| =>
      DrawnColumn(held[i], FloorAt(floors, i), widths[i], scale))
  }

  // ── Totals ────────────────────────────────────────────────────────────────

  /** How many columns are drawn above their floor. */
  ghost function Free(widths: Widths, floors: Widths, scale: real, n: nat): nat
    requires n <= |widths|
  {
    if n == 0 then 0
    else Free(widths, floors, scale, n - 1) + if Level(FloorAt(floors, n - 1), widths[n - 1], scale) > FloorAt(floors, n - 1) then 1 else 0
  }

  lemma {:induction false} RoundingLoss(widths: Widths, floors: Widths, scale: real, n: nat)
    requires n <= |widths|
    ensures var exact, drawn := Levels(widths, floors, scale), Rounded(widths, floors, scale); var free := Free(widths, floors, scale, n);
      && Sum(drawn[..n]) <= Sum(exact[..n])
      && (free == 0 ==> Sum(drawn[..n]) == Sum(exact[..n]))
      && (free > 0 ==> Sum(exact[..n]) - Sum(drawn[..n]) < free as real)
  {
    if n > 0 {
      RoundingLoss(widths, floors, scale, n - 1);
      var exact, drawn := Levels(widths, floors, scale), Rounded(widths, floors, scale);
      SumNext(exact, n - 1);
      SumNext(drawn, n - 1);
      assert exact[n - 1] == Level(FloorAt(floors, n - 1), widths[n - 1], scale);
      assert drawn[n - 1] == RoundedLevel(FloorAt(floors, n - 1), widths[n - 1], scale);
    }
  }

  /**
   What is drawn: every column at least its floor, never more than the space unless the list
   overflows, and in proportion less than a pixel lost for each column above its floor.
   */
  lemma {:induction false} DrawnTotals(widths: Widths, floors: Widths, space: real, fit: ColumnFit)
    requires NonNegative(widths) && IsFit(widths, floors, space, fit)
    ensures |fit.drawn| == |widths| && fit.total == Sum(fit.drawn)
    ensures forall i :: 0 <= i < |widths| ==> fit.drawn[i] >= FloorAt(floors, i)
    ensures fit.overflow <==> space > 0.0 && Sum(Floors(widths, floors)) >= space
    ensures space > 0.0 && !fit.overflow ==> fit.total <= space
    ensures Proportional(widths, floors, space) ==>
      fit.total == space || space - fit.total < Free(widths, floors, fit.scale, |widths|) as real
  {
    if Proportional(widths, floors, space) {
      RoundingLoss(widths, floors, fit.scale, |widths|);
      var exact, drawn := Levels(widths, floors, fit.scale), Rounded(widths, floors, fit.scale);
      assert exact[..|widths|] == exact && drawn[..|widths|] == drawn;
    }
  }

  // ── Spare room ────────────────────────────────────────────────────────────

  datatype TopUp = NoTopUp | TopUp(column: nat, width: real)

  function ToppedUp(drawn: Widths, spare: real, topUp: TopUp): Widths
    requires topUp.TopUp? ==> topUp.column < |drawn|
  {
    match topUp
    case NoTopUp => drawn
    case TopUp(column, width) => drawn[column := drawn[column] + Min(spare, Max(0.0, width - drawn[column]))]
  }

  /** A column that shares in the spare room, up to a multiple of its own width. */
  function Grown(width: real, factor: real): real {
    Down(Min(width * factor, width * MAX_COLUMN_GROWTH))
  }

  /** The fitted widths with the room the columns leave shared out: the specification of `WithSpareRoom`. */
  ghost function SpareShared(fit: ColumnFit, space: real, flexible: nat, fixed: set<nat>, topUp: TopUp): Widths
    requires topUp.TopUp? ==> topUp.column < |fit.drawn|
  {
    var topped := ToppedUp(fit.drawn, space - Sum(fit.drawn), topUp);
    if fit.overflow || fit.scale < 1.0 || space <= Sum(fit.drawn) then fit.drawn
    else if Sum(topped) == 0.0 then topped
    else GrownAll(topped, Quotient(space, Sum(topped)), flexible, fixed)
  }

  function GrownAll(topped: Widths, factor: real, flexible: nat, fixed: set<nat>): Widths {
    seq(|topped|, i requires 0 <= i < |topped| =>
      if i == flexible || i in fixed then topped[i] else Grown(topped[i], factor))
  }

  method WithSpareRoom(fit: ColumnFit, space: real, flexible: nat, fixed: set<nat>, topUp: TopUp) returns (result: Widths)
    requires topUp.TopUp? ==> topUp.column < |fit.drawn|
    requires forall i :: 0 <= i < |fit.drawn| ==> fit.drawn[i] >= MIN_COLUMN
    ensures result == SpareShared(fit, space, flexible, fixed, topUp)
  {
    result := fit.drawn;
    if fit.overflow || fit.scale < 1.0 { return; }
    var total := SumOf(result);
    var spare := space - total;
    if spare <= 0.0 { return; }
    if topUp.TopUp? {
      result := result[topUp.column := result[topUp.column] + Min(spare, Max(0.0, topUp.width - result[topUp.column]))];
    }
    total := SumOf(result);
    if result == [] { return; }
    ToppedFits(fit.drawn, space, topUp);
    SumPositive(result, 0);
    var factor := Quotient(space, total);
    result := GrownAll(result, factor, flexible, fixed);
  }

  /**
   What sharing may do: never overfill the space, leave the flexible and the fixed columns at their
   width, stop at the limit, and shrink no column of whole pixels.
   */
  ghost predicate SharesRoom(drawn: Widths, topped: Widths, result: Widths, space: real, flexible: nat, fixed: set<nat>) {
    && |result| == |topped| == |drawn|
    && (Sum(drawn) <= space ==> Sum(result) <= space)
    && (forall i :: 0 <= i < |result| && (i == flexible || i in fixed) ==> result[i] == topped[i])
    && (forall i :: 0 <= i < |result| ==> result[i] <= Max(topped[i], Limit(topped[i])))
    && (forall i :: 0 <= i < |result| && drawn[i] == Down(drawn[i]) ==> result[i] >= drawn[i])
  }

  /** The widths sharing starts from: topped up where there is room, as drawn where there is none. */
  ghost function SharedFrom(fit: ColumnFit, space: real, topUp: TopUp): Widths
    requires topUp.TopUp? ==> topUp.column < |fit.drawn|
  {
    if fit.overflow || fit.scale < 1.0 || space <= Sum(fit.drawn) then fit.drawn
    else ToppedUp(fit.drawn, space - Sum(fit.drawn), topUp)
  }

  lemma SpareRoomIsShared(fit: ColumnFit, space: real, flexible: nat, fixed: set<nat>, topUp: TopUp)
    requires topUp.TopUp? ==> topUp.column < |fit.drawn|
    requires forall i :: 0 <= i < |fit.drawn| ==> fit.drawn[i] >= MIN_COLUMN
    ensures SharesRoom(fit.drawn, SharedFrom(fit, space, topUp), SpareShared(fit, space, flexible, fixed, topUp), space, flexible, fixed)
  {
    var drawn := fit.drawn;
    if !(fit.overflow || fit.scale < 1.0 || space <= Sum(drawn)) {
      var topped := ToppedUp(drawn, space - Sum(drawn), topUp);
      ToppedFits(drawn, space, topUp);
      if Sum(topped) != 0.0 {
        assert drawn != [];
        SumPositive(topped, 0);
        var factor := Quotient(space, Sum(topped));
        FactorSpends(space, Sum(topped));
        GrowthIsShared(drawn, topped, space, factor, flexible, fixed);
      }
    }
  }

  /** A width that is the whole part of the lesser of its share `from * space / total` and two and a half times itself. */
  ghost predicate TakesItsShare(result: real, from: real, space: real, total: real) {
    && result == Down(result)
    && result * total <= from * space && 2.0 * result <= 5.0 * from
    && ((result + 1.0) * total > from * space || 2.0 * (result + 1.0) > 5.0 * from)
  }

  /** One column is brought up to a width, as far as the spare room goes, and never down. */
  ghost predicate ToppedFrom(drawn: Widths, topped: Widths, spare: real, topUp: TopUp) {
    && |topped| == |drawn|
    && forall i :: 0 <= i < |drawn| ==>
      topped[i] == if topUp.TopUp? && topUp.column == i then Max(drawn[i], Min(topUp.width, drawn[i] + spare)) else drawn[i]
  }

  /** The flexible and the fixed columns end as topped up, each of the others at its whole share. */
  ghost predicate SharedOut(topped: Widths, result: Widths, space: real, flexible: nat, fixed: set<nat>) {
    && |result| == |topped|
    && forall i :: 0 <= i < |topped| ==>
      if i == flexible || i in fixed then result[i] == topped[i] else TakesItsShare(result[i], topped[i], space, Sum(topped))
  }

  /**
   How wide every column ends: as drawn where the columns do not all stand at their full width or leave no room, and
   otherwise from the topped-up widths, with the room shared out.
   */
  lemma SpareRoomIsSpent(fit: ColumnFit, space: real, flexible: nat, fixed: set<nat>, topUp: TopUp)
    requires topUp.TopUp? ==> topUp.column < |fit.drawn|
    requires forall i :: 0 <= i < |fit.drawn| ==> fit.drawn[i] >= MIN_COLUMN
    ensures var result, spare := SpareShared(fit, space, flexible, fixed, topUp), space - Sum(fit.drawn);
      if fit.overflow || fit.scale < 1.0 || spare <= 0.0 then result == fit.drawn
      else exists topped :: ToppedFrom(fit.drawn, topped, spare, topUp) && SharedOut(topped, result, space, flexible, fixed)
  {
    if !fit.overflow && fit.scale >= 1.0 && space - Sum(fit.drawn) > 0.0 {
      var topped := ToppedUp(fit.drawn, space - Sum(fit.drawn), topUp);
      ToppedIsFrom(fit.drawn, space - Sum(fit.drawn), topUp);
      RoomIsSpent(fit, space, flexible, fixed, topUp);
    }
  }

  lemma RoomIsSpent(fit: ColumnFit, space: real, flexible: nat, fixed: set<nat>, topUp: TopUp)
    requires topUp.TopUp? ==> topUp.column < |fit.drawn|
    requires forall i :: 0 <= i < |fit.drawn| ==> fit.drawn[i] >= MIN_COLUMN
    requires !fit.overflow && fit.scale >= 1.0 && space - Sum(fit.drawn) > 0.0
    ensures var topped := ToppedUp(fit.drawn, space - Sum(fit.drawn), topUp);
      SharedOut(topped, SpareShared(fit, space, flexible, fixed, topUp), space, flexible, fixed)
  {
    var topped := ToppedUp(fit.drawn, space - Sum(fit.drawn), topUp);
    RoomyShares(fit, space, flexible, fixed, topUp);
    if fit.drawn != [] {
      ToppedFits(fit.drawn, space, topUp);
      SumPositive(topped, 0);
      GrownAllShares(topped, space, flexible, fixed);
    }
  }

  lemma RoomyShares(fit: ColumnFit, space: real, flexible: nat, fixed: set<nat>, topUp: TopUp)
    requires topUp.TopUp? ==> topUp.column < |fit.drawn|
    requires !fit.overflow && fit.scale >= 1.0 && space - Sum(fit.drawn) > 0.0
    ensures var topped := ToppedUp(fit.drawn, space - Sum(fit.drawn), topUp);
      SpareShared(fit, space, flexible, fixed, topUp) ==
        if Sum(topped) == 0.0 then topped else GrownAll(topped, Quotient(space, Sum(topped)), flexible, fixed)
  {
  }

  lemma ToppedIsFrom(drawn: Widths, spare: real, topUp: TopUp)
    requires (topUp.TopUp? ==> topUp.column < |drawn|) && spare > 0.0
    ensures ToppedFrom(drawn, ToppedUp(drawn, spare, topUp), spare, topUp)
  {
  }

  lemma GrownAllShares(topped: Widths, space: real, flexible: nat, fixed: set<nat>)
    requires Sum(topped) > 0.0
    ensures SharedOut(topped, GrownAll(topped, Quotient(space, Sum(topped)), flexible, fixed), space, flexible, fixed)
  {
    var total := Sum(topped);
    var factor := Quotient(space, total);
    QuotientTimes(space, total);
    var result := GrownAll(topped, factor, flexible, fixed);
    forall i | 0 <= i < |topped| && i != flexible && i !in fixed
      ensures TakesItsShare(result[i], topped[i], space, total)
    {
      GrownTakesShare(topped[i], factor, space, total);
    }
  }

  lemma GrownTakesShare(from: real, factor: real, space: real, total: real)
    requires total > 0.0 && factor * total == space
    ensures TakesItsShare(Grown(from, factor), from, space, total)
  {
    var result, share := Grown(from, factor), from * factor;
    DownIsBelow(Min(share, from * MAX_COLUMN_GROWTH));
    assert share * total == from * (factor * total);
    TimesKeepsOrder(result, share, total);
    if share < result + 1.0 { TimesKeepsStrictOrder(share, result + 1.0, total); }
    DownIsWhole(Min(share, from * MAX_COLUMN_GROWTH));
  }

  lemma DownIsWhole(x: real)
    ensures Down(Down(x)) == Down(x)
  {
  }

  lemma GrowthIsShared(drawn: Widths, topped: Widths, space: real, factor: real, flexible: nat, fixed: set<nat>)
    requires |topped| == |drawn| && factor >= 1.0 && Times(Sum(topped), factor) == space
    requires forall i :: 0 <= i < |drawn| ==> topped[i] >= drawn[i] >= MIN_COLUMN
    ensures SharesRoom(drawn, topped, GrownAll(topped, factor, flexible, fixed), space, flexible, fixed)
  {
    GrownBetween(drawn, topped, factor, flexible, fixed);
    var scaled := ScaledBy(topped, factor);
    ScaledSum(topped, factor, scaled);
    SumAtMost(GrownAll(topped, factor, flexible, fixed), scaled);
  }

  ghost function ScaledBy(values: Widths, factor: real): Widths {
    seq(|values|, i requires 0 <= i < |values| => Times(values[i], factor))
  }

  lemma GrownBetween(drawn: Widths, topped: Widths, factor: real, flexible: nat, fixed: set<nat>)
    requires |topped| == |drawn| && factor >= 1.0
    requires forall i :: 0 <= i < |drawn| ==> topped[i] >= drawn[i] >= MIN_COLUMN
    ensures var result, scaled := GrownAll(topped, factor, flexible, fixed), ScaledBy(topped, factor);
      forall i :: 0 <= i < |topped| ==>
        && result[i] <= scaled[i] && result[i] <= Limit(topped[i])
        && (drawn[i] == Down(drawn[i]) ==> result[i] >= drawn[i])
  {
    var result, scaled := GrownAll(topped, factor, flexible, fixed), ScaledBy(topped, factor);
    forall i | 0 <= i < |topped|
      ensures result[i] <= scaled[i] && result[i] <= Limit(topped[i])
      ensures drawn[i] == Down(drawn[i]) ==> result[i] >= drawn[i]
    {
      GrowthBounds(drawn[i], topped[i], factor);
    }
  }

  function Limit(width: real): real { width * MAX_COLUMN_GROWTH }

  function Quotient(x: real, y: real): real
    requires y != 0.0
  {
    x / y
  }

  lemma FactorSpends(space: real, total: real)
    requires 0.0 < total <= space
    ensures Quotient(space, total) >= 1.0 && Times(total, Quotient(space, total)) == space
  {
    QuotientTimes(space, total);
    if Quotient(space, total) < 1.0 { TimesKeepsStrictOrder(space / total, 1.0, total); }
  }

  lemma GrowthBounds(drawn: real, topped: real, factor: real)
    requires topped >= drawn >= MIN_COLUMN && factor >= 1.0
    ensures topped <= Times(topped, factor) && topped <= Limit(topped)
    ensures Grown(topped, factor) <= Times(topped, factor) && Grown(topped, factor) <= Limit(topped)
    ensures drawn == Down(drawn) ==> Grown(topped, factor) >= drawn
  {
    TimesKeepsOrder(1.0, factor, topped);
    DownBetween(drawn, topped * factor, topped * MAX_COLUMN_GROWTH);
  }

  lemma DownBetween(drawn: real, a: real, b: real)
    requires drawn <= a && drawn <= b
    ensures Down(Min(a, b)) <= a && Down(Min(a, b)) <= b
    ensures drawn == Down(drawn) ==> Down(Min(a, b)) >= drawn
  {
    DownIsBelow(Min(a, b));
    if drawn == Down(drawn) { DownKeepsWhole(drawn, Min(a, b)); }
  }

  lemma DownIsBelow(x: real)
    ensures Down(x) <= x < Down(x) + 1.0
  {
  }

  lemma DownKeepsWhole(whole: real, x: real)
    requires whole == Down(whole) && whole <= x
    ensures whole <= Down(x)
  {
    var n := whole.Floor;
    assert n <= x.Floor;
  }

  lemma ScaledSum(values: Widths, factor: real, scaled: Widths)
    requires |scaled| == |values| && forall i :: 0 <= i < |values| ==> scaled[i] == Times(values[i], factor)
    ensures Sum(scaled) == Times(Sum(values), factor)
  {
    var none := seq(|values|, _ => 0.0);
    SumOfZeros(none);
    SumCombines(scaled, none, values, factor);
  }

  lemma ToppedFits(drawn: Widths, space: real, topUp: TopUp)
    requires topUp.TopUp? ==> topUp.column < |drawn|
    requires Sum(drawn) < space && forall i :: 0 <= i < |drawn| ==> drawn[i] >= MIN_COLUMN
    ensures var topped := ToppedUp(drawn, space - Sum(drawn), topUp);
      && |topped| == |drawn| && Sum(topped) <= space
      && forall i :: 0 <= i < |drawn| ==> topped[i] >= drawn[i]
  {
    if topUp.TopUp? {
      SumUpdate(drawn, topUp.column, ToppedUp(drawn, space - Sum(drawn), topUp)[topUp.column]);
    }
  }
}
