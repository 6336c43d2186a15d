/** The stack of everything that closes on Escape (`ui/src/design-system/overlayStack.ts`). */
module Overlays {
  import opened Common

  /** A layer and the layer it was opened from. Chains of parents are finite, so no layer is its own ancestor. */
  datatype Layer = Layer(id: nat, trapsFocus: bool, parent: Option<Layer>)

  datatype KeyEvent = KeyEvent(key: string, isComposing: bool, defaultPrevented: bool)

  // ── Ancestors ─────────────────────────────────────────────────────────────

  predicate DescendsFrom(layer: Layer, ancestor: Layer)
    decreases layer
  {
    layer.parent.Some? && (layer.parent.value == ancestor || DescendsFrom(layer.parent.value, ancestor))
  }

  function Depth(layer: Layer): nat
    decreases layer
  {
    if layer.parent.Some? then 1 + Depth(layer.parent.value) else 0
  }

  lemma {:induction false} DescendantsAreDeeper(layer: Layer, ancestor: Layer)
    requires DescendsFrom(layer, ancestor)
    ensures Depth(ancestor) < Depth(layer)
    decreases layer
  {
    if layer.parent.value != ancestor { DescendantsAreDeeper(layer.parent.value, ancestor); }
  }

  lemma {:induction false} DescentIsTransitive(a: Layer, b: Layer, c: Layer)
    requires DescendsFrom(a, b) && DescendsFrom(b, c)
    ensures DescendsFrom(a, c)
    decreases a
  {
    if a.parent.value != b { DescentIsTransitive(a.parent.value, b, c); }
  }

  method FindAncestor(layer: Layer, ancestor: Layer) returns (found: bool)
    ensures found == DescendsFrom(layer, ancestor)
  {
    var current := layer.parent;
    while current.Some?
      invariant DescendsFrom(layer, ancestor) <==>
        current.Some? && (current.value == ancestor || DescendsFrom(current.value, ancestor))
      decreases if current.Some? then Depth(current.value) + 1 else 0
    {
      if current.value == ancestor { return true; }
      current := current.value.parent;
    }
    return false;
  }

  // ── What each operation does to the stack, bottom first ───────────────────

  /** Where a layer goes: under the first layer opened from it, or on top. */
  function Slot(layers: seq<Layer>, layer: Layer): (slot: nat)
    ensures slot <= |layers|
  {
    if layers == [] then 0 else if DescendsFrom(layers[0], layer) then 0 else 1 + Slot(layers[1..], layer)
  }

  function Inserted(layers: seq<Layer>, k: nat, layer: Layer): seq<Layer>
    requires k <= |layers|
  {
    layers[..k] + [layer] + layers[k..]
  }

  function Pushed(layers: seq<Layer>, layer: Layer): seq<Layer> { Inserted(layers, Slot(layers, layer), layer) }

  /** The lowest place of a layer, or the height of the stack. */
  function Place(layers: seq<Layer>, layer: Layer): (place: nat)
    ensures place <= |layers|
  {
    if layers == [] || layers[0] == layer then 0 else 1 + Place(layers[1..], layer)
  }

  function Removed(layers: seq<Layer>, layer: Layer): seq<Layer> {
    var k := Place(layers, layer);
    if k == |layers| then layers else layers[..k] + layers[k + 1..]
  }

  lemma {:induction false} SlotIs(layers: seq<Layer>, layer: Layer, k: nat)
    requires k <= |layers| && forall i :: 0 <= i < k ==> !DescendsFrom(layers[i], layer)
    requires k < |layers| ==> DescendsFrom(layers[k], layer)
    ensures Slot(layers, layer) == k
  {
    if k > 0 { SlotIs(layers[1..], layer, k - 1); }
  }

  lemma {:induction false} SlotIsFirst(layers: seq<Layer>, layer: Layer)
    ensures forall i :: 0 <= i < Slot(layers, layer) ==> !DescendsFrom(layers[i], layer)
    ensures Slot(layers, layer) < |layers| ==> DescendsFrom(layers[Slot(layers, layer)], layer)
  {
    if layers != [] && !DescendsFrom(layers[0], layer) {
      SlotIsFirst(layers[1..], layer);
      forall i | 0 <= i < Slot(layers, layer) ensures !DescendsFrom(layers[i], layer) {
        if i > 0 { assert layers[i] == layers[1..][i - 1]; }
      }
    }
  }

  lemma {:induction false} PlaceIs(layers: seq<Layer>, layer: Layer, k: nat)
    requires k <= |layers| && layer !in layers[..k] && (k < |layers| ==> layers[k] == layer)
    ensures Place(layers, layer) == k
  {
    if k > 0 {
      assert layers[0] == layers[..k][0];
      assert layers[1..][..k - 1] == layers[..k][1..];
      PlaceIs(layers[1..], layer, k - 1);
    }
  }

  lemma {:induction false} PlaceIsFirst(layers: seq<Layer>, layer: Layer)
    ensures layer !in layers[..Place(layers, layer)]
    ensures Place(layers, layer) < |layers| ==> layers[Place(layers, layer)] == layer
    ensures layer in layers <==> Place(layers, layer) < |layers|
  {
    if layers != [] && layers[0] != layer {
      PlaceIsFirst(layers[1..], layer);
      var k := Place(layers[1..], layer);
      assert layers[..1 + k] == [layers[0]] + layers[1..][..k];
      assert layers == [layers[0]] + layers[1..];
    }
  }

  class OverlayStack {
    var layers: seq<Layer>

    constructor ()
      ensures layers == []
    {
      layers := [];
    }

    /** Usually on top; under the first layer already opened from this one. */
    method Push(layer: Layer)
      modifies this
      ensures layers == Pushed(old(layers), layer)
    {
      var childIndex := 0;
      while childIndex < |layers|
        invariant childIndex <= |layers| && layers == old(layers)
        invariant forall i :: 0 <= i < childIndex ==> !DescendsFrom(layers[i], layer)
      {
        var child := FindAncestor(layers[childIndex], layer);
        if child { break; }
        childIndex := childIndex + 1;
      }
      SlotIs(layers, layer, childIndex);
      layers := layers[..childIndex] + [layer] + layers[childIndex..];
    }

    /** What a push returns: takes its layer off again. */
    method Undo(layer: Layer)
      modifies this
      ensures layers == Removed(old(layers), layer)
    {
      var index := 0;
      while index < |layers| && layers[index] != layer
        invariant index <= |layers| && layer !in layers[..index]
      {
        assert layers[..index + 1] == layers[..index] + [layers[index]];
        index := index + 1;
      }
      PlaceIs(layers, layer, index);
      if index < |layers| { layers := layers[..index] + layers[index + 1..]; }
    }

    method Top() returns (top: Option<Layer>)
      ensures top == if layers == [] then None else Some(layers[|layers| - 1])
    {
      top := if |layers| > 0 then Some(layers[|layers| - 1]) else None;
    }

    /** The highest layer that keeps Tab inside itself. */
    method TopFocusTrap() returns (trap: Option<Layer>)
      ensures trap == Trapping(layers)
    {
      var index: nat := |layers|;
      assert layers[..index] == layers;
      while index > 0
        invariant index <= |layers| && Trapping(layers) == Trapping(layers[..index])
      {
        index := index - 1;
        assert layers[..index + 1][..index] == layers[..index];
        if layers[index].trapsFocus { return Some(layers[index]); }
      }
      assert layers[..0] == [];
      return None;
    }

    /** The layer whose Escape action is called, if the press is taken. */
    method HandleKey(event: KeyEvent) returns (taken: Option<Layer>)
      ensures taken.Some? <==> event.key == "Escape" && !event.isComposing && !event.defaultPrevented && layers != []
      ensures taken.Some? ==> taken.value == layers[|layers| - 1]
    {
      if event.key != "Escape" || event.isComposing || event.defaultPrevented { return None; }
      var top := Top();
      return top;
    }
  }

  function Trapping(layers: seq<Layer>): Option<Layer> {
    if layers == [] then None
    else if layers[|layers| - 1].trapsFocus then Some(layers[|layers| - 1])
    else Trapping(layers[..|layers| - 1])
  }

  // ── Every run keeps children above their ancestors ────────────────────────

  datatype Action = Open(layer: Layer) | Close(layer: Layer)

  function Step(layers: seq<Layer>, a: Action): seq<Layer> {
    if a.Open? then Pushed(layers, a.layer) else Removed(layers, a.layer)
  }

  function Run(layers: seq<Layer>, actions: seq<Action>): seq<Layer>
    decreases |actions|
  {
    if actions == [] then layers else Run(Step(layers, actions[0]), actions[1..])
  }

  /** No layer is above a layer that was opened from it, directly or through others. */
  ghost predicate Ordered(layers: seq<Layer>) {
    forall i, j :: 0 <= i < j < |layers| ==> !DescendsFrom(layers[i], layers[j])
  }

  lemma PushKeepsOrder(layers: seq<Layer>, layer: Layer)
    requires Ordered(layers)
    ensures Ordered(Pushed(layers, layer))
  {
    var k := Slot(layers, layer);
    SlotIsFirst(layers, layer);
    forall j | k <= j < |layers| ensures !DescendsFrom(layer, layers[j]) {
      if DescendsFrom(layer, layers[j]) {
        DescentIsTransitive(layers[k], layer, layers[j]);
        DescendantsAreDeeper(layers[k], layers[j]);
      }
    }
    var pushed := Pushed(layers, layer);
    forall i, j | 0 <= i < j < |pushed| ensures !DescendsFrom(pushed[i], pushed[j]) {
      if i != k && j != k {
        assert pushed[i] == layers[if i < k then i else i - 1] && pushed[j] == layers[if j < k then j else j - 1];
      }
    }
  }

  lemma RemoveKeepsOrder(layers: seq<Layer>, layer: Layer)
    requires Ordered(layers)
    ensures Ordered(Removed(layers, layer))
  {
    var k := Place(layers, layer);
    var rest := Removed(layers, layer);
    forall i, j | 0 <= i < j < |rest| ensures !DescendsFrom(rest[i], rest[j]) {
      if k < |layers| {
        assert rest[i] == layers[if i < k then i else i + 1] && rest[j] == layers[if j < k then j else j + 1];
      }
    }
  }

  /** Whatever is pushed and undone, in whatever order, no layer ends up above its own descendant. */
  lemma {:induction false} RunsKeepOrder(layers: seq<Layer>, actions: seq<Action>)
    requires Ordered(layers)
    ensures Ordered(Run(layers, actions))
    decreases |actions|
  {
    if actions != [] {
      PushKeepsOrder(layers, actions[0].layer);
      RemoveKeepsOrder(layers, actions[0].layer);
      RunsKeepOrder(Step(layers, actions[0]), actions[1..]);
    }
  }

  /** In every run from nothing open, Escape and Tab go to layers that nothing open was opened from. */
  lemma EscapeReachesLeaf(actions: seq<Action>, k: nat)
    requires var layers := Run([], actions); k < |layers|
    ensures var layers := Run([], actions);
      && !DescendsFrom(layers[k], layers[|layers| - 1])
      && (layers[k].trapsFocus ==> Trapping(layers).Some? && !DescendsFrom(layers[k], Trapping(layers).value))
  {
    var layers := Run([], actions);
    RunsKeepOrder([], actions);
    var top := |layers| - 1;
    if k == top && DescendsFrom(layers[k], layers[top]) { DescendantsAreDeeper(layers[k], layers[top]); }
    if layers[k].trapsFocus { TrapIsHighest(layers, k); }
  }

  lemma {:induction false} TrapIsHighest(layers: seq<Layer>, k: nat)
    requires Ordered(layers) && k < |layers| && layers[k].trapsFocus
    ensures Trapping(layers).Some? && !DescendsFrom(layers[k], Trapping(layers).value)
  {
    var top := |layers| - 1;
    if layers[top].trapsFocus {
      if k == top && DescendsFrom(layers[k], layers[top]) { DescendantsAreDeeper(layers[k], layers[top]); }
    } else {
      TrapIsHighest(layers[..top], k);
    }
  }

  // ── What a push leaves alone ──────────────────────────────────────────────

  /** The layers of `watched`, in the stack's order. */
  function Among(layers: seq<Layer>, watched: set<Layer>): seq<Layer> {
    if layers == [] then []
    else (if layers[0] in watched then [layers[0]] else []) + Among(layers[1..], watched)
  }

  lemma {:induction false} AmongSplits(a: seq<Layer>, b: seq<Layer>, watched: set<Layer>)
    ensures Among(a + b, watched) == Among(a, watched) + Among(b, watched)
  {
    if a == [] {
      assert a + b == b;
    } else {
      assert (a + b)[1..] == a[1..] + b;
      AmongSplits(a[1..], b, watched);
      var first := if a[0] in watched then [a[0]] else [];
      assert Among(a + b, watched) == first + Among(a[1..] + b, watched);
      Regrouped(first, Among(a[1..], watched), Among(b, watched));
    }
  }

  lemma AmongWithout(layers: seq<Layer>, k: nat, watched: set<Layer>)
    requires k < |layers| && layers[k] !in watched
    ensures Among(layers[..k] + layers[k + 1..], watched) == Among(layers, watched)
  {
    AmongSplits(layers[..k], layers[k + 1..], watched);
    AmongSplits(layers[..k], layers[k..], watched);
    assert layers == layers[..k] + layers[k..] && layers[k..][1..] == layers[k + 1..];
  }

  /** Layers nothing is done to stay open in the same order, through every run. */
  lemma {:induction false} OthersKeepTheirOrder(layers: seq<Layer>, actions: seq<Action>, watched: set<Layer>)
    requires forall i :: 0 <= i < |actions| ==> actions[i].layer !in watched
    ensures Among(Run(layers, actions), watched) == Among(layers, watched)
    decreases |actions|
  {
    if actions != [] {
      var layer := actions[0].layer;
      var next := Step(layers, actions[0]);
      if actions[0].Open? {
        var k := Slot(layers, layer);
        AmongWithout(next, k, watched);
        assert next[..k] + next[k + 1..] == layers;
      } else {
        PlaceIsFirst(layers, layer);
        if Place(layers, layer) < |layers| { AmongWithout(layers, Place(layers, layer), watched); }
      }
      OthersKeepTheirOrder(next, actions[1..], watched);
    }
  }

  lemma RemovedAfter(below: seq<Layer>, rest: seq<Layer>, layer: Layer)
    requires layer !in below && rest != [] && rest[0] == layer
    ensures Removed(below + rest, layer) == below + rest[1..]
  {
    assert (below + rest)[..|below|] == below;
    PlaceIs(below + rest, layer, |below|);
    assert (below + rest)[|below| + 1..] == rest[1..];
  }

  lemma {:induction false} ConstantIffShifted(s: seq<Layer>, layer: Layer)
    requires s != [] && s[0] == layer
    ensures s[1..] + [layer] == s <==> forall j :: 0 <= j < |s| ==> s[j] == layer
  {
    if s[1..] + [layer] == s {
      Shifted(s, layer, |s| - 1);
    }
  }

  lemma {:induction false} Shifted(s: seq<Layer>, layer: Layer, n: nat)
    requires s != [] && s[0] == layer && s[1..] + [layer] == s && n < |s|
    ensures forall j :: 0 <= j <= n ==> s[j] == layer
  {
    if n > 0 {
      Shifted(s, layer, n - 1);
      assert (s[1..] + [layer])[n - 1] == s[n];
    }
  }

  /** A push puts its layer between what lies below its slot and what lies above. */
  lemma PushedBetween(below: seq<Layer>, between: seq<Layer>, above: seq<Layer>, layer: Layer)
    ensures Inserted(below + between + above, |below + between|, layer) == below + (between + [layer] + above)
  {
  }

  lemma UndoneBetween(below: seq<Layer>, between: seq<Layer>, above: seq<Layer>, layer: Layer)
    requires layer !in below && (between != [] ==> between[0] == layer)
    ensures Removed(below + (between + [layer] + above), layer) == below + (between + [layer])[1..] + above
    ensures (between + [layer])[1..] == between <==> forall j :: 0 <= j < |between| ==> between[j] == layer
  {
    RemovedAfter(below, between + [layer] + above, layer);
    assert (between + [layer] + above)[1..] == (between + [layer])[1..] + above;
    if between != [] {
      ConstantIffShifted(between, layer);
      assert (between + [layer])[1..] == between[1..] + [layer];
    }
  }

  lemma MiddleDecides(below: seq<Layer>, a: seq<Layer>, b: seq<Layer>, above: seq<Layer>)
    requires |a| == |b|
    ensures below + a + above == below + b + above <==> a == b
  {
    assert (below + a + above)[|below|..|below| + |a|] == a;
    assert (below + b + above)[|below|..|below| + |b|] == b;
  }

  lemma UndoDecided(below: seq<Layer>, between: seq<Layer>, above: seq<Layer>, layer: Layer)
    requires layer !in below && (between != [] ==> between[0] == layer)
    ensures var layers := below + between + above;
      Removed(Inserted(layers, |below + between|, layer), layer) == layers <==>
        forall j :: 0 <= j < |between| ==> between[j] == layer
  {
    PushedBetween(below, between, above, layer);
    UndoneBetween(below, between, above, layer);
    MiddleDecides(below, (between + [layer])[1..], between, above);
  }

  lemma UndoAt(layers: seq<Layer>, m: nat, k: nat, layer: Layer)
    requires m <= k <= |layers| && layer !in layers[..m] && (m < k ==> layers[m] == layer)
    ensures Removed(Inserted(layers, k, layer), layer) == layers <==> forall j :: m <= j < k ==> layers[j] == layer
  {
    var below, between, above := layers[..m], layers[m..k], layers[k..];
    Parts(layers, m, k);
    UndoDecided(below, between, above, layer);
    if forall j :: m <= j < k ==> layers[j] == layer {
      assert forall j :: 0 <= j < |between| ==> between[j] == layers[m + j];
    } else {
      var j :| m <= j < k && layers[j] != layer;
      assert between[j - m] == layers[j];
    }
  }

  lemma Parts(layers: seq<Layer>, m: nat, k: nat)
    requires m <= k <= |layers|
    ensures layers[..m] + layers[m..k] == layers[..k] && layers[..m] + layers[m..k] + layers[k..] == layers
  {
  }

  /**
   * Undoing a push at once restores the stack exactly when no other layer lies between an opening of the same layer
   * further down and the new one.
   */
  lemma UndoRestoresIff(layers: seq<Layer>, layer: Layer)
    ensures Removed(Pushed(layers, layer), layer) == layers <==>
      forall j :: Place(layers, layer) <= j < Slot(layers, layer) ==> layers[j] == layer
  {
    var place := Place(layers, layer);
    var k := Slot(layers, layer);
    PlaceIsFirst(layers, layer);
    if place < k {
      UndoAt(layers, place, k, layer);
    } else {
      assert layers[..k] == layers[..place][..k];
      UndoAt(layers, k, k, layer);
    }
  }

  lemma RemoveBelow(layers: seq<Layer>, k: nat, m: nat, layer: Layer)
    requires m < k <= |layers|
    ensures var s := Inserted(layers, k, layer);
      s[..m] + s[m + 1..] == Inserted(layers[..m] + layers[m + 1..], k - 1, layer)
  {
  }

  lemma RemoveAbove(layers: seq<Layer>, k: nat, m: nat, layer: Layer)
    requires k <= m < |layers|
    ensures var s := Inserted(layers, k, layer);
      s[..m + 1] + s[m + 2..] == Inserted(layers[..m] + layers[m + 1..], k, layer)
  {
  }

  lemma InsertBelow(layers: seq<Layer>, k: nat, q: nat, layer: Layer, other: Layer)
    requires q < k <= |layers|
    ensures Inserted(Inserted(layers, k, layer), q, other) == Inserted(Inserted(layers, q, other), k + 1, layer)
  {
  }

  lemma InsertAbove(layers: seq<Layer>, k: nat, q: nat, layer: Layer, other: Layer)
    requires k <= q <= |layers|
    ensures Inserted(Inserted(layers, k, layer), q + 1, other) == Inserted(Inserted(layers, q, other), k, layer)
  {
  }

  /** A layer opened beside one it is no ancestor of takes the place it would take without it. */
  lemma OpenBeside(layers: seq<Layer>, k: nat, layer: Layer, other: Layer) returns (k': nat)
    requires k <= |layers| && !DescendsFrom(layer, other)
    ensures k' <= |Pushed(layers, other)|
    ensures Pushed(Inserted(layers, k, layer), other) == Inserted(Pushed(layers, other), k', layer)
  {
    var q := Slot(layers, other);
    var s := Inserted(layers, k, layer);
    SlotIsFirst(layers, other);
    SlotIs(s, other, if q < k then q else q + 1);
    if q < k { InsertBelow(layers, k, q, layer, other); } else { InsertAbove(layers, k, q, layer, other); }
    k' := if q < k then k + 1 else k;
  }

  lemma CloseBeside(layers: seq<Layer>, k: nat, layer: Layer, other: Layer) returns (k': nat)
    requires k <= |layers| && layer != other
    ensures k' <= |Removed(layers, other)|
    ensures Removed(Inserted(layers, k, layer), other) == Inserted(Removed(layers, other), k', layer)
  {
    var m := Place(layers, other);
    var s := Inserted(layers, k, layer);
    PlaceIsFirst(layers, other);
    var place := if m < k then m else m + 1;
    forall i | 0 <= i < place ensures s[i] != other {
      if i < k { assert i < m ==> layers[..m][i] != other; } else if i > k { assert layers[..m][i - 1] != other; }
    }
    PlaceIs(s, other, place);
    if m < k { RemoveBelow(layers, k, m, layer); } else if m < |layers| { RemoveAbove(layers, k, m, layer); }
    k' := if m < k then k - 1 else k;
  }

  lemma StepKeepsAbsent(layers: seq<Layer>, a: Action, layer: Layer)
    requires layer !in layers && a.layer != layer
    ensures layer !in Step(layers, a)
  {
  }

  // ── Opening an ancestor of a layer that closes later ──────────────────────

  /** An ancestor goes under the layer, or under a lower one opened from it. */
  lemma AncestorSlot(layers: seq<Layer>, k: nat, layer: Layer, a: Layer)
    requires k <= |layers| && DescendsFrom(layer, a)
    ensures var q := Slot(layers, a); Slot(Inserted(layers, k, layer), a) == if q < k then q else k
  {
    var q := Slot(layers, a);
    SlotIsFirst(layers, a);
    SlotIs(Inserted(layers, k, layer), a, if q < k then q else k);
  }

  /** Opening the ancestor while the layer is open puts it where it would have gone, or lower. */
  lemma AncestorOpened(layers: seq<Layer>, k: nat, layer: Layer, a: Layer)
    requires k <= |layers| && DescendsFrom(layer, a)
    ensures var q := Slot(layers, a); var p := if q < k then q else k;
      Pushed(Inserted(layers, k, layer), a) == Inserted(Inserted(layers, p, a), k + 1, layer)
  {
    var q := Slot(layers, a);
    AncestorSlot(layers, k, layer, a);
    if q < k { InsertBelow(layers, k, q, layer, a); } else { InsertAt(layers, k, layer, a); }
  }

  lemma InsertAt(layers: seq<Layer>, k: nat, layer: Layer, a: Layer)
    requires k <= |layers|
    ensures Inserted(Inserted(layers, k, layer), k, a) == Inserted(Inserted(layers, k, a), k + 1, layer)
  {
  }

  lemma {:induction false} MovesThrough(s: seq<Layer>, a: Layer)
    ensures [a] + s == s + [a] <==> forall j :: 0 <= j < |s| ==> s[j] == a
  {
    if s != [] && [a] + s == s + [a] {
      assert ([a] + s)[0] == (s + [a])[0] == s[0];
      ConstantIffShifted(s, a);
      assert ([a] + s)[1..] == s && (s + [a])[1..] == s[1..] + [a];
    }
  }

  /** Two slots for one layer give the same stack exactly when all between them is that layer. */
  lemma SlotsAgreeIff(layers: seq<Layer>, p: nat, q: nat, a: Layer)
    requires p <= q <= |layers|
    ensures Inserted(layers, p, a) == Inserted(layers, q, a) <==> forall j :: p <= j < q ==> layers[j] == a
  {
    var below, between, above := layers[..p], layers[p..q], layers[q..];
    Parts(layers, p, q);
    assert Inserted(layers, p, a) == below + ([a] + between) + above;
    assert Inserted(layers, q, a) == below + (between + [a]) + above;
    MiddleDecides(below, [a] + between, between + [a], above);
    MovesThrough(between, a);
    assert forall j :: p <= j < q ==> layers[j] == between[j - p];
    assert forall j :: 0 <= j < |between| ==> between[j] == layers[p + j];
  }

  /** What is done leaves the stack beside the layer as it would be without it. */
  ghost predicate Harmless(layers: seq<Layer>, k: nat, layer: Layer, a: Action) {
    && a.layer != layer
    && (a.Open? && DescendsFrom(layer, a.layer) ==>
          Slot(layers, a.layer) <= k || forall j :: k <= j < Slot(layers, a.layer) ==> 0 <= j < |layers| && layers[j] == a.layer)
  }

  /**
   * Opening one of a layer's ancestors while it is open, and closing the layer then, leaves the stack as if the layer had
   * not been there exactly when nothing but that ancestor lies from the layer's place to where the ancestor goes by
   * itself.
   */
  lemma AncestorHarmlessIff(layers: seq<Layer>, k: nat, layer: Layer, a: Layer)
    requires k <= |layers| && layer !in layers && DescendsFrom(layer, a)
    ensures Removed(Pushed(Inserted(layers, k, layer), a), layer) == Pushed(layers, a) <==>
      Slot(layers, a) <= k || forall j :: k <= j < Slot(layers, a) ==> layers[j] == a
    ensures a != layer && (Harmless(layers, k, layer, Open(a)) <==>
      Removed(Pushed(Inserted(layers, k, layer), a), layer) == Pushed(layers, a))
  {
    var q := Slot(layers, a);
    var p := if q < k then q else k;
    DescendantsAreDeeper(layer, a);
    AncestorOpened(layers, k, layer, a);
    RemovedFrom(Inserted(layers, p, a), k + 1, layer);
    if q > k { SlotsAgreeIff(layers, k, q, a); }
  }

  /** Where the layer is after an action beside it. */
  ghost function PlaceBeside(layers: seq<Layer>, k: nat, layer: Layer, a: Action): (k': nat)
    requires k <= |layers| && Harmless(layers, k, layer, a)
    ensures k' <= |Step(layers, a)| && Step(Inserted(layers, k, layer), a) == Inserted(Step(layers, a), k', layer)
  {
    HarmlessStep(layers, k, layer, a);
    var k' :| 0 <= k' <= |Step(layers, a)| && Step(Inserted(layers, k, layer), a) == Inserted(Step(layers, a), k', layer);
    k'
  }

  lemma HarmlessStep(layers: seq<Layer>, k: nat, layer: Layer, a: Action)
    requires k <= |layers| && Harmless(layers, k, layer, a)
    ensures exists k' :: 0 <= k' <= |Step(layers, a)| && Step(Inserted(layers, k, layer), a) == Inserted(Step(layers, a), k', layer)
  {
    if a.Close? {
      var k' := CloseBeside(layers, k, layer, a.layer);
      assert Step(Inserted(layers, k, layer), a) == Inserted(Step(layers, a), k', layer);
    } else if !DescendsFrom(layer, a.layer) {
      var k' := OpenBeside(layers, k, layer, a.layer);
      assert Step(Inserted(layers, k, layer), a) == Inserted(Step(layers, a), k', layer);
    } else {
      var q := Slot(layers, a.layer);
      AncestorOpened(layers, k, layer, a.layer);
      if q > k { SlotsAgreeIff(layers, k, q, a.layer); }
      assert Step(Inserted(layers, k, layer), a) == Inserted(Step(layers, a), k + 1, layer);
    }
  }

  /** Everything done until the layer closes is harmless at its time. */
  ghost predicate AllHarmless(layers: seq<Layer>, k: nat, layer: Layer, actions: seq<Action>)
    requires k <= |layers|
    decreases |actions|
  {
    actions == [] ||
    (Harmless(layers, k, layer, actions[0])
     && AllHarmless(Step(layers, actions[0]), PlaceBeside(layers, k, layer, actions[0]), layer, actions[1..]))
  }

  /**
   * A layer closed late leaves the stack as if it had never been opened, whatever other layers came and went, as long as
   * every ancestor of it that was opened meanwhile went where it would have gone without it.
   */
  lemma {:induction false} LateUndo(layers: seq<Layer>, k: nat, layer: Layer, actions: seq<Action>)
    requires k <= |layers| && layer !in layers && AllHarmless(layers, k, layer, actions)
    ensures Removed(Run(Inserted(layers, k, layer), actions), layer) == Run(layers, actions)
    decreases |actions|
  {
    if actions == [] {
      RemovedFrom(layers, k, layer);
    } else {
      StepKeepsAbsent(layers, actions[0], layer);
      LateUndo(Step(layers, actions[0]), PlaceBeside(layers, k, layer, actions[0]), layer, actions[1..]);
    }
  }

  /** Without its ancestors, nothing that happens to other layers is harmful. */
  lemma {:induction false} OthersAreHarmless(layers: seq<Layer>, k: nat, layer: Layer, actions: seq<Action>)
    requires k <= |layers|
    requires forall i :: 0 <= i < |actions| ==>
      actions[i].layer != layer && !(actions[i].Open? && DescendsFrom(layer, actions[i].layer))
    ensures AllHarmless(layers, k, layer, actions)
    decreases |actions|
  {
    if actions != [] {
      OthersAreHarmless(Step(layers, actions[0]), PlaceBeside(layers, k, layer, actions[0]), layer, actions[1..]);
    }
  }

  // ── An ancestor that did not go where it would have ───────────────────────

  lemma AmongInserted(layers: seq<Layer>, k: nat, layer: Layer, watched: set<Layer>)
    requires k <= |layers| && layer in watched
    ensures Among(Inserted(layers, k, layer), watched) == Among(layers[..k], watched) + [layer] + Among(layers[k..], watched)
  {
    AmongSplits(layers[..k] + [layer], layers[k..], watched);
    AmongSplits(layers[..k], [layer], watched);
    assert [layer][1..] == [] && Among([layer], watched) == [layer] + Among([], watched);
  }

  lemma {:induction false} AmongContains(layers: seq<Layer>, watched: set<Layer>, x: Layer)
    ensures x in Among(layers, watched) <==> x in layers && x in watched
  {
    if layers != [] {
      AmongContains(layers[1..], watched, x);
      assert layers == [layers[0]] + layers[1..];
    }
  }

  /** One layer put into a stack at two places, with another of the watched ones between them, is not in the same order. */
  lemma OrderDiffers(layers: seq<Layer>, p: nat, q: nat, a: Layer, j: nat)
    requires p <= j < q <= |layers| && a !in layers && layers[j] != a
    ensures Among(Inserted(layers, p, a), {a, layers[j]}) != Among(Inserted(layers, q, a), {a, layers[j]})
  {
    var watched := {a, layers[j]};
    AmongInserted(layers, p, a, watched);
    AmongInserted(layers, q, a, watched);
    AmongSplits(layers[..p], layers[p..q], watched);
    assert layers[..p] + layers[p..q] == layers[..q];
    AmongContains(layers[p..q], watched, layers[j]);
    assert layers[p..q][j - p] == layers[j];
    AmongContains(layers[..q], watched, a);
    var low, high := Among(layers[..p], watched), Among(layers[..q], watched);
    assert |low| < |high|;
    assert (low + [a] + Among(layers[p..], watched))[|low|] == a;
    assert (high + [a] + Among(layers[q..], watched))[|low|] == high[|low|] && high[|low|] in high;
  }

  /**
   * An ancestor opened while the layer was open that went lower than it would have stays too low for good: whatever else
   * comes and goes, the stack is not what it would be without the layer, as long as that ancestor and one of the layers it
   * went under are left alone.
   */
  lemma {:induction false} HarmStays(layers: seq<Layer>, k: nat, layer: Layer, a: Layer, j: nat, actions: seq<Action>)
    requires layer !in layers && DescendsFrom(layer, a) && a !in layers
    requires k <= j < Slot(layers, a) && (forall i :: 0 <= i < |actions| ==> actions[i].layer !in {a, layers[j]})
    ensures Removed(Run(Pushed(Inserted(layers, k, layer), a), actions), layer) != Run(Pushed(layers, a), actions)
  {
    var with := Removed(Run(Pushed(Inserted(layers, k, layer), a), actions), layer);
    var without := Run(Pushed(layers, a), actions);
    KeptOrders(layers, k, layer, a, j, actions, with, without);
    OrderDiffers(layers, k, Slot(layers, a), a, j);
  }

  /** With the layer and without it, the two watched layers keep the order the ancestor's opening left them in. */
  lemma KeptOrders(layers: seq<Layer>, k: nat, layer: Layer, a: Layer, j: nat, actions: seq<Action>,
                   with: seq<Layer>, without: seq<Layer>)
    requires layer !in layers && DescendsFrom(layer, a)
    requires k <= j < Slot(layers, a) && (forall i :: 0 <= i < |actions| ==> actions[i].layer !in {a, layers[j]})
    requires with == Removed(Run(Pushed(Inserted(layers, k, layer), a), actions), layer)
    requires without == Run(Pushed(layers, a), actions)
    ensures Among(with, {a, layers[j]}) == Among(Inserted(layers, k, a), {a, layers[j]})
    ensures Among(without, {a, layers[j]}) == Among(Inserted(layers, Slot(layers, a), a), {a, layers[j]})
  {
    var watched := {a, layers[j]};
    DescendantsAreDeeper(layer, a);
    AncestorOpened(layers, k, layer, a);
    var under := Pushed(Inserted(layers, k, layer), a);
    RemovedFrom(Inserted(layers, k, a), k + 1, layer);
    OthersKeepTheirOrder(under, actions, watched);
    OthersKeepTheirOrder(Pushed(layers, a), actions, watched);
    ClosedLeaves(under, layer, watched);
    ClosedLeaves(Run(under, actions), layer, watched);
  }

  lemma ClosedLeaves(layers: seq<Layer>, layer: Layer, watched: set<Layer>)
    requires layer !in watched
    ensures Among(Removed(layers, layer), watched) == Among(layers, watched)
  {
    PlaceIsFirst(layers, layer);
    if Place(layers, layer) < |layers| { AmongWithout(layers, Place(layers, layer), watched); }
  }

  lemma RemovedFrom(layers: seq<Layer>, k: nat, layer: Layer)
    requires k <= |layers| && layer !in layers
    ensures Removed(Inserted(layers, k, layer), layer) == layers
  {
    var s := Inserted(layers, k, layer);
    assert s[..k] == layers[..k];
    PlaceIs(s, layer, k);
  }

  /** The least such stack: an ancestor opened meanwhile goes under its child, and stays there when the child has closed. */
  lemma AncestorStaysLow()
    ensures var other, parent := Layer(0, true, None), Layer(1, true, None); var child := Layer(2, false, Some(parent));
      && Removed(Run([child, other], [Open(parent)]), child) == [parent, other]
      && Run([other], [Open(parent)]) == [other, parent]
  {
    var other, parent := Layer(0, true, None), Layer(1, true, None);
    var child := Layer(2, false, Some(parent));
    assert Pushed([child, other], parent) == [parent, child, other];
    assert Pushed([other], parent) == [other, parent];
    assert Run([parent, child, other], []) == [parent, child, other] && Run([other, parent], []) == [other, parent];
    assert [Open(parent)][1..] == [];
    PlaceIs([parent, child, other], child, 1);
  }
}
