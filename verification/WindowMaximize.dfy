/**
 Whether a rebuilt window takes up the maximised state of the one that crashed (`src-tauri/src/webview_recovery.rs`):
 exactly when, over every run.
 */
module WindowMaximize {
  import opened Common
  import opened WindowLife
  import opened WindowRuns

  /** The close button asks through the page. */
  predicate AsksInPage(s: Life, step: Step) {
    && step.CloseRequested? && Happens(s, step) && Decide(step.inGame, step.keepRunning, s.waiting) == Ask
    && PromptFor(step.origin, s.pageReady) == Page
  }

  /** The step starts building a window: an Open with none standing or on its way, or a broken window gone. */
  predicate StartsBuild(s: Life, step: Step) {
    || (step.TrayOpen? && StateAt(s, step.now) == Missing)
    || (AsksInPage(s, step) && StateAt(s, step.now) == Missing)
    || (step.Destroyed? && s.window.Some? && s.rebuildOnDestroy && !OnItsWay(s, step.now))
  }

  /** The step brings the window forward for the player. */
  predicate Activates(s: Life, step: Step) {
    || (step.TrayOpen? && StateAt(s, step.now) == Standing)
    || (AsksInPage(s, step) && StateAt(s, step.now) == Standing)
    || (step.PageLoad? && s.window.Some? && s.openRequested)
    || (step.Focused? && s.window.Some?)
  }

  predicate IsMaximized(s: Life) { s.window.Some? && s.window.value.maximized }

  // ── What one step does to it ──────────────────────────────────────────────

  /** `r` follows from `s` by a step that starts a build, or activates, or crashes the window, or does none of these. */
  ghost predicate Carries(s: Life, r: Life, starts: bool, activates: bool, crashes: bool) {
    && r.maximizeWhenShown == (if starts then s.geometry == Some(true) else s.maximizeWhenShown && !activates)
    && r.geometry == (if starts then None else if crashes then Some(IsMaximized(s)) else s.geometry)
    && (IsMaximized(r) ==> IsMaximized(s) || (activates && s.maximizeWhenShown))
    && (activates ==> r.window.Some? && (IsMaximized(r) <==> IsMaximized(s) || s.maximizeWhenShown))
    && (starts ==> r.building == s.building + 1) && (r.building > s.building ==> starts)
  }

  lemma RebuiltCarries(s: Life, now: int)
    ensures Carries(s, Rebuilt(s, now), !OnItsWay(s, now), false, false)
  {
  }

  lemma RestoredCarries(s: Life, now: int)
    ensures Carries(s, Restored(s, now), StateAt(s, now) == Missing, StateAt(s, now) == Standing, false)
  {
    RebuiltCarries(s.(waiting := false, openRequested := true), now);
  }

  lemma CloseIs(s: Life, step: Step)
    requires step.CloseRequested?
    ensures Next(s, step) ==
      if AsksInPage(s, step) then Restored(s, step.now)
      else if Happens(s, step) && Decide(step.inGame, step.keepRunning, s.waiting) == Hide then Hidden(s) else s
  {
  }

  lemma HiddenCarries(s: Life)
    ensures Carries(s, Hidden(s), false, false, false)
  {
  }

  lemma CloseCarries(s: Life, step: Step, next: Life)
    requires step.CloseRequested? && next == Next(s, step)
    ensures Carries(s, next, StartsBuild(s, step), Activates(s, step), false)
  {
    CloseIs(s, step);
    RestoredCarries(s, step.now);
    HiddenCarries(s);
  }

  lemma GoneCarries(s: Life, step: Step)
    requires step.Destroyed?
    ensures Carries(s, Next(s, step), StartsBuild(s, step), Activates(s, step), false)
  {
    RebuiltCarries(s.(window := None, rebuildOnDestroy := false), step.now);
  }

  lemma LoadCarries(s: Life)
    ensures Carries(s, Next(s, PageLoad), false, Activates(s, PageLoad), false)
  {
  }

  lemma CrashCarries(s: Life, step: Step)
    requires step.BrowserCrash?
    ensures Carries(s, Next(s, step), false, false, CrashesWindow(s, step))
  {
  }

  lemma BuildCarries(s: Life, built: bool)
    ensures Carries(s, BuildEnded(s, built), false, false, false)
  {
  }

  lemma FocusCarries(s: Life)
    ensures Carries(s, Next(s, Focused), false, Activates(s, Focused), false)
  {
  }

  /** What the player does to the window's size changes nothing that is remembered or owed. */
  lemma SizedKeeps(s: Life, maximized: bool)
    ensures var r := Next(s, Sized(maximized));
      r.maximizeWhenShown == s.maximizeWhenShown && r.geometry == s.geometry && r.building == s.building
      && (Visible(s) ==> (IsMaximized(r) <==> maximized))
  {
  }

  /** The part of a step that the flags see: the same for every step, the player's own sizing included. */
  ghost predicate CarriesFlags(s: Life, r: Life, starts: bool, activates: bool, crashes: bool) {
    && r.maximizeWhenShown == (if starts then s.geometry == Some(true) else s.maximizeWhenShown && !activates)
    && r.geometry == (if starts then None else if crashes then Some(IsMaximized(s)) else s.geometry)
  }

  lemma OtherCarries(s: Life, step: Step)
    requires step.PageReady? || step.PageGone? || step.RendererCrash? || step.LastWindowClosed? || step.NativeAnswer?
    ensures Carries(s, Next(s, step), false, false, false)
  {
  }

  lemma NextCarries(s: Life, step: Step)
    ensures CarriesFlags(s, Next(s, step), StartsBuild(s, step), Activates(s, step), CrashesWindow(s, step))
    ensures !step.Sized? ==>
      Carries(s, Next(s, step), StartsBuild(s, step), Activates(s, step), CrashesWindow(s, step))
  {
    match step
    case Sized(maximized) => SizedKeeps(s, maximized);
    case TrayOpen(now) => RestoredCarries(s, now);
    case CloseRequested(_, _, _, _) => CloseCarries(s, step, Next(s, step));
    case Destroyed(_) => GoneCarries(s, step);
    case PageLoad => LoadCarries(s);
    case BrowserCrash(_, _, _) => CrashCarries(s, step);
    case BuildDone(built) => BuildCarries(s, built);
    case Focused => FocusCarries(s);
    case _ => OtherCarries(s, step);
  }

  // ── Over every run ────────────────────────────────────────────────────────

  ghost predicate BuildAt(s: Life, steps: seq<Step>, k: nat) {
    k < |steps| && StartsBuild(Before(s, steps, k), steps[k])
  }

  ghost predicate ActivateAt(s: Life, steps: seq<Step>, k: nat) {
    k < |steps| && Activates(Before(s, steps, k), steps[k])
  }

  ghost predicate CrashAt(s: Life, steps: seq<Step>, k: nat) {
    k < |steps| && CrashesWindow(Before(s, steps, k), steps[k])
  }

  /** The latest crash was of a maximised window, and no build has started since. */
  ghost predicate Remembered(s: Life, steps: seq<Step>, i: nat) {
    && CrashAt(s, steps, i) && IsMaximized(Before(s, steps, i))
    && forall k :: i < k < |steps| ==> !CrashAt(s, steps, k) && !BuildAt(s, steps, k)
  }

  /** The latest build started with a maximised window remembered, and nobody has brought the window forward since. */
  ghost predicate Owed(s: Life, steps: seq<Step>, j: nat) {
    && BuildAt(s, steps, j) && (exists i: nat :: Remembered(s, steps[..j], i))
    && forall k :: j < k < |steps| ==> !BuildAt(s, steps, k) && !ActivateAt(s, steps, k)
  }

  lemma SamePrefix(s: Life, steps: seq<Step>, n: nat, k: nat)
    requires n <= |steps| && k < n
    ensures Before(s, steps[..n], k) == Before(s, steps, k)
    ensures BuildAt(s, steps[..n], k) == BuildAt(s, steps, k)
    ensures ActivateAt(s, steps[..n], k) == ActivateAt(s, steps, k)
    ensures CrashAt(s, steps[..n], k) == CrashAt(s, steps, k)
  {
    assert steps[..n][..k] == steps[..k];
  }

  lemma RememberedStep(s: Life, steps: seq<Step>, i: nat)
    requires steps != []
    ensures var n := |steps| - 1;
      Remembered(s, steps, i) <==>
        if i < n then Remembered(s, steps[..n], i) && !CrashAt(s, steps, n) && !BuildAt(s, steps, n)
        else i == n && CrashAt(s, steps, n) && IsMaximized(Before(s, steps, n))
  {
    var n := |steps| - 1;
    forall k | 0 <= k < n
      ensures CrashAt(s, steps[..n], k) == CrashAt(s, steps, k) && BuildAt(s, steps[..n], k) == BuildAt(s, steps, k)
      ensures Before(s, steps[..n], k) == Before(s, steps, k)
    {
      SamePrefix(s, steps, n, k);
    }
  }

  lemma OwedStep(s: Life, steps: seq<Step>, j: nat)
    requires steps != []
    ensures var n := |steps| - 1;
      Owed(s, steps, j) <==>
        if j < n then Owed(s, steps[..n], j) && !BuildAt(s, steps, n) && !ActivateAt(s, steps, n)
        else j == n && BuildAt(s, steps, n) && exists i: nat :: Remembered(s, steps[..n], i)
  {
    var n := |steps| - 1;
    forall k | 0 <= k < n
      ensures BuildAt(s, steps[..n], k) == BuildAt(s, steps, k) && ActivateAt(s, steps[..n], k) == ActivateAt(s, steps, k)
    {
      SamePrefix(s, steps, n, k);
    }
    if j < n { assert steps[..n][..j] == steps[..j]; }
  }

  /**
   In every run: the geometry of a maximised window is remembered exactly from its crash to the next build, and the
   maximised state is owed to the window exactly when the latest build was the first since such a crash and nobody has
   brought the window forward since.
   */
  lemma {:induction false} MaximizedIsOwedIff(s: Life, steps: seq<Step>)
    requires s.geometry != Some(true) && !s.maximizeWhenShown
    ensures Run(s, steps).geometry == Some(true) <==> exists i: nat :: Remembered(s, steps, i)
    ensures Run(s, steps).maximizeWhenShown <==> exists j: nat :: Owed(s, steps, j)
  {
    if steps != [] {
      var n := |steps| - 1;
      var before := Run(s, steps[..n]);
      MaximizedIsOwedIff(s, steps[..n]);
      NextCarries(before, steps[n]);
      RememberedNow(s, steps);
      OwedNow(s, steps);
    }
  }

  lemma RememberedNow(s: Life, steps: seq<Step>)
    requires steps != []
    ensures var n := |steps| - 1;
      (exists i: nat :: Remembered(s, steps, i)) <==>
        || ((exists i: nat :: Remembered(s, steps[..n], i)) && !CrashAt(s, steps, n) && !BuildAt(s, steps, n))
        || (CrashAt(s, steps, n) && IsMaximized(Before(s, steps, n)))
  {
    var n := |steps| - 1;
    forall i: nat
      ensures Remembered(s, steps, i) <==>
        if i < n then Remembered(s, steps[..n], i) && !CrashAt(s, steps, n) && !BuildAt(s, steps, n)
        else i == n && CrashAt(s, steps, n) && IsMaximized(Before(s, steps, n))
    {
      RememberedStep(s, steps, i);
    }
    if i: nat :| Remembered(s, steps[..n], i) { assert i < n; }
    assert Remembered(s, steps, n) <==> CrashAt(s, steps, n) && IsMaximized(Before(s, steps, n));
  }

  lemma OwedNow(s: Life, steps: seq<Step>)
    requires steps != []
    ensures var n := |steps| - 1;
      (exists j: nat :: Owed(s, steps, j)) <==>
        || ((exists j: nat :: Owed(s, steps[..n], j)) && !BuildAt(s, steps, n) && !ActivateAt(s, steps, n))
        || (BuildAt(s, steps, n) && exists i: nat :: Remembered(s, steps[..n], i))
  {
    var n := |steps| - 1;
    forall j: nat
      ensures Owed(s, steps, j) <==>
        if j < n then Owed(s, steps[..n], j) && !BuildAt(s, steps, n) && !ActivateAt(s, steps, n)
        else j == n && BuildAt(s, steps, n) && exists i: nat :: Remembered(s, steps[..n], i)
    {
      OwedStep(s, steps, j);
    }
    if j: nat :| Owed(s, steps[..n], j) { assert j < n; }
    assert Owed(s, steps, n) <==> BuildAt(s, steps, n) && exists i: nat :: Remembered(s, steps[..n], i);
  }

  // ── After one crash ───────────────────────────────────────────────────────

  /** A crash within the cap of a maximised window, which has closed. */
  ghost function Closed(s: Life, gone: int): Life {
    WindowGone(BrowserExited(s, true, true), gone)
  }

  /** The player has not touched the window: neither brought it forward nor maximised or restored it. */
  ghost predicate Untouched(s: Life, steps: seq<Step>) {
    forall k :: 0 <= k < |steps| ==> !ActivateAt(s, steps, k) && !steps[k].Sized?
  }

  lemma {:induction false} OwedUntilBuilt(s: Life, gone: int, steps: seq<Step>)
    requires IsMaximized(s) && Untouched(Closed(s, gone), steps)
    ensures var r := Run(Closed(s, gone), steps);
      && !IsMaximized(r) && r.geometry != Some(true)
      && (r.maximizeWhenShown <==> forall k :: 0 <= k < |steps| ==> !BuildAt(Closed(s, gone), steps, k))
  {
    var c := Closed(s, gone);
    if steps == [] {
      CrashComesBack(s, gone, gone);
    } else {
      var n := |steps| - 1;
      forall k | 0 <= k < n
        ensures ActivateAt(c, steps[..n], k) == ActivateAt(c, steps, k) && BuildAt(c, steps[..n], k) == BuildAt(c, steps, k)
      {
        SamePrefix(c, steps, n, k);
      }
      OwedUntilBuilt(s, gone, steps[..n]);
      NextCarries(Run(c, steps[..n]), steps[n]);
      assert !ActivateAt(c, steps, n) && !steps[n].Sized?;
      assert (forall k :: 0 <= k < |steps| ==> !BuildAt(c, steps, k)) <==>
        (forall k :: 0 <= k < n ==> !BuildAt(c, steps[..n], k)) && !BuildAt(c, steps, n);
    }
  }

  /**
   The first time the player touches a window after a maximised one has crashed and closed, by bringing it forward, it is
   maximised if and only if no further build was started in between: not after a build that failed, or timed out, or whose window crashed
   and closed in its turn.
   */
  lemma FirstActivationMaximizesIff(s: Life, gone: int, steps: seq<Step>, activation: Step)
    requires IsMaximized(s) && Untouched(Closed(s, gone), steps)
    requires Activates(Run(Closed(s, gone), steps), activation)
    ensures IsMaximized(Next(Run(Closed(s, gone), steps), activation)) <==>
      forall k :: 0 <= k < |steps| ==> !BuildAt(Closed(s, gone), steps, k)
  {
    OwedUntilBuilt(s, gone, steps);
    NextCarries(Run(Closed(s, gone), steps), activation);
  }

  /** The ways to a further build: an Open after a failed or a timed-out one, or another crash that closes the window. */
  lemma WaysToBuildAgain(s: Life, gone: int, now: int)
    requires s.window.Some? && gone <= now
    ensures StartsBuild(BuildEnded(Closed(s, gone), false), TrayOpen(now))
    ensures StartsBuild(Closed(s, gone), TrayOpen(now)) <==> now - gone >= BUILD_TIMEOUT
    ensures var back := BuildEnded(Closed(s, gone), true);
      StartsBuild(Next(back, BrowserCrash(now, true, true)), Destroyed(now))
  {
    CrashComesBack(s, gone, gone);
  }

  /** A second crash alone does not forget it: without a further build the window is still maximised. */
  lemma CrashAloneKeepsMaximized(s: Life, gone: int, now: int)
    requires IsMaximized(s)
    ensures var crashed := Next(BuildEnded(Closed(s, gone), true), BrowserCrash(now, true, false));
      CrashesWindow(BuildEnded(Closed(s, gone), true), BrowserCrash(now, true, false)) && IsMaximized(Next(crashed, Focused))
  {
    CrashComesBack(s, gone, gone);
  }

  /** A run from a start that owes the new window the maximised state, whether the player maximised it or it began so. */
  lemma OwedIsReached(start: int, maximized: bool)
    ensures var steps := [PageLoad, Sized(true), BrowserCrash(start, true, true), Destroyed(start)];
      Run(Started(start, maximized), steps).maximizeWhenShown && (exists j: nat :: Owed(Started(start, maximized), steps, j))
  {
    var s := Started(start, maximized);
    var steps := [PageLoad, Sized(true), BrowserCrash(start, true, true), Destroyed(start)];
    var shown := Next(Next(s, PageLoad), Sized(true));
    CrashComesBack(shown, start, start);
    assert steps[..3][..2][..1][..0] == [] && steps[..3][..2][..1] == steps[..1] && steps[..3][..2] == steps[..2];
    assert Run(s, steps[..1]) == Next(s, PageLoad);
    assert Run(s, steps[..2]) == shown;
    assert Run(s, steps[..3]) == Next(shown, BrowserCrash(start, true, true));
    MaximizedIsOwedIff(s, steps);
  }
}
