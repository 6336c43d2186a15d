/**
 * What each step of a run does to the window's flags, said without the handlers: when a build begins and ends, when the
 * page can ask, when the client is kept up, and when a window stands.
 */
module WindowFlags {
  import opened Common
  import opened WindowLife
  import opened WindowRuns

  /** The step is an Open that finds no window standing and none on its way, or closes a window that is to be rebuilt. */
  predicate BuildBegins(s: Life, step: Step) {
    match step
    case TrayOpen(now) => StateAt(s, now) == Missing
    case CloseRequested(origin, inGame, keepRunning, now) =>
      && s.window.Some? && origin == FromWindow && s.pageReady && inGame && (s.waiting || !keepRunning)
      && StateAt(s, now) == Missing
    case Destroyed(now) => s.window.Some? && s.rebuildOnDestroy && !OnItsWay(s, now)
    case _ => false
  }

  predicate BuildEnds(s: Life, step: Step) { step.BuildDone? && s.building > 0 }

  predicate ClosesBroken(s: Life, step: Step) { CrashesWindow(s, step) && step.destroyed }

  predicate KeepsBroken(s: Life, step: Step) { CrashesWindow(s, step) && !step.destroyed }

  /** The page is gone, its process has ended, or another window is being built. */
  predicate LosesPage(s: Life, step: Step) { step.PageGone? || IsCrash(step) || BuildBegins(s, step) }

  /**
   * What a step does to the flags. Every build is begun and ended once. The page is ready from its own word until it is
   * lost. The client is kept up from a build or the closing of a broken window until a page is ready or the closing
   * fails. A rebuild is due from that closing until the window is gone, and once only. A window stands from the load of
   * its page until it breaks or another is built in its place. There is one from a build that
   * succeeds until it is gone or a further build fails.
   */
  ghost predicate FlagsFollow(s: Life, step: Step, after: Life) {
    && after.building == s.building + (if BuildBegins(s, step) then 1 else 0) - (if BuildEnds(s, step) then 1 else 0)
    && (after.pageReady <==> step.PageReady? || (s.pageReady && !LosesPage(s, step)))
    && (after.keepAlive <==> BuildBegins(s, step) || ClosesBroken(s, step) || (s.keepAlive && !LetsGo(s, step)))
    && (after.rebuildOnDestroy <==>
          ClosesBroken(s, step) || (s.rebuildOnDestroy && !KeepsBroken(s, step) && !(step.Destroyed? && s.window.Some?)))
    && (after.standing <==>
          (step.PageLoad? && s.window.Some?) || (s.standing && !CrashesWindow(s, step) && !BuildBegins(s, step)))
    && (after.window.Some? <==> if BuildEnds(s, step) then step.built else s.window.Some? && !step.Destroyed?)
  }

  /** What an Open does to the flags, where it begins a build and where it does not. */
  lemma OpenFlags(s: Life, now: int)
    ensures OpenedFlags(s, StateAt(s, now) == Missing, Restored(s, now))
  {
  }

  ghost predicate OpenedFlags(s: Life, missing: bool, after: Life) {
    && after.building == s.building + (if missing then 1 else 0)
    && (after.pageReady <==> s.pageReady && !missing) && (after.keepAlive <==> s.keepAlive || missing)
    && after.rebuildOnDestroy == s.rebuildOnDestroy && (after.standing <==> s.standing && !missing)
    && after.window.Some? == s.window.Some?
  }

  /** What a close request leaves: the client as it was, hidden, or opened for its page to ask. */
  lemma CloseLeaves(s: Life, origin: Origin, inGame: bool, keepRunning: bool, now: int)
    ensures CloseAsked(s, origin, inGame, keepRunning, now) ==
      if !inGame then s
      else if keepRunning && !s.waiting then Hidden(s)
      else if origin == FromWindow && s.pageReady then Restored(s, now)
      else s
  {
  }

  lemma CloseFlags(s: Life, origin: Origin, inGame: bool, keepRunning: bool, now: int)
    requires origin == FromTray || s.window.Some?
    ensures FlagsFollow(s, CloseRequested(origin, inGame, keepRunning, now), CloseAsked(s, origin, inGame, keepRunning, now))
  {
    CloseLeaves(s, origin, inGame, keepRunning, now);
    OpenFlags(s, now);
    HiddenFlags(s);
    AnsweredFlags(s, CloseRequested(origin, inGame, keepRunning, now), CloseAsked(s, origin, inGame, keepRunning, now));
  }

  lemma HiddenFlags(s: Life)
    ensures SameFlags(s, Hidden(s))
  {
  }

  ghost predicate SameFlags(s: Life, after: Life) {
    && after.building == s.building && after.pageReady == s.pageReady && after.keepAlive == s.keepAlive
    && after.rebuildOnDestroy == s.rebuildOnDestroy && after.standing == s.standing && after.window.Some? == s.window.Some?
  }

  lemma AnsweredFlags(s: Life, step: Step, after: Life)
    requires step.CloseRequested? && (step.origin == FromTray || s.window.Some?)
    requires SameFlags(s, after) ||
      (&& step.inGame && (s.waiting || !step.keepRunning) && step.origin == FromWindow && s.pageReady
       && OpenedFlags(s, StateAt(s, step.now) == Missing, after))
    requires BuildBegins(s, step) ==> !SameFlags(s, after)
    ensures FlagsFollow(s, step, after)
  {
  }

  lemma GoneFlags(s: Life, now: int)
    requires s.window.Some?
    ensures FlagsFollow(s, Destroyed(now), WindowGone(s, now))
  {
  }

  lemma LoadFlags(s: Life)
    requires s.window.Some?
    ensures FlagsFollow(s, PageLoad, PageLoaded(s))
  {
  }

  lemma CrashFlags(s: Life, now: int, allowed: bool, destroyed: bool)
    ensures FlagsFollow(s, BrowserCrash(now, allowed, destroyed), BrowserExited(s, allowed, destroyed))
  {
  }

  lemma BuiltFlags(s: Life, built: bool)
    ensures FlagsFollow(s, BuildDone(built), BuildEnded(s, built))
  {
  }

  /** A step that changes no more than the page's readiness and the window itself. */
  predicate Plain(step: Step) {
    step.PageReady? || step.PageGone? || step.RendererCrash? || step.Focused? || step.Sized? || step.LastWindowClosed? || step.NativeAnswer?
  }

  lemma PlainFlags(s: Life, step: Step)
    requires Plain(step)
    ensures FlagsFollow(s, step, Next(s, step))
  {
  }

  lemma NextFlags(s: Life, step: Step)
    ensures FlagsFollow(s, step, Next(s, step))
  {
    match step
    case TrayOpen(now) => OpenFlags(s, now);
    case CloseRequested(origin, inGame, keepRunning, now) =>
      if Happens(s, step) { CloseFlags(s, origin, inGame, keepRunning, now); }
    case Destroyed(now) => if s.window.Some? { GoneFlags(s, now); }
    case PageLoad => if s.window.Some? { LoadFlags(s); }
    case BrowserCrash(now, allowed, destroyed) => CrashFlags(s, now, allowed, destroyed);
    case BuildDone(built) => BuiltFlags(s, built);
    case _ => PlainFlags(s, step);
  }

  /** Where a window was broken or a build begun, none counts as standing before a page has loaded since. */
  lemma {:induction false} StandsOnlyLoaded(s: Life, step: Step, steps: seq<Step>)
    requires CrashesWindow(s, step) || BuildBegins(s, step)
    requires forall i :: 0 <= i < |steps| ==> !steps[i].PageLoad?
    ensures !Run(Next(s, step), steps).standing
  {
    NextFlags(s, step);
    if steps != [] {
      StandsOnlyLoaded(s, step, steps[..|steps| - 1]);
      NextFlags(Run(Next(s, step), steps[..|steps| - 1]), steps[|steps| - 1]);
    }
  }

  /** Neither opens the client nor begins a build. */
  predicate AsksNothing(s: Life, step: Step) { !IsOpen(step) && !BuildBegins(s, step) }

  lemma CloseOwesNothing(s: Life, origin: Origin, inGame: bool, keepRunning: bool, now: int)
    requires !s.openRequested && !s.showWhenStanding && origin == FromTray
    ensures var after := CloseAsked(s, origin, inGame, keepRunning, now); !after.openRequested && !after.showWhenStanding
  {
  }

  lemma GoneOwesNothing(s: Life, now: int)
    requires !s.openRequested && !s.showWhenStanding && (!s.rebuildOnDestroy || OnItsWay(s, now))
    ensures var after := WindowGone(s, now); !after.openRequested && !after.showWhenStanding
  {
  }

  lemma LoadOwesNothing(s: Life)
    ensures !PageLoaded(s).openRequested && !PageLoaded(s).showWhenStanding
  {
  }

  lemma OthersOweNothing(s: Life, step: Step)
    requires !s.openRequested && !s.showWhenStanding
    requires Plain(step) || step.BuildDone? || step.BrowserCrash?
    ensures !Next(s, step).openRequested && !Next(s, step).showWhenStanding
  {
    match step
    case BuildDone(built) => BuiltOwesNothing(s, built);
    case BrowserCrash(_, allowed, destroyed) => CrashOwesNothing(s, allowed, destroyed);
    case _ =>
  }

  lemma BuiltOwesNothing(s: Life, built: bool)
    ensures var after := BuildEnded(s, built); after.openRequested == s.openRequested && after.showWhenStanding == s.showWhenStanding
  {
  }

  lemma CrashOwesNothing(s: Life, allowed: bool, destroyed: bool)
    ensures var after := BrowserExited(s, allowed, destroyed);
      after.openRequested == s.openRequested && after.showWhenStanding == s.showWhenStanding
  {
  }

  lemma NextOwesNothing(s: Life, step: Step)
    requires !s.openRequested && !s.showWhenStanding && AsksNothing(s, step)
    ensures !Next(s, step).openRequested && !Next(s, step).showWhenStanding
  {
    match step
    case CloseRequested(origin, inGame, keepRunning, now) => CloseOwesNothing(s, origin, inGame, keepRunning, now);
    case Destroyed(now) => if s.window.Some? { GoneOwesNothing(s, now); }
    case PageLoad => LoadOwesNothing(s);
    case _ => OthersOweNothing(s, step);
  }

  lemma {:induction false} StillOwesNothing(s: Life, steps: seq<Step>)
    requires !s.openRequested && !s.showWhenStanding
    requires forall i :: 0 <= i < |steps| ==> AsksNothing(Before(s, steps, i), steps[i])
    ensures !Run(s, steps).openRequested && !Run(s, steps).showWhenStanding
  {
    if steps != [] {
      var before := steps[..|steps| - 1];
      forall i | 0 <= i < |before| ensures AsksNothing(Before(s, before, i), before[i]) {
        assert before[..i] == steps[..i];
      }
      StillOwesNothing(s, before);
      NextOwesNothing(Run(s, before), steps[|steps| - 1]);
    }
  }

  /**
   * A page load carries out what was owed once: until the client is opened or built again, a further load, as after a
   * renderer that was reloaded, leaves the window as it is.
   */
  lemma ReloadShowsNothing(s: Life, steps: seq<Step>)
    requires s.window.Some?
    requires var loaded := Next(s, PageLoad); forall i :: 0 <= i < |steps| ==> AsksNothing(Before(loaded, steps, i), steps[i])
    ensures var before := Run(Next(s, PageLoad), steps); Next(before, PageLoad).window == before.window
  {
    StillOwesNothing(Next(s, PageLoad), steps);
  }
}
