/** What holds in every run of closing, crashing, rebuilding, loading, opening and quitting. */
module WindowRuns {
  import opened Common
  import opened WindowLife

  // ── Runs ──────────────────────────────────────────────────────────────────

  datatype Step =
    | TrayOpen(now: int)
    | CloseRequested(origin: Origin, inGame: bool, keepRunning: bool, now: int)
    | PageLoad
    | PageReady
    | PageGone
    | RendererCrash(now: int, allowed: bool)
    | BrowserCrash(now: int, allowed: bool, destroyed: bool)
    | Destroyed(now: int)
    | BuildDone(built: bool)
    | Focused
    | Sized(maximized: bool)
    | LastWindowClosed
    | NativeAnswer(close: bool)

  /** Events of the window need a window, and only one on the screen is maximised or restored by the player. */
  predicate Happens(s: Life, step: Step) {
    match step
    case CloseRequested(origin, _, _, _) => origin == FromTray || s.window.Some?
    case PageLoad => s.window.Some?
    case Destroyed(_) => s.window.Some?
    case Focused => s.window.Some?
    case Sized(_) => Visible(s)
    case _ => true
  }

  function Next(s: Life, step: Step): Life {
    if !Happens(s, step) then s
    else
      match step
      case TrayOpen(now) => Restored(s, now)
      case CloseRequested(origin, inGame, keepRunning, now) => CloseAsked(s, origin, inGame, keepRunning, now)
      case PageLoad => PageLoaded(s)
      case PageReady => PageReadied(s)
      case PageGone => PageLost(s)
      case RendererCrash(_, _) => PageLost(s)
      case BrowserCrash(_, allowed, destroyed) => BrowserExited(s, allowed, destroyed)
      case Destroyed(now) => WindowGone(s, now)
      case BuildDone(built) => BuildEnded(s, built)
      case Focused => Activated(s)
      case Sized(maximized) => s.(window := Some(Window(true, maximized)))
      case LastWindowClosed => s
      case NativeAnswer(_) => s
  }

  /**
   * Whether the step ends the client: a close outside a game, the last window closing with nothing to come, or the
   * native dialog confirmed. An exit the client asked for itself is not held back by the window being rebuilt.
   */
  predicate Exits(s: Life, step: Step) {
    match step
    case CloseRequested(_, inGame, keepRunning, _) => Happens(s, step) && Decide(inGame, keepRunning, s.waiting) == Exit
    case LastWindowClosed => !s.keepAlive
    case NativeAnswer(close) => close
    case _ => false
  }

  function Run(s: Life, steps: seq<Step>): Life {
    if steps == [] then s else Next(Run(s, steps[..|steps| - 1]), steps[|steps| - 1])
  }

  /** The client's state before the `i`-th step. */
  function Before(s: Life, steps: seq<Step>, i: nat): Life
    requires i <= |steps|
  {
    Run(s, steps[..i])
  }

  // ── Waiting in the tray ───────────────────────────────────────────────────

  /** A client waiting for its game has no Open to carry out and no window on the screen. */
  ghost predicate Discreet(s: Life) { s.waiting ==> !s.openRequested && !Visible(s) }

  /** What a build leaves alone. */
  lemma RebuiltKeeps(s: Life, now: int)
    ensures var r := Rebuilt(s, now);
      r.waiting == s.waiting && r.openRequested == s.openRequested && r.window == s.window
      && (s.keepAlive ==> r.keepAlive) && (!s.pageReady ==> !r.pageReady)
  {
  }

  lemma RestoredKeeps(s: Life, now: int)
    ensures var r := Restored(s, now);
      !r.waiting && (s.openRequested ==> r.openRequested) && (s.keepAlive ==> r.keepAlive)
      && (!s.pageReady ==> !r.pageReady)
  {
    RebuiltKeeps(s.(waiting := false, openRequested := true), now);
  }

  lemma CloseKeeps(s: Life, origin: Origin, inGame: bool, keepRunning: bool, now: int)
    ensures var r := CloseAsked(s, origin, inGame, keepRunning, now); var decision := Decide(inGame, keepRunning, s.waiting);
      && (Discreet(s) ==> Discreet(r))
      && (s.waiting && origin == FromTray ==> r.waiting)
      && (s.openRequested && decision != Hide ==> r.openRequested)
      && (s.keepAlive ==> r.keepAlive) && (!s.pageReady ==> !r.pageReady)
  {
    RestoredKeeps(s, now);
  }

  lemma WindowGoneKeeps(s: Life, now: int)
    ensures var r := WindowGone(s, now);
      r.waiting == s.waiting && r.openRequested == s.openRequested && !Visible(r) && (s.keepAlive ==> r.keepAlive)
      && (!s.pageReady ==> !r.pageReady)
  {
    RebuiltKeeps(s.(window := None, rebuildOnDestroy := false), now);
  }

  lemma LoadedDiscreet(s: Life)
    requires Discreet(s)
    ensures Discreet(PageLoaded(s))
  {
  }

  lemma BuiltDiscreet(s: Life, built: bool)
    requires Discreet(s)
    ensures Discreet(BuildEnded(s, built))
  {
  }

  lemma CrashedDiscreet(s: Life, allowed: bool, destroyed: bool)
    requires Discreet(s)
    ensures Discreet(BrowserExited(s, allowed, destroyed))
  {
  }

  lemma NextDiscreet(s: Life, step: Step)
    requires Discreet(s)
    ensures Discreet(Next(s, step))
  {
    match step
    case TrayOpen(now) => RestoredKeeps(s, now);
    case CloseRequested(origin, inGame, keepRunning, now) => CloseKeeps(s, origin, inGame, keepRunning, now);
    case Destroyed(now) => WindowGoneKeeps(s, now);
    case PageLoad => LoadedDiscreet(s);
    case BuildDone(built) => BuiltDiscreet(s, built);
    case BrowserCrash(_, allowed, destroyed) => CrashedDiscreet(s, allowed, destroyed);
    case _ =>
  }

  /** In every run of the client, whatever crashes and is rebuilt. */
  lemma {:induction false} RunsAreDiscreet(start: int, maximized: bool, steps: seq<Step>)
    ensures Discreet(Run(Started(start, maximized), steps))
  {
    if steps != [] {
      RunsAreDiscreet(start, maximized, steps[..|steps| - 1]);
      NextDiscreet(Run(Started(start, maximized), steps[..|steps| - 1]), steps[|steps| - 1]);
    }
  }

  /** The player opens the client: from the tray, by starting it again, or by its own close button on a page that asks. */
  predicate IsOpen(step: Step) {
    step.TrayOpen? || (step.CloseRequested? && step.origin == FromWindow)
  }

  lemma NextKeepsWaiting(s: Life, step: Step)
    requires s.waiting && !IsOpen(step)
    ensures Next(s, step).waiting
  {
    match step
    case TrayOpen(now) => RestoredKeeps(s, now);
    case CloseRequested(origin, inGame, keepRunning, now) => CloseKeeps(s, origin, inGame, keepRunning, now);
    case Destroyed(now) => WindowGoneKeeps(s, now);
    case _ =>
  }

  /** No crash, reload, rebuild or Quit brings a waiting client back: it stays hidden until it is opened. */
  lemma {:induction false} RecoveryNeverShows(s: Life, steps: seq<Step>)
    requires Discreet(s) && s.waiting && forall i :: 0 <= i < |steps| ==> !IsOpen(steps[i])
    ensures Run(s, steps).waiting && !Visible(Run(s, steps)) && Discreet(Run(s, steps))
  {
    if steps != [] {
      var before := steps[..|steps| - 1];
      RecoveryNeverShows(s, before);
      NextKeepsWaiting(Run(s, before), steps[|steps| - 1]);
      NextDiscreet(Run(s, before), steps[|steps| - 1]);
    }
  }

  // ── Closing during a game ─────────────────────────────────────────────────

  /** The three ways out: a close outside a game, the last window closing with nothing to come, the native dialog confirmed. */
  lemma ExitsIff(s: Life, step: Step)
    ensures Exits(s, step) <==>
      || (step.CloseRequested? && Happens(s, step) && !step.inGame)
      || (step.LastWindowClosed? && !s.keepAlive)
      || step == NativeAnswer(true)
  {
    if step.CloseRequested? { assert step == CloseRequested(step.origin, step.inGame, step.keepRunning, step.now); }
  }

  /** In every run a close request ends the client exactly outside a game. */
  lemma CloseExitsIff(start: int, maximized: bool, steps: seq<Step>, i: nat)
    requires i < |steps| && steps[i].CloseRequested?
    requires Happens(Before(Started(start, maximized), steps, i), steps[i])
    ensures Exits(Before(Started(start, maximized), steps, i), steps[i]) <==> !steps[i].inGame
  {
    assert steps[i] == CloseRequested(steps[i].origin, steps[i].inGame, steps[i].keepRunning, steps[i].now);
  }

  /** A close during a game by a player who lets the client run on. */
  predicate MayHide(step: Step) { step.CloseRequested? && step.inGame && step.keepRunning }

  lemma CloseWaitsOnlyHidden(s: Life, origin: Origin, inGame: bool, keepRunning: bool, now: int)
    requires CloseAsked(s, origin, inGame, keepRunning, now).waiting && !s.waiting
    ensures var r := CloseAsked(s, origin, inGame, keepRunning, now); inGame && keepRunning && !Visible(r) && !r.openRequested
  {
    RestoredKeeps(s, now);
  }

  lemma NextWaitsOnlyHidden(s: Life, step: Step)
    requires Next(s, step).waiting && !s.waiting
    ensures MayHide(step) && !Visible(Next(s, step)) && !Next(s, step).openRequested
  {
    match step
    case TrayOpen(now) => RestoredKeeps(s, now);
    case CloseRequested(origin, inGame, keepRunning, now) => CloseWaitsOnlyHidden(s, origin, inGame, keepRunning, now);
    case Destroyed(now) => WindowGoneKeeps(s, now);
    case _ => OthersKeepWaiting(s, step);
  }

  lemma LoadKeepsWaiting(s: Life)
    ensures PageLoaded(s).waiting == s.waiting
  {
  }

  lemma CrashKeepsWaiting(s: Life, allowed: bool, destroyed: bool)
    ensures BrowserExited(s, allowed, destroyed).waiting == s.waiting
  {
  }

  lemma BuiltKeepsWaiting(s: Life, built: bool)
    ensures BuildEnded(s, built).waiting == s.waiting
  {
  }

  lemma OthersKeepWaiting(s: Life, step: Step)
    requires !step.TrayOpen? && !step.CloseRequested? && !step.Destroyed?
    ensures Next(s, step).waiting == s.waiting
  {
    match step
    case PageLoad => LoadKeepsWaiting(s);
    case BrowserCrash(_, allowed, destroyed) => CrashKeepsWaiting(s, allowed, destroyed);
    case BuildDone(built) => BuiltKeepsWaiting(s, built);
    case _ =>
  }

  lemma {:induction false} NoCloseNoWait(s: Life, steps: seq<Step>)
    requires !s.waiting && forall i :: 0 <= i < |steps| ==> !MayHide(steps[i])
    ensures !Run(s, steps).waiting
  {
    if steps != [] {
      var before := steps[..|steps| - 1];
      NoCloseNoWait(s, before);
      if Run(s, steps).waiting { NextWaitsOnlyHidden(Run(s, before), steps[|steps| - 1]); }
    }
  }

  lemma {:induction false} RunSplits(s: Life, a: seq<Step>, b: seq<Step>)
    ensures Run(s, a + b) == Run(Run(s, a), b)
  {
    if b == [] {
      assert a + b == a;
    } else {
      RunSplits(s, a, b[..|b| - 1]);
      assert (a + b)[..|a + b| - 1] == a + b[..|b| - 1];
    }
  }

  /**
   * The first close during a game by a player who lets the client run on leaves it running, waiting and off the screen,
   * and there it stays until it is opened; what came before it had left the client not waiting.
   */
  lemma FirstCloseHides(start: int, maximized: bool, before: seq<Step>, close: Step, after: seq<Step>)
    requires MayHide(close) && Happens(Run(Started(start, maximized), before), close)
    requires forall i :: 0 <= i < |before| ==> !MayHide(before[i])
    requires forall i :: 0 <= i < |after| ==> !IsOpen(after[i])
    ensures !Run(Started(start, maximized), before).waiting && !Exits(Run(Started(start, maximized), before), close)
    ensures var s := Run(Started(start, maximized), before + [close] + after); s.waiting && !Visible(s) && !s.openRequested
  {
    var first := Run(Started(start, maximized), before);
    NoCloseNoWait(Started(start, maximized), before);
    RunsAreDiscreet(start, maximized, before);
    NextDiscreet(first, close);
    assert (before + [close])[..|before|] == before;
    assert Next(first, close).waiting;
    RecoveryNeverShows(Next(first, close), after);
    RunSplits(Started(start, maximized), before + [close], after);
  }

  /** A further close while the client waits asks, and never ends it or leaves it waiting with the window shown. */
  lemma LaterCloseAsks(s: Life, origin: Origin, keepRunning: bool, now: int)
    requires s.waiting && Discreet(s)
    ensures var close := CloseRequested(origin, true, keepRunning, now); var after := Next(s, close);
      && !Exits(s, close)
      && (after.waiting <==> !(Happens(s, close) && origin == FromWindow && s.pageReady))
      && (after.waiting ==> after == s)
  {
    RestoredKeeps(s, now);
  }

  // ── An Open is honoured ───────────────────────────────────────────────────

  /**
   * An Open always acts: the window is on the screen, or one is on its way and will be shown. It starts a build exactly
   * when none is on its way, and keeps the client up and asking natively until that window's page is ready.
   */
  lemma OpenActs(s: Life, now: int)
    ensures var r := Restored(s, now); var missing := StateAt(s, now) == Missing;
      && !r.waiting
      && ((StateAt(r, now) == Standing && Visible(r)) || (StateAt(r, now) == Coming && r.openRequested))
      && r.building == s.building + (if missing then 1 else 0)
      && (missing ==> r.keepAlive && !r.pageReady)
  {
  }

  /** Steps that neither hide the client nor stand its window. */
  predicate LeavesOpen(s: Life, step: Step) {
    !step.PageLoad? && !(step.CloseRequested? && Decide(step.inGame, step.keepRunning, s.waiting) == Hide)
  }

  lemma {:induction false} OpenIsKept(s: Life, steps: seq<Step>)
    requires s.openRequested && forall i :: 0 <= i < |steps| ==> LeavesOpen(Before(s, steps, i), steps[i])
    ensures Run(s, steps).openRequested
  {
    if steps != [] {
      var before := steps[..|steps| - 1];
      forall i | 0 <= i < |before| ensures LeavesOpen(Before(s, before, i), before[i]) {
        assert before[..i] == steps[..i];
      }
      OpenIsKept(s, before);
      NextKeepsOpen(Run(s, before), steps[|steps| - 1]);
    }
  }

  lemma NextKeepsOpen(s: Life, step: Step)
    requires s.openRequested && LeavesOpen(s, step)
    ensures Next(s, step).openRequested
  {
    match step
    case TrayOpen(now) => RestoredKeeps(s, now);
    case CloseRequested(origin, inGame, keepRunning, now) => CloseKeeps(s, origin, inGame, keepRunning, now);
    case Destroyed(now) => WindowGoneKeeps(s, now);
    case _ =>
  }

  /**
   * An Open that finds no standing window is carried out by the next page load, through any crashes and rebuilds before
   * it, unless the client is hidden to the tray first; and a rebuilt window's maximised state is taken up with it.
   */
  lemma OpenIsHonoured(s: Life, now: int, steps: seq<Step>)
    requires var r := Restored(s, now);
      r.openRequested && forall i :: 0 <= i < |steps| ==> LeavesOpen(Before(r, steps, i), steps[i])
    ensures var loaded := Next(Run(Restored(s, now), steps), PageLoad);
      loaded.window.Some? ==>
        && Visible(loaded) && loaded.standing && !loaded.openRequested
        && (Run(Restored(s, now), steps).maximizeWhenShown ==> loaded.window.value.maximized)
  {
    OpenIsKept(Restored(s, now), steps);
  }

  // ── The cap on recoveries ─────────────────────────────────────────────────

  predicate IsCrash(step: Step) { step.RendererCrash? || step.BrowserCrash? }

  /** The times at which recoveries were accepted. */
  function Accepted(steps: seq<Step>): seq<int> {
    if steps == [] then []
    else
      var last := steps[|steps| - 1];
      Accepted(steps[..|steps| - 1]) + (if IsCrash(last) && last.allowed then [last.now] else [])
  }

  /** What the cap remembers after the steps. */
  function Recent(steps: seq<Step>): seq<int> {
    if steps == [] then []
    else
      var last := steps[|steps| - 1];
      var recent := Recent(steps[..|steps| - 1]);
      if IsCrash(last) then RecentAfter(recent, last.now) else recent
  }

  /** Every crash was answered as the cap says. */
  ghost predicate Capped(steps: seq<Step>) {
    steps == [] ||
    (var before := steps[..|steps| - 1]; var last := steps[|steps| - 1];
      Capped(before) && (IsCrash(last) ==> last.allowed == Allows(Recent(before), last.now)))
  }

  ghost predicate Ordered(times: seq<int>) {
    forall i, j :: 0 <= i <= j < |times| ==> times[i] <= times[j]
  }

  /** From `start` to `now` the clock never goes back. */
  ghost predicate Clocked(start: int, steps: seq<Step>, now: int) {
    if steps == [] then start <= now
    else
      var last := steps[|steps| - 1];
      if IsCrash(last) then last.now <= now && Clocked(start, steps[..|steps| - 1], last.now)
      else Clocked(start, steps[..|steps| - 1], now)
  }

  /** Any four recoveries in a row take more than five minutes. */
  ghost predicate Spaced(times: seq<int>) {
    forall i :: 0 <= i < |times| - 3 ==> times[i + 3] - times[i] > 300_000
  }

  /** What is remembered is the end of what was accepted, and what is forgotten was out of the span at time `now`. */
  ghost predicate Remembers(accepted: seq<int>, recent: seq<int>, now: int) {
    && |recent| <= |accepted| && |recent| <= MAX_RECOVERIES && recent == accepted[|accepted| - |recent|..]
    && (forall i :: 0 <= i < |accepted| - |recent| ==> now - accepted[i] > RECOVERY_SPAN)
    && (forall i :: 0 <= i < |accepted| ==> accepted[i] <= now)
  }

  /** Fewer than three recoveries were accepted in the last five minutes. */
  ghost predicate BelowCap(accepted: seq<int>, now: int) {
    |accepted| < 3 || now - accepted[|accepted| - 3] > 300_000
  }

  /** The cap is exact: a recovery is refused only when three were accepted in the last five minutes. */
  lemma AllowsIff(accepted: seq<int>, recent: seq<int>, last: int, now: int)
    requires Remembers(accepted, recent, last) && last <= now && Ordered(accepted)
    ensures Allows(recent, now) <==> BelowCap(accepted, now)
    ensures Remembers(accepted, Kept(recent, now), now)
  {
    var kept := Kept(recent, now);
    KeptIsSuffix(recent, now);
    Suffix(accepted, recent, kept);
    forall i | 0 <= i < |accepted| - |kept| ensures now - accepted[i] > RECOVERY_SPAN {
      if i >= |accepted| - |recent| { assert accepted[i] == recent[i - (|accepted| - |recent|)]; }
    }
    if |kept| == MAX_RECOVERIES { assert kept[0] == accepted[|accepted| - MAX_RECOVERIES]; }
  }

  lemma Suffix(all: seq<int>, some: seq<int>, few: seq<int>)
    requires |few| <= |some| <= |all| && some == all[|all| - |some|..] && few == some[|some| - |few|..]
    ensures few == all[|all| - |few|..]
  {
  }

  lemma AcceptedSpaced(accepted: seq<int>, now: int)
    requires Ordered(accepted) && Spaced(accepted) && forall i :: 0 <= i < |accepted| ==> accepted[i] <= now
    requires BelowCap(accepted, now)
    ensures Ordered(accepted + [now]) && Spaced(accepted + [now])
  {
  }

  lemma CountKeeps(accepted: seq<int>, kept: seq<int>, now: int)
    requires Remembers(accepted, kept, now) && |kept| < MAX_RECOVERIES
    ensures Remembers(accepted + [now], kept + [now], now)
  {
    AppendedSuffix(accepted, kept, now);
  }

  lemma AppendedSuffix(all: seq<int>, few: seq<int>, now: int)
    requires |few| <= |all| && few == all[|all| - |few|..]
    ensures few + [now] == (all + [now])[|all| - |few|..]
  {
  }

  ghost predicate CapHolds(accepted: seq<int>, recent: seq<int>, now: int) {
    Ordered(accepted) && Spaced(accepted) && Remembers(accepted, recent, now)
  }

  lemma LaterHolds(accepted: seq<int>, recent: seq<int>, last: int, now: int)
    requires CapHolds(accepted, recent, last) && last <= now
    ensures CapHolds(accepted, recent, now)
  {
  }

  lemma CrashKeeps(accepted: seq<int>, recent: seq<int>, now: int)
    requires CapHolds(accepted, recent, now)
    ensures CapHolds(accepted + (if Allows(recent, now) then [now] else []), RecentAfter(recent, now), now)
  {
    AllowsIff(accepted, recent, now, now);
    if Allows(recent, now) {
      AcceptedSpaced(accepted, now);
      CountKeeps(accepted, Kept(recent, now), now);
    } else {
      assert accepted + [] == accepted;
    }
  }

  lemma {:induction false} CapHoldsInRuns(start: int, steps: seq<Step>, now: int)
    requires Clocked(start, steps, now) && Capped(steps)
    ensures CapHolds(Accepted(steps), Recent(steps), now)
  {
    if steps != [] {
      var before := steps[..|steps| - 1];
      var last := steps[|steps| - 1];
      if IsCrash(last) {
        CapHoldsInRuns(start, before, last.now);
        CrashKeeps(Accepted(before), Recent(before), last.now);
        LaterHolds(Accepted(steps), Recent(steps), last.now, now);
      } else {
        CapHoldsInRuns(start, before, now);
        assert Accepted(before) + [] == Accepted(before);
      }
    }
  }

  /** In every run, at most three recoveries are accepted in any five minutes, and a crash is refused only past that. */
  lemma RecoveriesAreSpaced(start: int, steps: seq<Step>, now: int)
    requires Clocked(start, steps, now) && Capped(steps)
    ensures Ordered(Accepted(steps)) && Spaced(Accepted(steps))
    ensures Allows(Recent(steps), now) <==> BelowCap(Accepted(steps), now)
  {
    CapHoldsInRuns(start, steps, now);
    AllowsIff(Accepted(steps), Recent(steps), now, now);
  }

  // ── Staying up while the window is rebuilt ────────────────────────────────

  /** The step is a crash within the cap, with a window to close. */
  predicate CrashesWindow(s: Life, step: Step) {
    step.BrowserCrash? && step.allowed && s.window.Some?
  }

  /** Steps after which nothing is being rebuilt any more: a page is ready, or a broken window could not be closed. */
  predicate LetsGo(s: Life, step: Step) {
    step.PageReady? || (CrashesWindow(s, step) && !step.destroyed)
  }

  lemma NextKeepsAlive(s: Life, step: Step)
    requires s.keepAlive && !LetsGo(s, step)
    ensures Next(s, step).keepAlive && !(step.LastWindowClosed? && Exits(s, step))
  {
    match step
    case TrayOpen(now) => RestoredKeeps(s, now);
    case CloseRequested(origin, inGame, keepRunning, now) => CloseKeeps(s, origin, inGame, keepRunning, now);
    case Destroyed(now) => WindowGoneKeeps(s, now);
    case _ =>
  }

  /**
   * From the crash that closes the window until a page says it is ready, the last window closing does not end the
   * client: not while the new window is on its way, nor after a build that failed.
   */
  lemma {:induction false} RebuildKeepsClient(s: Life, now: int, steps: seq<Step>)
    requires s.window.Some?
    requires var crashed := Next(s, BrowserCrash(now, true, true));
      forall i :: 0 <= i < |steps| ==> !LetsGo(Before(crashed, steps, i), steps[i])
    ensures var crashed := Next(s, BrowserCrash(now, true, true)); Run(crashed, steps).keepAlive
    ensures var crashed := Next(s, BrowserCrash(now, true, true)); !Exits(Run(crashed, steps), LastWindowClosed)
  {
    if steps != [] {
      var before := steps[..|steps| - 1];
      forall i | 0 <= i < |before| ensures !LetsGo(Before(Next(s, BrowserCrash(now, true, true)), before, i), before[i]) {
        assert before[..i] == steps[..i];
      }
      RebuildKeepsClient(s, now, before);
      assert !LetsGo(Before(Next(s, BrowserCrash(now, true, true)), steps, |before|), steps[|before|]);
      NextKeepsAlive(Run(Next(s, BrowserCrash(now, true, true)), before), steps[|steps| - 1]);
    }
  }

  // ── Asking without a page ─────────────────────────────────────────────────

  lemma NextStaysUnready(s: Life, step: Step)
    requires !s.pageReady && !step.PageReady?
    ensures !Next(s, step).pageReady
  {
    match step
    case TrayOpen(now) => RestoredKeeps(s, now);
    case CloseRequested(origin, inGame, keepRunning, now) => CloseKeeps(s, origin, inGame, keepRunning, now);
    case Destroyed(now) => WindowGoneKeeps(s, now);
    case _ =>
  }

  /** From a crash until a page says it is ready, a close that has to ask asks natively, wherever it comes from. */
  lemma {:induction false} CrashAsksNatively(s: Life, crash: Step, steps: seq<Step>, origin: Origin)
    requires IsCrash(crash) && forall i :: 0 <= i < |steps| ==> !steps[i].PageReady?
    ensures PromptFor(origin, Run(Next(s, crash), steps).pageReady) == Native
  {
    if steps != [] {
      var before := steps[..|steps| - 1];
      CrashAsksNatively(s, crash, before, FromWindow);
      NextStaysUnready(Run(Next(s, crash), before), steps[|steps| - 1]);
    }
  }

  /** The broken window's closing starts exactly one build, which owes the new window what the old one showed. */
  lemma CrashComesBack(s: Life, now: int, gone: int)
    requires s.window.Some? && now <= gone
    ensures var closed := WindowGone(BrowserExited(s, true, true), gone);
      && closed.building == s.building + 1 && StateAt(closed, gone) == Coming
      && closed.openRequested == s.openRequested && closed.waiting == s.waiting && closed.showWhenStanding
      && closed.maximizeWhenShown == s.window.value.maximized
  {
  }

  /** What the page load of a rebuilt window shows, and when the window is maximised. */
  lemma RebuiltWindowShows(s: Life)
    requires s.building > 0 && s.showWhenStanding
    ensures var back := PageLoaded(BuildEnded(s, true));
      && back.standing && back.window.Some? && back.building == s.building - 1
      && (Visible(back) <==> s.openRequested || !s.waiting)
      && (back.window.value.maximized <==> s.openRequested && s.maximizeWhenShown)
      && (Activated(back).window.value.maximized <==> s.maximizeWhenShown)
  {
  }

  /**
   * A rebuilt window takes up the maximised state of the crashed one when the player brings it forward, as its comment
   * says; but after a build that failed, the one built by the next Open does not, because the first build has already
   * taken the remembered geometry. Module `WindowMaximize` says exactly when it does.
   */
  lemma FailedBuildForgetsMaximized(s: Life, now: int)
    requires s.window == Some(Window(true, true)) && !s.waiting && s.building == 0
    ensures var failed := BuildEnded(WindowGone(BrowserExited(s, true, true), now), false);
      var after := PageLoaded(BuildEnded(Restored(failed, now), true));
      failed.maximizeWhenShown && Visible(after) && !after.maximizeWhenShown && !after.window.value.maximized
  {
    CrashComesBack(s, now, now);
    var failed := BuildEnded(WindowGone(BrowserExited(s, true, true), now), false);
    assert failed.geometry.None? && failed.pendingSince.None? && !failed.standing;
  }
}
