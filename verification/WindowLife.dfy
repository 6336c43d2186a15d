/**
 * Closing, crashing and coming back: the main window's flags and the handlers that set them
 * (`src-tauri/src/webview_recovery.rs`, `src-tauri/src/exit.rs`, `src-tauri/src/tray.rs`), as built for Windows.
 * Every handler is one atomic step. Times are milliseconds of a clock that never goes back.
 */
module WindowLife {
  import opened Common

  const MAX_RECOVERIES := 3
  const RECOVERY_SPAN := 300_000
  const BUILD_TIMEOUT := 20_000
  const MIN_GRACE := 3_000
  const MAX_GRACE := 75_000

  // ── The rules ─────────────────────────────────────────────────────────────

  datatype Origin = FromWindow | FromTray
  datatype Decision = Exit | Hide | Ask
  datatype Prompt = Page | Native
  datatype WindowState = Standing | Coming | Missing

  function Decide(inGame: bool, keepRunning: bool, alreadyWaiting: bool): Decision {
    if !inGame then Exit else if keepRunning && !alreadyWaiting then Hide else Ask
  }

  function PromptFor(origin: Origin, pageReady: bool): Prompt {
    if origin == FromWindow && pageReady then Page else Native
  }

  /** Whether to show a window that has just stood, and whether to focus it as well. */
  function OnStanding(openRequested: bool, rebuilt: bool, waiting: bool): Option<bool> {
    if openRequested then Some(true) else if rebuilt && !waiting then Some(false) else None
  }

  function Classify(standing: bool, registered: bool, pendingFor: Option<int>): WindowState {
    if standing && registered then Standing
    else if pendingFor.Some? && pendingFor.value < BUILD_TIMEOUT then Coming
    else Missing
  }

  function MayExit(sinceGameEnded: int, replayPending: bool): bool {
    sinceGameEnded >= MIN_GRACE && (!replayPending || sinceGameEnded >= MAX_GRACE)
  }

  // ── The state ─────────────────────────────────────────────────────────────

  /** The window registered under the current label. */
  datatype Window = Window(visible: bool, maximized: bool)

  datatype Life = Life(
    waiting: bool, pageReady: bool, window: Option<Window>, keepAlive: bool, rebuildOnDestroy: bool,
    pendingSince: Option<int>, standing: bool, openRequested: bool, showWhenStanding: bool, maximizeWhenShown: bool,
    geometry: Option<bool>, building: nat)

  /** The first window, on its way and built visible, maximised if it was when the client was last closed. */
  function Started(now: int, maximized: bool): Life {
    Life(false, false, Some(Window(true, maximized)), false, false, Some(now), false, false, false, false, None, 0)
  }

  function StateAt(s: Life, now: int): WindowState {
    Classify(s.standing, s.window.Some?, if s.pendingSince.Some? then Some(now - s.pendingSince.value) else None)
  }

  predicate Visible(s: Life) { s.window.Some? && s.window.value.visible }

  // ── What each handler does ────────────────────────────────────────────────

  function SetVisible(window: Option<Window>, visible: bool): Option<Window> {
    if window.Some? then Some(window.value.(visible := visible)) else None
  }

  function Maximized(window: Option<Window>): Option<Window> {
    if window.Some? then Some(window.value.(maximized := true)) else None
  }

  function WithVisible(s: Life, visible: bool): Life { s.(window := SetVisible(s.window, visible)) }

  /** The player has brought the window forward: a rebuilt one takes its predecessor's maximised state now. */
  function Activated(s: Life): Life {
    s.(maximizeWhenShown := false, window := if s.maximizeWhenShown then Maximized(s.window) else s.window)
  }

  function Shown(s: Life, focus: bool): Life {
    if focus then Activated(WithVisible(s, true)) else WithVisible(s, true)
  }

  function OnItsWay(s: Life, now: int): bool {
    s.pendingSince.Some? && now - s.pendingSince.value < BUILD_TIMEOUT
  }

  function Rebuilt(s: Life, now: int): Life {
    if OnItsWay(s, now) then s
    else BuildBegun(s.(pendingSince := Some(now)))
  }

  function BuildBegun(s: Life): Life {
    s.(pageReady := false, keepAlive := true, standing := false, showWhenStanding := true,
       geometry := None, maximizeWhenShown := s.geometry == Some(true), building := s.building + 1)
  }

  function Opened(s: Life, now: int): Life {
    var asked := s.(openRequested := true);
    if StateAt(asked, now) == Missing then Rebuilt(asked, now) else asked
  }

  function Restored(s: Life, now: int): Life {
    var back := s.(waiting := false);
    if StateAt(back, now) != Standing then Opened(back, now) else Shown(back, true)
  }

  function Hidden(s: Life): Life { s.(waiting := true, window := SetVisible(s.window, false), openRequested := false) }

  function CloseAsked(s: Life, origin: Origin, inGame: bool, keepRunning: bool, now: int): Life {
    match Decide(inGame, keepRunning, s.waiting)
    case Exit => s
    case Hide => Hidden(s)
    case Ask => if PromptFor(origin, s.pageReady) == Page then Restored(s, now) else s
  }

  function PageLoaded(s: Life): Life {
    var stands := s.(standing := true, pendingSince := None, openRequested := false, showWhenStanding := false);
    match OnStanding(s.openRequested, s.showWhenStanding, s.waiting)
    case Some(focus) => Shown(stands, focus)
    case None => stands
  }

  function PageReadied(s: Life): Life { s.(pageReady := true, keepAlive := false) }

  function PageLost(s: Life): Life { s.(pageReady := false) }

  /** A crash of the browser process, allowed by the cap or not; `destroyed` tells whether the broken window closed. */
  function BrowserExited(s: Life, allowed: bool, destroyed: bool): Life {
    var lost := PageLost(s);
    if allowed && s.window.Some? then Broken(lost, destroyed) else lost
  }

  function Broken(s: Life, destroyed: bool): Life
    requires s.window.Some?
  {
    s.(geometry := Some(s.window.value.maximized), standing := false, pendingSince := None,
       keepAlive := destroyed, rebuildOnDestroy := destroyed)
  }

  function WindowGone(s: Life, now: int): Life {
    var gone := s.(window := None, rebuildOnDestroy := false);
    if s.rebuildOnDestroy then Rebuilt(gone, now) else gone
  }

  /** The thread that builds a window has finished; the label is the new window's either way. */
  function BuildEnded(s: Life, built: bool): Life {
    if s.building == 0 then s
    else if built then s.(building := s.building - 1, window := Some(Window(false, false)))
    else s.(building := s.building - 1, window := None, pendingSince := None)
  }

  // ── The cap on recoveries ─────────────────────────────────────────────────

  /** The recoveries still within the span. */
  function Kept(recent: seq<int>, now: int): seq<int> {
    if recent != [] && now - recent[0] > RECOVERY_SPAN then Kept(recent[1..], now) else recent
  }

  predicate Allows(recent: seq<int>, now: int) { |Kept(recent, now)| < MAX_RECOVERIES }

  function RecentAfter(recent: seq<int>, now: int): seq<int> {
    if Allows(recent, now) then Kept(recent, now) + [now] else Kept(recent, now)
  }

  lemma {:induction false} KeptIsSuffix(recent: seq<int>, now: int)
    ensures |Kept(recent, now)| <= |recent| && Kept(recent, now) == recent[|recent| - |Kept(recent, now)|..]
    ensures forall i :: 0 <= i < |recent| - |Kept(recent, now)| ==> now - recent[i] > RECOVERY_SPAN
    ensures Kept(recent, now) != [] ==> now - Kept(recent, now)[0] <= RECOVERY_SPAN
  {
    if recent != [] && now - recent[0] > RECOVERY_SPAN { KeptIsSuffix(recent[1..], now); }
  }

  // ── The handlers ──────────────────────────────────────────────────────────

  class RecoveryCap {
    /** When the window was last brought back. */
    var recent: seq<int>

    constructor ()
      ensures recent == []
    {
      recent := [];
    }

    /** Whether one more recovery is within the cap; counts it if it is. */
    method Allow(now: int) returns (allowed: bool)
      modifies this
      ensures allowed == Allows(old(recent), now) && recent == RecentAfter(old(recent), now)
    {
      var kept := recent;
      while kept != [] && now - kept[0] > RECOVERY_SPAN
        invariant Kept(kept, now) == Kept(recent, now)
        decreases |kept|
      {
        kept := kept[1..];
      }
      allowed := |kept| < MAX_RECOVERIES;
      recent := if allowed then kept + [now] else kept;
    }
  }

  class Client {
    const cap: RecoveryCap
    var waiting: bool
    var pageReady: bool
    var window: Option<Window>
    var keepAlive: bool
    var rebuildOnDestroy: bool
    var pendingSince: Option<int>
    var standing: bool
    var openRequested: bool
    var showWhenStanding: bool
    var maximizeWhenShown: bool
    var geometry: Option<bool>
    var building: nat

    ghost function State(): Life
      reads this
    {
      Life(waiting, pageReady, window, keepAlive, rebuildOnDestroy, pendingSince, standing, openRequested,
           showWhenStanding, maximizeWhenShown, geometry, building)
    }

    /** The first window is about to be built. */
    constructor (now: int, maximized: bool)
      ensures State() == Started(now, maximized) && cap.recent == [] && fresh(cap)
    {
      waiting, pageReady, window := false, false, Some(Window(true, maximized));
      keepAlive, rebuildOnDestroy, pendingSince, standing := false, false, Some(now), false;
      openRequested, showWhenStanding, maximizeWhenShown, geometry, building := false, false, false, None, 0;
      cap := new RecoveryCap();
    }

    method OnActivated()
      modifies this
      ensures State() == Activated(old(State()))
    {
      if maximizeWhenShown {
        maximizeWhenShown := false;
        window := Maximized(window);
      }
    }

    method Show(focus: bool)
      modifies this
      ensures State() == Shown(old(State()), focus)
    {
      window := SetVisible(window, true);
      if focus { OnActivated(); }
    }

    method StateNow(now: int) returns (state: WindowState)
      ensures state == StateAt(State(), now)
      ensures state == Standing <==> standing && window.Some?
      ensures state == Coming <==> state != Standing && pendingSince.Some? && now - pendingSince.value < 20_000
    {
      var pendingFor: Option<int> := None;
      if pendingSince.Some? { pendingFor := Some(now - pendingSince.value); }
      state := Classify(standing, window.Some?, pendingFor);
    }

    /** Starts building the window again, unless one is on its way already. */
    method Rebuild(now: int)
      modifies this
      ensures State() == Rebuilt(old(State()), now)
      ensures OnItsWay(State(), now) && window == old(window) && waiting == old(waiting)
    {
      if pendingSince.Some? && now - pendingSince.value < BUILD_TIMEOUT { return; }
      pendingSince := Some(now);
      BeginBuild();
    }

    method BeginBuild()
      modifies this
      ensures State() == BuildBegun(old(State()))
    {
      pageReady := false;
      keepAlive := true;
      standing := false;
      showWhenStanding := true;
      var was := geometry;
      geometry := None;
      maximizeWhenShown := was.Some? && was.value;
      building := building + 1;
    }

    method OpenWhenStanding(now: int)
      modifies this
      ensures State() == Opened(old(State()), now)
      ensures openRequested && StateAt(State(), now) != Missing
    {
      openRequested := true;
      var state := StateNow(now);
      if state == Missing { Rebuild(now); }
    }

    /** The one path that shows the window on request. */
    method RestoreMainWindow(now: int)
      modifies this
      ensures State() == Restored(old(State()), now)
      ensures !waiting
      ensures (StateAt(State(), now) == Standing && Visible(State())) || (StateAt(State(), now) == Coming && openRequested)
    {
      waiting := false;
      var state := StateNow(now);
      if state != Standing {
        OpenWhenStanding(now);
        return;
      }
      Show(true);
    }

    /** Also forgets an Open kept from before. */
    method HideToTray()
      modifies this
      ensures State() == Hidden(old(State()))
      ensures waiting && !openRequested && !Visible(State())
    {
      waiting := true;
      window := SetVisible(window, false);
      openRequested := false;
    }

    /** What to do, and how the client asks where it does. The exit itself is the caller's. */
    method OnCloseRequest(origin: Origin, inGame: bool, keepRunning: bool, now: int)
      returns (decision: Decision, prompt: Option<Prompt>)
      modifies this
      ensures decision == Exit <==> !inGame
      ensures decision == Hide <==> inGame && keepRunning && !old(waiting)
      ensures prompt == Some(Page) <==> decision == Ask && origin == FromWindow && old(pageReady)
      ensures prompt == Some(Native) <==> decision == Ask && !(origin == FromWindow && old(pageReady))
      ensures decision == Hide ==> waiting && !openRequested && !Visible(State())
      ensures prompt == Some(Page) ==> !waiting
      ensures decision == Exit || prompt == Some(Native) ==> State() == old(State())
      ensures State() == CloseAsked(old(State()), origin, inGame, keepRunning, now)
    {
      decision := Decide(inGame, keepRunning, waiting);
      prompt := None;
      match decision
      case Exit =>
      case Hide => HideToTray();
      case Ask =>
        prompt := Some(PromptFor(origin, pageReady));
        if prompt == Some(Page) { RestoreMainWindow(now); }
    }

    method OnMainPageLoad()
      modifies this
      ensures State() == PageLoaded(old(State()))
      ensures standing && !openRequested && pendingSince.None?
      ensures window.Some? && (old(openRequested) || (old(showWhenStanding) && !waiting)) ==> Visible(State())
      ensures waiting && !old(openRequested) ==> window == old(window)
    {
      standing := true;
      pendingSince := None;
      var opening, rebuilt := openRequested, showWhenStanding;
      openRequested, showWhenStanding := false, false;
      var shown := OnStanding(opening, rebuilt, waiting);
      if shown.Some? { Show(shown.value); }
    }

    method OnPageReady()
      modifies this
      ensures State() == PageReadied(old(State()))
    {
      pageReady := true;
      keepAlive := false;
    }

    method OnRendererExited(now: int) returns (reload: bool)
      modifies this, cap
      ensures reload == Allows(old(cap.recent), now) && cap.recent == RecentAfter(old(cap.recent), now)
      ensures State() == PageLost(old(State()))
    {
      pageReady := false;
      reload := cap.Allow(now);
    }

    /** `destroyed` tells whether closing the broken window succeeded. */
    method OnBrowserExited(now: int, destroyed: bool)
      modifies this, cap
      ensures State() == BrowserExited(old(State()), Allows(old(cap.recent), now), destroyed)
      ensures cap.recent == RecentAfter(old(cap.recent), now)
    {
      pageReady := false;
      var allowed := cap.Allow(now);
      if !allowed || window.None? { return; }
      CloseBroken(destroyed);
    }

    method CloseBroken(destroyed: bool)
      requires window.Some?
      modifies this
      ensures State() == Broken(old(State()), destroyed)
    {
      geometry := Some(window.value.maximized);
      keepAlive := true;
      rebuildOnDestroy := true;
      standing := false;
      pendingSince := None;
      if !destroyed {
        keepAlive := false;
        rebuildOnDestroy := false;
      }
    }

    method OnMainDestroyed(now: int)
      modifies this
      ensures State() == WindowGone(old(State()), now)
    {
      window := None;
      var rebuildDue := rebuildOnDestroy;
      rebuildOnDestroy := false;
      if rebuildDue { Rebuild(now); }
    }
  }

  // ── Exiting by itself once the game has ended ─────────────────────────────

  /** What one turn of the watching loop finds. */
  datatype Look = Look(now: int, waiting: bool, inGame: bool, replayPending: bool)

  predicate Idle(look: Look) { look.waiting && !look.inGame }

  /** The looks from `start` to `k` all find the client waiting outside a game, and `start` is the first of them. */
  ghost predicate IdleSince(looks: seq<Look>, start: nat, k: nat) {
    && start < k < |looks| && (forall i :: start <= i <= k ==> looks[i].waiting && !looks[i].inGame)
    && (start > 0 ==> !looks[start - 1].waiting || looks[start - 1].inGame)
  }

  /** Three seconds after the game ended, or 75 where its replay is still pending. */
  ghost predicate ExitDue(looks: seq<Look>, start: nat, k: nat) {
    IdleSince(looks, start, k) && looks[k].now - looks[start].now >= if looks[k].replayPending then 75_000 else 3_000
  }

  /**
   * The watching loop: it exits at the first look that ends a long enough stretch of the client waiting outside a game.
   * A client brought back, or another game, starts the stretch anew.
   */
  method Watch(looks: seq<Look>) returns (exit: Option<nat>)
    ensures exit.Some? ==> exists start :: ExitDue(looks, start, exit.value)
    ensures forall start, k :: ExitDue(looks, start, k) ==> exit.Some? && exit.value <= k
  {
    var n := 0;
    while n < |looks|
      invariant n <= |looks| && (0 < n < |looks| ==> !Idle(looks[n - 1]))
      invariant forall start, k :: ExitDue(looks, start, k) ==> n <= k
      decreases |looks| - n
    {
      if !Idle(looks[n]) {
        n := n + 1;
        continue;
      }
      var ended := n;
      n := n + 1;
      while n < |looks|
        invariant ended < n <= |looks| && (ended > 0 ==> !Idle(looks[ended - 1]))
        invariant forall i :: ended <= i < n ==> Idle(looks[i])
        invariant forall start, k :: ExitDue(looks, start, k) ==> n <= k
      {
        if !Idle(looks[n]) { break; }
        if MayExit(looks[n].now - looks[ended].now, looks[n].replayPending) {
          assert ExitDue(looks, ended, n);
          return Some(n);
        }
        StretchIsUnique(looks, ended, n);
        n := n + 1;
      }
      if n < |looks| { n := n + 1; }
    }
    return None;
  }

  lemma StretchIsUnique(looks: seq<Look>, start: nat, k: nat)
    requires IdleSince(looks, start, k)
    ensures forall other: nat :: IdleSince(looks, other, k) ==> other == start
  {
    forall other: nat | other < k && other != start ensures !IdleSince(looks, other, k) {
      if other < start { LaterIsNotFirst(looks, other, start, k); } else { LaterIsNotFirst(looks, start, other, k); }
    }
  }

  lemma LaterIsNotFirst(looks: seq<Look>, earlier: nat, later: nat, k: nat)
    requires earlier < later < k < |looks|
    ensures IdleSince(looks, earlier, k) ==> !IdleSince(looks, later, k)
  {
    if IdleSince(looks, earlier, k) { assert Idle(looks[later - 1]); }
  }
}
