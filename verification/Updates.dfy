/**
 The update stream: what one reduced event sends to the window
 (`crates/faf-domain/src/frontend.rs`, `crates/faf-domain/src/reducer.rs`), and
 what the window does with it (`ui/src/store/reducer.ts`).

 The slice reducers themselves are parameters: `Rules` holds the core's, and
 `Replica` the ones the window runs for the slices that travel as deltas.
 */
module Updates {
  import opened Common
  import opened Filters

  /** The contents of a slice, a settings group or an event, as it crosses the bridge. */
  type Json = string

  /** The slices that only their own events touch. Auth, chat, notifications and settings are apart. */
  datatype Slice =
    | Session | Nav | Clan | Reporting | Reviews | Streams | Tutorials | GalacticWar
    | LinuxRuntime | Install | Connectivity
    | Lobby | Replays | Maps | Mods | Social | Tourney | Changelog | UnitHistory
    | ClientUpdate | Guides | Uploads | Training | PlayerCard | Leaderboard
    | MapGenerator | Events | Coop

  /** The preference groups a settings event can change. */
  datatype Group =
    | Theme | GamePath | ReplayGamePath | Paths | General | Appearance | SocialGroup
    | NotificationsGroup | ChatGroup | Game | Discord | ConnectivityGroup | Debug | ClientUpdates
    | Browsing | EventsGroup | KeptGeneratedMaps | MapGeneratorGroup | MatchmakerVetoes
    | MapPoolsSeen | AvatarHistory | CacheInfo

  datatype NotificationKind = ClientRelease | OtherNotice(name: string)
  datatype Notification = Notification(kind: NotificationKind, body: Json)
  datatype NotificationState = NotificationState(items: seq<Notification>, rest: Json)
  datatype ChatState = ChatState(showJoinsParts: bool, rest: Json)

  datatype AppState = AppState(
    auth: Json,
    chat: ChatState,
    notifications: NotificationState,
    settings: map<Group, Json>,
    slices: map<Slice, Json>)

  datatype AuthEvent =
    | LoginStarted | SignInLinkReady(url: string) | LoggedIn(player: Json)
    | TestLoggedIn(player: Json) | WentOffline | Banned(message: string)
    | LoginFailed(message: string) | LoggedOut

  datatype SettingsEvent = Loaded(settings: map<Group, Json>) | Changed(group: Group, payload: Json)

  datatype AppEvent =
    | AuthEvent(auth: AuthEvent)
    | ChatEvent(payload: Json)
    | NotificationEvent(payload: Json)
    | SettingsEvent(settings: SettingsEvent)
    | SliceEvent(slice: Slice, payload: Json)

  datatype SettingsUpdate = All(settings: map<Group, Json>) | One(group: Group, value: Json)

  datatype FrontendUpdate =
    | AuthUpdate(auth: Json)
    | AccountSession(auth: Json, chat: ChatState, notifications: NotificationState)
    | NotificationsUpdate(notifications: NotificationState)
    | SettingsUpdate(settings: SettingsUpdate)
    | SliceUpdate(slice: Slice, value: Json)
    | ChatDelta(payload: Json)
    | SliceDelta(slice: Slice, payload: Json)

  /** The core's slice reducers, and what a default chat state holds. */
  datatype Rules = Rules(
    slice: (Slice, Json, Json) -> Json,
    auth: (Json, AuthEvent) -> Json,
    chat: (ChatState, Json) -> ChatState,
    notifications: (NotificationState, Json) -> NotificationState,
    settingsGroup: (Group, Json, Json) -> Json,
    showJoinsParts: Json -> bool,
    chatDefault: Json)

  /** The reducers the window keeps for the slices that travel as deltas. */
  datatype Replica = Replica(
    slice: (Slice, Json, Json) -> Json,
    chat: (ChatState, Json) -> ChatState)

  function Get<K, V>(m: map<K, V>, k: K, default: V): V {
    if k in m then m[k] else default
  }

  // ── The core ──────────────────────────────────────────────────────────────

  predicate ResetsAccountActivity(event: AuthEvent) {
    !event.SignInLinkReady?
  }

  /** Only a client release survives the end of an account's session. */
  function DeviceWide(items: seq<Notification>): seq<Notification> {
    Filter(items, (n: Notification) => n.kind == ClientRelease)
  }

  function ReduceSettings(rules: Rules, settings: map<Group, Json>, event: SettingsEvent): map<Group, Json> {
    match event
    case Loaded(loaded) => loaded
    case Changed(group, payload) =>
      settings[group := rules.settingsGroup(group, Get(settings, group, ""), payload)]
  }

  /** What one event makes of the state: the specification of `Core.Reduce`. */
  function Reduced(rules: Rules, state: AppState, event: AppEvent): AppState {
    match event
    case AuthEvent(e) =>
      var cleared :=
        if ResetsAccountActivity(e) then
          state.(
            chat := ChatState(rules.showJoinsParts(Get(state.settings, ChatGroup, "")), rules.chatDefault),
            notifications := state.notifications.(items := DeviceWide(state.notifications.items)))
        else state;
      cleared.(auth := rules.auth(cleared.auth, e))
    case ChatEvent(p) => state.(chat := rules.chat(state.chat, p))
    case NotificationEvent(p) => state.(notifications := rules.notifications(state.notifications, p))
    case SettingsEvent(e) => state.(settings := ReduceSettings(rules, state.settings, e))
    case SliceEvent(slice, p) =>
      state.(slices := state.slices[slice := rules.slice(slice, Get(state.slices, slice, ""), p)])
  }

  /** `kept` is the client releases among `items`, in their order. */
  ghost predicate ReleasesOf(items: seq<Notification>, kept: seq<Notification>) {
    if items == [] then kept == []
    else if items[0].kind.ClientRelease? then kept != [] && kept[0] == items[0] && ReleasesOf(items[1..], kept[1..])
    else ReleasesOf(items[1..], kept)
  }

  ghost predicate SameActivity(before: AppState, after: AppState) {
    after.chat == before.chat && after.notifications == before.notifications
  }

  /** A blank chat with the player's join and part preference, and of the notices only the client releases. */
  ghost predicate ActivityReset(rules: Rules, before: AppState, after: AppState) {
    && after.chat.rest == rules.chatDefault
    && after.chat.showJoinsParts == rules.showJoinsParts(Get(before.settings, ChatGroup, ""))
    && after.notifications.rest == before.notifications.rest
    && ReleasesOf(before.notifications.items, after.notifications.items)
  }

  /** What every event does to every part of the state. */
  ghost predicate Touches(rules: Rules, before: AppState, event: AppEvent, after: AppState) {
    match event
    case AuthEvent(e) =>
      && after.auth == rules.auth(before.auth, e) && after.settings == before.settings && after.slices == before.slices
      && (match e
          case SignInLinkReady(_) => SameActivity(before, after)
          case LoginStarted => ActivityReset(rules, before, after)
          case LoggedIn(_) => ActivityReset(rules, before, after)
          case TestLoggedIn(_) => ActivityReset(rules, before, after)
          case WentOffline => ActivityReset(rules, before, after)
          case Banned(_) => ActivityReset(rules, before, after)
          case LoginFailed(_) => ActivityReset(rules, before, after)
          case LoggedOut => ActivityReset(rules, before, after))
    case ChatEvent(p) =>
      && after.chat == rules.chat(before.chat, p) && after.notifications == before.notifications
      && after.auth == before.auth && after.settings == before.settings && after.slices == before.slices
    case NotificationEvent(p) =>
      && after.notifications == rules.notifications(before.notifications, p) && after.chat == before.chat
      && after.auth == before.auth && after.settings == before.settings && after.slices == before.slices
    case SettingsEvent(e) =>
      && after.auth == before.auth && SameActivity(before, after) && after.slices == before.slices
      && (match e
          case Loaded(loaded) => after.settings == loaded
          case Changed(group, p) =>
            && after.settings.Keys == before.settings.Keys + {group}
            && after.settings[group] == rules.settingsGroup(group, Get(before.settings, group, ""), p)
            && forall other :: other in before.settings && other != group ==> after.settings[other] == before.settings[other])
    case SliceEvent(slice, p) =>
      && after.auth == before.auth && SameActivity(before, after) && after.settings == before.settings
      && after.slices.Keys == before.slices.Keys + {slice}
      && after.slices[slice] == rules.slice(slice, Get(before.slices, slice, ""), p)
      && forall other :: other in before.slices && other != slice ==> after.slices[other] == before.slices[other]
  }

  lemma {:induction false} DeviceWideIsReleases(items: seq<Notification>)
    ensures ReleasesOf(items, DeviceWide(items))
  {
    if items != [] { DeviceWideIsReleases(items[1..]); }
  }

  /** Every account event but the sign-in link ends the old account's activity; any other event touches its own part only. */
  lemma ReducedTouches(rules: Rules, state: AppState, event: AppEvent)
    ensures Touches(rules, state, event, Reduced(rules, state, event))
  {
    DeviceWideIsReleases(state.notifications.items);
  }

  // ── What travels ──────────────────────────────────────────────────────────

  /** The slices that keep compact deltas. */
  predicate IsDelta(slice: Slice) {
    match slice
    case Session => false
    case Nav => false
    case Clan => false
    case Reporting => false
    case Reviews => false
    case Streams => false
    case Tutorials => false
    case GalacticWar => false
    case LinuxRuntime => false
    case Install => false
    case Connectivity => false
    case _ => true
  }

  function AfterReduce(settings: map<Group, Json>, event: SettingsEvent): SettingsUpdate {
    match event
    case Loaded(_) => All(settings)
    case Changed(group, _) => One(group, Get(settings, group, ""))
  }

  /** The replacement captured from the reduced state, for the events that have one. */
  function Capture(state: AppState, event: AppEvent): Option<FrontendUpdate> {
    match event
    case AuthEvent(e) =>
      if ResetsAccountActivity(e)
      then Some(AccountSession(state.auth, state.chat, state.notifications))
      else Some(AuthUpdate(state.auth))
    case NotificationEvent(_) => Some(NotificationsUpdate(state.notifications))
    case SettingsEvent(e) => Some(FrontendUpdate.SettingsUpdate(AfterReduce(state.settings, e)))
    case ChatEvent(_) => None
    case SliceEvent(slice, _) =>
      if IsDelta(slice) then None else Some(SliceUpdate(slice, Get(state.slices, slice, "")))
  }

  /** The delta an event is moved into, for the events that have one. */
  function FromDelta(event: AppEvent): Option<FrontendUpdate> {
    match event
    case ChatEvent(p) => Some(ChatDelta(p))
    case SliceEvent(slice, p) => if IsDelta(slice) then Some(SliceDelta(slice, p)) else None
    case AuthEvent(_) => None
    case NotificationEvent(_) => None
    case SettingsEvent(_) => None
  }

  /** What the forwarder sends: the captured replacement, or else the delta. */
  function Carried(captured: Option<FrontendUpdate>, event: AppEvent): Option<FrontendUpdate> {
    if captured.Some? then captured else FromDelta(event)
  }

  const DELTA_KINDS: seq<string> := [
    "Chat", "Lobby", "Replays", "Maps", "Mods", "Social", "Tourney", "Changelog",
    "UnitHistory", "ClientUpdate", "Guides", "Uploads", "Training", "PlayerCard",
    "Leaderboard", "MapGenerator", "Events", "Coop"]

  function SliceName(slice: Slice): string {
    match slice
    case Session => "Session"
    case Nav => "Nav"
    case Clan => "Clan"
    case Reporting => "Reporting"
    case Reviews => "Reviews"
    case Streams => "Streams"
    case Tutorials => "Tutorials"
    case GalacticWar => "GalacticWar"
    case LinuxRuntime => "LinuxRuntime"
    case Install => "Install"
    case Connectivity => "Connectivity"
    case Lobby => "Lobby"
    case Replays => "Replays"
    case Maps => "Maps"
    case Mods => "Mods"
    case Social => "Social"
    case Tourney => "Tourney"
    case Changelog => "Changelog"
    case UnitHistory => "UnitHistory"
    case ClientUpdate => "ClientUpdate"
    case Guides => "Guides"
    case Uploads => "Uploads"
    case Training => "Training"
    case PlayerCard => "PlayerCard"
    case Leaderboard => "Leaderboard"
    case MapGenerator => "MapGenerator"
    case Events => "Events"
    case Coop => "Coop"
  }

  /** The event's kind, as it is tagged on the bridge. */
  function Kind(event: AppEvent): string {
    match event
    case AuthEvent(_) => "Auth"
    case ChatEvent(_) => "Chat"
    case NotificationEvent(_) => "Notifications"
    case SettingsEvent(_) => "Settings"
    case SliceEvent(slice, _) => SliceName(slice)
  }

  // ── The window ────────────────────────────────────────────────────────────

  /** What the window makes of one update. */
  function ApplyUpdate(replica: Replica, state: AppState, update: FrontendUpdate): AppState {
    match update
    case AuthUpdate(auth) => state.(auth := auth)
    case AccountSession(auth, chat, notifications) =>
      state.(auth := auth, chat := chat, notifications := notifications)
    case NotificationsUpdate(notifications) => state.(notifications := notifications)
    case SettingsUpdate(All(settings)) => state.(settings := settings)
    case SettingsUpdate(One(group, value)) => state.(settings := state.settings[group := value])
    case SliceUpdate(slice, value) => state.(slices := state.slices[slice := value])
    case ChatDelta(p) => state.(chat := replica.chat(state.chat, p))
    case SliceDelta(slice, p) =>
      state.(slices := state.slices[slice := replica.slice(slice, Get(state.slices, slice, ""), p)])
  }

  /** The window's delta reducers are twins of the core's. */
  ghost predicate Agrees(replica: Replica, rules: Rules) {
    && (forall chat, p :: replica.chat(chat, p) == rules.chat(chat, p))
    && (forall slice, value, p :: IsDelta(slice) ==> replica.slice(slice, value, p) == rules.slice(slice, value, p))
  }

  /** The core's state, changed in place one event at a time. */
  class Core {
    const rules: Rules
    var state: AppState
    var revision: nat

    constructor (rules: Rules, initial: AppState)
      ensures this.rules == rules && state == initial && revision == 0
    {
      this.rules := rules;
      state := initial;
      revision := 0;
    }

    method Reduce(event: AppEvent)
      modifies `state
      ensures state == Reduced(rules, old(state), event)
      ensures Touches(rules, old(state), event, state)
    {
      ReducedTouches(rules, state, event);
      match event
      case AuthEvent(e) =>
        if ResetsAccountActivity(e) {
          state := state.(chat := ChatState(rules.showJoinsParts(Get(state.settings, ChatGroup, "")), rules.chatDefault));
          var kept := RetainDeviceWide(state.notifications.items);
          state := state.(notifications := state.notifications.(items := kept));
        }
        state := state.(auth := rules.auth(state.auth, e));
      case ChatEvent(p) => state := state.(chat := rules.chat(state.chat, p));
      case NotificationEvent(p) => state := state.(notifications := rules.notifications(state.notifications, p));
      case SettingsEvent(e) => state := state.(settings := ReduceSettings(rules, state.settings, e));
      case SliceEvent(slice, p) =>
        state := state.(slices := state.slices[slice := rules.slice(slice, Get(state.slices, slice, ""), p)]);
    }

    /** The in-place `retain` of the reset: keeps the order, drops every other kind. */
    static method RetainDeviceWide(items: seq<Notification>) returns (kept: seq<Notification>)
      ensures kept == DeviceWide(items)
    {
      kept := Retain(items, (n: Notification) => n.kind == ClientRelease);
    }

    /** Reduce, capture and number an event as one step, as the core does under its write guard. */
    method Emit(event: AppEvent) returns (numbered: nat, captured: Option<FrontendUpdate>)
      modifies this
      ensures state == Reduced(rules, old(state), event) && Touches(rules, old(state), event, state)
      ensures numbered == revision == old(revision) + 1
      ensures Carried(captured, event).Some?
      ensures forall replica: Replica :: Agrees(replica, rules) ==>
        ApplyUpdate(replica, old(state), Carried(captured, event).value) == state
    {
      Reduce(event);
      captured := Capture(state, event);
      revision := revision + 1;
      numbered := revision;
      ExactlyOneCarries(state, event);
      forall replica: Replica | Agrees(replica, rules)
        ensures ApplyUpdate(replica, old(state), Carried(captured, event).value) == state
      {
        UpdateCommutes(rules, replica, old(state), event);
      }
    }
  }

  // ── Properties ────────────────────────────────────────────────────────────

  /** Every event has exactly one carrier, and the exported list names exactly the delta kinds. */
  lemma ExactlyOneCarries(state: AppState, event: AppEvent)
    ensures Capture(state, event).Some? <==> FromDelta(event).None?
    ensures Kind(event) in DELTA_KINDS <==> Capture(state, event).None?
  {
    if event.SliceEvent? {
      DeltaKindsNameDeltaSlices(event.slice);
    } else if event.ChatEvent? {
      assert DELTA_KINDS[0] == "Chat";
    } else {
      ShortNames(Kind(event));
    }
  }

  lemma DeltaKindsNameDeltaSlices(slice: Slice)
    ensures SliceName(slice) in DELTA_KINDS <==> IsDelta(slice)
  {
    match slice
    case Lobby => assert DELTA_KINDS[1] == "Lobby";
    case Replays => assert DELTA_KINDS[2] == "Replays";
    case Maps => assert DELTA_KINDS[3] == "Maps";
    case Mods => assert DELTA_KINDS[4] == "Mods";
    case Social => assert DELTA_KINDS[5] == "Social";
    case Tourney => assert DELTA_KINDS[6] == "Tourney";
    case Changelog => assert DELTA_KINDS[7] == "Changelog";
    case UnitHistory => assert DELTA_KINDS[8] == "UnitHistory";
    case ClientUpdate => assert DELTA_KINDS[9] == "ClientUpdate";
    case Guides => assert DELTA_KINDS[10] == "Guides";
    case Uploads => assert DELTA_KINDS[11] == "Uploads";
    case Training => assert DELTA_KINDS[12] == "Training";
    case PlayerCard => assert DELTA_KINDS[13] == "PlayerCard";
    case Leaderboard => assert DELTA_KINDS[14] == "Leaderboard";
    case MapGenerator => assert DELTA_KINDS[15] == "MapGenerator";
    case Events => assert DELTA_KINDS[16] == "Events";
    case Coop => assert DELTA_KINDS[17] == "Coop";
    case _ => ShortNames(SliceName(slice));
  }

  /** No name outside the list is spelt like one inside it. */
  lemma ShortNames(name: string)
    requires name in ["Auth", "Notifications", "Settings", "Session", "Nav", "Clan", "Reporting", "Reviews",
                      "Streams", "Tutorials", "GalacticWar", "LinuxRuntime", "Install", "Connectivity"]
    ensures name !in DELTA_KINDS
  {
    forall i | 0 <= i < |DELTA_KINDS|
      ensures DELTA_KINDS[i] != name
    {
    }
  }

  /** Applying what an event carries to the state before it gives the state after it. */
  lemma UpdateCommutes(rules: Rules, replica: Replica, state: AppState, event: AppEvent)
    requires Agrees(replica, rules)
    ensures Carried(Capture(Reduced(rules, state, event), event), event).Some?
    ensures ApplyUpdate(replica, state, Carried(Capture(Reduced(rules, state, event), event), event).value)
         == Reduced(rules, state, event)
  {
  }

  /** The state after a run of events, and the window's after the run of what they carried. */
  function ReducedRun(rules: Rules, state: AppState, events: seq<AppEvent>): AppState {
    if events == [] then state
    else Reduced(rules, ReducedRun(rules, state, events[..|events| - 1]), events[|events| - 1])
  }

  function MirroredRun(rules: Rules, replica: Replica, state: AppState, events: seq<AppEvent>): AppState {
    if events == [] then state
    else
      var before := events[..|events| - 1];
      var event := events[|events| - 1];
      var carried := Carried(Capture(ReducedRun(rules, state, events), event), event);
      var mirrored := MirroredRun(rules, replica, state, before);
      if carried.Some? then ApplyUpdate(replica, mirrored, carried.value) else mirrored
  }

  /** Whatever the state and the events after it, the window ends with the core's state. */
  ghost predicate AlwaysMirrors(rules: Rules, replica: Replica) {
    forall state, events :: MirroredRun(rules, replica, state, events) == ReducedRun(rules, state, events)
  }

  /**
   The stream reproduces the core's state over every run from every state exactly when
   the window's delta reducers are twins of the core's.
   */
  lemma {:induction false} MirrorsEveryRunIffTwins(rules: Rules, replica: Replica)
    ensures Agrees(replica, rules) <==> AlwaysMirrors(rules, replica)
  {
    if Agrees(replica, rules) {
      forall state, events
        ensures MirroredRun(rules, replica, state, events) == ReducedRun(rules, state, events)
      {
        TwinsMirror(rules, replica, state, events);
      }
    }
    if AlwaysMirrors(rules, replica) {
      MirrorsAreTwins(rules, replica);
    }
  }

  lemma {:induction false} TwinsMirror(rules: Rules, replica: Replica, state: AppState, events: seq<AppEvent>)
    requires Agrees(replica, rules)
    ensures MirroredRun(rules, replica, state, events) == ReducedRun(rules, state, events)
    decreases |events|
  {
    if events != [] {
      var before := events[..|events| - 1];
      TwinsMirror(rules, replica, state, before);
      UpdateCommutes(rules, replica, ReducedRun(rules, state, before), events[|events| - 1]);
    }
  }

  lemma MirrorsAreTwins(rules: Rules, replica: Replica)
    requires AlwaysMirrors(rules, replica)
    ensures Agrees(replica, rules)
  {
    var blank := AppState("", ChatState(false, ""), NotificationState([], ""), map[], map[]);
    forall chat, p
      ensures replica.chat(chat, p) == rules.chat(chat, p)
    {
      OneEvent(rules, replica, blank.(chat := chat), ChatEvent(p));
    }
    forall slice, value, p | IsDelta(slice)
      ensures replica.slice(slice, value, p) == rules.slice(slice, value, p)
    {
      var state := blank.(slices := map[slice := value]);
      OneEvent(rules, replica, state, SliceEvent(slice, p));
      var m1, m2 := state.slices[slice := replica.slice(slice, value, p)], state.slices[slice := rules.slice(slice, value, p)];
      assert m1 == m2;
      assert m1[slice] == m2[slice];
    }
  }

  lemma OneEvent(rules: Rules, replica: Replica, state: AppState, event: AppEvent)
    requires MirroredRun(rules, replica, state, [event]) == ReducedRun(rules, state, [event])
    requires FromDelta(event).Some?
    ensures ApplyUpdate(replica, state, FromDelta(event).value) == Reduced(rules, state, event)
  {
    assert [event][..0] == [];
    assert ReducedRun(rules, state, [event]) == Reduced(rules, state, event);
    assert MirroredRun(rules, replica, state, []) == state;
  }

  /**
   The account reset, by every account event but the sign-in link: the window is left with the new account's auth, an
   empty chat that keeps the join/part preference, and no notice but a client release.
   */
  lemma {:induction false} ResetLeavesNoActivity(rules: Rules, replica: Replica, state: AppState, event: AuthEvent)
    requires !event.SignInLinkReady?
    ensures var carried := Carried(Capture(Reduced(rules, state, AuthEvent(event)), AuthEvent(event)), AuthEvent(event));
      var after := ApplyUpdate(replica, state, carried.value);
      && after.auth == rules.auth(state.auth, event)
      && after.chat == ChatState(rules.showJoinsParts(Get(state.settings, ChatGroup, "")), rules.chatDefault)
      && after.settings == state.settings && after.slices == state.slices
      && ReleasesOf(state.notifications.items, after.notifications.items)
      && (forall n :: n in after.notifications.items <==> n in state.notifications.items && n.kind == ClientRelease)
  {
    DeviceWideIsReleases(state.notifications.items);
    DeviceWideKeepsReleases(state.notifications.items);
  }

  lemma DeviceWideKeepsReleases(items: seq<Notification>)
    ensures forall n :: n in DeviceWide(items) <==> n in items && n.kind == ClientRelease
  {
    FilterOrder(items, (n: Notification) => n.kind == ClientRelease);
  }
}
