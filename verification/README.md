# A verified model of the FAForever client's hard parts

This project models the parts of the desktop client whose correctness cannot be read off one function, and proves
what they promise. It stands alone: `dafny verify dfyconfig.toml` checks it.

| files | what they model |
|---|---|
| `Updates.dfy` | what one reduced event sends to the window, and what the window makes of it |
| `Mirror.dfy`, `MirrorRuns.dfy`, `MirrorConfluence.dfy`, `RecoveryPacing.dfy` | the window's mirror of the core's state: the class, what its steps keep, that order does not matter, when it asks for a snapshot |
| `Protocol.dfy`, `ProtocolOrder.dfy` | core, forwarder, lossy channel, late snapshots and mirror as one state machine, and the order in which events arrive |
| `RealSums.dfy`, `ColumnFit.dfy`, `ColumnDivider.dfy` | fitting the columns of a list, sharing spare room, dragging a divider |
| `Filters.dfy`, `PopupQueue.dfy`, `Popups.dfy`, `PopupRuns.dfy`, `PopupAdmission.dfy`, `PopupClicks.dfy`, `PopupUrgency.dfy` | the desktop popup's queue as one list, its operations under the core's state, every run of them, which cards it lets in, what becomes of a click, which urgent cards it shows |
| `RollingLog.dfy`, `RollingLogRuns.dfy`, `LogNames.dfy` | the rolling log appender, what survives any number of starts and writes, and the names of the logs |
| `ColorMath.dfy` | the colour picker's conversions |
| `MapZoom.dfy` | pan and zoom of the map preview |
| `OverlayStack.dfy` | the stack of layers that close on Escape |
| `WindowLife.dfy`, `WindowRuns.dfy`, `WindowFlags.dfy`, `WindowMaximize.dfy` | closing during a game, crash recovery, rebuilding, the tray, exiting after a game, what each step does to the window's flags, and when a rebuilt window is maximised |

Code that changes fields is a class whose methods are proved against specification functions on a plain value; the
properties of whole runs are lemmas about those functions. Handlers are single steps, and steps interleave freely.

## What is assumed

- The core's slice reducers, and the window's, are parameters (`Rules`, `Replica`). A settings event changes its own
  group only. Where the window must agree with the core, that is a named condition (`Agrees`), and
  `Updates.MirrorsEveryRunIffTwins` shows it is the exact one.
- The mirror's `hydrate` and `apply` callbacks neither throw nor call back into it. Timers do not fire early, clocks do
  not go back, and revisions and batch numbers do not wrap.
- Widths, colours and scales are exact reals; rounding happens where the source rounds. Stored and default widths are
  not negative, and declared floors at least a pixel: a divider's stored floor is the fitted one divided by the scale.
- A log directory is read as dates and segments, which `LogNames.NameRoundTrip` justifies for the client's own logs.
  Dates do not go back, write stamps are distinct, and removing a log succeeds.
- The ids of live notifications never look like a preview's.
- A layer's parent never changes, so chains of parents are finite.
- The window model is the Windows build. The core's answers, the outcome of closing a broken window and of building a
  new one are inputs of the steps. A window within reach always answers where it is and whether it is maximised.

## Where the code and its own words disagree

- `ui/src/shared/tableColumns.ts:261-264` says lifting a column to its floor changes nothing on screen. It can, for a
  column the divider does not touch (`ColumnDividers.LiftMovesAnotherColumn`) and for its own neighbours
  (`LiftMovesItsNeighbour`). `LiftChangesNothingIff` says exactly when it does not, for every list and every column:
  always where the list overflows; where the lifted columns still have their room, if and only if lifting moves neither
  neighbour; and otherwise if and only if the lifted widths still draw every column as wide as it was (`DrawsAs`, a
  condition on the lifted widths alone). For a divider that is moved, `OverflowScreenUnmoved`, `RoomyTradeIff` and
  `ScreenUnmovedIff` say exactly when the columns it does not touch stay where they are, and `DividerMovesNothingElseIff`
  when sum, scale, overflow and other columns all do.
- `ui/src/shared/mapZoom.ts:76-78` says steps are fully reversible across direction changes. In then out, they are exactly
  from a preset and without running over the largest one (`MapZoom.StepReversesIff`, `StepsReverseIff`). Out then in, they
  are exactly from a preset the steps in come back to, and where holding the point all the way out needs no clamp
  (`StepOutReversesIff`, `StepsOutReverseIff`). From any other scale they never are (`OffPresetNeverReturns`).
- `src-tauri/src/notification_popup.rs:204-205` says a found match cannot wait. A later urgent card can push an earlier one
  off the visible places, from the first admission on (`PopupUrgency.FoundMatchCanWait`). An urgent card is shown exactly
  when its place after its own turn leaves room for the later ids that had to be moved (`UrgentVisibleIff`), and all of them
  are exactly when at most three have to be moved and none of the others stands where those moves push it off
  (`AllUrgentVisibleIff`).
- `src-tauri/src/webview_recovery.rs:97-103` says a rebuilt window is maximised once the player activates it if the crashed
  one was. It is exactly when no further build was started before that activation: not after a build that failed or timed
  out, nor after another crash that closed the window (`WindowMaximize.FirstActivationMaximizesIff`, `WaysToBuildAgain`). A
  further crash without a build does not matter (`CrashAloneKeepsMaximized`). `MaximizedIsOwedIff` says the
  same of every run from a start, in which the player maximises and restores windows, and `OwedIsReached` gives such a run.
- The appender's write loop stalls, rather than rolling on, once the last 32-bit segment of a day is full:
  `RollingLogRuns.WriteProgresses` shows that this is the only such case, and `SaturatedLogStalls` that there is one.

## Model

| member | source | states |
|---|---|---|
| Updates.Core.Reduce | crates/faf-domain/src/reducer.rs:14-63 | reduces one event in place; every account event but the sign-in link resets chat and notifications before auth is reduced, and every other event touches its own part only |
| Updates.Core.RetainDeviceWide | crates/faf-domain/src/reducer.rs:17-31 | the in-place retain keeps exactly the device-wide notices, in order |
| Updates.ReducedTouches | crates/faf-domain/src/reducer.rs:14-63 | event by event: every account event but the sign-in link leaves a blank chat with the kept preference and exactly the release notices, in order; the link leaves both alone; any other event changes its own part, to its rule's result on the old value, and nothing else |
| Updates.Core.Emit | crates/faf-app/src/runtime/mod.rs:230-288 | one event advances the revision by one and carries exactly what brings a window at the old state to the new one |
| Updates.ExactlyOneCarries | crates/faf-domain/src/frontend.rs:63-226 | every event travels either as a captured replacement or as a delta, never both or neither, and the exported list names exactly the delta kinds |
| Updates.DeltaKindsNameDeltaSlices | crates/faf-domain/src/frontend.rs:207-226 | a slice's name is in the exported list exactly when the slice keeps deltas |
| Updates.UpdateCommutes | crates/faf-domain/src/frontend.rs:63-200 | applying what an event carries to the state before it gives the reduced state, the three-slice account reset included |
| Updates.TwinsMirror | ui/src/store/reducer.ts:32-69 | over every run of events the mirrored fold equals the reduced fold |
| Updates.MirrorsEveryRunIffTwins | ui/src/store/reducer.ts:32-69 | the stream reproduces every run from every state if and only if the window's delta reducers equal the core's |
| Updates.ResetLeavesNoActivity | crates/faf-domain/src/reducer.rs:17-31 | after every account event but the sign-in link the window holds the new auth, an empty chat with the kept preference, and exactly the release notices, in order |
| Mirrors.RecoveryRetryDelay | ui/src/ipc/revisionedMirror.ts:50-53 | the backoff never goes under the cooldown or over its cap |
| Mirrors.RetryDelayDoubles | ui/src/ipc/revisionedMirror.ts:50-53 | it starts at a second and doubles with every failure up to the cap |
| Mirrors.RevisionedMirror.ApplyInOrder | ui/src/ipc/revisionedMirror.ts:100-104 | the next event in order is applied and its revision taken |
| Mirrors.RevisionedMirror.constructor | ui/src/ipc/revisionedMirror.ts:69-84 | a new mirror has no revision, nothing held, nothing scheduled |
| Mirrors.RevisionedMirror.Receive | ui/src/ipc/revisionedMirror.ts:86-105 | what a message does to copy and scheduler: ignored, held, applied and drained, or replaced |
| Mirrors.RevisionedMirror.Replace | ui/src/ipc/revisionedMirror.ts:107-125 | an older snapshot changes no state; a newer one drops what it contains, clears a covered loss and drains |
| Mirrors.RevisionedMirror.Dispose | ui/src/ipc/revisionedMirror.ts:133-137 | marks the mirror disposed and cancels the timer, and nothing else |
| Mirrors.RevisionedMirror.KeepNewer | ui/src/ipc/revisionedMirror.ts:117-121 | keeps exactly the held events newer than the snapshot |
| Mirrors.RevisionedMirror.NewestLost | ui/src/ipc/revisionedMirror.ts:144-151 | finds the newest revision let go now or before |
| Mirrors.RevisionedMirror.HoldEvent | ui/src/ipc/revisionedMirror.ts:144-151 | holds an event, or past the ceiling lets all go and remembers the newest |
| Mirrors.RevisionedMirror.ApplyHeld | ui/src/ipc/revisionedMirror.ts:153-168 | applies the unbroken run of held events after the revision, each once and in order |
| Mirrors.RevisionedMirror.Drain | ui/src/ipc/revisionedMirror.ts:153-168 | drains, and asks for recovery exactly when a gap is left |
| Mirrors.RevisionedMirror.HasRevisionGap | ui/src/ipc/revisionedMirror.ts:170-177 | the loop over held events answers exactly whether there is a gap |
| Mirrors.RevisionedMirror.Request | ui/src/ipc/revisionedMirror.ts:186-191 | starts or schedules one attempt, never a second one beside it |
| Mirrors.RevisionedMirror.Schedule | ui/src/ipc/revisionedMirror.ts:193-202 | starts at once when the delay has passed, else sets the timer |
| Mirrors.RevisionedMirror.Start | ui/src/ipc/revisionedMirror.ts:204-219 | an attempt begins only with a gap, in use, and none in flight |
| Mirrors.RevisionedMirror.Fire | ui/src/ipc/revisionedMirror.ts:193-202 | the timer clears itself before the attempt starts |
| Mirrors.RevisionedMirror.End | ui/src/ipc/revisionedMirror.ts:219-251 | a reply is taken in first; then the attempt closes, is followed by another, or gives up with a report |
| MirrorRuns.DrainedRun | ui/src/ipc/revisionedMirror.ts:153-168 | a drain takes exactly the unbroken run after the revision out of the buffer |
| MirrorRuns.DrainAppliesOnce | ui/src/ipc/revisionedMirror.ts:153-168 | a drain applies every event it takes out once |
| MirrorRuns.DrainedFaithful | ui/src/ipc/revisionedMirror.ts:153-168 | a store that equals the core's state at its revision still does after a drain |
| MirrorRuns.HydratedKeeps | ui/src/ipc/revisionedMirror.ts:107-125 | a snapshot at or above the revision keeps the store faithful, the buffer bounded and every received revision accounted for |
| MirrorRuns.SnapshotTakenIff | ui/src/ipc/revisionedMirror.ts:107-125 | a snapshot is taken if and only if the mirror is in use and not already past it |
| MirrorRuns.HoldKeeps | ui/src/ipc/revisionedMirror.ts:144-151 | holding keeps all of that, overflow included, and leaves a visible gap |
| MirrorRuns.HoldLetsGoIff | ui/src/ipc/revisionedMirror.ts:144-151 | up to 4096 events are held; one more, and all are let go and the newest ever let go is remembered |
| MirrorRuns.ReceivedKeeps | ui/src/ipc/revisionedMirror.ts:86-105 | so does every message |
| MirrorRuns.GapIffNewerReceived | ui/src/ipc/revisionedMirror.ts:170-177 | a gap is seen if and only if a revision above the mirror's own was ever received, after an overflow too |
| MirrorRuns.StepKeepsCopy | ui/src/ipc/revisionedMirror.ts:86-168 | every step keeps the store equal to the core's state at its revision, at most 4096 held events, each at least two ahead |
| MirrorRuns.ReceivedSound | ui/src/ipc/revisionedMirror.ts:86-105 | fresh traffic that leaves a gap leaves an attempt in flight or scheduled |
| MirrorRuns.StepSound | ui/src/ipc/revisionedMirror.ts:186-251 | after every step a gap is being recovered or has been reported, and an attempt and a timer never coexist |
| MirrorRuns.StepSettles | ui/src/ipc/revisionedMirror.ts:133-251 | an attempt that ends is over, and recorded by what is left of the gap; a timer that fires starts one where a gap is left; disposal cancels it |
| MirrorRuns.StepAdvances | ui/src/ipc/revisionedMirror.ts:86-168 | the revision never goes back, and a disposed mirror never changes its store again |
| RecoveryPacing.StartKeeps | ui/src/ipc/revisionedMirror.ts:204-219 | an attempt started in time keeps the record paced |
| RecoveryPacing.RequestKeeps | ui/src/ipc/revisionedMirror.ts:186-202 | a request keeps the record paced and leaves a gap handled: at once if and only if the cooldown is over, else by a timer due exactly then |
| RecoveryPacing.SettledKeeps | ui/src/ipc/revisionedMirror.ts:219-251 | so does the end of an attempt, with the failure count equal to the failures in a row |
| RecoveryPacing.RequestsAreSpaced | ui/src/ipc/revisionedMirror.ts:186-191 | every request comes at least the cooldown after everything settled before it |
| RecoveryPacing.RequestsSettle | ui/src/ipc/revisionedMirror.ts:204-251 | between two requests the first one settles |
| RecoveryPacing.FailuresBackOff | ui/src/ipc/revisionedMirror.ts:232-251 | after the first, second and third failure in a row nothing is asked for before one, two and four seconds have passed |
| RecoveryPacing.FailureSetsTimer | ui/src/ipc/revisionedMirror.ts:232-251 | where the record ends with a failure the next attempt is due exactly that long after it |
| RecoveryPacing.ReportsAfterFourFailures | ui/src/ipc/revisionedMirror.ts:232-251 | a report comes exactly after the fourth failure in a row |
| RecoveryPacing.PacedRecord | ui/src/ipc/revisionedMirror.ts:186-251 | the three of them over a whole record |
| MirrorConfluence.DeliveriesTrack | ui/src/ipc/revisionedMirror.ts:86-168 | after any deliveries, overflow included, the revision was reached along what was sent and everything sent is applied, held or known to be lost |
| MirrorConfluence.DeliveriesSettle | ui/src/ipc/revisionedMirror.ts:86-168 | any deliveries at all lead to the one place their set determines, the newest snapshot and then the events that follow without a break, or the mirror knows of a loss still to come |
| MirrorConfluence.NothingLostIff | ui/src/ipc/revisionedMirror.ts:144-151 | nothing is ever let go if and only if no point of the delivery leaves more than 4096 events waiting, however many are sent |
| MirrorConfluence.NothingLostAfter | ui/src/ipc/revisionedMirror.ts:107-151 | nor is anything lost at the end where that holds from some snapshot at least as new as everything before it, whatever overflowed earlier |
| MirrorConfluence.SettlesOnce | ui/src/ipc/revisionedMirror.ts:86-168 | there is only one such place |
| MirrorConfluence.OrderDoesNotMatter | ui/src/ipc/revisionedMirror.ts:86-168 | the same messages in any order, any number of times each, give the same revision, state and held events, unless one order leaves a loss |
| MirrorConfluence.CompleteDeliveryArrives | ui/src/ipc/revisionedMirror.ts:86-168 | events 1 to n and a snapshot no newer than n, for every n, in any order and over any overflow, end at revision n with the core's state if and only if no gap is seen |
| MirrorRuns.StepStillRecovering | ui/src/ipc/revisionedMirror.ts:186-251 | a step that adds nothing to the record leaves an attempt where it is, unless it disposes |
| Protocol.Forwarder.Turn | src-tauri/src/startup.rs:303-426 | one turn of the loop forwards, skips, or after a lag resubscribes and sends the whole state; it brings the popups up to date where it should, and ends where an update is being installed |
| Protocol.EmitSafe | crates/faf-app/src/runtime/mod.rs:230-262 | a reduced and numbered event keeps the whole system safe |
| Protocol.BroadcastSafe | crates/faf-app/src/runtime/mod.rs:275-287 | so does its broadcast after the state guard is gone, when a snapshot may already contain it |
| Protocol.ForwardSafe | src-tauri/src/startup.rs:303-426 | so does a turn of the forwarder, delivered or not |
| Protocol.HearSafe | ui/src/ipc/revisionedMirror.ts:86-105 | so does a message arriving |
| Protocol.AnswerSafe | ui/src/ipc/revisionedMirror.ts:204-251 | so does a pulled snapshot, however late, for the first load or for an attempt |
| Protocol.ActSafe | src-tauri/src/startup.rs:303-426 | every action keeps it |
| Protocol.RunsAreSafe | src-tauri/src/startup.rs:303-426 | every reachable system is safe |
| Protocol.StateIsFold | crates/faf-app/src/runtime/mod.rs:230-288 | the core's state at revision r is the fold of its first r events |
| Protocol.WindowShowsCoreState | ui/src/ipc/revisionedMirror.ts:86-168 | in every interleaving a window at revision r shows the core's state at r, the fold of the first r events |
| Protocol.WindowNeverGoesBack | ui/src/ipc/revisionedMirror.ts:86-168 | between any two points of a run the revision does not fall, and nothing changes after disposal |
| Protocol.QuietWindowIsCurrentOrKnows | src-tauri/src/startup.rs:380-422 | with nothing on its way, a window that was sent the newest revision is exactly current or knows of its gap and is recovering or has reported |
| Protocol.AnsweredRecoveryIsCurrent | ui/src/ipc/revisionedMirror.ts:204-251 | a recovery answered with the present state leaves the window current and without a gap |
| Protocol.RecoveriesArePaced | ui/src/ipc/revisionedMirror.ts:186-251 | in every run requests are spaced, failures back off by one, two and four seconds, which is exactly when the timer is due, and reports come exactly after four failures in a row |
| Protocol.GapIsRecoveredOrReported | ui/src/ipc/revisionedMirror.ts:186-251 | in every run a gap left by a fresh message or by the first snapshot is being recovered, or its failure was reported since, for as long as it lasts |
| Protocol.RunsReceivePast | crates/faf-app/src/runtime/mod.rs:660-670 | nothing newer than the core's own revision is ever received |
| ProtocolOrder.EventsComeInOrder | src-tauri/src/startup.rs:303-426 | in every run the window hears the core's events in ascending order and none twice, whatever is lost or resent as a snapshot |
| ColumnFits.ResolveColumnWidths | ui/src/shared/tableColumns.ts:39-49 | a usable stored width wins, rounded to whole pixels and at least one; others fall back; for stored arrays of any length |
| ColumnFits.WithFlexibleBounded | ui/src/shared/tableColumns.ts:62-69 | the flexible column ends at its width or at the bound, whichever is less; no other column changes |
| ColumnFits.FlexibleBoundIsNearest | ui/src/shared/tableColumns.ts:62-69 | the bound is two and a half times the designed width, to the nearest pixel |
| ColumnFits.OverflowScale | ui/src/shared/tableColumns.ts:165-176 | the largest scale up to 1 at which every column is at its floor |
| ColumnFits.ScaleIsUnique | ui/src/shared/tableColumns.ts:152-201 | only one scale makes the columns fill the space |
| ColumnFits.FitIsUnique | ui/src/shared/tableColumns.ts:152-201 | widths, floors and space determine the fit |
| ColumnFits.FitColumns | ui/src/shared/tableColumns.ts:152-201 | the loop ends in that fit; its scale falls strictly every round |
| ColumnFits.HoldAndRescale | ui/src/shared/tableColumns.ts:177-192 | the loop ends, with exactly the columns under their floor held and the space spent |
| ColumnFits.FitRound | ui/src/shared/tableColumns.ts:177-192 | a round divides by a positive width, lowers the scale, and either holds another column or has solved the equation |
| ColumnFits.Shares | ui/src/shared/tableColumns.ts:179-185 | sums the held floors and the free widths |
| ColumnFits.HoldBelow | ui/src/shared/tableColumns.ts:186-192 | holds exactly the columns whose share is under their floor, and says whether any was new |
| ColumnFits.RoundLeavesFree | ui/src/shared/tableColumns.ts:177-192 | after a round that held something a free column of positive width is left |
| ColumnFits.StableScaleSolves | ui/src/shared/tableColumns.ts:177-192 | when nothing new is held the scale solves the equation and is below 1 |
| ColumnFits.DrawnTotals | ui/src/shared/tableColumns.ts:152-201 | every column is at least its floor, the total exceeds the space only on overflow, and rounding loses less than a pixel per free column |
| ColumnFits.WithSpareRoom | ui/src/shared/tableColumns.ts:229-253 | computes the shared widths, dividing by a positive total |
| ColumnFits.SpareRoomIsShared | ui/src/shared/tableColumns.ts:229-253 | sharing never overfills, leaves flexible and fixed columns alone after the top-up, stops at the limit and shrinks no whole-pixel column |
| ColumnFits.SpareRoomIsSpent | ui/src/shared/tableColumns.ts:229-253 | how wide every column ends: topped up from the spare room, and each sharing one at the whole part of the lesser of its share and two and a half times its width |
| ColumnDividers.WithBoundaryTraded | ui/src/shared/tableColumns.ts:266-284 | the in-place trade on a copy computes the traded widths |
| ColumnDividers.DividerFollowsDrag | ui/src/shared/tableColumns.ts:252-284 | the left neighbour gains what the right one loses, both from their widths lifted to their rounded-up floors: of the whole moves both can afford, the nearest to the drag rounded, which is the drag itself where both can afford it |
| ColumnDividers.DraggedIsUnique | ui/src/shared/tableColumns.ts:252-284 | only one list of widths is where a drag leaves the divider |
| ColumnDividers.DividerIsMonotone | ui/src/shared/tableColumns.ts:252-284 | a drag further right never leaves the left neighbour narrower or the right one wider |
| ColumnDividers.FitScalePositive | ui/src/shared/tableColumns.ts:152-201 | the scale of every fit is positive and at most 1, so a drag's stored floors are always defined |
| ColumnDividers.TradeFacts | ui/src/shared/hooks/useColumnWidths.ts:140 | after any drag both neighbours are at or above their stored floors and their sum is that of where they started |
| ColumnDividers.DividerMovesNothingElse | ui/src/shared/tableColumns.ts:266-284 | with both neighbours at or above their floors any drag keeps their sum, the scale, the overflow and every other drawn column |
| ColumnDividers.DividerMovesNothingElseIff | ui/src/shared/tableColumns.ts:266-284 | in every list, sum, scale, overflow and every other drawn column are kept if and only if both neighbours are at or above their rounded-up floors |
| ColumnDividers.TradeKeepsScaleIffHolds | ui/src/shared/tableColumns.ts:266-284 | in proportion, the scale is kept if and only if lifting moves neither neighbour |
| ColumnDividers.TradeNeverRaisesScale | ui/src/shared/tableColumns.ts:266-284 | in proportion, a trade never raises the scale |
| ColumnDividers.ScreenUnmovedIff | ui/src/shared/tableColumns.ts:261-284 | in proportion, the other columns stay on the screen, rounding included, if and only if the traded widths leave each the scale its drawn width needs |
| ColumnDividers.RoomyTradeIff | ui/src/shared/tableColumns.ts:261-284 | with room for all, the scale stays 1 if and only if the lifted columns still fit, and the others stay if and only if that is so or none is above its floor |
| ColumnDividers.OverflowScreenUnmoved | ui/src/shared/tableColumns.ts:164-169 | in an overflowing list no drag changes anything drawn |
| ColumnDividers.FitDrawsIff | ui/src/shared/tableColumns.ts:172-200 | what a fit in proportion draws, by the room each drawn width leaves, without solving for the scale |
| ColumnDividers.LiftChangesNothingIff | ui/src/shared/tableColumns.ts:261-284 | a divider that is not moved leaves every drawn column as it was, its neighbours included, exactly under the stated condition, in every list |
| ColumnDividers.NaturalKeptIff | ui/src/shared/tableColumns.ts:261-284 | with room for all, lifting changes no drawn width if and only if it moves neither neighbour |
| ColumnDividers.LiftMovesItsNeighbour | ui/src/shared/tableColumns.ts:261-284 | two columns, one divider that is not moved, and a pixel lost by the column that was not lifted |
| ColumnDividers.TradeKeepsSumIffAbove | ui/src/shared/tableColumns.ts:266-284 | the stored widths keep their sum if and only if neither neighbour is lifted |
| ColumnDividers.LiftMovesAnotherColumn | ui/src/shared/tableColumns.ts:261-284 | a drag of nothing that changes another column |
| Filters.FilterOrder | src-tauri/src/notification_popup.rs:246-263 | a retain keeps exactly what it should, in order, each as often as it was there |
| Filters.Retain | src-tauri/src/notification_popup.rs:246-263 | the loop that retains in place |
| PopupQueues.EnqueuedKeeps | src-tauri/src/notification_popup.rs:162-201 | enqueueing keeps ids distinct, at most 53 cards, only previews held, and none held once a live card came |
| PopupQueues.PrioritizedKeeps | src-tauri/src/notification_popup.rs:203-223 | prioritizing is a sequence of moves to the front that loses and gains no card |
| PopupQueues.LastImmediateIsVisible | src-tauri/src/notification_popup.rs:203-223 | the last urgent card is visible afterwards, in front where it waited and else where the earlier ones left it |
| PopupUrgency.UrgentVisibleIff | src-tauri/src/notification_popup.rs:203-223 | an urgent card is visible in the end if and only if its place after its last turn plus the later ids that waited at theirs is under three |
| PopupUrgency.UrgentVisibleFromStart | src-tauri/src/notification_popup.rs:203-223 | the same, read off the queue before anything moves |
| PopupUrgency.AllUrgentVisibleIff | src-tauri/src/notification_popup.rs:203-223 | all queued urgent cards are visible if and only if at most three must be moved and none of the others is pushed off by them |
| PopupUrgency.AdmissionShowsUrgentIff | src-tauri/src/notification_popup.rs:63-119 | so it is after every admission |
| PopupUrgency.FoundMatchCanWait | src-tauri/src/notification_popup.rs:63-119 | two found matches admitted to an empty queue behind two other notices: the first is queued and not shown |
| PopupQueues.RestShowsFirst | src-tauri/src/notification_popup.rs:225-238 | the visible cards are the first of the list, up to three |
| Popups.PopupQueue.Promote | src-tauri/src/notification_popup.rs:225-238 | fills the visible places and changes nothing about the list |
| Popups.PopupQueue.RetainCards | src-tauri/src/notification_popup.rs:246-263 | filters the list, visible and waiting alike |
| Popups.PopupQueue.Remove | src-tauri/src/notification_popup.rs:240-244 | takes out one id and nothing else |
| Popups.PopupQueue.Refresh | src-tauri/src/notification_popup.rs:265-277 | prunes, and numbers a new batch exactly when the page would see a difference |
| Popups.PopupQueue.RetainActivations | src-tauri/src/notification_popup.rs:129-132 | clicks of another owner go |
| Popups.PopupQueue.NextActivation | src-tauri/src/notification_popup.rs:137-147 | drops the acknowledged click and another owner's, and returns the oldest left |
| Popups.PopupQueue.Reconcile | src-tauri/src/notification_popup.rs:149-155 | clicks and cards are brought under the core's present state |
| Popups.PopupQueue.PutCard | src-tauri/src/notification_popup.rs:162-201 | replaces a card where it stands, visible or waiting, or appends it |
| Popups.PopupQueue.CountNew | src-tauri/src/notification_popup.rs:162-201 | counts each new id once |
| Popups.PopupQueue.DropHeld | src-tauri/src/notification_popup.rs:162-201 | held previews leave the list, nothing else does |
| Popups.PopupQueue.Enqueue | src-tauri/src/notification_popup.rs:162-201 | refuses and changes nothing when the limit would be passed, else puts every card in |
| Popups.PopupQueue.PrioritizeOne | src-tauri/src/notification_popup.rs:203-223 | a waiting card moves to the front; the displaced visible card waits first in line |
| Popups.PopupQueue.Prioritize | src-tauri/src/notification_popup.rs:203-223 | the loop over the urgent ids |
| Popups.PopupQueue.Admit | src-tauri/src/notification_popup.rs:63-119 | rechecks the cards under the present state, then prunes, enqueues and brings the urgent forward, or refuses |
| Popups.PopupQueue.Touch | src-tauri/src/notification_popup.rs:768-800 | an interaction applies only to a card visible before and after reconciling, or to the expiry of a waiting one |
| Popups.PopupQueue.Interact | src-tauri/src/notification_popup.rs:768-872 | clicks, dismissals and expiries, with every refusal leaving card and clicks as they were |
| PopupRuns.AdmittedSound | src-tauri/src/notification_popup.rs:63-119 | no card is admitted beside a waiting click of its own |
| PopupRuns.InteractedSound | src-tauri/src/notification_popup.rs:768-872 | every interaction keeps the ids distinct and the waiting clicks apart from the queued cards |
| PopupRuns.StepKeeps | src-tauri/src/notification_popup.rs:61-278 | every step keeps the invariants, and neither batch number nor confirmation goes back |
| PopupRuns.RunsAreSound | src-tauri/src/notification_popup.rs:61-278 | in every run ids are distinct, at most 53 cards and 53 clicks, clicks apart from cards, and no confirmation ahead of the newest batch |
| PopupRuns.ClickLeavesOnlyHandled | src-tauri/src/notification_popup.rs:129-147 | a click leaves only by acknowledgement or a change of owner |
| PopupRuns.OnScreenWasConfirmed | src-tauri/src/notification_popup.rs:353-362 | a display attempt counts as on screen only after the size of a batch at least that new was confirmed after the attempt |
| PopupRuns.OnScreenIff | src-tauri/src/notification_popup.rs:635-701 | in every run a batch counts as on screen if and only if the page has confirmed the size of it or a newer one, while that was the newest and had a card, and has drawn it or a newer one |
| PopupRuns.DisplayNumbersIff | src-tauri/src/notification_popup.rs:585-602 | an attempt numbers a new batch if and only if one of its cards is still queued |
| PopupAdmission.PreviewIff | src-tauri/src/notification_popup.rs:18-27 | which ids are previews' |
| PopupAdmission.EligibleIff | src-tauri/src/notification_popup.rs:282-307 | a notification gets a popup if and only if popups are on, it is unread, and its kind is wanted, by the player's choice or else by default |
| PopupAdmission.ImmediateIff | src-tauri/src/notification_popup.rs:99-113 | the urgent ids are exactly those of found matches, full games and party invitations |
| PopupAdmission.ReconciledShowsIff | src-tauri/src/notification_popup.rs:149-155 | bringing the queue up to date keeps exactly the previews and the wanted cards, and numbers a new batch if and only if the page would see other cards or another duration |
| PopupAdmission.EnqueuedBrings | src-tauri/src/notification_popup.rs:162-201 | the cards there keep their places, held previews make way for a live card, and every card of the batch is there as it came last, the new ones at the end in the order they came |
| PopupAdmission.AdmissibleIff | src-tauri/src/notification_popup.rs:63-93 | a live card is let in if and only if its notification gets a popup and the player has no click on it waiting |
| PopupAdmission.AdmittedIff | src-tauri/src/notification_popup.rs:63-119 | when an admission shows nothing, when it is refused, and that otherwise every card it lets in is queued |
| PopupClicks.LiveClickIsQueuedIff | src-tauri/src/notification_popup.rs:768-850 | a click on a live card that was seen joins the end of the player's clicks, takes its card away and opens the client, if and only if fewer than 53 wait; else it is refused |
| PopupClicks.FocusClickIff | src-tauri/src/notification_popup.rs:812-821 | a click that focuses the game takes its card away if and only if the core focused it and took the mark, and is never queued |
| PopupClicks.OtherInteractions | src-tauri/src/notification_popup.rs:768-850 | every other interaction: which are refused, which do nothing, which take the card away; none queues a click |
| PopupClicks.AcceptedClickIsReturned | src-tauri/src/notification_popup.rs:134-147 | in every run an accepted click is given to the page once those ahead of it are acknowledged, while the same player stays signed in |
| RollingLogs.RollingAppender.constructor | src-tauri/src/diagnostics.rs:87-118 | a start opens the newest log of the day and prunes |
| RollingLogs.RollingAppender.ExistingMax | src-tauri/src/diagnostics.rs:225-247 | finds the newest segment of a date |
| RollingLogs.RollingAppender.OpenLatest | src-tauri/src/diagnostics.rs:120-138 | opens it, or the next one when it is full |
| RollingLogs.RollingAppender.RotateIfNeeded | src-tauri/src/diagnostics.rs:140-159 | a new date or a full log opens another and prunes; otherwise nothing changes |
| RollingLogs.RollingAppender.FindOldest | src-tauri/src/diagnostics.rs:161-179 | finds the log with the oldest stamp that is not the current one |
| RollingLogs.RollingAppender.PruneOldFiles | src-tauri/src/diagnostics.rs:161-179 | removes the oldest, never the current one, down to the limit |
| RollingLogs.RollingAppender.Write | src-tauri/src/diagnostics.rs:186-195 | rotates, then appends what fits and what the file takes |
| RollingLogRuns.StartKeeps | src-tauri/src/diagnostics.rs:87-138 | a start keeps the directory within its limits and its logs in order |
| RollingLogRuns.StartOpens | src-tauri/src/diagnostics.rs:120-138 | a start reopens the newest log of the day if and only if it has room, and otherwise opens the next one, empty, unless there is none |
| RollingLogRuns.RotateKeeps | src-tauri/src/diagnostics.rs:140-179 | so does a rotation; what is dropped is the oldest |
| RollingLogRuns.RotatesIff | src-tauri/src/diagnostics.rs:140-159 | a write stays in its log until the day changes or the log is full, and then goes to a new, empty one |
| RollingLogRuns.WriteKeeps | src-tauri/src/diagnostics.rs:186-195 | so does a write; what it took comes after everything written before |
| RollingLogRuns.WritePutsWhatFits | src-tauri/src/diagnostics.rs:186-195 | as much of the buffer as the limit and the file take goes behind what the current log held, and no other log changes |
| RollingLogRuns.WriteProgresses | src-tauri/src/diagnostics.rs:140-195 | a write takes nothing if and only if the last segment of the day is full |
| RollingLogRuns.SaturatedLogStalls | src-tauri/src/diagnostics.rs:140-195 | a directory in that state, within every limit |
| RollingLogRuns.WriteAll | src-tauri/src/diagnostics.rs:186-195 | the loop over a whole buffer ends, with all of it written unless that segment is full |
| RollingLogRuns.SurvivorsAreTheEnd | src-tauri/src/diagnostics.rs:87-195 | in every run no log is over the limit, the current one is among at most the allowed number, and the survivors joined are the end of everything written |
| RollingLogRuns.WrittenOnlyGrows | src-tauri/src/diagnostics.rs:186-195 | what was written or dropped is never rewritten |
| LogNames.NameRoundTrip | src-tauri/src/diagnostics.rs:206-247 | a name gives back its segment under its own date and nothing under any other |
| LogNames.DecimalRoundTrip | src-tauri/src/diagnostics.rs:206-219 | a segment number reads back as written |
| ColorMath.NormalizeHex | ui/src/design-system/colorMath.ts:19-25 | a normal spelling is a hash and six lower-case digits |
| ColorMath.NormalizesIff | ui/src/design-system/colorMath.ts:19-25 | exactly three or six digits of either case, with or without a hash, between spaces, have a normal spelling |
| ColorMath.SpellingNormalizes | ui/src/design-system/colorMath.ts:19-25 | which six digits that is: each in lower case, or each of three twice |
| ColorMath.NormalizeIsIdempotent | ui/src/design-system/colorMath.ts:19-25 | the normal spelling is its own |
| ColorMath.HsvInRange | ui/src/design-system/colorMath.ts:27-43 | hue, saturation and value land in their ranges |
| ColorMath.GreyHasNoHue | ui/src/design-system/colorMath.ts:27-43 | every grey, black included, has no hue and no saturation |
| ColorMath.HueWraps | ui/src/design-system/colorMath.ts:45-60 | a hue any number of turns away, in either direction, gives the same colour |
| ColorMath.RgbRoundTrip | ui/src/design-system/colorMath.ts:27-60 | every colour is returned exactly, through all six sectors and the ties between them |
| ColorMath.HsvRoundTrip | ui/src/design-system/colorMath.ts:27-60 | every hue, saturation and value with a hue of its own is read back exactly |
| ColorMath.HexRoundTrip | ui/src/design-system/colorMath.ts:19-60 | picking and writing back gives the normal spelling, and black for what is no colour |
| MapZoom.ClampIsNearest | ui/src/shared/mapZoom.ts:43-51 | a pan ends at the covered offset nearest to where it was heading |
| MapZoom.PanEndsNearest | ui/src/shared/mapZoom.ts:115-125 | a pan ends, along each axis, at the covered offset nearest to the old one plus the delta |
| MapZoom.ZoomEndsNearest | ui/src/shared/mapZoom.ts:61-74 | any zoom ends at the covered offsets nearest to those that hold the point |
| MapZoom.WheelGoesTo | ui/src/shared/mapZoom.ts:100-113 | a wheel turn multiplies the scale, within the range, and snaps to the whole map below 1.02 |
| MapZoom.ZoomCovers | ui/src/shared/mapZoom.ts:61-74 | every zoom leaves the scale in range and the viewport covered |
| MapZoom.RunsStayCovered | ui/src/shared/mapZoom.ts:37-125 | so does every sequence of zooms, steps, wheel turns, pans and resets |
| MapZoom.ZoomInHoldsPoint | ui/src/shared/mapZoom.ts:61-74 | zooming in at a point of the viewport is never clamped and keeps the map point under it |
| MapZoom.ZoomsInCompose | ui/src/shared/mapZoom.ts:61-74 | two zooms in at one point are one |
| MapZoom.ZoomBackRestores | ui/src/shared/mapZoom.ts:61-74 | zooming back to the old scale at that point restores the view exactly |
| MapZoom.TargetsAreNeighbours | ui/src/shared/mapZoom.ts:79-95 | steps lead to neighbouring presets |
| MapZoom.StepReversesIff | ui/src/shared/mapZoom.ts:79-95 | a step in and one out restore the view if and only if it was at a preset below the largest |
| MapZoom.StepOutReversesIff | ui/src/shared/mapZoom.ts:79-95 | a step out and one in restore the view if and only if it was at a preset above the smallest and the step out needed no clamp on either axis |
| MapZoom.StepsOutReverseIff | ui/src/shared/mapZoom.ts:79-95 | n steps out and n in restore the view if and only if they come back to its preset and holding the point all the way out needs no clamp |
| MapZoom.OffPresetNeverReturns | ui/src/shared/mapZoom.ts:79-95 | away from the presets no number of steps, in either order, restores the view |
| MapZoom.StepsWalkPresets | ui/src/shared/mapZoom.ts:79-95 | n steps move n presets and stop at the ends |
| MapZoom.StepsReverseIff | ui/src/shared/mapZoom.ts:79-95 | n steps in and n out restore the view if and only if the walk stays within the presets or starts at the smallest |
| MapZoom.ZoomOutBackIff | ui/src/shared/mapZoom.ts:61-74 | zooming out and back at a point restores the view if and only if the zoom out needed no clamp |
| MapZoom.WheelOutReversesIff | ui/src/shared/mapZoom.ts:100-113 | a wheel turn out and back restores the view if and only if the scale comes back and the turn out needed no clamp |
| MapZoom.WheelReversesIff | ui/src/shared/mapZoom.ts:100-113 | a wheel turn in and back restores the view if and only if neither the largest scale nor the snap came between |
| Overlays.FindAncestor | ui/src/design-system/overlayStack.ts:54-59 | the loop over parents decides descent |
| Overlays.OverlayStack.Push | ui/src/design-system/overlayStack.ts:72-76 | a layer goes on top, or under the first layer opened from it |
| Overlays.OverlayStack.Undo | ui/src/design-system/overlayStack.ts:76-80 | takes the lowest opening of the layer off, if any |
| Overlays.OverlayStack.TopFocusTrap | ui/src/design-system/overlayStack.ts:94-99 | the highest layer that traps focus, if any |
| Overlays.OverlayStack.HandleKey | ui/src/design-system/overlayStack.ts:113-121 | Escape goes to the topmost layer, unless composing, handled already, or nothing is open |
| Overlays.RunsKeepOrder | ui/src/design-system/overlayStack.ts:72-80 | over any pushes and undos no layer is above its own descendant |
| Overlays.EscapeReachesLeaf | ui/src/design-system/overlayStack.ts:94-121 | in every run neither Escape's layer nor the focus trap's has an open descendant it would skip |
| Overlays.OthersKeepTheirOrder | ui/src/design-system/overlayStack.ts:72-80 | layers nothing is done to keep their order through every run |
| Overlays.UndoRestoresIff | ui/src/design-system/overlayStack.ts:72-80 | a push and its undo restore the stack if and only if no other layer lies between two openings of the same one |
| Overlays.AncestorHarmlessIff | ui/src/design-system/overlayStack.ts:72-80 | an ancestor opened while a layer is open goes where it would have gone without it if and only if nothing but that ancestor lies between the two places |
| Overlays.LateUndo | ui/src/design-system/overlayStack.ts:72-80 | a layer closed late leaves the stack as if it had never been opened, if every ancestor opened meanwhile was harmless in that sense |
| Overlays.OthersAreHarmless | ui/src/design-system/overlayStack.ts:72-80 | layers that are no ancestors of it always are |
| Overlays.HarmStays | ui/src/design-system/overlayStack.ts:72-80 | an ancestor that is not stays too low for good, whatever else comes and goes, while it and a layer it went under are left alone |
| WindowLife.Client.constructor | src-tauri/src/webview_recovery.rs:212-217 | at a start the first window is on its way, maximised or not |
| WindowLife.Client.OnActivated | src-tauri/src/webview_recovery.rs:141-150 | the pending maximised state is taken up once |
| WindowLife.Client.Show | src-tauri/src/webview_recovery.rs:129-136 | shows, and activates only when asked for |
| WindowLife.Client.StateNow | src-tauri/src/webview_recovery.rs:188-209 | standing, coming or missing |
| WindowLife.Client.Rebuild | src-tauri/src/webview_recovery.rs:386-428 | starts one build unless one is on its way |
| WindowLife.Client.OpenWhenStanding | src-tauri/src/webview_recovery.rs:221-229 | keeps the Open, and builds when nothing is on its way |
| WindowLife.Client.RestoreMainWindow | src-tauri/src/tray.rs:29-46 | ends the waiting, then shows the window or keeps the Open |
| WindowLife.Client.HideToTray | src-tauri/src/exit.rs:168-180 | waits, hides, and forgets an earlier Open |
| WindowLife.Client.OnCloseRequest | src-tauri/src/exit.rs:108-191 | exits exactly outside a game, hides exactly in one with the setting on and not waiting yet, and else asks: through the page exactly from the window with the page ready, natively without touching anything |
| WindowLife.Client.OnMainPageLoad | src-tauri/src/webview_recovery.rs:241-256 | the window stands; a kept Open is carried out, a rebuilt window is shown unless the client waits |
| WindowLife.Client.OnPageReady | src-tauri/src/webview_recovery.rs:432-436 | the page asks from here on, and the last window may close again |
| WindowLife.RecoveryCap.Allow | src-tauri/src/webview_recovery.rs:154-167 | the loop forgets exactly the recoveries out of the span at the front and counts this one if fewer than three are left |
| WindowLife.Client.OnRendererExited | src-tauri/src/webview_recovery.rs:303-320 | the page is gone and is reloaded within the cap |
| WindowLife.Client.OnBrowserExited | src-tauri/src/webview_recovery.rs:321-354 | within the cap the broken window is closed to be built again, and the flags are taken back when it cannot be closed |
| WindowLife.Client.OnMainDestroyed | src-tauri/src/webview_recovery.rs:361-368 | a window closed to be built again is built |
| WindowLife.KeptIsSuffix | src-tauri/src/webview_recovery.rs:154-167 | what the cap keeps is the recent end, and all it forgets is out of the span |
| WindowLife.Watch | src-tauri/src/exit.rs:243-288 | exits at the first look ending a stretch of waiting outside a game of three seconds with no replay pending, or of seventy-five |
| WindowRuns.RunsAreDiscreet | src-tauri/src/exit.rs:159-191 | in every run a client waiting for its game has no Open kept and no visible window |
| WindowRuns.RecoveryNeverShows | src-tauri/src/webview_recovery.rs:110-120 | no crash, rebuild, page load or Quit shows a waiting client before it is opened |
| WindowRuns.CloseExitsIff | src-tauri/src/exit.rs:108-191 | in every run a close request ends the client if and only if no game is on |
| WindowRuns.ExitsIff | src-tauri/src/exit.rs:108-191 | a run ends only by a close outside a game, by the last window closing with nothing to come, or by the native dialog confirmed |
| WindowRuns.FirstCloseHides | src-tauri/src/exit.rs:108-191 | in every run the first close in a game with the setting on leaves the client waiting and off the screen until it is opened |
| WindowRuns.LaterCloseAsks | src-tauri/src/exit.rs:108-191 | a further close while it waits never ends it, and leaves it waiting as it is unless the page is there to ask |
| WindowRuns.OpenActs | src-tauri/src/tray.rs:29-46 | an Open shows the window or leaves one on its way with the Open kept, building one exactly when none was coming |
| WindowRuns.CrashAsksNatively | src-tauri/src/exit.rs:72-84 | from a crash until a page is ready every close that asks, asks natively |
| WindowRuns.OpenIsHonoured | src-tauri/src/webview_recovery.rs:221-256 | a kept Open is carried out by the next page load, through any crashes before it |
| WindowRuns.AllowsIff | src-tauri/src/webview_recovery.rs:154-167 | a recovery is refused if and only if three were accepted in the last five minutes |
| WindowRuns.RecoveriesAreSpaced | src-tauri/src/webview_recovery.rs:154-167 | in every run any four accepted recoveries span more than five minutes |
| WindowRuns.RebuildKeepsClient | src-tauri/src/webview_recovery.rs:441-453 | from the crash until a page is ready or a window crashes that cannot be closed, the last window closing does not end the client, after a failed build too |
| WindowRuns.CrashComesBack | src-tauri/src/webview_recovery.rs:321-428 | a closed broken window starts exactly one build that owes what the old one showed |
| WindowRuns.RebuiltWindowShows | src-tauri/src/webview_recovery.rs:241-256 | the rebuilt window is shown unless the client waits, and maximised only by an Open or a focus |
| WindowFlags.NextFlags | src-tauri/src/webview_recovery.rs:212-453 | what every step does to the flags: when a build begins and ends, when the page can ask, when the client is kept up, when a rebuild is due, when a window stands |
| WindowFlags.StandsOnlyLoaded | src-tauri/src/webview_recovery.rs:212-256 | after a crash or the start of a build no window counts as standing before a page has loaded since |
| WindowFlags.ReloadShowsNothing | src-tauri/src/webview_recovery.rs:241-256 | what a page load owed is carried out once: a reload leaves the window as it is |
| WindowMaximize.MaximizedIsOwedIff | src-tauri/src/webview_recovery.rs:321-428 | in every run, the maximised state is owed to the window if and only if the latest build was the first since the crash of a maximised one and nobody has brought the window forward since |
| WindowMaximize.OwedIsReached | src-tauri/src/webview_recovery.rs:321-428 | a run from a start that owes it |
| WindowMaximize.FirstActivationMaximizesIff | src-tauri/src/webview_recovery.rs:141-150 | the player's first touch after a maximised window crashed and closed, by bringing one forward, maximises it if and only if no further build was started in between |
| WindowMaximize.WaysToBuildAgain | src-tauri/src/webview_recovery.rs:361-428 | a failed build, a timed-out one and another closed window each lead to a further build |
| WindowMaximize.CrashAloneKeepsMaximized | src-tauri/src/webview_recovery.rs:321-354 | a further crash without one does not forget it |

## Left out

- Tauri, WebView2, dialogs, tray icon, window positions and sizes, and the file system beyond a map of logs.
- The slice reducers, commands, lobby, replay and map code behind the core.
- Popup placement, its timers and the retry loop around a display attempt: an attempt is one step, and its outcome is
  whatever the page's two confirmations say.
- The overlay stack's `contains` and focus restoration, which need a DOM.
- The clipping of the wheel's delta and its exponential: the factor is any positive number.
- `columnTemplate`, `gridColumnSpace` and `drawnColumnWidth`, which read or write CSS.
- Markdown, links, preferences and path policies: long but easy, or a regular-expression engine.
- Events of a signed-out account's leftover work, which the core drops before reducing them: no step of the protocol.
- Errors of opening, reading or removing a log: the appender passes them on.
- Protocol.WindowShowsCoreState: the fold is stated for revisions none of which repaired a poisoned lock; the damaged
  state itself is still shown exactly.
- ColumnDividers.DividerMovesNothingElse: asks both neighbours to be at or above their rounded-up stored floors, because
  the code moves other columns otherwise; the exact condition is its neighbour in the table.
- RollingLogRuns.WriteAll: does not promise the whole buffer once the last 32-bit segment of a day is full.
- WindowRuns.RebuildKeepsClient: stops at a later crash within the cap whose broken window cannot be closed, where the
  code drops the guard.
- Overlays.LateUndo: is the one direction over runs; Overlays.HarmStays is the other, as long as the ancestor and a layer it
  went under stay, because closing them can make the two stacks equal again.
- RollingLogs.RollingAppender.PruneOldFiles: removes the oldest log again and again, where the code sorts once; with
  distinct stamps both remove the same logs.
