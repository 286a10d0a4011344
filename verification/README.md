# KWin state machines

A Dafny model of five groups of cooperating state machines in KWin, with proofs of what they keep over whole runs.

- **Gestures** (`Gestures`, `GestureRuns`, `BorderSwipes`, `TouchFilter`, `Shortcuts`): the swipe and pinch recognizer with its
  two-pass cancel-and-restart update and its started/progress/triggered/cancelled signals; the touchscreen automaton that
  drives it; the table of global shortcuts that owns its gestures.
- **Focus** (`FocusChain`, `FocusHistory`, `FocusQueue`): the most-recently-used chain and the chains of the virtual
  desktops, edited in place; the queue of focus requests that KWin has sent to the X server and the FocusIn events that
  answer them.
- **Effects** (`PaintChain`, `SupportProperties`, `LoadQueue`): the re-entrant paint chain; the registry of support
  properties with its delayed deletion across two classes; the queue that loads effects from the event loop.
- **The X11 compositor** (`Compositor`): suspend reasons, state, selection ownership, release timer.
- **The debug console's index** (`DebugIndex`): a three-level tree packed into one number per node.

`Sequences` holds shared facts about lists. Objects that change their fields are classes. Each method is proved equal to
a function on the object's state as a value (`State()`, `Chains()`, `Its()`, `TheLife()`), and the results over runs are
proved about these functions; a run is a sequence of operations, folded over the same functions. Emitted signals,
commands, painted events and invocations are kept in ghost logs.

## What the proofs found

Some natural statements do not hold of the code as they stand. Each has a counterexample, and a lemma that says exactly
when the statement holds.

- *The two-pass elimination is a plain filter.* A gesture with all four start bounds set is exempt from elimination, so
  the law holds for all movements exactly if no admitted gesture has all four (`GestureRuns.EliminationIsFilterExactly`,
  `GestureRuns.FourSidedBreaksFilter`). Pinches have no such exception (`GestureRuns.PinchEliminationIsFilter`). For every
  configuration and every start, `BorderSwipes.ActiveSinceLastStart` gives the active gestures.
- *A triggered gesture has moved in its own direction.* A gesture with four start bounds that an update did not cancel is
  judged by the length of the movement alone and may be triggered by one against its direction. For an admitted gesture
  with a minimum the statement holds exactly if it has not all four start bounds (`BorderSwipes.TriggeredAheadExactly`).
- *Every started gesture is triggered or cancelled once.* `endPinchGesture` clears active swipes without a signal
  (src/gestures.cpp:382), so starts and ends balance in a run exactly if no `endPinchGesture` meets an active swipe
  (`GestureRuns.ConservationExactly`, `GestureRuns.SwipeDroppedSilently`).
- *Touch filter and recognizer agree whether a swipe is open.* A touch cancel from outside during a gesture untracks the
  fingers but tells the recognizer nothing. They agree after every event exactly if no running gesture is cancelled from
  outside (`TouchFilter.InStepExactly`). After an interruption the recognizer still holds the old swipe and the next taken
  gesture starts nothing (`TouchFilter.InterruptionSwallowsNextStart`, `TouchFilter.InterruptedRun`).
- *KWin recognises its own focus changes.* A FocusIn that KWin did not ask for may pop requests that are still awaited.
  All later answers are recognised exactly if it pops none (`FocusQueue.HarmlessExactly`). Withdrawing a request and
  issuing it anew is enough to produce such an event: the late answer to the first request
  (`FocusQueue.LateAnswerDoesHarm`).
- *Suspend reasons may be lifted one by one.* A start attempt while still suspended stores the type "none" with the
  configuration service, so lifting the last reason does not bring compositing back. Two steps work exactly if the first
  one already lifts every reason (`Compositor.ResumeInSteps`, `Compositor.ResumedInStepsStaysOff`).
- *An announced property is on the root window.* A request for an atom that is not answered is not repeated for the next
  effect that announces the name. No announced property is missing after a sweep exactly if every use of a name began
  with an answered request (`SupportProperties.AnnouncedIsPresentExactly`, `SupportProperties.UnansweredIsNeverSet`).
- *Progress is a number between 0 and 1.* It is the quotient 0/0 exactly if the minimum asks for nothing along the gesture's
  direction and nothing has moved along it (`GestureRuns.ProgressRange`, `GestureRuns.PinchProgressRange`).
- *A pinch that never moves triggers nothing.* A cancelled swipe leaves the scale 0 behind, and a pinch that ends without
  an update is judged by it. The statement holds for a registered gesture exactly if the scale left before the pinch is 1
  (`GestureRuns.UnmovedPinchExactly`, `GestureRuns.CancelledSwipeTriggersPinch`).
- *Ids of the debug console lead back to their nodes.* This holds for a window exactly if its row is below 10000, and for
  a property exactly if its number plus one is no multiple of 65536 (`DebugIndex.WindowRoundTripExactly`,
  `DebugIndex.PropertyRoundTripExactly`).

Where the code and its documentation disagree, the model follows the code.

- src/focuschain.h:62-67 says that an update moves the window to the first place if it is active and to the second otherwise.
  The code leaves a listed window where it is; it puts a new one second only if the active window is the chain's first,
  and first otherwise (src/focuschain.cpp:117-129). `FocusHistory.UpdateAsDocumentedExactly` says when the window ends up
  where it is documented to; `FocusHistory.UpdateNotAsDocumented` has two inputs for which it does not.
- The comment at src/activation.cpp:835-842 says that the extreme level gives no window the focus without user
  intervention. The code allows it if the rival is absent or unprotected (`FocusQueue.ExtremeExactly`).
- The same comment says that the high level gives focus within the active application only. The code lets windows of other
  applications in when the rival's protection is below medium, if they are newer or the rival is unprotected, and keeps
  windows of the same application out when it is above medium. `FocusQueue.HighExactly` says for every rival that is no
  desktop whether the promise holds.

## Model

| member | source | states |
|---|---|---|
| Gestures.SwipeGesture.SetStartGeometry | src/gestures.cpp:33-42 | all four start bounds are set, and the positions admitted are exactly those of the rectangle |
| Gestures.SwipeGesture.Admits | src/gestures.cpp:141-188 | the early exits of a start amount to: finger range, start rectangle and locked axis all fit |
| Gestures.SwipeGesture.IsEliminatedBy | src/gestures.cpp:244-251 | an update cancels a gesture of another direction unless all four start bounds are set |
| Gestures.PinchGesture.Admits | src/gestures.cpp:311-320 | the early exits of a start amount to: the finger range fits |
| Gestures.GestureRecognizer.constructor | src/gestures.h:217-226 | nothing registered, active or accumulated at first |
| Gestures.GestureRecognizer.RegisterSwipeGesture | src/gestures.cpp:91-97 | the gesture goes last, nothing else changes, no signal |
| Gestures.GestureRecognizer.UnregisterSwipeGesture | src/gestures.cpp:99-110 | the gesture leaves both lists; it is cancelled exactly if it was active |
| Gestures.GestureRecognizer.RegisterPinchGesture | src/gestures.cpp:112-118 | the same for pinches |
| Gestures.GestureRecognizer.UnregisterPinchGesture | src/gestures.cpp:120-131 | the same for pinches |
| Gestures.GestureRecognizer.StartSwipe | src/gestures.cpp:133-195 | when idle, exactly the admitted gestures become active, in registration order, each with a started signal, and their number is returned; otherwise only the finger count changes |
| Gestures.GestureRecognizer.StartSwipeGesture | src/gestures.cpp:569-572 | a start without position matches any start bounds |
| Gestures.GestureRecognizer.StartSwipeGestureAt | src/gestures.cpp:574-577 | a start from a position is a one-finger start |
| Gestures.GestureRecognizer.EraseSwipes | src/gestures.cpp:241-254 | erasing in place while walking leaves the filtered list and cancels exactly the others, in order |
| Gestures.GestureRecognizer.EliminateSwipes | src/gestures.cpp:235-255 | one pass: restart if nothing is active, then eliminate |
| Gestures.GestureRecognizer.EliminateSwipesTwice | src/gestures.cpp:234-255 | two passes, the second one starting from what the first leaves |
| Gestures.GestureRecognizer.PickDirection | src/gestures.cpp:199-232 | the delta accumulates, the axis is locked once a component reaches 5, the direction follows the locked or else dominant axis |
| Gestures.GestureRecognizer.SendSwipeProgress | src/gestures.cpp:257-261 | every active gesture reports its progress and the delta, in order |
| Gestures.GestureRecognizer.UpdateSwipeGesture | src/gestures.cpp:197-262 | new state and signals of a whole update: two passes over the locked axis, then progress |
| Gestures.GestureRecognizer.CancelActiveGestures | src/gestures.cpp:264-277 | every active gesture is cancelled, swipes first, and all accumulated state is dropped |
| Gestures.GestureRecognizer.CancelSwipeGesture | src/gestures.cpp:279-285 | all active gestures are cancelled and the finger count is dropped |
| Gestures.GestureRecognizer.EndSwipeGesture | src/gestures.cpp:287-301 | every active swipe is triggered or cancelled by the accumulated delta, which is then dropped |
| Gestures.GestureRecognizer.StartPinchGesture | src/gestures.cpp:303-328 | when idle, exactly the pinches for that many fingers become active, in registration order |
| Gestures.GestureRecognizer.ErasePinches | src/gestures.cpp:348-357 | erasing in place leaves the pinches of the direction and cancels exactly the others |
| Gestures.GestureRecognizer.EliminatePinches | src/gestures.cpp:343-358 | one pass: restart if nothing is active, then eliminate |
| Gestures.GestureRecognizer.EliminatePinchesTwice | src/gestures.cpp:342-358 | the same for pinches |
| Gestures.GestureRecognizer.SendPinchProgress | src/gestures.cpp:360-362 | every active pinch reports its progress, in order |
| Gestures.GestureRecognizer.UpdatePinchGesture | src/gestures.cpp:330-363 | new state and signals of a whole update |
| Gestures.GestureRecognizer.CancelPinchGesture | src/gestures.cpp:365-371 | all active gestures are cancelled and the scale is back at 1 |
| Gestures.GestureRecognizer.EndPinchGesture | src/gestures.cpp:373-387 | every active pinch is triggered or cancelled by the last scale; active swipes vanish without a signal |
| GestureRuns.RunValid | src/gestures.cpp:91-387 | in every run: no list repeats a gesture, only registered ones are active, never swipes and pinches together |
| GestureRuns.StepBalance | src/gestures.cpp:91-387 | one call changes starts minus ends of a gesture by the change of its activity, plus 1 if the call drops it silently |
| GestureRuns.Conservation | src/gestures.h:35-48 | in every run, starts minus triggers minus cancels of a gesture is 1 if it is active and 0 otherwise, plus the silent drops |
| GestureRuns.DropUnbalances | src/gestures.cpp:373-387 | a swipe dropped by the end of a pinch stays unbalanced for the rest of the run |
| GestureRuns.ConservationExactly | src/gestures.cpp:91-387 | signals balance for all gestures iff no end of a pinch meets an active swipe |
| GestureRuns.SwipeDroppedSilently | src/gestures.cpp:373-387 | a run of three calls after which a gesture was started, is not active and was neither triggered nor cancelled |
| GestureRuns.TwoPasses | src/gestures.cpp:234-255 | two passes keep what points ahead; if that is nothing and no pinch is active, they restart with all admitted gestures that point ahead |
| GestureRuns.TwoPinchPasses | src/gestures.cpp:342-358 | the same for pinches |
| GestureRuns.EliminationIsFilter | src/gestures.cpp:133-262 | after every update of a swipe, reversals and restarts included, the active list is the registered gestures whose finger range admits n and whose direction is the current one, in registration order |
| GestureRuns.FourSidedStays | src/gestures.cpp:244-251 | an admitted gesture with four start bounds survives an update away from its direction |
| GestureRuns.FourSidedBreaksFilter | src/gestures.cpp:244-251 | such a gesture refutes the filter law for some movement |
| GestureRuns.EliminationIsFilterExactly | src/gestures.cpp:133-262 | the filter law holds for all movements iff no admitted gesture has all four start bounds set |
| GestureRuns.PinchEliminationIsFilter | src/gestures.cpp:303-363 | after every update of a pinch the active list is the matching registered pinches, in order, without exception |
| GestureRuns.AxisLocksOnce | src/gestures.cpp:204-220 | the axis is free as long as no total was far enough, and from the first one on it is never changed |
| GestureRuns.FreeDirectionTravelsMost | src/gestures.cpp:205-232 | while the axis is free, no direction has a larger travel than the one picked |
| GestureRuns.DirectionBeforeLock | src/gestures.cpp:197-232 | in every run, as long as no earlier total had a component of at least 5, an update goes in the direction of the largest travel so far |
| GestureRuns.LockedAxisExactly | src/gestures.cpp:205-217 | in every run, the first total with a component of at least 5 locks the horizontal axis iff it reaches as far sideways as up or down, and the vertical one otherwise |
| GestureRuns.DirectionAfterLock | src/gestures.cpp:218-229 | from then on every update goes to that side of this axis on which the total lies |
| GestureRuns.UpdateReports | src/gestures.cpp:257-261 | each gesture an update leaves active reports, in order, its progress and then the accumulated delta |
| GestureRuns.PinchUpdateReports | src/gestures.cpp:360-362 | each pinch an update leaves active reports its progress, in order |
| GestureRuns.UpdateStartsOnAxis | src/gestures.cpp:174-188 | once the axis is locked, a restart starts no gesture across it |
| GestureRuns.EndsAndCancels | src/gestures.cpp:264-387 | what each end and cancel leaves behind: an end of a swipe leaves pinches alone, both cancels cancel everything active, once and in order |
| GestureRuns.MinimumDeltaReachedExactly | src/gestures.cpp:44-65 | the progress quotient reaches 1 iff there is no minimum, or the movement on the axis is not zero and at least the minimum |
| GestureRuns.ProgressRange | src/gestures.cpp:44-65 | progress lies in [0, 1], is 1 iff the minimum is reached and else the exact quotient, but is not a number iff the minimum has no component along the direction and the movement has none either |
| GestureRuns.PinchProgressRange | src/gestures.cpp:74-82 | the same for pinches, with a zero minimum and an unchanged scale as the exception |
| GestureRuns.TriggeredMeansMoved | src/gestures.cpp:287-301 | a triggered gesture, not four-sided and with a minimum, has the sum of all deltas in its direction by at least the minimum |
| GestureRuns.TriggeredExactly | src/gestures.cpp:133-301 | which registered gestures a complete swipe triggers, told from finger count and deltas alone, when it starts by finger count and no admitted gesture has all four start bounds; `BorderSwipes` has the other swipes |
| GestureRuns.SwipeLeavesNoTrace | src/gestures.cpp:279-301 | after the end or the cancel of a swipe the recognizer is as before it |
| GestureRuns.MinimumScaleDeltaReachedExactly | src/gestures.cpp:74-82 | the scale counts as changed enough iff it is not 1 and differs from 1 by at least the non-negative minimum |
| GestureRuns.PinchTriggeredExactly | src/gestures.cpp:303-387 | which registered gestures a complete pinch triggers: only the last scale counts |
| GestureRuns.PinchWithoutUpdates | src/gestures.cpp:303-387 | a pinch that ends without an update is judged by the scale that was left before it |
| GestureRuns.UnmovedPinchExactly | src/gestures.cpp:264-387 | an unmoved pinch never triggers a registered gesture, whatever that asks for, iff the scale left before is 1 |
| GestureRuns.CancelledSwipeTriggersPinch | src/gestures.cpp:264-285 | a concrete run: after a cancelled swipe the scale is 0, and a pinch without any movement is triggered |
| GestureRuns.PinchLeavesNoTrace | src/gestures.cpp:365-387 | after the end or the cancel of a pinch the scale is 1 and the axis free |
| BorderSwipes.UpdateOnce | src/gestures.cpp:197-262 | an update keeps the gestures that point ahead or are four-sided, and restarts exactly if there are none |
| BorderSwipes.ActiveSinceLastStart | src/gestures.cpp:133-262 | for every configuration and every start, the active gestures are those begun at the last start that are four-sided or whose direction was the current one at every update since |
| BorderSwipes.BorderNeverRestarts | src/gestures.cpp:234-255 | once a gesture with four start bounds is admitted, no update restarts |
| BorderSwipes.BorderSwipeActive | src/gestures.cpp:133-262 | a swipe that starts at the border keeps exactly the admitted gestures that are four-sided or whose direction was the current one at every update |
| BorderSwipes.PositionCountsOnFirstCourse | src/gestures.cpp:133-262 | without border gestures a start position restricts the active gestures only until the first change of course; after it all matching gestures are active |
| BorderSwipes.TriggeredSinceLastStart | src/gestures.cpp:287-301 | which gestures a complete swipe triggers, for every configuration and every start |
| BorderSwipes.BorderTriggeredExactly | src/gestures.cpp:133-301 | which gestures a swipe from the border triggers, told from the start and the deltas alone |
| BorderSwipes.BorderTriggeredBackwards | src/gestures.cpp:44-65 | an admitted border gesture is triggered by a movement against its direction |
| BorderSwipes.TriggeredAheadExactly | src/gestures.cpp:197-301 | for an admitted gesture with a minimum, being triggered means having moved the minimum in its own direction iff it has not all four start bounds |
| TouchFilter.GlobalShortcutFilter.TouchDown | src/input.cpp:1023-1065 | new state, commands sent and whether the event is consumed; the synthetic cancel changes nothing |
| TouchFilter.GlobalShortcutFilter.TouchMotion | src/input.cpp:1067-1085 | a finger's movement is forwarded, divided among the tracked fingers, only while a gesture runs |
| TouchFilter.GlobalShortcutFilter.TouchUp | src/input.cpp:1087-1102 | the first finger up ends a running gesture; the flags fall with the last finger |
| TouchFilter.GlobalShortcutFilter.TouchCancel | src/input.cpp:1104-1114 | everything is untracked unless the filter caused the cancel itself; no command is sent |
| TouchFilter.RunValid | src/input.cpp:1023-1114 | in every run, when no finger is tracked both flags are false |
| TouchFilter.ProtocolObeyed | src/input.cpp:1023-1114 | in every run no update or end is sent after an end or a cancel until the next start |
| TouchFilter.InStepExactly | src/input.cpp:1023-1114 | after every event filter and recognizer agree whether a swipe is open iff no running gesture is cancelled from outside |
| TouchFilter.InterruptionLeavesSwipeOpen | src/input.cpp:1104-1114 | a cancel during a gesture leaves the recognizer's swipe open |
| TouchFilter.CancelledMeansLate | src/input.cpp:1030-1038 | while no gesture is taken, the cancelled flag is set iff some joining touch since the last untracked moment came more than 250 ms after its predecessor |
| TouchFilter.TakenExactly | src/input.cpp:1023-1065 | a touch takes the gesture iff at least 3 fingers are tracked and every joining touch came in time; exactly then a start is sent |
| TouchFilter.RestsBetweenSwipes | src/input.cpp:1023-1114 | between swipes the touchscreen's recognizer is at rest, and it never holds a pinch |
| TouchFilter.TakenGestureStarts | src/input.cpp:1055-1062 | without interruptions, a taken gesture activates every registered swipe for that many fingers |
| TouchFilter.WholeGesture | src/input.cpp:1023-1102 | a taken gesture without interruption sends a start, one update for each movement and an end, and the recognizer runs exactly that swipe from rest |
| TouchFilter.WholeGestureTriggers | src/input.cpp:1023-1102 | which gestures are triggered when the first finger is lifted, told from the number of fingers and the updates sent |
| TouchFilter.PositionsAreLast | src/input.cpp:1023-1114 | in every run a finger is tracked at the position of its own last accepted event |
| TouchFilter.UpdatesFollowFingers | src/input.cpp:1067-1085 | the updates of a gesture add up to 5/n times the way its n fingers went together, from the start to where they were seen last, scaled per axis |
| TouchFilter.GestureFollowsFingers | src/input.cpp:1023-1102 | which gestures a whole touchscreen gesture triggers, told from the fingers' positions at the start and at the end, and the last direction |
| TouchFilter.FurtherFingerCancels | src/input.cpp:1025-1028 | a further finger during a gesture is not tracked, sends a cancel, and leaves the recognizer at rest with everything cancelled |
| TouchFilter.NothingUntilUntracked | src/input.cpp:1023-1102 | after the end of a gesture, as long as a finger is tracked, nothing but cancels is sent |
| TouchFilter.InterruptionSwallowsNextStart | src/input.cpp:1104-1114 | after an interruption the recognizer keeps the old swipe and the next start starts nothing |
| TouchFilter.InterruptedRun | src/input.cpp:1023-1114 | a concrete run: three fingers, a cancel from outside, three fingers again; the recognizer keeps its first swipe and starts nothing new |
| FocusChain.FocusChain.Remove | src/focuschain.cpp:16-24 | the window is taken out of every chain |
| FocusChain.FocusChain.AddDesktop | src/focuschain.cpp:26-29 | the desktop has an empty chain |
| FocusChain.FocusChain.RemoveDesktop | src/focuschain.cpp:31-37 | the desktop's chain is gone, and it is not current any more |
| FocusChain.FocusChain.SetActiveWindow | src/focuschain.h:219-222 | only the active window changes |
| FocusChain.FocusChain.SetCurrentDesktop | src/focuschain.h:224-227 | only the current desktop changes |
| FocusChain.FocusChain.MakeFirstInChain | src/focuschain.cpp:212-230 | the loop puts the window at the recent end, or a minimized one right behind the last minimized |
| FocusChain.FocusChain.MakeLastInChain | src/focuschain.cpp:232-236 | the window is put at the least recent end |
| FocusChain.FocusChain.InsertWindowIntoChain | src/focuschain.cpp:117-129 | a listed window stays; a new one goes behind an active first window, else to the recent end |
| FocusChain.FocusChain.UpdateWindowInChain | src/focuschain.cpp:106-115 | the three kinds of change on one chain |
| FocusChain.FocusChain.UpdateOnAllDesktops | src/focuschain.cpp:70-87 | making first or last happens on the current desktop only; other desktops get the window inserted |
| FocusChain.FocusChain.UpdateOnItsDesktops | src/focuschain.cpp:88-100 | the window's desktops are updated, the others lose it |
| FocusChain.FocusChain.UpdateWindow | src/focuschain.cpp:62-104 | new state of all chains after an update |
| FocusChain.FocusChain.MoveAfterWindowInChain | src/focuschain.cpp:148-165 | the window goes right behind the reference, or behind the most recent window of the reference's application; its own reference puts it at the least recent end |
| FocusChain.FocusChain.MoveAfterWindow | src/focuschain.cpp:131-146 | only the chains of the window's desktops and the most-recently-used one change |
| FocusChain.FocusChain.NextMostRecentlyUsed | src/focuschain.cpp:175-188 | the cyclic neighbour, or the least recent window for an unlisted reference |
| FocusChain.FocusChain.NextForDesktop | src/focuschain.cpp:196-210 | the most recent usable window other than the reference; none iff there is none |
| FocusHistory.OrderKept | src/focuschain.cpp:16-165 | each operation on a window leaves the sequence of all other windows unchanged in every chain |
| FocusHistory.StepKeepsValid | src/focuschain.cpp:16-165 | each operation keeps chains free of repetition and desktop chains inside the most-recently-used one |
| FocusHistory.ReachableValid | src/focuschain.cpp:16-165 | both hold in every reachable state |
| FocusHistory.UpdatePlaces | src/focuschain.cpp:62-104 | after an update the window is in exactly the chains of its desktops if it takes focus by tab, else in none |
| FocusHistory.RemovedEverywhere | src/focuschain.cpp:16-24 | a removed window is in no chain |
| FocusHistory.ChangedPlacement | src/focuschain.cpp:106-129 | where each change puts a window, told from the ends of the chain and the minimized windows |
| FocusHistory.UpdatePlacement | src/focuschain.cpp:62-104 | an update puts its window there in the most-recently-used chain and on its desktops; for a window on all desktops, first and last count on the current desktop only |
| FocusHistory.OtherDesktopsUntouched | src/focuschain.cpp:76-86 | making a window on all desktops first or last changes no other desktop that lists it |
| FocusHistory.MovedBehind | src/focuschain.cpp:148-165 | the moved window is right behind the reference, or right behind the most recent window of its application, or gone without any |
| FocusHistory.MovePlacement | src/focuschain.cpp:131-146 | a move does so in the most-recently-used chain and on the window's desktops, and touches no other desktop |
| FocusHistory.DesktopsAddedAndRemoved | src/focuschain.cpp:26-37 | adding or removing a desktop changes its own chain only |
| FocusHistory.UpdateAsDocumentedExactly | src/focuschain.h:56-73 | an update puts a window first if it is active and else directly after the active one, in every chain it belongs to, iff it is there already where it is listed, and where it is new it is active itself or the active window is first |
| FocusHistory.UpdateNotAsDocumented | src/focuschain.cpp:117-129 | two inputs for which the window is not put in its documented place: listed elsewhere, and new to an empty chain |
| FocusHistory.SurvivorsMentioned | src/focuschain.cpp:62-115 | the independent reading of a history: a window survives iff its last mention is a use |
| FocusHistory.MruRefinesHistory | src/focuschain.cpp:62-115 | with the minimized option off, the chain is the history with removed windows erased and only last uses kept |
| FocusHistory.MadeFirstParted | src/focuschain.cpp:212-230 | in a chain with minimized windows first, making a window first keeps that split and puts it at the recent end of its class |
| FocusHistory.MruRefinesPartedHistory | src/focuschain.cpp:212-230 | with the option on, the chain is the same reduced history, minimized windows first, each class in its order |
| FocusHistory.StepParted | src/focuschain.cpp:62-115 | one use or removal keeps the chain the reduced and parted history |
| FocusHistory.DesktopChainsAreFiltered | src/focuschain.cpp:62-104 | while windows keep their desktops and are made first or last, each desktop's chain is the most-recently-used chain restricted to the desktop |
| FocusHistory.WalkAt | src/focuschain.cpp:175-188 | the k-th window of a walk lies k places back, cyclically |
| FocusHistory.NextExactly | src/focuschain.cpp:175-188 | the next window is the one before in the chain, cyclically; after an unlisted one comes the least recent |
| FocusHistory.FullWalk | src/focuschain.cpp:175-188 | in a chain without repetition, as many steps as windows visit each once and the next one is back at the start |
| FocusHistory.CyclicTraversal | src/focuschain.cpp:175-188 | the same from every listed window in every reachable state |
| FocusQueue.WeakerPreventionAllowsMore | src/activation.cpp:832-922 | lowering the level or the rival's protection never refuses what was allowed |
| FocusQueue.ExtremeExactly | src/activation.cpp:832-922 | when the extreme level still allows activation |
| FocusQueue.HighExactly | src/activation.cpp:835-922 | the documented promise of the high level holds for a rival iff its protection is at most medium within the application, or at least medium outside of it |
| FocusQueue.LowAndNormalExactly | src/activation.cpp:835-922 | between applications an unprotected rival yields and an extremely protected one does not; otherwise a known time decides, and without one only the low level allows, and only if the rival is not highly protected |
| FocusQueue.SettledExactly | src/activation.cpp:847-880 | what is decided before rival and times are compared, and in which order |
| FocusQueue.ContestExactly | src/activation.cpp:882-922 | the whole comparison with a rival at ordinary levels and protections, in closed form |
| FocusQueue.Workspace.SetShouldGetFocus | src/activation.cpp:571-575 | the window is queued last |
| FocusQueue.Workspace.GotFocusIn | src/activation.cpp:559-569 | the loop drops everything up to the window's first entry; nothing for an unqueued window |
| FocusQueue.Workspace.WithdrawFocus | src/activation.cpp:471-485 | for the active or latest requested window, all its entries go; otherwise nothing happens |
| FocusQueue.Workspace.FocusToNull | src/workspace.cpp:2000-2006 | all requests are withdrawn, if the null focus window exists |
| FocusQueue.Workspace.RequestFocus | src/activation.cpp:360-433 | whom a request goes to, whether it is queued, clears the queue or changes nothing, and whether it succeeds |
| FocusQueue.Workspace.TakeFocus | src/x11window.cpp:2116-2134 | the window is queued unless the X server refuses |
| FocusQueue.Workspace.RestoreFocus | src/activation.cpp:618-630 | the latest requested, else the last active window is asked to take the focus; without either nothing is asked and it succeeds |
| FocusQueue.Workspace.FocusIn | src/events.cpp:1194-1226 | for every event: ignored without effect, activated with the queue popped, or refused with the focus restored, which may fail |
| FocusQueue.ActivatedExactly | src/events.cpp:1207-1225 | a FocusIn makes its window active iff it is allowed or the focus cannot be restored |
| FocusQueue.LatestIsAskedAgain | src/activation.cpp:618-630 | a refused FocusIn asks again for the latest request, or without any for the last active window, and demands attention |
| FocusQueue.AskedExactly | src/activation.cpp:365-433 | when a request queues its recipient, clears the queue, activates at once or does nothing, and when it succeeds |
| FocusQueue.RefusedKeepsRequests | src/events.cpp:1194-1226 | a refused FocusIn is of an unqueued window and removes no request: at most one is added, unless a shaded window is restored and all are cleared |
| FocusQueue.AnsweredIsPopped | src/activation.cpp:559-569 | the numbered queue of the protocol follows KWin's own queue |
| FocusQueue.StepIsWorkspace | src/activation.cpp:471-575 | every step of the numbered queue does what the workspace does to its own: requests, both kinds of FocusIn, both withdrawals |
| FocusQueue.StepKeepsValid | src/activation.cpp:484-575 | every step of the protocol keeps the queue in request order and keeps every awaited request in it |
| FocusQueue.RunValid | src/activation.cpp:484-575 | the same over every orderly run |
| FocusQueue.OwnFocusRecognised | src/activation.cpp:851-854 | in every orderly run, with answers lost, windows repeated, requests withdrawn and harmless foreign FocusIns between, an answer finds its window queued and is allowed |
| FocusQueue.ValidRecognises | src/activation.cpp:559-575 | every ordered series of remaining answers is recognised from a valid state |
| FocusQueue.UnqueuedIsHarmless | src/activation.cpp:559-569 | a foreign FocusIn of an unqueued window does no harm |
| FocusQueue.HarmDone | src/activation.cpp:559-569 | from a FocusIn that pops an awaited request, a series of answers of which one is not recognised |
| FocusQueue.HarmlessExactly | src/activation.cpp:559-575 | all later answers are recognised iff the foreign FocusIn pops no awaited request |
| FocusQueue.LateAnswerDoesHarm | src/activation.cpp:471-485 | a withdrawn and repeated request whose first answer comes late pops another window's request |
| PaintChain.EffectsHandler.StartPaint | src/effects.cpp:499-511 | a pass starts with exactly the active effects, in order, and all iterators at the beginning |
| PaintChain.EffectsHandler.PaintScreen | src/effects.cpp:416-424 | the call terminates, restores all iterators and logs exactly the trace specified with iterators passed by value |
| PaintChain.EffectsHandler.PaintWindowOf | src/effects.cpp:444-452 | the same for a window |
| PaintChain.EffectsHandler.DrawWindowOf | src/effects.cpp:473-481 | the same for a window's contents |
| PaintChain.EffectsHandler.RenderWindow | src/effects.cpp:483-486 | the window is rendered without passing the chain |
| PaintChain.EffectsHandler.FinalPaintScreen | src/scene/workspacescene.cpp:373-434 | the final painter paints every window in stacking order through the window chain |
| PaintChain.EffectsHandler.CallEffect | src/effects.cpp:416-481 | an effect that forwards any number of times, calls any paint function and renders windows directly, depending on the window, restores all iterators |
| PaintChain.TraceFinals | src/effects.cpp:416-481 | what effects that only forward make the final painters do depends on nothing but how often each forwards for each window, each repeating the rest of the chain |
| PaintChain.CalledFinals | src/effects.cpp:416-486 | an effect that calls a paint function runs the chain behind that function's iterator; direct rendering runs no chain |
| PaintChain.EveryWindowRenderedOnce | src/effects.cpp:416-481 | if every effect forwards once, a pass runs the final screen painter once and then renders the scene's windows once each, in stacking order |
| PaintChain.BlockedScreenRendersNothing | src/effects.cpp:416-424 | one effect that does not forward the screen keeps every final painter from running |
| PaintChain.HiddenWindowIsLeftOut | src/effects.cpp:416-481 | one effect that does not forward a window hides that window and no other |
| PaintChain.EffectsRunInOrder | src/effects.cpp:416-481 | if every effect forwards once, each call enters the effects ahead of the iterator once and in order |
| SupportProperties.EffectsHandler.RegisterPropertyType | src/effects.cpp:921-930 | the atom's count goes up or down by one, and an atom unregistered to zero is forgotten |
| SupportProperties.UnregisteredForgotten | src/effects.cpp:921-930 | an atom is forgotten iff its count falls from one; other atoms are not concerned |
| SupportProperties.EffectsHandler.AnnounceSupportProperty | src/effects.cpp:932-952 | new registry across both classes and the returned atom; a pending deletion is called off |
| SupportProperties.EffectsHandler.RemoveSupportProperty | src/effects.cpp:954-974 | new registry across both classes; only the last user's withdrawal puts the atom on the deletion list |
| SupportProperties.EffectsHandler.DestroyEffect | src/effects.cpp:1614-1634 | every announced name is withdrawn for the effect, in some order |
| SupportProperties.EffectsHandler.UnloadAllEffects | src/effects.cpp:292-302 | afterwards exactly the announcements of effects that were not loaded remain |
| SupportProperties.UsersAreOutstanding | src/effects.cpp:932-974 | in every run the registry lists exactly the announcements neither withdrawn nor ended by destruction |
| SupportProperties.RunValid | src/effects.cpp:921-974 | in every run root properties are the managed and the pending atoms, these are disjoint, and pending ones have a timer running |
| SupportProperties.NeitherLostNorLeaked | src/effects.cpp:932-974 | in every run a property is on the root window iff an announcement is outstanding and the first one of its use got its atom, or its deletion is pending, never both |
| SupportProperties.SweepLeavesAnnounced | src/composite.cpp:874-888 | after a sweep outside starting and stopping, however often put off, exactly the properties with an outstanding announcement whose first one got its atom are left |
| SupportProperties.PutOffSweepsLoseNothing | src/composite.cpp:874-881 | any number of sweeps while starting or stopping changes nothing, and the next sweep is still due |
| SupportProperties.AnnouncedIsPresentExactly | src/effects.cpp:932-952 | no announced property is missing after a sweep iff the first announcement of every use got its atom |
| SupportProperties.ManagedExactly | src/effects.cpp:932-974 | in every run a name's atom is known iff an announcement is outstanding and the first one of its use got its atom |
| SupportProperties.AtomReturned | src/effects.cpp:932-952 | an announcement returns the name's atom iff the first one of the use got it, and none otherwise |
| SupportProperties.AnsweredIsOpened | src/effects.cpp:932-952 | if all requests are answered, every outstanding announcement has its property |
| SupportProperties.UnansweredIsNeverSet | src/effects.cpp:932-947 | a run in which the first request is not answered: a second effect announces the property, and it is not set |
| SupportProperties.WatchedOnce | src/effects.cpp:921-974 | an announced atom is watched once for all its users, on top of what effects registered themselves |
| LoadQueue.EffectLoadQueue.EnqueueEffect | src/effectloader.h:234-238 | the effect is queued last and a dequeue is scheduled unless one is |
| LoadQueue.EffectLoadQueue.ClearQueue | src/effectloader.h:239-243 | the queue is emptied and a scheduled dequeue becomes stale |
| LoadQueue.EffectLoadQueue.ScheduleDequeue | src/effectloader.h:258-265 | a dequeue is posted iff the queue is not empty and none is scheduled |
| LoadQueue.EffectLoadQueue.Dequeue | src/effectloader.h:246-255 | one effect is loaded, with any requests of the loader meanwhile; a stale dequeue of an empty queue does nothing |
| LoadQueue.RunIsDequeued | src/effectloader.h:246-255 | the runs below step as the queue does |
| LoadQueue.RunValid | src/effectloader.h:225-269 | between events the flag is set iff the queue is not empty, a dequeue is then pending, and every effect is loaded, queued or cleared, one of these only and in order |
| LoadQueue.DrainLoadsAll | src/effectloader.h:246-265 | the event loop comes to rest with all queued effects loaded in order, after a known number of dequeues |
| LoadQueue.EveryEffectLoadedOnce | src/effectloader.h:225-269 | after any run every effect not cleared is loaded exactly once, in the order of enqueueing |
| Shortcuts.GlobalShortcutsManager.constructor | src/globalshortcuts.cpp:112-117 | an empty table agrees with two empty recognizers |
| Shortcuts.GlobalShortcutsManager.NewShortcut | src/globalshortcuts.cpp:34-81 | a swipe or pinch shortcut owns a new gesture of its direction that fits exactly its finger count; a swipe with feedback asks for 200 by 200, a pinch for a change of 0.2 |
| Shortcuts.GlobalShortcutsManager.AddIfNotExists | src/globalshortcuts.cpp:149-166 | the shortcut is stored iff no equal one is; table and recognizers keep agreeing |
| Shortcuts.GlobalShortcutsManager.Erase | src/globalshortcuts.cpp:137-147 | erasing a shortcut unregisters exactly its gesture |
| Shortcuts.GlobalShortcutsManager.ForceRegisterTouchscreenSwipe | src/globalshortcuts.cpp:203-215 | equal shortcuts are replaced by the new one; table and recognizers keep agreeing |
| Shortcuts.GlobalShortcutsManager.ObjectDeleted | src/globalshortcuts.cpp:137-147 | exactly the action's shortcuts go; table and recognizers keep agreeing |
| Shortcuts.GlobalShortcutsManager.Match | src/globalshortcuts.cpp:264-276 | an action is invoked iff an equal shortcut is stored, and it is that shortcut's |
| Shortcuts.ErasedGestures | src/gestures.cpp:99-131 | the gestures of the remaining shortcuts are the registered ones without the erased one's |
| Shortcuts.ForcedAt | src/globalshortcuts.cpp:203-215 | replacing the first equal shortcut replaces them all |
| Shortcuts.SameIsEquivalence | src/globalshortcuts.h:134-200 | equality that ignores callbacks is an equivalence |
| Shortcuts.SameExactly | src/globalshortcuts.h:134-200 | shortcuts are equal iff nothing but their callbacks differs |
| Shortcuts.GestureOfDevice | src/globalshortcuts.cpp:157-162 | a stored swipe's gesture is registered for the device it names, a pinch's for the touchpad |
| Shortcuts.RunDistinct | src/globalshortcuts.cpp:137-215 | in every run no two stored shortcuts are equal |
| Shortcuts.TableIsOwnership | src/globalshortcuts.cpp:137-215 | after every run a shortcut is stored for an action iff the calls about this shortcut alone make the action its owner |
| Compositor.X11Compositor.constructor | src/composite.cpp:1149-1168 | off, and suspended by the user iff compositing is switched off |
| Compositor.X11Compositor.AttemptBackends | src/composite.cpp:489-513 | the first working candidate before running without compositing becomes the backend |
| Compositor.X11Compositor.SetupStart | src/composite.cpp:439-559 | a start claims the selection and picks a backend, or releases the selection and is off again |
| Compositor.X11Compositor.StartupWithWorkspace | src/composite.cpp:590-658 | on, with the release timer stopped |
| Compositor.X11Compositor.RecordEffectType | src/composite.cpp:1235-1242 | the type kept by the configuration service always follows the backend |
| Compositor.X11Compositor.PickEffectType | src/composite.cpp:1262-1281 | an explicit setting, the kept type, or a choice by performance level |
| Compositor.X11Compositor.Start | src/composite.cpp:1233-1296 | new life-cycle state after every start attempt |
| Compositor.X11Compositor.Stop | src/composite.cpp:768-834 | off without backend, with the release timer running |
| Compositor.X11Compositor.ReleaseCompositorSelection | src/composite.cpp:841-861 | the selection is released only when off; during a transition the timer is started again |
| Compositor.X11Compositor.LostOwnership | src/composite.cpp:258-261 | a lost selection stops the compositor |
| Compositor.X11Compositor.Suspend | src/composite.cpp:1203-1224 | the reason is added and the compositor stopped |
| Compositor.X11Compositor.Resume | src/composite.cpp:1226-1231 | the reason is lifted and a start attempted |
| Compositor.X11Compositor.ToggleCompositing | src/composite.cpp:1185-1194 | lifts all reasons if there is any, else suspends for the user |
| Compositor.X11Compositor.Reinitialize | src/composite.cpp:1196-1201 | lifts all reasons and restarts |
| Compositor.X11Compositor.HandleUserTypeChanged | src/composite.cpp:913-946 | the cases in which a new type is ignored, switched to, or restarts the compositor |
| Compositor.X11Compositor.KeepSupportProperty | src/composite.cpp:863-866 | the atom is off the deletion list |
| Compositor.X11Compositor.RemoveSupportProperty | src/composite.cpp:868-872 | the atom is on the deletion list and the timer runs |
| Compositor.X11Compositor.DeleteUnusedSupportProperties | src/composite.cpp:874-888 | exactly the listed properties go, or nothing while starting or stopping |
| Compositor.StepKeepsValid | src/composite.cpp:1149-1302 | every public operation keeps the safety invariant |
| Compositor.RunSafe | src/composite.cpp:439-861 | after every run: on means no suspend reason, a backend, the selection owned and no release timer; off means no backend, and an owned selection is about to be released |
| Compositor.ChosenExactly | src/composite.cpp:489-513 | a backend is found iff some candidate works before the search is ended |
| Compositor.ChosenIsFirst | src/composite.cpp:489-513 | the backend is the first candidate that works |
| Compositor.StartableChooses | src/composite.cpp:465-513 | putting the configured type first never prevents a start |
| Compositor.SuspendResume | src/composite.cpp:1203-1231 | suspending and resuming for the same reason brings a running compositor back |
| Compositor.StartedExactly | src/composite.cpp:1233-1296 | after a start attempt the compositor is on iff it was on, or no reason is set, compositing is possible, the session is not ending, the type aimed at is not none, and a candidate works before the search is ended |
| Compositor.StartedBackend | src/composite.cpp:465-513 | a successful start gives the compositing that the setting, the kept type or the performance level prefers, if supported and working, and else the first supported one that works |
| Compositor.StartedType | src/composite.cpp:1233-1296 | which type a successful start keeps as the user's |
| Compositor.StartedOtherwise | src/composite.cpp:1233-1296 | an attempt on a running compositor changes only the types; a failed one keeps the type none and releases the selection iff the search was begun |
| Compositor.ReasonsExactly | src/composite.cpp:1203-1231 | a suspension adds exactly its reason and turns off, a resumption lifts exactly its reason |
| Compositor.ToggleExactly | src/composite.cpp:1185-1194 | a toggle turns off for the user, or lifts all reasons and is on iff a start is possible |
| Compositor.ReinitializeExactly | src/composite.cpp:1196-1201 | a reinitialization lifts all reasons and is on iff a start is possible |
| Compositor.OptionsChangedExactly | src/composite.cpp:1157-1167 | after changed options the compositor is on iff it was or a start is possible |
| Compositor.UserTypeChangedExactly | src/composite.cpp:913-946 | when a changed user type is only kept, switches between the kinds of OpenGL, or restarts |
| Compositor.SelectionExactly | src/composite.cpp:841-861 | a lost selection and an expired timer leave a stopped compositor without the selection |
| Compositor.PartialResumeForgets | src/composite.cpp:1235-1256 | lifting only some reasons overwrites the kept type with none |
| Compositor.ResumeInSteps | src/composite.cpp:1226-1296 | lifting the reasons in two steps brings compositing back iff the first step lifts them all |
| Compositor.ResumedInStepsStaysOff | src/composite.cpp:1203-1296 | a concrete run: started, suspended for two reasons and resumed from one after the other, compositing is off with no reason left |
| DebugIndex.IndexIsEncoded | src/debug_console.cpp:1045-1107 | index() yields the code of the child at a row and column iff there is one |
| DebugIndex.ParentRoundTrip | src/debug_console.cpp:1109-1138 | parent() leads from a node's code to its parent's code |
| DebugIndex.IndexThenParent | src/debug_console.cpp:1068-1138 | every child that index() yields has the given parent |
| DebugIndex.IdsDistinct | src/debug_console.cpp:901-907 | distinct nodes have distinct ids, columns of one property apart |
| DebugIndex.WindowForIndexExactly | src/debug_console.cpp:1286-1313 | a window is found behind an index for exactly the node's own kind |
| DebugIndex.WindowRoundTripExactly | src/debug_console.cpp:901-907 | a window's id leads back to its kind iff its row is below 10000 |
| DebugIndex.PropertyRoundTripExactly | src/debug_console.cpp:1057-1066 | a property's id leads back to its window iff the property's number plus one is no multiple of 65536 |

## Left out

- FocusQueue.Workspace.WithdrawFocus: only the part of activateNextWindow that touches the queue; the choice of the next window is not modelled.
- FocusQueue.Workspace.FocusIn: activating a window is reduced to the active and the last active window; the focus-out timers are left out.
- FocusQueue.Workspace.RequestFocus: windows that take the focus in another way than X11 windows do are left out; what the windows answer is a parameter. A modal window that is neither shown nor minimized is not activated first.
- FocusChain.FocusChain.MoveAfterWindow: a window that is its own reference is put at position -1 by the source. Qt 5 takes that for the front of the list, and so does the model; Qt 6 does not allow it.
- FocusHistory.ReachableValid: assumes that a window belongs to its own application.
- FocusHistory.MruRefinesPartedHistory: a window that changes its minimized state must be updated before any other window is.
- FocusChain.FocusChain.NextForDesktop: which windows are usable candidates is a parameter; getForActivation, which repeats the same search with another test, is left out.
- TouchFilter.GlobalShortcutFilter.TouchDown: the physical size of the output is a parameter. The distance test is modelled, but it always succeeds because the new finger is compared with itself, so nothing is claimed about distances; nor do tracked fingers equal the fingers that touch the screen.
- TouchFilter.GlobalShortcutFilter.TouchMotion: the physical size of the output is a parameter.
- TouchFilter.RestsBetweenSwipes: the recognizer's gestures keep their parameters during the run, and nobody else calls it.
- PaintChain.EffectsHandler.PaintScreen: masks, regions and paint data are left out, as are the chains before and after painting, which have the same shape with an empty final call; an effect's behaviour during a pass is a fixed list of own work, forwarding, calls and direct rendering for the screen and for each window; the list of active effects is fixed during a pass.
- SupportProperties.NeitherLostNorLeaked: names that the X server knows have different atoms, none of them null.
- Compositor.ResumeInSteps: the configuration service keeps the value last written, and no signal of it arrives between the two steps.
- Gestures: arithmetic is exact; rounding is left out. Slots that call back into the recognizer while it emits a signal are left out. The connection that unregisters a destroyed gesture is a direct call of the unregister method. The setter of a pinch's minimum scale delta is left out.
- Windows, effects, actions and callbacks are plain numbers; what they answer is a parameter of each call.
- Touchpad swipes and pinches reach the recognizer through libinput handlers, which are thin wrappers.
- The Wayland compositor, scene creation, window setup, notifications, the sync manager and block rules with their queued calls.
- Signals of the compositor whose receivers call back into it while it starts or stops.
- Paths without an X11 connection.
- The index of the debug console is modelled for non-negative rows and columns; adding and removing rows, and the display of values, are left out.
- Pointer and keyboard processing in the shortcuts manager, apart from matching, and the setup of its two services.
