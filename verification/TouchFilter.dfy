/** The touchscreen part of the global shortcut filter, and how it drives the gesture recognizer. */
module TouchFilter {
  import opened Sequences
  import opened Gestures
  import GestureRuns

  /** The longest time between two touches of one gesture, in microseconds. */
  const MAX_GAP := 250000

  /** What the filter tells the touchscreen's gesture recognizer. */
  datatype Command =
    | SwipeStart(fingers: nat)
    | SwipeUpdate(delta: Vec)
    | SwipeEnd
    | SwipeCancel

  datatype TouchState = TouchState(points: map<int, Vec>, taken: bool, cancelled: bool, lastDown: int)
  {
    /** A gesture is running: movements are forwarded. */
    predicate Live() {
      taken && !cancelled
    }

    /** Without tracked fingers no flag is set. */
    predicate Valid() {
      points == map[] ==> !taken && !cancelled
    }
  }

  const UNTOUCHED := TouchState(map[], false, false, 0)

  /** A touch event; the factors convert pixels to millimetres on the output under the finger. */
  datatype Event =
    | FingerDown(id: int, pos: Vec, time: int)
    | FingerMotion(id: int, pos: Vec, xfactor: real, yfactor: real)
    | FingerUp(id: int)
    | TouchCancelled

  function DownStep(s: TouchState, id: int, pos: Vec, time: int): (TouchState, seq<Command>) {
    if s.taken then (s.(cancelled := true), [SwipeCancel])
    else
      var points := s.points[id := pos];
      if |points| != 1 && time - s.lastDown > MAX_GAP then (s.(points := points, cancelled := true), [])
      else
        var begins := |points| >= 3 && !s.cancelled;
        (s.(points := points, lastDown := time, taken := begins), if begins then [SwipeStart(|points|)] else [])
  }

  /** The part of a movement that one of several fingers contributes. */
  function Contribution(from: Vec, to: Vec, xfactor: real, yfactor: real, fingers: nat): Vec
    requires fingers > 0
  {
    Vec(5.0 * (xfactor * (to.x - from.x)) / fingers as real, 5.0 * (yfactor * (to.y - from.y)) / fingers as real)
  }

  function MotionStep(s: TouchState, id: int, pos: Vec, xfactor: real, yfactor: real): (TouchState, seq<Command>) {
    if !s.Live() then (s, [])
    else
      var from := if id in s.points then s.points[id] else ORIGIN;
      var points := s.points[id := pos];
      (s.(points := points), [SwipeUpdate(Contribution(from, pos, xfactor, yfactor, |points|))])
  }

  function UpStep(s: TouchState, id: int): (TouchState, seq<Command>) {
    var points := s.points - {id};
    if s.taken then
      var more := |points| > 0;
      (s.(points := points, taken := more, cancelled := more), if s.cancelled then [] else [SwipeEnd])
    else (s.(points := points, cancelled := s.cancelled && |points| > 0), [])
  }

  function CancelStep(s: TouchState): (TouchState, seq<Command>) {
    (s.(points := map[], taken := false, cancelled := false), [])
  }

  function Step(s: TouchState, e: Event): (TouchState, seq<Command>) {
    match e
    case FingerDown(id, pos, time) => DownStep(s, id, pos, time)
    case FingerMotion(id, pos, xfactor, yfactor) => MotionStep(s, id, pos, xfactor, yfactor)
    case FingerUp(id) => UpStep(s, id)
    case TouchCancelled => CancelStep(s)
  }

  /** Two fingers are less than 50 mm apart. */
  predicate Near(p: Vec, q: Vec, xfactor: real, yfactor: real) {
    Abs(xfactor * (p.x - q.x)) + Abs(yfactor * (p.y - q.y)) < 50.0
  }

  class GlobalShortcutFilter {
    var touchPoints: map<int, Vec>
    var gestureTaken: bool
    var gestureCancelled: bool
    var syntheticCancel: bool
    var lastTouchDownTime: int
    /** The commands sent to the recognizer so far. */
    ghost var sent: seq<Command>

    ghost function State(): TouchState
      reads this
    {
      TouchState(touchPoints, gestureTaken, gestureCancelled, lastTouchDownTime)
    }

    constructor ()
      ensures State() == UNTOUCHED && !syntheticCancel && sent == []
    {
      touchPoints, gestureTaken, gestureCancelled := map[], false, false;
      syntheticCancel, lastTouchDownTime := false, 0;
      sent := [];
    }

    /** The result tells whether the event is kept from other filters. */
    method TouchDown(id: int, pos: Vec, time: int, xfactor: real, yfactor: real) returns (handled: bool)
      requires !syntheticCancel
      modifies this
      ensures State() == DownStep(old(State()), id, pos, time).0 && !syntheticCancel
      ensures sent == old(sent) + DownStep(old(State()), id, pos, time).1
      ensures handled == gestureTaken
    {
      if gestureTaken {
        sent := sent + [SwipeCancel];
        gestureCancelled := true;
        return true;
      }
      touchPoints := touchPoints[id := pos];
      if |touchPoints| == 1 {
        lastTouchDownTime := time;
      } else {
        if time - lastTouchDownTime > MAX_GAP {
          gestureCancelled := true;
          return false;
        }
        lastTouchDownTime := time;
        var distanceMatch := exists i :: i in touchPoints && Near(pos, touchPoints[i], xfactor, yfactor);
        // the finger itself is among the points by now, at distance zero
        assert id in touchPoints && Near(pos, touchPoints[id], xfactor, yfactor);
        assert distanceMatch;
      }
      if |touchPoints| >= 3 && !gestureCancelled {
        gestureTaken := true;
        syntheticCancel := true;
        var _ := TouchCancel();
        syntheticCancel := false;
        sent := sent + [SwipeStart(|touchPoints|)];
        return true;
      }
      return false;
    }

    method TouchMotion(id: int, pos: Vec, xfactor: real, yfactor: real) returns (handled: bool)
      modifies this
      ensures State() == MotionStep(old(State()), id, pos, xfactor, yfactor).0
      ensures sent == old(sent) + MotionStep(old(State()), id, pos, xfactor, yfactor).1
      ensures syntheticCancel == old(syntheticCancel) && handled == gestureTaken
    {
      if gestureTaken {
        if gestureCancelled {
          return true;
        }
        if id !in touchPoints {
          touchPoints := touchPoints[id := ORIGIN];
        }
        var point := touchPoints[id];
        PointsCount(touchPoints, id, pos);
        sent := sent + [SwipeUpdate(Contribution(point, pos, xfactor, yfactor, |touchPoints|))];
        touchPoints := touchPoints[id := pos];
        return true;
      }
      return false;
    }

    method TouchUp(id: int) returns (handled: bool)
      modifies this
      ensures State() == UpStep(old(State()), id).0
      ensures sent == old(sent) + UpStep(old(State()), id).1
      ensures syntheticCancel == old(syntheticCancel) && handled == old(gestureTaken)
    {
      touchPoints := touchPoints - {id};
      if gestureTaken {
        if !gestureCancelled {
          sent := sent + [SwipeEnd];
          gestureCancelled := true;
        }
        gestureTaken := gestureTaken && |touchPoints| > 0;
        gestureCancelled := gestureCancelled && gestureTaken;
        return true;
      } else {
        gestureCancelled := gestureCancelled && |touchPoints| > 0;
        return false;
      }
    }

    /** A cancel that the filter itself provoked is ignored. */
    method TouchCancel() returns (handled: bool)
      modifies this
      ensures State() == if old(syntheticCancel) then old(State()) else CancelStep(old(State())).0
      ensures sent == old(sent) && syntheticCancel == old(syntheticCancel)
      ensures handled == (!syntheticCancel && old(gestureTaken))
    {
      if syntheticCancel {
        return false;
      }
      handled := gestureTaken;
      gestureTaken, gestureCancelled := false, false;
      touchPoints := map[];
    }
  }

  /** Moving a tracked finger does not change how many are tracked. */
  lemma PointsCount(points: map<int, Vec>, id: int, pos: Vec)
    requires id in points
    ensures |points[id := pos]| == |points| > 0
  {
    assert points[id := pos].Keys == points.Keys;
    assert |points.Keys| == |points| && |points[id := pos].Keys| == |points[id := pos]|;
    assert id in points.Keys;
  }

  // ---------------------------------------------------------------------------
  // Runs
  // ---------------------------------------------------------------------------

  function Run(events: seq<Event>): TouchState {
    if events == [] then UNTOUCHED else Step(Run(events[..|events| - 1]), events[|events| - 1]).0
  }

  function Commands(events: seq<Event>): seq<Command> {
    if events == [] then []
    else Commands(events[..|events| - 1]) + Step(Run(events[..|events| - 1]), events[|events| - 1]).1
  }

  lemma RunSnoc(events: seq<Event>, e: Event)
    ensures Run(events + [e]) == Step(Run(events), e).0
    ensures Commands(events + [e]) == Commands(events) + Step(Run(events), e).1
  {
    assert (events + [e])[..|events|] == events;
  }

  lemma InsertNotEmpty(points: map<int, Vec>, id: int, pos: Vec)
    ensures points[id := pos] != map[] && |points[id := pos]| > 0
  {
    assert id in points[id := pos];
    PointsCount(points[id := pos], id, pos);
  }

  lemma NoneLeft(points: map<int, Vec>)
    ensures |points| == 0 <==> points == map[]
  {
    assert |points.Keys| == |points|;
    if |points| == 0 {
      assert points.Keys == {};
    }
  }

  lemma StepKeepsValid(s: TouchState, e: Event)
    requires s.Valid()
    ensures Step(s, e).0.Valid()
  {
    match e
    case FingerDown(id, pos, time) => InsertNotEmpty(s.points, id, pos);
    case FingerMotion(id, pos, _, _) => InsertNotEmpty(s.points, id, pos);
    case FingerUp(id) => NoneLeft(s.points - {id});
    case TouchCancelled =>
  }

  /** In every run, when no finger is tracked both gesture flags are false. */
  lemma {:induction false} RunValid(events: seq<Event>)
    ensures Run(events).Valid()
  {
    if events != [] {
      RunValid(events[..|events| - 1]);
      StepKeepsValid(Run(events[..|events| - 1]), events[|events| - 1]);
    }
  }

  // ---------------------------------------------------------------------------
  // The command protocol
  // ---------------------------------------------------------------------------

  /** Whether the last start has not been ended or cancelled. */
  function Begun(cmds: seq<Command>): bool {
    if cmds == [] then false
    else
      match cmds[|cmds| - 1]
      case SwipeStart(_) => true
      case SwipeUpdate(_) => Begun(cmds[..|cmds| - 1])
      case SwipeEnd => false
      case SwipeCancel => false
  }

  /** Updates and ends are sent only between a start and its end or cancel. */
  predicate Obeys(cmds: seq<Command>) {
    cmds != [] ==>
      Obeys(cmds[..|cmds| - 1]) &&
      (cmds[|cmds| - 1].SwipeUpdate? || cmds[|cmds| - 1].SwipeEnd? ==> Begun(cmds[..|cmds| - 1]))
  }

  lemma OneMore(cmds: seq<Command>, c: Command)
    ensures Begun(cmds + [c]) == (if c.SwipeUpdate? then Begun(cmds) else c.SwipeStart?)
    ensures Obeys(cmds + [c]) <==> Obeys(cmds) && (c.SwipeUpdate? || c.SwipeEnd? ==> Begun(cmds))
  {
    assert (cmds + [c])[..|cmds|] == cmds;
  }

  /** How one event changes the protocol phase. */
  lemma StepPhase(s: TouchState, e: Event, cmds: seq<Command>)
    requires Obeys(cmds) && (s.Live() ==> Begun(cmds))
    ensures Obeys(cmds + Step(s, e).1)
    ensures Step(s, e).0.Live() ==> Begun(cmds + Step(s, e).1)
    ensures (s.Live() <==> Begun(cmds)) && !(e.TouchCancelled? && s.Live())
            ==> (Step(s, e).0.Live() <==> Begun(cmds + Step(s, e).1))
  {
    var out := Step(s, e).1;
    if out == [] {
      assert cmds + out == cmds;
    } else {
      assert |out| == 1 && out == [out[0]];
      OneMore(cmds, out[0]);
    }
  }

  /** In every run no update or end is sent after an end or cancel until the next start. */
  lemma {:induction false} ProtocolObeyed(events: seq<Event>)
    ensures Obeys(Commands(events))
    ensures Run(events).Live() ==> Begun(Commands(events))
  {
    if events != [] {
      ProtocolObeyed(events[..|events| - 1]);
      StepPhase(Run(events[..|events| - 1]), events[|events| - 1], Commands(events[..|events| - 1]));
    }
  }

  /** A touch cancel from outside arrives only while no gesture is running. */
  predicate NeverInterrupted(events: seq<Event>) {
    forall k :: 0 <= k < |events| && events[k].TouchCancelled? ==> !Run(events[..k]).Live()
  }

  /** After this many events the recognizer has an open swipe exactly when a gesture is running. */
  predicate InStep(events: seq<Event>) {
    Begun(Commands(events)) <==> Run(events).Live()
  }

  lemma {:induction false} UninterruptedInStep(events: seq<Event>)
    requires NeverInterrupted(events)
    ensures InStep(events)
  {
    if events != [] {
      var before, e := events[..|events| - 1], events[|events| - 1];
      assert events == before + [e] && events[..|before|] == before;
      assert !(e.TouchCancelled? && Run(before).Live());
      RunSnoc(before, e);
      PrefixUninterrupted(events, |before|);
      hide NeverInterrupted, Run, Commands, Step, Begun, Obeys;
      UninterruptedInStep(before);
      ProtocolObeyed(before);
      StepPhase(Run(before), e, Commands(before));
    }
  }

  lemma PrefixUninterrupted(events: seq<Event>, k: nat)
    requires NeverInterrupted(events) && k <= |events|
    ensures NeverInterrupted(events[..k])
  {
    hide Run;
    forall j | 0 <= j < k && events[..k][j].TouchCancelled? ensures !Run(events[..k][..j]).Live() {
      assert events[..k][..j] == events[..j];
    }
  }

  /** Filter and recognizer agree after every event exactly when no running gesture is cancelled from outside. */
  lemma InStepExactly(events: seq<Event>)
    ensures (forall k :: 0 <= k <= |events| ==> InStep(events[..k])) <==> NeverInterrupted(events)
  {
    hide Run, InStep;
    if NeverInterrupted(events) {
      hide NeverInterrupted;
      forall k | 0 <= k <= |events| ensures InStep(events[..k]) {
        PrefixUninterrupted(events, k);
        UninterruptedInStep(events[..k]);
      }
    } else {
      var k :| 0 <= k < |events| && events[k].TouchCancelled? && Run(events[..k]).Live();
      hide NeverInterrupted;
      InterruptionLeavesSwipeOpen(events[..k]);
      assert events[..k + 1] == events[..k] + [TouchCancelled];
    }
  }

  /** A touch cancel during a gesture untracks all fingers but sends nothing: the recognizer's swipe stays open. */
  lemma InterruptionLeavesSwipeOpen(events: seq<Event>)
    requires Run(events).Live()
    ensures Run(events + [TouchCancelled]) == Run(events).(points := map[], taken := false, cancelled := false)
    ensures Commands(events + [TouchCancelled]) == Commands(events) && Begun(Commands(events + [TouchCancelled]))
    ensures !InStep(events + [TouchCancelled])
  {
    assert (events + [TouchCancelled])[..|events|] == events;
    ProtocolObeyed(events);
  }

  // ---------------------------------------------------------------------------
  // When a gesture is taken
  // ---------------------------------------------------------------------------

  /** A touch down: its time and whether it left more than one finger tracked. */
  datatype Touch = Touch(time: int, joins: bool)

  /** The touches since the last moment without tracked fingers. */
  function Burst(events: seq<Event>): seq<Touch> {
    if events == [] then []
    else
      var before, e := events[..|events| - 1], events[|events| - 1];
      if e.FingerDown? then
        (if Run(before).points == map[] then [] else Burst(before)) + [Touch(e.time, |Run(events).points| != 1)]
      else if Run(events).points == map[] then []
      else Burst(before)
  }

  /** Every touch that joins others comes at most 250 milliseconds after its predecessor. */
  predicate Prompt(b: seq<Touch>) {
    forall i :: 1 <= i < |b| && b[i].joins ==> b[i].time - b[i - 1].time <= 250000
  }

  /** While no gesture is taken, the cancelled flag says exactly that some touch came too late. */
  lemma {:induction false} CancelledMeansLate(events: seq<Event>)
    requires !Run(events).taken
    ensures Run(events).cancelled <==> !Prompt(Burst(events))
    ensures Run(events).points != map[] ==> Burst(events) != []
    ensures Run(events).points != map[] && !Run(events).cancelled ==> Run(events).lastDown == Burst(events)[|Burst(events)| - 1].time
  {
    if events != [] {
      var before, e := events[..|events| - 1], events[|events| - 1];
      var s := Run(before);
      RunValid(before);
      match e {
        case FingerDown(id, pos, time) =>
          CancelledMeansLate(before);
          InsertNotEmpty(s.points, id, pos);
          DownKeepsBurst(events);
        case FingerMotion(_, _, _, _) =>
          CancelledMeansLate(before);
        case FingerUp(id) =>
          NoneLeft(s.points - {id});
          if !s.taken {
            CancelledMeansLate(before);
            if s.points == map[] {
              assert s.points - {id} == map[];
            }
          }
        case TouchCancelled =>
      }
    }
  }

  lemma PromptSnoc(b: seq<Touch>, t: Touch)
    ensures Prompt(b + [t]) <==> b == [] || (Prompt(b) && (t.joins ==> t.time - b[|b| - 1].time <= MAX_GAP))
  {
    assert forall i :: 0 <= i < |b| ==> (b + [t])[i] == b[i];
    if b != [] {
      assert (b + [t])[|b|] == t;
    }
  }

  /** How a touch extends the burst. */
  lemma DownKeepsBurst(events: seq<Event>)
    requires events != [] && events[|events| - 1].FingerDown?
    requires !Run(events[..|events| - 1]).taken
    ensures var before, e := events[..|events| - 1], events[|events| - 1];
            Prompt(Burst(events)) <==>
            Run(before).points == map[] || Burst(before) == [] ||
            (Prompt(Burst(before)) &&
             (|Run(events).points| != 1 ==> e.time - Burst(before)[|Burst(before)| - 1].time <= MAX_GAP))
  {
    hide Run, Prompt;
    var before, e := events[..|events| - 1], events[|events| - 1];
    var t := Touch(e.time, |Run(events).points| != 1);
    PromptSnoc(Burst(before), t);
    PromptSnoc([], t);
    assert [] + [t] == [t];
  }

  /** A touch takes the gesture exactly when it is the third or later finger and no touch of the burst came late. */
  lemma TakenExactly(events: seq<Event>, id: int, pos: Vec, time: int)
    requires !Run(events).taken
    ensures var all := events + [FingerDown(id, pos, time)];
            (Run(all).taken <==> |Run(all).points| >= 3 && Prompt(Burst(all))) &&
            Commands(all) == Commands(events) + (if Run(all).taken then [SwipeStart(|Run(all).points|)] else [])
  {
    var all := events + [FingerDown(id, pos, time)];
    assert all[..|all| - 1] == events;
    CancelledMeansLate(events);
    RunValid(events);
    DownKeepsBurst(all);
    InsertNotEmpty(Run(events).points, id, pos);
    if Run(events).points == map[] {
      assert Run(events).points[id := pos] == map[id := pos];
      assert |map[id := pos]| == 1;
    }
  }

  // ---------------------------------------------------------------------------
  // Filter and recognizer together
  // ---------------------------------------------------------------------------

  /** What the commands do to the touchscreen's recognizer, whose gestures ask for `cfg`. */
  ghost function Replay(r: RecState, cfg: Config, cmds: seq<Command>): RecState {
    if cmds == [] then r
    else
      var before := Replay(r, cfg, cmds[..|cmds| - 1]);
      match cmds[|cmds| - 1]
      case SwipeStart(n) => StartSwipeSpec(before, cfg, n, None).0
      case SwipeUpdate(d) => UpdateSwipeSpec(before, cfg, d).0
      case SwipeEnd => EndSwipeSpec(before, cfg).0
      case SwipeCancel => CancelSwipeSpec(before).0
  }

  /** Between swipes the recognizer is at rest; during one it only ever holds swipes. */
  lemma {:induction false} RestsBetweenSwipes(r: RecState, cfg: Config, cmds: seq<Command>)
    requires GestureRuns.Fresh(r) && Obeys(cmds)
    ensures Replay(r, cfg, cmds).activePinches == [] && Replay(r, cfg, cmds).swipes == r.swipes
    ensures !Begun(cmds) ==> GestureRuns.Fresh(Replay(r, cfg, cmds))
  {
    if cmds != [] {
      var before, c := cmds[..|cmds| - 1], cmds[|cmds| - 1];
      RestsBetweenSwipes(r, cfg, before);
      if c.SwipeUpdate? {
        var e := Replay(r, cfg, before);
        var total := Add(e.delta, c.delta);
        GestureRuns.TwoPasses(e.(delta := total, axis := LockedAxis(e.axis, total)), cfg,
                              DirectionOn(CurrentAxis(e.axis, total), total));
      }
    }
  }

  lemma ReplayOneMore(r: RecState, cfg: Config, cmds: seq<Command>, n: nat)
    ensures Replay(r, cfg, cmds + [SwipeStart(n)]) == StartSwipeSpec(Replay(r, cfg, cmds), cfg, n, None).0
  {
    assert (cmds + [SwipeStart(n)])[..|cmds|] == cmds;
  }

  /** Without outside interruptions, a gesture the filter takes starts every registered swipe for that many fingers. */
  lemma TakenGestureStarts(r: RecState, cfg: Config, events: seq<Event>, id: int, pos: Vec, time: int)
    requires GestureRuns.Fresh(r) && NeverInterrupted(events) && !Run(events).taken
    requires Run(events + [FingerDown(id, pos, time)]).taken
    ensures var all := events + [FingerDown(id, pos, time)];
            Replay(r, cfg, Commands(all)).activeSwipes ==
            Filter(r.swipes, Admitted(cfg, |Run(all).points|, None, NoAxis))
  {
    ProtocolObeyed(events);
    UninterruptedInStep(events);
    RestsBetweenSwipes(r, cfg, Commands(events));
    TakenExactly(events, id, pos, time);
    ReplayOneMore(r, cfg, Commands(events), |Run(events + [FingerDown(id, pos, time)]).points|);
  }

  function Updates(ds: seq<Vec>): seq<Command> {
    seq(|ds|, i requires 0 <= i < |ds| => SwipeUpdate(ds[i]))
  }

  lemma MotionSends(s: TouchState, m: Event) returns (d: Vec)
    requires s.Live() && m.FingerMotion?
    ensures Step(s, m).0.Live() && Step(s, m).1 == [SwipeUpdate(d)]
  {
    hide Contribution;
    d := Step(s, m).1[0].delta;
  }

  /** While a gesture runs, each movement of a finger sends one update, and nothing ends it. */
  lemma {:induction false} MotionsUpdate(events: seq<Event>, motions: seq<Event>) returns (ds: seq<Vec>)
    requires Run(events).Live() && forall i :: 0 <= i < |motions| ==> motions[i].FingerMotion?
    ensures |ds| == |motions| && Run(events + motions).Live()
    ensures Commands(events + motions) == Commands(events) + Updates(ds)
  {
    hide Run, Commands, Step, Updates;
    if motions == [] {
      ds := [];
      assert events + motions == events;
      NoUpdates();
    } else {
      var before, m := motions[..|motions| - 1], motions[|motions| - 1];
      var rest := MotionsUpdate(events, before);
      assert motions == before + [m];
      MoreMotions(events, before, m);
      RunSnoc(events + before, m);
      var d := MotionSends(Run(events + before), m);
      ds := rest + [d];
      UpdatesSnoc(rest, d);
      ConcatAssociative(Commands(events), Updates(rest), [SwipeUpdate(d)]);
    }
  }

  lemma MoreMotions(events: seq<Event>, before: seq<Event>, m: Event)
    ensures events + (before + [m]) == (events + before) + [m]
  {
  }

  lemma NoUpdates()
    ensures Updates([]) == []
  {
  }

  lemma UpdatesSnoc(ds: seq<Vec>, d: Vec)
    ensures Updates(ds + [d]) == Updates(ds) + [SwipeUpdate(d)]
  {
  }

  lemma ReplayUpdate(r: RecState, cfg: Config, cmds: seq<Command>, d: Vec)
    ensures Replay(r, cfg, cmds + [SwipeUpdate(d)]) == UpdateSwipeSpec(Replay(r, cfg, cmds), cfg, d).0
  {
    assert (cmds + [SwipeUpdate(d)])[..|cmds|] == cmds;
  }

  /** A start and updates make the recognizer do what a swipe of these movements does. */
  lemma {:induction false} ReplaySwipe(r: RecState, cfg: Config, cmds: seq<Command>, n: nat, ds: seq<Vec>)
    ensures Replay(r, cfg, cmds + [SwipeStart(n)] + Updates(ds)) ==
            GestureRuns.SwipeRun(Replay(r, cfg, cmds), cfg, n, None, ds)
  {
    hide Replay, StartSwipeSpec, UpdateSwipeSpec;
    if ds == [] {
      ReplayOneMore(r, cfg, cmds, n);
      assert cmds + [SwipeStart(n)] + Updates(ds) == cmds + [SwipeStart(n)];
    } else {
      var before, d := ds[..|ds| - 1], ds[|ds| - 1];
      ReplaySwipe(r, cfg, cmds, n, before);
      ReplayUpdate(r, cfg, cmds + [SwipeStart(n)] + Updates(before), d);
      assert Updates(ds) == Updates(before) + [SwipeUpdate(d)];
      assert cmds + [SwipeStart(n)] + Updates(ds) == (cmds + [SwipeStart(n)] + Updates(before)) + [SwipeUpdate(d)];
    }
  }

  /** A whole gesture without interruptions before it: the recognizer is at rest, the taking touch starts a swipe of all
      tracked fingers, the movements update it, and the first finger lifted ends it. */
  lemma WholeGesture(r: RecState, cfg: Config, events: seq<Event>, down: Event, motions: seq<Event>, lifted: int)
    returns (rest: RecState, n: nat, ds: seq<Vec>)
    requires GestureRuns.Fresh(r) && NeverInterrupted(events) && !Run(events).taken
    requires down.FingerDown? && Run(events + [down]).taken && forall i :: 0 <= i < |motions| ==> motions[i].FingerMotion?
    ensures GestureRuns.Fresh(rest) && rest.swipes == r.swipes && n == |Run(events + [down]).points| && |ds| == |motions|
    ensures Commands(events + [down] + motions + [FingerUp(lifted)]) ==
            Commands(events) + [SwipeStart(n)] + Updates(ds) + [SwipeEnd]
    ensures Replay(r, cfg, Commands(events + [down] + motions)) == GestureRuns.SwipeRun(rest, cfg, n, None, ds)
    ensures Replay(r, cfg, Commands(events + [down] + motions + [FingerUp(lifted)])) ==
            EndSwipeSpec(GestureRuns.SwipeRun(rest, cfg, n, None, ds), cfg).0
  {
    var start := events + [down];
    rest, n := Replay(r, cfg, Commands(events)), |Run(start).points|;
    ProtocolObeyed(events);
    UninterruptedInStep(events);
    RestsBetweenSwipes(r, cfg, Commands(events));
    TakenExactly(events, down.id, down.pos, down.time);
    RunSnoc(events, down);
    assert Run(start).Live();
    hide Run, Commands, Step;
    ds := MotionsUpdate(start, motions);
    ReplaySwipe(r, cfg, Commands(events), n, ds);
    LiftEnds(r, cfg, start + motions, lifted);
  }

  /** The first finger lifted during a gesture ends the swipe. */
  lemma LiftEnds(r: RecState, cfg: Config, events: seq<Event>, lifted: int)
    requires Run(events).Live()
    ensures Commands(events + [FingerUp(lifted)]) == Commands(events) + [SwipeEnd]
    ensures Replay(r, cfg, Commands(events + [FingerUp(lifted)])) == EndSwipeSpec(Replay(r, cfg, Commands(events)), cfg).0
  {
    RunSnoc(events, FingerUp(lifted));
    var cmds := Commands(events);
    assert (cmds + [SwipeEnd])[..|cmds|] == cmds;
  }

  /** Which gestures a whole touchscreen gesture triggers, told from the number of fingers and the updates sent. */
  lemma WholeGestureTriggers(r: RecState, cfg: Config, events: seq<Event>, down: Event, motions: seq<Event>, lifted: int,
                             g: SwipeGesture)
    returns (ds: seq<Vec>)
    requires GestureRuns.Fresh(r) && NeverInterrupted(events) && !Run(events).taken
    requires down.FingerDown? && Run(events + [down]).taken && forall i :: 0 <= i < |motions| ==> motions[i].FingerMotion?
    requires motions != [] && GestureRuns.NoFourSided(r, cfg, |Run(events + [down]).points|)
    ensures var n := |Run(events + [down]).points|;
            Commands(events + [down] + motions + [FingerUp(lifted)]) ==
            Commands(events) + [SwipeStart(n)] + Updates(ds) + [SwipeEnd]
    ensures var p, n := SwipeOf(cfg, g), |Run(events + [down]).points|;
            ds != [] &&
            (Triggered(g) in EndSwipeSpec(Replay(r, cfg, Commands(events + [down] + motions)), cfg).1 <==>
             g in r.swipes && p.FingersMatch(n) && p.direction == GestureRuns.DirectionAfter(NoAxis, ORIGIN, ds) &&
             (p.minimumDelta.None? || p.minimumDelta.value == ORIGIN ||
              (Travel(p.direction, GestureRuns.Sum(ds)) > 0.0 &&
               Travel(p.direction, GestureRuns.Sum(ds)) >= Abs(Along(p.direction, p.minimumDelta.value)))))
  {
    hide Run, Commands, Replay, GestureRuns.SwipeRun, EndSwipeSpec, NeverInterrupted;
    var rest, n;
    rest, n, ds := WholeGesture(r, cfg, events, down, motions, lifted);
    GestureRuns.TriggeredExactly(rest, cfg, n, ds, g);
  }

  /** After an interruption the recognizer still holds the old swipe, and the next taken gesture starts nothing. */
  lemma InterruptionSwallowsNextStart(r: RecState, cfg: Config, events: seq<Event>, more: seq<Event>, n: nat)
    requires Run(events).Live() && Replay(r, cfg, Commands(events)).activeSwipes != []
    requires Commands(events + [TouchCancelled] + more) == Commands(events) + [SwipeStart(n)]
    ensures Replay(r, cfg, Commands(events + [TouchCancelled] + more)) == Replay(r, cfg, Commands(events)).(fingers := n)
  {
    ReplayOneMore(r, cfg, Commands(events), n);
  }

  // ---------------------------------------------------------------------------
  // Updates and finger positions
  // ---------------------------------------------------------------------------

  /** Where a finger was seen last, told from its own events alone; None if it is not tracked. */
  function LastSeen(events: seq<Event>, id: int): Option<Vec> {
    if events == [] then None
    else
      var before := events[..|events| - 1];
      match events[|events| - 1]
      case FingerDown(i, pos, _) => if i == id && !Run(before).taken then Some(pos) else LastSeen(before, id)
      case FingerMotion(i, pos, _, _) => if i == id && Run(before).Live() then Some(pos) else LastSeen(before, id)
      case FingerUp(i) => if i == id then None else LastSeen(before, id)
      case TouchCancelled => None
  }

  /** In every run the tracked positions are where the fingers were seen last. */
  lemma {:induction false} PositionsAreLast(events: seq<Event>, id: int)
    ensures LastSeen(events, id) == if id in Run(events).points then Some(Run(events).points[id]) else None
  {
    if events != [] {
      PositionsAreLast(events[..|events| - 1], id);
    }
  }

  /** `fingers` lists the tracked fingers. */
  ghost predicate Lists(points: map<int, Vec>, fingers: seq<int>) {
    NoDup(fingers) && points.Keys == Elements(fingers)
  }

  function Elements(fingers: seq<int>): set<int> {
    set f | f in fingers
  }

  /** The sum of the positions of some tracked fingers. */
  function Total(points: map<int, Vec>, fingers: seq<int>): Vec {
    if fingers == [] then ORIGIN
    else
      var id := fingers[|fingers| - 1];
      Add(Total(points, fingers[..|fingers| - 1]), PositionOf(points, id))
  }

  function PositionOf(points: map<int, Vec>, id: int): Vec {
    if id in points then points[id] else ORIGIN
  }

  function Minus(a: Vec, b: Vec): Vec {
    Vec(a.x - b.x, a.y - b.y)
  }

  lemma LastApart(fingers: seq<int>)
    requires NoDup(fingers) && fingers != []
    ensures var rest, id := fingers[..|fingers| - 1], fingers[|fingers| - 1];
            NoDup(rest) && id !in rest && Elements(fingers) == Elements(rest) + {id}
  {
    assert fingers == fingers[..|fingers| - 1] + [fingers[|fingers| - 1]];
  }

  lemma {:induction false} ElementsCount(fingers: seq<int>)
    requires NoDup(fingers)
    ensures |Elements(fingers)| == |fingers|
  {
    if fingers == [] {
      assert Elements(fingers) == {};
    } else {
      LastApart(fingers);
      hide Elements, NoDup;
      ElementsCount(fingers[..|fingers| - 1]);
      assert fingers[|fingers| - 1] !in Elements(fingers[..|fingers| - 1]) by {
        NotElement(fingers[..|fingers| - 1], fingers[|fingers| - 1]);
      }
    }
  }

  lemma NotElement(fingers: seq<int>, id: int)
    ensures id in Elements(fingers) <==> id in fingers
  {
  }

  lemma ListedCount(points: map<int, Vec>, fingers: seq<int>)
    requires Lists(points, fingers)
    ensures |points| == |fingers|
  {
    ElementsCount(fingers);
    assert |points| == |points.Keys|;
  }

  lemma {:induction false} TotalUntouched(points: map<int, Vec>, fingers: seq<int>, id: int, pos: Vec)
    requires id !in fingers
    ensures Total(points[id := pos], fingers) == Total(points, fingers)
  {
    if fingers != [] {
      TotalUntouched(points, fingers[..|fingers| - 1], id, pos);
    }
  }

  /** Replacing one summand, and adding another before or after that. */
  lemma Exchanged(a: Vec, was: Vec, now: Vec, b: Vec)
    ensures Add(a, now) == Add(Add(a, was), Minus(now, was))
    ensures Add(Add(a, Minus(now, was)), b) == Add(Add(a, b), Minus(now, was))
  {
  }

  lemma PositionMoved(points: map<int, Vec>, id: int, pos: Vec, other: int)
    ensures PositionOf(points[id := pos], other) == if other == id then pos else PositionOf(points, other)
  {
  }

  /** Moving one finger changes the total by its own movement. */
  lemma {:induction false} TotalMoved(points: map<int, Vec>, fingers: seq<int>, id: int, pos: Vec)
    requires id in points && NoDup(fingers) && id in fingers
    ensures Total(points[id := pos], fingers) == Add(Total(points, fingers), Minus(pos, points[id]))
  {
    LastApart(fingers);
    var rest, last := fingers[..|fingers| - 1], fingers[|fingers| - 1];
    assert fingers == rest + [last];
    PositionMoved(points, id, pos, last);
    Exchanged(Total(points, rest), PositionOf(points, id), pos, PositionOf(points, last));
    assert PositionOf(points, id) == points[id];
    hide NoDup, Elements, Add, Minus, PositionOf;
    if last == id {
      TotalUntouched(points, rest, id, pos);
    } else {
      TotalMoved(points, rest, id, pos);
    }
  }

  /** `v` is 5/n times `moved`, each component with its factor. */
  predicate Scaled(v: Vec, n: nat, xfactor: real, yfactor: real, moved: Vec) {
    v.x * n as real == 5.0 * (xfactor * moved.x) && v.y * n as real == 5.0 * (yfactor * moved.y)
  }

  lemma ScaledNothing(n: nat, xfactor: real, yfactor: real)
    ensures Scaled(ORIGIN, n, xfactor, yfactor, ORIGIN)
  {
  }

  lemma Distribute(a: real, b: real, c: real)
    ensures (a + b) * c == a * c + b * c && c * (a + b) == c * a + c * b
  {
  }

  lemma ScaledAdd(v: Vec, w: Vec, n: nat, xfactor: real, yfactor: real, a: Vec, b: Vec)
    requires Scaled(v, n, xfactor, yfactor, a) && Scaled(w, n, xfactor, yfactor, b)
    ensures Scaled(Add(v, w), n, xfactor, yfactor, Add(a, b))
  {
    Distribute(v.x, w.x, n as real);
    Distribute(v.y, w.y, n as real);
    Distribute(a.x, b.x, xfactor);
    Distribute(a.y, b.y, yfactor);
  }

  lemma Divided(a: real, n: real)
    requires n > 0.0
    ensures a / n * n == a
  {
  }

  /** One finger's part of an update is its movement, scaled. */
  lemma ContributionScaled(from: Vec, to: Vec, xfactor: real, yfactor: real, n: nat)
    requires n > 0
    ensures Scaled(Contribution(from, to, xfactor, yfactor, n), n, xfactor, yfactor, Minus(to, from))
  {
    Divided(5.0 * (xfactor * (to.x - from.x)), n as real);
    Divided(5.0 * (yfactor * (to.y - from.y)), n as real);
  }

  /** All events are movements of listed fingers, on an output with the given factors. */
  predicate MotionsOf(motions: seq<Event>, fingers: seq<int>, xfactor: real, yfactor: real) {
    forall i :: 0 <= i < |motions| ==>
      motions[i].FingerMotion? && motions[i].id in fingers && motions[i].xfactor == xfactor && motions[i].yfactor == yfactor
  }

  /** What one movement of a listed finger does: its update is the change of the total position, scaled. */
  lemma MotionScaled(s: TouchState, m: Event, fingers: seq<int>) returns (d: Vec)
    requires s.Live() && Lists(s.points, fingers) && m.FingerMotion? && m.id in fingers
    ensures var t := Step(s, m).0;
            Step(s, m).1 == [SwipeUpdate(d)] && t.Live() && Lists(t.points, fingers) &&
            Scaled(d, |fingers|, m.xfactor, m.yfactor, Minus(Total(t.points, fingers), Total(s.points, fingers)))
  {
    var points := s.points[m.id := m.pos];
    NotElement(fingers, m.id);
    assert m.id in s.points;
    assert points.Keys == s.points.Keys;
    PointsCount(s.points, m.id, m.pos);
    ListedCount(s.points, fingers);
    TotalMoved(s.points, fingers, m.id, m.pos);
    hide Contribution, Total, Scaled, Elements, NoDup;
    d := Contribution(s.points[m.id], m.pos, m.xfactor, m.yfactor, |points|);
    ContributionScaled(s.points[m.id], m.pos, m.xfactor, m.yfactor, |fingers|);
    assert Minus(Add(Total(s.points, fingers), Minus(m.pos, s.points[m.id])), Total(s.points, fingers)) == Minus(m.pos, s.points[m.id]);
  }

  lemma WayOn(p: Vec, q: Vec, t: Vec)
    ensures Add(Minus(q, p), Minus(t, q)) == Minus(t, p) && Minus(p, p) == ORIGIN
  {
  }

  lemma SumSnoc(ds: seq<Vec>, d: Vec)
    ensures GestureRuns.Sum(ds + [d]) == Add(GestureRuns.Sum(ds), d) && GestureRuns.Sum([]) == ORIGIN
  {
    assert (ds + [d])[..|ds|] == ds;
  }

  lemma MotionsSnoc(motions: seq<Event>, fingers: seq<int>, xfactor: real, yfactor: real)
    requires MotionsOf(motions, fingers, xfactor, yfactor) && motions != []
    ensures var m := motions[|motions| - 1];
            MotionsOf(motions[..|motions| - 1], fingers, xfactor, yfactor) &&
            m.FingerMotion? && m.id in fingers && m.xfactor == xfactor && m.yfactor == yfactor
  {
  }

  /** The updates of a whole gesture add up to 5/n times the way that its n fingers have gone together, from where they
      were at the start to where they were seen last. */
  lemma {:induction false} UpdatesFollowFingers(events: seq<Event>, motions: seq<Event>, fingers: seq<int>, xfactor: real, yfactor: real)
    returns (ds: seq<Vec>)
    requires Run(events).Live() && Lists(Run(events).points, fingers) && MotionsOf(motions, fingers, xfactor, yfactor)
    ensures Commands(events + motions) == Commands(events) + Updates(ds) && |ds| == |motions|
    ensures Run(events + motions).Live() && Lists(Run(events + motions).points, fingers)
    ensures Scaled(GestureRuns.Sum(ds), |fingers|, xfactor, yfactor,
                   Minus(Total(Run(events + motions).points, fingers), Total(Run(events).points, fingers)))
  {
    hide Run, Commands, Step, Updates, Scaled, Lists, Total, MotionsOf, Minus, Add, GestureRuns.Sum;
    var p := Total(Run(events).points, fingers);
    if motions == [] {
      ds := [];
      assert events + motions == events;
      NoUpdates();
      SumSnoc([], ORIGIN);
      WayOn(p, p, p);
      ScaledNothing(|fingers|, xfactor, yfactor);
    } else {
      var before, m := motions[..|motions| - 1], motions[|motions| - 1];
      MotionsSnoc(motions, fingers, xfactor, yfactor);
      var rest := UpdatesFollowFingers(events, before, fingers, xfactor, yfactor);
      assert motions == before + [m];
      MoreMotions(events, before, m);
      RunSnoc(events + before, m);
      var d := MotionScaled(Run(events + before), m, fingers);
      ds := rest + [d];
      UpdatesSnoc(rest, d);
      ConcatAssociative(Commands(events), Updates(rest), [SwipeUpdate(d)]);
      var q, t := Total(Run(events + before).points, fingers), Total(Run(events + motions).points, fingers);
      ScaledAdd(GestureRuns.Sum(rest), d, |fingers|, xfactor, yfactor, Minus(q, p), Minus(t, q));
      WayOn(p, q, t);
      SumSnoc(rest, d);
    }
  }

  /** The factor that counts for a direction. */
  function FactorAlong(d: Direction, xfactor: real, yfactor: real): real {
    if d.Up? || d.Down? then yfactor else xfactor
  }

  lemma TravelScaled(v: Vec, n: nat, xfactor: real, yfactor: real, moved: Vec, d: Direction)
    requires Scaled(v, n, xfactor, yfactor, moved)
    ensures Travel(d, v) * n as real == 5.0 * (FactorAlong(d, xfactor, yfactor) * Travel(d, moved))
  {
  }

  lemma CompareScaled(t: real, n: real, f: real, m: real, least: real)
    requires n > 0.0 && f > 0.0 && t * n == 5.0 * (f * m)
    ensures (t > 0.0 <==> m > 0.0) && (t >= least <==> 5.0 * (f * m) >= least * n)
  {
    SignOfProduct(t, n);
    SignOfProduct(m, f);
    Distribute(t, -least, n);
    SignOfProduct(t - least, n);
  }

  lemma SignOfProduct(a: real, b: real)
    requires b > 0.0
    ensures (a * b > 0.0 <==> a > 0.0) && (a * b >= 0.0 <==> a >= 0.0)
  {
    if a > 0.0 {
      assert a * b > 0.0;
    } else if a < 0.0 {
      assert (-a) * b > 0.0;
    }
  }

  /** What a gesture asks of the way its fingers have gone together. */
  predicate FingersReach(p: SwipeParams, n: nat, xfactor: real, yfactor: real, moved: Vec) {
    p.minimumDelta.None? || p.minimumDelta.value == ORIGIN ||
    (Travel(p.direction, moved) > 0.0 &&
     5.0 * (FactorAlong(p.direction, xfactor, yfactor) * Travel(p.direction, moved)) >=
     Abs(Along(p.direction, p.minimumDelta.value)) * n as real)
  }

  lemma ReachScaled(p: SwipeParams, v: Vec, n: nat, xfactor: real, yfactor: real, moved: Vec)
    requires Scaled(v, n, xfactor, yfactor, moved) && n > 0 && xfactor > 0.0 && yfactor > 0.0
    ensures FingersReach(p, n, xfactor, yfactor, moved) <==>
            p.minimumDelta.None? || p.minimumDelta.value == ORIGIN ||
            (Travel(p.direction, v) > 0.0 && Travel(p.direction, v) >= Abs(Along(p.direction, p.minimumDelta.value)))
  {
    TravelScaled(v, n, xfactor, yfactor, moved, p.direction);
    if p.minimumDelta.Some? {
      CompareScaled(Travel(p.direction, v), n as real, FactorAlong(p.direction, xfactor, yfactor), Travel(p.direction, moved),
                    Abs(Along(p.direction, p.minimumDelta.value)));
    }
  }

  /** Which gestures a whole touchscreen gesture triggers, told from where its fingers were at the start and at the end,
      and from the direction of the last update. */
  lemma GestureFollowsFingers(r: RecState, cfg: Config, events: seq<Event>, down: Event, motions: seq<Event>,
                              fingers: seq<int>, xfactor: real, yfactor: real, g: SwipeGesture)
    returns (ds: seq<Vec>)
    requires GestureRuns.Fresh(r) && NeverInterrupted(events) && !Run(events).taken
    requires down.FingerDown? && Run(events + [down]).taken && Lists(Run(events + [down]).points, fingers)
    requires motions != [] && MotionsOf(motions, fingers, xfactor, yfactor) && xfactor > 0.0 && yfactor > 0.0
    requires GestureRuns.NoFourSided(r, cfg, |fingers|)
    ensures Commands(events + [down] + motions) == Commands(events + [down]) + Updates(ds) && ds != []
    ensures var p := SwipeOf(cfg, g);
            var moved := Minus(Total(Run(events + [down] + motions).points, fingers), Total(Run(events + [down]).points, fingers));
            Triggered(g) in EndSwipeSpec(Replay(r, cfg, Commands(events + [down] + motions)), cfg).1 <==>
            g in r.swipes && p.FingersMatch(|fingers|) && p.direction == GestureRuns.DirectionAfter(NoAxis, ORIGIN, ds) &&
            FingersReach(p, |fingers|, xfactor, yfactor, moved)
  {
    var start := events + [down];
    ListedCount(Run(start).points, fingers);
    TakenExactly(events, down.id, down.pos, down.time);
    RunSnoc(events, down);
    assert Run(start).Live() && |fingers| > 0;
    hide Run, Commands, Step, Updates, Scaled, FingersReach, NeverInterrupted, Replay, EndSwipeSpec, Lists, Total;
    ds := UpdatesFollowFingers(start, motions, fingers, xfactor, yfactor);
    var other := WholeGestureTriggers(r, cfg, events, down, motions, 0, g);
    LiftEnds(r, cfg, start + motions, 0);
    SameUpdates(Commands(start), ds, other);
    var moved := Minus(Total(Run(start + motions).points, fingers), Total(Run(start).points, fingers));
    ReachScaled(SwipeOf(cfg, g), GestureRuns.Sum(ds), |fingers|, xfactor, yfactor, moved);
  }

  lemma SameUpdates(cmds: seq<Command>, ds: seq<Vec>, es: seq<Vec>)
    requires cmds + Updates(ds) + [SwipeEnd] == cmds + Updates(es) + [SwipeEnd]
    ensures ds == es
  {
    var a, b := cmds + Updates(ds) + [SwipeEnd], cmds + Updates(es) + [SwipeEnd];
    assert |a| == |cmds| + |ds| + 1 && |b| == |cmds| + |es| + 1;
    forall i | 0 <= i < |ds| ensures ds[i] == es[i] {
      assert a[|cmds| + i] == SwipeUpdate(ds[i]) && b[|cmds| + i] == SwipeUpdate(es[i]);
    }
  }

  // ---------------------------------------------------------------------------
  // The end of a gesture
  // ---------------------------------------------------------------------------

  /** A further finger while a gesture is taken is not tracked; it cancels all that is active and triggers nothing. */
  lemma FurtherFingerCancels(r: RecState, cfg: Config, events: seq<Event>, id: int, pos: Vec, time: int)
    requires GestureRuns.Fresh(r) && Run(events).taken
    ensures var all := events + [FingerDown(id, pos, time)];
            Run(all) == Run(events).(cancelled := true) && Commands(all) == Commands(events) + [SwipeCancel] &&
            GestureRuns.Fresh(Replay(r, cfg, Commands(all))) &&
            CancelSwipeSpec(Replay(r, cfg, Commands(events))).1 == CancelledAll(Replay(r, cfg, Commands(events)).activeSwipes)
  {
    var all := events + [FingerDown(id, pos, time)];
    RunSnoc(events, FingerDown(id, pos, time));
    ProtocolObeyed(all);
    ProtocolObeyed(events);
    RestsBetweenSwipes(r, cfg, Commands(events));
    RestsBetweenSwipes(r, cfg, Commands(all));
    OneMore(Commands(events), SwipeCancel);
  }

  /** Some finger is tracked after each of `more`. */
  predicate TrackedThroughout(events: seq<Event>, more: seq<Event>) {
    more != [] ==> TrackedThroughout(events, more[..|more| - 1]) && Run(events + more).points != map[]
  }

  predicate OnlyCancels(cmds: seq<Command>) {
    forall i :: 0 <= i < |cmds| ==> cmds[i] == SwipeCancel
  }

  lemma EndedStep(s: TouchState, e: Event)
    requires s.taken && s.cancelled && Step(s, e).0.points != map[]
    ensures Step(s, e).0.taken && Step(s, e).0.cancelled && OnlyCancels(Step(s, e).1)
  {
    if e.FingerUp? {
      NoneLeft(s.points - {e.id});
    }
  }

  lemma OnlyCancelsAppend(a: seq<Command>, b: seq<Command>)
    requires OnlyCancels(a) && OnlyCancels(b)
    ensures OnlyCancels(a + b)
  {
  }

  lemma TrackedSnoc(events: seq<Event>, more: seq<Event>)
    requires TrackedThroughout(events, more) && more != []
    ensures TrackedThroughout(events, more[..|more| - 1]) && Run(events + more).points != map[]
  {
  }

  /** After the end of a gesture, as long as a finger is tracked, nothing but cancels is sent. */
  lemma {:induction false} NothingUntilUntracked(events: seq<Event>, more: seq<Event>) returns (sent: seq<Command>)
    requires Run(events).taken && Run(events).cancelled && TrackedThroughout(events, more)
    ensures Run(events + more).taken && Run(events + more).cancelled
    ensures Commands(events + more) == Commands(events) + sent && OnlyCancels(sent)
  {
    hide Run, Commands, Step, TrackedThroughout, OnlyCancels;
    if more == [] {
      assert events + more == events;
      sent := [];
      NoCancels();
    } else {
      var before, e := more[..|more| - 1], more[|more| - 1];
      TrackedSnoc(events, more);
      var rest := NothingUntilUntracked(events, before);
      assert more == before + [e];
      MoreMotions(events, before, e);
      RunSnoc(events + before, e);
      EndedStep(Run(events + before), e);
      var out := Step(Run(events + before), e).1;
      sent := rest + out;
      OnlyCancelsAppend(rest, out);
      ConcatAssociative(Commands(events), rest, out);
    }
  }

  lemma NoCancels()
    ensures OnlyCancels([])
  {
  }

  // ---------------------------------------------------------------------------
  // An interrupted run
  // ---------------------------------------------------------------------------

  const THREE_FINGERS := [FingerDown(0, ORIGIN, 0), FingerDown(1, ORIGIN, 0), FingerDown(2, ORIGIN, 0)]

  lemma ThreePoints()
    ensures |map[0 := ORIGIN]| == 1 && |map[0 := ORIGIN, 1 := ORIGIN]| == 2 && |map[0 := ORIGIN, 1 := ORIGIN, 2 := ORIGIN]| == 3
  {
    assert map[0 := ORIGIN].Keys == {0};
    assert map[0 := ORIGIN, 1 := ORIGIN].Keys == {0, 1};
    assert map[0 := ORIGIN, 1 := ORIGIN, 2 := ORIGIN].Keys == {0, 1, 2};
    assert |{0}| == 1 && |{0, 1}| == 2 && |{0, 1, 2}| == 3;
  }

  /** Three fingers that touch an untouched screen at once start a gesture. */
  lemma ThreeFingersStart(events: seq<Event>)
    requires var s := Run(events); s.points == map[] && !s.taken && !s.cancelled
    ensures Run(events + THREE_FINGERS).Live() && Commands(events + THREE_FINGERS) == Commands(events) + [SwipeStart(3)]
  {
    var a, b, c := THREE_FINGERS[0], THREE_FINGERS[1], THREE_FINGERS[2];
    assert events + THREE_FINGERS == events + [a] + [b] + [c];
    RunSnoc(events, a);
    RunSnoc(events + [a], b);
    RunSnoc(events + [a] + [b], c);
    hide Run, Commands;
    ThreePoints();
    assert Run(events + [a]) == TouchState(map[0 := ORIGIN], false, false, 0) && Step(Run(events), a).1 == [];
    assert Run(events + [a] + [b]) == TouchState(map[0 := ORIGIN, 1 := ORIGIN], false, false, 0);
    assert Step(Run(events + [a]), b).1 == [];
    assert Step(Run(events + [a] + [b]), c).1 == [SwipeStart(3)];
  }

  /** Such a run exists: three fingers, a cancel from outside, and three fingers again. The recognizer keeps its
      first swipe through all of it, and the second start starts nothing. */
  lemma InterruptedRun(r: RecState, cfg: Config, g: SwipeGesture)
    requires GestureRuns.Fresh(r) && g in r.swipes && SwipeOf(cfg, g).AdmittedBy(3, None, NoAxis)
    ensures var all := THREE_FINGERS + [TouchCancelled] + THREE_FINGERS;
            Run(THREE_FINGERS).Live() && !NeverInterrupted(all) && Run(all).Live() &&
            Commands(all) == [SwipeStart(3)] + [SwipeStart(3)] &&
            g in Replay(r, cfg, Commands(THREE_FINGERS)).activeSwipes &&
            Replay(r, cfg, Commands(all)) == Replay(r, cfg, Commands(THREE_FINGERS)).(fingers := 3)
  {
    var events := THREE_FINGERS;
    var all := events + [TouchCancelled] + events;
    assert [] + events == events;
    ThreeFingersStart([]);
    assert [] + [SwipeStart(3)] == [SwipeStart(3)];
    RunSnoc(events, TouchCancelled);
    ThreeFingersStart(events + [TouchCancelled]);
    assert all[3] == TouchCancelled && all[..3] == events;
    hide Run, Commands;
    assert Commands(events + [TouchCancelled]) == Commands(events);
    ReplayOneMore(r, cfg, [], 3);
    FilterMember(r.swipes, Admitted(cfg, 3, None, NoAxis), g);
    InterruptionSwallowsNextStart(r, cfg, events, events, 3);
  }
}
