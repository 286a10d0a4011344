/** What holds over whole runs of the gesture recognizer. */
module GestureRuns {
  import opened Sequences
  import opened Gestures

  // ---------------------------------------------------------------------------
  // Runs
  // ---------------------------------------------------------------------------

  /** One call of the recognizer. */
  datatype Op =
    | RegisterSwipe(swipe: SwipeGesture)
    | UnregisterSwipe(swipe: SwipeGesture)
    | RegisterPinch(pinch: PinchGesture)
    | UnregisterPinch(pinch: PinchGesture)
    | StartSwipe(fingers: nat)
    | StartSwipeAt(pos: Vec)
    | UpdateSwipe(delta: Vec)
    | CancelSwipe
    | EndSwipe
    | StartPinch(fingers: nat)
    | UpdatePinch(scale: real)
    | CancelPinch
    | EndPinch

  /** A call together with the gesture parameters at that moment; they may change between calls. */
  datatype Call = Call(op: Op, cfg: Config)

  ghost function Step(r: RecState, c: Call): Outcome {
    match c.op
    case RegisterSwipe(g) => RegisterSwipeSpec(r, g)
    case UnregisterSwipe(g) => UnregisterSwipeSpec(r, g)
    case RegisterPinch(g) => RegisterPinchSpec(r, g)
    case UnregisterPinch(g) => UnregisterPinchSpec(r, g)
    case StartSwipe(n) => StartSwipeSpec(r, c.cfg, n, None)
    case StartSwipeAt(pos) => StartSwipeSpec(r, c.cfg, 1, Some(pos))
    case UpdateSwipe(d) => UpdateSwipeSpec(r, c.cfg, d)
    case CancelSwipe => CancelSwipeSpec(r)
    case EndSwipe => EndSwipeSpec(r, c.cfg)
    case StartPinch(n) => StartPinchSpec(r, c.cfg, n)
    case UpdatePinch(s) => UpdatePinchSpec(r, c.cfg, s)
    case CancelPinch => CancelPinchSpec(r)
    case EndPinch => EndPinchSpec(r, c.cfg)
  }

  /** A gesture is registered only while it is not registered. */
  ghost predicate Legal(r: RecState, op: Op) {
    match op
    case RegisterSwipe(g) => g !in r.swipes
    case RegisterPinch(g) => g !in r.pinches
    case _ => true
  }

  ghost function Run(calls: seq<Call>): RecState {
    if calls == [] then INITIAL else Step(Run(calls[..|calls| - 1]), calls[|calls| - 1]).0
  }

  /** All signals emitted during a run. */
  ghost function SignalsOf(calls: seq<Call>): seq<Signal> {
    if calls == [] then []
    else SignalsOf(calls[..|calls| - 1]) + Step(Run(calls[..|calls| - 1]), calls[|calls| - 1]).1
  }

  ghost predicate LegalRun(calls: seq<Call>) {
    calls != [] ==> LegalRun(calls[..|calls| - 1]) && Legal(Run(calls[..|calls| - 1]), calls[|calls| - 1].op)
  }

  lemma UpdateSwipeKeepsValid(r: RecState, cfg: Config, d: Vec)
    requires r.Valid()
    ensures UpdateSwipeSpec(r, cfg, d).0.Valid()
  {
    var total := Add(r.delta, d);
    var dir := DirectionOn(CurrentAxis(r.axis, total), total);
    var r0 := r.(delta := total, axis := LockedAxis(r.axis, total));
    assert r0.Valid();
    hide SwipePass, SwipeProgressAll, RecState.Valid;
    SwipePassKeepsValid(r0, cfg, dir);
    SwipePassKeepsValid(SwipePass(r0, cfg, dir).0, cfg, dir);
  }

  lemma UpdatePinchKeepsValid(r: RecState, cfg: Config, s: real)
    requires r.Valid()
    ensures UpdatePinchSpec(r, cfg, s).0.Valid()
  {
    var dir := PinchDirectionOf(s);
    var r0 := r.(scale := s);
    assert r0.Valid();
    hide PinchPass, PinchProgressAll, RecState.Valid;
    PinchPassKeepsValid(r0, cfg, dir);
    PinchPassKeepsValid(PinchPass(r0, cfg, dir).0, cfg, dir);
  }

  lemma StepKeepsValid(r: RecState, c: Call)
    requires r.Valid() && Legal(r, c.op)
    ensures Step(r, c).0.Valid()
  {
    hide UpdateSwipeSpec, UpdatePinchSpec, StartSwipeSpec, StartPinchSpec, UnregisterSwipeSpec, UnregisterPinchSpec;
    match c.op
    case UnregisterSwipe(g) => UnregisterKeepsValid(r, g);
    case UnregisterPinch(g) => UnregisterPinchKeepsValid(r, g);
    case StartSwipe(n) => StartSwipeKeepsValid(r, c.cfg, n, None);
    case StartSwipeAt(pos) => StartSwipeKeepsValid(r, c.cfg, 1, Some(pos));
    case UpdateSwipe(d) => UpdateSwipeKeepsValid(r, c.cfg, d);
    case StartPinch(n) => StartPinchKeepsValid(r, c.cfg, n);
    case UpdatePinch(s) => UpdatePinchKeepsValid(r, c.cfg, s);
    case _ =>
  }

  /** In every run: lists without repetition, only registered gestures active, never swipes and pinches together. */
  lemma {:induction false} RunValid(calls: seq<Call>)
    requires LegalRun(calls)
    ensures Run(calls).Valid()
  {
    if calls != [] {
      RunValid(calls[..|calls| - 1]);
      StepKeepsValid(Run(calls[..|calls| - 1]), calls[|calls| - 1]);
    }
  }

  // ---------------------------------------------------------------------------
  // Conservation of signals
  // ---------------------------------------------------------------------------

  /** A start opens a gesture, triggering or cancelling closes it. */
  function Weight(s: Signal): int {
    match s
    case Started(_) => 1
    case Triggered(_) => -1
    case Cancelled(_) => -1
    case Progress(_, _) => 0
    case DeltaProgress(_, _) => 0
  }

  /** Number of starts minus the number of ends that gesture `o` has seen. */
  ghost function Net(log: seq<Signal>, o: object): int {
    if log == [] then 0
    else Net(log[..|log| - 1], o) + (if log[|log| - 1].who == o then Weight(log[|log| - 1]) else 0)
  }

  ghost function Has(gs: seq<object>, o: object): int {
    if o in gs then 1 else 0
  }

  /** 1 if `o` is active, else 0. */
  ghost function Open(r: RecState, o: object): int {
    Has(r.activeSwipes, o) + Has(r.activePinches, o)
  }

  /** 1 if the call drops the active gesture `o` without a signal, else 0. */
  ghost function Dropped(r: RecState, op: Op, o: object): int {
    if op.EndPinch? then Has(r.activeSwipes, o) else 0
  }

  ghost function DroppedIn(calls: seq<Call>, o: object): int {
    if calls == [] then 0
    else DroppedIn(calls[..|calls| - 1], o) + Dropped(Run(calls[..|calls| - 1]), calls[|calls| - 1].op, o)
  }

  lemma {:induction false} NetAppend(a: seq<Signal>, b: seq<Signal>, o: object)
    ensures Net(a + b, o) == Net(a, o) + Net(b, o)
  {
    if b == [] {
      assert a + b == a;
    } else {
      assert (a + b)[..|a + b| - 1] == a + b[..|b| - 1];
      NetAppend(a, b[..|b| - 1], o);
    }
  }

  /** One signal of weight `w` for each of `gs`. */
  lemma {:induction false} NetEach(log: seq<Signal>, gs: seq<object>, w: int, o: object)
    requires |log| == |gs| && NoDup(gs)
    requires forall i :: 0 <= i < |gs| ==> log[i].who == gs[i] && Weight(log[i]) == w
    ensures Net(log, o) == if o in gs then w else 0
  {
    if gs != [] {
      var hs, g := gs[..|gs| - 1], gs[|gs| - 1];
      NetEach(log[..|log| - 1], hs, w, o);
      assert gs == hs + [g];
    }
  }

  lemma {:induction false} NetNothing(log: seq<Signal>, o: object)
    requires forall i :: 0 <= i < |log| ==> Weight(log[i]) == 0
    ensures Net(log, o) == 0
  {
    if log != [] {
      NetNothing(log[..|log| - 1], o);
    }
  }

  lemma {:induction false} ProgressWeighsNothing(cfg: Config, gs: seq<SwipeGesture>, d: Vec)
    ensures forall i :: 0 <= i < |SwipeProgressAll(cfg, gs, d)| ==> Weight(SwipeProgressAll(cfg, gs, d)[i]) == 0
  {
    if gs != [] {
      ProgressWeighsNothing(cfg, gs[..|gs| - 1], d);
    }
  }

  /** A filter and its complement split the list. */
  lemma SwipeSplit(gs: seq<SwipeGesture>, p: SwipeGesture -> bool, q: SwipeGesture -> bool, o: object)
    requires forall g: SwipeGesture :: q(g) == !p(g)
    ensures Has(gs, o) == Has(Filter(gs, p), o) + Has(Filter(gs, q), o)
  {
    if o is SwipeGesture {
      FilterMember(gs, p, o as SwipeGesture);
      FilterMember(gs, q, o as SwipeGesture);
    }
  }

  lemma PinchSplit(gs: seq<PinchGesture>, p: PinchGesture -> bool, q: PinchGesture -> bool, o: object)
    requires forall g: PinchGesture :: q(g) == !p(g)
    ensures Has(gs, o) == Has(Filter(gs, p), o) + Has(Filter(gs, q), o)
  {
    if o is PinchGesture {
      FilterMember(gs, p, o as PinchGesture);
      FilterMember(gs, q, o as PinchGesture);
    }
  }

  lemma StartSwipeBalance(r: RecState, cfg: Config, n: nat, pos: Option<Vec>, o: object)
    requires r.Valid()
    ensures Net(StartSwipeSpec(r, cfg, n, pos).1, o) == Open(StartSwipeSpec(r, cfg, n, pos).0, o) - Open(r, o)
  {
    if r.Idle() {
      var a := Filter(r.swipes, Admitted(cfg, n, pos, r.axis));
      FilterNoDup(r.swipes, Admitted(cfg, n, pos, r.axis));
      NetEach(StartedAll(a), a, 1, o);
    }
  }

  lemma StartPinchBalance(r: RecState, cfg: Config, n: nat, o: object)
    requires r.Valid()
    ensures Net(StartPinchSpec(r, cfg, n).1, o) == Open(StartPinchSpec(r, cfg, n).0, o) - Open(r, o)
  {
    if r.Idle() {
      var a := Filter(r.pinches, AdmittedPinch(cfg, n));
      FilterNoDup(r.pinches, AdmittedPinch(cfg, n));
      NetEach(StartedAll(a), a, 1, o);
    }
  }

  lemma CancelledNet(gone: seq<object>, o: object)
    requires NoDup(gone)
    ensures Net(CancelledAll(gone), o) == -Has(gone, o)
  {
    NetEach(CancelledAll(gone), gone, -1, o);
  }

  lemma SwipePassBalance(r: RecState, cfg: Config, dir: Direction, o: object)
    requires r.Valid()
    ensures Net(SwipePass(r, cfg, dir).1, o) == Open(SwipePass(r, cfg, dir).0, o) - Open(r, o)
  {
    StartSwipeKeepsValid(r, cfg, r.fingers, None);
    StartSwipeBalance(r, cfg, r.fingers, None, o);
    var (r1, s1) := if r.activeSwipes == [] then StartSwipeSpec(r, cfg, r.fingers, None) else (r, []);
    assert Net(s1, o) == Open(r1, o) - Open(r, o) && r1.Valid() by {
      assert Net([], o) == 0;
    }
    var gone := Filter(r1.activeSwipes, Eliminated(cfg, dir));
    FilterNoDup(r1.activeSwipes, Eliminated(cfg, dir));
    hide Filter, Net, CancelledAll, StartSwipeSpec, NoDup, Within;
    CancelledNet(gone, o);
    NetAppend(s1, CancelledAll(gone), o);
    SwipeSplit(r1.activeSwipes, Kept(cfg, dir), Eliminated(cfg, dir), o);
  }

  lemma PinchPassBalance(r: RecState, cfg: Config, dir: PinchDirection, o: object)
    requires r.Valid()
    ensures Net(PinchPass(r, cfg, dir).1, o) == Open(PinchPass(r, cfg, dir).0, o) - Open(r, o)
  {
    StartPinchKeepsValid(r, cfg, r.fingers);
    StartPinchBalance(r, cfg, r.fingers, o);
    var (r1, s1) := if r.activePinches == [] then StartPinchSpec(r, cfg, r.fingers) else (r, []);
    assert Net(s1, o) == Open(r1, o) - Open(r, o) && r1.Valid() by {
      assert Net([], o) == 0;
    }
    var gone := Filter(r1.activePinches, EliminatedPinch(cfg, dir));
    FilterNoDup(r1.activePinches, EliminatedPinch(cfg, dir));
    hide Filter, Net, CancelledAll, StartPinchSpec, NoDup, Within;
    CancelledNet(gone, o);
    NetAppend(s1, CancelledAll(gone), o);
    PinchSplit(r1.activePinches, KeptPinch(cfg, dir), EliminatedPinch(cfg, dir), o);
  }

  lemma UpdateSwipeBalance(r: RecState, cfg: Config, d: Vec, o: object)
    requires r.Valid()
    ensures Net(UpdateSwipeSpec(r, cfg, d).1, o) == Open(UpdateSwipeSpec(r, cfg, d).0, o) - Open(r, o)
  {
    var total := Add(r.delta, d);
    var dir := DirectionOn(CurrentAxis(r.axis, total), total);
    var r0 := r.(delta := total, axis := LockedAxis(r.axis, total));
    var (r1, s1) := SwipePass(r0, cfg, dir);
    var (r2, s2) := SwipePass(r1, cfg, dir);
    SwipePassKeepsValid(r0, cfg, dir);
    SwipePassBalance(r0, cfg, dir, o);
    SwipePassBalance(r1, cfg, dir, o);
    var sent := SwipeProgressAll(cfg, r2.activeSwipes, total);
    ProgressWeighsNothing(cfg, r2.activeSwipes, total);
    NetNothing(sent, o);
    NetAppend(s1, s2, o);
    NetAppend(s1 + s2, sent, o);
  }

  lemma UpdatePinchBalance(r: RecState, cfg: Config, s: real, o: object)
    requires r.Valid()
    ensures Net(UpdatePinchSpec(r, cfg, s).1, o) == Open(UpdatePinchSpec(r, cfg, s).0, o) - Open(r, o)
  {
    var dir := PinchDirectionOf(s);
    var r0 := r.(scale := s);
    var (r1, s1) := PinchPass(r0, cfg, dir);
    var (r2, s2) := PinchPass(r1, cfg, dir);
    PinchPassKeepsValid(r0, cfg, dir);
    PinchPassBalance(r0, cfg, dir, o);
    PinchPassBalance(r1, cfg, dir, o);
    var sent := PinchProgressAll(cfg, r2.activePinches, s);
    NetNothing(sent, o);
    NetAppend(s1, s2, o);
    NetAppend(s1 + s2, sent, o);
  }

  lemma CancelBalance(r: RecState, o: object)
    requires r.Valid()
    ensures Net(CancelActiveSpec(r).1, o) == -Open(r, o)
  {
    NetEach(CancelledAll(r.activeSwipes), r.activeSwipes, -1, o);
    NetEach(CancelledAll(r.activePinches), r.activePinches, -1, o);
    NetAppend(CancelledAll(r.activeSwipes), CancelledAll(r.activePinches), o);
  }

  lemma UnregisterSwipeBalance(r: RecState, g: SwipeGesture, o: object)
    ensures Net(UnregisterSwipeSpec(r, g).1, o) == Open(UnregisterSwipeSpec(r, g).0, o) - Open(r, o)
  {
    if o is SwipeGesture {
      FilterMember(r.activeSwipes, Differs(g), o as SwipeGesture);
    }
    if g in r.activeSwipes {
      NetEach([Cancelled(g)], [g], -1, o);
    }
  }

  lemma UnregisterPinchBalance(r: RecState, g: PinchGesture, o: object)
    ensures Net(UnregisterPinchSpec(r, g).1, o) == Open(UnregisterPinchSpec(r, g).0, o) - Open(r, o)
  {
    if o is PinchGesture {
      FilterMember(r.activePinches, Differs(g), o as PinchGesture);
    }
    if g in r.activePinches {
      NetEach([Cancelled(g)], [g], -1, o);
    }
  }

  /** What a call adds to the balance of a gesture. */
  lemma StepBalance(r: RecState, c: Call, o: object)
    requires r.Valid()
    ensures Net(Step(r, c).1, o) == Open(Step(r, c).0, o) - Open(r, o) + Dropped(r, c.op, o)
  {
    hide UpdateSwipeSpec, UpdatePinchSpec, StartSwipeSpec, StartPinchSpec, UnregisterSwipeSpec, UnregisterPinchSpec;
    match c.op
    case RegisterSwipe(_) =>
    case RegisterPinch(_) =>
    case UnregisterSwipe(g) => UnregisterSwipeBalance(r, g, o);
    case UnregisterPinch(g) => UnregisterPinchBalance(r, g, o);
    case StartSwipe(n) => StartSwipeBalance(r, c.cfg, n, None, o);
    case StartSwipeAt(pos) => StartSwipeBalance(r, c.cfg, 1, Some(pos), o);
    case UpdateSwipe(d) => UpdateSwipeBalance(r, c.cfg, d, o);
    case CancelSwipe => CancelBalance(r, o);
    case EndSwipe => NetEach(SwipeEndAll(c.cfg, r.activeSwipes, r.delta), r.activeSwipes, -1, o);
    case StartPinch(n) => StartPinchBalance(r, c.cfg, n, o);
    case UpdatePinch(s) => UpdatePinchBalance(r, c.cfg, s, o);
    case CancelPinch => CancelBalance(r, o);
    case EndPinch => NetEach(PinchEndAll(c.cfg, r.activePinches, r.scale), r.activePinches, -1, o);
  }

  /** In every run, starts minus ends is 1 for an active gesture and 0 for others, plus what endPinch dropped. */
  lemma {:induction false} Conservation(calls: seq<Call>, o: object)
    requires LegalRun(calls)
    ensures Net(SignalsOf(calls), o) == Open(Run(calls), o) + DroppedIn(calls, o)
    ensures 0 <= Open(Run(calls), o) <= 1 && 0 <= DroppedIn(calls, o)
  {
    RunValid(calls);
    if calls != [] {
      var before, c := calls[..|calls| - 1], calls[|calls| - 1];
      Conservation(before, o);
      RunValid(before);
      StepBalance(Run(before), c, o);
      NetAppend(SignalsOf(before), Step(Run(before), c).1, o);
    }
  }

  /** endPinchGesture is called only while no swipe is active. */
  ghost predicate PinchesEndAlone(calls: seq<Call>) {
    forall k :: 0 <= k < |calls| && calls[k].op.EndPinch? ==> Run(calls[..k]).activeSwipes == []
  }

  lemma {:induction false} DroppedGrows(calls: seq<Call>, k: nat, o: object)
    requires k < |calls|
    ensures DroppedIn(calls, o) >= Dropped(Run(calls[..k]), calls[k].op, o)
  {
    var before := calls[..|calls| - 1];
    if k == |before| {
      DroppedNonNegative(before, o);
    } else {
      assert before[..k] == calls[..k];
      DroppedGrows(before, k, o);
    }
  }

  lemma {:induction false} DroppedNonNegative(calls: seq<Call>, o: object)
    ensures DroppedIn(calls, o) >= 0
  {
    if calls != [] {
      DroppedNonNegative(calls[..|calls| - 1], o);
    }
  }

  lemma {:induction false} NothingDropped(calls: seq<Call>, o: object)
    requires PinchesEndAlone(calls)
    ensures DroppedIn(calls, o) == 0
  {
    if calls != [] {
      var before := calls[..|calls| - 1];
      assert PinchesEndAlone(before) by {
        forall k | 0 <= k < |before| && before[k].op.EndPinch? ensures Run(before[..k]).activeSwipes == [] {
          assert before[..k] == calls[..k];
        }
      }
      NothingDropped(before, o);
      assert calls[..|before|] == before;
    }
  }

  /** A swipe dropped without a signal leaves its gesture unbalanced for good. */
  lemma DropUnbalances(calls: seq<Call>, k: nat)
    requires LegalRun(calls) && k < |calls| && calls[k].op.EndPinch? && Run(calls[..k]).activeSwipes != []
    ensures var g := Run(calls[..k]).activeSwipes[0]; Net(SignalsOf(calls), g) > Open(Run(calls), g)
  {
    var g := Run(calls[..k]).activeSwipes[0];
    Conservation(calls, g);
    DroppedGrows(calls, k, g);
  }

  /** The end of a pinch while a swipe is active: the swipe's gesture is started and neither triggered nor cancelled. */
  lemma SwipeDroppedSilently(g: SwipeGesture, cfg: Config, n: nat)
    requires SwipeOf(cfg, g).AdmittedBy(n, None, NoAxis)
    ensures var calls := [Call(RegisterSwipe(g), cfg)] + [Call(StartSwipe(n), cfg)] + [Call(EndPinch, cfg)];
            LegalRun(calls) && SignalsOf(calls) == [Started(g)] && Run(calls).Idle()
  {
    var a, b, c := Call(RegisterSwipe(g), cfg), Call(StartSwipe(n), cfg), Call(EndPinch, cfg);
    RunSnoc([], a);
    assert [] + [a] == [a];
    RunSnoc([a], b);
    RunSnoc([a] + [b], c);
    var r := RegisterSwipeSpec(INITIAL, g).0;
    assert r.swipes == [] + [g] == [g];
    FilterSnoc([], g, Admitted(cfg, n, None, NoAxis));
    assert StartSwipeSpec(r, cfg, n, None).0 == r.(fingers := n, activeSwipes := [g]);
    assert StartSwipeSpec(r, cfg, n, None).1 == [Started(g)];
  }

  lemma RunSnoc(calls: seq<Call>, c: Call)
    ensures Run(calls + [c]) == Step(Run(calls), c).0
    ensures SignalsOf(calls + [c]) == SignalsOf(calls) + Step(Run(calls), c).1
    ensures LegalRun(calls + [c]) <==> LegalRun(calls) && Legal(Run(calls), c.op)
  {
    assert (calls + [c])[..|calls|] == calls;
  }

  /** The signals of all gestures balance exactly when no endPinchGesture meets an active swipe. */
  lemma ConservationExactly(calls: seq<Call>)
    requires LegalRun(calls)
    ensures (forall o: object :: Net(SignalsOf(calls), o) == Open(Run(calls), o)) <==> PinchesEndAlone(calls)
  {
    hide Net, SignalsOf, Run, LegalRun, DroppedIn;
    if PinchesEndAlone(calls) {
      forall o: object ensures Net(SignalsOf(calls), o) == Open(Run(calls), o) {
        Conservation(calls, o);
        NothingDropped(calls, o);
      }
    } else {
      var k :| 0 <= k < |calls| && calls[k].op.EndPinch? && Run(calls[..k]).activeSwipes != [];
      DropUnbalances(calls, k);
      var o: object := Run(calls[..k]).activeSwipes[0];
      assert Net(SignalsOf(calls), o) != Open(Run(calls), o);
    }
  }

  // ---------------------------------------------------------------------------
  // The two-pass elimination is a filter
  // ---------------------------------------------------------------------------

  /** Admitted for `n` fingers on the axis, and pointing the right way. */
  ghost function Restarted(cfg: Config, n: nat, axis: Axis, dir: Direction): SwipeGesture -> bool {
    (g: SwipeGesture) => SwipeOf(cfg, g).AdmittedBy(n, None, axis) &&
                         (SwipeOf(cfg, g).direction == dir || SwipeOf(cfg, g).FourSided())
  }

  /** Closed form of two elimination passes. */
  lemma TwoPasses(r: RecState, cfg: Config, dir: Direction)
    ensures SwipePass(SwipePass(r, cfg, dir).0, cfg, dir).0 ==
            var kept := Filter(r.activeSwipes, Kept(cfg, dir));
            r.(activeSwipes := if kept != [] then kept
                               else if r.activePinches == [] then Filter(r.swipes, Restarted(cfg, r.fingers, r.axis, dir))
                               else [])
  {
    var kept, admitted := Kept(cfg, dir), Admitted(cfg, r.fingers, None, r.axis);
    FilterTwice(r.activeSwipes, kept, kept, kept);
    FilterTwice(r.swipes, admitted, kept, Restarted(cfg, r.fingers, r.axis, dir));
    FilterTwice(Filter(r.swipes, admitted), kept, kept, kept);
  }

  lemma TwoPinchPasses(r: RecState, cfg: Config, dir: PinchDirection)
    ensures PinchPass(PinchPass(r, cfg, dir).0, cfg, dir).0 ==
            var kept := Filter(r.activePinches, KeptPinch(cfg, dir));
            r.(activePinches := if kept != [] then kept
                                else if r.activeSwipes == [] then Filter(r.pinches, MatchingPinch(cfg, r.fingers, dir))
                                else [])
  {
    var kept, admitted := KeptPinch(cfg, dir), AdmittedPinch(cfg, r.fingers);
    FilterTwice(r.activePinches, kept, kept, kept);
    FilterTwice(r.pinches, admitted, kept, MatchingPinch(cfg, r.fingers, dir));
    FilterTwice(Filter(r.pinches, admitted), kept, kept, kept);
  }

  /** The plain test: the finger range admits `n` and the direction is `dir`. */
  ghost function Matching(cfg: Config, n: nat, dir: Direction): SwipeGesture -> bool {
    (g: SwipeGesture) => SwipeOf(cfg, g).FingersMatch(n) && SwipeOf(cfg, g).direction == dir
  }

  ghost function MatchingPinch(cfg: Config, n: nat, dir: PinchDirection): PinchGesture -> bool {
    (g: PinchGesture) => PinchOf(cfg, g).FingersMatch(n) && PinchOf(cfg, g).direction == dir
  }

  function Sum(ds: seq<Vec>): Vec {
    if ds == [] then ORIGIN else Add(Sum(ds[..|ds| - 1]), ds[|ds| - 1])
  }

  /** A start with `n` fingers, from a position if one is relevant, followed by updates. */
  ghost function SwipeRun(r: RecState, cfg: Config, n: nat, pos: Option<Vec>, ds: seq<Vec>): RecState {
    if ds == [] then StartSwipeSpec(r, cfg, n, pos).0
    else UpdateSwipeSpec(SwipeRun(r, cfg, n, pos, ds[..|ds| - 1]), cfg, ds[|ds| - 1]).0
  }

  /** The locked axis after the movements `ds`, given the axis and delta before them. */
  function AxisAfter(axis: Axis, from: Vec, ds: seq<Vec>): Axis {
    if ds == [] then axis
    else LockedAxis(AxisAfter(axis, from, ds[..|ds| - 1]), Add(from, Sum(ds)))
  }

  /** The direction that the last movement of `ds` leads to. */
  function DirectionAfter(axis: Axis, from: Vec, ds: seq<Vec>): Direction
    requires ds != []
  {
    var total := Add(from, Sum(ds));
    DirectionOn(CurrentAxis(AxisAfter(axis, from, ds[..|ds| - 1]), total), total)
  }

  lemma {:induction false} SwipeRunFrame(r: RecState, cfg: Config, n: nat, pos: Option<Vec>, ds: seq<Vec>)
    requires r.Idle()
    ensures var e := SwipeRun(r, cfg, n, pos, ds);
            e == r.(activeSwipes := e.activeSwipes, fingers := n,
                    delta := Add(r.delta, Sum(ds)), axis := AxisAfter(r.axis, r.delta, ds))
  {
    if ds != [] {
      var before, d := ds[..|ds| - 1], ds[|ds| - 1];
      SwipeRunFrame(r, cfg, n, pos, before);
      var e := SwipeRun(r, cfg, n, pos, before);
      var total := Add(e.delta, d);
      TwoPasses(e.(delta := total, axis := LockedAxis(e.axis, total)), cfg, DirectionOn(CurrentAxis(e.axis, total), total));
    }
  }

  /** No gesture that a start would admit has all four start bounds set. */
  ghost predicate NoFourSided(r: RecState, cfg: Config, n: nat) {
    forall i :: 0 <= i < |r.swipes| && SwipeOf(cfg, r.swipes[i]).AdmittedBy(n, None, r.axis)
                ==> !SwipeOf(cfg, r.swipes[i]).FourSided()
  }

  /** Restarting on an axis picks the matching gestures, if the direction lies on that axis. */
  lemma RestartIsMatching(r: RecState, cfg: Config, n: nat, axis: Axis, dir: Direction)
    requires NoFourSided(r, cfg, n)
    requires r.axis == NoAxis || axis == r.axis
    requires axis == NoAxis || (axis == Vertical <==> dir.Up? || dir.Down?)
    ensures Filter(r.swipes, Restarted(cfg, n, axis, dir)) == Filter(r.swipes, Matching(cfg, n, dir))
  {
    forall i | 0 <= i < |r.swipes|
      ensures Restarted(cfg, n, axis, dir)(r.swipes[i]) == Matching(cfg, n, dir)(r.swipes[i])
    {
      var p := SwipeOf(cfg, r.swipes[i]);
      assert p.direction == dir ==> p.AxisMatches(axis);
      assert p.AdmittedBy(n, None, axis) ==> p.AdmittedBy(n, None, r.axis);
    }
    FilterSame(r.swipes, Restarted(cfg, n, axis, dir), Matching(cfg, n, dir));
  }

  /** Filtering what a start admitted by direction leaves the matching gestures. */
  lemma StartedThenKept(r: RecState, cfg: Config, n: nat, dir: Direction)
    requires NoFourSided(r, cfg, n)
    requires r.axis == NoAxis || (r.axis == Vertical <==> dir.Up? || dir.Down?)
    ensures Filter(Filter(r.swipes, Admitted(cfg, n, None, r.axis)), Kept(cfg, dir)) == Filter(r.swipes, Matching(cfg, n, dir))
  {
    FilterTwice(r.swipes, Admitted(cfg, n, None, r.axis), Kept(cfg, dir), Restarted(cfg, n, r.axis, dir));
    RestartIsMatching(r, cfg, n, r.axis, dir);
  }

  /** Filtering the gestures of one direction by another keeps all or none. */
  lemma MatchingThenKept(r: RecState, cfg: Config, n: nat, was: Direction, dir: Direction)
    requires NoFourSided(r, cfg, n)
    requires r.axis == NoAxis || (r.axis == Vertical <==> was.Up? || was.Down?)
    ensures Filter(Filter(r.swipes, Matching(cfg, n, was)), Kept(cfg, dir)) ==
            if was == dir then Filter(r.swipes, Matching(cfg, n, was)) else []
  {
    var ms := Filter(r.swipes, Matching(cfg, n, was));
    forall i | 0 <= i < |ms| ensures Kept(cfg, dir)(ms[i]) == (was == dir) {
      FilterMember(r.swipes, Matching(cfg, n, was), ms[i]);
      assert SwipeOf(cfg, ms[i]).AdmittedBy(n, None, r.axis);
    }
    if was == dir {
      FilterAll(ms, Kept(cfg, dir));
    } else {
      FilterNone(ms, Kept(cfg, dir));
    }
  }

  /** A locked axis is never given up. */
  lemma {:induction false} AxisKept(axis: Axis, from: Vec, ds: seq<Vec>)
    ensures axis != NoAxis ==> AxisAfter(axis, from, ds) == axis
  {
    if ds != [] {
      AxisKept(axis, from, ds[..|ds| - 1]);
    }
  }

  /** After every update of a swipe, the active gestures are the registered ones that match, in registration order. */
  lemma {:induction false} EliminationIsFilter(r: RecState, cfg: Config, n: nat, ds: seq<Vec>)
    requires r.Idle() && NoFourSided(r, cfg, n) && ds != []
    ensures SwipeRun(r, cfg, n, None, ds).activeSwipes ==
            Filter(r.swipes, Matching(cfg, n, DirectionAfter(r.axis, r.delta, ds)))
  {
    var before, d := ds[..|ds| - 1], ds[|ds| - 1];
    var e := SwipeRun(r, cfg, n, None, before);
    SwipeRunFrame(r, cfg, n, None, before);
    AxisKept(r.axis, r.delta, before);
    AxisKept(r.axis, r.delta, ds);
    var total := Add(e.delta, d);
    assert total == Add(r.delta, Sum(ds));
    var dir := DirectionAfter(r.axis, r.delta, ds);
    var r0 := e.(delta := total, axis := LockedAxis(e.axis, total));
    TwoPasses(r0, cfg, dir);
    RestartIsMatching(r, cfg, n, r0.axis, dir);
    if before == [] {
      StartedThenKept(r, cfg, n, dir);
    } else {
      EliminationIsFilter(r, cfg, n, before);
      var was := DirectionAfter(r.axis, r.delta, before);
      AxisKept(r.axis, r.delta, before[..|before| - 1]);
      MatchingThenKept(r, cfg, n, was, dir);
    }
  }

  /** A movement of the given length against direction `d`. */
  function Against(d: Direction, length: real): Vec {
    match d
    case Up => Vec(0.0, length)
    case Down => Vec(0.0, -length)
    case Left => Vec(length, 0.0)
    case Right => Vec(-length, 0.0)
  }

  /** The filter law for one sequence of movements. */
  ghost predicate FilterLaw(r: RecState, cfg: Config, n: nat, ds: seq<Vec>)
    requires ds != []
  {
    SwipeRun(r, cfg, n, None, ds).activeSwipes == Filter(r.swipes, Matching(cfg, n, DirectionAfter(r.axis, r.delta, ds)))
  }

  /** A movement that takes the total to `target`. */
  lemma OneUpdate(r: RecState, cfg: Config, n: nat, target: Vec) returns (ds: seq<Vec>)
    requires r.Idle()
    ensures ds != [] && DirectionAfter(r.axis, r.delta, ds) == DirectionOn(CurrentAxis(r.axis, target), target)
    ensures exists e: RecState :: SwipeRun(r, cfg, n, None, ds) == e &&
              e.activeSwipes == SwipePass(SwipePass(StartSwipeSpec(r, cfg, n, None).0.(delta := target, axis := LockedAxis(r.axis, target)), cfg,
                                                    DirectionOn(CurrentAxis(r.axis, target), target)).0, cfg,
                                          DirectionOn(CurrentAxis(r.axis, target), target)).0.activeSwipes
  {
    ds := [Vec(target.x - r.delta.x, target.y - r.delta.y)];
    assert ds[..0] == [];
    assert Sum(ds) == ds[0];
    assert Add(r.delta, Sum(ds)) == target;
    assert SwipeRun(r, cfg, n, None, ds) == UpdateSwipeSpec(SwipeRun(r, cfg, n, None, []), cfg, ds[0]).0;
  }

  /** A gesture with four start bounds outlives an update that leads away from it. */
  lemma FourSidedStays(r: RecState, cfg: Config, n: nat, g: SwipeGesture) returns (ds: seq<Vec>)
    requires r.Idle() && g in r.swipes
    requires SwipeOf(cfg, g).AdmittedBy(n, None, r.axis) && SwipeOf(cfg, g).FourSided()
    ensures ds != [] && g in SwipeRun(r, cfg, n, None, ds).activeSwipes
    ensures DirectionAfter(r.axis, r.delta, ds) != SwipeOf(cfg, g).direction
  {
    var away := Against(SwipeOf(cfg, g).direction, 10.0);
    ds := OneUpdate(r, cfg, n, away);
    var dir := DirectionOn(CurrentAxis(r.axis, away), away);
    var e := StartSwipeSpec(r, cfg, n, None).0.(delta := away, axis := LockedAxis(r.axis, away));
    hide SwipeRun, DirectionAfter, SwipePass;
    TwoPasses(e, cfg, dir);
    FilterMember(r.swipes, Admitted(cfg, n, None, r.axis), g);
    FilterMember(e.activeSwipes, Kept(cfg, dir), g);
  }

  /** A four-sided gesture that is admitted refutes the filter law. */
  lemma FourSidedBreaksFilter(r: RecState, cfg: Config, n: nat, g: SwipeGesture) returns (ds: seq<Vec>)
    requires r.Idle() && g in r.swipes
    requires SwipeOf(cfg, g).AdmittedBy(n, None, r.axis) && SwipeOf(cfg, g).FourSided()
    ensures ds != [] && !FilterLaw(r, cfg, n, ds)
  {
    hide SwipeRun, DirectionAfter, Filter;
    ds := FourSidedStays(r, cfg, n, g);
    FilterMember(r.swipes, Matching(cfg, n, DirectionAfter(r.axis, r.delta, ds)), g);
  }

  /** The filter law holds for all movements exactly when no admitted gesture has all four start bounds set. */
  lemma EliminationIsFilterExactly(r: RecState, cfg: Config, n: nat)
    requires r.Idle()
    ensures (forall ds: seq<Vec> | ds != [] :: FilterLaw(r, cfg, n, ds)) <==> NoFourSided(r, cfg, n)
  {
    hide SwipeRun, DirectionAfter, Filter;
    if NoFourSided(r, cfg, n) {
      forall ds: seq<Vec> | ds != [] ensures FilterLaw(r, cfg, n, ds) {
        EliminationIsFilter(r, cfg, n, ds);
      }
    } else {
      var i :| 0 <= i < |r.swipes| && SwipeOf(cfg, r.swipes[i]).AdmittedBy(n, None, r.axis)
               && SwipeOf(cfg, r.swipes[i]).FourSided();
      var ds := FourSidedBreaksFilter(r, cfg, n, r.swipes[i]);
    }
  }

  /** startPinchGesture(n) followed by updates. */
  ghost function PinchRun(r: RecState, cfg: Config, n: nat, scales: seq<real>): RecState {
    if scales == [] then StartPinchSpec(r, cfg, n).0
    else UpdatePinchSpec(PinchRun(r, cfg, n, scales[..|scales| - 1]), cfg, scales[|scales| - 1]).0
  }

  lemma {:induction false} PinchRunFrame(r: RecState, cfg: Config, n: nat, scales: seq<real>)
    requires r.Idle()
    ensures var e := PinchRun(r, cfg, n, scales);
            e == r.(activePinches := e.activePinches, fingers := n, scale := e.scale)
  {
    if scales != [] {
      var before, s := scales[..|scales| - 1], scales[|scales| - 1];
      PinchRunFrame(r, cfg, n, before);
      TwoPinchPasses(PinchRun(r, cfg, n, before).(scale := s), cfg, PinchDirectionOf(s));
    }
  }

  /** The same law for pinches, without exception. */
  lemma {:induction false} PinchEliminationIsFilter(r: RecState, cfg: Config, n: nat, scales: seq<real>)
    requires r.Idle() && scales != []
    ensures PinchRun(r, cfg, n, scales).activePinches ==
            Filter(r.pinches, MatchingPinch(cfg, n, PinchDirectionOf(scales[|scales| - 1])))
  {
    var before, s := scales[..|scales| - 1], scales[|scales| - 1];
    PinchRunFrame(r, cfg, n, before);
    var e, dir := PinchRun(r, cfg, n, before), PinchDirectionOf(s);
    TwoPinchPasses(e.(scale := s), cfg, dir);
    if before == [] {
      FilterTwice(r.pinches, AdmittedPinch(cfg, n), KeptPinch(cfg, dir), MatchingPinch(cfg, n, dir));
    } else {
      PinchEliminationIsFilter(r, cfg, n, before);
      var was := PinchDirectionOf(before[|before| - 1]);
      var ms := Filter(r.pinches, MatchingPinch(cfg, n, was));
      forall i | 0 <= i < |ms| ensures KeptPinch(cfg, dir)(ms[i]) == (was == dir) {
        FilterMember(r.pinches, MatchingPinch(cfg, n, was), ms[i]);
      }
      if was == dir {
        FilterAll(ms, KeptPinch(cfg, dir));
      } else {
        FilterNone(ms, KeptPinch(cfg, dir));
      }
    }
  }

  // ---------------------------------------------------------------------------
  // Axis lock and triggering
  // ---------------------------------------------------------------------------

  /** Nothing active and nothing accumulated, as after an end or a cancel. */
  ghost predicate Fresh(r: RecState) {
    r.Idle() && r.delta == ORIGIN && r.axis == NoAxis
  }

  /** The axis is the dominant one of the first total that is far enough, and never changes afterwards. */
  lemma {:induction false} AxisLocksOnce(ds: seq<Vec>)
    ensures AxisAfter(NoAxis, ORIGIN, ds) == NoAxis <==> forall k :: 1 <= k <= |ds| ==> !Far(Sum(ds[..k]))
    ensures forall k :: 1 <= k <= |ds| && Far(Sum(ds[..k])) && (forall j :: 1 <= j < k ==> !Far(Sum(ds[..j])))
                        ==> AxisAfter(NoAxis, ORIGIN, ds) == DominantAxis(Sum(ds[..k]))
  {
    if ds != [] {
      var before := ds[..|ds| - 1];
      AxisLocksOnce(before);
      assert forall k :: 0 <= k <= |before| ==> before[..k] == ds[..k];
      assert ds[..|ds|] == ds;
      assert Add(ORIGIN, Sum(ds)) == Sum(ds);
      if AxisAfter(NoAxis, ORIGIN, before) == NoAxis {
        assert forall k :: 1 <= k < |ds| ==> !Far(Sum(ds[..k]));
      }
    }
  }

  /** A total with a component of at least 5 in one direction or the other. */
  predicate LongEnough(total: Vec) {
    total.x >= 5.0 || total.x <= -5.0 || total.y >= 5.0 || total.y <= -5.0
  }

  /** The direction picked while the axis is free covers the largest distance of all four. */
  lemma FreeDirectionTravelsMost(t: Vec)
    ensures forall d :: Travel(DirectionOn(CurrentAxis(NoAxis, t), t), t) >= Travel(d, t)
  {
  }

  /** Before any total was long enough, an update goes in the direction of the largest distance covered so far. */
  lemma DirectionBeforeLock(ds: seq<Vec>)
    requires ds != [] && forall k :: 1 <= k < |ds| ==> !LongEnough(Sum(ds[..k]))
    ensures forall d :: Travel(DirectionAfter(NoAxis, ORIGIN, ds), Sum(ds)) >= Travel(d, Sum(ds))
  {
    var before := ds[..|ds| - 1];
    AxisLocksOnce(before);
    assert forall k :: 1 <= k <= |before| ==> before[..k] == ds[..k];
    assert AxisAfter(NoAxis, ORIGIN, before) == NoAxis;
    assert Add(ORIGIN, Sum(ds)) == Sum(ds);
    FreeDirectionTravelsMost(Sum(ds));
  }

  /** The k-th total is the first one that is long enough. */
  predicate LocksAt(ds: seq<Vec>, k: nat) {
    1 <= k <= |ds| && LongEnough(Sum(ds[..k])) && forall j :: 1 <= j < k ==> !LongEnough(Sum(ds[..j]))
  }

  /** The first total that is long enough locks the axis for good: the horizontal one exactly if it reaches as far
      to a side as up or down. */
  lemma LockedAxisExactly(ds: seq<Vec>, k: nat)
    requires LocksAt(ds, k)
    ensures AxisAfter(NoAxis, ORIGIN, ds) ==
            var t := Sum(ds[..k]);
            if (t.x >= t.y && t.x >= -t.y) || (-t.x >= t.y && -t.x >= -t.y) then Horizontal else Vertical
  {
    AxisLocksOnce(ds);
    assert Far(Sum(ds[..k]));
  }

  /** From then on updates go along this axis, to the side on which the total lies. */
  lemma DirectionAfterLock(ds: seq<Vec>, k: nat)
    requires LocksAt(ds, k) && k < |ds|
    ensures var t, total, dir := Sum(ds[..k]), Sum(ds), DirectionAfter(NoAxis, ORIGIN, ds);
            if (t.x >= t.y && t.x >= -t.y) || (-t.x >= t.y && -t.x >= -t.y)
            then dir == (if total.x < 0.0 then Left else Right)
            else dir == (if total.y < 0.0 then Up else Down)
  {
    var before := ds[..|ds| - 1];
    assert forall j :: 1 <= j <= k ==> before[..j] == ds[..j];
    LockedAxisExactly(before, k);
    assert Add(ORIGIN, Sum(ds)) == Sum(ds);
  }

  /** When a minimum delta counts as reached. */
  lemma MinimumDeltaReachedExactly(p: SwipeParams, delta: Vec)
    ensures p.MinimumDeltaReached(delta) <==>
            p.minimumDelta.None? || p.minimumDelta.value == ORIGIN ||
            (Along(p.direction, delta) != 0.0 &&
             Abs(Along(p.direction, delta)) >= Abs(Along(p.direction, p.minimumDelta.value)))
  {
    if p.minimumDelta.Some? && p.minimumDelta.value != ORIGIN {
      var n, d := Abs(Along(p.direction, delta)), Abs(Along(p.direction, p.minimumDelta.value));
      if d > 0.0 {
        QuotientBelowOne(n, d);
      }
    }
  }

  lemma QuotientBelowOne(n: real, d: real)
    requires d > 0.0
    ensures (n / d < 1.0 <==> n < d) && (n / d) * d == n
  {
    assert n == (n / d) * d;
    if n / d < 1.0 {
      assert (1.0 - n / d) * d > 0.0;
    } else {
      assert (n / d - 1.0) * d >= 0.0;
    }
  }

  /** What is active at the end of a swipe and not four-sided points in the current direction. */
  lemma ActivePointsAhead(r: RecState, cfg: Config, n: nat, pos: Option<Vec>, ds: seq<Vec>, g: SwipeGesture)
    requires r.Idle() && ds != [] && g in SwipeRun(r, cfg, n, pos, ds).activeSwipes
    requires !SwipeOf(cfg, g).FourSided()
    ensures SwipeOf(cfg, g).direction == DirectionAfter(r.axis, r.delta, ds)
  {
    var before, d := ds[..|ds| - 1], ds[|ds| - 1];
    var e := SwipeRun(r, cfg, n, pos, before);
    SwipeRunFrame(r, cfg, n, pos, before);
    var total := Add(e.delta, d);
    assert total == Add(r.delta, Sum(ds));
    var dir := DirectionAfter(r.axis, r.delta, ds);
    TwoPasses(e.(delta := total, axis := LockedAxis(e.axis, total)), cfg, dir);
    FilterMember(e.activeSwipes, Kept(cfg, dir), g);
    FilterMember(r.swipes, Restarted(cfg, n, LockedAxis(e.axis, total), dir), g);
  }

  lemma TriggeredAtEnd(e: RecState, cfg: Config, g: SwipeGesture)
    ensures Triggered(g) in EndSwipeSpec(e, cfg).1 <==>
            g in e.activeSwipes && SwipeOf(cfg, g).MinimumDeltaReached(e.delta)
  {
    var sent := EndSwipeSpec(e, cfg).1;
    if g in e.activeSwipes && SwipeOf(cfg, g).MinimumDeltaReached(e.delta) {
      var i :| 0 <= i < |e.activeSwipes| && e.activeSwipes[i] == g;
      assert sent[i] == Triggered(g);
    }
  }

  /** A swipe that ends with a trigger has moved at least the minimum in the gesture's own direction. */
  lemma TriggeredMeansMoved(r: RecState, cfg: Config, n: nat, pos: Option<Vec>, ds: seq<Vec>, g: SwipeGesture)
    requires Fresh(r)
    requires Triggered(g) in EndSwipeSpec(SwipeRun(r, cfg, n, pos, ds), cfg).1
    requires !SwipeOf(cfg, g).FourSided()
    requires SwipeOf(cfg, g).minimumDelta.Some? && SwipeOf(cfg, g).minimumDelta.value != ORIGIN
    ensures var p := SwipeOf(cfg, g);
            Travel(p.direction, Sum(ds)) > 0.0 &&
            Travel(p.direction, Sum(ds)) >= Abs(Along(p.direction, p.minimumDelta.value))
  {
    hide SwipeRun, EndSwipeSpec, SwipeParams.MinimumDeltaReached;
    var e := SwipeRun(r, cfg, n, pos, ds);
    TriggeredAtEnd(e, cfg, g);
    SwipeRunFrame(r, cfg, n, pos, ds);
    assert e.delta == Sum(ds);
    MinimumDeltaReachedExactly(SwipeOf(cfg, g), Sum(ds));
    if ds != [] {
      ActivePointsAhead(r, cfg, n, pos, ds, g);
    }
  }

  /** Which gestures a complete swipe triggers. */
  lemma TriggeredExactly(r: RecState, cfg: Config, n: nat, ds: seq<Vec>, g: SwipeGesture)
    requires Fresh(r) && NoFourSided(r, cfg, n) && ds != []
    ensures Triggered(g) in EndSwipeSpec(SwipeRun(r, cfg, n, None, ds), cfg).1 <==>
            g in r.swipes && SwipeOf(cfg, g).FingersMatch(n) &&
            SwipeOf(cfg, g).direction == DirectionAfter(NoAxis, ORIGIN, ds) &&
            (SwipeOf(cfg, g).minimumDelta.None? || SwipeOf(cfg, g).minimumDelta.value == ORIGIN ||
             (Travel(SwipeOf(cfg, g).direction, Sum(ds)) > 0.0 &&
              Travel(SwipeOf(cfg, g).direction, Sum(ds)) >=
              Abs(Along(SwipeOf(cfg, g).direction, SwipeOf(cfg, g).minimumDelta.value))))
  {
    hide SwipeRun, Filter, EndSwipeSpec, SwipeParams.MinimumDeltaReached;
    var e := SwipeRun(r, cfg, n, None, ds);
    TriggeredAtEnd(e, cfg, g);
    SwipeRunFrame(r, cfg, n, None, ds);
    assert Add(ORIGIN, Sum(ds)) == Sum(ds);
    MinimumDeltaReachedExactly(SwipeOf(cfg, g), Sum(ds));
    EliminationIsFilter(r, cfg, n, ds);
    FilterMember(r.swipes, Matching(cfg, n, DirectionAfter(NoAxis, ORIGIN, ds)), g);
  }

  /** A complete swipe leaves the recognizer as it was: the next one is not influenced by it. */
  lemma SwipeLeavesNoTrace(r: RecState, cfg: Config, n: nat, pos: Option<Vec>, ds: seq<Vec>)
    requires Fresh(r)
    ensures EndSwipeSpec(SwipeRun(r, cfg, n, pos, ds), cfg).0 == r.(fingers := 0)
    ensures CancelSwipeSpec(SwipeRun(r, cfg, n, pos, ds)).0 == r.(fingers := 0, scale := 0.0)
  {
    SwipeRunFrame(r, cfg, n, pos, ds);
  }

  /** When a change of scale counts as large enough. */
  lemma MinimumScaleDeltaReachedExactly(p: PinchParams, scale: real)
    ensures p.MinimumScaleDeltaReached(scale) <==>
            scale != 1.0 && p.minimumScaleDelta >= 0.0 && Abs(scale - 1.0) >= p.minimumScaleDelta
  {
    if p.minimumScaleDelta > 0.0 {
      QuotientBelowOne(Abs(scale - 1.0), p.minimumScaleDelta);
    }
  }

  /** Which gestures a complete pinch triggers: only the last scale counts. */
  lemma PinchTriggeredExactly(r: RecState, cfg: Config, n: nat, scales: seq<real>, g: PinchGesture)
    requires r.Idle() && scales != []
    ensures var last := scales[|scales| - 1];
            Triggered(g) in EndPinchSpec(PinchRun(r, cfg, n, scales), cfg).1 <==>
            g in r.pinches && PinchOf(cfg, g).FingersMatch(n) && (PinchOf(cfg, g).direction == Contracting <==> last < 1.0) &&
            last != 1.0 && PinchOf(cfg, g).minimumScaleDelta >= 0.0 &&
            Abs(last - 1.0) >= PinchOf(cfg, g).minimumScaleDelta
  {
    var last := scales[|scales| - 1];
    var e := PinchRun(r, cfg, n, scales);
    PinchEliminationIsFilter(r, cfg, n, scales);
    FilterMember(r.pinches, MatchingPinch(cfg, n, PinchDirectionOf(last)), g);
    PinchScale(r, cfg, n, scales);
    MinimumScaleDeltaReachedExactly(PinchOf(cfg, g), last);
    var sent := EndPinchSpec(e, cfg).1;
    if g in e.activePinches && PinchOf(cfg, g).MinimumScaleDeltaReached(last) {
      var i :| 0 <= i < |e.activePinches| && e.activePinches[i] == g;
      assert sent[i] == Triggered(g);
    }
  }

  /** A pinch that ends without updates is judged by the scale that was left before it. */
  lemma PinchWithoutUpdates(r: RecState, cfg: Config, n: nat, g: PinchGesture)
    requires r.Idle()
    ensures Triggered(g) in EndPinchSpec(StartPinchSpec(r, cfg, n).0, cfg).1 <==>
            g in r.pinches && PinchOf(cfg, g).FingersMatch(n) &&
            r.scale != 1.0 && PinchOf(cfg, g).minimumScaleDelta >= 0.0 &&
            Abs(r.scale - 1.0) >= PinchOf(cfg, g).minimumScaleDelta
  {
    var e := StartPinchSpec(r, cfg, n).0;
    FilterMember(r.pinches, AdmittedPinch(cfg, n), g);
    MinimumScaleDeltaReachedExactly(PinchOf(cfg, g), r.scale);
    var sent := EndPinchSpec(e, cfg).1;
    if g in e.activePinches && PinchOf(cfg, g).MinimumScaleDeltaReached(r.scale) {
      var i :| 0 <= i < |e.activePinches| && e.activePinches[i] == g;
      assert sent[i] == Triggered(g);
    }
  }

  ghost function Asking(g: PinchGesture, p: PinchParams): Config {
    Config(map[], map[g := p])
  }

  /** Such a pinch, without any movement, never triggers a registered gesture, whatever that asks for, exactly if the
      scale left before the pinch is 1. */
  lemma UnmovedPinchExactly(r: RecState, g: PinchGesture)
    requires r.Idle() && g in r.pinches
    ensures (forall n, p :: !(Triggered(g) in EndPinchSpec(StartPinchSpec(r, Asking(g, p), n).0, Asking(g, p)).1)) <==>
            r.scale == 1.0
  {
    hide EndPinchSpec, StartPinchSpec, Filter;
    if r.scale == 1.0 {
      forall n, p ensures !(Triggered(g) in EndPinchSpec(StartPinchSpec(r, Asking(g, p), n).0, Asking(g, p)).1) {
        PinchWithoutUpdates(r, Asking(g, p), n, g);
      }
    } else {
      PinchWithoutUpdates(r, Asking(g, PinchParams(Expanding, None, None, Abs(r.scale - 1.0))), 0, g);
    }
  }

  /** After a complete pinch the scale is back at 1, so that the next one is not influenced. */
  lemma PinchLeavesNoTrace(r: RecState, cfg: Config, n: nat, scales: seq<real>)
    requires r.Idle()
    ensures EndPinchSpec(PinchRun(r, cfg, n, scales), cfg).0 == r.(fingers := 0, scale := 1.0, axis := NoAxis)
    ensures CancelPinchSpec(PinchRun(r, cfg, n, scales)).0 ==
            r.(fingers := 0, scale := 1.0, delta := ORIGIN, axis := NoAxis)
  {
    PinchRunFrame(r, cfg, n, scales);
  }

  /** The end of a swipe leaves pinches alone, the end of a pinch leaves nothing active and keeps the delta, and either
      kind of cancel cancels everything, each gesture once. */
  lemma EndsAndCancels(r: RecState, cfg: Config)
    ensures EndSwipeSpec(r, cfg).0 == r.(activeSwipes := [], fingers := 0, delta := ORIGIN, axis := NoAxis)
    ensures EndPinchSpec(r, cfg).0.Idle() && EndPinchSpec(r, cfg).0.delta == r.delta
    ensures CancelSwipeSpec(r).0.Idle() && CancelPinchSpec(r).0.Idle() && CancelSwipeSpec(r).1 == CancelPinchSpec(r).1
    ensures forall i :: 0 <= i < |r.activeSwipes| ==> CancelSwipeSpec(r).1[i] == Cancelled(r.activeSwipes[i])
    ensures forall i :: 0 <= i < |r.activePinches| ==> CancelSwipeSpec(r).1[|r.activeSwipes| + i] == Cancelled(r.activePinches[i])
    ensures |CancelSwipeSpec(r).1| == |r.activeSwipes| + |r.activePinches|
  {
  }

  /** A cancelled swipe leaves the scale 0 behind: a pinch that follows it and never moves is triggered. */
  lemma CancelledSwipeTriggersPinch(g: PinchGesture, cfg: Config, n: nat)
    requires PinchOf(cfg, g).FingersMatch(n) && 0.0 <= PinchOf(cfg, g).minimumScaleDelta <= 1.0
    ensures var calls := [Call(RegisterPinch(g), cfg)] + [Call(CancelSwipe, cfg)] + [Call(StartPinch(n), cfg)];
            LegalRun(calls + [Call(EndPinch, cfg)]) && Run(calls).scale == 0.0 &&
            Triggered(g) in SignalsOf(calls + [Call(EndPinch, cfg)])
  {
    var a, b, c, d := Call(RegisterPinch(g), cfg), Call(CancelSwipe, cfg), Call(StartPinch(n), cfg), Call(EndPinch, cfg);
    RunSnoc([], a);
    assert [] + [a] == [a];
    RunSnoc([a], b);
    RunSnoc([a] + [b], c);
    RunSnoc([a] + [b] + [c], d);
    assert Run([]) == INITIAL && LegalRun([]);
    hide Run, SignalsOf, LegalRun, EndPinchSpec, StartPinchSpec, CancelSwipeSpec, RegisterPinchSpec;
    var r := Run([a] + [b]);
    assert r == CancelSwipeSpec(RegisterPinchSpec(INITIAL, g).0).0;
    assert Run([a] + [b] + [c]) == StartPinchSpec(r, cfg, n).0;
    var calls := [a] + [b] + [c];
    assert SignalsOf(calls + [d]) == SignalsOf(calls) + EndPinchSpec(Run(calls), cfg).1;
    hide Step;
    FreshPinch(g);
    assert Abs(0.0 - 1.0) == 1.0;
    PinchWithoutUpdates(r, cfg, n, g);
    StartPinchScale(r, cfg, n);
  }

  lemma FreshPinch(g: PinchGesture)
    ensures var r := CancelSwipeSpec(RegisterPinchSpec(INITIAL, g).0).0; r.Idle() && r.scale == 0.0 && g in r.pinches
    ensures g !in INITIAL.pinches
  {
  }

  lemma StartPinchScale(r: RecState, cfg: Config, n: nat)
    ensures StartPinchSpec(r, cfg, n).0.scale == r.scale
  {
  }

  lemma PinchScale(r: RecState, cfg: Config, n: nat, scales: seq<real>)
    requires scales != []
    ensures PinchRun(r, cfg, n, scales).scale == scales[|scales| - 1]
  {
    var s := scales[|scales| - 1];
    TwoPinchPasses(PinchRun(r, cfg, n, scales[..|scales| - 1]).(scale := s), cfg, PinchDirectionOf(s));
  }

  /** Progress is reported in [0, 1], and full progress means that the minimum is reached; but it is not a number exactly
      if the minimum asks for nothing along the gesture's direction and nothing has moved along it. */
  lemma ProgressRange(p: SwipeParams, delta: Vec)
    ensures p.DeltaToProgress(delta).None? <==>
            p.minimumDelta.Some? && p.minimumDelta.value != ORIGIN &&
            Along(p.direction, p.minimumDelta.value) == 0.0 == Along(p.direction, delta)
    ensures p.DeltaToProgress(delta).Some? ==>
              0.0 <= p.DeltaToProgress(delta).value <= 1.0 &&
              (p.DeltaToProgress(delta).value == 1.0 <==> p.MinimumDeltaReached(delta)) &&
              (p.DeltaToProgress(delta).value < 1.0 ==>
                 p.minimumDelta.Some? &&
                 p.DeltaToProgress(delta).value * Abs(Along(p.direction, p.minimumDelta.value)) == Abs(Along(p.direction, delta)))
  {
    if p.minimumDelta.Some? && p.minimumDelta.value != ORIGIN {
      var n, d := Abs(Along(p.direction, delta)), Abs(Along(p.direction, p.minimumDelta.value));
      if d > 0.0 {
        QuotientBelowOne(n, d);
      }
    }
  }

  /** The same for pinches: not a number exactly if no minimum is asked for and the scale is unchanged. */
  lemma PinchProgressRange(p: PinchParams, scale: real)
    ensures p.ScaleDeltaToProgress(scale).None? <==> p.minimumScaleDelta == 0.0 && scale == 1.0
    ensures p.ScaleDeltaToProgress(scale).Some? ==>
              0.0 <= p.ScaleDeltaToProgress(scale).value <= 1.0 &&
              (p.ScaleDeltaToProgress(scale).value == 1.0 <==> p.MinimumScaleDeltaReached(scale)) &&
              (p.ScaleDeltaToProgress(scale).value < 1.0 && p.minimumScaleDelta >= 0.0 ==>
                 p.ScaleDeltaToProgress(scale).value * p.minimumScaleDelta == Abs(scale - 1.0))
  {
    if p.minimumScaleDelta > 0.0 {
      QuotientBelowOne(Abs(scale - 1.0), p.minimumScaleDelta);
    }
  }

  // ---------------------------------------------------------------------------
  // What an update reports
  // ---------------------------------------------------------------------------

  lemma {:induction false} ProgressAt(cfg: Config, gs: seq<SwipeGesture>, delta: Vec, i: nat)
    requires i < |gs|
    ensures var sent := SwipeProgressAll(cfg, gs, delta);
            |sent| == 2 * |gs| && sent[2 * i] == Progress(gs[i], SwipeOf(cfg, gs[i]).DeltaToProgress(delta)) &&
            sent[2 * i + 1] == DeltaProgress(gs[i], delta)
  {
    ProgressLength(cfg, gs[..|gs| - 1], delta);
    if i < |gs| - 1 {
      ProgressAt(cfg, gs[..|gs| - 1], delta, i);
    }
  }

  lemma {:induction false} ProgressLength(cfg: Config, gs: seq<SwipeGesture>, delta: Vec)
    ensures |SwipeProgressAll(cfg, gs, delta)| == 2 * |gs|
  {
    if gs != [] {
      ProgressLength(cfg, gs[..|gs| - 1], delta);
    }
  }

  /** Each gesture that an update leaves active reports, in registration order, its progress and then the whole delta. */
  lemma UpdateReports(r: RecState, cfg: Config, d: Vec, i: nat)
    requires i < |UpdateSwipeSpec(r, cfg, d).0.activeSwipes|
    ensures var (e, sent) := UpdateSwipeSpec(r, cfg, d);
            var total, from := Vec(r.delta.x + d.x, r.delta.y + d.y), |sent| - 2 * |e.activeSwipes|;
            from >= 0 && sent[from + 2 * i + 1] == DeltaProgress(e.activeSwipes[i], total) &&
            sent[from + 2 * i] == Progress(e.activeSwipes[i], SwipeOf(cfg, e.activeSwipes[i]).DeltaToProgress(total))
  {
    hide SwipePasses, SwipeProgressAll, SwipeParams.DeltaToProgress;
    ProgressAt(cfg, UpdateSwipeSpec(r, cfg, d).0.activeSwipes, Add(r.delta, d), i);
  }

  /** Each pinch that an update leaves active reports its progress, in registration order. */
  lemma PinchUpdateReports(r: RecState, cfg: Config, scale: real, i: nat)
    requires i < |UpdatePinchSpec(r, cfg, scale).0.activePinches|
    ensures var (e, sent) := UpdatePinchSpec(r, cfg, scale);
            var from := |sent| - |e.activePinches|;
            from >= 0 &&
            sent[from + i] == Progress(e.activePinches[i], PinchOf(cfg, e.activePinches[i]).ScaleDeltaToProgress(scale))
  {
    hide PinchPasses, PinchParams.ScaleDeltaToProgress;
  }

  /** A gesture lies on an axis if its direction does. */
  predicate LiesOn(d: Direction, axis: Axis) {
    match axis
    case Horizontal => d == Left || d == Right
    case Vertical => d == Up || d == Down
    case NoAxis => true
  }

  lemma StartedOnAxis(r: RecState, cfg: Config, n: nat, pos: Option<Vec>, g: SwipeGesture)
    requires Started(g) in StartSwipeSpec(r, cfg, n, pos).1
    ensures r.Idle() && g in r.swipes && LiesOn(SwipeOf(cfg, g).direction, r.axis)
  {
    var a := Filter(r.swipes, Admitted(cfg, n, pos, r.axis));
    var i :| 0 <= i < |StartedAll(a)| && StartedAll(a)[i] == Started(g);
    FilterMember(r.swipes, Admitted(cfg, n, pos, r.axis), a[i]);
  }

  lemma PassStartsOnAxis(r: RecState, cfg: Config, dir: Direction, g: SwipeGesture)
    requires Started(g) in SwipePass(r, cfg, dir).1
    ensures LiesOn(SwipeOf(cfg, g).direction, r.axis)
  {
    var (r1, s1) := if r.activeSwipes == [] then StartSwipeSpec(r, cfg, r.fingers, None) else (r, []);
    var gone := Filter(r1.activeSwipes, Eliminated(cfg, dir));
    assert !(Started(g) in CancelledAll(gone));
    assert SwipePass(r, cfg, dir).1 == s1 + CancelledAll(gone);
    StartedOnAxis(r, cfg, r.fingers, None, g);
  }

  /** Once the axis is locked, a restart starts no gesture across it, four-sided ones included. */
  lemma UpdateStartsOnAxis(r: RecState, cfg: Config, d: Vec, g: SwipeGesture)
    requires Started(g) in UpdateSwipeSpec(r, cfg, d).1
    ensures LiesOn(SwipeOf(cfg, g).direction, UpdateSwipeSpec(r, cfg, d).0.axis)
  {
    var total := Add(r.delta, d);
    var dir := DirectionOn(CurrentAxis(r.axis, total), total);
    var r0 := r.(delta := total, axis := LockedAxis(r.axis, total));
    var (r1, s1) := SwipePass(r0, cfg, dir);
    var (r2, s2) := SwipePass(r1, cfg, dir);
    NoStartInProgress(cfg, r2.activeSwipes, total, g);
    PassKeepsAxis(r0, cfg, dir);
    PassKeepsAxis(r1, cfg, dir);
    hide SwipePass, SwipeProgressAll, LiesOn;
    if Started(g) in s1 {
      PassStartsOnAxis(r0, cfg, dir, g);
    } else {
      PassStartsOnAxis(r1, cfg, dir, g);
    }
  }

  lemma PassKeepsAxis(r: RecState, cfg: Config, dir: Direction)
    ensures SwipePass(r, cfg, dir).0.axis == r.axis
  {
  }

  lemma {:induction false} NoStartInProgress(cfg: Config, gs: seq<SwipeGesture>, delta: Vec, g: SwipeGesture)
    ensures !(Started(g) in SwipeProgressAll(cfg, gs, delta))
  {
    if gs != [] {
      NoStartInProgress(cfg, gs[..|gs| - 1], delta, g);
    }
  }
}
