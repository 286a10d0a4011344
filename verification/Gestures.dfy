/** The gesture parameters, the recognizer's value-level specification and the recognizer itself. */
module Gestures {
  import opened Sequences

  datatype Vec = Vec(x: real, y: real)

  const ORIGIN := Vec(0.0, 0.0)

  /** How far the accumulated delta must reach before the swipe axis is locked. */
  const LOCK_DISTANCE := 5.0

  function Add(a: Vec, b: Vec): Vec {
    Vec(a.x + b.x, a.y + b.y)
  }

  function Abs(r: real): real {
    if r < 0.0 then -r else r
  }

  datatype Direction = Down | Left | Up | Right

  datatype Axis = Horizontal | Vertical | NoAxis

  datatype PinchDirection = Expanding | Contracting

  /** The component of `v` that a swipe in direction `d` looks at. */
  function Along(d: Direction, v: Vec): real {
    if d.Up? || d.Down? then v.y else v.x
  }

  /** Distance covered in direction `d`; negative when `v` points the other way. */
  function Travel(d: Direction, v: Vec): real {
    match d
    case Down => v.y
    case Up => -v.y
    case Right => v.x
    case Left => -v.x
  }

  /** A non-negative quotient capped at 1; dividing by zero gives infinity, hence 1, or not-a-number (None). */
  function CappedQuotient(n: real, d: real): Option<real>
    requires n >= 0.0 && d >= 0.0
  {
    if d == 0.0 then (if n == 0.0 then None else Some(1.0))
    else if n / d < 1.0 then Some(n / d) else Some(1.0)
  }

  // ---------------------------------------------------------------------------
  // Gesture parameters
  // ---------------------------------------------------------------------------

  /** What a swipe gesture asks for; None stands for a bound that is not relevant. */
  datatype SwipeParams = SwipeParams(
    direction: Direction,
    minimumFingerCount: Option<nat>, maximumFingerCount: Option<nat>,
    minimumX: Option<int>, maximumX: Option<int>, minimumY: Option<int>, maximumY: Option<int>,
    minimumDelta: Option<Vec>)
  {
    /** All four start bounds are set: the gesture starts at a screen border. */
    predicate FourSided() {
      minimumX.Some? && maximumX.Some? && minimumY.Some? && maximumY.Some?
    }

    predicate FingersMatch(n: nat) {
      (minimumFingerCount.Some? ==> minimumFingerCount.value <= n) &&
      (maximumFingerCount.Some? ==> n <= maximumFingerCount.value)
    }

    predicate PositionMatches(p: Vec) {
      (minimumX.Some? ==> minimumX.value as real <= p.x) &&
      (maximumX.Some? ==> p.x <= maximumX.value as real) &&
      (minimumY.Some? ==> minimumY.value as real <= p.y) &&
      (maximumY.Some? ==> p.y <= maximumY.value as real)
    }

    predicate AxisMatches(axis: Axis) {
      (direction.Up? || direction.Down? ==> axis != Horizontal) &&
      (direction.Left? || direction.Right? ==> axis != Vertical)
    }

    /** The test of startSwipeGesture; `pos` is None when the start position is irrelevant. */
    predicate AdmittedBy(n: nat, pos: Option<Vec>, axis: Axis) {
      FingersMatch(n) && (pos.Some? ==> PositionMatches(pos.value)) && AxisMatches(axis)
    }

    function DeltaToProgress(delta: Vec): Option<real> {
      if minimumDelta.None? || minimumDelta.value == ORIGIN then Some(1.0)
      else CappedQuotient(Abs(Along(direction, delta)), Abs(Along(direction, minimumDelta.value)))
    }

    predicate MinimumDeltaReached(delta: Vec) {
      var p := DeltaToProgress(delta);
      p.Some? && p.value >= 1.0
    }
  }

  datatype PinchParams = PinchParams(
    direction: PinchDirection,
    minimumFingerCount: Option<nat>, maximumFingerCount: Option<nat>,
    minimumScaleDelta: real)
  {
    predicate FingersMatch(n: nat) {
      (minimumFingerCount.Some? ==> minimumFingerCount.value <= n) &&
      (maximumFingerCount.Some? ==> n <= maximumFingerCount.value)
    }

    /** Clamped to [0, 1]; a negative minimum gives a negative quotient, hence 0. */
    function ScaleDeltaToProgress(scale: real): Option<real> {
      var change := Abs(scale - 1.0);
      if minimumScaleDelta < 0.0 then Some(0.0)
      else CappedQuotient(change, minimumScaleDelta)
    }

    predicate MinimumScaleDeltaReached(scale: real) {
      var p := ScaleDeltaToProgress(scale);
      p.Some? && p.value >= 1.0
    }
  }

  const DEFAULT_SWIPE := SwipeParams(Down, None, None, None, None, None, None, None)
  const DEFAULT_PINCH := PinchParams(Expanding, None, None, 0.2)

  class SwipeGesture {
    var direction: Direction
    var minimumFingerCount: Option<nat>
    var maximumFingerCount: Option<nat>
    var minimumX: Option<int>
    var maximumX: Option<int>
    var minimumY: Option<int>
    var maximumY: Option<int>
    var minimumDelta: Option<Vec>

    /** The current parameters as a value. */
    function Params(): SwipeParams
      reads this
    {
      SwipeParams(direction, minimumFingerCount, maximumFingerCount,
                  minimumX, maximumX, minimumY, maximumY, minimumDelta)
    }

    constructor ()
      ensures Params() == DEFAULT_SWIPE
    {
      direction, minimumFingerCount, maximumFingerCount := Down, None, None;
      minimumX, maximumX, minimumY, maximumY, minimumDelta := None, None, None, None, None;
    }

    method SetDirection(d: Direction)
      modifies this`direction
      ensures direction == d
    {
      direction := d;
    }

    method SetMinimumFingerCount(n: nat)
      modifies this`minimumFingerCount
      ensures minimumFingerCount == Some(n)
    {
      minimumFingerCount := Some(n);
    }

    method SetMaximumFingerCount(n: nat)
      modifies this`maximumFingerCount
      ensures maximumFingerCount == Some(n)
    {
      maximumFingerCount := Some(n);
    }

    method SetMinimumDelta(d: Vec)
      modifies this`minimumDelta
      ensures minimumDelta == Some(d)
    {
      minimumDelta := Some(d);
    }

    /** The chain of tests that a starting swipe must pass. */
    method Admits(fingerCount: nat, startPos: Option<Vec>, axis: Axis) returns (ok: bool)
      ensures ok == Params().AdmittedBy(fingerCount, startPos, axis)
    {
      if minimumFingerCount.Some? && minimumFingerCount.value > fingerCount {
        return false;
      }
      if maximumFingerCount.Some? && maximumFingerCount.value < fingerCount {
        return false;
      }
      if startPos.Some? {
        if minimumX.Some? && minimumX.value as real > startPos.value.x {
          return false;
        }
        if maximumX.Some? && (maximumX.value as real) < startPos.value.x {
          return false;
        }
        if minimumY.Some? && minimumY.value as real > startPos.value.y {
          return false;
        }
        if maximumY.Some? && (maximumY.value as real) < startPos.value.y {
          return false;
        }
      }
      match direction {
        case Up | Down => return axis != Horizontal;
        case Left | Right => return axis != Vertical;
      }
    }

    /** Whether an update in direction `d` cancels the gesture. */
    method IsEliminatedBy(d: Direction) returns (wrong: bool)
      ensures wrong == !(Params().direction == d || Params().FourSided())
    {
      if direction != d {
        // a gesture that was started from a screen border is never cancelled
        if minimumX.None? || maximumX.None? || minimumY.None? || maximumY.None? {
          return true;
        }
      }
      return false;
    }

    /** Sets all four start bounds from a rectangle. */
    method SetStartGeometry(x: int, y: int, width: nat, height: nat)
      modifies this`minimumX, this`minimumY, this`maximumX, this`maximumY
      ensures Params().FourSided()
      ensures forall p: Vec :: Params().PositionMatches(p) <==>
                               x as real <= p.x <= (x + width) as real && y as real <= p.y <= (y + height) as real
    {
      minimumX, minimumY := Some(x), Some(y);
      maximumX, maximumY := Some(x + width), Some(y + height);
    }
  }

  class PinchGesture {
    var direction: PinchDirection
    var minimumFingerCount: Option<nat>
    var maximumFingerCount: Option<nat>
    var minimumScaleDelta: real

    function Params(): PinchParams
      reads this
    {
      PinchParams(direction, minimumFingerCount, maximumFingerCount, minimumScaleDelta)
    }

    constructor ()
      ensures Params() == DEFAULT_PINCH
    {
      direction, minimumFingerCount, maximumFingerCount, minimumScaleDelta := Expanding, None, None, 0.2;
    }

    method SetDirection(d: PinchDirection)
      modifies this`direction
      ensures direction == d
    {
      direction := d;
    }

    method SetMinimumFingerCount(n: nat)
      modifies this`minimumFingerCount
      ensures minimumFingerCount == Some(n)
    {
      minimumFingerCount := Some(n);
    }

    method SetMaximumFingerCount(n: nat)
      modifies this`maximumFingerCount
      ensures maximumFingerCount == Some(n)
    {
      maximumFingerCount := Some(n);
    }

    /** The tests that a starting pinch must pass; the direction does not matter yet. */
    method Admits(fingerCount: nat) returns (ok: bool)
      ensures ok == Params().FingersMatch(fingerCount)
    {
      if minimumFingerCount.Some? && minimumFingerCount.value > fingerCount {
        return false;
      }
      if maximumFingerCount.Some? && maximumFingerCount.value < fingerCount {
        return false;
      }
      return true;
    }
  }

  /** The parameters of the registered gestures at one moment. */
  datatype Config = Config(swipe: map<SwipeGesture, SwipeParams>, pinch: map<PinchGesture, PinchParams>)

  ghost function ConfigOf(swipes: seq<SwipeGesture>, pinches: seq<PinchGesture>): Config
    reads swipes, pinches
  {
    Config(map g | g in swipes :: g.Params(), map g | g in pinches :: g.Params())
  }

  ghost function SwipeOf(cfg: Config, g: SwipeGesture): SwipeParams {
    if g in cfg.swipe then cfg.swipe[g] else DEFAULT_SWIPE
  }

  ghost function PinchOf(cfg: Config, g: PinchGesture): PinchParams {
    if g in cfg.pinch then cfg.pinch[g] else DEFAULT_PINCH
  }

  // ---------------------------------------------------------------------------
  // Signals
  // ---------------------------------------------------------------------------

  /** A signal emitted by the gesture `who`. */
  datatype Signal =
    | Started(who: object)
    | Triggered(who: object)
    | Cancelled(who: object)
    | Progress(who: object, value: Option<real>)
    | DeltaProgress(who: object, delta: Vec)

  ghost function StartedAll(gs: seq<object>): seq<Signal> {
    seq(|gs|, i requires 0 <= i < |gs| => Started(gs[i]))
  }

  ghost function CancelledAll(gs: seq<object>): seq<Signal> {
    seq(|gs|, i requires 0 <= i < |gs| => Cancelled(gs[i]))
  }

  ghost function SwipeProgressAll(cfg: Config, gs: seq<SwipeGesture>, delta: Vec): seq<Signal> {
    if gs == [] then []
    else
      var g := gs[|gs| - 1];
      SwipeProgressAll(cfg, gs[..|gs| - 1], delta)
      + [Progress(g, SwipeOf(cfg, g).DeltaToProgress(delta)), DeltaProgress(g, delta)]
  }

  ghost function PinchProgressAll(cfg: Config, gs: seq<PinchGesture>, scale: real): seq<Signal> {
    seq(|gs|, i requires 0 <= i < |gs| => Progress(gs[i], PinchOf(cfg, gs[i]).ScaleDeltaToProgress(scale)))
  }

  /** How each active swipe ends when the fingers are lifted. */
  ghost function SwipeEndAll(cfg: Config, gs: seq<SwipeGesture>, delta: Vec): seq<Signal> {
    seq(|gs|, i requires 0 <= i < |gs| =>
      if SwipeOf(cfg, gs[i]).MinimumDeltaReached(delta) then Triggered(gs[i]) else Cancelled(gs[i]))
  }

  ghost function PinchEndAll(cfg: Config, gs: seq<PinchGesture>, scale: real): seq<Signal> {
    seq(|gs|, i requires 0 <= i < |gs| =>
      if PinchOf(cfg, gs[i]).MinimumScaleDeltaReached(scale) then Triggered(gs[i]) else Cancelled(gs[i]))
  }

  // ---------------------------------------------------------------------------
  // The recognizer on values
  // ---------------------------------------------------------------------------

  datatype RecState = RecState(
    swipes: seq<SwipeGesture>, pinches: seq<PinchGesture>,
    activeSwipes: seq<SwipeGesture>, activePinches: seq<PinchGesture>,
    delta: Vec, scale: real, fingers: nat, axis: Axis)
  {
    predicate Idle() {
      activeSwipes == [] && activePinches == []
    }

    /** Gestures are listed once, only registered ones are active, and never swipes and pinches together. */
    ghost predicate Valid() {
      NoDup(swipes) && NoDup(pinches) && NoDup(activeSwipes) && NoDup(activePinches) &&
      Within(activeSwipes, swipes) && Within(activePinches, pinches) &&
      (activeSwipes == [] || activePinches == [])
    }
  }

  const INITIAL := RecState([], [], [], [], ORIGIN, 1.0, 0, NoAxis)

  type Outcome = (RecState, seq<Signal>)

  ghost function Admitted(cfg: Config, n: nat, pos: Option<Vec>, axis: Axis): SwipeGesture -> bool {
    (g: SwipeGesture) => SwipeOf(cfg, g).AdmittedBy(n, pos, axis)
  }

  ghost function AdmittedPinch(cfg: Config, n: nat): PinchGesture -> bool {
    (g: PinchGesture) => PinchOf(cfg, g).FingersMatch(n)
  }

  /** The gestures an update leaves active. */
  ghost function Kept(cfg: Config, dir: Direction): SwipeGesture -> bool {
    (g: SwipeGesture) => SwipeOf(cfg, g).direction == dir || SwipeOf(cfg, g).FourSided()
  }

  ghost function Eliminated(cfg: Config, dir: Direction): SwipeGesture -> bool {
    (g: SwipeGesture) => !(SwipeOf(cfg, g).direction == dir || SwipeOf(cfg, g).FourSided())
  }

  ghost function KeptPinch(cfg: Config, dir: PinchDirection): PinchGesture -> bool {
    (g: PinchGesture) => PinchOf(cfg, g).direction == dir
  }

  ghost function EliminatedPinch(cfg: Config, dir: PinchDirection): PinchGesture -> bool {
    (g: PinchGesture) => PinchOf(cfg, g).direction != dir
  }

  ghost function StartSwipeSpec(r: RecState, cfg: Config, n: nat, pos: Option<Vec>): Outcome {
    if !r.Idle() then (r.(fingers := n), [])
    else
      var a := Filter(r.swipes, Admitted(cfg, n, pos, r.axis));
      (r.(fingers := n, activeSwipes := a), StartedAll(a))
  }

  /** One elimination pass: restart if nothing is active, then drop what points elsewhere. */
  ghost function SwipePass(r: RecState, cfg: Config, dir: Direction): Outcome {
    var (r1, s1) := if r.activeSwipes == [] then StartSwipeSpec(r, cfg, r.fingers, None) else (r, []);
    (r1.(activeSwipes := Filter(r1.activeSwipes, Kept(cfg, dir))),
     s1 + CancelledAll(Filter(r1.activeSwipes, Eliminated(cfg, dir))))
  }

  /** Both passes: the first may leave nothing, the second then starts afresh. */
  ghost function SwipePasses(r: RecState, cfg: Config, dir: Direction): Outcome {
    var (r1, s1) := SwipePass(r, cfg, dir);
    var (r2, s2) := SwipePass(r1, cfg, dir);
    (r2, s1 + s2)
  }

  predicate Far(total: Vec) {
    Abs(total.x) >= LOCK_DISTANCE || Abs(total.y) >= LOCK_DISTANCE
  }

  function DominantAxis(total: Vec): Axis {
    if Abs(total.x) >= Abs(total.y) then Horizontal else Vertical
  }

  /** The axis an update works on, given the locked one. */
  function CurrentAxis(locked: Axis, total: Vec): Axis {
    if locked == NoAxis then DominantAxis(total) else locked
  }

  function LockedAxis(locked: Axis, total: Vec): Axis {
    if locked == NoAxis && Far(total) then DominantAxis(total) else locked
  }

  function DirectionOn(axis: Axis, total: Vec): Direction {
    if axis == Vertical then (if total.y < 0.0 then Up else Down)
    else (if total.x < 0.0 then Left else Right)
  }

  ghost function UpdateSwipeSpec(r: RecState, cfg: Config, d: Vec): Outcome {
    var total := Add(r.delta, d);
    var dir := DirectionOn(CurrentAxis(r.axis, total), total);
    var (r1, sent) := SwipePasses(r.(delta := total, axis := LockedAxis(r.axis, total)), cfg, dir);
    (r1, sent + SwipeProgressAll(cfg, r1.activeSwipes, total))
  }

  ghost function CancelActiveSpec(r: RecState): Outcome {
    (r.(activeSwipes := [], activePinches := [], scale := 0.0, delta := ORIGIN, axis := NoAxis),
     CancelledAll(r.activeSwipes) + CancelledAll(r.activePinches))
  }

  ghost function CancelSwipeSpec(r: RecState): Outcome {
    (CancelActiveSpec(r).0.(fingers := 0), CancelActiveSpec(r).1)
  }

  ghost function EndSwipeSpec(r: RecState, cfg: Config): Outcome {
    (r.(activeSwipes := [], fingers := 0, delta := ORIGIN, axis := NoAxis),
     SwipeEndAll(cfg, r.activeSwipes, r.delta))
  }

  ghost function StartPinchSpec(r: RecState, cfg: Config, n: nat): Outcome {
    if !r.Idle() then (r.(fingers := n), [])
    else
      var a := Filter(r.pinches, AdmittedPinch(cfg, n));
      (r.(fingers := n, activePinches := a), StartedAll(a))
  }

  ghost function PinchPass(r: RecState, cfg: Config, dir: PinchDirection): Outcome {
    var (r1, s1) := if r.activePinches == [] then StartPinchSpec(r, cfg, r.fingers) else (r, []);
    (r1.(activePinches := Filter(r1.activePinches, KeptPinch(cfg, dir))),
     s1 + CancelledAll(Filter(r1.activePinches, EliminatedPinch(cfg, dir))))
  }

  ghost function PinchPasses(r: RecState, cfg: Config, dir: PinchDirection): Outcome {
    var (r1, s1) := PinchPass(r, cfg, dir);
    var (r2, s2) := PinchPass(r1, cfg, dir);
    (r2, s1 + s2)
  }

  function PinchDirectionOf(scale: real): PinchDirection {
    if scale < 1.0 then Contracting else Expanding
  }

  ghost function UpdatePinchSpec(r: RecState, cfg: Config, scale: real): Outcome {
    var dir := PinchDirectionOf(scale);
    var (r1, sent) := PinchPasses(r.(scale := scale), cfg, dir);
    (r1, sent + PinchProgressAll(cfg, r1.activePinches, scale))
  }

  ghost function CancelPinchSpec(r: RecState): Outcome {
    (CancelActiveSpec(r).0.(scale := 1.0, fingers := 0), CancelActiveSpec(r).1)
  }

  /** Ends the pinches; active swipes are dropped without a signal. */
  ghost function EndPinchSpec(r: RecState, cfg: Config): Outcome {
    (r.(activeSwipes := [], activePinches := [], scale := 1.0, fingers := 0, axis := NoAxis),
     PinchEndAll(cfg, r.activePinches, r.scale))
  }

  ghost function RegisterSwipeSpec(r: RecState, g: SwipeGesture): Outcome {
    (r.(swipes := r.swipes + [g]), [])
  }

  ghost function UnregisterSwipeSpec(r: RecState, g: SwipeGesture): Outcome {
    (r.(swipes := Without(r.swipes, g), activeSwipes := Without(r.activeSwipes, g)),
     if g in r.activeSwipes then [Cancelled(g)] else [])
  }

  ghost function RegisterPinchSpec(r: RecState, g: PinchGesture): Outcome {
    (r.(pinches := r.pinches + [g]), [])
  }

  ghost function UnregisterPinchSpec(r: RecState, g: PinchGesture): Outcome {
    (r.(pinches := Without(r.pinches, g), activePinches := Without(r.activePinches, g)),
     if g in r.activePinches then [Cancelled(g)] else [])
  }

  /** Removing the first occurrence, which is the only one. */
  lemma WithoutOne<T>(s: seq<T>, i: nat)
    requires i < |s| && NoDup(s)
    ensures Without(s, s[i]) == s[..i] + s[i + 1..]
  {
    var x := s[i];
    assert s == InsertAt(s[..i] + s[i + 1..], i, x) by {
      assert (s[..i] + s[i + 1..])[..i] == s[..i];
      assert (s[..i] + s[i + 1..])[i..] == s[i + 1..];
    }
    WithoutInsert(s[..i] + s[i + 1..], i, x);
    WithoutAbsent(s[..i] + s[i + 1..], x);
  }

  /** `s` without the first occurrence of `x`. */
  function RemovedOne<T(==)>(s: seq<T>, x: T): seq<T> {
    if x in s then
      var i := IndexOf(s, x);
      s[..i] + s[i + 1..]
    else s
  }

  lemma RemovedOneIsWithout<T>(s: seq<T>, x: T)
    requires NoDup(s)
    ensures RemovedOne(s, x) == Without(s, x)
  {
    if x in s {
      WithoutOne(s, IndexOf(s, x));
    } else {
      WithoutAbsent(s, x);
    }
  }

  lemma ConcatAssociative<T>(a: seq<T>, b: seq<T>, c: seq<T>)
    ensures (a + b) + c == a + (b + c)
  {
  }

  /** An in-place filter that has looked at `seen` elements of `base` and stands at position `it` of `now`. */
  ghost predicate ErasedUpTo<T>(base: seq<T>, seen: nat, kept: T -> bool, now: seq<T>, it: nat) {
    seen <= |base| && now == Filter(base[..seen], kept) + base[seen..] && it == |Filter(base[..seen], kept)|
  }

  lemma EraseStart<T>(base: seq<T>, kept: T -> bool)
    ensures ErasedUpTo(base, 0, kept, base, 0)
  {
  }

  lemma EraseEnd<T>(base: seq<T>, seen: nat, kept: T -> bool, now: seq<T>, it: nat)
    requires ErasedUpTo(base, seen, kept, now, it) && it >= |now|
    ensures seen == |base| && now == Filter(base, kept)
  {
    assert base[..|base|] == base;
  }

  /** `log` is `sent` followed by a cancellation of each of `gone`. */
  ghost predicate CancelledUpTo(sent: seq<Signal>, gone: seq<object>, log: seq<Signal>) {
    log == sent + CancelledAll(gone)
  }

  /** `log` is `sent` followed by a start of each of `begun`. */
  ghost predicate StartedUpTo(sent: seq<Signal>, begun: seq<object>, log: seq<Signal>) {
    log == sent + StartedAll(begun)
  }

  lemma StartedStart(sent: seq<Signal>)
    ensures StartedUpTo(sent, [], sent)
  {
  }

  lemma StartedStep(sent: seq<Signal>, begun: seq<object>, log: seq<Signal>, g: object)
    requires StartedUpTo(sent, begun, log)
    ensures StartedUpTo(sent, begun + [g], log + [Started(g)])
  {
  }

  lemma StartedEnd(sent: seq<Signal>, begun: seq<object>, log: seq<Signal>)
    requires StartedUpTo(sent, begun, log)
    ensures log == sent + StartedAll(begun)
  {
  }

  lemma CancelledStep(sent: seq<Signal>, gone: seq<object>, log: seq<Signal>, g: object)
    requires CancelledUpTo(sent, gone, log)
    ensures CancelledUpTo(sent, gone + [g], log + [Cancelled(g)])
  {
  }

  /** One step of the in-place filter: move on, or erase and stay. */
  lemma EraseStep<T>(base: seq<T>, seen: nat, kept: T -> bool, now: seq<T>, it: nat)
    requires ErasedUpTo(base, seen, kept, now, it) && it < |now|
    ensures seen < |base| && now[it] == base[seen]
    ensures kept(base[seen]) ==> ErasedUpTo(base, seen + 1, kept, now, it + 1)
    ensures !kept(base[seen]) ==> ErasedUpTo(base, seen + 1, kept, now[..it] + now[it + 1..], it)
  {
    FilterPrefix(base, seen, kept);
    assert base[seen..] == [base[seen]] + base[seen + 1..];
  }

  /** The state of the in-place elimination of Swipes: what is left and what was signalled. */
  ghost predicate ErasingSwipes(base: seq<SwipeGesture>, seen: nat, cfg: Config, dir: Direction, sent: seq<Signal>,
                            now: seq<SwipeGesture>, it: nat, log: seq<Signal>) {
    seen <= |base| && ErasedUpTo(base, seen, Kept(cfg, dir), now, it) &&
    CancelledUpTo(sent, Filter(base[..seen], Eliminated(cfg, dir)), log)
  }

  lemma ErasingSwipesStart(base: seq<SwipeGesture>, cfg: Config, dir: Direction, sent: seq<Signal>)
    ensures ErasingSwipes(base, 0, cfg, dir, sent, base, 0, sent)
  {
    EraseStart(base, Kept(cfg, dir));
  }

  lemma ErasingSwipesStep(base: seq<SwipeGesture>, seen: nat, cfg: Config, dir: Direction, sent: seq<Signal>,
                        now: seq<SwipeGesture>, it: nat, log: seq<Signal>)
    requires ErasingSwipes(base, seen, cfg, dir, sent, now, it, log) && it < |now|
    ensures if SwipeOf(cfg, now[it]).direction == dir || SwipeOf(cfg, now[it]).FourSided()
            then ErasingSwipes(base, seen + 1, cfg, dir, sent, now, it + 1, log)
            else ErasingSwipes(base, seen + 1, cfg, dir, sent, now[..it] + now[it + 1..], it, log + [Cancelled(now[it])])
  {
    hide Filter, CancelledUpTo, ErasedUpTo;
    var g := now[it];
    EraseStep(base, seen, Kept(cfg, dir), now, it);
    FilterPrefix(base, seen, Eliminated(cfg, dir));
    CancelledStep(sent, Filter(base[..seen], Eliminated(cfg, dir)), log, g);
  }

  lemma ErasingSwipesEnd(base: seq<SwipeGesture>, seen: nat, cfg: Config, dir: Direction, sent: seq<Signal>,
                       now: seq<SwipeGesture>, it: nat, log: seq<Signal>)
    requires ErasingSwipes(base, seen, cfg, dir, sent, now, it, log) && it >= |now|
    ensures now == Filter(base, Kept(cfg, dir)) && log == sent + CancelledAll(Filter(base, Eliminated(cfg, dir)))
  {
    EraseEnd(base, seen, Kept(cfg, dir), now, it);
    assert base[..|base|] == base;
  }

  /** The state of the in-place elimination of Pinches: what is left and what was signalled. */
  ghost predicate ErasingPinches(base: seq<PinchGesture>, seen: nat, cfg: Config, dir: PinchDirection, sent: seq<Signal>,
                            now: seq<PinchGesture>, it: nat, log: seq<Signal>) {
    seen <= |base| && ErasedUpTo(base, seen, KeptPinch(cfg, dir), now, it) &&
    CancelledUpTo(sent, Filter(base[..seen], EliminatedPinch(cfg, dir)), log)
  }

  lemma ErasingPinchesStart(base: seq<PinchGesture>, cfg: Config, dir: PinchDirection, sent: seq<Signal>)
    ensures ErasingPinches(base, 0, cfg, dir, sent, base, 0, sent)
  {
    EraseStart(base, KeptPinch(cfg, dir));
  }

  lemma ErasingPinchesStep(base: seq<PinchGesture>, seen: nat, cfg: Config, dir: PinchDirection, sent: seq<Signal>,
                        now: seq<PinchGesture>, it: nat, log: seq<Signal>)
    requires ErasingPinches(base, seen, cfg, dir, sent, now, it, log) && it < |now|
    ensures if PinchOf(cfg, now[it]).direction == dir
            then ErasingPinches(base, seen + 1, cfg, dir, sent, now, it + 1, log)
            else ErasingPinches(base, seen + 1, cfg, dir, sent, now[..it] + now[it + 1..], it, log + [Cancelled(now[it])])
  {
    hide Filter, CancelledUpTo, ErasedUpTo;
    var g := now[it];
    EraseStep(base, seen, KeptPinch(cfg, dir), now, it);
    FilterPrefix(base, seen, EliminatedPinch(cfg, dir));
    CancelledStep(sent, Filter(base[..seen], EliminatedPinch(cfg, dir)), log, g);
  }

  lemma ErasingPinchesEnd(base: seq<PinchGesture>, seen: nat, cfg: Config, dir: PinchDirection, sent: seq<Signal>,
                       now: seq<PinchGesture>, it: nat, log: seq<Signal>)
    requires ErasingPinches(base, seen, cfg, dir, sent, now, it, log) && it >= |now|
    ensures now == Filter(base, KeptPinch(cfg, dir)) && log == sent + CancelledAll(Filter(base, EliminatedPinch(cfg, dir)))
  {
    EraseEnd(base, seen, KeptPinch(cfg, dir), now, it);
    assert base[..|base|] == base;
  }

  // ---------------------------------------------------------------------------
  // The recognizer
  // ---------------------------------------------------------------------------

  class GestureRecognizer {
    var swipes: seq<SwipeGesture>
    var pinches: seq<PinchGesture>
    var activeSwipes: seq<SwipeGesture>
    var activePinches: seq<PinchGesture>
    var currentDelta: Vec
    var currentScale: real
    var currentFingerCount: nat
    var currentSwipeAxis: Axis
    /** Every signal emitted so far, in order. */
    ghost var log: seq<Signal>

    ghost function State(): RecState
      reads this
    {
      RecState(swipes, pinches, activeSwipes, activePinches,
               currentDelta, currentScale, currentFingerCount, currentSwipeAxis)
    }

    ghost predicate Valid()
      reads this
    {
      State().Valid()
    }

    /** What the registered gestures currently ask for. */
    ghost function Parameters(): Config
      reads this, swipes, pinches
    {
      ConfigOf(swipes, pinches)
    }

    constructor ()
      ensures State() == INITIAL && log == [] && Valid()
    {
      swipes, pinches, activeSwipes, activePinches := [], [], [], [];
      currentDelta, currentScale, currentFingerCount, currentSwipeAxis := ORIGIN, 1.0, 0, NoAxis;
      log := [];
    }

    method RegisterSwipeGesture(gesture: SwipeGesture)
      requires Valid() && gesture !in swipes
      modifies this
      ensures Valid() && State() == RegisterSwipeSpec(old(State()), gesture).0 && log == old(log)
    {
      swipes := swipes + [gesture];
    }

    method UnregisterSwipeGesture(gesture: SwipeGesture)
      requires Valid()
      modifies this
      ensures Valid() && State() == UnregisterSwipeSpec(old(State()), gesture).0
      ensures log == old(log) + UnregisterSwipeSpec(old(State()), gesture).1
    {
      UnregisterKeepsValid(State(), gesture);
      RemovedOneIsWithout(activeSwipes, gesture);
      hide Filter, RemovedOne, RecState.Valid;
      ghost var unregistered := UnregisterSwipeSpec(State(), gesture);
      swipes := Without(swipes, gesture);
      var active := gesture in activeSwipes;
      activeSwipes := RemovedOne(activeSwipes, gesture);
      assert State() == unregistered.0;
      if active {
        log := log + [Cancelled(gesture)];
      }
    }

    method RegisterPinchGesture(gesture: PinchGesture)
      requires Valid() && gesture !in pinches
      modifies this
      ensures Valid() && State() == RegisterPinchSpec(old(State()), gesture).0 && log == old(log)
    {
      pinches := pinches + [gesture];
    }

    method UnregisterPinchGesture(gesture: PinchGesture)
      requires Valid()
      modifies this
      ensures Valid() && State() == UnregisterPinchSpec(old(State()), gesture).0
      ensures log == old(log) + UnregisterPinchSpec(old(State()), gesture).1
    {
      UnregisterPinchKeepsValid(State(), gesture);
      RemovedOneIsWithout(activePinches, gesture);
      hide Filter, RemovedOne, RecState.Valid;
      ghost var unregistered := UnregisterPinchSpec(State(), gesture);
      pinches := Without(pinches, gesture);
      var active := gesture in activePinches;
      activePinches := RemovedOne(activePinches, gesture);
      assert State() == unregistered.0;
      if active {
        log := log + [Cancelled(gesture)];
      }
    }

    /** `startPos` is None when the start position is irrelevant. */
    method StartSwipe(fingerCount: nat, startPos: Option<Vec>) returns (count: nat)
      requires Valid()
      modifies this
      ensures Valid() && State() == StartSwipeSpec(old(State()), old(Parameters()), fingerCount, startPos).0
      ensures log == old(log) + StartSwipeSpec(old(State()), old(Parameters()), fingerCount, startPos).1
      ensures count == if old(State().Idle()) then |activeSwipes| else 0
    {
      ghost var cfg := Parameters();
      hide Filter, StartedAll, StartedUpTo, SwipeParams.AdmittedBy;
      StartSwipeKeepsValid(State(), cfg, fingerCount, startPos);
      hide RecState.Valid;
      ghost var begun := StartSwipeSpec(State(), cfg, fingerCount, startPos);
      currentFingerCount := fingerCount;
      if activeSwipes != [] || activePinches != [] {
        return 0;
      }
      ghost var was, admitted := State(), Admitted(cfg, fingerCount, startPos, currentSwipeAxis);
      FilterEmpty(admitted);
      StartedStart(log);
      count := 0;
      for i := 0 to |swipes|
        invariant State() == was.(activeSwipes := activeSwipes)
        invariant activeSwipes == Filter(swipes[..i], admitted)
        invariant StartedUpTo(old(log), activeSwipes, log)
        invariant count == |activeSwipes|
      {
        var gesture := swipes[i];
        FilterPrefix(swipes, i, admitted);
        var admits := gesture.Admits(fingerCount, startPos, currentSwipeAxis);
        assert admits == admitted(gesture) by {
          assert SwipeOf(cfg, gesture) == gesture.Params();
        }
        if !admits {
          continue;
        }
        StartedStep(old(log), activeSwipes, log, gesture);
        activeSwipes := activeSwipes + [gesture];
        count := count + 1;
        log := log + [Started(gesture)];
      }
      assert swipes[..|swipes|] == swipes;
      StartedEnd(old(log), activeSwipes, log);
      assert State() == begun.0;
    }

    /** Starts matching by finger count alone. */
    method StartSwipeGesture(fingerCount: nat) returns (count: nat)
      requires Valid()
      modifies this
      ensures Valid() && State() == StartSwipeSpec(old(State()), old(Parameters()), fingerCount, None).0
      ensures log == old(log) + StartSwipeSpec(old(State()), old(Parameters()), fingerCount, None).1
    {
      count := StartSwipe(fingerCount, None);
    }

    /** Starts matching a one-finger swipe from a position. */
    method StartSwipeGestureAt(startPos: Vec) returns (count: nat)
      requires Valid()
      modifies this
      ensures Valid() && State() == StartSwipeSpec(old(State()), old(Parameters()), 1, Some(startPos)).0
      ensures log == old(log) + StartSwipeSpec(old(State()), old(Parameters()), 1, Some(startPos)).1
    {
      count := StartSwipe(1, Some(startPos));
    }

    /** Cancels and erases, in place, the active gestures that point elsewhere. */
    method EraseSwipes(direction: Direction)
      requires Within(activeSwipes, swipes)
      modifies this
      ensures State() == old(State()).(activeSwipes := Filter(old(activeSwipes), Kept(old(Parameters()), direction)))
      ensures log == old(log) + CancelledAll(Filter(old(activeSwipes), Eliminated(old(Parameters()), direction)))
    {
      ghost var was, sent, cfg, base := State(), log, Parameters(), activeSwipes;
      ghost var seen := 0;
      hide Filter, ErasingSwipes;
      ErasingSwipesStart(base, cfg, direction, sent);
      var it := 0;
      while it < |activeSwipes|
        invariant State() == was.(activeSwipes := activeSwipes)
        invariant ErasingSwipes(base, seen, cfg, direction, sent, activeSwipes, it, log)
        invariant Within(activeSwipes, swipes)
        decreases |activeSwipes| - it
      {
        var g := activeSwipes[it];
        assert SwipeOf(cfg, g) == g.Params();
        ErasingSwipesStep(base, seen, cfg, direction, sent, activeSwipes, it, log);
        seen := seen + 1;
        var wrong := g.IsEliminatedBy(direction);
        if wrong {
          log := log + [Cancelled(g)];
          activeSwipes := activeSwipes[..it] + activeSwipes[it + 1..];
          continue;
        }
        it := it + 1;
      }
      ErasingSwipesEnd(base, seen, cfg, direction, sent, activeSwipes, it, log);
    }

    /** One iteration of the elimination loop. */
    method EliminateSwipes(direction: Direction)
      requires Valid()
      modifies this
      ensures Valid() && State() == SwipePass(old(State()), old(Parameters()), direction).0
      ensures log == old(log) + SwipePass(old(State()), old(Parameters()), direction).1
      ensures swipes == old(swipes) && pinches == old(pinches)
      ensures currentDelta == old(currentDelta) && currentScale == old(currentScale)
    {
      hide Filter;
      SwipePassKeepsValid(State(), Parameters(), direction);
      if activeSwipes == [] {
        var _ := StartSwipeGesture(currentFingerCount);
      }
      EraseSwipes(direction);
      assert log == old(log) + SwipePass(old(State()), old(Parameters()), direction).1;
    }

    /** The elimination loop: the first iteration may leave nothing, the second then starts afresh. */
    method EliminateSwipesTwice(direction: Direction)
      requires Valid()
      modifies this
      ensures Valid() && State() == SwipePasses(old(State()), old(Parameters()), direction).0
      ensures log == old(log) + SwipePasses(old(State()), old(Parameters()), direction).1
      ensures swipes == old(swipes) && pinches == old(pinches)
      ensures currentDelta == old(currentDelta) && currentScale == old(currentScale)
    {
      hide SwipePass, RecState.Valid;
      EliminateSwipes(direction);
      ghost var first := log;
      EliminateSwipes(direction);
      ConcatAssociative(old(log), first[|old(log)|..], log[|first|..]);
    }

    method SendSwipeProgress()
      requires Valid()
      modifies this`log
      ensures log == old(log) + SwipeProgressAll(Parameters(), activeSwipes, currentDelta)
    {
      ghost var cfg := Parameters();
      for i := 0 to |activeSwipes|
        invariant log == old(log) + SwipeProgressAll(cfg, activeSwipes[..i], currentDelta)
      {
        var g := activeSwipes[i];
        assert g in swipes;
        assert activeSwipes[..i + 1][..i] == activeSwipes[..i];
        log := log + [Progress(g, g.Params().DeltaToProgress(currentDelta)), DeltaProgress(g, currentDelta)];
      }
      assert activeSwipes[..|activeSwipes|] == activeSwipes;
    }

    /** Accumulates the delta, locks the axis once it is large enough, and finds the current direction. */
    method PickDirection(delta: Vec) returns (direction: Direction)
      modifies this`currentDelta, this`currentSwipeAxis
      ensures currentDelta == Add(old(currentDelta), delta)
      ensures currentSwipeAxis == LockedAxis(old(currentSwipeAxis), currentDelta)
      ensures direction == DirectionOn(CurrentAxis(old(currentSwipeAxis), currentDelta), currentDelta)
    {
      currentDelta := Add(currentDelta, delta);
      var swipeAxis;
      if currentSwipeAxis == NoAxis {
        if Abs(currentDelta.x) >= Abs(currentDelta.y) {
          swipeAxis := Horizontal;
        } else {
          swipeAxis := Vertical;
        }
        if Abs(currentDelta.x) >= LOCK_DISTANCE || Abs(currentDelta.y) >= LOCK_DISTANCE {
          currentSwipeAxis := swipeAxis;
        }
      } else {
        swipeAxis := currentSwipeAxis;
      }
      if swipeAxis == Vertical {
        direction := if currentDelta.y < 0.0 then Up else Down;
      } else {
        direction := if currentDelta.x < 0.0 then Left else Right;
      }
    }

    method UpdateSwipeGesture(delta: Vec)
      requires Valid()
      modifies this
      ensures Valid() && State() == UpdateSwipeSpec(old(State()), old(Parameters()), delta).0
      ensures log == old(log) + UpdateSwipeSpec(old(State()), old(Parameters()), delta).1
    {
      hide Filter, SwipePasses, SwipeProgressAll, DirectionOn, CurrentAxis, LockedAxis;
      ghost var cfg := Parameters();
      var direction := PickDirection(delta);
      ghost var r0 := State();
      assert r0.Valid();
      hide RecState.Valid, NoDup, Within;
      EliminateSwipesTwice(direction);
      ghost var sent, progress := SwipePasses(r0, cfg, direction).1, SwipeProgressAll(cfg, activeSwipes, currentDelta);
      SendSwipeProgress();
      ConcatAssociative(old(log), sent, progress);
    }

    method CancelActiveGestures()
      requires Valid()
      modifies this
      ensures Valid() && State() == CancelActiveSpec(old(State())).0
      ensures log == old(log) + CancelActiveSpec(old(State())).1
    {
      ghost var was := State();
      for i := 0 to |activeSwipes|
        invariant State() == was
        invariant log == old(log) + CancelledAll(activeSwipes[..i])
      {
        log := log + [Cancelled(activeSwipes[i])];
      }
      assert activeSwipes[..|activeSwipes|] == activeSwipes;
      for i := 0 to |activePinches|
        invariant State() == was
        invariant log == old(log) + CancelledAll(activeSwipes) + CancelledAll(activePinches[..i])
      {
        log := log + [Cancelled(activePinches[i])];
      }
      assert activePinches[..|activePinches|] == activePinches;
      activeSwipes, activePinches := [], [];
      currentScale, currentDelta, currentSwipeAxis := 0.0, ORIGIN, NoAxis;
    }

    method CancelSwipeGesture()
      requires Valid()
      modifies this
      ensures Valid() && State() == CancelSwipeSpec(old(State())).0
      ensures log == old(log) + CancelSwipeSpec(old(State())).1
    {
      CancelActiveGestures();
      currentFingerCount, currentDelta, currentSwipeAxis := 0, ORIGIN, NoAxis;
    }

    method EndSwipeGesture()
      requires Valid()
      modifies this
      ensures Valid() && State() == EndSwipeSpec(old(State()), old(Parameters())).0
      ensures log == old(log) + EndSwipeSpec(old(State()), old(Parameters())).1
    {
      ghost var was, cfg := State(), Parameters();
      var delta := currentDelta;
      for i := 0 to |activeSwipes|
        invariant State() == was
        invariant log == old(log) + SwipeEndAll(cfg, activeSwipes[..i], delta)
      {
        var g := activeSwipes[i];
        assert g in swipes;
        if g.Params().MinimumDeltaReached(delta) {
          log := log + [Triggered(g)];
        } else {
          log := log + [Cancelled(g)];
        }
      }
      assert activeSwipes[..|activeSwipes|] == activeSwipes;
      activeSwipes := [];
      currentFingerCount, currentDelta, currentSwipeAxis := 0, ORIGIN, NoAxis;
    }

    method StartPinchGesture(fingerCount: nat) returns (count: nat)
      requires Valid()
      modifies this
      ensures Valid() && State() == StartPinchSpec(old(State()), old(Parameters()), fingerCount).0
      ensures log == old(log) + StartPinchSpec(old(State()), old(Parameters()), fingerCount).1
      ensures count == if old(State().Idle()) then |activePinches| else 0
    {
      ghost var cfg := Parameters();
      hide Filter, StartedAll, StartedUpTo, PinchParams.FingersMatch;
      StartPinchKeepsValid(State(), cfg, fingerCount);
      currentFingerCount := fingerCount;
      count := 0;
      if activeSwipes != [] || activePinches != [] {
        return 0;
      }
      ghost var was, admitted := State(), AdmittedPinch(cfg, fingerCount);
      FilterEmpty(admitted);
      StartedStart(log);
      for i := 0 to |pinches|
        invariant State() == was.(activePinches := activePinches)
        invariant activePinches == Filter(pinches[..i], admitted)
        invariant StartedUpTo(old(log), activePinches, log)
        invariant count == |activePinches|
      {
        var gesture := pinches[i];
        FilterPrefix(pinches, i, admitted);
        var admits := gesture.Admits(fingerCount);
        assert admits == admitted(gesture) by {
          assert PinchOf(cfg, gesture) == gesture.Params();
        }
        if !admits {
          continue;
        }
        StartedStep(old(log), activePinches, log, gesture);
        activePinches := activePinches + [gesture];
        count := count + 1;
        log := log + [Started(gesture)];
      }
      assert pinches[..|pinches|] == pinches;
      StartedEnd(old(log), activePinches, log);
    }

    /** Cancels and erases, in place, the active gestures that point elsewhere. */
    method ErasePinches(direction: PinchDirection)
      requires Within(activePinches, pinches)
      modifies this
      ensures State() == old(State()).(activePinches := Filter(old(activePinches), KeptPinch(old(Parameters()), direction)))
      ensures log == old(log) + CancelledAll(Filter(old(activePinches), EliminatedPinch(old(Parameters()), direction)))
    {
      ghost var was, sent, cfg, base := State(), log, Parameters(), activePinches;
      ghost var seen := 0;
      hide Filter, ErasingPinches;
      ErasingPinchesStart(base, cfg, direction, sent);
      var it := 0;
      while it < |activePinches|
        invariant State() == was.(activePinches := activePinches)
        invariant ErasingPinches(base, seen, cfg, direction, sent, activePinches, it, log)
        invariant Within(activePinches, pinches)
        decreases |activePinches| - it
      {
        var g := activePinches[it];
        assert PinchOf(cfg, g) == g.Params();
        ErasingPinchesStep(base, seen, cfg, direction, sent, activePinches, it, log);
        seen := seen + 1;
        if g.direction != direction {
          log := log + [Cancelled(g)];
          activePinches := activePinches[..it] + activePinches[it + 1..];
          continue;
        }
        it := it + 1;
      }
      ErasingPinchesEnd(base, seen, cfg, direction, sent, activePinches, it, log);
    }

    /** One iteration of the elimination loop. */
    method EliminatePinches(direction: PinchDirection)
      requires Valid()
      modifies this
      ensures Valid() && State() == PinchPass(old(State()), old(Parameters()), direction).0
      ensures log == old(log) + PinchPass(old(State()), old(Parameters()), direction).1
      ensures swipes == old(swipes) && pinches == old(pinches)
      ensures currentDelta == old(currentDelta) && currentScale == old(currentScale)
    {
      hide Filter;
      PinchPassKeepsValid(State(), Parameters(), direction);
      if activePinches == [] {
        var _ := StartPinchGesture(currentFingerCount);
      }
      ErasePinches(direction);
      assert log == old(log) + PinchPass(old(State()), old(Parameters()), direction).1;
    }

    /** The elimination loop: the first iteration may leave nothing, the second then starts afresh. */
    method EliminatePinchesTwice(direction: PinchDirection)
      requires Valid()
      modifies this
      ensures Valid() && State() == PinchPasses(old(State()), old(Parameters()), direction).0
      ensures log == old(log) + PinchPasses(old(State()), old(Parameters()), direction).1
      ensures swipes == old(swipes) && pinches == old(pinches)
      ensures currentDelta == old(currentDelta) && currentScale == old(currentScale)
    {
      hide PinchPass, RecState.Valid;
      EliminatePinches(direction);
      ghost var first := log;
      EliminatePinches(direction);
      ConcatAssociative(old(log), first[|old(log)|..], log[|first|..]);
    }

    method SendPinchProgress()
      requires Valid()
      modifies this`log
      ensures log == old(log) + PinchProgressAll(Parameters(), activePinches, currentScale)
    {
      ghost var cfg := Parameters();
      for i := 0 to |activePinches|
        invariant log == old(log) + PinchProgressAll(cfg, activePinches[..i], currentScale)
      {
        var g := activePinches[i];
        assert g in pinches;
        assert activePinches[..i + 1][..i] == activePinches[..i];
        log := log + [Progress(g, g.Params().ScaleDeltaToProgress(currentScale))];
      }
      assert activePinches[..|activePinches|] == activePinches;
    }

    method UpdatePinchGesture(scale: real)
      requires Valid()
      modifies this
      ensures Valid() && State() == UpdatePinchSpec(old(State()), old(Parameters()), scale).0
      ensures log == old(log) + UpdatePinchSpec(old(State()), old(Parameters()), scale).1
    {
      hide Filter, PinchPasses, PinchProgressAll;
      ghost var cfg := Parameters();
      currentScale := scale;
      var direction := if scale < 1.0 then Contracting else Expanding;
      ghost var r0 := State();
      assert r0.Valid();
      hide RecState.Valid, NoDup, Within;
      EliminatePinchesTwice(direction);
      ghost var sent, progress := PinchPasses(r0, cfg, direction).1, PinchProgressAll(cfg, activePinches, scale);
      SendPinchProgress();
      ConcatAssociative(old(log), sent, progress);
    }

    method CancelPinchGesture()
      requires Valid()
      modifies this
      ensures Valid() && State() == CancelPinchSpec(old(State())).0
      ensures log == old(log) + CancelPinchSpec(old(State())).1
    {
      CancelActiveGestures();
      currentScale, currentFingerCount, currentSwipeAxis := 1.0, 0, NoAxis;
    }

    method EndPinchGesture()
      requires Valid()
      modifies this
      ensures Valid() && State() == EndPinchSpec(old(State()), old(Parameters())).0
      ensures log == old(log) + EndPinchSpec(old(State()), old(Parameters())).1
    {
      ghost var was, cfg := State(), Parameters();
      for i := 0 to |activePinches|
        invariant State() == was
        invariant log == old(log) + PinchEndAll(cfg, activePinches[..i], currentScale)
      {
        var g := activePinches[i];
        assert g in pinches;
        if g.Params().MinimumScaleDeltaReached(currentScale) {
          log := log + [Triggered(g)];
        } else {
          log := log + [Cancelled(g)];
        }
      }
      assert activePinches[..|activePinches|] == activePinches;
      activeSwipes, activePinches := [], [];
      currentScale, currentFingerCount, currentSwipeAxis := 1.0, 0, NoAxis;
    }
  }

  lemma StartSwipeKeepsValid(r: RecState, cfg: Config, n: nat, pos: Option<Vec>)
    requires r.Valid()
    ensures StartSwipeSpec(r, cfg, n, pos).0.Valid()
  {
    FilterNoDup(r.swipes, Admitted(cfg, n, pos, r.axis));
    FilterWithin(r.swipes, Admitted(cfg, n, pos, r.axis));
  }

  lemma SwipePassKeepsValid(r: RecState, cfg: Config, dir: Direction)
    requires r.Valid()
    ensures SwipePass(r, cfg, dir).0.Valid()
  {
    StartSwipeKeepsValid(r, cfg, r.fingers, None);
    var r1 := if r.activeSwipes == [] then StartSwipeSpec(r, cfg, r.fingers, None).0 else r;
    FilterNoDup(r1.activeSwipes, Kept(cfg, dir));
    FilterWithin(r1.activeSwipes, Kept(cfg, dir));
    WithinTransitive(Filter(r1.activeSwipes, Kept(cfg, dir)), r1.activeSwipes, r1.swipes);
  }

  lemma StartPinchKeepsValid(r: RecState, cfg: Config, n: nat)
    requires r.Valid()
    ensures StartPinchSpec(r, cfg, n).0.Valid()
  {
    FilterNoDup(r.pinches, AdmittedPinch(cfg, n));
    FilterWithin(r.pinches, AdmittedPinch(cfg, n));
  }

  lemma PinchPassKeepsValid(r: RecState, cfg: Config, dir: PinchDirection)
    requires r.Valid()
    ensures PinchPass(r, cfg, dir).0.Valid()
  {
    StartPinchKeepsValid(r, cfg, r.fingers);
    var r1 := if r.activePinches == [] then StartPinchSpec(r, cfg, r.fingers).0 else r;
    FilterNoDup(r1.activePinches, KeptPinch(cfg, dir));
    FilterWithin(r1.activePinches, KeptPinch(cfg, dir));
    WithinTransitive(Filter(r1.activePinches, KeptPinch(cfg, dir)), r1.activePinches, r1.pinches);
  }

  lemma UnregisterKeepsValid(r: RecState, g: SwipeGesture)
    requires r.Valid()
    ensures UnregisterSwipeSpec(r, g).0.Valid()
  {
    FilterNoDup(r.swipes, Differs(g));
    FilterNoDup(r.activeSwipes, Differs(g));
    WithoutWithin(r.activeSwipes, r.swipes, g);
  }

  lemma UnregisterPinchKeepsValid(r: RecState, g: PinchGesture)
    requires r.Valid()
    ensures UnregisterPinchSpec(r, g).0.Valid()
  {
    FilterNoDup(r.pinches, Differs(g));
    FilterNoDup(r.activePinches, Differs(g));
    WithoutWithin(r.activePinches, r.pinches, g);
  }
}
