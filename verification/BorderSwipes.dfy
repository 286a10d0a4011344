/** Swipes of any configuration and from any start: border gestures, start positions and restarts. */
module BorderSwipes {
  import opened Sequences
  import opened Gestures
  import opened GestureRuns

  /** The current direction at each update. */
  function Directions(axis: Axis, from: Vec, ds: seq<Vec>): (dirs: seq<Direction>)
    ensures |dirs| == |ds|
  {
    if ds == [] then [] else Directions(axis, from, ds[..|ds| - 1]) + [DirectionAfter(axis, from, ds)]
  }

  /** A gesture that no update in one of these directions cancels. */
  ghost function Staying(cfg: Config, dirs: seq<Direction>): SwipeGesture -> bool {
    (g: SwipeGesture) => SwipeOf(cfg, g).FourSided() || forall i :: 0 <= i < |dirs| ==> dirs[i] == SwipeOf(cfg, g).direction
  }

  /** What a start before all updates, or a restart in the k-th one, admits. */
  ghost function Begun(r: RecState, cfg: Config, n: nat, pos: Option<Vec>, ds: seq<Vec>, k: nat): seq<SwipeGesture>
    requires k <= |ds|
  {
    Filter(r.swipes, if k == 0 then Admitted(cfg, n, pos, r.axis)
                     else Admitted(cfg, n, None, AxisAfter(r.axis, r.delta, ds[..k])))
  }

  /** The directions from a start, or from the k-th update with its restart, on. */
  ghost function Since(r: RecState, ds: seq<Vec>, k: nat): seq<Direction>
    requires k <= |ds|
  {
    Directions(r.axis, r.delta, ds)[if k == 0 then 0 else k - 1..]
  }

  /** What was begun at `k` and never cancelled since. */
  ghost function Survivors(r: RecState, cfg: Config, n: nat, pos: Option<Vec>, ds: seq<Vec>, k: nat): seq<SwipeGesture>
    requires k <= |ds|
  {
    Filter(Begun(r, cfg, n, pos, ds, k), Staying(cfg, Since(r, ds, k)))
  }

  /** The last start: an update restarts exactly if nothing of the previous start survives it. */
  ghost function LastStart(r: RecState, cfg: Config, n: nat, pos: Option<Vec>, ds: seq<Vec>): (k: nat)
    ensures k <= |ds|
  {
    if ds == [] then 0
    else
      var k := LastStart(r, cfg, n, pos, ds[..|ds| - 1]);
      if Survivors(r, cfg, n, pos, ds, k) != [] then k else |ds|
  }

  /** One more update: survivors stay, and if there are none a restart follows. */
  lemma UpdateOnce(r: RecState, cfg: Config, n: nat, pos: Option<Vec>, ds: seq<Vec>)
    requires r.Idle() && ds != []
    ensures var dir := DirectionAfter(r.axis, r.delta, ds);
            var kept := Filter(SwipeRun(r, cfg, n, pos, ds[..|ds| - 1]).activeSwipes, Kept(cfg, dir));
            SwipeRun(r, cfg, n, pos, ds).activeSwipes ==
            if kept != [] then kept else Filter(r.swipes, Restarted(cfg, n, AxisAfter(r.axis, r.delta, ds), dir))
  {
    var before, d := ds[..|ds| - 1], ds[|ds| - 1];
    var e := SwipeRun(r, cfg, n, pos, before);
    SwipeRunFrame(r, cfg, n, pos, before);
    var total := Add(e.delta, d);
    assert total == Add(r.delta, Sum(ds));
    TwoPasses(e.(delta := total, axis := LockedAxis(e.axis, total)), cfg, DirectionAfter(r.axis, r.delta, ds));
  }

  /** Surviving one more update is being kept by it. */
  lemma SurvivorsKept(r: RecState, cfg: Config, n: nat, pos: Option<Vec>, ds: seq<Vec>, k: nat)
    requires ds != [] && k < |ds|
    ensures Survivors(r, cfg, n, pos, ds, k) ==
            Filter(Survivors(r, cfg, n, pos, ds[..|ds| - 1], k), Kept(cfg, DirectionAfter(r.axis, r.delta, ds)))
  {
    var before, dir := ds[..|ds| - 1], DirectionAfter(r.axis, r.delta, ds);
    assert ds[..k] == before[..k];
    var was, now := Since(r, before, k), Since(r, ds, k);
    assert now == was + [dir];
    assert forall i :: 0 <= i < |was| ==> now[i] == was[i];
    assert now[|was|] == dir;
    FilterTwice(Begun(r, cfg, n, pos, ds, k), Staying(cfg, was), Kept(cfg, dir), Staying(cfg, now));
  }

  /** A restart in the last update leaves what it admits and the update keeps. */
  lemma RestartSurvivors(r: RecState, cfg: Config, n: nat, pos: Option<Vec>, ds: seq<Vec>)
    requires ds != []
    ensures Survivors(r, cfg, n, pos, ds, |ds|) ==
            Filter(r.swipes, Restarted(cfg, n, AxisAfter(r.axis, r.delta, ds), DirectionAfter(r.axis, r.delta, ds)))
  {
    var axis, dir := AxisAfter(r.axis, r.delta, ds), DirectionAfter(r.axis, r.delta, ds);
    assert ds[..|ds|] == ds;
    assert Since(r, ds, |ds|) == [dir];
    FilterTwice(r.swipes, Admitted(cfg, n, None, axis), Staying(cfg, [dir]), Restarted(cfg, n, axis, dir));
  }

  /** After any updates of a swipe, whatever its start and its gestures, the active gestures are those begun at the last
      start that have all four start bounds or whose direction was the current one at every update since. */
  lemma {:induction false} ActiveSinceLastStart(r: RecState, cfg: Config, n: nat, pos: Option<Vec>, ds: seq<Vec>)
    requires r.Idle()
    ensures SwipeRun(r, cfg, n, pos, ds).activeSwipes == Survivors(r, cfg, n, pos, ds, LastStart(r, cfg, n, pos, ds))
  {
    if ds == [] {
      FilterAll(Begun(r, cfg, n, pos, ds, 0), Staying(cfg, []));
    } else {
      var before := ds[..|ds| - 1];
      ActiveSinceLastStart(r, cfg, n, pos, before);
      hide SwipeRun, Survivors, DirectionAfter;
      UpdateOnce(r, cfg, n, pos, ds);
      SurvivorsKept(r, cfg, n, pos, ds, LastStart(r, cfg, n, pos, before));
      RestartSurvivors(r, cfg, n, pos, ds);
    }
  }

  // ---------------------------------------------------------------------------
  // Border gestures
  // ---------------------------------------------------------------------------

  /** The start admits a gesture with all four start bounds. */
  ghost predicate StartsAtBorder(r: RecState, cfg: Config, n: nat, pos: Option<Vec>) {
    exists g :: g in r.swipes && SwipeOf(cfg, g).AdmittedBy(n, pos, r.axis) && SwipeOf(cfg, g).FourSided()
  }

  /** Once a border gesture is admitted, no update restarts. */
  lemma {:induction false} BorderNeverRestarts(r: RecState, cfg: Config, n: nat, pos: Option<Vec>, ds: seq<Vec>)
    requires StartsAtBorder(r, cfg, n, pos)
    ensures LastStart(r, cfg, n, pos, ds) == 0
  {
    if ds != [] {
      BorderNeverRestarts(r, cfg, n, pos, ds[..|ds| - 1]);
      var g :| g in r.swipes && SwipeOf(cfg, g).AdmittedBy(n, pos, r.axis) && SwipeOf(cfg, g).FourSided();
      FilterMember(r.swipes, Admitted(cfg, n, pos, r.axis), g);
      FilterMember(Begun(r, cfg, n, pos, ds, 0), Staying(cfg, Since(r, ds, 0)), g);
    }
  }

  /** Admitted at the start, and four-sided or pointing along every update. */
  ghost function AlwaysAhead(r: RecState, cfg: Config, n: nat, pos: Option<Vec>, ds: seq<Vec>): SwipeGesture -> bool {
    (g: SwipeGesture) =>
      SwipeOf(cfg, g).AdmittedBy(n, pos, r.axis) && Staying(cfg, Directions(r.axis, r.delta, ds))(g)
  }

  /** In a swipe that starts at the border, the active gestures are the admitted ones that are four-sided or whose
      direction was the current one at every update. */
  lemma BorderSwipeActive(r: RecState, cfg: Config, n: nat, pos: Option<Vec>, ds: seq<Vec>)
    requires r.Idle() && StartsAtBorder(r, cfg, n, pos)
    ensures SwipeRun(r, cfg, n, pos, ds).activeSwipes == Filter(r.swipes, AlwaysAhead(r, cfg, n, pos, ds))
  {
    ActiveSinceLastStart(r, cfg, n, pos, ds);
    BorderNeverRestarts(r, cfg, n, pos, ds);
    assert Since(r, ds, 0) == Directions(r.axis, r.delta, ds);
    FilterTwice(r.swipes, Admitted(cfg, n, pos, r.axis), Staying(cfg, Since(r, ds, 0)), AlwaysAhead(r, cfg, n, pos, ds));
  }

  /** Whether the total movement reaches a gesture's minimum, in its direction or against it. */
  predicate Reaches(p: SwipeParams, total: Vec) {
    p.minimumDelta.None? || p.minimumDelta.value == ORIGIN ||
    (Along(p.direction, total) != 0.0 && Abs(Along(p.direction, total)) >= Abs(Along(p.direction, p.minimumDelta.value)))
  }

  /** The end of a swipe triggers the active gestures whose minimum is reached. */
  lemma TriggeredIfReached(r: RecState, cfg: Config, n: nat, pos: Option<Vec>, ds: seq<Vec>, g: SwipeGesture)
    requires Fresh(r)
    ensures Triggered(g) in EndSwipeSpec(SwipeRun(r, cfg, n, pos, ds), cfg).1 <==>
            g in SwipeRun(r, cfg, n, pos, ds).activeSwipes && Reaches(SwipeOf(cfg, g), Sum(ds))
  {
    hide SwipeRun, EndSwipeSpec;
    TriggeredAtEnd(SwipeRun(r, cfg, n, pos, ds), cfg, g);
    SwipeRunFrame(r, cfg, n, pos, ds);
    assert Add(ORIGIN, Sum(ds)) == Sum(ds);
    MinimumDeltaReachedExactly(SwipeOf(cfg, g), Sum(ds));
  }

  /** Which gestures a complete swipe triggers, whatever its start and its gestures. */
  lemma TriggeredSinceLastStart(r: RecState, cfg: Config, n: nat, pos: Option<Vec>, ds: seq<Vec>, g: SwipeGesture)
    requires Fresh(r)
    ensures Triggered(g) in EndSwipeSpec(SwipeRun(r, cfg, n, pos, ds), cfg).1 <==>
            g in Survivors(r, cfg, n, pos, ds, LastStart(r, cfg, n, pos, ds)) && Reaches(SwipeOf(cfg, g), Sum(ds))
  {
    hide SwipeRun, Survivors, EndSwipeSpec;
    TriggeredIfReached(r, cfg, n, pos, ds, g);
    ActiveSinceLastStart(r, cfg, n, pos, ds);
  }

  /** Which gestures a swipe that starts at the border triggers, told from the start and the movements alone. */
  lemma BorderTriggeredExactly(r: RecState, cfg: Config, n: nat, pos: Option<Vec>, ds: seq<Vec>, g: SwipeGesture)
    requires Fresh(r) && StartsAtBorder(r, cfg, n, pos)
    ensures Triggered(g) in EndSwipeSpec(SwipeRun(r, cfg, n, pos, ds), cfg).1 <==>
            g in r.swipes && SwipeOf(cfg, g).AdmittedBy(n, pos, NoAxis) && Reaches(SwipeOf(cfg, g), Sum(ds)) &&
            Staying(cfg, Directions(NoAxis, ORIGIN, ds))(g)
  {
    hide SwipeRun, EndSwipeSpec, StartsAtBorder, Reaches, Filter, SwipeParams.AdmittedBy, SwipeParams.FourSided;
    TriggeredIfReached(r, cfg, n, pos, ds, g);
    BorderSwipeActive(r, cfg, n, pos, ds);
    FilterMember(r.swipes, AlwaysAhead(r, cfg, n, pos, ds), g);
  }

  /** Being triggered means having moved the minimum in the gesture's own direction. */
  ghost predicate TriggeredAhead(r: RecState, cfg: Config, n: nat, pos: Option<Vec>, g: SwipeGesture) {
    forall ds :: Triggered(g) in EndSwipeSpec(SwipeRun(r, cfg, n, pos, ds), cfg).1 ==> Ahead(SwipeOf(cfg, g), Sum(ds))
  }

  predicate Ahead(p: SwipeParams, total: Vec) {
    Travel(p.direction, total) > 0.0 &&
    (p.minimumDelta.Some? ==> Travel(p.direction, total) >= Abs(Along(p.direction, p.minimumDelta.value)))
  }

  /** A border gesture is also triggered by a movement against its direction. */
  lemma BorderTriggeredBackwards(r: RecState, cfg: Config, n: nat, pos: Option<Vec>, g: SwipeGesture) returns (ds: seq<Vec>)
    requires Fresh(r) && g in r.swipes && SwipeOf(cfg, g).AdmittedBy(n, pos, NoAxis) && SwipeOf(cfg, g).FourSided()
    ensures Triggered(g) in EndSwipeSpec(SwipeRun(r, cfg, n, pos, ds), cfg).1 && Travel(SwipeOf(cfg, g).direction, Sum(ds)) < 0.0
  {
    hide SwipeRun, EndSwipeSpec, SwipeParams.DeltaToProgress, Sum;
    var p := SwipeOf(cfg, g);
    ds := [BackwardsEnough(p)];
    SumOne(ds[0]);
    hide Reaches, Along;
    BorderTriggeredExactly(r, cfg, n, pos, ds, g);
  }

  lemma SumOne(d: Vec)
    ensures Sum([d]) == d
  {
    assert [d][..0] == [];
  }

  /** A movement against a gesture's direction that is as long as its minimum asks. */
  function BackwardsEnough(p: SwipeParams): (d: Vec)
    ensures Reaches(p, d) && Travel(p.direction, d) < 0.0
  {
    Against(p.direction, if p.minimumDelta.Some? then Abs(Along(p.direction, p.minimumDelta.value)) + 1.0 else 1.0)
  }

  /** For an admitted gesture with a minimum, being triggered means having moved ahead exactly if it is no border gesture. */
  lemma TriggeredAheadExactly(r: RecState, cfg: Config, n: nat, pos: Option<Vec>, g: SwipeGesture)
    requires Fresh(r) && g in r.swipes && SwipeOf(cfg, g).AdmittedBy(n, pos, NoAxis)
    requires SwipeOf(cfg, g).minimumDelta.Some? && SwipeOf(cfg, g).minimumDelta.value != ORIGIN
    ensures TriggeredAhead(r, cfg, n, pos, g) <==> !SwipeOf(cfg, g).FourSided()
  {
    hide SwipeRun, EndSwipeSpec;
    if SwipeOf(cfg, g).FourSided() {
      var ds := BorderTriggeredBackwards(r, cfg, n, pos, g);
      assert !Ahead(SwipeOf(cfg, g), Sum(ds));
    } else {
      forall ds | Triggered(g) in EndSwipeSpec(SwipeRun(r, cfg, n, pos, ds), cfg).1 ensures Ahead(SwipeOf(cfg, g), Sum(ds)) {
        TriggeredMeansMoved(r, cfg, n, pos, ds, g);
      }
    }
  }

  // ---------------------------------------------------------------------------
  // Starts from a position
  // ---------------------------------------------------------------------------

  /** Admitted by the start, and of direction `dir`. */
  ghost function AdmittedAhead(r: RecState, cfg: Config, n: nat, pos: Option<Vec>, dir: Direction): SwipeGesture -> bool {
    (g: SwipeGesture) => SwipeOf(cfg, g).AdmittedBy(n, pos, r.axis) && SwipeOf(cfg, g).direction == dir
  }

  /** All updates so far went the way of the last one, and the start admitted a gesture for it. */
  ghost predicate OnFirstCourse(r: RecState, cfg: Config, n: nat, pos: Option<Vec>, ds: seq<Vec>)
    requires ds != []
  {
    var dir := DirectionAfter(r.axis, r.delta, ds);
    (forall i :: 0 <= i < |ds| ==> Directions(r.axis, r.delta, ds)[i] == dir) &&
    Filter(r.swipes, AdmittedAhead(r, cfg, n, pos, dir)) != []
  }

  /** What is active without border gestures: the start's own choice on the first course, else all matching gestures. */
  ghost function Course(r: RecState, cfg: Config, n: nat, pos: Option<Vec>, ds: seq<Vec>): seq<SwipeGesture>
    requires ds != []
  {
    var dir := DirectionAfter(r.axis, r.delta, ds);
    Filter(r.swipes, if OnFirstCourse(r, cfg, n, pos, ds) then AdmittedAhead(r, cfg, n, pos, dir) else Matching(cfg, n, dir))
  }

  /** The first course is kept by going on in its direction. */
  lemma FirstCourseStep(r: RecState, cfg: Config, n: nat, pos: Option<Vec>, ds: seq<Vec>)
    requires |ds| > 1
    ensures OnFirstCourse(r, cfg, n, pos, ds) <==>
            OnFirstCourse(r, cfg, n, pos, ds[..|ds| - 1]) &&
            DirectionAfter(r.axis, r.delta, ds[..|ds| - 1]) == DirectionAfter(r.axis, r.delta, ds)
  {
    var before, dir := ds[..|ds| - 1], DirectionAfter(r.axis, r.delta, ds);
    var dirs, was := Directions(r.axis, r.delta, ds), DirectionAfter(r.axis, r.delta, before);
    assert Directions(r.axis, r.delta, before)[|before| - 1] == was;
    assert dirs == Directions(r.axis, r.delta, before) + [dir];
    hide DirectionAfter, Directions, Filter;
    assert dirs[|before| - 1] == was && dirs[|before|] == dir;
    assert forall i :: 0 <= i < |before| ==> dirs[i] == Directions(r.axis, r.delta, before)[i];
  }

  /** How one more update changes the course. */
  lemma CourseStep(r: RecState, cfg: Config, n: nat, pos: Option<Vec>, ds: seq<Vec>)
    requires NoFourSided(r, cfg, n) && |ds| > 1
    ensures var dir := DirectionAfter(r.axis, r.delta, ds);
            var kept := Filter(Course(r, cfg, n, pos, ds[..|ds| - 1]), Kept(cfg, dir));
            Course(r, cfg, n, pos, ds) == if kept != [] then kept else Filter(r.swipes, Matching(cfg, n, dir))
  {
    var before, dir := ds[..|ds| - 1], DirectionAfter(r.axis, r.delta, ds);
    var was := DirectionAfter(r.axis, r.delta, before);
    OnAxis(r, before);
    FirstCourseStep(r, cfg, n, pos, ds);
    assert OnFirstCourse(r, cfg, n, pos, before) ==> Filter(r.swipes, AdmittedAhead(r, cfg, n, pos, was)) != [];
    hide DirectionAfter, Filter, Directions, OnFirstCourse, NoFourSided;
    AheadThenKept(r, cfg, n, pos, was, dir);
    MatchingThenKept(r, cfg, n, was, dir);
  }

  /** Without border gestures, a start position counts only as long as the swipe keeps its first course; then a restart
      forgets it and all matching gestures become active. */
  lemma {:induction false} PositionCountsOnFirstCourse(r: RecState, cfg: Config, n: nat, pos: Option<Vec>, ds: seq<Vec>)
    requires r.Idle() && NoFourSided(r, cfg, n) && ds != []
    ensures SwipeRun(r, cfg, n, pos, ds).activeSwipes == Course(r, cfg, n, pos, ds)
  {
    var before, dir := ds[..|ds| - 1], DirectionAfter(r.axis, r.delta, ds);
    UpdateOnce(r, cfg, n, pos, ds);
    AxisKept(r.axis, r.delta, ds);
    RestartOnAxis(r, ds);
    RestartIsMatching(r, cfg, n, AxisAfter(r.axis, r.delta, ds), dir);
    if before == [] {
      StartOnly(r, cfg, n, pos);
      StartKept(r, cfg, n, pos, dir);
      assert Directions(r.axis, r.delta, ds) == [dir];
    } else {
      hide SwipeRun, DirectionAfter, Filter, Course;
      PositionCountsOnFirstCourse(r, cfg, n, pos, before);
      CourseStep(r, cfg, n, pos, ds);
    }
  }

  /** The direction of an update lies on the axis, if that is locked by then. */
  lemma RestartOnAxis(r: RecState, ds: seq<Vec>)
    requires ds != []
    ensures var axis, dir := AxisAfter(r.axis, r.delta, ds), DirectionAfter(r.axis, r.delta, ds);
            axis == NoAxis || (axis == Vertical <==> dir.Up? || dir.Down?)
  {
  }

  lemma StartOnly(r: RecState, cfg: Config, n: nat, pos: Option<Vec>)
    requires r.Idle()
    ensures SwipeRun(r, cfg, n, pos, []).activeSwipes == Filter(r.swipes, Admitted(cfg, n, pos, r.axis))
  {
  }

  /** The current direction lies on a locked axis. */
  lemma OnAxis(r: RecState, ds: seq<Vec>)
    requires ds != []
    ensures r.axis == NoAxis || (r.axis == Vertical <==> DirectionAfter(r.axis, r.delta, ds).Up? || DirectionAfter(r.axis, r.delta, ds).Down?)
  {
    AxisKept(r.axis, r.delta, ds[..|ds| - 1]);
  }

  lemma StartKept(r: RecState, cfg: Config, n: nat, pos: Option<Vec>, dir: Direction)
    requires NoFourSided(r, cfg, n)
    ensures Filter(Filter(r.swipes, Admitted(cfg, n, pos, r.axis)), Kept(cfg, dir)) == Filter(r.swipes, AdmittedAhead(r, cfg, n, pos, dir))
  {
    forall i | 0 <= i < |r.swipes|
      ensures AdmittedAhead(r, cfg, n, pos, dir)(r.swipes[i]) ==
              (Admitted(cfg, n, pos, r.axis)(r.swipes[i]) && Kept(cfg, dir)(r.swipes[i]))
    {
      var p := SwipeOf(cfg, r.swipes[i]);
      assert p.AdmittedBy(n, pos, r.axis) ==> p.AdmittedBy(n, None, r.axis);
    }
    FilterTwice(r.swipes, Admitted(cfg, n, pos, r.axis), Kept(cfg, dir), AdmittedAhead(r, cfg, n, pos, dir));
  }

  /** Filtering the admitted gestures of one direction by another keeps all or none. */
  lemma AheadThenKept(r: RecState, cfg: Config, n: nat, pos: Option<Vec>, was: Direction, dir: Direction)
    requires NoFourSided(r, cfg, n)
    ensures Filter(Filter(r.swipes, AdmittedAhead(r, cfg, n, pos, was)), Kept(cfg, dir)) ==
            if was == dir then Filter(r.swipes, AdmittedAhead(r, cfg, n, pos, was)) else []
  {
    var gs := Filter(r.swipes, AdmittedAhead(r, cfg, n, pos, was));
    forall i | 0 <= i < |gs| ensures Kept(cfg, dir)(gs[i]) == (was == dir) {
      FilterMember(r.swipes, AdmittedAhead(r, cfg, n, pos, was), gs[i]);
      assert SwipeOf(cfg, gs[i]).AdmittedBy(n, None, r.axis);
    }
    if was == dir {
      FilterAll(gs, Kept(cfg, dir));
    } else {
      FilterNone(gs, Kept(cfg, dir));
    }
  }
}
