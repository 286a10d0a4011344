/** The life cycle of the X11 compositor, and its delayed deletion of support properties. */
module Compositor {
  import opened Sequences

  type Atom = nat

  /** No atom at all. */
  const ATOM_NONE: Atom := 0

  datatype State = On | Off | Starting | Stopping

  datatype EffectType = AutoSelect | OpenGLComplete | OpenGLNoMotion | OpenGLNoScissor | XRenderComplete | NoneCompositor

  datatype CompositingType = NoCompositing | OpenGLCompositing | XRenderCompositing | QPainterCompositing

  /** Suspend reasons are bits. */
  type Reasons = bv8

  const NO_REASON: Reasons := 0
  const USER_SUSPEND: Reasons := 1
  const ALL_REASONS: Reasons := 0xff

  /** What the system answers while the compositor starts. */
  datatype Env = Env(
    terminating: bool,
    possible: bool,
    enabledKey: Option<bool>,
    performanceLevel: int,
    supported: seq<CompositingType>,
    works: set<CompositingType>)

  /** `owner` is None before the selection was ever claimed; `userType` is the type kept by the configuration service. */
  datatype Life = Life(
    state: State, suspended: Reasons, owner: Option<bool>, releaseTimer: bool,
    backend: Option<CompositingType>, effectType: EffectType, userType: EffectType)
  {
    /** Between public operations. */
    predicate Valid() {
      (state == On || state == Off) &&
      (state == On ==> suspended == NO_REASON && backend.Some? && owner == Some(true) && !releaseTimer &&
                       effectType != NoneCompositor && userType != NoneCompositor) &&
      (state == Off ==> backend == None && (owner == Some(true) ==> releaseTimer))
    }
  }

  // ---------------------------------------------------------------------------
  // Starting and stopping on values
  // ---------------------------------------------------------------------------

  /** The configured type first, if it is supported. */
  function Candidates(supported: seq<CompositingType>, effectType: EffectType): seq<CompositingType> {
    var selected := if effectType == XRenderComplete then XRenderCompositing else OpenGLCompositing;
    if selected in supported then
      var i := IndexOf(supported, selected);
      [selected] + (supported[..i] + supported[i + 1..])
    else supported
  }

  /** The first candidate that works; running without compositing ends the search. */
  function Chosen(candidates: seq<CompositingType>, works: set<CompositingType>): Option<CompositingType> {
    if candidates == [] || candidates[0] == NoCompositing then None
    else if candidates[0] in works then Some(candidates[0])
    else Chosen(candidates[1..], works)
  }

  /** The effect type a start aims at. */
  function Aim(userType: EffectType, env: Env): EffectType {
    var t := if env.enabledKey.Some? then (if env.enabledKey.value then OpenGLComplete else XRenderComplete) else userType;
    if t != AutoSelect then t
    else if env.performanceLevel == 1 then OpenGLComplete
    else if env.performanceLevel == 2 then OpenGLNoMotion
    else XRenderComplete
  }

  function SetUp(l: Life, env: Env): Life {
    if env.terminating || l.state != Off then l
    else
      var backend := Chosen(Candidates(env.supported, l.effectType), env.works);
      if backend.None? then l.(owner := Some(false))
      else l.(state := On, owner := Some(true), backend := backend, releaseTimer := false)
  }

  /** What every start records at its end. */
  function Recorded(l: Life): Life {
    var t := if l.backend.None? then NoneCompositor
             else if l.backend.value == XRenderCompositing then XRenderComplete
             else l.effectType;
    l.(effectType := t, userType := t)
  }

  function Started(l: Life, env: Env): Life {
    Recorded(
      if l.suspended != NO_REASON || !env.possible then l
      else
        var aimed := l.(effectType := Aim(l.userType, env));
        if aimed.effectType == NoneCompositor then aimed else SetUp(aimed, env))
  }

  function Stopped(l: Life): Life {
    if l.state == Off || l.state == Stopping then l
    else l.(state := Off, releaseTimer := true, backend := None)
  }

  function Suspended(l: Life, reason: Reasons): Life {
    Stopped(l.(suspended := l.suspended | reason))
  }

  function Cleared(l: Life, reason: Reasons): Life {
    l.(suspended := l.suspended & !reason)
  }

  function Resumed(l: Life, reason: Reasons, env: Env): Life {
    Started(Cleared(l, reason), env)
  }

  function Reinitialized(l: Life, env: Env): Life {
    Started(Stopped(l.(suspended := NO_REASON)), env)
  }

  function UserTypeChanged(l: Life, t: EffectType, env: Env): Life {
    var m := l.(userType := t);
    if t == AutoSelect || t == l.effectType then m
    else if (l.effectType == OpenGLComplete || l.effectType == OpenGLNoMotion) &&
            (t == OpenGLComplete || t == OpenGLNoMotion) then m.(effectType := t)
    else Reinitialized(m, env)
  }

  function TimedOut(l: Life): Life {
    var m := l.(releaseTimer := false);
    match l.state
    case On => m
    case Off => if l.owner.Some? then m.(owner := Some(false)) else m
    case Starting => m.(releaseTimer := true)
    case Stopping => m.(releaseTimer := true)
  }

  // ---------------------------------------------------------------------------
  // The compositor
  // ---------------------------------------------------------------------------

  /** The root window's properties after the unused ones are deleted. */
  function Delete(root: set<Atom>, unused: seq<Atom>): set<Atom> {
    root - set a | a in unused
  }

  class X11Compositor {
    var state: State
    var suspended: Reasons
    var selectionOwner: Option<bool>
    var releaseTimerActive: bool
    var backend: Option<CompositingType>
    var effectType: EffectType
    /** Kept by the configuration service. */
    var userType: EffectType
    var unusedSupportProperties: seq<Atom>
    var unusedTimerActive: bool
    /** The support properties on the root window, kept by the X server. */
    ghost var rootProperties: set<Atom>

    ghost function TheLife(): Life
      reads this
    {
      Life(state, suspended, selectionOwner, releaseTimerActive, backend, effectType, userType)
    }

    constructor (useCompositing: bool, kept: EffectType)
      ensures TheLife().Valid() && state == Off && (suspended == NO_REASON <==> useCompositing) && userType == kept
      ensures unusedSupportProperties == [] && !unusedTimerActive && rootProperties == {}
    {
      state, suspended := Off, if useCompositing then NO_REASON else USER_SUSPEND;
      selectionOwner, releaseTimerActive, backend := None, false, None;
      effectType, userType := AutoSelect, kept;
      unusedSupportProperties, unusedTimerActive, rootProperties := [], false, {};
    }

    /** Tries the candidates one after another. */
    method AttemptBackends(candidates: seq<CompositingType>, works: set<CompositingType>)
      requires backend == None
      modifies this`backend
      ensures backend == Chosen(candidates, works)
    {
      for i := 0 to |candidates|
        invariant backend == None && Chosen(candidates, works) == Chosen(candidates[i..], works)
      {
        var stop := false;
        match candidates[i] {
          case NoCompositing => stop := true;
          case _ =>
            if candidates[i] in works {
              backend := Some(candidates[i]);
              stop := true;
            }
        }
        assert candidates[i..][1..] == candidates[i + 1..];
        if stop {
          break;
        }
      }
    }

    /** The result tells whether the start continues. */
    method SetupStart(env: Env) returns (ok: bool)
      requires state == Off ==> backend == None
      modifies this`state, this`selectionOwner, this`backend
      ensures ok ==> state == Starting &&
                     TheLife().(state := On, releaseTimer := false) == SetUp(old(TheLife()), env)
      ensures !ok ==> TheLife() == SetUp(old(TheLife()), env)
      ensures ok ==> backend.Some?
    {
      if env.terminating {
        return false;
      }
      if state != Off {
        return false;
      }
      state := Starting;
      // the selection is claimed
      selectionOwner := Some(true);
      var selected := if effectType == XRenderComplete then XRenderCompositing else OpenGLCompositing;
      var candidates := env.supported;
      if selected in candidates {
        var i := IndexOf(candidates, selected);
        candidates := candidates[..i] + candidates[i + 1..];
        candidates := [selected] + candidates;
      }
      AttemptBackends(candidates, env.works);
      if backend == None {
        state := Off;
        selectionOwner := Some(false);
        return false;
      }
      return true;
    }

    method StartupWithWorkspace()
      requires state == Starting && backend.Some?
      modifies this`state, this`releaseTimerActive
      ensures state == On && !releaseTimerActive
    {
      state := On;
      if releaseTimerActive {
        releaseTimerActive := false;
      }
    }

    method RecordEffectType()
      modifies this`effectType, this`userType
      ensures TheLife() == Recorded(old(TheLife()))
    {
      if backend == None {
        effectType := NoneCompositor;
      } else if backend == Some(XRenderCompositing) {
        effectType := XRenderComplete;
      }
      userType := effectType;
    }

    /** An explicit setting, the kept type, or a choice by performance. */
    method PickEffectType(env: Env)
      modifies this`effectType
      ensures effectType == Aim(userType, env)
    {
      if env.enabledKey.Some? {
        effectType := if env.enabledKey.value then OpenGLComplete else XRenderComplete;
      } else {
        effectType := userType;
      }
      if effectType == AutoSelect {
        if env.performanceLevel == 1 {
          effectType := OpenGLComplete;
        } else if env.performanceLevel == 2 {
          effectType := OpenGLNoMotion;
        } else {
          effectType := XRenderComplete;
        }
      }
    }

    method Start(env: Env)
      requires TheLife().Valid()
      modifies this
      ensures TheLife() == Started(old(TheLife()), env)
      ensures unusedSupportProperties == old(unusedSupportProperties) && rootProperties == old(rootProperties)
      ensures unusedTimerActive == old(unusedTimerActive)
    {
      hide Aim, SetUp, Recorded;
      if suspended != NO_REASON {
        RecordEffectType();
        return;
      } else if !env.possible {
        RecordEffectType();
        return;
      }
      PickEffectType(env);
      if effectType == NoneCompositor {
        RecordEffectType();
        return;
      }
      ghost var aimed := TheLife();
      var ok := SetupStart(env);
      if ok {
        StartupWithWorkspace();
      }
      assert TheLife() == SetUp(aimed, env);
      RecordEffectType();
    }

    method Stop()
      modifies this
      ensures TheLife() == Stopped(old(TheLife()))
      ensures unusedSupportProperties == old(unusedSupportProperties) && rootProperties == old(rootProperties)
      ensures unusedTimerActive == old(unusedTimerActive)
    {
      if state == Off || state == Stopping {
        return;
      }
      state := Stopping;
      releaseTimerActive := true;
      backend := None;
      state := Off;
    }

    method ReleaseCompositorSelection()
      requires releaseTimerActive
      modifies this
      ensures TheLife() == TimedOut(old(TheLife()))
    {
      releaseTimerActive := false;
      match state {
        case On =>
        case Off =>
          if selectionOwner.Some? {
            selectionOwner := Some(false);
          }
        case Starting => releaseTimerActive := true;
        case Stopping => releaseTimerActive := true;
      }
    }

    method LostOwnership()
      requires selectionOwner.Some?
      modifies this
      ensures TheLife() == Stopped(old(TheLife()).(owner := Some(false)))
    {
      selectionOwner := Some(false);
      Stop();
    }

    method Suspend(reason: Reasons)
      requires reason != NO_REASON
      modifies this
      ensures TheLife() == Suspended(old(TheLife()), reason)
    {
      suspended := suspended | reason;
      Stop();
    }

    method ClearReason(reason: Reasons)
      modifies this`suspended
      ensures TheLife() == Cleared(old(TheLife()), reason)
    {
      suspended := suspended & !reason;
    }

    method Resume(reason: Reasons, env: Env)
      requires TheLife().Valid() && reason != NO_REASON
      modifies this
      ensures TheLife() == Resumed(old(TheLife()), reason, env)
    {
      hide Started, Cleared, Life.Valid;
      ClearingKeepsValid(TheLife(), reason);
      ClearReason(reason);
      Start(env);
    }

    method ToggleCompositing(env: Env)
      requires TheLife().Valid()
      modifies this
      ensures TheLife() == if old(suspended) != NO_REASON then Resumed(old(TheLife()), ALL_REASONS, env)
                           else Suspended(old(TheLife()), USER_SUSPEND)
    {
      if suspended != NO_REASON {
        Resume(ALL_REASONS, env);
      } else {
        Suspend(USER_SUSPEND);
      }
    }

    method Reinitialize(env: Env)
      requires TheLife().Valid()
      modifies this
      ensures TheLife() == Reinitialized(old(TheLife()), env)
    {
      suspended := NO_REASON;
      Stop();
      Start(env);
    }

    method HandleUserTypeChanged(t: EffectType, env: Env)
      requires TheLife().Valid()
      modifies this
      ensures TheLife() == UserTypeChanged(old(TheLife()), t, env)
    {
      userType := t;
      if t == AutoSelect || t == effectType {
        return;
      }
      if (effectType == OpenGLComplete || effectType == OpenGLNoMotion) && (t == OpenGLComplete || t == OpenGLNoMotion) {
        effectType := t;
        return;
      }
      suspended := NO_REASON;
      Stop();
      assert TheLife().Valid();
      Start(env);
    }

    method KeepSupportProperty(atom: Atom)
      modifies this`unusedSupportProperties
      ensures unusedSupportProperties == Without(old(unusedSupportProperties), atom)
    {
      unusedSupportProperties := Without(unusedSupportProperties, atom);
    }

    method RemoveSupportProperty(atom: Atom)
      modifies this`unusedSupportProperties, this`unusedTimerActive
      ensures unusedSupportProperties == old(unusedSupportProperties) + [atom] && unusedTimerActive
    {
      unusedSupportProperties := unusedSupportProperties + [atom];
      unusedTimerActive := true;
    }

    /** Run by the timer. */
    method DeleteUnusedSupportProperties()
      modifies this`unusedSupportProperties, this`unusedTimerActive, this`rootProperties
      ensures unusedTimerActive == (state == Starting || state == Stopping)
      ensures unusedTimerActive ==> unusedSupportProperties == old(unusedSupportProperties) && rootProperties == old(rootProperties)
      ensures !unusedTimerActive ==> unusedSupportProperties == [] &&
                                     rootProperties == Delete(old(rootProperties), old(unusedSupportProperties))
    {
      unusedTimerActive := false;
      if state == Starting || state == Stopping {
        unusedTimerActive := true;
        return;
      }
      for i := 0 to |unusedSupportProperties|
        invariant unusedSupportProperties == old(unusedSupportProperties)
        invariant rootProperties == Delete(old(rootProperties), unusedSupportProperties[..i])
      {
        rootProperties := rootProperties - {unusedSupportProperties[i]};
      }
      assert unusedSupportProperties[..|unusedSupportProperties|] == unusedSupportProperties;
      unusedSupportProperties := [];
    }
  }

  // ---------------------------------------------------------------------------
  // Runs
  // ---------------------------------------------------------------------------

  datatype Op =
    | FirstStart(env: Env)
    | Suspend(reason: Reasons)
    | Resume(reason: Reasons, env: Env)
    | Toggle(env: Env)
    | Reinitialize(env: Env)
    | LoseOwnership
    | ReleaseTimeout
    | OptionsChanged(env: Env)
    | ChangeUserType(userType: EffectType, env: Env)

  predicate Possible(l: Life, op: Op) {
    match op
    case Suspend(reason) => reason != NO_REASON
    case Resume(reason, _) => reason != NO_REASON
    case LoseOwnership => l.owner.Some?
    case ReleaseTimeout => l.releaseTimer
    case _ => true
  }

  function After(l: Life, op: Op): Life {
    match op
    case FirstStart(env) => Started(l, env)
    case Suspend(reason) => Suspended(l, reason)
    case Resume(reason, env) => Resumed(l, reason, env)
    case Toggle(env) => if l.suspended != NO_REASON then Resumed(l, ALL_REASONS, env) else Suspended(l, USER_SUSPEND)
    case Reinitialize(env) => Reinitialized(l, env)
    case LoseOwnership => Stopped(l.(owner := Some(false)))
    case ReleaseTimeout => TimedOut(l)
    case OptionsChanged(env) => if l.suspended != NO_REASON then Stopped(l) else Started(l, env)
    case ChangeUserType(t, env) => UserTypeChanged(l, t, env)
  }

  /** A compositor as constructed. */
  predicate Fresh(l: Life) {
    l.state == Off && l.owner == None && !l.releaseTimer && l.backend == None
  }

  function Run(start: Life, ops: seq<Op>): Life {
    if ops == [] then start else After(Run(start, ops[..|ops| - 1]), ops[|ops| - 1])
  }

  predicate PossibleRun(start: Life, ops: seq<Op>) {
    ops != [] ==> PossibleRun(start, ops[..|ops| - 1]) && Possible(Run(start, ops[..|ops| - 1]), ops[|ops| - 1])
  }

  lemma StartKeepsValid(l: Life, env: Env)
    requires l.Valid()
    ensures Started(l, env).Valid()
  {
  }

  lemma StepKeepsValid(l: Life, op: Op)
    requires l.Valid() && Possible(l, op)
    ensures After(l, op).Valid()
  {
    match op
    case FirstStart(env) => StartKeepsValid(l, env);
    case Suspend(reason) => ReasonsNonZero(l.suspended, reason);
    case Resume(reason, env) => ResumeKeepsValid(l, reason, env);
    case Toggle(env) => ResumeKeepsValid(l, ALL_REASONS, env);
    case Reinitialize(env) => StartKeepsValid(Stopped(l.(suspended := NO_REASON)), env);
    case OptionsChanged(env) => StartKeepsValid(l, env);
    case ChangeUserType(t, env) => StartKeepsValid(Stopped(l.(suspended := NO_REASON, userType := t)), env);
    case _ =>
  }

  lemma ReasonsNonZero(a: Reasons, b: Reasons)
    ensures (a | b == 0 <==> a == 0 && b == 0) && (a == 0 ==> a & !b == 0)
  {
  }

  lemma ClearingKeepsValid(l: Life, reason: Reasons)
    requires l.Valid()
    ensures Cleared(l, reason).Valid()
  {
    ReasonsNonZero(l.suspended, reason);
  }

  lemma ResumeKeepsValid(l: Life, reason: Reasons, env: Env)
    requires l.Valid()
    ensures Resumed(l, reason, env).Valid()
  {
    ClearingKeepsValid(l, reason);
    StartKeepsValid(Cleared(l, reason), env);
  }

  /** After every run: when on, nothing suspends, there is a backend and the owned selection will not be released;
      when off, there is no backend, and an owned selection is going to be released. */
  lemma {:induction false} RunSafe(start: Life, ops: seq<Op>)
    requires Fresh(start) && PossibleRun(start, ops)
    ensures Run(start, ops).Valid()
  {
    if ops != [] {
      RunSafe(start, ops[..|ops| - 1]);
      StepKeepsValid(Run(start, ops[..|ops| - 1]), ops[|ops| - 1]);
    }
  }

  // ---------------------------------------------------------------------------
  // Suspending and resuming
  // ---------------------------------------------------------------------------

  /** Nothing but the compositor's own state stands in the way of a start. */
  predicate Startable(env: Env) {
    env.possible && !env.terminating && SomeWorks(env.supported, env.works)
  }

  /** A type works that comes before running without compositing. */
  predicate SomeWorks(candidates: seq<CompositingType>, works: set<CompositingType>) {
    exists i :: 0 <= i < |candidates| && candidates[i] in works && candidates[i] != NoCompositing && NoCompositing !in candidates[..i]
  }

  /** A backend is found exactly if some candidate works before the search ends. */
  lemma {:induction false} ChosenExactly(candidates: seq<CompositingType>, works: set<CompositingType>)
    ensures Chosen(candidates, works).Some? <==> SomeWorks(candidates, works)
  {
    if candidates != [] && candidates[0] != NoCompositing {
      if candidates[0] in works {
        assert candidates[..0] == [];
      } else {
        var tail := candidates[1..];
        ChosenExactly(tail, works);
        assert forall i :: 0 < i < |candidates| ==> candidates[..i] == [candidates[0]] + tail[..i - 1];
        if SomeWorks(tail, works) {
          var i :| 0 <= i < |tail| && tail[i] in works && tail[i] != NoCompositing && NoCompositing !in tail[..i];
          assert candidates[i + 1] == tail[i];
        }
        if SomeWorks(candidates, works) {
          var i :| 0 <= i < |candidates| && candidates[i] in works && candidates[i] != NoCompositing && NoCompositing !in candidates[..i];
          assert tail[i - 1] == candidates[i];
        }
      }
    }
  }

  /** The backend found is the first candidate that works. */
  lemma {:induction false} ChosenIsFirst(candidates: seq<CompositingType>, works: set<CompositingType>) returns (i: nat)
    requires Chosen(candidates, works).Some?
    ensures i < |candidates| && Chosen(candidates, works) == Some(candidates[i])
    ensures candidates[i] in works && candidates[i] != NoCompositing
    ensures forall j :: 0 <= j < i ==> candidates[j] !in works && candidates[j] != NoCompositing
  {
    if candidates[0] in works {
      i := 0;
    } else {
      var k := ChosenIsFirst(candidates[1..], works);
      i := k + 1;
      assert forall j :: 0 < j < i ==> candidates[j] == candidates[1..][j - 1];
    }
  }

  /** Where some supported type works before the search ends, one also works after the configured type is put first. */
  lemma StartableChooses(env: Env, t: EffectType)
    requires Startable(env)
    ensures Chosen(Candidates(env.supported, t), env.works).Some?
  {
    hide Chosen;
    var i :| 0 <= i < |env.supported| && env.supported[i] in env.works &&
             env.supported[i] != NoCompositing && NoCompositing !in env.supported[..i];
    var cs := Candidates(env.supported, t);
    var selected := if t == XRenderComplete then XRenderCompositing else OpenGLCompositing;
    ChosenExactly(cs, env.works);
    hide Startable;
    if selected in env.supported {
      var k := IndexOf(env.supported, selected);
      var at := if i < k then i + 1 else if i == k then 0 else i;
      assert cs[at] == env.supported[i];
      forall j | 0 <= j < at ensures cs[j] != NoCompositing {
        if j > 0 {
          var from := if j <= k then j - 1 else j;
          assert cs[j] == env.supported[from];
          assert env.supported[from] in env.supported[..i];
        }
      }
      assert NoCompositing !in cs[..at];
    }
  }

  /** A running compositor that is suspended for a reason and resumed for it is running again. */
  lemma SuspendResume(l: Life, reason: Reasons, env: Env)
    requires l.Valid() && l.state == On && reason != NO_REASON && Startable(env)
    ensures Suspended(l, reason).state == Off && Resumed(Suspended(l, reason), reason, env).state == On
  {
    ReasonsBack(reason);
    StartSucceeds(Cleared(Suspended(l, reason), reason), env);
  }

  lemma ReasonsBack(r: Reasons)
    ensures (0 as Reasons | r) & !r == 0
  {
  }

  /** What a start from off needs: no suspend reason, a system that allows it, an effect type other than none, and a
      supported type that works. */
  predicate CanStart(l: Life, env: Env) {
    l.suspended == NO_REASON && env.possible && !env.terminating && Aim(l.userType, env) != NoneCompositor &&
    SomeWorks(Candidates(env.supported, Aim(l.userType, env)), env.works)
  }

  /** After a start the compositor is on exactly if it was, or if nothing stands in the way. */
  lemma StartedExactly(l: Life, env: Env)
    requires l.Valid()
    ensures Started(l, env).state == On <==> l.state == On || CanStart(l, env)
  {
    hide Candidates, SomeWorks, Aim;
    ChosenExactly(Candidates(env.supported, Aim(l.userType, env)), env.works);
  }

  /** A start without suspend reasons succeeds from a stopped compositor, if nothing else stands in the way. */
  lemma StartSucceeds(l: Life, env: Env)
    requires l.Valid() && l.suspended == NO_REASON && Startable(env)
    requires env.enabledKey.Some? || l.userType != NoneCompositor
    ensures Started(l, env).state == On
  {
    StartableChooses(env, Aim(l.userType, env));
    ChosenExactly(Candidates(env.supported, Aim(l.userType, env)), env.works);
    StartedExactly(l, env);
  }

  /** Resuming only some of the reasons makes the compositor forget its type. */
  lemma PartialResumeForgets(l: Life, reason: Reasons, env: Env)
    requires l.Valid() && l.state == Off && l.suspended & !reason != NO_REASON
    ensures Resumed(l, reason, env) == Cleared(l, reason).(effectType := NoneCompositor, userType := NoneCompositor)
  {
  }

  /** Resuming all reasons in two steps brings compositing back exactly if the first step already clears them all. */
  lemma ResumeInSteps(l: Life, first: Reasons, last: Reasons, env: Env, later: Env)
    requires l.Valid() && l.state == Off && l.userType != NoneCompositor
    requires Startable(env) && Startable(later) && later.enabledKey == None
    requires (l.suspended & !first) & !last == NO_REASON
    ensures Resumed(Resumed(l, first, env), last, later).state == On <==> l.suspended & !first == NO_REASON
  {
    if l.suspended & !first == NO_REASON {
      ClearingKeepsValid(l, first);
      StartSucceeds(Cleared(l, first), env);
    } else {
      PartialResumeForgets(l, first, env);
    }
  }

  /** A run after which compositing is off, though all reasons are lifted and nothing else stands in the way:
      suspended by the user and by a script, then resumed from one after the other. */
  lemma ResumedInStepsStaysOff(start: Life, env: Env)
    requires Fresh(start) && start.suspended == NO_REASON && start.userType != NoneCompositor
    requires Startable(env) && env.enabledKey == None
    ensures var script: Reasons := 4;
            var ops := [FirstStart(env)] + [Suspend(USER_SUSPEND)] + [Suspend(script)] + [Resume(script, env)] + [Resume(USER_SUSPEND, env)];
            PossibleRun(start, ops) && Run(start, [FirstStart(env)]).state == On &&
            Run(start, ops).state == Off && Run(start, ops).suspended == NO_REASON
  {
    var script: Reasons := 4;
    var a := [FirstStart(env)];
    RunSnoc(start, [], FirstStart(env));
    assert [] + a == a;
    StartSucceeds(start, env);
    RunSnoc(start, a, Suspend(USER_SUSPEND));
    RunSnoc(start, a + [Suspend(USER_SUSPEND)], Suspend(script));
    RunSnoc(start, a + [Suspend(USER_SUSPEND)] + [Suspend(script)], Resume(script, env));
    RunSnoc(start, a + [Suspend(USER_SUSPEND)] + [Suspend(script)] + [Resume(script, env)], Resume(USER_SUSPEND, env));
    hide Run, PossibleRun, SetUp, Aim;
    var l := Run(start, a);
    assert l.state == On && l.suspended == NO_REASON;
    var m := Suspended(Suspended(l, USER_SUSPEND), script);
    assert m.state == Off && m.suspended == 5 && m.backend == None;
  }

  lemma RunSnoc(start: Life, ops: seq<Op>, op: Op)
    ensures Run(start, ops + [op]) == After(Run(start, ops), op)
    ensures PossibleRun(start, ops + [op]) <==> PossibleRun(start, ops) && Possible(Run(start, ops), op)
  {
    assert (ops + [op])[..|ops|] == ops;
  }

  // ---------------------------------------------------------------------------
  // Which compositing a start brings
  // ---------------------------------------------------------------------------

  /** An explicit setting against OpenGL; without a setting a kept type of XRender, or an automatic choice on a device
      of neither the first nor the second performance level. */
  predicate PrefersXRender(userType: EffectType, env: Env) {
    env.enabledKey == Some(false) ||
    (env.enabledKey == None &&
     (userType == XRenderComplete || (userType == AutoSelect && env.performanceLevel != 1 && env.performanceLevel != 2)))
  }

  function Preferred(userType: EffectType, env: Env): CompositingType {
    if PrefersXRender(userType, env) then XRenderCompositing else OpenGLCompositing
  }

  /** `b` is the first supported type that works, and the search for it is not ended before. */
  predicate FirstThatWorks(supported: seq<CompositingType>, works: set<CompositingType>, b: CompositingType) {
    b in works && b in supported && NoCompositing !in supported[..IndexOf(supported, b)] && b != NoCompositing &&
    forall j :: 0 <= j < IndexOf(supported, b) ==> supported[j] !in works
  }

  /** Taking a type that does not work out of a list, to put it first, does not change what works first. */
  lemma ReorderedFirst(supported: seq<CompositingType>, works: set<CompositingType>, preferred: CompositingType, i: nat)
    requires preferred in supported && preferred !in works
    requires var k := IndexOf(supported, preferred);
             var rest := supported[..k] + supported[k + 1..];
             i < |rest| && rest[i] in works && rest[i] != NoCompositing &&
             forall j :: 0 <= j < i ==> rest[j] !in works && rest[j] != NoCompositing
    requires preferred != NoCompositing
    ensures var k := IndexOf(supported, preferred);
            FirstThatWorks(supported, works, (supported[..k] + supported[k + 1..])[i])
  {
    var k := IndexOf(supported, preferred);
    var rest := supported[..k] + supported[k + 1..];
    var at := if i < k then i else i + 1;
    assert supported[at] == rest[i];
    forall j | 0 <= j < at ensures supported[j] !in works && supported[j] != NoCompositing {
      if j != k {
        assert supported[j] == rest[if j < k then j else j - 1];
      }
    }
    FirstAt(supported, works, at);
  }

  lemma FirstAt(supported: seq<CompositingType>, works: set<CompositingType>, at: nat)
    requires at < |supported| && supported[at] in works && supported[at] != NoCompositing
    requires forall j :: 0 <= j < at ==> supported[j] !in works && supported[j] != NoCompositing
    ensures FirstThatWorks(supported, works, supported[at])
  {
    IndexOfFirst(supported, at);
  }

  /** A start that takes the compositor from off to on gives the preferred compositing, if that is supported and works,
      and else the first supported one that works. */
  lemma StartedBackend(l: Life, env: Env)
    requires l.Valid() && l.state == Off && Started(l, env).state == On
    ensures var b, preferred := Started(l, env).backend.value, Preferred(l.userType, env);
            if preferred in env.supported && preferred in env.works then b == preferred
            else FirstThatWorks(env.supported, env.works, b)
  {
    var cs := Candidates(env.supported, Aim(l.userType, env));
    assert Started(l, env).backend == Chosen(cs, env.works);
    AimIsPreferred(l.userType, env);
    var preferred := Preferred(l.userType, env);
    assert preferred != NoCompositing;
    hide Started, Candidates, Aim, Chosen, Preferred, FirstThatWorks;
    ChosenOfReordered(env.supported, env.works, preferred, cs);
  }

  lemma ChosenOfReordered(supported: seq<CompositingType>, works: set<CompositingType>, preferred: CompositingType, cs: seq<CompositingType>)
    requires cs == PutFirst(supported, preferred) && preferred != NoCompositing && Chosen(cs, works).Some?
    ensures var b := Chosen(cs, works).value;
            if preferred in supported && preferred in works then b == preferred else FirstThatWorks(supported, works, b)
  {
    hide Chosen, FirstThatWorks;
    var i := ChosenIsFirst(cs, works);
    if preferred !in supported {
      FirstAt(supported, works, i);
    } else {
      var k := IndexOf(supported, preferred);
      var rest := supported[..k] + supported[k + 1..];
      assert cs[0] == preferred && forall j :: 0 < j < |cs| ==> cs[j] == rest[j - 1];
      if preferred !in works {
        assert forall j :: 0 <= j < i - 1 ==> rest[j] == cs[j + 1];
        ReorderedFirst(supported, works, preferred, i - 1);
      }
    }
  }

  /** A listed type moved to the front. */
  function PutFirst(supported: seq<CompositingType>, preferred: CompositingType): seq<CompositingType> {
    if preferred in supported then
      var k := IndexOf(supported, preferred);
      [preferred] + (supported[..k] + supported[k + 1..])
    else supported
  }

  lemma AimIsPreferred(userType: EffectType, env: Env)
    ensures Candidates(env.supported, Aim(userType, env)) == PutFirst(env.supported, Preferred(userType, env))
  {
  }

  /** Such a start keeps the type it gives as the user's: XRender's own type, else the one explicitly set, kept or
      chosen by the performance level. */
  lemma StartedType(l: Life, env: Env)
    requires l.Valid() && l.state == Off && Started(l, env).state == On
    ensures var t := Started(l, env);
            t.userType == t.effectType &&
            (t.backend == Some(XRenderCompositing) ==> t.userType == XRenderComplete) &&
            (t.backend != Some(XRenderCompositing) ==>
               (env.enabledKey == Some(true) ==> t.userType == OpenGLComplete) &&
               (env.enabledKey == Some(false) ==> t.userType == XRenderComplete) &&
               (env.enabledKey == None && l.userType != AutoSelect ==> t.userType == l.userType) &&
               (env.enabledKey == None && l.userType == AutoSelect ==>
                  (env.performanceLevel == 1 ==> t.userType == OpenGLComplete) &&
                  (env.performanceLevel == 2 ==> t.userType == OpenGLNoMotion) &&
                  (env.performanceLevel != 1 && env.performanceLevel != 2 ==> t.userType == XRenderComplete)))
  {
  }

  /** A start attempt on a running compositor changes nothing but the types; one that leaves it off keeps the type none
      as the user's, and gives up the selection exactly if the search for a backend was begun. */
  lemma StartedOtherwise(l: Life, env: Env)
    requires l.Valid()
    ensures var t := Started(l, env);
            (l.state == On ==> t.(effectType := l.effectType, userType := l.userType) == l) &&
            (t.state == Off ==>
               t.userType == t.effectType == NoneCompositor && t.backend == None && t.releaseTimer == l.releaseTimer &&
               t.owner == if l.suspended == NO_REASON && env.possible && !env.terminating && Aim(l.userType, env) != NoneCompositor
                          then Some(false) else l.owner)
  {
  }

  // ---------------------------------------------------------------------------
  // What the other operations bring
  // ---------------------------------------------------------------------------

  /** All bits of the reason are set afterwards, and the others are as they were. */
  predicate Adds(before: Reasons, reason: Reasons, after: Reasons) {
    after & reason == reason && after & !reason == before & !reason
  }

  /** No bit of the reason is set afterwards, and the others are as they were. */
  predicate Lifts(before: Reasons, reason: Reasons, after: Reasons) {
    after & reason == NO_REASON && after & !reason == before & !reason
  }

  lemma AddedBits(a: Reasons, b: Reasons)
    ensures Adds(a, b, a | b)
  {
  }

  lemma ClearedBits(a: Reasons, b: Reasons)
    ensures Lifts(a, b, a & !b)
  {
  }

  /** A suspension turns the compositor off and adds its reason to the others; resuming lifts just its reason. */
  lemma ReasonsExactly(l: Life, reason: Reasons, env: Env)
    requires l.Valid()
    ensures var t := Suspended(l, reason); t.state == Off && t.backend == None && Adds(l.suspended, reason, t.suspended)
    ensures Lifts(l.suspended, reason, Resumed(l, reason, env).suspended)
  {
    hide Suspended, Resumed, Life.Valid, Adds, Lifts;
    SuspendedIsOff(l, reason);
    ResumedKeepsReasons(l, reason, env);
    AddedBits(l.suspended, reason);
    ClearedBits(l.suspended, reason);
  }

  lemma SuspendedIsOff(l: Life, reason: Reasons)
    requires l.Valid()
    ensures Suspended(l, reason).suspended == l.suspended | reason
    ensures Suspended(l, reason).state == Off && Suspended(l, reason).backend == None
  {
  }

  lemma ResumedKeepsReasons(l: Life, reason: Reasons, env: Env)
    ensures Resumed(l, reason, env).suspended == l.suspended & !reason
  {
  }

  /** Switching by hand stops a compositor without reasons, and starts one that has any, whatever they are. */
  lemma ToggleExactly(l: Life, env: Env)
    requires l.Valid()
    ensures l.suspended == NO_REASON ==>
              After(l, Toggle(env)).state == Off && After(l, Toggle(env)).suspended == USER_SUSPEND
    ensures l.suspended != NO_REASON ==>
              After(l, Toggle(env)).suspended == NO_REASON &&
              (After(l, Toggle(env)).state == On <==> CanStart(l.(suspended := NO_REASON), env))
  {
    var a := l.suspended;
    assert 0 as Reasons | USER_SUSPEND == USER_SUSPEND;
    assert a & !ALL_REASONS == 0;
    ClearingKeepsValid(l, ALL_REASONS);
    StartedExactly(Cleared(l, ALL_REASONS), env);
  }

  /** A reinitialization lifts all reasons, and brings compositing, anew, exactly if nothing stands in the way. */
  lemma ReinitializeExactly(l: Life, env: Env)
    requires l.Valid()
    ensures var t := After(l, Op.Reinitialize(env));
            t.suspended == NO_REASON && (t.state == On <==> CanStart(l.(suspended := NO_REASON), env)) &&
            (t.state == On ==> t == Started(Stopped(l.(suspended := NO_REASON)), env))
  {
    StartedExactly(Stopped(l.(suspended := NO_REASON)), env);
  }

  /** Changed options stop a suspended compositor, and start another one if nothing stands in the way. */
  lemma OptionsChangedExactly(l: Life, env: Env)
    requires l.Valid()
    ensures After(l, OptionsChanged(env)).state == On <==> l.state == On || CanStart(l, env)
  {
    StartedExactly(l, env);
  }

  predicate IsOpenGL(t: EffectType) {
    t == OpenGLComplete || t == OpenGLNoMotion
  }

  /** A new user type is only kept if it is automatic or the current one; between the two kinds of OpenGL the type is
      switched without a restart; any other restarts the compositor, without reasons and with that type as the kept one. */
  lemma UserTypeChangedExactly(l: Life, t: EffectType, env: Env)
    requires l.Valid()
    ensures var m := After(l, ChangeUserType(t, env));
            if t == AutoSelect || t == l.effectType then m == l.(userType := t)
            else if IsOpenGL(l.effectType) && IsOpenGL(t) then m == l.(userType := t, effectType := t)
            else m.suspended == NO_REASON && (m.state == On <==> CanStart(l.(suspended := NO_REASON, userType := t), env))
  {
    StartedExactly(Stopped(l.(suspended := NO_REASON, userType := t)), env);
  }

  /** A lost selection and the release timer of a stopped compositor leave it off and without the selection; the timer
      of a running one changes nothing but itself. */
  lemma SelectionExactly(l: Life)
    requires l.Valid() && l.owner.Some?
    ensures After(l, LoseOwnership).state == Off && After(l, LoseOwnership).owner == Some(false)
    ensures l.state == Off ==> After(l, ReleaseTimeout) == l.(releaseTimer := false, owner := Some(false))
    ensures l.state == On ==> After(l, ReleaseTimeout) == l.(releaseTimer := false)
  {
  }
}
