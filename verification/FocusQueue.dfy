/** Focus requests to the X server, the FocusIn events that answer them, and the decision whether a window may become active. */
module FocusQueue {
  import opened Sequences

  type Window = nat

  // ---------------------------------------------------------------------------
  // Focus stealing prevention
  // ---------------------------------------------------------------------------

  datatype Level = NoPrevention | Low | Medium | High | Extreme {
    function Rank(): nat {
      match this
      case NoPrevention => 0
      case Low => 1
      case Medium => 2
      case High => 3
      case Extreme => 4
    }
  }

  /** A user time: none known, the explicit refusal of focus, or a time stamp. */
  datatype UserTime = NoTime | Refused | Stamp

  /** The window the new one would take the focus from. */
  datatype Rival = Rival(protection: Level, isDesktop: bool, sameApplication: bool)

  /** What allowWindowActivation looks at; `newer` tells whether the time is not before the rival's user time. */
  datatype Query = Query(
    time: UserTime, focusIn: bool, ignoreDesktop: bool, level: Level, sessionSaving: bool, queued: bool,
    rival: Option<Rival>, acceptsFocus: bool, onCurrentDesktop: bool, newer: bool)

  function AllowActivation(q: Query): bool {
    var protection := if q.rival.Some? then q.rival.value.protection else NoPrevention;
    if q.sessionSaving && q.level.Rank() <= Medium.Rank() then true
    else if q.focusIn && q.queued then true
    else if q.time.Refused? && !q.acceptsFocus then false
    else if q.level == NoPrevention || protection == NoPrevention then true
    else if q.level == Extreme || protection == Extreme then false
    else if !q.ignoreDesktop && !q.onCurrentDesktop then false
    else if q.rival.None? || q.rival.value.isDesktop then true
    else if q.rival.value.sameApplication && protection.Rank() < High.Rank() then true
    else if !q.onCurrentDesktop then false
    else if q.level.Rank() > Medium.Rank() && protection.Rank() > Low.Rank() then false
    else if q.time.NoTime? then q.level.Rank() < Medium.Rank() && protection.Rank() < High.Rank()
    else q.newer
  }

  /** A window whose focus KWin itself asked for is never refused. */
  lemma QueuedIsAllowed(q: Query)
    requires q.focusIn && q.queued
    ensures AllowActivation(q)
  {
  }

  /** Lowering the prevention level, or the rival's protection, never refuses what was allowed before. */
  lemma WeakerPreventionAllowsMore(q: Query, level: Level, protection: Level)
    requires AllowActivation(q) && level.Rank() <= q.level.Rank()
    requires q.rival.Some? ==> protection.Rank() <= q.rival.value.protection.Rank()
    ensures AllowActivation(q.(level := level,
              rival := if q.rival.Some? then Some(q.rival.value.(protection := protection)) else None))
  {
  }

  /** At the extreme level a window is still activated if KWin asked for it or the rival is absent or unprotected. */
  lemma ExtremeExactly(q: Query)
    requires q.level == Extreme
    ensures AllowActivation(q) <==>
            (q.focusIn && q.queued) ||
            (!(q.time.Refused? && !q.acceptsFocus) && (q.rival.None? || q.rival.value.protection == NoPrevention))
  {
  }

  /** Nothing but the levels, the rival and the times decides: KWin did not ask for the focus, the window is in sight
      and does not refuse it. */
  predicate Contested(q: Query, r: Rival) {
    q.rival == Some(r) && !r.isDesktop && q.onCurrentDesktop && !q.sessionSaving &&
    !(q.focusIn && q.queued) && !(q.time.Refused? && !q.acceptsFocus)
  }

  /** A query at the high level, contested by `r`, at a time that is known. */
  function AtHigh(r: Rival, newer: bool): Query {
    Query(Stamp, false, false, High, false, false, Some(r), true, true, newer)
  }

  /** The promise of the high level, activation within the active application only, holds for a rival exactly if its
      protection is medium, or lower within the application, or higher outside of it. */
  lemma HighExactly(r: Rival)
    requires !r.isDesktop
    ensures (forall q: Query | q.level == High && Contested(q, r) :: AllowActivation(q) <==> r.sameApplication) <==>
            if r.sameApplication then r.protection.Rank() <= Medium.Rank() else r.protection.Rank() >= Medium.Rank()
  {
    assert Contested(AtHigh(r, true), r) && Contested(AtHigh(r, false), r);
    if r.protection.Rank() < Medium.Rank() && !r.sameApplication {
      assert AllowActivation(AtHigh(r, true));
    } else if r.protection.Rank() > Medium.Rank() && r.sameApplication {
      assert !AllowActivation(AtHigh(r, false));
    }
  }

  /** At the low and the normal level, between different applications: an unprotected rival yields always, an extremely
      protected one never; otherwise a known time decides, and without one the low level allows and the normal one
      refuses, but for a rival of high protection both refuse. */
  lemma LowAndNormalExactly(q: Query, r: Rival)
    requires Contested(q, r) && !r.sameApplication && (q.level == Low || q.level == Medium)
    ensures AllowActivation(q) <==>
            r.protection == NoPrevention ||
            (r.protection != Extreme && if q.time.NoTime? then q.level == Low && r.protection != High else q.newer)
  {
  }

  /** The rival gives way without a comparison of times. */
  predicate Yields(r: Rival) {
    r.isDesktop || (r.sameApplication && r.protection.Rank() < High.Rank())
  }

  /** Neither the level nor the protection settles the question alone. */
  predicate Ordinary(level: Level) {
    level == Low || level == Medium || level == High
  }

  /** What is decided before rival and times are compared: in this order, saving a session below the high level allows,
      a request of KWin's own allows, an accepted refusal of focus refuses, and a level or rival without prevention
      allows before an extreme one refuses. */
  lemma SettledExactly(q: Query)
    ensures q.sessionSaving && q.level != High && q.level != Extreme ==> AllowActivation(q)
    ensures q.level == High || q.level == Extreme ==> AllowActivation(q) == AllowActivation(q.(sessionSaving := false))
    ensures q.focusIn && q.queued ==> AllowActivation(q)
    ensures !(q.focusIn && q.queued) ==> AllowActivation(q) == AllowActivation(q.(focusIn := false)) == AllowActivation(q.(queued := false))
    ensures var open := !(q.focusIn && q.queued) && !(q.sessionSaving && q.level.Rank() <= Medium.Rank());
            (open && q.time == Refused && !q.acceptsFocus ==> !AllowActivation(q)) &&
            (open && !(q.time == Refused && !q.acceptsFocus) ==>
               (q.level == NoPrevention || q.rival == None || q.rival.value.protection == NoPrevention ==> AllowActivation(q)) &&
               (q.level == Extreme && q.rival.Some? && q.rival.value.protection != NoPrevention ==> !AllowActivation(q)) &&
               (q.level != NoPrevention && q.rival.Some? && q.rival.value.protection == Extreme ==> !AllowActivation(q)))
  {
  }

  /** The comparison itself: a yielding rival gives way in sight, or from another desktop if that is ignored; any other
      gives way only in sight, to a newer window if the time is known, under the high level only at low protection,
      and without a time only under the low level, unless its protection is high. */
  lemma ContestExactly(q: Query)
    requires q.rival.Some? && Ordinary(q.level) && Ordinary(q.rival.value.protection)
    requires !(q.focusIn && q.queued) && !(q.sessionSaving && q.level != High) && !(q.time == Refused && !q.acceptsFocus)
    ensures var r := q.rival.value;
            AllowActivation(q) <==>
            if Yields(r) then q.onCurrentDesktop || q.ignoreDesktop
            else q.onCurrentDesktop &&
                 if q.time == NoTime then q.level == Low && r.protection != High
                 else q.newer && (q.level != High || r.protection == Low)
  {
  }

  // ---------------------------------------------------------------------------
  // The request queue
  // ---------------------------------------------------------------------------

  /** The queue after a FocusIn of `w`: everything up to its first entry is gone. */
  function Popped(queue: seq<Window>, w: Window): seq<Window> {
    if w in queue then queue[IndexOf(queue, w) + 1..] else queue
  }

  /** A FocusIn as the window sees it. */
  datatype FocusInEvent = FocusInEvent(forClient: bool, grabChange: bool, pointerDetail: bool)

  /** What the windows answer to a focus request, and whether focus changes are enabled. Docks and splash screens that
      want no input are `declining`; taking the focus fails for `failing` windows. */
  datatype FocusEnv = FocusEnv(
    changeEnabled: bool, modal: map<Window, Window>, declining: set<Window>, shaded: set<Window>,
    wantsInput: set<Window>, shown: set<Window>, failing: set<Window>)

  datatype Outcome = Ignored | Activated | AttentionDemanded

  /** The request queue, the active and the last active window, and whether the null focus window exists. */
  datatype Focus = Focus(queue: seq<Window>, active: Option<Window>, last: Option<Window>, nullFocus: bool) {
    function Active(w: Window): Focus {
      this.(active := Some(w), last := Some(w))
    }

    function Nulled(): Focus {
      if nullFocus then this.(queue := []) else this
    }
  }

  /** A focus request for `w`: it goes to the window's modal, if there is one; docks and splash screens can be forced. */
  function Asked(f: Focus, w: Window, force: bool, env: FocusEnv): (Focus, bool) {
    var may := env.changeEnabled || f.active == Some(w);
    var v := if may && w in env.modal then env.modal[w] else w;
    var asks := may && (force || v !in env.declining);
    if v in env.shaded then
      (if asks && v in env.wantsInput then f.Active(v).Nulled() else f, v in env.shown)
    else if v !in env.shown then (f, false)
    else if !asks then (f, true)
    else if v in env.failing then (f, false)
    else (f.(queue := f.queue + [v]), true)
  }

  /** The focus goes back to the latest request, else to the last active window. */
  function Restored(f: Focus, env: FocusEnv): (Focus, bool) {
    if f.queue != [] then Asked(f, f.queue[|f.queue| - 1], false, env)
    else if f.last.Some? then Asked(f, f.last.value, false, env)
    else (f, true)
  }

  /** A FocusIn that gets past the early returns. */
  function FocusedIn(f: Focus, w: Window, q: Query, env: FocusEnv): (Focus, Outcome) {
    var popped := f.(queue := Popped(f.queue, w));
    if AllowActivation(q.(focusIn := true, queued := w in f.queue)) then (popped.Active(w), Activated)
    else
      var (g, ok) := Restored(popped, env);
      if ok then (g, AttentionDemanded) else (g.Active(w), Activated)
  }

  /** A request that may change the focus goes to the modal of its window, any other to the window itself. */
  function Recipient(f: Focus, w: Window, env: FocusEnv): Window {
    if w in env.modal && (env.changeEnabled || f.active == Some(w)) then env.modal[w] else w
  }

  /** The request is made in earnest: it may change the focus, and its recipient does not decline it, or is forced. */
  predicate InEarnest(f: Focus, w: Window, force: bool, env: FocusEnv) {
    (env.changeEnabled || f.active == Some(w)) && (force || Recipient(f, w, env) !in env.declining)
  }

  /** What comes of a request: when its recipient is queued, when the queue is cleared instead, when the recipient becomes
      active at once, and when the request succeeds. */
  lemma AskedExactly(f: Focus, w: Window, force: bool, env: FocusEnv)
    ensures var (g, ok) := Asked(f, w, force, env);
            var v, earnest := Recipient(f, w, env), InEarnest(f, w, force, env);
            (earnest && v in env.shown && v !in env.shaded && v !in env.failing ==> g == f.(queue := f.queue + [v])) &&
            (earnest && v in env.shaded && v in env.wantsInput ==>
               g.active == g.last == Some(v) && g.queue == (if f.nullFocus then [] else f.queue)) &&
            (!earnest || (v !in env.shaded && (v !in env.shown || v in env.failing)) || (v in env.shaded && v !in env.wantsInput) ==>
               g == f) &&
            (ok <==> v in env.shown && (earnest && v !in env.shaded ==> v !in env.failing)) && g.nullFocus == f.nullFocus
  {
  }

  /** The window may get the focus by a plain request. */
  predicate Plain(w: Window, env: FocusEnv) {
    env.changeEnabled && w !in env.modal && w !in env.declining && w in env.shown && w !in env.shaded && w !in env.failing
  }

  /** A refused FocusIn asks again for the latest request, not for an older one, and without any for the last active
      window; attention is then demanded, and the active window stays. */
  lemma LatestIsAskedAgain(f: Focus, w: Window, q: Query, env: FocusEnv)
    requires !AllowActivation(q.(focusIn := true, queued := w in f.queue))
    ensures f.queue != [] && Plain(f.queue[|f.queue| - 1], env) ==>
              FocusedIn(f, w, q, env) == (f.(queue := f.queue + [f.queue[|f.queue| - 1]]), AttentionDemanded)
    ensures f.queue == [] && f.last.Some? && Plain(f.last.value, env) ==>
              FocusedIn(f, w, q, env) == (f.(queue := [f.last.value]), AttentionDemanded)
    ensures f.queue == [] && f.last == None ==> FocusedIn(f, w, q, env) == (f, AttentionDemanded)
  {
    QueuedIsAllowed(q.(focusIn := true, queued := true));
    assert w !in f.queue;
    assert f.last.Some? ==> [] + [f.last.value] == [f.last.value];
  }

  /** An allowed FocusIn makes its window the active one; a refused one does so only if the focus cannot be restored. */
  lemma ActivatedExactly(f: Focus, w: Window, q: Query, env: FocusEnv)
    ensures var (g, outcome) := FocusedIn(f, w, q, env);
            var allowed := AllowActivation(q.(focusIn := true, queued := w in f.queue));
            (outcome == Activated <==> allowed || !Restored(f, env).1) && outcome != Ignored &&
            (outcome == Activated ==> g.active == g.last == Some(w)) &&
            (allowed ==> g.queue == Popped(f.queue, w) && g.nullFocus == f.nullFocus)
  {
    QueuedIsAllowed(q.(focusIn := true, queued := true));
  }

  /** A window that gets the focus against the rules removes no request: the earlier ones stay queued in their order,
      at most a new one follows, unless the focus went to the null window because the one to restore is shaded. */
  lemma RefusedKeepsRequests(f: Focus, w: Window, q: Query, env: FocusEnv)
    requires !AllowActivation(q.(focusIn := true, queued := w in f.queue))
    ensures var g := FocusedIn(f, w, q, env).0;
            g.queue == f.queue || (exists v :: v !in env.shaded && g.queue == f.queue + [v]) ||
            (f.nullFocus && g.queue == [] && env.shaded != {})
    ensures w !in f.queue
  {
    QueuedIsAllowed(q.(focusIn := true, queued := true));
    var g := FocusedIn(f, w, q, env).0;
    if f.queue != [] || f.last.Some? {
      var asked := if f.queue != [] then f.queue[|f.queue| - 1] else f.last.value;
      var may := env.changeEnabled || f.active == Some(asked);
      var v := if may && asked in env.modal then env.modal[asked] else asked;
      assert v in env.shaded || g.queue == f.queue || g.queue == f.queue + [v];
    }
  }

  class Workspace {
    /** The windows whose FocusIn is awaited; the last one is the most recent request. */
    var shouldGetFocus: seq<Window>
    var activeWindow: Option<Window>
    var lastActiveWindow: Option<Window>
    /** The dummy window that holds the focus when no other does; it exists while there is an X11 connection. */
    var nullFocus: bool

    function State(): Focus
      reads this
    {
      Focus(shouldGetFocus, activeWindow, lastActiveWindow, nullFocus)
    }

    constructor (connected: bool)
      ensures State() == Focus([], None, None, connected)
    {
      shouldGetFocus, activeWindow, lastActiveWindow, nullFocus := [], None, None, connected;
    }

    method SetShouldGetFocus(window: Window)
      modifies this`shouldGetFocus
      ensures shouldGetFocus == old(shouldGetFocus) + [window]
    {
      shouldGetFocus := shouldGetFocus + [window];
    }

    method GotFocusIn(window: Window)
      modifies this`shouldGetFocus
      ensures shouldGetFocus == Popped(old(shouldGetFocus), window)
    {
      if window in shouldGetFocus {
        ghost var was, k := shouldGetFocus, IndexOf(shouldGetFocus, window);
        ghost var gone := 0;
        forall i | 0 <= i < k ensures was[i] != window {
          assert was[i] in was[..k];
        }
        while shouldGetFocus[0] != window
          invariant gone <= k && shouldGetFocus == was[gone..]
          decreases |shouldGetFocus|
        {
          assert was[gone] != window;
          shouldGetFocus := shouldGetFocus[1..];
          gone := gone + 1;
        }
        shouldGetFocus := shouldGetFocus[1..];
      }
    }

    /** The part of activateNextWindow that withdraws requests; `window` is None for a null pointer. */
    method WithdrawFocus(window: Option<Window>) returns (handled: bool)
      modifies this
      ensures handled == (window == old(activeWindow) ||
                          (old(shouldGetFocus) != [] && window == Some(old(shouldGetFocus)[|old(shouldGetFocus)| - 1])))
      ensures shouldGetFocus == if handled && window.Some? then Without(old(shouldGetFocus), window.value) else old(shouldGetFocus)
      ensures activeWindow == if handled && window == old(activeWindow) then None else old(activeWindow)
      ensures lastActiveWindow == old(lastActiveWindow)
    {
      if !(window == activeWindow || (|shouldGetFocus| > 0 && window == Some(shouldGetFocus[|shouldGetFocus| - 1]))) {
        return false;
      }
      if window.Some? {
        if window == activeWindow {
          activeWindow := None;
        }
        shouldGetFocus := Without(shouldGetFocus, window.value);
      }
      return true;
    }

    method FocusToNull()
      modifies this`shouldGetFocus
      ensures State() == old(State()).Nulled()
    {
      if nullFocus {
        shouldGetFocus := [];
      }
    }

    /** takeActivity, asked for the focus alone. */
    method RequestFocus(window: Window, force: bool, env: FocusEnv) returns (ok: bool)
      modifies this
      ensures (State(), ok) == Asked(old(State()), window, force, env)
    {
      var focus := true;
      var target := window;
      if !env.changeEnabled && Some(window) != activeWindow {
        focus := false;
      }
      if focus && window in env.modal && env.modal[window] != window {
        target := env.modal[window];
      }
      if !force && target in env.declining {
        focus := false;
      }
      if target in env.shaded {
        if target in env.wantsInput && focus {
          activeWindow, lastActiveWindow := Some(target), Some(target);
          FocusToNull();
        }
        focus := false;
      }
      if target !in env.shown {
        return false;
      }
      if focus {
        ok := TakeFocus(target, env);
      } else {
        ok := true;
      }
    }

    method TakeFocus(window: Window, env: FocusEnv) returns (ok: bool)
      modifies this`shouldGetFocus
      ensures ok == (window !in env.failing)
      ensures shouldGetFocus == if ok then old(shouldGetFocus) + [window] else old(shouldGetFocus)
    {
      if window in env.failing {
        return false;
      }
      SetShouldGetFocus(window);
      return true;
    }

    method RestoreFocus(env: FocusEnv) returns (ok: bool)
      modifies this
      ensures (State(), ok) == Restored(old(State()), env)
    {
      if |shouldGetFocus| > 0 {
        ok := RequestFocus(shouldGetFocus[|shouldGetFocus| - 1], false, env);
        return;
      } else if lastActiveWindow.Some? {
        ok := RequestFocus(lastActiveWindow.value, false, env);
        return;
      }
      return true;
    }

    /** X11Window::focusInEvent of `window`; `q` holds what the decision looks at apart from the queue. */
    method FocusIn(window: Window, e: FocusInEvent, shaded: bool, shown: bool, q: Query, env: FocusEnv) returns (outcome: Outcome)
      modifies this
      ensures !e.forClient || e.grabChange || e.pointerDetail || shaded || !shown || !q.onCurrentDesktop ==>
                outcome == Ignored && State() == old(State())
      ensures e.forClient && !e.grabChange && !e.pointerDetail && !shaded && shown && q.onCurrentDesktop ==>
                (State(), outcome) == FocusedIn(old(State()), window, q, env)
    {
      if !e.forClient {
        return Ignored;
      }
      if e.grabChange {
        return Ignored;
      }
      if e.pointerDetail {
        return Ignored;
      }
      if shaded || !shown || !q.onCurrentDesktop {
        return Ignored;
      }
      // the decision looks at the queue before the entry is removed
      var activate := AllowActivation(q.(focusIn := true, queued := window in shouldGetFocus));
      GotFocusIn(window);
      if activate {
        activeWindow, lastActiveWindow := Some(window), Some(window);
        return Activated;
      }
      var ok := RestoreFocus(env);
      if ok {
        return AttentionDemanded;
      }
      activeWindow, lastActiveWindow := Some(window), Some(window);
      return Activated;
    }
  }

  // ---------------------------------------------------------------------------
  // The protocol with the X server
  // ---------------------------------------------------------------------------

  /** A queued window with the number of the request that queued it. */
  datatype Entry = Entry(window: Window, serial: nat)

  /** KWin's queue, all requests ever issued, the first serial not yet passed over by a FocusIn, and the withdrawn serials. */
  datatype Net = Net(queue: seq<Entry>, issued: seq<Window>, next: nat, withdrawn: set<nat>) {
    /** Request `s` may still be answered. */
    predicate Awaited(s: nat) {
      next <= s < |issued| && s !in withdrawn
    }

    /** The queue is ordered by request, holds no withdrawn request, and still holds every awaited one. */
    ghost predicate Valid() {
      (forall i, j :: 0 <= i < j < |queue| ==> queue[i].serial < queue[j].serial) &&
      (forall i :: 0 <= i < |queue| ==>
         queue[i].serial < |issued| && queue[i].window == issued[queue[i].serial] && queue[i].serial !in withdrawn) &&
      (forall s: nat :: Awaited(s) ==> Entry(issued[s], s) in queue) &&
      (forall s: nat :: s in withdrawn ==> s < |issued|) && next <= |issued|
    }
  }

  const START := Net([], [], 0, {})

  predicate Queued(queue: seq<Entry>, w: Window) {
    exists i :: 0 <= i < |queue| && queue[i].window == w
  }

  /** How many leading entries a FocusIn of `w` removes. */
  function Drops(queue: seq<Entry>, w: Window): (n: nat)
    ensures n <= |queue| && (n == 0 <==> !Queued(queue, w))
    ensures n > 0 ==> queue[n - 1].window == w && forall i :: 0 <= i < n - 1 ==> queue[i].window != w
  {
    if queue == [] then 0
    else if queue[0].window == w then 1
    else
      assert forall i :: 0 < i < |queue| ==> queue[1..][i - 1] == queue[i];
      var n := Drops(queue[1..], w);
      if n == 0 then 0 else n + 1
  }

  function Answered(queue: seq<Entry>, w: Window): seq<Entry> {
    queue[Drops(queue, w)..]
  }

  function Windows(queue: seq<Entry>): seq<Window> {
    seq(|queue|, i requires 0 <= i < |queue| => queue[i].window)
  }

  /** On the numbered queue a FocusIn does what it does on KWin's own. */
  lemma AnsweredIsPopped(queue: seq<Entry>, w: Window)
    ensures Windows(Answered(queue, w)) == Popped(Windows(queue), w)
    ensures Queued(queue, w) <==> w in Windows(queue)
  {
    var ws, n := Windows(queue), Drops(queue, w);
    assert |ws| == |queue| && forall i :: 0 <= i < |ws| ==> ws[i] == queue[i].window;
    if w in ws {
      var k := IndexOf(ws, w);
      forall i | 0 <= i < k ensures queue[i].window != w {
        assert ws[i] in ws[..k];
      }
      assert queue[k].window == w;
      assert n - 1 == k;
    }
  }

  /** A FocusIn that answers a live request, one that does not, and what KWin does on its own. */
  datatype Step =
    | Request(window: Window)
    | Own(serial: nat, passes: bool)
    | Foreign(window: Window, passes: bool)
    | Withdraw(window: Window)
    | WithdrawAll

  predicate Legal(n: Net, st: Step) {
    st.Own? ==> n.Awaited(st.serial)
  }

  function SerialsOf(queue: seq<Entry>, w: Window): set<nat> {
    set i: nat | i < |queue| && queue[i].window == w :: queue[i].serial
  }

  function IsNot(w: Window): Entry -> bool {
    (e: Entry) => e.window != w
  }

  function After(n: Net, st: Step): Net {
    match st
    case Request(w) => n.(queue := n.queue + [Entry(w, |n.issued|)], issued := n.issued + [w])
    case Own(s, passes) =>
      n.(queue := if passes && s < |n.issued| then Answered(n.queue, n.issued[s]) else n.queue, next := s + 1)
    case Foreign(w, passes) => n.(queue := if passes then Answered(n.queue, w) else n.queue)
    case Withdraw(w) => n.(queue := Filter(n.queue, IsNot(w)), withdrawn := n.withdrawn + SerialsOf(n.queue, w))
    case WithdrawAll => n.(queue := [], withdrawn := n.withdrawn + set i: nat | i < |n.queue| :: n.queue[i].serial)
  }

  lemma {:induction false} WithdrawnWindows(queue: seq<Entry>, w: Window)
    ensures Windows(Filter(queue, IsNot(w))) == Without(Windows(queue), w)
  {
    if queue != [] {
      var t, e := queue[..|queue| - 1], queue[|queue| - 1];
      WithdrawnWindows(t, w);
      assert Windows(queue) == Windows(t) + [e.window];
      FilterSnoc(Windows(t), e.window, Differs(w));
    }
  }

  /** Every step does to the numbered queue what the workspace does to its own. */
  lemma StepIsWorkspace(n: Net, st: Step)
    requires Legal(n, st)
    ensures Windows(After(n, st).queue) ==
            match st
            case Request(w) => Windows(n.queue) + [w]
            case Own(s, passes) => if passes then Popped(Windows(n.queue), n.issued[s]) else Windows(n.queue)
            case Foreign(w, passes) => if passes then Popped(Windows(n.queue), w) else Windows(n.queue)
            case Withdraw(w) => Without(Windows(n.queue), w)
            case WithdrawAll => []
  {
    match st
    case Own(s, _) => AnsweredIsPopped(n.queue, n.issued[s]);
    case Foreign(w, _) => AnsweredIsPopped(n.queue, w);
    case Withdraw(w) => WithdrawnWindows(n.queue, w);
    case _ =>
  }

  /** A foreign FocusIn of `w` removes no awaited request; so it is when `w` is not queued. */
  predicate Harmless(n: Net, w: Window) {
    forall i :: 0 <= i < Drops(n.queue, w) ==> !n.Awaited(n.queue[i].serial)
  }

  lemma UnqueuedIsHarmless(n: Net, w: Window)
    requires !Queued(n.queue, w)
    ensures Harmless(n, w)
  {
  }

  lemma LaterEntryStays(queue: seq<Entry>, i: nat, j: nat)
    requires i < j < |queue|
    ensures queue[j] in Answered(queue, queue[i].window)
  {
    var k := Drops(queue, queue[i].window);
    assert k - 1 <= i;
    assert Answered(queue, queue[i].window)[j - k] == queue[j];
  }

  /** The answer to one request leaves the later awaited ones queued. */
  lemma AnswerKeepsAwaited(n: Net, s: nat, t: nat)
    requires n.Valid() && n.Awaited(s) && n.Awaited(t) && s < t
    ensures Entry(n.issued[t], t) in Answered(n.queue, n.issued[s])
  {
    hide Answered;
    var i :| 0 <= i < |n.queue| && n.queue[i] == Entry(n.issued[s], s);
    var j :| 0 <= j < |n.queue| && n.queue[j] == Entry(n.issued[t], t);
    assert i < j by {
      assert n.queue[i].serial < n.queue[j].serial;
    }
    LaterEntryStays(n.queue, i, j);
  }

  lemma SuffixValid(n: Net, k: nat, next: nat)
    requires n.Valid() && k <= |n.queue| && n.next <= next <= |n.issued|
    requires forall s: nat :: n.Awaited(s) && next <= s ==> Entry(n.issued[s], s) in n.queue[k..]
    ensures n.(queue := n.queue[k..], next := next).Valid()
  {
    var m := n.(queue := n.queue[k..], next := next);
    forall s: nat | m.Awaited(s) ensures Entry(m.issued[s], s) in m.queue {
      assert n.Awaited(s);
    }
  }

  lemma OwnKeepsValid(n: Net, s: nat, passes: bool)
    requires n.Valid() && n.Awaited(s)
    ensures After(n, Own(s, passes)).Valid()
  {
    var k := if passes then Drops(n.queue, n.issued[s]) else 0;
    assert After(n, Own(s, passes)) == n.(queue := n.queue[k..], next := s + 1);
    forall t: nat | n.Awaited(t) && s + 1 <= t ensures Entry(n.issued[t], t) in n.queue[k..] {
      if passes {
        AnswerKeepsAwaited(n, s, t);
      } else {
        assert Entry(n.issued[t], t) in n.queue;
      }
    }
    assert n.next <= s + 1 <= |n.issued|;
    hide Net.Valid, Answered, Drops, After;
    SuffixValid(n, k, s + 1);
  }

  lemma ForeignKeepsValid(n: Net, w: Window)
    requires n.Valid() && Harmless(n, w)
    ensures After(n, Foreign(w, true)).Valid()
  {
    var k := Drops(n.queue, w);
    forall s: nat | n.Awaited(s) && n.next <= s ensures Entry(n.issued[s], s) in n.queue[k..] {
      var i :| 0 <= i < |n.queue| && n.queue[i] == Entry(n.issued[s], s);
      assert n.queue[i].serial == s;
      assert i >= k;
      assert n.queue[k..][i - k] == n.queue[i];
    }
    SuffixValid(n, k, n.next);
  }

  lemma {:induction false} FilterOrdered(q: seq<Entry>, keep: Entry -> bool)
    requires forall i, j :: 0 <= i < j < |q| ==> q[i].serial < q[j].serial
    ensures var f := Filter(q, keep); forall i, j :: 0 <= i < j < |f| ==> f[i].serial < f[j].serial
  {
    if q != [] {
      var t, e := q[..|q| - 1], q[|q| - 1];
      FilterOrdered(t, keep);
      var f := Filter(t, keep);
      forall i | 0 <= i < |f| ensures f[i].serial < e.serial {
        FilterMember(t, keep, f[i]);
      }
    }
  }

  lemma WithdrawKeepsValid(n: Net, w: Window)
    requires n.Valid()
    ensures After(n, Withdraw(w)).Valid()
  {
    var m := After(n, Withdraw(w));
    FilterOrdered(n.queue, IsNot(w));
    forall i | 0 <= i < |m.queue|
      ensures m.queue[i].serial < |m.issued| && m.queue[i].window == m.issued[m.queue[i].serial] &&
              m.queue[i].serial !in m.withdrawn
    {
      FilterMember(n.queue, IsNot(w), m.queue[i]);
      var k :| 0 <= k < |n.queue| && n.queue[k] == m.queue[i];
    }
    forall s: nat | m.Awaited(s) ensures Entry(m.issued[s], s) in m.queue {
      assert n.Awaited(s);
      var k :| 0 <= k < |n.queue| && n.queue[k] == Entry(n.issued[s], s);
      assert n.queue[k].window == w ==> s in SerialsOf(n.queue, w);
      FilterMember(n.queue, IsNot(w), n.queue[k]);
    }
  }

  lemma RequestKeepsValid(n: Net, w: Window)
    requires n.Valid()
    ensures After(n, Request(w)).Valid()
  {
    var m := After(n, Request(w));
    forall s: nat | m.Awaited(s) ensures Entry(m.issued[s], s) in m.queue {
      if s < |n.issued| {
        assert n.Awaited(s);
      } else {
        assert m.queue[|n.queue|] == Entry(w, s);
      }
    }
  }

  lemma WithdrawAllKeepsValid(n: Net)
    requires n.Valid()
    ensures After(n, WithdrawAll).Valid()
  {
    var m := After(n, WithdrawAll);
    forall s: nat ensures !m.Awaited(s) {
      if n.Awaited(s) {
        var k :| 0 <= k < |n.queue| && n.queue[k] == Entry(n.issued[s], s);
        assert n.queue[k].serial in m.withdrawn;
      }
    }
  }

  /** Every foreign FocusIn that gets through is harmless. */
  predicate Safe(n: Net, st: Step) {
    st.Foreign? && st.passes ==> Harmless(n, st.window)
  }

  lemma StepKeepsValid(n: Net, st: Step)
    requires n.Valid() && Legal(n, st) && Safe(n, st)
    ensures After(n, st).Valid()
  {
    match st
    case Request(w) => RequestKeepsValid(n, w);
    case Own(s, passes) => OwnKeepsValid(n, s, passes);
    case Foreign(w, passes) =>
      if passes {
        ForeignKeepsValid(n, w);
      }
    case Withdraw(w) => WithdrawKeepsValid(n, w);
    case WithdrawAll => WithdrawAllKeepsValid(n);
  }

  function Run(steps: seq<Step>): Net {
    if steps == [] then START else After(Run(steps[..|steps| - 1]), steps[|steps| - 1])
  }

  /** FocusIns for live requests arrive in the order of the requests; foreign ones are harmless. */
  predicate OrderlyRun(steps: seq<Step>) {
    steps != [] ==>
      OrderlyRun(steps[..|steps| - 1]) &&
      Legal(Run(steps[..|steps| - 1]), steps[|steps| - 1]) && Safe(Run(steps[..|steps| - 1]), steps[|steps| - 1])
  }

  lemma {:induction false} RunValid(steps: seq<Step>)
    requires OrderlyRun(steps)
    ensures Run(steps).Valid()
  {
    if steps != [] {
      RunValid(steps[..|steps| - 1]);
      StepKeepsValid(Run(steps[..|steps| - 1]), steps[|steps| - 1]);
    }
  }

  /** In every orderly run KWin finds its own request in the queue when the answer arrives, and activates the window. */
  lemma OwnFocusRecognised(steps: seq<Step>, serial: nat, q: Query)
    requires OrderlyRun(steps) && Run(steps).Awaited(serial)
    ensures var n := Run(steps);
            n.issued[serial] in Windows(n.queue) &&
            AllowActivation(q.(focusIn := true, queued := n.issued[serial] in Windows(n.queue)))
  {
    RunValid(steps);
    var n := Run(steps);
    var i :| 0 <= i < |n.queue| && n.queue[i] == Entry(n.issued[serial], serial);
    assert Windows(n.queue)[i] == n.issued[serial];
    QueuedIsAllowed(q.(focusIn := true, queued := true));
  }

  // ---------------------------------------------------------------------------
  // Which foreign FocusIns do harm
  // ---------------------------------------------------------------------------

  /** Answers to live requests, in order, all getting through. */
  predicate Deliverable(n: Net, serials: seq<nat>)
    decreases |serials|
  {
    serials != [] ==> n.Awaited(serials[0]) && Deliverable(After(n, Own(serials[0], true)), serials[1..])
  }

  predicate AllRecognised(n: Net, serials: seq<nat>)
    requires Deliverable(n, serials)
    decreases |serials|
  {
    serials != [] ==>
      Queued(n.queue, n.issued[serials[0]]) && AllRecognised(After(n, Own(serials[0], true)), serials[1..])
  }

  lemma {:induction false} ValidRecognises(n: Net, serials: seq<nat>)
    requires n.Valid() && Deliverable(n, serials)
    ensures AllRecognised(n, serials)
    decreases |serials|
  {
    if serials != [] {
      var s := serials[0];
      var i :| 0 <= i < |n.queue| && n.queue[i] == Entry(n.issued[s], s);
      assert n.queue[i].window == n.issued[s];
      OwnKeepsValid(n, s, true);
      ValidRecognises(After(n, Own(s, true)), serials[1..]);
    }
  }

  function Count(queue: seq<Entry>, w: Window): nat {
    if queue == [] then 0 else (if queue[0].window == w then 1 else 0) + Count(queue[1..], w)
  }

  /** Live requests for `w` from serial `from` on. */
  function Requests(issued: seq<Window>, withdrawn: set<nat>, from: nat, w: Window): nat
    decreases |issued| - from
  {
    if from >= |issued| then 0
    else (if from !in withdrawn && issued[from] == w then 1 else 0) + Requests(issued, withdrawn, from + 1, w)
  }

  lemma {:induction false} RequestsFewer(issued: seq<Window>, withdrawn: set<nat>, lo: nat, hi: nat, w: Window)
    requires lo <= hi
    ensures Requests(issued, withdrawn, lo, w) >= Requests(issued, withdrawn, hi, w)
    decreases hi - lo
  {
    if lo < hi {
      RequestsFewer(issued, withdrawn, lo + 1, hi, w);
    }
  }

  /** An ordered queue of live requests has no more entries for `w` than there are such requests. */
  lemma {:induction false} CountBound(queue: seq<Entry>, issued: seq<Window>, withdrawn: set<nat>, lo: nat, w: Window)
    requires forall i, j :: 0 <= i < j < |queue| ==> queue[i].serial < queue[j].serial
    requires forall i :: 0 <= i < |queue| ==>
               lo <= queue[i].serial < |issued| && queue[i].window == issued[queue[i].serial] && queue[i].serial !in withdrawn
    ensures Count(queue, w) <= Requests(issued, withdrawn, lo, w)
    decreases |queue|
  {
    if queue != [] {
      var s := queue[0].serial;
      forall i | 0 <= i < |queue[1..]| ensures queue[1..][i] == queue[i + 1] {
      }
      CountBound(queue[1..], issued, withdrawn, s + 1, w);
      RequestsFewer(issued, withdrawn, lo, s, w);
    }
  }

  /** A FocusIn of a queued window uses up one entry of it. */
  lemma {:induction false} AnswerUsesOne(queue: seq<Entry>, w: Window)
    requires Queued(queue, w)
    ensures Count(Answered(queue, w), w) == Count(queue, w) - 1
  {
    if queue[0].window == w {
      assert Answered(queue, w) == queue[1..];
    } else {
      assert Queued(queue[1..], w) by {
        var i :| 0 <= i < |queue| && queue[i].window == w;
        assert queue[1..][i - 1] == queue[i];
      }
      AnswerUsesOne(queue[1..], w);
      assert Answered(queue, w) == Answered(queue[1..], w);
    }
  }

  /** With fewer entries than live requests some answer will not be recognised. */
  lemma {:induction false} Starve(n: Net, from: nat, w: Window) returns (serials: seq<nat>)
    requires n.next <= from && Count(n.queue, w) < Requests(n.issued, n.withdrawn, from, w)
    ensures Deliverable(n, serials) && !AllRecognised(n, serials)
    decreases |n.issued| - from
  {
    if from in n.withdrawn || n.issued[from] != w {
      serials := Starve(n, from + 1, w);
    } else if !Queued(n.queue, w) {
      serials := [from];
    } else {
      AnswerUsesOne(n.queue, w);
      var rest := Starve(After(n, Own(from, true)), from + 1, w);
      serials := [from] + rest;
      assert serials[1..] == rest;
    }
  }

  lemma CountSuffix(n: Net, k: nat, s: nat, w: Window)
    requires n.Valid() && k <= |n.queue| && forall i :: k <= i < |n.queue| ==> n.queue[i].serial > s
    ensures Count(n.queue[k..], w) <= Requests(n.issued, n.withdrawn, s + 1, w)
  {
    var q := n.queue[k..];
    assert forall i :: 0 <= i < |q| ==> q[i] == n.queue[i + k];
    CountBound(q, n.issued, n.withdrawn, s + 1, w);
  }

  /** A foreign FocusIn that removes an awaited request makes a later answer go unrecognised. */
  lemma HarmDone(n: Net, w: Window) returns (serials: seq<nat>)
    requires n.Valid() && !Harmless(n, w)
    ensures Deliverable(After(n, Foreign(w, true)), serials) && !AllRecognised(After(n, Foreign(w, true)), serials)
  {
    var k := Drops(n.queue, w);
    var i :| 0 <= i < k && n.Awaited(n.queue[i].serial);
    var s, v := n.queue[i].serial, n.queue[i].window;
    CountSuffix(n, k, s, v);
    RequestsFewer(n.issued, n.withdrawn, n.next, s, v);
    assert Requests(n.issued, n.withdrawn, s, v) == 1 + Requests(n.issued, n.withdrawn, s + 1, v);
    hide Requests, Count, Drops, Net.Valid;
    serials := Starve(After(n, Foreign(w, true)), n.next, v);
  }

  /** A foreign FocusIn leaves all of KWin's own focus changes recognisable exactly when it removes no awaited request. */
  lemma HarmlessExactly(n: Net, w: Window)
    requires n.Valid()
    ensures Harmless(n, w) <==>
            forall serials: seq<nat> | Deliverable(After(n, Foreign(w, true)), serials) ::
              AllRecognised(After(n, Foreign(w, true)), serials)
  {
    var m := After(n, Foreign(w, true));
    if Harmless(n, w) {
      ForeignKeepsValid(n, w);
      forall serials: seq<nat> | Deliverable(m, serials) ensures AllRecognised(m, serials) {
        ValidRecognises(m, serials);
      }
    } else {
      var serials := HarmDone(n, w);
    }
  }

  lemma RunSnoc(steps: seq<Step>, st: Step)
    ensures Run(steps + [st]) == After(Run(steps), st)
    ensures OrderlyRun(steps + [st]) <==> OrderlyRun(steps) && Legal(Run(steps), st) && Safe(Run(steps), st)
  {
    assert (steps + [st])[..|steps|] == steps;
  }

  /** Withdrawing a request and issuing it anew lets the late answer to the first one do harm: it takes other requests along. */
  lemma LateAnswerDoesHarm(a: Window, b: Window)
    requires a != b
    ensures var steps := [Request(a)] + [Withdraw(a)] + [Request(b)] + [Request(a)];
            OrderlyRun(steps) && Run(steps).Awaited(1) && Run(steps).issued[1] == b &&
            !Harmless(Run(steps), a) && !Queued(After(Run(steps), Foreign(a, true)).queue, b)
  {
    RunSnoc([], Request(a));
    assert [] + [Request(a)] == [Request(a)];
    RunSnoc([Request(a)], Withdraw(a));
    RunSnoc([Request(a)] + [Withdraw(a)], Request(b));
    RunSnoc([Request(a)] + [Withdraw(a)] + [Request(b)], Request(a));
    var n := Run([Request(a)] + [Withdraw(a)]);
    var one := [Entry(a, 0)];
    assert Run([Request(a)]).queue == one;
    assert n.queue == [] by {
      FilterNone(one, IsNot(a));
    }
    assert n.withdrawn == {0} by {
      assert one[0].window == a;
      assert SerialsOf(one, a) == {0};
    }
    var q := [Entry(b, 1), Entry(a, 2)];
    assert Run([Request(a)] + [Withdraw(a)] + [Request(b)] + [Request(a)]).queue == q;
    assert q[1..] == [Entry(a, 2)];
    assert Drops(q, a) == 2;
    assert q[0].serial == 1;
  }
}
