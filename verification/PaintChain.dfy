/** The chain of effects that paints the screen, its windows and their contents, driven by three shared iterators. */
module PaintChain {
  import opened Sequences

  type Window = nat

  /** The three paint functions; each has an iterator of its own. */
  datatype Level = Screen | PaintWindow | DrawWindow {
    function Rank(): nat {
      match this
      case Screen => 0
      case PaintWindow => 1
      case DrawWindow => 2
    }
  }

  /** What an effect does inside a paint function: own work, passing on, calling any paint function, or having a window
      rendered without the chain. */
  datatype Action =
    | Work(tag: nat)
    | Forward
    | Call(level: Level, window: Window)
    | Render(window: Window)

  /** An effect's three overridden paint functions; what the last two do depends on the window. */
  datatype Effect = Effect(
    id: nat, active: bool, paintScreen: seq<Action>, paintWindow: Window -> seq<Action>, drawWindow: Window -> seq<Action>)
  {
    function Script(level: Level, w: Window): seq<Action> {
      match level
      case Screen => paintScreen
      case PaintWindow => paintWindow(w)
      case DrawWindow => drawWindow(w)
    }
  }

  datatype Event =
    | Enter(effect: nat, level: Level, window: Window)
    | Did(effect: nat, tag: nat)
    | Leave(effect: nat, level: Level)
    | ScreenPainted
    | Rendered(window: Window)

  datatype Iterators = Iterators(screen: nat, window: nat, draw: nat) {
    function At(level: Level): nat {
      match level
      case Screen => screen
      case PaintWindow => window
      case DrawWindow => draw
    }

    function Advanced(level: Level): Iterators {
      match level
      case Screen => this.(screen := screen + 1)
      case PaintWindow => this.(window := window + 1)
      case DrawWindow => this.(draw := draw + 1)
    }

    predicate Within(n: nat) {
      screen <= n && window <= n && draw <= n
    }

    /** How many steps the iterators still have ahead. */
    function Ahead(n: nat): nat
      requires Within(n)
    {
      (n - screen) + (n - window) + (n - draw)
    }
  }

  const BEGIN := Iterators(0, 0, 0)

  /** What stays fixed during a pass: the active effects and the windows the scene paints. */
  datatype Pass = Pass(effects: seq<Effect>, scene: seq<Window>)

  // ---------------------------------------------------------------------------
  // The specified trace
  // ---------------------------------------------------------------------------

  /** The events of one paint function call, with the iterators passed by value; the whole screen counts as window 0. */
  function Trace(p: Pass, its: Iterators, level: Level, w: Window): seq<Event>
    requires its.Within(|p.effects|) && (level == Screen ==> w == 0)
    decreases its.Ahead(|p.effects|), 3 - level.Rank(), 0
  {
    if its.At(level) < |p.effects| then
      var e := p.effects[its.At(level)];
      [Enter(e.id, level, w)] + ScriptTrace(p, its.Advanced(level), level, w, e.id, e.Script(level, w)) + [Leave(e.id, level)]
    else
      match level
      case Screen => [ScreenPainted] + SceneTrace(p, its, p.scene)
      case PaintWindow => Trace(p, its, DrawWindow, w)
      case DrawWindow => [Rendered(w)]
  }

  function ActionTrace(p: Pass, its: Iterators, level: Level, w: Window, id: nat, a: Action): seq<Event>
    requires its.Within(|p.effects|) && (level == Screen ==> w == 0)
    decreases its.Ahead(|p.effects|), 4, 0
  {
    match a
    case Work(tag) => [Did(id, tag)]
    case Forward => Trace(p, its, level, w)
    case Call(l, v) => Trace(p, its, l, if l == Screen then 0 else v)
    case Render(v) => [Rendered(v)]
  }

  function ScriptTrace(p: Pass, its: Iterators, level: Level, w: Window, id: nat, script: seq<Action>): seq<Event>
    requires its.Within(|p.effects|) && (level == Screen ==> w == 0)
    decreases its.Ahead(|p.effects|), 5, |script|
  {
    if script == [] then []
    else
      ScriptTrace(p, its, level, w, id, script[..|script| - 1]) + ActionTrace(p, its, level, w, id, script[|script| - 1])
  }

  function SceneTrace(p: Pass, its: Iterators, ws: seq<Window>): seq<Event>
    requires its.Within(|p.effects|)
    decreases its.Ahead(|p.effects|), 2, 1 + |ws|
  {
    if ws == [] then []
    else SceneTrace(p, its, ws[..|ws| - 1]) + Trace(p, its, PaintWindow, ws[|ws| - 1])
  }

  // ---------------------------------------------------------------------------
  // The handler
  // ---------------------------------------------------------------------------

  function IsActive(): Effect -> bool {
    (e: Effect) => e.active
  }

  class EffectsHandler {
    var loadedEffects: seq<Effect>
    var activeEffects: seq<Effect>
    var currentPaintScreenIterator: nat
    var currentPaintWindowIterator: nat
    var currentDrawWindowIterator: nat
    /** The windows that the scene's final screen painter hands to paintWindow. */
    var sceneWindows: seq<Window>
    ghost var log: seq<Event>

    ghost function Its(): Iterators
      reads this
    {
      Iterators(currentPaintScreenIterator, currentPaintWindowIterator, currentDrawWindowIterator)
    }

    ghost function ThePass(): Pass
      reads this
    {
      Pass(activeEffects, sceneWindows)
    }

    ghost predicate Valid()
      reads this
    {
      Its().Within(|activeEffects|)
    }

    /** Another painting pass: only active effects take part, and all iterators are at the beginning. */
    method StartPaint()
      modifies this
      ensures Valid() && activeEffects == Filter(loadedEffects, IsActive()) && Its() == BEGIN
      ensures loadedEffects == old(loadedEffects) && sceneWindows == old(sceneWindows) && log == old(log)
    {
      activeEffects := [];
      for i := 0 to |loadedEffects|
        invariant loadedEffects == old(loadedEffects)
        invariant activeEffects == Filter(loadedEffects[..i], IsActive())
        invariant sceneWindows == old(sceneWindows) && log == old(log)
      {
        FilterPrefix(loadedEffects, i, IsActive());
        if loadedEffects[i].active {
          activeEffects := activeEffects + [loadedEffects[i]];
        }
      }
      assert loadedEffects[..|loadedEffects|] == loadedEffects;
      currentDrawWindowIterator, currentPaintWindowIterator, currentPaintScreenIterator := 0, 0, 0;
    }

    method PaintScreen()
      requires Valid()
      modifies this
      ensures ThePass() == old(ThePass()) && Its() == old(Its()) && loadedEffects == old(loadedEffects)
      ensures log == old(log) + Trace(old(ThePass()), old(Its()), Screen, 0)
      decreases Its().Ahead(|activeEffects|), 3 - Screen.Rank(), 0
    {
      if currentPaintScreenIterator != |activeEffects| {
        var effect := activeEffects[currentPaintScreenIterator];
        currentPaintScreenIterator := currentPaintScreenIterator + 1;
        CallEffect(effect, Screen, 0);
        currentPaintScreenIterator := currentPaintScreenIterator - 1;
      } else {
        FinalPaintScreen();
      }
    }

    method PaintWindowOf(w: Window)
      requires Valid()
      modifies this
      ensures ThePass() == old(ThePass()) && Its() == old(Its()) && loadedEffects == old(loadedEffects)
      ensures log == old(log) + Trace(old(ThePass()), old(Its()), PaintWindow, w)
      decreases Its().Ahead(|activeEffects|), 3 - PaintWindow.Rank(), 0
    {
      if currentPaintWindowIterator != |activeEffects| {
        var effect := activeEffects[currentPaintWindowIterator];
        currentPaintWindowIterator := currentPaintWindowIterator + 1;
        CallEffect(effect, PaintWindow, w);
        currentPaintWindowIterator := currentPaintWindowIterator - 1;
      } else {
        // the scene's final window painter
        DrawWindowOf(w);
      }
    }

    method DrawWindowOf(w: Window)
      requires Valid()
      modifies this
      ensures ThePass() == old(ThePass()) && Its() == old(Its()) && loadedEffects == old(loadedEffects)
      ensures log == old(log) + Trace(old(ThePass()), old(Its()), DrawWindow, w)
      decreases Its().Ahead(|activeEffects|), 3 - DrawWindow.Rank(), 0
    {
      if currentDrawWindowIterator != |activeEffects| {
        var effect := activeEffects[currentDrawWindowIterator];
        currentDrawWindowIterator := currentDrawWindowIterator + 1;
        CallEffect(effect, DrawWindow, w);
        currentDrawWindowIterator := currentDrawWindowIterator - 1;
      } else {
        RenderWindow(w);
      }
    }

    /** The scene's final painter of a window's contents, which effects may also call directly. */
    method RenderWindow(w: Window)
      modifies this`log
      ensures log == old(log) + [Rendered(w)]
    {
      log := log + [Rendered(w)];
    }

    /** The scene's final screen painter: every window in stacking order. */
    method FinalPaintScreen()
      requires Valid()
      modifies this
      ensures ThePass() == old(ThePass()) && Its() == old(Its()) && loadedEffects == old(loadedEffects)
      ensures log == old(log) + [ScreenPainted] + SceneTrace(old(ThePass()), old(Its()), old(sceneWindows))
      decreases Its().Ahead(|activeEffects|), 2, 1 + |sceneWindows|
    {
      log := log + [ScreenPainted];
      ghost var before := log;
      for i := 0 to |sceneWindows|
        invariant ThePass() == old(ThePass()) && Its() == old(Its()) && loadedEffects == old(loadedEffects)
        invariant log == before + SceneTrace(ThePass(), Its(), sceneWindows[..i])
      {
        assert sceneWindows[..i + 1][..i] == sceneWindows[..i];
        PaintWindowOf(sceneWindows[i]);
      }
      assert sceneWindows[..|sceneWindows|] == sceneWindows;
    }

    /** An effect's paint function. */
    method CallEffect(effect: Effect, level: Level, w: Window)
      requires Valid() && (level == Screen ==> w == 0)
      modifies this
      ensures ThePass() == old(ThePass()) && Its() == old(Its()) && loadedEffects == old(loadedEffects)
      ensures log == old(log) + [Enter(effect.id, level, w)]
                     + ScriptTrace(old(ThePass()), old(Its()), level, w, effect.id, effect.Script(level, w))
                     + [Leave(effect.id, level)]
      decreases Its().Ahead(|activeEffects|), 5, |effect.Script(level, w)|
    {
      hide Trace, ActionTrace, ScriptTrace;
      log := log + [Enter(effect.id, level, w)];
      ghost var before := log;
      var script := effect.Script(level, w);
      NoScript(ThePass(), Its(), level, w, effect.id);
      for i := 0 to |script|
        invariant ThePass() == old(ThePass()) && Its() == old(Its()) && loadedEffects == old(loadedEffects)
        invariant log == before + ScriptTrace(ThePass(), Its(), level, w, effect.id, script[..i])
      {
        ScriptStep(ThePass(), Its(), level, w, effect.id, script, i);
        PerformAction(effect.id, level, w, script[i]);
      }
      assert script[..|script|] == script;
      log := log + [Leave(effect.id, level)];
    }

    method PerformAction(id: nat, level: Level, w: Window, a: Action)
      requires Valid() && (level == Screen ==> w == 0)
      modifies this
      ensures ThePass() == old(ThePass()) && Its() == old(Its()) && loadedEffects == old(loadedEffects)
      ensures log == old(log) + ActionTrace(old(ThePass()), old(Its()), level, w, id, a)
      decreases Its().Ahead(|activeEffects|), 4, 1
    {
      match a {
        case Work(tag) => log := log + [Did(id, tag)];
        case Forward => Paint(level, w);
        case Call(l, v) => Paint(l, v);
        case Render(v) => RenderWindow(v);
      }
    }

    method Paint(level: Level, w: Window)
      requires Valid()
      modifies this
      ensures ThePass() == old(ThePass()) && Its() == old(Its()) && loadedEffects == old(loadedEffects)
      ensures log == old(log) + Trace(old(ThePass()), old(Its()), level, if level == Screen then 0 else w)
      decreases Its().Ahead(|activeEffects|), 4, 0
    {
      match level {
        case Screen => PaintScreen();
        case PaintWindow => PaintWindowOf(w);
        case DrawWindow => DrawWindowOf(w);
      }
    }
  }

  lemma NoScript(p: Pass, its: Iterators, level: Level, w: Window, id: nat)
    requires its.Within(|p.effects|) && (level == Screen ==> w == 0)
    ensures ScriptTrace(p, its, level, w, id, []) == []
  {
  }

  lemma ScriptStep(p: Pass, its: Iterators, level: Level, w: Window, id: nat, script: seq<Action>, i: nat)
    requires its.Within(|p.effects|) && (level == Screen ==> w == 0) && i < |script|
    ensures ScriptTrace(p, its, level, w, id, script[..i + 1]) ==
            ScriptTrace(p, its, level, w, id, script[..i]) + ActionTrace(p, its, level, w, id, script[i])
  {
    assert script[..i + 1][..i] == script[..i];
  }

  // ---------------------------------------------------------------------------
  // What the final painters do
  // ---------------------------------------------------------------------------

  /** The calls of the final painters in a trace, in order. */
  function Finals(t: seq<Event>): seq<Event> {
    if t == [] then []
    else if IsFinal(t[|t| - 1]) then Finals(t[..|t| - 1]) + [t[|t| - 1]]
    else Finals(t[..|t| - 1])
  }

  predicate IsFinal(e: Event) {
    e.ScreenPainted? || e.Rendered?
  }

  lemma {:induction false} FinalsAppend(a: seq<Event>, b: seq<Event>)
    ensures Finals(a + b) == Finals(a) + Finals(b)
  {
    if b == [] {
      assert a + b == a;
    } else {
      assert (a + b)[..|a + b| - 1] == a + b[..|b| - 1];
      FinalsAppend(a, b[..|b| - 1]);
    }
  }

  /** An effect that only works and passes on. */
  predicate OnlyForwards(script: seq<Action>) {
    forall i :: 0 <= i < |script| ==> script[i].Work? || script[i].Forward?
  }

  ghost predicate OnlyForwarding(effects: seq<Effect>) {
    forall i, level, w :: 0 <= i < |effects| ==> OnlyForwards(effects[i].Script(level, w))
  }

  /** How often a script passes on. */
  function Forwards(script: seq<Action>): nat {
    if script == [] then 0
    else Forwards(script[..|script| - 1]) + (if script[|script| - 1].Forward? then 1 else 0)
  }

  function Times(n: nat, es: seq<Event>): seq<Event> {
    if n == 0 then [] else Times(n - 1, es) + es
  }

  /** `es` as often as the effects from position `i` on, each repeating the next one's work for `w`, bring it about. */
  function Repeated(effects: seq<Effect>, level: Level, w: Window, i: nat, es: seq<Event>): seq<Event>
    requires i <= |effects|
    decreases |effects| - i
  {
    if i == |effects| then es
    else Times(Forwards(effects[i].Script(level, w)), Repeated(effects, level, w, i + 1, es))
  }

  /** One window, through both window chains. */
  function WindowFinals(effects: seq<Effect>, its: Iterators, w: Window): seq<Event>
    requires its.Within(|effects|)
  {
    Repeated(effects, PaintWindow, w, its.window, Repeated(effects, DrawWindow, w, its.draw, [Rendered(w)]))
  }

  function SceneFinals(effects: seq<Effect>, its: Iterators, ws: seq<Window>): seq<Event>
    requires its.Within(|effects|)
  {
    if ws == [] then []
    else SceneFinals(effects, its, ws[..|ws| - 1]) + WindowFinals(effects, its, ws[|ws| - 1])
  }

  /** What a call at a level makes the final painters do. */
  function LevelFinals(p: Pass, its: Iterators, level: Level, w: Window): seq<Event>
    requires its.Within(|p.effects|)
  {
    match level
    case Screen => Repeated(p.effects, Screen, w, its.screen, [ScreenPainted] + SceneFinals(p.effects, its, p.scene))
    case PaintWindow => WindowFinals(p.effects, its, w)
    case DrawWindow => Repeated(p.effects, DrawWindow, w, its.draw, [Rendered(w)])
  }

  lemma {:induction false} SceneIgnoresScreen(effects: seq<Effect>, its: Iterators, ws: seq<Window>)
    requires its.screen < |effects| && its.Within(|effects|)
    ensures SceneFinals(effects, its.Advanced(Screen), ws) == SceneFinals(effects, its, ws)
  {
    if ws != [] {
      SceneIgnoresScreen(effects, its, ws[..|ws| - 1]);
    }
  }

  /** Passing an effect: the rest of the chain is repeated as often as it forwards. */
  lemma LevelUnfold(p: Pass, its: Iterators, level: Level, w: Window)
    requires its.Within(|p.effects|) && its.At(level) < |p.effects|
    ensures its.Advanced(level).Within(|p.effects|)
    ensures LevelFinals(p, its, level, w) ==
            Times(Forwards(p.effects[its.At(level)].Script(level, w)), LevelFinals(p, its.Advanced(level), level, w))
  {
    if level == Screen {
      SceneIgnoresScreen(p.effects, its, p.scene);
    }
  }

  lemma {:induction false} ScriptFinals(p: Pass, its: Iterators, level: Level, w: Window, id: nat, script: seq<Action>)
    requires its.Within(|p.effects|) && (level == Screen ==> w == 0)
    requires OnlyForwarding(p.effects) && OnlyForwards(script)
    ensures Finals(ScriptTrace(p, its, level, w, id, script)) == Times(Forwards(script), LevelFinals(p, its, level, w))
    decreases its.Ahead(|p.effects|), 5, |script|
  {
    if script != [] {
      var rest, a := script[..|script| - 1], script[|script| - 1];
      ScriptFinals(p, its, level, w, id, rest);
      ActionFinals(p, its, level, w, id, a);
      hide LevelFinals, Trace, ActionTrace, Finals, OnlyForwarding, Repeated;
      FinalsAppend(ScriptTrace(p, its, level, w, id, rest), ActionTrace(p, its, level, w, id, a));
    }
  }

  lemma {:induction false} ActionFinals(p: Pass, its: Iterators, level: Level, w: Window, id: nat, a: Action)
    requires its.Within(|p.effects|) && (level == Screen ==> w == 0)
    requires OnlyForwarding(p.effects) && (a.Work? || a.Forward?)
    ensures Finals(ActionTrace(p, its, level, w, id, a)) == if a.Forward? then LevelFinals(p, its, level, w) else []
    decreases its.Ahead(|p.effects|), 4, 0
  {
    if a.Forward? {
      TraceFinals(p, its, level, w);
    } else {
      FinalsOne(Did(id, a.tag));
    }
  }

  /** An effect that calls a paint function runs that function's chain behind its iterator; a direct rendering runs no chain. */
  lemma CalledFinals(p: Pass, its: Iterators, level: Level, w: Window, id: nat, l: Level, v: Window)
    requires its.Within(|p.effects|) && (level == Screen ==> w == 0) && OnlyForwarding(p.effects)
    ensures Finals(ActionTrace(p, its, level, w, id, Call(l, v))) == LevelFinals(p, its, l, if l == Screen then 0 else v)
    ensures ActionTrace(p, its, level, w, id, Render(v)) == [Rendered(v)]
  {
    TraceFinals(p, its, l, if l == Screen then 0 else v);
  }

  lemma {:induction false} SceneTraceFinals(p: Pass, its: Iterators, ws: seq<Window>)
    requires its.Within(|p.effects|) && OnlyForwarding(p.effects)
    ensures Finals(SceneTrace(p, its, ws)) == SceneFinals(p.effects, its, ws)
    decreases its.Ahead(|p.effects|), 2, 1 + |ws|
  {
    if ws != [] {
      SceneTraceFinals(p, its, ws[..|ws| - 1]);
      TraceFinals(p, its, PaintWindow, ws[|ws| - 1]);
      FinalsAppend(SceneTrace(p, its, ws[..|ws| - 1]), Trace(p, its, PaintWindow, ws[|ws| - 1]));
    }
  }

  /** For effects that only forward, what a paint call makes the final painters do depends on nothing but how often
      each effect forwards for each window. */
  lemma {:induction false} TraceFinals(p: Pass, its: Iterators, level: Level, w: Window)
    requires its.Within(|p.effects|) && (level == Screen ==> w == 0) && OnlyForwarding(p.effects)
    ensures Finals(Trace(p, its, level, w)) == LevelFinals(p, its, level, w)
    decreases its.Ahead(|p.effects|), 3 - level.Rank(), 1
  {
    if its.At(level) < |p.effects| {
      var e, next := p.effects[its.At(level)], its.Advanced(level);
      assert OnlyForwards(e.Script(level, w));
      TraceUnfold(p, its, level, w);
      LevelUnfold(p, its, level, w);
      hide Trace, ScriptTrace, Finals, LevelFinals, Forwards, Times, OnlyForwarding, OnlyForwards;
      ScriptFinals(p, next, level, w, e.id, e.Script(level, w));
      FinalsSilent(Enter(e.id, level, w), ScriptTrace(p, next, level, w, e.id, e.Script(level, w)), Leave(e.id, level));
    } else {
      EndOfChainFinals(p, its, level, w);
    }
  }

  /** Behind the last effect the final painter takes over. */
  lemma {:induction false} EndOfChainFinals(p: Pass, its: Iterators, level: Level, w: Window)
    requires its.Within(|p.effects|) && (level == Screen ==> w == 0) && OnlyForwarding(p.effects)
    requires its.At(level) == |p.effects|
    ensures Finals(Trace(p, its, level, w)) == LevelFinals(p, its, level, w)
    decreases its.Ahead(|p.effects|), 3 - level.Rank(), 0
  {
    hide OnlyForwarding, Finals;
    match level
    case Screen =>
      SceneTraceFinals(p, its, p.scene);
      FinalsAppend([ScreenPainted], SceneTrace(p, its, p.scene));
      FinalsOne(ScreenPainted);
    case PaintWindow => TraceFinals(p, its, DrawWindow, w);
    case DrawWindow => FinalsOne(Rendered(w));
  }

  /** A paint call enters the next effect, runs its script with the iterator advanced, and leaves it. */
  lemma TraceUnfold(p: Pass, its: Iterators, level: Level, w: Window)
    requires its.Within(|p.effects|) && (level == Screen ==> w == 0) && its.At(level) < |p.effects|
    ensures var e := p.effects[its.At(level)];
            its.Advanced(level).Within(|p.effects|) && its.Advanced(level).Ahead(|p.effects|) < its.Ahead(|p.effects|) &&
            Trace(p, its, level, w) ==
            [Enter(e.id, level, w)] + ScriptTrace(p, its.Advanced(level), level, w, e.id, e.Script(level, w)) + [Leave(e.id, level)]
  {
  }

  lemma FinalsOne(e: Event)
    ensures Finals([e]) == if IsFinal(e) then [e] else []
  {
    assert [e][..0] == [];
    assert Finals([]) == [];
  }

  lemma FinalsSilent(first: Event, inner: seq<Event>, last: Event)
    requires !IsFinal(first) && !IsFinal(last)
    ensures Finals([first] + inner + [last]) == Finals(inner)
  {
    FinalsAppend([first] + inner, [last]);
    FinalsAppend([first], inner);
    FinalsOne(first);
    FinalsOne(last);
  }

  // ---------------------------------------------------------------------------
  // Effects that pass on exactly once
  // ---------------------------------------------------------------------------

  /** Each effect calls the next one exactly once, whatever the window, and calls nothing else. */
  ghost predicate AllForwardOnce(effects: seq<Effect>) {
    OnlyForwarding(effects) && forall i, level, w :: 0 <= i < |effects| ==> Forwards(effects[i].Script(level, w)) == 1
  }

  lemma TimesOne(es: seq<Event>)
    ensures Times(1, es) == es
  {
    assert Times(1, es) == Times(0, es) + es;
  }

  lemma {:induction false} RepeatedOnce(effects: seq<Effect>, level: Level, w: Window, i: nat, es: seq<Event>)
    requires AllForwardOnce(effects) && i <= |effects|
    ensures Repeated(effects, level, w, i, es) == es
    decreases |effects| - i
  {
    hide Forwards, Times, OnlyForwarding;
    if i < |effects| {
      RepeatedOnce(effects, level, w, i + 1, es);
      TimesOne(es);
    }
  }

  lemma WindowOnce(effects: seq<Effect>, its: Iterators, w: Window)
    requires AllForwardOnce(effects) && its.Within(|effects|)
    ensures WindowFinals(effects, its, w) == [Rendered(w)]
  {
    hide Repeated, AllForwardOnce;
    RepeatedOnce(effects, DrawWindow, w, its.draw, [Rendered(w)]);
    RepeatedOnce(effects, PaintWindow, w, its.window, [Rendered(w)]);
  }

  function RenderedAll(ws: seq<Window>): seq<Event> {
    seq(|ws|, i requires 0 <= i < |ws| => Rendered(ws[i]))
  }

  lemma {:induction false} SceneOnce(effects: seq<Effect>, its: Iterators, ws: seq<Window>)
    requires AllForwardOnce(effects) && its.Within(|effects|)
    ensures SceneFinals(effects, its, ws) == RenderedAll(ws)
  {
    hide WindowFinals, AllForwardOnce;
    if ws != [] {
      SceneOnce(effects, its, ws[..|ws| - 1]);
      WindowOnce(effects, its, ws[|ws| - 1]);
    }
  }

  /** If every effect passes on once, a pass paints the screen once and then renders every window of the scene once,
      in stacking order. */
  lemma EveryWindowRenderedOnce(p: Pass)
    requires AllForwardOnce(p.effects)
    ensures Finals(Trace(p, BEGIN, Screen, 0)) == [ScreenPainted] + RenderedAll(p.scene)
  {
    TraceFinals(p, BEGIN, Screen, 0);
    SceneOnce(p.effects, BEGIN, p.scene);
    RepeatedOnce(p.effects, Screen, 0, 0, [ScreenPainted] + RenderedAll(p.scene));
  }

  lemma {:induction false} TimesNothing(n: nat)
    ensures Times(n, []) == []
  {
    if n > 0 {
      TimesNothing(n - 1);
    }
  }

  lemma RepeatedUnfold(effects: seq<Effect>, level: Level, w: Window, i: nat, es: seq<Event>)
    requires i < |effects|
    ensures Repeated(effects, level, w, i, es) ==
            Times(Forwards(effects[i].Script(level, w)), Repeated(effects, level, w, i + 1, es))
  {
  }

  lemma TimesZero(es: seq<Event>)
    ensures Times(0, es) == []
  {
  }

  lemma {:induction false} RepeatedBlocked(effects: seq<Effect>, level: Level, w: Window, i: nat, k: nat, es: seq<Event>)
    requires i <= k < |effects| && Forwards(effects[k].Script(level, w)) == 0
    ensures Repeated(effects, level, w, i, es) == []
    decreases |effects| - i
  {
    hide Repeated, Forwards, Times;
    RepeatedUnfold(effects, level, w, i, es);
    if i < k {
      RepeatedBlocked(effects, level, w, i + 1, k, es);
      TimesNothing(Forwards(effects[i].Script(level, w)));
    } else {
      TimesZero(Repeated(effects, level, w, i + 1, es));
    }
  }

  /** One effect that does not pass on the screen keeps the final painters from doing anything. */
  lemma BlockedScreenRendersNothing(p: Pass, k: nat)
    requires OnlyForwarding(p.effects) && k < |p.effects| && Forwards(p.effects[k].paintScreen) == 0
    ensures Finals(Trace(p, BEGIN, Screen, 0)) == []
  {
    TraceFinals(p, BEGIN, Screen, 0);
    RepeatedBlocked(p.effects, Screen, 0, 0, k, [ScreenPainted] + SceneFinals(p.effects, BEGIN, p.scene));
  }

  lemma {:induction false} HiddenWindowIsSkipped(effects: seq<Effect>, its: Iterators, ws: seq<Window>, hidden: Window, level: Level, k: nat)
    requires its.Within(|effects|) && level != Screen && its.At(level) <= k < |effects|
    requires Forwards(effects[k].Script(level, hidden)) == 0
    ensures SceneFinals(effects, its, ws) == SceneFinals(effects, its, Without(ws, hidden))
  {
    if ws != [] {
      var rest, w := ws[..|ws| - 1], ws[|ws| - 1];
      HiddenWindowIsSkipped(effects, its, rest, hidden, level, k);
      if w == hidden {
        WindowBlocked(effects, its, w, level, k);
      } else {
        var kept := Without(ws, hidden);
        assert kept == Without(rest, hidden) + [w];
        assert kept[..|kept| - 1] == Without(rest, hidden);
      }
    }
  }

  /** An effect that does not pass a window on, on either window chain, hides that window and no other: the pass does
      what it would do if the window were not in the scene. */
  lemma HiddenWindowIsLeftOut(p: Pass, hidden: Window, level: Level, k: nat)
    requires OnlyForwarding(p.effects) && level != Screen && k < |p.effects|
    requires Forwards(p.effects[k].Script(level, hidden)) == 0
    ensures Finals(Trace(p, BEGIN, Screen, 0)) == Finals(Trace(p.(scene := Without(p.scene, hidden)), BEGIN, Screen, 0))
  {
    TraceFinals(p, BEGIN, Screen, 0);
    TraceFinals(p.(scene := Without(p.scene, hidden)), BEGIN, Screen, 0);
    HiddenWindowIsSkipped(p.effects, BEGIN, p.scene, hidden, level, k);
  }

  lemma WindowBlocked(effects: seq<Effect>, its: Iterators, w: Window, level: Level, k: nat)
    requires its.Within(|effects|) && level != Screen && its.At(level) <= k < |effects|
    requires Forwards(effects[k].Script(level, w)) == 0
    ensures WindowFinals(effects, its, w) == []
  {
    if level == DrawWindow {
      RepeatedBlocked(effects, DrawWindow, w, its.draw, k, [Rendered(w)]);
      RepeatedNothing(effects, PaintWindow, w, its.window);
    } else {
      RepeatedBlocked(effects, PaintWindow, w, its.window, k, Repeated(effects, DrawWindow, w, its.draw, [Rendered(w)]));
    }
  }

  lemma {:induction false} RepeatedNothing(effects: seq<Effect>, level: Level, w: Window, i: nat)
    requires i <= |effects|
    ensures Repeated(effects, level, w, i, []) == []
    decreases |effects| - i
  {
    if i < |effects| {
      RepeatedNothing(effects, level, w, i + 1);
      TimesNothing(Forwards(effects[i].Script(level, w)));
    }
  }

  // ---------------------------------------------------------------------------
  // The order of the effects
  // ---------------------------------------------------------------------------

  /** The effects entered at a level, in order. */
  function Entered(t: seq<Event>, level: Level): seq<nat> {
    if t == [] then []
    else if t[|t| - 1].Enter? && t[|t| - 1].level == level then Entered(t[..|t| - 1], level) + [t[|t| - 1].effect]
    else Entered(t[..|t| - 1], level)
  }

  lemma {:induction false} EnteredAppend(a: seq<Event>, b: seq<Event>, level: Level)
    ensures Entered(a + b, level) == Entered(a, level) + Entered(b, level)
  {
    if b == [] {
      assert a + b == a;
    } else {
      assert (a + b)[..|a + b| - 1] == a + b[..|b| - 1];
      EnteredAppend(a, b[..|b| - 1], level);
    }
  }

  lemma EnteredOne(e: Event, level: Level)
    ensures Entered([e], level) == if e.Enter? && e.level == level then [e.effect] else []
  {
    assert [e][..0] == [];
    assert Entered([], level) == [];
  }

  lemma EnteredWrapped(first: Event, inner: seq<Event>, last: Event, level: Level)
    requires !last.Enter?
    ensures Entered([first] + inner + [last], level) == Entered([first], level) + Entered(inner, level)
  {
    EnteredAppend([first] + inner, [last], level);
    EnteredAppend([first], inner, level);
    EnteredOne(last, level);
  }

  function Ids(effects: seq<Effect>): seq<nat> {
    seq(|effects|, i requires 0 <= i < |effects| => effects[i].id)
  }

  lemma IdsUnfold(effects: seq<Effect>, at: nat)
    requires at < |effects|
    ensures Ids(effects[at..]) == [effects[at].id] + Ids(effects[at + 1..])
  {
  }

  /** Forwarding effects never re-enter an outer level. */
  lemma {:induction false} InnerEntersNoOuter(p: Pass, its: Iterators, level: Level, w: Window, outer: Level)
    requires its.Within(|p.effects|) && (level == Screen ==> w == 0) && OnlyForwarding(p.effects)
    requires outer.Rank() < level.Rank()
    ensures Entered(Trace(p, its, level, w), outer) == []
    decreases its.Ahead(|p.effects|), 3 - level.Rank(), 0
  {
    if its.At(level) < |p.effects| {
      var e := p.effects[its.At(level)];
      var inner := ScriptTrace(p, its.Advanced(level), level, w, e.id, e.Script(level, w));
      InnerScriptEntersNoOuter(p, its.Advanced(level), level, w, e.id, e.Script(level, w), outer);
      EnteredWrapped(Enter(e.id, level, w), inner, Leave(e.id, level), outer);
      EnteredOne(Enter(e.id, level, w), outer);
    } else if level == PaintWindow {
      InnerEntersNoOuter(p, its, DrawWindow, w, outer);
    } else {
      EnteredOne(Rendered(w), outer);
    }
  }

  lemma {:induction false} InnerScriptEntersNoOuter(p: Pass, its: Iterators, level: Level, w: Window, id: nat, script: seq<Action>, outer: Level)
    requires its.Within(|p.effects|) && (level == Screen ==> w == 0)
    requires OnlyForwarding(p.effects) && OnlyForwards(script) && outer.Rank() < level.Rank()
    ensures Entered(ScriptTrace(p, its, level, w, id, script), outer) == []
    decreases its.Ahead(|p.effects|), 5, |script|
  {
    if script != [] {
      var rest, a := script[..|script| - 1], script[|script| - 1];
      InnerScriptEntersNoOuter(p, its, level, w, id, rest, outer);
      EnteredAppend(ScriptTrace(p, its, level, w, id, rest), ActionTrace(p, its, level, w, id, a), outer);
      assert a.Work? || a.Forward?;
      if a.Forward? {
        InnerEntersNoOuter(p, its, level, w, outer);
      } else {
        EnteredOne(Did(id, a.tag), outer);
      }
    }
  }

  lemma {:induction false} SceneEntersNoScreen(p: Pass, its: Iterators, ws: seq<Window>)
    requires its.Within(|p.effects|) && OnlyForwarding(p.effects)
    ensures Entered(SceneTrace(p, its, ws), Screen) == []
  {
    if ws != [] {
      SceneEntersNoScreen(p, its, ws[..|ws| - 1]);
      InnerEntersNoOuter(p, its, PaintWindow, ws[|ws| - 1], Screen);
      EnteredAppend(SceneTrace(p, its, ws[..|ws| - 1]), Trace(p, its, PaintWindow, ws[|ws| - 1]), Screen);
    }
  }

  /** A script that forwards once enters the next effects once. */
  lemma {:induction false} ScriptEnters(p: Pass, its: Iterators, level: Level, w: Window, id: nat, script: seq<Action>)
    requires its.Within(|p.effects|) && (level == Screen ==> w == 0)
    requires AllForwardOnce(p.effects) && OnlyForwards(script) && Forwards(script) <= 1
    ensures Entered(ScriptTrace(p, its, level, w, id, script), level) ==
            if Forwards(script) == 1 then Ids(p.effects[its.At(level)..]) else []
    decreases its.Ahead(|p.effects|), 5, |script|
  {
    if script != [] {
      var rest, a := script[..|script| - 1], script[|script| - 1];
      ScriptEnters(p, its, level, w, id, rest);
      EnteredAppend(ScriptTrace(p, its, level, w, id, rest), ActionTrace(p, its, level, w, id, a), level);
      assert a.Work? || a.Forward?;
      if a.Forward? {
        EffectsRunInOrder(p, its, level, w);
      } else {
        EnteredOne(Did(id, a.tag), level);
      }
    }
  }

  /** If every effect passes on once, each call runs the effects ahead of the iterator once and in their order. */
  lemma {:induction false} EffectsRunInOrder(p: Pass, its: Iterators, level: Level, w: Window)
    requires its.Within(|p.effects|) && (level == Screen ==> w == 0) && AllForwardOnce(p.effects)
    ensures Entered(Trace(p, its, level, w), level) == Ids(p.effects[its.At(level)..])
    decreases its.Ahead(|p.effects|), 3 - level.Rank(), 0
  {
    var at := its.At(level);
    if at < |p.effects| {
      var e := p.effects[at];
      var inner := ScriptTrace(p, its.Advanced(level), level, w, e.id, e.Script(level, w));
      ScriptEnters(p, its.Advanced(level), level, w, e.id, e.Script(level, w));
      EnteredWrapped(Enter(e.id, level, w), inner, Leave(e.id, level), level);
      EnteredOne(Enter(e.id, level, w), level);
      IdsUnfold(p.effects, at);
      hide ScriptTrace, Entered, Ids;
    } else {
      assert Ids(p.effects[at..]) == [];
      match level
      case Screen =>
        SceneEntersNoScreen(p, its, p.scene);
        EnteredAppend([ScreenPainted], SceneTrace(p, its, p.scene), Screen);
        EnteredOne(ScreenPainted, Screen);
      case PaintWindow => InnerEntersNoOuter(p, its, DrawWindow, w, PaintWindow);
      case DrawWindow => EnteredOne(Rendered(w), DrawWindow);
    }
  }
}
