/** The focus chains: one most-recently-used list and one list per virtual desktop, edited in place. */
module FocusChain {
  import opened Sequences

  type Window = nat
  type Desktop = nat
  type Chain = seq<Window>

  /** What the windows and the options answer during one call. */
  datatype Env = Env(
    wantsTabFocus: set<Window>,
    onAllDesktops: set<Window>,
    desktops: set<(Window, Desktop)>,
    minimized: set<Window>,
    sameApplication: set<(Window, Window)>,
    moveMinimizedToEnd: bool)
  {
    predicate IsOnDesktop(w: Window, d: Desktop) {
      w in onAllDesktops || (w, d) in desktops
    }
  }

  datatype Change = MakeFirst | MakeLast | Update

  /** The chains, and what they are told about the active window and the current desktop. */
  datatype State = State(mru: Chain, desktops: map<Desktop, Chain>, active: Option<Window>, current: Option<Desktop>) {
    /** No window is listed twice, and the desktops' windows are all in the most-recently-used chain. */
    ghost predicate Valid() {
      NoDup(mru) &&
      forall d :: d in desktops ==> NoDup(desktops[d]) && Within(desktops[d], mru)
    }
  }

  const INITIAL := State([], map[], None, None)

  // ---------------------------------------------------------------------------
  // Operations on one chain
  // ---------------------------------------------------------------------------

  /** The position behind the last element of `c` that is in `m`. */
  function EndOf(c: Chain, m: set<Window>): (k: nat)
    ensures k <= |c| && (k > 0 ==> c[k - 1] in m) && forall i :: k <= i < |c| ==> c[i] !in m
  {
    if c == [] then 0
    else if c[|c| - 1] in m then |c|
    else EndOf(c[..|c| - 1], m)
  }

  /** The most recent window of the reference's application. */
  function LastOfApplication(c: Chain, reference: Window, env: Env): (r: Option<nat>)
    ensures r.Some? ==> r.value < |c| && (reference, c[r.value]) in env.sameApplication
    ensures forall i :: (if r.Some? then r.value + 1 else 0) <= i < |c| ==> (reference, c[i]) !in env.sameApplication
  {
    if c == [] then None
    else if (reference, c[|c| - 1]) in env.sameApplication then Some(|c| - 1)
    else LastOfApplication(c[..|c| - 1], reference, env)
  }

  function MadeFirst(chain: Chain, w: Window, env: Env): Chain {
    var c := Without(chain, w);
    if env.moveMinimizedToEnd && w in env.minimized then InsertAt(c, EndOf(c, env.minimized), w) else c + [w]
  }

  function MadeLast(chain: Chain, w: Window): Chain {
    [w] + Without(chain, w)
  }

  function Inserted(chain: Chain, w: Window, active: Option<Window>): Chain {
    if w in chain then chain
    else if active.Some? && active.value != w && chain != [] && chain[|chain| - 1] == active.value
    then InsertAt(chain, |chain| - 1, w)
    else chain + [w]
  }

  function Changed(chain: Chain, w: Window, change: Change, active: Option<Window>, env: Env): Chain {
    match change
    case MakeFirst => MadeFirst(chain, w, env)
    case MakeLast => MadeLast(chain, w)
    case Update => Inserted(chain, w, active)
  }

  /** A window that is its own reference has just been taken out when its position is looked up; it goes to the front. */
  function MovedAfter(chain: Chain, w: Window, reference: Window, env: Env): Chain {
    if reference !in chain then chain
    else
      var c := Without(chain, w);
      if (reference, w) in env.sameApplication then InsertAt(c, if reference in c then IndexOf(c, reference) else 0, w)
      else
        match LastOfApplication(c, reference, env)
        case Some(i) => InsertAt(c, i, w)
        case None => c
  }

  // ---------------------------------------------------------------------------
  // Operations on all chains
  // ---------------------------------------------------------------------------

  function Removed(s: State, w: Window): State {
    s.(desktops := map d | d in s.desktops :: Without(s.desktops[d], w), mru := Without(s.mru, w))
  }

  function UpdatedOn(s: State, w: Window, change: Change, env: Env, d: Desktop): Chain
    requires d in s.desktops
  {
    var chain := s.desktops[d];
    if w in env.onAllDesktops then
      Changed(chain, w, if s.current == Some(d) then change else Update, s.active, env)
    else if env.IsOnDesktop(w, d) then Changed(chain, w, change, s.active, env)
    else Without(chain, w)
  }

  function Updated(s: State, w: Window, change: Change, env: Env): State {
    if w !in env.wantsTabFocus then Removed(s, w)
    else s.(desktops := map d | d in s.desktops :: UpdatedOn(s, w, change, env, d),
            mru := Changed(s.mru, w, change, s.active, env))
  }

  function AfterMove(s: State, w: Window, reference: Window, env: Env): State {
    if w !in env.wantsTabFocus then s
    else s.(desktops := map d | d in s.desktops ::
              if env.IsOnDesktop(w, d) then MovedAfter(s.desktops[d], w, reference, env) else s.desktops[d],
            mru := MovedAfter(s.mru, w, reference, env))
  }

  function DesktopAdded(s: State, d: Desktop): State {
    s.(desktops := s.desktops[d := []])
  }

  function DesktopRemoved(s: State, d: Desktop): State {
    s.(desktops := s.desktops - {d}, current := if s.current == Some(d) then None else s.current)
  }

  /** The window that follows `reference` in the cycle through the chain. */
  function NextInCycle(mru: Chain, reference: Window): Option<Window> {
    if mru == [] then None
    else if reference !in mru then Some(mru[0])
    else
      var i := IndexOf(mru, reference);
      if i == 0 then Some(mru[|mru| - 1]) else Some(mru[i - 1])
  }

  class FocusChain {
    var mostRecentlyUsed: Chain
    var desktopFocusChains: map<Desktop, Chain>
    var activeWindow: Option<Window>
    var currentDesktop: Option<Desktop>

    ghost function Chains(): State
      reads this
    {
      State(mostRecentlyUsed, desktopFocusChains, activeWindow, currentDesktop)
    }

    constructor ()
      ensures Chains() == INITIAL
    {
      mostRecentlyUsed, desktopFocusChains, activeWindow, currentDesktop := [], map[], None, None;
    }

    method Remove(window: Window)
      modifies this
      ensures Chains() == Removed(old(Chains()), window)
    {
      var todo := desktopFocusChains.Keys;
      while todo != {}
        invariant todo <= desktopFocusChains.Keys == old(desktopFocusChains).Keys
        invariant forall d :: d in desktopFocusChains ==>
          desktopFocusChains[d] == if d in todo then old(desktopFocusChains)[d] else Without(old(desktopFocusChains)[d], window)
        invariant Chains() == old(Chains()).(desktops := desktopFocusChains)
      {
        var d :| d in todo;
        desktopFocusChains := desktopFocusChains[d := Without(desktopFocusChains[d], window)];
        todo := todo - {d};
      }
      mostRecentlyUsed := Without(mostRecentlyUsed, window);
    }

    method AddDesktop(desktop: Desktop)
      modifies this
      ensures Chains() == DesktopAdded(old(Chains()), desktop)
    {
      desktopFocusChains := desktopFocusChains[desktop := []];
    }

    method RemoveDesktop(desktop: Desktop)
      modifies this
      ensures Chains() == DesktopRemoved(old(Chains()), desktop)
    {
      if currentDesktop == Some(desktop) {
        currentDesktop := None;
      }
      desktopFocusChains := desktopFocusChains - {desktop};
    }

    method SetActiveWindow(window: Option<Window>)
      modifies this
      ensures Chains() == old(Chains()).(active := window)
    {
      activeWindow := window;
    }

    method SetCurrentDesktop(desktop: Option<Desktop>)
      modifies this
      ensures Chains() == old(Chains()).(current := desktop)
    {
      currentDesktop := desktop;
    }

    /** Appends the window, or puts it behind the last minimized one. */
    method MakeFirstInChain(window: Window, chain: Chain, env: Env) returns (r: Chain)
      ensures r == MadeFirst(chain, window, env)
    {
      r := Without(chain, window);
      if env.moveMinimizedToEnd {
        if window in env.minimized {
          var i := |r| - 1;
          while i >= 0
            invariant -1 <= i < |r|
            invariant forall j :: i < j < |r| ==> r[j] !in env.minimized
          {
            if r[i] in env.minimized {
              r := r[..i + 1] + [window] + r[i + 1..];
              return;
            }
            i := i - 1;
          }
          r := [window] + r;
        } else {
          r := r + [window];
        }
      } else {
        r := r + [window];
      }
    }

    method MakeLastInChain(window: Window, chain: Chain) returns (r: Chain)
      ensures r == MadeLast(chain, window)
    {
      r := Without(chain, window);
      r := [window] + r;
    }

    method InsertWindowIntoChain(window: Window, chain: Chain) returns (r: Chain)
      ensures r == Inserted(chain, window, activeWindow)
    {
      if window in chain {
        return chain;
      }
      if activeWindow.Some? && activeWindow.value != window && chain != [] && chain[|chain| - 1] == activeWindow.value {
        r := chain[..|chain| - 1] + [window] + chain[|chain| - 1..];
      } else {
        r := chain + [window];
      }
    }

    method UpdateWindowInChain(window: Window, change: Change, chain: Chain, env: Env) returns (r: Chain)
      ensures r == Changed(chain, window, change, activeWindow, env)
    {
      if change == MakeFirst {
        r := MakeFirstInChain(window, chain, env);
      } else if change == MakeLast {
        r := MakeLastInChain(window, chain);
      } else {
        r := InsertWindowIntoChain(window, chain);
      }
    }

    /** The loop for a window on all desktops: making first or last works on the current desktop only. */
    method UpdateOnAllDesktops(window: Window, change: Change, env: Env)
      requires window in env.onAllDesktops
      modifies this`desktopFocusChains
      ensures desktopFocusChains == map d | d in old(desktopFocusChains) :: UpdatedOn(old(Chains()), window, change, env, d)
    {
      hide Inserted, MadeFirst, MadeLast, Filter;
      var todo := desktopFocusChains.Keys;
      while todo != {}
        invariant todo <= desktopFocusChains.Keys == old(desktopFocusChains).Keys
        invariant forall d :: d in desktopFocusChains ==>
          desktopFocusChains[d] == if d in todo then old(desktopFocusChains)[d] else UpdatedOn(old(Chains()), window, change, env, d)
        invariant Chains() == old(Chains()).(desktops := desktopFocusChains)
      {
        var d :| d in todo;
        var chain := desktopFocusChains[d];
        if Some(d) == currentDesktop && (change == MakeFirst || change == MakeLast) {
          if change == MakeFirst {
            chain := MakeFirstInChain(window, chain, env);
          } else {
            chain := MakeLastInChain(window, chain);
          }
        } else {
          chain := InsertWindowIntoChain(window, chain);
        }
        desktopFocusChains := desktopFocusChains[d := chain];
        todo := todo - {d};
      }
    }

    /** The loop for a window on some desktops: it leaves the chains of the others. */
    method UpdateOnItsDesktops(window: Window, change: Change, env: Env)
      requires window !in env.onAllDesktops
      modifies this`desktopFocusChains
      ensures desktopFocusChains == map d | d in old(desktopFocusChains) :: UpdatedOn(old(Chains()), window, change, env, d)
    {
      hide Changed, Filter;
      var todo := desktopFocusChains.Keys;
      while todo != {}
        invariant todo <= desktopFocusChains.Keys == old(desktopFocusChains).Keys
        invariant forall d :: d in desktopFocusChains ==>
          desktopFocusChains[d] == if d in todo then old(desktopFocusChains)[d] else UpdatedOn(old(Chains()), window, change, env, d)
        invariant Chains() == old(Chains()).(desktops := desktopFocusChains)
      {
        var d :| d in todo;
        var chain := desktopFocusChains[d];
        if env.IsOnDesktop(window, d) {
          chain := UpdateWindowInChain(window, change, chain, env);
        } else {
          chain := Without(chain, window);
        }
        desktopFocusChains := desktopFocusChains[d := chain];
        todo := todo - {d};
      }
    }

    method UpdateWindow(window: Window, change: Change, env: Env)
      modifies this
      ensures Chains() == Updated(old(Chains()), window, change, env)
    {
      if window !in env.wantsTabFocus {
        Remove(window);
        return;
      }
      if window in env.onAllDesktops {
        UpdateOnAllDesktops(window, change, env);
      } else {
        UpdateOnItsDesktops(window, change, env);
      }
      mostRecentlyUsed := UpdateWindowInChain(window, change, mostRecentlyUsed, env);
    }

    method MoveAfterWindowInChain(window: Window, reference: Window, chain: Chain, env: Env) returns (r: Chain)
      ensures r == MovedAfter(chain, window, reference, env)
    {
      if reference !in chain {
        return chain;
      }
      r := Without(chain, window);
      if (reference, window) in env.sameApplication {
        var i := if reference in r then IndexOf(r, reference) else 0;
        r := r[..i] + [window] + r[i..];
      } else {
        var i := |r| - 1;
        while i >= 0
          invariant -1 <= i < |r|
          invariant forall j :: i < j < |r| ==> (reference, r[j]) !in env.sameApplication
        {
          if (reference, r[i]) in env.sameApplication {
            r := r[..i] + [window] + r[i..];
            break;
          }
          i := i - 1;
        }
      }
    }

    method MoveAfterWindow(window: Window, reference: Window, env: Env)
      modifies this
      ensures Chains() == AfterMove(old(Chains()), window, reference, env)
    {
      if window !in env.wantsTabFocus {
        return;
      }
      ghost var was := Chains();
      var todo := desktopFocusChains.Keys;
      while todo != {}
        invariant todo <= desktopFocusChains.Keys == was.desktops.Keys
        invariant forall d :: d in desktopFocusChains ==>
          desktopFocusChains[d] == if d in todo || !env.IsOnDesktop(window, d) then was.desktops[d]
                                   else MovedAfter(was.desktops[d], window, reference, env)
        invariant Chains() == was.(desktops := desktopFocusChains)
      {
        var d :| d in todo;
        todo := todo - {d};
        if !env.IsOnDesktop(window, d) {
          continue;
        }
        var chain := MoveAfterWindowInChain(window, reference, desktopFocusChains[d], env);
        desktopFocusChains := desktopFocusChains[d := chain];
      }
      mostRecentlyUsed := MoveAfterWindowInChain(window, reference, mostRecentlyUsed, env);
    }

    method NextMostRecentlyUsed(reference: Window) returns (r: Option<Window>)
      ensures r == NextInCycle(mostRecentlyUsed, reference)
    {
      if mostRecentlyUsed == [] {
        return None;
      }
      if reference !in mostRecentlyUsed {
        return Some(mostRecentlyUsed[0]);
      }
      var index := IndexOf(mostRecentlyUsed, reference);
      if index == 0 {
        return Some(mostRecentlyUsed[|mostRecentlyUsed| - 1]);
      }
      return Some(mostRecentlyUsed[index - 1]);
    }

    /** The most recent window of the desktop that is usable and not the reference. */
    method NextForDesktop(reference: Option<Window>, desktop: Desktop, usable: set<Window>) returns (r: Option<Window>)
      ensures r.None? <==> desktop !in desktopFocusChains ||
                           forall i :: 0 <= i < |desktopFocusChains[desktop]| ==>
                             desktopFocusChains[desktop][i] !in usable || Some(desktopFocusChains[desktop][i]) == reference
      ensures r.Some? ==> r.value in usable && r != reference && desktop in desktopFocusChains &&
                          exists i :: 0 <= i < |desktopFocusChains[desktop]| && desktopFocusChains[desktop][i] == r.value &&
                            forall j :: i < j < |desktopFocusChains[desktop]| ==>
                              desktopFocusChains[desktop][j] !in usable || Some(desktopFocusChains[desktop][j]) == reference
    {
      if desktop !in desktopFocusChains {
        return None;
      }
      var chain := desktopFocusChains[desktop];
      var i := |chain| - 1;
      while i >= 0
        invariant -1 <= i < |chain|
        invariant forall j :: i < j < |chain| ==> chain[j] !in usable || Some(chain[j]) == reference
      {
        var window := chain[i];
        if Some(window) != reference && window in usable {
          return Some(window);
        }
        i := i - 1;
      }
      return None;
    }
  }

  /** The position behind the last minimized window is unique. */
  lemma EndOfUnique(c: Chain, m: set<Window>, k: nat)
    requires k <= |c| && (k > 0 ==> c[k - 1] in m) && forall i :: k <= i < |c| ==> c[i] !in m
    ensures EndOf(c, m) == k
  {
  }
}
