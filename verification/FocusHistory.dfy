/** What holds over whole runs of the focus chains. */
module FocusHistory {
  import opened Sequences
  import opened FocusChain

  datatype Op =
    | Update(window: Window, change: Change, env: Env)
    | Remove(window: Window)
    | MoveAfter(window: Window, reference: Window, env: Env)
    | AddDesktop(desktop: Desktop)
    | RemoveDesktop(desktop: Desktop)
    | SetActive(active: Option<Window>)
    | SetCurrent(current: Option<Desktop>)
  {
    /** A window belongs to its own application. */
    predicate Legal() {
      MoveAfter? ==> (reference, reference) in env.sameApplication
    }
  }

  function Step(s: State, op: Op): State
    requires op.Legal()
  {
    match op
    case Update(w, change, env) => Updated(s, w, change, env)
    case Remove(w) => Removed(s, w)
    case MoveAfter(w, reference, env) => AfterMove(s, w, reference, env)
    case AddDesktop(d) => DesktopAdded(s, d)
    case RemoveDesktop(d) => DesktopRemoved(s, d)
    case SetActive(w) => s.(active := w)
    case SetCurrent(d) => s.(current := d)
  }

  function Run(ops: seq<Op>): State
    requires forall i :: 0 <= i < |ops| ==> ops[i].Legal()
  {
    if ops == [] then INITIAL else Step(Run(ops[..|ops| - 1]), ops[|ops| - 1])
  }

  // ---------------------------------------------------------------------------
  // Every operation on a chain touches one window only
  // ---------------------------------------------------------------------------

  /** `b` differs from `a` only in where, and whether, `w` occurs. */
  predicate OthersKept(a: Chain, b: Chain, w: Window) {
    Without(b, w) == Without(a, w)
  }

  /** What is known of a chain into which `w` is put afresh. */
  lemma PutBack(chain: Chain, w: Window, i: nat)
    requires i <= |Without(chain, w)|
    ensures var c := Without(chain, w);
            OthersKept(chain, InsertAt(c, i, w), w) && w in InsertAt(c, i, w) &&
            (NoDup(chain) ==> NoDup(InsertAt(c, i, w)))
  {
    var c := Without(chain, w);
    WithoutInsert(c, i, w);
    WithoutTwice(chain, w);
    FilterMember(chain, Differs(w), w);
    assert InsertAt(c, i, w)[i] == w;
    if NoDup(chain) {
      FilterNoDup(chain, Differs(w));
      InsertNoDup(c, i, w);
    }
  }

  lemma TakenOut(chain: Chain, w: Window)
    ensures OthersKept(chain, Without(chain, w), w) && w !in Without(chain, w)
    ensures NoDup(chain) ==> NoDup(Without(chain, w))
  {
    WithoutTwice(chain, w);
    FilterMember(chain, Differs(w), w);
    if NoDup(chain) {
      FilterNoDup(chain, Differs(w));
    }
  }

  lemma ChangedFrame(chain: Chain, w: Window, change: Change, active: Option<Window>, env: Env)
    ensures var r := Changed(chain, w, change, active, env);
            OthersKept(chain, r, w) && w in r && (NoDup(chain) ==> NoDup(r))
  {
    var c := Without(chain, w);
    match change
    case MakeFirst =>
      PutBack(chain, w, |c|);
      assert InsertAt(c, |c|, w) == c + [w];
      PutBack(chain, w, EndOf(c, env.minimized));
    case MakeLast =>
      PutBack(chain, w, 0);
      assert InsertAt(c, 0, w) == [w] + c;
    case Update =>
      if w !in chain {
        WithoutAbsent(chain, w);
        PutBack(chain, w, |c|);
        assert InsertAt(c, |c|, w) == c + [w];
        if chain != [] {
          PutBack(chain, w, |c| - 1);
        }
      }
  }

  lemma MovedAfterFrame(chain: Chain, w: Window, reference: Window, env: Env)
    ensures var r := MovedAfter(chain, w, reference, env);
            OthersKept(chain, r, w) && (NoDup(chain) ==> NoDup(r)) &&
            ((reference, reference) in env.sameApplication && reference in chain ==> w in r)
  {
    if reference in chain {
      var c := Without(chain, w);
      FilterMember(chain, Differs(w), reference);
      PutBack(chain, w, if reference in c then IndexOf(c, reference) else 0);
      TakenOut(chain, w);
      var last := LastOfApplication(c, reference, env);
      if last.Some? {
        PutBack(chain, w, last.value);
      } else if w != reference {
        assert c[IndexOf(c, reference)] == reference;
      }
    }
  }

  /** The window an operation is about; other operations move no window. */
  function Moves(op: Op): Option<Window> {
    if op.Update? || op.Remove? || op.MoveAfter? then Some(op.window) else None
  }

  /** Each operation on a window keeps the order of all other windows in every chain. */
  lemma OrderKept(s: State, op: Op)
    requires op.Legal() && Moves(op).Some?
    ensures var t, w := Step(s, op), Moves(op).value;
            OthersKept(s.mru, t.mru, w) && t.desktops.Keys == s.desktops.Keys &&
            forall d :: d in s.desktops ==> OthersKept(s.desktops[d], t.desktops[d], w)
  {
    var t, w := Step(s, op), Moves(op).value;
    TakenOut(s.mru, w);
    match op {
      case Update(_, change, env) => ChangedFrame(s.mru, w, change, s.active, env);
      case MoveAfter(_, reference, env) => MovedAfterFrame(s.mru, w, reference, env);
      case _ =>
    }
    forall d | d in s.desktops ensures OthersKept(s.desktops[d], t.desktops[d], w) {
      StepOnDesktop(s, op, d);
    }
  }

  /** `now`, with the chain `mru`, is what one operation on `w` may make of a desktop's chain. */
  ghost predicate DesktopFrame(was: Chain, mruWas: Chain, now: Chain, mru: Chain, w: Window) {
    OthersKept(was, now, w) && (NoDup(was) ==> NoDup(now)) && (Within(was, mruWas) && w in now ==> w in mru)
  }

  lemma UpdateOnDesktop(s: State, w: Window, change: Change, env: Env, d: Desktop)
    requires d in s.desktops && w in env.wantsTabFocus
    ensures DesktopFrame(s.desktops[d], s.mru, UpdatedOn(s, w, change, env, d), Updated(s, w, change, env).mru, w)
  {
    var chain := s.desktops[d];
    TakenOut(chain, w);
    hide Changed, NoDup, Filter;
    ChangedFrame(chain, w, change, s.active, env);
    ChangedFrame(chain, w, Change.Update, s.active, env);
    ChangedFrame(s.mru, w, change, s.active, env);
  }

  lemma MoveOnDesktop(chain: Chain, mru: Chain, w: Window, reference: Window, env: Env)
    requires (reference, reference) in env.sameApplication
    ensures DesktopFrame(chain, mru, MovedAfter(chain, w, reference, env), MovedAfter(mru, w, reference, env), w)
    ensures DesktopFrame(chain, mru, chain, MovedAfter(mru, w, reference, env), w)
  {
    MovedAfterFrame(chain, w, reference, env);
    MovedAfterFrame(mru, w, reference, env);
  }

  /** What an operation does to the chain of one desktop. */
  lemma StepOnDesktop(s: State, op: Op, d: Desktop)
    requires op.Legal() && Moves(op).Some? && d in s.desktops
    ensures d in Step(s, op).desktops
    ensures DesktopFrame(s.desktops[d], s.mru, Step(s, op).desktops[d], Step(s, op).mru, Moves(op).value)
  {
    TakenOut(s.desktops[d], Moves(op).value);
    match op
    case Update(w, change, env) =>
      if w in env.wantsTabFocus {
        UpdateOnDesktop(s, w, change, env, d);
      }
    case MoveAfter(w, reference, env) =>
      MoveOnDesktop(s.desktops[d], s.mru, w, reference, env);
    case _ =>
  }

  /** Where only `w` may differ, the other elements are the same. */
  lemma OthersSame(a: Chain, b: Chain, w: Window)
    requires OthersKept(a, b, w)
    ensures forall v :: v != w ==> (v in a <==> v in b)
  {
    forall v | v != w ensures v in a <==> v in b {
      FilterMember(a, Differs(w), v);
      FilterMember(b, Differs(w), v);
    }
  }

  lemma StepKeepsValid(s: State, op: Op)
    requires s.Valid() && op.Legal()
    ensures Step(s, op).Valid()
  {
    var t := Step(s, op);
    if Moves(op).Some? {
      var w := Moves(op).value;
      OrderKept(s, op);
      MruNoDup(s, op);
      forall d | d in t.desktops ensures NoDup(t.desktops[d]) && Within(t.desktops[d], t.mru) {
        StepOnDesktop(s, op, d);
        OthersSame(s.desktops[d], t.desktops[d], w);
        OthersSame(s.mru, t.mru, w);
        forall i | 0 <= i < |t.desktops[d]| ensures t.desktops[d][i] in t.mru {
          var v := t.desktops[d][i];
          if v != w {
            assert v in s.desktops[d];
          }
        }
      }
    }
  }

  lemma MruNoDup(s: State, op: Op)
    requires op.Legal() && Moves(op).Some? && NoDup(s.mru)
    ensures NoDup(Step(s, op).mru)
  {
    var w := Moves(op).value;
    TakenOut(s.mru, w);
    match op
    case Update(_, change, env) => ChangedFrame(s.mru, w, change, s.active, env);
    case MoveAfter(_, reference, env) => MovedAfterFrame(s.mru, w, reference, env);
    case _ =>
  }

  /** In every reachable state no chain repeats a window and desktop chains stay inside the most-recently-used chain. */
  lemma {:induction false} ReachableValid(ops: seq<Op>)
    requires forall i :: 0 <= i < |ops| ==> ops[i].Legal()
    ensures Run(ops).Valid()
  {
    if ops != [] {
      ReachableValid(ops[..|ops| - 1]);
      StepKeepsValid(Run(ops[..|ops| - 1]), ops[|ops| - 1]);
    }
  }

  /** After an update the window is in exactly the chains of its desktops, if it takes focus, and else in none. */
  lemma UpdatePlaces(s: State, w: Window, change: Change, env: Env)
    ensures var t := Updated(s, w, change, env);
            (w in t.mru <==> w in env.wantsTabFocus) && t.desktops.Keys == s.desktops.Keys &&
            forall d :: d in t.desktops ==> (w in t.desktops[d] <==> w in env.wantsTabFocus && env.IsOnDesktop(w, d))
  {
    var t := Updated(s, w, change, env);
    TakenOut(s.mru, w);
    ChangedFrame(s.mru, w, change, s.active, env);
    forall d | d in t.desktops ensures w in t.desktops[d] <==> w in env.wantsTabFocus && env.IsOnDesktop(w, d) {
      TakenOut(s.desktops[d], w);
      ChangedFrame(s.desktops[d], w, change, s.active, env);
      ChangedFrame(s.desktops[d], w, Change.Update, s.active, env);
    }
  }

  // ---------------------------------------------------------------------------
  // Where an operation puts its window
  // ---------------------------------------------------------------------------

  /** A removed window is in no chain any more. */
  lemma RemovedEverywhere(s: State, w: Window)
    ensures var t := Removed(s, w);
            w !in t.mru && t.desktops.Keys == s.desktops.Keys && forall d :: d in t.desktops ==> w !in t.desktops[d]
  {
    TakenOut(s.mru, w);
    forall d | d in s.desktops ensures w !in Without(s.desktops[d], w) {
      TakenOut(s.desktops[d], w);
    }
  }

  /** `w` comes right behind the last minimized window of the chain, or is the least recent one if there is none. */
  predicate BehindMinimized(r: Chain, w: Window, minimized: set<Window>) {
    exists i :: 0 <= i < |r| && r[i] == w && IsEndOf(r, i, minimized)
  }

  /** Position `i` follows the last window of `m`, itself apart. */
  predicate IsEndOf(r: Chain, i: nat, m: set<Window>)
    requires i < |r|
  {
    (i > 0 ==> r[i - 1] in m) && forall j :: i < j < |r| ==> r[j] !in m
  }

  /** Where a change puts a window in a chain, told from the chain's two ends and the minimized windows. */
  ghost predicate Placement(c: Chain, r: Chain, w: Window, change: Change, active: Option<Window>, env: Env) {
    match change
    case MakeFirst =>
      if env.moveMinimizedToEnd && w in env.minimized then BehindMinimized(r, w, env.minimized)
      else r != [] && r[|r| - 1] == w
    case MakeLast => r != [] && r[0] == w
    case Update =>
      if w in c then r == c
      else if c != [] && active == Some(c[|c| - 1]) then |r| >= 2 && r[|r| - 2] == w && r[|r| - 1] == c[|c| - 1]
      else r != [] && r[|r| - 1] == w
  }

  lemma ChangedPlacement(c: Chain, w: Window, change: Change, active: Option<Window>, env: Env)
    ensures Placement(c, Changed(c, w, change, active, env), w, change, active, env)
  {
    var r := Changed(c, w, change, active, env);
    if change == MakeFirst && env.moveMinimizedToEnd && w in env.minimized {
      var rest := Without(c, w);
      var i := EndOf(rest, env.minimized);
      assert r[i] == w;
      assert forall j :: i < j < |r| ==> r[j] == rest[j - 1];
      assert IsEndOf(r, i, env.minimized);
    }
  }

  /** What a change of a window amounts to on a desktop. */
  function ChangeOn(s: State, w: Window, change: Change, env: Env, d: Desktop): Change {
    if w in env.onAllDesktops && s.current != Some(d) then Change.Update else change
  }

  /** An update puts its window in its place in the most-recently-used chain and on the window's desktops; for a window
      on all desktops, being made first or last counts on the current desktop alone. */
  lemma UpdatePlacement(s: State, w: Window, change: Change, env: Env)
    requires w in env.wantsTabFocus
    ensures var t := Updated(s, w, change, env);
            Placement(s.mru, t.mru, w, change, s.active, env) &&
            t.desktops.Keys == s.desktops.Keys &&
            forall d :: d in s.desktops && env.IsOnDesktop(w, d) ==>
              Placement(s.desktops[d], t.desktops[d], w, ChangeOn(s, w, change, env, d), s.active, env)
  {
    hide Changed, Placement;
    ChangedPlacement(s.mru, w, change, s.active, env);
    forall d | d in s.desktops && env.IsOnDesktop(w, d)
      ensures Placement(s.desktops[d], Updated(s, w, change, env).desktops[d], w, ChangeOn(s, w, change, env, d), s.active, env)
    {
      ChangedPlacement(s.desktops[d], w, change, s.active, env);
      ChangedPlacement(s.desktops[d], w, Change.Update, s.active, env);
    }
  }

  /** A window on all desktops that is made first, or last, changes no other desktop's chain that lists it already. */
  lemma OtherDesktopsUntouched(s: State, w: Window, change: Change, env: Env, d: Desktop)
    requires w in env.wantsTabFocus && w in env.onAllDesktops
    requires d in s.desktops && s.current != Some(d) && w in s.desktops[d]
    ensures Updated(s, w, change, env).desktops[d] == s.desktops[d]
  {
    UpdatePlacement(s, w, change, env);
  }

  /** Position `i` is right behind the most recent window of the reference's application. */
  predicate BehindLatest(r: Chain, i: nat, reference: Window, env: Env)
    requires i + 1 < |r|
  {
    (reference, r[i + 1]) in env.sameApplication && forall j :: i + 1 < j < |r| ==> (reference, r[j]) !in env.sameApplication
  }

  predicate RightBehind(r: Chain, w: Window, reference: Window) {
    exists i :: 0 <= i < |r| - 1 && r[i] == w && r[i + 1] == reference
  }

  predicate RightBehindLatest(r: Chain, w: Window, reference: Window, env: Env) {
    exists i :: 0 <= i < |r| - 1 && r[i] == w && BehindLatest(r, i, reference, env)
  }

  ghost predicate HasOther(c: Chain, w: Window, reference: Window, env: Env) {
    exists v :: v in c && v != w && (reference, v) in env.sameApplication
  }

  /** `w` is right behind the reference, which is more recent; or, if it belongs to another application, right behind
      that application's most recent window; without any such window it is gone. */
  ghost predicate IsBehind(c: Chain, r: Chain, w: Window, reference: Window, env: Env) {
    if reference !in c then r == c
    else if (reference, w) in env.sameApplication then
      if w == reference then r != [] && r[0] == w
      else RightBehind(r, w, reference)
    else if HasOther(c, w, reference, env) then RightBehindLatest(r, w, reference, env)
    else w !in r
  }

  lemma MovedBehind(c: Chain, w: Window, reference: Window, env: Env)
    ensures IsBehind(c, MovedAfter(c, w, reference, env), w, reference, env)
  {
    if reference in c {
      var rest, r := Without(c, w), MovedAfter(c, w, reference, env);
      if (reference, w) in env.sameApplication {
        FilterMember(c, Differs(w), reference);
        if w != reference {
          var i := IndexOf(rest, reference);
          assert r[i] == w && r[i + 1] == reference;
        }
      } else {
        TakenOut(c, w);
        MovedBehindOthers(c, rest, r, w, reference, env);
      }
    }
  }

  lemma MovedBehindOthers(c: Chain, rest: Chain, r: Chain, w: Window, reference: Window, env: Env)
    requires rest == Without(c, w) && (reference, w) !in env.sameApplication
    requires var last := LastOfApplication(rest, reference, env);
             r == if last.Some? then InsertAt(rest, last.value, w) else rest
    ensures if HasOther(c, w, reference, env) then RightBehindLatest(r, w, reference, env) else w !in r
  {
    var last := LastOfApplication(rest, reference, env);
    if v :| v in c && v != w && (reference, v) in env.sameApplication {
      FilterMember(c, Differs(w), v);
      var i := last.value;
      assert r[i] == w && r[i + 1] == rest[i];
      assert forall j :: i + 1 < j < |r| ==> r[j] == rest[j - 1];
      assert BehindLatest(r, i, reference, env);
    } else {
      if last.Some? {
        FilterMember(c, Differs(w), rest[last.value]);
      }
      FilterMember(c, Differs(w), w);
    }
  }

  /** Moving a window behind another one does so in the most-recently-used chain and on the window's desktops; other
      desktops are untouched, and so is everything if the window takes no focus by tab. */
  lemma MovePlacement(s: State, w: Window, reference: Window, env: Env)
    ensures var t := AfterMove(s, w, reference, env);
            if w !in env.wantsTabFocus then t == s
            else
              IsBehind(s.mru, t.mru, w, reference, env) && t.desktops.Keys == s.desktops.Keys &&
              (forall d :: d in s.desktops && env.IsOnDesktop(w, d) ==>
                 IsBehind(s.desktops[d], t.desktops[d], w, reference, env)) &&
              (forall d :: d in s.desktops && !env.IsOnDesktop(w, d) ==> t.desktops[d] == s.desktops[d])
  {
    hide MovedAfter, IsBehind;
    MovedBehind(s.mru, w, reference, env);
    forall d | d in s.desktops
      ensures w in env.wantsTabFocus && env.IsOnDesktop(w, d) ==>
                IsBehind(s.desktops[d], AfterMove(s, w, reference, env).desktops[d], w, reference, env)
    {
      MovedBehind(s.desktops[d], w, reference, env);
    }
  }

  /** Adding and removing a desktop changes nothing but its own chain, and the current desktop if that is removed. */
  lemma DesktopsAddedAndRemoved(s: State, d: Desktop, e: Desktop)
    ensures var t := DesktopAdded(s, d);
            t.mru == s.mru && t.current == s.current && d in t.desktops && t.desktops[d] == [] &&
            (e != d ==> (e in t.desktops <==> e in s.desktops) && (e in s.desktops ==> t.desktops[e] == s.desktops[e]))
    ensures var t := DesktopRemoved(s, d);
            t.mru == s.mru && d !in t.desktops && t.current != Some(d) && (s.current != Some(d) ==> t.current == s.current) &&
            (e != d ==> (e in t.desktops <==> e in s.desktops) && (e in s.desktops ==> t.desktops[e] == s.desktops[e]))
  {
  }

  // ---------------------------------------------------------------------------
  // The documented place of an updated window
  // ---------------------------------------------------------------------------

  /** The active window is the first one; any other is the second, directly after the active one. */
  predicate AsDocumented(chain: Chain, w: Window, active: Option<Window>) {
    if active == Some(w) then chain != [] && chain[|chain| - 1] == w
    else |chain| >= 2 && chain[|chain| - 2] == w && active == Some(chain[|chain| - 1])
  }

  /** A listed window is in its documented place already; a new one is the active window or finds that one first. */
  predicate WillBeAsDocumented(chain: Chain, w: Window, active: Option<Window>) {
    if w in chain then AsDocumented(chain, w, active)
    else active == Some(w) || (chain != [] && active == Some(chain[|chain| - 1]))
  }

  lemma InsertedAsDocumented(chain: Chain, w: Window, active: Option<Window>)
    ensures AsDocumented(Inserted(chain, w, active), w, active) <==> WillBeAsDocumented(chain, w, active)
  {
  }

  /** An update puts a window in its documented place, in the most-recently-used chain and on all its desktops, exactly if
      in each of these chains it is listed there already, or is new and the active window is itself or the chain's first. */
  lemma UpdateAsDocumentedExactly(s: State, w: Window, env: Env)
    requires w in env.wantsTabFocus
    ensures var t := Updated(s, w, Change.Update, env);
            (AsDocumented(t.mru, w, s.active) &&
             forall d :: d in t.desktops && env.IsOnDesktop(w, d) ==> AsDocumented(t.desktops[d], w, s.active)) <==>
            (WillBeAsDocumented(s.mru, w, s.active) &&
             forall d :: d in s.desktops && env.IsOnDesktop(w, d) ==> WillBeAsDocumented(s.desktops[d], w, s.active))
  {
    hide AsDocumented, WillBeAsDocumented, Inserted;
    var t := Updated(s, w, Change.Update, env);
    InsertedAsDocumented(s.mru, w, s.active);
    forall d | d in s.desktops && env.IsOnDesktop(w, d)
      ensures AsDocumented(t.desktops[d], w, s.active) <==> WillBeAsDocumented(s.desktops[d], w, s.active)
    {
      InsertedAsDocumented(s.desktops[d], w, s.active);
    }
  }

  /** A listed window stays where it is, and a window that is new to an empty chain becomes the first although another
      one is active. */
  lemma UpdateNotAsDocumented(w: Window, v: Window, a: Window)
    requires w != v && v != a && a != w
    ensures Inserted([w, v, a], w, Some(a)) == [w, v, a] && !AsDocumented([w, v, a], w, Some(a))
    ensures Inserted([], w, Some(a)) == [w] && !AsDocumented([w], w, Some(a))
  {
    assert [w, v, a][0] == w;
  }

  // ---------------------------------------------------------------------------
  // The most-recently-used chain and the history
  // ---------------------------------------------------------------------------

  /** A window was used, or removed (also by an update that finds it unwilling to take focus). */
  datatype Mention = Mention(window: Window, used: bool)

  function MentionOf(op: Op): seq<Mention> {
    if op.Update? then [Mention(op.window, op.window in op.env.wantsTabFocus)]
    else if op.Remove? then [Mention(op.window, false)]
    else []
  }

  function History(ops: seq<Op>): seq<Mention> {
    if ops == [] then [] else History(ops[..|ops| - 1]) + MentionOf(ops[|ops| - 1])
  }

  predicate Mentions(h: seq<Mention>, w: Window) {
    exists i :: 0 <= i < |h| && h[i].window == w
  }

  /** The windows whose last mention is a use, in the order of these last uses. */
  function Survivors(h: seq<Mention>): Chain {
    if h == [] then []
    else (if h[0].used && !Mentions(h[1..], h[0].window) then [h[0].window] else []) + Survivors(h[1..])
  }

  lemma MentionsSnoc(h: seq<Mention>, m: Mention, w: Window)
    ensures Mentions(h + [m], w) <==> Mentions(h, w) || m.window == w
  {
    assert (h + [m])[|h|] == m;
    assert forall i :: 0 <= i < |h| ==> (h + [m])[i] == h[i];
  }

  lemma {:induction false} SurvivorsSnoc(h: seq<Mention>, m: Mention)
    ensures Survivors(h + [m]) == Without(Survivors(h), m.window) + (if m.used then [m.window] else [])
  {
    if h == [] {
      assert (h + [m])[1..] == [];
      assert !Mentions([], m.window);
    } else {
      var tail, w := h[1..], h[0].window;
      assert (h + [m])[1..] == tail + [m];
      SurvivorsSnoc(tail, m);
      hide Mentions, Filter;
      MentionsSnoc(tail, m, w);
      var first := if h[0].used && !Mentions(tail, w) then [w] else [];
      FilterAppend(first, Survivors(tail), Differs(m.window));
      if first != [] {
        FilterSnoc([], w, Differs(m.window));
        assert [] + [w] == [w];
      }
    }
  }

  lemma {:induction false} SurvivorsMentioned(h: seq<Mention>, w: Window)
    ensures w in Survivors(h) <==> exists i :: 0 <= i < |h| && h[i] == Mention(w, true) && !Mentions(h[i + 1..], w)
  {
    if h != [] {
      var tail := h[1..];
      SurvivorsMentioned(tail, w);
      forall i | 0 <= i < |tail| ensures tail[i] == h[i + 1] && tail[i + 1..] == h[i + 2..] {
      }
      if w in Survivors(tail) {
        var i :| 0 <= i < |tail| && tail[i] == Mention(w, true) && !Mentions(tail[i + 1..], w);
        assert h[i + 1] == Mention(w, true) && !Mentions(h[i + 1 + 1..], w);
      }
      if exists i :: 0 <= i < |h| && h[i] == Mention(w, true) && !Mentions(h[i + 1..], w) {
        var i :| 0 <= i < |h| && h[i] == Mention(w, true) && !Mentions(h[i + 1..], w);
        if i > 0 {
          assert tail[i - 1] == Mention(w, true) && !Mentions(tail[i - 1 + 1..], w);
        }
      }
    }
  }

  /** All updates make their window the first, minimized windows getting the given treatment; nothing is moved after another. */
  predicate OnlyUses(ops: seq<Op>, moveMinimizedToEnd: bool) {
    forall i :: 0 <= i < |ops| ==>
      !ops[i].MoveAfter? && (ops[i].Update? ==> ops[i].change == MakeFirst && ops[i].env.moveMinimizedToEnd == moveMinimizedToEnd)
  }

  /** With the minimized option off, the chain is the history reduced to last uses. */
  lemma {:induction false} MruRefinesHistory(ops: seq<Op>)
    requires OnlyUses(ops, false)
    ensures Run(ops).mru == Survivors(History(ops))
  {
    if ops != [] {
      var before, op := ops[..|ops| - 1], ops[|ops| - 1];
      MruRefinesHistory(before);
      if op.Update? {
        SurvivorsSnoc(History(before), Mention(op.window, op.window in op.env.wantsTabFocus));
      } else if op.Remove? {
        SurvivorsSnoc(History(before), Mention(op.window, false));
      } else {
        assert History(ops) == History(before);
      }
    }
  }

  // ---------------------------------------------------------------------------
  // Minimized windows at the end
  // ---------------------------------------------------------------------------

  function In(m: set<Window>): Window -> bool {
    w => w in m
  }

  function Out(m: set<Window>): Window -> bool {
    w => w !in m
  }

  /** The minimized windows of `c` before all others, each class in its order. */
  function Parted(c: Chain, m: set<Window>): Chain {
    Filter(c, In(m)) + Filter(c, Out(m))
  }

  /** The windows that were minimized at the last update. */
  function MinimizedAt(ops: seq<Op>): set<Window> {
    if ops == [] then {}
    else if ops[|ops| - 1].Update? then ops[|ops| - 1].env.minimized
    else MinimizedAt(ops[..|ops| - 1])
  }

  /** A listed window changes between minimized and not only right before its own update. */
  predicate PromptUpdates(ops: seq<Op>)
    requires OnlyUses(ops, true)
  {
    forall i :: 0 <= i < |ops| && ops[i].Update? ==>
      forall v :: v in Run(ops[..i]).mru && v != ops[i].window ==>
        (v in ops[i].env.minimized <==> v in MinimizedAt(ops[..i]))
  }

  /** Removing a window commutes with parting the chain, if the other windows keep their class. */
  lemma PartedWithout(c: Chain, w: Window, was: set<Window>, m: set<Window>)
    requires forall v :: v in c && v != w ==> (v in m <==> v in was)
    ensures Without(Parted(c, was), w) == Parted(Without(c, w), m)
  {
    FilterAppend(Filter(c, In(was)), Filter(c, Out(was)), Differs(w));
    ClassWithout(c, w, In(was), In(m));
    ClassWithout(c, w, Out(was), Out(m));
  }

  lemma ClassWithout(c: Chain, w: Window, was: Window -> bool, now: Window -> bool)
    requires forall v :: v in c && v != w ==> (was(v) == now(v))
    ensures Without(Filter(c, was), w) == Filter(Without(c, w), now)
  {
    var both := v => was(v) && v != w;
    FilterTwice(c, was, Differs(w), both);
    FilterTwice(c, Differs(w), now, both);
  }

  /** Making a window the first one of a parted chain puts it at the recent end of its own class. */
  lemma MadeFirstParted(c: Chain, chain: Chain, w: Window, env: Env)
    requires env.moveMinimizedToEnd && w !in c && Without(chain, w) == Parted(c, env.minimized)
    ensures MadeFirst(chain, w, env) == Parted(c + [w], env.minimized)
  {
    var m := env.minimized;
    var low, high := Filter(c, In(m)), Filter(c, Out(m));
    FilterSnoc(c, w, In(m));
    FilterSnoc(c, w, Out(m));
    if w in m {
      forall i | 0 <= i < |low + high| ensures (low + high)[i] in m <==> i < |low| {
        FilterMember(c, In(m), (low + high)[i]);
        FilterMember(c, Out(m), (low + high)[i]);
      }
      EndOfUnique(low + high, m, |low|);
      assert (low + high)[..|low|] == low && (low + high)[|low|..] == high;
      assert low + [w] + high == (low + [w]) + high;
    } else {
      assert low + high + [w] == low + (high + [w]);
    }
  }

  /** Using a window, or finding it unwilling, keeps a parted chain parted. */
  lemma UpdateParted(c: Chain, was: set<Window>, chain: Chain, w: Window, env: Env)
    requires env.moveMinimizedToEnd && chain == Parted(c, was)
    requires forall v :: v in chain && v != w ==> (v in env.minimized <==> v in was)
    ensures w in env.wantsTabFocus ==> MadeFirst(chain, w, env) == Parted(Without(c, w) + [w], env.minimized)
    ensures w !in env.wantsTabFocus ==> Without(chain, w) == Parted(Without(c, w), env.minimized)
  {
    PartedMembers(c, was);
    PartedWithout(c, w, was, env.minimized);
    FilterMember(c, Differs(w), w);
    if w in env.wantsTabFocus {
      MadeFirstParted(Without(c, w), chain, w, env);
    }
  }

  /** All windows but `op`'s own are minimized as they were at `was`. */
  predicate OthersUnchanged(chain: Chain, op: Op, was: set<Window>)
    requires op.Update?
  {
    forall v :: v in chain && v != op.window ==> (v in op.env.minimized <==> v in was)
  }

  /** One operation keeps the chain the reduced and parted history. */
  lemma StepParted(s: State, op: Op, h: seq<Mention>, was: set<Window>)
    requires s.mru == Parted(Survivors(h), was) && !op.MoveAfter?
    requires op.Update? ==> op.change == MakeFirst && op.env.moveMinimizedToEnd && OthersUnchanged(s.mru, op, was)
    ensures Step(s, op).mru == Parted(Survivors(h + MentionOf(op)), if op.Update? then op.env.minimized else was)
  {
    var c := Survivors(h);
    if op.Update? {
      var w := op.window;
      SurvivorsSnoc(h, Mention(w, w in op.env.wantsTabFocus));
      UpdateParted(c, was, s.mru, w, op.env);
      assert Without(c, w) + [] == Without(c, w);
    } else if op.Remove? {
      SurvivorsSnoc(h, Mention(op.window, false));
      PartedWithout(c, op.window, was, was);
      assert Without(c, op.window) + [] == Without(c, op.window);
    } else {
      assert h + [] == h;
    }
  }

  /** With the minimized option on, the chain is the history reduced to last uses, minimized windows first. */
  lemma {:induction false} MruRefinesPartedHistory(ops: seq<Op>)
    requires OnlyUses(ops, true) && PromptUpdates(ops)
    ensures Run(ops).mru == Parted(Survivors(History(ops)), MinimizedAt(ops))
  {
    if ops != [] {
      var before, op := ops[..|ops| - 1], ops[|ops| - 1];
      PromptBefore(ops);
      MruRefinesPartedHistory(before);
      hide PromptUpdates, Parted, Survivors, Step, OthersUnchanged;
      StepParted(Run(before), op, History(before), MinimizedAt(before));
    }
  }

  lemma PromptBefore(ops: seq<Op>)
    requires OnlyUses(ops, true) && PromptUpdates(ops) && ops != []
    ensures var before, op := ops[..|ops| - 1], ops[|ops| - 1];
            PromptUpdates(before) && (op.Update? ==> OthersUnchanged(Run(before).mru, op, MinimizedAt(before)))
  {
    var before := ops[..|ops| - 1];
    assert forall i :: 0 <= i < |before| ==> before[i] == ops[i] && before[..i] == ops[..i];
  }

  lemma PartedMembers(c: Chain, m: set<Window>)
    ensures forall v :: v in Parted(c, m) <==> v in c
  {
    forall v ensures v in Parted(c, m) <==> v in c {
      FilterMember(c, In(m), v);
      FilterMember(c, Out(m), v);
    }
  }

  // ---------------------------------------------------------------------------
  // The chains of the desktops
  // ---------------------------------------------------------------------------

  function On(place: set<(Window, Desktop)>, d: Desktop): Window -> bool {
    w => (w, d) in place
  }

  /** Windows stay on their desktops, are made first or last without regard to minimized ones, and are not moved
      after others; a desktop is added while it has no window in use. */
  predicate Placed(ops: seq<Op>, place: set<(Window, Desktop)>) {
    ops != [] ==>
      var before, op := ops[..|ops| - 1], ops[|ops| - 1];
      Placed(before, place) && !op.MoveAfter? &&
      (op.Update? ==>
         op.env.onAllDesktops == {} && op.env.desktops == place && op.change != Change.Update &&
         !(op.change == MakeFirst && op.env.moveMinimizedToEnd && op.window in op.env.minimized)) &&
      (op.AddDesktop? && (forall i :: 0 <= i < |before| ==> before[i].Legal()) ==>
         Filter(Run(before).mru, On(place, op.desktop)) == [])
  }

  /** An update of a desktop's chain and of the whole chain agree. */
  lemma UpdatedIsFiltered(s: State, w: Window, change: Change, env: Env, d: Desktop)
    requires d in s.desktops && env.onAllDesktops == {} && change != Change.Update
    requires !(change == MakeFirst && env.moveMinimizedToEnd && w in env.minimized)
    requires s.desktops[d] == Filter(s.mru, On(env.desktops, d))
    ensures UpdatedOn(s, w, change, env, d) == Filter(Changed(s.mru, w, change, s.active, env), On(env.desktops, d))
  {
    var on, rest := On(env.desktops, d), Without(s.mru, w);
    ClassWithout(s.mru, w, on, on);
    FilterSnoc(rest, w, on);
    FilterAppend([w], rest, on);
    FilterSnoc([], w, on);
    assert [] + [w] == [w];
    assert [] + Filter(rest, on) == Filter(rest, on);
  }

  /** While windows keep their desktops, each desktop's chain is the most-recently-used chain restricted to the desktop. */
  lemma {:induction false} DesktopChainsAreFiltered(ops: seq<Op>, place: set<(Window, Desktop)>, d: Desktop)
    requires (forall i :: 0 <= i < |ops| ==> ops[i].Legal()) && Placed(ops, place)
    requires d in Run(ops).desktops
    ensures Run(ops).desktops[d] == Filter(Run(ops).mru, On(place, d))
  {
    if ops != [] {
      var before, op := ops[..|ops| - 1], ops[|ops| - 1];
      var s := Run(before);
      if d in s.desktops {
        DesktopChainsAreFiltered(before, place, d);
      }
      match op
      case Update(w, change, env) =>
        ClassWithout(s.mru, w, On(place, d), On(place, d));
        if w in env.wantsTabFocus {
          UpdatedIsFiltered(s, w, change, env, d);
        }
      case Remove(w) => ClassWithout(s.mru, w, On(place, d), On(place, d));
      case _ =>
    }
  }

  // ---------------------------------------------------------------------------
  // Walking through the chain
  // ---------------------------------------------------------------------------

  /** The windows met in `n` steps from `start`, which is the first of them. */
  function Walk(mru: Chain, start: Window, n: nat): seq<Window>
    decreases n
  {
    if n == 0 then []
    else
      var next := NextInCycle(mru, start);
      [start] + (if next.Some? then Walk(mru, next.value, n - 1) else [])
  }

  lemma IndexOfUnique(s: Chain, i: nat)
    requires NoDup(s) && i < |s|
    ensures IndexOf(s, s[i]) == i
  {
    var j := IndexOf(s, s[i]);
    assert s[j] == s[i];
  }

  /** The position k places further back than i, counted cyclically. */
  function Back(i: nat, k: nat, n: nat): (b: nat)
    requires i < n && k < n
    ensures b < n
  {
    if k <= i then i - k else n + i - k
  }

  function BeforeInCycle(mru: Chain, i: nat): Window
    requires i < |mru|
  {
    if i == 0 then mru[|mru| - 1] else mru[i - 1]
  }

  /** The next window is the one before, cyclically; an unlisted window is followed by the least recent one. */
  lemma NextExactly(mru: Chain, w: Window)
    requires NoDup(mru)
    ensures forall i :: 0 <= i < |mru| && mru[i] == w ==> NextInCycle(mru, w) == Some(BeforeInCycle(mru, i))
    ensures w !in mru ==> NextInCycle(mru, w) == if mru == [] then None else Some(mru[0])
  {
    forall i | 0 <= i < |mru| && mru[i] == w ensures IndexOf(mru, w) == i {
      IndexOfUnique(mru, i);
    }
  }

  lemma WalkUnfold(mru: Chain, i: nat, n: nat)
    requires NoDup(mru) && i < |mru| && n > 0
    ensures Walk(mru, mru[i], n) == [mru[i]] + Walk(mru, mru[if i == 0 then |mru| - 1 else i - 1], n - 1)
  {
    NextExactly(mru, mru[i]);
  }

  lemma {:induction false} WalkLength(mru: Chain, i: nat, n: nat)
    requires NoDup(mru) && i < |mru|
    ensures |Walk(mru, mru[i], n)| == n
    decreases n
  {
    if n > 0 {
      WalkUnfold(mru, i, n);
      WalkLength(mru, if i == 0 then |mru| - 1 else i - 1, n - 1);
    }
  }

  /** The k-th window of a walk is the one k places further back. */
  lemma {:induction false} WalkAt(mru: Chain, i: nat, n: nat, k: nat)
    requires NoDup(mru) && i < |mru| && k < n <= |mru|
    ensures |Walk(mru, mru[i], n)| == n && Walk(mru, mru[i], n)[k] == mru[Back(i, k, |mru|)]
    decreases n
  {
    hide Walk, NoDup;
    var j := if i == 0 then |mru| - 1 else i - 1;
    WalkLength(mru, i, n);
    WalkUnfold(mru, i, n);
    BackStep(i, k, |mru|);
    if k > 0 {
      WalkAt(mru, j, n - 1, k - 1);
    }
  }

  lemma BackStep(i: nat, k: nat, n: nat)
    requires i < n && k < n
    ensures Back(i, k, n) == if k == 0 then i else Back(if i == 0 then n - 1 else i - 1, k - 1, n)
  {
  }

  /** As many steps as there are windows meet every window exactly once, and the next step is back at the start. */
  ghost predicate VisitsAllOnce(mru: Chain, start: Window) {
    var walk := Walk(mru, start, |mru|);
    |walk| == |mru| > 0 && NoDup(walk) && (forall w :: w in mru <==> w in walk) &&
    NextInCycle(mru, walk[|mru| - 1]) == Some(start)
  }

  lemma FullWalk(mru: Chain, start: Window)
    requires NoDup(mru) && start in mru
    ensures VisitsAllOnce(mru, start)
  {
    var i := IndexOf(mru, start);
    var walk := Walk(mru, start, |mru|);
    WalkLength(mru, i, |mru|);
    forall k | 0 <= k < |mru| ensures walk[k] == mru[Back(i, k, |mru|)] {
      WalkAt(mru, i, |mru|, k);
    }
    NextExactly(mru, mru[Back(i, |mru| - 1, |mru|)]);
    hide Walk, NextInCycle;
    BackCovers(mru, i, walk);
  }

  /** Counting back cyclically over a whole chain meets every element once. */
  lemma BackCovers(mru: Chain, i: nat, walk: seq<Window>)
    requires NoDup(mru) && i < |mru| == |walk| && forall k :: 0 <= k < |mru| ==> walk[k] == mru[Back(i, k, |mru|)]
    ensures NoDup(walk) && forall w :: w in mru <==> w in walk
  {
    forall w | w in mru ensures w in walk {
      var j := IndexOf(mru, w);
      assert walk[Back(i, j, |mru|)] == mru[Back(i, Back(i, j, |mru|), |mru|)];
    }
  }

  /** In every reachable state, from any listed window the walk meets every window once and returns to the start. */
  lemma CyclicTraversal(ops: seq<Op>, start: Window)
    requires forall i :: 0 <= i < |ops| ==> ops[i].Legal()
    requires start in Run(ops).mru
    ensures VisitsAllOnce(Run(ops).mru, start)
  {
    hide VisitsAllOnce, Run;
    ReachableValid(ops);
    FullWalk(Run(ops).mru, start);
  }
}
