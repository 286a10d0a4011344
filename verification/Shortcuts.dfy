/** The table of global shortcuts and the two gesture recognizers that must agree with it. */
module Shortcuts {
  import opened Sequences
  import opened Gestures

  type Action = nat

  datatype DeviceType = Touchpad | Touchscreen

  /** The shortcut variants; callbacks are opaque numbers. */
  datatype Shortcut =
    | Keyboard(keys: nat)
    | PointerButton(modifiers: nat, buttons: nat)
    | PointerAxis(modifiers: nat, axis: nat)
    | Swipe(device: DeviceType, direction: Direction, fingers: nat)
    | RealtimeSwipe(device: DeviceType, direction: Direction, callback: nat, fingers: nat)
    | Pinch(pinchDirection: PinchDirection, fingers: nat)
    | RealtimePinch(pinchDirection: PinchDirection, callback: nat, fingers: nat)
  {
    predicate IsSwipe() {
      Swipe? || RealtimeSwipe?
    }

    predicate IsPinch() {
      Pinch? || RealtimePinch?
    }

    /** The device whose recognizer the shortcut belongs to. */
    function Device(): DeviceType {
      if IsSwipe() then device else Touchpad
    }

    /** Equality of the source's variants: same alternative, and equal but for the callback. */
    predicate Same(other: Shortcut) {
      match this
      case RealtimeSwipe(d, dir, _, n) =>
        other.RealtimeSwipe? && other.device == d && other.direction == dir && other.fingers == n
      case RealtimePinch(dir, _, n) =>
        other.RealtimePinch? && other.pinchDirection == dir && other.fingers == n
      case _ => this == other
    }
  }

  /** What the table says, without the gesture objects. */
  datatype Entry = Entry(shortcut: Shortcut, action: Action)

  /** A stored shortcut owns the gesture that recognises it. */
  datatype GlobalShortcut = GlobalShortcut(entry: Entry, swipe: SwipeGesture?, pinch: PinchGesture?) {
    predicate OwnsGesture() {
      (swipe != null <==> entry.shortcut.IsSwipe()) && (pinch != null <==> entry.shortcut.IsPinch())
    }
  }

  // ---------------------------------------------------------------------------
  // The table on values
  // ---------------------------------------------------------------------------

  predicate Distinct(table: seq<Entry>) {
    forall i, j :: 0 <= i < j < |table| ==> !table[i].shortcut.Same(table[j].shortcut)
  }

  predicate Knows(table: seq<Entry>, s: Shortcut) {
    exists i :: 0 <= i < |table| && table[i].shortcut.Same(s)
  }

  function NotSame(s: Shortcut): Entry -> bool {
    (e: Entry) => !e.shortcut.Same(s)
  }

  function NotOf(a: Action): Entry -> bool {
    (e: Entry) => e.action != a
  }

  function Added(table: seq<Entry>, e: Entry): seq<Entry> {
    if Knows(table, e.shortcut) then table else table + [e]
  }

  function Forced(table: seq<Entry>, e: Entry): seq<Entry> {
    Filter(table, NotSame(e.shortcut)) + [e]
  }

  function Deleted(table: seq<Entry>, a: Action): seq<Entry> {
    Filter(table, NotOf(a))
  }

  function Table(shortcuts: seq<GlobalShortcut>): seq<Entry> {
    seq(|shortcuts|, i requires 0 <= i < |shortcuts| => shortcuts[i].entry)
  }

  /** The swipe gestures owned by shortcuts of a device, in table order. */
  ghost function SwipesOf(shortcuts: seq<GlobalShortcut>, d: DeviceType): seq<SwipeGesture> {
    if shortcuts == [] then []
    else
      var s := shortcuts[|shortcuts| - 1];
      SwipesOf(shortcuts[..|shortcuts| - 1], d) +
      (if s.swipe != null && s.entry.shortcut.Device() == d then [s.swipe] else [])
  }

  ghost function PinchesOf(shortcuts: seq<GlobalShortcut>): seq<PinchGesture> {
    if shortcuts == [] then []
    else
      var s := shortcuts[|shortcuts| - 1];
      PinchesOf(shortcuts[..|shortcuts| - 1]) + (if s.pinch != null then [s.pinch] else [])
  }

  lemma {:induction false} SwipesAppend(a: seq<GlobalShortcut>, b: seq<GlobalShortcut>, d: DeviceType)
    ensures SwipesOf(a + b, d) == SwipesOf(a, d) + SwipesOf(b, d)
  {
    if b == [] {
      assert a + b == a;
    } else {
      assert (a + b)[..|a + b| - 1] == a + b[..|b| - 1];
      SwipesAppend(a, b[..|b| - 1], d);
    }
  }

  lemma {:induction false} PinchesAppend(a: seq<GlobalShortcut>, b: seq<GlobalShortcut>)
    ensures PinchesOf(a + b) == PinchesOf(a) + PinchesOf(b)
  {
    if b == [] {
      assert a + b == a;
    } else {
      assert (a + b)[..|a + b| - 1] == a + b[..|b| - 1];
      PinchesAppend(a, b[..|b| - 1]);
    }
  }

  ghost function OwnSwipe(s: GlobalShortcut, d: DeviceType): seq<SwipeGesture> {
    if s.swipe != null && s.entry.shortcut.Device() == d then [s.swipe] else []
  }

  ghost function OwnPinch(s: GlobalShortcut): seq<PinchGesture> {
    if s.pinch != null then [s.pinch] else []
  }

  /** The gestures of a table with one shortcut in the middle. */
  lemma GesturesAround(shortcuts: seq<GlobalShortcut>, i: nat, d: DeviceType)
    requires i < |shortcuts|
    ensures SwipesOf(shortcuts, d) == SwipesOf(shortcuts[..i], d) + OwnSwipe(shortcuts[i], d) + SwipesOf(shortcuts[i + 1..], d)
    ensures PinchesOf(shortcuts) == PinchesOf(shortcuts[..i]) + OwnPinch(shortcuts[i]) + PinchesOf(shortcuts[i + 1..])
    ensures SwipesOf(shortcuts[..i] + shortcuts[i + 1..], d) == SwipesOf(shortcuts[..i], d) + SwipesOf(shortcuts[i + 1..], d)
    ensures PinchesOf(shortcuts[..i] + shortcuts[i + 1..]) == PinchesOf(shortcuts[..i]) + PinchesOf(shortcuts[i + 1..])
  {
    var a, x, b := shortcuts[..i], [shortcuts[i]], shortcuts[i + 1..];
    assert shortcuts == (a + x) + b;
    SwipesAppend(a + x, b, d);
    SwipesAppend(a, x, d);
    SwipesAppend(a, b, d);
    PinchesAppend(a + x, b);
    PinchesAppend(a, x);
    PinchesAppend(a, b);
    assert x[..0] == [];
    assert SwipesOf(x, d) == OwnSwipe(shortcuts[i], d) && PinchesOf(x) == OwnPinch(shortcuts[i]);
  }

  /** Taking an element out of the middle of a list without repetitions. */
  lemma WithoutMiddle<T>(a: seq<T>, x: T, b: seq<T>)
    requires NoDup(a + [x] + b)
    ensures Without(a + [x] + b, x) == a + b
  {
    var s := a + [x] + b;
    assert s[|a|] == x && s[..|a|] == a && s[|a| + 1..] == b;
    WithoutOne(s, |a|);
  }

  // ---------------------------------------------------------------------------
  // The manager
  // ---------------------------------------------------------------------------

  class GlobalShortcutsManager {
    var shortcuts: seq<GlobalShortcut>
    const touchpad: GestureRecognizer
    const touchscreen: GestureRecognizer
    /** The actions invoked so far. */
    ghost var invoked: seq<Action>

    /** No two stored shortcuts are equal, and each recognizer has exactly the gestures of its device's shortcuts. */
    ghost predicate Valid()
      reads this, touchpad, touchscreen
    {
      touchpad != touchscreen && touchpad.Valid() && touchscreen.Valid() &&
      Distinct(Table(shortcuts)) && (forall i :: 0 <= i < |shortcuts| ==> shortcuts[i].OwnsGesture()) &&
      touchpad.swipes == SwipesOf(shortcuts, Touchpad) &&
      touchscreen.swipes == SwipesOf(shortcuts, Touchscreen) &&
      touchpad.pinches == PinchesOf(shortcuts) && touchscreen.pinches == []
    }

    constructor ()
      ensures Valid() && shortcuts == [] && invoked == [] && fresh(touchpad) && fresh(touchscreen)
    {
      touchpad := new GestureRecognizer();
      touchscreen := new GestureRecognizer();
      shortcuts, invoked := [], [];
    }

    /** The constructor of GlobalShortcut: gesture shortcuts get a gesture with their direction and finger count. */
    method NewShortcut(entry: Entry) returns (s: GlobalShortcut)
      ensures s.entry == entry && s.OwnsGesture()
      ensures s.swipe != null ==>
                fresh(s.swipe) && s.swipe.Params().direction == entry.shortcut.direction &&
                (forall n :: s.swipe.Params().FingersMatch(n) <==> n == entry.shortcut.fingers) &&
                !s.swipe.Params().FourSided() &&
                s.swipe.minimumDelta == (if entry.shortcut.RealtimeSwipe? then Some(Vec(200.0, 200.0)) else None)
      ensures s.pinch != null ==>
                fresh(s.pinch) && s.pinch.direction == entry.shortcut.pinchDirection &&
                s.pinch.minimumScaleDelta == 0.2 &&
                forall n :: s.pinch.Params().FingersMatch(n) <==> n == entry.shortcut.fingers
    {
      var swipe: SwipeGesture? := null;
      var pinch: PinchGesture? := null;
      match entry.shortcut {
        case Swipe(_, direction, fingers) =>
          swipe := new SwipeGesture();
          swipe.SetDirection(direction);
          swipe.SetMaximumFingerCount(fingers);
          swipe.SetMinimumFingerCount(fingers);
        case RealtimeSwipe(_, direction, _, fingers) =>
          swipe := new SwipeGesture();
          swipe.SetDirection(direction);
          swipe.SetMinimumDelta(Vec(200.0, 200.0));
          swipe.SetMaximumFingerCount(fingers);
          swipe.SetMinimumFingerCount(fingers);
        case Pinch(direction, fingers) =>
          pinch := new PinchGesture();
          pinch.SetDirection(direction);
          pinch.SetMaximumFingerCount(fingers);
          pinch.SetMinimumFingerCount(fingers);
        case RealtimePinch(direction, _, fingers) =>
          pinch := new PinchGesture();
          pinch.SetDirection(direction);
          pinch.SetMaximumFingerCount(fingers);
          pinch.SetMinimumFingerCount(fingers);
        case _ =>
      }
      s := GlobalShortcut(entry, swipe, pinch);
    }

    /** Registers the shortcut's gesture and stores the shortcut at the end. */
    method Store(s: GlobalShortcut)
      requires Valid() && s.OwnsGesture() && !Knows(Table(shortcuts), s.entry.shortcut)
      requires s.swipe != null ==> s.swipe !in touchpad.swipes && s.swipe !in touchscreen.swipes
      requires s.pinch != null ==> s.pinch !in touchpad.pinches
      modifies this, touchpad, touchscreen
      ensures Valid() && shortcuts == old(shortcuts) + [s] && invoked == old(invoked)
    {
      var recognizer := if s.entry.shortcut.Device() == Touchpad then touchpad else touchscreen;
      if s.entry.shortcut.IsSwipe() {
        recognizer.RegisterSwipeGesture(s.swipe);
      } else if s.entry.shortcut.IsPinch() {
        recognizer.RegisterPinchGesture(s.pinch);
      }
      StoredTable(shortcuts, s);
      shortcuts := shortcuts + [s];
    }

    method AddIfNotExists(entry: Entry) returns (added: bool)
      requires Valid()
      modifies this, touchpad, touchscreen
      ensures Valid() && Table(shortcuts) == Added(old(Table(shortcuts)), entry) && invoked == old(invoked)
      ensures added == !Knows(old(Table(shortcuts)), entry.shortcut)
    {
      var s := NewShortcut(entry);
      for i := 0 to |shortcuts|
        invariant forall j :: 0 <= j < i ==> !shortcuts[j].entry.shortcut.Same(entry.shortcut)
      {
        if entry.shortcut.Same(shortcuts[i].entry.shortcut) {
          assert Table(shortcuts)[i].shortcut.Same(entry.shortcut);
          return false;
        }
      }
      assert !Knows(Table(shortcuts), entry.shortcut);
      StoredTable(shortcuts, s);
      Store(s);
      return true;
    }

    /** The gesture of an erased shortcut is destroyed, and thereby unregistered from its recognizer. */
    method DestroyGesture(s: GlobalShortcut)
      requires touchpad != touchscreen && touchpad.Valid() && touchscreen.Valid() && s.OwnsGesture()
      modifies touchpad, touchscreen
      ensures touchpad.Valid() && touchscreen.Valid()
      ensures touchpad.swipes == WithoutOwn(old(touchpad.swipes), s, Touchpad)
      ensures touchscreen.swipes == WithoutOwn(old(touchscreen.swipes), s, Touchscreen)
      ensures touchpad.pinches == WithoutOwnPinch(old(touchpad.pinches), s)
      ensures touchscreen.pinches == old(touchscreen.pinches)
    {
      if s.swipe != null {
        if s.entry.shortcut.Device() == Touchpad {
          touchpad.UnregisterSwipeGesture(s.swipe);
        } else {
          touchscreen.UnregisterSwipeGesture(s.swipe);
        }
      } else if s.pinch != null {
        touchpad.UnregisterPinchGesture(s.pinch);
      }
    }

    method Erase(i: nat)
      requires Valid() && i < |shortcuts|
      modifies this, touchpad, touchscreen
      ensures Valid() && shortcuts == old(shortcuts)[..i] + old(shortcuts)[i + 1..] && invoked == old(invoked)
      ensures Within(touchpad.swipes, old(touchpad.swipes)) && Within(touchscreen.swipes, old(touchscreen.swipes))
    {
      hide SwipesOf, PinchesOf, Filter, Distinct;
      var s := shortcuts[i];
      ErasedGestures(shortcuts, i, Touchpad);
      ErasedGestures(shortcuts, i, Touchscreen);
      ErasedDistinct(shortcuts, i);
      WithoutOwnWithin(touchpad.swipes, s, Touchpad);
      WithoutOwnWithin(touchscreen.swipes, s, Touchscreen);
      DestroyGesture(s);
      shortcuts := shortcuts[..i] + shortcuts[i + 1..];
    }

    /** Replaces an equal shortcut, if there is one, and stores the new one last. */
    method ForceRegisterTouchscreenSwipe(action: Action, callback: nat, direction: Direction, fingers: nat)
      requires Valid()
      modifies this, touchpad, touchscreen
      ensures Valid() && invoked == old(invoked)
      ensures Table(shortcuts) == Forced(old(Table(shortcuts)), Entry(RealtimeSwipe(Touchscreen, direction, callback, fingers), action))
    {
      hide SwipesOf, PinchesOf, Filter, Distinct;
      var entry := Entry(RealtimeSwipe(Touchscreen, direction, callback, fingers), action);
      var s := NewShortcut(entry);
      ghost var table := Table(shortcuts);
      var i := 0;
      while i < |shortcuts| && !entry.shortcut.Same(shortcuts[i].entry.shortcut)
        invariant i <= |shortcuts|
        invariant forall j :: 0 <= j < i ==> !table[j].shortcut.Same(entry.shortcut)
      {
        i := i + 1;
      }
      ForcedAt(table, i, entry);
      if i < |shortcuts| {
        RestTable(shortcuts, i);
        Erase(i);
      }
      StoredTable(shortcuts, s);
      Store(s);
    }

    /** Drops all shortcuts of an action that is being deleted. */
    method ObjectDeleted(action: Action)
      requires Valid()
      modifies this, touchpad, touchscreen
      ensures Valid() && Table(shortcuts) == Deleted(old(Table(shortcuts)), action) && invoked == old(invoked)
    {
      hide SwipesOf, PinchesOf, Distinct, Filter;
      ghost var was := Table(shortcuts);
      ghost var seen := 0;
      EraseStart(was, NotOf(action));
      var it := 0;
      while it < |shortcuts|
        invariant Valid() && invoked == old(invoked)
        invariant seen <= |was| && ErasedUpTo(was, seen, NotOf(action), Table(shortcuts), it)
        decreases |shortcuts| - it
      {
        EraseStep(was, seen, NotOf(action), Table(shortcuts), it);
        seen := seen + 1;
        if shortcuts[it].entry.action == action {
          RestTable(shortcuts, it);
          Erase(it);
        } else {
          it := it + 1;
        }
      }
      EraseEnd(was, seen, NotOf(action), Table(shortcuts), it);
    }

    /** Invokes the shortcut that equals `wanted`; the result tells whether there is one. */
    method Match(wanted: Shortcut) returns (found: bool)
      requires Valid()
      modifies this`invoked
      ensures found == Knows(Table(shortcuts), wanted)
      ensures found ==> exists i :: 0 <= i < |shortcuts| && shortcuts[i].entry.shortcut.Same(wanted) &&
                          invoked == old(invoked) + [shortcuts[i].entry.action]
      ensures !found ==> invoked == old(invoked)
    {
      for i := 0 to |shortcuts|
        invariant forall j :: 0 <= j < i ==> !Table(shortcuts)[j].shortcut.Same(wanted)
        invariant invoked == old(invoked)
      {
        if shortcuts[i].entry.shortcut.Same(wanted) {
          assert Table(shortcuts)[i].shortcut.Same(wanted);
          invoked := invoked + [shortcuts[i].entry.action];
          return true;
        }
      }
      return false;
    }
  }

  ghost function WithoutOwn(swipes: seq<SwipeGesture>, s: GlobalShortcut, d: DeviceType): seq<SwipeGesture> {
    if s.swipe != null && s.entry.shortcut.Device() == d then
      var g: SwipeGesture := s.swipe;
      Without<SwipeGesture>(swipes, g)
    else swipes
  }

  ghost function WithoutOwnPinch(pinches: seq<PinchGesture>, s: GlobalShortcut): seq<PinchGesture> {
    if s.pinch != null then
      var g: PinchGesture := s.pinch;
      Without<PinchGesture>(pinches, g)
    else pinches
  }

  lemma WithoutOwnWithin(swipes: seq<SwipeGesture>, s: GlobalShortcut, d: DeviceType)
    ensures Within(WithoutOwn(swipes, s, d), swipes)
  {
    if s.swipe != null {
      var g: SwipeGesture := s.swipe;
      FilterWithin<SwipeGesture>(swipes, Differs<SwipeGesture>(g));
    }
  }

  /** The gestures of the remaining shortcuts are the registered ones without the erased one's. */
  lemma ErasedGestures(shortcuts: seq<GlobalShortcut>, i: nat, d: DeviceType)
    requires i < |shortcuts| && NoDup(SwipesOf(shortcuts, d)) && NoDup(PinchesOf(shortcuts))
    ensures SwipesOf(shortcuts[..i] + shortcuts[i + 1..], d) == WithoutOwn(SwipesOf(shortcuts, d), shortcuts[i], d)
    ensures PinchesOf(shortcuts[..i] + shortcuts[i + 1..]) == WithoutOwnPinch(PinchesOf(shortcuts), shortcuts[i])
  {
    GesturesAround(shortcuts, i, d);
    hide SwipesOf, PinchesOf, Filter;
    OwnSwipeOut(SwipesOf(shortcuts[..i], d), shortcuts[i], SwipesOf(shortcuts[i + 1..], d), d);
    OwnPinchOut(PinchesOf(shortcuts[..i]), shortcuts[i], PinchesOf(shortcuts[i + 1..]));
  }

  lemma OwnSwipeOut(a: seq<SwipeGesture>, s: GlobalShortcut, b: seq<SwipeGesture>, d: DeviceType)
    requires NoDup(a + OwnSwipe(s, d) + b)
    ensures WithoutOwn(a + OwnSwipe(s, d) + b, s, d) == a + b
  {
    if s.swipe != null && s.entry.shortcut.Device() == d {
      var g: SwipeGesture := s.swipe;
      WithoutMiddle<SwipeGesture>(a, g, b);
    } else {
      assert a + [] + b == a + b;
    }
  }

  lemma OwnPinchOut(a: seq<PinchGesture>, s: GlobalShortcut, b: seq<PinchGesture>)
    requires NoDup(a + OwnPinch(s) + b)
    ensures WithoutOwnPinch(a + OwnPinch(s) + b, s) == a + b
  {
    if s.pinch != null {
      var g: PinchGesture := s.pinch;
      WithoutMiddle<PinchGesture>(a, g, b);
    } else {
      assert a + [] + b == a + b;
    }
  }

  lemma RestTable(shortcuts: seq<GlobalShortcut>, i: nat)
    requires i < |shortcuts|
    ensures Table(shortcuts[..i] + shortcuts[i + 1..]) == Table(shortcuts)[..i] + Table(shortcuts)[i + 1..]
  {
  }

  /** Dropping the one element that a filter refuses. */
  lemma FilterMiddle(a: seq<Entry>, x: Entry, b: seq<Entry>, keep: Entry -> bool)
    requires !keep(x) && (forall i :: 0 <= i < |a| ==> keep(a[i])) && forall i :: 0 <= i < |b| ==> keep(b[i])
    ensures Filter(a + [x] + b, keep) == a + b
  {
    FilterAppend(a + [x], b, keep);
    FilterSnoc(a, x, keep);
    FilterAll(a, keep);
    FilterAll(b, keep);
  }

  /** In a table without equal shortcuts, a shortcut equals at most one. */
  lemma OnlyOneSame(table: seq<Entry>, i: nat, s: Shortcut)
    requires Distinct(table) && i < |table| && s.Same(table[i].shortcut)
    ensures forall k :: 0 <= k < |table| && k != i ==> !table[k].shortcut.Same(s)
  {
    forall k | 0 <= k < |table| && k != i ensures !table[k].shortcut.Same(s) {
      SameIsEquivalence(table[k].shortcut, s, table[i].shortcut);
      SameIsEquivalence(table[k].shortcut, table[i].shortcut, s);
    }
  }

  /** In a table without equal shortcuts, dropping the first equal one drops all. */
  lemma ForcedAt(table: seq<Entry>, i: nat, e: Entry)
    requires Distinct(table) && i <= |table|
    requires forall j :: 0 <= j < i ==> !table[j].shortcut.Same(e.shortcut)
    requires i < |table| ==> e.shortcut.Same(table[i].shortcut)
    ensures Forced(table, e) == (if i < |table| then table[..i] + table[i + 1..] else table) + [e]
    ensures !Knows(if i < |table| then table[..i] + table[i + 1..] else table, e.shortcut)
  {
    hide Distinct, Filter, Shortcut.Same;
    if i < |table| {
      OnlyOneSame(table, i, e.shortcut);
      SameIsEquivalence(e.shortcut, table[i].shortcut, e.shortcut);
      FilterMiddle(table[..i], table[i], table[i + 1..], NotSame(e.shortcut));
      assert table == table[..i] + [table[i]] + table[i + 1..];
    } else {
      FilterAll(table, NotSame(e.shortcut));
    }
  }

  lemma StoredTable(shortcuts: seq<GlobalShortcut>, s: GlobalShortcut)
    ensures Table(shortcuts + [s]) == Table(shortcuts) + [s.entry]
    ensures (shortcuts + [s])[..|shortcuts|] == shortcuts
  {
  }

  lemma ErasedDistinct(shortcuts: seq<GlobalShortcut>, i: nat)
    requires Distinct(Table(shortcuts)) && i < |shortcuts|
    ensures Distinct(Table(shortcuts[..i] + shortcuts[i + 1..]))
  {
    var rest := shortcuts[..i] + shortcuts[i + 1..];
    assert forall k :: 0 <= k < |rest| ==> Table(rest)[k] == Table(shortcuts)[if k < i then k else k + 1];
  }

  // ---------------------------------------------------------------------------
  // Runs
  // ---------------------------------------------------------------------------

  datatype Op =
    | Register(entry: Entry)
    | ForceRegister(entry: Entry)
    | DeleteAction(action: Action)

  function After(table: seq<Entry>, op: Op): seq<Entry> {
    match op
    case Register(e) => Added(table, e)
    case ForceRegister(e) => Forced(table, e)
    case DeleteAction(a) => Deleted(table, a)
  }

  function Run(ops: seq<Op>): seq<Entry> {
    if ops == [] then [] else After(Run(ops[..|ops| - 1]), ops[|ops| - 1])
  }

  /** Who a shortcut belongs to, told from the calls about it alone: the first to register a free shortcut,
      or the last to force it, until the action is deleted. */
  function Owner(ops: seq<Op>, s: Shortcut): Option<Action> {
    if ops == [] then None
    else
      var before := Owner(ops[..|ops| - 1], s);
      match ops[|ops| - 1]
      case Register(e) => if e.shortcut.Same(s) && before == None then Some(e.action) else before
      case ForceRegister(e) => if e.shortcut.Same(s) then Some(e.action) else before
      case DeleteAction(a) => if before == Some(a) then None else before
  }

  lemma {:induction false} FilterDistinct(table: seq<Entry>, keep: Entry -> bool)
    requires Distinct(table)
    ensures Distinct(Filter(table, keep))
  {
    if table != [] {
      var t, e := table[..|table| - 1], table[|table| - 1];
      FilterDistinct(t, keep);
      var f := Filter(t, keep);
      forall i | 0 <= i < |f| ensures !f[i].shortcut.Same(e.shortcut) {
        FilterMember(t, keep, f[i]);
      }
    }
  }

  /** In every run no two stored shortcuts are equal. */
  lemma {:induction false} RunDistinct(ops: seq<Op>)
    ensures Distinct(Run(ops))
  {
    if ops != [] {
      var table, op := Run(ops[..|ops| - 1]), ops[|ops| - 1];
      RunDistinct(ops[..|ops| - 1]);
      match op
      case Register(e) =>
      case ForceRegister(e) =>
        FilterDistinct(table, NotSame(e.shortcut));
        var f := Filter(table, NotSame(e.shortcut));
        forall i | 0 <= i < |f| ensures !f[i].shortcut.Same(e.shortcut) {
          FilterMember(table, NotSame(e.shortcut), f[i]);
        }
      case DeleteAction(a) => FilterDistinct(table, NotOf(a));
    }
  }

  /** A shortcut with its callback blotted out. */
  function WithoutCallback(s: Shortcut): Shortcut {
    if s.RealtimeSwipe? || s.RealtimePinch? then s.(callback := 0) else s
  }

  /** Shortcuts are equal exactly if nothing but their callbacks differs. */
  lemma SameExactly(a: Shortcut, b: Shortcut)
    ensures a.Same(b) <==> WithoutCallback(a) == WithoutCallback(b)
  {
  }

  /** The gesture of a stored swipe is registered for the device that the swipe names, at one place, and the gesture of a
      stored pinch for the touchpad. */
  lemma {:induction false} GestureOfDevice(shortcuts: seq<GlobalShortcut>, i: nat)
    requires i < |shortcuts| && shortcuts[i].OwnsGesture()
    ensures var s, e := shortcuts[i], shortcuts[i].entry.shortcut;
            ((e.Swipe? || e.RealtimeSwipe?) && e.device == Touchpad ==> s.swipe in SwipesOf(shortcuts, Touchpad)) &&
            ((e.Swipe? || e.RealtimeSwipe?) && e.device == Touchscreen ==> s.swipe in SwipesOf(shortcuts, Touchscreen)) &&
            (e.Pinch? || e.RealtimePinch? ==> s.pinch in PinchesOf(shortcuts))
  {
    if i < |shortcuts| - 1 {
      GestureOfDevice(shortcuts[..|shortcuts| - 1], i);
    }
  }

  /** Some stored shortcut equal to `s` belongs to the action. */
  predicate Belongs(table: seq<Entry>, s: Shortcut, a: Action) {
    exists i :: 0 <= i < |table| && table[i].shortcut.Same(s) && table[i].action == a
  }

  lemma BelongsSnoc(table: seq<Entry>, e: Entry, s: Shortcut, a: Action)
    ensures Belongs(table + [e], s, a) <==> Belongs(table, s, a) || (e.shortcut.Same(s) && e.action == a)
  {
    var all := table + [e];
    assert all[|table|] == e && forall i :: 0 <= i < |table| ==> all[i] == table[i];
    if Belongs(table, s, a) {
      var i :| 0 <= i < |table| && table[i].shortcut.Same(s) && table[i].action == a;
      assert all[i].shortcut.Same(s) && all[i].action == a;
    }
    if e.shortcut.Same(s) && e.action == a {
      assert all[|table|].shortcut.Same(s) && all[|table|].action == a;
    }
  }

  lemma BelongsFilter(table: seq<Entry>, keep: Entry -> bool, s: Shortcut, a: Action)
    ensures Belongs(Filter(table, keep), s, a) <==>
            exists e :: e in table && keep(e) && e.shortcut.Same(s) && e.action == a
  {
    var f := Filter(table, keep);
    if Belongs(f, s, a) {
      var i :| 0 <= i < |f| && f[i].shortcut.Same(s) && f[i].action == a;
      FilterMember(table, keep, f[i]);
    }
    if e :| e in table && keep(e) && e.shortcut.Same(s) && e.action == a {
      FilterMember(table, keep, e);
      var i :| 0 <= i < |f| && f[i] == e;
    }
  }

  lemma SameIsEquivalence(a: Shortcut, b: Shortcut, c: Shortcut)
    ensures a.Same(a) && (a.Same(b) <==> b.Same(a)) && (a.Same(b) && b.Same(c) ==> a.Same(c))
  {
  }

  /** After every run a shortcut is stored for exactly its owner: the table is the history of each shortcut by itself. */
  lemma {:induction false} TableIsOwnership(ops: seq<Op>, s: Shortcut, a: Action)
    ensures Belongs(Run(ops), s, a) <==> Owner(ops, s) == Some(a)
    decreases |ops|, 0
  {
    if ops != [] {
      var before, op := ops[..|ops| - 1], ops[|ops| - 1];
      var table := Run(before);
      TableIsOwnership(before, s, a);
      match op
      case Register(e) =>
        BelongsSnoc(table, e, s, a);
        KnownMeansOwned(before, e.shortcut);
        if e.shortcut.Same(s) {
          SameOwner(before, e.shortcut, s);
        }
      case ForceRegister(e) =>
        BelongsFilter(table, NotSame(e.shortcut), s, a);
        BelongsSnoc(Filter(table, NotSame(e.shortcut)), e, s, a);
        ForceKeepsOthers(table, e, s, a);
      case DeleteAction(b) =>
        BelongsFilter(table, NotOf(b), s, a);
        DeleteKeepsOthers(table, b, s, a);
    }
  }

  lemma {:induction false} SameOwner(ops: seq<Op>, s: Shortcut, t: Shortcut)
    requires s.Same(t)
    ensures Owner(ops, s) == Owner(ops, t)
  {
    if ops != [] {
      SameOwner(ops[..|ops| - 1], s, t);
    }
  }

  lemma KnownMeansOwned(ops: seq<Op>, s: Shortcut)
    ensures Knows(Run(ops), s) <==> Owner(ops, s).Some?
    decreases |ops|, 1
  {
    if Knows(Run(ops), s) {
      var i :| 0 <= i < |Run(ops)| && Run(ops)[i].shortcut.Same(s);
      assert Belongs(Run(ops), s, Run(ops)[i].action);
      TableIsOwnership(ops, s, Run(ops)[i].action);
    }
    if Owner(ops, s).Some? {
      TableIsOwnership(ops, s, Owner(ops, s).value);
    }
  }

  lemma ForceKeepsOthers(table: seq<Entry>, e: Entry, s: Shortcut, a: Action)
    ensures (exists f :: f in table && NotSame(e.shortcut)(f) && f.shortcut.Same(s) && f.action == a) <==>
            !e.shortcut.Same(s) && Belongs(table, s, a)
  {
    if !e.shortcut.Same(s) && Belongs(table, s, a) {
      var i :| 0 <= i < |table| && table[i].shortcut.Same(s) && table[i].action == a;
      assert table[i] in table && NotSame(e.shortcut)(table[i]);
    }
    if f :| f in table && NotSame(e.shortcut)(f) && f.shortcut.Same(s) && f.action == a {
      var i :| 0 <= i < |table| && table[i] == f;
    }
  }

  lemma DeleteKeepsOthers(table: seq<Entry>, b: Action, s: Shortcut, a: Action)
    ensures (exists f :: f in table && NotOf(b)(f) && f.shortcut.Same(s) && f.action == a) <==>
            a != b && Belongs(table, s, a)
  {
    if a != b && Belongs(table, s, a) {
      var i :| 0 <= i < |table| && table[i].shortcut.Same(s) && table[i].action == a;
      assert table[i] in table && NotOf(b)(table[i]);
    }
    if f :| f in table && NotOf(b)(f) && f.shortcut.Same(s) && f.action == a {
      var i :| 0 <= i < |table| && table[i] == f;
    }
  }
}
