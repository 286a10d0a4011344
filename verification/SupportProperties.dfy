/** The support properties that effects announce on the root window, with their delayed deletion. */
module SupportProperties {
  import opened Sequences
  import opened Compositor

  type Effect = nat
  type Name = nat

  /** What the effects handler and the compositor know, and what the X server keeps. */
  datatype Registry = Registry(
    users: map<Name, seq<Effect>>,
    managed: map<Name, Atom>,
    registered: map<Atom, int>,
    pending: seq<Atom>,
    timer: bool,
    root: set<Atom>)

  const NOTHING := Registry(map[], map[], map[], [], false, {})

  function CountOf(registered: map<Atom, int>, a: Atom): int {
    if a in registered then registered[a] else 0
  }

  function TypeRegistered(registered: map<Atom, int>, a: Atom, reg: bool): map<Atom, int> {
    var n := CountOf(registered, a) + (if reg then 1 else -1);
    if !reg && n == 0 then registered - {a} else registered[a := n]
  }

  /** `reply` is the atom that the X server answers, or none. */
  function Announced(r: Registry, name: Name, e: Effect, reply: Atom): (Registry, Atom) {
    if name in r.users then
      (if e in r.users[name] then r else r.(users := r.users[name := r.users[name] + [e]]),
       if name in r.managed then r.managed[name] else ATOM_NONE)
    else
      var s := r.(users := r.users[name := [e]]);
      if reply == ATOM_NONE then (s, ATOM_NONE)
      else (s.(root := r.root + {reply}, pending := Without(r.pending, reply), managed := r.managed[name := reply],
               registered := TypeRegistered(r.registered, reply, true)), reply)
  }

  function Withdrawn(r: Registry, name: Name, e: Effect): Registry {
    if name !in r.users || e !in r.users[name] then r
    else
      var rest := Without(r.users[name], e);
      if rest != [] then r.(users := r.users[name := rest])
      else
        var atom := if name in r.managed then r.managed[name] else ATOM_NONE;
        r.(users := r.users - {name}, managed := r.managed - {name},
           registered := TypeRegistered(r.registered, atom, false), pending := r.pending + [atom], timer := true)
  }

  function WithdrawnAll(r: Registry, names: seq<Name>, e: Effect): Registry {
    if names == [] then r else Withdrawn(WithdrawnAll(r, names[..|names| - 1], e), names[|names| - 1], e)
  }

  function Swept(r: Registry, state: State): Registry {
    if state == Starting || state == Stopping then r.(timer := true)
    else r.(timer := false, root := Delete(r.root, r.pending), pending := [])
  }

  class EffectsHandler {
    const compositor: X11Compositor
    var propertiesForEffects: map<Name, seq<Effect>>
    var managedProperties: map<Name, Atom>
    var registeredAtoms: map<Atom, int>
    var loadedEffects: seq<Effect>

    ghost function State(): Registry
      reads this, compositor
    {
      Registry(propertiesForEffects, managedProperties, registeredAtoms,
               compositor.unusedSupportProperties, compositor.unusedTimerActive, compositor.rootProperties)
    }

    constructor (c: X11Compositor)
      ensures compositor == c && propertiesForEffects == map[] && managedProperties == map[]
      ensures registeredAtoms == map[] && loadedEffects == []
    {
      compositor := c;
      propertiesForEffects, managedProperties, registeredAtoms, loadedEffects := map[], map[], map[], [];
    }

    method RegisterPropertyType(atom: Atom, reg: bool)
      modifies this`registeredAtoms
      ensures registeredAtoms == TypeRegistered(old(registeredAtoms), atom, reg)
    {
      var count := CountOf(registeredAtoms, atom);
      if reg {
        registeredAtoms := registeredAtoms[atom := count + 1];
      } else {
        registeredAtoms := registeredAtoms[atom := count - 1];
        if registeredAtoms[atom] == 0 {
          registeredAtoms := registeredAtoms - {atom};
          assert registeredAtoms == old(registeredAtoms) - {atom};
        }
      }
    }

    /** `reply` is what the X server answers to the atom request; the property is then set on the root window. */
    method AnnounceSupportProperty(name: Name, effect: Effect, reply: Atom) returns (atom: Atom)
      modifies this, compositor
      ensures (State(), atom) == Announced(old(State()), name, effect, reply)
      ensures loadedEffects == old(loadedEffects)
    {
      if name in propertiesForEffects {
        if effect !in propertiesForEffects[name] {
          propertiesForEffects := propertiesForEffects[name := propertiesForEffects[name] + [effect]];
        }
        return if name in managedProperties then managedProperties[name] else ATOM_NONE;
      }
      propertiesForEffects := propertiesForEffects[name := [effect]];
      if reply == ATOM_NONE {
        return ATOM_NONE;
      }
      compositor.rootProperties := compositor.rootProperties + {reply};
      compositor.KeepSupportProperty(reply);
      managedProperties := managedProperties[name := reply];
      RegisterPropertyType(reply, true);
      return reply;
    }

    method RemoveSupportProperty(name: Name, effect: Effect)
      modifies this, compositor
      ensures State() == Withdrawn(old(State()), name, effect)
      ensures loadedEffects == old(loadedEffects)
    {
      if name !in propertiesForEffects {
        return;
      }
      if effect !in propertiesForEffects[name] {
        return;
      }
      propertiesForEffects := propertiesForEffects[name := Without(propertiesForEffects[name], effect)];
      if propertiesForEffects[name] != [] {
        return;
      }
      var atom := if name in managedProperties then managedProperties[name] else ATOM_NONE;
      managedProperties := managedProperties - {name};
      RegisterPropertyType(atom, false);
      propertiesForEffects := propertiesForEffects - {name};
      assert propertiesForEffects == old(propertiesForEffects) - {name};
      compositor.RemoveSupportProperty(atom);
    }

    /** Withdraws all the effect's properties, in some order, before the effect is deleted. */
    method DestroyEffect(effect: Effect) returns (ghost order: seq<Name>)
      modifies this, compositor
      ensures State() == WithdrawnAll(old(State()), order, effect)
      ensures forall name :: name in old(propertiesForEffects) ==> name in order
      ensures loadedEffects == old(loadedEffects)
    {
      order := [];
      var properties := propertiesForEffects.Keys;
      ghost var all := properties;
      while properties != {}
        invariant properties <= all && forall name :: name in all ==> name in properties || name in order
        invariant State() == WithdrawnAll(old(State()), order, effect)
        invariant loadedEffects == old(loadedEffects)
      {
        var property :| property in properties;
        RemoveSupportProperty(property, effect);
        properties := properties - {property};
        assert (order + [property])[..|order|] == order;
        order := order + [property];
      }
    }

    /** Afterwards exactly the announcements of effects that are not loaded remain. */
    method UnloadAllEffects()
      modifies this, compositor
      ensures loadedEffects == []
      ensures forall name, e :: Uses(State(), name, e) <==> Uses(old(State()), name, e) && e !in old(loadedEffects)
    {
      for i := 0 to |loadedEffects|
        invariant loadedEffects == old(loadedEffects)
        invariant forall name, e :: Uses(State(), name, e) <==> Uses(old(State()), name, e) && e !in loadedEffects[..i]
      {
        ghost var before := State();
        var order := DestroyEffect(loadedEffects[i]);
        forall name, e
          ensures Uses(State(), name, e) <==> Uses(old(State()), name, e) && e !in loadedEffects[..i + 1]
        {
          WithdrawnAllUsers(before, order, loadedEffects[i], name, e);
          assert Uses(before, name, e) ==> name in order;
          assert e in loadedEffects[..i + 1] <==> e in loadedEffects[..i] || e == loadedEffects[i];
        }
      }
      assert loadedEffects[..|loadedEffects|] == loadedEffects;
      loadedEffects := [];
    }
  }

  // ---------------------------------------------------------------------------
  // Who announces what
  // ---------------------------------------------------------------------------

  predicate Uses(r: Registry, name: Name, e: Effect) {
    name in r.users && e in r.users[name]
  }

  lemma WithdrawnUsers(r: Registry, name: Name, e: Effect, n: Name, f: Effect)
    ensures Uses(Withdrawn(r, name, e), n, f) <==> Uses(r, n, f) && !(n == name && f == e)
  {
    if Uses(r, name, e) {
      FilterMember(r.users[name], Differs(e), f);
    }
  }

  /** Withdrawing a list of names removes the effect from these, and nothing else. */
  lemma {:induction false} WithdrawnAllUsers(r: Registry, names: seq<Name>, e: Effect, n: Name, f: Effect)
    ensures Uses(WithdrawnAll(r, names, e), n, f) <==> Uses(r, n, f) && !(n in names && f == e)
  {
    if names != [] {
      var before, name := names[..|names| - 1], names[|names| - 1];
      assert n in names <==> n in before || n == name;
      WithdrawnAllUsers(r, before, e, n, f);
      WithdrawnUsers(WithdrawnAll(r, before, e), name, e, n, f);
    }
  }

  // ---------------------------------------------------------------------------
  // Runs
  // ---------------------------------------------------------------------------

  datatype Op =
    | Announce(name: Name, effect: Effect, answered: bool)
    | Withdraw(name: Name, effect: Effect)
    | Destroy(effect: Effect, order: seq<Name>)
    | RegisterType(atom: Atom, reg: bool)
    | SweepTimeout(state: State)

  /** The atom the X server gives to each name. */
  type Server = map<Name, Atom>

  /** Different names get different atoms, and none of them is the null atom. */
  ghost predicate Proper(server: Server) {
    (forall n :: n in server ==> server[n] != ATOM_NONE) &&
    forall n, m :: n in server && m in server && server[n] == server[m] ==> n == m
  }

  function Reply(server: Server, name: Name, answered: bool): Atom {
    if answered && name in server then server[name] else ATOM_NONE
  }

  /** Destroying an effect goes over all announced names; the sweep runs when its timer is active. */
  predicate Legal(r: Registry, op: Op) {
    match op
    case Destroy(_, order) => forall name :: name in r.users ==> name in order
    case SweepTimeout(_) => r.timer
    case _ => true
  }

  function After(server: Server, r: Registry, op: Op): Registry {
    match op
    case Announce(name, e, answered) => Announced(r, name, e, Reply(server, name, answered)).0
    case Withdraw(name, e) => Withdrawn(r, name, e)
    case Destroy(e, order) => WithdrawnAll(r, order, e)
    case RegisterType(a, reg) => r.(registered := TypeRegistered(r.registered, a, reg))
    case SweepTimeout(state) => Swept(r, state)
  }

  function Run(server: Server, ops: seq<Op>): Registry {
    if ops == [] then NOTHING else After(server, Run(server, ops[..|ops| - 1]), ops[|ops| - 1])
  }

  predicate LegalRun(server: Server, ops: seq<Op>) {
    ops != [] ==> LegalRun(server, ops[..|ops| - 1]) && Legal(Run(server, ops[..|ops| - 1]), ops[|ops| - 1])
  }

  /** Effect `e` announced the name and neither withdrew it nor was destroyed since. */
  function Outstanding(ops: seq<Op>, name: Name, e: Effect): bool {
    if ops == [] then false
    else
      match ops[|ops| - 1]
      case Announce(n, f, _) => (n == name && f == e) || Outstanding(ops[..|ops| - 1], name, e)
      case Withdraw(n, f) => !(n == name && f == e) && Outstanding(ops[..|ops| - 1], name, e)
      case Destroy(f, _) => f != e && Outstanding(ops[..|ops| - 1], name, e)
      case RegisterType(_, _) => Outstanding(ops[..|ops| - 1], name, e)
      case SweepTimeout(_) => Outstanding(ops[..|ops| - 1], name, e)
  }

  /** In every run the registry lists exactly the outstanding announcements. */
  lemma {:induction false} UsersAreOutstanding(server: Server, ops: seq<Op>, name: Name, e: Effect)
    requires LegalRun(server, ops)
    ensures Uses(Run(server, ops), name, e) <==> Outstanding(ops, name, e)
  {
    if ops != [] {
      var before, op := ops[..|ops| - 1], ops[|ops| - 1];
      UsersAreOutstanding(server, before, name, e);
      match op
      case Withdraw(n, f) => WithdrawnUsers(Run(server, before), n, f, name, e);
      case Destroy(f, order) => WithdrawnAllUsers(Run(server, before), order, f, name, e);
      case _ =>
    }
  }

  /** The managed atoms and the pending ones are disjoint, together they are the root window's properties,
      pending ones are on their way to deletion, and no name without user is kept. */
  ghost predicate Valid(server: Server, r: Registry) {
    (forall n :: n in r.users ==> r.users[n] != []) &&
    (forall n :: n in r.managed ==> n in r.users && n in server && r.managed[n] == server[n]) &&
    (forall n :: n in r.managed ==> r.managed[n] !in r.pending) &&
    (forall a :: a in r.root <==> (exists n :: n in r.managed && r.managed[n] == a) || (a in r.pending && a != ATOM_NONE)) &&
    (r.pending != [] ==> r.timer)
  }

  lemma AnnounceKeepsValid(server: Server, r: Registry, name: Name, e: Effect, answered: bool)
    requires Proper(server) && Valid(server, r)
    ensures Valid(server, Announced(r, name, e, Reply(server, name, answered)).0)
  {
    var reply := Reply(server, name, answered);
    var s := Announced(r, name, e, reply).0;
    if name !in r.users && reply != ATOM_NONE {
      forall a ensures a in s.pending <==> a in r.pending && a != reply {
        FilterMember(r.pending, Differs(reply), a);
      }
      forall a ensures a in s.root <==> (exists n :: n in s.managed && s.managed[n] == a) || (a in s.pending && a != ATOM_NONE) {
        assert name in s.managed && s.managed[name] == reply;
        if n :| n in r.managed && r.managed[n] == a {
          assert n in s.managed && s.managed[n] == a;
        }
      }
    }
  }

  /** Taking a name's atom off the managed ones puts it on the pending ones; the root window is untouched. */
  lemma ManagedToPending(server: Server, r: Registry, name: Name, a: Atom)
    requires Proper(server) && Valid(server, r)
    ensures var atom := if name in r.managed then r.managed[name] else ATOM_NONE;
            var managed := r.managed - {name};
            a in r.root <==> (exists n :: n in managed && managed[n] == a) || (a in r.pending + [atom] && a != ATOM_NONE)
  {
    var managed := r.managed - {name};
    if n :| n in r.managed && r.managed[n] == a {
      assert n != name ==> n in managed && managed[n] == a;
    }
    if n :| n in managed && managed[n] == a {
      assert n in r.managed && r.managed[n] == a;
    }
    assert name in r.managed && a == r.managed[name] ==> a in r.root;
  }

  lemma WithdrawKeepsValid(server: Server, r: Registry, name: Name, e: Effect)
    requires Proper(server) && Valid(server, r)
    ensures Valid(server, Withdrawn(r, name, e))
  {
    if Uses(r, name, e) && Without(r.users[name], e) == [] {
      forall a {
        ManagedToPending(server, r, name, a);
      }
    }
  }

  lemma {:induction false} WithdrawAllKeepsValid(server: Server, r: Registry, names: seq<Name>, e: Effect)
    requires Proper(server) && Valid(server, r)
    ensures Valid(server, WithdrawnAll(r, names, e))
  {
    if names != [] {
      WithdrawAllKeepsValid(server, r, names[..|names| - 1], e);
      WithdrawKeepsValid(server, WithdrawnAll(r, names[..|names| - 1], e), names[|names| - 1], e);
    }
  }

  lemma StepKeepsValid(server: Server, r: Registry, op: Op)
    requires Proper(server) && Valid(server, r)
    ensures Valid(server, After(server, r, op))
  {
    match op
    case Announce(name, e, answered) => AnnounceKeepsValid(server, r, name, e, answered);
    case Withdraw(name, e) => WithdrawKeepsValid(server, r, name, e);
    case Destroy(e, order) => WithdrawAllKeepsValid(server, r, order, e);
    case RegisterType(_, _) =>
    case SweepTimeout(_) =>
  }

  lemma {:induction false} RunValid(server: Server, ops: seq<Op>)
    requires Proper(server) && LegalRun(server, ops)
    ensures Valid(server, Run(server, ops))
  {
    if ops != [] {
      RunValid(server, ops[..|ops| - 1]);
      StepKeepsValid(server, Run(server, ops[..|ops| - 1]), ops[|ops| - 1]);
    }
  }

  // ---------------------------------------------------------------------------
  // Which properties are on the root window
  // ---------------------------------------------------------------------------

  /** Some effect's announcement of the name is outstanding. */
  ghost predicate Wanted(ops: seq<Op>, name: Name) {
    exists e :: Outstanding(ops, name, e)
  }

  /** The announcement that began the present use of the name got its atom; later ones do not ask again. */
  ghost predicate Opened(server: Server, ops: seq<Op>, name: Name) {
    ops != [] &&
    var before, op := ops[..|ops| - 1], ops[|ops| - 1];
    if op.Announce? && op.name == name && !Wanted(before, name) then op.answered && name in server
    else Opened(server, before, name)
  }

  /** In every run a name has users exactly while it is wanted. */
  lemma UsedIsWanted(server: Server, ops: seq<Op>, name: Name)
    requires Proper(server) && LegalRun(server, ops)
    ensures name in Run(server, ops).users <==> Wanted(ops, name)
  {
    RunValid(server, ops);
    var r := Run(server, ops);
    if name in r.users {
      assert r.users[name] != [];
      UsersAreOutstanding(server, ops, name, r.users[name][0]);
    }
    if e :| Outstanding(ops, name, e) {
      UsersAreOutstanding(server, ops, name, e);
    }
  }

  /** Withdrawing keeps a name's atom exactly as long as the name has users. */
  lemma WithdrawManaged(r: Registry, name: Name, e: Effect, n: Name)
    requires n in r.managed ==> n in r.users
    ensures var s := Withdrawn(r, name, e);
            (n in s.users ==> n in r.users) && (n in s.managed <==> n in r.managed && n in s.users)
  {
  }

  lemma {:induction false} WithdrawAllManaged(r: Registry, names: seq<Name>, e: Effect, n: Name)
    requires n in r.managed ==> n in r.users
    ensures var s := WithdrawnAll(r, names, e);
            (n in s.users ==> n in r.users) && (n in s.managed <==> n in r.managed && n in s.users)
  {
    if names != [] {
      var before := names[..|names| - 1];
      WithdrawAllManaged(r, before, e, n);
      WithdrawManaged(WithdrawnAll(r, before, e), names[|names| - 1], e, n);
    }
  }

  /** One operation keeps a name's atom as long as the name has users; the first announcement gets it if it is answered. */
  lemma ManagedStep(server: Server, r: Registry, op: Op, name: Name)
    requires Proper(server) && (name in r.managed ==> name in r.users)
    ensures var s := After(server, r, op);
            name in s.managed <==>
            name in s.users &&
            if op.Announce? && op.name == name && name !in r.users then op.answered && name in server else name in r.managed
    ensures name in After(server, r, op).users && name !in r.users ==> op.Announce? && op.name == name
  {
    match op
    case Announce(_, _, _) =>
    case Withdraw(n, e) => WithdrawManaged(r, n, e, name);
    case Destroy(e, order) => WithdrawAllManaged(r, order, e, name);
    case _ =>
  }

  /** In every run a name's atom is known exactly while the name is wanted and its first request was answered. */
  lemma {:induction false} ManagedExactly(server: Server, ops: seq<Op>, name: Name)
    requires Proper(server) && LegalRun(server, ops)
    ensures name in Run(server, ops).managed <==> Wanted(ops, name) && Opened(server, ops, name)
  {
    UsedIsWanted(server, ops, name);
    if ops != [] {
      var before, op := ops[..|ops| - 1], ops[|ops| - 1];
      var r := Run(server, before);
      ManagedExactly(server, before, name);
      UsedIsWanted(server, before, name);
      hide Proper, Wanted, After;
      ManagedStep(server, r, op, name);
    }
  }

  /** In every run a property is on the root window exactly while it is wanted and its first request was answered,
      or its deletion is pending, and never both. */
  lemma NeitherLostNorLeaked(server: Server, ops: seq<Op>, name: Name)
    requires Proper(server) && LegalRun(server, ops) && name in server
    ensures var r := Run(server, ops);
            var kept := Wanted(ops, name) && Opened(server, ops, name);
            (server[name] in r.root <==> kept || server[name] in r.pending) && !(kept && server[name] in r.pending)
  {
    RunValid(server, ops);
    ManagedExactly(server, ops, name);
  }

  /** An effect that announces a name gets its atom exactly if the first announcement of the use got it, and else none. */
  lemma AtomReturned(server: Server, ops: seq<Op>, name: Name, e: Effect, answered: bool)
    requires Proper(server) && LegalRun(server, ops)
    ensures Announced(Run(server, ops), name, e, Reply(server, name, answered)).1 ==
            if Opened(server, ops + [Announce(name, e, answered)], name) && name in server then server[name] else ATOM_NONE
  {
    var all := ops + [Announce(name, e, answered)];
    assert all[..|all| - 1] == ops;
    UsedIsWanted(server, ops, name);
    ManagedExactly(server, ops, name);
    RunValid(server, ops);
  }

  /** While the compositor starts or stops, sweeps are put off. */
  predicate AllPutOff(states: seq<State>) {
    forall i :: 0 <= i < |states| ==> states[i] == Starting || states[i] == Stopping
  }

  function Sweeps(states: seq<State>): seq<Op> {
    seq(|states|, i requires 0 <= i < |states| => SweepTimeout(states[i]))
  }

  /** However many sweeps are put off, nothing is deleted and nothing is forgotten, the next sweep included. */
  lemma {:induction false} PutOffSweepsLoseNothing(server: Server, ops: seq<Op>, states: seq<State>)
    requires LegalRun(server, ops) && Run(server, ops).timer && AllPutOff(states)
    ensures LegalRun(server, ops + Sweeps(states)) && Run(server, ops + Sweeps(states)) == Run(server, ops)
    ensures forall name, e :: Outstanding(ops + Sweeps(states), name, e) == Outstanding(ops, name, e)
  {
    if states == [] {
      assert ops + Sweeps(states) == ops;
    } else {
      var before := states[..|states| - 1];
      PutOffSweepsLoseNothing(server, ops, before);
      var all := ops + Sweeps(states);
      assert all[..|all| - 1] == ops + Sweeps(before);
    }
  }

  /** After a sweep outside starting and stopping, however often it was put off, exactly the wanted properties
      whose first request was answered are left. */
  lemma SweepLeavesAnnounced(server: Server, ops: seq<Op>, putOff: seq<State>, state: State, name: Name)
    requires Proper(server) && LegalRun(server, ops) && name in server && AllPutOff(putOff)
    requires Run(server, ops).timer && state != Starting && state != Stopping
    ensures var r := Run(server, ops + Sweeps(putOff) + [SweepTimeout(state)]);
            r.pending == [] && (server[name] in r.root <==> Wanted(ops, name) && Opened(server, ops, name))
  {
    var all := ops + Sweeps(putOff) + [SweepTimeout(state)];
    assert all[..|all| - 1] == ops + Sweeps(putOff);
    PutOffSweepsLoseNothing(server, ops, putOff);
    NeitherLostNorLeaked(server, ops, name);
  }

  /** No announced property is missing after a sweep exactly if every use of a name began with an answered request. */
  lemma AnnouncedIsPresentExactly(server: Server, ops: seq<Op>, state: State)
    requires Proper(server) && LegalRun(server, ops)
    requires Run(server, ops).timer && state != Starting && state != Stopping
    ensures (forall name :: name in server && Wanted(ops, name) ==>
               server[name] in Run(server, ops + [SweepTimeout(state)]).root) <==>
            forall name :: name in server && Wanted(ops, name) ==> Opened(server, ops, name)
  {
    forall name | name in server
      ensures server[name] in Run(server, ops + [SweepTimeout(state)]).root <==> Wanted(ops, name) && Opened(server, ops, name)
    {
      SweepLeavesAnnounced(server, ops, [], state, name);
      assert ops + Sweeps([]) + [SweepTimeout(state)] == ops + [SweepTimeout(state)];
    }
  }

  /** If all requests are answered, every wanted property is opened. */
  lemma {:induction false} AnsweredIsOpened(server: Server, ops: seq<Op>, name: Name)
    requires forall i :: 0 <= i < |ops| && ops[i].Announce? ==> ops[i].answered && ops[i].name in server
    requires Wanted(ops, name)
    ensures Opened(server, ops, name)
  {
    var before, op := ops[..|ops| - 1], ops[|ops| - 1];
    assert forall i :: 0 <= i < |before| ==> before[i] == ops[i];
    var e :| Outstanding(ops, name, e);
    if op.Announce? && op.name == name && !Wanted(before, name) {
      assert ops[|ops| - 1].answered;
    } else {
      assert !(op.Announce? && op.name == name) ==> Outstanding(before, name, e);
      AnsweredIsOpened(server, before, name);
    }
  }

  /** An unanswered first request is not repeated for the next effect: the property is announced and never set. */
  lemma UnansweredIsNeverSet(server: Server, name: Name, e: Effect, f: Effect)
    requires Proper(server) && name in server && e != f
    ensures var ops := [Announce(name, e, false)] + [Announce(name, f, true)];
            LegalRun(server, ops) && Outstanding(ops, name, f) && !Opened(server, ops, name) &&
            server[name] !in Run(server, ops).root
  {
    var first := [Announce(name, e, false)];
    var ops := first + [Announce(name, f, true)];
    assert first[..0] == [] && ops[..1] == first;
    assert Outstanding(first, name, e);
    assert !Wanted([], name);
    assert Run(server, first) == NOTHING.(users := map[name := [e]]);
  }

  // ---------------------------------------------------------------------------
  // Counting the atoms whose changes are watched
  // ---------------------------------------------------------------------------

  /** What the effects themselves registered, minus what they unregistered. */
  function External(ops: seq<Op>, a: Atom): int {
    if ops == [] then 0
    else External(ops[..|ops| - 1], a) +
         (if ops[|ops| - 1].RegisterType? && ops[|ops| - 1].atom == a then (if ops[|ops| - 1].reg then 1 else -1) else 0)
  }

  ghost function Managed(r: Registry, a: Atom): int {
    if exists n :: n in r.managed && r.managed[n] == a then 1 else 0
  }

  /** An atom that is unregistered as often as it was registered is forgotten; other atoms are not concerned. */
  lemma UnregisteredForgotten(registered: map<Atom, int>, a: Atom, b: Atom)
    ensures a in TypeRegistered(registered, a, false) <==> CountOf(registered, a) != 1
    ensures a in TypeRegistered(registered, a, true)
    ensures b != a ==> forall reg ::
              (b in TypeRegistered(registered, a, reg) <==> b in registered) && CountOf(TypeRegistered(registered, a, reg), b) == CountOf(registered, b)
  {
  }

  lemma RegisteredChange(registered: map<Atom, int>, a: Atom, b: Atom, reg: bool)
    ensures CountOf(TypeRegistered(registered, a, reg), b) ==
            CountOf(registered, b) + (if a != b then 0 else if reg then 1 else -1)
  {
  }

  lemma WithdrawCount(server: Server, r: Registry, name: Name, e: Effect, a: Atom)
    requires Proper(server) && Valid(server, r) && a != ATOM_NONE
    ensures CountOf(Withdrawn(r, name, e).registered, a) - Managed(Withdrawn(r, name, e), a) ==
            CountOf(r.registered, a) - Managed(r, a)
  {
    var s := Withdrawn(r, name, e);
    if Uses(r, name, e) && Without(r.users[name], e) == [] {
      var atom := if name in r.managed then r.managed[name] else ATOM_NONE;
      RegisteredChange(r.registered, atom, a, false);
      if n :| n in r.managed && r.managed[n] == a {
        assert n != name ==> n in s.managed && s.managed[n] == a;
        assert n == name ==> forall m :: m in s.managed ==> s.managed[m] != a;
      }
    }
  }

  lemma {:induction false} WithdrawAllCount(server: Server, r: Registry, names: seq<Name>, e: Effect, a: Atom)
    requires Proper(server) && Valid(server, r) && a != ATOM_NONE
    ensures CountOf(WithdrawnAll(r, names, e).registered, a) - Managed(WithdrawnAll(r, names, e), a) ==
            CountOf(r.registered, a) - Managed(r, a)
  {
    if names != [] {
      var before := names[..|names| - 1];
      WithdrawAllCount(server, r, before, e, a);
      WithdrawAllKeepsValid(server, r, before, e);
      WithdrawCount(server, WithdrawnAll(r, before, e), names[|names| - 1], e, a);
    }
  }

  lemma AnnounceCount(server: Server, r: Registry, name: Name, e: Effect, answered: bool, a: Atom)
    requires Proper(server) && Valid(server, r) && a != ATOM_NONE
    ensures var s := Announced(r, name, e, Reply(server, name, answered)).0;
            CountOf(s.registered, a) - Managed(s, a) == CountOf(r.registered, a) - Managed(r, a)
  {
    var reply := Reply(server, name, answered);
    var s := Announced(r, name, e, reply).0;
    if name !in r.users && reply != ATOM_NONE {
      RegisteredChange(r.registered, reply, a, true);
      assert name in s.managed && s.managed[name] == reply;
      assert forall n :: n in r.managed ==> n in s.managed && s.managed[n] == r.managed[n];
      if a == reply {
        assert forall n :: n in r.managed ==> r.managed[n] != a;
      }
    }
  }

  /** In every run an announced atom is watched once for all its users, on top of what effects registered themselves. */
  lemma {:induction false} WatchedOnce(server: Server, ops: seq<Op>, a: Atom)
    requires Proper(server) && LegalRun(server, ops) && a != ATOM_NONE
    ensures CountOf(Run(server, ops).registered, a) == External(ops, a) + Managed(Run(server, ops), a)
  {
    if ops != [] {
      var before, op := ops[..|ops| - 1], ops[|ops| - 1];
      WatchedOnce(server, before, a);
      RunValid(server, before);
      var r := Run(server, before);
      match op
      case Announce(name, e, answered) => AnnounceCount(server, r, name, e, answered, a);
      case Withdraw(name, e) => WithdrawCount(server, r, name, e, a);
      case Destroy(e, order) => WithdrawAllCount(server, r, order, e, a);
      case RegisterType(b, reg) => RegisteredChange(r.registered, b, a, reg);
      case SweepTimeout(_) =>
    }
  }
}
