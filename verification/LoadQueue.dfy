/** The queue that loads effects one by one from the event loop. */
module LoadQueue {
  import opened Sequences

  /** `pending` counts the dequeue calls that wait in the event loop, `loaded` lists what was handed to the loader. */
  datatype QueueState<T> = QueueState(queue: seq<T>, scheduled: bool, pending: nat, loaded: seq<T>) {
    /** Between events: scheduled means non-empty, and then a dequeue is on its way. */
    predicate Settled() {
      (scheduled <==> queue != []) && (queue != [] ==> pending > 0)
    }

    /** Also while an effect is being loaded. */
    predicate Sound() {
      scheduled ==> queue != [] && pending > 0
    }
  }

  /** What others, or the loader itself while it loads, may ask for. */
  datatype Request<T> = Enqueue(value: T) | Clear

  function Scheduled<T>(s: QueueState<T>): QueueState<T> {
    if s.queue == [] || s.scheduled then s else s.(scheduled := true, pending := s.pending + 1)
  }

  function Requested<T>(s: QueueState<T>, r: Request<T>): QueueState<T> {
    match r
    case Enqueue(x) => Scheduled(s.(queue := s.queue + [x]))
    case Clear => s.(queue := [], scheduled := false)
  }

  function RequestedAll<T>(s: QueueState<T>, rs: seq<Request<T>>): QueueState<T> {
    if rs == [] then s else Requested(RequestedAll(s, rs[..|rs| - 1]), rs[|rs| - 1])
  }

  /** The event loop runs one dequeue; the loader makes the requests `during` meanwhile. */
  function Dequeued<T>(s: QueueState<T>, during: seq<Request<T>>): QueueState<T>
    requires s.pending > 0
  {
    var t := s.(pending := s.pending - 1);
    if s.queue == [] then t
    else Scheduled(RequestedAll(t.(scheduled := false, queue := s.queue[1..], loaded := s.loaded + [s.queue[0]]), during))
  }

  class EffectLoadQueue<T> {
    var queue: seq<T>
    var dequeueScheduled: bool
    /** Dequeue calls posted to the event loop and not run yet. */
    ghost var pending: nat
    ghost var loaded: seq<T>

    ghost function State(): QueueState<T>
      reads this
    {
      QueueState(queue, dequeueScheduled, pending, loaded)
    }

    constructor ()
      ensures State() == QueueState([], false, 0, [])
    {
      queue, dequeueScheduled, pending, loaded := [], false, 0, [];
    }

    method EnqueueEffect(value: T)
      modifies this
      ensures State() == Requested(old(State()), Enqueue(value))
    {
      queue := queue + [value];
      ScheduleDequeue();
    }

    method ClearQueue()
      modifies this
      ensures State() == Requested(old(State()), Clear)
    {
      queue := [];
      dequeueScheduled := false;
    }

    method ScheduleDequeue()
      modifies this
      ensures State() == Scheduled(old(State()))
    {
      if queue == [] || dequeueScheduled {
        return;
      }
      dequeueScheduled := true;
      pending := pending + 1;
    }

    /** The loader, which may come back to the queue. */
    method LoadEffect(value: T, during: seq<Request<T>>)
      modifies this
      ensures State() == RequestedAll(old(State()).(loaded := old(loaded) + [value]), during)
    {
      loaded := loaded + [value];
      ghost var was := State();
      for i := 0 to |during|
        invariant State() == RequestedAll(was, during[..i])
      {
        assert during[..i + 1][..i] == during[..i];
        match during[i] {
          case Enqueue(x) => EnqueueEffect(x);
          case Clear => ClearQueue();
        }
      }
      assert during[..|during|] == during;
    }

    /** Run by the event loop. */
    method Dequeue(during: seq<Request<T>>)
      requires pending > 0
      modifies this
      ensures State() == Dequeued(old(State()), during)
    {
      pending := pending - 1;
      if queue == [] {
        return;
      }
      dequeueScheduled := false;
      var value := queue[0];
      queue := queue[1..];
      LoadEffect(value, during);
      ScheduleDequeue();
    }
  }

  // ---------------------------------------------------------------------------
  // Runs; the k-th effect ever enqueued is called k
  // ---------------------------------------------------------------------------

  /** A run also remembers how many effects were enqueued and which were thrown away by a clear. */
  datatype Ledger = Ledger(state: QueueState<nat>, issued: nat, cleared: set<nat>) {
    ghost predicate Valid() {
      var line := state.loaded + state.queue;
      (forall i, j :: 0 <= i < j < |line| ==> line[i] < line[j]) &&
      (forall i :: 0 <= i < |line| ==> line[i] < issued && line[i] !in cleared) &&
      (forall k: nat :: k < issued ==> k in line || k in cleared) &&
      (forall k: nat :: k in cleared ==> k < issued)
    }
  }

  datatype Ask = AskEnqueue | AskClear

  datatype Step = Asked(ask: Ask) | RunDequeue(during: seq<Ask>)

  const EMPTY := Ledger(QueueState([], false, 0, []), 0, {})

  function AfterAsk(l: Ledger, a: Ask): Ledger {
    match a
    case AskEnqueue => Ledger(Requested(l.state, Enqueue(l.issued)), l.issued + 1, l.cleared)
    case AskClear => Ledger(Requested(l.state, Clear), l.issued, l.cleared + set k | k in l.state.queue)
  }

  function AfterAsks(l: Ledger, asks: seq<Ask>): Ledger {
    if asks == [] then l else AfterAsk(AfterAsks(l, asks[..|asks| - 1]), asks[|asks| - 1])
  }

  /** The requests behind the asks, with their numbers. */
  function Requests(issued: nat, asks: seq<Ask>): seq<Request<nat>> {
    if asks == [] then []
    else
      var before := asks[..|asks| - 1];
      Requests(issued, before) +
      [if asks[|asks| - 1].AskEnqueue? then Enqueue(issued + Enqueues(before)) else Clear]
  }

  function Enqueues(asks: seq<Ask>): nat {
    if asks == [] then 0 else Enqueues(asks[..|asks| - 1]) + (if asks[|asks| - 1].AskEnqueue? then 1 else 0)
  }

  /** While an effect is loaded, it counts as loaded and is out of the queue. */
  function Loading(l: Ledger): Ledger
    requires l.state.queue != []
  {
    var s := l.state;
    l.(state := s.(pending := if s.pending > 0 then s.pending - 1 else 0, scheduled := false,
                   queue := s.queue[1..], loaded := s.loaded + [s.queue[0]]))
  }

  function After(l: Ledger, st: Step): Ledger {
    match st
    case Asked(a) => AfterAsk(l, a)
    case RunDequeue(during) =>
      if l.state.pending == 0 then l
      else if l.state.queue == [] then l.(state := l.state.(pending := l.state.pending - 1))
      else
        var m := AfterAsks(Loading(l), during);
        m.(state := Scheduled(m.state))
  }

  function Run(steps: seq<Step>): Ledger {
    if steps == [] then EMPTY else After(Run(steps[..|steps| - 1]), steps[|steps| - 1])
  }

  lemma {:induction false} AsksAreRequests(l: Ledger, asks: seq<Ask>)
    ensures AfterAsks(l, asks).state == RequestedAll(l.state, Requests(l.issued, asks))
    ensures AfterAsks(l, asks).issued == l.issued + Enqueues(asks)
  {
    if asks != [] {
      var before := asks[..|asks| - 1];
      AsksAreRequests(l, before);
      var rs := Requests(l.issued, asks);
      assert rs[..|rs| - 1] == Requests(l.issued, before);
    }
  }

  /** The run's dequeue is the queue's. */
  lemma RunIsDequeued(l: Ledger, during: seq<Ask>)
    requires l.state.pending > 0
    ensures After(l, RunDequeue(during)).state == Dequeued(l.state, Requests(l.issued, during))
  {
    if l.state.queue != [] {
      AsksAreRequests(Loading(l), during);
    }
  }

  lemma EnqueueKeepsValid(l: Ledger)
    requires l.Valid()
    ensures AfterAsk(l, AskEnqueue).Valid()
  {
    var m := AfterAsk(l, AskEnqueue);
    var line, line' := l.state.loaded + l.state.queue, m.state.loaded + m.state.queue;
    assert line' == line + [l.issued];
    forall k: nat | k < m.issued ensures k in line' || k in m.cleared {
      if k < l.issued {
        assert k in line || k in l.cleared;
      } else {
        assert line'[|line|] == k;
      }
    }
  }

  lemma ClearKeepsValid(l: Ledger)
    requires l.Valid()
    ensures AfterAsk(l, AskClear).Valid()
  {
    var m, s := AfterAsk(l, AskClear), l.state;
    var line := s.loaded + s.queue;
    assert m.state.loaded + m.state.queue == s.loaded;
    assert forall i :: 0 <= i < |s.loaded| ==> line[i] == s.loaded[i];
    assert forall j :: 0 <= j < |s.queue| ==> line[|s.loaded| + j] == s.queue[j];
    forall k: nat | k in m.cleared ensures k < m.issued {
      assert k in s.queue ==> k in line;
    }
    forall i | 0 <= i < |s.loaded| ensures s.loaded[i] !in m.cleared {
      assert s.loaded[i] !in s.queue;
    }
    forall k: nat | k < m.issued ensures k in s.loaded || k in m.cleared {
      assert k in line || k in l.cleared;
    }
  }

  lemma AskKeepsSound(l: Ledger, a: Ask)
    requires l.state.Sound() && l.Valid()
    ensures AfterAsk(l, a).state.Sound() && AfterAsk(l, a).Valid()
    ensures l.state.Settled() ==> AfterAsk(l, a).state.Settled()
  {
    hide Ledger.Valid;
    match a
    case AskEnqueue => EnqueueKeepsValid(l);
    case AskClear => ClearKeepsValid(l);
  }

  lemma {:induction false} AsksKeepSound(l: Ledger, asks: seq<Ask>)
    requires l.state.Sound() && l.Valid()
    ensures AfterAsks(l, asks).state.Sound() && AfterAsks(l, asks).Valid()
  {
    if asks != [] {
      AsksKeepSound(l, asks[..|asks| - 1]);
      AskKeepsSound(AfterAsks(l, asks[..|asks| - 1]), asks[|asks| - 1]);
    }
  }

  lemma StepKeepsValid(l: Ledger, st: Step)
    requires l.state.Settled() && l.Valid()
    ensures After(l, st).state.Settled() && After(l, st).Valid()
  {
    match st
    case Asked(a) => AskKeepsSound(l, a);
    case RunDequeue(during) =>
      if l.state.queue != [] {
        assert Loading(l).state.loaded + Loading(l).state.queue == l.state.loaded + l.state.queue;
        AsksKeepSound(Loading(l), during);
      }
  }

  /** In every run, between events: the flag is set exactly when the queue is not empty, a dequeue is then pending,
      and every effect ever enqueued is loaded, queued or cleared, only one of these, and in its order. */
  lemma {:induction false} RunValid(steps: seq<Step>)
    ensures Run(steps).state.Settled() && Run(steps).Valid()
  {
    if steps != [] {
      RunValid(steps[..|steps| - 1]);
      StepKeepsValid(Run(steps[..|steps| - 1]), steps[|steps| - 1]);
    }
  }

  // ---------------------------------------------------------------------------
  // Draining the event loop
  // ---------------------------------------------------------------------------

  /** Runs the pending dequeues until there is none left. */
  function Drained(s: QueueState<nat>): QueueState<nat>
    decreases |s.queue|, s.pending
  {
    if s.pending == 0 then s else Drained(Dequeued(s, []))
  }

  function DrainSteps(s: QueueState<nat>): nat
    decreases |s.queue|, s.pending
  {
    if s.pending == 0 then 0 else 1 + DrainSteps(Dequeued(s, []))
  }

  /** The event loop comes to rest after all queued effects are loaded in order, stale dequeues included in the count. */
  lemma {:induction false} DrainLoadsAll(s: QueueState<nat>)
    requires s.Settled()
    ensures Drained(s) == QueueState([], false, 0, s.loaded + s.queue)
    ensures DrainSteps(s) == s.pending + (if s.queue == [] then 0 else |s.queue| - 1)
    decreases |s.queue|, s.pending
  {
    if s.pending > 0 {
      var t := Dequeued(s, []);
      DrainLoadsAll(t);
      if s.queue != [] {
        assert s.loaded + s.queue == (s.loaded + [s.queue[0]]) + s.queue[1..];
      }
    }
  }

  /** After any run, draining loads every effect that was not cleared exactly once, in the order of enqueueing. */
  lemma EveryEffectLoadedOnce(steps: seq<Step>)
    ensures var l := Run(steps);
            var loaded := Drained(l.state).loaded;
            (forall i, j :: 0 <= i < j < |loaded| ==> loaded[i] < loaded[j]) &&
            forall k: nat :: k in loaded <==> k < l.issued && k !in l.cleared
  {
    RunValid(steps);
    var l := Run(steps);
    DrainLoadsAll(l.state);
    var line := l.state.loaded + l.state.queue;
    forall k: nat ensures k in line <==> k < l.issued && k !in l.cleared {
      if k in line {
        var i :| 0 <= i < |line| && line[i] == k;
      }
    }
  }
}
