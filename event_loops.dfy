/**
 * Model of `EventLoops`: the group-wide stop of an arbitrarily nested
 * collection of event loops, the trace-only registry of live loops and the
 * choice of a loop's pauser.
 *
 * The untyped `Object` elements the Java code walks become the tagged tree
 * `Item`; a stopper (the `Callable` that calls `stop()` on one loop) is the
 * identity of the loop it will stop.
 */
module EventLoops {
  import opened Wrappers
  import opened Runtime

  /** Identity of an event loop object (Java reference identity). */
  type LoopId = nat

  /** `Pauser.busy()` is the shared busy-spin instance; every other pauser is its own object. */
  datatype Pauser = BusyPauser | PauserInstance(id: nat)

  /**
   * An `EventLoop` reference. `isLifecycle` says whether the object is an
   * `AbstractLifecycleEventLoop`; `pauser` is what its `pauser()` returns and
   * is only meaningful for such loops.
   */
  datatype EventLoopRef = EventLoopRef(id: LoopId, isLifecycle: bool, pauser: Pauser)

  /** One element of the (nested) argument of `stopAll`. */
  datatype Item =
    | Null
    | Loop(loop: EventLoopRef)
      /** an object that is an `EventLoop` and a `Collection` at once */
    | LoopCollection(loop: EventLoopRef, elements: seq<Item>)
    | Nested(elements: seq<Item>)
      /** any other object, known by its `toString()` */
    | Other(text: string)

  /** `o instanceof EventLoop` */
  predicate IsEventLoop(o: Item) {
    o.Loop? || o.LoopCollection?
  }

  /** `o instanceof Collection` */
  predicate IsCollection(o: Item) {
    o.LoopCollection? || o.Nested?
  }

  const ORIGIN: string := "net.openhft.chronicle.threads.EventLoops"

  /** The warning logged for an element that is neither null, a loop nor a collection. */
  function UnexpectedObject(text: string): (e: LogEntry) {
    LogEntry(ORIGIN, "Unexpected object passed to EventLoops.stop(): " + text, None)
  }

  /*
   * Specification of the walk: the stoppers and the warnings the walk over
   * `items` produces, element by element, in iteration order.
   */

  function Stoppers(items: seq<Item>): (r: seq<LoopId>)
    decreases items
  {
    if items == [] then [] else StoppersOf(items[0]) + Stoppers(items[1..])
  }

  function StoppersOf(o: Item): (r: seq<LoopId>)
    decreases o
  {
    if o.Null? then []
    else if IsEventLoop(o) then [o.loop.id]
    else if IsCollection(o) then Stoppers(o.elements)
    else []
  }

  function Warnings(items: seq<Item>): (r: seq<LogEntry>)
    decreases items
  {
    if items == [] then [] else WarningsOf(items[0]) + Warnings(items[1..])
  }

  function WarningsOf(o: Item): (r: seq<LogEntry>)
    decreases o
  {
    if o.Null? then []
    else if IsEventLoop(o) then []
    else if IsCollection(o) then Warnings(o.elements)
    else [UnexpectedObject(o.text)]
  }

  /** Walking `a + b` is walking `a`, then walking `b`. */
  lemma {:induction false} StoppersAppend(a: seq<Item>, b: seq<Item>)
    ensures Stoppers(a + b) == Stoppers(a) + Stoppers(b)
    ensures Warnings(a + b) == Warnings(a) + Warnings(b)
    decreases |a|
  {
    if a == [] {
      assert a + b == b;
    } else {
      assert (a + b)[0] == a[0];
      assert (a + b)[1..] == a[1..] + b;
      StoppersAppend(a[1..], b);
    }
  }

  /** The walk over one element, as a sequence of one. */
  lemma StoppersSingleton(o: Item)
    ensures Stoppers([o]) == StoppersOf(o)
    ensures Warnings([o]) == WarningsOf(o)
  {
    assert [o][1..] == [];
  }

  /** Walking `a`, one element `o`, then `b`: the three results side by side. */
  lemma StoppersAround(a: seq<Item>, o: Item, b: seq<Item>)
    ensures Stoppers(a + [o] + b) == Stoppers(a) + StoppersOf(o) + Stoppers(b)
    ensures Warnings(a + [o] + b) == Warnings(a) + WarningsOf(o) + Warnings(b)
  {
    StoppersAppend(a + [o], b);
    StoppersAppend(a, [o]);
    StoppersSingleton(o);
  }

  /** A null element, wherever it stands, produces no stopper and no warning. */
  lemma NullIsSkipped(a: seq<Item>, b: seq<Item>)
    ensures Stoppers(a + [Null] + b) == Stoppers(a + b)
    ensures Warnings(a + [Null] + b) == Warnings(a + b)
  {
    StoppersAround(a, Null, b);
    StoppersAppend(a, b);
  }

  /** Each occurrence of a loop yields exactly one stopper, in place; duplicates are kept. */
  lemma LoopYieldsOneStopper(a: seq<Item>, l: EventLoopRef, b: seq<Item>)
    ensures Stoppers(a + [Loop(l)] + b) == Stoppers(a) + [l.id] + Stoppers(b)
    ensures Warnings(a + [Loop(l)] + b) == Warnings(a) + Warnings(b)
  {
    StoppersAround(a, Loop(l), b);
  }

  /**
   * An object that is both a loop and a collection is stopped as a loop: its
   * elements are never visited, whatever they are.
   */
  lemma LoopWinsOverCollection(a: seq<Item>, l: EventLoopRef, elements: seq<Item>, b: seq<Item>)
    ensures Stoppers(a + [LoopCollection(l, elements)] + b) == Stoppers(a + [Loop(l)] + b)
    ensures Warnings(a + [LoopCollection(l, elements)] + b) == Warnings(a + [Loop(l)] + b)
  {
    StoppersAround(a, LoopCollection(l, elements), b);
    StoppersAround(a, Loop(l), b);
  }

  /** A nested collection is spliced in place: the walk recurses and only appends. */
  lemma NestedIsSpliced(a: seq<Item>, elements: seq<Item>, b: seq<Item>)
    ensures Stoppers(a + [Nested(elements)] + b) == Stoppers(a + elements + b)
    ensures Warnings(a + [Nested(elements)] + b) == Warnings(a + elements + b)
  {
    StoppersAround(a, Nested(elements), b);
    StoppersAppend(a + elements, b);
    StoppersAppend(a, elements);
  }

  /** Any other object produces exactly one warning, naming it, and no stopper. */
  lemma OtherWarnsOnce(a: seq<Item>, text: string, b: seq<Item>)
    ensures Stoppers(a + [Other(text)] + b) == Stoppers(a + b)
    ensures Warnings(a + [Other(text)] + b) == Warnings(a) + [UnexpectedObject(text)] + Warnings(b)
  {
    StoppersAround(a, Other(text), b);
    StoppersAppend(a, b);
  }

  /*
   * An independent reference for the walk: first flatten the tree into its
   * leaves in depth-first, left-to-right order (a loop that is also a
   * collection is a leaf), then read the stoppers and warnings off the flat
   * sequence of leaves.
   */

  function Flatten(items: seq<Item>): (leaves: seq<Item>)
    ensures forall i :: 0 <= i < |leaves| ==> !leaves[i].Nested?
    decreases items
  {
    if items == [] then [] else FlattenOf(items[0]) + Flatten(items[1..])
  }

  function FlattenOf(o: Item): (leaves: seq<Item>)
    ensures forall i :: 0 <= i < |leaves| ==> !leaves[i].Nested?
    decreases o
  {
    if o.Nested? then Flatten(o.elements) else [o]
  }

  /** The identities of the loop leaves, in order, duplicates kept. */
  function LoopIds(leaves: seq<Item>): (r: seq<LoopId>) {
    if leaves == [] then []
    else (if IsEventLoop(leaves[0]) then [leaves[0].loop.id] else []) + LoopIds(leaves[1..])
  }

  /** One warning per leaf that is neither null nor a loop, in order. */
  function OtherWarnings(leaves: seq<Item>): (r: seq<LogEntry>) {
    if leaves == [] then []
    else (if leaves[0].Other? then [UnexpectedObject(leaves[0].text)] else []) + OtherWarnings(leaves[1..])
  }

  lemma {:induction false} LoopIdsAppend(a: seq<Item>, b: seq<Item>)
    ensures LoopIds(a + b) == LoopIds(a) + LoopIds(b)
    ensures OtherWarnings(a + b) == OtherWarnings(a) + OtherWarnings(b)
  {
    LoopIdsOnlyAppend(a, b);
    OtherWarningsAppend(a, b);
  }

  lemma {:induction false} LoopIdsOnlyAppend(a: seq<Item>, b: seq<Item>)
    ensures LoopIds(a + b) == LoopIds(a) + LoopIds(b)
    decreases |a|
  {
    if a == [] {
      assert a + b == b;
    } else {
      var head := if IsEventLoop(a[0]) then [a[0].loop.id] else [];
      assert (a + b)[0] == a[0];
      assert (a + b)[1..] == a[1..] + b;
      assert LoopIds(a + b) == head + LoopIds(a[1..] + b);
      LoopIdsOnlyAppend(a[1..], b);
      assert LoopIds(a) == head + LoopIds(a[1..]);
    }
  }

  lemma {:induction false} OtherWarningsAppend(a: seq<Item>, b: seq<Item>)
    ensures OtherWarnings(a + b) == OtherWarnings(a) + OtherWarnings(b)
    decreases |a|
  {
    if a == [] {
      assert a + b == b;
    } else {
      var head := if a[0].Other? then [UnexpectedObject(a[0].text)] else [];
      assert (a + b)[0] == a[0];
      assert (a + b)[1..] == a[1..] + b;
      assert OtherWarnings(a + b) == head + OtherWarnings(a[1..] + b);
      OtherWarningsAppend(a[1..], b);
      assert OtherWarnings(a) == head + OtherWarnings(a[1..]);
    }
  }

  /**
   * The recursive walk agrees with the reference: the stoppers are exactly the
   * loop leaves of the input in depth-first, left-to-right order, one per
   * occurrence, and the warnings are exactly one per foreign leaf.
   */
  lemma {:induction false} StoppersAreLoopLeaves(items: seq<Item>)
    ensures Stoppers(items) == LoopIds(Flatten(items))
    ensures Warnings(items) == OtherWarnings(Flatten(items))
    decreases items
  {
    if items != [] {
      StoppersOfAreLoopLeaves(items[0]);
      StoppersAreLoopLeaves(items[1..]);
      LoopIdsAppend(FlattenOf(items[0]), Flatten(items[1..]));
    }
  }

  lemma {:induction false} StoppersOfAreLoopLeaves(o: Item)
    ensures StoppersOf(o) == LoopIds(FlattenOf(o))
    ensures WarningsOf(o) == OtherWarnings(FlattenOf(o))
    decreases o
  {
    if o.Nested? {
      StoppersAreLoopLeaves(o.elements);
    } else {
      assert [o][1..] == [];
    }
  }

  /** The same input with every null removed, at every depth the walk reaches. */
  function StripNulls(items: seq<Item>): (r: seq<Item>)
    ensures |r| <= |items|
    decreases items
  {
    if items == [] then []
    else (if items[0].Null? then [] else [StripNullsOf(items[0])]) + StripNulls(items[1..])
  }

  function StripNullsOf(o: Item): (r: Item)
    ensures r.Null? == o.Null?
    decreases o
  {
    if o.Nested? then Nested(StripNulls(o.elements)) else o
  }

  /** Nulls at any nesting depth change neither the stoppers nor the warnings. */
  lemma {:induction false} NullsAnywhereAreSkipped(items: seq<Item>)
    ensures Stoppers(StripNulls(items)) == Stoppers(items)
    ensures Warnings(StripNulls(items)) == Warnings(items)
    decreases items
  {
    if items != [] {
      var head := if items[0].Null? then [] else [StripNullsOf(items[0])];
      NullsAnywhereAreSkipped(items[1..]);
      StoppersAppend(head, StripNulls(items[1..]));
      if !items[0].Null? {
        NullsOfAreSkipped(items[0]);
        StoppersSingleton(StripNullsOf(items[0]));
      }
    }
  }

  lemma {:induction false} NullsOfAreSkipped(o: Item)
    requires !o.Null?
    ensures StoppersOf(StripNullsOf(o)) == StoppersOf(o)
    ensures WarningsOf(StripNullsOf(o)) == WarningsOf(o)
    decreases o
  {
    if o.Nested? {
      NullsAnywhereAreSkipped(o.elements);
    }
  }

  /*
   * The imperative walk.
   */

  /** The caller-supplied `List<Callable<Void>>` the walk appends to. */
  class StopperList {
    var loops: seq<LoopId>

    constructor ()
      ensures loops == []
    {
      loops := [];
    }
  }

  /**
   * `addAllEventLoopStoppers`: appends one stopper per loop and one warning
   * per foreign object, recursing into nested collections; nothing already in
   * the list or the log is changed.
   */
  method AddAllEventLoopStoppers(collection: seq<Item>, stoppers: StopperList, log: Log)
    modifies stoppers, log
    ensures stoppers.loops == old(stoppers.loops) + Stoppers(collection)
    ensures log.warnings == old(log.warnings) + Warnings(collection)
    ensures log.errors == old(log.errors)
    decreases collection
  {
    for i := 0 to |collection|
      invariant stoppers.loops == old(stoppers.loops) + Stoppers(collection[..i])
      invariant log.warnings == old(log.warnings) + Warnings(collection[..i])
      invariant log.errors == old(log.errors)
    {
      var o := collection[i];
      assert collection[..i + 1] == collection[..i] + [o];
      StoppersAppend(collection[..i], [o]);
      StoppersSingleton(o);
      if o.Null? {
        continue;
      }
      if IsEventLoop(o) {
        stoppers.loops := stoppers.loops + [o.loop.id];
      } else if IsCollection(o) {
        AddAllEventLoopStoppers(o.elements, stoppers, log);
      } else {
        log.warnings := log.warnings + [UnexpectedObject(o.text)];
      }
    }
    assert collection[..|collection|] == collection;
  }

  /*
   * Waiting for the stoppers. `invokeAll` runs every stopper and returns one
   * future per stopper, in order; what `get()` on each future did is given as
   * an `Outcome`.
   */

  datatype Outcome =
    | Completed
      /** `get()` threw `ExecutionException` with this cause */
    | Failed(cause: string)
      /** `get()` threw `InterruptedException` */
    | Interrupted

  function StopError(cause: string): (e: LogEntry) {
    LogEntry(ORIGIN, "Error stopping event loop", Some(cause))
  }

  const INTERRUPTED_WARNING: LogEntry := LogEntry(ORIGIN, "Interrupted waiting for event loops to stop", None)

  /** Errors logged while waiting on `outcomes`, in order (defined by the last outcome, as the loop visits them). */
  function OutcomeErrors(outcomes: seq<Outcome>): (r: seq<LogEntry>) {
    if outcomes == [] then []
    else
      var last := outcomes[|outcomes| - 1];
      OutcomeErrors(outcomes[..|outcomes| - 1]) + (if last.Failed? then [StopError(last.cause)] else [])
  }

  /** Warnings logged while waiting on `outcomes`, in order. */
  function OutcomeWarnings(outcomes: seq<Outcome>): (r: seq<LogEntry>) {
    if outcomes == [] then []
    else
      var last := outcomes[|outcomes| - 1];
      OutcomeWarnings(outcomes[..|outcomes| - 1]) + (if last.Interrupted? then [INTERRUPTED_WARNING] else [])
  }

  /**
   * Waiting never stops early: the logs for `a + b` are those for `a`
   * followed by those for `b`, whatever `a` held.
   */
  lemma {:induction false} OutcomesAppend(a: seq<Outcome>, b: seq<Outcome>)
    ensures OutcomeErrors(a + b) == OutcomeErrors(a) + OutcomeErrors(b)
    ensures OutcomeWarnings(a + b) == OutcomeWarnings(a) + OutcomeWarnings(b)
    decreases |b|
  {
    if b == [] {
      assert a + b == a;
    } else {
      var n := |b| - 1;
      assert (a + b)[..|a + b| - 1] == a + b[..n];
      assert (a + b)[|a + b| - 1] == b[n];
      OutcomesAppend(a, b[..n]);
    }
  }

  /**
   * Every outcome is accounted for: each failure is logged as an error
   * carrying its cause, each error comes from a failure, each interrupt logs
   * exactly one warning, and the number of errors is the number of failures.
   */
  lemma {:induction false} OutcomesAccounted(outcomes: seq<Outcome>)
    ensures forall k :: 0 <= k < |outcomes| && outcomes[k].Failed? ==> StopError(outcomes[k].cause) in OutcomeErrors(outcomes)
    ensures forall e :: e in OutcomeErrors(outcomes) ==> exists k :: 0 <= k < |outcomes| && outcomes[k].Failed? && e == StopError(outcomes[k].cause)
    ensures |OutcomeErrors(outcomes)| == |outcomes| - multiset(outcomes)[Completed] - multiset(outcomes)[Interrupted]
    ensures OutcomeWarnings(outcomes) == seq(multiset(outcomes)[Interrupted], _ => INTERRUPTED_WARNING)
    decreases |outcomes|
  {
    if outcomes != [] {
      var n := |outcomes| - 1;
      var init, last := outcomes[..n], outcomes[n];
      assert outcomes == init + [last];
      OutcomesAccounted(init);
      assert multiset(outcomes) == multiset(init) + multiset{last};
      forall k | 0 <= k < |outcomes| && outcomes[k].Failed?
        ensures StopError(outcomes[k].cause) in OutcomeErrors(outcomes)
      {
        if k < n {
          assert outcomes[k] == init[k];
        }
      }
      forall e | e in OutcomeErrors(outcomes)
        ensures exists k :: 0 <= k < |outcomes| && outcomes[k].Failed? && e == StopError(outcomes[k].cause)
      {
        if e in OutcomeErrors(init) {
          var k :| 0 <= k < |init| && init[k].Failed? && e == StopError(init[k].cause);
          assert outcomes[k] == init[k];
        } else {
          assert outcomes[n].Failed? && e == StopError(outcomes[n].cause);
        }
      }
    }
  }

  /**
   * The waiting loop of `stopAll`: visits every outcome, logs an error per
   * failure and a warning per interrupt, re-asserts the interrupt on the
   * calling thread, and carries on after each.
   */
  method AwaitStoppers(outcomes: seq<Outcome>, log: Log, current: CurrentThread)
    modifies log, current
    ensures log.errors == old(log.errors) + OutcomeErrors(outcomes)
    ensures log.warnings == old(log.warnings) + OutcomeWarnings(outcomes)
    ensures current.interrupted == (old(current.interrupted) || Interrupted in outcomes)
  {
    for i := 0 to |outcomes|
      invariant log.errors == old(log.errors) + OutcomeErrors(outcomes[..i])
      invariant log.warnings == old(log.warnings) + OutcomeWarnings(outcomes[..i])
      invariant current.interrupted == (old(current.interrupted) || Interrupted in outcomes[..i])
    {
      assert outcomes[..i + 1][..i] == outcomes[..i];
      assert outcomes[..i + 1] == outcomes[..i] + [outcomes[i]];
      match outcomes[i]
      case Completed =>
      case Failed(cause) =>
        log.errors := log.errors + [StopError(cause)];
      case Interrupted =>
        log.warnings := log.warnings + [INTERRUPTED_WARNING];
        current.Interrupt();
    }
    assert outcomes[..|outcomes|] == outcomes;
  }

  /**
   * `stopAll` run sequentially: collects the stoppers, runs every one of them
   * (the returned loops are those whose `stop()` is called, in order), then
   * waits on every outcome. `outcomes` holds one outcome per stopper, as
   * `invokeAll` returns one future per task.
   */
  method StopAll(eventLoops: seq<Item>, outcomes: seq<Outcome>, log: Log, current: CurrentThread)
    returns (stopped: seq<LoopId>)
    requires |outcomes| == |Stoppers(eventLoops)|
    modifies log, current
    ensures stopped == Stoppers(eventLoops)
    ensures log.warnings == old(log.warnings) + Warnings(eventLoops) + OutcomeWarnings(outcomes)
    ensures log.errors == old(log.errors) + OutcomeErrors(outcomes)
    ensures current.interrupted == (old(current.interrupted) || Interrupted in outcomes)
  {
    var stoppers := new StopperList();
    AddAllEventLoopStoppers(eventLoops, stoppers, log);
    stopped := stoppers.loops;
    AwaitStoppers(outcomes, log, current);
  }

  /*
   * The trace-only registry of live loops.
   */

  /** The registry after `addEventLoop(l)`. */
  function AfterAdd(trace: bool, loops: set<LoopId>, l: LoopId): (r: set<LoopId>)
    ensures trace ==> l in r
    ensures !trace ==> r == loops
    ensures forall m :: m != l ==> (m in r <==> m in loops)
  {
    if trace then loops + {l} else loops
  }

  /** The registry after `removeEventLoop(l)`. */
  function AfterRemove(trace: bool, loops: set<LoopId>, l: LoopId): (r: set<LoopId>)
    ensures trace ==> l !in r
    ensures !trace ==> r == loops
    ensures forall m :: m != l ==> (m in r <==> m in loops)
  {
    if trace then loops - {l} else loops
  }

  /** Removing a loop undoes registering it, whether or not tracing is on. */
  lemma RemoveUndoesAdd(trace: bool, loops: set<LoopId>, l: LoopId)
    requires l !in loops
    ensures AfterRemove(trace, AfterAdd(trace, loops, l), l) == loops
  {
  }

  /**
   * `EVENT_LOOPS` with its flag `TRACE_EVENT_LOOPS`, read once when the class
   * is set up; when tracing is off the set is the immutable empty set.
   */
  class Registry {
    const traceEventLoops: bool
    var loops: set<LoopId>

    ghost predicate Valid()
      reads this
    {
      !traceEventLoops ==> loops == {}
    }

    constructor (traceEventLoops: bool)
      ensures Valid()
      ensures this.traceEventLoops == traceEventLoops && loops == {}
    {
      this.traceEventLoops := traceEventLoops;
      loops := {};
    }

    method AddEventLoop(l: LoopId)
      requires Valid()
      modifies this
      ensures Valid()
      ensures loops == AfterAdd(traceEventLoops, old(loops), l)
    {
      if traceEventLoops {
        loops := loops + {l};
      }
    }

    method RemoveEventLoop(l: LoopId)
      requires Valid()
      modifies this
      ensures Valid()
      ensures loops == AfterRemove(traceEventLoops, old(loops), l)
    {
      if traceEventLoops {
        loops := loops - {l};
      }
    }

    /** `eventLoops()`: the registered loops, always empty when tracing is off. */
    function EventLoops(): (r: set<LoopId>)
      requires Valid()
      reads this
      ensures !traceEventLoops ==> r == {}
    {
      loops
    }
  }

  /**
   * `pauserFor`: the loop's own pauser for a lifecycle loop, the busy pauser
   * for any other loop and for a null reference.
   */
  function PauserFor(loop: Option<EventLoopRef>): (p: Pauser)
    ensures loop.Some? && loop.value.isLifecycle ==> p == loop.value.pauser
    ensures loop.None? || !loop.value.isLifecycle ==> p == BusyPauser
  {
    match loop
    case Some(l) => if l.isLifecycle then l.pauser else BusyPauser
    case None => BusyPauser
  }
}
