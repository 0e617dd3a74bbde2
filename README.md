# Chronicle Threads: group stop, loop registry and state renderer

A Dafny model of two classes of Chronicle Threads, a low-latency event-loop
runtime:

- `EventLoops` (module `EventLoops`, file `event_loops.dfy`):
  - `stopAll`. It stops every event loop found in an arbitrarily nested
    argument. It walks the argument depth-first, left to right. A null is
    skipped. An event loop becomes one stopper. A collection is walked
    recursively. Any other object logs one warning. It then waits on one
    outcome per stopper, and a failure or an interrupt never cuts the wait
    short.
  - The trace-only registry of live loops (`addEventLoop`, `removeEventLoop`,
    `eventLoops`). It is switched by the `TRACE_EVENT_LOOPS` flag.
  - `pauserFor`.
- `EventLoopStateRenderer` (module `EventLoopStateRenderer`, file
  `event_loop_state_renderer.dfy`). Its `render` builds a diagnostic report
  of one loop by successive appends to a string builder.

The argument of `stopAll` is the tagged tree `Item`. Its cases are `Null`,
`Loop`, `LoopCollection` (an object that is both a loop and a collection),
`Nested` and `Other`. A stopper is the identity of the loop it stops. The
walk is specified by the functions `Stoppers` and `Warnings`. It is
implemented by the recursive method `AddAllEventLoopStoppers`, which appends
to a caller-owned `StopperList` and to the `Log`. Both are checked against a
second definition: flatten the tree into its leaves, then filter
(`StoppersAreLoopLeaves`).

The renderer reads a `LoopSnapshot`. The snapshot holds the loop's class
name, its `toString()`, its closed and closing flags and whether it is a
lifecycle loop. For a lifecycle loop it also holds the lifecycle text, or
`None` when the reflective read is refused. Last, it holds whether the loop
is a core loop, and if so its thread: `None` for a null thread, otherwise
the thread's state and stack trace. The builder records each append as a
`Part`, and `Text` gives the exact characters of those parts. The
`Lifecycle: ` label is appended before the field is read. A refused read
therefore leaves the label in the report with no value and no line break,
and the next line continues right after it. The model keeps that behaviour.
The layout lemmas state which lines appear, in which order and under which
conditions.
`TextAppend` ties the parts to the characters.

Shared pieces: `Runtime.Log` stands for `Jvm.warn()` and `Jvm.error()`. Each
call appends one `LogEntry` holding the origin class, the message and an
optional cause. `Runtime.CurrentThread` holds the calling thread's
interrupt flag.

## Model

| member | source | states |
|---|---|---|
| `EventLoops.StoppersAppend` | src/main/java/net/openhft/chronicle/threads/EventLoops.java:76-92 | walking `a + b` yields the stoppers and warnings of `a` followed by those of `b` |
| `EventLoops.NullIsSkipped` | src/main/java/net/openhft/chronicle/threads/EventLoops.java:78-80 | a null element anywhere in a list adds no stopper and no warning |
| `EventLoops.NullsAnywhereAreSkipped` | src/main/java/net/openhft/chronicle/threads/EventLoops.java:78-80 | removing every null at every depth the walk reaches changes neither the stoppers nor the warnings |
| `EventLoops.LoopYieldsOneStopper` | src/main/java/net/openhft/chronicle/threads/EventLoops.java:81-85 | each occurrence of a loop adds exactly one stopper for that loop, in its place, and no warning; duplicates are kept |
| `EventLoops.LoopWinsOverCollection` | src/main/java/net/openhft/chronicle/threads/EventLoops.java:81-87 | an object that is both a loop and a collection is treated exactly as a plain loop, whatever its elements |
| `EventLoops.NestedIsSpliced` | src/main/java/net/openhft/chronicle/threads/EventLoops.java:86-87 | a nested collection contributes exactly what its elements would contribute spliced in place |
| `EventLoops.OtherWarnsOnce` | src/main/java/net/openhft/chronicle/threads/EventLoops.java:88-90 | any other object adds exactly one "Unexpected object passed to EventLoops.stop(): " warning naming it, and no stopper |
| `EventLoops.StoppersAreLoopLeaves` | src/main/java/net/openhft/chronicle/threads/EventLoops.java:76-92 | the stoppers are the loop leaves of the depth-first, left-to-right flattening, one per occurrence; the warnings are one per foreign leaf, in order |
| `EventLoops.AddAllEventLoopStoppers` | src/main/java/net/openhft/chronicle/threads/EventLoops.java:76-92 | the walk only appends: new stopper list = old list + `Stoppers(collection)`, new warnings = old + `Warnings(collection)`, errors unchanged |
| `EventLoops.OutcomesAppend` | src/main/java/net/openhft/chronicle/threads/EventLoops.java:64-73 | the logs for outcomes `a + b` are those for `a` followed by those for `b`: no outcome stops the wait early |
| `EventLoops.OutcomesAccounted` | src/main/java/net/openhft/chronicle/threads/EventLoops.java:64-73 | every failure is logged as a "Error stopping event loop" error with its cause and every error comes from a failure; the number of errors is the number of failures; there is one interrupt warning per interrupt |
| `EventLoops.AwaitStoppers` | src/main/java/net/openhft/chronicle/threads/EventLoops.java:64-73 | the waiting loop appends exactly those errors and warnings and sets the caller's interrupt flag iff some outcome was an interrupt (or it was already set) |
| `EventLoops.StopAll` | src/main/java/net/openhft/chronicle/threads/EventLoops.java:61-74 | the tasks handed to `invokeAll` are exactly `Stoppers(eventLoops)`, in list order; the log grows by the walk's warnings, then the waiting loop's warnings and errors |
| `EventLoops.AfterAdd` | src/main/java/net/openhft/chronicle/threads/EventLoops.java:40-43 | with tracing on the loop becomes a member; with tracing off nothing changes; no other loop's membership changes |
| `EventLoops.AfterRemove` | src/main/java/net/openhft/chronicle/threads/EventLoops.java:45-48 | with tracing on the loop is no longer a member; with tracing off nothing changes; no other loop's membership changes |
| `EventLoops.RemoveUndoesAdd` | src/main/java/net/openhft/chronicle/threads/EventLoops.java:40-48 | removing a loop that was not registered before adding it restores the registry |
| `EventLoops.Registry.constructor` | src/main/java/net/openhft/chronicle/threads/EventLoops.java:31-34 | the flag is fixed once; the set starts empty, which is the empty set when tracing is off |
| `EventLoops.Registry.AddEventLoop` | src/main/java/net/openhft/chronicle/threads/EventLoops.java:40-43 | the registry becomes `AfterAdd(flag, old set, loop)` and stays empty when tracing is off |
| `EventLoops.Registry.RemoveEventLoop` | src/main/java/net/openhft/chronicle/threads/EventLoops.java:45-48 | the registry becomes `AfterRemove(flag, old set, loop)` and stays empty when tracing is off |
| `EventLoops.Registry.EventLoops` | src/main/java/net/openhft/chronicle/threads/EventLoops.java:50-52 | the registered loops; empty whenever tracing is off |
| `EventLoops.PauserFor` | src/main/java/net/openhft/chronicle/threads/EventLoops.java:94-100 | a lifecycle loop's own pauser; the busy pauser for any other loop and for a null reference |
| `EventLoopStateRenderer.TextAppend` | src/main/java/net/openhft/chronicle/threads/internal/EventLoopStateRenderer.java:39-46 | the builder's text after appends `a` then `b` is the text of `a` followed by the text of `b` |
| `EventLoopStateRenderer.NullLoopReport` | src/main/java/net/openhft/chronicle/threads/internal/EventLoopStateRenderer.java:35-38 | a null loop renders exactly `name + " event loop is null"`, with no line break after the name and no warning |
| `EventLoopStateRenderer.ReportOpening` | src/main/java/net/openhft/chronicle/threads/internal/EventLoopStateRenderer.java:39-43 | a non-null loop's report is its heading line, then its `#toString(): `, `Closed: ` and `Closing: ` lines, then the rest |
| `EventLoopStateRenderer.ReportBeginsWithHeading` | src/main/java/net/openhft/chronicle/threads/internal/EventLoopStateRenderer.java:40 | the report of a non-null loop begins with `name + " event loop state\n"` |
| `EventLoopStateRenderer.ClosedThenClosing` | src/main/java/net/openhft/chronicle/threads/internal/EventLoopStateRenderer.java:42-43 | the closed line carrying `isClosed()` is the third append, immediately followed by the closing line carrying `isClosing()` |
| `EventLoopStateRenderer.LifecycleLinePlacement` | src/main/java/net/openhft/chronicle/threads/internal/EventLoopStateRenderer.java:65-69 | the `Lifecycle: ` label is the fifth append exactly for a lifecycle loop; the value follows as the sixth append exactly when the field was read, and carries its text; both precede every thread part |
| `EventLoopStateRenderer.LifecycleFailureWarns` | src/main/java/net/openhft/chronicle/threads/internal/EventLoopStateRenderer.java:70-72 | when the field cannot be read, the report is the opening parts, the dangling `Lifecycle: ` label and the thread section, so the thread text follows the label on the same line; there is no value and exactly one warning naming the class |
| `EventLoopStateRenderer.ThreadSection` | src/main/java/net/openhft/chronicle/threads/internal/EventLoopStateRenderer.java:49-62 | a non-core loop has no thread line; a core loop with a null thread ends with exactly `Thread is null`; with a live thread the section starts with its state line |
| `EventLoopStateRenderer.StackTraceHeadingIff` | src/main/java/net/openhft/chronicle/threads/internal/EventLoopStateRenderer.java:54-58 | the `Stack trace:` heading appears iff the loop is a core loop with a thread whose stack trace is non-empty; the trimmed trace follows it and ends the report |
| `EventLoopStateRenderer.Render` | src/main/java/net/openhft/chronicle/threads/internal/EventLoopStateRenderer.java:35-47 | returns `Report(name, eventLoop, trim)` for every input; logs exactly `RenderWarnings(eventLoop)`; logs no error |
| `EventLoopStateRenderer.AddLifecycleDetails` | src/main/java/net/openhft/chronicle/threads/internal/EventLoopStateRenderer.java:65-74 | for a lifecycle loop appends the `Lifecycle: ` label, then the value and a line break, or, when the read is refused, logs the warning and appends nothing more |
| `EventLoopStateRenderer.AddCoreEventLoopDetails` | src/main/java/net/openhft/chronicle/threads/internal/EventLoopStateRenderer.java:49-63 | appends exactly the thread section `CoreParts(loop)` and nothing else |

## Left out

- Concurrency in `stopAll`. `ForkJoinPool.commonPool().invokeAll` and `Future.get` are not modelled. The outcome of each future (completed, failed with a cause, interrupted) is an input, one per stopper in order, and the futures are visited sequentially. That is why `StopAll` requires one outcome per stopper. A thread whose interrupt flag was set by an earlier outcome is not made to fail later `get()` calls.
- What `stop()` does to a loop. The loop classes are not part of this model. A stopper is the identity of the loop it stops.
- A `stopAll` call whose varargs array is itself null is not modelled. Only null elements are.
- The weak references and the synchronisation of the `WeakHashMap`-backed set. The registry is a plain set of loop identities. `eventLoops()` returns the set's value, not a live view.
- Reading `trace.eventLoops` from the JVM. The flag is a constructor parameter of `Registry`.
- Reflection on the `lifecycle` field. Its text, or the refusal to read it, is part of the snapshot.
- Live thread introspection. The thread's state and stack trace are part of the snapshot.
- The characters `Jvm.trimStackTrace` appends. They are the function parameter `trim`.
- Logging. Each `Jvm.warn()` or `Jvm.error()` call is one appended `LogEntry`, with the throwable reduced to its text.
- The stopper only calls `stop()` (EventLoops.java:82-85). It does not wait for the loop's thread to end, and neither does the model.
- Cyclic input. A collection that contains itself, directly or through another collection, cannot be written as an `Item`, because `Item` is an inductive tree. On such input `addAllEventLoopStoppers` recurses until the JVM throws `StackOverflowError`, which `stopAll` does not catch. `Stoppers` and `AddAllEventLoopStoppers` terminate on every input they accept.
- A null `name` in `render`. Java appends the text `null` for it, but the model's `name` is always a string.
- A null loop in the registry. With tracing on, `addEventLoop(null)` stores null in the set; the model's loop identities cannot be null.
- The lifecycle state machine, the pausers, event groups and the monitor and blocking loops are not part of this model. Their classes are not among the files modelled.
