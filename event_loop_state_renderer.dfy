/**
 * Model of `EventLoopStateRenderer.render`: the diagnostic report of one
 * event loop, assembled by successive appends to a string builder.
 *
 * What the Java code reads from the loop (its `toString()`, the closed and
 * closing flags, the `lifecycle` field read by reflection, the backing thread's
 * state and stack trace) is abstracted into a `LoopSnapshot`. The builder
 * records each append as a `Part`; `Text` gives the exact characters.
 */
module EventLoopStateRenderer {
  import opened Wrappers
  import opened Runtime

  /** `java.lang.Thread.State`, appended by its constant name. */
  datatype ThreadState = NEW | RUNNABLE | BLOCKED | WAITING | TIMED_WAITING | TERMINATED

  function ThreadStateName(s: ThreadState): (r: string) {
    match s
    case NEW => "NEW"
    case RUNNABLE => "RUNNABLE"
    case BLOCKED => "BLOCKED"
    case WAITING => "WAITING"
    case TIMED_WAITING => "TIMED_WAITING"
    case TERMINATED => "TERMINATED"
  }

  /** A `StackTraceElement`, by its text. */
  type StackFrame = string

  /** A live thread as seen by `getState()` and `getStackTrace()`. */
  datatype ThreadSnapshot = ThreadSnapshot(state: ThreadState, stackTrace: seq<StackFrame>)

  /**
   * Whether the loop is an `AbstractLifecycleEventLoop`; if so, the text of
   * its `lifecycle` field, or `None` when reading the field is refused.
   */
  datatype LifecycleView = NotLifecycle | LifecycleLoop(lifecycle: Option<string>)

  /** Whether the loop is a `CoreEventLoop`; if so, its `thread()`, which may be null. */
  datatype CoreView = NotCore | CoreLoop(thread: Option<ThreadSnapshot>)

  /** What `render` observes of a non-null loop. */
  datatype LoopSnapshot = LoopSnapshot(
    className: string,
    text: string,
    closed: bool,
    closing: bool,
    lifecycle: LifecycleView,
    core: CoreView)

  /** One append to the builder. */
  datatype Part =
    | StateHeading(name: string)
    | ToStringLine(text: string)
    | ClosedLine(closed: bool)
    | ClosingLine(closing: bool)
      /** `append("Lifecycle: ")`, made before the field is read */
    | LifecycleLabel
      /** the field's value and the line break, appended once the read succeeded */
    | LifecycleValue(lifecycle: string)
    | ThreadStateLine(state: ThreadState)
    | StackTraceHeading
      /** what `Jvm.trimStackTrace` appends for these frames */
    | TrimmedStackTrace(frames: seq<StackFrame>)
    | ThreadIsNull

  /** The parts that make up the lifecycle section. */
  predicate IsLifecyclePart(p: Part) {
    p.LifecycleLabel? || p.LifecycleValue?
  }

  /** The parts that make up the thread section. */
  predicate IsThreadPart(p: Part) {
    p.ThreadStateLine? || p.StackTraceHeading? || p.TrimmedStackTrace? || p.ThreadIsNull?
  }

  /** `StringBuilder.append(boolean)` */
  function BoolText(b: bool): (r: string) {
    if b then "true" else "false"
  }

  /** The characters one append adds; `trim` stands for `Jvm.trimStackTrace`. */
  function PartText(p: Part, trim: seq<StackFrame> -> string): (r: string) {
    match p
    case StateHeading(name) => name + " event loop state\n"
    case ToStringLine(text) => "#toString(): " + text + "\n"
    case ClosedLine(closed) => "Closed: " + BoolText(closed) + "\n"
    case ClosingLine(closing) => "Closing: " + BoolText(closing) + "\n"
    case LifecycleLabel => "Lifecycle: "
    case LifecycleValue(lifecycle) => lifecycle + "\n"
    case ThreadStateLine(state) => "Thread state: " + ThreadStateName(state) + "\n"
    case StackTraceHeading => "Stack trace:"
    case TrimmedStackTrace(frames) => trim(frames)
    case ThreadIsNull => "Thread is null\n"
  }

  /** `toString()` of a builder holding `parts`. */
  function Text(parts: seq<Part>, trim: seq<StackFrame> -> string): (r: string) {
    if parts == [] then "" else PartText(parts[0], trim) + Text(parts[1..], trim)
  }

  /** The text of a concatenation of appends is the concatenation of their texts. */
  lemma {:induction false} TextAppend(a: seq<Part>, b: seq<Part>, trim: seq<StackFrame> -> string)
    ensures Text(a + b, trim) == Text(a, trim) + Text(b, trim)
    decreases |a|
  {
    if a == [] {
      assert a + b == b;
    } else {
      assert (a + b)[0] == a[0];
      assert (a + b)[1..] == a[1..] + b;
      TextAppend(a[1..], b, trim);
    }
  }

  /** Prepending one part puts its characters first. */
  lemma TextCons(p: Part, rest: seq<Part>, trim: seq<StackFrame> -> string)
    ensures Text([p] + rest, trim) == PartText(p, trim) + Text(rest, trim)
  {
    assert ([p] + rest)[1..] == rest;
  }

  /** Appending one part adds exactly that part's characters. */
  lemma TextSnoc(a: seq<Part>, p: Part, trim: seq<StackFrame> -> string)
    ensures Text(a + [p], trim) == Text(a, trim) + PartText(p, trim)
  {
    TextAppend(a, [p], trim);
    assert [p][1..] == [];
  }

  /** A `StringBuilder`, seen through the appends made to it. */
  class ReportBuilder {
    var parts: seq<Part>

    constructor ()
      ensures parts == []
    {
      parts := [];
    }

    method Append(p: Part)
      modifies this
      ensures parts == old(parts) + [p]
    {
      parts := parts + [p];
    }

    function ToString(trim: seq<StackFrame> -> string): (r: string)
      reads this
    {
      Text(parts, trim)
    }
  }

  /*
   * Specification of the report.
   */

  /** The four lines every non-null loop gets. */
  function OpeningParts(name: string, s: LoopSnapshot): (r: seq<Part>) {
    [StateHeading(name), ToStringLine(s.text), ClosedLine(s.closed), ClosingLine(s.closing)]
  }

  /**
   * What `addLifecycleDetails` appends. The label is appended before the
   * field is read, so a refused read leaves it without a value or line break.
   */
  function LifecycleParts(s: LoopSnapshot): (r: seq<Part>) {
    match s.lifecycle
    case NotLifecycle => []
    case LifecycleLoop(None) => [LifecycleLabel]
    case LifecycleLoop(Some(lifecycle)) => [LifecycleLabel, LifecycleValue(lifecycle)]
  }

  /** What `addCoreEventLoopDetails` appends. */
  function CoreParts(s: LoopSnapshot): (r: seq<Part>) {
    match s.core
    case NotCore => []
    case CoreLoop(None) => [ThreadIsNull]
    case CoreLoop(Some(t)) =>
      [ThreadStateLine(t.state)] + (if |t.stackTrace| > 0 then [StackTraceHeading, TrimmedStackTrace(t.stackTrace)] else [])
  }

  function ReportParts(name: string, s: LoopSnapshot): (r: seq<Part>) {
    OpeningParts(name, s) + LifecycleParts(s) + CoreParts(s)
  }

  /** The string `render(name, eventLoop)` returns. */
  function Report(name: string, eventLoop: Option<LoopSnapshot>, trim: seq<StackFrame> -> string): (r: string) {
    match eventLoop
    case None => name + " event loop is null"
    case Some(s) => Text(ReportParts(name, s), trim)
  }

  const ORIGIN: string := "net.openhft.chronicle.threads.internal.EventLoopStateRenderer"

  /** The warnings `render` logs. */
  function RenderWarnings(eventLoop: Option<LoopSnapshot>): (r: seq<LogEntry>) {
    match eventLoop
    case Some(s) =>
      if s.lifecycle == LifecycleLoop(None)
      then [LogEntry(ORIGIN, "Error getting the lifecycle for " + s.className, None)]
      else []
    case None => []
  }

  /*
   * The layout of the report.
   */

  /** A null loop gets one fixed sentence with no line break. */
  lemma NullLoopReport(name: string, trim: seq<StackFrame> -> string)
    ensures Report(name, None, trim) == name + " event loop is null"
    ensures '\n' !in Report(name, None, trim)[|name|..]
    ensures RenderWarnings(None) == []
  {
    assert Report(name, None, trim)[|name|..] == " event loop is null";
  }

  /**
   * A non-null loop's report opens with its heading line, then the
   * `toString()`, closed and closing lines, in that order, then the rest.
   */
  lemma ReportOpening(name: string, s: LoopSnapshot, trim: seq<StackFrame> -> string)
    ensures Report(name, Some(s), trim)
            == PartText(StateHeading(name), trim)
               + (PartText(ToStringLine(s.text), trim)
               + (PartText(ClosedLine(s.closed), trim)
               + (PartText(ClosingLine(s.closing), trim)
               + Text(LifecycleParts(s) + CoreParts(s), trim))))
  {
    var rest := LifecycleParts(s) + CoreParts(s);
    var p0, p1, p2, p3 := StateHeading(name), ToStringLine(s.text), ClosedLine(s.closed), ClosingLine(s.closing);
    var tail3 := [p3] + rest;
    var tail2 := [p2] + tail3;
    var tail1 := [p1] + tail2;
    assert ReportParts(name, s) == [p0] + tail1 by {
      assert OpeningParts(name, s) == [p0] + ([p1] + ([p2] + [p3]));
    }
    TextCons(p3, rest, trim);
    TextCons(p2, tail3, trim);
    TextCons(p1, tail2, trim);
    TextCons(p0, tail1, trim);
  }

  /** The report of a non-null loop begins with the heading line naming it. */
  lemma ReportBeginsWithHeading(name: string, s: LoopSnapshot, trim: seq<StackFrame> -> string)
    ensures var heading := name + " event loop state\n";
            |heading| <= |Report(name, Some(s), trim)| && Report(name, Some(s), trim)[..|heading|] == heading
  {
    ReportOpening(name, s, trim);
    var heading := name + " event loop state\n";
    var more := PartText(ToStringLine(s.text), trim)
               + (PartText(ClosedLine(s.closed), trim)
               + (PartText(ClosingLine(s.closing), trim)
               + Text(LifecycleParts(s) + CoreParts(s), trim)));
    assert Report(name, Some(s), trim) == heading + more;
  }

  /** The closed line comes immediately before the closing line, right after the opening two lines. */
  lemma ClosedThenClosing(name: string, s: LoopSnapshot)
    ensures var r := ReportParts(name, s);
            |r| >= 4 && r[0] == StateHeading(name) && r[1] == ToStringLine(s.text)
            && r[2] == ClosedLine(s.closed) && r[3] == ClosingLine(s.closing)
  {
  }

  /**
   * The lifecycle label appears exactly for a lifecycle loop, as the fifth
   * append; the value follows it, as the sixth, exactly when the field could
   * be read. Both precede every part of the thread section.
   */
  lemma LifecycleLinePlacement(name: string, s: LoopSnapshot)
    ensures var r := ReportParts(name, s);
            (exists i :: 0 <= i < |r| && r[i].LifecycleLabel?) <==> s.lifecycle.LifecycleLoop?
    ensures var r := ReportParts(name, s);
            (exists i :: 0 <= i < |r| && r[i].LifecycleValue?)
            <==> (s.lifecycle.LifecycleLoop? && s.lifecycle.lifecycle.Some?)
    ensures var r := ReportParts(name, s);
            forall i :: 0 <= i < |r| && r[i].LifecycleLabel? ==> i == 4
    ensures var r := ReportParts(name, s);
            forall i :: 0 <= i < |r| && r[i].LifecycleValue? ==>
              i == 5 && r[i - 1] == LifecycleLabel && r[i].lifecycle == s.lifecycle.lifecycle.value
    ensures var r := ReportParts(name, s);
            forall i, j :: 0 <= i < |r| && 0 <= j < |r| && IsLifecyclePart(r[i]) && IsThreadPart(r[j]) ==> i < j
  {
    var r := ReportParts(name, s);
    assert forall i :: 0 <= i < 4 ==> !IsLifecyclePart(r[i]) && !IsThreadPart(r[i]);
    if s.lifecycle.LifecycleLoop? {
      assert r[4].LifecycleLabel?;
      if s.lifecycle.lifecycle.Some? {
        assert r[5].LifecycleValue?;
      }
    }
  }

  /**
   * When the lifecycle field cannot be read, the label `Lifecycle: ` has
   * already been appended and stays without a value or line break, so the
   * thread section continues on the same line; exactly one warning naming the
   * loop's class is logged, and the report is still complete.
   */
  lemma LifecycleFailureWarns(name: string, s: LoopSnapshot, trim: seq<StackFrame> -> string)
    requires s.lifecycle == LifecycleLoop(None)
    ensures ReportParts(name, s) == OpeningParts(name, s) + [LifecycleLabel] + CoreParts(s)
    ensures forall i :: 0 <= i < |ReportParts(name, s)| ==> !ReportParts(name, s)[i].LifecycleValue?
    ensures Report(name, Some(s), trim)
            == Text(OpeningParts(name, s), trim) + ("Lifecycle: " + Text(CoreParts(s), trim))
    ensures RenderWarnings(Some(s)) == [LogEntry(ORIGIN, "Error getting the lifecycle for " + s.className, None)]
  {
    var o := OpeningParts(name, s);
    assert ReportParts(name, s) == o + ([LifecycleLabel] + CoreParts(s));
    TextAppend(o, [LifecycleLabel] + CoreParts(s), trim);
    TextCons(LifecycleLabel, CoreParts(s), trim);
  }

  /**
   * The thread section is present only for a core loop: a null thread gives
   * exactly the line `Thread is null`, a live thread a state line first, and
   * a non-core loop's report ends with its lifecycle details.
   */
  lemma ThreadSection(name: string, s: LoopSnapshot)
    ensures s.core.NotCore? ==>
              ReportParts(name, s) == OpeningParts(name, s) + LifecycleParts(s)
              && forall i :: 0 <= i < |ReportParts(name, s)| ==> !IsThreadPart(ReportParts(name, s)[i])
    ensures s.core == CoreLoop(None) ==>
              ReportParts(name, s) == OpeningParts(name, s) + LifecycleParts(s) + [ThreadIsNull]
    ensures s.core.CoreLoop? && s.core.thread.Some? ==>
              var k := |OpeningParts(name, s) + LifecycleParts(s)|;
              k < |ReportParts(name, s)| && ReportParts(name, s)[k] == ThreadStateLine(s.core.thread.value.state)
              && forall i :: 0 <= i < |ReportParts(name, s)| && IsThreadPart(ReportParts(name, s)[i]) ==> k <= i
  {
    var pre := OpeningParts(name, s) + LifecycleParts(s);
    assert forall i :: 0 <= i < |pre| ==> !IsThreadPart(pre[i]);
    if s.core.NotCore? {
      assert ReportParts(name, s) == pre + [];
    }
  }

  /** The stack-trace heading, and the trimmed trace after it, appear exactly when the thread has a non-empty stack trace. */
  lemma StackTraceHeadingIff(name: string, s: LoopSnapshot)
    ensures var r := ReportParts(name, s);
            (exists i :: 0 <= i < |r| && r[i].StackTraceHeading?)
            <==> (s.core.CoreLoop? && s.core.thread.Some? && |s.core.thread.value.stackTrace| > 0)
    ensures var r := ReportParts(name, s);
            forall i :: 0 <= i < |r| && r[i].StackTraceHeading? ==>
              i + 1 == |r| - 1 && r[i + 1] == TrimmedStackTrace(s.core.thread.value.stackTrace)
  {
    var r := ReportParts(name, s);
    var pre := OpeningParts(name, s) + LifecycleParts(s);
    assert r == pre + CoreParts(s);
    assert forall i :: 0 <= i < |pre| ==> !r[i].StackTraceHeading?;
    if s.core.CoreLoop? && s.core.thread.Some? && |s.core.thread.value.stackTrace| > 0 {
      assert r[|pre| + 1].StackTraceHeading?;
    }
  }

  /*
   * The imperative renderer.
   */

  /**
   * `render`: a null loop gets one sentence; otherwise the report is built by
   * successive appends, and the only side effect is the warning for an
   * unreadable lifecycle field.
   */
  method Render(name: string, eventLoop: Option<LoopSnapshot>, trim: seq<StackFrame> -> string, log: Log)
    returns (r: string)
    modifies log
    ensures r == Report(name, eventLoop, trim)
    ensures log.warnings == old(log.warnings) + RenderWarnings(eventLoop)
    ensures log.errors == old(log.errors)
  {
    if eventLoop.None? {
      return name + " event loop is null";
    }
    var loop := eventLoop.value;
    var builder := new ReportBuilder();
    builder.Append(StateHeading(name));
    builder.Append(ToStringLine(loop.text));
    builder.Append(ClosedLine(loop.closed));
    builder.Append(ClosingLine(loop.closing));
    AddLifecycleDetails(builder, loop, log);
    AddCoreEventLoopDetails(builder, loop);
    assert builder.parts == ReportParts(name, loop);
    r := builder.ToString(trim);
  }

  /** `addCoreEventLoopDetails` */
  method AddCoreEventLoopDetails(builder: ReportBuilder, loop: LoopSnapshot)
    modifies builder
    ensures builder.parts == old(builder.parts) + CoreParts(loop)
  {
    if loop.core.CoreLoop? {
      var t := loop.core.thread;
      if t.Some? {
        builder.Append(ThreadStateLine(t.value.state));
        var stackTrace := t.value.stackTrace;
        if |stackTrace| > 0 {
          builder.Append(StackTraceHeading);
          builder.Append(TrimmedStackTrace(stackTrace));
        }
      } else {
        builder.Append(ThreadIsNull);
      }
    }
  }

  /** `addLifecycleDetails` */
  method AddLifecycleDetails(builder: ReportBuilder, loop: LoopSnapshot, log: Log)
    modifies builder, log
    ensures builder.parts == old(builder.parts) + LifecycleParts(loop)
    ensures log.warnings == old(log.warnings) + RenderWarnings(Some(loop))
    ensures log.errors == old(log.errors)
  {
    if loop.lifecycle.LifecycleLoop? {
      builder.Append(LifecycleLabel);
      match loop.lifecycle.lifecycle
      case Some(lifecycle) =>
        builder.Append(LifecycleValue(lifecycle));
      case None =>
        log.warnings := log.warnings + [LogEntry(ORIGIN, "Error getting the lifecycle for " + loop.className, None)];
    }
  }
}
