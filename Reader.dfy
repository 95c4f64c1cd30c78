/**
 * SocketReader of reader.py: the lifecycle of its reading task (start, stop,
 * set_delegate, _is_task_running) and the dispatch loop _start_reading.
 *
 * The asyncio task is modelled by what the reader asks of it: whether it is
 * done, how it ended (returned, failed with ConnectionClosedError, cancelled)
 * and its count of pending cancellation requests (Task.cancelling()).
 *
 * The loop runs over a finite script of what happens while it is suspended
 * at `await self._connection.readline()`: a line arrives, set_delegate is
 * called concurrently, the last outside reference to a delegate object is
 * dropped (its weak reference dies), the connection reports that it has
 * closed, or the task is cancelled. A script that ends without either of the
 * last two leaves the loop suspended, waiting for the next line.
 */
module Reader {

  datatype Option<T> = None | Some(value: T)

  /** The identity of a delegate object. */
  type RefId = nat

  // ------------------------------------------------------------ the task

  /** How far an asyncio.Task has got: still pending, or done in one of three ways. */
  datatype Outcome = Pending | Returned | Failed | Cancelled

  /** An asyncio.Task as the reader sees it: Task.cancelling() and its outcome. */
  datatype Task = Task(cancelling: nat, outcome: Outcome)

  /** Task.cancelled(). */
  predicate IsCancelled(t: Task) {
    t.outcome == Cancelled
  }

  /**
   * Task.cancel() followed by awaiting the task: a pending task is suspended
   * inside the loop's `with suppress(asyncio.CancelledError)`, so the request
   * is counted and the task then returns normally; cancel() on a task that is
   * already done does nothing.
   */
  function CancelAndSettle(t: Task): (r: Task)
    ensures t.outcome == Pending ==> r.outcome == Returned && r.cancelling > t.cancelling && !IsLive(r)
    ensures t.outcome != Pending ==> r == t
    ensures t.outcome == Failed && t.cancelling == 0 ==> IsLive(r)
  {
    if t.outcome == Pending then Task(t.cancelling + 1, Returned) else t
  }

  /**
   * What _is_task_running asks of a task that exists: it is neither cancelled
   * nor has a cancellation request pending.
   */
  predicate IsLive(t: Task) {
    !(IsCancelled(t) || t.cancelling > 0)
  }

  // ------------------------------------------------------------- errors

  /** The errors start and stop can raise. */
  datatype Error = ReaderAlreadyStarted | ConnectionClosed | CancelledError

  /** How an `await` on start or stop ends: it returns, it raises, or it is still waiting. */
  datatype Completion = Normal | Raise(error: Error) | StillAwaiting

  /** What awaiting a task gives once the task is done. */
  function Await(t: Task): (c: Completion)
    ensures t.outcome == Returned <==> c == Normal
    ensures t.outcome == Failed <==> c == Raise(ConnectionClosed)
    ensures t.outcome == Cancelled <==> c == Raise(CancelledError)
    ensures t.outcome == Pending <==> c == StillAwaiting
  {
    match t.outcome
    case Pending => StillAwaiting
    case Returned => Normal
    case Failed => Raise(ConnectionClosed)
    case Cancelled => Raise(CancelledError)
  }

  // ------------------------------------------------------ the loop script

  /** One thing that happens while the loop is suspended. */
  datatype Event =
    | Read(message: string)   // readline returns a line
    | Register(d: RefId)      // set_delegate(d) is called; the caller holds d
    | Drop(d: RefId)          // the last outside reference to d goes away
    | Closed                  // readline raises ConnectionClosedError
    | Cancel                  // the task is cancelled at its suspension point

  predicate IsTerminal(e: Event) {
    e.Closed? || e.Cancel?
  }

  /** One call of on_message. */
  datatype Notification = OnMessage(target: RefId, message: string)

  /** How the loop stops: still suspended, failed, or ended by a suppressed cancellation. */
  datatype End = Suspended | ClosedEnd | CancelledEnd

  /** What a run of the loop does: its notifications, the stored weak reference afterwards, and how it stops. */
  datatype LoopRun = LoopRun(calls: seq<Notification>, delegate: Option<RefId>, end: End)

  /** Dereferencing the stored weak reference: the delegate when one is set and still alive. */
  function Resolve(field: Option<RefId>, live: set<RefId>): (r: Option<RefId>)
    ensures r.Some? <==> field.Some? && field.value in live
    ensures r.Some? ==> r == field
  {
    if field.Some? && field.value in live then field else None
  }

  /**
   * The loop from some point on: `field` is the stored weak reference, `live`
   * the delegate objects still referenced elsewhere, `held` the loop's local
   * variable `delegate`, which keeps the object it names alive.
   */
  function Dispatch(field: Option<RefId>, live: set<RefId>, held: Option<RefId>, script: seq<Event>): (r: LoopRun)
    ensures |r.calls| <= |LinesRead(script)|
    decreases |script|
  {
    if script == [] then LoopRun([], field, Suspended)
    else
      match script[0]
      case Read(m) =>
        var h := if held.None? then Resolve(field, live) else held;
        var rest := Dispatch(field, live, h, script[1..]);
        rest.(calls := (if h.Some? then [OnMessage(h.value, m)] else []) + rest.calls)
      case Register(d) => Dispatch(Some(d), live + {d}, held, script[1..])
      case Drop(d) => Dispatch(field, live - {d}, held, script[1..])
      case Closed => LoopRun([], field, ClosedEnd)
      case Cancel => LoopRun([], field, CancelledEnd)
  }

  /** The whole loop: the delegate is resolved once before the first read. */
  function Run(field: Option<RefId>, live: set<RefId>, script: seq<Event>): (r: LoopRun)
    ensures |r.calls| <= |LinesRead(script)|
  {
    Dispatch(field, live, Resolve(field, live), script)
  }

  /** The lines readline returns before the loop stops. */
  function LinesRead(script: seq<Event>): (r: seq<string>)
    ensures |r| <= |script|
    decreases |script|
  {
    if script == [] || IsTerminal(script[0]) then []
    else if script[0].Read? then [script[0].message] + LinesRead(script[1..])
    else LinesRead(script[1..])
  }

  /** The messages of a sequence of notifications. */
  function Messages(calls: seq<Notification>): (r: seq<string>)
    ensures |r| == |calls| && forall i :: 0 <= i < |calls| ==> r[i] == calls[i].message
  {
    if calls == [] then [] else [calls[0].message] + Messages(calls[1..])
  }

  /** Every notification goes to d. */
  predicate AllTo(calls: seq<Notification>, d: RefId) {
    forall i :: 0 <= i < |calls| ==> calls[i].target == d
  }

  /** A script in which no set_delegate happens. */
  predicate NoRegister(script: seq<Event>) {
    forall i :: 0 <= i < |script| ==> !script[i].Register?
  }

  // -------------------------------------------------- properties of the loop

  /**
   * Once the loop holds a delegate, it passes every line read to that delegate,
   * once each and in the order read, whatever set_delegate does meanwhile.
   */
  lemma {:induction false} HeldDelegateGetsEveryLine(field: Option<RefId>, live: set<RefId>, d: RefId, script: seq<Event>)
    ensures Messages(Dispatch(field, live, Some(d), script).calls) == LinesRead(script)
    ensures AllTo(Dispatch(field, live, Some(d), script).calls, d)
    decreases |script|
  {
    if script != [] && !IsTerminal(script[0]) {
      var e := script[0];
      match e
      case Read(m) =>
        HeldDelegateGetsEveryLine(field, live, d, script[1..]);
        var rest := Dispatch(field, live, Some(d), script[1..]);
        assert Dispatch(field, live, Some(d), script).calls == [OnMessage(d, m)] + rest.calls;
        MessagesCons(OnMessage(d, m), rest.calls);
      case Register(x) =>
        HeldDelegateGetsEveryLine(Some(x), live + {x}, d, script[1..]);
      case Drop(x) =>
        HeldDelegateGetsEveryLine(field, live - {x}, d, script[1..]);
    }
  }

  lemma MessagesCons(n: Notification, calls: seq<Notification>)
    ensures Messages([n] + calls) == [n.message] + Messages(calls)
  {
    assert ([n] + calls)[1..] == calls;
  }

  /**
   * Whatever happens, what the loop passes on is the lines read from some
   * point on: the lines read before a delegate could be resolved are dropped,
   * and no line is dropped after that.
   */
  lemma {:induction false} NotificationsAreSuffixOfLines(field: Option<RefId>, live: set<RefId>, held: Option<RefId>, script: seq<Event>)
    ensures exists k ::
      0 <= k <= |LinesRead(script)| && Messages(Dispatch(field, live, held, script).calls) == LinesRead(script)[k..]
    decreases |script|, 1
  {
    var calls := Dispatch(field, live, held, script).calls;
    var lines := LinesRead(script);
    if held.Some? {
      HeldDelegateGetsEveryLine(field, live, held.value, script);
      assert Messages(calls) == lines[0..];
    } else if script == [] || IsTerminal(script[0]) {
      assert Messages(calls) == lines[0..];
    } else {
      match script[0]
      case Read(m) =>
        SuffixAfterRead(field, live, script);
      case Register(x) =>
        NotificationsAreSuffixOfLines(Some(x), live + {x}, held, script[1..]);
      case Drop(x) =>
        NotificationsAreSuffixOfLines(field, live - {x}, held, script[1..]);
    }
  }

  /** The read step of NotificationsAreSuffixOfLines, with no delegate held yet. */
  lemma {:induction false} SuffixAfterRead(field: Option<RefId>, live: set<RefId>, script: seq<Event>)
    requires script != [] && script[0].Read?
    ensures exists k ::
      0 <= k <= |LinesRead(script)| && Messages(Dispatch(field, live, None, script).calls) == LinesRead(script)[k..]
    decreases |script|, 0
  {
    var m := script[0].message;
    var h := Resolve(field, live);
    var calls := Dispatch(field, live, None, script).calls;
    var rest := Dispatch(field, live, h, script[1..]).calls;
    var lines := LinesRead(script);
    var tail := LinesRead(script[1..]);
    assert lines == [m] + tail;
    if h.Some? {
      assert Messages(calls) == lines[0..] by {
        assert calls == [OnMessage(h.value, m)] + rest;
        HeldDelegateGetsEveryLine(field, live, h.value, script[1..]);
        MessagesCons(OnMessage(h.value, m), rest);
      }
    } else {
      assert calls == rest;
      NotificationsAreSuffixOfLines(field, live, None, script[1..]);
      var k :| 0 <= k <= |tail| && Messages(rest) == tail[k..];
      assert tail[k..] == lines[k + 1..];
    }
  }

  /** Whatever happens, the loop notifies one delegate at most. */
  lemma {:induction false} NotificationsHaveOneTarget(field: Option<RefId>, live: set<RefId>, held: Option<RefId>, script: seq<Event>)
    ensures Dispatch(field, live, held, script).calls != [] ==>
      AllTo(Dispatch(field, live, held, script).calls, Dispatch(field, live, held, script).calls[0].target)
    decreases |script|
  {
    if held.Some? {
      HeldDelegateGetsEveryLine(field, live, held.value, script);
    } else if script != [] && !IsTerminal(script[0]) {
      match script[0]
      case Read(m) =>
        var h := Resolve(field, live);
        if h.Some? {
          HeldDelegateGetsEveryLine(field, live, h.value, script[1..]);
        } else {
          NotificationsHaveOneTarget(field, live, h, script[1..]);
        }
      case Register(x) =>
        NotificationsHaveOneTarget(Some(x), live + {x}, held, script[1..]);
      case Drop(x) =>
        NotificationsHaveOneTarget(field, live - {x}, held, script[1..]);
    }
  }

  /** A delegate set while the loop holds none receives the very next line. */
  lemma LateDelegateGetsNextLine(field: Option<RefId>, live: set<RefId>, d: RefId, m: string, rest: seq<Event>)
    ensures Dispatch(field, live, None, [Register(d), Read(m)] + rest).calls
      == [OnMessage(d, m)] + Dispatch(Some(d), live + {d}, Some(d), rest).calls
  {
    var s := [Register(d), Read(m)] + rest;
    assert s[1..] == [Read(m)] + rest;
    assert ([Read(m)] + rest)[1..] == rest;
  }

  /** Without a live delegate and without set_delegate, every line read is dropped. */
  lemma {:induction false} AbsentDelegateDropsLines(field: Option<RefId>, live: set<RefId>, script: seq<Event>)
    requires Resolve(field, live).None? && NoRegister(script)
    ensures Dispatch(field, live, None, script).calls == []
    decreases |script|
  {
    if script != [] && !IsTerminal(script[0]) {
      assert !script[0].Register?;
      assert NoRegister(script[1..]) by {
        forall i | 0 <= i < |script[1..]| ensures !script[1..][i].Register? {
          assert script[1..][i] == script[i + 1];
        }
      }
      match script[0]
      case Read(m) => AbsentDelegateDropsLines(field, live, script[1..]);
      case Drop(x) => AbsentDelegateDropsLines(field, live - {x}, script[1..]);
    }
  }

  /** A closed connection or a cancellation ends the loop: nothing after it is seen. */
  lemma {:induction false} TerminalEndsLoop(field: Option<RefId>, live: set<RefId>, held: Option<RefId>,
                                            before: seq<Event>, e: Event, after: seq<Event>)
    requires IsTerminal(e) && forall i :: 0 <= i < |before| ==> !IsTerminal(before[i])
    ensures Dispatch(field, live, held, before + [e] + after) == Dispatch(field, live, held, before + [e])
    ensures Dispatch(field, live, held, before + [e]).end == (if e.Closed? then ClosedEnd else CancelledEnd)
    ensures LinesRead(before + [e] + after) == LinesRead(before)
    decreases |before|
  {
    var s, t := before + [e] + after, before + [e];
    if before == [] {
      assert s[0] == e && t[0] == e;
    } else {
      assert s[0] == before[0] && t[0] == before[0];
      assert s[1..] == before[1..] + [e] + after && t[1..] == before[1..] + [e];
      var h := if held.None? then Resolve(field, live) else held;
      match before[0]
      case Read(m) => TerminalEndsLoop(field, live, h, before[1..], e, after);
      case Register(x) => TerminalEndsLoop(Some(x), live + {x}, held, before[1..], e, after);
      case Drop(x) => TerminalEndsLoop(field, live - {x}, held, before[1..], e, after);
    }
  }

  // ------------------------------------------------------------ the reader

  /** The task state once the loop has stopped as `end` says. */
  function Settled(end: End): (t: Task)
    ensures end == Suspended <==> t.outcome == Pending
  {
    match end
    case Suspended => Task(0, Pending)
    case ClosedEnd => Task(0, Failed)
    case CancelledEnd => Task(1, Returned)
  }

  /**
   * However the loop stops, awaiting its task never surfaces CancelledError:
   * start returns exactly when the loop was cancelled, raises
   * ConnectionClosedError exactly when the connection closed, and is still
   * waiting exactly while the loop is suspended.
   */
  lemma StartCompletionFollowsLoop(e: End)
    ensures Await(Settled(e)) != Raise(CancelledError)
    ensures Await(Settled(e)) == Normal <==> e == CancelledEnd
    ensures Await(Settled(e)) == Raise(ConnectionClosed) <==> e == ClosedEnd
    ensures Await(Settled(e)) == StillAwaiting <==> e == Suspended
  {
  }

  /** Dereferencing never yields a delegate that is not stored or no longer alive. */
  lemma ResolveNeverInvents(field: Option<RefId>, live: set<RefId>, d: RefId)
    requires d !in live || field != Some(d)
    ensures Resolve(field, live) != Some(d)
  {
  }

  /** Reads lines from a connection and passes them to its delegate. */
  class SocketReader {
    var isReading: bool
    var task: Option<Task>
    var delegate: Option<RefId>
    /** The on_message calls made so far, in order. */
    var notifications: seq<Notification>

    constructor ()
      ensures !isReading && task == None && delegate == None && notifications == []
    {
      isReading := false;
      task := None;
      delegate := None;
      notifications := [];
    }

    /** _is_task_running: there is a task, not cancelled and without a pending cancellation request. */
    predicate IsTaskRunning()
      reads this
      ensures task == None ==> !IsTaskRunning()
      ensures task.Some? ==> (IsTaskRunning() <==> IsLive(task.value))
    {
      task.Some? && IsLive(task.value)
    }

    /** set_delegate: stores a (weak) reference to d and changes nothing else. */
    method SetDelegate(d: RefId)
      modifies this
      ensures delegate == Some(d)
      ensures isReading == old(isReading) && task == old(task) && notifications == old(notifications)
    {
      delegate := Some(d);
    }

    /**
     * start: refused while the task is running; otherwise marks the reader as
     * reading, installs a fresh task and awaits it.
     */
    method Start(script: seq<Event>, live: set<RefId>) returns (r: Completion)
      modifies this
      ensures old(IsTaskRunning()) ==>
        r == Raise(ReaderAlreadyStarted)
        && isReading == old(isReading) && task == old(task)
        && delegate == old(delegate) && notifications == old(notifications)
      ensures !old(IsTaskRunning()) ==>
        var run := Run(old(delegate), live, script);
        isReading && task == Some(Settled(run.end)) && r == Await(Settled(run.end))
        && delegate == run.delegate && notifications == old(notifications) + run.calls
    {
      if IsTaskRunning() {
        return Raise(ReaderAlreadyStarted);
      }
      isReading := true;
      task := Some(Task(0, Pending));
      var end := StartReading(script, live);
      task := Some(Settled(end));
      r := Await(task.value);
    }

    /**
     * stop: with no task, nothing happens; otherwise marks the reader as not
     * reading, cancels the task and awaits it, keeping the task.
     */
    method Stop() returns (r: Completion)
      modifies this
      ensures old(task) == None ==>
        r == Normal && isReading == old(isReading) && task == None
      ensures old(task).Some? ==>
        !isReading && task == Some(CancelAndSettle(old(task).value)) && r == Await(task.value)
      ensures delegate == old(delegate) && notifications == old(notifications)
    {
      if task.Some? {
        isReading := false;
        task := Some(CancelAndSettle(task.value));
        r := Await(task.value);
      } else {
        r := Normal;
      }
    }

    /** _start_reading: the loop, up to the point where it stops or waits for the next line. */
    method StartReading(script: seq<Event>, live: set<RefId>) returns (end: End)
      modifies this
      ensures end == Run(old(delegate), live, script).end
      ensures delegate == Run(old(delegate), live, script).delegate
      ensures notifications == old(notifications) + Run(old(delegate), live, script).calls
      ensures isReading == old(isReading) && task == old(task)
    {
      var alive := live;
      var held := Resolve(delegate, alive);
      ghost var sent: seq<Notification> := [];
      var i := 0;
      end := Suspended;
      while i < |script|
        invariant 0 <= i <= |script|
        invariant isReading == old(isReading) && task == old(task)
        invariant notifications == old(notifications) + sent
        invariant Run(old(delegate), live, script) == Continued(sent, Dispatch(delegate, alive, held, script[i..]))
      {
        assert script[i..][0] == script[i] && script[i..][1..] == script[i + 1..];
        match script[i] {
          case Read(m) =>
            ghost var before := held;
            if held.None? {
              held := Resolve(delegate, alive);
            }
            ReadStep(sent, delegate, alive, before, held, m, script[i..]);
            if held.Some? {
              notifications := notifications + [OnMessage(held.value, m)];
              sent := sent + [OnMessage(held.value, m)];
            } else {
              assert sent + [] == sent;
            }
          case Register(d) =>
            RegisterStep(delegate, alive, held, d, script[i..]);
            delegate := Some(d);
            alive := alive + {d};
          case Drop(d) =>
            DropStep(delegate, alive, held, d, script[i..]);
            alive := alive - {d};
          case Closed =>
            return ClosedEnd;
          case Cancel =>
            return CancelledEnd;
        }
        i := i + 1;
      }
    }
  }

  /** A run whose first notifications have already been made. */
  function Continued(sent: seq<Notification>, run: LoopRun): LoopRun {
    run.(calls := sent + run.calls)
  }

  /** One read of the loop: resolve the delegate if none is held, then notify it. */
  lemma ReadStep(sent: seq<Notification>, field: Option<RefId>, live: set<RefId>, held: Option<RefId>,
                 h: Option<RefId>, m: string, script: seq<Event>)
    requires script != [] && script[0] == Read(m)
    requires h == if held.None? then Resolve(field, live) else held
    ensures Continued(sent, Dispatch(field, live, held, script))
      == Continued(sent + (if h.Some? then [OnMessage(h.value, m)] else []), Dispatch(field, live, h, script[1..]))
  {
    var rest := Dispatch(field, live, h, script[1..]);
    var run := Dispatch(field, live, held, script);
    assert run.delegate == rest.delegate && run.end == rest.end;
    if h.Some? {
      var note := [OnMessage(h.value, m)];
      assert run.calls == note + rest.calls;
      assert sent + (note + rest.calls) == (sent + note) + rest.calls;
    } else {
      assert run.calls == rest.calls;
      assert sent + [] == sent;
    }
  }

  /** A set_delegate while the loop waits replaces the stored reference and keeps the delegate alive. */
  lemma RegisterStep(field: Option<RefId>, live: set<RefId>, held: Option<RefId>, d: RefId, script: seq<Event>)
    requires script != [] && script[0] == Register(d)
    ensures Dispatch(field, live, held, script) == Dispatch(Some(d), live + {d}, held, script[1..])
  {
  }

  /** The last outside reference to a delegate goes away while the loop waits. */
  lemma DropStep(field: Option<RefId>, live: set<RefId>, held: Option<RefId>, d: RefId, script: seq<Event>)
    requires script != [] && script[0] == Drop(d)
    ensures Dispatch(field, live, held, script) == Dispatch(field, live - {d}, held, script[1..])
  {
  }

  // ------------------------------------------------------------ scenarios

  /** A script in which readline returns the given lines, one after another. */
  function Reads(lines: seq<string>): (script: seq<Event>)
    ensures |script| == |lines|
  {
    seq(|lines|, i requires 0 <= i < |lines| => Read(lines[i]))
  }

  lemma {:induction false} LinesReadOfReads(lines: seq<string>)
    ensures LinesRead(Reads(lines)) == lines
    ensures forall i :: 0 <= i < |Reads(lines)| ==> !IsTerminal(Reads(lines)[i])
    decreases |lines|
  {
    if lines != [] {
      LinesReadOfReads(lines[1..]);
      assert Reads(lines)[1..] == Reads(lines[1..]);
    }
  }

  /**
   * With a delegate set, start passes every line read to it, in order, until
   * the task is cancelled; start then returns normally, the reader still
   * counts as reading, and the task is no longer running.
   */
  method DelegateGetsLinesUntilCancelled(d: RefId, lines: seq<string>)
    returns (r: Completion, calls: seq<Notification>, reading: bool, running: bool)
    ensures r == Normal && Messages(calls) == lines && AllTo(calls, d)
    ensures reading && !running
  {
    var reader := new SocketReader();
    reader.SetDelegate(d);
    var script := Reads(lines) + [Cancel];
    ReadsThenCancel(d, lines);
    r := reader.Start(script, {d});
    calls := reader.notifications;
    reading := reader.isReading;
    running := reader.IsTaskRunning();
  }

  /** Reading the given lines with a live delegate and then being cancelled passes every line to it. */
  lemma ReadsThenCancel(d: RefId, lines: seq<string>)
    ensures Run(Some(d), {d}, Reads(lines) + [Cancel]).end == CancelledEnd
    ensures Messages(Run(Some(d), {d}, Reads(lines) + [Cancel]).calls) == lines
    ensures AllTo(Run(Some(d), {d}, Reads(lines) + [Cancel]).calls, d)
  {
    var script := Reads(lines) + [Cancel];
    assert Resolve(Some(d), {d}) == Some(d);
    LinesReadOfReads(lines);
    TerminalEndsLoop(Some(d), {d}, Some(d), Reads(lines), Cancel, []);
    assert Reads(lines) + [Cancel] + [] == script;
    HeldDelegateGetsEveryLine(Some(d), {d}, d, script);
  }

  /** Reading the given lines with a live delegate until the connection closes passes every line to it. */
  lemma ReadsThenClosed(d: RefId, lines: seq<string>)
    ensures Run(Some(d), {d}, Reads(lines) + [Closed]).end == ClosedEnd
    ensures Messages(Run(Some(d), {d}, Reads(lines) + [Closed]).calls) == lines
    ensures AllTo(Run(Some(d), {d}, Reads(lines) + [Closed]).calls, d)
  {
    var script := Reads(lines) + [Closed];
    assert Resolve(Some(d), {d}) == Some(d);
    LinesReadOfReads(lines);
    TerminalEndsLoop(Some(d), {d}, Some(d), Reads(lines), Closed, []);
    assert Reads(lines) + [Closed] + [] == script;
    HeldDelegateGetsEveryLine(Some(d), {d}, d, script);
  }

  /**
   * With a delegate set, the lines read before the connection closes are passed
   * to it and start then fails with ConnectionClosedError. The reader is left
   * reading, with a task that still counts as running: a new start is refused,
   * stop fails with ConnectionClosedError again, and start stays refused after it.
   */
  method ClosedConnectionKeepsReader(d: RefId, lines: seq<string>, later: seq<Event>, live: set<RefId>)
    returns (first: Completion, calls: seq<Notification>, readingAfterClose: bool,
             second: Completion, stopped: Completion, readingAfterStop: bool,
             stoppedAgain: Completion, third: Completion)
    ensures first == Raise(ConnectionClosed) && Messages(calls) == lines && AllTo(calls, d)
    ensures readingAfterClose
    ensures second == Raise(ReaderAlreadyStarted)
    ensures stopped == Raise(ConnectionClosed) && !readingAfterStop
    ensures stoppedAgain == Raise(ConnectionClosed)
    ensures third == Raise(ReaderAlreadyStarted)
  {
    var reader := new SocketReader();
    reader.SetDelegate(d);
    var script := Reads(lines) + [Closed];
    ReadsThenClosed(d, lines);
    first := reader.Start(script, {d});
    assert reader.task == Some(Task(0, Failed));
    calls := reader.notifications;
    readingAfterClose := reader.isReading;
    second := reader.Start(later, live);
    assert reader.task == Some(Task(0, Failed));
    stopped := reader.Stop();
    assert reader.task == Some(Task(0, Failed));
    readingAfterStop := reader.isReading;
    stoppedAgain := reader.Stop();
    assert reader.task == Some(Task(0, Failed));
    third := reader.Start(later, live);
  }

  /**
   * While the loop waits for its next line a second start is refused; stop
   * cancels the task, which then returns normally, and start is accepted again.
   */
  method StopAllowsRestart(lines: seq<string>, later: seq<Event>, live: set<RefId>)
    returns (first: Completion, readingWhileWaiting: bool, second: Completion, stopped: Completion,
             readingAfterStop: bool, third: Completion, reading: bool)
    ensures first == StillAwaiting && readingWhileWaiting
    ensures second == Raise(ReaderAlreadyStarted)
    ensures stopped == Normal && !readingAfterStop
    ensures third == Await(Settled(Run(None, live, later).end)) && reading
  {
    var reader := new SocketReader();
    assert Run(None, live, Reads(lines)).end == Suspended && Run(None, live, Reads(lines)).delegate == None by {
      assert Resolve(None, live) == None;
      ReadsSuspend(None, live, None, lines);
    }
    first := reader.Start(Reads(lines), live);
    assert reader.delegate == None && reader.task == Some(Task(0, Pending));
    readingWhileWaiting := reader.isReading;
    second := reader.Start(later, live);
    stopped := reader.Stop();
    assert reader.task == Some(Task(1, Returned)) && reader.delegate == None;
    readingAfterStop := reader.isReading;
    third := reader.Start(later, live);
    reading := reader.isReading;
  }

  /** A script of reads alone leaves the loop waiting for the next line. */
  lemma {:induction false} ReadsSuspend(field: Option<RefId>, live: set<RefId>, held: Option<RefId>, lines: seq<string>)
    ensures Dispatch(field, live, held, Reads(lines)).end == Suspended
    ensures Dispatch(field, live, held, Reads(lines)).delegate == field
    decreases |lines|
  {
    if lines != [] {
      assert Reads(lines)[1..] == Reads(lines[1..]);
      var h := if held.None? then Resolve(field, live) else held;
      ReadsSuspend(field, live, h, lines[1..]);
    }
  }
}
