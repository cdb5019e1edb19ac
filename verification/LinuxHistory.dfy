/**
 * What has happened to a Linux server and its kernel so far, as a run of the system model. The
 * byte-level loops extend such a history, so that everything proved about runs holds for them.
 */
module LinuxHistory {
  import opened Prelude
  import opened InotifyKernel
  import opened InotifyRecords
  import opened LinuxRegistry
  import opened LinuxSystem

  // ----- What goes on beside the run loop thread -----

  /** Watch descriptors are positive and fit an `int`. */
  const MAX_DESCRIPTOR := 0x7fff_ffff

  /**
   * A step that another thread or the kernel can take. While the run loop holds `mutationMutex`
   * no path can be registered or unregistered; stopWatchingMovedPaths does not ask for the lock.
   */
  predicate Possible(y: System, step: Step, locked: bool) {
    match step
    case RegisterStep(_, _, add) => !locked && Enabled(y, step) && (add.Fresh? ==> y.kernel.next < MAX_DESCRIPTOR)
    case UnregisterStep(_) => !locked
    case EmitStep(event) => Enabled(y, step) && EventOk(event)
    case RemoveStep(_) => Enabled(y, step)
    case HandleStep => false
    case TerminateStep => false
    case _ => true
  }

  /** The step is taken if it is possible, and does not happen otherwise. */
  function After(y: System, step: Step, locked: bool): System {
    if Possible(y, step, locked) then Next(y, step) else y
  }

  /** The steps one after the other, each if it is possible then. */
  function AfterAll(y: System, steps: seq<Step>, locked: bool): System
    decreases |steps|
  {
    if steps == [] then y else AfterAll(After(y, steps[0], locked), steps[1..], locked)
  }

  // ----- Events that have been read and not handled yet -----

  /** The system with the events in the read buffer put back in front of the kernel's queue. */
  function WithUnread(y: System, unread: seq<Event>): System {
    y.(kernel := y.kernel.(queue := unread + y.kernel.queue))
  }

  lemma UnreadStep(y: System, unread: seq<Event>, step: Step, locked: bool)
    requires Possible(y, step, locked)
    ensures Enabled(WithUnread(y, unread), step)
    ensures Next(WithUnread(y, unread), step) == WithUnread(Next(y, step), unread)
  {
    var q := y.kernel.queue;
    var r := Next(y, step).kernel.queue;
    if |r| > |q| {
      assert unread + (q + [r[|q|]]) == (unread + q) + [r[|q|]];
    }
  }

  lemma UnreadHandle(y: System, e: Event, rest: seq<Event>)
    ensures var z := WithUnread(y, [e] + rest);
      && Enabled(z, HandleStep) && z.kernel.queue[0] == e
      && Next(z, HandleStep) == WithUnread(System(Handle(y.server, e), y.kernel), rest)
  {
    assert (([e] + rest) + y.kernel.queue)[1..] == rest + y.kernel.queue;
  }

  lemma UnreadRead(y: System, z: System, read: seq<Event>)
    requires z.server == y.server && y.kernel == z.kernel.(queue := y.kernel.queue) && y.kernel.queue == read + z.kernel.queue
    ensures WithUnread(z, read) == WithUnread(y, [])
  {
    assert [] + y.kernel.queue == y.kernel.queue;
  }

  /** The queued events can be laid out as bytes. */
  ghost predicate Encodable(y: System) {
    y.kernel.next <= MAX_DESCRIPTOR && EventsOk(y.kernel.queue)
  }

  lemma StepKeepsEncodable(y: System, step: Step)
    requires Conserved(y) && Encodable(y) && Enabled(y, step)
    requires step.EmitStep? ==> EventOk(step.event)
    requires step.RegisterStep? && step.add.Fresh? ==> y.kernel.next < MAX_DESCRIPTOR
    ensures Encodable(Next(y, step))
  {
    hide Conserved;
    forall wd ensures wd in y.kernel.live ==> 0 < wd < MAX_DESCRIPTOR {
      LiveBelowNext(y, wd);
    }
  }

  lemma LiveBelowNext(y: System, wd: int)
    requires Conserved(y)
    ensures wd in y.kernel.live ==> 0 < wd < y.kernel.next
  {}

  // ----- Histories -----

  function Flat(out: seq<seq<Report>>): seq<Report> {
    if out == [] then [] else Flat(out[..|out| - 1]) + out[|out| - 1]
  }

  function CallsFor(rs: seq<Report>): (calls: seq<Callback>)
    ensures |calls| == |rs| && forall i :: 0 <= i < |rs| ==> calls[i] == ReportCall(rs[i])
  {
    seq(|rs|, i requires 0 <= i < |rs| => ReportCall(rs[i]))
  }

  /** The reports among the calls. */
  function ReportsIn(calls: seq<Callback>): seq<Report> {
    if calls == [] then []
    else
      var last := calls[|calls| - 1];
      ReportsIn(calls[..|calls| - 1]) + if last.ReportCall? then [last.report] else []
  }

  lemma {:induction false} ReportsInCalls(calls: seq<Callback>, rs: seq<Report>)
    ensures ReportsIn(calls + CallsFor(rs)) == ReportsIn(calls) + rs
    decreases |rs|
  {
    if rs == [] {
      assert calls + CallsFor(rs) == calls;
    } else {
      var fewer := rs[..|rs| - 1];
      ReportsInCalls(calls, fewer);
      assert (calls + CallsFor(rs))[..|calls| + |rs| - 1] == calls + CallsFor(fewer);
      assert rs == fewer + [rs[|rs| - 1]];
    }
  }

  lemma FlatOneMore(out: seq<seq<Report>>, rs: seq<Report>)
    ensures Flat(out + [rs]) == Flat(out) + rs
  {
    assert (out + [rs])[..|out|] == out;
  }

  /**
   * A run from the start of the server; `at` lists the steps that handled an event, `done` the
   * events they handled and `out` what each of them reported. `calls` lists all calls of the Java
   * callback: those reports, and the failures of the drain loop.
   */
  datatype History = History(ys: seq<System>, steps: seq<Step>, at: seq<nat>, done: seq<Event>, out: seq<seq<Report>>,
                             calls: seq<Callback>)

  const NEW_HISTORY := History([INITIAL_SYSTEM], [], [], [], [], [])

  ghost predicate HandledAt(h: History, k: nat)
    requires |h.ys| == |h.steps| + 1 && k < |h.at| == |h.done| == |h.out|
  {
    && h.at[k] < |h.steps| && h.steps[h.at[k]] == HandleStep
    && h.ys[h.at[k]].kernel.queue != [] && h.ys[h.at[k]].kernel.queue[0] == h.done[k]
    && Reports(h.ys[h.at[k]].server, h.done[k], h.out[k])
  }

  ghost predicate HistoryOk(h: History) {
    && |h.ys| == |h.steps| + 1 && IsRun(h.ys, h.steps)
    && |h.at| == |h.done| == |h.out|
    && (forall k :: 0 <= k < |h.at| ==> HandledAt(h, k))
    && (forall j, k :: 0 <= j < k < |h.at| ==> h.at[j] < h.at[k])
    && (forall i :: 0 <= i < |h.steps| && h.steps[i] == HandleStep ==> i in h.at)
    && Encodable(h.ys[|h.steps|])
    && ReportsIn(h.calls) == Flat(h.out)
  }

  /** How many of the calls reported a failure. */
  function Failures(h: History): int { |h.calls| - |Flat(h.out)| }

  function Now(h: History): System
    requires h.ys != []
  {
    h.ys[|h.ys| - 1]
  }

  /** The history leads to `y`, with `unread` in the read buffer. */
  ghost predicate LeadsTo(h: History, y: System, unread: seq<Event>) {
    HistoryOk(h) && h.ys != [] && Now(h) == WithUnread(y, unread)
  }

  ghost predicate Extends(g: History, h: History) {
    g.ys <= h.ys && g.steps <= h.steps && g.at <= h.at && g.done <= h.done && g.out <= h.out && g.calls <= h.calls
  }

  lemma ExtendsTransitive(f: History, g: History, h: History)
    requires Extends(f, g) && Extends(g, h)
    ensures Extends(f, h)
  {}

  function Stepped(h: History, y: System, step: Step): History {
    h.(ys := h.ys + [y], steps := h.steps + [step])
  }

  function HandledOne(h: History, y: System, e: Event, reported: seq<Report>): History {
    History(h.ys + [y], h.steps + [HandleStep], h.at + [|h.steps|], h.done + [e], h.out + [reported],
            h.calls + CallsFor(reported))
  }

  function FailedOnce(h: History): History { h.(calls := h.calls + [FailureCall]) }

  lemma FailureReported(h: History, y: System, unread: seq<Event>)
    requires LeadsTo(h, y, unread)
    ensures LeadsTo(FailedOnce(h), y, unread) && Extends(h, FailedOnce(h)) && Failures(FailedOnce(h)) == Failures(h) + 1
  {
    hide IsRun, Encodable, Reports;
    var g := FailedOnce(h);
    assert g.calls[..|h.calls|] == h.calls;
    forall k | 0 <= k < |g.at| ensures HandledAt(g, k) {
      assert HandledAt(h, k);
    }
  }

  lemma HistoryShape(h: History)
    requires HistoryOk(h)
    ensures |h.ys| == |h.steps| + 1 && |h.at| == |h.done| == |h.out|
    ensures forall k :: 0 <= k < |h.at| ==> h.at[k] < |h.steps|
  {
    hide IsRun, Reports, Encodable;
    forall k | 0 <= k < |h.at| ensures h.at[k] < |h.steps| {
      assert HandledAt(h, k);
    }
  }

  lemma NewHistoryOk()
    ensures LeadsTo(NEW_HISTORY, INITIAL_SYSTEM, [])
  {}

  /** In every history the conservation invariant holds, with the unread events counted as queued. */
  lemma HistoryConserves(h: History)
    requires HistoryOk(h)
    ensures h.ys != [] && Conserved(Now(h)) && Encodable(Now(h))
  {
    RunConserves(h.ys, h.steps, |h.steps|);
  }

  /** Any step but the handling of an event. */
  lemma StepTaken(h: History, step: Step)
    requires HistoryOk(h) && h.ys != []
    requires Enabled(Now(h), step) && step != HandleStep && Encodable(Next(Now(h), step))
    ensures HistoryOk(Stepped(h, Next(Now(h), step), step)) && Extends(h, Stepped(h, Next(Now(h), step), step))
  {
    hide Enabled, Next, Encodable, Reports;
    var g := Stepped(h, Next(Now(h), step), step);
    forall k | 0 <= k < |g.at| ensures HandledAt(g, k) {
      assert HandledAt(h, k);
    }
  }

  lemma ActTaken(h: History, y: System, unread: seq<Event>, step: Step, locked: bool)
    requires LeadsTo(h, y, unread) && Possible(y, step, locked)
    ensures Enabled(y, step)
    ensures var g := Stepped(h, WithUnread(Next(y, step), unread), step);
      LeadsTo(g, Next(y, step), unread) && Extends(h, g)
  {
    hide HistoryOk, Conserved, Next, Encodable;
    HistoryConserves(h);
    UnreadStep(y, unread, step, locked);
    StepKeepsEncodable(Now(h), step);
    StepTaken(h, step);
  }

  lemma TerminateTaken(h: History, y: System)
    requires LeadsTo(h, y, [])
    ensures var z := y.(server := y.server.(terminating := true));
      var g := Stepped(h, z, TerminateStep);
      LeadsTo(g, z, []) && Extends(h, g)
  {
    var z := y.(server := y.server.(terminating := true));
    assert WithUnread(y, []) == y && WithUnread(z, []) == z && Next(y, TerminateStep) == z;
    assert Encodable(Now(h)) && Enabled(Now(h), TerminateStep);
    StepTaken(h, TerminateStep);
  }

  lemma EventHandled(h: History, y: System, e: Event, rest: seq<Event>, reported: seq<Report>)
    requires LeadsTo(h, y, [e] + rest) && Reports(y.server, e, reported)
    ensures var z := System(Handle(y.server, e), y.kernel);
      var g := HandledOne(h, WithUnread(z, rest), e, reported);
      LeadsTo(g, z, rest) && Extends(h, g) && g.done == h.done + [e] && Failures(g) == Failures(h)
  {
    hide Next, Handle, Reports, Conserved, Flat, ReportsIn;
    FlatOneMore(h.out, reported);
    ReportsInCalls(h.calls, reported);
    HistoryShape(h);
    UnreadHandle(y, e, rest);
    HistoryConserves(h);
    StepKeepsEncodable(Now(h), HandleStep);
    var g := HandledOne(h, WithUnread(System(Handle(y.server, e), y.kernel), rest), e, reported);
    forall k | 0 <= k < |g.at| ensures HandledAt(g, k) {
      assert k < |h.at| ==> HandledAt(h, k);
    }
    assert g.at[|h.at|] == |h.steps|;
    assert forall i :: 0 <= i < |h.steps| && h.steps[i] == HandleStep ==> i in h.at;
  }

  /** Histories do contain reports: a path is registered, something is created below it, and that is reported. */
  lemma SomethingIsReported() returns (h: History)
    ensures HistoryOk(h) && h.out == [[Change(CREATED, "/a/x")]] && h.calls == [ReportCall(Change(CREATED, "/a/x"))]
  {
    hide HistoryOk, Next, Reports;
    var e := Event(1, IN_CREATE, 0, [120]);
    var register := RegisterStep("/a", Some(7), Fresh);
    var y1, y2, z := ExampleStates(e, register);
    NewHistoryOk();
    ActTaken(NEW_HISTORY, INITIAL_SYSTEM, [], register, false);
    h := Stepped(NEW_HISTORY, WithUnread(y1, []), register);
    ActTaken(h, y1, [], EmitStep(e), true);
    h := Stepped(h, WithUnread(y2, []), EmitStep(e));
    EventHandled(h, z, e, [], [Change(CREATED, "/a/x")]);
    h := HandledOne(h, WithUnread(System(Handle(z.server, e), z.kernel), []), e, [Change(CREATED, "/a/x")]);
  }

  lemma ExampleStates(e: Event, register: Step) returns (y1: System, y2: System, z: System)
    requires e == Event(1, IN_CREATE, 0, [120]) && register == RegisterStep("/a", Some(7), Fresh)
    ensures Possible(INITIAL_SYSTEM, register, false) && y1 == Next(INITIAL_SYSTEM, register)
    ensures Possible(y1, EmitStep(e), true) && y2 == Next(y1, EmitStep(e))
    ensures WithUnread(y2, []) == WithUnread(z, [e] + [])
    ensures Reports(z.server, e, [Change(CREATED, "/a/x")])
  {
    y1 := Next(INITIAL_SYSTEM, register);
    assert y1.kernel == Kernel(2, {1}, [], false, {});
    y2 := Next(y1, EmitStep(e));
    z := y2.(kernel := y2.kernel.(queue := []));
    assert [e] + [] == [e];
    UnreadRead(y2, z, [e]);
    assert Widen(e.name) == "x" && "/a" + "/" + "x" == "/a/x";
    assert Reportable(z.server, e) && z.server.roots[1] == "/a";
  }

  // ----- First in, first out -----

  /** The events that a step from `y` to `z` puts into the queue. */
  ghost function Arriving(y: System, step: Step, z: System): seq<Event> {
    var q, r := y.kernel.queue, z.kernel.queue;
    if step == HandleStep || |r| < |q| then [] else r[|q|..]
  }

  /** Everything that the first `n` steps have put into the queue. */
  ghost function Arrived(h: History, n: nat): seq<Event>
    requires n <= |h.steps| < |h.ys|
  {
    if n == 0 then [] else Arrived(h, n - 1) + Arriving(h.ys[n - 1], h.steps[n - 1], h.ys[n])
  }

  lemma StepQueue(h: History, i: nat)
    requires HistoryOk(h) && i < |h.steps|
    ensures |h.ys| == |h.steps| + 1 && h.ys[0].kernel.queue == []
    ensures var y, z := h.ys[i], h.ys[i + 1];
      if h.steps[i] == HandleStep then y.kernel.queue != [] && z.kernel.queue == y.kernel.queue[1..]
      else z.kernel.queue == y.kernel.queue + Arriving(y, h.steps[i], z)
  {
    hide Reports, Encodable;
    assert Enabled(h.ys[i], h.steps[i]) && h.ys[i + 1] == Next(h.ys[i], h.steps[i]);
  }

  /** `k` events had been handled before step `n`. */
  ghost predicate CountsHandled(h: History, n: nat, k: nat) {
    && n <= |h.steps| && k <= |h.at|
    && (forall j :: 0 <= j < k ==> h.at[j] < n)
    && (forall j :: k <= j < |h.at| ==> h.at[j] >= n)
  }

  lemma CountOneLess(h: History, n: nat, k: nat)
    requires HistoryOk(h) && CountsHandled(h, n, k) && n > 0
    ensures h.steps[n - 1] != HandleStep ==> CountsHandled(h, n - 1, k)
    ensures h.steps[n - 1] == HandleStep ==> k > 0 && CountsHandled(h, n - 1, k - 1) && |h.done| == |h.at|
    ensures h.steps[n - 1] == HandleStep ==>
      |h.ys| > n && h.ys[n - 1].kernel.queue != [] && h.done[k - 1] == h.ys[n - 1].kernel.queue[0]
  {
    hide IsRun, Reports, Encodable;
    if h.steps[n - 1] == HandleStep {
      assert n - 1 in h.at;
      var j :| 0 <= j < |h.at| && h.at[j] == n - 1;
      assert HandledAt(h, j) && j < k;
      assert forall i :: 0 <= i < k - 1 ==> h.at[i] < h.at[k - 1];
    } else {
      forall j | 0 <= j < k ensures h.at[j] < n - 1 {
        assert HandledAt(h, j);
      }
    }
  }

  lemma {:induction false} HandledInOrder(h: History, n: nat, k: nat)
    requires HistoryOk(h) && CountsHandled(h, n, k)
    ensures |h.steps| < |h.ys| && k <= |h.done|
    ensures Arrived(h, n) == h.done[..k] + h.ys[n].kernel.queue
    decreases n
  {
    if n == 0 {
      assert h.ys[0] == INITIAL_SYSTEM && (|h.at| > 0 ==> h.at[0] >= 0);
    } else {
      InOrderOneMore(h, n, k, if h.steps[n - 1] == HandleStep then k - 1 else k) by {
        CountOneLess(h, n, k);
        HandledInOrder(h, n - 1, if h.steps[n - 1] == HandleStep then k - 1 else k);
      }
    }
  }

  lemma InOrderOneMore(h: History, n: nat, k: nat, before: nat)
    requires HistoryOk(h) && CountsHandled(h, n, k) && n > 0
    requires before == if h.steps[n - 1] == HandleStep then k - 1 else k
    requires n <= |h.steps| < |h.ys| && k <= |h.done|
    requires Arrived(h, n - 1) == h.done[..before] + h.ys[n - 1].kernel.queue
    ensures Arrived(h, n) == h.done[..k] + h.ys[n].kernel.queue
  {
    hide HistoryOk, Arriving, CountsHandled;
    CountOneLess(h, n, k);
    StepQueue(h, n - 1);
    var y, z, step := h.ys[n - 1], h.ys[n], h.steps[n - 1];
    var more := Arriving(y, step, z);
    assert Arrived(h, n) == Arrived(h, n - 1) + more;
    if step == HandleStep {
      NothingArrives(y, z);
      OneFromFront(h.done, k, y.kernel.queue);
    } else {
      AppendAtEnd(h.done[..k], y.kernel.queue, more);
    }
  }

  lemma NothingArrives(y: System, z: System)
    ensures Arriving(y, HandleStep, z) == []
  {}

  lemma OneFromFront<T>(done: seq<T>, k: nat, queue: seq<T>)
    requires 0 < k <= |done| && queue != [] && done[k - 1] == queue[0]
    ensures done[..k - 1] + queue + [] == done[..k] + queue[1..]
  {
    assert done[..k] == done[..k - 1] + [queue[0]] && queue == [queue[0]] + queue[1..];
  }

  lemma AppendAtEnd<T>(done: seq<T>, queue: seq<T>, more: seq<T>)
    ensures (done + queue) + more == done + (queue + more)
  {}

  /** Every event that ever arrived has been handled, exactly once and in the order of arrival, or is still queued. */
  lemma FirstInFirstOut(h: History)
    requires HistoryOk(h)
    ensures |h.steps| < |h.ys| && Arrived(h, |h.steps|) == h.done + Now(h).kernel.queue
  {
    hide HistoryOk;
    HistoryShape(h);
    HandledInOrder(h, |h.steps|, |h.at|);
    assert h.done[..|h.at|] == h.done;
  }

  lemma {:induction false} ArrivedGrows(h: History, m: nat, n: nat)
    requires m <= n <= |h.steps| < |h.ys|
    ensures Arrived(h, m) <= Arrived(h, n)
    decreases n
  {
    hide Arriving;
    if m < n {
      ArrivedGrows(h, m, n - 1);
      PrefixThrough(Arrived(h, m), Arrived(h, n - 1), Arriving(h.ys[n - 1], h.steps[n - 1], h.ys[n]));
    }
  }

  lemma PrefixThrough<T>(a: seq<T>, b: seq<T>, c: seq<T>)
    requires a <= b
    ensures a <= b + c
  {}

  /** What was queued is the next to be handled. */
  lemma QueuedComesNext(g: History, h: History)
    requires HistoryOk(g) && HistoryOk(h) && Extends(g, h)
    ensures g.ys != [] && h.ys != [] && Now(g).kernel.queue <= h.done[|g.done|..] + Now(h).kernel.queue
  {
    hide HistoryOk;
    HistoryShape(g);
    HistoryShape(h);
    var n, k := |g.steps|, |g.at|;
    CountsInExtension(g, h);
    HandledInOrder(h, n, k);
    FirstInFirstOut(h);
    ArrivedGrows(h, n, |h.steps|);
    assert Arrived(h, n) == g.done + Now(g).kernel.queue by {
      assert h.ys[n] == Now(g) && h.done[..k] == g.done;
    }
    PrefixRest(g.done, Now(g).kernel.queue, h.done, Now(h).kernel.queue);
  }

  lemma CountsInExtension(g: History, h: History)
    requires HistoryOk(g) && HistoryOk(h) && Extends(g, h)
    ensures CountsHandled(h, |g.steps|, |g.at|)
  {
    hide IsRun, Reports, Encodable;
    HistoryShape(g);
    HistoryShape(h);
    HandledBefore(g, h);
    forall j | |g.at| <= j < |h.at| ensures h.at[j] >= |g.steps| {
      assert HandledAt(h, j);
      assert forall i :: 0 <= i < |g.at| ==> g.at[i] == h.at[i] < h.at[j];
      assert h.at[j] !in g.at;
    }
  }

  lemma HandledBefore(g: History, h: History)
    requires HistoryOk(g) && Extends(g, h)
    ensures forall i :: 0 <= i < |g.steps| && h.steps[i] == HandleStep ==> i in g.at
  {
    assert forall i :: 0 <= i < |g.steps| ==> g.steps[i] == h.steps[i];
  }

  lemma PrefixRest<T>(a: seq<T>, b: seq<T>, c: seq<T>, d: seq<T>)
    requires a <= c && a + b <= c + d
    ensures b <= c[|a|..] + d
  {
    var rest := c[|a|..] + d;
    assert c + d == a + rest;
    assert b == (a + b)[|a|..] && rest == (a + rest)[|a|..];
  }

  // ----- What the theorems about runs say of a history -----

  /** No callback of a server, however its thread interleaves with others, reports a stale change. */
  lemma CallbacksAreNotStale(h: History, k: nat, r: Report)
    requires HistoryOk(h) && k < |h.out| && r in h.out[k] && !r.OverflowAt?
    ensures HandledAt(h, k)
    ensures var j, e := h.at[k], h.done[k];
      var s := h.ys[j].server;
      && e.wd in s.roots
      && r.path == ChangedPath(s.roots[e.wd], e.name)
      && exists m: nat, i: nat :: m < i < j && WatchedSince(h.ys, h.steps, m, j, s.roots[e.wd], e.wd) && h.steps[i] == EmitStep(e)
  {
    assert HandledAt(h, k);
    NoStaleReports(h.ys, h.steps, h.at[k], h.out[k], r);
  }

  /** Every event that has been handled belonged to a descriptor the server knew at that time. */
  lemma HandledAreKnown(h: History, k: nat)
    requires HistoryOk(h) && k < |h.at|
    ensures HandledAt(h, k)
    ensures IsOverflow(h.done[k]) || Known(h.ys[h.at[k]].server, h.done[k].wd)
  {
    assert HandledAt(h, k);
    NoUnknownDescriptor(h.ys, h.steps, h.at[k]);
  }

  lemma {:induction false} TerminatingStays(h: History, m: nat, n: nat)
    requires HistoryOk(h) && m <= n < |h.ys| && h.ys[m].server.terminating
    ensures h.ys[n].server.terminating
    decreases n
  {
    if m < n {
      TerminatingStays(h, m, n - 1);
      OnlyTerminateStepSetsTheFlag(h.ys[n - 1], h.steps[n - 1]);
    }
  }

  /** Nothing but overflow is reported any more after the step that sets `shouldTerminate`. */
  lemma SilentOnceTerminating(h: History, m: nat, k: nat)
    requires HistoryOk(h) && m < |h.ys| && h.ys[m].server.terminating && k < |h.at| && m <= h.at[k]
    ensures forall r :: r in h.out[k] ==> r.OverflowAt?
    ensures !IsOverflow(h.done[k]) || IsUnmount(h.done[k]) ==> h.out[k] == []
  {
    assert HandledAt(h, k);
    TerminatingStays(h, m, h.at[k]);
  }

  lemma OnlyTerminateStepSetsTheFlag(y: System, step: Step)
    requires Enabled(y, step)
    ensures Next(y, step).server.terminating == (y.server.terminating || step == TerminateStep)
  {}
}
