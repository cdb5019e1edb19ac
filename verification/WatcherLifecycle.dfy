/**
 * From starting the watcher to awaitTermination, across the native server and the Java thread
 * that runs it. The thread's callbacks go through the bounded queue, one micro-step at a time,
 * while the consumer polls and another thread calls shutdown and awaitTermination.
 */
module WatcherLifecycle {
  import Q = EventQueue

  /** What the processor thread is doing. */
  datatype Phase =
    | Starting
    | Running                   // inside the native runLoop, making callbacks
    | LoopEnded(failed: bool)   // runLoop has returned or thrown; `terminated` is not set yet
    | BackInJava(failed: bool)  // `terminated` is set and the waiters are notified
    | FailureReported
    | TerminationReported
    | Dead(initialized: bool)

  /** The thread in awaitTermination: waiting for the native server, then joining the Java thread. */
  datatype Waiter = Outside | Sleeping | Joining | Answered(terminated: bool)

  /** `loopFailed` records that runLoop threw. */
  datatype State = State(queue: Q.State, phase: Phase, shutdown: bool, loopFailed: bool, waiter: Waiter)

  function Initial(capacity: nat): State {
    State(Q.Initial(capacity), Starting, false, false, Outside)
  }

  datatype Step =
    | InitReturns | InitThrows
    | Callback(call: Q.Call)     // the native server calls back
    | Micro(step: Q.Step)        // a call in progress goes on, or the consumer polls
    | LoopEnds(fails: bool)
    | SetTerminated              // terminated = true; notify_all()
    | JavaReportsFailure
    | JavaReportsTermination
    | ThreadEnds
    | CallShutdown
    | CallAwait                  // takes the lock and looks at `terminated`
    | TimesOut
    | WakesSpuriously
    | JoinReturns                // the thread has ended, or the remaining time is up

  /** The native `terminated` flag. */
  predicate TerminatedFlag(s: State) {
    s.phase.BackInJava? || s.phase.FailureReported? || s.phase.TerminationReported? || s.phase == Dead(true)
  }

  predicate Enabled(s: State, step: Step) {
    match step
    case InitReturns => s.phase.Starting?
    case InitThrows => s.phase.Starting?
    case Callback(call) => s.phase.Running? && s.queue.pc.Idle? && call != Q.ReportTermination
    case Micro(inner) => !inner.Begin? && Q.Enabled(s.queue, inner)
    case LoopEnds(_) => s.phase.Running? && s.queue.pc.Idle?
    case SetTerminated => s.phase.LoopEnded?
    case JavaReportsFailure => s.phase.BackInJava? && s.queue.pc.Idle? && (s.phase.failed || !s.shutdown)
    case JavaReportsTermination => s.queue.pc.Idle? &&
      (s.phase.FailureReported? || (s.phase.BackInJava? && !s.phase.failed && s.shutdown))
    case ThreadEnds => s.phase.TerminationReported? && s.queue.pc.Idle?
    case CallShutdown => !s.shutdown
    case CallAwait => s.waiter.Outside?
    case TimesOut => s.waiter.Sleeping?
    case WakesSpuriously => s.waiter.Sleeping?
    case JoinReturns => s.waiter.Joining?
  }

  function Begin(s: State, call: Q.Call): State
    requires s.queue.pc.Idle?
  {
    s.(queue := Q.Next(s.queue, Q.Begin(call)))
  }

  function Next(s: State, step: Step): State
    requires Enabled(s, step)
  {
    match step
    case InitReturns => s.(phase := Running)
    case InitThrows => s.(phase := Dead(false))
    case Callback(call) => Begin(s, call)
    case Micro(inner) => s.(queue := Q.Next(s.queue, inner))
    case LoopEnds(fails) => s.(phase := LoopEnded(fails), loopFailed := fails)
    case SetTerminated =>
      s.(phase := BackInJava(s.phase.failed), waiter := if s.waiter.Sleeping? then Joining else s.waiter)
    case JavaReportsFailure => Begin(s, Q.ReportFailure).(phase := FailureReported)
    case JavaReportsTermination => Begin(s, Q.ReportTermination).(phase := TerminationReported)
    case ThreadEnds => s.(phase := Dead(true))
    case CallShutdown => s.(shutdown := true)
    case CallAwait => s.(waiter := if TerminatedFlag(s) then Joining else Sleeping)
    case TimesOut => s.(waiter := Outside)
    case WakesSpuriously => s.(waiter := Joining)
    case JoinReturns => s.(waiter := Answered(s.phase.Dead?))
  }

  ghost predicate IsRun(capacity: nat, ss: seq<State>, steps: seq<Step>) {
    && |ss| == |steps| + 1 && ss[0] == Initial(capacity)
    && forall i :: 0 <= i < |steps| ==> Enabled(ss[i], steps[i]) && ss[i + 1] == Next(ss[i], steps[i])
  }

  ghost predicate NoSpuriousWakeup(steps: seq<Step>) {
    forall i :: 0 <= i < |steps| ==> steps[i] != WakesSpuriously
  }

  ghost predicate NoTermination(calls: seq<Q.Call>) {
    forall i :: 0 <= i < |calls| ==> calls[i] != Q.ReportTermination
  }

  /** What the thread has reported by the time it is in `phase`; `idle` says that no call is in progress. */
  ghost predicate ReportsAre(phase: Phase, calls: seq<Q.Call>, idle: bool, loopFailed: bool, shutdown: bool) {
    match phase
    case Starting => calls == [] && idle && !loopFailed
    case Running => NoTermination(calls) && !loopFailed
    case LoopEnded(failed) => NoTermination(calls) && idle && loopFailed == failed
    case BackInJava(failed) => NoTermination(calls) && idle && loopFailed == failed
    case FailureReported => NoTermination(calls) && calls != [] && calls[|calls| - 1] == Q.ReportFailure
    case TerminationReported => EndsInTermination(calls, loopFailed || !shutdown)
    case Dead(initialized) =>
      idle && if initialized then EndsInTermination(calls, loopFailed || !shutdown) else calls == [] && !loopFailed
  }

  ghost predicate ReportsOk(s: State) {
    ReportsAre(s.phase, s.queue.calls, s.queue.pc.Idle?, s.loopFailed, s.shutdown)
  }

  /** One termination call, the last; after a bad exit the call before it reports the failure. */
  ghost predicate EndsInTermination(calls: seq<Q.Call>, badExit: bool) {
    && calls != [] && calls[|calls| - 1] == Q.ReportTermination
    && NoTermination(calls[..|calls| - 1])
    && (badExit ==> |calls| >= 2 && calls[|calls| - 2] == Q.ReportFailure)
  }

  ghost predicate StateOk(s: State) {
    Q.StateOk(s.queue) && s.queue.capacity >= 1 && ReportsOk(s)
  }

  lemma QueueStep(q: Q.State, step: Q.Step)
    requires Q.Enabled(q, step)
    ensures var r := Q.Next(q, step);
      && r.capacity == q.capacity
      && r.calls == (if step.Begin? then q.calls + [step.call] else q.calls)
      && (q.pc.Idle? && !step.Begin? ==> r.pc.Idle?)
  {}

  lemma NextQueueOk(s: State, step: Step)
    requires StateOk(s) && Enabled(s, step)
    ensures Q.StateOk(Next(s, step).queue) && Next(s, step).queue.capacity == s.queue.capacity
  {
    hide Q.StateOk, Q.Next, ReportsOk;
    match step
    case Callback(call) => Q.NextOk(s.queue, Q.Begin(call)); QueueStep(s.queue, Q.Begin(call));
    case Micro(inner) => Q.NextOk(s.queue, inner); QueueStep(s.queue, inner);
    case JavaReportsFailure => Q.NextOk(s.queue, Q.Begin(Q.ReportFailure)); QueueStep(s.queue, Q.Begin(Q.ReportFailure));
    case JavaReportsTermination => Q.NextOk(s.queue, Q.Begin(Q.ReportTermination)); QueueStep(s.queue, Q.Begin(Q.ReportTermination));
    case _ =>
  }

  lemma LessBad(calls: seq<Q.Call>)
    ensures EndsInTermination(calls, true) ==> EndsInTermination(calls, false)
  {}

  /** A callback, or a report of the Java thread, begins. */
  lemma CallReports(phase: Phase, calls: seq<Q.Call>, idle: bool, loopFailed: bool, shutdown: bool)
    requires ReportsAre(phase, calls, true, loopFailed, shutdown)
    ensures forall call :: phase.Running? && call != Q.ReportTermination ==>
              ReportsAre(Running, calls + [call], idle, loopFailed, shutdown)
    ensures phase.BackInJava? ==> ReportsAre(FailureReported, calls + [Q.ReportFailure], idle, loopFailed, shutdown)
    ensures phase.FailureReported? || (phase.BackInJava? && !phase.failed && shutdown) ==>
              ReportsAre(TerminationReported, calls + [Q.ReportTermination], idle, loopFailed, shutdown)
  {
    var all := calls + [Q.ReportTermination];
    assert all[..|calls|] == calls;
  }

  /** A call in progress goes on, or the consumer polls. */
  lemma MicroReports(phase: Phase, calls: seq<Q.Call>, loopFailed: bool, shutdown: bool)
    ensures ReportsAre(phase, calls, false, loopFailed, shutdown) ==> ReportsAre(phase, calls, true, loopFailed, shutdown)
  {}

  lemma BeginReportsOk(s: State, step: Step, call: Q.Call)
    requires ReportsOk(s) && Enabled(s, step)
    requires step == Callback(call) || (step == JavaReportsFailure && call == Q.ReportFailure) ||
             (step == JavaReportsTermination && call == Q.ReportTermination)
    ensures ReportsOk(Next(s, step))
  {
    hide Q.Next, ReportsAre;
    QueueStep(s.queue, Q.Begin(call));
    CallReports(s.phase, s.queue.calls, Next(s, step).queue.pc.Idle?, s.loopFailed, s.shutdown);
  }

  lemma MicroReportsOk(s: State, inner: Q.Step)
    requires ReportsOk(s) && Enabled(s, Micro(inner))
    ensures ReportsOk(Next(s, Micro(inner)))
  {
    hide Q.Next, ReportsAre;
    QueueStep(s.queue, inner);
    MicroReports(s.phase, s.queue.calls, s.loopFailed, s.shutdown);
  }

  lemma NextReportsOk(s: State, step: Step)
    requires ReportsOk(s) && Enabled(s, step)
    ensures ReportsOk(Next(s, step))
  {
    match step
    case Callback(call) => BeginReportsOk(s, step, call);
    case Micro(inner) => MicroReportsOk(s, inner);
    case JavaReportsFailure => BeginReportsOk(s, step, Q.ReportFailure);
    case JavaReportsTermination => BeginReportsOk(s, step, Q.ReportTermination);
    case _ =>
      LessBad(s.queue.calls);
  }

  lemma NextOk(s: State, step: Step)
    requires StateOk(s) && Enabled(s, step)
    ensures StateOk(Next(s, step)) && Next(s, step).queue.capacity == s.queue.capacity
  {
    hide Q.StateOk, Next, ReportsOk;
    NextQueueOk(s, step);
    NextReportsOk(s, step);
  }

  lemma {:induction false} RunOk(capacity: nat, ss: seq<State>, steps: seq<Step>, n: nat)
    requires IsRun(capacity, ss, steps) && capacity >= 1 && n < |ss|
    ensures StateOk(ss[n]) && ss[n].queue.capacity == capacity
    decreases n
  {
    if n == 0 {
      assert Q.NoSilentLoss([], 0);
    } else {
      RunOk(capacity, ss, steps, n - 1);
      NextOk(ss[n - 1], steps[n - 1]);
    }
  }

  // ----- awaitTermination of the native server -----

  /** The native awaitTermination has returned true: the caller goes on to delete the server. */
  predicate NativeAwaitReturnedTrue(s: State) { s.waiter.Joining? || s.waiter.Answered? }

  predicate LoopHasEnded(s: State) { TerminatedFlag(s) }

  lemma {:induction false} WokenMeansTerminated(capacity: nat, ss: seq<State>, steps: seq<Step>, n: nat)
    requires IsRun(capacity, ss, steps) && NoSpuriousWakeup(steps) && n < |ss|
    ensures NativeAwaitReturnedTrue(ss[n]) ==> LoopHasEnded(ss[n])
    decreases n
  {
    if n > 0 {
      WokenMeansTerminated(capacity, ss, steps, n - 1);
    }
  }

  ghost predicate NativeAwaitIsSound(capacity: nat, spuriousWakeups: bool) {
    forall ss: seq<State>, steps: seq<Step> ::
      IsRun(capacity, ss, steps) && (spuriousWakeups || NoSpuriousWakeup(steps)) && NativeAwaitReturnedTrue(ss[|steps|]) ==>
        LoopHasEnded(ss[|steps|])
  }

  /**
   * The condition variable is waited on without a predicate: the native answer `true` means that
   * the run loop has ended exactly as long as there are no spurious wakeups.
   */
  lemma NativeAwaitSoundIffNoSpuriousWakeups(capacity: nat, spuriousWakeups: bool)
    ensures NativeAwaitIsSound(capacity, spuriousWakeups) <==> !spuriousWakeups
  {
    if spuriousWakeups {
      var steps := [InitReturns, CallAwait, WakesSpuriously];
      var s0 := Initial(capacity);
      var s1 := Next(s0, steps[0]);
      var s2 := Next(s1, steps[1]);
      var s3 := Next(s2, steps[2]);
      var ss := [s0, s1, s2, s3];
      assert IsRun(capacity, ss, steps) && NativeAwaitReturnedTrue(ss[|steps|]);
    } else {
      forall ss: seq<State>, steps: seq<Step>
        | IsRun(capacity, ss, steps) && NoSpuriousWakeup(steps) && NativeAwaitReturnedTrue(ss[|steps|])
        ensures LoopHasEnded(ss[|steps|])
      {
        WokenMeansTerminated(capacity, ss, steps, |steps|);
      }
    }
  }

  /** No lost wakeup: the step that sets `terminated` wakes the waiter, and a call made later does not sleep. */
  lemma NobodySleepsOn(s: State, step: Step)
    requires Enabled(s, step)
    ensures step == SetTerminated && s.waiter == Sleeping ==> Next(s, step).waiter == Joining
    ensures step == CallAwait ==> (Next(s, step).waiter == Joining <==> TerminatedFlag(s))
    ensures step == CallAwait && !TerminatedFlag(s) ==> Next(s, step).waiter == Sleeping
    ensures step == TimesOut ==> Next(s, step).waiter == Outside
  {}

  lemma {:induction false} NoLostWakeup(capacity: nat, ss: seq<State>, steps: seq<Step>, n: nat)
    requires IsRun(capacity, ss, steps) && n < |ss|
    ensures TerminatedFlag(ss[n]) ==> ss[n].waiter != Sleeping
    decreases n
  {
    if n > 0 {
      NoLostWakeup(capacity, ss, steps, n - 1);
    }
  }

  // ----- awaitTermination of the watcher -----

  /** Step `m` returns from joining the Java thread; `dead` says whether the thread had ended. */
  ghost predicate JoinedAt(ss: seq<State>, steps: seq<Step>, m: nat, n: nat, dead: bool) {
    m < n <= |steps| < |ss| && steps[m] == JoinReturns && ss[m].phase.Dead? == dead
  }

  ghost predicate Joined(ss: seq<State>, steps: seq<Step>, n: nat, dead: bool) {
    exists m: nat :: JoinedAt(ss, steps, m, n, dead)
  }

  lemma JoinedOneMore(ss: seq<State>, steps: seq<Step>, n: nat, dead: bool)
    requires 0 < n <= |steps| < |ss|
    ensures Joined(ss, steps, n, dead) <==>
      Joined(ss, steps, n - 1, dead) || (steps[n - 1] == JoinReturns && ss[n - 1].phase.Dead? == dead)
  {
    if Joined(ss, steps, n - 1, dead) {
      var m: nat :| JoinedAt(ss, steps, m, n - 1, dead);
      assert JoinedAt(ss, steps, m, n, dead);
    }
    if steps[n - 1] == JoinReturns && ss[n - 1].phase.Dead? == dead {
      assert JoinedAt(ss, steps, n - 1, n, dead);
    }
    if Joined(ss, steps, n, dead) {
      var m: nat :| JoinedAt(ss, steps, m, n, dead);
      assert m < n - 1 ==> JoinedAt(ss, steps, m, n - 1, dead);
    }
  }

  /** Every join answers, and the answer is true exactly if the thread had ended when the join returned. */
  lemma {:induction false} AnswersIff(capacity: nat, ss: seq<State>, steps: seq<Step>, n: nat)
    requires IsRun(capacity, ss, steps) && n < |ss|
    ensures forall dead :: ss[n].waiter == Answered(dead) <==> Joined(ss, steps, n, dead)
    decreases n
  {
    hide Joined;
    if n > 0 {
      AnswersIff(capacity, ss, steps, n - 1);
      forall dead ensures ss[n].waiter == Answered(dead) <==> Joined(ss, steps, n, dead) {
        JoinedOneMore(ss, steps, n, dead);
        assert ss[n - 1].waiter == Answered(true) <==> Joined(ss, steps, n - 1, true);
        assert ss[n - 1].waiter == Answered(false) <==> Joined(ss, steps, n - 1, false);
      }
    } else {
      NoJoinYet(ss, steps);
    }
  }

  lemma NoJoinYet(ss: seq<State>, steps: seq<Step>)
    ensures forall dead :: !Joined(ss, steps, 0, dead)
  {}

  /** A run in which awaitTermination answers true: the hypotheses of `OrderlyEnd` can be met. */
  lemma OrderlyEndHappens(capacity: nat) returns (ss: seq<State>, steps: seq<Step>)
    requires capacity >= 2
    ensures IsRun(capacity, ss, steps) && NoSpuriousWakeup(steps)
    ensures ss[|steps|].waiter == Answered(true) && ss[|steps|].phase == Dead(true)
    ensures Q.Visible(ss[|steps|].queue) == [Q.Event(0)] && ss[|steps|].queue.calls == [Q.ReportTermination]
  {
    hide Next, Enabled;
    steps := [InitReturns, CallShutdown, CallAwait, LoopEnds(false), SetTerminated, JavaReportsTermination, ThreadEnds, JoinReturns];
    var s0 := Initial(capacity);
    var s1, s2, s3, s4, s5 := LoopEndsInOrder(capacity);
    var s6, s7, s8 := ThreadEndsInOrder(s5);
    ss := [s0, s1, s2, s3, s4, s5, s6, s7, s8];
  }

  lemma LoopEndsInOrder(capacity: nat) returns (s1: State, s2: State, s3: State, s4: State, s5: State)
    ensures var s0 := Initial(capacity);
      && Enabled(s0, InitReturns) && s1 == Next(s0, InitReturns)
      && Enabled(s1, CallShutdown) && s2 == Next(s1, CallShutdown)
      && Enabled(s2, CallAwait) && s3 == Next(s2, CallAwait)
      && Enabled(s3, LoopEnds(false)) && s4 == Next(s3, LoopEnds(false))
      && Enabled(s4, SetTerminated) && s5 == Next(s4, SetTerminated)
    ensures s5 == State(Q.Initial(capacity), BackInJava(false), true, false, Joining)
  {
    s1 := Next(Initial(capacity), InitReturns);
    s2 := Next(s1, CallShutdown);
    s3 := Next(s2, CallAwait);
    s4 := Next(s3, LoopEnds(false));
    s5 := Next(s4, SetTerminated);
  }

  lemma ThreadEndsInOrder(s5: State) returns (s6: State, s7: State, s8: State)
    requires s5 == State(Q.Initial(s5.queue.capacity), BackInJava(false), true, false, Joining) && s5.queue.capacity >= 1
    ensures Enabled(s5, JavaReportsTermination) && s6 == Next(s5, JavaReportsTermination)
    ensures Enabled(s6, ThreadEnds) && s7 == Next(s6, ThreadEnds)
    ensures Enabled(s7, JoinReturns) && s8 == Next(s7, JoinReturns)
    ensures s8.waiter == Answered(true) && s8.phase == Dead(true)
    ensures Q.Visible(s8.queue) == [Q.Event(0)] && s8.queue.calls == [Q.ReportTermination]
  {
    s6 := Next(s5, JavaReportsTermination);
    s7 := Next(s6, ThreadEnds);
    s8 := Next(s7, JoinReturns);
  }

  lemma {:induction false} TrueMeansDead(capacity: nat, ss: seq<State>, steps: seq<Step>, n: nat)
    requires IsRun(capacity, ss, steps) && NoSpuriousWakeup(steps) && n < |ss| && ss[n].waiter == Answered(true)
    ensures ss[n].phase == Dead(true)
    decreases n
  {
    WokenMeansTerminated(capacity, ss, steps, n - 1);
    if ss[n - 1].waiter == Answered(true) {
      TrueMeansDead(capacity, ss, steps, n - 1);
    }
  }

  /** Leaving the native run loop, the Java thread reports a failure exactly if the loop failed or `shutdown` is not set then. */
  lemma FailureReportedIff(s: State, step: Step)
    requires s.phase.BackInJava? && Enabled(s, step) && !Next(s, step).phase.BackInJava?
    ensures step == JavaReportsFailure || step == JavaReportsTermination
    ensures step == JavaReportsFailure <==> s.phase.failed || !s.shutdown
  {}

  /** The Java thread has reported a failure. */
  ghost predicate JavaFailed(s: State) {
    var calls := s.queue.calls;
    match s.phase
    case FailureReported => calls != [] && calls[|calls| - 1] == Q.ReportFailure
    case TerminationReported => |calls| >= 2 && calls[|calls| - 2] == Q.ReportFailure
    case Dead(_) => |calls| >= 2 && calls[|calls| - 2] == Q.ReportFailure
    case _ => false
  }

  lemma JavaFailedStays(s: State, step: Step)
    requires Enabled(s, step) && (JavaFailed(s) || step == JavaReportsFailure)
    ensures JavaFailed(Next(s, step))
  {
    hide Q.Next;
    match step
    case Micro(inner) => QueueStep(s.queue, inner);
    case JavaReportsFailure => QueueStep(s.queue, Q.Begin(Q.ReportFailure));
    case JavaReportsTermination => QueueStep(s.queue, Q.Begin(Q.ReportTermination));
    case _ =>
  }

  lemma {:induction false} FailureIsKept(capacity: nat, ss: seq<State>, steps: seq<Step>, m: nat, n: nat)
    requires IsRun(capacity, ss, steps) && m < n < |ss| && steps[m] == JavaReportsFailure
    ensures JavaFailed(ss[n])
    decreases n
  {
    hide JavaFailed, Next;
    if m < n - 1 {
      FailureIsKept(capacity, ss, steps, m, n - 1);
    }
    JavaFailedStays(ss[n - 1], steps[n - 1]);
  }

  /** Step `m` is the run loop throwing. */
  ghost predicate LoopThrewAt(steps: seq<Step>, m: nat, n: nat) {
    m < n <= |steps| && steps[m] == LoopEnds(true)
  }

  /** `loopFailed` is set exactly if the run loop has thrown. */
  lemma {:induction false} LoopFailedIff(capacity: nat, ss: seq<State>, steps: seq<Step>, n: nat)
    requires IsRun(capacity, ss, steps) && capacity >= 1 && n < |ss|
    ensures ss[n].loopFailed <==> exists m: nat :: LoopThrewAt(steps, m, n)
    decreases n
  {
    if n > 0 {
      LoopFailedIff(capacity, ss, steps, n - 1);
      RunOk(capacity, ss, steps, n - 1);
      if ss[n - 1].loopFailed {
        var m: nat :| LoopThrewAt(steps, m, n - 1);
        assert LoopThrewAt(steps, m, n);
      }
      if steps[n - 1] == LoopEnds(true) {
        assert LoopThrewAt(steps, n - 1, n);
      }
      if exists m: nat :: LoopThrewAt(steps, m, n) {
        var m: nat :| LoopThrewAt(steps, m, n);
        assert m < n - 1 ==> LoopThrewAt(steps, m, n - 1);
      }
    }
  }

  /** The run loop failed, or `shutdown` was not set, when the Java thread looked after step `m`. */
  ghost predicate BadExitAt(ss: seq<State>, steps: seq<Step>, m: nat, n: nat) {
    && m < n <= |steps| < |ss|
    && ss[m].phase.BackInJava? && !ss[m + 1].phase.BackInJava? && (ss[m].phase.failed || !ss[m].shutdown)
  }

  /** What the consumer sees before a termination event that follows a reported failure. */
  ghost predicate FailureStandsBefore(q: Q.State) {
    |q.calls| >= 2 && q.calls[|q.calls| - 2] == Q.ReportFailure && Q.AccountedFor(Q.Visible(q), |q.calls| - 2)
  }

  /**
   * When awaitTermination returns true, the termination event is the last thing the consumer sees
   * and there is only one; if the run loop had failed, or no shutdown had been requested, when the
   * Java thread came back from it, the failure event is there right before it, or an overflow event
   * stands in its place. A shutdown that is requested later does not change that.
   */
  lemma OrderlyEnd(capacity: nat, ss: seq<State>, steps: seq<Step>, n: nat)
    requires IsRun(capacity, ss, steps) && NoSpuriousWakeup(steps) && n < |ss|
    requires capacity >= 2 && ss[n].waiter == Answered(true)
    ensures var q := ss[n].queue;
      var v, total := Q.Visible(q), |q.calls|;
      && q.pc.Idle? && Q.NoSilentLoss(v, total)
      && Q.EndsWithEvent(v, total - 1) && q.calls[total - 1] == Q.ReportTermination
      && (forall i :: 0 <= i < |v| - 1 && v[i].Event? ==> v[i].n < total - 1 && q.calls[v[i].n] != Q.ReportTermination)
      && (forall m: nat :: BadExitAt(ss, steps, m, n) || LoopThrewAt(steps, m, n) ==> FailureStandsBefore(q))
      && (ss[n].loopFailed || !ss[n].shutdown ==> total >= 2 && q.calls[total - 2] == Q.ReportFailure && Q.AccountedFor(v, total - 2))
  {
    TrueMeansDead(capacity, ss, steps, n);
    RunOk(capacity, ss, steps, n);
    var q := ss[n].queue;
    Q.IdleMeans(q);
    LoopFailedIff(capacity, ss, steps, n);
    assert ss[n].loopFailed ==> FailureStandsBefore(q) by {
      assert |q.calls| >= 2 ==> Q.AccountedFor(Q.Visible(q), |q.calls| - 2);
    }
    forall m: nat | BadExitAt(ss, steps, m, n) ensures FailureStandsBefore(q) {
      FailureReportedIff(ss[m], steps[m]);
      FailureIsKept(capacity, ss, steps, m, n);
      assert Q.AccountedFor(Q.Visible(q), |q.calls| - 2);
    }
    var v, total := Q.Visible(q), |q.calls|;
    forall i | 0 <= i < |v| - 1 && v[i].Event?
      ensures v[i].n < total - 1 && q.calls[v[i].n] != Q.ReportTermination
    {
      assert v[i].n < v[|v| - 1].n;
      assert q.calls[..total - 1][v[i].n] != Q.ReportTermination;
    }
  }
}
