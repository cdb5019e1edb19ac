/**
 * The documentation of shutdown() promises that no more events arrive after it has returned. This
 * module shows that the promise does not hold, and in which states it would.
 */
module ShutdownPromise {
  import Q = EventQueue
  import opened WatcherLifecycle

  /** A possible future of `s`. */
  ghost predicate IsFuture(s: State, ss: seq<State>, steps: seq<Step>) {
    && |ss| == |steps| + 1 && ss[0] == s
    && forall i :: 0 <= i < |steps| ==> Enabled(ss[i], steps[i]) && ss[i + 1] == Next(ss[i], steps[i])
  }

  ghost predicate SameEvents(s: State, t: State) {
    Q.Visible(s.queue) == Q.Visible(t.queue)
  }

  /** In no future does what the consumer sees change, apart from moving out of the queue. */
  ghost predicate NothingMoreArrives(s: State) {
    forall ss: seq<State>, steps: seq<Step> :: IsFuture(s, ss, steps) ==> SameEvents(s, ss[|steps|])
  }

  /** The thread has died, or the termination event has been queued. */
  predicate Finished(s: State) {
    s.phase.Dead? || (s.phase.TerminationReported? && s.queue.pc.Idle?)
  }

  /** Contrary to the documentation, an event arrives after shutdown() has returned. */
  lemma EventsArriveAfterShutdown(capacity: nat)
    returns (ss: seq<State>, steps: seq<Step>)
    requires capacity >= 1
    ensures IsRun(capacity, ss, steps)
    ensures |steps| == 3 && steps[1] == CallShutdown
    ensures Q.Visible(ss[2].queue) == [] && Q.Visible(ss[3].queue) == [Q.Event(0)]
  {
    steps := [InitReturns, CallShutdown, Callback(Q.ReportEvent)];
    var s0 := Initial(capacity);
    var s1 := Next(s0, steps[0]);
    var s2 := Next(s1, steps[1]);
    var s3 := Next(s2, steps[2]);
    ss := [s0, s1, s2, s3];
  }

  // ----- A finished watcher stays silent -----

  lemma FinishedStep(s: State, step: Step)
    requires Finished(s) && (s.phase.Dead? ==> s.queue.pc.Idle?) && Enabled(s, step)
    ensures var t := Next(s, step); Finished(t) && t.queue.pc.Idle? && SameEvents(s, t)
  {
    if step.Micro? {
      assert s.queue.consumed + [s.queue.queue[0]] + s.queue.queue[1..] == s.queue.consumed + s.queue.queue;
    }
  }

  lemma {:induction false} FinishedStaysSilent(s: State, ss: seq<State>, steps: seq<Step>, n: nat)
    requires Finished(s) && s.queue.pc.Idle? && IsFuture(s, ss, steps) && n < |ss|
    ensures Finished(ss[n]) && ss[n].queue.pc.Idle? && SameEvents(s, ss[n])
    decreases n
  {
    if n > 0 {
      FinishedStaysSilent(s, ss, steps, n - 1);
      FinishedStep(ss[n - 1], steps[n - 1]);
    }
  }

  // ----- Any other can still speak -----

  /** A step that brings the termination event closer. */
  function Onward(s: State): Step
    requires !Finished(s)
  {
    if s.queue.pc.OfferFailed? then Micro(Q.Step.Clear)
    else if s.queue.pc.QueueCleared? then Micro(Q.ForceOverflow)
    else if s.queue.pc.OverflowQueued? then Micro(Q.ForceEvent)
    else match s.phase
      case Starting => InitReturns
      case Running => LoopEnds(false)
      case LoopEnded(_) => SetTerminated
      case BackInJava(failed) => if failed || !s.shutdown then JavaReportsFailure else JavaReportsTermination
      case _ => JavaReportsTermination
  }

  function Distance(s: State): nat {
    (match s.queue.pc
     case Idle => 0
     case OverflowQueued(_) => 1
     case QueueCleared(_) => 2
     case OfferFailed(_) => 3) +
    4 * match s.phase
        case Starting => 6
        case Running => 5
        case LoopEnded(_) => 4
        case BackInJava(_) => 3
        case FailureReported => 2
        case TerminationReported => 1
        case Dead(_) => 0
  }

  function CallsToCome(s: State): nat { if s.phase.TerminationReported? then 0 else 1 }

  lemma OnwardGoesOn(s: State)
    requires StateOk(s) && !Finished(s)
    ensures Enabled(s, Onward(s))
    ensures var t := Next(s, Onward(s));
      && Distance(t) < Distance(s) && t.queue.capacity == s.queue.capacity && !t.phase.Dead?
      && |t.queue.calls| + CallsToCome(t) >= |s.queue.calls| + CallsToCome(s)
  {
    hide Q.StateOk, Q.NoSilentLoss;
  }

  /** A future in which the termination event has just been queued. */
  lemma {:induction false} CanTerminate(s: State) returns (ss: seq<State>, steps: seq<Step>)
    requires StateOk(s) && !s.phase.Dead?
    ensures IsFuture(s, ss, steps)
    ensures var f := ss[|steps|];
      && StateOk(f) && f.phase.TerminationReported? && f.queue.pc.Idle? && f.queue.capacity == s.queue.capacity
      && |f.queue.calls| >= |s.queue.calls| + CallsToCome(s)
    decreases Distance(s)
  {
    hide StateOk, Next, Enabled, Onward, Distance;
    if Finished(s) {
      return [s], [];
    }
    OnwardGoesOn(s);
    NextOk(s, Onward(s));
    ss, steps := CanTerminate(Next(s, Onward(s)));
    ss, steps := [s] + ss, [Onward(s)] + steps;
  }

  /** What can be seen so far does not include the event of a call that is still to come, or in progress. */
  lemma NotSeenYet(s: State, n: nat)
    requires StateOk(s) && n >= |s.queue.calls| - (if s.queue.pc.Idle? then 0 else 1)
    ensures Q.Event(n) !in Q.Visible(s.queue)
  {}

  /**
   * In any reachable state, before or after a call of shutdown(): nothing more arrives exactly when
   * the watcher has died or queued its termination event already.
   */
  lemma SilentIffFinished(capacity: nat, run: seq<State>, steps: seq<Step>, n: nat)
    requires capacity >= 2 && IsRun(capacity, run, steps) && n < |run|
    ensures NothingMoreArrives(run[n]) <==> Finished(run[n])
  {
    var s := run[n];
    RunOk(capacity, run, steps, n);
    if Finished(s) {
      forall ss: seq<State>, more: seq<Step> | IsFuture(s, ss, more) ensures SameEvents(s, ss[|more|]) {
        FinishedStaysSilent(s, ss, more, |more|);
      }
    } else {
      var ss, more := CanTerminate(s);
      var f := ss[|more|];
      TerminationIsLast(f);
      NotSeenYet(s, |f.queue.calls| - 1);
      assert !SameEvents(s, f);
    }
  }

  lemma TerminationIsLast(f: State)
    requires StateOk(f) && f.phase.TerminationReported? && f.queue.pc.Idle? && f.queue.capacity >= 2
    ensures |f.queue.calls| > 0 && Q.Event(|f.queue.calls| - 1) in Q.Visible(f.queue)
  {
    Q.IdleMeans(f.queue);
  }
}
