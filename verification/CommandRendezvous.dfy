/**
 * Command::execute and Command::executeInsideRunLoop: one thread schedules work on the run loop
 * and waits on a condition variable until it has been done. The two threads interleave between
 * any two operations on the mutex, the condition variable or the APC queue.
 */
module CommandRendezvous {
  import opened Prelude

  /** What `work()` does: returns a value, or throws. */
  datatype Outcome = Value(b: bool) | Exception

  /** The thread in execute. */
  datatype Caller =
    | Outside
    | Locked                                 // holds executionMutex, has not scheduled yet
    | Scheduled                              // holds executionMutex
    | Waiting                                // asleep in wait_for, mutex released
    | Woken                                  // about to take the mutex again
    | Returned(outcome: Option<Outcome>)     // None: `result` read before it was written
    | ScheduleThrew

  /** The run loop thread in executeInsideRunLoop. */
  datatype Worker = Absent | Queued | Ran | Locking | Notified | Done

  datatype Holder = Nobody | TheCaller | TheWorker

  /** `result` is what the `result` and `failure` fields hold; `runs` counts the calls of work(). */
  datatype State = State(caller: Caller, worker: Worker, holder: Holder, result: Option<Outcome>, runs: nat)

  const INITIAL := State(Outside, Absent, Nobody, None, 0)

  datatype Step =
    | Lock | Schedule | ScheduleThrows | Wait | Return   // the caller
    | Work(outcome: Outcome) | WorkerLock | NotifyAll | WorkerUnlock
    | WakesSpuriously

  predicate Enabled(s: State, step: Step) {
    match step
    case Lock => s.caller.Outside? && s.holder.Nobody?
    case Schedule => s.caller.Locked? && s.worker.Absent?
    case ScheduleThrows => s.caller.Locked?
    case Wait => s.caller.Scheduled?
    case Return => s.caller.Woken? && s.holder.Nobody?
    case Work(_) => s.worker.Queued?
    case WorkerLock => s.worker.Ran? && s.holder.Nobody?
    case NotifyAll => s.worker.Locking?
    case WorkerUnlock => s.worker.Notified?
    case WakesSpuriously => s.caller.Waiting?
  }

  function Next(s: State, step: Step): State
    requires Enabled(s, step)
  {
    match step
    case Lock => s.(caller := Locked, holder := TheCaller)
    case Schedule => s.(caller := Scheduled, worker := Queued)
    case ScheduleThrows => s.(caller := ScheduleThrew, holder := Nobody)
    case Wait => s.(caller := Waiting, holder := Nobody)
    case Return => s.(caller := Returned(s.result))
    case Work(outcome) => s.(worker := Ran, result := Some(outcome), runs := s.runs + 1)
    case WorkerLock => s.(worker := Locking, holder := TheWorker)
    case NotifyAll => s.(worker := Notified, caller := if s.caller.Waiting? then Woken else s.caller)
    case WorkerUnlock => s.(worker := Done, holder := Nobody)
    case WakesSpuriously => s.(caller := Woken)
  }

  ghost predicate IsRun(ss: seq<State>, steps: seq<Step>) {
    && |ss| == |steps| + 1 && ss[0] == INITIAL
    && forall i :: 0 <= i < |steps| ==> Enabled(ss[i], steps[i]) && ss[i + 1] == Next(ss[i], steps[i])
  }

  ghost predicate NoSpuriousWakeup(steps: seq<Step>) {
    forall i :: 0 <= i < |steps| ==> steps[i] != WakesSpuriously
  }

  /** The mutex is held from before scheduling until the wait, so the worker cannot notify too early. */
  ghost predicate StateOk(s: State) {
    && (s.holder.TheCaller? <==> s.caller.Locked? || s.caller.Scheduled?)
    && (s.holder.TheWorker? <==> s.worker.Locking? || s.worker.Notified?)
    && (s.worker.Absent? <==> s.caller.Outside? || s.caller.Locked? || s.caller.ScheduleThrew?)
    && (s.worker.Absent? || s.worker.Queued? ==> s.runs == 0 && s.result.None?)
    && (s.worker.Ran? || s.worker.Locking? || s.worker.Notified? || s.worker.Done? ==> s.runs == 1 && s.result.Some?)
    && (s.caller.Scheduled? ==> s.worker.Queued? || s.worker.Ran?)
    && (s.worker.Locking? ==> s.caller.Waiting?)
    && (s.caller.Waiting? ==> !s.worker.Notified? && !s.worker.Done?)
    && (s.caller.Woken? ==> s.worker.Notified? || s.worker.Done?)
    && (s.caller.Returned? ==> s.worker.Done? && s.caller.outcome == s.result)
  }

  lemma NextOk(s: State, step: Step)
    requires StateOk(s) && Enabled(s, step) && step != WakesSpuriously
    ensures StateOk(Next(s, step))
  {}

  lemma {:induction false} RunOk(ss: seq<State>, steps: seq<Step>, n: nat)
    requires IsRun(ss, steps) && NoSpuriousWakeup(steps) && n < |ss|
    ensures StateOk(ss[n])
    decreases n
  {
    if n > 0 {
      RunOk(ss, steps, n - 1);
      NextOk(ss[n - 1], steps[n - 1]);
    }
  }

  /** The steps that remain; every step but a spurious wakeup uses one up. */
  function Remaining(s: State): nat {
    (match s.caller
     case Outside => 5
     case Locked => 4
     case Scheduled => 3
     case Waiting => 2
     case Woken => 1
     case _ => 0) +
    (match s.worker
     case Absent => 5
     case Queued => 4
     case Ran => 3
     case Locking => 2
     case Notified => 1
     case Done => 0)
  }

  lemma EveryStepUsesOneUp(s: State, step: Step)
    requires StateOk(s) && Enabled(s, step) && step != WakesSpuriously
    ensures Remaining(Next(s, step)) < Remaining(s)
  {}

  /** No interleaving goes on forever. */
  lemma {:induction false} RunsAreShort(ss: seq<State>, steps: seq<Step>, n: nat)
    requires IsRun(ss, steps) && NoSpuriousWakeup(steps) && n < |ss|
    ensures n + Remaining(ss[n]) <= 10
    decreases n
  {
    if n > 0 {
      RunsAreShort(ss, steps, n - 1);
      RunOk(ss, steps, n - 1);
      EveryStepUsesOneUp(ss[n - 1], steps[n - 1]);
    }
  }

  predicate CallEnded(s: State) {
    s.caller.ScheduleThrew? || (s.caller.Returned? && s.worker.Done?)
  }

  /** No lost wakeup: until the call has ended some thread can go on. */
  lemma SomebodyCanGoOn(s: State) returns (step: Step)
    requires StateOk(s) && !CallEnded(s)
    ensures step != WakesSpuriously && Enabled(s, step) && Remaining(Next(s, step)) < Remaining(s)
  {
    match s.caller
    case Outside => return Lock;
    case Locked => return Schedule;
    case Scheduled => return Wait;
    case Woken => return if s.worker.Notified? then WorkerUnlock else Return;
    case _ =>
      match s.worker
      case Queued => return Work(Exception);
      case Ran => return WorkerLock;
      case _ => return NotifyAll;
  }

  ghost predicate Maximal(s: State) {
    forall step :: step != WakesSpuriously ==> !Enabled(s, step)
  }

  ghost predicate OnlyWorkAt(steps: seq<Step>, i: nat, outcome: Outcome) {
    && i < |steps| && steps[i] == Work(outcome)
    && forall j :: 0 <= j < |steps| && steps[j].Work? ==> j == i
  }

  ghost predicate WorkedOnce(steps: seq<Step>, outcome: Outcome) {
    exists i: nat :: OnlyWorkAt(steps, i, outcome)
  }

  lemma {:induction false} RunsCounted(ss: seq<State>, steps: seq<Step>, n: nat)
    requires IsRun(ss, steps) && NoSpuriousWakeup(steps) && n < |ss|
    ensures ss[n].runs == 0 ==> forall i :: 0 <= i < n ==> !steps[i].Work?
    ensures ss[n].runs == 1 ==> ss[n].result.Some? && WorkedOnce(steps[..n], ss[n].result.value)
    decreases n
  {
    if n > 0 {
      RunsCounted(ss, steps, n - 1);
      RunOk(ss, steps, n - 1);
      RunOk(ss, steps, n);
      if ss[n].runs == 1 {
        var outcome := ss[n].result.value;
        if steps[n - 1].Work? {
          assert OnlyWorkAt(steps[..n], n - 1, outcome);
        } else {
          var i: nat :| OnlyWorkAt(steps[..n - 1], i, outcome);
          assert forall j :: 0 <= j < n - 1 ==> steps[..n][j] == steps[..n - 1][j];
          assert OnlyWorkAt(steps[..n], i, outcome);
        }
      }
    }
  }

  /**
   * Every interleaving that has gone as far as it can has ended the call: either scheduling threw,
   * or the work ran exactly once and the caller returned its value or rethrew its exception.
   */
  lemma RendezvousCompletes(ss: seq<State>, steps: seq<Step>)
    requires IsRun(ss, steps) && NoSpuriousWakeup(steps) && Maximal(ss[|steps|])
    ensures var s := ss[|steps|];
      s.caller.ScheduleThrew? || (s.caller.Returned? && s.caller.outcome.Some? && WorkedOnce(steps, s.caller.outcome.value))
  {
    var s := ss[|steps|];
    RunOk(ss, steps, |steps|);
    RunsCounted(ss, steps, |steps|);
    assert steps[..|steps|] == steps;
    if !CallEnded(s) {
      var step := SomebodyCanGoOn(s);
    }
  }

  /** The answer of execute is that of the work. */
  ghost predicate AnswersAreResults(spuriousWakeups: bool) {
    forall ss: seq<State>, steps: seq<Step> ::
      IsRun(ss, steps) && (spuriousWakeups || NoSpuriousWakeup(steps)) && ss[|steps|].caller.Returned? ==>
        ss[|steps|].caller.outcome.Some? && WorkedOnce(steps, ss[|steps|].caller.outcome.value)
  }

  /** The wait has no predicate, so this holds exactly as long as there are no spurious wakeups. */
  lemma AnswersSoundIffNoSpuriousWakeups(spuriousWakeups: bool)
    ensures AnswersAreResults(spuriousWakeups) <==> !spuriousWakeups
  {
    if spuriousWakeups {
      var steps := [Lock, Schedule, Wait, WakesSpuriously, Return];
      var s1 := Next(INITIAL, steps[0]);
      var s2 := Next(s1, steps[1]);
      var s3 := Next(s2, steps[2]);
      var s4 := Next(s3, steps[3]);
      var s5 := Next(s4, steps[4]);
      var ss := [INITIAL, s1, s2, s3, s4, s5];
      assert IsRun(ss, steps) && ss[|steps|].caller == Returned(None);
    } else {
      forall ss: seq<State>, steps: seq<Step>
        | IsRun(ss, steps) && NoSpuriousWakeup(steps) && ss[|steps|].caller.Returned?
        ensures ss[|steps|].caller.outcome.Some? && WorkedOnce(steps, ss[|steps|].caller.outcome.value)
      {
        RunOk(ss, steps, |steps|);
        RunsCounted(ss, steps, |steps|);
        assert steps[..|steps|] == steps;
      }
    }
  }
}
