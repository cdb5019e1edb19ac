/**
 * The Java side: events go into a bounded queue that somebody else empties. When an event does
 * not fit, everything queued is dropped and an overflow event takes its place.
 *
 * The producer is the one thread that makes the callbacks; it works in micro-steps (`offer` and
 * `clear` are atomic), and the consumer may poll between any two of them.
 */
module EventQueue {
  import opened Prelude

  /** A call of the native callback. Change and unknown events may be dropped; the other two are forced in. */
  datatype Call = ReportEvent | ReportFailure | ReportTermination | ReportOverflow

  predicate DeliverOnOverflow(c: Call) { c == ReportFailure || c == ReportTermination }

  /** The event of the `n`-th call, or an overflow event. */
  datatype Item = Event(n: nat) | Overflow

  /** Where the producer is: between calls, or inside queueEvent / signalOverflow. */
  datatype Pc =
    | Idle
    | OfferFailed(n: nat)                    // about to clear the queue
    | QueueCleared(deliver: Option<nat>)     // about to force the overflow event
    | OverflowQueued(n: nat)                 // about to force the event itself

  /** `calls` lists the callbacks begun so far; the call with index `n` has event number `n`. */
  datatype State = State(capacity: nat, queue: seq<Item>, consumed: seq<Item>, calls: seq<Call>, pc: Pc)

  function Initial(capacity: nat): State { State(capacity, [], [], [], Idle) }

  datatype Step = Begin(call: Call) | Clear | ForceOverflow | ForceEvent | Poll

  /** BlockingQueue.offer. */
  function Offer(s: State, item: Item): State {
    if |s.queue| < s.capacity then s.(queue := s.queue + [item]) else s
  }

  predicate Accepts(s: State) { |s.queue| < s.capacity }

  predicate Enabled(s: State, step: Step) {
    match step
    case Begin(_) => s.pc.Idle?
    case Clear => s.pc.OfferFailed?
    case ForceOverflow => s.pc.QueueCleared?
    case ForceEvent => s.pc.OverflowQueued?
    case Poll => s.queue != []
  }

  function Next(s: State, step: Step): State
    requires Enabled(s, step)
  {
    match step
    case Begin(call) =>
      var n := |s.calls|;
      var t := s.(calls := s.calls + [call]);
      if call == ReportOverflow then t.(queue := [], pc := QueueCleared(None))
      else if Accepts(s) then Offer(t, Event(n))
      else t.(pc := OfferFailed(n))
    case Clear => s.(queue := [], pc := QueueCleared(if DeliverOnOverflow(CallOf(s, s.pc.n)) then Some(s.pc.n) else None))
    case ForceOverflow =>
      Offer(s, Overflow).(pc := match s.pc.deliver case None => Idle case Some(n) => OverflowQueued(n))
    case ForceEvent => Offer(s, Event(s.pc.n)).(pc := Idle)
    case Poll => s.(consumed := s.consumed + [s.queue[0]], queue := s.queue[1..])
  }

  function CallOf(s: State, n: nat): Call {
    if n < |s.calls| then s.calls[n] else ReportEvent
  }

  /** What the consumer has seen or is going to see. */
  function Visible(s: State): seq<Item> { s.consumed + s.queue }

  // ----- No silent loss -----

  /** The overflow event at `i` stands exactly where event `n` is missing. */
  ghost predicate CoversAt(v: seq<Item>, n: nat, i: nat) {
    && i < |v| && v[i].Overflow?
    && (forall j :: 0 <= j < i && v[j].Event? ==> v[j].n < n)
    && (forall j :: i < j < |v| && v[j].Event? ==> v[j].n > n)
  }

  ghost predicate AccountedFor(v: seq<Item>, n: nat) {
    Event(n) in v || exists i: nat :: CoversAt(v, n, i)
  }

  /**
   * The events come in the order of the calls, none twice, and for every one of the first `total`
   * calls the event is there or an overflow event stands in its gap.
   */
  ghost predicate NoSilentLoss(v: seq<Item>, total: nat) {
    && (forall i, j :: 0 <= i < j < |v| && v[i].Event? && v[j].Event? ==> v[i].n < v[j].n)
    && (forall i :: 0 <= i < |v| && v[i].Event? ==> v[i].n < total)
    && (forall n: nat :: n < total ==> AccountedFor(v, n))
  }

  lemma AppendEvent(v: seq<Item>, total: nat)
    requires NoSilentLoss(v, total)
    ensures NoSilentLoss(v + [Event(total)], total + 1)
  {
    var w := v + [Event(total)];
    forall n: nat | n < total + 1 ensures AccountedFor(w, n) {
      if n == total {
        assert w[|v|] == Event(n);
      } else if Event(n) !in v {
        assert AccountedFor(v, n);
        var i: nat :| CoversAt(v, n, i);
        assert CoversAt(w, n, i);
      }
    }
  }

  /** An overflow event at the end covers everything that is missing there. */
  lemma AppendOverflow(v: seq<Item>, m: nat, total: nat)
    requires NoSilentLoss(v, m) && m <= total
    ensures NoSilentLoss(v + [Overflow], total)
  {
    var w := v + [Overflow];
    forall n: nat | n < total ensures AccountedFor(w, n) {
      if n >= m {
        assert CoversAt(w, n, |v|);
      } else if Event(n) !in v {
        assert AccountedFor(v, n);
        var i: nat :| CoversAt(v, n, i);
        assert CoversAt(w, n, i);
      }
    }
  }

  /** A trailing overflow event also covers what is lost right after it. */
  lemma TrailingOverflow(v: seq<Item>, total: nat)
    requires NoSilentLoss(v, total) && v != [] && v[|v| - 1].Overflow?
    ensures NoSilentLoss(v, total + 1)
  {
    assert CoversAt(v, total, |v| - 1);
    forall n: nat | n < total + 1 ensures AccountedFor(v, n) {
      if n < total {
        assert AccountedFor(v, n);
      }
    }
  }

  /** The number after the last event in `v`. */
  function AfterLast(v: seq<Item>): nat {
    if v == [] then 0 else if v[|v| - 1].Event? then v[|v| - 1].n + 1 else AfterLast(v[..|v| - 1])
  }

  /** Dropping the tail of what is visible loses nothing before the last event that stays. */
  lemma DropTail(v: seq<Item>, dropped: seq<Item>, total: nat)
    requires NoSilentLoss(v + dropped, total)
    ensures NoSilentLoss(v, AfterLast(v)) && AfterLast(v) <= total
  {
    var w := v + dropped;
    assert forall i :: 0 <= i < |v| ==> w[i] == v[i];
    EventsBelow(v, total);
    forall n: nat | n < AfterLast(v) ensures AccountedFor(v, n) {
      var last := AfterLast(v) - 1;
      var k :| 0 <= k < |v| && v[k] == Event(last);
      assert AccountedFor(w, n);
      assert forall j :: |v| <= j < |w| && w[j].Event? ==> w[k].n < w[j].n;
      if Event(n) !in w {
        var i: nat :| CoversAt(w, n, i);
        assert i < k;
        assert CoversAt(v, n, i);
      }
    }
  }

  lemma {:induction false} EventsBelow(v: seq<Item>, total: nat)
    requires forall i, j :: 0 <= i < j < |v| && v[i].Event? && v[j].Event? ==> v[i].n < v[j].n
    requires forall i :: 0 <= i < |v| && v[i].Event? ==> v[i].n < total
    ensures AfterLast(v) <= total
    ensures forall i :: 0 <= i < |v| && v[i].Event? ==> v[i].n < AfterLast(v)
    ensures AfterLast(v) > 0 ==> Event(AfterLast(v) - 1) in v
    decreases |v|
  {
    if v != [] && v[|v| - 1].Overflow? {
      EventsBelow(v[..|v| - 1], total);
    }
  }

  // ----- Every micro-step keeps the books -----

  ghost predicate EndsWithEvent(v: seq<Item>, n: int) {
    v != [] && v[|v| - 1].Event? && v[|v| - 1].n == n
  }

  ghost predicate LastDelivered(s: State) {
    s.calls != [] && s.calls[|s.calls| - 1] in {ReportFailure, ReportTermination} ==> EndsWithEvent(Visible(s), |s.calls| - 1)
  }

  ghost predicate StateOk(s: State) {
    var v, total := Visible(s), |s.calls|;
    && |s.queue| <= s.capacity
    && match s.pc
       case Idle =>
         NoSilentLoss(v, total) && (s.capacity >= 2 ==> LastDelivered(s))
       case OfferFailed(n) =>
         n + 1 == total && NoSilentLoss(v, n)
       case QueueCleared(deliver) =>
         && s.queue == [] && total > 0 && NoSilentLoss(v, AfterLast(v)) && AfterLast(v) < total
         && if deliver.Some? then deliver.value + 1 == total else !DeliverOnOverflow(s.calls[total - 1])
       case OverflowQueued(n) =>
         && n + 1 == total && NoSilentLoss(v, n) && |s.queue| <= 1
         && v != [] && v[|v| - 1].Overflow?
  }

  lemma BeginOk(s: State, call: Call)
    requires StateOk(s) && s.capacity >= 1 && s.pc.Idle?
    ensures StateOk(Next(s, Begin(call)))
  {
    var v, total := Visible(s), |s.calls|;
    if call == ReportOverflow {
      DropTail(s.consumed, s.queue, total);
      assert s.consumed + [] == s.consumed;
    } else if Accepts(s) {
      AppendEvent(v, total);
      assert s.consumed + (s.queue + [Event(total)]) == v + [Event(total)];
    }
  }

  lemma NextOk(s: State, step: Step)
    requires StateOk(s) && s.capacity >= 1 && Enabled(s, step)
    ensures StateOk(Next(s, step))
  {
    hide NoSilentLoss, AfterLast;
    var v, total := Visible(s), |s.calls|;
    match step
    case Begin(call) => BeginOk(s, call);
    case Clear =>
      DropTail(s.consumed, s.queue, s.pc.n);
      assert s.consumed + [] == s.consumed;
    case ForceOverflow =>
      AppendOverflow(v, AfterLast(v), if s.pc.deliver.Some? then s.pc.deliver.value else total);
      assert s.consumed + (s.queue + [Overflow]) == v + [Overflow];
    case ForceEvent =>
      if Accepts(s) {
        AppendEvent(v, s.pc.n);
        assert s.consumed + (s.queue + [Event(s.pc.n)]) == v + [Event(s.pc.n)];
      } else {
        TrailingOverflow(v, s.pc.n);
      }
    case Poll =>
      assert s.consumed + [s.queue[0]] + s.queue[1..] == v;
  }

  lemma IdleMeans(s: State)
    requires StateOk(s) && s.pc.Idle?
    ensures NoSilentLoss(Visible(s), |s.calls|) && (s.capacity >= 2 ==> LastDelivered(s))
  {}

  // ----- Whole runs, with polls anywhere -----

  ghost predicate IsRun(capacity: nat, ss: seq<State>, steps: seq<Step>) {
    && |ss| == |steps| + 1 && ss[0] == Initial(capacity)
    && forall i :: 0 <= i < |steps| ==> Enabled(ss[i], steps[i]) && ss[i + 1] == Next(ss[i], steps[i])
  }

  lemma {:induction false} RunOk(capacity: nat, ss: seq<State>, steps: seq<Step>, n: nat)
    requires IsRun(capacity, ss, steps) && capacity >= 1 && n < |ss|
    ensures StateOk(ss[n]) && ss[n].capacity == capacity
    decreases n
  {
    if n > 0 {
      RunOk(capacity, ss, steps, n - 1);
      NextOk(ss[n - 1], steps[n - 1]);
    }
  }

  /** Between calls, every call so far is accounted for, however the consumer polled. */
  ghost predicate NeverLosesSilently(capacity: nat) {
    forall ss: seq<State>, steps: seq<Step> :: IsRun(capacity, ss, steps) && ss[|steps|].pc.Idle? ==>
      NoSilentLoss(Visible(ss[|steps|]), |ss[|steps|].calls|)
  }

  /** A failure or termination event is what the consumer sees last, until there is another call. */
  ghost predicate AlwaysDelivers(capacity: nat) {
    forall ss: seq<State>, steps: seq<Step> :: IsRun(capacity, ss, steps) && ss[|steps|].pc.Idle? ==> LastDelivered(ss[|steps|])
  }

  /** No silent loss holds for every queue that can hold an element at all. */
  lemma NoSilentLossIffCapacity(capacity: nat)
    ensures NeverLosesSilently(capacity) <==> capacity >= 1
  {
    if capacity == 0 {
      var ss, steps := LosingRun();
      assert !NoSilentLoss(Visible(ss[|steps|]), |ss[|steps|].calls|);
    } else {
      forall ss: seq<State>, steps: seq<Step> | IsRun(capacity, ss, steps) && ss[|steps|].pc.Idle?
        ensures NoSilentLoss(Visible(ss[|steps|]), |ss[|steps|].calls|)
      {
        RunOk(capacity, ss, steps, |steps|);
      }
    }
  }

  /** Termination always gets through exactly when the queue holds the two elements its documentation asks for. */
  lemma DeliveryIffCapacity(capacity: nat)
    ensures AlwaysDelivers(capacity) <==> capacity >= 2
  {
    if capacity < 2 {
      var ss, steps := TerminationLostRun(capacity);
      assert !LastDelivered(ss[|steps|]);
    } else {
      forall ss: seq<State>, steps: seq<Step> | IsRun(capacity, ss, steps) && ss[|steps|].pc.Idle?
        ensures LastDelivered(ss[|steps|])
      {
        RunOk(capacity, ss, steps, |steps|);
      }
    }
  }

  // ----- Nothing is dropped while there is room -----

  /** The step is what makes an overflow event necessary: the system overflows, or there is no room for an event. */
  predicate IsCause(s: State, step: Step) {
    step.Begin? && (step.call == ReportOverflow || |s.queue| >= s.capacity)
  }

  ghost function Causes(ss: seq<State>, steps: seq<Step>, n: nat): nat
    requires n <= |steps| < |ss|
  {
    if n == 0 then 0 else Causes(ss, steps, n - 1) + if IsCause(ss[n - 1], steps[n - 1]) then 1 else 0
  }

  function Overflows(v: seq<Item>): nat {
    if v == [] then 0 else Overflows(v[..|v| - 1]) + if v[|v| - 1].Overflow? then 1 else 0
  }

  lemma {:induction false} OverflowsConcat(v: seq<Item>, w: seq<Item>)
    ensures Overflows(v + w) == Overflows(v) + Overflows(w)
    decreases |w|
  {
    if w == [] {
      assert v + w == v;
    } else {
      OverflowsConcat(v, w[..|w| - 1]);
      assert (v + w)[..|v| + |w| - 1] == v + w[..|w| - 1];
    }
  }

  /** An overflow event that is still to come. */
  function Owed(pc: Pc): nat { if pc.OfferFailed? || pc.QueueCleared? then 1 else 0 }

  lemma OverflowsStep(s: State, step: Step)
    requires Enabled(s, step)
    ensures var t := Next(s, step);
      Overflows(Visible(t)) + Owed(t.pc) <= Overflows(Visible(s)) + Owed(s.pc) + if IsCause(s, step) then 1 else 0
  {
    hide Overflows;
    var t := Next(s, step);
    OverflowsConcat(s.consumed, s.queue);
    OverflowsConcat(t.consumed, t.queue);
    OneItem();
    match step
    case Begin(call) => OverflowsConcat(s.queue, [Event(|s.calls|)]);
    case Clear =>
    case ForceOverflow => OverflowsConcat(s.queue, [Overflow]);
    case ForceEvent => OverflowsConcat(s.queue, [Event(s.pc.n)]);
    case Poll => assert Visible(t) == Visible(s);
  }

  lemma OneItem()
    ensures Overflows([]) == 0 && Overflows([Overflow]) == 1 && forall n :: Overflows([Event(n)]) == 0
  {
    assert [Overflow][..0] == [];
    forall n ensures Overflows([Event(n)]) == 0 {
      assert [Event(n)][..0] == [];
    }
  }

  /** Every overflow event has a cause of its own: an overflow of the system, or an offer that met a full queue. */
  lemma {:induction false} OverflowsHaveCauses(capacity: nat, ss: seq<State>, steps: seq<Step>, n: nat)
    requires IsRun(capacity, ss, steps) && n < |ss|
    ensures Overflows(Visible(ss[n])) + Owed(ss[n].pc) <= Causes(ss, steps, n)
    decreases n
  {
    hide Overflows, Next, IsCause;
    if n == 0 {
      OneItem();
      assert Visible(ss[0]) == [];
    } else {
      OverflowsHaveCauses(capacity, ss, steps, n - 1);
      OverflowsStep(ss[n - 1], steps[n - 1]);
    }
  }

  /** An event for which there is room is queued behind what is there, and everything stays. */
  lemma RoomMeansQueued(s: State, call: Call)
    requires s.pc.Idle? && |s.queue| < s.capacity && call != ReportOverflow
    ensures var t := Next(s, Begin(call));
      && t.pc.Idle? && t.queue == s.queue + [Event(|s.calls|)] && t.consumed == s.consumed && t.calls == s.calls + [call]
      && Visible(t) == Visible(s) + [Event(|s.calls|)]
  {
    assert s.consumed + (s.queue + [Event(|s.calls|)]) == s.consumed + s.queue + [Event(|s.calls|)];
  }

  /** What is visible is exactly the events of all the calls. */
  ghost predicate AllThere(s: State) {
    s.pc.Idle? && |Visible(s)| == |s.calls| && forall i :: 0 <= i < |s.calls| ==> Visible(s)[i] == Event(i)
  }

  /** While no cause for an overflow has come up, the consumer gets every event, in order. */
  lemma {:induction false} NothingDroppedWithoutCause(capacity: nat, ss: seq<State>, steps: seq<Step>, n: nat)
    requires IsRun(capacity, ss, steps) && n < |ss| && Causes(ss, steps, n) == 0
    ensures AllThere(ss[n])
    decreases n
  {
    if n > 0 {
      NothingDroppedWithoutCause(capacity, ss, steps, n - 1);
      var s, step := ss[n - 1], steps[n - 1];
      assert s.capacity == capacity by {
        CapacityStays(capacity, ss, steps, n - 1);
      }
      match step
      case Begin(call) => RoomMeansQueued(s, call);
      case Poll => assert Visible(ss[n]) == Visible(s);
      case _ =>
    }
  }

  lemma {:induction false} CapacityStays(capacity: nat, ss: seq<State>, steps: seq<Step>, n: nat)
    requires IsRun(capacity, ss, steps) && n < |ss|
    ensures ss[n].capacity == capacity
    decreases n
  {
    if n > 0 {
      CapacityStays(capacity, ss, steps, n - 1);
    }
  }

  lemma LosingRun() returns (ss: seq<State>, steps: seq<Step>)
    ensures IsRun(0, ss, steps) && ss[|steps|].pc.Idle?
    ensures !NoSilentLoss(Visible(ss[|steps|]), |ss[|steps|].calls|)
  {
    steps := [Begin(ReportEvent), Clear, ForceOverflow];
    var s0 := Initial(0);
    var s1 := Next(s0, steps[0]);
    var s2 := Next(s1, steps[1]);
    var s3 := Next(s2, steps[2]);
    ss := [s0, s1, s2, s3];
    assert Visible(s3) == [] && |s3.calls| == 1;
    assert !AccountedFor([], 0);
  }

  lemma TerminationLostRun(capacity: nat) returns (ss: seq<State>, steps: seq<Step>)
    requires capacity < 2
    ensures IsRun(capacity, ss, steps) && ss[|steps|].pc.Idle? && !LastDelivered(ss[|steps|])
  {
    var s0 := Initial(capacity);
    if capacity == 0 {
      steps := [Begin(ReportTermination), Clear, ForceOverflow, ForceEvent];
      var s1 := Next(s0, steps[0]);
      var s2 := Next(s1, steps[1]);
      var s3 := Next(s2, steps[2]);
      var s4 := Next(s3, steps[3]);
      ss := [s0, s1, s2, s3, s4];
      assert Visible(s4) == [];
    } else {
      steps := [Begin(ReportEvent), Begin(ReportTermination), Clear, ForceOverflow, ForceEvent];
      var s1 := Next(s0, steps[0]);
      var s2 := Next(s1, steps[1]);
      var s3 := Next(s2, steps[2]);
      var s4 := Next(s3, steps[3]);
      var s5 := Next(s4, steps[4]);
      ss := [s0, s1, s2, s3, s4, s5];
      assert Visible(s5) == [Overflow];
    }
  }

  // ----- The objects -----

  /** java.util.concurrent.BlockingQueue; `consumed` records what poll has returned. */
  class BlockingQueue {
    const capacity: nat
    var contents: seq<Item>
    ghost var consumed: seq<Item>

    constructor (capacity: nat)
      ensures this.capacity == capacity && contents == [] && consumed == []
    {
      this.capacity, contents, consumed := capacity, [], [];
    }

    method Offer(item: Item) returns (accepted: bool)
      modifies `contents
      ensures accepted == (|old(contents)| < capacity)
      ensures contents == if accepted then old(contents) + [item] else old(contents)
    {
      accepted := |contents| < capacity;
      if accepted {
        contents := contents + [item];
      }
    }

    method Clear()
      modifies `contents
      ensures contents == []
    {
      contents := [];
    }

    method Poll() returns (item: Option<Item>)
      modifies this
      ensures old(contents) == [] ==> item == None && contents == [] && consumed == old(consumed)
      ensures old(contents) != [] ==>
        item == Some(old(contents)[0]) && contents == old(contents)[1..] && consumed == old(consumed) + [old(contents)[0]]
    {
      if contents == [] {
        return None;
      }
      item := Some(contents[0]);
      consumed := consumed + [contents[0]];
      contents := contents[1..];
    }
  }

  class NativeFileWatcherCallback {
    const eventQueue: BlockingQueue
    var calls: seq<Call>  // the calls so far; the index of a call stands for its event object

    constructor (eventQueue: BlockingQueue)
      ensures this.eventQueue == eventQueue && calls == []
    {
      this.eventQueue, calls := eventQueue, [];
    }

    ghost function View(pc: Pc): State
      reads this, eventQueue
    {
      State(eventQueue.capacity, eventQueue.contents, eventQueue.consumed, calls, pc)
    }

    ghost predicate Valid()
      reads this, eventQueue
    {
      eventQueue.capacity >= 1 && StateOk(View(Idle))
    }

    /** The consumer may run at any time: it polls `times` times, or until the queue is empty. */
    method ConsumerRuns(times: nat, ghost pc: Pc)
      requires eventQueue.capacity >= 1 && StateOk(View(pc))
      modifies eventQueue
      ensures StateOk(View(pc))
      ensures Took(old(eventQueue.consumed), old(eventQueue.contents), eventQueue.consumed, eventQueue.contents, times)
    {
      hide StateOk, Took, Next;
      ghost var consumed, contents := eventQueue.consumed, eventQueue.contents;
      TookNothing(consumed, contents);
      for i := 0 to times
        invariant StateOk(View(pc))
        invariant Took(consumed, contents, eventQueue.consumed, eventQueue.contents, i)
      {
        ghost var before := View(pc);
        TookOneMore(consumed, contents, before.consumed, before.queue, i);
        var item := eventQueue.Poll();
        if item.Some? {
          NextOk(before, Poll);
          PollTakesFirst(before);
          assert View(pc) == Next(before, Poll);
        } else {
          assert View(pc) == before;
        }
      }
    }

    /**
     * `polls` says how often the consumer polls before each of the operations on the queue. With room
     * at the offer exactly the new event is added; otherwise what the consumer has not taken by then
     * is dropped, and an overflow event comes instead, before the event itself if it is forced in.
     */
    method QueueEvent(call: Call, polls: nat -> nat)
      requires Valid() && call != ReportOverflow
      modifies this, eventQueue
      ensures Valid() && calls == old(calls) + [call] && old(eventQueue.consumed) <= eventQueue.consumed
      ensures NoSilentLoss(eventQueue.consumed + eventQueue.contents, |calls|)
      ensures call in {ReportFailure, ReportTermination} && eventQueue.capacity >= 2 ==>
        EndsWithEvent(eventQueue.consumed + eventQueue.contents, |calls| - 1)
      ensures |old(eventQueue.contents)| < eventQueue.capacity || polls(0) > 0 ==>
        eventQueue.consumed + eventQueue.contents == old(eventQueue.consumed) + old(eventQueue.contents) + [Event(|old(calls)|)]
      ensures |old(eventQueue.contents)| >= eventQueue.capacity >= 2 && polls(0) == 0 ==>
        eventQueue.consumed + eventQueue.contents ==
          old(eventQueue.consumed) + FirstOf(old(eventQueue.contents), polls(1)) + [Overflow] +
          (if call in {ReportFailure, ReportTermination} then [Event(|old(calls)|)] else [])
    {
      hide StateOk, NoSilentLoss, EndsWithEvent, Took, FirstOf, Next;
      var deliverOnOverflow := DeliverOnOverflow(call);
      ghost var before := View(Idle);
      FitsCapacity(before);
      ConsumerRuns(polls(0), Idle);
      ghost var s := View(Idle);
      TookKeepsConsumed(before.consumed, before.queue, s.consumed, s.queue, polls(0));
      var n := |calls|;
      NextOk(s, Begin(call));
      BeginMeans(s, call);
      calls := calls + [call];
      var accepted := eventQueue.Offer(Event(n));
      if accepted {
        RoomAfterPolls(before, s, polls(0), n);
        assert View(Idle) == Next(s, Begin(call));
        IdleMeans(View(Idle));
        return;
      }
      FullAfterPolls(before, s, polls(0));
      assert View(OfferFailed(n)) == Next(s, Begin(call));
      ConsumerRuns(polls(1), OfferFailed(n));
      TookKeepsConsumed(s.consumed, s.queue, eventQueue.consumed, eventQueue.contents, polls(1));
      NextOk(View(OfferFailed(n)), Step.Clear);
      ClearMeans(View(OfferFailed(n)));
      eventQueue.Clear();
      ghost var deliver := if deliverOnOverflow then Some(n) else None;
      assert CallOf(View(OfferFailed(n)), n) == call;
      SignalOverflow(deliver, polls);
      if deliverOnOverflow {
        ForceQueueEvent(n, polls(3));
      }
      IdleMeans(View(Idle));
    }

    /** signalOverflow after the queue has been cleared. */
    method SignalOverflow(ghost deliver: Option<nat>, polls: nat -> nat)
      requires eventQueue.capacity >= 1 && eventQueue.contents == [] && StateOk(View(QueueCleared(deliver)))
      modifies eventQueue
      ensures StateOk(View(match deliver case None => Idle case Some(n) => OverflowQueued(n)))
      ensures eventQueue.consumed == old(eventQueue.consumed) && eventQueue.contents == [Overflow]
    {
      hide StateOk;
      ConsumerRuns(polls(2), QueueCleared(deliver));
      NextOk(View(QueueCleared(deliver)), ForceOverflow);
      var _ := eventQueue.Offer(Overflow);
    }

    method ForceQueueEvent(n: nat, polls: nat)
      requires eventQueue.capacity >= 1 && StateOk(View(OverflowQueued(n))) && |eventQueue.contents| <= 1
      modifies eventQueue
      ensures StateOk(View(Idle)) && old(eventQueue.consumed) <= eventQueue.consumed
      ensures eventQueue.capacity >= 2 ==>
        eventQueue.consumed + eventQueue.contents == old(eventQueue.consumed) + old(eventQueue.contents) + [Event(n)]
    {
      hide StateOk;
      ConsumerRuns(polls, OverflowQueued(n));
      ghost var v := eventQueue.consumed + eventQueue.contents;
      NextOk(View(OverflowQueued(n)), ForceEvent);
      var accepted := eventQueue.Offer(Event(n));
      if accepted {
        assert eventQueue.consumed + eventQueue.contents == v + [Event(n)];
      }
    }

    /** An overflow in the operating system's routines: everything queued that the consumer has not taken is dropped. */
    method ReportOverflowCall(polls: nat -> nat)
      requires Valid()
      modifies this, eventQueue
      ensures Valid() && calls == old(calls) + [ReportOverflow] && old(eventQueue.consumed) <= eventQueue.consumed
      ensures eventQueue.consumed == old(eventQueue.consumed) + FirstOf(old(eventQueue.contents), polls(0))
      ensures eventQueue.contents == [Overflow]
    {
      hide StateOk;
      ConsumerRuns(polls(0), Idle);
      ghost var s := View(Idle);
      NextOk(s, Begin(ReportOverflow));
      calls := calls + [ReportOverflow];
      eventQueue.Clear();
      assert View(QueueCleared(None)) == Next(s, Begin(ReportOverflow));
      SignalOverflow(None, polls);
    }
  }

  function FirstOf(contents: seq<Item>, times: nat): seq<Item> {
    if times <= |contents| then contents[..times] else contents
  }

  /** The consumer has polled `times` times. */
  ghost predicate Took(consumed: seq<Item>, contents: seq<Item>, consumed': seq<Item>, contents': seq<Item>, times: nat) {
    consumed' == consumed + FirstOf(contents, times) && contents' == RestOf(contents, times)
  }

  function RestOf(contents: seq<Item>, times: nat): seq<Item> {
    if times <= |contents| then contents[times..] else []
  }

  lemma TookNothing(consumed: seq<Item>, contents: seq<Item>)
    ensures Took(consumed, contents, consumed, contents, 0)
  {
    assert contents[..0] == [] && contents[0..] == contents && consumed + [] == consumed;
  }

  lemma TookOneMore(consumed: seq<Item>, contents: seq<Item>, consumed': seq<Item>, contents': seq<Item>, times: nat)
    requires Took(consumed, contents, consumed', contents', times)
    ensures contents' == [] ==> Took(consumed, contents, consumed', contents', times + 1)
    ensures contents' != [] ==> Took(consumed, contents, consumed' + [contents'[0]], contents'[1..], times + 1)
  {
    if times < |contents| {
      assert contents[..times + 1] == contents[..times] + [contents[times]];
      assert contents[times..][1..] == contents[times + 1..];
      assert consumed + contents[..times] + [contents[times]] == consumed + (contents[..times] + [contents[times]]);
    }
  }

  lemma TookKeepsConsumed(consumed: seq<Item>, contents: seq<Item>, consumed': seq<Item>, contents': seq<Item>, times: nat)
    requires Took(consumed, contents, consumed', contents', times)
    ensures consumed <= consumed' && consumed' == consumed + FirstOf(contents, times)
  {}

  lemma PollTakesFirst(s: State)
    requires s.queue != []
    ensures Next(s, Poll) == s.(consumed := s.consumed + [s.queue[0]], queue := s.queue[1..])
  {}

  lemma BeginMeans(s: State, call: Call)
    requires s.pc.Idle? && call != ReportOverflow
    ensures Next(s, Begin(call)) ==
      if |s.queue| < s.capacity then s.(calls := s.calls + [call], queue := s.queue + [Event(|s.calls|)])
      else s.(calls := s.calls + [call], pc := OfferFailed(|s.calls|))
  {}

  lemma ClearMeans(s: State)
    requires s.pc.OfferFailed?
    ensures Next(s, Clear) ==
      s.(queue := [], pc := QueueCleared(if DeliverOnOverflow(CallOf(s, s.pc.n)) then Some(s.pc.n) else None))
  {}

  lemma RoomAfterPolls(before: State, s: State, times: nat, n: nat)
    requires Took(before.consumed, before.queue, s.consumed, s.queue, times) && |s.queue| < s.capacity == before.capacity
    ensures s.consumed + (s.queue + [Event(n)]) == before.consumed + before.queue + [Event(n)]
    ensures !(|before.queue| >= before.capacity && times == 0)
  {
    FirstAndRest(before.queue, times);
    var first, rest := FirstOf(before.queue, times), RestOf(before.queue, times);
    assert before.consumed + first + (rest + [Event(n)]) == before.consumed + (first + rest) + [Event(n)];
  }

  lemma FirstAndRest(contents: seq<Item>, times: nat)
    ensures FirstOf(contents, times) + RestOf(contents, times) == contents
  {}

  lemma FullAfterPolls(before: State, s: State, times: nat)
    requires Took(before.consumed, before.queue, s.consumed, s.queue, times)
    requires |before.queue| <= before.capacity && |s.queue| >= before.capacity >= 1
    ensures times == 0 && |before.queue| == before.capacity && s.consumed == before.consumed && s.queue == before.queue
  {
    TookNothing(before.consumed, before.queue);
  }

  lemma FitsCapacity(s: State)
    requires StateOk(s)
    ensures |s.queue| <= s.capacity
  {}
}
