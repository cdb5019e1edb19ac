/**
 * The macOS server: FSEvents call back on a dispatch queue, the callbacks hand their events to
 * the run loop through a blocking queue, and a poison pill ends the run loop.
 */
module AppleServer {
  import opened Prelude
  import opened WatchedSet

  datatype QueueItem = FileEvent(event: nat) | ErrorEvent | PoisonPill

  /** shutdownRunLoop: how far it has got. */
  datatype Shutdown = NotCalled | StreamsStopped | DispatchDrained | PillSent

  /**
   * `dispatch` holds the callbacks that are queued or running, each with the events it has not
   * handed over yet; `enqueued` records everything that ever entered the event queue.
   */
  datatype State = State(
    dispatch: seq<seq<nat>>, queue: seq<QueueItem>, handled: seq<QueueItem>, enqueued: seq<QueueItem>,
    shutdown: Shutdown, loopEnded: bool)

  const INITIAL := State([], [], [], [], NotCalled, false)

  datatype Step =
    | StreamDelivers(events: seq<nat>)   // a live stream schedules a callback
    | CallbackEnqueues                   // the running callback hands over its next event
    | CallbackThrows                     // ... or fails and reports an error instead
    | CallbackReturns
    | StopStreams                        // watchPoints.clear()
    | DispatchSync                       // dispatch_sync_f: returns once the dispatch queue is empty
    | SendPill
    | LoopDequeues

  predicate Enabled(s: State, step: Step) {
    match step
    case StreamDelivers(_) => s.shutdown.NotCalled?
    case CallbackEnqueues => s.dispatch != [] && s.dispatch[0] != []
    case CallbackThrows => s.dispatch != [] && s.dispatch[0] != []
    case CallbackReturns => s.dispatch != [] && s.dispatch[0] == []
    case StopStreams => s.shutdown.NotCalled?
    case DispatchSync => s.shutdown.StreamsStopped? && s.dispatch == []
    case SendPill => s.shutdown.DispatchDrained?
    case LoopDequeues => !s.loopEnded && s.queue != []
  }

  function Enqueue(s: State, item: QueueItem): State {
    s.(queue := s.queue + [item], enqueued := s.enqueued + [item])
  }

  function Next(s: State, step: Step): State
    requires Enabled(s, step)
  {
    match step
    case StreamDelivers(events) => s.(dispatch := s.dispatch + [events])
    case CallbackEnqueues =>
      Enqueue(s, FileEvent(s.dispatch[0][0])).(dispatch := [s.dispatch[0][1..]] + s.dispatch[1..])
    case CallbackThrows => Enqueue(s, ErrorEvent).(dispatch := [[]] + s.dispatch[1..])
    case CallbackReturns => s.(dispatch := s.dispatch[1..])
    case StopStreams => s.(shutdown := StreamsStopped)
    case DispatchSync => s.(shutdown := DispatchDrained)
    case SendPill => Enqueue(s, PoisonPill).(shutdown := PillSent)
    case LoopDequeues =>
      if s.queue[0].PoisonPill? then s.(queue := s.queue[1..], loopEnded := true)
      else s.(queue := s.queue[1..], handled := s.handled + [s.queue[0]])
  }

  ghost predicate IsRun(ss: seq<State>, steps: seq<Step>) {
    && |ss| == |steps| + 1 && ss[0] == INITIAL
    && forall i :: 0 <= i < |steps| ==> Enabled(ss[i], steps[i]) && ss[i + 1] == Next(ss[i], steps[i])
  }

  ghost predicate NoPill(items: seq<QueueItem>) {
    forall i :: 0 <= i < |items| ==> !items[i].PoisonPill?
  }

  ghost predicate EndsWithPill(items: seq<QueueItem>) {
    items != [] && forall i :: 0 <= i < |items| ==> (items[i].PoisonPill? <==> i == |items| - 1)
  }

  ghost predicate StateOk(s: State) {
    && (s.shutdown.DispatchDrained? || s.shutdown.PillSent? ==> s.dispatch == [])
    && NoPill(s.handled)
    && if s.loopEnded then s.shutdown.PillSent? && s.queue == [] && s.enqueued == s.handled + [PoisonPill]
       else s.enqueued == s.handled + s.queue && if s.shutdown.PillSent? then EndsWithPill(s.queue) else NoPill(s.queue)
  }

  lemma EnqueueOk(s: State, item: QueueItem)
    requires StateOk(s) && !s.shutdown.PillSent?
    ensures Enqueue(s, item).enqueued == s.handled + Enqueue(s, item).queue
  {
  }

  lemma DequeueOk(s: State)
    requires StateOk(s) && Enabled(s, LoopDequeues)
    ensures StateOk(Next(s, LoopDequeues))
  {
    assert s.queue == [s.queue[0]] + s.queue[1..];
    if s.queue[0].PoisonPill? {
      assert |s.queue| == 1;
    } else {
      assert s.handled + s.queue == s.handled + [s.queue[0]] + s.queue[1..];
    }
  }

  lemma NextOk(s: State, step: Step)
    requires StateOk(s) && Enabled(s, step)
    ensures StateOk(Next(s, step))
  {
    match step
    case LoopDequeues => DequeueOk(s);
    case CallbackEnqueues => EnqueueOk(s, FileEvent(s.dispatch[0][0]));
    case CallbackThrows => EnqueueOk(s, ErrorEvent);
    case SendPill => EnqueueOk(s, PoisonPill);
    case _ =>
  }

  lemma {:induction false} RunOk(ss: seq<State>, steps: seq<Step>, n: nat)
    requires IsRun(ss, steps) && n < |ss|
    ensures StateOk(ss[n])
    decreases n
  {
    if n > 0 {
      RunOk(ss, steps, n - 1);
      NextOk(ss[n - 1], steps[n - 1]);
    }
  }

  /**
   * In every interleaving the run loop has handled the first items that were enqueued, in order;
   * when it ends it has handled all of them but the pill, which is the last item there ever is.
   */
  lemma RunLoopHandlesEverything(ss: seq<State>, steps: seq<Step>, n: nat)
    requires IsRun(ss, steps) && n < |ss|
    ensures ss[n].handled <= ss[n].enqueued && NoPill(ss[n].handled)
    ensures ss[n].loopEnded ==> ss[n].enqueued == ss[n].handled + [PoisonPill] && ss[n].queue == [] && ss[n].dispatch == []
  {
    RunOk(ss, steps, n);
  }

  /** Nothing is enqueued after the pill. */
  lemma {:induction false} PillIsLast(ss: seq<State>, steps: seq<Step>, i: nat, j: nat)
    requires IsRun(ss, steps) && i <= j < |ss| && ss[i].shutdown.PillSent?
    ensures ss[j].enqueued == ss[i].enqueued && ss[j].shutdown.PillSent?
    decreases j - i
  {
    if i < j {
      PillIsLast(ss, steps, i, j - 1);
      RunOk(ss, steps, j - 1);
    }
  }

  // ----- What the streams deliver is what is enqueued -----

  /** All the events that the streams have scheduled callbacks for in the first `n` steps. */
  ghost function Scheduled(steps: seq<Step>, n: nat): seq<nat>
    requires n <= |steps|
  {
    if n == 0 then []
    else Scheduled(steps, n - 1) + if steps[n - 1].StreamDelivers? then steps[n - 1].events else []
  }

  /** An event a callback is done with: handed over, or lost because the hand-over failed. */
  datatype Fate = Fate(event: nat, kept: bool)

  /** What has become of the scheduled events; a callback that fails loses its remaining ones. */
  ghost function Fates(ss: seq<State>, steps: seq<Step>, n: nat): seq<Fate>
    requires n <= |steps| < |ss|
  {
    if n == 0 then []
    else
      var d := ss[n - 1].dispatch;
      Fates(ss, steps, n - 1) +
      if d == [] || d[0] == [] then []
      else if steps[n - 1].CallbackEnqueues? then [Fate(d[0][0], true)]
      else if steps[n - 1].CallbackThrows? then LostOnes(d[0])
      else []
  }

  function LostOnes(events: seq<nat>): (fates: seq<Fate>)
    ensures |fates| == |events| && forall i :: 0 <= i < |events| ==> fates[i] == Fate(events[i], false)
  {
    seq(|events|, i requires 0 <= i < |events| => Fate(events[i], false))
  }

  function EventsOf(fates: seq<Fate>): (events: seq<nat>)
    ensures |events| == |fates| && forall i :: 0 <= i < |fates| ==> events[i] == fates[i].event
  {
    seq(|fates|, i requires 0 <= i < |fates| => fates[i].event)
  }

  function Kept(fates: seq<Fate>): seq<nat> {
    if fates == [] then []
    else Kept(fates[..|fates| - 1]) + if fates[|fates| - 1].kept then [fates[|fates| - 1].event] else []
  }

  function FileEvents(items: seq<QueueItem>): seq<nat> {
    if items == [] then []
    else FileEvents(items[..|items| - 1]) + if items[|items| - 1].FileEvent? then [items[|items| - 1].event] else []
  }

  function Errors(items: seq<QueueItem>): nat {
    if items == [] then 0 else Errors(items[..|items| - 1]) + if items[|items| - 1].ErrorEvent? then 1 else 0
  }

  ghost function Throws(steps: seq<Step>, n: nat): nat
    requires n <= |steps|
  {
    if n == 0 then 0 else Throws(steps, n - 1) + if steps[n - 1].CallbackThrows? then 1 else 0
  }

  /** What the callbacks that are queued or running have not handed over yet. */
  function Flat(dispatch: seq<seq<nat>>): seq<nat> {
    if dispatch == [] then [] else dispatch[0] + Flat(dispatch[1..])
  }

  lemma {:induction false} FlatAppend(dispatch: seq<seq<nat>>, events: seq<nat>)
    ensures Flat(dispatch + [events]) == Flat(dispatch) + events
    decreases |dispatch|
  {
    if dispatch == [] {
      assert [events][1..] == [] && events + [] == events;
    } else {
      assert (dispatch + [events])[1..] == dispatch[1..] + [events];
      FlatAppend(dispatch[1..], events);
      assert dispatch[0] + (Flat(dispatch[1..]) + events) == (dispatch[0] + Flat(dispatch[1..])) + events;
    }
  }

  lemma {:induction false} KeptLost(fates: seq<Fate>, events: seq<nat>)
    ensures Kept(fates + LostOnes(events)) == Kept(fates)
    decreases |events|
  {
    if events == [] {
      assert fates + LostOnes(events) == fates;
    } else {
      KeptLost(fates, events[..|events| - 1]);
      assert (fates + LostOnes(events))[..|fates| + |events| - 1] == fates + LostOnes(events[..|events| - 1]);
    }
  }

  lemma KeptOne(fates: seq<Fate>, event: nat)
    ensures Kept(fates + [Fate(event, true)]) == Kept(fates) + [event]
  {
    assert (fates + [Fate(event, true)])[..|fates|] == fates;
  }

  lemma OneMoreItem(items: seq<QueueItem>, item: QueueItem)
    ensures FileEvents(items + [item]) == FileEvents(items) + if item.FileEvent? then [item.event] else []
    ensures Errors(items + [item]) == Errors(items) + if item.ErrorEvent? then 1 else 0
  {
    assert (items + [item])[..|items|] == items;
  }

  /** `fates` and the dispatch queue together are the scheduled events, and the queue has been given those that were kept. */
  ghost predicate Accounts(s: State, scheduled: seq<nat>, fates: seq<Fate>, throws: nat) {
    scheduled == EventsOf(fates) + Flat(s.dispatch) && FileEvents(s.enqueued) == Kept(fates) && Errors(s.enqueued) == throws
  }

  lemma EnqueueAccounts(s: State, scheduled: seq<nat>, fates: seq<Fate>, throws: nat)
    requires Accounts(s, scheduled, fates, throws) && Enabled(s, CallbackEnqueues)
    ensures Accounts(Next(s, CallbackEnqueues), scheduled, fates + [Fate(s.dispatch[0][0], true)], throws)
  {
    hide Kept, FileEvents, Errors;
    var d, e := s.dispatch, s.dispatch[0][0];
    KeptOne(fates, e);
    OneMoreItem(s.enqueued, QueueItem.FileEvent(e));
    assert ([d[0][1..]] + d[1..])[1..] == d[1..];
    assert d[0] == [e] + d[0][1..];
    assert EventsOf(fates + [Fate(e, true)]) == EventsOf(fates) + [e];
    assert EventsOf(fates) + ([e] + d[0][1..] + Flat(d[1..])) == EventsOf(fates) + [e] + (d[0][1..] + Flat(d[1..]));
  }

  lemma ThrowAccounts(s: State, scheduled: seq<nat>, fates: seq<Fate>, throws: nat)
    requires Accounts(s, scheduled, fates, throws) && Enabled(s, CallbackThrows)
    ensures Accounts(Next(s, CallbackThrows), scheduled, fates + LostOnes(s.dispatch[0]), throws + 1)
  {
    hide Kept, FileEvents, Errors;
    var d := s.dispatch;
    KeptLost(fates, d[0]);
    OneMoreItem(s.enqueued, ErrorEvent);
    assert ([[]] + d[1..])[1..] == d[1..];
    assert EventsOf(fates + LostOnes(d[0])) == EventsOf(fates) + d[0];
    assert EventsOf(fates) + (d[0] + Flat(d[1..])) == EventsOf(fates) + d[0] + ([] + Flat(d[1..]));
  }

  lemma OtherAccounts(s: State, step: Step, scheduled: seq<nat>, fates: seq<Fate>, throws: nat)
    requires Accounts(s, scheduled, fates, throws) && Enabled(s, step) && !step.CallbackEnqueues? && !step.CallbackThrows?
    ensures Accounts(Next(s, step), scheduled + if step.StreamDelivers? then step.events else [], fates, throws)
  {
    hide Kept, FileEvents, Errors;
    match step
    case StreamDelivers(events) =>
      FlatAppend(s.dispatch, events);
      assert EventsOf(fates) + Flat(s.dispatch) + events == EventsOf(fates) + (Flat(s.dispatch) + events);
    case CallbackReturns => assert [] + Flat(s.dispatch[1..]) == Flat(s.dispatch[1..]);
    case SendPill => OneMoreItem(s.enqueued, PoisonPill);
    case _ =>
  }

  lemma {:induction false} RunAccounts(ss: seq<State>, steps: seq<Step>, n: nat)
    requires IsRun(ss, steps) && n < |ss|
    ensures Accounts(ss[n], Scheduled(steps, n), Fates(ss, steps, n), Throws(steps, n))
    decreases n
  {
    hide Next, Accounts;
    if n == 0 {
      NothingYet();
    } else {
      RunAccounts(ss, steps, n - 1);
      var s, step := ss[n - 1], steps[n - 1];
      var scheduled, fates, throws := Scheduled(steps, n - 1), Fates(ss, steps, n - 1), Throws(steps, n - 1);
      if step.CallbackEnqueues? {
        EnqueueAccounts(s, scheduled, fates, throws);
      } else if step.CallbackThrows? {
        ThrowAccounts(s, scheduled, fates, throws);
      } else {
        OtherAccounts(s, step, scheduled, fates, throws);
        assert fates + [] == fates;
      }
      assert scheduled + [] == scheduled;
    }
  }

  lemma NothingYet()
    ensures Accounts(INITIAL, [], [], 0)
  {}

  /**
   * In every run the events the streams delivered are, in order, those the callbacks are done with
   * and those still on the dispatch queue. The queue has been given exactly the kept ones, in order,
   * and an error for every callback that failed.
   */
  lemma DeliveredIsEnqueued(ss: seq<State>, steps: seq<Step>, n: nat)
    requires IsRun(ss, steps) && n < |ss|
    ensures Scheduled(steps, n) == EventsOf(Fates(ss, steps, n)) + Flat(ss[n].dispatch)
    ensures FileEvents(ss[n].enqueued) == Kept(Fates(ss, steps, n)) && Errors(ss[n].enqueued) == Throws(steps, n)
  {
    RunAccounts(ss, steps, n);
  }

  lemma {:induction false} NothingLost(ss: seq<State>, steps: seq<Step>, n: nat)
    requires n <= |steps| < |ss| && Throws(steps, n) == 0
    ensures Kept(Fates(ss, steps, n)) == EventsOf(Fates(ss, steps, n))
    decreases n
  {
    if n > 0 {
      NothingLost(ss, steps, n - 1);
      var fates, d := Fates(ss, steps, n - 1), ss[n - 1].dispatch;
      if steps[n - 1].CallbackEnqueues? && d != [] && d[0] != [] {
        KeptOne(fates, d[0][0]);
        assert EventsOf(fates + [Fate(d[0][0], true)]) == EventsOf(fates) + [d[0][0]];
      } else {
        assert fates + [] == fates;
      }
    }
  }

  /** If no callback failed, the run loop has handled every event that the streams delivered, in order, when it ends. */
  lemma EverythingDeliveredIsHandled(ss: seq<State>, steps: seq<Step>, n: nat)
    requires IsRun(ss, steps) && n < |ss| && ss[n].loopEnded && Throws(steps, n) == 0
    ensures FileEvents(ss[n].handled) == Scheduled(steps, n) && Errors(ss[n].handled) == 0
  {
    DeliveredIsEnqueued(ss, steps, n);
    NothingLost(ss, steps, n);
    RunLoopHandlesEverything(ss, steps, n);
    OneMoreItem(ss[n].handled, PoisonPill);
    assert Scheduled(steps, n) == EventsOf(Fates(ss, steps, n)) + [];
  }

  // ----- The shutdown comes to an end -----

  function Work(dispatch: seq<seq<nat>>): nat {
    if dispatch == [] then 0 else 2 + 2 * |dispatch[0]| + Work(dispatch[1..])
  }

  /** What is left to do once the streams have been stopped. */
  function Remaining(s: State): nat {
    Work(s.dispatch) + |s.queue| +
    match s.shutdown
    case NotCalled => 5
    case StreamsStopped => 4
    case DispatchDrained => 3
    case PillSent => 0
  }

  lemma EveryStepUsesSomeUp(s: State, step: Step)
    requires StateOk(s) && Enabled(s, step) && !step.StreamDelivers?
    ensures Remaining(Next(s, step)) < Remaining(s)
  {
    if s.dispatch != [] {
      var d := s.dispatch;
      assert ([d[0][..0]] + d[1..])[1..] == d[1..];
      if d[0] != [] {
        assert ([d[0][1..]] + d[1..])[1..] == d[1..];
      }
    }
  }

  /** Once shutdown has been called the run loop ends: until then some thread can go on, and only finitely often. */
  lemma ShutdownGoesOn(s: State) returns (step: Step)
    requires StateOk(s) && !s.shutdown.NotCalled? && !s.loopEnded
    ensures Enabled(s, step) && !step.StreamDelivers? && Remaining(Next(s, step)) < Remaining(s)
  {
    if s.dispatch != [] {
      step := if s.dispatch[0] == [] then CallbackReturns else CallbackEnqueues;
    } else {
      step := match s.shutdown
        case StreamsStopped => DispatchSync
        case DispatchDrained => SendPill
        case _ => LoopDequeues;
    }
    EveryStepUsesSomeUp(s, step);
  }

  lemma {:induction false} RunsAfterShutdownAreShort(ss: seq<State>, steps: seq<Step>, i: nat, j: nat)
    requires IsRun(ss, steps) && i <= j < |ss| && !ss[i].shutdown.NotCalled?
    ensures j - i + Remaining(ss[j]) <= Remaining(ss[i]) && !ss[j].shutdown.NotCalled?
    decreases j
  {
    hide Remaining;
    if i < j {
      RunsAfterShutdownAreShort(ss, steps, i, j - 1);
      RunOk(ss, steps, j - 1);
      EveryStepUsesSomeUp(ss[j - 1], steps[j - 1]);
    }
  }

  /** No thread can go on. */
  ghost predicate Maximal(s: State) {
    forall step :: !Enabled(s, step)
  }

  /**
   * Every run that has gone as far as it can after the streams were stopped has ended the run loop,
   * with everything handled that was ever handed over; and every run gets there.
   */
  lemma ShutdownCompletes(ss: seq<State>, steps: seq<Step>, i: nat)
    requires IsRun(ss, steps) && i < |ss| && !ss[i].shutdown.NotCalled?
    ensures |steps| - i <= Remaining(ss[i])
    ensures var s := ss[|steps|];
      Maximal(s) <==> s.loopEnded && s.dispatch == [] && s.queue == [] && s.enqueued == s.handled + [PoisonPill]
  {
    var s := ss[|steps|];
    RunsAfterShutdownAreShort(ss, steps, i, |steps|);
    RunOk(ss, steps, |steps|);
    if Maximal(s) && !s.loopEnded {
      var _ := ShutdownGoesOn(s);
    }
  }

  // ----- The objects -----

  class BlockingQueue<T> {
    var items: seq<T>

    constructor ()
      ensures items == []
    {
      items := [];
    }

    method Enqueue(item: T)
      modifies this
      ensures items == old(items) + [item]
    {
      items := items + [item];
    }

    /** Blocks while the queue is empty, so it is modelled for a queue that is not. */
    method Dequeue() returns (item: T)
      requires items != []
      modifies this
      ensures [item] + items == old(items)
    {
      item := items[0];
      items := items[1..];
    }
  }

  function Joined(feed: seq<seq<QueueItem>>): seq<QueueItem> {
    if feed == [] then [] else feed[0] + Joined(feed[1..])
  }

  class Server {
    /** The FSEvents stream of every watched path. */
    var watchPoints: map<Path, nat>
    const eventQueue: BlockingQueue<QueueItem>

    constructor ()
      ensures watchPoints == map[] && fresh(eventQueue) && eventQueue.items == []
    {
      watchPoints := map[];
      eventQueue := new BlockingQueue();
    }

    /** `streams` says which stream is started for each path, or that it cannot be started. */
    method RegisterPaths(paths: seq<Path>, streams: seq<Option<nat>>) returns (added: nat)
      requires |paths| == |streams|
      modifies `watchPoints
      ensures (watchPoints, added) == AddAll(old(watchPoints), paths, streams)
    {
      added := 0;
      ghost var all := AddAll(watchPoints, paths, streams);
      assert paths[0..] == paths && streams[0..] == streams;
      while added < |paths|
        invariant added <= |paths|
        invariant var (rest, more) := AddAll(watchPoints, paths[added..], streams[added..]); all == (rest, added + more)
      {
        assert paths[added..][1..] == paths[added + 1..] && streams[added..][1..] == streams[added + 1..];
        if paths[added] in watchPoints || streams[added].None? {
          return;
        }
        watchPoints := watchPoints[paths[added] := streams[added].value];
        added := added + 1;
      }
    }

    method UnregisterPaths(paths: seq<Path>) returns (success: bool)
      modifies `watchPoints
      ensures (watchPoints, success) == EraseAll(old(watchPoints), paths)
    {
      success := true;
      ghost var all := EraseAll(watchPoints, paths);
      assert paths[0..] == paths;
      for i := 0 to |paths|
        invariant var (rest, later) := EraseAll(watchPoints, paths[i..]); all == (rest, success && later)
      {
        assert paths[i..][1..] == paths[i + 1..];
        if paths[i] !in watchPoints {
          success := false;
        }
        watchPoints := watchPoints - {paths[i]};
      }
    }

    /** The callback of a stream; `throwsAt` is the event whose hand-over fails, if any. */
    method HandleEvents(events: seq<nat>, throwsAt: Option<nat>)
      modifies eventQueue
      ensures var done := if throwsAt.Some? && throwsAt.value < |events| then events[..throwsAt.value] else events;
        eventQueue.items == old(eventQueue.items) + seq(|done|, i requires 0 <= i < |done| => FileEvent(done[i])) +
                            (if |done| < |events| then [ErrorEvent] else [])
    {
      for i := 0 to |events|
        invariant throwsAt.Some? ==> i <= throwsAt.value
        invariant eventQueue.items == old(eventQueue.items) + seq(i, k requires 0 <= k < i => FileEvent(events[k]))
      {
        if throwsAt == Some(i) {
          eventQueue.Enqueue(ErrorEvent);
          return;
        }
        eventQueue.Enqueue(FileEvent(events[i]));
      }
    }

    /**
     * The run loop. `feed[i]` is what other threads enqueue before its `i`-th look at the queue; the
     * pill is the last item, as shutdownRunLoop makes sure.
     */
    method RunLoop(feed: seq<seq<QueueItem>>) returns (handled: seq<QueueItem>)
      requires EndsWithPill(eventQueue.items + Joined(feed))
      modifies eventQueue
      ensures old(eventQueue.items) + Joined(feed) == handled + [PoisonPill]
      ensures NoPill(handled) && eventQueue.items == []
    {
      handled := [];
      var turn := 0;
      ghost var all := eventQueue.items + Joined(feed);
      HandingStarts(eventQueue.items, feed);
      hide *;
      while true
        invariant turn <= |feed| && Handing(handled, eventQueue.items, feed[turn..], all)
        decreases |feed| - turn, |eventQueue.items|
      {
        if turn < |feed| {
          Fed(handled, eventQueue.items, feed, turn, all);
          eventQueue.items := eventQueue.items + feed[turn];
          turn := turn + 1;
          if eventQueue.items == [] {
            continue;
          }
        }
        Dequeued(handled, eventQueue.items, feed[turn..], all);
        var item := eventQueue.Dequeue();
        if item.PoisonPill? {
          break;
        }
        handled := handled + [item];
      }
    }
  }

  /** What the run loop has handled, what waits for it and what is still to be enqueued make up all the items. */
  ghost predicate Handing(handled: seq<QueueItem>, queue: seq<QueueItem>, feed: seq<seq<QueueItem>>, all: seq<QueueItem>) {
    EndsWithPill(all) && NoPill(handled) && all == handled + (queue + Joined(feed))
  }

  lemma HandingStarts(queue: seq<QueueItem>, feed: seq<seq<QueueItem>>)
    requires EndsWithPill(queue + Joined(feed))
    ensures Handing([], queue, feed[0..], queue + Joined(feed))
  {
    assert feed[0..] == feed;
  }

  lemma Fed(handled: seq<QueueItem>, queue: seq<QueueItem>, feed: seq<seq<QueueItem>>, turn: nat, all: seq<QueueItem>)
    requires turn < |feed| && Handing(handled, queue, feed[turn..], all)
    ensures Handing(handled, queue + feed[turn], feed[turn + 1..], all)
  {
    assert feed[turn..][1..] == feed[turn + 1..];
    assert queue + (feed[turn] + Joined(feed[turn + 1..])) == (queue + feed[turn]) + Joined(feed[turn + 1..]);
  }

  lemma Dequeued(handled: seq<QueueItem>, queue: seq<QueueItem>, feed: seq<seq<QueueItem>>, all: seq<QueueItem>)
    requires Handing(handled, queue, feed, all) && (queue != [] || feed == [])
    ensures queue != []
    ensures queue[0].PoisonPill? ==> queue[1..] == [] && all == handled + [PoisonPill]
    ensures !queue[0].PoisonPill? ==> Handing(handled + [queue[0]], queue[1..], feed, all)
    ensures NoPill(handled)
  {
    var rest := queue + Joined(feed);
    assert rest != [] by {
      assert all[|all| - 1].PoisonPill?;
    }
    assert all[|handled|] == queue[0];
    if queue[0].PoisonPill? {
      assert |rest| == 1;
    } else {
      assert all == (handled + [queue[0]]) + (queue[1..] + Joined(feed));
    }
  }
}
