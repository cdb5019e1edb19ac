/** The run loop of the Linux server: poll, then either note the shutdown or empty the inotify descriptor. */
module LinuxRunLoop {
  import opened Prelude
  import opened InotifyKernel
  import opened InotifyRecords
  import opened LinuxRegistry
  import opened LinuxSystem
  import opened LinuxHistory
  import opened LinuxServer
  import opened LinuxDrain

  /** The eventfd through which other threads ask for the shutdown; it is readable while the counter is positive. */
  class ShutdownEvent {
    var counter: nat

    constructor ()
      ensures counter == 0
    {
      counter := 0;
    }

    method Trigger()
      modifies this
      ensures counter == old(counter) + 1
    {
      counter := counter + 1;
    }

    method Consume()
      modifies this
      ensures counter == 0
    {
      counter := 0;
    }
  }

  /**
   * What happens around one call of poll: the calls of other threads and the kernel's actions
   * before it, whether the shutdown has been triggered by then, whether poll fails, what FIONREAD
   * answers, and what happens at the reads.
   */
  datatype Round = Round(before: seq<Step>, triggered: bool, pollFails: bool, counted: nat, turns: seq<Turn>)

  datatype Outcome = Idle | Drained | DrainFailed | ShutdownSeen | PollThrew

  /**
   * processQueues. The shutdown comes first: once it is seen, what is queued stays unhandled. A
   * failing drain is reported and does not end the run loop; a failing poll does.
   */
  method ProcessQueues(server: Server, shutdownEvent: ShutdownEvent, buffer: array<Byte>, round: Round, ghost h: History)
    returns (outcome: Outcome, ghost h': History)
    requires Tracked(server, h, []) && buffer.Length == EVENT_BUFFER_SIZE && round.counted < TWO_TO_32
    modifies server, server.inotify, server.watchPoints.Values, shutdownEvent, buffer
    ensures Tracked(server, h', []) && Extends(h, h')
    ensures fresh(server.watchPoints.Values - old(server.watchPoints.Values))
    ensures outcome == PollThrew <==> round.pollFails
    ensures outcome == ShutdownSeen <==> !round.pollFails && old(shutdownEvent.counter) > 0
    ensures shutdownEvent.counter == if outcome == ShutdownSeen then 0 else old(shutdownEvent.counter)
    ensures server.shouldTerminate == (old(server.shouldTerminate) || outcome == ShutdownSeen)
    ensures outcome == ShutdownSeen ==> EndsInTermination(h, h')
    ensures outcome in {Idle, PollThrew} ==> h' == h && server.callbacks == old(server.callbacks)
    ensures Failures(h') == Failures(h) + if outcome == DrainFailed then 1 else 0
    ensures outcome == DrainFailed ==> server.callbacks != [] && server.callbacks[|server.callbacks| - 1] == FailureCall
    ensures outcome == Drained ==> exists drained :: drained != ReadFailed && DrainedAs(drained, h, h', round.counted)
    // a readable descriptor is drained, and a drain fails only by a read that fails
    ensures outcome == Idle ==> old(server.inotify.queue) == []
    ensures !round.pollFails && old(shutdownEvent.counter) == 0 && old(server.inotify.queue) != [] ==> outcome in {Drained, DrainFailed}
    ensures outcome == DrainFailed ==> exists i :: FirstFailure(round.turns, i) && |h'.done| >= |h.done| + i
    ensures Drains(round, old(server.inotify.queue)) && old(shutdownEvent.counter) == 0 ==> HandledSince(h, h', old(server.inotify.queue))
  {
    hide *;
    h' := h;
    ExtendsItself(h);
    DrainsUntriggered(round, server.inotify.queue);
    if round.pollFails {
      return PollThrew, h;
    }
    if shutdownEvent.counter > 0 {
      shutdownEvent.Consume();
      h' := NoteShutdown(server, h);
      return ShutdownSeen, h';
    }
    ghost var queue := server.inotify.queue;
    NothingHandled(h);
    if server.inotify.queue == [] {
      return Idle, h;
    }
    var drained;
    QueueOf(server, h);
    drained, h' := HandleEvents(server, buffer, round.counted, round.turns, h);
    DrainedExtends(drained, h, h', round.counted);
    DrainedHandles(drained, h, h', round, queue);
    if drained == ReadFailed {
      ghost var g := h';
      h' := ReportFailure(server, g);
      ExtendsTransitive(h, g, h');
      return DrainFailed, h';
    }
    return Drained, h';
  }

  /** No shutdown, no failing poll or read, and FIONREAD counts exactly what is queued. */
  ghost predicate Drains(round: Round, queue: seq<Event>) {
    && !round.triggered && !round.pollFails && round.counted == BytesOf(queue)
    && forall i :: 0 <= i < |round.turns| ==> !round.turns[i].fails
  }

  /** `queue` has been handled, first and in order, after `g`. */
  ghost predicate HandledSince(g: History, h: History, queue: seq<Event>) {
    g.done <= h.done && queue <= h.done[|g.done|..]
  }

  lemma NothingHandled(h: History)
    ensures HandledSince(h, h, [])
  {}

  lemma QueueOf(server: Server, h: History)
    requires Tracked(server, h, [])
    ensures h.ys != [] && Now(h) == server.Sys() && Now(h).kernel.queue == server.inotify.queue
  {
    hide HistoryOk, Server.Valid;
    assert [] + server.inotify.queue == server.inotify.queue;
  }

  lemma DrainedHandles(outcome: DrainOutcome, g: History, h: History, round: Round, queue: seq<Event>)
    requires DrainedAs(outcome, g, h, round.counted) && queue == Now(g).kernel.queue
    requires outcome == ReadFailed ==> exists i :: FirstFailure(round.turns, i)
    ensures Drains(round, queue) ==> outcome != ReadFailed && HandledSince(g, h, queue)
  {}

  lemma DrainedExtends(outcome: DrainOutcome, g: History, h: History, counted: nat)
    requires DrainedAs(outcome, g, h, counted)
    ensures Extends(g, h)
  {}

  /** The last step was the one that sets `shouldTerminate`, and nothing else has happened since `g`. */
  ghost predicate EndsInTermination(g: History, h: History) {
    h.ys != [] && h == Stepped(g, Now(h), TerminateStep)
  }

  method NoteShutdown(server: Server, ghost h: History) returns (ghost h': History)
    requires Tracked(server, h, [])
    modifies server`shouldTerminate
    ensures Tracked(server, h', []) && Extends(h, h') && server.shouldTerminate && EndsInTermination(h, h')
    ensures Failures(h') == Failures(h)
  {
    hide HistoryOk, IndexOk;
    ghost var y := server.Sys();
    TerminateTaken(h, y);
    ApplyKeepsIndex(y.server, DoTerminate);
    server.shouldTerminate := true;
    assert server.View() == y.server.(terminating := true);
    h' := Stepped(h, server.Sys(), TerminateStep);
  }

  /** The drain loop has thrown: processQueues catches the exception and reports it. */
  method ReportFailure(server: Server, ghost h: History) returns (ghost h': History)
    requires Tracked(server, h, [])
    modifies server`callbacks
    ensures Tracked(server, h', []) && Extends(h, h') && Failures(h') == Failures(h) + 1 && h'.done == h.done
    ensures server.callbacks == old(server.callbacks) + [FailureCall]
  {
    hide HistoryOk, IndexOk, Failures, Now;
    FailureReported(h, server.Sys(), []);
    server.callbacks := server.callbacks + [FailureCall];
    h' := FailedOnce(h);
  }

  /**
   * What a round has done: `polled` is the history at its poll, after the others have acted. What
   * was queued then has been handled by `h`, unless the round could not drain.
   */
  ghost predicate RoundServed(g: History, round: Round, polled: History, h: History) {
    && g.ys != [] && polled.ys != []
    && Extends(g, polled) && Extends(polled, h) && polled.done == g.done
    && Now(polled) == AfterAll(Now(g), round.before, false)
    && (Drains(round, Now(polled).kernel.queue) ==> HandledSince(polled, h, Now(polled).kernel.queue))
  }

  lemma ServedMeans(g: History, round: Round, polled: History, h: History, queue: seq<Event>)
    requires g.ys != [] && polled.ys != [] && Extends(g, polled) && Extends(polled, h) && polled.done == g.done
    requires Now(polled) == AfterAll(Now(g), round.before, false) && Now(polled).kernel.queue == queue
    requires Drains(round, queue) ==> HandledSince(polled, h, queue)
    ensures RoundServed(g, round, polled, h)
  {}

  /** One round: other threads and the kernel act, then processQueues runs. */
  method RunRound(server: Server, shutdownEvent: ShutdownEvent, buffer: array<Byte>, round: Round, ghost h: History)
    returns (outcome: Outcome, ghost polled: History, ghost h': History)
    requires Tracked(server, h, []) && buffer.Length == EVENT_BUFFER_SIZE && round.counted < TWO_TO_32
    requires !server.shouldTerminate && shutdownEvent.counter == 0
    modifies server, server.inotify, server.watchPoints.Values, shutdownEvent, buffer
    ensures Tracked(server, h', []) && Extends(h, h') && RoundServed(h, round, polled, h')
    ensures fresh(server.watchPoints.Values - old(server.watchPoints.Values))
    ensures outcome == PollThrew <==> round.pollFails
    ensures server.shouldTerminate <==> round.triggered && !round.pollFails
    ensures !server.shouldTerminate && !round.pollFails ==> shutdownEvent.counter == 0
    ensures server.shouldTerminate ==> exists g :: Extends(h, g) && EndsInTermination(g, h')
    ensures Failures(h') == Failures(h) + if outcome == DrainFailed then 1 else 0
    ensures outcome == DrainFailed ==> exists i :: FirstFailure(round.turns, i)
  {
    hide *;
    QueueOf(server, h);
    polled := ActAll(server, round.before, false, h, []);
    QueueOf(server, polled);
    ghost var queue := server.inotify.queue;
    if round.triggered {
      shutdownEvent.Trigger();
    }
    DrainsUntriggered(round, queue);
    outcome, h' := ProcessQueues(server, shutdownEvent, buffer, round, polled);
    ServedMeans(h, round, polled, h', queue);
    ExtendsTransitive(h, polled, h');
  }

  lemma DrainsUntriggered(round: Round, queue: seq<Event>)
    ensures Drains(round, queue) ==> !round.triggered && !round.pollFails
  {}

  function LastOf(h: History, ends: seq<History>): History {
    if ends == [] then h else ends[|ends| - 1]
  }

  /** Every round has been served, one after the other, and nothing else has happened. */
  ghost predicate AllServed(h: History, rounds: seq<Round>, polls: seq<History>, ends: seq<History>)
    decreases |ends|
  {
    && |polls| == |ends| <= |rounds|
    && (ends != [] ==>
          var n := |ends| - 1;
          && AllServed(h, rounds, polls[..n], ends[..n])
          && RoundServed(LastOf(h, ends[..n]), rounds[n], polls[n], ends[n]))
  }

  lemma OneMoreServed(h: History, rounds: seq<Round>, polls: seq<History>, ends: seq<History>, polled: History, h': History)
    requires AllServed(h, rounds, polls, ends) && |ends| < |rounds|
    requires RoundServed(LastOf(h, ends), rounds[|ends|], polled, h')
    ensures AllServed(h, rounds, polls + [polled], ends + [h']) && LastOf(h, ends + [h']) == h'
  {
    hide RoundServed;
    assert (polls + [polled])[..|ends|] == polls && (ends + [h'])[..|ends|] == ends;
  }

  lemma NothingServed(h: History, rounds: seq<Round>)
    ensures AllServed(h, rounds, [], []) && LastOf(h, []) == h
  {}

  /**
   * runLoop, with what other threads and the kernel do in each round. It ends in the first round
   * in which the shutdown has been triggered, or poll fails, and in no other. From the start of the
   * server to its end there is one run of the system model, whose handling steps are the events
   * handled here; the step that sets `shouldTerminate` is the last. `failed` drains have been
   * reported as failures. In every round that could drain, what was queued at its poll has been
   * handled by its end (`polls` and `ends` are the histories then).
   */
  method RunLoop(server: Server, shutdownEvent: ShutdownEvent, buffer: array<Byte>, rounds: seq<Round>, ghost h: History)
    returns (count: nat, threw: bool, failed: nat, ghost polls: seq<History>, ghost ends: seq<History>, ghost h': History)
    requires Tracked(server, h, []) && buffer.Length == EVENT_BUFFER_SIZE
    requires !server.shouldTerminate && shutdownEvent.counter == 0
    requires forall i :: 0 <= i < |rounds| ==> rounds[i].counted < TWO_TO_32
    modifies server, server.inotify, server.watchPoints.Values, shutdownEvent, buffer
    ensures Tracked(server, h', []) && Extends(h, h') && Failures(h') == Failures(h) + failed && failed <= count <= |rounds|
    ensures |ends| == count && AllServed(h, rounds, polls, ends) && h' == LastOf(h, ends)
    ensures forall i :: 0 <= i < count - 1 ==> !rounds[i].triggered && !rounds[i].pollFails
    ensures count < |rounds| ==> threw || server.shouldTerminate
    ensures threw <==> count > 0 && rounds[count - 1].pollFails
    ensures server.shouldTerminate <==> count > 0 && rounds[count - 1].triggered && !rounds[count - 1].pollFails
    ensures server.shouldTerminate ==> exists g :: Extends(h, g) && EndsInTermination(g, h')
  {
    hide *;
    count, threw, failed, h' := 0, false, 0, h;
    polls, ends := [], [];
    ExtendsItself(h);
    NothingServed(h, rounds);
    while !server.shouldTerminate && count < |rounds|
      invariant Tracked(server, h', []) && Extends(h, h') && Failures(h') == Failures(h) + failed
      invariant failed <= count <= |rounds| && !threw
      invariant |ends| == count && AllServed(h, rounds, polls, ends) && h' == LastOf(h, ends)
      invariant fresh(server.watchPoints.Values - old(server.watchPoints.Values))
      invariant forall i :: 0 <= i < count - 1 ==> !rounds[i].triggered && !rounds[i].pollFails
      invariant count > 0 ==> !rounds[count - 1].pollFails && (rounds[count - 1].triggered <==> server.shouldTerminate)
      invariant count == 0 ==> !server.shouldTerminate
      invariant !server.shouldTerminate ==> shutdownEvent.counter == 0
      invariant server.shouldTerminate ==> exists g :: Extends(h, g) && EndsInTermination(g, h')
      decreases |rounds| - count
    {
      ghost var before := h';
      var outcome;
      ghost var polled;
      outcome, polled, h' := RunRound(server, shutdownEvent, buffer, rounds[count], before);
      OneMoreServed(h, rounds, polls, ends, polled, h');
      ExtendsTransitive(h, before, h');
      if server.shouldTerminate {
        ghost var g :| Extends(before, g) && EndsInTermination(g, h');
        ExtendsTransitive(h, before, g);
      }
      polls, ends := polls + [polled], ends + [h'];
      count := count + 1;
      failed := failed + if outcome == DrainFailed then 1 else 0;
      if outcome == PollThrew {
        return count, true, failed, polls, ends, h';
      }
    }
  }

  /** A server that has just been constructed has the empty history. */
  method NewServer() returns (server: Server)
    ensures fresh(server) && fresh(server.inotify) && Tracked(server, NEW_HISTORY, []) && !server.shouldTerminate
  {
    hide HistoryOk;
    NewHistoryOk();
    server := new Server();
  }
}
