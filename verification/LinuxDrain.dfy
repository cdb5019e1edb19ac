/**
 * The loop that empties the inotify descriptor: handleEvents of the Linux server, with other
 * threads and the kernel at work beside it.
 */
module LinuxDrain {
  import opened Prelude
  import opened InotifyKernel
  import opened InotifyRecords
  import opened LinuxRegistry
  import opened LinuxSystem
  import opened LinuxHistory
  import opened LinuxServer

  const EVENT_BUFFER_SIZE := 16 * 1024

  /** `h` is what has happened to the server so far; `unread` is what the read buffer still holds. */
  ghost predicate Tracked(server: Server, h: History, unread: seq<Event>)
    reads server, server.inotify, server.watchPoints.Values
  {
    server.Valid() && LeadsTo(h, server.Sys(), unread) && server.callbacks == h.calls
  }

  /** At every point of the loops the conservation invariant holds, with the unread events counted as queued. */
  lemma TrackedConserves(server: Server, h: History, unread: seq<Event>)
    requires Tracked(server, h, unread)
    ensures Conserved(WithUnread(server.Sys(), unread))
  {
    HistoryConserves(h);
  }

  // ----- Other threads and the kernel -----

  /** Takes those of the steps that are possible, one after the other. */
  method ActAll(server: Server, steps: seq<Step>, locked: bool, ghost h: History, ghost unread: seq<Event>)
    returns (ghost h': History)
    requires Tracked(server, h, unread)
    modifies server, server.inotify, server.watchPoints.Values
    ensures Tracked(server, h', unread) && Extends(h, h') && h'.done == h.done && Failures(h') == Failures(h)
    ensures server.Sys() == AfterAll(old(server.Sys()), steps, locked) && server.callbacks == old(server.callbacks)
    ensures fresh(server.watchPoints.Values - old(server.watchPoints.Values))
    ensures server.shouldTerminate == old(server.shouldTerminate)
    ensures steps == [] ==> server.inotify.queue == old(server.inotify.queue)
  {
    hide *;
    h' := h;
    ExtendsItself(h);
    ghost var all := AfterAll(server.Sys(), steps, locked);
    AfterAllBegins(server.Sys(), steps, locked);
    for i := 0 to |steps|
      invariant i == 0 ==> server.inotify.queue == old(server.inotify.queue)
      invariant AfterAll(server.Sys(), steps[i..], locked) == all && server.callbacks == old(server.callbacks)
      invariant Tracked(server, h', unread) && Extends(h, h') && h'.done == h.done && Failures(h') == Failures(h)
      invariant fresh(server.watchPoints.Values - old(server.watchPoints.Values))
      invariant server.shouldTerminate == old(server.shouldTerminate)
    {
      ghost var g := h';
      AfterAllTurn(server.Sys(), steps, locked, i);
      h' := ActOnce(server, steps[i], locked, g, unread);
      ExtendsTransitive(h, g, h');
    }
    AfterAllEnds(server.Sys(), steps, locked);
  }

  lemma ExtendsItself(h: History)
    ensures Extends(h, h)
  {}

  lemma AfterAllBegins(y: System, steps: seq<Step>, locked: bool)
    ensures AfterAll(y, steps[0..], locked) == AfterAll(y, steps, locked)
  {
    assert steps[0..] == steps;
  }

  lemma AfterAllTurn(y: System, steps: seq<Step>, locked: bool, i: nat)
    requires i < |steps|
    ensures AfterAll(y, steps[i..], locked) == AfterAll(After(y, steps[i], locked), steps[i + 1..], locked)
  {
    assert steps[i..][0] == steps[i] && steps[i..][1..] == steps[i + 1..];
  }

  lemma AfterAllEnds(y: System, steps: seq<Step>, locked: bool)
    ensures AfterAll(y, steps[|steps|..], locked) == y
  {
    assert steps[|steps|..] == [];
  }

  method ActOnce(server: Server, step: Step, locked: bool, ghost h: History, ghost unread: seq<Event>)
    returns (ghost h': History)
    requires Tracked(server, h, unread)
    modifies server, server.inotify, server.watchPoints.Values
    ensures Tracked(server, h', unread) && Extends(h, h') && h'.done == h.done && Failures(h') == Failures(h)
    ensures server.Sys() == After(old(server.Sys()), step, locked) && server.callbacks == old(server.callbacks)
    ensures fresh(server.watchPoints.Values - old(server.watchPoints.Values))
    ensures server.shouldTerminate == old(server.shouldTerminate)
  {
    hide LeadsTo, Server.Valid, Possible, Next, Server.Sys;
    ghost var y := server.Sys();
    h' := h;
    server.Act(step, locked);
    if Possible(y, step, locked) {
      ActTaken(h, y, unread, step, locked);
      h' := Stepped(h, WithUnread(Next(y, step), unread), step);
    }
  }

  // ----- One read -----

  /** How many of the queued events a read returns: whole events, as many as fit, at least one. */
  function ReadCount(queue: seq<Event>, capacity: nat, budget: nat): (n: nat)
    ensures n <= |queue| && BytesOf(queue[..n]) <= capacity
    decreases |queue|
  {
    if queue == [] || budget == 0 || Size(KernelRecord(queue[0])) > capacity then 0
    else
      var size := Size(KernelRecord(queue[0]));
      var n := 1 + ReadCount(queue[1..], capacity - size, budget - 1);
      assert queue[..n][1..] == queue[1..][..n - 1];
      n
  }

  lemma ReadCountPositive(queue: seq<Event>, capacity: nat, budget: nat)
    requires EventsOk(queue) && queue != [] && capacity >= EVENT_BUFFER_SIZE && budget > 0
    ensures var read := queue[..ReadCount(queue, capacity, budget)];
      read != [] && 0 < BytesOf(read) <= capacity && EventsOk(read) && EventsOk(queue[|read|..])
  {
    KernelRecordOk(queue[0]);
  }

  method Fill(buffer: array<Byte>, bytes: seq<Byte>)
    requires |bytes| <= buffer.Length
    modifies buffer
    ensures buffer[..|bytes|] == bytes
  {
    forall i | 0 <= i < |bytes| {
      buffer[i] := bytes[i];
    }
  }

  /**
   * read(2) on the inotify descriptor: fills the buffer with events from the head of the queue,
   * and returns -1 (EAGAIN) when there are none. `budget` limits how many events this read returns.
   */
  method Read(inotify: Inotify, buffer: array<Byte>, budget: nat) returns (bytesRead: int, ghost read: seq<Event>)
    requires EventsOk(inotify.queue) && buffer.Length == EVENT_BUFFER_SIZE
    modifies inotify`queue, buffer
    ensures old(inotify.queue) == read + inotify.queue && EventsOk(read) && EventsOk(inotify.queue)
    ensures bytesRead == -1 ==> old(inotify.queue) == [] && read == []
    ensures bytesRead != -1 ==> read != [] && 0 < bytesRead == BytesOf(read) <= buffer.Length
    ensures bytesRead != -1 ==> RecordsOk(KernelRecords(read)) && buffer[..bytesRead] == EncodeAll(KernelRecords(read))
  {
    hide *;
    var queue := inotify.queue;
    if queue == [] {
      return -1, [];
    }
    var atLeastOne := if budget == 0 then 1 else budget;
    ReadCountPositive(queue, buffer.Length, atLeastOne);
    var n := ReadCount(queue, buffer.Length, atLeastOne);
    read := queue[..n];
    KernelRecordsOk(queue[..n]);
    var bytes := EncodeAll(KernelRecords(queue[..n]));
    Fill(buffer, bytes);
    bytesRead := |bytes|;
    inotify.queue := queue[n..];
  }

  /** One turn of the walk: the event at `index`, and the index of the next one. */
  method NextRecord(bytes: seq<Byte>, index: nat, ghost rest: seq<Record>) returns (event: Event, next: nat)
    requires index < |bytes| && RecordsOk(rest) && bytes[index..] == EncodeAll(rest)
    ensures rest != [] && event == rest[0].event
    ensures index < next <= |bytes| && RecordsOk(rest[1..]) && bytes[next..] == EncodeAll(rest[1..])
  {
    var current := bytes[index..];
    ReadRecord(rest[0], EncodeAll(rest[1..]));
    event := FirstEvent(current);
    next := index + HEADER + FirstLen(current);
    assert bytes[next..] == current[next - index..];
  }

  /** What the read buffer still holds has become shorter by the event that has been handled. */
  method HandleNext(server: Server, event: Event, ghost h: History, ghost rest: seq<Event>) returns (ghost h': History)
    requires Tracked(server, h, [event] + rest)
    modifies server
    ensures Tracked(server, h', rest) && Extends(h, h') && h'.done == h.done + [event] && Failures(h') == Failures(h)
    ensures server.watchPoints.Values <= old(server.watchPoints.Values)
    ensures server.shouldTerminate == old(server.shouldTerminate)
  {
    hide LeadsTo, Server.Valid, Handle, Reports, Server.View;
    ghost var y := server.Sys();
    var reported := server.HandleEvent(event);
    EventHandled(h, y, event, rest, reported);
    h' := HandledOne(h, WithUnread(System(Handle(y.server, event), y.kernel), rest), event, reported);
  }

  /**
   * The inner loop, under `mutationMutex`: handles the records that were read in order, and stops
   * exactly at `bytesRead`. `during` says what happens beside it before each event.
   */
  method HandleBuffer(server: Server, bytes: seq<Byte>, during: seq<seq<Step>>, ghost rs: seq<Record>, ghost h: History)
    returns (ghost h': History)
    requires RecordsOk(rs) && bytes == EncodeAll(rs) && Tracked(server, h, EventsOf(rs))
    modifies server, server.inotify, server.watchPoints.Values
    ensures Tracked(server, h', []) && Extends(h, h') && h'.done == h.done + EventsOf(rs) && Failures(h') == Failures(h)
    ensures fresh(server.watchPoints.Values - old(server.watchPoints.Values))
    ensures server.shouldTerminate == old(server.shouldTerminate)
    ensures during == [] ==> server.inotify.queue == old(server.inotify.queue)
  {
    hide *;
    var bytesRead, index, count := |bytes|, 0, 0;
    ghost var rest := rs;
    h' := h;
    WalkBegins(h, rs);
    while index < bytesRead
      invariant index <= bytesRead && RecordsOk(rest) && bytes[index..] == EncodeAll(rest)
      invariant Tracked(server, h', EventsOf(rest)) && Walked(h, h', rs, rest) && Failures(h') == Failures(h)
      invariant fresh(server.watchPoints.Values - old(server.watchPoints.Values))
      invariant server.shouldTerminate == old(server.shouldTerminate)
      invariant during == [] ==> server.inotify.queue == old(server.inotify.queue)
      decreases bytesRead - index
    {
      ghost var g := h';
      ghost var mid := g;
      if count < |during| {
        mid := ActAll(server, during[count], true, g, EventsOf(rest));
      }
      var event, next := NextRecord(bytes, index, rest);
      EventsUnfold(rest);
      h' := HandleNext(server, event, mid, EventsOf(rest[1..]));
      WalkedOn(h, g, mid, h', rs, rest);
      rest := rest[1..];
      index, count := next, count + 1;
    }
    WalkEnds(h, h', rs, rest);
  }

  /** All records but those in `rest` have been handled. */
  ghost predicate Walked(h: History, now: History, rs: seq<Record>, rest: seq<Record>) {
    Extends(h, now) && now.done + EventsOf(rest) == h.done + EventsOf(rs)
  }

  lemma WalkBegins(h: History, rs: seq<Record>)
    ensures Walked(h, h, rs, rs)
  {}

  lemma EventsUnfold(rest: seq<Record>)
    requires rest != []
    ensures EventsOf(rest) == [rest[0].event] + EventsOf(rest[1..])
  {}

  lemma WalkedOn(h: History, g: History, mid: History, now: History, rs: seq<Record>, rest: seq<Record>)
    requires Walked(h, g, rs, rest) && rest != []
    requires mid == g || (Extends(g, mid) && mid.done == g.done)
    requires Extends(mid, now) && now.done == mid.done + [rest[0].event]
    ensures Walked(h, now, rs, rest[1..])
  {
    assert (g.done + [rest[0].event]) + EventsOf(rest[1..]) == g.done + ([rest[0].event] + EventsOf(rest[1..]));
  }

  lemma WalkEnds(h: History, now: History, rs: seq<Record>, rest: seq<Record>)
    requires Walked(h, now, rs, rest) && RecordsOk(rest) && EncodeAll(rest) == []
    ensures EventsOf(rest) == [] && Extends(h, now) && now.done == h.done + EventsOf(rs)
  {
    assert now.done + [] == now.done;
  }

  /** The read above, which moves events from the queue to the read buffer. */
  method ReadTracked(server: Server, buffer: array<Byte>, budget: nat, ghost h: History)
    returns (bytesRead: int, ghost read: seq<Event>)
    requires Tracked(server, h, []) && buffer.Length == EVENT_BUFFER_SIZE
    modifies server.inotify`queue, buffer
    ensures Tracked(server, h, read)
    ensures bytesRead == -1 ==> read == [] && old(server.inotify.queue) == server.inotify.queue == []
    ensures bytesRead != -1 ==> read != [] && 0 < bytesRead == BytesOf(read) <= buffer.Length && |server.inotify.queue| < |old(server.inotify.queue)|
    ensures bytesRead != -1 ==> RecordsOk(KernelRecords(read)) && buffer[..bytesRead] == EncodeAll(KernelRecords(read))
    ensures EventsOk(read)
  {
    hide HistoryOk, Server.Valid, Server.View, BytesOf, EncodeAll, KernelRecords, RecordsOk, EventsOk;
    ghost var y := server.Sys();
    QueueEncodable(h, y);
    bytesRead, read := Read(server.inotify, buffer, budget);
    UnreadRead(y, server.Sys(), read);
  }

  lemma QueueEncodable(h: History, y: System)
    requires LeadsTo(h, y, [])
    ensures EventsOk(y.kernel.queue)
  {
    hide EventsOk;
    assert [] + y.kernel.queue == y.kernel.queue;
  }

  // ----- The loop over reads -----

  /**
   * What happens at one read: steps taken by others before it, steps taken after it and before the
   * run loop has got `mutationMutex`, and steps taken before each event that is handled; how many
   * events the read may return, or that it fails.
   */
  datatype Turn = Turn(before: seq<Step>, beforeLock: seq<Step>, during: seq<seq<Step>>, budget: nat, fails: bool)

  const QUIET_TURN := Turn([], [], [], 0, false)

  /** Read number `i` fails, and none before it. */
  ghost predicate FirstFailure(script: seq<Turn>, i: nat) {
    i < |script| && script[i].fails && forall j :: 0 <= j < i ==> !script[j].fails
  }

  lemma FirstFailureAt(script: seq<Turn>, i: nat)
    requires i < |script| && script[i].fails && forall j :: 0 <= j < i ==> !script[j].fails
    ensures FirstFailure(script, i)
  {}

  lemma QuietTurnReads()
    ensures !QUIET_TURN.fails
  {}

  lemma QuietTurnActs()
    ensures QUIET_TURN.before == [] && QUIET_TURN.beforeLock == [] && QUIET_TURN.during == []
  {}

  datatype DrainOutcome = CountedDown | WouldBlock | ReadFailed

  /** One read, with what happens around it, and the handling of what it returned. */
  method OneTurn(server: Server, buffer: array<Byte>, turn: Turn, ghost h: History) returns (bytesRead: int, ghost read: seq<Event>, ghost h': History)
    requires Tracked(server, h, []) && buffer.Length == EVENT_BUFFER_SIZE
    modifies server, server.inotify, server.watchPoints.Values, buffer
    ensures Tracked(server, h', []) && Extends(h, h') && h'.done == h.done + read && Failures(h') == Failures(h)
    ensures turn.fails || bytesRead == -1 ==> read == []
    ensures !turn.fails && bytesRead == -1 ==> server.inotify.queue == []
    ensures !turn.fails && bytesRead != -1 ==> 0 < bytesRead == BytesOf(read) && read != []
    ensures turn == QUIET_TURN && bytesRead != -1 ==> |server.inotify.queue| < |old(server.inotify.queue)|
    ensures fresh(server.watchPoints.Values - old(server.watchPoints.Values))
    ensures server.shouldTerminate == old(server.shouldTerminate)
  {
    hide *;
    read := [];
    QuietTurnActs();
    h' := ActAll(server, turn.before, false, h, []);
    NothingRead(h, h');
    if turn.fails {
      return -1, read, h';
    }
    ghost var polled := h';
    bytesRead, read := ReadTracked(server, buffer, turn.budget, polled);
    if bytesRead == -1 {
      return;
    }
    ghost var locked := ActAll(server, turn.beforeLock, false, polled, read);
    KernelRecordsOk(read);
    h' := HandleBuffer(server, buffer[..bytesRead], turn.during, KernelRecords(read), locked);
    ExtendsTransitive(h, polled, locked);
    ExtendsTransitive(h, locked, h');
  }

  lemma NothingRead(g: History, h: History)
    requires g.done == h.done
    ensures h.done == g.done + []
  {}

  /** `available` is the 32-bit counter, after it started at `counted`. */
  ghost predicate Counting(g: History, h: History, counted: nat, available: int) {
    && Extends(g, h)
    && available == (counted - BytesOf(h.done[|g.done|..])) % TWO_TO_32
  }

  lemma CountingBegins(h: History, counted: nat)
    requires counted < TWO_TO_32
    ensures Counting(h, h, counted, counted)
  {
    assert h.done[|h.done|..] == [];
  }

  lemma CountingTurn(g: History, h: History, h': History, counted: nat, available: int, read: seq<Event>)
    requires Counting(g, h, counted, available) && Extends(h, h') && h'.done == h.done + read
    ensures Counting(g, h', counted, (available - BytesOf(read)) % TWO_TO_32)
  {
    hide BytesOf;
    ExtendsTransitive(g, h, h');
    var done := h.done[|g.done|..];
    assert h'.done[|g.done|..] == done + read;
    BytesConcat(done, read);
    WrapSub(counted - BytesOf(done), BytesOf(read));
  }

  lemma WrapSub(a: int, b: int)
    ensures (a % TWO_TO_32 - b) % TWO_TO_32 == (a - b) % TWO_TO_32
  {
    var q := a / TWO_TO_32;
    var c := a % TWO_TO_32 - b;
    assert a - b == c + q * TWO_TO_32;
    assert (c + q * TWO_TO_32) / TWO_TO_32 == c / TWO_TO_32 + q;
  }

  /** When the counter is down to zero, at least the counted bytes have been handled: wrapping cannot end the loop early. */
  lemma CountedDownMeansHandled(g: History, h: History, counted: nat)
    requires HistoryOk(g) && HistoryOk(h) && Counting(g, h, counted, 0) && counted < TWO_TO_32
    ensures var done := h.done[|g.done|..];
      && BytesOf(done) >= counted && BytesOf(done) % TWO_TO_32 == counted
      && g.ys != [] && (counted == BytesOf(Now(g).kernel.queue) ==> Now(g).kernel.queue <= done)
  {
    hide HistoryOk, BytesOf;
    QueuedComesNext(g, h);
    if counted == BytesOf(Now(g).kernel.queue) {
      PrefixByBytes(Now(g).kernel.queue, h.done[|g.done|..], Now(h).kernel.queue);
    }
  }

  lemma PrefixByBytes(queue: seq<Event>, done: seq<Event>, rest: seq<Event>)
    requires queue <= done + rest && BytesOf(done) >= BytesOf(queue)
    ensures queue <= done
  {
    if |done| < |queue| {
      assert queue[..|done|] == (done + rest)[..|done|] == done;
      assert queue == done + queue[|done|..];
      BytesConcat(done, queue[|done|..]);
    } else {
      assert queue == (done + rest)[..|queue|] == done[..|queue|];
    }
  }

  /** What the loop leaves behind, in terms of the events handled since it began. */
  ghost predicate DrainedAs(outcome: DrainOutcome, g: History, h: History, counted: nat) {
    && Extends(g, h) && g.ys != [] && h.ys != []
    && var queue, done := Now(g).kernel.queue, h.done[|g.done|..];
    && (outcome == WouldBlock ==> Now(h).kernel.queue == [])
    && (outcome == CountedDown ==> BytesOf(done) >= counted && BytesOf(done) % TWO_TO_32 == counted)
    && (outcome != ReadFailed && counted == BytesOf(queue) ==> queue <= done)
    && queue <= done + Now(h).kernel.queue
  }

  /**
   * handleEvents, with `counted` the answer of FIONREAD and `script` what happens at the reads.
   * `available` is an unsigned 32-bit variable: `available -= bytesRead` wraps.
   *
   * The call extends the history of the server by its own steps and those of the others. Unless a
   * read failed, at least the counted bytes have been handled, or everything; in particular all
   * that was queued when FIONREAD counted it.
   */
  method HandleEvents(server: Server, buffer: array<Byte>, counted: nat, script: seq<Turn>, ghost h: History)
    returns (outcome: DrainOutcome, ghost h': History)
    requires Tracked(server, h, []) && buffer.Length == EVENT_BUFFER_SIZE && counted < TWO_TO_32
    modifies server, server.inotify, server.watchPoints.Values, buffer
    ensures Tracked(server, h', []) && DrainedAs(outcome, h, h', counted) && Failures(h') == Failures(h)
    ensures outcome == WouldBlock ==> server.inotify.queue == []
    ensures outcome == ReadFailed ==> exists i :: FirstFailure(script, i) && |h'.done| >= |h.done| + i
    ensures fresh(server.watchPoints.Values - old(server.watchPoints.Values))
    ensures server.shouldTerminate == old(server.shouldTerminate)
  {
    hide *;
    QuietTurnReads();
    var available := counted;
    var turn := 0;
    h' := h;
    CountingBegins(h, counted);
    TrackedIsOk(server, h, []);
    while available > 0
      invariant turn <= |script| && 0 <= available && |h'.done| >= |h.done| + turn
      invariant forall j :: 0 <= j < turn ==> !script[j].fails
      invariant Tracked(server, h', []) && Counting(h, h', counted, available) && Failures(h') == Failures(h)
      invariant fresh(server.watchPoints.Values - old(server.watchPoints.Values))
      invariant server.shouldTerminate == old(server.shouldTerminate)
      decreases |script| - turn, |server.inotify.queue|
    {
      var t := QUIET_TURN;
      if turn < |script| {
        t := script[turn];
        turn := turn + 1;
      }
      ghost var g, read := h', [];
      var bytesRead;
      bytesRead, read, h' := OneTurn(server, buffer, t, g);
      CountingTurn(h, g, h', counted, available, read);
      if t.fails {
        FirstFailureAt(script, turn - 1);
        Drained(server, ReadFailed, h, h', counted, (available - BytesOf(read)) % TWO_TO_32);
        return ReadFailed, h';
      }
      if bytesRead == -1 {
        Drained(server, WouldBlock, h, h', counted, (available - BytesOf(read)) % TWO_TO_32);
        return WouldBlock, h';
      }
      available := (available - bytesRead) % TWO_TO_32;
    }
    Drained(server, CountedDown, h, h', counted, available);
    return CountedDown, h';
  }

  lemma TrackedIsOk(server: Server, h: History, unread: seq<Event>)
    requires Tracked(server, h, unread)
    ensures HistoryOk(h)
  {}

  lemma Drained(server: Server, outcome: DrainOutcome, g: History, h: History, counted: nat, available: int)
    requires Tracked(server, h, []) && Counting(g, h, counted, available) && counted < TWO_TO_32 && HistoryOk(g)
    requires outcome == WouldBlock ==> server.inotify.queue == []
    requires outcome == CountedDown ==> available == 0
    ensures DrainedAs(outcome, g, h, counted)
  {
    hide HistoryOk, BytesOf;
    QueuedComesNext(g, h);
    var done := h.done[|g.done|..];
    if outcome == CountedDown {
      CountedDownMeansHandled(g, h, counted);
    } else if outcome == WouldBlock {
      assert Now(h).kernel.queue == [];
      assert done + [] == done;
    }
  }
}
