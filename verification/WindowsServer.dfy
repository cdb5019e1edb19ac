/** The Windows server: its map of watch points, registration, shutdown and completion handling. */
module WindowsServer {
  import opened Prelude
  import opened WatchedSet
  import opened WindowsNotify
  import opened WindowsWatchPoint

  /** `retired` lists the watch points that have been destroyed, as their destructors left them. */
  datatype State = State(points: map<Wide, Point>, terminating: bool, retired: seq<Point>)

  const INITIAL_STATE := State(map[], false, [])

  /** What a destructor meets: the answer of CancelIoEx, and what happens while it sleeps. */
  datatype Ending = Ending(cancel: CancelAnswer, sleep: seq<WindowsWatchPoint.Step>)

  datatype RegisterResult = Registered | AlreadyWatching | AddFailed

  function Erase(s: State, path: Wide, ending: Ending): State
    requires path in s.points
  {
    s.(points := s.points - {path}, retired := s.retired + [Destroy(s.points[path], ending.cancel, ending.sleep)])
  }

  function RegisterResultOf(s: State, path: Wide, open: OpenAnswer): RegisterResult {
    if path in s.points && s.points[path].status != FINISHED then AlreadyWatching
    else if Construct(open).1 then Registered
    else AddFailed
  }

  /** A finished watch point gives way; if the new one cannot be constructed, the path is not watched any more. */
  function Register(s: State, path: Wide, open: OpenAnswer, ending: Ending): State {
    var cleared := if path in s.points && s.points[path].status == FINISHED then Erase(s, path, ending) else s;
    if RegisterResultOf(s, path, open) == Registered then cleared.(points := cleared.points[path := Construct(open).0])
    else cleared
  }

  /** What handling a completion passes to the Java callback. */
  function ReportsOfCompletion(path: Wide, w: Point, errorCode: nat, bytes: nat, env: Env, ls: seq<Laid>): seq<Report> {
    if errorCode == ERROR_OPERATION_ABORTED || w.status != LISTENING then []
    else if errorCode != ERROR_SUCCESS then
      if errorCode == ERROR_ACCESS_DENIED && !env.validDirectory then [Change(REMOVED, path)] else [Failure]
    else if !env.finalPathKept then [Change(REMOVED, path)]
    else if env.terminating then []
    else ReportsOfRecords(path, bytes, ls) + ReportsOfListen(path, ListenResultOf(env.listen))
  }

  /** The completion has the buffer walked, and the name of some record is read past the end of it. */
  ghost predicate ReadsPast(w: Point, errorCode: nat, bytes: nat, env: Env, ls: seq<Laid>, tail: seq<Byte>) {
    Walks(w, errorCode, bytes, env) && LaidOk(ls) && !NamesEnd(ls, tail)
  }

  function ReportsOfRecords(path: Wide, bytes: nat, ls: seq<Laid>): seq<Report> {
    if bytes == 0 then [OverflowAt(path)] else ReportsForAll(path, ls)
  }

  function ReportsOfListen(path: Wide, result: ListenResult): seq<Report> {
    match result
    case SUCCESS => []
    case DELETED => [Change(REMOVED, path)]
    case ListenThrew => [Failure]
  }

  /** The directory is known to be gone, or to have been moved, after this completion. */
  predicate GoneOrMoved(errorCode: nat, env: Env) {
    if errorCode == 0 then
      !env.finalPathKept || (env.listen.ReadRefused? && env.listen.errorCode == 5 && !env.listen.validDirectory)
    else errorCode == 5 && !env.validDirectory
  }

  /**
   * What a completion reports. Aborts, and completions of what is not listening, are silent. While
   * the server runs, a successful completion in place reports an overflow exactly if it brings no
   * bytes, and otherwise its records; and if the watch point does not listen any more afterwards, the
   * last report says so: that the path is removed if its directory is gone or moved, a failure if not.
   */
  lemma CompletionReports(path: Wide, w: Point, errorCode: nat, bytes: nat, env: Env, ls: seq<Laid>)
    ensures var rs := ReportsOfCompletion(path, w, errorCode, bytes, env, ls);
      var after := HandleCompletion(w, errorCode, env);
      var records := if bytes == 0 then [OverflowAt(path)] else ReportsForAll(path, ls);
      var ending := if GoneOrMoved(errorCode, env) then Change(REMOVED, path) else Failure;
      if errorCode == 995 || w.status != LISTENING then rs == []
      else if errorCode == 0 && env.finalPathKept then
        && (env.terminating ==> rs == [])
        && (!env.terminating ==> rs == records + if after.status == LISTENING then [] else [ending])
        && (!env.terminating ==> (OverflowAt(path) in rs <==> bytes == 0))
      else after.status != LISTENING && rs == [ending]
  {
    NoOverflowInRecords(path, ls);
    assert [OverflowAt(path)][0] == OverflowAt(path);
    assert [OverflowAt(path)] + [] == [OverflowAt(path)] && ReportsForAll(path, ls) + [] == ReportsForAll(path, ls);
  }

  lemma {:induction false} NoOverflowInRecords(path: Wide, ls: seq<Laid>)
    ensures forall r :: r in ReportsForAll(path, ls) ==> r.Change? || r.Unknown?
  {
    if ls != [] {
      NoOverflowInRecords(path, ls[1..]);
    }
  }

  // ----- What registering means -----

  /**
   * An entry that is not finished is in the way: the call is refused and changes nothing. Otherwise
   * the path is registered exactly if the directory can be opened, resolved and listened to; then
   * it listens under a handle of its own, and what was finished has been destroyed.
   */
  lemma RegisterMeans(s: State, path: Wide, open: OpenAnswer, ending: Ending)
    ensures var result, t := RegisterResultOf(s, path, open), Register(s, path, open, ending);
      if path in s.points && s.points[path].status in {LISTENING, NOT_LISTENING, CANCELLED} then result == AlreadyWatching && t == s
      else
        && result == (if open == Opened(ReadStarted) then Registered else AddFailed)
        && t.points == (if open == Opened(ReadStarted) then s.points[path := Point(LISTENING, [InFlight], 1, 0)] else s.points - {path})
        && t.terminating == s.terminating
        && (path !in s.points ==> t.retired == s.retired)
        && (path in s.points ==> |t.retired| == |s.retired| + 1 && s.retired <= t.retired)
  {
    assert [] + [InFlight] == [InFlight];
    if path in s.points {
      assert (s.points - {path})[path := Point(LISTENING, [InFlight], 1, 0)] == s.points[path := Point(LISTENING, [InFlight], 1, 0)];
    } else {
      assert s.points - {path} == s.points;
    }
  }

  /** The shutdown loop: cancels every watch point that is listening. */
  function CancelAll(s: State, answers: map<Wide, CancelAnswer>): State {
    s.(points := map p | p in s.points :: Cancel(s.points[p], AnswerFor(answers, p)))
  }

  /** The cancel loop touches what is listening and nothing else: it is cancelled if CancelIoEx succeeds, and closed if not. */
  lemma CancelAllMeans(s: State, answers: map<Wide, CancelAnswer>, path: Wide)
    requires StateOk(s) && path in s.points
    ensures var z := CancelAll(s, answers);
      && z.points.Keys == s.points.Keys && z.retired == s.retired && z.terminating == s.terminating
      && (s.points[path].status != LISTENING ==> z.points[path] == s.points[path])
      && (s.points[path].status == LISTENING ==>
            var cancelled := path in answers && answers[path] == CancelStarted;
            && z.points[path].requests == s.points[path].requests
            && z.points[path].status == (if cancelled then CANCELLED else FINISHED)
            && z.points[path].closes == (if cancelled then 0 else 1))
  {
    assert PointOk(s.points[path]);
    CancelMeans(s.points[path], AnswerFor(answers, path));
  }

  function AnswerFor(answers: map<Wide, CancelAnswer>, path: Wide): CancelAnswer {
    if path in answers then answers[path] else CancelNotFound
  }

  function UnregisterAll(s: State, paths: seq<Wide>, endings: seq<Ending>): (State, bool)
    requires |paths| == |endings|
    decreases |paths|
  {
    if paths == [] then (s, true)
    else
      var (z, success) := UnregisterAll(if paths[0] in s.points then Erase(s, paths[0], endings[0]) else s, paths[1..], endings[1..]);
      (z, paths[0] in s.points && success)
  }

  lemma {:induction false} UnregisterAllErases(s: State, paths: seq<Wide>, endings: seq<Ending>)
    requires |paths| == |endings|
    ensures var (z, success) := UnregisterAll(s, paths, endings); (z.points, success) == EraseAll(s.points, paths)
    decreases |paths|
  {
    if paths != [] {
      var s1 := if paths[0] in s.points then Erase(s, paths[0], endings[0]) else s;
      assert s1.points == s.points - {paths[0]};
      UnregisterAllErases(s1, paths[1..], endings[1..]);
    }
  }

  lemma {:induction false} UnregisterAllRetires(s: State, paths: seq<Wide>, endings: seq<Ending>)
    requires |paths| == |endings|
    ensures var z := UnregisterAll(s, paths, endings).0;
      s.retired <= z.retired && |z.points| + |z.retired| == |s.points| + |s.retired|
    decreases |paths|
  {
    if paths != [] {
      EraseOneCounts(s.points, paths[0]);
      UnregisterAllRetires(if paths[0] in s.points then Erase(s, paths[0], endings[0]) else s, paths[1..], endings[1..]);
    }
  }

  /**
   * All the paths are unregistered, and one watch point has been destroyed for each that was
   * watched; the answer is true exactly when the paths were pairwise distinct and all watched.
   */
  lemma UnregisterAllRemoves(s: State, paths: seq<Wide>, endings: seq<Ending>)
    requires |paths| == |endings|
    ensures var (z, success) := UnregisterAll(s, paths, endings);
      && z.points == s.points - Elements(paths)
      && s.retired <= z.retired && |z.points| + |z.retired| == |s.points| + |s.retired|
      && (success <==> Distinct(paths) && forall p :: p in paths ==> p in s.points)
  {
    UnregisterAllErases(s, paths, endings);
    UnregisterAllRetires(s, paths, endings);
    EraseAllRemoves(s.points, paths);
  }

  lemma EraseOneCounts<K, V>(m: map<K, V>, k: K)
    ensures |m - {k}| == if k in m then |m| - 1 else |m|
  {
    assert (m - {k}).Keys == m.Keys - {k};
    assert |m - {k}| == |(m - {k}).Keys| && |m| == |m.Keys|;
  }

  // ----- Whole runs -----

  datatype Step =
    | RegisterStep(path: Wide, open: OpenAnswer, ending: Ending)
    | UnregisterStep(path: Wide, ending: Ending)
    | PointStep(path: Wide, step: WindowsWatchPoint.Step)
    | TerminateStep
    | CancelAllStep(answers: map<Wide, CancelAnswer>)

  predicate Enabled(s: State, step: Step) {
    match step
    case PointStep(path, inner) =>
      && path in s.points && WindowsWatchPoint.Enabled(s.points[path], inner)
      && (inner.Deliver? ==> inner.env.terminating == s.terminating)
    case CancelAllStep(_) => s.terminating
    case _ => true
  }

  function Next(s: State, step: Step): State
    requires Enabled(s, step)
  {
    match step
    case RegisterStep(path, open, ending) => Register(s, path, open, ending)
    case UnregisterStep(path, ending) => if path in s.points then Erase(s, path, ending) else s
    case PointStep(path, inner) => s.(points := s.points[path := WindowsWatchPoint.Next(s.points[path], inner)])
    case TerminateStep => s.(terminating := true)
    case CancelAllStep(answers) => CancelAll(s, answers)
  }

  ghost predicate IsRun(ss: seq<State>, steps: seq<Step>) {
    && |ss| == |steps| + 1 && ss[0] == INITIAL_STATE
    && forall i :: 0 <= i < |steps| ==> Enabled(ss[i], steps[i]) && ss[i + 1] == Next(ss[i], steps[i])
  }

  ghost predicate HandleClosedOnce(w: Point) { w.status == FINISHED && w.opens == 1 && w.closes == 1 }

  ghost predicate StateOk(s: State) {
    && (forall p :: p in s.points ==> PointOk(s.points[p]))
    && (forall i :: 0 <= i < |s.retired| ==> HandleClosedOnce(s.retired[i]))
  }

  lemma EraseOk(s: State, path: Wide, ending: Ending)
    requires StateOk(s) && path in s.points
    ensures StateOk(Erase(s, path, ending))
  {
    HandleClosedExactlyOnce([s.points[path]], [], ending.cancel, ending.sleep);
  }

  lemma NextOk(s: State, step: Step)
    requires StateOk(s) && Enabled(s, step)
    ensures StateOk(Next(s, step))
  {
    match step
    case RegisterStep(path, open, ending) =>
      ConstructOk(open);
      if path in s.points {
        EraseOk(s, path, ending);
      }
    case UnregisterStep(path, ending) =>
      if path in s.points {
        EraseOk(s, path, ending);
      }
    case PointStep(path, inner) => WindowsWatchPoint.NextOk(s.points[path], inner);
    case TerminateStep =>
    case CancelAllStep(answers) =>
  }

  /** In every run every watch point is in order, and every destroyed one has had its handle closed exactly once. */
  lemma {:induction false} RunOk(ss: seq<State>, steps: seq<Step>, n: nat)
    requires IsRun(ss, steps) && n < |ss|
    ensures StateOk(ss[n])
    ensures forall w :: w in ss[n].retired ==> w.status == FINISHED && w.opens == 1 && w.closes == 1
    decreases n
  {
    if n > 0 {
      RunOk(ss, steps, n - 1);
      NextOk(ss[n - 1], steps[n - 1]);
    }
  }

  function Listeners(s: State): set<Wide> {
    set p | p in s.points && s.points[p].status == LISTENING
  }

  /** Once terminating, nothing but a registration makes a watch point listen. */
  lemma NoNewListeners(s: State, step: Step)
    requires Enabled(s, step) && s.terminating && !step.RegisterStep?
    ensures Next(s, step).terminating && Listeners(Next(s, step)) <= Listeners(s)
    ensures step.CancelAllStep? ==> Listeners(Next(s, step)) == {}
  {}

  /**
   * Orderly shutdown: after the cancel loop no watch point is listening, whether its cancel
   * succeeded, found the I/O finished or threw, and none listens again while completions drain.
   */
  lemma {:induction false} ShutdownQuiescence(ss: seq<State>, steps: seq<Step>, i: nat, j: nat)
    requires IsRun(ss, steps) && i < j <= |steps| && steps[i].CancelAllStep?
    requires forall k :: i <= k < j ==> !steps[k].RegisterStep?
    ensures ss[j].terminating && Listeners(ss[j]) == {}
    ensures forall p :: p in ss[j].points && ss[j].points[p].requests != [] ==> ss[j].points[p].status in {CANCELLED, FINISHED}
    decreases j
  {
    RunOk(ss, steps, j);
    if i + 1 < j {
      ShutdownQuiescence(ss, steps, i, j - 1);
      NoNewListeners(ss[j - 1], steps[j - 1]);
    } else {
      NoNewListeners(ss[i], steps[i]);
    }
    assert forall p :: p in ss[j].points ==> PointOk(ss[j].points[p]) && (ss[j].points[p].status == LISTENING ==> p in Listeners(ss[j]));
  }

  /** A shutdown that catches a listening watch point: it is cancelled, its aborted completion arrives, and its handle is closed. */
  lemma ShutdownHappens(path: Wide, env: Env) returns (ss: seq<State>, steps: seq<Step>)
    requires env.terminating
    ensures IsRun(ss, steps) && |steps| == 5 && steps[2] == CancelAllStep(map[path := CancelStarted])
    ensures !ss[1].terminating && Listeners(ss[2]) == {path} && ss[2].terminating
    ensures ss[3].points == map[path := Point(CANCELLED, [InFlight], 1, 0)]
    ensures ss[5].points == map[path := Point(FINISHED, [], 1, 1)]
  {
    hide Enabled, Next;
    var answers := map[path := CancelStarted];
    steps := [RegisterStep(path, Opened(ReadStarted), Ending(CancelStarted, [])), TerminateStep, CancelAllStep(answers),
              PointStep(path, Complete(ERROR_OPERATION_ABORTED, 0)), PointStep(path, Deliver(env))];
    var s1 := Watching(path, LISTENING, [InFlight], false);
    var s2 := Watching(path, LISTENING, [InFlight], true);
    var s3 := Watching(path, CANCELLED, [InFlight], true);
    var s4 := Watching(path, CANCELLED, [Completed(ERROR_OPERATION_ABORTED, 0)], true);
    var s5 := Watching(path, FINISHED, [], true);
    CancelledInOrder(path, steps[0].ending);
    ClosedInOrder(path, env);
    ss := [INITIAL_STATE, s1, s2, s3, s4, s5];
  }

  /** A server with one watch point. */
  function Watching(path: Wide, status: Status, requests: seq<Request>, terminating: bool): State {
    State(map[path := Point(status, requests, 1, if status == FINISHED then 1 else 0)], terminating, [])
  }

  lemma CancelledInOrder(path: Wide, ending: Ending)
    ensures var s1 := Watching(path, LISTENING, [InFlight], false);
      var s2, cancel := s1.(terminating := true), CancelAllStep(map[path := CancelStarted]);
      && Enabled(INITIAL_STATE, RegisterStep(path, Opened(ReadStarted), ending))
      && Next(INITIAL_STATE, RegisterStep(path, Opened(ReadStarted), ending)) == s1
      && Enabled(s1, TerminateStep) && Next(s1, TerminateStep) == s2
      && Enabled(s2, cancel) && Next(s2, cancel) == Watching(path, CANCELLED, [InFlight], true)
  {
    assert [] + [InFlight] == [InFlight];
    var s2 := Watching(path, LISTENING, [InFlight], true);
    assert Next(s2, CancelAllStep(map[path := CancelStarted])).points == Watching(path, CANCELLED, [InFlight], true).points;
  }

  lemma ClosedInOrder(path: Wide, env: Env)
    requires env.terminating
    ensures var s3 := Watching(path, CANCELLED, [InFlight], true);
      var s4 := Watching(path, CANCELLED, [Completed(ERROR_OPERATION_ABORTED, 0)], true);
      var complete, deliver := PointStep(path, Complete(ERROR_OPERATION_ABORTED, 0)), PointStep(path, Deliver(env));
      && Enabled(s3, complete) && Next(s3, complete) == s4
      && Enabled(s4, deliver) && Next(s4, deliver) == Watching(path, FINISHED, [], true)
  {
    var aborted := Completed(ERROR_OPERATION_ABORTED, 0);
    assert [aborted] + [InFlight][1..] == [aborted] && [aborted][1..] == [];
    var s3, s4 := Watching(path, CANCELLED, [InFlight], true), Watching(path, CANCELLED, [aborted], true);
    assert Next(s3, PointStep(path, Complete(ERROR_OPERATION_ABORTED, 0))).points == s4.points;
    assert Next(s4, PointStep(path, Deliver(env))).points == Watching(path, FINISHED, [], true).points;
  }

  // ----- The objects -----

  class WatchPoint {
    const registeredPath: Wide
    var status: Status
    // what the operating system knows about this watch point
    ghost var requests: seq<Request>
    ghost var opens: nat
    ghost var closes: nat

    ghost function View(): Point
      reads this
    {
      Point(status, requests, opens, closes)
    }

    constructor (path: Wide)
      ensures registeredPath == path && View() == UNOPENED
    {
      registeredPath, status := path, NOT_LISTENING;
      requests, opens, closes := [], 0, 0;
    }

    /** The rest of the constructor: opens the directory and starts listening. False if it throws. */
    method Open(open: OpenAnswer) returns (constructed: bool)
      requires View() == UNOPENED
      modifies this
      ensures (View(), constructed) == Construct(open)
    {
      if open.CreateFails? {
        return false;
      }
      opens := opens + 1;
      if open.FinalPathFails? {
        return false;
      }
      var result := Listen(open.listen);
      return result == SUCCESS;
    }

    method Listen(answer: ListenAnswer) returns (result: ListenResult)
      modifies this
      ensures View() == WindowsWatchPoint.Listen(old(View()), answer)
      ensures result == ListenResultOf(answer)
    {
      if answer.ReadStarted? {
        requests := requests + [InFlight];
        status := LISTENING;
        return SUCCESS;
      }
      Close();
      if answer.errorCode == ERROR_ACCESS_DENIED && !answer.validDirectory {
        return DELETED;
      }
      return ListenThrew;
    }

    method Cancel(answer: CancelAnswer) returns (result: CancelResult)
      modifies this
      ensures View() == WindowsWatchPoint.Cancel(old(View()), answer)
      ensures result == CancelResultOf(old(View()), answer)
    {
      if status == LISTENING {
        if answer.CancelStarted? {
          status := CANCELLED;
          return CancelTrue;
        }
        Close();
        if answer.CancelNotFound? {
          return CancelFalse;
        }
        return CancelThrew;
      }
      return CancelFalse;
    }

    method Close()
      modifies this
      ensures View() == WindowsWatchPoint.Close(old(View()))
    {
      if status != FINISHED {
        closes := closes + 1;
        status := FINISHED;
      }
    }

    /**
     * The completion routine: the first `bytes` bytes of `eventBuffer` are laid out as `ls`, `tail` is
     * behind them. Nothing is returned, and nothing promised, if a name is read past the buffer.
     */
    method HandleEventsInBuffer(errorCode: nat, bytes: nat, eventBuffer: seq<Byte>, env: Env, ghost ls: seq<Laid>, ghost tail: seq<Byte>)
      returns (reported: Option<seq<Report>>)
      requires bytes > 0 ==> ls != [] && LaidOk(ls) && eventBuffer == BufferOf(ls) + tail
      modifies this
      ensures reported.None? <==> ReadsPast(old(View()), errorCode, bytes, env, ls, tail)
      ensures reported.Some? ==> View() == HandleCompletion(old(View()), errorCode, env)
      ensures reported.Some? ==> reported.value == ReportsOfCompletion(registeredPath, old(View()), errorCode, bytes, env, ls)
    {
      if errorCode == ERROR_OPERATION_ABORTED {
        Close();
        return Some([]);
      }
      if status != LISTENING {
        return Some([]);
      }
      status := NOT_LISTENING;
      reported := HandleEvents(errorCode, bytes, eventBuffer, env, ls, tail);
    }

    /** Server::handleEvents for this watch point. */
    method HandleEvents(errorCode: nat, bytes: nat, eventBuffer: seq<Byte>, env: Env, ghost ls: seq<Laid>, ghost tail: seq<Byte>)
      returns (reported: Option<seq<Report>>)
      requires bytes > 0 ==> ls != [] && LaidOk(ls) && eventBuffer == BufferOf(ls) + tail
      requires errorCode != ERROR_OPERATION_ABORTED && status == NOT_LISTENING
      modifies this
      ensures var before := old(View()).(status := LISTENING);
        && (reported.None? <==> ReadsPast(before, errorCode, bytes, env, ls, tail))
        && (reported.Some? ==> View() == HandleCompletion(before, errorCode, env))
        && (reported.Some? ==> reported.value == ReportsOfCompletion(registeredPath, before, errorCode, bytes, env, ls))
    {
      if errorCode != ERROR_SUCCESS {
        if errorCode == ERROR_ACCESS_DENIED && !env.validDirectory {
          Close();
          return Some([Change(REMOVED, registeredPath)]);
        }
        return Some([Failure]);
      }
      if !env.finalPathKept {
        Close();
        return Some([Change(REMOVED, registeredPath)]);
      }
      if env.terminating {
        return Some([]);
      }
      if bytes == 0 {
        reported := Some([OverflowAt(registeredPath)]);
      } else {
        reported := WalkBuffer(registeredPath, eventBuffer, ls, tail);
        if reported.None? {
          return;
        }
      }
      var records := reported.value;
      var result := Listen(env.listen);
      match result {
        case SUCCESS => assert records + [] == records;
        case DELETED => reported := Some(records + [Change(REMOVED, registeredPath)]);
        case ListenThrew => reported := Some(records + [Failure]);
      }
    }
  }

  function WithCancelled(s: State, path: Wide, answer: CancelAnswer): State {
    if path in s.points then s.(points := s.points[path := Cancel(s.points[path], answer)]) else s
  }

  /** CancelAll, with the entries of `remaining` still to come. */
  function CancelledExcept(s: State, answers: map<Wide, CancelAnswer>, remaining: set<Wide>): State {
    s.(points := map p | p in s.points :: if p in remaining then s.points[p] else Cancel(s.points[p], AnswerFor(answers, p)))
  }

  lemma CancelOnlyListening(s: State, path: Wide, answer: CancelAnswer)
    requires path in s.points
    ensures s.points[path].status != LISTENING ==> WithCancelled(s, path, answer) == s
  {
    assert s.points[path := s.points[path]] == s.points;
  }

  lemma CancelledExceptBounds(s: State, answers: map<Wide, CancelAnswer>)
    ensures CancelledExcept(s, answers, s.points.Keys) == s
    ensures CancelledExcept(s, answers, {}) == CancelAll(s, answers)
  {
    hide WindowsWatchPoint.Cancel, AnswerFor;
    assert CancelledExcept(s, answers, s.points.Keys).points == s.points;
    assert CancelledExcept(s, answers, {}).points == CancelAll(s, answers).points;
  }

  lemma CancelledExceptTurn(s: State, answers: map<Wide, CancelAnswer>, remaining: set<Wide>, path: Wide)
    requires path in remaining && remaining <= s.points.Keys
    ensures WithCancelled(CancelledExcept(s, answers, remaining), path, AnswerFor(answers, path)) ==
            CancelledExcept(s, answers, remaining - {path})
  {
    hide WindowsWatchPoint.Cancel, AnswerFor;
    assert WithCancelled(CancelledExcept(s, answers, remaining), path, AnswerFor(answers, path)).points ==
           CancelledExcept(s, answers, remaining - {path}).points;
  }

  // ----- What unregisterPaths answers -----

  /** What the documentation of stopWatching says `true` means: the paths were being watched and are no longer. */
  ghost predicate WereWatchedAndAreNot(s: State, z: State, paths: seq<Wide>) {
    forall p :: p in paths ==> p in Listeners(s) && p !in Listeners(z)
  }

  /**
   * The answer is the documented one exactly under two conditions: no path is repeated if all were
   * being watched, and all were being watched if none is repeated and all have an entry.
   */
  lemma AnswerAsDocumentedIff(s: State, paths: seq<Wide>, endings: seq<Ending>)
    requires |paths| == |endings|
    ensures var (z, success) := UnregisterAll(s, paths, endings);
      var watched := forall p :: p in paths ==> p in Listeners(s);
      (success <==> WereWatchedAndAreNot(s, z, paths)) <==>
        && (watched ==> Distinct(paths))
        && (Distinct(paths) && (forall p :: p in paths ==> p in s.points) ==> watched)
  {
    UnregisterAllRemoves(s, paths, endings);
    var (z, success) := UnregisterAll(s, paths, endings);
    forall p | p in paths ensures p !in Listeners(z) {
      assert p in Elements(paths);
    }
  }

  /** The path is registered, does not listen any more, and unregistering it is still answered with `true`. */
  ghost predicate AnsweredTrueThoughStopped(s: State, path: Wide, ending: Ending) {
    && path in s.points && path !in Listeners(s)
    && UnregisterAll(s, [path], [ending]).1
    && !WereWatchedAndAreNot(s, UnregisterAll(s, [path], [ending]).0, [path])
  }

  lemma StoppedIsAnsweredTrue(s: State, path: Wide, ending: Ending)
    requires path in s.points && s.points[path].status != LISTENING
    ensures AnsweredTrueThoughStopped(s, path, ending)
  {
    assert [path][0] == path && path in [path];
    UnregisterAllRemoves(s, [path], [ending]);
  }

  /** A watch point whose directory has moved is finished and reported as removed; unregistering it is answered with `true`. */
  lemma FinishedPathIsAnsweredTrue(path: Wide, env: Env, ending: Ending) returns (ss: seq<State>, steps: seq<Step>)
    requires !env.finalPathKept && !env.terminating
    ensures IsRun(ss, steps) && AnsweredTrueThoughStopped(ss[|steps|], path, ending)
    ensures ss[|steps|].points[path].status == FINISHED && !ss[|steps|].terminating
  {
    steps := [RegisterStep(path, Opened(ReadStarted), ending), PointStep(path, Complete(ERROR_SUCCESS, 0)), PointStep(path, Deliver(env))];
    var s1 := Next(INITIAL_STATE, steps[0]);
    var s2 := Next(s1, steps[1]);
    var s3 := Next(s2, steps[2]);
    ss := [INITIAL_STATE, s1, s2, s3];
    StoppedIsAnsweredTrue(s3, path, ending);
  }

  /** So is one that stopWatchingMovedPaths has dropped. */
  lemma DroppedPathIsAnsweredTrue(path: Wide, ending: Ending) returns (ss: seq<State>, steps: seq<Step>)
    ensures IsRun(ss, steps) && AnsweredTrueThoughStopped(ss[|steps|], path, ending)
    ensures ss[|steps|].points[path].status == CANCELLED
  {
    steps := [RegisterStep(path, Opened(ReadStarted), ending), PointStep(path, CancelIt(CancelStarted))];
    var s1 := Next(INITIAL_STATE, steps[0]);
    assert s1.points[path].requests[0] == InFlight;
    var s2 := Next(s1, steps[1]);
    ss := [INITIAL_STATE, s1, s2];
    StoppedIsAnsweredTrue(s2, path, ending);
  }

  /** A path can be unregistered, and its watch point destroyed, while the request is still in flight. */
  lemma UnregisterCanLeaveARequest(path: Wide) returns (ss: seq<State>, steps: seq<Step>)
    ensures IsRun(ss, steps) && |steps| == 2 && steps[1].UnregisterStep?
    ensures ss[2].points == map[] && ss[2].retired == [Point(FINISHED, [InFlight], 1, 1)]
  {
    var ending := Ending(CancelStarted, []);
    steps := [RegisterStep(path, Opened(ReadStarted), ending), UnregisterStep(path, ending)];
    var s1 := Next(INITIAL_STATE, steps[0]);
    assert [] + [InFlight] == [InFlight];
    var s2 := Next(s1, steps[1]);
    assert s2.retired == [Point(FINISHED, [InFlight], 1, 1)];
    ss := [INITIAL_STATE, s1, s2];
  }

  // ----- Stranded paths -----

  /** The entry neither listens nor is finished, and no completion will come. */
  predicate Stranded(s: State, path: Wide) {
    path in s.points && s.points[path].status in {NOT_LISTENING, CANCELLED} && s.points[path].requests == []
  }

  /** Among the entries that are not finished, the stranded ones are exactly those that nothing can happen to any more. */
  lemma StrandedIffStuck(s: State, path: Wide)
    requires StateOk(s) && path in s.points && s.points[path].status != FINISHED
    ensures Stranded(s, path) <==>
      forall inner :: WindowsWatchPoint.Enabled(s.points[path], inner) ==> WindowsWatchPoint.Next(s.points[path], inner) == s.points[path]
  {
    var w := s.points[path];
    assert PointOk(w);
    if w.requests != [] {
      var inner := if w.requests[0].InFlight? then Complete(ERROR_SUCCESS, 0)
                   else Deliver(Env(true, true, true, ReadStarted));
      assert WindowsWatchPoint.Enabled(w, inner) && WindowsWatchPoint.Next(w, inner) != w;
    }
  }

  /**
   * The step handles a completion, other than an abort, of a path that has been cancelled; or one after
   * which listening is not taken up again though the directory is not known to be gone: it reports
   * an error, or the server is terminating.
   */
  predicate Strands(s: State, step: Step, path: Wide)
    requires Enabled(s, step)
  {
    && step.PointStep? && step.path == path && step.step.Deliver?
    && s.points[path].status in {LISTENING, CANCELLED}
    && var code, env := s.points[path].requests[0].errorCode, step.step.env;
    && code != ERROR_OPERATION_ABORTED
    && if s.points[path].status == CANCELLED then true
       else if code == ERROR_SUCCESS then env.finalPathKept && s.terminating
       else code != ERROR_ACCESS_DENIED || env.validDirectory
  }

  /** A step leaves a path stranded exactly if it strands it, or it was stranded and is not unregistered. */
  lemma StrandedAfterIff(s: State, step: Step, path: Wide)
    requires StateOk(s) && Enabled(s, step)
    ensures Stranded(Next(s, step), path) <==>
      Strands(s, step, path) || (Stranded(s, path) && !(step.UnregisterStep? && step.path == path))
  {
    assert path in s.points ==> PointOk(s.points[path]);
  }

  /** Step `k` stranded the path, and up to state `n` it has not been unregistered. */
  ghost predicate StrandedSince(ss: seq<State>, steps: seq<Step>, k: nat, n: nat, path: Wide)
    requires IsRun(ss, steps) && n < |ss|
  {
    && k < n && Strands(ss[k], steps[k], path)
    && forall m :: k < m < n ==> !(steps[m].UnregisterStep? && steps[m].path == path)
  }

  ghost predicate HasBeenStranded(ss: seq<State>, steps: seq<Step>, n: nat, path: Wide)
    requires IsRun(ss, steps) && n < |ss|
  {
    exists k: nat :: StrandedSince(ss, steps, k, n, path)
  }

  /**
   * In every run a path is stranded exactly if some step has stranded it and it has not been
   * unregistered since. Then its handle is open, no request is outstanding, and it cannot be
   * registered again.
   */
  lemma {:induction false} StrandedIff(ss: seq<State>, steps: seq<Step>, n: nat, path: Wide)
    requires IsRun(ss, steps) && n < |ss|
    ensures Stranded(ss[n], path) <==> HasBeenStranded(ss, steps, n, path)
    ensures Stranded(ss[n], path) ==>
      && ss[n].points[path].requests == [] && ss[n].points[path].closes == 0
      && forall open :: RegisterResultOf(ss[n], path, open) == AlreadyWatching
    decreases n
  {
    RunOk(ss, steps, n);
    if n > 0 {
      RunOk(ss, steps, n - 1);
      StrandedIff(ss, steps, n - 1, path);
      StrandedAfterIff(ss[n - 1], steps[n - 1], path);
      StrandedSinceOneMore(ss, steps, n, path);
    }
  }

  lemma StrandedSinceOneMore(ss: seq<State>, steps: seq<Step>, n: nat, path: Wide)
    requires IsRun(ss, steps) && 0 < n < |ss|
    ensures HasBeenStranded(ss, steps, n, path) <==>
      || Strands(ss[n - 1], steps[n - 1], path)
      || (HasBeenStranded(ss, steps, n - 1, path) && !(steps[n - 1].UnregisterStep? && steps[n - 1].path == path))
  {
    hide Strands, Next, Enabled;
    if Strands(ss[n - 1], steps[n - 1], path) {
      assert StrandedSince(ss, steps, n - 1, n, path);
    } else if HasBeenStranded(ss, steps, n, path) {
      var k: nat :| StrandedSince(ss, steps, k, n, path);
      assert StrandedSince(ss, steps, k, n - 1, path);
    } else if HasBeenStranded(ss, steps, n - 1, path) {
      var k: nat :| StrandedSince(ss, steps, k, n - 1, path);
      assert !StrandedSince(ss, steps, k, n, path);
    }
  }

  lemma {:induction false} TerminatingStays(ss: seq<State>, steps: seq<Step>, m: nat, n: nat)
    requires IsRun(ss, steps) && m <= n < |ss| && ss[m].terminating
    ensures ss[n].terminating
    decreases n
  {
    if m < n {
      TerminatingStays(ss, steps, m, n - 1);
    }
  }

  /** The completion that stranded the path reported an error, or came after a cancel. */
  ghost predicate StrandedByErrorOrCancel(ss: seq<State>, steps: seq<Step>, k: nat, n: nat, path: Wide)
    requires IsRun(ss, steps) && n < |ss|
  {
    && StrandedSince(ss, steps, k, n, path)
    && (ss[k].points[path].requests[0].errorCode != ERROR_SUCCESS || ss[k].points[path].status == CANCELLED)
  }

  /**
   * Before the shutdown a path is stranded exactly by an error, or by a completion after a cancel.
   * Aborts never strand it; nor do refusals for a directory that is gone, unless it has been cancelled.
   */
  lemma StrandedWhileRunningIff(ss: seq<State>, steps: seq<Step>, n: nat, path: Wide)
    requires IsRun(ss, steps) && n < |ss| && !ss[n].terminating
    ensures Stranded(ss[n], path) <==> exists k: nat :: StrandedByErrorOrCancel(ss, steps, k, n, path)
  {
    StrandedIff(ss, steps, n, path);
    if Stranded(ss[n], path) {
      var k: nat :| StrandedSince(ss, steps, k, n, path);
      if ss[k].terminating {
        TerminatingStays(ss, steps, k, n);
      }
      assert StrandedByErrorOrCancel(ss, steps, k, n, path);
    }
  }

  /** A completion that is not an abort strands a path that has been dropped as moved, a successful one included. */
  lemma CancelCanStrandAPath(path: Wide, errorCode: nat, env: Env) returns (ss: seq<State>, steps: seq<Step>)
    requires errorCode != ERROR_OPERATION_ABORTED && !env.terminating
    ensures IsRun(ss, steps) && !ss[|steps|].terminating && Stranded(ss[|steps|], path)
    ensures ss[|steps|].points[path] == Point(CANCELLED, [], 1, 0)
    ensures |steps| == 4 && steps[1] == PointStep(path, CancelIt(CancelStarted)) && steps[2] == PointStep(path, Complete(errorCode, 0))
  {
    steps := [RegisterStep(path, Opened(ReadStarted), Ending(CancelStarted, [])), PointStep(path, CancelIt(CancelStarted)),
              PointStep(path, Complete(errorCode, 0)), PointStep(path, Deliver(env))];
    var s1 := Next(INITIAL_STATE, steps[0]);
    assert s1.points[path].requests[0] == InFlight;
    var s2 := Next(s1, steps[1]);
    var s3 := Next(s2, steps[2]);
    ss := [INITIAL_STATE, s1, s2, s3, Next(s3, steps[3])];
  }

  /** An error of a completion strands its path while the server is running. */
  lemma ErrorCanStrandAPath(path: Wide, errorCode: nat, env: Env) returns (ss: seq<State>, steps: seq<Step>)
    requires errorCode !in {ERROR_SUCCESS, ERROR_OPERATION_ABORTED} && (errorCode == ERROR_ACCESS_DENIED ==> env.validDirectory)
    requires !env.terminating
    ensures IsRun(ss, steps) && !ss[|steps|].terminating && Stranded(ss[|steps|], path)
  {
    steps := [RegisterStep(path, Opened(ReadStarted), Ending(CancelStarted, [])),
              PointStep(path, Complete(errorCode, 0)), PointStep(path, Deliver(env))];
    var s1 := Next(INITIAL_STATE, steps[0]);
    var s2 := Next(s1, steps[1]);
    ss := [INITIAL_STATE, s1, s2, Next(s2, steps[2])];
  }

  // ----- stopWatchingMovedPaths -----

  /** The handle of this watch point no longer leads to its registered final path. */
  predicate Dropped(s: State, moved: set<Wide>, path: Wide) {
    path in s.points && s.points[path].status != FINISHED && path in moved
  }

  /** The cancels that stopWatchingMovedPaths has made when `dropped` has been added to its list. */
  function WithDropped(s: State, answers: map<Wide, CancelAnswer>, dropped: seq<Wide>): State {
    s.(points := map p | p in s.points :: if p in dropped then Cancel(s.points[p], AnswerFor(answers, p)) else s.points[p])
  }

  lemma DroppedOneMore(s: State, answers: map<Wide, CancelAnswer>, dropped: seq<Wide>, path: Wide)
    requires path in s.points && path !in dropped
    ensures WithCancelled(WithDropped(s, answers, dropped), path, AnswerFor(answers, path)) == WithDropped(s, answers, dropped + [path])
  {
    hide WindowsWatchPoint.Cancel, AnswerFor;
    assert WithCancelled(WithDropped(s, answers, dropped), path, AnswerFor(answers, path)).points ==
           WithDropped(s, answers, dropped + [path]).points;
  }

  /** The last path of the list is one whose cancel throws. */
  predicate CancelThrewFor(s: State, answers: map<Wide, CancelAnswer>, dropped: seq<Wide>) {
    && dropped != [] && var p := dropped[|dropped| - 1];
    && p in s.points && CancelResultOf(s.points[p], AnswerFor(answers, p)) == CancelThrew
  }

  /** `dropped` lists, without repetition, the moved entries among those that are not in `remaining`. */
  ghost predicate Dropping(s: State, moved: set<Wide>, dropped: seq<Wide>, remaining: set<Wide>) {
    && Distinct(dropped)
    && (forall p :: p in dropped ==> Dropped(s, moved, p) && p !in remaining)
    && (forall p :: Dropped(s, moved, p) && p !in remaining ==> p in dropped)
  }

  lemma DroppingBegins(s: State, moved: set<Wide>, answers: map<Wide, CancelAnswer>)
    ensures WithDropped(s, answers, []) == s && Dropping(s, moved, [], s.points.Keys)
  {
    assert WithDropped(s, answers, []).points == s.points;
  }

  lemma DroppingTurn(s: State, moved: set<Wide>, answers: map<Wide, CancelAnswer>, dropped: seq<Wide>, remaining: set<Wide>, path: Wide)
    requires Dropping(s, moved, dropped, remaining) && path in remaining && remaining <= s.points.Keys
    ensures var here := WithDropped(s, answers, dropped);
      && path in here.points && here.points[path] == s.points[path]
      && if here.points[path].status != FINISHED && path in moved then
           && Dropping(s, moved, dropped + [path], remaining - {path})
           && WithCancelled(here, path, AnswerFor(answers, path)) == WithDropped(s, answers, dropped + [path])
           && (CancelResultOf(here.points[path], AnswerFor(answers, path)) == CancelThrew ==> CancelThrewFor(s, answers, dropped + [path]))
         else Dropping(s, moved, dropped, remaining - {path})
  {
    DroppedOneMore(s, answers, dropped, path);
  }

  lemma DroppingMeans(s: State, moved: set<Wide>, dropped: seq<Wide>, remaining: set<Wide>)
    requires Dropping(s, moved, dropped, remaining)
    ensures Distinct(dropped) && forall p :: p in dropped ==> Dropped(s, moved, p)
  {}

  /** After a call that does not throw, no moved watch point is listening, and nothing else has changed. */
  lemma DroppedAreNotListening(s: State, moved: set<Wide>, answers: map<Wide, CancelAnswer>, dropped: seq<Wide>)
    requires Dropping(s, moved, dropped, {})
    ensures var z := WithDropped(s, answers, dropped);
      && Listeners(z) == Listeners(s) - moved
      && z.points.Keys == s.points.Keys
      && (forall p :: p in s.points && p !in moved ==> z.points[p] == s.points[p])
  {
    var z := WithDropped(s, answers, dropped);
    forall p ensures p in Listeners(z) <==> p in Listeners(s) - moved {
      assert p in Listeners(s) && p in moved ==> Dropped(s, moved, p);
    }
  }

  class Server {
    var watchPoints: map<Wide, WatchPoint>
    var shouldTerminate: bool
    ghost var retired: seq<Point>

    ghost function View(): State
      reads this, watchPoints.Values
    {
      State(map p | p in watchPoints :: watchPoints[p].View(), shouldTerminate, retired)
    }

    ghost predicate Valid()
      reads this, watchPoints.Values
    {
      forall p :: p in watchPoints ==> watchPoints[p].registeredPath == p
    }

    constructor ()
      ensures Valid() && watchPoints == map[] && View() == INITIAL_STATE
    {
      watchPoints, shouldTerminate, retired := map[], false, [];
    }

    /** Erasing an entry runs its destructor. */
    method EraseWatchPoint(path: Wide, ghost ending: Ending)
      requires Valid() && path in watchPoints
      modifies this
      ensures Valid() && watchPoints == old(watchPoints) - {path} && View() == Erase(old(View()), path, ending)
    {
      retired := retired + [Destroy(watchPoints[path].View(), ending.cancel, ending.sleep)];
      watchPoints := watchPoints - {path};
      assert View().points == old(View()).points - {path};
    }

    method RegisterPath(path: Wide, open: OpenAnswer, ghost ending: Ending) returns (result: RegisterResult)
      requires Valid()
      modifies this
      ensures Valid() && fresh(watchPoints.Values - old(watchPoints.Values))
      ensures result == RegisterResultOf(old(View()), path, open)
      ensures View() == Register(old(View()), path, open, ending)
    {
      if path in watchPoints {
        if watchPoints[path].status == FINISHED {
          EraseWatchPoint(path, ending);
        } else {
          return AlreadyWatching;
        }
      }
      var constructed := AddWatchPoint(path, open);
      return if constructed then Registered else AddFailed;
    }

    /** Constructs the new entry in place; if its constructor throws, there is no entry. */
    method AddWatchPoint(path: Wide, open: OpenAnswer) returns (constructed: bool)
      requires Valid() && path !in watchPoints
      modifies `watchPoints
      ensures Valid() && fresh(watchPoints.Values - old(watchPoints.Values))
      ensures constructed == Construct(open).1
      ensures View() == if constructed then old(View()).(points := old(View()).points[path := Construct(open).0]) else old(View())
    {
      var watchPoint := new WatchPoint(path);
      constructed := watchPoint.Open(open);
      assert View() == old(View());
      if constructed {
        ghost var before := View().points;
        watchPoints := watchPoints[path := watchPoint];
        assert View().points == before[path := watchPoint.View()];
      }
    }

    /** `endings` is what the destructors meet. */
    method UnregisterPaths(paths: seq<Wide>, ghost endings: seq<Ending>) returns (success: bool)
      requires Valid() && |paths| == |endings|
      modifies this
      ensures Valid() && watchPoints.Values <= old(watchPoints.Values)
      ensures (View(), success) == UnregisterAll(old(View()), paths, endings)
    {
      success := true;
      ghost var all := UnregisterAll(View(), paths, endings);
      assert paths[0..] == paths && endings[0..] == endings;
      for i := 0 to |paths|
        invariant Valid() && watchPoints.Values <= old(watchPoints.Values)
        invariant var (z, later) := UnregisterAll(View(), paths[i..], endings[i..]); all == (z, success && later)
      {
        assert paths[i..][1..] == paths[i + 1..] && endings[i..][1..] == endings[i + 1..];
        if paths[i] in watchPoints {
          EraseWatchPoint(paths[i], endings[i]);
        } else {
          success := false;
        }
      }
    }

    lemma ViewKeys()
      ensures View().points.Keys == watchPoints.Keys
    {}

    /** An entry, seen through the value of the map. */
    lemma ViewAt(path: Wide)
      requires Valid() && path in watchPoints
      ensures path in View().points && View().points[path] == watchPoints[path].View()
      ensures View().points[path].status == watchPoints[path].status
    {}

    /** Cancels one entry, seen from the server. */
    method CancelWatchPoint(path: Wide, answer: CancelAnswer) returns (result: CancelResult)
      requires Valid() && path in watchPoints
      modifies watchPoints.Values
      ensures Valid() && View() == WithCancelled(old(View()), path, answer)
      ensures path in old(View()).points && result == CancelResultOf(old(View()).points[path], answer)
    {
      hide WindowsWatchPoint.Cancel, CancelResultOf;
      ghost var before := View().points;
      var watchPoint := watchPoints[path];
      result := watchPoint.Cancel(answer);
      assert View().points == before[path := watchPoint.View()];
    }

    /** The end of runLoop: cancels what is still listening, and survives cancels that throw. */
    method CancelRemaining(answers: map<Wide, CancelAnswer>)
      requires Valid()
      modifies watchPoints.Values
      ensures Valid() && View() == CancelAll(old(View()), answers)
    {
      hide *;
      var remaining := watchPoints.Keys;
      ghost var before := View();
      ViewKeys();
      CancelledExceptBounds(before, answers);
      while remaining != {}
        invariant remaining <= watchPoints.Keys && Valid() && View() == CancelledExcept(before, answers, remaining)
        decreases |remaining|
      {
        var path :| path in remaining;
        CancelledExceptTurn(before, answers, remaining, path);
        ViewAt(path);
        CancelOnlyListening(View(), path, AnswerFor(answers, path));
        if watchPoints[path].status == LISTENING {
          // an exception is logged and does not stop the loop
          var _ := CancelWatchPoint(path, AnswerFor(answers, path));
        }
        remaining := remaining - {path};
      }
    }

    /**
     * `moved` says for which watch points the final path is no longer the registered one, or cannot
     * be found. A cancel that throws ends the call.
     */
    method StopWatchingMovedPaths(moved: set<Wide>, answers: map<Wide, CancelAnswer>)
      returns (droppedPaths: seq<Wide>, threw: bool)
      requires Valid()
      modifies watchPoints.Values
      ensures Valid() && View() == WithDropped(old(View()), answers, droppedPaths)
      ensures Distinct(droppedPaths) && forall p :: p in droppedPaths ==> Dropped(old(View()), moved, p)
      ensures !threw ==> Dropping(old(View()), moved, droppedPaths, {})
      ensures threw ==> CancelThrewFor(old(View()), answers, droppedPaths)
    {
      hide *;
      droppedPaths := [];
      var remaining := watchPoints.Keys;
      ghost var before := View();
      ViewKeys();
      DroppingBegins(before, moved, answers);
      while remaining != {}
        invariant remaining <= watchPoints.Keys && Valid()
        invariant View() == WithDropped(before, answers, droppedPaths) && Dropping(before, moved, droppedPaths, remaining)
        decreases |remaining|
      {
        var path :| path in remaining;
        ViewAt(path);
        DroppingTurn(before, moved, answers, droppedPaths, remaining, path);
        if watchPoints[path].status != FINISHED && path in moved {
          droppedPaths := droppedPaths + [path];
          var result := CancelWatchPoint(path, AnswerFor(answers, path));
          if result == CancelThrew {
            DroppingMeans(before, moved, droppedPaths, remaining - {path});
            return droppedPaths, true;
          }
        }
        remaining := remaining - {path};
      }
      DroppingMeans(before, moved, droppedPaths, {});
      return droppedPaths, false;
    }
  }
}
