/**
 * One Windows watch point: its status, its directory handle and its one OVERLAPPED request, as
 * values. Completions may come late, aborted, or after a cancel.
 */
module WindowsWatchPoint {
  const ERROR_SUCCESS := 0
  const ERROR_ACCESS_DENIED := 5
  const ERROR_OPERATION_ABORTED := 995

  datatype Status = NOT_LISTENING | LISTENING | CANCELLED | FINISHED

  /** A request that uses the OVERLAPPED and the buffer: in flight, or completed but not yet delivered. */
  datatype Request = InFlight | Completed(errorCode: nat, bytes: nat)

  /** `opens` and `closes` count CreateFileW and CloseHandle calls for the directory handle. */
  datatype Point = Point(status: Status, requests: seq<Request>, opens: nat, closes: nat)

  /** How ReadDirectoryChangesExW answers. */
  datatype ListenAnswer = ReadStarted | ReadRefused(errorCode: nat, validDirectory: bool)

  datatype ListenResult = SUCCESS | DELETED | ListenThrew

  /** How CancelIoEx answers. */
  datatype CancelAnswer = CancelStarted | CancelNotFound | CancelError

  datatype CancelResult = CancelTrue | CancelFalse | CancelThrew

  /** How the constructor fares: CreateFileW fails, GetFinalPathNameByHandleW fails, or listen is reached. */
  datatype OpenAnswer = CreateFails | FinalPathFails | Opened(listen: ListenAnswer)

  /** What the server finds when a completion arrives. */
  datatype Env = Env(finalPathKept: bool, validDirectory: bool, terminating: bool, listen: ListenAnswer)

  // ----- The methods of WatchPoint -----

  function Close(w: Point): Point {
    if w.status == FINISHED then w else w.(status := FINISHED, closes := w.closes + 1)
  }

  function Listen(w: Point, answer: ListenAnswer): Point {
    if answer.ReadStarted? then w.(status := LISTENING, requests := w.requests + [InFlight]) else Close(w)
  }

  function ListenResultOf(answer: ListenAnswer): ListenResult {
    if answer.ReadStarted? then SUCCESS
    else if answer.errorCode == ERROR_ACCESS_DENIED && !answer.validDirectory then DELETED
    else ListenThrew
  }

  function Cancel(w: Point, answer: CancelAnswer): Point {
    if w.status != LISTENING then w
    else if answer.CancelStarted? then w.(status := CANCELLED)
    else Close(w)
  }

  function CancelResultOf(w: Point, answer: CancelAnswer): CancelResult {
    if w.status != LISTENING then CancelFalse
    else match answer
      case CancelStarted => CancelTrue
      case CancelNotFound => CancelFalse
      case CancelError => CancelThrew
  }

  const UNOPENED := Point(NOT_LISTENING, [], 0, 0)

  /** The object the constructor leaves behind, and whether it was fully constructed. */
  function Construct(answer: OpenAnswer): (Point, bool) {
    match answer
    case CreateFails => (UNOPENED, false)
    case FinalPathFails => (UNOPENED.(opens := 1), false)
    case Opened(listen) => (Listen(UNOPENED.(opens := 1), listen), listen.ReadStarted?)
  }

  /** The buffer is walked: the completion brought records, and the directory is where it was. */
  predicate Walks(w: Point, errorCode: nat, bytes: nat, env: Env) {
    && errorCode == ERROR_SUCCESS && w.status == LISTENING
    && env.finalPathKept && !env.terminating && bytes > 0
  }

  /** Listens again after a completion. */
  predicate Relistens(w: Point, errorCode: nat, env: Env) {
    && errorCode == ERROR_SUCCESS && w.status == LISTENING
    && env.finalPathKept && !env.terminating
  }

  /** handleEventsInBuffer followed by Server::handleEvents, for a completion that is no longer outstanding. */
  function HandleCompletion(w: Point, errorCode: nat, env: Env): Point {
    if errorCode == ERROR_OPERATION_ABORTED then Close(w)
    else if w.status != LISTENING then w
    else
      var idle := w.(status := NOT_LISTENING);
      if errorCode != ERROR_SUCCESS then
        if errorCode == ERROR_ACCESS_DENIED && !env.validDirectory then Close(idle) else idle
      else if !env.finalPathKept then Close(idle)
      else if env.terminating then idle
      else Listen(idle, env.listen)
  }

  // ----- What can happen to a watch point -----

  datatype Step =
    | Complete(errorCode: nat, bytes: nat)   // the kernel finishes the request, possibly as aborted
    | Deliver(env: Env)                      // the completion routine runs
    | CancelIt(cancel: CancelAnswer)         // shutdown or stopWatchingMovedPaths

  predicate Enabled(w: Point, step: Step) {
    match step
    case Complete(_, _) => |w.requests| > 0 && w.requests[0].InFlight?
    case Deliver(_) => |w.requests| > 0 && w.requests[0].Completed?
    case CancelIt(answer) => answer.CancelStarted? && w.status == LISTENING ==> InFlight in w.requests
  }

  function Next(w: Point, step: Step): Point
    requires Enabled(w, step)
  {
    match step
    case Complete(code, bytes) => w.(requests := [Completed(code, bytes)] + w.requests[1..])
    case Deliver(env) => HandleCompletion(w.(requests := w.requests[1..]), w.requests[0].errorCode, env)
    case CancelIt(answer) => Cancel(w, answer)
  }

  ghost predicate IsLife(ws: seq<Point>, steps: seq<Step>) {
    && |ws| == |steps| + 1
    && forall i :: 0 <= i < |steps| ==> Enabled(ws[i], steps[i]) && ws[i + 1] == Next(ws[i], steps[i])
  }

  /** The destructor: cancel, sleep alertably, close. When cancel throws, the rest is skipped. */
  function Destroy(w: Point, answer: CancelAnswer, sleep: seq<Step>): Point {
    if CancelResultOf(w, answer) == CancelThrew then Cancel(w, answer) else Close(Sleep(Cancel(w, answer), sleep))
  }

  /** While the thread sleeps the kernel completes requests, and completion routines run. */
  function Sleep(w: Point, steps: seq<Step>): Point
    decreases |steps|
  {
    if steps == [] then w
    else Sleep(if !steps[0].CancelIt? && Enabled(w, steps[0]) then Next(w, steps[0]) else w, steps[1..])
  }

  /** The completion of the request is among what is delivered: it is there already, or comes first. */
  ghost predicate DeliveredIn(r: Request, steps: seq<Step>) {
    exists j :: 0 <= j < |steps| && steps[j].Deliver? && (r.Completed? || exists i :: 0 <= i < j && steps[i].Complete?)
  }

  // ----- Invariants -----

  /** One request at most; the status says whether there is one, and whether the handle is open. */
  ghost predicate PointOk(w: Point) {
    && |w.requests| <= 1
    && (w.status == LISTENING ==> |w.requests| == 1)
    && (w.status == NOT_LISTENING ==> w.requests == [])
    && w.opens == 1
    && w.closes == if w.status == FINISHED then 1 else 0
  }

  lemma ConstructOk(answer: OpenAnswer)
    ensures var (w, constructed) := Construct(answer);
      && (constructed ==> PointOk(w) && w.status == LISTENING)
      && (!constructed ==> (w.opens == w.closes <==> !answer.FinalPathFails?))
  {}

  /** What cancelling does: only a listening point is cancelled, and it is closed at once if there is nothing to cancel. */
  lemma CancelMeans(w: Point, answer: CancelAnswer)
    requires PointOk(w)
    ensures var v, result := Cancel(w, answer), CancelResultOf(w, answer);
      && v.requests == w.requests && v.opens == w.opens
      && (w.status != LISTENING ==> v == w && result == CancelFalse)
      && (w.status == LISTENING && answer == CancelStarted ==> v.status == CANCELLED && v.closes == 0 && result == CancelTrue)
      && (w.status == LISTENING && answer == CancelNotFound ==> v.status == FINISHED && v.closes == 1 && result == CancelFalse)
      && (w.status == LISTENING && answer == CancelError ==> v.status == FINISHED && v.closes == 1 && result == CancelThrew)
  {}

  /** What listening does: it starts one more request, or closes and tells a missing directory from other errors. */
  lemma ListenMeans(w: Point, answer: ListenAnswer)
    requires w.status != FINISHED
    ensures var v, result := Listen(w, answer), ListenResultOf(answer);
      if answer == ReadStarted then result == SUCCESS && v == w.(status := LISTENING, requests := w.requests + [InFlight])
      else
        && v == w.(status := FINISHED, closes := w.closes + 1)
        && (result == DELETED <==> answer.errorCode == 5 && !answer.validDirectory) && result != SUCCESS
  {}

  lemma NextOk(w: Point, step: Step)
    requires PointOk(w) && Enabled(w, step)
    ensures PointOk(Next(w, step))
    ensures w.status == FINISHED ==> Next(w, step).status == FINISHED
  {}

  /**
   * In every life of a watch point at most one request uses the OVERLAPPED and the buffer.
   * LISTENING means exactly one, NOT_LISTENING none; the handle has been closed, once, exactly
   * when the status is FINISHED.
   */
  lemma {:induction false} LifeOk(ws: seq<Point>, steps: seq<Step>, n: nat)
    requires IsLife(ws, steps) && PointOk(ws[0]) && n < |ws|
    ensures PointOk(ws[n])
    decreases n
  {
    if n > 0 {
      LifeOk(ws, steps, n - 1);
      NextOk(ws[n - 1], steps[n - 1]);
    }
  }

  lemma {:induction false} FinishedForever(ws: seq<Point>, steps: seq<Step>, i: nat, j: nat)
    requires IsLife(ws, steps) && PointOk(ws[0]) && i <= j < |ws| && ws[i].status == FINISHED
    ensures ws[j].status == FINISHED && ws[j].closes == 1
    decreases j - i
  {
    LifeOk(ws, steps, j);
    if i < j {
      FinishedForever(ws, steps, i, j - 1);
      LifeOk(ws, steps, j - 1);
      NextOk(ws[j - 1], steps[j - 1]);
    }
  }

  /** When the buffer is walked or a new request is made, no request is outstanding. */
  lemma BufferIsIdleWhenUsed(ws: seq<Point>, steps: seq<Step>, n: nat)
    requires IsLife(ws, steps) && PointOk(ws[0]) && n < |steps| && steps[n].Deliver?
    ensures var r := ws[n].requests[0];
      var w := ws[n].(requests := ws[n].requests[1..]);
      Walks(w, r.errorCode, r.bytes, steps[n].env) || Relistens(w, r.errorCode, steps[n].env) ==>
        w.requests == [] && |ws[n + 1].requests| <= 1
    ensures var r := ws[n].requests[0];
      var w := ws[n].(requests := ws[n].requests[1..]);
      ws[n + 1].requests != [] <==> Relistens(w, r.errorCode, steps[n].env) && steps[n].env.listen.ReadStarted?
  {
    LifeOk(ws, steps, n);
    LifeOk(ws, steps, n + 1);
  }

  lemma {:induction false} SleepOk(w: Point, steps: seq<Step>)
    requires PointOk(w) && w.status != LISTENING
    ensures PointOk(Sleep(w, steps)) && Sleep(w, steps).status != LISTENING
    ensures Sleep(w, steps).requests != [] <==> w.requests != [] && !DeliveredIn(w.requests[0], steps)
    decreases |steps|
  {
    if steps != [] {
      var w1 := if !steps[0].CancelIt? && Enabled(w, steps[0]) then Next(w, steps[0]) else w;
      SleepOk(w1, steps[1..]);
      if w.requests != [] {
        DeliveredLater(w.requests[0], steps);
      }
    }
  }

  lemma DeliveredLater(r: Request, steps: seq<Step>)
    requires steps != []
    ensures steps[0].Deliver? && r.Completed? ==> DeliveredIn(r, steps)
    ensures !(steps[0].Deliver? && r.Completed?) && !(steps[0].Complete? && r.InFlight?) ==>
      (DeliveredIn(r, steps) <==> DeliveredIn(r, steps[1..]))
    ensures steps[0].Complete? && r.InFlight? ==>
      forall code, bytes :: DeliveredIn(r, steps) <==> DeliveredIn(Completed(code, bytes), steps[1..])
  {
    forall j | 0 <= j < |steps| - 1 ensures steps[1..][j] == steps[j + 1] {}
  }

  /**
   * Whatever happened before, destruction leaves the handle closed by exactly one CloseHandle, and
   * never listens again. A request still uses the OVERLAPPED and the buffer afterwards exactly if
   * there was one and its completion is not delivered during the sleep, or there is no sleep.
   */
  lemma HandleClosedExactlyOnce(ws: seq<Point>, steps: seq<Step>, answer: CancelAnswer, sleep: seq<Step>)
    requires IsLife(ws, steps) && PointOk(ws[0])
    ensures var v, w := ws[|steps|], Destroy(ws[|steps|], answer, sleep);
      && w.status == FINISHED && w.opens == 1 && w.closes == 1
      && (w.requests != [] <==>
            v.requests != [] && (CancelResultOf(v, answer) == CancelThrew || !DeliveredIn(v.requests[0], sleep)))
  {
    LifeOk(ws, steps, |steps|);
    SleepOk(Cancel(ws[|steps|], answer), sleep);
  }

  /** A cancelled request whose completion does not arrive during the sleep survives its watch point. */
  lemma RequestCanOutliveItsWatchPoint() returns (w: Point)
    ensures w == Construct(Opened(ReadStarted)).0 && PointOk(w)
    ensures Destroy(w, CancelStarted, []).requests == [InFlight]
    ensures Destroy(w, CancelStarted, [Complete(ERROR_OPERATION_ABORTED, 0)]).requests == [Completed(ERROR_OPERATION_ABORTED, 0)]
    ensures forall env ::
      Destroy(w, CancelStarted, [Complete(ERROR_OPERATION_ABORTED, 0), Deliver(env)]) == Point(FINISHED, [], 1, 1)
  {
    w := Construct(Opened(ReadStarted)).0;
    var cancelled := Cancel(w, CancelStarted);
    var aborted := Complete(ERROR_OPERATION_ABORTED, 0);
    var completed := Next(cancelled, aborted);
    assert completed.requests == [Completed(ERROR_OPERATION_ABORTED, 0)];
    assert Sleep(cancelled, [aborted]) == completed by {
      assert [aborted][1..] == [];
    }
    forall env ensures Sleep(cancelled, [aborted, Deliver(env)]) == Point(FINISHED, [], 1, 1) {
      assert Next(completed, Deliver(env)) == Point(FINISHED, [], 1, 1);
      assert [aborted, Deliver(env)][1..] == [Deliver(env)] && [Deliver(env)][1..] == [];
      assert Sleep(completed, [Deliver(env)]) == Point(FINISHED, [], 1, 1);
    }
  }
}
