/**
 * The registry and the kernel running side by side. Every step is atomic: a server call made
 * under `mutationMutex`, one event handled, or something the kernel does on its own.
 */
module LinuxSystem {
  import opened Prelude
  import opened InotifyKernel
  import opened LinuxRegistry

  datatype System = System(server: Registry, kernel: Kernel)

  const INITIAL_SYSTEM := System(EMPTY_REGISTRY, FRESH_KERNEL)

  datatype Step =
    | RegisterStep(path: Path, lstat: Option<int>, add: AddChoice)
    | UnregisterStep(path: Path)
    | CheckMovedStep(path: Path, lstat: Option<int>)
    | TerminateStep
    | HandleStep
    | EmitStep(event: Event)   // something changed below a live watch
    | RemoveStep(wd: int)      // the watched directory was deleted or unmounted
    | OverflowStep             // the kernel queue is full: events are dropped from now on
    | RoomStep                 // there is room again

  /** What the kernel can do: the assumptions about inotify. */
  predicate Enabled(y: System, step: Step) {
    match step
    case RegisterStep(_, _, add) => add.Existing? ==> add.wd in y.kernel.live
    case HandleStep => |y.kernel.queue| > 0
    case EmitStep(e) => e.wd in y.kernel.live && !IsIgnored(e) && !IsOverflow(e)
    case RemoveStep(wd) => wd in y.kernel.live
    case _ => true
  }

  /** inotify_add_watch is reached only when the path is unknown and lstat finds it. */
  predicate ReachesAdd(s: Registry, path: Path, lstat: Option<int>) {
    path !in s.points && lstat.Some?
  }

  function AnswerAdd(k: Kernel, add: AddChoice): AddResult {
    match add
    case Fresh => Wd(k.next)
    case Existing(wd) => Wd(wd)
    case NoSpace => NoSpaceLeft
    case Refused => AddError
  }

  function ActionOf(y: System, step: Step): Option<Action>
    requires Enabled(y, step)
  {
    match step
    case RegisterStep(path, lstat, add) => Some(DoRegister(path, lstat, AnswerAdd(y.kernel, add)))
    case UnregisterStep(path) =>
      Some(DoUnregister(path, if path in y.server.points then RmAnswerFor(y.kernel, y.server.points[path].wd) else RmInvalid))
    case CheckMovedStep(path, lstat) => Some(DoCheckMoved(path, lstat))
    case TerminateStep => Some(DoTerminate)
    case HandleStep => Some(DoHandle(y.kernel.queue[0]))
    case _ => None
  }

  function KernelAfter(y: System, step: Step): Kernel
    requires Enabled(y, step)
  {
    var k := y.kernel;
    match step
    case RegisterStep(path, lstat, add) => if ReachesAdd(y.server, path, lstat) && add.Fresh? then AddFresh(k) else k
    case UnregisterStep(path) => if Listening(y.server, path) then AfterRm(k, y.server.points[path].wd) else k
    case CheckMovedStep(path, lstat) => if HasMoved(y.server, path, lstat) then AfterRm(k, y.server.points[path].wd) else k
    case TerminateStep => k
    case HandleStep => k.(queue := k.queue[1..])
    case EmitStep(e) => Enqueue(k, e)
    case RemoveStep(wd) => EndWatch(k, wd)
    case OverflowStep => Overflow(k)
    case RoomStep => k.(full := false)
  }

  function Next(y: System, step: Step): System
    requires Enabled(y, step)
  {
    var a := ActionOf(y, step);
    System(if a.Some? then Apply(y.server, a.value) else y.server, KernelAfter(y, step))
  }

  /** The descriptor is still known to the server. */
  predicate Known(s: Registry, wd: int) { wd in s.roots || wd in s.recent }

  ghost predicate Conserved(y: System) {
    var s, k := y.server, y.kernel;
    && IndexOk(s)
    && s.roots.Keys !! s.recent.Keys
    // descriptors are handed out once, in increasing order
    && k.next >= 1
    && (forall wd :: wd in k.live || Known(s, wd) || wd in k.lost ==> 0 < wd < k.next)
    // every live watch is one of ours, and every queued event can be attributed
    && (forall wd :: wd in k.live ==> wd in s.roots)
    && (forall i :: 0 <= i < |k.queue| ==> IsOverflow(k.queue[i]) || Known(s, k.queue[i].wd))
    && (forall i :: 0 <= i < |k.queue| && IsOverflow(k.queue[i]) ==> !IsIgnored(k.queue[i]) && k.queue[i].wd == -1)
    && (forall i :: 0 <= i < |k.queue| && IsUnmount(k.queue[i]) ==> !IsIgnored(k.queue[i]))
    // the two halves of the cancellation handshake
    && (forall wd :: Known(s, wd) ==> Accounted(k, wd))
    && (forall wd :: wd in s.recent ==> wd !in k.live)
    && (forall p :: p in s.points && s.points[p].status == CANCELLED ==> s.points[p].wd !in k.live)
  }

  // ----- Conservation is inductive -----

  lemma EndWatchConserves(y: System, wd: int)
    requires Conserved(y) && wd in y.kernel.live
    ensures Conserved(y.(kernel := EndWatch(y.kernel, wd)))
  {
    var k := y.kernel;
    var k' := EndWatch(k, wd);
    var e := IgnoredEvent(wd);
    forall w | Known(y.server, w) ensures Accounted(k', w) {
      assert Accounted(k, w);
      if w == wd {
        EnqueueIgnored(k.queue, e);
      } else {
        EnqueueOther(k.queue, e, w);
      }
    }
  }

  lemma RegisterConserves(y: System, step: Step)
    requires Conserved(y) && Enabled(y, step) && step.RegisterStep?
    ensures Conserved(Next(y, step))
  {
    var s, k, y' := y.server, y.kernel, Next(y, step);
    if ReachesAdd(s, step.path, step.lstat) && step.add.Fresh? {
      assert k.next !in s.roots;
      assert NoIgnored(k.queue, k.next) by {
        forall i | 0 <= i < |k.queue| ensures k.queue[i].wd != k.next {
          assert IsOverflow(k.queue[i]) || Known(s, k.queue[i].wd);
        }
      }
      forall w | Known(y'.server, w) ensures Accounted(y'.kernel, w) {
        if w != k.next {
          assert Accounted(k, w);
        }
      }
    } else {
      assert y' == y;
    }
  }

  lemma CancelConserves(y: System, path: Path)
    requires Conserved(y) && Listening(y.server, path)
    ensures var wd := y.server.points[path].wd;
      var k' := AfterRm(y.kernel, wd);
      Conserved(y.(kernel := k')) && wd !in k'.live
  {
    if y.server.points[path].wd in y.kernel.live {
      EndWatchConserves(y, y.server.points[path].wd);
    }
  }

  lemma UnregisterConserves(y: System, path: Path)
    requires Conserved(y)
    ensures Conserved(Next(y, UnregisterStep(path)))
  {
    if Listening(y.server, path) {
      CancelConserves(y, path);
      ApplyKeepsIndex(y.server, ActionOf(y, UnregisterStep(path)).value);
      var z := y.(kernel := AfterRm(y.kernel, y.server.points[path].wd));
      var y' := Next(y, UnregisterStep(path));
      forall w | Known(y'.server, w) ensures Accounted(y'.kernel, w) {
        assert Known(z.server, w);
      }
    }
  }

  /** Marking an entry as cancelled once its watch is dead. */
  lemma MarkingConserves(y: System, path: Path)
    requires Conserved(y) && path in y.server.points && y.server.points[path].wd !in y.kernel.live
    ensures Conserved(y.(server := y.server.(points := y.server.points[path := y.server.points[path].(status := CANCELLED)])))
  {
    hide Accounted, IsIgnored, IsOverflow, IsUnmount;
    var y' := y.(server := y.server.(points := y.server.points[path := y.server.points[path].(status := CANCELLED)]));
    forall w | Known(y'.server, w) ensures Accounted(y'.kernel, w) {
      assert Known(y.server, w);
    }
  }

  lemma CheckMovedConserves(y: System, path: Path, lstat: Option<int>)
    requires Conserved(y)
    ensures Conserved(Next(y, CheckMovedStep(path, lstat)))
  {
    hide Conserved, AfterRm;
    if HasMoved(y.server, path, lstat) {
      CancelConserves(y, path);
      MarkingConserves(y.(kernel := AfterRm(y.kernel, y.server.points[path].wd)), path);
    }
  }

  lemma HandleConserves(y: System)
    requires Conserved(y) && |y.kernel.queue| > 0
    ensures Conserved(Next(y, HandleStep))
  {
    var s, k, y' := y.server, y.kernel, Next(y, HandleStep);
    var e := k.queue[0];
    ApplyKeepsIndex(s, DoHandle(e));
    if IsIgnored(e) {
      assert Known(s, e.wd) && Accounted(k, e.wd);
      Dequeue(k.queue, e.wd);
    }
    forall w | Known(y'.server, w) ensures Accounted(y'.kernel, w) {
      assert Known(s, w) && Accounted(k, w);
      Dequeue(k.queue, w);
    }
  }

  lemma EmitConserves(y: System, e: Event)
    requires Conserved(y) && Enabled(y, EmitStep(e))
    ensures Conserved(Next(y, EmitStep(e)))
  {
    var y' := Next(y, EmitStep(e));
    forall w | Known(y'.server, w) ensures Accounted(y'.kernel, w) {
      assert Accounted(y.kernel, w);
      EnqueueOther(y.kernel.queue, e, w);
    }
  }

  lemma OverflowConserves(y: System)
    requires Conserved(y)
    ensures Conserved(Next(y, OverflowStep))
  {
    var y' := Next(y, OverflowStep);
    forall w | Known(y'.server, w) ensures Accounted(y'.kernel, w) {
      assert Accounted(y.kernel, w);
      EnqueueOther(y.kernel.queue, OverflowEvent(), w);
    }
  }

  lemma NextConserves(y: System, step: Step)
    requires Conserved(y) && Enabled(y, step)
    ensures Conserved(Next(y, step))
  {
    match step
    case RegisterStep(_, _, _) => RegisterConserves(y, step);
    case UnregisterStep(path) => UnregisterConserves(y, path);
    case CheckMovedStep(path, lstat) => CheckMovedConserves(y, path, lstat);
    case TerminateStep =>
    case HandleStep => HandleConserves(y);
    case EmitStep(e) => EmitConserves(y, e);
    case RemoveStep(wd) => EndWatchConserves(y, wd);
    case OverflowStep => OverflowConserves(y);
    case RoomStep =>
      forall w | Known(y.server, w) ensures Accounted(Next(y, step).kernel, w) {
        assert Accounted(y.kernel, w);
      }
  }

  // ----- Whole runs -----

  /** A run from the initial state: `ys[i]` is the system before step `i`. */
  ghost predicate IsRun(ys: seq<System>, steps: seq<Step>) {
    && |ys| == |steps| + 1
    && ys[0] == INITIAL_SYSTEM
    && forall i :: 0 <= i < |steps| ==> Enabled(ys[i], steps[i]) && ys[i + 1] == Next(ys[i], steps[i])
  }

  lemma {:induction false} RunConserves(ys: seq<System>, steps: seq<Step>, n: nat)
    requires IsRun(ys, steps) && n < |ys|
    ensures Conserved(ys[n])
    decreases n
  {
    if n > 0 {
      RunConserves(ys, steps, n - 1);
      NextConserves(ys[n - 1], steps[n - 1]);
    }
  }

  /**
   * Whatever is queued in any run, overflow included, belongs to a descriptor the server knows:
   * the "unknown watch descriptor" branch of handleEvent is never taken.
   */
  lemma NoUnknownDescriptor(ys: seq<System>, steps: seq<Step>, n: nat)
    requires IsRun(ys, steps) && n < |steps| && steps[n] == HandleStep
    ensures var e := ys[n].kernel.queue[0];
      IsOverflow(e) || e.wd in ys[n].server.roots || e.wd in ys[n].server.recent
  {
    RunConserves(ys, steps, n);
  }

  /** Without a dropped IN_IGNORED, a known descriptor is live, or dead with its last event pending. */
  lemma HandshakeComplete(ys: seq<System>, steps: seq<Step>, n: nat, wd: int)
    requires IsRun(ys, steps) && n < |ys| && ys[n].kernel.lost == {}
    ensures var s, k := ys[n].server, ys[n].kernel;
      && !(wd in s.roots && wd in s.recent)
      && (wd in k.live ==> wd in s.roots)
      && (wd in s.roots && wd in k.live ==> NoIgnored(k.queue, wd))
      && (wd in s.recent || (wd in s.roots && wd !in k.live) ==> EndsIgnored(k.queue, wd))
      && (wd in s.roots && s.roots[wd] in s.points && s.points[s.roots[wd]].status == CANCELLED ==> EndsIgnored(k.queue, wd))
  {
    RunConserves(ys, steps, n);
    assert Known(ys[n].server, wd) ==> Accounted(ys[n].kernel, wd);
  }

  /** No cancellation is half done, and the watched paths are exactly the kernel's live watches. */
  ghost predicate Settled(y: System) {
    && y.server.recent == map[]
    && (forall p :: p in y.server.points ==> Listening(y.server, p))
    && y.server.roots.Keys == y.kernel.live
  }

  /** Once the queue is empty, everything is settled exactly when no IN_IGNORED still waited for was dropped. */
  lemma SettledIffNothingLost(y: System)
    requires Conserved(y) && y.kernel.queue == []
    ensures Settled(y) <==> forall wd :: wd in y.kernel.lost ==> !Known(y.server, wd)
  {
    var s, k := y.server, y.kernel;
    forall wd ensures Known(s, wd) ==> (wd in k.live <==> wd !in k.lost) {
      assert Known(s, wd) ==> Accounted(k, wd) && !EndsIgnored(k.queue, wd);
    }
    if forall wd :: wd in k.lost ==> !Known(s, wd) {
      forall wd ensures wd !in s.recent && (wd in s.roots <==> wd in k.live) {
        if wd in s.recent || wd in s.roots {
          assert Known(s, wd);
        }
      }
      assert s.recent == map[];
      assert s.roots.Keys == k.live;
    } else {
      var wd :| wd in k.lost && Known(s, wd);
      assert wd !in k.live;
    }
  }

  function DrainAll(y: System): System
    decreases |y.kernel.queue|
  {
    if y.kernel.queue == [] then y else DrainAll(Next(y, HandleStep))
  }

  /** No IN_IGNORED of the descriptor is going to be handled. */
  predicate LiveOrLost(k: Kernel, wd: int) { wd in k.live || wd in k.lost }

  lemma {:induction false} DrainKeepsLive(y: System)
    requires Conserved(y)
    ensures var z := DrainAll(y);
      && Conserved(z) && z.kernel == y.kernel.(queue := [])
      && (forall p :: p in z.server.points ==> p in y.server.points && z.server.points[p] == y.server.points[p])
      && (forall p :: p in y.server.points && LiveOrLost(y.kernel, y.server.points[p].wd) ==> p in z.server.points)
    decreases |y.kernel.queue|
  {
    if y.kernel.queue != [] {
      var y1 := Next(y, HandleStep);
      HandleConserves(y);
      var e := y.kernel.queue[0];
      assert IsIgnored(e) ==> Known(y.server, e.wd) && Accounted(y.kernel, e.wd);
      assert forall p :: p in y.server.points && LiveOrLost(y.kernel, y.server.points[p].wd) ==> p in y1.server.points;
      DrainKeepsLive(y1);
    }
  }

  /**
   * In any run, overflow included, handling everything that is queued leaves exactly the entries
   * whose watch is live, or whose IN_IGNORED was dropped; the latter are stranded.
   */
  lemma DrainLeavesLiveOrLost(ys: seq<System>, steps: seq<Step>, n: nat)
    requires IsRun(ys, steps) && n < |ys|
    ensures var s, k, z := ys[n].server, ys[n].kernel, DrainAll(ys[n]);
      && z.server.points == (map p | p in s.points && LiveOrLost(k, s.points[p].wd) :: s.points[p])
      && z.kernel == k.(queue := [])
      && (forall p :: p in z.server.points ==> (z.server.points[p].wd in k.lost <==> z.server.points[p].wd !in k.live))
      && (forall p, lstat, add :: p in z.server.points ==> RegisterResultOf(z.server, p, lstat, add) == AlreadyWatching)
  {
    RunConserves(ys, steps, n);
    DrainKeepsLive(ys[n]);
    var z := DrainAll(ys[n]);
    forall p | p in z.server.points
      ensures LiveOrLost(z.kernel, z.server.points[p].wd) && (z.server.points[p].wd in z.kernel.lost <==> z.server.points[p].wd !in z.kernel.live)
    {
      assert Known(z.server, z.server.points[p].wd) && Accounted(z.kernel, z.server.points[p].wd);
    }
  }

  /**
   * Handling everything that is queued completes every pending cancellation: exactly the entries
   * whose watch is dead disappear, and nothing waits for IN_IGNORED any more.
   */
  lemma DrainSettles(ys: seq<System>, steps: seq<Step>, n: nat)
    requires IsRun(ys, steps) && n < |ys| && ys[n].kernel.lost == {}
    ensures var z := DrainAll(ys[n]);
      && Settled(z)
      && z.server.points ==
         map p | p in ys[n].server.points && ys[n].server.points[p].wd in ys[n].kernel.live :: ys[n].server.points[p]
  {
    RunConserves(ys, steps, n);
    DrainKeepsLive(ys[n]);
    SettledIffNothingLost(DrainAll(ys[n]));
  }

  /** A dropped IN_IGNORED strands its path: it stays registered, dead, and cannot be registered again. */
  lemma OverflowCanStrandAPath()
    returns (ys: seq<System>, steps: seq<Step>)
    ensures IsRun(ys, steps)
    ensures var y := ys[|steps|];
      && y.kernel.queue == [] && !y.kernel.full && !Settled(y)
      && "/a" in y.server.points && y.kernel.live == {}
      && forall lstat, add :: RegisterResultOf(y.server, "/a", lstat, add) == AlreadyWatching
  {
    steps := [RegisterStep("/a", Some(7), Fresh), OverflowStep, RemoveStep(1), RoomStep, HandleStep];
    var y0 := INITIAL_SYSTEM;
    var y1 := Next(y0, steps[0]);
    assert y1.kernel == Kernel(2, {1}, [], false, {});
    var y2 := Next(y1, steps[1]);
    var y3 := Next(y2, steps[2]);
    var y4 := Next(y3, steps[3]);
    var y5 := Next(y4, steps[4]);
    ys := [y0, y1, y2, y3, y4, y5];
  }

  // ----- No stale reports -----

  /**
   * `path` was registered by step `k`, which created `wd`; it has been listening under that
   * descriptor up to state `j`, and no event of `wd` had been generated before.
   */
  ghost predicate WatchedSince(ys: seq<System>, steps: seq<Step>, k: nat, j: nat, path: Path, wd: int)
    requires IsRun(ys, steps) && j < |ys|
  {
    && k < j
    && steps[k].RegisterStep? && steps[k].path == path && ys[k].kernel.next == wd
    && (forall m :: k < m <= j ==> Listening(ys[m].server, path) && ys[m].server.points[path].wd == wd)
    && (forall i :: 0 <= i < j && steps[i].EmitStep? && steps[i].event.wd == wd ==> k < i)
  }

  lemma {:induction false} NextOnlyGrows(ys: seq<System>, steps: seq<Step>, i: nat, j: nat)
    requires IsRun(ys, steps) && i <= j < |ys|
    ensures ys[i].kernel.next <= ys[j].kernel.next
    decreases j - i
  {
    if i < j {
      NextOnlyGrows(ys, steps, i, j - 1);
    }
  }

  /** A path that starts to listen under a descriptor does so by a registration that creates it. */
  lemma NewlyListening(y: System, step: Step, path: Path)
    requires Conserved(y) && Enabled(y, step) && Listening(Next(y, step).server, path)
    ensures var wd := Next(y, step).server.points[path].wd;
      || (Listening(y.server, path) && y.server.points[path].wd == wd)
      || (step.RegisterStep? && step.path == path && wd == y.kernel.next)
  {}

  /** Events are generated for descriptors that have been handed out. */
  lemma EmittedBelowNext(y: System, step: Step)
    requires Conserved(y) && Enabled(y, step) && step.EmitStep?
    ensures step.event.wd < y.kernel.next
  {}

  lemma {:induction false} ListeningHasAnOrigin(ys: seq<System>, steps: seq<Step>, j: nat, path: Path)
    requires IsRun(ys, steps) && j < |ys| && Listening(ys[j].server, path)
    ensures exists k: nat :: WatchedSince(ys, steps, k, j, path, ys[j].server.points[path].wd)
    decreases j
  {
    hide Next, Conserved;
    var wd := ys[j].server.points[path].wd;
    var y, step := ys[j - 1], steps[j - 1];
    RunConserves(ys, steps, j - 1);
    NewlyListening(y, step, path);
    if Listening(y.server, path) && y.server.points[path].wd == wd {
      ListeningHasAnOrigin(ys, steps, j - 1, path);
      var k: nat :| WatchedSince(ys, steps, k, j - 1, path, wd);
      assert WatchedSince(ys, steps, k, j, path, wd);
    } else {
      forall i | 0 <= i < j && steps[i].EmitStep? ensures steps[i].event.wd < wd {
        RunConserves(ys, steps, i);
        EmittedBelowNext(ys[i], steps[i]);
        NextOnlyGrows(ys, steps, i, j - 1);
      }
      assert WatchedSince(ys, steps, j - 1, j, path, wd);
    }
  }

  lemma {:induction false} QueuedWasEmitted(ys: seq<System>, steps: seq<Step>, j: nat, e: Event)
    requires IsRun(ys, steps) && j < |ys|
    requires e in ys[j].kernel.queue && !IsIgnored(e) && !IsOverflow(e)
    ensures exists i: nat :: i < j && steps[i] == EmitStep(e)
    decreases j
  {
    var y := ys[j - 1];
    if e in y.kernel.queue {
      QueuedWasEmitted(ys, steps, j - 1, e);
    } else {
      assert steps[j - 1] == EmitStep(e);
    }
  }

  /**
   * Every change or unknown event is reported below a root that is listening under the event's own
   * descriptor, and was generated after the latest registration of that root, even when the path
   * was unregistered and registered again while older events were still queued.
   */
  lemma NoStaleReports(ys: seq<System>, steps: seq<Step>, j: nat, rs: seq<Report>, r: Report)
    requires IsRun(ys, steps) && j < |steps| && steps[j] == HandleStep
    requires Reports(ys[j].server, ys[j].kernel.queue[0], rs) && r in rs && !r.OverflowAt?
    ensures var e, s := ys[j].kernel.queue[0], ys[j].server;
      && e.wd in s.roots
      && r.path == ChangedPath(s.roots[e.wd], e.name)
      && exists k: nat, i: nat :: k < i < j && WatchedSince(ys, steps, k, j, s.roots[e.wd], e.wd) && steps[i] == EmitStep(e)
  {
    var e, s := ys[j].kernel.queue[0], ys[j].server;
    RunConserves(ys, steps, j);
    assert Reportable(s, e);
    var root := s.roots[e.wd];
    ListeningHasAnOrigin(ys, steps, j, root);
    var k: nat :| WatchedSince(ys, steps, k, j, root, e.wd);
    QueuedWasEmitted(ys, steps, j, e);
    var i: nat :| i < j && steps[i] == EmitStep(e);
    assert k < i;
  }
}
