/** The Linux server as the objects it is made of, each method proved against the registry model. */
module LinuxServer {
  import opened Prelude
  import opened InotifyKernel
  import opened LinuxRegistry
  import opened LinuxSystem
  import opened LinuxBatch
  import opened LinuxHistory
  import opened InotifyRecords

  /** The inotify instance behind the file descriptor: the kernel as the server sees it. */
  class Inotify {
    var next: int
    var live: set<int>
    var queue: seq<Event>
    var full: bool
    ghost var lost: set<int>

    ghost function View(): Kernel
      reads this
    {
      Kernel(next, live, queue, full, lost)
    }

    constructor ()
      ensures View() == FRESH_KERNEL
    {
      next, live, queue, full, lost := 1, {}, [], false, {};
    }

    /** inotify_add_watch, where `choice` is what the kernel finds when it resolves the path. */
    method AddWatch(choice: AddChoice) returns (result: AddResult)
      modifies this
      ensures result == AnswerAdd(old(View()), choice)
      ensures View() == if choice.Fresh? then AddFresh(old(View())) else old(View())
    {
      match choice {
        case Fresh =>
          result := Wd(next);
          live := live + {next};
          next := next + 1;
        case Existing(wd) => result := Wd(wd);
        case NoSpace => result := NoSpaceLeft;
        case Refused => result := AddError;
      }
    }

    /** inotify_rm_watch: queues IN_IGNORED for a live watch, and fails with EINVAL otherwise. */
    method RmWatch(wd: int) returns (answer: RmAnswer)
      modifies this
      ensures answer == RmAnswerFor(old(View()), wd)
      ensures View() == AfterRm(old(View()), wd)
    {
      if wd !in live {
        return RmInvalid;
      }
      live := live - {wd};
      if full {
        lost := lost + {wd};
      } else {
        queue := queue + [IgnoredEvent(wd)];
      }
      return RmOk;
    }

    /** Something changes below a live watch; while the queue is full nobody gets to know. */
    method Emit(event: Event)
      requires !IsIgnored(event)
      modifies this`queue
      ensures View() == Enqueue(old(View()), event)
    {
      if !full {
        queue := queue + [event];
      }
    }

    /** The queue runs full: an overflow event is the last to be queued until there is room again. */
    method RunFull()
      modifies this`queue, this`full
      ensures View() == Overflow(old(View()))
    {
      queue, full := queue + [OverflowEvent()], true;
    }

    method MakeRoom()
      modifies this`full
      ensures View() == old(View()).(full := false)
    {
      full := false;
    }
  }

  function Added(s: Registry, path: Path, wd: int, inode: int): Registry {
    s.(points := s.points[path := Point(LISTENING, wd, path, inode)], roots := s.roots[wd := path])
  }

  function WithCancelled(s: Registry, path: Path): (t: Registry)
    requires path in s.points
    ensures path in t.points
  {
    s.(points := s.points[path := s.points[path].(status := CANCELLED)])
  }

  lemma CancelKeepsIndex(s: Registry, path: Path)
    requires IndexOk(s) && path in s.points
    ensures IndexOk(WithCancelled(s, path))
  {}

  function Removed(s: Registry, path: Path): Registry
    requires path in s.points
  {
    var wd := s.points[path].wd;
    Registry(s.points - {path}, s.roots - {wd}, if wd in s.recent then s.recent else s.recent[wd := path], s.terminating)
  }

  lemma AddedAndRemovedKeepIndex(s: Registry, path: Path, wd: int, inode: int)
    requires IndexOk(s)
    ensures path !in s.points && wd !in s.roots ==> IndexOk(Added(s, path, wd, inode))
    ensures path in s.points ==> IndexOk(Removed(s, path))
  {
    ApplyKeepsIndex(s, DoRegister(path, Some(inode), Wd(wd)));
    ApplyKeepsIndex(s, DoUnregister(path, RmOk));
  }

  lemma UnregisterBranches(y: System, path: Path)
    ensures var s, k := y.server, y.kernel;
      var z, success := Next(y, UnregisterStep(path)), UnregisterSucceeds(y, path);
      if path !in s.points then z == y && !success
      else
        var wd := s.points[path].wd;
        var result := Cancelled(s.points[path], RmAnswerFor(k, wd));
        if result == AlreadyCancelled then z == System(WithCancelled(s, path), k) && !success
        else
          && s.points[path].status == LISTENING
          && z == System(Removed(WithCancelled(s, path), path), AfterRm(k, wd)) && (success <==> result == CancelOk)
  {
    if path in y.server.points {
      if y.server.points[path].status == CANCELLED {
        assert WithCancelled(y.server, path) == y.server;
      } else {
        assert y.server.points - {path} == WithCancelled(y.server, path).points - {path};
      }
    }
  }

  lemma DispatchFacts(s: Registry, e: Event)
    ensures IsUnmount(e) || IsOverflow(e) ==> Handle(s, e) == s
    ensures IsUnmount(e) ==> Reports(s, e, [])
    ensures !IsUnmount(e) && IsOverflow(e) ==> forall rs :: OverflowReports(s, rs) ==> Reports(s, e, rs)
    ensures !IsUnmount(e) && !IsOverflow(e) && e.wd !in s.roots ==> Reports(s, e, [])
  {}

  class WatchPoint {
    var status: Status
    const inotify: Inotify
    const watchDescriptor: int
    const path: Path
    const inode: int

    ghost function View(): Point
      reads this
    {
      Point(status, watchDescriptor, path, inode)
    }

    constructor (path: Path, inotify: Inotify, watchDescriptor: int, inode: int)
      ensures View() == Point(LISTENING, watchDescriptor, path, inode)
      ensures this.inotify == inotify
    {
      this.status := LISTENING;
      this.inotify, this.watchDescriptor, this.path, this.inode := inotify, watchDescriptor, path, inode;
    }

    method Cancel() returns (result: CancelResult)
      modifies this`status, inotify
      ensures status == CANCELLED
      ensures result == Cancelled(old(View()), RmAnswerFor(old(inotify.View()), watchDescriptor))
      ensures inotify.View() == if old(status) == LISTENING then AfterRm(old(inotify.View()), watchDescriptor) else old(inotify.View())
    {
      if status == CANCELLED {
        return AlreadyCancelled;
      }
      status := CANCELLED;
      var answer := inotify.RmWatch(watchDescriptor);
      match answer {
        case RmOk => return CancelOk;
        case RmInvalid => return NotCancelled;
        case RmOther => return CancelThrew;
      }
    }
  }

  class Server {
    const inotify: Inotify
    var watchPoints: map<Path, WatchPoint>
    var watchRoots: map<int, Path>
    var recentlyUnregisteredWatchRoots: map<int, Path>
    var shouldTerminate: bool
    var callbacks: seq<Callback>  // the calls made to the Java callback

    ghost function View(): Registry
      reads `watchPoints, `watchRoots, `recentlyUnregisteredWatchRoots, `shouldTerminate, watchPoints.Values
    {
      Registry(map p | p in watchPoints :: watchPoints[p].View(), watchRoots, recentlyUnregisteredWatchRoots, shouldTerminate)
    }

    ghost function Sys(): System
      reads `watchPoints, `watchRoots, `recentlyUnregisteredWatchRoots, `shouldTerminate, watchPoints.Values, inotify
    {
      System(View(), inotify.View())
    }

    /** Every entry is stored under its own path. */
    ghost predicate EntriesOk()
      reads `watchPoints, watchPoints.Values
    {
      forall p :: p in watchPoints ==> watchPoints[p].path == p && watchPoints[p].inotify == inotify
    }

    ghost predicate Valid()
      reads `watchPoints, `watchRoots, `recentlyUnregisteredWatchRoots, `shouldTerminate, watchPoints.Values
    {
      EntriesOk() && IndexOk(View())
    }

    constructor ()
      ensures Valid() && fresh(inotify) && watchPoints == map[]
      ensures Sys() == INITIAL_SYSTEM && callbacks == []
    {
      inotify := new Inotify();
      watchPoints, watchRoots, recentlyUnregisteredWatchRoots := map[], map[], map[];
      shouldTerminate, callbacks := false, [];
    }

    /** `lstat` and `add` are what the system calls answer. */
    method RegisterPath(path: Path, lstat: Option<int>, add: AddChoice) returns (result: RegisterResult)
      requires Valid() && Enabled(Sys(), RegisterStep(path, lstat, add))
      modifies this, inotify
      ensures Valid() && fresh(watchPoints.Values - old(watchPoints.Values)) && callbacks == old(callbacks)
      ensures result == RegisterOutcome(old(Sys()), path, Answer(lstat, add))
      ensures Sys() == Next(old(Sys()), RegisterStep(path, lstat, add))
    {
      if path in watchPoints {
        return AlreadyWatching;
      }
      if lstat.None? {
        return StatFailed;
      }
      var added := inotify.AddWatch(add);
      assert View() == old(View());
      if !added.Wd? {
        return if added == NoSpaceLeft then WatchesLimitTooLow else AddWatchFailed;
      }
      if added.wd in watchRoots {
        return AlreadyWatching;
      }
      AddWatchPoint(path, added.wd, lstat.value);
      return Registered;
    }

    method AddWatchPoint(path: Path, wd: int, inode: int)
      requires Valid() && path !in watchPoints && wd !in watchRoots
      modifies `watchPoints, `watchRoots
      ensures Valid() && fresh(watchPoints.Values - old(watchPoints.Values))
      ensures View() == Added(old(View()), path, wd, inode)
    {
      hide IndexOk;
      AddedAndRemovedKeepIndex(View(), path, wd, inode);
      var watchPoint := new WatchPoint(path, inotify, wd, inode);
      assert View() == old(View());
      InsertWatchPoint(watchPoint);
    }

    method InsertWatchPoint(watchPoint: WatchPoint)
      requires EntriesOk() && watchPoint.inotify == inotify && watchPoint.status == LISTENING
      modifies `watchPoints, `watchRoots
      ensures EntriesOk() && watchPoints == old(watchPoints)[watchPoint.path := watchPoint]
      ensures View() == Added(old(View()), watchPoint.path, watchPoint.watchDescriptor, watchPoint.inode)
    {
      watchPoints := watchPoints[watchPoint.path := watchPoint];
      watchRoots := watchRoots[watchPoint.watchDescriptor := watchPoint.path];
      assert View().points == old(View()).points[watchPoint.path := watchPoint.View()];
    }

    method UnregisterPath(path: Path) returns (success: bool)
      requires Valid()
      modifies this, inotify, watchPoints.Values
      ensures Valid() && watchPoints.Values <= old(watchPoints.Values) && callbacks == old(callbacks)
      ensures success == UnregisterSucceeds(old(Sys()), path)
      ensures Sys() == Next(old(Sys()), UnregisterStep(path))
    {
      hide Next, UnregisterSucceeds, Removed, WithCancelled, IndexOk, AfterRm, RmAnswerFor;
      UnregisterBranches(Sys(), path);
      if path !in watchPoints {
        return false;
      }
      var wd := watchPoints[path].watchDescriptor;
      var result := CancelWatchPoint(path);
      if result == AlreadyCancelled {
        return false;
      }
      RemoveWatchPoint(path, wd);
      return result == CancelOk;
    }

    /** Cancels the entry of a path, seen from the server. */
    method CancelWatchPoint(path: Path) returns (result: CancelResult)
      requires Valid() && path in watchPoints
      modifies inotify, watchPoints.Values
      ensures Valid()
      ensures var s, k := old(View()), old(inotify.View());
        && View() == WithCancelled(s, path)
        && result == Cancelled(s.points[path], RmAnswerFor(k, s.points[path].wd))
        && inotify.View() == if Listening(s, path) then AfterRm(k, s.points[path].wd) else k
    {
      hide IndexOk, AfterRm;
      ghost var before := View();
      CancelKeepsIndex(before, path);
      var watchPoint := watchPoints[path];
      result := watchPoint.Cancel();
      assert View().points == before.points[path := watchPoint.View()];
    }

    method RemoveWatchPoint(path: Path, wd: int)
      requires Valid() && path in watchPoints && watchPoints[path].watchDescriptor == wd
      modifies `watchPoints, `watchRoots, `recentlyUnregisteredWatchRoots
      ensures Valid() && watchPoints.Values <= old(watchPoints.Values)
      ensures View() == Removed(old(View()), path)
    {
      hide IndexOk;
      assert path in View().points;
      AddedAndRemovedKeepIndex(View(), path, wd, 0);
      if wd !in recentlyUnregisteredWatchRoots {
        recentlyUnregisteredWatchRoots := recentlyUnregisteredWatchRoots[wd := path];
      }
      watchRoots := watchRoots - {wd};
      watchPoints := watchPoints - {path};
      assert View().points == old(View()).points - {path};
    }

    /** Stops at the first path that cannot be registered; `done` paths have been registered by then. */
    method RegisterPaths(paths: seq<Path>, answers: seq<Answer>) returns (done: nat, result: RegisterResult)
      requires Valid() && |paths| == |answers| && AnswersPossible(Sys(), paths, answers)
      modifies this, inotify
      ensures Valid() && fresh(watchPoints.Values - old(watchPoints.Values)) && callbacks == old(callbacks)
      ensures (Sys(), done, result) == RegisterAll(old(Sys()), paths, answers)
    {
      hide RegisterRest, Next, Enabled, RegisterOutcome, IndexOk;
      done := 0;
      ghost var all := RegisterAll(Sys(), paths, answers);
      RegisterRestBegins(Sys(), paths, answers);
      while done < |paths|
        invariant done <= |paths| && Valid() && fresh(watchPoints.Values - old(watchPoints.Values)) && callbacks == old(callbacks)
        invariant RegisterRest(all, Sys(), paths, answers, done)
      {
        RegisterRestTurn(all, Sys(), paths, answers, done);
        result := RegisterPath(paths[done], answers[done].lstat, answers[done].add);
        if result != Registered {
          return done, result;
        }
        done := done + 1;
      }
      RegisterRestEnds(all, Sys(), paths, answers);
      return done, Registered;
    }

    /** Tries every path, whether or not an earlier one failed. */
    method UnregisterPaths(paths: seq<Path>) returns (success: bool)
      requires Valid()
      modifies this, inotify, watchPoints.Values
      ensures Valid() && watchPoints.Values <= old(watchPoints.Values) && callbacks == old(callbacks)
      ensures (Sys(), success) == UnregisterAll(old(Sys()), paths)
    {
      success := true;
      for i := 0 to |paths|
        invariant Valid() && watchPoints.Values <= old(watchPoints.Values) && callbacks == old(callbacks)
        invariant var (z, rest) := UnregisterAll(Sys(), paths[i..]);
          UnregisterAll(old(Sys()), paths) == (z, success && rest)
      {
        assert paths[i..][1..] == paths[i + 1..];
        var one := UnregisterPath(paths[i]);
        success := success && one;
      }
    }

    /** `fs` answers lstat during the call. */
    method StopWatchingMovedPaths(fs: map<Path, int>, pathsToCheck: seq<Path>) returns (droppedPaths: seq<Path>)
      requires Valid()
      modifies inotify, watchPoints.Values
      ensures Valid()
      ensures (Sys(), droppedPaths) == StopMoved(old(Sys()), fs, pathsToCheck)
    {
      droppedPaths := [];
      assert [] + StopMoved(Sys(), fs, pathsToCheck).1 == StopMoved(Sys(), fs, pathsToCheck).1;
      for i := 0 to |pathsToCheck|
        invariant Valid()
        invariant var (z, rest) := StopMoved(Sys(), fs, pathsToCheck[i..]);
          StopMoved(old(Sys()), fs, pathsToCheck) == (z, droppedPaths + rest)
      {
        StopMovedTurn(Sys(), fs, pathsToCheck, i, droppedPaths);
        var dropped := StopWatchingIfMoved(fs, pathsToCheck[i]);
        if dropped {
          droppedPaths := droppedPaths + [pathsToCheck[i]];
        }
      }
      assert droppedPaths + [] == droppedPaths;
    }

    /** The body of the loop above: whether the path is added to the dropped list. */
    method StopWatchingIfMoved(fs: map<Path, int>, pathToCheck: Path) returns (dropped: bool)
      requires Valid()
      modifies inotify, watchPoints.Values
      ensures Valid()
      ensures dropped == Drops(old(View()), pathToCheck, Lstat(fs, pathToCheck))
      ensures Sys() == Next(old(Sys()), CheckMovedStep(pathToCheck, Lstat(fs, pathToCheck)))
    {
      if pathToCheck !in watchPoints {
        return true;
      }
      var watchPoint := watchPoints[pathToCheck];
      if watchPoint.status != LISTENING {
        return true;
      }
      if watchPoint.path in fs && fs[watchPoint.path] == watchPoint.inode {
        return false;
      }
      var _ := CancelWatchPoint(pathToCheck);
      return true;
    }

    /**
     * What goes on beside the run loop: a call by another thread, made under `mutationMutex` unless
     * it is one turn of stopWatchingMovedPaths, or something the kernel does. What is not possible
     * at the moment does not happen.
     */
    method Act(step: Step, locked: bool)
      requires Valid()
      modifies this, inotify, watchPoints.Values
      ensures Valid() && fresh(watchPoints.Values - old(watchPoints.Values)) && callbacks == old(callbacks)
      ensures Sys() == After(old(Sys()), step, locked) && shouldTerminate == old(shouldTerminate)
    {
      hide IndexOk;
      if Possible(Sys(), step, locked) {
        OnlyTerminateStepSetsTheFlag(Sys(), step);
      }
      match step {
        case RegisterStep(path, lstat, add) =>
          if !locked && (add.Existing? ==> add.wd in inotify.live) && (add.Fresh? ==> inotify.next < MAX_DESCRIPTOR) {
            var _ := RegisterPath(path, lstat, add);
          }
        case UnregisterStep(path) =>
          if !locked {
            var _ := UnregisterPath(path);
          }
        case CheckMovedStep(path, lstat) =>
          var _ := StopWatchingIfMoved(if lstat.Some? then map[path := lstat.value] else map[], path);
        case _ => KernelActs(step);
      }
    }

    method KernelActs(step: Step)
      requires step.EmitStep? || step.RemoveStep? || step.OverflowStep? || step.RoomStep? || step.HandleStep? || step.TerminateStep?
      modifies inotify
      ensures Sys() == After(old(Sys()), step, true)
    {
      match step {
        case EmitStep(event) =>
          if event.wd in inotify.live && !IsIgnored(event) && !IsOverflow(event) && EventOk(event) {
            inotify.Emit(event);
          }
        case RemoveStep(wd) =>
          if wd in inotify.live {
            var _ := inotify.RmWatch(wd);
          }
        case OverflowStep => inotify.RunFull();
        case RoomStep => inotify.MakeRoom();
        case _ =>
      }
    }

    /** Handles one event; `reported` is what it passes to the Java callback. */
    method HandleEvent(event: Event) returns (reported: seq<Report>)
      requires Valid()
      modifies this
      ensures Valid() && watchPoints.Values <= old(watchPoints.Values)
      ensures View() == Handle(old(View()), event) && shouldTerminate == old(shouldTerminate)
      ensures Reports(old(View()), event, reported) && callbacks == old(callbacks) + CallsFor(reported)
    {
      hide *;
      reported := DispatchEvent(event);
      callbacks := callbacks + CallsFor(reported);
    }

    method DispatchEvent(event: Event) returns (reported: seq<Report>)
      requires Valid()
      modifies `watchPoints, `watchRoots, `recentlyUnregisteredWatchRoots
      ensures Valid() && watchPoints.Values <= old(watchPoints.Values)
      ensures View() == Handle(old(View()), event) && Reports(old(View()), event, reported)
    {
      hide Handle, Reports, OverflowReports, IsSet, IndexOk;
      DispatchFacts(View(), event);
      if IsUnmount(event) {
        return [];
      }

      // the kernel has dropped events
      if IsOverflow(event) {
        reported := ReportOverflowEverywhere();
        return;
      }

      if event.wd in watchRoots {
        reported := HandleRootEvent(event);
      } else {
        HandleUnregisteredEvent(event);
        return [];
      }
    }

    method ReportOverflowEverywhere() returns (reported: seq<Report>)
      requires Valid()
      ensures OverflowReports(View(), reported)
    {
      reported := [];
      var remaining := watchPoints.Keys;
      while remaining != {}
        invariant remaining <= watchPoints.Keys
        invariant |reported| + |remaining| == |watchPoints.Keys|
        invariant Distinct(reported)
        invariant forall r :: r in reported ==> r.OverflowAt? && r.path in watchPoints.Keys - remaining
        invariant forall p :: p in watchPoints.Keys - remaining ==> OverflowAt(p) in reported
        decreases |remaining|
      {
        var path :| path in remaining;
        reported := reported + [OverflowAt(path)];
        remaining := remaining - {path};
      }
      assert View().points.Keys == watchPoints.Keys;
      assert |View().points| == |View().points.Keys|;
    }

    /** The part of handleEvent for descriptors that are no watch root: recently removed, or unknown. */
    method HandleUnregisteredEvent(event: Event)
      requires Valid() && !IsUnmount(event) && !IsOverflow(event) && event.wd !in watchRoots
      modifies `recentlyUnregisteredWatchRoots
      ensures Valid() && View() == Handle(old(View()), event)
    {
      if event.wd in recentlyUnregisteredWatchRoots {
        if IsIgnored(event) {
          recentlyUnregisteredWatchRoots := recentlyUnregisteredWatchRoots - {event.wd};
        }
      }
      assert View().points == old(View()).points;
    }

    /** The part of handleEvent for a watch root. */
    method HandleRootEvent(event: Event) returns (reported: seq<Report>)
      requires Valid() && !IsUnmount(event) && !IsOverflow(event) && event.wd in watchRoots
      modifies `watchRoots, `watchPoints
      ensures Valid() && watchPoints.Values <= old(watchPoints.Values)
      ensures View() == Handle(old(View()), event)
      ensures Reports(old(View()), event, reported)
    {
      var path := watchRoots[event.wd];
      assert path in View().points;
      var watchPoint := watchPoints[path];

      if IsIgnored(event) {
        // the last event of this watch
        FinishWatchPoint(event.wd);
        return [];
      }

      if watchPoint.status != LISTENING {
        return [];
      }

      if shouldTerminate {
        return [];
      }

      if event.name != [] {
        path := path + "/";
        path := path + Widen(event.name);
      }
      var changeType;
      if IsSet(event.mask, IN_CREATE) || IsSet(event.mask, IN_MOVED_TO) {
        changeType := CREATED;
      } else if IsSet(event.mask, IN_DELETE) || IsSet(event.mask, IN_DELETE_SELF) || IsSet(event.mask, IN_MOVED_FROM) {
        changeType := REMOVED;
      } else if IsSet(event.mask, IN_MODIFY) {
        changeType := MODIFIED;
      } else {
        return [Unknown(path)];
      }
      return [Change(changeType, path)];
    }

    method FinishWatchPoint(wd: int)
      requires Valid() && wd in watchRoots
      modifies `watchRoots, `watchPoints
      ensures Valid() && watchPoints.Values <= old(watchPoints.Values)
      ensures View() == old(View()).(roots := old(watchRoots) - {wd}, points := old(View()).points - {old(watchRoots)[wd]})
    {
      var path := watchRoots[wd];
      watchRoots := watchRoots - {wd};
      watchPoints := watchPoints - {path};
      assert View().points == old(View()).points - {path};
    }
  }
}
