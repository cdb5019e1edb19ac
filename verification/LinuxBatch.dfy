/** The calls that take many paths: registerPaths, unregisterPaths and stopWatchingMovedPaths. */
module LinuxBatch {
  import opened Prelude
  import opened InotifyKernel
  import opened LinuxRegistry
  import opened LinuxSystem

  // ----- registerPaths -----

  /** What lstat and inotify_add_watch answer for one path. */
  datatype Answer = Answer(lstat: Option<int>, add: AddChoice)

  function RegisterOutcome(y: System, path: Path, answer: Answer): RegisterResult {
    RegisterResultOf(y.server, path, answer.lstat, AnswerAdd(y.kernel, answer.add))
  }

  /** Every answer the loop gets to see is one the kernel can give. */
  predicate AnswersPossible(y: System, paths: seq<Path>, answers: seq<Answer>)
    requires |paths| == |answers|
    decreases |paths|
  {
    paths == [] ||
    var step := RegisterStep(paths[0], answers[0].lstat, answers[0].add);
    && Enabled(y, step)
    && (RegisterOutcome(y, paths[0], answers[0]) == Registered ==> AnswersPossible(Next(y, step), paths[1..], answers[1..]))
  }

  /** Registers until the first failure, which is returned with its index. */
  function RegisterAll(y: System, paths: seq<Path>, answers: seq<Answer>): (r: (System, nat, RegisterResult))
    requires |paths| == |answers| && AnswersPossible(y, paths, answers)
    ensures r.1 <= |paths|
    decreases |paths|
  {
    if paths == [] then (y, 0, Registered)
    else
      var y1 := Next(y, RegisterStep(paths[0], answers[0].lstat, answers[0].add));
      var result := RegisterOutcome(y, paths[0], answers[0]);
      if result != Registered then (y1, 0, result)
      else
        var (z, done, res) := RegisterAll(y1, paths[1..], answers[1..]);
        (z, done + 1, res)
  }

  lemma RegisterOne(y: System, path: Path, answer: Answer)
    requires Enabled(y, RegisterStep(path, answer.lstat, answer.add))
    requires RegisterOutcome(y, path, answer) == Registered
    ensures var y1 := Next(y, RegisterStep(path, answer.lstat, answer.add));
      && path !in y.server.points && Listening(y1.server, path)
      && answer.lstat == Some(y1.server.points[path].inode)
      && y1.server.points == y.server.points[path := y1.server.points[path]]
      && y1.server.recent == y.server.recent
      && y.kernel.live <= y1.kernel.live && y1.kernel.queue == y.kernel.queue
  {}

  /** What a call that registered `done` of the paths has changed. */
  ghost predicate AddedPrefix(y: System, paths: seq<Path>, answers: seq<Answer>, done: nat, z: System)
    requires done <= |paths| == |answers|
  {
    && Distinct(paths[..done])
    && z.server.points.Keys == y.server.points.Keys + Elements(paths[..done])
    && Elements(paths[..done]) !! y.server.points.Keys
    && (forall p :: p in y.server.points ==> z.server.points[p] == y.server.points[p])
    && (forall i :: 0 <= i < done ==>
          Listening(z.server, paths[i]) && Some(z.server.points[paths[i]].inode) == answers[i].lstat)
    && z.server.recent == y.server.recent
    && y.kernel.live <= z.kernel.live && z.kernel.queue == y.kernel.queue
  }

  lemma AddedOneMore(y: System, paths: seq<Path>, answers: seq<Answer>, done: nat, z: System)
    requires paths != [] && |paths| == |answers| && done < |paths|
    requires Enabled(y, RegisterStep(paths[0], answers[0].lstat, answers[0].add))
    requires RegisterOutcome(y, paths[0], answers[0]) == Registered
    requires AddedPrefix(Next(y, RegisterStep(paths[0], answers[0].lstat, answers[0].add)), paths[1..], answers[1..], done, z)
    ensures AddedPrefix(y, paths, answers, done + 1, z)
  {
    RegisterOne(y, paths[0], answers[0]);
    hide Next, RegisterOutcome;
    assert paths[..done + 1] == [paths[0]] + paths[1..][..done];
    DistinctCons(paths[0], paths[1..][..done]);
    forall i | 0 <= i < done + 1
      ensures Listening(z.server, paths[i]) && Some(z.server.points[paths[i]].inode) == answers[i].lstat
    {
      if i > 0 {
        assert paths[i] == paths[1..][i - 1] && answers[i] == answers[1..][i - 1];
      }
    }
  }

  /**
   * The paths before the first failing one, and no others, have become listening entries; they are
   * new and pairwise distinct. Existing entries are untouched.
   */
  lemma {:induction false} RegisterAllAddsAPrefix(y: System, paths: seq<Path>, answers: seq<Answer>)
    requires |paths| == |answers| && AnswersPossible(y, paths, answers)
    ensures var (z, done, res) := RegisterAll(y, paths, answers);
      && (done == |paths| <==> res == Registered)
      && AddedPrefix(y, paths, answers, done, z)
    decreases |paths|
  {
    if paths != [] && RegisterOutcome(y, paths[0], answers[0]) == Registered {
      var y1 := Next(y, RegisterStep(paths[0], answers[0].lstat, answers[0].add));
      RegisterAllAddsAPrefix(y1, paths[1..], answers[1..]);
      var (z, done, res) := RegisterAll(y1, paths[1..], answers[1..]);
      AddedOneMore(y, paths, answers, done, z);
    }
  }

  /** The call ends at a path only for a reason: its result is what registering that path gives. */
  lemma {:induction false} EndsForAReason(y: System, paths: seq<Path>, answers: seq<Answer>)
    requires |paths| == |answers| && AnswersPossible(y, paths, answers) && Conserved(y)
    ensures var (z, done, res) := RegisterAll(y, paths, answers);
      done < |paths| ==> res != Registered && res == RegisterOutcome(z, paths[done], answers[done])
    decreases |paths|
  {
    hide Conserved, RegisterOutcome;
    if paths != [] {
      var step := RegisterStep(paths[0], answers[0].lstat, answers[0].add);
      if RegisterOutcome(y, paths[0], answers[0]) == Registered {
        NextConserves(y, step);
        EndsForAReason(Next(y, step), paths[1..], answers[1..]);
      } else {
        RefusalChangesNothing(y, paths[0], answers[0]);
      }
    }
  }

  lemma RefusalChangesNothing(y: System, path: Path, answer: Answer)
    requires Conserved(y) && Enabled(y, RegisterStep(path, answer.lstat, answer.add))
    requires RegisterOutcome(y, path, answer) != Registered
    ensures Next(y, RegisterStep(path, answer.lstat, answer.add)) == y
  {
    assert y.kernel.next !in y.server.roots by {
      assert Known(y.server, y.kernel.next) ==> 0 < y.kernel.next < y.kernel.next;
    }
  }

  /** After `done` turns the call is going to end like `all`. */
  ghost predicate RegisterRest(all: (System, nat, RegisterResult), y: System, paths: seq<Path>, answers: seq<Answer>, done: nat)
    requires done <= |paths| == |answers|
  {
    && AnswersPossible(y, paths[done..], answers[done..])
    && var (z, n, res) := RegisterAll(y, paths[done..], answers[done..]);
       all == (z, done + n, res)
  }

  lemma RegisterRestBegins(y: System, paths: seq<Path>, answers: seq<Answer>)
    requires |paths| == |answers| && AnswersPossible(y, paths, answers)
    ensures RegisterRest(RegisterAll(y, paths, answers), y, paths, answers, 0)
  {
    assert paths[0..] == paths && answers[0..] == answers;
  }

  lemma RegisterRestTurn(all: (System, nat, RegisterResult), y: System, paths: seq<Path>, answers: seq<Answer>, done: nat)
    requires done < |paths| == |answers| && RegisterRest(all, y, paths, answers, done)
    ensures var step := RegisterStep(paths[done], answers[done].lstat, answers[done].add);
      var result := RegisterOutcome(y, paths[done], answers[done]);
      && Enabled(y, step)
      && if result == Registered then RegisterRest(all, Next(y, step), paths, answers, done + 1)
         else all == (Next(y, step), done, result)
  {
    assert paths[done..][1..] == paths[done + 1..] && answers[done..][1..] == answers[done + 1..];
  }

  lemma RegisterRestEnds(all: (System, nat, RegisterResult), y: System, paths: seq<Path>, answers: seq<Answer>)
    requires |paths| == |answers| && RegisterRest(all, y, paths, answers, |paths|)
    ensures all == (y, |paths|, Registered)
  {}

  // ----- unregisterPaths -----

  function UnregisterAll(y: System, paths: seq<Path>): (System, bool)
    decreases |paths|
  {
    if paths == [] then (y, true)
    else
      var success := UnregisterSucceeds(y, paths[0]);
      var (z, rest) := UnregisterAll(Next(y, UnregisterStep(paths[0])), paths[1..]);
      (z, success && rest)
  }

  predicate UnregisterSucceeds(y: System, path: Path) {
    Listening(y.server, path) && y.server.points[path].wd in y.kernel.live
  }

  lemma UnregisterOne(y: System, path: Path)
    requires IndexOk(y.server)
    ensures var y1 := Next(y, UnregisterStep(path));
      && IndexOk(y1.server)
      && y1.server.points == (if Listening(y.server, path) then y.server.points - {path} else y.server.points)
      && y1.kernel.live == (if Listening(y.server, path) then y.kernel.live - {y.server.points[path].wd} else y.kernel.live)
      && !Listening(y1.server, path)
      && (forall p :: p != path ==> (Listening(y1.server, p) <==> Listening(y.server, p)))
      && (forall p :: p != path ==> (UnregisterSucceeds(y1, p) <==> UnregisterSucceeds(y, p)))
  {
    ApplyKeepsIndex(y.server, ActionOf(y, UnregisterStep(path)).value);
    forall p | p != path && Listening(y.server, p) && Listening(y.server, path)
      ensures y.server.points[p].wd != y.server.points[path].wd
    {
      assert y.server.roots[y.server.points[p].wd] == p;
    }
  }

  lemma {:induction false} UnregisterAllPoints(y: System, paths: seq<Path>)
    requires IndexOk(y.server)
    ensures var z := UnregisterAll(y, paths).0;
      && IndexOk(z.server)
      && z.server.points == (map p | p in y.server.points && !(p in paths && Listening(y.server, p)) :: y.server.points[p])
    decreases |paths|
  {
    hide Next, IndexOk, UnregisterSucceeds, Listening;
    if paths != [] {
      UnregisterOne(y, paths[0]);
      UnregisterAllPoints(Next(y, UnregisterStep(paths[0])), paths[1..]);
      assert paths == [paths[0]] + paths[1..];
    }
  }

  lemma {:induction false} UnregisterAllSucceeds(y: System, paths: seq<Path>)
    requires IndexOk(y.server)
    ensures UnregisterAll(y, paths).1 <==> Distinct(paths) && forall p :: p in paths ==> UnregisterSucceeds(y, p)
    decreases |paths|
  {
    if paths != [] {
      var y1 := Next(y, UnregisterStep(paths[0]));
      UnregisterOne(y, paths[0]);
      UnregisterAllSucceeds(y1, paths[1..]);
      assert paths == [paths[0]] + paths[1..];
      DistinctCons(paths[0], paths[1..]);
      assert !UnregisterSucceeds(y1, paths[0]);
    }
  }

  ghost function ListeningWds(s: Registry, paths: seq<Path>): set<int> {
    set p | p in paths && Listening(s, p) :: s.points[p].wd
  }

  lemma {:induction false} UnregisterAllLive(y: System, paths: seq<Path>)
    requires IndexOk(y.server)
    ensures UnregisterAll(y, paths).0.kernel.live == y.kernel.live - ListeningWds(y.server, paths)
    decreases |paths|
  {
    hide Next, IndexOk, UnregisterSucceeds;
    if paths != [] {
      var path, rest := paths[0], paths[1..];
      var y1 := Next(y, UnregisterStep(path));
      UnregisterOne(y, path);
      UnregisterAllLive(y1, rest);
      assert paths == [path] + rest;
      var one := if Listening(y.server, path) then {y.server.points[path].wd} else {};
      assert ListeningWds(y.server, paths) == ListeningWds(y1.server, rest) + one by {
        forall p | p in rest && p != path && Listening(y.server, p)
          ensures y.server.points[p].wd in ListeningWds(y1.server, rest)
        {
          assert Listening(y1.server, p) && y1.server.points[p] == y.server.points[p];
        }
      }
    }
  }

  /**
   * Every listening path of the input is gone afterwards and every other entry, cancelled ones
   * included, is as before; the kernel has dropped exactly the watches of those paths. The answer
   * is true exactly when the paths are pairwise distinct and each was listening under a watch the
   * kernel still had.
   */
  lemma UnregisterAllRemoves(y: System, paths: seq<Path>)
    requires IndexOk(y.server)
    ensures var (z, success) := UnregisterAll(y, paths);
      && IndexOk(z.server)
      && z.server.points == (map p | p in y.server.points && !(p in paths && Listening(y.server, p)) :: y.server.points[p])
      && z.kernel.live == y.kernel.live - ListeningWds(y.server, paths)
      && (success <==> Distinct(paths) && forall p :: p in paths ==> UnregisterSucceeds(y, p))
  {
    UnregisterAllPoints(y, paths);
    UnregisterAllLive(y, paths);
    UnregisterAllSucceeds(y, paths);
  }

  /** What the documentation of stopWatching says `true` means: the paths were being watched and are no longer. */
  ghost predicate WereWatchedAndAreNot(y: System, z: System, paths: seq<Path>) {
    forall p :: p in paths ==> Listening(y.server, p) && !Listening(z.server, p)
  }

  /**
   * The answer is the documented one exactly when some path was not being watched, or no path is
   * repeated and the kernel still had all the watches.
   */
  lemma AnswerAsDocumentedIff(y: System, paths: seq<Path>)
    requires IndexOk(y.server)
    ensures var (z, success) := UnregisterAll(y, paths);
      (success <==> WereWatchedAndAreNot(y, z, paths)) <==>
        ((forall p :: p in paths ==> Listening(y.server, p)) ==>
          Distinct(paths) && forall p :: p in paths ==> y.server.points[p].wd in y.kernel.live)
  {
    UnregisterAllRemoves(y, paths);
    var (z, success) := UnregisterAll(y, paths);
    assert forall p :: p in paths && Listening(y.server, p) ==> p !in z.server.points;
  }

  /** A server and kernel on which "/a" has just been registered. */
  const WATCHING_A := Next(INITIAL_SYSTEM, RegisterStep("/a", Some(7), Fresh))

  lemma WatchingA()
    ensures IndexOk(WATCHING_A.server) && Listening(WATCHING_A.server, "/a")
    ensures WATCHING_A.kernel.live == {1} && WATCHING_A.server.points["/a"].wd == 1
  {}

  /** A repeated path is answered with `false`, though it was being watched and is no longer. */
  lemma RepeatedPathIsAnsweredFalse()
    ensures var (z, success) := UnregisterAll(WATCHING_A, ["/a", "/a"]);
      !success && WereWatchedAndAreNot(WATCHING_A, z, ["/a", "/a"])
  {
    var paths := ["/a", "/a"];
    WatchingA();
    UnregisterAllRemoves(WATCHING_A, paths);
    assert paths[0] == paths[1] && !Distinct(paths);
  }

  /** So is a path whose directory has just been deleted, while the server does not know of it yet. */
  lemma DeletedPathIsAnsweredFalse()
    ensures Enabled(WATCHING_A, RemoveStep(1))
    ensures var y := Next(WATCHING_A, RemoveStep(1));
      var (z, success) := UnregisterAll(y, ["/a"]);
      !success && WereWatchedAndAreNot(y, z, ["/a"])
  {
    WatchingA();
    var y := Next(WATCHING_A, RemoveStep(1));
    UnregisterAllRemoves(y, ["/a"]);
    assert ["/a"][0] == "/a" && !UnregisterSucceeds(y, "/a");
  }

  // ----- stopWatchingMovedPaths -----

  function Lstat(fs: map<Path, int>, path: Path): Option<int> {
    if path in fs then Some(fs[path]) else None
  }

  /** The whole call, with the file system fixed while it runs. */
  function StopMoved(y: System, fs: map<Path, int>, paths: seq<Path>): (System, seq<Path>)
    decreases |paths|
  {
    if paths == [] then (y, [])
    else
      var lstat := Lstat(fs, paths[0]);
      var (z, dropped) := StopMoved(Next(y, CheckMovedStep(paths[0], lstat)), fs, paths[1..]);
      (z, (if Drops(y.server, paths[0], lstat) then [paths[0]] else []) + dropped)
  }

  /** One turn of the loop, seen from what remains to be done. */
  lemma StopMovedTurn(y: System, fs: map<Path, int>, paths: seq<Path>, i: nat, dropped: seq<Path>)
    requires i < |paths|
    ensures var lstat := Lstat(fs, paths[i]);
      var (z, rest) := StopMoved(Next(y, CheckMovedStep(paths[i], lstat)), fs, paths[i + 1..]);
      && StopMoved(y, fs, paths[i..]).0 == z
      && dropped + StopMoved(y, fs, paths[i..]).1 ==
         (if Drops(y.server, paths[i], lstat) then dropped + [paths[i]] else dropped) + rest
  {
    assert paths[i..][0] == paths[i] && paths[i..][1..] == paths[i + 1..];
  }

  /** The paths that are not listening, in order and with multiplicity. */
  function NotListening(s: Registry, paths: seq<Path>): seq<Path> {
    if paths == [] then []
    else (if Listening(s, paths[0]) then [] else [paths[0]]) + NotListening(s, paths[1..])
  }

  /** Which entries the call leaves listening; it only ever changes statuses. */
  lemma {:induction false} StopMovedKeeps(y: System, fs: map<Path, int>, paths: seq<Path>)
    ensures var s, t := y.server, StopMoved(y, fs, paths).0.server;
      && t.points.Keys == s.points.Keys && t.roots == s.roots && t.recent == s.recent
      && (forall p :: p in s.points ==> t.points[p] == s.points[p].(status := t.points[p].status))
      && (forall p :: Listening(t, p) <==> Listening(s, p) && (p in paths ==> Lstat(fs, p) == Some(s.points[p].inode)))
    decreases |paths|
  {
    if paths != [] {
      StopMovedKeeps(Next(y, CheckMovedStep(paths[0], Lstat(fs, paths[0]))), fs, paths[1..]);
      assert paths == [paths[0]] + paths[1..];
    }
  }

  lemma {:induction false} DroppedAreNotListening(y: System, fs: map<Path, int>, paths: seq<Path>)
    ensures var (z, dropped) := StopMoved(y, fs, paths); dropped == NotListening(z.server, paths)
    decreases |paths|
  {
    if paths != [] {
      var y1 := Next(y, CheckMovedStep(paths[0], Lstat(fs, paths[0])));
      DroppedAreNotListening(y1, fs, paths[1..]);
      StopMovedKeeps(y1, fs, paths[1..]);
      var z := StopMoved(y, fs, paths).0;
      assert Drops(y.server, paths[0], Lstat(fs, paths[0])) <==> !Listening(z.server, paths[0]);
    }
  }

  /**
   * The dropped list is the input filtered to the paths that are not listening afterwards; a kept
   * path still has the inode it was registered with, and asking again gives the same answer.
   */
  lemma StopWatchingMovedPaths(y: System, fs: map<Path, int>, paths: seq<Path>)
    ensures var (z, dropped) := StopMoved(y, fs, paths);
      && dropped == NotListening(z.server, paths)
      && (forall p :: p in paths && p !in dropped ==>
            p in z.server.points && Lstat(fs, p) == Some(z.server.points[p].inode))
      && z.server.points.Keys == y.server.points.Keys
      && StopMoved(z, fs, paths) == (z, dropped)
  {
    DroppedAreNotListening(y, fs, paths);
    StopMovedKeeps(y, fs, paths);
    var (z, dropped) := StopMoved(y, fs, paths);
    NotListeningMembers(z.server, paths);
    DroppedAreNotListening(z, fs, paths);
    NothingMovedNothingChanges(z, fs, paths);
  }

  lemma {:induction false} NotListeningMembers(s: Registry, paths: seq<Path>)
    ensures forall p :: p in NotListening(s, paths) <==> p in paths && !Listening(s, p)
  {
    if paths != [] {
      NotListeningMembers(s, paths[1..]);
      assert paths == [paths[0]] + paths[1..];
    }
  }

  lemma {:induction false} NothingMovedNothingChanges(y: System, fs: map<Path, int>, paths: seq<Path>)
    requires forall p :: p in paths ==> !HasMoved(y.server, p, Lstat(fs, p))
    ensures StopMoved(y, fs, paths).0 == y
    decreases |paths|
  {
    if paths != [] {
      NothingMovedNothingChanges(y, fs, paths[1..]);
    }
  }
}
