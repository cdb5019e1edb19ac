/**
 * The Linux watch registry as values: the three maps of the server, and what each server
 * operation does to them given what the kernel answers.
 */
module LinuxRegistry {
  import opened Prelude
  import opened InotifyKernel

  datatype Status = LISTENING | CANCELLED

  datatype Point = Point(status: Status, wd: int, path: Path, inode: int)

  datatype Registry = Registry(points: map<Path, Point>, roots: map<int, Path>, recent: map<int, Path>, terminating: bool)

  const EMPTY_REGISTRY := Registry(map[], map[], map[], false)

  datatype ChangeType = CREATED | REMOVED | MODIFIED

  datatype Report = Change(changeType: ChangeType, path: Path) | Unknown(path: Path) | OverflowAt(path: Path)

  /** A call of the Java callback. */
  datatype Callback = ReportCall(report: Report) | FailureCall

  datatype CancelResult = CancelOk | NotCancelled | AlreadyCancelled | CancelThrew

  /** What inotify_add_watch returned. */
  datatype AddResult = Wd(wd: int) | NoSpaceLeft | AddError

  datatype RegisterResult = Registered | AlreadyWatching | StatFailed | WatchesLimitTooLow | AddWatchFailed

  /** `watchRoots` and `watchPoints` are inverse to each other, and every entry knows its own key. */
  ghost predicate IndexOk(s: Registry) {
    && (forall p :: p in s.points ==>
          s.points[p].path == p && s.points[p].wd in s.roots && s.roots[s.points[p].wd] == p)
    && (forall wd :: wd in s.roots ==> s.roots[wd] in s.points && s.points[s.roots[wd]].wd == wd)
  }

  function Cancelled(p: Point, rm: RmAnswer): CancelResult {
    if p.status == CANCELLED then AlreadyCancelled
    else match rm
      case RmOk => CancelOk
      case RmInvalid => NotCancelled
      case RmOther => CancelThrew
  }

  function RegisterResultOf(s: Registry, path: Path, lstat: Option<int>, add: AddResult): RegisterResult {
    if path in s.points then AlreadyWatching
    else if lstat.None? then StatFailed
    else match add
      case NoSpaceLeft => WatchesLimitTooLow
      case AddError => AddWatchFailed
      case Wd(wd) => if wd in s.roots then AlreadyWatching else Registered
  }

  function Register(s: Registry, path: Path, lstat: Option<int>, add: AddResult): Registry {
    if RegisterResultOf(s, path, lstat, add) == Registered then
      s.(points := s.points[path := Point(LISTENING, add.wd, path, lstat.value)], roots := s.roots[add.wd := path])
    else s
  }

  function Unregister(s: Registry, path: Path, rm: RmAnswer): Registry {
    if path !in s.points then s
    else
      var point := s.points[path];
      match Cancelled(point, rm)
      case AlreadyCancelled => s
      case CancelThrew => s.(points := s.points[path := point.(status := CANCELLED)])
      case _ => Registry(
        s.points - {path},
        s.roots - {point.wd},
        if point.wd in s.recent then s.recent else s.recent[point.wd := path],
        s.terminating)
  }

  /** The entry exists, is listening, and lstat no longer finds the inode it was registered with. */
  predicate HasMoved(s: Registry, path: Path, lstat: Option<int>) {
    path in s.points && s.points[path].status == LISTENING && lstat != Some(s.points[path].inode)
  }

  predicate Listening(s: Registry, path: Path) {
    path in s.points && s.points[path].status == LISTENING
  }

  /** One turn of the stopWatchingMovedPaths loop. */
  function CheckMoved(s: Registry, path: Path, lstat: Option<int>): Registry {
    if HasMoved(s, path, lstat) then s.(points := s.points[path := s.points[path].(status := CANCELLED)]) else s
  }

  predicate Drops(s: Registry, path: Path, lstat: Option<int>) {
    !Listening(s, path) || HasMoved(s, path, lstat)
  }

  function Handle(s: Registry, e: Event): Registry {
    if IsUnmount(e) || IsOverflow(e) || !IsIgnored(e) then s
    else if e.wd in s.roots then s.(roots := s.roots - {e.wd}, points := s.points - {s.roots[e.wd]})
    else s.(recent := s.recent - {e.wd})
  }

  function ChangeOf(mask: nat): Option<ChangeType> {
    if IsSet(mask, IN_CREATE) || IsSet(mask, IN_MOVED_TO) then Some(CREATED)
    else if IsSet(mask, IN_DELETE) || IsSet(mask, IN_DELETE_SELF) || IsSet(mask, IN_MOVED_FROM) then Some(REMOVED)
    else if IsSet(mask, IN_MODIFY) then Some(MODIFIED)
    else None
  }

  function Widen(name: seq<Byte>): Path {
    seq(|name|, i requires 0 <= i < |name| => name[i] as char)
  }

  function ChangedPath(root: Path, name: seq<Byte>): Path {
    if name == [] then root else root + "/" + Widen(name)
  }

  function ReportFor(root: Path, e: Event): Report {
    match ChangeOf(e.mask)
    case Some(t) => Change(t, ChangedPath(root, e.name))
    case None => Unknown(ChangedPath(root, e.name))
  }

  /** The event reaches the end of handleEvent and is reported. */
  predicate Reportable(s: Registry, e: Event) {
    && !IsUnmount(e) && !IsOverflow(e) && !IsIgnored(e)
    && e.wd in s.roots
    && Listening(s, s.roots[e.wd])
    && !s.terminating
  }

  /** One overflow report for every watched path, in the unspecified order of the hash map. */
  ghost predicate OverflowReports(s: Registry, rs: seq<Report>) {
    && |rs| == |s.points|
    && Distinct(rs)
    && (forall r :: r in rs ==> r.OverflowAt? && r.path in s.points)
    && (forall p :: p in s.points ==> OverflowAt(p) in rs)
  }

  /** `rs` is what handling `e` reports. */
  ghost predicate Reports(s: Registry, e: Event, rs: seq<Report>) {
    if !IsUnmount(e) && IsOverflow(e) then OverflowReports(s, rs)
    else if Reportable(s, e) then rs == [ReportFor(s.roots[e.wd], e)]
    else rs == []
  }

  // ----- What handling an event means, bit by bit -----

  /** The bit worth `value` is set: what remains below the next power of two reaches it. */
  predicate Bit(mask: nat, value: nat)
    requires value > 0
  {
    mask % (2 * value) >= value
  }

  lemma BitsAreFlags(mask: nat)
    ensures IsSet(mask, IN_MODIFY) <==> Bit(mask, 0x2)
    ensures IsSet(mask, IN_MOVED_FROM) <==> Bit(mask, 0x40)
    ensures IsSet(mask, IN_MOVED_TO) <==> Bit(mask, 0x80)
    ensures IsSet(mask, IN_CREATE) <==> Bit(mask, 0x100)
    ensures IsSet(mask, IN_DELETE) <==> Bit(mask, 0x200)
    ensures IsSet(mask, IN_DELETE_SELF) <==> Bit(mask, 0x400)
    ensures IsSet(mask, IN_UNMOUNT) <==> Bit(mask, 0x2000)
    ensures IsSet(mask, IN_Q_OVERFLOW) <==> Bit(mask, 0x4000)
    ensures IsSet(mask, IN_IGNORED) <==> Bit(mask, 0x8000)
  {
    hide IsSet, Bit;
    BitIsFlag(mask, 0x2);
    BitIsFlag(mask, 0x40);
    BitIsFlag(mask, 0x80);
    BitIsFlag(mask, 0x100);
    BitIsFlag(mask, 0x200);
    BitIsFlag(mask, 0x400);
    BitIsFlag(mask, 0x2000);
    BitIsFlag(mask, 0x4000);
    BitIsFlag(mask, 0x8000);
  }

  lemma BitIsFlag(mask: nat, flag: nat)
    requires flag > 0
    ensures IsSet(mask, flag) <==> Bit(mask, flag)
  {
    var q, r := mask / flag, mask % flag;
    var p := q / 2;
    var low := if q % 2 == 1 then flag + r else r;
    TwiceAsLong(mask, flag, q, r, p);
    RemainderIs(mask, 2 * flag, p, low);
  }

  lemma TwiceAsLong(mask: nat, flag: nat, q: nat, r: nat, p: nat)
    requires mask == flag * q + r && (q == 2 * p || q == 2 * p + 1)
    ensures mask == (2 * flag) * p + (if q == 2 * p then r else flag + r)
  {
    assert flag * (2 * p) == (2 * flag) * p;
    assert flag * (2 * p + 1) == flag * (2 * p) + flag;
  }

  lemma RemainderIs(n: nat, d: nat, q: int, r: int)
    requires d > 0 && n == d * q + r && 0 <= r < d
    ensures n % d == r
  {
    var k := n / d;
    assert d * (k - q) == r - n % d;
    AtLeastOnce(d, k - q);
  }

  lemma AtLeastOnce(d: nat, x: int)
    ensures x >= 1 ==> d * x >= d
    ensures x <= -1 ==> d * x + d <= 0
  {
    if x >= 1 {
      assert d * (x - 1) >= 0 && d * x == d * (x - 1) + d;
    } else if x <= -1 {
      assert d * (-x - 1) >= 0 && d * x + d == -(d * (-x - 1));
    }
  }

  /** None of UNMOUNT, Q_OVERFLOW and IGNORED. */
  predicate Ordinary(mask: nat) {
    !Bit(mask, 0x2000) && !Bit(mask, 0x4000) && !Bit(mask, 0x8000)
  }

  /** `path` is the root itself, or the root, a slash and the bytes of the name. */
  ghost predicate Names(path: Path, root: Path, name: seq<Byte>) {
    if |name| == 0 then path == root
    else
      && |path| == |root| + 1 + |name|
      && path[..|root|] == root
      && path[|root|] == '/'
      && forall i :: 0 <= i < |name| ==> path[|root| + 1 + i] as int == name[i]
  }

  /** The kind of the report follows from the mask, its path from root and name. */
  ghost predicate Tells(r: Report, root: Path, e: Event) {
    && !r.OverflowAt? && Names(r.path, root, e.name)
    && if Bit(e.mask, 0x100) || Bit(e.mask, 0x80) then r.Change? && r.changeType == CREATED
       else if Bit(e.mask, 0x200) || Bit(e.mask, 0x400) || Bit(e.mask, 0x40) then r.Change? && r.changeType == REMOVED
       else if Bit(e.mask, 0x2) then r.Change? && r.changeType == MODIFIED
       else r.Unknown?
  }

  /** The watch point behind the descriptor listens, and the server goes on. */
  predicate HasListener(s: Registry, wd: int) {
    wd in s.roots && s.roots[wd] in s.points && s.points[s.roots[wd]].status == LISTENING && !s.terminating
  }

  /**
   * Exactly one report for every ordinary event of a listening root, of the event itself too, and
   * none for any other; one overflow report for each watched path, and nothing else, for an overflow.
   */
  lemma EveryEventIsReported(s: Registry, e: Event, rs: seq<Report>)
    requires Reports(s, e, rs)
    ensures Ordinary(e.mask) && HasListener(s, e.wd) ==> |rs| == 1 && Tells(rs[0], s.roots[e.wd], e)
    ensures Ordinary(e.mask) && !HasListener(s, e.wd) ==> rs == []
    ensures Bit(e.mask, 0x2000) || (Bit(e.mask, 0x8000) && !Bit(e.mask, 0x4000)) ==> rs == []
    ensures !Bit(e.mask, 0x2000) && Bit(e.mask, 0x4000) ==>
      && |rs| == |s.points|
      && (forall i :: 0 <= i < |rs| ==> rs[i].OverflowAt?)
      && (forall p :: p in s.points ==> exists i :: 0 <= i < |rs| && rs[i].path == p)
  {
    hide IsSet, Bit;
    BitsAreFlags(e.mask);
    if !IsUnmount(e) && IsOverflow(e) {
      forall p | p in s.points ensures exists i :: 0 <= i < |rs| && rs[i].path == p {
        assert OverflowAt(p) in rs;
      }
    } else if Reportable(s, e) {
      ReportTells(s.roots[e.wd], e);
    }
  }

  lemma ReportTells(root: Path, e: Event)
    ensures Tells(ReportFor(root, e), root, e)
  {
    hide IsSet, Bit;
    BitsAreFlags(e.mask);
  }

  // ----- What registering means -----

  /** Which answer gives which result: every refusal changes nothing, and nothing else is refused. */
  lemma RegisterMeans(s: Registry, path: Path, lstat: Option<int>, add: AddResult)
    ensures var result, t := RegisterResultOf(s, path, lstat, add), Register(s, path, lstat, add);
      && (path in s.points ==> result == AlreadyWatching && t == s)
      && (path !in s.points && lstat.None? ==> result == StatFailed && t == s)
      && (path !in s.points && lstat.Some? && add == NoSpaceLeft ==> result == WatchesLimitTooLow && t == s)
      && (path !in s.points && lstat.Some? && add == AddError ==> result == AddWatchFailed && t == s)
      && (path !in s.points && lstat.Some? && add.Wd? && add.wd in s.roots ==> result == AlreadyWatching && t == s)
      && (path !in s.points && lstat.Some? && add.Wd? && add.wd !in s.roots ==>
            && result == Registered && t.recent == s.recent && t.terminating == s.terminating
            && t.points == s.points[path := Point(LISTENING, add.wd, path, lstat.value)]
            && t.roots == s.roots[add.wd := path])
  {}

  /** What unregistering does for every answer of inotify_rm_watch: an entry goes unless it is cancelled already or the call throws. */
  lemma UnregisterMeans(s: Registry, path: Path, rm: RmAnswer)
    requires path in s.points
    ensures var t, wd := Unregister(s, path, rm), s.points[path].wd;
      && t.terminating == s.terminating
      && (s.points[path].status == CANCELLED ==> t == s)
      && (s.points[path].status == LISTENING && rm == RmOther ==>
            && t.points == s.points[path := Point(CANCELLED, wd, s.points[path].path, s.points[path].inode)]
            && t.roots == s.roots && t.recent == s.recent)
      && (s.points[path].status == LISTENING && rm != RmOther ==>
            && t.points == s.points - {path} && t.roots == s.roots - {wd}
            && t.recent.Keys == s.recent.Keys + {wd} && (wd !in s.recent ==> t.recent[wd] == path)
            && forall w :: w in s.recent ==> t.recent[w] == s.recent[w])
  {}

  /** Everything that can happen to the maps, with arbitrary answers and arbitrary events. */
  datatype Action =
    | DoRegister(path: Path, lstat: Option<int>, add: AddResult)
    | DoUnregister(path: Path, rm: RmAnswer)
    | DoCheckMoved(path: Path, lstat: Option<int>)
    | DoHandle(event: Event)
    | DoTerminate

  function Apply(s: Registry, a: Action): Registry {
    match a
    case DoRegister(path, lstat, add) => Register(s, path, lstat, add)
    case DoUnregister(path, rm) => Unregister(s, path, rm)
    case DoCheckMoved(path, lstat) => CheckMoved(s, path, lstat)
    case DoHandle(event) => Handle(s, event)
    case DoTerminate => s.(terminating := true)
  }

  function ApplyAll(s: Registry, actions: seq<Action>): Registry
    decreases |actions|
  {
    if actions == [] then s else ApplyAll(Apply(s, actions[0]), actions[1..])
  }

  lemma RegisterKeepsIndex(s: Registry, path: Path, lstat: Option<int>, add: AddResult)
    requires IndexOk(s)
    ensures IndexOk(Register(s, path, lstat, add))
  {}

  lemma UnregisterKeepsIndex(s: Registry, path: Path, rm: RmAnswer)
    requires IndexOk(s)
    ensures IndexOk(Unregister(s, path, rm))
  {}

  lemma CheckMovedKeepsIndex(s: Registry, path: Path, lstat: Option<int>)
    requires IndexOk(s)
    ensures IndexOk(CheckMoved(s, path, lstat))
  {}

  lemma HandleKeepsIndex(s: Registry, e: Event)
    requires IndexOk(s)
    ensures IndexOk(Handle(s, e))
  {
    hide IsSet;
  }

  lemma ApplyKeepsIndex(s: Registry, a: Action)
    requires IndexOk(s)
    ensures IndexOk(Apply(s, a))
  {
    hide IndexOk, Register, Unregister, CheckMoved, Handle;
    match a
    case DoRegister(path, lstat, add) => RegisterKeepsIndex(s, path, lstat, add);
    case DoUnregister(path, rm) => UnregisterKeepsIndex(s, path, rm);
    case DoCheckMoved(path, lstat) => CheckMovedKeepsIndex(s, path, lstat);
    case DoHandle(event) => HandleKeepsIndex(s, event);
    case DoTerminate => TerminateKeepsIndex(s);
  }

  lemma TerminateKeepsIndex(s: Registry)
    requires IndexOk(s)
    ensures IndexOk(s.(terminating := true))
  {}

  /**
   * In every run, whatever the kernel answers (reused descriptors, overflow and failed calls
   * included), the two maps stay mutually inverse; so `watchPoints.at` always finds its entry.
   */
  lemma {:induction false} IndexAlwaysOk(s: Registry, actions: seq<Action>)
    requires IndexOk(s)
    ensures IndexOk(ApplyAll(s, actions))
    ensures var t := ApplyAll(s, actions);
      forall wd, p :: (wd in t.roots && t.roots[wd] == p) <==> (p in t.points && t.points[p].wd == wd)
    decreases |actions|
  {
    if actions != [] {
      ApplyKeepsIndex(s, actions[0]);
      IndexAlwaysOk(Apply(s, actions[0]), actions[1..]);
    }
  }
}
