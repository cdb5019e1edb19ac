/** The kernel's side of inotify: watch descriptors, liveness and one FIFO event queue. */
module InotifyKernel {
  import opened Prelude

  const IN_MODIFY := 0x2
  const IN_MOVED_FROM := 0x40
  const IN_MOVED_TO := 0x80
  const IN_CREATE := 0x100
  const IN_DELETE := 0x200
  const IN_DELETE_SELF := 0x400
  const IN_UNMOUNT := 0x2000
  const IN_Q_OVERFLOW := 0x4000
  const IN_IGNORED := 0x8000

  /** `struct inotify_event` without its `len` field, which is a matter of layout. */
  datatype Event = Event(wd: int, mask: nat, cookie: nat, name: seq<Byte>)

  /** Whether the given single-bit flag is set. */
  predicate IsSet(mask: nat, flag: nat)
    requires flag > 0
  {
    (mask / flag) % 2 == 1
  }

  predicate IsIgnored(e: Event) { IsSet(e.mask, IN_IGNORED) }
  predicate IsOverflow(e: Event) { IsSet(e.mask, IN_Q_OVERFLOW) }
  predicate IsUnmount(e: Event) { IsSet(e.mask, IN_UNMOUNT) }

  function IgnoredEvent(wd: int): Event { Event(wd, IN_IGNORED, 0, []) }
  function OverflowEvent(): Event { Event(-1, IN_Q_OVERFLOW, 0, []) }

  /**
   * `next` is the descriptor the next new watch gets. While `full` holds, events are dropped;
   * `lost` records the descriptors whose IN_IGNORED was dropped that way.
   */
  datatype Kernel = Kernel(next: int, live: set<int>, queue: seq<Event>, full: bool, lost: set<int>)

  const FRESH_KERNEL := Kernel(1, {}, [], false, {})

  /** How inotify_add_watch answers: a new watch, a watch that exists for the same inode, or an error. */
  datatype AddChoice = Fresh | Existing(wd: int) | NoSpace | Refused

  /** How inotify_rm_watch answers. */
  datatype RmAnswer = RmOk | RmInvalid | RmOther

  function Enqueue(k: Kernel, e: Event): Kernel {
    if !k.full then k.(queue := k.queue + [e])
    else if IsIgnored(e) then k.(lost := k.lost + {e.wd})
    else k
  }

  /** The watch goes away: its last event, IN_IGNORED, is queued. */
  function EndWatch(k: Kernel, wd: int): Kernel {
    Enqueue(k.(live := k.live - {wd}), IgnoredEvent(wd))
  }

  function AddFresh(k: Kernel): Kernel {
    k.(live := k.live + {k.next}, next := k.next + 1)
  }

  function RmAnswerFor(k: Kernel, wd: int): RmAnswer {
    if wd in k.live then RmOk else RmInvalid
  }

  function AfterRm(k: Kernel, wd: int): Kernel {
    if wd in k.live then EndWatch(k, wd) else k
  }

  function Overflow(k: Kernel): Kernel {
    k.(queue := k.queue + [OverflowEvent()], full := true)
  }

  /** No IN_IGNORED for `wd` is queued. */
  ghost predicate NoIgnored(q: seq<Event>, wd: int) {
    forall i :: 0 <= i < |q| && q[i].wd == wd ==> !IsIgnored(q[i])
  }

  ghost predicate IgnoredLastAt(q: seq<Event>, wd: int, i: nat) {
    && i < |q| && q[i].wd == wd && IsIgnored(q[i])
    && (forall j :: 0 <= j < i && q[j].wd == wd ==> !IsIgnored(q[j]))
    && (forall j :: i < j < |q| ==> q[j].wd != wd)
  }

  /** Exactly one IN_IGNORED for `wd` is queued, and it is the last queued event of `wd`. */
  ghost predicate EndsIgnored(q: seq<Event>, wd: int) {
    exists i: nat :: IgnoredLastAt(q, wd, i)
  }

  /** A descriptor is live, or dead with IN_IGNORED pending, or dead with IN_IGNORED lost. */
  ghost predicate Accounted(k: Kernel, wd: int) {
    || (wd in k.live && wd !in k.lost && NoIgnored(k.queue, wd))
    || (wd !in k.live && wd !in k.lost && EndsIgnored(k.queue, wd))
    || (wd !in k.live && wd in k.lost && NoIgnored(k.queue, wd))
  }

  lemma EnqueueOther(q: seq<Event>, e: Event, wd: int)
    requires e.wd != wd || (!IsIgnored(e) && NoIgnored(q, wd))
    ensures NoIgnored(q, wd) ==> NoIgnored(q + [e], wd)
    ensures e.wd != wd && EndsIgnored(q, wd) ==> EndsIgnored(q + [e], wd)
  {
    if e.wd != wd && EndsIgnored(q, wd) {
      var i: nat :| IgnoredLastAt(q, wd, i);
      assert IgnoredLastAt(q + [e], wd, i);
    }
  }

  lemma EnqueueIgnored(q: seq<Event>, e: Event)
    requires IsIgnored(e) && NoIgnored(q, e.wd)
    ensures EndsIgnored(q + [e], e.wd)
  {
    assert IgnoredLastAt(q + [e], e.wd, |q|);
  }

  lemma Dequeue(q: seq<Event>, wd: int)
    requires |q| > 0
    ensures NoIgnored(q, wd) ==> NoIgnored(q[1..], wd)
    ensures EndsIgnored(q, wd) && !(q[0].wd == wd && IsIgnored(q[0])) ==> EndsIgnored(q[1..], wd)
    ensures EndsIgnored(q, wd) && q[0].wd == wd && IsIgnored(q[0]) ==> forall j :: 0 < j < |q| ==> q[j].wd != wd
  {
    if EndsIgnored(q, wd) {
      var i: nat :| IgnoredLastAt(q, wd, i);
      if i > 0 {
        assert IgnoredLastAt(q[1..], wd, i - 1);
      }
    }
  }
}
