/** The byte layout of inotify events, and reading the event an index points at. */
module InotifyRecords {
  import opened Prelude
  import opened Bytes
  import opened InotifyKernel

  /** sizeof(struct inotify_event): wd, mask, cookie and len, four bytes each. */
  const HEADER := 16

  const NAME_MAX := 255

  /** An event and the number of NUL bytes that follow its name. */
  datatype Record = Record(event: Event, padding: nat)

  /** The record can be laid out: fields fit, and a nonempty name is NUL-terminated. */
  ghost predicate RecordOk(r: Record) {
    && -0x8000_0000 <= r.event.wd < 0x8000_0000
    && r.event.mask < TWO_TO_32 && r.event.cookie < TWO_TO_32
    && 0 !in r.event.name
    && (r.event.name != [] ==> r.padding >= 1)
    && |r.event.name| + r.padding < TWO_TO_32
  }

  function Size(r: Record): nat { HEADER + |r.event.name| + r.padding }

  function Header(r: Record): (b: seq<Byte>)
    requires RecordOk(r)
    ensures |b| == HEADER
  {
    Le32(Unsigned32(r.event.wd)) + Le32(r.event.mask) + Le32(r.event.cookie) + Le32(|r.event.name| + r.padding)
  }

  function Encode(r: Record): (b: seq<Byte>)
    requires RecordOk(r)
    ensures |b| == Size(r)
  {
    Header(r) + (r.event.name + Zeros(r.padding))
  }

  ghost predicate RecordsOk(rs: seq<Record>) {
    forall i :: 0 <= i < |rs| ==> RecordOk(rs[i])
  }

  /** The buffer: the records one after the other. */
  function EncodeAll(rs: seq<Record>): seq<Byte>
    requires RecordsOk(rs)
  {
    if rs == [] then [] else Encode(rs[0]) + EncodeAll(rs[1..])
  }

  function EventsOf(rs: seq<Record>): seq<Event> {
    if rs == [] then [] else [rs[0].event] + EventsOf(rs[1..])
  }

  /** The bytes before the first NUL. */
  function CString(b: seq<Byte>): seq<Byte> {
    if b == [] || b[0] == 0 then [] else [b[0]] + CString(b[1..])
  }

  /** The `len` field of the event that `b` starts with. */
  function FirstLen(b: seq<Byte>): nat
    requires HEADER <= |b|
  {
    Read32(b, 12)
  }

  /** What handleEvent sees when the event pointer points at the first byte of `b`. */
  function FirstEvent(b: seq<Byte>): Event
    requires HEADER <= |b| && HEADER + FirstLen(b) <= |b|
  {
    var len := FirstLen(b);
    Event(Signed32(Read32(b, 0)), Read32(b, 4), Read32(b, 8),
          if len == 0 then [] else CString(b[HEADER..HEADER + len]))
  }

  lemma {:induction false} CStringStopsAtNul(name: seq<Byte>, zeros: nat)
    requires 0 !in name && (name != [] ==> zeros >= 1)
    ensures CString(name + Zeros(zeros)) == name
    decreases |name|
  {
    if name != [] {
      assert (name + Zeros(zeros))[1..] == name[1..] + Zeros(zeros);
      assert forall x :: x in name[1..] ==> x in name;
      CStringStopsAtNul(name[1..], zeros);
    }
  }

  lemma ReadHeader(r: Record)
    requires RecordOk(r)
    ensures var h := Header(r);
      && Signed32(Read32(h, 0)) == r.event.wd
      && Read32(h, 4) == r.event.mask && Read32(h, 8) == r.event.cookie
      && Read32(h, 12) == |r.event.name| + r.padding
  {
    var h := Header(r);
    assert h[0..4] == Le32(Unsigned32(r.event.wd));
    ReadBack32(h, 0, Unsigned32(r.event.wd));
    assert h[4..8] == Le32(r.event.mask);
    ReadBack32(h, 4, r.event.mask);
    assert h[8..12] == Le32(r.event.cookie);
    ReadBack32(h, 8, r.event.cookie);
    assert h[12..16] == Le32(|r.event.name| + r.padding);
    ReadBack32(h, 12, |r.event.name| + r.padding);
  }

  /** Reading at the start of a record gives it back, and the next record starts right behind it. */
  lemma ReadRecord(r: Record, rest: seq<Byte>)
    requires RecordOk(r)
    ensures var b := Encode(r) + rest;
      && HEADER + FirstLen(b) == Size(r)
      && FirstEvent(b) == r.event
      && b[Size(r)..] == rest
  {
    var h, n, b := Header(r), r.event.name + Zeros(r.padding), Encode(r) + rest;
    assert forall i :: 0 <= i < HEADER ==> b[i] == h[i];
    ReadHeader(r);
    assert b[HEADER..HEADER + |n|] == n;
    CStringStopsAtNul(r.event.name, r.padding);
  }

  /** A buffer can be read as events in one way only. */
  lemma {:induction false} EncodingIsUnambiguous(rs: seq<Record>, ts: seq<Record>)
    requires RecordsOk(rs) && RecordsOk(ts) && EncodeAll(rs) == EncodeAll(ts)
    ensures EventsOf(rs) == EventsOf(ts)
    decreases |rs|
  {
    if rs != [] && ts != [] {
      ReadRecord(rs[0], EncodeAll(rs[1..]));
      ReadRecord(ts[0], EncodeAll(ts[1..]));
      EncodingIsUnambiguous(rs[1..], ts[1..]);
    }
  }

  // ----- The records the kernel writes -----

  predicate EventOk(e: Event) {
    && -0x8000_0000 <= e.wd < 0x8000_0000 && e.mask < TWO_TO_32 && e.cookie < TWO_TO_32
    && 0 !in e.name && |e.name| <= NAME_MAX
  }

  ghost predicate EventsOk(es: seq<Event>) {
    forall i :: 0 <= i < |es| ==> EventOk(es[i])
  }

  /** A nonempty name and its terminator are padded to a multiple of the header size. */
  function KernelRecord(e: Event): Record {
    var n := |e.name|;
    Record(e, if n == 0 then 0 else (n + HEADER) / HEADER * HEADER - n)
  }

  lemma KernelRecordOk(e: Event)
    requires EventOk(e)
    ensures RecordOk(KernelRecord(e)) && HEADER <= Size(KernelRecord(e)) <= 17 * HEADER
  {}

  /** The number of bytes a read of these events returns, and what FIONREAD counts for them. */
  function BytesOf(es: seq<Event>): nat {
    if es == [] then 0 else Size(KernelRecord(es[0])) + BytesOf(es[1..])
  }

  function KernelRecords(es: seq<Event>): seq<Record> {
    if es == [] then [] else [KernelRecord(es[0])] + KernelRecords(es[1..])
  }

  lemma {:induction false} KernelRecordsOk(es: seq<Event>)
    requires EventsOk(es)
    ensures var rs := KernelRecords(es);
      RecordsOk(rs) && EventsOf(rs) == es && |EncodeAll(rs)| == BytesOf(es)
    decreases |es|
  {
    if es != [] {
      KernelRecordOk(es[0]);
      KernelRecordsOk(es[1..]);
      assert KernelRecords(es)[1..] == KernelRecords(es[1..]);
    }
  }

  lemma {:induction false} BytesConcat(es: seq<Event>, fs: seq<Event>)
    ensures BytesOf(es + fs) == BytesOf(es) + BytesOf(fs)
    ensures fs != [] ==> BytesOf(fs) > 0
    decreases |es|
  {
    if es == [] {
      assert es + fs == fs;
    } else {
      BytesConcat(es[1..], fs);
      assert (es + fs)[1..] == es[1..] + fs;
    }
  }
}
