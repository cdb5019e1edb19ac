/** The buffer ReadDirectoryChangesExW fills, and the walk over its linked records. */
module WindowsNotify {
  import opened Prelude
  import opened Bytes
  import opened WindowsPaths

  const FILE_ACTION_ADDED := 1
  const FILE_ACTION_REMOVED := 2
  const FILE_ACTION_MODIFIED := 3
  const FILE_ACTION_RENAMED_OLD_NAME := 4
  const FILE_ACTION_RENAMED_NEW_NAME := 5
  const FILE_ATTRIBUTE_DIRECTORY := 0x10

  /**
   * Offsets in FILE_NOTIFY_EXTENDED_INFORMATION. Between Action and FileAttributes lie four
   * times and two sizes; between FileAttributes and FileNameLength a tag and two file ids.
   */
  const ACTION_OFFSET := 4
  const ATTRIBUTES_OFFSET := 56
  const NAME_LENGTH_OFFSET := 80
  const NAME_OFFSET := 84

  datatype ChangeType = CREATED | REMOVED | MODIFIED

  datatype Report = Change(changeType: ChangeType, path: Wide) | Unknown(path: Wide) | OverflowAt(path: Wide) | Failure

  /** The fields the server reads, and the bytes it skips. */
  datatype Info = Info(action: nat, attributes: nat, name: Wide, sizes: seq<Byte>, ids: seq<Byte>)

  /** A record and the bytes between its name and the next record. */
  datatype Laid = Laid(info: Info, padding: seq<Byte>)

  ghost predicate InfoOk(r: Info) {
    && r.action < TWO_TO_32 && r.attributes < TWO_TO_32
    && |r.sizes| == ATTRIBUTES_OFFSET - ACTION_OFFSET - 4
    && |r.ids| == NAME_LENGTH_OFFSET - ATTRIBUTES_OFFSET - 4
    && NAME_OFFSET + 2 * |r.name| < TWO_TO_32
    && 0 !in r.name
  }

  function Stride(l: Laid): nat { NAME_OFFSET + 2 * |l.info.name| + |l.padding| }

  ghost predicate LaidOk(ls: seq<Laid>) {
    forall i :: 0 <= i < |ls| ==> InfoOk(ls[i].info) && Stride(ls[i]) < TWO_TO_32
  }

  function NameBytes(name: Wide): (b: seq<Byte>)
    ensures |b| == 2 * |name|
  {
    if name == [] then [] else Le16(name[0]) + NameBytes(name[1..])
  }

  function Fixed(r: Info, next: nat): (b: seq<Byte>)
    requires InfoOk(r) && next < TWO_TO_32
    ensures |b| == NAME_OFFSET
  {
    Le32(next) + Le32(r.action) + r.sizes + Le32(r.attributes) + r.ids + Le32(2 * |r.name|)
  }

  function RecordBytes(l: Laid, next: nat, rest: seq<Byte>): (b: seq<Byte>)
    requires InfoOk(l.info) && next < TWO_TO_32
    ensures |b| == Stride(l) + |rest| && b[Stride(l)..] == rest
  {
    var b := Fixed(l.info, next) + NameBytes(l.info.name) + (l.padding + rest);
    assert b == (Fixed(l.info, next) + NameBytes(l.info.name) + l.padding) + rest;
    b
  }

  /** The buffer: every record points at the next one, the last one holds 0. */
  function BufferOf(ls: seq<Laid>): seq<Byte>
    requires ls != [] && LaidOk(ls)
  {
    if |ls| == 1 then RecordBytes(ls[0], 0, []) else RecordBytes(ls[0], Stride(ls[0]), BufferOf(ls[1..]))
  }

  /** The units before the first zero unit, or nothing if the scan for it leaves the buffer. */
  function ScanUnits(b: seq<Byte>): Option<Wide>
    decreases |b|
  {
    if |b| < 2 then None
    else if Read16(b, 0) == 0 then Some([])
    else match ScanUnits(b[2..])
      case None => None
      case Some(name) => Some([Read16(b, 0)] + name)
  }

  /** A zero unit stands at an even offset. */
  ghost predicate HasZeroUnit(b: seq<Byte>) {
    exists k: nat :: ZeroUnitAt(b, k)
  }

  predicate ZeroUnitAt(b: seq<Byte>, k: nat) {
    2 * k + 2 <= |b| && b[2 * k] == 0 && b[2 * k + 1] == 0
  }

  /** What `current` points at when it points at the first byte of `b`. */
  function NextEntryOffset(b: seq<Byte>): nat
    requires |b| >= NAME_OFFSET
  {
    Read32(b, 0)
  }

  function Action(b: seq<Byte>): nat
    requires |b| >= NAME_OFFSET
  {
    Read32(b, ACTION_OFFSET)
  }

  function Attributes(b: seq<Byte>): nat
    requires |b| >= NAME_OFFSET
  {
    Read32(b, ATTRIBUTES_OFFSET)
  }

  /**
   * `wstring(info->FileName, 0, n)`: the name is converted to a string first, which takes a scan to
   * a zero unit, and at most `n` units of that string are kept.
   */
  function FileName(b: seq<Byte>): Option<Wide>
    requires |b| >= NAME_OFFSET
  {
    match ScanUnits(b[NAME_OFFSET..])
    case None => None
    case Some(name) => Some(AtMost(name, Read32(b, NAME_LENGTH_OFFSET) / 2))
  }

  function AtMost(name: Wide, n: nat): Wide {
    if n < |name| then name[..n] else name
  }

  function ChangedPath(root: Wide, name: Wide): Wide {
    if name == [] then root else root + [BACKSLASH] + name
  }

  /** What handleEvent reports; a modified directory is not worth reporting. */
  function ReportsFor(root: Wide, action: nat, attributes: nat, name: Wide): seq<Report> {
    var path := ChangedPath(root, name);
    if action == FILE_ACTION_ADDED || action == FILE_ACTION_RENAMED_NEW_NAME then [Change(CREATED, path)]
    else if action == FILE_ACTION_REMOVED || action == FILE_ACTION_RENAMED_OLD_NAME then [Change(REMOVED, path)]
    else if action == FILE_ACTION_MODIFIED then
      if attributes / FILE_ATTRIBUTE_DIRECTORY % 2 == 1 then [] else [Change(MODIFIED, path)]
    else [Unknown(path)]
  }

  /** `path` is the root itself, or the root, a backslash and the name. */
  ghost predicate Names(path: Wide, root: Wide, name: Wide) {
    if |name| == 0 then path == root
    else
      && |path| == |root| + 1 + |name|
      && path[..|root|] == root
      && path[|root|] == 92
      && path[|root| + 1..] == name
  }

  /** One report for every record, by its action code, but for a modified directory; its path is the root or below it. */
  lemma ReportMeans(root: Wide, action: nat, attributes: nat, name: Wide)
    ensures var rs := ReportsFor(root, action, attributes, name);
      && (rs == [] <==> action == 3 && attributes % 0x20 >= 0x10)
      && (rs != [] ==>
            && |rs| == 1
            && (rs[0].Change? || rs[0].Unknown?)
            && Names(rs[0].path, root, name)
            && (rs[0].Change? && rs[0].changeType == CREATED <==> action == 1 || action == 5)
            && (rs[0].Change? && rs[0].changeType == REMOVED <==> action == 2 || action == 4)
            && (rs[0].Change? && rs[0].changeType == MODIFIED <==> action == 3)
            && (rs[0].Unknown? <==> action == 0 || action > 5))
  {
    hide Names, ChangedPath;
    DirectoryBit(attributes);
    ChangedPathNames(root, name);
  }

  lemma ChangedPathNames(root: Wide, name: Wide)
    ensures Names(ChangedPath(root, name), root, name)
  {}

  lemma DirectoryBit(attributes: nat)
    ensures attributes / FILE_ATTRIBUTE_DIRECTORY % 2 == 1 <==> attributes % 0x20 >= 0x10
  {
    var q := attributes / 0x20;
    assert attributes == 0x20 * q + attributes % 0x20;
    assert attributes / 0x10 == 2 * q + attributes % 0x20 / 0x10;
  }

  function ReportsForAll(root: Wide, ls: seq<Laid>): seq<Report> {
    if ls == [] then []
    else ReportsFor(root, ls[0].info.action, ls[0].info.attributes, ls[0].info.name) + ReportsForAll(root, ls[1..])
  }

  lemma {:induction false} ScanEndsIff(b: seq<Byte>)
    ensures ScanUnits(b).Some? <==> HasZeroUnit(b)
    decreases |b|
  {
    if |b| >= 2 {
      ScanEndsIff(b[2..]);
      if Read16(b, 0) == 0 {
        assert ZeroUnitAt(b, 0);
      } else {
        ZeroUnitLater(b);
      }
    }
  }

  lemma ZeroUnitLater(b: seq<Byte>)
    requires |b| >= 2 && !ZeroUnitAt(b, 0)
    ensures HasZeroUnit(b) <==> HasZeroUnit(b[2..])
  {
    if HasZeroUnit(b) {
      var k: nat :| ZeroUnitAt(b, k);
      assert ZeroUnitAt(b[2..], k - 1);
    }
    if HasZeroUnit(b[2..]) {
      var k: nat :| ZeroUnitAt(b[2..], k);
      assert ZeroUnitAt(b, k + 1);
    }
  }

  /** The scan stays in the buffer exactly if a zero unit follows the name, and then finds the name. */
  lemma {:induction false} ReadName(name: Wide, rest: seq<Byte>)
    requires 0 !in name
    ensures var scanned := ScanUnits(NameBytes(name) + rest);
      && (scanned.Some? <==> HasZeroUnit(rest))
      && (scanned.Some? ==> AtMost(scanned.value, |name|) == name && |name| <= |scanned.value|)
    decreases |name|
  {
    var b := NameBytes(name) + rest;
    if name == [] {
      assert b == rest;
      ScanEndsIff(rest);
    } else {
      assert b[0..2] == Le16(name[0]);
      ReadBack16(b, 0, name[0]);
      assert b[2..] == NameBytes(name[1..]) + rest;
      ReadName(name[1..], rest);
      var scanned := ScanUnits(b[2..]);
      if scanned.Some? {
        assert name == [name[0]] + name[1..];
        assert scanned.value[..|name| - 1] == name[1..];
        assert ([name[0]] + scanned.value)[..|name|] == [name[0]] + scanned.value[..|name| - 1];
      }
    }
  }

  lemma ReadFixed(r: Info, next: nat)
    requires InfoOk(r) && next < TWO_TO_32
    ensures var b := Fixed(r, next);
      && Read32(b, 0) == next && Read32(b, ACTION_OFFSET) == r.action
      && Read32(b, ATTRIBUTES_OFFSET) == r.attributes && Read32(b, NAME_LENGTH_OFFSET) == 2 * |r.name|
  {
    var b := Fixed(r, next);
    assert b[0..4] == Le32(next);
    ReadBack32(b, 0, next);
    assert b[4..8] == Le32(r.action);
    ReadBack32(b, 4, r.action);
    assert b[56..60] == Le32(r.attributes);
    ReadBack32(b, 56, r.attributes);
    assert b[80..84] == Le32(2 * |r.name|);
    ReadBack32(b, 80, 2 * |r.name|);
  }

  lemma ReadInfo(r: Info, next: nat, rest: seq<Byte>)
    requires InfoOk(r) && next < TWO_TO_32
    ensures var b := Fixed(r, next) + NameBytes(r.name) + rest;
      && NextEntryOffset(b) == next && Action(b) == r.action && Attributes(b) == r.attributes
      && FileName(b) == if HasZeroUnit(rest) then Some(r.name) else None
  {
    var f := Fixed(r, next);
    var b := f + NameBytes(r.name) + rest;
    ReadFixed(r, next);
    assert forall i :: 0 <= i < NAME_OFFSET ==> b[i] == f[i];
    assert b[NAME_OFFSET..] == NameBytes(r.name) + rest;
    ReadName(r.name, rest);
  }

  /** What follows the name of the first record in a buffer that goes on with `tail` behind the last one. */
  function BehindName(ls: seq<Laid>, tail: seq<Byte>): seq<Byte>
    requires ls != [] && LaidOk(ls)
  {
    ls[0].padding + (if |ls| == 1 then [] else BufferOf(ls[1..])) + tail
  }

  /** Behind the name of every record there is a zero unit at an even offset, before the buffer ends. */
  ghost predicate NamesEnd(ls: seq<Laid>, tail: seq<Byte>)
    requires LaidOk(ls)
  {
    ls == [] || (HasZeroUnit(BehindName(ls, tail)) && NamesEnd(ls[1..], tail))
  }

  /**
   * Reading at the start of a buffer gives its first record, and its offset leads to the rest, if
   * any. The name can be read without leaving the buffer exactly if a zero unit stands behind it.
   */
  lemma ReadFirst(ls: seq<Laid>, tail: seq<Byte>)
    requires ls != [] && LaidOk(ls)
    ensures |BufferOf(ls)| >= NAME_OFFSET
    ensures var b, r := BufferOf(ls) + tail, ls[0].info;
      && Action(b) == r.action && Attributes(b) == r.attributes
      && FileName(b) == (if HasZeroUnit(BehindName(ls, tail)) then Some(r.name) else None)
      && (NextEntryOffset(b) == 0 <==> |ls| == 1)
      && (|ls| > 1 ==> 0 < NextEntryOffset(b) < |b| && LaidOk(ls[1..]) && b[NextEntryOffset(b)..] == BufferOf(ls[1..]) + tail)
  {
    hide Action, Attributes, FileName, Fixed, NameBytes, HasZeroUnit, BufferOf, BehindName;
    ReadInfo(ls[0].info, NextOf(ls), BehindName(ls, tail));
    BufferShape(ls, tail);
    if |ls| > 1 {
      BufferNotEmpty(ls[1..]);
    }
  }

  /** The NextEntryOffset of the first record. */
  function NextOf(ls: seq<Laid>): nat
    requires ls != []
  {
    if |ls| == 1 then 0 else Stride(ls[0])
  }

  lemma BufferShape(ls: seq<Laid>, tail: seq<Byte>)
    requires ls != [] && LaidOk(ls)
    ensures |BufferOf(ls)| >= NAME_OFFSET
    ensures var b, info := BufferOf(ls) + tail, ls[0].info;
      && b == Fixed(info, NextOf(ls)) + NameBytes(info.name) + BehindName(ls, tail)
      && (|ls| > 1 ==>
            && LaidOk(ls[1..])
            && |b| == Stride(ls[0]) + |BufferOf(ls[1..])| + |tail|
            && b[Stride(ls[0])..] == BufferOf(ls[1..]) + tail)
  {
    hide Fixed, NameBytes;
    var l := ls[0];
    var head := Fixed(l.info, NextOf(ls)) + NameBytes(l.info.name);
    var more := if |ls| == 1 then [] else BufferOf(ls[1..]);
    assert BufferOf(ls) == RecordBytes(l, NextOf(ls), more) == head + (l.padding + more);
    Regroup(head, l.padding, more, tail);
  }

  lemma Regroup<T>(a: seq<T>, b: seq<T>, c: seq<T>, d: seq<T>)
    ensures (a + (b + c)) + d == a + (b + c + d)
    ensures ((a + (b + c)) + d)[|a| + |b|..] == c + d
  {
    assert (a + (b + c)) + d == (a + b) + (c + d);
  }

  lemma BufferNotEmpty(ls: seq<Laid>)
    requires ls != [] && LaidOk(ls)
    ensures |BufferOf(ls)| > 0
  {}

  /** Server::handleEvent for the record that `current` points at; nothing if reading its name leaves the buffer. */
  method HandleEvent(watchedPath: Wide, current: seq<Byte>) returns (reported: Option<seq<Report>>)
    requires |current| >= NAME_OFFSET
    ensures reported.Some? <==> FileName(current).Some?
    ensures reported.Some? ==>
      reported.value == ReportsFor(watchedPath, Action(current), Attributes(current), FileName(current).value)
  {
    var name := FileName(current);
    if name.None? {
      return None;
    }
    var changedPath := name.value;
    if changedPath != [] {
      changedPath := [BACKSLASH] + changedPath;
    }
    changedPath := watchedPath + changedPath;
    assert changedPath == ChangedPath(watchedPath, name.value);

    var changeType;
    var action := Action(current);
    if action == FILE_ACTION_ADDED || action == FILE_ACTION_RENAMED_NEW_NAME {
      changeType := CREATED;
    } else if action == FILE_ACTION_REMOVED || action == FILE_ACTION_RENAMED_OLD_NAME {
      changeType := REMOVED;
    } else if action == FILE_ACTION_MODIFIED {
      if Attributes(current) / FILE_ATTRIBUTE_DIRECTORY % 2 == 1 {
        // the entries of the directory have events of their own
        return Some([]);
      }
      changeType := MODIFIED;
    } else {
      return Some([Unknown(changedPath)]);
    }
    return Some([Change(changeType, changedPath)]);
  }

  /**
   * The loop over the buffer; `tail` is what the buffer holds behind the last record. The walk stays
   * in the buffer exactly if a zero unit follows every name. Then it visits every record once and in
   * order, and ends at the record whose NextEntryOffset is 0.
   */
  method WalkBuffer(path: Wide, eventBuffer: seq<Byte>, ghost ls: seq<Laid>, ghost tail: seq<Byte>)
    returns (reported: Option<seq<Report>>)
    requires ls != [] && LaidOk(ls) && eventBuffer == BufferOf(ls) + tail
    ensures reported.Some? <==> NamesEnd(ls, tail)
    ensures reported.Some? ==> reported.value == ReportsForAll(path, ls)
  {
    hide *;
    var reports: seq<Report> := [];
    var index := 0;
    ghost var rest := ls;
    while true
      invariant 0 <= index <= |eventBuffer| && rest != [] && LaidOk(rest) && eventBuffer[index..] == BufferOf(rest) + tail
      invariant reports + ReportsForAll(path, rest) == ReportsForAll(path, ls)
      invariant NamesEnd(rest, tail) <==> NamesEnd(ls, tail)
      decreases |rest|
    {
      var current := eventBuffer[index..];
      ReadFirst(rest, tail);
      NamesUnfold(rest, tail);
      var one := HandleEvent(path, current);
      if one.None? {
        return None;
      }
      ReportsUnfold(path, rest, reports);
      reports := reports + one.value;
      if NextEntryOffset(current) == 0 {
        break;
      }
      index := index + NextEntryOffset(current);
      rest := rest[1..];
    }
    return Some(reports);
  }

  lemma NamesUnfold(ls: seq<Laid>, tail: seq<Byte>)
    requires ls != [] && LaidOk(ls)
    ensures LaidOk(ls[1..])
    ensures NamesEnd(ls, tail) <==> HasZeroUnit(BehindName(ls, tail)) && NamesEnd(ls[1..], tail)
    ensures |ls| == 1 ==> NamesEnd(ls[1..], tail)
  {}

  // ----- When the walk stays in the buffer -----

  /** Every NextEntryOffset is even and has a zero upper half. */
  ghost predicate SmallAndEven(ls: seq<Laid>) {
    forall i :: 0 <= i < |ls| - 1 ==> Stride(ls[i]) % 2 == 0 && Stride(ls[i]) < 0x1_0000
  }

  /**
   * Where records start at even offsets and are shorter than 64 KB, a record that follows ends the
   * name before it: only what stands behind the last name matters.
   */
  lemma {:induction false} OnlyTheLastNameMatters(ls: seq<Laid>, tail: seq<Byte>)
    requires ls != [] && LaidOk(ls) && SmallAndEven(ls)
    ensures NamesEnd(ls, tail) <==> HasZeroUnit(ls[|ls| - 1].padding + tail)
    decreases |ls|
  {
    hide NamesEnd, HasZeroUnit, BufferOf, BehindName;
    NamesUnfold(ls, tail);
    if |ls| == 1 {
      BehindLastName(ls, tail);
    } else {
      OnlyTheLastNameMatters(ls[1..], tail);
      NextRecordEndsName(ls, tail);
    }
  }

  lemma BehindLastName(ls: seq<Laid>, tail: seq<Byte>)
    requires |ls| == 1 && LaidOk(ls)
    ensures BehindName(ls, tail) == ls[0].padding + tail
  {
    assert ls[0].padding + [] + tail == ls[0].padding + tail;
  }

  lemma NextRecordEndsName(ls: seq<Laid>, tail: seq<Byte>)
    requires |ls| > 1 && LaidOk(ls) && SmallAndEven(ls)
    ensures HasZeroUnit(BehindName(ls, tail))
  {
    hide BufferOf, BehindName, NextOf, ZeroUnitAt, HasZeroUnit;
    BehindNext(ls, tail);
    var padding, following := ls[0].padding, BufferOf(ls[1..]);
    UpperHalfIsZero(ls);
    assert |padding| % 2 == 0 by {
      assert Stride(ls[0]) % 2 == 0;
    }
    ZeroUnitBehind(padding, following, tail);
  }

  lemma BehindNext(ls: seq<Laid>, tail: seq<Byte>)
    requires |ls| > 1 && LaidOk(ls)
    ensures LaidOk(ls[1..]) && BehindName(ls, tail) == ls[0].padding + BufferOf(ls[1..]) + tail
  {}

  lemma UpperHalfIsZero(ls: seq<Laid>)
    requires |ls| > 1 && LaidOk(ls) && SmallAndEven(ls)
    ensures LaidOk(ls[1..]) && |BufferOf(ls[1..])| >= NAME_OFFSET
    ensures BufferOf(ls[1..])[2] == 0 && BufferOf(ls[1..])[3] == 0
  {
    hide BufferOf;
    HeaderFirst(ls[1..]);
    var header := BufferOf(ls[1..])[..4];
    assert NextOf(ls[1..]) < 0x1_0000;
    assert header[2] == 0 && header[3] == 0;
  }

  lemma ZeroUnitBehind(padding: seq<Byte>, following: seq<Byte>, tail: seq<Byte>)
    requires |padding| % 2 == 0 && |following| >= 4 && following[2] == 0 && following[3] == 0
    ensures HasZeroUnit(padding + following + tail)
  {
    assert ZeroUnitAt(padding + following + tail, |padding| / 2 + 1);
  }

  lemma HeaderFirst(ls: seq<Laid>)
    requires ls != [] && LaidOk(ls)
    ensures |BufferOf(ls)| >= NAME_OFFSET && BufferOf(ls)[..4] == Le32(NextOf(ls))
  {
    hide NameBytes, BehindName, BufferOf;
    BufferShape(ls, []);
    assert BufferOf(ls) + [] == BufferOf(ls);
    assert Fixed(ls[0].info, NextOf(ls))[..4] == Le32(NextOf(ls));
  }

  /** A completion that fills the buffer to its end with a name: reading that name leaves the buffer. */
  lemma NameAtTheEndIsReadPast(info: Info)
    requires InfoOk(info)
    ensures LaidOk([Laid(info, [])]) && !NamesEnd([Laid(info, [])], [])
    ensures FileName(BufferOf([Laid(info, [])])) == None
  {
    var ls := [Laid(info, [])];
    assert BehindName(ls, []) == [];
    ReadFirst(ls, []);
    assert BufferOf(ls) + [] == BufferOf(ls);
  }

  lemma ReportsUnfold(root: Wide, ls: seq<Laid>, before: seq<Report>)
    requires ls != []
    ensures var r := ls[0].info;
      var now := before + ReportsFor(root, r.action, r.attributes, r.name);
      && before + ReportsForAll(root, ls) == now + ReportsForAll(root, ls[1..])
      && (|ls| == 1 ==> before + ReportsForAll(root, ls) == now)
  {
    hide ReportsFor;
    var r := ls[0].info;
    var one, more := ReportsFor(root, r.action, r.attributes, r.name), ReportsForAll(root, ls[1..]);
    assert before + (one + more) == before + one + more;
    if |ls| == 1 {
      assert more == [] && before + one + [] == before + one;
    }
  }
}
