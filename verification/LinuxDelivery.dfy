/**
 * From the inotify event to the consumer: the calls a Linux server makes feed the bounded Java
 * queue, whose consumer polls at any time.
 */
module LinuxDelivery {
  import opened LinuxRegistry
  import opened LinuxSystem
  import opened LinuxHistory
  import Q = EventQueue

  function CallOf(c: Callback): Q.Call {
    match c
    case FailureCall => Q.ReportFailure
    case ReportCall(r) => if r.OverflowAt? then Q.ReportOverflow else Q.ReportEvent
  }

  /** The calls that reached the Java callback start with those of the server; the Java thread may have added its own. */
  ghost predicate Feeds(h: History, calls: seq<Q.Call>) {
    |h.calls| <= |calls| && forall n :: 0 <= n < |h.calls| ==> calls[n] == CallOf(h.calls[n])
  }

  // ----- Which call belongs to which event -----

  /** Call number `n` makes report number `i`. */
  ghost predicate MakesReport(calls: seq<Callback>, n: nat, i: nat, r: Report) {
    n < |calls| && calls[n] == ReportCall(r) && |ReportsIn(calls[..n])| == i
  }

  /** Event number `k` of the history accounts for report number `i`. */
  ghost predicate ReportOf(out: seq<seq<Report>>, k: nat, i: nat, r: Report) {
    && k < |out|
    && |Flat(out[..k])| <= i < |Flat(out[..k])| + |out[k]|
    && out[k][i - |Flat(out[..k])|] == r
  }

  lemma {:induction false} EveryReportHasACall(calls: seq<Callback>, i: nat) returns (n: nat)
    requires i < |ReportsIn(calls)|
    ensures MakesReport(calls, n, i, ReportsIn(calls)[i])
    decreases |calls|
  {
    var fewer := calls[..|calls| - 1];
    if i < |ReportsIn(fewer)| {
      n := EveryReportHasACall(fewer, i);
      assert calls[..n] == fewer[..n];
    } else {
      n := |calls| - 1;
    }
  }

  lemma {:induction false} EveryCallMakesItsReport(calls: seq<Callback>, n: nat)
    requires n < |calls| && calls[n].ReportCall?
    ensures var i := |ReportsIn(calls[..n])|;
      i < |ReportsIn(calls)| && ReportsIn(calls)[i] == calls[n].report
    decreases |calls|
  {
    var fewer := calls[..|calls| - 1];
    if n < |fewer| {
      EveryCallMakesItsReport(fewer, n);
      assert calls[..n] == fewer[..n];
    }
  }

  lemma {:induction false} ReportsOfEvent(out: seq<seq<Report>>, k: nat, j: nat)
    requires k < |out| && j < |out[k]|
    ensures var i := |Flat(out[..k])| + j;
      i < |Flat(out)| && Flat(out)[i] == out[k][j]
    decreases |out|
  {
    var fewer := out[..|out| - 1];
    if k < |fewer| {
      ReportsOfEvent(fewer, k, j);
      assert out[..k] == fewer[..k];
    }
  }

  lemma {:induction false} EveryReportHasAnEvent(out: seq<seq<Report>>, i: nat) returns (k: nat)
    requires i < |Flat(out)|
    ensures ReportOf(out, k, i, Flat(out)[i])
    decreases |out|
  {
    var fewer := out[..|out| - 1];
    if i < |Flat(fewer)| {
      k := EveryReportHasAnEvent(fewer, i);
      assert out[..k] == fewer[..k];
    } else {
      k := |out| - 1;
    }
  }

  lemma {:induction false} ReportsInGrows(calls: seq<Callback>, m: nat, n: nat)
    requires m <= n <= |calls|
    ensures |ReportsIn(calls[..m])| <= |ReportsIn(calls[..n])|
    decreases n
  {
    if m < n {
      ReportsInGrows(calls, m, n - 1);
      assert calls[..n][..n - 1] == calls[..n - 1];
    }
  }

  lemma {:induction false} FlatGrows(out: seq<seq<Report>>, k: nat, l: nat)
    requires k < l <= |out|
    ensures |Flat(out[..k])| + |out[k]| <= |Flat(out[..l])|
    decreases l
  {
    assert out[..l][..l - 1] == out[..l - 1];
    if k < l - 1 {
      FlatGrows(out, k, l - 1);
    }
  }

  /** The reports of an event that was handled later are made by later calls. */
  lemma LaterEventLaterCall(h: History, k: nat, n: nat, r: Report, k': nat, n': nat, r': Report)
    requires k < k' < |h.out| && h.out[k] != []
    requires MakesReport(h.calls, n, |Flat(h.out[..k])|, r) && MakesReport(h.calls, n', |Flat(h.out[..k'])|, r')
    ensures n < n'
  {
    FlatGrows(h.out, k, k');
    if n' <= n {
      ReportsInGrows(h.calls, n', n);
    }
  }

  // ----- What is handled gets through -----

  /**
   * An event handled for a listening root before the termination is visible to the consumer as its
   * report, or an overflow event stands exactly where it is missing. The visible events are in the
   * order of the calls, which is that of the events handled (`LaterEventLaterCall`).
   */
  lemma HandledIsSeenOrOverflowed(h: History, capacity: nat, qs: seq<Q.State>, steps: seq<Q.Step>, k: nat)
    returns (n: nat)
    requires HistoryOk(h) && Q.IsRun(capacity, qs, steps) && capacity >= 1
    requires Feeds(h, qs[|steps|].calls) && qs[|steps|].pc.Idle?
    requires k < |h.at| && h.at[k] < |h.ys|
    requires Ordinary(h.done[k].mask) && HasListener(h.ys[h.at[k]].server, h.done[k].wd)
    ensures var e, s, v := h.done[k], h.ys[h.at[k]].server, Q.Visible(qs[|steps|]);
      && n < |h.calls| && h.calls[n].ReportCall? && Tells(h.calls[n].report, s.roots[e.wd], e)
      && MakesReport(h.calls, n, |Flat(h.out[..k])|, h.calls[n].report)
      && Q.NoSilentLoss(v, |qs[|steps|].calls|) && Q.AccountedFor(v, n)
  {
    hide IsRun, Encodable, Flat, ReportsIn, Q.StateOk, Reports, Ordinary, Tells;
    assert HandledAt(h, k);
    EveryEventIsReported(h.ys[h.at[k]].server, h.done[k], h.out[k]);
    ReportsOfEvent(h.out, k, 0);
    n := EveryReportHasACall(h.calls, |Flat(h.out[..k])|);
    Q.RunOk(capacity, qs, steps, |steps|);
    Q.IdleMeans(qs[|steps|]);
    assert Q.AccountedFor(Q.Visible(qs[|steps|]), n);
  }

  // ----- What is seen is true -----

  /** Overflow reports of the system are not queued as events of their own. */
  ghost predicate EventsAreQueueable(s: Q.State) {
    && (forall i :: 0 <= i < |Q.Visible(s)| && Q.Visible(s)[i].Event? ==> Queueable(s, Q.Visible(s)[i].n))
    && match s.pc
       case Idle => true
       case OfferFailed(n) => Queueable(s, n)
       case QueueCleared(deliver) => deliver.Some? ==> Queueable(s, deliver.value)
       case OverflowQueued(n) => Queueable(s, n)
  }

  ghost predicate Queueable(s: Q.State, n: nat) {
    n < |s.calls| && s.calls[n] != Q.ReportOverflow
  }

  lemma QueueableStep(s: Q.State, step: Q.Step)
    requires EventsAreQueueable(s) && Q.Enabled(s, step)
    ensures EventsAreQueueable(Q.Next(s, step))
  {
    var t := Q.Next(s, step);
    var v, w := Q.Visible(s), Q.Visible(t);
    forall i | 0 <= i < |w| && w[i].Event? ensures Queueable(t, w[i].n) {
      if w[i] in v {
        var j :| 0 <= j < |v| && v[j] == w[i];
        assert Queueable(s, v[j].n);
      }
    }
  }

  lemma {:induction false} QueueableRun(capacity: nat, qs: seq<Q.State>, steps: seq<Q.Step>, n: nat)
    requires Q.IsRun(capacity, qs, steps) && n < |qs|
    ensures EventsAreQueueable(qs[n])
    decreases n
  {
    hide EventsAreQueueable, Q.Next;
    if n > 0 {
      QueueableRun(capacity, qs, steps, n - 1);
      QueueableStep(qs[n - 1], steps[n - 1]);
    } else {
      NothingQueued(capacity);
    }
  }

  lemma NothingQueued(capacity: nat)
    ensures EventsAreQueueable(Q.Initial(capacity))
  {}

  /**
   * A change or unknown event that the consumer sees is the report of an event that the server has
   * handled: it names a root that was listening under the event's descriptor, or a path below it,
   * and the event was generated after the latest registration of that root.
   */
  lemma SeenIsNotStale(h: History, capacity: nat, qs: seq<Q.State>, steps: seq<Q.Step>, n: nat) returns (k: nat)
    requires HistoryOk(h) && Q.IsRun(capacity, qs, steps) && Feeds(h, qs[|steps|].calls)
    requires Q.Event(n) in Q.Visible(qs[|steps|]) && n < |h.calls| && h.calls[n].ReportCall?
    ensures k < |h.at| && HandledAt(h, k) && ReportOf(h.out, k, |ReportsIn(h.calls[..n])|, h.calls[n].report)
    ensures var j, e, r := h.at[k], h.done[k], h.calls[n].report;
      var s := h.ys[j].server;
      && !r.OverflowAt? && e.wd in s.roots && r.path == ChangedPath(s.roots[e.wd], e.name)
      && exists m: nat, i: nat :: m < i < j && WatchedSince(h.ys, h.steps, m, j, s.roots[e.wd], e.wd) && h.steps[i] == EmitStep(e)
  {
    hide Flat, ReportsIn, Q.Next, Q.Visible;
    var r := h.calls[n].report;
    QueueableRun(capacity, qs, steps, |steps|);
    SeenIsQueueable(qs[|steps|], n);
    EveryCallMakesItsReport(h.calls, n);
    k := EveryReportHasAnEvent(h.out, |ReportsIn(h.calls[..n])|);
    CallbacksAreNotStale(h, k, r);
  }

  lemma SeenIsQueueable(s: Q.State, n: nat)
    requires EventsAreQueueable(s) && Q.Event(n) in Q.Visible(s)
    ensures Queueable(s, n)
  {
    var v := Q.Visible(s);
    var i :| 0 <= i < |v| && v[i] == Q.Event(n);
  }
}
