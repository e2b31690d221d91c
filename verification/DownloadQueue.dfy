/** The launcher's download queue: admission under concurrency limits, retries, completion. What
    the network does is a list of reports; the files themselves are not part of the model. */
module DownloadQueue {
  import opened Sequences

  const MAX_CONCURRENT := 6
  const MAX_CONCURRENT_HUGE := 2
  const HUGE_SIZE := 10 * 1024 * 1024
  const MEGA_HUGE_SIZE := 40 * 1024 * 1024
  const RETRIES := 10

  /** `retried` counts the restarts; the original counts `numRetries` down from ten. */
  datatype Download = Download(id: nat, size: int, retried: nat)

  /** How a transfer ended: done and moved into place or not, refused by the server, or broken
      off in some other way. */
  datatype Report = Done(id: nat, moved: bool) | Refused(id: nat) | Broken(id: nat)

  datatype State = State(
    queue: seq<Download>,
    current: seq<Download>,
    numDownloads: nat,
    completed: nat,
    isDownloading: bool,
    error: bool,
    ever: seq<nat>,      // for the specification: the ids in the order they were queued
    admitted: seq<nat>   // and in the order they were admitted
  )

  const INITIAL := State([], [], 0, 0, false, false, [], [])

  function CountOver(ds: seq<Download>, limit: int): nat {
    if ds == [] then 0 else (if ds[0].size > limit then 1 else 0) + CountOver(ds[1..], limit)
  }

  function Ids(ds: seq<Download>): (r: seq<nat>)
    ensures |r| == |ds| && forall i :: 0 <= i < |ds| ==> r[i] == ds[i].id
  {
    if ds == [] then [] else [ds[0].id] + Ids(ds[1..])
  }

  /** The limits on what is in flight. */
  ghost predicate WithinLimits(ds: seq<Download>) {
    && |ds| <= MAX_CONCURRENT
    && CountOver(ds, HUGE_SIZE) <= MAX_CONCURRENT_HUGE
    && CountOver(ds, MEGA_HUGE_SIZE) <= 1
    && forall i :: 0 <= i < |ds| ==> ds[i].retried <= RETRIES
  }

  /** What has been queued was admitted in that order, or waits in that order. */
  ghost predicate Fifo(ever: seq<nat>, admitted: seq<nat>, queue: seq<Download>) {
    && NoDup(ever) && ever == admitted + Ids(queue)
    && forall i :: 0 <= i < |queue| ==> queue[i].retried == 0
  }

  /** Different downloads are in flight, all of them admitted. */
  ghost predicate InFlight(current: seq<Download>, admitted: seq<nat>) {
    && (forall i, j :: 0 <= i < j < |current| ==> current[i].id != current[j].id)
    && (forall i :: 0 <= i < |current| ==> current[i].id in admitted)
  }

  /** Limits, conservation and order. */
  ghost predicate Safe(s: State) {
    && WithinLimits(s.current)
    && s.numDownloads == s.completed + |s.current| + |s.queue|
    && Fifo(s.ever, s.admitted, s.queue)
    && InFlight(s.current, s.admitted)
  }

  // ----- steps -----

  function Queued(s: State, id: nat, size: int): State {
    s.(queue := s.queue + [Download(id, size, 0)], numDownloads := s.numDownloads + 1, isDownloading := true,
       ever := s.ever + [id])
  }

  /** Whether the head of the queue may join what is in flight. */
  predicate MayAdmit(s: State)
    requires s.queue != []
  {
    && |s.current| < MAX_CONCURRENT
    && (|s.current| >= MAX_CONCURRENT_HUGE ==> s.queue[0].size <= HUGE_SIZE)
    && (|s.current| >= 1 ==> s.queue[0].size <= MEGA_HUGE_SIZE)
  }

  function Dequeued(s: State): State
    requires s.queue != []
  {
    if !MayAdmit(s) then s
    else s.(current := s.current + [s.queue[0]], queue := s.queue[1..], admitted := s.admitted + [s.queue[0].id])
  }

  /** The position of a download in flight, or the length if there is none. */
  function Find(ds: seq<Download>, id: nat): (i: nat)
    ensures i <= |ds| && (i < |ds| ==> ds[i].id == id)
    ensures forall k :: 0 <= k < i ==> ds[k].id != id
  {
    if ds == [] then 0 else if ds[0].id == id then 0 else 1 + Find(ds[1..], id)
  }

  datatype Outcome = Outcome(state: State, ok: bool)

  /** One report of the transfer library; `ok` is false where processing gives up. */
  function Reported(s: State, r: Report): Outcome {
    var i := Find(s.current, r.id);
    if i == |s.current| then Outcome(s, true)
    else
      match r
      case Done(_, moved) =>
        if moved then Outcome(s.(current := s.current[..i] + s.current[i + 1..], completed := s.completed + 1), true)
        else Outcome(s, false)
      case Refused(_) => Outcome(s, false)
      case Broken(_) =>
        if s.current[i].retried < RETRIES
        then Outcome(s.(current := s.current[i := s.current[i].(retried := s.current[i].retried + 1)]), true)
        else Outcome(s, false)
  }

  function AllReported(s: State, reports: seq<Report>): Outcome
    decreases |reports|
  {
    if reports == [] then Outcome(s, true)
    else
      var o := Reported(s, reports[0]);
      if !o.ok then o else AllReported(o.state, reports[1..])
  }

  /** One call of `DL_Process`, with the reports that have come in. */
  function Processed(s: State, reports: seq<Report>): State {
    if !s.isDownloading then s
    else
      var o := if s.current != [] then AllReported(s, reports) else Outcome(s, true);
      if !o.ok then o.state.(isDownloading := false, error := true)
      else if o.state.queue != [] then Dequeued(o.state)
      else o.state
  }

  /** What becomes of a report on the download at position `i`: a broken transfer is started again
      up to ten times, a finished one is taken out and counted, and anything else ends it all. */
  ghost predicate AnsweredAt(s: State, i: nat, r: Report, o: Outcome)
    requires i < |s.current|
  {
    var d := s.current[i];
    match r
    case Broken(_) =>
      if d.retried < 10
      then o == Outcome(s.(current := s.current[..i] + [Download(d.id, d.size, d.retried + 1)] + s.current[i + 1..]), true)
      else o == Outcome(s, false)
    case Refused(_) => o == Outcome(s, false)
    case Done(_, moved) =>
      if moved
      then o == Outcome(s.(current := s.current[..i] + s.current[i + 1..], completed := s.completed + 1), true)
      else o == Outcome(s, false)
  }

  /** Reports on what is not in flight are passed over. */
  ghost predicate Answered(s: State, r: Report, o: Outcome) {
    && ((forall i :: 0 <= i < |s.current| ==> s.current[i].id != r.id) ==> o == Outcome(s, true))
    && (forall i :: 0 <= i < |s.current| && s.current[i].id == r.id ==> AnsweredAt(s, i, r, o))
  }

  lemma {:induction false} ReportedAnswers(s: State, r: Report)
    requires forall i, j :: 0 <= i < j < |s.current| ==> s.current[i].id != s.current[j].id
    ensures Answered(s, r, Reported(s, r))
  {
    forall i | 0 <= i < |s.current| && s.current[i].id == r.id ensures AnsweredAt(s, i, r, Reported(s, r)) {
      assert Find(s.current, r.id) == i;
      var d := s.current[i].(retried := s.current[i].retried + 1);
      assert s.current[i := d] == s.current[..i] + [d] + s.current[i + 1..];
    }
  }

  /** The head of the queue is admitted if and only if fewer than six downloads are in flight, and
      it is not over 10 MiB with two in flight, and not over 40 MiB with any. */
  lemma {:induction false} AdmittedExactly(s: State)
    requires s.queue != []
    ensures Dequeued(s).current == s.current + [s.queue[0]] <==>
      |s.current| < 6 && (s.queue[0].size <= 10485760 || |s.current| < 2) && (s.queue[0].size <= 41943040 || s.current == [])
    ensures Dequeued(s).current == s.current <==> Dequeued(s) == s
    ensures Dequeued(s).current == s.current || Dequeued(s).current == s.current + [s.queue[0]]
  {
  }

  // ----- safety -----

  lemma {:induction false} CountConcat(a: seq<Download>, b: seq<Download>, limit: int)
    ensures CountOver(a + b, limit) == CountOver(a, limit) + CountOver(b, limit)
  {
    if a == [] {
      assert a + b == b;
    } else {
      assert (a + b)[1..] == a[1..] + b;
      CountConcat(a[1..], b, limit);
    }
  }

  lemma {:induction false} CountBound(ds: seq<Download>, limit: int)
    ensures CountOver(ds, limit) <= |ds|
  {
    if ds != [] { CountBound(ds[1..], limit); }
  }

  /** Taking out or restarting the download at `i` does not exceed a limit. */
  lemma {:induction false} CountAround(ds: seq<Download>, i: nat, d: Download, limit: int)
    requires i < |ds| && d.size == ds[i].size
    ensures CountOver(ds[..i] + ds[i + 1..], limit) <= CountOver(ds, limit)
    ensures CountOver(ds[i := d], limit) == CountOver(ds, limit)
  {
    assert ds == ds[..i] + ([ds[i]] + ds[i + 1..]) && ds[i := d] == ds[..i] + ([d] + ds[i + 1..]);
    CountConcat(ds[..i], [ds[i]] + ds[i + 1..], limit);
    CountConcat(ds[..i], [d] + ds[i + 1..], limit);
    CountConcat(ds[..i], ds[i + 1..], limit);
    CountConcat([ds[i]], ds[i + 1..], limit);
    CountConcat([d], ds[i + 1..], limit);
    assert [d][1..] == [] && [ds[i]][1..] == [];
  }

  lemma {:induction false} IdsConcat(a: seq<Download>, b: seq<Download>)
    ensures Ids(a + b) == Ids(a) + Ids(b)
  {
    if a == [] {
      assert a + b == b;
    } else {
      assert (a + b)[1..] == a[1..] + b;
      IdsConcat(a[1..], b);
    }
  }

  lemma {:induction false} QueuedSafe(s: State, id: nat, size: int)
    requires Safe(s) && id !in s.ever
    ensures Safe(Queued(s, id, size))
  {
    IdsConcat(s.queue, [Download(id, size, 0)]);
    assert Ids([Download(id, size, 0)]) == [id];
    assert (s.admitted + Ids(s.queue)) + [id] == s.admitted + (Ids(s.queue) + [id]);
  }

  /** Admission keeps the limits: a huge file only joins at most one other, a mega-huge one
      joins none, though others may join it later. */
  lemma {:induction false} AdmissionWithinLimits(s: State)
    requires WithinLimits(s.current) && s.queue != [] && s.queue[0].retried == 0
    ensures WithinLimits(Dequeued(s).current)
  {
    if MayAdmit(s) {
      var d := s.queue[0];
      CountConcat(s.current, [d], HUGE_SIZE);
      CountConcat(s.current, [d], MEGA_HUGE_SIZE);
      CountBound(s.current, HUGE_SIZE);
      CountBound(s.current, MEGA_HUGE_SIZE);
      assert [d][1..] == [];
    }
  }

  lemma {:induction false} FifoStep(ever: seq<nat>, admitted: seq<nat>, queue: seq<Download>)
    requires Fifo(ever, admitted, queue) && queue != []
    ensures Fifo(ever, admitted + [queue[0].id], queue[1..]) && queue[0].id !in admitted
  {
    var id := queue[0].id;
    assert Ids(queue) == [id] + Ids(queue[1..]);
    assert admitted + ([id] + Ids(queue[1..])) == (admitted + [id]) + Ids(queue[1..]);
    assert ever[|admitted|] == id;
    assert forall k :: 0 <= k < |admitted| ==> ever[k] == admitted[k];
  }

  lemma {:induction false} DequeuedSafe(s: State)
    requires Safe(s) && s.queue != []
    ensures Safe(Dequeued(s))
  {
    AdmissionWithinLimits(s);
    FifoStep(s.ever, s.admitted, s.queue);
  }

  lemma {:induction false} RemovedSafe(ds: seq<Download>, i: nat, admitted: seq<nat>)
    requires i < |ds| && WithinLimits(ds) && InFlight(ds, admitted)
    ensures WithinLimits(ds[..i] + ds[i + 1..]) && InFlight(ds[..i] + ds[i + 1..], admitted)
  {
    var without := ds[..i] + ds[i + 1..];
    CountAround(ds, i, ds[i], HUGE_SIZE);
    CountAround(ds, i, ds[i], MEGA_HUGE_SIZE);
    assert forall k :: 0 <= k < |without| ==> without[k] == ds[if k < i then k else k + 1];
  }

  lemma {:induction false} RestartedSafe(ds: seq<Download>, i: nat, admitted: seq<nat>)
    requires i < |ds| && WithinLimits(ds) && InFlight(ds, admitted) && ds[i].retried < RETRIES
    ensures var d := ds[i].(retried := ds[i].retried + 1);
      WithinLimits(ds[i := d]) && InFlight(ds[i := d], admitted)
  {
    var d := ds[i].(retried := ds[i].retried + 1);
    CountAround(ds, i, d, HUGE_SIZE);
    CountAround(ds, i, d, MEGA_HUGE_SIZE);
    assert forall k :: 0 <= k < |ds| ==> ds[i := d][k].id == ds[k].id;
  }

  lemma {:induction false} ReportedSafe(s: State, r: Report)
    requires Safe(s)
    ensures Safe(Reported(s, r).state)
  {
    var i := Find(s.current, r.id);
    if i < |s.current| {
      if r.Done? { RemovedSafe(s.current, i, s.admitted); }
      else if r.Broken? && s.current[i].retried < RETRIES { RestartedSafe(s.current, i, s.admitted); }
    }
  }

  lemma {:induction false} AllReportedSafe(s: State, reports: seq<Report>)
    requires Safe(s)
    ensures Safe(AllReported(s, reports).state)
    decreases |reports|
  {
    if reports != [] {
      ReportedSafe(s, reports[0]);
      if Reported(s, reports[0]).ok { AllReportedSafe(Reported(s, reports[0]).state, reports[1..]); }
    }
  }

  lemma {:induction false} ProcessedSafe(s: State, reports: seq<Report>)
    requires Safe(s)
    ensures Safe(Processed(s, reports))
  {
    AllReportedSafe(s, reports);
    if s.isDownloading {
      var o := if s.current != [] then AllReported(s, reports) else Outcome(s, true);
      if o.ok && o.state.queue != [] { DequeuedSafe(o.state); }
    }
  }

  lemma {:induction false} SafelyAnswered(s: State, r: Report, t: State, ok: bool)
    requires Safe(s) && Outcome(t, ok) == Reported(s, r)
    ensures Safe(t) && Answered(s, r, Outcome(t, ok))
  {
    ReportedSafe(s, r);
    ReportedAnswers(s, r);
  }

  // ----- runs -----

  datatype Event = Enqueue(id: nat, size: int) | Process(reports: seq<Report>)

  function After(s: State, e: Event): State {
    match e
    case Enqueue(id, size) => Queued(s, id, size)
    case Process(reports) => Processed(s, reports)
  }

  ghost predicate Run(states: seq<State>, events: seq<Event>) {
    && |states| == |events| + 1 && states[0] == INITIAL
    && forall i :: 0 <= i < |events| ==>
      && states[i + 1] == After(states[i], events[i])
      && (events[i].Enqueue? ==> events[i].id !in states[i].ever)
  }

  /** In every reachable state: at most six downloads are in flight, at most two of them huge and
      at most one mega-huge, none restarted more than ten times; what was queued is completed,
      in flight or waiting; and downloads are admitted in the order they were queued. */
  lemma {:induction false} RunIsSafe(states: seq<State>, events: seq<Event>, i: nat)
    requires Run(states, events) && i < |states|
    ensures Safe(states[i])
  {
    if i > 0 {
      RunIsSafe(states, events, i - 1);
      var s, e := states[i - 1], events[i - 1];
      match e {
        case Enqueue(id, size) => QueuedSafe(s, id, size);
        case Process(reports) => ProcessedSafe(s, reports);
      }
    }
  }

  lemma {:induction false} ReportsKeepQueue(s: State, reports: seq<Report>)
    ensures AllReported(s, reports).state.queue == s.queue && AllReported(s, reports).state.isDownloading == s.isDownloading
    ensures |AllReported(s, reports).state.current| <= |s.current|
    decreases |reports|
  {
    if reports != [] && Reported(s, reports[0]).ok { ReportsKeepQueue(Reported(s, reports[0]).state, reports[1..]); }
  }

  /** The queue does not stall: with nothing left in flight, a call admits the head, whatever
      its size. */
  lemma {:induction false} IdleQueueAdmits(s: State, reports: seq<Report>)
    requires s.isDownloading && s.queue != []
    requires s.current == [] || (AllReported(s, reports).ok && AllReported(s, reports).state.current == [])
    ensures Processed(s, reports).current == [s.queue[0]] && Processed(s, reports).queue == s.queue[1..]
  {
    ReportsKeepQueue(s, reports);
  }

  // ----- mega-huge files -----

  predicate IsMega(d: Download) { d.size > MEGA_HUGE_SIZE }

  /** Only the first download in flight may be mega-huge. */
  ghost predicate MegaFirst(ds: seq<Download>) {
    forall i :: 0 < i < |ds| ==> !IsMega(ds[i])
  }

  lemma {:induction false} ReportsKeepMegaFirst(s: State, reports: seq<Report>)
    requires MegaFirst(s.current)
    ensures MegaFirst(AllReported(s, reports).state.current)
    decreases |reports|
  {
    if reports != [] {
      var i := Find(s.current, reports[0].id);
      var o := Reported(s, reports[0]);
      if i < |s.current| {
        var without := s.current[..i] + s.current[i + 1..];
        assert forall k :: 0 <= k < |without| ==> without[k] == s.current[if k < i then k else k + 1];
        assert MegaFirst(o.state.current);
      }
      if o.ok { ReportsKeepMegaFirst(o.state, reports[1..]); }
    }
  }

  /** In every reachable state a mega-huge download in flight is the first of those in flight. */
  lemma {:induction false} RunIsMegaFirst(states: seq<State>, events: seq<Event>, i: nat)
    requires Run(states, events) && i < |states|
    ensures MegaFirst(states[i].current)
  {
    if i > 0 {
      RunIsMegaFirst(states, events, i - 1);
      assert states[i] == After(states[i - 1], events[i - 1]);
      if events[i - 1].Process? { ReportsKeepMegaFirst(states[i - 1], events[i - 1].reports); }
    }
  }

  /** A mega-huge file that is alone stays so exactly if the head of the queue is another one. */
  lemma LoneMegaHuge(s: State)
    requires s.queue != [] && |s.current| == 1 && IsMega(s.current[0])
    ensures Dequeued(s).current == s.current <==> IsMega(s.queue[0])
    ensures !IsMega(s.queue[0]) ==> Dequeued(s).current == [s.current[0], s.queue[0]]
  {
  }

  ghost predicate Carries(s: State, id: nat) {
    exists k :: 0 <= k < |s.current| && s.current[k].id == id
  }

  /** Reports on a single download in flight leave it there or take it away. */
  lemma {:induction false} OneReported(s: State, reports: seq<Report>)
    requires |s.current| == 1
    ensures var t := AllReported(s, reports).state;
      t.current == [] || (|t.current| == 1 && t.current[0].id == s.current[0].id && t.current[0].size == s.current[0].size)
    decreases |reports|
  {
    if reports != [] {
      var o := Reported(s, reports[0]);
      if o.ok && o.state.current == [] { NoneReported(o.state, reports[1..]); }
      else if o.ok { OneReported(o.state, reports[1..]); }
    }
  }

  lemma {:induction false} NoneReported(s: State, reports: seq<Report>)
    requires s.current == []
    ensures AllReported(s, reports) == Outcome(s, true)
    decreases |reports|
  {
    if reports != [] { NoneReported(s, reports[1..]); }
  }

  /** This event does not let another download join: it admits nothing, or a mega-huge head waits. */
  ghost predicate NoCompany(s: State, e: Event) {
    e.Process? && s.isDownloading && AllReported(s, e.reports).ok && s.queue != [] ==> IsMega(s.queue[0])
  }

  lemma {:induction false} AloneStep(s: State, e: Event, id: nat)
    requires Safe(s) && |s.current| == 1 && s.current[0].id == id && IsMega(s.current[0])
    requires Carries(After(s, e), id)
    ensures |After(s, e).current| == 1 <==> NoCompany(s, e)
    ensures |After(s, e).current| == 1 ==> After(s, e).current[0].id == id && IsMega(After(s, e).current[0])
  {
    if e.Process? && s.isDownloading {
      var o := AllReported(s, e.reports);
      OneReported(s, e.reports);
      ReportsKeepQueue(s, e.reports);
      if s.queue != [] {
        FifoStep(s.ever, s.admitted, s.queue);
        assert s.queue[0].id != id;
        if o.state.current != [] { LoneMegaHuge(o.state); }
      }
    }
  }

  /** As long as a mega-huge file is in flight, it is alone exactly if every call that could admit
      a head finds a mega-huge one there, or none. */
  lemma {:induction false} StaysAloneExactly(states: seq<State>, events: seq<Event>, i: nat, j: nat, id: nat)
    requires Run(states, events) && i <= j < |states|
    requires |states[i].current| == 1 && states[i].current[0].id == id && IsMega(states[i].current[0])
    requires forall m :: i <= m <= j ==> Carries(states[m], id)
    ensures (forall m :: i <= m <= j ==> |states[m].current| == 1)
      <==> (forall m :: i <= m < j ==> NoCompany(states[m], events[m]))
    decreases j - i
  {
    if i < j {
      RunIsSafe(states, events, i);
      assert states[i + 1] == After(states[i], events[i]);
      AloneStep(states[i], events[i], id);
      if NoCompany(states[i], events[i]) { StaysAloneExactly(states, events, i + 1, j, id); }
    }
  }

  /** So a mega-huge file need not stay alone: from the start, the next file joins it unless it is
      mega-huge too. */
  lemma MegaHugeGetsCompany(mega: nat, other: nat, big: int, size: int) returns (states: seq<State>, events: seq<Event>)
    requires mega != other && big > MEGA_HUGE_SIZE
    ensures Run(states, events)
    ensures events == [Enqueue(mega, big), Enqueue(other, size), Process([]), Process([])]
    ensures Ids(states[4].current) == if size > MEGA_HUGE_SIZE then [mega] else [mega, other]
  {
    var a, b := Download(mega, big, 0), Download(other, size, 0);
    var s1 := Queued(INITIAL, mega, big);
    var s2 := Queued(s1, other, size);
    assert s2.queue == [a, b] && s2.current == [];
    var s3 := Processed(s2, []);
    assert s3.queue == [b] && s3.current == [a] && s3.isDownloading;
    LoneMegaHuge(s3);
    var s4 := Processed(s3, []);
    assert s4.current == if size > MEGA_HUGE_SIZE then [a] else [a, b];
    assert [a, b][1..] == [b] && [b][1..] == [];
    states := [INITIAL, s1, s2, s3, s4];
    events := [Enqueue(mega, big), Enqueue(other, size), Process([]), Process([])];
  }

  // ----- the queue in place -----

  /** The ten parts that stand in for the one patch file the launcher mirrors. */
  function MirrorSize(i: nat): int {
    if i == 9 then 87584200 else 104857600
  }

  function Mirrored(s: State, first: nat, i: nat): State
    requires i <= 10
  {
    if i == 0 then s else Queued(Mirrored(s, first, i - 1), first + i - 1, MirrorSize(i - 1))
  }

  class Downloader {
    var queue: seq<Download>
    var current: seq<Download>
    var numDownloads: nat
    var completed: nat
    var isDownloading: bool
    var error: bool
    ghost var ever: seq<nat>
    ghost var admitted: seq<nat>

    ghost function St(): State
      reads this
    {
      State(queue, current, numDownloads, completed, isDownloading, error, ever, admitted)
    }

    constructor ()
      ensures St() == INITIAL && Safe(St())
    {
      queue, current := [], [];
      numDownloads, completed := 0, 0;
      isDownloading, error := false, false;
      ever, admitted := [], [];
    }

    method QueueDownload(id: nat, size: int)
      requires Safe(St()) && id !in ever
      modifies this
      ensures St() == Queued(old(St()), id, size) && Safe(St())
    {
      QueuedSafe(St(), id, size);
      queue := queue + [Download(id, size, 0)];
      numDownloads := numDownloads + 1;
      isDownloading := true;
      ever := ever + [id];
    }

    /** The patch file that is fetched in ten parts, given ten new ids. */
    method QueueMirror(first: nat)
      requires Safe(St()) && forall i :: first <= i < first + 10 ==> i !in ever
      modifies this
      ensures St() == Mirrored(old(St()), first, 10) && Safe(St())
      ensures |queue| == old(|queue|) + 10 && queue[..old(|queue|)] == old(queue)
      ensures forall k :: old(|queue|) <= k < old(|queue|) + 10 ==>
        queue[k] == Download(first + k - old(|queue|), if k < old(|queue|) + 9 then 104857600 else 87584200, 0)
    {
      ghost var start := St();
      for i := 0 to 10
        invariant St() == Mirrored(start, first, i) && Safe(St())
        invariant forall k :: first + i <= k < first + 10 ==> k !in ever
        invariant |queue| == old(|queue|) + i && queue[..old(|queue|)] == old(queue)
        invariant forall k :: old(|queue|) <= k < old(|queue|) + i ==>
          queue[k] == Download(first + k - old(|queue|), if k < old(|queue|) + 9 then 104857600 else 87584200, 0)
      {
        QueueDownload(first + i, MirrorSize(i));
      }
    }

    method DequeueDownload()
      requires Safe(St()) && queue != []
      modifies this
      ensures St() == Dequeued(old(St())) && Safe(St())
      ensures old(|current|) < 6 && (old(queue)[0].size <= 10485760 || old(|current|) < 2)
          && (old(queue)[0].size <= 41943040 || old(|current|) == 0)
        <==> current == old(current) + [old(queue)[0]] && queue == old(queue)[1..]
    {
      DequeuedSafe(St());
      var download := queue[0];
      if |current| >= MAX_CONCURRENT { return; }
      if |current| >= MAX_CONCURRENT_HUGE && download.size > HUGE_SIZE { return; }
      if |current| >= 1 && download.size > MEGA_HUGE_SIZE { return; }
      current := current + [download];
      queue := queue[1..];
      admitted := admitted + [download.id];
    }

    /** `std::find_if` on the downloads in flight. */
    method Locate(id: nat) returns (i: nat)
      ensures i == Find(current, id)
    {
      i := 0;
      while i < |current| && current[i].id != id
        invariant i <= Find(current, id)
      {
        i := i + 1;
      }
    }

    method HandleReport(r: Report) returns (ok: bool)
      requires Safe(St())
      modifies this
      ensures Outcome(St(), ok) == Reported(old(St()), r) && Safe(St())
      ensures Answered(old(St()), r, Outcome(St(), ok))
    {
      ghost var s := St();
      var i := Locate(r.id);
      ok := true;
      if i < |current| {
        match r {
          case Done(_, moved) =>
            if moved {
              completed := completed + 1;
              current := current[..i] + current[i + 1..];
            }
            ok := moved;
          case Refused(_) => ok := false;
          case Broken(_) =>
            ok := current[i].retried < RETRIES;
            if ok { current := current[i := current[i].(retried := current[i].retried + 1)]; }
        }
      }
      assert Outcome(St(), ok) == Reported(s, r);
      SafelyAnswered(s, r, St(), ok);
    }

    method ProcessDownload(reports: seq<Report>) returns (ok: bool)
      requires Safe(St())
      modifies this
      ensures Outcome(St(), ok) == AllReported(old(St()), reports) && Safe(St())
    {
      ghost var start := St();
      for i := 0 to |reports|
        invariant Safe(St()) && AllReported(St(), reports[i..]) == AllReported(start, reports)
      {
        assert reports[i..][1..] == reports[i + 1..];
        ok := HandleReport(reports[i]);
        if !ok { return; }
      }
      return true;
    }

    /** `DL_Process`; true means there is nothing more to do. */
    method Process(reports: seq<Report>) returns (finished: bool)
      requires Safe(St())
      modifies this
      ensures St() == Processed(old(St()), reports) && Safe(St())
      ensures finished <==> !isDownloading || (queue == [] && current == [])
    {
      ReportsKeepQueue(St(), reports);
      if !isDownloading { return true; }
      if current != [] {
        var ok := ProcessDownload(reports);
        if !ok {
          isDownloading := false;
          error := true;
          return true;
        }
      }
      if queue != [] { DequeueDownload(); }
      return queue == [] && current == [];
    }
  }
}
