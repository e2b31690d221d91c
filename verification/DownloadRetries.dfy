/** Retries of the download queue, over lists of reports and over whole runs: what makes processing
    give up, what is left when it does not, and that the restarts are the broken transfers. */
module DownloadRetries {
  import opened Options
  import opened DownloadQueue

  /** How many of the reports say that the transfer of `id` broke. */
  function BrokenIn(reports: seq<Report>, id: nat): nat {
    if reports == [] then 0 else (if reports[0] == Broken(id) then 1 else 0) + BrokenIn(reports[1..], id)
  }

  /** The report at `k` is on the download at position `i`, still in flight by then, and says that it
      was refused or could not be moved into place, or broke after ten restarts. */
  ghost predicate FatalAt(s: State, reports: seq<Report>, k: nat, i: nat)
    requires k < |reports| && i < |s.current|
  {
    var id := s.current[i].id;
    && reports[k].id == id && Done(id, true) !in reports[..k]
    && match reports[k]
       case Done(_, moved) => !moved
       case Refused(_) => true
       case Broken(_) => s.current[i].retried + BrokenIn(reports[..k], id) >= 10
  }

  ghost predicate Fatal(s: State, reports: seq<Report>, k: nat)
    requires k < |reports|
  {
    exists i :: 0 <= i < |s.current| && FatalAt(s, reports, k, i)
  }

  ghost predicate SomeFatal(s: State, reports: seq<Report>) {
    exists k :: 0 <= k < |reports| && Fatal(s, reports, k)
  }

  ghost predicate Different(ds: seq<Download>) {
    forall i, j :: 0 <= i < j < |ds| ==> ds[i].id != ds[j].id
  }

  /** What is left of a download in flight: nothing once it is done, and otherwise itself with its
      restarts. */
  ghost predicate Left(d: Download, after: seq<Download>, reports: seq<Report>) {
    if Done(d.id, true) in reports then forall j :: 0 <= j < |after| ==> after[j].id != d.id
    else Download(d.id, d.size, d.retried + BrokenIn(reports, d.id)) in after
  }

  /** All of them, and nothing else, in the same place as regards completion. */
  ghost predicate AllLeft(s: State, t: State, reports: seq<Report>) {
    && (forall i :: 0 <= i < |s.current| ==> Left(s.current[i], t.current, reports))
    && Different(t.current) && |t.current| <= |s.current|
    && (forall j :: 0 <= j < |t.current| ==> Carries(s, t.current[j].id))
    && t == s.(current := t.current, completed := s.completed + |s.current| - |t.current|)
  }

  // ----- one report in front -----

  ghost predicate NotInFlight(s: State, id: nat) {
    forall i :: 0 <= i < |s.current| ==> s.current[i].id != id
  }

  ghost predicate Restarted(s: State, t: State, i: nat) {
    i < |s.current|
    && var d := s.current[i];
      t == s.(current := s.current[..i] + [Download(d.id, d.size, d.retried + 1)] + s.current[i + 1..])
  }

  ghost predicate Removed(s: State, t: State, i: nat) {
    i < |s.current| && t == s.(current := s.current[..i] + s.current[i + 1..], completed := s.completed + 1)
  }

  /** The position of the download a report is on, or the length, and what happens to it. */
  lemma {:induction false} Handled(s: State, r: Report, o: Outcome) returns (i: nat)
    requires Answered(s, r, o)
    ensures i <= |s.current|
    ensures i == |s.current| ==> NotInFlight(s, r.id) && o == Outcome(s, true)
    ensures i < |s.current| ==> s.current[i].id == r.id && AnsweredAt(s, i, r, o)
    ensures i < |s.current| && o.ok && r.Broken? ==> Restarted(s, o.state, i)
    ensures i < |s.current| && o.ok && !r.Broken? ==> r == Done(r.id, true) && Removed(s, o.state, i)
  {
    if j :| 0 <= j < |s.current| && s.current[j].id == r.id {
      i := j;
    } else {
      i := |s.current|;
    }
  }

  lemma {:induction false} BrokenCons(r: Report, reports: seq<Report>, id: nat)
    ensures BrokenIn([r] + reports, id) == (if r == Broken(id) then 1 else 0) + BrokenIn(reports, id)
  {
    assert ([r] + reports)[1..] == reports;
  }

  /** With the first report passed over, for the downloads it is not on. */
  lemma {:induction false} FatalUnrelated(s: State, t: State, r: Report, reports: seq<Report>, k: nat, i: nat, j: nat)
    requires k < |reports| && i < |s.current| && j < |t.current|
    requires s.current[i] == t.current[j] && s.current[i].id != r.id
    ensures FatalAt(s, [r] + reports, k + 1, i) <==> FatalAt(t, reports, k, j)
  {
    assert ([r] + reports)[..k + 1] == [r] + reports[..k];
    BrokenCons(r, reports[..k], s.current[i].id);
  }

  lemma {:induction false} FatalRestarted(s: State, t: State, id: nat, reports: seq<Report>, k: nat, i: nat)
    requires k < |reports| && i < |s.current| && i < |t.current| && s.current[i].id == id
    requires t.current[i] == Download(id, s.current[i].size, s.current[i].retried + 1)
    ensures FatalAt(s, [Broken(id)] + reports, k + 1, i) <==> FatalAt(t, reports, k, i)
  {
    assert ([Broken(id)] + reports)[..k + 1] == [Broken(id)] + reports[..k];
    BrokenCons(Broken(id), reports[..k], id);
  }

  /** The first report is fatal exactly if it makes processing give up. */
  lemma {:induction false} FatalFirst(s: State, all: seq<Report>, o: Outcome)
    requires Different(s.current) && all != [] && Answered(s, all[0], o)
    ensures Fatal(s, all, 0) <==> !o.ok
  {
    var i := Handled(s, all[0], o);
    assert all[..0] == [];
    if i < |s.current| {
      assert FatalAt(s, all, 0, i) <==> !o.ok;
      assert forall j :: 0 <= j < |s.current| && j != i ==> s.current[j].id != all[0].id;
    }
  }

  /** Where download `j` of `t` was in `s`, if the one at `i` was taken out. */
  function Shifted(i: nat, j: nat): nat {
    if j < i then j else j + 1
  }

  lemma {:induction false} SkipShifted(ds: seq<Download>, i: nat, rest: seq<Download>)
    requires i < |ds| && Different(ds) && rest == ds[..i] + ds[i + 1..]
    ensures Different(rest) && |rest| == |ds| - 1
    ensures forall j :: 0 <= j < |rest| ==> rest[j] == ds[Shifted(i, j)]
    ensures forall j :: 0 <= j < |rest| ==> rest[j].id != ds[i].id
    ensures forall k :: 0 <= k < |ds| && k != i ==> ds[k] in rest
  {
    forall j | 0 <= j < |rest| ensures rest[j] == ds[Shifted(i, j)] {
    }
    forall k | 0 <= k < |ds| && k != i ensures ds[k] in rest {
      assert rest[if k < i then k else k - 1] == ds[k];
    }
  }

  /** A fatal report further on is as fatal after the first one was dealt with. */
  lemma {:induction false} FatalLater(s: State, all: seq<Report>, n: nat, t: State, reports: seq<Report>, k: nat)
    requires Different(s.current) && n == k + 1 < |all| && all == [all[0]] + reports
    requires Answered(s, all[0], Outcome(t, true))
    ensures Fatal(s, all, n) <==> Fatal(t, reports, k)
  {
    var i := Handled(s, all[0], Outcome(t, true));
    if i == |s.current| { FatalLaterUnknown(s, all, n, reports, k); }
    else if all[0].Broken? { FatalLaterBroken(s, t, all, n, reports, k, i); }
    else { FatalLaterDone(s, t, all, n, reports, k, i); }
  }

  lemma {:induction false} FatalLaterUnknown(s: State, all: seq<Report>, n: nat, reports: seq<Report>, k: nat)
    requires n == k + 1 < |all| && all == [all[0]] + reports && NotInFlight(s, all[0].id)
    ensures Fatal(s, all, n) <==> Fatal(s, reports, k)
  {
    forall i | 0 <= i < |s.current| ensures FatalAt(s, all, n, i) <==> FatalAt(s, reports, k, i) {
      FatalUnrelated(s, s, all[0], reports, k, i, i);
    }
  }

  lemma {:induction false} FatalLaterBroken(s: State, t: State, all: seq<Report>, n: nat, reports: seq<Report>, k: nat, i: nat)
    requires Different(s.current) && n == k + 1 < |all| && all == [all[0]] + reports
    requires i < |s.current| && all[0] == Broken(s.current[i].id) && Restarted(s, t, i)
    ensures Fatal(s, all, n) <==> Fatal(t, reports, k)
  {
    forall j | 0 <= j < |s.current| ensures FatalAt(s, all, n, j) <==> FatalAt(t, reports, k, j) {
      if j == i { FatalRestarted(s, t, s.current[i].id, reports, k, i); }
      else { FatalUnrelated(s, t, all[0], reports, k, j, j); }
    }
  }

  lemma {:induction false} FatalLaterDone(s: State, t: State, all: seq<Report>, n: nat, reports: seq<Report>, k: nat, i: nat)
    requires Different(s.current) && n == k + 1 < |all| && all == [all[0]] + reports
    requires i < |s.current| && all[0] == Done(s.current[i].id, true) && Removed(s, t, i)
    ensures Fatal(s, all, n) <==> Fatal(t, reports, k)
  {
    SkipShifted(s.current, i, t.current);
    forall j | 0 <= j < |t.current| ensures FatalAt(s, all, n, Shifted(i, j)) <==> FatalAt(t, reports, k, j) {
      FatalUnrelated(s, t, all[0], reports, k, Shifted(i, j), j);
    }
    forall m | 0 <= m < |s.current| && FatalAt(s, all, n, m) ensures Fatal(t, reports, k) {
      assert all[..n][0] == all[0];
      assert m != i;
      var j := if m < i then m else m - 1;
      assert Shifted(i, j) == m;
    }
  }

  lemma {:induction false} FatalCons(s: State, all: seq<Report>, t: State, rest: seq<Report>)
    requires Different(s.current) && all != [] && all == [all[0]] + rest && Answered(s, all[0], Outcome(t, true))
    ensures SomeFatal(s, all) <==> SomeFatal(t, rest)
  {
    FatalFirst(s, all, Outcome(t, true));
    forall k: nat | k < |rest| && Fatal(t, rest, k) ensures SomeFatal(s, all) {
      FatalLater(s, all, k + 1, t, rest, k);
    }
    forall n | 0 <= n < |all| && Fatal(s, all, n) ensures SomeFatal(t, rest) {
      FatalLater(s, all, n, t, rest, n - 1);
    }
  }

  /** Processing gives up exactly if one of the reports is fatal. */
  lemma {:induction false} GivesUpExactly(s: State, reports: seq<Report>)
    requires Different(s.current)
    ensures !AllReported(s, reports).ok <==> SomeFatal(s, reports)
    decreases |reports|
  {
    if reports != [] {
      var r, rest, o := reports[0], reports[1..], Reported(s, reports[0]);
      ReportedAnswers(s, r);
      if o.ok {
        assert reports == [r] + rest;
        StaysDifferent(s, r, o);
        GivesUpExactly(o.state, rest);
        FatalCons(s, reports, o.state, rest);
      } else {
        FatalFirst(s, reports, o);
      }
    }
  }

  lemma {:induction false} StaysDifferent(s: State, r: Report, o: Outcome)
    requires Different(s.current) && Answered(s, r, o) && o.ok
    ensures Different(o.state.current)
  {
    var i := Handled(s, r, o);
    if i < |s.current| && r.Broken? {
      RestartedIds(s, o.state, i);
      SameIdsDifferent(s.current, o.state.current);
    } else if i < |s.current| {
      SkipShifted(s.current, i, o.state.current);
    }
  }

  lemma {:induction false} RestartedIds(s: State, t: State, i: nat)
    requires Restarted(s, t, i)
    ensures |t.current| == |s.current| && forall j :: 0 <= j < |s.current| ==> s.current[j].id == t.current[j].id
  {
  }

  lemma {:induction false} SameIdsDifferent(a: seq<Download>, b: seq<Download>)
    requires Different(a) && |a| == |b| && forall i :: 0 <= i < |a| ==> a[i].id == b[i].id
    ensures Different(b)
  {
  }

  // ----- what is left -----

  lemma {:induction false} LeftUnrelated(d: Download, after: seq<Download>, r: Report, reports: seq<Report>)
    requires d.id != r.id && Left(d, after, reports)
    ensures Left(d, after, [r] + reports)
  {
    BrokenCons(r, reports, d.id);
  }

  lemma {:induction false} LeftRestarted(d: Download, after: seq<Download>, reports: seq<Report>)
    requires Left(Download(d.id, d.size, d.retried + 1), after, reports)
    ensures Left(d, after, [Broken(d.id)] + reports)
  {
    BrokenCons(Broken(d.id), reports, d.id);
  }

  lemma {:induction false} AllLeftBroken(s: State, t: State, u: State, reports: seq<Report>, i: nat)
    requires i < |s.current| && AllLeft(t, u, reports) && Different(s.current) && Restarted(s, t, i)
    ensures AllLeft(s, u, [Broken(s.current[i].id)] + reports)
  {
    var id := s.current[i].id;
    forall j | 0 <= j < |s.current| ensures Left(s.current[j], u.current, [Broken(id)] + reports) {
      assert Left(t.current[j], u.current, reports);
      if j == i { LeftRestarted(s.current[i], u.current, reports); }
      else { LeftUnrelated(s.current[j], u.current, Broken(id), reports); }
    }
    forall j | 0 <= j < |u.current| ensures Carries(s, u.current[j].id) {
      var k :| 0 <= k < |t.current| && t.current[k].id == u.current[j].id;
      assert s.current[k].id == t.current[k].id;
    }
  }

  lemma {:induction false} AllLeftDone(s: State, t: State, u: State, reports: seq<Report>, i: nat)
    requires i < |s.current| && AllLeft(t, u, reports) && Different(s.current) && Removed(s, t, i)
    ensures AllLeft(s, u, [Done(s.current[i].id, true)] + reports)
  {
    var id := s.current[i].id;
    SkipShifted(s.current, i, t.current);
    forall j | 0 <= j < |u.current| ensures Carries(s, u.current[j].id) && u.current[j].id != id {
      var k :| 0 <= k < |t.current| && t.current[k].id == u.current[j].id;
      assert s.current[Shifted(i, k)] == t.current[k];
    }
    forall j | 0 <= j < |s.current| ensures Left(s.current[j], u.current, [Done(id, true)] + reports) {
      if j == i {
        assert ([Done(id, true)] + reports)[0] == Done(id, true);
      } else {
        var k :| 0 <= k < |t.current| && t.current[k] == s.current[j];
        LeftUnrelated(s.current[j], u.current, Done(id, true), reports);
      }
    }
  }

  lemma {:induction false} AllLeftUnknown(s: State, u: State, r: Report, reports: seq<Report>)
    requires AllLeft(s, u, reports) && NotInFlight(s, r.id)
    ensures AllLeft(s, u, [r] + reports)
  {
    forall i | 0 <= i < |s.current| ensures Left(s.current[i], u.current, [r] + reports) {
      LeftUnrelated(s.current[i], u.current, r, reports);
    }
  }

  /** If it does not give up, the downloads that are done are gone and counted, and each other one
      is still there with one more restart for every time it broke. */
  lemma {:induction false} LeftAfterReports(s: State, reports: seq<Report>)
    requires Different(s.current) && AllReported(s, reports).ok
    ensures AllLeft(s, AllReported(s, reports).state, reports)
    decreases |reports|
  {
    if reports == [] {
      forall i | 0 <= i < |s.current| ensures Left(s.current[i], s.current, reports) {
        assert s.current[i] in s.current;
      }
    } else {
      var r, rest, o := reports[0], reports[1..], Reported(s, reports[0]);
      ReportedAnswers(s, r);
      StaysDifferent(s, r, o);
      LeftAfterReports(o.state, rest);
      LeftCons(s, r, o, AllReported(o.state, rest).state, rest);
      assert reports == [r] + rest;
    }
  }

  lemma {:induction false} LeftCons(s: State, r: Report, o: Outcome, u: State, rest: seq<Report>)
    requires Different(s.current) && Answered(s, r, o) && o.ok && AllLeft(o.state, u, rest)
    ensures AllLeft(s, u, [r] + rest)
  {
    var i := Handled(s, r, o);
    if i == |s.current| { AllLeftUnknown(s, u, r, rest); }
    else if r.Broken? { AllLeftBroken(s, o.state, u, rest, i); }
    else { AllLeftDone(s, o.state, u, rest, i); }
  }

  /** From no restarts, a transfer that breaks `n` times and is then done completes if and only if
      `n` is at most ten: the eleventh break ends it all. */
  lemma {:induction false} TenRetries(s: State, i: nat, n: nat)
    requires Different(s.current) && i < |s.current| && s.current[i].retried == 0
    ensures var id := s.current[i].id; var o := AllReported(s, Breaks(id, n) + [Done(id, true)]);
      && (o.ok <==> n <= 10)
      && (o.ok ==> NotInFlight(o.state, id) && o.state.queue == s.queue && o.state.isDownloading == s.isDownloading)
  {
    var id := s.current[i].id;
    var reports := Breaks(id, n) + [Done(id, true)];
    GivesUpExactly(s, reports);
    assert reports[n] == Done(id, true);
    forall k | 0 <= k < |reports| ensures Fatal(s, reports, k) <==> 10 <= k < n {
      BreaksPrefix(id, n, k);
      assert FatalAt(s, reports, k, i) <==> 10 <= k < n;
    }
    if n > 10 { assert Fatal(s, reports, 10); } else { LeftAfterReports(s, reports); assert Left(s.current[i], AllReported(s, reports).state.current, reports); }
  }

  function Breaks(id: nat, n: nat): (r: seq<Report>)
    ensures |r| == n && forall k :: 0 <= k < n ==> r[k] == Broken(id)
  {
    if n == 0 then [] else [Broken(id)] + Breaks(id, n - 1)
  }

  lemma {:induction false} BreaksCount(id: nat, n: nat)
    ensures BrokenIn(Breaks(id, n), id) == n
  {
    if n > 0 {
      BreaksCount(id, n - 1);
      BrokenCons(Broken(id), Breaks(id, n - 1), id);
    }
  }

  lemma {:induction false} BreaksPrefix(id: nat, n: nat, k: nat)
    requires k <= n
    ensures var before := (Breaks(id, n) + [Done(id, true)])[..k];
      Done(id, true) !in before && BrokenIn(before, id) == k
  {
    var before := (Breaks(id, n) + [Done(id, true)])[..k];
    assert before == Breaks(id, k);
    BreaksCount(id, k);
  }

  // ----- over runs -----

  /** How often the transfer of `id` broke while it was in flight, up to the state at `i`. */
  ghost function BrokenSoFar(states: seq<State>, events: seq<Event>, id: nat, i: nat): nat
    requires |states| == |events| + 1 && i <= |events|
  {
    if i == 0 then 0
    else
      BrokenSoFar(states, events, id, i - 1)
      + if events[i - 1].Process? && Carries(states[i - 1], id) then BrokenIn(events[i - 1].reports, id) else 0
  }

  lemma {:induction false} SafeIsDifferent(s: State)
    requires Safe(s)
    ensures Different(s.current)
  {
  }

  lemma {:induction false} NothingFatal(s: State, reports: seq<Report>)
    requires s.current == []
    ensures !SomeFatal(s, reports)
  {
  }

  /** One call goes on with the queue exactly if no report is fatal. */
  lemma {:induction false} ProcessedExactly(s: State, reports: seq<Report>)
    requires Safe(s) && s.isDownloading
    ensures SomeFatal(s, reports) ==> Processed(s, reports).error && !Processed(s, reports).isDownloading
    ensures !SomeFatal(s, reports) ==> Processed(s, reports).error == s.error && Processed(s, reports).isDownloading
  {
    SafeIsDifferent(s);
    GivesUpExactly(s, reports);
    if !SomeFatal(s, reports) { LeftAfterReports(s, reports); }
    if s.current == [] { NothingFatal(s, reports); }
  }

  ghost predicate MayJoin(s: State, after: seq<Download>, current: seq<Download>) {
    current == after || (s.queue != [] && current == after + [s.queue[0]])
  }

  /** The downloads in flight when the reports are done with; admission adds at most the head. */
  lemma {:induction false} ProcessedLeaves(s: State, reports: seq<Report>)
    requires Safe(s) && s.isDownloading && !SomeFatal(s, reports)
    ensures AllLeft(s, AllReported(s, reports).state, reports)
    ensures MayJoin(s, AllReported(s, reports).state.current, Processed(s, reports).current)
  {
    SafeIsDifferent(s);
    GivesUpExactly(s, reports);
    LeftAfterReports(s, reports);
    if s.current == [] { NoneReported(s, reports); }
  }

  /** Over any run, a call sets the error and stops exactly if it gets a fatal report: a refusal, a
      file that cannot be moved into place, or a break after ten restarts. */
  lemma {:induction false} RunGivesUpExactly(states: seq<State>, events: seq<Event>, i: nat)
    requires Run(states, events) && i < |events|
    ensures states[i + 1].error <==>
      states[i].error || (events[i].Process? && states[i].isDownloading && SomeFatal(states[i], events[i].reports))
    ensures events[i].Process? && states[i].isDownloading ==>
      (states[i + 1].isDownloading <==> !SomeFatal(states[i], events[i].reports))
  {
    RunIsSafe(states, events, i);
    assert states[i + 1] == After(states[i], events[i]);
    if events[i].Process? && states[i].isDownloading { ProcessedExactly(states[i], events[i].reports); }
  }

  /** One more round for a download: gone, or there with its restarts. */
  ghost predicate WentOn(d: Download, t: State, reports: seq<Report>) {
    && (Carries(t, d.id) <==> Done(d.id, true) !in reports)
    && (Carries(t, d.id) ==> Download(d.id, d.size, d.retried + BrokenIn(reports, d.id)) in t.current)
  }

  /** A call that does not give up ends a download exactly if it is reported as done, and otherwise
      leaves it in flight with one more restart for each break. */
  lemma {:induction false} DownloadGoesOn(s: State, reports: seq<Report>, d: Download)
    requires Safe(s) && s.isDownloading && d in s.current && !SomeFatal(s, reports)
    ensures WentOn(d, Processed(s, reports), reports)
  {
    ProcessedLeaves(s, reports);
    if s.queue != [] { HeadIsNew(s); }
    StepGoesOn(s, AllReported(s, reports).state, Processed(s, reports), reports, d);
  }

  lemma {:induction false} StepGoesOn(s: State, o: State, t: State, reports: seq<Report>, d: Download)
    requires AllLeft(s, o, reports) && MayJoin(s, o.current, t.current) && d in s.current
    requires s.queue != [] ==> !Carries(s, s.queue[0].id)
    ensures WentOn(d, t, reports)
  {
    var k :| 0 <= k < |s.current| && s.current[k] == d;
    assert Left(s.current[k], o.current, reports);
    assert Carries(s, d.id);
    GoesOn(s, o.current, t, reports, d);
  }

  lemma {:induction false} GoesOn(s: State, after: seq<Download>, t: State, reports: seq<Report>, d: Download)
    requires Left(d, after, reports) && MayJoin(s, after, t.current)
    requires s.queue != [] ==> s.queue[0].id != d.id
    ensures WentOn(d, t, reports)
  {
    if Done(d.id, true) !in reports {
      var j :| 0 <= j < |after| && after[j] == Download(d.id, d.size, d.retried + BrokenIn(reports, d.id));
      assert t.current[j] == after[j];
    } else {
      assert forall j :: 0 <= j < |t.current| ==> t.current[j].id != d.id;
    }
  }

  lemma {:induction false} HeadIsNew(s: State)
    requires Safe(s) && s.queue != []
    ensures s.queue[0].id !in s.admitted && !Carries(s, s.queue[0].id)
  {
    FifoStep(s.ever, s.admitted, s.queue);
  }

  /** Without an error, the restarts of a download in flight are exactly the breaks it had so far. */
  lemma {:induction false} RestartsAreBreaks(states: seq<State>, events: seq<Event>, i: nat, d: Download)
    requires Run(states, events) && i <= |events| && !states[i].error && d in states[i].current
    ensures d.retried == BrokenSoFar(states, events, d.id, i)
  {
    if i > 0 {
      assert states[i] == After(states[i - 1], events[i - 1]);
      RunIsSafe(states, events, i - 1);
      RunIsSafe(states, events, i);
      RunGivesUpExactly(states, events, i - 1);
      Working(states, events, i - 1);
      var s, e := states[i - 1], events[i - 1];
      if e.Process? && s.isDownloading {
        var origin := Origin(s, e.reports, d);
        if origin.Some? { RestartsAreBreaks(states, events, i - 1, origin.value); }
        else { NeverCarried(states, events, i - 1, d.id, i - 1); }
      } else {
        RestartsAreBreaks(states, events, i - 1, d);
      }
    }
  }

  /** A download in flight after a call was in flight before with fewer restarts, or waited. */
  lemma {:induction false} Origin(s: State, reports: seq<Report>, d: Download) returns (e: Option<Download>)
    requires Safe(s) && s.isDownloading && !SomeFatal(s, reports) && d in Processed(s, reports).current
    requires Safe(Processed(s, reports))
    ensures e.Some? ==> e.value in s.current && e.value.id == d.id && Carries(s, d.id)
    ensures e.Some? ==> d.retried == e.value.retried + BrokenIn(reports, d.id)
    ensures e.None? ==> !Carries(s, d.id) && d.retried == 0 && d.id !in s.admitted
  {
    var t := Processed(s, reports);
    if k :| 0 <= k < |s.current| && s.current[k].id == d.id {
      DownloadGoesOn(s, reports, s.current[k]);
      e := Some(s.current[k]);
      assert Carries(t, d.id);
      OneOfEach(t, d, Download(d.id, e.value.size, e.value.retried + BrokenIn(reports, d.id)));
    } else {
      e := None;
      ProcessedLeaves(s, reports);
      JoinedIsHead(s, AllReported(s, reports).state, t, reports, d);
      HeadIsNew(s);
    }
  }

  /** Until the error, there is nothing to do or the queue is being worked on. */
  lemma {:induction false} Working(states: seq<State>, events: seq<Event>, i: nat)
    requires Run(states, events) && i <= |events| && !states[i].error
    ensures states[i].isDownloading || states[i].current == []
  {
    if i > 0 {
      assert states[i] == After(states[i - 1], events[i - 1]);
      RunIsSafe(states, events, i - 1);
      RunGivesUpExactly(states, events, i - 1);
      Working(states, events, i - 1);
    }
  }

  lemma {:induction false} OneOfEach(t: State, d: Download, e: Download)
    requires Safe(t) && d in t.current && e in t.current && d.id == e.id
    ensures d == e
  {
    var j :| 0 <= j < |t.current| && t.current[j] == d;
    var k :| 0 <= k < |t.current| && t.current[k] == e;
    assert j == k;
  }

  /** What was not in flight before joined from the head of the queue. */
  lemma {:induction false} JoinedIsHead(s: State, o: State, t: State, reports: seq<Report>, d: Download)
    requires AllLeft(s, o, reports) && MayJoin(s, o.current, t.current)
    requires d in t.current && !Carries(s, d.id)
    ensures s.queue != [] && d == s.queue[0]
  {
    var j :| 0 <= j < |t.current| && t.current[j] == d;
    assert forall k :: 0 <= k < |o.current| ==> o.current[k].id != d.id;
  }

  /** What waits in the queue has not been in flight. */
  lemma {:induction false} NeverCarried(states: seq<State>, events: seq<Event>, i: nat, id: nat, m: nat)
    requires Run(states, events) && m <= i <= |events| && id !in states[i].admitted
    ensures BrokenSoFar(states, events, id, m) == 0
  {
    if m > 0 {
      NeverCarried(states, events, i, id, m - 1);
      RunIsSafe(states, events, m - 1);
      AdmittedGrows(states, events, m - 1, i);
    }
  }

  lemma {:induction false} AdmittedGrows(states: seq<State>, events: seq<Event>, m: nat, i: nat)
    requires Run(states, events) && m <= i <= |events|
    ensures forall id :: id in states[m].admitted ==> id in states[i].admitted
    decreases i - m
  {
    if m < i {
      assert states[m + 1] == After(states[m], events[m]);
      if events[m].Process? { AdmittedKept(states[m], events[m].reports); }
      AdmittedGrows(states, events, m + 1, i);
    }
  }

  lemma {:induction false} AdmittedKept(s: State, reports: seq<Report>)
    ensures forall id :: id in s.admitted ==> id in Processed(s, reports).admitted
  {
    ReportsAdmitNothing(s, reports);
  }

  lemma {:induction false} ReportsAdmitNothing(s: State, reports: seq<Report>)
    ensures AllReported(s, reports).state.admitted == s.admitted
    decreases |reports|
  {
    if reports != [] && Reported(s, reports[0]).ok { ReportsAdmitNothing(Reported(s, reports[0]).state, reports[1..]); }
  }
}
