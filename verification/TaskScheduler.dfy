/** `CitizenTaskScheduler` on one thread. A task body is a finite script that may queue tasks,
    run tasks inline, throw, or call `Tick` again while the enclosing `Tick` is still active. */
module TaskScheduling {
  import opened Options
  import opened Sequences

  datatype Action =
    | Spawn(body: seq<Action>)   // start a task on this scheduler
    | Inline(body: seq<Action>)  // run a task that was never queued
    | CallTick                   // re-enter the scheduler, e.g. by triggering an event
    | Throw                      // leave the body by an exception

  datatype Status = Queued | Executing | Done

  datatype Origin = Origin(parent: nat, at: nat)

  /** A task object. `origin` names the task and the action that created it, if one did;
      `pc` counts the actions that ran. */
  datatype Job = Job(origin: Option<Origin>, body: seq<Action>, pc: nat, status: Status)

  /** The body ran to its end or was left by an exception. */
  predicate Finished(j: Job) {
    j.pc >= |j.body| || (j.pc > 0 && j.body[j.pc - 1] == Throw)
  }

  /** The actions that are still to run. */
  function Rest(j: Job): seq<Action> {
    if Finished(j) then [] else j.body[j.pc..]
  }

  predicate Creates(a: Action) {
    a.Spawn? || a.Inline?
  }

  function Size(body: seq<Action>): nat {
    if body == [] then 0 else ActionSize(body[0]) + Size(body[1..])
  }

  function ActionSize(a: Action): nat {
    match a
    case Spawn(body) => 1 + Size(body)
    case Inline(body) => 1 + Size(body)
    case CallTick => 1
    case Throw => 1
  }

  /** All actions not executed yet. Every action uses itself up, so this bounds every run. */
  function Work(jobs: seq<Job>): nat {
    if jobs == [] then 0 else Size(Rest(jobs[0])) + Work(jobs[1..])
  }

  lemma {:induction false} WorkAppend(jobs: seq<Job>, j: Job)
    ensures Work(jobs + [j]) == Work(jobs) + Size(Rest(j))
  {
    if jobs == [] {
      assert (jobs + [j])[1..] == [];
    } else {
      assert (jobs + [j])[1..] == jobs[1..] + [j];
      WorkAppend(jobs[1..], j);
    }
  }

  lemma {:induction false} WorkUpdate(jobs: seq<Job>, i: nat, j: Job)
    requires i < |jobs|
    ensures Work(jobs[i := j]) + Size(Rest(jobs[i])) == Work(jobs) + Size(Rest(j))
  {
    if i == 0 {
      assert jobs[i := j][1..] == jobs[1..];
    } else {
      assert jobs[i := j][1..] == jobs[1..][i - 1 := j];
      WorkUpdate(jobs[1..], i - 1, j);
    }
  }

  ghost predicate SameTask(x: Job, y: Job) {
    x.origin == y.origin && x.body == y.body && x.pc <= y.pc
  }

  lemma {:induction false} RestShrinks(j: Job)
    requires !Finished(j)
    ensures Size(Rest(j)) >= ActionSize(j.body[j.pc]) + Size(Rest(j.(pc := j.pc + 1)))
  {
    assert Rest(j)[1..] == j.body[j.pc + 1..];
    assert j.pc + 1 == |j.body| ==> j.body[j.pc + 1..] == [];
  }

  lemma {:induction false} ActionCosts(a: Action, j: Job)
    ensures ActionSize(a) >= 1
    ensures Creates(a) ==> Size(Rest(j.(body := a.body, pc := 0))) < ActionSize(a)
  {
    if Creates(a) { assert a.body[0..] == a.body; }
  }

  /** Running one action uses up work, although the task it creates brings its own. */
  lemma {:induction false} WorkOfAction(jobs: seq<Job>, t: nat, s: Status)
    requires t < |jobs| && !Finished(jobs[t])
    ensures Work(Apply(jobs, Act(t, s))) < Work(jobs)
  {
    var j := jobs[t];
    var action := j.body[j.pc];
    var moved := j.(pc := j.pc + 1);
    var after := Apply(jobs, Act(t, s));
    RestShrinks(j);
    WorkUpdate(jobs, t, moved);
    ActionCosts(action, Job(Some(Origin(t, j.pc)), [], 0, s));
    if Creates(action) {
      var child := Job(Some(Origin(t, j.pc)), action.body, 0, s);
      assert after == jobs[t := moved] + [child];
      WorkAppend(jobs[t := moved], child);
    } else {
      assert after == jobs[t := moved];
    }
  }

  /** One task may only advance, and a task that is executing elsewhere is not touched. */
  ghost predicate KeptJob(x: Job, y: Job) {
    && SameTask(x, y)
    && (x.status == Executing ==> y == x)
    && (x.status == Done ==> y.status == Done)
    && (y.status == Queued ==> y == x)
    && (y.status == Executing ==> x.status == Executing)
  }

  /** All tasks but `t` kept; tasks created meanwhile are not left executing. */
  ghost predicate Kept(a: seq<Job>, b: seq<Job>, t: int) {
    && |a| <= |b|
    && (0 <= t < |a| ==> SameTask(a[t], b[t]))
    && (forall i :: 0 <= i < |a| && i != t ==> KeptJob(a[i], b[i]))
    && (forall i :: |a| <= i < |b| && i != t ==> b[i].status != Executing)
  }

  lemma KeptTrans(a: seq<Job>, b: seq<Job>, c: seq<Job>, t: int)
    requires Kept(a, b, t) && Kept(b, c, t)
    ensures Kept(a, c, t)
  {
    forall i | 0 <= i < |a| && i != t ensures KeptJob(a[i], c[i]) {
      assert KeptJob(a[i], b[i]) && KeptJob(b[i], c[i]);
    }
    forall i | |a| <= i < |c| && i != t ensures c[i].status != Executing {
      if i < |b| { assert KeptJob(b[i], c[i]); }
    }
  }

  // ----- what became of the program's actions -----

  /** The primitive changes to the tasks of a program. */
  datatype Step =
    | Root(body: seq<Action>)             // a task from outside any task body
    | Act(task: nat, child: Status)       // a task moves past its next action
    | SetStatus(task: nat, status: Status)

  function Apply(jobs: seq<Job>, s: Step): seq<Job> {
    match s
    case Root(body) => jobs + [Job(None, body, 0, Queued)]
    case SetStatus(t, st) => if t < |jobs| then jobs[t := jobs[t].(status := st)] else jobs
    case Act(t, st) =>
      if t >= |jobs| || Finished(jobs[t]) then jobs
      else
        var j := jobs[t];
        var moved := jobs[t := j.(pc := j.pc + 1)];
        if Creates(j.body[j.pc]) then moved + [Job(Some(Origin(t, j.pc)), j.body[j.pc].body, 0, st)] else moved
  }

  function Replay(history: seq<Step>): seq<Job> {
    if history == [] then [] else Apply(Replay(history[..|history| - 1]), history[|history| - 1])
  }

  lemma {:induction false} ReplaySnoc(history: seq<Step>, s: Step)
    ensures Replay(history + [s]) == Apply(Replay(history), s)
  {
    assert (history + [s])[..|history|] == history;
  }

  ghost predicate IsChild(jobs: seq<Job>, j: Job, o: Origin) {
    && o.parent < |jobs| && o.at < jobs[o.parent].pc <= |jobs[o.parent].body|
    && Creates(jobs[o.parent].body[o.at]) && jobs[o.parent].body[o.at].body == j.body
  }

  ghost predicate HasChild(jobs: seq<Job>, p: nat, k: nat) {
    exists j :: 0 <= j < |jobs| && jobs[j].origin == Some(Origin(p, k))
  }

  /** No body went on after an exception. */
  ghost predicate StoppedByThrow(j: Job) {
    j.pc <= |j.body| && forall k :: 0 <= k < j.pc - 1 ==> j.body[k] != Throw
  }

  /** Each creating action that ran has made exactly one task, with the body it names, and
      every task not from outside comes from such an action. */
  ghost predicate Family(jobs: seq<Job>) {
    && (forall p :: 0 <= p < |jobs| ==> StoppedByThrow(jobs[p]))
    && (forall j :: 0 <= j < |jobs| && jobs[j].origin.Some? ==> IsChild(jobs, jobs[j], jobs[j].origin.value))
    && OwnOrigins(jobs)
    && (forall p, k :: 0 <= p < |jobs| && 0 <= k < jobs[p].pc && Creates(jobs[p].body[k]) ==> HasChild(jobs, p, k))
  }

  /** `after` continues `jobs`: same tasks, maybe advanced, and maybe some more. */
  ghost predicate Continues(jobs: seq<Job>, after: seq<Job>) {
    |jobs| <= |after| && forall i :: 0 <= i < |jobs| ==> SameTask(jobs[i], after[i])
  }

  lemma ChildStays(jobs: seq<Job>, after: seq<Job>, p: nat, k: nat)
    requires Continues(jobs, after) && HasChild(jobs, p, k)
    ensures HasChild(after, p, k)
  {
    var j :| 0 <= j < |jobs| && jobs[j].origin == Some(Origin(p, k));
    assert SameTask(jobs[j], after[j]);
  }

  /** A creating action that ran before still has its one child afterwards. */
  lemma {:induction false} ChildrenStay(jobs: seq<Job>, after: seq<Job>)
    requires Family(jobs) && Continues(jobs, after)
    ensures forall p, k :: 0 <= p < |jobs| && 0 <= k < jobs[p].pc && Creates(jobs[p].body[k]) ==> HasChild(after, p, k)
  {
    forall p, k | 0 <= p < |jobs| && 0 <= k < jobs[p].pc && Creates(jobs[p].body[k]) ensures HasChild(after, p, k) {
      ChildStays(jobs, after, p, k);
    }
  }

  lemma OriginsStay(jobs: seq<Job>, after: seq<Job>)
    requires Family(jobs) && Continues(jobs, after)
    requires forall i :: 0 <= i < |after| ==> StoppedByThrow(after[i])
    ensures forall j :: 0 <= j < |jobs| && after[j].origin.Some? ==> IsChild(after, after[j], after[j].origin.value)
  {
    forall j | 0 <= j < |jobs| && after[j].origin.Some? ensures IsChild(after, after[j], after[j].origin.value) {
      assert SameTask(jobs[j], after[j]);
      var o := jobs[j].origin.value;
      assert IsChild(jobs, jobs[j], o);
      assert SameTask(jobs[o.parent], after[o.parent]);
    }
  }

  ghost predicate OwnOrigins(jobs: seq<Job>) {
    forall i, j :: 0 <= i < j < |jobs| && jobs[i].origin.Some? ==> jobs[i].origin != jobs[j].origin
  }

  /** The task an action creates has an origin no other task has. */
  lemma {:induction false} ActKeepsOrigins(jobs: seq<Job>, t: nat, s: Status)
    requires Family(jobs) && t < |jobs| && !Finished(jobs[t])
    ensures OwnOrigins(Apply(jobs, Act(t, s)))
  {
    var after := Apply(jobs, Act(t, s));
    forall i, j | 0 <= i < j < |after| && after[i].origin.Some? ensures after[i].origin != after[j].origin {
      assert IsChild(jobs, jobs[i], jobs[i].origin.value);
    }
  }

  /** The action that just ran has its child. */
  lemma {:induction false} ActMakesChild(jobs: seq<Job>, t: nat, s: Status)
    requires t < |jobs| && !Finished(jobs[t])
    ensures Creates(jobs[t].body[jobs[t].pc]) ==> HasChild(Apply(jobs, Act(t, s)), t, jobs[t].pc)
  {
    var after := Apply(jobs, Act(t, s));
    if Creates(jobs[t].body[jobs[t].pc]) { assert after[|jobs|].origin == Some(Origin(t, jobs[t].pc)); }
  }

  lemma {:induction false} ActKeepsFamily(jobs: seq<Job>, t: nat, s: Status)
    requires Family(jobs) && t < |jobs| && !Finished(jobs[t])
    ensures Family(Apply(jobs, Act(t, s)))
  {
    var after := Apply(jobs, Act(t, s));
    assert Continues(jobs, after);
    OriginsStay(jobs, after);
    ChildrenStay(jobs, after);
    ActKeepsOrigins(jobs, t, s);
    ActMakesChild(jobs, t, s);
  }

  lemma {:induction false} RootKeepsFamily(jobs: seq<Job>, body: seq<Action>)
    requires Family(jobs)
    ensures Family(Apply(jobs, Root(body)))
  {
    var after := Apply(jobs, Root(body));
    assert Continues(jobs, after);
    OriginsStay(jobs, after);
    ChildrenStay(jobs, after);
    assert OwnOrigins(jobs);
  }

  lemma {:induction false} StatusKeepsFamily(jobs: seq<Job>, t: nat, s: Status)
    requires Family(jobs)
    ensures Family(Apply(jobs, SetStatus(t, s)))
  {
    var after := Apply(jobs, SetStatus(t, s));
    assert Continues(jobs, after);
    OriginsStay(jobs, after);
    ChildrenStay(jobs, after);
    assert OwnOrigins(jobs);
  }

  lemma {:induction false} ApplyKeepsFamily(jobs: seq<Job>, s: Step)
    requires Family(jobs)
    ensures Family(Apply(jobs, s))
  {
    match s {
      case Root(body) => RootKeepsFamily(jobs, body);
      case SetStatus(t, st) => StatusKeepsFamily(jobs, t, st);
      case Act(t, st) => if t < |jobs| && !Finished(jobs[t]) { ActKeepsFamily(jobs, t, st); }
    }
  }

  /** Whatever the steps were, no action was skipped and none created two tasks. */
  lemma {:induction false} ReplayIsFamily(history: seq<Step>)
    ensures Family(Replay(history))
  {
    if history != [] {
      ReplayIsFamily(history[..|history| - 1]);
      ApplyKeepsFamily(Replay(history[..|history| - 1]), history[|history| - 1]);
    }
  }

  ghost predicate Traced(history: seq<Step>, jobs: seq<Job>, work: nat) {
    jobs == Replay(history) && work == Work(jobs)
  }

  /** Unless nothing was queued, actions have been used up. */
  ghost predicate Spent(before: nat, after: nat, sameInTick: bool) {
    after <= before && (sameInTick || after < before)
  }

  lemma NoDupAppend(s: seq<nat>, x: nat)
    requires NoDup(s) && x !in s
    ensures NoDup(s + [x])
  {
  }

  /** The scheduler's fields at one moment. */
  datatype View = View(jobs: seq<Job>, inTick: Option<set<nat>>, running: set<nat>, started: seq<nat>)

  ghost predicate JobOk(j: Job) {
    j.pc <= |j.body| && (j.status == Queued ==> j.pc == 0) && (j.status == Done ==> Finished(j))
  }

  ghost predicate Valid(v: View) {
    && (forall i :: i in v.running ==> i < |v.jobs|)
    && (v.inTick.Some? ==> forall i :: i in v.inTick.value ==> i < |v.jobs|)
    && (forall i :: 0 <= i < |v.jobs| && v.jobs[i].status == Queued ==> i in v.running)
    && (forall i :: 0 <= i < |v.jobs| ==> JobOk(v.jobs[i]))
    && NoDup(v.started)
    && (forall i: nat :: i in v.started <==> i < |v.jobs| && v.jobs[i].status != Queued)
  }

  /** What running task code does to the scheduler, apart from task `t` itself: tasks it
      leaves behind are in the in-tick set of the frame that runs it, if there is one. */
  ghost predicate Effect(a: View, b: View, t: int) {
    && Valid(b) && Kept(a.jobs, b.jobs, t)
    && a.inTick.Some? == b.inTick.Some?
    && (forall i :: i in b.running ==> i in a.running || |a.jobs| <= i)
    && (a.inTick.Some? ==>
      && a.inTick.value <= b.inTick.value
      && (forall i :: |a.jobs| <= i < |b.jobs| && b.jobs[i].status == Queued ==> i in b.inTick.value)
      && (forall i :: i in b.inTick.value ==> i in a.inTick.value || |a.jobs| <= i)
      && (forall i :: i in b.running && b.jobs[i].status != Executing ==> i in a.running || i in b.inTick.value))
  }

  /** The same while the body of `t` is still active. */
  ghost predicate BodyEffect(a: View, b: View, t: nat) {
    Effect(a, b, t) && t < |b.jobs| && b.jobs[t].status == Executing
  }

  lemma BodyEffectTrans(a: View, b: View, c: View, t: nat)
    requires Valid(a) && BodyEffect(a, b, t) && BodyEffect(b, c, t)
    ensures BodyEffect(a, c, t)
  {
    KeptTrans(a.jobs, b.jobs, c.jobs, t);
    if a.inTick.Some? {
      forall i | |a.jobs| <= i < |c.jobs| && c.jobs[i].status == Queued ensures i in c.inTick.value {
        if i < |b.jobs| { assert KeptJob(b.jobs[i], c.jobs[i]); }
      }
      forall i | i in c.running && c.jobs[i].status != Executing ensures i in a.running || i in c.inTick.value {
        if i !in c.inTick.value { assert KeptJob(b.jobs[i], c.jobs[i]); }
      }
    }
  }

  lemma EffectTrans(a: View, b: View, c: View)
    requires Valid(a) && Effect(a, b, -1) && Effect(b, c, -1)
    ensures Effect(a, c, -1)
  {
    KeptTrans(a.jobs, b.jobs, c.jobs, -1);
    if a.inTick.Some? {
      forall i | |a.jobs| <= i < |c.jobs| && c.jobs[i].status == Queued ensures i in c.inTick.value {
        if i < |b.jobs| { assert KeptJob(b.jobs[i], c.jobs[i]); }
      }
      forall i | i in c.running && c.jobs[i].status != Executing ensures i in a.running || i in c.inTick.value {
        if i !in c.inTick.value { assert KeptJob(b.jobs[i], c.jobs[i]); }
      }
    }
  }

  // ----- single changes, as effects -----

  /** Task `t` moved past an action that creates nothing. */
  lemma {:induction false} PlainEffect(a: View, b: View, t: nat)
    requires Valid(a) && t < |a.jobs| && a.jobs[t].status == Executing && !Finished(a.jobs[t])
    requires !Creates(a.jobs[t].body[a.jobs[t].pc])
    requires b == a.(jobs := Apply(a.jobs, Act(t, Queued)))
    ensures Valid(b) && BodyEffect(a, b, t)
  {
  }

  function AddTo(s: Option<set<nat>>, id: nat): Option<set<nat>> {
    match s
    case None => None
    case Some(ids) => Some(ids + {id})
  }

  // ----- what the actions of a body leave behind -----

  /** A `Spawn` action of task `t`: one new task, with the body it names, is queued and nothing runs. */
  ghost predicate ChildQueued(a: View, b: View, t: nat)
    requires t < |a.jobs| && a.jobs[t].pc < |a.jobs[t].body| && a.jobs[t].body[a.jobs[t].pc].Spawn?
  {
    var j, id := a.jobs[t], |a.jobs|;
    && |b.jobs| == id + 1 && b.jobs[id] == Job(Some(Origin(t, j.pc)), j.body[j.pc].body, 0, Queued)
    && b.started == a.started && id !in b.started
    && b.running == a.running + {id} && b.inTick == AddTo(a.inTick, id)
  }

  /** An `Inline` action: one new task, with the body it names, has run to its end and was never
      queued. */
  ghost predicate ChildRan(a: View, b: View, t: nat)
    requires t < |a.jobs| && a.jobs[t].pc < |a.jobs[t].body| && a.jobs[t].body[a.jobs[t].pc].Inline?
  {
    var j, id := a.jobs[t], |a.jobs|;
    && id < |b.jobs| && b.jobs[id].origin == Some(Origin(t, j.pc)) && b.jobs[id].body == j.body[j.pc].body
    && b.jobs[id].status == Done && Finished(b.jobs[id]) && id in b.started
    && id !in b.running && (b.inTick.Some? ==> id !in b.inTick.value)
  }

  ghost predicate FinishedChild(v: View, p: nat, k: nat) {
    exists j :: 0 <= j < |v.jobs| && v.jobs[j].origin == Some(Origin(p, k)) && v.jobs[j].status == Done
  }

  /** The child is done, which takes a tick, or is listed where the frame that runs the body finds it. */
  ghost predicate ListedChild(v: View, p: nat, k: nat) {
    exists j :: 0 <= j < |v.jobs| && v.jobs[j].origin == Some(Origin(p, k))
      && (v.jobs[j].status == Done
          || (v.jobs[j].status == Queued && j in v.running && (v.inTick.Some? ==> j in v.inTick.value)))
  }

  /** What the actions of task `t` from `from` on have left: each inline task has run to its end, and
      each task that was started is listed or done. */
  ghost predicate ChildrenCared(v: View, t: nat, from: nat) {
    t < |v.jobs| && v.jobs[t].pc <= |v.jobs[t].body|
    && (forall k :: from <= k < v.jobs[t].pc && v.jobs[t].body[k].Inline? ==> FinishedChild(v, t, k))
    && (forall k :: from <= k < v.jobs[t].pc && v.jobs[t].body[k].Spawn? ==> ListedChild(v, t, k))
  }

  lemma {:induction false} FinishedStays(a: View, b: View, t: nat, k: nat)
    requires BodyEffect(a, b, t) && t < |a.jobs| && a.jobs[t].status == Executing && FinishedChild(a, t, k)
    ensures FinishedChild(b, t, k)
  {
    var j :| 0 <= j < |a.jobs| && a.jobs[j].origin == Some(Origin(t, k)) && a.jobs[j].status == Done;
    assert KeptJob(a.jobs[j], b.jobs[j]);
  }

  lemma {:induction false} ListedStays(a: View, b: View, t: nat, k: nat)
    requires BodyEffect(a, b, t) && t < |a.jobs| && a.jobs[t].status == Executing && ListedChild(a, t, k)
    ensures ListedChild(b, t, k)
  {
    var j :| 0 <= j < |a.jobs| && a.jobs[j].origin == Some(Origin(t, k))
      && (a.jobs[j].status == Done || (a.jobs[j].status == Queued && j in a.running && (a.inTick.Some? ==> j in a.inTick.value)));
    assert KeptJob(a.jobs[j], b.jobs[j]);
  }

  /** The action that ran from `a` to `b`. */
  ghost predicate ActionDone(a: View, b: View, t: nat)
    requires t < |a.jobs| && a.jobs[t].pc < |a.jobs[t].body|
  {
    && BodyEffect(a, b, t) && b.jobs[t].pc == a.jobs[t].pc + 1
    && match a.jobs[t].body[a.jobs[t].pc]
       case Spawn(_) => ChildQueued(a, b, t)
       case Inline(_) => ChildRan(a, b, t)
       case CallTick => Drained(b)
       case Throw => b == a.(jobs := a.jobs[t := a.jobs[t].(pc := a.jobs[t].pc + 1)])
  }

  lemma {:induction false} CaredStep(a: View, b: View, t: nat, from: nat)
    requires Valid(a) && t < |a.jobs| && a.jobs[t].status == Executing && !Finished(a.jobs[t])
    requires ChildrenCared(a, t, from) && ActionDone(a, b, t)
    ensures ChildrenCared(b, t, from)
  {
    var pc := a.jobs[t].pc;
    assert SameTask(a.jobs[t], b.jobs[t]);
    forall k | from <= k < b.jobs[t].pc && b.jobs[t].body[k].Inline? ensures FinishedChild(b, t, k) {
      if k < pc { FinishedStays(a, b, t, k); }
    }
    forall k | from <= k < b.jobs[t].pc && b.jobs[t].body[k].Spawn? ensures ListedChild(b, t, k) {
      if k < pc { ListedStays(a, b, t, k); } else { NewIsListed(a, b, t); }
    }
  }

  lemma {:induction false} NewIsListed(a: View, b: View, t: nat)
    requires t < |a.jobs| && a.jobs[t].pc < |a.jobs[t].body| && a.jobs[t].body[a.jobs[t].pc].Spawn? && ChildQueued(a, b, t)
    ensures ListedChild(b, t, a.jobs[t].pc)
  {
    assert b.jobs[|a.jobs|].origin == Some(Origin(t, a.jobs[t].pc));
  }

  /** Ending the body does not touch its children. */
  lemma {:induction false} CaredAfterwards(a: View, b: View, t: nat, from: nat)
    requires ChildrenCared(a, t, from) && a.jobs[t].status == Executing
    requires b == a.(jobs := a.jobs[t := a.jobs[t].(status := Done)])
    ensures ChildrenCared(b, t, from)
  {
    forall k | from <= k < b.jobs[t].pc && b.jobs[t].body[k].Inline? ensures FinishedChild(b, t, k) {
      var j :| 0 <= j < |a.jobs| && a.jobs[j].origin == Some(Origin(t, k)) && a.jobs[j].status == Done;
      assert b.jobs[j] == a.jobs[j];
    }
    forall k | from <= k < b.jobs[t].pc && b.jobs[t].body[k].Spawn? ensures ListedChild(b, t, k) {
      var j :| 0 <= j < |a.jobs| && a.jobs[j].origin == Some(Origin(t, k))
        && (a.jobs[j].status == Done || (a.jobs[j].status == Queued && j in a.running && (a.inTick.Some? ==> j in a.inTick.value)));
      assert b.jobs[j] == a.jobs[j];
    }
  }

  /** A task from outside is queued. */
  lemma StartValid(a: View, b: View, body: seq<Action>)
    requires Valid(a)
    requires b.jobs == a.jobs + [Job(None, body, 0, Queued)]
    requires b.inTick == AddTo(a.inTick, |a.jobs|) && b.running == a.running + {|a.jobs|} && b.started == a.started
    ensures Valid(b)
  {
  }

  /** Task `t` moved past an action that queues a new task. */
  lemma {:induction false} SpawnEffect(a: View, b: View, t: nat)
    requires Valid(a) && t < |a.jobs| && a.jobs[t].status == Executing && !Finished(a.jobs[t])
    requires a.jobs[t].body[a.jobs[t].pc].Spawn?
    requires b.jobs == Apply(a.jobs, Act(t, Queued))
    requires b.inTick == AddTo(a.inTick, |a.jobs|) && b.running == a.running + {|a.jobs|} && b.started == a.started
    ensures BodyEffect(a, b, t) && b.jobs[t].pc == a.jobs[t].pc + 1 && ChildQueued(a, b, t)
  {
  }

  /** A nested `Tick` called from the body of `t`. */
  lemma TickEffect(a: View, b: View, t: nat)
    requires Valid(a) && t < |a.jobs| && a.jobs[t].status == Executing
    requires Valid(b) && Drained(b) && b.inTick == a.inTick && b.running <= a.running
    requires Kept(a.jobs, b.jobs, -1)
    ensures BodyEffect(a, b, t) && b.jobs[t] == a.jobs[t]
  {
    assert KeptJob(a.jobs[t], b.jobs[t]);
  }

  /** Task `id` is created by the body of `t` and begins to execute. */
  lemma InlineStarts(a: View, b: View, t: nat, id: nat)
    requires Valid(a) && t < |a.jobs| == id && a.jobs[t].status == Executing && !Finished(a.jobs[t])
    requires a.jobs[t].body[a.jobs[t].pc].Inline?
    requires b == a.(jobs := Apply(a.jobs, Act(t, Executing)), started := a.started + [id])
    ensures Valid(b)
  {
    NoDupAppend(a.started, id);
  }

  /** It ran to its end: seen from the body of `t`, that is the effect of one action. */
  lemma InlineEffect(a: View, b: View, c: View, d: View, t: nat, id: nat)
    requires Valid(a) && t < |a.jobs| == id && a.jobs[t].status == Executing && !Finished(a.jobs[t])
    requires a.jobs[t].body[a.jobs[t].pc].Inline?
    requires b == a.(jobs := Apply(a.jobs, Act(t, Executing)), started := a.started + [id])
    requires BodyEffect(b, c, id) && Finished(c.jobs[id])
    requires d == c.(jobs := c.jobs[id := c.jobs[id].(status := Done)])
    ensures Valid(d) && BodyEffect(a, d, t) && d.jobs[t].pc == a.jobs[t].pc + 1 && ChildRan(a, d, t)
  {
    assert KeptJob(b.jobs[t], c.jobs[t]);
    assert SameTask(b.jobs[id], c.jobs[id]);
    forall i | 0 <= i < |a.jobs| && i != t ensures KeptJob(a.jobs[i], d.jobs[i]) {
      assert KeptJob(b.jobs[i], c.jobs[i]);
    }
  }

  /** A queued task `t` begins to execute. */
  lemma BeginValid(a: View, b: View, t: nat)
    requires Valid(a) && t < |a.jobs| && a.jobs[t].status == Queued
    requires b == a.(jobs := a.jobs[t := a.jobs[t].(status := Executing)], started := a.started + [t])
    ensures Valid(b)
  {
    NoDupAppend(a.started, t);
  }

  lemma RunEffect(a: View, b: View, c: View, d: View, t: nat)
    requires Valid(a) && t < |a.jobs| && a.jobs[t].status == Queued
    requires b == a.(jobs := a.jobs[t := a.jobs[t].(status := Executing)], started := a.started + [t])
    requires BodyEffect(b, c, t) && Finished(c.jobs[t])
    requires d == c.(jobs := c.jobs[t := c.jobs[t].(status := Done)])
    ensures Valid(d) && Effect(a, d, -1)
  {
    forall i | 0 <= i < |a.jobs| ensures KeptJob(a.jobs[i], d.jobs[i]) {
      if i != t { assert KeptJob(b.jobs[i], c.jobs[i]); }
    }
  }

  /** Everything that waits or is listed as running is executing in some frame, is still to be
      visited in the current pass, or is in the current frame's in-tick set. */
  ghost predicate Covered(v: View, waiting: set<nat>) {
    && v.inTick.Some?
    && (forall i :: 0 <= i < |v.jobs| && v.jobs[i].status == Queued ==> i in waiting || i in v.inTick.value)
    && (forall i :: i in v.running && i < |v.jobs| && v.jobs[i].status != Executing ==> i in waiting || i in v.inTick.value)
  }

  /** What a completed `Tick` leaves: nothing is waiting, and only tasks that enclosing frames
      are executing are still listed as running. */
  ghost predicate Drained(v: View) {
    && (forall i :: 0 <= i < |v.jobs| ==> v.jobs[i].status != Queued)
    && (forall i :: i in v.running ==> i < |v.jobs| && v.jobs[i].status == Executing)
  }

  /** The state of one `Tick` frame at the top of its `do` loop, with `tasks` at hand. */
  ghost predicate InFrame(entry: View, v: View, tasks: set<nat>) {
    && Valid(v) && Kept(entry.jobs, v.jobs, -1)
    && v.inTick == Some({}) && Covered(v, tasks)
    && (forall i :: i in tasks ==> i < |v.jobs|)
    && (forall i :: i in v.running ==> i in entry.running || |entry.jobs| <= i)
  }

  lemma FrameStep(entry: View, a: View, tasks: set<nat>, b: View, v: View)
    requires InFrame(entry, a, tasks) && Effect(a, b, -1) && Covered(b, {})
    requires v == b.(inTick := Some({}))
    ensures InFrame(entry, v, b.inTick.value)
  {
    KeptTrans(entry.jobs, a.jobs, b.jobs, -1);
  }

  lemma FrameEnd(entry: View, v: View, last: Option<set<nat>>)
    requires Valid(entry) && InFrame(entry, v, {}) && last == entry.inTick
    ensures Valid(v.(inTick := last)) && Drained(v) && v.running <= entry.running
  {
    forall i | i in v.running ensures i in entry.running {
      assert v.jobs[i].status == Executing;
    }
  }

  /** Where no body was active before, none is left active. */
  lemma NothingExecuting(a: seq<Job>, b: seq<Job>)
    requires Kept(a, b, -1) && forall i :: 0 <= i < |a| ==> a[i].status != Executing
    ensures forall i :: 0 <= i < |b| ==> b[i].status != Executing
  {
    forall i | 0 <= i < |b| ensures b[i].status != Executing {
      if i < |a| { assert KeptJob(a[i], b[i]); }
    }
  }

  /** Drained, with nothing executing: all is done, each task once. */
  lemma AllDone(v: View)
    requires Valid(v) && Drained(v) && forall i :: 0 <= i < |v.jobs| ==> v.jobs[i].status != Executing
    ensures v.running == {} && NoDup(v.started) && forall i: nat :: i in v.started <==> i < |v.jobs|
    ensures forall i :: 0 <= i < |v.jobs| ==> v.jobs[i].status == Done && Finished(v.jobs[i])
  {
    assert forall i :: i in v.running ==> i < |v.jobs|;
  }

  class Scheduler {
    var jobs: seq<Job>                // every task of the program; its Id is its index
    var inTickTasks: Option<set<nat>> // the dictionaries, which map each Id to its task
    var runningTasks: set<nat>
    ghost var started: seq<nat>       // the order in which bodies began to run

    ghost var history: seq<Step>      // how the tasks came to be as they are
    ghost var work: nat               // the actions not executed yet

    ghost function V(): View
      reads this
    {
      View(jobs, inTickTasks, runningTasks, started)
    }

    ghost predicate Ok()
      reads this
    {
      Valid(V()) && Traced(history, jobs, work)
    }

    constructor ()
      ensures Ok() && V() == View([], None, {}, [])
    {
      jobs := [];
      inTickTasks := None;
      runningTasks := {};
      started := [];
      history := [];
      work := 0;
    }

    method QueueTask(id: nat)
      modifies this`inTickTasks, this`runningTasks
      ensures runningTasks == old(runningTasks) + {id}
      ensures inTickTasks == AddTo(old(inTickTasks), id)
    {
      if inTickTasks.Some? {
        inTickTasks := Some(inTickTasks.value + {id});
      }
      runningTasks := runningTasks + {id};
    }

    /** Creates a task with the given body and starts it on this scheduler. */
    method Start(body: seq<Action>)
      requires Ok()
      modifies this
      ensures Ok() && jobs == old(jobs) + [Job(None, body, 0, Queued)] && started == old(started)
      ensures runningTasks == old(runningTasks) + {|old(jobs)|}
      ensures inTickTasks == AddTo(old(inTickTasks), |old(jobs)|)
    {
      ghost var before := V();
      ReplaySnoc(history, Root(body));
      WorkAppend(jobs, Job(None, body, 0, Queued));
      work := work + Size(Rest(Job(None, body, 0, Queued)));
      history := history + [Root(body)];
      jobs := jobs + [Job(None, body, 0, Queued)];
      QueueTask(|jobs| - 1);
      StartValid(before, V(), body);
    }

    method ChangeStatus(t: nat, s: Status)
      requires Traced(history, jobs, work) && t < |jobs|
      modifies this`jobs, this`history, this`work
      ensures jobs == old(jobs)[t := old(jobs)[t].(status := s)] && Traced(history, jobs, work)
      ensures work == old(work)
    {
      ReplaySnoc(history, SetStatus(t, s));
      WorkUpdate(jobs, t, jobs[t].(status := s));
      history := history + [SetStatus(t, s)];
      jobs := jobs[t := jobs[t].(status := s)];
    }

    /** Moves past one action of task `t`, creating the task it creates with status `s`. */
    method Execute(t: nat, s: Status)
      requires Traced(history, jobs, work) && t < |jobs| && !Finished(jobs[t])
      modifies this`jobs, this`history, this`work
      ensures jobs == Apply(old(jobs), Act(t, s)) && Traced(history, jobs, work)
      ensures work < old(work)
    {
      WorkOfAction(jobs, t, s);
      ReplaySnoc(history, Act(t, s));
      history := history + [Act(t, s)];
      jobs := Apply(jobs, Act(t, s));
      work := Work(jobs);
    }

    /** Runs the body of `t` until it is finished, one action at a time. */
    method RunBody(t: nat)
      requires Ok() && t < |jobs| && jobs[t].status == Executing
      modifies this
      ensures Ok() && BodyEffect(old(V()), V(), t) && Finished(jobs[t])
      ensures ChildrenCared(V(), t, old(jobs)[t].pc)
      ensures Spent(old(work), work, inTickTasks == old(inTickTasks))
      decreases work, 2
    {
      ghost var before := V();
      while !Finished(jobs[t])
        invariant Ok() && BodyEffect(before, V(), t) && ChildrenCared(V(), t, before.jobs[t].pc)
        invariant Spent(old(work), work, inTickTasks == old(inTickTasks))
        decreases work
      {
        ghost var mid := V();
        RunAction(t);
        BodyEffectTrans(before, mid, V(), t);
        CaredStep(mid, V(), t, before.jobs[t].pc);
      }
    }

    /** One action of the body of `t`. */
    method RunAction(t: nat)
      requires Ok() && t < |jobs| && jobs[t].status == Executing && !Finished(jobs[t])
      modifies this
      ensures Ok() && ActionDone(old(V()), V(), t) && work < old(work)
      decreases work, 1
    {
      match jobs[t].body[jobs[t].pc] {
        case Inline(_) => RunInline(t);
        case Spawn(_) => RunSpawn(t);
        case CallTick => RunTick(t);
        case Throw =>
          ghost var before := V();
          Execute(t, Queued);
          PlainEffect(before, V(), t);
      }
    }

    /** Creates the task of a `Spawn` action and queues it. */
    method QueueChild(t: nat)
      requires Traced(history, jobs, work) && t < |jobs| && !Finished(jobs[t]) && jobs[t].body[jobs[t].pc].Spawn?
      modifies this
      ensures Traced(history, jobs, work) && work < old(work)
      ensures jobs == Apply(old(jobs), Act(t, Queued)) && started == old(started)
      ensures inTickTasks == AddTo(old(inTickTasks), |old(jobs)|) && runningTasks == old(runningTasks) + {|old(jobs)|}
    {
      var id := |jobs|;
      Execute(t, Queued);
      QueueTask(id);
    }

    /** A `Spawn` action: the new task is queued. */
    method RunSpawn(t: nat)
      requires Ok() && t < |jobs| && jobs[t].status == Executing && !Finished(jobs[t])
      requires jobs[t].body[jobs[t].pc].Spawn?
      modifies this
      ensures Ok() && BodyEffect(old(V()), V(), t) && work < old(work)
      ensures jobs[t].pc == old(jobs)[t].pc + 1 && ChildQueued(old(V()), V(), t)
    {
      ghost var before := V();
      QueueChild(t);
      SpawnEffect(before, V(), t);
    }

    /** A `CallTick` action: the scheduler is entered again. */
    method RunTick(t: nat)
      requires Ok() && t < |jobs| && jobs[t].status == Executing && !Finished(jobs[t])
      requires jobs[t].body[jobs[t].pc] == CallTick
      modifies this
      ensures Ok() && BodyEffect(old(V()), V(), t) && work < old(work)
      ensures jobs[t].pc == old(jobs)[t].pc + 1 && Drained(V())
      decreases work, 0
    {
      ghost var before := V();
      Execute(t, Queued);
      ghost var mid := V();
      PlainEffect(before, mid, t);
      Tick();
      TickEffect(mid, V(), t);
      BodyEffectTrans(before, mid, V(), t);
    }

    /** An `Inline` action: the new task is handed to `TryExecuteTaskInline`, not queued. */
    method RunInline(t: nat)
      requires Ok() && t < |jobs| && jobs[t].status == Executing && !Finished(jobs[t])
      requires jobs[t].body[jobs[t].pc].Inline?
      modifies this
      ensures Ok() && BodyEffect(old(V()), V(), t) && work < old(work)
      ensures jobs[t].pc == old(jobs)[t].pc + 1 && ChildRan(old(V()), V(), t)
      decreases work, 0
    {
      var id := |jobs|;
      ghost var a := V();
      Execute(t, Executing);
      started := started + [id];
      ghost var b := V();
      InlineStarts(a, b, t, id);
      RunBody(id);
      ghost var c := V();
      ChangeStatus(id, Done);
      InlineEffect(a, b, c, V(), t, id);
    }

    /** Runs a task at most once: not if it is executing or done already. */
    method TryExecuteTask(t: nat) returns (ran: bool)
      requires Ok() && t < |jobs|
      modifies this
      ensures Ok() && Effect(old(V()), V(), -1)
      ensures Spent(old(work), work, inTickTasks == old(inTickTasks))
      ensures ran == (old(jobs)[t].status == Queued)
      ensures jobs[t].status == if ran then Done else old(jobs)[t].status
      ensures ran ==> Finished(jobs[t]) && ChildrenCared(V(), t, 0)
      decreases work, 3
    {
      if jobs[t].status != Queued { return false; }
      ghost var a := V();
      started := started + [t];
      ChangeStatus(t, Executing);
      ghost var b := V();
      BeginValid(a, b, t);
      RunBody(t);
      ghost var c := V();
      ChangeStatus(t, Done);
      RunEffect(a, b, c, V(), t);
      CaredAfterwards(c, V(), t, 0);
      return true;
    }

    /** One element of the `foreach` in `Tick`. */
    method RunOne(t: nat, ghost waiting: set<nat>)
      requires Ok() && t < |jobs| && t in waiting && Covered(V(), waiting)
      modifies this
      ensures Spent(old(work), work, inTickTasks == old(inTickTasks))
      ensures Ok() && Effect(old(V()), V(), -1) && Covered(V(), waiting - {t})
      decreases work, 4
    {
      ghost var before := V();
      var _ := TryExecuteTask(t);
      if jobs[t].status == Done {
        runningTasks := runningTasks - {t};
      }
      assert forall i :: 0 <= i < |before.jobs| ==> KeptJob(before.jobs[i], jobs[i]);
    }

    /** One pass of the `do` loop over the tasks at hand, in any order. */
    method RunPass(tasks: set<nat>)
      requires Ok() && Covered(V(), tasks) && forall i :: i in tasks ==> i < |jobs|
      modifies this
      ensures Spent(old(work), work, inTickTasks == old(inTickTasks))
      ensures Ok() && Effect(old(V()), V(), -1) && Covered(V(), {})
      decreases work, 5
    {
      ghost var before := V();
      var todo := tasks;
      while todo != {}
        invariant Spent(old(work), work, inTickTasks == old(inTickTasks))
        invariant Ok() && Effect(before, V(), -1) && Covered(V(), todo) && todo <= tasks
        decreases todo
      {
        var t :| t in todo;
        ghost var mid := V();
        RunOne(t, todo);
        EffectTrans(before, mid, V());
        todo := todo - {t};
      }
    }

    /** Re-entrant draining. Whatever the tasks do, `Tick` returns, every task known by then
        has been executed unless an enclosing frame is executing it, only those are still
        listed as running, and the enclosing frame's in-tick set is back. */
    method Tick()
      requires Ok()
      modifies this
      ensures Ok() && Drained(V())
      ensures inTickTasks == old(inTickTasks) && runningTasks <= old(runningTasks)
      ensures Kept(old(jobs), jobs, -1) && work <= old(work)
      decreases work, 6
    {
      ghost var entry := V();
      var tasks: set<nat> := runningTasks;
      var lastInTickTasks := inTickTasks;
      inTickTasks := Some({});
      while true
        invariant Ok() && InFrame(entry, V(), tasks) && work <= old(work)
        decreases work
      {
        ghost var top, atHand := V(), tasks;
        RunPass(tasks);
        ghost var done := V();
        tasks := inTickTasks.value;
        inTickTasks := Some({});
        FrameStep(entry, top, atHand, done, V());
        if tasks == {} { break; }
      }
      FrameEnd(entry, V(), lastInTickTasks);
      inTickTasks := lastInTickTasks;
    }

    /** The outermost `Tick`, with no task body active: every task there ever was has run to
        its end exactly once, every task-creating action that ran has its one task among
        them, and nothing is left in the dictionaries. */
    method OutermostTick()
      requires Ok() && inTickTasks == None
      requires forall i :: 0 <= i < |jobs| ==> jobs[i].status != Executing
      modifies this
      ensures Ok() && runningTasks == {} && inTickTasks == None
      ensures forall i :: 0 <= i < |jobs| ==> jobs[i].status == Done
      ensures forall i :: 0 <= i < |jobs| ==>
        jobs[i].pc == |jobs[i].body| || (0 < jobs[i].pc < |jobs[i].body| && jobs[i].body[jobs[i].pc - 1] == Throw)
      ensures NoDup(started) && forall i: nat :: i in started <==> i < |jobs|
      ensures Family(jobs)
    {
      ghost var entry := V();
      Tick();
      ReplayIsFamily(history);
      NothingExecuting(entry.jobs, jobs);
      AllDone(V());
    }
  }
}
