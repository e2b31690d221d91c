/** How many steps the ticking thread can take while other threads queue tasks: a bound on what a
    tick still has to do, which each of its own steps lowers and only queueing and nested ticks
    raise. */
module TaskSchedulerWork {
  import opened Options
  import opened TaskSchedulerThreads

  // ----- what is left to do -----

  /** The steps of a frame if nothing more is queued: up to three for each task at hand, and its own. */
  function FrameWork(f: Frame): nat {
    match f.pc
    case AtSwap => 3 * |f.todo| + 3
    case AtLoop => 3 * |f.todo| + 2
    case InBody(_) => 3 * |f.todo| + 1
    case AfterTask(_) => 3 * |f.todo|
    case AtRestore => 1
  }

  /** A task in an in-tick dictionary will need three steps, and one to take it. */
  function DictionaryWork(tasks: Option<set<TaskId>>): nat {
    if tasks.Some? then 4 * |tasks.value| else 0
  }

  /** The frames from `n` on, and the dictionaries that those above `n` have put aside. */
  function StackWork(stack: seq<Frame>, n: nat): nat
    decreases |stack|
  {
    if |stack| <= n then 0
    else
      var top := |stack| - 1;
      StackWork(stack[..top], n) + FrameWork(stack[top]) + if top > n then DictionaryWork(stack[top].saved) else 0
  }

  /** The calls that may still add to an in-tick dictionary. */
  function Pending(calls: map<TaskId, QueuePc>): set<TaskId> {
    set t | t in calls && calls[t] != AtRunning
  }

  /** The current in-tick dictionary is for frame `n` or one above it. */
  predicate Swapped(stack: seq<Frame>, n: nat) {
    n < |stack| && stack[n].pc != AtSwap
  }

  function Work(s: State, n: nat): nat {
    StackWork(s.stack, n) + (if Swapped(s.stack, n) then DictionaryWork(s.inTick) else 0) + 4 * |Pending(s.calls)|
  }

  /** A step of the ticking thread in frame `n` or one above it. */
  predicate OwnStep(s: State, step: Step, n: nat) {
    !QueueStep(step) && !step.CallTick? && |s.stack| > n
  }

  /** A call of `Tick` that opens frame `n` or one above it. */
  predicate Opens(s: State, step: Step, n: nat) {
    step.CallTick? && |s.stack| >= n
  }

  function Known(s: State): set<TaskId> {
    s.calls.Keys + s.returned
  }

  /** The task of a frame is at hand, a frame puts nothing aside before its swap, and only queued
      tasks are listed. */
  ghost predicate AtHand(s: State) {
    && (forall k :: 0 <= k < |s.stack| && (s.stack[k].pc.InBody? || s.stack[k].pc.AfterTask?) ==> s.stack[k].pc.task in s.stack[k].todo)
    && (forall k :: 0 <= k < |s.stack| && s.stack[k].pc == AtSwap ==> s.stack[k].saved == None)
    && s.running <= s.returned
  }

  lemma {:induction false} StepKeepsAtHand(s: State, step: Step)
    requires AtHand(s) && Enabled(s, step)
    ensures AtHand(Next(s, step))
  {
  }

  lemma {:induction false} RunKeepsAtHand(states: seq<State>, steps: seq<Step>, i: nat)
    requires Run(states, steps) && states[0] == INITIAL && i < |states|
    ensures AtHand(states[i])
  {
    if i > 0 {
      RunKeepsAtHand(states, steps, i - 1);
      assert StepAt(states, steps, i - 1);
      StepKeepsAtHand(states[i - 1], steps[i - 1]);
    }
  }

  // ----- one step -----

  /** Work after a step, with the step itself, is at most the work before it and what it adds. */
  ghost predicate Pays(s: State, step: Step, n: nat)
    requires Enabled(s, step)
  {
    Work(Next(s, step), n) + (if OwnStep(s, step, n) then 1 else 0)
      <= Work(s, n) + (if step.CallQueue? then 4 else 0) + if Opens(s, step, n) then 3 * |s.running| + 3 else 0
  }

  lemma {:induction false} OnePending(calls: map<TaskId, QueuePc>, t: TaskId, pc: QueuePc)
    ensures |Pending(calls[t := pc])| <= |Pending(calls)| + 1
    ensures pc == AtRunning && t in Pending(calls) ==> |Pending(calls[t := pc])| == |Pending(calls)| - 1
    ensures t in Pending(calls) ==> |Pending(calls[t := pc])| <= |Pending(calls)|
  {
    var after := Pending(calls[t := pc]);
    if pc == AtRunning {
      assert after == Pending(calls) - {t};
    } else {
      assert after == Pending(calls) + {t};
    }
  }

  lemma {:induction false} QueuePays(s: State, step: Step, n: nat)
    requires Enabled(s, step) && QueueStep(step)
    ensures Pays(s, step, n)
  {
    match step {
      case CallQueue(t) => OnePending(s.calls, t, AtTest);
      case TestInTick(t) => OnePending(s.calls, t, if s.inTick == None then AtRunning else AtInTick);
      case AddInTick(t) => OnePending(s.calls, t, AtRunning);
      case AddRunning(t) => assert Pending(s.calls - {t}) == Pending(s.calls);
    }
  }

  lemma {:induction false} CallPays(s: State, n: nat)
    requires Enabled(s, CallTick) && BodiesMatch(s)
    ensures Pays(s, CallTick, n)
  {
    var s' := Next(s, CallTick);
    assert s'.stack[..|s.stack|] == s.stack;
  }

  lemma {:induction false} RestorePays(s: State, n: nat)
    requires Enabled(s, Restore) && BodiesMatch(s)
    ensures Pays(s, Restore, n)
  {
  }

  /** What changing the innermost frame changes. */
  lemma {:induction false} TopWork(stack: seq<Frame>, f: Frame, n: nat)
    requires stack != []
    ensures var top := |stack| - 1; var stack' := stack[top := f];
      top >= n ==>
        StackWork(stack', n) - StackWork(stack, n)
          == FrameWork(f) - FrameWork(stack[top]) + if top > n then DictionaryWork(f.saved) - DictionaryWork(stack[top].saved) else 0
    ensures |stack| <= n ==> StackWork(stack[|stack| - 1 := f], n) == StackWork(stack, n) == 0
  {
    var top := |stack| - 1;
    assert stack[top := f][..top] == stack[..top];
  }

  lemma {:induction false} SwapPays(s: State, n: nat)
    requires Enabled(s, Swap) && BodiesMatch(s) && AtHand(s)
    ensures Pays(s, Swap, n)
  {
    TopWork(s.stack, Top(s).(pc := AtLoop, saved := s.inTick), n);
  }

  lemma {:induction false} TakePays(s: State, n: nat)
    requires Enabled(s, TakeInTick) && BodiesMatch(s)
    ensures Pays(s, TakeInTick, n)
  {
    if s.inTick.value != {} { assert |s.inTick.value| > 0; }
    TopWork(s.stack, Top(Next(s, TakeInTick)), n);
  }

  lemma {:induction false} BeginPays(s: State, t: TaskId, n: nat)
    requires Enabled(s, Begin(t))
    ensures Pays(s, Begin(t), n)
  {
    TopWork(s.stack, Top(Next(s, Begin(t))), n);
  }

  lemma {:induction false} FinishPays(s: State, n: nat)
    requires Enabled(s, FinishBody)
    ensures Pays(s, FinishBody, n)
  {
    TopWork(s.stack, Top(Next(s, FinishBody)), n);
  }

  lemma {:induction false} RemovePays(s: State, n: nat)
    requires Enabled(s, Remove) && AtHand(s)
    ensures Pays(s, Remove, n)
  {
    TopWork(s.stack, Top(Next(s, Remove)), n);
  }

  lemma {:induction false} StepPays(s: State, step: Step, n: nat)
    requires Inv(s) && AtHand(s) && Enabled(s, step)
    ensures Pays(s, step, n)
  {
    if QueueStep(step) { QueuePays(s, step, n); }
    else if step.CallTick? { CallPays(s, n); }
    else if step.Restore? { RestorePays(s, n); }
    else if step.Swap? { SwapPays(s, n); }
    else if step.TakeInTick? { TakePays(s, n); }
    else if step.Begin? { BeginPays(s, step.task, n); }
    else if step.FinishBody? { FinishPays(s, n); }
    else { RemovePays(s, n); }
  }

  lemma {:induction false} TickKnows(s: State, step: Step)
    requires Enabled(s, step) && !QueueStep(step)
    ensures Next(s, step).calls == s.calls && Next(s, step).returned == s.returned
  {
  }

  /** Tasks become known by being queued, and stay so. */
  lemma {:induction false} StepKnows(s: State, step: Step)
    requires Enabled(s, step)
    ensures |Known(Next(s, step))| == |Known(s)| + if step.CallQueue? then 1 else 0
  {
    match step {
      case CallQueue(t) => assert Known(Next(s, step)) == Known(s) + {t};
      case AddRunning(t) => assert Known(Next(s, step)) == Known(s);
      case TestInTick(t) => assert Next(s, step).calls.Keys == s.calls.Keys;
      case AddInTick(t) => assert Next(s, step).calls.Keys == s.calls.Keys;
      case _ => TickKnows(s, step);
    }
  }

  // ----- runs -----

  /** How many steps of a stretch of a run are steps of frame `n` and those above it. */
  ghost function OwnSteps(states: seq<State>, steps: seq<Step>, n: nat, i: nat, j: nat): nat
    requires Run(states, steps) && i <= j < |states|
  {
    if i == j then 0 else OwnSteps(states, steps, n, i, j - 1) + if OwnStep(states[j - 1], steps[j - 1], n) then 1 else 0
  }

  /** How many ticks are opened at `n` or above. */
  ghost function Opened(states: seq<State>, steps: seq<Step>, n: nat, i: nat, j: nat): nat
    requires Run(states, steps) && i <= j < |states|
  {
    if i == j then 0 else Opened(states, steps, n, i, j - 1) + if Opens(states[j - 1], steps[j - 1], n) then 1 else 0
  }

  /** How many tasks are queued. */
  ghost function Queued(states: seq<State>, steps: seq<Step>, i: nat, j: nat): nat
    requires Run(states, steps) && i <= j < |states|
  {
    if i == j then 0 else Queued(states, steps, i, j - 1) + if steps[j - 1].CallQueue? then 1 else 0
  }

  lemma {:induction false} RunKnows(states: seq<State>, steps: seq<Step>, i: nat, j: nat)
    requires Run(states, steps) && i <= j < |states|
    ensures |Known(states[j])| == |Known(states[i])| + Queued(states, steps, i, j)
  {
    if i < j {
      RunKnows(states, steps, i, j - 1);
      assert StepAt(states, steps, j - 1);
      StepKnows(states[j - 1], steps[j - 1]);
    }
  }

  lemma {:induction false} ListedAreKnown(s: State, tasks: nat)
    requires AtHand(s) && |Known(s)| <= tasks
    ensures |s.running| <= tasks && |Pending(s.calls)| <= tasks
  {
    SubsetSize(s.running, Known(s));
    SubsetSize(Pending(s.calls), Known(s));
  }

  lemma {:induction false} SubsetSize(a: set<TaskId>, b: set<TaskId>)
    requires a <= b
    ensures |a| <= |b|
  {
    assert b == a + (b - a);
  }

  lemma {:induction false} StepBound(states: seq<State>, steps: seq<Step>, n: nat, j: nat, tasks: nat)
    requires Run(states, steps) && states[0] == INITIAL && j < |steps| && |Known(states[j + 1])| <= tasks
    ensures |Known(states[j])| <= tasks
    ensures (if OwnStep(states[j], steps[j], n) then 1 else 0) + Work(states[j + 1], n)
      <= Work(states[j], n) + (if steps[j].CallQueue? then 4 else 0) + if Opens(states[j], steps[j], n) then 3 * tasks + 3 else 0
  {
    assert StepAt(states, steps, j);
    StepKnows(states[j], steps[j]);
    RunKeepsInv(states, steps, j);
    RunKeepsAtHand(states, steps, j);
    StepPays(states[j], steps[j], n);
    ListedAreKnown(states[j], tasks);
  }

  /** Over any stretch of any run, the steps of the ticking thread in frame `n` and those above it
      are bounded by the work there was, the tasks queued and the ticks opened meanwhile; `tasks`
      is the number of tasks known at the end. */
  lemma {:induction false} StepsBounded(states: seq<State>, steps: seq<Step>, n: nat, i: nat, j: nat, tasks: nat)
    requires Run(states, steps) && states[0] == INITIAL && i <= j < |states| && |Known(states[j])| <= tasks
    ensures OwnSteps(states, steps, n, i, j) + Work(states[j], n)
      <= Work(states[i], n) + 4 * Queued(states, steps, i, j) + Opened(states, steps, n, i, j) * (3 * tasks + 3)
  {
    if i < j {
      StepBound(states, steps, n, j - 1, tasks);
      StepsBounded(states, steps, n, i, j - 1, tasks);
      OneMoreTick(Opened(states, steps, n, i, j - 1), 3 * tasks + 3);
    }
  }

  lemma {:induction false} OneMoreTick(k: nat, m: nat)
    ensures (k + 1) * m == k * m + m
  {
  }

  /** While a frame is there, work is left in it. */
  lemma {:induction false} WorkLeft(s: State, n: nat)
    requires AtHand(s) && n < |s.stack|
    ensures Work(s, n) > 0
  {
    var top := |s.stack| - 1;
    if s.stack[top].pc.AfterTask? { SubsetSize({s.stack[top].pc.task}, s.stack[top].todo); }
  }

  /** A tick that opens frame `n` at step `i` and has not returned before step `j`: the ticking thread
      has taken fewer steps in it, nested ticks included, than four for each task and three more for
      each tick and each pair of a tick and a task, whatever the other threads do. As it always has a
      step to take (`TickNeverStuck`), the tick returns. */
  lemma {:induction false} TickStepsBounded(states: seq<State>, steps: seq<Step>, n: nat, i: nat, j: nat, tasks: nat)
    requires Run(states, steps) && states[0] == INITIAL && i < j < |states| && steps[i] == CallTick
    requires n == |states[i].stack| && n < |states[j].stack| && tasks == |Known(states[j])|
    ensures OwnSteps(states, steps, n, i + 1, j) < 4 * tasks + (Opened(states, steps, n, i + 1, j) + 1) * (3 * tasks + 3)
  {
    var queued := Queued(states, steps, i + 1, j);
    StepsBounded(states, steps, n, i + 1, j, tasks);
    RunKnows(states, steps, i + 1, j);
    RunKeepsAtHand(states, steps, j);
    WorkLeft(states[j], n);
    RunKeepsAtHand(states, steps, i);
    FirstWork(states, steps, i, n, tasks - queued);
    Total(OwnSteps(states, steps, n, i + 1, j), Work(states[i + 1], n), Work(states[j], n), queued,
      Opened(states, steps, n, i + 1, j), tasks);
  }

  lemma {:induction false} Total(own: nat, first: nat, last: nat, queued: nat, ticks: nat, tasks: nat)
    requires own + last <= first + 4 * queued + ticks * (3 * tasks + 3) && last > 0
    requires queued <= tasks && first <= 3 * (tasks - queued) + 3 + 4 * (tasks - queued)
    ensures own < 4 * tasks + (ticks + 1) * (3 * tasks + 3)
  {
    OneMoreTick(ticks, 3 * tasks + 3);
  }

  lemma {:induction false} PushedWork(stack: seq<Frame>, f: Frame)
    ensures StackWork(stack + [f], |stack|) == FrameWork(f)
  {
    assert (stack + [f])[..|stack|] == stack;
    assert StackWork(stack, |stack|) == 0;
  }

  lemma {:induction false} FirstWork(states: seq<State>, steps: seq<Step>, i: nat, n: nat, known: nat)
    requires Run(states, steps) && i < |steps| && steps[i] == CallTick && AtHand(states[i])
    requires n == |states[i].stack| && known == |Known(states[i + 1])|
    ensures Work(states[i + 1], n) <= 3 * known + 3 + 4 * known
  {
    var s, s' := states[i], states[i + 1];
    assert StepAt(states, steps, i);
    PushedWork(s.stack, Frame(AtSwap, s.running, None, s.returned));
    assert Known(s) == Known(s');
    ListedAreKnown(s, known);
  }

  /** Over a whole run: the ticking thread takes at most four steps for each task queued, and three
      for each pair of a tick and a task, and three for each tick. */
  lemma {:induction false} AllStepsBounded(states: seq<State>, steps: seq<Step>)
    requires Run(states, steps) && states[0] == INITIAL
    ensures var j := |steps|; var tasks := Queued(states, steps, 0, j);
      OwnSteps(states, steps, 0, 0, j) <= 4 * tasks + Opened(states, steps, 0, 0, j) * (3 * tasks + 3)
  {
    RunKnows(states, steps, 0, |steps|);
    StepsBounded(states, steps, 0, 0, |steps|, Queued(states, steps, 0, |steps|));
  }
}
