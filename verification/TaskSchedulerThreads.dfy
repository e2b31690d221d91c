/** `CitizenTaskScheduler` with other threads queueing tasks: the locked sections of `QueueTask`
    and `Tick` as atomic steps that interleave in any order. One thread runs `Tick`; any number
    of `QueueTask` calls, each by any thread, are under way at once. */
module TaskSchedulerThreads {
  import opened Options

  type TaskId = nat

  /** Where a `QueueTask` call stands: before the unlocked null test, before the section that
      adds to the in-tick dictionary, before the section that adds to the running one. */
  datatype QueuePc = AtTest | AtInTick | AtRunning

  /** Where a `Tick` frame stands. */
  datatype TickPc =
    | AtSwap                  // the running tasks are copied, the in-tick dictionary not yet replaced
    | AtLoop                  // between two tasks of a pass
    | InBody(task: TaskId)    // the task's body is running
    | AfterTask(task: TaskId) // TryExecuteTask returned
    | AtRestore               // the last in-tick dictionary was found empty

  /** `todo` is the rest of the local array `tasks`; `saved` is `lastInTickTasks`. `due` only
      serves the specification: the tasks whose `QueueTask` had returned when the frame began,
      and those it took from the in-tick dictionary since. */
  datatype Frame = Frame(pc: TickPc, todo: set<TaskId>, saved: Option<set<TaskId>>, due: set<TaskId>)

  datatype State = State(
    inTick: Option<set<TaskId>>,
    running: set<TaskId>,
    calls: map<TaskId, QueuePc>,   // QueueTask calls under way
    returned: set<TaskId>,         // tasks whose QueueTask returned
    executing: set<TaskId>,        // tasks whose body is running
    done: set<TaskId>,             // tasks whose body ran to completion
    stack: seq<Frame>              // active Tick frames, innermost last
  )

  const INITIAL := State(None, {}, map[], {}, {}, {}, [])

  datatype Step =
    | CallQueue(task: TaskId)
    | TestInTick(task: TaskId)
    | AddInTick(task: TaskId)
    | AddRunning(task: TaskId)
    | CallTick                 // from outside, or from the body the innermost frame runs
    | Swap
    | Begin(task: TaskId)      // TryExecuteTask on the next task
    | FinishBody               // the innermost body ends, also by an exception
    | Remove                   // the completed task leaves the running dictionary
    | TakeInTick               // end of a pass
    | Restore

  function Top(s: State): Frame
    requires s.stack != []
  {
    s.stack[|s.stack| - 1]
  }

  function WithTop(s: State, f: Frame): State
    requires s.stack != []
  {
    s.(stack := s.stack[|s.stack| - 1 := f])
  }

  predicate Enabled(s: State, step: Step) {
    match step
    case CallQueue(t) => t !in s.calls && t !in s.returned
    case TestInTick(t) => t in s.calls && s.calls[t] == AtTest
    case AddInTick(t) => t in s.calls && s.calls[t] == AtInTick
    case AddRunning(t) => t in s.calls && s.calls[t] == AtRunning
    case CallTick => s.stack == [] || Top(s).pc.InBody?
    case Swap => s.stack != [] && Top(s).pc == AtSwap
    case Begin(t) => s.stack != [] && Top(s).pc == AtLoop && t in Top(s).todo
    case FinishBody => s.stack != [] && Top(s).pc.InBody?
    case Remove => s.stack != [] && Top(s).pc.AfterTask?
    case TakeInTick => s.stack != [] && Top(s).pc == AtLoop && Top(s).todo == {} && s.inTick.Some?
    case Restore => s.stack != [] && Top(s).pc == AtRestore
  }

  function Next(s: State, step: Step): State
    requires Enabled(s, step)
  {
    match step
    case CallQueue(t) => s.(calls := s.calls[t := AtTest])
    case TestInTick(t) => s.(calls := s.calls[t := if s.inTick == None then AtRunning else AtInTick])
    case AddInTick(t) =>
      s.(calls := s.calls[t := AtRunning],
         inTick := if s.inTick == None then None else Some(s.inTick.value + {t}))
    case AddRunning(t) => s.(calls := s.calls - {t}, returned := s.returned + {t}, running := s.running + {t})
    case CallTick => s.(stack := s.stack + [Frame(AtSwap, s.running, None, s.returned)])
    case Swap => WithTop(s, Top(s).(pc := AtLoop, saved := s.inTick)).(inTick := Some({}))
    case Begin(t) =>
      if t in s.executing || t in s.done then WithTop(s, Top(s).(pc := AfterTask(t)))
      else WithTop(s, Top(s).(pc := InBody(t))).(executing := s.executing + {t})
    case FinishBody =>
      var t := Top(s).pc.task;
      WithTop(s, Top(s).(pc := AfterTask(t))).(executing := s.executing - {t}, done := s.done + {t})
    case Remove =>
      var t := Top(s).pc.task;
      WithTop(s, Top(s).(pc := AtLoop, todo := Top(s).todo - {t}))
        .(running := if t in s.done then s.running - {t} else s.running)
    case TakeInTick =>
      WithTop(s, Top(s).(pc := if s.inTick.value == {} then AtRestore else AtLoop, todo := s.inTick.value,
                         due := Top(s).due + s.inTick.value))
        .(inTick := Some({}))
    case Restore => s.(inTick := Top(s).saved, stack := s.stack[..|s.stack| - 1])
  }

  // ----- the invariant -----

  /** Task `t` is being executed by a frame below frame `k`. */
  ghost predicate BodyBelow(stack: seq<Frame>, k: nat, t: TaskId) {
    exists i :: 0 <= i < k && i < |stack| && stack[i].pc == InBody(t)
  }

  /** No lost task: once queued, a task stays listed until it has completed. */
  ghost predicate NoneLost(s: State) {
    forall t :: t in s.returned && t !in s.done ==> t in s.running
  }

  /** The executing tasks are those of the frames, one each, and all but the innermost frame
      are inside a body; a body runs only if it did not run before. */
  ghost predicate BodiesMatch(s: State) {
    && (forall t :: t in s.executing <==> BodyBelow(s.stack, |s.stack|, t))
    && (forall i, j :: 0 <= i < j < |s.stack| && s.stack[i].pc.InBody? ==> s.stack[i].pc != s.stack[j].pc)
    && (forall i :: 0 <= i < |s.stack| - 1 ==> s.stack[i].pc.InBody?)
    && s.executing !! s.done
  }

  /** A frame accounts for every task that is due: done, still at hand, or being executed by an
      enclosing frame. */
  ghost predicate FrameOk(stack: seq<Frame>, done: set<TaskId>, k: nat)
    requires k < |stack|
  {
    && (forall t :: t in stack[k].due ==> t in done || t in stack[k].todo || BodyBelow(stack, k, t))
    && (stack[k].pc.AfterTask? ==> stack[k].pc.task in done || BodyBelow(stack, k, stack[k].pc.task))
    && (stack[k].pc == AtRestore ==> stack[k].todo == {})
    && (stack[k].pc != AtSwap ==> (stack[k].saved.Some? <==> k > 0))
  }

  /** The in-tick dictionary exists exactly while a frame is past its swap. */
  ghost predicate InTickMatches(s: State) {
    s.inTick.Some? <==> |s.stack| > 1 || (|s.stack| == 1 && s.stack[0].pc != AtSwap)
  }

  ghost predicate Inv(s: State) {
    && NoneLost(s) && BodiesMatch(s) && InTickMatches(s)
    && (forall k :: 0 <= k < |s.stack| ==> FrameOk(s.stack, s.done, k))
  }

  /** Two stacks that agree below `k` execute the same tasks there. */
  lemma BelowSame(a: seq<Frame>, b: seq<Frame>, k: nat, t: TaskId)
    requires k <= |a| && k <= |b| && a[..k] == b[..k]
    ensures BodyBelow(a, k, t) <==> BodyBelow(b, k, t)
  {
    assert forall i :: 0 <= i < k ==> a[i] == a[..k][i] && b[i] == b[..k][i];
  }

  /** Frames below the innermost one stay accounted for, as `done` only grows. */
  lemma LowerFramesOk(a: seq<Frame>, b: seq<Frame>, n: nat, done: set<TaskId>, done': set<TaskId>)
    requires n <= |a| && n <= |b| && a[..n] == b[..n] && done <= done'
    requires forall k :: 0 <= k < n ==> FrameOk(a, done, k)
    ensures forall k :: 0 <= k < n ==> FrameOk(b, done', k)
  {
    forall k | 0 <= k < n ensures FrameOk(b, done', k) {
      assert a[k] == a[..n][k] == b[..n][k] == b[k];
      assert a[..k] == a[..n][..k] == b[..n][..k] == b[..k];
      assert FrameOk(a, done, k);
      forall t ensures BodyBelow(a, k, t) <==> BodyBelow(b, k, t) { BelowSame(a, b, k, t); }
    }
  }

  predicate QueueStep(step: Step) {
    step.CallQueue? || step.TestInTick? || step.AddInTick? || step.AddRunning?
  }

  lemma QueueKeepsInv(s: State, step: Step)
    requires Inv(s) && Enabled(s, step) && QueueStep(step)
    ensures Inv(Next(s, step))
  {
  }

  /** The executing tasks, told apart by the innermost frame. */
  lemma ExecutingSplit(stack: seq<Frame>, t: TaskId)
    requires stack != []
    ensures var n := |stack| - 1;
      BodyBelow(stack, n + 1, t) <==> BodyBelow(stack, n, t) || stack[n].pc == InBody(t)
  {
  }

  /** A step that only changes the innermost frame's own variables. */
  lemma TopKeepsInv(s: State, s': State)
    requires Inv(s) && s.stack != [] && |s'.stack| == |s.stack|
    requires var n := |s.stack| - 1; s.stack[..n] == s'.stack[..n] && FrameOk(s'.stack, s'.done, n)
    requires s.done <= s'.done && NoneLost(s') && InTickMatches(s') && s'.executing !! s'.done
    requires var n := |s.stack| - 1;
      forall t :: t in s'.executing <==> BodyBelow(s.stack, n, t) || s'.stack[n].pc == InBody(t)
    requires var n := |s.stack| - 1; s'.stack[n].pc.InBody? ==> !BodyBelow(s.stack, n, s'.stack[n].pc.task)
    ensures Inv(s')
  {
    var n := |s.stack| - 1;
    LowerFramesOk(s.stack, s'.stack, n, s.done, s'.done);
    assert forall i :: 0 <= i < n ==> s.stack[i] == s.stack[..n][i] == s'.stack[..n][i] == s'.stack[i];
    forall t ensures t in s'.executing <==> BodyBelow(s'.stack, |s'.stack|, t) {
      BelowSame(s.stack, s'.stack, n, t);
      ExecutingSplit(s'.stack, t);
    }
  }

  lemma TopStepKeepsInv(s: State, step: Step)
    requires Inv(s) && Enabled(s, step) && (step.Swap? || step.Begin? || step.FinishBody? || step.Remove? || step.TakeInTick?)
    ensures Inv(Next(s, step))
  {
    var s' := Next(s, step);
    var n := |s.stack| - 1;
    assert FrameOk(s.stack, s.done, n);
    forall t ensures BodyBelow(s.stack, n + 1, t) <==> BodyBelow(s.stack, n, t) || s.stack[n].pc == InBody(t) {
      ExecutingSplit(s.stack, t);
    }
    forall t ensures BodyBelow(s.stack, n, t) <==> BodyBelow(s'.stack, n, t) { BelowSame(s.stack, s'.stack, n, t); }
    if step.FinishBody? {
      assert !BodyBelow(s.stack, n, s.stack[n].pc.task);
    }
    TopKeepsInv(s, s');
  }

  lemma CallKeepsFrames(s: State)
    requires Inv(s) && Enabled(s, CallTick)
    ensures forall k :: 0 <= k <= |s.stack| ==> FrameOk(Next(s, CallTick).stack, s.done, k)
  {
    var s' := Next(s, CallTick);
    assert s'.stack[..|s.stack|] == s.stack[..|s.stack|];
    LowerFramesOk(s.stack, s'.stack, |s.stack|, s.done, s.done);
  }

  lemma CallKeepsBodies(s: State)
    requires Inv(s) && Enabled(s, CallTick)
    ensures BodiesMatch(Next(s, CallTick))
  {
    var s' := Next(s, CallTick);
    var n := |s.stack|;
    assert s'.stack[..n] == s.stack[..n];
    forall t ensures t in s'.executing <==> BodyBelow(s'.stack, n + 1, t) {
      BelowSame(s.stack, s'.stack, n, t);
      ExecutingSplit(s'.stack, t);
    }
  }

  lemma CallKeepsInv(s: State)
    requires Inv(s) && Enabled(s, CallTick)
    ensures Inv(Next(s, CallTick))
  {
    CallKeepsFrames(s);
    CallKeepsBodies(s);
  }

  lemma RestoreKeepsInv(s: State)
    requires Inv(s) && Enabled(s, Restore)
    ensures Inv(Next(s, Restore))
  {
    var s' := Next(s, Restore);
    var n := |s.stack| - 1;
    assert FrameOk(s.stack, s.done, n);
    LowerFramesOk(s.stack, s'.stack, n, s.done, s'.done);
    forall t ensures t in s'.executing <==> BodyBelow(s'.stack, n, t) {
      BelowSame(s.stack, s'.stack, n, t);
      ExecutingSplit(s.stack, t);
    }
  }

  lemma StepKeepsInv(s: State, step: Step)
    requires Inv(s) && Enabled(s, step)
    ensures Inv(Next(s, step))
  {
    if QueueStep(step) { QueueKeepsInv(s, step); }
    else if step.CallTick? { CallKeepsInv(s); }
    else if step.Restore? { RestoreKeepsInv(s); }
    else { TopStepKeepsInv(s, step); }
  }

  // ----- runs -----

  ghost predicate StepAt(states: seq<State>, steps: seq<Step>, i: nat)
    requires i < |steps| && |states| == |steps| + 1
  {
    Enabled(states[i], steps[i]) && states[i + 1] == Next(states[i], steps[i])
  }

  /** A run: each state follows from the one before by some enabled step. */
  ghost predicate Run(states: seq<State>, steps: seq<Step>) {
    |states| == |steps| + 1 && forall i :: 0 <= i < |steps| ==> StepAt(states, steps, i)
  }

  /** In every state of every interleaving, every task whose `QueueTask` has returned and which
      has not completed is listed as running, also if it was queued between the last emptiness
      test and the restore; and a task that is executing or done is never begun again. */
  lemma {:induction false} RunKeepsInv(states: seq<State>, steps: seq<Step>, i: nat)
    requires Run(states, steps) && states[0] == INITIAL && i < |states|
    ensures Inv(states[i])
  {
    if i > 0 {
      RunKeepsInv(states, steps, i - 1);
      assert StepAt(states, steps, i - 1);
      StepKeepsInv(states[i - 1], steps[i - 1]);
    }
  }

  /** A task that has begun is executing or done for ever after. */
  lemma {:induction false} BegunForever(states: seq<State>, steps: seq<Step>, i: nat, j: nat)
    requires Run(states, steps) && i <= j < |states|
    ensures states[i].executing + states[i].done <= states[j].executing + states[j].done
  {
    if i < j {
      BegunForever(states, steps, i, j - 1);
      assert StepAt(states, steps, j - 1);
    }
  }

  ghost predicate BeginsAt(states: seq<State>, steps: seq<Step>, i: nat, t: TaskId)
    requires Run(states, steps) && i < |steps|
  {
    steps[i] == Begin(t) && t !in states[i].executing && t !in states[i].done
  }

  /** No body is run twice, whatever the interleaving and the nesting. */
  lemma BodyRunsAtMostOnce(states: seq<State>, steps: seq<Step>, i: nat, j: nat, t: TaskId)
    requires Run(states, steps) && i < |steps| && j < |steps|
    requires BeginsAt(states, steps, i, t) && BeginsAt(states, steps, j, t)
    ensures i == j
  {
    assert StepAt(states, steps, i) && StepAt(states, steps, j);
    assert t in states[i + 1].executing && t in states[j + 1].executing;
    if i < j { BegunForever(states, steps, i + 1, j); }
    if j < i { BegunForever(states, steps, j + 1, i); }
  }

  /** While a frame is active nothing replaces it. */
  lemma {:induction false} FrameStays(states: seq<State>, steps: seq<Step>, n: nat, i: nat, j: nat)
    requires Run(states, steps) && i <= j < |states|
    requires forall m :: i <= m <= j ==> n < |states[m].stack|
    ensures states[i].stack[n].due <= states[j].stack[n].due
  {
    if i < j {
      FrameStays(states, steps, n, i, j - 1);
      assert StepAt(states, steps, j - 1);
    }
  }

  /** What a `Tick` call, nested or not, guarantees under every interleaving: it begins at step
      `i`, returns at step `j`, and every task whose `QueueTask` had returned by then is done,
      unless an enclosing frame is still executing it. */
  lemma TickCompletesDueTasks(states: seq<State>, steps: seq<Step>, i: nat, j: nat)
    requires Run(states, steps) && states[0] == INITIAL && i < j < |steps|
    requires steps[i] == CallTick && steps[j] == Restore
    requires var n := |states[i].stack|;
      (forall m :: i < m <= j ==> n < |states[m].stack|) && |states[j + 1].stack| == n
    ensures forall t :: t in states[i].returned ==> t in states[j + 1].done || t in states[j + 1].executing
    ensures states[i].stack == [] ==> states[i].returned <= states[j + 1].done
  {
    var n := |states[i].stack|;
    assert StepAt(states, steps, i) && StepAt(states, steps, j);
    FrameStays(states, steps, n, i + 1, j);
    RunKeepsInv(states, steps, j);
    RunKeepsInv(states, steps, j + 1);
    var s := states[j];
    assert FrameOk(s.stack, s.done, n);
    forall t | t in states[i].returned ensures t in states[j + 1].done || BodyBelow(states[j + 1].stack, n, t) {
      BelowSame(s.stack, states[j + 1].stack, n, t);
    }
  }

  // ----- what the in-tick dictionary guarantees -----

  /** Frame `n` is past its swap, and no frame above it is. */
  ghost predicate Owner(s: State, n: nat) {
    && n < |s.stack| && s.stack[n].pc != AtSwap
    && (n + 1 < |s.stack| ==> s.stack[n + 1].pc == AtSwap)
  }

  /** The in-tick dictionary that frame `n` will take from: the current one or, while a frame above
      is past its swap, the one that frame has put aside. */
  ghost function InTickOf(s: State, n: nat): Option<set<TaskId>>
    requires n < |s.stack|
  {
    if n + 1 < |s.stack| && s.stack[n + 1].pc != AtSwap then s.stack[n + 1].saved else s.inTick
  }

  /** Frame `n` has taken `t` from its dictionary, or will find it there. */
  ghost predicate Noted(s: State, n: nat, t: TaskId)
    requires n < |s.stack|
  {
    t in s.stack[n].due || (s.stack[n].pc != AtSwap && InTickOf(s, n).Some? && t in InTickOf(s, n).value)
  }

  lemma {:induction false} StepKeepsNoted(s: State, step: Step, n: nat, t: TaskId)
    requires Inv(s) && Enabled(s, step) && n < |s.stack| && n < |Next(s, step).stack| && Noted(s, n, t)
    ensures Noted(Next(s, step), n, t)
  {
    if n + 1 < |s.stack| { assert s.stack[n].pc.InBody?; }
  }

  lemma {:induction false} RunKeepsNoted(states: seq<State>, steps: seq<Step>, n: nat, t: TaskId, i: nat, j: nat)
    requires Run(states, steps) && states[0] == INITIAL && i <= j < |states|
    requires forall m :: i <= m <= j ==> n < |states[m].stack|
    requires Noted(states[i], n, t)
    ensures Noted(states[j], n, t)
  {
    if i < j {
      RunKeepsNoted(states, steps, n, t, i, j - 1);
      RunKeepsInv(states, steps, j - 1);
      assert StepAt(states, steps, j - 1);
      StepKeepsNoted(states[j - 1], steps[j - 1], n, t);
    }
  }

  /** A task that was put into the in-tick dictionary of frame `n` at step `i`, before a step `k` at
      which the frame took what was in it, is done when that frame returns at step `j`, or an
      enclosing frame is executing it: whatever threads and nested frames do in between. */
  lemma TickCompletesInTickTasks(states: seq<State>, steps: seq<Step>, n: nat, t: TaskId, i: nat, k: nat, j: nat)
    requires Run(states, steps) && states[0] == INITIAL && i < k < j < |steps|
    requires steps[i] == AddInTick(t) && Owner(states[i], n)
    requires steps[k] == TakeInTick && |states[k].stack| == n + 1
    requires steps[j] == Restore && |states[j].stack| == n + 1
    requires forall m :: i <= m <= j ==> n < |states[m].stack|
    ensures t in states[j + 1].done || t in states[j + 1].executing
    ensures n == 0 ==> t in states[j + 1].done
  {
    RunKeepsInv(states, steps, i);
    assert StepAt(states, steps, i) && StepAt(states, steps, k) && StepAt(states, steps, j);
    AddIsNoted(states[i], n, t);
    RunKeepsNoted(states, steps, n, t, i + 1, k);
    assert t in states[k + 1].stack[n].due;
    FrameStays(states, steps, n, k + 1, j);
    RunKeepsInv(states, steps, j);
    RunKeepsInv(states, steps, j + 1);
    DueIsDone(states[j], t);
  }

  lemma AddIsNoted(s: State, n: nat, t: TaskId)
    requires Inv(s) && Enabled(s, AddInTick(t)) && Owner(s, n)
    ensures Noted(Next(s, AddInTick(t)), n, t)
  {
  }

  /** What is due in the innermost frame when it returns. */
  lemma DueIsDone(s: State, t: TaskId)
    requires Inv(s) && Enabled(s, Restore) && t in Top(s).due
    ensures t in Next(s, Restore).done || t in Next(s, Restore).executing
    ensures |s.stack| == 1 ==> t in Next(s, Restore).done
  {
    var n := |s.stack| - 1;
    assert FrameOk(s.stack, s.done, n);
    ExecutingSplit(s.stack, t);
  }

  // ----- what a tick leaves listed -----

  /** Of the tasks in `due`, those still listed are at hand in frame `n` or executed below it. */
  ghost predicate Unlisting(s: State, n: nat, due: set<TaskId>)
    requires n < |s.stack|
  {
    && due <= s.returned && s.calls.Keys !! s.returned
    && forall t :: t in due && t in s.running ==> t in s.stack[n].todo || BodyBelow(s.stack, n, t)
  }

  lemma {:induction false} StepKeepsUnlisting(s: State, step: Step, n: nat, due: set<TaskId>)
    requires Inv(s) && Enabled(s, step) && n < |s.stack| && n < |Next(s, step).stack| && Unlisting(s, n, due)
    ensures Unlisting(Next(s, step), n, due)
  {
    var s' := Next(s, step);
    assert FrameOk(s.stack, s.done, n);
    if n + 1 < |s.stack| { assert s.stack[n].pc.InBody?; }
    forall t ensures BodyBelow(s.stack, n, t) <==> BodyBelow(s'.stack, n, t) {
      assert s.stack[..n] == s'.stack[..n];
      BelowSame(s.stack, s'.stack, n, t);
    }
  }

  lemma {:induction false} CallsAreNew(states: seq<State>, steps: seq<Step>, i: nat)
    requires Run(states, steps) && states[0] == INITIAL && i < |states|
    ensures states[i].calls.Keys !! states[i].returned
  {
    if i > 0 {
      CallsAreNew(states, steps, i - 1);
      assert StepAt(states, steps, i - 1);
    }
  }

  lemma {:induction false} RunKeepsUnlisting(states: seq<State>, steps: seq<Step>, n: nat, due: set<TaskId>, i: nat, j: nat)
    requires Run(states, steps) && states[0] == INITIAL && i <= j < |states|
    requires forall m :: i <= m <= j ==> n < |states[m].stack|
    requires Unlisting(states[i], n, due)
    ensures Unlisting(states[j], n, due)
  {
    if i < j {
      RunKeepsUnlisting(states, steps, n, due, i, j - 1);
      RunKeepsInv(states, steps, j - 1);
      assert StepAt(states, steps, j - 1);
      StepKeepsUnlisting(states[j - 1], steps[j - 1], n, due);
    }
  }

  /** When a `Tick` returns, no task whose `QueueTask` had returned when it began is listed any
      more, unless an enclosing frame is still executing it. */
  lemma TickUnlistsDueTasks(states: seq<State>, steps: seq<Step>, i: nat, j: nat)
    requires Run(states, steps) && states[0] == INITIAL && i < j < |steps|
    requires steps[i] == CallTick && steps[j] == Restore
    requires var n := |states[i].stack|;
      (forall m :: i < m <= j ==> n < |states[m].stack|) && |states[j + 1].stack| == n
    ensures forall t :: t in states[i].returned && t in states[j + 1].running ==> t in states[j + 1].executing
    ensures states[i].stack == [] ==> states[i].returned !! states[j + 1].running
  {
    var n := |states[i].stack|;
    assert StepAt(states, steps, i) && StepAt(states, steps, j);
    CallsAreNew(states, steps, i);
    assert Unlisting(states[i + 1], n, states[i].returned);
    RunKeepsUnlisting(states, steps, n, states[i].returned, i + 1, j);
    RunKeepsInv(states, steps, j);
    RunKeepsInv(states, steps, j + 1);
    var s := states[j];
    assert FrameOk(s.stack, s.done, n);
    forall t | t in states[i].returned && t in states[j + 1].running ensures BodyBelow(states[j + 1].stack, n, t) {
      BelowSame(s.stack, states[j + 1].stack, n, t);
    }
  }

  /** A `QueueTask` call that no other thread disturbs: it notes the task for the tick under way, if
      there is one, and lists it. */
  lemma QueueAlone(s: State, t: TaskId)
    requires t !in s.calls && t !in s.returned
    ensures var s1 := Next(s, CallQueue(t));
      && Enabled(s1, TestInTick(t))
      && var s2 := Next(s1, TestInTick(t));
        && Enabled(s2, if s.inTick.Some? then AddInTick(t) else AddRunning(t))
        && var s3 := if s.inTick.Some? then Next(s2, AddInTick(t)) else s2;
          && Enabled(s3, AddRunning(t))
          && Next(s3, AddRunning(t)) ==
              s.(inTick := if s.inTick.Some? then Some(s.inTick.value + {t}) else None,
                 running := s.running + {t}, returned := s.returned + {t})
  {
    var s1 := Next(s, CallQueue(t));
    assert s1.calls - {t} == s.calls;
  }

  /** The ticking thread is never blocked inside `Tick`. */
  lemma TickNeverStuck(s: State)
    requires Inv(s) && s.stack != []
    ensures exists step :: !QueueStep(step) && !step.CallTick? && Enabled(s, step)
  {
    var f := Top(s);
    match f.pc {
      case AtSwap => assert Enabled(s, Swap);
      case AtLoop =>
        if f.todo == {} {
          assert Enabled(s, TakeInTick);
        } else {
          var t :| t in f.todo;
          assert Enabled(s, Begin(t));
        }
      case InBody(_) => assert Enabled(s, FinishBody);
      case AfterTask(_) => assert Enabled(s, Remove);
      case AtRestore => assert Enabled(s, Restore);
    }
  }
}
