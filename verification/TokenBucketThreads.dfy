/** The token bucket shared by threads: every load and every compare-exchange of `zeroTime` is
    one step, and steps of any number of calls interleave freely. */
module TokenBucketThreads {
  import opened TokenBuckets

  /** A call: `consume`, `consumeOrDrain`, or `returnTokensImpl` (a borrow gives back a negative
      amount). Each consuming call brings its own reading of the clock. */
  datatype Call =
    | Take(drain: bool, k: real, now: real)
    | Give(tokens: real)

  /** Where a call stands; `seen` is its `zeroTimeOld`. */
  datatype Pc = AtTest | AtLoad | AtExchange(seen: real)

  datatype Thread = Thread(call: Call, pc: Pc)

  /** A successful compare-exchange: `granted` is negative for a return, and for a drain that
      met a negative level. */
  datatype Commit = Commit(call: Call, before: real, after: real, granted: real)

  datatype State = State(zero: real, threads: map<nat, Thread>, log: seq<Commit>)

  datatype Step =
    | Enter(id: nat, call: Call)
    | Test(id: nat)                       // the load before the loop, and the early return
    | Load(id: nat)
    | Exchange(id: nat, spurious: bool)   // one round of the loop

  predicate Enabled(s: State, step: Step) {
    match step
    case Enter(id, _) => id !in s.threads
    case Test(id) => id in s.threads && s.threads[id].pc == AtTest
    case Load(id) => id in s.threads && s.threads[id].pc == AtLoad
    case Exchange(id, _) => id in s.threads && s.threads[id].pc.AtExchange?
  }

  /** What a call would store, given the `zeroTime` it loaded. */
  function Attempted(l: Limits, c: Call, seen: real): Outcome
    requires LimitsOk(l)
  {
    match c
    case Take(drain, k, now) => Attempt(seen, l, drain, k, now)
    case Give(tokens) => Outcome(Return(seen, l, tokens), true, -tokens)
  }

  function Next(l: Limits, s: State, step: Step): State
    requires LimitsOk(l) && Enabled(s, step)
  {
    match step
    case Enter(id, c) => s.(threads := s.threads[id := Thread(c, if c.Take? then AtTest else AtLoad)])
    case Test(id) =>
      var c := s.threads[id].call;
      if c.Take? && c.now <= s.zero then s.(threads := s.threads - {id})
      else s.(threads := s.threads[id := Thread(c, AtLoad)])
    case Load(id) => s.(threads := s.threads[id := s.threads[id].(pc := AtExchange(s.zero))])
    case Exchange(id, spurious) =>
      var t := s.threads[id];
      var o := Attempted(l, t.call, t.pc.seen);
      if !o.ok then s.(threads := s.threads - {id})
      else if !spurious && s.zero == t.pc.seen then
        State(o.zero, s.threads - {id}, s.log + [Commit(t.call, s.zero, o.zero, o.granted)])
      else s.(threads := s.threads[id := t.(pc := AtExchange(s.zero))])
  }

  ghost predicate StepAt(l: Limits, states: seq<State>, steps: seq<Step>, i: nat)
    requires LimitsOk(l) && i < |steps| && |states| == |steps| + 1
  {
    Enabled(states[i], steps[i]) && states[i + 1] == Next(l, states[i], steps[i])
  }

  ghost predicate Run(l: Limits, states: seq<State>, steps: seq<Step>)
    requires LimitsOk(l)
  {
    |states| == |steps| + 1 && forall i :: 0 <= i < |steps| ==> StepAt(l, states, steps, i)
  }

  // ----- a call by itself -----

  /** A consuming call that no other thread disturbs does what it does alone: it ends at the test if
      the bucket is empty, and otherwise in its first exchange, or after a spurious failure in the
      next one. */
  lemma TakeAlone(l: Limits, s: State, id: nat, drain: bool, k: real, now: real)
    requires LimitsOk(l) && id !in s.threads
    ensures var c := Take(drain, k, now);
      var o := if drain then Drain(s.zero, l, k, now) else Consume(s.zero, l, k, now);
      var s1 := Next(l, s, Enter(id, c));
      && Enabled(s1, Test(id))
      && var s2 := Next(l, s1, Test(id));
        if now <= s.zero then s2 == s && !o.ok
        else
          && Enabled(s2, Load(id))
          && var s3 := Next(l, s2, Load(id));
            && Enabled(s3, Exchange(id, true))
            && Next(l, s3, Exchange(id, false)) ==
                State(o.zero, s.threads, if o.ok then s.log + [Commit(c, s.zero, o.zero, o.granted)] else s.log)
            && Next(l, s3, Exchange(id, true)) == if o.ok then s3 else s
  {
    var s1 := Next(l, s, Enter(id, Take(drain, k, now)));
    assert s1.threads - {id} == s.threads;
  }

  /** So does a return; a borrow gives back a negative amount. */
  lemma GiveAlone(l: Limits, s: State, id: nat, tokens: real)
    requires LimitsOk(l) && id !in s.threads
    ensures var s1 := Next(l, s, Enter(id, Give(tokens)));
      && Enabled(s1, Load(id))
      && var s2 := Next(l, s1, Load(id));
        && Enabled(s2, Exchange(id, true))
        && Next(l, s2, Exchange(id, false)) ==
            State(Return(s.zero, l, tokens), s.threads, s.log + [Commit(Give(tokens), s.zero, Return(s.zero, l, tokens), -tokens)])
        && Next(l, s2, Exchange(id, true)) == s2
  {
    var s1 := Next(l, s, Enter(id, Give(tokens)));
    assert s1.threads - {id} == s.threads;
  }

  /** An exchange that fails changes nothing but what the thread has seen, and one that succeeds
      found `zeroTime` as it was loaded. */
  lemma ExchangeExactly(l: Limits, s: State, id: nat, spurious: bool)
    requires LimitsOk(l) && Enabled(s, Exchange(id, spurious))
    ensures var s' := Next(l, s, Exchange(id, spurious));
      if s'.log == s.log then s'.zero == s.zero && (id in s'.threads ==> s'.threads[id].pc == AtExchange(s.zero))
      else !spurious && s.zero == s.threads[id].pc.seen && id !in s'.threads && |s'.log| == |s.log| + 1
  {
  }

  // ----- the accounting bound -----

  /** Every exchange moves `zeroTime` by at least what it granted; one with a clock reading
      leaves it no later than that reading, and no more than a burst before it. */
  ghost predicate CommitOk(l: Limits, c: Commit) {
    && c.granted <= (c.after - c.before) * l.rate
    && (c.call.Take? ==>
      && (c.after - c.call.now) * l.rate <= 0.0
      && c.granted - l.burst <= (c.after - c.call.now) * l.rate)
  }

  ghost predicate LogOk(l: Limits, s: State) {
    && (forall i :: 0 <= i < |s.log| ==> CommitOk(l, s.log[i]))
    && (forall i :: 0 <= i < |s.log| - 1 ==> s.log[i].after == s.log[i + 1].before)
    && (s.log != [] ==> s.log[|s.log| - 1].after == s.zero)
  }

  lemma AttemptOk(l: Limits, c: Call, seen: real)
    requires LimitsOk(l) && Attempted(l, c, seen).ok
    ensures CommitOk(l, Commit(c, seen, Attempted(l, c, seen).zero, Attempted(l, c, seen).granted))
  {
    var o := Attempted(l, c, seen);
    match c {
      case Give(tokens) =>
        DivMul(tokens, l.rate);
        assert (o.zero - seen) * l.rate == -(tokens / l.rate * l.rate);
      case Take(drain, k, now) =>
        var left := Level(seen, l, now) - o.granted;
        assert o.zero == ZeroFor(l, now, left) && left >= 0.0;
        BalanceOfZeroFor(l, now, left);
        assert (o.zero - now) * l.rate == -left by { assert (o.zero - now) * l.rate == -((now - o.zero) * l.rate); }
        assert (o.zero - seen) * l.rate == (o.zero - now) * l.rate + Balance(seen, l, now);
    }
  }

  lemma StepKeepsLog(l: Limits, s: State, step: Step)
    requires LimitsOk(l) && LogOk(l, s) && Enabled(s, step)
    ensures LogOk(l, Next(l, s, step)) && s.log <= Next(l, s, step).log
  {
    if step.Exchange? {
      var t := s.threads[step.id];
      if Attempted(l, t.call, t.pc.seen).ok { AttemptOk(l, t.call, t.pc.seen); }
    }
  }

  lemma {:induction false} RunKeepsLog(l: Limits, states: seq<State>, steps: seq<Step>, i: nat)
    requires LimitsOk(l) && Run(l, states, steps) && states[0].log == [] && i < |states|
    ensures LogOk(l, states[i])
  {
    if i > 0 {
      RunKeepsLog(l, states, steps, i - 1);
      assert StepAt(l, states, steps, i - 1);
      StepKeepsLog(l, states[i - 1], steps[i - 1]);
    }
  }

  function Total(log: seq<Commit>, i: nat, j: nat): real
    requires i <= j <= |log|
    decreases j - i
  {
    if i == j then 0.0 else Total(log, i, j - 1) + log[j - 1].granted
  }

  /** What a stretch of exchanges grants is covered by how far it moves `zeroTime`. */
  lemma {:induction false} TotalCovered(l: Limits, s: State, i: nat, j: nat)
    requires LimitsOk(l) && LogOk(l, s) && i < j <= |s.log|
    ensures Total(s.log, i, j) <= (s.log[j - 1].after - s.log[i].after) * l.rate + s.log[i].granted
    decreases j - i
  {
    assert CommitOk(l, s.log[j - 1]);
    if j == i + 1 {
      assert Total(s.log, i, i) == 0.0;
      assert (s.log[i].after - s.log[i].after) * l.rate == 0.0;
    } else {
      TotalCovered(l, s, i, j - 1);
      var a, b, c := s.log[i].after, s.log[j - 2].after, s.log[j - 1].after;
      assert (c - a) * l.rate == (b - a) * l.rate + (c - b) * l.rate;
    }
  }

  lemma SplitSpan(r: real, x: real, y: real, m: real, n: real)
    ensures (x - y) * r == (x - m) * r + (m - n) * r - (y - n) * r
  {
  }

  lemma {:induction false} RateBetween(total: real, r: real, burst: real, x: real, y: real, m: real, n: real, granted: real)
    requires total <= (x - y) * r + granted && (x - m) * r <= 0.0 && granted - burst <= (y - n) * r
    ensures total <= burst + (m - n) * r
  {
    SplitSpan(r, x, y, m, n);
  }

  lemma {:induction false} StretchBound(l: Limits, first: Commit, last: Commit, total: real)
    requires CommitOk(l, first) && CommitOk(l, last) && first.call.Take? && last.call.Take?
    requires total <= (last.after - first.after) * l.rate + first.granted
    ensures total <= l.burst + (last.call.now - first.call.now) * l.rate
  {
    RateBetween(total, l.rate, l.burst, last.after, first.after, last.call.now, first.call.now, first.granted);
  }

  lemma {:induction false} LogRateBound(l: Limits, s: State, i: nat, j: nat, first: Commit, last: Commit)
    requires LimitsOk(l) && LogOk(l, s) && i < j <= |s.log| && s.log[i] == first && s.log[j - 1] == last
    requires first.call.Take? && last.call.Take?
    ensures Total(s.log, i, j) <= l.burst + (last.call.now - first.call.now) * l.rate
  {
    TotalCovered(l, s, i, j);
    StretchBound(l, first, last, Total(s.log, i, j));
  }

  /** The rate bound. In every interleaving and for every stretch of successful exchanges that
      begins and ends with a consuming one, however many returns and borrows lie between and
      however the clock readings are ordered, the signed total granted is at most one burst
      plus the rate times the time from the first reading to the last. */
  lemma {:induction false} ConcurrentRateBound(l: Limits, states: seq<State>, steps: seq<Step>, m: nat, i: nat, j: nat)
    requires LimitsOk(l) && Run(l, states, steps) && states[0].log == [] && m < |states|
    requires i < j <= |states[m].log|
    requires states[m].log[i].call.Take? && states[m].log[j - 1].call.Take?
    ensures Total(states[m].log, i, j)
      <= l.burst + (states[m].log[j - 1].call.now - states[m].log[i].call.now) * l.rate
  {
    RunKeepsLog(l, states, steps, m);
    LogRateBound(l, states[m], i, j, states[m].log[i], states[m].log[j - 1]);
  }

  // ----- the sign of a grant -----

  /** A drain grants a negative amount exactly when its clock reading lies before the
      `zeroTime` it replaces; the test before the loop does not exclude that, because
      another thread may move `zeroTime` between the test and the load. */
  lemma GrantSign(l: Limits, drain: bool, k: real, now: real, seen: real)
    requires LimitsOk(l) && k > 0.0 && Attempted(l, Take(drain, k, now), seen).ok
    ensures Attempted(l, Take(drain, k, now), seen).granted < 0.0 <==> now < seen
    ensures !drain ==> seen < now
  {
    LevelPositive(seen, l, now);
    Sign(seen - now, l.rate);
    assert (seen - now) * l.rate == -Balance(seen, l, now);
  }

  /** One more step of a run. */
  lemma Extend(l: Limits, states: seq<State>, steps: seq<Step>, step: Step) returns (states': seq<State>, steps': seq<Step>)
    requires LimitsOk(l) && Run(l, states, steps) && Enabled(states[|steps|], step)
    ensures Run(l, states', steps') && states' == states + [Next(l, states[|steps|], step)] && steps' == steps + [step]
  {
    states', steps' := states + [Next(l, states[|steps|], step)], steps + [step];
    forall i | 0 <= i < |steps'| ensures StepAt(l, states', steps', i) {
      if i < |steps| { assert StepAt(l, states, steps, i); }
    }
  }

  /** An undisturbed drain by thread `id`, from its call to its exchange. */
  lemma DrainAlone(l: Limits, states: seq<State>, steps: seq<Step>, id: nat, k: real, now: real)
    returns (states': seq<State>, steps': seq<Step>)
    requires LimitsOk(l) && Run(l, states, steps)
    requires id !in states[|steps|].threads && states[|steps|].zero < now
    ensures Run(l, states', steps') && states' != [] && states'[0] == states[0]
    ensures var s := states[|steps|]; var o := Attempted(l, Take(true, k, now), s.zero);
      states'[|steps'|] == State(o.zero, s.threads, s.log + [Commit(Take(true, k, now), s.zero, o.zero, o.granted)])
  {
    var s := states[|steps|];
    states', steps' := Extend(l, states, steps, Enter(id, Take(true, k, now)));
    states', steps' := Extend(l, states', steps', Test(id));
    states', steps' := Extend(l, states', steps', Load(id));
    states', steps' := Extend(l, states', steps', Exchange(id, false));
    assert states'[|steps'|].threads == s.threads;
  }

  /** How long an empty bucket takes to fill. */
  function FillTime(l: Limits): real
    requires LimitsOk(l)
  {
    l.burst / l.rate
  }

  /** Drains of a full burst read at twice the fill time, and one read at the fill time,
      against a fresh, an emptied and a set-back bucket. */
  lemma WitnessDrains(l: Limits, t: real)
    requires LimitsOk(l) && t == FillTime(l)
    ensures t > 0.0
    ensures Attempted(l, Take(true, l.burst, 2.0 * t), 0.0) == Outcome(2.0 * t, true, l.burst)
    ensures Attempted(l, Take(true, l.burst, t), 2.0 * t) == Outcome(t, true, -l.burst)
    ensures Attempted(l, Take(true, l.burst, 2.0 * t), t) == Outcome(2.0 * t, true, l.burst)
  {
    DivMul(l.burst, l.rate);
    Sign(t, l.rate);
    assert Balance(0.0, l, 2.0 * t) == 2.0 * l.burst;
    assert Balance(2.0 * t, l, t) == -l.burst;
    assert Balance(t, l, 2.0 * t) == l.burst;
    assert 0.0 / l.rate == 0.0;
  }

  /** So granted amounts cannot be bounded one by one: with any limits, a drain that tested the
      bucket early and exchanges late hands tokens back, and two full bursts are granted for
      the same instant. */
  lemma TwoBurstsAtOneInstant(l: Limits) returns (states: seq<State>, steps: seq<Step>)
    requires LimitsOk(l)
    ensures Run(l, states, steps) && states[0] == State(0.0, map[], [])
    ensures var log := states[|steps|].log;
      && |log| == 3
      && log[0].call == log[2].call == Take(true, l.burst, 2.0 * FillTime(l))
      && log[0].granted == log[2].granted == l.burst && log[1].granted == -l.burst
  {
    var t := FillTime(l);
    WitnessDrains(l, t);
    states, steps := LateDrainTests(l, t);
    states, steps := DrainAlone(l, states, steps, 2, l.burst, 2.0 * t);
    states, steps := LateDrainExchanges(l, t, states, steps);
    states, steps := DrainAlone(l, states, steps, 2, l.burst, 2.0 * t);
  }

  lemma LateDrainTests(l: Limits, t: real) returns (states: seq<State>, steps: seq<Step>)
    requires LimitsOk(l) && t > 0.0
    ensures Run(l, states, steps) && states[0] == State(0.0, map[], [])
    ensures states[|steps|] == State(0.0, map[1 := Thread(Take(true, l.burst, t), AtLoad)], [])
  {
    states, steps := [State(0.0, map[], [])], [];
    states, steps := Extend(l, states, steps, Enter(1, Take(true, l.burst, t)));
    states, steps := Extend(l, states, steps, Test(1));
  }

  lemma LateDrainExchanges(l: Limits, t: real, before: seq<State>, done: seq<Step>) returns (states: seq<State>, steps: seq<Step>)
    requires LimitsOk(l) && t == FillTime(l) && Run(l, before, done)
    requires before[|done|].zero == 2.0 * t && before[|done|].threads == map[1 := Thread(Take(true, l.burst, t), AtLoad)]
    ensures Run(l, states, steps) && states[0] == before[0]
    ensures states[|steps|] == State(t, map[], before[|done|].log + [Commit(Take(true, l.burst, t), 2.0 * t, t, -l.burst)])
  {
    WitnessDrains(l, t);
    states, steps := Extend(l, before, done, Load(1));
    states, steps := Extend(l, states, steps, Exchange(1, false));
    assert states[|steps|].threads == map[];
  }
}
