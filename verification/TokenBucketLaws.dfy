/** What the single-number bucket amounts to: a textbook bucket that stores its level and the
    time of its last update, FIFO reservations that respect the rate, and level-preserving
    changes of the limits. */
module TokenBucketLaws {
  import opened Options
  import opened TokenBuckets

  // ----- refinement of the textbook bucket -----

  /** A textbook bucket: `level` tokens at time `last`, refilled on demand and capped at the
      burst size. A negative level is a debt. */
  datatype Book = Book(level: real, last: real)

  function Refill(b: Book, l: Limits, now: real): Book {
    Book(Min(b.level + (now - b.last) * l.rate, l.burst), now)
  }

  datatype Op =
    | OpConsume(k: real, now: real)
    | OpDrain(k: real, now: real)
    | OpBorrow(k: real, now: real)
    | OpReturn(k: real)
    | OpAvailable(now: real)

  /** `value` is the amount granted, available, or to wait; `ok` says if the call was refused. */
  datatype Answer = Answer(ok: bool, value: real)

  function BookAfter(b: Book, l: Limits, op: Op): Book {
    match op
    case OpConsume(k, now) =>
      var r := Refill(b, l, now);
      if k <= r.level then r.(level := r.level - k) else r
    case OpDrain(k, now) =>
      var r := Refill(b, l, now);
      r.(level := r.level - Max(0.0, Min(k, r.level)))
    case OpBorrow(k, now) =>
      if l.burst < k then b
      else var r := Refill(b, l, now); r.(level := r.level - k)
    case OpReturn(k) => b.(level := Min(b.level + k, l.burst))
    case OpAvailable(now) => Refill(b, l, now)
  }

  function BookAnswer(b: Book, l: Limits, op: Op): Answer
    requires LimitsOk(l)
  {
    match op
    case OpConsume(k, now) => Answer(k <= Refill(b, l, now).level, if k <= Refill(b, l, now).level then k else 0.0)
    case OpDrain(k, now) => Answer(true, Max(0.0, Min(k, Refill(b, l, now).level)))
    case OpBorrow(k, now) =>
      if l.burst < k then Answer(false, 0.0)
      else Answer(true, Max(0.0, (k - Refill(b, l, now).level) / l.rate))
    case OpReturn(_) => Answer(true, 0.0)
    case OpAvailable(now) => Answer(true, Max(0.0, Refill(b, l, now).level))
  }

  function ZeroAfter(zero: real, l: Limits, op: Op): real
    requires LimitsOk(l)
  {
    match op
    case OpConsume(k, now) => Consume(zero, l, k, now).zero
    case OpDrain(k, now) => Drain(zero, l, k, now).zero
    case OpBorrow(k, now) => BorrowZero(zero, l, k, now)
    case OpReturn(k) => Return(zero, l, k)
    case OpAvailable(now) => zero
  }

  function ZeroAnswer(zero: real, l: Limits, op: Op): Answer
    requires LimitsOk(l)
  {
    match op
    case OpConsume(k, now) => var o := Consume(zero, l, k, now); Answer(o.ok, o.granted)
    case OpDrain(k, now) => Answer(true, Drain(zero, l, k, now).granted)
    case OpBorrow(k, now) =>
      (match BorrowNap(zero, l, k, now)
       case None => Answer(false, 0.0)
       case Some(nap) => Answer(true, nap))
    case OpReturn(_) => Answer(true, 0.0)
    case OpAvailable(now) => Answer(true, Available(zero, l, now))
  }

  /** The abstraction: the stored level is the capped balance at the last update. */
  ghost predicate Represents(zero: real, l: Limits, b: Book) {
    b.level == Level(zero, l, b.last)
  }

  /** Requests are positive and the clock does not run backwards; a return carries no time. */
  ghost predicate InOrder(op: Op, last: real) {
    (op.OpAvailable? || op.k > 0.0) && (!op.OpReturn? ==> last <= op.now)
  }

  lemma RefillRepresents(zero: real, l: Limits, b: Book, now: real)
    requires LimitsOk(l) && Represents(zero, l, b) && b.last <= now
    ensures Refill(b, l, now).level == Level(zero, l, now)
    ensures Represents(zero, l, Refill(b, l, now))
  {
    var gained := (now - b.last) * l.rate;
    Sign(now - b.last, l.rate);
    BalanceLater(zero, l, b.last, now);
    assert gained >= 0.0 && Balance(zero, l, now) == Balance(zero, l, b.last) + gained;
  }

  lemma StepRefines(zero: real, l: Limits, b: Book, op: Op)
    requires LimitsOk(l) && Represents(zero, l, b) && InOrder(op, b.last)
    ensures ZeroAnswer(zero, l, op) == BookAnswer(b, l, op)
    ensures Represents(ZeroAfter(zero, l, op), l, BookAfter(b, l, op))
  {
    if op.OpReturn? {
      var z := Return(zero, l, op.k);
      assert z + op.k / l.rate == zero;
      MovedBalance(z, l, b.last, op.k);
    } else {
      RefillRepresents(zero, l, b, op.now);
      LevelPositive(zero, l, op.now);
      var level := Level(zero, l, op.now);
      match op {
        case OpConsume(k, now) => BalanceOfZeroFor(l, now, level - k);
        case OpDrain(k, now) =>
          BalanceOfZeroFor(l, now, level - k);
          BalanceOfZeroFor(l, now, 0.0);
        case OpBorrow(k, now) => if k <= l.burst { BorrowRefines(zero, l, k, now); }
        case OpAvailable(now) =>
        case OpReturn(_) =>
      }
    }
  }

  lemma BorrowRefines(zero: real, l: Limits, k: real, now: real)
    requires LimitsOk(l) && 0.0 < k <= l.burst
    ensures Level(BorrowZero(zero, l, k, now), l, now) == Level(zero, l, now) - k
    ensures BorrowNap(zero, l, k, now) == Some(Max(0.0, (k - Level(zero, l, now)) / l.rate))
  {
    LevelPositive(zero, l, now);
    var level := Level(zero, l, now);
    var z := ZeroFor(l, now, level);
    assert BorrowZero(zero, l, k, now) == z + k / l.rate;
    BalanceOfZeroFor(l, now, level);
    MovedBalance(z, l, now, k);
    assert z + k / l.rate - now == (k - level) / l.rate;
  }

  function ZeroRun(zero: real, l: Limits, ops: seq<Op>): seq<Answer>
    requires LimitsOk(l)
    decreases |ops|
  {
    if ops == [] then []
    else [ZeroAnswer(zero, l, ops[0])] + ZeroRun(ZeroAfter(zero, l, ops[0]), l, ops[1..])
  }

  function BookRun(b: Book, l: Limits, ops: seq<Op>): seq<Answer>
    requires LimitsOk(l)
    decreases |ops|
  {
    if ops == [] then []
    else [BookAnswer(b, l, ops[0])] + BookRun(BookAfter(b, l, ops[0]), l, ops[1..])
  }

  ghost predicate AllInOrder(ops: seq<Op>, last: real) {
    ops != [] ==> InOrder(ops[0], last) && AllInOrder(ops[1..], if ops[0].OpReturn? then last else ops[0].now)
  }

  /** Over any sequential run with a steady clock the two buckets give the same answers. */
  lemma {:induction false} BucketRefinesTextbook(zero: real, l: Limits, b: Book, ops: seq<Op>)
    requires LimitsOk(l) && Represents(zero, l, b) && AllInOrder(ops, b.last)
    ensures ZeroRun(zero, l, ops) == BookRun(b, l, ops)
    decreases |ops|
  {
    if ops != [] {
      StepRefines(zero, l, b, ops[0]);
      var b1 := BookAfter(b, l, ops[0]);
      if ops[0].OpBorrow? && l.burst < ops[0].k {
        // The refused call leaves the textbook bucket's time where it was.
        InOrderFromEarlier(ops[1..], b.last, ops[0].now);
      }
      BucketRefinesTextbook(ZeroAfter(zero, l, ops[0]), l, b1, ops[1..]);
    }
  }

  lemma {:induction false} InOrderFromEarlier(ops: seq<Op>, earlier: real, last: real)
    requires AllInOrder(ops, last) && earlier <= last
    ensures AllInOrder(ops, earlier)
    decreases |ops|
  {
    if ops != [] && ops[0].OpReturn? { InOrderFromEarlier(ops[1..], earlier, last); }
  }

  /** For requests that are not positive, `consume` differs from the textbook bucket exactly
      when the bucket holds nothing and the request would still fit: it refuses, because it
      tests for an empty bucket first. */
  lemma ConsumeAgreesExactly(zero: real, l: Limits, b: Book, k: real, now: real)
    requires LimitsOk(l) && Represents(zero, l, b) && b.last <= now
    ensures Consume(zero, l, k, now).ok == BookAnswer(b, l, OpConsume(k, now)).ok
      <==> !(k <= Available(zero, l, now) == 0.0 && k <= Level(zero, l, now))
  {
    RefillRepresents(zero, l, b, now);
    LevelPositive(zero, l, now);
  }

  // ----- requests of any amount -----

  /** `consume` succeeds exactly if the bucket is not empty and holds the amount, and then takes
      exactly that; `consumeOrDrain` takes what there is of the amount. Neither changes anything
      otherwise. */
  lemma AnyAmount(zero: real, l: Limits, k: real, now: real)
    requires LimitsOk(l)
    ensures Consume(zero, l, k, now).ok <==> zero < now && k <= l.burst && k <= (now - zero) * l.rate
    ensures Drain(zero, l, k, now).ok <==> zero < now
    ensures var o := Consume(zero, l, k, now); if o.ok then o.granted == k else o.granted == 0.0 && o.zero == zero
    ensures var o := Drain(zero, l, k, now);
      if o.ok then o.granted == Min(k, Min((now - zero) * l.rate, l.burst)) else o.granted == 0.0 && o.zero == zero
    ensures forall o :: o in {Consume(zero, l, k, now), Drain(zero, l, k, now)} && o.ok ==>
      (now - o.zero) * l.rate == Min((now - zero) * l.rate, l.burst) - o.granted
  {
    var level := Level(zero, l, now);
    LevelPositive(zero, l, now);
    BalanceOfZeroFor(l, now, level - k);
    BalanceOfZeroFor(l, now, 0.0);
  }

  /** A borrow of nothing or less waits for nothing, and one of more than a burst is refused; both
      leave the bucket alone. */
  lemma BorrowAtTheEdges(zero: real, l: Limits, k: real, now: real)
    requires LimitsOk(l)
    ensures BorrowNap(zero, l, k, now) == None <==> l.burst < k
    ensures k <= 0.0 ==> BorrowNap(zero, l, k, now) == Some(0.0)
    ensures k <= 0.0 || l.burst < k ==> BorrowZero(zero, l, k, now) == zero
    ensures 0.0 < k <= l.burst ==> BorrowZero(zero, l, k, now) > zero
  {
    if k > 0.0 { assert k / l.rate > 0.0; }
  }

  // ----- borrowing -----

  datatype Request = Request(k: real, now: real)

  /** When the tokens reserved by a request may be used. */
  function StartTime(zero: real, l: Limits, r: Request): real
    requires LimitsOk(l)
  {
    Max(r.now, BorrowZero(zero, l, r.k, r.now))
  }

  /** The start time is the request's time plus the nap the call returned. */
  lemma StartIsNowPlusNap(zero: real, l: Limits, r: Request)
    requires LimitsOk(l) && 0.0 < r.k <= l.burst
    ensures BorrowNap(zero, l, r.k, r.now).Some?
    ensures StartTime(zero, l, r) == r.now + BorrowNap(zero, l, r.k, r.now).value
  {
  }

  ghost predicate Requests(reqs: seq<Request>, l: Limits) {
    && (forall i :: 0 <= i < |reqs| ==> 0.0 < reqs[i].k <= l.burst)
    && (forall i, j :: 0 <= i < j < |reqs| ==> reqs[i].now <= reqs[j].now)
  }

  /** `zeroTime` before request `i` of a run. */
  function ZeroBefore(zero: real, l: Limits, reqs: seq<Request>, i: nat): real
    requires LimitsOk(l) && i <= |reqs|
  {
    if i == 0 then zero else BorrowZero(ZeroBefore(zero, l, reqs, i - 1), l, reqs[i - 1].k, reqs[i - 1].now)
  }

  function StartOf(zero: real, l: Limits, reqs: seq<Request>, i: nat): real
    requires LimitsOk(l) && i < |reqs|
  {
    StartTime(ZeroBefore(zero, l, reqs, i), l, reqs[i])
  }

  lemma {:induction false} BorrowIsFifo(zero: real, l: Limits, reqs: seq<Request>, i: nat, j: nat)
    requires LimitsOk(l) && Requests(reqs, l) && i <= j < |reqs|
    ensures StartOf(zero, l, reqs, i) <= StartOf(zero, l, reqs, j)
  {
    if i < j {
      BorrowIsFifo(zero, l, reqs, i, j - 1);
      var z := ZeroBefore(zero, l, reqs, j);
      assert reqs[j].k / l.rate > 0.0;
      assert z <= BorrowZero(z, l, reqs[j].k, reqs[j].now);
    }
  }

  /** The tokens of the requests from `i` on whose reservation starts by time `t`. */
  function ReservedFrom(zero: real, l: Limits, reqs: seq<Request>, i: nat, t: real): real
    requires LimitsOk(l) && i <= |reqs|
    decreases |reqs| - i
  {
    if i == |reqs| then 0.0
    else (if StartOf(zero, l, reqs, i) <= t then reqs[i].k else 0.0) + ReservedFrom(zero, l, reqs, i + 1, t)
  }

  lemma {:induction false} NoneStarts(zero: real, l: Limits, reqs: seq<Request>, i: nat, t: real)
    requires LimitsOk(l) && Requests(reqs, l) && i < |reqs| && t < StartOf(zero, l, reqs, i)
    ensures ReservedFrom(zero, l, reqs, i, t) == 0.0
    decreases |reqs| - i
  {
    if i + 1 < |reqs| {
      BorrowIsFifo(zero, l, reqs, i, i + 1);
      NoneStarts(zero, l, reqs, i + 1, t);
    }
  }

  lemma BalanceMono(z: real, z': real, l: Limits, t: real)
    requires LimitsOk(l) && z <= z'
    ensures Balance(z', l, t) <= Balance(z, l, t)
    ensures Balance(t, l, t) == 0.0
  {
    MulMono(t - z', t - z, l.rate);
  }

  lemma {:induction false} ReservedBound(zero: real, l: Limits, reqs: seq<Request>, i: nat, t: real)
    requires LimitsOk(l) && Requests(reqs, l)
    requires i < |reqs| && StartOf(zero, l, reqs, i) <= t
    ensures ReservedFrom(zero, l, reqs, i, t) <= Balance(Max(ZeroBefore(zero, l, reqs, i), reqs[i].now - l.burst / l.rate), l, t)
    decreases |reqs| - i
  {
    var z := ZeroBefore(zero, l, reqs, i);
    var base := Max(z, reqs[i].now - l.burst / l.rate);
    var z1 := ZeroBefore(zero, l, reqs, i + 1);
    assert z1 == base + reqs[i].k / l.rate && z1 <= t;
    MovedBalance(base, l, t, reqs[i].k);
    assert ReservedFrom(zero, l, reqs, i + 1, t) <= Balance(z1, l, t) by {
      if i + 1 < |reqs| && StartOf(zero, l, reqs, i + 1) <= t {
        ReservedBound(zero, l, reqs, i + 1, t);
        BalanceMono(z1, Max(z1, reqs[i + 1].now - l.burst / l.rate), l, t);
      } else {
        if i + 1 < |reqs| { NoneStarts(zero, l, reqs, i + 1, t); }
        BalanceMono(z1, t, l, t);
      }
    }
  }

  /** From a bucket that was at most full at `now`, the balance can only grow with the rate. */
  lemma AtMostFull(z: real, l: Limits, now: real, t: real)
    requires LimitsOk(l) && now - l.burst / l.rate <= z && now <= t
    ensures Balance(z, l, t) <= l.burst + (t - now) * l.rate
    ensures 0.0 <= (t - now) * l.rate
  {
    var full := ZeroFor(l, now, l.burst);
    BalanceMono(full, z, l, t);
    BalanceOfZeroFor(l, now, l.burst);
    BalanceLater(full, l, now, t);
    Sign(t - now, l.rate);
  }

  /** Borrowing respects the rate: however the requests come, the tokens reserved for use by
      time `t` are at most one burst plus what the rate yields since the first request. */
  lemma {:induction false} BorrowIsBounded(zero: real, l: Limits, reqs: seq<Request>, t: real)
    requires LimitsOk(l) && Requests(reqs, l) && reqs != [] && reqs[0].now <= t
    ensures ReservedFrom(zero, l, reqs, 0, t) <= l.burst + (t - reqs[0].now) * l.rate
  {
    var base := Max(zero, reqs[0].now - l.burst / l.rate);
    AtMostFull(base, l, reqs[0].now, t);
    if StartOf(zero, l, reqs, 0) <= t {
      ReservedBound(zero, l, reqs, 0, t);
    } else {
      NoneStarts(zero, l, reqs, 0, t);
    }
  }

  /** What a call gets from an empty bucket; only a borrow is still served, after a wait. */
  ghost predicate GetsNothing(op: Op, a: Answer) {
    match op
    case OpConsume(_, _) => a == Answer(false, 0.0)
    case OpDrain(_, _) => a == Answer(true, 0.0)
    case OpAvailable(_) => a == Answer(true, 0.0)
    case OpBorrow(_, _) => a.ok ==> a.value > 0.0
    case OpReturn(_) => true
  }

  /** Positive requests that come no later than `start`, in any order; nothing is returned. */
  ghost predicate AllBy(ops: seq<Op>, start: real) {
    forall i :: 0 <= i < |ops| ==> !ops[i].OpReturn? && ops[i].now <= start && (ops[i].OpAvailable? || ops[i].k > 0.0)
  }

  lemma ClosedStep(zero: real, l: Limits, op: Op, start: real)
    requires LimitsOk(l) && start <= zero && AllBy([op], start)
    ensures GetsNothing(op, ZeroAnswer(zero, l, op)) && start <= ZeroAfter(zero, l, op)
  {
    assert op == [op][0];
    if op.OpBorrow? {
      assert op.k / l.rate > 0.0;
    }
  }

  lemma {:induction false} ClosedRun(zero: real, l: Limits, ops: seq<Op>, start: real, i: nat)
    requires LimitsOk(l) && start <= zero && AllBy(ops, start) && i < |ops|
    ensures |ZeroRun(zero, l, ops)| == |ops| && GetsNothing(ops[i], ZeroRun(zero, l, ops)[i])
    decreases |ops|
  {
    ClosedStep(zero, l, ops[0], start);
    var next := ZeroAfter(zero, l, ops[0]);
    if |ops| == 1 {
      assert ops[1..] == [];
    } else {
      ClosedRun(next, l, ops[1..], start, if i == 0 then 0 else i - 1);
    }
  }

  /** Until a reservation that has to wait starts, ordinary calls get nothing: over any run of
      consume, drain, available and further borrow calls up to the start time. */
  lemma {:induction false} BorrowedTimeIsClosed(zero: real, l: Limits, r: Request, ops: seq<Op>, i: nat)
    requires LimitsOk(l) && 0.0 < r.k <= l.burst && BorrowNap(zero, l, r.k, r.now).value > 0.0
    requires AllBy(ops, StartTime(zero, l, r)) && i < |ops|
    ensures var answers := ZeroRun(BorrowZero(zero, l, r.k, r.now), l, ops);
      |answers| == |ops| && GetsNothing(ops[i], answers[i])
  {
    ClosedRun(BorrowZero(zero, l, r.k, r.now), l, ops, StartTime(zero, l, r), i);
  }

  // ----- changing the limits -----

  /** `BasicTokenBucket`: a bucket together with its current limits. */
  class FixedTokenBucket {
    const bucket: TokenBucket
    var limits: Limits

    constructor (limits: Limits, zeroTime: real)
      requires LimitsOk(limits)
      ensures this.limits == limits && bucket.zeroTime == zeroTime && fresh(bucket)
    {
      bucket := new TokenBucket(zeroTime);
      this.limits := limits;
    }

    method SetCapacity(tokens: real, now: real)
      requires LimitsOk(limits)
      modifies bucket
      ensures Balance(bucket.zeroTime, limits, now) == tokens
    {
      BalanceOfZeroFor(limits, now, tokens);
      bucket.zeroTime := ZeroFor(limits, now, tokens);
    }

    /** What is available stays available, up to the new burst size; a debt is forgiven. */
    method Reset(l: Limits, now: real)
      requires LimitsOk(limits) && LimitsOk(l)
      modifies this, bucket
      ensures limits == l
      ensures Available(bucket.zeroTime, l, now) == Min(Available(old(bucket.zeroTime), old(limits), now), l.burst)
      ensures Balance(bucket.zeroTime, l, now) >= 0.0
    {
      LevelPositive(bucket.zeroTime, limits, now);
      var tokens := Available(bucket.zeroTime, limits, now);
      limits := l;
      SetCapacity(tokens, now);
      LevelPositive(bucket.zeroTime, l, now);
    }
  }
}
