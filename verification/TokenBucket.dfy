/** The token bucket used by one thread at a time. Its whole state is `zeroTime`, the moment at
    which it would have been empty; times, rates and amounts are exact reals. */
module TokenBuckets {
  import opened Options

  function Min(a: real, b: real): real { if a <= b then a else b }
  function Max(a: real, b: real): real { if a <= b then b else a }

  /** A rate and a burst size, both positive as the original asserts. */
  datatype Limits = Limits(rate: real, burst: real)

  predicate LimitsOk(l: Limits) { l.rate > 0.0 && l.burst > 0.0 }

  /** The uncapped balance at time `now`; negative while tokens are borrowed. */
  function Balance(zero: real, l: Limits, now: real): real {
    (now - zero) * l.rate
  }

  function Level(zero: real, l: Limits, now: real): real {
    Min(Balance(zero, l, now), l.burst)
  }

  /** The `zeroTime` at which the level is `tokens` at time `now`. */
  function ZeroFor(l: Limits, now: real, tokens: real): real
    requires LimitsOk(l)
  {
    now - tokens / l.rate
  }

  lemma DivMul(a: real, r: real)
    requires r != 0.0
    ensures a / r * r == a
  {
  }

  lemma BalanceOfZeroFor(l: Limits, now: real, tokens: real)
    requires LimitsOk(l)
    ensures Balance(ZeroFor(l, now, tokens), l, now) == tokens
  {
    DivMul(tokens, l.rate);
  }

  lemma BalanceLater(zero: real, l: Limits, t: real, now: real)
    ensures Balance(zero, l, now) == Balance(zero, l, t) + (now - t) * l.rate
  {
  }

  lemma MulMono(a: real, b: real, r: real)
    requires r > 0.0
    ensures a <= b <==> a * r <= b * r
    ensures a < b <==> a * r < b * r
  {
    if a < b { assert (b - a) * r > 0.0; }
    if b < a { assert (a - b) * r > 0.0; }
  }

  lemma Sign(a: real, r: real)
    requires r > 0.0
    ensures a > 0.0 <==> a * r > 0.0
    ensures a == 0.0 <==> a * r == 0.0
  {
    if a < 0.0 { assert -a * r > 0.0; }
  }

  lemma MovedBalance(zero: real, l: Limits, now: real, tokens: real)
    requires LimitsOk(l)
    ensures Balance(zero + tokens / l.rate, l, now) == Balance(zero, l, now) - tokens
  {
    DivMul(tokens, l.rate);
    assert (now - (zero + tokens / l.rate)) * l.rate == (now - zero) * l.rate - tokens / l.rate * l.rate;
  }

  // ----- what each call computes -----

  datatype Outcome = Outcome(zero: real, ok: bool, granted: real)

  /** One round of the compare-exchange loop on a loaded `zeroTime`, with the callback of
      `consume` or, if `drain`, of `consumeOrDrain`. */
  function Attempt(zero: real, l: Limits, drain: bool, k: real, now: real): Outcome
    requires LimitsOk(l)
  {
    var tokens := Level(zero, l, now);
    if k <= tokens then Outcome(ZeroFor(l, now, tokens - k), true, k)
    else if drain then Outcome(ZeroFor(l, now, 0.0), true, tokens)
    else Outcome(zero, false, 0.0)
  }

  function Consume(zero: real, l: Limits, k: real, now: real): Outcome
    requires LimitsOk(l)
  {
    if now <= zero then Outcome(zero, false, 0.0) else Attempt(zero, l, false, k, now)
  }

  function Drain(zero: real, l: Limits, k: real, now: real): Outcome
    requires LimitsOk(l)
  {
    if now <= zero then Outcome(zero, false, 0.0) else Attempt(zero, l, true, k, now)
  }

  function Available(zero: real, l: Limits, now: real): real {
    if now <= zero then 0.0 else Level(zero, l, now)
  }

  function Return(zero: real, l: Limits, tokens: real): real
    requires LimitsOk(l)
  {
    zero - tokens / l.rate
  }

  /** A granted borrow pushes `zeroTime` ahead by what the request costs. */
  function BorrowZero(zero: real, l: Limits, k: real, now: real): real
    requires LimitsOk(l)
  {
    if k <= 0.0 || l.burst < k then zero else Max(zero, now - l.burst / l.rate) + k / l.rate
  }

  function BorrowNap(zero: real, l: Limits, k: real, now: real): Option<real>
    requires LimitsOk(l)
  {
    if l.burst < k then None
    else if k <= 0.0 then Some(0.0)
    else Some(Max(0.0, BorrowZero(zero, l, k, now) - now))
  }

  class TokenBucket {
    var zeroTime: real

    constructor (zeroTime: real)
      ensures this.zeroTime == zeroTime
    {
      this.zeroTime := zeroTime;
    }

    /** The compare-exchange loop with the callback of `consume` or of `consumeOrDrain`.
        `spurious` is how often the weak compare-exchange fails for no reason. */
    method ConsumeImpl(drain: bool, k: real, l: Limits, now: real, spurious: nat) returns (ok: bool, consumed: real)
      requires LimitsOk(l)
      modifies this
      ensures Outcome(zeroTime, ok, consumed) == Attempt(old(zeroTime), l, drain, k, now)
    {
      var zeroTimeOld := zeroTime;
      var failures := spurious;
      while true
        invariant zeroTimeOld == zeroTime == old(zeroTime)
        decreases failures
      {
        var tokens := Level(zeroTimeOld, l, now);
        if tokens < k {
          if !drain { return false, 0.0; }
          consumed, tokens := tokens, 0.0;
        } else {
          consumed, tokens := k, tokens - k;
        }
        var zeroTimeNew := ZeroFor(l, now, tokens);
        if failures == 0 {
          zeroTime := zeroTimeNew;
          return true, consumed;
        }
        failures := failures - 1;
        zeroTimeOld := zeroTime;
      }
    }

    method TryConsume(k: real, l: Limits, now: real, spurious: nat) returns (ok: bool)
      requires LimitsOk(l)
      modifies this
      ensures Consume(old(zeroTime), l, k, now) == Outcome(zeroTime, ok, if ok then k else 0.0)
    {
      if now <= zeroTime { return false; }
      var r, _ := ConsumeImpl(false, k, l, now, spurious);
      ok := r;
    }

    method ConsumeOrDrain(k: real, l: Limits, now: real, spurious: nat) returns (consumed: real)
      requires LimitsOk(l)
      modifies this
      ensures zeroTime == Drain(old(zeroTime), l, k, now).zero
      ensures consumed == Drain(old(zeroTime), l, k, now).granted
    {
      if now <= zeroTime { return 0.0; }
      var _, c := ConsumeImpl(true, k, l, now, spurious);
      consumed := c;
    }

    method ReturnTokensImpl(tokens: real, l: Limits, spurious: nat) returns (zeroTimeNew: real)
      requires LimitsOk(l)
      modifies this
      ensures zeroTime == zeroTimeNew == Return(old(zeroTime), l, tokens)
    {
      var zeroTimeOld := zeroTime;
      var failures := spurious;
      while true
        invariant zeroTimeOld == zeroTime == old(zeroTime)
        decreases failures
      {
        zeroTimeNew := zeroTimeOld - tokens / l.rate;
        if failures == 0 {
          zeroTime := zeroTimeNew;
          return;
        }
        failures := failures - 1;
        zeroTimeOld := zeroTime;
      }
    }

    /** Ends within two rounds: a partly granted request leaves the bucket drained, and the
        second round then borrows the rest. */
    method ConsumeWithBorrow(k: real, l: Limits, now: real, spurious: nat) returns (nap: Option<real>, rounds: nat)
      requires LimitsOk(l)
      modifies this
      ensures zeroTime == BorrowZero(old(zeroTime), l, k, now)
      ensures nap == BorrowNap(old(zeroTime), l, k, now)
      ensures rounds <= 2
    {
      rounds := 0;
      if l.burst < k { return None, rounds; }
      var toConsume := k;
      while toConsume > 0.0
        invariant rounds <= 1
        invariant rounds == 0 ==> toConsume == k && zeroTime == old(zeroTime)
        invariant rounds == 1 ==> AfterFirstRound(old(zeroTime), l, k, now, zeroTime, toConsume)
        decreases 2 - rounds
      {
        rounds := rounds + 1;
        ghost var before := zeroTime;
        var consumed := ConsumeOrDrain(toConsume, l, now, spurious);
        if consumed > 0.0 {
          FirstRound(before, l, toConsume, now);
          toConsume := toConsume - consumed;
        } else {
          NothingGranted(before, l, toConsume, now);
          var zeroTimeNew := ReturnTokensImpl(-toConsume, l, spurious);
          BorrowRest(old(zeroTime), l, k, now, before, toConsume);
          return Some(Max(0.0, zeroTimeNew - now)), rounds;
        }
      }
      if rounds == 1 { GrantedAtOnce(old(zeroTime), l, k, now, zeroTime); }
      return Some(0.0), rounds;
    }
  }

  /** Between the two rounds: all granted, or drained with the rest still wanted. */
  ghost predicate AfterFirstRound(zero: real, l: Limits, k: real, now: real, z: real, rest: real)
    requires LimitsOk(l)
  {
    && zero < now && k > 0.0
    && var tokens := Level(zero, l, now);
      if k <= tokens then rest == 0.0 && z == ZeroFor(l, now, tokens - k)
      else rest == k - tokens && rest > 0.0 && z == now
  }

  lemma FirstRound(zero: real, l: Limits, k: real, now: real)
    requires LimitsOk(l) && k > 0.0 && Drain(zero, l, k, now).granted > 0.0
    ensures AfterFirstRound(zero, l, k, now, Drain(zero, l, k, now).zero, k - Drain(zero, l, k, now).granted)
  {
  }

  lemma LevelPositive(zero: real, l: Limits, now: real)
    requires LimitsOk(l)
    ensures Level(zero, l, now) > 0.0 <==> zero < now
    ensures now - Level(zero, l, now) / l.rate == Max(zero, now - l.burst / l.rate)
  {
    Sign(now - zero, l.rate);
    DivMul(l.burst, l.rate);
    MulMono(now - zero, l.burst / l.rate, l.rate);
    assert Balance(zero, l, now) / l.rate == now - zero;
  }

  lemma NothingGranted(zero: real, l: Limits, k: real, now: real)
    requires LimitsOk(l) && k > 0.0 && Drain(zero, l, k, now).granted <= 0.0
    ensures now <= zero && Drain(zero, l, k, now).zero == zero
  {
    LevelPositive(zero, l, now);
  }

  lemma BorrowRest(zero: real, l: Limits, k: real, now: real, z: real, rest: real)
    requires LimitsOk(l) && 0.0 < k <= l.burst && now <= z
    requires (z == zero && rest == k) || AfterFirstRound(zero, l, k, now, z, rest)
    requires rest > 0.0
    ensures Return(z, l, -rest) == BorrowZero(zero, l, k, now)
  {
    LevelPositive(zero, l, now);
    if z == zero && rest == k {
      assert l.burst / l.rate > 0.0;
      assert -(-rest / l.rate) == rest / l.rate;
    } else {
      var tokens := Level(zero, l, now);
      assert -(-rest / l.rate) == k / l.rate - tokens / l.rate;
    }
  }

  lemma GrantedAtOnce(zero: real, l: Limits, k: real, now: real, z: real)
    requires LimitsOk(l) && k <= l.burst && AfterFirstRound(zero, l, k, now, z, 0.0)
    ensures z == BorrowZero(zero, l, k, now) && z <= now
  {
    LevelPositive(zero, l, now);
    var tokens := Level(zero, l, now);
    assert (tokens - k) / l.rate == tokens / l.rate - k / l.rate;
    DivMul(tokens - k, l.rate);
    Sign((tokens - k) / l.rate, l.rate);
  }
}
