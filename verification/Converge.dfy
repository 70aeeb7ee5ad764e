/** `converge`: the adaptive measurement loop, with the measurement and the time it takes as an
    oracle. Times are nanoseconds and metrics are reals. */
module Converge {
  const U32_MAX: nat := 0xffff_ffff
  const HALF_MAX: nat := 0x7fff_ffff  // u32::MAX / 2

  /** `Failed` stands for an error of the measurement. */
  datatype Measurement = Failed | Measured(metric: real, elapsed: nat)

  /** The n-th measurement, for a given number of iterations. */
  type Oracle = (nat, nat) -> Measurement

  /** `quotient(iters, minTime, elapsed)` is the value that floating-point arithmetic gives for
      `iters * minTime / elapsed`; nothing is assumed about its rounding. */
  datatype Settings = Settings(minTime: nat, maxTime: nat, threshold: real, quotient: (nat, nat, nat) -> real)

  /** `Running`: the loop has made all the rounds it was given and would go on. */
  datatype Outcome = Error | Returned(metric: real) | GaveUp | Running

  function SaturatingMul(x: nat, y: nat): nat {
    if x * y <= U32_MAX then x * y else U32_MAX
  }

  /** `x.ceil() as u32` */
  function CeilU32(x: real): nat {
    var c := -((-x).Floor);
    if c < 0 then 0 else if c <= U32_MAX then c else U32_MAX
  }

  function Max(x: nat, y: nat): nat { if x < y then y else x }

  function Min(x: nat, y: nat): nat { if y < x then y else x }

  /** The number of iterations that follows a round that neither returns nor breaks. */
  function NextIters(s: Settings, iters: nat, elapsed: nat): nat {
    if elapsed < s.minTime && iters < HALF_MAX then
      if elapsed == 0 then SaturatingMul(iters, 100)
      else
        var estimate := CeilU32(s.quotient(iters, s.minTime, elapsed));
        Min(Max(estimate, iters + 1), SaturatingMul(iters, 100))
    else if elapsed < s.maxTime && iters < HALF_MAX then SaturatingMul(iters, 2)
    else iters
  }

  /** What the loop decides after a measurement; `Running` means another round. */
  function Decide(s: Settings, m: Measurement): Outcome {
    if m.Failed? then Error
    else if m.metric >= s.threshold && m.elapsed >= s.minTime then Returned(m.metric)
    else if m.elapsed > s.maxTime then GaveUp
    else Running
  }

  /** After round `i` with `iters` the loop goes on with `next`. */
  ghost predicate GoesOn(s: Settings, oracle: Oracle, i: nat, iters: nat, next: nat) {
    var m := oracle(i, iters);
    Decide(s, m) == Running && next == NextIters(s, iters, m.elapsed)
  }

  ghost predicate Follows(s: Settings, oracle: Oracle, trace: seq<nat>, i: nat)
    requires i + 1 < |trace|
  {
    GoesOn(s, oracle, i, trace[i], trace[i + 1])
  }

  /** `trace` lists the iteration counts of consecutive rounds: each round but the last went on. */
  ghost predicate IsTrace(s: Settings, oracle: Oracle, trace: seq<nat>) {
    && (trace != [] ==> trace[0] == 1)
    && forall i :: 0 <= i < |trace| - 1 ==> Follows(s, oracle, trace, i)
  }

  /** The measurement neither failed, nor took too long, nor convinced after long enough. */
  predicate WentOn(s: Settings, m: Measurement) {
    m.Measured? && m.elapsed <= s.maxTime && (m.metric < s.threshold || m.elapsed < s.minTime)
  }

  /** `converge`, for at most `rounds` measurements. Every measurement but the last leads to another;
      the last decides the outcome. */
  method Converge(s: Settings, oracle: Oracle, rounds: nat) returns (outcome: Outcome, trace: seq<nat>)
    ensures IsTrace(s, oracle, trace) && |trace| <= rounds
    ensures outcome == Running ==> |trace| == rounds
    ensures trace != [] ==> outcome == Decide(s, oracle(|trace| - 1, trace[|trace| - 1]))
    ensures trace == [] ==> outcome == Running
    ensures forall i :: 0 <= i < |trace| - 1 ==> WentOn(s, oracle(i, trace[i]))
    ensures trace != [] ==>
              match oracle(|trace| - 1, trace[|trace| - 1])
              case Failed => outcome == Error
              case Measured(metric, elapsed) =>
                if metric >= s.threshold && elapsed >= s.minTime then outcome == Returned(metric)
                else if elapsed > s.maxTime then outcome == GaveUp
                else outcome == Running
  {
    trace := [];
    var iters: nat := 1;
    for round := 0 to rounds
      invariant |trace| == round && IsTrace(s, oracle, trace)
      invariant forall i :: 0 <= i < round ==> WentOn(s, oracle(i, trace[i]))
      invariant if round == 0 then iters == 1 else GoesOn(s, oracle, round - 1, trace[round - 1], iters)
    {
      var m := oracle(round, iters);
      ghost var before := trace;
      trace := trace + [iters];
      forall i | 0 <= i < round
        ensures Follows(s, oracle, trace, i)
      {
        if i + 1 < round {
          assert Follows(s, oracle, before, i);
        }
      }
      if m.Failed? {
        return Error, trace;
      }
      if m.metric >= s.threshold && m.elapsed >= s.minTime {
        return Returned(m.metric), trace;
      }
      if m.elapsed > s.maxTime {
        return GaveUp, trace;
      }
      if m.elapsed < s.minTime && iters < HALF_MAX {
        if m.elapsed == 0 {
          iters := SaturatingMul(iters, 100);
        } else {
          var estimate := CeilU32(s.quotient(iters, s.minTime, m.elapsed));
          iters := Min(Max(estimate, iters + 1), SaturatingMul(iters, 100));
        }
      } else if m.elapsed < s.maxTime && iters < HALF_MAX {
        iters := SaturatingMul(iters, 2);
      }
    }
    outcome := Running;
  }

  // ---------------------------------------------------------------- growth

  /** Whatever the floating-point quotient: one round never lowers the count, at most multiplies it
      by 100, and stays within u32. A round that goes on leaves the count as it is exactly when the
      count has reached half of u32, or the round took the maximal time to the nanosecond and that
      was long enough. */
  lemma Growth(s: Settings, iters: nat, elapsed: nat)
    requires 1 <= iters <= U32_MAX
    ensures iters <= NextIters(s, iters, elapsed) <= U32_MAX
    ensures NextIters(s, iters, elapsed) <= 100 * iters
    ensures elapsed <= s.maxTime ==>
              (NextIters(s, iters, elapsed) == iters <==> iters >= HALF_MAX || Stalls(s, elapsed))
  {
  }

  /** The count that follows a round that goes on, branch by branch: unchanged from half of u32 on and
      after a stalled round; doubled when the round was long enough but not maximal; a hundredfold
      after an instant round; and otherwise the least count that is larger than the last one and at
      least the quotient, or the hundredfold when that is less. The hundredfold is cut at u32::MAX. */
  lemma NextCount(s: Settings, iters: nat, elapsed: nat)
    requires 1 <= iters <= U32_MAX && elapsed <= s.maxTime
    ensures var next, q := NextIters(s, iters, elapsed), s.quotient(iters, s.minTime, elapsed);
            var cap := if 100 * iters <= 0xffff_ffff then 100 * iters else 0xffff_ffff;
            if iters >= 0xffff_ffff / 2 then next == iters
            else if elapsed >= s.minTime then next == if elapsed < s.maxTime then 2 * iters else iters
            else if elapsed == 0 then next == cap
            else
              && iters < next <= cap
              && (next as real >= q || next == cap)
              && (next == iters + 1 || (next - 1) as real < q)
  {
  }

  /** The same along a trace. */
  lemma TraceCount(s: Settings, oracle: Oracle, trace: seq<nat>, i: nat)
    requires IsTrace(s, oracle, trace) && i + 1 < |trace|
    ensures trace[0] == 1 && 1 <= trace[i] <= U32_MAX && oracle(i, trace[i]).Measured?
    ensures var elapsed := oracle(i, trace[i]).elapsed;
            var q := s.quotient(trace[i], s.minTime, elapsed);
            var cap := if 100 * trace[i] <= 0xffff_ffff then 100 * trace[i] else 0xffff_ffff;
            if trace[i] >= 0xffff_ffff / 2 then trace[i + 1] == trace[i]
            else if elapsed >= s.minTime then trace[i + 1] == if elapsed < s.maxTime then 2 * trace[i] else trace[i]
            else if elapsed == 0 then trace[i + 1] == cap
            else
              && trace[i] < trace[i + 1] <= cap
              && (trace[i + 1] as real >= q || trace[i + 1] == cap)
              && (trace[i + 1] == trace[i] + 1 || (trace[i + 1] - 1) as real < q)
  {
    CountsBounded(s, oracle, trace, i);
    assert Follows(s, oracle, trace, i);
    NextCount(s, trace[i], oracle(i, trace[i]).elapsed);
  }

  /** The round took exactly the maximal time, and no more was asked for. */
  predicate Stalls(s: Settings, elapsed: nat) {
    elapsed == s.maxTime && s.minTime <= s.maxTime
  }

  /** In every run the count stays at least one and within u32, never falls, and grows at most a
      hundredfold in one round. */
  lemma {:induction false} CountsBounded(s: Settings, oracle: Oracle, trace: seq<nat>, i: nat)
    requires IsTrace(s, oracle, trace) && i < |trace|
    ensures 1 <= trace[i] <= U32_MAX
    ensures i + 1 < |trace| ==> trace[i] <= trace[i + 1] <= 100 * trace[i]
  {
    if i > 0 {
      CountsBounded(s, oracle, trace, i - 1);
      assert Follows(s, oracle, trace, i - 1);
      Growth(s, trace[i - 1], oracle(i - 1, trace[i - 1]).elapsed);
    }
    if i + 1 < |trace| {
      assert Follows(s, oracle, trace, i);
      Growth(s, trace[i], oracle(i, trace[i]).elapsed);
    }
  }

  // ---------------------------------------------------------------- how many rounds

  /** How many of the first `n` rounds stalled. */
  function StallCount(s: Settings, oracle: Oracle, trace: seq<nat>, n: nat): nat
    requires n <= |trace|
  {
    if n == 0 then 0
    else
      var m := oracle(n - 1, trace[n - 1]);
      StallCount(s, oracle, trace, n - 1) + if m.Measured? && Stalls(s, m.elapsed) then 1 else 0
  }

  /** Runs of `k` or more iterations exceed the maximal time. */
  ghost predicate Costly(s: Settings, oracle: Oracle, k: nat) {
    forall n: nat, iters: nat ::
      iters >= k && oracle(n, iters).Measured? ==> oracle(n, iters).elapsed > s.maxTime
  }

  lemma {:induction false} CountsClimb(s: Settings, oracle: Oracle, trace: seq<nat>, k: nat, i: nat)
    requires IsTrace(s, oracle, trace) && Costly(s, oracle, k) && 1 <= k <= HALF_MAX && i < |trace|
    ensures trace[i] + StallCount(s, oracle, trace, i) >= i + 1
  {
    if i > 0 {
      CountsClimb(s, oracle, trace, k, i - 1);
      CountsBounded(s, oracle, trace, i - 1);
      assert Follows(s, oracle, trace, i - 1);
      Growth(s, trace[i - 1], oracle(i - 1, trace[i - 1]).elapsed);
    }
  }

  /** If runs of `k` or more iterations exceed the maximal time, the loop ends within `k`
      measurements and one more for each earlier round that stalled. */
  lemma EndsWithin(s: Settings, oracle: Oracle, trace: seq<nat>, k: nat)
    requires IsTrace(s, oracle, trace) && Costly(s, oracle, k) && 1 <= k <= HALF_MAX && trace != []
    ensures var last := |trace| - 1; var bound := k + StallCount(s, oracle, trace, last);
            && |trace| <= bound
            && (|trace| == bound ==> Decide(s, oracle(last, trace[last])) != Running)
  {
    var last := |trace| - 1;
    CountsClimb(s, oracle, trace, k, last);
    if last > 0 {
      assert Follows(s, oracle, trace, last - 1);
      CountsClimb(s, oracle, trace, k, last - 1);
    }
  }

  // ---------------------------------------------------------------- runs without end

  /** The count of round `i`, provided that all rounds before it go on. */
  function CountAt(s: Settings, oracle: Oracle, i: nat): nat {
    if i == 0 then 1
    else
      var iters := CountAt(s, oracle, i - 1);
      match oracle(i - 1, iters)
      case Failed => iters
      case Measured(_, elapsed) => NextIters(s, iters, elapsed)
  }

  predicate RoundGoesOn(s: Settings, oracle: Oracle, i: nat) {
    Decide(s, oracle(i, CountAt(s, oracle, i))) == Running
  }

  /** The loop never ends: every round goes on. */
  ghost predicate Endless(s: Settings, oracle: Oracle) {
    forall i: nat :: RoundGoesOn(s, oracle, i)
  }

  /** The counts of a trace are those of the rounds, and all its rounds but the last go on. */
  lemma {:induction false} TraceCounts(s: Settings, oracle: Oracle, trace: seq<nat>, i: nat)
    requires IsTrace(s, oracle, trace) && i < |trace|
    ensures trace[i] == CountAt(s, oracle, i)
    ensures i + 1 < |trace| ==> RoundGoesOn(s, oracle, i)
  {
    if i > 0 {
      TraceCounts(s, oracle, trace, i - 1);
      assert Follows(s, oracle, trace, i - 1);
    }
    if i + 1 < |trace| {
      assert Follows(s, oracle, trace, i);
    }
  }

  ghost predicate HasTrace(s: Settings, oracle: Oracle, n: nat) {
    exists trace: seq<nat> :: IsTrace(s, oracle, trace) && |trace| == n
  }

  lemma CountsAreTrace(s: Settings, oracle: Oracle, n: nat)
    requires Endless(s, oracle)
    ensures HasTrace(s, oracle, n)
  {
    var trace: seq<nat> := seq(n, i requires 0 <= i => CountAt(s, oracle, i));
    forall i | 0 <= i < |trace| - 1
      ensures Follows(s, oracle, trace, i)
    {
      assert RoundGoesOn(s, oracle, i);
    }
    assert IsTrace(s, oracle, trace);
  }

  /** The loop is endless exactly when it has traces of every length. */
  lemma EndlessTraces(s: Settings, oracle: Oracle)
    ensures Endless(s, oracle) <==> forall n: nat :: HasTrace(s, oracle, n)
  {
    if Endless(s, oracle) {
      forall n: nat
        ensures HasTrace(s, oracle, n)
      {
        CountsAreTrace(s, oracle, n);
      }
    }
    if forall n: nat :: HasTrace(s, oracle, n) {
      forall i: nat
        ensures RoundGoesOn(s, oracle, i)
      {
        assert HasTrace(s, oracle, i + 2);
        var trace: seq<nat> :| IsTrace(s, oracle, trace) && |trace| == i + 2;
        TraceCounts(s, oracle, trace, i);
      }
    }
  }

  lemma CountStep(s: Settings, oracle: Oracle, i: nat)
    requires RoundGoesOn(s, oracle, i) && 1 <= CountAt(s, oracle, i) <= U32_MAX
    ensures CountAt(s, oracle, i) <= CountAt(s, oracle, i + 1) <= U32_MAX
  {
    var iters := CountAt(s, oracle, i);
    Growth(s, iters, oracle(i, iters).elapsed);
  }

  lemma {:induction false} CountAtBounded(s: Settings, oracle: Oracle, i: nat)
    requires forall k: nat :: k < i ==> RoundGoesOn(s, oracle, k)
    ensures 1 <= CountAt(s, oracle, i) <= U32_MAX
  {
    if i > 0 {
      CountAtBounded(s, oracle, i - 1);
      CountStep(s, oracle, i - 1);
    }
  }

  lemma {:induction false} CountAtGrows(s: Settings, oracle: Oracle, i: nat, j: nat)
    requires i <= j && forall k: nat :: k < j ==> RoundGoesOn(s, oracle, k)
    ensures CountAt(s, oracle, i) <= CountAt(s, oracle, j)
    decreases j
  {
    if i < j {
      CountAtGrows(s, oracle, i, j - 1);
      CountAtBounded(s, oracle, j - 1);
      CountStep(s, oracle, j - 1);
    }
  }

  /** A count that never falls and stays within u32 settles. */
  lemma {:induction false} CountSettles(s: Settings, oracle: Oracle, i: nat) returns (r: nat)
    requires Endless(s, oracle)
    ensures forall j: nat :: j >= r ==> CountAt(s, oracle, j) == CountAt(s, oracle, r)
    decreases U32_MAX - CountAt(s, oracle, i)
  {
    if j: nat :| j >= i && CountAt(s, oracle, j) != CountAt(s, oracle, i) {
      CountAtGrows(s, oracle, i, j);
      CountAtBounded(s, oracle, j);
      r := CountSettles(s, oracle, j);
    } else {
      r := i;
    }
  }

  /** The loop reaches round `r` with `c` iterations, and from there on every measurement of `c`
      iterations goes on: all of them short of the exit and, below half of u32, all stalled. */
  ghost predicate Stuck(s: Settings, oracle: Oracle, r: nat, c: nat) {
    && (forall i: nat :: i < r ==> RoundGoesOn(s, oracle, i))
    && CountAt(s, oracle, r) == c
    && forall i: nat :: i >= r ==>
         && Decide(s, oracle(i, c)) == Running
         && (c >= HALF_MAX || Stalls(s, oracle(i, c).elapsed))
  }

  lemma {:induction false} StuckStays(s: Settings, oracle: Oracle, r: nat, c: nat, i: nat)
    requires Stuck(s, oracle, r, c) && i >= r
    ensures CountAt(s, oracle, i) == c
    decreases i
  {
    CountAtBounded(s, oracle, r);
    if i > r {
      StuckStays(s, oracle, r, c, i - 1);
      Growth(s, c, oracle(i - 1, c).elapsed);
    }
  }

  /** Exactly when the loop never ends. */
  lemma EndlessExactly(s: Settings, oracle: Oracle)
    ensures Endless(s, oracle) <==> exists r: nat, c: nat :: Stuck(s, oracle, r, c)
  {
    if Endless(s, oracle) {
      var r := CountSettles(s, oracle, 0);
      var c := CountAt(s, oracle, r);
      forall i: nat | i >= r
        ensures Decide(s, oracle(i, c)) == Running
        ensures c >= HALF_MAX || Stalls(s, oracle(i, c).elapsed)
      {
        assert RoundGoesOn(s, oracle, i) && CountAt(s, oracle, i + 1) == c;
        CountAtBounded(s, oracle, i);
        Growth(s, c, oracle(i, c).elapsed);
      }
      assert Stuck(s, oracle, r, c);
    }
    if r: nat, c: nat :| Stuck(s, oracle, r, c) {
      forall i: nat
        ensures RoundGoesOn(s, oracle, i)
      {
        if i >= r {
          StuckStays(s, oracle, r, c, i);
        }
      }
    }
  }

  /** When no measurement ever convinces, exceeds the maximal time or fails, the loop is endless.
      This covers measurements of exactly the maximal time, which keep the count at one, and
      instant measurements, which drive it up to where it can no longer grow. */
  lemma NeverEnds(s: Settings, oracle: Oracle)
    requires forall n: nat, iters: nat ::
               var m := oracle(n, iters); m.Measured? && m.elapsed <= s.maxTime && m.metric < s.threshold
    ensures Endless(s, oracle)
    ensures exists r: nat, c: nat :: Stuck(s, oracle, r, c)
  {
    forall i: nat
      ensures RoundGoesOn(s, oracle, i)
    {
      var m := oracle(i, CountAt(s, oracle, i));
      assert m.elapsed <= s.maxTime;
    }
    EndlessExactly(s, oracle);
  }

  /** The two ways to be stuck: at one iteration, or at the top. */
  lemma StuckBelowAndAbove(s: Settings, oracle: Oracle, r: nat, c: nat)
    requires Stuck(s, oracle, r, c)
    requires forall n: nat, iters: nat :: var m := oracle(n, iters); m.Measured? && m.metric < s.threshold
    ensures (forall n: nat, iters: nat :: oracle(n, iters).elapsed == s.maxTime) && s.minTime <= s.maxTime ==> c == 1
    ensures (forall n: nat, iters: nat :: oracle(n, iters).elapsed < s.maxTime) ==> c >= HALF_MAX
  {
    assert Decide(s, oracle(r, c)) == Running;
    if (forall n: nat, iters: nat :: oracle(n, iters).elapsed == s.maxTime) && s.minTime <= s.maxTime {
      StaysAtOne(s, oracle, r);
    }
  }

  lemma {:induction false} StaysAtOne(s: Settings, oracle: Oracle, i: nat)
    requires s.minTime <= s.maxTime
    requires forall n: nat, iters: nat :: var m := oracle(n, iters); m.Measured? && m.elapsed == s.maxTime
    ensures CountAt(s, oracle, i) == 1
  {
    if i > 0 {
      StaysAtOne(s, oracle, i - 1);
      var m := oracle(i - 1, 1);
      assert m.elapsed == s.maxTime;
    }
  }

  // ---------------------------------------------------------------- convergence in one step

  lemma Proportional(cost: real, n: real, t: real, e: real, x: real)
    requires n > 0.0 && e > 0.0 && e == cost * n && x * e == n * t
    ensures cost > 0.0 && cost * x == t
  {
    if cost <= 0.0 {
      NotPositive(cost, n);
    }
    assert x * (cost * n) == (cost * x) * n;
    assert (cost * x) * n == t * n;
    assert (cost * x - t) * n == 0.0;
  }

  lemma NotPositive(cost: real, n: real)
    requires cost <= 0.0 && n > 0.0
    ensures cost * n <= 0.0
  {
  }

  lemma Scale(cost: real, x: real, y: real)
    requires cost > 0.0 && x <= y
    ensures cost * x <= cost * y
  {
  }

  lemma LongEnough(cost: real, n: real, t: real, e: real, x: real, y: real)
    requires n > 0.0 && e > 0.0 && e == cost * n && x * e == n * t && x <= y
    ensures cost * y >= t
  {
    Proportional(cost, n, t, e, x);
    Scale(cost, x, y);
  }

  /** When the time is proportional to the count and still too short, and the quotient is exact, the
      next run meets the minimal time, unless the hundredfold or the u32 limit was hit. */
  lemma NextRunLongEnough(s: Settings, iters: nat, elapsed: nat, cost: real)
    requires 1 <= iters < HALF_MAX && elapsed < s.minTime
    requires elapsed as real == cost * iters as real
    requires s.quotient(iters, s.minTime, elapsed) * elapsed as real == iters as real * s.minTime as real
    ensures var next := NextIters(s, iters, elapsed);
            || next == 100 * iters
            || next == U32_MAX
            || cost * next as real >= s.minTime as real
  {
    if elapsed > 0 {
      var x, next := s.quotient(iters, s.minTime, elapsed), NextIters(s, iters, elapsed);
      Growth(s, iters, elapsed);
      if next != 100 * iters && next != U32_MAX {
        assert CeilU32(x) <= next < U32_MAX;
        LongEnough(cost, iters as real, s.minTime as real, elapsed as real, x, next as real);
      }
    }
  }
}
