/** `consume` and `produce` as the loops the program runs, against a shared word that the other
    threads keep changing. What the other threads and the kernel do is an arbitrary schedule; a
    schedule may be too short for the call to finish. Every access is recorded, and the record
    is a run of the step machine. */
module SemaphoreCode {
  import Bits
  import opened Semaphore
  import opened SemaphoreAttempts
  import opened SemaphoreRuns
  import opened Wrappers

  /** The run has grown, and the new steps of thread `t` all belong to the inside of a call. */
  predicate Grows(before: Run, after: Run, t: nat) {
    && before <= after
    && forall j :: |before| <= j < |after| && after[j].t == t ==> Internal(after[j].e)
  }

  /** `cur & !WAITER` and `(cur & WAITER) == WAITER` */
  method Unpack(cur: Word) returns (amount: nat, hasWaiter: bool)
    ensures amount == Amount(cur) && hasWaiter == HasWaiter(cur)
  {
    WordMasks(cur);
    amount := Bits.And(cur, Bits.Not(WAITER, 32));
    hasWaiter := Bits.And(cur, WAITER) == WAITER;
  }

  /** `cur | WAITER` */
  method Mark(cur: Word) returns (marked: Word)
    ensures marked == WithWaiter(cur)
  {
    WordMasks(cur);
    marked := Bits.Or(cur, WAITER);
  }

  /** The first pass of the loop runs undisturbed. */
  predicate Alone(beforeLoad: Run, rounds: seq<Round>) {
    beforeLoad == [] && rounds != [] && Undisturbed(rounds[0])
  }

  /** Whom FUTEX_WAKE(k) wakes: the preferred ones if that is a possible choice, otherwise the
      first in line. */
  method PickSleepers(s: Sys, k: nat, prefer: set<nat>) returns (woken: set<nat>)
    ensures WakesSome(s, k, woken)
  {
    if WakesSome(s, k, prefer) {
      return prefer;
    }
    woken := {};
    for u := 0 to |s.pcs|
      invariant woken <= Sleepers(s) && |woken| <= k
      invariant |woken| < k ==> forall x: nat :: x < u && x in Sleepers(s) ==> x in woken
      invariant forall x :: x in woken ==> x < u
    {
      if s.pcs[u].Asleep? && |woken| < k {
        woken := woken + {u};
      }
    }
    SubsetSize(woken, Sleepers(s));
    if |woken| < k {
      assert woken == Sleepers(s);
    }
  }

  /** What FUTEX_WAIT tells a pass that ends so. */
  function ResultOf(end: PassEnd): WaitResult {
    match end
    case Dozing => NotYet
    case GaveUp => TimeIsUp
    case _ => TryAgain
  }

  class SharedSemaphore {
    const max: nat
    var word: Word
    var pcs: seq<Pc>
    ghost var trace: Run

    ghost predicate Valid()
      reads this
    {
      max < WAITER && Exec(max, Init(|pcs|), trace) == Some(Sys(word, pcs))
    }

    ghost function Now(): Sys
      reads this
    {
      Sys(word, pcs)
    }

    /** Thread `t` is inside the call that had just begun when the record was `begun`. */
    ghost predicate Running(begun: Run, t: nat)
      reads this
    {
      Valid() && t < |pcs| && Grows(begun, trace, t)
    }

    /** `new(max)`, with the number of threads that are going to share the semaphore. */
    constructor (max: Word, n: nat)
      ensures Valid() && this.max == Limit(max) == max % 0x8000_0000 && word == 0 && trace == []
      ensures pcs == Init(n).pcs
    {
      WordMasks(max);
      this.max := Bits.And(max, Bits.Not(WAITER, 32));
      word := 0;
      pcs := Init(n).pcs;
      trace := [];
    }

    /** Adds a step that has just been taken to the record. */
    ghost method Record(before: Sys, t: nat, e: Event)
      requires max < WAITER && |before.pcs| == |pcs|
      requires Exec(max, Init(|pcs|), trace) == Some(before)
      requires Enabled(max, before, t, e) && Next(max, before, t, e) == Sys(word, pcs)
      modifies this`trace
      ensures Valid() && trace == old(trace) + [Action(t, e)]
    {
      ExecSnoc(max, Init(|pcs|), trace, Action(t, e));
      trace := trace + [Action(t, e)];
    }

    /** What other threads do between two accesses of thread `t`. */
    method Others(t: nat, run: Run)
      requires Valid() && t < |pcs|
      modifies this
      ensures Valid() && |pcs| == old(|pcs|) && Grows(old(trace), trace, t)
      ensures Amount(old(word)) <= max && Now() == Play(max, old(Now()), t, run)
    {
      for i := 0 to |run|
        invariant Valid() && |pcs| == old(|pcs|) && Grows(old(trace), trace, t)
        invariant Amount(word) <= max && Amount(old(word)) <= max
        invariant Play(max, old(Now()), t, run) == Play(max, Now(), t, run[i..])
      {
        var a := run[i];
        assert run[i..][0] == a && run[i..][1..] == run[i + 1..];
        if a.t != t && Enabled(max, Sys(word, pcs), a.t, a.e) {
          ghost var before := Sys(word, pcs);
          var next := Next(max, Sys(word, pcs), a.t, a.e);
          word, pcs := next.word, next.pcs;
          Record(before, a.t, a.e);
        }
      }
    }

    /** The call begins. */
    method Enter(t: nat, call: Call)
      requires Valid() && t < |pcs| && pcs[t] == Idle
      modifies this
      ensures Valid() && |pcs| == old(|pcs|) && trace == old(trace) + [Action(t, Begin(call))]
      ensures pcs[t] == Entering(call) && word == old(word)
    {
      ghost var before := Sys(word, pcs);
      pcs := pcs[t := Entering(call)];
      Record(before, t, Begin(call));
    }

    /** The call ends and the caller has its result. */
    method Leave(t: nat, call: Call, ok: bool)
      requires Valid() && t < |pcs| && pcs[t] == Returned(call, ok)
      modifies this
      ensures Valid() && |pcs| == old(|pcs|) && trace == old(trace) + [Action(t, Collect(call, ok))]
      ensures pcs[t] == Idle && word == old(word)
    {
      ghost var before := Sys(word, pcs);
      pcs := pcs[t := Idle];
      Record(before, t, Collect(call, ok));
    }

    /** `count.load` */
    method Load(ghost begun: Run, t: nat, call: Call, others: Run) returns (cur: Word)
      requires Running(begun, t) && pcs[t] == Entering(call)
      modifies this
      ensures Running(begun, t) && |pcs| == old(|pcs|) && Amount(old(word)) <= max
      ensures Now() == Loads(max, old(Now()), t, call, others)
      ensures cur == word && Amount(cur) <= max
    {
      Others(t, others);
      ghost var before := Sys(word, pcs);
      cur := word;
      pcs := pcs[t := Loaded(call, cur)];
      Record(before, t, Event.Load);
    }

    /** `compare_exchange_weak(cur, next)` where `next` carries the new amount. */
    method SwapAmount(t: nat, call: Call, cur: Word, next: Word, round: Round) returns (ok: bool)
      requires Valid() && t < |pcs| && pcs[t] == Loaded(call, cur)
      requires Amount(cur) <= max < WAITER && Fits(max, call, cur) && next == After(max, call, cur)
      modifies this
      ensures Valid() && |pcs| == old(|pcs|) && Grows(old(trace), trace, t) && Amount(old(word)) <= max
      ensures var mid := Play(max, old(Now()), t, round.beforeSwap);
              && (ok <==> mid.word == cur && !round.spurious)
              && Now() == if !ok then At(mid, t, Entering(call))
                          else Sys(next, mid.pcs[t := if HasWaiter(cur) then Waking(call) else Returned(call, true)])
    {
      Others(t, round.beforeSwap);
      ghost var before := Sys(word, pcs);
      ok := word == cur && !round.spurious;
      ghost var e := if ok then OpCas(call) else if word == cur then Spurious else CasFails;
      if ok {
        word := next;
        pcs := pcs[t := if HasWaiter(cur) then Waking(call) else Returned(call, true)];
        assert Next(max, before, t, e) == Sys(word, pcs);
      } else {
        pcs := pcs[t := Entering(call)];
      }
      Record(before, t, e);
    }

    /** `compare_exchange_weak(cur, cur | WAITER)` */
    method SwapMark(t: nat, call: Call, cur: Word, marked: Word, round: Round) returns (ok: bool)
      requires Valid() && t < |pcs| && pcs[t] == Loaded(call, cur)
      requires !Fits(max, call, cur) && !HasWaiter(cur) && marked == WithWaiter(cur)
      modifies this
      ensures Valid() && |pcs| == old(|pcs|) && Grows(old(trace), trace, t) && Amount(old(word)) <= max
      ensures var mid := Play(max, old(Now()), t, round.beforeSwap);
              && (ok <==> mid.word == cur && !round.spurious)
              && Now() == if !ok then At(mid, t, Entering(call)) else Sys(marked, mid.pcs[t := Loaded(call, marked)])
    {
      Others(t, round.beforeSwap);
      ghost var before := Sys(word, pcs);
      ok := word == cur && !round.spurious;
      ghost var e := if ok then SetCas else if word == cur then Spurious else CasFails;
      if ok {
        word := marked;
        pcs := pcs[t := Loaded(call, marked)];
      } else {
        pcs := pcs[t := Entering(call)];
      }
      Record(before, t, e);
    }

    /** `futex(FUTEX_WAKE, wake)` */
    method FutexWake(t: nat, call: Call, round: Round)
      requires Valid() && t < |pcs| && pcs[t] == Waking(call)
      modifies this
      ensures Valid() && |pcs| == old(|pcs|) && Grows(old(trace), trace, t)
      ensures pcs[t] == Returned(call, true)
    {
      Others(t, round.beforeWake);
      ghost var before := Sys(word, pcs);
      var woken := PickSleepers(Sys(word, pcs), call.wake, round.prefer);
      pcs := AfterWake(Sys(word, pcs), t, woken);
      Record(before, t, Wake(woken));
    }

    /** `futex(FUTEX_WAIT, cur, timeout)` */
    method FutexWait(t: nat, call: Call, cur: Word, round: Round) returns (r: WaitResult)
      requires Valid() && t < |pcs| && pcs[t] == Loaded(call, cur)
      requires IntentOf(max, call, cur) == Wait
      modifies this
      ensures Valid() && |pcs| == old(|pcs|) && Grows(old(trace), trace, t) && Amount(old(word)) <= max
      ensures var a := WaitOn(max, old(Now()), t, round); r == ResultOf(a.end) && Now() == a.s
    {
      Others(t, round.beforeWait);
      ghost var before := Sys(word, pcs);
      if word != cur {
        pcs := pcs[t := Entering(call)];
        Record(before, t, WaitRefused);
        return TryAgain;
      }
      pcs := pcs[t := Asleep(call, cur)];
      Record(before, t, Sleep);
      r := SleepThrough(t, call, cur, round.naps);
    }

    method SleepThrough(t: nat, call: Call, cur: Word, naps: seq<Nap>) returns (r: WaitResult)
      requires Valid() && t < |pcs| && pcs[t] == Asleep(call, cur)
      modifies this
      ensures Valid() && |pcs| == old(|pcs|) && Grows(old(trace), trace, t) && Amount(old(word)) <= max
      ensures Slept(Now(), r) == SleepOn(max, old(Now()), t, naps)
    {
      r := NotYet;
      for i := 0 to |naps|
        invariant Valid() && |pcs| == old(|pcs|) && Grows(old(trace), trace, t)
        invariant r == NotYet && pcs[t] == Asleep(call, cur) && Amount(word) <= max && Amount(old(word)) <= max
        invariant SleepOn(max, old(Now()), t, naps) == SleepOn(max, Now(), t, naps[i..])
      {
        assert naps[i..][0] == naps[i] && naps[i..][1..] == naps[i + 1..];
        r := Doze(t, call, cur, naps[i]);
        if r != NotYet {
          return;
        }
      }
    }

    /** One stretch of sleep. */
    method Doze(t: nat, call: Call, cur: Word, nap: Nap) returns (r: WaitResult)
      requires Valid() && t < |pcs| && pcs[t] == Asleep(call, cur)
      modifies this
      ensures Valid() && |pcs| == old(|pcs|) && Grows(old(trace), trace, t) && Amount(old(word)) <= max
      ensures Slept(Now(), r) == DozeOn(max, old(Now()), t, nap)
    {
      Others(t, nap.others);
      ghost var before := Sys(word, pcs);
      if pcs[t].Entering? {
        r := TryAgain;
      } else if nap.ending == Timeout && call.timed {
        pcs := pcs[t := Returned(call, false)];
        Record(before, t, TimedOut);
        r := TimeIsUp;
      } else if nap.ending == Interruption {
        pcs := pcs[t := Entering(call)];
        Record(before, t, Interrupted);
        r := TryAgain;
      } else {
        r := NotYet;
      }
    }

    /** The branch of a loop that performs the operation and, when there was a waiter, wakes. */
    method Operate(ghost begun: Run, t: nat, call: Call, cur: Word, next: Word, round: Round) returns (ok: bool)
      requires Running(begun, t) && pcs[t] == Loaded(call, cur)
      requires Amount(cur) <= max < WAITER && Fits(max, call, cur) && next == After(max, call, cur)
      modifies this
      ensures Running(begun, t) && |pcs| == old(|pcs|) && Amount(old(word)) <= max
      ensures pcs[t] == if ok then Returned(call, true) else Entering(call)
      ensures var a := Pass(max, old(Now()), t, round);
              if ok then a.end == Took else a == Attempt(Now(), Lost)
    {
      var _, hasWaiter := Unpack(cur);
      ok := SwapAmount(t, call, cur, next, round);
      if ok && hasWaiter {
        FutexWake(t, call, round);
      }
    }

    /** The branch of a loop that sets the flag, unless it is up already, and waits. */
    method Block(ghost begun: Run, t: nat, call: Call, cur: Word, round: Round) returns (r: WaitResult)
      requires Running(begun, t) && pcs[t] == Loaded(call, cur) && !Fits(max, call, cur)
      modifies this
      ensures Running(begun, t) && |pcs| == old(|pcs|) && Amount(old(word)) <= max
      ensures var a := Pass(max, old(Now()), t, round); r == ResultOf(a.end) && Now() == a.s && a.end != Took
      ensures match r
              case NotYet => pcs[t].Asleep? && pcs[t].call == call
              case TimeIsUp => pcs[t] == Returned(call, false) && call.timed
              case TryAgain => pcs[t] == Entering(call)
    {
      var _, hasWaiter := Unpack(cur);
      var marked := cur;
      if !hasWaiter {
        marked := Mark(cur);
        var ok := SwapMark(t, call, cur, marked, round);
        if !ok {
          return TryAgain;
        }
      }
      r := FutexWait(t, call, marked, round);
    }

    /** What a call leaves behind. When it returned, its thread performed the operation exactly
        once if the result is true and never if it is false, and only a timed call gives up.
        When the schedule ended first, the call is still in flight. */
    ghost predicate Outcome(before: Run, t: nat, call: Call, r: Option<bool>)
      requires t < |pcs|
      reads this
    {
      var begun := before + [Action(t, Begin(call))];
      && begun <= trace
      && match r
         case Some(ok) =>
           var k := |trace| - 1;
           && |begun| <= k && Grows(begun, trace[..k], t) && trace[k] == Action(t, Collect(call, ok))
           && pcs[t] == Idle
           && Commits(trace[|begun|..k], t) == (if ok then [call] else [])
           && (!ok ==> call.timed)
         case None => Grows(begun, trace, t) && InFlight(pcs[t]) && pcs[t].call == call
    }

    method Finish(t: nat, call: Call, ok: bool, ghost before: Run)
      requires Running(before + [Action(t, Begin(call))], t) && pcs[t] == Returned(call, ok) && (!ok ==> call.timed)
      modifies this
      ensures Valid() && |pcs| == old(|pcs|) && Outcome(before, t, call, Some(ok))
    {
      ghost var begun := before + [Action(t, Begin(call))];
      ghost var during := trace[|begun|..];
      assert trace == begun + during;
      Leave(t, call, ok);
      assert trace[|begun|..|trace| - 1] == during;
      OneCommitPerCall(|pcs|, max, before, t, call, during, call, ok);
    }

    /** Where a pass that ended so has left its thread. */
    ghost predicate Stands(t: nat, call: Call, end: PassEnd)
      requires t < |pcs|
      reads this
    {
      match end
      case Took => pcs[t] == Returned(call, true)
      case Lost => pcs[t] == Entering(call)
      case GaveUp => pcs[t] == Returned(call, false) && call.timed
      case Dozing => pcs[t].Asleep? && pcs[t].call == call
    }

    /** Where a call that answered `r` has left its thread. */
    ghost predicate Answered(t: nat, call: Call, r: Option<bool>)
      requires t < |pcs|
      reads this
    {
      match r
      case Some(ok) => pcs[t] == Returned(call, ok) && (!ok ==> call.timed)
      case None => InFlight(pcs[t]) && pcs[t].call == call
    }

    /** One pass of the loop of `consume`. */
    method TryConsume(ghost begun: Run, t: nat, call: Call, cur: Word, round: Round) returns (end: PassEnd)
      requires Running(begun, t) && pcs[t] == Loaded(call, cur) && Amount(cur) <= max && call.op == Op.Consume
      modifies this
      ensures Running(begun, t) && |pcs| == old(|pcs|) && Amount(old(word)) <= max
      ensures var a := Pass(max, old(Now()), t, round); end == a.end && (end == Lost ==> Now() == a.s)
      ensures Stands(t, call, end)
    {
      var amount, _ := Unpack(cur);
      if amount >= call.v {
        var rest: Word := amount - call.v;
        var ok := Operate(begun, t, call, cur, rest, round);
        return if ok then Took else Lost;
      }
      var result := Block(begun, t, call, cur, round);
      return match result case NotYet => Dozing case TimeIsUp => GaveUp case TryAgain => Lost;
    }

    /** The loop of `consume`, from its first load on. */
    method ConsumeLoop(ghost begun: Run, t: nat, call: Call, beforeLoad: Run, rounds: seq<Round>)
      returns (r: Option<bool>, ghost heads: seq<Sys>)
      requires Running(begun, t) && pcs[t] == Entering(call) && call.op == Op.Consume
      modifies this
      ensures Running(begun, t) && |pcs| == old(|pcs|) && Answered(t, call, r)
      ensures Passes(max, old(Now()), t, call, beforeLoad, rounds, heads, r)
    {
      ghost var start := Now();
      var cur := Load(begun, t, call, beforeLoad);
      heads := [Now()];
      for i := 0 to |rounds|
        invariant Running(begun, t) && |pcs| == old(|pcs|)
        invariant pcs[t] == Loaded(call, cur) && cur == word && Amount(cur) <= max
        invariant Begun(max, start, t, call, beforeLoad, rounds, heads, i) && heads[i] == Now()
      {
        ghost var a := Pass(max, Now(), t, rounds[i]);
        var end := TryConsume(begun, t, call, cur, rounds[i]);
        if end != Lost {
          r := AnswerOf(end);
          Concludes(max, start, t, call, beforeLoad, rounds, heads, r);
          return;
        }
        GoesRound(max, start, t, call, beforeLoad, rounds, heads, i);
        heads := heads + [Loads(max, a.s, t, call, rounds[i].beforeLoad)];
        cur := Load(begun, t, call, rounds[i].beforeLoad);
      }
      r := None;
      Concludes(max, start, t, call, beforeLoad, rounds, heads, None);
    }

    /** `consume(v, wake, timeout)` on thread `t`. */
    method Consume(t: nat, v: Word, wake: Word, timed: bool, beforeLoad: Run, rounds: seq<Round>)
      returns (r: Option<bool>, ghost heads: seq<Sys>)
      requires Valid() && t < |pcs| && pcs[t] == Idle
      modifies this
      ensures Valid() && |pcs| == old(|pcs|)
      ensures var call := Call(Op.Consume, v, wake, timed);
              && Outcome(old(trace), t, call, r)
              && Passes(max, At(old(Now()), t, Entering(call)), t, call, beforeLoad, rounds, heads, r)
              && Justified(max, call, rounds, heads, r)
      ensures Alone(beforeLoad, rounds) && Amount(old(word)) >= v ==> r == Some(true)
      ensures Alone(beforeLoad, rounds) && Amount(old(word)) < v && Expires(rounds[0], timed) ==> r == Some(false)
    {
      var call := Call(Op.Consume, v, wake, timed);
      ghost var begun := trace + [Action(t, Begin(call))];
      ghost var start := At(Now(), t, Entering(call));
      Enter(t, call);
      r, heads := ConsumeLoop(begun, t, call, beforeLoad, rounds);
      PassesJustify(max, start, t, call, beforeLoad, rounds, heads, r);
      if r.Some? {
        Finish(t, call, r.value, old(trace));
      }
    }

    /** One pass of the loop of `produce`. */
    method TryProduce(ghost begun: Run, t: nat, call: Call, cur: Word, round: Round) returns (end: PassEnd)
      requires Running(begun, t) && pcs[t] == Loaded(call, cur) && Amount(cur) <= max && call.op == Op.Produce
      modifies this
      ensures Running(begun, t) && |pcs| == old(|pcs|) && Amount(old(word)) <= max
      ensures var a := Pass(max, old(Now()), t, round); end == a.end && (end == Lost ==> Now() == a.s)
      ensures Stands(t, call, end)
    {
      var amount, _ := Unpack(cur);
      var sum := Add32(amount, call.v);
      if sum <= max {
        var ok := Operate(begun, t, call, cur, sum, round);
        return if ok then Took else Lost;
      }
      var result := Block(begun, t, call, cur, round);
      return match result case NotYet => Dozing case TimeIsUp => GaveUp case TryAgain => Lost;
    }

    /** The loop of `produce`, from its first load on. */
    method ProduceLoop(ghost begun: Run, t: nat, call: Call, beforeLoad: Run, rounds: seq<Round>)
      returns (r: Option<bool>, ghost heads: seq<Sys>)
      requires Running(begun, t) && pcs[t] == Entering(call) && call.op == Op.Produce
      modifies this
      ensures Running(begun, t) && |pcs| == old(|pcs|) && Answered(t, call, r)
      ensures Passes(max, old(Now()), t, call, beforeLoad, rounds, heads, r)
    {
      ghost var start := Now();
      var cur := Load(begun, t, call, beforeLoad);
      heads := [Now()];
      for i := 0 to |rounds|
        invariant Running(begun, t) && |pcs| == old(|pcs|)
        invariant pcs[t] == Loaded(call, cur) && cur == word && Amount(cur) <= max
        invariant Begun(max, start, t, call, beforeLoad, rounds, heads, i) && heads[i] == Now()
      {
        ghost var a := Pass(max, Now(), t, rounds[i]);
        var end := TryProduce(begun, t, call, cur, rounds[i]);
        if end != Lost {
          r := AnswerOf(end);
          Concludes(max, start, t, call, beforeLoad, rounds, heads, r);
          return;
        }
        GoesRound(max, start, t, call, beforeLoad, rounds, heads, i);
        heads := heads + [Loads(max, a.s, t, call, rounds[i].beforeLoad)];
        cur := Load(begun, t, call, rounds[i].beforeLoad);
      }
      r := None;
      Concludes(max, start, t, call, beforeLoad, rounds, heads, None);
    }

    /** `produce(v, wake, timeout)` on thread `t`. */
    method Produce(t: nat, v: Word, wake: Word, timed: bool, beforeLoad: Run, rounds: seq<Round>)
      returns (r: Option<bool>, ghost heads: seq<Sys>)
      requires Valid() && t < |pcs| && pcs[t] == Idle
      modifies this
      ensures Valid() && |pcs| == old(|pcs|)
      ensures var call := Call(Op.Produce, v, wake, timed);
              && Outcome(old(trace), t, call, r)
              && Passes(max, At(old(Now()), t, Entering(call)), t, call, beforeLoad, rounds, heads, r)
              && Justified(max, call, rounds, heads, r)
      ensures Alone(beforeLoad, rounds) && Add32(Amount(old(word)), v) <= max ==> r == Some(true)
      ensures Alone(beforeLoad, rounds) && Add32(Amount(old(word)), v) > max && Expires(rounds[0], timed) ==>
                r == Some(false)
    {
      var call := Call(Op.Produce, v, wake, timed);
      ghost var begun := trace + [Action(t, Begin(call))];
      ghost var start := At(Now(), t, Entering(call));
      Enter(t, call);
      r, heads := ProduceLoop(begun, t, call, beforeLoad, rounds);
      PassesJustify(max, start, t, call, beforeLoad, rounds, heads, r);
      if r.Some? {
        Finish(t, call, r.value, old(trace));
      }
    }
  }
}
