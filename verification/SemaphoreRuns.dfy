/** Whole runs of the semaphore: any number of threads, any interleaving. */
module SemaphoreRuns {
  import opened Semaphore
  import opened Wrappers

  datatype Action = Action(t: nat, e: Event)

  type Run = seq<Action>

  /** The state after a run that starts in `s0`, or None when some step was not enabled. */
  function Exec(max: nat, s0: Sys, run: Run): (r: Option<Sys>)
    requires max < WAITER && Amount(s0.word) <= max
    ensures r.Some? ==> |r.value.pcs| == |s0.pcs| && Amount(r.value.word) <= max
  {
    if run == [] then Some(s0)
    else
      var last := run[|run| - 1];
      match Exec(max, s0, run[..|run| - 1])
      case None => None
      case Some(s) => if Enabled(max, s, last.t, last.e) then Some(Next(max, s, last.t, last.e)) else None
  }

  lemma ExecSnoc(max: nat, s0: Sys, run: Run, a: Action)
    requires max < WAITER && Amount(s0.word) <= max
    ensures var m := Exec(max, s0, run);
            Exec(max, s0, run + [a]) ==
            if m.Some? && Enabled(max, m.value, a.t, a.e) then Some(Next(max, m.value, a.t, a.e)) else None
  {
    assert (run + [a])[..|run + [a]| - 1] == run;
  }

  lemma {:induction false} ExecAppend(max: nat, s0: Sys, r1: Run, r2: Run)
    requires max < WAITER && Amount(s0.word) <= max
    ensures var m := Exec(max, s0, r1);
            Exec(max, s0, r1 + r2) == if m.Some? then Exec(max, m.value, r2) else None
    decreases |r2|
  {
    if r2 == [] {
      assert r1 + r2 == r1;
    } else {
      var k := |r2| - 1;
      assert (r1 + r2)[..|r1 + r2| - 1] == r1 + r2[..k];
      ExecAppend(max, s0, r1, r2[..k]);
    }
  }

  // ------------------------------------------------ refinement of a bounded counter

  /** The count an atomic counter would show: the sum of the completed operations. */
  function Balance(run: Run): int {
    if run == [] then 0
    else
      var last := run[|run| - 1];
      Balance(run[..|run| - 1]) + if last.e.OpCas? then Delta(last.e.call) else 0
  }

  /** The operations that thread `t` performed on the count, in order. */
  function Commits(run: Run, t: nat): seq<Call> {
    if run == [] then []
    else
      var last := run[|run| - 1];
      Commits(run[..|run| - 1], t) + if last.t == t && last.e.OpCas? then [last.e.call] else []
  }

  /** The calls of thread `t` that returned true, in order. */
  function Successes(run: Run, t: nat): seq<Call> {
    if run == [] then []
    else
      var last := run[|run| - 1];
      Successes(run[..|run| - 1], t) +
      if last.t == t && last.e.Collect? && last.e.ok then [last.e.call] else []
  }

  /** The operation a thread has performed but not yet reported to its caller. */
  function Unreported(pc: Pc): seq<Call> {
    match pc
    case Waking(call) => [call]
    case Returned(call, true) => [call]
    case _ => []
  }

  lemma {:induction false} PrefixRuns(max: nat, s0: Sys, run: Run, k: nat)
    requires max < WAITER && Amount(s0.word) <= max && k <= |run|
    requires Exec(max, s0, run).Some?
    ensures Exec(max, s0, run[..k]).Some?
  {
    if k == |run| {
      assert run[..k] == run;
    } else {
      assert run[..|run| - 1][..k] == run[..k];
      PrefixRuns(max, s0, run[..|run| - 1], k);
    }
  }

  /** No operation of the run computes a 32-bit sum that wraps. */
  predicate NeverWraps(max: nat, s0: Sys, run: Run)
    requires max < WAITER && Amount(s0.word) <= max && Exec(max, s0, run).Some?
  {
    if run == [] then true
    else
      var prev, last := run[..|run| - 1], run[|run| - 1];
      NeverWraps(max, s0, prev) && (last.e.OpCas? ==> !Wraps(last.e.call, Exec(max, s0, prev).value.word))
  }

  lemma {:induction false} AmountIsBalance(n: nat, max: nat, run: Run)
    requires max < WAITER && Exec(max, Init(n), run).Some? && NeverWraps(max, Init(n), run)
    ensures Amount(Exec(max, Init(n), run).value.word) == Balance(run)
  {
    if run != [] {
      AmountIsBalance(n, max, run[..|run| - 1]);
    }
  }

  /** After the first `k` steps of the run the count is what the operations make it. */
  ghost predicate CountsAt(n: nat, max: nat, run: Run, k: nat)
    requires max < WAITER && k <= |run|
  {
    Exec(max, Init(n), run[..k]).Some? && Amount(Exec(max, Init(n), run[..k]).value.word) == Balance(run[..k])
  }

  lemma {:induction false} WrapsNowhere(n: nat, max: nat, run: Run, k: nat)
    requires max < WAITER && Exec(max, Init(n), run).Some? && k <= |run|
    requires NeverWraps(max, Init(n), run)
    ensures Exec(max, Init(n), run[..k]).Some? && NeverWraps(max, Init(n), run[..k])
  {
    if k == |run| {
      assert run[..k] == run;
    } else {
      assert run[..|run| - 1][..k] == run[..k];
      WrapsNowhere(n, max, run[..|run| - 1], k);
    }
  }

  lemma {:induction false} CountsThenNoWrap(n: nat, max: nat, run: Run)
    requires max < WAITER && Exec(max, Init(n), run).Some?
    requires forall k: nat :: k <= |run| ==> CountsAt(n, max, run, k)
    ensures NeverWraps(max, Init(n), run)
  {
    if run != [] {
      var prev := run[..|run| - 1];
      forall k: nat | k <= |prev|
        ensures CountsAt(n, max, prev, k)
      {
        assert CountsAt(n, max, run, k) && prev[..k] == run[..k];
      }
      CountsThenNoWrap(n, max, prev);
      assert CountsAt(n, max, run, |prev|) && CountsAt(n, max, run, |run|);
      assert run[..|run|] == run;
    }
  }

  /** The low 31 bits are the sum of the operations performed, at every point of the run, exactly
      when no operation wraps; and then that sum stays within the bounds of the counter. */
  lemma RefinesCounter(n: nat, max: nat, run: Run)
    requires max < WAITER && Exec(max, Init(n), run).Some?
    ensures NeverWraps(max, Init(n), run) <==> forall k: nat :: k <= |run| ==> CountsAt(n, max, run, k)
    ensures NeverWraps(max, Init(n), run) ==> forall k :: 0 <= k <= |run| ==> 0 <= Balance(run[..k]) <= max
  {
    if NeverWraps(max, Init(n), run) {
      forall k: nat | k <= |run|
        ensures CountsAt(n, max, run, k) && 0 <= Balance(run[..k]) <= max
      {
        WrapsNowhere(n, max, run, k);
        AmountIsBalance(n, max, run[..k]);
      }
    }
    if forall k: nat :: k <= |run| ==> CountsAt(n, max, run, k) {
      CountsThenNoWrap(n, max, run);
    }
  }

  /** The call cannot wrap, whatever the amount; all consumes, and all produces below 2^31. */
  predicate InRange(max: nat, call: Call) {
    call.op == Produce ==> max + call.v < WORD_SIZE
  }

  /** Calls in range never wrap. */
  lemma {:induction false} InRangeNeverWraps(n: nat, max: nat, run: Run)
    requires max < WAITER && Exec(max, Init(n), run).Some?
    requires forall a :: a in run && a.e.Begin? ==> InRange(max, a.e.call)
    ensures NeverWraps(max, Init(n), run)
    ensures var s := Exec(max, Init(n), run).value;
            forall u :: 0 <= u < n && !s.pcs[u].Idle? ==> InRange(max, s.pcs[u].call)
  {
    if run != [] {
      var last := run[|run| - 1];
      assert last in run;
      InRangeNeverWraps(n, max, run[..|run| - 1]);
    }
  }

  /** A sum that wraps loses count: with limit 1, `produce(1)` and then `produce(2^32 - 1)` both
      return true, and leave the semaphore empty. */
  lemma WrapLosesCount() returns (run: Run)
    ensures Exec(1, Init(1), run) == Some(Init(1))
    ensures Balance(run) == WORD_SIZE && Settled(run) == WORD_SIZE
  {
    var first, second := Call(Produce, 1, 1, false), Call(Produce, WORD_SIZE - 1, 1, false);
    run := CallAlone(1, [], Init(1), first);
    var s := Exec(1, Init(1), run).value;
    run := CallAlone(1, run, s, second);
    assert Exec(1, Init(1), run).value.pcs == Init(1).pcs;
  }

  /** A single thread makes a call that fits. */
  lemma CallAlone(max: nat, before: Run, s: Sys, call: Call) returns (run: Run)
    requires max < WAITER && Exec(max, Init(1), before) == Some(s)
    requires s.pcs == [Idle] && !HasWaiter(s.word) && Fits(max, call, s.word)
    ensures Amount(s.word) <= max
    ensures Exec(max, Init(1), run) == Some(Sys(After(max, call, s.word), [Idle]))
    ensures Balance(run) == Balance(before) + Delta(call) && Settled(run) == Settled(before) + Delta(call)
  {
    var r1, s1 := StepAlone(max, before, s, Begin(call));
    assert s1 == Sys(s.word, [Entering(call)]);
    var r2, s2 := StepAlone(max, r1, s1, Load);
    assert s2 == Sys(s.word, [Loaded(call, s.word)]);
    var r3, s3 := StepAlone(max, r2, s2, OpCas(call));
    assert s3 == Sys(After(max, call, s.word), [Returned(call, true)]);
    var s4;
    run, s4 := StepAlone(max, r3, s3, Collect(call, true));
    assert s4 == Sys(After(max, call, s.word), [Idle]);
  }

  lemma StepAlone(max: nat, before: Run, s: Sys, e: Event) returns (run: Run, s': Sys)
    requires max < WAITER && Exec(max, Init(1), before) == Some(s) && Enabled(max, s, 0, e)
    ensures Amount(s.word) <= max && s' == Next(max, s, 0, e) && Exec(max, Init(1), run) == Some(s')
    ensures Balance(run) == Balance(before) + if e.OpCas? then Delta(e.call) else 0
    ensures Settled(run) == Settled(before) + if e.Collect? && e.ok then Delta(e.call) else 0
  {
    run := before + [Action(0, e)];
    ExecSnoc(max, Init(1), before, Action(0, e));
    assert run[..|run| - 1] == before;
    s' := Next(max, s, 0, e);
  }

  /** What one step adds to the operations and to the reported successes of thread `u`. */
  lemma UnreportedStep(max: nat, s: Sys, t: nat, e: Event, u: nat)
    requires max < WAITER && Amount(s.word) <= max && Enabled(max, s, t, e) && u < |s.pcs|
    ensures var pc, pc' := s.pcs[u], Next(max, s, t, e).pcs[u];
            && Unreported(pc) + (if t == u && e.OpCas? then [e.call] else [])
               == (if t == u && e.Collect? && e.ok then [e.call] else []) + Unreported(pc')
            && (!pc.Idle? && !(t == u && e.Collect?) ==> !pc'.Idle? && pc'.call == pc.call)
  {
    if t == u && (e.OpCas? || e.Collect?) {
      assert Unreported(s.pcs[u]) == if e.Collect? && e.ok then [e.call] else [];
    }
  }

  /** Thread by thread, the operations performed are those of the calls that returned true,
      plus at most the one whose call is just returning. */
  lemma {:induction false} CommitsAreSuccesses(n: nat, max: nat, run: Run, t: nat)
    requires max < WAITER && t < n && Exec(max, Init(n), run).Some?
    ensures Commits(run, t) == Successes(run, t) + Unreported(Exec(max, Init(n), run).value.pcs[t])
  {
    if run != [] {
      var prev, last := run[..|run| - 1], run[|run| - 1];
      CommitsAreSuccesses(n, max, prev, t);
      UnreportedStep(max, Exec(max, Init(n), prev).value, last.t, last.e, t);
    }
  }

  /** While a call is in progress the thread has performed its operation or it has not. */
  lemma {:induction false} DuringCall(max: nat, s: Sys, run: Run, t: nat, call: Call)
    requires max < WAITER && Amount(s.word) <= max && t < |s.pcs|
    requires s.pcs[t] == Entering(call)
    requires Exec(max, s, run).Some?
    requires forall a :: a in run && a.t == t ==> !a.e.Collect?
    ensures var pc := Exec(max, s, run).value.pcs[t];
            !pc.Idle? && pc.call == call && Commits(run, t) == Unreported(pc)
  {
    if run != [] {
      var prev, last := run[..|run| - 1], run[|run| - 1];
      assert last in run;
      DuringCall(max, s, prev, t, call);
      UnreportedStep(max, Exec(max, s, prev).value, last.t, last.e, t);
    }
  }

  /** Between the moment a call begins and the moment its caller takes the result, the calling
      thread performs exactly one operation, the call's own, when the result is true, and none
      when it is false. */
  lemma OneCommitPerCall(n: nat, max: nat, before: Run, t: nat, begun: Call, during: Run, call: Call, ok: bool)
    requires max < WAITER && t < n
    requires var r1 := before + [Action(t, Begin(begun))];
             Exec(max, Init(n), r1 + during + [Action(t, Collect(call, ok))]).Some?
    requires forall a :: a in during && a.t == t ==> !a.e.Collect?
    ensures call == begun
    ensures Commits(during, t) == if ok then [call] else []
  {
    var r1 := before + [Action(t, Begin(begun))];
    ExecSnoc(max, Init(n), r1 + during, Action(t, Collect(call, ok)));
    ExecAppend(max, Init(n), r1, during);
    var s := Exec(max, Init(n), r1).value;
    assert s.pcs[t] == Entering(begun) by {
      ExecSnoc(max, Init(n), before, Action(t, Begin(begun)));
    }
    DuringCall(max, s, during, t, begun);
  }

  // ------------------------------------------------ the balance in terms of returned calls

  /** The sum over the calls, of any thread, that returned true. */
  function Settled(run: Run): int {
    if run == [] then 0
    else
      var last := run[|run| - 1];
      Settled(run[..|run| - 1]) + if last.e.Collect? && last.e.ok then Delta(last.e.call) else 0
  }

  function Outstanding(pcs: seq<Pc>): int {
    if pcs == [] then 0
    else Outstanding(pcs[..|pcs| - 1]) + Owed(pcs[|pcs| - 1])
  }

  function Owed(pc: Pc): int {
    match pc
    case Waking(call) => Delta(call)
    case Returned(call, true) => Delta(call)
    case _ => 0
  }

  lemma {:induction false} OutstandingUpdate(pcs: seq<Pc>, pcs': seq<Pc>, t: nat)
    requires |pcs| == |pcs'| && t < |pcs|
    requires forall u :: 0 <= u < |pcs| && u != t ==> Owed(pcs'[u]) == Owed(pcs[u])
    ensures Outstanding(pcs') == Outstanding(pcs) - Owed(pcs[t]) + Owed(pcs'[t])
  {
    var k := |pcs| - 1;
    if t < k {
      OutstandingUpdate(pcs[..k], pcs'[..k], t);
    } else {
      OutstandingSame(pcs[..k], pcs'[..k]);
    }
  }

  lemma {:induction false} OutstandingSame(pcs: seq<Pc>, pcs': seq<Pc>)
    requires |pcs| == |pcs'|
    requires forall u :: 0 <= u < |pcs| ==> Owed(pcs'[u]) == Owed(pcs[u])
    ensures Outstanding(pcs') == Outstanding(pcs)
  {
    if pcs != [] {
      OutstandingSame(pcs[..|pcs| - 1], pcs'[..|pcs| - 1]);
    }
  }

  lemma {:induction false} OutstandingNone(pcs: seq<Pc>)
    requires forall u :: 0 <= u < |pcs| ==> Owed(pcs[u]) == 0
    ensures Outstanding(pcs) == 0
  {
    if pcs != [] {
      OutstandingNone(pcs[..|pcs| - 1]);
    }
  }

  /** One step that does not wrap moves the count, the settled sum and the outstanding sum together. */
  lemma OutstandingStep(max: nat, s: Sys, t: nat, e: Event)
    requires max < WAITER && Amount(s.word) <= max && Enabled(max, s, t, e)
    requires e.OpCas? ==> !Wraps(e.call, s.word)
    ensures var s' := Next(max, s, t, e);
            Amount(s'.word) - Outstanding(s'.pcs) ==
            Amount(s.word) - Outstanding(s.pcs) + if e.Collect? && e.ok then Delta(e.call) else 0
  {
    OutstandingUpdate(s.pcs, Next(max, s, t, e).pcs, t);
  }

  /** Successful produces minus successful consumes is the count, up to the calls that have done
      their operation and are about to return; with no call in progress it is the count. */
  lemma {:induction false} SettledBalance(n: nat, max: nat, run: Run)
    requires max < WAITER && Exec(max, Init(n), run).Some? && NeverWraps(max, Init(n), run)
    ensures var s := Exec(max, Init(n), run).value;
            && Amount(s.word) == Settled(run) + Outstanding(s.pcs)
            && ((forall u :: 0 <= u < n ==> s.pcs[u].Idle?) ==> Amount(s.word) == Settled(run))
  {
    var s' := Exec(max, Init(n), run).value;
    if run == [] {
      OutstandingNone(s'.pcs);
    } else {
      var prev, last := run[..|run| - 1], run[|run| - 1];
      SettledBalance(n, max, prev);
      OutstandingStep(max, Exec(max, Init(n), prev).value, last.t, last.e);
    }
    if forall u :: 0 <= u < n ==> s'.pcs[u].Idle? {
      OutstandingNone(s'.pcs);
    }
  }

  // ------------------------------------------------ contention

  function Ops(run: Run): nat {
    if run == [] then 0 else Ops(run[..|run| - 1]) + if run[|run| - 1].e.OpCas? then 1 else 0
  }

  function Marks(run: Run): nat {
    if run == [] then 0 else Marks(run[..|run| - 1]) + if run[|run| - 1].e.SetCas? then 1 else 0
  }

  function Failures(run: Run): nat {
    if run == [] then 0 else Failures(run[..|run| - 1]) + if run[|run| - 1].e.CasFails? then 1 else 0
  }

  /** The threads whose loaded value is out of date. */
  function Stale(s: Sys): set<nat> {
    set u: nat | u < |s.pcs| && s.pcs[u].Loaded? && s.pcs[u].cur != s.word
  }

  /** The flag is set at most once more than operations complete. */
  lemma {:induction false} MarksBounded(n: nat, max: nat, run: Run)
    requires max < WAITER && Exec(max, Init(n), run).Some?
    ensures Marks(run) + (if HasWaiter(Exec(max, Init(n), run).value.word) then 0 else 1) <= Ops(run) + 1
  {
    if run != [] {
      MarksBounded(n, max, run[..|run| - 1]);
    }
  }

  /** Only a successful swap makes a loaded value out of date, and a swap that fails for that
      reason drops one such value. */
  lemma StaleKept(max: nat, s: Sys, t: nat, e: Event, u: nat)
    requires max < WAITER && Amount(s.word) <= max && Enabled(max, s, t, e)
    requires u in Stale(Next(max, s, t, e))
    ensures u < |s.pcs| && (e.OpCas? || e.SetCas? ==> u != t)
    ensures !e.OpCas? && !e.SetCas? ==> u in Stale(s) && (e.CasFails? ==> u != t)
  {
  }

  lemma StaleStep(max: nat, s: Sys, t: nat, e: Event)
    requires max < WAITER && Amount(s.word) <= max && Enabled(max, s, t, e)
    ensures var s' := Next(max, s, t, e);
            |Stale(s')| <= if e.OpCas? || e.SetCas? then |s.pcs| - 1
                           else if e.CasFails? then |Stale(s)| - 1
                           else |Stale(s)|
  {
    var after := Stale(Next(max, s, t, e));
    var bound := if e.OpCas? || e.SetCas? then Below(|s.pcs|) - {t}
                 else if e.CasFails? then Stale(s) - {t}
                 else Stale(s);
    assert e.CasFails? ==> t in Stale(s);
    forall u | u in after
      ensures u in bound
    {
      StaleKept(max, s, t, e, u);
    }
    SubsetSize(after, bound);
  }

  lemma OneMore(k: nat, c: nat)
    ensures k * (c + 1) == k * c + k
  {
  }

  /** Genuine compare-and-swap failures are bounded by progress: each successful one can fail at
      most the other `n - 1` threads. */
  lemma {:induction false} FailuresBounded(n: nat, max: nat, run: Run)
    requires max < WAITER && n > 0 && Exec(max, Init(n), run).Some?
    ensures Failures(run) + |Stale(Exec(max, Init(n), run).value)| <= (n - 1) * (Ops(run) + Marks(run))
  {
    if run == [] {
      assert Stale(Init(n)) == {};
    } else {
      var prev, last := run[..|run| - 1], run[|run| - 1];
      var s, s' := Exec(max, Init(n), prev).value, Exec(max, Init(n), run).value;
      var wins := Ops(prev) + Marks(prev);
      FailuresBounded(n, max, prev);
      assert |Stale(s')| <= if last.e.OpCas? || last.e.SetCas? then n - 1
                            else if last.e.CasFails? then |Stale(s)| - 1
                            else |Stale(s)| by {
        StaleStep(max, s, last.t, last.e);
      }
      if last.e.OpCas? || last.e.SetCas? {
        assert Ops(run) + Marks(run) == wins + 1 && Failures(run) == Failures(prev);
        OneMore(n - 1, wins);
      } else {
        assert Ops(run) + Marks(run) == wins;
      }
    }
  }

  // ------------------------------------------------ wake-ups

  /** Every call of the run passes at least `wake`. */
  ghost predicate OffersWake(run: Run, wake: nat) {
    forall a :: a in run && a.e.Begin? ==> a.e.call.wake >= wake
  }

  lemma {:induction false} RunInv(n: nat, max: nat, run: Run)
    requires max < WAITER && n > 0 && OffersWake(run, n - 1)
    requires Exec(max, Init(n), run).Some?
    ensures Inv(max, Exec(max, Init(n), run).value)
  {
    if run != [] {
      var prev, last := run[..|run| - 1], run[|run| - 1];
      assert last in run;
      RunInv(n, max, prev);
      InvStep(max, Exec(max, Init(n), prev).value, last.t, last.e);
    }
  }

  /** No thread is on its way to the word or to a FUTEX_WAKE. */
  ghost predicate Quiet(s: Sys) {
    forall u :: 0 <= u < |s.pcs| ==> s.pcs[u].Idle? || s.pcs[u].Returned? || s.pcs[u].Asleep?
  }

  /** A sleeper whose call the word could satisfy, and nobody left to wake it. */
  ghost predicate Forgotten(max: nat, s: Sys, u: nat) {
    && Quiet(s)
    && u < |s.pcs|
    && s.pcs[u].Asleep?
    && Fits(max, s.pcs[u].call, s.word)
  }

  /** In every reachable state a sleeping thread still sees its expected word, which does not fit
      its call, or a wake-up is pending. */
  lemma NoLostWakeup(n: nat, max: nat, run: Run, u: nat)
    requires max < WAITER && u < n && OffersWake(run, n - 1)
    requires Exec(max, Init(n), run).Some?
    requires Exec(max, Init(n), run).value.pcs[u].Asleep?
    ensures var s := Exec(max, Init(n), run).value;
            || SomeoneWaking(s)
            || (&& s.word == s.pcs[u].cur
                && HasWaiter(s.word)
                && !Fits(max, s.pcs[u].call, s.word))
  {
    RunInv(n, max, run);
  }

  /** A consumer and a producer can only be stuck together when their amounts do not both fit. */
  lemma StuckTogether(n: nat, max: nat, run: Run, c: nat, p: nat)
    requires max < WAITER && c < n && p < n && OffersWake(run, n - 1)
    requires Exec(max, Init(n), run).Some?
    requires var s := Exec(max, Init(n), run).value;
             && Quiet(s)
             && s.pcs[c].Asleep? && s.pcs[c].call.op == Consume
             && s.pcs[p].Asleep? && s.pcs[p].call.op == Produce
    ensures var s := Exec(max, Init(n), run).value;
            && Amount(s.word) < s.pcs[c].call.v
            && Amount(s.word) + s.pcs[p].call.v > max
            && s.pcs[c].call.v + s.pcs[p].call.v >= max + 2
  {
    NoLostWakeup(n, max, run, c);
    NoLostWakeup(n, max, run, p);
  }

  // ------------------------------------------------ between two operations

  /** Steps that need no timeout, interruption or spurious failure, other than the operations. */
  predicate Settling(e: Event) {
    Dependable(e) && Internal(e) && !e.OpCas?
  }

  ghost predicate AllSettling(more: Run) {
    forall a :: a in more ==> Settling(a.e)
  }

  lemma {:induction false} RankOfRun(max: nat, s: Sys, more: Run)
    requires max < WAITER && Amount(s.word) <= max && Exec(max, s, more).Some? && AllSettling(more)
    ensures Rank(Exec(max, s, more).value) + |more| <= Rank(s)
  {
    if more != [] {
      var prev, last := more[..|more| - 1], more[|more| - 1];
      assert last in more;
      RankOfRun(max, s, prev);
      RankFalls(max, Exec(max, s, prev).value, last.t, last.e);
    }
  }

  /** Between two operations the threads, however many, can take only a bounded number of settling
      steps. */
  lemma SettlesDown(n: nat, max: nat, run: Run, more: Run)
    requires max < WAITER && Exec(max, Init(n), run + more).Some? && AllSettling(more)
    ensures |more| <= MaxRank(n)
  {
    ExecAppend(max, Init(n), run, more);
    var s := Exec(max, Init(n), run).value;
    RankOfRun(max, s, more);
    RankBound(s);
  }

  /** When no settling step is left, every call in progress is asleep on a word that does not fit,
      or its very next step is its operation. */
  lemma {:induction false} AtRest(n: nat, max: nat, run: Run, u: nat)
    requires max < WAITER && u < n && OffersWake(run, n - 1) && Exec(max, Init(n), run).Some?
    requires forall a: Action :: Settling(a.e) ==> Exec(max, Init(n), run + [a]).None?
    ensures var s := Exec(max, Init(n), run).value;
            match s.pcs[u]
            case Idle => true
            case Returned(_, _) => true
            case Asleep(call, _) => !Fits(max, call, s.word)
            case Loaded(call, _) => Enabled(max, s, u, OpCas(call))
            case Entering(_) => false
            case Waking(_) => false
  {
    var s := Exec(max, Init(n), run).value;
    forall w: nat | w < n && !s.pcs[w].Idle? && !s.pcs[w].Asleep? && !s.pcs[w].Returned?
      ensures s.pcs[w].Loaded? && Enabled(max, s, w, OpCas(s.pcs[w].call))
    {
      var e := Progress(max, s, w);
      ExecSnoc(max, Init(n), run, Action(w, e));
      assert !Settling(Action(w, e).e);
    }
    if s.pcs[u].Asleep? {
      NoLostWakeup(n, max, run, u);
    }
  }
}
