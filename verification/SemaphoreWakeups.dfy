/** Exactly when `wake` is large enough: a run that forgets a sleeper exists if and only if some
    other thread can be left asleep by a FUTEX_WAKE. */
module SemaphoreWakeups {
  import opened Semaphore
  import opened SemaphoreRuns
  import opened Wrappers

  ghost predicate Uniform(run: Run, wake: nat) {
    forall a :: a in run && a.e.Begin? ==> a.e.call.wake == wake
  }

  /** No run in which every call passes `wake` ever forgets a sleeper. */
  ghost predicate NeverForgets(n: nat, max: nat, wake: nat)
    requires max < WAITER
  {
    forall run: Run, u: nat ::
      Uniform(run, wake) && Exec(max, Init(n), run).Some? ==> !Forgotten(max, Exec(max, Init(n), run).value, u)
  }

  /** The exact condition, for every number of threads, every limit and every `wake`. */
  lemma ExactWakeCondition(n: nat, max: nat, wake: nat)
    requires n >= 1 && wake >= 1 && max < WAITER
    ensures NeverForgets(n, max, wake) <==> max == 0 || wake >= n - 1
  {
    if wake >= n - 1 {
      EnoughWakes(n, max, wake);
    } else if max == 0 {
      NothingToTake(n, wake);
    } else {
      var run := Forget(n, max, wake);
      assert Forgotten(max, Exec(max, Init(n), run).value, wake);
    }
  }

  lemma EnoughWakes(n: nat, max: nat, wake: nat)
    requires n >= 1 && wake >= n - 1 && max < WAITER
    ensures NeverForgets(n, max, wake)
  {
    forall run: Run, u: nat | Uniform(run, wake) && Exec(max, Init(n), run).Some?
      ensures !Forgotten(max, Exec(max, Init(n), run).value, u)
    {
      var s := Exec(max, Init(n), run).value;
      if u < n && s.pcs[u].Asleep? {
        NoLostWakeup(n, max, run, u);
      }
    }
  }

  // ------------------------------------------------ a semaphore with no room at all

  ghost predicate SleepersUnfit(max: nat, s: Sys) {
    forall u :: 0 <= u < |s.pcs| && (s.pcs[u].Asleep? || s.pcs[u].Loaded?) ==>
      && Amount(s.pcs[u].cur) <= max
      && (s.pcs[u].Asleep? ==> !Fits(max, s.pcs[u].call, s.pcs[u].cur))
  }

  lemma UnfitStep(max: nat, s: Sys, t: nat, e: Event)
    requires max < WAITER && Amount(s.word) <= max && Enabled(max, s, t, e) && SleepersUnfit(max, s)
    ensures SleepersUnfit(max, Next(max, s, t, e))
  {
  }

  lemma {:induction false} RunUnfit(n: nat, max: nat, run: Run)
    requires max < WAITER && Exec(max, Init(n), run).Some?
    ensures SleepersUnfit(max, Exec(max, Init(n), run).value)
  {
    if run != [] {
      var prev, last := run[..|run| - 1], run[|run| - 1];
      RunUnfit(n, max, prev);
      UnfitStep(max, Exec(max, Init(n), prev).value, last.t, last.e);
    }
  }

  lemma NothingToTake(n: nat, wake: nat)
    ensures NeverForgets(n, 0, wake)
  {
    forall run: Run, u: nat | Uniform(run, wake) && Exec(0, Init(n), run).Some?
      ensures !Forgotten(0, Exec(0, Init(n), run).value, u)
    {
      RunUnfit(n, 0, run);
    }
  }

  // ------------------------------------------------ the run that forgets

  /** A run of the machine, together with the state it reaches. */
  ghost predicate Reaches(n: nat, max: nat, wake: nat, run: Run, s: Sys)
    requires max < WAITER
  {
    Uniform(run, wake) && Exec(max, Init(n), run) == Some(s)
  }

  lemma Then(n: nat, max: nat, wake: nat, run: Run, s: Sys, t: nat, e: Event) returns (run': Run, s': Sys)
    requires max < WAITER && Reaches(n, max, wake, run, s) && Enabled(max, s, t, e)
    requires e.Begin? ==> e.call.wake == wake
    ensures Amount(s.word) <= max && s' == Next(max, s, t, e) && Reaches(n, max, wake, run', s')
  {
    ExecSnoc(max, Init(n), run, Action(t, e));
    run', s' := run + [Action(t, e)], Next(max, s, t, e);
  }

  /** A thread that is about to load an unflagged word that fits its call completes the call. */
  lemma CallThrough(n: nat, max: nat, wake: nat, run: Run, s: Sys, t: nat, call: Call) returns (run': Run, s': Sys)
    requires max < WAITER && Reaches(n, max, wake, run, s) && Amount(s.word) <= max
    requires t < |s.pcs| && s.pcs[t] == Entering(call) && !HasWaiter(s.word) && Fits(max, call, s.word)
    ensures s' == Sys(After(max, call, s.word), s.pcs[t := Idle]) && Reaches(n, max, wake, run', s')
  {
    run', s' := Then(n, max, wake, run, s, t, Load);
    run', s' := Then(n, max, wake, run', s', t, OpCas(call));
    run', s' := Then(n, max, wake, run', s', t, Collect(call, true));
    assert s'.pcs == s.pcs[t := Idle];
  }

  /** A thread that begins a call that does not fit falls asleep. */
  lemma FallAsleep(n: nat, max: nat, wake: nat, run: Run, s: Sys, t: nat, call: Call) returns (run': Run, s': Sys)
    requires max < WAITER && Reaches(n, max, wake, run, s) && call.wake == wake
    requires t < |s.pcs| && s.pcs[t].Idle? && !Fits(max, call, s.word)
    ensures var w := WithWaiter(s.word);
            s' == Sys(w, s.pcs[t := Asleep(call, w)]) && Reaches(n, max, wake, run', s')
  {
    run', s' := Then(n, max, wake, run, s, t, Begin(call));
    run', s' := Then(n, max, wake, run', s', t, Load);
    if !HasWaiter(s.word) {
      run', s' := Then(n, max, wake, run', s', t, SetCas);
    }
    var w := WithWaiter(s.word);
    assert s' == Sys(w, s.pcs[t := Loaded(call, w)]);
    run', s' := Then(n, max, wake, run', s', t, Sleep);
    assert s'.pcs == s.pcs[t := Asleep(call, w)];
  }

  function Take(wake: nat): Call { Call(Consume, 1, wake, false) }

  function Give(wake: nat): Call { Call(Produce, 1, wake, false) }

  /** The first `k` threads sleep in `consume(1)`. */
  function Sleeping(n: nat, wake: nat, k: nat): Sys {
    Sys(if k == 0 then 0 else WAITER,
        seq(n, i => if i < k then Asleep(Take(wake), WAITER) else Idle))
  }

  lemma {:induction false} PutToSleep(n: nat, max: nat, wake: nat, k: nat) returns (run: Run)
    requires max < WAITER && k <= n
    ensures Reaches(n, max, wake, run, Sleeping(n, wake, k))
  {
    if k == 0 {
      run := [];
      assert Init(n).pcs == Sleeping(n, wake, 0).pcs;
    } else {
      run := PutToSleep(n, max, wake, k - 1);
      var s := Sleeping(n, wake, k - 1);
      run, s := FallAsleep(n, max, wake, run, s, k - 1, Take(wake));
      assert s.pcs == Sleeping(n, wake, k).pcs;
    }
  }

  /** The count is one; `k` of the woken threads are done, the rest are on their way, and thread
      `wake` still sleeps. */
  function Draining(n: nat, wake: nat, k: nat): Sys {
    Sys(1, seq(n, i => if k <= i < wake then Entering(Take(wake))
                       else if i == wake then Asleep(Take(wake), WAITER)
                       else Idle))
  }

  /** A producer completes its operation on the flagged, empty word. */
  lemma GiveOne(n: nat, max: nat, wake: nat, run: Run, s: Sys, t: nat) returns (run': Run, s': Sys)
    requires 1 <= max < WAITER && Reaches(n, max, wake, run, s)
    requires t < |s.pcs| && s.pcs[t].Idle? && s.word == WAITER
    ensures s' == Sys(1, s.pcs[t := Waking(Give(wake))]) && Reaches(n, max, wake, run', s')
  {
    var call := Give(wake);
    run', s' := Then(n, max, wake, run, s, t, Begin(call));
    run', s' := Then(n, max, wake, run', s', t, Load);
    assert s' == s.(pcs := s.pcs[t := Loaded(call, WAITER)]);
    run', s' := Then(n, max, wake, run', s', t, OpCas(call));
    assert s'.pcs == s.pcs[t := Waking(call)];
  }

  /** The state just before the producer's FUTEX_WAKE. */
  function Given(n: nat, wake: nat): Sys
    requires wake + 2 <= n
  {
    Sys(1, Sleeping(n, wake, wake + 1).pcs[wake + 1 := Waking(Give(wake))])
  }

  lemma {:induction false} MayWakeFirst(n: nat, wake: nat)
    requires wake + 2 <= n
    ensures WakesSome(Given(n, wake), wake, Below(wake))
  {
    var s := Given(n, wake);
    assert forall u: nat :: u < n ==> (s.pcs[u].Asleep? <==> u < wake + 1);
    assert Sleepers(s) == Below(wake + 1);
  }

  lemma FirstWoken(n: nat, wake: nat)
    requires wake + 2 <= n && WakesSome(Given(n, wake), wake, Below(wake))
    ensures AfterWake(Given(n, wake), wake + 1, Below(wake))[wake + 1 := Idle] == Draining(n, wake, 0).pcs
  {
    var a, b := AfterWake(Given(n, wake), wake + 1, Below(wake))[wake + 1 := Idle], Draining(n, wake, 0).pcs;
    forall u | 0 <= u < n
      ensures a[u] == b[u]
    {
    }
  }

  lemma WakeSome(n: nat, max: nat, wake: nat) returns (run: Run)
    requires 1 <= max < WAITER && wake + 2 <= n
    ensures Reaches(n, max, wake, run, Draining(n, wake, 0))
  {
    var t := wake + 1;
    run := PutToSleep(n, max, wake, wake + 1);
    var s := Sleeping(n, wake, wake + 1);
    run, s := GiveOne(n, max, wake, run, s, t);
    assert s == Given(n, wake);
    MayWakeFirst(n, wake);
    FirstWoken(n, wake);
    run, s := WakeFirst(n, max, wake, run);
  }

  lemma WakeFirst(n: nat, max: nat, wake: nat, run: Run) returns (run': Run, s': Sys)
    requires 1 <= max < WAITER && wake + 2 <= n
    requires Reaches(n, max, wake, run, Given(n, wake)) && WakesSome(Given(n, wake), wake, Below(wake))
    ensures s' == Sys(1, AfterWake(Given(n, wake), wake + 1, Below(wake))[wake + 1 := Idle])
    ensures Reaches(n, max, wake, run', s')
  {
    run', s' := Then(n, max, wake, run, Given(n, wake), wake + 1, Wake(Below(wake)));
    run', s' := Then(n, max, wake, run', s', wake + 1, Collect(Give(wake), true));
  }

  lemma {:induction false} Drain(n: nat, max: nat, wake: nat, k: nat) returns (run: Run)
    requires 1 <= max < WAITER && wake + 2 <= n && k <= wake
    ensures Reaches(n, max, wake, run, Draining(n, wake, k))
  {
    if k == 0 {
      run := WakeSome(n, max, wake);
    } else {
      run := Drain(n, max, wake, k - 1);
      var s := Draining(n, wake, k - 1);
      run, s := CallThrough(n, max, wake, run, s, k - 1, Take(wake));
      run, s := Then(n, max, wake, run, s, wake + 1, Begin(Give(wake)));
      run, s := CallThrough(n, max, wake, run, s, wake + 1, Give(wake));
      assert s.pcs == Draining(n, wake, k).pcs;
    }
  }

  lemma Forget(n: nat, max: nat, wake: nat) returns (run: Run)
    requires 1 <= max < WAITER && wake + 2 <= n
    ensures Uniform(run, wake) && Exec(max, Init(n), run).Some?
    ensures Forgotten(max, Exec(max, Init(n), run).value, wake)
  {
    run := Drain(n, max, wake, wake);
  }
}
