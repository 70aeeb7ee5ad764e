/** The two ping-pong bodies over two step-level semaphores of limit one: in each of `n`
    iterations process `i` produces on semaphore `i` and then consumes from the other one.
    Process `i` is thread `i` of both semaphores. */
module PingPong {
  import opened Semaphore
  import opened Wrappers

  const GIVE := Call(Produce, 1, 1, false)
  const TAKE := Call(Consume, 1, 1, false)

  /** `Between`: about to test the loop condition; `Giving`, `Taking`: inside the calls;
      `Middle`: between them. */
  datatype Phase = Between | Giving | Middle | Taking

  /** `done` iterations out of `target`. */
  datatype Proc = Proc(target: nat, done: nat, phase: Phase)

  datatype State = State(sems: seq<Sys>, procs: seq<Proc>)

  function Start(n: nat): State {
    State([Init(2), Init(2)], [Proc(n, 0, Between), Proc(n, 0, Between)])
  }

  datatype Move =
    | Step(k: nat, t: nat, e: Event)  // inside a call on semaphore `k`
    | Give(i: nat)                    // enter `produce`
    | Given(i: nat)                   // `produce` returns
    | Take(i: nat)                    // enter `consume`
    | Taken(i: nat)                   // `consume` returns

  predicate WellFormed(s: State) {
    && |s.sems| == 2 && |s.procs| == 2
    && (forall k :: 0 <= k < 2 ==> |s.sems[k].pcs| == 2 && Amount(s.sems[k].word) <= 1)
  }

  predicate CanMove(s: State, m: Move)
    requires WellFormed(s)
  {
    match m
    case Step(k, t, e) => k < 2 && Internal(e) && Enabled(1, s.sems[k], t, e)
    case Give(i) =>
      i < 2 && s.procs[i].phase == Between && s.procs[i].done < s.procs[i].target && s.sems[i].pcs[i].Idle?
    case Given(i) => i < 2 && s.procs[i].phase == Giving && s.sems[i].pcs[i].Returned?
    case Take(i) => i < 2 && s.procs[i].phase == Middle && s.sems[1 - i].pcs[i].Idle?
    case Taken(i) => i < 2 && s.procs[i].phase == Taking && s.sems[1 - i].pcs[i].Returned?
  }

  function OnSem(s: State, k: nat, t: nat, e: Event): State
    requires WellFormed(s) && k < 2 && Enabled(1, s.sems[k], t, e)
  {
    s.(sems := s.sems[k := Next(1, s.sems[k], t, e)])
  }

  function Leave(s: State, k: nat, t: nat): State
    requires WellFormed(s) && k < 2 && t < 2 && s.sems[k].pcs[t].Returned?
  {
    OnSem(s, k, t, Collect(s.sems[k].pcs[t].call, s.sems[k].pcs[t].ok))
  }

  function AsProc(s: State, i: nat, p: Proc): State
    requires i < |s.procs|
  {
    s.(procs := s.procs[i := p])
  }

  function After(s: State, m: Move): State
    requires WellFormed(s) && CanMove(s, m)
  {
    match m
    case Step(k, t, e) => OnSem(s, k, t, e)
    case Give(i) => AsProc(OnSem(s, i, i, Begin(GIVE)), i, s.procs[i].(phase := Giving))
    case Given(i) => AsProc(Leave(s, i, i), i, s.procs[i].(phase := Middle))
    case Take(i) => AsProc(OnSem(s, 1 - i, i, Begin(TAKE)), i, s.procs[i].(phase := Taking))
    case Taken(i) => AsProc(Leave(s, 1 - i, i), i, s.procs[i].(done := s.procs[i].done + 1, phase := Between))
  }

  // ---------------------------------------------------------------- the invariant

  /** How often process `i` has added to its own semaphore. */
  function Added(s: State, i: nat): nat
    requires WellFormed(s) && i < 2
  {
    s.procs[i].done +
    if s.procs[i].phase == Middle || s.procs[i].phase == Taking ||
       (s.procs[i].phase == Giving && Committed(s.sems[i].pcs[i])) then 1 else 0
  }

  /** How often process `i` has taken from the other one. */
  function Removed(s: State, i: nat): nat
    requires WellFormed(s) && i < 2
  {
    s.procs[i].done + if s.procs[i].phase == Taking && Committed(s.sems[1 - i].pcs[i]) then 1 else 0
  }

  predicate Coherent(s: State, i: nat)
    requires WellFormed(s) && i < 2
  {
    var p := s.procs[i];
    && (if p.phase == Giving then InCall(s.sems[i].pcs[i], GIVE) else s.sems[i].pcs[i].Idle?)
    && (if p.phase == Taking then InCall(s.sems[1 - i].pcs[i], TAKE) else s.sems[1 - i].pcs[i].Idle?)
    && (if p.phase == Between then p.done <= p.target else p.done < p.target)
  }

  ghost predicate GoodSem(s: Sys) {
    Inv(1, s) && UntimedSucceed(s) && FlagOwned(s)
  }

  /** The processes are where their calls are, and the counts are what they added and removed. */
  predicate Counted(s: State) {
    && WellFormed(s)
    && Coherent(s, 0) && Coherent(s, 1)
    && Amount(s.sems[0].word) == Added(s, 0) - Removed(s, 1)
    && Amount(s.sems[1].word) == Added(s, 1) - Removed(s, 0)
  }

  ghost predicate Good(s: State) {
    Counted(s) && GoodSem(s.sems[0]) && GoodSem(s.sems[1])
  }

  lemma ReplacedKeeps(s: State, k: nat, sem: Sys, t: nat, op: bool)
    requires Counted(s) && k < 2 && t < 2 && Amount(sem.word) <= 1 && Inside(s.sems[k], sem, t, op)
    ensures Counted(s.(sems := s.sems[k := sem]))
  {
    InsideCounts(s, k, sem, t, op, 0);
    InsideCounts(s, k, sem, t, op, 1);
  }

  /** A step of thread `t` on semaphore `k` as process `i` sees it. */
  lemma InsideCounts(s: State, k: nat, sem: Sys, t: nat, op: bool, i: nat)
    requires Counted(s) && k < 2 && t < 2 && i < 2 && Amount(sem.word) <= 1 && Inside(s.sems[k], sem, t, op)
    ensures var s' := s.(sems := s.sems[k := sem]);
            && Coherent(s', i)
            && Added(s', i) == Added(s, i) + (if k == i == t && op then 1 else 0)
            && Removed(s', i) == Removed(s, i) + (if k != i && i == t && op then 1 else 0)
  {
    assert Stage(sem.pcs[i]) == Stage(s.sems[k].pcs[i]) || i == t;
  }

  lemma StepKeeps(s: State, k: nat, t: nat, e: Event)
    requires Good(s) && CanMove(s, Step(k, t, e))
    ensures Good(After(s, Step(k, t, e)))
  {
    InvStep(1, s.sems[k], t, e);
    InternalStep(1, s.sems[k], t, e);
    FlagOwnedStep(1, s.sems[k], t, e);
    ReplacedKeeps(s, k, Next(1, s.sems[k], t, e), t, e.OpCas?);
  }

  // ---------------------------------------------------------------- between the calls

  /** Process `i` enters or leaves its call on semaphore `k`. */
  function Put(s: State, i: nat, k: nat, pc: Pc, p: Proc): State
    requires WellFormed(s) && i < 2 && k < 2
  {
    State(s.sems[k := s.sems[k].(pcs := s.sems[k].pcs[i := pc])], s.procs[i := p])
  }

  /** The call that each such move enters or leaves, and where the process then is. */
  function CallSem(m: Move): (k: nat)
    requires !m.Step? && m.i < 2
    ensures k < 2
  {
    if m.Give? || m.Given? then m.i else 1 - m.i
  }

  function NextPc(m: Move): Pc {
    match m
    case Give(_) => Entering(GIVE)
    case Take(_) => Entering(TAKE)
    case _ => Idle
  }

  function NextProc(p: Proc, m: Move): Proc {
    match m
    case Give(_) => p.(phase := Giving)
    case Given(_) => p.(phase := Middle)
    case Take(_) => p.(phase := Taking)
    case Taken(_) => p.(done := p.done + 1, phase := Between)
    case Step(_, _, _) => p
  }

  function EdgeEvent(s: State, m: Move): Event
    requires WellFormed(s) && CanMove(s, m) && !m.Step?
  {
    if m.Give? then Begin(GIVE)
    else if m.Take? then Begin(TAKE)
    else Collect(s.sems[CallSem(m)].pcs[m.i].call, s.sems[CallSem(m)].pcs[m.i].ok)
  }

  /** The state after such a move. */
  function Edge(s: State, m: Move): (r: State)
    requires WellFormed(s) && !m.Step? && m.i < 2
    ensures WellFormed(r)
    ensures r.procs[1 - m.i] == s.procs[1 - m.i] && r.procs[m.i] == NextProc(s.procs[m.i], m)
    ensures forall k :: 0 <= k < 2 ==>
              r.sems[k].word == s.sems[k].word && r.sems[k].pcs[1 - m.i] == s.sems[k].pcs[1 - m.i]
    ensures r.sems[CallSem(m)].pcs[m.i] == NextPc(m) && r.sems[1 - CallSem(m)] == s.sems[1 - CallSem(m)]
  {
    Put(s, m.i, CallSem(m), NextPc(m), NextProc(s.procs[m.i], m))
  }

  lemma AfterIsEdge(s: State, m: Move)
    requires WellFormed(s) && CanMove(s, m) && !m.Step?
    ensures After(s, m) == Edge(s, m)
    ensures After(s, m).sems == s.sems[CallSem(m) := Next(1, s.sems[CallSem(m)], m.i, EdgeEvent(s, m))]
  {
  }

  /** A process whose own state and threads are as before counts as before. */
  lemma Untouched(s: State, s': State, i: nat)
    requires WellFormed(s) && WellFormed(s') && i < 2 && s'.procs[i] == s.procs[i]
    requires s'.sems[i].pcs[i] == s.sems[i].pcs[i] && s'.sems[1 - i].pcs[i] == s.sems[1 - i].pcs[i]
    ensures Added(s', i) == Added(s, i) && Removed(s', i) == Removed(s, i)
    ensures Coherent(s', i) <==> Coherent(s, i)
    ensures ProcRank(s', i) == ProcRank(s, i)
  {
  }

  /** What such a move does to the process that makes it. */
  lemma EdgeOwn(s: State, m: Move)
    requires Counted(s) && CanMove(s, m) && !m.Step?
    requires m.Given? || m.Taken? ==> s.sems[CallSem(m)].pcs[m.i].ok
    ensures var s' := Edge(s, m);
            && Coherent(s', m.i)
            && Added(s', m.i) == Added(s, m.i) && Removed(s', m.i) == Removed(s, m.i)
            && ProcRank(s', m.i) < ProcRank(s, m.i)
  {
  }

  /** It changes no count, keeps the invariant, and takes the process further. */
  lemma EdgeCounts(s: State, m: Move)
    requires Counted(s) && CanMove(s, m) && !m.Step?
    requires m.Given? || m.Taken? ==> s.sems[CallSem(m)].pcs[m.i].ok
    ensures var s' := Edge(s, m);
            && Counted(s')
            && ProcRank(s', m.i) < ProcRank(s, m.i) && ProcRank(s', 1 - m.i) == ProcRank(s, 1 - m.i)
  {
    EdgeOwn(s, m);
    Untouched(s, Edge(s, m), 1 - m.i);
  }

  /** A call without a timeout returns true. */
  lemma EdgeOk(s: State, m: Move)
    requires Good(s) && CanMove(s, m) && !m.Step?
    ensures m.Given? || m.Taken? ==> s.sems[CallSem(m)].pcs[m.i].ok
  {
  }

  /** Beginning a call and taking its result keep each semaphore's own invariant. */
  lemma EdgeKeeps(s: Sys, t: nat, e: Event)
    requires GoodSem(s) && |s.pcs| == 2 && Enabled(1, s, t, e) && !Internal(e)
    requires e.Begin? ==> e.call.wake >= 1
    ensures GoodSem(Next(1, s, t, e))
  {
    InvStep(1, s, t, e);
    FlagOwnedStep(1, s, t, e);
  }

  lemma CallKeeps(s: State, m: Move)
    requires Good(s) && CanMove(s, m) && !m.Step?
    ensures Good(After(s, m))
  {
    AfterIsEdge(s, m);
    EdgeOk(s, m);
    EdgeCounts(s, m);
    EdgeKeeps(s.sems[CallSem(m)], m.i, EdgeEvent(s, m));
  }

  lemma Keeps(s: State, m: Move)
    requires Good(s) && CanMove(s, m)
    ensures Good(After(s, m))
  {
    if m.Step? {
      StepKeeps(s, m.k, m.t, m.e);
    } else {
      CallKeeps(s, m);
    }
  }

  // ---------------------------------------------------------------- whole runs

  ghost function Exec(n: nat, run: seq<Move>): Option<State> {
    if run == [] then Some(Start(n))
    else
      match Exec(n, run[..|run| - 1])
      case None => None
      case Some(s) =>
        var m := run[|run| - 1];
        if WellFormed(s) && CanMove(s, m) then Some(After(s, m)) else None
  }

  predicate Targets(s: State, n0: nat, n1: nat) {
    |s.procs| == 2 && s.procs[0].target == n0 && s.procs[1].target == n1
  }

  lemma {:induction false} AlwaysGood(n: nat, run: seq<Move>)
    requires Exec(n, run).Some?
    ensures Good(Exec(n, run).value) && Targets(Exec(n, run).value, n, n)
  {
    if run != [] {
      AlwaysGood(n, run[..|run| - 1]);
      Keeps(Exec(n, run[..|run| - 1]).value, run[|run| - 1]);
    }
  }

  /** The process has done all its iterations. */
  predicate Through(p: Proc) {
    p.phase == Between && p.done == p.target
  }

  predicate Finished(s: State) {
    forall i :: 0 <= i < |s.procs| ==> Through(s.procs[i])
  }

  /** In every interleaving the two processes are never more than one iteration apart. */
  lemma {:induction false} Lockstep(n: nat, run: seq<Move>)
    requires Exec(n, run).Some?
    ensures var p := Exec(n, run).value.procs;
            |p| == 2 && -1 <= p[0].done - p[1].done <= 1
  {
    AlwaysGood(n, run);
  }

  lemma FinishedClean(s: State)
    requires Good(s) && Finished(s) && s.procs[0].target == s.procs[1].target
    ensures s.sems == [Init(2), Init(2)]
  {
    CleanSem(s.sems[0]);
    CleanSem(s.sems[1]);
  }

  /** When both are done, both semaphores are as they were created: empty, unflagged, unused. */
  lemma {:induction false} EndsClean(n: nat, run: seq<Move>)
    requires Exec(n, run).Some? && Finished(Exec(n, run).value)
    ensures Exec(n, run).value.sems == [Init(2), Init(2)]
  {
    AlwaysGood(n, run);
    FinishedClean(Exec(n, run).value);
  }

  lemma CleanSem(s: Sys)
    requires FlagOwned(s) && |s.pcs| == 2 && Amount(s.word) == 0
    requires s.pcs[0].Idle? && s.pcs[1].Idle?
    ensures s == Init(2)
  {
    assert s.pcs == Init(2).pcs;
  }

  predicate Steady(m: Move) {
    m.Step? ==> Dependable(m.e)
  }

  /** The semaphore on which process `i` has a call in progress. */
  function Current(s: State, i: nat): (k: nat)
    requires WellFormed(s) && i < 2
    ensures k < 2
  {
    if s.procs[i].phase == Giving then i else 1 - i
  }

  /** A process that is neither finished nor asleep has a steady move. */
  lemma ProcMoves(s: State, i: nat) returns (m: Move)
    requires Good(s) && i < 2 && !Through(s.procs[i])
    requires !s.sems[Current(s, i)].pcs[i].Asleep?
    ensures CanMove(s, m) && Steady(m)
  {
    var k := Current(s, i);
    if s.procs[i].phase == Between {
      m := Give(i);
    } else if s.procs[i].phase == Middle {
      m := Take(i);
    } else if s.sems[k].pcs[i].Returned? {
      m := if s.procs[i].phase == Giving then Given(i) else Taken(i);
    } else {
      var e := Progress(1, s.sems[k], i);
      m := Step(k, i, e);
    }
  }

  /** A process asleep in a call cannot be served by a partner that is through as well, or asleep:
      the partner is through with a smaller target. */
  lemma AsleepBehind(s: State, i: nat)
    requires Good(s) && i < 2 && !Through(s.procs[i]) && s.sems[Current(s, i)].pcs[i].Asleep?
    requires Through(s.procs[1 - i]) || s.sems[Current(s, 1 - i)].pcs[1 - i].Asleep?
    ensures Through(s.procs[1 - i]) && s.procs[1 - i].target < s.procs[i].target
  {
    AsleepUnfit(s.sems[Current(s, i)], i);
    if !Through(s.procs[1 - i]) {
      AsleepUnfit(s.sems[Current(s, 1 - i)], 1 - i);
    }
  }

  /** A process that is not through can go on, or its partner can, or the partner is through and was
      asked for less. */
  lemma CanPlay(s: State, i: nat) returns (m: Option<Move>)
    requires Good(s) && i < 2 && !Through(s.procs[i])
    ensures m.Some? ==> CanMove(s, m.value) && Steady(m.value)
    ensures m.None? ==> Through(s.procs[1 - i]) && s.procs[1 - i].target < s.procs[i].target
  {
    if !s.sems[Current(s, i)].pcs[i].Asleep? {
      var p := ProcMoves(s, i);
      m := Some(p);
    } else if !Through(s.procs[1 - i]) && !s.sems[Current(s, 1 - i)].pcs[1 - i].Asleep? {
      var p := ProcMoves(s, 1 - i);
      m := Some(p);
    } else {
      AsleepBehind(s, i);
      m := None;
    }
  }

  lemma NeverStuck(s: State) returns (m: Move)
    requires Good(s) && !Finished(s) && s.procs[0].target == s.procs[1].target
    ensures CanMove(s, m) && Steady(m)
  {
    var i := if Through(s.procs[0]) then 1 else 0;
    var p := CanPlay(s, i);
    m := p.value;
  }

  // ---------------------------------------------------------------- termination

  /** Iterations not yet completed. */
  function Left(p: Proc): nat {
    if p.done <= p.target then p.target - p.done else 0
  }

  function ProcRank(s: State, i: nat): (r: nat)
    requires WellFormed(s) && i < 2
    ensures r <= 8 * Left(s.procs[i]) + 7
  {
    var p := s.procs[i];
    8 * Left(p) +
    match p.phase
    case Between => 7
    case Giving => 4 + Stage(s.sems[i].pcs[i])
    case Middle => 3
    case Taking => Stage(s.sems[1 - i].pcs[i])
  }

  function Measure(s: State): (r: nat)
    requires WellFormed(s)
    ensures r <= LongestRun(Left(s.procs[0]) + Left(s.procs[1]))
  {
    (ProcRank(s, 0) + ProcRank(s, 1)) * 30 + PairRank(s.sems[0]) + PairRank(s.sems[1])
  }

  /** For `n` iterations in all. */
  function LongestRun(n: nat): nat {
    (8 * n + 14) * 30 + 28
  }

  /** A step on one semaphore lowers the rank of the process that takes it, or keeps it. */
  lemma ReplacedRank(s: State, k: nat, sem: Sys, t: nat, op: bool)
    requires Counted(s) && k < 2 && t < 2 && Inside(s.sems[k], sem, t, op) && Amount(sem.word) <= 1
    ensures var s' := s.(sems := s.sems[k := sem]);
            && ProcRank(s', 1 - t) == ProcRank(s, 1 - t)
            && ProcRank(s', t) - ProcRank(s, t) == Stage(sem.pcs[t]) - Stage(s.sems[k].pcs[t])
  {
    assert s.procs[t].phase == if k == t then Giving else Taking;
  }

  /** A process advances, or the ranks stay and the semaphores come closer to rest. */
  lemma Falls(s: State, s': State, i: nat, k: nat)
    requires WellFormed(s) && WellFormed(s') && i < 2 && k < 2
    requires ProcRank(s', 1 - i) == ProcRank(s, 1 - i)
    requires || ProcRank(s', i) < ProcRank(s, i)
             || (&& ProcRank(s', i) == ProcRank(s, i)
                 && PairRank(s'.sems[k]) < PairRank(s.sems[k]) && PairRank(s'.sems[1 - k]) == PairRank(s.sems[1 - k]))
    ensures Measure(s') < Measure(s)
  {
    assert ProcRank(s, 0) + ProcRank(s, 1) == ProcRank(s, i) + ProcRank(s, 1 - i);
    assert ProcRank(s', 0) + ProcRank(s', 1) == ProcRank(s', i) + ProcRank(s', 1 - i);
    assert PairRank(s.sems[0]) + PairRank(s.sems[1]) == PairRank(s.sems[k]) + PairRank(s.sems[1 - k]);
    assert PairRank(s'.sems[0]) + PairRank(s'.sems[1]) == PairRank(s'.sems[k]) + PairRank(s'.sems[1 - k]);
  }

  lemma StepFalls(s: State, k: nat, t: nat, e: Event)
    requires Good(s) && CanMove(s, Step(k, t, e)) && Dependable(e) && Counted(After(s, Step(k, t, e)))
    ensures Measure(After(s, Step(k, t, e))) < Measure(s)
  {
    InternalStep(1, s.sems[k], t, e);
    ReplacedRank(s, k, Next(1, s.sems[k], t, e), t, e.OpCas?);
    if !e.OpCas? && !e.Wake? {
      RankFalls(1, s.sems[k], t, e);
    }
    Falls(s, After(s, Step(k, t, e)), t, k);
  }

  lemma EdgeFalls(s: State, m: Move)
    requires Counted(s) && CanMove(s, m) && !m.Step? && Counted(Edge(s, m))
    requires m.Given? || m.Taken? ==> s.sems[CallSem(m)].pcs[m.i].ok
    ensures Measure(Edge(s, m)) < Measure(s)
  {
    EdgeCounts(s, m);
    Falls(s, Edge(s, m), m.i, 0);
  }

  lemma MeasureFalls(s: State, m: Move)
    requires Good(s) && CanMove(s, m) && Steady(m)
    ensures Good(After(s, m)) && Measure(After(s, m)) < Measure(s)
  {
    Keeps(s, m);
    if m.Step? {
      StepFalls(s, m.k, m.t, m.e);
    } else {
      AfterIsEdge(s, m);
      EdgeOk(s, m);
      EdgeFalls(s, m);
    }
  }

  lemma {:induction false} RunBounded(n: nat, run: seq<Move>)
    requires Exec(n, run).Some? && forall m :: m in run ==> Steady(m)
    ensures Good(Exec(n, run).value)
    ensures Measure(Exec(n, run).value) + |run| <= LongestRun(2 * n)
  {
    AlwaysGood(n, run);
    if run != [] {
      var prev, m := run[..|run| - 1], run[|run| - 1];
      assert m in run;
      RunBounded(n, prev);
      MeasureFalls(Exec(n, prev).value, m);
    }
  }

  /** Under every scheduler the pair finishes: a run of dependable moves has bounded length, and
      when it cannot go on both processes have done all their iterations. */
  lemma {:induction false} EveryRunEnds(n: nat, run: seq<Move>)
    requires Exec(n, run).Some? && forall m :: m in run ==> Steady(m)
    ensures |run| <= LongestRun(2 * n)
    ensures (forall m :: Steady(m) ==> Exec(n, run + [m]).None?) ==> Finished(Exec(n, run).value)
  {
    RunBounded(n, run);
    AlwaysGood(n, run);
    if !Finished(Exec(n, run).value) {
      var m := NeverStuck(Exec(n, run).value);
      assert (run + [m])[..|run + [m]| - 1] == run;
      assert Exec(n, run + [m]).Some?;
    }
  }
}
