/** The whole ping-pong experiment: two processes in a context, each of which, run after run, gets a
    number of iterations from its rendezvous and plays that many rounds of ping-pong before it asks
    again. The rendezvous, the parent's loops and the ping-pong bodies interleave freely. */
module PingPongRuns {
  import opened Wrappers
  import C = Context
  import H = Handshake
  import P = PingPong
  import S = Semaphore

  /** `p` counts the iterations of all runs: the target of a process is all it has got so far. */
  datatype State = State(c: C.State, p: P.State)

  datatype Move = Ctx(m: C.Move) | Body(b: P.Move)

  function Start(): State {
    State(C.Start(), P.Start(0))
  }

  function Iters(values: seq<S.Word>): nat {
    if values == [] then 0 else Iters(values[..|values| - 1]) + values[|values| - 1]
  }

  /** The rendezvous of a process, or a fresh one when it has not been created. */
  function Child(s: State, j: nat): H.State {
    if C.Exists(s.c, j) then C.ProcOf(s.c, j) else H.Fresh()
  }

  /** Both processes are added before the first run. A process asks for its next iterations only
      when it is through with the last ones, and begins an iteration only between asking. */
  predicate CanMove(s: State, m: Move)
    requires P.WellFormed(s.p)
  {
    match m
    case Body(b) => P.CanMove(s.p, b) && (b.Give? ==> C.Exists(s.c, b.i) && Child(s, b.i).child == H.Running)
    case Ctx(m) =>
      && C.CanMove(s.c, m)
      && match m
         case Create => |s.c.procs| < 2
         case Run(_) => |s.c.procs| == 2
         case Inner(j, h) => j < 2 && (h.GetIters? ==> P.Through(s.p.procs[j]))
         case _ => true
  }

  function Granted(p: P.State, i: nat, iters: nat): P.State
    requires i < |p.procs|
  {
    P.AsProc(p, i, p.procs[i].(target := p.procs[i].target + iters))
  }

  function After(s: State, m: Move): State
    requires P.WellFormed(s.p) && CanMove(s, m)
  {
    match m
    case Body(b) => s.(p := P.After(s.p, b))
    case Ctx(m) =>
      State(C.After(s.c, m),
            if m.Inner? && m.m.Swap? then Granted(s.p, m.j, Child(s, m.j).iters) else s.p)
  }

  // ---------------------------------------------------------------- the invariant

  /** A process has been asked for exactly the iterations it got, and while it still plays it is in
      its workload. */
  predicate LinkedTo(p: P.Proc, h: H.State, created: bool) {
    p.target == Iters(h.got) && (!P.Through(p) ==> created && h.child == H.Running)
  }

  predicate Linked(s: State, j: nat)
    requires P.WellFormed(s.p) && j < 2
  {
    LinkedTo(s.p.procs[j], Child(s, j), C.Exists(s.c, j))
  }

  ghost predicate Good(s: State) {
    && C.Good(s.c) && P.Good(s.p)
    && Linked(s, 0) && Linked(s, 1)
    && |s.c.procs| <= 2 && (s.c.phase.Creating? ==> |s.c.procs| < 2)
    && (|s.c.procs| < 2 ==> s.c.rounds == [] && !s.c.phase.StartAt? && !s.c.phase.WaitAt?)
    && forall j :: 0 <= j < |s.c.born| ==> s.c.born[j] == 0
  }

  lemma StartGood()
    ensures Good(Start())
  {
  }

  lemma ItersSnoc(values: seq<S.Word>, v: S.Word)
    ensures Iters(values + [v]) == Iters(values) + v
  {
    assert (values + [v])[..|values + [v]| - 1] == values;
  }

  lemma BodyKeeps(s: State, b: P.Move)
    requires Good(s) && CanMove(s, Body(b))
    ensures Good(After(s, Body(b)))
  {
    P.Keeps(s.p, b);
    forall j: nat | j < 2
      ensures Linked(After(s, Body(b)), j)
    {
      BodyLinked(s, b, j);
    }
  }

  /** A body move changes no target, and only begins an iteration of a process in its workload. */
  lemma BodyLinked(s: State, b: P.Move, j: nat)
    requires P.WellFormed(s.p) && CanMove(s, Body(b)) && j < 2 && Linked(s, j)
    ensures P.WellFormed(P.After(s.p, b)) && Linked(After(s, Body(b)), j)
  {
    if !b.Step? {
      P.AfterIsEdge(s.p, b);
    }
  }

  lemma GrantCounted(p: P.State, i: nat, iters: nat)
    requires P.Counted(p) && i < 2
    ensures P.Counted(Granted(p, i, iters)) && Granted(p, i, iters).sems == p.sems
  {
  }

  /** A context move that concerns no child's rendezvous, or one of them. */
  lemma ChildrenAfter(s: State, m: C.Move, j: nat)
    requires Good(s) && CanMove(s, Ctx(m)) && j < 2
    ensures var s' := After(s, Ctx(m));
            if m.Inner? && m.j == j
            then C.Exists(s'.c, j) && Child(s', j) == H.After(Child(s, j), m.m)
            else Child(s', j) == Child(s, j) && (C.Exists(s.c, j) ==> C.Exists(s'.c, j))
  {
  }

  lemma MoveLinked(p: P.Proc, h: H.State, m: H.Move)
    requires LinkedTo(p, h, true) && H.WellFormed(h) && H.CanMove(h, m) && (m.GetIters? ==> P.Through(p))
    ensures LinkedTo(if m.Swap? then p.(target := p.target + h.iters) else p, H.After(h, m), true)
  {
    H.ChildAfter(h, m);
    if m.Swap? {
      ItersSnoc(h.got, h.iters);
    }
  }

  lemma CtxLinked(s: State, m: C.Move, j: nat)
    requires Good(s) && CanMove(s, Ctx(m)) && j < 2
    ensures Linked(After(s, Ctx(m)), j)
  {
    ChildrenAfter(s, m, j);
    if m.Inner? && m.j == j {
      MoveLinked(s.p.procs[j], Child(s, j), m.m);
    }
  }

  lemma CtxKeeps(s: State, m: C.Move)
    requires Good(s) && CanMove(s, Ctx(m))
    ensures Good(After(s, Ctx(m)))
  {
    C.Keeps(s.c, m);
    CtxLinked(s, m, 0);
    CtxLinked(s, m, 1);
    if m.Inner? && m.m.Swap? {
      GrantCounted(s.p, m.j, Child(s, m.j).iters);
    }
  }

  lemma Keeps(s: State, m: Move)
    requires Good(s) && CanMove(s, m)
    ensures Good(After(s, m))
  {
    match m
    case Body(b) => BodyKeeps(s, b);
    case Ctx(m) => CtxKeeps(s, m);
  }

  // ---------------------------------------------------------------- whole experiments

  ghost function Exec(run: seq<Move>): Option<State> {
    if run == [] then Some(Start())
    else
      match Exec(run[..|run| - 1])
      case None => None
      case Some(s) =>
        var m := run[|run| - 1];
        if P.WellFormed(s.p) && CanMove(s, m) then Some(After(s, m)) else None
  }

  lemma {:induction false} AlwaysGood(run: seq<Move>)
    requires Exec(run).Some?
    ensures Good(Exec(run).value)
  {
    if run == [] {
      StartGood();
    } else {
      AlwaysGood(run[..|run| - 1]);
      Keeps(Exec(run[..|run| - 1]).value, run[|run| - 1]);
    }
  }

  /** Over all runs together, and at every moment, the two processes' completed iterations differ by
      at most one. */
  lemma AlwaysLockstep(run: seq<Move>)
    requires Exec(run).Some?
    ensures var p := Exec(run).value.p.procs; |p| == 2 && -1 <= p[0].done - p[1].done <= 1
  {
    AlwaysGood(run);
  }

  /** Whenever the parent is between runs, both processes have completed exactly the iterations of
      all runs so far, and both ping-pong semaphores are as they were created. */
  lemma {:induction false} RunsPlayed(run: seq<Move>)
    requires Exec(run).Some? && Exec(run).value.c.phase.Free?
    ensures var s := Exec(run).value;
            && |s.p.procs| == 2
            && (forall j :: 0 <= j < 2 ==> P.Through(s.p.procs[j]) && s.p.procs[j].done == Iters(s.c.rounds))
            && s.p.sems == [S.Init(2), S.Init(2)]
  {
    AlwaysGood(run);
    var s := Exec(run).value;
    PlayedAll(s, 0);
    PlayedAll(s, 1);
    P.FinishedClean(s.p);
  }

  lemma PlayedAll(s: State, j: nat)
    requires Good(s) && s.c.phase.Free? && j < 2
    ensures P.Through(s.p.procs[j]) && s.p.procs[j].done == s.p.procs[j].target == Iters(s.c.rounds)
  {
    assert Linked(s, j);
    if j < |s.c.procs| {
      C.FreeDelivered(s.c, j);
      assert s.c.rounds[0..] == s.c.rounds;
    }
  }

  // ---------------------------------------------------------------- no deadlock

  predicate Steady(m: Move) {
    match m
    case Ctx(m) => C.Steady(m)
    case Body(b) => P.Steady(b)
  }

  lemma {:induction false} ItersPrefix(values: seq<S.Word>, k: nat)
    requires k <= |values|
    ensures Iters(values[..k]) <= Iters(values)
  {
    if k == |values| {
      assert values[..k] == values;
    } else {
      assert values[..|values| - 1][..k] == values[..k];
      ItersPrefix(values[..|values| - 1], k);
    }
  }

  /** What a process has got is a beginning of all runs' values, and all of them but perhaps the last
      once the start loop is over. */
  lemma GotSome(s: State, j: nat)
    requires Good(s) && j < |s.c.procs|
    ensures var h := s.c.procs[j];
            && H.Good(h)
            && Iters(h.got) <= Iters(s.c.rounds)
            && (s.c.phase.WaitAt? && Iters(h.got) < Iters(s.c.rounds) ==> H.Undelivered(h) && h.parent != H.Starting)
  {
    var h := s.c.procs[j];
    assert C.ProcFits(s.c, j);
    var k := |h.got|;
    assert h.sent <= s.c.rounds && h.got <= h.sent;
    assert h.got == s.c.rounds[..k];
    ItersPrefix(s.c.rounds, k);
  }

  lemma TargetBound(s: State, j: nat)
    requires Good(s) && j < 2
    ensures s.p.procs[j].target <= Iters(s.c.rounds)
  {
    assert Linked(s, j);
    if j < |s.c.procs| {
      GotSome(s, j);
    }
  }

  /** A child that still plays keeps the wait loop from going on; then the bodies go on, or the
      partner's iterations are on their way. */
  lemma PlayGoesOn(s: State, j: nat) returns (m: Move)
    requires Good(s) && s.c.phase.WaitAt? && j < |s.c.procs| && !P.Through(s.p.procs[j])
    ensures CanMove(s, m) && Steady(m) && (m.Ctx? ==> m.m.Inner?)
  {
    assert Linked(s, 0) && Linked(s, 1);
    var b := P.CanPlay(s.p, j);
    if b.Some? {
      m := Body(b.value);
    } else {
      var o := 1 - j;
      TargetBound(s, j);
      GotSome(s, o);
      var h := H.DeliveryGoesOn(s.c.procs[o]);
      m := Ctx(C.Inner(o, h));
    }
  }

  /** The experiment is never stuck; outside a run only the caller decides. */
  lemma CanGoOn(s: State) returns (m: Move)
    requires Good(s)
    ensures CanMove(s, m) && Steady(m)
    ensures m.Ctx? && (m.m.Create? || m.m.Run?) ==> s.c.phase.Free?
  {
    if s.c.phase.Free? {
      m := Ctx(if |s.c.procs| < 2 then C.Create else C.Run(0));
    } else if s.c.phase.StartAt? {
      var c := C.StartGoesOn(s.c);
      m := Ctx(c);
    } else {
      var c := C.CanGoOn(s.c);
      if c.Inner? && c.m.GetIters? && !P.Through(s.p.procs[c.j]) {
        assert Linked(s, c.j);
        TargetBound(s, c.j);
        m := PlayGoesOn(s, c.j);
      } else {
        m := Ctx(c);
      }
    }
  }

  // ---------------------------------------------------------------- every run ends

  /** The bodies' state as it would be had every process already got all its iterations. */
  function Ahead(p: P.State, total: nat): P.State
    requires |p.procs| == 2
  {
    P.State(p.sems, [p.procs[0].(target := total), p.procs[1].(target := total)])
  }

  lemma AheadCounted(p: P.State, total: nat)
    requires P.Counted(p) && p.procs[0].target <= total && p.procs[1].target <= total
    ensures P.Counted(Ahead(p, total))
  {
  }

  /** What a process can do now it could do then, with the same effect. */
  lemma AheadMoves(p: P.State, total: nat, b: P.Move)
    requires P.WellFormed(p) && P.CanMove(p, b) && p.procs[0].target <= total && p.procs[1].target <= total
    ensures P.WellFormed(Ahead(p, total)) && P.CanMove(Ahead(p, total), b)
    ensures |P.After(p, b).procs| == 2 && P.After(Ahead(p, total), b) == Ahead(P.After(p, b), total)
  {
  }

  ghost function Measure(s: State): nat
    requires C.Shaped(s.c) && P.WellFormed(s.p)
  {
    C.Measure(s.c) + P.Measure(Ahead(s.p, Iters(s.c.rounds)))
  }

  function LongestRun(total: nat): nat {
    C.LongestRun(2) + P.LongestRun(2 * total)
  }

  /** Moves made on behalf of the current call of `create` or `run`. */
  predicate WithinCall(m: Move) {
    Steady(m) && (m.Ctx? ==> !m.m.Create? && !m.m.Run?)
  }

  lemma BodyFalls(s: State, b: P.Move)
    requires Good(s) && CanMove(s, Body(b)) && P.Steady(b) && C.Shaped(s.c)
    requires P.WellFormed(P.After(s.p, b))
    ensures Measure(After(s, Body(b))) < Measure(s)
  {
    var total := Iters(s.c.rounds);
    TargetBound(s, 0);
    TargetBound(s, 1);
    AheadCounted(s.p, total);
    AheadMoves(s.p, total, b);
    P.MeasureFalls(Ahead(s.p, total), b);
  }

  lemma CtxFalls(s: State, m: C.Move)
    requires Good(s) && CanMove(s, Ctx(m)) && WithinCall(Ctx(m)) && C.Shaped(s.c)
    requires C.Shaped(After(s, Ctx(m)).c) && P.WellFormed(After(s, Ctx(m)).p)
    ensures Measure(After(s, Ctx(m))) < Measure(s)
  {
    var s' := After(s, Ctx(m));
    C.MeasureFalls(s.c, m);
    assert s'.c.rounds == s.c.rounds;
    assert Ahead(s'.p, Iters(s.c.rounds)) == Ahead(s.p, Iters(s.c.rounds));
  }

  lemma GoodShaped(s: State)
    requires Good(s)
    ensures C.Shaped(s.c) && P.WellFormed(s.p)
  {
    C.GoodShaped(s.c);
  }

  lemma MeasureFalls(s: State, m: Move)
    requires Good(s) && CanMove(s, m) && WithinCall(m)
    ensures Good(After(s, m)) && C.Shaped(s.c) && C.Shaped(After(s, m).c)
    ensures Measure(After(s, m)) < Measure(s)
  {
    Keeps(s, m);
    GoodShaped(s);
    GoodShaped(After(s, m));
    match m
    case Body(b) => BodyFalls(s, b);
    case Ctx(c) => CtxFalls(s, c);
  }

  lemma LongestMonotone(j: nat, k: nat)
    requires j <= k
    ensures C.LongestRun(j) <= C.LongestRun(k) && P.LongestRun(j) <= P.LongestRun(k)
  {
  }

  lemma ContextBound(c: C.State)
    requires C.Shaped(c) && |c.procs| <= 2
    ensures C.Measure(c) <= C.LongestRun(2)
  {
    C.MeasureBound(c);
    LongestMonotone(|c.procs|, 2);
  }

  lemma BodyBound(p: P.State, total: nat)
    requires P.WellFormed(p)
    ensures P.Measure(Ahead(p, total)) <= P.LongestRun(2 * total)
  {
    var a := Ahead(p, total);
    LongestMonotone(P.Left(a.procs[0]) + P.Left(a.procs[1]), 2 * total);
  }

  lemma MeasureBound(s: State)
    requires C.Shaped(s.c) && P.WellFormed(s.p) && |s.c.procs| <= 2
    ensures Measure(s) <= LongestRun(Iters(s.c.rounds))
  {
    ContextBound(s.c);
    BodyBound(s.p, Iters(s.c.rounds));
  }

  lemma {:induction false} CallBounded(run: seq<Move>, more: seq<Move>)
    requires Exec(run).Some? && Exec(run + more).Some? && forall m :: m in more ==> WithinCall(m)
    ensures Good(Exec(run).value) && Good(Exec(run + more).value)
    ensures C.Shaped(Exec(run).value.c) && C.Shaped(Exec(run + more).value.c)
    ensures Measure(Exec(run + more).value) + |more| <= Measure(Exec(run).value)
    decreases |more|
  {
    AlwaysGood(run);
    AlwaysGood(run + more);
    GoodShaped(Exec(run).value);
    GoodShaped(Exec(run + more).value);
    if more == [] {
      assert run + more == run;
    } else {
      var prev, m := more[..|more| - 1], more[|more| - 1];
      assert (run + more)[..|run + more| - 1] == run + prev;
      assert m in more;
      CallBounded(run, prev);
      MeasureFalls(Exec(run + prev).value, m);
    }
  }

  /** Under every scheduler a run of the experiment returns: without a new call only a bounded number
      of dependable moves is possible, and when no more is possible the parent is free again. */
  lemma EveryRunReturns(run: seq<Move>, more: seq<Move>)
    requires Exec(run).Some? && Exec(run + more).Some? && forall m :: m in more ==> WithinCall(m)
    ensures |more| <= LongestRun(Iters(Exec(run).value.c.rounds))
    ensures (forall m :: WithinCall(m) ==> Exec(run + more + [m]).None?) ==> Exec(run + more).value.c.phase.Free?
  {
    CallBounded(run, more);
    MeasureBound(Exec(run).value);
    var s := Exec(run + more).value;
    if !s.c.phase.Free? {
      var m := CanGoOn(s);
      assert (run + more + [m])[..|run + more + [m]| - 1] == run + more;
      assert Exec(run + more + [m]).Some?;
    }
  }
}
