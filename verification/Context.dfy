/** A context that starts and waits for any number of processes, each with its own rendezvous.
    The children run freely; the one parent works through its loops, process by process. */
module Context {
  import opened Wrappers
  import opened Semaphore
  import H = Handshake

  /** What the parent is doing: nothing, creating process `p`, starting or waiting for process
      `i` (one past the last when the loop is over). */
  datatype Phase = Free | Creating(p: H.State) | StartAt(i: nat, iters: Word) | WaitAt(i: nat)

  /** `rounds` lists the values of all runs so far; `born[j]` says how many came before process
      `j` was added. */
  datatype State = State(procs: seq<H.State>, phase: Phase, running: bool, rounds: seq<Word>, born: seq<nat>)

  function Start(): State {
    State([], Free, false, [], [])
  }

  datatype Move =
    | Create
    | Add
    | Run(iters: Word)
    | NextStart
    | StartsDone
    | NextWait
    | WaitsDone
    | Inner(j: nat, m: H.Move)  // process `j`; the one being created comes after the last

  predicate ByParent(m: H.Move) {
    match m
    case StartSem(t, _) => t == H.PARENT
    case ReadySem(t, _) => t == H.PARENT
    case GetIters | ReadyDone | AwaitDone | Swap => false
    case _ => true
  }

  predicate InWait(m: H.Move) {
    m.Wait? || m.WaitDone? || m.ReadySem?
  }

  predicate InStart(m: H.Move, iters: Word) {
    m == H.Store(iters) || m.StartDone? || m.StartSem?
  }

  /** The parent only works on the process its loop has reached, and there only in `start`
      or only in `wait`. */
  predicate Permitted(s: State, j: nat, m: H.Move) {
    ByParent(m) ==>
      match s.phase
      case Free => false
      case Creating(_) => j == |s.procs| && InWait(m)
      case StartAt(i, iters) => j == i && InStart(m, iters)
      case WaitAt(i) => j == i && InWait(m)
  }

  predicate Exists(s: State, j: nat) {
    j < |s.procs| || (j == |s.procs| && s.phase.Creating?)
  }

  function ProcOf(s: State, j: nat): H.State
    requires Exists(s, j)
  {
    if j < |s.procs| then s.procs[j] else s.phase.p
  }

  predicate CanMove(s: State, m: Move) {
    match m
    case Create => s.phase.Free?
    case Add => s.phase.Creating? && s.phase.p.parent == H.Turn
    case Run(_) => s.phase.Free?
    case NextStart => s.phase.StartAt? && s.phase.i < |s.procs| && s.procs[s.phase.i].parent == H.Started
    case StartsDone => s.phase.StartAt? && s.phase.i == |s.procs|
    case NextWait => s.phase.WaitAt? && s.phase.i < |s.procs| && s.procs[s.phase.i].parent == H.Turn
    case WaitsDone => s.phase.WaitAt? && s.phase.i == |s.procs|
    case Inner(j, m) =>
      Exists(s, j) && Permitted(s, j, m) && H.WellFormed(ProcOf(s, j)) && H.CanMove(ProcOf(s, j), m)
  }

  function WithProc(s: State, j: nat, p: H.State): State
    requires Exists(s, j)
  {
    if j < |s.procs| then s.(procs := s.procs[j := p]) else s.(phase := Creating(p))
  }

  function After(s: State, m: Move): State
    requires CanMove(s, m)
  {
    match m
    case Create => s.(phase := Creating(H.Fresh()))
    case Add => s.(phase := Free, procs := s.procs + [s.phase.p], born := s.born + [|s.rounds|])
    case Run(iters) => s.(phase := StartAt(0, iters), running := true, rounds := s.rounds + [iters])
    case NextStart => s.(phase := StartAt(s.phase.i + 1, s.phase.iters))
    case StartsDone => s.(phase := WaitAt(0))
    case NextWait => s.(phase := WaitAt(s.phase.i + 1), running := false)
    case WaitsDone => s.(phase := Free, running := false)
    case Inner(j, m) => WithProc(s, j, H.After(ProcOf(s, j), m))
  }

  // ---------------------------------------------------------------- the invariant

  /** The values process `j` should have been given: all runs since it was added, the last of them
      only once the start loop has come to it. */
  function Due(s: State, j: nat): seq<Word>
    requires j < |s.procs| && |s.born| == |s.procs| && s.born[j] <= |s.rounds|
  {
    if s.phase.StartAt? && s.procs[j].parent == H.Turn && s.born[j] < |s.rounds|
    then s.rounds[s.born[j]..|s.rounds| - 1]
    else s.rounds[s.born[j]..]
  }

  predicate PhaseFits(s: State, j: nat)
    requires j < |s.procs|
  {
    var p := s.procs[j].parent;
    match s.phase
    case Free | Creating(_) => p == H.Turn
    case StartAt(i, _) => if j < i then p == H.Started else if j == i then p != H.Waiting else p == H.Turn
    case WaitAt(i) => if j < i then p == H.Turn else if j == i then p != H.Starting else p == H.Started
  }

  /** Process `j` is where the parent's loop left it and has been sent what is due. */
  predicate Placed(s: State, j: nat)
    requires j < |s.procs| && |s.born| == |s.procs|
  {
    && PhaseFits(s, j)
    && s.born[j] <= |s.rounds|
    && (s.phase.StartAt? || s.phase.WaitAt? ==> s.born[j] < |s.rounds|)
    && s.procs[j].sent == Due(s, j)
  }

  ghost predicate ProcFits(s: State, j: nat)
    requires j < |s.procs| && |s.born| == |s.procs|
  {
    H.Good(s.procs[j]) && Placed(s, j)
  }

  predicate LoopFits(s: State) {
    match s.phase
    case Free => !s.running
    case Creating(p) => !s.running && p.parent != H.Starting && p.sent == []
    case StartAt(i, iters) =>
      s.running && i <= |s.procs| && s.rounds != [] && s.rounds[|s.rounds| - 1] == iters
    case WaitAt(i) => i <= |s.procs| && (s.running <==> i == 0)
  }

  ghost predicate Good(s: State) {
    && |s.born| == |s.procs|
    && (forall j :: 0 <= j < |s.procs| ==> ProcFits(s, j))
    && (s.phase.Creating? ==> H.Good(s.phase.p))
    && LoopFits(s)
  }

  /** What one move of a process does to the parent's position and to the values sent. */
  predicate Moved(p: H.State, m: H.Move, p': H.State) {
    && p'.sent == (if m.Store? then p.sent + [m.iters] else p.sent)
    && (m.Store? ==> p.parent == H.Turn && p'.parent == H.Starting)
    && (m.StartDone? ==> p.parent == H.Starting && p'.parent == H.Started)
    && (InWait(m) && p.parent != H.Starting ==> p'.parent != H.Starting)
    && (m.StartSem? || !ByParent(m) ==> p'.parent == p.parent)
    && (ByParent(m) && m.StartSem? ==> p.parent == H.Starting)
    && (ByParent(m) && InWait(m) ==> p.parent != H.Turn)
  }

  lemma ProcMove(p: H.State, m: H.Move)
    requires H.Good(p) && H.CanMove(p, m)
    ensures H.Good(H.After(p, m)) && Moved(p, m, H.After(p, m))
  {
    H.Keeps(p, m);
  }

  lemma ReplacedKeeps(s: State, j: nat, p: H.State)
    requires Good(s) && j < |s.procs| && H.Good(p)
    requires ProcFits(s.(procs := s.procs[j := p]), j)
    ensures Good(s.(procs := s.procs[j := p]))
  {
    var s' := s.(procs := s.procs[j := p]);
    assert ProcFits(s, j);
    forall k | 0 <= k < |s'.procs|
      ensures ProcFits(s', k)
    {
      assert ProcFits(s, k);
    }
  }

  lemma ProcKeeps(s: State, j: nat, m: H.Move, p: H.State)
    requires |s.born| == |s.procs| && LoopFits(s)
    requires j < |s.procs| && Placed(s, j) && Permitted(s, j, m) && Moved(s.procs[j], m, p)
    ensures Placed(s.(procs := s.procs[j := p]), j)
  {
    if m.Store? {
      assert s.rounds[s.born[j]..] == s.rounds[s.born[j]..|s.rounds| - 1] + [s.rounds[|s.rounds| - 1]];
    }
  }

  lemma InnerKeeps(s: State, j: nat, m: H.Move)
    requires Good(s) && CanMove(s, Inner(j, m))
    ensures Good(After(s, Inner(j, m)))
  {
    if j < |s.procs| {
      assert ProcFits(s, j);
      ProcMove(s.procs[j], m);
      var p := H.After(s.procs[j], m);
      ProcKeeps(s, j, m, p);
      ReplacedKeeps(s, j, p);
    } else {
      ProcMove(s.phase.p, m);
      var s' := After(s, Inner(j, m));
      forall k | 0 <= k < |s'.procs|
        ensures ProcFits(s', k)
      {
        assert ProcFits(s, k);
      }
    }
  }

  lemma LoopKeeps(s: State, m: Move)
    requires Good(s) && CanMove(s, m) && !m.Inner?
    ensures Good(After(s, m))
  {
    var s' := After(s, m);
    if m.Create? {
      H.FreshGood();
    }
    forall k | 0 <= k < |s'.procs|
      ensures ProcFits(s', k)
    {
      if k < |s.procs| {
        assert ProcFits(s, k);
      }
    }
  }

  lemma Keeps(s: State, m: Move)
    requires Good(s) && CanMove(s, m)
    ensures Good(After(s, m))
  {
    if m.Inner? {
      InnerKeeps(s, m.j, m.m);
    } else {
      LoopKeeps(s, m);
    }
  }

  // ---------------------------------------------------------------- whole runs

  ghost function Exec(run: seq<Move>): Option<State> {
    if run == [] then Some(Start())
    else
      match Exec(run[..|run| - 1])
      case None => None
      case Some(s) =>
        var m := run[|run| - 1];
        if CanMove(s, m) then Some(After(s, m)) else None
  }

  lemma {:induction false} AlwaysGood(run: seq<Move>)
    requires Exec(run).Some?
    ensures Good(Exec(run).value)
  {
    if run != [] {
      AlwaysGood(run[..|run| - 1]);
      Keeps(Exec(run[..|run| - 1]).value, run[|run| - 1]);
    }
  }

  /** The state of a process while the parent is between runs. */
  predicate Delivered(s: State, j: nat)
    requires j < |s.procs|
  {
    var p := s.procs[j];
    && |s.born| == |s.procs| && s.born[j] <= |s.rounds|
    && p.got == s.rounds[s.born[j]..]
    && H.WellFormed(p)
    && (|| (p.child == H.Readying && Committed(p.ready.pcs[H.CHILD]))
        || (p.child == H.Awaiting && !Committed(p.start.pcs[H.CHILD])))
  }

  lemma FreeDelivered(s: State, j: nat)
    requires Good(s) && s.phase.Free? && j < |s.procs|
    ensures Delivered(s, j) && !s.running
  {
    assert ProcFits(s, j);
  }

  /** Whenever the parent is between runs, every process has received exactly the values of all the
      runs since it was added, has finished with the last one, and is on its way into its start
      semaphore or parked there; and the running flag is down. */
  lemma RunsDelivered(run: seq<Move>, j: nat)
    requires Exec(run).Some? && Exec(run).value.phase.Free? && j < |Exec(run).value.procs|
    ensures Delivered(Exec(run).value, j) && !Exec(run).value.running
  {
    AlwaysGood(run);
    FreeDelivered(Exec(run).value, j);
  }

  /** The running flag is up from the beginning of a run until the first process has been waited for,
      and down at all other times. */
  lemma {:induction false} RunningExactly(run: seq<Move>)
    requires Exec(run).Some?
    ensures var s := Exec(run).value; s.running <==> s.phase.StartAt? || s.phase == WaitAt(0)
  {
    AlwaysGood(run);
  }

  // ---------------------------------------------------------------- every run returns

  predicate Steady(m: Move) {
    m.Inner? ==> H.Steady(m.m)
  }

  lemma MoveKind(p: H.State, m: H.Move)
    requires H.Good(p) && H.CanMove(p, m) && ByParent(m)
    ensures match p.parent
            case Turn => m.Store?
            case Starting => m.StartSem? || m.StartDone?
            case Started => m.Wait?
            case Waiting => m.ReadySem? || m.WaitDone?
  {
  }

  lemma WaitMoves(s: State, j: nat) returns (m: Move)
    requires Good(s) && Exists(s, j) && H.Good(ProcOf(s, j))
    requires (s.phase.Creating? && j == |s.procs|) || (s.phase.WaitAt? && j == s.phase.i)
    requires ProcOf(s, j).parent == H.Started || ProcOf(s, j).parent == H.Waiting
    ensures CanMove(s, m) && Steady(m) && m.Inner?
  {
    var p := ProcOf(s, j);
    var h := H.CanGoOn(p);
    if ByParent(h) {
      MoveKind(p, h);
    }
    m := Inner(j, h);
  }

  /** In the start loop the parent itself can always go on. */
  lemma StartGoesOn(s: State) returns (m: Move)
    requires Good(s) && s.phase.StartAt?
    ensures CanMove(s, m) && Steady(m)
    ensures m.StartsDone? || m.NextStart? || (m.Inner? && !m.m.GetIters?)
  {
    var i := s.phase.i;
    if i == |s.procs| {
      m := StartsDone;
    } else {
      assert ProcFits(s, i);
      if s.procs[i].parent == H.Started {
        m := NextStart;
      } else if s.procs[i].parent == H.Turn {
        m := Inner(i, H.Store(s.phase.iters));
      } else {
        var h := H.StartingGoesOn(s.procs[i]);
        m := Inner(i, h);
      }
    }
  }

  /** The whole system is never stuck; outside a run only the caller decides. */
  lemma CanGoOn(s: State) returns (m: Move)
    requires Good(s)
    ensures CanMove(s, m) && Steady(m) && (m.Create? || m.Run? ==> s.phase.Free?)
  {
    match s.phase
    case Free => m := Run(0);
    case Creating(p) =>
      if p.parent == H.Turn {
        m := Add;
      } else {
        m := WaitMoves(s, |s.procs|);
      }
    case StartAt(_, _) => m := StartGoesOn(s);
    case WaitAt(i) =>
      if i == |s.procs| {
        m := WaitsDone;
      } else {
        assert ProcFits(s, i);
        if s.procs[i].parent == H.Turn {
          m := NextWait;
        } else {
          m := WaitMoves(s, i);
        }
      }
  }

  ghost predicate AllWellFormed(procs: seq<H.State>) {
    forall j :: 0 <= j < |procs| ==> H.WellFormed(procs[j])
  }

  ghost function Sum(procs: seq<H.State>): nat
    requires AllWellFormed(procs)
  {
    if procs == [] then 0
    else Sum(procs[..|procs| - 1]) + H.Measure(procs[|procs| - 1])
  }

  lemma {:induction false} SumBound(procs: seq<H.State>)
    requires AllWellFormed(procs)
    ensures Sum(procs) <= |procs| * H.LONGEST_ROUND
  {
    if procs != [] {
      SumBound(procs[..|procs| - 1]);
    }
  }

  lemma {:induction false} SumUpdate(procs: seq<H.State>, j: nat, p: H.State)
    requires AllWellFormed(procs) && H.WellFormed(p) && j < |procs|
    ensures AllWellFormed(procs[j := p])
    ensures Sum(procs[j := p]) == Sum(procs) - H.Measure(procs[j]) + H.Measure(p)
  {
    var k := |procs| - 1;
    var procs' := procs[j := p];
    assert AllWellFormed(procs');
    if j < k {
      SumUpdate(procs[..k], j, p);
      assert procs'[..k] == procs[..k][j := p];
    } else {
      assert procs'[..k] == procs[..k];
    }
  }

  /** How many `start` calls the current loop still has to make. */
  function StartsLeft(s: State): (r: nat)
    ensures r <= |s.procs|
  {
    match s.phase
    case StartAt(i, _) =>
      if i >= |s.procs| then 0
      else if s.procs[i].parent == H.Turn then |s.procs| - i else |s.procs| - i - 1
    case _ => 0
  }

  function PhaseRank(s: State): (r: nat)
    ensures r <= 2 * |s.procs| + 3
  {
    var k := |s.procs|;
    match s.phase
    case Free => 0
    case Creating(_) => 1
    case StartAt(i, _) => if i <= k then 2 * k - i + 3 else 0
    case WaitAt(i) => if i <= k then k - i + 1 else 0
  }

  ghost predicate Shaped(s: State) {
    AllWellFormed(s.procs) && (s.phase.Creating? ==> H.WellFormed(s.phase.p))
  }

  lemma GoodShaped(s: State)
    requires Good(s)
    ensures Shaped(s)
  {
    forall j | 0 <= j < |s.procs|
      ensures H.WellFormed(s.procs[j])
    {
      assert ProcFits(s, j);
    }
  }

  ghost function ProcsLeft(s: State): nat
    requires Shaped(s)
  {
    Sum(s.procs) + if s.phase.Creating? then H.Measure(s.phase.p) else 0
  }

  ghost function Measure(s: State): nat
    requires Shaped(s)
  {
    ProcsLeft(s) + StartsLeft(s) * (H.LONGEST_ROUND + 1) + PhaseRank(s)
  }

  function LongestRun(k: nat): nat {
    k * H.LONGEST_ROUND + H.LONGEST_ROUND + k * (H.LONGEST_ROUND + 1) + 2 * k + 3
  }

  lemma MeasureBound(s: State)
    requires Shaped(s)
    ensures Measure(s) <= LongestRun(|s.procs|)
  {
    SumBound(s.procs);
    assert ProcsLeft(s) <= |s.procs| * H.LONGEST_ROUND + H.LONGEST_ROUND;
  }

  lemma InnerProcsLeft(s: State, j: nat, h: H.Move)
    requires Good(s) && CanMove(s, Inner(j, h)) && Shaped(s) && Shaped(After(s, Inner(j, h)))
    requires H.WellFormed(H.After(ProcOf(s, j), h))
    ensures ProcsLeft(After(s, Inner(j, h))) ==
            ProcsLeft(s) - H.Measure(ProcOf(s, j)) + H.Measure(H.After(ProcOf(s, j), h))
  {
    if j < |s.procs| {
      SumUpdate(s.procs, j, H.After(s.procs[j], h));
    }
  }

  lemma InnerStartsLeft(s: State, j: nat, h: H.Move)
    requires Good(s) && CanMove(s, Inner(j, h)) && H.Good(ProcOf(s, j))
    ensures StartsLeft(After(s, Inner(j, h))) == StartsLeft(s) - if h.Store? then 1 else 0
    ensures PhaseRank(After(s, Inner(j, h))) == PhaseRank(s)
  {
    var p := ProcOf(s, j);
    ProcMove(p, h);
    if ByParent(h) {
      MoveKind(p, h);
    }
  }

  lemma Weigh(left: nat, left': nat, starts: nat, starts': nat, c: nat)
    requires (starts' == starts && left' < left) || (starts' == starts - 1 && left' < left + c)
    ensures left' + starts' * c < left + starts * c
  {
    if starts' == starts - 1 {
      assert starts * c == starts' * c + c;
    }
  }

  lemma InnerFalls(s: State, j: nat, h: H.Move)
    requires Good(s) && CanMove(s, Inner(j, h)) && H.Steady(h) && H.Good(ProcOf(s, j))
    requires Shaped(s) && Shaped(After(s, Inner(j, h)))
    ensures Measure(After(s, Inner(j, h))) < Measure(s)
  {
    var p := ProcOf(s, j);
    H.Keeps(p, h);
    InnerProcsLeft(s, j, h);
    InnerStartsLeft(s, j, h);
    if !h.Store? {
      H.MeasureFalls(p, h);
    }
    var s' := After(s, Inner(j, h));
    Weigh(ProcsLeft(s), ProcsLeft(s'), StartsLeft(s), StartsLeft(s'), H.LONGEST_ROUND + 1);
  }

  lemma LoopFalls(s: State, m: Move)
    requires Good(s) && CanMove(s, m) && !m.Inner? && !m.Create? && !m.Run? && Shaped(s)
    requires Shaped(After(s, m))
    ensures Measure(After(s, m)) < Measure(s)
  {
    var s' := After(s, m);
    if m.Add? {
      assert s'.procs[..|s.procs|] == s.procs;
    } else if m.NextStart? {
      if s.phase.i + 1 < |s.procs| {
        assert ProcFits(s, s.phase.i + 1);
      }
      assert StartsLeft(s') == StartsLeft(s);
    }
    assert ProcsLeft(s') == ProcsLeft(s);
  }

  lemma MeasureFalls(s: State, m: Move)
    requires Good(s) && CanMove(s, m) && Steady(m) && !m.Create? && !m.Run?
    ensures Good(After(s, m)) && Shaped(s) && Shaped(After(s, m)) && Measure(After(s, m)) < Measure(s)
  {
    Keeps(s, m);
    GoodShaped(s);
    GoodShaped(After(s, m));
    if m.Inner? {
      if m.j < |s.procs| {
        assert ProcFits(s, m.j);
      }
      InnerFalls(s, m.j, m.m);
    } else {
      LoopFalls(s, m);
    }
  }

  /** Moves made on behalf of the current call of `create`, `start` or `wait`. */
  ghost predicate OneCall(more: seq<Move>) {
    forall m :: m in more ==> Steady(m) && !m.Create? && !m.Run?
  }

  lemma {:induction false} CallBounded(run: seq<Move>, more: seq<Move>)
    requires Exec(run).Some? && Exec(run + more).Some? && OneCall(more)
    ensures Good(Exec(run).value) && Good(Exec(run + more).value)
    ensures Shaped(Exec(run).value) && Shaped(Exec(run + more).value)
    ensures Measure(Exec(run + more).value) + |more| <= Measure(Exec(run).value)
    decreases |more|
  {
    AlwaysGood(run);
    AlwaysGood(run + more);
    GoodShaped(Exec(run).value);
    GoodShaped(Exec(run + more).value);
    if more == [] {
      assert run + more == run;
    } else {
      var prev, m := more[..|more| - 1], more[|more| - 1];
      assert (run + more)[..|run + more| - 1] == run + prev;
      assert m in more;
      CallBounded(run, prev);
      MeasureFalls(Exec(run + prev).value, m);
    }
  }

  /** Under every scheduler `Context::run` and the creation of a process return: without a new
      call only a bounded number of dependable moves is possible, and when no more is possible the
      parent is free again. */
  lemma EveryRunReturns(run: seq<Move>, more: seq<Move>)
    requires Exec(run).Some? && Exec(run + more).Some? && OneCall(more)
    ensures |more| <= LongestRun(|Exec(run).value.procs|)
    ensures (forall m :: Steady(m) && !m.Create? && !m.Run? ==> Exec(run + more + [m]).None?) ==>
              Exec(run + more).value.phase.Free?
  {
    CallBounded(run, more);
    MeasureBound(Exec(run).value);
    var s := Exec(run + more).value;
    if !s.phase.Free? {
      var m := CanGoOn(s);
      assert (run + more + [m])[..|run + more + [m]| - 1] == run + more;
      assert Exec(run + more + [m]).Some?;
    }
  }
}
