/** The start/ready rendezvous between a parent and one child process, run over two step-level
    semaphores of limit one. The parent is thread 0 and the child thread 1 of both. */
module Handshake {
  import opened Semaphore
  import opened Wrappers

  const PARENT: nat := 0
  const CHILD: nat := 1

  const READY_TAKE := Call(Consume, 1, 1, true)   // wait: a one-second timeout
  const START_GIVE := Call(Produce, 1, 1, false)
  const READY_GIVE := Call(Produce, 1, 1, false)
  const START_TAKE := Call(Consume, 1, 1, false)

  /** `Turn`: `wait` has returned. `Starting`: inside `start`'s produce. `Started`: about to call
      `ready.consume`. `Waiting`: inside it. */
  datatype Parent = Turn | Starting | Started | Waiting

  /** `Running`: in the workload. `Readying` and `Awaiting`: inside `get_iters`' produce and
      consume. `Swapping`: about to swap `iters`. */
  datatype Child = Running | Readying | Awaiting | Swapping | Panicked

  /** `sent` and `got` record the values given to `start` and returned by `get_iters`. */
  datatype State = State(start: Sys, ready: Sys, iters: Word, parent: Parent, child: Child,
                         sent: seq<Word>, got: seq<Word>)

  /** The child has just been forked and the parent is about to wait for it. */
  function Fresh(): State {
    State(Init(2), Init(2), 0, Started, Running, [], [])
  }

  datatype Move =
    | Store(iters: Word)     // parent: `iters.store`, then enter `start.produce`
    | StartSem(t: nat, e: Event)
    | ReadySem(t: nat, e: Event)
    | StartDone              // parent: `start.produce` returns
    | Wait                   // parent: enter `ready.consume`
    | WaitDone               // parent: it returns; on a timeout the child is found alive
    | GetIters               // child: enter `ready.produce`
    | ReadyDone              // child: it returns; enter `start.consume`
    | AwaitDone              // child: it returns
    | Swap                   // child: `iters.swap(0)`

  predicate WellFormed(s: State) {
    && |s.start.pcs| == 2 && |s.ready.pcs| == 2
    && Amount(s.start.word) <= 1 && Amount(s.ready.word) <= 1
  }

  predicate CanMove(s: State, m: Move)
    requires WellFormed(s)
  {
    match m
    case Store(_) => s.parent == Turn && s.start.pcs[PARENT].Idle?
    case StartSem(t, e) => Internal(e) && Enabled(1, s.start, t, e)
    case ReadySem(t, e) => Internal(e) && Enabled(1, s.ready, t, e)
    case StartDone => s.parent == Starting && s.start.pcs[PARENT].Returned?
    case Wait => s.parent == Started && s.ready.pcs[PARENT].Idle?
    case WaitDone => s.parent == Waiting && s.ready.pcs[PARENT].Returned?
    case GetIters => s.child == Running && s.ready.pcs[CHILD].Idle?
    case ReadyDone => s.child == Readying && s.ready.pcs[CHILD].Returned? && s.start.pcs[CHILD].Idle?
    case AwaitDone => s.child == Awaiting && s.start.pcs[CHILD].Returned?
    case Swap => s.child == Swapping
  }

  function Enter(s: Sys, t: nat, call: Call): Sys
    requires t < |s.pcs| && s.pcs[t].Idle? && Amount(s.word) <= 1
  {
    Next(1, s, t, Begin(call))
  }

  function Leave(s: Sys, t: nat): Sys
    requires t < |s.pcs| && s.pcs[t].Returned? && Amount(s.word) <= 1
  {
    Next(1, s, t, Collect(s.pcs[t].call, s.pcs[t].ok))
  }

  function After(s: State, m: Move): State
    requires WellFormed(s) && CanMove(s, m)
  {
    match m
    case Store(iters) =>
      s.(iters := iters, sent := s.sent + [iters], parent := Starting,
         start := Enter(s.start, PARENT, START_GIVE))
    case StartSem(t, e) => s.(start := Next(1, s.start, t, e))
    case ReadySem(t, e) => s.(ready := Next(1, s.ready, t, e))
    case StartDone => s.(parent := Started, start := Leave(s.start, PARENT))
    case Wait => s.(parent := Waiting, ready := Enter(s.ready, PARENT, READY_TAKE))
    case WaitDone =>
      s.(parent := if s.ready.pcs[PARENT].ok then Turn else Started,
         ready := Leave(s.ready, PARENT))
    case GetIters => s.(child := Readying, ready := Enter(s.ready, CHILD, READY_GIVE))
    case ReadyDone =>
      s.(child := Awaiting, ready := Leave(s.ready, CHILD), start := Enter(s.start, CHILD, START_TAKE))
    case AwaitDone =>
      s.(child := if s.start.pcs[CHILD].ok then Swapping else Panicked,
         start := Leave(s.start, CHILD))
    case Swap => s.(child := Running, got := s.got + [s.iters], iters := 0)
  }

  predicate ByChild(m: Move) {
    match m
    case StartSem(t, _) => t == CHILD
    case ReadySem(t, _) => t == CHILD
    case GetIters | ReadyDone | AwaitDone | Swap => true
    case _ => false
  }

  // ---------------------------------------------------------------- the token

  predicate ParentHolds(s: State)
    requires WellFormed(s)
  {
    || s.parent == Turn
    || (s.parent == Starting && !Committed(s.start.pcs[PARENT]))
    || (s.parent == Waiting && Committed(s.ready.pcs[PARENT]))
  }

  predicate ChildHolds(s: State)
    requires WellFormed(s)
  {
    || s.child == Running
    || s.child == Swapping
    || (s.child == Readying && !Committed(s.ready.pcs[CHILD]))
    || (s.child == Awaiting && Committed(s.start.pcs[CHILD]))
  }

  function Tokens(s: State): int
    requires WellFormed(s)
  {
    Amount(s.start.word) + Amount(s.ready.word) +
    (if ParentHolds(s) then 1 else 0) + (if ChildHolds(s) then 1 else 0)
  }

  /** A value has been stored that the child has not yet swapped out. */
  predicate Undelivered(s: State)
    requires WellFormed(s)
  {
    || (s.parent == Starting && !Committed(s.start.pcs[PARENT]))
    || Amount(s.start.word) == 1
    || (s.child == Awaiting && Committed(s.start.pcs[CHILD]))
    || s.child == Swapping
  }

  /** Each semaphore call is in progress exactly while the program is inside it. */
  predicate Coherent(s: State)
    requires WellFormed(s)
  {
    && (if s.parent == Starting then InCall(s.start.pcs[PARENT], START_GIVE) else s.start.pcs[PARENT].Idle?)
    && (if s.parent == Waiting then InCall(s.ready.pcs[PARENT], READY_TAKE) else s.ready.pcs[PARENT].Idle?)
    && (if s.child == Readying then InCall(s.ready.pcs[CHILD], READY_GIVE) else s.ready.pcs[CHILD].Idle?)
    && (if s.child == Awaiting then InCall(s.start.pcs[CHILD], START_TAKE) else s.start.pcs[CHILD].Idle?)
    && s.child != Panicked
  }

  /** A producer finds room: it never holds a value that does not fit, and never sleeps. */
  predicate Unblocked(pc: Pc) {
    !pc.Asleep? && (pc.Loaded? ==> Fits(1, pc.call, pc.cur))
  }

  ghost predicate Good(s: State) {
    && WellFormed(s)
    && Inv(1, s.start) && Inv(1, s.ready)
    && UntimedSucceed(s.start) && UntimedSucceed(s.ready)
    && Coherent(s)
    && Tokens(s) == 1
    && Unblocked(s.start.pcs[PARENT])
    && Unblocked(s.ready.pcs[CHILD])
    && (if Undelivered(s) then s.sent == s.got + [s.iters] else s.sent == s.got && s.iters == 0)
  }

  lemma FreshGood()
    ensures Good(Fresh())
  {
  }

  lemma StartSemKeeps(s: State, t: nat, e: Event)
    requires Good(s) && CanMove(s, StartSem(t, e))
    ensures Good(After(s, StartSem(t, e)))
  {
    InvStep(1, s.start, t, e);
    InternalStep(1, s.start, t, e);
  }

  lemma ReadySemKeeps(s: State, t: nat, e: Event)
    requires Good(s) && CanMove(s, ReadySem(t, e))
    ensures Good(After(s, ReadySem(t, e)))
  {
    InvStep(1, s.ready, t, e);
    InternalStep(1, s.ready, t, e);
  }

  lemma ParentKeeps(s: State, m: Move)
    requires Good(s) && CanMove(s, m) && (m.Store? || m.StartDone? || m.Wait? || m.WaitDone?)
    ensures Good(After(s, m))
  {
    match m
    case Store(_) => InvStep(1, s.start, PARENT, Begin(START_GIVE));
    case StartDone => InvStep(1, s.start, PARENT, Collect(START_GIVE, s.start.pcs[PARENT].ok));
    case Wait => InvStep(1, s.ready, PARENT, Begin(READY_TAKE));
    case WaitDone => InvStep(1, s.ready, PARENT, Collect(READY_TAKE, s.ready.pcs[PARENT].ok));
    case _ =>
  }

  lemma ChildKeeps(s: State, m: Move)
    requires Good(s) && CanMove(s, m) && (m.GetIters? || m.ReadyDone? || m.AwaitDone? || m.Swap?)
    ensures Good(After(s, m))
  {
    match m
    case GetIters => InvStep(1, s.ready, CHILD, Begin(READY_GIVE));
    case ReadyDone =>
      InvStep(1, s.ready, CHILD, Collect(READY_GIVE, s.ready.pcs[CHILD].ok));
      InvStep(1, s.start, CHILD, Begin(START_TAKE));
    case AwaitDone => InvStep(1, s.start, CHILD, Collect(START_TAKE, s.start.pcs[CHILD].ok));
    case _ =>
  }

  lemma Keeps(s: State, m: Move)
    requires Good(s) && CanMove(s, m)
    ensures Good(After(s, m))
  {
    match m
    case StartSem(t, e) => StartSemKeeps(s, t, e);
    case ReadySem(t, e) => ReadySemKeeps(s, t, e);
    case Store(_) | StartDone | Wait | WaitDone => ParentKeeps(s, m);
    case GetIters | ReadyDone | AwaitDone | Swap => ChildKeeps(s, m);
  }

  // ---------------------------------------------------------------- whole runs

  /** The state after a run of moves, or None when some move was not possible. */
  ghost function Exec(run: seq<Move>): Option<State> {
    if run == [] then Some(Fresh())
    else
      match Exec(run[..|run| - 1])
      case None => None
      case Some(s) =>
        var m := run[|run| - 1];
        if WellFormed(s) && CanMove(s, m) then Some(After(s, m)) else None
  }

  lemma {:induction false} AlwaysGood(run: seq<Move>)
    requires Exec(run).Some?
    ensures Good(Exec(run).value)
  {
    if run == [] {
      FreshGood();
    } else {
      AlwaysGood(run[..|run| - 1]);
      Keeps(Exec(run[..|run| - 1]).value, run[|run| - 1]);
    }
  }

  /** Moves that need neither a timeout nor an interruption nor a spurious failure. */
  predicate Steady(m: Move) {
    match m
    case StartSem(_, e) => Dependable(e)
    case ReadySem(_, e) => Dependable(e)
    case _ => true
  }

  /** A call whose thread is not asleep moves on or is ready to return. */
  lemma CallMoves(s: Sys, t: nat) returns (e: Event)
    requires t < |s.pcs| && !s.pcs[t].Idle? && !s.pcs[t].Asleep? && !s.pcs[t].Returned?
    ensures Enabled(1, s, t, e) && Dependable(e) && Internal(e)
  {
    e := Progress(1, s, t);
  }

  /** The rendezvous is never stuck, whatever timeouts have left behind. */
  lemma CanGoOn(s: State) returns (m: Move)
    requires Good(s)
    ensures CanMove(s, m) && Steady(m)
  {
    var p := if s.parent == Starting then s.start else s.ready;
    var c := if s.child == Awaiting then s.start else s.ready;
    var e;
    if s.parent == Turn {
      m := Store(0);
    } else if s.parent == Started {
      m := Move.Wait;
    } else if s.child == Running {
      m := GetIters;
    } else if s.child == Swapping {
      m := Swap;
    } else if p.pcs[PARENT].Returned? {
      m := if s.parent == Starting then StartDone else WaitDone;
    } else if c.pcs[CHILD].Returned? {
      m := if s.child == Awaiting then AwaitDone else ReadyDone;
    } else if !p.pcs[PARENT].Asleep? {
      e := CallMoves(p, PARENT);
      m := if s.parent == Starting then StartSem(PARENT, e) else ReadySem(PARENT, e);
    } else if !c.pcs[CHILD].Asleep? {
      e := CallMoves(c, CHILD);
      m := if s.child == Awaiting then StartSem(CHILD, e) else ReadySem(CHILD, e);
    } else {
      AsleepUnfit(p, PARENT);
      AsleepUnfit(c, CHILD);
      assert false;
    }
  }

  /** A value that `start` has sent is on its way: without any help from the parent the child can
      move towards swapping it out. */
  lemma DeliveryGoesOn(s: State) returns (m: Move)
    requires Good(s) && Undelivered(s) && s.parent != Starting
    ensures CanMove(s, m) && Steady(m) && ByChild(m) && !m.GetIters?
  {
    var e;
    if s.child == Swapping {
      m := Swap;
    } else if s.child == Awaiting {
      if s.start.pcs[CHILD].Returned? {
        m := AwaitDone;
      } else {
        if s.start.pcs[CHILD].Asleep? {
          AsleepUnfit(s.start, CHILD);
        }
        e := CallMoves(s.start, CHILD);
        m := StartSem(CHILD, e);
      }
    } else {
      assert s.child == Readying;
      if s.ready.pcs[CHILD].Returned? {
        m := ReadyDone;
      } else {
        e := CallMoves(s.ready, CHILD);
        m := ReadySem(CHILD, e);
      }
    }
  }

  /** Inside `start` the parent never needs the child. */
  lemma StartingGoesOn(s: State) returns (m: Move)
    requires Good(s) && s.parent == Starting
    ensures CanMove(s, m) && Steady(m)
    ensures m.StartDone? || (m.StartSem? && m.t == PARENT)
  {
    if s.start.pcs[PARENT].Returned? {
      m := StartDone;
    } else {
      var e := CallMoves(s.start, PARENT);
      m := StartSem(PARENT, e);
    }
  }

  /** What a move does to the child and to the values it has got. */
  lemma ChildAfter(s: State, m: Move)
    requires WellFormed(s) && CanMove(s, m)
    ensures After(s, m).got == if m.Swap? then s.got + [s.iters] else s.got
    ensures m.Swap? ==> s.child == Swapping && After(s, m).child == Running
    ensures !m.Swap? && After(s, m).child == Running ==> s.child == Running
    ensures s.child == Running && !m.GetIters? ==> After(s, m).child == Running
  {
  }

  lemma NeverStuck(run: seq<Move>) returns (m: Move)
    requires Exec(run).Some?
    ensures Exec(run + [m]).Some? && Steady(m)
  {
    AlwaysGood(run);
    m := CanGoOn(Exec(run).value);
    assert (run + [m])[..|run + [m]| - 1] == run;
  }

  /** In every reachable state: one token exists; the child has received exactly the values
      stored, in order, except possibly the last; neither producer ever meets a full semaphore;
      the store and the swap are never both due; and the child never panics. */
  lemma HandshakeExact(run: seq<Move>)
    requires Exec(run).Some?
    ensures var s := Exec(run).value;
            && WellFormed(s) && Tokens(s) == 1
            && (if s.got == s.sent then s.iters == 0 else s.sent == s.got + [s.iters])
            && Unblocked(s.start.pcs[PARENT]) && Unblocked(s.ready.pcs[CHILD])
            && !(s.parent == Turn && s.child == Swapping)
            && s.child != Panicked
  {
    AlwaysGood(run);
  }

  /** Once `wait` has returned, the child has received every value, has finished with the last
      one, and is on its way into its `start.consume` or parked there. */
  lemma RoundComplete(run: seq<Move>)
    requires Exec(run).Some? && Exec(run).value.parent == Turn
    ensures var s := Exec(run).value;
            && s.got == s.sent
            && WellFormed(s)
            && Amount(s.start.word) == 0 && Amount(s.ready.word) == 0
            && (|| (s.child == Readying && Committed(s.ready.pcs[CHILD]))
                || (s.child == Awaiting && !Committed(s.start.pcs[CHILD])))
  {
    AlwaysGood(run);
  }

  // ---------------------------------------------------------------- every round ends

  function ParentRank(s: State): nat
    requires WellFormed(s)
  {
    match s.parent
    case Starting =>
      var pc := s.start.pcs[PARENT];
      if !Committed(pc) then 11 else if pc.Waking? then 10 else 9
    case Started => 7
    case Waiting =>
      var pc := s.ready.pcs[PARENT];
      if pc.Returned? then (if pc.ok then 4 else 8) else if pc.Waking? then 5 else 6
    case Turn => 0
  }

  function ChildRank(s: State): (r: nat)
    requires WellFormed(s)
    ensures r <= 16
  {
    (if |s.sent| > |s.got| then 8 else 0) +
    match s.child
    case Running => 8
    case Readying =>
      var pc := s.ready.pcs[CHILD];
      if !Committed(pc) then 7 else if pc.Waking? then 6 else 5
    case Awaiting =>
      var pc := s.start.pcs[CHILD];
      if !Committed(pc) then 4 else if pc.Waking? then 3 else 2
    case Swapping => 1
    case Panicked => 0
  }

  /** Commits and returns count for more than all the steps between them. */
  function Measure(s: State): (r: nat)
    requires WellFormed(s)
    ensures r <= LONGEST_ROUND
  {
    (ParentRank(s) + ChildRank(s)) * 30 + PairRank(s.start) + PairRank(s.ready)
  }

  const LONGEST_ROUND := 27 * 30 + 28

  lemma StartSemFalls(s: State, t: nat, e: Event)
    requires Good(s) && CanMove(s, StartSem(t, e)) && Dependable(e)
    ensures Measure(After(s, StartSem(t, e))) < Measure(s)
  {
    var s' := After(s, StartSem(t, e));
    InternalStep(1, s.start, t, e);
    if e.OpCas? || e.Wake? {
      assert ParentRank(s') + ChildRank(s') < ParentRank(s) + ChildRank(s);
    } else {
      RankFalls(1, s.start, t, e);
      assert ParentRank(s') == ParentRank(s) && ChildRank(s') == ChildRank(s);
    }
  }

  lemma ReadySemFalls(s: State, t: nat, e: Event)
    requires Good(s) && CanMove(s, ReadySem(t, e)) && Dependable(e)
    ensures Measure(After(s, ReadySem(t, e))) < Measure(s)
  {
    var s' := After(s, ReadySem(t, e));
    InternalStep(1, s.ready, t, e);
    if e.OpCas? || e.Wake? {
      assert ParentRank(s') + ChildRank(s') < ParentRank(s) + ChildRank(s);
    } else {
      RankFalls(1, s.ready, t, e);
      assert ParentRank(s') == ParentRank(s) && ChildRank(s') == ChildRank(s);
    }
  }

  lemma MeasureFalls(s: State, m: Move)
    requires Good(s) && CanMove(s, m) && Steady(m) && !m.Store?
    ensures Measure(After(s, m)) < Measure(s)
  {
    if m.StartSem? {
      StartSemFalls(s, m.t, m.e);
    } else if m.ReadySem? {
      ReadySemFalls(s, m.t, m.e);
    } else {
      var s' := After(s, m);
      assert ParentRank(s') + ChildRank(s') < ParentRank(s) + ChildRank(s);
    }
  }

  /** Moves of one round: no new value is stored and nothing undependable happens. */
  ghost predicate OneRound(more: seq<Move>) {
    forall m :: m in more ==> Steady(m) && !m.Store?
  }

  lemma {:induction false} RoundBounded(run: seq<Move>, more: seq<Move>)
    requires Exec(run).Some? && Exec(run + more).Some? && OneRound(more)
    ensures Measure(Exec(run + more).value) + |more| <= Measure(Exec(run).value)
    decreases |more|
  {
    if more == [] {
      assert run + more == run;
    } else {
      var prev, m := more[..|more| - 1], more[|more| - 1];
      assert (run + more)[..|run + more| - 1] == run + prev;
      assert m in more;
      RoundBounded(run, prev);
      AlwaysGood(run + prev);
      var s := Exec(run + prev).value;
      MeasureFalls(s, m);
      assert Exec(run + more) == Some(After(s, m));
    }
  }

  /** Under every scheduler a round ends: from any reachable state the parent and the child can
      make at most LONGEST_ROUND dependable moves before the next `start`, and when they can make
      no more, `wait` has returned. */
  lemma EveryRoundEnds(run: seq<Move>, more: seq<Move>)
    requires Exec(run).Some? && Exec(run + more).Some? && OneRound(more)
    ensures |more| <= LONGEST_ROUND
    ensures (forall m :: Steady(m) && !m.Store? ==> Exec(run + more + [m]).None?) ==>
              Exec(run + more).value.parent == Turn
  {
    AlwaysGood(run);
    RoundBounded(run, more);
    AlwaysGood(run + more);
    if Exec(run + more).value.parent != Turn {
      var m := NeverStuck(run + more);
      assert (run + more + [m])[..|run + more + [m]| - 1] == run + more;
    }
  }
}
