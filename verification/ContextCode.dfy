/** `Context::start`, `wait` and `run` as the loops the program runs, against an arbitrary future
    of what the children and the semaphore calls do; a future may end before the call returns.
    Every move is recorded, and the record is a run of the context machine. */
module ContextCode {
  import opened Wrappers
  import opened Context
  import H = Handshake
  import S = Semaphore

  /** The loops' own state is unchanged, and so is the parent's place in every process. */
  predicate SameParent(s: State, s': State) {
    && (if s.phase.Creating? then s'.phase.Creating? && s'.phase.p.parent == s.phase.p.parent else s'.phase == s.phase)
    && s'.running == s.running && s'.rounds == s.rounds && s'.born == s.born && |s'.procs| == |s.procs|
    && forall j :: 0 <= j < |s.procs| ==> s'.procs[j].parent == s.procs[j].parent
  }

  /** The steps taken while the parent is inside a semaphore call. */
  predicate Passing(m: Move) {
    m.Inner? && (ByParent(m.m) ==> m.m.StartSem? || m.m.ReadySem?)
  }

  lemma GoodProc(s: State, j: nat)
    requires Good(s) && Exists(s, j)
    ensures H.Good(ProcOf(s, j))
  {
    if j < |s.procs| {
      assert ProcFits(s, j);
    }
  }

  lemma PassingSame(s: State, m: Move)
    requires Good(s) && CanMove(s, m) && Passing(m)
    ensures SameParent(s, After(s, m))
  {
    GoodProc(s, m.j);
    ProcMove(ProcOf(s, m.j), m.m);
  }

  /** Where the parent stands in process `j`. */
  lemma {:induction false} PhaseAt(run: seq<Move>, j: nat)
    requires Exec(run).Some? && j < |Exec(run).value.procs|
    ensures PhaseFits(Exec(run).value, j)
  {
    AlwaysGood(run);
    assert ProcFits(Exec(run).value, j);
  }

  lemma {:induction false} CurrentGood(run: seq<Move>, j: nat)
    requires Exec(run).Some? && Exists(Exec(run).value, j)
    ensures H.Good(ProcOf(Exec(run).value, j))
  {
    AlwaysGood(run);
    GoodProc(Exec(run).value, j);
  }

  lemma ExecSnoc(run: seq<Move>, m: Move)
    requires Exec(run).Some? && CanMove(Exec(run).value, m)
    ensures Exec(run + [m]) == Some(After(Exec(run).value, m))
  {
    assert (run + [m])[..|run + [m]| - 1] == run;
  }

  /** The semaphore call the parent has in progress on a process is over. */
  predicate CallOver(p: H.State)
    requires H.WellFormed(p)
  {
    if p.parent == H.Starting then p.start.pcs[H.PARENT].Returned? else p.ready.pcs[H.PARENT].Returned?
  }

  class RunningContext {
    var s: State
    var future: seq<Move>
    ghost var trace: seq<Move>

    ghost predicate Valid()
      reads this
    {
      Exec(trace) == Some(s)
    }

    constructor (future: seq<Move>)
      ensures Valid() && s == Start() && this.future == future
    {
      s := Start();
      this.future := future;
      trace := [];
    }

    method Take(m: Move)
      requires Valid() && CanMove(s, m)
      modifies this`s, this`trace
      ensures Valid() && s == After(old(s), m) && trace == old(trace) + [m]
    {
      ExecSnoc(trace, m);
      s := After(s, m);
      trace := trace + [m];
    }

    /** Lets the rest of the system run until the parent's semaphore call on process `i` is over. */
    method Pass(i: nat) returns (done: bool)
      requires Valid() && Exists(s, i)
      modifies this
      ensures Valid() && SameParent(old(s), s) && |future| <= old(|future|)
      ensures H.WellFormed(ProcOf(s, i)) && if done then CallOver(ProcOf(s, i)) else future == []
      ensures done && |future| == old(|future|) ==> s == old(s)
    {
      while true
        invariant Valid() && SameParent(old(s), s) && |future| <= old(|future|)
        invariant |future| == old(|future|) ==> s == old(s)
        decreases |future|
      {
        CurrentGood(trace, i);
        if CallOver(ProcOf(s, i)) {
          return true;
        }
        if future == [] {
          return false;
        }
        var m := future[0];
        future := future[1..];
        if CanMove(s, m) && Passing(m) {
          AlwaysGood(trace);
          PassingSame(s, m);
          Take(m);
        }
      }
    }

    /** `Process::start` */
    method StartProcess(i: nat, iters: S.Word) returns (done: bool)
      requires Valid() && s.phase == StartAt(i, iters) && i < |s.procs| && s.procs[i].parent == H.Turn
      modifies this
      ensures Valid() && s.rounds == old(s.rounds) && s.born == old(s.born) && |s.procs| == old(|s.procs|)
      ensures !done ==> future == []
      ensures done ==> s.phase == StartAt(i, iters) && s.procs[i].parent == H.Started
    {
      CurrentGood(trace, i);
      Take(Inner(i, H.Store(iters)));
      done := Pass(i);
      if done {
        Take(Inner(i, H.StartDone));
      }
    }

    /** The parent may wait for process `i`: it is the one its loop has come to, or a new one. */
    predicate Reached(i: nat)
      reads this
    {
      (s.phase == WaitAt(i) && i < |s.procs|) || (s.phase.Creating? && i == |s.procs|)
    }

    /** `Process::wait`, the child being alive. */
    method WaitForProcess(i: nat) returns (done: bool)
      requires Valid() && Reached(i) && ProcOf(s, i).parent == H.Started
      modifies this
      ensures Valid() && s.rounds == old(s.rounds) && s.born == old(s.born) && |s.procs| == old(|s.procs|)
      ensures !done ==> future == []
      ensures done ==> Reached(i) && s.phase.Creating? == old(s.phase.Creating?) && ProcOf(s, i).parent == H.Turn
    {
      while true
        invariant Valid() && s.rounds == old(s.rounds) && s.born == old(s.born) && |s.procs| == old(|s.procs|)
        invariant Reached(i) && s.phase.Creating? == old(s.phase.Creating?) && ProcOf(s, i).parent == H.Started
        decreases |future|
      {
        CurrentGood(trace, i);
        Take(Inner(i, H.Wait));
        done := Pass(i);
        if !done {
          return;
        }
        var ok := ProcOf(s, i).ready.pcs[H.PARENT].ok;
        Take(Inner(i, H.WaitDone));
        if ok {
          return;
        }
      }
    }

    /** `Context::start` */
    method StartAll(iters: S.Word) returns (done: bool)
      requires Valid() && s.phase == Free
      modifies this
      ensures Valid() && s.rounds == old(s.rounds) + [iters] && s.born == old(s.born) && |s.procs| == old(|s.procs|)
      ensures !done ==> future == []
      ensures done ==> s.phase == WaitAt(0)
      ensures done ==> forall j :: 0 <= j < |s.procs| ==> s.procs[j].parent == H.Started
    {
      if s.procs != [] {
        PhaseAt(trace, 0);
      }
      Take(Run(iters));
      for i := 0 to |s.procs|
        invariant Valid() && s.phase == StartAt(i, iters)
        invariant s.rounds == old(s.rounds) + [iters] && s.born == old(s.born) && |s.procs| == old(|s.procs|)
        invariant i < |s.procs| ==> s.procs[i].parent == H.Turn
      {
        done := StartProcess(i, iters);
        if !done {
          return;
        }
        if i + 1 < |s.procs| {
          PhaseAt(trace, i + 1);
        }
        Take(NextStart);
      }
      forall j | 0 <= j < |s.procs|
        ensures s.procs[j].parent == H.Started
      {
        PhaseAt(trace, j);
      }
      Take(StartsDone);
      done := true;
    }

    /** `Context::wait` */
    method WaitForAll() returns (done: bool)
      requires Valid() && s.phase == WaitAt(0)
      requires forall j :: 0 <= j < |s.procs| ==> s.procs[j].parent == H.Started
      modifies this
      ensures Valid() && s.rounds == old(s.rounds) && s.born == old(s.born) && |s.procs| == old(|s.procs|)
      ensures !done ==> future == []
      ensures done ==> s.phase == Free
    {
      for i := 0 to |s.procs|
        invariant Valid() && s.phase == WaitAt(i)
        invariant s.rounds == old(s.rounds) && s.born == old(s.born) && |s.procs| == old(|s.procs|)
        invariant i < |s.procs| ==> s.procs[i].parent == H.Started
      {
        done := WaitForProcess(i);
        if !done {
          return;
        }
        if i + 1 < |s.procs| {
          PhaseAt(trace, i + 1);
        }
        Take(NextWait);
      }
      Take(WaitsDone);
      done := true;
    }

    /** `Context::run`: when it returns, every process has received `iters` once more and nothing
        else, and the running flag is down. */
    method RunAll(iters: S.Word) returns (done: bool)
      requires Valid() && s.phase == Free
      modifies this
      ensures Valid() && |s.procs| == old(|s.procs|) && s.rounds == old(s.rounds) + [iters]
      ensures !done ==> future == []
      ensures done ==> s.phase == Free && !s.running
      ensures done ==> forall j :: 0 <= j < |s.procs| ==> s.procs[j].got == old(s.procs[j].got) + [iters]
    {
      ghost var before, start := trace, s;
      done := StartAll(iters);
      if done {
        done := WaitForAll();
      }
      if done {
        AlwaysGood(trace);
        forall j | 0 <= j < |s.procs|
          ensures s.procs[j].got == start.procs[j].got + [iters]
        {
          RunsDelivered(before, j);
          RunsDelivered(trace, j);
          assert (start.rounds + [iters])[s.born[j]..] == start.rounds[s.born[j]..] + [iters];
        }
      }
    }

    /** `Process::create` and `Context::add`: the parent waits until the new child is ready. */
    method AddProcess() returns (done: bool)
      requires Valid() && s.phase == Free
      modifies this
      ensures Valid() && s.rounds == old(s.rounds)
      ensures !done ==> future == []
      ensures done ==> s.phase == Free && |s.procs| == old(|s.procs|) + 1 && s.procs[old(|s.procs|)].got == []
      ensures done ==> forall j :: 0 <= j < old(|s.procs|) ==> s.procs[j].got == old(s.procs[j].got)
    {
      var k := |s.procs|;
      ghost var before, start := trace, s;
      AlwaysGood(trace);
      Take(Create);
      done := WaitForProcess(k);
      if done {
        Take(Add);
        AlwaysGood(trace);
        RunsDelivered(trace, k);
        forall j | 0 <= j < k
          ensures s.procs[j].got == start.procs[j].got
        {
          RunsDelivered(before, j);
          RunsDelivered(trace, j);
        }
      }
    }
  }
}
