/** One pass of the retry loops of `consume` and `produce` against a schedule of what the other
    threads and the kernel do: what it leaves, and the laws that say when it takes, goes round
    again, gives up or is still asleep. */
module SemaphoreAttempts {
  import opened Semaphore
  import opened SemaphoreRuns
  import opened Wrappers

  /** What happens around one pass of a retry loop: what the others do before the
      compare-and-swap, whether it fails for no reason, what the others do before FUTEX_WAKE and
      whom the kernel prefers to wake, what happens before and during FUTEX_WAIT, and what the
      others do before the word is loaded again. */
  datatype Round = Round(beforeSwap: Run, spurious: bool, beforeWake: Run, prefer: set<nat>,
                         beforeWait: Run, naps: seq<Nap>, beforeLoad: Run)

  /** A stretch of sleep: what the others do, and whether the sleep then ends by itself. */
  datatype Nap = Nap(others: Run, ending: Ending)

  datatype Ending = StillAsleep | Timeout | Interruption

  /** How FUTEX_WAIT returned, if it did. */
  datatype WaitResult = NotYet | TimeIsUp | TryAgain

  /** How a pass ended: with the operation done, with another pass, with a timeout, or not yet. */
  datatype PassEnd = Took | Lost | GaveUp | Dozing

  /** What a call answers whose last pass ended so. */
  function AnswerOf(end: PassEnd): Option<bool> {
    match end
    case Took => Some(true)
    case GaveUp => Some(false)
    case Lost => None
    case Dozing => None
  }

  datatype Slept = Slept(s: Sys, r: WaitResult)

  datatype Attempt = Attempt(s: Sys, end: PassEnd)

  ghost predicate Usable(max: nat, s: Sys, t: nat) {
    max < WAITER && Amount(s.word) <= max && t < |s.pcs|
  }

  function At(s: Sys, t: nat, pc: Pc): Sys
    requires t < |s.pcs|
  {
    s.(pcs := s.pcs[t := pc])
  }

  /** The others take one step, if it is possible now. */
  function TakeTurn(max: nat, s: Sys, t: nat, a: Action): (r: Sys)
    requires max < WAITER && Amount(s.word) <= max && t < |s.pcs|
    ensures Amount(r.word) <= max && |r.pcs| == |s.pcs|
    ensures r.pcs[t] == s.pcs[t] || (s.pcs[t].Asleep? && r.pcs[t] == Entering(s.pcs[t].call))
  {
    if a.t != t && Enabled(max, s, a.t, a.e) then Next(max, s, a.t, a.e) else s
  }

  /** What the others do of `run`: each step of theirs that is possible when its turn comes. */
  function Play(max: nat, s: Sys, t: nat, run: Run): (r: Sys)
    requires max < WAITER && Amount(s.word) <= max && t < |s.pcs|
    ensures Amount(r.word) <= max && |r.pcs| == |s.pcs|
    ensures r.pcs[t] == s.pcs[t] || (s.pcs[t].Asleep? && r.pcs[t] == Entering(s.pcs[t].call))
    decreases |run|
  {
    if run == [] then s else Play(max, TakeTurn(max, s, t, run[0]), t, run[1..])
  }

  lemma {:induction false} PlaySnoc(max: nat, s: Sys, t: nat, run: Run, a: Action)
    requires max < WAITER && Amount(s.word) <= max && t < |s.pcs|
    ensures Play(max, s, t, run + [a]) == TakeTurn(max, Play(max, s, t, run), t, a)
    decreases |run|
  {
    if run == [] {
      assert ([] + [a])[1..] == [];
    } else {
      assert (run + [a])[0] == run[0] && (run + [a])[1..] == run[1..] + [a];
      PlaySnoc(max, TakeTurn(max, s, t, run[0]), t, run[1..], a);
    }
  }

  /** Nothing that the others can do is excluded: a run of theirs is played exactly as it executes. */
  lemma {:induction false} PlayIsExec(max: nat, s: Sys, t: nat, run: Run)
    requires max < WAITER && Amount(s.word) <= max && t < |s.pcs|
    requires Exec(max, s, run).Some? && forall i :: 0 <= i < |run| ==> run[i].t != t
    ensures Play(max, s, t, run) == Exec(max, s, run).value
    decreases |run|
  {
    if run != [] {
      var k := |run| - 1;
      PlayIsExec(max, s, t, run[..k]);
      PlaySnoc(max, s, t, run[..k], run[k]);
      assert run[..k] + [run[k]] == run;
    }
  }

  /** `count.load` after the others have had their turn. */
  function Loads(max: nat, s: Sys, t: nat, call: Call, others: Run): (r: Sys)
    requires max < WAITER && Amount(s.word) <= max && t < |s.pcs|
    ensures Amount(r.word) <= max && |r.pcs| == |s.pcs| && r.pcs[t] == Loaded(call, r.word)
  {
    var mid := Play(max, s, t, others);
    At(mid, t, Loaded(call, mid.word))
  }

  // ---------------------------------------------------------------- sleep

  /** One stretch of sleep. */
  function DozeOn(max: nat, s: Sys, t: nat, nap: Nap): (r: Slept)
    requires max < WAITER && Amount(s.word) <= max && t < |s.pcs| && s.pcs[t].Asleep?
    ensures Amount(r.s.word) <= max && |r.s.pcs| == |s.pcs|
    ensures r.r == NotYet ==> r.s.pcs[t] == s.pcs[t]
    ensures r.r == TryAgain ==> r.s.pcs[t] == Entering(s.pcs[t].call)
    ensures r.r == TimeIsUp ==> r.s.pcs[t] == Returned(s.pcs[t].call, false) && s.pcs[t].call.timed
  {
    var call := s.pcs[t].call;
    var mid := Play(max, s, t, nap.others);
    if mid.pcs[t].Entering? then Slept(mid, TryAgain)
    else if nap.ending == Timeout && call.timed then Slept(At(mid, t, Returned(call, false)), TimeIsUp)
    else if nap.ending == Interruption then Slept(At(mid, t, Entering(call)), TryAgain)
    else Slept(mid, NotYet)
  }

  function SleepOn(max: nat, s: Sys, t: nat, naps: seq<Nap>): (r: Slept)
    requires max < WAITER && Amount(s.word) <= max && t < |s.pcs| && s.pcs[t].Asleep?
    ensures Amount(r.s.word) <= max && |r.s.pcs| == |s.pcs|
    ensures r.r == NotYet ==> r.s.pcs[t] == s.pcs[t]
    ensures r.r == TryAgain ==> r.s.pcs[t] == Entering(s.pcs[t].call)
    ensures r.r == TimeIsUp ==> r.s.pcs[t] == Returned(s.pcs[t].call, false) && s.pcs[t].call.timed
    decreases |naps|
  {
    if naps == [] then Slept(s, NotYet)
    else
      var d := DozeOn(max, s, t, naps[0]);
      if d.r != NotYet then d else SleepOn(max, d.s, t, naps[1..])
  }

  /** The others have played through the first `j` naps. */
  function AfterNaps(max: nat, s: Sys, t: nat, naps: seq<Nap>, j: nat): (r: Sys)
    requires max < WAITER && Amount(s.word) <= max && t < |s.pcs| && j <= |naps|
    ensures Amount(r.word) <= max && |r.pcs| == |s.pcs|
  {
    if j == 0 then s else Play(max, AfterNaps(max, s, t, naps, j - 1), t, naps[j - 1].others)
  }

  /** Nap number `i` neither wakes the thread nor ends its sleep otherwise. */
  ghost predicate SleepsPast(max: nat, s: Sys, t: nat, naps: seq<Nap>, i: nat)
    requires max < WAITER && Amount(s.word) <= max && t < |s.pcs| && s.pcs[t].Asleep? && i < |naps|
  {
    && AfterNaps(max, s, t, naps, i + 1).pcs[t].Asleep?
    && naps[i].ending != Interruption
    && !(naps[i].ending == Timeout && s.pcs[t].call.timed)
  }

  /** The thread sleeps through the first `j` naps. */
  ghost predicate SoundAsleep(max: nat, s: Sys, t: nat, naps: seq<Nap>, j: nat)
    requires max < WAITER && Amount(s.word) <= max && t < |s.pcs| && s.pcs[t].Asleep? && j <= |naps|
  {
    forall i: nat :: i < j ==> SleepsPast(max, s, t, naps, i)
  }

  /** Why FUTEX_WAIT came back, or did not: with a timeout only at the end of a nap that ends in one,
      the thread having slept on through all of it; to try again only when somebody woke the thread
      or the sleep was interrupted; and otherwise nothing ended it. */
  ghost predicate SleepLaw(max: nat, s: Sys, t: nat, naps: seq<Nap>, r: WaitResult)
    requires max < WAITER && Amount(s.word) <= max && t < |s.pcs| && s.pcs[t].Asleep?
  {
    match r
    case NotYet => SoundAsleep(max, s, t, naps, |naps|)
    case TimeIsUp => s.pcs[t].call.timed && exists j: nat :: j < |naps| && TimesOutAt(max, s, t, naps, j)
    case TryAgain => exists j: nat :: j < |naps| && WakesAt(max, s, t, naps, j)
  }

  ghost predicate TimesOutAt(max: nat, s: Sys, t: nat, naps: seq<Nap>, j: nat)
    requires max < WAITER && Amount(s.word) <= max && t < |s.pcs| && s.pcs[t].Asleep? && j < |naps|
  {
    && SoundAsleep(max, s, t, naps, j)
    && AfterNaps(max, s, t, naps, j + 1).pcs[t].Asleep?
    && naps[j].ending == Timeout
  }

  ghost predicate WakesAt(max: nat, s: Sys, t: nat, naps: seq<Nap>, j: nat)
    requires max < WAITER && Amount(s.word) <= max && t < |s.pcs| && s.pcs[t].Asleep? && j < |naps|
  {
    && SoundAsleep(max, s, t, naps, j)
    && (!AfterNaps(max, s, t, naps, j + 1).pcs[t].Asleep? || naps[j].ending == Interruption)
  }

  lemma {:induction false} SleptSoFar(max: nat, s: Sys, t: nat, naps: seq<Nap>, j: nat)
    requires max < WAITER && Amount(s.word) <= max && t < |s.pcs| && s.pcs[t].Asleep? && j <= |naps|
    requires SoundAsleep(max, s, t, naps, j)
    ensures AfterNaps(max, s, t, naps, j).pcs[t] == s.pcs[t]
    ensures SleepOn(max, s, t, naps) == SleepOn(max, AfterNaps(max, s, t, naps, j), t, naps[j..])
  {
    if j == 0 {
      assert naps[0..] == naps;
    } else {
      SleptSoFar(max, s, t, naps, j - 1);
      assert SleepsPast(max, s, t, naps, j - 1);
      assert naps[j - 1..][0] == naps[j - 1] && naps[j - 1..][1..] == naps[j..];
    }
  }

  lemma {:induction false} SleepObeys(max: nat, s: Sys, t: nat, naps: seq<Nap>, j: nat)
    requires max < WAITER && Amount(s.word) <= max && t < |s.pcs| && s.pcs[t].Asleep? && j <= |naps|
    requires SoundAsleep(max, s, t, naps, j)
    ensures SleepLaw(max, s, t, naps, SleepOn(max, s, t, naps).r)
    decreases |naps| - j
  {
    SleptSoFar(max, s, t, naps, j);
    if j < |naps| {
      assert naps[j..][0] == naps[j];
      var d := DozeOn(max, AfterNaps(max, s, t, naps, j), t, naps[j]);
      if d.r == NotYet {
        assert SleepsPast(max, s, t, naps, j);
        SleepObeys(max, s, t, naps, j + 1);
      } else if d.r == TimeIsUp {
        assert TimesOutAt(max, s, t, naps, j);
      } else {
        assert WakesAt(max, s, t, naps, j);
      }
    }
  }

  // ---------------------------------------------------------------- one pass

  /** The branch of a pass whose call does not fit: set the flag unless it is up already, and wait. */
  function BlockOn(max: nat, s: Sys, t: nat, round: Round): (r: Attempt)
    requires max < WAITER && Amount(s.word) <= max && t < |s.pcs| && s.pcs[t].Loaded?
    ensures Amount(r.s.word) <= max && |r.s.pcs| == |s.pcs|
    ensures r.end != Took
    ensures r.end == Lost ==> r.s.pcs[t] == Entering(s.pcs[t].call)
    ensures r.end == GaveUp ==> r.s.pcs[t] == Returned(s.pcs[t].call, false) && s.pcs[t].call.timed
    ensures r.end == Dozing ==> r.s.pcs[t].Asleep? && r.s.pcs[t].call == s.pcs[t].call
  {
    var call, cur := s.pcs[t].call, s.pcs[t].cur;
    if HasWaiter(cur) then WaitOn(max, s, t, round)
    else
      var mid := Play(max, s, t, round.beforeSwap);
      if mid.word != cur || round.spurious then Attempt(At(mid, t, Entering(call)), Lost)
      else WaitOn(max, Sys(WithWaiter(cur), mid.pcs[t := Loaded(call, WithWaiter(cur))]), t, round)
  }

  /** FUTEX_WAIT. */
  function WaitOn(max: nat, s: Sys, t: nat, round: Round): (r: Attempt)
    requires max < WAITER && Amount(s.word) <= max && t < |s.pcs| && s.pcs[t].Loaded?
    ensures Amount(r.s.word) <= max && |r.s.pcs| == |s.pcs|
    ensures r.end != Took
    ensures r.end == Lost ==> r.s.pcs[t] == Entering(s.pcs[t].call)
    ensures r.end == GaveUp ==> r.s.pcs[t] == Returned(s.pcs[t].call, false) && s.pcs[t].call.timed
    ensures r.end == Dozing ==> r.s.pcs[t].Asleep? && r.s.pcs[t].call == s.pcs[t].call
  {
    var call, cur := s.pcs[t].call, s.pcs[t].cur;
    var mid := Play(max, s, t, round.beforeWait);
    if mid.word != cur then Attempt(At(mid, t, Entering(call)), Lost)
    else
      var d := SleepOn(max, At(mid, t, Asleep(call, cur)), t, round.naps);
      Attempt(d.s, match d.r case NotYet => Dozing case TimeIsUp => GaveUp case TryAgain => Lost)
  }

  /** A pass that starts in `s`, where the thread has just loaded the word. After an operation the
      state is that at the swap; its FUTEX_WAKE is left to the kernel. */
  function Pass(max: nat, s: Sys, t: nat, round: Round): (r: Attempt)
    requires max < WAITER && Amount(s.word) <= max && t < |s.pcs| && s.pcs[t].Loaded?
    ensures Amount(r.s.word) <= max && |r.s.pcs| == |s.pcs|
    ensures r.end == Lost ==> r.s.pcs[t] == Entering(s.pcs[t].call)
  {
    var call, cur := s.pcs[t].call, s.pcs[t].cur;
    if Fits(max, call, cur) then
      var mid := Play(max, s, t, round.beforeSwap);
      if mid.word != cur || round.spurious then Attempt(At(mid, t, Entering(call)), Lost) else Attempt(mid, Took)
    else BlockOn(max, s, t, round)
  }

  // ---------------------------------------------------------------- why a pass ends as it does

  /** Nobody interferes with the swap of this pass. */
  predicate Undisturbed(round: Round) {
    round.beforeSwap == [] && !round.spurious
  }

  /** The wait of this pass runs into its timeout before anything else happens. */
  predicate Expires(round: Round, timed: bool) {
    round.beforeWait == [] && timed && round.naps != [] && round.naps[0] == Nap([], Timeout)
  }

  /** Some nap of this pass ends in a timeout. */
  predicate HasTimeout(round: Round) {
    exists j :: 0 <= j < |round.naps| && round.naps[j].ending == Timeout
  }

  /** In some nap of this pass somebody acts, or a signal interrupts it. */
  predicate Stirred(round: Round) {
    exists j :: 0 <= j < |round.naps| && (round.naps[j].others != [] || round.naps[j].ending == Interruption)
  }

  /** No nap of this pass ends by itself. */
  predicate SleepsOn(round: Round, timed: bool) {
    forall j :: 0 <= j < |round.naps| ==>
      round.naps[j].ending != Interruption && !(round.naps[j].ending == Timeout && timed)
  }

  /** The thread has loaded the current word for its call and is about to act on it. */
  ghost predicate IsHead(max: nat, s: Sys, t: nat, call: Call) {
    max < WAITER && Amount(s.word) <= max && t < |s.pcs| && s.pcs[t] == Loaded(call, s.word)
  }

  /** A pass takes only if the call fits, and always if nobody interferes; it gives up only with a
      timeout, which is certain if the wait expires undisturbed; it goes round again only if the swap
      failed, the wait was refused, or the thread was woken or interrupted. */
  lemma PassLaw(max: nat, s: Sys, t: nat, call: Call, round: Round)
    requires IsHead(max, s, t, call)
    ensures var end := Pass(max, s, t, round).end;
            && (end == Took ==> Fits(max, call, s.word) && !round.spurious)
            && (Fits(max, call, s.word) && Undisturbed(round) ==> end == Took)
            && (end == GaveUp ==> call.timed && HasTimeout(round))
            && (!Fits(max, call, s.word) && Undisturbed(round) && Expires(round, call.timed) ==> end == GaveUp)
            && (end == Dozing ==> SleepsOn(round, call.timed))
            && (end == Lost && Undisturbed(round) && round.beforeWait == [] ==> Stirred(round))
  {
    if !Fits(max, call, s.word) {
      if HasWaiter(s.word) {
        WaitLaw(max, s, t, call, round);
      } else {
        var mid := Play(max, s, t, round.beforeSwap);
        if mid.word == s.word && !round.spurious {
          var marked := WithWaiter(s.word);
          WaitLaw(max, Sys(marked, mid.pcs[t := Loaded(call, marked)]), t, call, round);
        }
      }
    }
  }

  lemma WaitLaw(max: nat, s: Sys, t: nat, call: Call, round: Round)
    requires IsHead(max, s, t, call)
    ensures var end := WaitOn(max, s, t, round).end;
            && (end == GaveUp ==> call.timed && HasTimeout(round))
            && (Expires(round, call.timed) ==> end == GaveUp)
            && (end == Dozing ==> SleepsOn(round, call.timed))
            && (end == Lost && round.beforeWait == [] ==> Stirred(round))
  {
    var mid := Play(max, s, t, round.beforeWait);
    if mid.word == s.word {
      var asleep := At(mid, t, Asleep(call, s.word));
      var r := SleepOn(max, asleep, t, round.naps).r;
      SleepObeys(max, asleep, t, round.naps, 0);
      if r == TimeIsUp {
        var j: nat :| j < |round.naps| && TimesOutAt(max, asleep, t, round.naps, j);
        assert round.naps[j].ending == Timeout;
      } else if r == TryAgain {
        var j: nat :| j < |round.naps| && WakesAt(max, asleep, t, round.naps, j);
        SleptSoFar(max, asleep, t, round.naps, j);
        assert round.naps[j].others != [] || round.naps[j].ending == Interruption;
      } else {
        forall j: nat | j < |round.naps|
          ensures round.naps[j].ending != Interruption && !(round.naps[j].ending == Timeout && call.timed)
        {
          assert SleepsPast(max, asleep, t, round.naps, j);
        }
      }
    }
  }

  // ---------------------------------------------------------------- a whole call

  /** Pass `i` went round again and led to the next one. */
  ghost predicate Linked(max: nat, t: nat, call: Call, rounds: seq<Round>, heads: seq<Sys>, i: nat)
    requires i + 1 < |heads| <= |rounds| + 1 && IsHead(max, heads[i], t, call)
  {
    var a := Pass(max, heads[i], t, rounds[i]);
    a.end == Lost && heads[i + 1] == Loads(max, a.s, t, call, rounds[i].beforeLoad)
  }

  /** `heads` are the states in which the passes of a call began, the call itself in `start`: each pass
      but the last went round again, and the last one decides, unless the schedule has run out. */
  ghost predicate Passes(max: nat, start: Sys, t: nat, call: Call, beforeLoad: Run, rounds: seq<Round>,
                         heads: seq<Sys>, r: Option<bool>)
  {
    && max < WAITER && Amount(start.word) <= max && t < |start.pcs|
    && 1 <= |heads| <= |rounds| + 1
    && heads[0] == Loads(max, start, t, call, beforeLoad)
    && (forall i :: 0 <= i < |heads| ==> IsHead(max, heads[i], t, call))
    && (forall i :: 0 <= i < |heads| - 1 ==> Linked(max, t, call, rounds, heads, i))
    && var last := |heads| - 1;
       if last == |rounds| then r == None
       else
         var end := Pass(max, heads[last], t, rounds[last]).end;
         end != Lost && r == AnswerOf(end)
  }

  /** The answer of a call is justified by the passes it reached: true only for a call that fits, and
      for certain at the first undisturbed pass that finds it so; false only for a timeout that
      happened in the last pass; and none only when the schedule has run out. */
  ghost predicate Justified(max: nat, call: Call, rounds: seq<Round>, heads: seq<Sys>, r: Option<bool>) {
    && 1 <= |heads| <= |rounds| + 1
    && var last := |heads| - 1;
    && (r == Some(true) ==> last < |rounds| && Fits(max, call, heads[last].word) && !rounds[last].spurious)
    && (r == Some(false) ==>
          last < |rounds| && call.timed && !Fits(max, call, heads[last].word) && HasTimeout(rounds[last]))
    && (r == None ==> last == |rounds| || SleepsOn(rounds[last], call.timed))
    && forall k :: 0 <= k < |heads| && k < |rounds| && Undisturbed(rounds[k]) ==>
         && (Fits(max, call, heads[k].word) ==> k == last && r == Some(true))
         && (!Fits(max, call, heads[k].word) && Expires(rounds[k], call.timed) ==> k == last && r == Some(false))
  }

  lemma PassesJustify(max: nat, start: Sys, t: nat, call: Call, beforeLoad: Run, rounds: seq<Round>,
                      heads: seq<Sys>, r: Option<bool>)
    requires Passes(max, start, t, call, beforeLoad, rounds, heads, r)
    ensures Justified(max, call, rounds, heads, r)
    ensures beforeLoad == [] ==> heads[0].word == start.word
  {
    var last := |heads| - 1;
    forall k | 0 <= k < |heads| && k < |rounds| && Undisturbed(rounds[k])
      ensures Fits(max, call, heads[k].word) ==> k == last && r == Some(true)
      ensures !Fits(max, call, heads[k].word) && Expires(rounds[k], call.timed) ==> k == last && r == Some(false)
    {
      PassLaw(max, heads[k], t, call, rounds[k]);
      assert k < last ==> Linked(max, t, call, rounds, heads, k);
    }
    if last < |rounds| {
      PassLaw(max, heads[last], t, call, rounds[last]);
    }
  }

  /** The passes of a call up to the head of pass `i`. */
  ghost predicate Begun(max: nat, start: Sys, t: nat, call: Call, beforeLoad: Run, rounds: seq<Round>,
                        heads: seq<Sys>, i: nat)
  {
    && max < WAITER && Amount(start.word) <= max && t < |start.pcs|
    && |heads| == i + 1 <= |rounds| + 1
    && heads[0] == Loads(max, start, t, call, beforeLoad)
    && (forall k :: 0 <= k < |heads| ==> IsHead(max, heads[k], t, call))
    && forall k :: 0 <= k < i ==> Linked(max, t, call, rounds, heads, k)
  }

  lemma GoesRound(max: nat, start: Sys, t: nat, call: Call, beforeLoad: Run, rounds: seq<Round>,
                  heads: seq<Sys>, i: nat)
    requires Begun(max, start, t, call, beforeLoad, rounds, heads, i) && i < |rounds|
    requires Pass(max, heads[i], t, rounds[i]).end == Lost
    ensures Begun(max, start, t, call, beforeLoad, rounds,
                  heads + [Loads(max, Pass(max, heads[i], t, rounds[i]).s, t, call, rounds[i].beforeLoad)], i + 1)
  {
    var next := Loads(max, Pass(max, heads[i], t, rounds[i]).s, t, call, rounds[i].beforeLoad);
    var heads' := heads + [next];
    forall k | 0 <= k < i + 1
      ensures Linked(max, t, call, rounds, heads', k)
    {
      assert k < i ==> Linked(max, t, call, rounds, heads, k);
      assert heads'[k] == heads[k] && heads'[k + 1] == if k < i then heads[k + 1] else next;
    }
  }

  /** The call ends here: because the schedule does, or with the pass that has begun. */
  lemma Concludes(max: nat, start: Sys, t: nat, call: Call, beforeLoad: Run, rounds: seq<Round>,
                  heads: seq<Sys>, r: Option<bool>)
    requires heads != [] && Begun(max, start, t, call, beforeLoad, rounds, heads, |heads| - 1)
    requires var last := |heads| - 1;
             if last == |rounds| then r == None
             else
               var end := Pass(max, heads[last], t, rounds[last]).end;
               end != Lost && r == AnswerOf(end)
    ensures Passes(max, start, t, call, beforeLoad, rounds, heads, r)
  {
  }
}
