/** The futex semaphore as a step machine: one shared 32-bit word, and for each of the threads
    that share it the point it has reached inside `consume` or `produce`. Every atomic access
    to the word and every futex call is one step; all other code is local to a thread. */
module Semaphore {
  import Bits

  const WAITER: nat := 0x8000_0000
  const WORD_SIZE: nat := 0x1_0000_0000

  type Word = w: nat | w < WORD_SIZE

  // ---------------------------------------------------------------- the packed word

  function Amount(w: Word): nat {
    w % WAITER
  }

  predicate HasWaiter(w: Word) {
    w >= WAITER
  }

  function WithWaiter(w: Word): (r: Word)
    ensures Amount(r) == Amount(w) && HasWaiter(r)
  {
    if HasWaiter(w) then w else w + WAITER
  }

  /** The mask expressions of the program, `cur & !WAITER`, `(cur & WAITER) == WAITER` and
      `cur | WAITER`, compute the amount, the flag and the flagged word. */
  lemma WordMasks(w: Word)
    ensures WAITER < Bits.Pow2(32)
    ensures Bits.And(w, Bits.Not(WAITER, 32)) == Amount(w)
    ensures Bits.And(w, WAITER) == WAITER <==> HasWaiter(w)
    ensures Bits.Or(w, WAITER) == WithWaiter(w)
  {
    assert Bits.Pow2(8) == 256;
    assert Bits.Pow2(16) == 65536;
    assert Bits.Pow2(24) == 16777216;
    assert Bits.Pow2(31) == WAITER && Bits.Pow2(32) == WORD_SIZE;
    Bits.AndLowMask(w, 31);
    Bits.AndHighMask(w, 31, 32);
    Bits.OrTopBit(w, 31);
  }

  /** The limit that `new(max)` stores: `max & !WAITER`. */
  function Limit(max: Word): (r: nat)
    ensures r < WAITER && (max < WAITER ==> r == max)
  {
    Amount(max)
  }

  // ---------------------------------------------------------------- calls

  datatype Op = Consume | Produce

  /** A call of `consume(v, wake, timeout)` or `produce(v, wake, timeout)`; `timed` says
      whether a timeout was given. */
  datatype Call = Call(op: Op, v: Word, wake: nat, timed: bool)

  /** Addition in a 32-bit word. */
  function Add32(a: Word, b: Word): Word {
    if a + b < WORD_SIZE then a + b else a + b - WORD_SIZE
  }

  /** The guard of each loop: enough to take, or room to add. */
  predicate Fits(max: nat, call: Call, cur: Word) {
    match call.op
    case Consume => Amount(cur) >= call.v
    case Produce => Add32(Amount(cur), call.v) <= max
  }

  /** The signed change that a completed call ought to make to the count. */
  function Delta(call: Call): int {
    match call.op
    case Consume => -(call.v as int)
    case Produce => call.v
  }

  /** The sum that `produce` computes leaves the 32-bit word. */
  predicate Wraps(call: Call, cur: Word) {
    call.op == Produce && Amount(cur) + call.v >= WORD_SIZE
  }

  /** The change that a completed call does make. */
  function Change(call: Call, cur: Word): int {
    Delta(call) - if Wraps(call, cur) then WORD_SIZE else 0
  }

  /** The word that a completed call leaves: the new amount, with the flag cleared. */
  function After(max: nat, call: Call, cur: Word): (r: Word)
    requires max < WAITER && Amount(cur) <= max && Fits(max, call, cur)
    ensures Amount(r) == Amount(cur) + Change(call, cur) && Amount(r) <= max && !HasWaiter(r)
  {
    match call.op
    case Consume => Amount(cur) - call.v
    case Produce => Add32(Amount(cur), call.v)
  }

  /** The 32-bit guard of `produce` is the guard of a bounded counter exactly when the sum does not
      wrap: a wrapped sum always fits, the true sum never does. */
  lemma GuardIn32Bits(max: nat, call: Call, cur: Word)
    requires call.op == Produce && Amount(cur) <= max < WAITER
    ensures (Fits(max, call, cur) <==> Amount(cur) + call.v <= max) <==> !Wraps(call, cur)
    ensures max + call.v < WORD_SIZE ==> !Wraps(call, cur)
  {
  }

  /** The guards and the words stored, in the arithmetic of 32-bit words: `consume` needs and takes
      exactly `v`; `produce` adds `v` modulo 2^32; and the word stored carries no flag. */
  lemma OperationExact(max: nat, call: Call, cur: Word)
    requires Amount(cur) <= max < WAITER
    ensures call.op == Consume ==> (Fits(max, call, cur) <==> call.v <= cur % 0x8000_0000)
    ensures call.op == Produce ==> (Fits(max, call, cur) <==> (cur % 0x8000_0000 + call.v) % 0x1_0000_0000 <= max)
    ensures Fits(max, call, cur) ==>
              After(max, call, cur) ==
              match call.op
              case Consume => cur % 0x8000_0000 - call.v
              case Produce => (cur % 0x8000_0000 + call.v) % 0x1_0000_0000
  {
  }

  // ---------------------------------------------------------------- the machine

  /** Where a thread is. `Entering`: about to load the word. `Loaded`: holds the loaded value
      `cur` and is about to act on it. `Asleep`: queued in FUTEX_WAIT with the expected value
      `cur`. `Waking`: its operation is done, FUTEX_WAKE is still to come. */
  datatype Pc =
    | Idle
    | Entering(call: Call)
    | Loaded(call: Call, cur: Word)
    | Asleep(call: Call, cur: Word)
    | Waking(call: Call)
    | Returned(call: Call, ok: bool)

  datatype Event =
    | Begin(call: Call)
    | Load
    | OpCas(call: Call)              // the operation's compare-and-swap succeeds
    | SetCas                         // the compare-and-swap that sets the flag succeeds
    | CasFails                       // a compare-and-swap fails: the word differs
    | Spurious                       // a weak compare-and-swap fails though the word matches
    | Sleep                          // FUTEX_WAIT finds the expected value and queues
    | WaitRefused                    // FUTEX_WAIT finds another value
    | TimedOut                       // FUTEX_WAIT ends with ETIMEDOUT
    | Interrupted                    // FUTEX_WAIT ends for a reason of its own
    | Wake(woken: set<nat>)          // FUTEX_WAKE
    | Collect(call: Call, ok: bool)  // the caller takes the result

  datatype Sys = Sys(word: Word, pcs: seq<Pc>)

  function Init(n: nat): Sys {
    Sys(0, seq(n, _ => Idle))
  }

  /** What a thread that holds `cur` does next. */
  datatype Intent = TryOp | TryMark | Wait

  function IntentOf(max: nat, call: Call, cur: Word): Intent {
    if Fits(max, call, cur) then TryOp
    else if !HasWaiter(cur) then TryMark
    else Wait
  }

  function Sleepers(s: Sys): set<nat> {
    set u: nat | u < |s.pcs| && s.pcs[u].Asleep?
  }

  /** FUTEX_WAKE(k) wakes `k` of the sleepers, or all when there are fewer. */
  predicate WakesSome(s: Sys, k: nat, woken: set<nat>) {
    && woken <= Sleepers(s)
    && |woken| == if k < |Sleepers(s)| then k else |Sleepers(s)|
  }

  predicate Enabled(max: nat, s: Sys, t: nat, e: Event) {
    && t < |s.pcs|
    && var pc := s.pcs[t];
       match e
       case Begin(_) => pc.Idle?
       case Load => pc.Entering?
       case OpCas(call) =>
         pc.Loaded? && pc.call == call && IntentOf(max, call, pc.cur) == TryOp && s.word == pc.cur
       case SetCas => pc.Loaded? && IntentOf(max, pc.call, pc.cur) == TryMark && s.word == pc.cur
       case CasFails => pc.Loaded? && IntentOf(max, pc.call, pc.cur) != Wait && s.word != pc.cur
       case Spurious => pc.Loaded? && IntentOf(max, pc.call, pc.cur) != Wait
       case Sleep => pc.Loaded? && IntentOf(max, pc.call, pc.cur) == Wait && s.word == pc.cur
       case WaitRefused => pc.Loaded? && IntentOf(max, pc.call, pc.cur) == Wait && s.word != pc.cur
       case TimedOut => pc.Asleep? && pc.call.timed
       case Interrupted => pc.Asleep?
       case Wake(woken) => pc.Waking? && WakesSome(s, pc.call.wake, woken)
       case Collect(call, ok) => pc == Returned(call, ok)
  }

  function Next(max: nat, s: Sys, t: nat, e: Event): (s': Sys)
    requires Enabled(max, s, t, e)
    requires max < WAITER && Amount(s.word) <= max
    ensures |s'.pcs| == |s.pcs| && Amount(s'.word) <= max
    ensures !e.OpCas? ==> Amount(s'.word) == Amount(s.word)
    ensures e.OpCas? ==> Amount(s'.word) == Amount(s.word) + Change(e.call, s.word)
    ensures forall u :: 0 <= u < |s.pcs| && u != t && !s.pcs[u].Asleep? ==> s'.pcs[u] == s.pcs[u]
  {
    var pc := s.pcs[t];
    match e
    case Begin(call) => s.(pcs := s.pcs[t := Entering(call)])
    case Load => s.(pcs := s.pcs[t := Loaded(pc.call, s.word)])
    case OpCas(call) =>
      Sys(After(max, call, s.word),
          s.pcs[t := if HasWaiter(s.word) then Waking(call) else Returned(call, true)])
    case SetCas =>
      Sys(WithWaiter(s.word), s.pcs[t := Loaded(pc.call, WithWaiter(pc.cur))])
    case CasFails | Spurious | WaitRefused | Interrupted =>
      s.(pcs := s.pcs[t := Entering(pc.call)])
    case Sleep => s.(pcs := s.pcs[t := Asleep(pc.call, pc.cur)])
    case TimedOut => s.(pcs := s.pcs[t := Returned(pc.call, false)])
    case Wake(woken) => s.(pcs := AfterWake(s, t, woken))
    case Collect(_, _) => s.(pcs := s.pcs[t := Idle])
  }

  function AfterWake(s: Sys, t: nat, woken: set<nat>): (pcs: seq<Pc>)
    requires t < |s.pcs| && s.pcs[t].Waking? && woken <= Sleepers(s)
    ensures |pcs| == |s.pcs|
    ensures forall u :: 0 <= u < |pcs| ==>
      pcs[u] == if u == t then Returned(s.pcs[t].call, true)
                else if u in woken then Entering(s.pcs[u].call)
                else s.pcs[u]
  {
    seq(|s.pcs|, u requires 0 <= u < |s.pcs| =>
      if u == t then Returned(s.pcs[t].call, true)
      else if u in woken then Entering(s.pcs[u].call)
      else s.pcs[u])
  }

  // ---------------------------------------------------------------- the wake-up invariant

  ghost predicate SomeoneWaking(s: Sys) {
    exists u :: 0 <= u < |s.pcs| && s.pcs[u].Waking?
  }

  /** Every call in progress offers to wake all the other threads. */
  ghost predicate WakesAll(s: Sys) {
    forall u :: 0 <= u < |s.pcs| && !s.pcs[u].Idle? ==> s.pcs[u].call.wake >= |s.pcs| - 1
  }

  /** A sleeper went to sleep on a flagged value that did not fit its call, and either the word
      is still that value or a wake-up is on its way. */
  ghost predicate SleepersCovered(max: nat, s: Sys) {
    forall u :: 0 <= u < |s.pcs| && s.pcs[u].Asleep? ==>
      && IntentOf(max, s.pcs[u].call, s.pcs[u].cur) == Wait
      && (s.word == s.pcs[u].cur || SomeoneWaking(s))
  }

  ghost predicate Inv(max: nat, s: Sys) {
    && max < WAITER
    && Amount(s.word) <= max
    && WakesAll(s)
    && SleepersCovered(max, s)
  }

  /** A wake-up that offers to wake everybody else leaves nobody asleep. */
  lemma WakeEmptiesQueue(max: nat, s: Sys, t: nat, woken: set<nat>)
    requires t < |s.pcs| && s.pcs[t].Waking? && s.pcs[t].call.wake >= |s.pcs| - 1
    requires WakesSome(s, s.pcs[t].call.wake, woken)
    ensures woken == Sleepers(s)
  {
    var all := Below(|s.pcs|);
    assert Sleepers(s) <= all - {t};
    SubsetSize(Sleepers(s), all - {t});
    if woken != Sleepers(s) {
      SubsetSize(woken, Sleepers(s));
      assert woken < Sleepers(s);
      StrictSubsetSize(woken, Sleepers(s));
    }
  }

  /** The set of all thread numbers below `n`. */
  ghost function Below(n: nat): (r: set<nat>)
    ensures |r| == n
    ensures forall u: nat :: u in r <==> u < n
  {
    if n == 0 then {} else Below(n - 1) + {n - 1}
  }

  lemma {:induction false} SubsetSize<T>(a: set<T>, b: set<T>)
    requires a <= b
    ensures |a| <= |b|
    decreases |a|
  {
    if a != {} {
      var x :| x in a;
      SubsetSize(a - {x}, b - {x});
    }
  }

  lemma StrictSubsetSize<T>(a: set<T>, b: set<T>)
    requires a < b
    ensures |a| < |b|
  {
    var x :| x in b && x !in a;
    SubsetSize(a, b - {x});
  }

  /** Every step keeps the invariant, provided the calls that begin offer enough wake-ups. */
  lemma InvStep(max: nat, s: Sys, t: nat, e: Event)
    requires Inv(max, s) && Enabled(max, s, t, e)
    requires e.Begin? ==> e.call.wake >= |s.pcs| - 1
    ensures Inv(max, Next(max, s, t, e))
  {
    var s' := Next(max, s, t, e);
    match e
    case Wake(woken) =>
      WakeEmptiesQueue(max, s, t, woken);
      assert forall u :: 0 <= u < |s'.pcs| ==> !s'.pcs[u].Asleep?;
    case OpCas(call) =>
      if HasWaiter(s.word) {
        assert s'.pcs[t].Waking?;
      } else if x :| 0 <= x < |s.pcs| && s.pcs[x].Waking? {
        assert s'.pcs[x].Waking?;
      }
    case _ =>
      if x :| 0 <= x < |s.pcs| && s.pcs[x].Waking? {
        assert s'.pcs[x].Waking?;
      }
  }

  // ---------------------------------------------------------------- progress

  lemma {:induction false} SubsetOfSize<T>(a: set<T>, k: nat) returns (b: set<T>)
    requires k <= |a|
    ensures b <= a && |b| == k
  {
    if k == 0 {
      b := {};
    } else {
      var x :| x in a;
      b := SubsetOfSize(a - {x}, k - 1);
      b := b + {x};
    }
  }

  /** Steps a scheduler can count on: neither a timeout nor an interruption nor a spurious
      failure. */
  predicate Dependable(e: Event) {
    !e.TimedOut? && !e.Interrupted? && !e.Spurious? && !e.Begin?
  }

  /** A thread inside a call that is not asleep can always take a dependable step. */
  lemma Progress(max: nat, s: Sys, t: nat) returns (e: Event)
    requires t < |s.pcs| && !s.pcs[t].Idle? && !s.pcs[t].Asleep?
    ensures Enabled(max, s, t, e) && Dependable(e)
  {
    match s.pcs[t]
    case Entering(_) => e := Load;
    case Loaded(call, cur) =>
      match IntentOf(max, call, cur) {
        case TryOp => e := if s.word == cur then OpCas(call) else CasFails;
        case TryMark => e := if s.word == cur then SetCas else CasFails;
        case Wait => e := if s.word == cur then Sleep else WaitRefused;
      }
    case Waking(call) =>
      var woken := SubsetOfSize(Sleepers(s), if call.wake < |Sleepers(s)| then call.wake else |Sleepers(s)|);
      e := Wake(woken);
    case Returned(call, ok) => e := Collect(call, ok);
  }

  // ---------------------------------------------------------------- what a step does to a call

  /** The thread has performed its operation; its call will return true. */
  predicate Committed(pc: Pc) {
    pc.Waking? || (pc.Returned? && pc.ok)
  }

  /** A call without a timeout never returns false. */
  ghost predicate UntimedSucceed(s: Sys) {
    forall u :: 0 <= u < |s.pcs| && s.pcs[u].Returned? && !s.pcs[u].ok ==> s.pcs[u].call.timed
  }

  /** The steps taken inside a call, between its beginning and the moment its result is taken. */
  predicate Internal(e: Event) {
    !e.Begin? && !e.Collect?
  }

  /** What is left of a call: its operation, its FUTEX_WAKE, its return. */
  function Stage(pc: Pc): nat {
    if !Committed(pc) then 2 else if pc.Waking? then 1 else 0
  }

  /** Thread `t` has moved inside its call, performing the operation when `op`; no other call has
      begun, ended or advanced. */
  ghost predicate Inside(s: Sys, s': Sys, t: nat, op: bool) {
    && |s'.pcs| == |s.pcs| && t < |s.pcs| && !s.pcs[t].Idle?
    && (forall u :: 0 <= u < |s.pcs| ==> (s'.pcs[u].Idle? <==> s.pcs[u].Idle?))
    && (forall u :: 0 <= u < |s.pcs| && !s.pcs[u].Idle? ==> s'.pcs[u].call == s.pcs[u].call)
    && (forall u :: 0 <= u < |s.pcs| && u != t ==> Stage(s'.pcs[u]) == Stage(s.pcs[u]))
    && (if op then Stage(s.pcs[t]) == 2 && Stage(s'.pcs[t]) < 2
        else Stage(s.pcs[t]) == 2 == Stage(s'.pcs[t]) || (Stage(s.pcs[t]) == 1 && Stage(s'.pcs[t]) == 0))
    && Amount(s'.word) == Amount(s.word) + if op then Change(s.pcs[t].call, s.word) else 0
  }

  /** Inside a call, the operation is the only step that commits it, and commits it once. */
  lemma InternalStep(max: nat, s: Sys, t: nat, e: Event)
    requires max < WAITER && Amount(s.word) <= max && UntimedSucceed(s)
    requires Enabled(max, s, t, e) && Internal(e)
    ensures var s' := Next(max, s, t, e);
            && UntimedSucceed(s')
            && Inside(s, s', t, e.OpCas?)
            && (e.Wake? ==> Stage(s'.pcs[t]) < Stage(s.pcs[t]))
            && (Committed(s'.pcs[t]) <==> Committed(s.pcs[t]) || e.OpCas?)
  {
  }

  predicate InFlight(pc: Pc) {
    pc.Entering? || pc.Loaded? || pc.Asleep?
  }

  /** The flag is only up while some thread is still trying to complete its call. */
  ghost predicate FlagOwned(s: Sys) {
    HasWaiter(s.word) ==> exists u :: 0 <= u < |s.pcs| && InFlight(s.pcs[u])
  }

  /** Only a timeout can leave a stale flag behind. */
  lemma FlagOwnedStep(max: nat, s: Sys, t: nat, e: Event)
    requires max < WAITER && Amount(s.word) <= max && Enabled(max, s, t, e) && !e.TimedOut?
    requires FlagOwned(s)
    ensures FlagOwned(Next(max, s, t, e))
  {
    var s' := Next(max, s, t, e);
    if HasWaiter(s'.word) {
      if InFlight(s'.pcs[t]) {
      } else {
        var u :| 0 <= u < |s.pcs| && InFlight(s.pcs[u]);
        assert InFlight(s'.pcs[u]);
      }
    }
  }

  // ---------------------------------------------------------------- two threads

  /** The thread is inside that call, or about to take its result. */
  predicate InCall(pc: Pc, call: Call) {
    !pc.Idle? && pc.call == call
  }

  /** Of two threads, a sleeper that the other is not about to wake sees a word that does not fit. */
  lemma AsleepUnfit(s: Sys, t: nat)
    requires Inv(1, s) && |s.pcs| == 2 && t < 2 && s.pcs[t].Asleep? && !s.pcs[1 - t].Waking?
    ensures !Fits(1, s.pcs[t].call, s.word)
  {
  }

  // ---------------------------------------------------------------- between two operations

  /** How far thread `u` is from sleep, from an operation or, after its operation, from its return,
      the word staying as it is. Its FUTEX_WAKE may put all others on their way again. */
  function PcRank(s: Sys, u: nat): (r: nat)
    requires u < |s.pcs|
    ensures r <= 2 * |s.pcs| + 1
  {
    match s.pcs[u]
    case Loaded(_, cur) => if cur == s.word then 1 else 3
    case Entering(_) => 2
    case Waking(_) => 2 * |s.pcs|
    case _ => 0
  }

  /** The ranks of the first `k` threads. */
  function RankSum(s: Sys, k: nat): nat
    requires k <= |s.pcs|
  {
    if k == 0 then 0 else RankSum(s, k - 1) + PcRank(s, k - 1)
  }

  function Rank(s: Sys): nat {
    (if HasWaiter(s.word) then 0 else 2 * |s.pcs|) + RankSum(s, |s.pcs|)
  }

  function MaxRank(n: nat): nat {
    2 * n + n * (2 * n + 1)
  }

  function PairRank(s: Sys): (r: nat)
    requires |s.pcs| == 2
    ensures r <= 14
  {
    RankBound(s);
    assert MaxRank(2) == 14;
    Rank(s)
  }

  lemma OneMoreTimes(k: nat, m: nat)
    ensures (k + 1) * m == k * m + m
  {
  }

  lemma {:induction false} RankSumBound(s: Sys, k: nat)
    requires k <= |s.pcs|
    ensures RankSum(s, k) <= k * (2 * |s.pcs| + 1)
  {
    if k > 0 {
      RankSumBound(s, k - 1);
      OneMoreTimes(k - 1, 2 * |s.pcs| + 1);
      assert PcRank(s, k - 1) <= 2 * |s.pcs| + 1;
    }
  }

  lemma RankBound(s: Sys)
    ensures Rank(s) <= MaxRank(|s.pcs|)
  {
    RankSumBound(s, |s.pcs|);
  }

  /** When thread `t` loses `loss` and every other thread gains at most two, or nothing. */
  lemma {:induction false} RankSumMoves(s: Sys, s': Sys, k: nat, t: nat, gain: bool, loss: int)
    requires |s'.pcs| == |s.pcs| && k <= |s.pcs| && t < |s.pcs|
    requires forall u :: 0 <= u < |s.pcs| && u != t ==> PcRank(s', u) <= PcRank(s, u) + if gain then 2 else 0
    requires PcRank(s', t) == PcRank(s, t) - loss
    ensures RankSum(s', k) <= RankSum(s, k) + (if t < k then -loss else 0) +
              if gain then 2 * (if t < k then k - 1 else k) else 0
  {
    if k > 0 {
      RankSumMoves(s, s', k - 1, t, gain, loss);
      RankSumStep(s, k);
      RankSumStep(s', k);
    }
  }

  lemma RankSumStep(s: Sys, k: nat)
    requires 0 < k <= |s.pcs|
    ensures RankSum(s, k) == RankSum(s, k - 1) + PcRank(s, k - 1)
  {
  }

  /** Every dependable step other than an operation lowers the rank: the flag is set at most once,
      a FUTEX_WAKE comes at most once for each operation done before, and every other step brings
      its thread closer to sleep or to its operation. */
  lemma RankFalls(max: nat, s: Sys, t: nat, e: Event)
    requires max < WAITER && Amount(s.word) <= max
    requires Enabled(max, s, t, e) && Dependable(e) && Internal(e) && !e.OpCas?
    ensures Rank(Next(max, s, t, e)) < Rank(s)
  {
    var s' := Next(max, s, t, e);
    var n := |s.pcs|;
    RankMoves(max, s, t, e);
    if e.SetCas? {
      RankSumMoves(s, s', n, t, true, 0);
    } else if e.Wake? {
      RankSumMoves(s, s', n, t, true, 2 * n);
    } else {
      RankSumMoves(s, s', n, t, false, 1);
    }
  }

  /** What such a step does to each thread's rank. */
  lemma RankMoves(max: nat, s: Sys, t: nat, e: Event)
    requires max < WAITER && Amount(s.word) <= max
    requires Enabled(max, s, t, e) && Dependable(e) && Internal(e) && !e.OpCas?
    ensures var s' := Next(max, s, t, e);
            && (forall u :: 0 <= u < |s.pcs| && u != t ==>
                  PcRank(s', u) <= PcRank(s, u) + if e.SetCas? || e.Wake? then 2 else 0)
            && PcRank(s', t) == PcRank(s, t) - (if e.SetCas? then 0 else if e.Wake? then 2 * |s.pcs| else 1)
            && (e.SetCas? ==> !HasWaiter(s.word) && HasWaiter(s'.word))
            && (!e.SetCas? ==> s'.word == s.word)
  {
  }
}
