# A verified model of schtest's synchronisation, measurement and topology code

schtest runs scheduler experiments: child processes rendezvous with a parent over futex
semaphores in shared memory, latencies are collected as quantile curves and compared, and the
machine's topology decides which CPUs take part. This project models the code that everything
else relies on and proves what it promises.

## The semaphore

`Semaphore.dfy` models the 32-bit word (31 bits of amount, one waiter flag), the loops of
`consume` and `produce` and the futex calls as a step machine for any number of threads: every
load, compare-and-swap, FUTEX_WAIT and FUTEX_WAKE is one atomic step, weak compare-and-swaps may
fail spuriously, and waits may time out or be interrupted. `SemaphoreCode.dfy` writes the two
operations as the retry loops they are, against a shared word that other threads keep changing, and
proves that every access they make is a step of that machine, so the theorems about runs hold of the
loops. `SemaphoreAttempts.dfy` says what one pass of a loop does against a given schedule, and proves
why a pass takes, goes round again, gives up or sleeps on: an answer of false needs a timeout in the
last pass that the loop reached. `SemaphoreRuns.dfy` and `SemaphoreWakeups.dfy` hold the theorems
about runs.

The documentation of `consume` and `produce` gives `wake` the default 1. That is not enough for more
than two threads: with `wake < n - 1` and a limit of at least one there is a run in which a thread
sleeps although its call would fit and nobody will wake it. `ExactWakeCondition` builds that run for
every such `n`, limit and `wake`, and proves that there is none otherwise. All uses in the repository
have two parties.

`produce` adds in 32 bits, and the machine does too, for every `v`. `GuardIn32Bits` gives the exact
condition under which its guard is that of a bounded counter: the sum stays below 2^32.
`RefinesCounter` lifts this to runs: the count is the sum of the operations at every point of a run
if and only if no operation wraps. `InRangeNeverWraps` names the calls for which a caller can be sure,
those with `max + v < 2^32`, which include every `v < 2^31`; `WrapLosesCount` is a run outside
(`produce(1)` and `produce(2^32 - 1)` with limit 1 both succeed and leave the semaphore empty).

## The protocols

`Handshake.dfy` runs the start/ready rendezvous of a parent and a child over two step-level
semaphores, timed-out waits included. `Context.dfy` has one parent work through any number of
such processes, and `ContextCode.dfy` gives `Context::start`, `wait` and `run` as loops over it.
`PingPong.dfy` runs the two ping-pong bodies for one batch of iterations, and `PingPongRuns.dfy` the
whole experiment, any number of runs of the context with the bodies inside. All are proved for every
interleaving: safety in every reachable state, no deadlock (a step other than a timeout, an
interruption or a spurious failure is always possible), and a bound on the number of such steps, so
that every scheduler brings the operation to its end.

## Curves, memory, timers, loops, topology

`Curves.dfy`, `Distance.dfy` and `Percentiles.dfy` treat quantile curves. The source calls `distance`
a Kolmogorov-Smirnov distance; the code computes a width-weighted mean of absolute quantile
differences, divided by the range of values, and that is what is modelled. It takes curves that span
less than EPSILON for equal even when they differ, so "zero exactly when equal" holds up to
that branch, and `ZeroExactlyWhenEqual` says so. `Allocator.dfy` and `SharedMemory.dfy` treat the
lock-free bump allocator and the boxes and vectors placed in it, `SplitTimer.dfy` the ring of timers,
`Converge.dfy` the adaptive measurement loop, `Topology.dfy` and `TopologyLoad.dfy` the topology tree
and its index, `CpuMask.dfy` the affinity masks, `Bits.dfy` the bit operations they use.

For the ring of timers the two-step reset matters. While a reset has taken its ticket but not stored
its time, `elapsed` can report the age of an earlier reset (`PendingMisreads`); and a reset that
stalls between the two steps can overwrite a later one on its slot (`SlowResetMisreads`).
`ElapsedExact` states, for every interleaving, exactly when the slot read is that of the reset asked
for: its own store has happened and no later store fell on the slot.

`converge` need not end. `EndlessExactly` says when: if and only if the count settles at a value for
which every further measurement stays short of both exits, and that value has reached half of u32 or
each of those measurements takes the maximal time to the nanosecond. `NeverEnds` covers the two
ordinary families, and `EndsWithin` bounds the rounds otherwise.

Numbers: `f64` is `real`. Machine integers are unbounded, with the width written out where it matters
(the semaphore word, `usize` in the allocator, `u32` in `converge`, 64-bit mask words). Code that can
fail has an option or a datatype for a result. What other threads do enters methods as an arbitrary
parameter: a schedule, a list of completed calls, or a future of moves.

## Model

| member | source | states |
|---|---|---|
| Semaphore.WordMasks | src/workloads/semaphore.rs:82-83 | the three mask expressions of the loops compute the amount (the remainder modulo 2^31), the waiter flag, and the word with the flag set and the amount kept |
| Semaphore.GuardIn32Bits | src/workloads/semaphore.rs:178-180 | for every v, the 32-bit guard of `produce` is the guard of a bounded counter if and only if amount + v does not reach 2^32, and it never does when max + v does not |
| Semaphore.OperationExact | src/workloads/semaphore.rs:82-90 | a consume fits exactly when its value is at most the low 31 bits and leaves their difference; a produce fits exactly when the 32-bit sum is within the limit and leaves that sum; both leave the flag down |
| SemaphoreCode.SharedSemaphore.constructor | src/workloads/semaphore.rs:39-46 | a new semaphore is at the start of a run: count zero, no waiter, the limit reduced to its low 31 bits |
| SemaphoreCode.SharedSemaphore.Consume | src/workloads/semaphore.rs:71-154 | under any schedule of other threads and the kernel the loop's accesses form a run of the step machine; if it returns true its thread performed the subtraction exactly once, if false never; the passes reached form a chain in which every one but the last went round again; the first undisturbed pass that fits returns true; false comes only from a timed call whose last pass did not fit and contains a timeout; there is no answer only when the schedule is used up |
| SemaphoreCode.SharedSemaphore.Produce | src/workloads/semaphore.rs:169-260 | the same for the 32-bit addition, for every v, with the 32-bit guard in place of a sufficient amount |
| SemaphoreAttempts.SleepObeys | src/workloads/semaphore.rs:122-152 | FUTEX_WAIT comes back with a timeout only at the end of a stretch of sleep that ends in one, the thread having slept through all of it; it comes back to try again only when the thread was woken or interrupted; otherwise nothing ended the sleep |
| SemaphoreAttempts.PassLaw | src/workloads/semaphore.rs:78-152 | a pass takes only if the call fits, and does so whenever nobody disturbs its swap; it gives up only for a timed call with a timeout in that pass, and does so when the wait expires undisturbed; an undisturbed pass goes round again only when somebody acted, or a signal came, during its wait |
| SemaphoreAttempts.PassesJustify | src/workloads/semaphore.rs:71-154 | along any chain of passes each answer is justified: true by a fitting word in the last pass, false by a timeout in the last pass, none by the end of the schedule, and at every pass reached an undisturbed fitting one ends the call with true |
| SemaphoreAttempts.PlayIsExec | src/workloads/semaphore.rs:71-260 | schedules exclude nothing: every run that the other threads can make between two accesses is played as it executes |
| Semaphore.InvStep | src/workloads/semaphore.rs:92-104 | every step keeps the wake-up invariant: the amount is within the limit, and each sleeper waits on the current word or a FUTEX_WAKE is about to come |
| Semaphore.WakeEmptiesQueue | src/workloads/semaphore.rs:92-104 | a FUTEX_WAKE that offers to wake all other threads leaves nobody asleep |
| Semaphore.Progress | src/workloads/semaphore.rs:78-152 | a thread inside a call and not asleep can always take a step that is neither a timeout nor an interruption nor a spurious failure |
| Semaphore.InternalStep | src/workloads/semaphore.rs:86-106 | inside a call, whatever its wake count, only a successful operation swap changes the amount, by the call's own value (less 2^32 when the sum wraps), and only that commits the call |
| Semaphore.RankFalls | src/workloads/semaphore.rs:86-152 | with any number of threads, every dependable step other than an operation lowers a measure: between operations the flag is set at most once, pending wake-ups run out and loaded values only get fresher |
| Semaphore.FlagOwnedStep | src/workloads/semaphore.rs:107-121 | without timeouts the flag is only up while some call is still in flight |
| SemaphoreRuns.RefinesCounter | src/workloads/semaphore.rs:71-260 | in every run, the low 31 bits equal the sum of the operations performed at every point if and only if no operation's 32-bit sum wraps, and then that sum lies between 0 and the limit throughout |
| SemaphoreRuns.InRangeNeverWraps | src/workloads/semaphore.rs:178-187 | no operation wraps in a run whose produces all have max + v below 2^32 |
| SemaphoreRuns.WrapLosesCount | src/workloads/semaphore.rs:180-187 | beyond that it can: two successful produces of 1 and 2^32 - 1 under limit 1 leave the count at zero |
| SemaphoreRuns.CommitsAreSuccesses | src/workloads/semaphore.rs:86-106 | thread by thread the operations performed are those of the calls that returned true, in order, plus at most one whose call is just returning |
| SemaphoreRuns.OneCommitPerCall | src/workloads/semaphore.rs:71-154 | between the beginning of a call and its result the thread performs exactly the call's own operation if the result is true and none if it is false |
| SemaphoreRuns.SettledBalance | src/workloads/semaphore.rs:71-260 | in a run without a wrapping sum, successful produces minus successful consumes is the count, up to calls that are just returning, and exactly the count when no call is in progress |
| SemaphoreRuns.MarksBounded | src/workloads/semaphore.rs:108-121 | in every run the flag is set at most once more than operations complete |
| SemaphoreRuns.FailuresBounded | src/workloads/semaphore.rs:86-121 | in every run of n threads the genuine compare-and-swap failures are at most n - 1 times the successful swaps |
| SemaphoreRuns.NoLostWakeup | src/workloads/semaphore.rs:122-152 | when every call offers n - 1 wake-ups, in every reachable state a sleeper still sees its flagged, unfitting word or a wake-up is pending |
| SemaphoreRuns.StuckTogether | src/workloads/semaphore.rs:175-260 | then a consumer and a producer are stuck together only if their amounts sum to at least the limit plus 2 |
| SemaphoreRuns.SettlesDown | src/workloads/semaphore.rs:78-152 | with n threads, between two operations at most 2n + n(2n + 1) dependable steps inside calls are possible |
| SemaphoreRuns.AtRest | src/workloads/semaphore.rs:78-152 | when no such step is left, every call in progress is asleep on a word that does not fit it, or its very next step is its operation |
| SemaphoreWakeups.ExactWakeCondition | src/workloads/semaphore.rs:60-71 | for every number of threads, limit and wake count: no run ever forgets a sleeper if and only if the limit is zero or wake is at least n - 1 |
| Handshake.Keeps | src/workloads/process.rs:145-196 | every step of parent, child and both semaphores keeps the rendezvous invariant with its single token |
| Handshake.HandshakeExact | src/workloads/process.rs:145-152 | in every reachable state there is one token, the values returned by `get_iters` are the values given to `start`, in order and up to the last, the shared cell holds that last one while it is undelivered and zero otherwise, neither `produce` ever meets a full semaphore, the store and the swap never overlap, and the child does not panic |
| Handshake.RoundComplete | src/workloads/process.rs:183-196 | once `wait` has returned the child has received every value and is headed into, or parked at, its start consume; both semaphores are empty |
| Handshake.NeverStuck | src/workloads/process.rs:177-196 | in every reachable state, stale flags of timed-out waits included, a step other than a timeout, an interruption or a spurious failure is possible |
| Handshake.DeliveryGoesOn | src/workloads/process.rs:145-152 | once a value is on its way, the child can move towards swapping it out without any help from the parent |
| Handshake.EveryRoundEnds | src/workloads/process.rs:177-196 | under every scheduler a round takes a bounded number of dependable steps, and when none is left `wait` has returned |
| Context.RunsDelivered | src/workloads/context.rs:83-97 | between runs every process has received exactly the values of all runs since it was added, is past its round and on its way into its start consume, and the running flag is down |
| Context.RunningExactly | src/workloads/context.rs:70-90 | in every reachable state the running flag is up exactly from the beginning of a start until the first process has been waited for |
| Context.CanGoOn | src/workloads/context.rs:70-97 | with any number of processes the whole system is never stuck |
| Context.EveryRunReturns | src/workloads/context.rs:93-97 | under every scheduler `run` and the creation of a process take a bounded number of dependable steps and return |
| ContextCode.RunningContext.StartProcess | src/workloads/process.rs:177-180 | `start` on the process the loop has come to leaves its parent side started and records nothing else |
| ContextCode.RunningContext.WaitForProcess | src/workloads/process.rs:183-196 | `wait`, repeating timed-out consumes, ends with the parent's turn |
| ContextCode.RunningContext.StartAll | src/workloads/context.rs:70-75 | the start loop adds one round and ends with every process started |
| ContextCode.RunningContext.WaitForAll | src/workloads/context.rs:83-90 | the wait loop ends with the context free |
| ContextCode.RunningContext.RunAll | src/workloads/context.rs:93-97 | when `run(iters)` returns, every process has received `iters` exactly once more and nothing else, and the running flag is down; it fails to return only when the future given to it ends |
| ContextCode.RunningContext.AddProcess | src/workloads/context.rs:64-67 | creating and adding a process leaves it waiting with nothing received and delivers nothing to the others |
| PingPong.Keeps | src/cases/basic.rs:82-99 | every step keeps the invariant: each semaphore's amount is what one process has added minus what the other has removed |
| PingPong.Lockstep | src/cases/basic.rs:82-99 | in every interleaving the completed iterations differ by at most one |
| PingPong.EndsClean | src/cases/basic.rs:82-99 | when both processes have finished, both semaphores are empty, unflagged and unused |
| PingPong.CanPlay | src/cases/basic.rs:82-99 | a process with iterations left can go on, or its partner can, or its partner is through with fewer iterations asked of it |
| PingPong.EveryRunEnds | src/cases/basic.rs:82-99 | under every scheduler the pair takes a bounded number of dependable steps, and when none is left both have done all n iterations |
| PingPongRuns.Keeps | src/cases/basic.rs:82-99 | every step of the parent, the rendezvous and the bodies keeps the joint invariant: a process has been asked for exactly what it got, and plays only between two calls of `get_iters` |
| PingPongRuns.AlwaysLockstep | src/cases/basic.rs:82-99 | over any number of runs of the context, at every moment, the completed iterations of the two processes differ by at most one |
| PingPongRuns.RunsPlayed | src/cases/basic.rs:82-99 | whenever the parent is between runs, both processes have completed exactly the sum of all runs' iterations and both semaphores are as created |
| PingPongRuns.CanGoOn | src/cases/basic.rs:82-99 | the whole experiment is never stuck, even while one process has its iterations and the other does not yet |
| PingPongRuns.EveryRunReturns | src/workloads/context.rs:93-97 | under every scheduler a run of the experiment takes a bounded number of dependable steps, bodies included, and returns |
| Curves.AtKnot | src/util/stats.rs:432-463 | interpolation is exact at every knot |
| Curves.OnChord | src/util/stats.rs:449-460 | between two neighbouring knots the value's distance from the left one is in proportion to the percentile's, stated without division |
| Curves.BeyondEnds | src/util/stats.rs:432-447 | outside its knots a curve is constant, and without knots it is zero |
| Curves.NeverFallsThrough | src/util/stats.rs:449-463 | strictly between its ends a curve is on some segment, so the final 0.0 is never returned |
| Curves.InterpolateMonotone | src/util/stats.rs:432-463 | with non-decreasing values interpolation is monotone in the percentile and stays between the first and the last value |
| Curves.LinearBetween | src/util/stats.rs:449-460 | on an interval without knots the curve is a straight line |
| Curves.MergeAverages | src/util/stats.rs:402-429 | the merged curve is the average of its two inputs at every percentile, not only at knots |
| Curves.MergeUnique | src/util/stats.rs:402-429 | the merger does not depend on the order of its arguments and is determined by its percentiles and values |
| Distance.MergeQuantiles | src/util/stats.rs:402-429 | the two collecting loops, the sort and the mapping yield the merger: exactly the percentiles of both, ascending, with averaged values |
| Distance.WidthsSumToOne | src/util/stats.rs:347-361 | the widths of any non-empty list sum to exactly one, and are positive for strictly increasing percentiles in [0, 1] |
| Distance.ComputeDistance | src/util/stats.rs:364-399 | the loop computes the weighted mean over the merger, 0 for a range below EPSILON, and 1 for an empty curve |
| Distance.DistanceIsArea | src/util/stats.rs:364-399 | the distance times the range is the area under the absolute gaps at the merged percentiles: a rectangle before the first and after the last, and trapezoids between neighbours |
| Distance.ConstantGap | src/util/stats.rs:390-398 | if the curves are the same gap apart at every merged percentile, the distance times the range is that gap |
| Distance.OneExactlyWhenApart | src/util/stats.rs:364-399 | for monotone curves the distance is one if and only if the gap at every merged percentile is the whole range |
| Distance.InUnitInterval | src/util/stats.rs:333-344 | for monotone curves distance and similarity lie in [0, 1] |
| Distance.Symmetric | src/util/stats.rs:364-399 | exchanging the curves, each way with its own merger, gives the same distance |
| Distance.ZeroExactlyWhenEqual | src/util/stats.rs:364-399 | for monotone curves the distance is zero if and only if the curves agree at every percentile or their values span less than EPSILON |
| Distance.NearCurvesCoincide | src/util/stats.rs:384-387 | the second case is real: two monotone curves that differ and have distance zero |
| Percentiles.PercentileInterpolates | src/util/stats.rs:115-166 | `percentile` is None exactly for no quantiles, and otherwise the interpolated value, at the first knot within EPSILON when there is one |
| Percentiles.DurationInterpolates | src/util/stats.rs:142-160 | for durations the result is exact at such a knot and otherwise the interpolated nanoseconds rounded down, never above the largest value |
| Bits.RoundUp | src/util/shared.rs:64 | with a power-of-two alignment the mask expression yields the least aligned number that is at least the input |
| Allocator.AlignTrick | src/util/shared.rs:59-67 | for every legal layout that expression, in 64 bits, is the least aligned offset, and no addition in `alloc` overflows |
| Allocator.RegionsDisjoint | src/util/shared.rs:57-87 | the regions handed out by any sequence of atomic allocations are aligned, inside the block, below `next`, and pairwise disjoint |
| Allocator.UsedBound | src/util/shared.rs:90-92 | `used` never exceeds the sum of size + alignment - 1 over the successful allocations |
| Allocator.ReplayGrows | src/util/shared.rs:57-87 | later allocations never move `next` back nor take a region away |
| Allocator.ReplayPacked | src/util/shared.rs:57-87 | after any allocations `next` is the end of the last region, or zero, and the regions are packed: each starts at the least aligned offset at or above the end of the one before |
| Allocator.ReplayAdds | src/util/shared.rs:57-87 | one more allocation adds exactly one region at the least aligned offset behind the last one if it fits there, and changes nothing otherwise |
| Allocator.PlaceIfRoom | src/util/shared.rs:66-69 | an allocation succeeds if and only if that offset leaves room for it in the block |
| Allocator.BumpAllocator.Alloc | src/util/shared.rs:57-87 | under any interference `alloc` behaves like one atomic allocation at some moment of the call: on success the aligned region it returns is the last one and `next` stands at its end, on failure `next` is what the interference left; it retries at most as often as `next` moved, and terminates |
| Allocator.BumpAllocator.UsedIsEnd | src/util/shared.rs:90-97 | `used` is the end of the last region, and what is available is never negative |
| SharedMemory.WritesStayApart | src/util/shared.rs:148-161 | a write inside one region never changes the elements held in another |
| SharedMemory.NewBox | src/util/shared.rs:148-161 | a new box holds its value in a region of its own, no other byte changes, and it fails exactly when the allocation does |
| SharedMemory.WithCapacity | src/util/shared.rs:212-226 | succeeds exactly when the array layout is legal and there is room behind the last region; then the vector is empty, its first element is aligned, and the region recorded last starts there with exactly capacity times element size bytes |
| SharedMemory.SharedVec.Push | src/util/shared.rs:237-247 | appends the value or fails when full, and changes no byte outside the vector's region |
| SharedMemory.SharedVec.Get | src/util/shared.rs:273-279 | the element at an index below the length, otherwise None |
| SharedMemory.AllocateVec | src/workloads/context.rs:129-140 | the filled vector is aligned and has element i equal to f(i) for every i, and no byte outside its region has changed |
| SplitTimer.SplitTimer.Reset | src/util/clock.rs:101-107 | the reset is appended to the log, and each slot keeps holding the latest reset that fell on it |
| SplitTimer.SplitTimer.Elapsed | src/util/clock.rs:128-141 | with whole resets between its two reads: the result added to the time of reset number c is now, or zero when that time is still to come; and None exactly when the index then loaded is at least c + S |
| SplitTimer.SlotHoldsLast | src/util/clock.rs:101-107 | after any interleaving of the two steps of resets a slot holds the last store on it, or its creation when there is none |
| SplitTimer.ElapsedExact | src/util/clock.rs:101-141 | for every interleaving and every cookie: None exactly when the loaded index is at least c + S; otherwise the result added to the time in the slot is now, or zero when that lies ahead, and the slot read is that of reset c if and only if c's store has happened and no later store fell on the slot, and any store there is by c or by a reset at least S older |
| SplitTimer.ElapsedWhenPrompt | src/util/clock.rs:101-141 | when no reset stalls while S later ones begin, it is enough that reset c has stored its time |
| SplitTimer.PendingMisreads | src/util/clock.rs:105-106 | a run in which `elapsed` reports 4, the age of an earlier reset, its own reset not having stored yet |
| SplitTimer.SlowResetMisreads | src/util/clock.rs:105-106 | a run in which `elapsed` reports 11, the age of an earlier reset that stored late, its own reset having stored before |
| Converge.Converge | src/workloads/benchmark.rs:76-112 | the loop's iteration counts form a trace; every measurement but the last neither failed, nor took too long, nor convinced after the minimal time; the last one decides: returned exactly when it convinces after at least the minimal time, given up exactly when it does not and exceeds the maximal time, an error exactly when it failed |
| Converge.NextCount | src/workloads/benchmark.rs:93-109 | branch by branch: unchanged from half of u32 on and after a round of exactly the maximal time, doubled between the two times, a hundredfold after an instant round, and otherwise the least larger count at or above the quotient, unless the hundredfold or u32::MAX cuts it |
| Converge.TraceCount | src/workloads/benchmark.rs:76-111 | the same between neighbouring counts of every trace, which starts at one |
| Converge.Growth | src/workloads/benchmark.rs:93-109 | whatever the rounding of the quotient, one round never lowers the count, multiplies it by at most 100 and stays within u32; a round that goes on leaves the count as it is if and only if it has reached u32::MAX/2, or the round took exactly the maximal time and that is no less than the minimal time |
| Converge.CountsBounded | src/workloads/benchmark.rs:76-111 | over whole runs the count stays at least 1 and within u32, never falls, and grows at most a hundredfold per round |
| Converge.EndsWithin | src/workloads/benchmark.rs:90-111 | if runs of k iterations or more exceed the maximal time, for k up to u32::MAX/2, the loop ends within k measurements plus one for each earlier round that took exactly the maximal time |
| Converge.EndlessTraces | src/workloads/benchmark.rs:76-111 | the loop is endless if and only if it has traces of every length |
| Converge.EndlessExactly | src/workloads/benchmark.rs:87-111 | the loop is endless if and only if it reaches a count c from which on every measurement of c iterations goes on, and either c is at least u32::MAX/2 or each of them takes exactly the maximal time |
| Converge.NeverEnds | src/workloads/benchmark.rs:87-111 | it is endless whenever no measurement convinces, exceeds the maximal time or fails |
| Converge.StuckBelowAndAbove | src/workloads/benchmark.rs:93-109 | measurements of exactly the maximal time keep the count at one for ever; shorter ones drive it to u32::MAX/2 or above |
| Converge.NextRunLongEnough | src/workloads/benchmark.rs:97-106 | when time is proportional to the count and too short, the next run meets the minimal time unless the hundredfold or the u32 cap was hit |
| Topology.NewSystem | src/util/system.rs:374-399 | `all_cores` is a sorted permutation of the tree's cores, and the index sends every CPU of the tree, and no other number, to a core that contains it |
| Topology.LogicalCpus | src/util/system.rs:412-418 | the loop counts the hyperthreads of all cores |
| Topology.CurrentHyperthread | src/util/system.rs:325-338 | the hyperthread with the given CPU id, failing exactly when the tree does not have it |
| Topology.CurrentCore | src/util/system.rs:341-349 | a core of the tree that contains the CPU, failing exactly when there is none |
| Topology.CurrentComplex | src/util/system.rs:352-360 | a complex above the CPU, failing exactly when there is none |
| Topology.CurrentNode | src/util/system.rs:363-371 | a node above the CPU, failing exactly when there is none |
| TopologyLoad.Group | src/util/system.rs:517-526 | for every triple of ids the nested maps hold the CPUs recorded for it, in order, and no empty entry |
| TopologyLoad.Load | src/util/system.rs:517-546 | the tree has one core for each triple that occurs, with the CPUs of that triple in order and ids ascending at every level, and the index and the flat list are right |
| TopologyLoad.CpuHasItsCore | src/util/system.rs:384-393 | each recorded CPU is in exactly one core, the one with its triple of ids, and the index leads there |
| TopologyLoad.OnlyRecordedCpus | src/util/system.rs:384-393 | the index has a CPU if and only if it was recorded |
| TopologyLoad.LogicalCpusIsRecords | src/util/system.rs:412-418 | the number of logical CPUs is the number of records |
| CpuMask.CpuSet | src/util/system.rs:9-18 | sets the bit of the CPU in the 1024-bit mask and no other |
| CpuMask.CpuOr | src/util/system.rs:20-27 | each destination word becomes the OR of the two words |
| CpuMask.HyperthreadMask | src/util/system.rs:127-133 | the mask contains exactly the hyperthread's id |
| CpuMask.CoreMask | src/util/system.rs:167-176 | the mask contains exactly the ids of the core's hyperthreads |
| CpuMask.ComplexMask | src/util/system.rs:217-226 | the mask contains exactly the CPUs below the complex |
| CpuMask.NodeMask | src/util/system.rs:276-285 | the mask contains exactly the CPUs below the node |
| CpuMask.SystemMask | src/util/system.rs:550-559 | the mask contains exactly the CPUs below the system's nodes |
| CpuMask.MaskUnique | src/util/system.rs:20-27 | sixteen words are determined by the CPUs they contain |
| CpuMask.SystemCpusAreHeld | src/util/system.rs:550-559 | a CPU is in the system mask if and only if some path of the tree leads to a core that contains it |
| CpuMask.MasksNest | src/util/system.rs:167-226 | the masks of a core, its complex, its node and the system nest: OR-ing a smaller one into the next larger changes nothing |
| CpuMask.SystemMaskIsFlat | src/util/system.rs:374-380 | the mask of the whole tree is, word for word, the mask of the flat, sorted list of cores |

## Left out

- Memory orderings: every atomic access is sequentially consistent.
- Semaphore wake-latency sampling: the cookie and reservoir calls inside `consume` and `produce` do not touch the count. A sleeper may take its cookie after the waker's reset, so no exact claim about the samples holds; the timer is proved on its own.
- FUTEX_WAKE with a count of zero, which the kernel treats as one, or of 2^31 and more, which the cast to `c_int` makes negative: `ExactWakeCondition` takes wake at least 1, and the machine reads the count as it is.
- Overflow checks: where they are compiled in, a `produce` whose 32-bit sum wraps panics; the model wraps.
- SemaphoreCode.SharedSemaphore.Consume: a schedule is finite, so a call may be left in flight at its end; that calls do return is proved for the protocols, as bounds on dependable steps.
- Handshake, context children and ping-pong bodies as classes: two and more programs run at once there, so they are step machines on values, one step for each access of either program; the machines do not show aliasing of the shared objects.
- ContextCode.RunningContext.RunAll: the parent's own semaphore calls on a process are steps of the machine chosen by the future; the loops inside them are in SemaphoreCode.
- Death of a child, the error return of `Context::wait`, starting twice without a wait: children live and calls alternate.
- Workloads of the children: from `Running` a child of `Handshake` and `Context` may always call `get_iters` again, so their bounds take for granted that the workload between two calls ends; `PingPongRuns` models that workload for ping-pong.
- Weak fairness: termination is a bound on dependable steps; a run with endless timeouts, interruptions or spurious failures is outside it.
- Floating point: `f64` is `real`, without NaN, infinities and rounding; `Converge` alone takes an arbitrary quotient.
- Curves that are not strictly increasing in the percentile, which the program never builds, and for the unit interval and the zero criterion curves whose values decrease.
- Distance.ZeroExactlyWhenEqual: allows for curves spanning less than EPSILON, which the code takes for equal (`NearCurvesCoincide` has two that differ).
- Percentiles.DurationInterpolates: the cast to u64 saturates only above every duration that a curve can hold, and that case is not modelled.
- `to_f64` on values other than durations, and the conversion back through the bits of an f64: the identity on reals.
- The standard library's sorts and ordered maps are modelled by insertion and by picking keys in ascending order; stability of the sort is not stated.
- Allocator.BumpAllocator.Alloc: offsets only; the base of the block is page-aligned and an alignment above a page is outside the model.
- SharedMemory.SharedVec.Get: returns the bytes of the element, not a reference; `get_mut`, cloned handles and the drop of a vector are not modelled.
- SplitTimer.ElapsedExact: the 64-bit index does not wrap.
- CpuMask.CpuSet: ids from 0 to 1023 only; beyond, the program writes outside the mask.
- Reading /proc and /sys, `sched_getcpu`, affinity calls, cgroups, memfd, child processes: system calls.
- `ReservoirSampler`, TDigest, Criterion, `visualize` and all Display code: library calls, random choices and text.
- `System::complexes` and the plain getters: nothing to prove beyond their bodies.
