/** The ring of timers. Times are nanoseconds since the reference instant. */
module SplitTimer {
  import opened Wrappers

  /** `Timer::elapsed` at time `now` for a timer last reset at `start`. */
  function Age(start: nat, now: nat): nat {
    if now <= start then 0 else now - start
  }

  /** The time that has passed: the age added to the start is now, or the start is still to come. */
  predicate IsAge(start: nat, now: nat, age: nat) {
    if start <= now then age + start == now else age == 0
  }

  lemma {:induction false} LaterDiffers(s: nat, c: nat, d: nat)
    requires s > 0 && c < d < c + s
    ensures c % s != d % s
  {
    if c % s == d % s {
      assert d - c == s * (d / s - c / s);
      if d / s - c / s >= 1 {
        MulAtLeast(s, d / s - c / s);
      } else {
        MulAtMostZero(s, d / s - c / s);
      }
    }
  }

  lemma MulAtLeast(s: nat, k: int)
    requires k >= 1
    ensures s * k >= s
  {
  }

  lemma MulAtMostZero(s: nat, k: int)
    requires k <= 0
    ensures s * k <= 0
  {
  }

  // ---------------------------------------------------------------- whole resets

  class SplitTimer {
    const slots: nat
    const timers: array<nat>
    var index: nat
    ghost var log: seq<nat>  // the time of every reset, in order

    /** Each slot holds the latest reset that fell on it. */
    ghost predicate Valid()
      reads this, timers
    {
      && timers.Length == slots && index == |log|
      && forall c :: 0 <= c < |log| && |log| <= c + slots ==> timers[c % slots] == log[c]
    }

    constructor (slots: nat, now: nat)
      ensures Valid() && this.slots == slots && log == [] && fresh(timers)
    {
      this.slots := slots;
      timers := new nat[slots](_ => now);
      index := 0;
      log := [];
    }

    method Reset(now: nat)
      requires Valid()
      modifies this, timers
      ensures Valid()
      ensures log == if slots == 0 then old(log) else old(log) + [now]
    {
      if slots == 0 {
        return;
      }
      var orig := index;
      index := index + 1;
      timers[orig % slots] := now;
      log := log + [now];
      forall c | 0 <= c < |log| && |log| <= c + slots
        ensures timers[c % slots] == log[c]
      {
        if c < orig {
          LaterDiffers(slots, c, orig);
        }
      }
    }

    method Cookie() returns (c: nat)
      requires Valid()
      ensures c == |log|
    {
      c := index;
    }

    /** `elapsed(cookie)`, read at time `now`, while other threads complete the resets `between`
        after the slot has been read and before the index is loaded. For a cookie whose reset has
        happened the result is the age of that very reset, or None exactly when the index loaded
        is a whole ring further on. A cookie from the future is never refused for that reason. */
    method Elapsed(cookie: nat, now: nat, between: seq<nat>) returns (r: Option<nat>)
      requires Valid()
      modifies this, timers
      ensures Valid()
      ensures slots == 0 ==> r == None && log == old(log)
      ensures slots > 0 ==>
                && log == old(log) + between
                && (r == None <==> |log| >= cookie + slots)
                && (r.Some? && cookie < old(|log|) ==> IsAge(old(log)[cookie], now, r.value))
    {
      if slots == 0 {
        return None;
      }
      var v := Age(timers[cookie % slots], now);
      for i := 0 to |between|
        invariant Valid() && log == old(log) + between[..i]
      {
        Reset(between[i]);
        assert between[..i + 1] == between[..i] + [between[i]];
      }
      assert between[..|between|] == between;
      var current := index;
      r := if current >= cookie + slots then None else Some(v);
    }
  }

  // ---------------------------------------------------------------- resets step by step

  /** A slot remembers which reset wrote it and when; at first none. */
  datatype Stamp = Created(time: nat) | By(ticket: nat, time: nat)

  /** `index` counts the tickets taken; `pending` are those whose time is not yet stored. */
  datatype Ring = Ring(index: nat, slots: seq<Stamp>, pending: set<nat>)

  datatype Event =
    | Take                            // `index.fetch_add(1)`
    | Store(ticket: nat, now: nat)    // `timers[ticket % S].reset()`

  predicate CanStep(s: Ring, e: Event) {
    e.Store? ==> e.ticket in s.pending
  }

  function Step(s: Ring, e: Event): (r: Ring)
    requires s.slots != [] && CanStep(s, e)
    ensures |r.slots| == |s.slots|
  {
    match e
    case Take => s.(index := s.index + 1, pending := s.pending + {s.index})
    case Store(t, now) =>
      s.(slots := s.slots[t % |s.slots| := By(t, now)], pending := s.pending - {t})
  }

  /** What `elapsed(cookie)` returns when it reads its slot in state `s` and the index in `s'`. */
  function Observe(s: Ring, s': Ring, cookie: nat, now: nat): Option<nat>
    requires s.slots != []
  {
    if s'.index >= cookie + |s.slots| then None
    else Some(Age(s.slots[cookie % |s.slots|].time, now))
  }

  /** A run of steps from `s` to `s'`, in any interleaving: a reset may stall for as long as it
      likes between its two steps. */
  ghost predicate Exec(s: Ring, run: seq<Event>, s': Ring)
    requires s.slots != []
    decreases |run|
  {
    if run == [] then s == s'
    else CanStep(s, run[0]) && Exec(Step(s, run[0]), run[1..], s')
  }

  function Fresh(slots: nat, now: nat): Ring {
    Ring(0, seq(slots, _ => Created(now)), {})
  }

  // ---------------------------------------------------------------- what a slot holds

  predicate StoresOn(e: Event, k: nat, slots: nat)
    requires slots > 0
  {
    e.Store? && e.ticket % slots == k
  }

  /** The `i`-th event of the run is the last store on slot `k`. */
  ghost predicate LastOn(run: seq<Event>, i: nat, k: nat, slots: nat)
    requires slots > 0
  {
    && i < |run| && StoresOn(run[i], k, slots)
    && forall j :: i < j < |run| ==> !StoresOn(run[j], k, slots)
  }

  /** A slot holds the last store on it, or what it held before when there is none. */
  lemma {:induction false} SlotHoldsLast(s: Ring, run: seq<Event>, s': Ring, k: nat) returns (i: nat)
    requires s.slots != [] && k < |s.slots| && Exec(s, run, s')
    ensures |s'.slots| == |s.slots|
    ensures i < |run| ==> LastOn(run, i, k, |s.slots|) && s'.slots[k] == By(run[i].ticket, run[i].now)
    ensures i >= |run| ==>
              (forall j :: 0 <= j < |run| ==> !StoresOn(run[j], k, |s.slots|)) && s'.slots[k] == s.slots[k]
    decreases |run|
  {
    if run == [] {
      i := 0;
    } else {
      var rest := run[1..];
      i := SlotHoldsLast(Step(s, run[0]), rest, s', k);
      if i < |rest| {
        i := i + 1;
        assert run[i] == rest[i - 1];
        assert forall j :: i < j < |run| ==> run[j] == rest[j - 1];
      } else {
        assert forall j :: 0 < j < |run| ==> run[j] == rest[j - 1];
        i := if StoresOn(run[0], k, |s.slots|) then 0 else |run|;
      }
    }
  }

  /** Tickets are taken in order and stored once: every ticket that is pending or in the run is
      below the index. */
  lemma {:induction false} TicketsBelow(s: Ring, run: seq<Event>, s': Ring)
    requires s.slots != [] && Exec(s, run, s') && forall t :: t in s.pending ==> t < s.index
    ensures |s'.slots| == |s.slots| && s'.index >= s.index
    ensures forall t :: t in s'.pending ==> t < s'.index
    ensures forall i :: 0 <= i < |run| && run[i].Store? ==> run[i].ticket < s'.index
    decreases |run|
  {
    if run != [] {
      TicketsBelow(Step(s, run[0]), run[1..], s');
      assert forall i :: 0 < i < |run| ==> run[i] == run[1..][i - 1];
    }
  }

  /** Two different tickets less than a ring apart have different slots. */
  lemma NearDiffer(slots: nat, t: nat, cookie: nat)
    requires slots > 0 && cookie < t + slots && t < cookie + slots && t != cookie
    ensures t % slots != cookie % slots
  {
    if t > cookie {
      LaterDiffers(slots, cookie, t);
    } else {
      LaterDiffers(slots, t, cookie);
    }
  }

  // ---------------------------------------------------------------- when `elapsed` is right

  /** The cookie's own reset has stored that time, and no later store fell on the same slot. */
  ghost predicate OwnStoreStands(run: seq<Event>, cookie: nat, time: nat, slots: nat)
    requires slots > 0
  {
    exists i :: 0 <= i < |run| && run[i] == Store(cookie, time) && LastOn(run, i, cookie % slots, slots)
  }

  /** With resets interleaving step by step, before and between the two reads of `elapsed`, and for
      every cookie: the result is None exactly when the index loaded is a whole ring further on;
      otherwise it comes from the slot read, which holds the cookie's own reset if and only if that
      reset had stored its time and no store on the slot came after it. Any such store is by a reset
      that began one or more whole rings earlier and was slow. */
  lemma ElapsedExact(slots: nat, created: nat, before: seq<Event>, s: Ring, between: seq<Event>, s': Ring,
                     cookie: nat, now: nat)
    requires slots > 0
    requires Exec(Fresh(slots, created), before, s) && s.slots != [] && Exec(s, between, s')
    ensures |s.slots| == slots
    ensures Observe(s, s', cookie, now) == None <==> s'.index >= cookie + slots
    ensures Observe(s, s', cookie, now).Some? ==>
              var stamp := s.slots[cookie % slots];
              && IsAge(stamp.time, now, Observe(s, s', cookie, now).value)
              && (forall time :: stamp == By(cookie, time) <==> OwnStoreStands(before, cookie, time, slots))
              && (forall j :: 0 <= j < |before| && StoresOn(before[j], cookie % slots, slots) ==>
                    before[j].ticket == cookie || before[j].ticket + slots <= cookie)
  {
    TicketsBelow(Fresh(slots, created), before, s);
    TicketsBelow(s, between, s');
    var k := cookie % slots;
    var i := SlotHoldsLast(Fresh(slots, created), before, s, k);
    if s'.index < cookie + slots {
      forall j | 0 <= j < |before| && StoresOn(before[j], k, slots) && before[j].ticket != cookie
        ensures before[j].ticket + slots <= cookie
      {
        if before[j].ticket + slots > cookie {
          NearDiffer(slots, before[j].ticket, cookie);
        }
      }
      forall time
        ensures s.slots[k] == By(cookie, time) <==> OwnStoreStands(before, cookie, time, slots)
      {
        OnlyLast(before, cookie, time, slots, i, s.slots[k]);
      }
    }
  }

  lemma OnlyLast(run: seq<Event>, cookie: nat, time: nat, slots: nat, i: nat, stamp: Stamp)
    requires slots > 0
    requires i < |run| ==> LastOn(run, i, cookie % slots, slots) && stamp == By(run[i].ticket, run[i].now)
    requires i >= |run| ==> (forall j :: 0 <= j < |run| ==> !StoresOn(run[j], cookie % slots, slots)) && stamp.Created?
    ensures stamp == By(cookie, time) <==> OwnStoreStands(run, cookie, time, slots)
  {
    if stamp == By(cookie, time) {
      assert run[i] == Store(cookie, time);
    }
    if OwnStoreStands(run, cookie, time, slots) {
      var j :| 0 <= j < |run| && run[j] == Store(cookie, time) && LastOn(run, j, cookie % slots, slots);
      assert i == j;
    }
  }

  // ---------------------------------------------------------------- prompt resets

  /** No reset is so slow that a whole ring of later ones has begun before it stores its time. */
  predicate Prompt(s: Ring) {
    forall t :: t in s.pending ==> s.index <= t + |s.slots|
  }

  /** Slot `t % S` holds the latest stored ticket on it: every ticket taken is pending, or on its
      slot, or followed there by a later one. */
  ghost predicate Latest(s: Ring)
    requires s.slots != []
  {
    && (forall t :: t in s.pending ==> t < s.index)
    && (forall k :: 0 <= k < |s.slots| && s.slots[k].By? ==>
          && s.slots[k].ticket < s.index && s.slots[k].ticket !in s.pending
          && s.slots[k].ticket % |s.slots| == k)
    && (forall t: nat :: t < s.index && t !in s.pending ==>
          var stamp := s.slots[t % |s.slots|]; stamp.By? && stamp.ticket >= t)
  }

  /** Resets are prompt whenever a new one begins. */
  ghost predicate PromptRun(s: Ring, run: seq<Event>)
    requires s.slots != []
    decreases |run|
  {
    run == [] || (CanStep(s, run[0]) && Prompt(Step(s, run[0])) && PromptRun(Step(s, run[0]), run[1..]))
  }

  lemma StepLatest(s: Ring, e: Event)
    requires s.slots != [] && CanStep(s, e) && Latest(s) && Prompt(s)
    ensures Latest(Step(s, e))
  {
    if e.Store? {
      var n := |s.slots|;
      var s' := Step(s, e);
      forall t: nat | t < s'.index && t !in s'.pending
        ensures var stamp := s'.slots[t % n]; stamp.By? && stamp.ticket >= t
      {
        if t % n != e.ticket % n {
          assert s'.slots[t % n] == s.slots[t % n];
        } else if t > e.ticket {
          assert t < s.index <= e.ticket + n;
          LaterDiffers(n, e.ticket, t);
        }
      }
    }
  }

  lemma {:induction false} ExecLatest(s: Ring, run: seq<Event>, s': Ring)
    requires s.slots != [] && Latest(s) && Prompt(s) && Exec(s, run, s') && PromptRun(s, run)
    ensures |s'.slots| == |s.slots| && Latest(s') && s'.index >= s.index
    decreases |run|
  {
    if run != [] {
      StepLatest(s, run[0]);
      ExecLatest(Step(s, run[0]), run[1..], s');
    }
  }

  /** When no reset is that slow, it is enough that the cookie's own reset has stored its time. */
  lemma ElapsedWhenPrompt(slots: nat, created: nat, before: seq<Event>, s: Ring, between: seq<Event>, s': Ring,
                          cookie: nat, now: nat)
    requires slots > 0 && PromptRun(Fresh(slots, created), before)
    requires Exec(Fresh(slots, created), before, s) && s.slots != [] && Exec(s, between, s')
    requires cookie < s.index
    ensures Observe(s, s', cookie, now).Some? ==>
              (cookie !in s.pending <==> exists time :: OwnStoreStands(before, cookie, time, slots))
  {
    ElapsedExact(slots, created, before, s, between, s', cookie, now);
    ExecLatest(Fresh(slots, created), before, s);
    var stamp := s.slots[cookie % slots];
    if Observe(s, s', cookie, now).Some? {
      if cookie !in s.pending {
        TicketsBelow(s, between, s');
        if stamp.ticket > cookie {
          LaterDiffers(slots, cookie, stamp.ticket);
        }
        assert stamp == By(cookie, stamp.time);
      }
      if time :| OwnStoreStands(before, cookie, time, slots) {
        assert stamp == By(cookie, time);
      }
    }
  }

  // ---------------------------------------------------------------- the two ways to be wrong

  /** The condition is needed: while its own time is not stored, `elapsed` may report the age of an
      earlier reset. */
  lemma PendingMisreads()
    ensures exists s :: Exec(Fresh(2, 0), [Take, Store(0, 5), Take, Take], s)
                        && 2 in s.pending && s.slots != [] && Observe(s, s, 2, 9) == Some(4)
  {
    var s1 := Ring(1, [Created(0), Created(0)], {0});
    var s2 := Ring(1, [By(0, 5), Created(0)], {});
    var s3 := Ring(2, [By(0, 5), Created(0)], {1});
    var s4 := Ring(3, [By(0, 5), Created(0)], {1, 2});
    assert Step(Fresh(2, 0), Take) == s1 && Step(s1, Store(0, 5)) == s2;
    assert Step(s2, Take) == s3 && Step(s3, Take) == s4;
    assert Exec(s4, [], s4);
    assert [Take][1..] == [] && Exec(s3, [Take], s4);
    assert [Take, Take][1..] == [Take] && Exec(s2, [Take, Take], s4);
    assert [Store(0, 5), Take, Take][1..] == [Take, Take] && Exec(s1, [Store(0, 5), Take, Take], s4);
    assert [Take, Store(0, 5), Take, Take][1..] == [Store(0, 5), Take, Take];
    assert Exec(Fresh(2, 0), [Take, Store(0, 5), Take, Take], s4);
  }

  /** After its own time is stored, `elapsed` may report the age of an earlier reset that stalled
      between taking its ticket and storing its time, and stored it late. */
  lemma SlowResetMisreads()
    ensures exists s :: Exec(Fresh(2, 0), [Take, Take, Take, Store(2, 5), Store(0, 9)], s)
                        && 2 !in s.pending && s.slots != [] && Observe(s, s, 2, 20) == Some(11)
  {
    var s1 := Ring(1, [Created(0), Created(0)], {0});
    var s2 := Ring(2, [Created(0), Created(0)], {0, 1});
    var s3 := Ring(3, [Created(0), Created(0)], {0, 1, 2});
    var s4 := Ring(3, [By(2, 5), Created(0)], {0, 1});
    var s5 := Ring(3, [By(0, 9), Created(0)], {1});
    assert Step(Fresh(2, 0), Take) == s1 && Step(s1, Take) == s2 && Step(s2, Take) == s3;
    assert Step(s3, Store(2, 5)) == s4 && Step(s4, Store(0, 9)) == s5;
    assert Exec(s5, [], s5);
    assert [Store(0, 9)][1..] == [] && Exec(s4, [Store(0, 9)], s5);
    var tail := [Store(2, 5), Store(0, 9)];
    assert tail[1..] == [Store(0, 9)] && Exec(s3, tail, s5);
    assert ([Take] + tail)[1..] == tail && Exec(s2, [Take] + tail, s5);
    assert ([Take, Take] + tail)[1..] == [Take] + tail && Exec(s1, [Take, Take] + tail, s5);
    assert [Take, Take, Take, Store(2, 5), Store(0, 9)][1..] == [Take, Take] + tail;
    assert Exec(Fresh(2, 0), [Take, Take, Take, Store(2, 5), Store(0, 9)], s5);
  }
}
