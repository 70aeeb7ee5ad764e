/** The lock-free bump allocator over one block of shared memory. */
module Allocator {
  import opened Wrappers
  import Bits

  const USIZE_BITS: nat := 64
  const USIZE_END: nat := 0x1_0000_0000_0000_0000
  const ISIZE_MAX: nat := 0x7fff_ffff_ffff_ffff

  /** A layout: a size and an alignment of `2^log`. */
  datatype Layout = Layout(size: nat, log: nat)

  function Align(l: Layout): (r: nat)
    ensures r > 0
  {
    Bits.Pow2(l.log)
  }

  /** What the type `Layout` guarantees: the size, rounded up to the alignment, stays within
      isize::MAX. */
  predicate Legal(l: Layout) {
    l.size + Align(l) - 1 <= ISIZE_MAX
  }

  lemma {:induction false} LogBound(k: nat)
    requires Bits.Pow2(k) <= ISIZE_MAX + 1
    ensures k <= 63
  {
    if k >= 64 {
      Bits.Pow2Monotone(64, k);
      WordSize();
    }
  }

  lemma WordSize()
    ensures Bits.Pow2(USIZE_BITS) == USIZE_END
  {
    assert Bits.Pow2(8) == 0x100;
    assert Bits.Pow2(16) == 0x1_0000;
    assert Bits.Pow2(24) == 0x100_0000;
    assert Bits.Pow2(32) == 0x1_0000_0000;
    assert Bits.Pow2(40) == 0x100_0000_0000;
    assert Bits.Pow2(48) == 0x1_0000_0000_0000;
    assert Bits.Pow2(56) == 0x100_0000_0000_0000;
  }

  predicate Aligned(x: nat, l: Layout) {
    Bits.Multiple(x, Align(l))
  }

  /** `r` is the least multiple of the alignment that is at least `current`. */
  ghost predicate IsAlignUp(current: nat, l: Layout, r: nat) {
    Bits.IsLeastMultiple(current, Align(l), r)
  }

  lemma AlignFits(l: Layout)
    requires Legal(l)
    ensures l.log <= USIZE_BITS && Align(l) <= ISIZE_MAX + 1 && Bits.Pow2(USIZE_BITS) == USIZE_END
  {
    LogBound(l.log);
    WordSize();
  }

  /** The mask expression `(current + align - 1) & !(align - 1)` yields that multiple; no addition
      in it, nor that of the size that follows, leaves the range of usize. */
  lemma AlignTrick(current: nat, l: Layout)
    requires Legal(l) && current <= ISIZE_MAX
    ensures Align(l) - 1 < Bits.Pow2(USIZE_BITS)
    ensures var r := Bits.And(current + Align(l) - 1, Bits.Not(Align(l) - 1, USIZE_BITS));
            && IsAlignUp(current, l, r) && r < current + Align(l)
            && current + Align(l) - 1 < USIZE_END && r + l.size < USIZE_END
  {
    AlignFits(l);
    Bits.RoundUp(current, l.log, USIZE_BITS);
  }

  /** The offset at which an allocation is placed. */
  ghost function AlignUp(current: nat, l: Layout): (r: nat)
    requires Legal(l) && current <= ISIZE_MAX
    ensures IsAlignUp(current, l, r) && r < current + Align(l)
  {
    AlignTrick(current, l);
    var r: nat :| IsAlignUp(current, l, r) && r < current + Align(l);
    r
  }

  method ComputeAlignUp(current: nat, l: Layout) returns (r: nat)
    requires Legal(l) && current <= ISIZE_MAX
    ensures r == AlignUp(current, l)
  {
    AlignTrick(current, l);
    r := Bits.And(current + Align(l) - 1, Bits.Not(Align(l) - 1, USIZE_BITS));
  }

  // ---------------------------------------------------------------- atomic allocation

  datatype Region = Region(start: nat, layout: Layout)

  datatype Pool = Pool(next: nat, regions: seq<Region>)

  /** One allocation as a single step: the pointer it returns, if any. */
  ghost function Place(size: nat, next: nat, l: Layout): (r: Option<nat>)
    requires size <= ISIZE_MAX && next <= size && Legal(l)
    ensures r.Some? <==> AlignUp(next, l) + l.size <= size
    ensures r.Some? ==> next <= r.value == AlignUp(next, l)
  {
    var aligned := AlignUp(next, l);
    if aligned + l.size > size then None else Some(aligned)
  }

  ghost function Take(size: nat, pool: Pool, l: Layout): (r: Pool)
    requires size <= ISIZE_MAX && pool.next <= size && Legal(l)
    ensures pool.next <= r.next <= size
  {
    match Place(size, pool.next, l)
    case None => pool
    case Some(p) => Pool(p + l.size, pool.regions + [Region(p, l)])
  }

  predicate AllLegal(log: seq<Layout>) {
    forall i :: 0 <= i < |log| ==> Legal(log[i])
  }

  /** The pool after a sequence of atomic allocations. */
  ghost function Replay(size: nat, log: seq<Layout>): (r: Pool)
    requires size <= ISIZE_MAX && AllLegal(log)
    ensures r.next <= size
  {
    if log == [] then Pool(0, [])
    else Take(size, Replay(size, log[..|log| - 1]), log[|log| - 1])
  }

  lemma ReplaySnoc(size: nat, log: seq<Layout>, l: Layout)
    requires size <= ISIZE_MAX && AllLegal(log) && Legal(l)
    ensures AllLegal(log + [l]) && Replay(size, log + [l]) == Take(size, Replay(size, log), l)
  {
    assert (log + [l])[..|log|] == log;
  }

  predicate Disjoint(a: Region, b: Region) {
    a.start + a.layout.size <= b.start || b.start + b.layout.size <= a.start
  }

  /** Aligned, below `next`, and in order without overlap. */
  predicate WellPlaced(pool: Pool) {
    && (forall i :: 0 <= i < |pool.regions| ==>
          var r := pool.regions[i]; Aligned(r.start, r.layout) && r.start + r.layout.size <= pool.next)
    && (forall i, j :: 0 <= i < j < |pool.regions| ==>
          pool.regions[i].start + pool.regions[i].layout.size <= pool.regions[j].start)
  }

  lemma TakeWellPlaced(size: nat, pool: Pool, l: Layout)
    requires size <= ISIZE_MAX && pool.next <= size && Legal(l) && WellPlaced(pool)
    ensures WellPlaced(Take(size, pool, l))
  {
  }

  /** Whatever is asked for, in whatever order: all regions handed out are aligned, lie within the
      block below `next`, and are pairwise disjoint. */
  lemma {:induction false} RegionsDisjoint(size: nat, log: seq<Layout>)
    requires size <= ISIZE_MAX && AllLegal(log)
    ensures var pool := Replay(size, log);
            && WellPlaced(pool) && pool.next <= size
            && (forall i, j :: 0 <= i < |pool.regions| && 0 <= j < |pool.regions| && i != j ==>
                  Disjoint(pool.regions[i], pool.regions[j]))
  {
    if log != [] {
      RegionsDisjoint(size, log[..|log| - 1]);
      TakeWellPlaced(size, Replay(size, log[..|log| - 1]), log[|log| - 1]);
    }
  }

  /** Where the last region ends. */
  function End(regions: seq<Region>): nat {
    if regions == [] then 0 else var last := regions[|regions| - 1]; last.start + last.layout.size
  }

  /** The region handed out last. */
  predicate IsLast(regions: seq<Region>, start: nat, l: Layout) {
    regions != [] && regions[|regions| - 1] == Region(start, l)
  }

  /** Regions laid end to end: each starts at the least offset that suits its alignment at or above
      the end of the one before, the first at or above zero. */
  ghost predicate Packed(regions: seq<Region>) {
    forall i :: 0 <= i < |regions| ==> IsAlignUp(End(regions[..i]), regions[i].layout, regions[i].start)
  }

  /** The next region fits: the least suitable offset leaves room for it. */
  ghost predicate HasRoom(size: nat, end: nat, l: Layout) {
    exists p: nat :: IsAlignUp(end, l, p) && p + l.size <= size
  }

  /** One more allocation adds exactly one region, packed behind the others, when it fits there, and
      changes nothing otherwise. */
  ghost predicate AddsIfRoom(size: nat, before: seq<Region>, l: Layout, after: seq<Region>) {
    if HasRoom(size, End(before), l)
    then exists p: nat :: IsAlignUp(End(before), l, p) && after == before + [Region(p, l)]
    else after == before
  }

  lemma TakeAdds(size: nat, pool: Pool, l: Layout)
    requires size <= ISIZE_MAX && pool.next <= size && Legal(l) && pool.next == End(pool.regions)
    ensures var more := Take(size, pool, l);
            more.next == End(more.regions) && AddsIfRoom(size, pool.regions, l, more.regions)
  {
    var p := AlignUp(pool.next, l);
    assert IsAlignUp(pool.next, l, p);
    if q: nat :| IsAlignUp(pool.next, l, q) && q + l.size <= size {
      assert p <= q;
    }
  }

  /** An allocation succeeds exactly when there is room behind the last region. */
  lemma PlaceIfRoom(size: nat, log: seq<Layout>, l: Layout)
    requires size <= ISIZE_MAX && AllLegal(log) && Legal(l)
    ensures Place(size, Replay(size, log).next, l).Some? <==> HasRoom(size, End(Replay(size, log).regions), l)
  {
    ReplayPacked(size, log);
    var next := Replay(size, log).next;
    assert IsAlignUp(next, l, AlignUp(next, l));
    if q: nat :| IsAlignUp(next, l, q) && q + l.size <= size {
      assert AlignUp(next, l) <= q;
    }
  }

  lemma AddedPacked(size: nat, before: seq<Region>, l: Layout, after: seq<Region>)
    requires Packed(before) && AddsIfRoom(size, before, l, after)
    ensures Packed(after)
  {
    forall i | 0 <= i < |after|
      ensures IsAlignUp(End(after[..i]), after[i].layout, after[i].start)
    {
      if i < |before| {
        assert after[..i] == before[..i] && after[i] == before[i];
      } else {
        assert after[..i] == before;
      }
    }
  }

  /** After any allocations `next` is the end of the last region, or zero, and the regions are packed. */
  lemma {:induction false} ReplayPacked(size: nat, log: seq<Layout>)
    requires size <= ISIZE_MAX && AllLegal(log)
    ensures var pool := Replay(size, log); pool.next == End(pool.regions) && Packed(pool.regions)
  {
    if log != [] {
      var prev := Replay(size, log[..|log| - 1]);
      var l := log[|log| - 1];
      ReplayPacked(size, log[..|log| - 1]);
      TakeAdds(size, prev, l);
      AddedPacked(size, prev.regions, l, Take(size, prev, l).regions);
    }
  }

  /** One more allocation adds one region when there is room and changes nothing otherwise. */
  lemma ReplayAdds(size: nat, log: seq<Layout>, l: Layout)
    requires size <= ISIZE_MAX && AllLegal(log) && Legal(l)
    ensures AllLegal(log + [l])
    ensures AddsIfRoom(size, Replay(size, log).regions, l, Replay(size, log + [l]).regions)
  {
    ReplayPacked(size, log);
    ReplaySnoc(size, log, l);
    TakeAdds(size, Replay(size, log), l);
  }

  /** The most that the regions can cost, padding included. */
  function Cost(regions: seq<Region>): nat {
    if regions == [] then 0
    else
      var l := regions[|regions| - 1].layout;
      Cost(regions[..|regions| - 1]) + l.size + Align(l) - 1
  }

  /** `used()` never exceeds the sum of size plus alignment minus one over successful allocations. */
  lemma {:induction false} UsedBound(size: nat, log: seq<Layout>)
    requires size <= ISIZE_MAX && AllLegal(log)
    ensures Replay(size, log).next <= Cost(Replay(size, log).regions)
  {
    if log != [] {
      var prev := Replay(size, log[..|log| - 1]);
      UsedBound(size, log[..|log| - 1]);
      var now := Replay(size, log);
      if now != prev {
        assert now.regions[..|now.regions| - 1] == prev.regions;
      }
    }
  }

  lemma {:induction false} ReplayGrows(size: nat, log: seq<Layout>, more: seq<Layout>)
    requires size <= ISIZE_MAX && AllLegal(log) && AllLegal(log + more)
    ensures Replay(size, log).next <= Replay(size, log + more).next
    ensures Replay(size, log).regions <= Replay(size, log + more).regions
    decreases |more|
  {
    if more == [] {
      assert log + more == log;
    } else {
      var prev := more[..|more| - 1];
      assert (log + more)[..|log + more| - 1] == log + prev;
      ReplayGrows(size, log, prev);
    }
  }

  // ---------------------------------------------------------------- the allocator

  /** Other threads run between the load and the compare-and-swap of a call: at attempt number `k`
      they complete the allocations `env(k)`. */
  class BumpAllocator {
    const size: nat
    var next: nat
    ghost var log: seq<Layout>  // all allocations, in the order in which they take effect

    ghost predicate Valid()
      reads this
    {
      size <= ISIZE_MAX && AllLegal(log) && next == Replay(size, log).next
    }

    constructor (size: nat)
      requires size <= ISIZE_MAX
      ensures Valid() && this.size == size && log == []
    {
      this.size := size;
      next := 0;
      log := [];
    }

    method CompareExchange(current: nat, new_: nat) returns (ok: bool)
      modifies this`next
      ensures ok == (old(next) == current)
      ensures next == if ok then new_ else old(next)
    {
      ok := next == current;
      if ok {
        next := new_;
      }
    }

    /** Another thread completes one allocation. */
    method Complete(l: Layout)
      requires Valid() && Legal(l)
      modifies this
      ensures Valid() && log == old(log) + [l] && next >= old(next)
    {
      ReplaySnoc(size, log, l);
      var aligned := ComputeAlignUp(next, l);
      if aligned + l.size <= size {
        next := aligned + l.size;
      }
      log := log + [l];
    }

    /** Other threads complete allocations. */
    method Interfere(others: seq<Layout>)
      requires Valid() && AllLegal(others)
      modifies this
      ensures Valid() && log == old(log) + others && next >= old(next)
    {
      for i := 0 to |others|
        invariant Valid() && log == old(log) + others[..i] && next >= old(next)
      {
        Complete(others[i]);
        assert others[..i + 1] == others[..i] + [others[i]];
      }
    }

    /** `alloc`. The call takes effect at one moment, after the allocations `others` of other
        threads: its result is that of an atomic allocation there, null exactly when the least
        aligned offset from the `next` it saw does not fit. It retries at most as often as `next`
        has moved, so it terminates under any interference. */
    method Alloc(layout: Layout, env: nat -> seq<Layout>, attempt: nat)
      returns (p: Option<nat>, retries: nat, ghost others: seq<Layout>)
      requires Valid() && Legal(layout) && forall k :: AllLegal(env(k))
      modifies this
      ensures Valid()
      ensures AllLegal(old(log) + others) && log == old(log) + others + [layout]
      ensures p == Place(size, Replay(size, old(log) + others).next, layout)
      ensures next == (if p.Some? then p.value + layout.size else Replay(size, old(log) + others).next)
      ensures p.Some? ==> IsLast(Replay(size, log).regions, p.value, layout) && Aligned(p.value, layout)
      ensures next >= old(next) + retries
      decreases size - next
    {
      var current := next;
      var aligned := ComputeAlignUp(current, layout);
      if aligned + layout.size > size {
        others, retries := [], 0;
        ReplaySnoc(size, log, layout);
        assert log + others == log;
        log := log + [layout];
        return None, retries, others;
      }
      Interfere(env(attempt));
      ghost var seen := log;
      var ok := CompareExchange(current, aligned + layout.size);
      if ok {
        others, retries := env(attempt), 0;
        ReplaySnoc(size, seen, layout);
        log := log + [layout];
        p := Some(aligned);
      } else {
        p, retries, others := Alloc(layout, env, attempt + 1);
        assert seen + others == old(log) + (env(attempt) + others);
        retries := retries + 1;
        others := env(attempt) + others;
      }
    }

    function Used(): nat
      reads this
    {
      next
    }

    function Available(): (r: int)
      reads this
      ensures Used() + r == size
    {
      size - Used()
    }

    /** What is used is everything up to the end of the last region, and never more than there is. */
    lemma UsedIsEnd()
      requires Valid()
      ensures Used() == End(Replay(size, log).regions) && Available() >= 0
    {
      ReplayPacked(size, log);
    }
  }
}
