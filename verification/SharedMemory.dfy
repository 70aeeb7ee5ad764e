/** Boxes and vectors inside the shared block. An element of type T is the sequence of the
    `elemSize` bytes that represent it. */
module SharedMemory {
  import opened Wrappers
  import opened Allocator
  import Bits

  newtype Byte = x: int | 0 <= x < 256

  /** The `len` elements that start at `start`. */
  function Elements(mem: seq<Byte>, start: nat, elemSize: nat, len: nat): (r: seq<seq<Byte>>)
    requires start + len * elemSize <= |mem|
    ensures |r| == len
  {
    if len == 0 then []
    else
      Last(len, elemSize);
      Elements(mem, start, elemSize, len - 1) +
      [mem[start + (len - 1) * elemSize..start + len * elemSize]]
  }

  lemma Last(len: nat, elemSize: nat)
    requires len > 0
    ensures (len - 1) * elemSize + elemSize == len * elemSize
  {
  }

  /** Memory that agrees on the elements' bytes holds the same elements. */
  lemma {:induction false} ElementsFrame(mem: seq<Byte>, mem': seq<Byte>, start: nat, elemSize: nat, len: nat)
    requires |mem| == |mem'| && start + len * elemSize <= |mem|
    requires forall a :: start <= a < start + len * elemSize ==> mem'[a] == mem[a]
    ensures Elements(mem', start, elemSize, len) == Elements(mem, start, elemSize, len)
  {
    if len > 0 {
      Last(len, elemSize);
      ElementsFrame(mem, mem', start, elemSize, len - 1);
      var lo, hi := start + (len - 1) * elemSize, start + len * elemSize;
      assert mem'[lo..hi] == mem[lo..hi];
    }
  }

  /** Writes inside one region handed out by the allocator never change what another one holds. */
  lemma {:induction false} WritesStayApart(size: nat, log: seq<Layout>, i: nat, j: nat,
                        mem: seq<Byte>, mem': seq<Byte>, elemSize: nat, len: nat)
    requires size <= ISIZE_MAX && AllLegal(log)
    requires var rs := Replay(size, log).regions;
             && i < |rs| && j < |rs| && i != j
             && len * elemSize <= rs[j].layout.size
             && |mem| == |mem'| == size
             && forall a :: 0 <= a < size && !(rs[i].start <= a < rs[i].start + rs[i].layout.size) ==>
                  mem'[a] == mem[a]
    ensures var r := Replay(size, log).regions[j];
            && r.start + len * elemSize <= size
            && Elements(mem', r.start, elemSize, len) == Elements(mem, r.start, elemSize, len)
  {
    RegionsDisjoint(size, log);
    var rs := Replay(size, log).regions;
    assert Disjoint(rs[i], rs[j]);
    ElementsFrame(mem, mem', rs[j].start, elemSize, len);
  }

  /** `ptr::write` */
  method Write(mem: array<Byte>, at: nat, data: seq<Byte>)
    requires at + |data| <= mem.Length
    modifies mem
    ensures mem[at..at + |data|] == data
    ensures forall a :: 0 <= a < mem.Length && !(at <= a < at + |data|) ==> mem[a] == old(mem[a])
  {
    for k := 0 to |data|
      invariant forall a :: 0 <= a < k ==> mem[at + a] == data[a]
      invariant forall a :: 0 <= a < mem.Length && !(at <= a < at + k) ==> mem[a] == old(mem[a])
    {
      mem[at + k] := data[k];
    }
  }

  class SharedVec {
    const mem: array<Byte>
    const ptr: nat
    const elemSize: nat
    const capacity: nat
    var len: nat

    ghost predicate Valid()
      reads this
    {
      len <= capacity && ptr + capacity * elemSize <= mem.Length
    }

    lemma Room()
      requires Valid()
      ensures len * elemSize <= capacity * elemSize
      ensures len < capacity ==> len * elemSize + elemSize <= capacity * elemSize
    {
      Bits.MulAtMost(elemSize, len, capacity);
      if len < capacity {
        Bits.MulGap(elemSize, len, capacity);
      }
    }

    ghost function Contents(): seq<seq<Byte>>
      requires Valid()
      reads this, mem
    {
      Room();
      Elements(mem[..], ptr, elemSize, len)
    }

    constructor (mem: array<Byte>, ptr: nat, elemSize: nat, capacity: nat)
      requires ptr + capacity * elemSize <= mem.Length
      ensures Valid() && len == 0 && Contents() == []
      ensures this.mem == mem && this.ptr == ptr && this.elemSize == elemSize && this.capacity == capacity
    {
      this.mem := mem;
      this.ptr := ptr;
      this.elemSize := elemSize;
      this.capacity := capacity;
      len := 0;
    }

    /** Appends the value, or fails when the vector is full; no byte outside the vector's region
        changes. */
    method Push(value: seq<Byte>) returns (ok: bool)
      requires Valid() && |value| == elemSize
      modifies this, mem
      ensures Valid()
      ensures ok == (old(len) < capacity)
      ensures Contents() == if ok then old(Contents()) + [value] else old(Contents())
      ensures forall a :: 0 <= a < mem.Length && !(ptr <= a < ptr + capacity * elemSize) ==> mem[a] == old(mem[a])
    {
      if len == capacity {
        return false;
      }
      Room();
      ghost var before := mem[..];
      var at := ptr + len * elemSize;
      Write(mem, at, value);
      len := len + 1;
      ok := true;
      Last(len, elemSize);
      ElementsFrame(before, mem[..], ptr, elemSize, len - 1);
      assert mem[..][at..at + elemSize] == value;
    }

    method Get(index: nat) returns (r: Option<seq<Byte>>)
      requires Valid()
      ensures r == if index < |Contents()| then Some(Contents()[index]) else None
    {
      Room();
      if index >= len {
        return None;
      }
      ElementAt(mem[..], ptr, elemSize, len, index);
      r := Some(mem[ptr + index * elemSize..ptr + index * elemSize + elemSize]);
    }
  }

  lemma {:induction false} ElementAt(mem: seq<Byte>, start: nat, elemSize: nat, len: nat, i: nat)
    requires start + len * elemSize <= |mem| && i < len
    ensures i * elemSize + elemSize <= len * elemSize
    ensures Elements(mem, start, elemSize, len)[i] == mem[start + i * elemSize..start + i * elemSize + elemSize]
  {
    Bits.MulGap(elemSize, i, len);
    Last(len, elemSize);
    if i < len - 1 {
      ElementAt(mem, start, elemSize, len - 1, i);
    }
  }

  /** The layout of an array: the size may not be legal. */
  function ArrayLayout(elem: Layout, count: nat): Layout {
    Layout(count * elem.size, elem.log)
  }

  /** `with_capacity`: fails exactly when the array's layout is not legal or an atomic allocation of
      it, at the moment the call takes effect, would fail; otherwise the new vector is empty and has
      the allocated region to itself. */
  method WithCapacity(allocator: BumpAllocator, mem: array<Byte>, elem: Layout, capacity: nat, env: nat -> seq<Layout>)
    returns (vec: SharedVec?, ghost others: seq<Layout>)
    requires allocator.Valid() && mem.Length == allocator.size
    requires forall k :: AllLegal(env(k))
    modifies allocator
    ensures allocator.Valid()
    ensures !Legal(ArrayLayout(elem, capacity)) ==> vec == null && allocator.log == old(allocator.log)
    ensures Legal(ArrayLayout(elem, capacity)) ==>
              var l := ArrayLayout(elem, capacity);
              && AllLegal(old(allocator.log) + others)
              && allocator.log == old(allocator.log) + others + [l]
              && Place(allocator.size, Replay(allocator.size, old(allocator.log) + others).next, l)
                 == if vec == null then None else Some(vec.ptr)
    ensures vec != null <==>
              && capacity * elem.size + Align(elem) - 1 <= ISIZE_MAX
              && AllLegal(old(allocator.log) + others)
              && HasRoom(allocator.size, End(Replay(allocator.size, old(allocator.log) + others).regions),
                         Layout(capacity * elem.size, elem.log))
    ensures vec != null ==>
              && fresh(vec) && vec.Valid() && vec.Contents() == []
              && vec.mem == mem && vec.elemSize == elem.size && vec.capacity == capacity
              && Aligned(vec.ptr, elem)
              && var regions := Replay(allocator.size, allocator.log).regions;
                 && regions != [] && regions[|regions| - 1].start == vec.ptr
                 && regions[|regions| - 1].layout.size == capacity * elem.size
  {
    var l := ArrayLayout(elem, capacity);
    vec, others := null, [];
    if Legal(l) {
      var p, retries;
      p, retries, others := allocator.Alloc(l, env, 0);
      PlaceIfRoom(allocator.size, old(allocator.log) + others, l);
      if p.Some? {
        vec := new SharedVec(mem, p.value, elem.size, capacity);
      }
    }
  }

  /** `allocate_vec`: fails exactly when `with_capacity` does; otherwise element `i` is `f(i)`, and
      no byte outside the vector's region has changed. */
  method AllocateVec(allocator: BumpAllocator, mem: array<Byte>, elem: Layout, count: nat,
                     f: nat -> seq<Byte>, env: nat -> seq<Layout>)
    returns (vec: SharedVec?, ghost others: seq<Layout>)
    requires allocator.Valid() && mem.Length == allocator.size
    requires forall k :: AllLegal(env(k))
    requires forall i :: |f(i)| == elem.size
    modifies allocator, mem
    ensures allocator.Valid()
    ensures !Legal(ArrayLayout(elem, count)) ==> vec == null && allocator.log == old(allocator.log)
    ensures Legal(ArrayLayout(elem, count)) ==>
              var l := ArrayLayout(elem, count);
              && AllLegal(old(allocator.log) + others)
              && allocator.log == old(allocator.log) + others + [l]
              && Place(allocator.size, Replay(allocator.size, old(allocator.log) + others).next, l)
                 == if vec == null then None else Some(vec.ptr)
    ensures vec != null ==>
              && fresh(vec) && vec.mem == mem && vec.Valid()
              && Aligned(vec.ptr, elem)
              && |vec.Contents()| == count
              && (forall i :: 0 <= i < count ==> vec.Contents()[i] == f(i))
              && (forall a :: 0 <= a < mem.Length && !(vec.ptr <= a < vec.ptr + count * elem.size) ==>
                    mem[a] == old(mem[a]))
    ensures vec == null ==> forall a :: 0 <= a < mem.Length ==> mem[a] == old(mem[a])
  {
    vec, others := WithCapacity(allocator, mem, elem, count, env);
    if vec != null {
      Fill(vec, f);
    }
  }

  /** The filling loop of `allocate_vec`. */
  method Fill(vec: SharedVec, f: nat -> seq<Byte>)
    requires vec.Valid() && vec.len == 0 && forall i :: |f(i)| == vec.elemSize
    modifies vec, vec.mem
    ensures vec.Valid() && |vec.Contents()| == vec.capacity
    ensures forall i :: 0 <= i < vec.capacity ==> vec.Contents()[i] == f(i)
    ensures forall a :: 0 <= a < vec.mem.Length && !(vec.ptr <= a < vec.ptr + vec.capacity * vec.elemSize) ==>
              vec.mem[a] == old(vec.mem[a])
  {
    for i := 0 to vec.capacity
      invariant vec.Valid() && vec.len == i == |vec.Contents()|
      invariant forall k :: 0 <= k < i ==> vec.Contents()[k] == f(k)
      invariant forall a :: 0 <= a < vec.mem.Length && !(vec.ptr <= a < vec.ptr + vec.capacity * vec.elemSize) ==>
                  vec.mem[a] == old(vec.mem[a])
    {
      var ok := vec.Push(f(i));
    }
  }

  // ---------------------------------------------------------------- boxes

  /** `SharedBox::new`: a region of its own that holds the value, or failure. */
  method NewBox(allocator: BumpAllocator, mem: array<Byte>, layout: Layout, value: seq<Byte>, env: nat -> seq<Layout>)
    returns (ptr: Option<nat>, ghost others: seq<Layout>)
    requires allocator.Valid() && mem.Length == allocator.size
    requires Legal(layout) && |value| == layout.size && forall k :: AllLegal(env(k))
    modifies allocator, mem
    ensures allocator.Valid()
    ensures AllLegal(old(allocator.log) + others)
    ensures allocator.log == old(allocator.log) + others + [layout]
    ensures ptr == Place(allocator.size, Replay(allocator.size, old(allocator.log) + others).next, layout)
    ensures ptr.Some? ==> ptr.value + layout.size <= mem.Length && mem[ptr.value..ptr.value + layout.size] == value
    ensures forall a :: 0 <= a < mem.Length && !(ptr.Some? && ptr.value <= a < ptr.value + layout.size) ==>
              mem[a] == old(mem[a])
  {
    var retries;
    ptr, retries, others := allocator.Alloc(layout, env, 0);
    if ptr.Some? {
      Write(mem, ptr.value, value);
    }
  }
}
