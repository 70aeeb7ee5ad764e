/** The affinity masks: 1024 bits in sixteen 64-bit words, OR-ed together in place up the tree. */
module CpuMask {
  import opened Bits
  import opened Topology

  const WORD_BITS: nat := 64
  const WORDS: nat := 16
  const CPUS: nat := 1024

  /** An unsigned 64-bit word. */
  type Word = x: nat | x < Pow2(WORD_BITS) witness 0

  /** Whether the mask contains a CPU. */
  predicate Has(mask: seq<Word>, cpu: nat)
    requires |mask| == WORDS && cpu < CPUS
  {
    Bit(mask[cpu / WORD_BITS], cpu % WORD_BITS)
  }

  /** The mask contains exactly the CPUs of a set. */
  ghost predicate Shows(mask: seq<Word>, cpus: iset<int>) {
    |mask| == WORDS && forall c: nat :: c < CPUS ==> (Has(mask, c) <==> c in cpus)
  }

  // ---------------------------------------------------------------- words

  lemma {:induction false} OrFits(x: nat, y: nat, w: nat)
    requires x < Pow2(w) && y < Pow2(w)
    ensures Or(x, y) < Pow2(w)
    decreases w
  {
    if x > 0 && y > 0 {
      OrFits(x / 2, y / 2, w - 1);
    }
  }

  /** A word is determined by its bits. */
  lemma {:induction false} SameBits(x: nat, y: nat, w: nat)
    requires x < Pow2(w) && y < Pow2(w)
    requires forall i: nat :: i < w ==> (Bit(x, i) <==> Bit(y, i))
    ensures x == y
    decreases w
  {
    if w > 0 {
      assert Bit(x, 0) <==> Bit(y, 0);
      forall i: nat | i < w - 1
        ensures Bit(x / 2, i) <==> Bit(y / 2, i)
      {
        assert Bit(x, i + 1) <==> Bit(y, i + 1);
      }
      SameBits(x / 2, y / 2, w - 1);
    }
  }

  function OrWord(x: Word, y: Word): Word {
    OrFits(x, y, WORD_BITS);
    Or(x, y)
  }

  /** `1 << bit` */
  function Shifted(bit: nat): Word
    requires bit < WORD_BITS
  {
    Pow2Strict(bit, WORD_BITS);
    Pow2(bit)
  }

  lemma Pow2Strict(j: nat, k: nat)
    requires j < k
    ensures Pow2(j) < Pow2(k)
  {
    Pow2Monotone(j + 1, k);
  }

  lemma SplitCpu(c: nat)
    requires c < CPUS
    ensures c / WORD_BITS < WORDS && c % WORD_BITS < WORD_BITS
    ensures c == (c / WORD_BITS) * WORD_BITS + c % WORD_BITS
  {
  }

  lemma JoinCpu(k: nat, i: nat)
    requires k < WORDS && i < WORD_BITS
    ensures var c := k * WORD_BITS + i; c < CPUS && c / WORD_BITS == k && c % WORD_BITS == i
  {
  }

  // ---------------------------------------------------------------- masks

  ghost predicate OrOf(a: seq<Word>, b: seq<Word>, r: seq<Word>) {
    |a| == |b| == |r| && forall k :: 0 <= k < |r| ==> r[k] == OrWord(a[k], b[k])
  }

  lemma OrShows(a: seq<Word>, b: seq<Word>, r: seq<Word>, s: iset<int>, t: iset<int>)
    requires Shows(a, s) && Shows(b, t) && OrOf(a, b, r)
    ensures Shows(r, s + t)
  {
    forall c: nat | c < CPUS
      ensures Has(r, c) <==> c in s + t
    {
      SplitCpu(c);
      var k := c / WORD_BITS;
      OrBit(a[k], b[k], c % WORD_BITS);
      assert Has(a, c) <==> c in s;
      assert Has(b, c) <==> c in t;
    }
  }

  /** A mask is determined by its CPUs. */
  lemma MaskUnique(a: seq<Word>, b: seq<Word>, s: iset<int>)
    requires Shows(a, s) && Shows(b, s)
    ensures a == b
  {
    forall k | 0 <= k < WORDS
      ensures a[k] == b[k]
    {
      forall i: nat | i < WORD_BITS
        ensures Bit(a[k], i) <==> Bit(b[k], i)
      {
        JoinCpu(k, i);
        var c := k * WORD_BITS + i;
        assert Has(a, c) <==> c in s;
        assert Has(b, c) <==> c in s;
      }
      SameBits(a[k], b[k], WORD_BITS);
    }
  }

  /** OR-ing a smaller mask into a larger one changes nothing. */
  lemma Absorbed(a: seq<Word>, b: seq<Word>, r: seq<Word>, s: iset<int>, t: iset<int>)
    requires Shows(a, s) && Shows(b, t) && OrOf(a, b, r) && s <= t
    ensures r == b
  {
    OrShows(a, b, r, s, t);
    assert s + t == t;
    MaskUnique(r, b, t);
  }

  lemma SetHas(a: seq<Word>, cpu: nat, c: nat)
    requires |a| == WORDS && cpu < CPUS && c < CPUS
    ensures cpu / WORD_BITS < WORDS
    ensures var k := cpu / WORD_BITS;
            Has(a[k := OrWord(a[k], Shifted(cpu % WORD_BITS))], c) <==> Has(a, c) || c == cpu
  {
    SplitCpu(cpu);
    SplitCpu(c);
    var k := cpu / WORD_BITS;
    if c / WORD_BITS == k {
      OrBit(a[k], Shifted(cpu % WORD_BITS), c % WORD_BITS);
      Pow2Bit(cpu % WORD_BITS, c % WORD_BITS);
    }
  }

  /** `cpu_set` */
  method CpuSet(cpu: nat, mask: array<Word>)
    requires cpu < CPUS && mask.Length == WORDS
    modifies mask
    ensures forall c: nat :: c < CPUS ==> (Has(mask[..], c) <==> Has(old(mask[..]), c) || c == cpu)
  {
    ghost var before := mask[..];
    var elem := cpu / WORD_BITS;
    var bit := cpu % WORD_BITS;
    mask[elem] := OrWord(mask[elem], Shifted(bit));
    forall c: nat | c < CPUS
      ensures Has(mask[..], c) <==> Has(before, c) || c == cpu
    {
      SetHas(before, cpu, c);
      assert mask[..] == before[elem := OrWord(before[elem], Shifted(bit))];
    }
  }

  /** `cpu_or` */
  method CpuOr(dest: array<Word>, src: array<Word>)
    requires dest != src && dest.Length == src.Length == WORDS
    modifies dest
    ensures OrOf(old(dest[..]), src[..], dest[..])
  {
    for i := 0 to WORDS
      invariant forall k :: 0 <= k < i ==> dest[k] == OrWord(old(dest[k]), src[k])
      invariant forall k :: i <= k < WORDS ==> dest[k] == old(dest[k])
    {
      dest[i] := OrWord(dest[i], src[i]);
    }
  }

  /** `mem::zeroed` */
  method Zeroed() returns (mask: array<Word>)
    ensures fresh(mask) && Shows(mask[..], iset{})
  {
    mask := new Word[WORDS](_ => 0);
    forall c: nat | c < CPUS
      ensures !Has(mask[..], c)
    {
      SplitCpu(c);
      ZeroHasNoBits(c % WORD_BITS);
    }
  }

  // ---------------------------------------------------------------- the CPUs below an object

  predicate AmongCores(cores: seq<Core>, cpu: int) {
    exists k :: 0 <= k < |cores| && InCore(cores[k], cpu)
  }

  predicate AmongComplexes(complexes: seq<CoreComplex>, cpu: int) {
    exists j :: 0 <= j < |complexes| && AmongCores(complexes[j].cores, cpu)
  }

  predicate AmongNodes(nodes: seq<Node>, cpu: int) {
    exists i :: 0 <= i < |nodes| && AmongComplexes(nodes[i].complexes, cpu)
  }

  ghost function ThreadCpus(hts: seq<Hyperthread>): iset<int> {
    iset c | AmongThreads(hts, c)
  }

  ghost function CoreCpus(cores: seq<Core>): iset<int> {
    iset c | AmongCores(cores, c)
  }

  ghost function ComplexCpus(complexes: seq<CoreComplex>): iset<int> {
    iset c | AmongComplexes(complexes, c)
  }

  ghost function NodeCpus(nodes: seq<Node>): iset<int> {
    iset c | AmongNodes(nodes, c)
  }

  lemma ThreadCpusStep(hts: seq<Hyperthread>, n: nat)
    requires n < |hts|
    ensures ThreadCpus(hts[..n + 1]) == ThreadCpus(hts[..n]) + iset{hts[n].id}
  {
    forall c
      ensures c in ThreadCpus(hts[..n + 1]) <==> c in ThreadCpus(hts[..n]) + iset{hts[n].id}
    {
      if h :| 0 <= h < n && hts[h].id == c {
        assert hts[..n][h].id == c;
      }
      if c == hts[n].id {
        assert hts[..n + 1][n].id == c;
      }
    }
  }

  lemma CoreCpusStep(cores: seq<Core>, n: nat)
    requires n < |cores|
    ensures CoreCpus(cores[..n + 1]) == CoreCpus(cores[..n]) + ThreadCpus(cores[n].hyperthreads)
  {
  }

  lemma ComplexCpusStep(complexes: seq<CoreComplex>, n: nat)
    requires n < |complexes|
    ensures ComplexCpus(complexes[..n + 1]) == ComplexCpus(complexes[..n]) + CoreCpus(complexes[n].cores)
  {
  }

  lemma NodeCpusStep(nodes: seq<Node>, n: nat)
    requires n < |nodes|
    ensures NodeCpus(nodes[..n + 1]) == NodeCpus(nodes[..n]) + ComplexCpus(nodes[n].complexes)
  {
  }

  // ---------------------------------------------------------------- the masks

  /** What `cpu_set` demands of an id: its word must lie inside the mask. */
  predicate SmallCore(core: Core) {
    forall h :: 0 <= h < |core.hyperthreads| ==> 0 <= core.hyperthreads[h].id < CPUS
  }

  predicate SmallComplex(complex: CoreComplex) {
    forall k :: 0 <= k < |complex.cores| ==> SmallCore(complex.cores[k])
  }

  predicate SmallNode(node: Node) {
    forall j :: 0 <= j < |node.complexes| ==> SmallComplex(node.complexes[j])
  }

  method HyperthreadMask(h: Hyperthread) returns (mask: array<Word>)
    requires 0 <= h.id < CPUS
    ensures fresh(mask) && Shows(mask[..], iset{h.id})
  {
    mask := Zeroed();
    CpuSet(h.id, mask);
  }

  method CoreMask(core: Core) returns (mask: array<Word>)
    requires SmallCore(core)
    ensures fresh(mask) && Shows(mask[..], ThreadCpus(core.hyperthreads))
  {
    mask := Zeroed();
    var hts := core.hyperthreads;
    assert ThreadCpus(hts[..0]) == iset{};
    for i := 0 to |hts|
      invariant fresh(mask) && Shows(mask[..], ThreadCpus(hts[..i]))
    {
      ghost var before := mask[..];
      var one := HyperthreadMask(hts[i]);
      CpuOr(mask, one);
      OrShows(before, one[..], mask[..], ThreadCpus(hts[..i]), iset{hts[i].id});
      ThreadCpusStep(hts, i);
    }
    assert hts[..|hts|] == hts;
  }

  method ComplexMask(complex: CoreComplex) returns (mask: array<Word>)
    requires SmallComplex(complex)
    ensures fresh(mask) && Shows(mask[..], CoreCpus(complex.cores))
  {
    mask := Zeroed();
    var cores := complex.cores;
    assert CoreCpus(cores[..0]) == iset{};
    for i := 0 to |cores|
      invariant fresh(mask) && Shows(mask[..], CoreCpus(cores[..i]))
    {
      ghost var before := mask[..];
      var one := CoreMask(cores[i]);
      CpuOr(mask, one);
      OrShows(before, one[..], mask[..], CoreCpus(cores[..i]), ThreadCpus(cores[i].hyperthreads));
      CoreCpusStep(cores, i);
    }
    assert cores[..|cores|] == cores;
  }

  method NodeMask(node: Node) returns (mask: array<Word>)
    requires SmallNode(node)
    ensures fresh(mask) && Shows(mask[..], ComplexCpus(node.complexes))
  {
    mask := Zeroed();
    var complexes := node.complexes;
    assert ComplexCpus(complexes[..0]) == iset{};
    for i := 0 to |complexes|
      invariant fresh(mask) && Shows(mask[..], ComplexCpus(complexes[..i]))
    {
      ghost var before := mask[..];
      var one := ComplexMask(complexes[i]);
      CpuOr(mask, one);
      OrShows(before, one[..], mask[..], ComplexCpus(complexes[..i]), CoreCpus(complexes[i].cores));
      ComplexCpusStep(complexes, i);
    }
    assert complexes[..|complexes|] == complexes;
  }

  method SystemMask(s: System) returns (mask: array<Word>)
    requires forall i :: 0 <= i < |s.nodes| ==> SmallNode(s.nodes[i])
    ensures fresh(mask) && Shows(mask[..], NodeCpus(s.nodes))
  {
    mask := Zeroed();
    var nodes := s.nodes;
    assert NodeCpus(nodes[..0]) == iset{};
    for i := 0 to |nodes|
      invariant fresh(mask) && Shows(mask[..], NodeCpus(nodes[..i]))
    {
      ghost var before := mask[..];
      var one := NodeMask(nodes[i]);
      CpuOr(mask, one);
      OrShows(before, one[..], mask[..], NodeCpus(nodes[..i]), ComplexCpus(nodes[i].complexes));
      NodeCpusStep(nodes, i);
    }
    assert nodes[..|nodes|] == nodes;
  }

  // ---------------------------------------------------------------- the masks and the tree

  /** The CPUs of the system mask are the CPUs some path of the tree leads to. */
  lemma SystemCpusAreHeld(nodes: seq<Node>, cpu: int)
    ensures cpu in NodeCpus(nodes) <==> exists p: Path :: Holds(nodes, p, cpu)
  {
    if cpu in NodeCpus(nodes) {
      var i :| 0 <= i < |nodes| && AmongComplexes(nodes[i].complexes, cpu);
      var complexes := nodes[i].complexes;
      var j :| 0 <= j < |complexes| && AmongCores(complexes[j].cores, cpu);
      var cores := complexes[j].cores;
      var k :| 0 <= k < |cores| && InCore(cores[k], cpu);
      assert Holds(nodes, Path(i, j, k), cpu);
    }
    if p: Path :| Holds(nodes, p, cpu) {
      var complexes := nodes[p.node].complexes;
      assert InCore(CoreAt(nodes, p), cpu);
      assert AmongCores(complexes[p.complex].cores, cpu);
      assert AmongComplexes(complexes, cpu);
    }
  }

  /** From one core up to the whole system, each mask is absorbed by the next larger one. */
  lemma MasksNest(nodes: seq<Node>, p: Path, small: seq<Word>, large: seq<Word>, both: seq<Word>)
    requires ValidPath(nodes, p) && OrOf(small, large, both)
    requires
      var complexes := nodes[p.node].complexes;
      var cores := complexes[p.complex].cores;
      || (Shows(small, ThreadCpus(cores[p.core].hyperthreads)) && Shows(large, CoreCpus(cores)))
      || (Shows(small, CoreCpus(cores)) && Shows(large, ComplexCpus(complexes)))
      || (Shows(small, ComplexCpus(complexes)) && Shows(large, NodeCpus(nodes)))
    ensures both == large
  {
    var complexes := nodes[p.node].complexes;
    var cores := complexes[p.complex].cores;
    var ofCore, ofComplex := ThreadCpus(cores[p.core].hyperthreads), CoreCpus(cores);
    var ofNode, ofSystem := ComplexCpus(complexes), NodeCpus(nodes);
    assert ofCore <= ofComplex <= ofNode <= ofSystem;
    if Shows(small, ofCore) && Shows(large, ofComplex) {
      Absorbed(small, large, both, ofCore, ofComplex);
    } else if Shows(small, ofComplex) && Shows(large, ofNode) {
      Absorbed(small, large, both, ofComplex, ofNode);
    } else {
      Absorbed(small, large, both, ofNode, ofSystem);
    }
  }

  lemma CoreCpusOfBoth(a: seq<Core>, b: seq<Core>)
    ensures CoreCpus(a + b) == CoreCpus(a) + CoreCpus(b)
  {
    forall c
      ensures AmongCores(a + b, c) <==> AmongCores(a, c) || AmongCores(b, c)
    {
      if k :| 0 <= k < |a| && InCore(a[k], c) {
        assert (a + b)[k] == a[k];
      }
      if k :| 0 <= k < |b| && InCore(b[k], c) {
        assert (a + b)[|a| + k] == b[k];
      }
    }
  }

  lemma {:induction false} ComplexCoresCpus(complexes: seq<CoreComplex>)
    ensures CoreCpus(ComplexCores(complexes)) == ComplexCpus(complexes)
  {
    if complexes == [] {
    } else {
      var n := |complexes| - 1;
      ComplexCoresCpus(complexes[..n]);
      CoreCpusOfBoth(ComplexCores(complexes[..n]), complexes[n].cores);
      ComplexCpusStep(complexes, n);
      assert complexes[..n + 1] == complexes;
    }
  }

  lemma {:induction false} TreeCoresCpus(nodes: seq<Node>)
    ensures CoreCpus(TreeCores(nodes)) == NodeCpus(nodes)
  {
    if nodes == [] {
    } else {
      var n := |nodes| - 1;
      TreeCoresCpus(nodes[..n]);
      CoreCpusOfBoth(TreeCores(nodes[..n]), ComplexCores(nodes[n].complexes));
      ComplexCoresCpus(nodes[n].complexes);
      NodeCpusStep(nodes, n);
      assert nodes[..n + 1] == nodes;
    }
  }

  lemma SameCoresSameCpus(a: seq<Core>, b: seq<Core>)
    requires multiset(a) == multiset(b)
    ensures CoreCpus(a) == CoreCpus(b)
  {
    forall c
      ensures AmongCores(a, c) <==> AmongCores(b, c)
    {
      if k :| 0 <= k < |a| && InCore(a[k], c) {
        assert a[k] in multiset(b);
      }
      if k :| 0 <= k < |b| && InCore(b[k], c) {
        assert b[k] in multiset(a);
      }
    }
  }

  /** The system mask, built down the tree, is the mask of the flat, sorted list of cores. */
  lemma SystemMaskIsFlat(s: System, tree: seq<Word>, flat: seq<Word>)
    requires Built(s)
    requires Shows(tree, NodeCpus(s.nodes)) && Shows(flat, CoreCpus(s.allCores))
    ensures tree == flat
  {
    TreeCoresCpus(s.nodes);
    SameCoresSameCpus(s.allCores, TreeCores(s.nodes));
    MaskUnique(tree, flat, NodeCpus(s.nodes));
  }
}
