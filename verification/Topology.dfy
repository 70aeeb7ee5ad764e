/** The topology tree and the lookup tables that `System::new` builds over it. */
module Topology {
  import opened Wrappers

  datatype Hyperthread = Hyperthread(id: int)
  datatype Core = Core(id: int, hyperthreads: seq<Hyperthread>)
  datatype CoreComplex = CoreComplex(id: int, cores: seq<Core>)
  datatype Node = Node(id: int, complexes: seq<CoreComplex>)

  /** Positions of a node, a complex in it and a core in that. */
  datatype Path = Path(node: nat, complex: nat, core: nat)

  datatype System = System(nodes: seq<Node>, allCores: seq<Core>, index: map<int, Path>)

  // ---------------------------------------------------------------- what a tree contains

  predicate AmongThreads(hts: seq<Hyperthread>, cpu: int) {
    exists h :: 0 <= h < |hts| && hts[h].id == cpu
  }

  predicate InCore(core: Core, cpu: int) {
    AmongThreads(core.hyperthreads, cpu)
  }

  predicate ValidPath(nodes: seq<Node>, p: Path) {
    && p.node < |nodes|
    && p.complex < |nodes[p.node].complexes|
    && p.core < |nodes[p.node].complexes[p.complex].cores|
  }

  function CoreAt(nodes: seq<Node>, p: Path): Core
    requires ValidPath(nodes, p)
  {
    nodes[p.node].complexes[p.complex].cores[p.core]
  }

  predicate Holds(nodes: seq<Node>, p: Path, cpu: int) {
    ValidPath(nodes, p) && InCore(CoreAt(nodes, p), cpu)
  }

  function ComplexCores(complexes: seq<CoreComplex>): seq<Core> {
    if complexes == [] then []
    else ComplexCores(complexes[..|complexes| - 1]) + complexes[|complexes| - 1].cores
  }

  /** All cores of the tree, in tree order. */
  function TreeCores(nodes: seq<Node>): seq<Core> {
    if nodes == [] then []
    else TreeCores(nodes[..|nodes| - 1]) + ComplexCores(nodes[|nodes| - 1].complexes)
  }

  function Threads(cores: seq<Core>): nat {
    if cores == [] then 0
    else Threads(cores[..|cores| - 1]) + |cores[|cores| - 1].hyperthreads|
  }

  predicate SortedById(cores: seq<Core>) {
    forall i, j :: 0 <= i < j < |cores| ==> cores[i].id <= cores[j].id
  }

  // ---------------------------------------------------------------- the index

  /** The index sends every CPU of the tree, and no other number, to a core that contains it. */
  ghost predicate IndexRight(nodes: seq<Node>, index: map<int, Path>) {
    && (forall cpu :: cpu in index ==> Holds(nodes, index[cpu], cpu))
    && (forall p: Path, cpu :: Holds(nodes, p, cpu) ==> cpu in index)
  }

  method IndexCore(before: map<int, Path>, core: Core, p: Path) returns (after: map<int, Path>)
    ensures forall cpu :: cpu in after <==> cpu in before || InCore(core, cpu)
    ensures forall cpu :: cpu in after ==>
              after[cpu] == if InCore(core, cpu) then p else before[cpu]
  {
    after := before;
    for h := 0 to |core.hyperthreads|
      invariant forall cpu :: cpu in after <==>
                  cpu in before || exists g :: 0 <= g < h && core.hyperthreads[g].id == cpu
      invariant forall cpu :: cpu in after ==>
                  if exists g :: 0 <= g < h && core.hyperthreads[g].id == cpu
                  then after[cpu] == p else after[cpu] == before[cpu]
    {
      after := after[core.hyperthreads[h].id := p];
    }
  }

  /** The inner loops of `System::new`, over the cores of one complex. */
  method IndexComplex(before: map<int, Path>, nodes: seq<Node>, i: nat, j: nat) returns (after: map<int, Path>)
    requires i < |nodes| && j < |nodes[i].complexes|
    ensures forall cpu :: cpu in before ==> cpu in after
    ensures forall cpu :: cpu in after ==>
              (cpu in before && after[cpu] == before[cpu]) || Holds(nodes, after[cpu], cpu)
    ensures forall k: nat, cpu :: Holds(nodes, Path(i, j, k), cpu) ==> cpu in after
  {
    after := before;
    var cores := nodes[i].complexes[j].cores;
    for k := 0 to |cores|
      invariant forall cpu :: cpu in before ==> cpu in after
      invariant forall cpu :: cpu in after ==>
                  (cpu in before && after[cpu] == before[cpu]) || Holds(nodes, after[cpu], cpu)
      invariant forall l: nat, cpu :: l < k && Holds(nodes, Path(i, j, l), cpu) ==> cpu in after
    {
      after := IndexCore(after, cores[k], Path(i, j, k));
    }
  }

  method IndexNode(before: map<int, Path>, nodes: seq<Node>, i: nat) returns (after: map<int, Path>)
    requires i < |nodes|
    ensures forall cpu :: cpu in before ==> cpu in after
    ensures forall cpu :: cpu in after ==>
              (cpu in before && after[cpu] == before[cpu]) || Holds(nodes, after[cpu], cpu)
    ensures forall p: Path, cpu :: p.node == i && Holds(nodes, p, cpu) ==> cpu in after
  {
    after := before;
    for j := 0 to |nodes[i].complexes|
      invariant forall cpu :: cpu in before ==> cpu in after
      invariant forall cpu :: cpu in after ==>
                  (cpu in before && after[cpu] == before[cpu]) || Holds(nodes, after[cpu], cpu)
      invariant forall p: Path, cpu :: p.node == i && p.complex < j && Holds(nodes, p, cpu) ==> cpu in after
    {
      var next := IndexComplex(after, nodes, i, j);
      forall p: Path, cpu | p.node == i && p.complex < j + 1 && Holds(nodes, p, cpu)
        ensures cpu in next
      {
        assert Holds(nodes, Path(i, p.complex, p.core), cpu);
      }
      after := next;
    }
  }

  // ---------------------------------------------------------------- the flat list of cores

  /** The place for a core with the given id: after all that are not larger. */
  function Place(cores: seq<Core>, id: int): (k: nat)
    requires SortedById(cores)
    ensures k <= |cores|
    ensures forall i :: 0 <= i < k ==> cores[i].id <= id
    ensures forall i :: k <= i < |cores| ==> id < cores[i].id
  {
    if cores == [] || cores[|cores| - 1].id <= id then |cores|
    else Place(cores[..|cores| - 1], id)
  }

  function Insert(cores: seq<Core>, c: Core): (r: seq<Core>)
    requires SortedById(cores)
    ensures SortedById(r) && multiset(r) == multiset(cores) + multiset{c}
  {
    var k := Place(cores, c.id);
    assert cores == cores[..k] + cores[k..];
    cores[..k] + [c] + cores[k..]
  }

  /** The standard library's stable sort by core id. */
  function SortCores(cores: seq<Core>): (r: seq<Core>)
    ensures SortedById(r) && multiset(r) == multiset(cores)
  {
    if cores == [] then []
    else
      assert cores == cores[..|cores| - 1] + [cores[|cores| - 1]];
      Insert(SortCores(cores[..|cores| - 1]), cores[|cores| - 1])
  }

  method NodeCores(node: Node) returns (cores: seq<Core>)
    ensures cores == ComplexCores(node.complexes)
  {
    cores := [];
    for j := 0 to |node.complexes|
      invariant cores == ComplexCores(node.complexes[..j])
    {
      assert node.complexes[..j + 1][..j] == node.complexes[..j];
      cores := cores + node.complexes[j].cores;
    }
    assert node.complexes[..|node.complexes|] == node.complexes;
  }

  /** `System::new` */
  method NewSystem(nodes: seq<Node>) returns (s: System)
    ensures s.nodes == nodes
    ensures SortedById(s.allCores) && multiset(s.allCores) == multiset(TreeCores(nodes))
    ensures IndexRight(nodes, s.index)
  {
    var allCores: seq<Core> := [];
    for i := 0 to |nodes|
      invariant allCores == TreeCores(nodes[..i])
    {
      var cores := NodeCores(nodes[i]);
      assert nodes[..i + 1][..i] == nodes[..i];
      allCores := allCores + cores;
    }
    assert nodes[..|nodes|] == nodes;
    allCores := SortCores(allCores);

    var index: map<int, Path> := map[];
    for i := 0 to |nodes|
      invariant forall cpu :: cpu in index ==> Holds(nodes, index[cpu], cpu)
      invariant forall p: Path, cpu :: p.node < i && Holds(nodes, p, cpu) ==> cpu in index
    {
      index := IndexNode(index, nodes, i);
    }
    s := System(nodes, allCores, index);
  }

  // ---------------------------------------------------------------- queries

  method LogicalCpus(s: System) returns (count: nat)
    ensures count == Threads(s.allCores)
  {
    count := 0;
    for i := 0 to |s.allCores|
      invariant count == Threads(s.allCores[..i])
    {
      assert s.allCores[..i + 1][..i] == s.allCores[..i];
      count := count + |s.allCores[i].hyperthreads|;
    }
    assert s.allCores[..|s.allCores|] == s.allCores;
  }

  ghost predicate Built(s: System) {
    && SortedById(s.allCores) && multiset(s.allCores) == multiset(TreeCores(s.nodes))
    && IndexRight(s.nodes, s.index)
  }

  /** `current_hyperthread` on CPU `cpu`: fails exactly when the tree does not have that CPU. */
  method CurrentHyperthread(s: System, cpu: int) returns (r: Option<Hyperthread>)
    requires Built(s)
    ensures r.Some? <==> exists p :: Holds(s.nodes, p, cpu)
    ensures r.Some? ==> r.value.id == cpu
  {
    if cpu in s.index {
      assert Holds(s.nodes, s.index[cpu], cpu);
      var hts := CoreAt(s.nodes, s.index[cpu]).hyperthreads;
      for h := 0 to |hts|
        invariant forall g :: 0 <= g < h ==> hts[g].id != cpu
      {
        if hts[h].id == cpu {
          return Some(hts[h]);
        }
      }
    }
    r := None;
  }

  /** `current_core`, `current_complex` and `current_node` on CPU `cpu`. */
  method CurrentCore(s: System, cpu: int) returns (r: Option<Core>)
    requires Built(s)
    ensures r.Some? <==> exists p :: Holds(s.nodes, p, cpu)
    ensures r.Some? ==> InCore(r.value, cpu) && exists p :: ValidPath(s.nodes, p) && CoreAt(s.nodes, p) == r.value
  {
    if cpu in s.index {
      assert Holds(s.nodes, s.index[cpu], cpu);
      r := Some(CoreAt(s.nodes, s.index[cpu]));
    } else {
      r := None;
    }
  }

  method CurrentComplex(s: System, cpu: int) returns (r: Option<CoreComplex>)
    requires Built(s)
    ensures r.Some? <==> exists p :: Holds(s.nodes, p, cpu)
    ensures r.Some? ==> exists p :: Holds(s.nodes, p, cpu) && s.nodes[p.node].complexes[p.complex] == r.value
  {
    if cpu in s.index {
      var p := s.index[cpu];
      assert Holds(s.nodes, p, cpu);
      r := Some(s.nodes[p.node].complexes[p.complex]);
    } else {
      r := None;
    }
  }

  method CurrentNode(s: System, cpu: int) returns (r: Option<Node>)
    requires Built(s)
    ensures r.Some? <==> exists p :: Holds(s.nodes, p, cpu)
    ensures r.Some? ==> exists p :: Holds(s.nodes, p, cpu) && s.nodes[p.node] == r.value
  {
    if cpu in s.index {
      var p := s.index[cpu];
      assert Holds(s.nodes, p, cpu);
      r := Some(s.nodes[p.node]);
    } else {
      r := None;
    }
  }
}
