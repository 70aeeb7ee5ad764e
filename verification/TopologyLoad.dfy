/** The in-memory part of `System::load`: grouping the CPU records into a tree, and what the tree,
    the index and the counts then say about the records. */
module TopologyLoad {
  import opened Topology

  /** One CPU with the ids of its node, complex and core. */
  datatype Record = Record(cpu: int, node: int, complex: int, core: int)

  datatype Triple = Triple(node: int, complex: int, core: int)

  /** The nested ordered maps of the program. */
  type Cores = map<int, seq<int>>
  type Complexes = map<int, Cores>
  type Tree = map<int, Complexes>

  function TripleOf(r: Record): Triple {
    Triple(r.node, r.complex, r.core)
  }

  /** The CPUs recorded for a triple, in the order of the records. */
  function CpusOf(records: seq<Record>, t: Triple): seq<int> {
    if records == [] then []
    else
      var last := records[|records| - 1];
      CpusOf(records[..|records| - 1], t) + if TripleOf(last) == t then [last.cpu] else []
  }

  function Lookup(tree: Tree, t: Triple): seq<int> {
    if t.node in tree && t.complex in tree[t.node] && t.core in tree[t.node][t.complex]
    then tree[t.node][t.complex][t.core]
    else []
  }

  /** Every entry, at every level, is there because of some CPU. */
  ghost predicate Tight(tree: Tree) {
    forall n :: n in tree ==>
      forall x :: x in tree[n] ==> forall c :: c in tree[n][x] ==> tree[n][x][c] != []
  }

  /** `topology.entry(node).or_default().entry(complex).or_default().entry(core).or_default().push(cpu)` */
  function Push(tree: Tree, r: Record): Tree {
    var complexes := if r.node in tree then tree[r.node] else map[];
    var cores := if r.complex in complexes then complexes[r.complex] else map[];
    var cpus := if r.core in cores then cores[r.core] else [];
    tree[r.node := complexes[r.complex := cores[r.core := cpus + [r.cpu]]]]
  }

  lemma PushLookup(tree: Tree, r: Record, t: Triple)
    ensures Lookup(Push(tree, r), t) == Lookup(tree, t) + if TripleOf(r) == t then [r.cpu] else []
  {
  }

  lemma PushTight(tree: Tree, r: Record)
    requires Tight(tree)
    ensures Tight(Push(tree, r))
  {
  }

  /** The loop over all CPUs. */
  method Group(records: seq<Record>) returns (tree: Tree)
    ensures Tight(tree)
    ensures forall t :: Lookup(tree, t) == CpusOf(records, t)
  {
    tree := map[];
    for i := 0 to |records|
      invariant Tight(tree)
      invariant forall t :: Lookup(tree, t) == CpusOf(records[..i], t)
    {
      PushTight(tree, records[i]);
      forall t
        ensures Lookup(Push(tree, records[i]), t) == CpusOf(records[..i + 1], t)
      {
        PushLookup(tree, records[i], t);
        assert records[..i + 1][..i] == records[..i];
      }
      tree := Push(tree, records[i]);
    }
    assert records[..|records|] == records;
  }

  // ---------------------------------------------------------------- maps in key order

  predicate Ascending(s: seq<int>) {
    forall i, j :: 0 <= i < j < |s| ==> s[i] < s[j]
  }

  function InsertKey(s: seq<int>, x: int): (r: seq<int>)
    requires Ascending(s) && x !in s
    ensures Ascending(r)
    ensures forall y :: y in r <==> y in s || y == x
  {
    if s == [] then [x]
    else
      var last := s[|s| - 1];
      assert s == s[..|s| - 1] + [last];
      if last < x then s + [x]
      else
        var r := InsertKey(s[..|s| - 1], x);
        assert forall i :: 0 <= i < |r| ==> r[i] in r;
        assert forall y :: y in r ==> y < last;
        r + [last]
  }

  method AnyOf<T(==)>(s: set<T>) returns (x: T)
    requires s != {}
    ensures x in s
  {
    x :| x in s;
  }

  /** The keys of an ordered map, in iteration order. */
  method KeysInOrder(keys: set<int>) returns (s: seq<int>)
    ensures Ascending(s)
    ensures forall k :: k in s <==> k in keys
  {
    s := [];
    var left: set<int> := keys;
    while left != {}
      invariant left <= keys && Ascending(s)
      invariant forall k :: k in s <==> k in keys - left
      decreases left
    {
      var k := AnyOf(left);
      s := InsertKey(s, k);
      left := left - {k};
    }
  }

  // ---------------------------------------------------------------- building the tree

  function Ids(core: Core): (r: seq<int>)
    ensures |r| == |core.hyperthreads|
    ensures forall h :: 0 <= h < |r| ==> r[h] == core.hyperthreads[h].id
  {
    seq(|core.hyperthreads|, h requires 0 <= h < |core.hyperthreads| => core.hyperthreads[h].id)
  }

  ghost predicate CoresMatch(cores: seq<Core>, m: Cores) {
    && (forall i, j :: 0 <= i < j < |cores| ==> cores[i].id < cores[j].id)
    && (forall i :: 0 <= i < |cores| ==> cores[i].id in m && Ids(cores[i]) == m[cores[i].id])
    && (forall c :: c in m ==> exists i :: 0 <= i < |cores| && cores[i].id == c)
  }

  ghost predicate ComplexesMatch(complexes: seq<CoreComplex>, m: Complexes) {
    && (forall i, j :: 0 <= i < j < |complexes| ==> complexes[i].id < complexes[j].id)
    && (forall i :: 0 <= i < |complexes| ==> complexes[i].id in m && CoresMatch(complexes[i].cores, m[complexes[i].id]))
    && (forall x :: x in m ==> exists i :: 0 <= i < |complexes| && complexes[i].id == x)
  }

  ghost predicate NodesMatch(nodes: seq<Node>, m: Tree) {
    && (forall i, j :: 0 <= i < j < |nodes| ==> nodes[i].id < nodes[j].id)
    && (forall i :: 0 <= i < |nodes| ==> nodes[i].id in m && ComplexesMatch(nodes[i].complexes, m[nodes[i].id]))
    && (forall n :: n in m ==> exists i :: 0 <= i < |nodes| && nodes[i].id == n)
  }

  method BuildHyperthreads(cpus: seq<int>) returns (hts: seq<Hyperthread>)
    ensures |hts| == |cpus| && forall h :: 0 <= h < |cpus| ==> hts[h].id == cpus[h]
  {
    hts := [];
    for h := 0 to |cpus|
      invariant |hts| == h && forall g :: 0 <= g < h ==> hts[g].id == cpus[g]
    {
      hts := hts + [Hyperthread(cpus[h])];
    }
  }

  method BuildCores(m: Cores) returns (cores: seq<Core>)
    ensures CoresMatch(cores, m)
  {
    cores := [];
    var keys := KeysInOrder(m.Keys);
    for i := 0 to |keys|
      invariant |cores| == i
      invariant forall k :: 0 <= k < i ==> cores[k].id == keys[k] && Ids(cores[k]) == m[keys[k]]
    {
      assert keys[i] in keys;
      var hts := BuildHyperthreads(m[keys[i]]);
      var core := Core(keys[i], hts);
      assert Ids(core) == m[keys[i]];
      cores := cores + [core];
    }
    forall c | c in m
      ensures exists i :: 0 <= i < |cores| && cores[i].id == c
    {
      var i :| 0 <= i < |keys| && keys[i] == c;
      assert cores[i].id == c;
    }
  }

  method BuildComplexes(m: Complexes) returns (complexes: seq<CoreComplex>)
    ensures ComplexesMatch(complexes, m)
  {
    complexes := [];
    var keys := KeysInOrder(m.Keys);
    for i := 0 to |keys|
      invariant |complexes| == i
      invariant forall k :: 0 <= k < i ==> complexes[k].id == keys[k] && CoresMatch(complexes[k].cores, m[keys[k]])
    {
      assert keys[i] in keys;
      var cores := BuildCores(m[keys[i]]);
      complexes := complexes + [CoreComplex(keys[i], cores)];
    }
    forall x | x in m
      ensures exists i :: 0 <= i < |complexes| && complexes[i].id == x
    {
      var i :| 0 <= i < |keys| && keys[i] == x;
      assert complexes[i].id == x;
    }
  }

  method BuildNodes(m: Tree) returns (nodes: seq<Node>)
    ensures NodesMatch(nodes, m)
  {
    nodes := [];
    var keys := KeysInOrder(m.Keys);
    for i := 0 to |keys|
      invariant |nodes| == i
      invariant forall k :: 0 <= k < i ==> nodes[k].id == keys[k] && ComplexesMatch(nodes[k].complexes, m[keys[k]])
    {
      assert keys[i] in keys;
      var complexes := BuildComplexes(m[keys[i]]);
      nodes := nodes + [Node(keys[i], complexes)];
    }
    forall n | n in m
      ensures exists i :: 0 <= i < |nodes| && nodes[i].id == n
    {
      var i :| 0 <= i < |keys| && keys[i] == n;
      assert nodes[i].id == n;
    }
  }

  // ---------------------------------------------------------------- the tree and the records

  function TripleAt(nodes: seq<Node>, p: Path): Triple
    requires ValidPath(nodes, p)
  {
    Triple(nodes[p.node].id, nodes[p.node].complexes[p.complex].id, CoreAt(nodes, p).id)
  }

  /** The tree shows exactly the records: one core for each triple that occurs, with the CPUs of
      that triple. */
  ghost predicate Faithful(nodes: seq<Node>, records: seq<Record>) {
    && (forall p :: ValidPath(nodes, p) ==>
          Ids(CoreAt(nodes, p)) == CpusOf(records, TripleAt(nodes, p)) != [])
    && (forall p, q :: ValidPath(nodes, p) && ValidPath(nodes, q) && TripleAt(nodes, p) == TripleAt(nodes, q) ==>
          p == q)
    && (forall t :: CpusOf(records, t) != [] ==> exists p :: ValidPath(nodes, p) && TripleAt(nodes, p) == t)
  }

  lemma MatchShows(nodes: seq<Node>, tree: Tree, records: seq<Record>, p: Path)
    requires NodesMatch(nodes, tree) && Tight(tree) && ValidPath(nodes, p)
    requires forall t :: Lookup(tree, t) == CpusOf(records, t)
    ensures Ids(CoreAt(nodes, p)) == CpusOf(records, TripleAt(nodes, p)) != []
  {
    var t := TripleAt(nodes, p);
    assert ComplexesMatch(nodes[p.node].complexes, tree[t.node]);
    assert CoresMatch(nodes[p.node].complexes[p.complex].cores, tree[t.node][t.complex]);
    assert Lookup(tree, t) == tree[t.node][t.complex][t.core];
  }

  lemma MatchFinds(nodes: seq<Node>, tree: Tree, t: Triple) returns (p: Path)
    requires NodesMatch(nodes, tree) && Lookup(tree, t) != []
    ensures ValidPath(nodes, p) && TripleAt(nodes, p) == t
  {
    var i :| 0 <= i < |nodes| && nodes[i].id == t.node;
    var complexes := nodes[i].complexes;
    assert ComplexesMatch(complexes, tree[t.node]);
    var j :| 0 <= j < |complexes| && complexes[j].id == t.complex;
    var cores := complexes[j].cores;
    assert CoresMatch(cores, tree[t.node][t.complex]);
    var k :| 0 <= k < |cores| && cores[k].id == t.core;
    p := Path(i, j, k);
  }

  lemma MatchUnique(nodes: seq<Node>, tree: Tree, p: Path, q: Path)
    requires NodesMatch(nodes, tree) && ValidPath(nodes, p) && ValidPath(nodes, q)
    requires TripleAt(nodes, p) == TripleAt(nodes, q)
    ensures p == q
  {
    assert p.node == q.node;
    var complexes := nodes[p.node].complexes;
    assert ComplexesMatch(complexes, tree[nodes[p.node].id]);
    assert p.complex == q.complex;
    assert CoresMatch(complexes[p.complex].cores, tree[nodes[p.node].id][complexes[p.complex].id]);
  }

  /** Ids rise from left to right at every level. */
  ghost predicate InOrder(nodes: seq<Node>) {
    forall p: Path, q: Path :: ValidPath(nodes, p) && ValidPath(nodes, q) ==>
      && (p.node < q.node ==> nodes[p.node].id < nodes[q.node].id)
      && (p.node == q.node && p.complex < q.complex ==>
            nodes[p.node].complexes[p.complex].id < nodes[q.node].complexes[q.complex].id)
      && (p.node == q.node && p.complex == q.complex && p.core < q.core ==> CoreAt(nodes, p).id < CoreAt(nodes, q).id)
  }

  lemma MatchInOrder(nodes: seq<Node>, tree: Tree)
    requires NodesMatch(nodes, tree)
    ensures InOrder(nodes)
  {
    forall p: Path | ValidPath(nodes, p)
      ensures ComplexesMatch(nodes[p.node].complexes, tree[nodes[p.node].id])
      ensures exists m: Cores :: CoresMatch(nodes[p.node].complexes[p.complex].cores, m)
    {
      assert CoresMatch(nodes[p.node].complexes[p.complex].cores,
                        tree[nodes[p.node].id][nodes[p.node].complexes[p.complex].id]);
    }
  }

  lemma MatchIsFaithful(nodes: seq<Node>, tree: Tree, records: seq<Record>)
    requires NodesMatch(nodes, tree) && Tight(tree)
    requires forall t :: Lookup(tree, t) == CpusOf(records, t)
    ensures Faithful(nodes, records)
  {
    forall p | ValidPath(nodes, p)
      ensures Ids(CoreAt(nodes, p)) == CpusOf(records, TripleAt(nodes, p)) != []
    {
      MatchShows(nodes, tree, records, p);
    }
    forall t | CpusOf(records, t) != []
      ensures exists p :: ValidPath(nodes, p) && TripleAt(nodes, p) == t
    {
      assert Lookup(tree, t) != [];
      var p := MatchFinds(nodes, tree, t);
    }
    forall p, q | ValidPath(nodes, p) && ValidPath(nodes, q) && TripleAt(nodes, p) == TripleAt(nodes, q)
      ensures p == q
    {
      MatchUnique(nodes, tree, p, q);
    }
  }

  method Load(records: seq<Record>) returns (s: System)
    ensures Built(s) && Faithful(s.nodes, records) && InOrder(s.nodes)
  {
    var tree := Group(records);
    var nodes := BuildNodes(tree);
    MatchIsFaithful(nodes, tree, records);
    MatchInOrder(nodes, tree);
    s := NewSystem(nodes);
  }

  // ---------------------------------------------------------------- what the tree says of a CPU

  predicate DistinctCpus(records: seq<Record>) {
    forall i, j :: 0 <= i < j < |records| ==> records[i].cpu != records[j].cpu
  }

  lemma {:induction false} CpusOfHas(records: seq<Record>, t: Triple, cpu: int)
    ensures cpu in CpusOf(records, t) <==>
              exists i :: 0 <= i < |records| && records[i].cpu == cpu && TripleOf(records[i]) == t
  {
    if records != [] {
      var k := |records| - 1;
      CpusOfHas(records[..k], t, cpu);
      if cpu in CpusOf(records[..k], t) {
        var i :| 0 <= i < k && records[..k][i].cpu == cpu && TripleOf(records[..k][i]) == t;
        assert records[i].cpu == cpu;
      }
      if i :| 0 <= i < |records| && records[i].cpu == cpu && TripleOf(records[i]) == t {
        if i < k {
          assert records[..k][i].cpu == cpu;
        }
      }
    }
  }

  lemma InCoreIds(core: Core, cpu: int)
    ensures InCore(core, cpu) <==> cpu in Ids(core)
  {
    if InCore(core, cpu) {
      var h :| 0 <= h < |core.hyperthreads| && core.hyperthreads[h].id == cpu;
      assert Ids(core)[h] == cpu;
    }
  }

  /** Each recorded CPU is in exactly one core of the tree, the one with its node, complex and core
      ids, and the index leads there. */
  lemma CpuHasItsCore(s: System, records: seq<Record>, r: nat) returns (p: Path)
    requires Built(s) && Faithful(s.nodes, records) && DistinctCpus(records) && r < |records|
    ensures Holds(s.nodes, p, records[r].cpu) && TripleAt(s.nodes, p) == TripleOf(records[r])
    ensures forall q :: Holds(s.nodes, q, records[r].cpu) ==> q == p
    ensures records[r].cpu in s.index && s.index[records[r].cpu] == p
  {
    var cpu, t := records[r].cpu, TripleOf(records[r]);
    CpusOfHas(records, t, cpu);
    p :| ValidPath(s.nodes, p) && TripleAt(s.nodes, p) == t;
    InCoreIds(CoreAt(s.nodes, p), cpu);
    forall q | Holds(s.nodes, q, cpu)
      ensures q == p
    {
      InCoreIds(CoreAt(s.nodes, q), cpu);
      CpusOfHas(records, TripleAt(s.nodes, q), cpu);
      var i :| 0 <= i < |records| && records[i].cpu == cpu && TripleOf(records[i]) == TripleAt(s.nodes, q);
      assert i == r;
    }
    assert Holds(s.nodes, p, cpu);
    assert Holds(s.nodes, s.index[cpu], cpu);
  }

  /** No other number is in the tree or in the index. */
  lemma OnlyRecordedCpus(s: System, records: seq<Record>, cpu: int)
    requires Built(s) && Faithful(s.nodes, records)
    ensures cpu in s.index <==> exists i :: 0 <= i < |records| && records[i].cpu == cpu
  {
    if cpu in s.index {
      var p := s.index[cpu];
      assert Holds(s.nodes, p, cpu);
      InCoreIds(CoreAt(s.nodes, p), cpu);
      CpusOfHas(records, TripleAt(s.nodes, p), cpu);
    }
    if i :| 0 <= i < |records| && records[i].cpu == cpu {
      var t := TripleOf(records[i]);
      CpusOfHas(records, t, cpu);
      var p :| ValidPath(s.nodes, p) && TripleAt(s.nodes, p) == t;
      InCoreIds(CoreAt(s.nodes, p), cpu);
      assert Holds(s.nodes, p, cpu);
    }
  }

  // ---------------------------------------------------------------- counting

  function CoreTriples(node: int, complex: CoreComplex): seq<Triple> {
    var cores := complex.cores;
    seq(|cores|, (k: int) requires 0 <= k < |cores| => Triple(node, complex.id, cores[k].id))
  }

  function ComplexTriples(node: int, complexes: seq<CoreComplex>): seq<Triple> {
    if complexes == [] then []
    else
      var last := complexes[|complexes| - 1];
      ComplexTriples(node, complexes[..|complexes| - 1]) + CoreTriples(node, last)
  }

  /** The triples of the cores of the tree, in tree order. */
  function TreeTriples(nodes: seq<Node>): seq<Triple> {
    if nodes == [] then []
    else
      var last := nodes[|nodes| - 1];
      TreeTriples(nodes[..|nodes| - 1]) + ComplexTriples(last.id, last.complexes)
  }

  predicate DistinctPaths(paths: seq<Path>) {
    forall k, l :: 0 <= k < l < |paths| ==> paths[k] != paths[l]
  }

  /** Position by position, where each core of the flat list sits in the tree. */
  ghost predicate Located(nodes: seq<Node>, cores: seq<Core>, triples: seq<Triple>, paths: seq<Path>) {
    && |cores| == |triples| == |paths|
    && forall k :: 0 <= k < |cores| ==>
         && ValidPath(nodes, paths[k])
         && CoreAt(nodes, paths[k]) == cores[k] && TripleAt(nodes, paths[k]) == triples[k]
  }

  lemma LocatedBoth(nodes: seq<Node>, c: seq<Core>, t: seq<Triple>, p: seq<Path>,
                    d: seq<Core>, u: seq<Triple>, q: seq<Path>)
    requires Located(nodes, c, t, p) && Located(nodes, d, u, q)
    ensures Located(nodes, c + d, t + u, p + q)
  {
  }

  lemma DistinctBoth(p: seq<Path>, q: seq<Path>)
    requires DistinctPaths(p) && DistinctPaths(q)
    requires forall k, l :: 0 <= k < |p| && 0 <= l < |q| ==> p[k] != q[l]
    ensures DistinctPaths(p + q)
  {
  }

  lemma LocateCores(nodes: seq<Node>, i: nat, j: nat) returns (paths: seq<Path>, triples: seq<Triple>)
    requires i < |nodes| && j < |nodes[i].complexes|
    ensures triples == CoreTriples(nodes[i].id, nodes[i].complexes[j])
    ensures Located(nodes, nodes[i].complexes[j].cores, triples, paths)
    ensures forall k :: 0 <= k < |paths| ==> paths[k].node == i && paths[k].complex == j
    ensures DistinctPaths(paths)
    ensures forall p :: ValidPath(nodes, p) && p.node == i && p.complex == j ==> p in paths
  {
    var cores := nodes[i].complexes[j].cores;
    triples := CoreTriples(nodes[i].id, nodes[i].complexes[j]);
    paths := seq(|cores|, (k: int) requires 0 <= k < |cores| => Path(i, j, k));
    forall p | ValidPath(nodes, p) && p.node == i && p.complex == j
      ensures p in paths
    {
      assert paths[p.core] == p;
    }
  }

  lemma {:induction false} LocateComplexes(nodes: seq<Node>, i: nat, n: nat) returns (paths: seq<Path>)
    requires i < |nodes| && n <= |nodes[i].complexes|
    ensures var complexes := nodes[i].complexes[..n];
            Located(nodes, ComplexCores(complexes), ComplexTriples(nodes[i].id, complexes), paths)
    ensures forall k :: 0 <= k < |paths| ==> paths[k].node == i && paths[k].complex < n
    ensures DistinctPaths(paths)
    ensures forall p :: ValidPath(nodes, p) && p.node == i && p.complex < n ==> p in paths
  {
    if n == 0 {
      paths := [];
    } else {
      var id, complexes := nodes[i].id, nodes[i].complexes;
      var last := complexes[n - 1];
      assert complexes[..n][..n - 1] == complexes[..n - 1];
      var before := LocateComplexes(nodes, i, n - 1);
      var more, triples := LocateCores(nodes, i, n - 1);
      LocatedBoth(nodes, ComplexCores(complexes[..n - 1]), ComplexTriples(id, complexes[..n - 1]), before,
                  last.cores, triples, more);
      DistinctBoth(before, more);
      paths := before + more;
      forall p | ValidPath(nodes, p) && p.node == i && p.complex < n
        ensures p in paths
      {
        assert p in before || p in more;
      }
    }
  }

  lemma {:induction false} LocateNodes(nodes: seq<Node>, n: nat) returns (paths: seq<Path>)
    requires n <= |nodes|
    ensures Located(nodes, TreeCores(nodes[..n]), TreeTriples(nodes[..n]), paths)
    ensures forall k :: 0 <= k < |paths| ==> paths[k].node < n
    ensures DistinctPaths(paths)
    ensures forall p :: ValidPath(nodes, p) && p.node < n ==> p in paths
  {
    if n == 0 {
      paths := [];
    } else {
      var last := nodes[n - 1];
      assert nodes[..n][..n - 1] == nodes[..n - 1];
      var before := LocateNodes(nodes, n - 1);
      assert last.complexes[..|last.complexes|] == last.complexes;
      var more := LocateComplexes(nodes, n - 1, |last.complexes|);
      LocatedBoth(nodes, TreeCores(nodes[..n - 1]), TreeTriples(nodes[..n - 1]), before,
                  ComplexCores(last.complexes), ComplexTriples(last.id, last.complexes), more);
      DistinctBoth(before, more);
      paths := before + more;
      forall p | ValidPath(nodes, p) && p.node < n
        ensures p in paths
      {
        assert p in before || p in more;
      }
    }
  }

  function CountSum(triples: seq<Triple>, records: seq<Record>): nat {
    if triples == [] then 0
    else CountSum(triples[..|triples| - 1], records) + |CpusOf(records, triples[|triples| - 1])|
  }

  predicate DistinctTriples(triples: seq<Triple>) {
    forall k, l :: 0 <= k < l < |triples| ==> triples[k] != triples[l]
  }

  lemma {:induction false} CountSumStep(triples: seq<Triple>, records: seq<Record>)
    requires DistinctTriples(triples) && records != []
    ensures CountSum(triples, records) ==
            CountSum(triples, records[..|records| - 1]) + if TripleOf(records[|records| - 1]) in triples then 1 else 0
  {
    if triples != [] {
      var k := |triples| - 1;
      assert triples == triples[..k] + [triples[k]];
      CountSumStep(triples[..k], records);
    }
  }

  /** Distinct triples that cover all records count every record once. */
  lemma {:induction false} CountSumIsAll(triples: seq<Triple>, records: seq<Record>)
    requires DistinctTriples(triples)
    requires forall i :: 0 <= i < |records| ==> TripleOf(records[i]) in triples
    ensures CountSum(triples, records) == |records|
  {
    if records == [] {
      CountSumNone(triples);
    } else {
      CountSumStep(triples, records);
      CountSumIsAll(triples, records[..|records| - 1]);
    }
  }

  lemma {:induction false} CountSumNone(triples: seq<Triple>)
    ensures CountSum(triples, []) == 0
  {
    if triples != [] {
      CountSumNone(triples[..|triples| - 1]);
    }
  }

  lemma {:induction false} ThreadsAreCounts(nodes: seq<Node>, cores: seq<Core>, triples: seq<Triple>, paths: seq<Path>,
                                            records: seq<Record>)
    requires Faithful(nodes, records) && Located(nodes, cores, triples, paths)
    ensures Threads(cores) == CountSum(triples, records)
  {
    if cores != [] {
      var k := |cores| - 1;
      assert Located(nodes, cores[..k], triples[..k], paths[..k]);
      ThreadsAreCounts(nodes, cores[..k], triples[..k], paths[..k], records);
      assert Ids(CoreAt(nodes, paths[k])) == CpusOf(records, TripleAt(nodes, paths[k]));
    }
  }

  lemma {:induction false} ThreadsOfBoth(a: seq<Core>, b: seq<Core>)
    ensures Threads(a + b) == Threads(a) + Threads(b)
  {
    if b == [] {
      assert a + b == a;
    } else {
      var k := |b| - 1;
      assert (a + b)[..|a + b| - 1] == a + b[..k];
      ThreadsOfBoth(a, b[..k]);
    }
  }

  lemma {:induction false} ThreadsWithout(a: seq<Core>, i: nat)
    requires i < |a|
    ensures Threads(a) == Threads(a[..i] + a[i + 1..]) + |a[i].hyperthreads|
    ensures multiset(a) == multiset(a[..i] + a[i + 1..]) + multiset{a[i]}
  {
    var front, one, back := a[..i], [a[i]], a[i + 1..];
    assert a == front + one + back;
    ThreadsOfBoth(front + one, back);
    ThreadsOfBoth(front, one);
    ThreadsOfBoth(front, back);
    assert one[..0] == [];
  }

  lemma FindCore(a: seq<Core>, c: Core) returns (i: nat)
    requires c in multiset(a)
    ensures i < |a| && a[i] == c
  {
    assert c in a;
    i :| i < |a| && a[i] == c;
  }

  lemma Cancel<T>(x: multiset<T>, y: multiset<T>, one: multiset<T>)
    requires x + one == y + one
    ensures x == y
  {
    assert x == (x + one) - one;
    assert y == (y + one) - one;
  }

  lemma {:induction false} ThreadsPermuted(a: seq<Core>, b: seq<Core>)
    requires multiset(a) == multiset(b)
    ensures Threads(a) == Threads(b)
    decreases |a|
  {
    if a == [] {
      assert |multiset(b)| == 0;
    } else {
      var i := FindCore(b, a[0]);
      ThreadsWithout(a, 0);
      ThreadsWithout(b, i);
      var lessA, lessB := a[..0] + a[1..], b[..i] + b[i + 1..];
      Cancel(multiset(lessA), multiset(lessB), multiset{a[0]});
      ThreadsPermuted(lessA, lessB);
    }
  }

  lemma TriplesDistinct(nodes: seq<Node>, records: seq<Record>, cores: seq<Core>, triples: seq<Triple>,
                        paths: seq<Path>)
    requires Faithful(nodes, records) && Located(nodes, cores, triples, paths) && DistinctPaths(paths)
    ensures DistinctTriples(triples)
  {
    forall k, l | 0 <= k < l < |triples|
      ensures triples[k] != triples[l]
    {
      assert paths[k] != paths[l];
      assert TripleAt(nodes, paths[k]) == triples[k] && TripleAt(nodes, paths[l]) == triples[l];
    }
  }

  lemma TriplesCover(nodes: seq<Node>, records: seq<Record>, cores: seq<Core>, triples: seq<Triple>, paths: seq<Path>,
                     i: nat)
    requires Faithful(nodes, records) && Located(nodes, cores, triples, paths)
    requires forall p :: ValidPath(nodes, p) ==> p in paths
    requires i < |records|
    ensures TripleOf(records[i]) in triples
  {
    CpusOfHas(records, TripleOf(records[i]), records[i].cpu);
    var p :| ValidPath(nodes, p) && TripleAt(nodes, p) == TripleOf(records[i]);
    var k :| 0 <= k < |paths| && paths[k] == p;
    assert triples[k] == TripleOf(records[i]);
  }

  /** `logical_cpus` is the number of records. */
  lemma LogicalCpusIsRecords(s: System, records: seq<Record>)
    requires Built(s) && Faithful(s.nodes, records)
    ensures Threads(s.allCores) == |records|
  {
    var nodes := s.nodes;
    assert nodes[..|nodes|] == nodes;
    var paths := LocateNodes(nodes, |nodes|);
    var cores, triples := TreeCores(nodes), TreeTriples(nodes);
    TriplesDistinct(nodes, records, cores, triples, paths);
    forall i | 0 <= i < |records|
      ensures TripleOf(records[i]) in triples
    {
      TriplesCover(nodes, records, cores, triples, paths, i);
    }
    ThreadsPermuted(s.allCores, cores);
    ThreadsAreCounts(nodes, cores, triples, paths, records);
    CountSumIsAll(triples, records);
  }
}
