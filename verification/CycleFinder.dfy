/** `_find_cycles` and the decision in `main`, in the imperative form of the script. */
module CycleFinder {
  import opened ModuleNames
  import opened ImportCycles

  class Finder {
    const edges: Graph
    var cycles: seq<seq<Name>>
    var visited: set<Name>
    var stack: seq<Name>
    var onStack: set<Name>

    constructor (edges: Graph)
      ensures this.edges == edges && State() == START
    {
      this.edges := edges;
      cycles, visited, stack, onStack := [], {}, [], {};
    }

    ghost function State(): Search
      reads this
    {
      Search(cycles, visited, stack, onStack)
    }

    method Dfs(node: Name)
      requires Valid(edges, State()) && node in AllModules(edges) && node !in visited
      requires stack != [] ==> Edge(edges, stack[|stack| - 1], node)
      modifies this
      ensures State() == SearchFrom(edges, old(State()), node)
      decreases AllModules(edges) - visited, 0
    {
      hide IsPath, IsCycle, AllModules, ScanImports;
      EnterKeepsValid(edges, State(), node);
      visited := visited + {node};
      onStack := onStack + {node};
      stack := stack + [node];
      Scan(SortedNames(Imports(edges, node)));
      stack := stack[..|stack| - 1];
      onStack := onStack - {node};
    }

    /** The loop over sorted neighbours. */
    method Scan(neighbors: seq<Name>)
      requires Valid(edges, State()) && stack != []
      requires forall v :: v in neighbors ==> Edge(edges, stack[|stack| - 1], v)
      modifies this
      ensures State() == ScanImports(edges, old(State()), neighbors)
      decreases AllModules(edges) - visited, 2
    {
      hide IsPath, IsCycle, AllModules, Step, Valid;
      ghost var start := State();
      for i := 0 to |neighbors|
        invariant Valid(edges, State()) && Extends(start, State()) && stack == start.stack
        invariant forall v :: v in neighbors[i..] ==> v in neighbors
        invariant ScanImports(edges, State(), neighbors[i..]) == ScanImports(edges, start, neighbors)
      {
        assert neighbors[i..][0] == neighbors[i] && neighbors[i..][1..] == neighbors[i + 1..];
        assert neighbors[i] in neighbors;
        Visit(neighbors[i]);
      }
    }

    /** The body of that loop: descend, report a cycle, or pass by. */
    method Visit(neighbor: Name)
      requires Valid(edges, State()) && stack != [] && Edge(edges, stack[|stack| - 1], neighbor)
      modifies this
      ensures State() == Step(edges, old(State()), neighbor)
      decreases AllModules(edges) - visited, 1
    {
      hide IsPath, IsCycle, AllModules, SearchFrom;
      ImportedIsModule(edges, stack[|stack| - 1], neighbor);
      if neighbor !in visited {
        Dfs(neighbor);
      } else if neighbor in onStack {
        ReportKeepsValid(edges, State(), neighbor);
        var idx := IndexOf(stack, neighbor);
        var cycle := stack[idx..] + [neighbor];
        cycles := cycles + [cycle];
      }
    }
  }

  method FindCyclesByDfs(edges: Graph) returns (cycles: seq<seq<Name>>)
    ensures cycles == FindCycles(edges)
  {
    var finder := new Finder(edges);
    var roots := SortedNames(edges.Keys);
    for i := 0 to |roots|
      invariant finder.edges == edges && fresh(finder)
      invariant Valid(edges, finder.State()) && finder.stack == []
      invariant SearchRoots(edges, finder.State(), roots[i..]) == SearchRoots(edges, START, roots)
    {
      assert roots[i..][0] == roots[i] && roots[i..][1..] == roots[i + 1..];
      assert roots[i] in roots;
      if roots[i] !in finder.visited {
        finder.Dfs(roots[i]);
      }
    }
    cycles := finder.cycles;
  }

  // ----- the whitelist decision

  const KNOWN_MITIGATED_CYCLES: set<set<Name>> := {
    {"engine.domain.config", "engine.domain.strategy_catalog"},
    {"engine.domain.config", "engine.domain.contracts"},
    {"engine.domain.schemas", "engine.contract"},
    {"bot.runtime.health_manager", "bot.diagnostics.runtime_ops"}
  }

  function NormalizeCycle(cycle: seq<Name>): set<Name> {
    var nodes := if |cycle| > 1 && cycle[0] == cycle[|cycle| - 1] then cycle[..|cycle| - 1] else cycle;
    set n | n in nodes
  }

  predicate Mitigated(norm: set<Name>, known: set<set<Name>>) {
    norm in known || exists k :: k in known && norm <= k
  }

  predicate CheckPasses(edges: Graph, known: set<set<Name>>) {
    forall c :: c in FindCycles(edges) ==> Mitigated(NormalizeCycle(c), known)
  }

  method RunCheck(edges: Graph, known: set<set<Name>>) returns (code: int)
    ensures code == if CheckPasses(edges, known) then 0 else 1
  {
    hide FindCycles, NormalizeCycle, Mitigated;
    var rawCycles := FindCyclesByDfs(edges);
    var novel: seq<seq<Name>>, seenNorm: set<set<Name>> := [], {};
    for i := 0 to |rawCycles|
      invariant forall j :: 0 <= j < i ==> NormalizeCycle(rawCycles[j]) in seenNorm
      invariant novel == [] <==> forall norm :: norm in seenNorm ==> Mitigated(norm, known)
      invariant forall norm :: norm in seenNorm ==> exists j :: 0 <= j < i && NormalizeCycle(rawCycles[j]) == norm
    {
      var norm := NormalizeCycle(rawCycles[i]);
      if norm in seenNorm {
        continue;
      }
      seenNorm := seenNorm + {norm};
      if Mitigated(norm, known) {
        continue;
      }
      novel := novel + [rawCycles[i]];
    }
    code := if novel == [] then 0 else 1;
  }

  /** When the check passes, every import cycle has an import inside one whitelisted set. */
  lemma PassingMeansMitigated(edges: Graph, known: set<set<Name>>, w: seq<Name>)
    requires CheckPasses(edges, known) && IsClosedWalk(edges, w)
    ensures exists i, k :: 0 <= i < |w| - 1 && k in known && w[i] in k && w[i + 1] in k
  {
    hide FindCycles, IsClosedWalk, IsPath;
    EveryCycleIsClosed(edges, w);
    var i :| 0 <= i < |w| - 1 && IsClosing(FindCycles(edges), w[i], w[i + 1]);
    var c :| c in FindCycles(edges) && |c| >= 2 && c[|c| - 2] == w[i] && c[|c| - 1] == w[i + 1];
    assert c[..|c| - 1][0] == c[0] && c[..|c| - 1][|c| - 2] == c[|c| - 2];
    assert w[i] in NormalizeCycle(c) && w[i + 1] in NormalizeCycle(c);
    var k :| k in known && NormalizeCycle(c) <= k;
  }

  // ----- "new cycles fail the check": when it is true

  /** A cycle that lies inside no whitelisted set. */
  ghost predicate IsNewCycle(edges: Graph, known: set<set<Name>>, c: seq<Name>) {
    IsCycle(edges, c) && !Mitigated(NormalizeCycle(c), known)
  }

  ghost predicate CatchesNewCycles(edges: Graph, known: set<set<Name>>) {
    CheckPasses(edges, known) ==> forall c :: !IsNewCycle(edges, known, c)
  }

  ghost predicate SetsAreSingletons(known: set<set<Name>>) {
    forall k :: k in known ==> AtMostOne(k)
  }

  ghost predicate AtMostOne(k: set<Name>) {
    forall a, b :: a in k && b in k ==> a == b
  }

  /** The check catches every new cycle of every graph exactly when no whitelisted set has two modules. */
  lemma NewCyclesFailIffSingletons(known: set<set<Name>>)
    ensures (forall edges :: CatchesNewCycles(edges, known)) <==> SetsAreSingletons(known)
  {
    if SetsAreSingletons(known) {
      forall edges ensures CatchesNewCycles(edges, known) {
        if CheckPasses(edges, known) {
          forall c | IsCycle(edges, c) ensures Mitigated(NormalizeCycle(c), known) {
            SingletonsCatch(edges, known, c);
          }
        }
      }
    } else {
      var k :| k in known && !AtMostOne(k);
      var a, b :| a in k && b in k && a != b;
      LessIsTotal(a, b);
      var x, y := if Less(a, b) then a else b, if Less(a, b) then b else a;
      var edges, c := MissedCycle(known, k, x, y);
      assert !CatchesNewCycles(edges, known);
    }
  }

  /** On a graph none of whose cycles lies inside a whitelisted set, the check is the test for a cycle. */
  lemma PassesIffAcyclic(edges: Graph, known: set<set<Name>>)
    requires forall c :: IsCycle(edges, c) ==> IsNewCycle(edges, known, c)
    ensures CheckPasses(edges, known) <==> Acyclic(edges)
  {
    hide IsNewCycle, Acyclic, IsCycle;
    NothingReportedIffAcyclic(edges);
    if FindCycles(edges) != [] {
      var c := FindCycles(edges)[0];
      assert c in FindCycles(edges) && IsNewCycle(edges, known, c);
      NewIsNotMitigated(edges, known, c);
    }
  }

  lemma NewIsNotMitigated(edges: Graph, known: set<set<Name>>, c: seq<Name>)
    requires IsNewCycle(edges, known, c)
    ensures !Mitigated(NormalizeCycle(c), known)
  {
  }

  lemma SingletonsCatch(edges: Graph, known: set<set<Name>>, c: seq<Name>)
    requires SetsAreSingletons(known) && CheckPasses(edges, known) && IsCycle(edges, c)
    ensures Mitigated(NormalizeCycle(c), known)
  {
    hide CheckPasses, FindCycles, IsClosedWalk, AllModules;
    CycleIsClosedWalk(edges, c);
    PassingMeansMitigated(edges, known, c);
    var i, k :| 0 <= i < |c| - 1 && k in known && c[i] in k && c[i + 1] in k;
    assert AtMostOne(k);
    var p := c[..|c| - 1];
    assert p[i] == c[i] && p[0] == c[0];
    if i + 1 < |p| {
      assert false;
    } else {
      assert p == [c[0]];
      assert NormalizeCycle(c) <= k;
    }
  }

  /** Three modules x -> {y, z}, y -> x, z -> y with x, y whitelisted: the cycle through z goes unreported. */
  lemma MissedCycle(known: set<set<Name>>, k: set<Name>, x: Name, y: Name) returns (edges: Graph, c: seq<Name>)
    requires k in known && x in k && y in k && Less(x, y)
    ensures CheckPasses(edges, known) && IsNewCycle(edges, known, c)
    ensures forall n :: n !in Imports(edges, n)
  {
    hide Less, CheckPasses, IsNewCycle, FindCycles;
    var z := FreshNameOutside(y, known);
    LessIsTransitive(x, y, z);
    LessIsAsymmetric(x, y); LessIsAsymmetric(y, z); LessIsAsymmetric(x, z);
    edges := map[x := {y, z}, y := {x}, z := {y}];
    c := [x, z, y, x];
    TriangleIsNew(known, edges, x, y, z);
    IsTriangle(edges, x, y, z);
    MissedCycleSearch(edges, x, y, z);
    PairPasses(known, k, edges, x, y);
    NoSelfImport(edges, x, y, z);
  }

  lemma NoSelfImport(g: Graph, x: Name, y: Name, z: Name)
    requires x != y && y != z && x != z && g == map[x := {y, z}, y := {x}, z := {y}]
    ensures forall n :: n !in Imports(g, n)
  {
  }

  lemma PairPasses(known: set<set<Name>>, k: set<Name>, g: Graph, x: Name, y: Name)
    requires k in known && x in k && y in k && FindCycles(g) == [[x, y, x]]
    ensures CheckPasses(g, known)
  {
    hide FindCycles;
    assert [x, y, x][..2] == [x, y];
    assert NormalizeCycle([x, y, x]) <= k;
  }

  lemma TriangleIsNew(known: set<set<Name>>, g: Graph, x: Name, y: Name, z: Name)
    requires x != y && y != z && x != z && g == map[x := {y, z}, y := {x}, z := {y}]
    requires forall s :: s in known ==> z !in s
    ensures IsNewCycle(g, known, [x, z, y, x])
  {
    var c := [x, z, y, x];
    assert c[..3] == [x, z, y];
    assert IsCycle(g, c);
    assert z in NormalizeCycle(c);
  }

  lemma SortsAs(x: Name, y: Name, z: Name)
    requires Less(x, y) && Less(y, z) && Less(x, z) && x != y && y != z && x != z
    ensures SortedNames({x, y, z}) == [x, y, z] && SortedNames({y, z}) == [y, z]
  {
    SortedNamesIsUnique({x, y, z}, [x, y, z]);
    SortedNamesIsUnique({y, z}, [y, z]);
  }

  lemma ScanTwo(g: Graph, s: Search, u: Name, v: Name)
    requires Valid(g, s) && s.stack != []
    requires Edge(g, s.stack[|s.stack| - 1], u) && Edge(g, s.stack[|s.stack| - 1], v)
    ensures ScanImports(g, s, [u, v]) == Step(g, Step(g, s, u), v)
  {
    var one, two := [v], [u, v];
    assert two[1..] == one && one[1..] == [];
    assert ScanImports(g, Step(g, s, u), one) == Step(g, Step(g, s, u), v);
  }

  /** Three modules x -> {y, z}, y -> x, z -> y. */
  ghost predicate Triangle(g: Graph, x: Name, y: Name, z: Name) {
    && x != y && y != z && x != z && AllModules(g) == {x, y, z} == g.Keys
    && Imports(g, x) == {y, z} && Imports(g, y) == {x} && Imports(g, z) == {y}
  }

  lemma IsTriangle(g: Graph, x: Name, y: Name, z: Name)
    requires x != y && y != z && x != z && g == map[x := {y, z}, y := {x}, z := {y}]
    ensures Triangle(g, x, y, z)
  {
    assert g.Keys == {x, y, z};
    assert forall n, m :: n in g && m in g[n] ==> m in {x, y, z};
  }

  lemma MissedCycleSearch(g: Graph, x: Name, y: Name, z: Name)
    requires Less(x, y) && Less(y, z) && Less(x, z) && Triangle(g, x, y, z)
    ensures FindCycles(g) == [[x, y, x]]
  {
    hide Less, AllModules, IsPath, IsCycle, SearchFrom, SortedNames, Imports;
    SortsAs(x, y, z);
    var afterX := SearchX(g, x, y, z);
    RootsVisited(g, afterX, [y, z]);
    assert [x, y, z][1..] == [y, z];
    assert SearchRoots(g, START, [x, y, z]) == SearchRoots(g, afterX, [y, z]);
  }

  lemma {:induction false} RootsVisited(g: Graph, s: Search, roots: seq<Name>)
    requires Valid(g, s) && s.stack == [] && (forall x :: x in roots ==> x in s.visited)
    ensures SearchRoots(g, s, roots) == s
    decreases |roots|
  {
    if roots == [] {
    } else {
      assert roots[0] in roots && forall x :: x in roots[1..] ==> x in roots;
      RootsVisited(g, s, roots[1..]);
    }
  }

  lemma SearchX(g: Graph, x: Name, y: Name, z: Name) returns (r: Search)
    requires Less(x, y) && Less(y, z) && Less(x, z) && Triangle(g, x, y, z)
    ensures x in AllModules(g)
    ensures r == SearchFrom(g, START, x) == Search([[x, y, x]], {x, y, z}, [], {})
  {
    hide Less, AllModules, Imports, IsPath, IsCycle, SortedNames, Step, ScanImports, SearchFrom;
    SortsAs(x, y, z);
    EnterKeepsValid(g, START, x);
    var atX := Enter(START, x);
    var afterY := SearchY(g, x, y, z);
    var afterZ := SearchZ(g, x, y, z);
    assert ScanImports(g, atX, [y, z]) == afterZ by {
      ScanTwo(g, atX, y, z);
    }
    SearchIs(g, START, x, afterZ);
    r := Leave(afterZ, x);
    assert r.stack == [] && r.onStack == {};
  }

  lemma SearchIs(g: Graph, s: Search, node: Name, after: Search)
    requires Valid(g, s) && node in AllModules(g) && node !in s.visited
    requires s.stack != [] ==> Edge(g, s.stack[|s.stack| - 1], node)
    requires Valid(g, Enter(s, node)) && ScanImports(g, Enter(s, node), SortedNames(Imports(g, node))) == after
    ensures SearchFrom(g, s, node) == Leave(after, node)
  {
  }

  lemma ScanOne(g: Graph, s: Search, v: Name)
    requires Valid(g, s) && s.stack != [] && Edge(g, s.stack[|s.stack| - 1], v)
    ensures ScanImports(g, s, [v]) == Step(g, s, v)
  {
    var one := [v];
    assert one[1..] == [];
    assert ScanImports(g, Step(g, s, v), []) == Step(g, s, v);
  }

  lemma ReportPair(x: Name, y: Name)
    ensures Report(Search([], {x, y}, [x, y], {x, y}), x) == Search([[x, y, x]], {x, y}, [x, y], {x, y})
  {
    assert IndexOf([x, y], x) == 0 && [x, y][0..] + [x] == [x, y, x];
  }

  lemma SearchY(g: Graph, x: Name, y: Name, z: Name) returns (r: Search)
    requires Triangle(g, x, y, z)
    ensures Valid(g, Enter(START, x)) && Edge(g, x, y)
    ensures r == Step(g, Enter(START, x), y) == Search([[x, y, x]], {x, y}, [x], {x})
  {
    hide Less, AllModules, Imports, IsPath, IsCycle, SortedNames, ScanImports, SearchFrom, Report;
    var atX := Enter(START, x);
    EnterKeepsValid(g, START, x);
    EnterKeepsValid(g, atX, y);
    var atY := Enter(atX, y);
    assert atY.stack == [x, y];
    SortedNamesIsUnique({x}, [x]);
    ScanOne(g, atY, x);
    var reported := Search([[x, y, x]], {x, y}, [x, y], {x, y});
    assert atY == Search([], {x, y}, [x, y], {x, y});
    ReportPair(x, y);
    SearchIs(g, atX, y, reported);
    r := Leave(reported, y);
    assert [x, y][..1] == [x];
    assert {x, y} - {y} == {x};
  }

  lemma SearchZ(g: Graph, x: Name, y: Name, z: Name) returns (r: Search)
    requires Triangle(g, x, y, z)
    ensures Valid(g, Search([[x, y, x]], {x, y}, [x], {x})) && Edge(g, x, z)
    ensures r == Step(g, Search([[x, y, x]], {x, y}, [x], {x}), z) == Search([[x, y, x]], {x, y, z}, [x], {x})
  {
    hide Less, AllModules, Imports, IsPath, IsCycle, SortedNames, ScanImports, SearchFrom;
    var s := SearchY(g, x, y, z);
    EnterKeepsValid(g, s, z);
    var atZ := Enter(s, z);
    assert atZ.stack == [x, z];
    SortedNamesIsUnique({y}, [y]);
    ScanOne(g, atZ, y);
    SearchIs(g, s, z, atZ);
    r := Leave(atZ, z);
    assert [x, z][..1] == [x];
    assert r.onStack == {x} && r.visited == {x, y, z};
  }

  lemma FreshNameOutside(y: Name, known: set<set<Name>>) returns (z: Name)
    ensures Less(y, z) && forall k :: k in known ==> z !in k
  {
    hide Less;
    var used := set n, k | k in known && n in k :: n;
    z := FreshNameAfter(y, used);
  }

  lemma FreshNameAfter(y: Name, used: set<Name>) returns (z: Name)
    ensures Less(y, z) && z !in used
  {
    var bound := LongestName(used);
    var suffix := seq(bound + 1, i => 'z');
    ExtensionIsGreater(y, suffix);
    z := y + suffix;
  }

  lemma {:induction false} LongestName(used: set<Name>) returns (bound: nat)
    ensures forall n :: n in used ==> |n| <= bound
    decreases used
  {
    if used == {} {
      bound := 0;
    } else {
      var n :| n in used;
      var rest := LongestName(used - {n});
      bound := if |n| > rest then |n| else rest;
      assert forall m :: m in used ==> m == n || m in used - {n};
    }
  }

  /** The whitelist as shipped: some graph passes the check although it has a new cycle. */
  lemma ShippedWhitelistMissesNewCycles()
    ensures exists edges :: !CatchesNewCycles(edges, KNOWN_MITIGATED_CYCLES)
  {
    var k := {"engine.domain.schemas", "engine.contract"};
    assert k in KNOWN_MITIGATED_CYCLES;
    assert "engine.domain.schemas" in k && "engine.contract" in k;
    assert "engine.domain.schemas"[7] != "engine.contract"[7];
    NewCyclesFailIffSingletons(KNOWN_MITIGATED_CYCLES);
  }
}
