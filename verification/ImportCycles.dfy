/**
 * The import-cycle check (scripts/check_circular_imports.py): a depth-first
 * search over the import graph that reports one list per edge back into the
 * current path, and a decision that ignores lists inside whitelisted sets.
 *
 * `SearchFrom` and `ScanImports` are the nested `dfs` and its loop over sorted
 * neighbours as functions of the four closure variables; class `Finder` of
 * module `CycleFinder` updates those variables in place and is proved to compute the same.
 */
module ImportCycles {
  import opened ModuleNames

  type Graph = map<Name, set<Name>>

  function Imports(g: Graph, n: Name): set<Name> {
    if n in g then g[n] else {}
  }

  predicate Edge(g: Graph, a: Name, b: Name) {
    b in Imports(g, a)
  }

  function AllModules(g: Graph): set<Name> {
    g.Keys + set n, m | n in g && m in g[n] :: m
  }

  lemma ImportedIsModule(g: Graph, a: Name, b: Name)
    requires Edge(g, a, b)
    ensures a in AllModules(g) && b in AllModules(g)
  {
  }

  // ----- the search, as a function of its state

  datatype Search = Search(
    cycles: seq<seq<Name>>,
    visited: set<Name>,
    stack: seq<Name>,
    onStack: set<Name>)

  predicate IsPath(g: Graph, p: seq<Name>) {
    && (forall i, j :: 0 <= i < j < |p| ==> p[i] != p[j])
    && (forall i :: 0 <= i < |p| - 1 ==> Edge(g, p[i], p[i + 1]))
  }

  /** A closed list of imports with no repetition but its end points. */
  predicate IsCycle(g: Graph, c: seq<Name>) {
    |c| >= 2 && c[0] == c[|c| - 1] && IsPath(g, c[..|c| - 1]) && Edge(g, c[|c| - 2], c[|c| - 1])
  }

  ghost predicate Valid(g: Graph, s: Search) {
    && IsPath(g, s.stack)
    && (forall x :: x in s.stack <==> x in s.onStack)
    && s.onStack <= s.visited <= AllModules(g)
    && (forall c :: c in s.cycles ==> IsCycle(g, c))
  }

  /** What one call may change: `visited` and `cycles` grow, the path is given back as it was. */
  ghost predicate Extends(s: Search, r: Search) {
    r.stack == s.stack && r.onStack == s.onStack && s.visited <= r.visited && s.cycles <= r.cycles
  }

  function IndexOf(p: seq<Name>, x: Name): (i: nat)
    requires x in p
    ensures i < |p| && p[i] == x
  {
    if p[0] == x then 0 else 1 + IndexOf(p[1..], x)
  }

  function Enter(s: Search, node: Name): Search {
    Search(s.cycles, s.visited + {node}, s.stack + [node], s.onStack + {node})
  }

  function Leave(s: Search, node: Name): Search
    requires s.stack != []
  {
    Search(s.cycles, s.visited, s.stack[..|s.stack| - 1], s.onStack - {node})
  }

  function Report(s: Search, neighbor: Name): Search
    requires neighbor in s.stack
  {
    s.(cycles := s.cycles + [s.stack[IndexOf(s.stack, neighbor)..] + [neighbor]])
  }

  function SearchFrom(g: Graph, s: Search, node: Name): (r: Search)
    requires Valid(g, s) && node in AllModules(g) && node !in s.visited
    requires s.stack != [] ==> Edge(g, s.stack[|s.stack| - 1], node)
    ensures Valid(g, r) && Extends(s, r) && node in r.visited
    decreases AllModules(g) - s.visited, 0
  {
    EnterKeepsValid(g, s, node);
    var r := ScanImports(g, Enter(s, node), SortedNames(Imports(g, node)));
    assert r.stack[..|r.stack| - 1] == s.stack;
    assert r.onStack - {node} == s.onStack;
    Leave(r, node)
  }

  function ScanImports(g: Graph, s: Search, rest: seq<Name>): (r: Search)
    requires Valid(g, s) && s.stack != []
    requires forall v :: v in rest ==> Edge(g, s.stack[|s.stack| - 1], v)
    ensures Valid(g, r) && Extends(s, r)
    ensures forall v :: v in rest ==> v in r.visited
    decreases AllModules(g) - s.visited, |rest| + 1
  {
    if rest == [] then
      s
    else
      assert rest[0] in rest && forall v :: v in rest[1..] ==> v in rest;
      var s' := Step(g, s, rest[0]);
      ScanImports(g, s', rest[1..])
  }

  /** One turn of the loop over neighbours. */
  function Step(g: Graph, s: Search, v: Name): (r: Search)
    requires Valid(g, s) && s.stack != [] && Edge(g, s.stack[|s.stack| - 1], v)
    ensures Valid(g, r) && Extends(s, r) && v in r.visited
    decreases AllModules(g) - s.visited, 1
  {
    if v !in s.visited then
      SearchFrom(g, s, v)
    else if v in s.onStack then
      ReportKeepsValid(g, s, v);
      Report(s, v)
    else
      s
  }

  lemma EnterKeepsValid(g: Graph, s: Search, node: Name)
    requires Valid(g, s) && node in AllModules(g) && node !in s.visited
    requires s.stack != [] ==> Edge(g, s.stack[|s.stack| - 1], node)
    ensures Valid(g, Enter(s, node))
  {
    var p := Enter(s, node).stack;
    forall i, j | 0 <= i < j < |p| ensures p[i] != p[j] {
      if j == |s.stack| {
        assert s.stack[i] in s.stack;
      }
    }
  }

  lemma ReportKeepsValid(g: Graph, s: Search, v: Name)
    requires Valid(g, s) && s.stack != [] && Edge(g, s.stack[|s.stack| - 1], v) && v in s.onStack
    ensures Valid(g, Report(s, v))
  {
    var c := s.stack[IndexOf(s.stack, v)..] + [v];
    assert c[..|c| - 1] == s.stack[IndexOf(s.stack, v)..];
    assert IsCycle(g, c);
  }

  /** The outer loop over the modules that import something. */
  function SearchRoots(g: Graph, s: Search, roots: seq<Name>): (r: Search)
    requires Valid(g, s) && s.stack == [] && (forall x :: x in roots ==> x in AllModules(g))
    ensures Valid(g, r) && Extends(s, r)
    ensures forall x :: x in roots ==> x in r.visited
    decreases |roots|
  {
    if roots == [] then
      s
    else
      assert roots[0] in roots;
      SearchRoots(g, if roots[0] !in s.visited then SearchFrom(g, s, roots[0]) else s, roots[1..])
  }

  const START := Search([], {}, [], {})

  function FindCycles(g: Graph): (cycles: seq<seq<Name>>)
    ensures forall c :: c in cycles ==> IsCycle(g, c)
  {
    SearchRoots(g, START, SortedNames(g.Keys)).cycles
  }

  // ----- every cycle is closed by a reported edge: the finish order

  ghost predicate IsClosing(cycles: seq<seq<Name>>, a: Name, b: Name) {
    exists c :: c in cycles && |c| >= 2 && c[|c| - 2] == a && c[|c| - 1] == b
  }

  /** Imports of a finished module were finished before it, or close a reported list. */
  ghost predicate FinishOrder(g: Graph, cycles: seq<seq<Name>>, order: seq<Name>) {
    forall i, v :: 0 <= i < |order| && Edge(g, order[i], v) ==>
      v in order[..i] || IsClosing(cycles, order[i], v)
  }

  /** The visited modules are those on the path and those already finished. */
  ghost predicate Finished(g: Graph, s: Search, order: seq<Name>) {
    && (forall x :: x in s.visited <==> x in s.onStack || x in order)
    && FinishOrder(g, s.cycles, order)
  }

  lemma FinishOrderGrows(g: Graph, cycles: seq<seq<Name>>, more: seq<seq<Name>>, order: seq<Name>)
    requires FinishOrder(g, cycles, order) && cycles <= more
    ensures FinishOrder(g, more, order)
  {
    forall i, v | 0 <= i < |order| && Edge(g, order[i], v) && v !in order[..i]
      ensures IsClosing(more, order[i], v)
    {
      ClosingGrows(cycles, more, order[i], v);
    }
  }

  lemma ClosingGrows(cycles: seq<seq<Name>>, more: seq<seq<Name>>, a: Name, b: Name)
    requires cycles <= more && IsClosing(cycles, a, b)
    ensures IsClosing(more, a, b)
  {
    var c :| c in cycles && |c| >= 2 && c[|c| - 2] == a && c[|c| - 1] == b;
    assert c in more;
  }

  lemma {:induction false} SearchFinishes(g: Graph, s: Search, node: Name, order: seq<Name>)
    returns (order': seq<Name>)
    requires Valid(g, s) && node in AllModules(g) && node !in s.visited
    requires s.stack != [] ==> Edge(g, s.stack[|s.stack| - 1], node)
    requires Finished(g, s, order)
    ensures Finished(g, SearchFrom(g, s, node), order') && order <= order'
    decreases AllModules(g) - s.visited, 0
  {
    EnterKeepsValid(g, s, node);
    var s1, ns := Enter(s, node), SortedNames(Imports(g, node));
    var before := ScanFinishes(g, s1, ns, order);
    var r := ScanImports(g, s1, ns);
    order' := before + [node];
    forall i, v | 0 <= i < |order'| && Edge(g, order'[i], v)
      ensures v in order'[..i] || IsClosing(r.cycles, order'[i], v)
    {
      assert order'[..i] == before[..i];
      if i == |before| {
        assert before[..i] == before && v in ns;
      }
    }
  }

  lemma {:induction false} ScanFinishes(g: Graph, s: Search, rest: seq<Name>, order: seq<Name>)
    returns (order': seq<Name>)
    requires Valid(g, s) && s.stack != []
    requires forall v :: v in rest ==> Edge(g, s.stack[|s.stack| - 1], v)
    requires Finished(g, s, order)
    ensures order <= order' && Finished(g, ScanImports(g, s, rest), order')
    ensures forall v :: v in rest ==>
      v in order' || IsClosing(ScanImports(g, s, rest).cycles, s.stack[|s.stack| - 1], v)
    decreases AllModules(g) - s.visited, |rest| + 1
  {
    if rest == [] {
      order' := order;
    } else {
      assert rest[0] in rest && forall w :: w in rest[1..] ==> w in rest;
      var node, s' := s.stack[|s.stack| - 1], Step(g, s, rest[0]);
      var between := StepFinishes(g, s, rest[0], order);
      order' := ScanFinishes(g, s', rest[1..], between);
      if IsClosing(s'.cycles, node, rest[0]) {
        ClosingGrows(s'.cycles, ScanImports(g, s', rest[1..]).cycles, node, rest[0]);
      }
    }
  }

  lemma StepFinishes(g: Graph, s: Search, v: Name, order: seq<Name>) returns (order': seq<Name>)
    requires Valid(g, s) && s.stack != [] && Edge(g, s.stack[|s.stack| - 1], v)
    requires Finished(g, s, order)
    ensures order <= order' && Finished(g, Step(g, s, v), order')
    ensures v in order' || IsClosing(Step(g, s, v).cycles, s.stack[|s.stack| - 1], v)
    decreases AllModules(g) - s.visited, 1
  {
    order' := order;
    if v !in s.visited {
      order' := SearchFinishes(g, s, v, order);
    } else if v in s.onStack {
      var r := Report(s, v);
      FinishOrderGrows(g, s.cycles, r.cycles, order);
      var c := r.cycles[|r.cycles| - 1];
      assert c in r.cycles && c[|c| - 2] == s.stack[|s.stack| - 1] && c[|c| - 1] == v;
    }
  }

  lemma {:induction false} RootsFinish(g: Graph, s: Search, roots: seq<Name>, order: seq<Name>)
    returns (order': seq<Name>)
    requires Valid(g, s) && s.stack == [] && (forall x :: x in roots ==> x in AllModules(g))
    requires Finished(g, s, order)
    ensures Finished(g, SearchRoots(g, s, roots), order')
    decreases |roots|
  {
    if roots == [] {
      order' := order;
    } else {
      assert roots[0] in roots && forall x :: x in roots[1..] ==> x in roots;
      if roots[0] !in s.visited {
        var between := SearchFinishes(g, s, roots[0], order);
        order' := RootsFinish(g, SearchFrom(g, s, roots[0]), roots[1..], between);
      } else {
        order' := RootsFinish(g, s, roots[1..], order);
      }
    }
  }

  /** A walk along imports that returns to where it started. */
  ghost predicate IsClosedWalk(g: Graph, w: seq<Name>) {
    |w| >= 2 && w[0] == w[|w| - 1] && forall i :: 0 <= i < |w| - 1 ==> Edge(g, w[i], w[i + 1])
  }

  ghost predicate Acyclic(g: Graph) {
    forall w :: !IsClosedWalk(g, w)
  }

  /** The graph without the closing edges of the reported lists. */
  ghost function Pruned(g: Graph, cycles: seq<seq<Name>>): Graph {
    map n | n in g :: set v | v in g[n] && !IsClosing(cycles, n, v)
  }

  /** Following edges that close nothing, the finish order only goes down. */
  lemma {:induction false} WalkDescends(g: Graph, cycles: seq<seq<Name>>, order: seq<Name>, w: seq<Name>, i: nat)
    requires FinishOrder(g, cycles, order)
    requires 0 < |w| && (forall k :: 0 <= k < |w| - 1 ==> Edge(g, w[k], w[k + 1]) && !IsClosing(cycles, w[k], w[k + 1]))
    requires i < |order| && order[i] == w[0]
    ensures |w| > 1 ==> w[|w| - 1] in order[..i]
  {
    if |w| == 1 {
    } else {
      assert Edge(g, order[i], w[1]);
      var j :| 0 <= j < i && order[j] == w[1];
      WalkDescends(g, cycles, order, w[1..], j);
      assert w[1..][|w| - 2] == w[|w| - 1];
      if |w| > 2 {
        assert order[..j] <= order[..i];
      }
    }
  }

  /** Closing edges hit every cycle: one of its imports is the last import of a reported list. */
  lemma EveryCycleIsClosed(g: Graph, w: seq<Name>)
    requires IsClosedWalk(g, w)
    ensures exists i :: 0 <= i < |w| - 1 && IsClosing(FindCycles(g), w[i], w[i + 1])
  {
    var cycles := FindCycles(g);
    var order := RootsFinish(g, START, SortedNames(g.Keys), []);
    if forall i :: 0 <= i < |w| - 1 ==> !IsClosing(cycles, w[i], w[i + 1]) {
      assert Edge(g, w[0], w[1]) && w[0] in g.Keys;
      assert w[0] in order;
      var i := LeastIndex(order, w[0]);
      WalkDescends(g, cycles, order, w, i);
    }
  }

  lemma LeastIndex(order: seq<Name>, x: Name) returns (i: nat)
    requires x in order
    ensures i < |order| && order[i] == x && x !in order[..i]
  {
    i := IndexOf(order, x);
    IndexOfIsFirst(order, x);
  }

  lemma {:induction false} IndexOfIsFirst(p: seq<Name>, x: Name)
    requires x in p
    ensures x !in p[..IndexOf(p, x)]
  {
    if p[0] == x {
    } else {
      IndexOfIsFirst(p[1..], x);
      var k := IndexOf(p, x);
      assert p[..k] == [p[0]] + p[1..][..k - 1];
    }
  }

  lemma PrunedGraphIsAcyclic(g: Graph)
    ensures Acyclic(Pruned(g, FindCycles(g)))
  {
    var h := Pruned(g, FindCycles(g));
    forall w | IsClosedWalk(h, w) ensures false {
      forall i | 0 <= i < |w| - 1 ensures Edge(g, w[i], w[i + 1]) && !IsClosing(FindCycles(g), w[i], w[i + 1]) {
        assert Edge(h, w[i], w[i + 1]);
      }
      EveryCycleIsClosed(g, w);
    }
  }

  lemma NothingReportedIffAcyclic(g: Graph)
    ensures FindCycles(g) == [] <==> Acyclic(g)
  {
    if FindCycles(g) == [] {
      forall w | IsClosedWalk(g, w) ensures false {
        EveryCycleIsClosed(g, w);
      }
    } else {
      var c := FindCycles(g)[0];
      assert c in FindCycles(g);
      CycleIsClosedWalk(g, c);
    }
  }

  lemma CycleIsClosedWalk(g: Graph, c: seq<Name>)
    requires IsCycle(g, c)
    ensures IsClosedWalk(g, c)
  {
    var p := c[..|c| - 1];
    forall i | 0 <= i < |c| - 1 ensures Edge(g, c[i], c[i + 1]) {
      if i < |p| - 1 {
        assert Edge(g, p[i], p[i + 1]);
      }
    }
  }
}
