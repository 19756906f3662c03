/** The order in which bootstrap of packages/core/src/lifecycle.ts instantiates modules: a depth-first post-order of
    the import graph. Cycles are allowed, and a module without metadata imports nothing. */
module ModuleOrder {
  import opened Common

  type Module = string
  type Graph = map<Module, seq<Module>>

  function Imports(g: Graph, m: Module): (list: seq<Module>)
    ensures forall v :: v in list <==> m in g && v in g[m]
  {
    if m in g then g[m] else []
  }

  // ---------------------------------------------------------------- reachability

  ghost predicate IsPath(g: Graph, p: seq<Module>) {
    p != [] && forall i :: 0 <= i < |p| - 1 ==> p[i] in g && p[i + 1] in g[p[i]]
  }

  ghost predicate PathFrom(g: Graph, u: Module, v: Module, p: seq<Module>) {
    IsPath(g, p) && p[0] == u && p[|p| - 1] == v
  }

  ghost predicate Reaches(g: Graph, u: Module, v: Module) {
    exists p :: PathFrom(g, u, v, p)
  }

  lemma ReachesSelf(g: Graph, u: Module)
    ensures Reaches(g, u, u)
  {
    assert PathFrom(g, u, u, [u]);
  }

  lemma ReachesImport(g: Graph, u: Module, v: Module, w: Module)
    requires Reaches(g, u, v) && w in Imports(g, v)
    ensures Reaches(g, u, w)
  {
    var p :| PathFrom(g, u, v, p);
    assert PathFrom(g, u, w, p + [w]);
  }

  lemma ReachesThrough(g: Graph, u: Module, v: Module, w: Module)
    requires Reaches(g, u, v) && Reaches(g, v, w)
    ensures Reaches(g, u, w)
  {
    var p :| PathFrom(g, u, v, p);
    var q :| PathFrom(g, v, w, q);
    var r := p + q[1..];
    forall i | 0 <= i < |r| - 1 ensures r[i] in g && r[i + 1] in g[r[i]] {
      if i >= |p| - 1 {
        var k := i - (|p| - 1);
        assert r[i] == q[k] && r[i + 1] == q[k + 1];
      }
    }
    assert PathFrom(g, u, w, r);
  }

  /** A set that is closed under imports holds everything its members reach. */
  lemma {:induction false} ClosedReaches(g: Graph, s: set<Module>, u: Module, v: Module, p: seq<Module>)
    requires forall x :: x in s ==> forall y :: y in Imports(g, x) ==> y in s
    requires u in s && PathFrom(g, u, v, p)
    ensures v in s
    decreases |p|
  {
    if |p| > 1 {
      assert p[1] in Imports(g, p[0]);
      ClosedReaches(g, s, p[1], v, p[1..]);
    }
  }

  // ---------------------------------------------------------------- the order

  /** Every import of a listed module is listed earlier, unless it reaches back to the importer. */
  ghost predicate ImportsFirst(g: Graph, sorted: seq<Module>) {
    forall i, v :: 0 <= i < |sorted| && sorted[i] in g && v in g[sorted[i]] ==>
      v in sorted[..i] || Reaches(g, v, sorted[i])
  }

  /** What holds between calls of visit. */
  ghost predicate Progress(g: Graph, visited: set<Module>, sorted: seq<Module>) {
    && NoDuplicates(sorted)
    && (forall x :: x in sorted ==> x in visited)
    && (forall x :: x in sorted ==> forall v :: v in Imports(g, x) ==> v in visited)
    && ImportsFirst(g, sorted)
  }

  /** The modules whose visit has begun and not ended. */
  ghost function Open(visited: set<Module>, sorted: seq<Module>): set<Module> {
    set x | x in visited && x !in sorted
  }

  ghost predicate ClosedIn(g: Graph, universe: set<Module>) {
    forall x :: x in universe ==> forall y :: y in Imports(g, x) ==> y in universe
  }

  ghost predicate AllReach(g: Graph, s: set<Module>, m: Module) {
    forall x :: x in s ==> Reaches(g, x, m)
  }

  ghost predicate ReachesAll(g: Graph, m: Module, s: set<Module>) {
    forall x :: x in s ==> Reaches(g, m, x)
  }

  ghost predicate FromSome(g: Graph, modules: seq<Module>, x: Module) {
    exists r :: r in modules && Reaches(g, r, x)
  }

  ghost predicate AllFromSome(g: Graph, modules: seq<Module>, s: set<Module>) {
    forall x :: x in s ==> FromSome(g, modules, x)
  }

  class Bootstrap {
    const imports: Graph
    var visited: set<Module>
    var sorted: seq<Module>

    constructor (imports: Graph)
      ensures this.imports == imports && visited == {} && sorted == []
    {
      this.imports := imports;
      visited, sorted := {}, [];
    }

    /** Visits m and what it imports. The modules still open all reach m, and stay exactly those. */
    method Visit(m: Module, ghost universe: set<Module>)
      requires ClosedIn(imports, universe) && m in universe && visited <= universe
      requires Progress(imports, visited, sorted)
      requires AllReach(imports, Open(visited, sorted), m)
      modifies this
      ensures Progress(imports, visited, sorted) && old(visited) <= visited <= universe && m in visited
      ensures old(sorted) <= sorted
      ensures Open(visited, sorted) == old(Open(visited, sorted))
      ensures ReachesAll(imports, m, visited - old(visited))
      decreases universe - visited
    {
      if m in visited {
        return;
      }
      ghost var open := Open(visited, sorted);
      visited := visited + {m};
      ReachesSelf(imports, m);
      assert Open(visited, sorted) == open + {m};
      var list := Imports(imports, m);
      for i := 0 to |list|
        invariant Progress(imports, visited, sorted) && old(visited) + {m} <= visited <= universe
        invariant old(sorted) <= sorted && Open(visited, sorted) == open + {m}
        invariant ReachesAll(imports, m, visited - old(visited))
        invariant forall j :: 0 <= j < i ==> list[j] in visited
      {
        var imported := list[i];
        assert imported in list;
        ReachOpen(imports, open + {m}, m, imported);
        ghost var before := visited;
        Visit(imported, universe);
        ReachNew(imports, m, imported, old(visited), before, visited);
      }
      Finish(imports, visited, sorted, m, open);
      sorted := sorted + [m];
      assert Open(visited, sorted) == open;
    }
  }

  lemma ReachOpen(g: Graph, open: set<Module>, m: Module, imported: Module)
    requires imported in Imports(g, m) && AllReach(g, open, m)
    ensures AllReach(g, open, imported)
  {
    forall x | x in open ensures Reaches(g, x, imported) {
      ReachesImport(g, x, m, imported);
    }
  }

  lemma ReachNew(g: Graph, m: Module, imported: Module, v0: set<Module>, before: set<Module>, after: set<Module>)
    requires imported in Imports(g, m) && ReachesAll(g, m, before - v0) && ReachesAll(g, imported, after - before)
    ensures ReachesAll(g, m, after - v0)
  {
    ReachesSelf(g, m);
    ReachesImport(g, m, m, imported);
    forall x | x in after - v0 ensures Reaches(g, m, x) {
      if x !in before {
        ReachesThrough(g, m, imported, x);
      }
    }
  }

  /** Closing m keeps the order: each of its imports is listed, or still open and so reaches m. */
  lemma Finish(g: Graph, visited: set<Module>, sorted: seq<Module>, m: Module, open: set<Module>)
    requires Progress(g, visited, sorted) && Open(visited, sorted) == open + {m}
    requires forall v :: v in Imports(g, m) ==> v in visited
    requires Reaches(g, m, m) && AllReach(g, open, m)
    ensures Progress(g, visited, sorted + [m])
  {
    assert m in Open(visited, sorted);
    var s := sorted + [m];
    forall i, v | 0 <= i < |s| && s[i] in g && v in g[s[i]] ensures v in s[..i] || Reaches(g, v, s[i]) {
      if i < |sorted| {
        assert s[..i] == sorted[..i];
      } else {
        assert s[..i] == sorted;
        if v !in sorted {
          assert v in Open(visited, sorted);
        }
      }
    }
  }

  /** What bootstrap promises of the list it instantiates: exactly the modules reachable from the given ones, each
      once, and every import before its importer unless the two are on a cycle. */
  ghost predicate IsModuleOrder(g: Graph, modules: seq<Module>, sorted: seq<Module>) {
    && NoDuplicates(sorted)
    && (forall x :: x in sorted <==> FromSome(g, modules, x))
    && ImportsFirst(g, sorted)
  }

  method Order(imports: Graph, modules: seq<Module>) returns (sorted: seq<Module>)
    ensures IsModuleOrder(imports, modules, sorted)
  {
    var b := new Bootstrap(imports);
    ghost var universe := (set x | x in modules) + (set k, i | k in imports && 0 <= i < |imports[k]| :: imports[k][i]);
    for i := 0 to |modules|
      invariant b.imports == imports && b.visited <= universe
      invariant Progress(imports, b.visited, b.sorted) && Open(b.visited, b.sorted) == {}
      invariant forall j :: 0 <= j < i ==> modules[j] in b.visited
      invariant AllFromSome(imports, modules, b.visited)
    {
      ghost var before := b.visited;
      b.Visit(modules[i], universe);
      assert AllFromSome(imports, modules, b.visited - before) by {
        assert modules[i] in modules;
      }
    }
    sorted := b.sorted;
    AllListed(imports, modules, b.visited, sorted);
  }

  lemma AllListed(g: Graph, modules: seq<Module>, visited: set<Module>, sorted: seq<Module>)
    requires Progress(g, visited, sorted) && Open(visited, sorted) == {}
    requires forall j :: 0 <= j < |modules| ==> modules[j] in visited
    requires AllFromSome(g, modules, visited)
    ensures IsModuleOrder(g, modules, sorted)
  {
    forall x ensures x in visited <==> x in sorted {
      assert x !in Open(visited, sorted);
    }
    forall x, r | r in modules && Reaches(g, r, x) ensures x in sorted {
      var p :| PathFrom(g, r, x, p);
      ClosedReaches(g, visited, r, x, p);
    }
  }

  // ---------------------------------------------------------------- consequences

  /** If u imports v and v does not reach u, then v is listed before u. */
  lemma ImportPrecedes(g: Graph, modules: seq<Module>, sorted: seq<Module>, u: Module, v: Module)
    requires IsModuleOrder(g, modules, sorted) && u in sorted && u in g && v in g[u] && !Reaches(g, v, u)
    ensures exists i, j :: 0 <= i < j < |sorted| && sorted[i] == v && sorted[j] == u
  {
    var j :| 0 <= j < |sorted| && sorted[j] == u;
    assert v in sorted[..j];
    var i :| 0 <= i < j && sorted[..j][i] == v;
  }

  /** On an acyclic graph the list is a topological order: whatever u reaches, other than itself, precedes u. */
  lemma {:induction false} TopologicalIfAcyclic(
      g: Graph, modules: seq<Module>, sorted: seq<Module>, j: nat, v: Module, p: seq<Module>)
    requires IsModuleOrder(g, modules, sorted) && j < |sorted|
    requires forall x, y :: Reaches(g, x, y) && Reaches(g, y, x) ==> x == y
    requires forall x :: x in g ==> x !in g[x]
    requires PathFrom(g, sorted[j], v, p) && |p| > 1
    ensures v in sorted[..j]
    decreases |p|
  {
    var w, u := p[1], sorted[j];
    assert w in Imports(g, p[0]);
    if Reaches(g, w, u) {
      ReachesSelf(g, u);
      ReachesImport(g, u, u, w);
      assert false;
    }
    var i :| 0 <= i < j && sorted[i] == w;
    if |p| > 2 {
      TopologicalIfAcyclic(g, modules, sorted, i, v, p[1..]);
    }
  }
}
