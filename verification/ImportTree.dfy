/**
 The import tracker: recording which module imports which, and printing the imports as a tree.
 The graph may have cycles; a module is expanded where it is first met and counted elsewhere.
*/
module ImportTree {
  import opened Common

  type Name = string

  // ---------------------------------------------------------------------------------------------
  // Recording imports
  // ---------------------------------------------------------------------------------------------

  datatype Import = Import(from: Name, to: Name)

  class Tracker {
    var importOrder: seq<Name>
    var observations: set<Import>

    /** Each module is listed once, and everything observed was imported by name or as a submodule of
        something listed. */
    predicate Valid()
      reads this
    {
      && (forall i, j :: 0 <= i < j < |importOrder| ==> importOrder[i] != importOrder[j])
      && (forall o :: o in observations ==> Covered(importOrder, o.to))
    }

    constructor ()
      ensures Valid() && importOrder == [] && observations == {}
    {
      importOrder, observations := [], {};
    }

    /** `loaded` are the modules the interpreter has; `relevant` tells the tracked packages. */
    method TrackImport(from: Name, to: Name, names: seq<Name>, loaded: set<Name>, relevant: Name -> bool)
      requires Valid()
      modifies this
      ensures Valid()
      ensures var tracked := relevant(from) && relevant(to) && from in loaded && to in loaded;
        && importOrder == old(importOrder) + (if tracked && to !in old(importOrder) then [to] else [])
        && forall o :: o in observations <==>
             o in old(observations)
             || (tracked && o.from == from && (o.to == to || IsLoadedSubmodule(o.to, to, names, loaded)))
    {
      if !relevant(from) || !relevant(to) { return; }
      if to in loaded && from in loaded {
        if to !in importOrder {
          importOrder := importOrder + [to];
        }
        observations := observations + {Import(from, to)};
        label start:
        for k := 0 to |names|
          invariant importOrder == old@start(importOrder)
          invariant forall o :: o in observations <==>
                      o in old@start(observations)
                      || (o.from == from && IsLoadedSubmodule(o.to, to, names[..k], loaded))
        {
          SubmodulesMore(to, names[..k], names[k], loaded);
          assert names[..k + 1] == names[..k] + [names[k]];
          var candidate := to + "." + names[k];
          if candidate in loaded {
            observations := observations + {Import(from, candidate)};
          }
        }
        assert names[..|names|] == names;
        CoveredStays(old(importOrder), importOrder);
      }
    }

    /** The modules that each module imports, for the printer. `sorted` lists a set in order. */
    method Dependencies(sorted: set<Name> -> seq<Name>) returns (g: Graph)
      requires forall s :: Lists(sorted(s), s)
      ensures IsGraphOf(g, observations)
    {
      var dependencies: map<Name, set<Name>> := map[];
      var todo := observations;
      while todo != {}
        invariant todo <= observations
        invariant forall n, c :: n in dependencies && c in dependencies[n] <==> Import(n, c) in observations - todo
        decreases todo
      {
        var o := Pick(todo);
        var known := if o.from in dependencies then dependencies[o.from] else {};
        dependencies := dependencies[o.from := known + {o.to}];
        todo := todo - {o};
      }
      g := map n | n in dependencies :: sorted(dependencies[n]);
      forall n, c ensures c in Children(g, n) <==> Import(n, c) in observations {
        if n in dependencies { assert Lists(sorted(dependencies[n]), dependencies[n]); }
      }
      forall n | n in g ensures forall i, j :: 0 <= i < j < |g[n]| ==> g[n][i] != g[n][j] {
        assert Lists(sorted(dependencies[n]), dependencies[n]);
      }
    }
  }

  /** The sequence has exactly the elements of the set, each once. */
  ghost predicate Lists(names: seq<Name>, s: set<Name>) {
    && (forall n :: n in names <==> n in s)
    && forall i, j :: 0 <= i < j < |names| ==> names[i] != names[j]
  }

  /** The module is listed, or is below one that is. */
  predicate Covered(order: seq<Name>, name: Name) {
    exists n :: n in order && (name == n || n + "." <= name)
  }

  lemma CoveredStays(order: seq<Name>, longer: seq<Name>)
    requires forall n :: n in order ==> n in longer
    ensures forall name :: Covered(order, name) ==> Covered(longer, name)
  {
  }

  /** One of the names of a from-import that is a module below `to`. */
  predicate IsLoadedSubmodule(name: Name, to: Name, names: seq<Name>, loaded: set<Name>) {
    name in loaded && exists n :: n in names && name == to + "." + n
  }

  lemma SubmodulesMore(to: Name, names: seq<Name>, n: Name, loaded: set<Name>)
    ensures forall name :: IsLoadedSubmodule(name, to, names + [n], loaded)
              <==> IsLoadedSubmodule(name, to, names, loaded) || (name in loaded && name == to + "." + n)
  {
    forall name | name in loaded && name == to + "." + n ensures IsLoadedSubmodule(name, to, names + [n], loaded) {
      assert n in names + [n];
    }
    forall name | IsLoadedSubmodule(name, to, names, loaded) ensures IsLoadedSubmodule(name, to, names + [n], loaded) {
      var m :| m in names && name == to + "." + m;
      assert m in names + [n];
    }
  }

  // ---------------------------------------------------------------------------------------------
  // Printing the tree
  // ---------------------------------------------------------------------------------------------

  /** The children of each module, each listed once, in the order they are printed. */
  type Graph = map<Name, seq<Name>>

  function Children(g: Graph, n: Name): seq<Name> {
    if n in g then g[n] else []
  }

  predicate ChildrenDistinct(g: Graph) {
    forall n, i, j :: n in g && 0 <= i < j < |g[n]| ==> g[n][i] != g[n][j]
  }

  datatype Line =
    | Expanded(indentation: nat, name: Name)
    | Repeated(indentation: nat, name: Name, count: nat)

  /** What the walk carries along: how often each module was met, and the lines written. */
  datatype Walk = Walk(seen: map<Name, nat>, lines: seq<Line>)

  /** All names the walk can meet, whatever it starts from. */
  function Universe(g: Graph): set<Name> {
    g.Keys + set n, k | n in g && 0 <= k < |g[n]| :: g[n][k]
  }

  predicate Within(w: Walk, u: set<Name>) { w.seen.Keys <= u }

  /** The walk once the line of a module met for the first time is written. */
  function Started(w: Walk, name: Name, indentation: nat): Walk {
    Walk(w.seen[name := 1], w.lines + [Expanded(indentation, name)])
  }

  lemma StartedIsSmaller(g: Graph, u: set<Name>, w: Walk, name: Name, indentation: nat)
    requires Universe(g) <= u && name in u && Within(w, u) && name !in w.seen
    ensures var started := Started(w, name, indentation);
      && Within(started, u) && started.seen.Keys == w.seen.Keys + {name}
      && u - started.seen.Keys < u - w.seen.Keys
    ensures forall c :: c in Children(g, name) ==> c in u
  {
    assert name in u - w.seen.Keys && name !in u - Started(w, name, indentation).seen.Keys;
    assert forall c :: c in Children(g, name) ==> c in Universe(g);
  }

  function WriteDep(g: Graph, u: set<Name>, w: Walk, name: Name, indentation: nat): (r: Walk)
    requires Universe(g) <= u && name in u && Within(w, u)
    ensures Within(r, u) && w.seen.Keys + {name} <= r.seen.Keys
    decreases u - w.seen.Keys, 1, 0
  {
    if name in w.seen then
      Walk(w.seen[name := w.seen[name] + 1], w.lines + [Repeated(indentation, name, w.seen[name])])
    else
      var started := Started(w, name, indentation);
      StartedIsSmaller(g, u, w, name, indentation);
      WriteDeps(g, u, started, Children(g, name), indentation + 1)
  }

  function WriteDeps(g: Graph, u: set<Name>, w: Walk, names: seq<Name>, indentation: nat): (r: Walk)
    requires Universe(g) <= u && (forall n :: n in names ==> n in u) && Within(w, u)
    ensures Within(r, u) && w.seen.Keys <= r.seen.Keys && forall n :: n in names ==> n in r.seen
    decreases u - w.seen.Keys, 2, |names|
  {
    if names == [] then w
    else
      var before := WriteDeps(g, u, w, names[..|names| - 1], indentation);
      assert u - before.seen.Keys <= u - w.seen.Keys;
      WriteDep(g, u, before, names[|names| - 1], indentation)
  }

  class TreeWriter {
    const graph: Graph
    ghost const universe: set<Name>
    var indentation: nat
    var seen: map<Name, nat>
    var lines: seq<Line>

    constructor (graph: Graph, ghost universe: set<Name>)
      ensures this.graph == graph && this.universe == universe
      ensures indentation == 0 && seen == map[] && lines == []
    {
      this.graph, this.universe := graph, universe;
      indentation, seen, lines := 0, map[], [];
    }

    function Contents(): Walk
      reads this
    {
      Walk(seen, lines)
    }

    ghost predicate Ready()
      reads this
    {
      Universe(graph) <= universe && Within(Contents(), universe)
    }

    /** Writes a module and, where it is met for the first time, everything below it; the indentation
        is back where it was when the call returns. */
    method WriteModule(name: Name)
      requires Ready() && name in universe
      modifies this
      ensures Ready() && indentation == old(indentation)
      ensures Contents() == WriteDep(graph, universe, old(Contents()), name, indentation)
      decreases universe - seen.Keys, 1
    {
      if name in seen {
        var count := seen[name];
        seen := seen[name := count + 1];
        lines := lines + [Repeated(indentation, name, count)];
        return;
      }
      StartedIsSmaller(graph, universe, Contents(), name, indentation);
      seen := seen[name := 1];
      lines := lines + [Expanded(indentation, name)];
      indentation := indentation + 1;
      WriteModules(Children(graph, name));
      indentation := indentation - 1;
    }

    method WriteModules(names: seq<Name>)
      requires Ready() && forall n :: n in names ==> n in universe
      modifies this
      ensures Ready() && indentation == old(indentation)
      ensures Contents() == WriteDeps(graph, universe, old(Contents()), names, indentation)
      decreases universe - seen.Keys, 2
    {
      for k := 0 to |names|
        invariant Ready() && indentation == old(indentation) && old(seen.Keys) <= seen.Keys
        invariant Contents() == WriteDeps(graph, universe, old(Contents()), names[..k], indentation)
      {
        assert names[..k + 1][..k] == names[..k] && names[..k + 1][k] == names[k];
        assert universe - seen.Keys <= universe - old(seen.Keys);
        WriteModule(names[k]);
      }
      assert names[..|names|] == names;
    }
  }

  // ---------------------------------------------------------------------------------------------
  // How often each module is met
  // ---------------------------------------------------------------------------------------------

  function Count(w: Walk, n: Name): nat { if n in w.seen then w.seen[n] else 0 }

  function Occurrences(names: seq<Name>, n: Name): nat {
    if names == [] then 0
    else Occurrences(names[..|names| - 1], n) + if names[|names| - 1] == n then 1 else 0
  }

  /** The modules of `ms` that import `n`. */
  function Importers(g: Graph, ms: set<Name>, n: Name): set<Name> {
    set m | m in ms && n in Children(g, m)
  }

  lemma {:induction false} DistinctOccursOnce(names: seq<Name>, n: Name)
    requires forall i, j :: 0 <= i < j < |names| ==> names[i] != names[j]
    ensures Occurrences(names, n) == if n in names then 1 else 0
  {
    if names != [] {
      var k := |names| - 1;
      DistinctOccursOnce(names[..k], n);
      assert names == names[..k] + [names[k]];
    }
  }

  /** How many of the modules `ms` import `n`. */
  function InEdges(g: Graph, ms: set<Name>, n: Name): nat { |Importers(g, ms, n)| }

  lemma InEdgesAdd(g: Graph, a: set<Name>, b: set<Name>, c: set<Name>, n: Name)
    requires a <= b <= c
    ensures InEdges(g, c - a, n) == InEdges(g, b - a, n) + InEdges(g, c - b, n)
  {
    assert Importers(g, c - a, n) == Importers(g, b - a, n) + Importers(g, c - b, n);
  }

  lemma InEdgesOfNone(g: Graph, a: set<Name>, n: Name)
    ensures InEdges(g, a - a, n) == 0
  {
    assert Importers(g, a - a, n) == {};
  }

  lemma InEdgesOfOne(g: Graph, a: set<Name>, m: Name, n: Name)
    requires m !in a
    ensures InEdges(g, (a + {m}) - a, n) == if n in Children(g, m) then 1 else 0
  {
    assert Importers(g, (a + {m}) - a, n) == if n in Children(g, m) then {m} else {};
  }

  /** A call adds one for the module it is given, and one for each import of a module it expands. */
  lemma {:induction false} WriteDepCounts(g: Graph, u: set<Name>, w: Walk, name: Name, indentation: nat, n: Name)
    requires ChildrenDistinct(g) && Universe(g) <= u && name in u && Within(w, u)
    ensures var r := WriteDep(g, u, w, name, indentation);
      Count(r, n) == Count(w, n) + (if n == name then 1 else 0) + InEdges(g, r.seen.Keys - w.seen.Keys, n)
    decreases u - w.seen.Keys, 1, 0
  {
    var r := WriteDep(g, u, w, name, indentation);
    if name in w.seen {
      assert r.seen.Keys == w.seen.Keys;
      InEdgesOfNone(g, w.seen.Keys, n);
    } else {
      var started := Started(w, name, indentation);
      StartedIsSmaller(g, u, w, name, indentation);
      WriteDepsCounts(g, u, started, Children(g, name), indentation + 1, n);
      DistinctOccursOnce(Children(g, name), n);
      InEdgesAdd(g, w.seen.Keys, started.seen.Keys, r.seen.Keys, n);
      InEdgesOfOne(g, w.seen.Keys, name, n);
    }
  }

  lemma {:induction false} WriteDepsCounts(g: Graph, u: set<Name>, w: Walk, names: seq<Name>, indentation: nat, n: Name)
    requires ChildrenDistinct(g) && Universe(g) <= u && Within(w, u) && forall m :: m in names ==> m in u
    ensures var r := WriteDeps(g, u, w, names, indentation);
      Count(r, n) == Count(w, n) + Occurrences(names, n) + InEdges(g, r.seen.Keys - w.seen.Keys, n)
    decreases u - w.seen.Keys, 2, |names|
  {
    if names == [] {
      InEdgesOfNone(g, w.seen.Keys, n);
    } else {
      var k := |names| - 1;
      var before := WriteDeps(g, u, w, names[..k], indentation);
      assert u - before.seen.Keys <= u - w.seen.Keys;
      WriteDepsCounts(g, u, w, names[..k], indentation, n);
      WriteDepCounts(g, u, before, names[k], indentation, n);
      InEdgesAdd(g, w.seen.Keys, before.seen.Keys, WriteDeps(g, u, w, names, indentation).seen.Keys, n);
    }
  }

  // ---------------------------------------------------------------------------------------------
  // Which modules are met
  // ---------------------------------------------------------------------------------------------

  predicate IsPath(g: Graph, p: seq<Name>) {
    p != [] && forall k :: 0 < k < |p| ==> p[k] in Children(g, p[k - 1])
  }

  ghost predicate Reachable(g: Graph, roots: seq<Name>, n: Name) {
    exists p :: IsPath(g, p) && p[0] in roots && p[|p| - 1] == n
  }

  /** What a call adds is closed under imports and reachable from what it is given. */
  ghost predicate Explores(g: Graph, roots: seq<Name>, before: set<Name>, after: set<Name>) {
    && (forall m, c :: m in after - before && c in Children(g, m) ==> c in after)
    && (forall m :: m in after - before ==> Reachable(g, roots, m))
  }

  lemma ReachableThrough(g: Graph, root: Name, n: Name)
    requires Reachable(g, Children(g, root), n)
    ensures Reachable(g, [root], n)
  {
    var p :| IsPath(g, p) && p[0] in Children(g, root) && p[|p| - 1] == n;
    var q := [root] + p;
    forall k | 0 < k < |q| ensures q[k] in Children(g, q[k - 1]) {
      assert q[k] == p[k - 1];
      if k > 1 { assert q[k - 1] == p[k - 2]; }
    }
    assert IsPath(g, q) && q[0] in [root] && q[|q| - 1] == n;
  }

  lemma ReachableFromMore(g: Graph, roots: seq<Name>, more: seq<Name>, n: Name)
    requires Reachable(g, roots, n) && forall m :: m in roots ==> m in more
    ensures Reachable(g, more, n)
  {
    var p :| IsPath(g, p) && p[0] in roots && p[|p| - 1] == n;
    assert p[0] in more;
  }

  lemma ReachableItself(g: Graph, n: Name)
    ensures Reachable(g, [n], n)
  {
    assert IsPath(g, [n]) && [n][0] in [n];
  }

  lemma {:induction false} WriteDepExplores(g: Graph, u: set<Name>, w: Walk, name: Name, indentation: nat)
    requires Universe(g) <= u && name in u && Within(w, u)
    ensures Explores(g, [name], w.seen.Keys, WriteDep(g, u, w, name, indentation).seen.Keys)
    decreases u - w.seen.Keys, 1, 0
  {
    if name !in w.seen {
      var started := Started(w, name, indentation);
      StartedIsSmaller(g, u, w, name, indentation);
      WriteDepsExplores(g, u, started, Children(g, name), indentation + 1);
      var r := WriteDep(g, u, w, name, indentation);
      ReachableItself(g, name);
      forall m | m in r.seen.Keys - w.seen.Keys ensures Reachable(g, [name], m) {
        if m != name { ReachableThrough(g, name, m); }
      }
    }
  }

  lemma {:induction false} WriteDepsExplores(g: Graph, u: set<Name>, w: Walk, names: seq<Name>, indentation: nat)
    requires Universe(g) <= u && Within(w, u) && forall m :: m in names ==> m in u
    ensures Explores(g, names, w.seen.Keys, WriteDeps(g, u, w, names, indentation).seen.Keys)
    decreases u - w.seen.Keys, 2, |names|
  {
    if names != [] {
      var k := |names| - 1;
      var before := WriteDeps(g, u, w, names[..k], indentation);
      assert u - before.seen.Keys <= u - w.seen.Keys;
      WriteDepsExplores(g, u, w, names[..k], indentation);
      WriteDepExplores(g, u, before, names[k], indentation);
      var r := WriteDeps(g, u, w, names, indentation);
      forall m | m in r.seen.Keys - w.seen.Keys ensures Reachable(g, names, m) {
        if m in before.seen.Keys {
          ReachableFromMore(g, names[..k], names, m);
        } else {
          ReachableFromMore(g, [names[k]], names, m);
        }
      }
    }
  }

  lemma {:induction false} ClosedHoldsPath(g: Graph, s: set<Name>, p: seq<Name>)
    requires IsPath(g, p) && p[0] in s && forall m, c :: m in s && c in Children(g, m) ==> c in s
    ensures p[|p| - 1] in s
  {
    if |p| > 1 { ClosedHoldsPath(g, s, p[..|p| - 1]); }
  }

  // ---------------------------------------------------------------------------------------------
  // What is written
  // ---------------------------------------------------------------------------------------------

  function Mentions(lines: seq<Line>, n: Name): nat {
    if lines == [] then 0
    else Mentions(lines[..|lines| - 1], n) + if lines[|lines| - 1].name == n then 1 else 0
  }

  function Expansions(lines: seq<Line>, n: Name): nat {
    if lines == [] then 0
    else
      var last := lines[|lines| - 1];
      Expansions(lines[..|lines| - 1], n) + if last.Expanded? && last.name == n then 1 else 0
  }

  /** The lines say what was seen: as many for each module as its count, the first of them and no other
      expanding it, and each later one with the number of lines before it. */
  ghost predicate Truthful(w: Walk) {
    && (forall n :: Mentions(w.lines, n) == Count(w, n))
    && (forall n :: Expansions(w.lines, n) == if n in w.seen then 1 else 0)
    && (forall k :: 0 <= k < |w.lines| ==>
          var before := Mentions(w.lines[..k], w.lines[k].name);
          match w.lines[k]
          case Expanded(_, _) => before == 0
          case Repeated(_, _, count) => before == count)
  }

  lemma OneMoreLine(w: Walk, line: Line)
    requires Truthful(w)
    requires if line.Expanded? then line.name !in w.seen
             else line.name in w.seen && line.count == w.seen[line.name]
    ensures Truthful(Walk(w.seen[line.name := Count(w, line.name) + 1], w.lines + [line]))
  {
    var lines := w.lines + [line];
    assert lines[..|w.lines|] == w.lines;
    forall n ensures Mentions(lines, n) == Mentions(w.lines, n) + if n == line.name then 1 else 0 {
    }
    forall k | 0 <= k < |w.lines| ensures lines[..k] == w.lines[..k] {
    }
  }

  lemma {:induction false} WriteDepTruthful(g: Graph, u: set<Name>, w: Walk, name: Name, indentation: nat)
    requires Universe(g) <= u && name in u && Within(w, u) && Truthful(w)
    ensures Truthful(WriteDep(g, u, w, name, indentation))
    decreases u - w.seen.Keys, 1, 0
  {
    if name in w.seen {
      OneMoreLine(w, Repeated(indentation, name, w.seen[name]));
    } else {
      OneMoreLine(w, Expanded(indentation, name));
      var started := Started(w, name, indentation);
      StartedIsSmaller(g, u, w, name, indentation);
      WriteDepsTruthful(g, u, started, Children(g, name), indentation + 1);
    }
  }

  lemma {:induction false} WriteDepsTruthful(g: Graph, u: set<Name>, w: Walk, names: seq<Name>, indentation: nat)
    requires Universe(g) <= u && Within(w, u) && Truthful(w) && forall m :: m in names ==> m in u
    ensures Truthful(WriteDeps(g, u, w, names, indentation))
    decreases u - w.seen.Keys, 2, |names|
  {
    if names != [] {
      var k := |names| - 1;
      var before := WriteDeps(g, u, w, names[..k], indentation);
      assert u - before.seen.Keys <= u - w.seen.Keys;
      WriteDepsTruthful(g, u, w, names[..k], indentation);
      WriteDepTruthful(g, u, before, names[k], indentation);
    }
  }

  // ---------------------------------------------------------------------------------------------
  // How the lines nest
  // ---------------------------------------------------------------------------------------------

  /** Line `k` stands under the expanded line `p`: one step to the right of it, with nothing as far to
      the left as `p` between them, and naming a module that `p`'s imports. */
  predicate StandsUnder(g: Graph, lines: seq<Line>, p: nat, k: nat) {
    && p < k < |lines|
    && lines[p].Expanded? && lines[k].indentation == lines[p].indentation + 1
    && lines[k].name in Children(g, lines[p].name)
    && forall j :: p < j < k ==> lines[j].indentation > lines[p].indentation
  }

  predicate HasParent(g: Graph, lines: seq<Line>, start: nat, k: nat) {
    exists p :: start <= p < k && StandsUnder(g, lines, p, k)
  }

  /** The lines from `start` on are at `indentation` or deeper, and each deeper one has its parent
      among them. */
  predicate Nested(g: Graph, lines: seq<Line>, start: nat, indentation: nat) {
    forall k :: start <= k < |lines| ==>
      lines[k].indentation == indentation || (lines[k].indentation > indentation && HasParent(g, lines, start, k))
  }

  /** The names of the lines from `start` on that are exactly at `indentation`. */
  function NamesAt(lines: seq<Line>, start: nat, indentation: nat): seq<Name> {
    if |lines| <= start then []
    else
      var before := NamesAt(lines[..|lines| - 1], start, indentation);
      var last := lines[|lines| - 1];
      if last.indentation == indentation then before + [last.name] else before
  }

  lemma ParentStays(g: Graph, a: seq<Line>, b: seq<Line>, start: nat, k: nat)
    requires a <= b && k < |a| && HasParent(g, a, start, k)
    ensures HasParent(g, b, start, k)
  {
    var p :| start <= p < k && StandsUnder(g, a, p, k);
    assert StandsUnder(g, b, p, k);
  }

  lemma ParentFromEarlier(g: Graph, lines: seq<Line>, start: nat, later: nat, k: nat)
    requires start <= later && HasParent(g, lines, later, k)
    ensures HasParent(g, lines, start, k)
  {
    var p :| later <= p < k && StandsUnder(g, lines, p, k);
  }

  lemma {:induction false} NamesAtAppend(a: seq<Line>, b: seq<Line>, start: nat, indentation: nat)
    requires a <= b && start <= |a|
    ensures NamesAt(b, start, indentation) == NamesAt(a, start, indentation) + NamesAt(b, |a|, indentation)
  {
    if |a| < |b| {
      NamesAtAppend(a, b[..|b| - 1], start, indentation);
    } else {
      assert a == b;
    }
  }

  lemma {:induction false} NoNamesAt(lines: seq<Line>, start: nat, indentation: nat)
    requires forall k :: start <= k < |lines| ==> lines[k].indentation > indentation
    ensures NamesAt(lines, start, indentation) == []
  {
    if start < |lines| { NoNamesAt(lines[..|lines| - 1], start, indentation); }
  }

  /** From `a` to `b`, lines were added for `names` at `indentation`, and others below them. */
  predicate Wrote(g: Graph, a: seq<Line>, b: seq<Line>, names: seq<Name>, indentation: nat) {
    a <= b && Nested(g, b, |a|, indentation) && NamesAt(b, |a|, indentation) == names
  }

  lemma WroteThen(g: Graph, a: seq<Line>, b: seq<Line>, c: seq<Line>, names: seq<Name>, name: Name, indentation: nat)
    requires Wrote(g, a, b, names, indentation) && Wrote(g, b, c, [name], indentation)
    ensures Wrote(g, a, c, names + [name], indentation)
  {
    NamesAtAppend(b, c, |a|, indentation);
    forall k | |a| <= k < |c|
      ensures c[k].indentation == indentation || (c[k].indentation > indentation && HasParent(g, c, |a|, k))
    {
      if k < |b| {
        assert c[k] == b[k];
        if b[k].indentation > indentation { ParentStays(g, b, c, |a|, k); }
      } else if c[k].indentation > indentation {
        ParentFromEarlier(g, c, |a|, |b|, k);
      }
    }
  }

  lemma WroteOne(g: Graph, a: seq<Line>, line: Line)
    ensures Wrote(g, a, a + [line], [line.name], line.indentation)
  {
    assert NamesAt((a + [line])[..|a|], |a|, line.indentation) == [];
  }

  /** What is written for the imports of a module, one step deeper, stands under its line. */
  lemma WroteUnder(g: Graph, a: seq<Line>, c: seq<Line>, name: Name, indentation: nat)
    requires Wrote(g, a + [Expanded(indentation, name)], c, Children(g, name), indentation + 1)
    ensures Wrote(g, a, c, [name], indentation)
  {
    var b := a + [Expanded(indentation, name)];
    var n := |a|;
    assert c[n] == b[n];
    WroteOne(g, a, b[n]);
    NamesAtAppend(b, c, n, indentation);
    NoNamesAt(c, |b|, indentation);
    forall k | n < k < |c| ensures c[k].indentation > indentation && HasParent(g, c, n, k) {
      if c[k].indentation == indentation + 1 {
        NameIsAmong(c, |b|, indentation + 1, k);
        assert StandsUnder(g, c, n, k);
      } else {
        ParentFromEarlier(g, c, n, |b|, k);
      }
    }
  }

  /** A call writes one line at its indentation, for the module it is given, and below that line
      whatever it expands. */
  lemma {:induction false} WriteDepNests(g: Graph, u: set<Name>, w: Walk, name: Name, indentation: nat)
    requires Universe(g) <= u && name in u && Within(w, u)
    ensures Wrote(g, w.lines, WriteDep(g, u, w, name, indentation).lines, [name], indentation)
    decreases u - w.seen.Keys, 1, 0
  {
    if name in w.seen {
      WroteOne(g, w.lines, Repeated(indentation, name, w.seen[name]));
    } else {
      var started := Started(w, name, indentation);
      StartedIsSmaller(g, u, w, name, indentation);
      WriteDepsNests(g, u, started, Children(g, name), indentation + 1);
      WroteUnder(g, w.lines, WriteDep(g, u, w, name, indentation).lines, name, indentation);
    }
  }

  lemma {:induction false} NameIsAmong(lines: seq<Line>, start: nat, indentation: nat, k: nat)
    requires start <= k < |lines| && lines[k].indentation == indentation
    ensures lines[k].name in NamesAt(lines, start, indentation)
  {
    if k < |lines| - 1 { NameIsAmong(lines[..|lines| - 1], start, indentation, k); }
  }

  lemma {:induction false} WriteDepsNests(g: Graph, u: set<Name>, w: Walk, names: seq<Name>, indentation: nat)
    requires Universe(g) <= u && Within(w, u) && forall m :: m in names ==> m in u
    ensures Wrote(g, w.lines, WriteDeps(g, u, w, names, indentation).lines, names, indentation)
    decreases u - w.seen.Keys, 2, |names|
  {
    if names != [] {
      var k := |names| - 1;
      var before := WriteDeps(g, u, w, names[..k], indentation);
      assert u - before.seen.Keys <= u - w.seen.Keys;
      WriteDepsNests(g, u, w, names[..k], indentation);
      WriteDepNests(g, u, before, names[k], indentation);
      var after := WriteDeps(g, u, w, names, indentation);
      WroteThen(g, w.lines, before.lines, after.lines, names[..k], names[k], indentation);
      assert names == names[..k] + [names[k]];
    }
  }

  // ---------------------------------------------------------------------------------------------
  // The whole tree
  // ---------------------------------------------------------------------------------------------

  function AllNames(g: Graph, order: seq<Name>): set<Name> {
    Universe(g) + set n | n in order
  }

  function Tree(g: Graph, order: seq<Name>): Walk {
    WriteDeps(g, AllNames(g, order), Walk(map[], []), order, 0)
  }

  method EmitAsciiTree(g: Graph, order: seq<Name>) returns (seen: map<Name, nat>, lines: seq<Line>)
    ensures Walk(seen, lines) == Tree(g, order)
  {
    var writer := new TreeWriter(g, AllNames(g, order));
    writer.WriteModules(order);
    seen, lines := writer.seen, writer.lines;
  }

  /** On any graph: exactly the modules reachable from the import order are written, and each is met
      once for every time it is in that order and once for every reachable module that imports it. */
  lemma TreeCountsImports(g: Graph, order: seq<Name>, n: Name)
    requires ChildrenDistinct(g)
    ensures var w := Tree(g, order);
      && (n in w.seen <==> Reachable(g, order, n))
      && Count(w, n) == Occurrences(order, n) + InEdges(g, w.seen.Keys, n)
  {
    var u := AllNames(g, order);
    var start := Walk(map[], []);
    var w := Tree(g, order);
    WriteDepsCounts(g, u, start, order, 0, n);
    WriteDepsExplores(g, u, start, order, 0);
    assert w.seen.Keys - start.seen.Keys == w.seen.Keys;
    if Reachable(g, order, n) {
      var p :| IsPath(g, p) && p[0] in order && p[|p| - 1] == n;
      ClosedHoldsPath(g, w.seen.Keys, p);
    }
  }

  /** Each reachable module is expanded exactly once, in the first of its lines, and nothing else is
      written; a later line shows how many lines the module had before. */
  lemma TreeIsTruthful(g: Graph, order: seq<Name>)
    ensures Truthful(Tree(g, order))
  {
    WriteDepsTruthful(g, AllNames(g, order), Walk(map[], []), order, 0);
  }

  /** The lines read as a tree: those at the margin are the import order, in order, and every other
      line stands under the line of a module that imports it. */
  lemma TreeNests(g: Graph, order: seq<Name>)
    ensures var lines := Tree(g, order).lines;
      && NamesAt(lines, 0, 0) == order
      && (forall k :: 0 <= k < |lines| && lines[k].indentation > 0 ==> HasParent(g, lines, 0, k))
  {
    WriteDepsNests(g, AllNames(g, order), Walk(map[], []), order, 0);
    var lines := Tree(g, order).lines;
    assert Nested(g, lines, 0, 0);
  }

  /** The graph is that of the observed imports. */
  ghost predicate IsGraphOf(g: Graph, observations: set<Import>) {
    ChildrenDistinct(g) && forall n, c :: c in Children(g, n) <==> Import(n, c) in observations
  }

  /** A chain of observed imports leads to the module from one of these. */
  ghost predicate ImportedFrom(observations: set<Import>, roots: seq<Name>, n: Name) {
    exists p: seq<Name> :: p != [] && p[0] in roots && p[|p| - 1] == n && IsChain(observations, p)
  }

  predicate IsChain(observations: set<Import>, p: seq<Name>) {
    forall k :: 0 < k < |p| ==> Import(p[k - 1], p[k]) in observations
  }

  /** In terms of what was observed: a module is written if and only if a chain of imports leads to it from
      the import order, and its count is its place in that order plus the observed imports of it by
      modules that are written. */
  lemma TreeCountsObservations(g: Graph, observations: set<Import>, order: seq<Name>, n: Name)
    requires IsGraphOf(g, observations)
    ensures var w := Tree(g, order);
      && (n in w.seen <==> ImportedFrom(observations, order, n))
      && Count(w, n) == Occurrences(order, n) + |ImportsBy(observations, w.seen.Keys, n)|
  {
    var w := Tree(g, order);
    TreeCountsImports(g, order, n);
    SameChains(g, observations, order, n);
    ImportersAreImports(g, observations, w.seen.Keys, n);
  }

  /** The observed imports of `n` by these modules. */
  function ImportsBy(observations: set<Import>, ms: set<Name>, n: Name): set<Import> {
    set o | o in observations && o.from in ms && o.to == n
  }

  lemma SameChains(g: Graph, observations: set<Import>, order: seq<Name>, n: Name)
    requires IsGraphOf(g, observations)
    ensures Reachable(g, order, n) <==> ImportedFrom(observations, order, n)
  {
    if Reachable(g, order, n) {
      var p :| IsPath(g, p) && p[0] in order && p[|p| - 1] == n;
      assert IsChain(observations, p);
    }
    if ImportedFrom(observations, order, n) {
      var p: seq<Name> :| p != [] && p[0] in order && p[|p| - 1] == n && IsChain(observations, p);
      assert IsPath(g, p);
    }
  }

  lemma ImportersAreImports(g: Graph, observations: set<Import>, ms: set<Name>, n: Name)
    requires IsGraphOf(g, observations)
    ensures InEdges(g, ms, n) == |ImportsBy(observations, ms, n)|
  {
    var imports := ImportsBy(observations, ms, n);
    var importers := Importers(g, ms, n);
    assert importers == set o | o in imports :: o.from;
    FromsAreDistinct(imports, n);
  }

  lemma {:induction false} FromsAreDistinct(imports: set<Import>, n: Name)
    requires forall o :: o in imports ==> o.to == n
    ensures |set o | o in imports :: o.from| == |imports|
    decreases |imports|
  {
    if imports != {} {
      var o := Any(imports);
      var rest := imports - {o};
      FromsAreDistinct(rest, n);
      assert (set x | x in imports :: x.from) == (set x | x in rest :: x.from) + {o.from};
      assert o.from !in set x | x in rest :: x.from;
    }
  }
}
