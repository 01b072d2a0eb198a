/**
 Ordering of schemas by their references: the depth first topological sort, and the collection of the
 direct local references that feed it.
 */
module SchemaOrder {
  import opened Digraph
  import opened Wrappers
  import opened NameOrder

  type Edges = map<Name, seq<Name>>

  /** defaultdict(list): a missing key has no targets. */
  function Targets(edges: Edges, n: Name): seq<Name> {
    if n in edges then edges[n] else []
  }

  function AsGraph(edges: Edges): Graph {
    map n | n in edges :: set t | t in edges[n]
  }

  /** Every target stands before its source, and nothing stands twice. */
  predicate TopologicalOrder(g: Graph, xs: seq<Name>) {
    && (forall i, t :: 0 <= i < |xs| && t in Succ(g, xs[i]) ==> t in xs[..i])
    && NoDuplicates(xs)
  }

  predicate NoDuplicates(xs: seq<Name>) {
    forall i, j :: 0 <= i < j < |xs| ==> xs[i] != xs[j]
  }

  /** A cycle can be reached from n. */
  ghost predicate CycleFrom(g: Graph, n: Name) {
    exists x :: Reach(g, n, x) && Leads(g, x, x)
  }

  ghost predicate CycleFromAny(g: Graph, nodes: set<Name>) {
    exists n :: n in nodes && CycleFrom(g, n)
  }

  ghost predicate ReachableFrom(g: Graph, nodes: set<Name>, x: Name) {
    exists n :: n in nodes && Reach(g, n, x)
  }

  /** The list in the error message: a path whose last node refers back into it. */
  predicate ReportsCycle(g: Graph, visiting: seq<Name>) {
    IsPath(g, visiting) && exists k :: 0 <= k < |visiting| && visiting[k] in Succ(g, visiting[|visiting| - 1])
  }

  /** Positions fall along edges, so nothing in a topological order lies on a cycle. */
  lemma {:induction false} OrderedMeansNoCycle(g: Graph, xs: seq<Name>, n: Name)
    requires TopologicalOrder(g, xs) && n in xs
    ensures !CycleFrom(g, n)
  {
    if CycleFrom(g, n) {
      var x :| Reach(g, n, x) && Leads(g, x, x);
      ReachStaysBefore(g, xs, n, x);
      var m :| m in Succ(g, x) && Reach(g, m, x);
      var i :| 0 <= i < |xs| && xs[i] == x;
      assert m in xs[..i];
      TopologicalPrefix(g, xs, i);
      ReachStaysBefore(g, xs[..i], m, x);
      assert false;
    }
  }

  lemma TopologicalPrefix(g: Graph, xs: seq<Name>, k: nat)
    requires TopologicalOrder(g, xs) && k <= |xs|
    ensures TopologicalOrder(g, xs[..k])
  {
    forall i, t | 0 <= i < k && t in Succ(g, xs[i]) ensures t in xs[..k][..i] {
      assert xs[..k][..i] == xs[..i];
    }
  }

  lemma ReachStaysBefore(g: Graph, xs: seq<Name>, a: Name, b: Name)
    requires TopologicalOrder(g, xs) && a in xs && Reach(g, a, b)
    ensures b in xs
  {
    var nodes := set x | x in xs;
    forall x, y | x in nodes && y in Succ(g, x) ensures y in nodes {
      var i :| 0 <= i < |xs| && xs[i] == x;
    }
    ReachInside(g, nodes, a, b);
  }

  /** The state of the search: a path being visited, and a topological order of what is done. */
  ghost predicate SearchOk(g: Graph, universe: set<Name>, visited: set<Name>, visiting: seq<Name>, sorted: seq<Name>) {
    && visited <= universe
    && NoDuplicates(visiting)
    && (visiting != [] ==> IsPath(g, visiting))
    && TopologicalOrder(g, sorted)
    && (forall n :: n in visited <==> n in visiting || n in sorted)
    && (forall n :: n in visiting ==> n !in sorted)
  }

  lemma Enter(g: Graph, universe: set<Name>, visited: set<Name>, visiting: seq<Name>, sorted: seq<Name>, n: Name)
    requires SearchOk(g, universe, visited, visiting, sorted) && n in universe && n !in visited
    requires visiting != [] ==> n in Succ(g, visiting[|visiting| - 1])
    ensures SearchOk(g, universe, visited + {n}, visiting + [n], sorted)
  {}

  lemma Leave(edges: Edges, universe: set<Name>, visited: set<Name>, visiting: seq<Name>, sorted: seq<Name>, n: Name)
    requires var g := AsGraph(edges); SearchOk(g, universe, visited, visiting + [n], sorted)
    requires forall k :: 0 <= k < |Targets(edges, n)| ==> Targets(edges, n)[k] in sorted
    ensures SearchOk(AsGraph(edges), universe, visited, visiting, sorted + [n])
  {
    var g, path := AsGraph(edges), visiting + [n];
    assert n in path && path[|visiting|] == n;
    forall t | t in Succ(g, n) ensures t in sorted {
      assert t in Targets(edges, n);
    }
    AppendSorted(g, sorted, n);
    forall i, j | 0 <= i < j < |visiting| ensures visiting[i] != visiting[j] {
      assert path[i] != path[j];
    }
    forall i | 0 < i < |visiting| ensures visiting[i] in Succ(g, visiting[i - 1]) {
      assert path[i] in Succ(g, path[i - 1]);
    }
    forall i | 0 <= i < |visiting| ensures visiting[i] !in sorted + [n] {
      assert path[i] in path && path[i] != path[|visiting|];
    }
    forall m ensures m in visited <==> m in visiting || m in sorted + [n] {
      assert m in path <==> m in visiting || m == n;
    }
  }

  lemma VisitedGrows(g: Graph, universe: set<Name>, visiting: seq<Name>,
                     visited: set<Name>, sorted: seq<Name>, visited': set<Name>, sorted': seq<Name>)
    requires SearchOk(g, universe, visited, visiting, sorted) && SearchOk(g, universe, visited', visiting, sorted')
    requires sorted <= sorted'
    ensures visited <= visited'
  {
    forall n | n in visited ensures n in visited' {
      if n in sorted {
        var i :| 0 <= i < |sorted| && sorted[i] == n;
        assert sorted'[i] == n;
      }
    }
  }

  lemma TargetIsSucc(edges: Edges, n: Name, k: nat)
    requires k < |Targets(edges, n)|
    ensures Targets(edges, n)[k] in Succ(AsGraph(edges), n)
  {}

  /** All elements of sorted beyond the first k can be reached from n. */
  ghost predicate ReachedSince(g: Graph, n: Name, sorted: seq<Name>, k: nat) {
    forall i :: k <= i < |sorted| ==> Reach(g, n, sorted[i])
  }

  lemma ReachedThrough(g: Graph, n: Name, t: Name, before: seq<Name>, after: seq<Name>, k: nat)
    requires ReachedSince(g, n, before, k) && before <= after && ReachedSince(g, t, after, |before|) && Reach(g, n, t)
    ensures ReachedSince(g, n, after, k)
  {
    forall i | k <= i < |after| ensures Reach(g, n, after[i]) {
      if i < |before| { assert Reach(g, n, before[i]); } else { ReachTransitive(g, n, t, after[i]); }
    }
  }

  lemma AppendReached(g: Graph, n: Name, sorted: seq<Name>, k: nat)
    requires ReachedSince(g, n, sorted, k)
    ensures ReachedSince(g, n, sorted + [n], k)
  {
    ReachSelf(g, n);
  }

  lemma CycleThrough(g: Graph, n: Name, t: Name)
    requires Reach(g, n, t) && CycleFrom(g, t)
    ensures CycleFrom(g, n)
  {
    var x :| Reach(g, t, x) && Leads(g, x, x);
    ReachTransitive(g, n, t, x);
  }

  /** Every target has been sorted. */
  predicate AllSorted(targets: seq<Name>, sorted: seq<Name>) {
    forall k :: 0 <= k < |targets| ==> targets[k] in sorted
  }

  /** The closure state of sort_dfs. */
  class Sorter {
    const edges: Edges
    ghost const universe: set<Name>
    var visited: set<Name>
    var visiting: seq<Name>
    var sortedNodes: seq<Name>

    ghost function G(): Graph {
      AsGraph(edges)
    }

    ghost predicate Valid()
      reads this
    {
      ClosedUnder(G(), universe) && SearchOk(G(), universe, visited, visiting, sortedNodes)
    }

    constructor (edges: Edges, ghost universe: set<Name>)
      requires ClosedUnder(AsGraph(edges), universe)
      ensures Valid() && this.edges == edges && this.universe == universe
      ensures visited == {} && visiting == [] && sortedNodes == []
    {
      this.edges := edges;
      this.universe := universe;
      visited, visiting, sortedNodes := {}, [], [];
    }

    /** None: the node and all it reaches are sorted. Some: the ResolverError, with the list it prints. */
    method DoNode(node: Name) returns (error: Option<seq<Name>>)
      requires Valid() && node in universe
      requires visiting != [] ==> node in Succ(G(), visiting[|visiting| - 1])
      modifies this
      ensures error.None? ==>
                && Valid() && visiting == old(visiting) && node in sortedNodes
                && old(sortedNodes) <= sortedNodes && ReachedSince(G(), node, sortedNodes, |old(sortedNodes)|)
      ensures node in old(sortedNodes) ==> error.None? && sortedNodes == old(sortedNodes)
      ensures node !in old(visited) && AllSorted(Targets(edges, node), old(sortedNodes)) ==>
                error.None? && sortedNodes == old(sortedNodes) + [node]
      ensures error.Some? ==> CycleFrom(G(), node) && ReportsCycle(G(), error.value)
      decreases universe - visited, 0
    {
      ghost var g := G();
      if node in visiting {
        NodeInVisiting(g, visiting, node);
        return Some(visiting);
      }
      if node in visited {
        return None;
      }
      Enter(g, universe, visited, visiting, sortedNodes, node);
      visited := visited + {node};
      visiting := visiting + [node];
      assert universe - visited < universe - old(visited) by { assert node in universe - old(visited); }
      error := DoTargets(node);
      if error.None? {
        Leave(edges, universe, visited, old(visiting), sortedNodes, node);
        AppendReached(g, node, sortedNodes, |old(sortedNodes)|);
        assert visiting[..|visiting| - 1] == old(visiting);
        visiting := visiting[..|visiting| - 1];
        sortedNodes := sortedNodes + [node];
      }
    }

    /** The loop of do_node over the targets of the node just entered. */
    method DoTargets(node: Name) returns (error: Option<seq<Name>>)
      requires Valid() && visiting != [] && visiting[|visiting| - 1] == node && node in universe
      modifies this
      ensures error.None? ==>
                && Valid() && visiting == old(visiting) && old(sortedNodes) <= sortedNodes
                && ReachedSince(G(), node, sortedNodes, |old(sortedNodes)|)
                && AllSorted(Targets(edges, node), sortedNodes)
      ensures AllSorted(Targets(edges, node), old(sortedNodes)) ==> error.None? && sortedNodes == old(sortedNodes)
      ensures error.Some? ==> CycleFrom(G(), node) && ReportsCycle(G(), error.value)
      decreases universe - visited, 1
    {
      ghost var g := G();
      var targets := Targets(edges, node);
      for k := 0 to |targets|
        invariant Valid() && visiting == old(visiting) && old(sortedNodes) <= sortedNodes
        invariant ReachedSince(g, node, sortedNodes, |old(sortedNodes)|)
        invariant forall j :: 0 <= j < k ==> targets[j] in sortedNodes
        invariant AllSorted(targets, old(sortedNodes)) ==> sortedNodes == old(sortedNodes)
      {
        ghost var before := sortedNodes;
        var t := targets[k];
        TargetIsSucc(edges, node, k);
        ReachEdge(g, node, t);
        VisitedGrows(g, universe, visiting, old(visited), old(sortedNodes), visited, sortedNodes);
        error := DoNode(t);
        if error.Some? {
          CycleThrough(g, node, t);
          return;
        }
        ReachedThrough(g, node, t, before, sortedNodes, |old(sortedNodes)|);
      }
      error := None;
    }
  }

  lemma NodeInVisiting(g: Graph, visiting: seq<Name>, node: Name)
    requires IsPath(g, visiting) && node in visiting && node in Succ(g, visiting[|visiting| - 1])
    ensures CycleFrom(g, node) && ReportsCycle(g, visiting)
  {
    var k :| 0 <= k < |visiting| && visiting[k] == node;
    var last := visiting[|visiting| - 1];
    assert PathFromTo(g, visiting[k..], node, last);
    ReachThenEdge(g, node, last, node);
    ReachSelf(g, node);
  }

  lemma AppendSorted(g: Graph, xs: seq<Name>, n: Name)
    requires TopologicalOrder(g, xs) && n !in xs && forall t :: t in Succ(g, n) ==> t in xs
    ensures TopologicalOrder(g, xs + [n])
  {
    var ys := xs + [n];
    forall i, t | 0 <= i < |ys| && t in Succ(g, ys[i]) ensures t in ys[..i] {
      if i < |xs| { assert ys[..i] == xs[..i]; } else { assert ys[..i] == xs; }
    }
  }

  lemma PrefixGrows(xs: seq<Name>, k: nat)
    requires k < |xs|
    ensures xs[..k + 1] == xs[..k] + [xs[k]]
  {}

  /** In a sequence already in order, the targets of an element come before it. */
  lemma TargetsEarlier(edges: Edges, xs: seq<Name>, k: nat)
    requires TopologicalOrder(AsGraph(edges), xs) && k < |xs|
    ensures AllSorted(Targets(edges, xs[k]), xs[..k])
  {
    forall i | 0 <= i < |Targets(edges, xs[k])| ensures Targets(edges, xs[k])[i] in xs[..k] {
      TargetIsSucc(edges, xs[k], i);
    }
  }

  /**
   Some(order) is the returned list, None the ResolverError. The error is raised exactly when a cycle can be
   reached from the nodes; otherwise the list holds exactly the reachable nodes, targets before sources. If the
   sorted nodes are in such an order already, they are returned as they are.
   */
  method SortDfs(nodes: set<Name>, edges: Edges) returns (order: Option<seq<Name>>)
    ensures order.None? <==> CycleFromAny(AsGraph(edges), nodes)
    ensures order.Some? ==> TopologicalOrder(AsGraph(edges), order.value)
    ensures order.Some? ==>
              forall x :: x in order.value <==> ReachableFrom(AsGraph(edges), nodes, x)
    ensures forall names :: Ascending(names) && SameNames(names, nodes) && TopologicalOrder(AsGraph(edges), names) ==>
              order == Some(names)
  {
    var names := Sorted(nodes);
    order := SortInTurn(names, nodes, edges);
    forall given | Ascending(given) && SameNames(given, nodes) && TopologicalOrder(AsGraph(edges), given)
      ensures order == Some(given)
    {
      AscendingUnique(given, names);
    }
  }

  /** The loop of sort_dfs over the nodes in a given order. */
  method SortInTurn(names: seq<Name>, ghost nodes: set<Name>, edges: Edges) returns (order: Option<seq<Name>>)
    requires SameNames(names, nodes)
    ensures order.None? <==> CycleFromAny(AsGraph(edges), nodes)
    ensures order.Some? ==> TopologicalOrder(AsGraph(edges), order.value)
    ensures order.Some? ==>
              forall x :: x in order.value <==> ReachableFrom(AsGraph(edges), nodes, x)
    ensures TopologicalOrder(AsGraph(edges), names) ==> order == Some(names)
  {
    ghost var g := AsGraph(edges);
    ghost var universe := Universe(names, edges);
    ghost var ordered := TopologicalOrder(g, names);
    var sorter := new Sorter(edges, universe);
    for k := 0 to |names|
      invariant sorter.Valid() && sorter.visiting == [] && sorter.edges == edges && sorter.universe == universe
      invariant fresh(sorter)
      invariant forall n :: n in names[..k] ==> n in sorter.sortedNodes
      invariant forall x :: x in sorter.sortedNodes ==> ReachableFrom(g, nodes, x)
      invariant ordered ==> sorter.sortedNodes == names[..k]
    {
      ghost var before := sorter.sortedNodes;
      PrefixGrows(names, k);
      if ordered {
        TargetsEarlier(edges, names, k);
        assert names[k] !in names[..k];
      }
      var error := sorter.DoNode(names[k]);
      if error.Some? {
        assert names[k] in nodes && CycleFrom(g, names[k]);
        return None;
      }
      forall x | x in sorter.sortedNodes ensures ReachableFrom(g, nodes, x) {
        var i :| 0 <= i < |sorter.sortedNodes| && sorter.sortedNodes[i] == x;
        if i < |before| {
          assert x in before;
        } else {
          assert names[k] in nodes && Reach(g, names[k], x);
        }
      }
    }
    assert names[..|names|] == names;
    ghost var xs := sorter.sortedNodes;
    forall n | n in nodes ensures !CycleFrom(g, n) { OrderedMeansNoCycle(g, xs, n); }
    forall n, x | n in nodes && Reach(g, n, x) ensures x in xs { ReachStaysBefore(g, xs, n, x); }
    order := Some(sorter.sortedNodes);
  }

  ghost function Universe(nodes: seq<Name>, edges: Edges): (u: set<Name>)
    ensures ClosedUnder(AsGraph(edges), u)
    ensures forall n :: n in nodes ==> n in u
  {
    (set n | n in nodes) + (set n, t | n in edges && t in edges[n] :: t)
  }
}
