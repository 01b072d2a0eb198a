/**
 Finite directed graphs over component and schema names: paths, reachability and acyclicity.
 Both the component dependency graph and the schema reference graph are instances.
 */
module Digraph {

  type Name = string

  /** Successor sets. A name outside the domain has no successors. */
  type Graph = map<Name, set<Name>>

  function Succ(g: Graph, n: Name): set<Name> {
    if n in g then g[n] else {}
  }

  function WithEdge(g: Graph, from: Name, to: Name): Graph {
    g[from := Succ(g, from) + {to}]
  }

  predicate IsPath(g: Graph, p: seq<Name>) {
    && |p| > 0
    && forall i :: 0 < i < |p| ==> p[i] in Succ(g, p[i - 1])
  }

  predicate PathFromTo(g: Graph, p: seq<Name>, a: Name, b: Name) {
    IsPath(g, p) && p[0] == a && p[|p| - 1] == b
  }

  /** b can be reached from a in zero or more steps. */
  ghost predicate Reach(g: Graph, a: Name, b: Name) {
    exists p :: PathFromTo(g, p, a, b)
  }

  /** b can be reached from a in one or more steps. */
  ghost predicate Leads(g: Graph, a: Name, b: Name) {
    exists m :: m in Succ(g, a) && Reach(g, m, b)
  }

  ghost predicate Acyclic(g: Graph) {
    forall a :: !Leads(g, a, a)
  }

  /** h holds exactly the reversed edges of g. */
  ghost predicate Inverse(g: Graph, h: Graph) {
    forall a, b :: b in Succ(g, a) <==> a in Succ(h, b)
  }

  ghost predicate ClosedUnder(g: Graph, nodes: set<Name>) {
    forall a, b :: a in nodes && b in Succ(g, a) ==> b in nodes
  }

  lemma ReachSelf(g: Graph, a: Name)
    ensures Reach(g, a, a)
  {
    assert PathFromTo(g, [a], a, a);
  }

  lemma ReachEdge(g: Graph, a: Name, b: Name)
    requires b in Succ(g, a)
    ensures Reach(g, a, b) && Leads(g, a, b)
  {
    assert PathFromTo(g, [a, b], a, b);
    ReachSelf(g, b);
  }

  lemma JoinPaths(g: Graph, p: seq<Name>, q: seq<Name>)
    requires IsPath(g, p) && IsPath(g, q) && p[|p| - 1] == q[0]
    ensures PathFromTo(g, p + q[1..], p[0], q[|q| - 1])
  {
    var r := p + q[1..];
    forall i | 0 < i < |r| ensures r[i] in Succ(g, r[i - 1]) {
      if i >= |p| {
        assert r[i] == q[i - |p| + 1];
        assert r[i - 1] == q[i - |p|];
      }
    }
  }

  lemma ReachTransitive(g: Graph, a: Name, b: Name, c: Name)
    requires Reach(g, a, b) && Reach(g, b, c)
    ensures Reach(g, a, c)
  {
    var p :| PathFromTo(g, p, a, b);
    var q :| PathFromTo(g, q, b, c);
    JoinPaths(g, p, q);
  }

  /** Unrolls a path at its first step. */
  lemma ReachSplit(g: Graph, a: Name, b: Name)
    ensures Reach(g, a, b) <==> a == b || Leads(g, a, b)
  {
    if Reach(g, a, b) && a != b {
      var p :| PathFromTo(g, p, a, b);
      assert PathFromTo(g, p[1..], p[1], b);
    }
    if a == b {
      ReachSelf(g, a);
    }
    if Leads(g, a, b) {
      LeadsReach(g, a, b);
    }
  }

  lemma LeadsReach(g: Graph, a: Name, b: Name)
    requires Leads(g, a, b)
    ensures Reach(g, a, b)
  {
    var m :| m in Succ(g, a) && Reach(g, m, b);
    ReachEdge(g, a, m);
    ReachTransitive(g, a, m, b);
  }

  lemma ReachThenEdge(g: Graph, a: Name, b: Name, c: Name)
    requires Reach(g, a, b) && c in Succ(g, b)
    ensures Leads(g, a, c)
  {
    ReachEdge(g, b, c);
    ReachSplit(g, a, b);
    if a != b {
      var m :| m in Succ(g, a) && Reach(g, m, b);
      ReachTransitive(g, m, b, c);
    }
  }

  /** Whatever is reachable from a closed set is inside it. */
  lemma {:induction false} ReachInside(g: Graph, nodes: set<Name>, a: Name, b: Name)
    requires ClosedUnder(g, nodes) && a in nodes && Reach(g, a, b)
    ensures b in nodes
  {
    var p :| PathFromTo(g, p, a, b);
    var i := 0;
    while i < |p| - 1
      invariant 0 <= i < |p| && p[i] in nodes
    {
      assert p[i + 1] in Succ(g, p[i]);
      i := i + 1;
    }
  }

  lemma {:induction false} ReversePath(g: Graph, h: Graph, p: seq<Name>)
    requires Inverse(g, h) && IsPath(g, p)
    ensures Reach(h, p[|p| - 1], p[0])
  {
    var q := seq(|p|, i requires 0 <= i < |p| => p[|p| - 1 - i]);
    forall i | 0 < i < |q| ensures q[i] in Succ(h, q[i - 1]) {
      assert p[|p| - i] in Succ(g, p[|p| - i - 1]);
    }
    assert PathFromTo(h, q, p[|p| - 1], p[0]);
  }

  lemma ReachInverse(g: Graph, h: Graph, a: Name, b: Name)
    requires Inverse(g, h)
    ensures Reach(g, a, b) <==> Reach(h, b, a)
  {
    if Reach(g, a, b) {
      var p :| PathFromTo(g, p, a, b);
      ReversePath(g, h, p);
    }
    if Reach(h, b, a) {
      var p :| PathFromTo(h, p, b, a);
      ReversePath(h, g, p);
    }
  }

  lemma AcyclicInverse(g: Graph, h: Graph)
    requires Inverse(g, h) && Acyclic(g)
    ensures Acyclic(h)
  {
    forall a ensures !Leads(h, a, a) {
      if Leads(h, a, a) {
        var m :| m in Succ(h, a) && Reach(h, m, a);
        ReachInverse(g, h, a, m);
        ReachThenEdge(g, a, m, a);
        assert false;
      }
    }
  }

  lemma EdgeKept(g: Graph, from: Name, to: Name)
    requires to in Succ(g, from)
    ensures WithEdge(g, from, to) == g
  {
    assert Succ(g, from) + {to} == Succ(g, from);
  }

  lemma InverseWithEdge(g: Graph, h: Graph, from: Name, to: Name)
    requires Inverse(g, h)
    ensures Inverse(WithEdge(g, from, to), WithEdge(h, to, from))
  {
    var g', h' := WithEdge(g, from, to), WithEdge(h, to, from);
    forall a, b ensures b in Succ(g', a) <==> a in Succ(h', b) {
      assert b in Succ(g, a) <==> a in Succ(h, b);
    }
  }

  /** What one more edge makes reachable. */
  lemma ReachWithEdge(g: Graph, from: Name, to: Name, a: Name, b: Name)
    ensures Reach(WithEdge(g, from, to), a, b) <==>
            Reach(g, a, b) || (Reach(g, a, from) && Reach(g, to, b))
  {
    var h := WithEdge(g, from, to);
    if Reach(h, a, b) {
      var p :| PathFromTo(h, p, a, b);
      PathWithEdge(g, from, to, p);
    }
    if Reach(g, a, b) {
      ReachMonotone(g, h, a, b);
    }
    if Reach(g, a, from) && Reach(g, to, b) {
      ReachMonotone(g, h, a, from);
      ReachMonotone(g, h, to, b);
      ReachEdge(h, from, to);
      ReachTransitive(h, a, from, to);
      ReachTransitive(h, a, to, b);
    }
  }

  lemma ReachMonotone(g: Graph, h: Graph, a: Name, b: Name)
    requires forall x :: Succ(g, x) <= Succ(h, x)
    requires Reach(g, a, b)
    ensures Reach(h, a, b)
  {
    var p :| PathFromTo(g, p, a, b);
    assert PathFromTo(h, p, a, b);
  }

  lemma {:induction false} PathWithEdge(g: Graph, from: Name, to: Name, p: seq<Name>)
    requires IsPath(WithEdge(g, from, to), p)
    ensures var a, b := p[0], p[|p| - 1];
            Reach(g, a, b) || (Reach(g, a, from) && Reach(g, to, b))
  {
    var a := p[0];
    if |p| == 1 {
      ReachSelf(g, a);
    } else {
      PathWithEdge(g, from, to, p[1..]);
      var m, b := p[1], p[|p| - 1];
      ReachSelf(g, a);
      if m in Succ(g, a) {
        ReachEdge(g, a, m);
        if Reach(g, m, b) { ReachTransitive(g, a, m, b); } else { ReachTransitive(g, a, m, from); }
      }
    }
  }

  /** An edge keeps an acyclic graph acyclic exactly when its target cannot already reach its source. */
  lemma AcyclicWithEdge(g: Graph, from: Name, to: Name)
    requires Acyclic(g)
    ensures Acyclic(WithEdge(g, from, to)) <==> !Reach(g, to, from)
  {
    var h := WithEdge(g, from, to);
    if Reach(g, to, from) {
      ReachMonotone(g, h, to, from);
      assert Leads(h, from, from);
    } else {
      forall a ensures !Leads(h, a, a) {
        if Leads(h, a, a) {
          var m :| m in Succ(h, a) && Reach(h, m, a);
          ReachWithEdge(g, from, to, m, a);
          if m in Succ(g, a) {
            assert !Leads(g, a, a);
            ReachEdge(g, a, m);
            ReachTransitive(g, to, a, m);
            ReachTransitive(g, to, m, from);
          }
          assert false;
        }
      }
    }
  }

  /** A nonempty finite set of an acyclic graph has a member with no successor in the set. */
  lemma {:induction false} MinimalElement(g: Graph, nodes: set<Name>) returns (w: Name)
    requires Acyclic(g) && nodes != {}
    ensures w in nodes && Succ(g, w) !! nodes
    decreases nodes
  {
    w :| w in nodes;
    if !(Succ(g, w) !! nodes) {
      ghost var below := set x | x in nodes && Leads(g, w, x);
      var m :| m in Succ(g, w) && m in nodes;
      ReachEdge(g, w, m);
      assert m in below && w !in below;
      var top := w;
      w := MinimalElement(g, below);
      LeadsReach(g, top, w);
      forall x | x in Succ(g, w) && x in nodes ensures x in below {
        ReachThenEdge(g, top, w, x);
      }
    }
  }
}
