/** Every acyclic dependency graph is the outcome of some load; with it the order of the loaded pass is settled per graph. */
module LifecycleWitness {
  import opened Digraph
  import opened Lifecycle
  import opened LifecycleInvariant
  import opened LifecycleTheorems
  import opened LifecycleOrder

  /** A graph over the components without cycles. */
  ghost predicate LoadableGraph(names: set<Name>, g: Graph) {
    g.Keys == names && ClosedUnder(g, names) && Acyclic(g)
  }

  // ----- Building one component after the other -----

  /** A component that has been built with its dependencies in g, or not begun. */
  predicate InPlace(s: State, g: Graph, done: set<Name>, n: Name)
    requires n in s.comps
  {
    if n in done then s.comps[n].build == Built && s.comps[n].component && !s.comps[n].cancelled && Succ(s.itDependsOn, n) == Succ(g, n)
    else s.comps[n] == FRESH && Succ(s.itDependsOn, n) == {}
  }

  predicate Frame(s: State, names: set<Name>) {
    s.main == Loading && s.comps.Keys == names && s.itDependsOn.Keys == names
  }

  /** The components of done are built and the others not begun. */
  predicate PartlyLoaded(s: State, names: set<Name>, g: Graph, done: set<Name>) {
    Frame(s, names) && forall n :: n in names ==> InPlace(s, g, done, n)
  }

  /** In addition c is being constructed and has found the components of deps. */
  predicate Halfway(s: State, names: set<Name>, g: Graph, done: set<Name>, c: Name, deps: set<Name>) {
    && Frame(s, names) && (forall n :: n in names && n != c ==> InPlace(s, g, done, n))
    && c in names && s.comps[c].build == Constructing && !s.comps[c].cancelled && Succ(s.itDependsOn, c) == deps
  }

  ghost predicate CanBuild(names: set<Name>, g: Graph, done: set<Name>, c: Name) {
    done <= names && ClosedUnder(g, done) && c in names && c !in done && Succ(g, c) <= done
  }

  /** Some run leads from s to t. */
  ghost predicate CanBecome(s: State, t: State) {
    exists steps :: Run(s, steps, t)
  }

  lemma Stay(s: State)
    ensures CanBecome(s, s)
  {
    assert Run(s, [], s);
  }

  lemma OneStep(s: State, step: Step)
    requires Enabled(s, step)
    ensures CanBecome(s, Apply(s, step))
  {
    assert Run(Apply(s, step), [], Apply(s, step));
    assert Run(s, [step], Apply(s, step));
  }

  lemma AndThen(s: State, u: State, t: State)
    requires CanBecome(s, u) && CanBecome(u, t)
    ensures CanBecome(s, t)
  {
    var first :| Run(s, first, u);
    var rest :| Run(u, rest, t);
    RunJoin(s, first, u, rest, t);
  }

  lemma StartOne(s: State, names: set<Name>, g: Graph, done: set<Name>, c: Name) returns (t: State)
    requires CanBuild(names, g, done, c) && PartlyLoaded(s, names, g, done)
    ensures CanBecome(s, t) && Halfway(t, names, g, done, c, {})
  {
    assert InPlace(s, g, done, c);
    t := BuildApply(s, c, StartConstructor);
    OneStep(s, BuildS(c, StartConstructor));
    forall n | n in names && n != c ensures InPlace(t, g, done, n) {
      assert InPlace(s, g, done, n);
    }
  }

  /** A component not built yet cannot be reached from the built ones, so looking one up closes no cycle. */
  lemma NoCycle(s: State, names: set<Name>, g: Graph, done: set<Name>, c: Name, deps: set<Name>, d: Name)
    requires CanBuild(names, g, done, c) && Halfway(s, names, g, done, c, deps) && d in done
    ensures !ClosesCycle(s, c, d)
  {
    forall a, b | a in done && b in Succ(s.itDependsOn, a) ensures b in done {
      assert InPlace(s, g, done, a);
    }
    if Reach(s.itDependsOn, d, c) {
      ReachInside(s.itDependsOn, done, d, c);
    }
  }

  lemma FindOne(s: State, names: set<Name>, g: Graph, done: set<Name>, c: Name, deps: set<Name>, d: Name)
    returns (t: State)
    requires CanBuild(names, g, done, c) && Halfway(s, names, g, done, c, deps) && d in done
    ensures CanBecome(s, t) && Halfway(t, names, g, done, c, deps + {d})
  {
    NoCycle(s, names, g, done, c, deps, d);
    assert InPlace(s, g, done, d);
    var u := BuildApply(s, c, Find(d));
    assert u.comps[d] == s.comps[d];
    t := BuildApply(u, c, Peek);
    OneStep(s, BuildS(c, Find(d)));
    OneStep(u, BuildS(c, Peek));
    AndThen(s, u, t);
    forall n | n in names && n != c ensures InPlace(t, g, done, n) {
      assert InPlace(s, g, done, n);
    }
  }

  lemma {:induction false} FindAll(s: State, names: set<Name>, g: Graph, done: set<Name>, c: Name, deps: set<Name>, todo: set<Name>)
    returns (t: State)
    requires CanBuild(names, g, done, c) && Halfway(s, names, g, done, c, deps) && todo <= done
    ensures CanBecome(s, t) && Halfway(t, names, g, done, c, deps + todo)
    decreases todo
  {
    if todo == {} {
      t := s;
      Stay(s);
      assert deps + todo == deps;
    } else {
      var d :| d in todo;
      var more, rest := deps + {d}, todo - {d};
      assert more + rest == deps + todo;
      var u := FindOne(s, names, g, done, c, deps, d);
      t := FindAll(u, names, g, done, c, more, rest);
      AndThen(s, u, t);
    }
  }

  lemma FinishOne(s: State, names: set<Name>, g: Graph, done: set<Name>, c: Name) returns (t: State)
    requires CanBuild(names, g, done, c) && Halfway(s, names, g, done, c, Succ(g, c))
    ensures CanBecome(s, t) && PartlyLoaded(t, names, g, done + {c})
  {
    t := BuildApply(s, c, SetComponent);
    OneStep(s, BuildS(c, SetComponent));
    forall n | n in names ensures InPlace(t, g, done + {c}, n) {
      assert n != c ==> InPlace(s, g, done, n);
    }
  }

  lemma BuildOne(s: State, names: set<Name>, g: Graph, done: set<Name>, c: Name) returns (t: State)
    requires CanBuild(names, g, done, c) && PartlyLoaded(s, names, g, done)
    ensures CanBecome(s, t) && PartlyLoaded(t, names, g, done + {c})
  {
    var u := StartOne(s, names, g, done, c);
    var v := FindAll(u, names, g, done, c, {}, Succ(g, c));
    assert {} + Succ(g, c) == Succ(g, c);
    t := FinishOne(v, names, g, done, c);
    AndThen(s, u, v);
    AndThen(s, v, t);
  }

  lemma {:induction false} BuildAll(s: State, names: set<Name>, g: Graph, done: set<Name>) returns (t: State)
    requires LoadableGraph(names, g) && done <= names && ClosedUnder(g, done) && PartlyLoaded(s, names, g, done)
    ensures CanBecome(s, t) && PartlyLoaded(t, names, g, names)
    decreases names - done
  {
    if names - done == {} {
      t := s;
      Stay(s);
      forall n | n in names ensures n in done {
        assert n !in names - done;
      }
      assert done == names;
    } else {
      var c := MinimalElement(g, names - done);
      assert Succ(g, c) <= done;
      var u := BuildOne(s, names, g, done, c);
      t := BuildAll(u, names, g, done + {c});
      AndThen(s, u, t);
    }
  }

  // ----- Starting the pass -----

  predicate ReadyForPass(s: State, names: set<Name>, g: Graph) {
    s.comps.Keys == names && s.itDependsOn == g
  }

  lemma {:induction false} ResetAll(s: State, names: set<Name>, g: Graph) returns (t: State)
    requires ReadyForPass(s, names, g) && s.main.Preparing? && s.main.pass == Pass.Loaded && s.main.todo <= names
    ensures CanBecome(s, t) && ReadyForPass(t, names, g) && t.main == Preparing(Pass.Loaded, {})
    decreases if s.main.Preparing? then s.main.todo else {}
  {
    if s.main.todo == {} {
      t := s;
      Stay(s);
    } else {
      var c :| c in s.main.todo;
      var u := MainApply(s, ResetFlag(c));
      OneStep(s, MainS(ResetFlag(c)));
      t := ResetAll(u, names, g);
      AndThen(s, u, t);
    }
  }

  lemma LoadSucceeds(s: State, names: set<Name>, g: Graph) returns (t: State)
    requires g.Keys == names && PartlyLoaded(s, names, g, names)
    ensures CanBecome(s, t) && ReadyForPass(t, names, g) && t.main == Preparing(Pass.Loaded, names)
  {
    forall n | n in names ensures s.comps[n].build == Built && Succ(s.itDependsOn, n) == Succ(g, n) {
      assert InPlace(s, g, names, n);
    }
    forall n | n in names ensures s.itDependsOn[n] == g[n] {
      assert Succ(s.itDependsOn, n) == Succ(g, n);
    }
    assert s.itDependsOn == g;
    t := MainApply(s, LoadSucceeded);
    OneStep(s, MainS(LoadSucceeded));
  }

  /** Any acyclic graph over the components is the graph of some service at the start of its loaded pass. */
  lemma GraphReachable(names: set<Name>, g: Graph) returns (s: State)
    requires LoadableGraph(names, g)
    ensures Reachable(names, s) && AtStartOfLoadedPass(s) && s.itDependsOn == g && s.comps.Keys == names
  {
    var init := Init(names);
    forall n | n in names ensures InPlace(init, g, {}, n) {}
    var a := BuildAll(init, names, g, {});
    var b := LoadSucceeds(a, names, g);
    var c := ResetAll(b, names, g);
    s := PassStarts(c, names, g);
    AndThen(init, a, b);
    AndThen(init, b, c);
    AndThen(init, c, s);
  }

  lemma PassStarts(s: State, names: set<Name>, g: Graph) returns (t: State)
    requires ReadyForPass(s, names, g) && s.main == Preparing(Pass.Loaded, {})
    ensures CanBecome(s, t) && AtStartOfLoadedPass(t) && ReadyForPass(t, names, g)
  {
    t := MainApply(s, StartPass);
    OneStep(s, MainS(StartPass));
  }

  // ----- The order, graph by graph -----

  ghost predicate OrderedWith(names: set<Name>, g: Graph, t: State) {
    Reachable(names, t) && t.main == Passing(Pass.Loaded) && t.itDependsOn == g ==> Ordered(t)
  }

  lemma DisorderFor(names: set<Name>, g: Graph) returns (t: State)
    requires LoadableGraph(names, g) && !Funnel(g)
    ensures Reachable(names, t) && t.main == Passing(Pass.Loaded) && t.itDependsOn == g && !Ordered(t)
  {
    var s := GraphReachable(names, g);
    var steps;
    steps, t := DisorderReachable(names, s);
    ReachableInv(names, s);
    LateRunKeepsGraph(s, steps, t);
    AndThen(Init(names), s, t);
  }

  /**
   For every acyclic dependency graph: all loaded passes of all services with that graph are ordered, handlers
   that fail included, exactly when the graph is a funnel.
   */
  lemma OrderExactlyForFunnels(names: set<Name>, g: Graph)
    requires LoadableGraph(names, g)
    ensures (forall t :: OrderedWith(names, g, t)) <==> Funnel(g)
  {
    if Funnel(g) {
      forall t ensures OrderedWith(names, g, t) {
        if Reachable(names, t) && t.main == Passing(Pass.Loaded) && t.itDependsOn == g {
          PassOrder(names, t);
        }
      }
    } else {
      var t := DisorderFor(names, g);
      assert !OrderedWith(names, g, t);
    }
  }

  /** The smallest case: a depends on b, and w on nothing. A failing w lets a start before b is over. */
  lemma SmallestDisorder(a: Name, b: Name, w: Name) returns (t: State)
    requires a != b && b != w && a != w
    ensures Reachable({a, b, w}, t) && t.main == Passing(Pass.Loaded) && !Ordered(t)
    ensures t.itDependsOn == map[a := {b}, b := {}, w := {}]
  {
    var g: Graph := map[a := {b}, b := {}, w := {}];
    forall x ensures !Leads(g, x, x) {
      if Leads(g, x, x) {
        var m :| m in Succ(g, x) && Reach(g, m, x);
        ReachInside(g, {b}, b, x);
      }
    }
    assert b in Succ(g, a);
    if Reach(g, w, b) {
      ReachInside(g, {w}, w, b);
    }
    t := DisorderFor({a, b, w}, g);
  }
}
