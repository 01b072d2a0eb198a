/**
 When does a failing OnAllComponentsLoaded break the order of the loaded pass? WaitStage returns normally
 to a waiter released by the cancellation flag, so that waiter goes on to call its handler. Order survives
 every possible failure exactly when the dependency graph is a funnel.
 */
module LifecycleOrder {
  import opened Digraph
  import opened Lifecycle
  import opened LifecycleInvariant
  import opened LifecycleTheorems

  predicate AtStartOfLoadedPass(s: State) {
    && s.main == Passing(Loaded) && !s.switchingCancelled
    && forall c :: c in s.comps ==> s.comps[c].task == Idle && !s.comps[c].failed
  }

  lemma {:induction false} RunJoin(a: State, xs: seq<Step>, b: State, ys: seq<Step>, c: State)
    requires Run(a, xs, b) && Run(b, ys, c)
    ensures Run(a, xs + ys, c)
    decreases |xs|
  {
    if xs == [] {
      assert xs + ys == ys;
    } else {
      RunJoin(Apply(a, xs[0]), xs[1..], b, ys, c);
      assert (xs + ys)[1..] == xs[1..] + ys;
    }
  }

  /** The tasks of s and t are in the same place, except for that of w; flags may differ. */
  predicate OnlyTaskOf(w: Name, s: State, t: State) {
    && t.main == s.main && t.itDependsOn == s.itDependsOn && t.comps.Keys == s.comps.Keys
    && forall x :: x in s.comps && x != w ==> t.comps[x].task == s.comps[x].task
  }

  /** One more step of the task of w. */
  lemma Extend(s: State, steps: seq<Step>, t: State, w: Name, step: TaskStep)
    requires Run(s, steps, t) && OnlyTaskOf(w, s, t) && TaskEnabled(t, w, step)
    ensures var u := TaskApply(t, w, step);
            && Run(s, steps + [TaskS(w, step)], u) && OnlyTaskOf(w, s, u) && u.comps[w] == TaskNext(t, w, step)
            && u.switchingCancelled == (t.switchingCancelled || step == ExchangeCancelled)
            && forall x :: x in t.comps && (t.comps[x].cancelled || step == FlagOther(x)) ==> u.comps[x].cancelled
  {
    var u := TaskApply(t, w, step);
    assert Run(u, [], u) && Apply(t, TaskS(w, step)) == u;
    assert Run(t, [TaskS(w, step)], u);
    RunJoin(s, steps, t, [TaskS(w, step)], u);
    TaskStepFrame(t, w, step);
    forall x | x in t.comps ensures x != w ==> u.comps[x].task == t.comps[x].task {
      TaskStepOthers(t, w, step, x);
    }
  }

  /** The first component to fail: it has no dependencies at all. */
  lemma Culprit(g: Graph, names: set<Name>, d: Name, x: Name) returns (w: Name)
    requires Acyclic(g) && ClosedUnder(g, names) && x in names && x != d && !Reach(g, x, d)
    ensures w in names && w != d && !Reach(g, w, d) && Succ(g, w) == {}
  {
    var apart := set y | y in names && y != d && !Reach(g, y, d);
    assert x in apart;
    w := MinimalElement(g, apart);
    if Succ(g, w) != {} {
      var m :| m in Succ(g, w);
      ReachEdge(g, w, m);
      if Reach(g, m, d) { ReachTransitive(g, w, m, d); }
    }
  }

  /** The run up to the raised flags: w starts, throws, and CancelComponentLifetimeStageSwitching flags everybody. */
  lemma FailAndFlag(s: State, w: Name) returns (steps: seq<Step>, t: State)
    requires s.main == Passing(Loaded) && w in s.comps && s.comps[w].task == Idle && !s.switchingCancelled
    requires Succ(s.itDependsOn, w) == {}
    ensures Run(s, steps, t) && OnlyTaskOf(w, s, t)
    ensures forall x :: x in t.comps ==> t.comps[x].cancelled
  {
    steps, t := Throw(s, w);
    Extend(s, steps, t, w, ExchangeCancelled);
    steps, t := FlagAll(s, steps + [TaskS(w, ExchangeCancelled)], TaskApply(t, w, ExchangeCancelled), w);
  }

  lemma FlagOne(s: State, steps: seq<Step>, t: State, w: Name, todo: set<Name>, d: Name)
    requires s.main == Passing(Loaded) && Run(s, steps, t) && OnlyTaskOf(w, s, t) && w in t.comps
    requires t.comps[w].task == Flagging(todo) && d in todo && todo <= t.comps.Keys
    requires forall x :: x in t.comps ==> x in todo || t.comps[x].cancelled
    ensures TaskEnabled(t, w, FlagOther(d))
    ensures var u := TaskApply(t, w, FlagOther(d));
            && Run(s, steps + [TaskS(w, FlagOther(d))], u) && OnlyTaskOf(w, s, u) && u.comps.Keys == t.comps.Keys
            && u.comps[w].task == Flagging(todo - {d})
            && forall x :: x in u.comps ==> x in todo - {d} || u.comps[x].cancelled
  {
    Extend(s, steps, t, w, FlagOther(d));
  }

  lemma FlagAll(s: State, before: seq<Step>, u: State, w: Name) returns (steps: seq<Step>, t: State)
    requires s.main == Passing(Loaded) && Run(s, before, u) && OnlyTaskOf(w, s, u)
    requires w in u.comps && u.comps[w].task == Flagging(u.comps.Keys)
    ensures Run(s, steps, t) && OnlyTaskOf(w, s, t)
    ensures forall x :: x in t.comps ==> t.comps[x].cancelled
  {
    steps, t := before, u;
    var todo := u.comps.Keys;
    while todo != {}
      invariant Run(s, steps, t) && OnlyTaskOf(w, s, t) && w in t.comps && t.comps[w].task == Flagging(todo)
      invariant todo <= t.comps.Keys && forall x :: x in t.comps ==> x in todo || t.comps[x].cancelled
      decreases todo
    {
      var d :| d in todo;
      FlagOne(s, steps, t, w, todo, d);
      steps, t, todo := steps + [TaskS(w, FlagOther(d))], TaskApply(t, w, FlagOther(d)), todo - {d};
    }
  }

  lemma Throw(s: State, w: Name) returns (steps: seq<Step>, t: State)
    requires s.main == Passing(Loaded) && w in s.comps && s.comps[w].task == Idle && !s.switchingCancelled
    requires Succ(s.itDependsOn, w) == {}
    ensures Run(s, steps, t) && OnlyTaskOf(w, s, t) && t.comps[w].task == Thrown && !t.switchingCancelled
  {
    Extend(s, [], s, w, StartTask);
    steps, t := [] + [TaskS(w, StartTask)], TaskApply(s, w, StartTask);
    Extend(s, steps, t, w, StartHandler);
    steps, t := steps + [TaskS(w, StartHandler)], TaskApply(t, w, StartHandler);
    Extend(s, steps, t, w, HandlerThrows);
    steps, t := steps + [TaskS(w, HandlerThrows)], TaskApply(t, w, HandlerThrows);
  }

  /** With every flag raised, c starts its handler although its dependencies never ran. */
  lemma StartEarly(s: State, c: Name) returns (steps: seq<Step>, t: State)
    requires s.main == Passing(Loaded) && c in s.comps && s.comps[c].task == Idle
    requires Succ(s.itDependsOn, c) <= s.comps.Keys
    requires forall x :: x in s.comps ==> s.comps[x].cancelled
    ensures Run(s, steps, t) && OnlyTaskOf(c, s, t) && t.comps[c].task == Handling
  {
    Extend(s, [], s, c, StartTask);
    steps, t := [] + [TaskS(c, StartTask)], TaskApply(s, c, StartTask);
    var todo := Succ(s.itDependsOn, c);
    while todo != {}
      invariant Run(s, steps, t) && OnlyTaskOf(c, s, t) && c in t.comps && t.comps[c].task == Awaiting(todo)
      invariant todo <= t.comps.Keys && forall x :: x in t.comps ==> t.comps[x].cancelled
      decreases todo
    {
      var d :| d in todo;
      Extend(s, steps, t, c, AwaitOne(d));
      steps, t, todo := steps + [TaskS(c, AwaitOne(d))], TaskApply(t, c, AwaitOne(d)), todo - {d};
    }
    Extend(s, steps, t, c, StartHandler);
    steps, t := steps + [TaskS(c, StartHandler)], TaskApply(t, c, StartHandler);
  }

  /** Without a funnel some failure lets a handler start before a dependency's handler has begun. */
  lemma OrderCanBreak(s: State) returns (steps: seq<Step>, t: State, c: Name, d: Name)
    requires GraphInv(s) && AtStartOfLoadedPass(s) && !Funnel(s.itDependsOn)
    ensures Run(s, steps, t) && t.main == Passing(Loaded) && t.itDependsOn == s.itDependsOn
    ensures c in t.comps && d in t.comps && d in Succ(s.itDependsOn, c)
    ensures t.comps[c].task == Handling && t.comps[d].task == Idle
  {
    var g := s.itDependsOn;
    var x;
    c, d, x :| d in Succ(g, c) && x in g && x != d && !Reach(g, x, d);
    var w := Culprit(g, s.comps.Keys, d, x);
    ReachEdge(g, c, d);
    assert !Leads(g, c, c) && c != w;
    steps, t := EarlyRun(s, w, c);
  }

  lemma EarlyRun(s: State, w: Name, c: Name) returns (steps: seq<Step>, t: State)
    requires AtStartOfLoadedPass(s) && w in s.comps && c in s.comps && c != w
    requires Succ(s.itDependsOn, w) == {} && Succ(s.itDependsOn, c) <= s.comps.Keys
    ensures Run(s, steps, t) && t.main == s.main && t.itDependsOn == s.itDependsOn && t.comps.Keys == s.comps.Keys
    ensures t.comps[c].task == Handling && forall x :: x in t.comps && x != c && x != w ==> t.comps[x].task == Idle
  {
    var first, s1 := FailAndFlag(s, w);
    var second;
    second, t := StartEarly(s1, c);
    RunJoin(s, first, s1, second, t);
    steps := first + second;
  }

  lemma {:induction false} LateRunKeepsGraph(s: State, steps: seq<Step>, t: State)
    requires Inv(s) && !LoadPhase(s) && Run(s, steps, t)
    ensures t.itDependsOn == s.itDependsOn
    decreases |steps|
  {
    if steps != [] {
      StepKeepsInv(s, steps[0]);
      match steps[0] {
        case BuildS(c, b) => BuildStepMeansLoading(s, c, b); assert false;
        case MainS(m) => MainStepShape(s, m); MainStepLate(s, m);
        case TaskS(c, k) => TaskStepFrame(s, c, k);
      }
      LateRunKeepsGraph(Apply(s, steps[0]), steps[1..], t);
    }
  }

  lemma FunnelKeepsOrder(names: set<Name>, s: State, steps: seq<Step>, t: State)
    requires Reachable(names, s) && AtStartOfLoadedPass(s) && Funnel(s.itDependsOn) && Run(s, steps, t)
    ensures t.main == Passing(Loaded) ==> Ordered(t)
  {
    ReachableInv(names, s);
    LateRunKeepsGraph(s, steps, t);
    RunKeepsInv(s, steps, t);
    if t.main == Passing(Loaded) { InvOrdered(t); }
  }

  lemma DisorderReachable(names: set<Name>, s: State) returns (steps: seq<Step>, t: State)
    requires Reachable(names, s) && AtStartOfLoadedPass(s) && !Funnel(s.itDependsOn)
    ensures Run(s, steps, t) && t.main == Passing(Loaded) && !Ordered(t)
  {
    ReachableInv(names, s);
    var c, d;
    steps, t, c, d := OrderCanBreak(s);
    ReachEdge(t.itDependsOn, c, d);
    assert ComesFirst(t, t.main.pass, d, c);
  }

  ghost predicate OrderedAfter(s: State, steps: seq<Step>, t: State) {
    Run(s, steps, t) && t.main == Passing(Loaded) ==> Ordered(t)
  }

  /** The order of the loaded pass holds over all runs, failures included, exactly for funnels. */
  lemma LoadedPassOrderExact(names: set<Name>, s: State)
    requires Reachable(names, s) && AtStartOfLoadedPass(s)
    ensures (forall steps, t :: OrderedAfter(s, steps, t)) <==> Funnel(s.itDependsOn)
  {
    if Funnel(s.itDependsOn) {
      forall steps, t ensures OrderedAfter(s, steps, t) {
        if Run(s, steps, t) { FunnelKeepsOrder(names, s, steps, t); }
      }
    } else {
      var steps, t := DisorderReachable(names, s);
      assert !OrderedAfter(s, steps, t);
    }
  }
}
