/** What the lifecycle guarantees in every reachable state and over every run. */
module LifecycleTheorems {
  import opened Digraph
  import opened Lifecycle
  import opened LifecycleInvariant

  /**
   Nothing is destroyed before its dependents: while any part of an object exists, every component
   FindComponent gave it is complete, and a published component has all its recorded dependencies published.
   */
  lemma DependenciesOutliveDependents(names: set<Name>, s: State, c: Name, d: Name)
    requires Reachable(names, s) && c in s.comps
    ensures s.comps[c].alive && d in s.comps[c].obtained ==> d in s.comps && s.comps[d].component && s.comps[d].alive
    ensures s.comps[c].component && d in Succ(s.itDependsOn, c) ==> d in s.comps && s.comps[d].component && s.comps[d].alive
  {
    ReachableInv(names, s);
    assert EdgesInv(s, c) && SafeInv(s, c);
    if d in s.comps {
      assert EdgesInv(s, d);
      if LoadPhase(s) { assert LoadInv(s, c) && LoadInv(s, d); } else { assert ObjectInv(s, c) && ObjectInv(s, d); }
    }
  }

  /** A finished shutdown, after a good or a failed load, leaves no object behind. */
  lemma ClearedMeansDestroyed(names: set<Name>, s: State)
    requires Reachable(names, s) && s.main.Cleared?
    ensures forall c :: c in s.comps ==> !s.comps[c].alive && !s.comps[c].component
  {
    ReachableInv(names, s);
    forall c | c in s.comps ensures !s.comps[c].alive && !s.comps[c].component {
      assert ObjectInv(s, c);
    }
  }

  /** The two edge sets mirror each other and never hold a cycle, in every interleaving of FindComponent calls. */
  lemma EdgesMirrorAndAcyclic(names: set<Name>, s: State)
    requires Reachable(names, s)
    ensures Inverse(s.itDependsOn, s.dependsOnIt) && Acyclic(s.itDependsOn) && Acyclic(s.dependsOnIt)
  {
    ReachableInv(names, s);
    AcyclicInverse(s.itDependsOn, s.dependsOnIt);
  }

  lemma RefusedIffCyclic(s: State, c: Name, d: Name)
    requires Acyclic(s.itDependsOn)
    ensures Acyclic(WithEdge(s.itDependsOn, c, d)) <==> !ClosesCycle(s, c, d)
  {
    if d in Succ(s.itDependsOn, c) {
      EdgeKept(s.itDependsOn, c, d);
    } else {
      AcyclicWithEdge(s.itDependsOn, c, d);
    }
  }

  /** FindComponent of a known name records the edge exactly when the graph stays acyclic with it. */
  lemma EdgeRefusedIffCycle(names: set<Name>, s: State, c: Name, d: Name)
    requires Reachable(names, s) && Is(s, c, Constructing) && d in s.comps
    ensures var t := BuildApply(s, c, Find(d));
            if Acyclic(WithEdge(s.itDependsOn, c, d))
            then t.comps[c].build == Looking(d) && t.itDependsOn == WithEdge(s.itDependsOn, c, d)
                 && t.dependsOnIt == WithEdge(s.dependsOnIt, d, c)
            else t == s
  {
    EdgesMirrorAndAcyclic(names, s);
    RefusedIffCyclic(s, c, d);
  }

  /** The debug assertions of AddItDependsOn and AddDependsOnIt hold at every FindComponent. */
  lemma FindComponentOnlyWhileLoading(names: set<Name>, s: State, c: Name, d: Name)
    requires Reachable(names, s) && Is(s, c, Constructing) && d in s.comps
    ensures s.comps[c].stage == Null && s.comps[d].stage in {Null, Created}
  {
    ReachableInv(names, s);
    BuildStepMeansLoading(s, c, Find(d));
    assert LoadInv(s, c) && EdgesInv(s, c) && LoadInv(s, d);
  }

  /**
   Once the constructors are joined: after a cancelled load every component that was created received
   OnLoadingCancelled exactly once, whoever won the race; after a good load nobody did.
   */
  lemma CancellationDeliveredOnce(names: set<Name>, s: State, c: Name)
    requires Reachable(names, s) && !LoadPhase(s) && c in s.comps
    ensures s.comps[c].build in {Built, Failed}
    ensures s.comps[c].calls == (if s.loadCancelled && s.comps[c].build == Built then 1 else 0)
    ensures !s.loadCancelled ==> s.comps[c].build == Built
  {
    ReachableInv(names, s);
    assert JoinedInv(s, c);
  }

  /** At no point of any run is the callback made twice. */
  lemma NeverCalledTwice(names: set<Name>, s: State, c: Name)
    requires Reachable(names, s) && c in s.comps
    ensures s.comps[c].calls <= 1
  {
    ReachableInv(names, s);
    if LoadPhase(s) { assert LoadInv(s, c); } else { assert JoinedInv(s, c); }
  }

  /** During a pass a stage is the new one exactly when its task finished; no component begins a pass there. */
  lemma StagesDuringPass(names: set<Name>, s: State, c: Name)
    requires Reachable(names, s) && s.main.Passing? && c in s.comps
    ensures s.comps[c].stage == NextStage(s.main.pass) <==> s.comps[c].task == Finished
    ensures s.comps[c].task != Finished ==> StageBefore(s.main.pass, s.comps[c].stage)
  {
    ReachableInv(names, s);
    assert StageInv(s, c) && TaskInv(s, s.main.pass, c);
    assert s.main.pass == Graceful ==> !s.loadCancelled;
  }

  /** The logic_error after the joined tasks is never raised: a cancelled pass holds a task that threw. */
  lemma CancelledPassHasAFailure(names: set<Name>, s: State)
    requires Reachable(names, s) && s.main.Passing? && s.switchingCancelled
    ensures s.main.pass == Loaded && SomeFailed(s)
  {
    ReachableInv(names, s);
    var x :| x in s.comps && s.comps[x].failed;
    assert TaskInv(s, s.main.pass, x);
  }

  /** Dependencies come first when loading, dependents when stopping and clearing; a graceful shutdown has no order. */
  ghost predicate ComesFirst(s: State, p: Pass, d: Name, c: Name) {
    match p
    case Loaded => Leads(s.itDependsOn, c, d)
    case Graceful => false
    case Stopping => Leads(s.itDependsOn, d, c)
    case Clearing => Leads(s.itDependsOn, d, c)
  }

  /** Every component c whose handler started has all that comes first, directly or not, behind it. */
  ghost predicate Ordered(s: State) {
    s.main.Passing? ==>
      forall c, d :: c in s.comps && Started(s.comps[c].task) && ComesFirst(s, s.main.pass, d, c) ==>
        d in s.comps && Ended(s.comps[d].task)
  }

  lemma LeadsInverse(g: Graph, h: Graph, a: Name, b: Name)
    requires Inverse(g, h) && Leads(g, a, b)
    ensures Leads(h, b, a)
  {
    var m :| m in Succ(g, a) && Reach(g, m, b);
    ReachInverse(g, h, m, b);
    ReachThenEdge(h, b, m, a);
  }

  /** Pass order, in every reachable state. */
  lemma PassOrder(names: set<Name>, s: State)
    requires Reachable(names, s)
    requires s.main == Passing(Loaded) ==> !SomeFailed(s) || Funnel(s.itDependsOn)
    ensures Ordered(s)
  {
    ReachableInv(names, s);
    InvOrdered(s);
  }

  lemma InvOrdered(s: State)
    requires Inv(s) && OrderGuaranteed(s)
    ensures Ordered(s)
  {
    if s.main.Passing? {
      forall c, d | c in s.comps && Started(s.comps[c].task) && ComesFirst(s, s.main.pass, d, c)
        ensures d in s.comps && Ended(s.comps[d].task)
      {
        if s.main.pass != Loaded { LeadsInverse(s.itDependsOn, s.dependsOnIt, d, c); }
        StartedMeansSettled(s, c, d);
      }
    }
  }
}
