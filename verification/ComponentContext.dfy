/**
 The dependency graph that ComponentContextImpl keeps while components are being constructed:
 edge insertion with cycle detection, and the dependency queries.
 Every public method runs under the lock of shared_data_, so each is one atomic section.
 */
module ComponentContext {
  import opened Digraph
  import opened Wrappers

  class ComponentContextImpl {
    var components: set<Name>
    var itDependsOn: Graph
    var dependsOnIt: Graph

    ghost predicate Valid()
      reads this
    {
      && itDependsOn.Keys == components
      && dependsOnIt.Keys == components
      && ClosedUnder(itDependsOn, components)
      && Inverse(itDependsOn, dependsOnIt)
      && Acyclic(itDependsOn)
    }

    constructor (loadingComponentNames: set<Name>)
      ensures Valid()
      ensures components == loadingComponentNames
      ensures forall n :: Succ(itDependsOn, n) == {}
    {
      components := loadingComponentNames;
      itDependsOn := map n | n in loadingComponentNames :: {};
      dependsOnIt := map n | n in loadingComponentNames :: {};
    }

    /**
     Walks the dependents of current looking for target. handled is shared by the whole search and
     the walk stops descending once target is found. A wanted path receives, deepest first, the chain
     "target depends on ... depends on current".
     */
    method FindDependencyPathDfs(current: Name, target: Name, handled: set<Name>, path: Option<seq<Name>>)
      returns (found: bool, handled': set<Name>, path': Option<seq<Name>>)
      requires Valid()
      requires current in components && handled <= components && current !in handled
      ensures handled + {current} <= handled' <= components
      ensures found ==> Reach(dependsOnIt, current, target)
      ensures !found ==> target !in handled' - handled
      ensures !found ==> forall v, w :: v in handled' - handled && w in Succ(dependsOnIt, v) ==> w in handled'
      ensures path'.Some? <==> path.Some?
      ensures path.Some? && !found ==> path' == path
      ensures path.Some? && found ==>
                && path.value <= path'.value
                && PathFromTo(itDependsOn, path'.value[|path.value|..], target, current)
      decreases components - handled
    {
      handled' := handled + {current};
      path' := path;
      found := current == target;
      ghost var last := current;
      ReachSelf(dependsOnIt, current);

      var dependents := dependsOnIt[current];
      while dependents != {}
        invariant dependents <= dependsOnIt[current]
        invariant handled + {current} <= handled' <= components
        invariant found ==> Reach(dependsOnIt, current, target)
        invariant !found ==> target !in handled' - handled
        invariant !found ==> forall v, w :: v in handled' - handled - {current} && w in Succ(dependsOnIt, v) ==> w in handled'
        invariant !found ==> dependsOnIt[current] - dependents <= handled'
        invariant path'.Some? <==> path.Some?
        invariant path.Some? && (!found || last == current) ==> path' == path
        invariant found ==> if last == current then current == target else last in dependsOnIt[current]
        invariant path.Some? && found && last != current ==>
                    && path.value <= path'.value
                    && PathFromTo(itDependsOn, path'.value[|path.value|..], target, last)
        decreases dependents
      {
        var dependent :| dependent in dependents;
        dependents := dependents - {dependent};
        assert dependent in Succ(dependsOnIt, current);
        assert current in Succ(itDependsOn, dependent);
        if !found && dependent !in handled' {
          found, handled', path' := FindDependencyPathDfs(dependent, target, handled', path');
          if found {
            last := dependent;
            ReachEdge(dependsOnIt, current, dependent);
            ReachTransitive(dependsOnIt, current, dependent, target);
            assert !Leads(itDependsOn, current, current);
            if last == current { ReachEdge(itDependsOn, current, current); }
          }
        }
      }

      if found && path'.Some? {
        if last != current {
          var chain := path'.value[|path.value|..];
          assert last in Succ(dependsOnIt, current);
          assert current in Succ(itDependsOn, last);
          assert IsPath(itDependsOn, [last, current]);
          JoinPaths(itDependsOn, chain, [last, current]);
          assert chain + [last, current][1..] == (path'.value + [current])[|path.value|..];
        }
        path' := Some(path'.value + [current]);
      }
    }

    /** Some(chain) is the circular_dependency exception, with the chain its message prints. */
    method CheckForDependencyCycle(from: Name, to: Name) returns (cycle: Option<seq<Name>>)
      requires Valid() && from in components && to in components
      ensures cycle.Some? <==> Reach(itDependsOn, to, from)
      ensures cycle.Some? ==>
                var chain := cycle.value;
                && |chain| >= 2
                && PathFromTo(itDependsOn, chain[..|chain| - 1], to, from)
                && chain[|chain| - 1] == to
    {
      var found, handled, path := FindDependencyPathDfs(from, to, {}, Some([]));
      ReachInverse(itDependsOn, dependsOnIt, to, from);
      if found {
        var chain := path.value + [to];
        assert chain[..|chain| - 1] == path.value[0..];
        return Some(chain);
      }
      if Reach(dependsOnIt, from, to) {
        ReachInside(dependsOnIt, handled, from, to);
      }
      return None;
    }

    /**
     Records "current depends on dependency", or reports the cycle the edge would close and leaves
     the graph alone. An edge is refused exactly when the graph with it would not be acyclic.
     */
    method AddDependency(dependency: Name, current: Name) returns (cycle: Option<seq<Name>>)
      requires Valid() && dependency in components && current in components
      modifies this
      ensures Valid() && components == old(components)
      ensures cycle.Some? <==> !Acyclic(WithEdge(old(itDependsOn), current, dependency))
      ensures cycle.Some? ==> itDependsOn == old(itDependsOn) && dependsOnIt == old(dependsOnIt)
      ensures cycle.None? ==>
                && itDependsOn == WithEdge(old(itDependsOn), current, dependency)
                && dependsOnIt == WithEdge(old(dependsOnIt), dependency, current)
      ensures cycle.Some? ==>
                var chain := cycle.value;
                && |chain| >= 2
                && PathFromTo(itDependsOn, chain[..|chain| - 1], dependency, current)
                && chain[|chain| - 1] == dependency
    {
      if dependency in itDependsOn[current] {
        assert dependency in Succ(itDependsOn, current) && current in Succ(dependsOnIt, dependency);
        EdgeKept(itDependsOn, current, dependency);
        EdgeKept(dependsOnIt, dependency, current);
        return None;
      }
      cycle := CheckForDependencyCycle(current, dependency);
      AcyclicWithEdge(itDependsOn, current, dependency);
      if cycle.Some? { return; }
      InverseWithEdge(itDependsOn, dependsOnIt, current, dependency);
      itDependsOn := itDependsOn[current := itDependsOn[current] + {dependency}];
      dependsOnIt := dependsOnIt[dependency := dependsOnIt[dependency] + {current}];
    }

    /** The walk over dependents decides the transitive dependency relation, without self. */
    method HasDependencyOn(component: Name, dependency: Name) returns (r: bool)
      requires Valid()
      ensures r <==> component in components && component != dependency && Reach(itDependsOn, component, dependency)
    {
      if component !in components { return false; }
      if dependency !in components {
        if Reach(itDependsOn, component, dependency) {
          ReachInside(itDependsOn, components, component, dependency);
        }
        return false;
      }
      if component == dependency { return false; }
      var handled, path;
      r, handled, path := FindDependencyPathDfs(dependency, component, {}, None);
      ReachInverse(itDependsOn, dependsOnIt, component, dependency);
      if !r && Reach(dependsOnIt, dependency, component) {
        ReachInside(dependsOnIt, handled, dependency, component);
      }
    }

    method FindAllDependenciesImpl(current: Name, handled: set<Name>) returns (handled': set<Name>)
      requires Valid()
      requires current in components && handled <= components && current !in handled
      ensures handled + {current} <= handled' <= components
      ensures forall v :: v in handled' - handled ==> Reach(itDependsOn, current, v)
      ensures forall v, w :: v in handled' - handled && w in Succ(itDependsOn, v) ==> w in handled'
      decreases components - handled
    {
      handled' := handled + {current};
      ReachSelf(itDependsOn, current);
      var dependencies := itDependsOn[current];
      while dependencies != {}
        invariant dependencies <= itDependsOn[current]
        invariant handled + {current} <= handled' <= components
        invariant forall v :: v in handled' - handled ==> Reach(itDependsOn, current, v)
        invariant forall v, w :: v in handled' - handled - {current} && w in Succ(itDependsOn, v) ==> w in handled'
        invariant itDependsOn[current] - dependencies <= handled'
        decreases dependencies
      {
        var dependency :| dependency in dependencies;
        dependencies := dependencies - {dependency};
        if dependency !in handled' {
          ghost var before := handled';
          handled' := FindAllDependenciesImpl(dependency, handled');
          forall v | v in handled' - before ensures Reach(itDependsOn, current, v) {
            ReachEdge(itDependsOn, current, dependency);
            ReachTransitive(itDependsOn, current, dependency, v);
          }
        }
      }
    }

    /** The walk over dependencies collects the same relation; None is the non-existent component error. */
    method GetAllDependencies(component: Name) returns (result: Option<set<Name>>)
      requires Valid()
      ensures result.Some? <==> component in components
      ensures result.Some? ==>
                forall d :: d in result.value <==> d != component && Reach(itDependsOn, component, d)
    {
      if component !in components { return None; }
      var handled := FindAllDependenciesImpl(component, {});
      forall d | Reach(itDependsOn, component, d) ensures d in handled {
        ReachInside(itDependsOn, handled, component, d);
      }
      return Some(handled - {component});
    }
  }
}
