/** RefResolver.sort_schemas: which references force an order between schemas, and the order they force. */
module RefResolver {
  import opened Digraph
  import opened Wrappers
  import opened NameOrder
  import opened SchemaOrder

  datatype Schema =
    | Ref(ref: Name, indirect: bool, xIndirect: bool)   // xIndirect: x-usrv-cpp-indirect or x-taxi-cpp-indirect is set
    | Array(items: Schema)
    | SchemaObject(additional: Option<Schema>, properties: seq<Schema>)
    | AllOf(parts: seq<Schema>)
    | OneOf(variants: seq<Schema>)
    | Plain

  type Schemas = map<Name, Schema>

  /** One call of the visitor on a $ref. */
  datatype Use = Use(ref: Name, indirect: bool, xIndirect: bool, inArray: bool)

  /** The calls visitor(schema, parent) followed by schema.visit_children(visitor) make on refs. */
  function Uses(schema: Schema, parentIsArray: bool): seq<Use>
    decreases schema
  {
    match schema
    case Ref(ref, indirect, xIndirect) => [Use(ref, indirect, xIndirect, parentIsArray)]
    case Array(items) => Uses(items, true)
    case SchemaObject(additional, properties) =>
      (if additional.Some? then Uses(additional.value, false) else []) + UsesOfAll(properties)
    case AllOf(parts) => UsesOfAll(parts)
    case OneOf(variants) => UsesOfAll(variants)
    case Plain => []
  }

  function UsesOfAll(schemas: seq<Schema>): seq<Use>
    decreases schemas
  {
    if schemas == [] then [] else Uses(schemas[0], false) + UsesOfAll(schemas[1..])
  }

  // ----- Where refs occur -----

  /** Array items, additional properties, properties, parts and variants. */
  predicate Child(parent: Schema, child: Schema) {
    match parent
    case Array(items) => child == items
    case SchemaObject(additional, properties) => additional == Some(child) || child in properties
    case AllOf(parts) => child in parts
    case OneOf(variants) => child in variants
    case _ => false
  }

  /** From a schema down to something inside it. */
  predicate Descends(path: seq<Schema>) {
    path != [] && forall i :: 0 <= i < |path| - 1 ==> Child(path[i], path[i + 1])
  }

  /** The path ends in the $ref of the use; the holder of the $ref is the schema before it, if there is one. */
  predicate Occurs(path: seq<Schema>, use: Use, parentIsArray: bool) {
    && Descends(path) && path[|path| - 1] == Ref(use.ref, use.indirect, use.xIndirect)
    && (use.inArray <==> if |path| == 1 then parentIsArray else path[|path| - 2].Array?)
  }

  /** A $ref anywhere inside the schema. */
  ghost predicate Inside(schema: Schema, use: Use) {
    exists path :: path != [] && path[0] == schema && Occurs(path, use, false)
  }

  lemma {:induction false} UsesOfAllIs(schemas: seq<Schema>, use: Use)
    ensures use in UsesOfAll(schemas) <==> exists i :: 0 <= i < |schemas| && use in Uses(schemas[i], false)
    decreases |schemas|
  {
    if schemas != [] {
      UsesOfAllIs(schemas[1..], use);
      assert forall i :: 0 <= i < |schemas| - 1 ==> schemas[1..][i] == schemas[i + 1];
      if i: int :| 1 <= i < |schemas| && use in Uses(schemas[i], false) {
        assert schemas[1..][i - 1] == schemas[i];
      }
    }
  }

  lemma {:induction false} OccurrencesVisited(path: seq<Schema>, use: Use, parentIsArray: bool)
    requires Occurs(path, use, parentIsArray)
    ensures use in Uses(path[0], parentIsArray)
    decreases |path|
  {
    if |path| > 1 {
      var rest := path[1..];
      forall i | 0 <= i < |rest| - 1 ensures Child(rest[i], rest[i + 1]) {
        assert Child(path[i + 1], path[i + 1 + 1]);
      }
      OccurrencesVisited(rest, use, path[0].Array?);
      assert Child(path[0], path[1]);
      ChildVisited(path[0], path[1], use, parentIsArray);
    }
  }

  lemma ChildVisited(parent: Schema, child: Schema, use: Use, parentIsArray: bool)
    requires Child(parent, child) && use in Uses(child, parent.Array?)
    ensures use in Uses(parent, parentIsArray)
  {
    match parent
    case SchemaObject(_, properties) => UsesOfAllIs(properties, use);
    case AllOf(parts) => UsesOfAllIs(parts, use);
    case OneOf(variants) => UsesOfAllIs(variants, use);
    case _ =>
  }

  /** A use comes from the schema itself, if that is a $ref, or from one of its children. */
  lemma VisitedFrom(schema: Schema, use: Use, parentIsArray: bool) returns (child: Schema)
    requires use in Uses(schema, parentIsArray) && !schema.Ref?
    ensures Child(schema, child) && use in Uses(child, schema.Array?) && child < schema
  {
    match schema
    case Array(items) => child := items;
    case SchemaObject(additional, properties) =>
      if additional.Some? && use in Uses(additional.value, false) {
        child := additional.value;
      } else {
        child := OneOfAll(properties, use);
      }
    case AllOf(parts) => child := OneOfAll(parts, use);
    case OneOf(variants) => child := OneOfAll(variants, use);
  }

  lemma OneOfAll(schemas: seq<Schema>, use: Use) returns (child: Schema)
    requires use in UsesOfAll(schemas)
    ensures child in schemas && use in Uses(child, false)
  {
    UsesOfAllIs(schemas, use);
    var i :| 0 <= i < |schemas| && use in Uses(schemas[i], false);
    child := schemas[i];
  }

  lemma {:induction false} VisitedOccurs(schema: Schema, use: Use, parentIsArray: bool) returns (path: seq<Schema>)
    requires use in Uses(schema, parentIsArray)
    ensures path != [] && path[0] == schema && Occurs(path, use, parentIsArray)
    decreases schema
  {
    if schema.Ref? {
      path := [schema];
    } else {
      var child := VisitedFrom(schema, use, parentIsArray);
      var rest := VisitedOccurs(child, use, schema.Array?);
      path := [schema] + rest;
      assert forall i :: 0 <= i < |path| - 1 ==> Child(path[i], path[i + 1]) by {
        assert forall i :: 1 <= i < |path| ==> path[i] == rest[i - 1];
      }
    }
  }

  /** The visitor is called on exactly the refs that occur inside the schema, wherever they are. */
  lemma VisitsExactlyRefs(schema: Schema, use: Use)
    ensures use in Uses(schema, false) <==> Inside(schema, use)
  {
    if use in Uses(schema, false) {
      var path := VisitedOccurs(schema, use, false);
    }
    forall path | path != [] && path[0] == schema && Occurs(path, use, false) ensures use in Uses(schema, false) {
      OccurrencesVisited(path, use, false);
    }
  }

  // ----- Following a chain of refs -----

  /** Local schemas shadow external ones. */
  function Resolve(schemas: Schemas, external: Schemas, n: Name): Option<Schema> {
    if n in schemas then Some(schemas[n]) else if n in external then Some(external[n]) else None
  }

  /** Where a name leads when it stands for a $ref itself. */
  function Hops(schemas: Schemas, external: Schemas): Graph {
    map n | n in schemas.Keys + external.Keys ::
      var s := Resolve(schemas, external, n).value;
      if s.Ref? then {s.ref} else {}
  }

  predicate Known(schemas: Schemas, external: Schemas, n: Name) {
    n in schemas || n in external
  }

  predicate IndirectAt(schemas: Schemas, external: Schemas, n: Name) {
    var s := Resolve(schemas, external, n);
    s.Some? && s.value.Ref? && s.value.indirect
  }

  /** Every name on the chain from ref is known. */
  ghost predicate ChainKnown(schemas: Schemas, external: Schemas, ref: Name) {
    forall n :: Reach(Hops(schemas, external), ref, n) ==> Known(schemas, external, n)
  }

  /** Every name on the chain from ref is local. */
  ghost predicate StaysLocal(schemas: Schemas, external: Schemas, ref: Name) {
    forall n :: Reach(Hops(schemas, external), ref, n) ==> n in schemas
  }

  /** Some ref on the chain is marked indirect. */
  ghost predicate ChainIndirect(schemas: Schemas, external: Schemas, use: Use) {
    use.indirect || exists n :: Reach(Hops(schemas, external), use.ref, n) && IndirectAt(schemas, external, n)
  }

  datatype Walk = UnknownRef(name: Name) | Walked(external: bool, indirect: bool)

  /** The walk ends even on cyclic refs, and sees exactly the names on the chain. */
  method WalkChain(schemas: Schemas, external: Schemas, use: Use) returns (w: Walk)
    ensures w.UnknownRef? <==> !ChainKnown(schemas, external, use.ref)
    ensures w.Walked? ==> (w.external <==> !StaysLocal(schemas, external, use.ref))
    ensures w.Walked? ==> (w.indirect <==> ChainIndirect(schemas, external, use))
  {
    ghost var g := Hops(schemas, external);
    var curNode := Ref(use.ref, use.indirect, use.xIndirect);
    var seen: set<Name> := {};
    var indirect, isExternal := false, false;
    ghost var at: Option<Name> := None;
    while curNode.Ref?
      invariant seen <= schemas.Keys + external.Keys
      invariant at.None? ==> seen == {} && curNode == Ref(use.ref, use.indirect, use.xIndirect)
      invariant at.Some? ==> at.value in seen && Resolve(schemas, external, at.value) == Some(curNode) && use.ref in seen
      invariant forall n :: n in seen ==> Reach(g, use.ref, n)
      invariant forall n, m :: n in seen && m in Succ(g, n) && at != Some(n) ==> m in seen
      invariant isExternal <==> exists n :: n in seen && n !in schemas
      invariant indirect <==> (at.Some? && use.indirect) || exists n :: n in seen && at != Some(n) && IndirectAt(schemas, external, n)
      decreases schemas.Keys + external.Keys - seen
    {
      var next := curNode.ref;
      if curNode.indirect { indirect := true; }
      assert at.Some? ==> Succ(g, at.value) == {next};
      if at.Some? { ReachThenEdge(g, use.ref, at.value, next); LeadsReach(g, use.ref, next); } else { ReachSelf(g, next); }
      if next !in schemas {
        if next !in external {
          assert Reach(g, use.ref, next);
          return UnknownRef(next);
        }
        curNode := external[next];
        isExternal := true;
      } else {
        curNode := schemas[next];
      }
      if next in seen {
        ChainSeen(schemas, external, use, seen);
        return Walked(isExternal, indirect);
      }
      seen := seen + {next};
      at := Some(next);
    }
    ChainSeen(schemas, external, use, seen);
    return Walked(isExternal, indirect);
  }

  /** A set of known names on the chain that is closed under hops is the whole chain. */
  lemma ChainSeen(schemas: Schemas, external: Schemas, use: Use, seen: set<Name>)
    requires use.ref in seen && seen <= schemas.Keys + external.Keys
    requires forall n :: n in seen ==> Reach(Hops(schemas, external), use.ref, n)
    requires ClosedUnder(Hops(schemas, external), seen)
    ensures ChainKnown(schemas, external, use.ref)
    ensures StaysLocal(schemas, external, use.ref) <==> forall n :: n in seen ==> n in schemas
    ensures ChainIndirect(schemas, external, use) <==>
              use.indirect || exists n :: n in seen && IndirectAt(schemas, external, n)
  {
    forall n | Reach(Hops(schemas, external), use.ref, n) ensures n in seen {
      ReachInside(Hops(schemas, external), seen, use.ref, n);
    }
  }

  // ----- Edges and order -----

  /** A schema whose array items refer to itself becomes a vector of itself and needs no order. */
  predicate ArraySelf(name: Name, use: Use) {
    use.inArray && name == use.ref
  }

  /** The uses that put an edge into the graph. */
  ghost predicate Forces(schemas: Schemas, external: Schemas, name: Name, use: Use) {
    !ArraySelf(name, use) && !use.xIndirect && StaysLocal(schemas, external, use.ref)
  }

  /** The uses that raise: an unknown name on the chain, or an indirect array self-reference. */
  ghost predicate Rejected(schemas: Schemas, external: Schemas, name: Name, use: Use) {
    !ChainKnown(schemas, external, use.ref) || (ArraySelf(name, use) && ChainIndirect(schemas, external, use))
  }

  ghost predicate AnyRejected(schemas: Schemas, external: Schemas, name: Name)
    requires name in schemas
  {
    exists use :: Inside(schemas[name], use) && Rejected(schemas, external, name, use)
  }

  ghost predicate ForcedTarget(schemas: Schemas, external: Schemas, name: Name, target: Name)
    requires name in schemas
  {
    exists use :: Inside(schemas[name], use) && use.ref == target && Forces(schemas, external, name, use)
  }

  /** edges[name] of one schema; None when the visitor raises. */
  method TargetsOf(schemas: Schemas, external: Schemas, name: Name) returns (targets: Option<seq<Name>>)
    requires name in schemas
    ensures targets.None? <==> AnyRejected(schemas, external, name)
    ensures targets.Some? ==> forall t :: t in targets.value <==> ForcedTarget(schemas, external, name, t)
  {
    var uses := Uses(schemas[name], false);
    var found: seq<Name> := [];
    forall use ensures use in uses <==> Inside(schemas[name], use) { VisitsExactlyRefs(schemas[name], use); }
    for k := 0 to |uses|
      invariant forall j :: 0 <= j < k ==> !Rejected(schemas, external, name, uses[j])
      invariant forall t :: t in found ==> ForcedTarget(schemas, external, name, t)
      invariant forall j :: 0 <= j < k && Forces(schemas, external, name, uses[j]) ==> uses[j].ref in found
    {
      var use := uses[k];
      var w := WalkChain(schemas, external, use);
      if w.UnknownRef? || (ArraySelf(name, use) && w.indirect) {
        assert use in uses && Rejected(schemas, external, name, use);
        return None;
      }
      if !ArraySelf(name, use) && !use.xIndirect && !w.external {
        assert use in uses && Forces(schemas, external, name, use);
        found := found + [use.ref];
      }
    }
    return Some(found);
  }

  /** Every edge the visitor records leads to a local schema. */
  lemma ForcedIsLocal(schemas: Schemas, external: Schemas, name: Name, target: Name)
    requires name in schemas && ForcedTarget(schemas, external, name, target)
    ensures target in schemas
  {
    ReachSelf(Hops(schemas, external), target);
  }

  /** The graph of the forced order. */
  ghost function RefGraph(schemas: Schemas, external: Schemas): Graph {
    map n | n in schemas :: set t | t in schemas && ForcedTarget(schemas, external, n, t)
  }

  method CollectEdges(schemas: Schemas, external: Schemas, names: seq<Name>) returns (edges: Option<Edges>)
    requires SameNames(names, schemas.Keys)
    ensures edges.None? <==> exists n :: n in schemas && AnyRejected(schemas, external, n)
    ensures edges.Some? ==> AsGraph(edges.value) == RefGraph(schemas, external)
  {
    var es: Edges := map[];
    for k := 0 to |names|
      invariant forall j :: 0 <= j < k ==> !AnyRejected(schemas, external, names[j])
      invariant forall n :: n in es <==> n in names[..k]
      invariant forall n, t :: n in es ==> (t in es[n] <==> ForcedTarget(schemas, external, n, t))
    {
      var targets := TargetsOf(schemas, external, names[k]);
      if targets.None? {
        assert names[k] in schemas;
        return None;
      }
      es := es[names[k] := targets.value];
    }
    assert names[..|names|] == names;
    EdgesAreForced(schemas, external, es);
    return Some(es);
  }

  lemma EdgesAreForced(schemas: Schemas, external: Schemas, es: Edges)
    requires es.Keys == schemas.Keys
    requires forall n, t :: n in es ==> (t in es[n] <==> ForcedTarget(schemas, external, n, t))
    ensures AsGraph(es) == RefGraph(schemas, external)
  {
    forall n | n in es ensures AsGraph(es)[n] == RefGraph(schemas, external)[n] {
      forall t | t in es[n] ensures t in schemas { ForcedIsLocal(schemas, external, n, t); }
    }
  }

  /** Where the sorted dictionary puts a schema. */
  predicate Before(order: seq<Name>, a: Name, b: Name) {
    exists i, j :: 0 <= i < j < |order| && order[i] == a && order[j] == b
  }

  /** The target of every forcing use stands before its holder. */
  ghost predicate RespectsRefs(schemas: Schemas, external: Schemas, order: seq<Name>) {
    forall n, t :: n in schemas && ForcedTarget(schemas, external, n, t) ==> Before(order, t, n)
  }

  /**
   None is any of the raised errors: a rejected use, or a cycle of forcing uses. Otherwise the result lists
   exactly the input schemas, each once, with the target of every forcing use before its holder; where the
   alphabetical order does that already, it is the result.
   */
  method SortSchemas(schemas: Schemas, external: Schemas) returns (order: Option<seq<Name>>)
    ensures order.None? <==>
              || (exists n :: n in schemas && AnyRejected(schemas, external, n))
              || !Acyclic(RefGraph(schemas, external))
    ensures order.Some? ==> NoDuplicates(order.value) && SameNames(order.value, schemas.Keys)
    ensures order.Some? ==> RespectsRefs(schemas, external, order.value)
    ensures order.Some? ==>
              forall names :: Ascending(names) && SameNames(names, schemas.Keys) && TopologicalOrder(RefGraph(schemas, external), names)
                              ==> order == Some(names)
    ensures order.Some? ==>
              forall n, use :: (n in schemas && Inside(schemas[n], use) && StaysLocal(schemas, external, use.ref)
                                && !use.xIndirect && !(use.inArray && use.ref == n)) ==>
                exists i, j :: 0 <= i < j < |order.value| && order.value[i] == use.ref && order.value[j] == n
    ensures order.Some? ==> forall n, use :: n in schemas && Inside(schemas[n], use) ==> ChainKnown(schemas, external, use.ref)
    ensures order.Some? ==>
              forall n, use :: n in schemas && Inside(schemas[n], use) && use.inArray && use.ref == n ==>
                !ChainIndirect(schemas, external, use)
    ensures NothingForced(schemas, external) ==> order.Some? && Ascending(order.value)
  {
    var names := Sorted(schemas.Keys);
    var edges := CollectEdges(schemas, external, names);
    if edges.None? {
      UnforcedIsFine(schemas, external);
      return None;
    }
    order := SortGraph(schemas.Keys, edges.value);
    if order.Some? {
      SortedAsForced(schemas, external, order.value);
      SpelledOut(schemas, external, order.value);
    }
    if NothingForced(schemas, external) {
      UnforcedIsFine(schemas, external);
      NoEdgesNoCycle(RefGraph(schemas, external));
      AscendingDistinct(names);
      assert TopologicalOrder(RefGraph(schemas, external), names);
    }
  }

  /** What no rejection and the forced order mean for every $ref. */
  lemma SpelledOut(schemas: Schemas, external: Schemas, order: seq<Name>)
    requires RespectsRefs(schemas, external, order) && forall n :: n in schemas ==> !AnyRejected(schemas, external, n)
    ensures forall n, use :: (n in schemas && Inside(schemas[n], use) && StaysLocal(schemas, external, use.ref)
                              && !use.xIndirect && !(use.inArray && use.ref == n)) ==>
              exists i, j :: 0 <= i < j < |order| && order[i] == use.ref && order[j] == n
    ensures forall n, use :: n in schemas && Inside(schemas[n], use) ==>
              && ChainKnown(schemas, external, use.ref)
              && (use.inArray && use.ref == n ==> !ChainIndirect(schemas, external, use))
  {
    forall n, use | n in schemas && Inside(schemas[n], use) ensures !Rejected(schemas, external, n, use) {}
    forall n, use | (n in schemas && Inside(schemas[n], use) && StaysLocal(schemas, external, use.ref)
                     && !use.xIndirect && !(use.inArray && use.ref == n))
      ensures exists i, j :: 0 <= i < j < |order| && order[i] == use.ref && order[j] == n
    {
      assert Forces(schemas, external, n, use);
      assert Before(order, use.ref, n);
    }
  }

  lemma AscendingDistinct(names: seq<Name>)
    requires Ascending(names)
    ensures NoDuplicates(names)
  {
    forall i, j | 0 <= i < j < |names| ensures names[i] != names[j] {
      LessIrreflexive(names[i]);
    }
  }

  /** Every $ref is to a known schema and is external, marked to break the order, or a plain array of the schema itself. */
  ghost predicate NothingForced(schemas: Schemas, external: Schemas) {
    forall n, use :: n in schemas && Inside(schemas[n], use) ==>
      && ChainKnown(schemas, external, use.ref)
      && (if use.inArray && use.ref == n then !ChainIndirect(schemas, external, use)
          else use.xIndirect || !StaysLocal(schemas, external, use.ref))
  }

  lemma UnforcedIsFine(schemas: Schemas, external: Schemas)
    ensures NothingForced(schemas, external) ==>
              && (forall n :: n in schemas ==> !AnyRejected(schemas, external, n))
              && (forall n :: Succ(RefGraph(schemas, external), n) == {})
  {}

  /** The edges of the forced order, spelled out. */
  lemma EdgeIff(schemas: Schemas, external: Schemas, n: Name, t: Name)
    requires n in schemas
    ensures t in Succ(RefGraph(schemas, external), n) <==>
              exists use :: Inside(schemas[n], use) && use.ref == t && StaysLocal(schemas, external, t)
                            && !use.xIndirect && !(use.inArray && t == n)
  {
    if t in Succ(RefGraph(schemas, external), n) {
      var use :| Inside(schemas[n], use) && use.ref == t && Forces(schemas, external, n, use);
    }
    if use :| Inside(schemas[n], use) && use.ref == t && StaysLocal(schemas, external, t)
              && !use.xIndirect && !(use.inArray && t == n)
    {
      assert Forces(schemas, external, n, use);
      ForcedIsLocal(schemas, external, n, t);
    }
  }

  /** The external schemas do not change where a local name leads, nor the local ones where another name leads. */
  lemma LocalShadowsExternal(schemas: Schemas, external: Schemas, n: Name)
    ensures Succ(Hops(schemas, external), n)
            == if n in schemas then Succ(Hops(schemas, map[]), n) else Succ(Hops(map[], external), n)
    ensures IndirectAt(schemas, external, n)
            <==> if n in schemas then IndirectAt(schemas, map[], n) else IndirectAt(map[], external, n)
  {}

  /** A name that stands for a $ref leads to its target, any other nowhere. */
  lemma HopIff(schemas: Schemas, n: Name, t: Name)
    ensures t in Succ(Hops(schemas, map[]), n) <==> exists i, x :: n in schemas && schemas[n] == Ref(t, i, x)
    ensures t in Succ(Hops(map[], schemas), n) <==> exists i, x :: n in schemas && schemas[n] == Ref(t, i, x)
    ensures IndirectAt(schemas, map[], n) <==> exists r, x :: n in schemas && schemas[n] == Ref(r, true, x)
  {
    if n in schemas && schemas[n].Ref? {
      assert schemas[n] == Ref(schemas[n].ref, schemas[n].indirect, schemas[n].xIndirect);
    }
  }

  /** sort_dfs where the edges stay among the nodes. */
  method SortGraph(nodes: set<Name>, edges: Edges) returns (order: Option<seq<Name>>)
    requires AsGraph(edges).Keys == nodes && ClosedUnder(AsGraph(edges), nodes)
    ensures order.None? <==> !Acyclic(AsGraph(edges))
    ensures order.Some? ==> TopologicalOrder(AsGraph(edges), order.value) && SameNames(order.value, nodes)
    ensures order.Some? ==>
              forall names :: Ascending(names) && SameNames(names, nodes) && TopologicalOrder(AsGraph(edges), names) ==>
                order == Some(names)
  {
    order := SortDfs(nodes, edges);
    CycleMeansNotAcyclic(AsGraph(edges));
    if order.Some? {
      MembersAreKeys(AsGraph(edges), order.value);
    }
  }

  lemma CycleMeansNotAcyclic(g: Graph)
    ensures CycleFromAny(g, g.Keys) <==> !Acyclic(g)
  {
    if !Acyclic(g) {
      var a :| Leads(g, a, a);
      ReachSelf(g, a);
      assert a in g.Keys && CycleFrom(g, a);
    }
  }

  lemma MembersAreKeys(g: Graph, order: seq<Name>)
    requires ClosedUnder(g, g.Keys) && forall x :: x in order <==> ReachableFrom(g, g.Keys, x)
    ensures SameNames(order, g.Keys)
  {
    forall n ensures n in order <==> n in g.Keys {
      if n in order {
        var m :| m in g.Keys && Reach(g, m, n);
        ReachInside(g, g.Keys, m, n);
      }
      if n in g {
        ReachSelf(g, n);
        assert n in g.Keys && Reach(g, n, n);
      }
    }
  }

  lemma SortedAsForced(schemas: Schemas, external: Schemas, order: seq<Name>)
    requires SameNames(order, schemas.Keys) && TopologicalOrder(RefGraph(schemas, external), order)
    ensures RespectsRefs(schemas, external, order)
  {
    forall n, t | n in schemas && ForcedTarget(schemas, external, n, t) ensures Before(order, t, n) {
      ForcedIsLocal(schemas, external, n, t);
      TargetBefore(RefGraph(schemas, external), order, n, t);
    }
  }

  lemma TargetBefore(g: Graph, order: seq<Name>, n: Name, t: Name)
    requires TopologicalOrder(g, order) && n in order && t in Succ(g, n)
    ensures Before(order, t, n)
  {
    var j :| 0 <= j < |order| && order[j] == n;
    assert t in order[..j];
    var i :| 0 <= i < j && order[..j][i] == t;
    assert order[i] == t;
  }

  /** A schema that is a $ref holds that one only. */
  lemma InsideRef(ref: Name, use: Use)
    ensures Inside(Ref(ref, false, false), use) <==> use == Use(ref, false, false, false)
  {
    VisitsExactlyRefs(Ref(ref, false, false), use);
  }

  /** With b referring to an external e, no chain from b or e stays local. */
  lemma LeavesLocal(a: Name, b: Name, e: Name)
    requires a != b && b != e && a != e
    ensures var schemas: Schemas := map[a := Ref(b, false, false), b := Ref(e, false, false)];
            var external: Schemas := map[e := Plain];
            && ChainKnown(schemas, external, b) && ChainKnown(schemas, external, e)
            && !StaysLocal(schemas, external, b) && !StaysLocal(schemas, external, e)
  {
    var schemas: Schemas := map[a := Ref(b, false, false), b := Ref(e, false, false)];
    var external: Schemas := map[e := Plain];
    var g := Hops(schemas, external);
    ReachSelf(g, b);
    ReachSelf(g, e);
    ReachEdge(g, b, e);
    assert ClosedUnder(g, {b, e});
    forall n | Reach(g, b, n) || Reach(g, e, n)
      ensures Known(schemas, external, n)
    {
      if Reach(g, b, n) {
        ReachInside(g, {b, e}, b, n);
      } else {
        ReachInside(g, {b, e}, e, n);
      }
    }
  }

  /** A chain that leaves the local schemas forces nothing: with a referring to b and b to an external e, no edge is recorded. */
  lemma ExternalChainForcesNothing(a: Name, b: Name, e: Name)
    requires a != b && b != e && a != e
    ensures var schemas: Schemas := map[a := Ref(b, false, false), b := Ref(e, false, false)];
            var external: Schemas := map[e := Plain];
            && !AnyRejected(schemas, external, a) && !AnyRejected(schemas, external, b)
            && RefGraph(schemas, external) == map[a := {}, b := {}]
            && TopologicalOrder(RefGraph(schemas, external), [a, b])
  {
    var schemas: Schemas := map[a := Ref(b, false, false), b := Ref(e, false, false)];
    var external: Schemas := map[e := Plain];
    LeavesLocal(a, b, e);
    forall n, use | n in schemas && Inside(schemas[n], use)
      ensures !Rejected(schemas, external, n, use) && !Forces(schemas, external, n, use)
    {
      InsideRef(schemas[n].ref, use);
    }
    var r := RefGraph(schemas, external);
    assert r.Keys == {a, b} && r[a] == {} && r[b] == {};
    assert r == map[a := {}, b := {}];
  }

  /** So with a before b in the alphabet, a is put before the b it refers to. */
  method SortExternalChain(a: Name, b: Name, e: Name) returns (order: Option<seq<Name>>)
    requires Less(a, b) && b != e && a != e
    ensures order == Some([a, b])
  {
    LessIrreflexive(a);
    ExternalChainForcesNothing(a, b, e);
    var schemas: Schemas := map[a := Ref(b, false, false), b := Ref(e, false, false)];
    var external: Schemas := map[e := Plain];
    order := SortSchemas(schemas, external);
    NoEdgesNoCycle(RefGraph(schemas, external));
    assert Ascending([a, b]) && SameNames([a, b], schemas.Keys);
  }

  lemma NoEdgesNoCycle(g: Graph)
    requires forall n :: Succ(g, n) == {}
    ensures Acyclic(g)
  {}
}
