/**
  Reference resolution: `Model.ResolveRefs`, `Model.AnyRef` and `Model.Structure`.

  The Go resolver writes a lookup result into the `Found` field of every `reference` node
  it reaches, on nodes shared with the catalog. Here the catalog is a constant of the
  `Model` object and the `Found` fields are its one mutable field, a map from reference
  node to the value written there; a node absent from the map has a nil `Found`.

  What the resolver does is specified by `Trace`: the nodes whose `Found` it writes, in
  the order it writes them, and the name whose lookup failed, if one did.
*/
module Resolver {
  import opened Wrappers
  import opened Schemas
  import opened Catalogs

  // ---- The state of the `Found` fields ----------------------------------------------

  /** Every `Found` value written is what lookup gives for the node's own name. */
  ghost predicate Sound(c: Catalog, found: map<RefNode, AnyRef>)
  {
    forall r | r in found :: c.Lookup(r.name) == Some(found[r])
  }

  /** Every property of `props` is fully resolved by the nodes in `resolved`. */
  ghost predicate AllResolved(resolved: set<RefNode>, props: seq<Property>)
  {
    forall j | 0 <= j < |props| :: ResolvedIn(resolved, props[j].schema)
  }

  /** A structure stored in a `Found` field has all its properties resolved. */
  ghost predicate Closed(found: map<RefNode, AnyRef>)
  {
    forall r | r in found && found[r].target.StructureDef? ::
      AllResolved(found.Keys, found[r].target.structure.properties)
  }

  lemma AllResolvedMono(small: set<RefNode>, large: set<RefNode>, props: seq<Property>)
    requires small <= large && AllResolved(small, props)
    ensures AllResolved(large, props)
  {
    forall j | 0 <= j < |props| ensures ResolvedIn(large, props[j].schema) {
      ResolvedInMono(small, large, props[j].schema);
    }
  }

  // ---- The specification of a resolution run ---------------------------------------

  /** The `Found` fields a run writes, in order, and the name whose lookup failed. */
  datatype Trace = Trace(written: seq<RefNode>, failure: Option<string>)
  {
    /** The error the Go code returns for this run. */
    function Error(): Option<Error>
    {
      if failure.Some? then Some(RefNotFound(failure.value)) else None
    }
  }

  const Untouched := Trace([], None)

  /** Run `first`, then `next` only if `first` succeeded: the early `return err`. */
  function Then(first: Trace, next: Trace): Trace
  {
    if first.failure.Some? then first else Trace(first.written + next.written, next.failure)
  }

  /** `ResolveRefs(s)`: a reference writes its node after its target is resolved. */
  ghost function TraceNode(c: Catalog, rank: map<string, nat>, s: Schema, bound: nat): Trace
    requires c.Ranked(rank) && c.Covered(rank, s, bound)
    decreases bound + 1, 0, s
  {
    match s
    case Reference(r) =>
      var t := TraceName(c, rank, r.name);
      if t.failure.Some? then t else Trace(t.written + [r], None)
    case Array(e) => TraceNode(c, rank, e, bound)
    case Or(items) => TraceItems(c, rank, items, bound)
    case And(items) => TraceItems(c, rank, items, bound)
    case Tuple(items) => TraceItems(c, rank, items, bound)
    case Map(k, v) => Then(TraceNode(c, rank, k, bound), TraceNode(c, rank, v, bound))
    case _ => Untouched
  }

  /** The items of an or, and or tuple node, in order, stopping at the first failure. */
  ghost function TraceItems(c: Catalog, rank: map<string, nat>, items: seq<Schema>, bound: nat): Trace
    requires c.Ranked(rank)
    requires forall i | 0 <= i < |items| :: c.Covered(rank, items[i], bound)
    decreases bound + 1, 0, items
  {
    if |items| == 0 then Untouched
    else Then(TraceItems(c, rank, items[..|items| - 1], bound),
              TraceNode(c, rank, items[|items| - 1], bound))
  }

  /** `AnyRef(name)`: a structure's properties are resolved; other categories write nothing. */
  ghost function TraceName(c: Catalog, rank: map<string, nat>, name: string): Trace
    requires c.Ranked(rank) && (c.IsStructureName(name) ==> name in rank)
    decreases c.Level(rank, name), 2
  {
    match c.Lookup(name)
    case None => Trace([], Some(name))
    case Some(a) =>
      if a.target.StructureDef? then TraceProperties(c, rank, a.target.structure.properties, rank[name])
      else Untouched
  }

  /** The property loop of `Model.Structure`, in property order. */
  ghost function TraceProperties(c: Catalog, rank: map<string, nat>, props: seq<Property>, bound: nat): Trace
    requires c.Ranked(rank) && c.PropertiesCovered(rank, props, bound)
    decreases bound + 1, 0, props
  {
    if |props| == 0 then Untouched
    else Then(TraceProperties(c, rank, props[..|props| - 1], bound),
              TraceNode(c, rank, props[|props| - 1].schema, bound))
  }

  // ---- What a run does --------------------------------------------------------------

  /** A run that succeeds has resolved every reference node reachable from `s`. */
  lemma {:induction false} TraceNodeResolves(c: Catalog, rank: map<string, nat>, s: Schema, bound: nat, resolved: set<RefNode>)
    requires c.Ranked(rank) && c.Covered(rank, s, bound)
    requires TraceNode(c, rank, s, bound).failure.None?
    requires Elems(TraceNode(c, rank, s, bound).written) <= resolved
    ensures ResolvedIn(resolved, s)
    decreases s
  {
    match s
    case Reference(r) =>
      assert r in TraceNode(c, rank, s, bound).written;
    case Array(e) => TraceNodeResolves(c, rank, e, bound, resolved);
    case Or(items) => TraceItemsResolves(c, rank, items, bound, resolved);
    case And(items) => TraceItemsResolves(c, rank, items, bound, resolved);
    case Tuple(items) => TraceItemsResolves(c, rank, items, bound, resolved);
    case Map(k, v) =>
      TraceNodeResolves(c, rank, k, bound, resolved);
      TraceNodeResolves(c, rank, v, bound, resolved);
    case _ =>
  }

  lemma {:induction false} TraceItemsResolves(c: Catalog, rank: map<string, nat>, items: seq<Schema>, bound: nat, resolved: set<RefNode>)
    requires c.Ranked(rank)
    requires forall i | 0 <= i < |items| :: c.Covered(rank, items[i], bound)
    requires TraceItems(c, rank, items, bound).failure.None?
    requires Elems(TraceItems(c, rank, items, bound).written) <= resolved
    ensures forall i | 0 <= i < |items| :: ResolvedIn(resolved, items[i])
    decreases items
  {
    if |items| > 0 {
      var n := |items| - 1;
      TraceItemsResolves(c, rank, items[..n], bound, resolved);
      TraceNodeResolves(c, rank, items[n], bound, resolved);
      forall i | 0 <= i < |items| ensures ResolvedIn(resolved, items[i]) {
        if i < n { assert items[i] == items[..n][i]; }
      }
    }
  }

  lemma {:induction false} TracePropertiesResolves(c: Catalog, rank: map<string, nat>, props: seq<Property>, bound: nat, resolved: set<RefNode>)
    requires c.Ranked(rank) && c.PropertiesCovered(rank, props, bound)
    requires TraceProperties(c, rank, props, bound).failure.None?
    requires Elems(TraceProperties(c, rank, props, bound).written) <= resolved
    ensures AllResolved(resolved, props)
    decreases props
  {
    if |props| > 0 {
      var n := |props| - 1;
      TracePropertiesResolves(c, rank, props[..n], bound, resolved);
      TraceNodeResolves(c, rank, props[n].schema, bound, resolved);
      forall j | 0 <= j < |props| ensures ResolvedIn(resolved, props[j].schema) {
        if j < n { assert props[j] == props[..n][j]; }
      }
    }
  }

  /** A run fails only on a name that no category defines, and writes only resolvable nodes. */
  lemma {:induction false} TraceNodeFailsOnMissing(c: Catalog, rank: map<string, nat>, s: Schema, bound: nat)
    requires c.Ranked(rank) && c.Covered(rank, s, bound)
    ensures TraceNode(c, rank, s, bound).failure.Some? ==>
              c.Lookup(TraceNode(c, rank, s, bound).failure.value).None?
    ensures forall r | r in TraceNode(c, rank, s, bound).written :: c.Lookup(r.name).Some?
    decreases bound + 1, 0, s
  {
    match s
    case Reference(r) => TraceNameFailsOnMissing(c, rank, r.name);
    case Array(e) => TraceNodeFailsOnMissing(c, rank, e, bound);
    case Or(items) => TraceItemsFailsOnMissing(c, rank, items, bound);
    case And(items) => TraceItemsFailsOnMissing(c, rank, items, bound);
    case Tuple(items) => TraceItemsFailsOnMissing(c, rank, items, bound);
    case Map(k, v) =>
      TraceNodeFailsOnMissing(c, rank, k, bound);
      TraceNodeFailsOnMissing(c, rank, v, bound);
    case _ =>
  }

  lemma {:induction false} TraceItemsFailsOnMissing(c: Catalog, rank: map<string, nat>, items: seq<Schema>, bound: nat)
    requires c.Ranked(rank)
    requires forall i | 0 <= i < |items| :: c.Covered(rank, items[i], bound)
    ensures TraceItems(c, rank, items, bound).failure.Some? ==>
              c.Lookup(TraceItems(c, rank, items, bound).failure.value).None?
    ensures forall r | r in TraceItems(c, rank, items, bound).written :: c.Lookup(r.name).Some?
    decreases bound + 1, 0, items
  {
    if |items| > 0 {
      TraceItemsFailsOnMissing(c, rank, items[..|items| - 1], bound);
      TraceNodeFailsOnMissing(c, rank, items[|items| - 1], bound);
    }
  }

  lemma {:induction false} TraceNameFailsOnMissing(c: Catalog, rank: map<string, nat>, name: string)
    requires c.Ranked(rank) && (c.IsStructureName(name) ==> name in rank)
    ensures TraceName(c, rank, name).failure.Some? ==>
              c.Lookup(TraceName(c, rank, name).failure.value).None?
    ensures forall r | r in TraceName(c, rank, name).written :: c.Lookup(r.name).Some?
    decreases c.Level(rank, name), 2
  {
    var a := c.Lookup(name);
    if a.Some? && a.value.target.StructureDef? {
      TracePropertiesFailsOnMissing(c, rank, a.value.target.structure.properties, rank[name]);
    }
  }

  lemma {:induction false} TracePropertiesFailsOnMissing(c: Catalog, rank: map<string, nat>, props: seq<Property>, bound: nat)
    requires c.Ranked(rank) && c.PropertiesCovered(rank, props, bound)
    ensures TraceProperties(c, rank, props, bound).failure.Some? ==>
              c.Lookup(TraceProperties(c, rank, props, bound).failure.value).None?
    ensures forall r | r in TraceProperties(c, rank, props, bound).written :: c.Lookup(r.name).Some?
    decreases bound + 1, 0, props
  {
    if |props| > 0 {
      TracePropertiesFailsOnMissing(c, rank, props[..|props| - 1], bound);
      TraceNodeFailsOnMissing(c, rank, props[|props| - 1].schema, bound);
    }
  }

  /** Every node a run writes that names a structure names one ranked below the run's bound. */
  lemma {:induction false} TraceNodeRanked(c: Catalog, rank: map<string, nat>, s: Schema, bound: nat)
    requires c.Ranked(rank) && c.Covered(rank, s, bound)
    ensures forall r | r in TraceNode(c, rank, s, bound).written ::
              c.IsStructureName(r.name) ==> r.name in rank && rank[r.name] < bound
    decreases bound + 1, 0, s
  {
    match s
    case Reference(r) => TraceNameRanked(c, rank, r.name);
    case Array(e) => TraceNodeRanked(c, rank, e, bound);
    case Or(items) => TraceItemsRanked(c, rank, items, bound);
    case And(items) => TraceItemsRanked(c, rank, items, bound);
    case Tuple(items) => TraceItemsRanked(c, rank, items, bound);
    case Map(k, v) =>
      TraceNodeRanked(c, rank, k, bound);
      TraceNodeRanked(c, rank, v, bound);
    case _ =>
  }

  lemma {:induction false} TraceItemsRanked(c: Catalog, rank: map<string, nat>, items: seq<Schema>, bound: nat)
    requires c.Ranked(rank)
    requires forall i | 0 <= i < |items| :: c.Covered(rank, items[i], bound)
    ensures forall r | r in TraceItems(c, rank, items, bound).written ::
              c.IsStructureName(r.name) ==> r.name in rank && rank[r.name] < bound
    decreases bound + 1, 0, items
  {
    if |items| > 0 {
      TraceItemsRanked(c, rank, items[..|items| - 1], bound);
      TraceNodeRanked(c, rank, items[|items| - 1], bound);
    }
  }

  lemma {:induction false} TraceNameRanked(c: Catalog, rank: map<string, nat>, name: string)
    requires c.Ranked(rank) && (c.IsStructureName(name) ==> name in rank)
    ensures forall r | r in TraceName(c, rank, name).written ::
              c.IsStructureName(r.name) ==> r.name in rank && rank[r.name] < c.Level(rank, name)
    decreases c.Level(rank, name), 2
  {
    var a := c.Lookup(name);
    if a.Some? && a.value.target.StructureDef? {
      TracePropertiesRanked(c, rank, a.value.target.structure.properties, rank[name]);
    }
  }

  lemma {:induction false} TracePropertiesRanked(c: Catalog, rank: map<string, nat>, props: seq<Property>, bound: nat)
    requires c.Ranked(rank) && c.PropertiesCovered(rank, props, bound)
    ensures forall r | r in TraceProperties(c, rank, props, bound).written ::
              c.IsStructureName(r.name) ==> r.name in rank && rank[r.name] < bound
    decreases bound + 1, 0, props
  {
    if |props| > 0 {
      TracePropertiesRanked(c, rank, props[..|props| - 1], bound);
      TraceNodeRanked(c, rank, props[|props| - 1].schema, bound);
    }
  }

  /** A reference whose name no category defines makes the run fail. */
  lemma {:induction false} MissingReferenceFails(c: Catalog, rank: map<string, nat>, s: Schema, bound: nat)
    requires c.Ranked(rank) && c.Covered(rank, s, bound)
    requires !AllRefs((r: RefNode) => c.Lookup(r.name).Some?, s)
    ensures TraceNode(c, rank, s, bound).failure.Some?
  {
    var t := TraceNode(c, rank, s, bound);
    TraceNodeFailsOnMissing(c, rank, s, bound);
    if t.failure.None? {
      TraceNodeResolves(c, rank, s, bound, Elems(t.written));
      AllRefsMono((r: RefNode) => r in Elems(t.written), (r: RefNode) => c.Lookup(r.name).Some?, s);
    }
  }

  // ---- Which names a run can reach ------------------------------------------------

  /**
    `n` is a name the resolution of `s` reaches: one of its own references, or a name
    reached through the properties of a structure one of them names.
  */
  ghost predicate NodeReaches(c: Catalog, rank: map<string, nat>, s: Schema, bound: nat, n: string)
    requires c.Ranked(rank) && c.Covered(rank, s, bound)
    decreases bound + 1, 0, s
  {
    match s
    case Reference(r) => NameReaches(c, rank, r.name, n)
    case Array(e) => NodeReaches(c, rank, e, bound, n)
    case Or(items) => ItemsReach(c, rank, items, bound, n)
    case And(items) => ItemsReach(c, rank, items, bound, n)
    case Tuple(items) => ItemsReach(c, rank, items, bound, n)
    case Map(k, v) => NodeReaches(c, rank, k, bound, n) || NodeReaches(c, rank, v, bound, n)
    case _ => false
  }

  ghost predicate ItemsReach(c: Catalog, rank: map<string, nat>, items: seq<Schema>, bound: nat, n: string)
    requires c.Ranked(rank)
    requires forall i | 0 <= i < |items| :: c.Covered(rank, items[i], bound)
    decreases bound + 1, 0, items
  {
    |items| > 0 &&
    (ItemsReach(c, rank, items[..|items| - 1], bound, n) || NodeReaches(c, rank, items[|items| - 1], bound, n))
  }

  /** Resolving `name` reaches the name itself and, for a structure, what its properties reach. */
  ghost predicate NameReaches(c: Catalog, rank: map<string, nat>, name: string, n: string)
    requires c.Ranked(rank) && (c.IsStructureName(name) ==> name in rank)
    decreases c.Level(rank, name), 2
  {
    n == name ||
    (c.IsStructureName(name) &&
     PropertiesReach(c, rank, c.FindStructure(name).value.properties, rank[name], n))
  }

  ghost predicate PropertiesReach(c: Catalog, rank: map<string, nat>, props: seq<Property>, bound: nat, n: string)
    requires c.Ranked(rank) && c.PropertiesCovered(rank, props, bound)
    decreases bound + 1, 0, props
  {
    |props| > 0 &&
    (PropertiesReach(c, rank, props[..|props| - 1], bound, n) ||
     NodeReaches(c, rank, props[|props| - 1].schema, bound, n))
  }

  /** A run that fails, fails on a name it reaches. */
  lemma {:induction false} TraceNodeFailsReached(c: Catalog, rank: map<string, nat>, s: Schema, bound: nat)
    requires c.Ranked(rank) && c.Covered(rank, s, bound)
    ensures TraceNode(c, rank, s, bound).failure.Some? ==>
              NodeReaches(c, rank, s, bound, TraceNode(c, rank, s, bound).failure.value)
    decreases bound + 1, 0, s
  {
    match s
    case Reference(r) => TraceNameFailsReached(c, rank, r.name);
    case Array(e) => TraceNodeFailsReached(c, rank, e, bound);
    case Or(items) => TraceItemsFailsReached(c, rank, items, bound);
    case And(items) => TraceItemsFailsReached(c, rank, items, bound);
    case Tuple(items) => TraceItemsFailsReached(c, rank, items, bound);
    case Map(k, v) =>
      TraceNodeFailsReached(c, rank, k, bound);
      TraceNodeFailsReached(c, rank, v, bound);
    case _ =>
  }

  lemma {:induction false} TraceItemsFailsReached(c: Catalog, rank: map<string, nat>, items: seq<Schema>, bound: nat)
    requires c.Ranked(rank)
    requires forall i | 0 <= i < |items| :: c.Covered(rank, items[i], bound)
    ensures TraceItems(c, rank, items, bound).failure.Some? ==>
              ItemsReach(c, rank, items, bound, TraceItems(c, rank, items, bound).failure.value)
    decreases bound + 1, 0, items
  {
    if |items| > 0 {
      TraceItemsFailsReached(c, rank, items[..|items| - 1], bound);
      TraceNodeFailsReached(c, rank, items[|items| - 1], bound);
    }
  }

  lemma {:induction false} TraceNameFailsReached(c: Catalog, rank: map<string, nat>, name: string)
    requires c.Ranked(rank) && (c.IsStructureName(name) ==> name in rank)
    ensures TraceName(c, rank, name).failure.Some? ==>
              NameReaches(c, rank, name, TraceName(c, rank, name).failure.value)
    decreases c.Level(rank, name), 2
  {
    var a := c.Lookup(name);
    if a.Some? && a.value.target.StructureDef? {
      c.LookupOrder(name);
      TracePropertiesFailsReached(c, rank, a.value.target.structure.properties, rank[name]);
    }
  }

  lemma {:induction false} TracePropertiesFailsReached(c: Catalog, rank: map<string, nat>, props: seq<Property>, bound: nat)
    requires c.Ranked(rank) && c.PropertiesCovered(rank, props, bound)
    ensures TraceProperties(c, rank, props, bound).failure.Some? ==>
              PropertiesReach(c, rank, props, bound, TraceProperties(c, rank, props, bound).failure.value)
    decreases bound + 1, 0, props
  {
    if |props| > 0 {
      TracePropertiesFailsReached(c, rank, props[..|props| - 1], bound);
      TraceNodeFailsReached(c, rank, props[|props| - 1].schema, bound);
    }
  }

  /** A run that succeeds has found a definition for every name it reaches. */
  lemma {:induction false} TraceNodeSucceedsDefined(c: Catalog, rank: map<string, nat>, s: Schema, bound: nat)
    requires c.Ranked(rank) && c.Covered(rank, s, bound)
    ensures TraceNode(c, rank, s, bound).failure.None? ==>
              forall n | NodeReaches(c, rank, s, bound, n) :: c.Lookup(n).Some?
    decreases bound + 1, 0, s
  {
    match s
    case Reference(r) => TraceNameSucceedsDefined(c, rank, r.name);
    case Array(e) => TraceNodeSucceedsDefined(c, rank, e, bound);
    case Or(items) => TraceItemsSucceedsDefined(c, rank, items, bound);
    case And(items) => TraceItemsSucceedsDefined(c, rank, items, bound);
    case Tuple(items) => TraceItemsSucceedsDefined(c, rank, items, bound);
    case Map(k, v) =>
      TraceNodeSucceedsDefined(c, rank, k, bound);
      TraceNodeSucceedsDefined(c, rank, v, bound);
    case _ =>
  }

  lemma {:induction false} TraceItemsSucceedsDefined(c: Catalog, rank: map<string, nat>, items: seq<Schema>, bound: nat)
    requires c.Ranked(rank)
    requires forall i | 0 <= i < |items| :: c.Covered(rank, items[i], bound)
    ensures TraceItems(c, rank, items, bound).failure.None? ==>
              forall n | ItemsReach(c, rank, items, bound, n) :: c.Lookup(n).Some?
    decreases bound + 1, 0, items
  {
    if |items| > 0 {
      TraceItemsSucceedsDefined(c, rank, items[..|items| - 1], bound);
      TraceNodeSucceedsDefined(c, rank, items[|items| - 1], bound);
    }
  }

  lemma {:induction false} TraceNameSucceedsDefined(c: Catalog, rank: map<string, nat>, name: string)
    requires c.Ranked(rank) && (c.IsStructureName(name) ==> name in rank)
    ensures TraceName(c, rank, name).failure.None? ==>
              forall n | NameReaches(c, rank, name, n) :: c.Lookup(n).Some?
    decreases c.Level(rank, name), 2
  {
    c.LookupOrder(name);
    if c.IsStructureName(name) {
      TracePropertiesSucceedsDefined(c, rank, c.FindStructure(name).value.properties, rank[name]);
    }
  }

  lemma {:induction false} TracePropertiesSucceedsDefined(c: Catalog, rank: map<string, nat>, props: seq<Property>, bound: nat)
    requires c.Ranked(rank) && c.PropertiesCovered(rank, props, bound)
    ensures TraceProperties(c, rank, props, bound).failure.None? ==>
              forall n | PropertiesReach(c, rank, props, bound, n) :: c.Lookup(n).Some?
    decreases bound + 1, 0, props
  {
    if |props| > 0 {
      TracePropertiesSucceedsDefined(c, rank, props[..|props| - 1], bound);
      TraceNodeSucceedsDefined(c, rank, props[|props| - 1].schema, bound);
    }
  }

  /** `ResolveRefs(s)` succeeds exactly when every name it transitively reaches is defined. */
  lemma ResolvesIffReachedDefined(c: Catalog, rank: map<string, nat>, s: Schema, bound: nat)
    requires c.Ranked(rank) && c.Covered(rank, s, bound)
    ensures TraceNode(c, rank, s, bound).failure.None?
            <==> forall n | NodeReaches(c, rank, s, bound, n) :: c.Lookup(n).Some?
  {
    TraceNodeFailsReached(c, rank, s, bound);
    TraceNodeFailsOnMissing(c, rank, s, bound);
    TraceNodeSucceedsDefined(c, rank, s, bound);
  }

  /**
    Resolving a structure's properties (`Model.Structure(name)` on an existing structure)
    succeeds exactly when every name they transitively reach is defined in some category.
  */
  lemma StructureResolvesIffReachedDefined(c: Catalog, rank: map<string, nat>, name: string)
    requires c.Ranked(rank) && c.IsStructureName(name) && name in rank
    ensures TraceProperties(c, rank, c.FindStructure(name).value.properties, rank[name]).failure.None?
            <==> forall n | NameReaches(c, rank, name, n) :: c.Lookup(n).Some?
  {
    var props := c.FindStructure(name).value.properties;
    TracePropertiesFailsReached(c, rank, props, rank[name]);
    TracePropertiesFailsOnMissing(c, rank, props, rank[name]);
    TracePropertiesSucceedsDefined(c, rank, props, rank[name]);
  }

  /** Once an item fails, the items after it are not visited. */
  lemma {:induction false} TraceItemsStops(c: Catalog, rank: map<string, nat>, items: seq<Schema>, bound: nat, i: nat)
    requires c.Ranked(rank)
    requires forall k | 0 <= k < |items| :: c.Covered(rank, items[k], bound)
    requires i <= |items|
    requires TraceItems(c, rank, items[..i], bound).failure.Some?
    ensures TraceItems(c, rank, items, bound) == TraceItems(c, rank, items[..i], bound)
    decreases |items|
  {
    if i < |items| {
      var n := |items| - 1;
      assert items[..n][..i] == items[..i];
      TraceItemsStops(c, rank, items[..n], bound, i);
    } else {
      assert items[..i] == items;
    }
  }

  /** A tree with no reference node is left exactly as it was. */
  lemma {:induction false} NoReferencesUntouched(c: Catalog, rank: map<string, nat>, s: Schema, bound: nat)
    requires c.Ranked(rank) && c.Covered(rank, s, bound)
    requires NoReferences(s)
    ensures TraceNode(c, rank, s, bound) == Untouched
    decreases s
  {
    match s
    case Reference(r) =>
    case Array(e) => NoReferencesUntouched(c, rank, e, bound);
    case Or(items) => NoReferencesItemsUntouched(c, rank, items, bound);
    case And(items) => NoReferencesItemsUntouched(c, rank, items, bound);
    case Tuple(items) => NoReferencesItemsUntouched(c, rank, items, bound);
    case Map(k, v) =>
      NoReferencesUntouched(c, rank, k, bound);
      NoReferencesUntouched(c, rank, v, bound);
    case _ =>
  }

  lemma {:induction false} NoReferencesItemsUntouched(c: Catalog, rank: map<string, nat>, items: seq<Schema>, bound: nat)
    requires c.Ranked(rank)
    requires forall i | 0 <= i < |items| :: c.Covered(rank, items[i], bound)
    requires forall i | 0 <= i < |items| :: NoReferences(items[i])
    ensures TraceItems(c, rank, items, bound) == Untouched
    decreases items
  {
    if |items| > 0 {
      NoReferencesItemsUntouched(c, rank, items[..|items| - 1], bound);
      NoReferencesUntouched(c, rank, items[|items| - 1], bound);
    }
  }

  // ---- The Go `Model` -----------------------------------------------------------------

  class Model {
    const catalog: Catalog
    /** The `Found` field of every reference node; a node not in the map has a nil `Found`. */
    var found: map<RefNode, AnyRef>

    ghost predicate Valid()
      reads this
    {
      Sound(catalog, found) && Closed(found)
    }

    /** A freshly decoded model: no reference node has been resolved yet. */
    constructor (c: Catalog)
      ensures catalog == c && found == map[]
      ensures Valid()
    {
      catalog := c;
      found := map[];
    }

    /** Adding resolved nodes keeps every stored structure resolved. */
    lemma ClosedGrows(old_found: map<RefNode, AnyRef>, new_found: map<RefNode, AnyRef>)
      requires Closed(old_found) && old_found.Keys <= new_found.Keys
      requires forall r | r in old_found :: new_found[r] == old_found[r]
      requires forall r | r in new_found && r !in old_found && new_found[r].target.StructureDef? ::
                 AllResolved(new_found.Keys, new_found[r].target.structure.properties)
      ensures Closed(new_found)
    {
      forall r | r in new_found && new_found[r].target.StructureDef?
        ensures AllResolved(new_found.Keys, new_found[r].target.structure.properties)
      {
        if r in old_found {
          AllResolvedMono(old_found.Keys, new_found.Keys, old_found[r].target.structure.properties);
        }
      }
    }

    /** Writing a node's `Found` with its own lookup result keeps the `Found` fields valid. */
    lemma StoreKeepsValid(before: map<RefNode, AnyRef>, r: RefNode, a: Catalogs.AnyRef)
      requires Sound(catalog, before) && Closed(before) && catalog.Lookup(r.name) == Some(a)
      requires a.target.StructureDef? ==> AllResolved(before.Keys, a.target.structure.properties)
      ensures Sound(catalog, before[r := a]) && Closed(before[r := a])
      ensures before[r := a].Keys == before.Keys + {r}
    {
      var after := before[r := a];
      if a.target.StructureDef? {
        AllResolvedMono(before.Keys, after.Keys, a.target.structure.properties);
      }
      ClosedGrows(before, after);
    }

    /**
      Resolves every reference node reachable from `s`, writing each node's `Found`,
      and stops at the first name that cannot be found.
    */
    method ResolveRefs(s: Schema, ghost rank: map<string, nat>, ghost bound: nat) returns (err: Option<Error>)
      requires Valid() && catalog.Ranked(rank) && catalog.Covered(rank, s, bound)
      modifies this
      decreases bound + 1, 0, s
      ensures Valid()
      ensures found.Keys == old(found).Keys + Elems(TraceNode(catalog, rank, s, bound).written)
      ensures err == TraceNode(catalog, rank, s, bound).Error()
      ensures err.None? ==> ResolvedIn(found.Keys, s)
    {
      match s {
        case Reference(r) =>
          err := ResolveReference(r, rank, bound);
        case Array(e) =>
          err := ResolveRefs(e, rank, bound);
        case Or(items) =>
          err := ResolveItems(items, rank, bound);
        case And(items) =>
          err := ResolveItems(items, rank, bound);
        case Map(k, v) =>
          err := ResolveRefs(k, rank, bound);
          if err.Some? {
            return;
          }
          err := ResolveRefs(v, rank, bound);
          ElemsConcat(TraceNode(catalog, rank, k, bound).written, TraceNode(catalog, rank, v, bound).written);
        case Tuple(items) =>
          err := ResolveItems(items, rank, bound);
        case _ =>
          err := None;
      }
      if err.None? {
        TraceNodeResolves(catalog, rank, s, bound, found.Keys);
      }
    }

    /** The `reference` case: look the name up, then write the node's `Found`. */
    method ResolveReference(r: RefNode, ghost rank: map<string, nat>, ghost bound: nat) returns (err: Option<Error>)
      requires Valid() && catalog.Ranked(rank) && catalog.Covered(rank, Reference(r), bound)
      modifies this
      decreases bound + 1, 0, Reference(r), 0
      ensures Valid()
      ensures found.Keys == old(found).Keys + Elems(TraceNode(catalog, rank, Reference(r), bound).written)
      ensures err == TraceNode(catalog, rank, Reference(r), bound).Error()
      ensures err.None? ==> r in found
    {
      ghost var looked := TraceName(catalog, rank, r.name);
      var a := AnyRef(r.name, rank);
      if a.Err? {
        return Some(a.error);
      }
      ghost var before := found;
      found := found[r := a.value];
      StoreKeepsValid(before, r, a.value);
      assert TraceNode(catalog, rank, Reference(r), bound).written == looked.written + [r];
      ElemsSnoc(looked.written, r);
      err := None;
    }

    /** The `for _, item := range ...Items` loop of the or, and and tuple cases. */
    method ResolveItems(items: seq<Schema>, ghost rank: map<string, nat>, ghost bound: nat) returns (err: Option<Error>)
      requires Valid() && catalog.Ranked(rank)
      requires forall i | 0 <= i < |items| :: catalog.Covered(rank, items[i], bound)
      modifies this
      decreases bound + 1, 0, items
      ensures Valid()
      ensures found.Keys == old(found).Keys + Elems(TraceItems(catalog, rank, items, bound).written)
      ensures err == TraceItems(catalog, rank, items, bound).Error()
    {
      var i := 0;
      while i < |items|
        invariant 0 <= i <= |items|
        invariant Valid()
        invariant TraceItems(catalog, rank, items[..i], bound).failure.None?
        invariant found.Keys == old(found).Keys + Elems(TraceItems(catalog, rank, items[..i], bound).written)
      {
        assert items[..i + 1][..i] == items[..i];
        ghost var done := TraceItems(catalog, rank, items[..i], bound);
        ghost var step := TraceNode(catalog, rank, items[i], bound);
        assert TraceItems(catalog, rank, items[..i + 1], bound) == Then(done, step);
        err := ResolveRefs(items[i], rank, bound);
        ElemsConcat(done.written, step.written);
        if err.Some? {
          TraceItemsStops(catalog, rank, items, bound, i + 1);
          return;
        }
        i := i + 1;
      }
      assert items[..i] == items;
      err := None;
    }

    /**
      The definition `name` refers to: structures first (resolved through `Structure`),
      then enumerations, then type aliases; "ref not found" when none has the name.
    */
    method AnyRef(name: string, ghost rank: map<string, nat>) returns (r: Result<Catalogs.AnyRef, Error>)
      requires Valid() && catalog.Ranked(rank) && (catalog.IsStructureName(name) ==> name in rank)
      modifies this
      decreases catalog.Level(rank, name), 3
      ensures Valid()
      ensures found.Keys == old(found).Keys + Elems(TraceName(catalog, rank, name).written)
      ensures r.Ok? <==> TraceName(catalog, rank, name).failure.None?
      ensures r.Ok? ==> catalog.Lookup(name) == Some(r.value) && r.value.name == name
      ensures r.Ok? && r.value.target.StructureDef? ==>
                AllResolved(found.Keys, r.value.target.structure.properties)
      ensures r.Err? ==> r.error == RefNotFound(TraceName(catalog, rank, name).failure.value)
    {
      if catalog.FindStructure(name).Some? {
        var s := Structure(name, rank);
        if s.Err? {
          return Err(s.error);
        }
        return Ok(Catalogs.AnyRef(name, StructureDef(s.value)));
      }
      var e := catalog.FindEnumeration(name);
      if e.Some? {
        return Ok(Catalogs.AnyRef(name, EnumerationDef(e.value)));
      }
      var a := catalog.FindTypeAlias(name);
      if a.Some? {
        return Ok(Catalogs.AnyRef(name, TypeAliasDef(a.value)));
      }
      return Err(RefNotFound(name));
    }

    /**
      The first structure named `name` with every property's references resolved, in
      property order; "structure not found" when no structure has the name, and the
      first resolution error otherwise.
    */
    method Structure(name: string, ghost rank: map<string, nat>) returns (r: Result<Catalogs.Structure, Error>)
      requires Valid() && catalog.Ranked(rank) && (catalog.IsStructureName(name) ==> name in rank)
      modifies this
      decreases catalog.Level(rank, name), 2
      ensures Valid()
      ensures catalog.FindStructure(name).None? ==> r == Err(StructureNotFound(name)) && found == old(found)
      ensures catalog.FindStructure(name).Some? ==>
                var t := TraceProperties(catalog, rank, catalog.FindStructure(name).value.properties, rank[name]);
                && found.Keys == old(found).Keys + Elems(t.written)
                && (r.Ok? <==> t.failure.None?)
                && (r.Err? ==> r.error == RefNotFound(t.failure.value))
      ensures r.Ok? ==> catalog.FindStructure(name) == Some(r.value) && AllResolved(found.Keys, r.value.properties)
    {
      var s := catalog.FindStructure(name);
      if s.None? {
        return Err(StructureNotFound(name));
      }
      var err := ResolveProperties(s.value.properties, rank, rank[name]);
      if err.Some? {
        return Err(err.value);
      }
      return Ok(s.value);
    }

    /** The property loop of `Structure`: each property's type in order, stopping at the first error. */
    method ResolveProperties(props: seq<Property>, ghost rank: map<string, nat>, ghost bound: nat) returns (err: Option<Error>)
      requires Valid() && catalog.Ranked(rank) && catalog.PropertiesCovered(rank, props, bound)
      modifies this
      decreases bound + 1, 1
      ensures Valid()
      ensures found.Keys == old(found).Keys + Elems(TraceProperties(catalog, rank, props, bound).written)
      ensures err == TraceProperties(catalog, rank, props, bound).Error()
      ensures err.None? ==> AllResolved(found.Keys, props)
    {
      assert props[..0] == [] && Elems(Untouched.written) == {};
      var i := 0;
      while i < |props|
        invariant 0 <= i <= |props|
        invariant Valid()
        invariant TraceProperties(catalog, rank, props[..i], bound).failure.None?
        invariant found.Keys == old(found).Keys + Elems(TraceProperties(catalog, rank, props[..i], bound).written)
      {
        assert props[..i + 1][..i] == props[..i];
        ghost var done := TraceProperties(catalog, rank, props[..i], bound);
        ghost var step := TraceNode(catalog, rank, props[i].schema, bound);
        assert TraceProperties(catalog, rank, props[..i + 1], bound) == Then(done, step);
        ghost var keysBefore := found.Keys;
        err := ResolveRefs(props[i].schema, rank, bound);
        ElemsConcat(done.written, step.written);
        assert found.Keys == keysBefore + Elems(step.written);
        if err.Some? {
          TracePropertiesStops(catalog, rank, props, bound, i + 1);
          return;
        }
        i := i + 1;
      }
      assert props[..i] == props;
      TracePropertiesResolves(catalog, rank, props, bound, found.Keys);
      err := None;
    }
  }

  lemma {:induction false} TracePropertiesStops(c: Catalog, rank: map<string, nat>, props: seq<Property>, bound: nat, i: nat)
    requires c.Ranked(rank) && c.PropertiesCovered(rank, props, bound)
    requires i <= |props|
    requires TraceProperties(c, rank, props[..i], bound).failure.Some?
    ensures TraceProperties(c, rank, props, bound) == TraceProperties(c, rank, props[..i], bound)
    decreases |props|
  {
    if i < |props| {
      var n := |props| - 1;
      assert props[..n][..i] == props[..i];
      TracePropertiesStops(c, rank, props[..n], bound, i);
    } else {
      assert props[..i] == props;
    }
  }
}
