/**
  The definition catalog (the Go `Model`'s named collections) and its name lookup.

  Lookup scans structures, then enumerations, then type aliases, and the first definition
  whose name matches wins; a name defined in two categories resolves by that order.
*/
module Catalogs {
  import opened Wrappers
  import opened Schemas

  /** A structure property: its wire name, its type and its `optional` flag. */
  datatype Property = Property(name: string, schema: Schema, optional: bool)

  datatype Structure = Structure(name: string, properties: seq<Property>)

  /** An enumeration as the generator sees it: only its name is ever read. */
  datatype Enumeration = Enumeration(name: string)

  /** A type alias as the generator sees it: only its name is ever read. */
  datatype TypeAlias = TypeAlias(name: string)

  /** The one definition an `AnyRef` points at: exactly one of its three pointers is set. */
  datatype Definition =
    | StructureDef(structure: Structure)
    | EnumerationDef(enumeration: Enumeration)
    | TypeAliasDef(alias: TypeAlias)
  {
    function Name(): string
    {
      match this
      case StructureDef(s) => s.name
      case EnumerationDef(e) => e.name
      case TypeAliasDef(a) => a.name
    }
  }

  /** The value stored in a reference node's `Found` field. */
  datatype AnyRef = AnyRef(name: string, target: Definition)

  datatype Catalog = Catalog(
    structures: seq<Structure>,
    enumerations: seq<Enumeration>,
    typeAliases: seq<TypeAlias>)
  {
    /** The first structure named `name` (the scan of `Model.Structure`). */
    function FindStructure(name: string): (r: Option<Structure>)
      ensures r.Some? ==> r.value.name == name
    {
      ScanStructure(name, 0)
    }

    /** The `for ... range` scan from position `i`: the first structure from there named `name`. */
    function ScanStructure(name: string, i: nat): (r: Option<Structure>)
      requires i <= |structures|
      decreases |structures| - i
      ensures r.Some? ==> r.value.name == name
    {
      if i == |structures| then None
      else if structures[i].name == name then Some(structures[i])
      else ScanStructure(name, i + 1)
    }

    lemma {:induction false} ScanStructureIsFirst(name: string, i: nat)
      requires i <= |structures|
      decreases |structures| - i
      ensures ScanStructure(name, i).Some? ==>
                exists k :: i <= k < |structures| && structures[k] == ScanStructure(name, i).value &&
                            forall j :: i <= j < k ==> structures[j].name != name
      ensures ScanStructure(name, i).None? <==> forall k :: i <= k < |structures| ==> structures[k].name != name
    {
      if i < |structures| && structures[i].name != name {
        ScanStructureIsFirst(name, i + 1);
      }
    }

    /** The first enumeration named `name`. */
    function FindEnumeration(name: string): (r: Option<Enumeration>)
      ensures r.Some? ==> r.value.name == name
    {
      ScanEnumeration(name, 0)
    }

    /** The `for ... range` scan from position `i`: the first enumeration from there named `name`. */
    function ScanEnumeration(name: string, i: nat): (r: Option<Enumeration>)
      requires i <= |enumerations|
      decreases |enumerations| - i
      ensures r.Some? ==> r.value.name == name
    {
      if i == |enumerations| then None
      else if enumerations[i].name == name then Some(enumerations[i])
      else ScanEnumeration(name, i + 1)
    }

    lemma {:induction false} ScanEnumerationIsFirst(name: string, i: nat)
      requires i <= |enumerations|
      decreases |enumerations| - i
      ensures ScanEnumeration(name, i).Some? ==>
                exists k :: i <= k < |enumerations| && enumerations[k] == ScanEnumeration(name, i).value &&
                            forall j :: i <= j < k ==> enumerations[j].name != name
      ensures ScanEnumeration(name, i).None? <==> forall k :: i <= k < |enumerations| ==> enumerations[k].name != name
    {
      if i < |enumerations| && enumerations[i].name != name {
        ScanEnumerationIsFirst(name, i + 1);
      }
    }

    /** The first type alias named `name`. */
    function FindTypeAlias(name: string): (r: Option<TypeAlias>)
      ensures r.Some? ==> r.value.name == name
    {
      ScanTypeAlias(name, 0)
    }

    /** The `for ... range` scan from position `i`: the first type alias from there named `name`. */
    function ScanTypeAlias(name: string, i: nat): (r: Option<TypeAlias>)
      requires i <= |typeAliases|
      decreases |typeAliases| - i
      ensures r.Some? ==> r.value.name == name
    {
      if i == |typeAliases| then None
      else if typeAliases[i].name == name then Some(typeAliases[i])
      else ScanTypeAlias(name, i + 1)
    }

    lemma {:induction false} ScanTypeAliasIsFirst(name: string, i: nat)
      requires i <= |typeAliases|
      decreases |typeAliases| - i
      ensures ScanTypeAlias(name, i).Some? ==>
                exists k :: i <= k < |typeAliases| && typeAliases[k] == ScanTypeAlias(name, i).value &&
                            forall j :: i <= j < k ==> typeAliases[j].name != name
      ensures ScanTypeAlias(name, i).None? <==> forall k :: i <= k < |typeAliases| ==> typeAliases[k].name != name
    {
      if i < |typeAliases| && typeAliases[i].name != name {
        ScanTypeAliasIsFirst(name, i + 1);
      }
    }

    /**
      Which definition `Model.AnyRef` returns for `name`: structures first, then
      enumerations, then type aliases; none when no category has the name.
    */
    function Lookup(name: string): (r: Option<AnyRef>)
      ensures r.Some? ==> r.value.name == name && r.value.target.Name() == name
    {
      match FindStructure(name)
      case Some(s) => Some(AnyRef(name, StructureDef(s)))
      case None =>
        match FindEnumeration(name)
        case Some(e) => Some(AnyRef(name, EnumerationDef(e)))
        case None =>
          match FindTypeAlias(name)
          case Some(a) => Some(AnyRef(name, TypeAliasDef(a)))
          case None => None
    }

    /** Each scan returns the first definition with the name, and none only when no definition has it. */
    lemma FindIsFirst(name: string)
      ensures FindStructure(name).Some? ==>
                exists i :: 0 <= i < |structures| && structures[i] == FindStructure(name).value &&
                            forall j :: 0 <= j < i ==> structures[j].name != name
      ensures FindStructure(name).None? <==> forall i :: 0 <= i < |structures| ==> structures[i].name != name
      ensures FindEnumeration(name).Some? ==>
                exists i :: 0 <= i < |enumerations| && enumerations[i] == FindEnumeration(name).value &&
                            forall j :: 0 <= j < i ==> enumerations[j].name != name
      ensures FindEnumeration(name).None? <==> forall i :: 0 <= i < |enumerations| ==> enumerations[i].name != name
      ensures FindTypeAlias(name).Some? ==>
                exists i :: 0 <= i < |typeAliases| && typeAliases[i] == FindTypeAlias(name).value &&
                            forall j :: 0 <= j < i ==> typeAliases[j].name != name
      ensures FindTypeAlias(name).None? <==> forall i :: 0 <= i < |typeAliases| ==> typeAliases[i].name != name
    {
      ScanStructureIsFirst(name, 0);
      ScanEnumerationIsFirst(name, 0);
      ScanTypeAliasIsFirst(name, 0);
    }

    /**
      Lookup tries structures, then enumerations, then type aliases, and fails only when
      no category has the name.
    */
    lemma LookupOrder(name: string)
      ensures FindStructure(name).Some? ==> Lookup(name) == Some(AnyRef(name, StructureDef(FindStructure(name).value)))
      ensures FindStructure(name).None? && FindEnumeration(name).Some? ==>
                Lookup(name) == Some(AnyRef(name, EnumerationDef(FindEnumeration(name).value)))
      ensures FindStructure(name).None? && FindEnumeration(name).None? && FindTypeAlias(name).Some? ==>
                Lookup(name) == Some(AnyRef(name, TypeAliasDef(FindTypeAlias(name).value)))
      ensures Lookup(name).None? <==> (forall i :: 0 <= i < |structures| ==> structures[i].name != name) &&
                                      (forall i :: 0 <= i < |enumerations| ==> enumerations[i].name != name) &&
                                      (forall i :: 0 <= i < |typeAliases| ==> typeAliases[i].name != name)
    {
      FindIsFirst(name);
    }

    /** A name resolves to a structure exactly when some structure carries it. */
    predicate IsStructureName(name: string)
    {
      FindStructure(name).Some?
    }

    // ---- Termination domain -------------------------------------------------------
    // `Model.AnyRef` on a structure resolves that structure's properties, which may
    // reference further structures, with no cycle guard: a cycle that resolution
    // actually reaches recurses until the Go stack overflows. The model is confined to
    // catalogs whose structure references are acyclic, witnessed by a `rank` that
    // strictly decreases along every such reference. This also excludes cyclic catalogs
    // on which the Go program stops early with an error before reaching the cycle.

    /** Every structure that `s` references is ranked below `bound`. */
    ghost predicate Covered(rank: map<string, nat>, s: Schema, bound: nat)
    {
      match s
      case Reference(r) => IsStructureName(r.name) ==> r.name in rank && rank[r.name] < bound
      case Array(e) => Covered(rank, e, bound)
      case Or(items) => forall i | 0 <= i < |items| :: Covered(rank, items[i], bound)
      case And(items) => forall i | 0 <= i < |items| :: Covered(rank, items[i], bound)
      case Tuple(items) => forall i | 0 <= i < |items| :: Covered(rank, items[i], bound)
      case Map(k, v) => Covered(rank, k, bound) && Covered(rank, v, bound)
      case _ => true
    }

    ghost predicate PropertiesCovered(rank: map<string, nat>, props: seq<Property>, bound: nat)
    {
      forall j | 0 <= j < |props| :: Covered(rank, props[j].schema, bound)
    }

    /** Every ranked structure references only structures of smaller rank. */
    ghost predicate Ranked(rank: map<string, nat>)
    {
      forall n | n in rank && IsStructureName(n) ::
        PropertiesCovered(rank, FindStructure(n).value.properties, rank[n])
    }

    /** The recursion level of resolving `name`: one above its rank for a structure, else 0. */
    ghost function Level(rank: map<string, nat>, name: string): nat
      requires IsStructureName(name) ==> name in rank
    {
      if IsStructureName(name) then rank[name] + 1 else 0
    }
  }

  /** A name in two categories resolves to the structure: the scan order decides, not absence of collision. */
  lemma StructureWinsOverEnumeration(c: Catalog, i: nat, k: nat)
    requires i < |c.structures| && k < |c.enumerations|
    requires c.structures[i].name == c.enumerations[k].name
    ensures c.Lookup(c.structures[i].name).Some? && c.Lookup(c.structures[i].name).value.target.StructureDef?
  {
    c.FindIsFirst(c.structures[i].name);
  }
}
