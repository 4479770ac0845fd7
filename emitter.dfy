/**
  The Go struct emitter: `pp.PrintStruct`.

  Printing a structure walks its properties in order. When a property's type is itself a
  `reference` to a structure, that structure is printed first (depth first); a reference
  nested inside an array, or, and, map or tuple type is not followed and gives an empty
  type name. One field line is collected per property; only then does it write
  `type <Name> struct {`, the field lines and `}`. A property whose own reference node
  was never resolved panics with "ref not found".

  The emitter reads only the `Found` fields, never the catalog. Output is a sequence of
  lines rather than bytes on a writer, and a field line carries the property's wire name,
  from which the Go field name is derived by `strcase.ToGoPascal` when the line is rendered.
*/
module Emitter {
  import opened Wrappers
  import opened Schemas
  import opened Catalogs
  import opened Resolver

  /** One line of emitted Go source. */
  datatype Line =
    | Open(name: string)                                 // type <name> struct {
    | Field(name: string, typeName: string, tag: string) // ToGoPascal(<name>) <typeName> `json:"<tag>"`
    | Close                                              // }

  /** The lines printing one structure writes, and the panic that cut it short, if any. */
  datatype Emission = Emission(lines: seq<Line>, panic: Option<string>)

  /** The state of the property loop: lines written so far, field lines collected, panic. */
  datatype Pass = Pass(lines: seq<Line>, fields: seq<Line>, panic: Option<string>)

  /** What the `switch` on one property's kind produces: nested lines, the type name, a panic. */
  datatype Turn = Turn(lines: seq<Line>, typeName: string, panic: Option<string>)

  /**
    The Go type of a field: a pointer to a referenced structure, the name of a referenced
    enumeration or alias, `string` for the base type `string`, and nothing otherwise.
  */
  function TypeName(found: map<RefNode, AnyRef>, s: Schema): (r: string)
    requires s.Reference? ==> s.ref in found
    ensures !s.Reference? ==> r == "" || r == "string"
  {
    match s
    case Reference(r) =>
      (match found[r].target
       case StructureDef(t) => "*" + t.name
       case EnumerationDef(e) => e.name
       case TypeAliasDef(a) => a.name)
    case Base(n) => if n == "string" then "string" else ""
    case _ => ""
  }

  /** The type name is the target's own name, starred for a structure; only base `string` is named otherwise. */
  lemma TypeNameChoice(found: map<RefNode, AnyRef>, s: Schema)
    requires s.Reference? ==> s.ref in found
    ensures s.Reference? ==>
              TypeName(found, s) == (if found[s.ref].target.StructureDef? then "*" else "") + found[s.ref].target.Name()
    ensures !s.Reference? ==> (TypeName(found, s) == "string" <==> s == Base("string"))
  {
  }

  /** The field line of a property: the tag is the wire name, with `omitempty` on every field. */
  function FieldLine(found: map<RefNode, AnyRef>, p: Property): (l: Line)
    requires p.schema.Reference? ==> p.schema.ref in found
    ensures l.Field? && l.tag == p.name + ",omitempty"  // whatever `p.optional` says
  {
    Field(p.name, TypeName(found, p.schema), p.name + ",omitempty")
  }

  /** Every property's own reference node, if it has one, has been resolved. */
  ghost predicate FieldsResolved(found: map<RefNode, AnyRef>, props: seq<Property>)
  {
    forall j | 0 <= j < |props| :: props[j].schema.Reference? ==> props[j].schema.ref in found
  }

  /** The declaration of `s`: its opening line, a field line per property in order, the close. */
  ghost function Declaration(found: map<RefNode, AnyRef>, s: Structure): seq<Line>
    requires FieldsResolved(found, s.properties)
  {
    [Open(s.name)] +
    seq(|s.properties|, j requires 0 <= j < |s.properties| => FieldLine(found, s.properties[j])) +
    [Close]
  }

  // ---- Termination domain -------------------------------------------------------------
  // `PrintStruct` recurses into the structure stored in a reference's `Found` field, with no
  // cycle guard. A `rank` that strictly decreases from each stored structure to the stored
  // structures its properties refer to witnesses that the recursion ends.

  /** A schema that is a reference resolved to a structure: that structure is printed first. */
  predicate Nested(found: map<RefNode, AnyRef>, s: Schema)
  {
    s.Reference? && s.ref in found && found[s.ref].target.StructureDef?
  }

  /** A nested structure `s` leads to is ranked below `bound`. */
  ghost predicate NestedBelow(found: map<RefNode, AnyRef>, rank: map<string, nat>, s: Schema, bound: nat)
  {
    Nested(found, s) ==> s.ref.name in rank && rank[s.ref.name] < bound
  }

  ghost predicate Below(found: map<RefNode, AnyRef>, rank: map<string, nat>, props: seq<Property>, bound: nat)
  {
    forall j | 0 <= j < |props| :: NestedBelow(found, rank, props[j].schema, bound)
  }

  /** Every stored structure is ranked, and refers only to stored structures of smaller rank. */
  ghost predicate Acyclic(found: map<RefNode, AnyRef>, rank: map<string, nat>)
  {
    forall r | r in found && found[r].target.StructureDef? ::
      r.name in rank && Below(found, rank, found[r].target.structure.properties, rank[r.name])
  }

  // ---- The specification of printing ----------------------------------------------------

  /**
    The `switch` on a property's kind: a reference must be resolved, and a reference to a
    structure prints that structure first; the type name is the one `TypeName` gives.
  */
  ghost function Visit(found: map<RefNode, AnyRef>, rank: map<string, nat>,
                       s: Schema, bound: nat): (r: Turn)
    requires Acyclic(found, rank) && NestedBelow(found, rank, s, bound)
    decreases bound, 0, 0, 0
    ensures r.panic.None? ==> (s.Reference? ==> s.ref in found) && r.typeName == TypeName(found, s)
    ensures s.Reference? && s.ref !in found ==> r.panic == Some("ref not found: " + s.ref.name)
    ensures !Nested(found, s) ==> r.lines == [] && (r.panic.Some? <==> s.Reference? && s.ref !in found)
  {
    match s
    case Reference(ref) =>
      if ref !in found then Turn([], "", Some("ref not found: " + ref.name))
      else
        (match found[ref].target
         case StructureDef(t) =>
           var inner := Print(found, rank, t, rank[ref.name]);
           Turn(inner.lines, if inner.panic.Some? then "" else "*" + t.name, inner.panic)
         case EnumerationDef(e) => Turn([], e.name, None)
         case TypeAliasDef(a) => Turn([], a.name, None))
    case Base(n) => Turn([], if n == "string" then "string" else "", None)
    case _ => Turn([], "", None)
  }

  /** One turn of the property loop: property `p` after the properties that produced `before`. */
  ghost function Step(found: map<RefNode, AnyRef>, rank: map<string, nat>,
                      before: Pass, p: Property, bound: nat): (r: Pass)
    requires Acyclic(found, rank) && NestedBelow(found, rank, p.schema, bound)
    decreases bound, 0, 0, 1
    ensures before.panic.Some? ==> r == before
    ensures r.panic.None? ==> && before.panic.None?
                              && (p.schema.Reference? ==> p.schema.ref in found)
                              && r.fields == before.fields + [FieldLine(found, p)]
  {
    if before.panic.Some? then before
    else
      var v := Visit(found, rank, p.schema, bound);
      if v.panic.Some? then Pass(before.lines + v.lines, before.fields, v.panic)
      else Pass(before.lines + v.lines, before.fields + [Field(p.name, v.typeName, p.name + ",omitempty")], None)
  }

  /** The property loop of `PrintStruct` over the first `n` properties of `props`. */
  ghost function PrintProps(found: map<RefNode, AnyRef>, rank: map<string, nat>,
                            props: seq<Property>, n: nat, bound: nat): Pass
    requires Acyclic(found, rank) && Below(found, rank, props, bound) && n <= |props|
    decreases bound, 0, n, 2
  {
    if n == 0 then Pass([], [], None)
    else Step(found, rank, PrintProps(found, rank, props, n - 1, bound), props[n - 1], bound)
  }

  /** What `PrintStruct(s)` writes: the nested structures, then the declaration of `s`. */
  ghost function Print(found: map<RefNode, AnyRef>, rank: map<string, nat>,
                       s: Structure, bound: nat): Emission
    requires Acyclic(found, rank) && Below(found, rank, s.properties, bound)
    decreases bound, 1
  {
    var pass := PrintProps(found, rank, s.properties, |s.properties|, bound);
    if pass.panic.Some? then Emission(pass.lines, pass.panic)
    else Emission(pass.lines + [Open(s.name)] + pass.fields + [Close], None)
  }

  // ---- What printing does ------------------------------------------------------------

  /** Once a property panics, the properties after it are not looked at. */
  lemma {:induction false} PrintPropsStops(found: map<RefNode, AnyRef>, rank: map<string, nat>,
                                           props: seq<Property>, n: nat, bound: nat, i: nat)
    requires Acyclic(found, rank) && Below(found, rank, props, bound)
    requires i <= n <= |props|
    requires PrintProps(found, rank, props, i, bound).panic.Some?
    ensures PrintProps(found, rank, props, n, bound) == PrintProps(found, rank, props, i, bound)
    decreases n
  {
    if i < n {
      PrintPropsStops(found, rank, props, n - 1, bound, i);
    }
  }

  /** A loop that finishes has one field line per property, in property order. */
  lemma {:induction false} PrintPropsFields(found: map<RefNode, AnyRef>, rank: map<string, nat>,
                                            props: seq<Property>, n: nat, bound: nat)
    requires Acyclic(found, rank) && Below(found, rank, props, bound) && n <= |props|
    requires PrintProps(found, rank, props, n, bound).panic.None?
    ensures |PrintProps(found, rank, props, n, bound).fields| == n
    ensures forall j | 0 <= j < n ::
              && (props[j].schema.Reference? ==> props[j].schema.ref in found)
              && PrintProps(found, rank, props, n, bound).fields[j] == FieldLine(found, props[j])
    decreases n
  {
    if n > 0 {
      PrintPropsFields(found, rank, props, n - 1, bound);
    }
  }

  /** A structure printed without a panic ends with its own declaration, after the nested ones. */
  lemma PrintEndsWithDeclaration(found: map<RefNode, AnyRef>, rank: map<string, nat>,
                                 s: Structure, bound: nat)
    requires Acyclic(found, rank) && Below(found, rank, s.properties, bound)
    requires Print(found, rank, s, bound).panic.None?
    ensures FieldsResolved(found, s.properties)
    ensures Print(found, rank, s, bound).lines ==
              PrintProps(found, rank, s.properties, |s.properties|, bound).lines + Declaration(found, s)
  {
    var props := s.properties;
    PrintPropsFields(found, rank, props, |props|, bound);
    var pass := PrintProps(found, rank, props, |props|, bound);
    assert pass.fields == seq(|props|, j requires 0 <= j < |props| => FieldLine(found, props[j]));
  }

  /** The loop only ever appends: fewer properties write a prefix of the lines. */
  lemma {:induction false} PrintPropsGrows(found: map<RefNode, AnyRef>, rank: map<string, nat>,
                                           props: seq<Property>, n: nat, bound: nat, i: nat)
    requires Acyclic(found, rank) && Below(found, rank, props, bound)
    requires i <= n <= |props|
    ensures PrintProps(found, rank, props, i, bound).lines <= PrintProps(found, rank, props, n, bound).lines
    decreases n
  {
    if i < n {
      PrintPropsGrows(found, rank, props, n - 1, bound, i);
    }
  }

  /**
    A property referring to a stored structure `t` has all of `t`'s lines written, right
    after the lines of the properties before it, so before the declaration that holds it.
  */
  lemma NestedBeforeDeclaration(found: map<RefNode, AnyRef>, rank: map<string, nat>,
                                s: Structure, bound: nat, i: nat)
    requires Acyclic(found, rank) && Below(found, rank, s.properties, bound)
    requires i < |s.properties| && Nested(found, s.properties[i].schema)
    requires Print(found, rank, s, bound).panic.None?
    ensures var r := s.properties[i].schema.ref;
            var t := found[r].target.structure;
            && Print(found, rank, t, rank[r.name]).panic.None?
            && PrintProps(found, rank, s.properties, i, bound).lines
               + Print(found, rank, t, rank[r.name]).lines
               <= PrintProps(found, rank, s.properties, |s.properties|, bound).lines
  {
    var props := s.properties;
    var r := props[i].schema.ref;
    var t := found[r].target.structure;
    var pre := PrintProps(found, rank, props, i, bound);
    var v := Visit(found, rank, props[i].schema, bound);
    var after := PrintProps(found, rank, props, i + 1, bound);
    assert after == Step(found, rank, pre, props[i], bound);
    if after.panic.Some? {
      PrintPropsStops(found, rank, props, |props|, bound, i + 1);
    }
    assert pre.panic.None?;
    assert after == Pass(pre.lines + v.lines, pre.fields + [Field(props[i].name, v.typeName, props[i].name + ",omitempty")], None);
    assert v.lines == Print(found, rank, t, rank[r.name]).lines;
    PrintPropsGrows(found, rank, props, |props|, bound, i + 1);
  }

  /** A field's type names its reference's own target: with a `*` for a structure. */
  lemma TypeNameOfReference(c: Catalog, found: map<RefNode, AnyRef>, r: RefNode)
    requires Sound(c, found) && r in found
    ensures TypeName(found, Reference(r)) == if c.IsStructureName(r.name) then "*" + r.name else r.name
  {
  }

  /** With the `Found` fields left by the resolver, a resolved structure prints without panicking. */
  lemma {:induction false} ResolvedPrintsWithoutPanic(found: map<RefNode, AnyRef>,
                                                      rank: map<string, nat>, s: Structure, bound: nat)
    requires Acyclic(found, rank) && Closed(found) && Below(found, rank, s.properties, bound)
    requires AllResolved(found.Keys, s.properties)
    ensures Print(found, rank, s, bound).panic.None?
    decreases bound, 1
  {
    ResolvedPropsWithoutPanic(found, rank, s.properties, |s.properties|, bound);
  }

  lemma {:induction false} ResolvedPropsWithoutPanic(found: map<RefNode, AnyRef>,
                                                     rank: map<string, nat>, props: seq<Property>, n: nat, bound: nat)
    requires Acyclic(found, rank) && Closed(found) && Below(found, rank, props, bound) && n <= |props|
    requires AllResolved(found.Keys, props)
    ensures PrintProps(found, rank, props, n, bound).panic.None?
    decreases bound, 0, n, 2
  {
    if n > 0 {
      ResolvedPropsWithoutPanic(found, rank, props, n - 1, bound);
      var p := props[n - 1];
      assert ResolvedIn(found.Keys, p.schema);
      assert p.schema.Reference? ==> p.schema.ref in found;
      if Nested(found, p.schema) {
        var r := p.schema.ref;
        var t := found[r].target.structure;
        assert r.name in rank && Below(found, rank, t.properties, rank[r.name]);
        assert AllResolved(found.Keys, t.properties);
        ResolvedPrintsWithoutPanic(found, rank, t, rank[r.name]);
      }
      assert Visit(found, rank, p.schema, bound).panic.None?;
    }
  }

  // ---- From the resolver's state to the emitter's -----------------------------------------

  /** Every resolved node naming a structure names a ranked one. */
  ghost predicate RankedNodes(c: Catalog, found: map<RefNode, AnyRef>, rank: map<string, nat>)
  {
    forall r | r in found :: c.IsStructureName(r.name) ==> r.name in rank
  }

  /** On sound `Found` fields, the catalog's ranking bounds the structures a property leads to. */
  lemma CoveredBelow(c: Catalog, found: map<RefNode, AnyRef>, rank: map<string, nat>, props: seq<Property>, bound: nat)
    requires Sound(c, found) && c.PropertiesCovered(rank, props, bound)
    ensures Below(found, rank, props, bound)
  {
    forall j | 0 <= j < |props| ensures NestedBelow(found, rank, props[j].schema, bound) {
      assert c.Covered(rank, props[j].schema, bound);
    }
  }

  /** Sound `Found` fields over a ranked catalog nest acyclically. */
  lemma SoundAcyclic(c: Catalog, found: map<RefNode, AnyRef>, rank: map<string, nat>)
    requires Sound(c, found) && c.Ranked(rank) && RankedNodes(c, found, rank)
    ensures Acyclic(found, rank)
  {
    forall r | r in found && found[r].target.StructureDef?
      ensures r.name in rank && Below(found, rank, found[r].target.structure.properties, rank[r.name])
    {
      assert c.IsStructureName(r.name);
      CoveredBelow(c, found, rank, found[r].target.structure.properties, rank[r.name]);
    }
  }

  // ---- The Go `pp` -----------------------------------------------------------------

  class Printer {
    /** Everything written to the output so far. */
    var out: seq<Line>

    constructor ()
      ensures out == []
    {
      out := [];
    }

    /**
      Writes the nested structures of `s` and then its declaration; a property whose
      reference is unresolved stops the printer with a "ref not found" panic, after the
      lines already written.
    */
    method PrintStruct(found: map<RefNode, AnyRef>, s: Structure, ghost rank: map<string, nat>, ghost bound: nat)
      returns (panic: Option<string>)
      requires Acyclic(found, rank) && Below(found, rank, s.properties, bound)
      modifies this
      decreases bound, 2
      ensures out == old(out) + Print(found, rank, s, bound).lines
      ensures panic == Print(found, rank, s, bound).panic
    {
      var types;
      types, panic := PrintProperties(found, s.properties, rank, bound);
      if panic.Some? {
        return;
      }
      WriteDeclaration(s.name, types);
    }

    /**
      The loop of `PrintStruct` over the properties, in order: prints what each refers to and
      collects its field line; stops at the first panic.
    */
    method PrintProperties(found: map<RefNode, AnyRef>, props: seq<Property>,
                           ghost rank: map<string, nat>, ghost bound: nat)
      returns (types: seq<Line>, panic: Option<string>)
      requires Acyclic(found, rank) && Below(found, rank, props, bound)
      modifies this
      decreases bound, 1
      ensures out == old(out) + PrintProps(found, rank, props, |props|, bound).lines
      ensures panic == PrintProps(found, rank, props, |props|, bound).panic
      ensures panic.None? ==> types == PrintProps(found, rank, props, |props|, bound).fields
    {
      ghost var start := out;
      types := [];
      ghost var pass := Pass([], [], None);
      var i := 0;
      while i < |props|
        invariant 0 <= i <= |props|
        invariant pass == PrintProps(found, rank, props, i, bound)
        invariant pass.panic.None? && out == start + pass.lines && types == pass.fields
      {
        ghost var after := Step(found, rank, pass, props[i], bound);
        assert PrintProps(found, rank, props, i + 1, bound) == after;
        var typeName;
        typeName, panic := PrintType(found, props[i].schema, rank, bound);
        if panic.Some? {
          PrintPropsStops(found, rank, props, |props|, bound, i + 1);
          return;
        }
        types := types + [Field(props[i].name, typeName, props[i].name + ",omitempty")];
        pass := after;
        i := i + 1;
      }
      panic := None;
    }

    /**
      The `switch` on a property's kind: the Go type of its field, after printing the
      structure it refers to, if any; "ref not found" when its reference is unresolved.
    */
    method PrintType(found: map<RefNode, AnyRef>, s: Schema, ghost rank: map<string, nat>, ghost bound: nat)
      returns (typeName: string, panic: Option<string>)
      requires Acyclic(found, rank) && NestedBelow(found, rank, s, bound)
      modifies this
      decreases bound, 0
      ensures out == old(out) + Visit(found, rank, s, bound).lines
      ensures typeName == Visit(found, rank, s, bound).typeName
      ensures panic == Visit(found, rank, s, bound).panic
    {
      typeName, panic := "", None;
      if s.Reference? {
        var r := s.ref;
        if r !in found {
          return "", Some("ref not found: " + r.name);
        }
        var target := found[r].target;
        if target.StructureDef? {
          panic := PrintStruct(found, target.structure, rank, rank[r.name]);
          if panic.Some? {
            return;
          }
          typeName := "*" + target.structure.name;
        } else if target.EnumerationDef? {
          typeName := target.enumeration.name;
        } else {
          typeName := target.alias.name;
        }
      } else if s.Base? && s.name == "string" {
        typeName := "string";
      }
    }

    /** The three `p.p` writes that close `PrintStruct`: the header, one line per field, the brace. */
    method WriteDeclaration(name: string, fields: seq<Line>)
      modifies this
      ensures out == old(out) + [Open(name)] + fields + [Close]
    {
      out := out + [Open(name)];
      var j := 0;
      while j < |fields|
        invariant 0 <= j <= |fields|
        invariant out == old(out) + [Open(name)] + fields[..j]
      {
        out := out + [fields[j]];
        j := j + 1;
      }
      assert fields[..j] == fields;
      out := out + [Close];
    }

    /**
      Resolves the structure `name` and prints it: the two steps of the generator's run.
      A resolution error is returned before anything is written; a resolved structure
      never makes the printer panic.
    */
    method Generate(m: Model, name: string, ghost rank: map<string, nat>)
      returns (err: Option<Error>)
      requires m.Valid() && m.catalog.Ranked(rank) && (m.catalog.IsStructureName(name) ==> name in rank)
      requires RankedNodes(m.catalog, m.found, rank)
      modifies this, m
      ensures m.Valid()
      ensures m.catalog.FindStructure(name).None? ==> err == Some(StructureNotFound(name))
      ensures m.catalog.IsStructureName(name) ==>
                var t := TraceProperties(m.catalog, rank, m.catalog.FindStructure(name).value.properties, rank[name]);
                && (err.None? <==> t.failure.None?)
                && (err.Some? ==> err == Some(RefNotFound(t.failure.value)))
      ensures m.catalog.FindStructure(name).None? ==> m.found == old(m.found)
      ensures m.catalog.IsStructureName(name) ==>
                m.found.Keys == old(m.found.Keys) +
                  Elems(TraceProperties(m.catalog, rank, m.catalog.FindStructure(name).value.properties, rank[name]).written)
      ensures RankedNodes(m.catalog, m.found, rank)
      ensures err.Some? ==> out == old(out)
      ensures err.None? ==>
                && m.catalog.IsStructureName(name)
                && Acyclic(m.found, rank)
                && Below(m.found, rank, m.catalog.FindStructure(name).value.properties, rank[name])
                && Print(m.found, rank, m.catalog.FindStructure(name).value, rank[name]).panic.None?
                && out == old(out) + Print(m.found, rank, m.catalog.FindStructure(name).value, rank[name]).lines
    {
      ghost var before := m.found;
      var s := m.Structure(name, rank);
      if m.catalog.IsStructureName(name) {
        ghost var props := m.catalog.FindStructure(name).value.properties;
        TracePropertiesRanked(m.catalog, rank, props, rank[name]);
        assert RankedNodes(m.catalog, m.found, rank) by {
          forall r | r in m.found ensures m.catalog.IsStructureName(r.name) ==> r.name in rank {
            if r !in before {
              assert r in Elems(TraceProperties(m.catalog, rank, props, rank[name]).written);
            }
          }
        }
      }
      if s.Err? {
        return Some(s.error);
      }
      SoundAcyclic(m.catalog, m.found, rank);
      CoveredBelow(m.catalog, m.found, rank, s.value.properties, rank[name]);
      ResolvedPrintsWithoutPanic(m.found, rank, s.value, rank[name]);
      var panic := PrintStruct(m.found, s.value, rank, rank[name]);
      err := None;
    }
  }
}
