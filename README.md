# lspschema: a verified model of the LSP meta-model code generator

`cmd/lspschema` reads the Language Server Protocol meta-model, a JSON catalog of
structures, enumerations and type aliases. It decodes the catalog's tagged schema nodes
and resolves the `reference` nodes reachable from one structure (`Diagnostic`) against the
catalog. It then prints that structure as a Go `struct` declaration. Before the
declaration, it prints, depth first, every structure that a property's type directly
references. A reference nested inside an array, or, and, map or tuple type is not
followed and gives an empty type name.

The model has six modules.

- `Wrappers`: `Option`, `Result`, and the element set of a sequence.
- `Schemas`: the nine-variant schema node (`Schema`) and the `kind` dispatch of
  `Schema.UnmarshalJSON`. The dispatch allocates the variant the kind selects (`Build`),
  and the strict field decoder's outcome, the fields it read (`Fields`), is an input.
- `Catalogs`: properties, structures, enumerations, type aliases, and the catalog's name
  lookup. Lookup tries structures, then enumerations, then type aliases, and the first
  match in each category wins. A ghost `rank` witnesses that the structures a structure
  refers to form no cycle. The Go program has no cycle guard: a cycle that resolution
  actually reaches recurses until the Go stack overflows. The model requires such a
  ranking (see "## Left out").
- `Resolver`: the Go `Model` as a class. Its `found` map holds the `Found` pointer of each
  reference node, keyed by the node's identity (`RefNode`). `ResolveRefs`, `AnyRef` and
  `Structure` are methods proved against a ghost `Trace`. The trace gives the nodes written,
  in order, and the name of the first reference that fails.
- `Emitter`: the printer `pp` as a class whose `out` is the sequence of lines written so far.
  `PrintStruct` is proved against the ghost function `Print`. `Generate` is the body of
  `run`: resolve one structure, then print it. It proves that a structure the resolver
  accepted never makes the printer panic.
- `Render`: the text of the three line formats, including the struct tag's closing
  backtick that the program omits (see "## Findings").

Decoding, resolving and printing operate on values the caller supplies. Fetching the
document over HTTP and the bytes of the JSON text are outside the model.

## Model

| member | source | states |
|---|---|---|
| Schemas.ParseKind | cmd/lspschema/gen.go:370-400 | a discriminator selects the kind whose wire name it is, and selects none exactly when no kind has that name |
| Schemas.KindNameRoundTrip | cmd/lspschema/gen.go:370-397 | every kind's wire name dispatches back to that kind, so the nine cases are distinct |
| Schemas.Build | cmd/lspschema/gen.go:370-397 | the variant allocated for a kind is of that kind, and a reference variant is the node with the decoded name |
| Schemas.DecodeSchema | cmd/lspschema/gen.go:361-406 | unknown kind gives "unknown schema kind"; strict decode failure gives "unmarshal schema type" with its cause; success yields the node the switch allocated, whose kind is the discriminator |
| Schemas.DecodeRoundTrip | cmd/lspschema/gen.go:361-406 | decoding a node's own kind name and fields gives that node back, for every variant |
| Catalogs.Catalog.FindStructure | cmd/lspschema/gen.go:222-228 | a structure found carries the requested name |
| Catalogs.Catalog.ScanStructure | cmd/lspschema/gen.go:222-228 | the scan from a position returns only a structure with the requested name |
| Catalogs.Catalog.ScanStructureIsFirst | cmd/lspschema/gen.go:222-228 | the scan returns the first structure from that position with the name, and none exactly when no later structure has it |
| Catalogs.Catalog.FindEnumeration | cmd/lspschema/gen.go:204-208 | an enumeration found carries the requested name |
| Catalogs.Catalog.ScanEnumeration | cmd/lspschema/gen.go:204-208 | the scan from a position returns only an enumeration with the requested name |
| Catalogs.Catalog.ScanEnumerationIsFirst | cmd/lspschema/gen.go:204-208 | the scan returns the first enumeration with the name, and none exactly when none has it |
| Catalogs.Catalog.FindTypeAlias | cmd/lspschema/gen.go:210-214 | a type alias found carries the requested name |
| Catalogs.Catalog.ScanTypeAlias | cmd/lspschema/gen.go:210-214 | the scan from a position returns only an alias with the requested name |
| Catalogs.Catalog.ScanTypeAliasIsFirst | cmd/lspschema/gen.go:210-214 | the scan returns the first alias with the name, and none exactly when none has it |
| Catalogs.Catalog.FindIsFirst | cmd/lspschema/gen.go:194-214 | each of the three scans returns the first definition with the name, and none only when its category lacks the name |
| Catalogs.Catalog.Lookup | cmd/lspschema/gen.go:193-218 | a definition found is named by the name looked up, and so is the `AnyRef` holding it |
| Catalogs.Catalog.LookupOrder | cmd/lspschema/gen.go:193-216 | structures are tried before enumerations, then type aliases; lookup fails exactly when no category has the name |
| Catalogs.StructureWinsOverEnumeration | cmd/lspschema/gen.go:194-202 | a name defined both as structure and as enumeration resolves to the structure |
| Resolver.TraceNodeResolves | cmd/lspschema/gen.go:136-184 | a successful resolution has resolved every reference node reachable from the schema |
| Resolver.TraceItemsResolves | cmd/lspschema/gen.go:150-164 | a successful pass over or/and/tuple items resolves every reference reachable from each item |
| Resolver.TracePropertiesResolves | cmd/lspschema/gen.go:233-237 | a successful property pass resolves every reference reachable from each property's type |
| Resolver.TraceNodeFailsOnMissing | cmd/lspschema/gen.go:137-141 | resolution fails only on a name no category defines, and writes `Found` only on nodes whose name resolves |
| Resolver.TraceItemsFailsOnMissing | cmd/lspschema/gen.go:150-164 | the item loops fail only on an undefined name and write only resolvable nodes |
| Resolver.TraceNameFailsOnMissing | cmd/lspschema/gen.go:193-216 | `AnyRef` fails only on an undefined name (its own or one reached through a structure's properties) |
| Resolver.TracePropertiesFailsOnMissing | cmd/lspschema/gen.go:233-237 | the property loop fails only on an undefined name and writes only resolvable nodes |
| Resolver.TraceNodeRanked | cmd/lspschema/gen.go:137-143 | every written node naming a structure names one ranked below the current level, so recursion descends |
| Resolver.TraceItemsRanked | cmd/lspschema/gen.go:150-164 | the same rank bound for the nodes written by the item loops |
| Resolver.TraceNameRanked | cmd/lspschema/gen.go:193-202 | the nodes written while resolving a structure name name structures ranked below that name's level |
| Resolver.TracePropertiesRanked | cmd/lspschema/gen.go:233-237 | the nodes written by the property loop name structures ranked below its bound |
| Resolver.TraceNodeFailsReached | cmd/lspschema/gen.go:136-184 | a failing resolution fails on a name it reaches, directly or through the properties of a structure it reaches |
| Resolver.TraceItemsFailsReached | cmd/lspschema/gen.go:150-164 | a failing item loop fails on a name one of its items reaches |
| Resolver.TraceNameFailsReached | cmd/lspschema/gen.go:193-218 | a failing `AnyRef(name)` fails on `name` itself or on a name its structure's properties reach |
| Resolver.TracePropertiesFailsReached | cmd/lspschema/gen.go:233-237 | a failing property loop fails on a name one of the properties reaches |
| Resolver.TraceNodeSucceedsDefined | cmd/lspschema/gen.go:136-184 | a successful resolution has found a definition for every name it reaches |
| Resolver.TraceItemsSucceedsDefined | cmd/lspschema/gen.go:150-164 | a successful item loop has found a definition for every name its items reach |
| Resolver.TraceNameSucceedsDefined | cmd/lspschema/gen.go:193-218 | a successful `AnyRef(name)` has found a definition for every name it reaches |
| Resolver.TracePropertiesSucceedsDefined | cmd/lspschema/gen.go:233-237 | a successful property loop has found a definition for every name the properties reach |
| Resolver.ResolvesIffReachedDefined | cmd/lspschema/gen.go:136-184 | `ResolveRefs(s)` succeeds exactly when every name it transitively reaches is defined in some category |
| Resolver.StructureResolvesIffReachedDefined | cmd/lspschema/gen.go:220-239 | `Structure(name)` on an existing structure succeeds exactly when every name its properties transitively reach is defined |
| Resolver.MissingReferenceFails | cmd/lspschema/gen.go:137-141 | a schema reaching a reference to an undefined name always makes resolution fail |
| Resolver.TraceItemsStops | cmd/lspschema/gen.go:150-156 | once an item fails, the remaining items are not visited |
| Resolver.TracePropertiesStops | cmd/lspschema/gen.go:233-237 | once a property fails, the remaining properties are not visited |
| Resolver.NoReferencesUntouched | cmd/lspschema/gen.go:136-184 | a schema with no reference node writes nothing and cannot fail |
| Resolver.NoReferencesItemsUntouched | cmd/lspschema/gen.go:150-164 | items with no reference node write nothing and cannot fail |
| Resolver.Model.constructor | cmd/lspschema/gen.go:104-105 | a new model starts with no `Found` field set |
| Resolver.Model.StoreKeepsValid | cmd/lspschema/gen.go:142 | writing a node's `Found` with its lookup result keeps every `Found` sound and every stored structure resolved |
| Resolver.Model.ResolveRefs | cmd/lspschema/gen.go:136-184 | the `Found` fields set are exactly the trace's nodes, the error is the trace's first failure, success resolves the whole tree, and validity is kept |
| Resolver.Model.ResolveReference | cmd/lspschema/gen.go:137-144 | the node's `Found` is written only after its target resolved, and the node is then resolved |
| Resolver.Model.ResolveItems | cmd/lspschema/gen.go:150-164 | the items are resolved in order, stopping at the first error, as the trace prescribes |
| Resolver.Model.AnyRef | cmd/lspschema/gen.go:193-218 | returns exactly the catalog lookup's definition, with a structure's properties resolved, or "ref not found" for the trace's failing name |
| Resolver.Model.Structure | cmd/lspschema/gen.go:220-239 | "structure not found" without touching `Found` when no structure has the name; otherwise the first such structure, with every property resolved, or the first resolution error |
| Resolver.Model.ResolveProperties | cmd/lspschema/gen.go:233-237 | the properties are resolved in order, stopping at the first error; success resolves every property's references |
| Emitter.TypeName | cmd/lspschema/gen.go:64-87 | a non-reference type is named `string` or nothing |
| Emitter.TypeNameChoice | cmd/lspschema/gen.go:64-87 | a reference's type is its target's name, with `*` exactly for a structure; otherwise only base `string` is named |
| Emitter.FieldLine | cmd/lspschema/gen.go:88 | a property's field line carries the tag `<wire name>,omitempty`, whether or not the property is optional |
| Emitter.Visit | cmd/lspschema/gen.go:64-87 | an unresolved reference panics with "ref not found"; otherwise the type name is the target's (with `*` for a structure), and only a structure reference writes lines |
| Emitter.Step | cmd/lspschema/gen.go:60-89 | after a panic nothing more happens; a turn without panic adds exactly the property's field line |
| Emitter.PrintPropsStops | cmd/lspschema/gen.go:68-70 | after a property panics, the later properties are not looked at |
| Emitter.PrintPropsFields | cmd/lspschema/gen.go:60-90 | a loop that finishes collects one field line per property, in property order, with the property's resolved type |
| Emitter.PrintEndsWithDeclaration | cmd/lspschema/gen.go:91-95 | a structure printed without panic ends with its header, one line per property, and the brace |
| Emitter.PrintPropsGrows | cmd/lspschema/gen.go:58-90 | the loop only appends: fewer properties write a prefix of the lines |
| Emitter.NestedBeforeDeclaration | cmd/lspschema/gen.go:71-73 | a property referring to a structure has that structure fully printed, right after the earlier properties' output and before the declaration |
| Emitter.TypeNameOfReference | cmd/lspschema/gen.go:71-78 | a resolved reference's field type is `*Name` for a structure and `Name` for an enumeration or alias |
| Emitter.ResolvedPrintsWithoutPanic | cmd/lspschema/gen.go:33-38 | a structure whose references the resolver resolved prints without the "ref not found" panic |
| Emitter.ResolvedPropsWithoutPanic | cmd/lspschema/gen.go:60-90 | the property loop over resolved properties never panics |
| Emitter.CoveredBelow | cmd/lspschema/gen.go:71-73 | with sound `Found` fields, the structures a property leads to are ranked below its structure |
| Emitter.SoundAcyclic | cmd/lspschema/gen.go:71-73 | sound `Found` fields over a ranked catalog nest without cycles, so printing terminates |
| Emitter.Printer.constructor | cmd/lspschema/gen.go:47-49 | a new printer has written nothing |
| Emitter.Printer.PrintStruct | cmd/lspschema/gen.go:58-97 | appends exactly what `Print` prescribes (nested structures, then the declaration) and panics exactly when it does |
| Emitter.Printer.PrintProperties | cmd/lspschema/gen.go:60-90 | the loop appends the nested output of each property in order and returns its field lines, or stops at the first panic |
| Emitter.Printer.PrintType | cmd/lspschema/gen.go:64-87 | prints a referenced structure and yields the field type, or panics on an unresolved reference, as `Visit` prescribes |
| Emitter.Printer.WriteDeclaration | cmd/lspschema/gen.go:91-95 | appends the header, the field lines in order and the closing brace |
| Emitter.Printer.Generate | cmd/lspschema/gen.go:27-40 | a missing structure gives "structure not found"; an existing one gives no error exactly when its resolution succeeds, and otherwise the resolution's "ref not found" error; nothing is printed on an error, and on success the structure is printed in full without panic; `Found` gains exactly the reference nodes the resolution wrote (none for a missing structure), and every structure name among the resolved nodes stays ranked, so calls can be chained |
| Render.FieldTextAsWritten | cmd/lspschema/gen.go:88-93 | the field text as written is a tab-indented line whose last character before the newline is the tag's closing quote, with no backtick after it |
| Render.LineText | cmd/lspschema/gen.go:88-95 | the header is `type <name> struct {`, the brace line is `}`, and a field line ends with the backtick that closes its tag |
| Render.FieldTagUnterminated | cmd/lspschema/gen.go:88 | the field format as written puts a single backtick in the line, leaving the struct tag's raw string unterminated |
| Render.MessageFieldUnterminated | cmd/lspschema/gen.go:88 | the concrete `Diagnostic.message` field line has one backtick |
| Render.FieldTagTerminated | cmd/lspschema/gen.go:88 | the corrected field line has exactly two backticks, one on each side of the tag |
| Render.ClosingBacktickRestored | cmd/lspschema/gen.go:88 | the corrected line is the written line with a backtick inserted before the newline |

## Left out

- Fetching the meta-model: `fetchMetaModel`, `httpGet` and the JSON byte decoding are left out because they do network and byte-level I/O. A decoded catalog is a `Catalog` value, and the strict field decoder's outcome is an input of `DecodeSchema`.
- `Schemas.DecodeSchema`: the first decode that reads only the `kind` field can fail on malformed JSON. That byte-level error is left out; the discriminator is an input.
- The model ignores the catalog fields the generator never reads: requests, notifications, meta data, an enumeration's type, values and custom-values flag, a type alias's type, `extends`, `mixins` and per-node documentation metadata.
- `strcase.ToGoPascal` is an external library. The Go field name is a parameter of `Render.LineText`, and a field line carries the wire name.
- Output is a sequence of lines, not bytes on an `io.Writer`. A writer error and the panic it causes are left out. So is `fmt` formatting beyond the three line shapes.
- Nil child pointers inside a decoded node are left out because the datatype cannot express them. For example, an array whose `element` is missing or `null`, a map without `key` or `value`, a property without `type`, or a `null` item of an or, and or tuple leaves a nil `*Schema` that Go dereferences during resolution.
- `Resolver.Model.ResolveRefs`, `Resolver.Model.AnyRef`, `Resolver.Model.Structure` and `Emitter.Printer.Generate` require a `rank` under which the catalog's structure references are acyclic. When resolution actually reaches a cycle, Go recurses until its stack overflows. The precondition also excludes cyclic catalogs on which Go stops early with an error, for example a structure `A` with properties `[ref Missing, ref A]`, for which `Structure("A")` returns "ref not found: Missing".
- Documents are assumed to carry no `found` key on reference nodes. `ReferenceSchema.Found` has no `json:"-"` tag, so the strict decoder would accept one; the model starts every node unresolved, and a successful resolution overwrites every `Found` the printer reads.
- The "not implemented" panic is left out because, for such documents, it is unreachable. Its `AnyRef` has none of its three pointers set, and `Definition` always has exactly one.
- `Emitter.Visit`: for kinds other than `reference` and base `string`, the type name is empty, as in the code.
- `Emitter.Step`: the code marks every field `omitempty`, and the model follows the code. So required properties are marked `omitempty` too.
- Go shares one `Schema` node through pointers after copying a structure in a `range` loop. The model expresses that sharing by keying `Found` on the node's identity, not by aliasing.

## Findings

| source | as written | input that shows it | evidently intended | confidence | as-written member | corrected member |
|---|---|---|---|---|---|---|
| cmd/lspschema/gen.go:88 | the field format (`Render.FieldTextAsWritten`) opens the struct tag with a backtick and never closes it | property `message` of `Diagnostic` gives a line ending in `json:"message,omitempty"` with no closing backtick | a closing backtick after the tag (`Render.LineText`), so the emitted declaration is valid Go | high; not executed | Render.FieldTagUnterminated | Render.FieldTagTerminated |

