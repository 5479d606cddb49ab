# kustomize setters: schema validation, setter creation and value-add splicing

A Dafny model of two pieces of kustomize's setter machinery.

- **`kyaml/setters2/settersutil/settercreator.go`**
  - `validateSchema` and `validateSchemaTypes` check a setter's OpenAPI schema before anything else happens. Every node of the schema tree may declare at most one type tag, and that tag must be one of the eight recognised tags. The check recurses through `items.schema` and through each of the tuple-style `items.schemas`.
  - `SetterCreator.Create` validates the schema, then runs the `setters2.Add` pipeline over the resources. It warns when no field matched, then writes the setter definition to the OpenAPI file. Next it reloads the definitions and, when the Add filter derived list values, writes the definition a second time with those values.
  - The doc comment of `FieldName` says a name selects a field when it is the field's full name, its full path, or a suffix of its path. Its examples are all whole segments, and the model reads "suffix" that way: the name's dotted segments must equal some trailing run of the path's segments.
- **`api/filters/valueadd/valueadd_test.go`**: `TestValueAddFilter` fixes what the value-add filter does with a `/`-separated field path and a `FilePathPosition`.
  - Missing mappings along the path are created, appended after the existing fields.
  - Position 0 (unset) replaces the target scalar.
  - Position `k >= 1` inserts the value as a new `/`-segment so that it becomes segment `k`, or the last segment when `k` is past the end.

Modules:

- `Wrappers`: `Option`, `Outcome` and `Result`.
- `Segments`: Go's `strings.Split` and `strings.Join` on one separator character, with their round trips.
- `SchemaTypes`: the parsed schema tree and its validator.
  - It proves that the validator agrees with a declarative "every node well typed" predicate.
  - It also proves that the error returned is that of the first bad node in pre-order.
- `SettersUtil`: `Create` as an imperative method over abstract collaborator outcomes.
  - The method returns the trace of effects it asks for. Lemmas state what that trace writes and how it changes the registry of definitions held by the OpenAPI file.
  - The module also holds the `FieldName` rule, with the doc comment's example.
- `ValueAdd`: the splice on `/`-segments, the path update on a tree of mappings and scalars, and the five table cases.

## Model

| member | source | states |
|---|---|---|
| SchemaTypes.IsValidType | kyaml/setters2/settersutil/settercreator.go:125-136 | the membership loop sets its flag exactly when the tag is one of object, array, string, integer, number, boolean, file, null |
| SchemaTypes.NodeError | kyaml/setters2/settersutil/settercreator.go:121-136 | a node's own tags are fine exactly when it has none, or one recognised tag; otherwise the error is "multiple types" or "unsupported type" |
| SchemaTypes.ValidateSchemaTypes | kyaml/setters2/settersutil/settercreator.go:120-155 | more than one tag fails with "multiple types" whatever the items hold; passing implies the node's own tags are fine; no tag problem and no items passes; every failure is one of the two type errors |
| SchemaTypes.ValidateEach | kyaml/setters2/settersutil/settercreator.go:146-152 | the loop over the tuple item schemas fails only with a type error |
| SchemaTypes.ValidateSchema | kyaml/setters2/settersutil/settercreator.go:108-116 | an unparseable schema fails with the parse error and nothing else does; a parsed one gets exactly the type check |
| SchemaTypes.ValidateIffWellTyped | kyaml/setters2/settersutil/settercreator.go:139-153 | the validator passes if and only if every node reachable through item schemas and tuple item schemas is well typed, at any depth |
| SchemaTypes.ValidateEachIffAllWellTyped | kyaml/setters2/settersutil/settercreator.go:146-152 | the tuple loop passes if and only if every element is well typed |
| SchemaTypes.ValidateFindsFirstInPreorder | kyaml/setters2/settersutil/settercreator.go:121-152 | the validator's result is the own-tag error of the first bad node in the order node, item schema subtree, tuple item subtrees left to right; it passes when no node is bad |
| SchemaTypes.ValidateEachFindsFirstInPreorder | kyaml/setters2/settersutil/settercreator.go:146-152 | the tuple loop returns the first error in the left-to-right walk of the elements' subtrees |
| SchemaTypes.WellTypedIffEveryNodeOk | kyaml/setters2/settersutil/settercreator.go:120-155 | well typed means every node the validator visits passes its own check |
| SchemaTypes.MultipleTypesRejectedAnywhere | kyaml/setters2/settersutil/settercreator.go:121-123 | a node with two or more tags anywhere in the tree makes validation fail |
| SettersUtil.Create | kyaml/setters2/settersutil/settercreator.go:50-100 | the exact effect trace and error for each outcome. An invalid schema gives no effect. A pipeline error stops after the run and the no-match warning. The first write (value = FieldValue) or the reload failing stops there. The second write (list values, empty value) happens only with list values |
| SettersUtil.AddFor | kyaml/setters2/settersutil/settercreator.go:58-63 | the Add filter carries the call's FieldName and FieldValue and references the setter by its name |
| SettersUtil.InitialDefinition | kyaml/setters2/settersutil/settercreator.go:77-80 | the first definition carries the setter's name, FieldValue as value, and no list values |
| SettersUtil.WarningIfNoMatch | kyaml/setters2/settersutil/settercreator.go:69-71 | the warning is emitted exactly when the match count is zero |
| SettersUtil.Prelude | kyaml/setters2/settersutil/settercreator.go:64-71 | the resource step starts with the pipeline run and contains the no-match warning exactly when the count is zero |
| SettersUtil.ListDefinition | kyaml/setters2/settersutil/settercreator.go:91-93 | the second definition has the derived list values and an empty value, and differs from the first in nothing else |
| SettersUtil.PreludeWritesNothing | kyaml/setters2/settersutil/settercreator.go:64-74 | the resource step (including the abort on a pipeline error) writes no definition |
| SettersUtil.SuccessWrites | kyaml/setters2/settersutil/settercreator.go:77-97 | a successful call writes the first definition, then the list definition exactly when list values were derived |
| SettersUtil.ZeroMatchStillRegisters | kyaml/setters2/settersutil/settercreator.go:69-83 | a setter that matches no field still gets its definition written, after the warning |
| SettersUtil.ApplyWrites | kyaml/setters2/settersutil/settercreator.go:81-96 | replaying a trace's writes adds exactly the written setters' names to the registry, and an entry no write names is unchanged (the registry reading of the OpenAPI file given under "## Left out") |
| SettersUtil.LastWriteWins | kyaml/setters2/settersutil/settercreator.go:91-96 | after a successful call the entry under the setter's name is the list definition when list values were derived, else the first definition |
| SettersUtil.RegistryAfterSuccess | kyaml/setters2/settersutil/settercreator.go:76-97 | after success the registry has the setter's name added, every other entry unchanged, and under the name the first definition, or the list definition when list values were derived |
| SettersUtil.AbortLeavesRegistry | kyaml/setters2/settersutil/settercreator.go:50-74 | a call that stops at the schema or at the pipeline leaves the registry as it was |
| SettersUtil.FieldNameMatches | kyaml/setters2/settersutil/settercreator.go:32-38 | an empty FieldName selects every field; a single dot-free name selects exactly the paths whose last key it is; in general its dotted segments must equal the path's last segments (whole-segment reading) |
| SettersUtil.TrailingRunIffSomeSuffix | kyaml/setters2/settersutil/settercreator.go:32-37 | a run of segments is trailing exactly when it is the path from some segment on |
| SettersUtil.TrailingRunsMatch | kyaml/setters2/settersutil/settercreator.go:32-37 | every trailing run of a path with dot-free keys, written with dots, is a FieldName that selects that path |
| SettersUtil.ImageMatches | kyaml/setters2/settersutil/settercreator.go:34-36 | `image` selects spec.template.spec.containers.image |
| SettersUtil.ContainersImageMatches | kyaml/setters2/settersutil/settercreator.go:34-36 | `containers.image` selects it |
| SettersUtil.SpecContainersImageMatches | kyaml/setters2/settersutil/settercreator.go:34-36 | `spec.containers.image` selects it |
| SettersUtil.TemplateSpecContainersImageMatches | kyaml/setters2/settersutil/settercreator.go:34-36 | `template.spec.containers.image` selects it |
| SettersUtil.FullPathMatches | kyaml/setters2/settersutil/settercreator.go:34-36 | the full path `spec.template.spec.containers.image` selects it |
| SettersUtil.ContainerImageNonMatches | kyaml/setters2/settersutil/settercreator.go:32-37 | under the whole-segment reading the model takes, `age` (a character suffix) and `spec.image` (not consecutive) do not select it |
| Segments.Split | api/filters/valueadd/valueadd_test.go:39 | a path splits into at least one piece, no piece holds the separator, and a separator-free string is its own single piece |
| Segments.JoinSplit | api/filters/valueadd/valueadd_test.go:39 | joining the pieces of a split gives back the string |
| Segments.SplitJoin | kyaml/setters2/settersutil/settercreator.go:33-36 | splitting a join of separator-free segments gives back the segments |
| ValueAdd.SpliceValue | api/filters/valueadd/valueadd_test.go:110-122 | position 0, a newly created field or an empty scalar give the value itself |
| ValueAdd.LeadingSeparatorIsASegment | api/filters/valueadd/valueadd_test.go:123-136 | segments are those of strings.Split: `/pie` has an empty first segment, so position 1 on it gives `v//pie` |
| ValueAdd.SpliceKeepsSegments | api/filters/valueadd/valueadd_test.go:151-164 | splicing at position k >= 1 adds exactly one segment, the value, at the clamped index k - 1; removing it gives back the old segments in order |
| ValueAdd.SplicePrefix | api/filters/valueadd/valueadd_test.go:123-136 | position 1 gives `value/existing` |
| ValueAdd.SplicePostfix | api/filters/valueadd/valueadd_test.go:137-150 | a position past the last segment gives `existing/value` |
| ValueAdd.SpliceMiddle | api/filters/valueadd/valueadd_test.go:151-164 | a position k with 1 < k <= n puts the value between the first k - 1 segments and the rest |
| ValueAdd.SetAt | api/filters/valueadd/valueadd_test.go:27-41 | creating below a missing node never fails, and a non-empty path yields a mapping |
| ValueAdd.ApplyFilter | api/filters/valueadd/valueadd_test.go:167-175 | a filtered document stays a mapping, and a scalar document is rejected |
| ValueAdd.SetThenLookup | api/filters/valueadd/valueadd_test.go:27-41 | afterwards the path leads to a scalar holding the splice of what was there before (nothing, when the field was created) |
| ValueAdd.SetLeavesOtherPaths | api/filters/valueadd/valueadd_test.go:28-36 | every path that leaves the field path leads where it did before, so fields like `kind` are untouched |
| ValueAdd.SetKeepsKeyOrder | api/filters/valueadd/valueadd_test.go:28-36 | the top-level keys keep their order, and a missing first key is appended after them (top level only; see SetKeepsKeysDistinct for every depth) |
| ValueAdd.SetKeepsKeysDistinct | api/filters/valueadd/valueadd_test.go:28-36 | a document whose mappings have distinct keys keeps them distinct at every depth after the path is set: no mapping gains a duplicate key |
| ValueAdd.ReplaceWithSameIsNoOp | api/filters/valueadd/valueadd_test.go:110-122 | replacing a scalar by the value it already holds leaves the document unchanged |
| ValueAdd.TablePath | api/filters/valueadd/valueadd_test.go:39 | the table's field path splits into the keys spec, resourceRef, external |
| ValueAdd.TablePathLiteral | api/filters/valueadd/valueadd_test.go:39 | that path is the string `spec/resourceRef/external` |
| ValueAdd.TableExisting | api/filters/valueadd/valueadd_test.go:18 | the shared scalar splits into projects, whatever |
| ValueAdd.TableExistingLiteral | api/filters/valueadd/valueadd_test.go:18 | that scalar is the string `projects/whatever` |
| ValueAdd.SimpleAdd | api/filters/valueadd/valueadd_test.go:27-41 | `{kind}` becomes `{kind, spec: {resourceRef: {external: valueAdded}}}` |
| ValueAdd.ReplaceExisting | api/filters/valueadd/valueadd_test.go:110-122 | with position unset, `projects/whatever` becomes `valueAdded` and `kind` is kept |
| ValueAdd.PrefixExisting | api/filters/valueadd/valueadd_test.go:123-136 | position 1 gives `valueAdded/projects/whatever` |
| ValueAdd.PostfixExisting | api/filters/valueadd/valueadd_test.go:137-150 | position 99 gives `projects/whatever/valueAdded` |
| ValueAdd.PlaceInMiddleOfExisting | api/filters/valueadd/valueadd_test.go:151-164 | position 2 gives `projects/valueAdded/whatever` |

## Left out

- Parsing the schema text (`UnmarshalJSON`): the parsed tree is an input, and a parse failure is one abstract outcome (`None`).
- The read-filter-write pipeline over the package, `setters2.Add`, `SetterDefinition.AddToFile` and `openapi.AddSchemaFromFile`: their code is not part of this model. Create receives their results (success or failure, match count, list values) as inputs and records the requests it makes as effects.
- The OpenAPI file is modelled as a registry keyed by setter name in which each write replaces the entry under its name. How `AddToFile` merges into the file is not part of this model.
- The reference written into matching fields: the `fieldmeta` definition prefixes are not part of this model, so the Add filter names the setter only.
- The text of the warning and of the error messages, and the `%v` wrapping of errors: only the kind of warning or error is recorded.
- SettersUtil.FieldNameMatches: the rule is taken from the doc comment, since the matching code in `setters2.Add` is not part of this model. Field keys are taken to be dot-free.
- The value-add filter's implementation is not part of this model, so only the table tests fix its behaviour. The model chooses these behaviours where the tests say nothing:
  - a scalar on the way, or a mapping at the end of the path, is an error;
  - a non-zero position on an empty scalar gives the value alone;
  - a repeated key follows its first occurrence;
  - segments are those of `strings.Split`, so a leading, trailing or doubled `/` gives empty segments, and they count toward the position (`/pie` at position 1 gives `v//pie`).
- ValueAdd.SpliceValue: positions are natural numbers (as are `Filter.filePathPosition` and the `pos` of SetAt). `FilePathPosition` is a signed integer in the source, and negative positions are not modelled, because the filter code that would define them is not part of this model.
- A 0-based reading of the position, with 0 as the prefix, disagrees with the tests. replaceExisting leaves the position unset (0) and expects a replacement, and prefixExisting uses 1 for the prefix. The model follows the tests.
- The addToList case and list-index path segments (`spec/http/0/...`): they need sequences in the tree, YAML block values and the case's tab-indented output.
- YAML parsing and serialisation, comments and setter markers. Documents are trees of ordered mappings and string scalars.
