/**
 * SetterCreator.Create from kyaml/setters2/settersutil/settercreator.go, and the
 * rule by which its FieldName selects fields.
 *
 * Create talks to a package reader/writer, the setters2.Add filter, the OpenAPI
 * file and a process-wide schema cache. None of those is modelled; what each
 * call reports back is an input (`Collaborators`), and what Create asks of them
 * is recorded, in order, as a trace of effects.
 */
module SettersUtil {
  import opened Wrappers
  import opened Segments
  import opened SchemaTypes

  /** The options of one Create call. */
  datatype SetterCreator = SetterCreator(
    name: string,
    setBy: string,
    description: string,
    typeName: string,
    schema: string,
    fieldName: string,
    fieldValue: string,
    required: bool)

  /** A setter definition as written to the OpenAPI file. */
  datatype SetterDefinition = SetterDefinition(
    name: string,
    value: string,
    listValues: seq<string>,
    setBy: string,
    description: string,
    typeName: string,
    schema: string,
    required: bool)

  /** The setters2.Add filter run over the resources; `setterName` names the referenced definition. */
  datatype AddFilter = AddFilter(fieldName: string, fieldValue: string, setterName: string, typeName: string)

  /** What the collaborators report back, in the order Create consults them. */
  datatype Collaborators = Collaborators(
    parsedSchema: Option<Schema>, // the schema text parsed; None when it is not valid JSON schema
    pipelineFails: bool,          // the read-filter-write pipeline over the resources returns an error
    count: nat,                   // the Add filter's match count after the pipeline
    listValues: seq<string>,      // the list values the Add filter derived
    firstWriteFails: bool,        // the first AddToFile returns an error
    reloadFails: bool,            // reloading the OpenAPI definitions returns an error
    secondWriteFails: bool)       // the second AddToFile returns an error

  datatype Effect =
    | RunAddPipeline(resourcesPath: string, filter: AddFilter)
    | NoMatchWarning(setterName: string)
    | AddToFile(openAPIPath: string, definition: SetterDefinition)
    | ReloadDefinitions(openAPIPath: string)

  datatype CreateError =
    | InvalidSchema(cause: SchemaError)
    | PipelineFailed
    | AddToFileFailed
    | ReloadFailed

  /** The Add filter Create runs: it tags fields matching FieldName/FieldValue with the setter. */
  function AddFor(c: SetterCreator): (a: AddFilter)
    ensures a.setterName == c.name && a.fieldName == c.fieldName && a.fieldValue == c.fieldValue
  {
    AddFilter(c.fieldName, c.fieldValue, c.name, c.typeName)
  }

  /** The definition of the first write: the options of the call, with FieldValue as the value. */
  function InitialDefinition(c: SetterCreator): (sd: SetterDefinition)
    ensures sd.name == c.name && sd.value == c.fieldValue && sd.listValues == []
  {
    SetterDefinition(c.name, c.fieldValue, [], c.setBy, c.description, c.typeName, c.schema, c.required)
  }

  /** The warning printed when the pipeline matched no field. */
  function WarningIfNoMatch(c: SetterCreator, count: nat): (w: seq<Effect>)
    ensures |w| <= 1
    ensures w != [] <==> count == 0
  {
    if count == 0 then [NoMatchWarning(c.name)] else []
  }

  /** The definitions written to the OpenAPI file, in order. */
  function Writes(trace: seq<Effect>): (defs: seq<SetterDefinition>)
    ensures |defs| <= |trace|
  {
    if |trace| == 0 then []
    else (if trace[0].AddToFile? then [trace[0].definition] else []) + Writes(trace[1..])
  }

  lemma {:induction false} WritesAppend(a: seq<Effect>, b: seq<Effect>)
    ensures Writes(a + b) == Writes(a) + Writes(b)
  {
    if |a| > 0 {
      assert (a + b)[1..] == a[1..] + b;
      WritesAppend(a[1..], b);
    } else {
      assert a + b == b;
    }
  }

  /**
   * Create: validate the schema; run the Add pipeline (warning first when nothing
   * matched, then stop on a pipeline error); write the definition with
   * Value = FieldValue; reload; and, when the filter derived list values, write
   * the definition again with those values and an empty Value. Every error
   * returns at once.
   */
  method Create(c: SetterCreator, openAPIPath: string, resourcesPath: string, env: Collaborators)
    returns (trace: seq<Effect>, err: Option<CreateError>)
    // an invalid schema stops everything: no pipeline, no write
    ensures ValidateSchema(env.parsedSchema).Fail? ==>
              trace == [] && err == Some(InvalidSchema(ValidateSchema(env.parsedSchema).error))
    // a pipeline error stops before any write, after the no-match warning
    ensures ValidateSchema(env.parsedSchema).Pass? && env.pipelineFails ==>
              trace == Prelude(c, resourcesPath, env.count) && err == Some(PipelineFailed)
    // the first write carries FieldValue; its failure stops there
    ensures ValidateSchema(env.parsedSchema).Pass? && !env.pipelineFails && env.firstWriteFails ==>
              trace == Prelude(c, resourcesPath, env.count) + [AddToFile(openAPIPath, InitialDefinition(c))]
              && err == Some(AddToFileFailed)
    // the reload follows the first write; its failure stops there
    ensures ValidateSchema(env.parsedSchema).Pass? && !env.pipelineFails && !env.firstWriteFails && env.reloadFails ==>
              trace == Prelude(c, resourcesPath, env.count)
                       + [AddToFile(openAPIPath, InitialDefinition(c)), ReloadDefinitions(openAPIPath)]
              && err == Some(ReloadFailed)
    // with list values, the second write carries them and an empty value
    ensures ValidateSchema(env.parsedSchema).Pass? && !env.pipelineFails && !env.firstWriteFails && !env.reloadFails
            && env.listValues != [] && env.secondWriteFails ==>
              trace == SuccessTrace(c, openAPIPath, resourcesPath, env.count, env.listValues)
              && err == Some(AddToFileFailed)
    // every step succeeded
    ensures ValidateSchema(env.parsedSchema).Pass? && !env.pipelineFails && !env.firstWriteFails && !env.reloadFails
            && (env.listValues != [] ==> !env.secondWriteFails) ==>
              trace == SuccessTrace(c, openAPIPath, resourcesPath, env.count, env.listValues) && err.None?
  {
    trace := [];
    var valid := ValidateSchema(env.parsedSchema);
    if valid.Fail? {
      err := Some(InvalidSchema(valid.error));
      return;
    }

    var a := AddFor(c);
    trace := trace + [RunAddPipeline(resourcesPath, a)];
    if env.count == 0 {
      trace := trace + [NoMatchWarning(c.name)];
    }
    if env.pipelineFails {
      err := Some(PipelineFailed);
      return;
    }

    var sd := InitialDefinition(c);
    trace := trace + [AddToFile(openAPIPath, sd)];
    if env.firstWriteFails {
      err := Some(AddToFileFailed);
      return;
    }

    trace := trace + [ReloadDefinitions(openAPIPath)];
    if env.reloadFails {
      err := Some(ReloadFailed);
      return;
    }

    if |env.listValues| > 0 {
      sd := sd.(listValues := env.listValues, value := "");
      trace := trace + [AddToFile(openAPIPath, sd)];
      if env.secondWriteFails {
        err := Some(AddToFileFailed);
        return;
      }
    }
    err := None;
  }

  /** The effects of the resource step: run the Add pipeline, then warn if it matched nothing. */
  function Prelude(c: SetterCreator, resourcesPath: string, count: nat): (p: seq<Effect>)
    ensures |p| >= 1 && p[0] == RunAddPipeline(resourcesPath, AddFor(c))
    ensures NoMatchWarning(c.name) in p <==> count == 0
  {
    [RunAddPipeline(resourcesPath, AddFor(c))] + WarningIfNoMatch(c, count)
  }

  /** The definition of the second write: the derived list values replace the value. */
  function ListDefinition(c: SetterCreator, listValues: seq<string>): (sd: SetterDefinition)
    ensures sd.name == c.name && sd.value == "" && sd.listValues == listValues
    ensures sd.(value := c.fieldValue, listValues := []) == InitialDefinition(c)
  {
    InitialDefinition(c).(listValues := listValues, value := "")
  }

  /** The effects of a Create call in which every step succeeded. */
  function SuccessTrace(c: SetterCreator, openAPIPath: string, resourcesPath: string,
                        count: nat, listValues: seq<string>): seq<Effect>
  {
    Prelude(c, resourcesPath, count)
    + [AddToFile(openAPIPath, InitialDefinition(c)), ReloadDefinitions(openAPIPath)]
    + (if listValues != [] then [AddToFile(openAPIPath, ListDefinition(c, listValues))] else [])
  }

  /** The resource step writes no definition, so a pipeline error leaves the OpenAPI file alone. */
  lemma PreludeWritesNothing(c: SetterCreator, resourcesPath: string, count: nat)
    ensures Writes(Prelude(c, resourcesPath, count)) == []
  {
    WritesAppend([RunAddPipeline(resourcesPath, AddFor(c))], WarningIfNoMatch(c, count));
  }

  /**
   * A successful call writes the definition once with FieldValue, and a second
   * time, with the list values and an empty value, exactly when list values were
   * derived.
   */
  lemma SuccessWrites(c: SetterCreator, openAPIPath: string, resourcesPath: string,
                      count: nat, listValues: seq<string>)
    ensures Writes(SuccessTrace(c, openAPIPath, resourcesPath, count, listValues)) ==
              [InitialDefinition(c)] + (if listValues != [] then [ListDefinition(c, listValues)] else [])
  {
    var pre := Prelude(c, resourcesPath, count);
    var w1 := [AddToFile(openAPIPath, InitialDefinition(c)), ReloadDefinitions(openAPIPath)];
    var w2 := if listValues != [] then [AddToFile(openAPIPath, ListDefinition(c, listValues))] else [];
    PreludeWritesNothing(c, resourcesPath, count);
    WritesAppend(pre, w1);
    WritesAppend(pre + w1, w2);
    assert w1[1..][1..] == [];
    if listValues != [] {
      assert w2[1..] == [];
    }
  }

  /** Declaring a setter that matches no field still writes its definition, after the warning. */
  lemma ZeroMatchStillRegisters(c: SetterCreator, openAPIPath: string, resourcesPath: string,
                                listValues: seq<string>)
    ensures NoMatchWarning(c.name) in SuccessTrace(c, openAPIPath, resourcesPath, 0, listValues)
    ensures var defs := Writes(SuccessTrace(c, openAPIPath, resourcesPath, 0, listValues));
            |defs| >= 1 && defs[0] == InitialDefinition(c)
  {
    SuccessWrites(c, openAPIPath, resourcesPath, 0, listValues);
    assert Prelude(c, resourcesPath, 0) <= SuccessTrace(c, openAPIPath, resourcesPath, 0, listValues);
    assert Prelude(c, resourcesPath, 0)[1] == NoMatchWarning(c.name);
  }

  // ---------------------------------------------------------------------------
  // The OpenAPI file seen as a registry of definitions keyed by setter name.

  /** Each write replaces the definition stored under its setter's name. */
  function ApplyWrites(registry: map<string, SetterDefinition>, trace: seq<Effect>): (r: map<string, SetterDefinition>)
    ensures r.Keys == registry.Keys + set d | d in Writes(trace) :: d.name
    ensures forall n :: n in registry && (forall d :: d in Writes(trace) ==> d.name != n) ==> r[n] == registry[n]
    decreases |trace|
  {
    if |trace| == 0 then registry
    else
      var next := if trace[0].AddToFile? then registry[trace[0].definition.name := trace[0].definition] else registry;
      ApplyWrites(next, trace[1..])
  }

  /** A trace that writes nothing leaves the registry as it was. */
  lemma {:induction false} NoWritesNoChange(registry: map<string, SetterDefinition>, trace: seq<Effect>)
    requires Writes(trace) == []
    ensures ApplyWrites(registry, trace) == registry
    decreases |trace|
  {
    if |trace| > 0 {
      assert !trace[0].AddToFile? && Writes(trace[1..]) == [];
      NoWritesNoChange(registry, trace[1..]);
    }
  }

  lemma {:induction false} ApplyWritesAppend(registry: map<string, SetterDefinition>, a: seq<Effect>, b: seq<Effect>)
    ensures ApplyWrites(registry, a + b) == ApplyWrites(ApplyWrites(registry, a), b)
    decreases |a|
  {
    if |a| > 0 {
      assert (a + b)[1..] == a[1..] + b;
      var next := if a[0].AddToFile? then registry[a[0].definition.name := a[0].definition] else registry;
      ApplyWritesAppend(next, a[1..], b);
    } else {
      assert a + b == b;
    }
  }

  /**
   * After a successful Create the registry holds, under the setter's name, the
   * definition of the call: with FieldValue as its value when no list values were
   * derived, and with the derived list values and an empty value otherwise. Every
   * other setter's definition is as it was.
   */
  lemma RegistryAfterSuccess(registry: map<string, SetterDefinition>, c: SetterCreator,
                             openAPIPath: string, resourcesPath: string, count: nat, listValues: seq<string>)
    ensures var after := ApplyWrites(registry, SuccessTrace(c, openAPIPath, resourcesPath, count, listValues));
            && after.Keys == registry.Keys + {c.name}
            && (forall n :: n in registry && n != c.name ==> after[n] == registry[n])
            && after[c.name] == (if listValues == [] then InitialDefinition(c) else ListDefinition(c, listValues))
  {
    var trace := SuccessTrace(c, openAPIPath, resourcesPath, count, listValues);
    SuccessWrites(c, openAPIPath, resourcesPath, count, listValues);
    assert (set d | d in Writes(trace) :: d.name) == {c.name};
    LastWriteWins(registry, c, openAPIPath, resourcesPath, count, listValues);
  }

  /** The entry under the setter's name is that of the call's last write. */
  lemma LastWriteWins(registry: map<string, SetterDefinition>, c: SetterCreator,
                      openAPIPath: string, resourcesPath: string, count: nat, listValues: seq<string>)
    ensures var after := ApplyWrites(registry, SuccessTrace(c, openAPIPath, resourcesPath, count, listValues));
            c.name in after && after[c.name] == (if listValues == [] then InitialDefinition(c) else ListDefinition(c, listValues))
  {
    var pre := Prelude(c, resourcesPath, count);
    var w1 := [AddToFile(openAPIPath, InitialDefinition(c)), ReloadDefinitions(openAPIPath)];
    var w2 := if listValues != [] then [AddToFile(openAPIPath, ListDefinition(c, listValues))] else [];
    PreludeWritesNothing(c, resourcesPath, count);
    NoWritesNoChange(registry, pre);
    ApplyWritesAppend(registry, pre + w1, w2);
    ApplyWritesAppend(registry, pre, w1);
    var r1 := registry[c.name := InitialDefinition(c)];
    assert ApplyWrites(registry, w1) == r1 by {
      assert w1[1..][1..] == [];
      assert ApplyWrites(r1, w1[1..]) == ApplyWrites(r1, w1[1..][1..]);
    }
    if listValues != [] {
      assert w2[1..] == [];
    }
  }

  /** A Create that stops at the schema or at the pipeline leaves the registry untouched. */
  lemma AbortLeavesRegistry(registry: map<string, SetterDefinition>, c: SetterCreator,
                            resourcesPath: string, count: nat)
    ensures ApplyWrites(registry, Prelude(c, resourcesPath, count)) == registry
  {
    PreludeWritesNothing(c, resourcesPath, count);
    NoWritesNoChange(registry, Prelude(c, resourcesPath, count));
  }

  // ---------------------------------------------------------------------------
  // FieldName: the full name of a field, its full path, or a suffix of its path.

  /** `run` is a trailing run of the segments of `path`. */
  predicate IsTrailingRun(run: seq<string>, path: seq<string>)
  {
    |run| <= |path| && path[|path| - |run|..] == run
  }

  /**
   * Whether FieldName selects the field at the dotted location `path`: an empty
   * FieldName selects every field; otherwise its dotted segments must equal the
   * last segments of the path.
   */
  predicate FieldNameMatches(fieldName: string, path: seq<string>): (m: bool)
    ensures fieldName == "" ==> m
    ensures fieldName != "" && NoSeparator(fieldName, '.') ==> (m <==> |path| > 0 && path[|path| - 1] == fieldName)
  {
    fieldName == "" || IsTrailingRun(Split(fieldName, '.'), path)
  }

  /** A run is trailing exactly when it is the path from some segment on. */
  lemma TrailingRunIffSomeSuffix(run: seq<string>, path: seq<string>)
    ensures IsTrailingRun(run, path) <==> exists k :: 0 <= k <= |path| && path[k..] == run
  {
    if exists k :: 0 <= k <= |path| && path[k..] == run {
      var k :| 0 <= k <= |path| && path[k..] == run;
      assert |path| - |run| == k;
    }
    if IsTrailingRun(run, path) {
      var k := |path| - |run|;
      assert 0 <= k <= |path| && path[k..] == run;
    }
  }

  /** Every trailing run of a path, written with dots, matches that path. */
  lemma {:induction false} TrailingRunsMatch(path: seq<string>, k: nat)
    requires k < |path|
    requires forall i :: 0 <= i < |path| ==> NoSeparator(path[i], '.')
    ensures FieldNameMatches(Join(path[k..], '.'), path)
  {
    var run := path[k..];
    forall i | 0 <= i < |run| ensures NoSeparator(run[i], '.') {
      assert run[i] == path[k + i];
    }
    SplitJoin(run, '.');
  }

  /** The path spec.template.spec.containers.image of the FieldName doc comment, as segments. */
  function ContainerImagePath(): (path: seq<string>)
    ensures |path| == 5 && forall i :: 0 <= i < |path| ==> NoSeparator(path[i], '.')
  {
    ["spec", "template", "spec", "containers", "image"]
  }

  // The example of the FieldName doc comment: each of its five names matches the path.

  lemma ImageMatches()
    ensures FieldNameMatches("image", ContainerImagePath())
  {
    assert ContainerImagePath()[4..] == ["image"];
    TrailingRunsMatch(ContainerImagePath(), 4);
  }

  /** The trailing run ["containers", "image"] written with dots. */
  lemma ContainersImageJoined()
    ensures Join(ContainerImagePath()[3..], '.') == "containers.image"
  {
    var path := ContainerImagePath();
    assert path[3..] == [path[3]] + path[4..];
    assert path[4..] == ["image"];
    JoinCons(path[3], path[4..], '.');
  }

  lemma ContainersImageMatches()
    ensures FieldNameMatches("containers.image", ContainerImagePath())
  {
    ContainersImageJoined();
    TrailingRunsMatch(ContainerImagePath(), 3);
  }

  /** The trailing run ["spec", "containers", "image"] written with dots. */
  lemma SpecContainersImageJoined()
    ensures Join(ContainerImagePath()[2..], '.') == "spec.containers.image"
  {
    var path := ContainerImagePath();
    assert path[2..] == [path[2]] + path[3..];
    ContainersImageJoined();
    JoinCons(path[2], path[3..], '.');
  }

  lemma SpecContainersImageMatches()
    ensures FieldNameMatches("spec.containers.image", ContainerImagePath())
  {
    SpecContainersImageJoined();
    TrailingRunsMatch(ContainerImagePath(), 2);
  }

  /** The trailing run ["template", "spec", "containers", "image"] written with dots. */
  lemma TemplateSpecContainersImageJoined()
    ensures Join(ContainerImagePath()[1..], '.') == "template.spec.containers.image"
  {
    var path := ContainerImagePath();
    assert path[1..] == [path[1]] + path[2..];
    SpecContainersImageJoined();
    JoinCons(path[1], path[2..], '.');
  }

  lemma TemplateSpecContainersImageMatches()
    ensures FieldNameMatches("template.spec.containers.image", ContainerImagePath())
  {
    TemplateSpecContainersImageJoined();
    TrailingRunsMatch(ContainerImagePath(), 1);
  }

  /** The full dotted path, spelled out. */
  lemma FullPathSpelled()
    ensures "spec" + "." + "template.spec.containers.image" == "spec.template.spec.containers.image"
  {
  }

  /** The trailing run ["spec", "template", "spec", "containers", "image"] written with dots. */
  lemma FullPathJoined()
    ensures Join(ContainerImagePath()[0..], '.') == "spec.template.spec.containers.image"
  {
    var path := ContainerImagePath();
    assert path[0..] == ["spec"] + path[1..];
    TemplateSpecContainersImageJoined();
    JoinCons("spec", path[1..], '.');
    FullPathSpelled();
  }

  lemma FullPathMatches()
    ensures FieldNameMatches("spec.template.spec.containers.image", ContainerImagePath())
  {
    FullPathJoined();
    TrailingRunsMatch(ContainerImagePath(), 0);
  }

  /** Matching is by whole segments, not by characters, and the segments must be consecutive. */
  lemma ContainerImageNonMatches()
    ensures !FieldNameMatches("age", ContainerImagePath())
    ensures !FieldNameMatches("spec.image", ContainerImagePath())
  {
    var path := ContainerImagePath();
    assert NoSeparator("age", '.');
    assert path[4..] == ["image"];
    SplitJoin(["spec", "image"], '.');
    assert Join(["spec", "image"], '.') == "spec.image";
    assert path[3..] == ["containers", "image"];
  }
}
